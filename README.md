# Bodynodes cores in Dafny

Bodynodes is a body-tracking system. Sensor nodes (Arduino, ESP-12E, RedBear Duo,
nRF52840 boards and an Android phone app) read orientation, acceleration and glove
values, and send them to a host over WiFi or BLE. The host sends haptic actions back.
This project models the hardware-independent logic under that board glue, and proves
what the code promises about it:

- **Matrices** and **Determinants** model the sensor-fusion library's `BnMatrix`.
  This covers shape checks, row-major indexing, transpose, sums, products, identity
  and equality. It also covers the determinant's LU elimination, in place in an array,
  with its row swaps and sign flips.
- **Quaternions**, **SensorFusion** and **AxisRealign** model `BnQuaternion`.
  This covers its accessors, `conjugate` and the two `productHamilton` overloads.
  They also model the Madgwick filter's sample-period and init state, and the axis
  realignment of a quaternion.
- **GloveSensor** models the glove's signal conditioning: the moving-average and
  majority filters and the min/max scaling to 0..90.
- **GloveSerialReader** models the serial glove reader: line accumulation and nine
  `strtol` fields.
- **MessagesTable** models the intermediate node's bodypart table and its JSON-array
  serialiser.
- **PersMemory** models the length-prefixed key/value store over a 512-byte
  persistent block.
- **Datatypes** models the connection data and sensor data objects.
- **WifiNodeCommunicator** models the WiFi node's disconnected / waiting-for-ACK /
  connected machine: "BN" multicast discovery, "ACKN"/"ACKH" handshake, keep-alive,
  and bounded message and action lists.
- **SensorServiceWifi** models the same machine in the Android app, with its
  brace-delimited action extraction and its change-threshold test.
- **IpCodec** models dotted-quad IPv4 text: `formatIP`, `getInetAddressFromStr`
  (Java) and `getIPAdressFromStr` (C++, `strtok` and `atoi`).
- **BleCodecs**, **BleNode** and **BleConn** model the BLE nodes:
  - hexadecimal UUIDs to bytes;
  - value text to big-endian float or `uint8_t` notification bytes;
  - the read and write callbacks and the message sender;
  - the bounds-checked persistent block of the nRF52840;
  - the older RedBear BLE connection with its action characteristic.
- **OrientationSensors** models the reconnect, calibration and read gating of the
  BNO055 sensors, including the "first zeros" disconnect heuristic.
- **Actuators** models the haptic motor's timing across the 32-bit millisecond wrap.
- **NodeCoder** models the Python Arduino project generator:
  - the required configuration fields;
  - the template files a configuration selects;
  - the `#define` lines added to the board header;
  - the copy into the project folder;
  - the cartesian product of test configurations.
- **BodynodesProtocol** models the Android app's JSON data message and action check.

Objects whose fields the code updates in place are classes, with `modifies` clauses.
Buffers are arrays. Pure code is functions and lemmas.

C integer widths appear explicitly where the code relies on them:
- `uint8_t` casts;
- the 32-bit `millis()` counter and its unsigned differences;
- `int16_t` values;
- 32-bit `long` in `strtol`.

Some inputs are parameters:
- `millis()`;
- what the sensor chips, pins and the serial port return;
- whether WiFi or `begin()` succeeds;
- received packets;
- the results of `atof` and of JSON parsing.

## Model

| member | source | states |
|---|---|---|
| Common.ToU8 | examples/redbear_duo_ble_node/BnNodeSpecific.cpp:197 | the `(uint8_t)` cast keeps a value below 256 and otherwise agrees with it modulo 256 |
| Common.Elapsed | arduino/redbear_duo/wifi_node/sensor.cpp:149 | `millis() - last` in `unsigned long`: the plain difference, or that plus 2^32 once the clock has wrapped past the last stamp |
| Common.CDiv | examples/arduino_nano_33_glove_sensor_ble_mouse/BnGloveSensor.cpp:150 | C's `/` truncates toward zero: the Euclidean quotient for a non-negative dividend, minus the quotient of the magnitude for a negative one |
| Common.IsSubstring | esp-12e/wifi_snode/messages_mgr.cpp:60 | `strstr(s, pat) != NULL` holds iff pat occurs somewhere in s |
| Matrices.IdxInjective | python_nodes_coder/templates/sensors/BnOrientationAbsSensorFusion_ArduinoLSM9DS1.cpp:152-164 | two cells of a row-major buffer with columns below the stride never share the offset `c + r*columns` |
| Matrices.IdxDistinct | python_nodes_coder/templates/sensors/BnOrientationAbsSensorFusion_ArduinoLSM9DS1.cpp:159-164 | writing cell (row, col) touches no other cell's offset |
| Matrices.CellsDetermine | python_nodes_coder/templates/sensors/BnOrientationAbsSensorFusion_ArduinoLSM9DS1.cpp:152-157 | two matrices of one shape whose `val(r, c)` all agree hold the same buffer |
| Matrices.SetCell | python_nodes_coder/templates/sensors/BnOrientationAbsSensorFusion_ArduinoLSM9DS1.cpp:159-164 | the setter keeps the shape and clears the empty flag |
| Matrices.GetSetCell | python_nodes_coder/templates/sensors/BnOrientationAbsSensorFusion_ArduinoLSM9DS1.cpp:152-164 | after `val(r, c, v)` the getter returns v at (r, c) and the old value everywhere else |
| Matrices.Scaled | python_nodes_coder/templates/sensors/BnOrientationAbsSensorFusion_ArduinoLSM9DS1.cpp:244-253 | `multiply(mult)` keeps shape and empty flag |
| Matrices.ScaledTwice | python_nodes_coder/templates/sensors/BnOrientationAbsSensorFusion_ArduinoLSM9DS1.cpp:244-253 | scaling by a and then by b equals scaling by a*b |
| Matrices.ScaledByOne | python_nodes_coder/templates/sensors/BnOrientationAbsSensorFusion_ArduinoLSM9DS1.cpp:244-253 | scaling by 1 leaves the matrix as it was |
| Matrices.Transposed | python_nodes_coder/templates/sensors/BnOrientationAbsSensorFusion_ArduinoLSM9DS1.cpp:192-202 | an empty matrix gives `BnMatrix(0,0)`; otherwise a non-empty columns×rows matrix with out[c][r] = in[r][c] (same code also at python_nodes_coder/templates/sensors/BnOrientationAbsSensorFusion_ArduinoLSM9DS1.cpp:546-556) |
| Matrices.TransposeTwice | python_nodes_coder/templates/sensors/BnOrientationAbsSensorFusion_ArduinoLSM9DS1.cpp:192-202 | transposing a transpose gives back the original matrix |
| Matrices.DotProduct | python_nodes_coder/templates/sensors/BnOrientationAbsSensorFusion_ArduinoLSM9DS1.cpp:292-295 | the inner loop's sum is the dot product of row r of L and column c of R, in loop order (same code also at python_nodes_coder/templates/sensors/BnOrientationAbsSensorFusion_ArduinoLSM9DS1.cpp:318-321) |
| Matrices.ProductRow | python_nodes_coder/templates/sensors/BnOrientationAbsSensorFusion_ArduinoLSM9DS1.cpp:317-323 | the column loop yields one cell per column of R, cell c being the dot product of row `row` of L with column c of R |
| Matrices.Multiply | python_nodes_coder/templates/sensors/BnOrientationAbsSensorFusion_ArduinoLSM9DS1.cpp:301-326 | `BnMatrix(0,0)` on an empty operand or `L.columns != R.rows`; otherwise L.rows×R.columns cells, each the sum of L[r][k]*R[k][c] |
| Matrices.Identity | python_nodes_coder/templates/sensors/BnOrientationAbsSensorFusion_ArduinoLSM9DS1.cpp:455-473 | an n×n non-empty matrix with 1 on the diagonal and 0 elsewhere |
| Matrices.IdentityLeftUnit | python_nodes_coder/templates/sensors/BnOrientationAbsSensorFusion_ArduinoLSM9DS1.cpp:301-326 | identity(M.rows) times M has exactly M's shape and cells (same code also at python_nodes_coder/templates/sensors/BnOrientationAbsSensorFusion_ArduinoLSM9DS1.cpp:455-473) |
| Matrices.IdentityRightUnit | python_nodes_coder/templates/sensors/BnOrientationAbsSensorFusion_ArduinoLSM9DS1.cpp:301-326 | M times identity(M.columns) has exactly M's shape and cells (same code also at python_nodes_coder/templates/sensors/BnOrientationAbsSensorFusion_ArduinoLSM9DS1.cpp:455-473) |
| Matrices.Sum | python_nodes_coder/templates/sensors/BnOrientationAbsSensorFusion_ArduinoLSM9DS1.cpp:355-378 | `BnMatrix(0,0)` on an empty operand or a shape mismatch; otherwise the cell-wise sum |
| Matrices.Subtract | python_nodes_coder/templates/sensors/BnOrientationAbsSensorFusion_ArduinoLSM9DS1.cpp:407-429 | `BnMatrix(0,0)` on an empty operand or a shape mismatch; otherwise the cell-wise difference |
| Matrices.SubtractUndoesSum | python_nodes_coder/templates/sensors/BnOrientationAbsSensorFusion_ArduinoLSM9DS1.cpp:355-429 | (L + R) - R has L's shape and cells |
| Matrices.SumCommutes | python_nodes_coder/templates/sensors/BnOrientationAbsSensorFusion_ArduinoLSM9DS1.cpp:355-378 | L + R and R + L hold the same cells |
| Matrices.CellDiffers | python_nodes_coder/templates/sensors/BnOrientationAbsSensorFusion_ArduinoLSM9DS1.cpp:445-451 | one differing cell makes the buffers differ |
| Matrices.Equal | python_nodes_coder/templates/sensors/BnOrientationAbsSensorFusion_ArduinoLSM9DS1.cpp:431-453 | true exactly when both operands are non-empty, of one shape, and equal cell by cell |
| Matrices.ProductElementwise | python_nodes_coder/templates/sensors/BnOrientationAbsSensorFusion_ArduinoLSM9DS1.cpp:646-666 | `BnVector(0)` on an empty operand or a length mismatch; otherwise a vector with entry i = L[i]*R[i] |
| Matrices.BnMatrix.Value | python_nodes_coder/templates/sensors/BnOrientationAbsSensorFusion_ArduinoLSM9DS1.cpp:128-143 | the value an object holds has its shape and empty flag |
| Matrices.BnMatrix.Empty | python_nodes_coder/templates/sensors/BnOrientationAbsSensorFusion_ArduinoLSM9DS1.cpp:128-134 | `BnMatrix(rows, columns)` has the asked shape and is empty |
| Matrices.BnMatrix.FromValues | python_nodes_coder/templates/sensors/BnOrientationAbsSensorFusion_ArduinoLSM9DS1.cpp:136-143 | `BnMatrix(rows, columns, values)` holds a copy of the values and is not empty |
| Matrices.BnMatrix.Val | python_nodes_coder/templates/sensors/BnOrientationAbsSensorFusion_ArduinoLSM9DS1.cpp:152-157 | the getter returns the cell at offset `c + r*columns` |
| Matrices.BnMatrix.SetVal | python_nodes_coder/templates/sensors/BnOrientationAbsSensorFusion_ArduinoLSM9DS1.cpp:159-164 | the setter replaces exactly cell (r, c) and clears the empty flag |
| Matrices.BnMatrix.Scale | python_nodes_coder/templates/sensors/BnOrientationAbsSensorFusion_ArduinoLSM9DS1.cpp:244-253 | in-place scaling: every cell multiplied, an empty matrix untouched |
| Matrices.BnMatrix.MultiplyInto | python_nodes_coder/templates/sensors/BnOrientationAbsSensorFusion_ArduinoLSM9DS1.cpp:271-299 | an empty operand or a bad input or output shape leaves the result untouched; otherwise it holds the product |
| Matrices.BnMatrix.SumInto | python_nodes_coder/templates/sensors/BnOrientationAbsSensorFusion_ArduinoLSM9DS1.cpp:328-353 | an empty operand or a bad shape leaves the result untouched; otherwise it holds the cell-wise sum |
| Matrices.BnMatrix.SubtractInto | python_nodes_coder/templates/sensors/BnOrientationAbsSensorFusion_ArduinoLSM9DS1.cpp:380-405 | an empty operand or a bad shape leaves the result untouched; otherwise it holds the cell-wise difference |
| Matrices.BnMatrix.ProductElementwiseInto | python_nodes_coder/templates/sensors/BnOrientationAbsSensorFusion_ArduinoLSM9DS1.cpp:621-644 | an empty operand or a length mismatch leaves the result untouched; otherwise it holds the elementwise product |
| Determinants.ToGrid | python_nodes_coder/templates/sensors/BnOrientationAbsSensorFusion_ArduinoLSM9DS1.cpp:476-479 | the working copy of an n×n buffer is n rows of n cells |
| Determinants.Rows | python_nodes_coder/templates/sensors/BnOrientationAbsSensorFusion_ArduinoLSM9DS1.cpp:476-479 | the rows view of the 2-D working array has its shape |
| Determinants.RowsAre | python_nodes_coder/templates/sensors/BnOrientationAbsSensorFusion_ArduinoLSM9DS1.cpp:476-479 | an array whose cells match a list of rows has that list as its rows view |
| Determinants.PivotFrom | python_nodes_coder/templates/sensors/BnOrientationAbsSensorFusion_ArduinoLSM9DS1.cpp:485-490 | the pivot search returns the current best row or a later one, always in range |
| Determinants.Pivot | python_nodes_coder/templates/sensors/BnOrientationAbsSensorFusion_ArduinoLSM9DS1.cpp:485-490 | the pivot row for column i is at or below row i |
| Determinants.SwapRows | python_nodes_coder/templates/sensors/BnOrientationAbsSensorFusion_ArduinoLSM9DS1.cpp:491-497 | exchanging two rows keeps the row count |
| Determinants.SwapSame | python_nodes_coder/templates/sensors/BnOrientationAbsSensorFusion_ArduinoLSM9DS1.cpp:491 | exchanging a row with itself changes nothing, which is why the swap is skipped when `i == maxRow` |
| Determinants.NormalizeRow | python_nodes_coder/templates/sensors/BnOrientationAbsSensorFusion_ArduinoLSM9DS1.cpp:503-505 | dividing row i by the pivot keeps its length |
| Determinants.Eliminate | python_nodes_coder/templates/sensors/BnOrientationAbsSensorFusion_ArduinoLSM9DS1.cpp:506-510 | eliminating below row i keeps the row count |
| Determinants.DetStep | python_nodes_coder/templates/sensors/BnOrientationAbsSensorFusion_ArduinoLSM9DS1.cpp:484-511 | one pass of the outer loop: a zero pivot after the swap ends with 0; otherwise the rest is computed on the swapped, normalised, eliminated rows with det negated on a swap and multiplied by the pivot |
| Determinants.FindPivot | python_nodes_coder/templates/sensors/BnOrientationAbsSensorFusion_ArduinoLSM9DS1.cpp:485-490 | the in-place search finds the pivot the reference function names |
| Determinants.SwapRowsInPlace | python_nodes_coder/templates/sensors/BnOrientationAbsSensorFusion_ArduinoLSM9DS1.cpp:492-495 | the three `memcpy` calls exchange rows i and p |
| Determinants.NormalizeRowInPlace | python_nodes_coder/templates/sensors/BnOrientationAbsSensorFusion_ArduinoLSM9DS1.cpp:503-505 | row i right of the diagonal is divided by the pivot, all else unchanged |
| Determinants.EliminateRowInPlace | python_nodes_coder/templates/sensors/BnOrientationAbsSensorFusion_ArduinoLSM9DS1.cpp:507-509 | row j right of column i loses m[j][i] times row i, every other cell unchanged |
| Determinants.EliminateInPlace | python_nodes_coder/templates/sensors/BnOrientationAbsSensorFusion_ArduinoLSM9DS1.cpp:506-510 | every row below i is reduced as the reference function's Eliminate says |
| Determinants.EliminationStep | python_nodes_coder/templates/sensors/BnOrientationAbsSensorFusion_ArduinoLSM9DS1.cpp:485-510 | the loop body: reports whether it swapped and the pivot, and on a non-zero pivot leaves the eliminated rows |
| Determinants.LoadGrid | python_nodes_coder/templates/sensors/BnOrientationAbsSensorFusion_ArduinoLSM9DS1.cpp:477-479 | the working copy holds `values[i*n + j]` at (i, j) |
| Determinants.DeterminantArray | python_nodes_coder/templates/sensors/BnOrientationAbsSensorFusion_ArduinoLSM9DS1.cpp:476-515 | the in-place LU loop returns the value of the recursive elimination function on the rows of the buffer |
| Determinants.Determinant | python_nodes_coder/templates/sensors/BnOrientationAbsSensorFusion_ArduinoLSM9DS1.cpp:204-225 | -1 for an empty matrix, 0 when not square, otherwise the value of the LU elimination |
| Determinants.OneByOne | python_nodes_coder/templates/sensors/BnOrientationAbsSensorFusion_ArduinoLSM9DS1.cpp:213-215 | the 1×1 shortcut `values[0]` agrees with the elimination |
| Determinants.TwoByTwo | python_nodes_coder/templates/sensors/BnOrientationAbsSensorFusion_ArduinoLSM9DS1.cpp:216-218 | the 2×2 shortcut `ad - bc` agrees with the elimination, with or without a row swap |
| Determinants.LastStep | python_nodes_coder/templates/sensors/BnOrientationAbsSensorFusion_ArduinoLSM9DS1.cpp:502-510 | the last pass on two rows multiplies det by the reduced corner cell |
| Determinants.CrossProduct | python_nodes_coder/templates/sensors/BnOrientationAbsSensorFusion_ArduinoLSM9DS1.cpp:502-510 | the pivot times the reduced corner is `x w - y z` |
| Determinants.DiagProdFrame | python_nodes_coder/templates/sensors/BnOrientationAbsSensorFusion_ArduinoLSM9DS1.cpp:502 | the diagonal product from row i depends only on rows i and below |
| Determinants.PivotOfZeros | python_nodes_coder/templates/sensors/BnOrientationAbsSensorFusion_ArduinoLSM9DS1.cpp:486-490 | with zeros below in column i no later row wins the pivot search |
| Determinants.ZeroColumn | python_nodes_coder/templates/sensors/BnOrientationAbsSensorFusion_ArduinoLSM9DS1.cpp:498-500 | a zero column from the diagonal down makes the result 0 |
| Determinants.EliminateBelowZeros | python_nodes_coder/templates/sensors/BnOrientationAbsSensorFusion_ArduinoLSM9DS1.cpp:506-510 | with zeros under the pivot, elimination leaves the lower rows as they were |
| Determinants.TriangularFrom | python_nodes_coder/templates/sensors/BnOrientationAbsSensorFusion_ArduinoLSM9DS1.cpp:484-511 | on a matrix upper triangular from row i on the loop multiplies the diagonal |
| Determinants.DiagProdOfZero | python_nodes_coder/templates/sensors/BnOrientationAbsSensorFusion_ArduinoLSM9DS1.cpp:502 | a zero running product stays zero |
| Determinants.UpperTriangular | python_nodes_coder/templates/sensors/BnOrientationAbsSensorFusion_ArduinoLSM9DS1.cpp:476-515 | the result for an upper-triangular matrix is the product of its diagonal |
| Determinants.DiagProdOfOnes | python_nodes_coder/templates/sensors/BnOrientationAbsSensorFusion_ArduinoLSM9DS1.cpp:502 | a diagonal of ones leaves the running product unchanged |
| Determinants.IdentityDeterminant | python_nodes_coder/templates/sensors/BnOrientationAbsSensorFusion_ArduinoLSM9DS1.cpp:455-473 | the elimination of identity(n) yields 1 (same code also at python_nodes_coder/templates/sensors/BnOrientationAbsSensorFusion_ArduinoLSM9DS1.cpp:476-515) |
| Determinants.PivotIsMax | python_nodes_coder/templates/sensors/BnOrientationAbsSensorFusion_ArduinoLSM9DS1.cpp:485-490 | the chosen pivot has the largest absolute value in column i from row i down |
| Determinants.PivotStays | python_nodes_coder/templates/sensors/BnOrientationAbsSensorFusion_ArduinoLSM9DS1.cpp:485-490 | a largest value already at row i keeps row i as pivot (later rows win only when strictly larger) |
| Determinants.SwapFlipsSign | python_nodes_coder/templates/sensors/BnOrientationAbsSensorFusion_ArduinoLSM9DS1.cpp:491-497 | a row swap only negates the running determinant |
| Quaternions.QuatOf | python_nodes_coder/templates/sensors/BnOrientationAbsSensorFusion_ArduinoLSM9DS1.cpp:770-784 | the accessors w, x, y, z read cells 0..3 of the 4×1 buffer |
| Quaternions.AsMatrix | python_nodes_coder/templates/sensors/BnOrientationAbsSensorFusion_ArduinoLSM9DS1.cpp:673-693 | a quaternion is a 4×1 matrix whose cells are w, x, y, z |
| Quaternions.FromMatrix | python_nodes_coder/templates/sensors/BnOrientationAbsSensorFusion_ArduinoLSM9DS1.cpp:673-693 | converting a matrix that is not 4×1 yields an empty quaternion; a 4×1 one is copied cell by cell |
| Quaternions.FromAsMatrix | python_nodes_coder/templates/sensors/BnOrientationAbsSensorFusion_ArduinoLSM9DS1.cpp:673-693 | converting a quaternion to a matrix and back gives the same quaternion |
| Quaternions.Conj | python_nodes_coder/templates/sensors/BnOrientationAbsSensorFusion_ArduinoLSM9DS1.cpp:763-764 | the conjugate the comment promises: [w, -x, -y, -z] |
| Quaternions.Norm2 | python_nodes_coder/templates/sensors/BnOrientationAbsSensorFusion_ArduinoLSM9DS1.cpp:802-849 | the squared norm is never negative |
| Quaternions.HamiltonReal | python_nodes_coder/templates/sensors/BnOrientationAbsSensorFusion_ArduinoLSM9DS1.cpp:844-847 | the value product with a quaternion that has no vector part, on either side, scales the other factor by its w |
| Quaternions.HamiltonUnit | python_nodes_coder/templates/sensors/BnOrientationAbsSensorFusion_ArduinoLSM9DS1.cpp:829-849 | (1, 0, 0, 0) is a left and a right unit of the value product |
| Quaternions.HamiltonConj | python_nodes_coder/templates/sensors/BnOrientationAbsSensorFusion_ArduinoLSM9DS1.cpp:763-764 | q times its conjugate, either way round, is (norm², 0, 0, 0) (same code also at python_nodes_coder/templates/sensors/BnOrientationAbsSensorFusion_ArduinoLSM9DS1.cpp:829-849) |
| Quaternions.ConjOfProduct | python_nodes_coder/templates/sensors/BnOrientationAbsSensorFusion_ArduinoLSM9DS1.cpp:763-764 | the conjugate of a product is the product of the conjugates in reverse order (same code also at python_nodes_coder/templates/sensors/BnOrientationAbsSensorFusion_ArduinoLSM9DS1.cpp:829-849) |
| Quaternions.ConjInvolution | python_nodes_coder/templates/sensors/BnOrientationAbsSensorFusion_ArduinoLSM9DS1.cpp:763-764 | conjugating twice gives the quaternion back |
| Quaternions.ProductHamilton | python_nodes_coder/templates/sensors/BnOrientationAbsSensorFusion_ArduinoLSM9DS1.cpp:829-849 | an empty operand gives an empty quaternion; otherwise the Hamilton product |
| Quaternions.HamiltonAsWrittenReal | python_nodes_coder/templates/sensors/BnOrientationAbsSensorFusion_ArduinoLSM9DS1.cpp:822-825 | the result-parameter formulas: a real left factor scales the right one, but a real right factor scales the conjugate of the left one |
| Quaternions.HamiltonAsWrittenDiff | python_nodes_coder/templates/sensors/BnOrientationAbsSensorFusion_ArduinoLSM9DS1.cpp:822-825 | against the value product (same code also at python_nodes_coder/templates/sensors/BnOrientationAbsSensorFusion_ArduinoLSM9DS1.cpp:844-847), w agrees while x, y and z each lose twice two of their terms |
| Quaternions.HamiltonAsWrittenRightOne | python_nodes_coder/templates/sensors/BnOrientationAbsSensorFusion_ArduinoLSM9DS1.cpp:802-827 | the result-parameter product's formulas turn q × (1,0,0,0) into the conjugate of q, so it differs from q whenever x ≠ 0 |
| Quaternions.OverloadsDisagree | python_nodes_coder/templates/sensors/BnOrientationAbsSensorFusion_ArduinoLSM9DS1.cpp:802-849 | the two overloads give different results on (0,1,0,0) × (1,0,0,0) |
| Quaternions.ConjugateAsWritten | python_nodes_coder/templates/sensors/BnOrientationAbsSensorFusion_ArduinoLSM9DS1.cpp:763-768 | `conjugate()` as written keeps w, y and z |
| Quaternions.ConjugateAsWrittenEffect | python_nodes_coder/templates/sensors/BnOrientationAbsSensorFusion_ArduinoLSM9DS1.cpp:763-768 | the code as written leaves (w, -z, y, z): only x is written, three times |
| Quaternions.SetAxis | python_nodes_coder/templates/sensors/BnOrientationAbsSensorFusion_ArduinoLSM9DS1.cpp:786-800 | a setter replaces one component, leaves the others and clears the empty flag |
| Quaternions.WithAxis | python_nodes_coder/templates/sensors/BnOrientationAbsSensorFusion_ArduinoLSM9DS1.cpp:786-800 | the updated quaternion has the new value on that axis and the old one on every other |
| Quaternions.Conjugate | python_nodes_coder/templates/sensors/BnOrientationAbsSensorFusion_ArduinoLSM9DS1.cpp:763-768 | corrected `conjugate()`: the object then holds the conjugate |
| Quaternions.ProductHamiltonInto | python_nodes_coder/templates/sensors/BnOrientationAbsSensorFusion_ArduinoLSM9DS1.cpp:802-827 | corrected result-parameter product: leaves the result untouched on an empty operand or a non-4×1 result, otherwise stores the Hamilton product |
| SensorFusion.PeriodBetween | python_nodes_coder/templates/sensors/BnOrientationAbsSensorFusion_ArduinoLSM9DS1.cpp:1003-1008 | `static_cast<uint32_t>(now - last)`: the difference when it fits, always equal to it modulo 2^32 |
| SensorFusion.PeriodAcrossWrap | python_nodes_coder/templates/sensors/BnOrientationAbsSensorFusion_ArduinoLSM9DS1.cpp:1003-1008 | a clock that went backwards gives 2^32 minus the gap |
| SensorFusion.MadgwickFilter.constructor | python_nodes_coder/templates/sensors/BnOrientationAbsSensorFusion_ArduinoLSM9DS1.cpp:986-997 | the filter keeps its parameters, with an empty internal quaternion and time 0 |
| SensorFusion.MadgwickFilter.Init | python_nodes_coder/templates/sensors/BnOrientationAbsSensorFusion_ArduinoLSM9DS1.cpp:999-1001 | init stores the initial quaternion and nothing else |
| SensorFusion.MadgwickFilter.UpdateSamplePeriod | python_nodes_coder/templates/sensors/BnOrientationAbsSensorFusion_ArduinoLSM9DS1.cpp:1003-1008 | the period becomes now − last only when last ≠ 0; now is always stored |
| SensorFusion.MadgwickFilter.UpdateIMU | python_nodes_coder/templates/sensors/BnOrientationAbsSensorFusion_ArduinoLSM9DS1.cpp:1010-1071 | before init nothing changes; otherwise the period is updated and the quaternion becomes the step's result |
| SensorFusion.MadgwickFilter.UpdateMAGR | python_nodes_coder/templates/sensors/BnOrientationAbsSensorFusion_ArduinoLSM9DS1.cpp:1073-1179 | before init nothing changes; otherwise the period is updated and the quaternion becomes the step's result |
| SensorFusion.MadgwickFilter.GetQuaternion | python_nodes_coder/templates/sensors/BnOrientationAbsSensorFusion_ArduinoLSM9DS1.cpp:1181-1190 | an empty internal quaternion leaves out untouched; otherwise out receives its four components |
| SensorFusion.NewNodeFilter | python_nodes_coder/templates/sensors/BnOrientationAbsSensorFusion_ArduinoLSM9DS1.cpp:1199-1207 | the node's filter: period SENSOR_READ_INTERVAL_MS, gain 0.8, gyro rescale 0.02, axis signs (1, -1, 1) |
| AxisRealign.Realigned | examples/redbear_duo_ble_node/BnOrientationAbsSensor_BNO055.cpp:181-187 | out[i] = MUL[i] * in[OUT_AXIS[i]] for each of the four axes |
| AxisRealign.ConfigsValid | examples/redbear_duo_ble_node/BnNodeSpecific.h:67-75 | both axis configurations are permutations with ±1 signs (same code also at android/BodynodesSensor/app/src/main/java/eu/bodynodes/sensor/BodynodesConstants.java:109-122) |
| AxisRealign.Bno055Mapping | examples/redbear_duo_ble_node/BnOrientationAbsSensor_BNO055.cpp:181-187 | the BNO055 node maps every quaternion q to (q2, -q0, -q3, -q1) (same code also at examples/redbear_duo_ble_node/BnNodeSpecific.h:67-75) |
| AxisRealign.AndroidMapping | android/BodynodesSensor/app/src/main/java/eu/bodynodes/sensor/BodynodesUtils.java:106-111 | realignQuat maps in to (−in0, in3, in2, −in1) (same code also at android/BodynodesSensor/app/src/main/java/eu/bodynodes/sensor/BodynodesConstants.java:109-122) |
| AxisRealign.SourceIndex | examples/redbear_duo_ble_node/BnOrientationAbsSensor_BNO055.cpp:181-187 | every input axis feeds exactly one output axis |
| AxisRealign.Inverse | examples/redbear_duo_ble_node/BnOrientationAbsSensor_BNO055.cpp:181-187 | the inverse configuration is valid and undoes the permutation and the signs |
| AxisRealign.RealignInvertible | examples/redbear_duo_ble_node/BnOrientationAbsSensor_BNO055.cpp:181-187 | realigning with the inverse configuration restores the input, so no axis is lost |
| AxisRealign.AxisRestored | examples/redbear_duo_ble_node/BnOrientationAbsSensor_BNO055.cpp:181-187 | each axis is individually restored by the inverse |
| AxisRealign.SignSquared | examples/redbear_duo_ble_node/BnOrientationAbsSensor_BNO055.cpp:183-186 | applying a ±1 sign twice is the identity |
| AxisRealign.RealignAxis | examples/redbear_duo_ble_node/BnOrientationAbsSensor_BNO055.cpp:181-187 | the in-place write leaves revalues equal to the realigned input (same code also at python_nodes_coder/templates/sensors/BnOrientationAbsSensorFusion_ArduinoLSM9DS1.cpp:1352-1402, android/BodynodesSensor/app/src/main/java/eu/bodynodes/sensor/BodynodesUtils.java:106-111) |
| GloveSensor.Refilled | examples/arduino_nano_33_glove_sensor_ble_mouse/BnGloveSensor.cpp:62-77 | the window after a reading still holds five slots and ends with the reading |
| GloveSensor.FingerStep | examples/arduino_nano_33_glove_sensor_ble_mouse/BnGloveSensor.cpp:137-153 | min ≤ tmp ≤ max after a step, max becomes tmp + 1 on a first or new peak, min follows tmp during the first 20 reads, and the scaled value lies in 0..90 |
| GloveSensor.ScaledInRange | examples/arduino_nano_33_glove_sensor_ble_mouse/BnGloveSensor.cpp:149-153 | `(tmp - min) * 90 / (max - min)` (0 when max = min) lies in 0..90, is 0 at the minimum and 90 at a distinct maximum |
| GloveSensor.ScaledDiv | examples/arduino_nano_33_glove_sensor_ble_mouse/BnGloveSensor.cpp:150 | the integer quotient of a fraction at most 1 times 90 lies in 0..90 |
| GloveSensor.FirstReading | examples/arduino_nano_33_glove_sensor_ble_mouse/BnGloveSensor.cpp:62-68 | on an unfilled window the reading fills all five slots and is returned unchanged, by both filters (same code also at examples/arduino_nano_33_glove_sensor_ble_mouse/BnGloveSensor.cpp:81-86) |
| GloveSensor.MeanInRange | examples/arduino_nano_33_glove_sensor_ble_mouse/BnGloveSensor.cpp:69-76 | the integer mean of a filled window lies between the window's bounds |
| GloveSensor.SteadySignal | examples/arduino_nano_33_glove_sensor_ble_mouse/BnGloveSensor.cpp:69-76 | a window full of c fed with c stays as it is and returns c |
| GloveSensor.DigitalNeedsFour | examples/arduino_nano_33_glove_sensor_ble_mouse/BnGloveSensor.cpp:95-99 | the majority test `sum > (5+1)/2` needs four of the five slots at 1 |
| GloveSensor.DigitalIsBinary | examples/arduino_nano_33_glove_sensor_ble_mouse/BnGloveSensor.cpp:95-99 | a filled digital filter returns 0 or 1 |
| GloveSensor.Row | examples/arduino_nano_33_glove_sensor_ble_mouse/BnGloveSensor.cpp:49-50 | the reference view of one finger's filter row |
| GloveSensor.BnGloveSensor.constructor | examples/arduino_nano_33_glove_sensor_ble_mouse/BnGloveSensor.cpp:40-50 | static arrays start zeroed and numReads at 0 |
| GloveSensor.BnGloveSensor.InitFilter | examples/arduino_nano_33_glove_sensor_ble_mouse/BnGloveSensor.cpp:52-60 | slot 0 of every finger's filter is -1 |
| GloveSensor.BnGloveSensor.Init | examples/arduino_nano_33_glove_sensor_ble_mouse/BnGloveSensor.cpp:102-132 | values 0, max and min -1, digital values 0, all filters unfilled, sensor enabled |
| GloveSensor.BnGloveSensor.FilterSensorValue | examples/arduino_nano_33_glove_sensor_ble_mouse/BnGloveSensor.cpp:62-77 | returns the filtered value of the reference function, leaves the shifted window, and touches no other finger |
| GloveSensor.BnGloveSensor.FilterDigitalValue | examples/arduino_nano_33_glove_sensor_ble_mouse/BnGloveSensor.cpp:79-100 | returns the majority value of the reference function and leaves the shifted window, other fingers untouched |
| GloveSensor.BnGloveSensor.UpdateFinger | examples/arduino_nano_33_glove_sensor_ble_mouse/BnGloveSensor.cpp:137-153 | one analog finger's filter, max, min and scaled value follow the reference step |
| GloveSensor.BnGloveSensor.UpdateFingers | examples/arduino_nano_33_glove_sensor_ble_mouse/BnGloveSensor.cpp:135-154 | every analog finger is updated by the reference step and all scaled values lie in 0..90 |
| GloveSensor.BnGloveSensor.UpdateDigital | examples/arduino_nano_33_glove_sensor_ble_mouse/BnGloveSensor.cpp:158-161 | every digital finger holds its filtered majority value |
| GloveSensor.BnGloveSensor.StoreDigital | examples/arduino_nano_33_glove_sensor_ble_mouse/BnGloveSensor.cpp:158-161 | the four digital results are stored in finger order |
| GloveSensor.BnGloveSensor.CheckAllOk | examples/arduino_nano_33_glove_sensor_ble_mouse/BnGloveSensor.cpp:134-163 | always true; numReads saturates at 20; every analog and digital finger follows the reference step |
| GloveSensor.BnGloveSensor.GetData | examples/arduino_nano_33_glove_sensor_ble_mouse/BnGloveSensor.cpp:166-179 | the first nine output slots are the five analog values and then the four digital values, the rest untouched |
| GloveSensor.BnGloveSensor.GetType | examples/arduino_nano_33_glove_sensor_ble_mouse/BnGloveSensor.cpp:181-183 | the data are sent under the glove tag |
| GloveSensor.BnGloveSensor.SetEnable | examples/arduino_nano_33_glove_sensor_ble_mouse/BnGloveSensor.cpp:185-187 | the enable flag becomes the given status; the read counter is unchanged |
| MessagesTable.Active | esp-12e/wifi_snode/messages_mgr.cpp:59 | the number of leading enabled slots: all of them enabled, and the next one disabled (same code also at esp-12e/wifi_snode/messages_mgr.cpp:156) |
| MessagesTable.Scan | esp-12e/wifi_snode/messages_mgr.cpp:58-63 | the lookup passes only enabled slots whose name does not contain the bodypart, and stops at a containing enabled slot or at the first disabled one (same code also at arduino/esp-12e/wifi_snode/messages_mgr.cpp:65-70) |
| MessagesTable.JsonPrefixStep | esp-12e/wifi_snode/messages_mgr.cpp:158-168 | appending an object to the open array adds a comma except before the first |
| MessagesTable.EntriesList | esp-12e/wifi_snode/messages_mgr.cpp:156-170 | every changed slot in the enabled prefix is serialised |
| MessagesTable.NoChangesNoEntries | esp-12e/wifi_snode/messages_mgr.cpp:153-174 | with no changed slot the result is `[]` |
| MessagesTable.EntriesCount | esp-12e/wifi_snode/messages_mgr.cpp:156-170 | exactly one object per changed slot is serialised |
| MessagesTable.ScanAfterRegister | esp-12e/wifi_snode/messages_mgr.cpp:64-68 | a bodypart registered in the first free slot is found there by the next lookup |
| MessagesTable.ScanKeepsFound | esp-12e/wifi_snode/messages_mgr.cpp:58-68 | registering another name in a free slot does not change where an existing lookup stops |
| MessagesTable.Messages.constructor | esp-12e/wifi_snode/messages_mgr.cpp:28-35 | the zeroed globals: no slot enabled |
| MessagesTable.Messages.InitMessages | esp-12e/wifi_snode/messages_mgr.cpp:40-49 | every slot disabled and unnamed, with empty type and value, unchanged, and a default connection (same code also at arduino/esp-12e/wifi_snode/messages_mgr.cpp:47-55) |
| MessagesTable.Messages.GetIndexBodypart | esp-12e/wifi_snode/messages_mgr.cpp:54-69 | -1 for no name; the index of the first enabled slot containing the name; otherwise the first free slot claimed with the name and connection; a full table gives -1 and no change (corrected) (same code also at arduino/esp-12e/wifi_snode/messages_mgr.cpp:60-75) |
| MessagesTable.Messages.GetConnectionBodypart | esp-12e/wifi_snode/messages_mgr.cpp:71-84 | the connection of the slot the lookup finds, else a connection with port 0 |
| MessagesTable.Messages.StoreMessage | esp-12e/wifi_snode/messages_mgr.cpp:96-104 | an index outside 0..14 changes nothing; otherwise type and value are stored and the slot marked changed (same code also at arduino/esp-12e/wifi_snode/messages_mgr.cpp:77-85) |
| MessagesTable.Messages.GetAllMessages | esp-12e/wifi_snode/messages_mgr.cpp:153-174 | the JSON array of the changed enabled slots in slot order, and exactly those flags cleared (same code also at arduino/esp-12e/wifi_snode/messages_mgr.cpp:135-156) |
| MessagesTable.GetAllMessagesTwice | esp-12e/wifi_snode/messages_mgr.cpp:153-174 | an immediate second call returns `[]` |
| MessagesTable.RegisterThenLookup | esp-12e/wifi_snode/messages_mgr.cpp:54-84 | on an empty table a bodypart registers at slot 0 and its connection is found again |
| MessagesTable.IndexAsWritten | esp-12e/wifi_snode/messages_mgr.cpp:58-68 | the firmware's raw loop index lies in 0..15 |
| MessagesTable.FullTableOverflows | esp-12e/wifi_snode/messages_mgr.cpp:58-68 | on a full table of other names the firmware's index is 15, one past the last slot |
| MessagesTable.FullScan | esp-12e/wifi_snode/messages_mgr.cpp:59-63 | a lookup over enabled non-matching slots runs to the end |
| MessagesTable.DigitsOf | esp-12e/wifi_snode/messages_mgr.cpp:114-123 | the conversion loop's digits: the integer part, then decimals each in 0..9 |
| MessagesTable.NextDecimal | esp-12e/wifi_snode/messages_mgr.cpp:120-121 | `(q - int(q)) * 10` lies in [0, 10) |
| MessagesTable.Shifted | esp-12e/wifi_snode/messages_mgr.cpp:120-121 | the value stays non-negative through the loop |
| MessagesTable.DigitAt | esp-12e/wifi_snode/messages_mgr.cpp:114-123 | digit d is the integer part of the value after d loop steps |
| MessagesTable.ShiftedFirst | esp-12e/wifi_snode/messages_mgr.cpp:120-121 | d loop steps are one step followed by d - 1 more |
| MessagesTable.DigitCharIsDigit | esp-12e/wifi_snode/messages_mgr.cpp:119 | `val + '0'` of a digit is its character |
| MessagesTable.Pow10 | esp-12e/wifi_snode/messages_mgr.cpp:114 | a power of ten is at least 1 |
| MessagesTable.DigitsSpellTruncation | esp-12e/wifi_snode/messages_mgr.cpp:114-123 | n digits spell the magnitude of x times 10^(n-1), truncated: the text is that magnitude cut after n - 1 decimals |
| MessagesTable.ScaleShift | esp-12e/wifi_snode/messages_mgr.cpp:121 | shifting one decimal left scales by 10 |
| MessagesTable.Split | esp-12e/wifi_snode/messages_mgr.cpp:118-120 | truncating an integer plus a fraction adds the integer |
| MessagesTable.InsertInOrientationStringQuat | esp-12e/wifi_snode/messages_mgr.cpp:106-125 | sign at start, the integer digit, '.' at start + 2, prec decimals of the magnitude of quatVal and the vertical-bar separator at start + 3 + prec, the rest of the buffer untouched (same code also at arduino/esp-12e/wifi_snode/messages_mgr.cpp:87-106) |
| PersMemory.SlotOf | python_nodes_coder/example/BnArduinoUtils.cpp:81-106 | exactly the six keys setValue knows own a slot; each slot's characters follow its length byte, at a multiple of 50 between 50 and 350 (same code also at redbear_duo/wifi_node/bn_utils.h:43-62) |
| PersMemory.SlotsApart | redbear_duo/wifi_node/bn_utils.h:43-62 | distinct keys' slots are at least 50 bytes apart |
| PersMemory.Poke | examples/mpnrf52840_ble_node_mouse/BnNodeSpecific.cpp:67-82 | a write inside the block changes that byte only; outside it changes nothing |
| PersMemory.Peek | examples/mpnrf52840_ble_node_mouse/BnNodeSpecific.cpp:59-65 | a read inside the block returns the byte; outside it leaves the output as it was |
| PersMemory.WriteRun | python_nodes_coder/example/BnArduinoUtils.cpp:110-113 | a run of writes changes exactly the bytes of the run |
| PersMemory.WriteRunStep | python_nodes_coder/example/BnArduinoUtils.cpp:111-113 | the run grows by one write per loop step |
| PersMemory.Encoded | python_nodes_coder/example/BnArduinoUtils.cpp:107-109 | the stored bytes are the value and its NUL, `len = length + 1` truncated to 8 bits |
| PersMemory.UpToNul | python_nodes_coder/example/BnArduinoUtils.cpp:152 | the returned String stops at the first NUL (same code also at redbear_duo/wifi_node/commons.cpp:198) |
| PersMemory.AfterSet | python_nodes_coder/example/BnArduinoUtils.cpp:81-115 | setValue keeps the block size |
| PersMemory.ReadRun | python_nodes_coder/example/BnArduinoUtils.cpp:143-150 | getValue reads len bytes from the characters address |
| PersMemory.Cleared | python_nodes_coder/example/BnArduinoUtils.cpp:74-79 | clean leaves 512 zero bytes |
| PersMemory.AfterSetAll | python_nodes_coder/example/BnArduinoUtils.cpp:56-66 | writing the defaults keeps the block size |
| PersMemory.HasCheckKeyFn | python_nodes_coder/example/BnArduinoUtils.cpp:30-41 | the test is on bytes 0..4 against the check key |
| PersMemory.UnknownKey | python_nodes_coder/example/BnArduinoUtils.cpp:102-106 | an unknown key writes nothing and reads "" (same code also at python_nodes_coder/example/BnArduinoUtils.cpp:138-142) |
| PersMemory.SetThenGet | python_nodes_coder/example/BnArduinoUtils.cpp:81-153 | a value without NUL that fits its 49-byte slot is read back after it is set (same code also at redbear_duo/wifi_node/commons.cpp:129-199) |
| PersMemory.NulTerminated | python_nodes_coder/example/BnArduinoUtils.cpp:107-113 | the value followed by its NUL reads back as the value |
| PersMemory.AfterSetOutside | python_nodes_coder/example/BnArduinoUtils.cpp:108-113 | setValue with a value that fits writes nothing outside the key's 50-byte slot (length byte and characters) |
| PersMemory.SetKeepsOthers | python_nodes_coder/example/BnArduinoUtils.cpp:81-153 | setting one key leaves every other key's value unchanged while values fit their slots |
| PersMemory.InitIdempotent | python_nodes_coder/example/BnArduinoUtils.cpp:27-72 | after init the check key is present, so a second init changes nothing (same code also at redbear_duo/wifi_node/commons.cpp:80-120) |
| PersMemory.SetAllKeepsCheckKey | python_nodes_coder/example/BnArduinoUtils.cpp:56-66 | writing the defaults never disturbs bytes 0..4 |
| PersMemory.BnPersMemory.constructor | examples/mpnrf52840_ble_node_mouse/BnNodeSpecific.cpp:52 | the block holds the contents loaded from the file |
| PersMemory.BnPersMemory.Read | examples/mpnrf52840_ble_node_mouse/BnNodeSpecific.cpp:59-65 | the bounds-checked read is Peek |
| PersMemory.BnPersMemory.Write | examples/mpnrf52840_ble_node_mouse/BnNodeSpecific.cpp:67-82 | the bounds-checked write is Poke |
| PersMemory.BnPersMemory.WriteBytes | python_nodes_coder/example/BnArduinoUtils.cpp:110-113 | the write loop leaves the block as the reference function's run |
| PersMemory.BnPersMemory.Clean | python_nodes_coder/example/BnArduinoUtils.cpp:74-79 | every byte of the block is 0 (same code also at redbear_duo/wifi_node/commons.cpp:122-127) |
| PersMemory.BnPersMemory.SetValue | python_nodes_coder/example/BnArduinoUtils.cpp:81-115 | the block becomes AfterSet of the old block (same code also at redbear_duo/wifi_node/commons.cpp:129-163) |
| PersMemory.BnPersMemory.GetValue | python_nodes_coder/example/BnArduinoUtils.cpp:117-153 | returns the value the reference function reads from the block (same code also at redbear_duo/wifi_node/commons.cpp:165-199) |
| PersMemory.BnPersMemory.Init | python_nodes_coder/example/BnArduinoUtils.cpp:27-72 | a block with the check key is left alone; any other is cleared, marked and given the defaults (same code also at redbear_duo/wifi_node/commons.cpp:80-120) |
| PersMemory.AfterInit | python_nodes_coder/example/BnArduinoUtils.cpp:27-71 | the block after `init()` holds the check key, and is the old block when that already held it |
| PersMemory.ValueIn | python_nodes_coder/example/BnArduinoUtils.cpp:117-153 | `getValue` of an unknown key is empty; any value read is shorter than 256 bytes and holds no NUL |
| Datatypes.IPConnectionData.constructor | python_nodes_coder/examples/BnDatatypes.h:72-80 | a new connection is disconnected with no bytes, no host address and zero timestamps |
| Datatypes.IPConnectionData.SetDisconnected | esp-12e/wifi_node/bn_datatypes.cpp:27 | the status becomes disconnected, exactly one status predicate holds, and nothing else changes (same code also at redbear_duo/wifi_node/commons.cpp:27) |
| Datatypes.IPConnectionData.SetWaitingAck | esp-12e/wifi_node/bn_datatypes.cpp:28 | the status becomes waiting for ACK, exactly one status predicate holds, and nothing else changes (same code also at redbear_duo/wifi_node/commons.cpp:28) |
| Datatypes.IPConnectionData.SetConnected | esp-12e/wifi_node/bn_datatypes.cpp:29 | the status becomes connected, exactly one status predicate holds, and nothing else changes (same code also at redbear_duo/wifi_node/commons.cpp:29) |
| Datatypes.IPConnectionData.CleanBytes | esp-12e/wifi_node/bn_datatypes.cpp:33 | the received count becomes 0 and nothing else changes (same code also at redbear_duo/wifi_node/commons.cpp:33) |
| Datatypes.NumValuesFor | esp-12e/wifi_node/bn_datatypes.cpp:41-45 | 4 values for orientation_abs, 3 for acceleration_rel, otherwise the previous count |
| Datatypes.ToI16 | python_nodes_coder/examples/BnDatatypes.h:98 | an `int` stored into a 16-bit value: in range, unchanged when it fits, congruent modulo 2^16 |
| Datatypes.Int16Cast | python_nodes_coder/examples/BnDatatypes.h:98 | the stored value is the one `int16_t` that agrees with the given value modulo 2^16 |
| Datatypes.BnSensorData.constructor | python_nodes_coder/examples/BnDatatypes.h:96-99 | a new object has the none type and no values |
| Datatypes.BnSensorData.GetType | esp-12e/wifi_node/bn_datatypes.cpp:35-37 | returns the stored type tag |
| Datatypes.BnSensorData.SetValuesFloat | esp-12e/wifi_node/bn_datatypes.cpp:39-49 | stores the type, sets the count by type (unknown keeps it) and copies that many floats, the rest and the int values unchanged (same code also at redbear_duo/wifi_node/commons.cpp:39-49) |
| Datatypes.BnSensorData.SetValuesInt | esp-12e/wifi_node/bn_datatypes.cpp:51-61 | stores the type, sets the count by type and copies that many ints as 16-bit values, the float values unchanged (same code also at redbear_duo/wifi_node/commons.cpp:51-61) |
| Datatypes.BnSensorData.GetValuesFloat | esp-12e/wifi_node/bn_datatypes.cpp:63-67 | copies out exactly the stored count of floats (same code also at redbear_duo/wifi_node/commons.cpp:63-67) |
| Datatypes.BnSensorData.GetValuesInt | esp-12e/wifi_node/bn_datatypes.cpp:69-73 | copies out exactly the stored count of ints (same code also at redbear_duo/wifi_node/commons.cpp:69-73) |
| Datatypes.SetGetFloat | esp-12e/wifi_node/bn_datatypes.cpp:39-77 | four orientation values set are got back unchanged, and the data is not empty |
| Datatypes.SetGetInt | esp-12e/wifi_node/bn_datatypes.cpp:51-73 | three acceleration values that fit 16 bits are got back unchanged |
| WifiNodeCommunicator.ReadLength | examples/redbear_duo_wifi_node/bn_wifi_node_communicator.cpp:59 | a packet read into the buffer stores at most 150 bytes and at most the packet, all of a packet that fits |
| WifiNodeCommunicator.LedAfter | examples/redbear_duo_wifi_node/bn_wifi_node_communicator.cpp:195-215 | the LED after a status check: off when disconnected, toggled after more than 300 ms while waiting for the ACK, on when connected |
| WifiNodeCommunicator.BlinkRate | examples/redbear_duo_wifi_node/bn_wifi_node_communicator.cpp:200-209 | while waiting, a toggle is followed by no other toggle within 300 ms |
| WifiNodeCommunicator.AcknIsNotAckh | examples/redbear_duo_wifi_node/bn_wifi_node_communicator.cpp:222 | the node's own ACKN datagram does not contain ACKH; ACKH is found alone and after other bytes (same code also at examples/redbear_duo_wifi_node/bn_wifi_node_communicator.cpp:229-238) |
| WifiNodeCommunicator.Receive | examples/redbear_duo_wifi_node/bn_wifi_node_communicator.cpp:56-70 | a non-empty packet replaces the received bytes with its first bytes up to the buffer size; an empty one leaves them; the status and times are unchanged |
| WifiNodeCommunicator.FindPattern | examples/redbear_duo_wifi_node/bn_wifi_node_communicator.cpp:230-238 | the scan over the received bytes finds the pattern iff it occurs in them (same code also at examples/redbear_duo_wifi_node/bn_wifi_node_communicator.cpp:247-254) |
| WifiNodeCommunicator.BnWifiNodeCommunicator.constructor | examples/redbear_duo_wifi_node/bn_wifi_node_communicator.cpp:27-48 | a new communicator is valid with empty message and action lists |
| WifiNodeCommunicator.BnWifiNodeCommunicator.Init | examples/redbear_duo_wifi_node/bn_wifi_node_communicator.cpp:27-48 | LED off since now, both connections disconnected with zero times, no host address, both lists empty |
| WifiNodeCommunicator.BnWifiNodeCommunicator.AddMessage | examples/redbear_duo_wifi_node/bn_wifi_node_communicator.cpp:133-139 | appends the message unless the list already holds 20, and changes nothing else |
| WifiNodeCommunicator.BnWifiNodeCommunicator.SendAllMessages | examples/redbear_duo_wifi_node/bn_wifi_node_communicator.cpp:141-165 | sends the whole list, empties it, and stamps the send time only when the list was not empty |
| WifiNodeCommunicator.BnWifiNodeCommunicator.GetActions | examples/redbear_duo_wifi_node/bn_wifi_node_communicator.cpp:167-176 | hands out all pending actions after the caller's; the list is emptied by a count taken modulo 256 |
| WifiNodeCommunicator.BnWifiNodeCommunicator.CheckForActions | examples/redbear_duo_wifi_node/bn_wifi_node_communicator.cpp:178-193 | a received, parsable packet appends its action; otherwise the actions are unchanged |
| WifiNodeCommunicator.BnWifiNodeCommunicator.CheckStatus | examples/redbear_duo_wifi_node/bn_wifi_node_communicator.cpp:195-215 | the LED becomes `LedAfter` of the connection status; the lists are unchanged |
| WifiNodeCommunicator.BnWifiNodeCommunicator.SendAckn | examples/redbear_duo_wifi_node/bn_wifi_node_communicator.cpp:218-227 | ACKN goes out and the send time is stamped only when at least 1000 ms have passed since the last send |
| WifiNodeCommunicator.BnWifiNodeCommunicator.CheckForAckh | examples/redbear_duo_wifi_node/bn_wifi_node_communicator.cpp:229-244 | true iff the received bytes contain ACKH; the receive time is stamped only then |
| WifiNodeCommunicator.BnWifiNodeCommunicator.CheckForMulticastBn | examples/redbear_duo_wifi_node/bn_wifi_node_communicator.cpp:246-261 | true iff the multicast bytes contain BN; the receive time is stamped only then; the multicast bytes are always cleared |
| WifiNodeCommunicator.BnWifiNodeCommunicator.SaveHostInfo | examples/redbear_duo_wifi_node/bn_wifi_node_communicator.cpp:263-267 | the host address becomes the multicast sender's and is marked present |
| WifiNodeCommunicator.BnWifiNodeCommunicator.WaitingStep | examples/redbear_duo_wifi_node/bn_wifi_node_communicator.cpp:104-115 | the host is known iff it was known or a BN arrived; the connection is made iff the host is known and an ACKH arrived; otherwise it still waits |
| WifiNodeCommunicator.BnWifiNodeCommunicator.ConnectedStep | examples/redbear_duo_wifi_node/bn_wifi_node_communicator.cpp:116-129 | the connection drops iff nothing was heard for more than 60000 ms; a received non-ACKH packet that parses adds its action; the received bytes are cleared |
| WifiNodeCommunicator.BnWifiNodeCommunicator.CheckAllOk | examples/redbear_duo_wifi_node/bn_wifi_node_communicator.cpp:72-131 | true iff the node was connected and the WiFi is up; a lost or absent WiFi link that cannot reconnect leaves it disconnected, one that reconnects joins the multicast; a connection is made only with a known host and an ACKH |
| SensorServiceWifi.IndexOf | android/BodynodesSensor/app/src/main/java/eu/bodynodesdev/sensor/services/SensorServiceWifi.java:291-292 | `String.indexOf`: -1 or an index holding the character, with no earlier occurrence |
| SensorServiceWifi.IndexOfFrom | android/BodynodesSensor/app/src/main/java/eu/bodynodesdev/sensor/services/SensorServiceWifi.java:306-307 | searching again after cutting off a prefix without the character finds the same occurrence, shifted |
| SensorServiceWifi.FirstObjectShape | android/BodynodesSensor/app/src/main/java/eu/bodynodesdev/sensor/services/SensorServiceWifi.java:288-320 | an action is extracted iff some '}' follows some '{', and it is a brace-delimited text taken from the buffer |
| SensorServiceWifi.CheckForActionsAsWritten | android/BodynodesSensor/app/src/main/java/eu/bodynodesdev/sensor/services/SensorServiceWifi.java:291-314 | the code as written, with its stale opening index: whenever it yields an action the buffer is left empty |
| SensorServiceWifi.StaleIndexAsWritten | android/BodynodesSensor/app/src/main/java/eu/bodynodesdev/sensor/services/SensorServiceWifi.java:303-313 | on "}{a}" the code as written yields "a}"; on "}}}}{a}" its substring bounds are out of range |
| SensorServiceWifi.StrayCloseExtracted | android/BodynodesSensor/app/src/main/java/eu/bodynodesdev/sensor/services/SensorServiceWifi.java:303-313 | the intended extraction yields "{a}" for both of those buffers |
| SensorServiceWifi.AsWrittenAgreesWhenOrdered | android/BodynodesSensor/app/src/main/java/eu/bodynodesdev/sensor/services/SensorServiceWifi.java:291-319 | when the first '{' comes before the first '}' the code as written extracts the intended action |
| SensorServiceWifi.BigChangeValues | android/BodynodesSensor/app/src/main/java/eu/bodynodesdev/sensor/services/SensorServiceWifi.java:410-424 | true iff some component lies outside the previous value plus or minus the threshold; only then are the first n values copied into the previous ones |
| SensorServiceWifi.BigChangeSettles | android/BodynodesSensor/app/src/main/java/eu/bodynodesdev/sensor/services/SensorServiceWifi.java:410-424 | a reading that was a big change is not one when tested again at once (same code also at android/BodynodesSensor/app/src/main/java/eu/bodynodesdev/sensor/services/SensorServiceWifi.java:485) |
| SensorServiceWifi.SensorServiceWifi.constructor | android/BodynodesSensor/app/src/main/java/eu/bodynodesdev/sensor/services/SensorServiceWifi.java:83-100 | all received texts empty, no server address, zero times, disconnected |
| SensorServiceWifi.SensorServiceWifi.CheckForActions | android/BodynodesSensor/app/src/main/java/eu/bodynodesdev/sensor/services/SensorServiceWifi.java:288-320 | returns the intended action of the received text; the remaining text is what follows the first '}' when there is no '{', the text from the first '{' when nothing closes it, and empty after an action |
| SensorServiceWifi.SensorServiceWifi.CheckForAckh | android/BodynodesSensor/app/src/main/java/eu/bodynodesdev/sensor/services/SensorServiceWifi.java:454-461 | true iff the received text contains ACKH; only then the receive time is stamped and the text cleared |
| SensorServiceWifi.SensorServiceWifi.CheckForMulticastBn | android/BodynodesSensor/app/src/main/java/eu/bodynodesdev/sensor/services/SensorServiceWifi.java:463-470 | true iff the multicast text contains the group name; only then the receive time is stamped and the text cleared |
| SensorServiceWifi.SensorServiceWifi.SaveHostInfo | android/BodynodesSensor/app/src/main/java/eu/bodynodesdev/sensor/services/SensorServiceWifi.java:472-475 | the server address becomes the parse of the multicast sender's address text |
| SensorServiceWifi.SensorServiceWifi.SendAckn | android/BodynodesSensor/app/src/main/java/eu/bodynodesdev/sensor/services/SensorServiceWifi.java:435-453 | ACKN is sent iff the socket is open and at least 1000 ms have passed since the last send, and only then is the send time stamped |
| SensorServiceWifi.SensorServiceWifi.CheckAllOk | android/BodynodesSensor/app/src/main/java/eu/bodynodesdev/sensor/services/SensorServiceWifi.java:365-404 | true iff the type is WiFi and the state was connected; disconnected moves to waiting; a connection is made only from waiting with a server address and an ACKH; when connected, it drops iff nothing was heard for more than 60000 ms, and a text without ACKH yields its action |
| IpCodec.Decimal | android/BodynodesSensor/app/src/main/java/eu/bodynodes/sensor/BodynodesUtils.java:98 | `%d` of a non-negative value: non-empty digits, no leading zero, at most three digits below 256 |
| IpCodec.DecimalRoundTrip | android/BodynodesSensor/app/src/main/java/eu/bodynodes/sensor/BodynodesUtils.java:98 | reading back the printed digits gives the number (same code also at android/BodynodesSensor/app/src/main/java/eu/bodynodes/sensor/BodynodesUtils.java:123-126) |
| IpCodec.Octets | android/BodynodesSensor/app/src/main/java/eu/bodynodes/sensor/BodynodesUtils.java:99-102 | the four `& 0xff` fields of the shifted value, each below 256 |
| IpCodec.OctetsRecompose | android/BodynodesSensor/app/src/main/java/eu/bodynodes/sensor/BodynodesUtils.java:99-102 | the four octets, lowest first, recompose the `int` modulo 2^32 |
| IpCodec.FormatIp | android/BodynodesSensor/app/src/main/java/eu/bodynodes/sensor/BodynodesUtils.java:95-104 | the dotted text of an `int` has 7 to 15 characters |
| IpCodec.FormatIpOfBytes | android/BodynodesSensor/app/src/main/java/eu/bodynodes/sensor/BodynodesUtils.java:95-104 | any `int` whose 32-bit pattern holds four bytes, lowest first, prints as those bytes in that order: a little-endian gateway reads in the usual order and a negative `int` prints its two's-complement bytes (same code also at android/BodynodesSensor/app/src/main/java/eu/bodynodes/sensor/BodynodesUtils.java:113-118) |
| IpCodec.Split | android/BodynodesSensor/app/src/main/java/eu/bodynodes/sensor/BodynodesUtils.java:121 | `split` on the dot: no field holds the separator |
| IpCodec.SplitPrefix | android/BodynodesSensor/app/src/main/java/eu/bodynodes/sensor/BodynodesUtils.java:121 | a separator-free field is split off whole |
| IpCodec.SplitWhole | android/BodynodesSensor/app/src/main/java/eu/bodynodes/sensor/BodynodesUtils.java:121 | a text without the separator is one field |
| IpCodec.ParseInt | android/BodynodesSensor/app/src/main/java/eu/bodynodes/sensor/BodynodesUtils.java:123-126 | `Integer.parseInt`: the decimal value of a digit string within `int`; an empty text fails |
| IpCodec.GetInetAddressFromStr | android/BodynodesSensor/app/src/main/java/eu/bodynodes/sensor/BodynodesUtils.java:120-136 | an address is four bytes, or none |
| IpCodec.SplitFour | android/BodynodesSensor/app/src/main/java/eu/bodynodes/sensor/BodynodesUtils.java:121 | four separator-free fields joined by dots split back into those four |
| IpCodec.DottedSplit | android/BodynodesSensor/app/src/main/java/eu/bodynodes/sensor/BodynodesUtils.java:98 | the dotted text of four octets splits into their decimal texts (same code also at android/BodynodesSensor/app/src/main/java/eu/bodynodes/sensor/BodynodesUtils.java:121) |
| IpCodec.DigitsHaveNoDot | android/BodynodesSensor/app/src/main/java/eu/bodynodes/sensor/BodynodesUtils.java:121 | a decimal field holds no dot |
| IpCodec.DottedThenParse | android/BodynodesSensor/app/src/main/java/eu/bodynodes/sensor/BodynodesUtils.java:120-136 | the dotted text of four numbers parses to those numbers cast to bytes |
| IpCodec.FormatThenParse | android/BodynodesSensor/app/src/main/java/eu/bodynodes/sensor/BodynodesUtils.java:95-104 | `getInetAddressFromStr(formatIP(ip))` gives the octets of ip, lowest first (same code also at android/BodynodesSensor/app/src/main/java/eu/bodynodes/sensor/BodynodesUtils.java:120-136) |
| IpCodec.ParseNegative | android/BodynodesSensor/app/src/main/java/eu/bodynodes/sensor/BodynodesUtils.java:123-126 | a minus sign before digits parses to the negative value |
| IpCodec.JavaRejectsThreeFields | android/BodynodesSensor/app/src/main/java/eu/bodynodes/sensor/BodynodesUtils.java:121-135 | three fields yield no address |
| IpCodec.JavaRejectsEmptyField | android/BodynodesSensor/app/src/main/java/eu/bodynodes/sensor/BodynodesUtils.java:123-135 | an empty field among the first four yields no address |
| IpCodec.NonEmptyKeeps | examples/redbear_duo_ble_node/BnNodeSpecific.cpp:113-119 | where every field has text, `strtok` returns all the fields |
| IpCodec.NonEmptyDrops | examples/redbear_duo_ble_node/BnNodeSpecific.cpp:113-119 | every `strtok` token is non-empty |
| IpCodec.NonEmpty | examples/redbear_duo_ble_node/BnNodeSpecific.cpp:113-119 | the fields `strtok` keeps are fields of the split, in order |
| IpCodec.Tokens | examples/redbear_duo_ble_node/BnNodeSpecific.cpp:113-119 | every `strtok` token is non-empty and holds no separator |
| IpCodec.DigitPrefix | examples/redbear_duo_ble_node/BnNodeSpecific.cpp:114 | the leading digits of a text, ending at its first non-digit |
| IpCodec.Atoi | examples/redbear_duo_ble_node/BnNodeSpecific.cpp:114 | `atoi` of a digit string is its decimal value |
| IpCodec.AllDigitsPrefix | examples/redbear_duo_ble_node/BnNodeSpecific.cpp:114 | a digit string is its own digit prefix |
| IpCodec.GetIpAddressFromStr | examples/redbear_duo_ble_node/BnNodeSpecific.cpp:107-122 | an address is four bytes, or none |
| IpCodec.DottedTokens | examples/redbear_duo_ble_node/BnNodeSpecific.cpp:113-119 | the dotted text of four octets tokenises into their decimal texts |
| IpCodec.DottedThenStrtok | examples/redbear_duo_ble_node/BnNodeSpecific.cpp:107-122 | the dotted text of four numbers, shorter than 255, reads back as those numbers modulo 256 |
| IpCodec.AtoiDecimal | examples/redbear_duo_ble_node/BnNodeSpecific.cpp:114 | `atoi` of a printed number is the number |
| IpCodec.OctetsThenStrtok | examples/redbear_duo_ble_node/BnNodeSpecific.cpp:107-122 | the dotted text of four octets reads back as those octets |
| IpCodec.StrtokSkipsEmptyField | examples/redbear_duo_ble_node/BnNodeSpecific.cpp:113-119 | an empty field between dots is skipped, unlike in the Java parser |
| IpCodec.StrtokShort | examples/redbear_duo_ble_node/BnNodeSpecific.cpp:107-122 | a text shorter than 255 characters is read whole: the address is its first four tokens through `atoi`, modulo 256 |
| BleCodecs.HexDigit | examples/redbear_duo_ble_node/BnNodeSpecific.cpp:205-207 | a hexadecimal digit of a value below 16: a decimal digit iff the value is below 10, otherwise an upper-case letter iff upper case is asked for |
| BleCodecs.HexValue | examples/redbear_duo_ble_node/BnNodeSpecific.cpp:205-207 | the value of a hexadecimal digit in either case, below 16; 0 for any other character |
| BleCodecs.HexDigitRoundTrip | examples/redbear_duo_ble_node/BnNodeSpecific.cpp:205-207 | both cases of a digit read back as its value |
| BleCodecs.HexPair | examples/redbear_duo_ble_node/BnNodeSpecific.cpp:222 | the high digit's value is the upper nibble and the low digit's value the lower nibble |
| BleCodecs.UuidToBytes | examples/redbear_duo_ble_node/BnNodeSpecific.cpp:211-220 | a 36-character UUID text gives 16 bytes |
| BleCodecs.FormatUuid | examples/redbear_duo_ble_node/BnNodeSpecific.cpp:208-220 | the canonical text of 16 bytes has 36 characters, with dashes at positions 8, 13, 18 and 23 only |
| BleCodecs.PairStart | examples/redbear_duo_ble_node/BnNodeSpecific.cpp:211-220 | each byte's pair of digits sits at text positions that skip the dashes, in order |
| BleCodecs.FormatUuidPairs | examples/redbear_duo_ble_node/BnNodeSpecific.cpp:211-220 | the pair for byte k holds its upper and lower nibble digits |
| BleCodecs.UuidRoundTrip | examples/redbear_duo_ble_node/BnNodeSpecific.cpp:211-220 | reading the canonical text of 16 bytes gives the bytes back |
| BleCodecs.UuidIgnoresDashes | examples/redbear_duo_ble_node/BnNodeSpecific.cpp:208-220 | the characters at the dash positions do not affect the bytes |
| BleCodecs.BigEndian | examples/redbear_duo_ble_node/BnNodeSpecific.cpp:176-182 | the four bytes of a float in reversed order |
| BleCodecs.RunLength | examples/redbear_duo_ble_node/BnNodeSpecific.cpp:167 | the length of the leading run without ',' or ' ' |
| BleCodecs.Strtok | examples/redbear_duo_ble_node/BnNodeSpecific.cpp:167-171 | `strtok` on ", ": non-empty tokens free of delimiters |
| BleCodecs.Inner | examples/redbear_duo_ble_node/BnNodeSpecific.cpp:159-161 | the text between the first and the last of slength characters, with the brackets removed |
| BleCodecs.ParsedFloats | examples/redbear_duo_ble_node/BnNodeSpecific.cpp:165-172 | numFloats floats, `atof` of each token in turn, and the zero word for the missing ones |
| BleCodecs.ConvertStringArrayToFloatBytes | examples/redbear_duo_ble_node/BnNodeSpecific.cpp:157-183 | the first 4 * numFloats bytes are the parsed floats, each big-endian; the rest of the buffer is unchanged |
| BleCodecs.ParseFloatTokens | examples/redbear_duo_ble_node/BnNodeSpecific.cpp:165-172 | the float array holds exactly the parsed floats |
| BleCodecs.WriteBigEndian | examples/redbear_duo_ble_node/BnNodeSpecific.cpp:174-182 | each float's bytes reversed into its 4-byte slot; the rest unchanged |
| BleCodecs.EncodeBigEndian | examples/redbear_duo_ble_node/BnNodeSpecific.cpp:174-182 | four bytes per float |
| BleCodecs.BigEndianRecovers | examples/redbear_duo_ble_node/BnNodeSpecific.cpp:174-182 | each float's word is recovered from its slot |
| BleCodecs.UInt8Values | examples/redbear_duo_ble_node/BnNodeSpecific.cpp:194-200 | one byte per token, `atoi` modulo 256, up to the lesser of numUints and the token count (same code also at examples/mpnrf52840_ble_node_mouse/BnNodeSpecific.cpp:133-139) |
| BleCodecs.ConvertStringArrayToUInt8Bytes | examples/redbear_duo_ble_node/BnNodeSpecific.cpp:186-201 | the first bytes are those values; the rest of the buffer is unchanged (same code also at examples/mpnrf52840_ble_node_mouse/BnNodeSpecific.cpp:125-140) |
| BleCodecs.Decimals | examples/redbear_duo_ble_node/BnNodeSpecific.cpp:197 | the decimal texts of the values |
| BleCodecs.RunOfToken | examples/redbear_duo_ble_node/BnNodeSpecific.cpp:167 | a delimiter-free field followed by a delimiter is one run |
| BleCodecs.StrtokToken | examples/redbear_duo_ble_node/BnNodeSpecific.cpp:167-170 | such a field is the next token |
| BleCodecs.StrtokDelims | examples/redbear_duo_ble_node/BnNodeSpecific.cpp:167-170 | leading delimiters are skipped |
| BleCodecs.StrtokJoin | examples/redbear_duo_ble_node/BnNodeSpecific.cpp:167-170 | joining delimiter-free fields with ", " tokenises back into the fields |
| BleCodecs.DecimalsAreTokens | examples/redbear_duo_ble_node/BnNodeSpecific.cpp:197 | a decimal text is a non-empty token without delimiters |
| BleCodecs.UInt8RoundTrip | examples/redbear_duo_ble_node/BnNodeSpecific.cpp:186-201 | the array text of at most numUints byte values converts back to those values |
| BleCodecs.UInt8Truncates | examples/redbear_duo_ble_node/BnNodeSpecific.cpp:186-201 | with more values than numUints, only the first numUints are kept |
| BleCodecs.FloatFieldsParsed | examples/redbear_duo_ble_node/BnNodeSpecific.cpp:157-172 | the array text of float fields parses to `atof` of each field, in order |
| BleNode.CheckAllOk | examples/redbear_duo_ble_node/BnNodeSpecific.cpp:451-463 | from not connected the status becomes waiting; otherwise it is connected iff the BLE link is up, and not connected when it is down (same code also at examples/mpnrf52840_ble_node_mouse/BnNodeSpecific.cpp:435-447) |
| BleNode.CheckAllOkInRange | examples/redbear_duo_ble_node/BnNodeSpecific.cpp:451-463 | the status returned is always one of the three codes |
| BleNode.ConnectsInTwoPolls | examples/redbear_duo_ble_node/BnNodeSpecific.cpp:451-463 | a node starting disconnected is never connected after one poll, and is connected after two iff the link is up |
| BleNode.TextLength | examples/redbear_duo_ble_node/BnNodeSpecific.cpp:490 | the `uint8_t` length of a value text is at most its length |
| BleNode.FloatPayload | examples/redbear_duo_ble_node/BnNodeSpecific.cpp:489-491 | a float notification carries 4 bytes per float |
| BleNode.Zeros | examples/redbear_duo_ble_node/BnNodeSpecific.cpp:489 | n zero bytes |
| BleNode.UInt8Payload | examples/redbear_duo_ble_node/BnNodeSpecific.cpp:497-499 | a byte notification carries exactly the characteristic's length |
| BleNode.Notify | examples/redbear_duo_ble_node/BnNodeSpecific.cpp:488-508 | a message produces a notification iff its type has a converter on that board, and the payload has the characteristic's length (same code also at examples/mpnrf52840_ble_node_mouse/BnNodeSpecific.cpp:468-487) |
| BleNode.Notifications | examples/redbear_duo_ble_node/BnNodeSpecific.cpp:470-509 | at most one notification per message, in order (same code also at examples/mpnrf52840_ble_node_mouse/BnNodeSpecific.cpp:454-488) |
| BleNode.GloveRoundTrip | examples/redbear_duo_ble_node/BnNodeSpecific.cpp:496-499 | a glove message printed from nine byte values notifies exactly those bytes on the glove characteristic (same code also at examples/mpnrf52840_ble_node_mouse/BnNodeSpecific.cpp:476-479) |
| BleNode.OrientationRoundTrip | examples/redbear_duo_ble_node/BnNodeSpecific.cpp:488-491 | an orientation message of four float texts reaches the RedBear Duo receiver as `atof` of each, read big-endian |
| BleNode.Nrf52840SkipsOrientation | examples/mpnrf52840_ble_node_mouse/BnNodeSpecific.cpp:468-471 | the nRF52840 sends nothing for orientation messages |
| BleNode.BleNodeCommunicator.constructor | examples/redbear_duo_ble_node/BnNodeSpecific.cpp:284-298 | not connected, the player and bodypart not set, no messages (same code also at examples/redbear_duo_ble_node/BnNodeSpecific.cpp:445-447) |
| BleNode.BleNodeCommunicator.ConnectedCallback | examples/redbear_duo_ble_node/BnNodeSpecific.cpp:317-324 | only a successful status sets the connection; nothing else changes (same code also at examples/mpnrf52840_ble_node_mouse/BnNodeSpecific.cpp:369-373) |
| BleNode.BleNodeCommunicator.DisconnectedCallback | examples/redbear_duo_ble_node/BnNodeSpecific.cpp:327-333 | the connection flag is cleared; nothing else changes (same code also at examples/mpnrf52840_ble_node_mouse/BnNodeSpecific.cpp:376-383) |
| BleNode.BleNodeCommunicator.GattReadCallback | examples/redbear_duo_ble_node/BnNodeSpecific.cpp:347-363 | the player value for the player handle, the bodypart value for the bodypart handle, nothing otherwise; the rest of the buffer unchanged |
| BleNode.BleNodeCommunicator.SendOne | examples/redbear_duo_ble_node/BnNodeSpecific.cpp:480-508 | the notification of one message is `Notify` of it (same code also at examples/mpnrf52840_ble_node_mouse/BnNodeSpecific.cpp:460-487) |
| BleNode.BleNodeCommunicator.SendAllMessages | examples/redbear_duo_ble_node/BnNodeSpecific.cpp:465-515 | every message is notified in order; the player and bodypart are taken from the first message only once, in full on the RedBear Duo and cut to 20 bytes on the nRF52840; the first `(uint8_t) size` messages are removed (same code also at examples/mpnrf52840_ble_node_mouse/BnNodeSpecific.cpp:449-494) |
| BleNode.StoredValue | examples/redbear_duo_ble_node/BnNodeSpecific.cpp:475-476 | the kept value is a prefix of the text, as long as the text but at most 20 bytes: the RedBear Duo copies a text that fits its buffer whole, the nRF52840's characteristic write keeps its first 20 bytes (same code also at examples/mpnrf52840_ble_node_mouse/BnNodeSpecific.cpp:456-457) |
| BleNode.BleNodeCommunicator.RemoveSent | examples/redbear_duo_ble_node/BnNodeSpecific.cpp:510-513 | removes the first `(uint8_t) size` messages, changing nothing else (same code also at examples/mpnrf52840_ble_node_mouse/BnNodeSpecific.cpp:489-492) |
| BleNode.CopyInto | examples/redbear_duo_ble_node/BnNodeSpecific.cpp:354 | `memcpy` of the value into the buffer; the rest unchanged (same code also at examples/redbear_duo_ble_node/BnNodeSpecific.cpp:358) |
| BleNode.SendDrains | examples/redbear_duo_ble_node/BnNodeSpecific.cpp:465-515 | with fewer than 256 messages the list is drained and no more notifications than messages are sent |
| BleNode.PersBlock.constructor | examples/mpnrf52840_ble_node_mouse/BnNodeSpecific.cpp:34-38 | the static block starts zero-filled |
| BleNode.PersBlock.Init | examples/mpnrf52840_ble_node_mouse/BnNodeSpecific.cpp:40-54 | when mounted and opened, the file's bytes overwrite the start of the block; otherwise it is unchanged |
| BleNode.PersBlock.Read | examples/mpnrf52840_ble_node_mouse/BnNodeSpecific.cpp:59-65 | the byte at an address inside the block; otherwise the output keeps its value |
| BleNode.PersBlock.Write | examples/mpnrf52840_ble_node_mouse/BnNodeSpecific.cpp:67-82 | only an address inside the block changes, and only that byte |
| BleNode.WriteThenRead | examples/mpnrf52840_ble_node_mouse/BnNodeSpecific.cpp:59-82 | a byte written inside the block reads back; other addresses keep their bytes |
| BleConn.DecodeAction | arduino/redbear_duo/ble_node/ble_conn.cpp:376-378 | the decoded type and duration are 16-bit and the strength is a byte |
| BleConn.ActionRoundTrip | arduino/redbear_duo/ble_node/ble_conn.cpp:369-381 | every action whose fields fit their widths survives writing and decoding |
| BleConn.ActionBytesRoundTrip | arduino/redbear_duo/ble_node/ble_conn.cpp:374-378 | any five written bytes are the encoding of the action they decode to |
| BleConn.ByteOrdersDiffer | arduino/redbear_duo/ble_node/ble_conn.cpp:333-354 | memory order and the newer nodes' reversed order agree on a float iff its bytes read the same both ways (same code also at examples/redbear_duo_ble_node/BnNodeSpecific.cpp:176-182) |
| BleConn.BleConnection.constructor | arduino/redbear_duo/ble_node/ble_conn.cpp:273-276 | no flags set, both characteristic buffers zero, the given handles (same code also at arduino/redbear_duo/ble_node/ble_conn.cpp:141-145) |
| BleConn.BleConnection.DeviceConnectedCallback | arduino/redbear_duo/ble_node/ble_conn.cpp:182-190 | only a successful status sets the connection; the data flags are unchanged |
| BleConn.BleConnection.DeviceDisconnectedCallback | arduino/redbear_duo/ble_node/ble_conn.cpp:192-195 | the connection flag is cleared; the data flags are unchanged |
| BleConn.BleConnection.NotifyTick | arduino/redbear_duo/ble_node/ble_conn.cpp:147-155 | the orientation buffer goes out iff data is pending, and the pending flag is then clear |
| BleConn.BleConnection.GattReadCallback | arduino/redbear_duo/ble_node/ble_conn.cpp:209-236 | the bodypart tag, "sup", the action tag or "sup" for the orientation handle, the one after it, the action handle and the one after it, in that order; nothing otherwise; the rest of the buffer unchanged |
| BleConn.BleConnection.GattWriteCallback | arduino/redbear_duo/ble_node/ble_conn.cpp:247-271 | a write to the action handle is stored at the start of the action buffer and marks data received; any other write changes nothing; 0 is returned |
| BleConn.BleConnection.SendOrientationValueQuat | arduino/redbear_duo/ble_node/ble_conn.cpp:322-366 | the orientation buffer becomes the bytes of w, x, y and z in turn, and data is pending |
| BleConn.BleConnection.CheckActionBLE | arduino/redbear_duo/ble_node/ble_conn.cpp:369-381 | a NOPE action with zero duration and strength unless a write is pending, else the decoded write; the received flag is clear afterwards |
| BleConn.PutWord | arduino/redbear_duo/ble_node/ble_conn.cpp:333-335 | one float's four bytes in memory order at the offset; the rest unchanged |
| BleConn.Copy | arduino/redbear_duo/ble_node/ble_conn.cpp:217 | `memcpy` of the text into the buffer; the rest unchanged (same code also at arduino/redbear_duo/ble_node/ble_conn.cpp:223) |
| BleConn.WriteThenCheck | arduino/redbear_duo/ble_node/ble_conn.cpp:247-271 | an action written by the host is decoded once, and the next check reports NOPE (same code also at arduino/redbear_duo/ble_node/ble_conn.cpp:369-381) |
| OrientationSensors.LedAfter | examples/redbear_duo_ble_node/BnOrientationAbsSensor_BNO055.cpp:51-74 | the LED after a status change: on when not accessible, off when working, toggled after more than 500 ms while calibrating |
| OrientationSensors.Bno055Sensor.constructor | examples/redbear_duo_ble_node/BnOrientationAbsSensor_BNO055.cpp:29-49 | a new sensor is neither initialised nor enabled |
| OrientationSensors.Bno055Sensor.SetStatus | examples/redbear_duo_ble_node/BnOrientationAbsSensor_BNO055.cpp:51-74 | NOT_ACCESSIBLE clears and WORKING sets the init flag, CALIBRATING leaves it; the LED becomes `LedAfter`; nothing else changes |
| OrientationSensors.Bno055Sensor.Init | examples/redbear_duo_ble_node/BnOrientationAbsSensor_BNO055.cpp:29-49 | enabled, both timers start now, and initialised iff `begin()` succeeds, which also arms the first-zeros tolerance; the LED is off on success and on after a failure, stamped now |
| OrientationSensors.Bno055Sensor.CheckAllOk | examples/redbear_duo_ble_node/BnOrientationAbsSensor_BNO055.cpp:76-125 | uninitialised: no attempt within 5000 ms, else the attempt's outcome restarts the timer; initialised: nothing within the read interval, else the realigned reading is accepted unless it is all zeros after a nonzero reading, which marks the sensor lost; an attempt leaves the LED off on success and on after a failure, a lost sensor turns it on, stamped now, and every other path keeps it |
| OrientationSensors.Bno055Sensor.GetData | examples/redbear_duo_ble_node/BnOrientationAbsSensor_BNO055.cpp:152-167 | stamps the read time and returns the stored values tagged orientation_abs |
| OrientationSensors.Bno055Sensor.IsCalibrated | examples/redbear_duo_ble_node/BnOrientationAbsSensor_BNO055.cpp:127-150 | true iff the system calibration level is at least 2; below that the LED blinks as calibrating, otherwise the sensor is working |
| OrientationSensors.Bno055Sensor.SetEnable | examples/redbear_duo_ble_node/BnOrientationAbsSensor_BNO055.cpp:173-175 | the enable flag becomes the given status; nothing else changes |
| OrientationSensors.Bno055Sensor.GetType | examples/redbear_duo_ble_node/BnOrientationAbsSensor_BNO055.cpp:169-171 | the data are sent under the orientation_abs tag |
| OrientationSensors.CalibratedIsInitialised | examples/redbear_duo_ble_node/BnOrientationAbsSensor_BNO055.cpp:127-150 | a calibrated sensor is initialised with its LED off (same code also at examples/redbear_duo_ble_node/BnOrientationAbsSensor_BNO055.cpp:68-73) |
| OrientationSensors.WifiNodeSensor.constructor | arduino/redbear_duo/wifi_node/sensor.cpp:27-37 | a new sensor has the given read interval and is not initialised |
| OrientationSensors.WifiNodeSensor.InitSensor | arduino/redbear_duo/wifi_node/sensor.cpp:89-104 | the last quaternion is (-1, -1, -1, -1), both timers start now, initialised iff `begin()` succeeds, which also arms the first-zeros tolerance; the HMI LED is off (steady) on success and on after a failure, stamped now |
| OrientationSensors.WifiNodeSensor.CheckSensorInit | arduino/redbear_duo/wifi_node/sensor.cpp:106-123 | true when initialised, with the LED kept; otherwise no attempt within 5000 ms, the LED kept, else the attempt's outcome, restarting the timer, with the LED off on success and on after a failure |
| OrientationSensors.WifiNodeSensor.CheckConnectionSensorQuat | arduino/redbear_duo/wifi_node/sensor.cpp:171-180 | the first-zeros flag stays only while readings are all zeros; all zeros after a nonzero reading mark the sensor lost, not initialised with the HMI LED on and stamped (setStatusSensorHMI_OFF), otherwise the init flag and LED are kept |
| OrientationSensors.WifiNodeSensor.NoBigChangeQuat | arduino/redbear_duo/wifi_node/sensor.cpp:185-213 | true iff no component moved by more than 0.002 from the last quaternion; otherwise the last quaternion becomes the reading |
| OrientationSensors.BigChange | arduino/redbear_duo/wifi_node/sensor.cpp:185-213 | a reading is a big change iff one of its four components lies outside the last reading plus or minus the threshold |
| OrientationSensors.WifiNodeSensor.CheckReadFromSensor | arduino/redbear_duo/wifi_node/sensor.cpp:148-163 | nothing happens inside the read interval; otherwise the read time is stamped, all zeros after a nonzero reading clear the init flag and turn the HMI LED on (the first-zeros disconnect), and the reading is kept iff it is a big change |
| OrientationSensors.WifiNodeSensor.IsCalibrationOK | arduino/redbear_duo/wifi_node/sensor.cpp:125-146 | calibrated iff the system level is at least 2; then the LED goes off (steady) and the sensor counts as initialised, otherwise the LED blinks slowly and nothing else changes |
| OrientationSensors.FirstReadChanges | arduino/redbear_duo/wifi_node/sensor.cpp:90 | the first reading with w >= 0 is always a big change from the initial (-1, -1, -1, -1) (same code also at arduino/redbear_duo/wifi_node/sensor.cpp:185-213) |
| OrientationSensors.NoChangeAgainstItself | arduino/redbear_duo/wifi_node/sensor.cpp:185-213 | a reading equal to the last quaternion is never a big change |
| Actuators.ToU32 | arduino/esp-12e/wifi_snode/actuators.cpp:46 | an `int` stored into an `unsigned long`: unchanged when it fits, congruent modulo 2^32 |
| Actuators.OnForDuration | arduino/esp-12e/wifi_snode/actuators.cpp:51-57 | a vibration started at start keeps the motor on exactly for the first duration milliseconds, also across the 32-bit wrap of the clock |
| Actuators.ZeroDurationOff | arduino/esp-12e/wifi_snode/actuators.cpp:52 | a zero duration never turns the motor on |
| Actuators.Vibration.constructor | arduino/esp-12e/wifi_snode/actuators.cpp:28-32 | the global record starts zeroed |
| Actuators.Vibration.InitActuators | arduino/esp-12e/wifi_snode/actuators.cpp:34-39 | start and duration cleared, the strength kept, so the motor is off whatever the time |
| Actuators.Vibration.SetAction | arduino/esp-12e/wifi_snode/actuators.cpp:41-49 | a haptic action replaces the whole record, starting now; any other action leaves it |
| Actuators.Vibration.MakeActions | arduino/esp-12e/wifi_snode/actuators.cpp:51-58 | the motor pin is high iff less than the duration has elapsed since the start |
| Actuators.SecondActionWins | arduino/esp-12e/wifi_snode/actuators.cpp:27 | after two haptic actions the record is the second one's, and the motor runs for its duration from its start (same code also at arduino/esp-12e/wifi_snode/actuators.cpp:41-58) |
| GloveSerialReader.FirstEol | python_nodes_coder/templates/esensors/BnGloveSensorReaderSerial.cpp:40-48 | the position of the first carriage return or line feed, or the end; no end-of-line byte before it |
| GloveSerialReader.FirstEolOfLine | python_nodes_coder/templates/esensors/BnGloveSensorReaderSerial.cpp:40-48 | a line followed by an end-of-line byte ends at that byte |
| GloveSerialReader.Chars | python_nodes_coder/templates/esensors/BnGloveSensorReaderSerial.cpp:47 | the line text the bytes append in turn: each byte but 0 as the character with that code, never longer than the bytes |
| GloveSerialReader.CharString | python_nodes_coder/templates/esensors/BnGloveSensorReaderSerial.cpp:47 | `String((char)(byteVal))` is empty exactly for byte 0, and otherwise the one character with that code |
| GloveSerialReader.CharsNoNul | python_nodes_coder/templates/esensors/BnGloveSensorReaderSerial.cpp:47 | bytes with no 0 among them become the characters with those codes, one each |
| GloveSerialReader.CharsWithoutNul | python_nodes_coder/templates/esensors/BnGloveSensorReaderSerial.cpp:47 | the line never holds a NUL character, whatever bytes arrive |
| GloveSerialReader.CharsSkipsNul | python_nodes_coder/templates/esensors/BnGloveSensorReaderSerial.cpp:47 | a 0 byte anywhere in the input adds nothing to the line |
| GloveSerialReader.SkipSpaces | python_nodes_coder/templates/esensors/BnGloveSensorReaderSerial.cpp:67 | `strtol` skips leading white space up to the first other character |
| GloveSerialReader.DigitEnd | python_nodes_coder/templates/esensors/BnGloveSensorReaderSerial.cpp:67 | the end of the digit run |
| GloveSerialReader.ClampLong | python_nodes_coder/templates/esensors/BnGloveSensorReaderSerial.cpp:67 | `strtol`'s result: the value when it fits a 32-bit `long`, else the nearer bound |
| GloveSerialReader.Strtol | python_nodes_coder/templates/esensors/BnGloveSensorReaderSerial.cpp:67 | the value is a 32-bit `long` and the rest is a suffix of the text |
| GloveSerialReader.ParseValues | python_nodes_coder/templates/esensors/BnGloveSensorReaderSerial.cpp:65-68 | n successive `strtol` values, each a 32-bit `long` |
| GloveSerialReader.ParseValuesStep | python_nodes_coder/templates/esensors/BnGloveSensorReaderSerial.cpp:66-67 | each call reads one value and continues from where it stopped |
| GloveSerialReader.StrtolReadsField | python_nodes_coder/templates/esensors/BnGloveSensorReaderSerial.cpp:67 | after spaces, a field's sign and digits are read as its value, and parsing stops after them |
| GloveSerialReader.StrtolParts | python_nodes_coder/templates/esensors/BnGloveSensorReaderSerial.cpp:67 | `strtol` is the clamped signed magnitude of the digits after the spaces and the sign |
| GloveSerialReader.BlankParsesZeros | python_nodes_coder/templates/esensors/BnGloveSensorReaderSerial.cpp:65-68 | a blank rest of the line yields zeros: `strtol` reads nothing and returns 0 |
| GloveSerialReader.ParseFieldThen | python_nodes_coder/templates/esensors/BnGloveSensorReaderSerial.cpp:66-67 | a field followed by a non-digit yields its value, then the parse of what follows |
| GloveSerialReader.JoinedRoundTrip | python_nodes_coder/templates/esensors/BnGloveSensorReaderSerial.cpp:65-68 | up to n space-separated fields are read back as their values, followed by zeros |
| GloveSerialReader.CommaStopsParse | python_nodes_coder/templates/esensors/BnGloveSensorReaderSerial.cpp:67 | a comma stops `strtol`, so a comma-separated line yields its first value and then zeros |
| GloveSerialReader.FieldOf | python_nodes_coder/templates/esensors/BnGloveSensorReaderSerial.cpp:67 | the printed form of a value is a valid field |
| GloveSerialReader.PrintedValues | python_nodes_coder/templates/esensors/BnGloveSensorReaderSerial.cpp:67 | values printed as decimal fields are read back as themselves |
| GloveSerialReader.GloveLineRoundTrip | python_nodes_coder/templates/esensors/BnGloveSensorReaderSerial.cpp:55-68 | a glove line of nine printed readings is read back exactly |
| GloveSerialReader.JoinedChars | python_nodes_coder/templates/esensors/BnGloveSensorReaderSerial.cpp:47 | a printed line holds only digits, signs and spaces |
| GloveSerialReader.GloveSensorReaderSerial.constructor | python_nodes_coder/templates/esensors/BnGloveSensorReaderSerial.cpp:29-37 | the receive buffer holds the input; no line, not enabled |
| GloveSerialReader.GloveSensorReaderSerial.Init | python_nodes_coder/templates/esensors/BnGloveSensorReaderSerial.cpp:29-37 | no line done, an empty line, enabled |
| GloveSerialReader.GloveSensorReaderSerial.CheckAllOk | python_nodes_coder/templates/esensors/BnGloveSensorReaderSerial.cpp:39-52 | a finished line is kept; otherwise the bytes up to the first end of line are appended, 0 bytes adding nothing, and that byte consumed, and the result is whether the line is now finished |
| GloveSerialReader.GloveSensorReaderSerial.GetData | python_nodes_coder/templates/esensors/BnGloveSensorReaderSerial.cpp:55-69 | without a finished line nothing changes; otherwise the line is cleared and the first nine values are its successive `strtol` parses |
| GloveSerialReader.GloveSensorReaderSerial.SetEnable | python_nodes_coder/templates/esensors/BnGloveSensorReaderSerial.cpp:75-77 | the enable flag becomes the given status; nothing else changes |
| GloveSerialReader.GloveSensorReaderSerial.GetType | python_nodes_coder/templates/esensors/BnGloveSensorReaderSerial.cpp:71-73 | the data are sent under the glove tag |
| GloveSerialReader.StrtolInto | python_nodes_coder/templates/esensors/BnGloveSensorReaderSerial.cpp:65-68 | the nine-value loop fills the first nine entries with the parse of the line |
| GloveSerialReader.ReadValues | python_nodes_coder/templates/esensors/BnGloveSensorReaderSerial.cpp:65-68 | the `strtol` loop for any count n: the first n entries hold the parse of the line and the rest are untouched |
| GloveSerialReader.ReceiveLine | python_nodes_coder/templates/esensors/BnGloveSensorReaderSerial.cpp:39-69 | a printed glove line with its end-of-line byte arrives as exactly those nine readings, and the rest of the input stays queued |
| GloveSerialReader.ReceiveText | python_nodes_coder/templates/esensors/BnGloveSensorReaderSerial.cpp:39-69 | a line of digits, spaces and signs followed by CR or LF is gathered by one `checkAllOk`, its terminator consumed, and `getData` then yields the parse of that line and clears it |
| GloveSerialReader.Bytes | python_nodes_coder/templates/esensors/BnGloveSensorReaderSerial.cpp:47 | each character's code modulo 256 |
| NodeCoder.PrependLength | python_nodes_coder/bnpython_nodes_coder_arduino.py:328 | putting each of the values in front of each tail gives one sequence per value and tail, that is the count of values times the count of tails |
| NodeCoder.ProductLength | python_nodes_coder/bnpython_nodes_coder_arduino.py:328 | `itertools.product` yields as many combinations as the product of the list lengths |
| NodeCoder.PrependMembers | python_nodes_coder/bnpython_nodes_coder_arduino.py:328 | a sequence is among the prepended ones iff its head is one of the values and its tail one of the tails |
| NodeCoder.ProductMembers | python_nodes_coder/bnpython_nodes_coder_arduino.py:328 | the product holds exactly the sequences that take one value from each list, in list order |
| NodeCoder.CreateCombo | python_nodes_coder/bnpython_nodes_coder_arduino.py:326-339 | one configuration per combination, in product order, each the skeleton filled by the key paths; none when an assignment raises; as many as the product of the list lengths |
| NodeCoder.BuildConfig | python_nodes_coder/bnpython_nodes_coder_arduino.py:330-336 | one combination's configuration: the skeleton with the key-path assignments made left to right up to the shorter of keys and values |
| NodeCoder.AssignLookup | python_nodes_coder/bnpython_nodes_coder_arduino.py:333-336 | a one-key path sets a top-level key, a two-key path a key of the nested object; every other path keeps its value |
| NodeCoder.FillKeeps | python_nodes_coder/bnpython_nodes_coder_arduino.py:332-336 | paths none of the assignments names keep their value through the zip loop |
| NodeCoder.FillSets | python_nodes_coder/bnpython_nodes_coder_arduino.py:332-336 | with distinct valid paths the zip loop never raises and leaves every path holding its value |
| NodeCoder.ComboSetsKeys | python_nodes_coder/bnpython_nodes_coder_arduino.py:330-336 | a configuration built from distinct valid paths has each path set to its value of the combination |
| NodeCoder.ProductConfigs | python_nodes_coder/bnpython_nodes_coder_arduino.py:326-339 | every combination takes one value per list, builds without raising, and its configuration holds each value at its path |
| NodeCoder.FirstMissing | python_nodes_coder/bnpython_nodes_coder_arduino.py:279-316 | the checks stop at the first missing field: none is missing iff all are there, else the one named is missing and all earlier ones are present |
| NodeCoder.MissingField | python_nodes_coder/bnpython_nodes_coder_arduino.py:279-316 | no field is reported missing iff all twelve are present; a reported one is missing and every field checked before it is present |
| NodeCoder.Decode | python_nodes_coder/bnpython_nodes_coder_arduino.py:279-316 | a configuration whose ten values `main_node` reads are all strings has every required field, so `main` does not stop on it |
| NodeCoder.DecodedHasFields | python_nodes_coder/bnpython_nodes_coder_arduino.py:279-316 | the ten string values being there means no field check fails |
| NodeCoder.InFolder | python_nodes_coder/bnpython_nodes_coder_arduino.py:94-194 | each name taken from one folder, in order |
| NodeCoder.TakenFiles | python_nodes_coder/bnpython_nodes_coder_arduino.py:94-194 | the files taken include every type file, `BnISensor.h`, `BnConstants.h` and both board files |
| NodeCoder.FilesToTake | python_nodes_coder/bnpython_nodes_coder_arduino.py:88-194 | a file list exactly when the type folder exists, the communicator is wifi or ble and the board folder exists; the list is the files taken |
| NodeCoder.CountAppend | python_nodes_coder/bnpython_nodes_coder_arduino.py:80 | counted files of an appended list add up |
| NodeCoder.CountOtherFolder | python_nodes_coder/bnpython_nodes_coder_arduino.py:94-194 | files of a folder other than `templates/isensors/` are neither the internal sensor header nor a driver |
| NodeCoder.OnlyISensorFolderCounts | python_nodes_coder/bnpython_nodes_coder_arduino.py:94-194 | of all the files taken only those from the internal sensor folder count as header or driver |
| NodeCoder.GroupsCount | python_nodes_coder/bnpython_nodes_coder_arduino.py:94-194 | the seven groups of appended files contribute only the internal sensor group to the count |
| NodeCoder.ISensorFolderCounts | python_nodes_coder/bnpython_nodes_coder_arduino.py:107-116 | the internal sensor group is the header and one driver for bno055, arduino_lsm9ds1 or mpu6050, the header alone otherwise |
| NodeCoder.ISensorSelection | python_nodes_coder/bnpython_nodes_coder_arduino.py:107-116 | a project always takes `BnISensor.h` exactly once, plus exactly one driver for a known internal sensor, none for any other |
| NodeCoder.ReplaceAbsent | python_nodes_coder/bnpython_nodes_coder_arduino.py:60 | `str.replace` leaves a text without the tag as it is |
| NodeCoder.ReplaceAt | python_nodes_coder/bnpython_nodes_coder_arduino.py:60 | `str.replace` rewrites the first occurrence of the tag and carries on right after it |
| NodeCoder.Replace | python_nodes_coder/bnpython_nodes_coder_arduino.py:60 | `str.replace` with a replacement as long as the tag keeps the text's length, and replacing the tag by itself changes nothing |
| NodeCoder.AddFieldAfterTag | python_nodes_coder/bnpython_nodes_coder_arduino.py:54-62 | a header with one `// kind //` tag gets `#define field` on the line right after it and is otherwise unchanged |
| NodeCoder.CommunicationDefines | python_nodes_coder/bnpython_nodes_coder_arduino.py:207-211 | at most two definitions, of kind COMMUNICATION: WIFI_COMMUNICATION is among them iff the communicator is wifi, BLE_COMMUNICATION iff it is ble |
| NodeCoder.SensorDefines | python_nodes_coder/bnpython_nodes_coder_arduino.py:213-231 | at most six definitions, of kind SENSORS; each sensor's definition is among them iff its test passes: not "no" for acceleration_rel, orientation_abs and angularvelocity_rel, "serial" for the glove on serial, "onboard" for the glove on board and for the shoe |
| NodeCoder.SelectedMembers | python_nodes_coder/bnpython_nodes_coder_arduino.py:206-236 | a definition is selected iff it is a candidate and its `if` test passes |
| NodeCoder.SelectedAppend | python_nodes_coder/bnpython_nodes_coder_arduino.py:206-236 | the `if`s of two consecutive groups select the definitions of the first group, then those of the second |
| NodeCoder.InHeaderOrder | python_nodes_coder/bnpython_nodes_coder_arduino.py:206-236 | every definition has its `if` in `main_node` |
| NodeCoder.DefinesFor | python_nodes_coder/bnpython_nodes_coder_arduino.py:206-236 | the communication, sensor and haptic definitions concatenated in that order; a definition is among them iff the configuration calls for it |
| NodeCoder.ApplyDefines | python_nodes_coder/bnpython_nodes_coder_arduino.py:206-236 | a header with none of the definitions' tags is left as it is (the layout of a header with tags is stated by NodeCoder.ApplyDefinesLines) |
| NodeCoder.AddField | python_nodes_coder/bnpython_nodes_coder_arduino.py:54-62 | a header without the tag is left as it is |
| NodeCoder.Join | python_nodes_coder/bnpython_nodes_coder_arduino.py:55-61 | a single line is the whole text |
| NodeCoder.JoinAppend | python_nodes_coder/bnpython_nodes_coder_arduino.py:55-61 | two blocks of lines joined are the first block, a line feed, then the second |
| NodeCoder.ReplaceByLine | python_nodes_coder/bnpython_nodes_coder_arduino.py:60 | `str.replace` with a tag and replacement free of line feeds works line by line: no occurrence spans a line break |
| NodeCoder.DefineLine | python_nodes_coder/bnpython_nodes_coder_arduino.py:60 | the inserted `#define field` line starts with `#` and holds no `/` |
| NodeCoder.TagShape | python_nodes_coder/bnpython_nodes_coder_arduino.py:58 | each tag `// kind //` starts with `/` and holds no line feed |
| NodeCoder.DefineLineNoTag | python_nodes_coder/bnpython_nodes_coder_arduino.py:58-60 | an inserted `#define` line neither is nor contains any kind's tag, so later calls never insert after it |
| NodeCoder.DefinesAfterFrom | python_nodes_coder/bnpython_nodes_coder_arduino.py:206-236 | every line placed after a header line is the line of one of the definitions, of the kind that line is the tag of |
| NodeCoder.DefinesAfterMembers | python_nodes_coder/bnpython_nodes_coder_arduino.py:206-236 | every definition among the calls has its line placed after each line that is its kind's tag |
| NodeCoder.DefinesAfterAppend | python_nodes_coder/bnpython_nodes_coder_arduino.py:206-236 | for a later group of calls, its lines come before those of the earlier calls: each call inserts right after the tag |
| NodeCoder.NothingAfterDefine | python_nodes_coder/bnpython_nodes_coder_arduino.py:58-60 | no line is ever placed after an inserted `#define` line |
| NodeCoder.ExpandCompose | python_nodes_coder/bnpython_nodes_coder_arduino.py:206-236 | one call followed by the remaining ones lays the lines out as all the calls together |
| NodeCoder.ExpandKeepsHeaderLines | python_nodes_coder/bnpython_nodes_coder_arduino.py:54-62 | after one call every line is still either a whole tag or holds no tag |
| NodeCoder.AddFieldLines | python_nodes_coder/bnpython_nodes_coder_arduino.py:54-62 | on a header whose tags stand on lines of their own, `add_field_in_file` puts the `#define` line right after every line that is the tag and changes no other line |
| NodeCoder.ApplyDefinesLines | python_nodes_coder/bnpython_nodes_coder_arduino.py:206-236 | the chain of calls on such a header: each definition's line right after every line that is its kind's tag, the latest call first, every other line unchanged |
| NodeCoder.ExpandNone | python_nodes_coder/bnpython_nodes_coder_arduino.py:206-236 | with no calls made the header keeps its lines |
| NodeCoder.BoardHeaderLines | python_nodes_coder/bnpython_nodes_coder_arduino.py:196-236 | the project's `BnNodeSpecific.h` from a header of tag lines is those lines with each wanted definition's line after its kind's tag |
| NodeCoder.MainNode | python_nodes_coder/bnpython_nodes_coder_arduino.py:78-236 | a missing type folder, a communicator other than wifi or ble, or a missing board folder returns before any copy; otherwise every file taken is copied in order, `bodynode.ino` renamed after the project and the board header given its definitions |
| NodeCoder.CopyAll | python_nodes_coder/bnpython_nodes_coder_arduino.py:196-236 | the copy loop leaves the project folder with each file taken under its target name, a later file of the same name overwriting an earlier one |
| NodeCoder.BoardHeaderDefined | python_nodes_coder/bnpython_nodes_coder_arduino.py:188-236 | the board's `BnNodeSpecific.h` always ends up in the project, with the communication, sensor and actuator definitions of the configuration applied in order |
| BodynodesProtocol.AccumulateArray | android/BodynodesSensor/app/src/main/java/eu/bodynodes/sensor/BodynodesProtocol.java:45-53 | two or more plain values accumulated under a new key form an array of them in order, and nothing else changes (same code also at android/BodynodesSensor/app/src/main/java/eu/bodynodes/sensor/BodynodesProtocol.java:69-76) |
| BodynodesProtocol.AppendAll | android/BodynodesSensor/app/src/main/java/eu/bodynodes/sensor/BodynodesProtocol.java:46-53 | values accumulated onto an existing array are appended to it in order |
| BodynodesProtocol.Accumulate | android/BodynodesSensor/app/src/main/java/eu/bodynodes/sensor/BodynodesProtocol.java:45 | `accumulate` adds the key and changes no other; a new key holds the value, a second value makes an array of both, a later one is appended (same code also at android/BodynodesSensor/app/src/main/java/eu/bodynodes/sensor/BodynodesProtocol.java:69-76) |
| BodynodesProtocol.Ints | android/BodynodesSensor/app/src/main/java/eu/bodynodes/sensor/BodynodesProtocol.java:45-53 | each int value becomes a JSON number, in index order |
| BodynodesProtocol.Reals | android/BodynodesSensor/app/src/main/java/eu/bodynodes/sensor/BodynodesProtocol.java:69-76 | each float value becomes a JSON number, in index order |
| BodynodesProtocol.MakeMessageInts | android/BodynodesSensor/app/src/main/java/eu/bodynodes/sensor/BodynodesProtocol.java:37-59 | player, bodypart and sensortype are always set; a glove message also carries exactly the first nine values, as an array in index order; no other key is present |
| BodynodesProtocol.MakeMessageReals | android/BodynodesSensor/app/src/main/java/eu/bodynodes/sensor/BodynodesProtocol.java:61-82 | player, bodypart and sensortype are always set; the value array holds the first four values for orientation_abs, the first three for acceleration_rel, and is absent for any other type |
| BodynodesProtocol.ParseActionWifi | android/BodynodesSensor/app/src/main/java/eu/bodynodes/sensor/BodynodesProtocol.java:84-97 | the haptic code 0 iff the type is "haptic" and both strength and duration_ms are present, -1 otherwise |
| BodynodesProtocol.HapticActionRecognised | android/BodynodesSensor/app/src/main/java/eu/bodynodes/sensor/BodynodesProtocol.java:84-97 | a haptic action with its three fields is recognised; dropping any one of them makes it rejected |

## Left out

- Floating point: `float` and `double` values are `real`. Rounding, NaN, `sqrt` and trigonometry are not modelled.
- The numeric body of the Madgwick steps (`updateIMU`, `updateMAGR`): normalisation, gradient, Euler angles and rotation matrices. The quaternion a step produces is a parameter of the update methods.
- `atof` is not modelled. Text-to-float conversion is a function parameter that yields the float's four bytes.
- Radio, network and OS plumbing is not modelled:
  - WiFi, UDP sockets, multicast groups and the BLE stack;
  - advertising and timers;
  - Android threads, broadcasts and preferences;
  - serial and `DEBUG_PRINT` output.
- These are parameters or fields instead: `millis()`, the received packets, the sender's address, and whether connecting or `begin()` succeeds.
- GPIO: the status LEDs are modelled only as their logical state and last toggle time. Pin modes and the physical pin level are left out. `setStatusSensorHMI_BLINK_FAST` of the WiFi node's `sensor.cpp` has no caller among the sources modelled, so it is left out.
- `getReadQuat` of the WiFi node's `sensor.cpp` only returns the `readQuat` field. The field's value is stated by `CheckReadFromSensor`.
- `setConnectionParams` of the WiFi node communicator is left out. It copies JSON parameters into persistent memory through the board's storage API.
- JSON libraries (ArduinoJson, org.json): objects are maps.
  - A parse failure is a parameter of the WiFi communicator.
  - `JSONException` handling in the Android app is not modelled.
  - The Python generator's `json.JSONDecodeError` path is not modelled.
- Memory bytes the C code never initialises are read as 0: matrix cells of a fresh `BnMatrix`, and converter buffers past the bytes written.
- Fixed-size C strings (`char[20]`, `char[100]`) and `strcpy` into them are Dafny strings; overflowing those buffers is not modelled.
- `BnArduinoUtils.h` of the nodes coder example is not part of this model. The slot addresses of the persistent store are those of `redbear_duo/wifi_node/bn_utils.h`.
- NodeCoder file-system effects are not modelled:
  - `os.path.exists` and `os.path.isdir` are Boolean parameters;
  - `os.path.normpath`, the trailing-separator strip and the prints are left out;
  - `main`'s checks of the project path and the configuration file are left out;
  - the template files are a map from path to contents.
- NodeCoder.AddFieldAfterTag: is proved for a header that holds its tag once. The function it is about, `AddField`, replaces every occurrence, as `str.replace` does.
- NodeCoder.ApplyDefinesLines: states the layout for a header in which every line is either a whole tag or holds no tag, as the board headers are written. A header with a tag inside a longer line is covered only by NodeCoder.ApplyDefines when it holds none of the tags.
- NodeCoder.Decode: states one direction only: decoded values imply every field check passes. It yields None when one of the ten values is an object, and JSON numbers, lists, booleans and null are not values of the model. In Python only an object as `board` or as an invalid `node_communicator` makes `main_node` raise, because those are concatenated into a path or a message. Elsewhere such a value is only compared with string literals, so it matches none of them, and a `!= "no"` test still adds its definition.
- BodynodesProtocol.MakeMessageInts: requires at least nine values for a glove. On a shorter array Java throws `ArrayIndexOutOfBoundsException`, which the method does not catch.
- BodynodesProtocol.MakeMessageReals: requires four values for orientation_abs and three for acceleration_rel. These are the values Java reads; a shorter array throws.
- BleConn.BleConnection.GattWriteCallback: requires a write to the action handle of at most 20 bytes. This is the characteristic's declared length, which the BLE stack enforces.
- BleConn.BleConnection.GattReadCallback: requires a buffer that holds the longest tag. The stack passes a buffer of the characteristic's size.
- BleNode.BleNodeCommunicator.SendAllMessages: on the RedBear Duo, requires the first message's player and bodypart to leave room for the terminator in their 20-byte buffers. A longer text would overflow the `memcpy`. The nRF52840 has no such requirement: its characteristic write keeps the first 20 bytes.
- BleCodecs.ConvertStringArrayToFloatBytes: requires a text length of at least 2, and the same holds for the `uint8_t` converter. The converters index the text below position 2, which C leaves undefined on shorter texts.
- IpCodec.ParseInt: accepts only the ASCII digits '0'..'9'. Java's `Integer.parseInt` reads digits with `Character.digit`, so it also accepts other Unicode decimal digits such as fullwidth ones; on such a field `GetInetAddressFromStr` gives None where Java gives an address. The addresses parsed come from `getHostAddress()`, which is ASCII.
- IpCodec.Atoi: is unbounded and gives the mathematical value of the digits. C's `atoi` is undefined when that value overflows `int`.
- Near-duplicates are not modelled separately:
  - the other `wifi_node_communicator.cpp` copies;
  - the other `SensorService*.java` variants;
  - the other actuator and sensor templates.
- Driver wrappers over the sensor libraries are not modelled.

## Findings

| source | as written | input that shows it | evidently intended | confidence | as-written member | corrected member |
|---|---|---|---|---|---|---|
| python_nodes_coder/templates/sensors/BnOrientationAbsSensorFusion_ArduinoLSM9DS1.cpp:763-768 | `conjugate()` calls the x setter three times, so x ends as -z and y, z are unchanged | (0, 1, 0, 0) becomes (0, 0, 0, 0) instead of (0, -1, 0, 0) | negate x, y and z | not executed | Quaternions.ConjugateAsWrittenEffect | Quaternions.Conjugate |
| python_nodes_coder/templates/sensors/BnOrientationAbsSensorFusion_ArduinoLSM9DS1.cpp:802-827 | the result-parameter `productHamilton` uses other signs for x, y and z than the value overload | (0, 1, 0, 0) times (1, 0, 0, 0) gives (0, -1, 0, 0) | the Hamilton product, with (1, 0, 0, 0) as a unit, as in the value overload | not executed | Quaternions.OverloadsDisagree | Quaternions.ProductHamiltonInto |
| esp-12e/wifi_snode/messages_mgr.cpp:58-68 | `get_index_bodypart` on a table with all 15 slots taken by other names returns 15 and writes slot 15, one past the arrays | a full table and a new bodypart name | report the table as full and leave the arrays untouched | not executed | MessagesTable.FullTableOverflows | MessagesTable.Messages.GetIndexBodypart |
| android/BodynodesSensor/app/src/main/java/eu/bodynodesdev/sensor/services/SensorServiceWifi.java:303-314 | after a '}' before the first '{' the buffer is cut to start at the '{', but the stale `indexOpen` is used for the substring | "}{a}" yields "a}"; "}}}}{a}" throws | extract the first brace-delimited object, "{a}" | not executed | SensorServiceWifi.StaleIndexAsWritten | SensorServiceWifi.SensorServiceWifi.CheckForActions |
