/**
 * The Arduino project generator of the Python nodes coder: the required
 * fields of a `bn_coder_config.json`, the template files a node
 * configuration selects, the `#define` lines it adds to the board header,
 * and the cartesian product that builds every test configuration.
 *
 * A JSON configuration is a map of strings and nested objects. The file
 * system is a map from template paths to contents, and the existence of the
 * `type` and `board` template folders is given as two Booleans.
 */
module NodeCoder {
  import opened Common

  /** The JSON values a configuration holds: strings and objects. */
  datatype Json = Str(s: string) | Obj(fields: map<string, Json>)

  type Config = map<string, Json>

  /*** create_combo ***/

  /** Each value of `vs` in front of each of `tails`, all the combinations of the first value first. */
  function Prepend(vs: seq<string>, tails: seq<seq<string>>): seq<seq<string>>
  {
    if |vs| == 0 then []
    else seq(|tails|, j requires 0 <= j < |tails| => [vs[0]] + tails[j]) + Prepend(vs[1..], tails)
  }

  /** `itertools.product(*lists)`: the rightmost list varies fastest. */
  function Product(lists: seq<seq<string>>): seq<seq<string>>
  {
    if |lists| == 0 then [[]] else Prepend(lists[0], Product(lists[1..]))
  }

  /** The product of the list lengths. */
  function ProductSize(lists: seq<seq<string>>): nat
  {
    if |lists| == 0 then 1 else |lists[0]| * ProductSize(lists[1..])
  }

  /** One value taken from each list, in list order. */
  ghost predicate IsCombo(c: seq<string>, lists: seq<seq<string>>)
  {
    |c| == |lists| && forall i :: 0 <= i < |c| ==> c[i] in lists[i]
  }

  lemma {:induction false} PrependLength(vs: seq<string>, tails: seq<seq<string>>)
    ensures |Prepend(vs, tails)| == |vs| * |tails|
  {
    if |vs| > 0 {
      PrependLength(vs[1..], tails);
      assert |vs| * |tails| == |tails| + (|vs| - 1) * |tails|;
    }
  }

  /** There is one combination per element of the product: its size is the product of the lengths. */
  lemma {:induction false} ProductLength(lists: seq<seq<string>>)
    ensures |Product(lists)| == ProductSize(lists)
  {
    if |lists| > 0 {
      ProductLength(lists[1..]);
      PrependLength(lists[0], Product(lists[1..]));
    }
  }

  lemma {:induction false} PrependMembers(vs: seq<string>, tails: seq<seq<string>>, c: seq<string>)
    ensures c in Prepend(vs, tails) <==> |c| > 0 && c[0] in vs && c[1..] in tails
  {
    if |vs| > 0 {
      var front := seq(|tails|, j requires 0 <= j < |tails| => [vs[0]] + tails[j]);
      assert Prepend(vs, tails) == front + Prepend(vs[1..], tails);
      PrependMembers(vs[1..], tails, c);
      if c in front {
        var j :| 0 <= j < |tails| && front[j] == c;
        assert c[1..] == tails[j];
      }
      if |c| > 0 && c[0] == vs[0] && c[1..] in tails {
        var j :| 0 <= j < |tails| && tails[j] == c[1..];
        assert front[j] == c;
      }
      if |c| > 0 {
        assert c[0] in vs <==> c[0] == vs[0] || c[0] in vs[1..] by {
          assert vs == [vs[0]] + vs[1..];
        }
      }
    }
  }

  /** The product holds exactly the sequences that take one value from each list. */
  lemma {:induction false} ProductMembers(lists: seq<seq<string>>, c: seq<string>)
    ensures c in Product(lists) <==> IsCombo(c, lists)
  {
    if |lists| == 0 {
      assert c in [[]] <==> |c| == 0;
    } else {
      var rest := Product(lists[1..]);
      PrependMembers(lists[0], rest, c);
      if |c| > 0 {
        ProductMembers(lists[1..], c[1..]);
        if IsCombo(c, lists) {
          assert forall i :: 0 <= i < |c| - 1 ==> c[1..][i] == c[i + 1];
        }
        if c[0] in lists[0] && IsCombo(c[1..], lists[1..]) {
          assert forall i :: 1 <= i < |c| ==> c[i] == c[1..][i - 1];
        }
      }
    }
  }

  /** The dictionary each combination starts from. */
  const Skeleton: Config := map["actuators" := Obj(map[]), "esensors" := Obj(map[])]

  /**
   * One `res[...] = value` of `create_combo`: a one-key path sets a
   * top-level entry, a longer one an entry of the object named by its first
   * key. An empty path, a missing object or a string in its place raise in
   * Python, which is `None` here.
   */
  function Assign(res: Config, path: seq<string>, value: string): Option<Config>
  {
    if |path| == 0 then None
    else if |path| == 1 then Some(res[path[0] := Str(value)])
    else if path[0] in res && res[path[0]].Obj? then
      Some(res[path[0] := Obj(res[path[0]].fields[path[1] := Str(value)])])
    else None
  }

  /** The `zip(flat_keys, combo)` loop: assignments left to right, up to the shorter of the two. */
  function Fill(res: Config, keys: seq<seq<string>>, combo: seq<string>): Option<Config>
    decreases |keys|
  {
    if |keys| == 0 || |combo| == 0 then Some(res)
    else match Assign(res, keys[0], combo[0])
      case None => None
      case Some(next) => Fill(next, keys[1..], combo[1..])
  }

  function ComboConfig(keys: seq<seq<string>>, combo: seq<string>): Option<Config>
  {
    Fill(Skeleton, keys, combo)
  }

  /**
   * `create_combo(flat_keys, value_lists)`: one configuration per element of
   * the product, in product order; an assignment that raises ends the call
   * with no result.
   */
  method CreateCombo(flatKeys: seq<seq<string>>, valueLists: seq<seq<string>>) returns (all: Option<seq<Config>>)
    ensures all.Some? <==> forall i :: 0 <= i < |Product(valueLists)| ==> ComboConfig(flatKeys, Product(valueLists)[i]).Some?
    ensures all.Some? ==> (|all.value| == |Product(valueLists)| &&
      forall i :: 0 <= i < |all.value| ==> Some(all.value[i]) == ComboConfig(flatKeys, Product(valueLists)[i]))
    ensures all.Some? ==> |all.value| == ProductSize(valueLists)
  {
    var combos := Product(valueLists);
    ProductLength(valueLists);
    var allConfigs: seq<Config> := [];
    for i := 0 to |combos|
      invariant |allConfigs| == i
      invariant forall j :: 0 <= j < i ==> Some(allConfigs[j]) == ComboConfig(flatKeys, combos[j])
    {
      var res := BuildConfig(flatKeys, combos[i]);
      if res.None? {
        return None;
      }
      allConfigs := allConfigs + [res.value];
    }
    all := Some(allConfigs);
  }

  /** The body of the `create_combo` loop for one combination. */
  method BuildConfig(keys: seq<seq<string>>, combo: seq<string>) returns (res: Option<Config>)
    ensures res == ComboConfig(keys, combo)
  {
    var cur := Skeleton;
    var n := if |keys| < |combo| then |keys| else |combo|;
    for k := 0 to n
      invariant Fill(cur, keys[k..], combo[k..]) == ComboConfig(keys, combo)
    {
      var next := Assign(cur, keys[k], combo[k]);
      assert keys[k..][1..] == keys[k + 1..] && combo[k..][1..] == combo[k + 1..];
      if next.None? {
        return None;
      }
      cur := next.value;
    }
    res := Some(cur);
  }

  /*** Key paths ***/

  /** The string a one- or two-key path leads to, if it leads to one. */
  function Lookup(cfg: Config, path: seq<string>): Option<string>
  {
    if |path| == 1 && path[0] in cfg && cfg[path[0]].Str? then Some(cfg[path[0]].s)
    else if |path| == 2 && path[0] in cfg && cfg[path[0]].Obj? && path[1] in cfg[path[0]].fields &&
      cfg[path[0]].fields[path[1]].Str? then Some(cfg[path[0]].fields[path[1]].s)
    else None
  }

  predicate IsNestedKey(k: string)
  {
    k == "actuators" || k == "esensors"
  }

  /** A key path of the shape `flat_keys` uses: a top-level key, or one of the two nested objects and a key in it. */
  predicate ValidPath(p: seq<string>)
  {
    (|p| == 1 && !IsNestedKey(p[0])) || (|p| == 2 && IsNestedKey(p[0]))
  }

  predicate ValidKeys(keys: seq<seq<string>>)
  {
    forall i :: 0 <= i < |keys| ==> ValidPath(keys[i])
  }

  /** Both nested objects are objects. */
  predicate HasNested(cfg: Config)
  {
    "actuators" in cfg && cfg["actuators"].Obj? && "esensors" in cfg && cfg["esensors"].Obj?
  }

  /** An assignment sets its own path and no other. */
  lemma AssignLookup(res: Config, p: seq<string>, v: string, q: seq<string>)
    requires HasNested(res) && ValidPath(p) && ValidPath(q)
    ensures Assign(res, p, v).Some? && HasNested(Assign(res, p, v).value)
    ensures Lookup(Assign(res, p, v).value, q) == if q == p then Some(v) else Lookup(res, q)
  {
    if |p| == 2 && |q| == 2 && p[0] == q[0] && p != q {
      assert p[1] != q[1];
    }
  }

  /** Paths that none of the assignments names keep their value. */
  lemma {:induction false} FillKeeps(res: Config, keys: seq<seq<string>>, combo: seq<string>, q: seq<string>)
    requires HasNested(res) && ValidKeys(keys) && ValidPath(q)
    requires forall i :: 0 <= i < |keys| && i < |combo| ==> keys[i] != q
    ensures Fill(res, keys, combo).Some? && HasNested(Fill(res, keys, combo).value)
    ensures Lookup(Fill(res, keys, combo).value, q) == Lookup(res, q)
    decreases |keys|
  {
    if |keys| > 0 && |combo| > 0 {
      AssignLookup(res, keys[0], combo[0], q);
      var next := Assign(res, keys[0], combo[0]).value;
      assert ValidKeys(keys[1..]);
      FillKeeps(next, keys[1..], combo[1..], q);
    }
  }

  /** With distinct valid key paths every combination builds, and each path holds its value of the combination. */
  lemma {:induction false} FillSets(res: Config, keys: seq<seq<string>>, combo: seq<string>)
    requires HasNested(res) && ValidKeys(keys)
    requires forall i, j :: 0 <= i < j < |keys| ==> keys[i] != keys[j]
    ensures Fill(res, keys, combo).Some?
    ensures forall i :: 0 <= i < |keys| && i < |combo| ==> Lookup(Fill(res, keys, combo).value, keys[i]) == Some(combo[i])
    decreases |keys|
  {
    if |keys| > 0 && |combo| > 0 {
      var next := Assign(res, keys[0], combo[0]).value;
      AssignLookup(res, keys[0], combo[0], keys[0]);
      assert ValidKeys(keys[1..]);
      FillSets(next, keys[1..], combo[1..]);
      FillKeeps(next, keys[1..], combo[1..], keys[0]);
      var cfg := Fill(res, keys, combo).value;
      forall i | 1 <= i < |keys| && i < |combo|
        ensures Lookup(cfg, keys[i]) == Some(combo[i])
      {
        assert keys[1..][i - 1] == keys[i] && combo[1..][i - 1] == combo[i];
      }
    }
  }

  /** A configuration built from distinct valid paths has every path set to its value. */
  lemma ComboSetsKeys(keys: seq<seq<string>>, combo: seq<string>)
    requires ValidKeys(keys) && |combo| == |keys|
    requires forall i, j :: 0 <= i < j < |keys| ==> keys[i] != keys[j]
    ensures ComboConfig(keys, combo).Some?
    ensures forall i :: 0 <= i < |keys| ==> Lookup(ComboConfig(keys, combo).value, keys[i]) == Some(combo[i])
  {
    FillSets(Skeleton, keys, combo);
  }

  /**
   * With distinct valid key paths, one per value list, every combination of
   * the product builds and holds each of its values at its path.
   */
  lemma ProductConfigs(keys: seq<seq<string>>, lists: seq<seq<string>>)
    requires ValidKeys(keys) && |lists| == |keys|
    requires forall i, j :: 0 <= i < j < |keys| ==> keys[i] != keys[j]
    ensures forall n :: 0 <= n < |Product(lists)| ==> |Product(lists)[n]| == |lists|
    ensures forall n :: 0 <= n < |Product(lists)| ==> ComboConfig(keys, Product(lists)[n]).Some?
    ensures forall n, i :: 0 <= n < |Product(lists)| && 0 <= i < |keys| ==>
      Product(lists)[n][i] in lists[i] && Lookup(ComboConfig(keys, Product(lists)[n]).value, keys[i]) == Some(Product(lists)[n][i])
  {
    forall n | 0 <= n < |Product(lists)|
      ensures |Product(lists)[n]| == |lists|
      ensures ComboConfig(keys, Product(lists)[n]).Some?
      ensures forall i :: 0 <= i < |keys| ==>
        Product(lists)[n][i] in lists[i] && Lookup(ComboConfig(keys, Product(lists)[n]).value, keys[i]) == Some(Product(lists)[n][i])
    {
      ProductMembers(lists, Product(lists)[n]);
      ComboSetsKeys(keys, Product(lists)[n]);
    }
  }

  /*** Required fields of main ***/

  datatype FieldRef = Top(name: string) | Nested(parent: string, name: string)

  /** The fields `main` checks, in the order it checks them. */
  const RequiredFields: seq<FieldRef> := [
    Top("type"), Top("board"), Top("node_communicator"), Top("isensor"),
    Top("actuators"), Nested("actuators", "haptic"),
    Top("esensors"), Nested("esensors", "acceleration_rel"), Nested("esensors", "angularvelocity_rel"),
    Nested("esensors", "orientation_abs"), Nested("esensors", "glove"), Nested("esensors", "shoe")]

  /** Python's `in`: a key of an object, or a substring of a string. */
  predicate HasField(cfg: Config, f: FieldRef)
  {
    match f
    case Top(n) => n in cfg
    case Nested(p, n) =>
      p in cfg && (match cfg[p]
        case Obj(m) => n in m
        case Str(s) => IsSubstring(n, s))
  }

  /** The position of the first field that is missing, checking in order. */
  function FirstMissing(cfg: Config, fields: seq<FieldRef>): (r: Option<nat>)
    ensures r.None? <==> forall i :: 0 <= i < |fields| ==> HasField(cfg, fields[i])
    ensures r.Some? ==> (r.value < |fields| && !HasField(cfg, fields[r.value]) &&
      forall j :: 0 <= j < r.value ==> HasField(cfg, fields[j]))
    decreases |fields|
  {
    if |fields| == 0 then None
    else if !HasField(cfg, fields[0]) then Some(0)
    else match FirstMissing(cfg, fields[1..])
      case None => None
      case Some(k) => Some(k + 1)
  }

  /** The field a `Missing field` message names: none iff every check passes, else the first that fails. */
  function MissingField(cfg: Config): (r: Option<string>)
    ensures r.None? <==> forall i :: 0 <= i < |RequiredFields| ==> HasField(cfg, RequiredFields[i])
    ensures r.Some? ==>
      exists k :: 0 <= k < |RequiredFields| && RequiredFields[k].name == r.value &&
        !HasField(cfg, RequiredFields[k]) && forall j :: 0 <= j < k ==> HasField(cfg, RequiredFields[j])
  {
    match FirstMissing(cfg, RequiredFields)
    case None => None
    case Some(k) => Some(RequiredFields[k].name)
  }

  /*** main_node ***/

  /** The configuration values `main_node` reads, once each is known to be a string. */
  datatype NodeConfig = NodeConfig(
    nodeType: string, board: string, communicator: string, isensor: string, haptic: string,
    accelerationRel: string, angularVelocityRel: string, orientationAbs: string, glove: string, shoe: string)

  /**
   * The values of a configuration, when all ten are strings. A missing value,
   * or a string where `main_node` subscripts an object, makes it raise; so do
   * an object as `board` (concatenated into a path) and as `node_communicator`
   * (concatenated into the error message). An object elsewhere is only
   * compared with literals in Python; the model yields None for it.
   */
  function Decode(cfg: Config): (r: Option<NodeConfig>)
    ensures r.Some? ==> MissingField(cfg).None?
  {
    var t, b, n, i := Lookup(cfg, ["type"]), Lookup(cfg, ["board"]), Lookup(cfg, ["node_communicator"]), Lookup(cfg, ["isensor"]);
    var h := Lookup(cfg, ["actuators", "haptic"]);
    var ac, av := Lookup(cfg, ["esensors", "acceleration_rel"]), Lookup(cfg, ["esensors", "angularvelocity_rel"]);
    var o, g, sh := Lookup(cfg, ["esensors", "orientation_abs"]), Lookup(cfg, ["esensors", "glove"]), Lookup(cfg, ["esensors", "shoe"]);
    if t.Some? && b.Some? && n.Some? && i.Some? && h.Some? && ac.Some? && av.Some? && o.Some? && g.Some? && sh.Some? then
      DecodedHasFields(cfg);
      Some(NodeConfig(t.value, b.value, n.value, i.value, h.value, ac.value, av.value, o.value, g.value, sh.value))
    else None
  }

  lemma DecodedHasFields(cfg: Config)
    requires Lookup(cfg, ["type"]).Some? && Lookup(cfg, ["board"]).Some?
    requires Lookup(cfg, ["node_communicator"]).Some? && Lookup(cfg, ["isensor"]).Some?
    requires Lookup(cfg, ["actuators", "haptic"]).Some? && Lookup(cfg, ["esensors", "acceleration_rel"]).Some?
    requires Lookup(cfg, ["esensors", "angularvelocity_rel"]).Some? && Lookup(cfg, ["esensors", "orientation_abs"]).Some?
    requires Lookup(cfg, ["esensors", "glove"]).Some? && Lookup(cfg, ["esensors", "shoe"]).Some?
    ensures MissingField(cfg).None?
  {
    assert forall i :: 0 <= i < |RequiredFields| ==> HasField(cfg, RequiredFields[i]);
  }

  /** The template folders files are taken from. */
  datatype Folder = TypeFolder(nodeType: string) | ActuatorsFolder | ISensorsFolder | ESensorsFolder |
    CommonFolder | CommunicatorsFolder | BoardFolder(board: string)

  /** A template file: its folder and its name there. */
  datatype TemplateFile = TemplateFile(folder: Folder, name: string)

  function FolderPath(d: Folder): string
  {
    match d
    case TypeFolder(t) => "templates/" + t + "/"
    case ActuatorsFolder => "templates/actuators/"
    case ISensorsFolder => "templates/isensors/"
    case ESensorsFolder => "templates/esensors/"
    case CommonFolder => "../body-nodes-common/cpp/src/"
    case CommunicatorsFolder => "templates/node_communicators/"
    case BoardFolder(b) => "templates/board/" + b + "/"
  }

  function PathOf(f: TemplateFile): string
  {
    FolderPath(f.folder) + f.name
  }

  function InFolder(d: Folder, names: seq<string>): (files: seq<TemplateFile>)
    ensures |files| == |names| && forall i :: 0 <= i < |names| ==> files[i] == TemplateFile(d, names[i])
    ensures forall n :: n in names ==> TemplateFile(d, n) in files
  {
    var files := seq(|names|, i requires 0 <= i < |names| => TemplateFile(d, names[i]));
    assert forall i :: 0 <= i < |names| ==> files[i] == TemplateFile(d, names[i]);
    files
  }

  const TypeNames: seq<string> := ["BnDatatypes.cpp", "BnDatatypes.h", "BnArduinoUtils.cpp", "BnArduinoUtils.h", "bodynode.ino"]

  function ActuatorNames(haptic: string): seq<string>
  {
    if haptic == "yes" then ["BnHapticActuator.cpp", "BnHapticActuator.h"] else []
  }

  /** The driver of a known internal sensor. */
  function DriverNames(isensor: string): seq<string>
  {
    if isensor == "bno055" then ["BnISensorBNO055.cpp"]
    else if isensor == "arduino_lsm9ds1" then ["BnISensorArduinoLSM9DS1.cpp"]
    else if isensor == "mpu6050" then ["BnISensorMPU6050.cpp"]
    else []
  }

  function ESensorNames(c: NodeConfig): seq<string>
  {
    (if c.orientationAbs == "onboard" then ["BnOrientationAbsSensor.h", "BnOrientationAbsSensorOnBoard.cpp"]
     else if c.orientationAbs == "fusion" then ["BnOrientationAbsSensor.h", "BnOrientationAbsSensorFusion.cpp"]
     else []) +
    (if c.accelerationRel == "yes" then ["BnAccelerationRelSensor.h", "BnAccelerationRelSensor.cpp"] else []) +
    (if c.angularVelocityRel == "yes" then ["BnAngularVelocityRelSensor.h", "BnAngularVelocityRelSensor.cpp"] else []) +
    (if c.glove == "serial" then ["BnGloveSensorReaderSerial.cpp", "BnGloveSensorReaderSerial.h"] else []) +
    (if c.glove == "onboard" then ["BnGloveSensor.cpp", "BnGloveSensor.h"] else []) +
    (if c.shoe == "onboard" then ["BnShoeSensor.cpp", "BnShoeSensor.h"] else [])
  }

  function CommunicatorNames(communicator: string): seq<string>
  {
    if communicator == "wifi" then ["BnWifiNodeCommunicator.cpp", "BnWifiNodeCommunicator.h"]
    else ["BnBLENodeCommunicator.cpp", "BnBLENodeCommunicator.h"]
  }

  const BoardNames: seq<string> := ["BnNodeSpecific.cpp", "BnNodeSpecific.h"]

  /**
   * The `files_to_take` list of `main_node`, or `None` when it returns early:
   * a missing type folder, a node communicator other than wifi or ble, or a
   * missing board folder.
   */
  function FilesToTake(c: NodeConfig, typeExists: bool, boardExists: bool): (r: Option<seq<TemplateFile>>)
    ensures r.Some? <==> typeExists && (c.communicator == "wifi" || c.communicator == "ble") && boardExists
    ensures r.Some? ==> r.value == TakenFiles(c)
  {
    if !typeExists then None
    else if c.communicator != "wifi" && c.communicator != "ble" then None
    else if !boardExists then None
    else Some(TakenFiles(c))
  }

  /** The files a valid node configuration takes, in the order `main_node` appends them. */
  function TakenFiles(c: NodeConfig): (files: seq<TemplateFile>)
    ensures forall n :: n in TypeNames ==> TemplateFile(TypeFolder(c.nodeType), n) in files
    ensures TemplateFile(ISensorsFolder, "BnISensor.h") in files
    ensures TemplateFile(CommonFolder, "BnConstants.h") in files
    ensures forall n :: n in BoardNames ==> TemplateFile(BoardFolder(c.board), n) in files
  {
    InFolder(TypeFolder(c.nodeType), TypeNames) +
    InFolder(ActuatorsFolder, ActuatorNames(c.haptic)) +
    InFolder(ISensorsFolder, ["BnISensor.h"] + DriverNames(c.isensor)) +
    InFolder(ESensorsFolder, ESensorNames(c)) +
    InFolder(CommonFolder, ["BnConstants.h"]) +
    InFolder(CommunicatorsFolder, CommunicatorNames(c.communicator)) +
    InFolder(BoardFolder(c.board), BoardNames)
  }

  predicate IsISensorHeader(f: TemplateFile)
  {
    f == TemplateFile(ISensorsFolder, "BnISensor.h")
  }

  predicate IsISensorDriver(f: TemplateFile)
  {
    f.folder == ISensorsFolder && f.name != "BnISensor.h"
  }

  function CountOf(files: seq<TemplateFile>, header: bool): nat
  {
    if |files| == 0 then 0
    else
      var here := if header then IsISensorHeader(files[0]) else IsISensorDriver(files[0]);
      (if here then 1 else 0) + CountOf(files[1..], header)
  }

  lemma {:induction false} CountAppend(a: seq<TemplateFile>, b: seq<TemplateFile>, header: bool)
    ensures CountOf(a + b, header) == CountOf(a, header) + CountOf(b, header)
  {
    if |a| == 0 {
      assert a + b == b;
    } else {
      assert (a + b)[1..] == a[1..] + b;
      CountAppend(a[1..], b, header);
    }
  }

  /** Files of a folder other than the internal sensors' count for neither. */
  lemma {:induction false} CountOtherFolder(d: Folder, names: seq<string>, header: bool)
    requires d != ISensorsFolder
    ensures CountOf(InFolder(d, names), header) == 0
  {
    if |names| > 0 {
      assert InFolder(d, names)[1..] == InFolder(d, names[1..]);
      CountOtherFolder(d, names[1..], header);
    }
  }

  predicate KnownISensor(isensor: string)
  {
    isensor == "bno055" || isensor == "arduino_lsm9ds1" || isensor == "mpu6050"
  }

  /** Of all the files taken, only those of the internal sensor folder count. */
  lemma OnlyISensorFolderCounts(c: NodeConfig, header: bool)
    ensures CountOf(TakenFiles(c), header) ==
      CountOf(InFolder(ISensorsFolder, ["BnISensor.h"] + DriverNames(c.isensor)), header)
  {
    GroupsCount(TypeFolder(c.nodeType), TypeNames, ActuatorNames(c.haptic), ["BnISensor.h"] + DriverNames(c.isensor),
      ESensorNames(c), ["BnConstants.h"], CommunicatorNames(c.communicator), BoardFolder(c.board), BoardNames, header);
  }

  lemma GroupsCount(typeFolder: Folder, t: seq<string>, a: seq<string>, i: seq<string>, e: seq<string>,
      k: seq<string>, m: seq<string>, boardFolder: Folder, b: seq<string>, header: bool)
    requires typeFolder != ISensorsFolder && boardFolder != ISensorsFolder
    ensures CountOf(InFolder(typeFolder, t) + InFolder(ActuatorsFolder, a) + InFolder(ISensorsFolder, i) +
      InFolder(ESensorsFolder, e) + InFolder(CommonFolder, k) + InFolder(CommunicatorsFolder, m) +
      InFolder(boardFolder, b), header) == CountOf(InFolder(ISensorsFolder, i), header)
  {
    var ft, fa, fi, fe := InFolder(typeFolder, t), InFolder(ActuatorsFolder, a), InFolder(ISensorsFolder, i), InFolder(ESensorsFolder, e);
    var fk, fm, fb := InFolder(CommonFolder, k), InFolder(CommunicatorsFolder, m), InFolder(boardFolder, b);
    CountAppend(ft + fa + fi + fe + fk + fm, fb, header);
    CountAppend(ft + fa + fi + fe + fk, fm, header);
    CountAppend(ft + fa + fi + fe, fk, header);
    CountAppend(ft + fa + fi, fe, header);
    CountAppend(ft + fa, fi, header);
    CountAppend(ft, fa, header);
    CountOtherFolder(typeFolder, t, header);
    CountOtherFolder(ActuatorsFolder, a, header);
    CountOtherFolder(ESensorsFolder, e, header);
    CountOtherFolder(CommonFolder, k, header);
    CountOtherFolder(CommunicatorsFolder, m, header);
    CountOtherFolder(boardFolder, b, header);
  }

  /** The internal sensor folder contributes its header and at most one driver. */
  lemma ISensorFolderCounts(isensor: string)
    ensures CountOf(InFolder(ISensorsFolder, ["BnISensor.h"] + DriverNames(isensor)), true) == 1
    ensures CountOf(InFolder(ISensorsFolder, ["BnISensor.h"] + DriverNames(isensor)), false) == if KnownISensor(isensor) then 1 else 0
  {
    var drivers := DriverNames(isensor);
    var i := InFolder(ISensorsFolder, ["BnISensor.h"] + drivers);
    assert i[1..] == InFolder(ISensorsFolder, drivers) && IsISensorHeader(i[0]);
    assert !IsISensorDriver(i[0]);
    forall header: bool
      ensures CountOf(i, header) == (if header then 1 else 0) + CountOf(i[1..], header)
    {
    }
    if |drivers| == 1 {
      var d := TemplateFile(ISensorsFolder, drivers[0]);
      assert |drivers[0]| != |"BnISensor.h"|;
      assert i[1..] == [d] && IsISensorDriver(d) && !IsISensorHeader(d);
      assert i[1..][1..] == [];
      forall header: bool
        ensures CountOf(i[1..], header) == if header then 0 else 1
      {
      }
    } else {
      assert i[1..] == [];
    }
  }

  /**
   * A project always takes the internal sensor header once, and exactly one
   * driver when the configured internal sensor is a known one, none otherwise.
   */
  lemma ISensorSelection(c: NodeConfig, typeExists: bool, boardExists: bool)
    requires FilesToTake(c, typeExists, boardExists).Some?
    ensures CountOf(FilesToTake(c, typeExists, boardExists).value, true) == 1
    ensures CountOf(FilesToTake(c, typeExists, boardExists).value, false) == if KnownISensor(c.isensor) then 1 else 0
  {
    OnlyISensorFolderCounts(c, true);
    OnlyISensorFolderCounts(c, false);
    ISensorFolderCounts(c.isensor);
  }

  /*** add_field_in_file ***/

  /**
   * Python's `str.replace(tag, repl)`: every occurrence of `tag`, found left
   * to right and not overlapping, is replaced. The tags here are never empty.
   */
  function Replace(s: string, tag: string, repl: string): (r: string)
    requires |tag| > 0
    ensures |repl| == |tag| ==> |r| == |s|
    ensures repl == tag ==> r == s
    decreases |s|
  {
    if |s| < |tag| then s
    else if s[..|tag|] == tag then
      assert s == s[..|tag|] + s[|tag|..];
      repl + Replace(s[|tag|..], tag, repl)
    else
      assert s == [s[0]] + s[1..];
      [s[0]] + Replace(s[1..], tag, repl)
  }

  /** A text without the tag is left as it is. */
  lemma {:induction false} ReplaceAbsent(s: string, tag: string, repl: string)
    requires |tag| > 0
    ensures !Contains(s, tag) ==> Replace(s, tag, repl) == s
    decreases |s|
  {
    if |s| >= |tag| && !Contains(s, tag) {
      ContainsStep(s, tag);
      ReplaceAbsent(s[1..], tag, repl);
      assert s == [s[0]] + s[1..];
    }
  }

  /** The first occurrence of the tag is replaced, and the search goes on right after it. */
  lemma {:induction false} ReplaceAt(a: string, tag: string, b: string, repl: string)
    requires |tag| > 0
    requires forall j :: 0 <= j < |a| ==> !OccursAt(a + tag + b, tag, j)
    ensures Replace(a + tag + b, tag, repl) == a + repl + Replace(b, tag, repl)
    decreases |a|
  {
    var s := a + tag + b;
    if |a| == 0 {
      assert s[..|tag|] == tag && s[|tag|..] == b;
    } else {
      assert !OccursAt(s, tag, 0);
      assert s[1..] == a[1..] + tag + b;
      forall j | 0 <= j < |a[1..]|
        ensures !OccursAt(a[1..] + tag + b, tag, j)
      {
        assert !OccursAt(s, tag, j + 1);
        assert s[j + 1..j + 1 + |tag|] == s[1..][j..j + |tag|];
      }
      ReplaceAt(a[1..], tag, b, repl);
      assert a + repl + Replace(b, tag, repl) == [a[0]] + (a[1..] + repl + Replace(b, tag, repl));
    }
  }

  /** The marker comment of one kind of definition, as in `// SENSORS //`. */
  function Tag(kind: string): string
  {
    "// " + kind + " //"
  }

  /** `add_field_in_file(path, kind, field)` on the file's text: a header without the tag is left as it is. */
  function AddField(content: string, kind: string, field: string): (r: string)
    ensures !Contains(content, Tag(kind)) ==> r == content
  {
    var repl := Tag(kind) + "\n" + "#define " + field;
    ReplaceAbsent(content, Tag(kind), repl);
    Replace(content, Tag(kind), repl)
  }

  /**
   * A header with its tag in one place gets the definition on the line right
   * after it, and is otherwise unchanged.
   */
  lemma AddFieldAfterTag(before: string, kind: string, after: string, field: string)
    requires forall j :: 0 <= j < |before + Tag(kind) + after| && j != |before| ==> !OccursAt(before + Tag(kind) + after, Tag(kind), j)
    ensures AddField(before + Tag(kind) + after, kind, field) == before + Tag(kind) + "\n" + "#define " + field + after
  {
    var tag := Tag(kind);
    var s := before + tag + after;
    var repl := tag + "\n" + "#define " + field;
    assert !Contains(after, tag) by {
      if Contains(after, tag) {
        var j :| OccursAt(after, tag, j);
        assert s[|before| + |tag| + j..|before| + |tag| + j + |tag|] == after[j..j + |tag|];
        assert OccursAt(s, tag, |before| + |tag| + j);
      }
    }
    ReplaceAt(before, tag, after, repl);
    ReplaceAbsent(after, tag, repl);
    assert before + repl + after == before + tag + "\n" + "#define " + field + after;
  }

  /** The names `main_node` can define in the board header, each `add_field_in_file` call's field. */
  datatype Define =
    | WifiCommunication | BleCommunication
    | AccelerationRelSensor | OrientationAbsSensor | AngularVelocityRelSensor
    | GloveSensorOnSerial | GloveSensorOnBoard | ShoeSensorOnBoard
    | HapticActuatorOnBoard
  {
    /** The kind of tag the name is written after. */
    function Kind(): string
    {
      match this
      case WifiCommunication | BleCommunication => "COMMUNICATION"
      case HapticActuatorOnBoard => "ACTUATORS"
      case _ => "SENSORS"
    }

    /** The name as written in the header. */
    function Field(): string
    {
      match this
      case WifiCommunication => "WIFI_COMMUNICATION"
      case BleCommunication => "BLE_COMMUNICATION"
      case AccelerationRelSensor => "ACCELERATION_REL_SENSOR"
      case OrientationAbsSensor => "ORIENTATION_ABS_SENSOR"
      case AngularVelocityRelSensor => "ANGULARVELOCITY_REL_SENSOR"
      case GloveSensorOnSerial => "GLOVE_SENSOR_ON_SERIAL"
      case GloveSensorOnBoard => "GLOVE_SENSOR_ON_BOARD"
      case ShoeSensorOnBoard => "SHOE_SENSOR_ON_BOARD"
      case HapticActuatorOnBoard => "HAPTIC_ACTUATOR_ON_BOARD"
    }
  }

  /** The test `main_node` makes before it adds each name. */
  predicate Wanted(c: NodeConfig, d: Define)
  {
    match d
    case WifiCommunication => c.communicator == "wifi"
    case BleCommunication => c.communicator == "ble"
    case AccelerationRelSensor => c.accelerationRel != "no"
    case OrientationAbsSensor => c.orientationAbs != "no"
    case AngularVelocityRelSensor => c.angularVelocityRel != "no"
    case GloveSensorOnSerial => c.glove == "serial"
    case GloveSensorOnBoard => c.glove == "onboard"
    case ShoeSensorOnBoard => c.shoe == "onboard"
    case HapticActuatorOnBoard => c.haptic == "yes"
  }

  /** The order of the `if`s in `main_node`: communication, sensors, then the haptic actuator. */
  const CommunicationOrder: seq<Define> := [WifiCommunication, BleCommunication]
  const SensorOrder: seq<Define> :=
    [AccelerationRelSensor, OrientationAbsSensor, AngularVelocityRelSensor,
     GloveSensorOnSerial, GloveSensorOnBoard, ShoeSensorOnBoard]
  const HeaderOrder: seq<Define> := CommunicationOrder + SensorOrder + [HapticActuatorOnBoard]

  /** Every name has its `if` in `main_node`. */
  lemma InHeaderOrder(d: Define)
    ensures d in HeaderOrder
  {
    match d
    case WifiCommunication => assert HeaderOrder[0] == d;
    case BleCommunication => assert HeaderOrder[1] == d;
    case AccelerationRelSensor => assert HeaderOrder[2] == d;
    case OrientationAbsSensor => assert HeaderOrder[3] == d;
    case AngularVelocityRelSensor => assert HeaderOrder[4] == d;
    case GloveSensorOnSerial => assert HeaderOrder[5] == d;
    case GloveSensorOnBoard => assert HeaderOrder[6] == d;
    case ShoeSensorOnBoard => assert HeaderOrder[7] == d;
    case HapticActuatorOnBoard => assert HeaderOrder[8] == d;
  }

  /** The names of `ds`, in order, whose test the configuration passes. */
  function Selected(c: NodeConfig, ds: seq<Define>): (defines: seq<Define>)
    ensures |defines| <= |ds|
  {
    if |ds| == 0 then [] else (if Wanted(c, ds[0]) then [ds[0]] else []) + Selected(c, ds[1..])
  }

  /** A name is selected exactly when it is among the candidates and passes its test. */
  lemma {:induction false} SelectedMembers(c: NodeConfig, ds: seq<Define>)
    ensures forall d :: d in Selected(c, ds) <==> d in ds && Wanted(c, d)
  {
    if |ds| > 0 {
      SelectedMembers(c, ds[1..]);
      assert ds == [ds[0]] + ds[1..];
    }
  }

  /** Selecting from two lists of candidates one after the other. */
  lemma {:induction false} SelectedAppend(c: NodeConfig, a: seq<Define>, b: seq<Define>)
    ensures Selected(c, a + b) == Selected(c, a) + Selected(c, b)
  {
    if |a| > 0 {
      assert (a + b)[1..] == a[1..] + b;
      SelectedAppend(c, a[1..], b);
    } else {
      assert a + b == b;
    }
  }

  /** The communication definitions: exactly those the configuration calls for, all of kind COMMUNICATION. */
  function CommunicationDefines(c: NodeConfig): (defines: seq<Define>)
    ensures |defines| <= 2 && forall d :: d in defines ==> d.Kind() == "COMMUNICATION"
    ensures WifiCommunication in defines <==> c.communicator == "wifi"
    ensures BleCommunication in defines <==> c.communicator == "ble"
  {
    SelectedMembers(c, CommunicationOrder);
    Selected(c, CommunicationOrder)
  }

  /** The sensor definitions: exactly those the configuration calls for, all of kind SENSORS. */
  function SensorDefines(c: NodeConfig): (defines: seq<Define>)
    ensures |defines| <= 6 && forall d :: d in defines ==> d.Kind() == "SENSORS"
    ensures AccelerationRelSensor in defines <==> c.accelerationRel != "no"
    ensures OrientationAbsSensor in defines <==> c.orientationAbs != "no"
    ensures AngularVelocityRelSensor in defines <==> c.angularVelocityRel != "no"
    ensures GloveSensorOnSerial in defines <==> c.glove == "serial"
    ensures GloveSensorOnBoard in defines <==> c.glove == "onboard"
    ensures ShoeSensorOnBoard in defines <==> c.shoe == "onboard"
  {
    SelectedMembers(c, SensorOrder);
    Selected(c, SensorOrder)
  }

  /**
   * The definitions `main_node` adds to the board header, in the order it
   * adds them: the communication ones, the sensor ones, then the haptic
   * actuator's; exactly those the configuration calls for.
   */
  function DefinesFor(c: NodeConfig): (defines: seq<Define>)
    ensures |defines| <= 9
    ensures defines == CommunicationDefines(c) + SensorDefines(c) + (if c.haptic == "yes" then [HapticActuatorOnBoard] else [])
    ensures forall d :: d in defines <==> Wanted(c, d)
  {
    SelectedMembers(c, HeaderOrder);
    SelectedAppend(c, CommunicationOrder + SensorOrder, [HapticActuatorOnBoard]);
    SelectedAppend(c, CommunicationOrder, SensorOrder);
    assert Selected(c, [HapticActuatorOnBoard]) == (if c.haptic == "yes" then [HapticActuatorOnBoard] else []) by {
      assert [HapticActuatorOnBoard][1..] == [];
    }
    assert forall d: Define :: d in HeaderOrder by {
      forall d: Define ensures d in HeaderOrder {
        InHeaderOrder(d);
      }
    }
    Selected(c, HeaderOrder)
  }

  /** The calls one after the other, each on the text the previous one wrote; a header with none of the tags is left as it is. */
  function ApplyDefines(content: string, defines: seq<Define>): (r: string)
    ensures (forall i :: 0 <= i < |defines| ==> !Contains(content, Tag(defines[i].Kind()))) ==> r == content
    decreases |defines|
  {
    if |defines| == 0 then content
    else
      assert forall i :: 1 <= i < |defines| ==> defines[1..][i - 1] == defines[i];
      ApplyDefines(AddField(content, defines[0].Kind(), defines[0].Field()), defines[1..])
  }

  /*** The board header as lines ***/

  /** Lines joined with line feeds, as a header file holds them. */
  function Join(lines: seq<string>): (s: string)
    ensures |lines| == 1 ==> s == lines[0]
  {
    if |lines| == 0 then "" else if |lines| == 1 then lines[0] else lines[0] + "\n" + Join(lines[1..])
  }

  lemma {:induction false} JoinAppend(a: seq<string>, b: seq<string>)
    requires |a| > 0 && |b| > 0
    ensures Join(a + b) == Join(a) + "\n" + Join(b)
    decreases |a|
  {
    if |a| == 1 {
      assert (a + b)[1..] == b;
    } else {
      assert (a + b)[1..] == a[1..] + b;
      JoinAppend(a[1..], b);
    }
  }

  /** A tag at the start of `a`, before the line feed, lies wholly in `a`. */
  lemma TagBeforeNewline(a: string, b: string, tag: string)
    requires |tag| > 0 && '\n' !in tag
    requires |a + "\n" + b| >= |tag| && (a + "\n" + b)[..|tag|] == tag
    ensures |tag| <= |a| && a[..|tag|] == tag
  {
    var s := a + "\n" + b;
    assert s[|a|] == '\n';
    assert forall j :: 0 <= j < |tag| ==> tag[j] == s[j];
    assert |tag| <= |a|;
    assert a[..|tag|] == s[..|tag|];
  }

  /** `str.replace` works line by line when the tag holds no line feed. */
  lemma {:induction false} ReplaceByLine(a: string, b: string, tag: string, repl: string)
    requires |tag| > 0 && '\n' !in tag
    ensures Replace(a + "\n" + b, tag, repl) == Replace(a, tag, repl) + "\n" + Replace(b, tag, repl)
    decreases |a|
  {
    var s := a + "\n" + b;
    if |a| == 0 {
      assert s == "\n" + b && s[1..] == b;
      assert Replace(s, tag, repl) == "\n" + Replace(b, tag, repl) by {
        if |s| >= |tag| {
          assert s[..|tag|][0] == '\n';
        }
        ReplaceSkip(s, tag, repl);
      }
    } else if |s| >= |tag| && s[..|tag|] == tag {
      TagBeforeNewline(a, b, tag);
      SliceLines(a, b, |tag|);
      ReplaceSkipTag(s, tag, repl);
      ReplaceSkipTag(a, tag, repl);
      ReplaceByLine(a[|tag|..], b, tag, repl);
    } else {
      SliceLines(a, b, 1);
      ReplaceSkip(s, tag, repl);
      assert Replace(a, tag, repl) == [a[0]] + Replace(a[1..], tag, repl) by {
        if |a| >= |tag| {
          assert a[..|tag|] == s[..|tag|];
        }
        ReplaceSkip(a, tag, repl);
      }
      ReplaceByLine(a[1..], b, tag, repl);
    }
  }

  /** Dropping the first `k` characters of a line joined to the next. */
  lemma SliceLines(a: string, b: string, k: nat)
    requires k <= |a|
    ensures (a + "\n" + b)[k..] == a[k..] + "\n" + b
  {
  }

  /** `str.replace` on a text that starts with the tag. */
  lemma ReplaceSkipTag(s: string, tag: string, repl: string)
    requires |tag| > 0 && |s| >= |tag| && s[..|tag|] == tag
    ensures Replace(s, tag, repl) == repl + Replace(s[|tag|..], tag, repl)
  {
  }

  /** `str.replace` on a non-empty text that does not start with the tag. */
  lemma ReplaceSkip(s: string, tag: string, repl: string)
    requires |tag| > 0 && |s| > 0 && !(|s| >= |tag| && s[..|tag|] == tag)
    ensures Replace(s, tag, repl) == [s[0]] + Replace(s[1..], tag, repl)
  {
  }

  /** The text `#define` puts into the header for a name. */
  function DefineLine(d: Define): (line: string)
    ensures |line| > 0 && line[0] == '#' && '/' !in line
  {
    FieldWithoutSlash(d);
    "#define " + d.Field()
  }

  /** No name holds a '/'. */
  lemma FieldWithoutSlash(d: Define)
    ensures '/' !in d.Field()
  {
    match d
    case WifiCommunication | BleCommunication | HapticActuatorOnBoard => BoardFieldsWithoutSlash(d);
    case AccelerationRelSensor | OrientationAbsSensor | AngularVelocityRelSensor => MotionFieldsWithoutSlash(d);
    case _ => WearableFieldsWithoutSlash(d);
  }

  lemma BoardFieldsWithoutSlash(d: Define)
    requires d == WifiCommunication || d == BleCommunication || d == HapticActuatorOnBoard
    ensures '/' !in d.Field()
  {
  }

  lemma MotionFieldsWithoutSlash(d: Define)
    requires d == AccelerationRelSensor || d == OrientationAbsSensor || d == AngularVelocityRelSensor
    ensures '/' !in d.Field()
  {
  }

  lemma WearableFieldsWithoutSlash(d: Define)
    requires d == GloveSensorOnSerial || d == GloveSensorOnBoard || d == ShoeSensorOnBoard
    ensures '/' !in d.Field()
  {
  }

  /** No tag holds a line feed, and every tag starts with '/'. */
  lemma TagShape(d: Define)
    ensures |Tag(d.Kind())| > 0 && Tag(d.Kind())[0] == '/' && '\n' !in Tag(d.Kind())
  {
  }

  /** A define line holds no tag and is no tag line. */
  lemma DefineLineNoTag(d: Define, e: Define)
    ensures DefineLine(d) != Tag(e.Kind()) && !Contains(DefineLine(d), Tag(e.Kind()))
  {
    var s, tag := DefineLine(d), Tag(e.Kind());
    TagShape(e);
    assert s[0] != tag[0];
    forall i ensures !OccursAt(s, tag, i) {
      if 0 <= i && i + |tag| <= |s| {
        assert s[i..i + |tag|][0] == s[i];
      }
    }
  }

  /**
   * A header line is either one of the tags or holds none of them, as in the
   * board templates, where each tag has a line of its own.
   */
  ghost predicate HeaderLine(line: string)
  {
    forall d: Define :: line == Tag(d.Kind()) || !Contains(line, Tag(d.Kind()))
  }

  ghost predicate HeaderLines(lines: seq<string>)
  {
    forall i :: 0 <= i < |lines| ==> HeaderLine(lines[i])
  }

  /**
   * The lines the definitions `ds` put right after a header line: those of
   * the kind the line is the tag of, the latest first, since each call
   * inserts its line directly after the tag.
   */
  function DefinesAfter(line: string, ds: seq<Define>): (r: seq<string>)
    ensures |r| <= |ds|
    decreases |ds|
  {
    if |ds| == 0 then []
    else DefinesAfter(line, ds[1..]) + (if line == Tag(ds[0].Kind()) then [DefineLine(ds[0])] else [])
  }

  /** Only the definitions of the line's kind among `ds` follow it. */
  lemma {:induction false} DefinesAfterFrom(line: string, ds: seq<Define>)
    ensures forall x :: x in DefinesAfter(line, ds) ==>
      exists d :: d in ds && x == DefineLine(d) && line == Tag(d.Kind())
    decreases |ds|
  {
    if |ds| > 0 {
      var rest := DefinesAfter(line, ds[1..]);
      var own := if line == Tag(ds[0].Kind()) then [DefineLine(ds[0])] else [];
      DefinesAfterFrom(line, ds[1..]);
      assert DefinesAfter(line, ds) == rest + own;
      forall x | x in DefinesAfter(line, ds)
        ensures exists d :: d in ds && x == DefineLine(d) && line == Tag(d.Kind())
      {
        if x in rest {
          var d :| d in ds[1..] && x == DefineLine(d) && line == Tag(d.Kind());
          assert d in ds;
        } else {
          assert x in own;
          assert ds[0] in ds;
        }
      }
    }
  }

  /** Applying one list of definitions after another: the later list's lines come first. */
  lemma {:induction false} DefinesAfterAppend(line: string, a: seq<Define>, b: seq<Define>)
    ensures DefinesAfter(line, a + b) == DefinesAfter(line, b) + DefinesAfter(line, a)
    decreases |a|
  {
    if |a| == 0 {
      assert a + b == b;
    } else {
      assert (a + b)[1..] == a[1..] + b;
      DefinesAfterAppend(line, a[1..], b);
    }
  }

  /** A definition's line follows a tag line exactly when it is among the definitions and of that tag's kind. */
  lemma {:induction false} DefinesAfterMembers(line: string, ds: seq<Define>, d: Define)
    ensures d in ds && line == Tag(d.Kind()) ==> DefineLine(d) in DefinesAfter(line, ds)
    decreases |ds|
  {
    if |ds| > 0 && d in ds && line == Tag(d.Kind()) {
      if d != ds[0] {
        assert d in ds[1..];
        DefinesAfterMembers(line, ds[1..], d);
      }
    }
  }

  /** A define line is followed by nothing: it is no tag. */
  lemma {:induction false} NothingAfterDefine(d: Define, ds: seq<Define>)
    ensures DefinesAfter(DefineLine(d), ds) == []
    decreases |ds|
  {
    if |ds| > 0 {
      DefineLineNoTag(d, ds[0]);
      NothingAfterDefine(d, ds[1..]);
    }
  }

  /** The header's lines once the definitions are in: every line followed by `DefinesAfter` it. */
  function Expand(lines: seq<string>, ds: seq<Define>): (r: seq<string>)
    ensures |r| >= |lines|
  {
    if |lines| == 0 then [] else [lines[0]] + DefinesAfter(lines[0], ds) + Expand(lines[1..], ds)
  }

  lemma {:induction false} ExpandAppend(a: seq<string>, b: seq<string>, ds: seq<Define>)
    ensures Expand(a + b, ds) == Expand(a, ds) + Expand(b, ds)
    decreases |a|
  {
    if |a| == 0 {
      assert a + b == b;
    } else {
      assert (a + b)[1..] == a[1..] + b;
      ExpandAppend(a[1..], b, ds);
    }
  }

  lemma ExpandOne(line: string, ds: seq<Define>)
    ensures Expand([line], ds) == [line] + DefinesAfter(line, ds)
  {
    assert [line][1..] == [];
  }

  /** Expanding three consecutive blocks of lines. */
  lemma ExpandThree(a: seq<string>, b: seq<string>, c: seq<string>, ds: seq<Define>)
    ensures Expand(a + b + c, ds) == Expand(a, ds) + Expand(b, ds) + Expand(c, ds)
  {
    ExpandAppend(a + b, c, ds);
    ExpandAppend(a, b, ds);
  }

  /** Expanding with one definition, then with more, is expanding with all of them. */
  lemma {:induction false} ExpandCompose(lines: seq<string>, d: Define, rest: seq<Define>)
    ensures Expand(Expand(lines, [d]), rest) == Expand(lines, [d] + rest)
    decreases |lines|
  {
    if |lines| > 0 {
      var l := lines[0];
      var added := DefinesAfter(l, [d]);
      var tail := Expand(lines[1..], [d]);
      assert Expand(Expand(lines, [d]), rest) == [l] + DefinesAfter(l, rest) + added + Expand(tail, rest) by {
        assert Expand(lines, [d]) == [l] + added + tail;
        ExpandThree([l], added, tail, rest);
        ExpandOne(l, rest);
        ExpandAdded(l, d, rest);
      }
      assert Expand(tail, rest) == Expand(lines[1..], [d] + rest) by {
        ExpandCompose(lines[1..], d, rest);
      }
      assert DefinesAfter(l, rest) + added == DefinesAfter(l, [d] + rest) by {
        DefinesAfterAppend(l, [d], rest);
      }
    }
  }

  /** The line one definition puts after a header line has nothing put after it. */
  lemma ExpandAdded(l: string, d: Define, rest: seq<Define>)
    ensures Expand(DefinesAfter(l, [d]), rest) == DefinesAfter(l, [d])
  {
    if DefinesAfter(l, [d]) != [] {
      assert [d][1..] == [];
      assert DefinesAfter(l, [d]) == [DefineLine(d)];
      ExpandOne(DefineLine(d), rest);
      NothingAfterDefine(d, rest);
    }
  }

  /** Expanding with one definition keeps every line a header line. */
  lemma {:induction false} ExpandKeepsHeaderLines(lines: seq<string>, d: Define)
    requires HeaderLines(lines)
    ensures HeaderLines(Expand(lines, [d]))
    decreases |lines|
  {
    if |lines| > 0 {
      assert HeaderLines(lines[1..]) by {
        forall i | 0 <= i < |lines[1..]| ensures HeaderLine(lines[1..][i]) {
          assert lines[1..][i] == lines[i + 1];
        }
      }
      ExpandKeepsHeaderLines(lines[1..], d);
      assert HeaderLine(DefineLine(d)) by {
        forall e: Define ensures !Contains(DefineLine(d), Tag(e.Kind())) {
          DefineLineNoTag(d, e);
        }
      }
      assert [d][1..] == [];
    }
  }

  /** `add_field_in_file` on a header of lines: the definition's line goes right after every line that is its tag. */
  lemma {:induction false} AddFieldLines(lines: seq<string>, d: Define)
    requires |lines| > 0 && HeaderLines(lines)
    ensures AddField(Join(lines), d.Kind(), d.Field()) == Join(Expand(lines, [d]))
    decreases |lines|
  {
    var tag := Tag(d.Kind());
    var repl := tag + "\n" + "#define " + d.Field();
    assert repl == Join([tag, DefineLine(d)]);
    TagShape(d);
    var l := lines[0];
    var block := [l] + DefinesAfter(l, [d]);
    assert [d][1..] == [];
    assert Replace(l, tag, repl) == Join(block) by {
      if l == tag {
        assert l[..|tag|] == tag && l[|tag|..] == [];
      } else {
        ReplaceAbsent(l, tag, repl);
      }
    }
    if |lines| == 1 {
      assert Expand(lines, [d]) == block;
    } else {
      assert Join(lines) == l + "\n" + Join(lines[1..]);
      ReplaceByLine(l, Join(lines[1..]), tag, repl);
      assert HeaderLines(lines[1..]) by {
        forall i | 0 <= i < |lines[1..]| ensures HeaderLine(lines[1..][i]) {
          assert lines[1..][i] == lines[i + 1];
        }
      }
      AddFieldLines(lines[1..], d);
      JoinAppend(block, Expand(lines[1..], [d]));
    }
  }

  /**
   * `main_node`'s chain of `add_field_in_file` calls on a header whose tags
   * have lines of their own: each definition's line ends up right after
   * every line that is its kind's tag, the latest first, and every other
   * line of the header is unchanged.
   */
  lemma {:induction false} ApplyDefinesLines(lines: seq<string>, ds: seq<Define>)
    requires |lines| > 0 && HeaderLines(lines)
    ensures ApplyDefines(Join(lines), ds) == Join(Expand(lines, ds))
    decreases |ds|
  {
    if |ds| == 0 {
      assert forall i :: 0 <= i < |lines| ==> DefinesAfter(lines[i], ds) == [];
      ExpandNone(lines, ds);
    } else {
      var d := ds[0];
      AddFieldLines(lines, d);
      ExpandKeepsHeaderLines(lines, d);
      ApplyDefinesLines(Expand(lines, [d]), ds[1..]);
      ExpandCompose(lines, d, ds[1..]);
      assert [d] + ds[1..] == ds;
    }
  }

  lemma {:induction false} ExpandNone(lines: seq<string>, ds: seq<Define>)
    requires ds == []
    ensures Expand(lines, ds) == lines
    decreases |lines|
  {
    if |lines| > 0 {
      ExpandNone(lines[1..], ds);
    }
  }

  /*** The copy loop of main_node ***/

  /** The name a template gets in the project: the sketch is named after the project folder. */
  function TargetName(projectName: string, f: TemplateFile): string
  {
    if f.name == "bodynode.ino" then projectName + ".ino" else f.name
  }

  /** The text a template is copied with: the board header gets the definitions. */
  function TargetContent(projectName: string, c: NodeConfig, f: TemplateFile, templates: map<string, string>): string
    requires PathOf(f) in templates
  {
    if TargetName(projectName, f) == "BnNodeSpecific.h" then ApplyDefines(templates[PathOf(f)], DefinesFor(c))
    else templates[PathOf(f)]
  }

  predicate AllTemplates(files: seq<TemplateFile>, templates: map<string, string>)
  {
    forall i :: 0 <= i < |files| ==> PathOf(files[i]) in templates
  }

  /** The project folder after copying `files` in order; a later file of the same name overwrites. */
  function Copied(projectName: string, c: NodeConfig, files: seq<TemplateFile>, templates: map<string, string>): map<string, string>
    requires AllTemplates(files, templates)
    decreases |files|
  {
    if |files| == 0 then map[]
    else
      var last := files[|files| - 1];
      assert AllTemplates(files[..|files| - 1], templates);
      Copied(projectName, c, files[..|files| - 1], templates)[TargetName(projectName, last) := TargetContent(projectName, c, last, templates)]
  }

  /**
   * `main_node`: an early return copies nothing; otherwise every file taken
   * is copied into the project folder, the board header with its definitions.
   */
  method MainNode(projectName: string, c: NodeConfig, typeExists: bool, boardExists: bool, templates: map<string, string>)
    returns (ok: bool, project: map<string, string>)
    requires FilesToTake(c, typeExists, boardExists).Some? ==> AllTemplates(TakenFiles(c), templates)
    ensures ok == FilesToTake(c, typeExists, boardExists).Some?
    ensures !ok ==> project == map[]
    ensures ok ==> project == Copied(projectName, c, TakenFiles(c), templates)
  {
    project := map[];
    var files := FilesToTake(c, typeExists, boardExists);
    if files.None? {
      return false, project;
    }
    project := CopyAll(projectName, c, files.value, templates);
    ok := true;
  }

  /** The `for file_to_take in files_to_take` loop. */
  method CopyAll(projectName: string, c: NodeConfig, taken: seq<TemplateFile>, templates: map<string, string>)
    returns (project: map<string, string>)
    requires AllTemplates(taken, templates)
    ensures project == Copied(projectName, c, taken, templates)
  {
    project := map[];
    for i := 0 to |taken|
      invariant AllTemplates(taken[..i], templates)
      invariant project == Copied(projectName, c, taken[..i], templates)
    {
      var f := taken[i];
      var name := f.name;
      if name == "bodynode.ino" {
        name := projectName + ".ino";
      }
      var content := templates[PathOf(f)];
      if name == "BnNodeSpecific.h" {
        content := ApplyDefines(content, DefinesFor(c));
      }
      assert name == TargetName(projectName, f) && content == TargetContent(projectName, c, f, templates);
      CopiedStep(projectName, c, taken, templates, i);
      project := project[name := content];
    }
    assert taken[..|taken|] == taken;
  }

  /** Copying one more file of the list on top of the folder so far. */
  lemma CopiedStep(projectName: string, c: NodeConfig, taken: seq<TemplateFile>, templates: map<string, string>, i: nat)
    requires AllTemplates(taken, templates) && i < |taken|
    ensures AllTemplates(taken[..i], templates) && AllTemplates(taken[..i + 1], templates)
    ensures Copied(projectName, c, taken[..i + 1], templates) ==
      Copied(projectName, c, taken[..i], templates)[TargetName(projectName, taken[i]) := TargetContent(projectName, c, taken[i], templates)]
  {
    assert taken[..i + 1][..i] == taken[..i];
  }

  /** The board header always ends up in the project, carrying the definitions of the configuration. */
  lemma BoardHeaderDefined(projectName: string, c: NodeConfig, templates: map<string, string>)
    requires AllTemplates(TakenFiles(c), templates)
    ensures "BnNodeSpecific.h" in Copied(projectName, c, TakenFiles(c), templates)
    ensures Copied(projectName, c, TakenFiles(c), templates)["BnNodeSpecific.h"] ==
      ApplyDefines(templates[PathOf(TemplateFile(BoardFolder(c.board), "BnNodeSpecific.h"))], DefinesFor(c))
  {
    var files := TakenFiles(c);
    var last := files[|files| - 1];
    assert last == TemplateFile(BoardFolder(c.board), "BnNodeSpecific.h");
  }

  /**
   * The board header of a template laid out in lines: the project's copy is
   * the template with, right after each of its tag lines, the line of every
   * definition of that kind the configuration calls for.
   */
  lemma BoardHeaderLines(projectName: string, c: NodeConfig, templates: map<string, string>, lines: seq<string>)
    requires AllTemplates(TakenFiles(c), templates)
    requires |lines| > 0 && HeaderLines(lines)
    requires PathOf(TemplateFile(BoardFolder(c.board), "BnNodeSpecific.h")) in templates
    requires templates[PathOf(TemplateFile(BoardFolder(c.board), "BnNodeSpecific.h"))] == Join(lines)
    ensures "BnNodeSpecific.h" in Copied(projectName, c, TakenFiles(c), templates)
    ensures Copied(projectName, c, TakenFiles(c), templates)["BnNodeSpecific.h"] == Join(Expand(lines, DefinesFor(c)))
    ensures forall i, d: Define :: 0 <= i < |lines| && lines[i] == Tag(d.Kind()) && Wanted(c, d) ==>
      DefineLine(d) in DefinesAfter(lines[i], DefinesFor(c))
  {
    BoardHeaderDefined(projectName, c, templates);
    ApplyDefinesLines(lines, DefinesFor(c));
    forall i, d: Define | 0 <= i < |lines| && lines[i] == Tag(d.Kind()) && Wanted(c, d)
      ensures DefineLine(d) in DefinesAfter(lines[i], DefinesFor(c))
    {
      DefinesAfterMembers(lines[i], DefinesFor(c), d);
    }
  }
}
