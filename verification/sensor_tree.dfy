/**
 The data.json document LibreHardwareMonitor serves, as the two diagnostic
 scripts (sensor_discovery.py and debug_http_api.py) see it: nested JSON
 objects that may carry `Text`, `Type`, `Value`, `RawValue` and `Children`,
 and the sensor counts both scripts compute over it.
 */
module SensorTree {
  import opened Optional
  import opened Strings

  /**
   A field value that is not a container. `Other` stands for any JSON value
   that is neither a string nor null (a number, a boolean, a list, an object),
   carried as its Python `str()` rendering and its truthiness.
   */
  datatype Scalar = Null | Str(s: string) | Other(rendered: string, truthy: bool)

  /** Python's `str(v)`. */
  function Render(v: Scalar): string {
    match v
    case Null => "None"
    case Str(s) => s
    case Other(r, _) => r
  }

  /** Python's `bool(v)`. */
  predicate Truthy(v: Scalar) {
    match v
    case Null => false
    case Str(s) => s != []
    case Other(_, t) => t
  }

  /** The `Children` field: absent, a list, or present but not a list. */
  datatype Children = NoChildren | Items(nodes: seq<Node>) | NotAList

  /**
   One element of the tree. `NotDict` is any JSON value that is not an object;
   for an object, `None` means the key is absent. Only the presence of `Type`
   matters to the scripts, so it is a flag.
   */
  datatype Node =
    | NotDict
    | Dict(text: Option<string>, hasType: bool, rawValue: Option<Scalar>,
           value: Option<Scalar>, children: Children)

  /** The two scripts, which differ in what they accept as a sensor. */
  datatype Tool = SensorDiscovery | DebugHttpApi

  /** sensor_discovery.py's test of a value: not None, not blank, not "n/a" or "null" in any case. */
  predicate ValidValue(v: Scalar) {
    v != Null && Strip(Render(v)) != [] && Lower(Render(v)) !in ["n/a", "", "null"]
  }

  /**
   Is this node a sensor? sensor_discovery.py's `count_sensors` and
   `find_and_show_sensors` want `Type` and a valid `Value`; everything in
   debug_http_api.py, and `count_direct_sensors` in both files, want `Type`
   and either `RawValue` or `Value`.
   */
  predicate IsSensor(tool: Tool, n: Node) {
    && n.Dict?
    && n.hasType
    && match tool
       case SensorDiscovery => n.value.Some? && ValidValue(n.value.value)
       case DebugHttpApi => n.rawValue.Some? || n.value.Some?
  }

  /** The `count_direct_sensors` test, applied to a node and to each of its children. */
  predicate IsDirectSensor(n: Node) {
    IsSensor(DebugHttpApi, n)
  }

  /** The children a walker visits: only a `Children` list of an object is walked. */
  function Kids(n: Node): seq<Node> {
    if n.Dict? && n.children.Items? then n.children.nodes else []
  }

  function Own(tool: Tool, n: Node): nat {
    if IsSensor(tool, n) then 1 else 0
  }

  /**
   `count_sensors`: the node's own 0/1 plus the counts of its children, 0 for
   a non-object; it counts exactly the sensors the depth-first enumeration lists.
   */
  function Count(tool: Tool, n: Node): (c: nat)
    ensures c == |Sensors(tool, n)|
    decreases n, 1
  {
    match n
    case NotDict => 0
    case Dict(_, _, _, _, children) =>
      Own(tool, n) + (match children
                      case Items(ks) => CountAll(tool, ks)
                      case _ => 0)
  }

  function CountAll(tool: Tool, ks: seq<Node>): (c: nat)
    ensures c == |SensorsAll(tool, ks)|
    decreases ks, 0
  {
    if |ks| == 0 then 0 else Count(tool, ks[0]) + CountAll(tool, ks[1..])
  }

  /** Reference enumeration: the sensors of the tree in depth-first, parent-before-children order. */
  function Sensors(tool: Tool, n: Node): (r: seq<Node>)
    ensures forall m :: m in r ==> IsSensor(tool, m)
    decreases n, 1
  {
    match n
    case NotDict => []
    case Dict(_, _, _, _, children) =>
      (if IsSensor(tool, n) then [n] else [])
      + (match children
         case Items(ks) => SensorsAll(tool, ks)
         case _ => [])
  }

  function SensorsAll(tool: Tool, ks: seq<Node>): (r: seq<Node>)
    ensures forall m :: m in r ==> IsSensor(tool, m)
    decreases ks, 0
  {
    if |ks| == 0 then [] else Sensors(tool, ks[0]) + SensorsAll(tool, ks[1..])
  }

  /** A child list's count is at least the count of any one child in it. */
  lemma {:induction false} CountAllBoundsMember(tool: Tool, ks: seq<Node>, i: int)
    requires 0 <= i < |ks|
    ensures Count(tool, ks[i]) <= CountAll(tool, ks)
  {
    if i > 0 {
      CountAllBoundsMember(tool, ks[1..], i - 1);
    }
  }

  /** `count_sensors` of a node never drops below the count of any of its children. */
  lemma ChildCountBounded(tool: Tool, n: Node, i: int)
    requires 0 <= i < |Kids(n)|
    ensures Count(tool, Kids(n)[i]) <= Count(tool, n)
  {
    CountAllBoundsMember(tool, n.children.nodes, i);
  }

  /**
   sensor_discovery.py's blank test: a value whose text is only white space
   strips to "" and is falsy, so a node carrying it is not a sensor there.
   */
  lemma BlankValueNotSensor(n: Node)
    requires n.Dict? && n.value.Some? && forall c :: c in Render(n.value.value) ==> IsSpace(c)
    ensures !IsSensor(SensorDiscovery, n)
  {
    StripEmptyIffBlank(Render(n.value.value));
  }

  /** A sensor_discovery.py sensor is always a debug_http_api.py sensor. */
  lemma DiscoverySensorIsDebugSensor(n: Node)
    ensures IsSensor(SensorDiscovery, n) ==> IsSensor(DebugHttpApi, n)
  {
  }

  /**
   The two `count_sensors` functions compared: debug_http_api.py's version,
   which does not look at the value, counts at least as many sensors.
   */
  lemma {:induction false} DiscoveryCountAtMostDebugCount(n: Node)
    ensures Count(SensorDiscovery, n) <= Count(DebugHttpApi, n)
    decreases n, 1
  {
    match n
    case NotDict =>
    case Dict(_, _, _, _, children) =>
      DiscoverySensorIsDebugSensor(n);
      match children {
        case Items(ks) => DiscoveryCountAllAtMostDebug(ks);
        case NoChildren =>
        case NotAList =>
      }
  }

  lemma {:induction false} DiscoveryCountAllAtMostDebug(ks: seq<Node>)
    ensures CountAll(SensorDiscovery, ks) <= CountAll(DebugHttpApi, ks)
    decreases ks, 0
  {
    if |ks| > 0 {
      DiscoveryCountAtMostDebugCount(ks[0]);
      DiscoveryCountAllAtMostDebug(ks[1..]);
    }
  }

  /** Reference listing for `count_direct_sensors`: the direct sensors among a list of children. */
  function DirectAmong(ks: seq<Node>): (r: seq<Node>)
    ensures |r| <= |ks|
    ensures forall m :: m in r ==> m in ks && IsDirectSensor(m)
  {
    if |ks| == 0 then []
    else (if IsDirectSensor(ks[0]) then [ks[0]] else []) + DirectAmong(ks[1..])
  }

  lemma {:induction false} DirectAmongConcat(a: seq<Node>, b: seq<Node>)
    ensures DirectAmong(a + b) == DirectAmong(a) + DirectAmong(b)
  {
    if |a| == 0 {
      assert a + b == b;
    } else {
      assert (a + b)[1..] == a[1..] + b;
      DirectAmongConcat(a[1..], b);
    }
  }

  /** One more child adds one to the direct count exactly when it is a direct sensor. */
  lemma DirectAmongAppend(ks: seq<Node>, k: Node)
    ensures |DirectAmong(ks + [k])| == |DirectAmong(ks)| + if IsDirectSensor(k) then 1 else 0
  {
    DirectAmongConcat(ks, [k]);
    assert DirectAmong([k]) == if IsDirectSensor(k) then [k] else [];
  }

  /** The node itself (if it is a sensor) followed by its sensor children. */
  function DirectSensors(n: Node): seq<Node> {
    if n.NotDict? then [] else DirectAmong([n] + Kids(n))
  }

  /**
   `count_direct_sensors` (defined twice, identically, in each of the two
   scripts): one pass over the node and its immediate children.
   */
  method CountDirectSensors(n: Node) returns (count: nat)
    ensures count == |DirectSensors(n)|
    ensures count <= 1 + |Kids(n)|
    ensures n.NotDict? ==> count == 0
  {
    if n.NotDict? {
      return 0;
    }
    count := 0;
    if IsDirectSensor(n) {
      count := count + 1;
    }
    assert count == |DirectAmong([n])|;
    if n.children.Items? {
      var ks := n.children.nodes;
      for i := 0 to |ks|
        invariant count == |DirectAmong([n] + ks[..i])|
        invariant count <= 1 + i
      {
        assert [n] + ks[..i + 1] == ([n] + ks[..i]) + [ks[i]];
        DirectAmongAppend([n] + ks[..i], ks[i]);
        if ks[i].Dict? && ks[i].hasType && (ks[i].rawValue.Some? || ks[i].value.Some?) {
          count := count + 1;
        }
      }
      assert ks[..|ks|] == ks;
    }
  }

  /** Each sensor child is counted at most once by the child's own recursive count. */
  lemma {:induction false} DirectAmongAtMostCountAll(ks: seq<Node>)
    ensures |DirectAmong(ks)| <= CountAll(DebugHttpApi, ks)
  {
    if |ks| > 0 {
      DirectAmongAtMostCountAll(ks[1..]);
    }
  }

  /**
   `count_direct_sensors` never exceeds debug_http_api.py's `count_sensors`:
   same test, restricted to the node and its immediate children.
   */
  lemma DirectCountAtMostDebugCount(n: Node)
    ensures |DirectSensors(n)| <= Count(DebugHttpApi, n)
  {
    if n.Dict? {
      DirectAmongConcat([n], Kids(n));
      DirectAmongAtMostCountAll(Kids(n));
    }
  }

  /**
   In sensor_discovery.py the two counts disagree: a node with `Type` and the
   value "N/A" is a direct sensor but not a counted one.
   */
  lemma DirectCountCanExceedDiscoveryCount()
    ensures var n := Dict(Some("Package"), true, None, Some(Str("N/A")), NoChildren);
            |DirectSensors(n)| == 1 && Count(SensorDiscovery, n) == 0
  {
    var n := Dict(Some("Package"), true, None, Some(Str("N/A")), NoChildren);
    assert Lower("N/A") == "n/a";
    assert DirectSensors(n) == [n];
  }
}
