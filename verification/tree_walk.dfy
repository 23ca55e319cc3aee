/**
 The two capped depth-first searches of the diagnostic scripts:
 `find_and_show_sensors` (in both scripts, differing only in the sensor test)
 and `find_sensor_locations` (identical in both scripts). Each returns the
 updated counter the Python returns, together with what it printed, in order.
 */
module TreeWalk {
  import opened Optional
  import opened SensorTree

  function Min(a: int, b: int): int {
    if a <= b then a else b
  }

  /** The counter after a walk, and the sensors printed during it. */
  datatype Shown = Shown(found: int, sensors: seq<Node>)

  /**
   `find_and_show_sensors(node, depth, max_sensors, sensors_found)`: stop at
   the cap, count (and print) the node if it is a sensor, then walk its
   children in order until the cap is reached. The indentation depth only
   affects printing and is left out.
   */
  function FindAndShow(tool: Tool, n: Node, maxSensors: int, found: int): Shown
    decreases n, 1
  {
    if found >= maxSensors then Shown(found, [])
    else match n
      case NotDict => Shown(found, [])
      case Dict(_, _, _, _, children) =>
        var here := if IsSensor(tool, n) then Shown(found + 1, [n]) else Shown(found, []);
        match children
        case Items(ks) => ShowChildren(tool, ks, maxSensors, here)
        case _ => here
  }

  /** The `for child in node["Children"]` loop, with its `break` at the cap. */
  function ShowChildren(tool: Tool, ks: seq<Node>, maxSensors: int, acc: Shown): Shown
    decreases ks, 0
  {
    if |ks| == 0 then acc
    else
      var w := FindAndShow(tool, ks[0], maxSensors, acc.found);
      var next := Shown(w.found, acc.sensors + w.sensors);
      if next.found >= maxSensors then next
      else ShowChildren(tool, ks[1..], maxSensors, next)
  }

  lemma PrefixOfConcat<T>(a: seq<T>, b: seq<T>, k: nat)
    requires k <= |a|
    ensures (a + b)[..k] == a[..k]
  {
  }

  lemma PrefixPastFirst<T>(a: seq<T>, b: seq<T>, k: nat)
    requires k <= |b|
    ensures (a + b)[..|a| + k] == a + b[..k]
  {
  }

  /**
   One step of a capped walk over `first + rest`, in sequence terms only: if
   the walk over `first` takes the counter from `a` to `w` and shows the first
   `w - a` items, and the walk over `rest` (run only below the cap) does the
   same from `w`, the two together show the first items of `first + rest`.
   */
  lemma CappedConcat<T>(first: seq<T>, rest: seq<T>, maxSensors: int, a: int, shown: seq<T>,
                        w: int, ws: seq<T>, r: int, rs: seq<T>)
    requires a <= maxSensors
    requires w == Min(maxSensors, a + |first|) && ws == first[..w - a]
    requires w >= maxSensors ==> r == w && rs == shown + ws
    requires w < maxSensors ==> r == Min(maxSensors, w + |rest|) && rs == shown + ws + rest[..r - w]
    ensures r == Min(maxSensors, a + |first + rest|)
    ensures rs == shown + (first + rest)[..r - a]
  {
    if w >= maxSensors {
      PrefixOfConcat(first, rest, w - a);
    } else {
      assert ws == first;
      PrefixPastFirst(first, rest, r - w);
    }
  }

  /**
   Starting below the cap, `find_and_show_sensors` returns
   `min(max_sensors, sensors_found + count_sensors(node))` and prints exactly
   the first sensors of the depth-first order, as many as it counted; starting
   at or above the cap it returns `sensors_found` and prints nothing.
   */
  lemma {:induction false} FindAndShowCounts(tool: Tool, n: Node, maxSensors: int, found: int)
    ensures found >= maxSensors ==> FindAndShow(tool, n, maxSensors, found) == Shown(found, [])
    ensures found < maxSensors ==>
              var r := FindAndShow(tool, n, maxSensors, found);
              && r.found == Min(maxSensors, found + |Sensors(tool, n)|)
              && r.sensors == Sensors(tool, n)[..r.found - found]
    decreases n, 1
  {
    if found < maxSensors && n.Dict? && n.children.Items? {
      var ks := n.children.nodes;
      var here := if IsSensor(tool, n) then Shown(found + 1, [n]) else Shown(found, []);
      ShowChildrenCounts(tool, ks, maxSensors, here);
      var r := ShowChildren(tool, ks, maxSensors, here);
      var all := SensorsAll(tool, ks);
      assert FindAndShow(tool, n, maxSensors, found) == r;
      assert Sensors(tool, n) == here.sensors + all;
      PrefixPastFirst(here.sensors, all, r.found - here.found);
    }
  }

  lemma {:induction false} ShowChildrenCounts(tool: Tool, ks: seq<Node>, maxSensors: int, acc: Shown)
    requires acc.found <= maxSensors
    ensures var r := ShowChildren(tool, ks, maxSensors, acc);
            && r.found == Min(maxSensors, acc.found + |SensorsAll(tool, ks)|)
            && r.sensors == acc.sensors + SensorsAll(tool, ks)[..r.found - acc.found]
    decreases ks, 0
  {
    if |ks| > 0 {
      var a := acc.found;
      var first, rest := Sensors(tool, ks[0]), SensorsAll(tool, ks[1..]);
      var w := FindAndShow(tool, ks[0], maxSensors, a);
      assert w.found == Min(maxSensors, a + |first|) && w.sensors == first[..w.found - a] by {
        FindAndShowCounts(tool, ks[0], maxSensors, a);
      }
      var next := Shown(w.found, acc.sensors + w.sensors);
      var r := ShowChildren(tool, ks, maxSensors, acc);
      assert r == if next.found >= maxSensors then next else ShowChildren(tool, ks[1..], maxSensors, next);
      if next.found < maxSensors {
        ShowChildrenCounts(tool, ks[1..], maxSensors, next);
      }
      assert SensorsAll(tool, ks) == first + rest;
      CappedConcat(first, rest, maxSensors, a, acc.sensors, w.found, w.sensors, r.found, r.sensors);
    }
  }

  /** Corollary: the walk never goes past the cap and never loses ground. */
  lemma FindAndShowBounded(tool: Tool, n: Node, maxSensors: int, found: int)
    requires found <= maxSensors
    ensures found <= FindAndShow(tool, n, maxSensors, found).found <= maxSensors
  {
    FindAndShowCounts(tool, n, maxSensors, found);
  }

  /** `f"{path}/{Text}"` when `node.get('Text')` is truthy, else the path unchanged. */
  function CurrentPath(path: string, n: Node): (r: string)
    requires n.Dict?
    ensures Strings.StartsWith(r, path)
    ensures |r| > |path| <==> n.text.Some? && n.text.value != []
  {
    if n.text.Some? && n.text.value != [] then path + "/" + n.text.value else path
  }

  /** A located sensor and the path printed for it. */
  datatype Location = Location(path: string, sensor: Node)

  /** The counter after a search, and the locations printed during it. */
  datatype Located = Located(found: int, locations: seq<Location>)

  /**
   `find_sensor_locations(node, path, max_examples, examples_found)`: a sensor
   node is reported and its children are not visited; any other object
   passes its extended path to its children in order, until the cap.
   */
  function FindLocations(n: Node, path: string, maxExamples: int, found: int): Located
    decreases n, 1
  {
    if found >= maxExamples then Located(found, [])
    else match n
      case NotDict => Located(found, [])
      case Dict(_, _, _, _, children) =>
        var current := CurrentPath(path, n);
        if IsSensor(DebugHttpApi, n) then Located(found + 1, [Location(current, n)])
        else match children
          case Items(ks) => LocateChildren(ks, current, maxExamples, Located(found, []))
          case _ => Located(found, [])
  }

  function LocateChildren(ks: seq<Node>, path: string, maxExamples: int, acc: Located): Located
    decreases ks, 0
  {
    if |ks| == 0 then acc
    else
      var w := FindLocations(ks[0], path, maxExamples, acc.found);
      var next := Located(w.found, acc.locations + w.locations);
      if next.found >= maxExamples then next
      else LocateChildren(ks[1..], path, maxExamples, next)
  }

  /**
   Reference enumeration: the topmost sensors (those with no sensor above
   them), depth-first, each with the path of non-empty Texts leading to it.
   Every path extends the starting path.
   */
  function Locations(n: Node, path: string): (r: seq<Location>)
    ensures forall l :: l in r ==> IsSensor(DebugHttpApi, l.sensor) && Strings.StartsWith(l.path, path)
    decreases n, 1
  {
    match n
    case NotDict => []
    case Dict(_, _, _, _, children) =>
      var current := CurrentPath(path, n);
      if IsSensor(DebugHttpApi, n) then [Location(current, n)]
      else match children
        case Items(ks) => LocationsAll(ks, current)
        case _ => []
  }

  function LocationsAll(ks: seq<Node>, path: string): (r: seq<Location>)
    ensures forall l :: l in r ==> IsSensor(DebugHttpApi, l.sensor) && Strings.StartsWith(l.path, path)
    decreases ks, 0
  {
    if |ks| == 0 then [] else Locations(ks[0], path) + LocationsAll(ks[1..], path)
  }

  /**
   Starting below the cap, `find_sensor_locations` returns
   `min(max_examples, examples_found + #topmost sensors)` and prints exactly
   the first topmost sensors, in order, with their paths; at or above the cap
   it returns `examples_found` and prints nothing.
   */
  lemma {:induction false} FindLocationsCounts(n: Node, path: string, maxExamples: int, found: int)
    ensures found >= maxExamples ==> FindLocations(n, path, maxExamples, found) == Located(found, [])
    ensures found < maxExamples ==>
              var r := FindLocations(n, path, maxExamples, found);
              && r.found == Min(maxExamples, found + |Locations(n, path)|)
              && r.locations == Locations(n, path)[..r.found - found]
    decreases n, 1
  {
    if found < maxExamples {
      match n
      case NotDict =>
      case Dict(_, _, _, _, children) =>
        var current := CurrentPath(path, n);
        if !IsSensor(DebugHttpApi, n) {
          match children {
            case Items(ks) =>
              LocateChildrenCounts(ks, current, maxExamples, Located(found, []));
            case NoChildren =>
            case NotAList =>
          }
        }
    }
  }

  lemma {:induction false} LocateChildrenCounts(ks: seq<Node>, path: string, maxExamples: int, acc: Located)
    requires acc.found <= maxExamples
    ensures var r := LocateChildren(ks, path, maxExamples, acc);
            && r.found == Min(maxExamples, acc.found + |LocationsAll(ks, path)|)
            && r.locations == acc.locations + LocationsAll(ks, path)[..r.found - acc.found]
    decreases ks, 0
  {
    if |ks| > 0 {
      var a := acc.found;
      FindLocationsCounts(ks[0], path, maxExamples, a);
      var w := FindLocations(ks[0], path, maxExamples, a);
      var next := Located(w.found, acc.locations + w.locations);
      var first := Locations(ks[0], path);
      var rest := LocationsAll(ks[1..], path);
      assert w.found == Min(maxExamples, a + |first|) && w.locations == first[..w.found - a];
      if next.found >= maxExamples {
        PrefixOfConcat(first, rest, w.found - a);
      } else {
        assert w.locations == first;
        LocateChildrenCounts(ks[1..], path, maxExamples, next);
        var r := LocateChildren(ks[1..], path, maxExamples, next);
        PrefixPastFirst(first, rest, r.found - next.found);
      }
    }
  }

  /** A sensor node is reported once, at its own path, whatever lies below it. */
  lemma SensorNodeNotDescended(n: Node, path: string, maxExamples: int, found: int)
    requires IsSensor(DebugHttpApi, n) && found < maxExamples
    ensures FindLocations(n, path, maxExamples, found)
            == Located(found + 1, [Location(CurrentPath(path, n), n)])
  {
  }

  /** Corollary: from a start at or below the cap, the search never exceeds `max_examples`. */
  lemma FindLocationsBounded(n: Node, path: string, maxExamples: int, found: int)
    requires found <= maxExamples
    ensures found <= FindLocations(n, path, maxExamples, found).found <= maxExamples
  {
    FindLocationsCounts(n, path, maxExamples, found);
  }

  /** Only topmost sensors are located, so there are never more than `count_sensors` finds. */
  lemma {:induction false} LocationsAtMostCount(n: Node, path: string)
    ensures |Locations(n, path)| <= Count(DebugHttpApi, n)
    decreases n, 1
  {
    match n
    case NotDict =>
    case Dict(_, _, _, _, children) =>
      if !IsSensor(DebugHttpApi, n) {
        match children {
          case Items(ks) => LocationsAllAtMostCountAll(ks, CurrentPath(path, n));
          case NoChildren =>
          case NotAList =>
        }
      }
  }

  lemma {:induction false} LocationsAllAtMostCountAll(ks: seq<Node>, path: string)
    ensures |LocationsAll(ks, path)| <= CountAll(DebugHttpApi, ks)
    decreases ks, 0
  {
    if |ks| > 0 {
      LocationsAtMostCount(ks[0], path);
      LocationsAllAtMostCountAll(ks[1..], path);
    }
  }
}
