/**
 hardware_exporter.py's `HardwareMonitor`: `update_metrics`, which routes
 each WMI sensor to one Prometheus gauge through a first-match chain of
 tests on the sensor type, the parent and the name, and `get_system_info`.
 The gauges are a map from (metric, label values) to the last value set.
 */
module Exporter {
  import opened Optional
  import opened Strings
  import opened Wmi
  import FanDetection

  /** The ten gauges the exporter declares. */
  datatype Metric =
    | CpuTemp | CpuLoad | CpuClock
    | GpuTemp | GpuLoad | GpuMemory | GpuClock
    | FanRpm
    | MemoryUsed | MemoryAvailable

  function MetricName(m: Metric): string {
    match m
    case CpuTemp => "cpu_temperature_celsius"
    case CpuLoad => "cpu_load_percent"
    case CpuClock => "cpu_clock_mhz"
    case GpuTemp => "gpu_temperature_celsius"
    case GpuLoad => "gpu_load_percent"
    case GpuMemory => "gpu_memory_used_mb"
    case GpuClock => "gpu_clock_mhz"
    case FanRpm => "fan_speed_rpm"
    case MemoryUsed => "memory_used_gb"
    case MemoryAvailable => "memory_available_gb"
  }

  /** The label names each gauge is declared with. */
  function LabelNames(m: Metric): seq<string> {
    match m
    case CpuTemp => ["sensor"]
    case CpuLoad => ["core"]
    case CpuClock => ["core"]
    case GpuTemp => ["gpu"]
    case GpuLoad => ["gpu", "type"]
    case GpuMemory => ["gpu"]
    case GpuClock => ["gpu", "type"]
    case FanRpm => ["fan", "type"]
    case MemoryUsed => []
    case MemoryAvailable => []
  }

  /** The keyword arguments of a `labels(...)` call, in call order. */
  type LabelArgs = seq<(string, string)>

  function ArgNames(args: LabelArgs): (r: seq<string>)
    ensures |r| == |args|
  {
    if |args| == 0 then [] else [args[0].0] + ArgNames(args[1..])
  }

  /** The value passed for label `name` (the first, since keyword names are unique). */
  function ArgValue(args: LabelArgs, name: string): string {
    if |args| == 0 then "" else if args[0].0 == name then args[0].1 else ArgValue(args[1..], name)
  }

  /**
   `gauge.labels(**kwargs)`: the label values in declared order when the
   keyword names are exactly the declared names; otherwise prometheus_client
   raises ValueError (None). A gauge without labels is set directly and
   never calls `labels()`; `ResolveLabels(m, [])` models that call-free path.
   */
  function ResolveLabels(m: Metric, args: LabelArgs): (r: Option<seq<string>>)
    ensures r.Some? ==> |r.value| == |LabelNames(m)| == |args|
    ensures r.Some? ==> forall x :: x in ArgNames(args) <==> x in LabelNames(m)
  {
    var names := LabelNames(m);
    if multiset(ArgNames(args)) == multiset(names) then
      assert forall x :: x in ArgNames(args) <==> x in multiset(ArgNames(args));
      Some(ValuesFor(args, names))
    else None
  }

  /** The values `args` passes for `names`, in the order of `names`. */
  function ValuesFor(args: LabelArgs, names: seq<string>): (r: seq<string>)
    ensures |r| == |names|
  {
    seq(|names|, i requires 0 <= i < |names| => ArgValue(args, names[i]))
  }

  /** No label name occurs twice. */
  predicate Distinct(names: seq<string>) {
    forall a, b :: 0 <= a < b < |names| ==> names[a] != names[b]
  }

  /** Every gauge is declared with distinct label names. */
  lemma LabelNamesDistinct(m: Metric)
    ensures Distinct(LabelNames(m))
  {
  }

  /** The keyword arguments passing `vs[i]` for the label `names[i]`, in that order. */
  function Zip(names: seq<string>, vs: seq<string>): (r: LabelArgs)
    requires |names| == |vs|
    ensures ArgNames(r) == names
  {
    if |names| == 0 then []
    else
      var rest := Zip(names[1..], vs[1..]);
      assert ([(names[0], vs[0])] + rest)[1..] == rest;
      [(names[0], vs[0])] + rest
  }

  lemma {:induction false} ArgValueZip(names: seq<string>, vs: seq<string>, i: int)
    requires |names| == |vs| && Distinct(names) && 0 <= i < |names|
    ensures ArgValue(Zip(names, vs), names[i]) == vs[i]
  {
    var z := Zip(names, vs);
    assert z[1..] == Zip(names[1..], vs[1..]);
    if i > 0 {
      assert names[0] != names[i];
      assert names[1..][i - 1] == names[i];
      ArgValueZip(names[1..], vs[1..], i - 1);
    }
  }

  /** Zipping distinct names with values and reading the values back by name gives the values. */
  lemma ZipValues(names: seq<string>, vs: seq<string>)
    requires |names| == |vs| && Distinct(names)
    ensures ValuesFor(Zip(names, vs), names) == vs
  {
    var r := ValuesFor(Zip(names, vs), names);
    forall i | 0 <= i < |names|
      ensures r[i] == vs[i]
    {
      ArgValueZip(names, vs, i);
    }
  }

  /**
   The round trip of `labels(**kwargs)`: passing each declared label once, by
   name, yields exactly the values passed, in declared order.
   */
  lemma ResolveRoundTrip(m: Metric, vs: seq<string>)
    requires |vs| == |LabelNames(m)|
    ensures ResolveLabels(m, Zip(LabelNames(m), vs)) == Some(vs)
  {
    LabelNamesDistinct(m);
    ZipValues(LabelNames(m), vs);
  }

  /** One routed sensor: the gauge, the `labels(...)` arguments and the value set. */
  datatype Update = Update(metric: Metric, args: LabelArgs, value: real)

  /**
   The exporter as written, and the exporter with the fan gauge given both
   of its declared labels (see `CorrectedNeverRaises`).
   */
  datatype Edition = AsWritten | Corrected

  /** `"CPU" in parent`. */
  predicate CpuParent(parent: string) {
    Contains(parent, "CPU")
  }

  const GpuMarks: seq<string> := ["GPU", "NVIDIA", "AMD", "Radeon"]

  /** `any(x in parent for x in ["GPU", "NVIDIA", "AMD", "Radeon"])`. */
  predicate GpuParent(parent: string) {
    exists i :: 0 <= i < |GpuMarks| && Contains(parent, GpuMarks[i])
  }

  /** The CPU core label: lower-cased, then "cpu ", '#' and ' ' removed in that order. */
  function CoreLabel(name: string): string {
    ReplaceAll(ReplaceAll(ReplaceAll(Lower(name), "cpu ", ""), "#", ""), " ", "")
  }

  /** A core label never holds a '#' or a space. */
  lemma CoreLabelShape(name: string)
    ensures '#' !in CoreLabel(name) && ' ' !in CoreLabel(name)
  {
    var a := ReplaceAll(Lower(name), "cpu ", "");
    ReplaceSingleChar(a, '#', "");
    var b := ReplaceAll(a, "#", "");
    ReplaceSingleChar(b, ' ', "");
  }

  lemma CoreLabelLower()
    ensures Lower("CPU Core #1") == "cpu core #1"
  {
  }

  lemma CoreLabelPrefixRemoved()
    ensures ReplaceAll("cpu core #1", "cpu ", "") == "core #1"
  {
    assert StartsWith("cpu core #1", "cpu ");
    assert "cpu core #1"[4..] == "core #1";
    CoreLabelRestKept();
  }

  lemma CoreLabelRestKept()
    ensures ReplaceAll("core #1", "cpu ", "") == "core #1"
  {
    var rest := "core #1";
    assert rest[1] != "cpu "[1];
    assert !StartsWith(rest, "cpu ");
    assert rest[1..] == "ore #1";
    ReplaceAbsent("ore #1", "cpu ", "");
  }

  lemma CoreLabelHashRemoved()
    ensures ReplaceAll("core #1", "#", "") == "core 1"
  {
    assert "core #1" == "core " + "#1";
    ReplaceAfterAbsent("core ", "#1", "#", "");
    assert StartsWith("#1", "#");
    assert "#1"[1..] == "1";
    ReplaceAbsent("1", "#", "");
  }

  /** "CPU Core #1" gets the core label "core1". */
  lemma CoreLabelExample()
    ensures CoreLabel("CPU Core #1") == "core1"
  {
    CoreLabelLower();
    CoreLabelPrefixRemoved();
    CoreLabelHashRemoved();
    assert "core" + " " + "1" == "core 1";
    OneSpaceReplaced("core", "1", "");
  }

  /** `s.split("/")[-1]`: the text after the last '/', or all of `s` when it has none. */
  function AfterLastSlash(s: string): (r: string)
    ensures |r| <= |s| && r == s[|s| - |r|..]
    ensures '/' !in r
    ensures |r| < |s| ==> s[|s| - |r| - 1] == '/'
    ensures '/' in s ==> |r| < |s|
  {
    if |s| == 0 then []
    else if s[|s| - 1] == '/' then []
    else
      var p := s[..|s| - 1];
      var r := AfterLastSlash(p);
      assert p[|p| - |r|..] + [s[|s| - 1]] == s[|s| - |r| - 1..];
      r + [s[|s| - 1]]
  }

  /** The GPU label: the last '/'-segment of the parent when it has a '/', else "gpu0". */
  function GpuName(parent: string): (r: string)
    ensures '/' !in r
    ensures '/' !in parent ==> r == "gpu0"
    ensures '/' in parent ==> |r| < |parent| && r == parent[|parent| - |r|..] && parent[|parent| - |r| - 1] == '/'
  {
    if '/' in parent then AfterLastSlash(parent) else "gpu0"
  }

  /** The load and clock type: "Core" (case-sensitive) first, then "Memory". */
  function Subtype(name: string): (r: string)
    ensures r in ["core", "memory", "other"]
    ensures r == "core" <==> Contains(name, "Core")
    ensures r == "memory" <==> !Contains(name, "Core") && Contains(name, "Memory")
  {
    if Contains(name, "Core") then "core" else if Contains(name, "Memory") then "memory" else "other"
  }

  /** The test is case-sensitive: a lower-case "core" does not make the core subtype. */
  lemma SubtypeIsCaseSensitive()
    ensures Subtype("GPU Core") == "core"
    ensures Subtype("GPU core") == "other"
  {
    assert "GPU Core"[4..] == "Core" by { assert "GPU Core" == "GPU " + "Core"; }
    SubtypeOfCoreSuffix("GPU Core", 4);
    assert 'C' !in "GPU core" && 'M' !in "GPU core";
    SubtypeWithoutCapitals("GPU core");
  }

  /** A name ending in "Core" has the core subtype. */
  lemma SubtypeOfCoreSuffix(name: string, i: nat)
    requires i <= |name| && name[i..] == "Core"
    ensures Subtype(name) == "core"
  {
    assert StartsWith(name[i..], "Core");
    OccursImpliesContains(name, "Core", i);
  }

  /** A name with neither 'C' nor 'M' contains neither keyword, so its subtype is "other". */
  lemma SubtypeWithoutCapitals(name: string)
    requires 'C' !in name && 'M' !in name
    ensures Subtype(name) == "other"
  {
    AbsentHeadNotContained(name, "Core");
    AbsentHeadNotContained(name, "Memory");
  }

  /** The fan gauge's `labels(...)` arguments. */
  function FanArgs(e: Edition, name: string): LabelArgs {
    match e
    case AsWritten => [("fan", FanDetection.MetricLabel(name))]
    case Corrected =>
      [("fan", FanDetection.MetricLabel(name)),
       ("type", Lower(FanDetection.TypeName(FanDetection.Categorize(name))))]
  }

  /**
   The branch chain of the `for sensor in sensors` loop: the first test that
   holds decides the gauge. A Data sensor that is neither "Memory Used" nor
   "Memory Available", and any sensor no test accepts, updates nothing.
   */
  function Branch(s: WmiSensor): Option<Metric> {
    var t := s.sensorType;
    var n := s.name;
    var p := s.parent;
    if t == "Temperature" && CpuParent(p) then Some(CpuTemp)
    else if t == "Load" && CpuParent(p) then Some(CpuLoad)
    else if t == "Clock" && CpuParent(p) then Some(CpuClock)
    else if t == "Temperature" && GpuParent(p) then Some(GpuTemp)
    else if t == "Load" && GpuParent(p) then Some(GpuLoad)
    else if t == "SmallData" && Contains(n, "Memory Used") then Some(GpuMemory)
    else if t == "Clock" && GpuParent(p) then Some(GpuClock)
    else if t == "Fan" then Some(FanRpm)
    else if t == "Data" then
      if Contains(n, "Memory Used") then Some(MemoryUsed)
      else if Contains(n, "Memory Available") then Some(MemoryAvailable)
      else None
    else None
  }

  /** The `labels(...)` arguments each branch passes, derived from the name and the parent. */
  function ArgsFor(e: Edition, m: Metric, s: WmiSensor): LabelArgs {
    match m
    case CpuTemp => [("sensor", s.name)]
    case CpuLoad => [("core", CoreLabel(s.name))]
    case CpuClock => [("core", CoreLabel(s.name))]
    case GpuTemp => [("gpu", GpuName(s.parent))]
    case GpuLoad => [("gpu", GpuName(s.parent)), ("type", Subtype(s.name))]
    case GpuMemory => [("gpu", GpuName(s.parent))]
    case GpuClock => [("gpu", GpuName(s.parent)), ("type", Subtype(s.name))]
    case FanRpm => FanArgs(e, s.name)
    case MemoryUsed => []
    case MemoryAvailable => []
  }

  /** The body of the loop: the chosen gauge, its label arguments and the reading. */
  function Route(e: Edition, s: WmiSensor): Option<Update> {
    match Branch(s)
    case None => None
    case Some(m) => Some(Update(m, ArgsFor(e, m, s), Reading(s)))
  }

  /** Reference table: the test each gauge's branch applies, on its own. */
  predicate Accepts(m: Metric, s: WmiSensor) {
    var t := s.sensorType;
    match m
    case CpuTemp => t == "Temperature" && CpuParent(s.parent)
    case CpuLoad => t == "Load" && CpuParent(s.parent)
    case CpuClock => t == "Clock" && CpuParent(s.parent)
    case GpuTemp => t == "Temperature" && GpuParent(s.parent)
    case GpuLoad => t == "Load" && GpuParent(s.parent)
    case GpuMemory => t == "SmallData" && Contains(s.name, "Memory Used")
    case GpuClock => t == "Clock" && GpuParent(s.parent)
    case FanRpm => t == "Fan"
    case MemoryUsed => t == "Data" && Contains(s.name, "Memory Used")
    case MemoryAvailable => t == "Data" && Contains(s.name, "Memory Available")
  }

  /** The branches in source order. */
  const DispatchOrder: seq<Metric> :=
    [CpuTemp, CpuLoad, CpuClock, GpuTemp, GpuLoad, GpuMemory, GpuClock, FanRpm, MemoryUsed, MemoryAvailable]

  /** The first gauge in `order` whose test accepts the sensor. */
  function FirstAccepting(order: seq<Metric>, s: WmiSensor): (r: Option<Metric>)
    ensures r.Some? ==> Accepts(r.value, s)
    ensures r.None? ==> forall i :: 0 <= i < |order| ==> !Accepts(order[i], s)
  {
    if |order| == 0 then None
    else if Accepts(order[0], s) then Some(order[0])
    else FirstAccepting(order[1..], s)
  }

  /**
   Dispatch is first-match in source order: a sensor is routed exactly when
   some branch test accepts it, to the first such gauge; the value set is
   always the sensor's reading (0 for a missing value).
   */
  lemma RouteIsFirstMatch(e: Edition, s: WmiSensor)
    ensures Route(e, s).Some? <==> FirstAccepting(DispatchOrder, s).Some?
    ensures Route(e, s).Some? ==>
              && Route(e, s).value.metric == FirstAccepting(DispatchOrder, s).value
              && Route(e, s).value.value == Reading(s)
  {
    BranchIsFirstMatch(s);
  }

  lemma BranchIsFirstMatch(s: WmiSensor)
    ensures Branch(s) == FirstAccepting(DispatchOrder, s)
  {
    var o := DispatchOrder;
    assert o[0..] == o;
    UnfoldFirst(o, 0, s);
    UnfoldFirst(o, 1, s);
    UnfoldFirst(o, 2, s);
    UnfoldFirst(o, 3, s);
    UnfoldFirst(o, 4, s);
    UnfoldFirst(o, 5, s);
    UnfoldFirst(o, 6, s);
    UnfoldFirst(o, 7, s);
    UnfoldFirst(o, 8, s);
    UnfoldFirst(o, 9, s);
    assert o[10..] == [];
  }

  lemma UnfoldFirst(o: seq<Metric>, k: int, s: WmiSensor)
    requires 0 <= k < |o|
    ensures FirstAccepting(o[k..], s)
            == if Accepts(o[k], s) then Some(o[k]) else FirstAccepting(o[k + 1..], s)
  {
    assert o[k..][1..] == o[k + 1..];
  }

  /**
   A Temperature, Load or Clock sensor whose parent mentions "CPU" goes to a
   CPU gauge even when the parent also names a GPU vendor.
   */
  lemma CpuWinsOverGpu(e: Edition, s: WmiSensor)
    requires s.sensorType in ["Temperature", "Load", "Clock"] && CpuParent(s.parent)
    ensures Route(e, s).Some?
    ensures Route(e, s).value.metric in [CpuTemp, CpuLoad, CpuClock]
  {
  }

  /** "Memory Used" on a SmallData sensor goes to the GPU memory gauge whatever the parent. */
  lemma SmallDataMemoryIsGpuMemory(e: Edition, s: WmiSensor)
    requires s.sensorType == "SmallData" && Contains(s.name, "Memory Used")
    ensures Route(e, s) == Some(Update(GpuMemory, [("gpu", GpuName(s.parent))], Reading(s)))
  {
  }

  /** The editions differ only on Fan sensors. */
  lemma EditionsAgreeOffFans(s: WmiSensor)
    requires s.sensorType != "Fan"
    ensures Route(AsWritten, s) == Route(Corrected, s)
  {
  }

  /** A gauge series: the metric and its label values in declared order. */
  type GaugeKey = (Metric, seq<string>)

  type Gauges = map<GaugeKey, real>

  /** What the loop body does with one sensor. */
  datatype Outcome = Written(key: GaugeKey, value: real) | Ignored | Raised

  /**
   One sensor: routed and set, ignored, or raising ValueError in `labels`,
   which the loop's `except` logs before going on to the next sensor. The
   label-free gauges (`memory_used`, `memory_available`) are set directly,
   without `labels()`; resolving them with no arguments against no declared
   labels stands in for that and always succeeds with no label values.
   */
  function Step(e: Edition, s: WmiSensor): Outcome {
    match Route(e, s)
    case None => Ignored
    case Some(u) =>
      match ResolveLabels(u.metric, u.args)
      case None => Raised
      case Some(vals) => Written((u.metric, vals), u.value)
  }

  /**
   A "Data" sensor naming "Memory Used" or "Memory Available" sets the
   label-free system-memory gauge with its reading in both editions; it never
   raises, since no `labels()` call is made.
   */
  lemma SystemMemoryWritten(e: Edition, s: WmiSensor)
    requires s.sensorType == "Data"
    ensures Contains(s.name, "Memory Used") ==> Step(e, s) == Written((MemoryUsed, []), Reading(s))
    ensures !Contains(s.name, "Memory Used") && Contains(s.name, "Memory Available")
            ==> Step(e, s) == Written((MemoryAvailable, []), Reading(s))
    ensures !Contains(s.name, "Memory Used") && !Contains(s.name, "Memory Available") ==> Step(e, s) == Ignored
  {
    assert Branch(s) == if Contains(s.name, "Memory Used") then Some(MemoryUsed)
                        else if Contains(s.name, "Memory Available") then Some(MemoryAvailable)
                        else None;
    if Branch(s).Some? {
      var m := Branch(s).value;
      assert Route(e, s) == Some(Update(m, [], Reading(s)));
      ResolveNoLabels(m);
    }
  }

  /** With no declared labels, passing no arguments resolves to no label values. */
  lemma ResolveNoLabels(m: Metric)
    requires LabelNames(m) == []
    ensures ResolveLabels(m, []) == Some([])
  {
  }

  /** Reference for the gauges after a cycle: the value of the last sensor that set this series. */
  function LastWrite(e: Edition, sensors: seq<WmiSensor>, k: GaugeKey): Option<real> {
    if |sensors| == 0 then None
    else
      var o := Step(e, sensors[|sensors| - 1]);
      if o.Written? && o.key == k then Some(o.value) else LastWrite(e, sensors[..|sensors| - 1], k)
  }

  /** Reference for the debug log: the names of the sensors that raised, in order. */
  function RaisedNames(e: Edition, sensors: seq<WmiSensor>): seq<string> {
    if |sensors| == 0 then []
    else
      var last := sensors[|sensors| - 1];
      RaisedNames(e, sensors[..|sensors| - 1]) + (if Step(e, last).Raised? then [last.name] else [])
  }

  lemma LastWriteStep(e: Edition, sensors: seq<WmiSensor>, i: int, k: GaugeKey, o: Outcome)
    requires 0 <= i < |sensors| && o == Step(e, sensors[i])
    ensures LastWrite(e, sensors[..i + 1], k)
            == if o.Written? && o.key == k then Some(o.value) else LastWrite(e, sensors[..i], k)
  {
    assert sensors[..i + 1][..i] == sensors[..i];
  }

  lemma RaisedNamesStep(e: Edition, sensors: seq<WmiSensor>, i: int)
    requires 0 <= i < |sensors|
    ensures RaisedNames(e, sensors[..i + 1])
            == RaisedNames(e, sensors[..i]) + if Step(e, sensors[i]).Raised? then [sensors[i].name] else []
  {
    assert sensors[..i + 1][..i] == sensors[..i];
  }

  /** The gauges after one cycle, whether the "No sensors found" warning was logged, and the sensors skipped. */
  datatype Cycle = Cycle(gauges: Gauges, warnedNoSensors: bool, skipped: seq<string>)

  /**
   `g` holds what the loop has left after `sensors`: the series set by some
   sensor carry the last value written, the others keep their value in `gauges`.
   */
  ghost predicate GaugesAfter(e: Edition, sensors: seq<WmiSensor>, gauges: Gauges, g: Gauges) {
    && (forall k :: k in g <==> k in gauges || LastWrite(e, sensors, k).Some?)
    && (forall k :: k in g ==>
          g[k] == if LastWrite(e, sensors, k).Some? then LastWrite(e, sensors, k).value else gauges[k])
  }

  /** What one outcome does to the gauges: a write sets its series and nothing else. */
  function Apply(g: Gauges, o: Outcome): (r: Gauges)
    ensures o.Written? ==> o.key in r && r[o.key] == o.value
    ensures forall k :: (!o.Written? || k != o.key) ==> (k in r <==> k in g) && (k in r ==> r[k] == g[k])
  {
    if o.Written? then g[o.key := o.value] else g
  }

  /** One more sensor keeps the gauges in step with the sensors processed so far. */
  lemma ApplyKeepsGauges(e: Edition, sensors: seq<WmiSensor>, i: int, o: Outcome, gauges: Gauges, g: Gauges)
    requires 0 <= i < |sensors| && o == Step(e, sensors[i])
    requires GaugesAfter(e, sensors[..i], gauges, g)
    ensures GaugesAfter(e, sensors[..i + 1], gauges, Apply(g, o))
  {
    forall k {
      ApplyAt(e, sensors, i, o, gauges, g, k);
    }
  }

  lemma ApplyAt(e: Edition, sensors: seq<WmiSensor>, i: int, o: Outcome, gauges: Gauges, g: Gauges, k: GaugeKey)
    requires 0 <= i < |sensors| && o == Step(e, sensors[i])
    requires GaugesAfter(e, sensors[..i], gauges, g)
    ensures var r := Apply(g, o);
            var w := LastWrite(e, sensors[..i + 1], k);
            && (k in r <==> k in gauges || w.Some?)
            && (k in r ==> r[k] == if w.Some? then w.value else gauges[k])
  {
    LastWriteStep(e, sensors, i, k, o);
  }

  /**
   `update_metrics`, given the result of `w.Sensor()` (`None` when the query
   raised, which `get_sensors` turns into an empty list). An empty list logs
   the warning and sets nothing; otherwise every series ends with the value
   of the last sensor that set it, every other series is unchanged, and a
   sensor that raises is skipped without stopping the loop.
   */
  method UpdateMetrics(e: Edition, query: Option<seq<WmiSensor>>, gauges: Gauges) returns (c: Cycle)
    ensures c.warnedNoSensors <==> query.GetOr([]) == []
    ensures query.GetOr([]) == [] ==> c.gauges == gauges && c.skipped == []
    ensures forall k :: k in c.gauges <==> k in gauges || LastWrite(e, query.GetOr([]), k).Some?
    ensures forall k :: k in c.gauges ==>
              c.gauges[k] == if LastWrite(e, query.GetOr([]), k).Some?
                             then LastWrite(e, query.GetOr([]), k).value else gauges[k]
    ensures c.skipped == RaisedNames(e, query.GetOr([]))
  {
    var sensors := query.GetOr([]);
    if |sensors| == 0 {
      return Cycle(gauges, true, []);
    }
    var g := gauges;
    var skipped: seq<string> := [];
    for i := 0 to |sensors|
      invariant GaugesAfter(e, sensors[..i], gauges, g)
      invariant skipped == RaisedNames(e, sensors[..i])
    {
      var o := Step(e, sensors[i]);
      ApplyKeepsGauges(e, sensors, i, o, gauges, g);
      RaisedNamesStep(e, sensors, i);
      g := Apply(g, o);
      if o.Raised? {
        skipped := skipped + [sensors[i].name];
      }
    }
    assert sensors[..|sensors|] == sensors;
    c := Cycle(g, false, skipped);
  }

  lemma FanArgNamesAsWritten(name: string)
    ensures ArgNames(FanArgs(AsWritten, name)) == ["fan"]
  {
  }

  /**
   As written, every Fan sensor raises: `fan_rpm` is declared with the labels
   "fan" and "type" but `labels` is given "fan" alone.
   */
  lemma FanSensorRaisesAsWritten(s: WmiSensor)
    requires s.sensorType == "Fan"
    ensures Step(AsWritten, s) == Raised
  {
    FanArgNamesAsWritten(s.name);
    assert |multiset(ArgNames(FanArgs(AsWritten, s.name)))| == 1;
    assert |multiset(LabelNames(FanRpm))| == 2;
  }

  /** Hence, as written, no cycle ever sets a `fan_speed_rpm` series. */
  lemma {:induction false} FanGaugeNeverSetAsWritten(sensors: seq<WmiSensor>, vals: seq<string>)
    ensures LastWrite(AsWritten, sensors, (FanRpm, vals)) == None
  {
    if |sensors| > 0 {
      var last := sensors[|sensors| - 1];
      if last.sensorType == "Fan" {
        FanSensorRaisesAsWritten(last);
      }
      FanGaugeNeverSetAsWritten(sensors[..|sensors| - 1], vals);
    }
  }

  /**
   With both declared labels supplied, no sensor raises, and a Fan sensor
   sets the series labelled with the exporter's own fan label and, as `type`,
   its lower-cased test_fans.py category (the `type` value test_fans.py's
   summary table prints; its `fan` value is the category label instead).
   */
  lemma CorrectedNeverRaises(s: WmiSensor)
    ensures Step(Corrected, s) != Raised
    ensures s.sensorType == "Fan" ==>
              Step(Corrected, s)
              == Written((FanRpm, [FanDetection.MetricLabel(s.name),
                                   Lower(FanDetection.TypeName(FanDetection.Categorize(s.name)))]),
                         Reading(s))
  {
    CorrectedRouteResolves(s);
    if s.sensorType == "Fan" {
      CorrectedFanStep(s);
    }
  }

  lemma CorrectedRouteResolves(s: WmiSensor)
    ensures var u := Route(Corrected, s);
            u.Some? ==> ResolveLabels(u.value.metric, u.value.args).Some?
  {
    match Branch(s) {
      case None =>
      case Some(m) => CorrectedArgsMatch(m, s);
    }
  }

  lemma CorrectedFanStep(s: WmiSensor)
    requires s.sensorType == "Fan"
    ensures Step(Corrected, s)
            == Written((FanRpm, [FanDetection.MetricLabel(s.name),
                                 Lower(FanDetection.TypeName(FanDetection.Categorize(s.name)))]),
                       Reading(s))
  {
    FanBranch(s);
    CorrectedFanResolves(s.name);
  }

  /** A Fan sensor passes every earlier test of the chain and reaches the fan branch. */
  lemma FanBranch(s: WmiSensor)
    requires s.sensorType == "Fan"
    ensures Branch(s) == Some(FanRpm)
  {
  }

  lemma CorrectedFanResolves(name: string)
    ensures ResolveLabels(FanRpm, FanArgs(Corrected, name))
            == Some([FanDetection.MetricLabel(name), Lower(FanDetection.TypeName(FanDetection.Categorize(name)))])
  {
    FanPairResolves(FanDetection.MetricLabel(name), Lower(FanDetection.TypeName(FanDetection.Categorize(name))));
  }

  /** `fan_rpm.labels(fan=a, type=b)` yields the values `a`, `b` in declared order. */
  lemma FanPairResolves(a: string, b: string)
    ensures ResolveLabels(FanRpm, [("fan", a), ("type", b)]) == Some([a, b])
  {
    var args := [("fan", a), ("type", b)];
    assert ArgNames(args) == LabelNames(FanRpm);
    var r := ResolveLabels(FanRpm, args).value;
    assert args[1..][0] == args[1];
    assert ArgValue(args, "type") == ArgValue(args[1..], "type") == b;
    assert r == [a, b];
  }

  lemma CorrectedArgsMatch(m: Metric, s: WmiSensor)
    ensures ArgNames(ArgsFor(Corrected, m, s)) == LabelNames(m)
  {
  }

  lemma CpuFanLabelText()
    ensures FanDetection.MetricLabel("CPU Fan") == "cpu_fan"
  {
    LowerCpuFan();
    CpuFanSpaceReplaced();
    ReplaceAbsent("cpu_fan", "#", "");
  }

  lemma LowerCpuFan()
    ensures Lower("CPU Fan") == "cpu fan"
  {
  }

  lemma CpuFanSpaceReplaced()
    ensures ReplaceAll("cpu fan", " ", "_") == "cpu_fan"
  {
    assert "cpu" + " " + "fan" == "cpu fan";
    OneSpaceReplaced("cpu", "fan", "_");
  }

  lemma CpuFanCategory()
    ensures Lower(FanDetection.TypeName(FanDetection.Categorize("CPU Fan"))) == "cpu"
  {
    LowerCpuFan();
    CpuFanMentionsOnlyCpu();
    assert Lower("CPU") == "cpu";
  }

  lemma CpuFanMentionsOnlyCpu()
    ensures !Contains("cpu fan", "gpu") && !Contains("cpu fan", "vga") && Contains("cpu fan", "cpu")
  {
    AbsentHeadNotContained("cpu fan", "gpu");
    AbsentHeadNotContained("cpu fan", "vga");
    assert StartsWith("cpu fan", "cpu");
  }

  /**
   A motherboard fan reading 1200 RPM: as written its `labels` call raises
   and the reading is lost; with both labels it sets
   `fan_speed_rpm{fan="cpu_fan", type="cpu"}` to 1200.
   */
  lemma FanLabelCounterexample()
    ensures var s := WmiSensor("Fan", "CPU Fan", Some(1200.0), "/lpc/nct6798d");
            && Step(AsWritten, s) == Raised
            && Step(Corrected, s) == Written((FanRpm, ["cpu_fan", "cpu"]), 1200.0)
  {
    var s := WmiSensor("Fan", "CPU Fan", Some(1200.0), "/lpc/nct6798d");
    FanSensorRaisesAsWritten(s);
    CorrectedNeverRaises(s);
    CpuFanLabelText();
    CpuFanCategory();
  }

  /** The roles `get_system_info` fills in. */
  datatype Role = CpuRole | GpuRole | BoardRole

  /** The role of a hardware type: "CPU" or any type containing "Processor", then the two GPU types, then "Motherboard". */
  function RoleOf(hardwareType: string): Option<Role> {
    if hardwareType == "CPU" || Contains(hardwareType, "Processor") then Some(CpuRole)
    else if hardwareType == "GpuNvidia" || hardwareType == "GpuAmd" then Some(GpuRole)
    else if hardwareType == "Motherboard" then Some(BoardRole)
    else None
  }

  /**
   The role of one hardware entry. A type that is not a string has none:
   the loop raises on it before any role is chosen.
   */
  function HardwareRole(h: Hardware): Option<Role> {
    match h.hardwareType
    case Some(t) => RoleOf(t)
    case None => None
  }

  /**
   A non-string `HardwareType` fails `hw_type == "CPU"` and then raises
   TypeError in `"Processor" in hw_type`.
   */
  predicate RaisesInLoop(h: Hardware) {
    h.hardwareType.None?
  }

  /**
   Reference: the name of the last hardware of a role, if any; later
   hardware overwrites earlier.
   */
  function LastOfRole(hw: seq<Hardware>, role: Role): (r: Option<string>)
    ensures r.None? <==> forall i :: 0 <= i < |hw| ==> HardwareRole(hw[i]) != Some(role)
    ensures r.Some? ==> exists i :: 0 <= i < |hw| && HardwareRole(hw[i]) == Some(role) && hw[i].name == r.value
                                    && forall j :: i < j < |hw| ==> HardwareRole(hw[j]) != Some(role)
  {
    if |hw| == 0 then None
    else
      var last := hw[|hw| - 1];
      var p := hw[..|hw| - 1];
      if HardwareRole(last) == Some(role) then Some(last.name)
      else
        var r := LastOfRole(p, role);
        assert forall i :: 0 <= i < |p| ==> hw[i] == p[i];
        r
  }

  datatype SystemInfo = SystemInfo(cpu: string, gpu: string, motherboard: string)

  function Field(info: SystemInfo, role: Role): string {
    match role
    case CpuRole => info.cpu
    case GpuRole => info.gpu
    case BoardRole => info.motherboard
  }

  function WithField(info: SystemInfo, role: Role, name: string): (r: SystemInfo)
    ensures Field(r, role) == name
    ensures forall other :: other != role ==> Field(r, other) == Field(info, other)
  {
    match role
    case CpuRole => info.(cpu := name)
    case GpuRole => info.(gpu := name)
    case BoardRole => info.(motherboard := name)
  }

  const Unknown: string := "Unknown"

  /** The `if`/`elif` chain of the loop body: one hardware entry fills the field of its role, if it has one. */
  function Record(info: SystemInfo, h: Hardware): (r: SystemInfo)
    ensures forall role :: Field(r, role) == if HardwareRole(h) == Some(role) then h.name else Field(info, role)
  {
    match HardwareRole(h)
    case Some(role) => WithField(info, role, h.name)
    case None => info
  }

  /** Every field holds the name of the last entry of its role among `hw`, or "Unknown". */
  ghost predicate InfoAfter(hw: seq<Hardware>, info: SystemInfo) {
    forall role :: Field(info, role) == LastOfRole(hw, role).GetOr(Unknown)
  }

  lemma RecordKeepsInfo(hw: seq<Hardware>, i: int, info: SystemInfo)
    requires 0 <= i < |hw| && InfoAfter(hw[..i], info)
    ensures InfoAfter(hw[..i + 1], Record(info, hw[i]))
  {
    assert hw[..i + 1][..i] == hw[..i];
    assert hw[..i + 1][i] == hw[i];
  }

  /**
   `get_system_info`, given the result of `w.Hardware()` (`None` when it
   raised): every field starts as "Unknown" and takes the name of the last
   hardware of its role. The `try` covers the whole loop, so a failed query,
   or an entry on which the loop raises, leaves all three "Unknown" and
   discards the names found before it.
   */
  method GetSystemInfo(query: Option<seq<Hardware>>) returns (info: SystemInfo)
    ensures query.None? ==> info == SystemInfo(Unknown, Unknown, Unknown)
    ensures query.Some? && (exists i :: 0 <= i < |query.value| && RaisesInLoop(query.value[i]))
            ==> info == SystemInfo(Unknown, Unknown, Unknown)
    ensures query.Some? && (forall i :: 0 <= i < |query.value| ==> !RaisesInLoop(query.value[i]))
            ==> forall role :: Field(info, role) == LastOfRole(query.value, role).GetOr(Unknown)
  {
    info := SystemInfo(Unknown, Unknown, Unknown);
    if query.None? {
      return;
    }
    var hw := query.value;
    for i := 0 to |hw|
      invariant forall j :: 0 <= j < i ==> !RaisesInLoop(hw[j])
      invariant InfoAfter(hw[..i], info)
    {
      if RaisesInLoop(hw[i]) {
        info := SystemInfo(Unknown, Unknown, Unknown);
        return;
      }
      RecordKeepsInfo(hw, i, info);
      info := Record(info, hw[i]);
    }
    assert hw[..|hw|] == hw;
  }
}
