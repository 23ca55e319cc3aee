/**
 test_fans.py's `test_fan_detection`: pick the Fan sensors out of the WMI
 sensor list, categorise each by its name, give it a metric label, group the
 fans by category and decide the exit status. Printing is left out; what is
 printed is returned as data.
 */
module FanDetection {
  import opened Optional
  import opened Strings
  import opened Wmi

  datatype FanType = GpuFan | CpuFan | ChassisFan | OtherFan

  /** The category names the script uses as bucket keys and prints. */
  function TypeName(t: FanType): string {
    match t
    case GpuFan => "GPU"
    case CpuFan => "CPU"
    case ChassisFan => "Chassis"
    case OtherFan => "Other"
  }

  /**
   The category of a fan, decided on the lower-cased name in priority order:
   "gpu"/"vga", then "cpu", then "cha"/"chassis"/"case", then Other.
   */
  function Categorize(name: string): FanType {
    var l := Lower(name);
    if Contains(l, "gpu") || Contains(l, "vga") then GpuFan
    else if Contains(l, "cpu") then CpuFan
    else if Contains(l, "cha") || Contains(l, "chassis") || Contains(l, "case") then ChassisFan
    else OtherFan
  }

  lemma ChassisContainsCha()
    ensures Contains("chassis", "cha")
  {
    assert StartsWith("chassis", "cha");
  }

  /**
   The category rule stated as exclusions: a fan is Chassis exactly when its
   lower-cased name mentions neither "gpu", "vga" nor "cpu" but mentions "cha"
   or "case" (the "chassis" test adds nothing, as "chassis" contains "cha").
   */
  lemma CategorizeRule(name: string)
    ensures var l := Lower(name);
            && (Categorize(name) == GpuFan <==> Contains(l, "gpu") || Contains(l, "vga"))
            && (Categorize(name) == CpuFan <==> !Contains(l, "gpu") && !Contains(l, "vga") && Contains(l, "cpu"))
            && (Categorize(name) == ChassisFan
                <==> !Contains(l, "gpu") && !Contains(l, "vga") && !Contains(l, "cpu")
                     && (Contains(l, "cha") || Contains(l, "case")))
  {
    var l := Lower(name);
    if Contains(l, "chassis") {
      ChassisContainsCha();
      ContainsTransitive(l, "chassis", "cha");
    }
  }

  /**
   The metric label of a name: lower-cased, each space turned into '_', each
   '#' removed. test_fans.py gives it to Other fans and the exporter to every
   fan, with the same chain of `replace` calls.
   */
  function MetricLabel(name: string): string {
    ReplaceAll(ReplaceAll(Lower(name), " ", "_"), "#", "")
  }

  /** Reference for `MetricLabel`, one character of the name at a time. */
  function LabelChars(name: string): (r: string)
    ensures ' ' !in r && '#' !in r
    ensures forall x :: x in r ==> !('A' <= x <= 'Z')
  {
    if |name| == 0 then []
    else
      var c := name[0];
      (if c == ' ' then "_" else if c == '#' then "" else [LowerChar(c)]) + LabelChars(name[1..])
  }

  lemma {:induction false} MapLabelCharwise(name: string)
    ensures MapChar(MapChar(Lower(name), ' ', "_"), '#', "") == LabelChars(name)
  {
    if |name| > 0 {
      var c := name[0];
      assert Lower(name) == [LowerChar(c)] + Lower(name[1..]);
      MapCharConcat([LowerChar(c)], Lower(name[1..]), ' ', "_");
      var head := MapChar([LowerChar(c)], ' ', "_");
      MapCharConcat(head, MapChar(Lower(name[1..]), ' ', "_"), '#', "");
      MapLabelCharwise(name[1..]);
    }
  }

  /**
   The label chain is a per-character transform of the name, so a label never
   holds a space, a '#' or an upper-case ASCII letter, and is no longer than the name.
   */
  lemma MetricLabelCharwise(name: string)
    ensures MetricLabel(name) == LabelChars(name)
    ensures ' ' !in MetricLabel(name) && '#' !in MetricLabel(name)
    ensures |MetricLabel(name)| <= |name|
  {
    ReplaceSingleChar(Lower(name), ' ', "_");
    ReplaceSingleChar(ReplaceAll(Lower(name), " ", "_"), '#', "");
    MapLabelCharwise(name);
    LabelCharsLength(name);
  }

  lemma {:induction false} LabelCharsLength(name: string)
    ensures |LabelChars(name)| <= |name|
  {
    if |name| > 0 {
      LabelCharsLength(name[1..]);
    }
  }

  /** The GPU fan label: "1" anywhere in the name wins over "2". */
  function GpuLabel(name: string): string {
    if Contains(name, "1") then "gpu_fan_1" else if Contains(name, "2") then "gpu_fan_2" else "gpu_fan"
  }

  /** The chassis fan label as written, with both the digit and the "#k" tests. */
  function ChassisLabel(name: string): string {
    if Contains(name, "1") || Contains(name, "#1") then "chassis_fan_1"
    else if Contains(name, "2") || Contains(name, "#2") then "chassis_fan_2"
    else if Contains(name, "3") || Contains(name, "#3") then "chassis_fan_3"
    else if Contains(name, "4") || Contains(name, "#4") then "chassis_fan_4"
    else "chassis_fan"
  }

  /** Reference: the first of the digits 1 to 4 occurring in the name picks the chassis number. */
  function ChassisNumber(name: string): (r: Option<char>)
    ensures r.Some? ==> r.value in name && r.value in "1234"
  {
    if '1' in name then Some('1')
    else if '2' in name then Some('2')
    else if '3' in name then Some('3')
    else if '4' in name then Some('4')
    else None
  }

  lemma HashDigitHasDigit(name: string, d: char)
    requires Contains(name, ['#', d])
    ensures d in name
  {
    assert StartsWith(['#', d][1..], [d]);
    assert Contains(['#', d], [d]);
    ContainsTransitive(name, ['#', d], [d]);
    ContainsChar(name, d);
  }

  /** One digit test of `ChassisLabel`: "d in name or #d in name" is just "d occurs in the name". */
  lemma DigitTest(name: string, d: char)
    ensures Contains(name, [d]) || Contains(name, ['#', d]) <==> d in name
  {
    ContainsChar(name, d);
    if Contains(name, ['#', d]) {
      HashDigitHasDigit(name, d);
    }
  }

  /**
   The "#k" tests of the chassis rule are subsumed by the digit tests: the
   label is "chassis_fan_k" for the first k in 1..4 occurring in the name,
   and "chassis_fan" when none does.
   */
  lemma ChassisLabelByFirstDigit(name: string)
    ensures ChassisLabel(name) == match ChassisNumber(name)
                                  case Some(d) => "chassis_fan_" + [d]
                                  case None => "chassis_fan"
  {
    DigitTest(name, '1');
    DigitTest(name, '2');
    DigitTest(name, '3');
    DigitTest(name, '4');
  }

  /** The GPU label rule on characters: '1' anywhere gives fan 1, else '2' gives fan 2. */
  lemma GpuLabelByDigit(name: string)
    ensures GpuLabel(name) == "gpu_fan_1" <==> '1' in name
    ensures GpuLabel(name) == "gpu_fan_2" <==> '1' !in name && '2' in name
    ensures GpuLabel(name) == "gpu_fan" <==> '1' !in name && '2' !in name
  {
    ContainsChar(name, '1');
    ContainsChar(name, '2');
  }

  /** The label of a fan, by category. */
  function FanLabel(name: string): (r: string)
    ensures LabelShaped(r)
  {
    match Categorize(name)
    case GpuFan => GpuLabelShaped(name); GpuLabel(name)
    case CpuFan => assert LabelShaped("cpu_fan"); "cpu_fan"
    case ChassisFan => ChassisLabelShaped(name); ChassisLabel(name)
    case OtherFan => MetricLabelCharwise(name); MetricLabel(name)
  }

  /** A label holds no space, no '#' and no upper-case ASCII letter. */
  predicate LabelShaped(r: string) {
    ' ' !in r && '#' !in r && forall x :: x in r ==> !('A' <= x <= 'Z')
  }

  lemma GpuLabelShaped(name: string)
    ensures LabelShaped(GpuLabel(name))
  {
    assert LabelShaped("gpu_fan_1") && LabelShaped("gpu_fan_2") && LabelShaped("gpu_fan");
  }

  lemma ChassisLabelShaped(name: string)
    ensures LabelShaped(ChassisLabel(name))
  {
    ChassisLabelByFirstDigit(name);
    assert LabelShaped("chassis_fan_");
    match ChassisNumber(name) {
      case Some(d) =>
        assert d in "1234";
        assert LabelShaped([d]);
        ShapedConcat("chassis_fan_", [d]);
      case None =>
        assert LabelShaped("chassis_fan");
    }
  }

  lemma ShapedConcat(a: string, b: string)
    requires LabelShaped(a) && LabelShaped(b)
    ensures LabelShaped(a + b)
  {
  }

  /** One detected fan. */
  datatype Fan = Fan(fanType: FanType, name: string, fanLabel: string, rpm: real, parent: string)

  /** The record `all_fan_data` gets for a Fan sensor. */
  function FanOf(s: WmiSensor): Fan {
    Fan(Categorize(s.name), s.name, FanLabel(s.name), Reading(s), s.parent)
  }

  /** `all_fan_data`: the sensors whose `SensorType` is "Fan", in order, as fans. */
  function CollectFans(sensors: seq<WmiSensor>): (r: seq<Fan>)
    ensures |r| <= |sensors|
    ensures forall f :: f in r ==> exists i :: 0 <= i < |sensors| && sensors[i].sensorType == "Fan" && f == FanOf(sensors[i])
  {
    if |sensors| == 0 then []
    else
      var rest := CollectFans(sensors[1..]);
      assert forall f :: f in rest ==> exists i :: 1 <= i < |sensors| && sensors[i].sensorType == "Fan" && f == FanOf(sensors[i]) by {
        forall f | f in rest
          ensures exists i :: 1 <= i < |sensors| && sensors[i].sensorType == "Fan" && f == FanOf(sensors[i])
        {
          var j :| 0 <= j < |sensors[1..]| && sensors[1..][j].sensorType == "Fan" && f == FanOf(sensors[1..][j]);
          assert sensors[j + 1] == sensors[1..][j];
        }
      }
      (if sensors[0].sensorType == "Fan" then [FanOf(sensors[0])] else []) + rest
  }

  /**
   Collecting is done sensor by sensor: the fans of a concatenation are the
   fans of each part in order, and a single sensor yields its fan exactly when
   its type is "Fan". Together these fix the order and multiplicity of
   `all_fan_data`: one fan per Fan sensor, in the query's order.
   */
  lemma {:induction false} CollectFansAppend(a: seq<WmiSensor>, b: seq<WmiSensor>)
    ensures CollectFans(a + b) == CollectFans(a) + CollectFans(b)
  {
    if |a| == 0 {
      assert a + b == b;
    } else {
      assert (a + b)[0] == a[0];
      assert (a + b)[1..] == a[1..] + b;
      CollectFansAppend(a[1..], b);
      var head := if a[0].sensorType == "Fan" then [FanOf(a[0])] else [];
      assert CollectFans(a + b) == head + CollectFans(a[1..] + b);
      assert CollectFans(a) == head + CollectFans(a[1..]);
      assert head + (CollectFans(a[1..]) + CollectFans(b)) == (head + CollectFans(a[1..])) + CollectFans(b);
    }
  }

  lemma CollectFansOne(s: WmiSensor)
    ensures CollectFans([s]) == if s.sensorType == "Fan" then [FanOf(s)] else []
  {
    assert [s][1..] == [];
  }

  /** Every Fan sensor is collected: none is dropped. */
  lemma {:induction false} CollectFansComplete(sensors: seq<WmiSensor>, i: int)
    requires 0 <= i < |sensors| && sensors[i].sensorType == "Fan"
    ensures FanOf(sensors[i]) in CollectFans(sensors)
  {
    if i > 0 {
      CollectFansComplete(sensors[1..], i - 1);
    }
  }

  predicate HasType(fans: seq<Fan>, t: FanType) {
    exists i :: 0 <= i < |fans| && fans[i].fanType == t
  }

  /** Reference for one bucket: the fans of category `t`, in order. */
  function Bucket(fans: seq<Fan>, t: FanType): (r: seq<Fan>)
    ensures |r| <= |fans|
    ensures forall f :: f in r ==> f in fans && f.fanType == t
  {
    if |fans| == 0 then []
    else
      var last := fans[|fans| - 1];
      Bucket(fans[..|fans| - 1], t) + (if last.fanType == t then [last] else [])
  }

  /** Appending a fan extends its own bucket and no other. */
  lemma BucketStep(fans: seq<Fan>, i: int, u: FanType)
    requires 0 <= i < |fans|
    ensures Bucket(fans[..i + 1], u) == Bucket(fans[..i], u) + (if fans[i].fanType == u then [fans[i]] else [])
  {
    assert fans[..i + 1][..i] == fans[..i];
  }

  /** A category occurs among the first `i + 1` fans when it occurs among the first `i` or is the next fan's. */
  lemma HasTypeStep(fans: seq<Fan>, i: int, u: FanType)
    requires 0 <= i < |fans|
    ensures HasType(fans[..i + 1], u) <==> HasType(fans[..i], u) || fans[i].fanType == u
  {
    var prefix := fans[..i + 1];
    if HasType(prefix, u) && fans[i].fanType != u {
      var j :| 0 <= j < |prefix| && prefix[j].fanType == u;
      assert fans[..i][j] == prefix[j];
    }
    if HasType(fans[..i], u) {
      var j :| 0 <= j < i && fans[..i][j].fanType == u;
      assert prefix[j] == fans[..i][j];
    }
    if fans[i].fanType == u {
      assert prefix[i] == fans[i];
    }
  }

  lemma {:induction false} AbsentTypeEmptyBucket(fans: seq<Fan>, t: FanType)
    requires !HasType(fans, t)
    ensures Bucket(fans, t) == []
  {
    if |fans| > 0 {
      var p := fans[..|fans| - 1];
      assert forall j :: 0 <= j < |p| ==> p[j] == fans[j];
      AbsentTypeEmptyBucket(p, t);
    }
  }

  /** A category's bucket is empty exactly when no fan has that category. */
  lemma {:induction false} BucketEmptyIffAbsent(fans: seq<Fan>, t: FanType)
    ensures Bucket(fans, t) == [] <==> !HasType(fans, t)
  {
    if !HasType(fans, t) {
      AbsentTypeEmptyBucket(fans, t);
    } else {
      var i :| 0 <= i < |fans| && fans[i].fanType == t;
      BucketKeeps(fans, i);
    }
  }

  /** A fan of category `t` is in `t`'s bucket. */
  lemma {:induction false} BucketKeeps(fans: seq<Fan>, i: int)
    requires 0 <= i < |fans|
    ensures fans[i] in Bucket(fans, fans[i].fanType)
  {
    if i < |fans| - 1 {
      var p := fans[..|fans| - 1];
      assert p[i] == fans[i];
      BucketKeeps(p, i);
    }
  }

  /** `buckets` is the dictionary of categories and fans that `fans` yields. */
  predicate BucketsOf(buckets: map<FanType, seq<Fan>>, fans: seq<Fan>) {
    && (forall t :: t in buckets <==> HasType(fans, t))
    && (forall t :: t in buckets ==> buckets[t] == Bucket(fans, t))
  }

  /** `fans_by_type[fan['type']].append(fan)` on a `defaultdict(list)`. */
  function AddFan(buckets: map<FanType, seq<Fan>>, f: Fan): (r: map<FanType, seq<Fan>>)
    ensures f.fanType in r && r[f.fanType] == (if f.fanType in buckets then buckets[f.fanType] else []) + [f]
    ensures forall t :: t != f.fanType ==> (t in r <==> t in buckets) && (t in r ==> r[t] == buckets[t])
  {
    if f.fanType in buckets then buckets[f.fanType := buckets[f.fanType] + [f]]
    else buckets[f.fanType := [f]]
  }

  /** Appending the next fan keeps one category's entry in step with the fans seen so far. */
  lemma AddFanAt(fans: seq<Fan>, i: int, buckets: map<FanType, seq<Fan>>, u: FanType)
    requires 0 <= i < |fans| && BucketsOf(buckets, fans[..i])
    ensures var r := AddFan(buckets, fans[i]);
            && (u in r <==> HasType(fans[..i + 1], u))
            && (u in r ==> r[u] == Bucket(fans[..i + 1], u))
  {
    BucketStep(fans, i, u);
    HasTypeStep(fans, i, u);
    if u == fans[i].fanType && u !in buckets {
      AbsentTypeEmptyBucket(fans[..i], u);
    }
  }

  /** Appending the next fan keeps the dictionary in step with the fans seen so far. */
  lemma AddFanKeepsBuckets(fans: seq<Fan>, i: int, buckets: map<FanType, seq<Fan>>)
    requires 0 <= i < |fans| && BucketsOf(buckets, fans[..i])
    ensures BucketsOf(AddFan(buckets, fans[i]), fans[..i + 1])
  {
    forall u {
      AddFanAt(fans, i, buckets, u);
    }
  }

  /**
   The `fans_by_type` dictionary (a `defaultdict(list)`): a category is a key
   exactly when some fan has it, and its list holds that category's fans in order.
   */
  method BuildBuckets(fans: seq<Fan>) returns (buckets: map<FanType, seq<Fan>>)
    ensures forall t :: t in buckets <==> HasType(fans, t)
    ensures forall t :: t in buckets ==> buckets[t] == Bucket(fans, t)
  {
    buckets := map[];
    for i := 0 to |fans|
      invariant BucketsOf(buckets, fans[..i])
    {
      AddFanKeepsBuckets(fans, i, buckets);
      buckets := AddFan(buckets, fans[i]);
    }
    assert fans[..|fans|] == fans;
  }

  /** Each fan lands in exactly one bucket, so the four bucket sizes add up to the number of fans. */
  lemma {:induction false} BucketSizesSum(fans: seq<Fan>)
    ensures |Bucket(fans, GpuFan)| + |Bucket(fans, CpuFan)| + |Bucket(fans, ChassisFan)|
            + |Bucket(fans, OtherFan)| == |fans|
  {
    if |fans| > 0 {
      BucketSizesSum(fans[..|fans| - 1]);
    }
  }

  /** What the summary table prints for one fan: its labels and its status. */
  datatype SummaryRow = SummaryRow(fan: string, fanType: string, rpm: real, running: bool)

  /** One line of the summary table: RUNNING when the reading is positive. */
  function RowOf(f: Fan): SummaryRow {
    SummaryRow(f.fanLabel, Lower(TypeName(f.fanType)), f.rpm, f.rpm > 0.0)
  }

  /** The summary table: one row per fan of `all_fan_data`, in order. */
  function Summary(fans: seq<Fan>): (r: seq<SummaryRow>)
    ensures |r| == |fans|
  {
    seq(|fans|, i requires 0 <= i < |fans| => RowOf(fans[i]))
  }

  /** The `type` label values: each category name lower-cased. */
  function TypeLabel(t: FanType): string {
    match t
    case GpuFan => "gpu"
    case CpuFan => "cpu"
    case ChassisFan => "chassis"
    case OtherFan => "other"
  }

  /** `fan['type'].lower()` gives a different label for each category. */
  lemma TypeLabelIsLower(t: FanType)
    ensures Lower(TypeName(t)) == TypeLabel(t)
    ensures forall u :: TypeLabel(u) == TypeLabel(t) ==> u == t
  {
    match t
    case GpuFan => assert Lower("GPU") == "gpu";
    case CpuFan => assert Lower("CPU") == "cpu";
    case ChassisFan => assert Lower("Chassis") == "chassis";
    case OtherFan => assert Lower("Other") == "other";
  }

  /** The rows of the table whose `type` label is `typeLabel`, in order. */
  function RowsOfType(rows: seq<SummaryRow>, typeLabel: string): (r: seq<SummaryRow>)
    ensures |r| <= |rows|
  {
    if |rows| == 0 then []
    else
      var last := rows[|rows| - 1];
      RowsOfType(rows[..|rows| - 1], typeLabel) + (if last.fanType == typeLabel then [last] else [])
  }

  lemma SummaryAppendOne(fans: seq<Fan>, f: Fan)
    ensures Summary(fans + [f]) == Summary(fans) + [RowOf(f)]
  {
  }

  lemma RowsOfTypeAppendOne(rows: seq<SummaryRow>, row: SummaryRow, typeLabel: string)
    ensures RowsOfType(rows + [row], typeLabel)
            == RowsOfType(rows, typeLabel) + (if row.fanType == typeLabel then [row] else [])
  {
    assert (rows + [row])[..|rows|] == rows;
  }

  /** A row carries category `t`'s label exactly when its fan has category `t`. */
  lemma RowTypeLabel(f: Fan, t: FanType)
    ensures RowOf(f).fanType == TypeLabel(t) <==> f.fanType == t
  {
    TypeLabelIsLower(f.fanType);
  }

  /**
   The summary table agrees with the per-category listing: the rows typed
   with a category's label are, in order, the rows of that category's bucket.
   In particular the table shows as many rows of each type as the bucket has fans.
   */
  lemma {:induction false} SummaryByType(fans: seq<Fan>, t: FanType)
    ensures RowsOfType(Summary(fans), TypeLabel(t)) == Summary(Bucket(fans, t))
  {
    if |fans| > 0 {
      var p := fans[..|fans| - 1];
      var last := fans[|fans| - 1];
      assert fans == p + [last];
      SummaryByType(p, t);
      SummaryAppendOne(p, last);
      RowsOfTypeAppendOne(Summary(p), RowOf(last), TypeLabel(t));
      RowTypeLabel(last, t);
      if last.fanType == t {
        SummaryAppendOne(Bucket(p, t), last);
      }
    }
  }

  /** The number of rows showing RUNNING. */
  function RunningRows(rows: seq<SummaryRow>): nat {
    if |rows| == 0 then 0 else (if rows[0].running then 1 else 0) + RunningRows(rows[1..])
  }

  /** The number of fans with a positive reading. */
  function Spinning(fans: seq<Fan>): nat {
    if |fans| == 0 then 0 else (if fans[0].rpm > 0.0 then 1 else 0) + Spinning(fans[1..])
  }

  /** The table shows RUNNING for exactly as many rows as there are fans with a positive reading. */
  lemma {:induction false} SummaryRunning(fans: seq<Fan>)
    ensures RunningRows(Summary(fans)) == Spinning(fans)
  {
    if |fans| > 0 {
      assert Summary(fans)[1..] == Summary(fans[1..]);
      SummaryRunning(fans[1..]);
    }
  }

  /** The outcome of `test_fan_detection`: the exit status and what was found. */
  datatype Detection = Detection(exitCode: int, fans: seq<Fan>, buckets: map<FanType, seq<Fan>>, summary: seq<SummaryRow>)

  /**
   `test_fan_detection`, given the result of the WMI sensor query (`None`
   when connecting or querying failed): 1 when the query failed or found no
   fan, else 0 with the fans, their buckets and the summary table.
   */
  method DetectFans(query: Option<seq<WmiSensor>>) returns (d: Detection)
    ensures d.exitCode == 0 || d.exitCode == 1
    ensures d.exitCode == 1 <==> query.None? || CollectFans(query.value) == []
    ensures query.Some? ==> d.fans == CollectFans(query.value)
    ensures query.None? ==> d.fans == []
    ensures forall t :: t in d.buckets <==> Bucket(d.fans, t) != []
    ensures forall t :: t in d.buckets ==> d.buckets[t] == Bucket(d.fans, t)
    ensures d.exitCode == 0 ==> d.summary == Summary(d.fans)
    ensures d.exitCode == 1 ==> d.summary == []
  {
    if query.None? {
      return Detection(1, [], map[], []);
    }
    var fans := CollectFans(query.value);
    var buckets := BuildBuckets(fans);
    forall t {
      BucketEmptyIffAbsent(fans, t);
    }
    if fans == [] {
      return Detection(1, fans, buckets, []);
    }
    d := Detection(0, fans, buckets, Summary(fans));
  }
}
