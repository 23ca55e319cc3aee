/**
 sensor_discovery.py's two "special investigations": the CPU/GPU keyword
 walk (`investigate_cpu_gpu_sensors`) and the fan walk with RPM status
 (`investigate_fan_sensors`). Both visit every object of the tree,
 parent before children; what they print is returned as data.
 */
module Investigation {
  import opened Optional
  import opened Strings
  import opened SensorTree
  import opened TreeWalk
  import opened ValueParsing

  datatype HardwareKind = Cpu | Gpu

  const CpuKeywords: seq<string> := ["ryzen", "intel", "cpu", "processor"]
  const GpuKeywords: seq<string> := ["geforce", "radeon", "nvidia", "amd"]

  /** The eight keywords of the first test, in source order. */
  const HardwareKeywords: seq<string> := CpuKeywords + GpuKeywords

  /** `any(keyword in text for keyword in keywords)`. */
  predicate AnyKeyword(text: string, keywords: seq<string>) {
    exists i :: 0 <= i < |keywords| && Contains(text, keywords[i])
  }

  /**
   The CPU/GPU test on a node's Text: investigated when the lower-cased text
   holds any of the eight keywords; CPU when it holds a CPU keyword, else GPU.
   */
  function ClassifyHardware(text: string): Option<HardwareKind> {
    var t := Lower(text);
    if AnyKeyword(t, HardwareKeywords) then Some(if AnyKeyword(t, CpuKeywords) then Cpu else Gpu)
    else None
  }

  lemma AnyKeywordConcat(t: string, a: seq<string>, b: seq<string>)
    ensures AnyKeyword(t, a + b) <==> AnyKeyword(t, a) || AnyKeyword(t, b)
  {
    if AnyKeyword(t, b) {
      var i :| 0 <= i < |b| && Contains(t, b[i]);
      assert (a + b)[|a| + i] == b[i];
    }
    if AnyKeyword(t, a) {
      var i :| 0 <= i < |a| && Contains(t, a[i]);
      assert (a + b)[i] == a[i];
    }
    if AnyKeyword(t, a + b) {
      var i :| 0 <= i < |a + b| && Contains(t, (a + b)[i]);
      if i >= |a| {
        assert (a + b)[i] == b[i - |a|];
      }
    }
  }

  /**
   The classification rule in full: a CPU keyword makes the node a CPU even
   when a GPU keyword (amd, nvidia, geforce, radeon) is present too; a GPU
   keyword alone makes it a GPU; no keyword leaves it uninvestigated.
   */
  lemma ClassifyHardwareRule(text: string)
    ensures ClassifyHardware(text) == Some(Cpu) <==> AnyKeyword(Lower(text), CpuKeywords)
    ensures ClassifyHardware(text) == Some(Gpu)
            <==> AnyKeyword(Lower(text), GpuKeywords) && !AnyKeyword(Lower(text), CpuKeywords)
    ensures ClassifyHardware(text) == None
            <==> !AnyKeyword(Lower(text), CpuKeywords) && !AnyKeyword(Lower(text), GpuKeywords)
  {
    AnyKeywordConcat(Lower(text), CpuKeywords, GpuKeywords);
  }

  /** "AMD Ryzen 7" names a GPU vendor and a CPU line; the CPU keyword wins. */
  lemma CpuKeywordWinsExample()
    ensures AnyKeyword(Lower("AMD Ryzen 7"), GpuKeywords)
    ensures ClassifyHardware("AMD Ryzen 7") == Some(Cpu)
  {
    var t := Lower("AMD Ryzen 7");
    assert t == "amd ryzen 7";
    assert StartsWith(t, "amd");
    assert Contains(t, GpuKeywords[3]);
    assert t[4..9] == "ryzen";
    OccursImpliesContains(t, "ryzen", 4);
    assert Contains(t, CpuKeywords[0]);
    ClassifyHardwareRule("AMD Ryzen 7");
  }

  /** A node without Text (read as "") is never investigated. */
  lemma EmptyTextNotInvestigated()
    ensures ClassifyHardware("") == None
  {
    assert Lower("") == "";
    forall i | 0 <= i < |HardwareKeywords|
      ensures !Contains("", HardwareKeywords[i])
    {
      assert |HardwareKeywords[i]| > 0;
    }
  }

  /** One category line: its name, its `count_sensors`, and the up-to-two sample sensors shown. */
  datatype Category = Category(name: string, sensors: nat, samples: seq<Node>)

  /** One investigated CPU or GPU node. */
  datatype Inspection = Inspection(kind: HardwareKind, hardware: string, categories: seq<Category>)

  /**
   A category: `count_sensors(category)`, and when positive the sensors
   `find_and_show_sensors(category, max_sensors=2)` prints, which are the
   first min(2, count) sensors of its depth-first order.
   */
  function CategoryOf(c: Node): (r: Category)
    requires c.Dict? && c.text.Some?
    ensures r.name == c.text.value && r.sensors == Count(SensorDiscovery, c)
    ensures r.samples == Sensors(SensorDiscovery, c)[..Min(2, r.sensors)]
  {
    var k := Count(SensorDiscovery, c);
    FindAndShowCounts(SensorDiscovery, c, 2, 0);
    Category(c.text.value, k, if k > 0 then FindAndShow(SensorDiscovery, c, 2, 0).sensors else [])
  }

  /** The categories of an investigated node: its children that are objects with a Text. */
  function Categories(ks: seq<Node>): (r: seq<Category>)
    ensures |r| <= |ks|
    ensures forall c :: c in r ==> |c.samples| == Min(2, c.sensors)
  {
    if |ks| == 0 then []
    else (if ks[0].Dict? && ks[0].text.Some? then [CategoryOf(ks[0])] else []) + Categories(ks[1..])
  }

  /**
   Reference enumeration: every object of the tree reached through `Children`
   lists, parent before children, the order both investigations visit them in.
   */
  function Objects(n: Node): (r: seq<Node>)
    ensures forall x :: x in r ==> x.Dict?
    decreases n, 1
  {
    match n
    case NotDict => []
    case Dict(_, _, _, _, children) =>
      [n] + (match children
             case Items(ks) => ObjectsAll(ks)
             case _ => [])
  }

  function ObjectsAll(ks: seq<Node>): (r: seq<Node>)
    ensures forall x :: x in r ==> x.Dict?
    decreases ks, 0
  {
    if |ks| == 0 then [] else Objects(ks[0]) + ObjectsAll(ks[1..])
  }

  /** What `investigate_cpu_gpu_sensors` prints at one object, before walking on. */
  function InspectionsAt(x: Node): (r: seq<Inspection>)
    ensures forall y :: y in r ==> ClassifyHardware(y.hardware) == Some(y.kind)
  {
    match x
    case NotDict => []
    case Dict(text, _, _, _, _) =>
      EmptyTextNotInvestigated();
      match ClassifyHardware(text.GetOr(""))
      case Some(k) => [Inspection(k, text.GetOr("Unknown"), Categories(Kids(x)))]
      case None => []
  }

  /**
   `investigate_cpu_gpu_sensors`: every object is classified, parent first; an
   investigated node reports its kind, its Text and its categories. Each
   report's kind is the one its own Text classifies to.
   */
  function Investigate(n: Node): (r: seq<Inspection>)
    ensures forall x :: x in r ==> ClassifyHardware(x.hardware) == Some(x.kind)
    decreases n, 1
  {
    match n
    case NotDict => []
    case Dict(_, _, _, _, children) =>
      InspectionsAt(n) + (match children
                          case Items(ks) => InvestigateAll(ks)
                          case _ => [])
  }

  function InvestigateAll(ks: seq<Node>): (r: seq<Inspection>)
    ensures forall x :: x in r ==> ClassifyHardware(x.hardware) == Some(x.kind)
    decreases ks, 0
  {
    if |ks| == 0 then [] else Investigate(ks[0]) + InvestigateAll(ks[1..])
  }

  /** The reports of a list of objects, one object after the other. */
  function InspectObjects(xs: seq<Node>): seq<Inspection>
  {
    if |xs| == 0 then [] else InspectionsAt(xs[0]) + InspectObjects(xs[1..])
  }

  lemma {:induction false} InspectObjectsConcat(a: seq<Node>, b: seq<Node>)
    ensures InspectObjects(a + b) == InspectObjects(a) + InspectObjects(b)
  {
    if |a| > 0 {
      assert (a + b)[0] == a[0];
      assert (a + b)[1..] == a[1..] + b;
      InspectObjectsConcat(a[1..], b);
    } else {
      assert a + b == b;
    }
  }

  /**
   The recursive walk prints exactly what visiting the objects of the tree
   one by one, in pre-order, prints.
   */
  lemma {:induction false} InvestigateIsPerObject(n: Node)
    ensures Investigate(n) == InspectObjects(Objects(n))
    decreases n, 1
  {
    match n
    case NotDict =>
    case Dict(_, _, _, _, children) =>
      var rest := match children case Items(ks) => ObjectsAll(ks) case _ => [];
      InspectObjectsConcat([n], rest);
      match children {
        case Items(ks) => InvestigateAllIsPerObject(ks);
        case NoChildren =>
        case NotAList =>
      }
  }

  lemma {:induction false} InvestigateAllIsPerObject(ks: seq<Node>)
    ensures InvestigateAll(ks) == InspectObjects(ObjectsAll(ks))
    decreases ks, 0
  {
    if |ks| > 0 {
      InvestigateIsPerObject(ks[0]);
      InvestigateAllIsPerObject(ks[1..]);
      InspectObjectsConcat(Objects(ks[0]), ObjectsAll(ks[1..]));
    }
  }

  lemma {:induction false} InspectObjectsMember(xs: seq<Node>, i: int)
    requires 0 <= i < |xs|
    ensures forall y :: y in InspectionsAt(xs[i]) ==> y in InspectObjects(xs)
  {
    assert InspectObjects(xs) == InspectionsAt(xs[0]) + InspectObjects(xs[1..]);
    if i > 0 {
      assert xs[1..][i - 1] == xs[i];
      InspectObjectsMember(xs[1..], i - 1);
    }
  }

  /**
   No investigated object is missed: every object of the tree whose Text
   classifies to a kind is reported with that kind, its Text and its categories.
   */
  lemma InvestigateComplete(n: Node, x: Node, k: HardwareKind)
    requires x in Objects(n) && ClassifyHardware(x.text.GetOr("")) == Some(k)
    ensures Inspection(k, x.text.GetOr("Unknown"), Categories(Kids(x))) in Investigate(n)
  {
    InvestigateIsPerObject(n);
    var xs := Objects(n);
    var i :| 0 <= i < |xs| && xs[i] == x;
    InspectObjectsMember(xs, i);
  }

  /** The status line printed for a fan reading. */
  datatype RpmStatus = Stopped | Running | HighSpeed

  /** 0 RPM is stopped, any other value below 1000 is running, 1000 or more is high speed. */
  function RpmStatusOf(rpm: real): RpmStatus {
    if rpm == 0.0 then Stopped else if rpm < 1000.0 then Running else HighSpeed
  }

  /**
   The RPM status of a fan value: only for a truthy value whose text contains
   "RPM"; the unit is removed, a comma becomes a point, the text is stripped
   and parsed; a parse failure is silently skipped.
   */
  function FanStatus(v: Scalar): (r: Option<RpmStatus>)
    ensures r.Some? ==> Truthy(v) && Contains(Render(v), "RPM")
  {
    if Truthy(v) && Contains(Render(v), "RPM") then
      match ParseFloat(Strip(ReplaceAll(ReplaceAll(Render(v), "RPM", ""), ",", ".")))
      case Some(rpm) => Some(RpmStatusOf(rpm))
      case None => None
    else None
  }

  lemma StripDigitsAndSpace(d: string)
    requires AllDigits(d)
    ensures Strip(d + " ") == d
  {
    assert (d + " ")[0] == d[0];
    assert d[0] in d;
    assert StripLeft(d + " ") == d + " ";
    assert (d + " ")[..|d + " "| - 1] == d;
    assert d[|d| - 1] in d;
    assert StripRight(d) == d;
  }

  lemma RpmUnitRemoved()
    ensures ReplaceAll(" RPM", "RPM", "") == " "
  {
    assert StartsWith("RPM", "RPM");
    assert ReplaceAll("RPM", "RPM", "") == "" + ReplaceAll("", "RPM", "");
    assert " RPM"[1..] == "RPM";
  }

  predicate AllDigits(d: string) {
    |d| > 0 && forall c :: c in d ==> IsDigit(c)
  }

  lemma RpmTextContainsUnit(d: string)
    ensures Contains(d + " RPM", "RPM")
  {
    var s := d + " RPM";
    assert s[|d| + 1..|d| + 4] == "RPM";
    assert OccursAt(s, "RPM", |d| + 1);
    OccursImpliesContains(s, "RPM", |d| + 1);
  }

  lemma RpmTextUnitless(d: string)
    requires AllDigits(d)
    ensures ReplaceAll(d + " RPM", "RPM", "") == d + " "
  {
    assert !IsDigit('R');
    ReplaceAfterAbsent(d, " RPM", "RPM", "");
    RpmUnitRemoved();
  }

  lemma DigitsSpaceNoComma(d: string)
    requires AllDigits(d)
    ensures ReplaceAll(d + " ", ",", ".") == d + " "
  {
    assert !IsDigit(',');
    ReplaceAbsent(d + " ", ",", ".");
  }

  /** The digits of "<digits> RPM" are what the fan test parses. */
  lemma RpmTextCleans(d: string)
    requires AllDigits(d)
    ensures Contains(d + " RPM", "RPM")
    ensures Strip(ReplaceAll(ReplaceAll(d + " RPM", "RPM", ""), ",", ".")) == d
  {
    RpmTextContainsUnit(d);
    RpmTextUnitless(d);
    DigitsSpaceNoComma(d);
    StripDigitsAndSpace(d);
  }

  /**
   A reading rendered as "<n> RPM" gets the status of n: Stopped for 0,
   Running below 1000, High Speed from 1000 on.
   */
  lemma FanStatusOfReading(n: nat)
    ensures FanStatus(Str(NatText(n) + " RPM"))
            == Some(if n == 0 then Stopped else if n < 1000 then Running else HighSpeed)
  {
    var d := NatText(n);
    RpmTextCleans(d);
    ParseNatText(n);
    assert Render(Str(d + " RPM")) == d + " RPM";
  }

  /** A category found under a node: its printed name, its `count_sensors`, and the node itself. */
  datatype FanSource = FanSource(name: string, fanSensors: nat, node: Node)

  predicate FanNamed(n: Node) {
    n.Dict? && Contains(Lower(n.text.GetOr("")), "fan")
  }

  predicate CountedSources(srcs: seq<FanSource>) {
    forall s :: s in srcs ==> s.fanSensors > 0 && s.fanSensors == Count(SensorDiscovery, s.node)
  }

  /** A node the fan walk lists as a category: fan-named, with at least one counted sensor. */
  predicate Qualifies(g: Node) {
    FanNamed(g) && Count(SensorDiscovery, g) > 0
  }

  /** The category listed for a qualifying grandchild `g` under a child with Text `parent`. */
  function GrandSource(parent: string, g: Node): FanSource
    requires g.Dict?
  {
    FanSource(parent + "/" + g.text.GetOr(""), Count(SensorDiscovery, g), g)
  }

  /**
   The grandchild scan under a child whose Text does not mention fans. The
   category name reads `child['Text']`, so a child without Text raises
   KeyError (None) as soon as a counted fan grandchild is met.
   */
  function GrandchildSources(childText: Option<string>, gs: seq<Node>): (r: Option<seq<FanSource>>)
    ensures r.Some? ==> CountedSources(r.value)
    ensures r.None? ==> childText.None?
  {
    if |gs| == 0 then Some([])
    else
      var g := gs[0];
      if Qualifies(g) then
        if childText.None? then None
        else match GrandchildSources(childText, gs[1..])
          case Some(rest) => Some([GrandSource(childText.value, g)] + rest)
          case None => None
      else GrandchildSources(childText, gs[1..])
  }

  /**
   The grandchild scan raises exactly when the child lacks Text and some
   grandchild qualifies; otherwise every qualifying grandchild is listed, under
   the name "<child Text>/<grandchild Text>", and nothing else is.
   */
  lemma {:induction false} GrandchildSourcesExact(childText: Option<string>, gs: seq<Node>)
    ensures GrandchildSources(childText, gs).None?
            <==> childText.None? && exists i :: 0 <= i < |gs| && Qualifies(gs[i])
    ensures childText.Some? ==> forall i :: 0 <= i < |gs| && Qualifies(gs[i])
                                  ==> GrandSource(childText.value, gs[i]) in GrandchildSources(childText, gs).value
    ensures childText.Some? ==> forall s :: s in GrandchildSources(childText, gs).value
                                  ==> s.node in gs && Qualifies(s.node) && s == GrandSource(childText.value, s.node)
    ensures childText.None? && GrandchildSources(childText, gs).Some? ==> GrandchildSources(childText, gs).value == []
  {
    if |gs| > 0 {
      GrandchildSourcesExact(childText, gs[1..]);
      forall i | 1 <= i < |gs|
        ensures gs[i] == gs[1..][i - 1]
      {
      }
      if childText.None? && !Qualifies(gs[0]) && GrandchildSources(childText, gs).None? {
        var j :| 0 <= j < |gs[1..]| && Qualifies(gs[1..][j]);
        assert Qualifies(gs[j + 1]);
      }
    }
  }

  /**
   One child of a node: a fan-named child is a category itself when it has
   counted sensors; only other children with a `Children` field have their
   own children scanned.
   */
  function ChildSources(child: Node): (r: Option<seq<FanSource>>)
    ensures r.Some? ==> CountedSources(r.value)
    ensures r.None? ==> child.Dict? && child.text.None?
  {
    if child.NotDict? then Some([])
    else if FanNamed(child) then
      var k := Count(SensorDiscovery, child);
      Some(if k > 0 then [FanSource(child.text.GetOr(""), k, child)] else [])
    else if child.children.NoChildren? then Some([])
    else GrandchildSources(child.text, Kids(child))
  }

  /** A fan-named child is never descended into: it contributes at most itself. */
  lemma FanNamedChildNotDescended(child: Node)
    requires FanNamed(child)
    ensures ChildSources(child).Some?
    ensures |ChildSources(child).value| <= 1
    ensures forall s :: s in ChildSources(child).value ==> s.node == child
  {
  }

  /**
   A child raises KeyError exactly when it is an object without Text that has
   a `Children` field holding a qualifying grandchild.
   */
  lemma ChildSourcesAborts(child: Node)
    ensures ChildSources(child).None?
            <==> child.Dict? && child.text.None? && !child.children.NoChildren?
                 && exists j :: 0 <= j < |Kids(child)| && Qualifies(Kids(child)[j])
  {
    if child.Dict? {
      if child.text.None? {
        assert Lower("") == "";
        assert !Contains("", "fan");
      }
      GrandchildSourcesExact(child.text, Kids(child));
    }
  }

  /** The `fan_categories` list of one node; the first KeyError aborts it. */
  function NodeSources(ks: seq<Node>): (r: Option<seq<FanSource>>)
    ensures r.Some? ==> CountedSources(r.value)
    ensures r.None? ==> exists i :: 0 <= i < |ks| && ks[i].Dict? && ks[i].text.None?
  {
    if |ks| == 0 then Some([])
    else match ChildSources(ks[0])
      case None => None
      case Some(first) =>
        match NodeSources(ks[1..])
        case Some(rest) => Some(first + rest)
        case None => assert ks[1..][0] == ks[1]; None
  }

  /**
   A node's scan raises exactly when one of its children's does; otherwise
   every category any child contributes is in the node's list.
   */
  lemma {:induction false} NodeSourcesExact(ks: seq<Node>)
    ensures NodeSources(ks).None? <==> exists i :: 0 <= i < |ks| && ChildSources(ks[i]).None?
    ensures NodeSources(ks).Some? ==>
              forall i, s :: 0 <= i < |ks| && ChildSources(ks[i]).Some? && s in ChildSources(ks[i]).value
                ==> s in NodeSources(ks).value
  {
    if |ks| > 0 {
      NodeSourcesExact(ks[1..]);
      forall i | 1 <= i < |ks|
        ensures ks[i] == ks[1..][i - 1]
      {
      }
      if NodeSources(ks).None? && ChildSources(ks[0]).Some? {
        var j :| 0 <= j < |ks[1..]| && ChildSources(ks[1..][j]).None?;
        assert ChildSources(ks[j + 1]).None?;
      }
    }
  }

  /**
   No fan category is missed: when a node's scan completes, every fan-named
   child with counted sensors is listed under its own Text, and every
   qualifying grandchild below a Text-carrying child that is not fan-named is
   listed as "<child>/<grandchild>".
   */
  lemma NodeSourcesComplete(ks: seq<Node>, i: int)
    requires 0 <= i < |ks| && ks[i].Dict? && NodeSources(ks).Some?
    ensures Qualifies(ks[i]) ==> FanSource(ks[i].text.GetOr(""), Count(SensorDiscovery, ks[i]), ks[i]) in NodeSources(ks).value
    ensures !FanNamed(ks[i]) && !ks[i].children.NoChildren? && ks[i].text.Some? ==>
              forall j :: 0 <= j < |Kids(ks[i])| && Qualifies(Kids(ks[i])[j])
                ==> GrandSource(ks[i].text.value, Kids(ks[i])[j]) in NodeSources(ks).value
  {
    NodeSourcesExact(ks);
    GrandchildSourcesExact(ks[i].text, Kids(ks[i]));
  }

  /** One printed fan line: name, value, and the status when one was computed. */
  datatype FanReading = FanReading(name: string, value: Scalar, status: Option<RpmStatus>)

  /** The children of a category that are objects with a `Value` field. */
  function Readings(ks: seq<Node>): (r: seq<FanReading>)
    ensures |r| <= |ks|
  {
    if |ks| == 0 then []
    else
      var f := ks[0];
      (if f.Dict? && f.value.Some?
       then [FanReading(f.text.GetOr("Unknown"), f.value.value, FanStatus(f.value.value))]
       else [])
      + Readings(ks[1..])
  }

  datatype FanCategory = FanCategory(name: string, fanSensors: nat, fans: seq<FanReading>)

  /** The fans found under one node. */
  datatype FanReport = FanReport(hardware: string, categories: seq<FanCategory>)

  /** Everything printed by the walk, and whether a KeyError ended it early. */
  datatype FanScan = FanScan(reports: seq<FanReport>, aborted: bool)

  function ToCategories(srcs: seq<FanSource>): (r: seq<FanCategory>)
    ensures |r| == |srcs|
    ensures forall i :: 0 <= i < |r| ==> r[i].name == srcs[i].name && r[i].fanSensors == srcs[i].fanSensors
  {
    if |srcs| == 0 then []
    else [FanCategory(srcs[0].name, srcs[0].fanSensors, Readings(Kids(srcs[0].node)))] + ToCategories(srcs[1..])
  }

  /** Every reported node has at least one category, and every category at least one counted sensor. */
  predicate WellFormedReports(reports: seq<FanReport>) {
    forall rep :: rep in reports ==>
      |rep.categories| > 0 && forall c :: c in rep.categories ==> c.fanSensors > 0
  }

  /**
   What `investigate_fan_sensors` prints at one object before walking on: its
   report when it has fan categories, nothing when it has none, and None when
   collecting them raises KeyError.
   */
  function FanReportsAt(x: Node): (r: Option<seq<FanReport>>)
    ensures r.Some? ==> WellFormedReports(r.value)
  {
    match x
    case NotDict => Some([])
    case Dict(text, _, _, _, _) =>
      match NodeSources(Kids(x))
      case None => None
      case Some(srcs) => Some(if |srcs| > 0 then [FanReport(text.GetOr("Unknown"), ToCategories(srcs))] else [])
  }

  /**
   `investigate_fan_sensors`: each object lists its fan categories (reported
   only when there is at least one), then its children are walked in order.
   A KeyError ends the whole walk, keeping what was printed before it.
   */
  function InvestigateFans(n: Node): (r: FanScan)
    ensures WellFormedReports(r.reports)
    decreases n, 1
  {
    match n
    case NotDict => FanScan([], false)
    case Dict(_, _, _, _, children) =>
      match FanReportsAt(n)
      case None => FanScan([], true)
      case Some(own) =>
        match children
        case Items(ks) =>
          var rest := InvestigateFansAll(ks);
          FanScan(own + rest.reports, rest.aborted)
        case _ => FanScan(own, false)
  }

  function InvestigateFansAll(ks: seq<Node>): (r: FanScan)
    ensures WellFormedReports(r.reports)
    decreases ks, 0
  {
    if |ks| == 0 then FanScan([], false)
    else Then(InvestigateFans(ks[0]), InvestigateFansAll(ks[1..]))
  }

  /** One part of the walk followed by another: an abort in the first ends it. */
  function Then(p: FanScan, q: FanScan): (r: FanScan)
    ensures WellFormedReports(p.reports) && WellFormedReports(q.reports) ==> WellFormedReports(r.reports)
  {
    if p.aborted then p else FanScan(p.reports + q.reports, q.aborted)
  }

  /** Visiting a list of objects one by one, stopping at the first KeyError. */
  function ScanObjects(xs: seq<Node>): FanScan
  {
    if |xs| == 0 then FanScan([], false)
    else match FanReportsAt(xs[0])
      case None => FanScan([], true)
      case Some(own) =>
        var rest := ScanObjects(xs[1..]);
        FanScan(own + rest.reports, rest.aborted)
  }

  lemma {:induction false} ScanObjectsConcat(a: seq<Node>, b: seq<Node>)
    ensures ScanObjects(a + b) == Then(ScanObjects(a), ScanObjects(b))
  {
    if |a| > 0 {
      assert (a + b)[0] == a[0];
      assert (a + b)[1..] == a[1..] + b;
      match FanReportsAt(a[0]) {
        case None =>
        case Some(own) =>
          ScanObjectsConcat(a[1..], b);
          var p, q := ScanObjects(a[1..]), ScanObjects(b);
          if !p.aborted {
            assert own + (p.reports + q.reports) == (own + p.reports) + q.reports;
          }
      }
    } else {
      assert a + b == b;
    }
  }

  /**
   The recursive fan walk prints exactly what visiting the objects of the
   tree one by one, in pre-order, prints, and aborts exactly when that does.
   */
  lemma {:induction false} InvestigateFansIsPerObject(n: Node)
    ensures InvestigateFans(n) == ScanObjects(Objects(n))
    decreases n, 1
  {
    match n
    case NotDict =>
    case Dict(_, _, _, _, children) =>
      var rest := match children case Items(ks) => ObjectsAll(ks) case _ => [];
      assert ([n] + rest)[1..] == rest;
      match children {
        case Items(ks) => InvestigateFansAllIsPerObject(ks);
        case NoChildren =>
        case NotAList =>
      }
  }

  lemma {:induction false} InvestigateFansAllIsPerObject(ks: seq<Node>)
    ensures InvestigateFansAll(ks) == ScanObjects(ObjectsAll(ks))
    decreases ks, 0
  {
    if |ks| > 0 {
      InvestigateFansIsPerObject(ks[0]);
      InvestigateFansAllIsPerObject(ks[1..]);
      ScanObjectsConcat(Objects(ks[0]), ObjectsAll(ks[1..]));
    }
  }

  lemma {:induction false} ScanObjectsAborts(xs: seq<Node>)
    ensures ScanObjects(xs).aborted <==> exists i :: 0 <= i < |xs| && FanReportsAt(xs[i]).None?
  {
    if |xs| > 0 {
      ScanObjectsAborts(xs[1..]);
      if ScanObjects(xs).aborted && FanReportsAt(xs[0]).Some? {
        var j :| 0 <= j < |xs[1..]| && FanReportsAt(xs[1..][j]).None?;
        assert xs[j + 1] == xs[1..][j];
      }
      if exists i :: 0 <= i < |xs| && FanReportsAt(xs[i]).None? {
        var i :| 0 <= i < |xs| && FanReportsAt(xs[i]).None?;
        if i > 0 {
          assert xs[1..][i - 1] == xs[i];
        }
      }
    }
  }

  lemma {:induction false} ScanObjectsMember(xs: seq<Node>, i: int)
    requires 0 <= i < |xs| && !ScanObjects(xs).aborted
    ensures FanReportsAt(xs[i]).Some?
    ensures forall rep :: rep in FanReportsAt(xs[i]).value ==> rep in ScanObjects(xs).reports
  {
    var own := FanReportsAt(xs[0]).value;
    var rest := ScanObjects(xs[1..]);
    assert ScanObjects(xs) == FanScan(own + rest.reports, rest.aborted);
    if i > 0 {
      assert xs[1..][i - 1] == xs[i];
      ScanObjectsMember(xs[1..], i - 1);
    }
  }

  /** The fan walk ends in KeyError exactly when collecting some object's fan categories raises. */
  lemma FanWalkAborts(n: Node)
    ensures InvestigateFans(n).aborted <==> exists x :: x in Objects(n) && NodeSources(Kids(x)).None?
  {
    InvestigateFansIsPerObject(n);
    ScanObjectsAborts(Objects(n));
    var xs := Objects(n);
    if exists x :: x in xs && NodeSources(Kids(x)).None? {
      var x :| x in xs && NodeSources(Kids(x)).None?;
      var i :| 0 <= i < |xs| && xs[i] == x;
      assert FanReportsAt(xs[i]).None?;
    }
  }

  /**
   No fan report is missed: when the walk completes, every object of the tree
   with at least one fan category is reported under its Text with those categories.
   */
  lemma FanWalkComplete(n: Node, x: Node)
    requires x in Objects(n) && !InvestigateFans(n).aborted
    ensures NodeSources(Kids(x)).Some?
    ensures |NodeSources(Kids(x)).value| > 0 ==>
              FanReport(x.text.GetOr("Unknown"), ToCategories(NodeSources(Kids(x)).value)) in InvestigateFans(n).reports
  {
    InvestigateFansIsPerObject(n);
    var xs := Objects(n);
    var i :| 0 <= i < |xs| && xs[i] == x;
    ScanObjectsMember(xs, i);
  }

  /** A tree whose every object has a Text cannot raise, so the fan walk always completes. */
  predicate AllTexted(n: Node)
    decreases n, 1
  {
    match n
    case NotDict => true
    case Dict(text, _, _, _, children) =>
      text.Some? && (match children
                     case Items(ks) => AllTextedAll(ks)
                     case _ => true)
  }

  predicate AllTextedAll(ks: seq<Node>)
    decreases ks, 0
  {
    if |ks| == 0 then true else AllTexted(ks[0]) && AllTextedAll(ks[1..])
  }

  lemma {:induction false} AllTextedAllMember(ks: seq<Node>, i: int)
    requires AllTextedAll(ks) && 0 <= i < |ks|
    ensures AllTexted(ks[i])
  {
    if i > 0 {
      AllTextedAllMember(ks[1..], i - 1);
    }
  }

  lemma {:induction false} FanWalkCompletes(n: Node)
    requires AllTexted(n)
    ensures !InvestigateFans(n).aborted
    decreases n, 1
  {
    match n
    case NotDict =>
    case Dict(text, _, _, _, children) =>
      var ks := Kids(n);
      if NodeSources(ks).None? {
        var i :| 0 <= i < |ks| && ks[i].Dict? && ks[i].text.None?;
        AllTextedAllMember(children.nodes, i);
      }
      match children {
        case Items(ks) => FanWalkAllCompletes(ks);
        case NoChildren =>
        case NotAList =>
      }
  }

  lemma {:induction false} FanWalkAllCompletes(ks: seq<Node>)
    requires AllTextedAll(ks)
    ensures !InvestigateFansAll(ks).aborted
    decreases ks, 0
  {
    if |ks| > 0 {
      FanWalkCompletes(ks[0]);
      FanWalkAllCompletes(ks[1..]);
    }
  }
}
