/**
 The value cleaning both scripts apply before showing a parsed sensor value,
 and the part of Python's `float()` that can see its output.
 */
module ValueParsing {
  import opened Optional
  import opened Strings
  import opened SensorTree

  /** The characters the class `[^0-9.\\-]` does not delete: digits, '.', '\' and '-'. */
  predicate CleanKeeps(c: char) {
    IsDigit(c) || c == '.' || c == '\\' || c == '-'
  }

  /** Unit tokens stripped in `find_and_show_sensors`, in the order they are removed. */
  const ShowUnitTokens: seq<string> := ["°C", "RPM", "%", "MHz", "W", "V", "A"]

  /** Unit tokens stripped in `find_sensor_locations`, which also strips GB and MB. */
  const LocateUnitTokens: seq<string> := ["°C", "RPM", "%", "MHz", "W", "GB", "MB", "V", "A"]

  predicate NonEmptyTokens(tokens: seq<string>) {
    forall i :: 0 <= i < |tokens| ==> |tokens[i]| > 0
  }

  /** `.replace(t, '')` for each token in turn. */
  function RemoveTokens(s: string, tokens: seq<string>): string
    requires NonEmptyTokens(tokens)
    decreases |tokens|
  {
    if |tokens| == 0 then s else RemoveTokens(ReplaceAll(s, tokens[0], ""), tokens[1..])
  }

  /**
   The cleaning pipeline as written: commas become points, unit tokens are
   removed, the text is stripped, and every character outside the kept class
   is deleted.
   */
  function Clean(s: string, tokens: seq<string>): string
    requires NonEmptyTokens(tokens)
  {
    Filter(Strip(RemoveTokens(ReplaceAll(s, ",", "."), tokens)), CleanKeeps)
  }

  function CleanForShow(s: string): string {
    Clean(s, ShowUnitTokens)
  }

  function CleanForLocate(s: string): string {
    Clean(s, LocateUnitTokens)
  }

  /** Reference definition: one pass that turns ',' into '.' and keeps only the kept class. */
  function CleanCharwise(s: string): (r: string)
    ensures forall c :: c in r ==> CleanKeeps(c)
  {
    if |s| == 0 then []
    else
      var c := if s[0] == ',' then '.' else s[0];
      (if CleanKeeps(c) then [c] else []) + CleanCharwise(s[1..])
  }

  lemma {:induction false} FilterAfterCommaReplace(s: string)
    ensures Filter(ReplaceAll(s, ",", "."), CleanKeeps) == CleanCharwise(s)
  {
    if |s| > 0 {
      FilterAfterCommaReplace(s[1..]);
      if StartsWith(s, ",") {
        assert s[0] == ',';
        FilterConcat(".", ReplaceAll(s[1..], ",", "."), CleanKeeps);
      } else {
        assert s[..1] == [s[0]];
        FilterConcat([s[0]], ReplaceAll(s[1..], ",", "."), CleanKeeps);
      }
    }
  }

  /** No character of `t` survives the cleaning filter (checked left to right). */
  predicate NoKeptChar(t: string) {
    |t| == 0 || (!CleanKeeps(t[0]) && NoKeptChar(t[1..]))
  }

  lemma {:induction false} NoKeptCharSound(t: string)
    requires NoKeptChar(t)
    ensures forall c :: c in t ==> !CleanKeeps(c)
  {
    if |t| > 0 {
      NoKeptCharSound(t[1..]);
      assert t == [t[0]] + t[1..];
    }
  }

  /** Every token is non-empty and made only of characters the filter drops. */
  predicate DroppedTokens(tokens: seq<string>) {
    |tokens| == 0 || (|tokens[0]| > 0 && NoKeptChar(tokens[0]) && DroppedTokens(tokens[1..]))
  }

  lemma {:induction false} DroppedTokensNonEmpty(tokens: seq<string>)
    requires DroppedTokens(tokens)
    ensures NonEmptyTokens(tokens)
  {
    if |tokens| > 0 {
      DroppedTokensNonEmpty(tokens[1..]);
      assert forall i :: 1 <= i < |tokens| ==> tokens[i] == tokens[1..][i - 1];
    }
  }

  lemma {:induction false} FilterIgnoresTokens(s: string, tokens: seq<string>)
    requires DroppedTokens(tokens) && NonEmptyTokens(tokens)
    ensures Filter(RemoveTokens(s, tokens), CleanKeeps) == Filter(s, CleanKeeps)
    decreases |tokens|
  {
    if |tokens| > 0 {
      NoKeptCharSound(tokens[0]);
      DroppedTokensNonEmpty(tokens[1..]);
      FilterIgnoresDroppedToken(s, tokens[0], CleanKeeps);
      FilterIgnoresTokens(ReplaceAll(s, tokens[0], ""), tokens[1..]);
    }
  }

  /**
   No unit token holds a kept character, so stripping units (and white space)
   never changes the result: cleaning is the one-pass comma-to-point filter.
   */
  lemma CleanIsCharwise(s: string, tokens: seq<string>)
    requires DroppedTokens(tokens) && NonEmptyTokens(tokens)
    ensures Clean(s, tokens) == CleanCharwise(s)
  {
    var t := RemoveTokens(ReplaceAll(s, ",", "."), tokens);
    FilterIgnoresStrip(t, CleanKeeps);
    FilterIgnoresTokens(ReplaceAll(s, ",", "."), tokens);
    FilterAfterCommaReplace(s);
  }

  /**
   The two cleaning variants agree on every input (the extra GB/MB stripping
   of `find_sensor_locations` is subsumed), and what survives is only digits,
   '.', '-' and '\'.
   */
  lemma CleaningVariantsAgree(s: string)
    ensures CleanForShow(s) == CleanForLocate(s) == CleanCharwise(s)
    ensures forall c :: c in CleanForShow(s) ==> CleanKeeps(c)
  {
    UnitTokensDropped();
    CleanIsCharwise(s, ShowUnitTokens);
    CleanIsCharwise(s, LocateUnitTokens);
  }

  lemma UnitTokensDropped()
    ensures DroppedTokens(ShowUnitTokens) && NonEmptyTokens(ShowUnitTokens)
    ensures DroppedTokens(LocateUnitTokens) && NonEmptyTokens(LocateUnitTokens)
  {
    ShowUnitTokensDropped();
    LocateUnitTokensDropped();
  }

  lemma UnitTokensKeepNothing()
    ensures NoKeptChar("°C") && NoKeptChar("RPM") && NoKeptChar("%") && NoKeptChar("MHz")
    ensures NoKeptChar("W") && NoKeptChar("GB") && NoKeptChar("MB") && NoKeptChar("V") && NoKeptChar("A")
  {
    assert !IsDigit('R') && !IsDigit('P') && !IsDigit('M') && !IsDigit('H') && !IsDigit('z');
  }

  lemma ShowUnitTokensDropped()
    ensures DroppedTokens(ShowUnitTokens) && NonEmptyTokens(ShowUnitTokens)
  {
    UnitTokensKeepNothing();
    DroppedTokensNonEmpty(ShowUnitTokens);
  }

  lemma LocateUnitTokensDropped()
    ensures DroppedTokens(LocateUnitTokens) && NonEmptyTokens(LocateUnitTokens)
  {
    UnitTokensKeepNothing();
    DroppedTokensNonEmpty(LocateUnitTokens);
  }

  /** The value of a decimal digit. */
  function DigitValue(c: char): nat {
    if IsDigit(c) then c as int - '0' as int else 0
  }

  /** The number a string of decimal digits denotes. */
  function DigitsValue(ds: string): nat {
    if |ds| == 0 then 0 else 10 * DigitsValue(ds[..|ds| - 1]) + DigitValue(ds[|ds| - 1])
  }

  /** `x / 10^k`: the value of `x` moved `k` decimal places to the right of the point. */
  function Shifted(x: real, k: nat): real {
    if k == 0 then x else Shifted(x, k - 1) / 10.0
  }

  /** Position of the first '.', or |s| when there is none. */
  function DotIndex(s: string): (i: nat)
    ensures i <= |s|
    ensures i < |s| ==> s[i] == '.'
    ensures forall j :: 0 <= j < i ==> s[j] != '.'
  {
    if |s| == 0 then 0 else if s[0] == '.' then 0 else 1 + DotIndex(s[1..])
  }

  /** The number "whole.frac" denotes. */
  function DecimalValue(whole: string, frac: string): real {
    DigitsValue(whole) as real + Shifted(DigitsValue(frac) as real, |frac|)
  }

  /** `float()` of an unsigned decimal: digits with at most one '.', at least one digit. */
  function ParseUnsigned(s: string): Option<real> {
    if !(forall c :: c in s ==> IsDigit(c) || c == '.') then None
    else
      var i := DotIndex(s);
      if i == |s| then
        if |s| == 0 then None else Some(DigitsValue(s) as real)
      else
        var whole := s[..i];
        var frac := s[i + 1..];
        if '.' in frac || |whole| + |frac| == 0 then None
        else Some(DecimalValue(whole, frac))
  }

  /**
   Python's `float()` on a text without surrounding white space, for plain
   decimal notation: an optional sign, then an unsigned decimal.
   */
  function ParseFloat(s: string): (r: Option<real>)
    ensures r.Some? ==> |s| > 0 && exists c :: c in s && IsDigit(c)
  {
    if |s| > 0 && (s[0] == '-' || s[0] == '+') then
      match ParseUnsigned(s[1..])
      case Some(v) => Some(if s[0] == '-' then -v else v)
      case None => None
    else ParseUnsigned(s)
  }

  /** An unsigned parse succeeds only when every '.' sits at one position. */
  lemma UnsignedDotsAtOnePlace(b: string)
    requires ParseUnsigned(b).Some?
    ensures forall i :: 0 <= i < |b| && b[i] == '.' ==> i == DotIndex(b)
  {
    var d := DotIndex(b);
    forall i | 0 <= i < |b| && b[i] == '.'
      ensures i == d
    {
    }
  }

  /** A parse succeeds only when the text has at most one '.'. */
  lemma ParsedHasAtMostOneDot(s: string)
    requires ParseFloat(s).Some?
    ensures forall i, j :: 0 <= i < j < |s| && s[i] == '.' ==> s[j] != '.'
  {
    if s[0] == '-' || s[0] == '+' {
      var b := s[1..];
      UnsignedDotsAtOnePlace(b);
      forall i, j | 0 <= i < j < |s| && s[i] == '.'
        ensures s[j] != '.'
      {
        assert i >= 1;
        assert s[i] == b[i - 1] && s[j] == b[j - 1];
      }
    } else {
      UnsignedDotsAtOnePlace(s);
    }
  }

  /** The decimal text of a natural number, as Python's `str(n)` renders it. */
  function NatText(n: nat): (r: string)
    ensures |r| > 0
    ensures forall c :: c in r ==> IsDigit(c)
  {
    var d := ['0' + (n % 10) as char];
    if n < 10 then d else NatText(n / 10) + d
  }

  lemma {:induction false} NatTextValue(n: nat)
    ensures DigitsValue(NatText(n)) == n
  {
    var t := NatText(n);
    if n >= 10 {
      NatTextValue(n / 10);
      assert t[..|t| - 1] == NatText(n / 10);
    }
  }

  /** `float(str(n))` is n, and `float("-" + str(n))` is -n: parsing inverts rendering. */
  lemma ParseNatText(n: nat)
    ensures ParseFloat(NatText(n)) == Some(n as real)
    ensures ParseFloat("-" + NatText(n)) == Some(-(n as real))
  {
    var t := NatText(n);
    NatTextValue(n);
    ParseDigits(t);
    assert ("-" + t)[1..] == t;
  }

  /** A non-empty run of digits parses to its value. */
  lemma ParseDigits(t: string)
    requires |t| > 0 && forall c :: c in t ==> IsDigit(c)
    ensures ParseUnsigned(t) == Some(DigitsValue(t) as real)
    ensures ParseFloat(t) == Some(DigitsValue(t) as real)
  {
    ParseUnsignedDigits(t);
    assert t[0] in t;
    assert t[0] != '-' && t[0] != '+';
  }

  lemma ParseUnsignedDigits(t: string)
    requires |t| > 0 && forall c :: c in t ==> IsDigit(c)
    ensures ParseUnsigned(t) == Some(DigitsValue(t) as real)
  {
    NoDotIndex(t);
    assert forall c :: c in t ==> IsDigit(c) || c == '.';
  }

  lemma {:induction false} NoDotIndex(s: string)
    requires forall c :: c in s ==> IsDigit(c)
    ensures DotIndex(s) == |s|
  {
    if |s| > 0 {
      assert s[0] in s;
      NoDotIndex(s[1..]);
    }
  }

  /**
   Any two digit runs joined by '.', at least one of them non-empty, parse
   to the decimal number they denote.
   */
  lemma {:induction false} ParseDecimal(whole: string, frac: string)
    requires forall i :: 0 <= i < |whole| ==> IsDigit(whole[i])
    requires forall i :: 0 <= i < |frac| ==> IsDigit(frac[i])
    requires |whole| + |frac| > 0
    ensures ParseFloat(whole + ("." + frac)) == Some(DecimalValue(whole, frac))
  {
    ParseUnsignedDecimal(whole, frac);
    ParseUnsignedSigned(whole + ("." + frac), DecimalValue(whole, frac));
  }

  /** Text without a leading sign parses as its unsigned value, and negated after a '-'. */
  lemma {:induction false} ParseUnsignedSigned(s: string, v: real)
    requires |s| > 0 && s[0] != '-' && s[0] != '+' && ParseUnsigned(s) == Some(v)
    ensures ParseFloat(s) == Some(v)
    ensures ParseFloat("-" + s) == Some(-v)
  {
    assert ("-" + s)[1..] == s;
  }

  lemma {:induction false} ParseUnsignedDecimal(whole: string, frac: string)
    requires forall i :: 0 <= i < |whole| ==> IsDigit(whole[i])
    requires forall i :: 0 <= i < |frac| ==> IsDigit(frac[i])
    requires |whole| + |frac| > 0
    ensures ParseUnsigned(whole + ("." + frac)) == Some(DecimalValue(whole, frac))
    ensures (whole + ("." + frac))[0] != '-' && (whole + ("." + frac))[0] != '+'
  {
    var s := whole + ("." + frac);
    DecimalShape(whole, frac);
    assert '.' !in frac by {
      assert forall i :: 0 <= i < |frac| ==> frac[i] != '.';
    }
    if |whole| > 0 {
      assert s[0] == whole[0];
    }
  }

  /** "whole.frac" splits at its only '.' back into its two digit runs. */
  lemma {:induction false} DecimalShape(whole: string, frac: string)
    requires forall i :: 0 <= i < |whole| ==> IsDigit(whole[i])
    requires forall i :: 0 <= i < |frac| ==> IsDigit(frac[i])
    ensures var s := whole + ("." + frac);
            && DotIndex(s) == |whole| && s[..|whole|] == whole && s[|whole| + 1..] == frac
            && forall c :: c in s ==> IsDigit(c) || c == '.'
  {
    var s := whole + ("." + frac);
    assert s[|whole|] == '.';
    assert forall i :: 0 <= i < |whole| ==> s[i] == whole[i];
    assert s[..|whole|] == whole;
    assert s[|whole| + 1..] == frac;
    forall c | c in s
      ensures IsDigit(c) || c == '.'
    {
      var k :| 0 <= k < |s| && s[k] == c;
      if k > |whole| {
        assert s[k] == frac[k - |whole| - 1];
      }
    }
  }

  /**
   A value written with a decimal comma and a unit of dropped characters
   ("45,2 °C") is parsed as the decimal number its digits denote.
   */
  lemma {:induction false} CommaDecimalParses(whole: string, frac: string, unit: string)
    requires forall i :: 0 <= i < |whole| ==> IsDigit(whole[i])
    requires forall i :: 0 <= i < |frac| ==> IsDigit(frac[i])
    requires |whole| + |frac| > 0
    requires forall i :: 0 <= i < |unit| ==> !CleanKeeps(unit[i]) && unit[i] != ','
    ensures Attempt(CleanCharwise(whole + ("," + (frac + unit)))) == Parsed(DecimalValue(whole, frac))
  {
    CommaSplitCleans(whole, frac, unit);
    ParseDecimal(whole, frac);
  }

  /** The outcome of the "show what the parsed value would be" step. */
  datatype ParseAttempt =
    | NotAttempted           // the value is falsy or a placeholder
    | NothingLeft            // cleaning left an empty text; nothing is parsed
    | Parsed(number: real)   // printed as "Parsed: ..."
    | Unparseable            // float() raised: silent in find_and_show_sensors, "FAILED" in find_sensor_locations

  function Attempt(cleaned: string): ParseAttempt {
    if cleaned == [] then NothingLeft
    else match ParseFloat(cleaned)
      case Some(x) => Parsed(x)
      case None => Unparseable
  }

  /** `find_and_show_sensors` (both scripts): parse only a truthy value that is not a placeholder. */
  function ShowParse(v: Scalar): (r: ParseAttempt)
    ensures r != NotAttempted ==> Truthy(v) && Render(v) !in ["N/A", "n/a", ""]
  {
    if Truthy(v) && Render(v) !in ["N/A", "n/a", ""] then Attempt(CleanForShow(Render(v)))
    else NotAttempted
  }

  /** `find_sensor_locations`: parse any truthy value except the string "N/A". */
  function LocateParse(v: Scalar): (r: ParseAttempt)
    ensures r != NotAttempted ==> Truthy(v) && v != Str("N/A")
  {
    if Truthy(v) && v != Str("N/A") then Attempt(CleanForLocate(Render(v)))
    else NotAttempted
  }

  /** What `find_and_show_sensors` parses is the one-pass cleaning of the value's text. */
  lemma ShowParseIsCharwise(v: Scalar)
    ensures ShowParse(v) == if Truthy(v) && Render(v) !in ["N/A", "n/a", ""]
                            then Attempt(CleanCharwise(Render(v))) else NotAttempted
  {
    CleaningVariantsAgree(Render(v));
  }

  /** What `find_sensor_locations` parses is the same one-pass cleaning, under its own gate. */
  lemma LocateParseIsCharwise(v: Scalar)
    ensures LocateParse(v) == if Truthy(v) && v != Str("N/A")
                              then Attempt(CleanCharwise(Render(v))) else NotAttempted
  {
    CleaningVariantsAgree(Render(v));
  }

  /**
   A value formatted with a comma decimal and a unit, and the same value with a
   point and no space, both parse to 45.2.
   */
  lemma SeparatorAndUnitDoNotMatter()
    ensures ShowParse(Str("45,2 °C")) == Parsed(45.2)
    ensures ShowParse(Str("45.2°C")) == Parsed(45.2)
  {
    CommaFormParses();
    PointFormParses();
  }

  lemma CommaFormParses()
    ensures ShowParse(Str("45,2 °C")) == Parsed(45.2)
  {
    CommaFormCleans();
    ShowParseOfText("45,2 °C", 45.2);
  }

  /** A non-placeholder text parses to whatever its one-pass cleaning parses to. */
  lemma ShowParseOfText(s: string, x: real)
    requires s !in ["N/A", "n/a", ""] && Attempt(CleanCharwise(s)) == Parsed(x)
    ensures ShowParse(Str(s)) == Parsed(x)
  {
    ShowParseIsCharwise(Str(s));
  }

  lemma CommaFormCleans()
    ensures Attempt(CleanCharwise("45,2 °C")) == Parsed(45.2)
  {
    CommaFormText();
    Parse452();
  }

  /** A decimal comma between two runs of kept characters, followed by a unit
      made only of dropped characters, cleans to the point form. */
  lemma {:induction false} CommaSplitCleans(whole: string, frac: string, unit: string)
    requires forall i :: 0 <= i < |whole| ==> CleanKeeps(whole[i]) && whole[i] != ','
    requires forall i :: 0 <= i < |frac| ==> CleanKeeps(frac[i]) && frac[i] != ','
    requires forall i :: 0 <= i < |unit| ==> !CleanKeeps(unit[i]) && unit[i] != ','
    ensures CleanCharwise(whole + ("," + (frac + unit))) == whole + ("." + frac)
  {
    var tail := frac + unit;
    assert CleanCharwise(tail) == frac by { UnitDropped(frac, unit); }
    assert CleanCharwise("," + tail) == "." + frac by {
      CleanCharwiseConcat(",", tail);
      assert CleanCharwise(",") == ".";
    }
    assert CleanCharwise(whole) == whole by { CleanKept(whole); }
    CleanCharwiseConcat(whole, "," + tail);
  }

  lemma CommaFormText()
    ensures CleanCharwise("45,2 °C") == "45.2"
  {
    CommaSplitCleans("45", "2", " °C");
    assert "45" + ("," + ("2" + " °C")) == "45,2 °C";
    assert "45" + ("." + "2") == "45.2";
  }

  /** Text made only of kept characters is left as it is. */
  lemma {:induction false} CleanKept(s: string)
    requires forall i :: 0 <= i < |s| ==> CleanKeeps(s[i]) && s[i] != ','
    ensures CleanCharwise(s) == s
  {
    if |s| > 0 {
      assert forall i :: 0 <= i < |s| - 1 ==> s[1..][i] == s[i + 1];
      CleanKept(s[1..]);
    }
  }

  /** Text with no kept character and no ',' is removed entirely. */
  lemma {:induction false} CleanDropped(s: string)
    requires forall i :: 0 <= i < |s| ==> !CleanKeeps(s[i]) && s[i] != ','
    ensures CleanCharwise(s) == []
  {
    if |s| > 0 {
      assert forall i :: 0 <= i < |s| - 1 ==> s[1..][i] == s[i + 1];
      CleanDropped(s[1..]);
    }
  }

  lemma {:induction false} CleanCharwiseConcat(a: string, b: string)
    ensures CleanCharwise(a + b) == CleanCharwise(a) + CleanCharwise(b)
  {
    if |a| == 0 {
      assert a + b == b;
    } else {
      assert (a + b)[1..] == a[1..] + b;
      CleanCharwiseConcat(a[1..], b);
    }
  }

  lemma PointFormParses()
    ensures ShowParse(Str("45.2°C")) == Parsed(45.2)
  {
    PointFormCleans();
    ShowParseOfText("45.2°C", 45.2);
  }

  lemma PointFormCleans()
    ensures Attempt(CleanCharwise("45.2°C")) == Parsed(45.2)
  {
    PointFormText();
    Parse452();
  }

  lemma PointFormText()
    ensures CleanCharwise("45.2°C") == "45.2"
  {
    UnitDropped("45.2", "°C");
    assert "45.2" + "°C" == "45.2°C";
  }

  /** Kept characters followed by a unit of dropped ones clean to the kept part. */
  lemma {:induction false} UnitDropped(kept: string, unit: string)
    requires forall i :: 0 <= i < |kept| ==> CleanKeeps(kept[i]) && kept[i] != ','
    requires forall i :: 0 <= i < |unit| ==> !CleanKeeps(unit[i]) && unit[i] != ','
    ensures CleanCharwise(kept + unit) == kept
  {
    CleanCharwiseConcat(kept, unit);
    CleanKept(kept);
    CleanDropped(unit);
    assert kept + [] == kept;
  }

  lemma Parse452()
    ensures ParseFloat("45.2") == Some(45.2)
  {
    assert DotIndex("45.2") == 2;
    assert "45.2"[..2] == "45" && "45.2"[3..] == "2";
    assert DigitsValue("45") == 45;
    assert DigitsValue("2") == 2;
    assert Shifted(2.0, 1) == 0.2;
  }

  /** A value made only of a placeholder is never parsed, whatever the script. */
  lemma PlaceholdersNotParsed()
    ensures ShowParse(Str("N/A")) == NotAttempted && LocateParse(Str("N/A")) == NotAttempted
    ensures ShowParse(Str("")) == NotAttempted && LocateParse(Str("")) == NotAttempted
    ensures ShowParse(Null) == NotAttempted && LocateParse(Null) == NotAttempted
  {
  }
}
