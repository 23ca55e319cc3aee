/** The Option wrapper used throughout the model. */
module Optional {

  datatype Option<+T> = None | Some(value: T) {

    /** The wrapped value, or `default` for None (Python's `d.get(key, default)`). */
    function GetOr(default: T): T {
      match this
      case Some(v) => v
      case None => default
    }
  }
}

/**
 The handful of Python `str` operations the scripts rely on: `lower()`,
 `strip()`, `in` (substring test), `replace(old, new)` and a character
 filter (what `re.sub(r'[^...]', '', s)` computes).
 */
module Strings {

  /** The characters Python's `str.isspace()` accepts, which `strip()` removes. */
  predicate IsSpace(c: char) {
    var k := c as int;
    || k == 32 || 9 <= k <= 13 || 28 <= k <= 31
    || k == 0x85 || k == 0xA0 || k == 0x1680 || 0x2000 <= k <= 0x200A
    || k == 0x2028 || k == 0x2029 || k == 0x202F || k == 0x205F || k == 0x3000
  }

  predicate IsDigit(c: char) {
    '0' <= c <= '9'
  }

  /** ASCII lower-casing of one character. */
  function LowerChar(c: char): char {
    if 'A' <= c <= 'Z' then (c as int + 32) as char else c
  }

  /** `s.lower()`, on ASCII letters. */
  function Lower(s: string): (r: string)
    ensures |r| == |s|
  {
    seq(|s|, i requires 0 <= i < |s| => LowerChar(s[i]))
  }

  predicate StartsWith(s: string, prefix: string) {
    |prefix| <= |s| && s[..|prefix|] == prefix
  }

  /** `t in s`: some window of `s` equals `t`. */
  predicate Contains(s: string, t: string)
    decreases |s|
  {
    if StartsWith(s, t) then true
    else if |s| == 0 then false
    else Contains(s[1..], t)
  }

  /** The occurrence-based reading of `Contains`. */
  ghost predicate OccursAt(s: string, t: string, i: int) {
    0 <= i && i + |t| <= |s| && s[i..i + |t|] == t
  }

  /** An occurrence at offset `i` is found by the left-to-right search. */
  lemma {:induction false} OccursImpliesContains(s: string, t: string, i: int)
    requires OccursAt(s, t, i)
    ensures Contains(s, t)
    decreases i
  {
    if i > 0 && !StartsWith(s, t) {
      assert s[1..][i - 1..i - 1 + |t|] == s[i..i + |t|];
      OccursImpliesContains(s[1..], t, i - 1);
    }
  }

  /** The search succeeds only at an actual occurrence. */
  lemma {:induction false} ContainsImpliesOccurs(s: string, t: string)
    requires Contains(s, t)
    ensures exists i :: OccursAt(s, t, i)
    decreases |s|
  {
    if StartsWith(s, t) {
      assert OccursAt(s, t, 0);
    } else {
      ContainsImpliesOccurs(s[1..], t);
      var i :| OccursAt(s[1..], t, i);
      assert s[1..][i..i + |t|] == s[i + 1..i + 1 + |t|];
      assert OccursAt(s, t, i + 1);
    }
  }

  lemma ContainsIffOccurs(s: string, t: string)
    ensures Contains(s, t) <==> exists i :: OccursAt(s, t, i)
  {
    if Contains(s, t) {
      ContainsImpliesOccurs(s, t);
    }
    if exists i :: OccursAt(s, t, i) {
      var i :| OccursAt(s, t, i);
      OccursImpliesContains(s, t, i);
    }
  }

  /** Substring containment is transitive: a text containing "#1" contains "1". */
  lemma ContainsTransitive(s: string, t: string, u: string)
    requires Contains(s, t) && Contains(t, u)
    ensures Contains(s, u)
  {
    ContainsIffOccurs(s, t);
    ContainsIffOccurs(t, u);
    ContainsIffOccurs(s, u);
    var i :| OccursAt(s, t, i);
    var j :| OccursAt(t, u, j);
    forall k | 0 <= k < |u|
      ensures s[i + j + k] == u[k]
    {
      assert t[j + k] == u[k];
      assert s[i + (j + k)] == t[j + k];
    }
    assert s[i + j..i + j + |u|] == u;
    assert OccursAt(s, u, i + j);
  }

  /** A text that lacks the first character of a needle does not contain it. */
  lemma AbsentHeadNotContained(s: string, t: string)
    ensures |t| > 0 && t[0] !in s ==> !Contains(s, t)
  {
    if |t| > 0 && Contains(s, t) {
      ContainsImpliesOccurs(s, t);
      var i :| OccursAt(s, t, i);
      assert s[i] == s[i..i + |t|][0];
    }
  }

  /** A one-character needle is found exactly when the character occurs. */
  lemma ContainsChar(s: string, c: char)
    ensures Contains(s, [c]) <==> c in s
  {
    ContainsIffOccurs(s, [c]);
    if c in s {
      var i :| 0 <= i < |s| && s[i] == c;
      assert s[i..i + 1] == [c];
      assert OccursAt(s, [c], i);
    }
    if Contains(s, [c]) {
      var i :| OccursAt(s, [c], i);
      assert s[i] == s[i..i + 1][0];
    }
  }

  /** `s.replace(pat, rep)`: leftmost, non-overlapping replacement. */
  function ReplaceAll(s: string, pat: string, rep: string): string
    requires |pat| > 0
    decreases |s|
  {
    if StartsWith(s, pat) then rep + ReplaceAll(s[|pat|..], pat, rep)
    else if |s| == 0 then []
    else [s[0]] + ReplaceAll(s[1..], pat, rep)
  }

  /** A text without the first character of `pat` is left unchanged by `replace`. */
  lemma {:induction false} ReplaceAbsent(s: string, pat: string, rep: string)
    requires |pat| > 0 && pat[0] !in s
    ensures ReplaceAll(s, pat, rep) == s
  {
    if |s| > 0 {
      assert s[1..] == s[1..];
      ReplaceAbsent(s[1..], pat, rep);
      assert s == [s[0]] + s[1..];
    }
  }

  /** `replace` passes over a prefix that lacks the first character of `pat`. */
  lemma {:induction false} ReplaceAfterAbsent(a: string, b: string, pat: string, rep: string)
    requires |pat| > 0 && pat[0] !in a
    ensures ReplaceAll(a + b, pat, rep) == a + ReplaceAll(b, pat, rep)
  {
    if |a| > 0 {
      assert (a + b)[0] == a[0];
      assert (a + b)[1..] == a[1..] + b;
      ReplaceAfterAbsent(a[1..], b, pat, rep);
      assert a == [a[0]] + a[1..];
    } else {
      assert a + b == b;
    }
  }

  /** `replace(" ", rep)` on a text with exactly one space, between `a` and `b`. */
  lemma OneSpaceReplaced(a: string, b: string, rep: string)
    requires ' ' !in a && ' ' !in b
    ensures ReplaceAll(a + " " + b, " ", rep) == a + rep + b
  {
    var tail := " " + b;
    assert a + " " + b == a + tail;
    ReplaceAfterAbsent(a, tail, " ", rep);
    assert StartsWith(tail, " ");
    assert tail[|" "|..] == b;
    ReplaceAbsent(b, " ", rep);
    assert ReplaceAll(tail, " ", rep) == rep + b;
  }

  /** Every occurrence of the character `c` in `s` replaced by `rep`, one character at a time. */
  function MapChar(s: string, c: char, rep: string): (r: string)
    ensures c !in rep ==> c !in r
    ensures forall x :: x in r ==> x in s || x in rep
  {
    if |s| == 0 then []
    else (if s[0] == c then rep else [s[0]]) + MapChar(s[1..], c, rep)
  }

  lemma {:induction false} MapCharConcat(a: string, b: string, c: char, rep: string)
    ensures MapChar(a + b, c, rep) == MapChar(a, c, rep) + MapChar(b, c, rep)
  {
    if |a| == 0 {
      assert a + b == b;
    } else {
      assert (a + b)[1..] == a[1..] + b;
      MapCharConcat(a[1..], b, c, rep);
    }
  }

  /** `s.replace(c, rep)` for a one-character `c` is a per-character substitution. */
  lemma {:induction false} ReplaceSingleChar(s: string, c: char, rep: string)
    ensures ReplaceAll(s, [c], rep) == MapChar(s, c, rep)
    decreases |s|
  {
    if |s| > 0 {
      ReplaceSingleChar(s[1..], c, rep);
      if s[0] == c {
        assert StartsWith(s, [c]);
        assert s[|[c]|..] == s[1..];
      } else {
        assert !StartsWith(s, [c]);
      }
    }
  }

  /** The characters of `s` that satisfy `keep`, in order. */
  function Filter(s: string, keep: char -> bool): (r: string)
    ensures forall c :: c in r ==> c in s && keep(c)
  {
    if |s| == 0 then []
    else (if keep(s[0]) then [s[0]] else []) + Filter(s[1..], keep)
  }

  lemma {:induction false} FilterConcat(a: string, b: string, keep: char -> bool)
    ensures Filter(a + b, keep) == Filter(a, keep) + Filter(b, keep)
  {
    if |a| == 0 {
      assert a + b == b;
    } else {
      assert (a + b)[1..] == a[1..] + b;
      FilterConcat(a[1..], b, keep);
    }
  }

  /** A text none of whose characters survive filters to nothing. */
  lemma {:induction false} FilterNone(s: string, keep: char -> bool)
    requires forall c :: c in s ==> !keep(c)
    ensures Filter(s, keep) == []
  {
    if |s| > 0 {
      FilterNone(s[1..], keep);
    }
  }

  /**
   Deleting a token none of whose characters are kept does not change what the
   filter keeps: `Filter(s.replace(tok, ""))` is `Filter(s)`.
   */
  lemma {:induction false} FilterIgnoresDroppedToken(s: string, tok: string, keep: char -> bool)
    requires |tok| > 0
    requires forall c :: c in tok ==> !keep(c)
    ensures Filter(ReplaceAll(s, tok, ""), keep) == Filter(s, keep)
    decreases |s|
  {
    if StartsWith(s, tok) {
      assert s == tok + s[|tok|..];
      FilterConcat(tok, s[|tok|..], keep);
      FilterNone(tok, keep);
      assert "" + ReplaceAll(s[|tok|..], tok, "") == ReplaceAll(s[|tok|..], tok, "");
      FilterIgnoresDroppedToken(s[|tok|..], tok, keep);
    } else if |s| > 0 {
      FilterConcat([s[0]], ReplaceAll(s[1..], tok, ""), keep);
      FilterIgnoresDroppedToken(s[1..], tok, keep);
    }
  }

  /** `s.lstrip()`. */
  function StripLeft(s: string): string {
    if |s| > 0 && IsSpace(s[0]) then StripLeft(s[1..]) else s
  }

  /** `s.rstrip()`. */
  function StripRight(s: string): string {
    if |s| > 0 && IsSpace(s[|s| - 1]) then StripRight(s[..|s| - 1]) else s
  }

  /** `s.strip()`. */
  function Strip(s: string): string {
    StripRight(StripLeft(s))
  }

  /** `s.strip()` is empty (falsy) exactly when every character of `s` is white space. */
  lemma {:induction false} StripEmptyIffBlank(s: string)
    ensures Strip(s) == [] <==> forall c :: c in s ==> IsSpace(c)
  {
    StripLeftEmptyIffBlank(s);
    var l := StripLeft(s);
    StripLeftShape(s);
    if l != [] {
      assert !IsSpace(l[0]);
      StripRightKeepsHead(l);
    }
  }

  lemma {:induction false} StripLeftEmptyIffBlank(s: string)
    ensures StripLeft(s) == [] <==> forall c :: c in s ==> IsSpace(c)
  {
    if |s| > 0 {
      StripLeftEmptyIffBlank(s[1..]);
      assert s == [s[0]] + s[1..];
    }
  }

  /** How many leading white-space characters `lstrip` removes. */
  function LeadingSpaces(s: string): (k: nat)
    ensures k <= |s|
  {
    if |s| > 0 && IsSpace(s[0]) then 1 + LeadingSpaces(s[1..]) else 0
  }

  /** `lstrip` removes a white-space prefix and leaves a text that starts with non-space. */
  lemma {:induction false} StripLeftShape(s: string)
    ensures StripLeft(s) == s[LeadingSpaces(s)..]
    ensures forall c :: c in s[..LeadingSpaces(s)] ==> IsSpace(c)
    ensures StripLeft(s) != [] ==> !IsSpace(StripLeft(s)[0])
  {
    if |s| > 0 && IsSpace(s[0]) {
      var t := s[1..];
      StripLeftShape(t);
      var k := LeadingSpaces(t);
      assert t[k..] == s[k + 1..];
      assert s[..k + 1] == [s[0]] + t[..k];
    } else {
      assert s[0..] == s;
    }
  }

  /** How many characters `rstrip` keeps. */
  function RightKept(s: string): (k: nat)
    ensures k <= |s|
  {
    if |s| > 0 && IsSpace(s[|s| - 1]) then RightKept(s[..|s| - 1]) else |s|
  }

  /** `rstrip` keeps a prefix and drops only white space after it. */
  lemma {:induction false} StripRightShape(s: string)
    ensures StripRight(s) == s[..RightKept(s)]
    ensures forall c :: c in s[RightKept(s)..] ==> IsSpace(c)
  {
    if |s| > 0 && IsSpace(s[|s| - 1]) {
      var p := s[..|s| - 1];
      StripRightShape(p);
      var k := RightKept(p);
      assert p[..k] == s[..k];
      assert s[k..] == p[k..] + [s[|s| - 1]];
    } else {
      assert s[..|s|] == s;
    }
  }

  lemma {:induction false} StripRightKeepsHead(s: string)
    requires s != [] && !IsSpace(s[0])
    ensures StripRight(s) != []
  {
    if IsSpace(s[|s| - 1]) {
      StripRightKeepsHead(s[..|s| - 1]);
    }
  }

  lemma FilterIgnoresStripLeft(s: string, keep: char -> bool)
    requires forall c :: IsSpace(c) ==> !keep(c)
    ensures Filter(StripLeft(s), keep) == Filter(s, keep)
  {
    StripLeftShape(s);
    var k := LeadingSpaces(s);
    assert s == s[..k] + s[k..];
    FilterConcat(s[..k], s[k..], keep);
    FilterNone(s[..k], keep);
  }

  lemma FilterIgnoresStripRight(l: string, keep: char -> bool)
    requires forall c :: IsSpace(c) ==> !keep(c)
    ensures Filter(StripRight(l), keep) == Filter(l, keep)
  {
    StripRightShape(l);
    var j := RightKept(l);
    assert l == l[..j] + l[j..];
    FilterConcat(l[..j], l[j..], keep);
    FilterNone(l[j..], keep);
  }

  /** Stripping white space changes nothing a filter that drops white space keeps. */
  lemma FilterIgnoresStrip(s: string, keep: char -> bool)
    requires forall c :: IsSpace(c) ==> !keep(c)
    ensures Filter(Strip(s), keep) == Filter(s, keep)
  {
    FilterIgnoresStripLeft(s, keep);
    FilterIgnoresStripRight(StripLeft(s), keep);
  }
}
