/** The string operations the modelled code applies to oracle responses:
    `in`, `startswith`, `split`, `join`, `strip` and `lower`. */
module Text {
  import opened Wrappers

  predicate IsUpper(c: char) { 'A' <= c <= 'Z' }

  /** ASCII lower-casing of one character. */
  function LowerChar(c: char): (r: char)
    ensures !IsUpper(r)
    ensures !IsUpper(c) ==> r == c
  {
    if IsUpper(c) then (c as int + 32) as char else c
  }

  /** `s.lower()`, restricted to ASCII letters. */
  function Lower(s: string): (r: string)
    ensures |r| == |s|
    ensures forall i :: 0 <= i < |r| ==> r[i] == LowerChar(s[i])
    ensures forall c :: c in r ==> !IsUpper(c)
  {
    seq(|s|, i requires 0 <= i < |s| => LowerChar(s[i]))
  }

  /** The ASCII characters Python's `str.strip()` removes: space, tab, line
      feed, carriage return, vertical tab, form feed and the four separators
      U+001C to U+001F. */
  predicate IsSpace(c: char)
  {
    || c == ' ' || c == '\t' || c == '\n' || c == '\r' || c == '\U{000B}' || c == '\U{000C}'
    || ('\U{001C}' <= c <= '\U{001F}')
  }

  /** `s.lstrip()`: leading whitespace removed. */
  function TrimStart(s: string): (r: string)
    ensures |r| <= |s|
    ensures r == [] || !IsSpace(r[0])
    ensures |r| > 0 ==> r[|r| - 1] == s[|s| - 1]
  {
    if |s| > 0 && IsSpace(s[0]) then TrimStart(s[1..]) else s
  }

  /** `s.rstrip()`: trailing whitespace removed. */
  function TrimEnd(s: string): (r: string)
    ensures |r| <= |s|
    ensures r == [] || !IsSpace(r[|r| - 1])
    ensures |r| > 0 ==> r[0] == s[0]
  {
    if |s| > 0 && IsSpace(s[|s| - 1]) then TrimEnd(s[..|s| - 1]) else s
  }

  /** `s.strip()`: leading and trailing whitespace removed. */
  function Strip(s: string): (r: string)
    ensures |r| <= |s|
    ensures Clean(r)
  {
    TrimEnd(TrimStart(s))
  }

  lemma {:induction false} TrimStartChars(s: string)
    ensures forall c :: c in TrimStart(s) ==> c in s
  {
    if |s| > 0 && IsSpace(s[0]) {
      TrimStartChars(s[1..]);
    }
  }

  lemma {:induction false} TrimEndChars(s: string)
    ensures forall c :: c in TrimEnd(s) ==> c in s
  {
    if |s| > 0 && IsSpace(s[|s| - 1]) {
      TrimEndChars(s[..|s| - 1]);
    }
  }

  /** `strip()` keeps a part of the string: every character it keeps was there. */
  lemma StripChars(s: string)
    ensures forall c :: c in Strip(s) ==> c in s
  {
    TrimStartChars(s);
    TrimEndChars(TrimStart(s));
  }

  /** A string that `strip()` leaves as it is. */
  predicate Clean(s: string)
  {
    s == [] || (!IsSpace(s[0]) && !IsSpace(s[|s| - 1]))
  }

  lemma StripClean(s: string)
    requires Clean(s)
    ensures Strip(s) == s
  {
    assert TrimStart(s) == s;
  }

  lemma StripAfterSpace(s: string)
    requires Clean(s)
    ensures Strip([' '] + s) == s
  {
    var t := [' '] + s;
    assert t[1..] == s;
    assert TrimStart(s) == s;
    assert TrimStart(t) == s;
    StripClean(s);
  }

  predicate OccursAt(s: string, pat: string, i: nat)
  {
    i + |pat| <= |s| && s[i..i + |pat|] == pat
  }

  /** Index of the first occurrence of `pat` in `s`, as `str.find` computes it. */
  function Find(s: string, pat: string): (r: Option<nat>)
    requires |pat| > 0
    decreases |s|
  {
    if |s| < |pat| then None
    else if s[..|pat|] == pat then Some(0)
    else match Find(s[1..], pat)
      case None => None
      case Some(k) => Some(k + 1)
  }

  /** `Find` gives the first position where `pat` occurs, and nothing
      exactly when it occurs nowhere. */
  lemma {:induction false} FindSpec(s: string, pat: string)
    requires |pat| > 0
    ensures Find(s, pat).Some? ==> OccursAt(s, pat, Find(s, pat).value)
    ensures Find(s, pat).Some? ==> forall i: nat :: i < Find(s, pat).value ==> !OccursAt(s, pat, i)
    ensures Find(s, pat).None? ==> forall i: nat :: !OccursAt(s, pat, i)
    decreases |s|
  {
    if |s| >= |pat| && s[..|pat|] != pat {
      FindSpec(s[1..], pat);
      assert forall i: nat :: OccursAt(s, pat, i + 1) ==> OccursAt(s[1..], pat, i) by {
        forall i: nat | OccursAt(s, pat, i + 1) ensures OccursAt(s[1..], pat, i) {
          assert s[1..][i..i + |pat|] == s[i + 1..i + 1 + |pat|];
        }
      }
      match Find(s[1..], pat)
      case None =>
        forall i: nat ensures !OccursAt(s, pat, i) {
          if i > 0 { assert !OccursAt(s[1..], pat, i - 1); }
        }
      case Some(k) =>
        assert s[1..][k..k + |pat|] == s[k + 1..k + 1 + |pat|];
        forall i: nat | i < k + 1 ensures !OccursAt(s, pat, i) {
          if i > 0 { assert !OccursAt(s[1..], pat, i - 1); }
        }
    }
  }

  /** `pat in s`. */
  predicate Contains(s: string, pat: string)
    requires |pat| > 0
  {
    Find(s, pat).Some?
  }

  /** `s.startswith(p)`. */
  predicate StartsWith(s: string, p: string)
  {
    |p| <= |s| && s[..|p|] == p
  }

  /** `s.split(sep)` for a non-empty separator: the pieces between the
      non-overlapping occurrences of `sep`, scanned from the left. */
  function Split(s: string, sep: string): (r: seq<string>)
    requires |sep| > 0
    ensures |r| >= 1
    decreases |s|
  {
    match Find(s, sep)
    case None => [s]
    case Some(i) =>
      FindSpec(s, sep);
      [s[..i]] + Split(s[i + |sep|..], sep)
  }

  /** `sep.join(parts)`. */
  function Join(parts: seq<string>, sep: string): string
  {
    if |parts| == 0 then ""
    else if |parts| == 1 then parts[0]
    else parts[0] + sep + Join(parts[1..], sep)
  }

  function Last(parts: seq<string>): string
    requires |parts| > 0
  {
    parts[|parts| - 1]
  }

  /** Joining the pieces of a split with the same separator gives the string back. */
  lemma {:induction false} JoinSplit(s: string, sep: string)
    requires |sep| > 0
    ensures Join(Split(s, sep), sep) == s
    decreases |s|
  {
    FindSpec(s, sep);
    match Find(s, sep)
    case None =>
    case Some(i) =>
      var rest := s[i + |sep|..];
      var parts := Split(s, sep);
      assert parts == [s[..i]] + Split(rest, sep);
      assert parts[1..] == Split(rest, sep);
      JoinSplit(rest, sep);
      assert Join(parts, sep) == s[..i] + sep + rest;
      assert s == s[..i] + s[i..i + |sep|] + rest;
  }

  /** The second piece of a split exists exactly when the separator occurs. */
  lemma SplitHasSecond(s: string, sep: string)
    requires |sep| > 0
    ensures |Split(s, sep)| >= 2 <==> Contains(s, sep)
  {
  }

  /** Splitting at a separator character that the prefix does not contain
      cuts off exactly that prefix. */
  lemma SplitAtFirst(a: string, c: char, b: string)
    requires c !in a
    ensures Split(a + [c] + b, [c]) == [a] + Split(b, [c])
  {
    var s := a + [c] + b;
    assert OccursAt(s, [c], |a|);
    forall i: nat | i < |a| ensures !OccursAt(s, [c], i) {
      assert s[i..i + 1] == [a[i]];
    }
    FindSpec(s, [c]);
    var f := Find(s, [c]);
    assert f == Some(|a|);
    assert s[..|a|] == a;
    assert s[|a| + 1..] == b;
  }

  /** A lower-cased, stripped string contains no upper-case letter. */
  lemma LowerStripNoUpper(s: string)
    ensures forall c :: c in Strip(Lower(s)) ==> !IsUpper(c)
  {
    StripChars(Lower(s));
  }
}
