/** The string operations the core relies on: Python's `in` on strings,
    `str.replace` (every occurrence, scanned left to right) and `str(n)` for a
    non-negative integer. */
module Strings {

  /** `pat` occurs in `s` starting at index `i`. */
  predicate OccursAt(s: string, pat: string, i: int) {
    0 <= i && i + |pat| <= |s| && s[i..i + |pat|] == pat
  }

  lemma OccursAtShift(s: string, pat: string)
    requires |s| > 0
    ensures forall i :: 1 <= i ==> (OccursAt(s, pat, i) <==> OccursAt(s[1..], pat, i - 1))
  {
    forall i | 1 <= i
      ensures OccursAt(s, pat, i) <==> OccursAt(s[1..], pat, i - 1)
    {
      if i + |pat| <= |s| {
        var a, b := s[i..i + |pat|], s[1..][i - 1..i - 1 + |pat|];
        assert forall k | 0 <= k < |pat| :: a[k] == b[k];
        assert a == b;
      }
    }
  }

  /** Past a position where `pat` does not start, the occurrences are those of the tail. */
  lemma ContainsStep(s: string, pat: string)
    requires |s| >= |pat|
    requires !OccursAt(s, pat, 0)
    ensures |s| > 0
    ensures (exists i :: OccursAt(s, pat, i)) <==> (exists i :: OccursAt(s[1..], pat, i))
  {
    assert s[0..0] == [];
    OccursAtShift(s, pat);
    if i :| OccursAt(s[1..], pat, i) {
      assert OccursAt(s, pat, i + 1);
    }
    if i :| OccursAt(s, pat, i) {
      assert OccursAt(s[1..], pat, i - 1);
    }
  }

  /** Python's `pat in s`. */
  function Contains(s: string, pat: string): (b: bool)
    ensures b <==> exists i :: OccursAt(s, pat, i)
    decreases |s|
  {
    if |s| < |pat| then false
    else if s[..|pat|] == pat then assert OccursAt(s, pat, 0); true
    else
      assert !OccursAt(s, pat, 0);
      ContainsStep(s, pat); Contains(s[1..], pat)
  }

  /** Python's `s.replace(pat, rep)`: every non-overlapping occurrence of `pat`,
      found scanning from the left, is replaced by `rep`. */
  function ReplaceAll(s: string, pat: string, rep: string): string
    requires |pat| > 0
    decreases |s|
  {
    if |s| < |pat| then s
    else if s[..|pat|] == pat then rep + ReplaceAll(s[|pat|..], pat, rep)
    else [s[0]] + ReplaceAll(s[1..], pat, rep)
  }

  /** A string in which `pat` does not occur is returned unchanged. */
  lemma {:induction false} ReplaceAllAbsent(s: string, pat: string, rep: string)
    requires |pat| > 0
    requires !Contains(s, pat)
    ensures ReplaceAll(s, pat, rep) == s
    decreases |s|
  {
    if |s| >= |pat| {
      assert !OccursAt(s, pat, 0);
      ContainsStep(s, pat);
      ReplaceAllAbsent(s[1..], pat, rep);
    }
  }

  /** If `pat` starts nowhere in `a + pat + b` before `pat` itself, it does
      not start at 0, and nowhere in the tail before `pat` either. */
  lemma NoEarlierOccurrence(a: string, pat: string, b: string)
    requires |a| > 0
    requires forall i :: 0 <= i < |a| ==> !OccursAt(a + pat + b, pat, i)
    ensures (a + pat + b)[..|pat|] != pat
    ensures forall i :: 0 <= i < |a| - 1 ==> !OccursAt(a[1..] + pat + b, pat, i)
  {
    var s := a + pat + b;
    assert !OccursAt(s, pat, 0);
    assert s[1..] == a[1..] + pat + b;
    OccursAtShift(s, pat);
    forall i | 0 <= i < |a| - 1
      ensures !OccursAt(a[1..] + pat + b, pat, i)
    {
      assert !OccursAt(s, pat, i + 1);
    }
  }

  /** When the first occurrence of `pat` in `a + pat + b` is the one after `a`,
      the replacement keeps `a`, substitutes that occurrence and goes on in `b`. */
  lemma {:induction false} ReplaceAllSplit(a: string, pat: string, b: string, rep: string)
    requires |pat| > 0
    requires forall i :: 0 <= i < |a| ==> !OccursAt(a + pat + b, pat, i)
    ensures ReplaceAll(a + pat + b, pat, rep) == a + rep + ReplaceAll(b, pat, rep)
    decreases |a|
  {
    var s := a + pat + b;
    if a == [] {
      assert s[..|pat|] == pat;
      assert s[|pat|..] == b;
    } else {
      NoEarlierOccurrence(a, pat, b);
      assert s[1..] == a[1..] + pat + b;
      assert ReplaceAll(s, pat, rep) == [s[0]] + ReplaceAll(a[1..] + pat + b, pat, rep);
      ReplaceAllSplit(a[1..], pat, b, rep);
      assert [s[0]] + (a[1..] + rep + ReplaceAll(b, pat, rep)) == a + rep + ReplaceAll(b, pat, rep);
    }
  }

  predicate IsDigit(c: char) {
    '0' <= c <= '9'
  }

  function DigitChar(d: nat): (c: char)
    requires d < 10
    ensures IsDigit(c)
  {
    (48 + d) as char
  }

  function DigitValue(c: char): nat
    requires IsDigit(c)
  {
    c as int - 48
  }

  /** Python's `str(n)` for `n >= 0`: decimal digits, no sign, no leading zero. */
  function DecimalString(n: nat): (s: string)
    ensures |s| >= 1 && forall i :: 0 <= i < |s| ==> IsDigit(s[i])
    ensures s[0] == '0' ==> n == 0
    decreases n
  {
    if n < 10 then [DigitChar(n)]
    else DecimalString(n / 10) + [DigitChar(n % 10)]
  }

  /** The number a string of decimal digits denotes. */
  function DecimalValue(s: string): nat
    requires forall i :: 0 <= i < |s| ==> IsDigit(s[i])
  {
    if s == [] then 0 else DecimalValue(s[..|s| - 1]) * 10 + DigitValue(s[|s| - 1])
  }

  /** Reading back the decimal string of `n` gives `n`. */
  lemma {:induction false} DecimalRoundTrip(n: nat)
    ensures DecimalValue(DecimalString(n)) == n
    decreases n
  {
    if n >= 10 {
      var s := DecimalString(n);
      assert s[..|s| - 1] == DecimalString(n / 10);
      DecimalRoundTrip(n / 10);
    }
  }

  /** Distinct numbers have distinct decimal strings. */
  lemma DecimalInjective(a: nat, b: nat)
    requires DecimalString(a) == DecimalString(b)
    ensures a == b
  {
    DecimalRoundTrip(a);
    DecimalRoundTrip(b);
  }
}
