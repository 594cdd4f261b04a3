/**
 * Strings as the generator uses them: Python's `str.replace` on a
 * non-empty pattern, `in` on strings, and `str` applied to an int.
 */
module Text {

  /** `p` is a prefix of `s` (Python's `s.startswith(p)`). */
  predicate StartsWith(s: string, p: string) {
    |p| <= |s| && s[..|p|] == p
  }

  /** `p` occurs somewhere in `s` (Python's `p in s`). */
  predicate Contains(s: string, p: string) {
    exists i :: 0 <= i <= |s| && StartsWith(s[i..], p)
  }

  /**
   * Python's `s.replace(pat, rep)` for a non-empty `pat`: occurrences are
   * found from left to right, do not overlap, and the text put in their
   * place is not searched again.
   */
  function ReplaceAll(s: string, pat: string, rep: string): (r: string)
    requires pat != []
    ensures rep == pat ==> r == s
    decreases |s|
  {
    if StartsWith(s, pat) then
      assert s == s[..|pat|] + s[|pat|..];
      rep + ReplaceAll(s[|pat|..], pat, rep)
    else if s == [] then []
    else [s[0]] + ReplaceAll(s[1..], pat, rep)
  }

  /** Replacing a pattern that does not occur leaves the string as it was. */
  lemma {:induction false} ReplaceAllAbsent(s: string, pat: string, rep: string)
    requires pat != [] && !Contains(s, pat)
    ensures ReplaceAll(s, pat, rep) == s
    decreases |s|
  {
    assert s[0..] == s;
    if s != [] {
      forall i | 0 <= i <= |s[1..]|
        ensures !StartsWith(s[1..][i..], pat)
      {
        assert s[1..][i..] == s[i + 1..];
      }
      ReplaceAllAbsent(s[1..], pat, rep);
      assert [s[0]] + s[1..] == s;
    }
  }

  /** A string in which `c` never occurs has no occurrence of a pattern that starts with `c`. */
  lemma AbsentCharNotContained(s: string, p: string)
    requires p != [] && p[0] !in s
    ensures !Contains(s, p)
  {
    forall i | 0 <= i <= |s|
      ensures !StartsWith(s[i..], p)
    {
      if |p| <= |s[i..]| {
        assert s[i..][..|p|][0] == s[i];
      }
    }
  }

  /**
   * No occurrence of `pat` starts inside `a` when `a` is followed by `b`:
   * then replacing in `a + b` leaves `a` alone and works on `b`.
   */
  ghost predicate NoMatchStartsIn(a: string, b: string, pat: string) {
    forall j :: 0 <= j < |a| ==> !StartsWith(a[j..] + b, pat)
  }

  lemma {:induction false} ReplaceAllSkips(a: string, b: string, pat: string, rep: string)
    requires pat != []
    requires NoMatchStartsIn(a, b, pat)
    ensures ReplaceAll(a + b, pat, rep) == a + ReplaceAll(b, pat, rep)
    decreases |a|
  {
    var s := a + b;
    if a != [] {
      assert a[0..] == a;
      assert !StartsWith(s, pat);
      assert s[1..] == a[1..] + b;
      forall j | 0 <= j < |a[1..]|
        ensures !StartsWith(a[1..][j..] + b, pat)
      {
        assert a[1..][j..] == a[j + 1..];
      }
      ReplaceAllSkips(a[1..], b, pat, rep);
      calc {
        ReplaceAll(s, pat, rep);
        [s[0]] + ReplaceAll(s[1..], pat, rep);
        [a[0]] + (a[1..] + ReplaceAll(b, pat, rep));
        { assert [a[0]] + a[1..] == a; }
        a + ReplaceAll(b, pat, rep);
      }
    } else {
      assert s == b;
    }
  }

  /** An occurrence at the very front is replaced and scanning resumes after it. */
  lemma ReplaceAllAtFront(pat: string, b: string, rep: string)
    requires pat != []
    ensures ReplaceAll(pat + b, pat, rep) == rep + ReplaceAll(b, pat, rep)
  {
    assert (pat + b)[..|pat|] == pat;
    assert (pat + b)[|pat|..] == b;
  }

  /** A text without the character `c` of a pattern's head lets no occurrence start in it. */
  lemma NoMatchInCharFree(a: string, b: string, pat: string)
    requires pat != [] && pat[0] !in a
    ensures NoMatchStartsIn(a, b, pat)
  {
    forall j | 0 <= j < |a|
      ensures !StartsWith(a[j..] + b, pat)
    {
      if |pat| <= |a[j..] + b| {
        assert (a[j..] + b)[..|pat|][0] == a[j];
      }
    }
  }

  // ---------------------------------------------------------------- numbers

  predicate IsDigit(c: char) {
    '0' <= c <= '9'
  }

  function DigitChar(d: nat): (c: char)
    requires d < 10
    ensures IsDigit(c)
  {
    "0123456789"[d]
  }

  function DigitValue(c: char): (d: nat)
    requires IsDigit(c)
    ensures d < 10
  {
    c as int - '0' as int
  }

  /** The decimal digits of `n`, most significant first, without leading zeros. */
  function NatToString(n: nat): (s: string)
    ensures s != []
    ensures forall i :: 0 <= i < |s| ==> IsDigit(s[i])
    decreases n
  {
    if n < 10 then [DigitChar(n)] else NatToString(n / 10) + [DigitChar(n % 10)]
  }

  /** Python's `str` on an int: a minus sign for negative values, then the decimal digits. */
  function IntToString(i: int): (s: string)
    ensures s != []
    ensures forall k :: 0 <= k < |s| ==> IsDigit(s[k]) || s[k] == '-'
    ensures 0 <= i ==> forall k :: 0 <= k < |s| ==> IsDigit(s[k])
  {
    if i < 0 then "-" + NatToString(-i) else NatToString(i)
  }

  /** The number a non-empty run of decimal digits stands for. */
  function ParseNat(s: string): (n: nat)
    requires s != [] && forall i :: 0 <= i < |s| ==> IsDigit(s[i])
    decreases |s|
  {
    if |s| == 1 then DigitValue(s[0])
    else ParseNat(s[..|s| - 1]) * 10 + DigitValue(s[|s| - 1])
  }

  /** The decimal text of a number reads back as that number, so `str` is injective. */
  lemma {:induction false} ParseNatToString(n: nat)
    ensures ParseNat(NatToString(n)) == n
    decreases n
  {
    var s := NatToString(n);
    if n >= 10 {
      assert s[..|s| - 1] == NatToString(n / 10);
      ParseNatToString(n / 10);
    }
  }

  lemma IntToStringInjective(a: nat, b: nat)
    requires IntToString(a) == IntToString(b)
    ensures a == b
  {
    ParseNatToString(a);
    ParseNatToString(b);
  }

  /** The position of the first `c` in `s`, or `|s|` when there is none. */
  function IndexOf(s: string, c: char): (k: nat)
    ensures k <= |s|
    ensures k < |s| ==> s[k] == c
    ensures forall j :: 0 <= j < k ==> s[j] != c
  {
    if s == [] then 0 else if s[0] == c then 0 else 1 + IndexOf(s[1..], c)
  }

  /** The first '-' after a run of digits is right after the run. */
  lemma DashAfterDigits(a: string, rest: string)
    requires forall i :: 0 <= i < |a| ==> IsDigit(a[i])
    requires rest != [] && rest[0] == '-'
    ensures IndexOf(a + rest, '-') == |a|
  {
    var s := a + rest;
    var k := IndexOf(s, '-');
    assert s[|a|] == '-';
    assert forall j :: 0 <= j < |a| ==> s[j] == a[j];
  }
}
