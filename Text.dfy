/**
 * The few Python string operations the bridge and the configuration
 * manager rely on: `str.lower`, `str.strip`, `in` on strings,
 * `str.startswith`, `int(...)` on a decimal string and `f"{n}"` on an int.
 */
module Text {

  import opened Wrappers

  /** Python's `str.isspace` for one character (the full set Python 3 uses). */
  predicate IsSpace(c: char) {
    || c == ' ' || c == '\t' || c == '\n' || c == '\r'
    || c == '\U{000B}' || c == '\U{000C}'
    || ('\U{001C}' <= c <= '\U{001F}')
    || c == '\U{0085}' || c == '\U{00A0}' || c == '\U{1680}'
    || ('\U{2000}' <= c <= '\U{200A}')
    || c == '\U{2028}' || c == '\U{2029}' || c == '\U{202F}'
    || c == '\U{205F}' || c == '\U{3000}'
  }

  predicate IsUpper(c: char) { 'A' <= c <= 'Z' }

  /** Lower-casing of one character (ASCII letters only). */
  function LowerChar(c: char): (r: char)
    ensures IsUpper(c) ==> r as int == c as int + 32
    ensures !IsUpper(c) ==> r == c
    ensures !IsUpper(r)
  {
    if IsUpper(c) then (c as int + 32) as char else c
  }

  /** `s.lower()`, character by character. */
  function Lower(s: string): (r: string)
    ensures |r| == |s|
    ensures forall i :: 0 <= i < |s| ==> r[i] == LowerChar(s[i])
  {
    if s == [] then [] else [LowerChar(s[0])] + Lower(s[1..])
  }

  /** Lower-casing is idempotent: a lower-cased string has no upper-case letter left. */
  lemma LowerIdempotent(s: string)
    ensures Lower(Lower(s)) == Lower(s)
  {
    assert forall i :: 0 <= i < |s| ==> LowerChar(LowerChar(s[i])) == LowerChar(s[i]);
  }

  /** Two strings that differ only in letter case. */
  predicate SameUpToCase(a: string, b: string) {
    |a| == |b| && forall i :: 0 <= i < |a| ==> LowerChar(a[i]) == LowerChar(b[i])
  }

  lemma SameUpToCaseLower(a: string, b: string)
    requires SameUpToCase(a, b)
    ensures Lower(a) == Lower(b)
  {
  }

  /** A string without upper-case letters is its own lower-casing. */
  lemma LowerOfNoUpper(s: string)
    requires forall j :: 0 <= j < |s| ==> !IsUpper(s[j])
    ensures Lower(s) == s
  {
  }

  /** `l` is `s` with `LowerChar` applied at every position. */
  ghost predicate LowerImage(s: string, l: string) {
    |l| == |s| && forall k :: 0 <= k < |s| ==> l[k] == LowerChar(s[k])
  }

  lemma LowerIsImage(s: string)
    ensures LowerImage(s, Lower(s))
  {
  }

  /** A string lower-cases to a lower-case `w` exactly when it equals `w` up to case. */
  lemma LowerEqualsIff(a: string, w: string)
    requires Lower(w) == w
    ensures Lower(a) == w <==> SameUpToCase(a, w)
  {
    LowerIsImage(a);
    LowerIsImage(w);
    ImageEqualsIff(a, Lower(a), w, Lower(w));
  }

  lemma ImageEqualsIff(a: string, la: string, w: string, lw: string)
    requires LowerImage(a, la) && LowerImage(w, lw) && lw == w
    ensures la == w <==> SameUpToCase(a, w)
  {
    if la == w {
      forall i | 0 <= i < |a|
        ensures LowerChar(a[i]) == LowerChar(w[i])
      {
        assert la[i] == w[i] == lw[i];
      }
    }
    if SameUpToCase(a, w) {
      forall i | 0 <= i < |a|
        ensures la[i] == w[i]
      {
        assert lw[i] == w[i];
      }
    }
  }

  /** Number of leading whitespace characters. */
  function LeadingSpaces(s: string): (n: nat)
    ensures n <= |s|
    ensures forall j :: 0 <= j < n ==> IsSpace(s[j])
    ensures n < |s| ==> !IsSpace(s[n])
  {
    if |s| > 0 && IsSpace(s[0]) then 1 + LeadingSpaces(s[1..]) else 0
  }

  /** Index where the trailing run of whitespace begins. */
  function TrailingStart(s: string): (m: nat)
    ensures m <= |s|
    ensures forall j :: m <= j < |s| ==> IsSpace(s[j])
    ensures m > 0 ==> !IsSpace(s[m - 1])
  {
    if |s| > 0 && IsSpace(s[|s| - 1]) then TrailingStart(s[..|s| - 1]) else |s|
  }

  /** `s.strip()`: drop leading and trailing whitespace. */
  function Strip(s: string): (r: string)
    ensures LeadingSpaces(s) + |r| <= |s|
    ensures r == s[LeadingSpaces(s)..LeadingSpaces(s) + |r|]
    ensures r != [] ==> !IsSpace(r[0]) && !IsSpace(r[|r| - 1])
    ensures forall j :: LeadingSpaces(s) + |r| <= j < |s| ==> IsSpace(s[j])
  {
    var a := LeadingSpaces(s);
    var t := s[a..];
    var m := TrailingStart(t);
    assert forall j :: a + m <= j < |s| ==> s[j] == t[j - a];
    t[..m]
  }

  /** `p` occurs in `s` starting at index `i`. */
  predicate OccursAt(s: string, p: string, i: nat) {
    i + |p| <= |s| && s[i..i + |p|] == p
  }

  /** Python's `p in s` on strings: `p` is a substring of `s`. */
  predicate Contains(s: string, p: string) {
    exists i: nat | i <= |s| :: OccursAt(s, p, i)
  }

  /** `s.startswith(p)`. */
  predicate StartsWith(s: string, p: string) {
    |p| <= |s| && s[..|p|] == p
  }

  /** A slice of a slice is a slice of the original. */
  lemma SliceOfSlice(s: string, lo: nat, hi: nat, i: nat, k: nat)
    requires lo <= hi <= |s| && i <= k <= hi - lo
    ensures s[lo..hi][i..k] == s[lo + i..lo + k]
  {
    var x := s[lo..hi][i..k];
    var y := s[lo + i..lo + k];
    assert |x| == |y|;
    forall t | 0 <= t < |x|
      ensures x[t] == y[t]
    {
      assert x[t] == s[lo..hi][i + t] == s[lo + i + t];
    }
  }

  /** An occurrence starts with the pattern's first character and ends with its last. */
  lemma OccursAtEnds(s: string, p: string, i: nat)
    requires p != [] && OccursAt(s, p, i)
    ensures s[i] == p[0] && s[i + |p| - 1] == p[|p| - 1]
  {
    assert s[i..i + |p|][0] == s[i];
    assert s[i..i + |p|][|p| - 1] == s[i + |p| - 1];
  }

  /** An occurrence inside a window of `s` is an occurrence in that window. */
  lemma OccursInWindow(s: string, p: string, i: nat, lo: nat, hi: nat)
    requires OccursAt(s, p, i) && lo <= i && i + |p| <= hi <= |s|
    ensures OccursAt(s[lo..hi], p, i - lo)
  {
    SliceOfSlice(s, lo, hi, i - lo, i - lo + |p|);
  }

  /** An occurrence of a non-whitespace-bounded pattern lies inside the stripped text. */
  lemma OccursInStripped(s: string, p: string, i: nat)
    requires p != [] && !IsSpace(p[0]) && !IsSpace(p[|p| - 1])
    requires OccursAt(s, p, i)
    ensures LeadingSpaces(s) <= i && OccursAt(Strip(s), p, i - LeadingSpaces(s))
  {
    OccursAtEnds(s, p, i);
    NonSpaceIsNotLeading(s, i);
    NonSpaceIsNotTrailing(s, i + |p| - 1);
    OccursInWindow(s, p, i, LeadingSpaces(s), LeadingSpaces(s) + |Strip(s)|);
  }

  /** A non-whitespace character is not part of the leading whitespace. */
  lemma NonSpaceIsNotLeading(s: string, i: nat)
    requires i < |s| && !IsSpace(s[i])
    ensures LeadingSpaces(s) <= i
  {
  }

  /** A non-whitespace character is not part of the trailing whitespace. */
  lemma NonSpaceIsNotTrailing(s: string, i: nat)
    requires i < |s| && !IsSpace(s[i])
    ensures i < LeadingSpaces(s) + |Strip(s)|
  {
  }

  /** An occurrence in the stripped text is one in the original, shifted by the leading whitespace. */
  lemma OccursInOriginal(s: string, p: string, i: nat)
    requires OccursAt(Strip(s), p, i)
    ensures OccursAt(s, p, LeadingSpaces(s) + i)
  {
    WindowOccurrence(s, p, i, LeadingSpaces(s), LeadingSpaces(s) + |Strip(s)|);
  }

  /** An occurrence in a window of `s` is an occurrence in `s`, shifted by the window's start. */
  lemma WindowOccurrence(s: string, p: string, i: nat, lo: nat, hi: nat)
    requires lo <= hi <= |s| && OccursAt(s[lo..hi], p, i)
    ensures OccursAt(s, p, lo + i)
  {
    SliceOfSlice(s, lo, hi, i, i + |p|);
  }

  /** A non-whitespace-bounded pattern occurs in `s` iff it occurs in `s.strip()`. */
  lemma ContainsStripped(s: string, p: string)
    requires p != [] && !IsSpace(p[0]) && !IsSpace(p[|p| - 1])
    ensures Contains(Strip(s), p) <==> Contains(s, p)
  {
    if Contains(s, p) {
      var i: nat :| i <= |s| && OccursAt(s, p, i);
      OccursInStripped(s, p, i);
    }
    if Contains(Strip(s), p) {
      var i: nat :| i <= |Strip(s)| && OccursAt(Strip(s), p, i);
      OccursInOriginal(s, p, i);
    }
  }

  // ---- decimal integers ----------------------------------------------------

  predicate IsDigit(c: char) { '0' <= c <= '9' }

  function DigitValue(c: char): (d: nat)
    requires IsDigit(c)
    ensures d < 10
  {
    c as int - '0' as int
  }

  function DigitChar(d: nat): (c: char)
    requires d < 10
    ensures IsDigit(c) && DigitValue(c) == d
  {
    ('0' as int + d) as char
  }

  predicate AllDigits(s: string) {
    forall i :: 0 <= i < |s| ==> IsDigit(s[i])
  }

  /** The value of a string of decimal digits, read left to right. */
  function DigitsValue(s: string): (n: nat)
    requires AllDigits(s)
  {
    if s == [] then 0 else 10 * DigitsValue(s[..|s| - 1]) + DigitValue(s[|s| - 1])
  }

  /** Decimal rendering of a natural number, without leading zeros. */
  function NatToString(n: nat): (s: string)
    ensures |s| >= 1 && AllDigits(s)
    ensures |s| > 1 ==> s[0] != '0'
  {
    if n < 10 then [DigitChar(n)] else NatToString(n / 10) + [DigitChar(n % 10)]
  }

  /** Python's `f"{n}"` / `str(n)` on an int. */
  function IntToString(n: int): (s: string)
    ensures |s| >= 1
    ensures n < 0 <==> s[0] == '-'
  {
    if n < 0 then "-" + NatToString(-n) else NatToString(n)
  }

  /**
   * `int(s)` restricted to an optional sign and one or more ASCII digits;
   * any other string makes Python raise ValueError, here None.
   */
  function ParseInt(s: string): (r: Option<int>)
    ensures r.Some? <==> (s != [] && AllDigits(s)) || (|s| >= 2 && (s[0] == '-' || s[0] == '+') && AllDigits(s[1..]))
    ensures r.Some? && s[0] == '-' ==> r.value <= 0
    ensures r.Some? && s[0] != '-' ==> r.value >= 0
  {
    if |s| >= 1 && (s[0] == '-' || s[0] == '+') then
      var body := s[1..];
      if body != [] && AllDigits(body) then
        var v: int := DigitsValue(body);
        Some(if s[0] == '-' then -v else v)
      else None
    else if s != [] && AllDigits(s) then Some(DigitsValue(s))
    else None
  }

  lemma {:induction false} NatToStringRoundTrip(n: nat)
    ensures DigitsValue(NatToString(n)) == n
  {
    if n >= 10 {
      NatToStringRoundTrip(n / 10);
      var s := NatToString(n / 10);
      assert (s + [DigitChar(n % 10)])[..|s|] == s;
    }
  }

  /** Parsing what `IntToString` renders gives back the number. */
  lemma IntToStringRoundTrip(n: int)
    ensures ParseInt(IntToString(n)) == Some(n)
  {
    if n < 0 {
      NatToStringRoundTrip(-n);
      assert IntToString(n)[1..] == NatToString(-n);
    } else {
      NatToStringRoundTrip(n);
    }
  }

  /** Python's `s[:n]` for `n >= 0`. */
  function Take(s: string, n: nat): (r: string)
    ensures |r| == if n <= |s| then n else |s|
    ensures r == s[..|r|]
  {
    if n <= |s| then s[..n] else s
  }

  /** Python's `s[-n:]` for `n > 0`. */
  function TakeLast(s: string, n: nat): (r: string)
    requires n > 0
    ensures |r| == if n <= |s| then n else |s|
    ensures r == s[|s| - |r|..]
  {
    if n <= |s| then s[|s| - n..] else s
  }
}
