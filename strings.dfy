/**
 * Text helpers shared by the session controller and the report builder:
 * decimal rendering of sequence numbers, repeated characters (the ruled
 * lines and signature blanks) and path joining.
 */
module Strings {

  predicate IsDigit(c: char) {
    '0' <= c <= '9'
  }

  /** The decimal digit for d. */
  function Digit(d: nat): (c: char)
    requires d < 10
    ensures IsDigit(c)
    ensures DigitValue(c) == d
  {
    ('0' as int + d) as char
  }

  /** The number a digit stands for. */
  function DigitValue(c: char): nat
    requires IsDigit(c)
  {
    c as int - '0' as int
  }

  /** The number a string of decimal digits stands for, read left to right. */
  function DecimalValue(s: string): nat
    requires forall i :: 0 <= i < |s| ==> IsDigit(s[i])
  {
    if s == [] then 0 else 10 * DecimalValue(s[..|s| - 1]) + DigitValue(s[|s| - 1])
  }

  /** Decimal rendering of n, as Python's str(n) or an f-string gives it. */
  function NatToString(n: nat): (s: string)
    ensures |s| >= 1
    ensures forall i :: 0 <= i < |s| ==> IsDigit(s[i])
    ensures |s| == 1 <==> n < 10
    decreases n
  {
    if n < 10 then [Digit(n)] else NatToString(n / 10) + [Digit(n % 10)]
  }

  /** The rendering of n reads back to n and has no leading zero. */
  lemma {:induction false} NatToStringValue(n: nat)
    ensures DecimalValue(NatToString(n)) == n
    ensures |NatToString(n)| > 1 ==> NatToString(n)[0] != '0'
    decreases n
  {
    if n >= 10 {
      var s, front := NatToString(n), NatToString(n / 10);
      NatToStringValue(n / 10);
      assert s == front + [Digit(n % 10)];
      assert s[..|s| - 1] == front;
      assert s[0] == front[0];
    }
  }

  /** Different numbers are rendered differently. */
  lemma NatToStringInjective(a: nat, b: nat)
    requires NatToString(a) == NatToString(b)
    ensures a == b
  {
    NatToStringValue(a);
    NatToStringValue(b);
  }

  /** c repeated n times, as Python's c * n. */
  function Repeat(c: char, n: nat): (s: string)
    ensures |s| == n
    ensures forall i :: 0 <= i < n ==> s[i] == c
  {
    if n == 0 then [] else Repeat(c, n - 1) + [c]
  }

  /** A POSIX path joined as pathlib's `dir / name` prints it. */
  function Join(dir: string, name: string): string {
    dir + "/" + name
  }

  /**
   * When two strings both start with a part free of the separator
   * followed by the separator, those parts agree and so do the rests.
   */
  lemma SplitAtFirst(a: string, x: string, b: string, y: string, sep: char)
    requires sep !in a && sep !in b
    requires a + [sep] + x == b + [sep] + y
    ensures a == b && x == y
  {
    var s := a + [sep] + x;
    // the first separator of s sits right after a, and right after b
    assert s[|a|] == sep && s[|b|] == sep;
    assert forall i :: 0 <= i < |a| ==> s[i] == a[i] != sep;
    assert forall i :: 0 <= i < |b| ==> s[i] == b[i] != sep;
    assert a == s[..|a|] == b;
    assert x == s[|a| + 1..] == y;
  }

  /** Equal strings with a common start agree after it. */
  lemma DropCommonPrefix(f: string, p: string, q: string)
    requires f + p == f + q
    ensures p == q
  {
    assert p == (f + p)[|f|..];
  }

  /** Equal strings with a common end agree before it. */
  lemma DropCommonSuffix(p: string, q: string, f: string)
    requires p + f == q + f
    ensures p == q
  {
    assert p == (p + f)[..|p|];
  }
}
