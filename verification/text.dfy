/** Character classes and small scanners over file names.

    The classes follow Python's `re` module on ASCII text: `\d` is a
    decimal digit, `\w` a letter, digit or underscore, and `.` (without
    the DOTALL flag) any character except a line feed. */
module Text {

  datatype Option<+T> = None | Some(value: T)

  predicate IsDigit(c: char) { '0' <= c <= '9' }

  predicate IsWordChar(c: char) {
    'a' <= c <= 'z' || 'A' <= c <= 'Z' || '0' <= c <= '9' || c == '_'
  }

  /** Every character is a digit (the empty text included). */
  predicate AllDigits(s: string) {
    forall i :: 0 <= i < |s| ==> IsDigit(s[i])
  }

  /** `\d{n}` */
  predicate Digits(s: string, n: nat) { |s| == n && AllDigits(s) }

  /** `\d+` (and `\d+?`: laziness does not change what can match) */
  predicate DigitRun(s: string) { |s| >= 1 && AllDigits(s) }

  /** `\w+` */
  predicate WordRun(s: string) {
    |s| >= 1 && forall i :: 0 <= i < |s| ==> IsWordChar(s[i])
  }

  /** `.+` without DOTALL: non-empty text without a line feed */
  predicate AnyRun(s: string) { |s| >= 1 && '\n' !in s }

  predicate StartsWith(s: string, p: string) { |p| <= |s| && s[..|p|] == p }

  predicate EndsWith(s: string, p: string) { |p| <= |s| && s[|s| - |p|..] == p }

  /** Length of the longest prefix of `s` made of digits. */
  function DigitSpan(s: string): (n: nat)
    ensures n <= |s| && AllDigits(s[..n])
    ensures n < |s| ==> !IsDigit(s[n])
  {
    if s == [] || !IsDigit(s[0]) then 0
    else
      1 + DigitSpan(s[1..])
  }

  lemma DigitSpanOf(d: string, x: string)
    requires AllDigits(d)
    requires x == [] || !IsDigit(x[0])
    ensures DigitSpan(d + x) == |d|
  {
    assert (d + x)[..|d|] == d;
    assert x != [] ==> (d + x)[|d|] == x[0];
  }

  /** A lazy digit run immediately followed by the literal `lit`: since `lit` does not
      start with a digit, the digits must be the whole leading digit run.
      Gives the digits and the text after `lit`. */
  function SplitDigits(s: string, lit: string): (r: Option<(string, string)>)
    ensures r.Some? ==> DigitRun(r.value.0) && s == r.value.0 + lit + r.value.1
  {
    var n := DigitSpan(s);
    if 1 <= n && StartsWith(s[n..], lit) then
      assert s == s[..n] + lit + s[n + |lit|..] by {
        assert s[n..] == lit + s[n + |lit|..];
        assert s == s[..n] + s[n..];
      }
      Some((s[..n], s[n + |lit|..]))
    else None
  }

  /** SplitDigits recovers the digit run and the remainder it was built from. */
  lemma SplitDigitsOf(d: string, lit: string, rest: string)
    requires DigitRun(d) && lit != [] && !IsDigit(lit[0])
    ensures SplitDigits(d + lit + rest, lit) == Some((d, rest))
  {
    var s := d + lit + rest;
    assert s == d + (lit + rest);
    DigitSpanOf(d, lit + rest);
    assert s[|d|..] == lit + rest;
    assert s[..|d|] == d;
    assert s[|d| + |lit|..] == rest;
  }

  /** Index of the last '.' in `s`, if any. */
  function LastDot(s: string): (r: Option<nat>)
    ensures r.Some? ==> r.value < |s| && s[r.value] == '.' && '.' !in s[r.value + 1..]
    ensures r.None? ==> '.' !in s
  {
    if s == [] then None
    else if s[|s| - 1] == '.' then Some(|s| - 1)
    else
      var r := LastDot(s[..|s| - 1]);
      assert r.Some? ==> s[r.value + 1..] == s[..|s| - 1][r.value + 1..] + [s[|s| - 1]];
      assert s == s[..|s| - 1] + [s[|s| - 1]];
      r
  }

  /** In `a + "." + w` with no dot in `w`, the last dot is the one after `a`. */
  lemma LastDotOf(a: string, w: string)
    requires '.' !in w
    ensures LastDot(a + "." + w) == Some(|a|)
  {
    var s := a + "." + w;
    assert s[|a|] == '.';
  }

  /** Two texts whose last dot-separated segments hold no dot and which
      are equal have equal last segments. */
  lemma SameLastSegment(a: string, w: string, b: string, v: string)
    requires '.' !in w && '.' !in v && a + "." + w == b + "." + v
    ensures w == v
  {
    LastDotOf(a, w);
    LastDotOf(b, v);
    var s := a + "." + w;
    assert w == s[|a| + 1..];
    assert v == (b + "." + v)[|b| + 1..];
  }

  lemma DropSuffix(a: string, b: string, x: string)
    requires a + x == b + x
    ensures a == b
  {
    assert a == (a + x)[..|a|];
    assert b == (b + x)[..|b|];
  }

  lemma WordRunHasNoDot(x: string)
    requires WordRun(x)
    ensures '.' !in x
  {
    assert forall i :: 0 <= i < |x| ==> IsWordChar(x[i]);
  }

  lemma EndsWithShorter(s: string, x: string)
    requires EndsWith(s, x) && x != []
    ensures EndsWith(s, x[1..])
  {
    assert s[|s| - |x| + 1..] == s[|s| - |x|..][1..];
  }
}
