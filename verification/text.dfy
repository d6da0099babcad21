/**
 Strings as the service composes them: Python's `sep.join(parts)`, `str(int)`,
 and the substring and affix relations used to state what a message contains.
 */
module Text {

  /** Python's `sep.join(parts)`. */
  function Join(sep: string, parts: seq<string>): string
    decreases |parts|
  {
    if |parts| == 0 then ""
    else if |parts| == 1 then parts[0]
    else parts[0] + sep + Join(sep, parts[1..])
  }

  /** `t` occurs in `s` as a contiguous block (Python's `t in s`). */
  predicate Contains(s: string, t: string) {
    exists k :: 0 <= k <= |s| - |t| && OccursAt(s, t, k)
  }

  /** `t` occurs in `s` starting at position `k`. */
  predicate OccursAt(s: string, t: string, k: int) {
    0 <= k <= |s| - |t| && s[k..k + |t|] == t
  }

  predicate StartsWith(s: string, prefix: string) {
    |prefix| <= |s| && s[..|prefix|] == prefix
  }

  predicate EndsWith(s: string, suffix: string) {
    |suffix| <= |s| && s[|s| - |suffix|..] == suffix
  }

  lemma ContainsPrefix(t: string, u: string)
    ensures Contains(t + u, t)
  {
    assert OccursAt(t + u, t, 0);
  }

  lemma ContainsInLeft(t: string, u: string, x: string)
    requires Contains(t, x)
    ensures Contains(t + u, x)
  {
    var k :| 0 <= k <= |t| - |x| && OccursAt(t, x, k);
    assert (t + u)[k..k + |x|] == t[k..k + |x|];
    assert OccursAt(t + u, x, k);
  }

  lemma ContainsInRight(t: string, u: string, x: string)
    requires Contains(u, x)
    ensures Contains(t + u, x)
  {
    var k :| 0 <= k <= |u| - |x| && OccursAt(u, x, k);
    assert (t + u)[|t| + k..|t| + k + |x|] == u[k..k + |x|];
    assert OccursAt(t + u, x, |t| + k);
  }

  lemma ContainsTransitive(s: string, t: string, x: string)
    requires Contains(s, t) && Contains(t, x)
    ensures Contains(s, x)
  {
    var k :| 0 <= k <= |s| - |t| && OccursAt(s, t, k);
    var l :| 0 <= l <= |t| - |x| && OccursAt(t, x, l);
    assert s[k..k + |t|] == t;
    forall m | 0 <= m < |x| ensures s[k + l + m] == x[m] {
      assert s[k + l + m] == s[k..k + |t|][l + m];
      assert t[l + m] == t[l..l + |x|][m];
    }
    assert s[k + l..k + l + |x|] == x;
    assert OccursAt(s, x, k + l);
  }

  lemma Framed(prefix: string, middle: string, suffix: string)
    ensures StartsWith(prefix + middle + suffix, prefix)
    ensures EndsWith(prefix + middle + suffix, suffix)
  {
  }

  /** Every part of a join appears in the joined string. */
  lemma {:induction false} JoinContainsEach(sep: string, parts: seq<string>, i: nat)
    requires i < |parts|
    ensures Contains(Join(sep, parts), parts[i])
    decreases |parts|
  {
    if |parts| == 1 {
      assert Join(sep, parts) == parts[0];
      ContainsPrefix(parts[0], "");
      assert parts[0] + "" == parts[0];
    } else if i == 0 {
      assert Join(sep, parts) == parts[0] + (sep + Join(sep, parts[1..]));
      ContainsPrefix(parts[0], sep + Join(sep, parts[1..]));
    } else {
      JoinContainsEach(sep, parts[1..], i - 1);
      assert parts[1..][i - 1] == parts[i];
      ContainsInRight(parts[0] + sep, Join(sep, parts[1..]), parts[i]);
    }
  }

  /** The joined string is exactly as long as its parts and separators together. */
  lemma {:induction false} JoinLength(sep: string, parts: seq<string>)
    requires |parts| > 0
    ensures |Join(sep, parts)| == TotalLength(parts) + (|parts| - 1) * |sep|
    decreases |parts|
  {
    if |parts| > 1 {
      JoinLength(sep, parts[1..]);
    }
  }

  function TotalLength(parts: seq<string>): nat
    decreases |parts|
  {
    if |parts| == 0 then 0 else |parts[0]| + TotalLength(parts[1..])
  }

  predicate IsDigit(c: char) {
    '0' <= c <= '9'
  }

  function DigitChar(d: nat): (c: char)
    requires d < 10
    ensures IsDigit(c)
    ensures DigitValue(c) == d
  {
    (d + '0' as int) as char
  }

  function DigitValue(c: char): nat
    requires IsDigit(c)
  {
    c as int - '0' as int
  }

  /** Python's `str(n)` for a non-negative integer: its decimal digits, most significant first. */
  function NatToDecimal(n: nat): (r: string)
    ensures |r| > 0
    ensures forall i :: 0 <= i < |r| ==> IsDigit(r[i])
    ensures n > 0 ==> r[0] != '0'
    decreases n
  {
    if n < 10 then [DigitChar(n)] else NatToDecimal(n / 10) + [DigitChar(n % 10)]
  }

  /** Python's `str(i)` for any integer. */
  function IntToDecimal(i: int): (r: string)
    ensures |r| > 0
    ensures r[0] == '-' <==> i < 0
  {
    if i < 0 then "-" + NatToDecimal(-i) else NatToDecimal(i)
  }

  /** The number a string of decimal digits denotes (Python's `int(s)`). */
  function DecimalValue(s: string): nat
    requires forall i :: 0 <= i < |s| ==> IsDigit(s[i])
    decreases |s|
  {
    if |s| == 0 then 0 else DecimalValue(s[..|s| - 1]) * 10 + DigitValue(s[|s| - 1])
  }

  /** Reading the rendered digits back yields the number rendered. */
  lemma {:induction false} DecimalRoundTrip(n: nat)
    ensures DecimalValue(NatToDecimal(n)) == n
    decreases n
  {
    if n >= 10 {
      DecimalRoundTrip(n / 10);
      var s := NatToDecimal(n);
      assert s[..|s| - 1] == NatToDecimal(n / 10);
    }
  }
}
