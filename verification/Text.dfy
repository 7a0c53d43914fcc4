/** String operations of the source language that carry meaning here. */
module Text {

  function DigitChar(k: nat): char
    requires k < 10
  {
    ('0' as int + k) as char
  }

  function Pow10(w: nat): nat {
    if w == 0 then 1 else 10 * Pow10(w - 1)
  }

  /** The last w decimal digits of n, zero-padded. */
  function Pad(n: nat, w: nat): (s: string)
    ensures |s| == w
    decreases w
  {
    if w == 0 then "" else Pad(n / 10, w - 1) + [DigitChar(n % 10)]
  }

  /** Code-unit order on strings, as `<` compares them. */
  predicate LexLess(a: string, b: string) {
    if b == "" then false
    else if a == "" then true
    else if a[0] != b[0] then a[0] < b[0]
    else LexLess(a[1..], b[1..])
  }

  lemma {:induction false} LexConcat(p: string, q: string, r: string, s: string)
    requires |p| == |q|
    ensures LexLess(p + r, q + s) <==> LexLess(p, q) || (p == q && LexLess(r, s))
  {
    if p == "" {
      assert p + r == r && q + s == s;
    } else {
      assert (p + r)[1..] == p[1..] + r && (q + s)[1..] == q[1..] + s;
      LexConcat(p[1..], q[1..], r, s);
      assert p == [p[0]] + p[1..] && q == [q[0]] + q[1..];
    }
  }

  lemma {:induction false} PadOrder(n: nat, m: nat, w: nat)
    requires n < Pow10(w) && m < Pow10(w)
    ensures LexLess(Pad(n, w), Pad(m, w)) <==> n < m
    decreases w
  {
    if w > 0 {
      PadOrder(n / 10, m / 10, w - 1);
      LexConcat(Pad(n / 10, w - 1), Pad(m / 10, w - 1), [DigitChar(n % 10)], [DigitChar(m % 10)]);
      PadInjective(n / 10, m / 10, w - 1);
    }
  }

  lemma {:induction false} PadInjective(n: nat, m: nat, w: nat)
    requires n < Pow10(w) && m < Pow10(w)
    ensures Pad(n, w) == Pad(m, w) <==> n == m
    decreases w
  {
    if w > 0 && Pad(n, w) == Pad(m, w) {
      SplitEqual(Pad(n / 10, w - 1), Pad(m / 10, w - 1), [DigitChar(n % 10)], [DigitChar(m % 10)]);
      PadInjective(n / 10, m / 10, w - 1);
      assert [DigitChar(n % 10)][0] == [DigitChar(m % 10)][0];
    }
  }

  lemma SplitEqual<T>(p: seq<T>, q: seq<T>, r: seq<T>, s: seq<T>)
    requires |p| == |q|
    ensures p + r == q + s <==> p == q && r == s
  {
    if p + r == q + s {
      assert p == (p + r)[..|p|] == (q + s)[..|q|] == q;
      assert r == (p + r)[|p|..] == (q + s)[|q|..] == s;
    }
  }

  lemma PadDigit(n: nat, w: nat)
    requires w > 0
    ensures '0' <= Pad(n, w)[0] <= '9'
    decreases w
  {
    if w > 1 { PadDigit(n / 10, w - 1); }
  }

  /** White space and line terminators of ECMA-262 sections 12.2 and 12.3, as trim() removes them. */
  predicate IsSpace(c: char) {
    var k := c as int;
    0x09 <= k <= 0x0D || k == 0x20 || k == 0xA0 || k == 0x1680 || 0x2000 <= k <= 0x200A
    || k == 0x2028 || k == 0x2029 || k == 0x202F || k == 0x205F || k == 0x3000 || k == 0xFEFF
  }

  /** `s.trim()` is empty. */
  predicate IsBlank(s: string) {
    forall c :: c in s ==> IsSpace(c)
  }

  /** String(n) for an integer n >= 0. */
  function Decimal(n: nat): (s: string)
    ensures |s| >= 1
  {
    if n < 10 then [DigitChar(n)] else Decimal(n / 10) + [DigitChar(n % 10)]
  }

  lemma {:induction false} DecimalInjective(n: nat, m: nat)
    requires Decimal(n) == Decimal(m)
    ensures n == m
  {
    assert DigitChar(n % 10) == Decimal(n)[|Decimal(n)| - 1] == Decimal(m)[|Decimal(m)| - 1] == DigitChar(m % 10);
    if n >= 10 && m >= 10 {
      SplitEqual(Decimal(n / 10), Decimal(m / 10), [DigitChar(n % 10)], [DigitChar(m % 10)]);
      DecimalInjective(n / 10, m / 10);
    }
  }

  /** String.prototype.trim. */
  function Trim(s: string): (r: string)
    ensures r == "" <==> IsBlank(s)
  {
    if s == "" then ""
    else if IsSpace(s[0]) then Trim(s[1..])
    else if IsSpace(s[|s| - 1]) then assert s[0] in s[..|s| - 1]; Trim(s[..|s| - 1])
    else s
  }

  lemma SliceSnoc<T>(t: seq<T>, c: T, i: nat, j: nat)
    requires i <= j <= |t|
    ensures (t + [c])[..i] == t[..i] && (t + [c])[i..j] == t[i..j] && (t + [c])[j..] == t[j..] + [c]
  {
  }

  lemma BlankTogether(a: string, b: string)
    requires IsBlank(a) && IsBlank(b)
    ensures IsBlank(a + b)
  {
  }

  /** What is left begins and ends with something, and all that is gone is white space. */
  lemma {:induction false} TrimSpec(s: string) returns (i: nat, j: nat)
    ensures i <= j <= |s| && Trim(s) == s[i..j]
    ensures i < j ==> !IsSpace(s[i]) && !IsSpace(s[j - 1])
    ensures IsBlank(s[..i]) && IsBlank(s[j..])
  {
    hide IsSpace;
    if s == "" {
      i, j := 0, 0;
    } else if IsSpace(s[0]) {
      var a, b := TrimSpec(s[1..]);
      i, j := a + 1, b + 1;
      assert s[i..j] == s[1..][a..b] && s[j..] == s[1..][b..];
      assert s[..i] == [s[0]] + s[1..][..a];
      BlankTogether([s[0]], s[1..][..a]);
    } else if IsSpace(s[|s| - 1]) {
      var t := s[..|s| - 1];
      i, j := TrimSpec(t);
      assert s == t + [s[|s| - 1]];
      SliceSnoc(t, s[|s| - 1], i, j);
      BlankTogether(t[j..], [s[|s| - 1]]);
    } else {
      i, j := 0, |s|;
    }
  }

  /** Text with a visible end on both sides is not changed. */
  lemma TrimKeeps(s: string)
    requires s == "" || (!IsSpace(s[0]) && !IsSpace(s[|s| - 1]))
    ensures Trim(s) == s
  {
  }

  function LowerChar(c: char): char {
    if 'A' <= c <= 'Z' then (c as int + 32) as char else c
  }

  /** String.prototype.toLowerCase on ASCII text. */
  function Lower(s: string): (r: string)
    ensures |r| == |s|
  {
    if s == "" then "" else [LowerChar(s[0])] + Lower(s[1..])
  }

  function UpperChar(c: char): char {
    if 'a' <= c <= 'z' then (c as int - 32) as char else c
  }

  /** String.prototype.toUpperCase on ASCII text. */
  function Upper(s: string): (r: string)
    ensures |r| == |s|
  {
    if s == "" then "" else [UpperChar(s[0])] + Upper(s[1..])
  }

  lemma {:induction false} LowerAt(s: string, i: nat)
    requires i < |s|
    ensures Lower(s)[i] == if 'A' <= s[i] <= 'Z' then 'a' + (s[i] - 'A') else s[i]
  {
    if i > 0 { LowerAt(s[1..], i - 1); }
  }

  lemma {:induction false} LowerTwice(s: string)
    ensures Lower(Lower(s)) == Lower(s)
  {
    if s != "" { LowerTwice(s[1..]); }
  }
}
