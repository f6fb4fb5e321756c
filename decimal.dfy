/**
 * Decimal text of non-negative integers, as Python's `str`, `str.zfill` and `int`
 * treat it, together with the arithmetic facts (division and remainder by powers
 * of ten) that the text operations amount to.
 */
module Decimal {

  function Pow10(e: nat): (r: nat)
    ensures r >= 1
  {
    if e == 0 then 1 else 10 * Pow10(e - 1)
  }

  predicate IsDigit(c: char) {
    '0' <= c <= '9'
  }

  predicate IsDigits(s: string) {
    forall i :: 0 <= i < |s| ==> IsDigit(s[i])
  }

  /** The value of a digit character; only digit characters are ever read. */
  function DigitValue(c: char): (v: nat)
    ensures v < 10
  {
    if IsDigit(c) then c as int - '0' as int else 0
  }

  function DigitChar(d: nat): (c: char)
    requires d < 10
    ensures IsDigit(c) && DigitValue(c) == d
  {
    ('0' as int + d) as char
  }

  /** Python's `str(x)` for x >= 0: the digits of x, most significant first. */
  function Str(x: nat): (s: string)
    ensures 1 <= |s|
  {
    if x < 10 then [DigitChar(x)] else Str(x / 10) + [DigitChar(x % 10)]
  }

  /** The number of decimal digits of x: `len(str(x))`. */
  function Digits(x: nat): (k: nat)
    ensures k >= 1
  {
    if x < 10 then 1 else Digits(x / 10) + 1
  }

  lemma {:induction false} StrLength(x: nat)
    ensures |Str(x)| == Digits(x)
  {
    if x >= 10 {
      StrLength(x / 10);
    }
  }

  /**
   * Python's `int(s)` on a string of decimal digits (leading zeros allowed).
   * Every string the model reads is made of digits (see Str and ZFill), so the
   * error Python raises on other characters cannot arise.
   */
  function ParseDecimal(s: string): nat
  {
    if s == [] then 0 else ParseDecimal(s[..|s| - 1]) * 10 + DigitValue(s[|s| - 1])
  }

  /** Python's `s.zfill(w)` on a string without a sign: zeros in front up to width w. */
  function ZFill(s: string, w: nat): (r: string)
    ensures |r| == if |s| >= w then |s| else w
  {
    if |s| >= w then s else seq(w - |s|, _ => '0') + s
  }

  /** The text of x and its zero-padded form are made of digits only. */
  lemma {:induction false} StrIsDigits(x: nat, w: nat)
    ensures IsDigits(Str(x)) && IsDigits(ZFill(Str(x), w))
  {
    if x >= 10 {
      StrIsDigits(x / 10, w);
    }
  }

  /** Reading back the text of x gives x. */
  lemma {:induction false} StrRoundTrip(x: nat)
    ensures ParseDecimal(Str(x)) == x
  {
    if x >= 10 {
      var s := Str(x);
      assert s[..|s| - 1] == Str(x / 10);
      StrRoundTrip(x / 10);
    }
  }

  /** A string of k characters reads as a number below 10^k. */
  lemma {:induction false} ParseBound(s: string)
    ensures ParseDecimal(s) < Pow10(|s|)
  {
    if s != [] {
      ParseBound(s[..|s| - 1]);
    }
  }

  /** Reading a concatenation: the left part is shifted by the length of the right part. */
  lemma {:induction false} ParseConcat(a: string, b: string)
    ensures ParseDecimal(a + b) == ParseDecimal(a) * Pow10(|b|) + ParseDecimal(b)
  {
    if b == [] {
      assert a + b == a;
    } else {
      var b' := b[..|b| - 1];
      assert (a + b)[..|a + b| - 1] == a + b';
      ParseConcat(a, b');
      var pa, pb, last := ParseDecimal(a), ParseDecimal(b'), DigitValue(b[|b| - 1]);
      assert ParseDecimal(a + b) == ParseDecimal(a + b') * 10 + last;
      assert ParseDecimal(b) == pb * 10 + last;
      assert Pow10(|b|) == Pow10(|b'|) * 10;
      ShiftDigit(pa, Pow10(|b'|), pb, last);
    }
  }

  lemma ShiftDigit(a: nat, p: nat, b: nat, last: nat)
    ensures (a * p + b) * 10 + last == a * (p * 10) + (b * 10 + last)
  {
  }

  /** Reading the len characters of s that start at position start. */
  function ReadWindow(s: string, start: nat, len: nat): (r: nat)
    requires start + len <= |s|
    ensures r < Pow10(len)
  {
    ParseBound(s[start..start + len]);
    ParseDecimal(s[start..start + len])
  }

  /** Any number of zeros reads as 0. */
  lemma {:induction false} ParseZeros(z: string)
    requires forall i :: 0 <= i < |z| ==> z[i] == '0'
    ensures ParseDecimal(z) == 0
  {
    if z != [] {
      ParseZeros(z[..|z| - 1]);
    }
  }

  /** Zero padding does not change the value read. */
  lemma ZFillValue(s: string, w: nat)
    ensures ParseDecimal(ZFill(s, w)) == ParseDecimal(s)
  {
    if |s| < w {
      var z := seq(w - |s|, _ => '0');
      ParseZeros(z);
      ParseConcat(z, s);
    }
  }

  lemma DivModUnique(v: nat, q: nat, r: nat, b: nat)
    requires 0 <= r < b && v == q * b + r
    ensures v / b == q && v % b == r
  {
    MulStep(q, v / b, b);
    MulStep(v / b, q, b);
  }

  lemma MulStep(x: nat, y: nat, b: nat)
    ensures x < y ==> x * b + b <= y * b
  {
    if x < y {
      var d := y - x;
      assert y * b == x * b + d * b;
      assert d * b >= b;
    }
  }

  /**
   * The `len` characters starting at position `start` (from the left) read as the
   * value of the whole string with the characters right of the window dropped,
   * reduced to `len` digits.
   */
  lemma ParseWindow(s: string, start: nat, len: nat)
    requires start + len <= |s|
    ensures ReadWindow(s, start, len) == (ParseDecimal(s) / Pow10(|s| - start - len)) % Pow10(len)
  {
    assert ReadWindow(s, start, len) == ParseDecimal(s[start..start + len]);
    var j := start + len;
    var t := s[..j];
    assert s == t + s[j..];
    ParseConcat(t, s[j..]);
    ParseBound(s[j..]);
    DivModUnique(ParseDecimal(s), ParseDecimal(t), ParseDecimal(s[j..]), Pow10(|s| - j));
    assert t == t[..start] + s[start..j];
    ParseConcat(t[..start], s[start..j]);
    ParseBound(s[start..j]);
    DivModUnique(ParseDecimal(t), ParseDecimal(t[..start]), ParseDecimal(s[start..j]), Pow10(len));
  }
}
