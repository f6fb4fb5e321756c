/**
 * The deterministic integer generators the optimiser draws pools from:
 * 32-bit xorshift (shifts 13, 17, 5), von Neumann's middle-square method and the
 * linear congruential generator with the Numerical Recipes constants. Each is an
 * imperative loop (or, for xorshift, an object whose state field is updated by
 * every call), proved equal to a recursive stream function whose properties are
 * stated as lemmas.
 */
module Generators {
  import opened Decimal

  const TwoTo32: nat := 0x1_0000_0000

  /** Python's `^` on non-negative integers, bit by bit from the least significant bit. */
  function Xor(a: nat, b: nat): nat
    decreases a + b
  {
    if a == 0 then b
    else if b == 0 then a
    else 2 * Xor(a / 2, b / 2) + (a + b) % 2
  }

  /** The recursion step of Xor holds also when one operand is 0. */
  lemma {:induction false} XorHalves(a: nat, b: nat)
    ensures Xor(a, b) == 2 * Xor(a / 2, b / 2) + (a + b) % 2
    decreases a + b
  {
    if a == 0 {
      if b != 0 {
        XorHalves(0, b / 2);
      }
    } else if b == 0 {
      XorHalves(a / 2, 0);
    }
  }

  /** Xor with b is undone by xor with b: each `^=` of `next` can be reversed. */
  lemma {:induction false} XorInverse(a: nat, b: nat)
    ensures Xor(Xor(a, b), b) == a
    decreases a + b
  {
    var c := Xor(a, b);
    XorHalves(a, b);
    XorHalves(c, b);
    if a + b > 0 {
      XorInverse(a / 2, b / 2);
      var q, r := Xor(a / 2, b / 2), (a + b) % 2;
      assert c == 2 * q + r && r < 2;
      assert c / 2 == q;
      ParityCancel(a, b, c);
    }
  }

  lemma ParityCancel(a: nat, b: nat, c: nat)
    requires c % 2 == (a + b) % 2
    ensures (c + b) % 2 == a % 2
  {
    if b % 2 == 1 {
      assert (a + b) % 2 == 1 - a % 2;
    }
  }

  // ---------------------------------------------------------------- Mersenne Twister

  /** A value `random.randint(0, 100000)` can return. */
  type RandInt = x: int | 0 <= x <= 100000

  /**
   * `mersenne_twister(seed, count)`: seed Python's own generator with seed, then draw
   * count values with `randint(0, 100000)`. The library generator is the parameter
   * randint: randint(seed, i) is the i-th draw after seeding with seed.
   */
  function MtStream(seed: nat, count: nat, randint: (nat, nat) -> RandInt): (r: seq<int>)
    ensures |r| == count
    ensures forall i :: 0 <= i < |r| ==> 0 <= r[i] <= 100000
  {
    seq(count, i requires 0 <= i < count => randint(seed, i) as int)
  }

  // ---------------------------------------------------------------- xorshift

  /** The state a new generator starts from: seed 0 is replaced by 1. */
  function InitialState(seed: nat): (x: nat)
    ensures x != 0
    ensures seed != 0 ==> x == seed
  {
    if seed != 0 then seed else 1
  }

  /**
   * One call of `next`: x1 = x xor (x * 2^13 mod 2^32), x2 = x1 xor (x1 div 2^17),
   * x3 = x2 xor (x2 * 2^5 mod 2^32); the new state is x3 mod 2^32.
   * The state may be any non-negative integer (a seed of 2^32 or more is used as is).
   */
  function Step(x: nat): (r: nat)
    ensures r < TwoTo32
  {
    var x1 := Xor(x, (x * 8192) % TwoTo32);
    var x2 := Xor(x1, x1 / 131072);
    var x3 := Xor(x2, (x2 * 32) % TwoTo32);
    x3 % TwoTo32
  }

  /** The values `count` successive calls of `next` return, starting from state x. */
  function Stream(x: nat, count: nat): seq<nat>
    decreases count
  {
    if count == 0 then [] else [Step(x)] + Stream(Step(x), count - 1)
  }

  /** The state after `count` successive calls of `next`, starting from state x. */
  function StateAfter(x: nat, count: nat): nat
    decreases count
  {
    if count == 0 then x else StateAfter(Step(x), count - 1)
  }

  /** Zero is a fixed point of the update: the reason seed 0 is never used as a state. */
  lemma ZeroIsFixedPoint()
    ensures Step(0) == 0
  {
  }

  /**
   * `generate(count)` yields exactly `count` values below 2^32; the first is one step
   * from the start state, each next one is one step from the one before, and the
   * generator ends in the state equal to the last value emitted.
   */
  lemma {:induction false} StreamShape(x: nat, count: nat)
    ensures |Stream(x, count)| == count
    ensures forall i :: 0 <= i < count ==> Stream(x, count)[i] < TwoTo32
    ensures count > 0 ==> Stream(x, count)[0] == Step(x)
    ensures forall i :: 0 <= i < count - 1 ==> Stream(x, count)[i + 1] == Step(Stream(x, count)[i])
    ensures count > 0 ==> StateAfter(x, count) == Stream(x, count)[count - 1]
    decreases count
  {
    if count > 0 {
      StreamShape(Step(x), count - 1);
    }
  }

  /** A xorshift generator object; `state` is the field that `next` updates. */
  class Xorshift {
    var state: nat

    constructor (seed: nat)
      ensures state == InitialState(seed) && state != 0
    {
      state := if seed != 0 then seed else 1;
    }

    method Next() returns (r: nat)
      modifies this
      ensures state == Step(old(state)) && r == state
    {
      var x := state;
      x := Xor(x, (x * 8192) % TwoTo32);
      x := Xor(x, x / 131072);
      x := Xor(x, (x * 32) % TwoTo32);
      state := x % TwoTo32;
      r := state;
    }

    method Generate(count: nat) returns (result: seq<nat>)
      modifies this
      ensures result == Stream(old(state), count)
      ensures state == StateAfter(old(state), count)
    {
      result := [];
      var i := 0;
      while i < count
        invariant 0 <= i <= count
        invariant result + Stream(state, count - i) == Stream(old(state), count)
        invariant StateAfter(state, count - i) == StateAfter(old(state), count)
      {
        var v := Next();
        result := result + [v];
        i := i + 1;
      }
    }
  }

  // ---------------------------------------------------------------- LCG

  const LcgModulus: nat := TwoTo32
  const LcgMultiplier: nat := 1664525
  const LcgIncrement: nat := 1013904223

  /** One LCG step, (a * x + c) mod 2^32; Python's remainder by a positive modulus is never negative. */
  function LcgNext(x: int): (r: nat)
    ensures r < LcgModulus
  {
    (LcgMultiplier * x + LcgIncrement) % LcgModulus
  }

  function LcgStream(x: int, count: nat): seq<nat>
    decreases count
  {
    if count == 0 then [] else [LcgNext(x)] + LcgStream(LcgNext(x), count - 1)
  }

  /**
   * `lcg(seed, count)` gives exactly `count` values below 2^32: the first is
   * `(a * seed + c) mod 2^32`, each next one `(a * previous + c) mod 2^32`.
   */
  lemma {:induction false} LcgStreamShape(x: int, count: nat)
    ensures |LcgStream(x, count)| == count
    ensures forall i :: 0 <= i < count ==> LcgStream(x, count)[i] < LcgModulus
    ensures count > 0 ==> LcgStream(x, count)[0] == LcgNext(x)
    ensures forall i :: 0 <= i < count - 1 ==> LcgStream(x, count)[i + 1] == LcgNext(LcgStream(x, count)[i])
    decreases count
  {
    if count > 0 {
      LcgStreamShape(LcgNext(x), count - 1);
    }
  }

  method Lcg(seed: int, count: nat) returns (result: seq<nat>)
    ensures result == LcgStream(seed, count)
  {
    result := [];
    var x := seed;
    var i := 0;
    while i < count
      invariant 0 <= i <= count
      invariant result + LcgStream(x, count - i) == LcgStream(seed, count)
    {
      x := (LcgMultiplier * x + LcgIncrement) % LcgModulus;
      result := result + [x];
      i := i + 1;
    }
  }

  // ---------------------------------------------------------------- middle square

  function Max(a: nat, b: nat): nat {
    if a >= b then a else b
  }

  /**
   * Write the square in decimal, zero-pad it to at least 2d digits, and read back the
   * d digits that start (length - d) / 2 characters in: the middle d digits.
   */
  function MiddleDigits(squared: nat, d: nat): (m: nat)
    ensures m < Pow10(d)
  {
    var text := ZFill(Str(squared), 2 * d);
    ReadWindow(text, (|text| - d) / 2, d)
  }

  /**
   * The same window in arithmetic: with w = max(digits of squared, 2d) and the window
   * starting (w - d) / 2 digits from the left, drop the digits to its right and keep d.
   */
  function Window(squared: nat, d: nat): (m: nat)
    ensures m < Pow10(d)
  {
    var w := Max(Digits(squared), 2 * d);
    (squared / Pow10(w - (w - d) / 2 - d)) % Pow10(d)
  }

  /** Reading the middle digits from the text is taking the arithmetic window. */
  lemma MiddleDigitsArithmetic(squared: nat, d: nat)
    ensures MiddleDigits(squared, d) == Window(squared, d)
  {
    var text := ZFill(Str(squared), 2 * d);
    var start := (|text| - d) / 2;
    assert MiddleDigits(squared, d) == ReadWindow(text, start, d);
    StrLength(squared);
    StrRoundTrip(squared);
    ZFillValue(Str(squared), 2 * d);
    ParseWindow(text, start, d);
    var w := Max(Digits(squared), 2 * d);
    assert |text| == w && ParseDecimal(text) == squared;
  }

  /** One value of `middle_square`: the middle digits of the square, read from its text. */
  method MiddleWindow(value: nat, nDigits: nat) returns (middleDigits: nat)
    ensures middleDigits == Window(value * value, nDigits)
  {
    var squared := value * value;
    var squaredText := ZFill(Str(squared), 2 * nDigits);
    var start := (|squaredText| - nDigits) / 2;
    middleDigits := ReadWindow(squaredText, start, nDigits);
    assert middleDigits == MiddleDigits(squared, nDigits);
    MiddleDigitsArithmetic(squared, nDigits);
  }

  /** The state after emitting m: m itself, or seed + 1 when m is 0, so never 0 again. */
  function MiddleSquareNext(seed: nat, m: nat): (x: nat)
    ensures x > 0
    ensures m != 0 ==> x == m
  {
    if m != 0 then m else seed + 1
  }

  function MiddleSquareStream(seed: nat, d: nat, value: nat, count: nat): seq<nat>
    decreases count
  {
    if count == 0 then []
    else
      var m := Window(value * value, d);
      [m] + MiddleSquareStream(seed, d, MiddleSquareNext(seed, m), count - 1)
  }

  /**
   * `middle_square` gives exactly `count` values, each below 10^d; each value is the
   * middle window of the square of the state, and the state after a value is that
   * value, or seed + 1 after a 0.
   */
  lemma {:induction false} MiddleSquareStreamShape(seed: nat, d: nat, value: nat, count: nat)
    ensures |MiddleSquareStream(seed, d, value, count)| == count
    ensures forall i :: 0 <= i < count ==> MiddleSquareStream(seed, d, value, count)[i] < Pow10(d)
    ensures count > 0 ==> MiddleSquareStream(seed, d, value, count)[0] == Window(value * value, d)
    ensures forall i :: 0 <= i < count - 1 ==>
      var prev := MiddleSquareNext(seed, MiddleSquareStream(seed, d, value, count)[i]);
      MiddleSquareStream(seed, d, value, count)[i + 1] == Window(prev * prev, d)
    decreases count
  {
    if count > 0 {
      var m := Window(value * value, d);
      MiddleSquareStreamShape(seed, d, MiddleSquareNext(seed, m), count - 1);
    }
  }

  /** One step of the stream: the first value, then the stream from the next state. */
  lemma MiddleSquareStreamStep(seed: nat, d: nat, value: nat, count: nat)
    requires count > 0
    ensures MiddleSquareStream(seed, d, value, count)
         == [Window(value * value, d)] + MiddleSquareStream(seed, d, MiddleSquareNext(seed, Window(value * value, d)), count - 1)
  {
  }

  method MiddleSquare(seed: nat, count: nat) returns (result: seq<nat>)
    ensures result == MiddleSquareStream(seed, |Str(seed)|, seed, count)
  {
    var nDigits := |Str(seed)|;
    var value: nat := seed;
    result := [];
    var i := 0;
    while i < count
      invariant 0 <= i <= count
      invariant result + MiddleSquareStream(seed, nDigits, value, count - i)
             == MiddleSquareStream(seed, nDigits, seed, count)
    {
      var middleDigits := MiddleWindow(value, nDigits);
      MiddleSquareStreamStep(seed, nDigits, value, count - i);
      AppendAssoc(result, middleDigits, MiddleSquareStream(seed, nDigits, MiddleSquareNext(seed, middleDigits), count - i - 1));
      result := result + [middleDigits];
      value := if middleDigits != 0 then middleDigits else seed + 1;
      i := i + 1;
    }
  }

  lemma AppendAssoc(a: seq<nat>, x: nat, b: seq<nat>)
    ensures (a + [x]) + b == a + ([x] + b)
  {
  }
}
