/**
 * The fairness evaluator: reduce every drawn value modulo the class size n, count how
 * often each seat 0..n-1 occurs, and take the population variance of those counts
 * around the expected count len/n. Variances are exact rationals (`real`).
 */
module Fairness {
  /** Every drawn value reduced modulo n, in order; Python's remainder by a positive n is never negative. */
  function Reduce(numbers: seq<int>, n: nat): (r: seq<int>)
    requires n > 0
    ensures |r| == |numbers|
    ensures forall i :: 0 <= i < |r| ==> 0 <= r[i] < n
  {
    seq(|numbers|, i requires 0 <= i < |numbers| => numbers[i] % n)
  }

  /** Each reduced value differs from the drawn one by a multiple of n. */
  lemma ReduceResidue(numbers: seq<int>, n: nat)
    requires n > 0
    ensures forall i :: 0 <= i < |numbers| ==> (numbers[i] - Reduce(numbers, n)[i]) % n == 0
  {
    forall i | 0 <= i < |numbers| ensures (numbers[i] - Reduce(numbers, n)[i]) % n == 0 {
      var x := numbers[i];
      assert x - x % n == (x / n) * n;
      MultipleMod(x / n, n);
    }
  }

  lemma MultipleMod(q: int, n: nat)
    requires n > 0
    ensures (q * n) % n == 0
  {
    var m := (q * n) % n;
    var d := (q * n) / n;
    assert (q - d) * n == m;
    SmallMultiple(q - d, n);
  }

  lemma SmallMultiple(k: int, n: nat)
    requires n > 0 && 0 <= k * n < n
    ensures k == 0
  {
    if k >= 1 {
      assert k * n == (k - 1) * n + n;
      MulNonNegative(k - 1, n);
    } else if k <= -1 {
      assert k * n == -((-k - 1) * n) - n;
      MulNonNegative(-k - 1, n);
    }
  }

  lemma MulNonNegative(a: nat, b: nat)
    ensures a * b >= 0
  {
  }

  /** How often each seat 0..n-1 occurs in the reduced values; seats that never occur count as 0. */
  function Counts(mod: seq<int>, n: nat): (c: seq<nat>)
    ensures |c| == n
  {
    seq(n, i => multiset(mod)[i])
  }

  function Sum(c: seq<nat>): nat {
    if c == [] then 0 else Sum(c[..|c| - 1]) + c[|c| - 1]
  }

  function RealSquare(d: real): real {
    d * d
  }

  /** The sum of f over the counts, added up front to back. */
  function SumOver(c: seq<nat>, f: nat -> real): real {
    if c == [] then 0.0 else SumOver(c[..|c| - 1], f) + f(c[|c| - 1])
  }

  /** The square of a count's distance from e. */
  function SquaredGap(e: real): nat -> real {
    x => RealSquare(x as real - e)
  }

  /** The sum of the squared distances (c - e)^2 of the counts c from e. */
  function SumSquares(c: seq<nat>, e: real): real {
    SumOver(c, SquaredGap(e))
  }

  /** The count every seat would have if the values were spread evenly: len/n. */
  function Expected(numbers: seq<int>, n: nat): (e: real)
    requires n > 0
    ensures e >= 0.0
    ensures e * n as real == |numbers| as real
  {
    |numbers| as real / n as real
  }

  function Variance(numbers: seq<int>, n: nat): real
    requires n > 0
  {
    SumSquares(Counts(Reduce(numbers, n), n), Expected(numbers, n)) / n as real
  }

  /**
   * `calculate_variance(numbers, n)`: the variance of the seat counts and the reduced
   * sequence. The sequence keeps one seat in [0, n) per drawn value; the variance is
   * never negative, and is 0 exactly when every seat occurs len/n times.
   */
  function CalculateVariance(numbers: seq<int>, n: nat): (r: (real, seq<int>))
    requires n > 0
    ensures |r.1| == |numbers|
    ensures forall i :: 0 <= i < |r.1| ==> 0 <= r.1[i] < n
    ensures r.0 >= 0.0
    ensures r.0 == 0.0 <==> forall i :: 0 <= i < n ==> n * multiset(r.1)[i] == |numbers|
  {
    VarianceZeroIffUniform(numbers, n);
    var mod := Reduce(numbers, n);
    assert forall i :: 0 <= i < n ==> Counts(mod, n)[i] == multiset(mod)[i];
    (Variance(numbers, n), mod)
  }

  // ---------------------------------------------------------------- counts add up

  /** Occurrences of the seats 0..m-1 in s. */
  function SeatsBelow(s: seq<int>, m: nat): nat {
    if m == 0 then 0 else SeatsBelow(s, m - 1) + multiset(s)[m - 1]
  }

  lemma {:induction false} SeatsBelowAppend(s: seq<int>, x: int, m: nat)
    ensures SeatsBelow(s + [x], m) == SeatsBelow(s, m) + if 0 <= x < m then 1 else 0
  {
    if m > 0 {
      SeatsBelowAppend(s, x, m - 1);
      assert multiset(s + [x]) == multiset(s) + multiset{x};
    }
  }

  lemma {:induction false} SeatsBelowAll(s: seq<int>, m: nat)
    requires forall i :: 0 <= i < |s| ==> 0 <= s[i] < m
    ensures SeatsBelow(s, m) == |s|
  {
    if s == [] {
      SeatsBelowEmpty(m);
    } else {
      var s' := s[..|s| - 1];
      assert s == s' + [s[|s| - 1]];
      SeatsBelowAll(s', m);
      SeatsBelowAppend(s', s[|s| - 1], m);
    }
  }

  lemma {:induction false} SeatsBelowEmpty(m: nat)
    ensures SeatsBelow([], m) == 0
  {
    if m > 0 {
      SeatsBelowEmpty(m - 1);
    }
  }

  lemma {:induction false} SumCounts(s: seq<int>, m: nat)
    ensures Sum(Counts(s, m)) == SeatsBelow(s, m)
  {
    if m > 0 {
      assert Counts(s, m)[..m - 1] == Counts(s, m - 1);
      SumCounts(s, m - 1);
    }
  }

  /** The per-seat counts add up to the number of values drawn. */
  lemma CountsSumToLength(numbers: seq<int>, n: nat)
    requires n > 0
    ensures Sum(Counts(Reduce(numbers, n), n)) == |numbers|
  {
    SumCounts(Reduce(numbers, n), n);
    SeatsBelowAll(Reduce(numbers, n), n);
  }

  // ---------------------------------------------------------------- variance

  /** A sum of terms that are never negative is never negative, and is 0 exactly when every term is. */
  lemma {:induction false} SumOverZero(c: seq<nat>, f: nat -> real)
    requires forall x: nat :: f(x) >= 0.0
    ensures SumOver(c, f) >= 0.0
    ensures SumOver(c, f) == 0.0 <==> forall i :: 0 <= i < |c| ==> f(c[i]) == 0.0
  {
    if c != [] {
      var c' := c[..|c| - 1];
      SumOverZero(c', f);
      assert forall i :: 0 <= i < |c'| ==> c'[i] == c[i];
    }
  }

  lemma ProductPositive(a: real, b: real, p: real)
    requires a > 0.0 && b > 0.0 && p == a * b
    ensures p > 0.0
  {
  }

  /** A square is never negative, and is 0 only for 0. */
  lemma SquareZero(d: real)
    ensures RealSquare(d) >= 0.0
    ensures RealSquare(d) == 0.0 <==> d == 0.0
  {
    if d > 0.0 {
      ProductPositive(d, d, RealSquare(d));
    } else if d < 0.0 {
      ProductPositive(-d, -d, RealSquare(d));
    }
  }

  /** Dividing by a positive number keeps the sign and keeps 0. */
  lemma DivPositive(s: real, N: real)
    requires N > 0.0
    ensures s / N >= 0.0 <==> s >= 0.0
    ensures s / N == 0.0 <==> s == 0.0
  {
    var q := s / N;
    assert q * N == s;
    if q > 0.0 {
      ProductPositive(q, N, s);
    } else if q < 0.0 {
      ProductPositive(-q, N, -s);
    }
  }

  /** Every squared distance from the mean is non-negative, and 0 exactly at the mean. */
  lemma SquaredGapZero(e: real)
    ensures forall x: nat :: SquaredGap(e)(x) >= 0.0
    ensures forall x: nat :: SquaredGap(e)(x) == 0.0 <==> x as real == e
  {
    forall x: nat
      ensures SquaredGap(e)(x) >= 0.0 && (SquaredGap(e)(x) == 0.0 <==> x as real == e)
    {
      SquareZero(x as real - e);
    }
  }

  lemma SumSquaresNonNegative(c: seq<nat>, e: real)
    ensures SumSquares(c, e) >= 0.0
  {
    SquaredGapZero(e);
    SumOverZero(c, SquaredGap(e));
  }

  lemma CastProduct(a: int, b: int)
    ensures (a * b) as real == a as real * b as real
  {
  }

  /** A count is on target in reals exactly when n times it is the number drawn. */
  lemma UniformCount(c: nat, n: nat, len: nat)
    requires n > 0
    ensures n * c == len <==> c as real == len as real / n as real
  {
    CastProduct(n, c);
    var N := n as real;
    assert (c as real == len as real / N) == (N * c as real == len as real);
  }

  /**
   * The variance is never negative, and it is 0 exactly when every seat is drawn
   * exactly len/n times, which in integers reads n * count == len.
   */
  lemma VarianceZeroIffUniform(numbers: seq<int>, n: nat)
    requires n > 0
    ensures Variance(numbers, n) >= 0.0
    ensures Variance(numbers, n) == 0.0 <==>
      forall i :: 0 <= i < n ==> Counts(Reduce(numbers, n), n)[i] as real == Expected(numbers, n)
    ensures Variance(numbers, n) == 0.0 <==>
      forall i :: 0 <= i < n ==> n * Counts(Reduce(numbers, n), n)[i] == |numbers|
  {
    var c := Counts(Reduce(numbers, n), n);
    var e := Expected(numbers, n);
    SquaredGapZero(e);
    SumOverZero(c, SquaredGap(e));
    DivPositive(SumSquares(c, e), n as real);
    forall i | 0 <= i < n
      ensures n * c[i] == |numbers| <==> c[i] as real == e
    {
      UniformCount(c[i], n, |numbers|);
    }
  }
}
