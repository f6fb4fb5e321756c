/**
 * The seed/method optimiser: for every generator in list order and every seed in
 * ascending order, draw k*l values, evaluate their fairness, and keep the first trial
 * whose variance is strictly lower than the best so far.
 */
module Optimizer {
  import opened Wrappers
  import opened Decimal
  import opened Fairness
  import G = Generators

  /** The four generators the optimiser tries (the source calls them methods). */
  datatype Algorithm = Xorshift | MersenneTwister | MiddleSquare | Lcg

  /** The generators in the order the optimiser tries them: xorshift, Mersenne Twister, middle square, LCG. */
  const Algorithms: seq<Algorithm> := [Xorshift, MersenneTwister, MiddleSquare, Lcg]

  /** The seeds the optimiser tries: every multiple of 100 from 0 to 1000000. */
  function SeedRange(): (s: seq<nat>)
    ensures |s| == 10001
    ensures forall i :: 0 <= i < |s| ==> s[i] == 100 * i
    ensures s[0] == 0 && s[|s| - 1] == 1000000
  {
    seq(10001, i => 100 * i)
  }

  /**
   * The values one generator draws from one seed; randint is the library generator
   * behind the Mersenne Twister entry.
   */
  function Numbers(m: Algorithm, seed: nat, count: nat, randint: (nat, nat) -> G.RandInt): seq<int> {
    match m
    case Xorshift => G.Stream(G.InitialState(seed), count)
    case MersenneTwister => G.MtStream(seed, count, randint)
    case MiddleSquare => G.MiddleSquareStream(seed, |Str(seed)|, seed, count)
    case Lcg => G.LcgStream(seed, count)
  }

  /** One (method, seed) pair together with its variance and reduced pool. */
  datatype Trial = Trial(algorithm: Algorithm, seed: nat, variance: real, pool: seq<int>)

  /** The trial of one pair: the variance and reduced pool `calculate_variance` returns. */
  function TrialOf(m: Algorithm, seed: nat, count: nat, n: nat, randint: (nat, nat) -> G.RandInt): Trial
    requires n > 0
  {
    var nums := Numbers(m, seed, count, randint);
    Trial(m, seed, Variance(nums, n), Reduce(nums, n))
  }

  /** The evaluation the optimiser applies to every (generator, seed) pair. */
  function Evaluate(count: nat, n: nat, randint: (nat, nat) -> G.RandInt): (Algorithm, nat) -> Trial
    requires n > 0
  {
    (m: Algorithm, seed: nat) => TrialOf(m, seed, count, n, randint)
  }

  /** The trials of one generator, seeds in the given order (the inner loop). */
  function Row(m: Algorithm, seeds: seq<nat>, eval: (Algorithm, nat) -> Trial): (row: seq<Trial>)
    ensures |row| == |seeds|
  {
    if seeds == [] then [] else Row(m, seeds[..|seeds| - 1], eval) + [eval(m, seeds[|seeds| - 1])]
  }

  lemma {:induction false} RowAt(m: Algorithm, seeds: seq<nat>, eval: (Algorithm, nat) -> Trial, j: nat)
    requires j < |seeds|
    ensures Row(m, seeds, eval)[j] == eval(m, seeds[j])
    decreases |seeds|
  {
    if j < |seeds| - 1 {
      RowAt(m, seeds[..|seeds| - 1], eval, j);
    }
  }

  /** All trials in the order the nested loops visit them: method-major, then seed. */
  function Trials(algorithms: seq<Algorithm>, seeds: seq<nat>, eval: (Algorithm, nat) -> Trial): seq<Trial> {
    if algorithms == [] then []
    else Trials(algorithms[..|algorithms| - 1], seeds, eval) + Row(algorithms[|algorithms| - 1], seeds, eval)
  }

  /**
   * The position the loop's strict comparison ends on: a later trial replaces the
   * best only when its variance is strictly lower.
   */
  function BestIndex(ts: seq<Trial>): (b: nat)
    requires ts != []
    ensures b < |ts|
  {
    if |ts| == 1 then 0
    else
      var b := BestIndex(ts[..|ts| - 1]);
      if ts[|ts| - 1].variance < ts[b].variance then |ts| - 1 else b
  }

  /** The best trial, or None when nothing was tried (the source's initial `best`). */
  function Best(ts: seq<Trial>): (r: Option<Trial>)
    ensures r.None? <==> ts == []
  {
    if ts == [] then None else Some(ts[BestIndex(ts)])
  }

  // ---------------------------------------------------------------- properties

  /** Position b holds a minimal variance and every earlier trial is strictly worse. */
  predicate FirstMinimum(ts: seq<Trial>, b: nat) {
    b < |ts| &&
    (forall q :: 0 <= q < |ts| ==> ts[b].variance <= ts[q].variance) &&
    (forall q :: 0 <= q < b ==> ts[q].variance > ts[b].variance)
  }

  /** BestIndex is the first position of a minimal variance. */
  lemma {:induction false} BestIndexIsFirstMinimum(ts: seq<Trial>)
    requires ts != []
    ensures FirstMinimum(ts, BestIndex(ts))
  {
    if |ts| > 1 {
      var front := ts[..|ts| - 1];
      BestIndexIsFirstMinimum(front);
      assert forall j :: 0 <= j < |front| ==> front[j] == ts[j];
    }
  }

  /** The first-minimum position is the only one that is minimal and beats every earlier trial. */
  lemma BestIndexUnique(ts: seq<Trial>, i: nat)
    requires FirstMinimum(ts, i)
    ensures BestIndex(ts) == i
  {
    BestIndexIsFirstMinimum(ts);
  }

  /** One more trial replaces the best exactly when its variance is strictly lower. */
  lemma BestAppend(ts: seq<Trial>, t: Trial)
    ensures Best(ts + [t]) == if Best(ts).None? || t.variance < Best(ts).value.variance then Some(t) else Best(ts)
  {
    if ts != [] {
      assert (ts + [t])[..|ts|] == ts;
    }
  }

  /** Where row i starts in a row-major table whose rows have length s. */
  function Offset(i: nat, s: nat): nat {
    if i == 0 then 0 else Offset(i - 1, s) + s
  }

  lemma {:induction false} OffsetIsProduct(i: nat, s: nat)
    ensures Offset(i, s) == i * s
  {
    if i > 0 {
      OffsetIsProduct(i - 1, s);
      MulSucc(i - 1, s);
    }
  }

  lemma MulSucc(a: nat, b: nat)
    ensures (a + 1) * b == a * b + b
  {
  }

  lemma {:induction false} OffsetMonotone(i': nat, i: nat, s: nat)
    requires i' < i
    ensures Offset(i', s) + s <= Offset(i, s)
    decreases i
  {
    if i' < i - 1 {
      OffsetMonotone(i', i - 1, s);
    }
  }

  /** Every position of the table is the start of some row plus a column. */
  lemma {:induction false} PairOf(b: nat, s: nat, a: nat) returns (i: nat, j: nat)
    requires b < Offset(a, s)
    ensures i < a && j < s && b == Offset(i, s) + j
    decreases a
  {
    if b < Offset(a - 1, s) {
      i, j := PairOf(b, s, a - 1);
    } else {
      i, j := a - 1, b - Offset(a - 1, s);
    }
  }

  /** Lexicographically earlier (row, column) pairs come earlier in row-major order. */
  lemma PairOrder(i': nat, j': nat, i: nat, j: nat, s: nat)
    requires j' < s && j < s && (i' < i || (i' == i && j' < j))
    ensures Offset(i', s) + j' < Offset(i, s) + j
  {
    if i' < i {
      OffsetMonotone(i', i, s);
    }
  }

  lemma {:induction false} TrialsLength(algorithms: seq<Algorithm>, seeds: seq<nat>, eval: (Algorithm, nat) -> Trial)
    ensures |Trials(algorithms, seeds, eval)| == Offset(|algorithms|, |seeds|)
    decreases |algorithms|
  {
    if algorithms != [] {
      TrialsLength(algorithms[..|algorithms| - 1], seeds, eval);
    }
  }

  /** There are |algorithms| * |seeds| trials. */
  lemma TrialsCount(algorithms: seq<Algorithm>, seeds: seq<nat>, eval: (Algorithm, nat) -> Trial)
    ensures |Trials(algorithms, seeds, eval)| == |algorithms| * |seeds|
  {
    TrialsLength(algorithms, seeds, eval);
    OffsetIsProduct(|algorithms|, |seeds|);
  }

  /**
   * The nested loops visit generator i with seed j at position i * |seeds| + j
   * (Offset(i, |seeds|) + j) of the trial sequence.
   */
  lemma {:induction false} TrialsShape(algorithms: seq<Algorithm>, seeds: seq<nat>, eval: (Algorithm, nat) -> Trial, i: nat, j: nat)
    requires i < |algorithms| && j < |seeds|
    ensures Offset(i, |seeds|) + j < |Trials(algorithms, seeds, eval)|
    ensures Trials(algorithms, seeds, eval)[Offset(i, |seeds|) + j] == eval(algorithms[i], seeds[j])
    decreases |algorithms|
  {
    var front := algorithms[..|algorithms| - 1];
    TrialsLength(front, seeds, eval);
    if i < |algorithms| - 1 {
      TrialsShape(front, seeds, eval, i, j);
      assert front[i] == algorithms[i];
    } else {
      RowAt(algorithms[i], seeds, eval, j);
    }
  }

  /** The (generator, seed) pair behind the best trial, with its position in the order. */
  lemma WinnerPosition(algorithms: seq<Algorithm>, seeds: seq<nat>, eval: (Algorithm, nat) -> Trial)
    returns (i: nat, j: nat)
    requires algorithms != [] && seeds != []
    ensures i < |algorithms| && j < |seeds|
    ensures BestIndex(Trials(algorithms, seeds, eval)) == Offset(i, |seeds|) + j
    ensures Best(Trials(algorithms, seeds, eval)) == Some(eval(algorithms[i], seeds[j]))
  {
    var ts := Trials(algorithms, seeds, eval);
    TrialsShape(algorithms, seeds, eval, 0, 0);
    TrialsLength(algorithms, seeds, eval);
    i, j := PairOf(BestIndex(ts), |seeds|, |algorithms|);
    TrialsShape(algorithms, seeds, eval, i, j);
  }

  /**
   * In a row-major table with rows of length s, the first minimum at row i, column j
   * against the entry at row i', column j': never worse, and strictly better when
   * (i', j') comes first.
   */
  lemma WinnerBeats(ts: seq<Trial>, s: nat, i: nat, j: nat, i': nat, j': nat, v: real, v': real)
    requires j < s && j' < s && FirstMinimum(ts, Offset(i, s) + j)
    requires Offset(i', s) + j' < |ts|
    requires ts[Offset(i, s) + j].variance == v && ts[Offset(i', s) + j'].variance == v'
    ensures v <= v'
    ensures (i' < i || (i' == i && j' < j)) ==> v < v'
  {
    if i' < i || (i' == i && j' < j) {
      PairOrder(i', j', i, j, s);
    }
  }

  /**
   * t is the trial of some pair (algorithms[i], seeds[j]) whose variance is at most that
   * of every pair, while every pair before it in generator-then-seed order is strictly worse.
   */
  predicate Optimal(algorithms: seq<Algorithm>, seeds: seq<nat>, eval: (Algorithm, nat) -> Trial, t: Trial) {
    exists i, j ::
      0 <= i < |algorithms| && 0 <= j < |seeds| && t == eval(algorithms[i], seeds[j]) &&
      (forall i', j' :: 0 <= i' < |algorithms| && 0 <= j' < |seeds| ==>
        t.variance <= eval(algorithms[i'], seeds[j']).variance) &&
      (forall i', j' :: 0 <= i' < |algorithms| && 0 <= j' < |seeds| && (i' < i || (i' == i && j' < j)) ==>
        t.variance < eval(algorithms[i'], seeds[j']).variance)
  }

  /**
   * t is what the optimiser hands back for `count` draws over n seats: the best of the
   * trials of the four generators over the seed range, the earliest pair of minimal
   * variance, with a pool of `count` seats in [0, n).
   */
  predicate Chosen(count: nat, n: nat, randint: (nat, nat) -> G.RandInt, t: Trial)
    requires n > 0
  {
    var eval := Evaluate(count, n, randint);
    Best(Trials(Algorithms, SeedRange(), eval)) == Some(t) &&
    Optimal(Algorithms, SeedRange(), eval, t) &&
    |t.pool| == count &&
    forall x :: 0 <= x < |t.pool| ==> 0 <= t.pool[x] < n
  }

  /** The best trial found is the earliest pair of minimal variance. */
  lemma BestIsEarliestMinimum(algorithms: seq<Algorithm>, seeds: seq<nat>, eval: (Algorithm, nat) -> Trial)
    requires algorithms != [] && seeds != []
    ensures Best(Trials(algorithms, seeds, eval)).Some?
    ensures Optimal(algorithms, seeds, eval, Best(Trials(algorithms, seeds, eval)).value)
  {
    var i, j := WinnerPosition(algorithms, seeds, eval);
    var ts := Trials(algorithms, seeds, eval);
    TrialsTable(algorithms, seeds, eval);
    BestIndexIsFirstMinimum(ts);
    EarliestInTable(ts, algorithms, seeds, eval, i, j);
  }

  /** Position Offset(i, |seeds|) + j of ts holds the trial of algorithms[i] with seeds[j]. */
  predicate Table(ts: seq<Trial>, algorithms: seq<Algorithm>, seeds: seq<nat>, eval: (Algorithm, nat) -> Trial) {
    forall i, j {:trigger eval(algorithms[i], seeds[j])} :: 0 <= i < |algorithms| && 0 <= j < |seeds| ==>
      Offset(i, |seeds|) + j < |ts| && ts[Offset(i, |seeds|) + j].variance == eval(algorithms[i], seeds[j]).variance
  }

  lemma TrialsTable(algorithms: seq<Algorithm>, seeds: seq<nat>, eval: (Algorithm, nat) -> Trial)
    ensures Table(Trials(algorithms, seeds, eval), algorithms, seeds, eval)
  {
    forall i, j | 0 <= i < |algorithms| && 0 <= j < |seeds|
      ensures Offset(i, |seeds|) + j < |Trials(algorithms, seeds, eval)|
      ensures Trials(algorithms, seeds, eval)[Offset(i, |seeds|) + j].variance == eval(algorithms[i], seeds[j]).variance
    {
      TrialsShape(algorithms, seeds, eval, i, j);
    }
  }

  /** The first minimum of a table, read back as a (generator, seed) pair. */
  lemma EarliestInTable(ts: seq<Trial>, algorithms: seq<Algorithm>, seeds: seq<nat>, eval: (Algorithm, nat) -> Trial, i: nat, j: nat)
    requires i < |algorithms| && j < |seeds|
    requires Table(ts, algorithms, seeds, eval) && FirstMinimum(ts, Offset(i, |seeds|) + j)
    ensures forall i', j' :: 0 <= i' < |algorithms| && 0 <= j' < |seeds| ==>
      eval(algorithms[i], seeds[j]).variance <= eval(algorithms[i'], seeds[j']).variance
    ensures forall i', j' :: 0 <= i' < |algorithms| && 0 <= j' < |seeds| && (i' < i || (i' == i && j' < j)) ==>
      eval(algorithms[i], seeds[j]).variance < eval(algorithms[i'], seeds[j']).variance
  {
    var v := eval(algorithms[i], seeds[j]).variance;
    forall i', j' | 0 <= i' < |algorithms| && 0 <= j' < |seeds|
      ensures v <= eval(algorithms[i'], seeds[j']).variance
      ensures (i' < i || (i' == i && j' < j)) ==> v < eval(algorithms[i'], seeds[j']).variance
    {
      WinnerBeats(ts, |seeds|, i, j, i', j', v, eval(algorithms[i'], seeds[j']).variance);
    }
  }

  lemma NumbersLength(m: Algorithm, seed: nat, count: nat, randint: (nat, nat) -> G.RandInt)
    ensures |Numbers(m, seed, count, randint)| == count
  {
    match m
    case Xorshift => G.StreamShape(G.InitialState(seed), count);
    case MersenneTwister =>
    case MiddleSquare => G.MiddleSquareStreamShape(seed, |Str(seed)|, seed, count);
    case Lcg => G.LcgStreamShape(seed, count);
  }

  /**
   * An evaluated trial records its generator and seed, and its pool has `count` entries,
   * all in [0, n).
   */
  lemma EvaluatedTrial(m: Algorithm, seed: nat, count: nat, n: nat, randint: (nat, nat) -> G.RandInt)
    requires n > 0
    ensures var t := Evaluate(count, n, randint)(m, seed);
      t.algorithm == m && t.seed == seed &&
      (forall x :: 0 <= x < |t.pool| ==> 0 <= t.pool[x] < n) &&
      |t.pool| == count
  {
    assert Evaluate(count, n, randint)(m, seed) == TrialOf(m, seed, count, n, randint);
    NumbersLength(m, seed, count, randint);
  }

  // ---------------------------------------------------------------- the search

  /**
   * The nested search of `find_best_seed_and_method`, over any generator list and seed
   * list, in generator-major order.
   */
  method Search(algorithms: seq<Algorithm>, seeds: seq<nat>, count: nat, n: nat, randint: (nat, nat) -> G.RandInt)
    returns (best: Option<Trial>)
    requires n > 0
    ensures best == Best(Trials(algorithms, seeds, Evaluate(count, n, randint)))
  {
    ghost var eval := Evaluate(count, n, randint);
    best := None;
    var i := 0;
    while i < |algorithms|
      invariant 0 <= i <= |algorithms|
      invariant best == Best(Trials(algorithms[..i], seeds, eval))
    {
      best := SearchRow(Trials(algorithms[..i], seeds, eval), best, algorithms[i], seeds, count, n, randint);
      assert best == Best(Trials(algorithms[..i + 1], seeds, eval)) by {
        TrialsAppend(algorithms, i, seeds, eval);
      }
      i := i + 1;
    }
    assert algorithms[..i] == algorithms;
  }

  /**
   * The dictionary lookup in the inner loop: all four generators run on the seed, and
   * the values of the one m names are kept.
   */
  method Draw(m: Algorithm, seed: nat, count: nat, randint: (nat, nat) -> G.RandInt) returns (nums: seq<int>)
    ensures nums == Numbers(m, seed, count, randint)
  {
    var xorshift := new G.Xorshift(seed);
    var xs := xorshift.Generate(count);
    var ts := G.MtStream(seed, count, randint);
    var ms := G.MiddleSquare(seed, count);
    var ls := G.Lcg(seed, count);
    nums := match m
      case Xorshift => xs
      case MersenneTwister => ts
      case MiddleSquare => ms
      case Lcg => ls;
  }

  /** The body of the inner loop for one seed: draw, then evaluate. */
  method Try(m: Algorithm, seed: nat, count: nat, n: nat, randint: (nat, nat) -> G.RandInt) returns (trial: Trial)
    requires n > 0
    ensures trial == Evaluate(count, n, randint)(m, seed)
  {
    var nums := Draw(m, seed, count, randint);
    var (variance, modded) := CalculateVariance(nums, n);
    trial := Trial(m, seed, variance, modded);
  }

  /**
   * The inner loop over the seeds for one generator m, continuing from the best of the
   * trials already done.
   */
  method SearchRow(ghost done: seq<Trial>, best0: Option<Trial>, m: Algorithm, seeds: seq<nat>, count: nat, n: nat, randint: (nat, nat) -> G.RandInt)
    returns (best: Option<Trial>)
    requires n > 0 && best0 == Best(done)
    ensures best == Best(done + Row(m, seeds, Evaluate(count, n, randint)))
  {
    ghost var eval := Evaluate(count, n, randint);
    best := best0;
    assert done + Row(m, seeds[..0], eval) == done;
    var j := 0;
    while j < |seeds|
      invariant 0 <= j <= |seeds|
      invariant best == Best(done + Row(m, seeds[..j], eval))
    {
      var trial := Try(m, seeds[j], count, n, randint);
      ghost var before := done + Row(m, seeds[..j], eval);
      assert done + Row(m, seeds[..j + 1], eval) == before + [trial] by {
        RowAppend(done, m, seeds, j, eval);
      }
      BestAppend(before, trial);
      if best.None? || trial.variance < best.value.variance {
        best := Some(trial);
      }
      j := j + 1;
    }
    assert seeds[..j] == seeds;
  }

  lemma RowAppend(done: seq<Trial>, m: Algorithm, seeds: seq<nat>, j: nat, eval: (Algorithm, nat) -> Trial)
    requires j < |seeds|
    ensures done + Row(m, seeds[..j + 1], eval) == (done + Row(m, seeds[..j], eval)) + [eval(m, seeds[j])]
  {
    assert seeds[..j + 1][..j] == seeds[..j];
  }

  lemma TrialsAppend(algorithms: seq<Algorithm>, i: nat, seeds: seq<nat>, eval: (Algorithm, nat) -> Trial)
    requires i < |algorithms|
    ensures Trials(algorithms[..i + 1], seeds, eval) == Trials(algorithms[..i], seeds, eval) + Row(algorithms[i], seeds, eval)
  {
    assert algorithms[..i + 1][..i] == algorithms[..i];
  }

  /**
   * `find_best_seed_and_method(k, l, n)`: the search over the four generators and the
   * seeds 0, 100, ..., 1000000 with k*l draws. It returns the generator, seed, variance
   * and reduced pool of the first pair whose variance is the lowest of all pairs tried.
   * The pool has k*l entries, all in [0, n).
   */
  method FindBestSeedAndMethod(k: nat, l: nat, n: nat, randint: (nat, nat) -> G.RandInt)
    returns (algorithm: Algorithm, seed: nat, variance: real, pool: seq<int>)
    requires n > 0
    ensures Chosen(k * l, n, randint, Trial(algorithm, seed, variance, pool))
  {
    ghost var eval := Evaluate(k * l, n, randint);
    var best := Search(Algorithms, SeedRange(), k * l, n, randint);
    BestIsEarliestMinimum(Algorithms, SeedRange(), eval);
    ghost var i, j := WinnerPosition(Algorithms, SeedRange(), eval);
    EvaluatedTrial(Algorithms[i], SeedRange()[j], k * l, n, randint);
    algorithm, seed, variance, pool := best.value.algorithm, best.value.seed, best.value.variance, best.value.pool;
  }
}
