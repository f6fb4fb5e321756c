/**
 * The pick pool: the optimiser's reduced list says how often each seat is to be called,
 * the history says who has been called, and a pick chooses among the seats that are
 * present and still have quota. Counter subtraction is multiset difference, which
 * clamps every count at zero.
 */
module Pool {

  // ---------------------------------------------------------------- Counter order

  /** The distinct values of pool in order of first occurrence: the key order of `Counter(pool)`. */
  function Keys(pool: seq<int>): (keys: seq<int>)
    ensures forall x :: x in keys <==> x in pool
  {
    if pool == [] then []
    else
      var front := Keys(pool[..|pool| - 1]);
      var x := pool[|pool| - 1];
      assert forall y :: y in pool <==> y in pool[..|pool| - 1] || y == x;
      if x in front then front else front + [x]
  }

  predicate Distinct(xs: seq<int>) {
    forall a, b :: 0 <= a < b < |xs| ==> xs[a] != xs[b]
  }

  lemma {:induction false} KeysDistinct(pool: seq<int>)
    ensures Distinct(Keys(pool))
  {
    if pool != [] {
      KeysDistinct(pool[..|pool| - 1]);
    }
  }

  /** x repeated c times. */
  function Repeat(x: int, c: nat): (r: seq<int>)
    ensures |r| == c
  {
    seq(c, _ => x)
  }

  lemma {:induction false} RepeatCount(x: int, c: nat, y: int)
    ensures multiset(Repeat(x, c))[y] == if y == x then c else 0
  {
    if c > 0 {
      RepeatCount(x, c - 1, y);
      assert Repeat(x, c) == Repeat(x, c - 1) + [x];
    }
  }

  /** `Counter.elements()`: every key as often as its count, keys in order. */
  function Elements(keys: seq<int>, m: multiset<int>): seq<int> {
    if keys == [] then []
    else
      var x := keys[|keys| - 1];
      Elements(keys[..|keys| - 1], m) + Repeat(x, m[x])
  }

  /** With distinct keys, each key occurs as often as the multiset says; other values never. */
  lemma {:induction false} ElementsCount(keys: seq<int>, m: multiset<int>, y: int)
    requires Distinct(keys)
    ensures multiset(Elements(keys, m))[y] == if y in keys then m[y] else 0
  {
    if keys != [] {
      var front := keys[..|keys| - 1];
      var x := keys[|keys| - 1];
      assert Distinct(front);
      ElementsCount(front, m, y);
      RepeatCount(x, m[x], y);
      assert x !in front;
      assert y in keys <==> y in front || y == x;
    }
  }

  // ---------------------------------------------------------------- quota and candidates

  /** The remaining quota as a list: `Counter` subtraction (clamped at 0), then `elements()`. */
  function RemainingElements(pool: seq<int>, used: seq<int>): seq<int> {
    Elements(Keys(pool), multiset(pool) - multiset(used))
  }

  /** The remaining quota, as multiset difference. */
  lemma RemainingIsDifference(pool: seq<int>, used: seq<int>)
    ensures multiset(RemainingElements(pool, used)) == multiset(pool) - multiset(used)
  {
    KeysDistinct(pool);
    forall y
      ensures multiset(RemainingElements(pool, used))[y] == (multiset(pool) - multiset(used))[y]
    {
      ElementsCount(Keys(pool), multiset(pool) - multiset(used), y);
    }
  }

  /** The values of xs that are available, in order. */
  function Filter(xs: seq<int>, available: seq<int>): (r: seq<int>)
    ensures |r| <= |xs|
  {
    if xs == [] then []
    else
      var rest := Filter(xs[..|xs| - 1], available);
      var x := xs[|xs| - 1];
      if x in available then rest + [x] else rest
  }

  lemma {:induction false} FilterCount(xs: seq<int>, available: seq<int>, y: int)
    ensures multiset(Filter(xs, available))[y] == if y in available then multiset(xs)[y] else 0
  {
    if xs != [] {
      FilterCount(xs[..|xs| - 1], available, y);
      assert xs == xs[..|xs| - 1] + [xs[|xs| - 1]];
    }
  }

  /** The seats called on by a pick: present seats, once per unit of remaining quota. */
  function Candidates(pool: seq<int>, used: seq<int>, available: seq<int>): seq<int> {
    Filter(RemainingElements(pool, used), available)
  }

  /** The clamped quota `max(0, count(pool, i) - count(used, i))`. */
  function Quota(pool: seq<int>, used: seq<int>, i: int): nat {
    if multiset(pool)[i] > multiset(used)[i] then multiset(pool)[i] - multiset(used)[i] else 0
  }

  /** A present seat is a candidate exactly as many times as its quota, an absent one never. */
  lemma CandidateCount(pool: seq<int>, used: seq<int>, available: seq<int>, i: int)
    ensures multiset(Candidates(pool, used, available))[i] ==
      if i in available then Quota(pool, used, i) else 0
  {
    FilterCount(RemainingElements(pool, used), available, i);
    RemainingIsDifference(pool, used);
  }

  /** There is a candidate exactly when some present seat has quota left. */
  lemma CandidatesExist(pool: seq<int>, used: seq<int>, available: seq<int>)
    ensures Candidates(pool, used, available) != [] <==>
      exists i :: i in available && multiset(used)[i] < multiset(pool)[i]
  {
    var c := Candidates(pool, used, available);
    if c != [] {
      var i := c[0];
      assert i in multiset(c);
      CandidateCount(pool, used, available, i);
    }
    if exists i :: i in available && multiset(used)[i] < multiset(pool)[i] {
      var i :| i in available && multiset(used)[i] < multiset(pool)[i];
      CandidateCount(pool, used, available, i);
      assert i in multiset(c);
    }
  }

  /** The positions of the roster whose name is not among the absentees, in order. */
  function Available(names: seq<string>, absents: seq<string>): (a: seq<int>)
    ensures forall i :: i in a ==> 0 <= i < |names|
  {
    if names == [] then []
    else
      var front := Available(names[..|names| - 1], absents);
      if names[|names| - 1] in absents then front else front + [|names| - 1]
  }

  /** A seat is available exactly when its name is not among the absentees. */
  lemma {:induction false} AvailableIff(names: seq<string>, absents: seq<string>, i: int)
    ensures i in Available(names, absents) <==> 0 <= i < |names| && names[i] !in absents
  {
    if names != [] {
      var front := names[..|names| - 1];
      AvailableIff(front, absents, i);
      if 0 <= i < |front| {
        assert front[i] == names[i];
      }
    }
  }

  /** The number shown as still to be called: the total clamped quota, whoever is absent. */
  function RemainingCount(pool: seq<int>, used: seq<int>): nat {
    |RemainingElements(pool, used)|
  }

  lemma RemainingCountIsSize(pool: seq<int>, used: seq<int>)
    ensures RemainingCount(pool, used) == |multiset(pool) - multiset(used)|
  {
    RemainingIsDifference(pool, used);
  }

  /** There are never more candidates than remaining calls. */
  lemma CandidatesWithinRemaining(pool: seq<int>, used: seq<int>, available: seq<int>)
    ensures |Candidates(pool, used, available)| <= RemainingCount(pool, used)
    ensures RemainingCount(pool, used) == 0 ==> Candidates(pool, used, available) == []
  {
  }

  // ---------------------------------------------------------------- the effect of a pick

  /** A picked seat is present and had quota left. */
  lemma PickEligible(pool: seq<int>, used: seq<int>, available: seq<int>, sel: int)
    requires sel in Candidates(pool, used, available)
    ensures sel in available
    ensures multiset(used)[sel] < multiset(pool)[sel]
  {
    assert sel in multiset(Candidates(pool, used, available));
    CandidateCount(pool, used, available, sel);
  }

  /** Appending the pick changes the used count of that seat only, by one. */
  lemma PickAccounting(pool: seq<int>, used: seq<int>, available: seq<int>, sel: int, other: int)
    requires sel in Candidates(pool, used, available)
    ensures multiset(used + [sel])[sel] == multiset(used)[sel] + 1 <= multiset(pool)[sel]
    ensures other != sel ==> multiset(used + [sel])[other] == multiset(used)[other]
  {
    PickEligible(pool, used, available, sel);
  }

  /** A history within the pool stays within the pool after a pick. */
  lemma PickKeepsWithinPool(pool: seq<int>, used: seq<int>, available: seq<int>, sel: int)
    requires multiset(used) <= multiset(pool)
    requires sel in Candidates(pool, used, available)
    ensures multiset(used + [sel]) <= multiset(pool)
  {
    PickEligible(pool, used, available, sel);
    forall y
      ensures multiset(used + [sel])[y] <= multiset(pool)[y]
    {
      PickAccounting(pool, used, available, sel, y);
    }
  }

  /** Every pick uses up exactly one remaining call. */
  lemma PickConsumesOne(pool: seq<int>, used: seq<int>, available: seq<int>, sel: int)
    requires sel in Candidates(pool, used, available)
    ensures RemainingCount(pool, used + [sel]) == RemainingCount(pool, used) - 1
  {
    PickEligible(pool, used, available, sel);
    var before := multiset(pool) - multiset(used);
    var after := multiset(pool) - multiset(used + [sel]);
    assert before == after + multiset{sel};
    RemainingCountIsSize(pool, used);
    RemainingCountIsSize(pool, used + [sel]);
  }

  /** While the history stays within the pool, the calls left are the pool less the history. */
  lemma RemainingWithinPool(pool: seq<int>, used: seq<int>)
    ensures multiset(used) <= multiset(pool) ==> RemainingCount(pool, used) == |pool| - |used|
  {
    if multiset(used) <= multiset(pool) {
      var rest := multiset(pool) - multiset(used);
      assert rest + multiset(used) == multiset(pool);
      RemainingCountIsSize(pool, used);
    }
  }

  /** What a pick guarantees, for the available seats of a roster and an absentee list. */
  lemma PickFromRoster(pool: seq<int>, used: seq<int>, names: seq<string>, absents: seq<string>, sel: int)
    requires sel in Candidates(pool, used, Available(names, absents))
    ensures 0 <= sel < |names| && names[sel] !in absents
    ensures multiset(used)[sel] < multiset(pool)[sel]
    ensures multiset(used) <= multiset(pool) ==> multiset(used + [sel]) <= multiset(pool)
  {
    var available := Available(names, absents);
    PickEligible(pool, used, available, sel);
    AvailableIff(names, absents, sel);
    if multiset(used) <= multiset(pool) {
      PickKeepsWithinPool(pool, used, available, sel);
    }
  }
}
