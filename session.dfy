/**
 * The state kept for one class: the pool chosen by the optimiser, the history of calls and
 * the roster the pool was prepared for. Prepare, Reset and Pick are the page's buttons;
 * Restore is the effect of an uploaded history file on the run of the page.
 */
module Session {
  import opened Wrappers
  import opened Roster
  import opened Pool
  import opened History
  import O = Optimizer
  import G = Generators

  /** An uploaded history table: its column headers and its rows. */
  datatype Table = Table(columns: seq<string>, rows: seq<Row>)

  /** `random.choice`: some element of a non-empty list, which one is left open. */
  method Choose(xs: seq<int>) returns (x: int)
    requires xs != []
    ensures x in xs
  {
    var i :| 0 <= i < |xs|;
    x := xs[i];
  }

  class Tab {
    var pool: Option<seq<int>>
    var used: seq<int>
    var names: Option<seq<string>>

    /** No seat has been called more often than the pool allows. */
    predicate WithinPool()
      reads this
    {
      pool.Some? ==> multiset(used) <= multiset(pool.value)
    }

    /** Every call in the history is a seat of the roster. */
    predicate SeatsInRoster()
      reads this
    {
      names.Some? ==> forall k :: 0 <= k < |used| ==> 0 <= used[k] < |names.value|
    }

    /** A class seen for the first time has an empty history and nothing prepared. */
    constructor()
      ensures pool == None && used == [] && names == None
      ensures WithinPool() && SeatsInRoster()
    {
      pool := None;
      used := [];
      names := None;
    }

    /**
     * Run the optimiser for k lessons of l calls over the seats of the roster read on this
     * run of the page (`RosterOf`), keep the pool and the roster, and start a fresh history.
     * Returns the chosen generator, seed and variance for display.
     */
    method Prepare(k: nat, l: nat, roster: seq<string>, randint: (nat, nat) -> G.RandInt)
      returns (algorithm: O.Algorithm, seed: nat, variance: real)
      requires roster != []
      modifies this
      ensures names == Some(roster)
      ensures pool.Some?
      ensures O.Chosen(k * l, |roster|, randint, O.Trial(algorithm, seed, variance, pool.value))
      ensures used == []
      ensures WithinPool() && SeatsInRoster()
    {
      var p;
      algorithm, seed, variance, p := O.FindBestSeedAndMethod(k, l, |roster|, randint);
      ghost var t := O.Trial(algorithm, seed, variance, p);
      assert O.Chosen(k * l, |roster|, randint, t);
      used := [];
      names := Some(roster);
      pool := Some(p);
    }

    /** Forget the pool, the history and the roster; the page then starts an empty history. */
    method Reset()
      modifies this
      ensures pool == None && used == [] && names == None
      ensures WithinPool() && SeatsInRoster()
    {
      pool := None;
      used := [];
      names := None;
    }

    /**
     * Load a saved history: when the table has both columns the history becomes its seat
     * numbers less one and the roster becomes its name column; the pool is kept.
     */
    method Restore(table: Table) returns (restored: bool)
      modifies this
      ensures restored <==> "名前" in table.columns && "番号" in table.columns
      ensures restored ==> used == RestoreUsed(table.rows) && names == Some(RestoreNames(table.rows))
      ensures !restored ==> used == old(used) && names == old(names)
      ensures pool == old(pool)
    {
      restored := "名前" in table.columns && "番号" in table.columns;
      if restored {
        used := RestoreUsed(table.rows);
        names := Some(RestoreNames(table.rows));
      }
    }

    /**
     * Call on one seat: among the seats whose names are not in the absentee text, choose one
     * with quota left, once per unit of quota, and append it to the history. Without
     * a prepared pool and roster, or without candidates, nothing changes.
     */
    method Pick(absentInput: string) returns (sel: Option<int>)
      modifies this
      ensures pool == old(pool) && names == old(names)
      ensures old(pool).None? || old(names).None? ==> sel.None? && used == old(used)
      ensures old(pool).Some? && old(names).Some? ==>
        var candidates := Candidates(old(pool).value, old(used),
          Available(old(names).value, Lines(absentInput)));
        (sel.Some? <==> candidates != []) &&
        (sel.Some? ==> sel.value in candidates)
      ensures sel.Some? ==> used == old(used) + [sel.value]
      ensures sel.None? ==> used == old(used)
      ensures sel.Some? ==>
        0 <= sel.value < |names.value| && names.value[sel.value] !in Lines(absentInput) &&
        multiset(old(used))[sel.value] < multiset(pool.value)[sel.value]
      ensures old(WithinPool()) ==> WithinPool()
      ensures old(SeatsInRoster()) ==> SeatsInRoster()
    {
      sel := None;
      if pool.Some? && names.Some? {
        var absents := Lines(absentInput);
        var available := Available(names.value, absents);
        var candidates := Candidates(pool.value, used, available);
        if candidates != [] {
          var choice := Choose(candidates);
          PickFromRoster(pool.value, used, names.value, absents, choice);
          used := used + [choice];
          sel := Some(choice);
        }
      }
    }

    /** The number of calls left: the pool less the history, with counts clamped at zero. */
    function Remaining(): (r: nat)
      reads this
      requires pool.Some?
      ensures r == |multiset(pool.value) - multiset(used)|
      ensures WithinPool() ==> r == |pool.value| - |used|
    {
      RemainingCountIsSize(pool.value, used);
      RemainingWithinPool(pool.value, used);
      RemainingCount(pool.value, used)
    }

    /** The history table shown and offered for download; in range whenever every call is a seat. */
    function Export(): (rows: Option<seq<Row>>)
      reads this
      requires names.Some?
      ensures SeatsInRoster() ==> rows.Some? && |rows.value| == |used|
    {
      ExportDefined(used, names.value);
      HistoryRows(used, names.value)
    }
  }
}
