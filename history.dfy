/**
 * The call history as a table of (seat number, name) rows: seat numbers are written from 1,
 * and restoring a saved history turns them back into seat indices from 0.
 */
module History {
  import opened Wrappers

  datatype Row = Row(number: int, name: string)

  /** `names[i]` with Python's indexing: negative indices count from the end. */
  function Lookup(names: seq<string>, i: int): (r: Option<string>)
    ensures r.Some? <==> -|names| <= i < |names|
  {
    if 0 <= i < |names| then Some(names[i])
    else if -|names| <= i < 0 then Some(names[|names| + i])
    else None
  }

  /** One row per call: the seat number counted from 1 and the seat's name; None where a lookup raises IndexError. */
  function HistoryRows(used: seq<int>, names: seq<string>): (rows: Option<seq<Row>>)
    ensures rows.Some? ==> |rows.value| == |used|
  {
    if used == [] then Some([])
    else
      var i := used[|used| - 1];
      match (HistoryRows(used[..|used| - 1], names), Lookup(names, i))
      case (Some(front), Some(name)) => Some(front + [Row(i + 1, name)])
      case _ => None
  }

  /** The history can be written out exactly when every index can be looked up, and row k is
      the seat number and name of the k-th call. */
  lemma {:induction false} HistoryRowsShape(used: seq<int>, names: seq<string>)
    ensures HistoryRows(used, names).Some? <==>
      forall k :: 0 <= k < |used| ==> Lookup(names, used[k]).Some?
    ensures HistoryRows(used, names).Some? ==>
      forall k :: 0 <= k < |used| ==>
        HistoryRows(used, names).value[k] == Row(used[k] + 1, Lookup(names, used[k]).value)
  {
    if used != [] {
      var front := used[..|used| - 1];
      HistoryRowsShape(front, names);
      assert forall k :: 0 <= k < |front| ==> front[k] == used[k];
    }
  }

  /** The history read back from a table: each row's number, counted from 1, as a seat index from 0. */
  function RestoreUsed(rows: seq<Row>): (used: seq<int>)
    ensures |used| == |rows|
    ensures forall k :: 0 <= k < |rows| ==> used[k] + 1 == rows[k].number
  {
    seq(|rows|, k requires 0 <= k < |rows| => rows[k].number - 1)
  }

  /** The roster read back from a table: the name column, row by row. */
  function RestoreNames(rows: seq<Row>): (names: seq<string>)
    ensures |names| == |rows|
  {
    seq(|rows|, k requires 0 <= k < |rows| => rows[k].name)
  }

  /** Restoring an exported history gives back the same calls, each with the name it was written with. */
  lemma ExportRestore(used: seq<int>, names: seq<string>)
    requires HistoryRows(used, names).Some?
    ensures RestoreUsed(HistoryRows(used, names).value) == used
    ensures forall k :: 0 <= k < |used| ==>
      Lookup(names, used[k]) == Some(RestoreNames(HistoryRows(used, names).value)[k])
  {
    HistoryRowsShape(used, names);
  }

  /** A history whose indices are all seats of the roster can always be written out. */
  lemma ExportDefined(used: seq<int>, names: seq<string>)
    ensures (forall k :: 0 <= k < |used| ==> 0 <= used[k] < |names|) ==>
      HistoryRows(used, names).Some? && |HistoryRows(used, names).value| == |used| &&
      forall k :: 0 <= k < |used| ==>
        HistoryRows(used, names).value[k] == Row(used[k] + 1, names[used[k]])
  {
    HistoryRowsShape(used, names);
  }

  /** A restored history is not bounded by the pool: the same seat listed twice exceeds a quota of one. */
  lemma RestoreMayExceedPool()
    ensures !(multiset(RestoreUsed([Row(1, "A"), Row(1, "A")])) <= multiset([0]))
  {
    assert RestoreUsed([Row(1, "A"), Row(1, "A")]) == [0, 0];
    assert multiset([0, 0])[0] == 2;
  }
}
