/**
 * The SQL statements the store runs, restated on the sequence of rows in
 * rowid order: the two SELECTs, `MAX(id)`, the rowid an INSERT assigns, and
 * `DELETE ... WHERE id = ?`; plus the choice remove-by-date makes.
 */
module Queries {
  import opened Wrappers
  import opened Records

  /** `WHERE date(date) = ?`, with stored dates taken to be canonical already. */
  function OnDate<Id(!new)>(rows: seq<Row<Id>>, date: string): (r: seq<Row<Id>>)
    ensures forall x :: multiset(r)[x] == if x.data.date == date then multiset(rows)[x] else 0
  {
    if rows == [] then []
    else
      assert rows == [rows[0]] + rows[1..];
      (if rows[0].data.date == date then [rows[0]] else []) + OnDate(rows[1..], date)
  }

  /** `get_record_by_date`: exactly the rows of that date, ordered by time. */
  function ByDate<Id(!new)>(rows: seq<Row<Id>>, date: string): (r: seq<Row<Id>>)
    ensures Sorted(ByTime, r)
    ensures multiset(r) == multiset(OnDate(rows, date))
  {
    SortBy(ByTime, OnDate(rows, date))
  }

  /** `get_all_records`: every row, ordered by date and then time. */
  function AllOrdered<Id>(rows: seq<Row<Id>>): (r: seq<Row<Id>>)
    ensures Sorted(ByDateTime, r)
    ensures multiset(r) == multiset(rows)
  {
    SortBy(ByDateTime, rows)
  }

  /** Rowids grow along the table: later rows have larger ids. */
  predicate IdsIncreasing(rows: seq<Row<int>>)
  {
    forall i, j :: 0 <= i < j < |rows| ==> rows[i].id < rows[j].id
  }

  /** What every row the store assigns an id to satisfies: ids at least 1, increasing. */
  predicate WellNumbered(rows: seq<Row<int>>)
  {
    IdsIncreasing(rows) && forall i :: 0 <= i < |rows| ==> 1 <= rows[i].id
  }

  /** `SELECT MAX(id)`: NULL on an empty table. */
  function MaxId(rows: seq<Row<int>>): (m: Option<int>)
    ensures m.None? <==> rows == []
    ensures m.Some? ==> exists k :: 0 <= k < |rows| && rows[k].id == m.value
    ensures m.Some? ==> forall k :: 0 <= k < |rows| ==> rows[k].id <= m.value
  {
    if rows == [] then None
    else
      match MaxId(rows[1..])
      case None => Some(rows[0].id)
      case Some(m) =>
        assert forall k :: 1 <= k < |rows| ==> rows[k] == rows[1..][k - 1];
        if rows[0].id >= m then Some(rows[0].id) else Some(m)
  }

  /**
   * The rowid SQLite gives a row inserted without one: one more than the
   * largest id in the table, or 1 when the table is empty. With no
   * AUTOINCREMENT, an id freed by deleting the largest one is handed out again.
   */
  function NextId(rows: seq<Row<int>>): (id: int)
    ensures rows == [] ==> id == 1
    ensures forall k :: 0 <= k < |rows| ==> rows[k].id < id
    ensures rows != [] ==> exists k :: 0 <= k < |rows| && rows[k].id == id - 1
  {
    match MaxId(rows)
    case None => 1
    case Some(m) => m + 1
  }

  /** In a well-numbered table the next id follows the last row's. */
  lemma NextIdAfterLast(rows: seq<Row<int>>)
    requires WellNumbered(rows) && rows != []
    ensures NextId(rows) == rows[|rows| - 1].id + 1
  {
    var k :| 0 <= k < |rows| && rows[k].id == NextId(rows) - 1;
    if k < |rows| - 1 {
      assert rows[k].id < rows[|rows| - 1].id;
    }
  }

  /** Appending a row under the id the store assigns keeps the table well numbered. */
  lemma AppendKeepsNumbering(rows: seq<Row<int>>, m: Measurement)
    requires WellNumbered(rows)
    ensures WellNumbered(rows + [Row(NextId(rows), m)])
  {
  }

  /** `DELETE FROM bplog WHERE id = ?`: every row with that id goes, the rest stay in order. */
  function WithoutId(rows: seq<Row<int>>, id: int): (r: seq<Row<int>>)
    ensures |r| <= |rows|
    ensures forall k :: 0 <= k < |r| ==> r[k].id != id
  {
    if rows == [] then []
    else
      (if rows[0].id == id then [] else [rows[0]]) + WithoutId(rows[1..], id)
  }

  /** A row survives the delete exactly when its id differs, as often as it was there. */
  lemma {:induction false} WithoutIdCounts(rows: seq<Row<int>>, id: int, x: Row<int>)
    ensures multiset(WithoutId(rows, id))[x] == if x.id == id then 0 else multiset(rows)[x]
  {
    if rows != [] {
      var head: seq<Row<int>> := if rows[0].id == id then [] else [rows[0]];
      WithoutIdCounts(rows[1..], id, x);
      assert rows == [rows[0]] + rows[1..];
      assert WithoutId(rows, id) == head + WithoutId(rows[1..], id);
      assert multiset(WithoutId(rows, id)) == multiset(head) + multiset(WithoutId(rows[1..], id));
      assert multiset(rows) == multiset{rows[0]} + multiset(rows[1..]);
    }
  }

  /** Deleting an id no row carries changes nothing. */
  lemma {:induction false} WithoutAbsentId(rows: seq<Row<int>>, id: int)
    requires forall k :: 0 <= k < |rows| ==> rows[k].id != id
    ensures WithoutId(rows, id) == rows
  {
    if rows != [] {
      WithoutAbsentId(rows[1..], id);
      assert rows == [rows[0]] + rows[1..];
    }
  }

  /** In a table with increasing ids, deleting row k's id removes exactly row k, keeping the order. */
  lemma {:induction false} WithoutPresentId(rows: seq<Row<int>>, k: nat)
    requires IdsIncreasing(rows) && k < |rows|
    ensures WithoutId(rows, rows[k].id) == rows[..k] + rows[k + 1..]
  {
    var id := rows[k].id;
    var tail := rows[1..];
    assert IdsIncreasing(tail) by {
      forall i, j | 0 <= i < j < |tail| ensures tail[i].id < tail[j].id {
        assert tail[i] == rows[i + 1] && tail[j] == rows[j + 1];
      }
    }
    if k == 0 {
      assert forall j :: 0 <= j < |tail| ==> tail[j].id != id by {
        forall j | 0 <= j < |tail| ensures tail[j].id != id {
          assert tail[j] == rows[j + 1];
        }
      }
      WithoutAbsentId(tail, id);
      assert WithoutId(rows, id) == WithoutId(tail, id);
    } else {
      assert rows[0].id < id;
      assert tail[k - 1] == rows[k];
      WithoutPresentId(tail, k - 1);
      assert WithoutId(rows, id) == [rows[0]] + WithoutId(tail, id);
      assert tail[..k - 1] == rows[1..k];
      assert tail[k..] == rows[k + 1..];
      assert rows[..k] == [rows[0]] + rows[1..k];
    }
  }

  /** Deleting keeps the table well numbered. */
  lemma WithoutIdKeepsNumbering(rows: seq<Row<int>>, id: int)
    requires WellNumbered(rows)
    ensures WellNumbered(WithoutId(rows, id))
  {
    var k := IndexOfId(rows, id);
    if k < |rows| {
      WithoutPresentId(rows, k);
      var r := rows[..k] + rows[k + 1..];
      assert forall i :: 0 <= i < |r| ==> r[i] == if i < k then rows[i] else rows[i + 1];
    } else {
      WithoutAbsentId(rows, id);
    }
  }

  /** Position of the first row carrying `id`, or |rows| when there is none. */
  function IndexOfId(rows: seq<Row<int>>, id: int): (k: nat)
    ensures k <= |rows|
    ensures k < |rows| ==> rows[k].id == id
    ensures forall j :: 0 <= j < k ==> rows[j].id != id
  {
    if rows == [] then 0
    else if rows[0].id == id then 0
    else 1 + IndexOfId(rows[1..], id)
  }

  /** With increasing ids, looking a row's id up finds that very row. */
  lemma IndexOfRow(rows: seq<Row<int>>, x: Row<int>)
    requires IdsIncreasing(rows) && x in rows
    ensures IndexOfId(rows, x.id) < |rows| && rows[IndexOfId(rows, x.id)] == x
  {
    var j :| 0 <= j < |rows| && rows[j] == x;
  }

  /** Deleting a stored row's id removes exactly that row, wherever it sits. */
  lemma WithoutRow(rows: seq<Row<int>>, x: Row<int>)
    requires IdsIncreasing(rows) && x in rows
    ensures var k := IndexOfId(rows, x.id);
      k < |rows| && rows[k] == x && WithoutId(rows, x.id) == rows[..k] + rows[k + 1..]
  {
    IndexOfRow(rows, x);
    WithoutPresentId(rows, IndexOfId(rows, x.id));
  }

  /**
   * `SELECT * FROM bplog WHERE id = (SELECT MAX(id) FROM bplog)`, first row:
   * the row with the largest id, that is the one added last (not the latest
   * reading), or NULL on an empty table.
   */
  function LastAdded(rows: seq<Row<int>>): (r: Option<Row<int>>)
    ensures r.None? <==> rows == []
    ensures r.Some? ==> r.value in rows
    ensures r.Some? ==> forall k :: 0 <= k < |rows| ==> rows[k].id <= r.value.id
  {
    match MaxId(rows)
    case None => None
    case Some(m) => Some(rows[IndexOfId(rows, m)])
  }

  /** Position of the first candidate whose time text equals `time` exactly, or |candidates|. */
  function FirstAtTime<Id>(candidates: seq<Row<Id>>, time: string): (k: nat)
    ensures k <= |candidates|
    ensures k < |candidates| ==> candidates[k].data.time == time
    ensures forall j :: 0 <= j < k ==> candidates[j].data.time != time
  {
    if candidates == [] then 0
    else if candidates[0].data.time == time then 0
    else 1 + FirstAtTime(candidates[1..], time)
  }

  /** Some row of that date has exactly that time text. */
  predicate HasAt<Id>(rows: seq<Row<Id>>, date: string, time: string)
  {
    exists k :: 0 <= k < |rows| && rows[k].data.date == date && rows[k].data.time == time
  }

  /** The time-ordered matches are the rows of that date, each once per occurrence. */
  lemma ByDateMembers<Id(!new)>(rows: seq<Row<Id>>, date: string)
    ensures |ByDate(rows, date)| == |OnDate(rows, date)|
    ensures forall j :: 0 <= j < |ByDate(rows, date)| ==>
      ByDate(rows, date)[j] in rows && ByDate(rows, date)[j].data.date == date
    ensures forall i :: 0 <= i < |rows| && rows[i].data.date == date ==> rows[i] in ByDate(rows, date)
    ensures |OnDate(rows, date)| == 1 ==> ByDate(rows, date) == OnDate(rows, date)
  {
    var m, on := ByDate(rows, date), OnDate(rows, date);
    assert |multiset(m)| == |multiset(on)|;
    forall j | 0 <= j < |m| ensures m[j] in rows && m[j].data.date == date {
      ByDateMember(rows, date, m[j]);
    }
    forall i | 0 <= i < |rows| && rows[i].data.date == date ensures rows[i] in m {
      OnDateMember(rows, date, rows[i]);
    }
    if |on| == 1 {
      ByDateMember(rows, date, m[0]);
      assert multiset(on)[m[0]] > 0;
      assert m[0] in on;
    }
  }

  /** A row among the matches is a stored row of that date. */
  lemma ByDateMember<Id(!new)>(rows: seq<Row<Id>>, date: string, x: Row<Id>)
    requires x in ByDate(rows, date)
    ensures x in rows && x.data.date == date
  {
    assert multiset(ByDate(rows, date))[x] > 0;
    assert multiset(rows)[x] > 0;
  }

  /** A stored row of that date is among the matches. */
  lemma OnDateMember<Id(!new)>(rows: seq<Row<Id>>, date: string, x: Row<Id>)
    requires x in rows && x.data.date == date
    ensures x in ByDate(rows, date)
  {
    assert multiset(rows)[x] > 0;
    assert multiset(ByDate(rows, date))[x] > 0;
  }

  /** Some candidate's time text is exactly `time`. */
  predicate SomeAtTime<Id>(candidates: seq<Row<Id>>, time: string)
  {
    exists k :: 0 <= k < |candidates| && candidates[k].data.time == time
  }

  /**
   * The choice among the time-ordered candidates of one date: the only one,
   * or, when there are several, the first whose time text is `time`.
   */
  function TargetAmong<Id>(candidates: seq<Row<Id>>, time: string): Option<Row<Id>>
  {
    if |candidates| == 0 then None
    else if |candidates| == 1 then Some(candidates[0])
    else
      var k := FirstAtTime(candidates, time);
      if k < |candidates| then Some(candidates[k]) else None
  }

  /**
   * How the choice among the candidates goes: always one of them; the only
   * one when there is one; otherwise a row exactly when some candidate has
   * that time text, and then one with that time.
   */
  lemma TargetAmongCases<Id>(candidates: seq<Row<Id>>, time: string)
    ensures TargetAmong(candidates, time).Some? ==> TargetAmong(candidates, time).value in candidates
    ensures |candidates| == 1 ==> TargetAmong(candidates, time) == Some(candidates[0])
    ensures |candidates| != 1 ==> (TargetAmong(candidates, time).Some? <==> SomeAtTime(candidates, time))
    ensures |candidates| > 1 && TargetAmong(candidates, time).Some? ==> TargetAmong(candidates, time).value.data.time == time
  {
  }

  /**
   * The row remove-by-date deletes: with one row on the date, that row; with
   * several, the first of them in time order whose time text equals the typed
   * `time` exactly; otherwise none.
   */
  function RemovalTarget<Id(!new)>(rows: seq<Row<Id>>, date: string, time: string): Option<Row<Id>>
  {
    TargetAmong(ByDate(rows, date), time)
  }

  /**
   * The three cases of remove-by-date: no row on the date, nothing; one row,
   * that row; several, a row exactly when one of them has the typed time
   * text, and then the first such in time order.
   */
  lemma RemovalTargetCases<Id(!new)>(rows: seq<Row<Id>>, date: string, time: string)
    ensures var r := RemovalTarget(rows, date, time);
      r.Some? ==> r.value in rows && r.value.data.date == date
    ensures |OnDate(rows, date)| == 0 ==> RemovalTarget(rows, date, time).None?
    ensures |OnDate(rows, date)| == 1 ==> RemovalTarget(rows, date, time) == Some(OnDate(rows, date)[0])
    ensures |OnDate(rows, date)| > 1 ==> (RemovalTarget(rows, date, time).Some? <==> HasAt(rows, date, time))
    ensures |OnDate(rows, date)| > 1 && RemovalTarget(rows, date, time).Some? ==>
      var m := ByDate(rows, date);
      var v := RemovalTarget(rows, date, time).value;
      v.data.time == time && v == m[FirstAtTime(m, time)]
  {
    ByDateMembers(rows, date);
    if |OnDate(rows, date)| > 1 {
      SeveralOnDate(rows, date, time);
    }
  }

  /** With several rows on the date, the typed time text decides. */
  lemma SeveralOnDate<Id(!new)>(rows: seq<Row<Id>>, date: string, time: string)
    requires |OnDate(rows, date)| > 1
    ensures RemovalTarget(rows, date, time).Some? <==> HasAt(rows, date, time)
    ensures RemovalTarget(rows, date, time).Some? ==>
      var m := ByDate(rows, date);
      var v := RemovalTarget(rows, date, time).value;
      v.data.time == time && v == m[FirstAtTime(m, time)]
  {
    var m := ByDate(rows, date);
    ByDateMembers(rows, date);
    var k := FirstAtTime(m, time);
    assert RemovalTarget(rows, date, time) == if k < |m| then Some(m[k]) else None;
    if k < |m| {
      var i :| 0 <= i < |rows| && rows[i] == m[k];
      assert rows[i].data.date == date && rows[i].data.time == time;
    } else {
      forall i | 0 <= i < |rows| && rows[i].data.date == date ensures rows[i].data.time != time {
        var j :| 0 <= j < |m| && m[j] == rows[i];
      }
    }
  }

  /** On a well-numbered table, deleting the target's id removes that row and no other. */
  lemma RemovalDeletesTarget(rows: seq<Row<int>>, date: string, time: string)
    requires WellNumbered(rows)
    ensures var t := RemovalTarget(rows, date, time);
      t.Some? ==> t.value !in WithoutId(rows, t.value.id) && |WithoutId(rows, t.value.id)| == |rows| - 1
  {
    RemovalTargetCases(rows, date, time);
    var t := RemovalTarget(rows, date, time);
    if t.Some? {
      WithoutRow(rows, t.value);
      WithoutIdCounts(rows, t.value.id, t.value);
    }
  }

  /** What remove-by-date reports to the operator. */
  datatype Removal<Id> =
    | NothingOnDate                                          // no measurements on that date
    | RemovedOnly(row: Row<Id>)                              // the single match was deleted by its id
    | RemovedAtTime(candidates: seq<Row<Id>>, row: Row<Id>)  // several listed; the typed time picked `row`
    | NothingAtTime(candidates: seq<Row<Id>>, time: string)  // several listed; none at the typed time
  {
    /** The row the outcome reports as removed, if any. */
    function Deleted(): Option<Row<Id>>
    {
      match this
      case RemovedOnly(r) => Some(r)
      case RemovedAtTime(_, r) => Some(r)
      case _ => None
    }
  }
}
