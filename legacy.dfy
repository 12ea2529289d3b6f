/**
 * The `blood_pressure` table of the standalone script bp.py. Its id column
 * is declared `INT INTEGER PRIMARY KEY`; SQLite makes a column an alias of
 * the rowid only when its declared type is exactly INTEGER, so this id is an
 * ordinary nullable column, and the INSERT, which leaves it out, stores NULL.
 * Every delete goes through `WHERE id = ?`, and a comparison with NULL is
 * never true, so the script's removals find the row and then delete nothing.
 */
module Legacy {
  import opened Wrappers
  import opened Text
  import opened Records
  import opened Queries
  import opened Rendering

  /** A row of `blood_pressure`: the id may be NULL (None). */
  type LegacyRow = Row<Option<int>>

  /** Every stored id is NULL, as it is for every row the script inserts. */
  predicate AllNull(rows: seq<LegacyRow>)
  {
    forall k :: 0 <= k < |rows| ==> rows[k].id.None?
  }

  /** `stored = given` under SQL's three-valued logic: a NULL on either side is never equal. */
  function IdMatches(stored: Option<int>, given: Option<int>): (b: bool)
    ensures stored.None? || given.None? ==> !b
    ensures b <==> stored.Some? && stored == given
  {
    stored.Some? && given.Some? && stored.value == given.value
  }

  /** The rows `DELETE FROM blood_pressure WHERE id = ?` keeps, in their order. */
  function WithoutMatching(rows: seq<LegacyRow>, id: Option<int>): (r: seq<LegacyRow>)
    ensures |r| <= |rows|
  {
    if rows == [] then []
    else if IdMatches(rows[0].id, id) then WithoutMatching(rows[1..], id)
    else [rows[0]] + WithoutMatching(rows[1..], id)
  }

  /** A delete keeps exactly the rows whose id does not compare equal. */
  lemma {:induction false} WithoutMatchingCounts(rows: seq<LegacyRow>, id: Option<int>, x: LegacyRow)
    ensures multiset(WithoutMatching(rows, id))[x] == if IdMatches(x.id, id) then 0 else multiset(rows)[x]
  {
    if rows != [] {
      WithoutMatchingCounts(rows[1..], id, x);
      assert rows == [rows[0]] + rows[1..];
    }
  }

  /** Deleting by a NULL id, or from rows whose ids are all NULL, deletes nothing. */
  lemma {:induction false} NullDeletesNothing(rows: seq<LegacyRow>, id: Option<int>)
    requires id.None? || AllNull(rows)
    ensures WithoutMatching(rows, id) == rows
  {
    if rows != [] {
      assert !IdMatches(rows[0].id, id);
      NullDeletesNothing(rows[1..], id);
      assert [rows[0]] + rows[1..] == rows;
    }
  }

  /** `SELECT MAX(id) FROM blood_pressure`: the largest non-NULL id, NULL when there is none. */
  function MaxNonNull(rows: seq<LegacyRow>): (m: Option<int>)
    ensures m.None? <==> AllNull(rows)
    ensures m.Some? ==> exists k :: 0 <= k < |rows| && rows[k].id == m
    ensures m.Some? ==> forall k :: 0 <= k < |rows| && rows[k].id.Some? ==> rows[k].id.value <= m.value
  {
    if rows == [] then None
    else
      var rest := MaxNonNull(rows[1..]);
      var head := rows[0].id;
      if head.None? then rest
      else if rest.None? || rest.value < head.value then head
      else rest
  }

  /** `fetchone()` after `SELECT * ... WHERE id = ?`: the first row in rowid order whose id compares equal. */
  function FirstMatching(rows: seq<LegacyRow>, id: Option<int>): (r: Option<LegacyRow>)
    ensures r.Some? <==> exists k :: 0 <= k < |rows| && IdMatches(rows[k].id, id)
    ensures r.Some? ==> IdMatches(r.value.id, id) && r.value in rows
  {
    if rows == [] then None
    else if IdMatches(rows[0].id, id) then Some(rows[0])
    else
      var rest := FirstMatching(rows[1..], id);
      assert rest.Some? ==> rest.value in rows;
      assert forall k :: 1 <= k < |rows| ==> rows[k] == rows[1..][k - 1];
      rest
  }

  /** The tuple `SELECT *` yields for a stored row, with None for a NULL id. */
  function LegacyTuple(r: LegacyRow): (t: Tuple)
    ensures |t| == 6
  {
    [if r.id.Some? then Int(r.id.value) else Null,
     Str(r.data.date), Str(r.data.time), Int(r.data.systolic), Int(r.data.diastolic), Str(r.data.comment)]
  }

  function LegacyTuples(rows: seq<LegacyRow>): (t: seq<Tuple>)
    ensures |t| == |rows|
    ensures forall k :: 0 <= k < |rows| ==> t[k] == LegacyTuple(rows[k])
  {
    if rows == [] then [] else LegacyTuples(rows[..|rows| - 1]) + [LegacyTuple(rows[|rows| - 1])]
  }

  /** `f"{record[1]}\t{record[2]}\t{bp}"`: the script's plain listing drops the comment. */
  function LegacyLine(t: Tuple): (line: string)
    requires |t| >= 5
    ensures '\t' !in Show(t[1]) && '\t' !in Show(t[2]) && '\t' !in Show(t[3]) && '\t' !in Show(t[4]) ==>
      Split(line, '\t') == [Show(t[1]), Show(t[2]), Show(t[3]) + ":" + Show(t[4])]
  {
    var cells := [Show(t[1]), Show(t[2]), Show(t[3]) + ":" + Show(t[4])];
    if '\t' !in Show(t[1]) && '\t' !in Show(t[2]) && '\t' !in Show(t[3]) && '\t' !in Show(t[4]) then
      assert cells[2] == Show(t[3]) + [':'] + Show(t[4]);
      SplitJoin(cells, '\t');
      Join(cells, '\t')
    else
      Join(cells, '\t')
  }

  function LegacyLines(records: seq<Tuple>): (lines: seq<string>)
    requires forall k :: 0 <= k < |records| ==> |records[k]| >= 5
    ensures |lines| == |records|
    ensures forall k :: 0 <= k < |records| ==> lines[k] == LegacyLine(records[k])
  {
    if records == [] then []
    else
      var init := records[..|records| - 1];
      assert forall k :: 0 <= k < |init| ==> init[k] == records[k];
      LegacyLines(init) + [LegacyLine(records[|records| - 1])]
  }

  /** What a run of `print(line)` calls writes: each line followed by a newline. */
  function PrintedText(lines: seq<string>): (text: string)
    ensures text == "" <==> lines == []
    ensures lines != [] ==> text[|text| - 1] == '\n'
  {
    if lines == [] then "" else lines[0] + "\n" + PrintedText(lines[1..])
  }

  /** One more `print(line)`. */
  lemma {:induction false} PrintedTextSnoc(lines: seq<string>, line: string)
    ensures PrintedText(lines + [line]) == PrintedText(lines) + (line + "\n")
  {
    if lines == [] {
      assert [] + [line] == [line];
    } else {
      PrintedTextSnoc(lines[1..], line);
      assert (lines + [line])[1..] == lines[1..] + [line];
    }
  }

  /** Printed lines are the lines joined by newlines, with one more after the last. */
  lemma {:induction false} PrintedTextJoin(lines: seq<string>)
    ensures PrintedText(lines) == Join(lines + [""], '\n')
  {
    if lines != [] {
      PrintedTextJoin(lines[1..]);
      assert (lines + [""])[1..] == lines[1..] + [""];
    }
  }

  /** Split on newlines, the printed text gives back the lines and an empty remainder. */
  lemma PrintedTextLines(lines: seq<string>)
    requires forall k :: 0 <= k < |lines| ==> '\n' !in lines[k]
    ensures Split(PrintedText(lines), '\n') == lines + [""]
  {
    PrintedTextJoin(lines);
    SplitJoin(lines + [""], '\n');
  }

  /**
   * On rows the script inserted, the row remove-by-date picks is still
   * there after the delete that was meant to remove it.
   */
  lemma ScriptRemovalDeletesNothing(rows: seq<LegacyRow>, date: string, time: string)
    requires AllNull(rows)
    ensures var t := RemovalTarget(rows, date, time);
      t.Some? ==> t.value in rows && WithoutMatching(rows, t.value.id) == rows
  {
    RemovalTargetCases(rows, date, time);
    NullDeletesNothing(rows, None);
  }

  /** One stored measurement: it is picked for removal and survives the delete. */
  lemma ScriptRemovalExample()
    ensures var rows: seq<LegacyRow> := [Row(None, Measurement("2020-02-02", "09:50", 120, 80, ""))];
      && RemovalTarget(rows, "2020-02-02", "") == Some(rows[0])
      && WithoutMatching(rows, rows[0].id) == rows
  {
    var rows: seq<LegacyRow> := [Row(None, Measurement("2020-02-02", "09:50", 120, 80, ""))];
    assert OnDate(rows, "2020-02-02") == rows by {
      assert rows[1..] == [];
    }
    RemovalTargetCases(rows, "2020-02-02", "");
  }

  class LegacyStore {
    /** The table's rows in rowid order. */
    var rows: seq<LegacyRow>
    /** `CREATE TABLE IF NOT EXISTS blood_pressure ...` has run. */
    var hasTable: bool
    /** `CREATE INDEX IF NOT EXISTS idx_blood_pressure_date_time ...` has run. */
    var hasIndex: bool

    ghost predicate Valid()
      reads this
    {
      !hasTable ==> rows == [] && !hasIndex
    }

    /** A connection to a new, empty database file. */
    constructor ()
      ensures Valid() && AllNull(rows)
      ensures rows == [] && !hasTable && !hasIndex
    {
      rows, hasTable, hasIndex := [], false, false;
    }

    /** `database_setup`: creates the table and its (date, time) index when absent. */
    method DatabaseSetup()
      requires Valid()
      modifies this
      ensures Valid()
      ensures hasTable && hasIndex && rows == old(rows)
      ensures old(hasTable) && old(hasIndex) ==> unchanged(this)
    {
      if !hasTable {
        hasTable := true;
      }
      if !hasIndex {
        hasIndex := true;
      }
    }

    /** `delete_record`: `DELETE FROM blood_pressure WHERE id = ?`, which a NULL id never satisfies. */
    method DeleteRecord(id: Option<int>)
      requires Valid() && hasTable
      modifies this`rows
      ensures Valid()
      ensures rows == WithoutMatching(old(rows), id)
    {
      rows := WithoutMatching(rows, id);
    }

    /**
     * `add_measurement`: the INSERT names every column but id, so the new
     * row's id is NULL; time and comment fall back as in the packaged app.
     */
    method AddMeasurement(date: string, time: Option<string>, clock: string,
                          systolic: int, diastolic: int, comment: Option<string>)
      requires Valid() && hasTable
      modifies this`rows
      ensures Valid()
      ensures rows == old(rows) + [Row(None,
        Measurement(date, OrElse(time, clock), systolic, diastolic, OrElse(comment, "")))]
      ensures AllNull(old(rows)) ==> AllNull(rows)
    {
      var m := Measurement(date, OrElse(time, clock), systolic, diastolic, OrElse(comment, ""));
      rows := rows + [Row(None, m)];
    }

    /**
     * `delete_last_record_added`: fetches and deletes the rows whose id
     * equals `MAX(id)`. With every id NULL the maximum is NULL too, so it
     * reports None and deletes nothing.
     */
    method DeleteLastRecordAdded() returns (deleted: Option<LegacyRow>)
      requires Valid() && hasTable
      modifies this`rows
      ensures Valid()
      ensures deleted == FirstMatching(old(rows), MaxNonNull(old(rows)))
      ensures rows == WithoutMatching(old(rows), MaxNonNull(old(rows)))
      ensures AllNull(old(rows)) ==> deleted.None? && rows == old(rows)
    {
      var maxId := MaxNonNull(rows);
      if maxId.None? {
        NullDeletesNothing(rows, maxId);
      }
      deleted := FirstMatching(rows, maxId);
      DeleteRecord(maxId);
    }

    /**
     * `handle_multiple_records`: deletes, by its id, the first listed
     * candidate at the typed time, and reports it as removed.
     */
    method HandleMultipleRecords(candidates: seq<LegacyRow>, typedTime: string) returns (outcome: Removal<Option<int>>)
      requires Valid() && hasTable
      modifies this`rows
      ensures Valid()
      ensures var k := FirstAtTime(candidates, typedTime);
        if k < |candidates| then
          rows == WithoutMatching(old(rows), candidates[k].id) && outcome == RemovedAtTime(candidates, candidates[k])
        else
          rows == old(rows) && outcome == NothingAtTime(candidates, typedTime)
    {
      var found := false;
      var i := 0;
      while i < |candidates|
        invariant 0 <= i <= |candidates|
        invariant !found && rows == old(rows) && Valid()
        invariant forall j :: 0 <= j < i ==> candidates[j].data.time != typedTime
      {
        if candidates[i].data.time == typedTime {
          DeleteRecord(candidates[i].id);
          found := true;
          outcome := RemovedAtTime(candidates, candidates[i]);
          break;
        }
        i := i + 1;
      }
      if !found {
        outcome := NothingAtTime(candidates, typedTime);
      }
    }

    /**
     * `remove_measurement`: picks the same row as the packaged app and
     * reports it removed, but deletes it through its id; on rows the script
     * itself inserted that deletes nothing.
     */
    method RemoveMeasurement(date: string, typedTime: string) returns (outcome: Removal<Option<int>>)
      requires Valid() && hasTable
      modifies this`rows
      ensures Valid()
      ensures outcome.Deleted() == RemovalTarget(old(rows), date, typedTime)
      ensures outcome.Deleted().None? ==> rows == old(rows)
      ensures outcome.Deleted().Some? ==> rows == WithoutMatching(old(rows), outcome.Deleted().value.id)
    {
      var matches := ByDate(rows, date);
      assert RemovalTarget(rows, date, typedTime) == TargetAmong(matches, typedTime);
      if |matches| == 0 {
        outcome := NothingOnDate;
      } else if |matches| == 1 {
        DeleteRecord(matches[0].id);
        outcome := RemovedOnly(matches[0]);
      } else {
        outcome := HandleMultipleRecords(matches, typedTime);
      }
    }
  
    /**
     * `list_all_records`: the rows by date and time, either into a
     * PrettyTable (all six fields) or, without prettytable, one printed line
     * per row that leaves the comment out.
     */
    method ListAllRecords(prettytable: bool) returns (r: Rendered)
      requires Valid() && hasTable
      ensures var records := LegacyTuples(AllOrdered(rows));
        r == if prettytable then Boxed(CellRows(records)) else Plain(PrintedText(LegacyLines(records)))
    {
      var records := LegacyTuples(AllOrdered(rows));
      if prettytable {
        r := TableListing(records);
      } else {
        r := PrintedListing(records);
      }
    }
  }

  /** The prettytable branch of the script's listing: one table row per record, no length check. */
  method TableListing(records: seq<Tuple>) returns (r: Rendered)
    requires AllLong(records)
    ensures r == Boxed(CellRows(records))
  {
    var table: seq<seq<string>> := [];
    var i := 0;
    while i < |records|
      invariant 0 <= i <= |records|
      invariant table == CellRows(records[..i])
    {
      assert records[..i + 1][..i] == records[..i];
      table := table + [Cells(records[i])];
      i := i + 1;
    }
    assert records[..i] == records;
    r := Boxed(table);
  }

  /** The ImportError branch of the script's listing: one `print` per record. */
  method PrintedListing(records: seq<Tuple>) returns (r: Rendered)
    requires forall k :: 0 <= k < |records| ==> |records[k]| >= 5
    ensures r == Plain(PrintedText(LegacyLines(records)))
  {
    var printed := "";
    var i := 0;
    while i < |records|
      invariant 0 <= i <= |records|
      invariant printed == PrintedText(LegacyLines(records[..i]))
    {
      assert records[..i + 1][..i] == records[..i];
      PrintedTextSnoc(LegacyLines(records[..i]), LegacyLine(records[i]));
      printed := printed + (LegacyLine(records[i]) + "\n");
      i := i + 1;
    }
    assert records[..i] == records;
    r := Plain(printed);
  }
}
