/**
 * The `bplog` table behind an SQLite connection, as src/bplog/app.py drives
 * it. bplog_pkg/__main__.py and bplog/__main__.py run the same statements
 * on the same table, so this one class models all three.
 */
module Bplog {
  import opened Wrappers
  import opened Text
  import opened Records
  import opened Queries
  import opened Rendering

  /** A row of `bplog`: `id INTEGER PRIMARY KEY` is the rowid, never NULL. */
  type Record = Row<int>

  class Store {
    /** The table's rows in rowid order (the order a plain SELECT scans them). */
    var rows: seq<Record>
    /** `CREATE TABLE IF NOT EXISTS bplog ...` has run. */
    var hasTable: bool
    /** `CREATE INDEX IF NOT EXISTS idx_bplog_date_time ON bplog(date, time)` has run. */
    var hasIndex: bool
    /** The temporary table `bplog_backup` that the id renumbering uses, when it exists. */
    var backup: Option<seq<Measurement>>

    ghost predicate Valid()
      reads this
    {
      && WellNumbered(rows)
      && (!hasTable ==> rows == [] && !hasIndex)
    }

    /** A connection to a new, empty database file. */
    constructor ()
      ensures Valid()
      ensures rows == [] && !hasTable && !hasIndex && backup.None?
    {
      rows, hasTable, hasIndex, backup := [], false, false, None;
    }

    /**
     * `database_setup`: creates the table and the (date, time) index when
     * absent; rows already stored are untouched, and on a set-up store the
     * call changes nothing at all.
     */
    method DatabaseSetup()
      requires Valid()
      modifies this
      ensures Valid()
      ensures hasTable && hasIndex
      ensures rows == old(rows) && backup == old(backup)
      ensures old(hasTable) && old(hasIndex) ==> unchanged(this)
    {
      if !hasTable {
        hasTable := true;
      }
      if !hasIndex {
        hasIndex := true;
      }
    }

    /**
     * `delete_record`: runs `DELETE ... WHERE id = ?`. What that leaves is
     * stated by `WithoutRow` (exactly the row with that id goes, the rest keep
     * their order) and `WithoutAbsentId` (an unknown id changes nothing).
     */
    method DeleteRecord(id: int)
      requires Valid() && hasTable
      modifies this`rows
      ensures Valid()
      ensures rows == WithoutId(old(rows), id)
    {
      WithoutIdKeepsNumbering(rows, id);
      rows := WithoutId(rows, id);
    }

    /**
     * `add_measurement`: appends one row under the next rowid (one more than
     * the largest id, 1 on an empty table). A missing or empty time falls
     * back to the clock's `HH:MM`, a missing or empty comment to "".
     */
    method AddMeasurement(date: string, time: Option<string>, clock: string,
                          systolic: int, diastolic: int, comment: Option<string>)
      requires Valid() && hasTable
      modifies this`rows
      ensures Valid()
      ensures rows == old(rows) + [Row(NextId(old(rows)),
        Measurement(date, OrElse(time, clock), systolic, diastolic, OrElse(comment, "")))]
    {
      var m := Measurement(date, OrElse(time, clock), systolic, diastolic, OrElse(comment, ""));
      AppendKeepsNumbering(rows, m);
      rows := rows + [Row(NextId(rows), m)];
    }

    /**
     * `delete_last_record_added`: reports and deletes the row with the
     * largest id, which is the last one inserted; on an empty table it
     * reports None and deletes nothing.
     */
    method DeleteLastRecordAdded() returns (deleted: Option<Record>)
      requires Valid() && hasTable
      modifies this`rows
      ensures Valid()
      ensures deleted == LastAdded(old(rows))
      ensures old(rows) == [] ==> deleted.None? && rows == old(rows)
      ensures old(rows) != [] ==>
        deleted == Some(old(rows)[|old(rows)| - 1]) && rows == old(rows)[..|old(rows)| - 1]
    {
      deleted := LastAdded(rows);
      if deleted.Some? {
        var last := |rows| - 1;
        IndexOfRow(rows, deleted.value);
        assert rows[last].id <= deleted.value.id;
        WithoutPresentId(rows, last);
        WithoutIdKeepsNumbering(rows, deleted.value.id);
        rows := WithoutId(rows, deleted.value.id);
      }
    }

    /**
     * `multiple_records`: scans the listed candidates in order and deletes
     * the first whose time text equals `typedTime` exactly (no
     * normalisation: "9:05" is not "09:05"); when none does, nothing changes.
     */
    method MultipleRecords(candidates: seq<Record>, typedTime: string) returns (outcome: Removal<int>)
      requires Valid() && hasTable
      modifies this`rows
      ensures Valid()
      ensures var k := FirstAtTime(candidates, typedTime);
        if k < |candidates| then
          rows == WithoutId(old(rows), candidates[k].id) && outcome == RemovedAtTime(candidates, candidates[k])
        else
          rows == old(rows) && outcome == NothingAtTime(candidates, typedTime)
    {
      var found := false;
      var i := 0;
      while i < |candidates|
        invariant 0 <= i <= |candidates|
        invariant !found && rows == old(rows) && Valid()
        invariant forall j :: 0 <= j < i ==> candidates[j].data.time != typedTime
      {
        if candidates[i].data.time == typedTime {
          DeleteRecord(candidates[i].id);
          found := true;
          outcome := RemovedAtTime(candidates, candidates[i]);
          break;
        }
        i := i + 1;
      }
      if !found {
        outcome := NothingAtTime(candidates, typedTime);
      }
    }

    /**
     * `remove_measurement_by_date`: deletes at most one row, the one
     * `RemovalTarget` picks, keeping the order of the rest; `typedTime` is
     * what the operator types when several rows share the date.
     */
    method RemoveMeasurementByDate(date: string, typedTime: string) returns (outcome: Removal<int>)
      requires Valid() && hasTable
      modifies this`rows
      ensures Valid()
      ensures outcome.Deleted() == RemovalTarget(old(rows), date, typedTime)
      ensures outcome.Deleted().None? ==> rows == old(rows)
      ensures outcome.Deleted().Some? ==> rows == WithoutId(old(rows), outcome.Deleted().value.id)
    {
      var matches := ByDate(rows, date);
      assert RemovalTarget(rows, date, typedTime) == TargetAmong(matches, typedTime);
      if |matches| == 0 {
        outcome := NothingOnDate;
      } else if |matches| == 1 {
        DeleteRecord(matches[0].id);
        outcome := RemovedOnly(matches[0]);
      } else {
        outcome := MultipleRecords(matches, typedTime);
      }
    }
  
    /**
     * `list_all_records`: renders the rows by date and time. Stored rows
     * always have six fields and integer readings, so the only failure left
     * is the division by zero of an empty table.
     */
    method ListAllRecords(prettytable: bool) returns (r: Result<Rendered, RenderError>)
      requires Valid() && hasTable
      ensures r == ListOutcome(ToTuples(AllOrdered(rows)), prettytable)
      ensures r.Err? <==> rows == []
      ensures r.Err? ==> r.error == ZeroDivisionError
    {
      var records := ToTuples(AllOrdered(rows));
      assert |AllOrdered(rows)| == |rows| by {
        assert |multiset(AllOrdered(rows))| == |multiset(rows)|;
      }
      FirstFaultAt(records, |records|);
      r := GenerateListTable(records, prettytable);
    }
  }
}
