/**
 * `recreate_db_ids` of bplog/utils.py: copies the payload of every row to a
 * temporary table, drops and recreates `bplog`, and inserts the copies back
 * with NULL ids, so SQLite numbers them afresh from 1.
 */
module Utils {
  import opened Wrappers
  import opened Records
  import opened Queries
  import opened Bplog

  /** `SELECT date, time, systolic, diastolic, comment FROM bplog`, in scan (rowid) order. */
  function Payloads(rows: seq<Row<int>>): (p: seq<Measurement>)
    ensures |p| == |rows|
    ensures forall k :: 0 <= k < |rows| ==> p[k] == rows[k].data
  {
    seq(|rows|, k requires 0 <= k < |rows| => rows[k].data)
  }

  /** The table that inserting `ms` in order with NULL ids into an empty `bplog` produces. */
  function Numbered(ms: seq<Measurement>): (rows: seq<Row<int>>)
    ensures |rows| == |ms|
    ensures forall k :: 0 <= k < |ms| ==> rows[k] == Row(k + 1, ms[k])
  {
    if ms == [] then [] else Numbered(ms[..|ms| - 1]) + [Row(|ms|, ms[|ms| - 1])]
  }

  /** Ids 1..n in order are a well-numbered table, and the next insert gets n + 1. */
  lemma NumberedIsWellNumbered(ms: seq<Measurement>)
    ensures WellNumbered(Numbered(ms))
    ensures NextId(Numbered(ms)) == |ms| + 1
  {
    var rows := Numbered(ms);
    if rows != [] {
      NextIdAfterLast(rows);
    }
  }

  /** Renumbering keeps every payload, in order, and numbers the rows 1..n. */
  lemma RenumberedRows(rows: seq<Row<int>>)
    ensures |Numbered(Payloads(rows))| == |rows|
    ensures forall k :: 0 <= k < |rows| ==>
      Numbered(Payloads(rows))[k].id == k + 1 && Numbered(Payloads(rows))[k].data == rows[k].data
  {
  }

  /** A table whose ids are already 1..n in order is its own renumbering. */
  lemma RenumberKeepsNumberedTable(rows: seq<Row<int>>)
    requires forall k :: 0 <= k < |rows| ==> rows[k].id == k + 1
    ensures Numbered(Payloads(rows)) == rows
  {
    var r := Numbered(Payloads(rows));
    assert forall k :: 0 <= k < |rows| ==> r[k] == Row(rows[k].id, rows[k].data);
  }

  /** Renumbering twice is renumbering once. */
  lemma RenumberIdempotent(rows: seq<Row<int>>)
    ensures Numbered(Payloads(Numbered(Payloads(rows)))) == Numbered(Payloads(rows))
  {
    RenumberKeepsNumberedTable(Numbered(Payloads(rows)));
  }

  /**
   * `recreate_db_ids`. `CREATE TEMPORARY TABLE bplog_backup` has no IF NOT
   * EXISTS, so a leftover backup would make it fail; the model requires
   * there is none. `DROP TABLE bplog` takes the (date, time) index with it
   * and only the table is recreated, so the index is gone afterwards.
   */
  method RecreateDbIds(store: Store)
    requires store.Valid() && store.hasTable && store.backup.None?
    modifies store
    ensures store.Valid()
    ensures store.rows == Numbered(Payloads(old(store.rows)))
    ensures store.hasTable && !store.hasIndex && store.backup.None?
  {
    // CREATE TEMPORARY TABLE bplog_backup; INSERT INTO bplog_backup SELECT ... FROM bplog
    var copy := Payloads(store.rows);
    store.backup := Some(copy);
    // DROP TABLE bplog
    store.rows, store.hasTable, store.hasIndex := [], false, false;
    // CREATE TABLE bplog (id INTEGER PRIMARY KEY, ...)
    store.hasTable := true;
    // INSERT INTO bplog SELECT NULL, ... FROM bplog_backup: each NULL id becomes the next rowid
    var i := 0;
    while i < |copy|
      invariant 0 <= i <= |copy|
      invariant store.rows == Numbered(copy[..i])
      invariant store.hasTable && !store.hasIndex && store.backup == Some(copy)
    {
      NumberedIsWellNumbered(copy[..i]);
      assert copy[..i + 1][..i] == copy[..i];
      store.rows := store.rows + [Row(NextId(store.rows), copy[i])];
      i := i + 1;
    }
    assert copy[..i] == copy;
    NumberedIsWellNumbered(copy);
    // DROP TABLE bplog_backup
    store.backup := None;
  }
}
