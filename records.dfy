/**
 * The measurement table's row type and the two orders the source sorts it
 * by (`ORDER BY time` and `ORDER BY date, time`).
 */
module Records {
  import opened Text

  /** The five data columns of a row: date, time, systolic, diastolic, comment. */
  datatype Measurement = Measurement(date: string, time: string, systolic: int, diastolic: int, comment: string)

  /**
   * A stored row. The id type is a parameter: `int` for the `bplog` table,
   * whose `id INTEGER PRIMARY KEY` is the rowid, and `Option<int>` for the
   * older `blood_pressure` table, whose id may be NULL.
   */
  datatype Row<Id> = Row(id: Id, data: Measurement)

  /** The two ORDER BY clauses of the queries. */
  datatype SortKey = ByTime | ByDateTime

  /** `a` may come before `b` under the key (SQLite's BINARY collation on TEXT). */
  predicate KeyLe<Id>(key: SortKey, a: Row<Id>, b: Row<Id>)
  {
    match key
    case ByTime => TextLe(a.data.time, b.data.time)
    case ByDateTime =>
      if a.data.date != b.data.date then TextLe(a.data.date, b.data.date)
      else TextLe(a.data.time, b.data.time)
  }

  lemma KeyLeTotal<Id>(key: SortKey, a: Row<Id>, b: Row<Id>)
    ensures KeyLe(key, a, b) || KeyLe(key, b, a)
  {
    TextLeTotal(a.data.time, b.data.time);
    TextLeTotal(a.data.date, b.data.date);
  }

  lemma KeyLeTransitive<Id>(key: SortKey, a: Row<Id>, b: Row<Id>, c: Row<Id>)
    requires KeyLe(key, a, b) && KeyLe(key, b, c)
    ensures KeyLe(key, a, c)
  {
    match key
    case ByTime =>
      TextLeTransitive(a.data.time, b.data.time, c.data.time);
    case ByDateTime =>
      var da, db, dc := a.data.date, b.data.date, c.data.date;
      if da == db && db == dc {
        TextLeTransitive(a.data.time, b.data.time, c.data.time);
      } else if da == db {
        assert TextLe(db, dc);
      } else if db == dc {
        assert TextLe(da, db);
      } else {
        TextLeTransitive(da, db, dc);
        if da == dc {
          TextLeAntisymmetric(da, db);
        }
      }
  }

  /** Every earlier row may come before every later one. */
  predicate Sorted<Id>(key: SortKey, s: seq<Row<Id>>)
  {
    forall i, j :: 0 <= i < j < |s| ==> KeyLe(key, s[i], s[j])
  }

  /** Places `x` before the first row it may precede. */
  function InsertSorted<Id>(key: SortKey, x: Row<Id>, s: seq<Row<Id>>): (r: seq<Row<Id>>)
    requires Sorted(key, s)
    ensures Sorted(key, r)
    ensures multiset(r) == multiset(s) + multiset{x}
  {
    if s == [] then [x]
    else if KeyLe(key, x, s[0]) then
      InsertFrontSorted(key, x, s);
      [x] + s
    else
      var rest := InsertSorted(key, x, s[1..]);
      InsertBehindHead(key, x, s, rest);
      [s[0]] + rest
  }

  /** When `x` goes after the head, the head still precedes everything behind it. */
  lemma InsertBehindHead<Id>(key: SortKey, x: Row<Id>, s: seq<Row<Id>>, rest: seq<Row<Id>>)
    requires Sorted(key, s) && s != [] && !KeyLe(key, x, s[0])
    requires Sorted(key, rest) && multiset(rest) == multiset(s[1..]) + multiset{x}
    ensures Sorted(key, [s[0]] + rest)
    ensures multiset([s[0]] + rest) == multiset(s) + multiset{x}
  {
    KeyLeTotal(key, x, s[0]);
    assert s == [s[0]] + s[1..];
    forall k | 0 <= k < |rest| ensures KeyLe(key, s[0], rest[k]) {
      assert rest[k] in multiset(rest);
      if rest[k] != x {
        assert rest[k] in s[1..];
      }
    }
  }

  lemma InsertFrontSorted<Id>(key: SortKey, x: Row<Id>, s: seq<Row<Id>>)
    requires Sorted(key, s) && s != [] && KeyLe(key, x, s[0])
    ensures Sorted(key, [x] + s)
  {
    forall j | 0 < j < |s| ensures KeyLe(key, x, s[j]) {
      KeyLeTransitive(key, x, s[0], s[j]);
    }
  }

  /** Insertion sort; among rows with equal keys the earlier stays first. */
  function SortBy<Id>(key: SortKey, s: seq<Row<Id>>): (r: seq<Row<Id>>)
    ensures Sorted(key, r)
    ensures multiset(r) == multiset(s)
  {
    if s == [] then []
    else
      assert s == [s[0]] + s[1..];
      InsertSorted(key, s[0], SortBy(key, s[1..]))
  }
}
