/**
 * Turning fetched rows into text: the list renderer of src/bplog/app.py
 * (one tab-separated line per record, then a count-and-average line), the
 * older `generate_table` of bplog_pkg/__main__.py and bplog/__main__.py (no
 * summary), and the comment-less lines of bp.py's `list_all_records`.
 */
module Rendering {
  import opened Wrappers
  import opened Text
  import opened Records

  /** A column value as Python's sqlite3 hands it over: an int, a str, or None. */
  datatype Value = Int(i: int) | Str(s: string) | Null

  /** A record as the renderer receives it: a tuple of any length. */
  type Tuple = seq<Value>

  /** The exception a renderer raises, with the record it was looking at. */
  datatype RenderError =
    | ValueError(record: Tuple)   // "Unexpected row format": not 6 fields
    | TypeError(record: Tuple)    // adding a non-int systolic or diastolic to the running sum
    | IndexError(record: Tuple)   // reading a field past the end of a short tuple
    | ZeroDivisionError           // averaging over no records

  /** `f"{v}"`. */
  function Show(v: Value): string
  {
    match v
    case Int(i) => IntToString(i)
    case Str(s) => s
    case Null => "None"
  }

  /** The tuple `SELECT *` yields for a stored row: (id, date, time, systolic, diastolic, comment). */
  function ToTuple(r: Row<int>): (t: Tuple)
    ensures |t| == 6 && t[3] == Int(r.data.systolic) && t[4] == Int(r.data.diastolic)
  {
    [Int(r.id), Str(r.data.date), Str(r.data.time), Int(r.data.systolic), Int(r.data.diastolic), Str(r.data.comment)]
  }

  /** The tuples `SELECT *` yields for the given rows, in the same order. */
  function ToTuples(rows: seq<Row<int>>): (t: seq<Tuple>)
    ensures |t| == |rows|
    ensures forall k :: 0 <= k < |rows| ==> t[k] == ToTuple(rows[k])
  {
    if rows == [] then [] else ToTuples(rows[..|rows| - 1]) + [ToTuple(rows[|rows| - 1])]
  }

  /** The four cells shown for a record: date, time, "systolic:diastolic", comment. */
  function Cells(t: Tuple): seq<string>
    requires |t| >= 6
  {
    [Show(t[1]), Show(t[2]), Show(t[3]) + ":" + Show(t[4]), Show(t[5])]
  }

  /** `f"{record[1]}\t{record[2]}\t{bp}\t{record[5]}"`. */
  function PlainLine(t: Tuple): (line: string)
    requires |t| >= 6
    ensures FieldsAvoid(t, '\t') ==> Split(line, '\t') == Cells(t)
  {
    var cells := Cells(t);
    if FieldsAvoid(t, '\t') then
      assert cells[2] == Show(t[3]) + [':'] + Show(t[4]);
      SplitJoin(cells, '\t');
      Join(cells, '\t')
    else
      Join(cells, '\t')
  }

  /** Every record has the fields the cells are taken from. */
  predicate AllLong(records: seq<Tuple>)
  {
    forall k :: 0 <= k < |records| ==> |records[k]| >= 6
  }

  function PlainLines(records: seq<Tuple>): (lines: seq<string>)
    requires AllLong(records)
    ensures |lines| == |records|
    ensures forall k :: 0 <= k < |records| ==> lines[k] == PlainLine(records[k])
  {
    if records == [] then []
    else PlainLines(records[..|records| - 1]) + [PlainLine(records[|records| - 1])]
  }

  /** A record the averaging loop gets through: six fields, systolic and diastolic ints. */
  predicate Summable(t: Tuple)
  {
    |t| == 6 && t[3].Int? && t[4].Int?
  }

  /** What the averaging loop raises on a record it cannot get through. */
  function Fault(t: Tuple): (e: RenderError)
    requires !Summable(t)
    ensures e.ValueError? <==> |t| != 6
    ensures e.ValueError? || e.TypeError?
  {
    if |t| != 6 then ValueError(t) else TypeError(t)
  }

  /** Position of the first record the averaging loop cannot get through, or |records|. */
  function FirstFault(records: seq<Tuple>): (k: nat)
    ensures k <= |records|
    ensures k < |records| ==> !Summable(records[k])
    ensures forall j :: 0 <= j < k ==> Summable(records[j])
  {
    if records == [] then 0
    else if !Summable(records[0]) then 0
    else 1 + FirstFault(records[1..])
  }

  /** The first unrenderable record is the one after a run of renderable ones. */
  lemma FirstFaultAt(records: seq<Tuple>, i: nat)
    requires i <= |records|
    requires forall j :: 0 <= j < i ==> Summable(records[j])
    requires i < |records| ==> !Summable(records[i])
    ensures FirstFault(records) == i
  {
  }

  /** Every record has six fields with integer readings: the averaging loop gets through them all. */
  predicate AllSummable(records: seq<Tuple>)
  {
    forall k :: 0 <= k < |records| ==> Summable(records[k])
  }

  lemma AllSummableSnoc(records: seq<Tuple>, i: nat)
    requires i < |records| && AllSummable(records[..i]) && Summable(records[i])
    ensures AllSummable(records[..i + 1])
  {
    var prefix := records[..i + 1];
    forall k | 0 <= k < i + 1 ensures Summable(prefix[k]) {
      if k < i { assert prefix[k] == records[..i][k]; }
    }
  }

  /** Appending the next record's cells keeps the table row-for-row with the records. */
  lemma CellsSnoc(records: seq<Tuple>, i: nat, table: seq<seq<string>>)
    requires i < |records| && |records[i]| >= 6
    requires |table| == i && forall j :: 0 <= j < i ==> |records[j]| >= 6 && table[j] == Cells(records[j])
    ensures var next := table + [Cells(records[i])];
      forall j :: 0 <= j < i + 1 ==> |records[j]| >= 6 && next[j] == Cells(records[j])
  {
  }

  /** Appending the next record's line keeps the lines one-for-one with the records. */
  lemma LinesSnoc(records: seq<Tuple>, i: nat, output: seq<string>)
    requires i < |records| && |records[i]| >= 6
    requires |output| == i && forall j :: 0 <= j < i ==> |records[j]| >= 6 && output[j] == PlainLine(records[j])
    ensures var next := output + [PlainLine(records[i])];
      forall j :: 0 <= j < i + 1 ==> |records[j]| >= 6 && next[j] == PlainLine(records[j])
  {
  }

  /** A table built row for row from the records is their `CellRows`. */
  lemma TableIsCellRows(records: seq<Tuple>, table: seq<seq<string>>)
    requires |table| == |records| && forall j :: 0 <= j < |records| ==> |records[j]| >= 6 && table[j] == Cells(records[j])
    ensures AllLong(records) && table == CellRows(records)
  {
  }

  /** Lines built one per record are their `PlainLines`. */
  lemma OutputIsPlainLines(records: seq<Tuple>, output: seq<string>)
    requires |output| == |records| && forall j :: 0 <= j < |records| ==> |records[j]| >= 6 && output[j] == PlainLine(records[j])
    ensures AllLong(records) && output == PlainLines(records)
  {
  }

  /** Sum of the systolic (column 3) or diastolic (column 4) values. */
  function ColumnSum(records: seq<Tuple>, column: nat): (sum: int)
    requires column == 3 || column == 4
    requires AllSummable(records)
    ensures ReadingsAtLeast(records, column, 0) ==> sum >= 0
  {
    if records == [] then 0
    else
      var last := records[|records| - 1];
      assert Summable(last);
      ColumnSum(records[..|records| - 1], column) + last[column].i
  }

  /** Every reading in the column is at least `lo`. */
  predicate ReadingsAtLeast(records: seq<Tuple>, column: nat, lo: int)
    requires column == 3 || column == 4
    requires AllSummable(records)
  {
    forall k :: 0 <= k < |records| ==> records[k][column].i >= lo
  }

  /** Every reading in the column is at most `hi`. */
  predicate ReadingsAtMost(records: seq<Tuple>, column: nat, hi: int)
    requires column == 3 || column == 4
    requires AllSummable(records)
  {
    forall k :: 0 <= k < |records| ==> records[k][column].i <= hi
  }

  /** n readings between lo and hi sum to between n * lo and n * hi. */
  lemma {:induction false} ColumnSumBounds(records: seq<Tuple>, column: nat, lo: int, hi: int)
    requires column == 3 || column == 4
    requires AllSummable(records)
    requires ReadingsAtLeast(records, column, lo) && ReadingsAtMost(records, column, hi)
    ensures |records| * lo <= ColumnSum(records, column) <= |records| * hi
  {
    if records != [] {
      var n := |records|;
      var init := records[..n - 1];
      ReadingsOfInit(records, column, lo, hi);
      ColumnSumBounds(init, column, lo, hi);
      AddWithinBounds(n - 1, lo, hi, ColumnSum(init, column), records[n - 1][column].i);
    }
  }

  /** The records before the last keep the bounds, and the last lies within them. */
  lemma ReadingsOfInit(records: seq<Tuple>, column: nat, lo: int, hi: int)
    requires column == 3 || column == 4
    requires records != [] && AllSummable(records)
    requires ReadingsAtLeast(records, column, lo) && ReadingsAtMost(records, column, hi)
    ensures AllSummable(records[..|records| - 1]) && Summable(records[|records| - 1])
    ensures ReadingsAtLeast(records[..|records| - 1], column, lo) && ReadingsAtMost(records[..|records| - 1], column, hi)
    ensures lo <= records[|records| - 1][column].i <= hi
  {
    var init := records[..|records| - 1];
    assert forall k :: 0 <= k < |init| ==> init[k] == records[k];
  }

  /** One more addend between lo and hi widens the bounds by one of each. */
  lemma AddWithinBounds(m: int, lo: int, hi: int, sum: int, x: int)
    requires m * lo <= sum <= m * hi && lo <= x <= hi
    ensures (m + 1) * lo <= sum + x <= (m + 1) * hi
  {
    assert (m + 1) * lo == m * lo + lo && (m + 1) * hi == m * hi + hi;
  }

  /** Summing one more record adds its reading. */
  lemma ColumnSumSnoc(records: seq<Tuple>, i: nat)
    requires i < |records| && AllSummable(records[..i + 1])
    ensures ColumnSum(records[..i + 1], 3) == ColumnSum(records[..i], 3) + records[i][3].i
    ensures ColumnSum(records[..i + 1], 4) == ColumnSum(records[..i], 4) + records[i][4].i
  {
    assert records[..i + 1][..i] == records[..i];
  }

  /** `r` is `sum / n` rounded to the nearest integer, ties going to the even neighbour. */
  ghost predicate IsRoundHalfEven(sum: int, n: int, r: int)
    requires n > 0
  {
    && -n <= 2 * (sum - r * n) <= n
    && (2 * (sum - r * n) == n || 2 * (sum - r * n) == -n ==> r % 2 == 0)
  }

  /** Python's `round(sum / n)` (round half to even), in integer arithmetic. */
  function RoundHalfEven(sum: int, n: int): (r: int)
    requires n > 0
    ensures IsRoundHalfEven(sum, n, r)
  {
    var q, rem := sum / n, sum % n;
    assert sum == q * n + rem;
    if 2 * rem < n then q
    else if 2 * rem > n then q + 1
    else if q % 2 == 0 then q
    else q + 1
  }

  /** How m * n compares with n, for a positive n, by the size of m. */
  lemma MultipleBounds(m: int, n: int)
    requires n > 0
    ensures m >= 2 ==> m * n >= 2 * n
    ensures m <= -2 ==> m * n <= -2 * n
    ensures m == 1 ==> m * n == n
    ensures m == -1 ==> m * n == -n
    ensures m == 0 ==> m * n == 0
  {
    if m >= 2 {
      assert m * n == (m - 2) * n + 2 * n;
    } else if m <= -2 {
      assert m * n == (m + 2) * n - 2 * n;
    }
  }

  /** Two correctly rounded values of the same quotient are equal. */
  lemma RoundingsAgree(sum: int, n: int, r: int, e: int)
    requires n > 0 && IsRoundHalfEven(sum, n, r) && IsRoundHalfEven(sum, n, e)
    ensures r == e
  {
    var m := r - e;
    assert e * n + m * n == r * n;
    MultipleBounds(m, n);
  }

  /** There is only one correctly rounded value. */
  lemma RoundHalfEvenUnique(sum: int, n: int, r: int)
    requires n > 0 && IsRoundHalfEven(sum, n, r)
    ensures r == RoundHalfEven(sum, n)
  {
    RoundingsAgree(sum, n, r, RoundHalfEven(sum, n));
  }

  /** `round(sum / len(records))` over the systolic (3) or diastolic (4) column. */
  function Average(records: seq<Tuple>, column: nat): (avg: int)
    requires column == 3 || column == 4
    requires records != []
    requires AllSummable(records)
    ensures IsRoundHalfEven(ColumnSum(records, column), |records|, avg)
  {
    RoundHalfEven(ColumnSum(records, column), |records|)
  }

  /** The average lies between the smallest and the largest reading. */
  lemma AverageWithinReadings(records: seq<Tuple>, column: nat, lo: int, hi: int)
    requires column == 3 || column == 4
    requires records != [] && AllSummable(records)
    requires ReadingsAtLeast(records, column, lo) && ReadingsAtMost(records, column, hi)
    ensures lo <= Average(records, column) <= hi
  {
    ColumnSumBounds(records, column, lo, hi);
    RoundedWithin(ColumnSum(records, column), |records|, Average(records, column), lo, hi);
  }

  /** Rounding a quotient that lies between lo and hi stays between them. */
  lemma RoundedWithin(sum: int, n: int, r: int, lo: int, hi: int)
    requires n > 0 && n * lo <= sum <= n * hi && IsRoundHalfEven(sum, n, r)
    ensures lo <= r <= hi
  {
    MultipleBounds(r - hi, n);
    MultipleBounds(r - lo, n);
    assert (r - hi) * n == r * n - n * hi && (r - lo) * n == r * n - n * lo;
  }

  /** `f"{avg_sys}:{avg_dia}"`. */
  function AverageText(records: seq<Tuple>): string
    requires records != []
    requires AllSummable(records)
  {
    IntToString(Average(records, 3)) + ":" + IntToString(Average(records, 4))
  }

  /** `f"Records: {len(records)}, Average: {avg_sys}:{avg_dia}"`. */
  function SummaryLine(records: seq<Tuple>): (line: string)
    requires records != []
    requires AllSummable(records)
    ensures '\n' !in line
  {
    IntToStringAvoids(|records|, '\n');
    IntToStringAvoids(Average(records, 3), '\n');
    IntToStringAvoids(Average(records, 4), '\n');
    assert "Records: " + NatToString(|records|) + ", Average: " + AverageText(records)
      == "Records: " + IntToString(|records|) + ", Average: "
        + (IntToString(Average(records, 3)) + [':'] + IntToString(Average(records, 4)));
    "Records: " + NatToString(|records|) + ", Average: " + AverageText(records)
  }

  /** The last row the boxed table gets: `["Records", len(records), "Average", f"{avg_sys}:{avg_dia}"]`. */
  function SummaryCells(records: seq<Tuple>): seq<string>
    requires records != []
    requires AllSummable(records)
  {
    ["Records", NatToString(|records|), "Average", AverageText(records)]
  }

  lemma SummableLongEnough(records: seq<Tuple>)
    requires AllSummable(records)
    ensures AllLong(records)
  {
    forall k | 0 <= k < |records| ensures |records[k]| >= 6 { assert Summable(records[k]); }
  }

  /** The cells of every record, in input order: the rows a boxed table is given. */
  function CellRows(records: seq<Tuple>): (rows: seq<seq<string>>)
    requires AllLong(records)
    ensures |rows| == |records|
    ensures forall k :: 0 <= k < |records| ==> rows[k] == Cells(records[k])
  {
    if records == [] then []
    else CellRows(records[..|records| - 1]) + [Cells(records[|records| - 1])]
  }

  /** A rendering: plain text, or the rows handed to a PrettyTable (whose boxed layout is not modelled). */
  datatype Rendered = Plain(text: string) | Boxed(rows: seq<seq<string>>)

  /** The plain listing for records the averaging loop gets through. */
  function ListText(records: seq<Tuple>): string
    requires records != []
    requires AllSummable(records)
  {
    SummableLongEnough(records);
    Join(PlainLines(records) + [SummaryLine(records)], '\n')
  }

  /** The boxed listing's rows for records the averaging loop gets through. */
  function ListRows(records: seq<Tuple>): seq<seq<string>>
    requires records != []
    requires AllSummable(records)
  {
    SummableLongEnough(records);
    CellRows(records) + [SummaryCells(records)]
  }

  /** What `generate_list_table` returns or raises, in either branch. */
  ghost function ListOutcome(records: seq<Tuple>, prettytable: bool): (r: Result<Rendered, RenderError>)
    ensures r == Err(ZeroDivisionError) <==> records == []
    ensures r.Ok? <==> records != [] && AllSummable(records)
    ensures r.Ok? ==> (r.value.Boxed? <==> prettytable)
  {
    var k := FirstFault(records);
    if k < |records| then Err(Fault(records[k]))
    else if records == [] then Err(ZeroDivisionError)
    else if prettytable then Ok(Boxed(ListRows(records)))
    else Ok(Plain(ListText(records)))
  }

  /** The first record the loop cannot get through decides the outcome, in both branches. */
  lemma ListOutcomeFault(records: seq<Tuple>, i: nat, prettytable: bool)
    requires i < |records| && !Summable(records[i])
    requires AllSummable(records[..i])
    ensures ListOutcome(records, prettytable) == Err(Fault(records[i]))
  {
    assert forall j :: 0 <= j < i ==> records[..i][j] == records[j];
    FirstFaultAt(records, i);
  }

  /** Records the loop gets through all the way render with the summary last. */
  lemma ListOutcomeOk(records: seq<Tuple>, prettytable: bool)
    requires records != []
    requires AllSummable(records)
    ensures ListOutcome(records, prettytable) == if prettytable then Ok(Boxed(ListRows(records))) else Ok(Plain(ListText(records)))
  {
    FirstFaultAt(records, |records|);
  }

  /**
   * `generate_list_table`. With prettytable importable the records go into
   * a table; without it (the ImportError branch) they become plain lines.
   * Both branches check the records in order and raise on the same one.
   */
  method GenerateListTable(records: seq<Tuple>, prettytable: bool) returns (r: Result<Rendered, RenderError>)
    ensures r == ListOutcome(records, prettytable)
  {
    if prettytable {
      r := PrettyListTable(records);
    } else {
      r := PlainListTable(records);
    }
  }

  /** The prettytable branch of `generate_list_table`. */
  method PrettyListTable(records: seq<Tuple>) returns (r: Result<Rendered, RenderError>)
    ensures r == ListOutcome(records, true)
  {
    var sumDia, sumSys := 0, 0;
    var table: seq<seq<string>> := [];
    var i := 0;
    while i < |records|
      invariant 0 <= i <= |records|
      invariant AllSummable(records[..i])
      invariant sumSys == ColumnSum(records[..i], 3) && sumDia == ColumnSum(records[..i], 4)
      invariant |table| == i
      invariant forall j :: 0 <= j < i ==> |records[j]| >= 6 && table[j] == Cells(records[j])
    {
      var record := records[i];
      if !Summable(record) {
        // a wrong length raises ValueError before the sums; a non-int raises TypeError in them
        ListOutcomeFault(records, i, true);
        return Err(Fault(record));
      }
      AllSummableSnoc(records, i);
      ColumnSumSnoc(records, i);
      sumSys := sumSys + record[3].i;
      sumDia := sumDia + record[4].i;
      CellsSnoc(records, i, table);
      table := table + [Cells(record)];
      i := i + 1;
    }
    assert records[..i] == records;
    if |records| == 0 {
      assert FirstFault(records) == 0;
      return Err(ZeroDivisionError);
    }
    var avgSys := RoundHalfEven(sumSys, |records|);
    var avgDia := RoundHalfEven(sumDia, |records|);
    PrettyListDone(records, table, sumSys, sumDia);
    table := table + [["Records", NatToString(|records|), "Average", IntToString(avgSys) + ":" + IntToString(avgDia)]];
    r := Ok(Boxed(table));
  }

  /** Once every record is in the table and summed, the summary row completes the listing. */
  lemma PrettyListDone(records: seq<Tuple>, table: seq<seq<string>>, sumSys: int, sumDia: int)
    requires records != [] && AllSummable(records)
    requires |table| == |records| && forall j :: 0 <= j < |records| ==> |records[j]| >= 6 && table[j] == Cells(records[j])
    requires sumSys == ColumnSum(records, 3) && sumDia == ColumnSum(records, 4)
    ensures ListOutcome(records, true) == Ok(Boxed(table + [["Records", NatToString(|records|), "Average",
      IntToString(RoundHalfEven(sumSys, |records|)) + ":" + IntToString(RoundHalfEven(sumDia, |records|))]]))
  {
    ListOutcomeOk(records, true);
    TableIsCellRows(records, table);
  }

  /** The ImportError branch of `generate_list_table`: tab-separated lines and a summary line. */
  method PlainListTable(records: seq<Tuple>) returns (r: Result<Rendered, RenderError>)
    ensures r == ListOutcome(records, false)
  {
    var sumDia, sumSys := 0, 0;
    var output: seq<string> := [];
    var i := 0;
    while i < |records|
      invariant 0 <= i <= |records|
      invariant AllSummable(records[..i])
      invariant sumSys == ColumnSum(records[..i], 3) && sumDia == ColumnSum(records[..i], 4)
      invariant |output| == i
      invariant forall j :: 0 <= j < i ==> |records[j]| >= 6 && output[j] == PlainLine(records[j])
    {
      var record := records[i];
      if !Summable(record) {
        // a wrong length raises ValueError before the sums; a non-int raises TypeError in them
        ListOutcomeFault(records, i, false);
        return Err(Fault(record));
      }
      AllSummableSnoc(records, i);
      ColumnSumSnoc(records, i);
      sumSys := sumSys + record[3].i;
      sumDia := sumDia + record[4].i;
      LinesSnoc(records, i, output);
      output := output + [PlainLine(record)];
      i := i + 1;
    }
    assert records[..i] == records;
    if |records| == 0 {
      assert FirstFault(records) == 0;
      return Err(ZeroDivisionError);
    }
    var avgSys := RoundHalfEven(sumSys, |records|);
    var avgDia := RoundHalfEven(sumDia, |records|);
    var average := IntToString(avgSys) + ":" + IntToString(avgDia);
    PlainListDone(records, output, sumSys, sumDia);
    output := output + ["Records: " + NatToString(|records|) + ", Average: " + average];
    r := Ok(Plain(Join(output, '\n')));
  }

  /** Once every record has its line and is summed, the summary line completes the listing. */
  lemma PlainListDone(records: seq<Tuple>, output: seq<string>, sumSys: int, sumDia: int)
    requires records != [] && AllSummable(records)
    requires |output| == |records| && forall j :: 0 <= j < |records| ==> |records[j]| >= 6 && output[j] == PlainLine(records[j])
    requires sumSys == ColumnSum(records, 3) && sumDia == ColumnSum(records, 4)
    ensures ListOutcome(records, false) == Ok(Plain(Join(output + ["Records: " + NatToString(|records|) + ", Average: "
      + (IntToString(RoundHalfEven(sumSys, |records|)) + ":" + IntToString(RoundHalfEven(sumDia, |records|)))], '\n')))
  {
    ListOutcomeOk(records, false);
    OutputIsPlainLines(records, output);
  }

  /** Position of the first record that is not exactly 6 fields, or |records|. */
  function FirstWrongLength(records: seq<Tuple>): (k: nat)
    ensures k <= |records|
    ensures k < |records| ==> |records[k]| != 6
    ensures forall j :: 0 <= j < k ==> |records[j]| == 6
  {
    if records == [] then 0
    else if |records[0]| != 6 then 0
    else 1 + FirstWrongLength(records[1..])
  }

  /** Position of the first record too short to have field 5, or |records|. */
  function FirstShort(records: seq<Tuple>): (k: nat)
    ensures k <= |records|
    ensures k < |records| ==> |records[k]| < 6
    ensures forall j :: 0 <= j < k ==> |records[j]| >= 6
  {
    if records == [] then 0
    else if |records[0]| < 6 then 0
    else 1 + FirstShort(records[1..])
  }

  /** What the older `generate_table` (no summary, no sums) returns or raises. */
  ghost function TableOutcome(records: seq<Tuple>, prettytable: bool): (r: Result<Rendered, RenderError>)
    ensures prettytable ==> (r.Err? <==> exists k :: 0 <= k < |records| && |records[k]| != 6)
    ensures !prettytable ==> (r.Err? <==> exists k :: 0 <= k < |records| && |records[k]| < 6)
    ensures r.Err? ==> (if prettytable then r.error.ValueError? else r.error.IndexError?)
    ensures r.Ok? ==> (r.value.Boxed? <==> prettytable)
  {
    if prettytable then
      var k := FirstWrongLength(records);
      if k < |records| then Err(ValueError(records[k])) else Ok(Boxed(CellRows(records)))
    else
      var k := FirstShort(records);
      if k < |records| then Err(IndexError(records[k])) else Ok(Plain(Join(PlainLines(records), '\n')))
  }

  lemma FirstWrongLengthAt(records: seq<Tuple>, i: nat)
    requires i <= |records|
    requires forall j :: 0 <= j < i ==> |records[j]| == 6
    requires i < |records| ==> |records[i]| != 6
    ensures FirstWrongLength(records) == i
  {
  }

  lemma FirstShortAt(records: seq<Tuple>, i: nat)
    requires i <= |records|
    requires forall j :: 0 <= j < i ==> |records[j]| >= 6
    requires i < |records| ==> |records[i]| < 6
    ensures FirstShort(records) == i
  {
  }

  /**
   * `generate_table` of bplog_pkg/__main__.py and bplog/__main__.py. The
   * table branch rejects any record that is not 6 fields; the ImportError
   * branch has no such check, so a longer record shows its first six fields
   * and a shorter one fails on the first missing index.
   */
  method GenerateTable(records: seq<Tuple>, prettytable: bool) returns (r: Result<Rendered, RenderError>)
    ensures r == TableOutcome(records, prettytable)
  {
    if prettytable {
      r := PrettyTable(records);
    } else {
      r := PlainTable(records);
    }
  }

  /** The prettytable branch of `generate_table`. */
  method PrettyTable(records: seq<Tuple>) returns (r: Result<Rendered, RenderError>)
    ensures r == TableOutcome(records, true)
  {
    var table: seq<seq<string>> := [];
    var i := 0;
    while i < |records|
      invariant 0 <= i <= |records|
      invariant forall j :: 0 <= j < i ==> |records[j]| == 6
      invariant |table| == i
      invariant forall j :: 0 <= j < i ==> |records[j]| >= 6 && table[j] == Cells(records[j])
    {
      if |records[i]| != 6 {
        FirstWrongLengthAt(records, i);
        return Err(ValueError(records[i]));
      }
      CellsSnoc(records, i, table);
      table := table + [Cells(records[i])];
      i := i + 1;
    }
    FirstWrongLengthAt(records, i);
    TableIsCellRows(records, table);
    r := Ok(Boxed(table));
  }

  /** The ImportError branch of `generate_table`. */
  method PlainTable(records: seq<Tuple>) returns (r: Result<Rendered, RenderError>)
    ensures r == TableOutcome(records, false)
  {
    var output: seq<string> := [];
    var i := 0;
    while i < |records|
      invariant 0 <= i <= |records|
      invariant |output| == i
      invariant forall j :: 0 <= j < i ==> |records[j]| >= 6 && output[j] == PlainLine(records[j])
    {
      if |records[i]| < 6 {
        FirstShortAt(records, i);
        return Err(IndexError(records[i]));
      }
      LinesSnoc(records, i, output);
      output := output + [PlainLine(records[i])];
      i := i + 1;
    }
    FirstShortAt(records, i);
    OutputIsPlainLines(records, output);
    r := Ok(Plain(Join(output, '\n')));
  }

  /** A character that is neither a digit nor '-' never appears in `str(i)`. */
  lemma IntToStringAvoids(i: int, c: char)
    requires !IsDigit(c) && c != '-'
    ensures c !in IntToString(i)
  {
    var digits := if i < 0 then NatToString(-i) else NatToString(i);
    assert c !in digits by {
      forall k | 0 <= k < |digits| ensures digits[k] != c { assert IsDigit(digits[k]); }
    }
  }

  /** No shown field of a record holds the character c. */
  predicate FieldsAvoid(t: Tuple, c: char)
    requires |t| >= 6
  {
    c !in Show(t[1]) && c !in Show(t[2]) && c !in Show(t[3]) && c !in Show(t[4]) && c !in Show(t[5])
  }

  lemma {:induction false} PlainLinesAvoid(records: seq<Tuple>)
    requires AllLong(records)
    requires forall k :: 0 <= k < |records| ==> FieldsAvoid(records[k], '\n')
    ensures forall k :: 0 <= k < |records| ==> '\n' !in PlainLines(records)[k]
  {
    forall k | 0 <= k < |records| ensures '\n' !in PlainLines(records)[k] {
      var t := records[k];
      var cells := Cells(t);
      assert '\n' !in cells[2] by {
        assert cells[2] == Show(t[3]) + [':'] + Show(t[4]);
      }
      JoinAvoids(cells, '\t', '\n');
    }
  }

  /**
   * The plain listing has one line per record, in input order, and then the
   * summary line, as long as no field holds a line break.
   */
  lemma ListTextLines(records: seq<Tuple>)
    requires records != []
    requires AllSummable(records)
    requires forall k :: 0 <= k < |records| ==> FieldsAvoid(records[k], '\n')
    ensures Split(ListText(records), '\n') == PlainLines(records) + [SummaryLine(records)]
    ensures |Split(ListText(records), '\n')| == |records| + 1
  {
    SummableLongEnough(records);
    PlainLinesAvoid(records);
    var lines := PlainLines(records) + [SummaryLine(records)];
    SplitJoin(lines, '\n');
  }

  /** The variants' plain table: exactly one line per record. */
  lemma PlainTableLines(records: seq<Tuple>)
    requires records != []
    requires AllLong(records)
    requires forall k :: 0 <= k < |records| ==> FieldsAvoid(records[k], '\n')
    ensures Split(Join(PlainLines(records), '\n'), '\n') == PlainLines(records)
  {
    PlainLinesAvoid(records);
    SplitJoin(PlainLines(records), '\n');
  }

  /** Python's `round` sends halves to the even neighbour, on both sides of zero. */
  lemma RoundHalfEvenExamples()
    ensures RoundHalfEven(5, 2) == 2 && RoundHalfEven(7, 2) == 4 && RoundHalfEven(-5, 2) == -2
    ensures RoundHalfEven(366, 3) == 122 && RoundHalfEven(367, 3) == 122 && RoundHalfEven(368, 3) == 123
  {
    assert IsRoundHalfEven(5, 2, 2) && IsRoundHalfEven(7, 2, 4) && IsRoundHalfEven(-5, 2, -2);
    assert IsRoundHalfEven(366, 3, 122) && IsRoundHalfEven(367, 3, 122) && IsRoundHalfEven(368, 3, 123);
    RoundHalfEvenUnique(5, 2, 2);
    RoundHalfEvenUnique(7, 2, 4);
    RoundHalfEvenUnique(-5, 2, -2);
    RoundHalfEvenUnique(366, 3, 122);
    RoundHalfEvenUnique(367, 3, 122);
    RoundHalfEvenUnique(368, 3, 123);
  }

  /** The three measurements the listing tests store, as `SELECT *` returns them. */
  function ListFixture(): seq<Tuple>
  {
    [ [Int(1), Str("2020-03-03"), Str("11:01"), Int(121), Int(81), Str("Lorem Ipsum")],
      [Int(2), Str("2020-03-03"), Str("11:02"), Int(122), Int(82), Str("Lorem Ipsum  2")],
      [Int(3), Str("2020-03-05"), Str("11:03"), Int(123), Int(83), Str("Lorem Ipsum 3")] ]
  }

  lemma ListFixtureSums()
    ensures Average(ListFixture(), 3) == 122 && Average(ListFixture(), 4) == 82
  {
    var records := ListFixture();
    var one, two := records[..1], records[..2];
    assert one[..0] == [] && two[..1] == one && records[..2] == two;
    assert ColumnSum(one, 3) == 121;
    assert ColumnSum(one, 4) == 81;
    assert ColumnSum(two, 3) == 243;
    assert ColumnSum(two, 4) == 163;
    assert ColumnSum(records, 3) == 366;
    assert ColumnSum(records, 4) == 246;
    RoundHalfEvenExamples();
    assert IsRoundHalfEven(246, 3, 82);
    RoundHalfEvenUnique(246, 3, 82);
  }

  /** The plain line of a stored measurement, given the decimal forms of its readings. */
  lemma PlainLineOf(id: int, date: string, time: string, sys: int, dia: int, comment: string, sysText: string, diaText: string)
    requires IntToString(sys) == sysText && IntToString(dia) == diaText
    ensures PlainLine([Int(id), Str(date), Str(time), Int(sys), Int(dia), Str(comment)])
      == date + "\t" + time + "\t" + (sysText + ":" + diaText) + "\t" + comment
  {
    var t := [Int(id), Str(date), Str(time), Int(sys), Int(dia), Str(comment)];
    assert Cells(t) == [date, time, sysText + ":" + diaText, comment];
    JoinFour(date, time, sysText + ":" + diaText, comment, '\t');
  }


  /** The listing of the three test measurements ends in "Records: 3, Average: 122:82". */
  lemma ListFixtureSummary()
    ensures FirstFault(ListFixture()) == 3
    ensures SummaryLine(ListFixture()) == "Records: " + "3" + ", Average: " + ("122" + ":" + "82")
  {
    FirstFaultAt(ListFixture(), 3);
    ListFixtureSums();
    assert IntToString(122) == "122" && IntToString(82) == "82" && NatToString(3) == "3";
  }



  /** A record that lost its comment makes both branches raise ValueError on it. */
  lemma ShortRecordFixture()
    ensures var records := ListFixture()[..2] + [[Int(3), Str("2020-03-05"), Str("11:03"), Int(123), Int(83)]];
      ListOutcome(records, false) == Err(ValueError(records[2]))
      && ListOutcome(records, true) == Err(ValueError(records[2]))
  {
    var records := ListFixture()[..2] + [[Int(3), Str("2020-03-05"), Str("11:03"), Int(123), Int(83)]];
    assert FirstFault(records) == 2 by {
      FirstFaultAt(records, 2);
    }
  }
}
