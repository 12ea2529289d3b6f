# bplog measurement store, in Dafny

bplog logs blood-pressure readings. Each reading has a date, a time, systolic and
diastolic values and a free comment. A reading is a row of one SQLite table.
This project models what the program does to that table and proves properties of the model:

- the schema set-up;
- inserting a reading under the rowid SQLite assigns;
- deleting by id and deleting the last row added;
- the two ordered queries;
- removing a reading by date, which falls back to a typed time when several rows share the date;
- the listing with its count and rounded averages;
- the parser that turns `SYS:DIA` and a date into a stored row;
- the renumbering of ids in bplog/utils.py.

The modules:

- `Bplog` (store.dfy): `class Store` is the `bplog` table behind a connection. It holds the rows in rowid order and the two schema flags (table, `(date, time)` index). src/bplog/app.py is the current version. bplog_pkg/__main__.py and bplog/__main__.py run the same statements on the same table, so one class models all three.
- `Legacy` (legacy.dfy): `class LegacyStore` is the `blood_pressure` table of the standalone script bp.py. Its id column is not a rowid alias, so every id is NULL (`Option<int>`). The module also holds the script's listing.
- `Queries` (queries.dfy): the SQL restated on sequences. It covers the two SELECTs, `MAX(id)`, the new rowid and `DELETE ... WHERE id = ?`. It also names the row remove-by-date picks.
- `Records` (records.dfy): the row type and the two `ORDER BY` keys. `ORDER BY` is modelled as a stable insertion sort. `SortBy`, `ByDate` and `AllOrdered` promise only sortedness and permutation. The store contracts built on them fix one order among rows with equal keys: rowid order (see "## Left out").
- `Rendering` (rendering.dfy):
  - `generate_list_table` of the current version, both branches, as loops that accumulate the sums;
  - the older `generate_table` (no summary);
  - Python's round-half-to-even, in integer arithmetic.
- `Parsing` (parsing.dfy): `parse_date_and_blood_pressure` in both its forms. The current one tries `DD,MM,YYYY` and then `YYYY-MM-DD`; the older copies try `DD,MM,YYYY` only (`isoFallback`). The date fields follow `strptime`'s field rules, and the calendar is checked.
- `Utils` (utils.dfy): `recreate_db_ids` as a method on a `Store`.
- `Text` (text.dfy): decimal text, `split`/`join`, and the text order SQLite uses.
- `Wrappers` (wrappers.dfy): `Option` and `Result`.

Parameters stand in for the program's inputs and outputs:

- The operator's typed time is a parameter (`typedTime`).
- `datetime.now()` is a parameter: `today` for the date, `clock` for the `HH:MM` time.
- Printed messages become returned outcomes (`Removal`, `Rendered`).
- A raised exception is an `Err` of a `Result`.

## Model

| member | source | states |
|---|---|---|
| Bplog.Store.constructor | tests/test_bplog.py:220 | a fresh connection has no table, no index and no rows |
| Bplog.Store.DatabaseSetup | src/bplog/app.py:88-104 | afterwards the table and the (date, time) index exist; stored rows are untouched; on a set-up store nothing changes (idempotent) |
| Bplog.Store.DeleteRecord | src/bplog/app.py:107-117 | the new rows are the old with every row of that id removed, order kept; numbering stays valid |
| Bplog.Store.AddMeasurement | src/bplog/app.py:224-250 | exactly one row is appended with the given date and readings, the clock's time when none is given, comment "" when none is given, and id one more than the largest (1 on an empty table) |
| Bplog.Store.DeleteLastRecordAdded | src/bplog/app.py:183-194 | reports the max-id row, which is the last row inserted, and removes exactly it; on an empty table it reports None and changes nothing |
| Bplog.Store.MultipleRecords | src/bplog/app.py:138-164 | deletes the first candidate whose time text equals the typed time exactly and reports it; if none matches, nothing changes and "not found" is reported |
| Bplog.Store.RemoveMeasurementByDate | src/bplog/app.py:120-135 | the reported row is `RemovalTarget`; when there is none the table is unchanged, otherwise exactly that row's id is deleted |
| Bplog.Store.ListAllRecords | src/bplog/app.py:323-335 | the listing is that of the rows in (date, time) order; it fails exactly when the table is empty, with ZeroDivisionError |
| Queries.OnDate | src/bplog/app.py:177 | keeps each row of the given date, as often as it occurs, and no other row |
| Queries.ByDate | src/bplog/app.py:167-180 | the rows of that date, sorted by time, as a permutation of the date filter |
| Queries.AllOrdered | src/bplog/app.py:253-264 | every row, sorted by (date, time), with the same multiset of rows |
| Queries.MaxId | src/bplog/app.py:190 | None exactly on an empty table; otherwise an id that occurs and bounds every id |
| Queries.NextId | src/bplog/app.py:97 | 1 on an empty table; otherwise larger than every id and one more than an existing id |
| Queries.NextIdAfterLast | src/bplog/app.py:243-246 | in a well-numbered table the next id is the last row's id plus one |
| Queries.AppendKeepsNumbering | src/bplog/app.py:243-246 | appending under the assigned id keeps ids increasing and at least 1 |
| Queries.WithoutIdCounts | src/bplog/app.py:114-117 | after the delete a row occurs as often as before if its id differs, else never |
| Queries.WithoutAbsentId | src/bplog/app.py:114-117 | deleting an id no row carries changes nothing |
| Queries.WithoutPresentId | src/bplog/app.py:114-117 | with increasing ids, deleting row k's id leaves exactly the rows before and after k, in order |
| Queries.WithoutIdKeepsNumbering | src/bplog/app.py:114-117 | a delete keeps the table well numbered |
| Queries.IndexOfId | src/bplog/app.py:114 | the first position carrying the id, or the length when none does |
| Queries.IndexOfRow | src/bplog/app.py:114-116 | with increasing ids, looking a stored row's id up finds that row |
| Queries.WithoutRow | src/bplog/app.py:114-117 | deleting a stored row's id removes that row and keeps every other row in order |
| Queries.LastAdded | src/bplog/app.py:190-191 | None exactly on an empty table; otherwise a stored row whose id bounds every id |
| Queries.WithoutId | src/bplog/app.py:114-117 | the delete never adds rows, and no row left carries the id given |
| Queries.TargetAmongCases | src/bplog/app.py:131-164 | the choice among the time-ordered matches is always one of them: the only one when there is one; with none or several, a row exactly when some candidate has that time text, and then one with that time |
| Queries.FirstAtTime | src/bplog/app.py:155-162 | the first candidate whose time equals the text exactly; no earlier candidate has it |
| Queries.ByDateMembers | src/bplog/app.py:177 | the time-ordered matches are just the rows of that date: same count, each a stored row of that date, every such row present |
| Queries.ByDateMember | src/bplog/app.py:177 | every match is a stored row of the date |
| Queries.OnDateMember | src/bplog/app.py:177 | every stored row of the date is a match |
| Queries.RemovalTargetCases | src/bplog/app.py:127-135 | no row on the date: nothing removed; one row: that row; several: a row exactly when one of them has the typed time, and then the first such in time order |
| Queries.SeveralOnDate | src/bplog/app.py:154-164 | with several rows on the date a target exists exactly when some row has the typed time, and it is the first such |
| Queries.RemovalDeletesTarget | src/bplog/app.py:127-135 | on a well-numbered table the target is stored and deleting its id removes it and no other row |
| Records.KeyLeTotal | src/bplog/app.py:263 | any two rows are comparable under either ORDER BY key |
| Records.KeyLeTransitive | src/bplog/app.py:263 | the ORDER BY keys are transitive |
| Records.InsertSorted | src/bplog/app.py:263 | inserting into a sorted sequence keeps it sorted and adds exactly that row |
| Records.SortBy | src/bplog/app.py:263 | the result is sorted by the key and a permutation of the input |
| Text.NatToString | src/bplog/app.py:291 | a non-empty string of decimal digits; more than one digit exactly from 10 on |
| Text.IntToString | src/bplog/app.py:304 | starts with '-' exactly for negative numbers |
| Text.ParseNat | src/bplog/app.py:207-208 | succeeds exactly on non-empty digit strings |
| Text.DigitsValueOfNatToString | src/bplog/app.py:207 | the digits written for n denote n |
| Text.ParseNatOfNatToString | src/bplog/app.py:207-208 | reading back a written number gives that number |
| Text.Split | src/bplog/app.py:206 | never empty, and no piece holds the separator |
| Text.SplitNoSep | src/bplog/app.py:206 | text without the separator splits into itself |
| Text.SplitAtSep | src/bplog/app.py:206 | a separator-free prefix and a separator split off as the first piece |
| Text.SplitJoin | src/bplog/app.py:320 | splitting a join of separator-free pieces gives the pieces back |
| Text.JoinSplit | src/bplog/app.py:206 | joining the pieces of a split restores the text |
| Text.JoinAvoids | src/bplog/app.py:320 | a character in no piece and not the separator is not in the join |
| Text.Join | src/bplog/app.py:320 | joining nothing gives ""; otherwise the text starts with the first piece |
| Text.TextLe | src/bplog/app.py:263 | a prefix sorts before the longer text |
| Text.OrElse | src/bplog/app.py:241-242 | the value given, or the default; an empty result means the default is empty too |
| Text.IntToStringValue | src/bplog/app.py:304 | negative numbers read back as '-' and the digits of their magnitude; other numbers read back as themselves |
| Text.TextLeTotal | src/bplog/app.py:263 | the text order is total |
| Text.TextLeTransitive | src/bplog/app.py:263 | the text order is transitive |
| Text.TextLeAntisymmetric | src/bplog/app.py:263 | texts ordered both ways are equal |
| Rendering.ToTuple | src/bplog/app.py:263 | a stored row as `SELECT *` yields it: six fields, integer readings in fields 3 and 4 |
| Rendering.ToTuples | src/bplog/app.py:253-264 | one tuple per row, in the same order |
| Rendering.PlainLines | src/bplog/app.py:315 | one tab-separated line per record, in input order |
| Rendering.Fault | src/bplog/app.py:289-293 | ValueError exactly for a record whose length is not 6, otherwise TypeError for a non-integer reading |
| Rendering.FirstFault | src/bplog/app.py:288-293 | the first record the loop cannot get through; all before it are fine |
| Rendering.ColumnSum | src/bplog/app.py:292-293 | the sum of a column of non-negative readings is non-negative |
| Rendering.ColumnSumBounds | src/bplog/app.py:292-293 | when every reading lies between lo and hi, the sum lies between n·lo and n·hi |
| Rendering.Average | src/bplog/app.py:300-301 | the column sum divided by the count, rounded half to even |
| Rendering.AverageWithinReadings | src/bplog/app.py:300-301 | the rounded average lies between the smallest and the largest reading bound |
| Rendering.RoundedWithin | src/bplog/app.py:300-301 | a correctly rounded quotient of a sum between n·lo and n·hi lies between lo and hi |
| Rendering.SummaryLine | src/bplog/app.py:318 | the summary is a single line: it holds no newline |
| Rendering.PlainLine | src/bplog/app.py:315 | when no field holds a tab, the line splits on tabs back into date, time, "sys:dia" and comment |
| Rendering.ListOutcome | src/bplog/app.py:267-320 | ZeroDivisionError exactly for no records; a listing exactly when there are records and every one is summable; a boxed table exactly in the prettytable branch |
| Rendering.TableOutcome | bplog_pkg/__main__.py:188-205 | prettytable: a ValueError exactly when some record does not have 6 fields; plain: an IndexError exactly when some record has fewer than 6; a boxed table exactly in the prettytable branch |
| Rendering.RoundHalfEven | src/bplog/app.py:300-301 | `round(sum / n)`: the nearest integer, ties to the even neighbour |
| Rendering.RoundingsAgree | src/bplog/app.py:300-301 | two correctly rounded values of one quotient are equal |
| Rendering.RoundHalfEvenUnique | src/bplog/app.py:300-301 | any correctly rounded value is the computed one |
| Rendering.CellRows | src/bplog/app.py:295-299 | the four cells of each record, one table row per record, in input order |
| Rendering.ListOutcomeFault | src/bplog/app.py:288-293 | a bad record after good ones decides the outcome, its error raised in both branches |
| Rendering.ListOutcomeOk | src/bplog/app.py:300-320 | good records give the per-record rows or lines and then the summary, in the branch chosen |
| Rendering.GenerateListTable | src/bplog/app.py:267-320 | the loop's result is the specified outcome: the first bad record's error, ZeroDivisionError on no records, otherwise the listing with its summary |
| Rendering.PrettyListTable | src/bplog/app.py:284-306 | the prettytable branch computes the specified outcome: the rows and the "Records"/"Average" row |
| Rendering.PlainListTable | src/bplog/app.py:307-320 | the ImportError branch computes the specified outcome: the lines and the summary joined by newlines |
| Rendering.FirstWrongLength | bplog_pkg/__main__.py:193-195 | the first record whose length is not 6; all before it have 6 fields |
| Rendering.FirstShort | bplog_pkg/__main__.py:202-204 | the first record too short to have field 5; all before it have one |
| Rendering.GenerateTable | bplog_pkg/__main__.py:188-205 | the older renderer's result is its specified outcome in either branch |
| Rendering.PrettyTable | bplog_pkg/__main__.py:189-198 | a ValueError at the first record whose length is not 6, else one row per record and no summary |
| Rendering.PlainTable | bplog_pkg/__main__.py:199-205 | no length check: an IndexError at the first record too short, else the lines joined, "" for no records |
| Rendering.PlainLinesAvoid | src/bplog/app.py:315 | no plain line holds a newline when no field does |
| Rendering.ListTextLines | src/bplog/app.py:318-320 | the plain listing splits into one line per record and then the summary line |
| Rendering.PlainTableLines | bplog_pkg/__main__.py:204-205 | the older plain table is exactly one line per record, with no summary |
| Rendering.RoundHalfEvenExamples | src/bplog/app.py:300-301 | halves go to the even neighbour on both sides of zero; 366/3, 367/3 and 368/3 round to 122, 122 and 123 |
| Rendering.ListFixtureSums | tests/test_bplog.py:383-397 | the three test readings average to 122 and 82 |
| Rendering.PlainLineOf | tests/test_bplog.py:392-394 | a stored reading's plain line is date, time, "sys:dia" and comment separated by tabs |
| Rendering.ListFixtureSummary | tests/test_bplog.py:395 | the test listing gets through all three records and ends in "Records: 3, Average: 122:82" |
| Rendering.ShortRecordFixture | tests/test_bplog.py:401-442 | a record that lost its comment makes both branches raise ValueError |
| Parsing.DaysInMonth | src/bplog/app.py:215 | 28 to 31 days; February has 29 exactly in leap years |
| Parsing.DayValue | src/bplog/app.py:215 | a `%d` field denotes a day from 1 to 31 |
| Parsing.MonthValue | src/bplog/app.py:215 | a `%m` field denotes a month from 1 to 12 |
| Parsing.FieldsDate | src/bplog/app.py:215 | only real calendar dates are accepted |
| Parsing.ParseDMY | src/bplog/app.py:215 | `DD,MM,YYYY` gives only valid dates |
| Parsing.ParseISO | src/bplog/app.py:217 | `YYYY-MM-DD` gives only valid dates |
| Parsing.Padded | src/bplog/app.py:220 | exactly `width` digits |
| Parsing.PaddedValue | src/bplog/app.py:220 | zero-padded digits denote the number they pad |
| Parsing.FormatISO | src/bplog/app.py:219-220 | the stored form is ten characters |
| Parsing.FormatDMY | src/bplog/app.py:212 | today's default text is ten characters |
| Parsing.ParseFormatISO | src/bplog/app.py:217-220 | the stored form of a date reads back as that date |
| Parsing.ParseFormatDMY | src/bplog/app.py:212-215 | today's default text reads back as today |
| Parsing.PaddedDMY | src/bplog/app.py:215 | zero-padded `DD,MM,YYYY` reads as the date it spells if the calendar has it, else fails |
| Parsing.PaddedFields | src/bplog/app.py:215 | zero-padded fields read as their numbers and the calendar decides |
| Parsing.DMYFields | src/bplog/app.py:215 | comma-free fields are read one by one |
| Parsing.ISOIsNotDMY | src/bplog/app.py:214-217 | the stored form is never read as `DD,MM,YYYY` |
| Parsing.ParseBloodPressure | src/bplog/app.py:206-208 | readings are non-negative; a missing diastolic means there was no ':' |
| Parsing.ParseBloodPressureOf | src/bplog/app.py:206-208 | "S:D" written from two numbers parses to those numbers |
| Parsing.ParseDate | src/bplog/app.py:210-217 | the `DD,MM,YYYY` reading wins, and `YYYY-MM-DD` is tried only when it fails and only with the fallback |
| Parsing.ParseDateAndBloodPressure | src/bplog/app.py:197-221 | a successful parse's date is the stored form of a valid date, which reads back as that date |
| Parsing.ParseWrittenDMY | src/bplog/app.py:206-221 | any two written numbers with any valid date in `DD,MM,YYYY` form parse to those readings and that date in stored form, with or without the fallback |
| Parsing.ParseStoredISO | src/bplog/app.py:206-221 | with the fallback, any two written numbers with any valid date in stored form parse to those readings and that same date |
| Parsing.NoDateMeansToday | src/bplog/app.py:212 | no date, or an empty one, stores today's date |
| Parsing.StoredDateIsFixedPoint | src/bplog/app.py:214-221 | with the fallback, parsing again with the stored date gives the same result |
| Parsing.OlderCopiesRejectStoredForm | bplog_pkg/__main__.py:151-157 | without the fallback, the stored form of any date is rejected |
| Parsing.TestDate | tests/test_bplog.py:333-336 | 2 February 2020 is valid and is written "02,02,2020" and "2020-02-02" |
| Parsing.TestBloodPressure | tests/test_bplog.py:333-336 | "09:50" parses to 9 and 50 |
| Parsing.ParseExampleDMY | tests/test_bplog.py:332-336 | "09:50" with "02,02,2020" gives (9, 50, "2020-02-02"), with or without the fallback |
| Parsing.ParseExampleISO | tests/test_bplog.py:338-343 | "09:50" with "2020-02-02" gives (9, 50, "2020-02-02") with the fallback |
| Parsing.ParseExampleISORefused | bplog_pkg/__main__.py:154 | without the fallback "2020-02-02" is a date error |
| Parsing.LeapDayExample | src/bplog/app.py:215 | "29,02,2020" is 29 February 2020 |
| Parsing.NoLeapDayExample | src/bplog/app.py:215 | "29,02,2021" is rejected |
| Parsing.ShortMonthExample | src/bplog/app.py:215 | "31,04,2020" is rejected |
| Parsing.SingleDigitExample | src/bplog/app.py:215 | "2,2,2020" is read as 2 February 2020 |
| Legacy.WithoutMatching | bp.py:72-76 | a delete never adds rows |
| Legacy.WithoutMatchingCounts | bp.py:73 | a row survives the delete exactly when its id does not compare equal under SQL's NULL rule |
| Legacy.NullDeletesNothing | bp.py:72-76 | deleting by a NULL id, or when all ids are NULL, leaves the table unchanged |
| Legacy.MaxNonNull | bp.py:119-124 | NULL exactly when every id is NULL; otherwise an occurring id bounding every non-NULL id |
| Legacy.FirstMatching | bp.py:119-122 | finds a row exactly when some id compares equal, and then a stored row with that id |
| Legacy.IdMatches | bp.py:73 | `id = ?` holds exactly when both ids are non-NULL and equal; a NULL on either side never matches |
| Legacy.LegacyLine | bp.py:182-183 | when no field holds a tab, the line splits on tabs back into date, time and "sys:dia" |
| Legacy.PrintedText | bp.py:183 | the output is empty exactly when nothing is printed, and otherwise ends in a newline |
| Legacy.LegacyTuple | bp.py:168 | a stored row as `SELECT *` yields it: six fields |
| Legacy.LegacyTuples | bp.py:168-169 | one tuple per row, in the same order |
| Legacy.LegacyLines | bp.py:181-183 | one line per record, date, time and "sys:dia" with no comment, in order |
| Legacy.PrintedTextSnoc | bp.py:181-183 | one more `print` appends the line and a newline |
| Legacy.PrintedTextJoin | bp.py:181-183 | printed lines are the lines joined by newlines with a final newline |
| Legacy.PrintedTextLines | bp.py:181-183 | split on newlines, the printed output gives back the lines and an empty remainder |
| Legacy.ScriptRemovalDeletesNothing | bp.py:79-88 | on rows the script inserted, the row picked for removal is still there after the delete |
| Legacy.ScriptRemovalExample | bp.py:79-88 | one stored reading is picked for removal by its date and survives the delete |
| Legacy.LegacyStore.constructor | bp.py:232 | a new database file has no table, no index and no rows |
| Legacy.LegacyStore.DatabaseSetup | bp.py:58-69 | the table and index exist afterwards, rows are untouched, and a set-up store is unchanged |
| Legacy.LegacyStore.DeleteRecord | bp.py:72-76 | the rows whose id compares equal are removed, order kept |
| Legacy.LegacyStore.AddMeasurement | bp.py:151-163 | exactly one row is appended, with a NULL id, the given fields, and the clock and "" defaults |
| Legacy.LegacyStore.DeleteLastRecordAdded | bp.py:116-129 | reports and deletes the max-id rows; with all ids NULL it reports None and deletes nothing |
| Legacy.LegacyStore.HandleMultipleRecords | bp.py:91-106 | deletes by id the first candidate at the typed time and reports it; otherwise nothing changes |
| Legacy.LegacyStore.RemoveMeasurement | bp.py:79-88 | reports the same target as the packaged app but deletes only what its id matches |
| Legacy.LegacyStore.ListAllRecords | bp.py:166-184 | the rows in (date, time) order, as table rows or as printed lines without the comment |
| Legacy.TableListing | bp.py:171-178 | one table row of four cells per record, in order, with no length check |
| Legacy.PrintedListing | bp.py:179-183 | the printed output of one line per record |
| Utils.Payloads | bplog/utils.py:25-27 | the five data columns of every row, in scan order |
| Utils.Numbered | bplog/utils.py:33-35 | reinserting with NULL ids numbers the rows 1..n in order |
| Utils.NumberedIsWellNumbered | bplog/utils.py:29-35 | the rebuilt table is well numbered and the next insert gets n + 1 |
| Utils.RenumberedRows | bplog/utils.py:25-35 | the row count is kept and row k keeps its data and gets id k + 1 |
| Utils.RenumberKeepsNumberedTable | bplog/utils.py:25-35 | a table already numbered 1..n in order is unchanged |
| Utils.RenumberIdempotent | bplog/utils.py:25-35 | renumbering twice is renumbering once |
| Utils.RecreateDbIds | bplog/utils.py:19-38 | the rows become their payloads numbered 1..n, the backup table is gone, and the index is not recreated |

## Left out

- Command line, dispatch and configuration: `setup_cli_parser`, `main`, the `handle_*` wrappers, `get_db_path`, `update_db_config`, `connect_to_database` and `reset_db_path_config`. They are argparse, configparser and filesystem plumbing.
- `plot_blood_pressures` is matplotlib drawing. `export_to_csv` is file output. They are not part of this model.
- `check_sqlite_version` and `show_table_info` in bplog/utils.py only print diagnostics.
- `input()` is the `typedTime` parameter, and `datetime.now()` is the `today` and `clock` parameters. A clock time is taken as given, and its `%H:%M` formatting is not modelled.
- Printed messages are not modelled word for word. The store methods return what was removed (`Removal`); the listings return `Rendered`. `conn.commit()`, `conn.close()` and `sys.exit()` are not modelled.
- prettytable's boxed layout and its `divider` flag are a foreign library. The model keeps the rows handed to the table (`Rendered.Boxed`), the length check and the averaging.
- The packaged versions' `list_all_records` hands `ToTuples(AllOrdered(rows))` to `GenerateTable`. There is no separate member for it.
- Queries.OnDate: `date(date)` in the date query is taken as plain equality on the stored text. It therefore assumes stored dates are already in `YYYY-MM-DD` form, and does not model SQLite's normalisation or NULL for malformed dates.
- Queries.ByDate, Queries.AllOrdered: rows with equal keys may come in any order in SQLite. These two promise only sortedness and permutation. The model sorts stably, though, so rows with equal keys stay in rowid order, and some contracts rely on that order as a modelling choice. They are Queries.RemovalTarget, Queries.RemovalTargetCases, Queries.SeveralOnDate, Bplog.Store.RemoveMeasurementByDate, Legacy.LegacyStore.RemoveMeasurement, Bplog.Store.ListAllRecords and Legacy.LegacyStore.ListAllRecords. Where several rows on one date share the typed time, or rows share a date and time in a listing, these contracts fix the lower-rowid row first. SQLite may pick or list them in another order.
- Rendering.RoundHalfEven: the averages are Python floats (`sum / n`) rounded half to even. The model rounds the exact quotient, which agrees with the float code while sums stay far below 2**53.
- Bplog.Store.AddMeasurement: rowids beyond the 64-bit limit (where SQLite picks an unused id at random) are not modelled; ids are unbounded integers.
- Bplog.Store.DatabaseSetup: "exactly one `(date, time)` index" is a boolean flag. Other indexes and the index's contents are not modelled.
- Every store method requires `hasTable`. On a missing table SQLite raises OperationalError, and that error path is not modelled.
- Utils.RecreateDbIds requires that no `bplog_backup` table exists. The source's `CREATE TEMPORARY TABLE` would raise on one, and that error is not modelled.
- Integer parsing: `int()` is modelled on ASCII digit strings only. Its acceptance of surrounding whitespace, signs, underscores and non-ASCII digits is not modelled, since such text is rejected here. Likewise, `strptime`'s `\d` in `%Y` and in `%d`'s `[12]\d` matches any Unicode decimal digit, while `YearField` and `DayField` accept ASCII digits only (`%m` is spelled with ASCII classes, like `MonthField`).
- Parsing.FormatISO: `strftime("%Y")` is taken to zero-pad the year to four digits. Below year 1000 the platform's own behaviour is not modelled.
- bp.py's `parse_date_and_blood_pressure` plots and exits when no bp is given. Only the bp-present branch, which the older packaged copies share, is modelled.
- Legacy.LegacyStore.DeleteLastRecordAdded: bp.py opens its own connection to `blood_pressure.db` and exits afterwards. The model runs the same statements on the store it is called on.
- The test at tests/test_bplog.py:377-381 expects "No data to list" from `list_all_records`. src/bplog/app.py never prints that message. The code as written reaches `round(0 / 0)` on an empty list, and that is what is modelled: an `Err(ZeroDivisionError)`, not a precondition.
- The date parsers follow the code rather than a zero-padded-only reading. `%d` and `%m` also accept one digit (and `%d` a leading space), `%Y` takes four digits, and the calendar is checked (leap years, month lengths, years 1 to 9999).

## Findings

| source | as written | input that shows it | evidently intended | confidence | as-written member | corrected member |
|---|---|---|---|---|---|---|
| bp.py:63 | `id INT INTEGER PRIMARY KEY` is not a rowid alias, because the declared type is not exactly INTEGER. The INSERT leaves id out, so every row gets a NULL id, and `DELETE ... WHERE id = ?` never matches. `remove_measurement` reports a row removed and deletes nothing. | one row ("2020-02-02", "09:50", 120, 80, "") inserted by the script, then removed by date "2020-02-02" | `id INTEGER PRIMARY KEY`, as in src/bplog/app.py:97: each row gets a rowid, and removal deletes exactly the reported row | not executed | Legacy.ScriptRemovalExample | Queries.RemovalDeletesTarget |
