/**
 * `parse_date_and_blood_pressure`: "SYS:DIA" becomes two integers and the
 * date text becomes the stored YYYY-MM-DD form. src/bplog/app.py reads the
 * date as DD,MM,YYYY and falls back to YYYY-MM-DD; the older copies in
 * bplog_pkg/__main__.py, bplog/__main__.py and bp.py know only DD,MM,YYYY.
 */
module Parsing {
  import opened Wrappers
  import opened Text

  /** A calendar date, as `datetime` holds it. */
  datatype Date = Date(year: int, month: int, day: int)

  predicate IsLeapYear(y: int)
  {
    y % 4 == 0 && (y % 100 != 0 || y % 400 == 0)
  }

  function DaysInMonth(y: int, m: int): (n: int)
    requires 1 <= m <= 12
    ensures 28 <= n <= 31
    ensures m == 2 ==> (n == 29 <==> IsLeapYear(y))
  {
    if m == 2 then (if IsLeapYear(y) then 29 else 28)
    else if m == 4 || m == 6 || m == 9 || m == 11 then 30
    else 31
  }

  /** What `datetime(year, month, day)` accepts: years 1 to 9999 and real days of real months. */
  predicate ValidDate(d: Date)
  {
    1 <= d.year <= 9999 && 1 <= d.month <= 12 && 1 <= d.day <= DaysInMonth(d.year, d.month)
  }

  predicate IsNonZeroDigit(c: char) { '1' <= c <= '9' }

  /**
   * Text `strptime`'s `%d` takes: "1".."9", "01".."09", "10".."31", or a
   * space and one digit (the alternatives 3[01], [12]d, 0[1-9], [1-9], " [1-9]").
   */
  predicate DayField(s: string)
  {
    || (|s| == 1 && IsNonZeroDigit(s[0]))
    || (|s| == 2 && s[0] == '0' && IsNonZeroDigit(s[1]))
    || (|s| == 2 && (s[0] == '1' || s[0] == '2') && IsDigit(s[1]))
    || (|s| == 2 && s[0] == '3' && (s[1] == '0' || s[1] == '1'))
    || (|s| == 2 && s[0] == ' ' && IsNonZeroDigit(s[1]))
  }

  function DayValue(s: string): (d: int)
    requires DayField(s)
    ensures 1 <= d <= 31
  {
    if |s| == 1 then DigitValue(s[0])
    else if s[0] == ' ' then DigitValue(s[1])
    else 10 * DigitValue(s[0]) + DigitValue(s[1])
  }

  /** Text `%m` takes: "1".."9", "01".."09", "10".."12". */
  predicate MonthField(s: string)
  {
    || (|s| == 1 && IsNonZeroDigit(s[0]))
    || (|s| == 2 && s[0] == '0' && IsNonZeroDigit(s[1]))
    || (|s| == 2 && s[0] == '1' && '0' <= s[1] <= '2')
  }

  function MonthValue(s: string): (m: int)
    requires MonthField(s)
    ensures 1 <= m <= 12
  {
    if |s| == 1 then DigitValue(s[0]) else 10 * DigitValue(s[0]) + DigitValue(s[1])
  }

  /** Text `%Y` takes: exactly four digits. */
  predicate YearField(s: string)
  {
    |s| == 4 && AllDigits(s)
  }

  /** The date three fields denote, if `datetime` accepts it. */
  function FieldsDate(year: string, month: string, day: string): (r: Option<Date>)
    ensures r.Some? ==> ValidDate(r.value)
  {
    if YearField(year) && MonthField(month) && DayField(day) then
      var d := Date(DigitsValue(year), MonthValue(month), DayValue(day));
      if ValidDate(d) then Some(d) else None
    else None
  }

  /** `strptime(s, "%d,%m,%Y")`; None is its ValueError. */
  function ParseDMY(s: string): (r: Option<Date>)
    ensures r.Some? ==> ValidDate(r.value)
  {
    var parts := Split(s, ',');
    if |parts| == 3 then FieldsDate(parts[2], parts[1], parts[0]) else None
  }

  /** `strptime(s, "%Y-%m-%d")`; None is its ValueError. */
  function ParseISO(s: string): (r: Option<Date>)
    ensures r.Some? ==> ValidDate(r.value)
  {
    var parts := Split(s, '-');
    if |parts| == 3 then FieldsDate(parts[0], parts[1], parts[2]) else None
  }

  /** `n` as exactly `width` decimal digits, zero-padded on the left. */
  function Padded(n: nat, width: nat): (s: string)
    ensures |s| == width && AllDigits(s)
  {
    if width == 0 then [] else Padded(n / 10, width - 1) + [DigitChar(n % 10)]
  }

  /** With room for every digit, the padded digits denote the number. */
  lemma {:induction false} PaddedValue(n: nat, width: nat)
    requires n < Pow10(width)
    ensures DigitsValue(Padded(n, width)) == n
  {
    if width > 0 {
      var q, p := n / 10, Pow10(width - 1);
      assert Pow10(width) == 10 * p;
      DivideByTen(n, p);
      PaddedValue(q, width - 1);
      PaddedLast(n, width);
    }
  }

  /** The last padded digit is the units digit; the rest pad `n / 10`. */
  lemma PaddedLast(n: nat, width: nat)
    requires width > 0
    ensures DigitsValue(Padded(n, width)) == DigitsValue(Padded(n / 10, width - 1)) * 10 + n % 10
  {
    var s := Padded(n, width);
    var high := Padded(n / 10, width - 1);
    assert s[..|s| - 1] == high;
    assert DigitValue(s[|s| - 1]) == n % 10;
  }

  lemma DivideByTen(n: nat, p: nat)
    requires n < 10 * p
    ensures n / 10 < p && (n / 10) * 10 + n % 10 == n
  {
  }

  function Pow10(k: nat): (p: nat)
    ensures p >= 1
  {
    if k == 0 then 1 else 10 * Pow10(k - 1)
  }

  /** `strftime("%Y-%m-%d")`. */
  function FormatISO(d: Date): (s: string)
    requires ValidDate(d)
    ensures |s| == 10
  {
    Padded(d.year, 4) + "-" + Padded(d.month, 2) + "-" + Padded(d.day, 2)
  }

  /** `strftime("%d,%m,%Y")`, the form today's date takes when no date is given. */
  function FormatDMY(d: Date): (s: string)
    requires ValidDate(d)
    ensures |s| == 10
  {
    Padded(d.day, 2) + "," + Padded(d.month, 2) + "," + Padded(d.year, 4)
  }

  lemma PaddedDay(day: int)
    requires 1 <= day <= 31
    ensures DayField(Padded(day, 2)) && DayValue(Padded(day, 2)) == day
  {
    var s := Padded(day, 2);
    assert Padded(day / 10, 1) == [DigitChar(day / 10 % 10)];
    assert s == [DigitChar(day / 10 % 10), DigitChar(day % 10)];
  }

  lemma PaddedMonth(month: int)
    requires 1 <= month <= 12
    ensures MonthField(Padded(month, 2)) && MonthValue(Padded(month, 2)) == month
  {
    var s := Padded(month, 2);
    assert Padded(month / 10, 1) == [DigitChar(month / 10 % 10)];
    assert s == [DigitChar(month / 10 % 10), DigitChar(month % 10)];
  }

  lemma PaddedYear(year: int)
    requires 1 <= year <= 9999
    ensures YearField(Padded(year, 4)) && DigitsValue(Padded(year, 4)) == year
  {
    assert Pow10(4) == 10000;
    PaddedValue(year, 4);
  }

  /** Digits never include a field separator. */
  lemma DigitsAvoid(s: string, c: char)
    requires AllDigits(s) && !IsDigit(c)
    ensures c !in s
  {
    forall k | 0 <= k < |s| ensures s[k] != c {
      assert IsDigit(s[k]);
    }
  }

  /** Three fields joined by a separator none of them contains split back into those three. */
  lemma SplitThree(a: string, b: string, c: string, sep: char)
    requires sep !in a && sep !in b && sep !in c
    ensures Split(a + [sep] + b + [sep] + c, sep) == [a, b, c]
  {
    SplitNoSep(c, sep);
    SplitAtSep(b, c, sep);
    assert a + [sep] + b + [sep] + c == a + [sep] + (b + [sep] + c);
    SplitAtSep(a, b + [sep] + c, sep);
  }

  /** The stored form of a date reads back as that date. */
  lemma ParseFormatISO(d: Date)
    requires ValidDate(d)
    ensures ParseISO(FormatISO(d)) == Some(d)
  {
    var y, m, dd := Padded(d.year, 4), Padded(d.month, 2), Padded(d.day, 2);
    PaddedYear(d.year);
    PaddedMonth(d.month);
    PaddedDay(d.day);
    DigitsAvoid(y, '-');
    DigitsAvoid(m, '-');
    DigitsAvoid(dd, '-');
    SplitThree(y, m, dd, '-');
  }

  /** Today's date, written DD,MM,YYYY, reads back as today. */
  lemma ParseFormatDMY(d: Date)
    requires ValidDate(d)
    ensures ParseDMY(FormatDMY(d)) == Some(d)
  {
    PaddedDMY(d.year, d.month, d.day);
  }

  /** Zero-padded DD,MM,YYYY text is read field by field; the calendar then decides. */
  lemma PaddedDMY(year: int, month: int, day: int)
    requires 1 <= year <= 9999 && 1 <= month <= 12 && 1 <= day <= 31
    ensures ParseDMY(Padded(day, 2) + [','] + Padded(month, 2) + [','] + Padded(year, 4))
      == if ValidDate(Date(year, month, day)) then Some(Date(year, month, day)) else None
  {
    var y, m, dd := Padded(year, 4), Padded(month, 2), Padded(day, 2);
    DigitsAvoid(y, ',');
    DigitsAvoid(m, ',');
    DigitsAvoid(dd, ',');
    SplitThree(dd, m, y, ',');
    PaddedFields(year, month, day);
  }

  /** The stored form holds no comma, so the DD,MM,YYYY reading rejects it. */
  lemma ISOIsNotDMY(d: Date)
    requires ValidDate(d)
    ensures ParseDMY(FormatISO(d)).None?
  {
    var y, m, dd := Padded(d.year, 4), Padded(d.month, 2), Padded(d.day, 2);
    DigitsAvoid(y, ',');
    DigitsAvoid(m, ',');
    DigitsAvoid(dd, ',');
    assert ',' !in FormatISO(d);
    SplitNoSep(FormatISO(d), ',');
  }

  /** Why a measurement could not be parsed. */
  datatype ParseError =
    | NotAnInteger(text: string)  // `int()` raised ValueError on a bp field
    | MissingDiastolic            // `bp[1]` raised IndexError: no ':' in the text
    | BadDate(text: string)       // `strptime` raised ValueError on the date text

  /** `args.bp.split(":")` and `int()` of its first two fields; later fields are ignored. */
  function ParseBloodPressure(bp: string): (r: Result<(int, int), ParseError>)
    ensures r.Ok? ==> r.value.0 >= 0 && r.value.1 >= 0
    ensures r == Err(MissingDiastolic) ==> ':' !in bp
  {
    var parts := Split(bp, ':');
    match ParseNat(parts[0])
    case None => Err(NotAnInteger(parts[0]))
    case Some(systolic) =>
      if |parts| < 2 then
        JoinSplit(bp, ':');
        Err(MissingDiastolic)
      else
        match ParseNat(parts[1])
        case None => Err(NotAnInteger(parts[1]))
        case Some(diastolic) => Ok((systolic, diastolic))
  }

  /**
   * The date reading: DD,MM,YYYY first and, when `isoFallback` holds (as in
   * src/bplog/app.py), YYYY-MM-DD when that fails.
   */
  function ParseDate(text: string, isoFallback: bool): (r: Option<Date>)
    ensures r.Some? ==> ValidDate(r.value)
    ensures ParseDMY(text).Some? ==> r == ParseDMY(text)
    ensures ParseDMY(text).None? ==> r == if isoFallback then ParseISO(text) else None
  {
    match ParseDMY(text)
    case Some(d) => Some(d)
    case None => if isoFallback then ParseISO(text) else None
  }

  /** What a measurement parses to: the readings and the date in stored form. */
  datatype Parsed = Parsed(systolic: int, diastolic: int, date: string)

  /**
   * `parse_date_and_blood_pressure`, with `today` standing in for
   * `datetime.now()`: a missing or empty date means today. The result's
   * date is always in stored YYYY-MM-DD form.
   */
  function ParseDateAndBloodPressure(bp: string, date: Option<string>, today: Date, isoFallback: bool): (r: Result<Parsed, ParseError>)
    requires ValidDate(today)
    ensures r.Ok? ==> exists d :: ValidDate(d) && r.value.date == FormatISO(d) && ParseISO(r.value.date) == Some(d)
  {
    match ParseBloodPressure(bp)
    case Err(e) => Err(e)
    case Ok(readings) =>
      var text := OrElse(date, FormatDMY(today));
      match ParseDate(text, isoFallback)
      case None => Err(BadDate(text))
      case Some(d) =>
        ParseFormatISO(d);
        Ok(Parsed(readings.0, readings.1, FormatISO(d)))
  }

  /** A bp text of two decimal numbers reads back as those numbers. */
  lemma ParseBloodPressureOf(systolic: nat, diastolic: nat)
    ensures ParseBloodPressure(NatToString(systolic) + ":" + NatToString(diastolic)) == Ok((systolic, diastolic))
  {
    var a, b := NatToString(systolic), NatToString(diastolic);
    DigitsAvoid(a, ':');
    DigitsAvoid(b, ':');
    SplitNoSep(b, ':');
    SplitAtSep(a, b, ':');
    ParseNatOfNatToString(systolic);
    ParseNatOfNatToString(diastolic);
  }

  /** No date, or an empty one, means today. */
  lemma NoDateMeansToday(bp: string, date: Option<string>, today: Date, isoFallback: bool)
    requires ValidDate(today) && (date.None? || date.value == "")
    requires ParseBloodPressure(bp).Ok?
    ensures ParseDateAndBloodPressure(bp, date, today, isoFallback).Ok?
    ensures ParseDateAndBloodPressure(bp, date, today, isoFallback).value.date == FormatISO(today)
  {
    ParseFormatDMY(today);
  }

  /**
   * With the fallback, feeding the stored date back in gives the same
   * result: the stored form is a fixed point of the parser.
   */
  lemma StoredDateIsFixedPoint(bp: string, date: Option<string>, today: Date)
    requires ValidDate(today)
    requires ParseDateAndBloodPressure(bp, date, today, true).Ok?
    ensures var r := ParseDateAndBloodPressure(bp, date, today, true);
      ParseDateAndBloodPressure(bp, Some(r.value.date), today, true) == r
  {
    var r := ParseDateAndBloodPressure(bp, date, today, true);
    var d :| ValidDate(d) && r.value.date == FormatISO(d) && ParseISO(r.value.date) == Some(d);
    ISOIsNotDMY(d);
    assert OrElse(Some(r.value.date), FormatDMY(today)) == r.value.date;
  }

  /**
   * A reading typed as two decimal numbers with a date in DD,MM,YYYY form
   * gives those readings and that date in stored form, whatever the fallback.
   */
  lemma ParseWrittenDMY(systolic: nat, diastolic: nat, d: Date, today: Date, isoFallback: bool)
    requires ValidDate(d) && ValidDate(today)
    ensures ParseDateAndBloodPressure(NatToString(systolic) + ":" + NatToString(diastolic), Some(FormatDMY(d)), today, isoFallback)
      == Ok(Parsed(systolic, diastolic, FormatISO(d)))
  {
    ParseBloodPressureOf(systolic, diastolic);
    ParseFormatDMY(d);
    assert OrElse(Some(FormatDMY(d)), FormatDMY(today)) == FormatDMY(d);
  }

  /**
   * With the fallback, a date already in stored YYYY-MM-DD form is kept as it
   * is, next to the readings typed.
   */
  lemma ParseStoredISO(systolic: nat, diastolic: nat, d: Date, today: Date)
    requires ValidDate(d) && ValidDate(today)
    ensures ParseDateAndBloodPressure(NatToString(systolic) + ":" + NatToString(diastolic), Some(FormatISO(d)), today, true)
      == Ok(Parsed(systolic, diastolic, FormatISO(d)))
  {
    ParseBloodPressureOf(systolic, diastolic);
    ISOIsNotDMY(d);
    ParseFormatISO(d);
    assert OrElse(Some(FormatISO(d)), FormatDMY(today)) == FormatISO(d);
  }

  /** The older copies reject the very form they store. */
  lemma OlderCopiesRejectStoredForm(bp: string, d: Date, today: Date)
    requires ValidDate(today) && ValidDate(d)
    requires ParseBloodPressure(bp).Ok?
    ensures ParseDateAndBloodPressure(bp, Some(FormatISO(d)), today, false) == Err(BadDate(FormatISO(d)))
  {
    ISOIsNotDMY(d);
    assert OrElse(Some(FormatISO(d)), FormatDMY(today)) == FormatISO(d);
  }

  lemma TestDate()
    ensures ValidDate(Date(2020, 2, 2))
    ensures FormatDMY(Date(2020, 2, 2)) == "02,02,2020" && FormatISO(Date(2020, 2, 2)) == "2020-02-02"
  {
    assert Padded(0, 1) == "0" && Padded(2, 1) == "2";
    assert Padded(2, 2) == "02";
    assert Padded(20, 2) == "20";
    assert Padded(202, 3) == "202";
    assert Padded(2020, 4) == "2020";
  }

  lemma TestBloodPressure(bp: string)
    requires bp == "09:50"
    ensures ParseBloodPressure(bp) == Ok((9, 50))
  {
    SplitNoSep("50", ':');
    SplitAtSep("09", "50", ':');
    assert "09" + [':'] + "50" == bp;
    assert "09"[..1] == "0" && "50"[..1] == "5";
    assert DigitsValue("0") == 0 && DigitsValue("5") == 5;
    assert DigitsValue("09") == 9 && DigitsValue("50") == 50;
  }

  /** The test input "09:50" with "02,02,2020", with or without the fallback. */
  lemma ParseExampleDMY(bp: string, date: string, today: Date, isoFallback: bool)
    requires bp == "09:50" && date == "02,02,2020" && ValidDate(today)
    ensures ParseDateAndBloodPressure(bp, Some(date), today, isoFallback) == Ok(Parsed(9, 50, "2020-02-02"))
  {
    TestBloodPressure(bp);
    TestDate();
    ParseFormatDMY(Date(2020, 2, 2));
  }


  /** The test input "09:50" with "2020-02-02" is read by the fallback ... */
  lemma ParseExampleISO(bp: string, date: string, today: Date)
    requires bp == "09:50" && date == "2020-02-02" && ValidDate(today)
    ensures ParseDateAndBloodPressure(bp, Some(date), today, true) == Ok(Parsed(9, 50, date))
  {
    TestBloodPressure(bp);
    TestDate();
    ParseFormatISO(Date(2020, 2, 2));
    ISOIsNotDMY(Date(2020, 2, 2));
  }

  /** ... and refused without it. */
  lemma ParseExampleISORefused(bp: string, date: string, today: Date)
    requires bp == "09:50" && date == "2020-02-02" && ValidDate(today)
    ensures ParseDateAndBloodPressure(bp, Some(date), today, false) == Err(BadDate(date))
  {
    TestBloodPressure(bp);
    TestDate();
    ISOIsNotDMY(Date(2020, 2, 2));
  }


  /** DD,MM,YYYY text made of three comma-free fields is read field by field. */
  lemma DMYFields(day: string, month: string, year: string)
    requires ',' !in day && ',' !in month && ',' !in year
    ensures ParseDMY(day + [','] + month + [','] + year) == FieldsDate(year, month, day)
  {
    SplitThree(day, month, year, ',');
  }

  /** Zero-padded fields are read back as the numbers they pad; the calendar then decides. */
  lemma PaddedFields(year: int, month: int, day: int)
    requires 1 <= year <= 9999 && 1 <= month <= 12 && 1 <= day <= 31
    ensures FieldsDate(Padded(year, 4), Padded(month, 2), Padded(day, 2))
      == if ValidDate(Date(year, month, day)) then Some(Date(year, month, day)) else None
  {
    PaddedYear(year);
    PaddedMonth(month);
    PaddedDay(day);
  }

  /** `strptime` checks the calendar: 29 February exists in 2020 ... */
  lemma LeapDayExample(text: string)
    requires text == "29,02,2020"
    ensures ParseDMY(text) == Some(Date(2020, 2, 29))
  {
    PaddedDMY(2020, 2, 29);
    assert Padded(29, 2) + [','] + Padded(2, 2) + [','] + Padded(2020, 4) == text;
    assert IsLeapYear(2020);
  }

  /** ... but not in 2021. */
  lemma NoLeapDayExample(text: string)
    requires text == "29,02,2021"
    ensures ParseDMY(text).None?
  {
    PaddedDMY(2021, 2, 29);
    assert Padded(29, 2) + [','] + Padded(2, 2) + [','] + Padded(2021, 4) == text;
    assert !IsLeapYear(2021);
  }

  /** April has 30 days. */
  lemma ShortMonthExample(text: string)
    requires text == "31,04,2020"
    ensures ParseDMY(text).None?
  {
    PaddedDMY(2020, 4, 31);
    assert Padded(31, 2) + [','] + Padded(4, 2) + [','] + Padded(2020, 4) == text;
  }

  /** Single-digit day and month are read as `%d` and `%m` read them. */
  lemma SingleDigitExample()
    ensures ParseDMY("2,2,2020") == Some(Date(2020, 2, 2))
  {
    PaddedYear(2020);
    assert Padded(2020, 4) == "2020";
    assert DayField("2") && DayValue("2") == 2;
    assert MonthField("2") && MonthValue("2") == 2;
    assert ValidDate(Date(2020, 2, 2));
    assert "2" + [','] + "2" + [','] + "2020" == "2,2,2020";
    DMYFields("2", "2", "2020");
  }
}
