/**
 * The match-report record (`FormData`), the text overlays it becomes (`TextOverlay`), and the
 * model's reading of how the report code parses the match date with `new Date("YYYY-MM-DD")`.
 */
module Report {
  import opened Wrappers
  import opened Strings

  /** The four report variants; each has its own template and its own layout. */
  datatype AgeCategory = U9 | U11 | U13 | U15

  /** The category as the form, the validator and the file names spell it. */
  function CategoryName(c: AgeCategory): string {
    match c
    case U9 => "U9"
    case U11 => "U11"
    case U13 => "U13"
    case U15 => "U15"
  }

  /** The accepted spellings of `age_category`, in the validator's order. */
  const CategoryNames: seq<string> := ["U9", "U11", "U13", "U15"]

  /** The category a spelling names, if it names one. */
  function ParseCategory(s: string): (r: Option<AgeCategory>)
    ensures r.Some? <==> s in CategoryNames
    ensures r.Some? ==> CategoryName(r.value) == s
  {
    if s == "U9" then Some(U9)
    else if s == "U11" then Some(U11)
    else if s == "U13" then Some(U13)
    else if s == "U15" then Some(U15)
    else None
  }

  /** Spelling a category and reading it back gives the category. */
  lemma ParseCategoryName(c: AgeCategory)
    ensures ParseCategory(CategoryName(c)) == Some(c)
  {
  }

  /**
   * The report record. Optional properties of the TypeScript interface are `Option`s; the
   * competition, assistant, fourth-official and stadium fields are read only by the U15 layout.
   */
  datatype FormData = FormData(
    refereeName1: string,
    refereeName2: Option<string>,
    matchDate: string,
    startingHour: string,
    team1: string,
    team2: string,
    competition: Option<string>,
    assistantReferee1: Option<string>,
    assistantReferee2: Option<string>,
    fourthOfficial: Option<string>,
    ageCategory: AgeCategory,
    stadiumName: Option<string>,
    stadiumLocality: Option<string>)

  /** `field || ''`: an absent optional field contributes the empty string. */
  function OrEmpty(field: Option<string>): string {
    field.GetOr("")
  }

  /** One text placement: the string, its position in PDF points, and the 0-based page. */
  datatype Overlay = Overlay(text: string, x: int, y: int, page: nat)

  /** The match line `${team_1} - ${team_2}`. */
  function TeamPair(f: FormData): string {
    f.team1 + " - " + f.team2
  }

  /** The characters `replace(/[-\/]/g, '')` keeps when the file name compacts the match date. */
  predicate KeptInDate(c: char) {
    c != '-' && c != '/'
  }

  /** `^\d{4}-\d{2}-\d{2}$` */
  predicate IsIsoDateShape(s: string) {
    |s| == 10 && AllDigits(s[..4]) && s[4] == '-' && AllDigits(s[5..7]) && s[7] == '-' && AllDigits(s[8..])
  }

  /** `^\d{2}:\d{2}$` */
  predicate IsTimeShape(s: string) {
    |s| == 5 && AllDigits(s[..2]) && s[2] == ':' && AllDigits(s[3..])
  }

  datatype CalendarDate = CalendarDate(year: nat, month: nat, day: nat)

  predicate IsLeapYear(y: nat) {
    y % 4 == 0 && (y % 100 != 0 || y % 400 == 0)
  }

  function DaysInMonth(y: nat, m: nat): nat
    requires 1 <= m <= 12
  {
    if m == 2 then (if IsLeapYear(y) then 29 else 28)
    else if m == 4 || m == 6 || m == 9 || m == 11 then 30
    else 31
  }

  predicate IsValidDate(d: CalendarDate) {
    1 <= d.month <= 12 && 1 <= d.day <= DaysInMonth(d.year, d.month)
  }

  /**
   * A day from 1 to 31 of a month from 1 to 12, as the date constructor composes it: a day past
   * the end of the month rolls over into the next month, so February 30 is March 2 (or March 1
   * in a leap year). December has 31 days, so the year never rolls over.
   */
  function ComposeDay(year: nat, month: nat, day: nat): (r: CalendarDate)
    requires 1 <= month <= 12 && 1 <= day <= 31
    ensures IsValidDate(r) && r.year == year
  {
    var last := DaysInMonth(year, month);
    if day <= last then CalendarDate(year, month, day)
    else CalendarDate(year, month + 1, day - last)
  }

  /** A real day is composed as itself; a day past the month's end lands early in the next month. */
  lemma ComposeDaySpec(year: nat, month: nat, day: nat)
    requires 1 <= month <= 12 && 1 <= day <= 31
    ensures IsValidDate(CalendarDate(year, month, day)) ==> ComposeDay(year, month, day) == CalendarDate(year, month, day)
    ensures day > DaysInMonth(year, month) ==>
      ComposeDay(year, month, day) == CalendarDate(year, month + 1, day - DaysInMonth(year, month)) &&
      ComposeDay(year, month, day).day <= 3
  {
  }

  /**
   * The model's reading of `new Date(s)` (the V8 engine of Node and Chromium) for the strings the
   * form produces: a `YYYY-MM-DD` string with a month from 1 to 12 and a day from 1 to 31 is that
   * day, rolled over into the next month when the month is shorter, taken at face value (no
   * time-zone shift). Every other string, including the other forms `new Date` accepts, is read
   * as an invalid date.
   */
  function ParseIsoDate(s: string): Option<CalendarDate> {
    if IsIsoDateShape(s) then
      var year, month, day := DecimalValue(s[..4]), DecimalValue(s[5..7]), DecimalValue(s[8..]);
      if 1 <= month <= 12 && 1 <= day <= 31 then Some(ComposeDay(year, month, day)) else None
    else None
  }

  /**
   * A string is read as a date exactly when it has the `YYYY-MM-DD` shape, a month from 1 to 12
   * and a day from 1 to 31; the date is then the three fields composed, with a year below 10000.
   */
  lemma ParseIsoDateSpec(s: string)
    ensures ParseIsoDate(s).Some? <==> (IsIsoDateShape(s) &&
      1 <= DecimalValue(s[5..7]) <= 12 && 1 <= DecimalValue(s[8..]) <= 31)
    ensures ParseIsoDate(s).Some? ==> (ParseIsoDate(s).value.year < 10000 && ParseIsoDate(s).value ==
      ComposeDay(DecimalValue(s[..4]), DecimalValue(s[5..7]), DecimalValue(s[8..])))
  {
    if IsIsoDateShape(s) {
      DecimalBelow(s[..4]);
      assert Pow10(4) == 10000;
    }
  }

  /** A date the parser accepts is a real day with a year below 10000. */
  lemma ParsedDateValid(s: string)
    requires ParseIsoDate(s).Some?
    ensures IsValidDate(ParseIsoDate(s).value) && ParseIsoDate(s).value.year < 10000
  {
    ParseIsoDateSpec(s);
  }

  /** `date.getDate()`: the day, or NaN (`None`) for an invalid date. */
  function DayOf(date: Option<CalendarDate>): Option<nat> {
    if date.Some? then Some(date.value.day) else None
  }

  /** `date.getMonth() + 1`: the month from 1 to 12, or NaN. */
  function MonthOf(date: Option<CalendarDate>): Option<nat> {
    if date.Some? then Some(date.value.month) else None
  }

  /** `date.getFullYear()`: the year, or NaN. */
  function YearOf(date: Option<CalendarDate>): Option<nat> {
    if date.Some? then Some(date.value.year) else None
  }

  /** `${n}` for a number that may be NaN. */
  function NumberText(n: Option<nat>): string {
    if n.Some? then NatToString(n.value) else "NaN"
  }

  /** `${n}`.padStart(2, '0'), as both date formatters write day and month. */
  function Pad2(n: Option<nat>): string {
    PadStart(NumberText(n), 2, '0')
  }

  /** A one-digit day or month is padded with one leading zero. */
  lemma Pad2OneDigit(n: nat)
    requires n < 10
    ensures Pad2(Some(n)) == ['0', DigitChar(n)]
  {
    assert NatToString(n) == [DigitChar(n)];
  }

  /** Reads a `DD.MM.YYYY` text back as a date, when it has that shape. */
  function ParseDottedDate(t: string): Option<CalendarDate> {
    if |t| == 10 && AllDigits(t[..2]) && t[2] == '.' && AllDigits(t[3..5]) && t[5] == '.' && AllDigits(t[6..])
    then Some(CalendarDate(DecimalValue(t[6..]), DecimalValue(t[3..5]), DecimalValue(t[..2])))
    else None
  }

  /** Reads a `DD     MM` text back as (day, month), when it has that shape. */
  function ParseSpacedDayMonth(t: string): Option<(nat, nat)> {
    if |t| == 9 && AllDigits(t[..2]) && t[2..7] == "     " && AllDigits(t[7..])
    then Some((DecimalValue(t[..2]), DecimalValue(t[7..])))
    else None
  }

  /** Two digits, a dot, two digits, a dot and four digits read back as the date they spell. */
  lemma DottedReadBack(dd: string, mm: string, yyyy: string)
    requires |dd| == 2 && |mm| == 2 && |yyyy| == 4 && AllDigits(dd) && AllDigits(mm) && AllDigits(yyyy)
    ensures ParseDottedDate(dd + "." + mm + "." + yyyy) ==
      Some(CalendarDate(DecimalValue(yyyy), DecimalValue(mm), DecimalValue(dd)))
  {
    var t := dd + "." + mm + "." + yyyy;
    assert t[..2] == dd && t[3..5] == mm && t[6..] == yyyy;
  }

  /** Two digits, five spaces and two digits read back as the (day, month) they spell. */
  lemma SpacedReadBack(dd: string, mm: string)
    requires |dd| == 2 && |mm| == 2 && AllDigits(dd) && AllDigits(mm)
    ensures ParseSpacedDayMonth(dd + "     " + mm) == Some((DecimalValue(dd), DecimalValue(mm)))
  {
    var t := dd + "     " + mm;
    assert t[..2] == dd && t[2..7] == "     " && t[7..] == mm;
  }

  /** Reads one `YYYY-MM-DD` literal whose fields are the given digits. */
  lemma IsoDateOfDigits(s: string, y0: char, y1: char, y2: char, y3: char, m0: char, m1: char, d0: char, d1: char)
    requires s == [y0, y1, y2, y3, '-', m0, m1, '-', d0, d1]
    requires IsAsciiDigit(y0) && IsAsciiDigit(y1) && IsAsciiDigit(y2) && IsAsciiDigit(y3)
    requires IsAsciiDigit(m0) && IsAsciiDigit(m1) && IsAsciiDigit(d0) && IsAsciiDigit(d1)
    requires 1 <= DecimalValue([m0, m1]) <= 12 && 1 <= DecimalValue([d0, d1]) <= 31
    ensures ParseIsoDate(s) == Some(ComposeDay(DecimalValue([y0, y1, y2, y3]), DecimalValue([m0, m1]), DecimalValue([d0, d1])))
  {
    assert s[..4] == [y0, y1, y2, y3] && s[5..7] == [m0, m1] && s[8..] == [d0, d1];
  }

  /** The match dates of the test suite, and a year below 1000, in the model's reading of `new Date`. */
  lemma ParseIsoDateExamples()
    ensures ParseIsoDate("2023-10-27") == Some(CalendarDate(2023, 10, 27))
    ensures ParseIsoDate("2023-05-01") == Some(CalendarDate(2023, 5, 1))
    ensures ParseIsoDate("0999-10-27") == Some(CalendarDate(999, 10, 27))
  {
    FourDigitValue('2', '0', '2', '3');
    FourDigitValue('0', '9', '9', '9');
    TwoDigitValue('1', '0');
    TwoDigitValue('2', '7');
    TwoDigitValue('0', '5');
    TwoDigitValue('0', '1');
    IsoDateOfDigits("2023-10-27", '2', '0', '2', '3', '1', '0', '2', '7');
    IsoDateOfDigits("2023-05-01", '2', '0', '2', '3', '0', '5', '0', '1');
    IsoDateOfDigits("0999-10-27", '0', '9', '9', '9', '1', '0', '2', '7');
  }

  /** February 30 rolls over: it is March 2 in 2023 and March 1 in the leap year 2024. */
  lemma ParseIsoDateRollover()
    ensures ParseIsoDate("2023-02-30") == Some(CalendarDate(2023, 3, 2))
    ensures ParseIsoDate("2024-02-30") == Some(CalendarDate(2024, 3, 1))
  {
    FebruaryThirtieth("2023-02-30", '3', 2023);
    FebruaryThirtieth("2024-02-30", '4', 2024);
    LeapYearExamples();
  }

  /** 2023 is a common year and 2024 a leap year. */
  lemma LeapYearExamples()
    ensures !IsLeapYear(2023) && IsLeapYear(2024)
  {
    assert 2023 % 4 == 3;
    assert 2024 % 4 == 0 && 2024 % 100 == 24;
  }

  /** `202x-02-30` is read as the day that many days past February's end. */
  lemma FebruaryThirtieth(s: string, y3: char, year: nat)
    requires IsAsciiDigit(y3) && s == ['2', '0', '2', y3, '-', '0', '2', '-', '3', '0']
    requires year == 2020 + DigitValue(y3)
    ensures ParseIsoDate(s) == Some(CalendarDate(year, 3, 30 - DaysInMonth(year, 2)))
  {
    FourDigitValue('2', '0', '2', y3);
    TwoDigitValue('0', '2');
    TwoDigitValue('3', '0');
    IsoDateOfDigits(s, '2', '0', '2', y3, '0', '2', '3', '0');
  }
}
