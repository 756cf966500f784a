/**
 * Calendar dates as pandas holds them in the `Date` column: a `Timestamp` at midnight.
 * A date is valid when it is a real calendar day and lies inside the range a
 * nanosecond `Timestamp` can represent (22 Sep 1677 to 11 Apr 2262 at midnight);
 * parsing anything else raises in pandas, which the callers turn into NaT or `None`.
 */
module Dates {
  import opened Wrappers
  import opened Text

  datatype Date = Date(year: int, month: int, day: int)

  predicate IsLeapYear(y: int) {
    y % 4 == 0 && (y % 100 != 0 || y % 400 == 0)
  }

  function DaysInMonth(y: int, m: int): (n: int)
    requires 1 <= m <= 12
    ensures 28 <= n <= 31
  {
    if m == 2 then (if IsLeapYear(y) then 29 else 28)
    else if m == 4 || m == 6 || m == 9 || m == 11 then 30
    else 31
  }

  predicate IsCalendarDate(d: Date) {
    1 <= d.month <= 12 && 1 <= d.day <= DaysInMonth(d.year, d.month)
  }

  /** `a` is a strictly earlier day than `b`. */
  predicate Before(a: Date, b: Date) {
    a.year < b.year || (a.year == b.year && (a.month < b.month || (a.month == b.month && a.day < b.day)))
  }

  /** The first and last midnights a nanosecond `Timestamp` can hold. */
  const FirstTimestampDate := Date(1677, 9, 22)
  const LastTimestampDate := Date(2262, 4, 11)

  predicate IsValid(d: Date) {
    IsCalendarDate(d) && !Before(d, FirstTimestampDate) && !Before(LastTimestampDate, d)
  }

  /** Building a `Timestamp` from its parts: `None` where pandas raises. */
  function MakeDate(year: int, month: int, day: int): Option<Date> {
    if IsValid(Date(year, month, day)) then Some(Date(year, month, day)) else None
  }

  /** A raw `Date` cell: a timestamp already, text still to be parsed, or nothing (NaN/NaT). */
  datatype DateCell = Stamped(date: Date) | Written(text: string) | Empty

  predicate IsDateSeparator(c: char) {
    c == '.' || c == '/' || c == '-'
  }

  /**
   * Reading numeric dates `A<sep>B<sep>YYYY` (one or two digits each for `A` and `B`, one
   * separator among `.`, `/` and `-`) with `dayfirst=True`, as dateutil resolves the
   * two numbers: `A` is the day unless `A` could be a month and `B` could not, in which
   * case the reading falls back to month first (`12/13/2025` is 13 December 2025).
   */
  function ParseDayFirst(s: string): (r: Option<Date>)
    ensures r.Some? ==> IsValid(r.value)
    ensures NumericFields(s).None? ==> r.None?
    ensures NumericFields(s).Some? ==>
      var f := NumericFields(s).value;
      r == if f.first > 12 || f.second <= 12 then MakeDate(f.year, f.second, f.first)
           else MakeDate(f.year, f.first, f.second)
  {
    match NumericFields(s)
    case None => None
    case Some(f) =>
      if f.first > 12 || f.second <= 12 then MakeDate(f.year, f.second, f.first)
      else MakeDate(f.year, f.first, f.second)
  }

  /** The three numbers of a numeric date, in the order written. */
  datatype Fields = Fields(first: nat, second: nat, year: nat)

  /** `A<sep>B<sep>YYYY` split into its numbers, or `None` when the text has another shape. */
  function NumericFields(s: string): Option<Fields>
  {
    var dl := RunLength(s, 0, Digits);
    if dl < 1 || dl > 2 || dl == |s| || !IsDateSeparator(s[dl]) then None
    else
      var rest := s[dl + 1..];
      var ml := RunLength(rest, 0, Digits);
      if ml < 1 || ml > 2 || ml == |rest| || rest[ml] != s[dl] then None
      else
        var year := rest[ml + 1..];
        if |year| != 4 || !AllDigits(year) then None
        else
          RunLengthIsMaximal(s, 0, Digits);
          RunLengthIsMaximal(rest, 0, Digits);
          Some(Fields(DigitsValue(s[..dl]), DigitsValue(rest[..ml]), DigitsValue(year)))
  }

  /** `DD<sep>MM<sep>YYYY` with two-digit fields gives its three numbers. */
  lemma NumericFieldsOfTen(s: string)
    requires |s| == 10 && IsDateSeparator(s[2]) && s[5] == s[2]
    requires IsDigit(s[0]) && IsDigit(s[1]) && IsDigit(s[3]) && IsDigit(s[4])
    requires IsDigit(s[6]) && IsDigit(s[7]) && IsDigit(s[8]) && IsDigit(s[9])
    ensures NumericFields(s) == Some(Fields(
              10 * DigitValue(s[0]) + DigitValue(s[1]),
              10 * DigitValue(s[3]) + DigitValue(s[4]),
              1000 * DigitValue(s[6]) + 100 * DigitValue(s[7]) + 10 * DigitValue(s[8]) + DigitValue(s[9])))
  {
    RunLengthOf(s, 0, 2, Digits);
    var rest := s[3..];
    RunLengthOf(rest, 0, 2, Digits);
    TwoDigitsValue(s[..2]);
    TwoDigitsValue(rest[..2]);
    FourDigitsValue(rest[3..]);
  }

  /** `12/13/2025`: 13 is no month, so the reading is month first. */
  lemma MonthFirstFallback()
    ensures ParseDayFirst("12/13/2025") == Some(Date(2025, 12, 13))
  {
    NumericFieldsOfTen("12/13/2025");
  }

  /** `05/12/2025` could be either; day first wins: 5 December 2025. */
  lemma AmbiguousIsDayFirst()
    ensures ParseDayFirst("05/12/2025") == Some(Date(2025, 12, 5))
  {
    NumericFieldsOfTen("05/12/2025");
  }

  /** `pd.to_datetime(cell, dayfirst=True, errors='coerce')`, with `None` standing for NaT. */
  function ToDatetime(c: DateCell): (r: Option<Date>)
    ensures r.Some? ==> IsValid(r.value)
  {
    match c
    case Stamped(d) => if IsValid(d) then Some(d) else None
    case Written(t) => ParseDayFirst(t)
    case Empty => None
  }

  /** The cell as the column holds it after coercion: a timestamp, or NaT. */
  function Coerce(c: DateCell): DateCell {
    match ToDatetime(c)
    case Some(d) => Stamped(d)
    case None => Empty
  }

  /** Coercing a column that is already coerced changes nothing: a second parse reads the same dates. */
  lemma CoerceIdempotent(c: DateCell)
    ensures ToDatetime(Coerce(c)) == ToDatetime(c)
    ensures Coerce(Coerce(c)) == Coerce(c)
  {
  }

  /** `strftime('%d.%m.%Y')`. */
  function FormatDayFirst(d: Date): (s: string)
    requires IsValid(d)
  {
    Pad2(d.day) + "." + Pad2(d.month) + "." + Pad4(d.year)
  }

  /** Writing a date as `DD.MM.YYYY` and reading it back day-first gives the same date. */
  lemma FormatParseRoundTrip(d: Date)
    requires IsValid(d)
    ensures |FormatDayFirst(d)| == 10
    ensures ParseDayFirst(FormatDayFirst(d)) == Some(d)
  {
    var s := FormatDayFirst(d);
    var dd, mm, yy := Pad2(d.day), Pad2(d.month), Pad4(d.year);
    assert s == dd + "." + mm + "." + yy;
    assert s[0] == dd[0] && s[1] == dd[1] && s[2] == '.';
    RunLengthOf(s, 0, 2, Digits);
    var rest := s[3..];
    assert rest == mm + "." + yy;
    assert rest[0] == mm[0] && rest[1] == mm[1] && rest[2] == '.';
    RunLengthOf(rest, 0, 2, Digits);
    assert rest[3..] == yy;
    assert s[..2] == dd;
    assert rest[..2] == mm;
  }

  /** `Before` is a strict total order on dates. */
  lemma BeforeIsStrictTotal(a: Date, b: Date, c: Date)
    ensures !Before(a, a)
    ensures Before(a, b) && Before(b, c) ==> Before(a, c)
    ensures a == b || Before(a, b) || Before(b, a)
    ensures !(Before(a, b) && Before(b, a))
  {
  }
}
