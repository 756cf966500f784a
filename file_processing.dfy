/**
 * Reading an uploaded participant file (utils/file_processing.py): the two date
 * parsers, one for a `DDMMYYYY` run in the file name and one for the
 * "as on Mon DD, YYYY" phrase of an NSE title row, and the rules that decide which
 * header row holds the column names and where the `Date` column comes from.
 * The file itself is abstract: each read the source performs is an input that either
 * yields its result or raises.
 */
module FileProcessing {
  import opened Wrappers
  import opened Text
  import opened Dates

  // ---------------------------------------------------------------------------
  // `extract_date_from_filename`: `re.search(r'(\d{2})(\d{2})(\d{4})', filename)`.
  // ---------------------------------------------------------------------------

  /** Eight consecutive digits start at `p`. */
  predicate EightDigitsAt(s: string, p: nat) {
    p + 8 <= |s| && forall k :: p <= k < p + 8 ==> IsDigit(s[k])
  }

  /** The leftmost position at or after `p` where eight digits start: where the search matches. */
  function FindEightDigits(s: string, p: nat): (r: Option<nat>)
    ensures r.Some? ==> p <= r.value && EightDigitsAt(s, r.value)
                        && forall q :: p <= q < r.value ==> !EightDigitsAt(s, q)
    ensures r.None? ==> forall q :: p <= q ==> !EightDigitsAt(s, q)
    decreases |s| - p
  {
    if p + 8 > |s| then None
    else if EightDigitsAt(s, p) then Some(p)
    else FindEightDigits(s, p + 1)
  }

  /**
   * The date the eight digits at `p` spell as day, month, year, or `None` where building
   * that `Timestamp` raises (`%d/%m/%Y` takes any two-digit day and month; a day or month
   * out of range or a year outside the `Timestamp` range raises).
   */
  function DateFromDigits(s: string, p: nat): (r: Option<Date>)
    requires EightDigitsAt(s, p)
    ensures r.Some? <==> IsValid(DigitDate(s, p))
    ensures r.Some? ==> r.value == DigitDate(s, p)
  {
    var d := DigitDate(s, p);
    MakeDate(d.year, d.month, d.day)
  }

  /** The eight digits at `p` read as `DD`, `MM`, `YYYY`, whether or not that is a calendar date. */
  function DigitDate(s: string, p: nat): Date
    requires EightDigitsAt(s, p)
  {
    assert AllDigits(s[p..p + 2]) && AllDigits(s[p + 2..p + 4]) && AllDigits(s[p + 4..p + 8]);
    Date(DigitsValue(s[p + 4..p + 8]), DigitsValue(s[p + 2..p + 4]), DigitsValue(s[p..p + 2]))
  }

  /**
   * `extract_date_from_filename`: only the leftmost eight-digit run is read; when it is
   * not a valid date the result is `None`, even if a later run would be.
   */
  function ExtractDateFromFilename(name: string): (r: Option<Date>)
    ensures r.Some? ==> IsValid(r.value)
    ensures (forall q :: !EightDigitsAt(name, q)) ==> r.None?
    ensures r.Some? ==> exists p :: FindEightDigits(name, 0) == Some(p) && r.value == DigitDate(name, p)
    ensures FindEightDigits(name, 0).Some? && IsValid(DigitDate(name, FindEightDigits(name, 0).value))
            ==> r == Some(DigitDate(name, FindEightDigits(name, 0).value))
  {
    match FindEightDigits(name, 0)
    case None => None
    case Some(p) => DateFromDigits(name, p)
  }

  /** `strftime('%d%m%Y')`: the compact form NSE uses in its file names. */
  function CompactDate(d: Date): (s: string)
    requires IsValid(d)
    ensures |s| == 8 && AllDigits(s)
  {
    Pad2(d.day) + Pad2(d.month) + Pad4(d.year)
  }

  /**
   * A file name made of a digit-free prefix, a valid date written `DDMMYYYY` and any
   * suffix (such as `fao_participant_oi_05122025.csv`) yields exactly that date.
   */
  lemma FilenameRoundTrip(prefix: string, d: Date, suffix: string)
    requires IsValid(d)
    requires forall k :: 0 <= k < |prefix| ==> !IsDigit(prefix[k])
    ensures ExtractDateFromFilename(prefix + CompactDate(d) + suffix) == Some(d)
  {
    var c := CompactDate(d);
    var name := prefix + c + suffix;
    var p := |prefix|;
    assert name[p..p + 8] == c;
    assert EightDigitsAt(name, p) by {
      forall k | p <= k < p + 8 ensures IsDigit(name[k]) {
        assert name[k] == c[k - p];
      }
    }
    forall q | 0 <= q < p ensures !EightDigitsAt(name, q) {
      assert name[q] == prefix[q];
    }
    assert FindEightDigits(name, 0) == Some(p);
    assert name[p..p + 2] == Pad2(d.day);
    assert name[p + 2..p + 4] == Pad2(d.month);
    assert name[p + 4..p + 8] == Pad4(d.year);
  }

  /**
   * Only the first run is tried: in `x_32012025_05122025` the first run is no date
   * (day 32), so the result is `None` although the second run is 5 December 2025.
   */
  lemma FilenameUsesFirstRunOnly()
    ensures ExtractDateFromFilename("x_32012025_05122025") == None
  {
    var s := "x_32012025_05122025";
    assert s[0] == 'x' && s[1] == '_';
    assert !EightDigitsAt(s, 0) && !EightDigitsAt(s, 1);
    assert EightDigitsAt(s, 2);
    assert FindEightDigits(s, 0) == Some(2);
    var dd := s[2..4];
    assert s[2] == '3' && s[3] == '2';
    assert dd[0] == s[2] && dd[1] == s[3];
    TwoDigitsValue(dd);
    assert DigitDate(s, 2).day == 32;
  }

  /** The later run on its own is read as 5 December 2025. */
  lemma FilenameSecondRunAlone()
    ensures ExtractDateFromFilename("x_05122025") == Some(Date(2025, 12, 5))
  {
    var t := "x_05122025";
    assert t[0] == 'x' && t[1] == '_';
    assert !EightDigitsAt(t, 0) && !EightDigitsAt(t, 1) && EightDigitsAt(t, 2);
    assert FindEightDigits(t, 0) == Some(2);
    var dd, mm, yy := t[2..4], t[4..6], t[6..10];
    assert t[2] == '0' && t[3] == '5' && t[4] == '1' && t[5] == '2';
    assert t[6] == '2' && t[7] == '0' && t[8] == '2' && t[9] == '5';
    assert dd[0] == t[2] && dd[1] == t[3] && mm[0] == t[4] && mm[1] == t[5];
    assert yy == "2025";
    TwoDigitsValue(dd);
    TwoDigitsValue(mm);
    FourDigitsValue(yy);
    assert DigitDate(t, 2) == Date(2025, 12, 5);
  }

  // ---------------------------------------------------------------------------
  // `extract_date_from_title`: `re.search(r'as on\s+([A-Za-z]+)\s+(\d{1,2}),?\s+(\d{4})',
  // title, re.IGNORECASE)`, then `pd.to_datetime(f"{month} {day}, {year}", format='%b %d, %Y')`.
  // ---------------------------------------------------------------------------

  /** `as on` starts at `p`, in any letter case (`re.IGNORECASE`). */
  predicate AsOnAt(s: string, p: nat) {
    p + 5 <= |s| && (s[p] == 'a' || s[p] == 'A') && (s[p + 1] == 's' || s[p + 1] == 'S') && s[p + 2] == ' '
    && (s[p + 3] == 'o' || s[p + 3] == 'O') && (s[p + 4] == 'n' || s[p + 4] == 'N')
  }

  /** The three groups of a title match: the month word, and the day and year as numbers. */
  datatype TitleFields = TitleFields(month: string, day: nat, year: nat)

  /**
   * The pattern matched at position `p`. Whitespace, letters and digits are disjoint
   * classes, so each `+` run must take the whole run and `\d{1,2}` matches only when the
   * digit run is one or two long: the match, when there is one, is unique.
   */
  function TitleFieldsAt(s: string, p: nat): (r: Option<TitleFields>)
    ensures !AsOnAt(s, p) ==> r.None?
    ensures r.Some? ==> r.value.month != [] && r.value.day < 100 && r.value.year < 10000
  {
    if !AsOnAt(s, p) then None else FieldsAfterAsOn(s, p + 5)
  }

  /** The rest of the pattern, `\s+([A-Za-z]+)\s+(\d{1,2}),?\s+(\d{4})`, from position `i`. */
  function FieldsAfterAsOn(s: string, i: nat): (r: Option<TitleFields>)
    requires i <= |s|
    ensures r.Some? ==> r.value.month != [] && r.value.day < 100 && r.value.year < 10000
  {
    var w := RunLength(s, i, Spaces);
    if w == 0 then None else MonthAndRest(s, i + w)
  }

  /** `([A-Za-z]+)\s+` and the day and year after it, from position `i`. */
  function MonthAndRest(s: string, i: nat): (r: Option<TitleFields>)
    requires i <= |s|
    ensures r.Some? ==> r.value.month != [] && r.value.day < 100 && r.value.year < 10000
  {
    var n := RunLength(s, i, Letters);
    MonthThenDay(s, i, n, RunLength(s, i + n, Spaces))
  }

  /** A month word `s[i..i + n]` followed by `w` spaces, then the day and year. */
  function MonthThenDay(s: string, i: nat, n: nat, w: nat): (r: Option<TitleFields>)
    requires i + n + w <= |s|
    ensures r.Some? ==> r.value.month != [] && r.value.day < 100 && r.value.year < 10000
  {
    if n == 0 || w == 0 then None
    else
      match DayAndYear(s, i + n + w)
      case None => None
      case Some(f) => Some(TitleFields(s[i..i + n], f.day, f.year))
  }

  /**
   * `(\d{1,2}),?\s+(\d{4})` from position `i`, with the two numbers read; the month
   * field of the result is left empty.
   */
  function DayAndYear(s: string, i: nat): (r: Option<TitleFields>)
    requires i <= |s|
    ensures r.Some? ==> r.value.day < 100 && r.value.year < 10000
  {
    var dl := RunLength(s, i, Digits);
    var j := if i + dl < |s| && s[i + dl] == ',' then i + dl + 1 else i + dl;
    var w := RunLength(s, j, Spaces);
    var y := j + w;
    if dl == 0 || dl > 2 || w == 0 || RunLength(s, y, Digits) < 4 then None
    else
      RunLengthIsMaximal(s, i, Digits);
      RunLengthIsMaximal(s, y, Digits);
      var day, year := s[i..i + dl], s[y..y + 4];
      assert forall k :: 0 <= k < |day| ==> InClass(s[i + k], Digits) && day[k] == s[i + k];
      assert forall k :: 0 <= k < 4 ==> InClass(s[y + k], Digits) && year[k] == s[y + k];
      assert Pow10(|day|) <= 100 && Pow10(4) == 10000;
      Some(TitleFields([], DigitsValue(day), DigitsValue(year)))
  }

  /** The leftmost position at or after `p` where the pattern matches. */
  function FindTitle(s: string, p: nat): (r: Option<nat>)
    ensures r.Some? ==> p <= r.value && TitleFieldsAt(s, r.value).Some?
                        && forall q :: p <= q < r.value ==> TitleFieldsAt(s, q).None?
    ensures r.None? ==> forall q :: p <= q ==> TitleFieldsAt(s, q).None?
    decreases |s| - p
  {
    if p + 5 > |s| then None
    else if TitleFieldsAt(s, p).Some? then Some(p)
    else FindTitle(s, p + 1)
  }

  const MonthAbbreviations: seq<string> :=
    ["jan", "feb", "mar", "apr", "may", "jun", "jul", "aug", "sep", "oct", "nov", "dec"]

  lemma MonthAbbreviationsDistinct()
    ensures NoDuplicates(MonthAbbreviations)
  {
    forall i, j | 0 <= i < j < 12 ensures MonthAbbreviations[i] != MonthAbbreviations[j] {
      var a, b := MonthAbbreviations[i], MonthAbbreviations[j];
      assert a[0] != b[0] || a[1] != b[1] || a[2] != b[2];
    }
  }

  /** `word` spells the lower-case abbreviation `abbr` in any letter case. */
  predicate SpellsAbbreviation(word: string, abbr: string) {
    |word| == 3 && |abbr| == 3
    && LowerChar(word[0]) == abbr[0] && LowerChar(word[1]) == abbr[1] && LowerChar(word[2]) == abbr[2]
  }

  /** The first month at or after `i` (counting from 0) whose abbreviation `word` spells. */
  function FindMonth(word: string, i: nat): (m: Option<int>)
    requires i <= 12
    ensures m.Some? ==> i < m.value <= 12 && SpellsAbbreviation(word, MonthAbbreviations[m.value - 1])
    ensures m.None? ==> forall k :: i <= k < 12 ==> !SpellsAbbreviation(word, MonthAbbreviations[k])
    decreases 12 - i
  {
    if i == 12 then None
    else if SpellsAbbreviation(word, MonthAbbreviations[i]) then Some(i + 1)
    else FindMonth(word, i + 1)
  }

  /** `%b`: a three-letter English month abbreviation in any letter case, as a month number. */
  function MonthNumber(word: string): (m: Option<int>)
    ensures m.Some? ==> 1 <= m.value <= 12 && SpellsAbbreviation(word, MonthAbbreviations[m.value - 1])
    ensures m.None? ==> forall k :: 0 <= k < 12 ==> !SpellsAbbreviation(word, MonthAbbreviations[k])
  {
    FindMonth(word, 0)
  }

  /**
   * `extract_date_from_title`: the date of the leftmost match, or `None` when nothing
   * matches, when the month word is not an abbreviation (`December` is refused) or when
   * the day, month and year are no valid date.
   */
  function ExtractDateFromTitle(title: string): (r: Option<Date>)
    ensures r.Some? ==> IsValid(r.value)
    ensures (forall q :: TitleFieldsAt(title, q).None?) ==> r.None?
    ensures r.Some? ==> exists p :: FindTitle(title, 0) == Some(p)
                          && var f := TitleFieldsAt(title, p).value;
                          && MonthNumber(f.month) == Some(r.value.month)
                          && r.value.day == f.day && r.value.year == f.year
    ensures FindTitle(title, 0).Some? ==>
              var f := TitleFieldsAt(title, FindTitle(title, 0).value).value;
              MonthNumber(f.month).Some? && IsValid(Date(f.year, MonthNumber(f.month).value, f.day))
              ==> r == Some(Date(f.year, MonthNumber(f.month).value, f.day))
  {
    match FindTitle(title, 0)
    case None => None
    case Some(p) =>
      var f := TitleFieldsAt(title, p).value;
      match MonthNumber(f.month)
      case None => None
      case Some(m) => MakeDate(f.year, m, f.day)
  }

  /** `strftime('as on %b %d, %Y')` with NSE's capitalised month abbreviation. */
  function TitlePhrase(d: Date): string
    requires IsValid(d)
  {
    "as on " + MonthName(d.month) + " " + Pad2(d.day) + ", " + Pad4(d.year)
  }

  /** The abbreviation with a capital initial, as NSE writes it (`Dec`). */
  function MonthName(m: int): (w: string)
    requires 1 <= m <= 12
    ensures SpellsAbbreviation(w, MonthAbbreviations[m - 1])
    ensures forall k :: 0 <= k < |w| ==> IsLetter(w[k])
  {
    var a := MonthAbbreviations[m - 1];
    [UpperChar(a[0]), a[1], a[2]]
  }

  /** A word that spells the abbreviation of month `m` is read as `m` and no other month. */
  lemma MonthNumberOfSpelling(word: string, m: int)
    requires 1 <= m <= 12 && SpellsAbbreviation(word, MonthAbbreviations[m - 1])
    ensures MonthNumber(word) == Some(m)
  {
    MonthAbbreviationsDistinct();
    match MonthNumber(word)
    case None =>
    case Some(n) =>
      var a, b := MonthAbbreviations[n - 1], MonthAbbreviations[m - 1];
      assert a[0] == b[0] && a[1] == b[1] && a[2] == b[2];
      assert a == b;
  }

  /** Each month name is read back as its own month number. */
  lemma MonthNameRoundTrip(m: int)
    requires 1 <= m <= 12
    ensures MonthNumber(MonthName(m)) == Some(m)
  {
    MonthNumberOfSpelling(MonthName(m), m);
  }

  /**
   * The part after `as on`: a space, a letter word, a space, a one- or two-digit day,
   * `", "` or `" "`, and four digits, followed by anything, is read as those three fields.
   */
  lemma FieldsOfPhrase(s: string, i: nat, mon: string, day: string, sep: string, year: string)
    requires sep == ", " || sep == " "
    requires |mon| >= 1 && forall k :: 0 <= k < |mon| ==> IsLetter(mon[k])
    requires 1 <= |day| <= 2 && AllDigits(day) && |year| == 4 && AllDigits(year)
    requires i + 2 + |mon| + |day| + |sep| + 4 <= |s|
    requires s[i..i + 2 + |mon| + |day| + |sep| + 4] == " " + mon + " " + day + sep + year
    ensures FieldsAfterAsOn(s, i) == Some(TitleFields(mon, DigitsValue(day), DigitsValue(year)))
  {
    PhraseRunsOf(s, i, mon, day, sep, year);
    FieldsOfRuns(s, i, mon, day, |sep|, year);
  }

  /**
   * The phrase laid out from `i` as runs: one space, the month word, one space, the day
   * digits, the separator ending in one space, and at least four year digits.
   */
  predicate PhraseRuns(s: string, i: nat, mon: string, day: string, sl: nat, year: string) {
    var i3 := i + 1 + |mon|; var i5 := i3 + 1 + |day|; var i7 := i5 + sl;
    && |mon| >= 1 && 1 <= |day| <= 2 && AllDigits(day) && |year| == 4 && AllDigits(year) && 1 <= sl <= 2
    && i7 + 4 <= |s|
    && s[i + 1..i3] == mon && s[i3 + 1..i5] == day && s[i7..i7 + 4] == year
    && (s[i5] == ',' <==> sl == 2)
    && RunLength(s, i, Spaces) == 1
    && RunLength(s, i + 1, Letters) == |mon| && RunLength(s, i3, Spaces) == 1
    && RunLength(s, i3 + 1, Digits) == |day| && RunLength(s, i7 - 1, Spaces) == 1
    && RunLength(s, i7, Digits) >= 4
  }

  lemma PhraseRunsOf(s: string, i: nat, mon: string, day: string, sep: string, year: string)
    requires sep == ", " || sep == " "
    requires |mon| >= 1 && forall k :: 0 <= k < |mon| ==> IsLetter(mon[k])
    requires 1 <= |day| <= 2 && AllDigits(day) && |year| == 4 && AllDigits(year)
    requires i + 2 + |mon| + |day| + |sep| + 4 <= |s|
    requires s[i..i + 2 + |mon| + |day| + |sep| + 4] == " " + mon + " " + day + sep + year
    ensures PhraseRuns(s, i, mon, day, |sep|, year)
  {
    PhraseLayout(s, i, mon, day, sep, year);
    LayoutRuns(s, i, |mon|, |day|, |sep|);
  }

  /** The three fields read after `as on` from the runs that make up the phrase. */
  lemma FieldsOfRuns(s: string, i: nat, mon: string, day: string, sl: nat, year: string)
    requires PhraseRuns(s, i, mon, day, sl, year)
    ensures FieldsAfterAsOn(s, i) == Some(TitleFields(mon, DigitsValue(day), DigitsValue(year)))
  {
    var f := TitleFields([], DigitsValue(day), DigitsValue(year));
    DayOfRuns(s, i, mon, day, sl, year);
    MonthOfLayout(s, i + 1, |mon|, f);
    assert s[i + 1..i + 1 + |mon|] == mon;
    AfterAsOnOf(s, i, TitleFields(mon, f.day, f.year));
  }

  lemma DayOfRuns(s: string, i: nat, mon: string, day: string, sl: nat, year: string)
    requires PhraseRuns(s, i, mon, day, sl, year)
    ensures DayAndYear(s, i + 2 + |mon|) == Some(TitleFields([], DigitsValue(day), DigitsValue(year)))
  {
    DayAndYearOfLayout(s, i + 2 + |mon|, day, sl, year);
  }

  /** Where each piece of the phrase sits in `s`. */
  lemma PhraseLayout(s: string, i: nat, mon: string, day: string, sep: string, year: string)
    requires sep == ", " || sep == " "
    requires |mon| >= 1 && forall k :: 0 <= k < |mon| ==> IsLetter(mon[k])
    requires 1 <= |day| <= 2 && AllDigits(day) && |year| == 4 && AllDigits(year)
    requires i + 2 + |mon| + |day| + |sep| + 4 <= |s|
    requires s[i..i + 2 + |mon| + |day| + |sep| + 4] == " " + mon + " " + day + sep + year
    ensures var i3 := i + 1 + |mon|; var i5 := i3 + 1 + |day|; var i7 := i5 + |sep|;
      && s[i] == ' ' && s[i + 1..i3] == mon && (forall k :: i + 1 <= k < i3 ==> IsLetter(s[k]))
      && s[i3] == ' ' && s[i3 + 1..i5] == day && (forall k :: i3 + 1 <= k < i5 ==> IsDigit(s[k]))
      && (s[i5] == ',' <==> |sep| == 2) && s[i7 - 1] == ' '
      && s[i7..i7 + 4] == year && (forall k :: i7 <= k < i7 + 4 ==> IsDigit(s[k]))
  {
    var t := " " + mon + " " + day + sep + year;
    var i3 := i + 1 + |mon|;
    var i5 := i3 + 1 + |day|;
    var i7 := i5 + |sep|;
    PhraseShape(mon, day, sep, year);
    var w := s[i..i + |t|];
    assert w == t;
    assert forall k :: i <= k < i + |t| ==> s[k] == w[k - i];
    assert s[i + 1..i3] == w[1..1 + |mon|];
    assert s[i3 + 1..i5] == w[2 + |mon|..2 + |mon| + |day|];
    assert s[i7..i7 + 4] == w[i7 - i..i7 - i + 4];
  }

  /** The phrase `" " + mon + " " + day + sep + year`, piece by piece. */
  lemma PhraseShape(mon: string, day: string, sep: string, year: string)
    requires sep == ", " || sep == " "
    requires |year| == 4
    ensures var t := " " + mon + " " + day + sep + year;
      var j3 := 1 + |mon|; var j5 := j3 + 1 + |day|; var j7 := j5 + |sep|;
      && |t| == j7 + 4 && t[0] == ' ' && t[1..j3] == mon && t[j3] == ' ' && t[j3 + 1..j5] == day
      && (t[j5] == ',' <==> |sep| == 2) && t[j7 - 1] == ' ' && t[j7..j7 + 4] == year
  {
  }

  /** The runs the pattern's `+` quantifiers take over the laid-out phrase. */
  lemma LayoutRuns(s: string, i: nat, ml: nat, dl: nat, sl: nat)
    requires ml >= 1 && 1 <= dl <= 2 && 1 <= sl <= 2
    requires i + 2 + ml + dl + sl + 4 <= |s|
    requires var i3 := i + 1 + ml; var i5 := i3 + 1 + dl; var i7 := i5 + sl;
      && s[i] == ' ' && (forall k :: i + 1 <= k < i3 ==> IsLetter(s[k]))
      && s[i3] == ' ' && (forall k :: i3 + 1 <= k < i5 ==> IsDigit(s[k]))
      && (sl == 2 ==> s[i5] == ',') && s[i7 - 1] == ' ' && (forall k :: i7 <= k < i7 + 4 ==> IsDigit(s[k]))
    ensures var i3 := i + 1 + ml; var i5 := i3 + 1 + dl; var i7 := i5 + sl;
      && RunLength(s, i, Spaces) == 1
      && RunLength(s, i + 1, Letters) == ml && RunLength(s, i3, Spaces) == 1
      && RunLength(s, i3 + 1, Digits) == dl && RunLength(s, i7 - 1, Spaces) == 1
      && RunLength(s, i7, Digits) >= 4
  {
    var i3 := i + 1 + ml;
    var i5 := i3 + 1 + dl;
    var i7 := i5 + sl;
    RunLengthOf(s, i, 1, Spaces);
    RunLengthOf(s, i + 1, ml, Letters);
    RunLengthOf(s, i3, 1, Spaces);
    RunLengthOf(s, i3 + 1, dl, Digits);
    RunLengthOf(s, i7 - 1, 1, Spaces);
    RunLengthAtLeast(s, i7, 4, Digits);
  }

  /** The day digits, the separator (`,` and a space, or a space) and the four year digits. */
  lemma DayAndYearOfLayout(s: string, i: nat, day: string, sl: nat, year: string)
    requires 1 <= |day| <= 2 && AllDigits(day) && |year| == 4 && AllDigits(year) && 1 <= sl <= 2
    requires i + |day| + sl + 4 <= |s|
    requires s[i..i + |day|] == day && s[i + |day| + sl..i + |day| + sl + 4] == year
    requires RunLength(s, i, Digits) == |day|
    requires s[i + |day|] == ',' <==> sl == 2
    requires RunLength(s, i + |day| + sl - 1, Spaces) == 1
    requires RunLength(s, i + |day| + sl, Digits) >= 4
    ensures DayAndYear(s, i) == Some(TitleFields([], DigitsValue(day), DigitsValue(year)))
  {
  }

  /** The month word and its single space, given the day and year read after them. */
  lemma MonthOfLayout(s: string, i: nat, ml: nat, f: TitleFields)
    requires ml >= 1 && i + ml + 1 <= |s|
    requires RunLength(s, i, Letters) == ml && RunLength(s, i + ml, Spaces) == 1
    requires DayAndYear(s, i + ml + 1) == Some(f)
    ensures MonthAndRest(s, i) == Some(TitleFields(s[i..i + ml], f.day, f.year))
  {
    MonthThenDayOf(s, i, ml, f);
    assert MonthAndRest(s, i) == MonthThenDay(s, i, ml, 1);
  }

  lemma MonthThenDayOf(s: string, i: nat, ml: nat, f: TitleFields)
    requires ml >= 1 && i + ml + 1 <= |s|
    requires DayAndYear(s, i + ml + 1) == Some(f)
    ensures MonthThenDay(s, i, ml, 1) == Some(TitleFields(s[i..i + ml], f.day, f.year))
  {
  }

  lemma AfterAsOnOf(s: string, i: nat, g: TitleFields)
    requires i + 1 <= |s| && RunLength(s, i, Spaces) == 1 && MonthAndRest(s, i + 1) == Some(g)
    ensures FieldsAfterAsOn(s, i) == Some(g)
  {
  }

  /**
   * A title whose first `as on` (in any letter case) starts the phrase
   * `as on <letters> <one or two digits><", " or " "><four digits>` is read from that
   * phrase alone, whatever follows it: the date of its three fields, or `None` when the
   * word is not a month abbreviation or the fields are no valid date.
   */
  lemma TitleOfPhrase(prefix: string, lead: string, mon: string, day: string, sep: string, year: string, suffix: string)
    requires forall q :: 0 <= q < |prefix| ==> !AsOnAt(prefix + lead, q)
    requires AsOnAt(lead, 0) && |lead| == 5
    requires sep == ", " || sep == " "
    requires |mon| >= 1 && forall k :: 0 <= k < |mon| ==> IsLetter(mon[k])
    requires 1 <= |day| <= 2 && AllDigits(day) && |year| == 4 && AllDigits(year)
    ensures ExtractDateFromTitle(prefix + lead + " " + mon + " " + day + sep + year + suffix)
         == match MonthNumber(mon)
            case None => None
            case Some(m) => MakeDate(DigitsValue(year), m, DigitsValue(day))
  {
    var head := prefix + lead;
    var s := head + " " + mon + " " + day + sep + year + suffix;
    PhraseMatchesAt(prefix, lead, mon, day, sep, year, suffix);
    PrefixOfTitle(head, mon, day, sep, year, suffix);
    NoMatchBefore(head, s, |prefix|);
    TitleReadAt(s, |prefix|, TitleFields(mon, DigitsValue(day), DigitsValue(year)));
  }

  lemma PrefixOfTitle(head: string, mon: string, day: string, sep: string, year: string, suffix: string)
    ensures var s := head + " " + mon + " " + day + sep + year + suffix;
      |head| <= |s| && s[..|head|] == head
  {
    var s := head + " " + mon + " " + day + sep + year + suffix;
    assert forall k :: 0 <= k < |head| ==> s[k] == head[k];
  }

  /** No `as on` before `p` in a head of the title means no match of the pattern there. */
  lemma NoMatchBefore(head: string, s: string, p: nat)
    requires p + 5 <= |head| <= |s| && s[..|head|] == head
    requires forall q :: 0 <= q < p ==> !AsOnAt(head, q)
    ensures forall q :: 0 <= q < p ==> TitleFieldsAt(s, q).None?
  {
    forall q | 0 <= q < p ensures TitleFieldsAt(s, q).None? {
      NoEarlierAsOn(head, s, q);
    }
  }

  /** The title is read from the first match of the pattern. */
  lemma TitleReadAt(s: string, p: nat, f: TitleFields)
    requires TitleFieldsAt(s, p) == Some(f) && forall q :: 0 <= q < p ==> TitleFieldsAt(s, q).None?
    ensures ExtractDateFromTitle(s)
         == match MonthNumber(f.month)
            case None => None
            case Some(m) => MakeDate(f.year, m, f.day)
  {
    FindTitleIs(s, p);
  }

  /** Whether `as on` starts at `q` depends only on the five characters from `q`. */
  lemma NoEarlierAsOn(head: string, s: string, q: nat)
    requires q + 5 <= |head| <= |s| && s[..|head|] == head && !AsOnAt(head, q)
    ensures !AsOnAt(s, q)
  {
    assert forall k :: q <= k < q + 5 ==> s[k] == s[..|head|][k];
  }

  lemma PhraseMatchesAt(prefix: string, lead: string, mon: string, day: string, sep: string, year: string, suffix: string)
    requires AsOnAt(lead, 0) && |lead| == 5
    requires sep == ", " || sep == " "
    requires |mon| >= 1 && forall k :: 0 <= k < |mon| ==> IsLetter(mon[k])
    requires 1 <= |day| <= 2 && AllDigits(day) && |year| == 4 && AllDigits(year)
    ensures TitleFieldsAt(prefix + lead + " " + mon + " " + day + sep + year + suffix, |prefix|)
         == Some(TitleFields(mon, DigitsValue(day), DigitsValue(year)))
  {
    var phrase := " " + mon + " " + day + sep + year;
    var s := prefix + lead + " " + mon + " " + day + sep + year + suffix;
    var p := |prefix|;
    TitlePieces(prefix, lead, phrase, suffix, s);
    assert AsOnAt(s, p);
    FieldsOfPhrase(s, p + 5, mon, day, sep, year);
  }

  /** Where the lead and the phrase sit in a title `prefix + lead + phrase + suffix`. */
  lemma TitlePieces(prefix: string, lead: string, phrase: string, suffix: string, s: string)
    requires |lead| == 5 && s == prefix + lead + phrase + suffix
    ensures var p := |prefix|;
      && s[p] == lead[0] && s[p + 1] == lead[1] && s[p + 2] == lead[2] && s[p + 3] == lead[3] && s[p + 4] == lead[4]
      && s[p + 5..p + 5 + |phrase|] == phrase
  {
  }

  /** A match at `p` with none before it is the one `FindTitle` reports. */
  lemma FindTitleIs(s: string, p: nat)
    requires TitleFieldsAt(s, p).Some? && forall q :: 0 <= q < p ==> TitleFieldsAt(s, q).None?
    ensures FindTitle(s, 0) == Some(p)
  {
    match FindTitle(s, 0)
    case None =>
    case Some(v) =>
  }

  /**
   * A title holding the phrase `as on Mon DD, YYYY` after a prefix in which no earlier
   * `as on` starts yields exactly that date, whatever follows.
   */
  lemma TitleRoundTrip(prefix: string, d: Date, suffix: string)
    requires IsValid(d)
    requires forall q :: 0 <= q < |prefix| ==> !AsOnAt(prefix + "as on", q)
    ensures ExtractDateFromTitle(prefix + TitlePhrase(d) + suffix) == Some(d)
  {
    var mon, dd, yy := MonthName(d.month), Pad2(d.day), Pad4(d.year);
    var t := prefix + "as on" + " " + mon + " " + dd + ", " + yy + suffix;
    assert prefix + TitlePhrase(d) + suffix == t;
    assert AsOnAt("as on", 0);
    TitleOfPhrase(prefix, "as on", mon, dd, ", ", yy, suffix);
    MonthNameRoundTrip(d.month);
    assert ExtractDateFromTitle(t) == MakeDate(d.year, d.month, d.day);
  }

  /**
   * A full month name is not an abbreviation, so `%b` refuses it and the result is `None`,
   * even when a well-formed phrase follows: only the first match is read.
   */
  lemma TitleRefusesFullMonthName(prefix: string, suffix: string)
    requires forall q :: 0 <= q < |prefix| ==> !AsOnAt(prefix + "as on", q)
    ensures ExtractDateFromTitle(prefix + "as on" + " " + "December" + " " + "05" + ", " + "2025" + suffix) == None
  {
    assert AsOnAt("as on", 0);
    TitleOfPhrase(prefix, "as on", "December", "05", ", ", "2025", suffix);
  }

  /** The match ignores letter case, needs no comma and accepts a one-digit day. */
  lemma TitleIgnoresCase(prefix: string, suffix: string)
    requires forall q :: 0 <= q < |prefix| ==> !AsOnAt(prefix + "AS ON", q)
    ensures ExtractDateFromTitle(prefix + "AS ON" + " " + "dec" + " " + "5" + " " + "2025" + suffix)
         == Some(Date(2025, 12, 5))
  {
    assert AsOnAt("AS ON", 0);
    TitleOfPhrase(prefix, "AS ON", "dec", "5", " ", "2025", suffix);
    assert SpellsAbbreviation("dec", MonthAbbreviations[11]);
    MonthNumberOfSpelling("dec", 12);
    FourDigitsValue("2025");
    assert DigitsValue("2025") == 2025;
    assert DigitsValue("5") == 5 by { assert "5"[..0] == []; }
    assert IsValid(Date(2025, 12, 5));
  }

  /**
   * The lead of NSE's title row, up to its `as on`:
   * "Participant wise Open Interest (no. of contracts) in Equity Derivatives ".
   */
  const TitleLead := LeadFront + LeadMiddle + LeadBack
  const LeadFront := "Participant " + "wise " + "Open " + "Interest "
  const LeadMiddle := "(no. " + "of " + "contracts) "
  const LeadBack := "in " + "Equity " + "Derivatives "

  /** No `as on` starts inside the lead. */
  lemma TitleLeadHasNoAsOn()
    ensures forall q :: 0 <= q < |TitleLead| ==> !AsOnAt(TitleLead + "as on", q)
  {
    PiecesHaveNoAsOn(LeadBack, "as on", 0);
    PiecesHaveNoAsOn(LeadMiddle, LeadBack + "as on", |LeadBack|);
    PiecesHaveNoAsOn(LeadFront, LeadMiddle + LeadBack + "as on", |LeadMiddle| + |LeadBack|);
    assert LeadFront + (LeadMiddle + LeadBack + "as on") == TitleLead + "as on";
  }

  /** Each piece of the lead starts no `as on` ahead of whatever follows it. */
  lemma PiecesHaveNoAsOn(piece: string, rest: string, n: nat)
    requires piece == LeadFront || piece == LeadMiddle || piece == LeadBack
    requires forall q :: 0 <= q < n ==> !AsOnAt(rest, q)
    ensures forall q :: 0 <= q < |piece| + n ==> !AsOnAt(piece + rest, q)
  {
    var tail := rest;
    var m := n;
    if piece == LeadFront {
      WordHasNoAsOn("Interest ", tail, m);
      tail, m := "Interest " + tail, m + 9;
      WordHasNoAsOn("Open ", tail, m);
      tail, m := "Open " + tail, m + 5;
      WordHasNoAsOn("wise ", tail, m);
      tail, m := "wise " + tail, m + 5;
      WordHasNoAsOn("Participant ", tail, m);
      tail, m := "Participant " + tail, m + 12;
      assert tail == piece + rest;
    } else if piece == LeadMiddle {
      WordHasNoAsOn("contracts) ", tail, m);
      tail, m := "contracts) " + tail, m + 11;
      WordHasNoAsOn("of ", tail, m);
      tail, m := "of " + tail, m + 3;
      WordHasNoAsOn("(no. ", tail, m);
      tail, m := "(no. " + tail, m + 5;
      assert tail == piece + rest;
    } else {
      WordHasNoAsOn("Derivatives ", tail, m);
      tail, m := "Derivatives " + tail, m + 12;
      WordHasNoAsOn("Equity ", tail, m);
      tail, m := "Equity " + tail, m + 7;
      WordHasNoAsOn("in ", tail, m);
      tail, m := "in " + tail, m + 3;
      assert tail == piece + rest;
    }
  }

  /**
   * A word whose only space ends it, and which does not end in `as`, starts no `as on`
   * ahead of the text that follows it.
   */
  lemma WordHasNoAsOn(w: string, rest: string, n: nat)
    requires |w| >= 1 && w[|w| - 1] == ' ' && forall k :: 0 <= k < |w| - 1 ==> w[k] != ' '
    requires !(|w| >= 3 && (w[|w| - 3] == 'a' || w[|w| - 3] == 'A') && (w[|w| - 2] == 's' || w[|w| - 2] == 'S'))
    requires forall q :: 0 <= q < n ==> !AsOnAt(rest, q)
    ensures forall q :: 0 <= q < |w| + n ==> !AsOnAt(w + rest, q)
  {
    var s := w + rest;
    forall q | 0 <= q < |w| + n ensures !AsOnAt(s, q) {
      if q >= |w| {
        assert AsOnAt(s, q) ==> AsOnAt(rest, q - |w|);
      } else if q + 2 < |w| - 1 {
        assert s[q + 2] == w[q + 2];
      } else if q + 2 >= |w| {
        if q == |w| - 1 {
          assert s[q] == ' ';
        } else {
          assert s[q + 1] == ' ';
        }
      }
    }
  }

  /** The title row NSE publishes, `... Equity Derivatives as on Dec 05, 2025`, reads as 5 December 2025. */
  lemma DocumentedTitle()
    ensures ExtractDateFromTitle(TitleLead + "as on Dec 05, 2025") == Some(Date(2025, 12, 5))
  {
    TitleLeadHasNoAsOn();
    TitleRoundTrip(TitleLead, Date(2025, 12, 5), "");
    PhraseOfDecember5();
    assert TitleLead + TitlePhrase(Date(2025, 12, 5)) + "" == TitleLead + "as on Dec 05, 2025";
  }

  lemma PhraseOfDecember5()
    ensures TitlePhrase(Date(2025, 12, 5)) == "as on Dec 05, 2025"
  {
    assert MonthName(12) == "Dec";
    assert Pad2(5) == "05";
    assert Pad4(2025) == "2025";
  }

  // ---------------------------------------------------------------------------
  // `read_file_smart` and `peek_file_for_date`: which header row names the columns and
  // where the date comes from. The file is abstract: each read is an input.
  // ---------------------------------------------------------------------------

  /** One read of the file: its result, or an exception. */
  datatype Read<T> = Raises | Reads(value: T)

  /**
   * A table as one read yields it: the column labels as written in the header row, and
   * the cells of the column whose label strips to `Date` (empty when there is none).
   */
  datatype Sheet = Sheet(columns: seq<string>, dateCells: seq<DateCell>)

  /**
   * An uploaded file: its name, and what each read of it gives: the first cell of the
   * first row (`None` when the file has no rows), the table with the header on row 0,
   * and the table with the header on row 1.
   */
  datatype UploadedFile = UploadedFile(name: string, titleCell: Read<Option<string>>, header0: Read<Sheet>, header1: Read<Sheet>)

  /**
   * The table `read_file_smart` returns, as far as its columns go: the column labels, and
   * the date written into every row of the `Date` column (`None` when the column is kept
   * as read).
   */
  datatype Frame = Frame(columns: seq<string>, dateFill: Option<Date>)

  /** `name.endswith('.csv')`: case-sensitive, so `.CSV` is read as Excel. */
  predicate IsCsv(name: string) {
    EndsWith(name, ".csv")
  }

  /** `df.columns.str.strip()`. */
  function StripAll(columns: seq<string>): (r: seq<string>)
    ensures |r| == |columns| && forall k :: 0 <= k < |r| ==> r[k] == Strip(columns[k])
  {
    seq(|columns|, k requires 0 <= k < |columns| => Strip(columns[k]))
  }

  /** `df.rename(columns={from: to})`: every column labelled `from` is relabelled. */
  function Rename(columns: seq<string>, from: string, to: string): (r: seq<string>)
    ensures |r| == |columns|
    ensures forall k :: 0 <= k < |r| ==> r[k] == if columns[k] == from then to else columns[k]
  {
    seq(|columns|, k requires 0 <= k < |columns| => if columns[k] == from then to else columns[k])
  }

  /** `df['Date'] = value`: the column is overwritten when present and appended otherwise. */
  function WithDate(columns: seq<string>): (r: seq<string>)
    ensures "Date" in r
    ensures "Date" in columns ==> r == columns
    ensures "Date" !in columns ==> r == columns + ["Date"]
  {
    if "Date" in columns then columns else columns + ["Date"]
  }

  /** The date of the title row of a CSV file, when it reads and yields one. */
  function TitleDate(file: UploadedFile): (r: Option<Date>)
    ensures r.Some? ==> IsCsv(file.name) && file.titleCell.Reads? && file.titleCell.value.Some?
                        && r == ExtractDateFromTitle(file.titleCell.value.value)
  {
    if IsCsv(file.name) && file.titleCell.Reads? && file.titleCell.value.Some? then
      ExtractDateFromTitle(file.titleCell.value.value)
    else None
  }

  /** The date `read_file_smart` would stamp on the rows: the title's, else the file name's. */
  function ExtractedDate(file: UploadedFile): Option<Date> {
    if TitleDate(file).Some? then TitleDate(file) else ExtractDateFromFilename(file.name)
  }

  /** `read_file_smart` prefers the title row; the file name is read only when the title yields nothing. */
  lemma ExtractedDateFromTitleFirst(file: UploadedFile)
    ensures TitleDate(file).Some? ==> ExtractedDate(file) == TitleDate(file)
    ensures TitleDate(file).None? ==> ExtractedDate(file) == ExtractDateFromFilename(file.name)
    ensures ExtractedDate(file).Some? ==> IsValid(ExtractedDate(file).value)
  {
  }

  /** The CSV title read raised: `read_file_smart` and `peek_file_for_date` give up. */
  predicate TitleRaises(file: UploadedFile) {
    IsCsv(file.name) && file.titleCell.Raises?
  }

  /** Every label neither starts nor ends with whitespace, so stripping it changes nothing. */
  predicate AllStripped(columns: seq<string>) {
    forall k :: 0 <= k < |columns| ==> IsStripped(columns[k])
  }

  lemma StripAllIsStripped(columns: seq<string>)
    ensures AllStripped(StripAll(columns))
  {
    forall k | 0 <= k < |columns| ensures IsStripped(StripAll(columns)[k]) {
      StripEnds(columns[k]);
    }
  }

  lemma WithDateKeepsStripped(columns: seq<string>)
    requires AllStripped(columns)
    ensures AllStripped(WithDate(columns))
  {
    assert IsStripped("Date");
  }

  lemma RenameToDateKeepsStripped(columns: seq<string>, from: string)
    requires AllStripped(columns)
    ensures AllStripped(Rename(columns, from, "Date"))
  {
    assert IsStripped("Date");
  }

  /**
   * `read_file_smart`. The title date (CSV only) is read first and the file name's date is
   * the fallback. A table whose row-0 header has a `Date` column is returned as read;
   * otherwise the row-1 header decides. Any read that raises gives `None`.
   */
  method ReadFileSmart(file: UploadedFile) returns (r: Option<Frame>)
    ensures r.Some? ==> "Date" in r.value.columns && AllStripped(r.value.columns)
    ensures TitleRaises(file) || file.header0.Raises? ==> r.None?
    ensures !TitleRaises(file) && file.header0.Reads? && "Date" in StripAll(file.header0.value.columns)
            ==> r == Some(Frame(StripAll(file.header0.value.columns), None))
    ensures !TitleRaises(file) && file.header0.Reads? && "Date" !in StripAll(file.header0.value.columns)
            ==> RowOneOutcome(file.header1, ExtractedDate(file), r)
  {
    var extracted: Option<Date> := None;
    if IsCsv(file.name) {
      match file.titleCell
      case Raises =>
        return None;
      case Reads(cell) =>
        if cell.Some? {
          extracted := ExtractDateFromTitle(cell.value);
        }
    }
    if extracted.None? {
      extracted := ExtractDateFromFilename(file.name);
    }
    assert extracted == ExtractedDate(file);

    if file.header0.Raises? {
      return None;
    }
    var columns := StripAll(file.header0.value.columns);
    if "Date" in columns {
      StripAllIsStripped(file.header0.value.columns);
      return Some(Frame(columns, None));
    }
    r := ReadRowOneHeader(file.header1, extracted);
  }

  /**
   * What the row-1 header gives: `None` when the read raises; with `Client Type` present,
   * the extracted date filling a `Date` column, or, without a date, the column just before
   * `Client Type` renamed to `Date`; failing both, the table as read if it has a `Date`
   * column, and `None` if not.
   */
  predicate RowOneOutcome(read: Read<Sheet>, extracted: Option<Date>, r: Option<Frame>) {
    match read
    case Raises => r.None?
    case Reads(sheet) =>
      var c := StripAll(sheet.columns);
      if "Client Type" in c && extracted.Some? then
        r == Some(Frame(WithDate(c), extracted))
      else if "Client Type" in c && 0 < IndexOf(c, "Client Type") then
        r == Some(Frame(Rename(c, c[IndexOf(c, "Client Type") - 1], "Date"), None))
      else if "Date" in c then r == Some(Frame(c, None))
      else r.None?
  }

  /** The second attempt of `read_file_smart`: the header on row 1. */
  method ReadRowOneHeader(read: Read<Sheet>, extracted: Option<Date>) returns (r: Option<Frame>)
    ensures r.Some? ==> "Date" in r.value.columns && AllStripped(r.value.columns)
    ensures RowOneOutcome(read, extracted, r)
  {
    if read.Raises? {
      return None;
    }
    var columns := StripAll(read.value.columns);
    StripAllIsStripped(read.value.columns);
    if "Client Type" in columns {
      if extracted.Some? {
        WithDateKeepsStripped(columns);
        return Some(Frame(WithDate(columns), extracted));
      } else {
        var clientIndex := IndexOf(columns, "Client Type");
        if clientIndex > 0 {
          var renamed := Rename(columns, columns[clientIndex - 1], "Date");
          assert renamed[clientIndex - 1] == "Date";
          RenameToDateKeepsStripped(columns, columns[clientIndex - 1]);
          return Some(Frame(renamed, None));
        }
      }
    }
    if "Date" in columns {
      return Some(Frame(columns, None));
    }
    return None;
  }

  /** Where `peek_file_for_date` found its date. */
  datatype DateSource = FromFilename | FromTitleRow | FromDateColumn

  /** The first cell that parses day-first: `to_datetime(..., errors='coerce').dropna().iloc[0]`. */
  function FirstValidDate(cells: seq<DateCell>): (r: Option<Date>)
    ensures r.Some? ==> IsValid(r.value)
                        && exists k :: 0 <= k < |cells| && ToDatetime(cells[k]) == r
                                       && forall j :: 0 <= j < k ==> ToDatetime(cells[j]).None?
    ensures r.None? ==> forall k :: 0 <= k < |cells| ==> ToDatetime(cells[k]).None?
  {
    if cells == [] then None
    else if ToDatetime(cells[0]).Some? then ToDatetime(cells[0])
    else
      var r := FirstValidDate(cells[1..]);
      assert forall k :: 1 <= k < |cells| ==> cells[1..][k - 1] == cells[k];
      r
  }

  /** The date in the `Date` column of a table read with `nrows=5`: among its first five rows. */
  function DateColumnDate(sheet: Sheet): (r: Option<Date>)
    ensures "Date" !in StripAll(sheet.columns) ==> r.None?
    ensures r.Some? ==> IsValid(r.value)
                        && exists k :: 0 <= k < 5 && k < |sheet.dateCells| && ToDatetime(sheet.dateCells[k]) == r
                                       && forall j :: 0 <= j < k ==> ToDatetime(sheet.dateCells[j]).None?
    ensures r.None? && "Date" in StripAll(sheet.columns)
            ==> forall k :: 0 <= k < 5 && k < |sheet.dateCells| ==> ToDatetime(sheet.dateCells[k]).None?
  {
    if "Date" in StripAll(sheet.columns) then
      var n := if |sheet.dateCells| < 5 then |sheet.dateCells| else 5;
      var head := sheet.dateCells[..n];
      assert forall k :: 0 <= k < n ==> head[k] == sheet.dateCells[k];
      FirstValidDate(head)
    else None
  }

  /**
   * `peek_file_for_date`: the file name's date first; then, for a CSV file, the title
   * row's; then the first valid date in the first five rows of a `Date` column, with the
   * header on row 0 and then (CSV only) on row 1. Nothing found, or a read that raises,
   * gives `(None, None)`.
   */
  method PeekFileForDate(file: UploadedFile) returns (date: Option<Date>, source: Option<DateSource>)
    ensures source.Some? <==> date.Some?
    ensures date.Some? ==> IsValid(date.value)
    ensures ExtractDateFromFilename(file.name).Some?
            ==> date == ExtractDateFromFilename(file.name) && source == Some(FromFilename)
    ensures ExtractDateFromFilename(file.name).None? && TitleDate(file).Some?
            ==> date == TitleDate(file) && source == Some(FromTitleRow)
    ensures ExtractDateFromFilename(file.name).None? && TitleDate(file).None? && !TitleRaises(file)
            ==> match file.header0
                case Raises => date.None?
                case Reads(s0) =>
                  if DateColumnDate(s0).Some? then date == DateColumnDate(s0) && source == Some(FromDateColumn)
                  else if !IsCsv(file.name) then date.None?
                  else match file.header1
                    case Raises => date.None?
                    case Reads(s1) => date == DateColumnDate(s1) && (date.Some? ==> source == Some(FromDateColumn))
    ensures TitleRaises(file) && ExtractDateFromFilename(file.name).None? ==> date.None?
  {
    var fromName := ExtractDateFromFilename(file.name);
    if fromName.Some? {
      return fromName, Some(FromFilename);
    }
    if IsCsv(file.name) {
      match file.titleCell
      case Raises =>
        return None, None;
      case Reads(cell) =>
        if cell.Some? {
          var fromTitle := ExtractDateFromTitle(cell.value);
          if fromTitle.Some? {
            return fromTitle, Some(FromTitleRow);
          }
        }
    }
    if file.header0.Raises? {
      return None, None;
    }
    var fromColumn := DateColumnDate(file.header0.value);
    if fromColumn.Some? {
      return fromColumn, Some(FromDateColumn);
    }
    if IsCsv(file.name) {
      if file.header1.Raises? {
        return None, None;
      }
      fromColumn := DateColumnDate(file.header1.value);
      if fromColumn.Some? {
        return fromColumn, Some(FromDateColumn);
      }
    }
    return None, None;
  }
}
