/**
 * The "Submit & Process" handler of app.py: it parses the upload's dates day-first,
 * refuses an upload that repeats a stored date, runs `process_data` on the uploaded
 * rows alone, appends the stored table unchanged, sorts, and saves the result both to
 * the database and to the session.
 */
module Submit {
  import opened Wrappers
  import opened Text
  import opened Dates
  import opened Ordering
  import opened Calculations

  /** What `read_file_smart` gave for the uploaded file, as far as the handler is concerned. */
  datatype Upload = NoFile | Unreadable | Parsed(rows: seq<RawRow>)

  /** The message the handler ends with. */
  datatype Outcome =
    | PleaseUpload                      // "Please upload a file first."
    | FormatError                       // "Could not find 'Date' or 'Client Type' columns."
    | DuplicateDates(dates: seq<Date>)  // the upload dates already stored, then `st.stop()`
    | Saved(dateCount: nat)             // "Data for N date(s) processed and saved"

  /** `raw_df['Date'] = pd.to_datetime(raw_df['Date'], dayfirst=True, errors='coerce')`. */
  function CoerceDates(raw: seq<RawRow>): (r: seq<RawRow>)
    ensures |r| == |raw|
    ensures forall k :: 0 <= k < |raw| ==> r[k] == raw[k].(date := Coerce(raw[k].date))
  {
    seq(|raw|, k requires 0 <= k < |raw| => raw[k].(date := Coerce(raw[k].date)))
  }

  /** The distinct elements of `s` in order of first appearance: `Series.unique()`. */
  function Unique(s: seq<Date>): (r: seq<Date>)
    ensures NoDuplicates(r)
    ensures forall d :: d in r <==> d in s
    ensures |r| <= |s|
  {
    if s == [] then []
    else
      var front := Unique(s[..|s| - 1]);
      assert s == s[..|s| - 1] + [s[|s| - 1]];
      if s[|s| - 1] in front then front else front + [s[|s| - 1]]
  }

  /** The dates of the cells that parse: `raw_df['Date'].dropna()`. */
  function ParsedDates(raw: seq<RawRow>): (r: seq<Date>)
    ensures forall d :: d in r <==> exists k :: 0 <= k < |raw| && ToDatetime(raw[k].date) == Some(d)
  {
    if raw == [] then []
    else
      var rest := ParsedDates(raw[1..]);
      assert forall k :: 1 <= k < |raw| ==> raw[1..][k - 1] == raw[k];
      match ToDatetime(raw[0].date)
      case Some(d) => [d] + rest
      case None => rest
  }

  /** `new_dates`: the distinct dates of the upload that parse day-first. */
  function UploadDates(raw: seq<RawRow>): (r: seq<Date>)
    ensures NoDuplicates(r)
    ensures forall d :: d in r <==> exists k :: 0 <= k < |raw| && ToDatetime(raw[k].date) == Some(d)
  {
    Unique(ParsedDates(raw))
  }

  /** `unique()` keeps first appearances: a new date goes at the end, a repeated one adds nothing. */
  lemma UniqueSnoc(s: seq<Date>, d: Date)
    ensures Unique(s + [d]) == if d in s then Unique(s) else Unique(s) + [d]
  {
    assert (s + [d])[..|s|] == s;
  }

  /** The dates of a stored table. */
  function StoredDates(table: seq<ProcessedRow>): (r: set<Date>)
    ensures forall d :: d in r <==> exists k :: 0 <= k < |table| && table[k].row.date == d
  {
    set k | 0 <= k < |table| :: table[k].row.date
  }

  /** `[d for d in new_dates if d in existing_dates]`. */
  function Clashes(newDates: seq<Date>, stored: set<Date>): (r: seq<Date>)
    ensures forall d :: d in r <==> d in newDates && d in stored
    ensures |r| <= |newDates|
  {
    if newDates == [] then []
    else
      var rest := Clashes(newDates[1..], stored);
      assert forall d :: d in newDates <==> d == newDates[0] || d in newDates[1..];
      if newDates[0] in stored then [newDates[0]] + rest else rest
  }

  /** The clashes keep the order of `new_dates`: the list is filtered piece by piece. */
  lemma {:induction false} ClashesAppend(a: seq<Date>, b: seq<Date>, stored: set<Date>)
    ensures Clashes(a + b, stored) == Clashes(a, stored) + Clashes(b, stored)
    ensures forall d :: Clashes([d], stored) == if d in stored then [d] else []
  {
    ClashesConcat(a, b, stored);
    forall d ensures Clashes([d], stored) == if d in stored then [d] else [] {
      ClashesCons(d, [], stored);
      assert [d] + [] == [d];
    }
  }

  lemma {:induction false} ClashesConcat(a: seq<Date>, b: seq<Date>, stored: set<Date>)
    ensures Clashes(a + b, stored) == Clashes(a, stored) + Clashes(b, stored)
  {
    if a == [] {
      assert a + b == b;
    } else {
      var head := if a[0] in stored then [a[0]] else [];
      calc {
        Clashes(a + b, stored);
        { assert a + b == [a[0]] + (a[1..] + b); }
        Clashes([a[0]] + (a[1..] + b), stored);
        { ClashesCons(a[0], a[1..] + b, stored); }
        head + Clashes(a[1..] + b, stored);
        { ClashesConcat(a[1..], b, stored); }
        head + (Clashes(a[1..], stored) + Clashes(b, stored));
        (head + Clashes(a[1..], stored)) + Clashes(b, stored);
        { ClashesCons(a[0], a[1..], stored); assert [a[0]] + a[1..] == a; }
        Clashes(a, stored) + Clashes(b, stored);
      }
    }
  }

  /** The first date of the list is kept exactly when it is stored. */
  lemma ClashesCons(d: Date, rest: seq<Date>, stored: set<Date>)
    ensures Clashes([d] + rest, stored) == (if d in stored then [d] else []) + Clashes(rest, stored)
  {
    assert ([d] + rest)[1..] == rest;
  }

  /** The table saved after a successful submit: the processed upload first, then the stored rows, sorted. */
  function Merge(processed: seq<ProcessedRow>, stored: seq<ProcessedRow>): seq<ProcessedRow> {
    SortBy(processed + stored, ProcessedKey)
  }

  /**
   * The application state the handler touches: the table in the database (`load_database`
   * and `save_database`, a missing file or an empty sheet being the empty table) and the table
   * of the session (`st.session_state['data']`).
   */
  class App {
    var database: seq<ProcessedRow>
    var data: seq<ProcessedRow>

    constructor (stored: seq<ProcessedRow>)
      ensures database == stored && data == stored
    {
      database := stored;
      data := stored;
    }

    /**
     * The click on "Submit & Process" with spot price `spot`. `storeRead` says whether
     * the stored table could be read: on the cloud store, `load_from_google_sheets`
     * returns `None` when it cannot reach the sheet, and the handler then goes on with
     * an empty table. An upload with a date already in the table read is refused with
     * the list of such dates, and nothing is saved. Otherwise the uploaded rows alone
     * are processed, the table read is appended as it is, and the sorted result
     * becomes both the database and the session table; after a failed read that
     * replaces the stored rows with the upload.
     */
    method SubmitAndProcess(upload: Upload, spot: real, storeRead: bool) returns (outcome: Outcome)
      modifies this
      ensures upload.NoFile? ==> outcome == PleaseUpload && unchanged(this)
      ensures upload.Unreadable? ==> outcome == FormatError && unchanged(this)
      ensures upload.Parsed? ==>
        var existing := if storeRead then old(database) else [];
        var newDates := UploadDates(upload.rows);
        var clashes := Clashes(newDates, StoredDates(existing));
        if clashes != [] then
          outcome == DuplicateDates(clashes) && unchanged(this)
        else
          && outcome == Saved(|newDates|)
          && database == Merge(ProcessData(upload.rows, spot), existing)
          && data == database
      ensures upload.Parsed? && !storeRead ==>
        && outcome == Saved(|UploadDates(upload.rows)|)
        && database == ProcessData(upload.rows, spot)
        && data == database
    {
      if upload.NoFile? {
        return PleaseUpload;
      }
      if upload.Unreadable? {
        return FormatError;
      }
      var raw := CoerceDates(upload.rows);
      CoerceKeepsDates(upload.rows);
      var newDates := UploadDates(raw);
      assert newDates == UploadDates(upload.rows);

      var existing := if storeRead then database else [];
      if existing != [] {
        var clashes := Clashes(newDates, StoredDates(existing));
        if clashes != [] {
          return DuplicateDates(clashes);
        }
      } else {
        ClashesWithNothing(newDates);
      }

      var processed := ProcessData(raw, spot);
      CoerceKeepsProcessData(upload.rows, spot);
      assert processed == ProcessData(upload.rows, spot);
      var combined: seq<ProcessedRow>;
      if existing != [] {
        combined := processed + existing;
      } else {
        combined := processed;
        assert combined + existing == combined;
        MergeIntoEmpty(upload.rows, spot);
      }
      combined := SortBy(combined, ProcessedKey);
      assert combined == Merge(ProcessData(upload.rows, spot), existing);

      database := combined;
      data := combined;
      return Saved(|newDates|);
    }
  }

  // ---------------------------------------------------------------------------
  // What the handler's parse of the dates does to the rest of the pipeline.
  // ---------------------------------------------------------------------------

  lemma {:induction false} CleanOfCoerced(raw: seq<RawRow>)
    ensures Clean(CoerceDates(raw)) == Clean(raw)
  {
    if raw != [] {
      CleanOfCoerced(raw[1..]);
      CoerceIdempotent(raw[0].date);
      assert CoerceDates(raw)[1..] == CoerceDates(raw[1..]);
    }
  }

  /** `process_data` parses the dates again; on the already coerced column that second parse changes nothing. */
  lemma CoerceKeepsProcessData(raw: seq<RawRow>, spot: real)
    ensures ProcessData(CoerceDates(raw), spot) == ProcessData(raw, spot)
  {
    CleanOfCoerced(raw);
  }

  lemma {:induction false} ParsedDatesOfCoerced(raw: seq<RawRow>)
    ensures ParsedDates(CoerceDates(raw)) == ParsedDates(raw)
  {
    if raw != [] {
      ParsedDatesOfCoerced(raw[1..]);
      CoerceIdempotent(raw[0].date);
      assert CoerceDates(raw)[1..] == CoerceDates(raw[1..]);
    }
  }

  /** The upload dates read from the coerced column are the ones read from the upload. */
  lemma CoerceKeepsDates(raw: seq<RawRow>)
    ensures UploadDates(CoerceDates(raw)) == UploadDates(raw)
  {
    ParsedDatesOfCoerced(raw);
  }

  /** With an empty database nothing clashes: skipping the check there loses nothing. */
  lemma ClashesWithNothing(newDates: seq<Date>)
    ensures Clashes(newDates, StoredDates([])) == []
  {
  }

  /** The success message counts the distinct dates of the upload that parse, at most one per row. */
  lemma UploadDatesAtMostRows(raw: seq<RawRow>)
    ensures |UploadDates(raw)| <= |raw|
  {
    ParsedDatesAtMostRows(raw);
  }

  lemma {:induction false} ParsedDatesAtMostRows(raw: seq<RawRow>)
    ensures |ParsedDates(raw)| <= |raw|
  {
    if raw != [] {
      ParsedDatesAtMostRows(raw[1..]);
    }
  }

  // ---------------------------------------------------------------------------
  // The merged table.
  // ---------------------------------------------------------------------------

  /**
   * The saved table holds exactly the processed upload and the stored rows, each row as
   * it was (the stored ones are not recomputed), in canonical order.
   */
  lemma MergeKeepsEveryRow(processed: seq<ProcessedRow>, stored: seq<ProcessedRow>)
    ensures |Merge(processed, stored)| == |processed| + |stored|
    ensures multiset(Merge(processed, stored)) == multiset(processed) + multiset(stored)
    ensures Sorted(Merge(processed, stored), ProcessedKey)
    ensures forall p :: p in stored ==> p in Merge(processed, stored)
  {
    var m := Merge(processed, stored);
    forall p | p in stored ensures p in m {
      assert p in multiset(stored);
      assert p in multiset(m);
    }
  }

  lemma ProcessedIsSorted(raw: seq<RawRow>, spot: real)
    ensures Sorted(ProcessData(raw, spot), ProcessedKey)
  {
    var t := StampSpot(SortBy(Clean(raw), RowKey), spot);
    StampSpotKeepsOrder(SortBy(Clean(raw), RowKey), spot);
    var out := Derive(t);
    forall i, j | 0 <= i < j < |out| ensures KeyLe(ProcessedKey(out[i]), ProcessedKey(out[j])) {
      assert out[i].row == t[i] && out[j].row == t[j];
    }
  }

  /** With an empty database the saved table is exactly what `process_data` returned. */
  lemma MergeIntoEmpty(raw: seq<RawRow>, spot: real)
    ensures Merge(ProcessData(raw, spot), []) == ProcessData(raw, spot)
  {
    var out := ProcessData(raw, spot);
    ProcessedIsSorted(raw, spot);
    assert out + [] == out;
    SortSortedIsIdentity(out, ProcessedKey);
  }

  /**
   * An upload with one row per client type (a single day's report) is saved with every
   * difference, percent change and ROC column null, whatever the database holds: its rows
   * are never differenced against the stored ones.
   */
  lemma UploadedRowsHaveNoChange(raw: seq<RawRow>, spot: real, stored: seq<ProcessedRow>)
    requires DistinctRawClients(raw)
    ensures forall p :: p in Merge(ProcessData(raw, spot), stored) && p !in stored ==> HasNoChange(p.derived)
  {
    var out := ProcessData(raw, spot);
    var m := Merge(out, stored);
    OneRowPerClientHasNoChange(raw, spot);
    forall p | p in m && p !in stored ensures HasNoChange(p.derived) {
      assert p in multiset(m);
      assert p in multiset(out);
      var i :| 0 <= i < |out| && out[i] == p;
    }
  }

  /**
   * The columns stored with a newly saved row are not what `process_data` would compute
   * over the saved table: when the client has an older row below it, the recomputed
   * `NET CALL (CoC)` is a number, while the saved one is null.
   */
  lemma SavedColumnsAreNotRecomputed(raw: seq<RawRow>, spot: real, stored: seq<ProcessedRow>, i: nat, j: nat)
    requires DistinctRawClients(raw)
    requires var m := Merge(ProcessData(raw, spot), stored);
      && i < j < |m| && m[i] !in stored
      && m[j].row.clientType == m[i].row.clientType
      && forall k :: i < k < j ==> m[k].row.clientType != m[i].row.clientType
    ensures var m := Merge(ProcessData(raw, spot), stored);
      && m[i].derived.options.netCallCoC.None?
      && DerivedAt(Rows(m), i).options.netCallCoC.Some?
  {
    var m := Merge(ProcessData(raw, spot), stored);
    UploadedRowsHaveNoChange(raw, spot, stored);
    assert m[i] in m;
    OptionChangeAgainstOlderRow(Rows(m), i, j);
  }
}
