/**
 * The analytics engine `process_data` (utils/calculations.py): it cleans and sorts a
 * table of raw participant rows, stamps the spot price on the latest date, and derives
 * 24 columns from three pandas primitives: per-row formulas, a per-`Client Type`
 * "current minus next row of the same client" difference, and a per-`Date` share of
 * the column total. A row is a record; the table is a sequence of records in row order.
 */
module Calculations {
  import opened Wrappers
  import opened Text
  import opened Dates
  import opened Ordering

  /** The raw numeric columns of an upload, all contract counts. */
  datatype Positions = Positions(
    futureIndexLong: int, futureIndexShort: int,
    futureStockLong: int, futureStockShort: int,
    optionIndexCallLong: int, optionIndexPutLong: int,
    optionIndexCallShort: int, optionIndexPutShort: int,
    optionStockCallLong: int, optionStockPutLong: int,
    optionStockCallShort: int, optionStockPutShort: int,
    totalLongContracts: int, totalShortContracts: int)

  /** A row as uploaded: its `Date` cell is not parsed yet; `Nifty Spot` may be absent. */
  datatype RawRow = RawRow(date: DateCell, clientType: string, pos: Positions, niftySpot: Option<real>)

  /** A row whose `Date` parsed. */
  datatype Row = Row(date: Date, clientType: string, pos: Positions, niftySpot: Option<real>)

  /** A float64 result of pandas arithmetic: a finite value, NaN, or an infinity. */
  datatype Float = NaN | Finite(value: real) | PosInf | NegInf

  /** The columns of the OPTION section. */
  datatype OptionColumns = OptionColumns(
    absChangeCall: int, absChangePut: int, optionNet: int,
    netCallCoC: Option<int>, netPutCoC: Option<int>, netDiff: Option<int>, roc: Option<int>)

  /**
   * The columns of a futures section; the FUTURE INDEX section (`Future Net`, `Future ROC`,
   * `Fut Abs Chg Long`, ...) and the FUTURE STOCK section (`Stk Fut Net`, `Stk Fut ROC`, ...)
   * are the same formulas over different long and short counts.
   */
  datatype FuturesColumns = FuturesColumns(
    net: int, roc: Option<int>, absChgLong: Option<int>, absChgShort: Option<int>,
    lsRatio: real, longPct: Float, shortPct: Float)

  /** The derived columns of a row, section by section in the order `process_data` appends them. */
  datatype Derived = Derived(
    options: OptionColumns, indexFutures: FuturesColumns, stockFutures: FuturesColumns,
    niftyDiff: Option<real>, totalLongPct: Float, totalShortPct: Float)

  /** A row of the table `process_data` returns: the (stamped) raw row and its derived columns. */
  datatype ProcessedRow = ProcessedRow(row: Row, derived: Derived)

  function RowKey(r: Row): Key { Key(r.date, r.clientType) }

  function ProcessedKey(p: ProcessedRow): Key { RowKey(p.row) }

  function Rows(out: seq<ProcessedRow>): (rows: seq<Row>)
    ensures |rows| == |out| && forall i :: 0 <= i < |out| ==> rows[i] == out[i].row
  {
    seq(|out|, i requires 0 <= i < |out| => out[i].row)
  }

  // ---------------------------------------------------------------------------
  // Cleaning: `pd.to_datetime(df['Date'], dayfirst=True, errors='coerce')`, then
  // `dropna(subset=['Date'])`.
  // ---------------------------------------------------------------------------

  function Parse(x: RawRow): (r: Option<Row>)
    ensures r.Some? ==> r.value.clientType == x.clientType
  {
    match ToDatetime(x.date)
    case Some(d) => Some(Row(d, x.clientType, x.pos, x.niftySpot))
    case None => None
  }

  /** The rows whose date parses, in input order; the others are dropped and nothing is added. */
  function Clean(raw: seq<RawRow>): (rows: seq<Row>)
    ensures |rows| <= |raw|
    ensures forall k :: 0 <= k < |rows| ==> exists j :: 0 <= j < |raw| && Parse(raw[j]) == Some(rows[k])
    ensures forall j :: 0 <= j < |raw| && Parse(raw[j]).Some? ==> Parse(raw[j]).value in rows
    ensures |rows| == |raw| <==> forall j :: 0 <= j < |raw| ==> Parse(raw[j]).Some?
  {
    if raw == [] then []
    else
      var rest := Clean(raw[1..]);
      assert forall j :: 1 <= j < |raw| ==> raw[j] == raw[1..][j - 1];
      match Parse(raw[0])
      case Some(r) => [r] + rest
      case None => rest
  }

  /**
   * `dropna` works row by row: the rows kept from a concatenation are the rows kept from
   * each part, in order, and one row is kept, parsed, exactly when its date parses. So every
   * copy of a row is kept, and the order of the rows is kept.
   */
  lemma {:induction false} CleanIsRowByRow(a: seq<RawRow>, b: seq<RawRow>)
    ensures Clean(a + b) == Clean(a) + Clean(b)
    ensures forall x :: Clean([x]) == if Parse(x).Some? then [Parse(x).value] else []
  {
    CleanAppend(a, b);
    forall x ensures Clean([x]) == if Parse(x).Some? then [Parse(x).value] else [] {
      assert [x][1..] == [];
    }
  }

  lemma {:induction false} CleanAppend(a: seq<RawRow>, b: seq<RawRow>)
    ensures Clean(a + b) == Clean(a) + Clean(b)
  {
    if a == [] {
      assert a + b == b;
    } else {
      var x, t := a[0], a[1..];
      var h := if Parse(x).Some? then [Parse(x).value] else [];
      assert a == [x] + t;
      assert a + b == [x] + (t + b);
      calc {
        Clean(a + b);
        Clean([x] + (t + b));
        { CleanCons(x, t + b); }
        h + Clean(t + b);
        { CleanAppend(t, b); }
        h + (Clean(t) + Clean(b));
        (h + Clean(t)) + Clean(b);
        { CleanCons(x, t); }
        Clean([x] + t) + Clean(b);
        Clean(a) + Clean(b);
      }
    }
  }

  /** Cleaning a table with a first row `x`: that row's parse, if any, then the rest cleaned. */
  lemma CleanCons(x: RawRow, rest: seq<RawRow>)
    ensures Clean([x] + rest) == (if Parse(x).Some? then [Parse(x).value] else []) + Clean(rest)
  {
    assert ([x] + rest)[1..] == rest;
  }

  // ---------------------------------------------------------------------------
  // Spot price: `df.loc[df['Date'] == df['Date'].max(), 'Nifty Spot'] = spot`.
  // ---------------------------------------------------------------------------

  function LatestDate(rows: seq<Row>): (d: Date)
    requires rows != []
    ensures exists k :: 0 <= k < |rows| && rows[k].date == d
    ensures forall k :: 0 <= k < |rows| ==> !Before(d, rows[k].date)
  {
    if |rows| == 1 then rows[0].date
    else
      var m := LatestDate(rows[1..]);
      assert forall k :: 1 <= k < |rows| ==> rows[k] == rows[1..][k - 1];
      BeforeIsStrictTotal(m, rows[0].date, m);
      if Before(m, rows[0].date) then
        assert forall k :: 1 <= k < |rows| ==> !Before(rows[0].date, rows[k].date) by {
          forall k | 1 <= k < |rows| ensures !Before(rows[0].date, rows[k].date) {
            BeforeIsStrictTotal(m, rows[0].date, rows[k].date);
            BeforeIsStrictTotal(rows[k].date, m, rows[0].date);
          }
        }
        rows[0].date
      else m
  }

  /** No row of the table has a later date than row `i`. */
  predicate OnLatestDate(rows: seq<Row>, i: nat)
    requires i < |rows|
  {
    forall k :: 0 <= k < |rows| ==> !Before(rows[i].date, rows[k].date)
  }

  /**
   * Only `Nifty Spot` changes; it becomes `spot` on every row of the latest date and
   * stays as it was on every older row (an empty table stays empty).
   */
  function StampSpot(rows: seq<Row>, spot: real): (r: seq<Row>)
    ensures |r| == |rows|
    ensures forall i :: 0 <= i < |rows| ==> r[i].(niftySpot := rows[i].niftySpot) == rows[i]
    ensures forall i :: 0 <= i < |rows| && OnLatestDate(rows, i) ==> r[i].niftySpot == Some(spot)
    ensures forall i, k :: 0 <= i < |rows| && 0 <= k < |rows| && Before(rows[i].date, rows[k].date)
              ==> r[i].niftySpot == rows[i].niftySpot
  {
    if rows == [] then []
    else
      var latest := LatestDate(rows);
      assert forall i :: 0 <= i < |rows| && OnLatestDate(rows, i) ==> rows[i].date == latest by {
        forall i | 0 <= i < |rows| && OnLatestDate(rows, i) ensures rows[i].date == latest {
          var k :| 0 <= k < |rows| && rows[k].date == latest;
          BeforeIsStrictTotal(rows[i].date, latest, latest);
        }
      }
      seq(|rows|, i requires 0 <= i < |rows| =>
        if rows[i].date == latest then rows[i].(niftySpot := Some(spot)) else rows[i])
  }

  // ---------------------------------------------------------------------------
  // The per-group primitives: `groupby('Client Type')[col].shift(-1)` and `.diff(periods=-1)`.
  // ---------------------------------------------------------------------------

  function ClientTypes(rows: seq<Row>): (keys: seq<string>)
    ensures |keys| == |rows| && forall i :: 0 <= i < |rows| ==> keys[i] == rows[i].clientType
  {
    seq(|rows|, i requires 0 <= i < |rows| => rows[i].clientType)
  }

  /** The first position at or after `j` holding `c`, if any. */
  function FindFrom(keys: seq<string>, c: string, j: nat): (r: Option<nat>)
    requires j <= |keys|
    ensures r.Some? ==> j <= r.value < |keys| && keys[r.value] == c
                        && forall k :: j <= k < r.value ==> keys[k] != c
    ensures r.None? ==> forall k :: j <= k < |keys| ==> keys[k] != c
    decreases |keys| - j
  {
    if j == |keys| then None
    else if keys[j] == c then Some(j)
    else FindFrom(keys, c, j + 1)
  }

  /**
   * The row a group shift of -1 pairs with row `i`: the next row below it with the same
   * client type. In the canonical order this is the client's next older date present.
   */
  function OlderIndex(keys: seq<string>, i: nat): (r: Option<nat>)
    requires i < |keys|
    ensures r.Some? ==> i < r.value < |keys| && keys[r.value] == keys[i]
                        && forall k :: i < k < r.value ==> keys[k] != keys[i]
    ensures r.None? <==> forall k :: i < k < |keys| ==> keys[k] != keys[i]
  {
    FindFrom(keys, keys[i], i + 1)
  }

  /** `groupby(keys)[col].shift(-1)`. */
  function GroupShift<T>(keys: seq<string>, col: seq<Option<T>>): (r: seq<Option<T>>)
    requires |keys| == |col|
    ensures |r| == |col|
  {
    seq(|col|, i requires 0 <= i < |col| =>
      match OlderIndex(keys, i)
      case Some(j) => col[j]
      case None => None)
  }

  /** Subtraction of two nullable values: NaN when either is. */
  function Minus(a: Option<int>, b: Option<int>): Option<int> {
    if a.Some? && b.Some? then Some(a.value - b.value) else None
  }

  function MinusReal(a: Option<real>, b: Option<real>): Option<real> {
    if a.Some? && b.Some? then Some(a.value - b.value) else None
  }

  /** `groupby(keys)[col].diff(periods=-1)`: the value minus the group's shifted value. */
  function GroupDiff(keys: seq<string>, col: seq<Option<int>>): (r: seq<Option<int>>)
    requires |keys| == |col|
    ensures |r| == |col|
  {
    var prev := GroupShift(keys, col);
    seq(|col|, i requires 0 <= i < |col| => Minus(col[i], prev[i]))
  }

  function GroupDiffReal(keys: seq<string>, col: seq<Option<real>>): (r: seq<Option<real>>)
    requires |keys| == |col|
    ensures |r| == |col|
  {
    var prev := GroupShift(keys, col);
    seq(|col|, i requires 0 <= i < |col| => MinusReal(col[i], prev[i]))
  }

  // ---------------------------------------------------------------------------
  // Per-row formulas and the two divisions.
  // ---------------------------------------------------------------------------

  function FutureIndexLong(r: Row): int { r.pos.futureIndexLong }
  function FutureIndexShort(r: Row): int { r.pos.futureIndexShort }
  function FutureStockLong(r: Row): int { r.pos.futureStockLong }
  function FutureStockShort(r: Row): int { r.pos.futureStockShort }

  /** `Abs Change Call`: index call long minus index call short. */
  function AbsChangeCall(r: Row): int { r.pos.optionIndexCallLong - r.pos.optionIndexCallShort }

  /** `Abs Change Put`: index put long minus index put short. */
  function AbsChangePut(r: Row): int { r.pos.optionIndexPutLong - r.pos.optionIndexPutShort }

  /** `Option NET`: (call long + put short) - (put long + call short). */
  function OptionNet(r: Row): int {
    (r.pos.optionIndexCallLong + r.pos.optionIndexPutShort) - (r.pos.optionIndexPutLong + r.pos.optionIndexCallShort)
  }

  /** `Future Net`. */
  function FutureNet(r: Row): int { r.pos.futureIndexLong - r.pos.futureIndexShort }

  /** `Stk Fut Net`. */
  function StockFutureNet(r: Row): int { r.pos.futureStockLong - r.pos.futureStockShort }

  /** `r` is `long` over `short` when `short` is not 0, and exactly 0 when it is. */
  predicate IsRatio(r: real, long: int, short: int) {
    if short != 0 then r * short as real == long as real else r == 0.0
  }

  /** The L/S ratio: long over short, and exactly 0 (never null) when short is 0. */
  function LongShortRatio(long: int, short: int): (r: real)
    ensures IsRatio(r, long, short)
  {
    if short != 0 then long as real / short as real else 0.0
  }

  /**
   * `p` is `change` as a percentage of `base`: finite when `base` is not 0, and an
   * infinity or NaN (as float64 division by zero gives) when it is.
   */
  predicate IsPercentChange(p: Float, change: int, base: int) {
    if base != 0 then p.Finite? && p.value * base as real == 100.0 * change as real
    else !p.Finite?
  }

  /**
   * `(num / den) * 100` in float64: NaN when either side is missing; with a zero
   * denominator an infinity carrying the numerator's sign, or NaN for 0/0.
   */
  function Percent(num: Option<int>, den: Option<int>): (r: Float)
    ensures num.None? || den.None? ==> r == NaN
    ensures num.Some? && den.Some? ==> IsPercentChange(r, num.value, den.value)
    ensures num.Some? && den == Some(0) ==> (r == NaN <==> num.value == 0)
    ensures num.Some? && den == Some(0) && num.value > 0 ==> r == PosInf
    ensures num.Some? && den == Some(0) && num.value < 0 ==> r == NegInf
  {
    if num.None? || den.None? then NaN
    else if den.value != 0 then Finite(100.0 * num.value as real / den.value as real)
    else if num.value > 0 then PosInf
    else if num.value < 0 then NegInf
    else NaN
  }

  // ---------------------------------------------------------------------------
  // Columns of the table: each is one `df['...'] = ...` assignment of the source.
  // ---------------------------------------------------------------------------

  function Counts(rows: seq<Row>, f: Row -> int): (col: seq<Option<int>>)
    ensures |col| == |rows|
  {
    seq(|rows|, i requires 0 <= i < |rows| => Some(f(rows[i])))
  }

  /** The group difference of a per-row count. */
  function ChangeOf(rows: seq<Row>, f: Row -> int): (col: seq<Option<int>>)
    ensures |col| == |rows|
  {
    GroupDiff(ClientTypes(rows), Counts(rows, f))
  }

  /** `NET DIFF`: `NET CALL (CoC)` minus `NET PUT (CoC)`. */
  function NetDiff(rows: seq<Row>): (col: seq<Option<int>>)
    ensures |col| == |rows|
  {
    var call := ChangeOf(rows, AbsChangeCall);
    var put := ChangeOf(rows, AbsChangePut);
    seq(|rows|, i requires 0 <= i < |rows| => Minus(call[i], put[i]))
  }

  /** `Option ROC`: the group difference of `NET DIFF`, a difference of a difference. */
  function OptionRoc(rows: seq<Row>): (col: seq<Option<int>>)
    ensures |col| == |rows|
  {
    GroupDiff(ClientTypes(rows), NetDiff(rows))
  }

  /** `Fut Long %` and its kin: the change over the shifted previous value, times 100. */
  function PercentChangeOf(rows: seq<Row>, f: Row -> int): (col: seq<Float>)
    ensures |col| == |rows|
  {
    var change := ChangeOf(rows, f);
    var prev := GroupShift(ClientTypes(rows), Counts(rows, f));
    seq(|rows|, i requires 0 <= i < |rows| => Percent(change[i], prev[i]))
  }

  /** `Nifty Diff`: the group difference of `Nifty Spot`. */
  function NiftyDiff(rows: seq<Row>): (col: seq<Option<real>>)
    ensures |col| == |rows|
  {
    GroupDiffReal(ClientTypes(rows), seq(|rows|, i requires 0 <= i < |rows| => rows[i].niftySpot))
  }

  /** `groupby('Date')[col].transform('sum')` at date `d`: every row of that date counts, TOTAL too. */
  function DateTotal(rows: seq<Row>, d: Date, f: Row -> int): int {
    if rows == [] then 0
    else (if rows[0].date == d then f(rows[0]) else 0) + DateTotal(rows[1..], d, f)
  }

  /** `Future Total Long %` and `... Short %`: the row's value over its date's total, times 100. */
  function DateShareOf(rows: seq<Row>, f: Row -> int): (col: seq<Float>)
    ensures |col| == |rows|
  {
    seq(|rows|, i requires 0 <= i < |rows| => Percent(Some(f(rows[i])), Some(DateTotal(rows, rows[i].date, f))))
  }

  /** The OPTION section of row `i`. */
  function OptionsAt(rows: seq<Row>, i: nat): OptionColumns
    requires i < |rows|
  {
    var r := rows[i];
    OptionColumns(
      AbsChangeCall(r), AbsChangePut(r), OptionNet(r),
      ChangeOf(rows, AbsChangeCall)[i], ChangeOf(rows, AbsChangePut)[i], NetDiff(rows)[i], OptionRoc(rows)[i])
  }

  /** A futures section of row `i`, over the long and short counts `long` and `short` and their net `net`. */
  function FuturesAt(rows: seq<Row>, i: nat, long: Row -> int, short: Row -> int, net: Row -> int): FuturesColumns
    requires i < |rows|
  {
    var r := rows[i];
    FuturesColumns(
      net(r), ChangeOf(rows, net)[i], ChangeOf(rows, long)[i], ChangeOf(rows, short)[i],
      LongShortRatio(long(r), short(r)),
      PercentChangeOf(rows, long)[i], PercentChangeOf(rows, short)[i])
  }

  /** All derived columns of row `i`. */
  function DerivedAt(rows: seq<Row>, i: nat): Derived
    requires i < |rows|
  {
    Derived(
      OptionsAt(rows, i),
      FuturesAt(rows, i, FutureIndexLong, FutureIndexShort, FutureNet),
      FuturesAt(rows, i, FutureStockLong, FutureStockShort, StockFutureNet),
      NiftyDiff(rows)[i],
      DateShareOf(rows, FutureIndexLong)[i], DateShareOf(rows, FutureIndexShort)[i])
  }

  /** Attaches the derived columns: one output row per input row, in the same order, rows unchanged. */
  function Derive(rows: seq<Row>): (out: seq<ProcessedRow>)
    ensures |out| == |rows|
    ensures forall i :: 0 <= i < |rows| ==> out[i].row == rows[i] && out[i].derived == DerivedAt(rows, i)
  {
    seq(|rows|, i requires 0 <= i < |rows| => ProcessedRow(rows[i], DerivedAt(rows, i)))
  }

  /** `process_data(df, current_nifty_spot)`. */
  function ProcessData(raw: seq<RawRow>, spot: real): seq<ProcessedRow> {
    Derive(StampSpot(SortBy(Clean(raw), RowKey), spot))
  }

  // ---------------------------------------------------------------------------
  // Properties of the derived columns.
  // ---------------------------------------------------------------------------

  /** The value of a group difference at row `i`, read through the shifted row. */
  lemma ChangeAt(rows: seq<Row>, f: Row -> int, i: nat)
    requires i < |rows|
    ensures ChangeOf(rows, f)[i] == match OlderIndex(ClientTypes(rows), i)
                                    case Some(j) => Some(f(rows[i]) - f(rows[j]))
                                    case None => None
  {
    var col := Counts(rows, f);
    var prev := GroupShift(ClientTypes(rows), col);
    assert ChangeOf(rows, f)[i] == Minus(col[i], prev[i]);
  }

  /** The value of a percent change at row `i`, read through the shifted row. */
  lemma PercentChangeAt(rows: seq<Row>, f: Row -> int, i: nat)
    requires i < |rows|
    ensures PercentChangeOf(rows, f)[i] == match OlderIndex(ClientTypes(rows), i)
                                           case Some(j) => Percent(Some(f(rows[i]) - f(rows[j])), Some(f(rows[j])))
                                           case None => NaN
  {
    ChangeAt(rows, f, i);
    var prev := GroupShift(ClientTypes(rows), Counts(rows, f));
    assert PercentChangeOf(rows, f)[i] == Percent(ChangeOf(rows, f)[i], prev[i]);
  }

  /** The option columns of a row with no row of its client type below it are null. */
  lemma {:induction false} OptionsOfOldestRow(rows: seq<Row>, i: nat)
    requires i < |rows|
    requires forall k :: i < k < |rows| ==> rows[k].clientType != rows[i].clientType
    ensures var c := OptionsAt(rows, i);
      c.netCallCoC.None? && c.netPutCoC.None? && c.netDiff.None? && c.roc.None?
  {
    var keys := ClientTypes(rows);
    assert OlderIndex(keys, i).None?;
    ChangeAt(rows, AbsChangeCall, i);
    ChangeAt(rows, AbsChangePut, i);
    assert GroupShift(keys, NetDiff(rows))[i].None?;
  }

  /** The futures columns of a row with no row of its client type below it are null or NaN. */
  lemma {:induction false} FuturesOfOldestRow(rows: seq<Row>, i: nat, long: Row -> int, short: Row -> int, net: Row -> int)
    requires i < |rows|
    requires forall k :: i < k < |rows| ==> rows[k].clientType != rows[i].clientType
    ensures var c := FuturesAt(rows, i, long, short, net);
      c.roc.None? && c.absChgLong.None? && c.absChgShort.None? && c.longPct == NaN && c.shortPct == NaN
  {
    assert OlderIndex(ClientTypes(rows), i).None?;
    ChangeAt(rows, net, i);
    ChangeAt(rows, long, i);
    ChangeAt(rows, short, i);
    PercentChangeAt(rows, long, i);
    PercentChangeAt(rows, short, i);
  }

  /** Every difference, percent change and ROC column of `d` is null. */
  predicate HasNoChange(d: Derived) {
    && d.options.netCallCoC.None? && d.options.netPutCoC.None? && d.options.netDiff.None? && d.options.roc.None?
    && d.indexFutures.roc.None? && d.indexFutures.absChgLong.None? && d.indexFutures.absChgShort.None?
    && d.indexFutures.longPct == NaN && d.indexFutures.shortPct == NaN
    && d.stockFutures.roc.None? && d.stockFutures.absChgLong.None? && d.stockFutures.absChgShort.None?
    && d.stockFutures.longPct == NaN && d.stockFutures.shortPct == NaN
    && d.niftyDiff.None?
  }

  /**
   * A row with no row of the same client type below it (in the canonical order: the
   * client's oldest date) has every difference, percent change and ROC column null.
   */
  lemma OldestRowHasNoChange(rows: seq<Row>, i: nat)
    requires i < |rows|
    requires forall k :: i < k < |rows| ==> rows[k].clientType != rows[i].clientType
    ensures HasNoChange(DerivedAt(rows, i))
  {
    OptionsOfOldestRow(rows, i);
    FuturesOfOldestRow(rows, i, FutureIndexLong, FutureIndexShort, FutureNet);
    FuturesOfOldestRow(rows, i, FutureStockLong, FutureStockShort, StockFutureNet);
    assert OlderIndex(ClientTypes(rows), i).None?;
  }

  /**
   * Against the next row `j` below it with the same client type, row `i` holds the
   * option differences "value at i minus value at j".
   */
  lemma {:induction false} OptionChangeAgainstOlderRow(rows: seq<Row>, i: nat, j: nat)
    requires i < j < |rows| && rows[j].clientType == rows[i].clientType
    requires forall k :: i < k < j ==> rows[k].clientType != rows[i].clientType
    ensures var c, a, b := OptionsAt(rows, i), rows[i], rows[j];
      && c.netCallCoC == Some(AbsChangeCall(a) - AbsChangeCall(b))
      && c.netPutCoC == Some(AbsChangePut(a) - AbsChangePut(b))
  {
    assert OlderIndex(ClientTypes(rows), i) == Some(j);
    ChangeAt(rows, AbsChangeCall, i);
    ChangeAt(rows, AbsChangePut, i);
  }

  /**
   * Against the next row `j` below it with the same client type, a futures section of
   * row `i` holds the differences "value at i minus value at j" and the percent changes
   * of long and short over their values at `j` (finite when that value is not 0).
   */
  lemma {:induction false} FuturesChangeAgainstOlderRow(rows: seq<Row>, i: nat, j: nat, long: Row -> int, short: Row -> int, net: Row -> int)
    requires i < j < |rows| && rows[j].clientType == rows[i].clientType
    requires forall k :: i < k < j ==> rows[k].clientType != rows[i].clientType
    ensures var c, a, b := FuturesAt(rows, i, long, short, net), rows[i], rows[j];
      && c.roc == Some(net(a) - net(b))
      && c.absChgLong == Some(long(a) - long(b))
      && c.absChgShort == Some(short(a) - short(b))
      && IsPercentChange(c.longPct, long(a) - long(b), long(b))
      && IsPercentChange(c.shortPct, short(a) - short(b), short(b))
  {
    assert OlderIndex(ClientTypes(rows), i) == Some(j);
    ChangeAt(rows, net, i);
    ChangeAt(rows, long, i);
    ChangeAt(rows, short, i);
    PercentChangeAt(rows, long, i);
    PercentChangeAt(rows, short, i);
  }

  /** `Nifty Diff` of row `i`: its spot minus the spot of the next row of its client type, null if either is. */
  lemma {:induction false} NiftyDiffAgainstOlderRow(rows: seq<Row>, i: nat, j: nat)
    requires i < j < |rows| && rows[j].clientType == rows[i].clientType
    requires forall k :: i < k < j ==> rows[k].clientType != rows[i].clientType
    ensures DerivedAt(rows, i).niftyDiff == MinusReal(rows[i].niftySpot, rows[j].niftySpot)
  {
    assert OlderIndex(ClientTypes(rows), i) == Some(j);
  }

  /**
   * `Option ROC` is a difference of a difference: it is null unless the client has two
   * more rows below row `i`, and then it is `NET DIFF` at `i` minus `NET DIFF` at the next one.
   */
  lemma {:induction false} OptionRocNeedsTwoOlderRows(rows: seq<Row>, i: nat)
    requires i < |rows|
    ensures var keys, roc := ClientTypes(rows), OptionsAt(rows, i).roc;
      match OlderIndex(keys, i)
      case None => roc.None?
      case Some(j) =>
        match OlderIndex(keys, j)
        case None => roc.None?
        case Some(k) =>
          var a, b, c := rows[i], rows[j], rows[k];
          roc == Some(((AbsChangeCall(a) - AbsChangeCall(b)) - (AbsChangePut(a) - AbsChangePut(b)))
                    - ((AbsChangeCall(b) - AbsChangeCall(c)) - (AbsChangePut(b) - AbsChangePut(c))))
  {
    var keys := ClientTypes(rows);
    ChangeAt(rows, AbsChangeCall, i);
    ChangeAt(rows, AbsChangePut, i);
    var nd := NetDiff(rows);
    assert OptionRoc(rows)[i] == Minus(nd[i], GroupShift(keys, nd)[i]);
    match OlderIndex(keys, i)
    case None =>
    case Some(j) =>
      ChangeAt(rows, AbsChangeCall, j);
      ChangeAt(rows, AbsChangePut, j);
  }

  /**
   * `Option NET` is the call change minus the put change of the same row, and `NET DIFF`
   * is `NET CALL (CoC) - NET PUT (CoC)`, null when either is.
   */
  lemma OptionIdentities(rows: seq<Row>, i: nat)
    requires i < |rows|
    ensures var c := OptionsAt(rows, i);
      && c.optionNet == c.absChangeCall - c.absChangePut
      && c.netDiff == Minus(c.netCallCoC, c.netPutCoC)
  {
    assert NetDiff(rows)[i] == Minus(ChangeOf(rows, AbsChangeCall)[i], ChangeOf(rows, AbsChangePut)[i]);
  }

  /**
   * In a futures section whose net is long minus short (as both sections' nets are), the
   * ROC is the long change minus the short change, both null together on a client's oldest
   * row; the L/S ratio is long over short, and exactly 0 (never null) when short is 0.
   */
  lemma {:induction false} FuturesIdentities(rows: seq<Row>, i: nat, long: Row -> int, short: Row -> int, net: Row -> int)
    requires i < |rows|
    requires forall r :: net(r) == long(r) - short(r)
    ensures var c, r := FuturesAt(rows, i, long, short, net), rows[i];
      && c.net == long(r) - short(r)
      && c.roc == Minus(c.absChgLong, c.absChgShort)
      && IsRatio(c.lsRatio, long(r), short(r))
  {
    ChangeAt(rows, net, i);
    ChangeAt(rows, long, i);
    ChangeAt(rows, short, i);
  }

  /** Both sections' nets are long minus short, so `FuturesIdentities` applies to both. */
  lemma NetsAreLongMinusShort()
    ensures forall r :: FutureNet(r) == FutureIndexLong(r) - FutureIndexShort(r)
    ensures forall r :: StockFutureNet(r) == FutureStockLong(r) - FutureStockShort(r)
  {
  }

  /** The sum of the finite entries of `shares` on the rows dated `d`. */
  function SumOnDate(rows: seq<Row>, shares: seq<Float>, d: Date): real
    requires |shares| == |rows|
  {
    if rows == [] then 0.0
    else (if rows[0].date == d && shares[0].Finite? then shares[0].value else 0.0)
         + SumOnDate(rows[1..], shares[1..], d)
  }

  /** Multiplication distributes over the two halves of a share sum. */
  lemma ScaledSum(x: real, rest: real, t: real, fx: real, frest: real)
    requires x * t == 100.0 * fx && rest * t == 100.0 * frest
    ensures (x + rest) * t == 100.0 * (fx + frest)
  {
  }

  /**
   * If every row dated `d` carries in `shares` its `f` value as a percentage of `total`,
   * those shares add up to `f`'s total on that date as a percentage of `total`.
   */
  lemma {:induction false} SumOfScaledShares(rows: seq<Row>, shares: seq<Float>, d: Date, f: Row -> int, total: int)
    requires |shares| == |rows| && total != 0
    requires forall k :: 0 <= k < |rows| && rows[k].date == d ==> IsPercentChange(shares[k], f(rows[k]), total)
    ensures SumOnDate(rows, shares, d) * total as real == 100.0 * DateTotal(rows, d, f) as real
  {
    if rows != [] {
      assert forall k :: 1 <= k < |rows| ==> rows[1..][k - 1] == rows[k] && shares[1..][k - 1] == shares[k];
      SumOfScaledShares(rows[1..], shares[1..], d, f, total);
      var x := if rows[0].date == d then shares[0].value else 0.0;
      var fx := if rows[0].date == d then f(rows[0]) as real else 0.0;
      ScaledSum(x, SumOnDate(rows[1..], shares[1..], d), total as real, fx, DateTotal(rows[1..], d, f) as real);
    }
  }

  /**
   * Each `Future Total ... %` entry is the row's value as a percentage of its date's total
   * (`DerivedAt` takes `totalLongPct` and `totalShortPct` from this column for the futures
   * index long and short counts).
   */
  lemma DateShareRule(rows: seq<Row>, f: Row -> int, i: nat)
    requires i < |rows|
    ensures IsPercentChange(DateShareOf(rows, f)[i], f(rows[i]), DateTotal(rows, rows[i].date, f))
  {
    assert DateShareOf(rows, f)[i] == Percent(Some(f(rows[i])), Some(DateTotal(rows, rows[i].date, f)));
  }

  lemma CancelFactor(s: real, t: int, u: int)
    requires t == u && t != 0 && s * t as real == 100.0 * u as real
    ensures s == 100.0
  {
    var r := t as real;
    calc {
      s;
      s * r / r;
      100.0 * r / r;
      100.0;
    }
  }

  /** Every entry of a date's rows is its value as a percentage of that date's total. */
  lemma DateSharesArePercents(rows: seq<Row>, f: Row -> int, d: Date)
    ensures forall k :: 0 <= k < |rows| && rows[k].date == d ==> IsPercentChange(DateShareOf(rows, f)[k], f(rows[k]), DateTotal(rows, d, f))
  {
    forall k | 0 <= k < |rows| && rows[k].date == d
      ensures IsPercentChange(DateShareOf(rows, f)[k], f(rows[k]), DateTotal(rows, d, f))
    {
      DateShareRule(rows, f, k);
    }
  }

  /**
   * For a date whose total is not 0, the date-share entries of that date's rows (a TOTAL
   * row included) add up to 100.
   */
  lemma DateSharesSumToHundred(rows: seq<Row>, f: Row -> int, d: Date)
    requires DateTotal(rows, d, f) != 0
    ensures SumOnDate(rows, DateShareOf(rows, f), d) == 100.0
  {
    DateSharesArePercents(rows, f, d);
    SharesSumToHundred(rows, DateShareOf(rows, f), d, f);
  }

  /** Shares that are each a percentage of the date's total add up to 100. */
  lemma SharesSumToHundred(rows: seq<Row>, shares: seq<Float>, d: Date, f: Row -> int)
    requires |shares| == |rows| && DateTotal(rows, d, f) != 0
    requires forall k :: 0 <= k < |rows| && rows[k].date == d ==> IsPercentChange(shares[k], f(rows[k]), DateTotal(rows, d, f))
    ensures SumOnDate(rows, shares, d) == 100.0
  {
    var t := DateTotal(rows, d, f);
    SumOfScaledShares(rows, shares, d, f, t);
    CancelFactor(SumOnDate(rows, shares, d), t, DateTotal(rows, d, f));
  }

  // ---------------------------------------------------------------------------
  // Properties of the whole table.
  // ---------------------------------------------------------------------------

  /** Stamping the spot price changes no date and no client type, so canonical order survives it. */
  lemma StampSpotKeepsOrder(rows: seq<Row>, spot: real)
    requires Sorted(rows, RowKey)
    ensures Sorted(StampSpot(rows, spot), RowKey)
  {
    var r := StampSpot(rows, spot);
    assert forall i :: 0 <= i < |rows| ==> RowKey(r[i]) == RowKey(rows[i]);
  }

  /**
   * `process_data` keeps exactly the rows whose date parses, in canonical order; it changes
   * nothing in them but `Nifty Spot`, which becomes the given spot on the latest date; and
   * each row's derived columns are computed over the whole processed table.
   */
  lemma ProcessDataTable(raw: seq<RawRow>, spot: real)
    ensures var out, s := ProcessData(raw, spot), SortBy(Clean(raw), RowKey);
      && |out| == |Clean(raw)|
      && multiset(s) == multiset(Clean(raw))
      && Sorted(Rows(out), RowKey)
      && (forall i :: 0 <= i < |out| ==> out[i].row.(niftySpot := s[i].niftySpot) == s[i])
      && (forall i :: 0 <= i < |out| && OnLatestDate(s, i) ==> out[i].row.niftySpot == Some(spot))
      && (forall i, k :: 0 <= i < |out| && 0 <= k < |out| && Before(s[i].date, s[k].date) ==> out[i].row.niftySpot == s[i].niftySpot)
      && (forall i :: 0 <= i < |out| ==> out[i].derived == DerivedAt(Rows(out), i))
  {
    ProcessDataOrder(raw, spot);
    var out, s := ProcessData(raw, spot), SortBy(Clean(raw), RowKey);
    StampedRows(out, s, spot);
  }

  lemma ProcessDataOrder(raw: seq<RawRow>, spot: real)
    ensures Sorted(Rows(ProcessData(raw, spot)), RowKey)
    ensures Rows(ProcessData(raw, spot)) == StampSpot(SortBy(Clean(raw), RowKey), spot)
  {
    var s := SortBy(Clean(raw), RowKey);
    StampSpotKeepsOrder(s, spot);
  }

  /** Rows read back from a table whose rows are `StampSpot(s, spot)` differ from `s` only in the spot. */
  lemma StampedRows(out: seq<ProcessedRow>, s: seq<Row>, spot: real)
    requires Rows(out) == StampSpot(s, spot)
    ensures |out| == |s|
    ensures forall i :: 0 <= i < |out| ==> out[i].row.(niftySpot := s[i].niftySpot) == s[i]
    ensures forall i :: 0 <= i < |out| && OnLatestDate(s, i) ==> out[i].row.niftySpot == Some(spot)
    ensures forall i, k :: 0 <= i < |out| && 0 <= k < |out| && Before(s[i].date, s[k].date)
              ==> out[i].row.niftySpot == s[i].niftySpot
  {
    var t := StampSpot(s, spot);
    assert forall i :: 0 <= i < |out| ==> out[i].row == t[i];
  }

  /**
   * In canonical order, the row a group difference pairs row `i` with is the same client's
   * row for the closest older date present (or a duplicate of row `i`'s own date and client);
   * when there is none, the client has no older date at all.
   */
  lemma OlderRowIsPreviousDate(rows: seq<Row>, i: nat)
    requires Sorted(rows, RowKey) && i < |rows|
    ensures match OlderIndex(ClientTypes(rows), i)
      case Some(j) =>
        && !Before(rows[i].date, rows[j].date)
        && forall k :: 0 <= k < |rows| && rows[k].clientType == rows[i].clientType && Before(rows[k].date, rows[i].date)
             ==> !Before(rows[j].date, rows[k].date)
      case None =>
        forall k :: 0 <= k < |rows| && rows[k].clientType == rows[i].clientType ==> !Before(rows[k].date, rows[i].date)
  {
    var keys := ClientTypes(rows);
    forall k | 0 <= k < i && rows[k].clientType == rows[i].clientType
      ensures !Before(rows[k].date, rows[i].date)
    {
      assert KeyLe(RowKey(rows[k]), RowKey(rows[i]));
      BeforeIsStrictTotal(rows[i].date, rows[k].date, rows[i].date);
    }
    match OlderIndex(keys, i)
    case Some(j) =>
      assert KeyLe(RowKey(rows[i]), RowKey(rows[j]));
      BeforeIsStrictTotal(rows[j].date, rows[i].date, rows[j].date);
      forall k | j < k < |rows|
        ensures !Before(rows[j].date, rows[k].date)
      {
        assert KeyLe(RowKey(rows[j]), RowKey(rows[k]));
        BeforeIsStrictTotal(rows[k].date, rows[j].date, rows[k].date);
      }
      forall k | 0 <= k < |rows| && rows[k].clientType == rows[i].clientType && Before(rows[k].date, rows[i].date)
        ensures !Before(rows[j].date, rows[k].date)
      {
        BeforeIsStrictTotal(rows[k].date, rows[i].date, rows[k].date);
        BeforeIsStrictTotal(rows[j].date, rows[j].date, rows[j].date);
      }
    case None =>
  }

  /** No two rows share a client type: one row per participant, as in a single day's report. */
  predicate DistinctClients(rows: seq<Row>) {
    forall p, q :: 0 <= p < q < |rows| ==> rows[p].clientType != rows[q].clientType
  }

  predicate DistinctRawClients(raw: seq<RawRow>) {
    forall p, q :: 0 <= p < q < |raw| ==> raw[p].clientType != raw[q].clientType
  }

  lemma ConsDistinctClients(r: Row, rest: seq<Row>)
    requires DistinctClients(rest) && forall k :: 0 <= k < |rest| ==> rest[k].clientType != r.clientType
    ensures DistinctClients([r] + rest)
  {
    var c := [r] + rest;
    assert forall q :: 1 <= q < |c| ==> c[q] == rest[q - 1];
  }

  /** Dropping the rows whose date does not parse keeps the rest one per client type. */
  lemma {:induction false} CleanKeepsDistinctClients(raw: seq<RawRow>)
    requires DistinctRawClients(raw)
    ensures DistinctClients(Clean(raw))
  {
    if raw != [] {
      var tail := raw[1..];
      assert DistinctRawClients(tail) by {
        assert forall k :: 0 <= k < |tail| ==> tail[k] == raw[k + 1];
      }
      CleanKeepsDistinctClients(tail);
      var rest := Clean(tail);
      if Parse(raw[0]).Some? {
        forall k | 0 <= k < |rest|
          ensures rest[k].clientType != raw[0].clientType
        {
          var j :| 0 <= j < |tail| && Parse(tail[j]) == Some(rest[k]);
          assert tail[j] == raw[j + 1];
        }
        ConsDistinctClients(Parse(raw[0]).value, rest);
      }
    }
  }

  lemma CountAtLeastTwo<T>(b: seq<T>, p: nat, q: nat)
    requires p < q < |b| && b[p] == b[q]
    ensures multiset(b)[b[p]] >= 2
  {
    assert b == b[..q] + b[q..];
    assert b[p] == b[..q][p];
    assert b[q] == b[q..][0];
  }

  lemma CountOne<T>(a: seq<T>, i: nat)
    requires i < |a| && forall k :: 0 <= k < |a| && k != i ==> a[k] != a[i]
    ensures multiset(a)[a[i]] == 1
  {
    assert a == a[..i] + [a[i]] + a[i + 1..];
    assert a[i] !in a[..i];
    assert a[i] !in a[i + 1..];
  }

  /** Reordering the rows keeps them one per client type. */
  lemma DistinctClientsPermutation(a: seq<Row>, b: seq<Row>)
    requires multiset(a) == multiset(b) && DistinctClients(a)
    ensures DistinctClients(b)
  {
    forall p, q | 0 <= p < q < |b|
      ensures b[p].clientType != b[q].clientType
    {
      assert b[p] in multiset(a) && b[q] in multiset(a);
      var pa :| 0 <= pa < |a| && a[pa] == b[p];
      var qa :| 0 <= qa < |a| && a[qa] == b[q];
      if pa == qa {
        CountOne(a, pa);
        if b[p] == b[q] {
          CountAtLeastTwo(b, p, q);
        }
      }
    }
  }

  /** In a table with one row per client type, every difference, percent change and ROC is null. */
  lemma DistinctClientsHaveNoChange(rows: seq<Row>)
    requires DistinctClients(rows)
    ensures forall i :: 0 <= i < |rows| ==> HasNoChange(DerivedAt(rows, i))
  {
    forall i | 0 <= i < |rows| {
      OldestRowHasNoChange(rows, i);
    }
  }

  /**
   * `process_data` run on a single day's report (one row per client type) produces no
   * change at all: every difference, percent change and ROC column of every row is null.
   */
  lemma OneRowPerClientHasNoChange(raw: seq<RawRow>, spot: real)
    requires DistinctRawClients(raw)
    ensures forall i :: 0 <= i < |ProcessData(raw, spot)| ==> HasNoChange(ProcessData(raw, spot)[i].derived)
  {
    CleanKeepsDistinctClients(raw);
    var s := SortBy(Clean(raw), RowKey);
    DistinctClientsPermutation(Clean(raw), s);
    var t := StampSpot(s, spot);
    assert DistinctClients(t) by {
      assert forall i :: 0 <= i < |s| ==> t[i].clientType == s[i].clientType;
    }
    DistinctClientsHaveNoChange(t);
  }

  /**
   * The share divides by the sum of all rows of the date, so a `TOTAL` row counts in its
   * own denominator. When row `t` holds as much as the other rows of its date together
   * (as a `TOTAL` row does), its own share is 50, and every row's share on that date is
   * half of its count as a percentage of row `t`'s.
   */
  lemma TotalRowCountsInDateShare(rows: seq<Row>, f: Row -> int, t: nat)
    requires t < |rows| && f(rows[t]) != 0
    requires DateTotal(rows, rows[t].date, f) - f(rows[t]) == f(rows[t])
    ensures DateShareOf(rows, f)[t] == Finite(50.0)
    ensures forall k :: 0 <= k < |rows| && rows[k].date == rows[t].date ==>
              && DateShareOf(rows, f)[k].Finite?
              && IsPercentChange(Finite(2.0 * DateShareOf(rows, f)[k].value), f(rows[k]), f(rows[t]))
  {
    forall k | 0 <= k < |rows| && rows[k].date == rows[t].date
      ensures DateShareOf(rows, f)[k].Finite?
      ensures IsPercentChange(Finite(2.0 * DateShareOf(rows, f)[k].value), f(rows[k]), f(rows[t]))
    {
      ShareOfDateRow(rows, f, t, k);
    }
    ShareOfDateRow(rows, f, t, t);
    HalfOfWhole(DateShareOf(rows, f)[t].value, f(rows[t]));
  }

  /** On such a date, row `k`'s share doubled is its count as a percentage of row `t`'s. */
  lemma ShareOfDateRow(rows: seq<Row>, f: Row -> int, t: nat, k: nat)
    requires t < |rows| && f(rows[t]) != 0
    requires DateTotal(rows, rows[t].date, f) - f(rows[t]) == f(rows[t])
    requires k < |rows| && rows[k].date == rows[t].date
    ensures DateShareOf(rows, f)[k].Finite?
    ensures IsPercentChange(Finite(2.0 * DateShareOf(rows, f)[k].value), f(rows[k]), f(rows[t]))
  {
    DateShareRule(rows, f, k);
    HalfShare(DateShareOf(rows, f)[k], f(rows[k]), f(rows[t]), DateTotal(rows, rows[k].date, f));
  }

  /** A percentage of a total that is twice `c`, doubled, is the percentage of `c`. */
  lemma HalfShare(p: Float, x: int, c: int, total: int)
    requires c != 0 && total == 2 * c && IsPercentChange(p, x, total)
    ensures p.Finite? && IsPercentChange(Finite(2.0 * p.value), x, c)
  {
    FinitePercent(p, x, total);
    Halve(p.value, x, c, total);
  }

  lemma FinitePercent(p: Float, change: int, base: int)
    requires IsPercentChange(p, change, base) && base != 0
    ensures p.Finite? && p.value * base as real == 100.0 * change as real
  {
  }

  /** A percentage of twice `c` is half the percentage of `c`. */
  lemma Halve(v: real, x: int, c: int, total: int)
    requires c != 0 && total == 2 * c && v * total as real == 100.0 * x as real
    ensures IsPercentChange(Finite(2.0 * v), x, c)
  {
    var cr := c as real;
    assert total as real == 2.0 * cr;
    assert (2.0 * v) * cr == v * (2.0 * cr);
  }

  /** A row that is half of its own percentage is at 50. */
  lemma HalfOfWhole(v: real, c: int)
    requires c != 0 && IsPercentChange(Finite(2.0 * v), c, c)
    ensures v == 50.0
  {
    var cr := c as real;
    assert (2.0 * v) * cr == 100.0 * cr;
    CancelFactor(2.0 * v, c, c);
  }
}
