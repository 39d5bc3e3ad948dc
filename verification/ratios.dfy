/** The ratio engine of concat.py (`calculate_financial_ratios`): for every
    (date, ticker) cell of the concatenated table, eight fields are read with
    a default policy, a fixed set of ratios is computed with a zero-on-failure
    division, and a field `float()` refuses turns that one cell, and only that
    cell, into an error record. Numbers are reals; IEEE rounding, infinities
    and NaN are not modelled. */
module Ratios {
  import opened Results
  import opened Types

  const EquityKey: Field := "totalShareholderEquity"
  const DebtKey: Field := "shortLongTermDebtTotal"
  const NetIncomeKey: Field := "netIncome"
  const OperatingCashflowKey: Field := "operatingCashflow"
  const RevenueKey: Field := "totalRevenue"
  const DividendsKey: Field := "dividendPayoutCommonStock"
  const SharesKey: Field := "commonStockSharesOutstanding"

  /** The fields read for a cell, in the order the source reads them. */
  const RatioInputs: seq<Field> :=
    [EquityKey, DebtKey, NetIncomeKey, OperatingCashflowKey, RevenueKey, DividendsKey, SharesKey, AdjCloseKey]

  /** The default every read of the source passes for "None". */
  const Default: real := 0.0

  datatype RatioRecord = RatioRecord(
    roe: real,
    debtToEquity: real,
    profitMargin: real,
    operatingCashFlowDebt: real,
    marketToBook: real,
    dividendYield: real,
    marketCap: real,
    adjClose: real)

  /** One output cell: the ratios, or the error record naming the ticker and
      the first field whose conversion raised. */
  datatype Cell = Ratios(record: RatioRecord) | Failed(stock: Ticker, field: Field)

  type RatioTable = map<Date, map<Ticker, Cell>>

  /** The zero-on-failure policy: `q` is `x / y`, or 0 when `y` is 0. */
  ghost predicate IsSafeQuotient(q: real, x: real, y: real) {
    if y == 0.0 then q == 0.0 else q * y == x
  }

  /** `safe_divide`: both arguments are already numbers here, so the only
      exception it can catch is the division by zero. */
  function SafeDivide(x: real, y: real): (q: real)
    ensures IsSafeQuotient(q, x, y)
  {
    if y == 0.0 then 0.0 else x / y
  }

  /** `safe_get`: an absent key reads as the string "0", the string "None"
      reads as `default`, a number reads as itself, and anything else makes
      `float()` raise; the error carries the key. */
  function SafeGet(metrics: Record, key: Field, default: real): (r: Result<real, Field>)
    ensures key !in metrics ==> r == Ok(0.0)
    ensures key in metrics && metrics[key].NoneString? ==> r == Ok(default)
    ensures key in metrics && metrics[key].Num? ==> r == Ok(metrics[key].amount)
    ensures r.Err? <==> key in metrics && metrics[key].Unparseable?
    ensures r.Err? ==> r.error == key
  {
    var value := if key in metrics then metrics[key] else Num(0.0);
    match value
    case NoneString => Ok(default)
    case Num(x) => Ok(x)
    case Unparseable => Err(key)
  }

  /** The number a field contributes when it converts: absent and "None"
      both give 0 (the default at every call site). */
  ghost function Amount(metrics: Record, key: Field): real {
    if key in metrics && metrics[key].Num? then metrics[key].amount else 0.0
  }

  ghost predicate Unconvertible(metrics: Record, key: Field) {
    key in metrics && metrics[key].Unparseable?
  }

  /** Field `keys[i]` is the first of `keys` that cannot be converted. */
  ghost predicate FirstUnconvertible(metrics: Record, keys: seq<Field>, i: int) {
    && 0 <= i < |keys|
    && Unconvertible(metrics, keys[i])
    && forall j :: 0 <= j < i ==> !Unconvertible(metrics, keys[j])
  }

  /** The successive `safe_get` calls of one cell: they all succeed iff no
      field converts badly, and then read each field's amount; otherwise the
      first bad field, in reading order, is the one that raises. */
  function ReadFields(metrics: Record, keys: seq<Field>): (r: Result<seq<real>, Field>)
    ensures r.Ok? <==> forall i :: 0 <= i < |keys| ==> !Unconvertible(metrics, keys[i])
    ensures r.Ok? ==> |r.value| == |keys| && forall i :: 0 <= i < |keys| ==> r.value[i] == Amount(metrics, keys[i])
    ensures r.Err? ==> exists i :: FirstUnconvertible(metrics, keys, i) && r.error == keys[i]
    decreases |keys|
  {
    if |keys| == 0 then Ok([])
    else
      var x :- SafeGet(metrics, keys[0], Default);
      var rest :- ReadFields(metrics, keys[1..]);
      assert forall i :: 1 <= i < |keys| ==> keys[i] == keys[1..][i - 1];
      Ok([x] + rest)
  }

  /** What a ratio record states about the eight amounts it was computed from. */
  ghost predicate Fits(record: RatioRecord, equity: real, debt: real, netIncome: real, cashflow: real,
                       revenue: real, dividends: real, shares: real, adjClose: real) {
    && IsSafeQuotient(record.roe, netIncome, equity)
    && IsSafeQuotient(record.debtToEquity, debt, equity)
    && IsSafeQuotient(record.profitMargin, netIncome, revenue)
    && IsSafeQuotient(record.operatingCashFlowDebt, cashflow, debt)
    && (shares != 0.0 && equity != 0.0 ==> record.marketToBook * equity == adjClose * shares)
    && (shares == 0.0 || equity == 0.0 ==> record.marketToBook == 0.0)
    && (shares != 0.0 && adjClose != 0.0 ==> record.dividendYield * shares * adjClose == dividends)
    && (shares == 0.0 || adjClose == 0.0 ==> record.dividendYield == 0.0)
    && record.marketCap == shares * adjClose
    && record.adjClose == adjClose
  }

  /** What the ratio record of a cell states about the fields of its record. */
  ghost predicate RatiosFit(record: RatioRecord, metrics: Record) {
    Fits(record, Amount(metrics, EquityKey), Amount(metrics, DebtKey), Amount(metrics, NetIncomeKey),
         Amount(metrics, OperatingCashflowKey), Amount(metrics, RevenueKey), Amount(metrics, DividendsKey),
         Amount(metrics, SharesKey), Amount(metrics, AdjCloseKey))
  }

  /** The ratio formulas of the source, applied to the amounts read. */
  function RatiosOf(equity: real, debt: real, netIncome: real, operatingCashflow: real,
                    revenue: real, dividends: real, shares: real, adjClose: real): (record: RatioRecord)
    ensures Fits(record, equity, debt, netIncome, operatingCashflow, revenue, dividends, shares, adjClose)
  {
    var bookValuePerShare := SafeDivide(equity, shares);
    var dividendRate := SafeDivide(dividends, shares);
    MarketToBookQuotient(adjClose, equity, shares);
    DividendYieldQuotient(dividends, shares, adjClose);
    RatioRecord(
      roe := SafeDivide(netIncome, equity),
      debtToEquity := SafeDivide(debt, equity),
      profitMargin := SafeDivide(netIncome, revenue),
      operatingCashFlowDebt := SafeDivide(operatingCashflow, debt),
      marketToBook := SafeDivide(adjClose, bookValuePerShare),
      dividendYield := SafeDivide(dividendRate, adjClose),
      marketCap := shares * adjClose,
      adjClose := adjClose)
  }

  /** The ratios of one cell, or the first field that raised. */
  function ComputeRatios(metrics: Record): (r: Result<RatioRecord, Field>)
    ensures r.Err? <==> exists i :: 0 <= i < |RatioInputs| && Unconvertible(metrics, RatioInputs[i])
    ensures r.Err? ==> exists i :: FirstUnconvertible(metrics, RatioInputs, i) && r.error == RatioInputs[i]
    ensures r.Ok? ==> RatiosFit(r.value, metrics)
  {
    var v :- ReadFields(metrics, RatioInputs);
    Ok(RatiosOf(v[0], v[1], v[2], v[3], v[4], v[5], v[6], v[7]))
  }

  /** Market-to-book through the intermediate book value per share. */
  lemma MarketToBookQuotient(adjClose: real, equity: real, shares: real)
    ensures var m := SafeDivide(adjClose, SafeDivide(equity, shares));
            && (shares != 0.0 && equity != 0.0 ==> m * equity == adjClose * shares)
            && (shares == 0.0 || equity == 0.0 ==> m == 0.0)
  {
    var b := SafeDivide(equity, shares);
    var m := SafeDivide(adjClose, b);
    if shares != 0.0 && equity != 0.0 {
      assert b * shares == equity;
      assert b != 0.0;
      assert m * b == adjClose;
      calc {
        m * equity;
        m * (b * shares);
        (m * b) * shares;
        adjClose * shares;
      }
    }
  }

  /** Dividend yield through the intermediate dividend rate. */
  lemma DividendYieldQuotient(dividends: real, shares: real, adjClose: real)
    ensures var y := SafeDivide(SafeDivide(dividends, shares), adjClose);
            && (shares != 0.0 && adjClose != 0.0 ==> y * shares * adjClose == dividends)
            && (shares == 0.0 || adjClose == 0.0 ==> y == 0.0)
  {
    var rate := SafeDivide(dividends, shares);
    var y := SafeDivide(rate, adjClose);
    if shares != 0.0 && adjClose != 0.0 {
      assert y * adjClose == rate;
      assert rate * shares == dividends;
      calc {
        y * shares * adjClose;
        (y * adjClose) * shares;
        rate * shares;
        dividends;
      }
    }
  }

  /** The per-cell body of the source's loop, with its `try`/`except`: the
      cell fails iff one of the eight fields cannot be converted, and then
      names the ticker and the first such field in reading order; otherwise
      it holds the ratios of the amounts read. */
  function ComputeCell(stock: Ticker, metrics: Record): (c: Cell)
    ensures c.Failed? <==> exists i :: 0 <= i < |RatioInputs| && Unconvertible(metrics, RatioInputs[i])
    ensures c.Failed? ==> c.stock == stock && exists i :: FirstUnconvertible(metrics, RatioInputs, i) && c.field == RatioInputs[i]
    ensures c.Ratios? ==> RatiosFit(c.record, metrics)
  {
    match ComputeRatios(metrics)
    case Ok(record) => Ratios(record)
    case Err(field) => Failed(stock, field)
  }

  /** `calculate_financial_ratios` over the whole table: the same dates, the
      same tickers under each date (a date with no ticker stays, with an empty
      mapping), and a cell fails exactly when its own record has a field that
      cannot be converted. */
  function CalculateRatios(table: Table): (out: RatioTable)
    ensures out.Keys == table.Keys
    ensures forall d :: d in out ==> out[d].Keys == table[d].Keys
    ensures forall d, s :: d in out && s in out[d] ==>
              (out[d][s].Failed? <==> exists i :: 0 <= i < |RatioInputs| && Unconvertible(table[d][s], RatioInputs[i]))
    ensures forall d, s :: d in out && s in out[d] && out[d][s].Failed? ==> out[d][s].stock == s
    ensures forall d, s :: d in out && s in out[d] && out[d][s].Ratios? ==> RatiosFit(out[d][s].record, table[d][s])
  {
    map d | d in table :: map s | s in table[d] :: ComputeCell(s, table[d][s])
  }

  /** Fault isolation: a cell's output depends on its own ticker and record
      alone, so a failing cell elsewhere cannot change it. */
  lemma CellIsolation(t1: Table, t2: Table, d: Date, s: Ticker)
    requires d in t1 && s in t1[d]
    requires d in t2 && s in t2[d]
    requires t1[d][s] == t2[d][s]
    ensures d in CalculateRatios(t1) && s in CalculateRatios(t1)[d]
    ensures d in CalculateRatios(t2) && s in CalculateRatios(t2)[d]
    ensures CalculateRatios(t1)[d][s] == CalculateRatios(t2)[d][s]
  {
  }

  /** A worked example: equity 100, net income 20, 10 shares
      and an adjusted close of 50 give ROE 0.2, market-to-book 5 and a market
      capitalisation of 500; the fields left absent read as 0. */
  lemma WorkedExample()
    ensures var metrics := map[EquityKey := Num(100.0), NetIncomeKey := Num(20.0),
                               SharesKey := Num(10.0), AdjCloseKey := Num(50.0)];
            ComputeCell("ACME", metrics) ==
              Ratios(RatioRecord(
                roe := 0.2, debtToEquity := 0.0, profitMargin := 0.0, operatingCashFlowDebt := 0.0,
                marketToBook := 5.0, dividendYield := 0.0, marketCap := 500.0, adjClose := 50.0))
  {
    var metrics := map[EquityKey := Num(100.0), NetIncomeKey := Num(20.0),
                       SharesKey := Num(10.0), AdjCloseKey := Num(50.0)];
    ExampleReads(metrics);
    var c := ComputeCell("ACME", metrics);
    ExampleFits(c.record);
  }

  lemma ExampleReads(metrics: Record)
    requires metrics == map[EquityKey := Num(100.0), NetIncomeKey := Num(20.0),
                            SharesKey := Num(10.0), AdjCloseKey := Num(50.0)]
    ensures forall i :: 0 <= i < |RatioInputs| ==> !Unconvertible(metrics, RatioInputs[i])
    ensures Amount(metrics, EquityKey) == 100.0 && Amount(metrics, NetIncomeKey) == 20.0
    ensures Amount(metrics, SharesKey) == 10.0 && Amount(metrics, AdjCloseKey) == 50.0
    ensures Amount(metrics, DebtKey) == 0.0 && Amount(metrics, OperatingCashflowKey) == 0.0
    ensures Amount(metrics, RevenueKey) == 0.0 && Amount(metrics, DividendsKey) == 0.0
  {
  }

  lemma ExampleFits(record: RatioRecord)
    requires Fits(record, 100.0, 0.0, 20.0, 0.0, 0.0, 0.0, 10.0, 50.0)
    ensures record == RatioRecord(
              roe := 0.2, debtToEquity := 0.0, profitMargin := 0.0, operatingCashFlowDebt := 0.0,
              marketToBook := 5.0, dividendYield := 0.0, marketCap := 500.0, adjClose := 50.0)
  {
  }
}
