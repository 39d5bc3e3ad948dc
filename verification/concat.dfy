/** The cross-ticker concatenation of concat.py (`concat_stocks_datas_byDates`):
    one table keyed by price date, then by ticker, holding each ticker's
    statement record for that exact date with the day's adjusted close
    injected. */
module Concatenation {
  import opened Types

  /** The price file: date to (ticker to adjusted close). */
  type Prices = map<Date, map<Ticker, real>>

  /** The loaded per-ticker files: a ticker whose file is missing has no
      entry here, which the source treats as an empty file. */
  type StockFiles = map<Ticker, map<Date, Record>>

  /** A copy of `rec` with "Adj Close" set to `price`; every other field is
      kept as it was. */
  function WithAdjClose(rec: Record, price: real): (r: Record)
    ensures AdjCloseKey in r && r[AdjCloseKey] == Num(price)
    ensures forall k :: k != AdjCloseKey ==> (k in r <==> k in rec)
    ensures forall k :: k != AdjCloseKey && k in r ==> r[k] == rec[k]
  {
    rec[AdjCloseKey := Num(price)]
  }

  /** Ticker `s` has a record on date `d`. */
  ghost predicate Listed(files: StockFiles, s: Ticker, d: Date) {
    s in files && d in files[s]
  }

  /** Every copied record has a price; the source raises `KeyError` otherwise. */
  ghost predicate PricesCover(prices: Prices, components: seq<Ticker>, files: StockFiles) {
    forall d, s :: d in prices && s in components && Listed(files, s, d) ==> s in prices[d]
  }

  /** The inner loop over the component tickers for one price date. */
  method ConcatRow(prices: Prices, components: seq<Ticker>, files: StockFiles, d: Date)
    returns (row: map<Ticker, Record>)
    requires d in prices
    requires PricesCover(prices, components, files)
    ensures forall s :: s in row <==> s in components && Listed(files, s, d)
    ensures forall s :: s in row ==> s in prices[d] && row[s] == WithAdjClose(files[s][d], prices[d][s])
  {
    row := map[];
    for i := 0 to |components|
      invariant forall s :: s in row <==> s in components[..i] && Listed(files, s, d)
      invariant forall s :: s in row ==> s in prices[d] && row[s] == WithAdjClose(files[s][d], prices[d][s])
    {
      var s := components[i];
      if s in files && d in files[s] {
        assert Listed(files, s, d);
        row := row[s := WithAdjClose(files[s][d], prices[d][s])];
      }
    }
    assert components[..|components|] == components;
  }

  /** The whole concatenation. A cell (d, s) exists iff d is a price date,
      s a component and s's file has a record on d; the cell is that record
      with the day's price as "Adj Close". A date no ticker has a record on
      is absent, since the source only creates a date's entry on its first
      write, and a ticker without a file appears under no date. */
  method ConcatByDates(prices: Prices, components: seq<Ticker>, files: StockFiles) returns (table: Table)
    requires PricesCover(prices, components, files)
    ensures forall d, s :: (d in table && s in table[d]) <==> (d in prices && s in components && Listed(files, s, d))
    ensures forall d :: d in table ==> d in prices && table[d] != map[]
    ensures forall d, s :: d in table && s in table[d] ==>
              d in prices && s in files && d in files[s] && s in prices[d] && table[d][s] == WithAdjClose(files[s][d], prices[d][s])
    ensures forall s :: s !in files ==> forall d :: d in table ==> s !in table[d]
  {
    table := map[];
    var rest := prices.Keys;
    while true
      invariant rest <= prices.Keys
      invariant forall d :: d in table ==> d in prices && d !in rest && table[d] != map[]
      invariant forall d, s :: d in prices && d !in rest && s in components && Listed(files, s, d) ==>
                  d in table && s in table[d]
      invariant forall d, s :: d in table && s in table[d] ==>
                  s in components && Listed(files, s, d) &&
                  s in prices[d] && table[d][s] == WithAdjClose(files[s][d], prices[d][s])
      decreases rest
    {
      if d :| d in rest {
        var row := ConcatRow(prices, components, files, d);
        if row != map[] {
          table := table[d := row];
        }
        rest := rest - {d};
      } else {
        break;
      }
    }
  }
}
