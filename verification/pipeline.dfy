/** How the concatenation feeds the ratio engine. */
module Pipeline {
  import opened Types
  import Concatenation
  import Ratios

  /** The price the concatenation injects is the adjusted close the ratio
      engine reads back and multiplies into the market capitalisation. */
  lemma InjectedPriceIsRead(stock: Ticker, rec: Record, price: real)
    ensures var cell := Ratios.ComputeCell(stock, Concatenation.WithAdjClose(rec, price));
            cell.Ratios? ==>
              && cell.record.adjClose == price
              && cell.record.marketCap == Ratios.Amount(rec, Ratios.SharesKey) * price
  {
    var m := Concatenation.WithAdjClose(rec, price);
    assert Ratios.Amount(m, AdjCloseKey) == price;
    assert Ratios.Amount(m, Ratios.SharesKey) == Ratios.Amount(rec, Ratios.SharesKey);
  }
}
