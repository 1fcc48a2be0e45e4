/** What both order handlers share: the request a broker is sent, and the arithmetic of a
    percentage test against an entry price. */
module Orders {
  datatype Side = Buy | Sell
  datatype OrderRequest = OrderRequest(ticker: string, price: real, quantity: real, side: Side)

  lemma ScaleOrder(ratio: real, entry: real, change: real, bound: real)
    requires entry != 0.0 && change == ratio * entry
    ensures ratio <= bound <==> if entry > 0.0 then change <= bound * entry else change >= bound * entry
    ensures ratio >= bound <==> if entry > 0.0 then change >= bound * entry else change <= bound * entry
  {
    assert change - bound * entry == (ratio - bound) * entry;
  }
}
