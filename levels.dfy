/** Value types the order book is built from: price levels, sides, the
    snapshot message, and the two price comparators that order the sides. */
module Levels {

  /** Prices and amounts are exact decimals; `real` is exact in Dafny. */
  type Price = real
  type Amount = real

  datatype Option<+T> = None | Some(value: T)

  /** One aggregated level of the book: the resting amount at a price. */
  datatype PriceLevel = PriceLevel(price: Price, amount: Amount)

  /** The side an incremental update belongs to. */
  datatype Side = Buy | Sell

  /** A full snapshot of the book, as delivered by the feed. */
  datatype Orderbook = Orderbook(asks: seq<PriceLevel>, bids: seq<PriceLevel>)

  /** The order a side keeps its levels in: asks ascending, bids descending. */
  datatype Order = Ascending | Descending

  /** `p` strictly precedes `q` in order `o`. */
  predicate Before(o: Order, p: Price, q: Price) {
    if o.Ascending? then p < q else p > q
  }

  /** The ask comparator: positive when `a` is the higher price, zero on
      equal prices, negative otherwise, so asks sort lowest price first. */
  function CompareAsks(a: PriceLevel, b: PriceLevel): (c: int)
    ensures c == 0 <==> a.price == b.price
    ensures c < 0 <==> a.price < b.price
    ensures c > 0 <==> a.price > b.price
    ensures -1 <= c <= 1
  {
    if a.price > b.price then 1 else if a.price == b.price then 0 else -1
  }

  /** The bid comparator: the ask comparator with its sign flipped, so bids
      sort highest price first; the amount never takes part. */
  function CompareBids(a: PriceLevel, b: PriceLevel): (c: int)
    ensures c == 0 <==> a.price == b.price
    ensures c < 0 <==> a.price > b.price
    ensures c > 0 <==> a.price < b.price
    ensures c == CompareAsks(b, a)
  {
    if a.price > b.price then -1 else if a.price == b.price then 0 else 1
  }

  /** The comparator of the side kept in order `o`. */
  function Compare(o: Order, a: PriceLevel, b: PriceLevel): (c: int)
    ensures c < 0 <==> Before(o, a.price, b.price)
    ensures c > 0 <==> Before(o, b.price, a.price)
    ensures c == 0 <==> a.price == b.price
  {
    if o.Ascending? then CompareAsks(a, b) else CompareBids(a, b)
  }

  /** The comparator of either side is a strict total order on prices:
      irreflexive, antisymmetric in sign, transitive, and total. */
  lemma CompareIsStrictTotalOrder(o: Order, a: PriceLevel, b: PriceLevel, c: PriceLevel)
    ensures Compare(o, a, a) == 0
    ensures Compare(o, a, b) == -Compare(o, b, a)
    ensures Compare(o, a, b) < 0 && Compare(o, b, c) < 0 ==> Compare(o, a, c) < 0
    ensures a.price != b.price ==> Compare(o, a, b) != 0
  {
  }
}
