/** The order book kept by the listener: two trees, asks ascending and bids
    descending by price, replaced by snapshots, patched by updates, and
    rendered as the top rows of each side and the spread. */
module Book {
  import opened Levels
  import opened Trees
  import opened BookSpec

  class SimpleOrderbook {
    const asks: Tree
    const bids: Tree

    ghost predicate Valid()
      reads asks, bids
    {
      && asks != bids
      && asks.order == Ascending && asks.Valid()
      && bids.order == Descending && bids.Valid()
    }

    /** Both sides start empty: asks sorted by the ask comparator, bids by
        the bid comparator. */
    constructor ()
      ensures Valid() && fresh(asks) && fresh(bids)
      ensures asks.items == [] && bids.items == []
    {
      asks := new Tree(Ascending);
      bids := new Tree(Descending);
    }

    /** The snapshot handler: empties both sides, inserts every level of
        the snapshot into its side in list order, then renders. */
    method OrderbookSnapshot(orderbook: Orderbook) returns (view: BookView)
      requires Valid()
      modifies asks, bids
      ensures Valid()
      ensures asks.items == Populated(Ascending, orderbook.asks)
      ensures bids.items == Populated(Descending, orderbook.bids)
      ensures view == Render(asks.items, bids.items)
    {
      asks.Clear();
      bids.Clear();
      var i := 0;
      while i < |orderbook.asks|
        invariant 0 <= i <= |orderbook.asks|
        invariant asks.Valid() && bids.Valid()
        invariant asks.items == Populated(Ascending, orderbook.asks[..i])
        invariant bids.items == []
      {
        assert orderbook.asks[..i + 1][..i] == orderbook.asks[..i];
        var _ := asks.Insert(orderbook.asks[i]);
        i := i + 1;
      }
      assert orderbook.asks[..i] == orderbook.asks;
      var j := 0;
      while j < |orderbook.bids|
        invariant 0 <= j <= |orderbook.bids|
        invariant asks.Valid() && bids.Valid()
        invariant asks.items == Populated(Ascending, orderbook.asks)
        invariant bids.items == Populated(Descending, orderbook.bids[..j])
      {
        assert orderbook.bids[..j + 1][..j] == orderbook.bids[..j];
        var _ := bids.Insert(orderbook.bids[j]);
        j := j + 1;
      }
      assert orderbook.bids[..j] == orderbook.bids;
      view := PrintOrderbook();
    }

    /** The update handler: a buy update goes to the bids, any other to the
        asks; the level at the price is removed when the amount is zero or
        the price is present, and inserted when the amount is non-zero.
        The other side is not touched. */
    method OrderbookUpdate(side: Side, priceLevel: PriceLevel) returns (view: BookView)
      requires Valid()
      modifies asks, bids
      ensures Valid()
      ensures side == Buy ==>
        && bids.items == ApplyUpdate(Descending, old(bids.items), priceLevel)
        && asks.items == old(asks.items)
      ensures side != Buy ==>
        && asks.items == ApplyUpdate(Ascending, old(asks.items), priceLevel)
        && bids.items == old(bids.items)
      ensures view == Render(asks.items, bids.items)
    {
      var tree := if side == Buy then bids else asks;
      var found := tree.Find(priceLevel);
      if priceLevel.amount == 0.0 || found.Some? {
        var _ := tree.Remove(priceLevel);
      }
      if priceLevel.amount != 0.0 {
        var _ := tree.Insert(priceLevel);
      }
      view := PrintOrderbook();
    }

    /** The rendering: walks the asks from the best, putting each in front
        of the rows so far, and the bids from the best, appending each,
        stopping a side at `Depth` rows; the spread is the last ask row's
        price minus the first bid row's price. */
    method PrintOrderbook() returns (view: BookView)
      requires Valid()
      ensures view == Render(asks.items, bids.items)
    {
      var askRows: seq<PriceLevel> := [];
      var i := 0;
      while i < |asks.items| && |askRows| < Depth
        invariant 0 <= i <= |asks.items| && i <= Depth
        invariant askRows == Reverse(asks.items[..i])
      {
        assert asks.items[..i + 1][..i] == asks.items[..i];
        askRows := [asks.items[i]] + askRows;
        i := i + 1;
      }

      var bidRows: seq<PriceLevel> := [];
      var j := 0;
      while j < |bids.items| && |bidRows| < Depth
        invariant 0 <= j <= |bids.items| && j <= Depth
        invariant bidRows == bids.items[..j]
      {
        bidRows := bidRows + [bids.items[j]];
        j := j + 1;
      }

      var spread := None;
      if askRows != [] && bidRows != [] {
        spread := Some(askRows[|askRows| - 1].price - bidRows[0].price);
      }
      view := BookView(askRows, bidRows, spread);
    }
  }
}
