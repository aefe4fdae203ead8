/** A client of the order book that replays a snapshot and three updates
    and states what the book and the rendered spread are after each step. */
module Scenario {
  import opened Levels
  import opened Trees
  import opened BookSpec
  import opened Book

  const A101 := PriceLevel(101.0, 1.0)
  const A102 := PriceLevel(102.0, 2.0)
  const B99 := PriceLevel(99.0, 1.0)
  const B98 := PriceLevel(98.0, 2.0)
  const B100 := PriceLevel(100.0, 5.0)

  /** The snapshot repeats price 101; its first level is the one kept. */
  lemma SnapshotSides()
    ensures Populated(Ascending, [A102, A101, PriceLevel(101.0, 7.0)]) == [A101, A102]
    ensures Populated(Descending, [B98, B99]) == [B99, B98]
  {
    var askLevels := [A102, A101, PriceLevel(101.0, 7.0)];
    assert askLevels[..2] == [A102, A101] && [A102, A101][..1] == [A102] && [A102][..0] == [];
    assert [B98, B99][..1] == [B98] && [B98][..0] == [];
    assert Populated(Ascending, [A102]) == [A102];
    assert Populated(Ascending, [A102, A101]) == [A101, A102];
    assert Populated(Descending, [B98]) == [B98];
  }

  lemma UpdateSides()
    ensures ApplyUpdate(Ascending, [A101, A102], PriceLevel(101.0, 0.0)) == [A102]
    ensures ApplyUpdate(Descending, [B99, B98], B100) == [B100, B99, B98]
    ensures ApplyUpdate(Descending, [B100, B99, B98], PriceLevel(100.0, 1.5)) == [PriceLevel(100.0, 1.5), B99, B98]
  {
  }

  method SnapshotThenUpdates() {
    SnapshotSides();
    UpdateSides();
    var book := new SimpleOrderbook();

    var view := book.OrderbookSnapshot(Orderbook([A102, A101, PriceLevel(101.0, 7.0)], [B98, B99]));
    assert book.asks.items == [A101, A102] && book.bids.items == [B99, B98];
    assert view.spread == Some(2.0);

    view := book.OrderbookUpdate(Sell, PriceLevel(101.0, 0.0));
    assert book.asks.items == [A102];
    assert view.spread == Some(3.0);

    view := book.OrderbookUpdate(Buy, B100);
    assert book.bids.items == [B100, B99, B98] && book.asks.items == [A102];
    assert view.spread == Some(2.0);

    view := book.OrderbookUpdate(Buy, PriceLevel(100.0, 1.5));
    assert book.bids.items == [PriceLevel(100.0, 1.5), B99, B98];
    assert book.asks.items == [A102] && view.spread == Some(2.0);
  }
}
