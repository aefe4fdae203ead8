/** What the listener does to one side of the book, and what it shows,
    as functions of the side's entries; the class in module Book is
    proved to follow these, and the lemmas here say what they mean. */
module BookSpec {
  import opened Levels
  import opened Trees

  /** How many levels of each side are shown. */
  const Depth: nat := 10

  function Min(a: int, b: int): int {
    if a < b then a else b
  }

  /** The side after its snapshot levels are inserted, in list order, into
      an emptied tree. */
  function Populated(o: Order, levels: seq<PriceLevel>): (r: seq<PriceLevel>)
    ensures forall y :: y in r ==> y in levels
  {
    if levels == [] then []
    else InsertInto(o, Populated(o, levels[..|levels| - 1]), levels[|levels| - 1])
  }

  /** The side after one incremental update: the level at that price is
      removed when the amount is zero or the price is present, and the new
      level is inserted when the amount is non-zero. */
  function ApplyUpdate(o: Order, s: seq<PriceLevel>, level: PriceLevel): (r: seq<PriceLevel>)
    ensures forall y :: y in r ==> y in s || y == level
    ensures level.amount == 0.0 ==> |r| <= |s|
  {
    var cleared :=
      if level.amount == 0.0 || Lookup(s, level.price).Some? then RemoveFrom(o, s, level) else s;
    if level.amount != 0.0 then InsertInto(o, cleared, level) else cleared
  }

  /** No stored level has a zero amount. */
  predicate NoZeroAmounts(s: seq<PriceLevel>) {
    forall i :: 0 <= i < |s| ==> s[i].amount != 0.0
  }

  function Reverse<T>(s: seq<T>): (r: seq<T>)
    ensures |r| == |s|
    ensures forall k :: 0 <= k < |s| ==> r[k] == s[|s| - 1 - k]
  {
    if s == [] then [] else [s[|s| - 1]] + Reverse(s[..|s| - 1])
  }

  /** The ask rows shown: the first `Depth` asks of the tree, each put in
      front of the ones before it, so the list ends with the best ask. */
  function TopAsks(items: seq<PriceLevel>): (rows: seq<PriceLevel>)
    ensures |rows| == Min(|items|, Depth) <= Depth
    ensures forall k :: 0 <= k < |rows| ==> rows[k] == items[|rows| - 1 - k]
  {
    Reverse(items[..Min(|items|, Depth)])
  }

  /** The bid rows shown: the first `Depth` bids of the tree, in order. */
  function TopBids(items: seq<PriceLevel>): (rows: seq<PriceLevel>)
    ensures |rows| == Min(|items|, Depth) <= Depth
    ensures forall k :: 0 <= k < |rows| ==> rows[k] == items[k]
  {
    items[..Min(|items|, Depth)]
  }

  /** The spread row: last ask row's price minus first bid row's price.
      `None` is where the original dereferences a missing row and throws. */
  function Spread(askRows: seq<PriceLevel>, bidRows: seq<PriceLevel>): (r: Option<Price>)
    ensures r.Some? <==> askRows != [] && bidRows != []
  {
    if askRows != [] && bidRows != [] then
      Some(askRows[|askRows| - 1].price - bidRows[0].price)
    else None
  }

  /** What one rendering of the book shows. */
  datatype BookView = BookView(asks: seq<PriceLevel>, bids: seq<PriceLevel>, spread: Option<Price>)

  /** The spread shown is the difference between the first entries of the
      two trees (the best ask and the best bid), when both exist. */
  function Render(askItems: seq<PriceLevel>, bidItems: seq<PriceLevel>): (view: BookView)
    ensures |view.asks| == Min(|askItems|, Depth) && |view.bids| == Min(|bidItems|, Depth)
    ensures view.spread.Some? <==> askItems != [] && bidItems != []
    ensures view.spread.Some? ==> view.spread.value == askItems[0].price - bidItems[0].price
  {
    var askRows := TopAsks(askItems);
    var bidRows := TopBids(bidItems);
    BookView(askRows, bidRows, Spread(askRows, bidRows))
  }

  // ---------------------------------------------------------------------
  // Snapshots

  /** Front-to-back search of a list with one more level at its end. */
  lemma {:induction false} LookupAppend(s: seq<PriceLevel>, x: PriceLevel, p: Price)
    ensures Lookup(s + [x], p) ==
      if Lookup(s, p).Some? then Lookup(s, p) else if x.price == p then Some(x) else None
  {
    if s != [] {
      assert (s + [x])[1..] == s[1..] + [x];
      LookupAppend(s[1..], x, p);
    }
  }

  /** After a snapshot a side is sorted and holds, at each price, exactly
      the first level of the snapshot list at that price (later duplicates
      are refused by the tree), and nothing at prices the list lacks.
      Zero amounts are stored like any other. */
  lemma {:induction false} PopulatedLookup(o: Order, levels: seq<PriceLevel>)
    ensures Sorted(o, Populated(o, levels))
    ensures forall p :: Lookup(Populated(o, levels), p) == Lookup(levels, p)
  {
    if levels != [] {
      var init, x := levels[..|levels| - 1], levels[|levels| - 1];
      assert levels == init + [x];
      PopulatedLookup(o, init);
      InsertIntoSorted(o, Populated(o, init), x);
      InsertIntoLookup(o, Populated(o, init), x);
      forall p
        ensures Lookup(Populated(o, levels), p) == Lookup(levels, p)
      {
        LookupAppend(init, x, p);
      }
    }
  }

  /** The first snapshot level at its price is stored as given, even with a
      zero amount. */
  lemma SnapshotKeepsFirstLevel(o: Order, levels: seq<PriceLevel>, i: int)
    requires 0 <= i < |levels|
    requires forall j :: 0 <= j < i ==> levels[j].price != levels[i].price
    ensures levels[i] in Populated(o, levels)
  {
    PopulatedLookup(o, levels);
    FirstAtPrice(levels, i);
  }

  lemma {:induction false} FirstAtPrice(s: seq<PriceLevel>, i: int)
    requires 0 <= i < |s|
    requires forall j :: 0 <= j < i ==> s[j].price != s[i].price
    ensures Lookup(s, s[i].price) == Some(s[i])
  {
    if i > 0 {
      FirstAtPrice(s[1..], i - 1);
    }
  }

  // ---------------------------------------------------------------------
  // Incremental updates

  /** What an upsert by price leaves at price `p`: nothing at the updated
      price when the amount is zero, the new level there otherwise, and what
      was there before at every other price. */
  function Upserted(s: seq<PriceLevel>, level: PriceLevel, p: Price): Option<PriceLevel> {
    if p != level.price then Lookup(s, p)
    else if level.amount == 0.0 then None
    else Some(level)
  }

  /** An update is an upsert by price: afterwards the side is still sorted,
      holds nothing at the price when the amount is zero and exactly the new
      level otherwise (replacing, not adding to, the old amount), and holds
      what it held before at every other price. */
  lemma UpdateIsUpsert(o: Order, s: seq<PriceLevel>, level: PriceLevel)
    requires Sorted(o, s)
    ensures Sorted(o, ApplyUpdate(o, s, level))
    ensures forall p :: Lookup(ApplyUpdate(o, s, level), p) == Upserted(s, level, p)
  {
    RemoveFromLookup(o, s, level);
    var cleared :=
      if level.amount == 0.0 || Lookup(s, level.price).Some? then RemoveFrom(o, s, level) else s;
    InsertIntoSorted(o, cleared, level);
    InsertIntoLookup(o, cleared, level);
  }

  /** Deleting a price the side does not hold leaves the side as it was. */
  lemma DeleteAbsentIsNoOp(o: Order, s: seq<PriceLevel>, level: PriceLevel)
    requires Sorted(o, s)
    requires level.amount == 0.0 && Lookup(s, level.price).None?
    ensures ApplyUpdate(o, s, level) == s
  {
  }

  /** Applying the same update twice gives the same side as applying it once. */
  lemma UpdateIdempotent(o: Order, s: seq<PriceLevel>, level: PriceLevel)
    requires Sorted(o, s)
    ensures ApplyUpdate(o, ApplyUpdate(o, s, level), level) == ApplyUpdate(o, s, level)
  {
    var once := ApplyUpdate(o, s, level);
    UpdateIsUpsert(o, s, level);
    UpdateIsUpsert(o, once, level);
    SortedExtensional(o, ApplyUpdate(o, once, level), once);
  }

  /** Updates never store a zero amount, so a side without zero amounts
      keeps none. */
  lemma UpdateKeepsNoZeroAmounts(o: Order, s: seq<PriceLevel>, level: PriceLevel)
    requires NoZeroAmounts(s)
    ensures NoZeroAmounts(ApplyUpdate(o, s, level))
  {
    var r := ApplyUpdate(o, s, level);
    forall i | 0 <= i < |r|
      ensures r[i].amount != 0.0
    {
      assert r[i] in r;
    }
  }

  // ---------------------------------------------------------------------
  // What is shown

  /** The bid rows are the `Depth` highest bids, highest first: no more
      than `Depth`, fewer only when the side has fewer, strictly
      descending, and every bid left out is priced below every bid shown. */
  lemma TopBidsAreBest(bids: seq<PriceLevel>)
    requires Sorted(Descending, bids)
    ensures var rows := TopBids(bids);
      && |rows| == Min(|bids|, Depth)
      && Sorted(Descending, rows)
      && (forall i :: 0 <= i < |rows| ==> rows[i] in bids)
      && (forall i, j :: 0 <= i < |rows| <= j < |bids| ==> bids[j].price < rows[i].price)
  {
  }

  /** The ask rows are the `Depth` lowest asks listed highest first, so the
      best (lowest) ask is the last row, and every ask left out is priced
      above every ask shown. */
  lemma TopAsksAreBest(asks: seq<PriceLevel>)
    requires Sorted(Ascending, asks)
    ensures var rows := TopAsks(asks);
      && |rows| == Min(|asks|, Depth)
      && Sorted(Descending, rows)
      && (forall i :: 0 <= i < |rows| ==> rows[i] in asks)
      && (rows != [] ==> rows[|rows| - 1] == asks[0])
      && (forall i, j :: 0 <= i < |rows| <= j < |asks| ==> rows[i].price < asks[j].price)
  {
  }

  /** The spread shown is the best ask's price minus the best bid's price:
      the smallest difference between any ask and any bid on the book. It
      exists exactly when both sides are non-empty. */
  lemma SpreadIsBestAskMinusBestBid(asks: seq<PriceLevel>, bids: seq<PriceLevel>)
    requires Sorted(Ascending, asks) && Sorted(Descending, bids)
    ensures var spread := Render(asks, bids).spread;
      && (spread.Some? <==> asks != [] && bids != [])
      && (spread.Some? ==> spread.value == asks[0].price - bids[0].price)
      && (spread.Some? ==> forall i, j :: 0 <= i < |asks| && 0 <= j < |bids| ==>
            spread.value <= asks[i].price - bids[j].price)
  {
  }
}
