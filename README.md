# Simple order book — a verified model

This project models the order-book maintenance of `SimpleOrderbook` from the
Hydro protocol example order book. The order book keeps two price-keyed
sides in ordered trees: asks sorted by ascending price and bids sorted by
descending price. A feed listener with two handlers changes these trees:

- `orderbookSnapshot` empties both sides and inserts every level of a
  snapshot.
- `orderbookUpdate` upserts a single level on one side. An amount of zero
  means delete.

After each event, `printOrderbook` renders up to ten levels per side and
the spread.

The model has four modules:

- `levels.dfy` (module `Levels`) holds the value types: `PriceLevel`,
  `Side`, the `Orderbook` snapshot and `Order`. It also holds the ask and
  bid comparators, which compare on price only.
- `trees.dfy` (module `Trees`) holds the red-black tree as class `Tree`.
  The tree is abstracted to its entries in comparator order, in a `seq`
  field that `Clear`, `Insert` and `Remove` reassign.
  - `Insert` refuses an entry whose price is already present. The tree
    library's `insert` returns false in that case.
  - `Remove` drops the entry at an equal price.
  - `Find` returns the entry at an equal price.
  - Lemmas show that the sides stay strictly sorted. They also show what
    each operation does at every price, seen through `Lookup`.
- `book_spec.dfy` (module `BookSpec`) holds functions that describe one
  side after a snapshot (`Populated`) and after an update (`ApplyUpdate`).
  It also holds the rendered rows (`TopAsks`, `TopBids`) and the spread
  (`Spread`, `Render`). The lemmas state what these functions mean:
  - upsert by price;
  - idempotence;
  - first occurrence wins in a snapshot;
  - the rows shown are the best levels;
  - the spread is best ask minus best bid.
- `book.dfy` (module `Book`) holds class `SimpleOrderbook`. It has the two
  trees, the two handlers and the rendering loops. Each is proved against
  the functions in `BookSpec`.

`scenario.dfy` is a client. It replays a snapshot and three updates and
asserts the resulting book and spread after each step.

Prices and amounts are exact decimals in the original (`bignumber.js`). They
are modelled as Dafny `real`, which is exact. Only comparison and
subtraction are used.

What the code does, and the model with it:

- it stores zero-amount snapshot levels; it does not skip them;
- it has no initialisation state machine;
- it raises no configuration, not-initialised, stale-update or
  invalid-level errors;
- it does not reject negative prices or amounts;
- when a snapshot repeats a price, it keeps the first level, because the
  tree refuses the later ones.

## Model

| member | source | states |
|---|---|---|
| `Levels.CompareAsks` | src/lib/SimpleOrderbook.ts:14 | The ask comparator is negative, zero or positive exactly when the first price is lower than, equal to or higher than the second. Asks are therefore ordered by ascending price, and the amount plays no part. |
| `Levels.CompareBids` | src/lib/SimpleOrderbook.ts:16 | The bid comparator is negative exactly when the first price is higher, and zero exactly on equal prices. It equals the ask comparator with its arguments swapped, so bids are ordered by descending price. |
| `Levels.Compare` | src/lib/SimpleOrderbook.ts:13-16 | A side's comparator is negative exactly when the first price comes strictly before the second in that side's order. It is zero exactly on equal prices. |
| `Levels.CompareIsStrictTotalOrder` | src/lib/SimpleOrderbook.ts:14-16 | Either comparator is zero on equal prices, antisymmetric in sign and transitive. It never returns zero for two different prices. |
| `Trees.Lookup` | src/lib/SimpleOrderbook.ts:44 | Finding a price returns a stored level that has that price. It returns nothing exactly when no stored level has that price. |
| `Trees.LookupSorted` | src/lib/SimpleOrderbook.ts:14-16 | In a sorted side, every stored level is the one found at its own price, so a side never holds two levels at one price. |
| `Trees.InsertIntoSorted` | src/lib/SimpleOrderbook.ts:48 | Inserting into a side keeps it strictly sorted in the side's order. |
| `Trees.InsertIntoLookup` | src/lib/SimpleOrderbook.ts:35-36 | Inserting at a price that is already present leaves the side unchanged (the tree refuses it). Inserting at an absent price stores the level at that price and changes no other price. |
| `Trees.InsertInto` | src/lib/SimpleOrderbook.ts:48 | The tree's `insert`: every level of the result is an old level or the inserted one. Its meaning on sorted sides is given by InsertIntoSorted and InsertIntoLookup. |
| `Trees.RemoveFrom` | src/lib/SimpleOrderbook.ts:45 | The tree's `remove`: every level of the result was already stored, and the side never grows. Its meaning on sorted sides is given by RemoveFromLookup. |
| `Trees.RemoveFromLookup` | src/lib/SimpleOrderbook.ts:45 | Removing keeps the side sorted and leaves nothing at the removed price. Every other price keeps what it had. Removing an absent price changes nothing. |
| `Trees.SortedExtensional` | src/lib/SimpleOrderbook.ts:14-16 | Two sorted sides that hold the same level at every price are the same sequence. What a side holds is determined by price alone. |
| `Trees.Tree.constructor` | src/lib/SimpleOrderbook.ts:14 | A new tree is empty and ordered by the comparator it is given. |
| `Trees.Tree.Clear` | src/lib/SimpleOrderbook.ts:32-33 | Clearing leaves the tree empty and still valid. |
| `Trees.Tree.Find` | src/lib/SimpleOrderbook.ts:44 | Returns a stored level exactly when some stored level has the given price. The level returned has that price. |
| `Trees.Tree.Insert` | src/lib/SimpleOrderbook.ts:48 | Reports success exactly when the price was absent. The new entries are the old ones with the level inserted at its place. Sortedness is kept. |
| `Trees.Tree.Remove` | src/lib/SimpleOrderbook.ts:45 | Reports success exactly when the price was present. The new entries are the old ones without that price. Sortedness is kept. |
| `Book.SimpleOrderbook.constructor` | src/lib/SimpleOrderbook.ts:12-16 | A new book has two distinct, empty trees: the asks ascending and the bids descending. |
| `Book.SimpleOrderbook.OrderbookSnapshot` | src/lib/SimpleOrderbook.ts:30-39 | Each side becomes the snapshot's list for that side, inserted in order into an emptied tree. Nothing from before survives. The rendered view is that of the new book. |
| `Book.SimpleOrderbook.OrderbookUpdate` | src/lib/SimpleOrderbook.ts:40-52 | A buy update changes only the bids and any other update changes only the asks. The chosen side goes through the remove-then-insert step, and the other side is unchanged. The rendered view is that of the new book. |
| `Book.SimpleOrderbook.PrintOrderbook` | src/lib/SimpleOrderbook.ts:56-91 | The ask loop builds the first ten asks in reverse. The bid loop builds the first ten bids in order. The spread is the last ask row's price minus the first bid row's price, or absent when a side is empty. |
| `BookSpec.Reverse` | src/lib/SimpleOrderbook.ts:62 | Putting each level in front of the earlier ones yields a list of the same length whose k-th element is the k-th from the end. |
| `BookSpec.Spread` | src/lib/SimpleOrderbook.ts:91 | The spread exists exactly when both lists of rows are non-empty. |
| `BookSpec.Populated` | src/lib/SimpleOrderbook.ts:32-36 | A side after a snapshot holds only levels taken from the snapshot's list for that side. Its meaning is given by PopulatedLookup. |
| `BookSpec.ApplyUpdate` | src/lib/SimpleOrderbook.ts:44-49 | After an update a side holds only its old levels and the new one, and a zero-amount update never grows it. Its meaning is given by UpdateIsUpsert and UpdateIdempotent. |
| `BookSpec.TopAsks` | src/lib/SimpleOrderbook.ts:59-63 | There are min(n, 10) ask rows, and row k is the (rows − 1 − k)-th ask of the tree, so the rows are the first asks in reverse. TopAsksAreBest says which asks these are. |
| `BookSpec.TopBids` | src/lib/SimpleOrderbook.ts:65-69 | There are min(n, 10) bid rows, and row k is the k-th bid of the tree. TopBidsAreBest says which bids these are. |
| `BookSpec.Render` | src/lib/SimpleOrderbook.ts:56-91 | The view has min(n, 10) rows per side. Its spread exists exactly when both trees are non-empty, and it is the first ask's price minus the first bid's price. |
| `BookSpec.PopulatedLookup` | src/lib/SimpleOrderbook.ts:35-36 | After a snapshot, a side is strictly sorted. At every price it holds exactly the first level of the snapshot list at that price, and it holds nothing at prices the list lacks. |
| `BookSpec.SnapshotKeepsFirstLevel` | src/lib/SimpleOrderbook.ts:35-36 | The first snapshot level at each price is stored exactly as given, even when its amount is zero. Zero amounts are not filtered out. |
| `BookSpec.UpdateIsUpsert` | src/lib/SimpleOrderbook.ts:44-49 | After an update the side is still sorted. At the price it holds nothing when the amount is zero, and otherwise exactly the new level (the amount is replaced, not added). Every other price keeps what it had. |
| `BookSpec.DeleteAbsentIsNoOp` | src/lib/SimpleOrderbook.ts:44-46 | A zero-amount update at a price the side does not hold leaves the side unchanged. |
| `BookSpec.UpdateIdempotent` | src/lib/SimpleOrderbook.ts:44-49 | Applying the same update twice gives the same side as applying it once. |
| `BookSpec.UpdateKeepsNoZeroAmounts` | src/lib/SimpleOrderbook.ts:47-49 | Updates never store a zero amount, so a side without zero amounts keeps none. |
| `BookSpec.TopBidsAreBest` | src/lib/SimpleOrderbook.ts:65-69 | The bid rows are the min(10, size) highest bids in strictly descending order. Every bid left out is priced below every bid shown. |
| `BookSpec.TopAsksAreBest` | src/lib/SimpleOrderbook.ts:59-63 | The ask rows are the min(10, size) lowest asks in strictly descending order. The best (lowest) ask is the last row, and every ask left out is priced above every ask shown. |
| `BookSpec.SpreadIsBestAskMinusBestBid` | src/lib/SimpleOrderbook.ts:91 | The spread exists exactly when both sides are non-empty. It is the lowest ask price minus the highest bid price, which is the smallest difference between any ask and any bid on the book. |

## Left out

- The feed subscription (`HydroWatcher`), the SDK client (`HydroClient.withoutAuth`), `run` and `getMarket`, and the `market` field (src/lib/SimpleOrderbook.ts:8-10, 18-26) are left out. They are network and foreign SDK calls, and the market metadata is only used for formatting.
- Console output is left out: `console.clear`, colour codes, `toFixed`, `padStart` and `padEnd` (src/lib/SimpleOrderbook.ts:71-98). The handlers return the rendered rows and spread as a `BookView` instead of printing them.
- Book.SimpleOrderbook.PrintOrderbook: when either side is empty, the original throws a TypeError, because it reads `.price` of a missing row. The model returns a view whose spread is `None` instead. In both, the handler's change to the trees has already happened.
- The red-black tree's balancing and its iterator objects are left out. Each tree is the sequence of its entries in comparator order. Walking the iterator is indexing that sequence. The loop's extra `next()` call before the length check has no observable effect.
- Arithmetic inside `bignumber.js` is left out. Prices and amounts are exact `real`s. Non-finite values (NaN, ±Infinity) are not modelled: for NaN both `gt` and `eq` are false, so the original comparators order equal NaN prices as unequal and `amount.eq(0)` is false, which `real` cannot express.
- The SDK's `Side` enumeration is modelled as `Buy | Sell`. Any value other than `Buy` selects the asks, as in the original.
- src/index.ts is left out. It only reads the market id from the process arguments.
