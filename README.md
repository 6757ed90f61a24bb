# BinanceBook order book, modelled in Dafny

This project models the `BinanceBook` class of `BinanceBook-vector-optimised.cpp`.
It is a depth-limited, two-sided, price-level order book for a Binance-style feed.
The book is fed two kinds of updates:

- full snapshots of up to 20 levels per side, given best-first (bids highest to
  lowest, asks lowest to highest);
- best bid/offer (BBO) ticks, which give only the new top of book on each side.

Each side is held best-at-tail: `bidsInternal` is strictly ascending and
`asksInternal` is strictly descending. On a tick whose price does not improve on
the current best, the side binary-searches for the leftmost level at or past the
new price. It erases from there to the end and appends the new level. This is
called uncrossing: levels the tick implies are gone are removed.

Layout:

- `price_level.dfy`, module `PriceLevel`: `PriceQuantity` and `BookTicker`.
  Prices and quantities are `real`, because the source only compares prices.
- `book_side.dfy`, module `BookSide`: the `Side` policy, shared by both sides.
  - `Better` says which price is better on a side.
  - `InOrder` is the best-at-tail storage order. `BestFirst` is the exchange's canonical order.
  - `Survivors` and `ApplyTop` are the reference definition of a tick on one side.
  - `InsertionIndex` is the binary search shared by `insertBid` and `insertAsk`.
  - The lemmas relate these definitions to each other.
- `binance_book.dfy`, module `BinanceBook`: class `BinanceBook`.
  - The fields `bids` and `asks` are sequences, which the methods reassign in place.
  - `Valid()` means both sides are in storage order.
  - `Uncrossed()` means the best bid is below the best ask.
- `scenarios.dfy`, module `BookScenarios`: clients of the class. They cover the
  snapshot round trip, repeated ticks, a tick on an empty book, the header
  comment's uncrossing example and the checks of `main`.

The source does not validate its input. So `Replace` and `UpdateBbo` have no
preconditions. Their contracts say what happens for any input, and say more
when the sides are in order. `Replace` establishes `Valid()` exactly when the
snapshot is strictly best-first on both sides. `UpdateBbo` keeps `Valid()`.

## Model

| member | source | states |
|---|---|---|
| `BinanceBook.BinanceBook.constructor` | BinanceBook-vector-optimised.cpp:137-140 | a new book has no levels on either side, so it is valid and uncrossed |
| `BinanceBook.BinanceBook.Clear` | BinanceBook-vector-optimised.cpp:142-145 | both sides become empty |
| `BinanceBook.BinanceBook.IsEmpty` | BinanceBook-vector-optimised.cpp:147-149 | true if and only if both sides are empty |
| `BinanceBook.BinanceBook.Replace` | BinanceBook-vector-optimised.cpp:152-183 | each side becomes the reversal of its snapshot; the book is in storage order if and only if both snapshots were strictly best-first |
| `BinanceBook.BinanceBook.UpdateBbo` | BinanceBook-vector-optimised.cpp:185-198 | each side ends with the tick's level and keeps a prefix of its old levels, so it grows by at most one. On a side in order, the result is exactly the old levels strictly worse than the new price plus the new level. Validity is preserved. The book is uncrossed if and only if the tick's bid is below its ask |
| `BinanceBook.BinanceBook.Extract` | BinanceBook-vector-optimised.cpp:200-202 | returns each side read from its tail (best first); on a valid book, bids come out strictly descending and asks strictly ascending |
| `BinanceBook.BinanceBook.InsertBid` | BinanceBook-vector-optimised.cpp:238-258 | erases a tail of the bids and appends the new level; when the bids are ascending and the best is at or above the new price, the result is the reference update and stays ascending |
| `BinanceBook.BinanceBook.InsertAsk` | BinanceBook-vector-optimised.cpp:259-279 | erases a tail of the asks and appends the new level; when the asks are descending and the best is at or below the new price, the result is the reference update and stays descending |
| `BookSide.InsertionIndex` | BinanceBook-vector-optimised.cpp:241-254 | the search always stops inside a non-empty side (at 0 on an empty one). When the side is in order and its tail is at or past the price, which the caller guarantees, it returns the leftmost index at or past the price. The levels before it are then exactly the survivors. This also holds for the `insertAsk` copy at :262-275 |
| `BookSide.Survivors` | BinanceBook-vector-optimised.cpp:255-256 | the kept levels are no more than the input, and every one of them is strictly worse than the new best price |
| `BookSide.SurvivorsMembership` | BinanceBook-vector-optimised.cpp:255-256 | a level survives a tick if and only if it was on the side and is strictly worse than the new price |
| `BookSide.SurvivorsIsPrefix` | BinanceBook-vector-optimised.cpp:255-256 | on a side in storage order the survivors are a prefix of it: the erase removes a tail, keeping order and quantities |
| `BookSide.SurvivorsAtSplit` | BinanceBook-vector-optimised.cpp:241-256 | the split point the search establishes cuts off exactly the survivors |
| `BookSide.ApplyTopInOrder` | BinanceBook-vector-optimised.cpp:236-237 | a tick keeps a side strictly monotone, and so keeps its prices unique |
| `BookSide.ApplyTopFastPath` | BinanceBook-vector-optimised.cpp:187-188 | on an improving price the reference update is a pure append that keeps every deeper level |
| `BookSide.AppendTick` | BinanceBook-vector-optimised.cpp:187-194 | the append of the fast path keeps the old levels as a prefix, and on a side in order it equals the reference update and stays in order |
| `BookSide.ApplyTopIdempotent` | BinanceBook-vector-optimised.cpp:185-198 | applying the same tick twice gives the same side as applying it once |
| `BookSide.ReverseInvolutive` | BinanceBook-vector-optimised.cpp:200-202 | reversing twice gives the input back, so `extract` undoes `replace`'s reversal |
| `BookSide.BestFirstIffReverseInOrder` | BinanceBook-vector-optimised.cpp:156-157 | a snapshot is strictly best-first if and only if its reversal is in storage order |
| `BookScenarios.ReplaceThenExtract` | BinanceBook-vector-optimised.cpp:290-307 | `extract` after `replace` returns exactly the snapshot given |
| `BookScenarios.TickOnEmptyBook` | BinanceBook-vector-optimised.cpp:187-194 | a tick on an empty book leaves exactly the tick's level on each side, and the book is no longer empty |
| `BookScenarios.RepeatedTick` | BinanceBook-vector-optimised.cpp:185-198 | on a book loaded from a canonical snapshot, a repeated tick changes nothing, and each side grew by at most one |
| `BookScenarios.HeaderExample` | BinanceBook-vector-optimised.cpp:79-90 | book 99/97/95 against 101/103/105 with tick 100 against 102 gives bids 100/99/97/95 and asks 102/103/105 |
| `BookScenarios.MainSnapshot` | BinanceBook-vector-optimised.cpp:283-307 | a new book is empty, and the snapshot reads back best-first with its quantities |
| `BookScenarios.MainTicks` | BinanceBook-vector-optimised.cpp:309-334 | tick 99/102 gives bids 99(q3)/98 and asks 102(q3)/103. Then tick 105/120 gives bids 105(q5)/99(q3)/98 and asks 120(q5). After `clear` the book is empty |

Notes on reading the source:

- The header example at :82-89 keeps 95 after the tick 100 against 102. The code
  does this too, since 100 improves on 99 and takes the append path. Some
  descriptions of the example say 95 is dropped. The model follows the code
  (`BookScenarios.HeaderExample`).
- `insertBid`/`insertAsk` stop when `lo == hi` without inspecting that element.
  This is correct only because `update_bbo` calls them when the tail is at or past
  the new price. `BookSide.InsertionIndex` proves that under exactly that premise.
  Without it, the model still proves that the search terminates inside the side.

## Left out

- `to_string` (:204-233): the text table is presentation and relies on the library's `double` formatting.
- JSON decoding, the websocket streams and the `lastUpdateId`/`u` field (:9-34): these
  are described in comments only; nothing is implemented.
- The three `replace` overloads, the `PQContainer` concept and move semantics are
  collapsed into one `Replace` over sequences. `std::reverse` is the function `BookSide.Reverse`.
- The `capacity` template parameter and `reserve` (:132-140) only pre-size storage. Sequences have no capacity.
- `double` prices and quantities are mathematical reals. Rounding and NaN are not
  modelled, because only `<`, `>` and `==` are applied to prices.
- The `int` indices `lo`, `hi`, `mid` are unbounded. Overflow for vectors longer
  than `INT_MAX` is not modelled. On an empty vector `size() - 1` converts to -1,
  and the model writes -1.
- `BinanceBook.BinanceBook.UpdateBbo`: on a side not in storage order, which `replace`
  permits, the contract says only that a prefix of the old levels is kept followed by the
  new level. It does not say which prefix the search picks.
- `BookSide.InsertionIndex`: without the side in order or the tail at or past the price, it
  states only the bounds of the result.
- `BookScenarios.RepeatedTick`: idempotence is stated for books loaded from a canonical
  snapshot; for a side out of order the model does not state it.
