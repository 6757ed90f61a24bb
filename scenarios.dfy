// Clients of the book: the snapshot round trip, idempotent ticks, a tick on an empty
// book, and the concrete scenarios of the source's header comment and `main`.

module BookScenarios {
  import opened PriceLevel
  import opened BookSide
  import opened BinanceBook

  /** `extract` after `replace` gives back exactly the snapshot, whatever its order. */
  method ReplaceThenExtract(newBids: seq<PriceQuantity>, newAsks: seq<PriceQuantity>)
    returns (bestBids: seq<PriceQuantity>, bestAsks: seq<PriceQuantity>)
    ensures bestBids == newBids && bestAsks == newAsks
  {
    var book := new BinanceBook();
    book.Replace(newBids, newAsks);
    bestBids, bestAsks := book.Extract();
    ReverseInvolutive(newBids);
    ReverseInvolutive(newAsks);
  }

  /** On a fresh book a tick leaves exactly one level per side and the book non-empty. */
  method TickOnEmptyBook(ticker: BookTicker)
    returns (emptyBefore: bool, bestBids: seq<PriceQuantity>, bestAsks: seq<PriceQuantity>, emptyAfter: bool)
    ensures emptyBefore && !emptyAfter
    ensures bestBids == [ticker.BidLevel()] && bestAsks == [ticker.AskLevel()]
  {
    var book := new BinanceBook();
    book.Clear();
    emptyBefore := book.IsEmpty();
    book.UpdateBbo(ticker);
    bestBids, bestAsks := book.Extract();
    emptyAfter := book.IsEmpty();
  }

  /** On a book loaded from a canonical snapshot, repeating a tick changes nothing more. */
  method RepeatedTick(newBids: seq<PriceQuantity>, newAsks: seq<PriceQuantity>, ticker: BookTicker)
    returns (onceBids: seq<PriceQuantity>, onceAsks: seq<PriceQuantity>,
             twiceBids: seq<PriceQuantity>, twiceAsks: seq<PriceQuantity>)
    requires BestFirst(Bid, newBids) && BestFirst(Ask, newAsks)
    ensures onceBids == twiceBids && onceAsks == twiceAsks
    ensures |onceBids| <= |newBids| + 1 && |onceAsks| <= |newAsks| + 1
  {
    var book := new BinanceBook();
    book.Replace(newBids, newAsks);
    ghost var b0, a0 := book.bids, book.asks;
    book.UpdateBbo(ticker);
    onceBids, onceAsks := book.Extract();
    book.UpdateBbo(ticker);
    twiceBids, twiceAsks := book.Extract();
    ApplyTopIdempotent(Bid, b0, ticker.BidLevel());
    ApplyTopIdempotent(Ask, a0, ticker.AskLevel());
  }

  /**
   * The header's uncrossing example: book 99/97/95 | 101/103/105 and tick 100 | 102.
   * The improving bid is appended and keeps every deeper level; 101 is inferred gone.
   */
  method HeaderExample() returns (bestBids: seq<PriceQuantity>, bestAsks: seq<PriceQuantity>)
    ensures bestBids == [PriceQuantity(100.0, 1.0), PriceQuantity(99.0, 1.0),
                         PriceQuantity(97.0, 1.0), PriceQuantity(95.0, 1.0)]
    ensures bestAsks == [PriceQuantity(102.0, 1.0), PriceQuantity(103.0, 1.0), PriceQuantity(105.0, 1.0)]
  {
    var book := new BinanceBook();
    book.Replace([PriceQuantity(99.0, 1.0), PriceQuantity(97.0, 1.0), PriceQuantity(95.0, 1.0)],
                 [PriceQuantity(101.0, 1.0), PriceQuantity(103.0, 1.0), PriceQuantity(105.0, 1.0)]);
    assert book.bids == [PriceQuantity(95.0, 1.0), PriceQuantity(97.0, 1.0), PriceQuantity(99.0, 1.0)];
    assert book.asks == [PriceQuantity(105.0, 1.0), PriceQuantity(103.0, 1.0), PriceQuantity(101.0, 1.0)];
    assert book.Valid();
    SurvivorsAtSplit(Bid, book.bids, 100.0, 3);
    SurvivorsAtSplit(Ask, book.asks, 102.0, 2);
    book.UpdateBbo(BookTicker(100.0, 1.0, 102.0, 1.0));
    assert book.bids == [PriceQuantity(95.0, 1.0), PriceQuantity(97.0, 1.0), PriceQuantity(99.0, 1.0),
                         PriceQuantity(100.0, 1.0)];
    assert book.asks == [PriceQuantity(105.0, 1.0), PriceQuantity(103.0, 1.0), PriceQuantity(102.0, 1.0)];
    bestBids, bestAsks := book.Extract();
  }

  /** The first checks of the source's `main`: a fresh book is empty, a snapshot reads back best-first. */
  method MainSnapshot()
    returns (emptyAtStart: bool, snapshotBids: seq<PriceQuantity>, snapshotAsks: seq<PriceQuantity>)
    ensures emptyAtStart
    ensures snapshotBids == [PriceQuantity(100.0, 1.0), PriceQuantity(99.0, 2.0), PriceQuantity(98.0, 3.0)]
    ensures snapshotAsks == [PriceQuantity(101.0, 1.0), PriceQuantity(102.0, 2.0), PriceQuantity(103.0, 3.0)]
  {
    var book := new BinanceBook();
    emptyAtStart := book.IsEmpty();
    book.Replace([PriceQuantity(100.0, 1.0), PriceQuantity(99.0, 2.0), PriceQuantity(98.0, 3.0)],
                 [PriceQuantity(101.0, 1.0), PriceQuantity(102.0, 2.0), PriceQuantity(103.0, 3.0)]);
    snapshotBids, snapshotAsks := book.Extract();
    ReverseInvolutive([PriceQuantity(100.0, 1.0), PriceQuantity(99.0, 2.0), PriceQuantity(98.0, 3.0)]);
    ReverseInvolutive([PriceQuantity(101.0, 1.0), PriceQuantity(102.0, 2.0), PriceQuantity(103.0, 3.0)]);
  }

  /**
   * The remaining checks of the source's `main`, each side compared in full: the tick
   * 99 | 102 replaces the quantity at 99 and drops 100 and 101; the tick 105 | 120 is a
   * pure append on the bids and sweeps every ask; `clear` empties the book.
   */
  method MainTicks()
    returns (firstBids: seq<PriceQuantity>, firstAsks: seq<PriceQuantity>,
             secondBids: seq<PriceQuantity>, secondAsks: seq<PriceQuantity>,
             emptyAtEnd: bool)
    ensures firstBids == [PriceQuantity(99.0, 3.0), PriceQuantity(98.0, 3.0)]
    ensures firstAsks == [PriceQuantity(102.0, 3.0), PriceQuantity(103.0, 3.0)]
    ensures secondBids == [PriceQuantity(105.0, 5.0), PriceQuantity(99.0, 3.0), PriceQuantity(98.0, 3.0)]
    ensures secondAsks == [PriceQuantity(120.0, 5.0)]
    ensures emptyAtEnd
  {
    var book := new BinanceBook();
    book.Replace([PriceQuantity(100.0, 1.0), PriceQuantity(99.0, 2.0), PriceQuantity(98.0, 3.0)],
                 [PriceQuantity(101.0, 1.0), PriceQuantity(102.0, 2.0), PriceQuantity(103.0, 3.0)]);
    assert book.bids == [PriceQuantity(98.0, 3.0), PriceQuantity(99.0, 2.0), PriceQuantity(100.0, 1.0)];
    assert book.asks == [PriceQuantity(103.0, 3.0), PriceQuantity(102.0, 2.0), PriceQuantity(101.0, 1.0)];
    assert book.Valid();

    SurvivorsAtSplit(Bid, book.bids, 99.0, 1);
    SurvivorsAtSplit(Ask, book.asks, 102.0, 1);
    book.UpdateBbo(BookTicker(99.0, 3.0, 102.0, 3.0));
    assert book.bids == [PriceQuantity(98.0, 3.0), PriceQuantity(99.0, 3.0)];
    assert book.asks == [PriceQuantity(103.0, 3.0), PriceQuantity(102.0, 3.0)];
    firstBids, firstAsks := book.Extract();

    SurvivorsAtSplit(Bid, book.bids, 105.0, 2);
    SurvivorsAtSplit(Ask, book.asks, 120.0, 0);
    book.UpdateBbo(BookTicker(105.0, 5.0, 120.0, 5.0));
    assert book.bids == [PriceQuantity(98.0, 3.0), PriceQuantity(99.0, 3.0), PriceQuantity(105.0, 5.0)];
    assert book.asks == [PriceQuantity(120.0, 5.0)];
    secondBids, secondAsks := book.Extract();

    book.Clear();
    emptyAtEnd := book.IsEmpty();
  }
}
