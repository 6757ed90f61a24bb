// The two-sided book: a bid side and an ask side, each held best-at-tail, replaced
// wholesale by snapshots and updated in place by best bid/offer ticks.

module BinanceBook {
  import opened PriceLevel
  import opened BookSide

  /**
   * The source's `BinanceBook<capacity>`. `bids` is `bidsInternal` (ascending, best
   * bid last) and `asks` is `asksInternal` (descending, best ask last).
   */
  class BinanceBook {
    var bids: seq<PriceQuantity>
    var asks: seq<PriceQuantity>

    /** Each side in storage order, hence each side free of duplicate prices. */
    predicate Valid()
      reads this
    {
      InOrder(Bid, bids) && InOrder(Ask, asks)
    }

    /** The best bid is below the best ask whenever both sides have a level. */
    predicate Uncrossed()
      reads this
    {
      bids == [] || asks == [] || bids[|bids| - 1].price < asks[|asks| - 1].price
    }

    constructor ()
      ensures bids == [] && asks == []
      ensures Valid() && Uncrossed()
    {
      bids := [];
      asks := [];
    }

    method Clear()
      modifies this
      ensures bids == [] && asks == []
      ensures Valid() && Uncrossed()
    {
      bids := [];
      asks := [];
    }

    method IsEmpty() returns (empty: bool)
      ensures empty <==> bids == [] && asks == []
    {
      empty := |bids| == 0 && |asks| == 0;
    }

    /**
     * Loads a snapshot given best-first (bids descending, asks ascending). Nothing
     * about the input is checked: the book is in storage order exactly when the
     * snapshot was in canonical order.
     */
    method Replace(newBids: seq<PriceQuantity>, newAsks: seq<PriceQuantity>)
      modifies this
      ensures bids == Reverse(newBids) && asks == Reverse(newAsks)
      ensures Valid() <==> BestFirst(Bid, newBids) && BestFirst(Ask, newAsks)
    {
      bids := newBids;
      asks := newAsks;
      bids := Reverse(bids);
      asks := Reverse(asks);
      BestFirstIffReverseInOrder(Bid, newBids);
      BestFirstIffReverseInOrder(Ask, newAsks);
    }

    /**
     * Applies a best bid/offer tick to both sides. Whatever the state, each side keeps
     * a prefix of its old levels and ends with the tick's level; on a side in storage
     * order the prefix is exactly the old levels strictly worse than the new best.
     */
    method UpdateBbo(ticker: BookTicker)
      modifies this
      ensures |bids| > 0 && bids[|bids| - 1] == ticker.BidLevel()
      ensures |asks| > 0 && asks[|asks| - 1] == ticker.AskLevel()
      ensures bids[..|bids| - 1] <= old(bids) && asks[..|asks| - 1] <= old(asks)
      ensures |bids| <= |old(bids)| + 1 && |asks| <= |old(asks)| + 1
      ensures old(InOrder(Bid, bids)) ==> bids == ApplyTop(Bid, old(bids), ticker.BidLevel())
      ensures old(InOrder(Ask, asks)) ==> asks == ApplyTop(Ask, old(asks), ticker.AskLevel())
      ensures old(Valid()) ==> Valid()
      ensures Uncrossed() <==> ticker.bestBidPrice < ticker.bestAskPrice
    {
      if |bids| == 0 || bids[|bids| - 1].price < ticker.bestBidPrice {
        AppendTick(Bid, bids, ticker.BidLevel());
        bids := bids + [ticker.BidLevel()];
      } else {
        InsertBid(ticker.bestBidPrice, ticker.bestBidQty);
      }

      if |asks| == 0 || asks[|asks| - 1].price > ticker.bestAskPrice {
        AppendTick(Ask, asks, ticker.AskLevel());
        asks := asks + [ticker.AskLevel()];
      } else {
        InsertAsk(ticker.bestAskPrice, ticker.bestAskQty);
      }
    }

    /** Both sides best-first: bids descending, asks ascending when the book is valid. */
    method Extract() returns (bestBids: seq<PriceQuantity>, bestAsks: seq<PriceQuantity>)
      ensures bestBids == Reverse(bids) && bestAsks == Reverse(asks)
      ensures |bestBids| == |bids| && |bestAsks| == |asks|
      ensures forall k :: 0 <= k < |bids| ==> bestBids[k] == bids[|bids| - 1 - k]
      ensures forall k :: 0 <= k < |asks| ==> bestAsks[k] == asks[|asks| - 1 - k]
      ensures Valid() ==> BestFirst(Bid, bestBids) && BestFirst(Ask, bestAsks)
    {
      bestBids := Reverse(bids);
      bestAsks := Reverse(asks);
      forall k | 0 <= k < |bids|
        ensures bestBids[k] == bids[|bids| - 1 - k]
      {
        ReverseAt(bids, k);
      }
      forall k | 0 <= k < |asks|
        ensures bestAsks[k] == asks[|asks| - 1 - k]
      {
        ReverseAt(asks, k);
      }
      ReverseInvolutive(bids);
      ReverseInvolutive(asks);
      BestFirstIffReverseInOrder(Bid, bestBids);
      BestFirstIffReverseInOrder(Ask, bestAsks);
    }

    /**
     * Slow path for bids: erase from the leftmost level priced at or above `price`
     * to the end, then append the new level.
     */
    method InsertBid(price: Price, quantity: Quantity)
      modifies this`bids
      ensures |bids| > 0 && bids[|bids| - 1] == PriceQuantity(price, quantity)
      ensures bids[..|bids| - 1] <= old(bids)
      ensures old(bids) != [] ==> |bids| <= |old(bids)|
      ensures InOrder(Bid, old(bids)) && old(bids) != [] && old(bids)[|old(bids)| - 1].price >= price ==>
        bids == ApplyTop(Bid, old(bids), PriceQuantity(price, quantity))
      ensures InOrder(Bid, old(bids)) ==> InOrder(Bid, bids)
    {
      var lo := InsertionIndex(Bid, bids, price);
      ghost var before := bids;
      bids := bids[..lo];
      bids := bids + [PriceQuantity(price, quantity)];
      if InOrder(Bid, before) {
        ApplyTopInOrder(Bid, before, PriceQuantity(price, quantity));
      }
    }

    /**
     * Slow path for asks: erase from the leftmost level priced at or below `price`
     * to the end, then append the new level.
     */
    method InsertAsk(price: Price, quantity: Quantity)
      modifies this`asks
      ensures |asks| > 0 && asks[|asks| - 1] == PriceQuantity(price, quantity)
      ensures asks[..|asks| - 1] <= old(asks)
      ensures old(asks) != [] ==> |asks| <= |old(asks)|
      ensures InOrder(Ask, old(asks)) && old(asks) != [] && old(asks)[|old(asks)| - 1].price <= price ==>
        asks == ApplyTop(Ask, old(asks), PriceQuantity(price, quantity))
      ensures InOrder(Ask, old(asks)) ==> InOrder(Ask, asks)
    {
      var lo := InsertionIndex(Ask, asks, price);
      ghost var before := asks;
      asks := asks[..lo];
      asks := asks + [PriceQuantity(price, quantity)];
      if InOrder(Ask, before) {
        ApplyTopInOrder(Ask, before, PriceQuantity(price, quantity));
      }
    }
  }
}
