// One side of the book: its ordering policy, the reference definition of the
// uncrossing update, and the binary search that `insertBid`/`insertAsk` run.

module BookSide {
  import opened PriceLevel

  /** Which side of the book a sequence of levels belongs to; fixes the comparison direction. */
  datatype Side = Bid | Ask

  /** Price `a` is strictly better than price `b` on `side`: higher for bids, lower for asks. */
  predicate Better(side: Side, a: Price, b: Price) {
    match side
    case Bid => a > b
    case Ask => a < b
  }

  /**
   * Internal storage order: every level is strictly better than all levels before it,
   * so the best level is at the tail (bids strictly ascending, asks strictly descending).
   * Strict monotonicity also makes the prices of a side unique.
   */
  predicate InOrder(side: Side, s: seq<PriceQuantity>) {
    forall i, j :: 0 <= i < j < |s| ==> Better(side, s[j].price, s[i].price)
  }

  /** Exchange canonical order, best level first (bids descending, asks ascending). */
  predicate BestFirst(side: Side, s: seq<PriceQuantity>) {
    forall i, j :: 0 <= i < j < |s| ==> Better(side, s[i].price, s[j].price)
  }

  function Reverse<T>(s: seq<T>): (r: seq<T>)
    ensures |r| == |s|
  {
    if s == [] then [] else Reverse(s[1..]) + [s[0]]
  }

  lemma {:induction false} ReverseAt<T>(s: seq<T>, k: int)
    requires 0 <= k < |s|
    ensures Reverse(s)[k] == s[|s| - 1 - k]
  {
    if k < |s| - 1 {
      ReverseAt(s[1..], k);
    }
  }

  /** Reversing twice gives the input back: what `extract` undoes of `replace`. */
  lemma {:induction false} ReverseInvolutive<T>(s: seq<T>)
    ensures Reverse(Reverse(s)) == s
  {
    forall k | 0 <= k < |s|
      ensures Reverse(Reverse(s))[k] == s[k]
    {
      ReverseAt(Reverse(s), k);
      ReverseAt(s, |s| - 1 - k);
    }
  }

  /** A snapshot in canonical order, reversed, is in storage order, and only then. */
  lemma {:induction false} BestFirstIffReverseInOrder(side: Side, s: seq<PriceQuantity>)
    ensures BestFirst(side, s) <==> InOrder(side, Reverse(s))
  {
    var r := Reverse(s);
    forall k | 0 <= k < |s|
      ensures r[k] == s[|s| - 1 - k]
    {
      ReverseAt(s, k);
    }
    if BestFirst(side, s) {
      forall i, j | 0 <= i < j < |r|
        ensures Better(side, r[j].price, r[i].price)
      {
        assert r[i] == s[|s| - 1 - i] && r[j] == s[|s| - 1 - j];
      }
    }
    if InOrder(side, r) {
      forall i, j | 0 <= i < j < |s|
        ensures Better(side, s[i].price, s[j].price)
      {
        assert s[i] == r[|s| - 1 - i] && s[j] == r[|s| - 1 - j];
      }
    }
  }

  /**
   * The levels of `s` strictly worse than the new best price `p`, in their original
   * order and with their quantities: what a best bid/offer tick leaves standing.
   */
  function Survivors(side: Side, s: seq<PriceQuantity>, p: Price): (r: seq<PriceQuantity>)
    ensures |r| <= |s|
    ensures forall i :: 0 <= i < |r| ==> Better(side, p, r[i].price)
  {
    if s == [] then []
    else (if Better(side, p, s[0].price) then [s[0]] else []) + Survivors(side, s[1..], p)
  }

  /**
   * Reference definition of one side's reaction to a tick carrying `level`: the
   * levels strictly worse than the new best survive, followed by the new best.
   */
  function ApplyTop(side: Side, s: seq<PriceQuantity>, level: PriceQuantity): seq<PriceQuantity> {
    Survivors(side, s, level.price) + [level]
  }

  lemma {:induction false} SurvivorsMembership(side: Side, s: seq<PriceQuantity>, p: Price, x: PriceQuantity)
    ensures x in Survivors(side, s, p) <==> x in s && Better(side, p, x.price)
  {
    if s != [] {
      SurvivorsMembership(side, s[1..], p, x);
      assert s == [s[0]] + s[1..];
    }
  }

  lemma {:induction false} SurvivorsAppend(side: Side, a: seq<PriceQuantity>, b: seq<PriceQuantity>, p: Price)
    ensures Survivors(side, a + b, p) == Survivors(side, a, p) + Survivors(side, b, p)
  {
    if a != [] {
      assert (a + b)[0] == a[0] && (a + b)[1..] == a[1..] + b;
      SurvivorsAppend(side, a[1..], b, p);
      var head := if Better(side, p, a[0].price) then [a[0]] else [];
      calc {
        Survivors(side, a + b, p);
        head + Survivors(side, a[1..] + b, p);
        head + (Survivors(side, a[1..], p) + Survivors(side, b, p));
        (head + Survivors(side, a[1..], p)) + Survivors(side, b, p);
      }
    } else {
      assert a + b == b;
    }
  }

  lemma {:induction false} SurvivorsAll(side: Side, s: seq<PriceQuantity>, p: Price)
    requires forall i :: 0 <= i < |s| ==> Better(side, p, s[i].price)
    ensures Survivors(side, s, p) == s
  {
    if s != [] {
      SurvivorsAll(side, s[1..], p);
    }
  }

  lemma {:induction false} SurvivorsNone(side: Side, s: seq<PriceQuantity>, p: Price)
    requires forall i :: 0 <= i < |s| ==> !Better(side, p, s[i].price)
    ensures Survivors(side, s, p) == []
  {
    if s != [] {
      SurvivorsNone(side, s[1..], p);
    }
  }

  /** On a side in storage order the survivors are a prefix: the tick erases a tail. */
  lemma {:induction false} SurvivorsIsPrefix(side: Side, s: seq<PriceQuantity>, p: Price)
    requires InOrder(side, s)
    ensures Survivors(side, s, p) <= s
  {
    if s != [] {
      if Better(side, p, s[0].price) {
        SurvivorsIsPrefix(side, s[1..], p);
      } else {
        SurvivorsNone(side, s[1..], p);
      }
    }
  }

  /** A split point found by the binary search cuts off exactly the survivors. */
  lemma SurvivorsAtSplit(side: Side, s: seq<PriceQuantity>, p: Price, k: int)
    requires InOrder(side, s)
    requires 0 <= k <= |s|
    requires forall i :: 0 <= i < k ==> Better(side, p, s[i].price)
    requires k < |s| ==> !Better(side, p, s[k].price)
    ensures Survivors(side, s, p) == s[..k]
  {
    assert s == s[..k] + s[k..];
    SurvivorsAppend(side, s[..k], s[k..], p);
    SurvivorsAll(side, s[..k], p);
    forall i | 0 <= i < |s[k..]|
      ensures !Better(side, p, s[k..][i].price)
    {
      assert s[k..][i] == s[k + i];
    }
    SurvivorsNone(side, s[k..], p);
  }

  /** The uncrossing update keeps a side in storage order, hence its prices unique. */
  lemma ApplyTopInOrder(side: Side, s: seq<PriceQuantity>, level: PriceQuantity)
    requires InOrder(side, s)
    ensures InOrder(side, ApplyTop(side, s, level))
  {
    var kept := Survivors(side, s, level.price);
    SurvivorsIsPrefix(side, s, level.price);
    assert kept == s[..|kept|];
    var r := ApplyTop(side, s, level);
    forall i, j | 0 <= i < j < |r|
      ensures Better(side, r[j].price, r[i].price)
    {
      if j < |kept| {
        assert r[i] == s[i] && r[j] == s[j];
      } else {
        assert r[j] == level && r[i] == kept[i];
      }
    }
  }

  /** When the new price improves on the current best, the tick is a pure append. */
  lemma ApplyTopFastPath(side: Side, s: seq<PriceQuantity>, level: PriceQuantity)
    requires InOrder(side, s)
    requires s == [] || Better(side, level.price, s[|s| - 1].price)
    ensures ApplyTop(side, s, level) == s + [level]
  {
    forall i | 0 <= i < |s|
      ensures Better(side, level.price, s[i].price)
    {
      if i < |s| - 1 {
        assert Better(side, s[|s| - 1].price, s[i].price);
      }
    }
    SurvivorsAll(side, s, level.price);
  }

  /**
   * The fast path of a tick: appending a level that improves on the best keeps the old
   * levels as a prefix and, on a side in storage order, is the reference update.
   */
  lemma AppendTick(side: Side, s: seq<PriceQuantity>, level: PriceQuantity)
    requires s == [] || Better(side, level.price, s[|s| - 1].price)
    ensures (s + [level])[..|s|] == s
    ensures InOrder(side, s) ==> s + [level] == ApplyTop(side, s, level) && InOrder(side, s + [level])
  {
    assert (s + [level])[..|s|] == s;
    if InOrder(side, s) {
      ApplyTopFastPath(side, s, level);
      ApplyTopInOrder(side, s, level);
    }
  }

  /** Applying the same tick twice leaves the side as applying it once. */
  lemma ApplyTopIdempotent(side: Side, s: seq<PriceQuantity>, level: PriceQuantity)
    ensures ApplyTop(side, ApplyTop(side, s, level), level) == ApplyTop(side, s, level)
  {
    var p := level.price;
    var kept := Survivors(side, s, p);
    SurvivorsAppend(side, kept, [level], p);
    SurvivorsAll(side, kept, p);
    assert Survivors(side, [level], p) == [];
  }

  /**
   * The binary search of `insertBid` (side Bid) and `insertAsk` (side Ask). It always
   * stops at an index of a non-empty side (0 for an empty one). When the side is in
   * storage order and its best level is at or past `price`, which is what the caller
   * guarantees, it finds the leftmost level at or past `price`, so the levels before
   * it are exactly the survivors of the tick.
   */
  method InsertionIndex(side: Side, s: seq<PriceQuantity>, price: Price) returns (lo: int)
    ensures 0 <= lo <= |s|
    ensures |s| > 0 ==> lo < |s|
    ensures InOrder(side, s) && |s| > 0 && !Better(side, price, s[|s| - 1].price) ==>
      (forall i :: 0 <= i < lo ==> Better(side, price, s[i].price)) &&
      !Better(side, price, s[lo].price) &&
      s[..lo] == Survivors(side, s, price)
  {
    ghost var searching := InOrder(side, s) && |s| > 0 && !Better(side, price, s[|s| - 1].price);
    lo := 0;
    // On an empty side the source's `size() - 1` converts to -1.
    var hi := |s| - 1;
    while lo < hi
      invariant 0 <= lo && hi < |s|
      invariant |s| > 0 ==> lo <= hi
      invariant |s| == 0 ==> lo == 0
      invariant searching ==> forall i :: 0 <= i < lo ==> Better(side, price, s[i].price)
      invariant searching ==> !Better(side, price, s[hi].price)
      decreases hi - lo
    {
      var mid := lo + (hi - lo) / 2;
      if Better(side, s[mid].price, price) {
        hi := mid;
      } else if Better(side, price, s[mid].price) {
        lo := mid + 1;
      } else {
        if searching {
          forall i | 0 <= i < mid
            ensures Better(side, price, s[i].price)
          {
            assert Better(side, s[mid].price, s[i].price);
          }
        }
        lo := mid;
        break;
      }
    }
    if searching {
      SurvivorsAtSplit(side, s, price, lo);
    }
  }
}
