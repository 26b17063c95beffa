/** What the levels of a side say about its queue: one level per price that has orders, and the total that a
    level's list walk adds up is the quantity at its price. */
module LevelTotals {
  import opened Orders
  import opened Matching
  import opened Levels
  import opened Depth

  /** How many orders are ahead of price `p`. */
  ghost function Preceding(isBid: bool, q: seq<Limit>, p: nat): (k: nat)
    ensures k <= |q|
    ensures forall i :: 0 <= i < k ==> Better(isBid, q[i].order.price, p)
    ensures k < |q| ==> !Better(isBid, q[k].order.price, p)
  {
    if q == [] || !Better(isBid, q[0].order.price, p) then 0 else 1 + Preceding(isBid, q[1..], p)
  }

  /** The stretch of the queue at price `p`. */
  ghost function Stretch(isBid: bool, q: seq<Limit>, p: nat): (s: (nat, nat))
    ensures s.0 <= s.1 <= |q|
  {
    var lo := Preceding(isBid, q, p);
    (lo, lo + FrontLen(q[lo..], p))
  }

  // All orders at the price are in the stretch, and nothing else.
  lemma StretchIsPrice(isBid: bool, q: seq<Limit>, p: nat)
    requires SortedNodes(isBid, q)
    ensures var (lo, hi) := Stretch(isBid, q, p);
      forall i :: 0 <= i < |q| ==> (q[i].order.price == p <==> lo <= i < hi)
  {
    var (lo, hi) := Stretch(isBid, q, p);
    assert forall i :: lo <= i < |q| ==> q[lo..][i - lo] == q[i];
    forall i | hi <= i < |q|
      ensures q[i].order.price != p
    {
      assert q[lo..][hi - lo].order.price != p;
      assert !Better(isBid, q[lo].order.price, p);
      assert hi == lo || q[lo..][0].order.price == p;
      assert i == hi || !Better(isBid, q[i].order.price, q[hi].order.price);
      assert hi == lo || !Better(isBid, q[hi].order.price, q[lo].order.price);
    }
  }

  lemma {:induction false} OnePriceTotal(q: seq<Resting>, p: nat)
    requires forall i :: 0 <= i < |q| ==> q[i].price == p
    ensures QtyAt(q, p) == TotalQty(q)
  {
    if q != [] {
      var n := |q| - 1;
      assert q == q[..n] + [q[n]];
      QtyAtAppend(q[..n], [q[n]], p);
      OnePriceTotal(q[..n], p);
    }
  }

  lemma {:induction false} OtherPrices(q: seq<Resting>, p: nat)
    requires forall i :: 0 <= i < |q| ==> q[i].price != p
    ensures QtyAt(q, p) == 0
  {
    if q != [] {
      OtherPrices(q[1..], p);
    }
  }

  lemma StretchTotal(q: seq<Resting>, lo: nat, hi: nat, p: nat)
    requires lo <= hi <= |q| && forall i :: 0 <= i < |q| ==> (q[i].price == p <==> lo <= i < hi)
    ensures QtyAt(q, p) == TotalQty(q[lo..hi])
  {
    assert q == q[..lo] + (q[lo..hi] + q[hi..]);
    QtyAtAppend(q[..lo], q[lo..hi] + q[hi..], p);
    QtyAtAppend(q[lo..hi], q[hi..], p);
    OtherPrices(q[..lo], p);
    OtherPrices(q[hi..], p);
    OnePriceTotal(q[lo..hi], p);
  }

  /** There is a level at a price exactly when an order rests there. */
  lemma LevelIffOrders(side: SideBook, p: nat)
    requires side.Valid()
    ensures p in side.levels <==> HasLevel(side.View(), p)
  {
    if HasLevel(side.View(), p) {
      var i :| 0 <= i < |side.View()| && side.View()[i].price == p;
      assert side.NodeLinked(i);
    }
    if p in side.levels {
      var i :| 0 <= i < |side.queue| && side.queue[i].order.price == p;
      assert side.View()[i].price == p;
    }
  }

  lemma LevelIsStretch(side: SideBook, p: nat, lo: nat, hi: nat)
    requires side.Valid() && p in side.levels && (lo, hi) == Stretch(side.isBid, side.queue, p)
    ensures hi <= |side.queue| && IsChain(side.levels[p].head, side.queue[lo..hi])
    ensures forall i :: 0 <= i < |side.queue| ==> (side.queue[i].order.price == p <==> lo <= i < hi)
  {
    hide SortedNodes, DistinctNodes, Stretch;
    var q := side.queue;
    StretchIsPrice(side.isBid, q, p);
    assert HasPrice(q, p);
    forall i | lo <= i < hi
      ensures q[i].nextLimit == if i + 1 < hi then q[i + 1] else null
    {
      assert side.NodeLinked(i);
    }
    assert side.NodeLinked(lo) && side.NodeLinked(hi - 1);
    var chain := q[lo..hi];
    assert chain[0] == q[lo] && chain[|chain| - 1] == q[hi - 1];
    forall i | 0 <= i < |chain| - 1
      ensures chain[i].nextLimit == chain[i + 1]
    {
      assert chain[i] == q[lo + i] && chain[i + 1] == q[lo + i + 1];
    }
  }

  /** The list walk over a level adds up the quantity resting at its price. */
  method LevelQuantity(side: SideBook, p: nat) returns (qty: uint32)
    requires side.Valid() && p in side.levels
    ensures qty == QtyAt(side.View(), p) % TWO_32
  {
    hide SortedNodes, DistinctNodes, Stretch, IsChain, QtyAt, TotalQty;
    ghost var (lo, hi) := Stretch(side.isBid, side.queue, p);
    LevelIsStretch(side, p, lo, hi);
    qty := side.levels[p].GetLevelOrderQuantity(side.queue[lo..hi]);
    assert ViewOf(side.queue[lo..hi]) == side.View()[lo..hi];
    StretchTotal(side.View(), lo, hi, p);
  }
}
