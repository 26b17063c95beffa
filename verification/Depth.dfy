/** The quantity a book shows at a price, and how requests change it. */
module Depth {
  import opened Orders
  import opened Sequences
  import opened Matching
  import opened BookSpec

  /** The total quantity resting at price `p`. */
  function QtyAt(q: seq<Resting>, p: nat): nat {
    if q == [] then 0 else (if q[0].price == p then q[0].qty else 0) + QtyAt(q[1..], p)
  }

  ghost predicate HasLevel(q: seq<Resting>, p: nat) {
    exists i :: 0 <= i < |q| && q[i].price == p
  }

  /** The quantity of the trades at price `p`. */
  function TradedAt(trades: seq<Trade>, p: nat): nat {
    if trades == [] then 0 else (if trades[0].price == p then trades[0].qty else 0) + TradedAt(trades[1..], p)
  }

  lemma {:induction false} QtyAtAppend(q: seq<Resting>, r: seq<Resting>, p: nat)
    ensures QtyAt(q + r, p) == QtyAt(q, p) + QtyAt(r, p)
  {
    if q == [] {
      assert q + r == r;
    } else {
      assert (q + r)[1..] == q[1..] + r;
      QtyAtAppend(q[1..], r, p);
    }
  }

  lemma QtyAtInsert(isBid: bool, q: seq<Resting>, r: Resting, p: nat)
    ensures QtyAt(Insert(isBid, q, r), p) == QtyAt(q, p) + if r.price == p then r.qty else 0
  {
    var k := PlaceOf(isBid, q, r.price);
    assert Insert(isBid, q, r) == q[..k] + ([r] + q[k..]);
    QtyAtAppend(q[..k], [r] + q[k..], p);
    QtyAtAppend([r], q[k..], p);
    QtyAtAppend(q[..k], q[k..], p);
    assert q == q[..k] + q[k..];
  }

  lemma QtyAtRemove(q: seq<Resting>, k: nat, p: nat)
    requires k < |q|
    ensures QtyAt(q, p) == QtyAt(Without(q, k), p) + if q[k].price == p then q[k].qty else 0
  {
    QtyAtAppend(q[..k], [q[k]] + q[k + 1..], p);
    QtyAtAppend([q[k]], q[k + 1..], p);
    QtyAtAppend(q[..k], q[k + 1..], p);
    assert q == q[..k] + ([q[k]] + q[k + 1..]);
  }

  lemma QtyAtResize(q: seq<Resting>, k: nat, qty: uint32, p: nat)
    requires k < |q|
    ensures var r := q[k := q[k].(qty := qty)];
      QtyAt(r, p) - QtyAt(q, p) == if q[k].price == p then qty - q[k].qty else 0
  {
    var r := q[k := q[k].(qty := qty)];
    QtyAtRemove(q, k, p);
    QtyAtRemove(r, k, p);
    assert Without(q, k) == Without(r, k);
  }

  lemma {:induction false} QtyAtSweep(isBid: bool, q: seq<Resting>, limit: nat, qty: uint32, p: nat)
    ensures QtyAt(q, p) == QtyAt(Sweep(isBid, q, limit, qty).rest, p) + TradedAt(Sweep(isBid, q, limit, qty).trades, p)
  {
    var s := Sweep(isBid, q, limit, qty);
    if q != [] && Crosses(isBid, limit, q[0].price) {
      var f := Min(q[0].qty, qty);
      if f < qty {
        QtyAtSweep(isBid, q[1..], limit, qty - f, p);
        assert s.trades[1..] == Sweep(isBid, q[1..], limit, qty - f).trades;
      } else if q[0].qty > f {
        assert s.rest[1..] == q[1..];
      }
    }
  }

  // With nothing resting at quantity zero, there is a level exactly where there is quantity.
  lemma {:induction false} LevelIffQty(q: seq<Resting>, p: nat)
    requires AllPositive(q)
    ensures QtyAt(q, p) > 0 <==> HasLevel(q, p)
  {
    if q != [] {
      LevelIffQty(q[1..], p);
      if HasLevel(q, p) && q[0].price != p {
        var i :| 0 <= i < |q| && q[i].price == p;
        assert q[1..][i - 1].price == p;
      } else if HasLevel(q[1..], p) {
        var i :| 0 <= i < |q[1..]| && q[1..][i].price == p;
        assert q[i + 1].price == p;
      }
    }
  }

  lemma {:induction false} QtyAtLeast(q: seq<Resting>, k: nat)
    requires k < |q|
    ensures QtyAt(q, q[k].price) >= q[k].qty
  {
    if k > 0 {
      QtyAtLeast(q[1..], k - 1);
    }
  }
}
