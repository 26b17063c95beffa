/** Price-time priority: what the sweep gives to whom, told without the sweep. */
module MatchingLaws {
  import opened Orders
  import opened Matching

  predicate SortedSide(isBid: bool, q: seq<Resting>) {
    forall i, j :: 0 <= i < j < |q| ==> !Better(isBid, q[j].price, q[i].price)
  }

  predicate DistinctIds(q: seq<Resting>) {
    forall i, j :: 0 <= i < j < |q| ==> q[i].id != q[j].id
  }

  /** All quantity resting at prices within the limit. */
  function Available(isBid: bool, q: seq<Resting>, limit: nat): nat {
    if q == [] then 0
    else (if Crosses(isBid, limit, q[0].price) then q[0].qty else 0) + Available(isBid, q[1..], limit)
  }

  function Executed(trades: seq<Trade>, id: nat): nat {
    if trades == [] then 0
    else (if trades[0].maker == id then trades[0].qty else 0) + Executed(trades[1..], id)
  }

  function Traded(trades: seq<Trade>): nat {
    if trades == [] then 0 else trades[0].qty + Traded(trades[1..])
  }

  function Sum(a: seq<nat>): nat {
    if a == [] then 0 else a[0] + Sum(a[1..])
  }

  /** `a` gives every resting order its share of an incoming order: as much is executed as can be, only
      within the limit, and an order gets something only when all orders ahead of it got everything. */
  predicate IsPriorityAllocation(isBid: bool, q: seq<Resting>, limit: nat, qty: nat, a: seq<nat>) {
    && |a| == |q|
    && (forall i :: 0 <= i < |q| ==> a[i] <= q[i].qty)
    && (forall i :: 0 <= i < |q| && a[i] > 0 ==> Crosses(isBid, limit, q[i].price))
    && (forall i, j :: 0 <= i < j < |q| && a[j] > 0 ==> a[i] == q[i].qty)
    && Sum(a) == Min(qty, Available(isBid, q, limit))
  }

  /** The queue once every order has given up its share and the used-up orders are gone. */
  function Leftover(q: seq<Resting>, a: seq<nat>): seq<Resting>
    requires |a| == |q| && forall i :: 0 <= i < |q| ==> a[i] <= q[i].qty
  {
    if q == [] then []
    else if a[0] == q[0].qty then Leftover(q[1..], a[1..])
    else [q[0].(qty := q[0].qty - a[0])] + Leftover(q[1..], a[1..])
  }

  lemma {:induction false} NothingAllocated(q: seq<Resting>, a: seq<nat>)
    requires |a| == |q| && AllPositive(q) && Sum(a) == 0
    ensures forall i :: 0 <= i < |a| ==> a[i] == 0
    ensures Leftover(q, a) == q
  {
    if q != [] {
      NothingAllocated(q[1..], a[1..]);
      forall i | 0 <= i < |a|
        ensures a[i] == 0
      {
        assert i == 0 || a[i] == a[1..][i - 1];
      }
    }
  }

  lemma {:induction false} NothingAvailable(isBid: bool, q: seq<Resting>, limit: nat)
    requires SortedSide(isBid, q) && (q == [] || !Crosses(isBid, limit, q[0].price))
    ensures Available(isBid, q, limit) == 0
  {
    if |q| > 1 {
      assert !Better(isBid, q[1].price, q[0].price);
      NothingAvailable(isBid, q[1..], limit);
    }
  }

  lemma {:induction false} NotExecuted(trades: seq<Trade>, id: nat)
    requires forall i :: 0 <= i < |trades| ==> trades[i].maker != id
    ensures Executed(trades, id) == 0
  {
    if trades != [] {
      NotExecuted(trades[1..], id);
    }
  }

  /** The trade `t` is one against the resting order `o`. */
  predicate Hits(isBid: bool, limit: nat, t: Trade, o: Resting) {
    && t.maker == o.id && t.makerUser == o.user && t.price == o.price
    && Crosses(isBid, limit, o.price)
    && t.qty <= o.qty
    && (t.makerDone <==> t.qty == o.qty)
  }

  // The orders hit are the front of the queue, in order; all but the last are used up.
  lemma {:induction false} TradesFollowQueue(isBid: bool, q: seq<Resting>, limit: nat, qty: uint32)
    ensures var s := Sweep(isBid, q, limit, qty); var n := |s.trades|;
      && n <= |q|
      && (forall i :: 0 <= i < n ==> Hits(isBid, limit, s.trades[i], q[i]))
      && (forall i :: 0 <= i < n - 1 ==> s.trades[i].makerDone)
  {
    if q != [] && Crosses(isBid, limit, q[0].price) && Min(q[0].qty, qty) < qty {
      TradesFollowQueue(isBid, q[1..], limit, qty - Min(q[0].qty, qty));
      var s := Sweep(isBid, q, limit, qty);
      var r := Sweep(isBid, q[1..], limit, qty - Min(q[0].qty, qty));
      assert forall i :: 1 <= i < |s.trades| ==> s.trades[i] == r.trades[i - 1] && q[i] == q[1..][i - 1];
    }
  }

  // An order that uses the first resting one up goes on with the rest.
  lemma SweepTail(isBid: bool, q: seq<Resting>, limit: nat, qty: uint32)
    requires q != [] && Crosses(isBid, limit, q[0].price) && q[0].qty < qty
    ensures var s, r := Sweep(isBid, q, limit, qty), Sweep(isBid, q[1..], limit, qty - q[0].qty);
      && s.rest == r.rest && s.left == r.left
      && s.trades == [Trade(q[0].id, q[0].user, q[0].price, q[0].qty, true, false)] + r.trades
  {
  }

  /** What a sweep that hit `n` orders leaves of the queue. */
  predicate LeavesBehind(s: SweepResult, q: seq<Resting>) {
    var n := |s.trades|;
    && n <= |q|
    && (n == 0 ==> s.rest == q)
    && (n > 0 && s.trades[n - 1].makerDone ==> s.rest == q[n..])
    && (n > 0 && !s.trades[n - 1].makerDone ==>
          s.trades[n - 1].qty <= q[n - 1].qty && s.rest == [q[n - 1].(qty := q[n - 1].qty - s.trades[n - 1].qty)] + q[n..])
  }

  // Behind the last order hit everything is as it was; that order keeps what it did not trade.
  lemma {:induction false} RestFollowsTrades(isBid: bool, q: seq<Resting>, limit: nat, qty: uint32)
    ensures LeavesBehind(Sweep(isBid, q, limit, qty), q)
  {
    if q != [] && Crosses(isBid, limit, q[0].price) && q[0].qty < qty {
      hide Sweep;
      SweepTail(isBid, q, limit, qty);
      RestFollowsTrades(isBid, q[1..], limit, qty - q[0].qty);
      BehindTail(Sweep(isBid, q, limit, qty), Sweep(isBid, q[1..], limit, qty - q[0].qty), q);
    } else if q != [] && Crosses(isBid, limit, q[0].price) {
      assert q[1..] == q[1..|q|];
    }
  }

  lemma BehindTail(s: SweepResult, r: SweepResult, q: seq<Resting>)
    requires q != [] && s.rest == r.rest && |s.trades| == 1 + |r.trades| && s.trades[1..] == r.trades && s.trades[0].makerDone
    requires LeavesBehind(r, q[1..])
    ensures LeavesBehind(s, q)
  {
    var n := |s.trades|;
    assert q[n..] == q[1..][n - 1..];
    if n > 1 {
      assert s.trades[n - 1] == r.trades[n - 2] && q[n - 1] == q[1..][n - 2];
    }
  }

  /** An incoming order trades exactly the lesser of its own quantity and what rests within its limit. */
  lemma {:induction false} MaximalExecution(isBid: bool, q: seq<Resting>, limit: nat, qty: uint32)
    requires SortedSide(isBid, q)
    ensures var s := Sweep(isBid, q, limit, qty);
      && Traded(s.trades) == Min(qty, Available(isBid, q, limit))
      && s.left == qty - Traded(s.trades)
  {
    if q == [] || !Crosses(isBid, limit, q[0].price) {
      NothingAvailable(isBid, q, limit);
    } else if Min(q[0].qty, qty) < qty {
      MaximalExecution(isBid, q[1..], limit, qty - Min(q[0].qty, qty));
    }
  }

  /** Fill prices are the resting orders' prices, within the limit, and never get better. */
  lemma FillPrices(isBid: bool, q: seq<Resting>, limit: nat, qty: uint32, i: nat, j: nat)
    requires SortedSide(isBid, q)
    requires i <= j < |Sweep(isBid, q, limit, qty).trades|
    ensures var t := Sweep(isBid, q, limit, qty).trades;
      && j < |q| && t[j].price == q[j].price && Crosses(isBid, limit, t[j].price)
      && !Better(isBid, t[j].price, t[i].price)
  {
    TradesFollowQueue(isBid, q, limit, qty);
    assert i < j ==> !Better(isBid, q[j].price, q[i].price);
  }

  lemma {:induction false} RestIsLeftover(isBid: bool, q: seq<Resting>, limit: nat, qty: uint32, a: seq<nat>)
    requires SortedSide(isBid, q) && AllPositive(q) && qty > 0
    requires IsPriorityAllocation(isBid, q, limit, qty, a)
    ensures Sweep(isBid, q, limit, qty).rest == Leftover(q, a)
    ensures Sweep(isBid, q, limit, qty).left == qty - Sum(a)
  {
    if q == [] || !Crosses(isBid, limit, q[0].price) {
      NothingAvailable(isBid, q, limit);
      NothingAllocated(q, a);
    } else {
      HeadShare(isBid, q, limit, qty, a);
      if a[0] == qty {
        NothingAllocated(q[1..], a[1..]);
      } else {
        RestIsLeftover(isBid, q[1..], limit, qty - a[0], a[1..]);
      }
    }
  }

  lemma {:induction false} SharesAreExecuted(isBid: bool, q: seq<Resting>, limit: nat, qty: uint32, a: seq<nat>)
    requires SortedSide(isBid, q) && DistinctIds(q) && AllPositive(q) && qty > 0
    requires IsPriorityAllocation(isBid, q, limit, qty, a)
    ensures forall i :: 0 <= i < |q| ==> Executed(Sweep(isBid, q, limit, qty).trades, q[i].id) == a[i]
  {
    if q == [] || !Crosses(isBid, limit, q[0].price) {
      NothingAvailable(isBid, q, limit);
      NothingAllocated(q, a);
    } else {
      HeadShare(isBid, q, limit, qty, a);
      HeadExecuted(isBid, q, limit, qty);
      if a[0] == qty {
        NothingAllocated(q[1..], a[1..]);
      } else {
        SharesAreExecuted(isBid, q[1..], limit, qty - a[0], a[1..]);
      }
      TailExecuted(isBid, q, limit, qty, a);
    }
  }

  /** The sweep realises every allocation that respects price-time priority; so there is only one. */
  lemma SweepIsTheAllocation(isBid: bool, q: seq<Resting>, limit: nat, qty: uint32, a: seq<nat>)
    requires SortedSide(isBid, q) && DistinctIds(q) && AllPositive(q) && qty > 0
    requires IsPriorityAllocation(isBid, q, limit, qty, a)
    ensures var s := Sweep(isBid, q, limit, qty);
      && s.rest == Leftover(q, a)
      && s.left == qty - Sum(a)
      && forall i :: 0 <= i < |q| ==> Executed(s.trades, q[i].id) == a[i]
  {
    RestIsLeftover(isBid, q, limit, qty, a);
    SharesAreExecuted(isBid, q, limit, qty, a);
  }

  // The share of the first order is traded in one go.
  lemma HeadExecuted(isBid: bool, q: seq<Resting>, limit: nat, qty: uint32)
    requires DistinctIds(q) && q != [] && Crosses(isBid, limit, q[0].price)
    ensures Executed(Sweep(isBid, q, limit, qty).trades, q[0].id) == Min(q[0].qty, qty)
  {
    var t := Sweep(isBid, q, limit, qty).trades;
    TradesFollowQueue(isBid, q, limit, qty);
    forall i | 0 <= i < |t[1..]|
      ensures t[1..][i].maker != q[0].id
    {
      assert Hits(isBid, limit, t[i + 1], q[i + 1]);
    }
    NotExecuted(t[1..], q[0].id);
  }

  lemma TailExecuted(isBid: bool, q: seq<Resting>, limit: nat, qty: uint32, a: seq<nat>)
    requires DistinctIds(q) && q != [] && Crosses(isBid, limit, q[0].price) && |a| == |q|
    requires var f := Min(q[0].qty, qty);
      if f == qty then forall i :: 0 <= i < |a[1..]| ==> a[1..][i] == 0
      else forall i :: 0 <= i < |q[1..]| ==> Executed(Sweep(isBid, q[1..], limit, qty - f).trades, q[1..][i].id) == a[1..][i]
    ensures forall i :: 1 <= i < |q| ==> Executed(Sweep(isBid, q, limit, qty).trades, q[i].id) == a[i]
  {
    forall i | 1 <= i < |q|
      ensures Executed(Sweep(isBid, q, limit, qty).trades, q[i].id) == a[i]
    {
      assert q[i] == q[1..][i - 1] && a[i] == a[1..][i - 1];
      assert q[0].id != q[i].id;
    }
  }

  // The first order in the queue gets what it can; the rest of the allocation is one for the rest of the queue.
  lemma HeadShare(isBid: bool, q: seq<Resting>, limit: nat, qty: uint32, a: seq<nat>)
    requires q != [] && AllPositive(q) && Crosses(isBid, limit, q[0].price)
    requires IsPriorityAllocation(isBid, q, limit, qty, a)
    ensures a[0] == Min(q[0].qty, qty)
    ensures IsPriorityAllocation(isBid, q[1..], limit, qty - a[0], a[1..])
    ensures a[0] == qty ==> Sum(a[1..]) == 0
  {
    if a[0] < q[0].qty {
      forall i | 0 <= i < |a[1..]|
        ensures a[1..][i] == 0
      {
        assert a[1..][i] == a[i + 1];
      }
      SumOfZeros(a[1..]);
    }
    var r, b := q[1..], a[1..];
    assert forall i :: 0 <= i < |r| ==> r[i] == q[i + 1] && b[i] == a[i + 1];
  }

  lemma {:induction false} SumOfZeros(a: seq<nat>)
    requires forall i :: 0 <= i < |a| ==> a[i] == 0
    ensures Sum(a) == 0
  {
    if a != [] {
      SumOfZeros(a[1..]);
    }
  }

  /** Every resting order in turn takes what it can. */
  function Shares(isBid: bool, q: seq<Resting>, limit: nat, qty: nat): (a: seq<nat>)
    ensures |a| == |q|
  {
    if q == [] then []
    else
      var f := if Crosses(isBid, limit, q[0].price) then Min(q[0].qty, qty) else 0;
      [f] + Shares(isBid, q[1..], limit, qty - f)
  }

  lemma {:induction false} NoShares(isBid: bool, q: seq<Resting>, limit: nat, qty: nat)
    requires qty == 0 || (SortedSide(isBid, q) && (q == [] || !Crosses(isBid, limit, q[0].price)))
    ensures forall i :: 0 <= i < |q| ==> Shares(isBid, q, limit, qty)[i] == 0
  {
    if q != [] {
      assert qty == 0 || |q| == 1 || !Better(isBid, q[1].price, q[0].price);
      NoShares(isBid, q[1..], limit, qty);
    }
  }

  lemma NoneCrosses(isBid: bool, q: seq<Resting>, limit: nat, qty: nat)
    requires SortedSide(isBid, q) && (q == [] || !Crosses(isBid, limit, q[0].price))
    ensures IsPriorityAllocation(isBid, q, limit, qty, Shares(isBid, q, limit, qty))
  {
    NoShares(isBid, q, limit, qty);
    NothingAvailable(isBid, q, limit);
    SumOfZeros(Shares(isBid, q, limit, qty));
  }

  /** There always is an allocation that respects price-time priority. */
  lemma {:induction false} AllocationExists(isBid: bool, q: seq<Resting>, limit: nat, qty: nat)
    requires SortedSide(isBid, q)
    ensures IsPriorityAllocation(isBid, q, limit, qty, Shares(isBid, q, limit, qty))
  {
    hide IsPriorityAllocation;
    if q == [] || !Crosses(isBid, limit, q[0].price) {
      NoneCrosses(isBid, q, limit, qty);
    } else {
      var f := Min(q[0].qty, qty);
      AllocationExists(isBid, q[1..], limit, qty - f);
      if f < q[0].qty {
        NoShares(isBid, q[1..], limit, 0);
      }
      ConsAllocation(isBid, q, limit, qty, Shares(isBid, q[1..], limit, qty - f));
    }
  }

  lemma ConsAllocation(isBid: bool, q: seq<Resting>, limit: nat, qty: nat, r: seq<nat>)
    requires q != [] && Crosses(isBid, limit, q[0].price)
    requires IsPriorityAllocation(isBid, q[1..], limit, qty - Min(q[0].qty, qty), r)
    requires qty < q[0].qty ==> forall i :: 0 <= i < |r| ==> r[i] == 0
    ensures IsPriorityAllocation(isBid, q, limit, qty, [Min(q[0].qty, qty)] + r)
  {
    var a := [Min(q[0].qty, qty)] + r;
    assert a[1..] == r;
    assert forall i :: 1 <= i < |q| ==> a[i] == r[i - 1] && q[i] == q[1..][i - 1];
  }

  lemma {:induction false} RestAdditive(isBid: bool, q: seq<Resting>, limit: nat, x: uint32, y: uint32)
    requires 0 < x && 0 < y && x + y < TWO_32
    ensures var first := Sweep(isBid, q, limit, x);
      var second := Sweep(isBid, first.rest, limit, y);
      var whole := Sweep(isBid, q, limit, x + y);
      whole.rest == second.rest && whole.left == first.left + second.left
  {
    if q != [] && Crosses(isBid, limit, q[0].price) {
      if q[0].qty < x {
        RestAdditive(isBid, q[1..], limit, x - q[0].qty, y);
      } else if q[0].qty > x {
        SplitHead(isBid, q, limit, x);
      }
    }
  }

  lemma SplitHead(isBid: bool, q: seq<Resting>, limit: nat, x: uint32)
    requires q != [] && Crosses(isBid, limit, q[0].price) && q[0].qty > x
    ensures var first := Sweep(isBid, q, limit, x);
      first.rest != [] && first.rest[0] == q[0].(qty := q[0].qty - x) && first.rest[1..] == q[1..]
  {
  }

  // What an order beyond the first resting one executes.
  lemma SweepPastHead(isBid: bool, q: seq<Resting>, limit: nat, qty: uint32, id: nat)
    requires q != [] && Crosses(isBid, limit, q[0].price) && q[0].qty < qty
    ensures var s, r := Sweep(isBid, q, limit, qty), Sweep(isBid, q[1..], limit, qty - q[0].qty);
      && s.rest == r.rest
      && Executed(s.trades, id) == (if q[0].id == id then q[0].qty else 0) + Executed(r.trades, id)
  {
    assert Sweep(isBid, q, limit, qty).trades[1..] == Sweep(isBid, q[1..], limit, qty - q[0].qty).trades;
  }

  // An order that the first resting one can fill.
  lemma SweepWithinHead(isBid: bool, q: seq<Resting>, limit: nat, qty: uint32, id: nat)
    requires q != [] && Crosses(isBid, limit, q[0].price) && qty <= q[0].qty
    ensures var s := Sweep(isBid, q, limit, qty);
      && s.rest == (if qty == q[0].qty then q[1..] else [q[0].(qty := q[0].qty - qty)] + q[1..])
      && Executed(s.trades, id) == if q[0].id == id then qty else 0
  {
    assert Sweep(isBid, q, limit, qty).trades[1..] == [];
  }

  lemma NothingMet(isBid: bool, q: seq<Resting>, limit: nat, qty: uint32, id: nat)
    requires q == [] || !Crosses(isBid, limit, q[0].price)
    ensures Sweep(isBid, q, limit, qty) == SweepResult(q, qty, []) && Executed([], id) == 0
  {
  }

  lemma {:induction false} SharesAdditive(isBid: bool, q: seq<Resting>, limit: nat, x: uint32, y: uint32, id: nat)
    requires 0 < x && 0 < y && x + y < TWO_32
    ensures var first := Sweep(isBid, q, limit, x);
      var second := Sweep(isBid, first.rest, limit, y);
      var whole := Sweep(isBid, q, limit, x + y);
      Executed(whole.trades, id) == Executed(first.trades, id) + Executed(second.trades, id)
  {
    hide Sweep, Executed;
    if q == [] || !Crosses(isBid, limit, q[0].price) {
      NothingMet(isBid, q, limit, x, id);
      NothingMet(isBid, q, limit, y, id);
      NothingMet(isBid, q, limit, x + y, id);
    } else if q[0].qty < x {
      SweepPastHead(isBid, q, limit, x, id);
      SweepPastHead(isBid, q, limit, x + y, id);
      SharesAdditive(isBid, q[1..], limit, x - q[0].qty, y, id);
    } else {
      SharesSplit(isBid, q, limit, x, y, id);
    }
  }

  // The first resting order fills the first part, and some of the second.
  lemma SharesSplit(isBid: bool, q: seq<Resting>, limit: nat, x: uint32, y: uint32, id: nat)
    requires 0 < x && 0 < y && x + y < TWO_32
    requires q != [] && Crosses(isBid, limit, q[0].price) && x <= q[0].qty
    ensures var first := Sweep(isBid, q, limit, x);
      var second := Sweep(isBid, first.rest, limit, y);
      var whole := Sweep(isBid, q, limit, x + y);
      Executed(whole.trades, id) == Executed(first.trades, id) + Executed(second.trades, id)
  {
    hide Sweep, Executed;
    var first := Sweep(isBid, q, limit, x);
    SweepWithinHead(isBid, q, limit, x, id);
    if x == q[0].qty {
      SweepPastHead(isBid, q, limit, x + y, id);
    } else {
      assert first.rest[1..] == q[1..];
      if x + y <= q[0].qty {
        SweepWithinHead(isBid, first.rest, limit, y, id);
        SweepWithinHead(isBid, q, limit, x + y, id);
      } else {
        SweepPastHead(isBid, first.rest, limit, y, id);
        SweepPastHead(isBid, q, limit, x + y, id);
      }
    }
  }

  /** Sending `x + y` at once takes from every resting order what sending `x` and then `y` takes. */
  lemma SweepAdditive(isBid: bool, q: seq<Resting>, limit: nat, x: uint32, y: uint32)
    requires 0 < x && 0 < y && x + y < TWO_32
    ensures var first := Sweep(isBid, q, limit, x);
      var second := Sweep(isBid, first.rest, limit, y);
      var whole := Sweep(isBid, q, limit, x + y);
      && whole.rest == second.rest
      && whole.left == first.left + second.left
      && forall id: nat :: Executed(whole.trades, id) == Executed(first.trades, id) + Executed(second.trades, id)
  {
    RestAdditive(isBid, q, limit, x, y);
    forall id: nat {
      SharesAdditive(isBid, q, limit, x, y, id);
    }
  }
}
