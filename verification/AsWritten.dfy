/** Where the code of a match does not do what it means to: the reference to the current level, the 16-bit count of
    a level, the test on an empty side, and the user id on the incoming order's fills. Each with its exact condition. */
module AsWritten {
  import opened Orders
  import opened Matching
  import opened LevelCounts
  import opened MatchingLaws
  import opened FillRecords
  import opened BookSpec
  import opened BookLaws

  /** How the code's match ends: undefined, or with a swept queue and with `orphans`, orders that are still listed and
      indexed but whose level was erased. */
  datatype CodeMatch = Undefined | Ended(result: SweepResult, orphans: seq<Resting>)

  /** The match as the code has it. It reads the first level of the side, empty or not; it erases a level by the
      16-bit count; and going on to the next level assigns through a reference to the one just erased. */
  function MatchAsWritten(isBid: bool, q: seq<Resting>, limit: nat, qty: uint32): CodeMatch {
    if q == [] then
      Undefined
    else if !Crosses(isBid, limit, q[0].price) then
      Ended(SweepResult(q, qty, []), [])
    else if qty <= q[0].qty then
      var rest := if qty == q[0].qty then q[1..] else [q[0].(qty := q[0].qty - qty)] + q[1..];
      var erased := if EraseFires(rest, q[0].price) then FrontRun(rest, q[0].price) else 0;
      var t := Trade(q[0].id, q[0].user, q[0].price, qty, qty == q[0].qty, true);
      Ended(SweepResult(rest[erased..], 0, [t]), rest[..erased])
    else if |q| == 1 || q[1].price != q[0].price then
      Undefined
    else
      match MatchAsWritten(isBid, q[1..], limit, qty - q[0].qty)
      case Undefined => Undefined
      case Ended(r, orphans) =>
        Ended(r.(trades := [Trade(q[0].id, q[0].user, q[0].price, q[0].qty, true, false)] + r.trades), orphans)
  }

  /** What rests at the price at the front of the queue. */
  function FrontTotal(q: seq<Resting>): nat {
    if q == [] then 0
    else q[0].qty + if |q| > 1 && q[1].price == q[0].price then FrontTotal(q[1..]) else 0
  }

  // What the test erases of a level's list, and what stays.
  lemma CutOff(rest: seq<Resting>, p: nat)
    ensures var erased := if EraseFires(rest, p) then FrontRun(rest, p) else 0;
      && rest[..erased] + rest[erased..] == rest
      && (rest[..erased] == [] <==> CountTells(rest, p))
  {
    hide EraseFires, FrontRun;
    SplitAt(rest, if EraseFires(rest, p) then FrontRun(rest, p) else 0);
  }

  lemma SplitAt(q: seq<Resting>, k: nat)
    requires k <= |q|
    ensures q[..k] + q[k..] == q && (q[..k] == [] <==> k == 0)
  {
  }

  // A match that ends at the first order.
  lemma EndsAtFront(isBid: bool, q: seq<Resting>, limit: nat, qty: uint32)
    requires q != [] && Crosses(isBid, limit, q[0].price) && qty <= q[0].qty
    ensures var m, s := MatchAsWritten(isBid, q, limit, qty), Sweep(isBid, q, limit, qty);
      && m.Ended? && m.result.trades == s.trades && m.result.left == s.left && m.orphans + m.result.rest == s.rest
      && (m.orphans == [] <==> CountsRight(isBid, q, limit, qty))
  {
    hide EraseFires, CountTells;
    CutOff(if qty == q[0].qty then q[1..] else [q[0].(qty := q[0].qty - qty)] + q[1..], q[0].price);
  }

  // A match that uses up the first order and goes on.
  lemma GoesOn(isBid: bool, q: seq<Resting>, limit: nat, qty: uint32)
    requires q != [] && Crosses(isBid, limit, q[0].price) && q[0].qty < qty
    ensures var m, s := MatchAsWritten(isBid, q, limit, qty), Sweep(isBid, q, limit, qty);
      var n, r := MatchAsWritten(isBid, q[1..], limit, qty - q[0].qty), Sweep(isBid, q[1..], limit, qty - q[0].qty);
      var t := Trade(q[0].id, q[0].user, q[0].price, q[0].qty, true, false);
      && s.rest == r.rest && s.left == r.left && s.trades == [t] + r.trades
      && (m.Ended? <==> |q| > 1 && q[1].price == q[0].price && n.Ended?)
      && (m.Ended? ==> m == Ended(n.result.(trades := [t] + n.result.trades), n.orphans))
      && (CountsRight(isBid, q, limit, qty) <==> CountsRight(isBid, q[1..], limit, qty - q[0].qty))
  {
  }

  /** On a side with orders the code stays defined exactly when the order meets no match or fits into the best level.
      It then trades as the sweep does, and does the whole sweep exactly when the count is right where it ends. */
  lemma {:induction false} DefinedIffBestLevelSuffices(isBid: bool, q: seq<Resting>, limit: nat, qty: uint32)
    ensures var m, s := MatchAsWritten(isBid, q, limit, qty), Sweep(isBid, q, limit, qty);
      && (m.Ended? <==> q != [] && (!Crosses(isBid, limit, q[0].price) || qty <= FrontTotal(q)))
      && (m.Ended? ==> m.result.trades == s.trades && m.result.left == s.left && m.orphans + m.result.rest == s.rest)
      && (m.Ended? ==> (m.orphans == [] <==> CountsRight(isBid, q, limit, qty)))
      && (m.Ended? && m.orphans == [] ==> m == Ended(s, []))
  {
    if q != [] && Crosses(isBid, limit, q[0].price) {
      if qty <= q[0].qty {
        hide Sweep, MatchAsWritten, CountsRight;
        EndsAtFront(isBid, q, limit, qty);
      } else {
        hide Sweep, MatchAsWritten, CountsRight;
        GoesOn(isBid, q, limit, qty);
        if |q| > 1 && q[1].price == q[0].price {
          DefinedIffBestLevelSuffices(isBid, q[1..], limit, qty - q[0].qty);
        }
      }
    }
  }

  // ---- the count, order by order ----

  /** How many orders of the best level an incoming order of quantity `qty` takes off the list. */
  function UsedUp(q: seq<Resting>, qty: nat): nat {
    if q == [] || q[0].qty > qty then 0
    else if q[0].qty == qty then 1
    else 1 + if |q| > 1 && q[1].price == q[0].price then UsedUp(q[1..], qty - q[0].qty) else 0
  }

  /** How many orders of the best level keep a quantity once it has given up `qty`. */
  function Keepers(q: seq<Resting>, qty: nat): nat {
    if q == [] then 0
    else
      (if q[0].qty > qty then 1 else 0)
      + if |q| > 1 && q[1].price == q[0].price then Keepers(q[1..], if q[0].qty < qty then qty - q[0].qty else 0) else 0
  }

  lemma {:induction false} CountNonZeroFirst(q: seq<Resting>)
    requires q != []
    ensures CountNonZero(q) == (if q[0].qty != 0 then 1 else 0) + CountNonZero(q[1..])
  {
    var n := |q| - 1;
    if n > 0 {
      CountNonZeroFirst(q[..n]);
      assert q[..n][1..] == q[1..][..n - 1];
    } else {
      assert q[..0] == [] && q[1..] == [];
    }
  }

  lemma {:induction false} KeepersOfNothing(q: seq<Resting>)
    requires q != []
    ensures Keepers(q, 0) == CountNonZero(q[..FrontRun(q, q[0].price)])
  {
    var k := FrontRun(q, q[0].price);
    CountNonZeroFirst(q[..k]);
    assert q[..k][1..] == q[1..][..k - 1];
    if |q| > 1 && q[1].price == q[0].price {
      KeepersOfNothing(q[1..]);
    } else {
      assert q[1..][..0] == [];
    }
  }

  /** An order that ends inside the best level leaves the count right exactly when it uses the whole list up, or the
      orders that keep a quantity are not a multiple of 2^16, zero included. */
  lemma {:induction false} CountsRightInBestLevel(isBid: bool, q: seq<Resting>, limit: nat, qty: uint32)
    requires q != [] && Crosses(isBid, limit, q[0].price) && qty <= FrontTotal(q)
    ensures CountsRight(isBid, q, limit, qty) <==>
      UsedUp(q, qty) == FrontRun(q, q[0].price) || Keepers(q, qty) % TWO_16 != 0
  {
    var p := q[0].price;
    if qty > q[0].qty {
      CountsRightInBestLevel(isBid, q[1..], limit, qty - q[0].qty);
    } else {
      var more := |q| > 1 && q[1].price == p;
      if more {
        KeepersOfNothing(q[1..]);
      } else {
        assert FrontRun(q[1..], p) == 0;
        assert q[1..][..0] == [];
      }
      if qty < q[0].qty {
        var rest := [q[0].(qty := q[0].qty - qty)] + q[1..];
        assert rest[1..] == q[1..];
        var k := FrontRun(rest, p);
        CountNonZeroFirst(rest[..k]);
        assert rest[..k][1..] == q[1..][..k - 1];
      }
    }
  }

  /** Two sell levels of 5 each and a buy order for 8 at the worse price: the code steps through the dead reference. */
  lemma DeadReferenceExample()
    ensures MatchAsWritten(false, [Resting(1, 1, 100, 5), Resting(2, 1, 101, 5)], 101, 8) == Undefined
  {
  }

  /** A sell order of 5 with an empty one behind it, and a buy order for 5: the level goes, the empty order stays. */
  lemma OrphanExample()
    ensures var m := MatchAsWritten(false, [Resting(1, 1, 100, 5), Resting(2, 1, 100, 0)], 100, 5);
      m.Ended? && m.result.rest == [] && m.orphans == [Resting(2, 1, 100, 0)]
  {
    EmptyOrderUncounted();
    var q := [Resting(1, 1, 100, 5), Resting(2, 1, 100, 0)];
    assert q[1..] == [Resting(2, 1, 100, 0)];
    assert FrontRun(q[1..], 100) == 1 by {
      assert q[1..][1..] == [];
    }
  }

  // ---- a new order ----

  /** The test for a possible match as the code has it: it reads the best price before it knows there is one. */
  function TestAsWritten(b: Book, o: NewOrder): Option<bool> {
    var opposite := b.Side(!o.isBuy);
    if opposite == [] then None else Some(Crosses(!o.isBuy, o.price, opposite[0].price))
  }

  /** Adding an order as the code has it; `None` where it is undefined or leaves orders on no level. */
  function AddAsCoded(b: Book, o: NewOrder): Option<Effect> {
    var added := OrderAdded(o.id, o.ticker, o.price, o.qty, o.isBuy);
    if IndexOf(b.bids, o.id) < |b.bids| || IndexOf(b.asks, o.id) < |b.asks| then
      Some(Effect(b, Rejected([OrderIdAlreadyPresent]), [], []))
    else
      match TestAsWritten(b, o)
      case None => None
      case Some(false) =>
        Some(Effect(b.WithSide(o.isBuy, Insert(o.isBuy, b.Side(o.isBuy), Resting(o.id, o.user, o.price, o.qty))), Accepted, [], [added]))
      case Some(true) =>
        match MatchAsWritten(!o.isBuy, b.Side(!o.isBuy), o.price, o.qty)
        case Undefined => None
        case Ended(s, orphans) =>
          if orphans != [] then None
          else
            var swept := b.WithSide(!o.isBuy, s.rest);
            var fills := FillEvents(AS_WRITTEN, o.id, FillLog(o.ticker, o.id, s.trades));
            if s.left == 0 then Some(Effect(swept, Accepted, s.trades, fills))
            else
              var r := Resting(o.id, o.user, o.price, s.left);
              Some(Effect(swept.WithSide(o.isBuy, Insert(o.isBuy, swept.Side(o.isBuy), r)), Accepted, s.trades,
                          fills + [added.(qty := s.left)]))
  }

  /** The code adds an order as `Add` says exactly when its id is taken, or the other side has orders and either none
      is met or the best level can fill it and the count is right where it ends; otherwise it is undefined or
      loses a level under its orders. */
  lemma AddDefinedIff(b: Book, o: NewOrder)
    ensures var opposite := b.Side(!o.isBuy);
      AddAsCoded(b, o) ==
        if b.Has(o.id) || (opposite != [] && (!Meets(b, o) ||
             (o.qty <= FrontTotal(opposite) && CountsRight(!o.isBuy, opposite, o.price, o.qty))))
        then Some(Add(AS_WRITTEN, b, o)) else None
  {
    hide Sweep, MatchAsWritten, FrontTotal, CountsRight, Insert, FillEvents, FillLog;
    if !b.Has(o.id) {
      AbsentFromSides(b, o.id);
      TradesIffMeets(b, o);
      DefinedIffBestLevelSuffices(!o.isBuy, b.Side(!o.isBuy), o.price, o.qty);
      if !Meets(b, o) {
        NothingLogged(o);
        assert b.WithSide(!o.isBuy, b.Side(!o.isBuy)) == b;
        assert Add(AS_WRITTEN, b, o).events == [OrderAdded(o.id, o.ticker, o.price, o.qty, o.isBuy)];
      }
    } else {
      DuplicateRejected(AS_WRITTEN, b, o);
    }
  }

  lemma NothingLogged(o: NewOrder)
    ensures FillEvents(AS_WRITTEN, o.id, FillLog(o.ticker, o.id, [])) == []
  {
  }

  /** The test for a match is defined exactly when the other side has orders; it is not on the opening book. */
  lemma TestDefinedIffOrders(b: Book, o: NewOrder)
    ensures TestAsWritten(b, o).Some? <==> b.Side(!o.isBuy) != []
    ensures TestAsWritten(b, o).Some? ==> TestAsWritten(b, o).value == (SweepOf(b, o).trades != [])
    ensures TestAsWritten(EMPTY, o) == None && AddAsCoded(EMPTY, o) == None
  {
    TradesIffMeets(b, o);
    AddDefinedIff(EMPTY, o);
    assert !HasId([], o.id);
  }

  // ---- the user id on the incoming order's fills ----

  /** Every fill record of an order carries the id of its user. */
  predicate FillsOwn(log: seq<Fill>, id: nat, user: nat) {
    forall i :: 0 <= i < |log| && log[i].orderId == id ==> log[i].userId == user
  }

  lemma FillsOwnAppend(log: seq<Fill>, more: seq<Fill>, id: nat, user: nat)
    ensures FillsOwn(log + more, id, user) <==> FillsOwn(log, id, user) && FillsOwn(more, id, user)
  {
    var all := log + more;
    assert forall i :: 0 <= i < |log| ==> log[i] == all[i];
    assert forall i :: 0 <= i < |more| ==> more[i] == all[i + |log|];
  }

  lemma {:induction false} FillsOwnIffMakers(ticker: nat, taker: nat, user: nat, trades: seq<Trade>)
    requires forall i :: 0 <= i < |trades| ==> trades[i].maker != taker
    ensures FillsOwn(FillLog(ticker, taker, trades), taker, user) <==> forall i :: 0 <= i < |trades| ==> trades[i].makerUser == user
  {
    if trades != [] {
      var rest := trades[1..];
      FillsOwnIffMakers(ticker, taker, user, rest);
      FillsOwnAppend(FillPair(ticker, taker, trades[0]), FillLog(ticker, taker, rest), taker, user);
      var pair := FillPair(ticker, taker, trades[0]);
      assert pair[1].orderId == taker && pair[1].userId == trades[0].makerUser;
      assert forall i :: 1 <= i < |trades| ==> trades[i] == rest[i - 1];
    }
  }

  /** The incoming order's fills carry its own user's id exactly when every resting order it reaches is that
      user's. */
  lemma TakerFillsOwnIff(b: Book, o: NewOrder)
    requires WellFormed(b) && !b.Has(o.id)
    ensures var q := b.Side(!o.isBuy);
      FillsOwn(FillLog(o.ticker, o.id, SweepOf(b, o).trades), o.id, o.user) <==>
      forall i :: 0 <= i < |q| && Reached(!o.isBuy, q, o.price, o.qty, i) ==> q[i].user == o.user
  {
    hide Sweep, FillsOwn, Reached, DistinctIds, Disjoint;
    var side, q, t := !o.isBuy, b.Side(!o.isBuy), SweepOf(b, o).trades;
    AbsentFromSides(b, o.id);
    TradesFollowQueue(side, q, o.price, o.qty);
    forall i | 0 <= i < |t|
      ensures t[i].maker != o.id && t[i].makerUser == q[i].user
    {
      assert Hits(side, o.price, t[i], q[i]);
    }
    forall i | 0 <= i < |q|
      ensures i < |t| <==> Reached(side, q, o.price, o.qty, i)
    {
      HitIffReached(side, q, o.price, o.qty, i);
    }
    FillsOwnIffMakers(o.ticker, o.id, o.user, t);
  }

  /** A buy order of user 2 against a sell order of user 1: its fill carries user 1. */
  lemma TakerFillExample()
    ensures var b, o := Book([], [Resting(1, 1, 100, 5)]), NewOrder(2, 2, 7, 100, 5, true);
      !FillsOwn(FillLog(o.ticker, o.id, SweepOf(b, o).trades), o.id, o.user)
  {
    var b, o := Book([], [Resting(1, 1, 100, 5)]), NewOrder(2, 2, 7, 100, 5, true);
    var t := SweepOf(b, o).trades;
    assert t == [Trade(1, 1, 100, 5, true, true)];
    FillsOwnIffMakers(7, 2, 2, t);
    assert t[0].makerUser == 1;
  }
}
