/** First-in-first-out matching over the linked price levels of one side. */
module FifoMatcher {
  import opened Orders
  import opened Matching
  import opened LevelCounts
  import opened Levels
  import opened MatchingLaws
  import opened FillRecords

  class MatchResult {
    var fills: seq<Fill>
    var orderFilled: bool

    constructor ()
      ensures fills == [] && !orderFilled
    {
      fills, orderFilled := [], false;
    }

    // The quantity parameter has 16 bits.
    method AddFill(ticker: nat, orderId: nat, price: nat, qty: uint32, full: bool, userId: nat)
      modifies this
      ensures fills == old(fills) + [Fill(ticker, orderId, price, qty % TWO_16, full, userId)]
      ensures orderFilled == old(orderFilled)
    {
      fills := fills + [Fill(ticker, orderId, price, qty % TWO_16, full, userId)];
    }

    method SetOrderFilled()
      modifies this
      ensures orderFilled && fills == old(fills)
    {
      orderFilled := true;
    }
  }

  lemma {:induction false} FillLogAppend(ticker: nat, taker: nat, trades: seq<Trade>, t: Trade)
    ensures FillLog(ticker, taker, trades + [t]) == FillLog(ticker, taker, trades) + FillPair(ticker, taker, t)
  {
    if trades == [] {
      assert [t][1..] == [];
    } else {
      assert (trades + [t])[1..] == trades[1..] + [t];
      FillLogAppend(ticker, taker, trades[1..], t);
    }
  }

  method AddFills(result: MatchResult, order: Order, bookLim: Limit, fillQty: uint32)
    modifies result
    ensures result.orderFilled == old(result.orderFilled)
    ensures result.fills == old(result.fills) + FillPair(order.ticker, order.orderId,
              Trade(bookLim.order.orderId, bookLim.order.userId, bookLim.order.price, fillQty,
                    bookLim.order.currQty == 0, order.currQty == 0))
    ensures result.fills == old(result.fills) + [
      Fill(order.ticker, bookLim.order.orderId, bookLim.order.price, fillQty % TWO_16, bookLim.order.currQty == 0, bookLim.order.userId),
      Fill(order.ticker, order.orderId, bookLim.order.price, fillQty % TWO_16, order.currQty == 0, bookLim.order.userId)]
  {
    var orderFilled := order.currQty == 0;
    var bookLimFilled := bookLim.order.currQty == 0;
    result.AddFill(order.ticker, bookLim.order.orderId, bookLim.order.price, fillQty, bookLimFilled, bookLim.order.userId);
    result.AddFill(order.ticker, order.orderId, bookLim.order.price, fillQty, orderFilled, bookLim.order.userId);
  }

  lemma DropOccupied(book: SideBook, q0: seq<Limit>, itr: nat)
    requires q0 != [] && book.queue == q0[1..] && q0[0].order.price == itr
    requires forall p :: p in book.levels && p != itr ==> HasPrice(q0, p)
    ensures book.OccupiedExcept({itr})
  {
    forall p | p in book.levels && p != itr
      ensures HasPrice(book.queue, p)
    {
      var i :| 0 <= i < |q0| && q0[i].order.price == p;
      assert book.queue[i - 1].order.price == p;
    }
  }

  lemma SuffixSorted(book: SideBook, q0: seq<Limit>, k: nat, itr: nat)
    requires SortedNodes(book.isBid, q0) && q0 != [] && itr == q0[0].order.price
    requires k <= |q0| && (k == |q0| || q0[k].order.price != itr)
    ensures !HasPrice(q0[k..], itr)
  {
    forall i | k <= i < |q0|
      ensures q0[i].order.price != itr
    {
      assert i == k || !Better(book.isBid, q0[i].order.price, q0[k].order.price);
      assert k > 0 && !Better(book.isBid, q0[k].order.price, q0[0].order.price);
    }
  }

  // The matcher is at level `itr`, whose list is the front of the queue or already empty.
  ghost predicate AtLevel(book: SideBook, level: Level, itr: nat, current: Limit?)
    reads book, book.links
  {
    && book.Linked()
    && book.OccupiedExcept({itr})
    && itr in book.levels
    && level == book.levels[itr]
    && level in book.links
    && current == level.head
    && (current == null ==> !HasPrice(book.queue, itr))
    && (current != null ==> book.queue != [] && book.queue[0] == current && current.order.price == itr)
  }

  lemma FrontOf(book: SideBook, level: Level, itr: nat, current: Limit)
    requires AtLevel(book, level, itr, current)
    ensures book.Linked() && book.queue != [] && book.queue[0] == current && current.order.price == itr
    ensures book.links <= book.repr && current.order in book.repr && current.order !in book.links
    ensures current.currentLevel == level && level == book.levels[itr]
    ensures book.View() != [] && book.View()[0] == current.order.ToResting()
    ensures current.nextLimit == NextIn(book.queue, 0) && level in book.links
    ensures level in book.repr && (current.nextLimit != null ==> current.nextLimit in book.repr)
  {
    book.LinkedAt(0);
    if current.nextLimit != null {
      book.LinkedAt(1);
    }
  }

  // The rest of the queue is as it was.
  twostate lemma FrontUnlinked(book: SideBook)
    requires old(book.HoldsOrders()) && book.HoldsOrders() && old(book.queue) != [] && book.queue == old(book.queue)[1..]
    requires forall o: Order | o in old(book.repr) && o !in old(book.links) :: o.currQty == old(o.currQty)
    ensures book.View() == old(book.View())[1..]
  {
    forall i | 0 <= i < |book.queue|
      ensures book.View()[i] == old(book.View())[i + 1]
    {
      assert book.queue[i] == old(book.queue)[i + 1];
    }
  }

  // Unlinks the first node of the best level.
  method RemoveOrderFromBook(bookLim: Limit, level: Level, index: LimitBook, ghost book: SideBook, ghost itr: nat)
    returns (next: Limit?)
    requires AtLevel(book, level, itr, bookLim) && index !in book.repr
    modifies level, index, book`queue, bookLim.nextLimit
    ensures AtLevel(book, level, itr, next)
    ensures book.queue == old(book.queue)[1..] && book.View() == old(book.View())[1..]
    ensures index.entries == old(index.entries) - {bookLim.order.orderId}
  {
    hide DistinctNodes, ViewOf, SideBook.View;
    book.LinkedAt(0);
    var nextLimit := bookLim.nextLimit;
    if nextLimit != null {
      nextLimit.prevLimit := null;
    }
    level.head := nextLimit;
    var id := bookLim.order.orderId;
    next := nextLimit;
    index.entries := index.entries - {id};
    book.queue := book.queue[1..];
    book.FrontRemoved();
    FrontUnlinked(book);
    LevelAfterRemoval(book, old(book.queue), level, itr, next);
  }

  lemma LevelAfterRemoval(book: SideBook, q0: seq<Limit>, level: Level, itr: nat, next: Limit?)
    requires book.Linked() && SortedNodes(book.isBid, q0)
    requires q0 != [] && book.queue == q0[1..] && q0[0].order.price == itr
    requires forall p :: p in book.levels && p != itr ==> HasPrice(q0, p)
    requires itr in book.levels && level == book.levels[itr] && level in book.links && level.head == next
    requires next == NextIn(q0, 0)
    ensures AtLevel(book, level, itr, next)
  {
    DropOccupied(book, q0, itr);
    if next == null {
      SuffixSorted(book, q0, 1, itr);
    }
  }

  predicate NoMatchingLevel(isBid: bool, orderPrice: nat, levelPrice: nat) {
    !Crosses(isBid, orderPrice, levelPrice)
  }

  /** The trade of an incoming order with `qty` left against the resting order `o`. */
  predicate IsTrade(t: Trade, o: Resting, qty: uint32) {
    t.qty == Min(o.qty, qty) && t == Trade(o.id, o.user, o.price, t.qty, o.qty == t.qty, qty == t.qty)
  }

  /** The queue after its first order has traded: a used-up order is gone. */
  function AfterTrade(q: seq<Resting>, t: Trade): seq<Resting>
    requires q != [] && t.qty <= q[0].qty
  {
    if t.makerDone then q[1..] else [q[0].(qty := q[0].qty - t.qty)] + q[1..]
  }

  // What the condition on the counts says once the front order has traded.
  lemma CountsAfterTrade(isBid: bool, q: seq<Resting>, limit: nat, qty: uint32, t: Trade)
    requires q != [] && Crosses(isBid, limit, q[0].price) && IsTrade(t, q[0], qty) && CountsRight(isBid, q, limit, qty)
    ensures if t.takerDone then CountTells(AfterTrade(q, t), q[0].price) else CountsRight(isBid, AfterTrade(q, t), limit, qty - t.qty)
  {
    hide CountTells;
  }

  // The sweep from a trade at the front of the queue on.
  lemma SweepStep(isBid: bool, q: seq<Resting>, limit: nat, qty: uint32, t: Trade)
    requires q != [] && Crosses(isBid, limit, q[0].price) && IsTrade(t, q[0], qty)
    ensures t.takerDone ==> Sweep(isBid, q, limit, qty) == SweepResult(AfterTrade(q, t), 0, [t])
    ensures !t.takerDone ==>
      && t.makerDone
      && var r := Sweep(isBid, AfterTrade(q, t), limit, qty - t.qty);
         Sweep(isBid, q, limit, qty) == r.(trades := [t] + r.trades)
  {
  }

  // Trades the incoming order against the order at the front of the queue.
  method FillFront(bookOrder: Limit, orderToMatch: Order, result: MatchResult, ghost level: Level,
                   ghost book: SideBook, ghost itr: nat)
    returns (ghost t: Trade)
    requires AtLevel(book, level, itr, bookOrder) && orderToMatch !in book.repr && result !in book.repr
    modifies orderToMatch, bookOrder.order, result
    ensures AtLevel(book, level, itr, bookOrder)
    ensures IsTrade(t, old(book.View())[0], old(orderToMatch.currQty))
    ensures orderToMatch.currQty == old(orderToMatch.currQty) - t.qty
    ensures bookOrder.order.currQty == old(bookOrder.order.currQty) - t.qty
    ensures book.View() == [old(book.View())[0].(qty := bookOrder.order.currQty)] + old(book.View())[1..]
    ensures result.fills == old(result.fills) + FillPair(orderToMatch.ticker, orderToMatch.orderId, t)
    ensures result.orderFilled == old(result.orderFilled)
  {
    hide SideBook.Linked, SortedNodes, DistinctNodes, SideBook.NodeLinked, AtLevel;
    FrontOf(book, level, itr, bookOrder);
    var fillQty := Min(bookOrder.order.currQty, orderToMatch.currQty);
    var thrown := orderToMatch.DecreaseQty(fillQty);
    assert !thrown;
    thrown := bookOrder.order.DecreaseQty(fillQty);
    assert !thrown;
    AddFills(result, orderToMatch, bookOrder, fillQty);
    t := Trade(bookOrder.order.orderId, bookOrder.order.userId, bookOrder.order.price, fillQty,
               bookOrder.order.currQty == 0, orderToMatch.currQty == 0);
    FrontTraded(book);
  }

  // Only the quantity at the front of the queue has changed.
  twostate lemma FrontTraded(book: SideBook)
    requires old(book.Linked()) && book.HoldsOrders() && book.queue == old(book.queue) && book.queue != []
    requires forall o: Order | o in old(book.repr) && o != book.queue[0].order :: o.currQty == old(o.currQty)
    ensures book.View() == [old(book.View())[0].(qty := book.queue[0].order.currQty)] + old(book.View())[1..]
  {
    forall i | 1 <= i < |book.queue|
      ensures book.View()[i] == old(book.View())[i]
    {
      assert book.queue[i].order.orderId != book.queue[0].order.orderId;
      assert old(book.NodeLinked(i));
    }
    assert old(book.NodeLinked(0));
  }

  // The front of the queue of nodes is the front of the view.
  lemma {:induction false} FrontInView(q: seq<Limit>, v: seq<Resting>, p: nat)
    requires |v| == |q| && forall i :: 0 <= i < |q| ==> v[i].price == q[i].order.price
    ensures FrontRun(v, p) == FrontLen(q, p)
  {
    if q != [] {
      FrontInView(q[1..], v[1..], p);
    }
  }

  /** The 16-bit count of the best level is zero exactly when `EraseFires`, whatever quantities rest there; and that
      is the emptiness of its list exactly when `CountTells`. */
  lemma CountIsExact(book: SideBook, itr: nat)
    requires book.Linked()
    ensures var k := FrontLen(book.queue, itr); var fires := CountNonZero(ViewOf(book.queue[..k])) % TWO_16 == 0;
      && (fires <==> EraseFires(book.View(), itr))
      && (k == 0 ==> fires)
      && ((fires <==> k == 0) <==> CountTells(book.View(), itr))
  {
    hide SideBook.NodeLinked, SortedNodes, DistinctNodes;
    var k := FrontLen(book.queue, itr);
    FrontInView(book.queue, book.View(), itr);
    assert ViewOf(book.queue[..k]) == book.View()[..k];
  }

  // Erases a level whose 16-bit count is zero.
  method EraseIfEmpty(level: Level, book: SideBook, itr: nat, ghost current: Limit?) returns (erased: bool)
    requires AtLevel(book, level, itr, current) && CountTells(book.View(), itr)
    modifies book`levels
    ensures book.Valid() && book.View() == old(book.View())
    ensures erased <==> !HasPrice(book.queue, itr)
    ensures book.levels == if erased then old(book.levels) - {itr} else old(book.levels)
  {
    CountIsExact(book, itr);
    book.FrontIsChain(itr);
    var count := level.GetLevelOrderCount(book.queue[..FrontLen(book.queue, itr)]);
    if count == 0 {
      book.Erase(itr);
      return true;
    }
    assert book.queue[0].order.price == itr;
    return false;
  }

  // Ends the match inside a level: drops the resting order if it is used up, and the level if it is.
  method FinishInLevel(bookOrder: Limit, level: Level, index: LimitBook, book: SideBook, itr: nat)
    requires AtLevel(book, level, itr, bookOrder) && index !in book.repr
    requires CountTells(if bookOrder.order.currQty == 0 then book.View()[1..] else book.View(), itr)
    modifies level, index, book`levels, book`queue, bookOrder.nextLimit
    ensures book.Valid()
    ensures bookOrder.order.currQty == old(bookOrder.order.currQty)
    ensures bookOrder.order.currQty == 0 ==>
      && book.queue == old(book.queue)[1..] && book.View() == old(book.View())[1..]
      && index.entries == old(index.entries) - {bookOrder.order.orderId}
    ensures bookOrder.order.currQty != 0 ==>
      book.queue == old(book.queue) && book.View() == old(book.View()) && index.entries == old(index.entries)
  {
    hide SideBook.Linked, SortedNodes, DistinctNodes, SideBook.OccupiedExcept, SideBook.View, AtLevel, CountTells, ViewOf;
    FrontOf(book, level, itr, bookOrder);
    ghost var next: Limit? := bookOrder;
    if bookOrder.order.currQty == 0 {
      next := RemoveOrderFromBook(bookOrder, level, index, book, itr);
    }
    var _ := EraseIfEmpty(level, book, itr, next);
  }

  // One iteration of the inner loop: one trade, after which the resting order, the level
  // and the incoming order may each be used up.
  method MatchFront(bookOrder: Limit, orderToMatch: Order, result: MatchResult, level: Level,
                    index: LimitBook, book: SideBook, itr: nat)
    returns (filled: bool, next: Limit?, ghost t: Trade)
    requires AtLevel(book, level, itr, bookOrder) && Crosses(book.isBid, orderToMatch.price, itr)
    requires CountsRight(book.isBid, book.View(), orderToMatch.price, orderToMatch.currQty)
    requires index !in book.repr && orderToMatch !in book.repr && result !in book.repr
    modifies orderToMatch, bookOrder.order, result, level, index, book`levels, book`queue, bookOrder.nextLimit
    ensures IsTrade(t, old(book.View())[0], old(orderToMatch.currQty))
    ensures orderToMatch.currQty == old(orderToMatch.currQty) - t.qty
    ensures result.fills == old(result.fills) + FillPair(orderToMatch.ticker, orderToMatch.orderId, t)
    ensures result.orderFilled == old(result.orderFilled)
    ensures filled <==> t.takerDone
    ensures t.makerDone || t.takerDone
    ensures book.HoldsOrders()
    ensures t.makerDone ==>
      book.queue == old(book.queue)[1..] && index.entries == old(index.entries) - {bookOrder.order.orderId}
    ensures !t.makerDone ==> book.queue == old(book.queue) && index.entries == old(index.entries)
    ensures book.View() == AfterTrade(old(book.View()), t)
    ensures filled ==> book.Valid()
    ensures !filled ==> AtLevel(book, level, itr, next) && book.levels == old(book.levels)
    ensures !filled ==> CountsRight(book.isBid, book.View(), orderToMatch.price, orderToMatch.currQty)
  {
    hide SideBook.Linked, SideBook.NodeLinked, SideBook.Valid, SortedNodes, DistinctNodes, SideBook.OccupiedExcept,
      SideBook.View, ViewOf, AtLevel, CountsRight, CountTells, FillPair;
    FrontOf(book, level, itr, bookOrder);
    ghost var v, left := book.View(), orderToMatch.currQty;
    t := FillFront(bookOrder, orderToMatch, result, level, book, itr);
    assert book.View()[1..] == v[1..];
    CountsAfterTrade(book.isBid, v, orderToMatch.price, left, t);
    if orderToMatch.currQty == 0 {
      FinishInLevel(bookOrder, level, index, book, itr);
      return true, bookOrder, t;
    }
    next := RemoveOrderFromBook(bookOrder, level, index, book, itr);
    return false, next, t;
  }

  /** What a match starts from, and the sweep it has to carry out. */
  datatype Plan = Plan(queue: seq<Limit>, entries: map<nat, Limit>, ticker: nat, taker: nat,
                       isBid: bool, limit: nat, view0: seq<Resting>, left0: uint32, sweep: SweepResult)
  {
    // With `removed` nodes unlinked and the trades `done` logged, the rest of the plan is
    // the sweep of `view` by an order with `left` still to be matched.
    ghost predicate Underway(removed: nat, done: seq<Trade>, queue': seq<Limit>, entries': map<nat, Limit>,
                             fills: seq<Fill>, view: seq<Resting>, left: uint32)
    {
      && removed <= |queue|
      && queue' == queue[removed..]
      && entries' == entries - IdsOf(queue[..removed])
      && fills == FillLog(ticker, taker, done)
      && var r := Sweep(isBid, view, limit, left);
         sweep == r.(trades := done + r.trades)
    }

    ghost predicate Complete(removed: nat, done: seq<Trade>, queue': seq<Limit>, entries': map<nat, Limit>,
                             fills: seq<Fill>, view: seq<Resting>, left: uint32)
    {
      && removed <= |queue|
      && queue' == queue[removed..]
      && entries' == entries - IdsOf(queue[..removed])
      && fills == FillLog(ticker, taker, done)
      && sweep == SweepResult(view, left, done)
    }

    lemma Start()
      requires sweep == Sweep(isBid, view0, limit, left0)
      ensures Underway(0, [], queue, entries, [], view0, left0)
    {
      assert queue[..0] == [];
      assert queue[0..] == queue;
      assert sweep.trades == [] + sweep.trades;
    }

    lemma Finish(removed: nat, done: seq<Trade>, queue': seq<Limit>, entries': map<nat, Limit>,
                 fills: seq<Fill>, view: seq<Resting>, left: uint32)
      requires Underway(removed, done, queue', entries', fills, view, left)
      requires view == [] || !Crosses(isBid, limit, view[0].price)
      ensures Complete(removed, done, queue', entries', fills, view, left)
    {
    }

    // One trade at the front of the queue carries the plan one step further.
    lemma Step(removed: nat, done: seq<Trade>, queue': seq<Limit>, entries': map<nat, Limit>,
               fills: seq<Fill>, view: seq<Resting>, left: uint32, t: Trade)
      requires Underway(removed, done, queue', entries', fills, view, left)
      requires queue' != [] && view != [] && Crosses(isBid, limit, view[0].price) && IsTrade(t, view[0], left)
      requires view[0].id == queue'[0].order.orderId
      ensures var removed' := if t.makerDone then removed + 1 else removed;
        var queue'' := if t.makerDone then queue'[1..] else queue';
        var entries'' := if t.makerDone then entries' - {queue'[0].order.orderId} else entries';
        var fills' := fills + FillPair(ticker, taker, t);
        if t.takerDone then
          Complete(removed', done + [t], queue'', entries'', fills', AfterTrade(view, t), 0)
        else
          Underway(removed', done + [t], queue'', entries'', fills', AfterTrade(view, t), left - t.qty)
    {
      hide Sweep, AfterTrade, FillLog, FillPair, Crosses, IdsOf;
      FillLogAppend(ticker, taker, done, t);
      IdsOfSplit(queue, removed);
      SweepStep(isBid, view, limit, left, t);
      if !t.takerDone {
        var r := Sweep(isBid, AfterTrade(view, t), limit, left - t.qty);
        assert done + ([t] + r.trades) == done + [t] + r.trades;
      }
    }
  }

  lemma SideHoldsOrders(book: SideBook)
    requires book.Linked()
    ensures book.HoldsOrders()
  {
  }

  lemma IdsOfSplit(q: seq<Limit>, k: nat)
    requires k <= |q|
    ensures k < |q| ==> IdsOf(q[..k + 1]) == IdsOf(q[..k]) + {q[k].order.orderId}
  {
    if k < |q| {
      assert forall n :: n in q[..k + 1] <==> n in q[..k] || n == q[k];
    }
  }

  // The inner loop: matches against one level until the order or the level is used up.
  method OrderFullyMatchedInLevel(bookOrder: Limit?, orderToMatch: Order, result: MatchResult, level: Level,
                                  index: LimitBook, book: SideBook, itr: nat,
                                  ghost plan: Plan, ghost removed0: nat, ghost done0: seq<Trade>)
    returns (filled: bool, ghost removed: nat, ghost done: seq<Trade>)
    requires AtLevel(book, level, itr, bookOrder) && book.HoldsOrders()
    requires CountsRight(book.isBid, book.View(), orderToMatch.price, orderToMatch.currQty)
    requires index !in book.repr && orderToMatch !in book.repr && result !in book.repr
    requires !NoMatchingLevel(book.isBid, orderToMatch.price, itr)
    requires plan.ticker == orderToMatch.ticker && plan.taker == orderToMatch.orderId
    requires plan.isBid == book.isBid && plan.limit == orderToMatch.price
    requires plan.Underway(removed0, done0, book.queue, index.entries, result.fills, book.View(), orderToMatch.currQty)
    modifies orderToMatch, result, index, book`levels, book`queue, book.repr
    ensures book.repr == old(book.repr) && book.HoldsOrders()
    ensures filled ==>
      && book.Valid()
      && plan.Complete(removed, done, book.queue, index.entries, result.fills, book.View(), orderToMatch.currQty)
      && done != [] && done[|done| - 1].takerDone
    ensures !filled ==>
      && AtLevel(book, level, itr, null) && book.levels == old(book.levels)
      && CountsRight(book.isBid, book.View(), orderToMatch.price, orderToMatch.currQty)
      && plan.Underway(removed, done, book.queue, index.entries, result.fills, book.View(), orderToMatch.currQty)
      && removed0 <= removed && (bookOrder != null ==> orderToMatch.currQty > 0)
    ensures result.orderFilled == (old(result.orderFilled) || filled)
  {
    hide SideBook.Linked, SortedNodes, DistinctNodes, SideBook.OccupiedExcept, AtLevel, CountsRight, Plan.Underway,
      Plan.Complete, AfterTrade, FillPair, Sweep, SideBook.Valid, SideBook.View, SideBook.HoldsOrders, Crosses;
    var current := bookOrder;
    removed, done := removed0, done0;
    while current != null
      invariant AtLevel(book, level, itr, current) && book.HoldsOrders()
      invariant book.levels == old(book.levels) && book.repr == old(book.repr)
      invariant CountsRight(book.isBid, book.View(), orderToMatch.price, orderToMatch.currQty)
      invariant plan.Underway(removed, done, book.queue, index.entries, result.fills, book.View(), orderToMatch.currQty)
      invariant removed0 <= removed && (bookOrder != current ==> orderToMatch.currQty > 0)
      invariant result.orderFilled == old(result.orderFilled)
      decreases |book.queue|
    {
      FrontOf(book, level, itr, current);
      ghost var view, left, q, e, f := book.View(), orderToMatch.currQty, book.queue, index.entries, result.fills;
      var stop, next, t := MatchFront(current, orderToMatch, result, level, index, book, itr);
      plan.Step(removed, done, q, e, f, view, left, t);
      if t.makerDone {
        removed := removed + 1;
      }
      done := done + [t];
      if stop {
        result.SetOrderFilled();
        return true, removed, done;
      }
      current := next;
    }
    return false, removed, done;
  }

  lemma LevelAtFront(book: SideBook, itr: nat)
    requires book.Valid() && book.Begin() == Some(itr)
    ensures itr in book.levels && AtLevel(book, book.levels[itr], itr, book.levels[itr].head)
    ensures itr == Best(book.isBid, book.levels.Keys) && book.levels[itr].head != null
    ensures book.queue != [] && book.queue[0].order.price == itr
  {
    assert HasPrice(book.queue, itr);
    book.BeginIsFront();
    book.LinkedAt(0);
  }

  lemma FrontDoesNotCross(book: SideBook, limit: nat)
    requires book.Valid()
    requires book.Begin().Some? ==> NoMatchingLevel(book.isBid, limit, book.Begin().value)
    ensures book.View() == [] || !Crosses(book.isBid, limit, book.View()[0].price)
  {
    book.BeginIsFront();
  }

  lemma LevelIsHollow(book: SideBook, level: Level, itr: nat)
    requires AtLevel(book, level, itr, null)
    ensures !HasPrice(book.queue, itr) && CountTells(book.View(), itr)
  {
    FrontInView(book.queue, book.View(), itr);
  }

  lemma NextAfterErase(book: SideBook, was: map<nat, Level>, itr: nat)
    requires was != map[] && itr == Best(book.isBid, was.Keys)
    requires book.levels == was - {itr}
    ensures book.Begin() ==
      var worse := set k | k in was && Better(book.isBid, itr, k);
      if worse == {} then None else Some(Best(book.isBid, worse))
  {
    assert book.levels.Keys == set k | k in was && Better(book.isBid, itr, k);
  }

  lemma OneLevelLess(was: map<nat, Level>, itr: nat)
    requires itr in was
    ensures |was - {itr}| < |was|
  {
    assert (was - {itr}).Keys == was.Keys - {itr};
  }

  // Steps to the next level and erases the one that was used up.
  method EraseAndAdvance(level: Level, book: SideBook, itr: nat) returns (next: Option<nat>)
    requires AtLevel(book, level, itr, null) && itr == Best(book.isBid, book.levels.Keys)
    modifies book`levels
    ensures book.Valid() && book.HoldsOrders() && book.View() == old(book.View())
    ensures next == book.Begin() && |book.levels| < |old(book.levels)|
  {
    hide SideBook.Linked, SideBook.OccupiedExcept, AtLevel, SortedNodes, DistinctNodes, CountTells;
    LevelIsHollow(book, level, itr);
    next := book.Next(itr);
    ghost var was := book.levels;
    var erased := EraseIfEmpty(level, book, itr, null);
    assert erased;
    OneLevelLess(was, itr);
    NextAfterErase(book, was, itr);
    SideHoldsOrders(book);
  }

  // One iteration of the outer loop: matches against the best level and, unless that fills the order, erases it.
  method VisitLevel(orderToMatch: Order, book: SideBook, index: LimitBook, result: MatchResult, itr: nat,
                    ghost plan: Plan, ghost removed0: nat, ghost done0: seq<Trade>)
    returns (filled: bool, next: Option<nat>, ghost removed: nat, ghost done: seq<Trade>)
    requires book.Valid() && book.HoldsOrders() && CountsRight(book.isBid, book.View(), orderToMatch.price, orderToMatch.currQty)
    requires book.Begin() == Some(itr) && !NoMatchingLevel(book.isBid, orderToMatch.price, itr)
    requires index !in book.repr && orderToMatch !in book.repr && result !in book.repr
    requires plan.ticker == orderToMatch.ticker && plan.taker == orderToMatch.orderId
    requires plan.isBid == book.isBid && plan.limit == orderToMatch.price
    requires plan.Underway(removed0, done0, book.queue, index.entries, result.fills, book.View(), orderToMatch.currQty)
    requires !result.orderFilled
    modifies orderToMatch, index, result, book`levels, book`queue, book.repr
    ensures book.Valid() && book.HoldsOrders() && book.repr == old(book.repr) && (result.orderFilled <==> filled)
    ensures filled ==>
      && plan.Complete(removed, done, book.queue, index.entries, result.fills, book.View(), orderToMatch.currQty)
      && done != [] && done[|done| - 1].takerDone
    ensures !filled ==>
      && plan.Underway(removed, done, book.queue, index.entries, result.fills, book.View(), orderToMatch.currQty)
      && CountsRight(book.isBid, book.View(), orderToMatch.price, orderToMatch.currQty) && orderToMatch.currQty > 0
      && next == book.Begin() && |book.levels| < |old(book.levels)|
  {
    hide SideBook.Linked, SideBook.Valid, SideBook.OccupiedExcept, SideBook.Begin, AtLevel, SortedNodes, DistinctNodes,
      CountsRight, Plan.Underway, Plan.Complete, SideBook.View, SideBook.HoldsOrders, ViewOf, IsBest, Best,
      HasPrice, FillLog, Sweep;
    LevelAtFront(book, itr);
    next := None;
    var level := book.levels[itr];
    var bookOrder := level.head;
    filled, removed, done := OrderFullyMatchedInLevel(bookOrder, orderToMatch, result, level, index, book, itr, plan, removed0, done0);
    if !filled {
      next := EraseAndAdvance(level, book, itr);
    }
  }

  // The outer loop: visits the levels from the best one on.
  method MatchLevels(orderToMatch: Order, book: SideBook, index: LimitBook, result: MatchResult, ghost plan: Plan)
    returns (ghost removed: nat, ghost done: seq<Trade>)
    requires book.Valid() && book.HoldsOrders() && CountsRight(book.isBid, book.View(), orderToMatch.price, orderToMatch.currQty)
    requires index !in book.repr && orderToMatch !in book.repr && result !in book.repr
    requires plan.ticker == orderToMatch.ticker && plan.taker == orderToMatch.orderId
    requires plan.isBid == book.isBid && plan.limit == orderToMatch.price && plan.queue == book.queue
    requires plan.Underway(0, [], book.queue, index.entries, result.fills, book.View(), orderToMatch.currQty)
    requires !result.orderFilled
    modifies orderToMatch, index, result, book`levels, book`queue, book.repr
    ensures book.Valid() && book.HoldsOrders() && book.repr == old(book.repr)
    ensures plan.Complete(removed, done, book.queue, index.entries, result.fills, book.View(), orderToMatch.currQty)
    ensures result.orderFilled ==> done != [] && done[|done| - 1].takerDone
    ensures !result.orderFilled ==> done == [] || orderToMatch.currQty > 0
  {
    hide SideBook.Linked, SideBook.Valid, SideBook.Begin, CountsRight, Plan.Underway, Plan.Complete, SideBook.View,
      SideBook.HoldsOrders, NoMatchingLevel, Crosses;
    removed, done := 0, [];
    var bookItr := book.Begin();
    while bookItr.Some?
      invariant book.Valid() && book.HoldsOrders() && CountsRight(book.isBid, book.View(), orderToMatch.price, orderToMatch.currQty)
      invariant book.repr == old(book.repr) && bookItr == book.Begin()
      invariant plan.Underway(removed, done, book.queue, index.entries, result.fills, book.View(), orderToMatch.currQty)
      invariant !result.orderFilled && (done == [] || orderToMatch.currQty > 0)
      decreases |book.levels|
    {
      if NoMatchingLevel(book.isBid, orderToMatch.price, bookItr.value) {
        break;
      }
      var filled;
      filled, bookItr, removed, done := VisitLevel(orderToMatch, book, index, result, bookItr.value, plan, removed, done);
      if filled {
        return;
      }
    }
    FrontDoesNotCross(book, orderToMatch.price);
    plan.Finish(removed, done, book.queue, index.entries, result.fills, book.View(), orderToMatch.currQty);
  }

  lemma ViewSorted(book: SideBook)
    requires book.Valid()
    ensures SortedSide(book.isBid, book.View()) && DistinctIds(book.View())
  {
  }

  /** Matches an incoming order against one side of a book: the side, the index, the order and
      the fill log end up as the sweep of the queue says. */
  method FIFOMatch(orderToMatch: Order, book: SideBook, index: LimitBook)
    returns (result: MatchResult, ghost removed: nat)
    requires book.Valid() && book.HoldsOrders() && CountsRight(book.isBid, book.View(), orderToMatch.price, orderToMatch.currQty)
    requires index !in book.repr && orderToMatch !in book.repr
    modifies orderToMatch, index, book`levels, book`queue, book.repr
    ensures fresh(result) && book.Valid() && book.HoldsOrders() && book.repr == old(book.repr)
    ensures removed <= |old(book.queue)| && book.queue == old(book.queue)[removed..]
    ensures index.entries == old(index.entries) - IdsOf(old(book.queue)[..removed])
    ensures var s := Sweep(book.isBid, old(book.View()), orderToMatch.price, old(orderToMatch.currQty));
      && book.View() == s.rest
      && orderToMatch.currQty == s.left
      && result.fills == FillLog(orderToMatch.ticker, orderToMatch.orderId, s.trades)
      && (result.orderFilled <==> s.trades != [] && s.trades[|s.trades| - 1].takerDone)
    ensures result.orderFilled <==> result.fills != [] && orderToMatch.currQty == 0
    ensures LogTells(result.fills, book.isBid, old(book.View()), orderToMatch.price, old(orderToMatch.currQty), book.View(),
                     orderToMatch.currQty, orderToMatch.ticker, orderToMatch.orderId)
  {
    hide SideBook.Linked, SideBook.OccupiedExcept, SideBook.Valid, CountsRight, Plan.Underway, Sweep, FillLog,
      LogTells;
    ghost var plan := Plan(book.queue, index.entries, orderToMatch.ticker, orderToMatch.orderId, book.isBid,
                           orderToMatch.price, book.View(), orderToMatch.currQty,
                           Sweep(book.isBid, book.View(), orderToMatch.price, orderToMatch.currQty));
    plan.Start();
    ViewSorted(book);
    LogLength(orderToMatch.ticker, orderToMatch.orderId, plan.sweep.trades);
    FillLogTells(book.isBid, book.View(), orderToMatch.price, orderToMatch.currQty, orderToMatch.ticker, orderToMatch.orderId);
    TakerDoneLast(book.isBid, book.View(), orderToMatch.price, orderToMatch.currQty);
    result := new MatchResult();
    ghost var done;
    removed, done := MatchLevels(orderToMatch, book, index, result, plan);
  }
}
