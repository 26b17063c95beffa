/** The limit order book: two sides of linked price levels and an index from order id to node. */
module OrderBooks {
  import opened Orders
  import opened Sequences
  import opened Matching
  import opened LevelCounts
  import opened Levels
  import opened FifoMatcher
  import opened BookSpec

  /** Every node of the two queues is indexed under its own id, and nothing else is. */
  ghost predicate IndexAgrees(entries: map<nat, Limit>, q1: seq<Limit>, q2: seq<Limit>) {
    && (forall n :: n in q1 ==> n.order.orderId in entries && entries[n.order.orderId] == n && n !in q2)
    && (forall n :: n in q2 ==> n.order.orderId in entries && entries[n.order.orderId] == n && n !in q1)
    && (forall id :: id in entries ==> entries[id].order.orderId == id && (entries[id] in q1 || entries[id] in q2))
  }

  lemma IndexSwap(entries: map<nat, Limit>, q1: seq<Limit>, q2: seq<Limit>)
    requires IndexAgrees(entries, q1, q2)
    ensures IndexAgrees(entries, q2, q1)
  {
  }

  // Taking nodes off the front of a queue: what stays is what has none of their ids.
  lemma FrontGone(q: seq<Limit>, removed: nat)
    requires DistinctNodes(q) && removed <= |q|
    ensures forall n :: n in q[removed..] <==> n in q && n.order.orderId !in IdsOf(q[..removed])
  {
    forall n
      ensures n in q[removed..] <==> n in q && n.order.orderId !in IdsOf(q[..removed])
    {
      if n in q[removed..] {
        var i :| removed <= i < |q| && q[i] == n;
        assert forall j :: 0 <= j < removed ==> q[..removed][j].order.orderId != n.order.orderId;
      } else if n in q {
        var i :| 0 <= i < |q| && q[i] == n;
        assert i < removed ==> q[..removed][i] == n;
      }
    }
  }

  lemma IndexAfterMatch(entries: map<nat, Limit>, q1: seq<Limit>, q2: seq<Limit>, removed: nat)
    requires IndexAgrees(entries, q1, q2) && DistinctNodes(q1) && removed <= |q1|
    ensures IndexAgrees(entries - IdsOf(q1[..removed]), q1[removed..], q2)
  {
    hide DistinctNodes;
    FrontGone(q1, removed);
    forall n | n in q2
      ensures n.order.orderId !in IdsOf(q1[..removed])
    {
      assert forall m :: m in q1[..removed] ==> m in q1;
    }
  }

  lemma IndexAfterInsert(entries: map<nat, Limit>, q1: seq<Limit>, q2: seq<Limit>, k: nat, n: Limit)
    requires IndexAgrees(entries, q1, q2) && k <= |q1| && n.order.orderId !in entries
    ensures IndexAgrees(entries[n.order.orderId := n], With(q1, k, n), q2)
    ensures n !in q1 && n !in q2
  {
    assert q1 == q1[..k] + q1[k..];
    assert forall m :: m in With(q1, k, n) <==> m in q1 || m == n;
  }

  lemma InWithout(q: seq<Limit>, k: nat)
    requires DistinctNodes(q) && k < |q|
    ensures forall m :: m in Without(q, k) <==> m in q && m != q[k]
  {
    assert q == q[..k] + [q[k]] + q[k + 1..];
    forall m
      ensures m in Without(q, k) <==> m in q && m != q[k]
    {
      if m in q && m != q[k] {
        var i :| 0 <= i < |q| && q[i] == m;
        assert Without(q, k)[if i < k then i else i - 1] == m;
      }
    }
  }

  lemma IndexAfterRemove(entries: map<nat, Limit>, q1: seq<Limit>, q2: seq<Limit>, k: nat)
    requires IndexAgrees(entries, q1, q2) && DistinctNodes(q1) && k < |q1|
    ensures IndexAgrees(entries - {q1[k].order.orderId}, Without(q1, k), q2)
  {
    hide DistinctNodes;
    InWithout(q1, k);
    assert q1[k] in q1 && entries[q1[k].order.orderId] == q1[k];
  }

  // Where a new order at price `p` goes, and what is there already.
  lemma PlaceInLevel(side: SideBook, p: nat, k: nat)
    requires side.Linked() && IsPlace(side.isBid, side.queue, p, k)
    ensures HasPrice(side.queue, p) <==> k > 0 && side.queue[k - 1].order.price == p
    ensures HasPrice(side.queue, p) ==>
      && p in side.levels && side.levels[p].tail == side.queue[k - 1] && side.levels[p].head != null
  {
    if HasPrice(side.queue, p) {
      var i :| 0 <= i < |side.queue| && side.queue[i].order.price == p;
      assert i < k;
      assert !Better(side.isBid, side.queue[k - 1].order.price, side.queue[i].order.price) || i == k - 1;
      side.LinkedAt(k - 1);
      LevelHasHead(side, p, k - 1);
    }
  }

  lemma LevelHasHead(side: SideBook, p: nat, i: nat)
    requires side.Linked() && i < |side.queue| && side.queue[i].order.price == p
    ensures p in side.levels && side.levels[p].head != null
  {
    side.LinkedAt(i);
    if i > 0 && side.queue[i - 1].order.price == p {
      LevelHasHead(side, p, i - 1);
    }
  }

  // The place in the view is the place in the queue.
  lemma PlaceOfQueue(side: SideBook, p: nat)
    requires side.Linked()
    ensures IsPlace(side.isBid, side.queue, p, PlaceOf(side.isBid, side.View(), p))
  {
    var k := PlaceOf(side.isBid, side.View(), p);
    forall i | k <= i < |side.queue|
      ensures Better(side.isBid, p, side.queue[i].order.price)
    {
      assert i == k || !Better(side.isBid, side.queue[i].order.price, side.queue[k].order.price);
    }
    assert forall i :: 0 <= i < k ==> side.queue[i].order.price == side.View()[i].price;
  }

  // Finds the level at a price, or adds an empty one.
  method GetSideLevel(price: nat, sidebook: SideBook) returns (level: Level)
    requires sidebook.Valid()
    modifies sidebook`levels, sidebook`links, sidebook`repr
    ensures sidebook.Linked() && sidebook.OccupiedExcept({price})
    ensures sidebook.View() == old(sidebook.View())
    ensures price in sidebook.levels && level == sidebook.levels[price]
    ensures HasPrice(sidebook.queue, price) || (level.head == null && level.tail == null)
    ensures fresh(sidebook.repr - old(sidebook.repr)) && old(sidebook.repr) <= sidebook.repr
    ensures fresh(sidebook.links - old(sidebook.links)) && old(sidebook.links) <= sidebook.links
  {
    if price in sidebook.levels {
      assert HasPrice(sidebook.queue, price);
      return sidebook.levels[price];
    }
    level := new Level(price);
    sidebook.links, sidebook.repr := sidebook.links + {level}, sidebook.repr + {level};
    sidebook.levels := sidebook.levels[price := level];
    forall i | 0 <= i < |sidebook.queue|
      ensures sidebook.NodeLinked(i)
    {
      assert old(sidebook.NodeLinked(i));
    }
  }

  // Links a node at the end of its level.
  method LinkAtTail(limit: Limit, level: Level, side: SideBook, ghost k: nat)
    requires side.Linked() && IsPlace(side.isBid, side.queue, limit.order.price, k)
    requires limit !in side.repr && limit.order !in side.repr
    requires limit.nextLimit == null && limit.prevLimit == null && limit.order.isBuySide == side.isBid
    requires limit.order.price in side.levels && level == side.levels[limit.order.price]
    requires forall i :: 0 <= i < |side.queue| ==> side.queue[i].order.orderId != limit.order.orderId
    requires if k > 0 && side.queue[k - 1].order.price == limit.order.price
      then level.tail == side.queue[k - 1] && level.head != null
      else level.head == null && level.tail == null
    modifies limit, level, level.tail, side`queue, side`links, side`repr
    ensures side.Linked() && side.queue == With(old(side.queue), k, limit)
    ensures side.repr == old(side.repr) + {limit, limit.order} && side.links == old(side.links) + {limit}
  {
    side.LevelsDiffer();
    if level.head == null {
      level.head := limit;
      level.tail := limit;
    } else {
      var limitTemp := level.tail;
      level.tail := limit;
      limit.prevLimit := limitTemp;
      limitTemp.nextLimit := limit;
    }
    limit.currentLevel := level;
    side.queue := With(side.queue, k, limit);
    side.links, side.repr := side.links + {limit}, side.repr + {limit, limit.order};
    side.NodeInserted(k);
  }

  lemma OccupiedAfterInsert(side: SideBook, q0: seq<Limit>, k: nat, n: Limit)
    requires k <= |q0| && side.queue == With(q0, k, n)
    requires forall p :: p in side.levels && p != n.order.price ==> HasPrice(q0, p)
    ensures side.OccupiedExcept({})
  {
    forall p | p in side.levels
      ensures HasPrice(side.queue, p)
    {
      if p == n.order.price {
        assert side.queue[k].order.price == p;
      } else {
        var i :| 0 <= i < |q0| && q0[i].order.price == p;
        assert side.queue[if i < k then i else i + 1].order.price == p;
      }
    }
  }

  twostate lemma ViewInserted(side: SideBook, new k: nat)
    requires old(side.HoldsOrders()) && side.HoldsOrders()
    requires k <= |old(side.queue)| && |side.queue| == |old(side.queue)| + 1
    requires side.queue == With(old(side.queue), k, side.queue[k])
    requires forall o: Order | o in old(side.repr) :: o.currQty == old(o.currQty)
    requires k == PlaceOf(side.isBid, old(side.View()), side.queue[k].order.price)
    ensures side.View() == Insert(side.isBid, old(side.View()), side.queue[k].order.ToResting())
  {
    var v, w := old(side.View()), side.View();
    assert forall i :: 0 <= i < |v| ==> old(side.queue)[i].order in old(side.repr);
    forall i | 0 <= i < |w|
      ensures w[i] == (v[..k] + [side.queue[k].order.ToResting()] + v[k..])[i]
    {
    }
  }

  lemma LevelInRepr(side: SideBook, level: Level, k: nat)
    requires side.Linked() && level.price in side.levels && level == side.levels[level.price]
    requires k <= |side.queue|
    ensures level in side.repr && (k > 0 ==> side.queue[k - 1] in side.repr)
  {
    if k > 0 {
      side.LinkedAt(k - 1);
    }
  }

  // The flag of a level plays no part in how it is linked.
  method FlagSide(level: Level, isBuySide: bool, ghost side: SideBook)
    requires side.Linked()
    modifies level`isBuySide
    ensures level.isBuySide == isBuySide && side.Linked()
  {
    level.isBuySide := isBuySide;
    forall i | 0 <= i < |side.queue|
      ensures side.NodeLinked(i)
    {
      assert old(side.NodeLinked(i));
    }
  }

  // Links a copy of the order at the end of a level and indexes it.
  method LinkAndIndex(level: Level, order: Order, side: SideBook, index: LimitBook, ghost k: nat) returns (limit: Limit)
    requires side.Linked() && side.OccupiedExcept({order.price})
    requires order.price in side.levels && level == side.levels[order.price]
    requires HasPrice(side.queue, order.price) || (level.head == null && level.tail == null)
    requires order.isBuySide == side.isBid && k == PlaceOf(side.isBid, side.View(), order.price)
    requires index !in side.repr && order !in side.repr
    requires forall i :: 0 <= i < |side.queue| ==> side.queue[i].order.orderId != order.orderId
    modifies index, side, side.repr
    ensures side.Valid() && fresh(side.repr - old(side.repr)) && old(side.repr) <= side.repr
    ensures k <= |old(side.queue)| && side.queue == With(old(side.queue), k, limit) && limit.order.ToResting() == order.ToResting()
    ensures forall o: Order | o in old(side.repr) :: o.currQty == old(o.currQty)
    ensures index.entries == old(index.entries)[order.orderId := limit]
  {
    hide SideBook.NodeLinked, SideBook.View, ViewOf, SortedNodes, DistinctNodes, IsPlace, HasPrice, PlaceOf, With;
    PlaceOfQueue(side, order.price);
    PlaceInLevel(side, order.price, k);
    LevelInRepr(side, level, k);
    limit := new Limit(order);
    LinkAtTail(limit, level, side, k);
    index.entries := index.entries[order.orderId := limit];
    OccupiedAfterInsert(side, old(side.queue), k, limit);
  }

  /** Puts a copy of the order at the end of a level and into the index, unless its id is indexed already: then
      the exception of the source is the result `thrown`. */
  method PlaceLimitInBookLevel(level: Level, order: Order, side: SideBook, index: LimitBook)
    returns (thrown: bool, ghost k: nat)
    requires side.Linked() && side.OccupiedExcept({order.price})
    requires order.price in side.levels && level == side.levels[order.price]
    requires HasPrice(side.queue, order.price) || (level.head == null && level.tail == null)
    requires order.isBuySide == side.isBid
    requires index !in side.repr && order !in side.repr
    requires forall i :: 0 <= i < |side.queue| ==> side.queue[i].order.orderId in index.entries
    modifies index, side, side.repr
    ensures thrown <==> order.orderId in old(index.entries)
    ensures thrown ==> side.Linked() && side.View() == old(side.View()) && index.entries == old(index.entries)
    ensures !thrown ==>
      && side.Valid() && fresh(side.repr - old(side.repr)) && old(side.repr) <= side.repr
      && k <= |old(side.queue)| && |side.queue| == |old(side.queue)| + 1
      && side.queue == With(old(side.queue), k, side.queue[k]) && side.queue[k].order.orderId == order.orderId
      && index.entries == old(index.entries)[order.orderId := side.queue[k]]
      && side.View() == Insert(side.isBid, old(side.View()), order.ToResting())
  {
    hide SideBook.NodeLinked, SideBook.View, ViewOf, SortedNodes, DistinctNodes, HasPrice, PlaceOf, Insert;
    if order.orderId in index.entries {
      return true, 0;
    }
    k := PlaceOf(side.isBid, side.View(), order.price);
    var limit := LinkAndIndex(level, order, side, index, k);
    assert side.queue[k] == limit;
    ViewInserted(side, k);
    thrown := false;
  }

  // The level for an order, and then its place in it.
  method PlaceOnSide(order: Order, side: SideBook, index: LimitBook) returns (ghost k: nat)
    requires side.Valid() && order.isBuySide == side.isBid
    requires index !in side.repr && order !in side.repr
    requires order.orderId !in index.entries
    requires forall i :: 0 <= i < |side.queue| ==> side.queue[i].order.orderId in index.entries
    modifies index, side, side.repr
    ensures side.Valid() && fresh(side.repr - old(side.repr)) && old(side.repr) <= side.repr
    ensures k <= |old(side.queue)| && |side.queue| == |old(side.queue)| + 1
    ensures side.queue == With(old(side.queue), k, side.queue[k]) && side.queue[k].order.orderId == order.orderId
    ensures index.entries == old(index.entries)[order.orderId := side.queue[k]]
    ensures side.View() == Insert(side.isBid, old(side.View()), order.ToResting())
  {
    hide SideBook.NodeLinked, SideBook.View, SortedNodes, DistinctNodes, Insert, HasPrice;
    var level := GetSideLevel(order.price, side);
    FlagSide(level, order.isBuySide, side);
    var thrown;
    thrown, k := PlaceLimitInBookLevel(level, order, side, index);
    assert !thrown;
  }

  predicate IsTailOrder(lim: Limit)
    reads lim
  {
    lim.nextLimit == null && lim.prevLimit != null
  }

  predicate IsHeadOrder(lim: Limit)
    reads lim
  {
    lim.prevLimit == null && lim.nextLimit != null
  }

  predicate IsInMiddleOfLevel(lim: Limit)
    reads lim
  {
    lim.nextLimit != null && lim.prevLimit != null
  }

  // Where a node is unlinked, and what that says about the rest of its level.
  lemma NodeAt(side: SideBook, k: nat)
    requires side.Linked() && k < |side.queue|
    ensures var n := side.queue[k];
      && n.nextLimit == NextIn(side.queue, k) && n.prevLimit == PrevIn(side.queue, k)
      && n.order.price in side.levels && n.currentLevel == side.levels[n.order.price] && n.currentLevel in side.links
      && (n.nextLimit != null ==> n.nextLimit in side.links) && (n.prevLimit != null ==> n.prevLimit in side.links)
      && n.nextLimit != n && n.prevLimit != n && (n.nextLimit != null ==> n.nextLimit != n.prevLimit)
  {
    side.LinkedAt(k);
    if k > 0 {
      side.LinkedAt(k - 1);
    }
    if k + 1 < |side.queue| {
      side.LinkedAt(k + 1);
    }
  }

  lemma OccupiedAfterRemove(side: SideBook, q0: seq<Limit>, k: nat)
    requires k < |q0| && SortedNodes(side.isBid, q0) && side.queue == Without(q0, k)
    requires forall p :: p in side.levels ==> HasPrice(q0, p)
    requires NextIn(q0, k) == null && PrevIn(q0, k) == null ==> q0[k].order.price !in side.levels
    ensures side.OccupiedExcept({})
  {
    forall p | p in side.levels
      ensures HasPrice(side.queue, p)
    {
      var i :| 0 <= i < |q0| && q0[i].order.price == p;
      var j := if i != k then i else if NextIn(q0, k) != null then k + 1 else k - 1;
      assert side.queue[if j < k then j else j - 1].order.price == p;
    }
  }

  twostate lemma ViewRemoved(side: SideBook, new k: nat)
    requires old(side.HoldsOrders()) && side.HoldsOrders()
    requires k < |old(side.queue)| && side.queue == Without(old(side.queue), k)
    requires forall o: Order | o in old(side.repr) :: o.currQty == old(o.currQty)
    ensures side.View() == Without(old(side.View()), k)
  {
    var v, w := old(side.View()), side.View();
    assert forall i :: 0 <= i < |v| ==> old(side.queue)[i].order in old(side.repr);
    forall i | 0 <= i < |w|
      ensures w[i] == Without(v, k)[i]
    {
    }
  }

  // Takes a node out of its list; the last one takes the level with it.
  method Unlink(limit: Limit, side: SideBook, ghost k: nat)
    requires side.Linked() && k < |side.queue| && side.queue[k] == limit
    modifies side`queue, side`levels, limit.nextLimit, limit.prevLimit, limit.currentLevel
    ensures side.Linked() && side.queue == Without(old(side.queue), k)
    ensures side.levels == if old(limit.nextLimit == null && limit.prevLimit == null)
      then old(side.levels) - {limit.order.price} else old(side.levels)
  {
    NodeAt(side, k);
    side.LevelsDiffer();
    if IsInMiddleOfLevel(limit) {
      limit.nextLimit.prevLimit := limit.prevLimit;
      limit.prevLimit.nextLimit := limit.nextLimit;
    } else if IsHeadOrder(limit) {
      limit.currentLevel.head := limit.nextLimit;
      limit.nextLimit.prevLimit := null;
    } else if IsTailOrder(limit) {
      limit.currentLevel.tail := limit.prevLimit;
      limit.prevLimit.nextLimit := null;
    } else {
      side.levels := side.levels - {limit.order.price};
    }
    side.queue := Without(side.queue, k);
    side.NodeRemoved(k);
  }

  // The same, with the side whole again afterwards.
  method UnlinkLimit(limit: Limit, side: SideBook, ghost k: nat)
    requires side.Valid() && k < |side.queue| && side.queue[k] == limit
    modifies side.links
    ensures side.Valid() && side.HoldsOrders() && side.queue == Without(old(side.queue), k)
    ensures side.repr == old(side.repr) && side.links == old(side.links)
    ensures forall o: Order | o in old(side.repr) :: o.currQty == old(o.currQty)
  {
    hide SideBook.NodeLinked, Without;
    NodeAt(side, k);
    Unlink(limit, side, k);
    OccupiedAfterRemove(side, old(side.queue), k);
  }

  function RequestOf(o: Order): NewOrder
    reads o
  {
    NewOrder(o.orderId, o.userId, o.ticker, o.price, o.currQty, o.isBuySide)
  }

  // A position in a queue is found under its id in the view.
  lemma IndexOfNode(side: SideBook, n: Limit) returns (k: nat)
    requires side.Linked() && n in side.queue
    ensures k < |side.queue| && side.queue[k] == n && IndexOf(side.View(), n.order.orderId) == k
  {
    k :| 0 <= k < |side.queue| && side.queue[k] == n;
    var v := side.View();
    var j := IndexOf(v, n.order.orderId);
    assert v[k].id == n.order.orderId;
    assert HasId(v, n.order.orderId);
  }

  lemma NoSuchId(side: SideBook, id: nat)
    requires side.Linked() && forall n :: n in side.queue ==> n.order.orderId != id
    ensures IndexOf(side.View(), id) == |side.View()|
  {
    assert forall i :: 0 <= i < |side.queue| ==> side.queue[i] in side.queue;
  }

  lemma IndexCovers(entries: map<nat, Limit>, q1: seq<Limit>, q2: seq<Limit>)
    requires IndexAgrees(entries, q1, q2)
    ensures forall i :: 0 <= i < |q1| ==> q1[i].order.orderId in entries
    ensures forall i :: 0 <= i < |q2| ==> q2[i].order.orderId in entries
  {
    assert forall i :: 0 <= i < |q1| ==> q1[i] in q1;
    assert forall i :: 0 <= i < |q2| ==> q2[i] in q2;
  }

  lemma SideFacts(side: SideBook)
    requires side.Valid()
    ensures side in side.links && side.links <= side.repr && side.HoldsOrders() && DistinctNodes(side.queue)
  {
  }

  class OrderBook {
    const bids: SideBook
    const asks: SideBook
    const limitOrders: LimitBook

    ghost predicate Valid()
      reads bids, asks, limitOrders, bids.links, asks.links
    {
      && bids.isBid && !asks.isBid
      && bids.Valid() && asks.Valid()
      && bids.repr !! asks.repr
      && limitOrders !in bids.repr && limitOrders !in asks.repr
      && IndexAgrees(limitOrders.entries, bids.queue, asks.queue)
    }

    ghost function Repr(): set<object>
      reads bids`repr, asks`repr
    {
      bids.repr + asks.repr + {bids, asks, limitOrders}
    }

    ghost function View(): Book
      requires bids.HoldsOrders() && asks.HoldsOrders()
      reads bids, asks, bids.repr, asks.repr
    {
      Book(bids.View(), asks.View())
    }

    constructor ()
      ensures Valid() && fresh(Repr()) && View() == EMPTY
    {
      bids := new SideBook(true);
      asks := new SideBook(false);
      limitOrders := new LimitBook();
      new;
      assert bids.View() == [] && asks.View() == [];
    }

    // The two sides in the roles they play for an incoming order.
    ghost predicate Roles(matchBook: SideBook, addBook: SideBook) {
      (matchBook == asks && addBook == bids) || (matchBook == bids && addBook == asks)
    }

    static predicate PossibleMatches(book: SideBook, order: Order)
      reads book`levels
    {
      var begin := book.Begin();
      begin.Some? && !NoMatchingLevel(book.isBid, order.price, begin.value)
    }

    // One acknowledgement and one fill message per record, all of them under the ids of the incoming order.
    static method CommunicateMatchResults(result: MatchResult, order: Order) returns (acks: seq<FillAck>, events: seq<Event>)
      ensures events == FillEvents(AS_WRITTEN, order.orderId, result.fills)
      ensures |acks| == |events| == |result.fills|
      ensures forall i :: 0 <= i < |events| ==>
        events[i] == OrderFilled(order.orderId, result.fills[i].ticker, result.fills[i].qty)
      ensures forall i :: 0 <= i < |acks| ==>
        acks[i] == FillAck(order.orderId, order.ticker, order.userId, result.fills[i].qty, result.fills[i].full)
    {
      hide FillEvents;
      acks, events := [], [];
      for i := 0 to |result.fills|
        invariant |acks| == |events| == i
        invariant forall k :: 0 <= k < i ==>
          events[k] == OrderFilled(order.orderId, result.fills[k].ticker, result.fills[k].qty)
        invariant forall k :: 0 <= k < i ==>
          acks[k] == FillAck(order.orderId, order.ticker, order.userId, result.fills[k].qty, result.fills[k].full)
      {
        var fill := result.fills[i];
        acks := acks + [FillAck(order.orderId, order.ticker, order.userId, fill.qty, fill.full)];
        events := events + [OrderFilled(order.orderId, fill.ticker, fill.qty)];
      }
      FillMessages(AS_WRITTEN, order.orderId, result.fills);
      assert events == FillEvents(AS_WRITTEN, order.orderId, result.fills);
    }

    // Matches an incoming order and keeps the book in step.
    method MatchOn(order: Order, matchBook: SideBook, addBook: SideBook) returns (result: MatchResult)
      requires Valid() && Roles(matchBook, addBook)
      requires CountsRight(matchBook.isBid, matchBook.View(), order.price, order.currQty)
      requires order !in Repr()
      modifies order, matchBook, matchBook.repr, limitOrders
      ensures Valid() && matchBook.repr == old(matchBook.repr) && addBook.repr == old(addBook.repr)
      ensures limitOrders.entries.Keys <= old(limitOrders.entries.Keys)
      ensures var s := Sweep(matchBook.isBid, old(matchBook.View()), order.price, old(order.currQty));
        && matchBook.View() == s.rest && order.currQty == s.left
        && result.fills == FillLog(order.ticker, order.orderId, s.trades)
      ensures addBook.View() == old(addBook.View())
    {
      hide SideBook.Linked, SideBook.OccupiedExcept, SideBook.Valid, SideBook.View, IndexAgrees, CountsRight, Sweep,
        DistinctNodes, FillLog;
      SideFacts(matchBook);
      SideFacts(addBook);
      ghost var entries, q := limitOrders.entries, matchBook.queue;
      if matchBook == asks {
        IndexSwap(entries, addBook.queue, q);
      }
      ghost var removed;
      result, removed := FIFOMatch(order, matchBook, limitOrders);
      IndexAfterMatch(entries, q, addBook.queue, removed);
      if matchBook == asks {
        IndexSwap(limitOrders.entries, matchBook.queue, addBook.queue);
      }
    }

    // Puts what is left of an order on its own side.
    method PlaceOrderInBook(order: Order, book: SideBook, ghost other: SideBook)
      requires Valid() && Roles(other, book)
      requires order !in Repr() && order.isBuySide == book.isBid && order.orderId !in limitOrders.entries
      modifies book, book.repr, limitOrders
      ensures Valid() && fresh(book.repr - old(book.repr)) && other.repr == old(other.repr)
      ensures book.View() == Insert(book.isBid, old(book.View()), order.ToResting())
      ensures other.View() == old(other.View())
    {
      hide SideBook.Linked, SideBook.OccupiedExcept, SideBook.Valid, SideBook.View, IndexAgrees, SortedNodes, DistinctNodes,
        Insert, With, HasPrice;
      SideFacts(book);
      SideFacts(other);
      ghost var entries, q := limitOrders.entries, book.queue;
      IndexCovers(entries, bids.queue, asks.queue);
      if book == asks {
        IndexSwap(entries, other.queue, q);
      }
      ghost var k := PlaceOnSide(order, book, limitOrders);
      IndexAfterInsert(entries, q, other.queue, k, book.queue[k]);
      if book == asks {
        IndexSwap(limitOrders.entries, book.queue, other.queue);
      }
    }

    static lemma PossibleIsTrade(book: SideBook, order: Order)
      requires book.Valid()
      ensures var s := Sweep(book.isBid, book.View(), order.price, order.currQty);
        && (OrderBook.PossibleMatches(book, order) <==> s.trades != [])
        && (s.trades == [] ==> s == SweepResult(book.View(), order.currQty, []))
    {
      book.BeginIsFront();
    }

    // Matches, and places what is left; an order that met no match is placed as it is.
    method AddOrderOn(order: Order, matchBook: SideBook, addBook: SideBook) returns (events: seq<Event>)
      requires Valid() && Roles(matchBook, addBook)
      requires CountsRight(matchBook.isBid, matchBook.View(), order.price, order.currQty)
      requires order !in Repr() && order.orderId !in limitOrders.entries && order.isBuySide == addBook.isBid
      modifies order, matchBook, matchBook.repr, addBook, addBook.repr, limitOrders
      ensures Valid() && fresh(Repr() - old(Repr()))
      ensures var s := Sweep(matchBook.isBid, old(matchBook.View()), order.price, old(order.currQty));
        var rests := s.trades == [] || s.left > 0;
        var fills := FillEvents(AS_WRITTEN, order.orderId, FillLog(order.ticker, order.orderId, s.trades));
        && matchBook.View() == s.rest && order.currQty == s.left
        && addBook.View() == (if rests then Insert(addBook.isBid, old(addBook.View()), order.ToResting()) else old(addBook.View()))
        && events == fills + if rests then [OrderAdded(order.orderId, order.ticker, order.price, s.left, order.isBuySide)] else []
    {
      hide SideBook.Linked, SideBook.OccupiedExcept, SideBook.Valid, SideBook.View, IndexAgrees, Insert, Sweep, CountsRight,
        FillEvents, FillLog, OrderBook.PossibleMatches;
      SideFacts(matchBook);
      SideFacts(addBook);
      events := [];
      PossibleIsTrade(matchBook, order);
      if PossibleMatches(matchBook, order) {
        var result := MatchOn(order, matchBook, addBook);
        var _, filled := CommunicateMatchResults(result, order);
        events := filled;
        if order.currQty == 0 {
          return;
        }
      } else {
        NoFillEvents(order.orderId, order.ticker);
      }
      PlaceOrderInBook(order, addBook, matchBook);
      events := events + [OrderAdded(order.orderId, order.ticker, order.price, order.currQty, order.isBuySide)];
    }

    static lemma NoFillEvents(id: nat, ticker: nat)
      ensures FillEvents(AS_WRITTEN, id, FillLog(ticker, id, [])) == []
    {
    }

    /** Adds an order. The verdict, the events, the book and what is left of the order are those of `Add`. */
    method AddOrder(order: Order) returns (outcome: Outcome, events: seq<Event>)
      requires Valid() && order !in Repr() && CountsForAdd(View(), RequestOf(order))
      modifies order, Repr()
      ensures Valid() && fresh(Repr() - old(Repr()))
      ensures var e := Add(AS_WRITTEN, old(View()), old(RequestOf(order)));
        View() == e.book && outcome == e.outcome && events == e.events
      ensures outcome == if order.orderId in old(limitOrders.entries) then Rejected([OrderIdAlreadyPresent]) else Accepted
      ensures order.currQty == if outcome.Accepted? then SweepOf(old(View()), old(RequestOf(order))).left else old(order.currQty)
    {
      hide SideBook.Linked, SideBook.OccupiedExcept, SideBook.Valid, SideBook.View, IndexAgrees, Insert, Sweep, CountsRight, FillEvents,
        FillLog;
      IndexedIffHas(order.orderId);
      if order.orderId in limitOrders.entries {
        return Rejected([OrderIdAlreadyPresent]), [];
      }
      if order.isBuySide {
        events := AddOrderOn(order, asks, bids);
      } else {
        events := AddOrderOn(order, bids, asks);
      }
      outcome := Accepted;
    }

    // The index knows exactly the ids that are found in the view.
    lemma IndexedIffHas(id: nat)
      requires Valid()
      ensures id in limitOrders.entries <==> View().Has(id)
      ensures id in limitOrders.entries ==>
        IndexOf(bids.View(), id) < |bids.View()| || IndexOf(asks.View(), id) < |asks.View()|
      ensures id !in limitOrders.entries ==>
        IndexOf(bids.View(), id) == |bids.View()| && IndexOf(asks.View(), id) == |asks.View()|
    {
      if id in limitOrders.entries {
        var n := limitOrders.entries[id];
        if n in bids.queue {
          var k := IndexOfNode(bids, n);
        } else {
          var k := IndexOfNode(asks, n);
        }
      } else {
        NoSuchId(bids, id);
        NoSuchId(asks, id);
      }
    }

    // An indexed node is on its own side, at the position the view gives it.
    lemma FindNode(id: nat) returns (k: nat)
      requires Valid() && id in limitOrders.entries
      ensures var n := limitOrders.entries[id]; var side := if n.order.isBuySide then bids else asks;
        && n.order.orderId == id && k < |side.queue| && side.queue[k] == n && n in side.links && n.order in side.repr
        && n.order !in side.links
        && side.View()[k] == n.order.ToResting()
        && Locate(View(), id) == Some((n.order.isBuySide, k))
    {
      var n := limitOrders.entries[id];
      if n in bids.queue {
        k := IndexOfNode(bids, n);
        bids.LinkedAt(k);
      } else {
        k := IndexOfNode(asks, n);
        asks.LinkedAt(k);
        NoSuchId(bids, id);
      }
    }

    // Unlinks an indexed node and keeps the book in step.
    method RemoveLimit(limit: Limit, side: SideBook, ghost other: SideBook, ghost k: nat)
      requires Valid() && Roles(side, other)
      requires k < |side.queue| && side.queue[k] == limit
      modifies side, side.repr, limitOrders
      ensures Valid() && side.repr == old(side.repr) && other.repr == old(other.repr)
      ensures side.queue == Without(old(side.queue), k) && other.queue == old(other.queue)
      ensures side.View() == Without(old(side.View()), k) && other.View() == old(other.View())
    {
      hide SideBook.Linked, SideBook.OccupiedExcept, SideBook.Valid, SideBook.View, IndexAgrees, DistinctNodes, Without;
      SideFacts(side);
      SideFacts(other);
      ghost var entries, q := limitOrders.entries, side.queue;
      if side == asks {
        IndexSwap(entries, other.queue, q);
      }
      UnlinkLimit(limit, side, k);
      limitOrders.entries := limitOrders.entries - {limit.order.orderId};
      ViewRemoved(side, k);
      IndexAfterRemove(entries, q, other.queue, k);
      if side == asks {
        IndexSwap(limitOrders.entries, side.queue, other.queue);
      }
    }

    /** Cancels an order. The verdict, the events and the book are those of `Cancel`. */
    method CancelOrder(c: CancelRequest) returns (outcome: Outcome, events: seq<Event>)
      requires Valid()
      modifies Repr()
      ensures Valid() && Repr() == old(Repr())
      ensures var e := Cancel(old(View()), c);
        View() == e.book && outcome == e.outcome && events == e.events
      ensures outcome ==
        if c.id !in old(limitOrders.entries) then Rejected([OrderNotFound])
        else if old(limitOrders.entries)[c.id].order.userId != c.user then Rejected([WrongUserId])
        else Accepted
    {
      hide SideBook.Linked, SideBook.OccupiedExcept, SideBook.Valid, SideBook.View, IndexAgrees;
      IndexedIffHas(c.id);
      if c.id !in limitOrders.entries {
        return Rejected([OrderNotFound]), [];
      }
      var limit := limitOrders.entries[c.id];
      ghost var k := FindNode(c.id);
      if limit.order.userId != c.user {
        return Rejected([WrongUserId]), [];
      }
      if limit.order.isBuySide {
        RemoveLimit(limit, bids, asks, k);
      } else {
        RemoveLimit(limit, asks, bids, k);
      }
      return Accepted, [OrderCancelled(c.id)];
    }

    static predicate ModifyOrderTrivial(m: ModifyRequest, order: Order)
      reads order
    {
      m.price == order.price && m.qty == order.currQty
    }

    // The reasons for which a modification is refused, in the order in which they are sent.
    static method ProcessModifyErrors(m: ModifyRequest, order: Order) returns (reasons: seq<Rejection>)
      ensures reasons == ModifyErrors(order.isBuySide, order.ToResting(), m)
      ensures Answers(reasons, order.isBuySide != m.isBuy, order.userId != m.user, order.price == m.price && order.currQty == m.qty)
    {
      hide Answers;
      ErrorsAnswer(order.isBuySide, order.ToResting(), m);
      reasons := [];
      if order.isBuySide != m.isBuy {
        reasons := reasons + [ModifyWrongSide];
      }
      if order.userId != m.user {
        reasons := reasons + [WrongUserId];
      }
      if ModifyOrderTrivial(m, order) {
        reasons := reasons + [ModificationTrivial];
      }
    }

    // Changes the quantity of a resting order in place; nothing is relinked.
    method ChangeQty(limit: Limit, m: ModifyRequest, side: SideBook, ghost other: SideBook, ghost k: nat)
      requires Valid() && Roles(side, other)
      requires k < |side.queue| && side.queue[k] == limit && limit.order in side.repr && limit.order !in side.links
      modifies limit.order
      ensures Valid()
      ensures side.View() == old(side.View())[k := old(side.View())[k].(qty := NewQty(AS_WRITTEN, old(side.View())[k], m))]
      ensures other.View() == old(other.View())
    {
      hide SideBook.Linked, SideBook.OccupiedExcept, IndexAgrees;
      SideFacts(side);
      SideFacts(other);
      if limit.order.currQty < m.qty {
        limit.order.IncreaseQty((m.qty + limit.order.currQty) % TWO_32);
      } else {
        var thrown := limit.order.DecreaseQty(limit.order.currQty - m.qty);
        assert !thrown;
      }
      ViewChanged(side, k);
    }

    static twostate lemma ViewChanged(side: SideBook, new k: nat)
      requires old(side.Valid()) && old(side.HoldsOrders()) && side.HoldsOrders()
      requires side.queue == old(side.queue) && k < |side.queue|
      requires forall o: Order | o in old(side.repr) && o != side.queue[k].order :: o.currQty == old(o.currQty)
      ensures side.View() == old(side.View())[k := side.queue[k].order.ToResting()]
    {
      forall i | 0 <= i < |side.queue| && i != k
        ensures side.View()[i] == old(side.View())[i]
      {
        assert side.queue[i].order.orderId != side.queue[k].order.orderId;
        assert side.queue[i].order in old(side.repr);
      }
    }

    // A change of price: cancel, then add a new order with the same id.
    method Reprice(m: ModifyRequest) returns (events: seq<Event>)
      requires Valid()
      requires CountsForAdd(Cancel(View(), CancelRequest(m.id, m.user, m.ticker)).book,
                            NewOrder(m.id, m.user, m.ticker, m.price, m.qty, m.isBuy))
      modifies Repr()
      ensures Valid() && fresh(Repr() - old(Repr()))
      ensures var c := Cancel(old(View()), CancelRequest(m.id, m.user, m.ticker));
        var a := Add(AS_WRITTEN, c.book, NewOrder(m.id, m.user, m.ticker, m.price, m.qty, m.isBuy));
        View() == a.book && events == c.events + a.events
    {
      hide SideBook.Linked, SideBook.OccupiedExcept, SideBook.Valid, SideBook.View, IndexAgrees, Add, Cancel, CountsForAdd;
      var _, cancelled := CancelOrder(CancelRequest(m.id, m.user, m.ticker));
      var newOrder := new Order(NewOrder(m.id, m.user, m.ticker, m.price, m.qty, m.isBuy));
      var _, added := AddOrder(newOrder);
      events := cancelled + added;
    }

    /** Modifies an order. The verdict, the events and the book are those of `Modify`, with the raise
        and the fill stamps as the code has them. */
    method ModifyOrder(m: ModifyRequest) returns (outcome: Outcome, events: seq<Event>)
      requires Valid() && CountsForModify(View(), m)
      modifies Repr()
      ensures Valid() && fresh(Repr() - old(Repr()))
      ensures var e := Modify(AS_WRITTEN, old(View()), m);
        View() == e.book && outcome == e.outcome && events == e.events
      ensures m.id !in old(limitOrders.entries) ==> outcome == Rejected([OrderNotFound])
      ensures m.id in old(limitOrders.entries) ==>
        var o := old(limitOrders.entries)[m.id].order;
        && Answers(ReasonsOf(outcome), o.isBuySide != m.isBuy, o.userId != m.user, o.price == m.price && old(o.currQty) == m.qty)
        && (outcome.Accepted? <==> ReasonsOf(outcome) == [])
    {
      hide SideBook.Linked, SideBook.OccupiedExcept, SideBook.Valid, SideBook.View, IndexAgrees, NewQty, Add, Cancel, ModifyErrors,
        CountsForAdd, IndexOf;
      IndexedIffHas(m.id);
      if m.id !in limitOrders.entries {
        return Rejected([OrderNotFound]), [];
      }
      var limit := limitOrders.entries[m.id];
      ghost var k := FindNode(m.id);
      var errors := ProcessModifyErrors(m, limit.order);
      if errors != [] {
        return Rejected(errors), [];
      }
      if m.price == limit.order.price {
        if limit.order.isBuySide {
          ChangeQty(limit, m, bids, asks, k);
        } else {
          ChangeQty(limit, m, asks, bids, k);
        }
        return Accepted, [OrderModified(m.id, m.qty)];
      }
      events := Reprice(m);
      outcome := Accepted;
    }
  }
}
