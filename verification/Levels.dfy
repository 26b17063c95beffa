/** Price levels as intrusive doubly linked queues, the sorted map that holds them, and the id index. */
module Levels {
  import opened Orders
  import opened Matching
  import opened LevelCounts
  import opened Sequences

  class Limit {
    const order: Order
    var nextLimit: Limit?
    var prevLimit: Limit?
    var currentLevel: Level?

    // The order is held by value: the node gets its own copy.
    constructor (o: Order)
      ensures fresh(order) && order.currQty == o.currQty && order.initQty == o.initQty
      ensures order.orderId == o.orderId && order.userId == o.userId && order.ticker == o.ticker
      ensures order.price == o.price && order.isBuySide == o.isBuySide
      ensures nextLimit == null && prevLimit == null && currentLevel == null
    {
      order := new Order.Copy(o);
      nextLimit, prevLimit, currentLevel := null, null, null;
    }
  }

  /** What a queue of nodes amounts to once the links are forgotten. */
  ghost function ViewOf(q: seq<Limit>): (v: seq<Resting>)
    reads set n | n in q :: n.order
    ensures |v| == |q|
    ensures forall i :: 0 <= i < |q| ==> v[i] == q[i].order.ToResting()
  {
    seq(|q|, i requires 0 <= i < |q| reads set n | n in q :: n.order => q[i].order.ToResting())
  }

  ghost function IdsOf(q: seq<Limit>): set<nat> {
    set n | n in q :: n.order.orderId
  }

  /** The nodes reached from `head` along `nextLimit` are exactly those of `chain`, in order. */
  ghost predicate IsChain(head: Limit?, chain: seq<Limit>)
    reads chain
  {
    if chain == [] then head == null
    else
      && head == chain[0]
      && chain[|chain| - 1].nextLimit == null
      && forall i {:trigger chain[i].nextLimit} :: 0 <= i < |chain| - 1 ==> chain[i].nextLimit == chain[i + 1]
  }

  function TotalQty(q: seq<Resting>): nat {
    if q == [] then 0 else TotalQty(q[..|q| - 1]) + q[|q| - 1].qty
  }

  class Level {
    var head: Limit?
    var tail: Limit?
    var isBuySide: bool
    const price: nat

    constructor (price: nat)
      ensures this.price == price && head == null && tail == null && !isBuySide
    {
      this.price := price;
      head, tail, isBuySide := null, null, false;
    }

    // Counts the orders with a non-zero quantity, in 16 bits.
    method GetLevelOrderCount(ghost chain: seq<Limit>) returns (cnt: uint16)
      requires IsChain(head, chain)
      ensures cnt == CountNonZero(ViewOf(chain)) % TWO_16
    {
      cnt := 0;
      var ptr := head;
      ghost var k := 0;
      while ptr != null
        invariant 0 <= k <= |chain|
        invariant ptr == if k < |chain| then chain[k] else null
        invariant cnt == CountNonZero(ViewOf(chain)[..k]) % TWO_16
        decreases |chain| - k
      {
        assert ViewOf(chain)[..k + 1][..k] == ViewOf(chain)[..k];
        if ptr.order.currQty != 0 {
          cnt := (cnt + 1) % TWO_16;
        }
        ptr := ptr.nextLimit;
        k := k + 1;
      }
      assert ViewOf(chain)[..k] == ViewOf(chain);
    }

    // Adds the quantities up in 32 bits.
    method GetLevelOrderQuantity(ghost chain: seq<Limit>) returns (orderQty: uint32)
      requires IsChain(head, chain)
      ensures orderQty == TotalQty(ViewOf(chain)) % TWO_32
    {
      orderQty := 0;
      var ptr := head;
      ghost var k := 0;
      while ptr != null
        invariant 0 <= k <= |chain|
        invariant ptr == if k < |chain| then chain[k] else null
        invariant orderQty == TotalQty(ViewOf(chain)[..k]) % TWO_32
        decreases |chain| - k
      {
        assert ViewOf(chain)[..k + 1][..k] == ViewOf(chain)[..k];
        orderQty := (orderQty + ptr.order.currQty) % TWO_32;
        ptr := ptr.nextLimit;
        k := k + 1;
      }
      assert ViewOf(chain)[..k] == ViewOf(chain);
    }
  }

  /** The hash map from order id to node. */
  class LimitBook {
    var entries: map<nat, Limit>

    constructor ()
      ensures entries == map[]
    {
      entries := map[];
    }
  }

  ghost function NextIn(q: seq<Limit>, i: nat): Limit?
    requires i < |q|
  {
    if i + 1 < |q| && q[i + 1].order.price == q[i].order.price then q[i + 1] else null
  }

  ghost function PrevIn(q: seq<Limit>, i: nat): Limit?
    requires i < |q|
  {
    if 0 < i && q[i - 1].order.price == q[i].order.price then q[i - 1] else null
  }

  ghost predicate SortedNodes(isBid: bool, q: seq<Limit>) {
    forall i, j :: 0 <= i < j < |q| ==> !Better(isBid, q[j].order.price, q[i].order.price)
  }

  ghost predicate DistinctNodes(q: seq<Limit>) {
    forall i, j :: 0 <= i < j < |q| ==> q[i].order.orderId != q[j].order.orderId
  }

  /** How many nodes at the front of the queue have price `p`. */
  ghost function FrontLen(q: seq<Limit>, p: nat): (k: nat)
    ensures k <= |q|
    ensures forall i :: 0 <= i < k ==> q[i].order.price == p
    ensures k < |q| ==> q[k].order.price != p
  {
    if q == [] || q[0].order.price != p then 0 else 1 + FrontLen(q[1..], p)
  }

  ghost predicate HasPrice(q: seq<Limit>, p: nat) {
    exists i :: 0 <= i < |q| && q[i].order.price == p
  }

  predicate IsBest(isBid: bool, b: nat, keys: set<nat>) {
    b in keys && forall k :: k in keys ==> k == b || Better(isBid, b, k)
  }

  lemma BestExists(isBid: bool, keys: set<nat>)
    requires keys != {}
    ensures exists b :: IsBest(isBid, b, keys)
  {
    var x :| x in keys;
    if keys == {x} {
      assert IsBest(isBid, x, keys);
    } else {
      BestExists(isBid, keys - {x});
      var c :| IsBest(isBid, c, keys - {x});
      assert forall k :: k in keys ==> k == x || k in keys - {x};
      assert IsBest(isBid, if Better(isBid, x, c) then x else c, keys);
    }
  }

  /** The first key in the iteration order of one side. */
  function Best(isBid: bool, keys: set<nat>): (b: nat)
    requires keys != {}
    ensures IsBest(isBid, b, keys)
  {
    BestExists(isBid, keys);
    var b :| IsBest(isBid, b, keys);
    b
  }

  // The neighbours of what used to be at position `j` once position `k` is taken out.
  lemma NeighboursWithout(isBid: bool, q: seq<Limit>, k: nat, j: nat)
    requires SortedNodes(isBid, q) && k < |q| && j < |q| && j != k
    ensures var i := if j < k then j else j - 1;
      && Without(q, k)[i] == q[j]
      && NextIn(Without(q, k), i) == (if j + 1 == k && PrevIn(q, k) == q[j] then NextIn(q, k) else NextIn(q, j))
      && PrevIn(Without(q, k), i) == (if j == k + 1 && NextIn(q, k) == q[j] then PrevIn(q, k) else PrevIn(q, j))
  {
    if 0 < k < |q| - 1 {
      assert !Better(isBid, q[k + 1].order.price, q[k].order.price);
      assert !Better(isBid, q[k].order.price, q[k - 1].order.price);
    }
  }

  // Within one price the first node has no predecessor and the last one no successor.
  lemma SamePriceBetween(isBid: bool, q: seq<Limit>, i: nat, j: nat)
    requires SortedNodes(isBid, q) && i < j < |q| && q[i].order.price == q[j].order.price
    ensures NextIn(q, i) != null && PrevIn(q, j) != null
  {
    assert i + 1 == j || !Better(isBid, q[j].order.price, q[i + 1].order.price);
    assert i == j - 1 || !Better(isBid, q[j - 1].order.price, q[i].order.price);
    assert !Better(isBid, q[i + 1].order.price, q[i].order.price);
    assert !Better(isBid, q[j].order.price, q[j - 1].order.price);
  }

  // The place of a new order: behind every order whose price is not worse.
  ghost predicate IsPlace(isBid: bool, q: seq<Limit>, p: nat, k: nat) {
    && k <= |q|
    && (forall i :: 0 <= i < k ==> !Better(isBid, p, q[i].order.price))
    && (forall i :: k <= i < |q| ==> Better(isBid, p, q[i].order.price))
  }

  // The neighbours of what is at position `j` once `n` stands at position `k`.
  lemma NeighboursWith(isBid: bool, q: seq<Limit>, k: nat, n: Limit, j: nat)
    requires IsPlace(isBid, q, n.order.price, k) && j < |q|
    ensures var i := if j < k then j else j + 1; var r := With(q, k, n);
      && r[i] == q[j] && r[k] == n
      && NextIn(r, k) == null
      && PrevIn(r, k) == (if k > 0 && q[k - 1].order.price == n.order.price then q[k - 1] else null)
      && NextIn(r, i) == (if j + 1 == k && PrevIn(r, k) == q[j] then n else NextIn(q, j))
      && PrevIn(r, i) == PrevIn(q, j)
  {
  }

  lemma PlaceKeepsSorted(isBid: bool, q: seq<Limit>, k: nat, n: Limit)
    requires SortedNodes(isBid, q) && IsPlace(isBid, q, n.order.price, k)
    ensures SortedNodes(isBid, With(q, k, n))
  {
  }

  /** One side of a book: the map from price to level, iterated best price first.
      `queue` lists the nodes of all levels, best price first and oldest first. */
  class SideBook {
    const isBid: bool
    var levels: map<nat, Level>
    ghost var queue: seq<Limit>
    ghost var links: set<object>  // the side itself, its levels and its nodes
    ghost var repr: set<object>  // all of these and the orders the nodes hold

    // The node at position `i` is linked to its neighbours of the same price and to its level.
    ghost predicate NodeLinked(i: nat)
      requires i < |queue|
      reads this, links
    {
      var n := queue[i];
      && n in links
      && n.order.isBuySide == isBid
      && n.order.price in levels
      && levels[n.order.price] in links
      && n.currentLevel == levels[n.order.price]
      && n.nextLimit == NextIn(queue, i)
      && n.prevLimit == PrevIn(queue, i)
      && (PrevIn(queue, i) == null ==> levels[n.order.price].head == n)
      && (NextIn(queue, i) == null ==> levels[n.order.price].tail == n)
    }

    // Every list is well formed and its nodes point back to their level; a level may be empty.
    ghost predicate Linked()
      reads this, links
    {
      && this in links && links <= repr
      && (forall p :: p in levels ==> levels[p] in links && levels[p].price == p)
      && HoldsOrders()
      && SortedNodes(isBid, queue)
      && DistinctNodes(queue)
      && (forall i :: 0 <= i < |queue| ==> NodeLinked(i))
    }

    lemma LinkedAt(i: nat)
      requires Linked() && i < |queue|
      ensures NodeLinked(i)
    {
    }

    lemma LevelsDiffer()
      requires Linked()
      ensures forall p, r :: p in levels && r in levels && p != r ==> levels[p] != levels[r]
    {
    }

    ghost predicate OccupiedExcept(hollow: set<nat>)
      reads this`levels, this`queue
    {
      forall p :: p in levels && p !in hollow ==> HasPrice(queue, p)
    }

    ghost predicate Valid()
      reads this, links
    {
      Linked() && OccupiedExcept({})
    }

    ghost predicate HoldsOrders()
      reads this`queue, this`links, this`repr
    {
      forall i :: 0 <= i < |queue| ==> queue[i].order in repr && queue[i].order !in links
    }

    ghost function View(): (v: seq<Resting>)
      requires HoldsOrders()
      reads this`queue, this`links, this`repr, repr - links
      ensures |v| == |queue| && forall i :: 0 <= i < |queue| ==> v[i] == queue[i].order.ToResting()
    {
      ViewOf(queue)
    }

    constructor (isBid: bool)
      ensures Valid() && fresh(repr) && this.isBid == isBid && levels == map[] && queue == []
    {
      this.isBid := isBid;
      levels, queue := map[], [];
      repr, links := {this}, {this};
    }

    function Begin(): (b: Option<nat>)
      reads this`levels
    {
      if levels == map[] then None else Some(Best(isBid, levels.Keys))
    }

    // The key after `p` in iteration order.
    function Next(p: nat): (b: Option<nat>)
      reads this`levels
    {
      var worse := set k | k in levels && Better(isBid, p, k);
      if worse == {} then None else Some(Best(isBid, worse))
    }

    // The best level is the one at the front of the queue.
    lemma BeginIsFront()
      requires Valid()
      ensures Begin() == if queue == [] then None else Some(queue[0].order.price)
    {
      if queue != [] {
        assert NodeLinked(0);
        assert queue[0].order.price in levels.Keys;
        assert HasPrice(queue, Best(isBid, levels.Keys));
      } else {
        assert forall p :: p in levels ==> HasPrice(queue, p);
      }
    }

    // The nodes at the front with the best price form the list of their level.
    lemma FrontIsChain(p: nat)
      requires Linked() && p in levels
      requires queue == [] || queue[0].order.price != p ==> levels[p].head == null
      ensures IsChain(levels[p].head, queue[..FrontLen(queue, p)])
    {
      var k := FrontLen(queue, p);
      forall i | 0 <= i < k
        ensures queue[i].nextLimit == if i + 1 < k then queue[i + 1] else null
      {
        assert NodeLinked(i);
      }
      if k > 0 {
        assert NodeLinked(0);
      }
    }

    // Erases a level without nodes.
    method Erase(p: nat)
      requires Linked() && !HasPrice(queue, p)
      modifies this`levels
      ensures Linked() && levels == old(levels) - {p}
      ensures old(OccupiedExcept({p})) ==> OccupiedExcept({})
    {
      levels := levels - {p};
      forall i | 0 <= i < |queue|
        ensures NodeLinked(i)
      {
        assert old(NodeLinked(i));
      }
    }

    // Unlinking the node at position `k` keeps the side linked, whether its level is erased or not.
    twostate lemma NodeRemoved(k: nat)
      requires old(Linked()) && repr == old(repr) && links == old(links)
      requires k < |old(queue)| && queue == Without(old(queue), k)
      requires var q := old(queue); var n := q[k]; var level := old(n.currentLevel); var p := n.order.price;
        && level != null
        && (levels == old(levels) || (levels == old(levels) - {p} && NextIn(q, k) == null && PrevIn(q, k) == null))
        && (forall m: Limit | m in queue ::
             && m.currentLevel == old(m.currentLevel)
             && m.nextLimit == (if PrevIn(q, k) == m then NextIn(q, k) else old(m.nextLimit))
             && m.prevLimit == (if NextIn(q, k) == m then PrevIn(q, k) else old(m.prevLimit)))
        && (PrevIn(q, k) == null ==> NextIn(q, k) != null ==> level.head == NextIn(q, k))
        && (NextIn(q, k) == null ==> PrevIn(q, k) != null ==> level.tail == PrevIn(q, k))
        && (PrevIn(q, k) != null ==> level.head == old(level.head))
        && (NextIn(q, k) != null ==> level.tail == old(level.tail))
        && (forall r | r in levels && r != p ::
             levels[r].head == old(levels[r].head) && levels[r].tail == old(levels[r].tail))
      ensures Linked()
    {
      var q := old(queue);
      assert old(NodeLinked(k));
      forall i | 0 <= i < |queue|
        ensures NodeLinked(i)
      {
        var j := if i < k then i else i + 1;
        assert old(NodeLinked(j));
        NeighboursWithout(isBid, q, k, j);
        if q[j].order.price == q[k].order.price {
          SamePriceBetween(isBid, q, if j < k then j else k, if j < k then k else j);
        }
      }
    }

    // The first node of the best level can go while its level stays.
    twostate lemma FrontRemoved()
      requires old(Linked()) && repr == old(repr) && links == old(links) && levels == old(levels)
      requires old(queue) != [] && queue == old(queue)[1..]
      requires var n := old(queue)[0]; var level := old(n.currentLevel);
        && level != null
        && level.head == NextIn(old(queue), 0) && level.tail == old(level.tail)
        && forall p | p in levels && levels[p] != level ::
            levels[p].head == old(levels[p].head) && levels[p].tail == old(levels[p].tail)
      requires forall n: Limit | n in queue :: n.nextLimit == old(n.nextLimit) && n.currentLevel == old(n.currentLevel)
      requires forall n: Limit | n in queue ::
        n.prevLimit == if n == NextIn(old(queue), 0) then null else old(n.prevLimit)
      ensures Linked()
    {
      assert old(NodeLinked(0));
      assert queue == Without(old(queue), 0);
      NodeRemoved(0);
    }

    // Linking a new node at the end of its level keeps the side linked.
    twostate lemma NodeInserted(k: nat)
      requires old(Linked()) && k <= |old(queue)| && |queue| == |old(queue)| + 1
      requires var q := old(queue); var n := queue[k]; var p := n.order.price;
        && queue == With(q, k, n)
        && IsPlace(isBid, q, p, k)
        && n.order.isBuySide == isBid
        && (forall i :: 0 <= i < |q| ==> q[i].order.orderId != n.order.orderId)
        && n !in q
        && n.order !in links
        && repr == old(repr) + {n, n.order} && links == old(links) + {n}
        && levels == old(levels) && p in levels
        && (forall m: Limit | m in q ::
             && m.currentLevel == old(m.currentLevel) && m.prevLimit == old(m.prevLimit)
             && m.nextLimit == (if m == PrevIn(queue, k) then n else old(m.nextLimit)))
        && n.nextLimit == null && n.prevLimit == PrevIn(queue, k) && n.currentLevel == levels[p]
        && levels[p].tail == n
        && levels[p].head == (if PrevIn(queue, k) == null then n else old(levels[p].head))
        && (forall r | r in levels && r != p ::
             levels[r].head == old(levels[r].head) && levels[r].tail == old(levels[r].tail))
      ensures Linked()
    {
      var q := old(queue);
      var n := queue[k];
      PlaceKeepsSorted(isBid, q, k, n);
      forall i | 0 <= i < |queue|
        ensures NodeLinked(i)
      {
        if i == k {
          if q != [] {
            NeighboursWith(isBid, q, k, n, 0);
          }
        } else {
          var j := if i < k then i else i - 1;
          assert old(NodeLinked(j));
          NeighboursWith(isBid, q, k, n, j);
          if q[j].order.price == n.order.price {
            SamePriceBetween(isBid, queue, i, k);
          }
        }
      }
    }
  }
}
