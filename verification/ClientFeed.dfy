/** What a client makes of the market data: its open orders and the depth at every price. */
module ClientFeed {
  import opened Orders

  datatype OpenOrder = OpenOrder(ticker: nat, isBuy: bool, price: nat, qty: int)

  datatype Key = Key(ticker: nat, isBuy: bool, price: nat)

  /** The order table and, per ticker, side and price, the aggregated quantity. */
  datatype Client = Client(orders: map<nat, OpenOrder>, depth: map<Key, int>)

  const NOTHING := Client(map[], map[])

  /** Quantities are unsigned on the wire and signed in the client. */
  function ToInt32(x: uint32): int {
    if x < TWO_31 then x else x - TWO_32
  }

  function KeyOf(o: OpenOrder): Key {
    Key(o.ticker, o.isBuy, o.price)
  }

  /** The depth at a key; nothing is zero. */
  function DepthAt(c: Client, k: Key): int {
    if k in c.depth then c.depth[k] else 0
  }

  function AddToBook<K(==)>(depth: map<K, int>, k: K, shares: int): map<K, int> {
    depth[k := (if k in depth then depth[k] else 0) + shares]
  }

  // A price without shares left is erased; an unknown price is ignored.
  function RemoveFromBook<K(==)>(depth: map<K, int>, k: K, shares: int): map<K, int> {
    if k !in depth then depth
    else if depth[k] - shares <= 0 then depth - {k}
    else depth[k := depth[k] - shares]
  }

  // An id that is already open keeps its old entry.
  function OnAdd(c: Client, id: nat, o: OpenOrder): Client {
    Client(if id in c.orders then c.orders else c.orders[id := o], AddToBook(c.depth, KeyOf(o), o.qty))
  }

  function OnCancel(c: Client, id: nat): Client {
    if id !in c.orders then c
    else Client(c.orders - {id}, RemoveFromBook(c.depth, KeyOf(c.orders[id]), c.orders[id].qty))
  }

  function OnModify(c: Client, id: nat, qty: int): Client {
    if id !in c.orders then c
    else
      var o := c.orders[id];
      Client(c.orders[id := o.(qty := qty)],
             if qty > o.qty then AddToBook(c.depth, KeyOf(o), qty - o.qty)
             else RemoveFromBook(c.depth, KeyOf(o), o.qty - qty))
  }

  function OnFill(c: Client, id: nat, qty: int): Client {
    if id !in c.orders then c
    else
      var o := c.orders[id];
      Client(if o.qty - qty <= 0 then c.orders - {id} else c.orders[id := o.(qty := o.qty - qty)],
             RemoveFromBook(c.depth, KeyOf(o), qty))
  }

  function OnEvent(c: Client, e: Event): Client {
    match e
    case OrderAdded(id, ticker, price, qty, isBuy) => OnAdd(c, id, OpenOrder(ticker, isBuy, price, ToInt32(qty)))
    case OrderModified(id, qty) => OnModify(c, id, ToInt32(qty))
    case OrderCancelled(id) => OnCancel(c, id)
    case OrderFilled(id, _, qty) => OnFill(c, id, qty)
  }

  function Feed(c: Client, events: seq<Event>): Client
    decreases |events|
  {
    if events == [] then c else Feed(OnEvent(c, events[0]), events[1..])
  }

  lemma {:induction false} FeedAppend(c: Client, e: seq<Event>, f: seq<Event>)
    ensures Feed(c, e + f) == Feed(Feed(c, e), f)
    decreases |e|
  {
    if e == [] {
      assert e + f == f;
    } else {
      assert (e + f)[1..] == e[1..] + f;
      FeedAppend(OnEvent(c, e[0]), e[1..], f);
    }
  }

  // ---- the client's two tables agree ----

  function ShareOf(o: OpenOrder, k: Key): int {
    if KeyOf(o) == k then o.qty else 0
  }

  /** The sum of the open quantities at a key. */
  ghost function OpenQty(orders: map<nat, OpenOrder>, k: Key): int
    decreases |orders|
  {
    if orders == map[] then 0
    else
      var id :| id in orders;
      ShareOf(orders[id], k) + OpenQty(orders - {id}, k)
  }

  // The sum does not depend on the order in which the table is visited.
  lemma {:induction false} OpenQtyWithout(orders: map<nat, OpenOrder>, id: nat, k: Key)
    requires id in orders
    ensures OpenQty(orders, k) == ShareOf(orders[id], k) + OpenQty(orders - {id}, k)
    decreases |orders|
  {
    // the order visited first
    var first :| first in orders && OpenQty(orders, k) == ShareOf(orders[first], k) + OpenQty(orders - {first}, k);
    if first != id {
      OpenQtyWithout(orders - {first}, id, k);
      OpenQtyWithout(orders - {id}, first, k);
      assert orders - {first} - {id} == orders - {id} - {first};
    }
  }

  lemma OpenQtyWith(orders: map<nat, OpenOrder>, id: nat, o: OpenOrder, k: Key)
    ensures OpenQty(orders[id := o], k)
         == OpenQty(orders, k) + ShareOf(o, k) - if id in orders then ShareOf(orders[id], k) else 0
  {
    var with := orders[id := o];
    OpenQtyWithout(with, id, k);
    assert with - {id} == orders - {id};
    if id in orders {
      OpenQtyWithout(orders, id, k);
    } else {
      assert orders - {id} == orders;
    }
  }

  /** Every open order has a positive quantity, every stored depth is the sum of the open quantities at its
      key, and a key is stored exactly when that sum is positive. */
  ghost predicate IndexAgrees(c: Client) {
    && (forall id :: id in c.orders ==> c.orders[id].qty > 0)
    && (forall k: Key :: DepthAt(c, k) == OpenQty(c.orders, k))
    && (forall k: Key :: k in c.depth <==> OpenQty(c.orders, k) > 0)
  }

  /** Fresh ids on add, positive quantities, and fills not above the open quantity. */
  predicate ValidEvent(c: Client, e: Event) {
    match e
    case OrderAdded(id, _, _, qty, _) => id !in c.orders && ToInt32(qty) > 0
    case OrderModified(id, qty) => id in c.orders ==> ToInt32(qty) > 0
    case OrderCancelled(_) => true
    case OrderFilled(id, _, qty) => id in c.orders ==> qty <= c.orders[id].qty
  }

  predicate ValidFeed(c: Client, events: seq<Event>)
    decreases |events|
  {
    events == [] || (ValidEvent(c, events[0]) && ValidFeed(OnEvent(c, events[0]), events[1..]))
  }

  lemma {:induction false} OpenQtyNotBelow(orders: map<nat, OpenOrder>, k: Key)
    requires forall id :: id in orders ==> orders[id].qty > 0
    ensures OpenQty(orders, k) >= 0
    decreases |orders|
  {
    if orders != map[] {
      var id :| id in orders;
      OpenQtyWithout(orders, id, k);
      OpenQtyNotBelow(orders - {id}, k);
    }
  }

  // What remains of the sum at a key once an order has lost some of its quantity.
  lemma ShrinkAgrees(c: Client, id: nat, left: int, d: Client)
    requires IndexAgrees(c) && id in c.orders && 0 <= left <= c.orders[id].qty
    requires d.orders == if left == 0 then c.orders - {id} else c.orders[id := c.orders[id].(qty := left)]
    requires d.depth == RemoveFromBook(c.depth, KeyOf(c.orders[id]), c.orders[id].qty - left)
    ensures IndexAgrees(d)
  {
    var o := c.orders[id];
    forall k: Key
      ensures DepthAt(d, k) == OpenQty(d.orders, k) && (k in d.depth <==> OpenQty(d.orders, k) > 0)
    {
      OpenQtyWithout(c.orders, id, k);
      OpenQtyWith(c.orders, id, o.(qty := left), k);
      OpenQtyNotBelow(d.orders, k);
      OpenQtyNotBelow(c.orders - {id}, k);
      assert k in c.depth <==> OpenQty(c.orders, k) > 0;
      assert DepthAt(c, k) == OpenQty(c.orders, k);
    }
  }

  lemma GrowAgrees(c: Client, id: nat, o: OpenOrder, was: int, d: Client)
    requires IndexAgrees(c) && o.qty > 0 && was <= o.qty
    requires if id in c.orders then c.orders[id] == o.(qty := was) else was == 0
    requires d == Client(c.orders[id := o], AddToBook(c.depth, KeyOf(o), o.qty - was)) && was < o.qty
    ensures IndexAgrees(d)
  {
    forall k: Key
      ensures DepthAt(d, k) == OpenQty(d.orders, k) && (k in d.depth <==> OpenQty(d.orders, k) > 0)
    {
      OpenQtyWith(c.orders, id, o, k);
      OpenQtyNotBelow(c.orders, k);
      assert k in c.depth <==> OpenQty(c.orders, k) > 0;
      assert DepthAt(c, k) == OpenQty(c.orders, k);
    }
  }

  lemma EventAgrees(c: Client, e: Event)
    requires IndexAgrees(c) && ValidEvent(c, e)
    ensures IndexAgrees(OnEvent(c, e))
  {
    hide IndexAgrees, RemoveFromBook, AddToBook;
    var d := OnEvent(c, e);
    match e
    case OrderAdded(id, ticker, price, qty, isBuy) =>
      GrowAgrees(c, id, OpenOrder(ticker, isBuy, price, ToInt32(qty)), 0, d);
    case OrderModified(id, qty) =>
      if id in c.orders {
        if ToInt32(qty) > c.orders[id].qty {
          GrowAgrees(c, id, c.orders[id].(qty := ToInt32(qty)), c.orders[id].qty, d);
        } else {
          ShrinkAgrees(c, id, ToInt32(qty), d);
        }
      }
    case OrderCancelled(id) =>
      if id in c.orders {
        PositiveOpen(c, id);
        ShrinkAgrees(c, id, 0, d);
      }
    case OrderFilled(id, _, qty) =>
      if id in c.orders {
        ShrinkAgrees(c, id, c.orders[id].qty - qty, d);
      }
  }

  lemma PositiveOpen(c: Client, id: nat)
    requires IndexAgrees(c) && id in c.orders
    ensures c.orders[id].qty > 0
  {
  }

  /** After any valid sequence of events the depth table is the sum of the order table. */
  lemma {:induction false} DepthIsSumOfOrders(c: Client, events: seq<Event>)
    requires IndexAgrees(c) && ValidFeed(c, events)
    ensures IndexAgrees(Feed(c, events))
    decreases |events|
  {
    if events != [] {
      EventAgrees(c, events[0]);
      DepthIsSumOfOrders(OnEvent(c, events[0]), events[1..]);
    }
  }
}
