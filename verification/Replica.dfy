/** The client's depth against the server's: what one book's events do to a client that mirrors it. */
module Replica {
  import opened Orders
  import opened Sequences
  import opened Matching
  import opened MatchingLaws
  import opened BookSpec
  import opened BookLaws
  import opened Depth
  import opened ClientFeed

  function OpenOf(ticker: nat, isBuy: bool, r: Resting): OpenOrder {
    OpenOrder(ticker, isBuy, r.price, r.qty)
  }

  /** The client knows every order of the queue as it rests. */
  ghost predicate Knows(c: Client, ticker: nat, isBuy: bool, q: seq<Resting>) {
    forall i :: 0 <= i < |q| ==> q[i].id in c.orders && c.orders[q[i].id] == OpenOf(ticker, isBuy, q[i])
  }

  /** The client knows no order of this side that does not rest. */
  ghost predicate KnowsOnly(c: Client, ticker: nat, isBuy: bool, q: seq<Resting>) {
    forall id :: id in c.orders && c.orders[id].ticker == ticker && c.orders[id].isBuy == isBuy ==> HasId(q, id)
  }

  ghost predicate SameDepth(c: Client, ticker: nat, isBuy: bool, q: seq<Resting>) {
    forall p: nat :: DepthAt(c, Key(ticker, isBuy, p)) == QtyAt(q, p)
  }

  ghost predicate SideMirrored(c: Client, ticker: nat, isBuy: bool, q: seq<Resting>) {
    Knows(c, ticker, isBuy, q) && KnowsOnly(c, ticker, isBuy, q) && SameDepth(c, ticker, isBuy, q)
  }

  ghost predicate Mirrored(c: Client, ticker: nat, b: Book) {
    SideMirrored(c, ticker, true, b.bids) && SideMirrored(c, ticker, false, b.asks)
  }

  /** No stored depth is zero or negative. */
  ghost predicate NoEmptyKey(c: Client) {
    forall k :: k in c.depth ==> c.depth[k] > 0
  }

  /** One side of the client's tables is as it was. */
  ghost predicate SideKept(c: Client, d: Client, ticker: nat, isBuy: bool) {
    && (forall id :: id in c.orders && c.orders[id].ticker == ticker && c.orders[id].isBuy == isBuy ==>
          id in d.orders && d.orders[id] == c.orders[id])
    && (forall id :: id in d.orders && d.orders[id].ticker == ticker && d.orders[id].isBuy == isBuy ==>
          id in c.orders && c.orders[id] == d.orders[id])
    && (forall p: nat :: DepthAt(d, Key(ticker, isBuy, p)) == DepthAt(c, Key(ticker, isBuy, p)))
  }

  lemma SideKeptMirrors(c: Client, d: Client, ticker: nat, isBuy: bool, q: seq<Resting>)
    requires SideKept(c, d, ticker, isBuy) && SideMirrored(c, ticker, isBuy, q)
    ensures SideMirrored(d, ticker, isBuy, q)
  {
  }

  lemma SideKeptTrans(c: Client, d: Client, e: Client, ticker: nat, isBuy: bool)
    requires SideKept(c, d, ticker, isBuy) && SideKept(d, e, ticker, isBuy)
    ensures SideKept(c, e, ticker, isBuy)
  {
  }

  /** An update that touches at most the order `id` and the key of `o` leaves every other side as it was. */
  ghost predicate Touches(c: Client, d: Client, id: nat, k: Key) {
    && d.orders - {id} == c.orders - {id}
    && (id in c.orders ==> KeyOf(c.orders[id]) == k)
    && (id in d.orders ==> KeyOf(d.orders[id]) == k)
    && (forall l: Key :: l != k ==> DepthAt(d, l) == DepthAt(c, l))
  }

  lemma TouchesKeeps(c: Client, d: Client, id: nat, k: Key, ticker: nat, isBuy: bool)
    requires Touches(c, d, id, k) && (k.ticker != ticker || k.isBuy != isBuy)
    ensures SideKept(c, d, ticker, isBuy)
  {
    forall i | i in c.orders && c.orders[i].ticker == ticker && c.orders[i].isBuy == isBuy
      ensures i in d.orders && d.orders[i] == c.orders[i]
    {
      assert i in c.orders - {id};
    }
    forall i | i in d.orders && d.orders[i].ticker == ticker && d.orders[i].isBuy == isBuy
      ensures i in c.orders && c.orders[i] == d.orders[i]
    {
      assert i in d.orders - {id};
    }
  }

  // ---- an order is added ----

  lemma AddTouches(c: Client, id: nat, o: OpenOrder)
    requires id !in c.orders
    ensures Touches(c, OnAdd(c, id, o), id, KeyOf(o))
    ensures DepthAt(OnAdd(c, id, o), KeyOf(o)) == DepthAt(c, KeyOf(o)) + o.qty
    ensures NoEmptyKey(c) && o.qty > 0 ==> NoEmptyKey(OnAdd(c, id, o))
  {
  }

  // Placing an order and telling the client keeps a side mirrored exactly when the quantity fits a signed word.
  lemma PlaceMirrored(c: Client, ticker: nat, isBuy: bool, q: seq<Resting>, r: Resting)
    requires SideMirrored(c, ticker, isBuy, q) && r.id !in c.orders
    ensures r.qty < TWO_31 ==>
      SideMirrored(OnAdd(c, r.id, OpenOrder(ticker, isBuy, r.price, ToInt32(r.qty))), ticker, isBuy, Insert(isBuy, q, r))
    ensures r.qty >= TWO_31 ==>
      DepthAt(OnAdd(c, r.id, OpenOrder(ticker, isBuy, r.price, ToInt32(r.qty))), Key(ticker, isBuy, r.price))
      != QtyAt(Insert(isBuy, q, r), r.price)
  {
    var o := OpenOrder(ticker, isBuy, r.price, ToInt32(r.qty));
    var d := OnAdd(c, r.id, o);
    AddTouches(c, r.id, o);
    QtyAtInsert(isBuy, q, r, r.price);
    if r.qty < TWO_31 {
      PlaceKnown(c, ticker, isBuy, q, r);
      forall p: nat
        ensures DepthAt(d, Key(ticker, isBuy, p)) == QtyAt(Insert(isBuy, q, r), p)
      {
        QtyAtInsert(isBuy, q, r, p);
      }
    }
  }

  lemma PlaceKnown(c: Client, ticker: nat, isBuy: bool, q: seq<Resting>, r: Resting)
    requires Knows(c, ticker, isBuy, q) && KnowsOnly(c, ticker, isBuy, q) && r.id !in c.orders
    ensures var d := OnAdd(c, r.id, OpenOf(ticker, isBuy, r));
      Knows(d, ticker, isBuy, Insert(isBuy, q, r)) && KnowsOnly(d, ticker, isBuy, Insert(isBuy, q, r))
  {
    var d := OnAdd(c, r.id, OpenOf(ticker, isBuy, r));
    var k, s := PlaceOf(isBuy, q, r.price), Insert(isBuy, q, r);
    InsertAt(isBuy, q, r);
    assert s[k] == r;
    forall id | id in d.orders && d.orders[id].ticker == ticker && d.orders[id].isBuy == isBuy
      ensures HasId(s, id)
    {
      if id == r.id {
        assert s[k].id == id;
      } else {
        var i :| 0 <= i < |q| && q[i].id == id;
        assert s[if i < k then i else i + 1].id == id;
      }
    }
  }

  // ---- an order is cancelled ----

  lemma CancelTouches(c: Client, id: nat)
    requires id in c.orders && NoEmptyKey(c) && 0 < c.orders[id].qty <= DepthAt(c, KeyOf(c.orders[id]))
    ensures Touches(c, OnCancel(c, id), id, KeyOf(c.orders[id]))
    ensures DepthAt(OnCancel(c, id), KeyOf(c.orders[id])) == DepthAt(c, KeyOf(c.orders[id])) - c.orders[id].qty
    ensures NoEmptyKey(OnCancel(c, id))
  {
  }

  lemma RemoveMirrored(c: Client, ticker: nat, isBuy: bool, q: seq<Resting>, k: nat)
    requires SideMirrored(c, ticker, isBuy, q) && NoEmptyKey(c)
    requires DistinctIds(q) && AllPositive(q) && k < |q|
    ensures SideMirrored(OnCancel(c, q[k].id), ticker, isBuy, Without(q, k)) && NoEmptyKey(OnCancel(c, q[k].id))
    ensures Touches(c, OnCancel(c, q[k].id), q[k].id, Key(ticker, isBuy, q[k].price))
    ensures q[k].id !in OnCancel(c, q[k].id).orders
  {
    var d, s := OnCancel(c, q[k].id), Without(q, k);
    QtyAtLeast(q, k);
    CancelTouches(c, q[k].id);
    forall i | 0 <= i < |s|
      ensures s[i].id in d.orders && d.orders[s[i].id] == OpenOf(ticker, isBuy, s[i])
    {
      assert s[i] == q[if i < k then i else i + 1];
    }
    forall id | id in d.orders && d.orders[id].ticker == ticker && d.orders[id].isBuy == isBuy
      ensures HasId(s, id)
    {
      var i :| 0 <= i < |q| && q[i].id == id;
      assert s[if i < k then i else i - 1].id == id;
    }
    forall p: nat
      ensures DepthAt(d, Key(ticker, isBuy, p)) == QtyAt(s, p)
    {
      QtyAtRemove(q, k, p);
    }
  }

  // ---- an order is resized ----

  lemma ModifyTouches(c: Client, id: nat, qty: int)
    requires id in c.orders && NoEmptyKey(c) && 0 < c.orders[id].qty <= DepthAt(c, KeyOf(c.orders[id]))
    ensures Touches(c, OnModify(c, id, qty), id, KeyOf(c.orders[id]))
    ensures var left := DepthAt(c, KeyOf(c.orders[id])) - c.orders[id].qty + qty;
      DepthAt(OnModify(c, id, qty), KeyOf(c.orders[id])) == if left > 0 then left else 0
    ensures NoEmptyKey(OnModify(c, id, qty))
  {
  }

  lemma ResizeMirrored(c: Client, ticker: nat, isBuy: bool, q: seq<Resting>, k: nat, qty: uint32, told: int)
    requires SideMirrored(c, ticker, isBuy, q) && NoEmptyKey(c)
    requires DistinctIds(q) && AllPositive(q) && k < |q| && qty > 0
    ensures NoEmptyKey(OnModify(c, q[k].id, told))
    ensures Touches(c, OnModify(c, q[k].id, told), q[k].id, Key(ticker, isBuy, q[k].price))
    ensures told == qty ==> SideMirrored(OnModify(c, q[k].id, told), ticker, isBuy, q[k := q[k].(qty := qty)])
    ensures told != qty ==>
      DepthAt(OnModify(c, q[k].id, told), Key(ticker, isBuy, q[k].price)) != QtyAt(q[k := q[k].(qty := qty)], q[k].price)
  {
    var d, s := OnModify(c, q[k].id, told), q[k := q[k].(qty := qty)];
    QtyAtLeast(q, k);
    ModifyTouches(c, q[k].id, told);
    QtyAtResize(q, k, qty, q[k].price);
    if told == qty {
      assert forall i :: 0 <= i < |s| ==> s[i].id == q[i].id;
      forall p: nat
        ensures DepthAt(d, Key(ticker, isBuy, p)) == QtyAt(s, p)
      {
        QtyAtResize(q, k, qty, p);
      }
    }
  }

  // ---- a queue is swept ----

  /** The quantity the client takes off a resting order for a trade. */
  function RelayedQty(build: Build, t: Trade): nat {
    if build.stampsTaker then 0 else t.qty % TWO_16
  }

  function RelayedAt(build: Build, trades: seq<Trade>, p: nat): nat {
    if trades == [] then 0
    else (if trades[0].price == p then RelayedQty(build, trades[0]) else 0) + RelayedAt(build, trades[1..], p)
  }

  /** The client after the messages of the trades, of which only those for resting orders count. */
  function FeedTrades(build: Build, c: Client, trades: seq<Trade>): Client
    decreases |trades|
  {
    if trades == [] || build.stampsTaker then c
    else FeedTrades(build, OnFill(c, trades[0].maker, trades[0].qty % TWO_16), trades[1..])
  }

  // The client does not know the incoming order yet, so messages under its id pass by.
  lemma {:induction false} FillsFeed(build: Build, c: Client, ticker: nat, taker: nat, trades: seq<Trade>)
    requires taker !in c.orders
    ensures Feed(c, FillEvents(build, taker, FillLog(ticker, taker, trades))) == FeedTrades(build, c, trades)
    ensures taker !in FeedTrades(build, c, trades).orders
    decreases |trades|
  {
    if trades != [] {
      var w := trades[0].qty % TWO_16;
      var head := [OrderFilled(if build.stampsTaker then taker else trades[0].maker, ticker, w), OrderFilled(taker, ticker, w)];
      var tail := FillEvents(build, taker, FillLog(ticker, taker, trades[1..]));
      FillEventsSplit(build, ticker, taker, trades);
      FeedAppend(c, head, tail);
      var c1 := OnEvent(c, head[0]);
      FeedTwo(c, head[0], head[1]);
      FillsFeed(build, c1, ticker, taker, trades[1..]);
    }
  }

  lemma FeedTwo(c: Client, e: Event, f: Event)
    ensures Feed(c, [e, f]) == OnEvent(OnEvent(c, e), f)
  {
    assert [e, f][1..] == [f] && [f][1..] == [];
    assert Feed(OnEvent(c, e), [f]) == Feed(OnEvent(OnEvent(c, e), f), []);
  }

  lemma FillEventsSplit(build: Build, ticker: nat, taker: nat, trades: seq<Trade>)
    requires trades != []
    ensures FillEvents(build, taker, FillLog(ticker, taker, trades))
      == [OrderFilled(if build.stampsTaker then taker else trades[0].maker, ticker, trades[0].qty % TWO_16),
          OrderFilled(taker, ticker, trades[0].qty % TWO_16)]
         + FillEvents(build, taker, FillLog(ticker, taker, trades[1..]))
  {
    var log, tail := FillLog(ticker, taker, trades), FillLog(ticker, taker, trades[1..]);
    assert log == FillPair(ticker, taker, trades[0]) + tail;
    assert log[1..][1..] == tail;
    assert FillEvents(build, taker, log[1..]) == [OrderFilled(taker, ticker, trades[0].qty % TWO_16)] + FillEvents(build, taker, tail);
  }

  lemma FillTouches(c: Client, id: nat, w: nat)
    requires id in c.orders && NoEmptyKey(c) && w <= c.orders[id].qty <= DepthAt(c, KeyOf(c.orders[id])) && c.orders[id].qty > 0
    ensures Touches(c, OnFill(c, id, w), id, KeyOf(c.orders[id]))
    ensures DepthAt(OnFill(c, id, w), KeyOf(c.orders[id])) == DepthAt(c, KeyOf(c.orders[id])) - w
    ensures NoEmptyKey(OnFill(c, id, w))
  {
  }

  ghost predicate DepthCovers(c: Client, ticker: nat, isBuy: bool, q: seq<Resting>) {
    forall p: nat :: DepthAt(c, Key(ticker, isBuy, p)) >= QtyAt(q, p)
  }

  // One fill at the front of a known queue, whatever quantity the message gives.
  lemma FillFrontStep(c: Client, ticker: nat, isBuy: bool, q: seq<Resting>, w: nat)
    requires q != [] && DistinctIds(q) && AllPositive(q) && w <= q[0].qty
    requires Knows(c, ticker, isBuy, q) && DepthCovers(c, ticker, isBuy, q) && NoEmptyKey(c)
    ensures var d := OnFill(c, q[0].id, w);
      && NoEmptyKey(d) && Touches(c, d, q[0].id, Key(ticker, isBuy, q[0].price))
      && Knows(d, ticker, isBuy, q[1..]) && DepthCovers(d, ticker, isBuy, q[1..])
    ensures DepthAt(OnFill(c, q[0].id, w), Key(ticker, isBuy, q[0].price)) == DepthAt(c, Key(ticker, isBuy, q[0].price)) - w
  {
    var d, r := OnFill(c, q[0].id, w), q[1..];
    QtyAtLeast(q, 0);
    assert c.orders[q[0].id] == OpenOf(ticker, isBuy, q[0]);
    FillTouches(c, q[0].id, w);
    forall i | 0 <= i < |r|
      ensures r[i].id in d.orders && d.orders[r[i].id] == OpenOf(ticker, isBuy, r[i])
    {
      assert r[i] == q[i + 1] && q[0].id != q[i + 1].id;
    }
    forall p: nat
      ensures DepthAt(d, Key(ticker, isBuy, p)) >= QtyAt(r, p)
    {
      assert QtyAt(q, p) == (if q[0].price == p then q[0].qty else 0) + QtyAt(r, p);
    }
  }

  // The depth falls by exactly what the messages say.
  lemma {:induction false} SweepDepth(build: Build, c: Client, ticker: nat, isBuy: bool, q: seq<Resting>, limit: nat, qty: uint32, p: nat)
    requires DistinctIds(q) && AllPositive(q)
    requires Knows(c, ticker, isBuy, q) && DepthCovers(c, ticker, isBuy, q) && NoEmptyKey(c)
    ensures var t := Sweep(isBuy, q, limit, qty).trades;
      && NoEmptyKey(FeedTrades(build, c, t))
      && DepthAt(FeedTrades(build, c, t), Key(ticker, isBuy, p)) == DepthAt(c, Key(ticker, isBuy, p)) - RelayedAt(build, t, p)
    decreases |q|
  {
    var t := Sweep(isBuy, q, limit, qty).trades;
    if build.stampsTaker {
      NothingRelayed(build, t, p);
    } else if t != [] {
      var f := Min(q[0].qty, qty);
      var w := f % TWO_16;
      FillFrontStep(c, ticker, isBuy, q, w);
      var d := OnFill(c, q[0].id, w);
      if f < qty {
        SweepDepth(build, d, ticker, isBuy, q[1..], limit, qty - f, p);
        assert t[1..] == Sweep(isBuy, q[1..], limit, qty - f).trades;
      } else {
        assert t[1..] == [];
      }
    }
  }

  lemma {:induction false} NothingRelayed(build: Build, trades: seq<Trade>, p: nat)
    requires build.stampsTaker
    ensures RelayedAt(build, trades, p) == 0
  {
    if trades != [] {
      NothingRelayed(build, trades[1..], p);
    }
  }

  // Nothing but the swept side changes.
  lemma {:induction false} SweepKeepsOthers(build: Build, c: Client, ticker: nat, isBuy: bool, q: seq<Resting>, limit: nat, qty: uint32,
                                            ticker': nat, isBuy': bool)
    requires DistinctIds(q) && AllPositive(q)
    requires Knows(c, ticker, isBuy, q) && DepthCovers(c, ticker, isBuy, q) && NoEmptyKey(c)
    requires ticker' != ticker || isBuy' != isBuy
    ensures SideKept(c, FeedTrades(build, c, Sweep(isBuy, q, limit, qty).trades), ticker', isBuy')
    decreases |q|
  {
    hide SideKept, Touches, Knows, DepthCovers, NoEmptyKey;
    var t := Sweep(isBuy, q, limit, qty).trades;
    if build.stampsTaker || t == [] {
      SideKeptRefl(c, ticker', isBuy');
    } else {
      var f := Min(q[0].qty, qty);
      FillFrontStep(c, ticker, isBuy, q, f % TWO_16);
      var d := OnFill(c, q[0].id, f % TWO_16);
      TouchesKeeps(c, d, q[0].id, Key(ticker, isBuy, q[0].price), ticker', isBuy');
      if f < qty {
        SweepKeepsOthers(build, d, ticker, isBuy, q[1..], limit, qty - f, ticker', isBuy');
        assert t[1..] == Sweep(isBuy, q[1..], limit, qty - f).trades;
        SideKeptTrans(c, d, FeedTrades(build, d, t[1..]), ticker', isBuy');
      } else {
        assert t[1..] == [];
      }
    }
  }

  lemma SideKeptRefl(c: Client, ticker: nat, isBuy: bool)
    ensures SideKept(c, c, ticker, isBuy)
  {
  }

  /** Every trade reaches the client with its full quantity. */
  predicate AllRelayed(build: Build, trades: seq<Trade>) {
    forall i :: 0 <= i < |trades| ==> RelayedQty(build, trades[i]) == trades[i].qty
  }

  // With every trade relayed in full, the client's orders follow the queue.
  lemma {:induction false} SweepKnown(build: Build, c: Client, ticker: nat, isBuy: bool, q: seq<Resting>, limit: nat, qty: uint32)
    requires DistinctIds(q) && AllPositive(q)
    requires Knows(c, ticker, isBuy, q) && KnowsOnly(c, ticker, isBuy, q) && DepthCovers(c, ticker, isBuy, q) && NoEmptyKey(c)
    requires AllRelayed(build, Sweep(isBuy, q, limit, qty).trades)
    ensures Knows(FeedTrades(build, c, Sweep(isBuy, q, limit, qty).trades), ticker, isBuy, Sweep(isBuy, q, limit, qty).rest)
    ensures KnowsOnly(FeedTrades(build, c, Sweep(isBuy, q, limit, qty).trades), ticker, isBuy, Sweep(isBuy, q, limit, qty).rest)
    decreases |q|
  {
    hide DepthCovers, NoEmptyKey, Touches;
    var s := Sweep(isBuy, q, limit, qty);
    if s.trades != [] {
      var f := Min(q[0].qty, qty);
      assert RelayedQty(build, s.trades[0]) == f;
      if build.stampsTaker {
        // only an empty order trades nothing with a resting one
        assert s.rest == q;
      } else {
        FillFrontStep(c, ticker, isBuy, q, f);
        var d := OnFill(c, q[0].id, f);
        if f < qty {
          FrontGone(c, ticker, isBuy, q);
          assert s.trades[1..] == Sweep(isBuy, q[1..], limit, qty - f).trades;
          SweepKnown(build, d, ticker, isBuy, q[1..], limit, qty - f);
        } else {
          assert s.trades[1..] == [];
          if q[0].qty == f {
            FrontGone(c, ticker, isBuy, q);
          } else {
            FrontShrinks(c, ticker, isBuy, q, f);
          }
        }
      }
    }
  }

  lemma FrontGone(c: Client, ticker: nat, isBuy: bool, q: seq<Resting>)
    requires q != [] && Knows(c, ticker, isBuy, q) && KnowsOnly(c, ticker, isBuy, q)
    ensures KnowsOnly(OnFill(c, q[0].id, q[0].qty), ticker, isBuy, q[1..])
  {
    var d := OnFill(c, q[0].id, q[0].qty);
    forall id | id in d.orders && d.orders[id].ticker == ticker && d.orders[id].isBuy == isBuy
      ensures HasId(q[1..], id)
    {
      var i :| 0 <= i < |q| && q[i].id == id;
      assert q[1..][i - 1].id == id;
    }
  }

  lemma FrontShrinks(c: Client, ticker: nat, isBuy: bool, q: seq<Resting>, f: nat)
    requires q != [] && DistinctIds(q) && f < q[0].qty
    requires Knows(c, ticker, isBuy, q) && KnowsOnly(c, ticker, isBuy, q)
    ensures var d := OnFill(c, q[0].id, f); var r := [q[0].(qty := q[0].qty - f)] + q[1..];
      Knows(d, ticker, isBuy, r) && KnowsOnly(d, ticker, isBuy, r)
  {
    var d := OnFill(c, q[0].id, f);
    var r := [q[0].(qty := q[0].qty - f)] + q[1..];
    assert forall i :: 0 <= i < |q| ==> r[i].id == q[i].id;
    forall id | id in d.orders && d.orders[id].ticker == ticker && d.orders[id].isBuy == isBuy
      ensures HasId(r, id)
    {
      var i :| 0 <= i < |q| && q[i].id == id;
      assert r[i].id == id;
    }
  }

  // ---- what the messages say at a price ----

  lemma {:induction false} RelayedInFull(build: Build, trades: seq<Trade>, p: nat)
    requires AllRelayed(build, trades)
    ensures RelayedAt(build, trades, p) == TradedAt(trades, p)
  {
    if trades != [] {
      assert RelayedQty(build, trades[0]) == trades[0].qty;
      assert forall i :: 0 <= i < |trades[1..]| ==> trades[1..][i] == trades[i + 1];
      RelayedInFull(build, trades[1..], p);
    }
  }

  lemma {:induction false} RelayedAtMost(build: Build, trades: seq<Trade>, p: nat)
    ensures RelayedAt(build, trades, p) <= TradedAt(trades, p)
  {
    if trades != [] {
      RelayedAtMost(build, trades[1..], p);
    }
  }

  // A trade relayed short shows at its price.
  lemma {:induction false} RelayedShort(build: Build, trades: seq<Trade>, i: nat)
    requires i < |trades| && RelayedQty(build, trades[i]) != trades[i].qty
    ensures RelayedAt(build, trades, trades[i].price) < TradedAt(trades, trades[i].price)
  {
    if i == 0 {
      RelayedAtMost(build, trades[1..], trades[0].price);
    } else {
      RelayedShort(build, trades[1..], i - 1);
    }
  }

  // A swept side stays mirrored when every trade is relayed in full, and otherwise shows a wrong depth.
  lemma SweepMirrored(build: Build, c: Client, ticker: nat, isBuy: bool, q: seq<Resting>, limit: nat, qty: uint32)
    requires DistinctIds(q) && AllPositive(q) && SideMirrored(c, ticker, isBuy, q) && NoEmptyKey(c)
    ensures AllRelayed(build, Sweep(isBuy, q, limit, qty).trades) ==>
      SideMirrored(FeedTrades(build, c, Sweep(isBuy, q, limit, qty).trades), ticker, isBuy, Sweep(isBuy, q, limit, qty).rest)
    ensures !AllRelayed(build, Sweep(isBuy, q, limit, qty).trades) ==>
      exists p: nat :: DepthAt(FeedTrades(build, c, Sweep(isBuy, q, limit, qty).trades), Key(ticker, isBuy, p))
                       != QtyAt(Sweep(isBuy, q, limit, qty).rest, p)
  {
    var s := Sweep(isBuy, q, limit, qty);
    var d := FeedTrades(build, c, s.trades);
    if AllRelayed(build, s.trades) {
      SweepKnown(build, c, ticker, isBuy, q, limit, qty);
      forall p: nat
        ensures DepthAt(d, Key(ticker, isBuy, p)) == QtyAt(s.rest, p)
      {
        SweepDepth(build, c, ticker, isBuy, q, limit, qty, p);
        QtyAtSweep(isBuy, q, limit, qty, p);
        RelayedInFull(build, s.trades, p);
      }
    } else {
      var i :| 0 <= i < |s.trades| && RelayedQty(build, s.trades[i]) != s.trades[i].qty;
      var p := s.trades[i].price;
      RelayedShort(build, s.trades, i);
      SweepDepth(build, c, ticker, isBuy, q, limit, qty, p);
      QtyAtSweep(isBuy, q, limit, qty, p);
      assert DepthAt(d, Key(ticker, isBuy, p)) != QtyAt(s.rest, p);
    }
  }
}
