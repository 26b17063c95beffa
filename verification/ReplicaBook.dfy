/** One request and the messages it sends: when the client's depth still is the book's afterwards. */
module ReplicaBook {
  import opened Orders
  import opened Sequences
  import opened Matching
  import opened MatchingLaws
  import opened BookSpec
  import opened BookLaws
  import opened Depth
  import opened ClientFeed
  import opened Replica

  /** Every trade reaches the client in full, and what comes to rest fits the client's signed quantity. */
  predicate FaithfulAdd(build: Build, b: Book, o: NewOrder) {
    && AllRelayed(build, SweepOf(b, o).trades)
    && (RestsAfter(b, o) ==> SweepOf(b, o).left < TWO_31)
  }

  /** Whether the messages of a request say what the request does. */
  predicate Faithful(build: Build, b: Book, r: Request) {
    match r
    case New(o) => FaithfulAdd(build, b, o)
    case Change(m) => (
      match Locate(b, m.id)
      case None => true
      case Some((isBuy, k)) =>
        var x := b.Side(isBuy)[k];
        || ModifyErrors(isBuy, x, m) != []
        || (if m.price == x.price then ToInt32(m.qty) == NewQty(build, x, m)
            else FaithfulAdd(build, Cancel(b, CancelRequest(m.id, m.user, m.ticker)).book, OrderOf(m))))
    case Withdraw(_) => true
  }

  /** Nothing of any other ticker changes. */
  ghost predicate OthersKept(c: Client, d: Client, ticker: nat) {
    forall t: nat, isBuy :: t != ticker ==> SideKept(c, d, t, isBuy)
  }

  /** Some price of the ticker shows a wrong quantity. */
  ghost predicate Misleads(c: Client, ticker: nat, b: Book) {
    exists isBuy, p: nat :: DepthAt(c, Key(ticker, isBuy, p)) != QtyAt(b.Side(isBuy), p)
  }

  lemma MirroredSides(c: Client, ticker: nat, b: Book, isBuy: bool)
    ensures Mirrored(c, ticker, b) <==>
      SideMirrored(c, ticker, isBuy, b.Side(isBuy)) && SideMirrored(c, ticker, !isBuy, b.Side(!isBuy))
  {
  }

  lemma TouchesOthers(c: Client, d: Client, id: nat, k: Key)
    requires Touches(c, d, id, k)
    ensures OthersKept(c, d, k.ticker) && SideKept(c, d, k.ticker, !k.isBuy)
  {
    hide SideKept, Touches;
    forall t: nat, isBuy | t != k.ticker || isBuy != k.isBuy
      ensures SideKept(c, d, t, isBuy)
    {
      TouchesKeeps(c, d, id, k, t, isBuy);
    }
  }

  lemma OthersKeptTrans(c: Client, d: Client, e: Client, ticker: nat)
    requires OthersKept(c, d, ticker) && OthersKept(d, e, ticker)
    ensures OthersKept(c, e, ticker)
  {
    hide SideKept;
    forall t: nat, isBuy | t != ticker
      ensures SideKept(c, e, t, isBuy)
    {
      SideKeptTrans(c, d, e, t, isBuy);
    }
  }

  lemma OthersKeptRefl(c: Client, ticker: nat)
    ensures OthersKept(c, c, ticker)
  {
    hide SideKept;
    forall t: nat, isBuy | t != ticker
      ensures SideKept(c, c, t, isBuy)
    {
      SideKeptRefl(c, t, isBuy);
    }
  }

  // ---- a new order ----

  // What an order leaves in the client once its trades are told, and once its remainder is.
  function ToldTrades(build: Build, c: Client, b: Book, o: NewOrder): Client {
    FeedTrades(build, c, SweepOf(b, o).trades)
  }

  function ToldAll(build: Build, c: Client, b: Book, o: NewOrder): Client {
    var d := ToldTrades(build, c, b, o);
    if RestsAfter(b, o) then OnAdd(d, o.id, OpenOrder(o.ticker, o.isBuy, o.price, ToInt32(SweepOf(b, o).left))) else d
  }

  lemma AddFeed(build: Build, c: Client, b: Book, o: NewOrder)
    requires !b.Has(o.id) && o.id !in c.orders
    ensures Feed(c, Add(build, b, o).events) == ToldAll(build, c, b, o)
    ensures o.id !in ToldTrades(build, c, b, o).orders
  {
    hide FillEvents, FillLog, FeedTrades, Insert;
    AbsentFromSides(b, o.id);
    var s := SweepOf(b, o);
    var fills := FillEvents(build, o.id, FillLog(o.ticker, o.id, s.trades));
    FillsFeed(build, c, o.ticker, o.id, s.trades);
    if RestsAfter(b, o) {
      var added := OrderAdded(o.id, o.ticker, o.price, s.left, o.isBuy);
      FeedAppend(c, fills, [added]);
      var d := FeedTrades(build, c, s.trades);
      assert Feed(d, [added]) == Feed(OnEvent(d, added), []);
    }
  }

  lemma UnknownIsAbsent(c: Client, ticker: nat, b: Book, id: nat)
    requires Mirrored(c, ticker, b) && id !in c.orders
    ensures !b.Has(id)
  {
  }

  lemma MirroredCovers(c: Client, ticker: nat, isBuy: bool, q: seq<Resting>)
    requires SideMirrored(c, ticker, isBuy, q)
    ensures Knows(c, ticker, isBuy, q) && DepthCovers(c, ticker, isBuy, q)
  {
  }

  // The trades change the swept side only.
  lemma TradesTold(build: Build, c: Client, b: Book, o: NewOrder)
    requires Mirrored(c, o.ticker, b) && Good(b) && NoEmptyKey(c)
    ensures var d := ToldTrades(build, c, b, o);
      && NoEmptyKey(d) && OthersKept(c, d, o.ticker) && SideMirrored(d, o.ticker, o.isBuy, b.Side(o.isBuy))
  {
    hide Sweep, FeedTrades, SideKept, SideMirrored, NoEmptyKey, DepthCovers, Knows;
    var q := b.Side(!o.isBuy);
    MirroredSides(c, o.ticker, b, o.isBuy);
    MirroredCovers(c, o.ticker, !o.isBuy, q);
    SweepDepth(build, c, o.ticker, !o.isBuy, q, o.price, o.qty, 0);
    var d := ToldTrades(build, c, b, o);
    forall t: nat, isBuy | t != o.ticker || isBuy == o.isBuy
      ensures SideKept(c, d, t, isBuy)
    {
      SweepKeepsOthers(build, c, o.ticker, !o.isBuy, q, o.price, o.qty, t, isBuy);
    }
    SideKeptMirrors(c, d, o.ticker, o.isBuy, b.Side(o.isBuy));
  }

  lemma AddMirrored(build: Build, c: Client, b: Book, o: NewOrder)
    requires Mirrored(c, o.ticker, b) && Good(b) && NoEmptyKey(c) && o.id !in c.orders
    requires Safe(build, b, New(o))
    ensures var e := Add(build, b, o); var d := Feed(c, e.events);
      && OthersKept(c, d, o.ticker)
      && (FaithfulAdd(build, b, o) ==> Mirrored(d, o.ticker, e.book) && NoEmptyKey(d))
      && (!FaithfulAdd(build, b, o) ==> Misleads(d, o.ticker, e.book))
  {
    hide Good, Feed, Add, Insert, Sweep, FeedTrades, SideKept, SideMirrored, NoEmptyKey, AllRelayed, OnAdd, Touches, OthersKept;
    UnknownIsAbsent(c, o.ticker, b, o.id);
    AddFeed(build, c, b, o);
    AddSides(build, b, o);
    TradesTold(build, c, b, o);
    RestIsPositive(b, o);
    var e, d, s := Add(build, b, o), ToldTrades(build, c, b, o), SweepOf(b, o);
    var f, r := ToldAll(build, c, b, o), Resting(o.id, o.user, o.price, s.left);
    var swept := b.Side(!o.isBuy);
    MirroredSides(c, o.ticker, b, o.isBuy);
    GoodSide(b, !o.isBuy);
    SweepMirrored(build, c, o.ticker, !o.isBuy, swept, o.price, o.qty);
    if RestsAfter(b, o) {
      var open := OpenOrder(o.ticker, o.isBuy, o.price, ToInt32(s.left));
      AddTouches(d, o.id, open);
      TouchesOthers(d, f, o.id, KeyOf(open));
      OthersKeptTrans(c, d, f, o.ticker);
      PlaceMirrored(d, o.ticker, o.isBuy, b.Side(o.isBuy), r);
    }
    if FaithfulAdd(build, b, o) {
      if RestsAfter(b, o) {
        SideKeptMirrors(d, f, o.ticker, !o.isBuy, s.rest);
      }
      MirroredSides(f, o.ticker, e.book, o.isBuy);
    } else if !AllRelayed(build, s.trades) {
      var p: nat :| DepthAt(d, Key(o.ticker, !o.isBuy, p)) != QtyAt(s.rest, p);
      if RestsAfter(b, o) {
        SideKeptDepth(d, f, o.ticker, !o.isBuy, p);
      }
      assert DepthAt(f, Key(o.ticker, !o.isBuy, p)) != QtyAt(e.book.Side(!o.isBuy), p);
    } else {
      assert DepthAt(f, Key(o.ticker, o.isBuy, o.price)) != QtyAt(e.book.Side(o.isBuy), o.price);
    }
  }

  lemma SideKeptDepth(c: Client, d: Client, ticker: nat, isBuy: bool, p: nat)
    requires SideKept(c, d, ticker, isBuy)
    ensures DepthAt(d, Key(ticker, isBuy, p)) == DepthAt(c, Key(ticker, isBuy, p))
  {
  }

  lemma GoodSide(b: Book, isBuy: bool)
    requires Good(b)
    ensures SortedSide(isBuy, b.Side(isBuy)) && DistinctIds(b.Side(isBuy)) && AllPositive(b.Side(isBuy))
  {
  }

  lemma RestIsPositive(b: Book, o: NewOrder)
    requires o.qty > 0 || Meets(b, o)
    ensures RestsAfter(b, o) ==> SweepOf(b, o).left > 0
  {
    TradesIffMeets(b, o);
  }

  // ---- the other requests ----

  lemma CancelMirrored(c: Client, b: Book, r: CancelRequest)
    requires Mirrored(c, r.ticker, b) && Good(b) && NoEmptyKey(c)
    ensures var e := Cancel(b, r); var d := Feed(c, e.events);
      && OthersKept(c, d, r.ticker) && Mirrored(d, r.ticker, e.book) && NoEmptyKey(d)
      && (e.outcome.Accepted? ==> r.id !in d.orders)
  {
    hide Good, SideKept, SideMirrored, NoEmptyKey, Touches, OthersKept, Without, OnCancel, SortedSide, DistinctIds, AllPositive;
    var e := Cancel(b, r);
    if e.outcome.Rejected? {
      OthersKeptRefl(c, r.ticker);
    } else {
      var (isBuy, k) := Locate(b, r.id).value;
      var q := b.Side(isBuy);
      assert Feed(c, e.events) == Feed(OnEvent(c, e.events[0]), []);
      var d := OnCancel(c, r.id);
      GoodSide(b, isBuy);
      MirroredSides(c, r.ticker, b, isBuy);
      RemoveMirrored(c, r.ticker, isBuy, q, k);
      TouchesOthers(c, d, r.id, Key(r.ticker, isBuy, q[k].price));
      SideKeptMirrors(c, d, r.ticker, !isBuy, b.Side(!isBuy));
      MirroredSides(d, r.ticker, e.book, isBuy);
    }
  }

  lemma ResizeFollows(build: Build, c: Client, b: Book, m: ModifyRequest, isBuy: bool, k: nat)
    requires Mirrored(c, m.ticker, b) && Good(b) && NoEmptyKey(c)
    requires Locate(b, m.id) == Some((isBuy, k)) && ModifyErrors(isBuy, b.Side(isBuy)[k], m) == []
    requires m.price == b.Side(isBuy)[k].price && NewQty(build, b.Side(isBuy)[k], m) > 0
    ensures var e := Modify(build, b, m); var d := Feed(c, e.events);
      && OthersKept(c, d, m.ticker)
      && (ToInt32(m.qty) == NewQty(build, b.Side(isBuy)[k], m) ==> Mirrored(d, m.ticker, e.book) && NoEmptyKey(d))
      && (ToInt32(m.qty) != NewQty(build, b.Side(isBuy)[k], m) ==> Misleads(d, m.ticker, e.book))
  {
    hide Good, SideKept, SideMirrored, NoEmptyKey, Touches, OthersKept, NewQty, OnModify, SortedSide,
      DistinctIds, AllPositive, ToInt32, ModifyErrors;
    var e := Modify(build, b, m);
    var q := b.Side(isBuy);
    assert e.events == [OrderModified(m.id, m.qty)];
    assert Feed(c, e.events) == Feed(OnEvent(c, e.events[0]), []);
    var d := OnModify(c, m.id, ToInt32(m.qty));
    GoodSide(b, isBuy);
    MirroredSides(c, m.ticker, b, isBuy);
    ResizeMirrored(c, m.ticker, isBuy, q, k, NewQty(build, q[k], m), ToInt32(m.qty));
    TouchesOthers(c, d, m.id, Key(m.ticker, isBuy, q[k].price));
    SideKeptMirrors(c, d, m.ticker, !isBuy, b.Side(!isBuy));
    MirroredSides(d, m.ticker, e.book, isBuy);
    if ToInt32(m.qty) != NewQty(build, q[k], m) {
      assert DepthAt(d, Key(m.ticker, isBuy, q[k].price)) != QtyAt(e.book.Side(isBuy), q[k].price);
    }
  }

  lemma ModifyMirrored(build: Build, c: Client, b: Book, m: ModifyRequest)
    requires Mirrored(c, m.ticker, b) && Good(b) && NoEmptyKey(c)
    requires Safe(build, b, Change(m))
    ensures var e := Modify(build, b, m); var d := Feed(c, e.events);
      && OthersKept(c, d, m.ticker)
      && (Faithful(build, b, Change(m)) ==> Mirrored(d, m.ticker, e.book) && NoEmptyKey(d))
      && (!Faithful(build, b, Change(m)) ==> Misleads(d, m.ticker, e.book))
  {
    hide Mirrored, NoEmptyKey, OthersKept, Misleads, FaithfulAdd, Add, NewQty, WellFormed, Uncrossed, Positive;
    var w := Locate(b, m.id);
    if w.None? || ModifyErrors(w.value.0, b.Side(w.value.0)[w.value.1], m) != [] {
      OthersKeptRefl(c, m.ticker);
    } else {
      var (isBuy, k) := w.value;
      if m.price == b.Side(isBuy)[k].price {
        ResizeFollows(build, c, b, m, isBuy, k);
      } else {
        var r := CancelRequest(m.id, m.user, m.ticker);
        var gone := Cancel(b, r);
        RepriceIsCancelThenAdd(build, b, m, isBuy, k);
        CancelMirrored(c, b, r);
        GoodIffSafe(build, b, Withdraw(r));
        var d := Feed(c, gone.events);
        AddMirrored(build, d, gone.book, OrderOf(m));
        FeedAppend(c, gone.events, Add(build, gone.book, OrderOf(m)).events);
        OthersKeptTrans(c, d, Feed(c, Modify(build, b, m).events), m.ticker);
      }
    }
  }
}
