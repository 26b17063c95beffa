/** What every request is answered, and what an accepted one comes to, told from the request and the books before
    it. */
module Verdicts {
  import opened Orders
  import opened Sequences
  import opened Matching
  import opened MatchingLaws
  import opened BookSpec
  import opened BookLaws
  import opened ExchangeSpec

  // ---- one book ----

  /** A new order is refused exactly for an id that rests, and then nothing happens. */
  lemma AddVerdict(build: Build, b: Book, o: NewOrder)
    ensures var e := Add(build, b, o);
      && e.outcome == (if b.Has(o.id) then Rejected([OrderIdAlreadyPresent]) else Accepted)
      && (b.Has(o.id) ==> e.book == b && e.trades == [] && e.events == [])
  {
    if b.Has(o.id) {
      DuplicateRejected(build, b, o);
    } else {
      AddSides(build, b, o);
    }
  }

  /** A cancel is refused for an id that does not rest, or for one that rests under another user, and for nothing
      else. */
  lemma CancelVerdict(b: Book, c: CancelRequest)
    requires WellFormed(b)
    ensures var outcome := Cancel(b, c).outcome;
      && (outcome == Rejected([OrderNotFound]) <==> !b.Has(c.id))
      && (outcome == Rejected([WrongUserId]) <==>
            exists side, k :: 0 <= k < |b.Side(side)| && b.Side(side)[k].id == c.id && b.Side(side)[k].user != c.user)
      && (outcome == Accepted <==>
            exists side, k :: 0 <= k < |b.Side(side)| && b.Side(side)[k].id == c.id && b.Side(side)[k].user == c.user)
  {
    hide Without, SortedSide, Disjoint;
    var w := Locate(b, c.id);
    if w.Some? {
      var (isBuy, k) := w.value;
      OnlyThere(b, isBuy, k);
      assert b.Side(isBuy)[k].id == c.id;
      assert forall i :: 0 <= i < |b.Side(isBuy)| && i != k ==> b.Side(isBuy)[i].id != c.id;
    } else {
      AbsentFromSides(b, c.id);
    }
  }

  /** A modification is refused for an id that does not rest; otherwise for the reasons that hold of the resting
      order, each once and in order: another side, another user, nothing changed. */
  lemma ModifyReasons(build: Build, b: Book, m: ModifyRequest)
    requires WellFormed(b)
    ensures var outcome := Modify(build, b, m).outcome;
      && (outcome == Rejected([OrderNotFound]) <==> !b.Has(m.id))
      && (outcome == Accepted <==> b.Has(m.id) && ReasonsOf(outcome) == [])
      && forall side, k :: 0 <= k < |b.Side(side)| && b.Side(side)[k].id == m.id ==>
           var x := b.Side(side)[k];
           Answers(ReasonsOf(outcome), side != m.isBuy, x.user != m.user, x.price == m.price && x.qty == m.qty)
  {
    hide Add, Cancel, SortedSide, Disjoint, NewQty, ModifyErrors, Answers;
    var w := Locate(b, m.id);
    if w.Some? {
      var (isBuy, k) := w.value;
      var x := b.Side(isBuy)[k];
      ErrorsAnswer(isBuy, x, m);
      NotNotFound(ModifyErrors(isBuy, x, m), isBuy != m.isBuy, x.user != m.user, x.price == m.price && x.qty == m.qty);
      OnlyThere(b, isBuy, k);
      assert forall i :: 0 <= i < |b.Side(isBuy)| && i != k ==> b.Side(isBuy)[i].id != m.id;
      assert ReasonsOf(Modify(build, b, m).outcome) == ModifyErrors(isBuy, x, m);
    } else {
      AbsentFromSides(b, m.id);
    }
  }

  lemma NotNotFound(reasons: seq<Rejection>, wrongSide: bool, wrongUser: bool, trivial: bool)
    requires Answers(reasons, wrongSide, wrongUser, trivial)
    ensures reasons != [OrderNotFound]
  {
    assert Rank(OrderNotFound) == 0;
    assert OrderNotFound !in reasons && OrderNotFound in [OrderNotFound];
  }

  // ---- what an accepted order comes to ----

  /** An accepted order has traded all it could within its limit; what is left rests under its own id, user and
      price, on its own side, and otherwise nothing of it rests. */
  ghost predicate Placed(after: Book, trades: seq<Trade>, before: Book, o: NewOrder) {
    var traded := Traded(trades);
    && traded == Min(o.qty, Available(!o.isBuy, before.Side(!o.isBuy), o.price))
    && (after.Has(o.id) <==> traded < o.qty || trades == [])
    && (after.Has(o.id) ==>
          exists k :: 0 <= k < |after.Side(o.isBuy)| && after.Side(o.isBuy)[k] == Resting(o.id, o.user, o.price, o.qty - traded))
  }

  lemma AddPlaces(build: Build, b: Book, o: NewOrder)
    requires WellFormed(b) && !b.Has(o.id)
    ensures Placed(Add(build, b, o).book, Add(build, b, o).trades, b, o)
  {
    hide Add, Sweep, IsBackOf, Insert, DistinctIds, Disjoint, WellFormed;
    AddSides(build, b, o);
    AbsentFromSides(b, o.id);
    var e, s, own, opposite := Add(build, b, o), SweepOf(b, o), b.Side(o.isBuy), b.Side(!o.isBuy);
    SidesSorted(b, o.isBuy);
    MaximalExecution(!o.isBuy, opposite, o.price, o.qty);
    SweepLeavesBack(!o.isBuy, opposite, o.price, o.qty);
    BackIds(s.rest, opposite, o.id);
    if RestsAfter(b, o) {
      var r := Resting(o.id, o.user, o.price, s.left);
      FoundWhereInserted(o.isBuy, own, r);
      FoundOnSide(e.book, o.isBuy, r);
    } else {
      NotOnSides(e.book, o.isBuy, own, s.rest, o.id);
    }
  }

  lemma SidesSorted(b: Book, isBuy: bool)
    requires WellFormed(b)
    ensures SortedSide(isBuy, b.Side(isBuy)) && SortedSide(!isBuy, b.Side(!isBuy))
  {
  }

  lemma FoundWhereInserted(isBid: bool, q: seq<Resting>, r: Resting)
    ensures r in Insert(isBid, q, r)
  {
    assert Insert(isBid, q, r)[PlaceOf(isBid, q, r.price)] == r;
  }

  lemma FoundOnSide(b: Book, isBuy: bool, r: Resting)
    requires r in b.Side(isBuy)
    ensures b.Has(r.id) && exists k :: 0 <= k < |b.Side(isBuy)| && b.Side(isBuy)[k] == r
  {
    var k :| 0 <= k < |b.Side(isBuy)| && b.Side(isBuy)[k] == r;
    assert b.Side(isBuy)[k].id == r.id;
  }

  /** An accepted change of price does to the order, at the new price and quantity, what placing it does; and takes
      it away first. */
  lemma RepricePlaces(build: Build, b: Book, m: ModifyRequest)
    requires WellFormed(b) && Modify(build, b, m).outcome.Accepted?
    requires Locate(b, m.id).Some? && m.price != b.Side(Locate(b, m.id).value.0)[Locate(b, m.id).value.1].price
    ensures var e := Modify(build, b, m);
      && Placed(e.book, e.trades, b, NewOrder(m.id, m.user, m.ticker, m.price, m.qty, m.isBuy))
      && e.events != [] && e.events[0] == OrderCancelled(m.id)
  {
    hide Add, Without, WellFormed, Placed, ModifyErrors, NewQty;
    var (isBuy, k) := Locate(b, m.id).value;
    var c := CancelRequest(m.id, m.user, m.ticker);
    RepriceIsCancelThenAdd(build, b, m, isBuy, k);
    NoErrors(isBuy, b.Side(isBuy)[k], m);
    CancelKeeps(b, c);
    AddPlaces(build, Cancel(b, c).book, OrderOf(m));
    PlacedAlike(Modify(build, b, m).book, Modify(build, b, m).trades, Cancel(b, c).book, b, OrderOf(m));
  }

  lemma PlacedAlike(after: Book, trades: seq<Trade>, before: Book, b: Book, o: NewOrder)
    requires Placed(after, trades, before, o) && before.Side(!o.isBuy) == b.Side(!o.isBuy)
    ensures Placed(after, trades, b, o)
  {
  }

  // ---- the exchange ----

  ghost predicate Unheard(x: Exchange, y: Reply) {
    y.next.books == x.books && y.events == []
  }

  /** Every message is answered as its kind demands: a book is opened once; without a book for the ticker nothing is
      found; a modification to quantity zero is trivial, whether there is a book or not; and otherwise the book
      decides. What does not reach a book changes none and tells the market nothing. Only new orders use up ids. */
  lemma StepVerdict(build: Build, x: Exchange, msg: Message)
    ensures var y := Step(build, x, msg); match msg
      case Create(t) =>
        && y.outcome == (if t in x.books then Rejected([]) else Accepted)
        && y.next == (if t in x.books then x else Exchange(x.books[t := Book([], [])], x.lastId)) && y.events == []
      case Enter(user, t, price, qty, isBuy) =>
        && y.next.lastId == x.lastId + 1
        && (t !in x.books ==> y.outcome == Rejected([OrderBookNotFound]) && Unheard(x, y))
        && (t in x.books ==>
              y.outcome == if x.books[t].Has(x.lastId + 1) then Rejected([OrderIdAlreadyPresent]) else Accepted)
      case Change(m) =>
        && y.next.lastId == x.lastId
        && (m.qty == 0 ==> y.outcome == Rejected([ModificationTrivial]) && Unheard(x, y))
        && (m.qty != 0 && m.ticker !in x.books ==> y.outcome == Rejected([OrderBookNotFound]) && Unheard(x, y))
        && (m.qty != 0 && m.ticker in x.books ==> y.outcome == Modify(build, x.books[m.ticker], m).outcome)
      case Withdraw(c) =>
        && y.next.lastId == x.lastId
        && (c.ticker !in x.books ==> y.outcome == Rejected([OrderBookNotFound]) && Unheard(x, y))
        && (c.ticker in x.books ==> y.outcome == Cancel(x.books[c.ticker], c).outcome)
  {
    hide Add, Modify, Cancel;
    match msg
    case Create(_) =>
    case Enter(user, t, price, qty, isBuy) =>
      if t in x.books {
        AddVerdict(build, x.books[t], NewOrder(x.lastId + 1, user, t, price, qty, isBuy));
      }
    case Change(m) =>
      assert m.ticker in x.books ==> x.books[m.ticker := x.books[m.ticker]] == x.books;
    case Withdraw(_) =>
  }

  /** An accepted new order is placed in the book of its ticker, under the next id and as it was sent. */
  lemma EnterPlaces(build: Build, x: Exchange, user: nat, t: nat, price: nat, qty: uint32, isBuy: bool)
    requires t in x.books && WellFormed(x.books[t]) && !x.books[t].Has(x.lastId + 1)
    ensures var y := Step(build, x, Enter(user, t, price, qty, isBuy)); var o := NewOrder(x.lastId + 1, user, t, price, qty, isBuy);
      && y.next.books.Keys == x.books.Keys
      && (exists trades :: Placed(y.next.books[t], trades, x.books[t], o))
      && (forall u :: u in x.books && u != t ==> y.next.books[u] == x.books[u])
  {
    hide Add, Placed, WellFormed;
    var o := NewOrder(x.lastId + 1, user, t, price, qty, isBuy);
    AddPlaces(build, x.books[t], o);
    assert Placed(Add(build, x.books[t], o).book, Add(build, x.books[t], o).trades, x.books[t], o);
  }
}
