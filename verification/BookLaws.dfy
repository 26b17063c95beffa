/** What every request keeps: sorted sides, distinct ids, positive quantities, and a book that is never crossed. */
module BookLaws {
  import opened Orders
  import opened Sequences
  import opened Matching
  import opened MatchingLaws
  import opened BookSpec

  datatype Request = New(o: NewOrder) | Change(m: ModifyRequest) | Withdraw(c: CancelRequest)

  function Apply(build: Build, b: Book, r: Request): Effect {
    match r
    case New(o) => Add(build, b, o)
    case Change(m) => Modify(build, b, m)
    case Withdraw(c) => Cancel(b, c)
  }

  predicate Disjoint(q1: seq<Resting>, q2: seq<Resting>) {
    forall i, j :: 0 <= i < |q1| && 0 <= j < |q2| ==> q1[i].id != q2[j].id
  }

  /** Each side in price-time order, and no id twice. */
  predicate WellFormed(b: Book) {
    && SortedSide(true, b.bids) && SortedSide(false, b.asks)
    && DistinctIds(b.bids) && DistinctIds(b.asks) && Disjoint(b.bids, b.asks)
  }

  predicate Uncrossed(b: Book) {
    b.bids != [] && b.asks != [] ==> b.bids[0].price < b.asks[0].price
  }

  predicate Positive(b: Book) {
    AllPositive(b.bids) && AllPositive(b.asks)
  }

  predicate Good(b: Book) {
    WellFormed(b) && Positive(b) && Uncrossed(b)
  }

  /** Whether the best opposite order is within the limit. */
  predicate Meets(b: Book, o: NewOrder) {
    b.Side(!o.isBuy) != [] && Crosses(!o.isBuy, o.price, b.Side(!o.isBuy)[0].price)
  }

  function OrderOf(m: ModifyRequest): NewOrder {
    NewOrder(m.id, m.user, m.ticker, m.price, m.qty, m.isBuy)
  }

  /** No order is left resting with quantity zero: neither a new order of quantity zero that meets no match,
      nor a resting order whose new quantity is zero. */
  ghost predicate Safe(build: Build, b: Book, r: Request) {
    match r
    case New(o) => o.qty > 0 || b.Has(o.id) || Meets(b, o)
    case Change(m) => (
      match Locate(b, m.id)
      case None => true
      case Some((isBuy, k)) =>
        var x := b.Side(isBuy)[k];
        || ModifyErrors(isBuy, x, m) != []
        || (if m.price == x.price then NewQty(build, x, m) > 0 else m.qty > 0 || Meets(b, OrderOf(m))))
    case Withdraw(_) => true
  }

  // ---- pieces of a step ----

  /** `rest` is the back of `q`; of its first order some quantity may be gone. */
  predicate IsBackOf(rest: seq<Resting>, q: seq<Resting>) {
    && |rest| <= |q|
    && forall i :: 0 <= i < |rest| ==> var x, y := rest[i], q[i + |q| - |rest|];
         x.id == y.id && x.user == y.user && x.price == y.price && x.qty <= y.qty && (y.qty > 0 ==> x.qty > 0) && (i > 0 ==> x == y)
  }

  lemma SweepLeavesBack(isBid: bool, q: seq<Resting>, limit: nat, qty: uint32)
    ensures IsBackOf(Sweep(isBid, q, limit, qty).rest, q)
  {
    RestFollowsTrades(isBid, q, limit, qty);
    TradesFollowQueue(isBid, q, limit, qty);
    var s := Sweep(isBid, q, limit, qty);
    if |s.trades| > 0 && !s.trades[|s.trades| - 1].makerDone {
      assert Hits(isBid, limit, s.trades[|s.trades| - 1], q[|s.trades| - 1]);
    }
  }

  lemma BackKeeps(isBid: bool, rest: seq<Resting>, q: seq<Resting>)
    requires IsBackOf(rest, q) && SortedSide(isBid, q) && DistinctIds(q)
    ensures SortedSide(isBid, rest) && DistinctIds(rest) && (AllPositive(q) ==> AllPositive(rest))
    ensures rest != [] ==> !Better(isBid, rest[0].price, q[0].price)
  {
    var d := |q| - |rest|;
    assert forall i :: 0 <= i < |rest| ==> rest[i].id == q[i + d].id && rest[i].price == q[i + d].price;
  }

  lemma BackDisjoint(rest: seq<Resting>, q: seq<Resting>, other: seq<Resting>)
    requires IsBackOf(rest, q) && Disjoint(q, other)
    ensures Disjoint(rest, other)
  {
    var d := |q| - |rest|;
    assert forall i :: 0 <= i < |rest| ==> rest[i].id == q[i + d].id;
  }

  // An order with something left has met everything within its limit.
  lemma {:induction false} SweepStops(isBid: bool, q: seq<Resting>, limit: nat, qty: uint32)
    ensures var s := Sweep(isBid, q, limit, qty);
      s.left > 0 && s.rest != [] ==> !Crosses(isBid, limit, s.rest[0].price)
  {
    if q != [] && Crosses(isBid, limit, q[0].price) && Min(q[0].qty, qty) < qty {
      SweepStops(isBid, q[1..], limit, qty - Min(q[0].qty, qty));
    }
  }

  lemma InsertAt(isBid: bool, q: seq<Resting>, r: Resting)
    ensures var k, s := PlaceOf(isBid, q, r.price), Insert(isBid, q, r);
      |s| == |q| + 1 && forall i :: 0 <= i < |s| ==> s[i] == if i < k then q[i] else if i == k then r else q[i - 1]
  {
  }

  lemma InsertSorted(isBid: bool, q: seq<Resting>, r: Resting)
    requires SortedSide(isBid, q)
    ensures SortedSide(isBid, Insert(isBid, q, r))
  {
    InsertAt(isBid, q, r);
    var k := PlaceOf(isBid, q, r.price);
    forall i | k <= i < |q|
      ensures Better(isBid, r.price, q[i].price)
    {
      assert i == k || !Better(isBid, q[i].price, q[k].price);
    }
  }

  lemma PositiveWith(q: seq<Resting>, k: nat, r: Resting)
    requires k <= |q|
    ensures AllPositive(With(q, k, r)) <==> AllPositive(q) && r.qty > 0
  {
    var s := With(q, k, r);
    assert s[k] == r;
    assert forall i :: 0 <= i < k ==> s[i] == q[i];
    assert forall i :: k <= i < |q| ==> s[i + 1] == q[i];
    assert forall i :: k < i < |s| ==> s[i] == q[i - 1];
  }

  lemma InsertPositive(isBid: bool, q: seq<Resting>, r: Resting)
    ensures AllPositive(Insert(isBid, q, r)) <==> AllPositive(q) && r.qty > 0
  {
    hide With, AllPositive;
    PositiveWith(q, PlaceOf(isBid, q, r.price), r);
  }

  lemma InsertDistinct(isBid: bool, q: seq<Resting>, r: Resting)
    requires DistinctIds(q) && forall i :: 0 <= i < |q| ==> q[i].id != r.id
    ensures DistinctIds(Insert(isBid, q, r))
  {
    InsertAt(isBid, q, r);
  }

  lemma InsertKeeps(isBid: bool, q: seq<Resting>, r: Resting)
    requires SortedSide(isBid, q) && DistinctIds(q) && forall i :: 0 <= i < |q| ==> q[i].id != r.id
    ensures SortedSide(isBid, Insert(isBid, q, r)) && DistinctIds(Insert(isBid, q, r))
    ensures AllPositive(Insert(isBid, q, r)) <==> AllPositive(q) && r.qty > 0
  {
    hide SortedSide, DistinctIds, AllPositive, Insert;
    InsertSorted(isBid, q, r);
    InsertDistinct(isBid, q, r);
    InsertPositive(isBid, q, r);
  }

  lemma RemoveKeeps(isBid: bool, q: seq<Resting>, k: nat)
    requires SortedSide(isBid, q) && DistinctIds(q) && k < |q|
    ensures SortedSide(isBid, Without(q, k)) && DistinctIds(Without(q, k))
    ensures AllPositive(q) ==> AllPositive(Without(q, k))
    ensures forall i :: 0 <= i < |Without(q, k)| ==> Without(q, k)[i].id != q[k].id
  {
    var s := Without(q, k);
    assert forall i :: 0 <= i < |s| ==> s[i] == q[if i < k then i else i + 1];
  }

  // ---- one request ----

  lemma TradesIffMeets(b: Book, o: NewOrder)
    ensures SweepOf(b, o).trades != [] <==> Meets(b, o)
    ensures !Meets(b, o) ==> SweepOf(b, o) == SweepResult(b.Side(!o.isBuy), o.qty, [])
  {
  }

  lemma AbsentFromSides(b: Book, id: nat)
    requires !b.Has(id)
    ensures IndexOf(b.bids, id) == |b.bids| && IndexOf(b.asks, id) == |b.asks|
    ensures forall i :: 0 <= i < |b.bids| ==> b.bids[i].id != id
    ensures forall i :: 0 <= i < |b.asks| ==> b.asks[i].id != id
  {
  }

  // The two sides after an accepted order: the swept one and the one it may rest on.
  lemma AddSides(build: Build, b: Book, o: NewOrder)
    requires !b.Has(o.id)
    ensures var e, s := Add(build, b, o), SweepOf(b, o);
      && e.outcome == Accepted && e.trades == s.trades
      && e.book.Side(!o.isBuy) == s.rest
      && e.book.Side(o.isBuy) ==
           if RestsAfter(b, o) then Insert(o.isBuy, b.Side(o.isBuy), Resting(o.id, o.user, o.price, s.left)) else b.Side(o.isBuy)
  {
    AbsentFromSides(b, o.id);
  }

  ghost predicate FitsAgainst(isBid: bool, q: seq<Resting>, other: seq<Resting>) {
    SortedSide(isBid, q) && DistinctIds(q) && Disjoint(q, other)
  }

  lemma SidesMake(b: Book, isBuy: bool)
    ensures WellFormed(b) <==>
      FitsAgainst(isBuy, b.Side(isBuy), b.Side(!isBuy)) && FitsAgainst(!isBuy, b.Side(!isBuy), b.Side(isBuy))
  {
  }

  lemma InsertDisjoint(isBid: bool, q: seq<Resting>, r: Resting, other: seq<Resting>)
    requires Disjoint(q, other) && forall i :: 0 <= i < |other| ==> other[i].id != r.id
    ensures Disjoint(Insert(isBid, q, r), other) && Disjoint(other, Insert(isBid, q, r))
  {
    InsertAt(isBid, q, r);
  }

  lemma AddKeepsWellFormed(build: Build, b: Book, o: NewOrder)
    requires WellFormed(b)
    ensures WellFormed(Add(build, b, o).book)
  {
    hide Add, Insert, Sweep, SortedSide, DistinctIds, Disjoint, IsBackOf, WellFormed;
    if !b.Has(o.id) {
      AddSides(build, b, o);
      AbsentFromSides(b, o.id);
      SidesMake(b, o.isBuy);
      var own, opposite, rest := b.Side(o.isBuy), b.Side(!o.isBuy), SweepOf(b, o).rest;
      SweepLeavesBack(!o.isBuy, opposite, o.price, o.qty);
      BackKeeps(!o.isBuy, rest, opposite);
      BackDisjoint(rest, opposite, own);
      DisjointSwaps(rest, own);
      if RestsAfter(b, o) {
        var r := Resting(o.id, o.user, o.price, SweepOf(b, o).left);
        InsertKeeps(o.isBuy, own, r);
        BackIds(rest, opposite, o.id);
        InsertDisjoint(o.isBuy, own, r, rest);
      }
      SidesMake(Add(build, b, o).book, o.isBuy);
    } else {
      DuplicateRejected(build, b, o);
    }
  }

  lemma DisjointSwaps(q1: seq<Resting>, q2: seq<Resting>)
    requires Disjoint(q1, q2)
    ensures Disjoint(q2, q1)
  {
  }

  lemma BackIds(rest: seq<Resting>, q: seq<Resting>, id: nat)
    requires IsBackOf(rest, q) && forall i :: 0 <= i < |q| ==> q[i].id != id
    ensures forall i :: 0 <= i < |rest| ==> rest[i].id != id
  {
    forall i | 0 <= i < |rest|
      ensures rest[i].id != id
    {
      assert rest[i].id == q[i + |q| - |rest|].id;
    }
  }

  lemma DuplicateRejected(build: Build, b: Book, o: NewOrder)
    requires b.Has(o.id)
    ensures Add(build, b, o) == Effect(b, Rejected([OrderIdAlreadyPresent]), [], [])
  {
  }

  // What is left of an order is placed only behind the last price it could not match.
  lemma AddKeepsUncrossed(build: Build, b: Book, o: NewOrder)
    requires WellFormed(b) && Uncrossed(b)
    ensures Uncrossed(Add(build, b, o).book)
  {
    hide Add, Sweep, Disjoint, DistinctIds, IsBackOf;
    if !b.Has(o.id) {
      AddSides(build, b, o);
      var own, opposite, s := b.Side(o.isBuy), b.Side(!o.isBuy), SweepOf(b, o);
      SweepLeavesBack(!o.isBuy, opposite, o.price, o.qty);
      BackKeeps(!o.isBuy, s.rest, opposite);
      SweepStops(!o.isBuy, opposite, o.price, o.qty);
      TradesIffMeets(b, o);
      BackEmpty(s.rest, opposite);
      if RestsAfter(b, o) {
        InsertAt(o.isBuy, own, Resting(o.id, o.user, o.price, s.left));
      }
    } else {
      DuplicateRejected(build, b, o);
    }
  }

  lemma BackEmpty(rest: seq<Resting>, q: seq<Resting>)
    requires IsBackOf(rest, q)
    ensures q == [] ==> rest == []
  {
  }

  lemma AddPositive(build: Build, b: Book, o: NewOrder)
    requires WellFormed(b) && Positive(b)
    ensures Positive(Add(build, b, o).book) <==> o.qty > 0 || b.Has(o.id) || Meets(b, o)
  {
    hide Add, Sweep, Insert, Disjoint, DistinctIds, SortedSide, IsBackOf, WellFormed, AllPositive;
    if !b.Has(o.id) {
      AddSides(build, b, o);
      AbsentFromSides(b, o.id);
      SidesMake(b, o.isBuy);
      var own, opposite, s := b.Side(o.isBuy), b.Side(!o.isBuy), SweepOf(b, o);
      SweepLeavesBack(!o.isBuy, opposite, o.price, o.qty);
      BackKeeps(!o.isBuy, s.rest, opposite);
      TradesIffMeets(b, o);
      if RestsAfter(b, o) {
        InsertKeeps(o.isBuy, own, Resting(o.id, o.user, o.price, s.left));
      }
    } else {
      DuplicateRejected(build, b, o);
    }
  }

  lemma RemoveFits(isBid: bool, q: seq<Resting>, k: nat, other: seq<Resting>)
    requires FitsAgainst(isBid, q, other) && k < |q|
    ensures FitsAgainst(isBid, Without(q, k), other) && Disjoint(other, Without(q, k))
    ensures AllPositive(q) ==> AllPositive(Without(q, k))
    ensures Without(q, k) != [] ==> !Better(isBid, Without(q, k)[0].price, q[0].price)
    ensures forall i :: 0 <= i < |Without(q, k)| ==> Without(q, k)[i].id != q[k].id
  {
    RemoveKeeps(isBid, q, k);
    var s := Without(q, k);
    assert forall i :: 0 <= i < |s| ==> s[i] == q[if i < k then i else i + 1];
  }

  lemma CancelKeeps(b: Book, c: CancelRequest)
    requires WellFormed(b)
    ensures var e := Cancel(b, c);
      && WellFormed(e.book)
      && (Uncrossed(b) ==> Uncrossed(e.book))
      && (Positive(b) ==> Positive(e.book))
      && (e.outcome.Accepted? ==> !e.book.Has(c.id))
  {
    hide SortedSide, DistinctIds, Disjoint, Without;
    var w := Locate(b, c.id);
    if w.Some? {
      var (isBuy, k) := w.value;
      SidesMake(b, isBuy);
      RemoveFits(isBuy, b.Side(isBuy), k, b.Side(!isBuy));
      SidesMake(b.WithSide(isBuy, Without(b.Side(isBuy), k)), isBuy);
      OnlyThere(b, isBuy, k);
    }
  }

  // An id found on one side is nowhere on the other.
  lemma OnlyThere(b: Book, isBuy: bool, k: nat)
    requires WellFormed(b) && k < |b.Side(isBuy)|
    ensures var other := b.Side(!isBuy);
      forall i :: 0 <= i < |other| ==> other[i].id != b.Side(isBuy)[k].id
  {
  }

  lemma ResizeKeeps(isBid: bool, q: seq<Resting>, k: nat, qty: uint32, other: seq<Resting>)
    requires FitsAgainst(isBid, q, other) && k < |q|
    ensures FitsAgainst(isBid, q[k := q[k].(qty := qty)], other) && Disjoint(other, q[k := q[k].(qty := qty)])
    ensures AllPositive(q) ==> (AllPositive(q[k := q[k].(qty := qty)]) <==> qty > 0)
  {
    var r := q[k := q[k].(qty := qty)];
    assert r[k].qty == qty;
    assert forall i :: 0 <= i < |q| ==> r[i].id == q[i].id && r[i].price == q[i].price;
  }

  /** An accepted change of price never loses the order: once cancelled, its id is free to be added again. */
  lemma RepriceIsCancelThenAdd(build: Build, b: Book, m: ModifyRequest, isBuy: bool, k: nat)
    requires WellFormed(b) && Locate(b, m.id) == Some((isBuy, k))
    requires ModifyErrors(isBuy, b.Side(isBuy)[k], m) == [] && m.price != b.Side(isBuy)[k].price
    ensures var c := Cancel(b, CancelRequest(m.id, m.user, m.ticker)); var e := Modify(build, b, m);
      && c.outcome == Accepted && WellFormed(c.book) && !c.book.Has(m.id)
      && Add(build, c.book, OrderOf(m)).outcome == Accepted
      && e.outcome == Accepted
      && e.book == Add(build, c.book, OrderOf(m)).book && e.trades == Add(build, c.book, OrderOf(m)).trades
      && (Meets(c.book, OrderOf(m)) <==> Meets(b, OrderOf(m)))
  {
    hide WellFormed, Without;
    NoErrors(isBuy, b.Side(isBuy)[k], m);
    CancelKeeps(b, CancelRequest(m.id, m.user, m.ticker));
  }

  lemma NoErrors(isBuy: bool, x: Resting, m: ModifyRequest)
    requires ModifyErrors(isBuy, x, m) == []
    ensures isBuy == m.isBuy && x.user == m.user && !(m.price == x.price && m.qty == x.qty)
  {
  }

  lemma ModifyKeeps(build: Build, b: Book, m: ModifyRequest)
    requires WellFormed(b)
    ensures var e := Modify(build, b, m);
      && WellFormed(e.book)
      && (Uncrossed(b) ==> Uncrossed(e.book))
      && (Positive(b) ==> (Positive(e.book) <==> Safe(build, b, Change(m))))
  {
    hide SortedSide, DistinctIds, Disjoint, Add, Cancel, NewQty, AllPositive, Meets;
    var w := Locate(b, m.id);
    if w.Some? {
      var (isBuy, k) := w.value;
      var q := b.Side(isBuy);
      if ModifyErrors(isBuy, q[k], m) == [] {
        if m.price == q[k].price {
          SidesMake(b, isBuy);
          ResizeKeeps(isBuy, q, k, NewQty(build, q[k], m), b.Side(!isBuy));
          SidesMake(Modify(build, b, m).book, isBuy);
        } else {
          RepriceIsCancelThenAdd(build, b, m, isBuy, k);
          var c := Cancel(b, CancelRequest(m.id, m.user, m.ticker));
          CancelKeeps(b, CancelRequest(m.id, m.user, m.ticker));
          AddKeepsWellFormed(build, c.book, OrderOf(m));
          if Uncrossed(b) {
            AddKeepsUncrossed(build, c.book, OrderOf(m));
          }
          if Positive(b) {
            AddPositive(build, c.book, OrderOf(m));
          }
        }
      }
    }
  }

  /** A good book stays good under every request, except that a zero quantity can come to rest;
      `Safe` says exactly when it does not. */
  lemma GoodIffSafe(build: Build, b: Book, r: Request)
    requires Good(b)
    ensures Good(Apply(build, b, r).book) <==> Safe(build, b, r)
    ensures WellFormed(Apply(build, b, r).book) && Uncrossed(Apply(build, b, r).book)
  {
    hide WellFormed, Uncrossed, Positive, Add, Modify, Cancel;
    match r
    case New(o) =>
      AddKeepsWellFormed(build, b, o);
      AddKeepsUncrossed(build, b, o);
      AddPositive(build, b, o);
    case Change(m) =>
      ModifyKeeps(build, b, m);
    case Withdraw(c) =>
      CancelKeeps(b, c);
  }

  // ---- what requests mean ----

  /** A modification is accepted exactly from the owner, on the right side, and when it changes something;
      a refused one changes nothing and tells the market nothing. */
  lemma ModifyVerdict(build: Build, b: Book, m: ModifyRequest)
    requires WellFormed(b)
    ensures var e, q := Modify(build, b, m), b.Side(m.isBuy);
      && (e.outcome.Accepted? <==>
            (exists i :: 0 <= i < |q| && q[i].id == m.id && q[i].user == m.user && !(q[i].price == m.price && q[i].qty == m.qty)))
      && (e.outcome.Rejected? ==> e.book == b && e.trades == [] && e.events == [])
  {
    hide Add, Cancel, SortedSide, Disjoint;
    var w := Locate(b, m.id);
    if w.Some? {
      var (isBuy, k) := w.value;
      OnlyThere(b, isBuy, k);
      assert forall i :: 0 <= i < |b.Side(isBuy)| && i != k ==> b.Side(isBuy)[i].id != m.id;
    } else {
      AbsentFromSides(b, m.id);
    }
  }

  /** The queue without the order `id`; the others keep their quantities and their order. */
  function Except(q: seq<Resting>, id: nat): seq<Resting> {
    if q == [] then [] else (if q[0].id == id then [] else [q[0]]) + Except(q[1..], id)
  }

  lemma {:induction false} ExceptAbsent(q: seq<Resting>, id: nat)
    requires forall i :: 0 <= i < |q| ==> q[i].id != id
    ensures Except(q, id) == q
  {
    if q != [] {
      ExceptAbsent(q[1..], id);
    }
  }

  lemma {:induction false} RemoveIsExcept(q: seq<Resting>, k: nat)
    requires DistinctIds(q) && k < |q|
    ensures Without(q, k) == Except(q, q[k].id)
  {
    if k == 0 {
      ExceptAbsent(q[1..], q[0].id);
      assert Without(q, 0) == q[1..];
    } else {
      RemoveIsExcept(q[1..], k - 1);
      assert q[0].id != q[k].id && q[1..][k - 1] == q[k];
      assert Without(q, k) == [q[0]] + Without(q[1..], k - 1);
    }
  }

  /** A cancel is accepted exactly from the owner of a resting order; it takes that order out and touches nothing else. */
  lemma CancelIsDeletion(b: Book, c: CancelRequest)
    requires WellFormed(b)
    ensures var e := Cancel(b, c);
      && (e.outcome.Accepted? <==>
            (exists isBuy, i :: 0 <= i < |b.Side(isBuy)| && b.Side(isBuy)[i].id == c.id && b.Side(isBuy)[i].user == c.user))
      && (e.outcome.Accepted? ==> e.book == Book(Except(b.bids, c.id), Except(b.asks, c.id)))
  {
    hide Without, SortedSide, Disjoint, Except;
    var w := Locate(b, c.id);
    if w.Some? {
      var (isBuy, k) := w.value;
      RemoveIsExcept(b.Side(isBuy), k);
      OnlyThere(b, isBuy, k);
      ExceptAbsent(b.Side(!isBuy), c.id);
      assert b.Side(isBuy)[k].id == c.id;
    } else {
      AbsentFromSides(b, c.id);
    }
  }

  /** An order that met no match, once cancelled, leaves the book as it was before. */
  lemma CancelUndoesAdd(build: Build, b: Book, o: NewOrder, ticker: nat)
    requires WellFormed(b) && !b.Has(o.id) && !Meets(b, o)
    ensures Cancel(Add(build, b, o).book, CancelRequest(o.id, o.user, ticker)).book == b
  {
    hide Add, Insert, Without, WellFormed;
    AddSides(build, b, o);
    AbsentFromSides(b, o.id);
    TradesIffMeets(b, o);
    var q := b.Side(o.isBuy);
    var r := Resting(o.id, o.user, o.price, o.qty);
    InsertFound(o.isBuy, q, r);
  }

  // A new order is found where it was put, and taking it out again undoes the insertion.
  lemma InsertFound(isBid: bool, q: seq<Resting>, r: Resting)
    requires forall i :: 0 <= i < |q| ==> q[i].id != r.id
    ensures var s, k := Insert(isBid, q, r), IndexOf(Insert(isBid, q, r), r.id);
      k < |s| && s[k] == r && Without(s, k) == q
  {
    InsertAt(isBid, q, r);
    var s, k := Insert(isBid, q, r), PlaceOf(isBid, q, r.price);
    assert s[k].id == r.id;
    assert HasId(s, r.id);
    assert Without(s, k) == q;
  }

  /** Sending `x + y` at once, or `x` and then `y` under another id, does the same to the other side. */
  lemma AddAdditive(build: Build, b: Book, whole: NewOrder, first: NewOrder, second: NewOrder)
    requires !b.Has(whole.id) && !b.Has(first.id) && !b.Has(second.id) && first.id != second.id
    requires first.qty > 0 && second.qty > 0 && whole.qty == first.qty + second.qty
    requires whole.isBuy == first.isBuy == second.isBuy && whole.price == first.price == second.price
    ensures var once := Add(build, b, whole);
      var one := Add(build, b, first);
      var two := Add(build, one.book, second);
      && once.book.Side(!whole.isBuy) == two.book.Side(!whole.isBuy)
      && forall id: nat :: Executed(once.trades, id) == Executed(one.trades, id) + Executed(two.trades, id)
  {
    hide Add, Sweep, Insert, Executed;
    AddSides(build, b, whole);
    AddSides(build, b, first);
    StillAbsent(build, b, first, second.id);
    AddSides(build, Add(build, b, first).book, second);
    SweepAdditive(!whole.isBuy, b.Side(!whole.isBuy), whole.price, first.qty, second.qty);
  }

  lemma AbsentInsert(isBid: bool, q: seq<Resting>, r: Resting, id: nat)
    requires r.id != id && forall i :: 0 <= i < |q| ==> q[i].id != id
    ensures forall i :: 0 <= i < |Insert(isBid, q, r)| ==> Insert(isBid, q, r)[i].id != id
  {
    InsertAt(isBid, q, r);
  }

  // A new order brings in no other id than its own.
  lemma StillAbsent(build: Build, b: Book, o: NewOrder, id: nat)
    requires !b.Has(o.id) && !b.Has(id) && id != o.id
    ensures !Add(build, b, o).book.Has(id)
  {
    hide Add, Sweep, IsBackOf, Insert;
    var e, opposite := Add(build, b, o), b.Side(!o.isBuy);
    AddSides(build, b, o);
    AbsentFromSides(b, id);
    SweepLeavesBack(!o.isBuy, opposite, o.price, o.qty);
    BackIds(SweepOf(b, o).rest, opposite, id);
    AbsentInsert(o.isBuy, b.Side(o.isBuy), Resting(o.id, o.user, o.price, SweepOf(b, o).left), id);
    NotOnSides(e.book, o.isBuy, e.book.Side(o.isBuy), e.book.Side(!o.isBuy), id);
  }

  lemma NotOnSides(b: Book, isBuy: bool, own: seq<Resting>, opposite: seq<Resting>, id: nat)
    requires b.Side(isBuy) == own && b.Side(!isBuy) == opposite
    requires forall i :: 0 <= i < |own| ==> own[i].id != id
    requires forall i :: 0 <= i < |opposite| ==> opposite[i].id != id
    ensures !b.Has(id)
  {
  }

  /** As written, a raise gives the order twice its quantity on top of the requested one; it reaches
      the requested quantity only from zero, or when doubling wraps around to zero. */
  lemma RaiseReachesRequest(current: uint32, requested: uint32)
    requires current < requested
    ensures Raised(AS_WRITTEN, current, requested) == (2 * current + requested) % TWO_32
    ensures Raised(AS_WRITTEN, current, requested) == requested <==> current == 0 || current == TWO_31
  {
    var sum := requested + current;
    assert sum % TWO_32 == if sum < TWO_32 then sum else sum - TWO_32;
    var total := current + sum % TWO_32;
    assert total % TWO_32 == if total < TWO_32 then total else total - TWO_32;
    var twice := 2 * current + requested;
    assert twice % TWO_32 == if twice < TWO_32 then twice else if twice < 2 * TWO_32 then twice - TWO_32 else twice - 2 * TWO_32;
  }

  /** An accepted change at the same price keeps every order in its place and changes one quantity. That becomes
      the requested one, except that a raise as written misses it unless doubling gives zero. */
  lemma ModifyInPlace(build: Build, b: Book, m: ModifyRequest, isBuy: bool, k: nat)
    requires WellFormed(b) && Locate(b, m.id) == Some((isBuy, k))
    requires ModifyErrors(isBuy, b.Side(isBuy)[k], m) == [] && m.price == b.Side(isBuy)[k].price
    ensures var e, x := Modify(build, b, m), b.Side(isBuy)[k];
      && e.outcome.Accepted? && e.trades == []
      && (forall s, i :: 0 <= i < |b.Side(s)| && b.Side(s)[i].id != m.id ==> i < |e.book.Side(s)| && e.book.Side(s)[i] == b.Side(s)[i])
      && |e.book.bids| == |b.bids| && |e.book.asks| == |b.asks|
      && e.book.Side(isBuy)[k] == x.(qty := e.book.Side(isBuy)[k].qty)
      && (e.book.Side(isBuy)[k].qty == m.qty <==> !build.raiseAdds || m.qty < x.qty || x.qty == 0 || x.qty == TWO_31)
  {
    hide SortedSide, DistinctIds, Disjoint, Raised;
    var x := b.Side(isBuy)[k];
    NoErrors(isBuy, x, m);
    if x.qty < m.qty {
      RaisedReaches(build, x.qty, m.qty);
    }
  }

  lemma RaisedReaches(build: Build, current: uint32, requested: uint32)
    requires current < requested
    ensures Raised(build, current, requested) == requested <==> !build.raiseAdds || current == 0 || current == TWO_31
  {
    if build.raiseAdds {
      RaiseReachesRequest(current, requested);
      assert Raised(build, current, requested) == Raised(AS_WRITTEN, current, requested);
    }
  }

  /** Asking for 200 in place of 100 leaves 400 resting. */
  lemma RaiseExample()
    ensures var b := Book([Resting(1, 1, 50, 100)], []);
      Modify(AS_WRITTEN, b, ModifyRequest(1, 1, 7, 50, 200, true)).book == Book([Resting(1, 1, 50, 400)], [])
  {
    var b := Book([Resting(1, 1, 50, 100)], []);
    assert b.bids[0].id == 1;
    assert Locate(b, 1) == Some((true, 0));
  }
}
