/** Whole runs of one book: reachable states, the ledger, and time priority. */
module Runs {
  import opened Orders
  import opened Sequences
  import opened Matching
  import opened MatchingLaws
  import opened BookSpec
  import opened BookLaws

  /** The book after a run of requests. */
  function Run(build: Build, b: Book, rs: seq<Request>): Book
    decreases |rs|
  {
    if rs == [] then b else Run(build, Apply(build, b, rs[0]).book, rs[1..])
  }

  /** All trades of a run, in order. */
  function RunTrades(build: Build, b: Book, rs: seq<Request>): seq<Trade>
    decreases |rs|
  {
    if rs == [] then []
    else Apply(build, b, rs[0]).trades + RunTrades(build, Apply(build, b, rs[0]).book, rs[1..])
  }

  ghost predicate SafeRun(build: Build, b: Book, rs: seq<Request>)
    decreases |rs|
  {
    rs == [] || (Safe(build, b, rs[0]) && SafeRun(build, Apply(build, b, rs[0]).book, rs[1..]))
  }

  /** In every reachable book both sides are in price-time order, no id rests twice, nothing rests with
      quantity zero, and the best bid is below the best ask. */
  lemma {:induction false} ReachableIsGood(build: Build, b: Book, rs: seq<Request>)
    requires Good(b) && SafeRun(build, b, rs)
    ensures Good(Run(build, b, rs))
    decreases |rs|
  {
    if rs != [] {
      GoodIffSafe(build, b, rs[0]);
      ReachableIsGood(build, Apply(build, b, rs[0]).book, rs[1..]);
    }
  }

  /** Even when zero quantities come to rest, no reachable book is crossed. */
  lemma {:induction false} NeverCrossed(build: Build, b: Book, rs: seq<Request>)
    requires WellFormed(b) && Uncrossed(b)
    ensures WellFormed(Run(build, b, rs)) && Uncrossed(Run(build, b, rs))
    decreases |rs|
  {
    if rs != [] {
      StepUncrossed(build, b, rs[0]);
      NeverCrossed(build, Apply(build, b, rs[0]).book, rs[1..]);
    }
  }

  lemma StepUncrossed(build: Build, b: Book, r: Request)
    requires WellFormed(b)
    ensures WellFormed(Apply(build, b, r).book) && (Uncrossed(b) ==> Uncrossed(Apply(build, b, r).book))
  {
    hide WellFormed, Uncrossed, Add, Modify, Cancel;
    match r
    case New(o) =>
      AddKeepsWellFormed(build, b, o);
      if Uncrossed(b) {
        AddKeepsUncrossed(build, b, o);
      }
    case Change(m) =>
      ModifyKeeps(build, b, m);
    case Withdraw(c) =>
      CancelKeeps(b, c);
  }

  // ---- the ledger ----

  /** What the book keeper writes down. */
  datatype Entry =
    | Entered(id: nat, isBuy: bool, qty: nat)
    | Matched(maker: nat, taker: nat, qty: nat)
    | Resized(id: nat, was: nat, now: nat)
    | Withdrawn(id: nat, qty: nat)

  function TradeEntries(taker: nat, trades: seq<Trade>): seq<Entry> {
    if trades == [] then []
    else [Matched(trades[0].maker, taker, trades[0].qty)] + TradeEntries(taker, trades[1..])
  }

  function AddEntries(build: Build, b: Book, o: NewOrder): seq<Entry> {
    if Add(build, b, o).outcome.Accepted?
    then [Entered(o.id, o.isBuy, o.qty)] + TradeEntries(o.id, Add(build, b, o).trades)
    else []
  }

  function Entries(build: Build, b: Book, r: Request): seq<Entry> {
    match r
    case New(o) => AddEntries(build, b, o)
    case Withdraw(c) => (
      match Locate(b, c.id)
      case None => []
      case Some((isBuy, k)) =>
        if b.Side(isBuy)[k].user == c.user then [Withdrawn(c.id, b.Side(isBuy)[k].qty)] else [])
    case Change(m) => (
      match Locate(b, m.id)
      case None => []
      case Some((isBuy, k)) =>
        var x := b.Side(isBuy)[k];
        if ModifyErrors(isBuy, x, m) != [] then []
        else if m.price == x.price then [Resized(m.id, x.qty, NewQty(build, x, m))]
        else [Withdrawn(m.id, x.qty)]
             + AddEntries(build, Cancel(b, CancelRequest(m.id, m.user, m.ticker)).book, OrderOf(m)))
  }

  function Journal(build: Build, b: Book, rs: seq<Request>): seq<Entry>
    decreases |rs|
  {
    if rs == [] then [] else Entries(build, b, rs[0]) + Journal(build, Apply(build, b, rs[0]).book, rs[1..])
  }

  function EnteredQty(j: seq<Entry>, id: nat): nat {
    if j == [] then 0
    else (if j[0].Entered? && j[0].id == id then j[0].qty else 0) + EnteredQty(j[1..], id)
  }

  function FilledQty(j: seq<Entry>, id: nat): nat {
    if j == [] then 0
    else (if j[0].Matched? && j[0].maker == id then j[0].qty else 0)
         + (if j[0].Matched? && j[0].taker == id then j[0].qty else 0) + FilledQty(j[1..], id)
  }

  function ResizedBy(j: seq<Entry>, id: nat): int {
    if j == [] then 0
    else (if j[0].Resized? && j[0].id == id then j[0].now - j[0].was else 0) + ResizedBy(j[1..], id)
  }

  function WithdrawnQty(j: seq<Entry>, id: nat): nat {
    if j == [] then 0
    else (if j[0].Withdrawn? && j[0].id == id then j[0].qty else 0) + WithdrawnQty(j[1..], id)
  }

  function RestingQty(b: Book, id: nat): nat {
    QtyIn(b.bids, id) + QtyIn(b.asks, id)
  }

  function Net(j: seq<Entry>, id: nat): int {
    EnteredQty(j, id) + ResizedBy(j, id) - FilledQty(j, id) - WithdrawnQty(j, id)
  }

  lemma {:induction false} NetAppend(j: seq<Entry>, k: seq<Entry>, id: nat)
    ensures Net(j + k, id) == Net(j, id) + Net(k, id)
  {
    if j == [] {
      assert j + k == k;
    } else {
      assert (j + k)[1..] == j[1..] + k;
      NetAppend(j[1..], k, id);
    }
  }

  lemma {:induction false} QtyInAppend(q: seq<Resting>, r: seq<Resting>, id: nat)
    ensures QtyIn(q + r, id) == QtyIn(q, id) + QtyIn(r, id)
  {
    if q == [] {
      assert q + r == r;
    } else {
      assert (q + r)[1..] == q[1..] + r;
      QtyInAppend(q[1..], r, id);
    }
  }

  lemma QtyInInsert(isBid: bool, q: seq<Resting>, r: Resting, id: nat)
    ensures QtyIn(Insert(isBid, q, r), id) == QtyIn(q, id) + if r.id == id then r.qty else 0
  {
    var k := PlaceOf(isBid, q, r.price);
    assert Insert(isBid, q, r) == q[..k] + ([r] + q[k..]);
    QtyInAppend(q[..k], [r] + q[k..], id);
    QtyInAppend([r], q[k..], id);
    QtyInAppend(q[..k], q[k..], id);
    assert q == q[..k] + q[k..];
  }

  lemma QtyInRemove(q: seq<Resting>, k: nat, id: nat)
    requires k < |q|
    ensures QtyIn(q, id) == QtyIn(Without(q, k), id) + if q[k].id == id then q[k].qty else 0
  {
    QtyInAppend(q[..k], [q[k]] + q[k + 1..], id);
    QtyInAppend([q[k]], q[k + 1..], id);
    QtyInAppend(q[..k], q[k + 1..], id);
    assert q == q[..k] + ([q[k]] + q[k + 1..]);
  }

  lemma QtyInResize(q: seq<Resting>, k: nat, qty: uint32, id: nat)
    requires k < |q|
    ensures var r := q[k := q[k].(qty := qty)];
      QtyIn(r, id) - QtyIn(q, id) == if q[k].id == id then qty - q[k].qty else 0
  {
    var r := q[k := q[k].(qty := qty)];
    QtyInRemove(q, k, id);
    QtyInRemove(r, k, id);
    assert Without(q, k) == Without(r, k);
  }

  function EntryNet(e: Entry, id: nat): int {
    match e
    case Entered(i, _, qty) => if i == id then qty else 0
    case Matched(maker, taker, qty) => 0 - (if maker == id then qty else 0) - (if taker == id then qty else 0)
    case Resized(i, was, now) => if i == id then now - was else 0
    case Withdrawn(i, qty) => if i == id then 0 - qty else 0
  }

  lemma NetOne(e: Entry, id: nat)
    ensures Net([e], id) == EntryNet(e, id)
  {
    var j := [e];
    assert j[1..] == [];
    assert EnteredQty(j[1..], id) == 0 && ResizedBy(j[1..], id) == 0;
    assert FilledQty(j[1..], id) == 0 && WithdrawnQty(j[1..], id) == 0;
  }

  lemma {:induction false} NetTrades(taker: nat, trades: seq<Trade>, id: nat)
    ensures Net(TradeEntries(taker, trades), id) == -(Executed(trades, id) + if taker == id then Traded(trades) else 0)
  {
    if trades != [] {
      NetTrades(taker, trades[1..], id);
      var e := Matched(trades[0].maker, taker, trades[0].qty);
      NetAppend([e], TradeEntries(taker, trades[1..]), id);
      NetOne(e, id);
    }
  }

  // What leaves the queue under an id is what the trades say was executed.
  lemma {:induction false} SweepTakes(isBid: bool, q: seq<Resting>, limit: nat, qty: uint32, id: nat)
    ensures var s := Sweep(isBid, q, limit, qty);
      QtyIn(q, id) == QtyIn(s.rest, id) + Executed(s.trades, id) && qty == s.left + Traded(s.trades)
  {
    var s := Sweep(isBid, q, limit, qty);
    if q != [] && Crosses(isBid, limit, q[0].price) {
      var f := Min(q[0].qty, qty);
      if f < qty {
        SweepTakes(isBid, q[1..], limit, qty - f, id);
        assert s.trades[1..] == Sweep(isBid, q[1..], limit, qty - f).trades;
      } else if q[0].qty > f {
        assert s.rest[1..] == q[1..];
      }
    }
  }

  lemma AddLedger(build: Build, b: Book, o: NewOrder, id: nat)
    ensures RestingQty(Add(build, b, o).book, id) == RestingQty(b, id) + Net(AddEntries(build, b, o), id)
  {
    hide Add, Sweep, Insert;
    if b.Has(o.id) {
      DuplicateRejected(build, b, o);
    } else {
      AddSides(build, b, o);
      var s := SweepOf(b, o);
      var j := TradeEntries(o.id, s.trades);
      SweepTakes(!o.isBuy, b.Side(!o.isBuy), o.price, o.qty, id);
      NetTrades(o.id, s.trades, id);
      NetOne(Entered(o.id, o.isBuy, o.qty), id);
      NetAppend([Entered(o.id, o.isBuy, o.qty)], j, id);
      TradesIffMeets(b, o);
      if RestsAfter(b, o) {
        QtyInInsert(o.isBuy, b.Side(o.isBuy), Resting(o.id, o.user, o.price, s.left), id);
      }
    }
  }

  lemma ChangeLedger(build: Build, b: Book, m: ModifyRequest, id: nat)
    ensures RestingQty(Modify(build, b, m).book, id) == RestingQty(b, id) + Net(Entries(build, b, Change(m)), id)
  {
    hide Add, Without, AddEntries, NewQty, ModifyErrors, Net, QtyIn, IndexOf;
    var w := Locate(b, m.id);
    if w.Some? {
      var (isBuy, k) := w.value;
      var x := b.Side(isBuy)[k];
      NetNothing(id);
      if ModifyErrors(isBuy, x, m) == [] {
        NoErrors(isBuy, x, m);
        if m.price == x.price {
          QtyInResize(b.Side(isBuy), k, NewQty(build, x, m), id);
          NetOne(Resized(m.id, x.qty, NewQty(build, x, m)), id);
        } else {
          var c := Cancel(b, CancelRequest(m.id, m.user, m.ticker));
          QtyInRemove(b.Side(isBuy), k, id);
          AddLedger(build, c.book, OrderOf(m), id);
          NetOne(Withdrawn(m.id, x.qty), id);
          NetAppend([Withdrawn(m.id, x.qty)], AddEntries(build, c.book, OrderOf(m)), id);
        }
      }
    } else {
      NetNothing(id);
    }
  }

  lemma NetNothing(id: nat)
    ensures Net([], id) == 0
  {
  }

  lemma StepLedger(build: Build, b: Book, r: Request, id: nat)
    ensures RestingQty(Apply(build, b, r).book, id) == RestingQty(b, id) + Net(Entries(build, b, r), id)
  {
    hide Add, Modify, Without, AddEntries, NewQty, ModifyErrors;
    match r
    case New(o) =>
      AddLedger(build, b, o, id);
    case Withdraw(c) =>
      var w := Locate(b, c.id);
      if w.Some? {
        QtyInRemove(b.Side(w.value.0), w.value.1, id);
        NetOne(Withdrawn(c.id, b.Side(w.value.0)[w.value.1].qty), id);
      }
    case Change(m) =>
      ChangeLedger(build, b, m, id);
  }

  /** Over any run and for every id: what was entered and added by changes is filled, withdrawn or still resting. */
  lemma {:induction false} Ledger(build: Build, b: Book, rs: seq<Request>, id: nat)
    ensures var j := Journal(build, b, rs);
      RestingQty(b, id) + EnteredQty(j, id) + ResizedBy(j, id)
      == FilledQty(j, id) + WithdrawnQty(j, id) + RestingQty(Run(build, b, rs), id)
    decreases |rs|
  {
    if rs != [] {
      StepLedger(build, b, rs[0], id);
      Ledger(build, Apply(build, b, rs[0]).book, rs[1..], id);
      NetAppend(Entries(build, b, rs[0]), Journal(build, Apply(build, b, rs[0]).book, rs[1..]), id);
    }
  }

  // ---- bought and sold ----

  /** Running totals: on which side each id was last entered, and what was filled on either side. */
  datatype Tally = Tally(side: map<nat, bool>, bought: nat, sold: nat)

  function FilledOn(side: map<nat, bool>, id: nat, isBuy: bool, qty: nat): nat {
    if id in side && side[id] == isBuy then qty else 0
  }

  function Note(t: Tally, e: Entry): Tally {
    match e
    case Entered(id, isBuy, _) => t.(side := t.side[id := isBuy])
    case Matched(maker, taker, qty) =>
      t.(bought := t.bought + FilledOn(t.side, maker, true, qty) + FilledOn(t.side, taker, true, qty),
         sold := t.sold + FilledOn(t.side, maker, false, qty) + FilledOn(t.side, taker, false, qty))
    case Resized(_, _, _) => t
    case Withdrawn(_, _) => t
  }

  function Count(t: Tally, j: seq<Entry>): Tally
    decreases |j|
  {
    if j == [] then t else Count(Note(t, j[0]), j[1..])
  }

  lemma {:induction false} CountAppend(t: Tally, j: seq<Entry>, k: seq<Entry>)
    ensures Count(t, j + k) == Count(Count(t, j), k)
    decreases |j|
  {
    if j == [] {
      assert j + k == k;
    } else {
      assert (j + k)[1..] == j[1..] + k;
      CountAppend(Note(t, j[0]), j[1..], k);
    }
  }

  predicate Registered(side: map<nat, bool>, q: seq<Resting>, isBuy: bool) {
    forall i :: 0 <= i < |q| ==> q[i].id in side && side[q[i].id] == isBuy
  }

  predicate Registers(t: Tally, b: Book) {
    Registered(t.side, b.bids, true) && Registered(t.side, b.asks, false) && t.bought == t.sold
  }

  lemma {:induction false} TradesBalance(t: Tally, taker: nat, isBuy: bool, trades: seq<Trade>)
    requires taker in t.side && t.side[taker] == isBuy && t.bought == t.sold
    requires forall i :: 0 <= i < |trades| ==> trades[i].maker in t.side && t.side[trades[i].maker] == !isBuy
    ensures Count(t, TradeEntries(taker, trades)).side == t.side
    ensures Count(t, TradeEntries(taker, trades)).bought == Count(t, TradeEntries(taker, trades)).sold == t.bought + Traded(trades)
    decreases |trades|
  {
    if trades != [] {
      var e := Matched(trades[0].maker, taker, trades[0].qty);
      assert TradeEntries(taker, trades)[1..] == TradeEntries(taker, trades[1..]);
      TradesBalance(Note(t, e), taker, isBuy, trades[1..]);
    }
  }

  lemma AddBalance(build: Build, b: Book, o: NewOrder, t: Tally)
    requires WellFormed(b) && Registers(t, b)
    ensures Registers(Count(t, AddEntries(build, b, o)), Add(build, b, o).book)
    ensures Count(t, AddEntries(build, b, o)).bought == t.bought + Traded(Add(build, b, o).trades)
  {
    hide Add, Sweep, Insert, WellFormed, IsBackOf, Registered, TradeEntries;
    if b.Has(o.id) {
      DuplicateRejected(build, b, o);
    } else {
      AddSides(build, b, o);
      AbsentFromSides(b, o.id);
      var s, own, opposite := SweepOf(b, o), b.Side(o.isBuy), b.Side(!o.isBuy);
      var u := Note(t, Entered(o.id, o.isBuy, o.qty));
      SidesRegistered(t, b, o.isBuy);
      StillRegistered(t.side, opposite, o.id, !o.isBuy, o.isBuy);
      StillRegistered(t.side, own, o.id, o.isBuy, o.isBuy);
      MakersRegistered(u.side, opposite, o, s.trades);
      TradesBalance(u, o.id, o.isBuy, s.trades);
      assert AddEntries(build, b, o)[1..] == TradeEntries(o.id, s.trades);
      SweepLeavesBack(!o.isBuy, opposite, o.price, o.qty);
      BackRegistered(u.side, s.rest, opposite, !o.isBuy);
      InsertRegistered(u.side, own, Resting(o.id, o.user, o.price, s.left), o.isBuy);
    }
  }

  lemma StillRegistered(side: map<nat, bool>, q: seq<Resting>, id: nat, isBuy: bool, newSide: bool)
    requires Registered(side, q, isBuy) && forall i :: 0 <= i < |q| ==> q[i].id != id
    ensures Registered(side[id := newSide], q, isBuy)
  {
  }

  lemma MakersRegistered(side: map<nat, bool>, q: seq<Resting>, o: NewOrder, trades: seq<Trade>)
    requires Registered(side, q, !o.isBuy) && trades == Sweep(!o.isBuy, q, o.price, o.qty).trades
    ensures forall i :: 0 <= i < |trades| ==> trades[i].maker in side && side[trades[i].maker] == !o.isBuy
  {
    TradesFollowQueue(!o.isBuy, q, o.price, o.qty);
    forall i | 0 <= i < |trades|
      ensures trades[i].maker in side && side[trades[i].maker] == !o.isBuy
    {
      assert Hits(!o.isBuy, o.price, trades[i], q[i]);
    }
  }

  lemma InsertRegistered(side: map<nat, bool>, q: seq<Resting>, r: Resting, isBuy: bool)
    requires Registered(side, q, isBuy) && r.id in side && side[r.id] == isBuy
    ensures Registered(side, Insert(isBuy, q, r), isBuy)
  {
    InsertAt(isBuy, q, r);
  }

  lemma SidesRegistered(t: Tally, b: Book, isBuy: bool)
    requires Registers(t, b)
    ensures Registered(t.side, b.Side(isBuy), isBuy) && Registered(t.side, b.Side(!isBuy), !isBuy)
  {
  }

  lemma BackRegistered(side: map<nat, bool>, rest: seq<Resting>, q: seq<Resting>, isBuy: bool)
    requires IsBackOf(rest, q) && Registered(side, q, isBuy)
    ensures Registered(side, rest, isBuy)
  {
    assert forall i :: 0 <= i < |rest| ==> rest[i].id == q[i + |q| - |rest|].id;
  }

  lemma RemoveRegistered(side: map<nat, bool>, q: seq<Resting>, k: nat, isBuy: bool)
    requires k < |q| && Registered(side, q, isBuy)
    ensures Registered(side, Without(q, k), isBuy)
  {
  }

  lemma CancelBalance(b: Book, c: CancelRequest, t: Tally)
    requires Registers(t, b)
    ensures Registers(t, Cancel(b, c).book) && Cancel(b, c).trades == []
  {
    hide Without;
    var w := Locate(b, c.id);
    if w.Some? {
      SidesRegistered(t, b, w.value.0);
      RemoveRegistered(t.side, b.Side(w.value.0), w.value.1, w.value.0);
    }
  }

  lemma ChangeBalance(build: Build, b: Book, m: ModifyRequest, t: Tally)
    requires WellFormed(b) && Registers(t, b)
    ensures Registers(Count(t, Entries(build, b, Change(m))), Modify(build, b, m).book)
    ensures Count(t, Entries(build, b, Change(m))).bought == t.bought + Traded(Modify(build, b, m).trades)
  {
    hide Add, Cancel, AddEntries, WellFormed, ModifyErrors, NewQty, Registered;
    var w := Locate(b, m.id);
    if w.Some? {
      var (isBuy, k) := w.value;
      var x := b.Side(isBuy)[k];
      SidesRegistered(t, b, isBuy);
      if ModifyErrors(isBuy, x, m) == [] && m.price != x.price {
        var c := CancelRequest(m.id, m.user, m.ticker);
        CancelKeeps(b, c);
        CancelBalance(b, c, t);
        AddBalance(build, Cancel(b, c).book, OrderOf(m), t);
        CountAppend(t, [Withdrawn(m.id, x.qty)], AddEntries(build, Cancel(b, c).book, OrderOf(m)));
        assert [Withdrawn(m.id, x.qty)][1..] == [];
      } else if ModifyErrors(isBuy, x, m) == [] {
        var e := Resized(m.id, x.qty, NewQty(build, x, m));
        assert [e][1..] == [];
        ResizeRegistered(t.side, b.Side(isBuy), k, NewQty(build, x, m), isBuy);
      }
    }
  }

  lemma ResizeRegistered(side: map<nat, bool>, q: seq<Resting>, k: nat, qty: uint32, isBuy: bool)
    requires Registered(side, q, isBuy) && k < |q|
    ensures Registered(side, q[k := q[k].(qty := qty)], isBuy)
  {
    var r := q[k := q[k].(qty := qty)];
    assert forall i :: 0 <= i < |q| ==> r[i].id == q[i].id;
  }

  lemma StepBalance(build: Build, b: Book, r: Request, t: Tally)
    requires WellFormed(b) && Registers(t, b)
    ensures Registers(Count(t, Entries(build, b, r)), Apply(build, b, r).book)
    ensures Count(t, Entries(build, b, r)).bought == t.bought + Traded(Apply(build, b, r).trades)
  {
    hide Add, Cancel, Modify, AddEntries, WellFormed, ModifyErrors, NewQty, Registered;
    match r
    case New(o) =>
      AddBalance(build, b, o, t);
    case Withdraw(c) =>
      CancelBalance(b, c, t);
      assert Entries(build, b, r) == [] || (Entries(build, b, r)[1..] == [] && Entries(build, b, r)[0].Withdrawn?);
    case Change(m) =>
      ChangeBalance(build, b, m, t);
  }

  lemma {:induction false} TradedAppend(x: seq<Trade>, y: seq<Trade>)
    ensures Traded(x + y) == Traded(x) + Traded(y)
  {
    if x == [] {
      assert x + y == y;
    } else {
      assert (x + y)[1..] == x[1..] + y;
      TradedAppend(x[1..], y);
    }
  }

  /** Over any run, what buyers were filled for is what sellers were filled for, and both are all that was traded. */
  lemma {:induction false} BoughtIsSold(build: Build, b: Book, rs: seq<Request>, t: Tally)
    requires WellFormed(b) && Registers(t, b)
    ensures var end := Count(t, Journal(build, b, rs));
      end.bought == end.sold == t.bought + Traded(RunTrades(build, b, rs))
    decreases |rs|
  {
    if rs != [] {
      hide WellFormed, Entries, Apply;
      StepBalance(build, b, rs[0], t);
      StepWellFormed(build, b, rs[0]);
      var next := Apply(build, b, rs[0]).book;
      BoughtIsSold(build, next, rs[1..], Count(t, Entries(build, b, rs[0])));
      CountAppend(t, Entries(build, b, rs[0]), Journal(build, next, rs[1..]));
      TradedAppend(Apply(build, b, rs[0]).trades, RunTrades(build, next, rs[1..]));
    }
  }

  lemma StepWellFormed(build: Build, b: Book, r: Request)
    requires WellFormed(b)
    ensures WellFormed(Apply(build, b, r).book)
  {
    StepUncrossed(build, b, r);
  }
}
