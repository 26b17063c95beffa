/** Time priority over whole runs. */
module Priority {
  import opened Orders
  import opened Sequences
  import opened Matching
  import opened MatchingLaws
  import opened BookSpec
  import opened BookLaws
  import opened Runs

  /** In a queue, the order `x` stands ahead of the order `y` at the same price. */
  ghost predicate AheadIn(q: seq<Resting>, x: nat, y: nat) {
    exists i, j :: 0 <= i < j < |q| && q[i].id == x && q[j].id == y && q[i].price == q[j].price
  }

  ghost predicate Ahead(b: Book, x: nat, y: nat) {
    AheadIn(b.bids, x, y) || AheadIn(b.asks, x, y)
  }

  /** The request takes the order `id` out of its place: it is cancelled, or moved to another price. */
  ghost predicate Displaces(build: Build, b: Book, r: Request, id: nat) {
    match r
    case New(_) => false
    case Withdraw(c) => c.id == id && Cancel(b, c).outcome.Accepted?
    case Change(m) => m.id == id && Modify(build, b, m).outcome.Accepted? && Moves(b, m)
  }

  ghost predicate Moves(b: Book, m: ModifyRequest) {
    var w := Locate(b, m.id);
    w.Some? && b.Side(w.value.0)[w.value.1].price != m.price
  }

  ghost predicate Undisturbed(build: Build, b: Book, rs: seq<Request>, id: nat)
    decreases |rs|
  {
    rs == [] || (!Displaces(build, b, rs[0], id) && Undisturbed(build, Apply(build, b, rs[0]).book, rs[1..], id))
  }

  /** The order `x` has been filled completely in one of the first `n` trades. */
  ghost predicate DoneBefore(trades: seq<Trade>, n: nat, x: nat) {
    exists i :: 0 <= i < n && i < |trades| && trades[i].maker == x && trades[i].makerDone
  }

  /** The order `y` is not filled before `x` is filled completely. */
  ghost predicate InTurn(trades: seq<Trade>, x: nat, y: nat) {
    forall j :: 0 <= j < |trades| && trades[j].maker == y ==> DoneBefore(trades, j, x)
  }

  // ---- what keeps one order ahead of another ----

  lemma AheadInsert(isBid: bool, q: seq<Resting>, r: Resting, x: nat, y: nat)
    requires AheadIn(q, x, y)
    ensures AheadIn(Insert(isBid, q, r), x, y)
  {
    var i, j :| 0 <= i < j < |q| && q[i].id == x && q[j].id == y && q[i].price == q[j].price;
    var k, s := PlaceOf(isBid, q, r.price), Insert(isBid, q, r);
    var i', j' := if i < k then i else i + 1, if j < k then j else j + 1;
    assert s[i'] == q[i] && s[j'] == q[j];
  }

  lemma AheadRemove(q: seq<Resting>, k: nat, x: nat, y: nat)
    requires AheadIn(q, x, y) && k < |q| && q[k].id != x && q[k].id != y
    ensures AheadIn(Without(q, k), x, y)
  {
    var i, j :| 0 <= i < j < |q| && q[i].id == x && q[j].id == y && q[i].price == q[j].price;
    var s := Without(q, k);
    var i', j' := if i < k then i else i - 1, if j < k then j else j - 1;
    assert s[i'] == q[i] && s[j'] == q[j];
  }

  lemma AheadResize(q: seq<Resting>, k: nat, qty: uint32, x: nat, y: nat)
    requires AheadIn(q, x, y) && k < |q|
    ensures AheadIn(q[k := q[k].(qty := qty)], x, y)
  {
    var i, j :| 0 <= i < j < |q| && q[i].id == x && q[j].id == y && q[i].price == q[j].price;
    var s := q[k := q[k].(qty := qty)];
    assert s[i].id == x && s[j].id == y && s[i].price == s[j].price;
  }

  // A sweep over the queue of `x` and `y` reaches `y` only after it has used `x` up.
  lemma SweepInTurn(isBid: bool, q: seq<Resting>, limit: nat, qty: uint32, x: nat, y: nat)
    requires AheadIn(q, x, y) && DistinctIds(q)
    ensures InTurn(Sweep(isBid, q, limit, qty).trades, x, y)
  {
    hide Sweep, Crosses;
    var i, j :| 0 <= i < j < |q| && q[i].id == x && q[j].id == y && q[i].price == q[j].price;
    var t := Sweep(isBid, q, limit, qty).trades;
    TradesFollowQueue(isBid, q, limit, qty);
    forall n | 0 <= n < |t| && t[n].maker == y
      ensures DoneBefore(t, n, x)
    {
      assert Hits(isBid, limit, t[n], q[n]);
      assert n == j;
      assert Hits(isBid, limit, t[i], q[i]);
    }
  }

  // It either uses `x` up or leaves both in their places.
  lemma SweepKeepsAhead(isBid: bool, q: seq<Resting>, limit: nat, qty: uint32, x: nat, y: nat)
    requires AheadIn(q, x, y)
    ensures DoneBefore(Sweep(isBid, q, limit, qty).trades, |Sweep(isBid, q, limit, qty).trades|, x)
         || AheadIn(Sweep(isBid, q, limit, qty).rest, x, y)
  {
    hide Sweep, Crosses;
    var i, j :| 0 <= i < j < |q| && q[i].id == x && q[j].id == y && q[i].price == q[j].price;
    var s := Sweep(isBid, q, limit, qty);
    TradesFollowQueue(isBid, q, limit, qty);
    RestFollowsTrades(isBid, q, limit, qty);
    if i < |s.trades| {
      assert Hits(isBid, limit, s.trades[i], q[i]);
    }
    if i >= |s.trades| || !s.trades[i].makerDone {
      var d := |q| - |s.rest|;
      assert s.rest[i - d].id == x && s.rest[i - d].price == q[i].price;
      assert s.rest[j - d] == q[j];
    }
  }

  lemma OthersOnly(isBid: bool, q: seq<Resting>, limit: nat, qty: uint32, t: seq<Trade>, x: nat, y: nat)
    requires t == Sweep(isBid, q, limit, qty).trades && forall i :: 0 <= i < |q| ==> q[i].id != y
    ensures InTurn(t, x, y)
  {
    TradesFollowQueue(isBid, q, limit, qty);
    forall n | 0 <= n < |t|
      ensures t[n].maker != y
    {
      assert Hits(isBid, limit, t[n], q[n]);
    }
  }

  // ---- one request ----

  // After a request, `x` is done or still ahead of `y`; in between `y` was not filled out of turn.
  ghost predicate Kept(e: Effect, x: nat, y: nat) {
    InTurn(e.trades, x, y) && (DoneBefore(e.trades, |e.trades|, x) || Ahead(e.book, x, y))
  }

  lemma AddKept(build: Build, b: Book, o: NewOrder, x: nat, y: nat)
    requires WellFormed(b) && Ahead(b, x, y)
    ensures Kept(Add(build, b, o), x, y)
  {
    hide Add, Sweep, Insert, AheadIn, DoneBefore;
    if b.Has(o.id) {
      DuplicateRejected(build, b, o);
    } else {
      AddSides(build, b, o);
      SidesMake(b, o.isBuy);
      var s, own, opposite := SweepOf(b, o), b.Side(o.isBuy), b.Side(!o.isBuy);
      if AheadIn(opposite, x, y) {
        SweepInTurn(!o.isBuy, opposite, o.price, o.qty, x, y);
        SweepKeepsAhead(!o.isBuy, opposite, o.price, o.qty, x, y);
      } else {
        AheadHasId(own, opposite, x, y);
        OthersOnly(!o.isBuy, opposite, o.price, o.qty, s.trades, x, y);
        AheadInsert(o.isBuy, own, Resting(o.id, o.user, o.price, s.left), x, y);
      }
    }
  }

  lemma AheadHasId(own: seq<Resting>, opposite: seq<Resting>, x: nat, y: nat)
    requires AheadIn(own, x, y) && Disjoint(own, opposite)
    ensures forall i :: 0 <= i < |opposite| ==> opposite[i].id != y
  {
  }

  lemma CancelKept(b: Book, c: CancelRequest, x: nat, y: nat)
    requires Ahead(b, x, y) && c.id != x && c.id != y
    ensures Ahead(Cancel(b, c).book, x, y) && Cancel(b, c).trades == []
  {
    hide AheadIn, Without;
    var w := Locate(b, c.id);
    if w.Some? && AheadIn(b.Side(w.value.0), x, y) {
      AheadRemove(b.Side(w.value.0), w.value.1, x, y);
    }
  }

  lemma StepKept(build: Build, b: Book, r: Request, x: nat, y: nat)
    requires WellFormed(b) && Ahead(b, x, y)
    requires !Displaces(build, b, r, x) && !Displaces(build, b, r, y)
    ensures Kept(Apply(build, b, r), x, y)
  {
    hide Add, AheadIn, ModifyErrors, NewQty, DoneBefore, WellFormed;
    match r
    case New(o) =>
      AddKept(build, b, o, x, y);
    case Withdraw(c) =>
      if c.id != x && c.id != y {
        CancelKept(b, c, x, y);
      }
    case Change(m) =>
      var w := Locate(b, m.id);
      if w.Some? {
        var (isBuy, k) := w.value;
        var q := b.Side(isBuy);
        if ModifyErrors(isBuy, q[k], m) == [] {
          if m.price == q[k].price {
            if AheadIn(q, x, y) {
              AheadResize(q, k, NewQty(build, q[k], m), x, y);
            }
          } else {
            var c := CancelRequest(m.id, m.user, m.ticker);
            CancelKept(b, c, x, y);
            CancelKeeps(b, c);
            AddKept(build, Cancel(b, c).book, OrderOf(m), x, y);
          }
        }
      }
  }

  // ---- whole runs ----

  lemma TurnAppend(t: seq<Trade>, u: seq<Trade>, x: nat, y: nat)
    requires InTurn(t, x, y) && (DoneBefore(t, |t|, x) || InTurn(u, x, y))
    ensures InTurn(t + u, x, y)
  {
    var w := t + u;
    forall j | 0 <= j < |w| && w[j].maker == y
      ensures DoneBefore(w, j, x)
    {
      if j < |t| {
        assert t[j] == w[j];
        DoneShift(t, u, j, 0, x);
      } else if DoneBefore(t, |t|, x) {
        DoneShift(t, u, |t|, 0, x);
      } else {
        assert u[j - |t|] == w[j];
        var i :| 0 <= i < j - |t| && u[i].maker == x && u[i].makerDone;
        assert w[i + |t|] == u[i];
      }
    }
  }

  lemma DoneShift(t: seq<Trade>, u: seq<Trade>, n: nat, extra: nat, x: nat)
    requires DoneBefore(t, n, x)
    ensures DoneBefore(t + u, n + extra, x)
  {
    var i :| 0 <= i < n && i < |t| && t[i].maker == x && t[i].makerDone;
    assert (t + u)[i] == t[i];
  }

  /** If `x` stands ahead of `y` at one price, and neither is cancelled or moved to another price, then over
      the whole run no trade fills `y` before one has filled `x` completely, and until then `x` stays ahead. */
  lemma {:induction false} TimePriority(build: Build, b: Book, rs: seq<Request>, x: nat, y: nat)
    requires WellFormed(b) && Ahead(b, x, y)
    requires Undisturbed(build, b, rs, x) && Undisturbed(build, b, rs, y)
    ensures InTurn(RunTrades(build, b, rs), x, y)
    ensures DoneBefore(RunTrades(build, b, rs), |RunTrades(build, b, rs)|, x) || Ahead(Run(build, b, rs), x, y)
    decreases |rs|
  {
    if rs != [] {
      hide WellFormed, Ahead, DoneBefore, InTurn, Apply, Displaces;
      var e := Apply(build, b, rs[0]);
      StepWellFormed(build, b, rs[0]);
      StepKept(build, b, rs[0], x, y);
      var rest := RunTrades(build, e.book, rs[1..]);
      if DoneBefore(e.trades, |e.trades|, x) {
        DoneShift(e.trades, rest, |e.trades|, |rest|, x);
      } else {
        TimePriority(build, e.book, rs[1..], x, y);
        if DoneBefore(rest, |rest|, x) {
          DoneLater(e.trades, rest, x);
        }
      }
      TurnAppend(e.trades, rest, x, y);
    }
  }

  lemma DoneLater(t: seq<Trade>, u: seq<Trade>, x: nat)
    requires DoneBefore(u, |u|, x)
    ensures DoneBefore(t + u, |t + u|, x)
  {
    var i :| 0 <= i < |u| && u[i].maker == x && u[i].makerDone;
    assert (t + u)[i + |t|] == u[i];
  }
}
