/** How many orders a run can bring together, and so where the matcher's 16-bit counts stay right. */
module RunCounts {
  import opened Orders
  import opened Matching
  import opened LevelCounts
  import opened BookSpec
  import opened BookLaws
  import opened ExchangeSpec
  import opened ReplicaRuns
  import opened ReplicaAsWritten

  function Size(b: Book): nat {
    |b.bids| + |b.asks|
  }

  lemma AddSize(build: Build, b: Book, o: NewOrder)
    ensures Size(Add(build, b, o).book) <= Size(b) + 1
  {
    hide Add, Sweep, Insert, IsBackOf;
    if b.Has(o.id) {
      DuplicateRejected(build, b, o);
    } else {
      AddSides(build, b, o);
      SweepLeavesBack(!o.isBuy, b.Side(!o.isBuy), o.price, o.qty);
      BackIsShorter(SweepOf(b, o).rest, b.Side(!o.isBuy));
      InsertAt(o.isBuy, b.Side(o.isBuy), Resting(o.id, o.user, o.price, SweepOf(b, o).left));
    }
  }

  lemma BackIsShorter(rest: seq<Resting>, q: seq<Resting>)
    requires IsBackOf(rest, q)
    ensures |rest| <= |q|
  {
  }

  lemma CancelSize(b: Book, c: CancelRequest)
    ensures Size(Cancel(b, c).book) == if Cancel(b, c).outcome.Accepted? then Size(b) - 1 else Size(b)
  {
  }

  /** A new order adds at most one to a book, and no other request adds any. */
  lemma ApplySize(build: Build, b: Book, r: Request)
    requires WellFormed(b)
    ensures Size(Apply(build, b, r).book) <= Size(b) + if r.New? then 1 else 0
  {
    hide Add, Cancel, WellFormed, NewQty, ModifyErrors;
    match r
    case New(o) => AddSize(build, b, o);
    case Withdraw(c) => CancelSize(b, c);
    case Change(m) =>
      var w := Locate(b, m.id);
      if w.Some? && ModifyErrors(w.value.0, b.Side(w.value.0)[w.value.1], m) == [] {
        var (isBuy, k) := w.value;
        if m.price != b.Side(isBuy)[k].price {
          var c := CancelRequest(m.id, m.user, m.ticker);
          RepriceIsCancelThenAdd(build, b, m, isBuy, k);
          CancelSize(b, c);
          AddSize(build, Cancel(b, c).book, OrderOf(m));
        }
      }
  }

  // ---- where the counts are right ----

  ghost predicate CountsFor(b: Book, r: Request) {
    match r
    case New(o) => CountsForAdd(b, o)
    case Change(m) => CountsForModify(b, m)
    case Withdraw(_) => true
  }

  lemma FewOrdersCount(b: Book, r: Request)
    requires Good(b) && Size(b) < TWO_16
    ensures CountsFor(b, r)
  {
    match r
    case New(o) => FewOrdersCountAdd(b, o);
    case Change(m) =>
      var c := CancelRequest(m.id, m.user, m.ticker);
      CancelKeeps(b, c);
      CancelSize(b, c);
      FewOrdersCountAdd(Cancel(b, c).book, NewOrder(m.id, m.user, m.ticker, m.price, m.qty, m.isBuy));
    case Withdraw(_) =>
  }

  lemma FewOrdersCountAdd(b: Book, o: NewOrder)
    requires Positive(b) && Size(b) < TWO_16
    ensures CountsForAdd(b, o)
  {
    FewOrdersCountRight(!o.isBuy, b.Side(!o.isBuy), o.price, o.qty);
  }

  ghost predicate CountsForMessage(x: Exchange, msg: Message) {
    var r := RequestOf(x, msg);
    r.None? || CountsFor(BookOf(x, TickerOf(msg)), r.value)
  }

  /** In a run, every message finds the counts right that its match relies on. */
  ghost predicate CountsForMessages(x: Exchange, msgs: seq<Message>)
    decreases |msgs|
  {
    msgs == [] || (CountsForMessage(x, msgs[0]) && CountsForMessages(Step(AS_WRITTEN, x, msgs[0]).next, msgs[1..]))
  }

  /** How many new orders a run brings in. */
  function Entered(msgs: seq<Message>): nat {
    if msgs == [] then 0 else (if msgs[0].Enter? then 1 else 0) + Entered(msgs[1..])
  }

  ghost predicate SizesUpTo(x: Exchange, n: nat) {
    forall t: nat :: Size(BookOf(x, t)) <= n
  }

  lemma StepSizes(build: Build, x: Exchange, msg: Message, n: nat)
    requires AllGood(x) && SizesUpTo(x, n)
    ensures SizesUpTo(Step(build, x, msg).next, n + if msg.Enter? then 1 else 0)
  {
    hide Step, Apply, Size, WellFormed, Positive, Uncrossed;
    StepIsApply(build, x, msg);
    var y, t, r := Step(build, x, msg).next, TickerOf(msg), RequestOf(x, msg);
    assert Good(BookOf(x, t));
    if r.Some? {
      ApplySize(build, BookOf(x, t), r.value);
    }
    forall u: nat
      ensures Size(BookOf(y, u)) <= n + if msg.Enter? then 1 else 0
    {
      assert Size(BookOf(x, u)) <= n;
    }
  }

  lemma {:induction false} FewEnteredFrom(x: Exchange, msgs: seq<Message>, n: nat)
    requires AllGood(x) && SizesUpTo(x, n) && n + Entered(msgs) < TWO_16
    requires SafeMessages(AS_WRITTEN, x, msgs)
    ensures CountsForMessages(x, msgs)
    decreases |msgs|
  {
    hide Step, Good, Size, CountsFor, SafeMessage;
    if msgs != [] {
      var r, t := RequestOf(x, msgs[0]), TickerOf(msgs[0]);
      assert Good(BookOf(x, t)) && Size(BookOf(x, t)) <= n;
      if r.Some? {
        FewOrdersCount(BookOf(x, t), r.value);
      }
      StepSizes(AS_WRITTEN, x, msgs[0], n);
      StepKeepsGood(AS_WRITTEN, x, msgs[0]);
      FewEnteredFrom(Step(AS_WRITTEN, x, msgs[0]).next, msgs[1..], n + if msgs[0].Enter? then 1 else 0);
    }
  }

  /** In a run that enters fewer than 2^16 orders, and lets none of quantity zero come to rest, the counts are right
      throughout. */
  lemma FewEntered(msgs: seq<Message>)
    requires SafeMessages(AS_WRITTEN, OPENING, msgs) && Entered(msgs) < TWO_16
    ensures CountsForMessages(OPENING, msgs)
  {
    hide CountsForMessages, SafeMessages, Entered;
    FewEnteredFrom(OPENING, msgs, 0);
  }
}
