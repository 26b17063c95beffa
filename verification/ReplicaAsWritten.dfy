/** When the code as written keeps server and client in agreement, read off the requests and the books alone. */
module ReplicaAsWritten {
  import opened Orders
  import opened Matching
  import opened BookSpec
  import opened BookLaws
  import opened ExchangeSpec
  import opened ClientFeed
  import opened Replica
  import opened ReplicaBook
  import opened ReplicaRuns

  /** A new order meets no match, unless it is empty, and fits the client's signed quantity. */
  predicate PlainAdd(b: Book, o: NewOrder) {
    (o.qty == 0 || !Meets(b, o)) && o.qty < TWO_31
  }

  /** The requests whose messages tell what they do: new and repriced orders that trade with nobody, lowered
      quantities, cancels, and whatever is refused. */
  predicate Plain(b: Book, r: Request) {
    match r
    case New(o) => PlainAdd(b, o)
    case Change(m) => (
      match Locate(b, m.id)
      case None => true
      case Some((isBuy, k)) =>
        var x := b.Side(isBuy)[k];
        || ModifyErrors(isBuy, x, m) != []
        || (if m.price == x.price then m.qty < x.qty && m.qty < TWO_31 else PlainAdd(b, OrderOf(m))))
    case Withdraw(_) => true
  }

  /** As written, a new order is faithful exactly when it trades with nobody and fits a signed word. */
  lemma AddAsWritten(b: Book, o: NewOrder)
    requires Good(b)
    ensures FaithfulAdd(AS_WRITTEN, b, o) <==> PlainAdd(b, o)
  {
    TradesIffMeets(b, o);
    var t := SweepOf(b, o).trades;
    if t != [] {
      assert t[0].qty == Min(b.Side(!o.isBuy)[0].qty, o.qty) && RelayedQty(AS_WRITTEN, t[0]) == 0;
    }
  }

  /** As written, a change at the same price is faithful exactly when it lowers the quantity to one that fits a
      signed word. */
  lemma ResizeAsWritten(x: Resting, m: ModifyRequest)
    requires x.qty > 0 && m.qty != x.qty
    ensures ToInt32(m.qty) == NewQty(AS_WRITTEN, x, m) <==> m.qty < x.qty && m.qty < TWO_31
  {
    if x.qty < m.qty {
      RaiseReachesRequest(x.qty, m.qty);
    }
  }

  /** On a good book the messages of a request are faithful exactly when it is plain. */
  lemma FaithfulIffPlain(b: Book, r: Request)
    requires Good(b)
    ensures Faithful(AS_WRITTEN, b, r) <==> Plain(b, r)
  {
    hide FaithfulAdd, PlainAdd, NewQty, WellFormed, Uncrossed, Meets;
    match r
    case New(o) => AddAsWritten(b, o);
    case Change(m) =>
      var w := Locate(b, m.id);
      if w.Some? && ModifyErrors(w.value.0, b.Side(w.value.0)[w.value.1], m) == [] {
        var (isBuy, k) := w.value;
        GoodSide(b, isBuy);
        if m.price == b.Side(isBuy)[k].price {
          NoErrors(isBuy, b.Side(isBuy)[k], m);
          ResizeAsWritten(b.Side(isBuy)[k], m);
        } else {
          var c := CancelRequest(m.id, m.user, m.ticker);
          RepriceIsCancelThenAdd(AS_WRITTEN, b, m, isBuy, k);
          GoodIffSafe(AS_WRITTEN, b, Request.Withdraw(c));
          AddAsWritten(Cancel(b, c).book, OrderOf(m));
          SamePlainAdd(b, Cancel(b, c).book, OrderOf(m));
        }
      }
    case Withdraw(_) =>
  }

  lemma SamePlainAdd(b: Book, c: Book, o: NewOrder)
    requires Meets(b, o) <==> Meets(c, o)
    ensures PlainAdd(b, o) <==> PlainAdd(c, o)
  {
  }

  // ---- whole runs ----

  predicate PlainMessage(x: Exchange, msg: Message) {
    var r := RequestOf(x, msg);
    r.None? || Plain(BookOf(x, TickerOf(msg)), r.value)
  }

  predicate PlainMessages(x: Exchange, msgs: seq<Message>)
    decreases |msgs|
  {
    msgs == [] || (PlainMessage(x, msgs[0]) && PlainMessages(Step(AS_WRITTEN, x, msgs[0]).next, msgs[1..]))
  }

  ghost predicate AllGood(x: Exchange) {
    forall t: nat :: Good(BookOf(x, t))
  }

  lemma StepKeepsGood(build: Build, x: Exchange, msg: Message)
    requires AllGood(x) && SafeMessage(build, x, msg)
    ensures AllGood(Step(build, x, msg).next)
  {
    hide Step, Good, Apply, Safe;
    StepIsApply(build, x, msg);
    var y, t, r := Step(build, x, msg).next, TickerOf(msg), RequestOf(x, msg);
    if r.Some? {
      GoodIffSafe(build, BookOf(x, t), r.value);
    }
    forall u: nat
      ensures Good(BookOf(y, u))
    {
      assert u != t ==> BookOf(y, u) == BookOf(x, u);
    }
  }

  lemma {:induction false} FaithfulRunIffPlain(x: Exchange, msgs: seq<Message>)
    requires AllGood(x) && SafeMessages(AS_WRITTEN, x, msgs)
    ensures FaithfulMessages(AS_WRITTEN, x, msgs) <==> PlainMessages(x, msgs)
    decreases |msgs|
  {
    hide Step, Good, SafeMessage, Faithful, Plain;
    if msgs != [] {
      var r := RequestOf(x, msgs[0]);
      if r.Some? {
        FaithfulIffPlain(BookOf(x, TickerOf(msgs[0])), r.value);
      }
      StepKeepsGood(AS_WRITTEN, x, msgs[0]);
      FaithfulRunIffPlain(Step(AS_WRITTEN, x, msgs[0]).next, msgs[1..]);
    }
  }

  /** As written, server and client agree all along exactly in the runs of plain messages: nothing trades, no
      quantity is raised, and none exceeds a signed word. */
  lemma AgreementAsWritten(msgs: seq<Message>)
    requires SafeMessages(AS_WRITTEN, OPENING, msgs)
    ensures KeepsAgreeing(AS_WRITTEN, OPENING, NOTHING, msgs) <==> PlainMessages(OPENING, msgs)
  {
    hide KeepsAgreeing, FaithfulMessages, SafeMessages, PlainMessages;
    ReplicaAgreement(AS_WRITTEN, msgs);
    FaithfulRunIffPlain(OPENING, msgs);
  }

  // ---- runs that part ----

  /** A sell order and a buy order that fill each other. */
  function OneMatch(qty: uint32): seq<Message> {
    [Create(7), Enter(1, 7, 50, qty, false), Enter(2, 7, 50, qty, true)]
  }

  lemma OneMatchSweep(qty: uint32)
    requires qty > 0
    ensures var b, o := Book([], [Resting(2, 1, 50, qty)]), NewOrder(3, 2, 7, 50, qty, true);
      SweepOf(b, o) == SweepResult([], 0, [Trade(2, 1, 50, qty, true, true)]) && Meets(b, o)
  {
  }

  lemma Unroll(build: Build, x: Exchange, msg: Message, rest: seq<Message>)
    ensures SafeMessages(build, x, [msg] + rest) <==> SafeMessage(build, x, msg) && SafeMessages(build, Step(build, x, msg).next, rest)
    ensures FaithfulMessages(build, x, [msg] + rest) <==>
      FaithfulMessage(build, x, msg) && FaithfulMessages(build, Step(build, x, msg).next, rest)
  {
    hide Step, SafeMessage, FaithfulMessage;
    assert ([msg] + rest)[1..] == rest;
  }

  // The book is open, then holds the sell order, and then the match is faithful or not.
  lemma OneMatchSteps(build: Build, qty: uint32)
    requires 0 < qty < TWO_31
    ensures var msgs, x1, x2 := OneMatch(qty), Exchange(map[7 := EMPTY], 1), Exchange(map[7 := Book([], [Resting(2, 1, 50, qty)])], 2);
      && Step(build, OPENING, msgs[0]).next == x1 && SafeMessage(build, OPENING, msgs[0]) && FaithfulMessage(build, OPENING, msgs[0])
      && Step(build, x1, msgs[1]).next == x2 && SafeMessage(build, x1, msgs[1]) && FaithfulMessage(build, x1, msgs[1])
      && SafeMessage(build, x2, msgs[2]) && (FaithfulMessage(build, x2, msgs[2]) <==> !build.stampsTaker && qty < TWO_16)
  {
    var b, o := Book([], [Resting(2, 1, 50, qty)]), NewOrder(3, 2, 7, 50, qty, true);
    OneMatchSweep(qty);
    var t := SweepOf(b, o).trades;
    assert AllRelayed(build, t) <==> RelayedQty(build, t[0]) == t[0].qty;
    assert FaithfulAdd(build, b, o) <==> AllRelayed(build, t);
    var sell := NewOrder(2, 1, 7, 50, qty, false);
    assert SweepOf(EMPTY, sell) == SweepResult([], qty, []);
    assert FaithfulAdd(build, EMPTY, sell);
    assert Add(build, EMPTY, sell).book == b;
    assert map[7 := EMPTY][7 := b] == map[7 := b];
  }

  /** What server and client make of one match depends on whether the fill is told in full. */
  lemma OneMatchAgrees(build: Build, qty: uint32)
    requires 0 < qty < TWO_31
    ensures SafeMessages(build, OPENING, OneMatch(qty))
    ensures KeepsAgreeing(build, OPENING, NOTHING, OneMatch(qty)) <==> !build.stampsTaker && qty < TWO_16
  {
    hide KeepsAgreeing, Step, SafeMessage, FaithfulMessage;
    var msgs := OneMatch(qty);
    OneMatchSteps(build, qty);
    var x1, x2 := Exchange(map[7 := EMPTY], 1), Exchange(map[7 := Book([], [Resting(2, 1, 50, qty)])], 2);
    assert msgs == [msgs[0]] + ([msgs[1]] + ([msgs[2]] + []));
    Unroll(build, OPENING, msgs[0], [msgs[1]] + ([msgs[2]] + []));
    Unroll(build, x1, msgs[1], [msgs[2]] + []);
    Unroll(build, x2, msgs[2], []);
    ReplicaAgreement(build, msgs);
  }

  /** As written, one match is enough. */
  lemma MatchMisleads()
    ensures !KeepsAgreeing(AS_WRITTEN, OPENING, NOTHING, OneMatch(5))
  {
    OneMatchAgrees(AS_WRITTEN, 5);
  }

  /** Even with the evident intent in place, a match of 2^16 is told as a fill of nothing. */
  lemma WideFillMisleads()
    ensures !KeepsAgreeing(INTENDED, OPENING, NOTHING, OneMatch(TWO_16))
  {
    OneMatchAgrees(INTENDED, TWO_16);
  }

  /** And an order of 2^31 is negative to the client. */
  lemma SignedWordMisleads()
    ensures var msgs := [Create(7), Enter(1, 7, 50, TWO_31, false)];
      SafeMessages(INTENDED, OPENING, msgs) && !KeepsAgreeing(INTENDED, OPENING, NOTHING, msgs)
  {
    hide KeepsAgreeing;
    var msgs := [Create(7), Enter(1, 7, 50, TWO_31, false)];
    var x1 := Step(INTENDED, OPENING, msgs[0]).next;
    assert x1 == Exchange(map[7 := EMPTY], 1);
    assert msgs[1..] == [msgs[1]] && [msgs[1]][1..] == [];
    assert !FaithfulMessage(INTENDED, x1, msgs[1]) && SafeMessage(INTENDED, x1, msgs[1]);
    assert SafeMessages(INTENDED, x1, [msgs[1]]);
    ReplicaAgreement(INTENDED, msgs);
  }
}
