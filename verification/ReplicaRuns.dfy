/** Replica agreement over whole runs of the exchange: the depth a client rebuilds from the market data is
    the depth of the server's books. */
module ReplicaRuns {
  import opened Orders
  import opened Sequences
  import opened Matching
  import opened BookSpec
  import opened BookLaws
  import opened ExchangeSpec
  import opened Depth
  import opened ClientFeed
  import opened Replica
  import opened ReplicaBook

  /** The book of a ticker; a ticker without a book has nothing resting. */
  function BookOf(x: Exchange, ticker: nat): Book {
    if ticker in x.books then x.books[ticker] else EMPTY
  }

  function TickerOf(msg: Message): nat {
    match msg
    case Create(ticker) => ticker
    case Enter(_, ticker, _, _, _) => ticker
    case Change(m) => m.ticker
    case Withdraw(c) => c.ticker
  }

  /** The request that reaches a book, if the message is routed to one. */
  function RequestOf(x: Exchange, msg: Message): Option<Request> {
    if TickerOf(msg) !in x.books then None
    else
      match msg
      case Create(_) => None
      case Enter(user, ticker, price, qty, isBuy) => Some(New(NewOrder(x.lastId + 1, user, ticker, price, qty, isBuy)))
      case Change(m) => if m.qty == 0 then None else Some(Request.Change(m))
      case Withdraw(c) => Some(Request.Withdraw(c))
  }

  lemma StepIsApply(build: Build, x: Exchange, msg: Message)
    ensures var y, t, r := Step(build, x, msg), TickerOf(msg), RequestOf(x, msg);
      && y.next.lastId == x.lastId + (if msg.Enter? then 1 else 0)
      && (forall u: nat :: u != t ==> BookOf(y.next, u) == BookOf(x, u))
      && (r.None? ==> BookOf(y.next, t) == BookOf(x, t) && y.events == [])
      && (r.Some? ==> BookOf(y.next, t) == Apply(build, BookOf(x, t), r.value).book
                      && y.events == Apply(build, BookOf(x, t), r.value).events)
  {
    hide Add, BookSpec.Modify, BookSpec.Cancel;
  }

  /** No order comes to rest with quantity zero. */
  ghost predicate SafeMessage(build: Build, x: Exchange, msg: Message) {
    var r := RequestOf(x, msg);
    r.None? || Safe(build, BookOf(x, TickerOf(msg)), r.value)
  }

  predicate FaithfulMessage(build: Build, x: Exchange, msg: Message) {
    var r := RequestOf(x, msg);
    r.None? || Faithful(build, BookOf(x, TickerOf(msg)), r.value)
  }

  /** The depth a client stores is the depth of the books: the same quantity at every ticker, side and
      price, and a price stored exactly where the server has a level. */
  ghost predicate Agrees(x: Exchange, c: Client) {
    forall t: nat, isBuy, p: nat ::
      && DepthAt(c, Key(t, isBuy, p)) == QtyAt(BookOf(x, t).Side(isBuy), p)
      && (Key(t, isBuy, p) in c.depth <==> HasLevel(BookOf(x, t).Side(isBuy), p))
  }

  /** The client's tables and the server's books are the same, and no id is ahead of the generator. */
  ghost predicate Mirrors(x: Exchange, c: Client) {
    && (forall t: nat :: Mirrored(c, t, BookOf(x, t)))
    && (forall t: nat :: Good(BookOf(x, t)))
    && (forall id :: id in c.orders ==> id <= x.lastId)
    && NoEmptyKey(c)
  }

  lemma MirrorsAgrees(x: Exchange, c: Client)
    requires Mirrors(x, c)
    ensures Agrees(x, c)
  {
    hide Good, SideMirrored, HasLevel, QtyAt;
    forall t: nat, isBuy, p: nat
      ensures DepthAt(c, Key(t, isBuy, p)) == QtyAt(BookOf(x, t).Side(isBuy), p)
      ensures Key(t, isBuy, p) in c.depth <==> HasLevel(BookOf(x, t).Side(isBuy), p)
    {
      var b := BookOf(x, t);
      MirroredSides(c, t, b, isBuy);
      SideDepth(c, t, isBuy, b.Side(isBuy), p);
      GoodSide(b, isBuy);
      LevelIffQty(b.Side(isBuy), p);
    }
  }

  lemma SideDepth(c: Client, ticker: nat, isBuy: bool, q: seq<Resting>, p: nat)
    requires SideMirrored(c, ticker, isBuy, q)
    ensures DepthAt(c, Key(ticker, isBuy, p)) == QtyAt(q, p)
  {
  }

  lemma MisleadsDisagrees(x: Exchange, c: Client, ticker: nat)
    requires Misleads(c, ticker, BookOf(x, ticker))
    ensures !Agrees(x, c)
  {
  }

  // The other tickers' books are the same, and so is what the client has of them.
  lemma OthersMirrored(c: Client, d: Client, ticker: nat, t: nat, b: Book)
    requires OthersKept(c, d, ticker) && t != ticker && Mirrored(c, t, b)
    ensures Mirrored(d, t, b)
  {
    hide SideKept, SideMirrored;
    SideKeptMirrors(c, d, t, true, b.bids);
    SideKeptMirrors(c, d, t, false, b.asks);
  }

  // ---- ids stay behind the generator ----

  ghost predicate IdsUpTo(c: Client, last: nat) {
    forall id :: id in c.orders ==> id <= last
  }

  lemma {:induction false} FeedIds(c: Client, events: seq<Event>, last: nat)
    requires IdsUpTo(c, last)
    requires forall i :: 0 <= i < |events| && events[i].OrderAdded? ==> events[i].id <= last
    ensures IdsUpTo(Feed(c, events), last)
    decreases |events|
  {
    if events != [] {
      FeedIds(OnEvent(c, events[0]), events[1..], last);
    }
  }

  lemma {:induction false} FillsAddNothing(build: Build, taker: nat, fills: seq<Fill>)
    ensures forall i :: 0 <= i < |FillEvents(build, taker, fills)| ==> FillEvents(build, taker, fills)[i].OrderFilled?
  {
    if fills != [] {
      FillsAddNothing(build, taker, fills[1..]);
    }
  }

  lemma AddEvents(build: Build, b: Book, o: NewOrder)
    ensures var e := Add(build, b, o).events;
      forall i :: 0 <= i < |e| && e[i].OrderAdded? ==> e[i].id == o.id
  {
    hide Sweep, Insert, FillEvents;
    FillsAddNothing(build, o.id, FillLog(o.ticker, o.id, SweepOf(b, o).trades));
  }

  /** The only order a request announces is its own. */
  lemma EventIds(build: Build, b: Book, r: Request)
    ensures var e := Apply(build, b, r).events;
      forall i :: 0 <= i < |e| && e[i].OrderAdded? ==>
        (r.New? && e[i].id == r.o.id) || (r.Change? && b.Has(r.m.id) && e[i].id == r.m.id)
  {
    hide Add, ModifyErrors, NewQty, Without;
    match r
    case New(o) => AddEvents(build, b, o);
    case Change(m) =>
      var c := BookSpec.Cancel(b, CancelRequest(m.id, m.user, m.ticker));
      AddEvents(build, c.book, OrderOf(m));
    case Withdraw(_) =>
  }

  lemma RestingIsKnown(c: Client, ticker: nat, b: Book, id: nat)
    requires Mirrored(c, ticker, b) && b.Has(id)
    ensures id in c.orders
  {
  }

  lemma StepIds(build: Build, x: Exchange, c: Client, msg: Message)
    requires Mirrors(x, c)
    ensures IdsUpTo(Feed(c, Step(build, x, msg).events), Step(build, x, msg).next.lastId)
  {
    hide Apply, Step, Good, Mirrored, NoEmptyKey;
    StepIsApply(build, x, msg);
    var y, t, r := Step(build, x, msg), TickerOf(msg), RequestOf(x, msg);
    if r.Some? {
      EventIds(build, BookOf(x, t), r.value);
      if r.value.Change? && BookOf(x, t).Has(r.value.m.id) {
        RestingIsKnown(c, t, BookOf(x, t), r.value.m.id);
      }
    }
    FeedIds(c, y.events, y.next.lastId);
  }

  // ---- one message ----

  lemma ApplyMirrored(build: Build, c: Client, b: Book, ticker: nat, r: Request)
    requires Mirrored(c, ticker, b) && Good(b) && NoEmptyKey(c) && Safe(build, b, r)
    requires match r
      case New(o) => o.ticker == ticker && o.id !in c.orders
      case Change(m) => m.ticker == ticker
      case Withdraw(w) => w.ticker == ticker
    ensures var e := Apply(build, b, r); var d := Feed(c, e.events);
      && OthersKept(c, d, ticker)
      && (Faithful(build, b, r) ==> Mirrored(d, ticker, e.book) && NoEmptyKey(d))
      && (!Faithful(build, b, r) ==> Misleads(d, ticker, e.book))
  {
    hide Add, BookSpec.Modify, BookSpec.Cancel, Good, Mirrored, NoEmptyKey, OthersKept, Misleads, FaithfulAdd;
    match r
    case New(o) => AddMirrored(build, c, b, o);
    case Change(m) => ModifyMirrored(build, c, b, m);
    case Withdraw(w) => CancelMirrored(c, b, w);
  }

  /** A message keeps server and client the same when its market data is faithful, and leaves a wrong depth
      when it is not. */
  lemma StepMirrors(build: Build, x: Exchange, c: Client, msg: Message)
    requires Mirrors(x, c) && SafeMessage(build, x, msg)
    ensures var y := Step(build, x, msg); var d := Feed(c, y.events);
      && (FaithfulMessage(build, x, msg) ==> Mirrors(y.next, d))
      && (!FaithfulMessage(build, x, msg) ==> !Agrees(y.next, d))
  {
    hide Apply, Step, Safe, Faithful, Good, Mirrored, NoEmptyKey, OthersKept, Misleads, Agrees;
    StepIsApply(build, x, msg);
    var y, t, r := Step(build, x, msg), TickerOf(msg), RequestOf(x, msg);
    var d, b := Feed(c, y.events), BookOf(x, t);
    if r.None? {
      OthersKeptRefl(c, t);
    } else {
      ApplyMirrored(build, c, b, t, r.value);
      GoodIffSafe(build, b, r.value);
    }
    if FaithfulMessage(build, x, msg) {
      StepIds(build, x, c, msg);
      forall u: nat
        ensures Mirrored(d, u, BookOf(y.next, u)) && Good(BookOf(y.next, u))
      {
        if u != t {
          OthersMirrored(c, d, t, u, BookOf(x, u));
        }
      }
    } else {
      MisleadsDisagrees(y.next, d, t);
    }
  }

  // ---- whole runs ----

  ghost predicate SafeMessages(build: Build, x: Exchange, msgs: seq<Message>)
    decreases |msgs|
  {
    msgs == [] || (SafeMessage(build, x, msgs[0]) && SafeMessages(build, Step(build, x, msgs[0]).next, msgs[1..]))
  }

  predicate FaithfulMessages(build: Build, x: Exchange, msgs: seq<Message>)
    decreases |msgs|
  {
    msgs == [] || (FaithfulMessage(build, x, msgs[0]) && FaithfulMessages(build, Step(build, x, msgs[0]).next, msgs[1..]))
  }

  /** Server and client agree now and after each of the messages. */
  ghost predicate KeepsAgreeing(build: Build, x: Exchange, c: Client, msgs: seq<Message>)
    decreases |msgs|
  {
    && Agrees(x, c)
    && (msgs != [] ==>
          var y := Step(build, x, msgs[0]);
          KeepsAgreeing(build, y.next, Feed(c, y.events), msgs[1..]))
  }

  lemma {:induction false} AgreeingIffFaithful(build: Build, x: Exchange, c: Client, msgs: seq<Message>)
    requires Mirrors(x, c) && SafeMessages(build, x, msgs)
    ensures KeepsAgreeing(build, x, c, msgs) <==> FaithfulMessages(build, x, msgs)
    decreases |msgs|
  {
    hide Mirrors, Agrees, Step, FaithfulMessage, SafeMessage;
    MirrorsAgrees(x, c);
    if msgs != [] {
      StepMirrors(build, x, c, msgs[0]);
      if FaithfulMessage(build, x, msgs[0]) {
        var y := Step(build, x, msgs[0]);
        AgreeingIffFaithful(build, y.next, Feed(c, y.events), msgs[1..]);
      }
    }
  }

  /** From the opening of the exchange, a client that receives every message agrees with the server all along
      exactly when every message in the run is faithful. */
  lemma ReplicaAgreement(build: Build, msgs: seq<Message>)
    requires SafeMessages(build, OPENING, msgs)
    ensures KeepsAgreeing(build, OPENING, NOTHING, msgs) <==> FaithfulMessages(build, OPENING, msgs)
  {
    hide KeepsAgreeing, FaithfulMessages, SafeMessages;
    AgreeingIffFaithful(build, OPENING, NOTHING, msgs);
  }

  // ---- what is faithful ----

  /** The evident intent at both places: a raise reaches the requested quantity, and each fill message carries
      the id of the order it is about. */
  const INTENDED := Build(false, false)

  lemma {:induction false} TradesWithin(isBid: bool, q: seq<Resting>, limit: nat, qty: uint32)
    ensures forall i :: 0 <= i < |Sweep(isBid, q, limit, qty).trades| ==> Sweep(isBid, q, limit, qty).trades[i].qty <= qty
    ensures Sweep(isBid, q, limit, qty).left <= qty
  {
    if q != [] && Crosses(isBid, limit, q[0].price) && Min(q[0].qty, qty) < qty {
      TradesWithin(isBid, q[1..], limit, qty - Min(q[0].qty, qty));
    }
  }

  predicate Moderate(msg: Message) {
    match msg
    case Enter(_, _, _, qty, _) => 0 < qty < TWO_16
    case Change(m) => m.qty < TWO_16
    case _ => true
  }

  lemma ModerateAdd(b: Book, o: NewOrder)
    requires o.qty < TWO_16
    ensures FaithfulAdd(INTENDED, b, o)
  {
    TradesWithin(!o.isBuy, b.Side(!o.isBuy), o.price, o.qty);
  }

  lemma ModerateMessage(x: Exchange, msg: Message)
    requires Moderate(msg)
    ensures SafeMessage(INTENDED, x, msg) && FaithfulMessage(INTENDED, x, msg)
  {
    hide FaithfulAdd;
    var r, b := RequestOf(x, msg), BookOf(x, TickerOf(msg));
    if r.Some? {
      match r.value
      case New(o) => ModerateAdd(b, o);
      case Change(m) => ModerateAdd(BookSpec.Cancel(b, CancelRequest(m.id, m.user, m.ticker)).book, OrderOf(m));
      case Withdraw(_) =>
    }
  }

  lemma {:induction false} ModerateMessages(x: Exchange, msgs: seq<Message>)
    requires forall i :: 0 <= i < |msgs| ==> Moderate(msgs[i])
    ensures SafeMessages(INTENDED, x, msgs) && FaithfulMessages(INTENDED, x, msgs)
    decreases |msgs|
  {
    hide SafeMessage, FaithfulMessage, Step, Moderate;
    if msgs != [] {
      ModerateMessage(x, msgs[0]);
      ModerateMessages(Step(INTENDED, x, msgs[0]).next, msgs[1..]);
    }
  }

  /** With the two intents in place and quantities that fit 16 bits, every run keeps server and client in
      agreement. */
  lemma IntendedAgreement(msgs: seq<Message>)
    requires forall i :: 0 <= i < |msgs| ==> Moderate(msgs[i])
    ensures KeepsAgreeing(INTENDED, OPENING, NOTHING, msgs)
  {
    hide KeepsAgreeing, FaithfulMessages, SafeMessages, Moderate;
    ModerateMessages(OPENING, msgs);
    ReplicaAgreement(INTENDED, msgs);
  }
}
