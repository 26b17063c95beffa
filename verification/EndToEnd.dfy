/** The objects in one piece: requests go through the exchange's books, and what these tell the market goes through
    the client's tables. Their states are those of the runs on values. */
module EndToEnd {
  import opened Orders
  import opened Sequences
  import opened Matching
  import opened BookSpec
  import opened BookLaws
  import opened ExchangeSpec
  import opened ClientFeed
  import opened ReplicaRuns
  import opened ReplicaAsWritten
  import opened RunCounts
  import opened Levels
  import opened OrderBooks
  import opened OrderBookManagers
  import opened ClientFeedHandlers

  /** A valid book of linked lists is a well-formed book: in price-time order, and no id twice. */
  lemma ValidIsWellFormed(book: OrderBook)
    requires book.Valid()
    ensures WellFormed(book.View())
  {
    var bids, asks := book.bids, book.asks;
    SideFacts(bids);
    SideFacts(asks);
    forall i, j | 0 <= i < |bids.queue| && 0 <= j < |asks.queue|
      ensures bids.View()[i].id != asks.View()[j].id
    {
      assert bids.queue[i] in bids.queue && asks.queue[j] in asks.queue;
    }
  }

  // ---- the exchange ----

  class OrderEntry {
    const manager: OrderBookManager
    var orderIdGenerator: nat

    ghost predicate Valid()
      reads this, manager, manager.repr
    {
      this !in manager.repr && manager.Valid()
    }

    ghost function View(): Exchange
      requires Valid()
      reads this, manager, manager.repr
    {
      Exchange(manager.View(), orderIdGenerator)
    }

    constructor ()
      ensures Valid() && View() == OPENING && fresh(manager) && manager.repr == {}
    {
      manager := new OrderBookManager();
      orderIdGenerator := 1;
    }

    // What the books need of a message is what the run needs of it.
    lemma CountsReachBook(msg: Message)
      requires Valid() && CountsForMessage(View(), msg)
      ensures forall t :: t in manager.orderBooks <==> t in manager.View()
      ensures msg.Enter? && msg.ticker in manager.View() ==>
        CountsForAdd(manager.View()[msg.ticker],
                     NewOrder(orderIdGenerator + 1, msg.user, msg.ticker, msg.price, msg.qty, msg.isBuy))
      ensures msg.Change? && msg.m.qty != 0 && msg.m.ticker in manager.View() ==>
        CountsForModify(manager.View()[msg.m.ticker], msg.m)
    {
      hide CountsForAdd, CountsForModify, OrderBookManager.BookIn, OrderBook.Valid, OrderBook.View;
    }

    /** One message is one step of the exchange; a new order gets the next id. */
    method ProcessEntry(msg: Message) returns (events: seq<Event>)
      requires Valid() && CountsForMessage(View(), msg)
      modifies this, manager, manager.repr
      ensures Valid() && fresh(manager.repr - old(manager.repr))
      ensures var y := Step(AS_WRITTEN, old(View()), msg); View() == y.next && events == y.events
    {
      hide OrderBookManager.Valid, OrderBookManager.View, Add, Modify, Cancel, CountsForAdd, CountsForModify;
      CountsReachBook(msg);
      events := [];
      match msg {
        case Create(ticker) =>
          var _ := manager.CreateOrderBook(ticker);
        case Enter(user, ticker, price, qty, isBuy) =>
          orderIdGenerator := orderIdGenerator + 1;
          var order := new Order(NewOrder(orderIdGenerator, user, ticker, price, qty, isBuy));
          var _, sent := manager.AddOrder(order);
          events := sent;
        case Change(m) =>
          var _, sent := manager.ModifyOrder(m);
          events := sent;
        case Withdraw(c) =>
          var _, sent := manager.CancelOrder(c);
          events := sent;
      }
    }
  }

  // ---- the client ----

  lemma {:induction false} SubsetSize<T>(a: set<T>, b: set<T>)
    requires a <= b
    ensures |a| <= |b|
  {
    if a != {} {
      var x :| x in a;
      SubsetSize(a - {x}, b - {x});
    }
  }

  // Each book has a ticker of its own.
  lemma {:induction false} TickersOfBooks(tickers: map<nat, uint16>, books: seq<BookDepth>, n: nat) returns (seen: set<nat>)
    requires Indexes(tickers, books) && n <= |books|
    ensures |seen| == n && seen <= tickers.Keys && forall t :: t in seen ==> tickers[t] < n
  {
    if n == 0 {
      seen := {};
    } else {
      var before := TickersOfBooks(tickers, books, n - 1);
      var t := books[n - 1].ticker;
      assert tickers[t] == n - 1 && t !in before;
      seen := before + {t};
    }
  }

  // With no more than 2^16 tickers about, there is an index left for each of them.
  lemma IndexLeft(client: ClientFeedHandler, ticker: nat, tickers: set<nat>)
    requires client.Valid() && client.tickers.Keys <= tickers && ticker in tickers && |tickers| <= TWO_16
    ensures client.HasIndexFor(ticker)
  {
    if ticker !in client.tickers {
      var seen := TickersOfBooks(client.tickers, client.books, |client.books|);
      SubsetSize(seen + {ticker}, tickers);
    }
  }

  predicate AnnouncesOnly(events: seq<Event>, tickers: set<nat>) {
    forall i :: 0 <= i < |events| && events[i].OrderAdded? ==> events[i].ticker in tickers
  }

  // One message to the client.
  method DeliverOne(client: ClientFeedHandler, e: Event, ghost tickers: set<nat>)
    requires client.Valid() && client.tickers.Keys <= tickers && |tickers| <= TWO_16
    requires e.OrderAdded? ==> e.ticker in tickers
    modifies client, client.orderbooks
    ensures client.Valid() && client.tickers.Keys <= tickers && client.view == OnEvent(old(client.view), e)
    ensures forall i :: 0 <= i < |client.orderbooks| ==> client.orderbooks[i] in old(client.orderbooks) || fresh(client.orderbooks[i])
  {
    hide ClientFeedHandler.Valid, OnAdd, OnCancel, OnModify, OnFill;
    match e {
      case OrderAdded(id, ticker, price, qty, isBuy) =>
        IndexLeft(client, ticker, tickers);
        client.AddOrder(AddOrderData(id, ticker, price, if qty < TWO_31 then qty else qty - TWO_32, isBuy, 0));
      case OrderModified(id, qty) =>
        client.ModifyOrder(id, if qty < TWO_31 then qty else qty - TWO_32);
      case OrderCancelled(id) =>
        client.CancelOrder(id);
      case OrderFilled(id, _, qty) =>
        client.FillOrder(id, qty);
    }
  }

  lemma FeedOneMore(c: Client, events: seq<Event>, i: nat)
    requires i < |events|
    ensures Feed(c, events[..i + 1]) == OnEvent(Feed(c, events[..i]), events[i])
  {
    hide OnEvent;
    assert events[..i + 1] == events[..i] + [events[i]];
    FeedAppend(c, events[..i], [events[i]]);
    var d := Feed(c, events[..i]);
    assert Feed(d, [events[i]]) == Feed(OnEvent(d, events[i]), []);
  }

  /** The messages arrive in order and without loss. */
  method Deliver(client: ClientFeedHandler, events: seq<Event>, ghost tickers: set<nat>)
    requires client.Valid() && client.tickers.Keys <= tickers && |tickers| <= TWO_16 && AnnouncesOnly(events, tickers)
    modifies client, client.orderbooks
    ensures client.Valid() && client.tickers.Keys <= tickers && client.view == Feed(old(client.view), events)
    ensures forall i :: 0 <= i < |client.orderbooks| ==> client.orderbooks[i] in old(client.orderbooks) || fresh(client.orderbooks[i])
  {
    hide ClientFeedHandler.Valid, OnEvent, Feed;
    FeedNothing(client.view, events);
    for k := 0 to |events|
      invariant client.Valid() && client.tickers.Keys <= tickers && client.view == Feed(old(client.view), events[..k])
      invariant forall i :: 0 <= i < |client.orderbooks| ==> client.orderbooks[i] in old(client.orderbooks) || fresh(client.orderbooks[i])
    {
      FeedOneMore(old(client.view), events, k);
      DeliverOne(client, events[k], tickers);
    }
    assert events[..|events|] == events;
  }

  lemma FeedNothing(c: Client, events: seq<Event>)
    ensures Feed(c, events[..0]) == c
  {
  }

  // ---- both ----

  /** The exchange after a run of the code as written. */
  function ExchangeAfter(x: Exchange, msgs: seq<Message>): Exchange
    decreases |msgs|
  {
    if msgs == [] then x else ExchangeAfter(Step(AS_WRITTEN, x, msgs[0]).next, msgs[1..])
  }

  /** A client that receives every message of the run. */
  function ClientAfter(x: Exchange, c: Client, msgs: seq<Message>): Client
    decreases |msgs|
  {
    if msgs == [] then c
    else
      var y := Step(AS_WRITTEN, x, msgs[0]);
      ClientAfter(y.next, Feed(c, y.events), msgs[1..])
  }

  // Books are opened, never closed.
  lemma {:induction false} BooksStay(x: Exchange, msgs: seq<Message>)
    ensures x.books.Keys <= ExchangeAfter(x, msgs).books.Keys
    decreases |msgs|
  {
    if msgs != [] {
      hide Add, Modify, Cancel;
      BooksStay(Step(AS_WRITTEN, x, msgs[0]).next, msgs[1..]);
    }
  }

  lemma AnnouncedTicker(build: Build, b: Book, o: NewOrder)
    ensures AnnouncesOnly(Add(build, b, o).events, {o.ticker})
  {
    hide Sweep, Insert, FillEvents;
    FillsAddNothing(build, o.id, FillLog(o.ticker, o.id, SweepOf(b, o).trades));
  }

  lemma ChangeAnnounces(build: Build, b: Book, m: ModifyRequest)
    ensures AnnouncesOnly(Modify(build, b, m).events, {m.ticker})
  {
    hide Add, ModifyErrors, NewQty, Without;
    AnnouncedTicker(build, Cancel(b, CancelRequest(m.id, m.user, m.ticker)).book, OrderOf(m));
  }

  lemma StepAnnounces(x: Exchange, msg: Message)
    ensures AnnouncesOnly(Step(AS_WRITTEN, x, msg).events, Step(AS_WRITTEN, x, msg).next.books.Keys)
  {
    hide Add, Modify, Without;
    match msg
    case Create(_) =>
    case Enter(user, ticker, price, qty, isBuy) =>
      if ticker in x.books {
        AnnouncedTicker(AS_WRITTEN, x.books[ticker], NewOrder(x.lastId + 1, user, ticker, price, qty, isBuy));
      }
    case Change(m) =>
      if m.ticker in x.books {
        ChangeAnnounces(AS_WRITTEN, x.books[m.ticker], m);
      }
    case Withdraw(_) =>
  }

  // The client is made of none of the exchange's objects.
  ghost predicate ApartFrom(client: ClientFeedHandler, entry: OrderEntry)
    reads client, entry.manager
  {
    && client !in entry.manager.repr
    && forall i :: 0 <= i < |client.orderbooks| ==> client.orderbooks[i] !in entry.manager.repr
  }

  /** Runs exchange and client together. With the counts right along the run, and no more tickers than indexes, their
      books and tables are those of the run on values. */
  method Serve(msgs: seq<Message>) returns (entry: OrderEntry, client: ClientFeedHandler)
    requires CountsForMessages(OPENING, msgs) && |ExchangeAfter(OPENING, msgs).books| <= TWO_16
    ensures entry.Valid() && entry.View() == ExchangeAfter(OPENING, msgs)
    ensures client.Valid() && client.view == ClientAfter(OPENING, NOTHING, msgs)
  {
    hide OrderEntry.Valid, OrderEntry.View, ClientFeedHandler.Valid, Step, Feed, CountsForMessage;
    entry := new OrderEntry();
    client := new ClientFeedHandler();
    ghost var tickers := ExchangeAfter(OPENING, msgs).books.Keys;
    for k := 0 to |msgs|
      invariant entry.Valid() && client.Valid() && ApartFrom(client, entry)
      invariant fresh(entry) && fresh(entry.manager) && fresh(entry.manager.repr) && fresh(client)
      invariant forall i :: 0 <= i < |client.orderbooks| ==> fresh(client.orderbooks[i])
      invariant CountsForMessages(entry.View(), msgs[k..])
      invariant ExchangeAfter(entry.View(), msgs[k..]) == ExchangeAfter(OPENING, msgs)
      invariant ClientAfter(entry.View(), client.view, msgs[k..]) == ClientAfter(OPENING, NOTHING, msgs)
      invariant client.tickers.Keys <= tickers
    {
      ghost var x := entry.View();
      assert msgs[k..][0] == msgs[k] && msgs[k..][1..] == msgs[k + 1..];
      var events := entry.ProcessEntry(msgs[k]);
      StepAnnounces(x, msgs[k]);
      BooksStay(entry.View(), msgs[k + 1..]);
      Deliver(client, events, tickers);
    }
    assert msgs[|msgs|..] == [];
  }

  lemma {:induction false} AgreesAtEnd(x: Exchange, c: Client, msgs: seq<Message>)
    requires KeepsAgreeing(AS_WRITTEN, x, c, msgs)
    ensures Agrees(ExchangeAfter(x, msgs), ClientAfter(x, c, msgs))
    decreases |msgs|
  {
    hide Step, Agrees;
    if msgs != [] {
      var y := Step(AS_WRITTEN, x, msgs[0]);
      AgreesAtEnd(y.next, Feed(c, y.events), msgs[1..]);
    }
  }

  lemma {:induction false} GoodAtEnd(x: Exchange, msgs: seq<Message>)
    requires AllGood(x) && SafeMessages(AS_WRITTEN, x, msgs)
    ensures AllGood(ExchangeAfter(x, msgs))
    decreases |msgs|
  {
    hide Step, Good, SafeMessage;
    if msgs != [] {
      StepKeepsGood(AS_WRITTEN, x, msgs[0]);
      GoodAtEnd(Step(AS_WRITTEN, x, msgs[0]).next, msgs[1..]);
    }
  }

  /** What that comes to for the two objects: fewer than 2^16 new orders, none of quantity zero left to rest, are
      enough for the exchange's books to end up good, and plain messages for the client's depth to be theirs. */
  method ServeSafely(msgs: seq<Message>) returns (entry: OrderEntry, client: ClientFeedHandler)
    requires SafeMessages(AS_WRITTEN, OPENING, msgs) && Entered(msgs) < TWO_16
    requires |ExchangeAfter(OPENING, msgs).books| <= TWO_16
    ensures entry.Valid() && client.Valid() && AllGood(entry.View())
    ensures PlainMessages(OPENING, msgs) ==> Agrees(entry.View(), client.view)
  {
    hide SafeMessages, CountsForMessages, KeepsAgreeing, PlainMessages, Agrees, Entered, OrderEntry.Valid, OrderEntry.View,
      ClientFeedHandler.Valid, ExchangeAfter, ClientAfter;
    FewEntered(msgs);
    GoodAtEnd(OPENING, msgs);
    AgreementAsWritten(msgs);
    if PlainMessages(OPENING, msgs) {
      AgreesAtEnd(OPENING, NOTHING, msgs);
    }
    entry, client := Serve(msgs);
  }
}
