/** All books of the exchange, the routing of requests to them, and the order ids the exchange hands out. */
module ExchangeSpec {
  import opened Orders
  import opened BookSpec

  datatype Exchange = Exchange(books: map<nat, Book>, lastId: nat)

  /** The id generator starts at 1 and is incremented before use. */
  const OPENING := Exchange(map[], 1)

  datatype Message =
    | Create(ticker: nat)
    | Enter(user: nat, ticker: nat, price: nat, qty: uint32, isBuy: bool)
    | Change(m: ModifyRequest)
    | Withdraw(c: CancelRequest)

  datatype Reply = Reply(next: Exchange, outcome: Outcome, events: seq<Event>)

  function RouteAdd(build: Build, books: map<nat, Book>, o: NewOrder): Effect {
    if o.ticker !in books then Effect(EMPTY, Rejected([OrderBookNotFound]), [], []) else Add(build, books[o.ticker], o)
  }

  // A modification to quantity zero is refused before any book is looked up.
  function RouteModify(build: Build, books: map<nat, Book>, m: ModifyRequest): Effect {
    if m.qty == 0 then
      Effect(if m.ticker in books then books[m.ticker] else EMPTY, Rejected([ModificationTrivial]), [], [])
    else if m.ticker !in books then Effect(EMPTY, Rejected([OrderBookNotFound]), [], [])
    else Modify(build, books[m.ticker], m)
  }

  function RouteCancel(books: map<nat, Book>, c: CancelRequest): Effect {
    if c.ticker !in books then Effect(EMPTY, Rejected([OrderBookNotFound]), [], []) else Cancel(books[c.ticker], c)
  }

  // Only the book the request was routed to can change.
  function Settle(books: map<nat, Book>, ticker: nat, e: Effect): map<nat, Book> {
    if ticker in books then books[ticker := e.book] else books
  }

  function Step(build: Build, x: Exchange, msg: Message): Reply {
    match msg
    case Create(ticker) =>
      if ticker in x.books then Reply(x, Rejected([]), []) else Reply(x.(books := x.books[ticker := EMPTY]), Accepted, [])
    case Enter(user, ticker, price, qty, isBuy) =>
      var id := x.lastId + 1;
      var e := RouteAdd(build, x.books, NewOrder(id, user, ticker, price, qty, isBuy));
      Reply(Exchange(Settle(x.books, ticker, e), id), e.outcome, e.events)
    case Change(m) =>
      var e := RouteModify(build, x.books, m);
      Reply(x.(books := Settle(x.books, m.ticker, e)), e.outcome, e.events)
    case Withdraw(c) =>
      var e := RouteCancel(x.books, c);
      Reply(x.(books := Settle(x.books, c.ticker, e)), e.outcome, e.events)
  }
}
