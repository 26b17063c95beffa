/** The client's tables as objects: one book per ticker behind a ticker table, and an order table that
    points into the books by index. */
module ClientFeedHandlers {
  import opened Orders
  import opened ClientFeed

  /** What the order table stores: the message as it came in, with the index of its book filled in. */
  datatype AddOrderData = AddOrderData(orderId: nat, ticker: nat, price: nat, quantity: int, isBuySide: bool, bookIndex: uint16)
  {
    function ToOpenOrder(): OpenOrder {
      OpenOrder(ticker, isBuySide, price, quantity)
    }
  }

  /** The contents of one book. */
  datatype BookDepth = BookDepth(ticker: nat, bids: map<nat, int>, asks: map<nat, int>)
  {
    function Side(isBuySide: bool): map<nat, int> {
      if isBuySide then bids else asks
    }

    function WithSide(isBuySide: bool, side: map<nat, int>): BookDepth {
      if isBuySide then this.(bids := side) else this.(asks := side)
    }
  }

  class ClientOrderBook {
    const ticker: nat
    var bids: map<nat, int>
    var asks: map<nat, int>

    constructor (ticker: nat)
      ensures Contents() == BookDepth(ticker, map[], map[])
    {
      this.ticker, bids, asks := ticker, map[], map[];
    }

    ghost function Contents(): BookDepth
      reads this
    {
      BookDepth(ticker, bids, asks)
    }

    method AddToBook(isBuySide: bool, shares: int, price: nat)
      modifies this
      ensures Contents() == Grown(old(Contents()), isBuySide, shares, price)
    {
      if isBuySide {
        bids := bids[price := (if price in bids then bids[price] else 0) + shares];
      } else {
        asks := asks[price := (if price in asks then asks[price] else 0) + shares];
      }
    }

    method RemoveFromBook(isBuySide: bool, shares: int, price: nat)
      modifies this
      ensures Contents() == Shrunk(old(Contents()), isBuySide, shares, price)
    {
      var side := if isBuySide then bids else asks;
      if price !in side {
        return;
      }
      side := side[price := side[price] - shares];
      if side[price] <= 0 {
        side := side - {price};
      }
      if isBuySide {
        bids := side;
      } else {
        asks := side;
      }
    }
  }

  function Grown(b: BookDepth, isBuySide: bool, shares: int, price: nat): BookDepth {
    b.WithSide(isBuySide, AddToBook(b.Side(isBuySide), price, shares))
  }

  function Shrunk(b: BookDepth, isBuySide: bool, shares: int, price: nat): BookDepth {
    b.WithSide(isBuySide, RemoveFromBook(b.Side(isBuySide), price, shares))
  }

  // ---- the tables together ----

  /** The ticker table and the books are inverse to each other. */
  ghost predicate Indexes(tickers: map<nat, uint16>, books: seq<BookDepth>) {
    && |books| <= TWO_16
    && (forall t :: t in tickers ==> tickers[t] < |books| && books[tickers[t]].ticker == t)
    && (forall i :: 0 <= i < |books| ==> books[i].ticker in tickers && tickers[books[i].ticker] == i)
  }

  /** Every open order points to the book of its ticker, and is the order of the view. */
  ghost predicate ShowsOrders(tickers: map<nat, uint16>, orders: map<nat, AddOrderData>, view: map<nat, OpenOrder>) {
    && (forall id :: id in orders <==> id in view)
    && (forall id :: id in orders ==>
          && orders[id].ToOpenOrder() == view[id]
          && orders[id].ticker in tickers && tickers[orders[id].ticker] == orders[id].bookIndex)
  }

  /** The depth at a ticker, side and price is in the book of the ticker. */
  ghost predicate ShowsDepth(tickers: map<nat, uint16>, books: seq<BookDepth>, depth: map<Key, int>)
    requires Indexes(tickers, books)
  {
    forall k: Key ::
      && (k in depth <==> k.ticker in tickers && k.price in books[tickers[k.ticker]].Side(k.isBuy))
      && (k in depth ==> depth[k] == books[tickers[k.ticker]].Side(k.isBuy)[k.price])
  }

  lemma GrownShows(tickers: map<nat, uint16>, books: seq<BookDepth>, depth: map<Key, int>, i: nat, k: Key, shares: int)
    requires Indexes(tickers, books) && ShowsDepth(tickers, books, depth)
    requires k.ticker in tickers && tickers[k.ticker] == i
    ensures var next := books[i := Grown(books[i], k.isBuy, shares, k.price)];
      Indexes(tickers, next) && ShowsDepth(tickers, next, AddToBook(depth, k, shares))
  {
  }

  lemma ShrunkShows(tickers: map<nat, uint16>, books: seq<BookDepth>, depth: map<Key, int>, i: nat, k: Key, shares: int)
    requires Indexes(tickers, books) && ShowsDepth(tickers, books, depth)
    requires k.ticker in tickers && tickers[k.ticker] == i
    ensures var next := books[i := Shrunk(books[i], k.isBuy, shares, k.price)];
      Indexes(tickers, next) && ShowsDepth(tickers, next, RemoveFromBook(depth, k, shares))
  {
  }

  /** The tables hold what the view says. */
  ghost predicate Shows(tickers: map<nat, uint16>, books: seq<BookDepth>, orders: map<nat, AddOrderData>, view: Client) {
    Indexes(tickers, books) && ShowsOrders(tickers, orders, view.orders) && ShowsDepth(tickers, books, view.depth)
  }

  lemma EmptyBookShows(tickers: map<nat, uint16>, books: seq<BookDepth>, orders: map<nat, AddOrderData>, view: Client, ticker: nat)
    requires Shows(tickers, books, orders, view) && ticker !in tickers && |books| < TWO_16
    ensures Shows(tickers[ticker := |books|], books + [BookDepth(ticker, map[], map[])], orders, view)
  {
  }

  lemma TooManyBooks(tickers: map<nat, uint16>, books: seq<BookDepth>, orders: map<nat, AddOrderData>, view: Client)
    ensures Shows(tickers, books, orders, view) ==> |books| <= TWO_16
  {
  }

  lemma BooksIndexed(tickers: map<nat, uint16>, books: seq<BookDepth>, orders: map<nat, AddOrderData>, view: Client, ticker: nat)
    requires Shows(tickers, books, orders, view)
    ensures |books| <= TWO_16
    ensures ticker in tickers ==> tickers[ticker] < |books|
    ensures ticker !in tickers ==> forall i :: 0 <= i < |books| ==> books[i].ticker != ticker
  {
  }

  lemma AddShows(tickers: map<nat, uint16>, books: seq<BookDepth>, orders: map<nat, AddOrderData>, view: Client, a: AddOrderData)
    requires Shows(tickers, books, orders, view) && a.ticker in tickers && tickers[a.ticker] == a.bookIndex
    ensures a.bookIndex < |books|
    ensures Shows(tickers, books[a.bookIndex := Grown(books[a.bookIndex], a.isBuySide, a.quantity, a.price)],
                  if a.orderId in orders then orders else orders[a.orderId := a], OnAdd(view, a.orderId, a.ToOpenOrder()))
  {
    hide ShowsDepth, AddToBook;
    GrownShows(tickers, books, view.depth, a.bookIndex, KeyOf(a.ToOpenOrder()), a.quantity);
  }

  lemma OpenIsIndexed(tickers: map<nat, uint16>, books: seq<BookDepth>, orders: map<nat, AddOrderData>, view: Client, id: nat)
    requires Shows(tickers, books, orders, view)
    ensures id in orders <==> id in view.orders
    ensures id in orders ==> orders[id].bookIndex < |books| && orders[id].ToOpenOrder() == view.orders[id]
  {
  }

  // An order that shrinks, with what its book loses; an order with nothing left may be closed.
  lemma ShrinkShows(tickers: map<nat, uint16>, books: seq<BookDepth>, orders: map<nat, AddOrderData>, view: Client,
                    id: nat, shares: int, left: int)
    requires Shows(tickers, books, orders, view) && id in orders
    ensures id in view.orders && orders[id].bookIndex < |books|
    ensures var o := orders[id];
      var next := books[o.bookIndex := Shrunk(books[o.bookIndex], o.isBuySide, shares, o.price)];
      var depth := RemoveFromBook(view.depth, KeyOf(view.orders[id]), shares);
      && Shows(tickers, next, orders - {id}, Client(view.orders - {id}, depth))
      && Shows(tickers, next, orders[id := o.(quantity := left)], Client(view.orders[id := view.orders[id].(qty := left)], depth))
  {
    hide ShowsDepth, RemoveFromBook;
    ShrunkShows(tickers, books, view.depth, orders[id].bookIndex, KeyOf(view.orders[id]), shares);
  }

  lemma GrowShows(tickers: map<nat, uint16>, books: seq<BookDepth>, orders: map<nat, AddOrderData>, view: Client,
                  id: nat, shares: int, qty: int)
    requires Shows(tickers, books, orders, view) && id in orders
    ensures id in view.orders && orders[id].bookIndex < |books|
    ensures var o := orders[id];
      Shows(tickers, books[o.bookIndex := Grown(books[o.bookIndex], o.isBuySide, shares, o.price)], orders[id := o.(quantity := qty)],
            Client(view.orders[id := view.orders[id].(qty := qty)], AddToBook(view.depth, KeyOf(view.orders[id]), shares)))
  {
    hide ShowsDepth, AddToBook;
    GrownShows(tickers, books, view.depth, orders[id].bookIndex, KeyOf(view.orders[id]), shares);
  }

  class ClientFeedHandler {
    var orderbooks: seq<ClientOrderBook>
    var tickers: map<nat, uint16>
    var orders: map<nat, AddOrderData>
    ghost var books: seq<BookDepth>
    ghost var view: Client

    /** No two tickers share a book, and `books` is what the books hold. */
    ghost predicate Separate()
      reads this, orderbooks
    {
      && (forall i, j :: 0 <= i < j < |orderbooks| ==> orderbooks[i] != orderbooks[j])
      && |books| == |orderbooks|
      && (forall i :: 0 <= i < |orderbooks| ==> orderbooks[i].Contents() == books[i])
    }

    ghost predicate Valid()
      reads this, orderbooks
    {
      Separate() && Shows(tickers, books, orders, view)
    }

    constructor ()
      ensures Valid() && view == NOTHING && orderbooks == [] && tickers == map[]
    {
      orderbooks, tickers, orders := [], map[], map[];
      books, view := [], NOTHING;
    }

    // There is an index left for the book of the ticker.
    ghost predicate HasIndexFor(ticker: nat)
      reads this
    {
      ticker in tickers || |orderbooks| < TWO_16
    }

    // The book of a ticker, made on first sight; the index that is stored for it has 16 bits.
    method BookOf(ticker: nat) returns (bookId: uint16)
      requires Valid()
      modifies this
      ensures view == old(view) && orders == old(orders) && tickers.Keys == old(tickers.Keys) + {ticker}
      ensures tickers[ticker] == bookId < |orderbooks| && Separate()
      ensures if old(HasIndexFor(ticker)) then Valid() else |orderbooks| > TWO_16 && orderbooks[bookId].ticker != ticker
      ensures forall i :: 0 <= i < |orderbooks| ==> orderbooks[i] in old(orderbooks) || fresh(orderbooks[i])
    {
      hide Shows;
      BooksIndexed(tickers, books, orders, view, ticker);
      if ticker !in tickers {
        if |orderbooks| < TWO_16 {
          EmptyBookShows(tickers, books, orders, view, ticker);
        }
        var book := new ClientOrderBook(ticker);
        orderbooks := orderbooks + [book];
        books := books + [book.Contents()];
        tickers := tickers[ticker := (|orderbooks| - 1) % TWO_16];
      }
      bookId := tickers[ticker];
    }

    /** A new order opens, and its quantity goes to the depth at its price. The tables stay what they are to be exactly
        while there is an index left for the ticker; the ticker after that is given another one's book. */
    method AddOrder(newOrder: AddOrderData)
      requires Valid()
      modifies this, orderbooks
      ensures Valid() <==> old(HasIndexFor(newOrder.ticker))
      ensures Valid() ==> view == OnAdd(old(view), newOrder.orderId, newOrder.ToOpenOrder())
      ensures newOrder.ticker in tickers && tickers[newOrder.ticker] < |orderbooks|
      ensures !Valid() ==> orderbooks[tickers[newOrder.ticker]].ticker != newOrder.ticker
      ensures tickers.Keys == old(tickers.Keys) + {newOrder.ticker}
      ensures orders == if newOrder.orderId in old(orders) then old(orders)
                        else old(orders)[newOrder.orderId := newOrder.(bookIndex := tickers[newOrder.ticker])]
      ensures forall i :: 0 <= i < |orderbooks| ==> orderbooks[i] in old(orderbooks) || fresh(orderbooks[i])
    {
      hide Shows, Grown, OnAdd;
      ghost var fits := HasIndexFor(newOrder.ticker);
      var bookId := BookOf(newOrder.ticker);
      var entry := newOrder.(bookIndex := bookId);
      if fits {
        AddShows(tickers, books, orders, view, entry);
      }
      var book := orderbooks[bookId];
      book.AddToBook(entry.isBuySide, entry.quantity, entry.price);
      if entry.orderId !in orders {
        orders := orders[entry.orderId := entry];
      }
      books := books[bookId := book.Contents()];
      view := OnAdd(view, entry.orderId, entry.ToOpenOrder());
      TooManyBooks(tickers, books, orders, view);
    }

    /** An open order leaves with all its quantity; an unknown one is ignored. */
    method CancelOrder(orderId: nat)
      requires Valid()
      modifies this, orderbooks
      ensures Valid() && view == OnCancel(old(view), orderId) && orderbooks == old(orderbooks) && tickers == old(tickers)
      ensures orders == old(orders) - {orderId}
    {
      hide Shows, Shrunk;
      OpenIsIndexed(tickers, books, orders, view, orderId);
      if orderId !in orders {
        return;
      }
      var order := orders[orderId];
      ShrinkShows(tickers, books, orders, view, orderId, order.quantity, 0);
      var book := orderbooks[order.bookIndex];
      book.RemoveFromBook(order.isBuySide, order.quantity, order.price);
      orders := orders - {orderId};
      books := books[order.bookIndex := book.Contents()];
      view := OnCancel(view, orderId);
    }

    /** An open order gets the quantity of the message, and the depth moves by the difference. */
    method ModifyOrder(orderId: nat, quantity: int)
      requires Valid()
      modifies this, orderbooks
      ensures Valid() && view == OnModify(old(view), orderId, quantity) && orderbooks == old(orderbooks) && tickers == old(tickers)
      ensures orders.Keys == old(orders.Keys) && orders - {orderId} == old(orders) - {orderId}
      ensures orderId in orders ==> orders[orderId] == old(orders)[orderId].(quantity := quantity)
    {
      hide Shows, Grown, Shrunk;
      OpenIsIndexed(tickers, books, orders, view, orderId);
      if orderId !in orders {
        return;
      }
      var order := orders[orderId];
      var book := orderbooks[order.bookIndex];
      if quantity > order.quantity {
        GrowShows(tickers, books, orders, view, orderId, quantity - order.quantity, quantity);
        book.AddToBook(order.isBuySide, quantity - order.quantity, order.price);
      } else {
        ShrinkShows(tickers, books, orders, view, orderId, order.quantity - quantity, quantity);
        book.RemoveFromBook(order.isBuySide, order.quantity - quantity, order.price);
      }
      orders := orders[orderId := order.(quantity := quantity)];
      books := books[order.bookIndex := book.Contents()];
      view := OnModify(view, orderId, quantity);
    }

    /** A fill takes its quantity off the order and the depth; an order without quantity left is closed. */
    method FillOrder(orderId: nat, quantity: int)
      requires Valid()
      modifies this, orderbooks
      ensures Valid() && view == OnFill(old(view), orderId, quantity) && orderbooks == old(orderbooks) && tickers == old(tickers)
      ensures orders - {orderId} == old(orders) - {orderId}
      ensures orderId in orders <==> orderId in old(orders) && old(orders)[orderId].quantity > quantity
      ensures orderId in orders ==>
        orders[orderId] == old(orders)[orderId].(quantity := old(orders)[orderId].quantity - quantity)
    {
      hide Shows, Shrunk;
      OpenIsIndexed(tickers, books, orders, view, orderId);
      if orderId !in orders {
        return;
      }
      var order := orders[orderId];
      ShrinkShows(tickers, books, orders, view, orderId, quantity, order.quantity - quantity);
      var book := orderbooks[order.bookIndex];
      book.RemoveFromBook(order.isBuySide, quantity, order.price);
      books := books[order.bookIndex := book.Contents()];
      order := order.(quantity := order.quantity - quantity);
      var open := orders;
      orders := orders[orderId := order];
      if order.quantity <= 0 {
        orders := orders - {orderId};
        assert orders == open - {orderId};
      }
      view := OnFill(view, orderId, quantity);
    }
  }
}
