/** The books of all tickers and the routing of requests to them. */
module OrderBookManagers {
  import opened Orders
  import opened BookSpec
  import opened ExchangeSpec
  import opened Levels
  import opened OrderBooks

  lemma BookFacts(book: OrderBook)
    requires book.Valid()
    ensures book.bids.links <= book.bids.repr && book.asks.links <= book.asks.repr
    ensures book.bids.HoldsOrders() && book.asks.HoldsOrders()
    ensures book.bids in book.Repr() && book.asks in book.Repr() && book.limitOrders in book.Repr()
    ensures book.bids.repr <= book.Repr() && book.asks.repr <= book.Repr()
  {
    SideFacts(book.bids);
    SideFacts(book.asks);
  }

  class OrderBookManager {
    var orderBooks: map<nat, OrderBook>
    ghost var repr: set<object>

    ghost predicate Valid()
      reads this, repr
    {
      && this !in repr
      && (forall t :: t in orderBooks ==> BookIn(orderBooks[t]))
      && (forall t, u :: t in orderBooks && u in orderBooks && t != u ==> Apart(orderBooks[t], orderBooks[u]))
    }

    ghost predicate BookIn(book: OrderBook)
      reads this, repr
    {
      && book.bids in repr && book.asks in repr && book.limitOrders in repr
      && book.bids.repr <= repr && book.asks.repr <= repr && book.Repr() <= repr
      && book.bids.links <= book.bids.repr && book.asks.links <= book.asks.repr
      && book.bids.HoldsOrders() && book.asks.HoldsOrders()
      && book.Valid()
    }

    static ghost predicate Apart(a: OrderBook, b: OrderBook)
      reads a.bids`repr, a.asks`repr, b.bids`repr, b.asks`repr
    {
      a.Repr() !! b.Repr()
    }

    ghost function View(): map<nat, Book>
      requires Valid()
      reads this, repr
    {
      map t | t in orderBooks :: orderBooks[t].View()
    }

    constructor ()
      ensures Valid() && View() == map[] && repr == {}
    {
      orderBooks := map[];
      repr := {};
    }

    lemma BookAt(ticker: nat)
      requires Valid() && ticker in orderBooks
      ensures var book := orderBooks[ticker];
        && this !in repr && book.Valid() && book.Repr() <= repr
        && book.bids.links <= book.bids.repr && book.asks.links <= book.asks.repr
        && book.bids.HoldsOrders() && book.asks.HoldsOrders()
        && book.bids in repr && book.asks in repr && book.limitOrders in repr
        && book.bids.repr <= book.Repr() && book.asks.repr <= book.Repr()
        && book.bids in book.Repr() && book.asks in book.Repr() && book.limitOrders in book.Repr()
        && View()[ticker] == book.View()
    {
      BookFacts(orderBooks[ticker]);
    }

    // One book has changed, within its own objects and new ones.
    twostate predicate OnlyChanged(ticker: nat)
      requires ticker in orderBooks
      reads this, repr, orderBooks[ticker].bids`repr, orderBooks[ticker].asks`repr
    {
      && old(Valid()) && orderBooks == old(orderBooks) && this !in repr
      && repr == old(repr) + orderBooks[ticker].Repr()
      && fresh(orderBooks[ticker].Repr() - old(orderBooks[ticker].Repr()))
      && (forall o: object | o in old(repr) && o !in old(orderBooks[ticker].Repr()) :: unchanged(o))
    }

    // A book none of whose objects has changed is the book it was.
    twostate lemma Untouched(new u: nat)
      requires u in old(orderBooks) && u in orderBooks && orderBooks[u] == old(orderBooks[u])
      requires old(BookIn(orderBooks[u])) && old(repr) <= repr
      requires forall o: object | o in old(repr) && o in old(orderBooks[u].Repr()) :: unchanged(o)
      ensures BookIn(orderBooks[u]) && orderBooks[u].View() == old(orderBooks[u].View())
      ensures orderBooks[u].Repr() == old(orderBooks[u].Repr()) && orderBooks[u].Repr() <= old(repr)
    {
      hide SideBook.Valid, IndexAgrees, SideBook.View;
    }

    twostate lemma ViewWithOneBook(ticker: nat)
      requires old(Valid()) && Valid() && ticker in orderBooks && orderBooks == old(orderBooks)[ticker := orderBooks[ticker]]
      requires forall u | u in old(orderBooks) && u != ticker :: orderBooks[u].View() == old(orderBooks[u].View())
      ensures View() == old(View())[ticker := orderBooks[ticker].View()]
    {
      hide OrderBook.Valid, OrderBook.View, OrderBook.Repr, Apart;
    }

    twostate lemma OthersKept(ticker: nat)
      requires ticker in orderBooks && OnlyChanged(ticker) && orderBooks[ticker].Valid()
      ensures Valid() && View() == old(View())[ticker := orderBooks[ticker].View()]
      ensures fresh(repr - old(repr))
    {
      hide OrderBook.Valid, OrderBook.View;
      BookFacts(orderBooks[ticker]);
      forall u | u in orderBooks && u != ticker
        ensures BookIn(orderBooks[u]) && orderBooks[u].View() == old(orderBooks[u].View())
        ensures Apart(orderBooks[u], orderBooks[ticker]) && orderBooks[u].Repr() == old(orderBooks[u].Repr())
      {
        assert old(BookIn(orderBooks[u])) && old(Apart(orderBooks[u], orderBooks[ticker]));
        Untouched(u);
      }
      forall t, u | t in orderBooks && u in orderBooks && t != u
        ensures Apart(orderBooks[t], orderBooks[u])
      {
        assert old(Apart(orderBooks[t], orderBooks[u]));
      }
      assert orderBooks == old(orderBooks)[ticker := orderBooks[ticker]];
      ViewWithOneBook(ticker);
    }

    /** Routes a new order to the book of its ticker. */
    method AddOrder(order: Order) returns (outcome: Outcome, events: seq<Event>)
      requires Valid() && order !in repr
      requires order.ticker in orderBooks ==> CountsForAdd(View()[order.ticker], RequestOf(order))
      modifies this`repr, repr, order
      ensures Valid() && fresh(repr - old(repr))
      ensures var e := RouteAdd(AS_WRITTEN, old(View()), old(RequestOf(order)));
        View() == Settle(old(View()), order.ticker, e) && outcome == e.outcome && events == e.events
      ensures order.ticker !in old(orderBooks) ==> outcome == Rejected([OrderBookNotFound]) && events == []
      ensures order.ticker in old(orderBooks) ==>
        outcome == Add(AS_WRITTEN, old(View())[order.ticker], old(RequestOf(order))).outcome
    {
      hide Valid, OrderBook.Valid, OrderBook.View, OrderBook.Repr, SideBook.HoldsOrders, CountsForAdd, Add, SweepOf, Apart;
      if order.ticker !in orderBooks {
        return Rejected([OrderBookNotFound]), [];
      }
      var book := orderBooks[order.ticker];
      BookAt(order.ticker);
      outcome, events := book.AddOrder(order);
      BookFacts(book);
      repr := repr + book.Repr();
      OthersKept(order.ticker);
    }

    /** Routes a modification to the book of its ticker, unless it asks for quantity zero. */
    method ModifyOrder(m: ModifyRequest) returns (outcome: Outcome, events: seq<Event>)
      requires Valid()
      requires m.qty != 0 && m.ticker in orderBooks ==> CountsForModify(View()[m.ticker], m)
      modifies this`repr, repr
      ensures Valid() && fresh(repr - old(repr))
      ensures var e := RouteModify(AS_WRITTEN, old(View()), m);
        View() == Settle(old(View()), m.ticker, e) && outcome == e.outcome && events == e.events
      ensures m.qty == 0 ==> outcome == Rejected([ModificationTrivial]) && events == []
      ensures m.qty != 0 && m.ticker !in old(orderBooks) ==> outcome == Rejected([OrderBookNotFound]) && events == []
      ensures m.qty != 0 && m.ticker in old(orderBooks) ==> outcome == Modify(AS_WRITTEN, old(View())[m.ticker], m).outcome
    {
      hide Valid, OrderBook.Valid, OrderBook.View, OrderBook.Repr, SideBook.HoldsOrders, CountsForModify, Modify, SweepOf, Apart;
      if m.qty == 0 {
        return Rejected([ModificationTrivial]), [];
      }
      if m.ticker !in orderBooks {
        return Rejected([OrderBookNotFound]), [];
      }
      var book := orderBooks[m.ticker];
      BookAt(m.ticker);
      outcome, events := book.ModifyOrder(m);
      BookFacts(book);
      repr := repr + book.Repr();
      OthersKept(m.ticker);
    }

    /** Routes a cancellation to the book of its ticker. */
    method CancelOrder(c: CancelRequest) returns (outcome: Outcome, events: seq<Event>)
      requires Valid()
      modifies this`repr, repr
      ensures Valid() && fresh(repr - old(repr))
      ensures var e := RouteCancel(old(View()), c);
        View() == Settle(old(View()), c.ticker, e) && outcome == e.outcome && events == e.events
      ensures c.ticker !in old(orderBooks) ==> outcome == Rejected([OrderBookNotFound]) && events == []
      ensures c.ticker in old(orderBooks) ==> outcome == Cancel(old(View())[c.ticker], c).outcome
    {
      hide Valid, OrderBook.Valid, OrderBook.View, OrderBook.Repr, SideBook.HoldsOrders, Cancel, Apart;
      if c.ticker !in orderBooks {
        return Rejected([OrderBookNotFound]), [];
      }
      var book := orderBooks[c.ticker];
      BookAt(c.ticker);
      outcome, events := book.CancelOrder(c);
      BookFacts(book);
      repr := repr + book.Repr();
      OthersKept(c.ticker);
    }

    static lemma ApartOutside(a: OrderBook, b: OrderBook, outside: set<object>)
      requires a.Repr() <= outside && b.Repr() !! outside
      ensures Apart(a, b) && Apart(b, a)
    {
    }

    twostate lemma NewBookAdded(ticker: nat)
      requires old(Valid()) && ticker !in old(orderBooks) && ticker in orderBooks && this !in repr
      requires orderBooks == old(orderBooks)[ticker := orderBooks[ticker]]
      requires repr == old(repr) + orderBooks[ticker].Repr() && fresh(orderBooks[ticker].Repr())
      requires BookIn(orderBooks[ticker]) && orderBooks[ticker].View() == EMPTY
      requires forall o: object | o in old(repr) :: unchanged(o)
      ensures Valid() && View() == old(View())[ticker := EMPTY] && fresh(repr - old(repr))
    {
      hide OrderBook.Valid, OrderBook.View, OrderBook.Repr, SideBook.HoldsOrders, Apart;
      forall u | u in old(orderBooks)
        ensures BookIn(orderBooks[u]) && orderBooks[u].View() == old(orderBooks[u].View())
        ensures orderBooks[u].Repr() == old(orderBooks[u].Repr()) && orderBooks[u].Repr() <= old(repr)
      {
        assert old(BookIn(orderBooks[u]));
        Untouched(u);
      }
      forall t, u | t in orderBooks && u in orderBooks && t != u
        ensures Apart(orderBooks[t], orderBooks[u])
      {
        if t == ticker {
          ApartOutside(orderBooks[u], orderBooks[t], old(repr));
        } else if u == ticker {
          ApartOutside(orderBooks[t], orderBooks[u], old(repr));
        } else {
          assert old(Apart(orderBooks[t], orderBooks[u]));
        }
      }
      assert Valid();
      ViewWithOneBook(ticker);
    }

    /** Opens an empty book for a ticker that has none. */
    method CreateOrderBook(ticker: nat) returns (created: bool)
      requires Valid()
      modifies this
      ensures Valid() && fresh(repr - old(repr))
      ensures created <==> ticker !in old(View())
      ensures View() == if created then old(View())[ticker := EMPTY] else old(View())
    {
      hide OrderBook.Valid, OrderBook.View;
      if ticker in orderBooks {
        return false;
      }
      var book := new OrderBook();
      BookFacts(book);
      orderBooks := orderBooks[ticker := book];
      repr := repr + book.Repr();
      NewBookAdded(ticker);
      return true;
    }
  }
}
