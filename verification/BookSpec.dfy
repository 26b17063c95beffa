/** A book as two queues of resting orders, and what each request does to it. */
module BookSpec {
  import opened Orders
  import opened Matching
  import opened LevelCounts
  import opened Sequences

  /** The two places where the code misses its evident intent. `raiseAdds`: raising the quantity of an
      order adds the requested quantity on top of twice the current one. `stampsTaker`: both fill
      messages of a match carry the id of the incoming order. */
  datatype Build = Build(raiseAdds: bool, stampsTaker: bool)

  const AS_WRITTEN := Build(true, true)

  datatype Book = Book(bids: seq<Resting>, asks: seq<Resting>)
  {
    function Side(isBuy: bool): seq<Resting> {
      if isBuy then bids else asks
    }

    function WithSide(isBuy: bool, q: seq<Resting>): Book {
      if isBuy then this.(bids := q) else this.(asks := q)
    }

    ghost predicate Has(id: nat) {
      HasId(bids, id) || HasId(asks, id)
    }
  }

  const EMPTY := Book([], [])

  /** The position of an id in a queue; the length of the queue if it is not there. */
  function IndexOf(q: seq<Resting>, id: nat): (k: nat)
    ensures k <= |q| && (forall i :: 0 <= i < k ==> q[i].id != id)
    ensures k < |q| ==> q[k].id == id
    ensures k < |q| <==> HasId(q, id)
  {
    if q == [] then 0
    else if q[0].id == id then 0
    else assert forall i :: 0 < i < |q| ==> q[1..][i - 1] == q[i]; 1 + IndexOf(q[1..], id)
  }

  /** The number of orders a new order at price `p` queues behind. */
  function PlaceOf(isBid: bool, q: seq<Resting>, p: nat): (k: nat)
    ensures k <= |q| && (forall i :: 0 <= i < k ==> !Better(isBid, p, q[i].price))
    ensures k < |q| ==> Better(isBid, p, q[k].price)
  {
    if q == [] || Better(isBid, p, q[0].price) then 0 else 1 + PlaceOf(isBid, q[1..], p)
  }

  function Insert(isBid: bool, q: seq<Resting>, r: Resting): seq<Resting> {
    var k := PlaceOf(isBid, q, r.price);
    With(q, k, r)
  }

  /** What a request leads to: the new book, the verdict, the trades and the market data. */
  datatype Effect = Effect(book: Book, outcome: Outcome, trades: seq<Trade>, events: seq<Event>)

  function FillEvents(build: Build, taker: nat, fills: seq<Fill>): seq<Event> {
    if fills == [] then []
    else
      [OrderFilled(if build.stampsTaker then taker else fills[0].orderId, fills[0].ticker, fills[0].qty)]
      + FillEvents(build, taker, fills[1..])
  }

  /** One fill message per record, with its ticker and quantity, under its own id or the incoming order's. */
  lemma {:induction false} FillMessages(build: Build, taker: nat, fills: seq<Fill>)
    ensures |FillEvents(build, taker, fills)| == |fills|
    ensures forall i :: 0 <= i < |fills| ==>
      FillEvents(build, taker, fills)[i]
      == OrderFilled(if build.stampsTaker then taker else fills[i].orderId, fills[i].ticker, fills[i].qty)
  {
    if fills != [] {
      FillMessages(build, taker, fills[1..]);
      assert forall i :: 1 <= i < |fills| ==> fills[i] == fills[1..][i - 1];
    }
  }

  function SweepOf(b: Book, o: NewOrder): SweepResult {
    Sweep(!o.isBuy, b.Side(!o.isBuy), o.price, o.qty)
  }

  // An order without a match is placed whatever its quantity is.
  function RestsAfter(b: Book, o: NewOrder): bool {
    SweepOf(b, o).trades == [] || SweepOf(b, o).left > 0
  }

  function Add(build: Build, b: Book, o: NewOrder): Effect {
    if IndexOf(b.bids, o.id) < |b.bids| || IndexOf(b.asks, o.id) < |b.asks| then
      Effect(b, Rejected([OrderIdAlreadyPresent]), [], [])
    else
      var s := SweepOf(b, o);
      var swept := b.WithSide(!o.isBuy, s.rest);
      var fills := FillEvents(build, o.id, FillLog(o.ticker, o.id, s.trades));
      if RestsAfter(b, o) then
        var r := Resting(o.id, o.user, o.price, s.left);
        Effect(swept.WithSide(o.isBuy, Insert(o.isBuy, swept.Side(o.isBuy), r)), Accepted, s.trades,
               fills + [OrderAdded(o.id, o.ticker, o.price, s.left, o.isBuy)])
      else
        Effect(swept, Accepted, s.trades, fills)
  }

  /** The side and position of a resting order. */
  function Locate(b: Book, id: nat): (w: Option<(bool, nat)>)
    ensures w.Some? ==> w.value.1 < |b.Side(w.value.0)| && b.Side(w.value.0)[w.value.1].id == id
    ensures w.None? <==> !b.Has(id)
  {
    var i, j := IndexOf(b.bids, id), IndexOf(b.asks, id);
    if i < |b.bids| then Some((true, i)) else if j < |b.asks| then Some((false, j)) else None
  }

  function Cancel(b: Book, c: CancelRequest): Effect {
    match Locate(b, c.id)
    case None => Effect(b, Rejected([OrderNotFound]), [], [])
    case Some((isBuy, k)) =>
      if b.Side(isBuy)[k].user != c.user then
        Effect(b, Rejected([WrongUserId]), [], [])
      else
        Effect(b.WithSide(isBuy, Without(b.Side(isBuy), k)), Accepted, [], [OrderCancelled(c.id)])
  }

  /** The quantity of an order after a raise from `current` to the requested quantity. */
  function Raised(build: Build, current: uint32, requested: uint32): uint32
    requires current < requested
  {
    if build.raiseAdds then (current + (requested + current) % TWO_32) % TWO_32 else requested
  }

  function ModifyErrors(isBuy: bool, r: Resting, m: ModifyRequest): seq<Rejection> {
    (if isBuy != m.isBuy then [ModifyWrongSide] else [])
    + (if r.user != m.user then [WrongUserId] else [])
    + (if m.price == r.price && m.qty == r.qty then [ModificationTrivial] else [])
  }

  /** A modification is refused for exactly the reasons that hold, each once and in order. */
  lemma ErrorsAnswer(isBuy: bool, r: Resting, m: ModifyRequest)
    ensures Answers(ModifyErrors(isBuy, r, m), isBuy != m.isBuy, r.user != m.user, r.price == m.price && r.qty == m.qty)
  {
    var a, b, c := isBuy != m.isBuy, r.user != m.user, r.price == m.price && r.qty == m.qty;
    var first := (if a then [ModifyWrongSide] else []) + if b then [WrongUserId] else [];
    assert ModifyErrors(isBuy, r, m) == first + if c then [ModificationTrivial] else [];
    assert first == if a && b then [ModifyWrongSide, WrongUserId] else if a then [ModifyWrongSide] else if b then [WrongUserId] else [];
    if !c {
      assert ModifyErrors(isBuy, r, m) == first;
    }
  }

  function NewQty(build: Build, r: Resting, m: ModifyRequest): uint32 {
    if r.qty < m.qty then Raised(build, r.qty, m.qty) else m.qty
  }

  function Modify(build: Build, b: Book, m: ModifyRequest): Effect {
    match Locate(b, m.id)
    case None => Effect(b, Rejected([OrderNotFound]), [], [])
    case Some((isBuy, k)) =>
      var q := b.Side(isBuy);
      var errors := ModifyErrors(isBuy, q[k], m);
      if errors != [] then
        Effect(b, Rejected(errors), [], [])
      else if m.price == q[k].price then
        Effect(b.WithSide(isBuy, q[k := q[k].(qty := NewQty(build, q[k], m))]), Accepted, [], [OrderModified(m.id, m.qty)])
      else
        var c := Cancel(b, CancelRequest(m.id, m.user, m.ticker));
        var a := Add(build, c.book, NewOrder(m.id, m.user, m.ticker, m.price, m.qty, m.isBuy));
        Effect(a.book, Accepted, a.trades, c.events + a.events)
  }

  // ---- where the matcher's 16-bit counts are right ----

  /** A new order ends its match inside a level only where the count tells what is left of it. */
  ghost predicate CountsForAdd(b: Book, o: NewOrder) {
    b.Has(o.id) || CountsRight(!o.isBuy, b.Side(!o.isBuy), o.price, o.qty)
  }

  // Only an accepted change of price matches.
  ghost predicate CountsForModify(b: Book, m: ModifyRequest) {
    match Locate(b, m.id)
    case None => true
    case Some((isBuy, k)) =>
      || ModifyErrors(isBuy, b.Side(isBuy)[k], m) != []
      || m.price == b.Side(isBuy)[k].price
      || CountsForAdd(Cancel(b, CancelRequest(m.id, m.user, m.ticker)).book, NewOrder(m.id, m.user, m.ticker, m.price, m.qty, m.isBuy))
  }
}
