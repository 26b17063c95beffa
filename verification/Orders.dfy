/** Orders, requests and the values the exchange passes around. */
module Orders {

  const TWO_16: int := 0x1_0000
  const TWO_31: int := 0x8000_0000
  const TWO_32: int := 0x1_0000_0000

  type uint16 = x: int | 0 <= x < 0x1_0000
  type uint32 = x: int | 0 <= x < 0x1_0000_0000

  datatype Option<+T> = None | Some(value: T)

  /** A new order as it reaches a book. */
  datatype NewOrder = NewOrder(id: nat, user: nat, ticker: nat, price: nat, qty: uint32, isBuy: bool)

  datatype ModifyRequest = ModifyRequest(id: nat, user: nat, ticker: nat, price: nat, qty: uint32, isBuy: bool)

  datatype CancelRequest = CancelRequest(id: nat, user: nat, ticker: nat)

  datatype Rejection =
    | OrderNotFound
    | OrderIdAlreadyPresent
    | OrderBookNotFound
    | ModifyWrongSide
    | ModificationTrivial
    | WrongUserId

  datatype Outcome = Accepted | Rejected(reasons: seq<Rejection>)

  function ReasonsOf(outcome: Outcome): seq<Rejection> {
    if outcome.Rejected? then outcome.reasons else []
  }

  /** The place of a reason among those for which a modification is refused; the others have none. */
  function Rank(r: Rejection): nat {
    match r
    case ModifyWrongSide => 1
    case WrongUserId => 2
    case ModificationTrivial => 3
    case _ => 0
  }

  /** The reasons are exactly those that hold, each once, in the order in which they are sent. */
  predicate Answers(reasons: seq<Rejection>, wrongSide: bool, wrongUser: bool, trivial: bool) {
    && (ModifyWrongSide in reasons <==> wrongSide)
    && (WrongUserId in reasons <==> wrongUser)
    && (ModificationTrivial in reasons <==> trivial)
    && (forall r :: r in reasons ==> Rank(r) > 0)
    && (forall i, j :: 0 <= i < j < |reasons| ==> Rank(reasons[i]) < Rank(reasons[j]))
  }

  /** What a resting order amounts to once its links are forgotten. */
  datatype Resting = Resting(id: nat, user: nat, price: nat, qty: uint32)

  /** One record of the fill log; the quantity is stored in 16 bits. */
  datatype Fill = Fill(ticker: nat, orderId: nat, price: nat, qty: uint16, full: bool, userId: nat)

  /** Market data, in the order in which it is handed to the dispatcher. */
  datatype Event =
    | OrderAdded(id: nat, ticker: nat, price: nat, qty: uint32, isBuy: bool)
    | OrderModified(id: nat, qty: uint32)
    | OrderCancelled(id: nat)
    | OrderFilled(id: nat, ticker: nat, fillQty: uint16)

  /** The acknowledgement of a fill, sent to the stream of the incoming order. */
  datatype FillAck = FillAck(orderId: nat, ticker: nat, userId: nat, qty: uint16, complete: bool)

  class Order {
    const orderId: nat
    const userId: nat
    const ticker: nat
    const price: nat
    const initQty: uint32
    const isBuySide: bool
    var currQty: uint32

    constructor (o: NewOrder)
      ensures orderId == o.id && userId == o.user && ticker == o.ticker && price == o.price
      ensures initQty == o.qty && currQty == o.qty && isBuySide == o.isBuy
    {
      orderId, userId, ticker, price := o.id, o.user, o.ticker, o.price;
      initQty, currQty, isBuySide := o.qty, o.qty, o.isBuy;
    }

    constructor Copy(o: Order)
      ensures orderId == o.orderId && userId == o.userId && ticker == o.ticker && price == o.price
      ensures initQty == o.initQty && currQty == o.currQty && isBuySide == o.isBuySide
    {
      orderId, userId, ticker, price := o.orderId, o.userId, o.ticker, o.price;
      initQty, currQty, isBuySide := o.initQty, o.currQty, o.isBuySide;
    }

    function ToResting(): Resting
      reads this
    {
      Resting(orderId, userId, price, currQty)
    }

    // Unsigned 32-bit addition wraps.
    method IncreaseQty(delta: uint32)
      modifies this
      ensures currQty == (old(currQty) + delta) % TWO_32
    {
      currQty := (currQty + delta) % TWO_32;
    }

    // The exception for a delta above the current quantity is the result `thrown`.
    method DecreaseQty(delta: uint32) returns (thrown: bool)
      modifies this
      ensures thrown <==> old(currQty) < delta
      ensures currQty == if thrown then old(currQty) else old(currQty) - delta
    {
      if currQty < delta {
        return true;
      }
      currQty := currQty - delta;
      return false;
    }
  }
}
