/** The greedy sweep of an incoming order over one side of a book. */
module Matching {
  import opened Orders

  /** Whether price `p` is strictly ahead of price `r` on the given side. */
  predicate Better(isBid: bool, p: nat, r: nat) {
    if isBid then p > r else p < r
  }

  /** Whether an incoming order with the given limit may trade with a resting order at `makerPrice`. */
  predicate Crosses(isBid: bool, limit: nat, makerPrice: nat) {
    if isBid then limit <= makerPrice else limit >= makerPrice
  }

  /** One match between the incoming order and the resting order `maker`. */
  datatype Trade = Trade(maker: nat, makerUser: nat, price: nat, qty: uint32, makerDone: bool, takerDone: bool)

  datatype SweepResult = SweepResult(rest: seq<Resting>, left: uint32, trades: seq<Trade>)

  function Min(a: nat, b: nat): nat {
    if a <= b then a else b
  }

  /** Best price first, oldest first, until the order is filled or the next price is out of its limit. */
  function Sweep(isBid: bool, q: seq<Resting>, limit: nat, qty: uint32): SweepResult {
    if q == [] || !Crosses(isBid, limit, q[0].price) then
      SweepResult(q, qty, [])
    else
      var f: uint32 := Min(q[0].qty, qty);
      var makerLeft: uint32 := q[0].qty - f;
      var takerLeft: uint32 := qty - f;
      var t := Trade(q[0].id, q[0].user, q[0].price, f, makerLeft == 0, takerLeft == 0);
      if takerLeft == 0 then
        SweepResult(if makerLeft == 0 then q[1..] else [q[0].(qty := makerLeft)] + q[1..], 0, [t])
      else
        var r := Sweep(isBid, q[1..], limit, takerLeft);
        r.(trades := [t] + r.trades)
  }

  /** The two fill records a match appends to the log. The second one, for the incoming
      order, carries the resting order's user id. */
  function FillPair(ticker: nat, taker: nat, t: Trade): seq<Fill> {
    [Fill(ticker, t.maker, t.price, t.qty % TWO_16, t.makerDone, t.makerUser),
     Fill(ticker, taker, t.price, t.qty % TWO_16, t.takerDone, t.makerUser)]
  }

  function FillLog(ticker: nat, taker: nat, trades: seq<Trade>): seq<Fill> {
    if trades == [] then [] else FillPair(ticker, taker, trades[0]) + FillLog(ticker, taker, trades[1..])
  }

  predicate AllPositive(q: seq<Resting>) {
    forall i :: 0 <= i < |q| ==> q[i].qty > 0
  }

  // Only the last trade can use the incoming order up, and does so exactly when nothing is left.
  lemma {:induction false} TakerDoneLast(isBid: bool, q: seq<Resting>, limit: nat, qty: uint32)
    ensures var s := Sweep(isBid, q, limit, qty);
      && (s.trades != [] ==> (s.trades[|s.trades| - 1].takerDone <==> s.left == 0))
      && forall i :: 0 <= i < |s.trades| - 1 ==> !s.trades[i].takerDone
  {
    if q != [] && Crosses(isBid, limit, q[0].price) && Min(q[0].qty, qty) < qty {
      TakerDoneLast(isBid, q[1..], limit, qty - Min(q[0].qty, qty));
    }
  }

  /** Everything resting under an id. */
  function QtyIn(q: seq<Resting>, id: nat): nat {
    if q == [] then 0 else (if q[0].id == id then q[0].qty else 0) + QtyIn(q[1..], id)
  }

  ghost predicate HasId(q: seq<Resting>, id: nat) {
    exists i :: 0 <= i < |q| && q[i].id == id
  }
}
