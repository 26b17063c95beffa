/** The 16-bit count by which the matcher decides whether a level is used up, and when that decision is right. */
module LevelCounts {
  import opened Orders
  import opened Matching

  function CountNonZero(q: seq<Resting>): nat {
    if q == [] then 0
    else CountNonZero(q[..|q| - 1]) + if q[|q| - 1].qty != 0 then 1 else 0
  }

  /** How many orders at the front of the queue have price `p`. */
  function FrontRun(q: seq<Resting>, p: nat): (k: nat)
    ensures k <= |q|
    ensures forall i :: 0 <= i < k ==> q[i].price == p
    ensures k < |q| ==> q[k].price != p
  {
    if q == [] || q[0].price != p then 0 else 1 + FrontRun(q[1..], p)
  }

  /** The test by which a level at the front of the queue is erased: its orders of non-zero quantity, counted in
      16 bits, are none. */
  predicate EraseFires(q: seq<Resting>, p: nat) {
    CountNonZero(q[..FrontRun(q, p)]) % TWO_16 == 0
  }

  /** The test does not erase a level with orders on it. */
  predicate CountTells(q: seq<Resting>, p: nat) {
    EraseFires(q, p) ==> FrontRun(q, p) == 0
  }

  /** Where an incoming order ends inside a level, the test is right about what it leaves there. */
  predicate CountsRight(isBid: bool, q: seq<Resting>, limit: nat, qty: uint32) {
    q == [] || !Crosses(isBid, limit, q[0].price) ||
    if qty < q[0].qty then CountTells([q[0].(qty := q[0].qty - qty)] + q[1..], q[0].price)
    else if qty == q[0].qty then CountTells(q[1..], q[0].price)
    else CountsRight(isBid, q[1..], limit, qty - q[0].qty)
  }

  lemma {:induction false} AllCounted(q: seq<Resting>)
    requires AllPositive(q)
    ensures CountNonZero(q) == |q|
  {
    if q != [] {
      AllCounted(q[..|q| - 1]);
    }
  }

  /** Without empty orders the test errs exactly on lists whose length is a positive multiple of 2^16. */
  lemma CountTellsIff(q: seq<Resting>, p: nat)
    requires AllPositive(q)
    ensures CountTells(q, p) <==> FrontRun(q, p) == 0 || FrontRun(q, p) % TWO_16 != 0
  {
    AllCounted(q[..FrontRun(q, p)]);
  }

  lemma FewOrdersTell(q: seq<Resting>, p: nat)
    requires AllPositive(q) && |q| < TWO_16
    ensures CountTells(q, p)
  {
    hide CountTells;
    CountTellsIff(q, p);
  }

  /** With fewer than 2^16 orders, none of them empty, the test is right for every incoming order. */
  lemma {:induction false} FewOrdersCountRight(isBid: bool, q: seq<Resting>, limit: nat, qty: uint32)
    requires AllPositive(q) && |q| < TWO_16
    ensures CountsRight(isBid, q, limit, qty)
  {
    hide CountTells;
    if q != [] {
      if qty < q[0].qty {
        FewOrdersTell([q[0].(qty := q[0].qty - qty)] + q[1..], q[0].price);
      } else if qty == q[0].qty {
        FewOrdersTell(q[1..], q[0].price);
      } else {
        FewOrdersCountRight(isBid, q[1..], limit, qty - q[0].qty);
      }
    }
  }

  /** An empty order alone on its level is not counted: the test erases the level under it. */
  lemma EmptyOrderUncounted()
    ensures EraseFires([Resting(2, 1, 100, 0)], 100) && !CountTells([Resting(2, 1, 100, 0)], 100)
  {
    var q := [Resting(2, 1, 100, 0)];
    assert q[1..] == [];
    assert FrontRun(q[1..], 100) == 0;
    assert FrontRun(q, 100) == 1;
    assert q[..1] == q && q[..0] == [];
    assert CountNonZero(q[..0]) == 0;
  }
}
