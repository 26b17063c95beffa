/** What the records of a match say, told from the queue before and after it. */
module FillRecords {
  import opened Orders
  import opened Matching
  import opened MatchingLaws

  /** The quantity resting ahead of position `i`. */
  function QtyAhead(q: seq<Resting>, i: nat): nat
    requires i <= |q|
  {
    if i == 0 then 0 else q[0].qty + QtyAhead(q[1..], i - 1)
  }

  /** An order at position `i` is within the limit, and not everything is taken before its turn comes. */
  predicate Reached(isBid: bool, q: seq<Resting>, limit: nat, qty: nat, i: nat)
    requires i < |q|
  {
    Crosses(isBid, limit, q[i].price) && (i == 0 || QtyAhead(q, i) < qty)
  }

  lemma {:induction false} HitIffReached(isBid: bool, q: seq<Resting>, limit: nat, qty: uint32, i: nat)
    requires SortedSide(isBid, q) && i < |q|
    ensures i < |Sweep(isBid, q, limit, qty).trades| <==> Reached(isBid, q, limit, qty, i)
  {
    var s := Sweep(isBid, q, limit, qty);
    if i > 0 {
      assert !Better(isBid, q[i].price, q[0].price);
      if Crosses(isBid, limit, q[0].price) && q[0].qty < qty {
        assert s.trades[1..] == Sweep(isBid, q[1..], limit, qty - q[0].qty).trades;
        HitIffReached(isBid, q[1..], limit, qty - q[0].qty, i - 1);
        assert i == 1 ==> QtyAhead(q, 1) == q[0].qty;
      }
    }
  }

  /** The two records of the `i`-th order reached. Both are at its price, for what it lost, and under its user. The
      first is its own, and full when it no longer rests. The second is the incoming order's, and full when it is the
      last record and nothing of that order is left. */
  ghost predicate PairTells(log: seq<Fill>, q: seq<Resting>, rest: seq<Resting>, left: nat, ticker: nat, taker: nat, i: nat)
    requires 2 * i + 1 < |log| && i < |q|
  {
    var own, incoming := log[2 * i], log[2 * i + 1];
    && own.orderId == q[i].id && incoming.orderId == taker
    && own.ticker == incoming.ticker == ticker
    && own.price == incoming.price == q[i].price
    && own.userId == incoming.userId == q[i].user
    && own.qty == incoming.qty == (q[i].qty - QtyIn(rest, q[i].id)) % TWO_16
    && (own.full <==> !HasId(rest, q[i].id))
    && (incoming.full <==> 2 * i + 2 == |log| && left == 0)
  }

  /** The log has two records for each order the incoming one reaches, and no others. */
  ghost predicate LogTells(log: seq<Fill>, isBid: bool, q: seq<Resting>, limit: nat, qty: nat, rest: seq<Resting>, left: nat,
                           ticker: nat, taker: nat)
  {
    && |log| % 2 == 0 && |log| / 2 <= |q|
    && (forall i :: 0 <= i < |q| ==> (2 * i < |log| <==> Reached(isBid, q, limit, qty, i)))
    && (forall i :: 0 <= i < |log| / 2 ==> PairTells(log, q, rest, left, ticker, taker, i))
  }

  lemma {:induction false} RecordAt(ticker: nat, taker: nat, trades: seq<Trade>, i: nat)
    requires i < |trades|
    ensures |FillLog(ticker, taker, trades)| == 2 * |trades|
    ensures [FillLog(ticker, taker, trades)[2 * i], FillLog(ticker, taker, trades)[2 * i + 1]] == FillPair(ticker, taker, trades[i])
  {
    var log := FillLog(ticker, taker, trades);
    assert log == FillPair(ticker, taker, trades[0]) + FillLog(ticker, taker, trades[1..]);
    if i > 0 {
      RecordAt(ticker, taker, trades[1..], i - 1);
    } else if |trades| > 1 {
      RecordAt(ticker, taker, trades[1..], 0);
    }
  }

  lemma {:induction false} NothingUnder(q: seq<Resting>, id: nat)
    requires !HasId(q, id)
    ensures QtyIn(q, id) == 0
  {
    if q != [] {
      assert q[0].id != id;
      assert forall k :: 0 <= k < |q[1..]| ==> q[1..][k] == q[k + 1];
      NothingUnder(q[1..], id);
    }
  }

  // An order hit loses what it traded, and rests no longer exactly when that was all.
  lemma HitLoses(isBid: bool, q: seq<Resting>, limit: nat, qty: uint32, i: nat)
    requires DistinctIds(q) && i < |Sweep(isBid, q, limit, qty).trades|
    ensures var s := Sweep(isBid, q, limit, qty);
      && i < |q| && s.trades[i].qty == q[i].qty - QtyIn(s.rest, q[i].id)
      && (s.trades[i].makerDone <==> !HasId(s.rest, q[i].id))
  {
    hide Sweep, Crosses;
    var s := Sweep(isBid, q, limit, qty);
    var n := |s.trades|;
    TradesFollowQueue(isBid, q, limit, qty);
    RestFollowsTrades(isBid, q, limit, qty);
    assert Hits(isBid, limit, s.trades[i], q[i]);
    if s.trades[i].makerDone {
      GoneFromBack(s.rest, q, i);
      NothingUnder(s.rest, q[i].id);
    } else {
      assert i == n - 1 && s.rest[0].id == q[i].id;
      assert s.rest[1..] == q[n..];
      GoneFromBack(s.rest[1..], q, i);
      NothingUnder(s.rest[1..], q[i].id);
    }
  }

  // An order in front of all that is left is not among it.
  lemma GoneFromBack(rest: seq<Resting>, q: seq<Resting>, i: nat)
    requires DistinctIds(q) && i < |q| && |rest| < |q| - i
    requires forall k :: 0 <= k < |rest| ==> rest[k].id == q[k + |q| - |rest|].id
    ensures !HasId(rest, q[i].id)
  {
  }

  /** The log of a match tells what the match did to the queue and to the incoming order. */
  lemma FillLogTells(isBid: bool, q: seq<Resting>, limit: nat, qty: uint32, ticker: nat, taker: nat)
    requires SortedSide(isBid, q) && DistinctIds(q)
    ensures var s := Sweep(isBid, q, limit, qty);
      LogTells(FillLog(ticker, taker, s.trades), isBid, q, limit, qty, s.rest, s.left, ticker, taker)
  {
    hide Sweep, FillLog, Reached, HasId, QtyIn, SortedSide, DistinctIds;
    var s := Sweep(isBid, q, limit, qty);
    var log, n := FillLog(ticker, taker, s.trades), |s.trades|;
    TradesFollowQueue(isBid, q, limit, qty);
    TakerDoneLast(isBid, q, limit, qty);
    LogLength(ticker, taker, s.trades);
    forall i | 0 <= i < n
      ensures PairTells(log, q, s.rest, s.left, ticker, taker, i)
    {
      RecordAt(ticker, taker, s.trades, i);
      assert Hits(isBid, limit, s.trades[i], q[i]);
      HitLoses(isBid, q, limit, qty, i);
    }
    forall i | 0 <= i < |q|
      ensures 2 * i < |log| <==> Reached(isBid, q, limit, qty, i)
    {
      HitIffReached(isBid, q, limit, qty, i);
    }
  }

  lemma LogLength(ticker: nat, taker: nat, trades: seq<Trade>)
    ensures |FillLog(ticker, taker, trades)| == 2 * |trades|
  {
    if trades != [] {
      RecordAt(ticker, taker, trades, 0);
    }
  }

  /** A sell of 10 rests, a buy of 4 arrives: the sell's record is not full, the buy's is. */
  lemma PartialFillExample()
    ensures FillLog(7, 3, Sweep(false, [Resting(2, 1, 100, 10)], 100, 4).trades)
         == [Fill(7, 2, 100, 4, false, 1), Fill(7, 3, 100, 4, true, 1)]
  {
    var t := Sweep(false, [Resting(2, 1, 100, 10)], 100, 4).trades;
    assert t == [Trade(2, 1, 100, 4, false, true)];
    assert t[1..] == [];
  }
}
