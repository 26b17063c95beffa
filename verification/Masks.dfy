/** Masking with a power of two minus one, as the ring buffer does it. */
module Masks {

  /** Bitwise and. */
  function BitAnd(a: nat, b: nat): nat
    decreases a
  {
    if a == 0 || b == 0 then 0 else (if a % 2 == 1 && b % 2 == 1 then 1 else 0) + 2 * BitAnd(a / 2, b / 2)
  }

  /** The bit at place `k`. */
  function Bit(a: nat, k: nat): bool
    decreases k
  {
    if k == 0 then a % 2 == 1 else Bit(a / 2, k - 1)
  }

  lemma {:induction false} NoBits(k: nat)
    ensures !Bit(0, k)
  {
    if k > 0 {
      NoBits(k - 1);
    }
  }

  /** A bit is set in the result exactly when it is set in both. */
  lemma {:induction false} BitAndBits(a: nat, b: nat, k: nat)
    ensures Bit(BitAnd(a, b), k) <==> Bit(a, k) && Bit(b, k)
    decreases k
  {
    NoBits(k);
    if a != 0 && b != 0 && k > 0 {
      BitAndBits(a / 2, b / 2, k - 1);
    }
  }

  function Pow2(k: nat): (p: nat)
    ensures p > 0
  {
    if k == 0 then 1 else 2 * Pow2(k - 1)
  }

  ghost predicate IsPow2(n: nat) {
    exists k: nat :: n == Pow2(k)
  }

  // An odd mask keeps the last bit.
  lemma BitAndOdd(a: nat, h: nat)
    ensures BitAnd(a, 2 * h + 1) == a % 2 + 2 * BitAnd(a / 2, h)
  {
    assert (2 * h + 1) / 2 == h && (2 * h + 1) % 2 == 1;
  }

  lemma {:induction false} MaskPow2(a: nat, k: nat)
    ensures BitAnd(a, Pow2(k) - 1) == a % Pow2(k)
    decreases k
  {
    hide BitAnd;
    if k == 0 {
      BitAndZero(a);
    } else {
      var p := Pow2(k - 1);
      MaskPow2(a / 2, k - 1);
      BitAndOdd(a, p - 1);
      DoubleMod(a, p);
    }
  }

  lemma BitAndZero(a: nat)
    ensures BitAnd(a, 0) == 0
  {
  }

  lemma DoubleMod(a: nat, p: nat)
    requires p > 0
    ensures a % (2 * p) == a % 2 + 2 * (a / 2 % p)
  {
    var q, r := a / 2 / p, a / 2 % p;
    assert a / 2 == q * p + r;
    assert a == 2 * (a / 2) + a % 2;
    assert a == (2 * p) * q + (2 * r + a % 2) by {
      assert 2 * (q * p) == (2 * p) * q;
    }
    ModUnique(a, 2 * p, q, 2 * r + a % 2);
  }

  lemma ModUnique(a: nat, n: nat, q: nat, r: nat)
    requires n > 0 && a == n * q + r && r < n
    ensures a % n == r && a / n == q
  {
    var d := a / n - q;
    assert n * (a / n) - n * q == n * d;
    Multiple(n, d);
  }

  // A multiple of n other than zero is at least n away from it.
  lemma Multiple(n: nat, d: int)
    ensures d > 0 ==> n * d >= n
    ensures d < 0 ==> n * d + n <= 0
    ensures d == 0 ==> n * d == 0
  {
  }

  /** For a power of two, masking is the remainder. */
  lemma MaskIsModulo(a: nat, n: nat)
    requires IsPow2(n)
    ensures BitAnd(a, n - 1) == a % n
  {
    var k: nat :| n == Pow2(k);
    MaskPow2(a, k);
  }

  /** The constructor's test accepts exactly the powers of two. */
  lemma {:induction false} PowerOfTwoTest(n: nat)
    ensures n != 0 && BitAnd(n, n - 1) == 0 <==> IsPow2(n)
  {
    if n == 1 {
      assert n == Pow2(0);
    } else if n > 1 {
      var h := n / 2;
      Pow2Halves(n);
      if n % 2 == 0 {
        assert (n - 1) / 2 == h - 1 && (n - 1) % 2 == 1;
        PowerOfTwoTest(h);
      } else {
        assert (n - 1) / 2 == h;
        SelfAnd(h);
      }
    }
  }

  lemma Pow2Halves(n: nat)
    requires n > 1
    ensures IsPow2(n) <==> n % 2 == 0 && IsPow2(n / 2)
  {
    if IsPow2(n) {
      var k: nat :| n == Pow2(k);
      assert n / 2 == Pow2(k - 1);
    } else if IsPow2(n / 2) {
      var k: nat :| n / 2 == Pow2(k);
      assert 2 * (n / 2) == Pow2(k + 1);
    }
  }

  lemma {:induction false} SelfAnd(a: nat)
    ensures BitAnd(a, a) == a
  {
    if a > 0 {
      SelfAnd(a / 2);
    }
  }

  /** Tickets less than a whole round apart use different slots. */
  lemma SlotsDistinct(t: nat, u: nat, n: nat)
    requires n > 0 && t < u < t + n
    ensures t % n != u % n
  {
    var d := u / n - t / n;
    assert n * (u / n) - n * (t / n) == n * d;
    Multiple(n, d);
  }

  lemma DoubleMul(a: nat, b: nat)
    ensures 2 * (a * b) == (2 * a) * b
  {
  }

  lemma {:induction false} Pow2Sum(j: nat, k: nat)
    ensures Pow2(j + k) == Pow2(j) * Pow2(k)
  {
    if j > 0 {
      Pow2Sum(j - 1, k);
      DoubleMul(Pow2(j - 1), Pow2(k));
      assert Pow2(j + k) == 2 * Pow2(j - 1 + k);
    }
  }

  lemma Pow2One()
    ensures Pow2(1) == 2
  {
  }

  /** A power of two below another is at most half of it. */
  lemma {:induction false} AtMostHalf(n: nat, k: nat)
    requires IsPow2(n) && n < Pow2(k)
    ensures 2 * n <= Pow2(k)
  {
    var j: nat :| n == Pow2(j);
    if n > 1 {
      Pow2Halves(n);
      AtMostHalf(n / 2, k - 1);
    }
  }

  /** Where a ticket less than a round ahead stands: further on in the same round, or in front in the next one. */
  lemma WithinARound(c: nat, t: nat, n: nat)
    requires n > 0 && c <= t < c + n
    ensures t % n >= c % n <==> t / n == c / n
  {
    var d := t / n - c / n;
    assert n * (t / n) - n * (c / n) == n * d;
    Multiple(n, d);
  }

  lemma NextRound(t: nat, n: nat)
    requires n > 0
    ensures (t + n) % n == t % n
  {
    var q, r := t / n, t % n;
    MulSuccessor(n, q);
    ModUnique(t + n, n, q + 1, r);
  }

  lemma NextSlot(t: nat, n: nat)
    requires n > 0
    ensures (t % n + 1) % n == (t + 1) % n
  {
    var q, r := t / n, t % n;
    assert t == n * q + r;
    MulSuccessor(n, q);
    if r + 1 == n {
      ModUnique(t + 1, n, q + 1, 0);
      ModUnique(r + 1, n, 1, 0);
    } else {
      ModUnique(t + 1, n, q, r + 1);
      ModUnique(r + 1, n, 0, r + 1);
    }
  }

  lemma MulSuccessor(n: nat, q: nat)
    ensures n * (q + 1) == n * q + n
  {
  }
}
