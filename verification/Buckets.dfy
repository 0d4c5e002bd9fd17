/**
  Bucket numbers of dict.c: bitwise and on 32-bit values, read as natural numbers, the test for
  powers of two, and what they mean arithmetically.
*/
module Buckets {

  /** The bitwise and of two numbers. */
  function And(a: nat, b: nat): nat {
    if a == 0 || b == 0 then 0
    else 2 * And(a / 2, b / 2) + if a % 2 == 1 && b % 2 == 1 then 1 else 0
  }

  /** is_power_of_two. */
  predicate IsPowerOfTwo(n: nat) {
    n > 0 && And(n, n - 1) == 0
  }

  /** bucket_for_n, for a key with hash h. */
  function BucketFor(h: nat, n: nat): nat
    requires n > 0
  {
    And(h, n - 1)
  }

  function Pow2(k: nat): (p: nat)
    ensures p > 0
  {
    if k == 0 then 1 else 2 * Pow2(k - 1)
  }

  lemma {:induction false} AndSelf(a: nat)
    ensures And(a, a) == a
  {
    if a > 0 {
      AndSelf(a / 2);
    }
  }

  lemma AndHalves(m: nat)
    requires m > 0
    ensures And(2 * m, 2 * m - 1) == 2 * And(m, m - 1)
    ensures m > 1 ==> And(2 * m - 1, 2 * m - 2) == 2 * (m - 1)
  {
    AndSelf(m - 1);
    assert (2 * m) % 2 == 0 && (2 * m) / 2 == m;
    assert (2 * m - 1) / 2 == m - 1 && (2 * m - 1) % 2 == 1;
    assert m > 1 ==> (2 * m - 2) / 2 == m - 1 && (2 * m - 2) % 2 == 0;
  }

  /** The bit trick recognises exactly the powers of two. */
  lemma {:induction false} PowerOfTwoIs(n: nat) returns (k: nat)
    requires IsPowerOfTwo(n)
    ensures n == Pow2(k)
  {
    if n == 1 {
      k := 0;
    } else if n % 2 == 0 {
      AndHalves(n / 2);
      k := PowerOfTwoIs(n / 2);
      k := k + 1;
    } else {
      AndHalves(n / 2 + 1);
      assert false;
    }
  }

  lemma {:induction false} Pow2IsPower(k: nat)
    ensures IsPowerOfTwo(Pow2(k))
  {
    if k > 0 {
      Pow2IsPower(k - 1);
      AndHalves(Pow2(k - 1));
    }
  }

  lemma AndOdd(h: nat, m: nat)
    requires m > 0
    ensures And(h, 2 * m - 1) == 2 * And(h / 2, m - 1) + h % 2
  {
    assert (2 * m - 1) / 2 == m - 1 && (2 * m - 1) % 2 == 1;
  }

  lemma {:induction false} AndOnes(h: nat, k: nat)
    ensures And(h, Pow2(k) - 1) == h % Pow2(k)
    decreases k
  {
    if k > 0 {
      hide And;
      AndOnes(h / 2, k - 1);
      AndOdd(h, Pow2(k - 1));
      HalfMod(h, Pow2(k - 1));
    }
  }

  lemma HalfMod(h: nat, m: nat)
    requires m > 0
    ensures h % (2 * m) == 2 * ((h / 2) % m) + h % 2
  {
    var q, r := (h / 2) / m, (h / 2) % m;
    assert h / 2 == m * q + r;
    assert h == 2 * m * q + (2 * r + h % 2);
    ModIs(h, 2 * m, q, 2 * r + h % 2);
  }

  lemma Multiples(m: int, d: int)
    requires m >= 0
    ensures d >= 1 ==> m * d >= m
    ensures d <= -1 ==> m * d <= -m
  {
  }

  lemma ModIs(h: nat, m: nat, q: nat, r: nat)
    requires m > 0 && h == m * q + r && r < m
    ensures h % m == r
  {
    var d := q - h / m;
    assert m * d == h % m - r;
    Multiples(m, d);
  }

  /** For a power of two the mask takes the remainder, so every key has a bucket below n. */
  lemma BucketIsMod(h: nat, n: nat)
    requires IsPowerOfTwo(n)
    ensures BucketFor(h, n) == h % n < n
  {
    var k := PowerOfTwoIs(n);
    AndOnes(h, k);
  }

  lemma TwiceTimes(n: nat, q: nat)
    ensures n * q == (2 * n) * (q / 2) + if q % 2 == 0 then 0 else n
  {
    var s := q / 2;
    if q % 2 == 0 {
      assert q == 2 * s;
      assert n * (2 * s) == (2 * n) * s;
    } else {
      assert q == 2 * s + 1;
      assert n * (2 * s + 1) == (2 * n) * s + n;
    }
  }

  lemma ModTwice(h: nat, n: nat)
    requires n > 0
    ensures h % (2 * n) == h % n || h % (2 * n) == h % n + n
    ensures (h % (2 * n)) % n == h % n
  {
    var q, r := h / n, h % n;
    TwiceTimes(n, q);
    var r2 := if q % 2 == 0 then r else n + r;
    ModIs(h, 2 * n, q / 2, r2);
    ModIs(r2, n, if q % 2 == 0 then 0 else 1, r);
  }

  lemma TwiceIsPower(n: nat)
    requires IsPowerOfTwo(n)
    ensures IsPowerOfTwo(2 * n)
  {
    AndHalves(n);
  }

  /** Doubling sends a key of bucket b to b or to b + n. */
  lemma DoublingSplits(h: nat, n: nat)
    requires IsPowerOfTwo(n)
    ensures IsPowerOfTwo(2 * n)
    ensures BucketFor(h, 2 * n) == BucketFor(h, n) || BucketFor(h, 2 * n) == BucketFor(h, n) + n
    ensures BucketFor(h, 2 * n) % n == BucketFor(h, n)
  {
    hide And, IsPowerOfTwo, BucketFor;
    TwiceIsPower(n);
    BucketIsMod(h, n);
    BucketIsMod(h, 2 * n);
    ModTwice(h, n);
  }

  /** Four is the smallest table, and powers of two from four on are multiples of four. */
  lemma MultipleOfFour(n: nat)
    requires IsPowerOfTwo(n) && n >= 4
    ensures n % 4 == 0
  {
    var k := PowerOfTwoIs(n);
    assert k >= 2 by {
      assert Pow2(0) == 1 && Pow2(1) == 2;
    }
    assert n == 4 * Pow2(k - 2);
  }
}
