/**
  The number 2^31 - 1 is prime. It is what the powers of x modulo the CRC polynomial repeat after, so that
  no shorter distance between two errors can hide them.
*/
module Mersenne {
  const M31 := 0x7fff_ffff

  // ---------- Doubling modulo a number ----------

  /** Twice x modulo d. */
  function Double(x: nat, d: nat): (r: nat)
    requires x < d
    ensures r < d
  {
    if 2 * x < d then 2 * x else 2 * x - d
  }

  /** a, doubled i times modulo d. */
  function Turn(a: nat, i: nat, d: nat): (r: nat)
    requires a < d
    ensures r < d
    decreases i
  {
    if i == 0 then a else Double(Turn(a, i - 1, d), d)
  }

  lemma {:induction false} TurnAdd(a: nat, i: nat, j: nat, d: nat)
    requires a < d
    ensures Turn(a, i + j, d) == Turn(Turn(a, i, d), j, d)
    decreases j
  {
    hide Double;
    if j > 0 {
      TurnAdd(a, i, j - 1, d);
    }
  }

  /** Modulo an odd number doubling can be undone. */
  lemma {:induction false} TurnBack(a: nat, b: nat, i: nat, d: nat)
    requires a < d && b < d && Turn(a, i, d) == Turn(b, i, d)
    requires d % 2 == 1
    ensures a == b
    decreases i
  {
    hide Double;
    if i > 0 {
      DoubleBack(Turn(a, i - 1, d), Turn(b, i - 1, d), d);
      TurnBack(a, b, i - 1, d);
    }
  }

  lemma DoubleBack(x: nat, y: nat, d: nat)
    requires x < d && y < d && d % 2 == 1 && Double(x, d) == Double(y, d)
    ensures x == y
  {
  }

  lemma {:induction false} TurnNonzero(a: nat, i: nat, d: nat)
    requires 0 < a < d && d % 2 == 1
    ensures Turn(a, i, d) > 0
    decreases i
  {
    hide Double;
    if i > 0 {
      TurnNonzero(a, i - 1, d);
      DoubleNonzero(Turn(a, i - 1, d), d);
    }
  }

  lemma DoubleNonzero(x: nat, d: nat)
    requires 0 < x < d && d % 2 == 1
    ensures Double(x, d) > 0
  {
  }

  function Power(i: nat): nat {
    if i == 0 then 1 else 2 * Power(i - 1)
  }

  lemma Power31()
    ensures Power(31) == M31 + 1
  {
    assert Power(8) == 0x100;
    assert Power(16) == 0x1_0000;
    assert Power(24) == 0x100_0000;
  }

  lemma TwiceProduct(p: nat, a: nat, x: nat, d: nat, q: nat)
    requires p * a == x + d * q
    ensures 2 * p * a == 2 * x + d * (2 * q) == 2 * x - d + d * (2 * q + 1)
  {
    assert 2 * p * a == 2 * (p * a);
    assert d * (2 * q) == 2 * (d * q);
    assert d * (2 * q + 1) == d * (2 * q) + d;
  }

  /** Turning is multiplying by a power of two, up to a multiple of d. */
  lemma {:induction false} TurnIsPower(a: nat, i: nat, d: nat) returns (q: nat)
    requires a < d
    ensures Power(i) * a == Turn(a, i, d) + d * q
    decreases i
  {
    q := 0;
    if i > 0 {
      var less := TurnIsPower(a, i - 1, d);
      var p, x := Power(i - 1), Turn(a, i - 1, d);
      TwiceProduct(p, a, x, d, less);
      q := 2 * less + if 2 * x < d then 0 else 1;
      assert Power(i) == 2 * p;
      hide Power;
    }
  }

  lemma AtLeastOnce(d: nat, k: int)
    requires k >= 1
    ensures d * k >= d
  {
  }

  lemma SmallMultiple(x: nat, y: nat, d: nat, k: int)
    requires x < d && y < d && x - y == d * k
    ensures x == y
  {
    if k >= 1 {
      AtLeastOnce(d, k);
    } else if -k >= 1 {
      AtLeastOnce(d, -k);
    }
  }

  lemma TimesM31(a: nat, d: nat, e: nat, x: nat, q: nat)
    requires M31 == d * e && (M31 + 1) * a == x + d * q
    ensures x - a == d * (e * a - q)
  {
    assert M31 * a == d * e * a == d * (e * a);
    assert d * (e * a - q) == d * (e * a) - d * q;
  }

  /** Doubling 31 times modulo a divisor changes nothing. */
  lemma FullTurn(a: nat, d: nat, e: nat)
    requires a < d && M31 == d * e
    ensures Turn(a, 31, d) == a
  {
    hide Turn, Power;
    Power31();
    var q := TurnIsPower(a, 31, d);
    TimesM31(a, d, e, Turn(a, 31, d), q);
    SmallMultiple(Turn(a, 31, d), a, d, e * a - q);
  }

  lemma {:induction false} FullTurns(a: nat, k: nat, n: nat, d: nat)
    requires a < d && Turn(a, k, d) == a
    ensures Turn(a, k * n, d) == a
    decreases n
  {
    hide Turn;
    if n > 0 {
      FullTurns(a, k, n - 1, d);
      TurnAdd(a, k * (n - 1), k, d);
      assert k * (n - 1) + k == k * n;
    } else {
      NoTurn(a, d);
    }
  }

  lemma NoTurn(a: nat, d: nat)
    requires a < d
    ensures Turn(a, 0, d) == a && Turn(a, 1, d) == Double(a, d)
  {
  }

  /** The inverses modulo 31. */
  const INVERSES: seq<nat> := [0, 1, 16, 21, 8, 25, 26, 9, 4, 7, 28, 17, 13, 12, 20, 29, 2, 11, 19, 18, 14, 3, 24, 27,
                               22, 5, 6, 23, 10, 15, 30]

  lemma Inverse(k: nat) returns (n: nat)
    requires 0 < k < 31
    ensures k * INVERSES[k] == 31 * n + 1
  {
    n := (k * INVERSES[k] - 1) / 31;
  }

  /** No number is back before 31 doublings. */
  lemma NoShortTurn(a: nat, k: nat, d: nat, e: nat)
    requires 0 < a < d && M31 == d * e && d % 2 == 1 && 0 < k < 31
    ensures Turn(a, k, d) != a
  {
    hide Turn;
    if Turn(a, k, d) == a {
      var n := Inverse(k);
      FullTurns(a, k, INVERSES[k], d);
      FullTurn(a, d, e);
      FullTurns(a, 31, n, d);
      TurnAdd(a, 31 * n, 1, d);
      NoTurn(a, d);
      assert false;
    }
  }

  // ---------- The divisors ----------

  function Orbit(a: nat, n: nat, d: nat): (s: set<nat>)
    requires a < d
  {
    if n == 0 then {} else Orbit(a, n - 1, d) + {Turn(a, n - 1, d)}
  }

  lemma {:induction false} InOrbit(a: nat, n: nat, d: nat, i: nat)
    requires a < d && i < n
    ensures Turn(a, i, d) in Orbit(a, n, d)
  {
    hide Turn;
    if i < n - 1 {
      InOrbit(a, n - 1, d, i);
    }
  }

  lemma {:induction false} OfOrbit(a: nat, n: nat, d: nat, x: nat) returns (i: nat)
    requires a < d && x in Orbit(a, n, d)
    ensures i < n && x == Turn(a, i, d)
  {
    hide Turn;
    if x == Turn(a, n - 1, d) {
      i := n - 1;
    } else {
      i := OfOrbit(a, n - 1, d, x);
    }
  }

  lemma {:induction false} OrbitSize(a: nat, n: nat, d: nat, e: nat)
    requires 0 < a < d && M31 == d * e && d % 2 == 1 && n <= 31
    ensures |Orbit(a, n, d)| == n
  {
    hide Turn;
    if n > 0 {
      OrbitSize(a, n - 1, d, e);
      var x := Turn(a, n - 1, d);
      if x in Orbit(a, n - 1, d) {
        var i := OfOrbit(a, n - 1, d, x);
        var k := n - 1 - i;
        TurnAdd(a, k, i, d);
        TurnBack(Turn(a, k, d), a, i, d);
        NoShortTurn(a, k, d, e);
      }
    }
  }

  /** These numbers are not zero, and doubling does not lead out of them. */
  ghost predicate Closed(s: set<nat>, d: nat) {
    forall x :: x in s ==> 0 < x < d && Double(x, d) in s
  }

  lemma {:induction false} ClosedTurn(s: set<nat>, a: nat, i: nat, d: nat)
    requires Closed(s, d) && a in s
    ensures Turn(a, i, d) in s
    decreases i
  {
    hide Double;
    if i > 0 {
      ClosedTurn(s, a, i - 1, d);
    }
  }

  lemma OrbitInside(s: set<nat>, a: nat, d: nat)
    requires Closed(s, d) && a in s
    ensures Orbit(a, 31, d) <= s
  {
    hide Turn, Orbit;
    forall x | x in Orbit(a, 31, d)
      ensures x in s
    {
      var i := OfOrbit(a, 31, d, x);
      ClosedTurn(s, a, i, d);
    }
  }

  /** What doubles into an orbit is in it. */
  lemma OrbitBack(a: nat, d: nat, e: nat, x: nat)
    requires a < d && x < d && M31 == d * e && d % 2 == 1 && Double(x, d) in Orbit(a, 31, d)
    ensures x in Orbit(a, 31, d)
  {
    hide Orbit, Double;
    var i := OfOrbit(a, 31, d, Double(x, d));
    FullTurn(a, d, e);
    var j := if i == 0 then 30 else i - 1;
    assert Turn(a, j + 1, d) == Double(Turn(a, j, d), d);
    hide Turn;
    NoTurn(a, d);
    DoubleBack(x, Turn(a, j, d), d);
    InOrbit(a, 31, d, j);
  }

  /** What is left behind an orbit is closed again. */
  lemma WithoutOrbit(s: set<nat>, a: nat, d: nat, e: nat)
    requires Closed(s, d) && a in s && M31 == d * e && d % 2 == 1
    ensures Closed(s - Orbit(a, 31, d), d)
  {
    hide Orbit, Double;
    forall x | x in s - Orbit(a, 31, d)
      ensures Double(x, d) !in Orbit(a, 31, d)
    {
      if Double(x, d) in Orbit(a, 31, d) {
        OrbitBack(a, d, e, x);
      }
    }
  }

  /** It consists of orbits of 31 numbers each. */
  lemma {:induction false} ClosedSize(s: set<nat>, d: nat, e: nat) returns (k: nat)
    requires Closed(s, d) && M31 == d * e && d % 2 == 1
    ensures |s| == 31 * k
    decreases |s|
  {
    hide Orbit, Double;
    k := 0;
    if s != {} {
      var a :| a in s;
      var o := Orbit(a, 31, d);
      OrbitInside(s, a, d);
      WithoutOrbit(s, a, d, e);
      OrbitSize(a, 31, d, e);
      SizeWithout(s, o);
      var less := ClosedSize(s - o, d, e);
      k := less + 1;
    }
  }

  lemma SizeWithout(s: set<nat>, o: set<nat>)
    requires o <= s
    ensures |s - o| == |s| - |o|
    ensures o != {} ==> |s - o| < |s|
  {
    assert s == o + (s - o);
    if o != {} {
      assert |o| > 0;
    }
  }

  function UpTo(n: nat): (s: set<nat>)
    ensures |s| == n && forall x :: x in s <==> 0 < x <= n
  {
    if n == 0 then {} else UpTo(n - 1) + {n}
  }

  lemma UpToClosed(d: nat)
    requires d % 2 == 1
    ensures Closed(UpTo(d - 1), d)
  {
  }

  /** Every divisor leaves 1 modulo 62. */
  lemma DivisorForm(d: nat, e: nat) returns (m: nat)
    requires d > 0 && M31 == d * e
    ensures d == 62 * m + 1
  {
    OddDivisor(d, e);
    UpToClosed(d);
    var k := ClosedSize(UpTo(d - 1), d, e);
    m := k / 2;
    OddMultiple(d, k, m);
  }

  lemma OddMultiple(d: nat, k: nat, m: nat)
    requires d == 31 * k + 1 && d % 2 == 1 && m == k / 2
    ensures d == 62 * m + 1
  {
    if k == 2 * m + 1 {
      assert d == 2 * (31 * m + 16);
    }
  }

  lemma EvenProduct(d: nat, e: nat)
    requires d % 2 == 0
    ensures d * e % 2 == 0
  {
    var h := d / 2;
    assert d * e == 2 * (h * e);
  }

  lemma OddDivisor(d: nat, e: nat)
    requires M31 == d * e
    ensures d % 2 == 1
  {
    if d % 2 == 0 {
      EvenProduct(d, e);
    }
  }

  // ---------- The candidates ----------

  predicate NotBy(d: int) {
    d != 0 && 0x7fff_ffff % d != 0
  }

  /** Two candidates, 62 apart. */
  predicate NotBy2(d: int) {
    NotBy(d) && NotBy(d + 62)
  }

  predicate NotBy4(d: int) {
    NotBy2(d) && NotBy2(d + 124)
  }

  predicate NotBy8(d: int) {
    NotBy4(d) && NotBy4(d + 248)
  }

  predicate NotBy16(d: int) {
    NotBy8(d) && NotBy8(d + 496)
  }

  predicate NotBy32(d: int) {
    NotBy16(d) && NotBy16(d + 992)
  }

  predicate NotBy64(d: int) {
    NotBy32(d) && NotBy32(d + 1984)
  }

  lemma AmongEight(d: int, i: nat)
    requires NotBy8(d) && i < 8
    ensures NotBy(d + 62 * i)
  {
    hide NotBy;
  }

  lemma AmongSixtyFour(d: int, i: nat)
    requires NotBy64(d) && i < 64
    ensures NotBy(d + 62 * i)
  {
    hide NotBy, NotBy2, NotBy4, NotBy8;
    var j := i / 8;
    assert NotBy8(d + 496 * j);
    AmongEight(d + 496 * j, i - 8 * j);
  }

  lemma Block0()
    ensures NotBy64(63)
  {
  }

  lemma Block1()
    ensures NotBy64(4031)
  {
  }

  lemma Block2()
    ensures NotBy64(7999)
  {
  }

  lemma Block3()
    ensures NotBy64(11967)
  {
  }

  lemma Block4()
    ensures NotBy64(15935)
  {
  }

  lemma Block5()
    ensures NotBy64(19903)
  {
  }

  lemma Block6()
    ensures NotBy64(23871)
  {
  }

  lemma Block7()
    ensures NotBy64(27839)
  {
  }

  lemma Block8()
    ensures NotBy64(31807)
  {
  }

  lemma Block9()
    ensures NotBy64(35775)
  {
  }

  lemma Block10()
    ensures NotBy64(39743)
  {
  }

  lemma Block11()
    ensures NotBy64(43711)
  {
  }

  /** No number of this form up to the root divides. */
  lemma NoSmallDivisor(m: nat)
    requires 0 < m < 748
    ensures NotBy(62 * m + 1)
  {
    hide NotBy, NotBy64;
    Block0(); Block1(); Block2(); Block3(); Block4(); Block5();
    Block6(); Block7(); Block8(); Block9(); Block10(); Block11();
    var j := (m - 1) / 64;
    assert NotBy64(63 + 3968 * j);
    AmongSixtyFour(63 + 3968 * j, m - 1 - 64 * j);
  }

  lemma Squared(d: nat, e: nat)
    requires 46341 <= d <= e
    ensures d * e >= 46341 * 46341
  {
    assert d * e >= d * 46341;
  }

  lemma SmallerFactor(d: nat, e: nat)
    requires M31 == d * e && d <= e
    ensures d <= 46340
  {
    if d >= 46341 {
      Squared(d, e);
    }
  }

  lemma Divides(d: nat, e: nat)
    requires M31 == d * e && d > 0
    ensures M31 % d == 0
  {
    var q := M31 / d;
    assert M31 % d == d * e - d * q == d * (e - q);
    SmallMultiple(M31 % d, 0, d, e - q);
  }

  /** 2^31 - 1 is prime. */
  lemma Prime(d: nat, e: nat)
    requires M31 == d * e
    ensures d == 1 || e == 1
  {
    if d > e {
      Prime(e, d);
    } else if d > 1 {
      SmallerFactor(d, e);
      var m := DivisorForm(d, e);
      Divides(d, e);
      NoSmallDivisor(m);
    }
  }
}
