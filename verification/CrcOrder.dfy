/**
  The order of x modulo the polynomial of CRC-32C: its powers repeat after 2^31 - 1 bit steps, and not
  before. So the polynomial CRC detects every change of two bits that are less than that far apart.
*/
module CrcOrder {
  import opened Crc32c
  import opened CrcPaths
  import opened CrcSteps
  import opened CrcTable
  import opened Mersenne

  /** The polynomial 1: the coefficient of x^i is bit 31 - i. */
  const ONE: bv32 := 0x8000_0000

  // ---------- Multiplication ----------

  /** v if the constant coefficient of a is set. */
  function Top(a: bv32, v: bv32): bv32 {
    if a & 0x8000_0000 != 0 then v else 0
  }

  function Up(a: bv32): bv32 {
    a << 1
  }

  /** The product of v and the first n terms of a. */
  function Times(a: bv32, v: bv32, n: nat): bv32
    decreases n
  {
    if n == 0 then 0 else Sum(Top(a, v), BitStep(Times(Up(a), v, n - 1)))
  }

  function Ups(a: bv32, n: nat): bv32
    decreases n
  {
    if n == 0 then a else Ups(Up(a), n - 1)
  }

  lemma TopIsMask(a: bv32)
    ensures Top(a, ONE) == a & 0x8000_0000
  {
  }

  lemma UpIsClear(a: bv32)
    ensures Clear(Up(a), 1)
  {
  }

  lemma HalfUp(a: bv32)
    ensures Half(Up(a)) == a & 0x7fff_ffff
  {
  }

  lemma MasksTogether(a: bv32)
    ensures Sum(a & 0x8000_0000, a & 0x7fff_ffff) == a
  {
  }

  lemma TopAndRest(a: bv32)
    ensures Sum(Top(a, ONE), BitStep(Up(a))) == a
  {
    hide *;
    TopIsMask(a);
    UpIsClear(a);
    HalfUp(a);
    BitStepIs(Up(a));
    MasksTogether(a);
  }

  /** A polynomial of n terms is its product with 1. */
  lemma {:induction false} TimesOne(a: bv32, n: nat)
    requires Ups(a, n) == 0
    ensures Times(a, ONE, n) == a
    decreases n
  {
    hide Sum, Top, BitStep, Up;
    if n > 0 {
      TimesOne(Up(a), n - 1);
      TopAndRest(a);
    }
  }

  lemma {:induction false} UpsAdd(a: bv32, m: nat, n: nat)
    ensures Ups(a, m + n) == Ups(Ups(a, m), n)
    decreases m
  {
    hide Up;
    if m > 0 {
      UpsAdd(Up(a), m - 1, n);
    }
  }

  function Up4(a: bv32): bv32 {
    a << 4
  }

  lemma UpFour(a: bv32)
    ensures Up(Up(Up(Up(a)))) == Up4(a)
  {
  }

  lemma FourUps(a: bv32)
    ensures Ups(a, 4) == Up4(a)
  {
    hide Up, Up4;
    UpFour(a);
    assert Ups(a, 4) == Ups(Up(a), 3) == Ups(Up(Up(a)), 2) == Ups(Up(Up(Up(a))), 1);
  }

  lemma EightUps(a: bv32)
    ensures Ups(a, 8) == a << 8
  {
    hide Ups, Up, Up4;
    UpsAdd(a, 4, 4);
    FourUps(a);
    FourUps(Up4(a));
    FourTwice(a);
  }

  lemma FourTwice(a: bv32)
    ensures Up4(Up4(a)) == a << 8
  {
  }

  lemma NothingLeft(a: bv32)
    ensures (((a << 8) << 8) << 8) << 8 == 0
  {
  }

  lemma AllUps(a: bv32)
    ensures Ups(a, 32) == 0
  {
    hide Ups;
    UpsAdd(a, 8, 24);
    UpsAdd(a << 8, 8, 16);
    UpsAdd((a << 8) << 8, 8, 8);
    EightUps(a);
    EightUps(a << 8);
    EightUps((a << 8) << 8);
    EightUps(((a << 8) << 8) << 8);
    NothingLeft(a);
  }

  /** Bit steps of a product are bit steps of one factor. */
  lemma {:induction false} StepsOfTimes(a: bv32, v: bv32, n: nat, m: nat)
    ensures BitSteps(Times(a, v, n), m) == Times(a, BitSteps(v, m), n)
    decreases n
  {
    hide Sum, Top, BitStep, BitSteps, Up;
    ZeroSteps(m);
    if n > 0 {
      var rest := Times(Up(a), v, n - 1);
      StepsOfTimes(Up(a), v, n - 1, m);
      BitStepsLinear(Top(a, v), BitStep(rest), m);
      TopSteps(a, v, m);
      StepsCommute(rest, m);
    }
  }

  lemma TopSteps(a: bv32, v: bv32, m: nat)
    ensures BitSteps(Top(a, v), m) == Top(a, BitSteps(v, m))
  {
    ZeroSteps(m);
    hide BitSteps;
  }

  lemma StepsCommute(x: bv32, m: nat)
    ensures BitSteps(BitStep(x), m) == BitStep(BitSteps(x, m))
  {
    OneStep(x);
    OneStep(BitSteps(x, m));
    BitStepsAdd(x, 1, m);
    BitStepsAdd(x, m, 1);
    hide BitSteps, BitStep;
  }

  lemma OneStep(x: bv32)
    ensures BitSteps(x, 1) == BitStep(x) && BitSteps(x, 0) == x
  {
    hide BitStep;
  }

  /** n bit steps multiply by the polynomial that they make of 1. */
  lemma StepsAreTimes(a: bv32, n: nat)
    ensures BitSteps(a, n) == Times(a, BitSteps(ONE, n), 32)
  {
    hide Times, BitSteps, Ups;
    AllUps(a);
    TimesOne(a, 32);
    StepsOfTimes(a, ONE, 32, n);
  }

  // ---------- The powers 2^k of x ----------

  function Next(a: bv32, v: bv32, z: bv32): bv32 {
    Sum(Top(a, v), BitStep(z))
  }

  function Four(a: bv32, v: bv32, z: bv32): bv32 {
    Next(a, v, Next(a << 1, v, Next(a << 2, v, Next(a << 3, v, z))))
  }

  function Sixteen(a: bv32, v: bv32, z: bv32): bv32 {
    Four(a, v, Four(a << 4, v, Four(a << 8, v, Four(a << 12, v, z))))
  }

  /** The product of two polynomials, term by term. */
  function Product(a: bv32, v: bv32): bv32 {
    Sixteen(a, v, Sixteen(a << 16, v, 0))
  }

  lemma FourIs(a: bv32, v: bv32, z: bv32)
    ensures Four(a, v, z) == Next(a, v, Next(Up(a), v, Next(Up(Up(a)), v, Next(Up(Up(Up(a))), v, z))))
  {
    hide Next;
    UpsAre(a);
  }

  lemma UpsAre(a: bv32)
    ensures Up(a) == a << 1 && Up(Up(a)) == a << 2 && Up(Up(Up(a))) == a << 3
  {
  }

  lemma TimesFour(a: bv32, b: bv32, v: bv32, n: nat)
    requires b == Up4(a)
    ensures Times(a, v, n + 4) == Four(a, v, Times(b, v, n))
  {
    hide Sum, Top, BitStep, Up, Up4, Four;
    FourIs(a, v, Times(b, v, n));
    UpFour(a);
    var c, d, e := Up(a), Up(Up(a)), Up(Up(Up(a)));
    assert Times(a, v, n + 4) == Next(a, v, Times(c, v, n + 3));
    assert Times(c, v, n + 3) == Next(c, v, Times(d, v, n + 2));
    assert Times(d, v, n + 2) == Next(d, v, Times(e, v, n + 1));
  }

  lemma FourShifts(a: bv32)
    ensures Up4(a) == a << 4 && Up4(a << 4) == a << 8 && Up4(a << 8) == a << 12 && Up4(a << 12) == a << 16
  {
  }

  lemma TimesSixteen(a: bv32, v: bv32, n: nat)
    ensures Times(a, v, n + 16) == Sixteen(a, v, Times(a << 16, v, n))
  {
    hide Times, Four, Up4;
    FourShifts(a);
    TimesFour(a, a << 4, v, n + 12);
    TimesFour(a << 4, a << 8, v, n + 8);
    TimesFour(a << 8, a << 12, v, n + 4);
    TimesFour(a << 12, a << 16, v, n);
  }

  lemma TimesNothing(a: bv32, v: bv32)
    ensures Times(a, v, 0) == 0
  {
  }

  lemma ProductIs(a: bv32, v: bv32)
    ensures Product(a, v) == Times(a, v, 32)
  {
    hide Sixteen, Times;
    TimesSixteen(a, v, 16);
    TimesSixteen(a << 16, v, 0);
    TimesNothing((a << 16) << 16, v);
  }

  /** Twice as many steps square the power. */
  lemma Twice(n: nat, r: bv32, s: bv32)
    requires BitSteps(ONE, n) == r && Product(r, r) == s
    ensures BitSteps(ONE, 2 * n) == s
  {
    hide BitSteps, Product, Times;
    BitStepsAdd(ONE, n, n);
    StepsAreTimes(r, n);
    ProductIs(r, r);
  }

  lemma Squares0()
    requires BitSteps(ONE, 0x1) == 0x4000_0000
    ensures BitSteps(ONE, 0x10) == 0x0000_8000
  {
    hide BitSteps, Product;
    Products0();
    Twice(0x1, 0x4000_0000, 0x2000_0000);
    Twice(0x2, 0x2000_0000, 0x0800_0000);
    Twice(0x4, 0x0800_0000, 0x0080_0000);
    Twice(0x8, 0x0080_0000, 0x0000_8000);
  }

  lemma Products0()
    ensures Product(0x4000_0000, 0x4000_0000) == 0x2000_0000
    ensures Product(0x2000_0000, 0x2000_0000) == 0x0800_0000
    ensures Product(0x0800_0000, 0x0800_0000) == 0x0080_0000
    ensures Product(0x0080_0000, 0x0080_0000) == 0x0000_8000
  {
  }

  lemma Squares1()
    requires BitSteps(ONE, 0x10) == 0x0000_8000
    ensures BitSteps(ONE, 0x100) == 0x510A_C59A
  {
    hide BitSteps, Product;
    Products1();
    Twice(0x10, 0x0000_8000, 0x82F6_3B78);
    Twice(0x20, 0x82F6_3B78, 0x6EA2_D55C);
    Twice(0x40, 0x6EA2_D55C, 0x18B8_EA18);
    Twice(0x80, 0x18B8_EA18, 0x510A_C59A);
  }

  lemma Products1()
    ensures Product(0x0000_8000, 0x0000_8000) == 0x82F6_3B78
    ensures Product(0x82F6_3B78, 0x82F6_3B78) == 0x6EA2_D55C
    ensures Product(0x6EA2_D55C, 0x6EA2_D55C) == 0x18B8_EA18
    ensures Product(0x18B8_EA18, 0x18B8_EA18) == 0x510A_C59A
  {
  }

  lemma Squares2()
    requires BitSteps(ONE, 0x100) == 0x510A_C59A
    ensures BitSteps(ONE, 0x1000) == 0x74C3_60A4
  {
    hide BitSteps, Product;
    Products2();
    Twice(0x100, 0x510A_C59A, 0xB82B_E955);
    Twice(0x200, 0xB82B_E955, 0xB8FD_B1E7);
    Twice(0x400, 0xB8FD_B1E7, 0x88E5_6F72);
    Twice(0x800, 0x88E5_6F72, 0x74C3_60A4);
  }

  lemma Products2()
    ensures Product(0x510A_C59A, 0x510A_C59A) == 0xB82B_E955
    ensures Product(0xB82B_E955, 0xB82B_E955) == 0xB8FD_B1E7
    ensures Product(0xB8FD_B1E7, 0xB8FD_B1E7) == 0x88E5_6F72
    ensures Product(0x88E5_6F72, 0x88E5_6F72) == 0x74C3_60A4
  {
  }

  lemma Squares3()
    requires BitSteps(ONE, 0x1000) == 0x74C3_60A4
    ensures BitSteps(ONE, 0x10000) == 0x2846_1564
  {
    hide BitSteps, Product;
    Products3();
    Twice(0x1000, 0x74C3_60A4, 0xE417_2B16);
    Twice(0x2000, 0xE417_2B16, 0x0D65_762A);
    Twice(0x4000, 0x0D65_762A, 0x35D7_3A62);
    Twice(0x8000, 0x35D7_3A62, 0x2846_1564);
  }

  lemma Products3()
    ensures Product(0x74C3_60A4, 0x74C3_60A4) == 0xE417_2B16
    ensures Product(0xE417_2B16, 0xE417_2B16) == 0x0D65_762A
    ensures Product(0x0D65_762A, 0x0D65_762A) == 0x35D7_3A62
    ensures Product(0x35D7_3A62, 0x35D7_3A62) == 0x2846_1564
  {
  }

  lemma Squares4()
    requires BitSteps(ONE, 0x10000) == 0x2846_1564
    ensures BitSteps(ONE, 0x100000) == 0xF946_610B
  {
    hide BitSteps, Product;
    Products4();
    Twice(0x10000, 0x2846_1564, 0xBF45_5269);
    Twice(0x20000, 0xBF45_5269, 0xE2EA_32DC);
    Twice(0x40000, 0xE2EA_32DC, 0xFE77_40E6);
    Twice(0x80000, 0xFE77_40E6, 0xF946_610B);
  }

  lemma Products4()
    ensures Product(0x2846_1564, 0x2846_1564) == 0xBF45_5269
    ensures Product(0xBF45_5269, 0xBF45_5269) == 0xE2EA_32DC
    ensures Product(0xE2EA_32DC, 0xE2EA_32DC) == 0xFE77_40E6
    ensures Product(0xFE77_40E6, 0xFE77_40E6) == 0xF946_610B
  {
  }

  lemma Squares5()
    requires BitSteps(ONE, 0x100000) == 0xF946_610B
    ensures BitSteps(ONE, 0x1000000) == 0x734D_5309
  {
    hide BitSteps, Product;
    Products5();
    Twice(0x100000, 0xF946_610B, 0x3C20_4F8F);
    Twice(0x200000, 0x3C20_4F8F, 0x5385_86E3);
    Twice(0x400000, 0x5385_86E3, 0x5972_6915);
    Twice(0x800000, 0x5972_6915, 0x734D_5309);
  }

  lemma Products5()
    ensures Product(0xF946_610B, 0xF946_610B) == 0x3C20_4F8F
    ensures Product(0x3C20_4F8F, 0x3C20_4F8F) == 0x5385_86E3
    ensures Product(0x5385_86E3, 0x5385_86E3) == 0x5972_6915
    ensures Product(0x5972_6915, 0x5972_6915) == 0x734D_5309
  {
  }

  lemma Squares6()
    requires BitSteps(ONE, 0x1000000) == 0x734D_5309
    ensures BitSteps(ONE, 0x10000000) == 0xE94C_A9BC
  {
    hide BitSteps, Product;
    Products6();
    Twice(0x1000000, 0x734D_5309, 0xBC1A_C763);
    Twice(0x2000000, 0xBC1A_C763, 0x7D07_22CC);
    Twice(0x4000000, 0x7D07_22CC, 0xD289_CABE);
    Twice(0x8000000, 0xD289_CABE, 0xE94C_A9BC);
  }

  lemma Products6()
    ensures Product(0x734D_5309, 0x734D_5309) == 0xBC1A_C763
    ensures Product(0xBC1A_C763, 0xBC1A_C763) == 0x7D07_22CC
    ensures Product(0x7D07_22CC, 0x7D07_22CC) == 0xD289_CABE
    ensures Product(0xD289_CABE, 0xD289_CABE) == 0xE94C_A9BC
  {
  }

  lemma Squares7()
    requires BitSteps(ONE, 0x10000000) == 0xE94C_A9BC
    ensures BitSteps(ONE, 0x80000000) == 0x4000_0000
  {
    hide BitSteps, Product;
    Products7();
    Twice(0x10000000, 0xE94C_A9BC, 0x05B7_4F3F);
    Twice(0x20000000, 0x05B7_4F3F, 0xA51E_1F42);
    Twice(0x40000000, 0xA51E_1F42, 0x4000_0000);
  }

  lemma Products7()
    ensures Product(0xE94C_A9BC, 0xE94C_A9BC) == 0x05B7_4F3F
    ensures Product(0x05B7_4F3F, 0x05B7_4F3F) == 0xA51E_1F42
    ensures Product(0xA51E_1F42, 0xA51E_1F42) == 0x4000_0000
  {
  }

  /** x to the power of 2^31 is x again. */
  lemma Frobenius()
    ensures BitSteps(ONE, 0x8000_0000) == BitSteps(ONE, 1)
  {
    FirstPower();
    hide BitSteps;
    Squares0();
    Squares1();
    Squares2();
    Squares3();
    Squares4();
    Squares5();
    Squares6();
    Squares7();
  }

  lemma FirstPower()
    ensures BitSteps(ONE, 1) == 0x4000_0000
  {
    OneStep(ONE);
  }

  // ---------- When the powers repeat ----------

  lemma {:induction false} BytesOfStepsInjective(x: bv32, y: bv32, n: nat)
    requires BitSteps(x, 8 * n) == BitSteps(y, 8 * n)
    ensures x == y
    decreases n
  {
    if n > 0 {
      BitStepsAdd(x, 8 * (n - 1), 8);
      BitStepsAdd(y, 8 * (n - 1), 8);
      hide BitSteps, Step;
      StepIsBits(BitSteps(x, 8 * (n - 1)));
      StepIsBits(BitSteps(y, 8 * (n - 1)));
      StepInjective(Hardware, BitSteps(x, 8 * (n - 1)), BitSteps(y, 8 * (n - 1)), 0);
      BytesOfStepsInjective(x, y, n - 1);
    }
  }

  lemma StepsBack(x: bv32, y: bv32, n: nat)
    requires BitSteps(x, n) == BitSteps(y, n)
    ensures x == y
  {
    hide BitSteps;
    BitStepsAdd(x, n, 7 * n);
    BitStepsAdd(y, n, 7 * n);
    assert n + 7 * n == 8 * n;
    BytesOfStepsInjective(x, y, n);
  }

  /** n bit steps lead from 1 back to 1. */
  predicate Period(n: nat) {
    BitSteps(ONE, n) == ONE
  }

  lemma PeriodAdd(m: nat, n: nat)
    requires Period(m)
    ensures Period(m + n) <==> Period(n)
  {
    BitStepsAdd(ONE, m, n);
    hide BitSteps;
  }

  lemma {:induction false} PeriodTimes(m: nat, k: nat, n: nat)
    requires Period(m)
    ensures Period(m * k + n) <==> Period(n)
    decreases k
  {
    hide Period;
    if k > 0 {
      PeriodTimes(m, k - 1, n);
      PeriodAdd(m, m * (k - 1) + n);
      assert m * k + n == m + (m * (k - 1) + n);
    }
  }

  lemma FullPeriod()
    ensures Period(M31)
  {
    Frobenius();
    BitStepsAdd(ONE, M31, 1);
    hide BitSteps;
    StepsBack(BitSteps(ONE, M31), ONE, 1);
  }

  lemma {:induction false} LeastPeriod(n: nat) returns (g: nat)
    requires 0 < n && Period(n)
    ensures 0 < g <= n && Period(g) && forall k :: 0 < k < g ==> !Period(k)
    decreases n
  {
    hide Period;
    if k :| 0 < k < n && Period(k) {
      g := LeastPeriod(k);
    } else {
      g := n;
    }
  }

  /** The least period divides 2^31 - 1, which is prime. */
  lemma OnlyPeriod(g: nat)
    requires 0 < g <= M31 && Period(g) && forall k :: 0 < k < g ==> !Period(k)
    ensures g == M31
  {
    hide Period;
    var q, r := M31 / g, M31 % g;
    assert M31 == g * q + r;
    FullPeriod();
    PeriodTimes(g, q, r);
    assert r == 0;
    Prime(g, q);
    NotOne();
  }

  lemma NotOne()
    ensures !Period(1)
  {
    FirstPower();
    hide BitSteps;
  }

  /** The powers of x repeat exactly after the multiples of 2^31 - 1. */
  lemma Order(n: nat)
    ensures Period(n) <==> n % M31 == 0
  {
    FullPeriod();
    PeriodTimes(M31, n / M31, n % M31);
    if n % M31 == 0 {
      NoSteps();
    } else if Period(n % M31) {
      var g := LeastPeriod(n % M31);
      OnlyPeriod(g);
    }
  }

  lemma NoSteps()
    ensures Period(0)
  {
  }

  lemma PowersMeet(n: nat, apart: nat)
    ensures BitSteps(ONE, n + apart) == BitSteps(ONE, n) <==> apart % M31 == 0
  {
    Order(apart);
    BitStepsAdd(ONE, apart, n);
    hide BitSteps;
    assert apart + n == n + apart;
    if BitSteps(ONE, n + apart) == BitSteps(ONE, n) {
      StepsBack(BitSteps(ONE, apart), ONE, n);
    }
  }

  lemma Remainder(x: nat, q: nat, r: nat)
    requires x == M31 * q + r && r < M31
    ensures x % M31 == r
  {
  }

  lemma EightSmall(r: nat, s: nat)
    requires r < M31 && 8 * r == M31 * s
    ensures r == 0
  {
  }

  lemma EightTimes(n: nat)
    ensures 8 * n % M31 == 0 <==> n % M31 == 0
  {
    var q, r := n / M31, n % M31;
    var s, t := 8 * r / M31, 8 * r % M31;
    assert n == M31 * q + r && 8 * r == M31 * s + t;
    Remainder(8 * n, 8 * q + s, t);
    if t == 0 {
      EightSmall(r, s);
    }
  }

  lemma LowPowers()
    ensures BitSteps(ONE, 24) == 0x80 && BitSteps(ONE, 25) == 0x40 && BitSteps(ONE, 26) == 0x20
    ensures BitSteps(ONE, 27) == 0x10 && BitSteps(ONE, 28) == 0x08 && BitSteps(ONE, 29) == 0x04
    ensures BitSteps(ONE, 30) == 0x02 && BitSteps(ONE, 31) == 0x01
  {
    Eight(ONE);
    Eight(0x0080_0000);
    Eight(0x0000_8000);
    BitStepsAdd(ONE, 8, 8);
    BitStepsAdd(ONE, 16, 8);
    BitStepsAdd(ONE, 24, 2);
    BitStepsAdd(ONE, 24, 4);
    BitStepsAdd(ONE, 24, 6);
  }
}
