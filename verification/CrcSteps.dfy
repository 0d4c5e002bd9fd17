/**
  The bit-at-a-time reflected CRC with polynomial 0x82F63B78: its linearity, and the byte table
  that eight of its steps amount to.
*/
module CrcSteps {
  import opened CrcTable

  /** One step of the bit-serial division. */
  function BitStep(x: bv32): bv32 {
    if x & 1 == 0 then x >> 1 else (x >> 1) ^ POLY
  }

  function BitSteps(x: bv32, n: nat): bv32
    decreases n
  {
    if n == 0 then x else BitStep(BitSteps(x, n - 1))
  }

  lemma ShiftXor(x: bv32, y: bv32)
    ensures (x ^ y) >> 1 == (x >> 1) ^ (y >> 1)
    ensures (x ^ y) & 1 == (x & 1) ^ (y & 1)
    ensures x & 1 == 0 || x & 1 == 1
    ensures y & 1 == 0 || y & 1 == 1
  {
  }

  lemma XorAlgebra(a: bv32, b: bv32, p: bv32)
    ensures (a ^ p) ^ (b ^ p) == a ^ b
    ensures (a ^ p) ^ b == (a ^ b) ^ p
    ensures a ^ (b ^ p) == (a ^ b) ^ p
  {
  }

  lemma BitStepXor(x: bv32, y: bv32)
    ensures BitStep(x ^ y) == BitStep(x) ^ BitStep(y)
  {
    ShiftXor(x, y);
    XorAlgebra(x >> 1, y >> 1, POLY);
    if x & 1 == 0 {
      if y & 1 == 0 {
        assert BitStep(x ^ y) == BitStep(x) ^ BitStep(y);
      } else {
        assert BitStep(x ^ y) == BitStep(x) ^ BitStep(y);
      }
    } else {
      if y & 1 == 0 {
        assert BitStep(x ^ y) == BitStep(x) ^ BitStep(y);
      } else {
        assert BitStep(x ^ y) == BitStep(x) ^ BitStep(y);
      }
    }
  }

  lemma BitStepLinear(x: bv32, y: bv32)
    ensures BitStep(Sum(x, y)) == Sum(BitStep(x), BitStep(y))
  {
    hide BitStep;
    BitStepXor(x, y);
  }

  lemma {:induction false} BitStepsLinear(x: bv32, y: bv32, n: nat)
    ensures BitSteps(Sum(x, y), n) == Sum(BitSteps(x, n), BitSteps(y, n))
    decreases n
  {
    hide Sum, BitStep;
    if n > 0 {
      BitStepsLinear(x, y, n - 1);
      BitStepLinear(BitSteps(x, n - 1), BitSteps(y, n - 1));
    }
  }

  lemma {:induction false} BitStepsAdd(x: bv32, m: nat, n: nat)
    ensures BitSteps(x, m + n) == BitSteps(BitSteps(x, m), n)
    decreases n
  {
    if n > 0 {
      BitStepsAdd(x, m, n - 1);
    }
  }

  /** Eight steps from a single bit. */
  lemma Powers()
    ensures BitSteps(0x01, 8) == 0xF26B8303 && BitSteps(0x02, 8) == 0xE13B70F7
    ensures BitSteps(0x04, 8) == 0xC79A971F && BitSteps(0x08, 8) == 0x8AD958CF
    ensures BitSteps(0x10, 8) == 0x105EC76F && BitSteps(0x20, 8) == 0x20BD8EDE
    ensures BitSteps(0x40, 8) == 0x417B1DBC && BitSteps(0x80, 8) == 0x82F63B78
  {
    Eight(0x01);
    Eight(0x02);
    Eight(0x04);
    Eight(0x08);
    Eight(0x10);
    Eight(0x20);
    Eight(0x40);
    Eight(0x80);
  }

  function Step8(x: bv32): bv32 {
    BitStep(BitStep(BitStep(BitStep(BitStep(BitStep(BitStep(BitStep(x))))))))
  }

  lemma Eight(x: bv32)
    ensures BitSteps(x, 8) == Step8(x)
  {
    assert BitSteps(x, 2) == BitStep(BitStep(x));
    assert BitSteps(x, 4) == BitStep(BitStep(BitSteps(x, 2)));
    assert BitSteps(x, 6) == BitStep(BitStep(BitSteps(x, 4)));
  }

  lemma {:induction false} ZeroSteps(n: nat)
    ensures BitSteps(0, n) == 0
  {
    if n > 0 {
      ZeroSteps(n - 1);
    }
  }

  /** The bit of i under mask m, as a word. */
  function BitOf(i: bv8, m: bv8): bv32 {
    if i & m != 0 then m as bv32 else 0
  }

  /** The bits of i under mask m, as a word. */
  function Masked(i: bv8, m: bv8): bv32 {
    (i & m) as bv32
  }

  lemma FirstBit(i: bv8)
    ensures Masked(i, 0x01) == BitOf(i, 0x01)
  {
  }

  lemma AllBits(i: bv8)
    ensures Masked(i, 0xff) == i as bv32
  {
  }

  /** One more bit: m is the next one above those of low. */
  lemma NextBit(i: bv8, low: bv8, m: bv8)
    requires (low == 0x01 && m == 0x02) || (low == 0x03 && m == 0x04) || (low == 0x07 && m == 0x08) ||
             (low == 0x0f && m == 0x10) || (low == 0x1f && m == 0x20) || (low == 0x3f && m == 0x40) ||
             (low == 0x7f && m == 0x80)
    ensures Masked(i, low | m) == Sum(Masked(i, low), BitOf(i, m))
  {
  }

  lemma BitsOf(i: bv8)
    ensures i as bv32 == Sum8(BitOf(i, 0x01), BitOf(i, 0x02), BitOf(i, 0x04), BitOf(i, 0x08),
                              BitOf(i, 0x10), BitOf(i, 0x20), BitOf(i, 0x40), BitOf(i, 0x80))
  {
    hide Masked, BitOf, Sum;
    FirstBit(i);
    NextBit(i, 0x01, 0x02);
    NextBit(i, 0x03, 0x04);
    NextBit(i, 0x07, 0x08);
    NextBit(i, 0x0f, 0x10);
    NextBit(i, 0x1f, 0x20);
    NextBit(i, 0x3f, 0x40);
    NextBit(i, 0x7f, 0x80);
    AllBits(i);
  }

  lemma StepsOfBit(i: bv8, m: bv8, v: bv32)
    requires BitSteps(m as bv32, 8) == v
    ensures BitSteps(BitOf(i, m), 8) == Pick(i, m, v)
  {
    hide BitSteps;
    ZeroSteps(8);
  }

  lemma StepsOfSum8(a: bv32, b: bv32, c: bv32, d: bv32, e: bv32, f: bv32, g: bv32, h: bv32)
    ensures BitSteps(Sum8(a, b, c, d, e, f, g, h), 8)
         == Sum8(BitSteps(a, 8), BitSteps(b, 8), BitSteps(c, 8), BitSteps(d, 8),
                 BitSteps(e, 8), BitSteps(f, 8), BitSteps(g, 8), BitSteps(h, 8))
  {
    hide BitSteps, Sum;
    BitStepsLinear(a, b, 8);
    var ab := Sum(a, b);
    BitStepsLinear(ab, c, 8);
    var abc := Sum(ab, c);
    BitStepsLinear(abc, d, 8);
    var abcd := Sum(abc, d);
    BitStepsLinear(abcd, e, 8);
    var abcde := Sum(abcd, e);
    BitStepsLinear(abcde, f, 8);
    var abcdef := Sum(abcde, f);
    BitStepsLinear(abcdef, g, 8);
    BitStepsLinear(Sum(abcdef, g), h, 8);
  }

  /** The table of the recurrence: the entry for i is eight steps from i. */
  lemma BasisIsSteps(i: bv8)
    ensures Basis(i) == BitSteps(i as bv32, 8)
  {
    hide BitSteps, Sum8, Pick, BitOf;
    Powers();
    BitsOf(i);
    StepsOfSum8(BitOf(i, 0x01), BitOf(i, 0x02), BitOf(i, 0x04), BitOf(i, 0x08),
                BitOf(i, 0x10), BitOf(i, 0x20), BitOf(i, 0x40), BitOf(i, 0x80));
    StepsOfBit(i, 0x01, 0xF26B8303);
    StepsOfBit(i, 0x02, 0xE13B70F7);
    StepsOfBit(i, 0x04, 0xC79A971F);
    StepsOfBit(i, 0x08, 0x8AD958CF);
    StepsOfBit(i, 0x10, 0x105EC76F);
    StepsOfBit(i, 0x20, 0x20BD8EDE);
    StepsOfBit(i, 0x40, 0x417B1DBC);
    StepsOfBit(i, 0x80, 0x82F63B78);
  }
}
