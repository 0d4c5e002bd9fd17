/**
  The parity of the bits of a register. Below its leading term the polynomial of CRC-32C has 17 terms,
  an odd number, so that a bit step keeps the parity: the polynomial CRC notices every change of an odd
  number of bits.
*/
module CrcParity {
  import opened CrcTable
  import opened CrcSteps
  import opened Crc32c
  import opened CrcPaths
  import opened Machine

  /** How many of the n low bits of x are set. */
  function Ones(x: bv32, n: nat): nat
    decreases n
  {
    if n == 0 then 0 else (if Clear(x, 1) then 0 else 1) + Ones(Half(x), n - 1)
  }

  /** Whether that number is odd. */
  function Odd(x: bv32, n: nat): bool
    decreases n
  {
    if n == 0 then false else if Clear(x, 1) then Odd(Half(x), n - 1) else !Odd(Half(x), n - 1)
  }

  lemma {:induction false} OddIsCount(x: bv32, n: nat)
    ensures Odd(x, n) <==> Ones(x, n) % 2 == 1
    decreases n
  {
    hide Clear, Half;
    if n > 0 {
      OddIsCount(Half(x), n - 1);
    }
  }

  lemma HalfOfSum(x: bv32, y: bv32)
    ensures Half(Sum(x, y)) == Sum(Half(x), Half(y))
  {
  }

  lemma ClearOfSum(x: bv32, y: bv32)
    ensures Clear(Sum(x, y), 1) <==> (Clear(x, 1) <==> Clear(y, 1))
  {
  }

  lemma {:induction false} OddSum(x: bv32, y: bv32, n: nat)
    ensures Odd(Sum(x, y), n) <==> (Odd(x, n) <==> !Odd(y, n))
    decreases n
  {
    hide Sum, Clear, Half;
    if n > 0 {
      HalfOfSum(x, y);
      ClearOfSum(x, y);
      OddSum(Half(x), Half(y), n - 1);
    }
  }

  // ---------- Bit steps keep the parity ----------

  function Halves(x: bv32, n: nat): bv32
    decreases n
  {
    if n == 0 then x else Halves(Half(x), n - 1)
  }

  lemma {:induction false} HalvesAdd(x: bv32, m: nat, n: nat)
    ensures Halves(x, m + n) == Halves(Halves(x, m), n)
    decreases m
  {
    hide Half;
    if m > 0 {
      HalvesAdd(Half(x), m - 1, n);
    }
  }

  lemma HalvesOfByte(x: bv32)
    ensures Halves(x, 8) == x >> 8
  {
    EightHalves(x);
    hide Half;
    assert Halves(x, 8) == Halves(Half(Half(Half(Half(x)))), 4);
  }

  lemma NoByteLeft(x: bv32)
    ensures (((x >> 8) >> 8) >> 8) >> 8 == 0
  {
  }

  lemma NothingLeft32(x: bv32)
    ensures Halves(x, 32) == 0
  {
    hide *;
    HalvesAdd(x, 8, 24);
    HalvesAdd(x >> 8, 8, 16);
    HalvesAdd((x >> 8) >> 8, 8, 8);
    HalvesOfByte(x);
    HalvesOfByte(x >> 8);
    HalvesOfByte((x >> 8) >> 8);
    HalvesOfByte(((x >> 8) >> 8) >> 8);
    NoByteLeft(x);
  }

  lemma ZeroIsEven()
    ensures Clear(0, 1) && Half(0) == 0
  {
  }

  /** Bits beyond the last one that is set do not count. */
  lemma {:induction false} OddShort(x: bv32, n: nat)
    requires Halves(x, n) == 0
    ensures Odd(x, n + 1) == Odd(x, n)
    decreases n
  {
    hide Half, Clear;
    ZeroIsEven();
    if n > 0 {
      OddShort(Half(x), n - 1);
    } else {
      assert Odd(0, 1) == Odd(0, 0);
    }
  }

  lemma OddHalf(x: bv32)
    ensures Odd(Half(x), 32) == Odd(Half(x), 31)
  {
    NothingLeft32(x);
    assert Halves(x, 32) == Halves(Half(x), 31);
    hide *;
    OddShort(Half(x), 31);
  }

  /** Whether an odd number of the low four bits of x are set. */
  function OddNibble(x: bv32): bool {
    ((x ^ (x >> 1)) ^ ((x >> 2) ^ (x >> 3))) & 1 == 1
  }

  lemma NibbleBits(x: bv32)
    ensures OddNibble(x) <==>
            ((Clear(x, 1) <==> Clear(Half(x), 1)) <==> !(Clear(Half(Half(x)), 1) <==> Clear(Half(Half(Half(x))), 1)))
  {
  }

  lemma FourHalves(x: bv32)
    ensures Half(Half(Half(Half(x)))) == x >> 4
  {
  }

  lemma OddByNibble(x: bv32, n: nat)
    ensures Odd(x, n + 4) <==> (OddNibble(x) <==> !Odd(x >> 4, n))
  {
    NibbleBits(x);
    FourHalves(x);
    hide Clear, Half, OddNibble;
    assert Odd(x, n + 4) == if Clear(x, 1) then Odd(Half(x), n + 3) else !Odd(Half(x), n + 3);
    var y := Half(x);
    assert Odd(y, n + 3) == if Clear(y, 1) then Odd(Half(y), n + 2) else !Odd(Half(y), n + 2);
    var z := Half(y);
    assert Odd(z, n + 2) == if Clear(z, 1) then Odd(Half(z), n + 1) else !Odd(Half(z), n + 1);
  }

  lemma OddPoly()
    ensures Odd(POLY, 32)
  {
    hide Odd;
    OddByNibble(0x82F6_3B78, 28);
    OddByNibble(0x082F_63B7, 24);
    OddByNibble(0x0082_F63B, 20);
    OddByNibble(0x0008_2F63, 16);
    OddByNibble(0x0000_82F6, 12);
    OddByNibble(0x0000_082F, 8);
    OddByNibble(0x0000_0082, 4);
    OddByNibble(0x0000_0008, 0);
    OddNone(0);
  }

  lemma OddNone(x: bv32)
    ensures !Odd(x, 0)
  {
  }

  lemma OddOfStep(x: bv32)
    ensures Odd(BitStep(x), 32) == Odd(x, 32)
  {
    assert Odd(x, 32) == if Clear(x, 1) then Odd(Half(x), 31) else !Odd(Half(x), 31);
    hide *;
    BitStepIs(x);
    OddHalf(x);
    OddSum(Half(x), POLY, 32);
    OddPoly();
  }

  lemma {:induction false} OddOfSteps(x: bv32, n: nat)
    ensures Odd(BitSteps(x, n), 32) == Odd(x, 32)
    decreases n
  {
    hide Odd, BitStep;
    if n > 0 {
      OddOfSteps(x, n - 1);
      OddOfStep(BitSteps(x, n - 1));
    }
  }

  // ---------- Changes of an odd number of bits ----------

  /** Whether an odd number of the bits of buf are set. */
  function OddBits(buf: seq<byte>): bool {
    if buf == [] then false else OddBits(buf[..|buf| - 1]) != OddByte(buf[|buf| - 1])
  }

  /** The number of bits in which two bytes differ. */
  function FlippedIn(a: byte, b: byte): nat {
    Ones((a ^ b) as bv32, 32)
  }

  function OddByte(b: byte): bool {
    Odd(b as bv32, 32)
  }

  /** The number of bits in which s and t differ. */
  function Flipped(s: seq<byte>, t: seq<byte>): nat
    requires |s| == |t|
  {
    if s == [] then 0
    else
      var n := |s| - 1;
      Flipped(s[..n], t[..n]) + FlippedIn(s[n], t[n])
  }

  lemma OddBitsStep(buf: seq<byte>)
    requires buf != []
    ensures OddBits(buf) <==> (OddBits(buf[..|buf| - 1]) <==> !OddByte(buf[|buf| - 1]))
  {
    hide OddByte;
  }

  lemma FlippedStep(s: seq<byte>, t: seq<byte>)
    requires |s| == |t| > 0
    ensures var n := |s| - 1; Flipped(s, t) == Flipped(s[..n], t[..n]) + FlippedIn(s[n], t[n])
  {
    hide FlippedIn;
  }

  lemma NothingFlipped(s: seq<byte>, t: seq<byte>)
    requires s == t == []
    ensures !OddBits(s) && !OddBits(t) && Flipped(s, t) == 0
  {
  }

  lemma OddOfByte(a: byte, b: byte)
    ensures FlippedIn(a, b) % 2 == 1 <==> (OddByte(a) <==> !OddByte(b))
  {
    hide Odd, Ones, Sum;
    WidenXor(a, b);
    OddSum(a as bv32, b as bv32, 32);
    OddIsCount((a ^ b) as bv32, 32);
  }

  lemma {:induction false} OddFlips(s: seq<byte>, t: seq<byte>)
    requires |s| == |t|
    ensures (OddBits(s) <==> !OddBits(t)) <==> Flipped(s, t) % 2 == 1
  {
    hide *;
    if s == [] {
      NothingFlipped(s, t);
    } else {
      var n := |s| - 1;
      OddBitsStep(s);
      OddBitsStep(t);
      FlippedStep(s, t);
      OddOfByte(s[n], t[n]);
      OddFlips(s[..n], t[..n]);
    }
  }

  lemma OddByteStep(crc: bv32, b: byte)
    ensures Odd(Step(Hardware, crc, b), 32) <==> (Odd(crc, 32) <==> !OddByte(b))
  {
    hide Odd, BitSteps, Sum, Step;
    CrcByteIsStep(crc, b);
    OddOfSteps(Sum(crc, b as bv32), 8);
    OddSum(crc, b as bv32, 32);
  }

  /** The parity of the register is that of all bits that went into it. */
  lemma {:induction false} OddRegister(crc: bv32, buf: seq<byte>)
    ensures Odd(Register(Hardware, crc, buf), 32) <==> (Odd(crc, 32) <==> !OddBits(buf))
  {
    hide Odd, Step, OddByte;
    if buf != [] {
      OddRegister(crc, buf[..|buf| - 1]);
      OddByteStep(Register(Hardware, crc, buf[..|buf| - 1]), buf[|buf| - 1]);
    }
  }

  /** The polynomial CRC detects every change of an odd number of bits, wherever they are. */
  lemma DetectsOddChange(good: seq<byte>, bad: seq<byte>)
    requires Verify(Hardware, good) && |bad| == |good| && Flipped(good, bad) % 2 == 1
    ensures !Verify(Hardware, bad)
  {
    hide Register, Verify, Odd, OddBits, Flipped;
    assert |good| >= 4 by { VerifyIsLong(good); }
    VerifyIsResidue(Hardware, good);
    VerifyIsResidue(Hardware, bad);
    OddRegister(ONES, good);
    OddRegister(ONES, bad);
    OddFlips(good, bad);
  }

  lemma VerifyIsLong(buf: seq<byte>)
    requires Verify(Hardware, buf)
    ensures |buf| >= 4
  {
  }
}
