/**
  Changes of two bits: on the polynomial path they go unnoticed exactly when they are a multiple of
  2^31 - 1 bits apart.
*/
module CrcTwoBits {
  import opened Bits
  import opened Crc32c
  import opened CrcOrder
  import opened CrcPaths
  import opened CrcSteps
  import opened CrcTable
  import opened Machine
  import opened Mersenne

  /** The buffer with bit p changed; bits count from the first byte on, each from its lowest bit. */
  function Flip(buf: seq<byte>, p: nat): (r: seq<byte>)
    requires p < 8 * |buf|
    ensures |r| == |buf|
  {
    buf[p / 8 := buf[p / 8] ^ Mask(p % 8)]
  }

  lemma MaskIsPower(j: nat)
    requires j < 8
    ensures Mask(j) as bv32 == BitSteps(ONE, 31 - j)
  {
    hide BitSteps, Mask;
    LowPowers();
    Masks();
  }

  lemma ChangedByte(crc: bv32, b: byte, m: byte)
    ensures Step(Hardware, crc, b ^ m) == Sum(Step(Hardware, crc, b), BitSteps(m as bv32, 8))
  {
    hide BitSteps, Sum, Step;
    CrcByteIsStep(crc, b ^ m);
    CrcByteIsStep(crc, b);
    WidenXor(b, m);
    SumAssociates(crc, b as bv32, m as bv32);
    BitStepsLinear(Sum(crc, b as bv32), m as bv32, 8);
  }

  /** What a changed bit of the last byte does to the register. */
  lemma ByteFlip(crc: bv32, b: byte, j: nat)
    requires j < 8
    ensures Step(Hardware, crc, b ^ Mask(j)) == Sum(Step(Hardware, crc, b), BitSteps(ONE, 31 + 8 - j))
  {
    hide BitSteps, Sum, Step, Mask;
    ChangedByte(crc, b, Mask(j));
    MaskIsPower(j);
    BitStepsAdd(ONE, 31 - j, 8);
  }

  /** And what it does when zero or more bytes follow. */
  lemma LaterByte(r: bv32, n: nat, b: byte)
    ensures Step(Hardware, Sum(r, BitSteps(ONE, n)), b) == Sum(Step(Hardware, r, b), BitSteps(ONE, n + 8))
  {
    hide BitSteps, Sum, Step;
    StepLinear(r, BitSteps(ONE, n), b);
    StepIsBits(BitSteps(ONE, n));
    BitStepsAdd(ONE, n, 8);
  }

  lemma LastFlip(buf: seq<byte>, p: nat)
    requires buf != [] && p < 8 * |buf|
    ensures var n, last, r := |buf| - 1, buf[|buf| - 1], Flip(buf, p);
            if p < 8 * n then r[..n] == Flip(buf[..n], p) && r[n] == last
            else r[..n] == buf[..n] && r[n] == last ^ Mask(p - 8 * n)
  {
    hide Mask;
  }

  /** The register after a change of bit p is off by a power of x. */
  lemma {:induction false} RegisterFlip(crc: bv32, buf: seq<byte>, p: nat)
    requires p < 8 * |buf|
    ensures Register(Hardware, crc, Flip(buf, p))
         == Sum(Register(Hardware, crc, buf), BitSteps(ONE, 31 + 8 * |buf| - p))
  {
    hide BitSteps, Sum, Step, Mask, Flip;
    var n, last := |buf| - 1, buf[|buf| - 1];
    LastFlip(buf, p);
    if p < 8 * n {
      RegisterFlip(crc, buf[..n], p);
      LaterByte(Register(Hardware, crc, buf[..n]), 31 + 8 * n - p, last);
    } else {
      ByteFlip(Register(Hardware, crc, buf[..n]), last, p - 8 * n);
    }
  }

  /** Two changes leave the register as it is exactly if they are a multiple of 2^31 - 1 bits apart. */
  lemma RegisterFlips(crc: bv32, buf: seq<byte>, p: nat, q: nat)
    requires p < q < 8 * |buf|
    ensures Register(Hardware, crc, Flip(Flip(buf, p), q)) == Register(Hardware, crc, buf) <==> (q - p) % M31 == 0
  {
    hide *;
    var r, n := Register(Hardware, crc, buf), 31 + 8 * |buf| - q;
    var x, y := BitSteps(ONE, n + (q - p)), BitSteps(ONE, n);
    RegisterFlip(crc, buf, p);
    RegisterFlip(crc, Flip(buf, p), q);
    SumAssociates(r, x, y);
    PowersMeet(n, q - p);
    SumSelf(r, Sum(x, y));
    SumEqual(x, y);
  }

  /**
    A change of two bits of a valid buffer, of any length and across payload and stored CRC, is detected
    on the polynomial path exactly if they are not a multiple of 2^31 - 1 bits apart.
  */
  lemma DetectsTwoBits(good: seq<byte>, p: nat, q: nat)
    requires Verify(Hardware, good) && p < q < 8 * |good|
    ensures !Verify(Hardware, Flip(Flip(good, p), q)) <==> (q - p) % M31 != 0
  {
    hide Register, Flip, Crc, Words.Word;
    assert |good| >= 4;
    VerifyIsResidue(Hardware, good);
    VerifyIsResidue(Hardware, Flip(Flip(good, p), q));
    RegisterFlips(ONES, good, p, q);
  }
}
