/**
  Bits of a byte, and of a sequence of bytes read as one long bit string:
  bit k of a bitmap is bit k % 8 of byte k / 8, least significant bit first.
*/
module Bits {
  import opened Machine

  /** The C expression (uint8_t)(0x01 << j): zero once the bit leaves the byte. */
  function Mask(j: nat): byte {
    if j == 0 then 0x01 else Mask(j - 1) << 1
  }

  lemma Masks()
    ensures Mask(0) == 0x01 && Mask(1) == 0x02 && Mask(2) == 0x04 && Mask(3) == 0x08
    ensures Mask(4) == 0x10 && Mask(5) == 0x20 && Mask(6) == 0x40 && Mask(7) == 0x80
  {
    assert Mask(1) == 0x02;
    assert Mask(2) == 0x04;
    assert Mask(3) == 0x08;
    assert Mask(4) == 0x10;
    assert Mask(5) == 0x20;
    assert Mask(6) == 0x40;
  }

  lemma {:induction false} MaskOut(j: nat)
    requires j >= 8
    ensures Mask(j) == 0
  {
    if j == 8 {
      Masks();
    } else {
      MaskOut(j - 1);
    }
  }

  predicate Bit(b: byte, j: nat) {
    b & Mask(j) != 0
  }

  lemma MaskBit(i: nat, j: nat)
    requires j < 8
    ensures Bit(Mask(i), j) <==> i == j
  {
    Masks();
    if i >= 8 {
      MaskOut(i);
    }
  }

  lemma OrBit(a: byte, b: byte, j: nat)
    ensures Bit(a | b, j) <==> Bit(a, j) || Bit(b, j)
  {
  }

  lemma AndNotBit(a: byte, b: byte, j: nat)
    requires j < 8
    ensures Bit(a & !b, j) <==> Bit(a, j) && !Bit(b, j)
  {
    Masks();
  }

  lemma ByteExt(a: byte, b: byte)
    requires forall j: nat :: j < 8 ==> Bit(a, j) == Bit(b, j)
    ensures a == b
  {
    Masks();
    assert Bit(a, 0) == Bit(b, 0);
    assert Bit(a, 1) == Bit(b, 1);
    assert Bit(a, 2) == Bit(b, 2);
    assert Bit(a, 3) == Bit(b, 3);
    assert Bit(a, 4) == Bit(b, 4);
    assert Bit(a, 5) == Bit(b, 5);
    assert Bit(a, 6) == Bit(b, 6);
    assert Bit(a, 7) == Bit(b, 7);
  }
}
