/**
  The test vectors of CRC-32C that the repository checks, on either path.
*/
module CrcValues {
  import opened Crc32c
  import opened CrcTable
  import opened Machine
  import opened Words

  /** One byte: the entry that is looked up is no misprint, and leads from c to d. */
  lemma Feed(p: Path, c: bv32, b: byte, i: byte, entry: bv32, d: bv32)
    requires Index(c, b) == i && !Misprint(i) && Shown(i) == entry && Sum(entry, Down8(c)) == d
    ensures Step(p, c, b) == d
  {
    hide Shown, Sum, Down8, Lookup, Index;
    LookupPlain(p, i);
  }

  lemma OneMore(p: Path, crc: bv32, init: seq<byte>, b: byte)
    ensures Register(p, crc, init + [b]) == Step(p, Register(p, crc, init), b)
  {
    hide Step;
    assert (init + [b])[..|init|] == init;
  }

  lemma Nothing(p: Path, crc: bv32)
    ensures Register(p, crc, []) == crc
  {
  }

  lemma Ends()
    ensures Sum(0, ONES) == ONES && Sum(ONES, ONES) == 0
    ensures Sum(0xAD82_ACAE, ONES) == 0x527D_5351 && Sum(0x1CF9_6D7C, ONES) == 0xE306_9283
  {
  }

  /** The CRC of nothing. */
  lemma OfNothing(p: Path)
    ensures Crc(p, 0, []) == 0
  {
    hide Sum;
    Nothing(p, ONES);
    Ends();
  }

  /** The CRC of one zero byte. */
  lemma OfZero(p: Path)
    ensures Crc(p, 0, [0]) == 0x527D_5351
  {
    hide Sum, Step, Register;
    Nothing(p, ONES);
    OneMore(p, ONES, [], 0);
    assert [] + [0 as byte] == [0];
    FirstZero(p);
    Ends();
  }

  lemma FirstZero(p: Path)
    ensures Step(p, ONES, 0) == 0xAD82_ACAE
  {
    hide Step;
    Feed(p, ONES, 0, 0xFF, 0xAD7D_5351, 0xAD82_ACAE);
  }

  lemma Digits0(p: Path)
    ensures Step(p, ONES, 0x31) == 0x6F0A_661C
    ensures Step(p, 0x6F0A_661C, 0x32) == 0x8CAA_3B9F
    ensures Step(p, 0x8CAA_3B9F, 0x33) == 0xEF84_D04D
  {
    hide Step;
    Feed(p, ONES, 0x31, 0xCE, 0x6FF5_99E3, 0x6F0A_661C);
    Feed(p, 0x6F0A_661C, 0x32, 0x2E, 0x8CC5_31F9, 0x8CAA_3B9F);
    Feed(p, 0x8CAA_3B9F, 0x33, 0xAC, 0xEF08_7A76, 0xEF84_D04D);
  }

  lemma Digits1(p: Path)
    ensures Step(p, 0xEF84_D04D, 0x34) == 0x09C5_0B11
    ensures Step(p, 0x09C5_0B11, 0x35) == 0xE72E_DCCA
  {
    hide Step;
    Feed(p, 0xEF84_D04D, 0x34, 0x79, 0x092A_8FC1, 0x09C5_0B11);
    Feed(p, 0x09C5_0B11, 0x35, 0x24, 0xE727_19C1, 0xE72E_DCCA);
  }

  lemma Digits2(p: Path)
    ensures Step(p, 0xE72E_DCCA, 0x36) == 0xBECA_8E79
    ensures Step(p, 0xBECA_8E79, 0x37) == 0xEDBD_6815
  {
    hide Step;
    Feed(p, 0xE72E_DCCA, 0x36, 0xFC, 0xBE2D_A0A5, 0xBECA_8E79);
    Feed(p, 0xBECA_8E79, 0x37, 0x4E, 0xED03_A29B, 0xEDBD_6815);
  }

  lemma Digits3(p: Path)
    ensures Step(p, 0xEDBD_6815, 0x38) == 0x9F78_7F65
    ensures Step(p, 0x9F78_7F65, 0x39) == 0x1CF9_6D7C
  {
    hide Step;
    Feed(p, 0xEDBD_6815, 0x38, 0x2D, 0x9F95_C20D, 0x9F78_7F65);
    Feed(p, 0x9F78_7F65, 0x39, 0x5C, 0x1C66_1503, 0x1CF9_6D7C);
  }

  const DIGITS: seq<byte> := [0x31, 0x32, 0x33, 0x34, 0x35, 0x36, 0x37, 0x38, 0x39]

  lemma Prefixes()
    ensures |DIGITS| == 9 && DIGITS[..0] == [] && DIGITS[..9] == DIGITS
    ensures forall k :: 0 <= k < 9 ==> DIGITS[..k + 1] == DIGITS[..k] + [DIGITS[k]]
    ensures DIGITS[0] == 0x31 && DIGITS[1] == 0x32 && DIGITS[2] == 0x33 && DIGITS[3] == 0x34 && DIGITS[4] == 0x35
    ensures DIGITS[5] == 0x36 && DIGITS[6] == 0x37 && DIGITS[7] == 0x38 && DIGITS[8] == 0x39
  {
  }

  /** The register over the first k + 1 digits. */
  lemma Fed(p: Path, k: nat, c: bv32, b: byte, d: bv32)
    requires k < |DIGITS| && DIGITS[..k + 1] == DIGITS[..k] + [b]
    requires Register(p, ONES, DIGITS[..k]) == c && Step(p, c, b) == d
    ensures Register(p, ONES, DIGITS[..k + 1]) == d
  {
    hide Step, Register, DIGITS;
    OneMore(p, ONES, DIGITS[..k], b);
  }

  /** The check value of CRC-32C: that of the digits 1 to 9. */
  lemma OfDigits(p: Path)
    ensures Crc(p, 0, DIGITS) == 0xE306_9283
  {
    hide *;
    Prefixes();
    Nothing(p, ONES);
    Digits0(p);
    Digits1(p);
    Digits2(p);
    Digits3(p);
    Fed(p, 0, ONES, 0x31, 0x6F0A_661C);
    Fed(p, 1, 0x6F0A_661C, 0x32, 0x8CAA_3B9F);
    Fed(p, 2, 0x8CAA_3B9F, 0x33, 0xEF84_D04D);
    Fed(p, 3, 0xEF84_D04D, 0x34, 0x09C5_0B11);
    Fed(p, 4, 0x09C5_0B11, 0x35, 0xE72E_DCCA);
    Fed(p, 5, 0xE72E_DCCA, 0x36, 0xBECA_8E79);
    Fed(p, 6, 0xBECA_8E79, 0x37, 0xEDBD_6815);
    Fed(p, 7, 0xEDBD_6815, 0x38, 0x9F78_7F65);
    Fed(p, 8, 0x9F78_7F65, 0x39, 0x1CF9_6D7C);
    CrcIs(p, DIGITS);
    Ends();
  }

  lemma CrcIs(p: Path, buf: seq<byte>)
    ensures Crc(p, 0, buf) == Sum(Register(p, Sum(0, ONES), buf), ONES)
  {
  }
}
