/**
  The loops of crc32c.c: the table-driven byte loop and the 8/4/1-byte word loops over the CRC
  instructions, each proved against the byte-wise register; and the word instructions against the
  bit-serial CRC.
*/
module CrcPaths {
  import opened CrcTable
  import opened CrcSteps
  import opened Crc32c
  import opened Machine
  import opened Words

  // ---------- The CRC instructions ----------

  /** The 8-bit instruction: xor the byte in, then eight bit steps. */
  function CrcByte(crc: bv32, b: byte): bv32 {
    BitSteps(Sum(crc, b as bv32), 8)
  }

  /** The 32-bit instruction: xor the word in, then 32 bit steps. */
  function CrcWord(crc: bv32, v: bv32): bv32 {
    BitSteps(Sum(crc, v), 32)
  }

  function BitStepWide(x: bv64): bv64 {
    if x & 1 == 0 then x >> 1 else (x >> 1) ^ (POLY as bv64)
  }

  function BitStepsWide(x: bv64, n: nat): bv64
    decreases n
  {
    if n == 0 then x else BitStepWide(BitStepsWide(x, n - 1))
  }

  function SumWide(x: bv64, y: bv64): bv64 {
    x ^ y
  }

  /** The 64-bit instruction: xor the word in, then 64 bit steps; the upper half ends up clear. */
  function CrcDouble(crc: bv32, v: bv64): bv32 {
    (BitStepsWide(SumWide(crc as bv64, v), 64) & 0xFFFF_FFFF) as bv32
  }

  // ---------- Eight bit steps are one byte step ----------

  function Half(y: bv32): bv32 {
    y >> 1
  }

  function Clear(y: bv32, m: bv32): bool {
    y & m == 0
  }

  /** Without a low bit a step only shifts. */
  lemma EvenStep(y: bv32, m: bv32, n: bv32)
    requires Clear(y, m) && m & 1 == 1 && n == m >> 1
    ensures BitStep(y) == Half(y) && Clear(Half(y), n)
  {
    assert y & 1 == 0;
  }

  lemma EightHalves(y: bv32)
    ensures Half(Half(Half(Half(Half(Half(Half(Half(y)))))))) == y >> 8
  {
  }

  lemma ShiftOut(y: bv32)
    requires Clear(y, 0xff)
    ensures BitSteps(y, 8) == y >> 8
  {
    hide BitStep, BitSteps, Half, Clear;
    Eight(y);
    EvenStep(y, 0xff, 0x7f);
    var y1 := Half(y);
    EvenStep(y1, 0x7f, 0x3f);
    var y2 := Half(y1);
    EvenStep(y2, 0x3f, 0x1f);
    var y3 := Half(y2);
    EvenStep(y3, 0x1f, 0x0f);
    var y4 := Half(y3);
    EvenStep(y4, 0x0f, 0x07);
    var y5 := Half(y4);
    EvenStep(y5, 0x07, 0x03);
    var y6 := Half(y5);
    EvenStep(y6, 0x03, 0x01);
    var y7 := Half(y6);
    EvenStep(y7, 0x01, 0x00);
    EightHalves(y);
  }

  function Upper(x: bv32): bv32 {
    x & 0xffff_ff00
  }

  lemma LowIsMask(x: bv32)
    ensures Low8(x) as bv32 == x & 0xff
  {
  }

  lemma LowAndUpper(x: bv32)
    ensures Sum(x & 0xff, Upper(x)) == x
  {
  }

  lemma UpperDown(x: bv32)
    ensures Upper(x) >> 8 == Down8(x)
  {
  }

  lemma UpperClear(x: bv32)
    ensures Clear(Upper(x), 0xff)
  {
  }

  lemma SplitLow(x: bv32)
    ensures x == Sum(Low8(x) as bv32, Upper(x))
    ensures Upper(x) >> 8 == Down8(x)
    ensures Clear(Upper(x), 0xff)
  {
    hide Sum, Low8, Upper, Down8, Clear;
    LowIsMask(x);
    LowAndUpper(x);
    UpperDown(x);
    UpperClear(x);
  }

  lemma IndexZero(x: bv32)
    ensures Index(x, 0) == Low8(x)
  {
  }

  /** On the hardware path a step that feeds a zero byte is eight bit steps. */
  lemma StepIsBits(x: bv32)
    ensures Step(Hardware, x, 0) == BitSteps(x, 8)
  {
    hide BitSteps, Sum, Low8, Down8, Index, Upper, Clear;
    IndexZero(x);
    SplitLow(x);
    ShiftOut(Upper(x));
    BitStepsLinear(Low8(x) as bv32, Upper(x), 8);
  }

  lemma WideByte(b: byte)
    ensures Low8(b as bv32) == b && Down8(b as bv32) == 0
  {
  }

  lemma CrcByteIsStep(crc: bv32, b: byte)
    ensures CrcByte(crc, b) == Step(Hardware, crc, b)
  {
    hide BitSteps, Sum, Low8, Down8, Lookup;
    StepIsBits(Sum(crc, b as bv32));
    WideByte(b);
    AbsorbByte(Hardware, crc, b as bv32);
    SumZero(Step(Hardware, crc, b));
  }

  /** The 32-bit instruction does what four byte steps do. */
  lemma CrcWordIsRegister(crc: bv32, w: seq<byte>)
    requires |w| == 4
    ensures CrcWord(crc, Word(w)) == Register(Hardware, crc, w)
  {
    hide BitSteps, Sum, Word, Step;
    var x := Sum(crc, Word(w));
    AbsorbWord(Hardware, crc, w);
    Register4Is(Hardware, x, ZEROS);
    StepIsBits(x);
    StepIsBits(BitSteps(x, 8));
    StepIsBits(BitSteps(x, 16));
    StepIsBits(BitSteps(x, 24));
    BitStepsAdd(x, 8, 8);
    BitStepsAdd(x, 16, 8);
    BitStepsAdd(x, 24, 8);
  }

  // ---------- The 64-bit instruction ----------

  function Widen(x: bv32): bv64 {
    x as bv64
  }

  function Low8Wide(x: bv64): byte {
    (x & 0xff) as bv8
  }

  function Down8Wide(x: bv64): bv64 {
    x >> 8
  }

  lemma WidenSum(x: bv32, y: bv32)
    ensures Widen(Sum(x, y)) == SumWide(Widen(x), Widen(y))
  {
  }

  lemma BitStepIs(x: bv32)
    ensures BitStep(x) == if Clear(x, 1) then Half(x) else Sum(Half(x), POLY)
  {
  }

  lemma BitStepWideIs(x: bv64)
    ensures BitStepWide(x) == if ClearWide(x, 1) then HalfWide(x) else SumWide(HalfWide(x), Widen(POLY))
  {
  }

  lemma WidenParts(x: bv32)
    ensures Widen(Half(x)) == HalfWide(Widen(x))
    ensures Clear(x, 1) == ClearWide(Widen(x), 1)
  {
  }

  lemma StepOfWidened(x: bv32)
    ensures BitStepWide(Widen(x)) == Widen(BitStep(x))
  {
    hide BitStep, BitStepWide, Widen, Half, HalfWide, Clear, ClearWide, Sum, SumWide;
    BitStepIs(x);
    BitStepWideIs(Widen(x));
    WidenParts(x);
    WidenSum(Half(x), POLY);
  }

  lemma {:induction false} StepsOfWidened(x: bv32, n: nat)
    ensures BitStepsWide(Widen(x), n) == Widen(BitSteps(x, n))
    decreases n
  {
    hide BitStep, BitStepWide, Widen;
    if n > 0 {
      StepsOfWidened(x, n - 1);
      StepOfWidened(BitSteps(x, n - 1));
    }
  }

  lemma HalfOfSumWide(x: bv64, y: bv64)
    ensures HalfWide(SumWide(x, y)) == SumWide(HalfWide(x), HalfWide(y))
  {
  }

  lemma ClearOfSumWide(x: bv64, y: bv64)
    ensures ClearWide(SumWide(x, y), 1) <==> (ClearWide(x, 1) <==> ClearWide(y, 1))
  {
  }

  lemma SumSameWide(x: bv64)
    ensures SumWide(x, x) == 0
  {
  }

  lemma SumZeroWide(x: bv64)
    ensures SumWide(x, 0) == x
  {
  }

  lemma SumCommutesWide(x: bv64, y: bv64)
    ensures SumWide(x, y) == SumWide(y, x)
  {
  }

  lemma SumSwapWide(a: bv64, b: bv64, p: bv64)
    ensures SumWide(SumWide(a, p), b) == SumWide(SumWide(a, b), p)
  {
    hide SumWide;
    SumAssociatesWide(a, p, b);
    SumCommutesWide(p, b);
    SumAssociatesWide(a, b, p);
  }

  lemma SumPairsWide(a: bv64, b: bv64, p: bv64)
    ensures SumWide(SumWide(a, p), SumWide(b, p)) == SumWide(a, b)
  {
    hide SumWide;
    SumAssociatesWide(SumWide(a, p), b, p);
    SumSwapWide(a, b, p);
    SumAssociatesWide(SumWide(a, b), p, p);
    SumSameWide(p);
    SumZeroWide(SumWide(a, b));
  }

  lemma BitStepLinearWide(x: bv64, y: bv64)
    ensures BitStepWide(SumWide(x, y)) == SumWide(BitStepWide(x), BitStepWide(y))
  {
    hide BitStepWide, SumWide, HalfWide, ClearWide, Widen;
    BitStepWideIs(x);
    BitStepWideIs(y);
    BitStepWideIs(SumWide(x, y));
    HalfOfSumWide(x, y);
    ClearOfSumWide(x, y);
    SumPairsWide(HalfWide(x), HalfWide(y), Widen(POLY));
    SumSwapWide(HalfWide(x), HalfWide(y), Widen(POLY));
    SumAssociatesWide(HalfWide(x), HalfWide(y), Widen(POLY));
  }

  lemma {:induction false} BitStepsLinearWide(x: bv64, y: bv64, n: nat)
    ensures BitStepsWide(SumWide(x, y), n) == SumWide(BitStepsWide(x, n), BitStepsWide(y, n))
    decreases n
  {
    hide SumWide, BitStepWide;
    if n > 0 {
      BitStepsLinearWide(x, y, n - 1);
      BitStepLinearWide(BitStepsWide(x, n - 1), BitStepsWide(y, n - 1));
    }
  }

  lemma {:induction false} BitStepsAddWide(x: bv64, m: nat, n: nat)
    ensures BitStepsWide(x, m + n) == BitStepsWide(BitStepsWide(x, m), n)
    decreases n
  {
    hide BitStepWide;
    if n > 0 {
      BitStepsAddWide(x, m, n - 1);
    }
  }

  function HalfWide(y: bv64): bv64 {
    y >> 1
  }

  function ClearWide(y: bv64, m: bv64): bool {
    y & m == 0
  }

  lemma EvenStepWide(y: bv64, m: bv64, n: bv64)
    requires ClearWide(y, m) && m & 1 == 1 && n == m >> 1
    ensures BitStepWide(y) == HalfWide(y) && ClearWide(HalfWide(y), n)
  {
    assert y & 1 == 0;
  }

  lemma EightHalvesWide(y: bv64)
    ensures HalfWide(HalfWide(HalfWide(HalfWide(HalfWide(HalfWide(HalfWide(HalfWide(y)))))))) == y >> 8
  {
  }

  lemma EightWide(x: bv64)
    ensures BitStepsWide(x, 8) ==
            BitStepWide(BitStepWide(BitStepWide(BitStepWide(
              BitStepWide(BitStepWide(BitStepWide(BitStepWide(x))))))))
  {
    hide BitStepWide;
    assert BitStepsWide(x, 2) == BitStepWide(BitStepWide(x));
    assert BitStepsWide(x, 4) == BitStepWide(BitStepWide(BitStepsWide(x, 2)));
    assert BitStepsWide(x, 6) == BitStepWide(BitStepWide(BitStepsWide(x, 4)));
  }

  lemma ShiftOutWide(y: bv64)
    requires ClearWide(y, 0xff)
    ensures BitStepsWide(y, 8) == y >> 8
  {
    hide BitStepWide, BitStepsWide, HalfWide, ClearWide;
    EightWide(y);
    EvenStepWide(y, 0xff, 0x7f);
    var y1 := HalfWide(y);
    EvenStepWide(y1, 0x7f, 0x3f);
    var y2 := HalfWide(y1);
    EvenStepWide(y2, 0x3f, 0x1f);
    var y3 := HalfWide(y2);
    EvenStepWide(y3, 0x1f, 0x0f);
    var y4 := HalfWide(y3);
    EvenStepWide(y4, 0x0f, 0x07);
    var y5 := HalfWide(y4);
    EvenStepWide(y5, 0x07, 0x03);
    var y6 := HalfWide(y5);
    EvenStepWide(y6, 0x03, 0x01);
    var y7 := HalfWide(y6);
    EvenStepWide(y7, 0x01, 0x00);
    EightHalvesWide(y);
  }

  function UpperWide(x: bv64): bv64 {
    x & 0xffff_ffff_ffff_ff00
  }

  lemma LowIsMaskWide(y: bv64)
    ensures Widen(Low8Wide(y) as bv32) == y & 0xff
  {
  }

  lemma LowAndUpperWide(y: bv64)
    ensures SumWide(y & 0xff, UpperWide(y)) == y
  {
  }

  lemma UpperDownWide(y: bv64)
    ensures UpperWide(y) >> 8 == Down8Wide(y)
  {
  }

  lemma UpperClearWide(y: bv64)
    ensures ClearWide(UpperWide(y), 0xff)
  {
  }

  lemma SplitLowWide(y: bv64)
    ensures y == SumWide(Widen(Low8Wide(y) as bv32), UpperWide(y))
    ensures ClearWide(UpperWide(y), 0xff)
    ensures UpperWide(y) >> 8 == Down8Wide(y)
  {
    hide SumWide, Widen, Low8Wide, UpperWide, ClearWide, Down8Wide;
    LowIsMaskWide(y);
    LowAndUpperWide(y);
    UpperDownWide(y);
    UpperClearWide(y);
  }

  lemma LowSumWide(r: bv32, v: bv64)
    ensures Low8Wide(SumWide(Widen(r), v)) == Index(r, Low8Wide(v))
  {
  }

  lemma DownSumWide(r: bv32, v: bv64)
    ensures Down8Wide(SumWide(Widen(r), v)) == SumWide(Widen(Down8(r)), Down8Wide(v))
  {
  }

  lemma SumAssociatesWide(x: bv64, y: bv64, z: bv64)
    ensures SumWide(SumWide(x, y), z) == SumWide(x, SumWide(y, z))
  {
    assert SumWide(x ^ y, z) == SumWide(x, y ^ z);
    assert SumWide(x, y) == x ^ y && SumWide(y, z) == y ^ z;
    hide *;
  }

  /** Eight wide steps on a register summed with a double word feed the low byte of the double word. */
  lemma AbsorbByteWide(r: bv32, v: bv64)
    ensures BitStepsWide(SumWide(Widen(r), v), 8)
         == SumWide(Widen(Step(Hardware, r, Low8Wide(v))), Down8Wide(v))
  {
    hide BitSteps, BitStepsWide, SumWide, Sum, Widen, Index, Low8Wide, Down8, Down8Wide, UpperWide, ClearWide;
    var y := SumWide(Widen(r), v);
    var i := Index(r, Low8Wide(v));
    SplitLowWide(y);
    LowSumWide(r, v);
    DownSumWide(r, v);
    BitStepsLinearWide(Widen(i as bv32), UpperWide(y), 8);
    ShiftOutWide(UpperWide(y));
    StepsOfWidened(i as bv32, 8);
    var l := BitSteps(i as bv32, 8);
    WidenSum(l, Down8(r));
    SumAssociatesWide(Widen(l), Widen(Down8(r)), Down8Wide(v));
  }

  function DownWide(v: bv64, k: nat): bv64 {
    if k == 0 then v else Down8Wide(DownWide(v, k - 1))
  }

  /** The eight bytes of a double word, least significant first. */
  function DoubleBytes(v: bv64): (w: seq<byte>)
    ensures |w| == 8
  {
    seq(8, k requires 0 <= k < 8 => Low8Wide(DownWide(v, k)))
  }

  /** After k bytes, 8 k wide steps leave the register summed with the bytes still to come. */
  lemma {:induction false} AbsorbBytesWide(crc: bv32, v: bv64, k: nat)
    requires k <= 8
    ensures BitStepsWide(SumWide(Widen(crc), v), 8 * k)
         == SumWide(Widen(Register(Hardware, crc, DoubleBytes(v)[..k])), DownWide(v, k))
  {
    hide *;
    var x, w := SumWide(Widen(crc), v), DoubleBytes(v);
    DownSteps(v, k);
    if k == 0 {
      NoSteps(x);
      EmptyRegister(Hardware, crc, w[..0]);
    } else {
      AbsorbBytesWide(crc, v, k - 1);
      BitStepsAddWide(x, 8 * (k - 1), 8);
      assert w[..k][..k - 1] == w[..k - 1];
      RegisterStep(Hardware, crc, w[..k]);
      AbsorbByteWide(Register(Hardware, crc, w[..k - 1]), DownWide(v, k - 1));
    }
  }

  lemma DownSteps(v: bv64, k: nat)
    ensures k == 0 ==> DownWide(v, k) == v
    ensures k > 0 ==> DownWide(v, k) == Down8Wide(DownWide(v, k - 1))
    ensures 0 < k <= 8 ==> DoubleBytes(v)[k - 1] == Low8Wide(DownWide(v, k - 1))
  {
    hide Down8Wide, Low8Wide;
  }

  lemma NoSteps(x: bv64)
    ensures BitStepsWide(x, 0) == x
  {
  }

  lemma NothingLeft(v: bv64)
    ensures DownWide(v, 8) == 0
  {
    assert DownWide(v, 1) == v >> 8;
    assert DownWide(v, 2) == v >> 16;
    assert DownWide(v, 3) == v >> 24;
    assert DownWide(v, 4) == v >> 32;
    assert DownWide(v, 5) == v >> 40;
    assert DownWide(v, 6) == v >> 48;
    assert DownWide(v, 7) == v >> 56;
  }

  lemma Narrow(x: bv32)
    ensures (SumWide(Widen(x), 0) & 0xFFFF_FFFF) as bv32 == x
  {
  }

  /** The 64-bit instruction does what eight byte steps do. */
  lemma CrcDoubleIsRegister(crc: bv32, v: bv64)
    ensures CrcDouble(crc, v) == Register(Hardware, crc, DoubleBytes(v))
  {
    hide BitStepsWide, SumWide, Register, DoubleBytes, DownWide;
    AbsorbBytesWide(crc, v, 8);
    assert DoubleBytes(v)[..8] == DoubleBytes(v);
    NothingLeft(v);
    Narrow(Register(Hardware, crc, DoubleBytes(v)));
  }

  // ---------- The loops ----------

  /** sw_crc32c: one table lookup per byte. */
  method SwCrc32c(crc: bv32, buf: array<byte>, from: nat, len: nat) returns (r: bv32)
    requires from + len <= buf.Length
    ensures r == Register(Software, crc, buf[from..from + len])
  {
    hide Shown, Sum, Down8, Index;
    r := crc;
    var i := 0;
    while i < len
      invariant i <= len
      invariant r == Register(Software, crc, buf[from..from + i])
    {
      assert buf[from..from + i + 1][..i] == buf[from..from + i];
      r := Sum(Shown(Index(r, buf[from + i])), Down8(r));
      i := i + 1;
    }
  }

  /** Little-endian loads, as memcpy into an integer does on the machines with these instructions. */
  method Load4(buf: array<byte>, p: nat) returns (v: bv32)
    requires p + 4 <= buf.Length
    ensures v == Word(buf[p..p + 4])
  {
    v := Word(buf[p..p + 4]);
  }

  /**
    hw_crc32c_x86 and hw_crc32c_arm: eight bytes at a time where the build is 64-bit (wide), then
    four, then one, with the instruction of that width.
  */
  method HwCrc32c(wide: bool, crc: bv32, buf: array<byte>, from: nat, len: nat) returns (r: bv32)
    requires from + len <= buf.Length
    ensures r == Register(Hardware, crc, buf[from..from + len])
  {
    hide *;
    ghost var s := buf[..];
    r := crc;
    var p: nat, left: nat := from, len;
    EmptyRegister(Hardware, crc, s[from..p]);
    if wide {
      while left >= 8
        invariant from <= p && p + left == from + len
        invariant r == Register(Hardware, crc, s[from..p])
      {
        var v := Load8(buf, p);
        CrcDoubleIsRegister(r, v);
        assert buf[p..p + 8] == s[p..p + 8];
        RegisterGrows(crc, s, from, p, p + 8);
        r := CrcDouble(r, v);
        p, left := p + 8, left - 8;
      }
    }
    while left >= 4
      invariant from <= p && p + left == from + len
      invariant r == Register(Hardware, crc, s[from..p])
    {
      var v := Load4(buf, p);
      assert buf[p..p + 4] == s[p..p + 4];
      CrcWordIsRegister(r, s[p..p + 4]);
      RegisterGrows(crc, s, from, p, p + 4);
      r := CrcWord(r, v);
      p, left := p + 4, left - 4;
    }
    while left > 0
      invariant from <= p && p + left == from + len
      invariant r == Register(Hardware, crc, s[from..p])
    {
      CrcByteIsRegister(r, buf[p]);
      assert s[p..p + 1] == [buf[p]];
      RegisterGrows(crc, s, from, p, p + 1);
      r := CrcByte(r, buf[p]);
      p, left := p + 1, left - 1;
    }
    assert buf[from..from + len] == s[from..p];
  }

  /** The register over one more piece of the buffer. */
  lemma RegisterGrows(crc: bv32, s: seq<byte>, from: nat, p: nat, q: nat)
    requires from <= p <= q <= |s|
    ensures Register(Hardware, crc, s[from..q]) == Register(Hardware, Register(Hardware, crc, s[from..p]), s[p..q])
  {
    hide Register;
    assert s[from..q] == s[from..p] + s[p..q];
    RegisterConcat(Hardware, crc, s[from..p], s[p..q]);
  }

  lemma CrcByteIsRegister(crc: bv32, b: byte)
    ensures CrcByte(crc, b) == Register(Hardware, crc, [b])
  {
    hide Step, CrcByte;
    CrcByteIsStep(crc, b);
    assert [b][..0] == [];
    EmptyRegister(Hardware, crc, [b][..0]);
  }

  lemma EmptyRegister(p: Path, crc: bv32, buf: seq<byte>)
    requires buf == []
    ensures Register(p, crc, buf) == crc
  {
  }

  lemma RegisterStep(p: Path, crc: bv32, buf: seq<byte>)
    requires buf != []
    ensures Register(p, crc, buf) == Step(p, Register(p, crc, buf[..|buf| - 1]), buf[|buf| - 1])
  {
  }

  method Load8(buf: array<byte>, p: nat) returns (v: bv64)
    requires p + 8 <= buf.Length
    ensures DoubleBytes(v) == buf[p..p + 8]
  {
    hide Word, Low8Wide, DownWide;
    var low := Load4(buf, p);
    var high := Load4(buf, p + 4);
    v := Join(low, high);
    assert buf[p..p + 8][0..4] == buf[p..p + 4] && buf[p..p + 8][4..8] == buf[p + 4..p + 4 + 4];
    DoubleOf(buf[p..p + 8], low, high, v);
  }

  /** The double word with the given halves. */
  function Join(low: bv32, high: bv32): bv64 {
    (low as bv64) | ((high as bv64) << 32)
  }

  lemma JoinByte0(l: bv32, h: bv32)
    ensures Low8Wide(DownWide(Join(l, h), 0)) == Low8(Down(l, 0))
  {
    DownIsShift(Join(l, h));
    DownIsShift32(l);
    hide DownWide, Down;
  }

  lemma JoinByte1(l: bv32, h: bv32)
    ensures Low8Wide(DownWide(Join(l, h), 1)) == Low8(Down(l, 1))
  {
    DownIsShift(Join(l, h));
    DownIsShift32(l);
    hide DownWide, Down;
  }

  lemma JoinByte2(l: bv32, h: bv32)
    ensures Low8Wide(DownWide(Join(l, h), 2)) == Low8(Down(l, 2))
  {
    DownIsShift(Join(l, h));
    DownIsShift32(l);
    hide DownWide, Down;
  }

  lemma JoinByte3(l: bv32, h: bv32)
    ensures Low8Wide(DownWide(Join(l, h), 3)) == Low8(Down(l, 3))
  {
    DownIsShift(Join(l, h));
    DownIsShift32(l);
    hide DownWide, Down;
  }

  lemma JoinByte4(l: bv32, h: bv32)
    ensures Low8Wide(DownWide(Join(l, h), 4)) == Low8(Down(h, 0))
  {
    DownIsShift(Join(l, h));
    DownIsShift32(h);
    hide DownWide, Down;
  }

  lemma JoinByte5(l: bv32, h: bv32)
    ensures Low8Wide(DownWide(Join(l, h), 5)) == Low8(Down(h, 1))
  {
    DownIsShift(Join(l, h));
    DownIsShift32(h);
    hide DownWide, Down;
  }

  lemma JoinByte6(l: bv32, h: bv32)
    ensures Low8Wide(DownWide(Join(l, h), 6)) == Low8(Down(h, 2))
  {
    DownIsShift(Join(l, h));
    DownIsShift32(h);
    hide DownWide, Down;
  }

  lemma JoinByte7(l: bv32, h: bv32)
    ensures Low8Wide(DownWide(Join(l, h), 7)) == Low8(Down(h, 3))
  {
    DownIsShift(Join(l, h));
    DownIsShift32(h);
    hide DownWide, Down;
  }

  lemma DownIsShift(v: bv64)
    ensures DownWide(v, 0) == v && DownWide(v, 1) == v >> 8 && DownWide(v, 2) == v >> 16
    ensures DownWide(v, 3) == v >> 24 && DownWide(v, 4) == v >> 32 && DownWide(v, 5) == v >> 40
    ensures DownWide(v, 6) == v >> 48 && DownWide(v, 7) == v >> 56
  {
    assert DownWide(v, 1) == v >> 8;
    assert DownWide(v, 2) == v >> 16;
    assert DownWide(v, 3) == v >> 24;
    assert DownWide(v, 4) == v >> 32;
    assert DownWide(v, 5) == v >> 40;
    assert DownWide(v, 6) == v >> 48;
  }

  lemma DownIsShift32(v: bv32)
    ensures Down(v, 0) == v && Down(v, 1) == v >> 8 && Down(v, 2) == v >> 16 && Down(v, 3) == v >> 24
  {
    assert Down(v, 1) == v >> 8;
    assert Down(v, 2) == v >> 16;
  }

  lemma DoubleOf(w: seq<byte>, low: bv32, high: bv32, v: bv64)
    requires |w| == 8 && low == Word(w[0..4]) && high == Word(w[4..8])
    requires v == Join(low, high)
    ensures DoubleBytes(v) == w
  {
    hide *;
    JoinByte0(low, high);
    JoinByte1(low, high);
    JoinByte2(low, high);
    JoinByte3(low, high);
    JoinByte4(low, high);
    JoinByte5(low, high);
    JoinByte6(low, high);
    JoinByte7(low, high);
    assert Down(low, 0) == low && Down(high, 0) == high by { DownIsShift32(low); DownIsShift32(high); }
    WordBytes(w[0..4]);
    WordBytes(w[4..8]);
    DoubleBytesAre(v, w);
  }

  lemma DoubleBytesAre(v: bv64, w: seq<byte>)
    requires |w| == 8
    requires Low8Wide(DownWide(v, 0)) == w[0] && Low8Wide(DownWide(v, 1)) == w[1]
    requires Low8Wide(DownWide(v, 2)) == w[2] && Low8Wide(DownWide(v, 3)) == w[3]
    requires Low8Wide(DownWide(v, 4)) == w[4] && Low8Wide(DownWide(v, 5)) == w[5]
    requires Low8Wide(DownWide(v, 6)) == w[6] && Low8Wide(DownWide(v, 7)) == w[7]
    ensures DoubleBytes(v) == w
  {
    hide Low8Wide, DownWide;
  }

  /** What the preprocessor selects: no CRC instructions, or those of a 32- or 64-bit build. */
  datatype Build = Plain | Narrow32 | Wide64

  function PathOf(build: Build): Path {
    if build == Plain then Software else Hardware
  }

  method KflCrc32c(build: Build, crc: bv32, buf: array<byte>, from: nat, len: nat) returns (r: bv32)
    requires from + len <= buf.Length
    ensures r == Crc(PathOf(build), crc, buf[from..from + len])
  {
    hide Register, Sum;
    var result;
    if build == Plain {
      result := SwCrc32c(Sum(crc, ONES), buf, from, len);
    } else {
      result := HwCrc32c(build == Wide64, Sum(crc, ONES), buf, from, len);
    }
    r := Sum(result, ONES);
  }

  /** A null pointer or a buffer too short to hold a CRC is reported as corrupted. */
  method KflCrc32cVerify(build: Build, buf: array?<byte>, len: nat) returns (r: int)
    requires buf != null ==> len <= buf.Length
    ensures r == if buf != null && Verify(PathOf(build), buf[..len]) then 1 else 0
  {
    hide Crc, Word;
    if buf == null || len < 4 {
      return 0;
    }
    var stored := Load4(buf, len - 4);
    var computed := KflCrc32c(build, 0, buf, 0, len - 4);
    assert buf[..len][..len - 4] == buf[0..len - 4] && buf[..len][len - 4..] == buf[len - 4..len];
    r := if computed == stored then 1 else 0;
  }

  // ---------- Linearity ----------

  /** The hardware step is linear in register and byte together. */
  lemma StepLinear(c: bv32, d: bv32, b: byte)
    ensures Step(Hardware, Sum(c, d), b) == Sum(Step(Hardware, c, b), Step(Hardware, d, 0))
  {
    hide BitSteps, Sum, Step;
    CrcByteIsStep(Sum(c, d), b);
    CrcByteIsStep(c, b);
    StepIsBits(d);
    SumSwap(c, d, b as bv32);
    BitStepsLinear(Sum(c, b as bv32), d, 8);
  }

  lemma SumCommutes(x: bv32, y: bv32)
    ensures Sum(x, y) == Sum(y, x)
  {
  }

  lemma SumSwap(x: bv32, y: bv32, z: bv32)
    ensures Sum(Sum(x, y), z) == Sum(Sum(x, z), y)
  {
    hide Sum;
    SumAssociates(x, y, z);
    SumCommutes(y, z);
    SumAssociates(x, z, y);
  }

  lemma SumSelf(x: bv32, y: bv32)
    ensures Sum(x, y) == x <==> y == 0
  {
    hide Sum;
    SumTwice(x, y);
    SumSame(x);
    SumZero(x);
  }

  lemma SumEqual(x: bv32, y: bv32)
    ensures Sum(x, y) == 0 <==> x == y
  {
    hide Sum;
    SumTwice(x, y);
    SumSame(x);
    SumZero(x);
  }

  lemma WidenXor(a: byte, b: byte)
    ensures (a ^ b) as bv32 == Sum(a as bv32, b as bv32)
  {
  }
}
