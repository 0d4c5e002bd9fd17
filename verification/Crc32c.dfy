/**
  CRC-32C as crc32c.c computes it: a table-driven loop in software, word loops over the CPU's
  CRC instructions in hardware, and the convention (section 12.1 of RFC 3720) that a buffer ends
  in the little-endian CRC of what precedes it.
*/
module Crc32c {
  import opened CrcTable
  import opened CrcSteps
  import opened Machine
  import opened Words

  /** Which of the compiled-in paths computes the register. */
  datatype Path = Software | Hardware

  /** What the low eight bits i of the register contribute on each path. */
  function Lookup(p: Path, i: byte): bv32 {
    match p
    case Software => Shown(i)
    case Hardware => BitSteps(i as bv32, 8)
  }

  function Index(crc: bv32, b: byte): byte {
    Low8(crc) ^ b
  }

  /** The register after one more byte. */
  function Step(p: Path, crc: bv32, b: byte): bv32 {
    Sum(Lookup(p, Index(crc, b)), Down8(crc))
  }

  /** The register after a whole buffer. */
  function Register(p: Path, crc: bv32, buf: seq<byte>): bv32 {
    if buf == [] then crc else Step(p, Register(p, crc, buf[..|buf| - 1]), buf[|buf| - 1])
  }

  // ---------- The byte step is injective ----------

  function PickByte(t: byte, m: byte, v: byte): byte {
    if t & m != 0 then v else 0
  }

  /** The byte whose entry has top byte t. */
  function OfTop(t: byte): byte {
    PickByte(t, 0x01, 0xF1) ^ PickByte(t, 0x02, 0xE2) ^ PickByte(t, 0x04, 0xC4) ^ PickByte(t, 0x08, 0x88) ^
    PickByte(t, 0x10, 0x10) ^ PickByte(t, 0x20, 0x20) ^ PickByte(t, 0x40, 0xB1) ^ PickByte(t, 0x80, 0x62)
  }

  lemma BasisTop(i: byte)
    ensures OfTop((Basis(i) >> 24) as bv8) == i
  {
  }

  /** No two entries share their top byte, misprints or not. */
  lemma TopByteTells(p: Path, i: byte, j: byte)
    requires Lookup(p, i) >> 24 == Lookup(p, j) >> 24
    ensures i == j
  {
    hide Basis, BitSteps, Shown, OfTop;
    BasisIsSteps(i);
    BasisIsSteps(j);
    if p == Software {
      ShownIsBasis(i);
      ShownIsBasis(j);
      DeltaIsLow(Basis(i), i);
      DeltaIsLow(Basis(j), j);
    }
    BasisTop(i);
    BasisTop(j);
  }

  lemma DeltaIsLow(x: bv32, i: byte)
    ensures Sum(x, Delta(i)) >> 24 == x >> 24
  {
  }

  lemma TopOfSum(x: bv32, y: bv32)
    ensures Sum(x, Down8(y)) >> 24 == x >> 24
  {
  }

  lemma SumCancels(x: bv32, y: bv32, z: bv32)
    requires Sum(x, y) == Sum(x, z)
    ensures y == z
  {
    assert x ^ (x ^ y) == y;
    assert x ^ (x ^ z) == z;
  }

  lemma SplitWord(x: bv32, y: bv32)
    requires Low8(x) == Low8(y) && Down8(x) == Down8(y)
    ensures x == y
  {
  }

  lemma XorByteCancels(x: byte, y: byte, b: byte)
    requires x ^ b == y ^ b
    ensures x == y
  {
    assert (x ^ b) ^ b == x;
    assert (y ^ b) ^ b == y;
  }

  lemma Down8Sum(x: bv32, y: bv32)
    ensures Down8(Sum(x, y)) == Sum(Down8(x), Down8(y))
  {
  }

  lemma {:induction false} DownSum(x: bv32, y: bv32, k: nat)
    ensures Down(Sum(x, y), k) == Sum(Down(x, k), Down(y, k))
  {
    hide Sum, Down8;
    if k > 0 {
      DownSum(x, y, k - 1);
      Down8Sum(Down(x, k - 1), Down(y, k - 1));
    }
  }

  lemma {:induction false} DownMore(x: bv32, k: nat)
    ensures Down(Down8(x), k) == Down(x, k + 1)
  {
    hide Down8;
    if k > 0 {
      DownMore(x, k - 1);
    }
  }

  lemma Down3(x: bv32)
    ensures Down(x, 3) == x >> 24
    ensures Down(x, 4) == 0
  {
    assert Down(x, 1) == x >> 8;
    assert Down(x, 2) == x >> 16;
    assert Down(x, 3) == x >> 24;
  }

  lemma {:induction false} DownAgree(x: bv32, y: bv32, k: nat, n: nat)
    requires k <= n && Down(x, k) == Down(y, k)
    ensures Down(x, n) == Down(y, n)
  {
    hide Down8;
    if k < n {
      DownAgree(x, y, k, n - 1);
    }
  }

  /**
    Registers that agree above their k low bytes after a step had equal lookups, and agreed above
    their k + 1 low bytes before it.
  */
  lemma StepBack(p: Path, c: bv32, d: bv32, a: byte, b: byte, k: nat)
    requires k <= 3 && Down(Step(p, c, a), k) == Down(Step(p, d, b), k)
    ensures Index(c, a) == Index(d, b) && Down(c, k + 1) == Down(d, k + 1)
  {
    hide Lookup, Sum, Down, Down8, Index;
    var s, t := Step(p, c, a), Step(p, d, b);
    DownAgree(s, t, k, 3);
    Down3(s);
    Down3(t);
    TopOfSum(Lookup(p, Index(c, a)), c);
    TopOfSum(Lookup(p, Index(d, b)), d);
    TopByteTells(p, Index(c, a), Index(d, b));
    DownSum(Lookup(p, Index(c, a)), Down8(c), k);
    DownSum(Lookup(p, Index(c, a)), Down8(d), k);
    SumCancels(Down(Lookup(p, Index(c, a)), k), Down(Down8(c), k), Down(Down8(d), k));
    DownMore(c, k);
    DownMore(d, k);
  }

  /** For a fixed byte, the step is injective on 32-bit states, hence a bijection. */
  lemma StepInjective(p: Path, c: bv32, d: bv32, b: byte)
    requires Step(p, c, b) == Step(p, d, b)
    ensures c == d
  {
    hide Step, Low8, Down8;
    StepBack(p, c, d, b, b, 0);
    XorByteCancels(Low8(c), Low8(d), b);
    assert Down8(c) == Down(c, 1) && Down8(d) == Down(d, 1);
    SplitWord(c, d);
  }

  lemma {:induction false} RegisterInjective(p: Path, c: bv32, d: bv32, buf: seq<byte>)
    requires Register(p, c, buf) == Register(p, d, buf)
    ensures c == d
  {
    hide Step;
    if buf != [] {
      var init := buf[..|buf| - 1];
      StepInjective(p, Register(p, c, init), Register(p, d, init), buf[|buf| - 1]);
      RegisterInjective(p, c, d, init);
    }
  }

  lemma {:induction false} RegisterConcat(p: Path, c: bv32, s: seq<byte>, t: seq<byte>)
    ensures Register(p, c, s + t) == Register(p, Register(p, c, s), t)
  {
    hide Step;
    if t == [] {
      assert s + t == s;
    } else {
      RegisterConcat(p, c, s, t[..|t| - 1]);
      assert (s + t)[..|s + t| - 1] == s + t[..|t| - 1];
    }
  }

  // ---------- Four bytes decide the register ----------

  function Register4(p: Path, c: bv32, w: seq<byte>): bv32
    requires |w| == 4
  {
    Step(p, Step(p, Step(p, Step(p, c, w[0]), w[1]), w[2]), w[3])
  }

  lemma Register4Is(p: Path, c: bv32, w: seq<byte>)
    requires |w| == 4
    ensures Register(p, c, w) == Register4(p, c, w)
  {
    hide Step;
    assert w[..3][..2] == w[..2] && w[..2][..1] == w[..1] && w[..1][..0] == [];
    assert Register(p, c, w[..1]) == Step(p, c, w[0]);
    assert Register(p, c, w[..2]) == Step(p, Step(p, c, w[0]), w[1]);
    assert Register(p, c, w[..3]) == Step(p, Step(p, Step(p, c, w[0]), w[1]), w[2]);
  }

  lemma SameByte(c: bv32, a: byte, b: byte)
    requires Index(c, a) == Index(c, b)
    ensures a == b
  {
    assert Low8(c) ^ (Low8(c) ^ a) == a;
    assert Low8(c) ^ (Low8(c) ^ b) == b;
  }

  /** From one state, different four-byte words lead to different states. */
  lemma WordInjective(p: Path, c: bv32, v: seq<byte>, w: seq<byte>)
    requires |v| == |w| == 4
    requires Register(p, c, v) == Register(p, c, w)
    ensures v == w
  {
    hide Step, Index;
    Register4Is(p, c, v);
    Register4Is(p, c, w);
    var r1, s1 := Step(p, c, v[0]), Step(p, c, w[0]);
    var r2, s2 := Step(p, r1, v[1]), Step(p, s1, w[1]);
    var r3, s3 := Step(p, r2, v[2]), Step(p, s2, w[2]);
    StepBack(p, r3, s3, v[3], w[3], 0);
    StepBack(p, r2, s2, v[2], w[2], 1);
    StepBack(p, r1, s1, v[1], w[1], 2);
    StepBack(p, c, c, v[0], w[0], 3);
    SameByte(c, v[0], w[0]);
    SameByte(r1, v[1], w[1]);
    SameByte(r2, v[2], w[2]);
    SameByte(r3, v[3], w[3]);
  }

  // ---------- The residue ----------

  lemma LowSum(x: bv32, y: bv32)
    ensures Low8(Sum(x, y)) == Low8(x) ^ Low8(y)
  {
  }

  /** Feeding the low byte of v into r moves the sum of r and v like feeding a zero byte. */
  lemma AbsorbByte(p: Path, r: bv32, v: bv32)
    ensures Sum(Step(p, r, Low8(v)), Down8(v)) == Step(p, Sum(r, v), 0)
  {
    hide Lookup, Low8, Down8;
    LowSum(r, v);
    Down8Sum(r, v);
    var l := Lookup(p, Index(r, Low8(v)));
    assert Index(Sum(r, v), 0) == Index(r, Low8(v));
    SumAssociates(l, Down8(r), Down8(v));
  }

  lemma SumAssociates(x: bv32, y: bv32, z: bv32)
    ensures Sum(Sum(x, y), z) == Sum(x, Sum(y, z))
  {
    assert Sum(x ^ y, z) == Sum(x, y ^ z);
    assert Sum(x, y) == x ^ y && Sum(y, z) == y ^ z;
    hide *;
  }

  lemma SumZero(x: bv32)
    ensures Sum(x, 0) == x
  {
  }

  const ZEROS: seq<byte> := [0, 0, 0, 0]

  /** Feeding a whole word into r is feeding four zero bytes into the sum of both. */
  lemma AbsorbWord(p: Path, r: bv32, w: seq<byte>)
    requires |w| == 4
    ensures Register(p, r, w) == Register(p, Sum(r, Word(w)), ZEROS)
  {
    hide Step, Sum, Word, Low8, Down8;
    var v := Word(w);
    WordBytes(w);
    Register4Is(p, r, w);
    Register4Is(p, Sum(r, v), ZEROS);
    var r1 := Step(p, r, w[0]);
    var r2 := Step(p, r1, w[1]);
    var r3 := Step(p, r2, w[2]);
    AbsorbByte(p, r, v);
    AbsorbByte(p, r1, Down(v, 1));
    AbsorbByte(p, r2, Down(v, 2));
    AbsorbByte(p, r3, Down(v, 3));
    Down3(v);
    SumZero(Step(p, r3, w[3]));
  }

  /** The register that every valid buffer ends in. */
  const RESIDUE: bv32 := 0xB798B438

  const ONES: bv32 := 0xFFFF_FFFF

  lemma FeedZero(p: Path, x: bv32, i: byte, entry: bv32, y: bv32)
    requires Low8(x) == i && !Misprint(i) && Shown(i) == entry && Sum(entry, Down8(x)) == y
    ensures Step(p, x, 0) == y
  {
    hide Shown, Sum, Down8, Lookup;
    LookupPlain(p, i);
    assert Index(x, 0) == i;
  }

  lemma ResidueIs(p: Path)
    ensures Register(p, ONES, ZEROS) == RESIDUE
  {
    hide Lookup, Step;
    Register4Is(p, ONES, ZEROS);
    FeedTwo(p);
    FeedZero(p, 0x0E9E_882D, 0x2D, 0x9F95_C20D, 0x9F9B_5C85);
    FeedZero(p, 0x9F9B_5C85, 0x85, 0xB707_2F64, RESIDUE);
  }

  lemma FeedTwo(p: Path)
    ensures Step(p, Step(p, ONES, 0), 0) == 0x0E9E_882D
  {
    hide Lookup, Step;
    FeedZero(p, ONES, 0xFF, 0xAD7D_5351, 0xAD82_ACAE);
    FeedZero(p, 0xAD82_ACAE, 0xAE, 0x0E33_0A81, 0x0E9E_882D);
  }

  /** Away from the misprints both paths look the same entry up. */
  lemma LookupPlain(p: Path, i: byte)
    requires !Misprint(i)
    ensures Lookup(p, i) == Shown(i)
  {
    hide Basis, BitSteps, Shown;
    BasisIsSteps(i);
    ShownIsBasis(i);
    SumZero(Basis(i));
  }

  // ---------- The public functions ----------

  /** kfl_crc32c on path p: the register with the xor convention on entry and exit. */
  function Crc(p: Path, crc: bv32, buf: seq<byte>): bv32 {
    Sum(Register(p, Sum(crc, ONES), buf), ONES)
  }

  /** Chaining buffers is hashing their concatenation. */
  lemma CrcComposes(p: Path, crc: bv32, s: seq<byte>, t: seq<byte>)
    ensures Crc(p, Crc(p, crc, s), t) == Crc(p, crc, s + t)
  {
    hide Register, Sum;
    var r := Register(p, Sum(crc, ONES), s);
    SumAssociates(r, ONES, ONES);
    OnesCancel();
    SumZero(r);
    RegisterConcat(p, Sum(crc, ONES), s, t);
  }

  lemma OnesCancel()
    ensures Sum(ONES, ONES) == 0
    ensures Sum(0, ONES) == ONES
  {
  }

  /** kfl_crc32c_verify on path p. */
  predicate Verify(p: Path, buf: seq<byte>) {
    |buf| >= 4 && Crc(p, 0, buf[..|buf| - 4]) == Word(buf[|buf| - 4..])
  }

  lemma SumSame(x: bv32)
    ensures Sum(x, x) == 0
  {
  }

  lemma SumZeroLeft(x: bv32)
    ensures Sum(0, x) == x
  {
  }

  lemma SumTwice(x: bv32, y: bv32)
    ensures Sum(x, Sum(x, y)) == y
  {
    hide Sum;
    SumAssociates(x, x, y);
    SumSame(x);
    SumZeroLeft(y);
  }

  lemma SumIsOnes(r: bv32, w: bv32)
    ensures Sum(r, ONES) == w <==> Sum(r, w) == ONES
  {
    hide Sum;
    SumTwice(r, ONES);
    SumTwice(r, w);
  }

  /** A buffer is valid exactly when the register over all of it ends in the residue. */
  lemma VerifyIsResidue(p: Path, buf: seq<byte>)
    requires |buf| >= 4
    ensures Verify(p, buf) <==> Register(p, ONES, buf) == RESIDUE
  {
    hide Register, Sum, Word;
    var payload, tail := buf[..|buf| - 4], buf[|buf| - 4..];
    var r, w := Register(p, ONES, payload), Word(tail);
    assert buf == payload + tail;
    RegisterConcat(p, ONES, payload, tail);
    AbsorbWord(p, r, tail);
    ResidueIs(p);
    OnesCancel();
    SumIsOnes(r, w);
    if Register(p, Sum(r, w), ZEROS) == RESIDUE {
      RegisterInjective(p, Sum(r, w), ONES, ZEROS);
    }
  }

  /**
    Error detection for every length: a buffer that differs from a valid one only inside four
    consecutive bytes, wherever they are, is not valid.
  */
  lemma DetectsBurst(p: Path, good: seq<byte>, bad: seq<byte>, at: nat)
    requires Verify(p, good)
    requires |bad| == |good| && bad != good && at + 4 <= |good|
    requires bad[..at] == good[..at] && bad[at + 4..] == good[at + 4..]
    ensures !Verify(p, bad)
  {
    hide Register, Verify;
    assert |good| >= 4;
    VerifyIsResidue(p, good);
    VerifyIsResidue(p, bad);
    var before, after := good[..at], good[at + 4..];
    var v, w := good[at..at + 4], bad[at..at + 4];
    assert good == before + v + after;
    assert bad == before + w + after;
    RegisterConcat(p, ONES, before + v, after);
    RegisterConcat(p, ONES, before + w, after);
    RegisterConcat(p, ONES, before, v);
    RegisterConcat(p, ONES, before, w);
    if Register(p, ONES, good) == Register(p, ONES, bad) {
      RegisterInjective(p, Register(p, ONES, before + v), Register(p, ONES, before + w), after);
      WordInjective(p, Register(p, ONES, before), v, w);
    }
  }

  /** The four little-endian bytes of a word. */
  function Bytes(x: bv32): seq<byte> {
    [Low8(x), Low8(Down8(x)), Low8(Down8(Down8(x))), Low8(Down8(Down8(Down8(x))))]
  }

  lemma ByteAt(x: bv32)
    ensures Low8(x) as bv32 == x & 0xff
    ensures (Low8(Down8(x)) as bv32) << 8 == x & 0xff00
    ensures (Low8(Down8(Down8(x))) as bv32) << 16 == x & 0xff_0000
    ensures (Low8(Down8(Down8(Down8(x)))) as bv32) << 24 == x & 0xff00_0000
  {
    assert Down8(Down8(x)) == x >> 16;
    assert Down8(Down8(Down8(x))) == x >> 24;
  }

  lemma FourParts(x: bv32)
    ensures (x & 0xff) | (x & 0xff00) | (x & 0xff_0000) | (x & 0xff00_0000) == x
  {
  }

  lemma BytesThenWord(x: bv32)
    ensures Word(Bytes(x)) == x
  {
    hide Low8, Down8;
    ByteAt(x);
    FourParts(x);
  }

  /** Storing the CRC of a payload behind it makes a valid buffer. */
  lemma SealedVerifies(p: Path, payload: seq<byte>)
    ensures Verify(p, payload + Bytes(Crc(p, 0, payload)))
  {
    hide Register, Crc, Word, Low8, Down8;
    var x := Crc(p, 0, payload);
    var buf := payload + Bytes(x);
    assert buf[..|buf| - 4] == payload && buf[|buf| - 4..] == Bytes(x);
    BytesThenWord(x);
  }
}
