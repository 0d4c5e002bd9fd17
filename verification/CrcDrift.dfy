/**
  How far the table-driven CRC is from the polynomial one. The two misprinted entries of the table are
  off by one bit; what that adds up to depends only on which lookups meet them.
*/
module CrcDrift {
  import opened CrcTable
  import opened CrcSteps
  import opened Crc32c
  import opened CrcPaths
  import opened CrcOrder
  import opened CrcParity
  import opened Machine
  import opened Mersenne
  import opened Words

  /** What feeding buf adds up to, byte by byte, of the misprinted entries that were looked up. */
  function Drift(crc: bv32, buf: seq<byte>): bv32 {
    if buf == [] then 0
    else
      var init, last := buf[..|buf| - 1], buf[|buf| - 1];
      Sum(Step(Hardware, Drift(crc, init), 0), Delta(Index(Register(Software, crc, init), last)))
  }

  /** Which of the lookups for buf meet a misprinted entry. */
  function HitsAt(crc: bv32, buf: seq<byte>): (hits: seq<bool>)
    ensures |hits| == |buf|
  {
    if buf == [] then []
    else
      var init, last := buf[..|buf| - 1], buf[|buf| - 1];
      HitsAt(crc, init) + [Misprint(Index(Register(Software, crc, init), last))]
  }

  /** The error that one hit leaves in the register, this many bytes later. */
  function Echo(later: nat): bv32 {
    BitSteps(4, 8 * later)
  }

  /** The sum of the errors that the hits leave at the end of n bytes. */
  function Echoes(hits: seq<bool>, n: nat): bv32
    requires |hits| <= n
  {
    if hits == [] then 0
    else Sum(Echoes(hits[..|hits| - 1], n), if hits[|hits| - 1] then Echo(n - |hits|) else 0)
  }

  function HitCount(hits: seq<bool>): nat {
    if hits == [] then 0 else HitCount(hits[..|hits| - 1]) + if hits[|hits| - 1] then 1 else 0
  }

  // ---------- The drift ----------

  lemma SoftwareStep(c: bv32, b: byte)
    ensures Step(Software, c, b) == Sum(Step(Hardware, c, b), Delta(Index(c, b)))
  {
    hide Shown, Basis, BitSteps, Delta, Sum, Index, Down8;
    var i := Index(c, b);
    ShownIsBasis(i);
    BasisIsSteps(i);
    SumSwap(Basis(i), Delta(i), Down8(c));
  }

  /** The table-driven register is the polynomial one, off by exactly the drift. */
  lemma {:induction false} DriftIs(crc: bv32, buf: seq<byte>)
    ensures Register(Software, crc, buf) == Sum(Register(Hardware, crc, buf), Drift(crc, buf))
  {
    hide Step, Sum, Delta, Index;
    if buf == [] {
      SumZero(crc);
    } else {
      var init, last := buf[..|buf| - 1], buf[|buf| - 1];
      var s, h, d := Register(Software, crc, init), Register(Hardware, crc, init), Drift(crc, init);
      DriftIs(crc, init);
      SoftwareStep(s, last);
      StepLinear(h, d, last);
      SumAssociates(Step(Hardware, h, last), Step(Hardware, d, 0), Delta(Index(s, last)));
    }
  }

  // ---------- The drift as a sum over the hits ----------

  lemma NoStepsAtAll(n: nat)
    ensures Echo(0) == 4
    ensures BitSteps(Echo(n), 8) == Echo(n + 1)
  {
    BitStepsAdd(4, 8 * n, 8);
    hide BitStep;
  }

  lemma NothingSteps()
    ensures BitSteps(0, 8) == 0
  {
    ZeroSteps(8);
    hide BitSteps;
  }

  /** One byte later every error has gone on by eight bit steps. */
  lemma {:induction false} EchoesLater(hits: seq<bool>, n: nat)
    requires |hits| <= n
    ensures Echoes(hits, n + 1) == BitSteps(Echoes(hits, n), 8)
  {
    hide BitSteps, Sum, Echo;
    NothingSteps();
    if hits != [] {
      var init := hits[..|hits| - 1];
      EchoesLater(init, n);
      NoStepsAtAll(n - |hits|);
      BitStepsLinear(Echoes(init, n), if hits[|hits| - 1] then Echo(n - |hits|) else 0, 8);
    }
  }

  lemma EchoesStep(hits: seq<bool>, hit: bool)
    ensures Echoes(hits + [hit], |hits| + 1) == Sum(BitSteps(Echoes(hits, |hits|), 8), if hit then 4 else 0)
  {
    hide BitSteps, Sum, Echo;
    EchoesLater(hits, |hits|);
    NoStepsAtAll(0);
    assert (hits + [hit])[..|hits|] == hits;
  }

  /** The drift is the sum of the errors of the hits: it depends on nothing else. */
  lemma {:induction false} DriftOfHits(crc: bv32, buf: seq<byte>)
    ensures Drift(crc, buf) == Echoes(HitsAt(crc, buf), |buf|)
  {
    hide Step, Sum, Index, Register, BitSteps, Misprint, Echoes;
    if buf == [] {
      NoEchoes();
    } else {
      var init, last := buf[..|buf| - 1], buf[|buf| - 1];
      DriftOfHits(crc, init);
      StepIsBits(Drift(crc, init));
      EchoesStep(HitsAt(crc, init), Misprint(Index(Register(Software, crc, init), last)));
    }
  }

  lemma NoEchoes()
    ensures Echoes([], 0) == 0
  {
  }

  // ---------- When both paths agree ----------

  lemma CrcsAgree(crc: bv32, buf: seq<byte>)
    ensures var c := Sum(crc, ONES);
            Crc(Software, crc, buf) == Crc(Hardware, crc, buf) <==>
            Register(Software, c, buf) == Register(Hardware, c, buf)
  {
    hide Register, Sum;
    var c := Sum(crc, ONES);
    var s, h := Register(Software, c, buf), Register(Hardware, c, buf);
    SumCommutes(s, ONES);
    SumCommutes(h, ONES);
    SumTwice(ONES, s);
    SumTwice(ONES, h);
  }

  /** Both paths give one CRC exactly when the errors of the hits cancel out. */
  lemma PathsAgree(crc: bv32, buf: seq<byte>)
    ensures Crc(Software, crc, buf) == Crc(Hardware, crc, buf) <==>
            Echoes(HitsAt(Sum(crc, ONES), buf), |buf|) == 0
  {
    hide *;
    var c := Sum(crc, ONES);
    CrcsAgree(crc, buf);
    DriftIs(c, buf);
    DriftOfHits(c, buf);
    SumSelf(Register(Hardware, c, buf), Drift(c, buf));
  }

  /** Buffers whose lookups meet the two entries at the same places fare alike. */
  lemma SameHitsSameFate(crc: bv32, buf: seq<byte>, crc2: bv32, buf2: seq<byte>)
    requires HitsAt(Sum(crc, ONES), buf) == HitsAt(Sum(crc2, ONES), buf2)
    ensures Crc(Software, crc, buf) == Crc(Hardware, crc, buf) <==>
            Crc(Software, crc2, buf2) == Crc(Hardware, crc2, buf2)
  {
    PathsAgree(crc, buf);
    PathsAgree(crc2, buf2);
    assert |buf| == |HitsAt(Sum(crc, ONES), buf)| == |buf2|;
    hide Crc, Echoes, HitsAt, Sum;
  }

  lemma {:induction false} NoHitsNoEchoes(hits: seq<bool>, n: nat)
    requires |hits| <= n && true !in hits
    ensures Echoes(hits, n) == 0
  {
    hide Sum, Echo;
    if hits != [] {
      NoHitsNoEchoes(hits[..|hits| - 1], n);
      SumZero(0);
    }
  }

  /** No lookup of a misprinted entry, no difference. */
  lemma NoHitNoDrift(crc: bv32, buf: seq<byte>)
    requires true !in HitsAt(Sum(crc, ONES), buf)
    ensures Crc(Software, crc, buf) == Crc(Hardware, crc, buf)
  {
    PathsAgree(crc, buf);
    NoHitsNoEchoes(HitsAt(Sum(crc, ONES), buf), |buf|);
    hide Crc, Echoes, HitsAt, Sum;
  }

  lemma OddFour()
    ensures Odd(4, 32) && !Odd(0, 32)
  {
    ZeroIsEven();
    assert Half(4) == 2 && Half(2) == 1 && Half(1) == 0 && Clear(4, 1) && Clear(2, 1) && !Clear(1, 1);
    hide Half, Clear;
    OddZero(32);
    OddZero(29);
    assert Odd(1, 30) && Odd(2, 31);
  }

  lemma {:induction false} OddZero(n: nat)
    ensures !Odd(0, n)
    decreases n
  {
    ZeroIsEven();
    hide Half, Clear;
    if n > 0 {
      OddZero(n - 1);
    }
  }

  /** Every hit leaves an odd number of wrong bits, however much later. */
  lemma {:induction false} OddEchoes(hits: seq<bool>, n: nat)
    requires |hits| <= n
    ensures Odd(Echoes(hits, n), 32) <==> HitCount(hits) % 2 == 1
  {
    hide Sum, Odd, BitSteps;
    OddFour();
    if hits != [] {
      var init := hits[..|hits| - 1];
      OddEchoes(init, n);
      OddOfSteps(4, 8 * (n - |hits|));
      OddSum(Echoes(init, n), if hits[|hits| - 1] then Echo(n - |hits|) else 0, 32);
    }
  }

  /** An odd number of hits never cancels out: the table as shown gets the CRC wrong. */
  lemma OddHitsDisagree(crc: bv32, buf: seq<byte>)
    requires HitCount(HitsAt(Sum(crc, ONES), buf)) % 2 == 1
    ensures Crc(Software, crc, buf) != Crc(Hardware, crc, buf)
  {
    hide *;
    PathsAgree(crc, buf);
    OddEchoes(HitsAt(Sum(crc, ONES), buf), |buf|);
    OddFour();
  }

  lemma {:induction false} HitsAtIs(crc: bv32, buf: seq<byte>, k: nat)
    requires k < |buf|
    ensures HitsAt(crc, buf)[k] == Misprint(Index(Register(Software, crc, buf[..k]), buf[k]))
  {
    hide Misprint, Index, Register;
    var init := buf[..|buf| - 1];
    if k < |init| {
      HitsAtIs(crc, init, k);
      assert init[..k] == buf[..k];
    }
  }

  lemma {:induction false} EchoesOfOne(hits: seq<bool>, n: nat, k: nat)
    requires k < |hits| <= n && forall i :: 0 <= i < |hits| ==> (hits[i] <==> i == k)
    ensures Echoes(hits, n) == Echo(n - 1 - k)
  {
    hide Sum, Echo;
    var init := hits[..|hits| - 1];
    if k < |init| {
      EchoesOfOne(init, n, k);
      SumZero(Echo(n - 1 - k));
    } else {
      NoHitsNoEchoes(init, n);
      SumZeroLeft(Echo(n - 1 - k));
    }
  }

  lemma {:induction false} EchoesOfTwo(hits: seq<bool>, n: nat, k: nat, l: nat)
    requires k < l < |hits| <= n && forall i :: 0 <= i < |hits| ==> (hits[i] <==> i == k || i == l)
    ensures Echoes(hits, n) == Sum(Echo(n - 1 - k), Echo(n - 1 - l))
  {
    hide Sum, Echo;
    var init := hits[..|hits| - 1];
    if l < |init| {
      EchoesOfTwo(init, n, k, l);
      SumZero(Echoes(init, n));
    } else {
      EchoesOfOne(init, n, k);
    }
  }

  lemma EchoIs(later: nat)
    ensures Echo(later) == BitSteps(ONE, 29 + 8 * later)
  {
    LowPowers();
    BitStepsAdd(ONE, 29, 8 * later);
    hide BitSteps;
  }

  /** The error of a hit is back at its start after 2^31 - 1 bytes, and not before. */
  lemma EchoesMeet(later: nat, apart: nat)
    ensures Echo(later + apart) == Echo(later) <==> apart % M31 == 0
  {
    hide Echo;
    EchoIs(later);
    EchoIs(later + apart);
    PowersMeet(29 + 8 * later, 8 * apart);
    EightTimes(apart);
  }

  /** Two hits cancel out exactly if they are a multiple of 2^31 - 1 bytes apart. */
  lemma TwoHits(crc: bv32, buf: seq<byte>, k: nat, l: nat)
    requires k < l < |buf|
    requires forall i :: 0 <= i < |buf| ==> (HitsAt(Sum(crc, ONES), buf)[i] <==> i == k || i == l)
    ensures Crc(Software, crc, buf) == Crc(Hardware, crc, buf) <==> (l - k) % M31 == 0
  {
    hide *;
    var n, hits := |buf|, HitsAt(Sum(crc, ONES), buf);
    PathsAgree(crc, buf);
    EchoesOfTwo(hits, n, k, l);
    var x, y := Echo(n - 1 - k), Echo(n - 1 - l);
    EchoesMeet(n - 1 - l, l - k);
    SumEqual(x, y);
  }

  lemma OneByteHits(crc: bv32, b: byte)
    requires Misprint(Index(crc, b))
    ensures HitsAt(crc, [b]) == [true] && HitCount([true]) == 1
  {
    assert [b][..0] == [];
    hide Register, Index;
    EmptyRegister(Software, crc, [b][..0]);
    assert [true][..0] == [];
  }

  /** A one-byte buffer on which the table as shown and the CRC instructions disagree. */
  lemma Disagreement()
    ensures Crc(Software, 0, [0x41]) != Crc(Hardware, 0, [0x41])
  {
    assert Sum(0, ONES) == ONES && Misprint(Index(ONES, 0x41));
    hide *;
    OneByteHits(ONES, 0x41);
    OddHitsDisagree(0, [0x41]);
  }
}
