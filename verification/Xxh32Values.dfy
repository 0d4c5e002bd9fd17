/**
  Values of xxh32 that the published algorithm has, for inputs that take every branch: no byte, one
  byte, and 39 bytes, which are two stripes, one word and three bytes.
*/
module Xxh32Values {
  import opened Machine
  import opened Mod32
  import opened Words
  import opened Xxh32

  /** Nobody inspects the spammish repetition, in ASCII. */
  const NOBODY: seq<byte> := STRIPE1 + STRIPE2 + REST

  const STRIPE1: seq<byte> := [78, 111, 98, 111, 100, 121, 32, 105, 110, 115, 112, 101, 99, 116, 115, 32]
  const STRIPE2: seq<byte> := [116, 104, 101, 32, 115, 112, 97, 109, 109, 105, 115, 104, 32, 114, 101, 112]
  const REST: seq<byte> := [101, 116, 105, 116, 105, 111, 110]

  lemma NoStripes(seed: bv32, buf: seq<byte>)
    requires |buf| < 4
    ensures Hash(seed, buf) == Avalanche(AfterBytes(Add(Add(seed, PRIME5), LenWord(|buf|)), buf, 0, |buf|))
  {
    hide Add, Avalanche, LenWord, AfterBytes;
    assert Striped(|buf|) == Aligned(|buf|) == WordsLeft(|buf|) == 0;
  }

  lemma Lengths()
    ensures LenWord(0) == 0 && LenWord(1) == 1 && LenWord(39) == 39
  {
  }

  /** The hash of nothing. */
  lemma OfNothing()
    ensures Hash(0, []) == 0x02CC_5D05
  {
    NoStripes(0, []);
    Lengths();
    assert Add(Add(0, PRIME5), 0) == 0x1656_67B1;
    assert Avalanche(0x1656_67B1) == 0x02CC_5D05;
    hide Hash, Avalanche, Add, LenWord;
  }

  /** The hash of the letter a. */
  lemma OfA()
    ensures Hash(0, [0x61]) == 0x550D_7456
  {
    hide *;
    NoStripes(0, [0x61]);
    Lengths();
    OneByte(0x1656_67B2, [0x61]);
    StepsOfA();
  }

  lemma StepsOfA()
    ensures Add(Add(0, PRIME5), 1) == 0x1656_67B2
    ensures TailByte(0x1656_67B2, 0x61) == 0x6506_CBE8
    ensures Avalanche(0x6506_CBE8) == 0x550D_7456
  {
  }

  /** The hash of the letter a with seed 1. */
  lemma OfASeeded()
    ensures Hash(1, [0x61]) == 0xF514_706F
  {
    hide *;
    NoStripes(1, [0x61]);
    Lengths();
    OneByte(0x1656_67B3, [0x61]);
    StepsOfASeeded();
  }

  lemma StepsOfASeeded()
    ensures Add(Add(1, PRIME5), 1) == 0x1656_67B3
    ensures TailByte(0x1656_67B3, 0x61) == 0x20D4_53E8
    ensures Avalanche(0x20D4_53E8) == 0xF514_706F
  {
  }

  lemma OneByte(h: bv32, buf: seq<byte>)
    requires |buf| == 1
    ensures AfterBytes(h, buf, 0, 1) == TailByte(h, buf[0])
  {
    hide TailByte;
  }

  // ---------- 39 bytes ----------

  lemma NobodyLength()
    ensures |NOBODY| == 39
  {
  }

  lemma WordOf(buf: seq<byte>, p: nat, a: byte, b: byte, c: byte, d: byte)
    requires p + 4 <= |buf| && buf[p] == a && buf[p + 1] == b && buf[p + 2] == c && buf[p + 3] == d
    ensures WordAt(buf, p) == Word4(a, b, c, d)
  {
    hide Word4;
    assert buf[p..p + 4] == [a, b, c, d];
  }

  lemma FirstWords()
    ensures WordAt(NOBODY, 0) == 0x6F62_6F4E
    ensures WordAt(NOBODY, 4) == 0x6920_7964
  {
    hide WordAt;
    WordOf(NOBODY, 0, 78, 111, 98, 111);
    WordOf(NOBODY, 4, 100, 121, 32, 105);
  }

  lemma SecondWords()
    ensures WordAt(NOBODY, 8) == 0x6570_736E
    ensures WordAt(NOBODY, 12) == 0x2073_7463
  {
    hide WordAt;
    WordOf(NOBODY, 8, 110, 115, 112, 101);
    WordOf(NOBODY, 12, 99, 116, 115, 32);
  }

  lemma ThirdWords()
    ensures WordAt(NOBODY, 16) == 0x2065_6874
    ensures WordAt(NOBODY, 20) == 0x6D61_7073
  {
    hide WordAt;
    WordOf(NOBODY, 16, 116, 104, 101, 32);
    WordOf(NOBODY, 20, 115, 112, 97, 109);
  }

  lemma FourthWords()
    ensures WordAt(NOBODY, 24) == 0x6873_696D
    ensures WordAt(NOBODY, 28) == 0x7065_7220
  {
    hide WordAt;
    WordOf(NOBODY, 24, 109, 105, 115, 104);
    WordOf(NOBODY, 28, 32, 114, 101, 112);
  }

  lemma LastWords()
    ensures WordAt(NOBODY, 32) == 0x7469_7465
  {
    hide WordAt;
    WordOf(NOBODY, 32, 101, 116, 105, 116);
  }

  /** Two stripes of a lane. */
  lemma TwoStripes(seed: bv32, buf: seq<byte>, lane: nat, s: bv32, v: bv32, w: bv32, x: bv32, y: bv32)
    requires lane < 4 && 32 <= |buf| && LaneSeed(seed, lane) == s
    requires WordAt(buf, 4 * lane) == x && WordAt(buf, 16 + 4 * lane) == y
    requires Round(s, x) == v && Round(v, y) == w
    ensures Lane(seed, buf, lane, 2) == w
  {
    hide Round, WordAt, LaneSeed;
    assert Lane(seed, buf, lane, 1) == Round(Lane(seed, buf, lane, 0), WordAt(buf, 4 * lane));
  }

  lemma AllOf39(seed: bv32, buf: seq<byte>, v1: bv32, v2: bv32, v3: bv32, v4: bv32)
    requires |buf| == 39
    requires Lane(seed, buf, 0, 2) == v1 && Lane(seed, buf, 1, 2) == v2
    requires Lane(seed, buf, 2, 2) == v3 && Lane(seed, buf, 3, 2) == v4
    ensures Hash(seed, buf)
         == Avalanche(AfterBytes(AfterWords(Add(Merge(v1, v2, v3, v4), LenWord(39)), buf, 32, 1), buf, 36, 3))
  {
    hide Add, Merge, Lane, AfterWords, AfterBytes, Avalanche, LenWord;
    StartIs(seed, buf, 2);
    assert Striped(39) == 32 && Aligned(39) == 36 && WordsLeft(39) == 1;
  }

  /** One word and three bytes behind the stripes. */
  lemma Tail(h: bv32, i: bv32, a: bv32, b: bv32, c: bv32)
    requires TailWord(h, 0x7469_7465) == i
    requires TailByte(i, 105) == a && TailByte(a, 111) == b && TailByte(b, 110) == c
    ensures AfterWords(h, NOBODY, 32, 1) == i && AfterBytes(i, NOBODY, 36, 3) == c
  {
    hide TailWord, TailByte, WordAt;
    LastWords();
    AfterNone(h, NOBODY, 32);
    AfterOneMore(h, NOBODY, 32, 0);
    AfterNone(i, NOBODY, 36);
    AfterOneMore(i, NOBODY, 36, 0);
    AfterOneMore(i, NOBODY, 36, 1);
    AfterOneMore(i, NOBODY, 36, 2);
  }

  lemma LanesOfNobody()
    ensures Lane(0, NOBODY, 0, 2) == 0x719A_836E
    ensures Lane(0, NOBODY, 1, 2) == 0x514C_1DE8
    ensures Lane(0, NOBODY, 2, 2) == 0x97FA_4BA2
    ensures Lane(0, NOBODY, 3, 2) == 0x242A_97A2
  {
    hide Lane, WordAt, LaneSeed, Round;
    FirstWords();
    SecondWords();
    ThirdWords();
    FourthWords();
    RoundsOfNobody();
    TwoStripes(0, NOBODY, 0, 0x2423_4428, 0x046A_700A, 0x719A_836E,
               0x6F62_6F4E, 0x2065_6874);
    TwoStripes(0, NOBODY, 1, 0x85EB_CA77, 0xBFAD_F8E3, 0x514C_1DE8,
               0x6920_7964, 0x6D61_7073);
    TwoStripes(0, NOBODY, 2, 0x0000_0000, 0x5B32_B4AA, 0x97FA_4BA2,
               0x6570_736E, 0x6873_696D);
    TwoStripes(0, NOBODY, 3, 0x61C8_864F, 0x137E_5555, 0x242A_97A2,
               0x2073_7463, 0x7065_7220);
  }

  lemma RoundsOfNobody()
    ensures LaneSeed(0, 0) == 0x2423_4428 && Round(0x2423_4428, 0x6F62_6F4E) == 0x046A_700A
    ensures LaneSeed(0, 1) == 0x85EB_CA77 && Round(0x85EB_CA77, 0x6920_7964) == 0xBFAD_F8E3
    ensures LaneSeed(0, 2) == 0x0000_0000 && Round(0x0000_0000, 0x6570_736E) == 0x5B32_B4AA
    ensures LaneSeed(0, 3) == 0x61C8_864F && Round(0x61C8_864F, 0x2073_7463) == 0x137E_5555
    ensures Round(0x046A_700A, 0x2065_6874) == 0x719A_836E
    ensures Round(0xBFAD_F8E3, 0x6D61_7073) == 0x514C_1DE8
    ensures Round(0x5B32_B4AA, 0x6873_696D) == 0x97FA_4BA2
    ensures Round(0x137E_5555, 0x7065_7220) == 0x242A_97A2
  {
  }

  lemma StepsOfNobody()
    ensures Add(Merge(0x719A_836E, 0x514C_1DE8, 0x97FA_4BA2, 0x242A_97A2), 39) == 0x8C86_B554
    ensures TailWord(0x8C86_B554, 0x7469_7465) == 0x09B5_1544
    ensures TailByte(0x09B5_1544, 105) == 0xCDEF_D3C9 && TailByte(0xCDEF_D3C9, 111) == 0x3852_087B
    ensures TailByte(0x3852_087B, 110) == 0xB3A7_011B && Avalanche(0xB3A7_011B) == 0xE229_3B2F
  {
  }

  /** The hash of 39 bytes. */
  lemma OfNobody()
    ensures Hash(0, NOBODY) == 0xE229_3B2F
  {
    hide *;
    Lengths();
    NobodyLength();
    LanesOfNobody();
    StepsOfNobody();
    AllOf39(0, NOBODY, 0x719A_836E, 0x514C_1DE8, 0x97FA_4BA2, 0x242A_97A2);
    Tail(0x8C86_B554, 0x09B5_1544, 0xCDEF_D3C9, 0x3852_087B, 0xB3A7_011B);
  }

  lemma LanesOfNobodySeeded()
    ensures Lane(1, NOBODY, 0, 2) == 0x133C_3F25
    ensures Lane(1, NOBODY, 1, 2) == 0xF2ED_D99F
    ensures Lane(1, NOBODY, 2, 2) == 0x399C_0759
    ensures Lane(1, NOBODY, 3, 2) == 0xC5CC_5359
  {
    hide Lane, WordAt, LaneSeed, Round;
    FirstWords();
    SecondWords();
    ThirdWords();
    FourthWords();
    RoundsOfNobodySeeded();
    TwoStripes(1, NOBODY, 0, 0x2423_4429, 0xF3A0_900A, 0x133C_3F25,
               0x6F62_6F4E, 0x2065_6874);
    TwoStripes(1, NOBODY, 1, 0x85EB_CA78, 0xAEE4_18E3, 0xF2ED_D99F,
               0x6920_7964, 0x6D61_7073);
    TwoStripes(1, NOBODY, 2, 0x0000_0001, 0x4A68_D4AA, 0x399C_0759,
               0x6570_736E, 0x6873_696D);
    TwoStripes(1, NOBODY, 3, 0x61C8_8650, 0x02B4_7555, 0xC5CC_5359,
               0x2073_7463, 0x7065_7220);
  }

  lemma RoundsOfNobodySeeded()
    ensures LaneSeed(1, 0) == 0x2423_4429 && Round(0x2423_4429, 0x6F62_6F4E) == 0xF3A0_900A
    ensures LaneSeed(1, 1) == 0x85EB_CA78 && Round(0x85EB_CA78, 0x6920_7964) == 0xAEE4_18E3
    ensures LaneSeed(1, 2) == 0x0000_0001 && Round(0x0000_0001, 0x6570_736E) == 0x4A68_D4AA
    ensures LaneSeed(1, 3) == 0x61C8_8650 && Round(0x61C8_8650, 0x2073_7463) == 0x02B4_7555
    ensures Round(0xF3A0_900A, 0x2065_6874) == 0x133C_3F25
    ensures Round(0xAEE4_18E3, 0x6D61_7073) == 0xF2ED_D99F
    ensures Round(0x4A68_D4AA, 0x6873_696D) == 0x399C_0759
    ensures Round(0x02B4_7555, 0x7065_7220) == 0xC5CC_5359
  {
  }

  lemma StepsOfNobodySeeded()
    ensures Add(Merge(0x133C_3F25, 0xF2ED_D99F, 0x399C_0759, 0xC5CC_5359), 39) == 0xAB41_F934
    ensures TailWord(0xAB41_F934, 0x7469_7465) == 0x4E23_AFEE
    ensures TailByte(0x4E23_AFEE, 105) == 0xA8C5_28FC && TailByte(0xA8C5_28FC, 111) == 0xDBD8_7871
    ensures TailByte(0xDBD8_7871, 110) == 0x20C3_ED77 && Avalanche(0x20C3_ED77) == 0x5344_69EA
  {
  }

  /** The hash of 39 bytes with seed 1. */
  lemma OfNobodySeeded()
    ensures Hash(1, NOBODY) == 0x5344_69EA
  {
    hide *;
    Lengths();
    NobodyLength();
    LanesOfNobodySeeded();
    StepsOfNobodySeeded();
    AllOf39(1, NOBODY, 0x133C_3F25, 0xF2ED_D99F, 0x399C_0759, 0xC5CC_5359);
    Tail(0xAB41_F934, 0x4E23_AFEE, 0xA8C5_28FC, 0xDBD8_7871, 0x20C3_ED77);
  }
}
