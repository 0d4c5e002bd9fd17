/**
  xxh32 run backwards. From the hash, the seed and all bytes but those of one aligned word or of one
  trailing byte, that word or byte is computed, step by step, with the inverse multipliers and the
  rotations to the right.
*/
module Xxh32Back {
  import opened Machine
  import opened Mod32
  import opened Words
  import opened Xxh32

  // ---------- The steps backwards ----------

  function AvalancheBack(h: bv32): bv32 {
    Unmix15(Mul(Unmix13(Mul(Unmix16(h), 2828982549)), 3066638151))
  }

  /** The hash before a byte. */
  function ByteBack(h: bv32, b: byte): bv32 {
    Sub(Rotr11(Mul(h, 244002641)), Mul(b as bv32, 374761393))
  }

  /** The byte that led from g to h. */
  function ByteOf(g: bv32, h: bv32): byte {
    Low8(Mul(Sub(Rotr11(Mul(h, 244002641)), g), 2923004241))
  }

  /** The hash before a word behind the stripes. */
  function WordBack(h: bv32, w: bv32): bv32 {
    Sub(Rotr17(Mul(h, 2701016015)), Mul(w, 3266489917))
  }

  /** The word that led from g to h. */
  function WordOf(g: bv32, h: bv32): bv32 {
    Mul(Sub(Rotr17(Mul(h, 2701016015)), g), 2828982549)
  }

  /** A lane before a word. */
  function RoundBack(v: bv32, w: bv32): bv32 {
    Sub(Rotr13(Mul(v, 244002641)), Mul(w, 2246822519))
  }

  /** The word that led a lane from u to v. */
  function RoundWord(u: bv32, v: bv32): bv32 {
    Mul(Sub(Rotr13(Mul(v, 244002641)), u), 3066638151)
  }

  lemma AvalancheBackIs(h: bv32)
    ensures AvalancheBack(Avalanche(h)) == h
  {
    hide Mul, Mix15, Mix13, Mix16, Unmix15, Unmix13, Unmix16;
    UndoMix16(Mul(Mix13(Mul(Mix15(h), PRIME2)), PRIME3));
    UndoMul3(Mix13(Mul(Mix15(h), PRIME2)));
    UndoMix13(Mul(Mix15(h), PRIME2));
    UndoMul2(Mix15(h));
    UndoMix15(h);
  }

  lemma LowOfByte(b: byte)
    ensures Low8(b as bv32) == b
  {
  }

  lemma ByteBackIs(h: bv32, b: byte)
    ensures ByteBack(TailByte(h, b), b) == h && ByteOf(h, TailByte(h, b)) == b
  {
    hide Mul, Rotl11, Add, Rotr11, Sub, Low8;
    var m := Mul(b as bv32, PRIME5);
    UndoMul1(Rotl11(Add(h, m)));
    UndoRotl11(Add(h, m));
    UndoAdd(m, h);
    UndoAdd(h, m);
    UndoMul5(b as bv32);
    LowOfByte(b);
  }

  lemma WordBackIs(h: bv32, w: bv32)
    ensures WordBack(TailWord(h, w), w) == h && WordOf(h, TailWord(h, w)) == w
  {
    hide Mul, Rotl17, Add, Rotr17, Sub;
    var m := Mul(w, PRIME3);
    UndoMul4(Rotl17(Add(h, m)));
    UndoRotl17(Add(h, m));
    UndoAdd(m, h);
    UndoAdd(h, m);
    UndoMul3(w);
  }

  lemma RoundBackIs(v: bv32, w: bv32)
    ensures RoundBack(Round(v, w), w) == v && RoundWord(v, Round(v, w)) == w
  {
    hide Mul, Rotl13, Add, Rotr13, Sub;
    var m := Mul(w, PRIME2);
    UndoMul1(Rotl13(Add(v, m)));
    UndoRotl13(Add(v, m));
    UndoAdd(m, v);
    UndoAdd(v, m);
    UndoMul2(w);
  }

  // ---------- The loops backwards ----------

  /** h before the bytes of buf from i up to the k-th behind p. */
  function BytesBack(h: bv32, buf: seq<byte>, p: nat, i: nat, k: nat): bv32
    requires i <= k && p + k <= |buf|
    decreases k
  {
    if k == i then h else BytesBack(ByteBack(h, buf[p + k - 1]), buf, p, i, k - 1)
  }

  function WordsBack(h: bv32, buf: seq<byte>, p: nat, i: nat, k: nat): bv32
    requires i <= k && p + 4 * k <= |buf|
    decreases k
  {
    if k == i then h else WordsBack(WordBack(h, WordAt(buf, p + 4 * (k - 1))), buf, p, i, k - 1)
  }

  /** A lane before the stripes from i up to n. */
  function LaneBack(v: bv32, buf: seq<byte>, lane: nat, i: nat, n: nat): bv32
    requires lane < 4 && i <= n && 16 * n <= |buf|
    decreases n
  {
    if n == i then v else LaneBack(RoundBack(v, WordAt(buf, 16 * (n - 1) + 4 * lane)), buf, lane, i, n - 1)
  }

  lemma {:induction false} BytesBackIs(h: bv32, a: seq<byte>, b: seq<byte>, p: nat, i: nat, k: nat)
    requires i <= k && p + k <= |a| == |b| && forall j :: p + i <= j < p + k ==> a[j] == b[j]
    ensures BytesBack(AfterBytes(h, a, p, k), b, p, i, k) == AfterBytes(h, a, p, i)
    decreases k
  {
    hide TailByte, ByteBack, ByteOf;
    if k > i {
      ByteBackIs(AfterBytes(h, a, p, k - 1), a[p + k - 1]);
      BytesBackIs(h, a, b, p, i, k - 1);
    }
  }

  /** The words of the two buffers from offset p + 4 * i on are the same. */
  ghost predicate SameWords(a: seq<byte>, b: seq<byte>, p: nat, i: nat, k: nat) {
    p + 4 * k <= |a| == |b| && forall j :: i <= j < k ==> WordAt(a, p + 4 * j) == WordAt(b, p + 4 * j)
  }

  lemma {:induction false} WordsBackIs(h: bv32, a: seq<byte>, b: seq<byte>, p: nat, i: nat, k: nat)
    requires i <= k && SameWords(a, b, p, i, k)
    ensures WordsBack(AfterWords(h, a, p, k), b, p, i, k) == AfterWords(h, a, p, i)
    decreases k
  {
    hide TailWord, WordBack, WordOf, WordAt;
    if k > i {
      WordBackIs(AfterWords(h, a, p, k - 1), WordAt(a, p + 4 * (k - 1)));
      WordsBackIs(h, a, b, p, i, k - 1);
    }
  }

  /** The words of one lane from stripe i on are the same. */
  ghost predicate SameLane(a: seq<byte>, b: seq<byte>, lane: nat, i: nat, n: nat) {
    lane < 4 && 16 * n <= |a| == |b| &&
    forall j :: i <= j < n ==> WordAt(a, 16 * j + 4 * lane) == WordAt(b, 16 * j + 4 * lane)
  }

  lemma {:induction false} LaneBackIs(seed: bv32, a: seq<byte>, b: seq<byte>, lane: nat, i: nat, n: nat)
    requires i <= n && SameLane(a, b, lane, i, n)
    ensures LaneBack(Lane(seed, a, lane, n), b, lane, i, n) == Lane(seed, a, lane, i)
    decreases n
  {
    hide Round, RoundBack, RoundWord, WordAt, LaneSeed;
    if n > i {
      RoundBackIs(Lane(seed, a, lane, n - 1), WordAt(a, 16 * (n - 1) + 4 * lane));
      LaneBackIs(seed, a, b, lane, i, n - 1);
    }
  }

  // ---------- One lane, from the sum of all ----------

  /** One of four lanes, from their sum and the other three. */
  function MergeBack(sum: bv32, v1: bv32, v2: bv32, v3: bv32, v4: bv32, lane: nat): bv32 {
    if lane == 0 then Rotr1(Sub(Sub(Sub(sum, Rotl18(v4)), Rotl12(v3)), Rotl7(v2)))
    else if lane == 1 then Rotr7(Sub(Sub(Sub(sum, Rotl18(v4)), Rotl12(v3)), Rotl1(v1)))
    else if lane == 2 then Rotr12(Sub(Sub(sum, Rotl18(v4)), Add(Rotl1(v1), Rotl7(v2))))
    else Rotr18(Sub(sum, Add(Add(Rotl1(v1), Rotl7(v2)), Rotl12(v3))))
  }

  lemma MergeBackIs(v1: bv32, v2: bv32, v3: bv32, v4: bv32, w: bv32)
    ensures MergeBack(Merge(v1, v2, v3, v4), w, v2, v3, v4, 0) == v1
    ensures MergeBack(Merge(v1, v2, v3, v4), v1, w, v3, v4, 1) == v2
    ensures MergeBack(Merge(v1, v2, v3, v4), v1, v2, w, v4, 2) == v3
    ensures MergeBack(Merge(v1, v2, v3, v4), v1, v2, v3, w, 3) == v4
  {
    hide Add, Sub, Rotl1, Rotl7, Rotl12, Rotl18, Rotr1, Rotr7, Rotr12, Rotr18;
    var a, b, c, d := Rotl1(v1), Rotl7(v2), Rotl12(v3), Rotl18(v4);
    UndoAdd(d, Add(Add(a, b), c));
    UndoAdd(c, Add(a, b));
    UndoAdd(b, a);
    UndoAdd(a, b);
    UndoAdd(Add(a, b), c);
    UndoAdd(Add(Add(a, b), c), d);
    UndoRotl1(v1);
    UndoRotl7(v2);
    UndoRotl12(v3);
    UndoRotl18(v4);
  }

  // ---------- The word or byte that is missing ----------

  /** The state before the trailing bytes. */
  function BeforeTail(h: bv32, b: seq<byte>): bv32 {
    BytesBack(AvalancheBack(h), b, Aligned(|b|), 0, |b| - Aligned(|b|))
  }

  /** The state before the words behind the stripes, without those before the i-th. */
  function BeforeWords(h: bv32, b: seq<byte>, i: nat): bv32
    requires i <= WordsLeft(|b|)
  {
    WordsBack(BeforeTail(h, b), b, Striped(|b|), i, WordsLeft(|b|))
  }

  /** The state with which the words behind the stripes begin: what the stripes leave, and the length. */
  function WithLen(seed: bv32, b: seq<byte>): bv32 {
    Add(Start(seed, b), (|b| % 0x1_0000_0000) as bv32)
  }

  /** A word behind the stripes, its k-th. */
  function LooseWord(h: bv32, seed: bv32, b: seq<byte>, k: nat): bv32
    requires k < WordsLeft(|b|)
  {
    WordOf(AfterWords(WithLen(seed, b), b, Striped(|b|), k), BeforeWords(h, b, k + 1))
  }

  /** The sum of the lanes, from the hash and what comes behind the stripes. */
  function LaneSum(h: bv32, b: seq<byte>): bv32 {
    Sub(BeforeWords(h, b, 0), (|b| % 0x1_0000_0000) as bv32)
  }

  /** The word of a lane in stripe j. */
  function LaneWord(h: bv32, seed: bv32, b: seq<byte>, lane: nat, j: nat): bv32
    requires lane < 4 && 16 * j + 16 <= |b|
  {
    var n := |b| / 16;
    var v := MergeBack(LaneSum(h, b), Lane(seed, b, 0, n), Lane(seed, b, 1, n), Lane(seed, b, 2, n),
                       Lane(seed, b, 3, n), lane);
    RoundWord(Lane(seed, b, lane, j), LaneBack(v, b, lane, j + 1, n))
  }

  /** The byte at offset i, behind the words. */
  function TrailingByte(h: bv32, seed: bv32, b: seq<byte>, i: nat): byte
    requires Aligned(|b|) <= i < |b|
  {
    var p := Aligned(|b|);
    ByteOf(AfterBytes(AfterWords(WithLen(seed, b), b, Striped(|b|), WordsLeft(|b|)), b, p, i - p),
           BytesBack(AvalancheBack(h), b, p, i - p + 1, |b| - p))
  }

  lemma HashIs(seed: bv32, a: seq<byte>)
    ensures var p, k := Aligned(|a|), |a| - Aligned(|a|);
            Hash(seed, a)
            == Avalanche(AfterBytes(AfterWords(WithLen(seed, a), a, Striped(|a|), WordsLeft(|a|)), a, p, k))
  {
    hide Start, Add, AfterWords, AfterBytes, Avalanche;
  }

  lemma BeforeTailIs(seed: bv32, a: seq<byte>, b: seq<byte>)
    requires |a| == |b| && forall i :: Aligned(|a|) <= i < |a| ==> a[i] == b[i]
    ensures BeforeTail(Hash(seed, a), b) == AfterWords(WithLen(seed, a), a, Striped(|a|), WordsLeft(|a|))
  {
    hide Start, Add, AfterWords, BytesBack, Avalanche, AvalancheBack, Hash, TailByte;
    var h, p := AfterWords(WithLen(seed, a), a, Striped(|a|), WordsLeft(|a|)), Aligned(|a|);
    HashIs(seed, a);
    AvalancheBackIs(AfterBytes(h, a, p, |a| - p));
    BytesBackIs(h, a, b, p, 0, |a| - p);
  }

  lemma WordsAgree(a: seq<byte>, b: seq<byte>, p: nat, m: nat, s: nat, i: nat, k: nat)
    requires SameOutside(a, b, p, m) && s + 4 * k <= |a|
    requires forall j :: i <= j < k ==> s + 4 * j + 4 <= p || p + m <= s + 4 * j
    ensures SameWords(a, b, s, i, k)
  {
    hide WordAt;
    forall j | i <= j < k
      ensures WordAt(a, s + 4 * j) == WordAt(b, s + 4 * j)
    {
      SameWord(a, b, p, m, s + 4 * j);
    }
  }

  lemma LaneAgrees(a: seq<byte>, b: seq<byte>, lane: nat, j: nat, n: nat)
    requires lane < 4 && 16 * n <= |a| && SameOutside(a, b, 16 * j + 4 * lane, 4)
    ensures SameLane(a, b, lane, j + 1, n)
  {
    hide WordAt;
    forall i | j + 1 <= i < n
      ensures WordAt(a, 16 * i + 4 * lane) == WordAt(b, 16 * i + 4 * lane)
    {
      SameWord(a, b, 16 * j + 4 * lane, 4, 16 * i + 4 * lane);
    }
  }

  /** A word behind the stripes comes out of the hash and all other bytes. */
  lemma LooseWordIs(seed: bv32, a: seq<byte>, b: seq<byte>, k: nat)
    requires k < WordsLeft(|a|) && SameOutside(a, b, Striped(|a|) + 4 * k, 4)
    ensures LooseWord(Hash(seed, a), seed, b, k) == WordAt(a, Striped(|a|) + 4 * k)
  {
    hide *;
    var s, n := Striped(|a|), WordsLeft(|a|);
    var p := s + 4 * k;
    SameBehind(a, b, p);
    WordsAgree(a, b, p, 4, s, k + 1, n);
    WordsBackIs(WithLen(seed, a), a, b, s, k + 1, n);
    BeforeTailIs(seed, a, b);
    BeforeWordsIs(Hash(seed, a), b, k + 1);
    SameStart(seed, a, b, p, 4);
    AfterWordsSame(WithLen(seed, a), a, b, p, 4, s, k);
    LooseWordParts(Hash(seed, a), seed, b, k);
    AfterOneMore(WithLen(seed, a), a, s, k);
    WordBackIs(AfterWords(WithLen(seed, a), a, s, k), WordAt(a, p));
  }

  lemma SameBehind(a: seq<byte>, b: seq<byte>, p: nat)
    requires SameOutside(a, b, p, 4) && p + 4 <= Aligned(|a|)
    ensures |a| == |b| && forall i :: Aligned(|a|) <= i < |a| ==> a[i] == b[i]
  {
  }

  lemma BeforeWordsIs(h: bv32, b: seq<byte>, i: nat)
    requires i <= WordsLeft(|b|)
    ensures BeforeWords(h, b, i) == WordsBack(BeforeTail(h, b), b, Striped(|b|), i, WordsLeft(|b|))
  {
  }

  lemma LooseWordParts(h: bv32, seed: bv32, b: seq<byte>, k: nat)
    requires k < WordsLeft(|b|)
    ensures LooseWord(h, seed, b, k)
         == WordOf(AfterWords(WithLen(seed, b), b, Striped(|b|), k), BeforeWords(h, b, k + 1))
  {
  }

  lemma SameStart(seed: bv32, a: seq<byte>, b: seq<byte>, p: nat, m: nat)
    requires SameOutside(a, b, p, m) && Striped(|a|) <= p
    ensures WithLen(seed, a) == WithLen(seed, b)
  {
    hide *;
    SameLength(a, b, p, m);
    StartSame(seed, a, b, p, m);
    WithLenIs(seed, a);
    WithLenIs(seed, b);
  }

  lemma WithLenIs(seed: bv32, b: seq<byte>)
    ensures WithLen(seed, b) == Add(Start(seed, b), (|b| % 0x1_0000_0000) as bv32)
  {
  }

  /** A word of a stripe comes out of the hash and all other bytes. */
  lemma LaneWordIs(seed: bv32, a: seq<byte>, b: seq<byte>, lane: nat, j: nat)
    requires lane < 4 && 16 * j + 16 <= |a| && SameOutside(a, b, 16 * j + 4 * lane, 4)
    ensures LaneWord(Hash(seed, a), seed, b, lane, j) == WordAt(a, 16 * j + 4 * lane)
  {
    hide *;
    var p, n := 16 * j + 4 * lane, |a| / 16;
    assert j < n && 16 * n <= |a|;
    SameLength(a, b, p, 4);
    InStripes(|a|, j, lane);
    LaneSumIs(seed, a, b, p);
    OtherLanes(seed, a, b, lane, j, n);
    LaneAgrees(a, b, lane, j, n);
    LaneBackIs(seed, a, b, lane, j + 1, n);
    LaneSame(seed, a, b, p, 4, lane, j);
    LaneStep(seed, a, lane, j);
    RoundBackIs(Lane(seed, a, lane, j), WordAt(a, p));
    LaneWordParts(Hash(seed, a), seed, b, lane, j);
  }

  lemma SameLength(a: seq<byte>, b: seq<byte>, p: nat, m: nat)
    requires SameOutside(a, b, p, m)
    ensures |a| == |b|
  {
  }

  lemma InStripes(len: nat, j: nat, lane: nat)
    requires lane < 4 && 16 * j + 16 <= len
    ensures 16 * j + 4 * lane + 4 <= Striped(len)
  {
    assert j < len / 16;
  }

  lemma LaneStep(seed: bv32, a: seq<byte>, lane: nat, j: nat)
    requires lane < 4 && 16 * j + 16 <= |a|
    ensures Lane(seed, a, lane, j + 1) == Round(Lane(seed, a, lane, j), WordAt(a, 16 * j + 4 * lane))
  {
    hide Round, WordAt;
  }

  lemma LaneWordParts(h: bv32, seed: bv32, b: seq<byte>, lane: nat, j: nat)
    requires lane < 4 && 16 * j + 16 <= |b|
    ensures var n := |b| / 16;
            var v := MergeBack(LaneSum(h, b), Lane(seed, b, 0, n), Lane(seed, b, 1, n), Lane(seed, b, 2, n),
                               Lane(seed, b, 3, n), lane);
            LaneWord(h, seed, b, lane, j) == RoundWord(Lane(seed, b, lane, j), LaneBack(v, b, lane, j + 1, n))
  {
    hide Lane, MergeBack, LaneSum, RoundWord, LaneBack;
  }

  /** What is left of the hash without the words, the bytes and the length. */
  lemma LaneSumIs(seed: bv32, a: seq<byte>, b: seq<byte>, p: nat)
    requires SameOutside(a, b, p, 4) && p + 4 <= Striped(|a|)
    ensures LaneSum(Hash(seed, a), b) == Start(seed, a)
  {
    hide *;
    var s, n := Striped(|a|), WordsLeft(|a|);
    SameBehind(a, b, p);
    WordsAgree(a, b, p, 4, s, 0, n);
    WordsBackIs(WithLen(seed, a), a, b, s, 0, n);
    BeforeTailIs(seed, a, b);
    BeforeWordsIs(Hash(seed, a), b, 0);
    AfterNone(WithLen(seed, a), a, s);
    LengthOff(seed, a, b);
  }

  lemma LengthOff(seed: bv32, a: seq<byte>, b: seq<byte>)
    requires |a| == |b| && BeforeWords(Hash(seed, a), b, 0) == WithLen(seed, a)
    ensures LaneSum(Hash(seed, a), b) == Start(seed, a)
  {
    hide Hash, BeforeWords, Start, Add, Sub;
    UndoAdd((|a| % 0x1_0000_0000) as bv32, Start(seed, a));
  }

  /** The lane with the word, from the sum and the lanes of a buffer that may differ in that word. */
  lemma OtherLanes(seed: bv32, a: seq<byte>, b: seq<byte>, lane: nat, j: nat, n: nat)
    requires lane < 4 && j < n == |a| / 16 && SameOutside(a, b, 16 * j + 4 * lane, 4)
    ensures MergeBack(Start(seed, a), Lane(seed, b, 0, n), Lane(seed, b, 1, n), Lane(seed, b, 2, n),
                      Lane(seed, b, 3, n), lane) == Lane(seed, a, lane, n)
  {
    hide *;
    var p := 16 * j + 4 * lane;
    SameLength(a, b, p, 4);
    StartIs(seed, a, n);
    if lane != 0 { LaneSame(seed, a, b, p, 4, 0, n); }
    if lane != 1 { LaneSame(seed, a, b, p, 4, 1, n); }
    if lane != 2 { LaneSame(seed, a, b, p, 4, 2, n); }
    if lane != 3 { LaneSame(seed, a, b, p, 4, 3, n); }
    MergeBackIs(Lane(seed, a, 0, n), Lane(seed, a, 1, n), Lane(seed, a, 2, n), Lane(seed, a, 3, n),
                Lane(seed, b, lane, n));
  }

  // ---------- The inverse ----------

  /** The aligned word at offset p, from the hash, the seed, and the other bytes of b. */
  function WordFrom(h: bv32, seed: bv32, b: seq<byte>, p: nat): bv32
    requires p % 4 == 0 && p + 4 <= |b|
  {
    if p < Striped(|b|) then
      InStripe(|b|, p);
      LaneWord(h, seed, b, (p % 16) / 4, p / 16)
    else
      BehindStripes(|b|, p);
      LooseWord(h, seed, b, (p - Striped(|b|)) / 4)
  }

  /** For every seed, length and place an aligned word is recovered from the hash and the other bytes. */
  lemma WordRecovered(seed: bv32, a: seq<byte>, b: seq<byte>, p: nat)
    requires p % 4 == 0 && p + 4 <= |a| && SameOutside(a, b, p, 4)
    ensures WordFrom(Hash(seed, a), seed, b, p) == WordAt(a, p)
  {
    hide Hash, LaneWord, LooseWord, WordAt, Striped, WordsLeft;
    if p < Striped(|b|) {
      InStripe(|b|, p);
      LaneWordIs(seed, a, b, (p % 16) / 4, p / 16);
    } else {
      BehindStripes(|b|, p);
      LooseWordIs(seed, a, b, (p - Striped(|b|)) / 4);
    }
  }

  /** Two buffers that differ in one trailing byte have the same words. */
  lemma SameBefore(seed: bv32, a: seq<byte>, b: seq<byte>, i: nat)
    requires Aligned(|a|) <= i < |a| && SameOutside(a, b, i, 1)
    ensures AfterWords(WithLen(seed, a), a, Striped(|a|), WordsLeft(|a|))
         == AfterWords(WithLen(seed, b), b, Striped(|b|), WordsLeft(|b|))
  {
    hide *;
    SameLength(a, b, i, 1);
    StripedIs(|a|);
    SameStart(seed, a, b, i, 1);
    AfterWordsSame(WithLen(seed, a), a, b, i, 1, Striped(|a|), WordsLeft(|a|));
  }

  lemma TrailingByteParts(h: bv32, seed: bv32, b: seq<byte>, i: nat)
    requires Aligned(|b|) <= i < |b|
    ensures var p, g := Aligned(|b|), AfterWords(WithLen(seed, b), b, Striped(|b|), WordsLeft(|b|));
            TrailingByte(h, seed, b, i)
            == ByteOf(AfterBytes(g, b, p, i - p), BytesBack(AvalancheBack(h), b, p, i - p + 1, |b| - p))
  {
    hide AfterWords, AfterBytes, BytesBack;
  }

  lemma BytesAgree(a: seq<byte>, b: seq<byte>, i: nat)
    requires Aligned(|a|) <= i < |a| && SameOutside(a, b, i, 1)
    ensures |a| == |b| && forall q :: 0 <= q < |a| && q != i ==> a[q] == b[q]
  {
  }

  /** And so is a trailing byte. */
  lemma ByteRecovered(seed: bv32, a: seq<byte>, b: seq<byte>, i: nat)
    requires Aligned(|a|) <= i < |a| && SameOutside(a, b, i, 1)
    ensures TrailingByte(Hash(seed, a), seed, b, i) == a[i]
  {
    hide *;
    var p, k := Aligned(|a|), i - Aligned(|a|);
    var h := AfterWords(WithLen(seed, a), a, Striped(|a|), WordsLeft(|a|));
    BytesAgree(a, b, i);
    HashIs(seed, a);
    AvalancheBackIs(AfterBytes(h, a, p, |a| - p));
    BytesBackIs(h, a, b, p, k + 1, |a| - p);
    AfterOneMore(h, a, p, k);
    ByteBackIs(AfterBytes(h, a, p, k), a[i]);
    SameBefore(seed, a, b, i);
    AfterBytesSame(h, a, b, p, k);
    TrailingByteParts(Hash(seed, a), seed, b, i);
  }
}
