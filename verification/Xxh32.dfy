/**
  The 32-bit xxHash of hash.c: four lanes over 16-byte stripes, then the words and bytes that are
  left, then an avalanche. Every step is a bijection, so inputs of one length that differ in a
  single lane or trailing byte never collide.
*/
module Xxh32 {
  import opened Machine
  import opened Words
  import opened Mod32

  // ---------- Steps ----------

  function Round(acc: bv32, input: bv32): bv32 {
    Mul(Rotl13(Add(acc, Mul(input, PRIME2))), PRIME1)
  }

  /** The four lanes at the end of the stripes, summed. */
  function Merge(v1: bv32, v2: bv32, v3: bv32, v4: bv32): bv32 {
    Add(Add(Add(Rotl1(v1), Rotl7(v2)), Rotl12(v3)), Rotl18(v4))
  }

  /** One 4-byte word behind the stripes. */
  function TailWord(h: bv32, w: bv32): bv32 {
    Mul(Rotl17(Add(h, Mul(w, PRIME3))), PRIME4)
  }

  /** One byte behind the words. */
  function TailByte(h: bv32, b: byte): bv32 {
    Mul(Rotl11(Add(h, Mul(b as bv32, PRIME5))), PRIME1)
  }

  function Avalanche(h: bv32): bv32 {
    Mix16(Mul(Mix13(Mul(Mix15(h), PRIME2)), PRIME3))
  }

  // ---------- Every step is injective in each of its arguments ----------

  lemma RoundOfAcc(a: bv32, b: bv32, x: bv32)
    requires Round(a, x) == Round(b, x)
    ensures a == b
  {
    hide Mul, Rotl13, Add, Rotr13, Sub;
    var m := Mul(x, PRIME2);
    UndoMul1(Rotl13(Add(a, m)));
    UndoMul1(Rotl13(Add(b, m)));
    UndoRotl13(Add(a, m));
    UndoRotl13(Add(b, m));
    UndoAdd(m, a);
    UndoAdd(m, b);
  }

  lemma RoundOfInput(a: bv32, x: bv32, y: bv32)
    requires Round(a, x) == Round(a, y)
    ensures x == y
  {
    hide Mul, Rotl13, Add, Rotr13, Sub;
    var m, n := Mul(x, PRIME2), Mul(y, PRIME2);
    UndoMul1(Rotl13(Add(a, m)));
    UndoMul1(Rotl13(Add(a, n)));
    UndoRotl13(Add(a, m));
    UndoRotl13(Add(a, n));
    UndoAdd(a, m);
    UndoAdd(a, n);
    UndoMul2(x);
    UndoMul2(y);
  }

  lemma TailWordOfHash(a: bv32, b: bv32, w: bv32)
    requires TailWord(a, w) == TailWord(b, w)
    ensures a == b
  {
    hide Mul, Rotl17, Add, Rotr17, Sub;
    var m := Mul(w, PRIME3);
    UndoMul4(Rotl17(Add(a, m)));
    UndoMul4(Rotl17(Add(b, m)));
    UndoRotl17(Add(a, m));
    UndoRotl17(Add(b, m));
    UndoAdd(m, a);
    UndoAdd(m, b);
  }

  lemma TailWordOfWord(h: bv32, v: bv32, w: bv32)
    requires TailWord(h, v) == TailWord(h, w)
    ensures v == w
  {
    hide Mul, Rotl17, Add, Rotr17, Sub;
    var m, n := Mul(v, PRIME3), Mul(w, PRIME3);
    UndoMul4(Rotl17(Add(h, m)));
    UndoMul4(Rotl17(Add(h, n)));
    UndoRotl17(Add(h, m));
    UndoRotl17(Add(h, n));
    UndoAdd(h, m);
    UndoAdd(h, n);
    UndoMul3(v);
    UndoMul3(w);
  }

  lemma TailByteOfHash(a: bv32, b: bv32, c: byte)
    requires TailByte(a, c) == TailByte(b, c)
    ensures a == b
  {
    hide Mul, Rotl11, Add, Rotr11, Sub;
    var m := Mul(c as bv32, PRIME5);
    UndoMul1(Rotl11(Add(a, m)));
    UndoMul1(Rotl11(Add(b, m)));
    UndoRotl11(Add(a, m));
    UndoRotl11(Add(b, m));
    UndoAdd(m, a);
    UndoAdd(m, b);
  }

  lemma TailByteOfByte(h: bv32, c: byte, d: byte)
    requires TailByte(h, c) == TailByte(h, d)
    ensures c == d
  {
    hide Mul, Rotl11, Add, Rotr11, Sub;
    var m, n := Mul(c as bv32, PRIME5), Mul(d as bv32, PRIME5);
    UndoMul1(Rotl11(Add(h, m)));
    UndoMul1(Rotl11(Add(h, n)));
    UndoRotl11(Add(h, m));
    UndoRotl11(Add(h, n));
    UndoAdd(h, m);
    UndoAdd(h, n);
    UndoMul5(c as bv32);
    UndoMul5(d as bv32);
  }

  lemma AvalancheInjective(g: bv32, h: bv32)
    requires Avalanche(g) == Avalanche(h)
    ensures g == h
  {
    hide Mul, Mix15, Mix13, Mix16, Unmix15, Unmix13, Unmix16;
    UndoMix16(Mul(Mix13(Mul(Mix15(g), PRIME2)), PRIME3));
    UndoMix16(Mul(Mix13(Mul(Mix15(h), PRIME2)), PRIME3));
    UndoMul3(Mix13(Mul(Mix15(g), PRIME2)));
    UndoMul3(Mix13(Mul(Mix15(h), PRIME2)));
    UndoMix13(Mul(Mix15(g), PRIME2));
    UndoMix13(Mul(Mix15(h), PRIME2));
    UndoMul2(Mix15(g));
    UndoMul2(Mix15(h));
    UndoMix15(g);
    UndoMix15(h);
  }

  /** Merging lanes of which exactly one differs gives different sums. */
  lemma MergeInjective(v1: bv32, v2: bv32, v3: bv32, v4: bv32, w: bv32)
    ensures Merge(v1, v2, v3, v4) == Merge(w, v2, v3, v4) ==> v1 == w
    ensures Merge(v1, v2, v3, v4) == Merge(v1, w, v3, v4) ==> v2 == w
    ensures Merge(v1, v2, v3, v4) == Merge(v1, v2, w, v4) ==> v3 == w
    ensures Merge(v1, v2, v3, v4) == Merge(v1, v2, v3, w) ==> v4 == w
  {
    hide Add, Sub, Rotl1, Rotl7, Rotl12, Rotl18, Rotr1, Rotr7, Rotr12, Rotr18;
    var a, b, c, d := Rotl1(v1), Rotl7(v2), Rotl12(v3), Rotl18(v4);
    UndoAdd(d, Add(Add(a, b), c));
    UndoAdd(c, Add(a, b));
    UndoAdd(b, a);
    UndoAdd(a, b);
    UndoAdd(Add(a, b), c);
    UndoAdd(Add(Add(a, b), c), d);
    UndoAdd(d, Add(Add(Rotl1(w), b), c));
    UndoAdd(c, Add(Rotl1(w), b));
    UndoAdd(b, Rotl1(w));
    UndoAdd(d, Add(Add(a, Rotl7(w)), c));
    UndoAdd(c, Add(a, Rotl7(w)));
    UndoAdd(a, Rotl7(w));
    UndoAdd(d, Add(Add(a, b), Rotl12(w)));
    UndoAdd(Add(a, b), Rotl12(w));
    UndoAdd(Add(Add(a, b), c), Rotl18(w));
    UndoRotl1(v1);
    UndoRotl1(w);
    UndoRotl7(v2);
    UndoRotl7(w);
    UndoRotl12(v3);
    UndoRotl12(w);
    UndoRotl18(v4);
    UndoRotl18(w);
  }

  // ---------- The hash ----------

  /** What lane 0 to 3 starts from. */
  function LaneSeed(seed: bv32, lane: nat): bv32 {
    if lane == 0 then Add(Add(seed, PRIME1), PRIME2)
    else if lane == 1 then Add(seed, PRIME2)
    else if lane == 2 then seed
    else Sub(seed, PRIME1)
  }

  function WordAt(buf: seq<byte>, p: nat): bv32
    requires p + 4 <= |buf|
  {
    Word(buf[p..p + 4])
  }

  /** A lane after n stripes. */
  function Lane(seed: bv32, buf: seq<byte>, lane: nat, n: nat): bv32
    requires lane < 4 && 16 * n <= |buf|
    decreases n
  {
    if n == 0 then LaneSeed(seed, lane)
    else Round(Lane(seed, buf, lane, n - 1), WordAt(buf, 16 * (n - 1) + 4 * lane))
  }

  function Start(seed: bv32, buf: seq<byte>): bv32 {
    var n := |buf| / 16;
    if |buf| >= 16
    then Merge(Lane(seed, buf, 0, n), Lane(seed, buf, 1, n), Lane(seed, buf, 2, n), Lane(seed, buf, 3, n))
    else Add(seed, PRIME5)
  }

  /** h after k words from offset p on. */
  function AfterWords(h: bv32, buf: seq<byte>, p: nat, k: nat): bv32
    requires p + 4 * k <= |buf|
    decreases k
  {
    if k == 0 then h else TailWord(AfterWords(h, buf, p, k - 1), WordAt(buf, p + 4 * (k - 1)))
  }

  /** h after k bytes from offset p on. */
  function AfterBytes(h: bv32, buf: seq<byte>, p: nat, k: nat): bv32
    requires p + k <= |buf|
    decreases k
  {
    if k == 0 then h else TailByte(AfterBytes(h, buf, p, k - 1), buf[p + k - 1])
  }

  /** The length as it is added, cut to 32 bits. */
  function LenWord(len: nat): bv32 {
    (len % 0x1_0000_0000) as bv32
  }

  function Striped(len: nat): nat {
    len / 16 * 16
  }

  function Aligned(len: nat): nat {
    len / 4 * 4
  }

  lemma QuarterIs(x: nat, t: nat)
    requires 4 * t <= x < 4 * t + 4
    ensures x / 4 == t
  {
  }

  /** How many words lie between the stripes and the trailing bytes. */
  function WordsLeft(len: nat): (k: nat)
    ensures Striped(len) + 4 * k == Aligned(len) <= len
  {
    var k := len % 16 / 4;
    QuarterIs(len, 4 * (len / 16) + k);
    k
  }

  function WithLength(seed: bv32, buf: seq<byte>): bv32 {
    Add(Start(seed, buf), LenWord(|buf|))
  }

  function BeforeBytes(seed: bv32, buf: seq<byte>): bv32 {
    AfterWords(WithLength(seed, buf), buf, Striped(|buf|), WordsLeft(|buf|))
  }

  function Hash(seed: bv32, buf: seq<byte>): bv32 {
    Avalanche(AfterBytes(BeforeBytes(seed, buf), buf, Aligned(|buf|), |buf| - Aligned(|buf|)))
  }

  /** The stripes of xxh32, at least one. */
  method Stripes(input: array<byte>, len: nat, seed: bv32) returns (h32: bv32, p: nat)
    requires 16 <= len <= input.Length
    ensures p == Striped(len) && h32 == Start(seed, input[..len])
  {
    hide Add, Sub, Merge, Round, WordAt;
    ghost var buf := input[..len];
    ghost var n := 0;
    p := 0;
    var limit := len - 16;
    var v1 := Add(Add(seed, PRIME1), PRIME2);
    var v2 := Add(seed, PRIME2);
    var v3 := seed;
    var v4 := Sub(seed, PRIME1);
    while true
      invariant p == 16 * n && p <= limit
      invariant v1 == Lane(seed, buf, 0, n) && v2 == Lane(seed, buf, 1, n)
      invariant v3 == Lane(seed, buf, 2, n) && v4 == Lane(seed, buf, 3, n)
      decreases len - p
    {
      v1 := RoundAt(v1, input, p, len);
      p := p + 4;
      v2 := RoundAt(v2, input, p, len);
      p := p + 4;
      v3 := RoundAt(v3, input, p, len);
      p := p + 4;
      v4 := RoundAt(v4, input, p, len);
      p := p + 4;
      n := n + 1;
      if !(p <= limit) {
        break;
      }
    }
    assert n == len / 16;
    h32 := Merge(v1, v2, v3, v4);
  }

  /** The words behind the stripes. */
  method TailWords(input: array<byte>, len: nat, from: nat, h: bv32) returns (h32: bv32, p: nat)
    requires len <= input.Length && from == Striped(len)
    ensures p == Aligned(len) && h32 == AfterWords(h, input[..len], from, WordsLeft(len))
  {
    hide TailWord, WordAt, Striped, Aligned, AfterWords;
    ghost var buf, k := input[..len], 0;
    h32, p := h, from;
    StripedIs(len);
    AfterNone(h, buf, from);
    while p + 4 <= len
      invariant p == from + 4 * k && p <= len
      invariant h32 == AfterWords(h, buf, from, k)
      decreases len - p
    {
      assert input[p..p + 4] == buf[p..p + 4];
      WordAtIs(buf, p);
      AfterOneMore(h, buf, from, k);
      h32 := TailWord(h32, Word(input[p..p + 4]));
      p := p + 4;
      k := k + 1;
    }
    assert k == WordsLeft(len);
  }

  lemma AfterNone(h: bv32, buf: seq<byte>, p: nat)
    requires p <= |buf|
    ensures AfterWords(h, buf, p, 0) == h && AfterBytes(h, buf, p, 0) == h
  {
  }

  lemma AfterOneMore(h: bv32, buf: seq<byte>, p: nat, k: nat)
    ensures p + 4 * k + 4 <= |buf| ==>
              AfterWords(h, buf, p, k + 1) == TailWord(AfterWords(h, buf, p, k), WordAt(buf, p + 4 * k))
    ensures p + k + 1 <= |buf| ==>
              AfterBytes(h, buf, p, k + 1) == TailByte(AfterBytes(h, buf, p, k), buf[p + k])
  {
    hide TailWord, TailByte, WordAt;
  }

  lemma StripedIs(len: nat)
    ensures Striped(len) <= len < Striped(len) + 16 && Aligned(len) <= len < Aligned(len) + 4
    ensures Striped(len) + 4 * WordsLeft(len) == Aligned(len)
  {
  }

  lemma StripedFours(len: nat)
    ensures Striped(len) % 4 == 0
  {
    FourTimes(4 * (len / 16));
  }

  lemma FourTimes(x: nat)
    ensures 4 * x % 4 == 0
  {
  }

  /** The trailing bytes. */
  method TailBytes(input: array<byte>, len: nat, from: nat, h: bv32) returns (h32: bv32)
    requires from <= len <= input.Length
    ensures h32 == AfterBytes(h, input[..len], from, len - from)
  {
    hide TailByte, AfterBytes;
    ghost var buf, k := input[..len], 0;
    h32 := h;
    var p := from;
    AfterNone(h, buf, from);
    while p < len
      invariant p == from + k && p <= len
      invariant h32 == AfterBytes(h, buf, from, k)
      decreases len - p
    {
      AfterOneMore(h, buf, from, k);
      assert input[p] == buf[from + k];
      h32 := TailByte(h32, input[p]);
      p := p + 1;
      k := k + 1;
    }
  }

  /** xxh32: the loops of the source, over the first len bytes of a buffer. */
  method Xxh32(input: array<byte>, len: nat, seed: bv32) returns (h32: bv32)
    requires len <= input.Length
    ensures h32 == Hash(seed, input[..len])
  {
    hide Add, Merge, Lane, AfterWords, AfterBytes, Avalanche, LenWord;
    var p: nat := 0;
    if len >= 16 {
      h32, p := Stripes(input, len, seed);
    } else {
      h32 := Add(seed, PRIME5);
    }
    h32 := Add(h32, LenWord(len));
    h32, p := TailWords(input, len, p, h32);
    h32 := TailBytes(input, len, p, h32);
    h32 := Avalanche(h32);
  }

  lemma WordAtIs(buf: seq<byte>, p: nat)
    requires p + 4 <= |buf|
    ensures WordAt(buf, p) == Word(buf[p..p + 4])
  {
  }

  method RoundAt(acc: bv32, input: array<byte>, p: nat, ghost len: nat) returns (v: bv32)
    requires p + 4 <= len <= input.Length
    ensures v == Round(acc, WordAt(input[..len], p))
  {
    hide Round, Word;
    assert input[..len][p..p + 4] == input[p..p + 4];
    v := Round(acc, Word(input[p..p + 4]));
  }

  // ---------- Neighbours never collide ----------

  /** Equal length, and equal outside the m bytes from p on. */
  predicate SameOutside(a: seq<byte>, b: seq<byte>, p: nat, m: nat) {
    |a| == |b| && forall i :: 0 <= i < |a| && !(p <= i < p + m) ==> a[i] == b[i]
  }

  lemma SameWord(a: seq<byte>, b: seq<byte>, p: nat, m: nat, q: nat)
    requires SameOutside(a, b, p, m) && q + 4 <= |a| && (q + 4 <= p || p + m <= q)
    ensures WordAt(a, q) == WordAt(b, q)
  {
    hide Word;
    assert a[q..q + 4] == b[q..q + 4];
  }

  lemma OtherWord(a: seq<byte>, b: seq<byte>, p: nat)
    requires SameOutside(a, b, p, 4) && p + 4 <= |a| && a != b
    ensures WordAt(a, p) != WordAt(b, p)
  {
    hide Word;
    if a[p..p + 4] == b[p..p + 4] {
      forall i | 0 <= i < |a| ensures a[i] == b[i] {
        if p <= i < p + 4 {
          assert a[i] == a[p..p + 4][i - p];
        }
      }
      assert false;
    }
    if WordAt(a, p) == WordAt(b, p) {
      WordIsInjective(a[p..p + 4], b[p..p + 4]);
    }
  }

  /** A lane that a difference at p does not belong to is the same for both. */
  lemma {:induction false} LaneSame(seed: bv32, a: seq<byte>, b: seq<byte>, p: nat, m: nat, lane: nat, n: nat)
    requires SameOutside(a, b, p, m) && lane < 4 && 16 * n <= |a|
    requires forall j :: 0 <= j < n ==> 16 * j + 4 * lane + 4 <= p || p + m <= 16 * j + 4 * lane
    ensures Lane(seed, a, lane, n) == Lane(seed, b, lane, n)
    decreases n
  {
    hide Round, WordAt;
    if n > 0 {
      LaneSame(seed, a, b, p, m, lane, n - 1);
      SameWord(a, b, p, m, 16 * (n - 1) + 4 * lane);
    }
  }

  /** The lane that a differing word belongs to differs from its stripe on. */
  lemma {:induction false} LaneDiffers(seed: bv32, a: seq<byte>, b: seq<byte>, j: nat, lane: nat, n: nat)
    requires lane < 4 && j < n && 16 * n <= |a|
    requires SameOutside(a, b, 16 * j + 4 * lane, 4) && a != b
    ensures Lane(seed, a, lane, n) != Lane(seed, b, lane, n)
    decreases n
  {
    hide Round, WordAt;
    var p := 16 * j + 4 * lane;
    var x, y := Lane(seed, a, lane, n - 1), Lane(seed, b, lane, n - 1);
    var q := 16 * (n - 1) + 4 * lane;
    if j == n - 1 {
      LaneSame(seed, a, b, p, 4, lane, n - 1);
      OtherWord(a, b, p);
      if Round(x, WordAt(a, q)) == Round(x, WordAt(b, q)) {
        RoundOfInput(x, WordAt(a, q), WordAt(b, q));
      }
    } else {
      LaneDiffers(seed, a, b, j, lane, n - 1);
      SameWord(a, b, p, 4, q);
      if Round(x, WordAt(a, q)) == Round(y, WordAt(a, q)) {
        RoundOfAcc(x, y, WordAt(a, q));
      }
    }
  }

  lemma {:induction false} AfterWordsDiffers(g: bv32, h: bv32, a: seq<byte>, b: seq<byte>, at: nat, m: nat, p: nat,
                                             k: nat)
    requires SameOutside(a, b, at, m) && p + 4 * k <= |a| && g != h
    requires at + m <= p || p + 4 * k <= at
    ensures AfterWords(g, a, p, k) != AfterWords(h, b, p, k)
    decreases k
  {
    hide TailWord, WordAt;
    if k > 0 {
      AfterWordsDiffers(g, h, a, b, at, m, p, k - 1);
      var q := p + 4 * (k - 1);
      SameWord(a, b, at, m, q);
      var x, y := AfterWords(g, a, p, k - 1), AfterWords(h, b, p, k - 1);
      if TailWord(x, WordAt(a, q)) == TailWord(y, WordAt(a, q)) {
        TailWordOfHash(x, y, WordAt(a, q));
      }
    }
  }

  lemma {:induction false} AfterWordsSame(h: bv32, a: seq<byte>, b: seq<byte>, at: nat, m: nat, p: nat, k: nat)
    requires SameOutside(a, b, at, m) && p + 4 * k <= |a|
    requires at + m <= p || p + 4 * k <= at
    ensures AfterWords(h, a, p, k) == AfterWords(h, b, p, k)
    decreases k
  {
    hide TailWord, WordAt;
    if k > 0 {
      AfterWordsSame(h, a, b, at, m, p, k - 1);
      SameWord(a, b, at, m, p + 4 * (k - 1));
    }
  }

  /** A differing word behind the stripes shows in everything after it. */
  lemma {:induction false} WordShows(h: bv32, a: seq<byte>, b: seq<byte>, j: nat, p: nat, k: nat)
    requires j < k && p + 4 * k <= |a|
    requires SameOutside(a, b, p + 4 * j, 4) && a != b
    ensures AfterWords(h, a, p, k) != AfterWords(h, b, p, k)
    decreases k
  {
    hide TailWord, WordAt;
    var q := p + 4 * (k - 1);
    var x, y := AfterWords(h, a, p, k - 1), AfterWords(h, b, p, k - 1);
    if j == k - 1 {
      AfterWordsSame(h, a, b, p + 4 * j, 4, p, k - 1);
      OtherWord(a, b, q);
      if TailWord(x, WordAt(a, q)) == TailWord(x, WordAt(b, q)) {
        TailWordOfWord(x, WordAt(a, q), WordAt(b, q));
      }
    } else {
      WordShows(h, a, b, j, p, k - 1);
      SameWord(a, b, p + 4 * j, 4, q);
      if TailWord(x, WordAt(a, q)) == TailWord(y, WordAt(a, q)) {
        TailWordOfHash(x, y, WordAt(a, q));
      }
    }
  }

  lemma {:induction false} AfterBytesDiffers(g: bv32, h: bv32, a: seq<byte>, b: seq<byte>, p: nat, k: nat)
    requires |a| == |b| && p + k <= |a| && g != h
    requires forall i :: p <= i < p + k ==> a[i] == b[i]
    ensures AfterBytes(g, a, p, k) != AfterBytes(h, b, p, k)
    decreases k
  {
    hide TailByte;
    if k > 0 {
      AfterBytesDiffers(g, h, a, b, p, k - 1);
      var x, y := AfterBytes(g, a, p, k - 1), AfterBytes(h, b, p, k - 1);
      if TailByte(x, a[p + k - 1]) == TailByte(y, a[p + k - 1]) {
        TailByteOfHash(x, y, a[p + k - 1]);
      }
    }
  }

  lemma {:induction false} ByteShows(h: bv32, a: seq<byte>, b: seq<byte>, i: nat, p: nat, k: nat)
    requires |a| == |b| && p <= i < p + k <= |a| && a[i] != b[i]
    requires forall q :: p <= q < p + k && q != i ==> a[q] == b[q]
    ensures AfterBytes(h, a, p, k) != AfterBytes(h, b, p, k)
    decreases k
  {
    hide TailByte;
    var x, y := AfterBytes(h, a, p, k - 1), AfterBytes(h, b, p, k - 1);
    var c, d := a[p + k - 1], b[p + k - 1];
    if i == p + k - 1 {
      AfterBytesSame(h, a, b, p, k - 1);
      if TailByte(x, c) == TailByte(x, d) {
        TailByteOfByte(x, c, d);
      }
    } else {
      ByteShows(h, a, b, i, p, k - 1);
      if TailByte(x, c) == TailByte(y, c) {
        TailByteOfHash(x, y, c);
      }
    }
  }

  lemma {:induction false} AfterBytesSame(h: bv32, a: seq<byte>, b: seq<byte>, p: nat, k: nat)
    requires |a| == |b| && p + k <= |a|
    requires forall i :: p <= i < p + k ==> a[i] == b[i]
    ensures AfterBytes(h, a, p, k) == AfterBytes(h, b, p, k)
    decreases k
  {
    hide TailByte;
    if k > 0 {
      AfterBytesSame(h, a, b, p, k - 1);
    }
  }

  lemma StartSame(seed: bv32, a: seq<byte>, b: seq<byte>, p: nat, m: nat)
    requires SameOutside(a, b, p, m) && Striped(|a|) <= p
    ensures Start(seed, a) == Start(seed, b)
  {
    hide Lane, Merge, Add;
    var n := |a| / 16;
    LaneSame(seed, a, b, p, m, 0, n);
    LaneSame(seed, a, b, p, m, 1, n);
    LaneSame(seed, a, b, p, m, 2, n);
    LaneSame(seed, a, b, p, m, 3, n);
  }

  lemma StartIs(seed: bv32, buf: seq<byte>, n: nat)
    requires n == |buf| / 16 > 0
    ensures Start(seed, buf)
         == Merge(Lane(seed, buf, 0, n), Lane(seed, buf, 1, n), Lane(seed, buf, 2, n), Lane(seed, buf, 3, n))
  {
    hide Lane, Merge;
  }

  lemma StartDiffers(seed: bv32, a: seq<byte>, b: seq<byte>, j: nat, lane: nat)
    requires lane < 4 && 16 * j + 16 <= |a| == |b|
    requires SameOutside(a, b, 16 * j + 4 * lane, 4) && a != b
    ensures Start(seed, a) != Start(seed, b)
  {
    hide *;
    var n := |a| / 16;
    assert j < n && 16 * n <= |a|;
    var p := 16 * j + 4 * lane;
    StartIs(seed, a, n);
    StartIs(seed, b, n);
    if lane != 0 { LaneSame(seed, a, b, p, 4, 0, n); }
    if lane != 1 { LaneSame(seed, a, b, p, 4, 1, n); }
    if lane != 2 { LaneSame(seed, a, b, p, 4, 2, n); }
    if lane != 3 { LaneSame(seed, a, b, p, 4, 3, n); }
    LaneDiffers(seed, a, b, j, lane, n);
    MergeInjective(Lane(seed, a, 0, n), Lane(seed, a, 1, n), Lane(seed, a, 2, n), Lane(seed, a, 3, n),
                   Lane(seed, b, lane, n));
  }

  /** The stripe and the lane of an aligned word. */
  lemma InStripe(len: nat, p: nat)
    requires p % 4 == 0 && p < Striped(len)
    ensures var j, lane := p / 16, (p % 16) / 4;
            lane < 4 && 16 * j + 4 * lane == p && 16 * j + 16 <= len && p + 4 <= Striped(len)
  {
    StripeOf(len, p);
    LaneOf(p);
    hide Striped;
  }

  lemma StripeOf(len: nat, p: nat)
    requires p < Striped(len)
    ensures 16 * (p / 16) + 16 <= Striped(len) <= len
  {
    assert p / 16 < len / 16;
  }

  lemma LaneOf(p: nat)
    requires p % 4 == 0
    ensures (p % 16) / 4 < 4 && 16 * (p / 16) + 4 * ((p % 16) / 4) == p
  {
    assert p % 16 == 4 * (p / 4 - 4 * (p / 16));
  }

  /** The place of an aligned word behind the stripes. */
  lemma BehindStripes(len: nat, p: nat)
    requires p % 4 == 0 && Striped(len) <= p && p + 4 <= len
    ensures var k := (p - Striped(len)) / 4; k < WordsLeft(len) && Striped(len) + 4 * k == p
  {
    hide *;
    StripedIs(len);
    StripedFours(len);
    FoursBetween(Striped(len), p);
  }

  lemma FoursBetween(s: nat, p: nat)
    requires s % 4 == 0 && p % 4 == 0 && s <= p
    ensures s + 4 * ((p - s) / 4) == p
  {
  }

  lemma LengthCounts(seed: bv32, a: seq<byte>, b: seq<byte>)
    requires |a| == |b|
    ensures WithLength(seed, a) == WithLength(seed, b) <==> Start(seed, a) == Start(seed, b)
  {
    hide Start, Add, Sub, LenWord;
    UndoAdd(LenWord(|a|), Start(seed, a));
    UndoAdd(LenWord(|a|), Start(seed, b));
  }

  lemma BeforeBytesIs(seed: bv32, buf: seq<byte>)
    ensures Striped(|buf|) + 4 * WordsLeft(|buf|) <= |buf|
    ensures BeforeBytes(seed, buf) == AfterWords(WithLength(seed, buf), buf, Striped(|buf|), WordsLeft(|buf|))
  {
    hide AfterWords, WithLength;
  }

  lemma StripeShows(seed: bv32, a: seq<byte>, b: seq<byte>, p: nat)
    requires p % 4 == 0 && p < Striped(|a|) && |a| == |b|
    requires SameOutside(a, b, p, 4) && a != b
    ensures BeforeBytes(seed, a) != BeforeBytes(seed, b)
  {
    hide *;
    InStripe(|a|, p);
    StartDiffers(seed, a, b, p / 16, (p % 16) / 4);
    LengthCounts(seed, a, b);
    BeforeBytesIs(seed, a);
    BeforeBytesIs(seed, b);
    AfterWordsDiffers(WithLength(seed, a), WithLength(seed, b), a, b, p, 4, Striped(|a|), WordsLeft(|a|));
  }

  lemma LooseWordShows(seed: bv32, a: seq<byte>, b: seq<byte>, p: nat)
    requires p % 4 == 0 && Striped(|a|) <= p && p + 4 <= |a| == |b|
    requires SameOutside(a, b, p, 4) && a != b
    ensures BeforeBytes(seed, a) != BeforeBytes(seed, b)
  {
    hide *;
    BehindStripes(|a|, p);
    StartSame(seed, a, b, p, 4);
    LengthCounts(seed, a, b);
    BeforeBytesIs(seed, a);
    BeforeBytesIs(seed, b);
    WordShows(WithLength(seed, a), a, b, (p - Striped(|a|)) / 4, Striped(|a|), WordsLeft(|a|));
  }

  /** Inputs of one length that differ only inside one aligned 4-byte lane hash differently. */
  lemma LaneSeparates(seed: bv32, a: seq<byte>, b: seq<byte>, p: nat)
    requires p % 4 == 0 && p + 4 <= |a|
    requires SameOutside(a, b, p, 4) && a != b
    ensures Hash(seed, a) != Hash(seed, b)
  {
    hide BeforeBytes, Hash;
    if p < Striped(|a|) {
      StripeShows(seed, a, b, p);
    } else {
      LooseWordShows(seed, a, b, p);
    }
    assert p + 4 <= Aligned(|a|);
    FromBytesOn(seed, a, b);
  }

  /** What differs before the trailing bytes still differs at the end. */
  lemma FromBytesOn(seed: bv32, a: seq<byte>, b: seq<byte>)
    requires |a| == |b| && a[Aligned(|a|)..] == b[Aligned(|b|)..]
    requires BeforeBytes(seed, a) != BeforeBytes(seed, b)
    ensures Hash(seed, a) != Hash(seed, b)
  {
    hide BeforeBytes, AfterBytes, Avalanche;
    var p := Aligned(|a|);
    forall i | p <= i < |a| ensures a[i] == b[i] {
      assert a[i] == a[p..][i - p];
    }
    var g, h := BeforeBytes(seed, a), BeforeBytes(seed, b);
    AfterBytesDiffers(g, h, a, b, p, |a| - p);
    if Hash(seed, a) == Hash(seed, b) {
      AvalancheInjective(AfterBytes(g, a, p, |a| - p), AfterBytes(h, b, p, |a| - p));
    }
  }

  /** Inputs of one length that differ only in one trailing byte hash differently. */
  lemma ByteSeparates(seed: bv32, a: seq<byte>, b: seq<byte>, i: nat)
    requires Aligned(|a|) <= i < |a| && SameOutside(a, b, i, 1) && a[i] != b[i]
    ensures Hash(seed, a) != Hash(seed, b)
  {
    hide Start, Add, AfterWords, AfterBytes, Avalanche, LenWord;
    var len := |a|;
    StartSame(seed, a, b, i, 1);
    AfterWordsSame(WithLength(seed, a), a, b, i, 1, Striped(len), WordsLeft(len));
    var h, p := BeforeBytes(seed, a), Aligned(len);
    ByteShows(h, a, b, i, p, len - p);
    if Hash(seed, a) == Hash(seed, b) {
      AvalancheInjective(AfterBytes(h, a, p, len - p), AfterBytes(h, b, p, len - p));
    }
  }
}
