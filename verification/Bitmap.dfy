/**
  The bitmap extent allocator of map.c: searching, counting, setting and
  clearing runs of bits in a byte buffer. The buffer is an array<byte>; what
  it means is the bit string Contents(bm[..]).
*/
module Bitmap {
  import opened Bits
  import opened BitStrings
  import opened GapSizes
  import opened Machine

  const CLEARBIT := 0
  const SETBIT := 1

  /**
    The range test of the source, in 64-bit arithmetic, does not wrap around and accept a range that
    ends outside the bitmap.
  */
  predicate NoWrap(totalBits: nat, address: nat, n: nat) {
    address < totalBits && (address + n) % TWO_64 <= totalBits ==> address + n < TWO_64
  }

  /** Then the test says whether the range lies in the bitmap. */
  lemma RangeTest(totalBits: nat, address: nat, n: nat)
    requires NoWrap(totalBits, address, n)
    ensures address < totalBits ==> ((address + n) % TWO_64 > totalBits <==> address + n > totalBits)
  {
    ModAtMost(address + n);
  }

  lemma ModAtMost(x: nat)
    ensures 0 <= x % TWO_64 <= x && (x < TWO_64 ==> x % TWO_64 == x)
  {
  }

  // ---------- Bit strings ----------

  function Contents(bm: seq<byte>): (bits: seq<bool>)
    ensures |bits| == 8 * |bm|
    ensures forall k :: 0 <= k < |bits| ==> bits[k] == Bit(bm[k / 8], k % 8)
  {
    seq(8 * |bm|, k requires 0 <= k < 8 * |bm| => Bit(bm[k / 8], k % 8))
  }

  // ---------- Bytes ----------

  method ByteSetBits(start: nat, numbits: int, b: byte, clearOrSet: int) returns (r: byte)
    requires start < 31
    ensures forall j :: 0 <= j < 8 ==>
              Bit(r, j) == if start <= j < start + numbits then clearOrSet == SETBIT else Bit(b, j)
  {
    assert forall j :: 0 <= j < 8 ==> !Bit(0, j);
    hide Bit, Mask;
    var stop := start + numbits;
    var mask: byte := 0x00;
    if numbits <= 0 {
      return b;
    }
    if stop > 8 {
      stop := 8;
    }
    var i := start;
    while true
      invariant start <= i
      invariant i < stop || i == start
      invariant forall j :: 0 <= j < 8 ==> (Bit(mask, j) <==> start <= j < i)
      decreases stop - i
    {
      ghost var before := mask;
      mask := mask | Mask(i);
      AddMask(before, i, mask);
      i := i + 1;
      if !(i < stop) {
        break;
      }
    }
    if clearOrSet == SETBIT {
      r := b | mask;
    } else {
      r := b & !mask;
    }
    ApplyMask(b, mask, clearOrSet == SETBIT, r);
  }

  lemma AddMask(mask: byte, i: nat, m: byte)
    requires m == mask | Mask(i)
    ensures forall j :: 0 <= j < 8 ==> (Bit(m, j) <==> Bit(mask, j) || i == j)
  {
    forall j | 0 <= j < 8 ensures Bit(m, j) <==> Bit(mask, j) || i == j {
      MaskBit(i, j);
      OrBit(mask, Mask(i), j);
    }
  }

  lemma ApplyMask(b: byte, mask: byte, v: bool, r: byte)
    requires r == if v then b | mask else b & !mask
    ensures forall j :: 0 <= j < 8 ==> Bit(r, j) == if Bit(mask, j) then v else Bit(b, j)
  {
    forall j | 0 <= j < 8 ensures Bit(r, j) == if Bit(mask, j) then v else Bit(b, j) {
      OrBit(b, mask, j);
      AndNotBit(b, mask, j);
    }
  }

  method ByteGetBit(b: byte, bit: nat) returns (r: int)
    ensures r == if Bit(b, bit) then 1 else 0
  {
    var rc := b & Mask(bit);
    r := if rc == 0 then 0 else 1;
  }

  /** Counts the bits equal to clearOrSet from start on, at most numbits of them. */
  method ByteCountBits(start: nat, numbits: int, b: byte, clearOrSet: int) returns (count: nat)
    requires start < 8
    ensures numbits <= 0 ==> count == 0
    ensures numbits > 0 ==> count <= numbits && start + count <= 8
    ensures forall j :: start <= j < start + count ==> Bit(b, j) == (clearOrSet == SETBIT)
    ensures count < numbits && start + count < 8 ==> Bit(b, start + count) != (clearOrSet == SETBIT)
  {
    var stop := start + numbits;
    count := 0;
    if numbits <= 0 {
      return;
    }
    if stop > 8 {
      stop := 8;
    }
    var i := start;
    while true
      invariant start <= i < stop && i == start + count
      invariant forall j :: start <= j < i ==> Bit(b, j) == (clearOrSet == SETBIT)
      decreases stop - i
    {
      var mask := Mask(i);
      if mask & b != 0 {
        assert Bit(b, i);
        if clearOrSet == SETBIT {
          count := count + 1;
        } else {
          return;
        }
      } else {
        assert !Bit(b, i);
        if clearOrSet != SETBIT {
          count := count + 1;
        } else {
          return;
        }
      }
      i := i + 1;
      if !(i < stop) {
        break;
      }
    }
  }

  /** A run of n zero bits of b starting at g; bits past the byte are not looked at. */
  predicate ZerosFrom(b: byte, g: nat, n: int) {
    forall j :: g <= j < g + n && j < 8 ==> !Bit(b, j)
  }

  /**
    rc >= 0: the first run of numbits zeros that fits in the byte, at offset rc;
    rc == -2: none fits, but the byte ends in count > 0 zeros, a run that starts at 8 - count;
    rc == -1: no run fits and the last bit is set (or there is nothing to look for).
  */
  ghost predicate GapAnswer(b: byte, start: nat, numbits: int, rc: int, count: nat) {
    (numbits <= 0 ==> rc == -1 && count == 0) &&
    (rc >= 0 || rc == -1 || rc == -2) &&
    (rc >= 0 ==> start <= rc && rc + numbits <= 8 && count == numbits && ZerosFrom(b, rc, numbits)) &&
    (rc == -1 ==> count == 0) &&
    (rc == -1 && numbits > 0 && start < 8 ==> Bit(b, 7)) &&
    (rc == -2 ==> 0 < count < numbits && start <= 8 - count && ZerosFrom(b, 8 - count, count)) &&
    forall g :: start <= g < FirstFree(rc, count) && numbits > 0 ==> !ZerosFrom(b, g, numbits)
  }

  /**
    The scan has looked at the bits from start up to i: the last count of them are zeros, which begin at
    gapIndex, and no run begins before.
  */
  ghost predicate GapScan(b: byte, start: nat, numbits: int, i: nat, gapIndex: nat, count: nat) {
    start <= gapIndex <= i && (i <= 8 || i == start) && count == i - gapIndex < numbits &&
    ZerosFrom(b, gapIndex, count) && (i > start && count == 0 && i <= 8 ==> Bit(b, i - 1)) &&
    forall g :: start <= g < gapIndex ==> !ZerosFrom(b, g, numbits)
  }

  lemma GapStep(b: byte, start: nat, numbits: int, i: nat, gapIndex: nat, count: nat)
    requires GapScan(b, start, numbits, i, gapIndex, count) && i < 8
    ensures Bit(b, i) ==> GapScan(b, start, numbits, i + 1, i + 1, 0)
    ensures !Bit(b, i) && count + 1 < numbits ==> GapScan(b, start, numbits, i + 1, gapIndex, count + 1)
    ensures !Bit(b, i) && count + 1 == numbits ==> GapAnswer(b, start, numbits, gapIndex, count + 1)
  {
    hide Bit;
  }

  lemma GapEnd(b: byte, start: nat, numbits: int, i: nat, gapIndex: nat, count: nat)
    requires GapScan(b, start, numbits, i, gapIndex, count) && i >= 8
    ensures GapAnswer(b, start, numbits, if count == 0 then -1 else -2, count)
  {
    hide Bit;
  }

  lemma GapStart(b: byte, start: nat, numbits: int)
    ensures numbits > 0 ==> GapScan(b, start, numbits, start, start, 0)
    ensures numbits <= 0 ==> GapAnswer(b, start, numbits, -1, 0)
  {
    hide Bit;
  }

  lemma BitByMask(b: byte, i: nat)
    ensures Mask(i) & b != 0 <==> Bit(b, i)
  {
  }

  method ByteFindGap(start: nat, numbits: int, b: byte) returns (rc: int, count: nat)
    ensures GapAnswer(b, start, numbits, rc, count)
  {
    hide *;
    var foundGap := 0;
    var gapIndex := start;
    count := 0;
    GapStart(b, start, numbits);
    if numbits <= 0 {
      return -1, 0;
    }
    var i := start;
    while i < 8
      invariant GapScan(b, start, numbits, i, gapIndex, count)
      invariant foundGap == if count > 0 then 1 else 0
    {
      GapStep(b, start, numbits, i, gapIndex, count);
      BitByMask(b, i);
      ShortOf(b, start, numbits, i, gapIndex, count);
      var mask := Mask(i);
      i := i + 1;
      if mask & b != 0 {
        foundGap := 0;
        count := 0;
        gapIndex := i;
        continue;
      }
      foundGap := 1;
      count := count + 1;
      if count == numbits {
        return gapIndex, count;
      }
    }
    GapEnd(b, start, numbits, i, gapIndex, count);
    if foundGap == 0 {
      return -1, count;
    }
    return -2, count;
  }

  lemma ShortOf(b: byte, start: nat, numbits: int, i: nat, gapIndex: nat, count: nat)
    requires GapScan(b, start, numbits, i, gapIndex, count)
    ensures count < numbits
  {
  }

  /** The first offset that ByteFindGap's answer leaves open as the start of a run. */
  function FirstFree(rc: int, count: nat): int {
    if rc >= 0 then rc else 8 - count
  }

  // ---------- Bitmaps ----------

  method BmSetBit(bm: array<byte>, totalBits: nat, address: nat, clearOrSet: int) returns (rc: int)
    requires totalBits <= 8 * bm.Length
    modifies bm
    ensures rc == if address >= totalBits then -1 else 0
    ensures Contents(bm[..]) ==
            if rc == 0 then old(Contents(bm[..]))[address := clearOrSet == SETBIT] else old(Contents(bm[..]))
  {
    if address >= totalBits {
      return -1;
    }
    var location := address / 8;
    var bitToChange := address % 8;
    var b := bm[location];
    b := ByteSetBits(bitToChange, 1, b, clearOrSet);
    bm[location] := b;
    return 0;
  }

  method BmGetBit(bm: array<byte>, totalBits: nat, address: nat) returns (rc: int)
    requires totalBits <= 8 * bm.Length
    ensures address >= totalBits ==> rc == -1
    ensures address < totalBits ==> rc == if Contents(bm[..])[address] then 1 else 0
  {
    if address >= totalBits {
      return -1;
    }
    var location := address / 8;
    var bitToRead := address % 8;
    var b := bm[location];
    rc := ByteGetBit(b, bitToRead);
  }

  method Memset(bm: array<byte>, from: nat, b: byte, len: nat)
    requires from + len <= bm.Length
    modifies bm
    ensures forall i :: 0 <= i < bm.Length ==> bm[i] == if from <= i < from + len then b else old(bm[i])
  {
    var i := 0;
    while i < len
      invariant i <= len
      invariant forall j :: 0 <= j < bm.Length ==> bm[j] == if from <= j < from + i then b else old(bm[j])
    {
      bm[from + i] := b;
      i := i + 1;
    }
  }

  /** cur is orig with the bits in [a, p) replaced by v. */
  ghost predicate Painted(orig: seq<byte>, cur: seq<byte>, a: nat, p: nat, v: bool) {
    |cur| == |orig| &&
    forall i, j :: 0 <= i < |cur| && 0 <= j < 8 ==>
                     Bit(cur[i], j) == if a <= 8 * i + j < p then v else Bit(orig[i], j)
  }

  lemma PaintedIsFill(orig: seq<byte>, cur: seq<byte>, a: nat, n: nat, v: bool)
    requires a + n <= 8 * |orig|
    requires Painted(orig, cur, a, a + n, v)
    ensures Contents(cur) == Fill(Contents(orig), a, n, v)
  {
    forall k | 0 <= k < 8 * |cur|
      ensures Contents(cur)[k] == Fill(Contents(orig), a, n, v)[k]
    {
      assert Bit(cur[k / 8], k % 8) == if a <= k < a + n then v else Bit(orig[k / 8], k % 8);
    }
  }

  /** Setting m bits of byte i at offset o extends a painted stretch that ends there. */
  lemma PaintByte(orig: seq<byte>, cur: seq<byte>, a: nat, i: nat, o: nat, m: nat, v: bool, b: byte)
    requires a <= 8 * i + o && i < |cur| && o + m <= 8
    requires Painted(orig, cur, a, 8 * i + o, v)
    requires forall j :: 0 <= j < 8 ==> Bit(b, j) == if o <= j < o + m then v else Bit(cur[i], j)
    ensures Painted(orig, cur[i := b], a, 8 * i + o + m, v)
  {
    var next := cur[i := b];
    forall k, j | 0 <= k < |cur| && 0 <= j < 8
      ensures Bit(next[k], j) == if a <= 8 * k + j < 8 * i + o + m then v else Bit(orig[k], j)
    {
      assert Bit(cur[k], j) == if a <= 8 * k + j < 8 * i + o then v else Bit(orig[k], j);
    }
  }

  /** Overwriting m whole bytes from byte i on extends a painted stretch that ends there. */
  lemma PaintBytes(orig: seq<byte>, cur: seq<byte>, next: seq<byte>, a: nat, i: nat, m: nat, v: bool, b: byte)
    requires a <= 8 * i && i + m <= |cur|
    requires Painted(orig, cur, a, 8 * i, v)
    requires b == if v then 0xff else 0x00
    requires |next| == |cur|
    requires forall k :: 0 <= k < |cur| ==> next[k] == if i <= k < i + m then b else cur[k]
    ensures Painted(orig, next, a, 8 * (i + m), v)
  {
    forall k, j | 0 <= k < |cur| && 0 <= j < 8
      ensures Bit(next[k], j) == if a <= 8 * k + j < 8 * (i + m) then v else Bit(orig[k], j)
    {
      assert Bit(cur[k], j) == if a <= 8 * k + j < 8 * i then v else Bit(orig[k], j);
      FullByte(j);
    }
  }

  lemma FullByte(j: nat)
    requires j < 8
    ensures Bit(0xff, j) && !Bit(0x00, j)
  {
    Masks();
  }

  /** Reads byte location, sets or clears m of its bits from start on, and stores it back. */
  method UpdateByte(bm: array<byte>, location: nat, start: nat, m: nat, clearOrSet: int,
                    ghost orig: seq<byte>, ghost a: nat)
    requires location < bm.Length && start + m <= 8 && start < 8 && a <= 8 * location + start
    requires Painted(orig, bm[..], a, 8 * location + start, clearOrSet == SETBIT)
    modifies bm
    ensures Painted(orig, bm[..], a, 8 * location + start + m, clearOrSet == SETBIT)
  {
    ghost var before := bm[..];
    var b := bm[location];
    b := ByteSetBits(start, m, b, clearOrSet);
    PaintByte(orig, before, a, location, start, m, clearOrSet == SETBIT, b);
    bm[location] := b;
    assert bm[..] == before[location := b];
  }

  /** The unaligned first byte of an extent; what is left starts at a byte boundary. */
  method SetHead(bm: array<byte>, address: nat, n: nat, clearOrSet: int) returns (location: nat, pending: nat)
    requires 0 < n && address + n <= 8 * bm.Length
    modifies bm
    ensures pending <= n
    ensures pending > 0 ==> 8 * location + pending == address + n && address <= 8 * location
    ensures Painted(old(bm[..]), bm[..], address, address + n - pending, clearOrSet == SETBIT)
  {
    location := address / 8;
    pending := n;
    var aligned := address % 8;
    if aligned != 0 {
      var atStart;
      if aligned + n < 8 {
        atStart := n;
      } else {
        atStart := 8 - aligned;
      }
      UpdateByte(bm, location, aligned, atStart, clearOrSet, bm[..], address);
      pending := pending - atStart;
      location := location + 1;
    }
  }

  /** The whole bytes of what the head left; fewer than eight bits remain. */
  method SetBytes(bm: array<byte>, start: nat, n: nat, clearOrSet: int, ghost orig: seq<byte>, ghost a: nat)
    returns (location: nat, pending: nat)
    requires 8 * start + n <= 8 * bm.Length && a <= 8 * start
    requires clearOrSet == CLEARBIT || clearOrSet == SETBIT
    requires Painted(orig, bm[..], a, 8 * start, clearOrSet == SETBIT)
    modifies bm
    ensures pending < 8 && 8 * location + pending == 8 * start + n && a <= 8 * location
    ensures Painted(orig, bm[..], a, 8 * location, clearOrSet == SETBIT)
  {
    location, pending := start, n;
    var bytesToMark := pending / 8;
    if bytesToMark >= 1 {
      var fill: byte;
      if clearOrSet == 0 {
        fill := 0x00;
      } else {
        fill := 0xff;
      }
      ghost var before := bm[..];
      Memset(bm, location, fill, bytesToMark);
      PaintBytes(orig, before, bm[..], a, location, bytesToMark, clearOrSet == SETBIT, fill);
      location := location + bytesToMark;
      pending := pending - bytesToMark * 8;
    }
  }

  method BmSetExtent(bm: array<byte>, totalBits: nat, address: nat, n: nat, clearOrSet: int) returns (rc: int)
    requires totalBits <= 8 * bm.Length && NoWrap(totalBits, address, n)
    requires clearOrSet == CLEARBIT || clearOrSet == SETBIT
    modifies bm
    ensures rc == if address >= totalBits || address + n > totalBits then -1 else 0
    ensures Contents(bm[..]) ==
            if rc == 0 then Fill(old(Contents(bm[..])), address, n, clearOrSet == SETBIT) else old(Contents(bm[..]))
  {
    hide Painted, Contents, NoWrap;
    RangeTest(totalBits, address, n);
    ghost var orig, v := bm[..], clearOrSet == SETBIT;
    if address >= totalBits || (address + n) % TWO_64 > totalBits {
      return -1;
    }
    assert address < totalBits && address + n <= totalBits;
    FillShort(Contents(orig), address, v);
    if n == 0 {
      return 0;
    }
    if n == 1 {
      rc := BmSetBit(bm, totalBits, address, clearOrSet);
      return;
    }
    var location, pending := SetHead(bm, address, n, clearOrSet);
    if pending == 0 {
      PaintedIsFill(orig, bm[..], address, n, v);
      return 0;
    }
    location, pending := SetBytes(bm, location, pending, clearOrSet, orig, address);
    if pending == 0 {
      PaintedIsFill(orig, bm[..], address, n, v);
      return 0;
    }
    var extra := pending % 8;
    if extra >= 1 {
      UpdateByte(bm, location, 0, extra, clearOrSet, orig, address);
      pending := pending - extra;
      if pending == 0 {
        PaintedIsFill(orig, bm[..], address, n, v);
        return 0;
      }
    }
    return -2;
  }

  /** Extends a stretch of matching bits by the first m bits of byte i from offset o on. */
  lemma ExtendAllEq(bm: seq<byte>, a: nat, i: nat, o: nat, m: nat, v: bool)
    requires i < |bm| && o + m <= 8 && a <= 8 * i + o
    requires AllEq(Contents(bm), a, 8 * i + o - a, v)
    requires forall j :: o <= j < o + m ==> Bit(bm[i], j) == v
    ensures AllEq(Contents(bm), a, 8 * i + o + m - a, v)
  {
    var bits := Contents(bm);
    forall k | 8 * i + o <= k < 8 * i + o + m
      ensures bits[k] == v
    {
      assert Bit(bm[i], k - 8 * i) == v;
    }
  }

  /**
    After a stretch of matching bits up to offset o of byte i, m more match: m is a lower bound
    for what is left of the longest stretch, exact if the range ends there or the next bit
    of the byte differs.
  */
  lemma EndInByte(bm: seq<byte>, a: nat, i: nat, o: nat, n: nat, m: nat, v: bool)
    requires a <= 8 * i + o && i < |bm| && o + m <= 8 && 8 * i + o + m <= a + n <= 8 * |bm|
    requires AllEq(Contents(bm), a, 8 * i + o - a, v)
    requires forall j :: o <= j < o + m ==> Bit(bm[i], j) == v
    ensures 8 * i + o + m - a <= PrefixLen(Contents(bm), a, n, v)
    ensures 8 * i + o + m == a + n || (o + m < 8 && Bit(bm[i], o + m) != v)
            ==> 8 * i + o + m - a == PrefixLen(Contents(bm), a, n, v)
  {
    hide PrefixLen;
    assert o + m < 8 && 8 * i + o + m < a + n ==> Contents(bm)[8 * i + o + m] == Bit(bm[i], o + m);
    hide Contents, Bit;
    ExtendAllEq(bm, a, i, o, m, v);
    PrefixLenAtLeast(Contents(bm), a, n, v, 8 * i + o + m - a);
    PrefixLenIs(Contents(bm), a, n, v, 8 * i + o + m - a);
  }

  /** A byte of both zeros and ones ends the stretch, unless the range ends first. */
  lemma MixedByte(bm: seq<byte>, a: nat, i: nat, n: nat, m: nat, v: bool)
    requires a <= 8 * i < a + n <= 8 * |bm| && m <= 8 && 8 * i + m <= a + n
    requires bm[i] != 0xff && bm[i] != 0x00
    requires AllEq(Contents(bm), a, 8 * i - a, v)
    requires forall j :: 0 <= j < m ==> Bit(bm[i], j) == v
    ensures 8 * i + m - a <= PrefixLen(Contents(bm), a, n, v)
    ensures 8 * i + m == a + n || (m < 8 ==> Bit(bm[i], m) != v)
            ==> 8 * i + m - a == PrefixLen(Contents(bm), a, n, v)
  {
    hide *;
    if m == 8 {
      SameBits(bm[i], v);
    }
    EndInByte(bm, a, i, 0, n, m, v);
  }

  /** A byte of one value goes on with the stretch or ends it at its first bit. */
  lemma UniformByte(bm: seq<byte>, a: nat, i: nat, n: nat, v: bool)
    requires a <= 8 * i < a + n <= 8 * |bm|
    requires bm[i] == 0xff || bm[i] == 0x00
    requires AllEq(Contents(bm), a, 8 * i - a, v)
    ensures (bm[i] == 0xff) != v ==> 8 * i - a == PrefixLen(Contents(bm), a, n, v)
    ensures (bm[i] == 0xff) == v && a + n <= 8 * i + 8 ==> n == PrefixLen(Contents(bm), a, n, v)
    ensures (bm[i] == 0xff) == v && a + n > 8 * i + 8 ==> AllEq(Contents(bm), a, 8 * i + 8 - a, v)
  {
    forall j | 0 <= j < 8 ensures Bit(bm[i], j) == (bm[i] == 0xff) { FullByte(j); }
    if (bm[i] == 0xff) != v {
      EndInByte(bm, a, i, 0, n, 0, v);
    } else if a + n <= 8 * i + 8 {
      EndInByte(bm, a, i, 0, n, a + n - 8 * i, v);
    } else {
      ExtendAllEq(bm, a, i, 0, 8, v);
    }
  }

  /**
    The unaligned first byte of a range: done says that the answer is already known, otherwise
    count bits matched and the range goes on at byte location.
  */
  method CountHead(bm: array<byte>, address: nat, n: nat, clearOrSet: int)
    returns (done: bool, count: nat, location: nat)
    requires 0 < n && address + n <= 8 * bm.Length
    ensures done ==> count == PrefixLen(Contents(bm[..]), address, n, clearOrSet == SETBIT)
    ensures !done ==> count < n && 8 * location == address + count
    ensures !done ==> AllEq(Contents(bm[..]), address, count, clearOrSet == SETBIT)
    ensures done ==> address % 8 != 0 && (n <= 8 - address % 8 || address % 8 + count < 8)
    ensures !done && address % 8 == 0 ==> count == 0
  {
    count := 0;
    location := address / 8;
    var aligned := address % 8;
    if aligned == 0 {
      return false, 0, location;
    }
    var b := bm[location];
    var expected := if aligned + n >= 8 then 8 - aligned else n;
    count := ByteCountBits(aligned, expected, b, clearOrSet);
    ExtendAllEq(bm[..], address, location, aligned, count, clearOrSet == SETBIT);
    EndInByte(bm[..], address, location, aligned, n, count, clearOrSet == SETBIT);
    location := location + 1;
    done := n - expected <= 0 || count < expected;
  }

  /** A byte of both zeros and ones ends the stretch before its last bit. */
  lemma EndsInMixed(bm: seq<byte>, a: nat, i: nat, n: nat, v: bool)
    requires a <= 8 * i < a + n <= 8 * |bm|
    requires bm[i] != 0xff && bm[i] != 0x00
    requires AllEq(Contents(bm), a, 8 * i - a, v)
    ensures 8 * i - a <= PrefixLen(Contents(bm), a, n, v) < 8 * i - a + 8
  {
    hide PrefixLen, Contents, Bit;
    var bits := Contents(bm);
    var p := PrefixLen(bits, a, n, v);
    PrefixLenIs(bits, a, n, v, p);
    PrefixLenAtLeast(bits, a, n, v, 8 * i - a);
    if p >= 8 * i - a + 8 {
      forall j | 0 <= j < 8
        ensures Bit(bm[i], j) == v
      {
        BitAt(bm, i, j);
      }
      SameBits(bm[i], v);
    }
  }

  lemma BitAt(bm: seq<byte>, i: nat, j: nat)
    requires i < |bm| && j < 8
    ensures Contents(bm)[8 * i + j] == Bit(bm[i], j)
  {
    hide Bit;
    assert (8 * i + j) / 8 == i && (8 * i + j) % 8 == j;
  }

  lemma SameBits(b: byte, v: bool)
    requires forall j: nat :: j < 8 ==> Bit(b, j) == v
    ensures b == if v then 0xff else 0x00
  {
    hide Bit;
    forall j: nat | j < 8
      ensures Bit(b, j) == Bit(if v then 0xff else 0x00, j)
    {
      FullByte(j);
    }
    ByteExt(b, if v then 0xff else 0x00);
  }

  /** How many bits of a stretch of p bits lie before the byte in which it ends; negative if it also starts there. */
  function BeforeLast(a: nat, p: nat): int {
    (a + p) / 8 * 8 - a
  }

  /**
    What bm_count answers: the longest matching prefix p, but if it ends inside a byte behind the first
    one, the matching bits c before that byte and at most as many more as what is left of the range
    comes to as an int.
  */
  function Counted(bits: seq<bool>, a: nat, n: nat, v: bool): (count: nat)
    requires a + n <= |bits|
    ensures count <= PrefixLen(bits, a, n, v)
  {
    var p := PrefixLen(bits, a, n, v);
    var c := BeforeLast(a, p);
    if 0 <= c < p then
      var limit := ToInt(n - c);
      if limit <= 0 then c else if c + limit < p then c + limit else p
    else p
  }

  /** For ranges of up to 2^32 bits the answer is right unless more than INT_MAX bits are left at that byte. */
  lemma CountedIs(bits: seq<bool>, a: nat, n: nat, v: bool)
    requires a + n <= |bits|
    ensures var p, c := PrefixLen(bits, a, n, v), BeforeLast(a, PrefixLen(bits, a, n, v));
            (Counted(bits, a, n, v) == p <==> !(0 <= c < p && ToInt(n - c) < p - c)) &&
            (n <= TWO_32 ==> Counted(bits, a, n, v) == if 0 <= c < p && n - c > INT_MAX then c else p) &&
            (n <= INT_MAX || p == n ==> Counted(bits, a, n, v) == p)
  {
    hide PrefixLen, ToInt;
  }

  /** A range of 2^31 bits that starts with a single one: no one is counted. */
  lemma CountLosesBits(bits: seq<bool>)
    requires |bits| > INT_MAX && bits[0] && !bits[1]
    ensures PrefixLen(bits, 0, INT_MAX + 1, true) == 1 && Counted(bits, 0, INT_MAX + 1, true) == 0
  {
    PrefixLenIs(bits, 0, INT_MAX + 1, true, 1);
  }

  /** What is counted in the mixed byte i that ends the stretch. */
  lemma CountedInMixed(bm: seq<byte>, a: nat, i: nat, n: nat, m: nat, v: bool)
    requires a <= 8 * i < a + n <= 8 * |bm| && m <= 8 && 8 * i + m <= a + n
    requires bm[i] != 0xff && bm[i] != 0x00
    requires AllEq(Contents(bm), a, 8 * i - a, v)
    requires var limit := ToInt(a + n - 8 * i);
             if limit <= 0 then m == 0 else m <= limit && (m < limit && m < 8 ==> Bit(bm[i], m) != v)
    requires forall j :: 0 <= j < m ==> Bit(bm[i], j) == v
    ensures 8 * i - a + m == Counted(Contents(bm), a, n, v)
  {
    hide *;
    EndsInMixed(bm, a, i, n, v);
    MixedByte(bm, a, i, n, m, v);
    CountedBefore(Contents(bm), a, n, v, 8 * i - a, m);
  }

  lemma CountedBefore(bits: seq<bool>, a: nat, n: nat, v: bool, c: nat, m: nat)
    requires a + n <= |bits| && (a + c) % 8 == 0
    requires c <= PrefixLen(bits, a, n, v) < c + 8 && c + m <= PrefixLen(bits, a, n, v)
    requires var limit := ToInt(n - c);
             if limit <= 0 then m == 0 else m <= limit && (m < limit ==> c + m == PrefixLen(bits, a, n, v))
    ensures c + m == Counted(bits, a, n, v)
  {
    hide PrefixLen, ToInt;
    assert (a + PrefixLen(bits, a, n, v)) / 8 == (a + c) / 8;
  }

  /** Where the stretch ends in the first byte, at a byte boundary or with the range, nothing is lost. */
  lemma CountedAll(bits: seq<bool>, a: nat, n: nat, v: bool)
    requires a + n <= |bits|
    requires var p := PrefixLen(bits, a, n, v); p == n || BeforeLast(a, p) < 0 || BeforeLast(a, p) == p
    ensures Counted(bits, a, n, v) == PrefixLen(bits, a, n, v)
  {
    CountedIs(bits, a, n, v);
    hide PrefixLen, ToInt;
  }

  /**
    The longest matching prefix of the range, as far as it is counted. A byte of both zeros and ones is
    counted with a length narrowed to int.
  */
  method BmCount(bm: array<byte>, totalBits: nat, address: nat, n: nat, clearOrSet: int)
    returns (rc: int, result: int)
    requires totalBits <= 8 * bm.Length && totalBits < TWO_63 && NoWrap(totalBits, address, n)
    requires clearOrSet == CLEARBIT || clearOrSet == SETBIT
    ensures rc == if address >= totalBits || address + n > totalBits then -1 else 0
    ensures rc == -1 ==> result == 0
    ensures rc == 0 ==> result == Counted(Contents(bm[..]), address, n, clearOrSet == SETBIT)
  {
    hide PrefixLen, Contents, AllEq, Bit, Counted, NoWrap;
    RangeTest(totalBits, address, n);
    ghost var v := clearOrSet == SETBIT;
    if address >= totalBits || (address + n) % TWO_64 > totalBits {
      return -1, 0;
    }
    assert address + n <= totalBits;
    if n == 0 {
      CountedAll(Contents(bm[..]), address, n, v);
      return 0, 0;
    }
    var done, count, location := CountHead(bm, address, n, clearOrSet);
    if done {
      CountedAll(Contents(bm[..]), address, n, v);
      return 0, count;
    }
    rc, result := CountBytes(bm, address, n, clearOrSet, count, location);
  }

  lemma EndsAtByte(a: nat, p: nat, i: nat)
    ensures a + p == 8 * i ==> BeforeLast(a, p) == p
  {
  }

  /** What a byte of one value says: the stretch goes on over the whole of it, or ends, or the range ends. */
  lemma UniformTurn(bm: seq<byte>, a: nat, i: nat, n: nat, v: bool)
    requires a <= 8 * i < a + n <= 8 * |bm|
    requires bm[i] == 0xff || bm[i] == 0x00
    requires AllEq(Contents(bm), a, 8 * i - a, v)
    ensures (bm[i] == 0xff) != v ==> 8 * i - a == Counted(Contents(bm), a, n, v)
    ensures (bm[i] == 0xff) == v && a + n <= 8 * i + 8 ==> n == Counted(Contents(bm), a, n, v)
    ensures (bm[i] == 0xff) == v && a + n > 8 * i + 8 ==> AllEq(Contents(bm), a, 8 * i + 8 - a, v)
  {
    hide *;
    UniformByte(bm, a, i, n, v);
    var p := PrefixLen(Contents(bm), a, n, v);
    if p == n || p == 8 * i - a {
      EndsAtByte(a, p, i);
      CountedAll(Contents(bm), a, n, v);
    }
  }

  /** The whole bytes of a range and its last one, behind count bits that match. */
  method CountBytes(bm: array<byte>, address: nat, n: nat, clearOrSet: int, start: nat, first: nat)
    returns (rc: int, count: nat)
    requires start < n && address + n <= 8 * bm.Length && 8 * first == address + start
    requires clearOrSet == CLEARBIT || clearOrSet == SETBIT
    requires AllEq(Contents(bm[..]), address, start, clearOrSet == SETBIT)
    ensures rc == 0 && count == Counted(Contents(bm[..]), address, n, clearOrSet == SETBIT)
  {
    hide PrefixLen, Contents, AllEq, Bit, Counted, ToInt;
    ghost var s, v := bm[..], clearOrSet == SETBIT;
    var location := first;
    count := start;
    var pending := n - count;
    while count < n
      invariant count < n && 8 * location == address + count && pending == n - count
      invariant AllEq(Contents(s), address, count, v)
      decreases n - count
    {
      var b := bm[location];
      assert b == s[location];
      if b != 0xff && b != 0x00 {
        var more := ByteCountBits(0, ToInt(pending), b, clearOrSet);
        CountedInMixed(s, address, location, n, more, v);
        return 0, count + more;
      } else {
        UniformTurn(s, address, location, n, v);
        if (clearOrSet == 1 && b == 0xff) || (clearOrSet == 0 && b == 0x00) {
          if pending <= 8 {
            return 0, n;
          }
          count := count + 8;
          pending := pending - 8;
        } else {
          return 0, count;
        }
      }
      location := location + 1;
    }
    rc := -2;
  }

  // ---------- Searching ----------

  /** What bm_find looks for: gapSize zeros in the window [address, windowEnd). */
  datatype Query = Query(address: nat, windowEnd: nat, gapSize: nat)

  /**
    Where the scan stands: before bit aligned of byte location, with missing bits to come. If a
    candidate is pending, it starts at found.
  */
  datatype Scan = Scan(location: nat, aligned: nat, pending: bool, found: nat, missing: int) {
    function At(): nat {
      8 * location + aligned
    }

    function End(): nat {
      8 * location + 8
    }

    /** Where the zeros begin that are open. */
    function Open(): nat {
      if pending then found else At()
    }
  }

  /** What the look at one byte has told: the last answer of byte_find_gap, and what is left of the candidate. */
  datatype Look = Look(rc: int, bitCount: nat, pending: bool, missing: int)

  /** Where the zeros begin that a look at a byte has found or continued. */
  function Candidate(s: Scan, l: Look): int {
    if l.pending then s.found else if l.rc >= 0 then 8 * s.location + l.rc else s.End() - l.bitCount
  }

  /**
    What the scan knows when it reaches address cur: either no candidate is open and no run
    starts before cur, or the zeros in [found, cur) are the beginning of the first possible
    run and missing bits are still to come.
  */
  ghost predicate Scanned(bits: seq<bool>, lo: nat, cur: nat, gap: nat, pending: bool, found: nat, missing: int) {
    lo <= cur <= |bits| &&
    if pending then
      lo <= found < cur && missing > 0 && missing + cur - found == gap &&
      AllEq(bits, found, cur - found, false) && NoGapIn(bits, lo, found, gap)
    else
      missing == gap && NoGapIn(bits, lo, cur, gap)
  }

  /** If the byte at cur does not start with the missing zeros, an open candidate is dead. */
  lemma Abandon(bm: seq<byte>, lo: nat, i: nat, gap: nat, found: nat, missing: int)
    requires i < |bm|
    requires Scanned(Contents(bm), lo, 8 * i, gap, true, found, missing)
    requires !ZerosFrom(bm[i], 0, missing)
    ensures Scanned(Contents(bm), lo, 8 * i, gap, false, found, gap)
  {
    var bits := Contents(bm);
    var j :| 0 <= j < missing && j < 8 && Bit(bm[i], j);
    assert bits[8 * i + j];
  }

  /** Offsets of byte i at which numbits zeros do not start cannot start a run of gap >= numbits zeros. */
  lemma SkipInByte(bm: seq<byte>, lo: nat, i: nat, o: nat, e: nat, numbits: nat, gap: nat)
    requires i < |bm| && o <= e <= 8 && numbits <= gap
    requires NoGapIn(Contents(bm), lo, 8 * i + o, gap)
    requires forall g :: o <= g < e ==> !ZerosFrom(bm[i], g, numbits)
    ensures NoGapIn(Contents(bm), lo, 8 * i + e, gap)
  {
    var bits := Contents(bm);
    forall a | 8 * i + o <= a < 8 * i + e && a + gap <= |bits|
      ensures !AllEq(bits, a, gap, false)
    {
      assert !ZerosFrom(bm[i], a - 8 * i, numbits);
      var j :| a - 8 * i <= j < a - 8 * i + numbits && j < 8 && Bit(bm[i], j);
      assert bits[8 * i + j];
    }
  }

  lemma ZerosAreEq(bm: seq<byte>, i: nat, o: nat, n: nat)
    requires i < |bm| && o + n <= 8
    ensures ZerosFrom(bm[i], o, n) <==> AllEq(Contents(bm), 8 * i + o, n, false)
  {
    hide Bit, Contents;
    forall j | o <= j < o + n
      ensures Contents(bm)[8 * i + j] == Bit(bm[i], j)
    {
      BitAt(bm, i, j);
    }
    forall k | 8 * i + o <= k < 8 * i + o + n
      ensures Contents(bm)[k] == Bit(bm[i], k - 8 * i)
    {
      BitAt(bm, i, k - 8 * i);
    }
  }

  // ----- Sizes that fit an int

  lemma MissingIs(bits: seq<bool>, lo: nat, cur: nat, gap: nat, found: nat, missing: int)
    requires Scanned(bits, lo, cur, gap, true, found, missing)
    ensures 0 < missing <= gap
  {
  }

  /** An answer that does not start at bit 0 says that no run of missing zeros does. */
  lemma NoRunAtStart(b: byte, missing: nat, rc: int, bitCount: nat)
    requires 0 < missing <= INT_MAX && GapAnswer(b, 0, missing, rc, bitCount)
    requires !(rc == 0 || (rc == -2 && bitCount == 8))
    ensures !ZerosFrom(b, 0, missing)
  {
    hide ZerosFrom;
  }

  /** What one byte comes to in a search for a size that fits an int. */
  lemma NarrowByte(bm: seq<byte>, location: nat, aligned: nat, gapSize: nat, lo: nat, found: nat, l: Look)
    requires location < |bm| && aligned < 8 && 0 < gapSize <= INT_MAX && (l.pending ==> aligned == 0)
    requires Scanned(Contents(bm), lo, 8 * location + aligned, gapSize, l.pending, found, l.missing)
    requires GapAnswer(bm[location], aligned, ToInt(l.missing), l.rc, l.bitCount)
    requires l.pending ==> l.rc == -1 || l.rc == 0 || (l.rc == -2 && l.bitCount == 8)
    ensures l.rc == -1 ==> NoGapIn(Contents(bm), lo, 8 * location + 8, gapSize)
    ensures l.rc == -2 ==>
              Scanned(Contents(bm), lo, 8 * location + 8, gapSize, true,
                      if l.pending then found else 8 * location + 8 - l.bitCount, l.missing - l.bitCount)
    ensures l.rc >= 0 ==>
              (l.pending ==> l.missing == l.bitCount) &&
              FirstRun(Contents(bm), lo, gapSize, if l.pending then found else 8 * location + l.rc)
  {
    hide Contents, ToInt, Bit;
    assert 0 < l.missing <= gapSize;
    if !l.pending {
      SkipInByte(bm, lo, location, aligned, FirstFree(l.rc, l.bitCount), gapSize, gapSize);
    } else if l.rc == -1 {
      Abandon(bm, lo, location, gapSize, found, l.missing);
      SkipInByte(bm, lo, location, 0, 8, l.missing, gapSize);
    }
    if l.rc >= 0 {
      ZerosAreEq(bm, location, l.rc, l.bitCount);
    } else if l.rc == -2 {
      ZerosAreEq(bm, location, 8 - l.bitCount, l.bitCount);
    }
  }

  // ----- Wide sizes

  /** The scan is at this point of ShortScan, and all but the low bits of the size are missing throughout. */
  ghost predicate WideAt(bits: seq<bool>, q: Query, open: nat, at: nat, missing: int) {
    Wide(q.gapSize) && |bits| % 8 == 0 && q.address <= |bits| && open <= at <= |bits| &&
    (at - open < ToInt(q.gapSize) ==> AllEq(bits, open, at - open, false)) &&
    missing == q.gapSize - Least(ToInt(q.gapSize), at - open) &&
    ShortScan(bits, ToInt(q.gapSize), q.address, q.address) == ShortScan(bits, ToInt(q.gapSize), open, at)
  }

  /** The bit before the zeros that the byte ends in is set. */
  lemma SetBefore(b: byte, o: nat, low: nat, rc: int, count: nat)
    requires o < 8 && 0 < low && rc < 0 && GapAnswer(b, o, low, rc, count)
    ensures o + count <= 8 && ZerosFrom(b, 8 - count, count) && (o + count < 8 ==> Bit(b, 7 - count))
  {
    hide Bit;
    if o + count < 8 {
      assert !ZerosFrom(b, 7 - count, low);
    }
  }

  lemma TailInByte(bm: seq<byte>, i: nat, o: nat, low: nat, rc: int, count: nat)
    requires i < |bm| && o < 8 && 0 < low && rc < 0 && GapAnswer(bm[i], o, low, rc, count)
    ensures o + count <= 8 && TailStart(Contents(bm), 8 * i + o, 8 * i + 8) == 8 * i + 8 - count
  {
    hide *;
    SetBefore(bm[i], o, low, rc, count);
    ZerosAreEq(bm, i, 8 - count, count);
    if o + count < 8 {
      BitAt(bm, i, 7 - count);
    }
    TailStartIs(Contents(bm), 8 * i + o, 8 * i + 8, 8 * i + 8 - count);
  }

  /** What byte_find_gap says about the runs of low zeros in one byte. */
  lemma ShortInByte(bm: seq<byte>, i: nat, o: nat, low: nat, rc: int, count: nat)
    requires i < |bm| && o < 8 && 0 < low && GapAnswer(bm[i], o, low, rc, count)
    ensures FirstGap(Contents(bm), 8 * i + o, 8 * i + 8, low) == if rc >= 0 then Some(8 * i + rc) else None
  {
    hide Contents, Bit, FirstGap, ZerosFrom, AllEq;
    SkipInByte(bm, 8 * i + o, i, o, FirstFree(rc, count), low, low);
    if rc >= 0 {
      ZerosAreEq(bm, i, rc, count);
      FirstGapSome(Contents(bm), 8 * i + o, 8 * i + 8, low, 8 * i + rc);
    } else {
      FirstGapNone(Contents(bm), 8 * i + o, 8 * i + 8, low, 8 * i + 8 - count);
    }
  }

  /** A byte that is looked at for a fresh run. */
  lemma WideAfresh(bits: seq<bool>, q: Query, at: nat, end: nat)
    requires WideAt(bits, q, at, at, q.gapSize) && at < |bits| && end == ByteEnd(at) && end <= |bits|
    requires FirstGap(bits, at, end, ToInt(q.gapSize)) == None ==> end - TailStart(bits, at, end) < ToInt(q.gapSize)
    ensures match FirstGap(bits, at, end, ToInt(q.gapSize))
            case Some(f) => ShortScan(bits, ToInt(q.gapSize), q.address, q.address) == Some(f)
            case None => WideAt(bits, q, TailStart(bits, at, end), end, q.gapSize - (end - TailStart(bits, at, end)))
  {
    hide ToInt, FirstGap, ShortScan, TailStart, Wide, AllEq, ByteEnd;
    Sizes(q.gapSize);
    ScanFresh(bits, ToInt(q.gapSize), at, end);
  }

  /** The same, told by the answer of byte_find_gap. */
  lemma WideFresh(bm: seq<byte>, q: Query, i: nat, o: nat, rc: int, count: nat)
    requires i < |bm| && o < 8 && WideAt(Contents(bm), q, 8 * i + o, 8 * i + o, q.gapSize) && 0 < ToInt(q.gapSize)
    requires GapAnswer(bm[i], o, ToInt(q.gapSize), rc, count)
    ensures rc >= 0 ==> ShortScan(Contents(bm), ToInt(q.gapSize), q.address, q.address) == Some(8 * i + rc)
    ensures rc < 0 ==> 8 * i + o <= 8 * i + 8 - count && count < ToInt(q.gapSize) &&
                       WideAt(Contents(bm), q, 8 * i + 8 - count, 8 * i + 8, q.gapSize - count)
  {
    hide *;
    GapFacts(bm[i], o, ToInt(q.gapSize), rc, count);
    EndOfByte(i, o);
    ShortInByte(bm, i, o, ToInt(q.gapSize), rc, count);
    if rc < 0 {
      TailInByte(bm, i, o, ToInt(q.gapSize), rc, count);
    }
    WideAfresh(Contents(bm), q, 8 * i + o, 8 * i + 8);
  }

  lemma EndOfByte(i: nat, o: nat)
    requires o < 8
    ensures ByteEnd(8 * i + o) == 8 * i + 8
  {
  }

  /** The zeros of a pending candidate do not go on far enough: the byte is looked at afresh. */
  lemma WideBroken(bits: seq<bool>, q: Query, open: nat, at: nat, missing: int)
    requires WideAt(bits, q, open, at, missing) && open < at && at + 8 <= |bits| && at - open < ToInt(q.gapSize)
    requires at % 8 == 0 && !AllEq(bits, at, Least(ToInt(q.gapSize) - (at - open), 8), false)
    ensures WideAt(bits, q, at, at, q.gapSize)
  {
    ScanBroken(bits, ToInt(q.gapSize), open, at);
    hide ToInt, ShortScan, Wide;
  }

  /** They go on to the end of the byte, or to the end of the run. */
  lemma WideGoesOn(bits: seq<bool>, q: Query, open: nat, at: nat, missing: int)
    requires WideAt(bits, q, open, at, missing) && open < at && at + 8 <= |bits| && at - open < ToInt(q.gapSize)
    requires AllEq(bits, at, Least(ToInt(q.gapSize) - (at - open), 8), false) && at % 8 == 0
    ensures WideAt(bits, q, open, at + 8, q.gapSize - Least(ToInt(q.gapSize), at + 8 - open))
  {
    ScanGoesOn(bits, ToInt(q.gapSize), open, at);
    hide ToInt, ShortScan, Wide, AllEq;
  }

  /** The run is complete, and the byte behind it is passed over. */
  lemma WidePassed(bits: seq<bool>, q: Query, open: nat, at: nat, missing: int)
    requires WideAt(bits, q, open, at, missing) && at + 8 <= |bits| && at - open >= ToInt(q.gapSize) && at % 8 == 0
    ensures WideAt(bits, q, at + 8, at + 8, q.gapSize)
  {
    Sizes(q.gapSize);
    ScanPassed(bits, ToInt(q.gapSize), open, at);
    hide ToInt, ShortScan, Wide;
  }

  /** Where no few zeros are, there are no more. */
  lemma NoLonger(b: byte, few: nat, more: nat)
    requires 0 < few <= more && GapAnswer(b, 0, few, -1, 0)
    ensures GapAnswer(b, 0, more, -1, 0)
  {
    hide Bit;
    forall g | 0 <= g < 8
      ensures !ZerosFrom(b, g, more)
    {
      assert !ZerosFrom(b, g, few);
    }
  }

  /** What one byte comes to in a search for a wide size. */
  ghost predicate WideLooked(bm: seq<byte>, q: Query, s: Scan, l: Look) {
    var bits, low := Contents(bm), ToInt(q.gapSize);
    q.address <= |bits| && 0 < low &&
    (l.rc >= 0 && !l.pending ==> ShortScan(bits, low, q.address, q.address) == Some(8 * s.location + l.rc)) &&
    (l.rc >= 0 && l.pending ==>
      s.At() - s.found < low && l.missing > l.bitCount && s.found <= s.End() && s.End() - s.found >= low &&
      WideAt(bits, q, s.found, s.End(), l.missing - l.bitCount)) &&
    (l.rc == -1 ==> WideAt(bits, q, s.End(), s.End(), q.gapSize)) &&
    (l.rc == -2 ==>
      0 <= Candidate(s, l) < s.End() && s.End() - Candidate(s, l) < low &&
      WideAt(bits, q, Candidate(s, l), s.End(), l.missing - l.bitCount))
  }

  /** What is left of the missing bits as an int. */
  lemma WideMissing(bits: seq<bool>, q: Query, open: nat, at: nat, missing: int)
    requires WideAt(bits, q, open, at, missing)
    ensures 0 < ToInt(q.gapSize) < q.gapSize && open <= at <= |bits| && q.address <= |bits|
    ensures missing == q.gapSize - Least(ToInt(q.gapSize), at - open)
    ensures ToInt(missing) == ToInt(q.gapSize) - Least(ToInt(q.gapSize), at - open)
  {
    Sizes(q.gapSize);
    LowPart(q.gapSize, Least(ToInt(q.gapSize), at - open));
  }

  /** A fresh look at a byte, be it the first or the second. */
  lemma WideFreshLook(bm: seq<byte>, q: Query, s: Scan, l: Look)
    requires 0 <= l.bitCount
    requires s.location < |bm| && s.aligned < 8 && WideAt(Contents(bm), q, s.At(), s.At(), q.gapSize)
    requires !l.pending && l.missing == q.gapSize
    requires GapAnswer(bm[s.location], s.aligned, ToInt(q.gapSize), l.rc, l.bitCount)
    ensures WideLooked(bm, q, s, l)
  {
    hide ToInt, Contents, GapAnswer, WideAt, ShortScan, Bit, Mask, AllEq;
    WideMissing(Contents(bm), q, s.At(), s.At(), q.gapSize);
    GapFacts(bm[s.location], s.aligned, ToInt(q.gapSize), l.rc, l.bitCount);
    WideFresh(bm, q, s.location, s.aligned, l.rc, l.bitCount);
  }

  /** What an answer for the bits that a candidate still needs says about the start of the byte. */
  lemma PendingAnswer(bm: seq<byte>, i: nat, left: nat, rc: int, count: nat)
    requires i < |bm| && 0 < left && GapAnswer(bm[i], 0, left, rc, count)
    ensures rc == -1 || !(rc == 0 || (rc == -2 && count == 8))
            ==> !AllEq(Contents(bm), 8 * i, Least(left, 8), false)
    ensures rc == -1 ==> count == 0
    ensures rc == 0 ==> count == left <= 8 && AllEq(Contents(bm), 8 * i, left, false)
    ensures rc == -2 && count == 8 ==> 8 < left && AllEq(Contents(bm), 8 * i, 8, false)
  {
    hide Contents, Bit, AllEq;
    var b := bm[i];
    ZerosAreEq(bm, i, 0, Least(left, 8));
    assert ZerosFrom(b, 0, left) <==> ZerosFrom(b, 0, Least(left, 8));
    if rc == -1 || !(rc == 0 || (rc == -2 && count == 8)) {
      assert !ZerosFrom(b, 0, left);
    }
  }

  /** A look at what comes behind a pending candidate, if no second one is needed. */
  lemma WidePending(bm: seq<byte>, q: Query, s: Scan, l: Look)
    requires s.location < |bm| && WideAt(Contents(bm), q, s.found, s.At(), s.missing)
    requires s.pending && s.aligned == 0 && s.found < s.At() && l.pending && l.missing == s.missing
    requires GapAnswer(bm[s.location], 0, ToInt(l.missing), l.rc, l.bitCount)
    requires l.rc == -1 || l.rc == 0 || (l.rc == -2 && l.bitCount == 8)
    ensures WideLooked(bm, q, s, l)
  {
    hide ToInt, Contents, GapAnswer, AllEq, ShortScan, Wide, Bit, Mask, WideAt;
    var bits, low := Contents(bm), ToInt(q.gapSize);
    WideMissing(bits, q, s.found, s.At(), s.missing);
    GapFacts(bm[s.location], 0, ToInt(l.missing), l.rc, l.bitCount);
    if s.At() - s.found >= low {
      WidePassed(bits, q, s.found, s.At(), s.missing);
    } else {
      var left := low - (s.At() - s.found);
      PendingAnswer(bm, s.location, left, l.rc, l.bitCount);
      if l.rc == -1 {
        WideBroken(bits, q, s.found, s.At(), s.missing);
        NoLonger(bm[s.location], left, low);
        WideFresh(bm, q, s.location, 0, -1, 0);
      } else {
        WideGoesOn(bits, q, s.found, s.At(), s.missing);
      }
    }
  }

  /** The look after a candidate has been given up. */
  lemma WideSecondLook(bm: seq<byte>, q: Query, s: Scan, rc: int, count: nat, l: Look)
    requires s.location < |bm| && WideAt(Contents(bm), q, s.found, s.At(), s.missing)
    requires s.pending && s.aligned == 0 && s.found < s.At()
    requires GapAnswer(bm[s.location], 0, ToInt(s.missing), rc, count)
    requires !(rc == -1 || rc == 0 || (rc == -2 && count == 8))
    requires !l.pending && l.missing == q.gapSize && GapAnswer(bm[s.location], 0, ToInt(l.missing), l.rc, l.bitCount)
    ensures WideLooked(bm, q, s, l)
  {
    hide ToInt, Contents, GapAnswer, AllEq, WideAt, WideLooked, Bit, Mask;
    var bits, low := Contents(bm), ToInt(q.gapSize);
    WideMissing(bits, q, s.found, s.At(), s.missing);
    GapFacts(bm[s.location], 0, ToInt(s.missing), rc, count);
    PendingAnswer(bm, s.location, low - (s.At() - s.found), rc, count);
    WideBroken(bits, q, s.found, s.At(), s.missing);
    WideFreshLook(bm, q, s, l);
  }

  // ----- All sizes

  /** The search stands at s: what it knows for a size that fits an int, for a wide one and for a lost one. */
  ghost predicate Searching(bm: seq<byte>, q: Query, s: Scan) {
    0 < q.gapSize && q.address <= s.At() <= 8 * |bm| && s.aligned < 8 &&
    (s.pending ==> s.aligned == 0 && s.found < s.At()) &&
    (Lost(q.gapSize) ==> !s.pending && s.missing == q.gapSize) &&
    (Wide(q.gapSize) ==>
      WideAt(Contents(bm), q, s.Open(), s.At(), s.missing) &&
      (s.pending && s.At() - s.found < ToInt(q.gapSize) ==> s.found + q.gapSize <= q.windowEnd)) &&
    (q.gapSize <= INT_MAX ==>
      Scanned(Contents(bm), q.address, s.At(), q.gapSize, s.pending, s.found, s.missing))
  }

  /** What it knows after a look at the byte. */
  ghost predicate Looked(bm: seq<byte>, q: Query, s: Scan, l: Look) {
    l.rc >= -2 && 0 <= l.bitCount && (l.pending ==> s.pending) && (l.rc == -2 ==> 0 < l.bitCount <= 8) &&
    (Lost(q.gapSize) ==> l.rc == -1 && !l.pending) &&
    (Wide(q.gapSize) ==> WideLooked(bm, q, s, l)) &&
    (q.gapSize <= INT_MAX ==> NarrowLooked(bm, q, s, l))
  }

  ghost predicate NarrowLooked(bm: seq<byte>, q: Query, s: Scan, l: Look) {
    0 <= Candidate(s, l) &&
    (l.rc == -1 ==> NoGapIn(Contents(bm), q.address, s.End(), q.gapSize)) &&
    (l.rc == -2 ==>
      Scanned(Contents(bm), q.address, s.End(), q.gapSize, true, Candidate(s, l), l.missing - l.bitCount)) &&
    (l.rc >= 0 ==>
      (l.pending ==> l.missing == l.bitCount) && FirstRun(Contents(bm), q.address, q.gapSize, Candidate(s, l)))
  }

  /**
    One byte of the search: looks for the missing zeros, and looks again for a whole gap if an
    open candidate is not continued unbroken from bit 0.
  */
  method ScanByte(bm: array<byte>, location: nat, aligned: nat, gapSize: nat, mayHaveALargeGap: int, missing: int,
                  ghost q: Query, ghost s: Scan)
    returns (rc: int, bitCount: nat, may: int, updated: int)
    requires location < bm.Length && (mayHaveALargeGap == 0 || mayHaveALargeGap == 1) && gapSize == q.gapSize
    requires s == Scan(location, aligned, mayHaveALargeGap == 1, s.found, missing)
    requires Searching(bm[..], q, s)
    ensures may == 0 || may == 1
    ensures Looked(bm[..], q, s, Look(rc, bitCount, may == 1, updated))
  {
    hide *;
    var b := bm[location];
    may, updated := mayHaveALargeGap, missing;
    rc, bitCount := ByteFindGap(aligned, ToInt(updated), b);
    if may == 1 && rc != -1 && !(rc == 0 || (rc == -2 && bitCount == 8 - aligned)) {
      ghost var firstRc, firstCount := rc, bitCount;
      may := 0;
      updated := gapSize;
      rc, bitCount := ByteFindGap(aligned, ToInt(updated), b);
      LookedAgain(bm[..], q, s, firstRc, firstCount, Look(rc, bitCount, false, updated));
    } else {
      LookedOnce(bm[..], q, s, Look(rc, bitCount, may == 1, updated));
    }
  }

  lemma GapFacts(b: byte, start: nat, numbits: int, rc: int, count: nat)
    requires GapAnswer(b, start, numbits, rc, count)
    ensures (numbits <= 0 ==> rc == -1) && (rc == -2 ==> 0 < count <= 8) && (rc == -1 ==> count == 0) && rc >= -2
    ensures 0 < numbits && rc < 0 ==> count < numbits
  {
  }

  /** One look at a byte was enough. */
  lemma LookedOnce(bm: seq<byte>, q: Query, s: Scan, l: Look)
    requires Searching(bm, q, s) && s.location < |bm| && 0 <= l.bitCount
    requires l.pending == s.pending && l.missing == s.missing
    requires GapAnswer(bm[s.location], s.aligned, ToInt(l.missing), l.rc, l.bitCount)
    requires l.pending ==> l.rc == -1 || l.rc == 0 || (l.rc == -2 && l.bitCount == 8 - s.aligned)
    ensures Looked(bm, q, s, l)
  {
    Sizes(q.gapSize);
    GapFacts(bm[s.location], s.aligned, ToInt(l.missing), l.rc, l.bitCount);
    hide ToInt, Wide, Lost, GapAnswer, WideAt, WideLooked, Scanned, NoGapIn, FirstRun, Contents;
    if q.gapSize <= INT_MAX {
      NarrowByte(bm, s.location, s.aligned, q.gapSize, q.address, s.found, l);
    } else if Wide(q.gapSize) {
      WideMissing(Contents(bm), q, s.Open(), s.At(), s.missing);
      if s.pending {
        WidePending(bm, q, s, l);
      } else {
        WideFreshLook(bm, q, s, l);
      }
    }
  }

  /** A candidate was given up, and the byte was looked at afresh. */
  lemma LookedAgain(bm: seq<byte>, q: Query, s: Scan, rc: int, count: nat, l: Look)
    requires Searching(bm, q, s) && s.location < |bm| && s.pending && 0 <= l.bitCount
    requires GapAnswer(bm[s.location], s.aligned, ToInt(s.missing), rc, count)
    requires !(rc == -1 || rc == 0 || (rc == -2 && count == 8 - s.aligned))
    requires !l.pending && l.missing == q.gapSize
    requires GapAnswer(bm[s.location], s.aligned, ToInt(l.missing), l.rc, l.bitCount)
    ensures Looked(bm, q, s, l)
  {
    Sizes(q.gapSize);
    GapFacts(bm[s.location], s.aligned, ToInt(l.missing), l.rc, l.bitCount);
    hide Wide, Lost, GapAnswer, WideAt, WideLooked, Scanned, NoGapIn, FirstRun, Contents;
    if q.gapSize <= INT_MAX {
      MissingIs(Contents(bm), q.address, s.At(), q.gapSize, s.found, s.missing);
      hide ToInt;
      NoRunAtStart(bm[s.location], s.missing, rc, count);
      Abandon(bm, q.address, s.location, q.gapSize, s.found, s.missing);
      NarrowByte(bm, s.location, s.aligned, q.gapSize, q.address, s.found, l);
    } else if Wide(q.gapSize) {
      hide ToInt;
      WideSecondLook(bm, q, s, rc, count, l);
    }
  }

  /** The answer of the search. */
  ghost predicate FindIs(bm: seq<byte>, q: Query, rc: int, found: nat)
    requires q.address <= q.windowEnd <= 8 * |bm|
  {
    match FoundGap(Contents(bm), q.address, q.windowEnd, q.gapSize)
    case Some(f) => rc == 0 && found == f
    case None => rc == -1 && found == 0
  }

  /** What is left of the window behind a byte. */
  function Rest(q: Query, s: Scan): nat {
    if s.End() < q.windowEnd then q.windowEnd - s.End() else 0
  }

  /** Before the next byte: no candidate is open. */
  function Afresh(q: Query, s: Scan): Scan {
    Scan(s.location + 1, 0, false, s.found, q.gapSize)
  }

  /** Before the next byte: the candidate is open, and the zeros of this byte have been taken off. */
  function GoesOn(s: Scan, l: Look): Scan
    requires 0 <= Candidate(s, l)
  {
    Scan(s.location + 1, 0, true, Candidate(s, l), l.missing - l.bitCount)
  }

  lemma StartSearching(bm: seq<byte>, q: Query)
    requires 0 < q.gapSize && q.address <= 8 * |bm|
    ensures Searching(bm, q, Scan(q.address / 8, q.address % 8, false, 0, q.gapSize))
  {
    Sizes(q.gapSize);
    hide ToInt, Contents, ShortScan;
  }

  /** A run was completed: it is the gap if it fits the window, and else there is none. */
  lemma Completed(bm: seq<byte>, q: Query, s: Scan, l: Look)
    requires q.address <= q.windowEnd <= 8 * |bm| && Searching(bm, q, s) && Looked(bm, q, s, l)
    requires l.rc >= 0 && (l.pending ==> l.missing == l.bitCount)
    ensures var f := Candidate(s, l);
            0 <= f && FindIs(bm, q, if f + q.gapSize > q.windowEnd then -1 else 0,
                             if f + q.gapSize > q.windowEnd then 0 else f)
  {
    Sizes(q.gapSize);
    hide ToInt, Wide, Lost, WideAt, ShortScan, Contents, FirstGap, FirstRun, Scanned, NoGapIn;
    if q.gapSize <= INT_MAX {
      FirstGapSome(Contents(bm), q.address, q.windowEnd, q.gapSize, Candidate(s, l));
    }
  }

  /** Only a wide search goes on when the bits that it looks for have been found. */
  lemma NotCompleted(bm: seq<byte>, q: Query, s: Scan, l: Look)
    requires q.windowEnd <= 8 * |bm| && Searching(bm, q, s) && Looked(bm, q, s, l)
    requires l.rc >= 0 && l.pending && l.missing != l.bitCount
    ensures Rest(q, s) > 0 && l.missing > l.bitCount
    ensures Searching(bm, q, GoesOn(s, l))
  {
    Sizes(q.gapSize);
    hide ToInt, Wide, Lost, WideAt, ShortScan, Contents, FirstRun, Scanned, NoGapIn;
  }

  /** Nothing begins in this byte. */
  lemma NoneHere(bm: seq<byte>, q: Query, s: Scan, l: Look)
    requires q.address <= q.windowEnd <= 8 * |bm| && s.location < |bm| && Searching(bm, q, s) && Looked(bm, q, s, l)
    requires l.rc == -1
    ensures q.gapSize > Rest(q, s) ==> FindIs(bm, q, -1, 0)
    ensures Searching(bm, q, Afresh(q, s))
  {
    Sizes(q.gapSize);
    hide ToInt, Wide, Lost, ShortScan, Contents, FirstGap, FirstRun, NoGapIn;
    if q.gapSize <= INT_MAX && q.gapSize > Rest(q, s) {
      FirstGapNone(Contents(bm), q.address, q.windowEnd, q.gapSize, s.End());
    }
  }

  /** A run may go on in the next byte. */
  lemma RunOpen(bm: seq<byte>, q: Query, s: Scan, l: Look)
    requires q.address <= q.windowEnd <= 8 * |bm| && s.location < |bm| && Searching(bm, q, s) && Looked(bm, q, s, l)
    requires l.rc == -2
    ensures 0 <= Candidate(s, l)
    ensures if l.missing - l.bitCount > Rest(q, s) then FindIs(bm, q, -1, 0)
            else l.missing > l.bitCount && Searching(bm, q, GoesOn(s, l))
  {
    Sizes(q.gapSize);
    hide ToInt, Wide, Lost, ShortScan, Contents, FirstGap, FirstRun, NoGapIn, AllEq;
    if q.gapSize <= INT_MAX && l.missing - l.bitCount > Rest(q, s) {
      FirstGapNone(Contents(bm), q.address, q.windowEnd, q.gapSize, Candidate(s, l));
    }
  }

  /** The scan of bm_find, byte by byte. */
  method Search(bm: array<byte>, address: nat, windowEnd: nat, gapSize: nat) returns (rc: int, found: nat)
    requires 0 < gapSize && address < windowEnd <= 8 * bm.Length
    ensures FindIs(bm[..], Query(address, windowEnd, gapSize), rc, found)
  {
    hide Searching, Looked, FindIs;
    ghost var c, q := bm[..], Query(address, windowEnd, gapSize);
    var location: nat := address / 8;
    var aligned: nat := address % 8;
    var mayHaveALargeGap := 0;
    var budget: nat := windowEnd - address;
    var updated: int := gapSize;
    found := 0;
    ghost var s := Scan(location, aligned, false, found, updated);
    StartSearching(c, q);
    while true
      invariant s == Scan(location, aligned, mayHaveALargeGap == 1, found, updated)
      invariant mayHaveALargeGap == 0 || mayHaveALargeGap == 1
      invariant address / 8 <= location && 8 * location + aligned < windowEnd && aligned < 8
      invariant budget == windowEnd - (8 * location + aligned)
      invariant Searching(c, q, s)
      decreases budget
    {
      var bitCount;
      rc, bitCount, mayHaveALargeGap, updated :=
        ScanByte(bm, location, aligned, gapSize, mayHaveALargeGap, updated, q, s);
      ghost var l := Look(rc, bitCount, mayHaveALargeGap == 1, updated);
      LookFacts(c, q, s, l);
      if 8 - aligned > budget {
        budget := 0;
      } else {
        budget := budget - (8 - aligned);
      }
      assert budget == Rest(q, s);
      if rc >= 0 {
        if mayHaveALargeGap == 0 {
          Completed(c, q, s, l);
          found := location * 8 + rc;
          if found + gapSize > windowEnd {
            return -1, 0;
          }
          return 0, found;
        } else {
          if updated == bitCount {
            Completed(c, q, s, l);
          } else {
            NotCompleted(c, q, s, l);
          }
          updated := updated - bitCount;
          if updated == 0 {
            if found + gapSize > windowEnd {
              return -1, 0;
            }
            return 0, found;
          }
        }
      } else if rc == -1 {
        NoneHere(c, q, s, l);
        if gapSize > budget || budget == 0 {
          return -1, 0;
        }
        updated := gapSize;
        mayHaveALargeGap := 0;
      } else if rc == -2 {
        RunOpen(c, q, s, l);
        if mayHaveALargeGap == 0 {
          mayHaveALargeGap := 1;
          found := (location + 1) * 8 - bitCount;
        }
        updated := updated - bitCount;
        if budget == 0 || updated > budget {
          return -1, 0;
        }
      }
      aligned := 0;
      location := location + 1;
      s := Scan(location, aligned, mayHaveALargeGap == 1, found, updated);
    }
  }

  lemma LookFacts(bm: seq<byte>, q: Query, s: Scan, l: Look)
    requires Looked(bm, q, s, l)
    ensures l.rc >= -2 && (l.rc == -2 ==> 0 < l.bitCount <= 8) && (l.pending ==> s.pending)
  {
    hide Wide, Lost, WideLooked, NarrowLooked;
  }

  predicate ValidFind(totalBits: nat, address: nat, count: nat, gapSize: nat) {
    address < totalBits && gapSize != 0 && count != 0 && gapSize <= count
  }

  function WindowEnd(totalBits: nat, address: nat, count: nat): nat {
    if address + count > totalBits then totalBits else address + count
  }

  /** The gap fits before each of three ends. */
  predicate Room(a: nat, gap: nat, end1: nat, end2: nat, end3: nat) {
    a + gap <= end1 && a + gap <= end2 && a + gap <= end3
  }

  /** The bounds of the answer, told by the arguments alone, and what the search finds inside them. */
  lemma FoundInside(bits: seq<bool>, totalBits: nat, address: nat, count: nat, gapSize: nat)
    requires ValidFind(totalBits, address, count, gapSize) && WindowEnd(totalBits, address, count) <= |bits|
    requires |bits| % 8 == 0
    ensures var r := FoundGap(bits, address, WindowEnd(totalBits, address, count), gapSize);
            match r
            case Some(f) =>
              address <= f && f + gapSize <= address + count && f + gapSize <= totalBits && f + gapSize <= |bits| &&
              (gapSize <= INT_MAX ==>
                AllEq(bits, f, gapSize, false) &&
                forall a :: address <= a < f && a + gapSize <= |bits| ==> !AllEq(bits, a, gapSize, false))
            case None =>
              gapSize <= INT_MAX ==>
                forall a :: address <= a && Room(a, gapSize, address + count, totalBits, |bits|) ==>
                              !AllEq(bits, a, gapSize, false)
  {
    FirstGapIs(bits, address, WindowEnd(totalBits, address, count), gapSize);
    hide FirstGap, ShortScan, ToInt, AllEq;
  }

  /**
    Returns 0 and the first address whose gapSize zero bits lie inside the window of count bits
    at address (cut off at totalBits), or -1 and 0 if there is none or the arguments are invalid.
    The buffer need only reach to the last byte that holds a window bit, and the scan goes up from the
    first one: no other byte is read. A parameter of byte_find_gap narrows the size to int: what is found
    for a size above INT_MAX is not the first gap but what FoundGap says, inside the same bounds.
  */
  method BmFind(bm: array<byte>, totalBits: nat, address: nat, count: nat, gapSize: nat)
    returns (rc: int, found: nat)
    requires totalBits < TWO_64 && NoWrap(totalBits, address, count)
    requires address < totalBits && 0 < gapSize <= count ==>
               totalBits <= 8 * bm.Length || address + count <= 8 * bm.Length
    ensures rc == 0 || (rc == -1 && found == 0)
    ensures rc == 0 ==>
              0 < gapSize && address <= found && found + gapSize <= address + count && found + gapSize <= totalBits
    ensures rc == 0 && gapSize <= INT_MAX ==>
              AllEq(Contents(bm[..]), found, gapSize, false) &&
              forall a :: address <= a < found ==> !AllEq(Contents(bm[..]), a, gapSize, false)
    ensures 0 < gapSize <= INT_MAX && rc == -1 ==>
              forall a :: address <= a && a + gapSize <= address + count && a + gapSize <= totalBits ==>
                            !AllEq(Contents(bm[..]), a, gapSize, false)
    ensures ValidFind(totalBits, address, count, gapSize) ==>
              match FoundGap(Contents(bm[..]), address, WindowEnd(totalBits, address, count), gapSize)
              case Some(f) => rc == 0 && found == f
              case None => rc == -1 && found == 0
    ensures !ValidFind(totalBits, address, count, gapSize) ==> rc == -1
  {
    hide Contents, FirstGap, NoWrap, FoundGap, AllEq;
    RangeTest(totalBits, address, count);
    if address >= totalBits || gapSize == 0 || count == 0 || gapSize > count {
      return -1, 0;
    }
    var budget := count;
    if (address + count) % TWO_64 > totalBits {
      budget := totalBits - address;
    }
    FoundInside(Contents(bm[..]), totalBits, address, count, gapSize);
    rc, found := Search(bm, address, address + budget, gapSize);
  }

  // ---------- Growing an extent ----------

  /** Some number of ones, possibly none, and then at least one zero and nothing but zeros. */
  ghost predicate CanGrow(bits: seq<bool>, a: nat, n: nat)
    requires a + n <= |bits|
  {
    exists p :: 0 <= p < n && AllEq(bits, a, p, true) && AllEq(bits, a + p, n - p, false)
  }

  /** What each answer of bm_extent_can_grow on valid arguments says about the n bits at a. */
  ghost predicate Verdict(bits: seq<bool>, a: nat, n: nat, rc: int)
    requires 0 < n && a + n <= |bits|
  {
    rc in {0, -2, -3, -5} &&
    (rc == 0 <==> CanGrow(bits, a, n)) &&
    (rc == -2 <==> !bits[a] && !AllEq(bits, a, n, false)) &&
    (rc == -3 <==> AllEq(bits, a, n, true)) &&
    (rc == -5 <==> bits[a] && exists j, k :: a < j < k < a + n && !bits[j] && bits[k])
  }

  /** How many bits of the first stretch of the range bm_count counts: the ones or zeros the range starts with. */
  function FirstCounted(bits: seq<bool>, a: nat, n: nat): nat
    requires 0 < n && a + n <= |bits|
  {
    Counted(bits, a, n, bits[a])
  }

  /** The first stretch is counted in full. */
  predicate FirstIsExact(bits: seq<bool>, a: nat, n: nat)
    requires 0 < n && a + n <= |bits|
  {
    FirstCounted(bits, a, n) == PrefixLen(bits, a, n, bits[a])
  }

  /**
    The answer on valid arguments: the verdict, if the first stretch is counted in full. If nothing of
    it is counted the answer is -4, and if a stretch of ones is counted in part it is -5.
  */
  ghost predicate Answered(bits: seq<bool>, a: nat, n: nat, rc: int)
    requires 0 < n && a + n <= |bits|
  {
    if FirstCounted(bits, a, n) == 0 then rc == -4
    else if bits[a] && !FirstIsExact(bits, a, n) then rc == -5
    else Verdict(bits, a, n, rc)
  }

  method BmExtentCanGrow(bm: array<byte>, totalBits: nat, address: nat, count: nat) returns (rc: int)
    requires totalBits <= 8 * bm.Length && totalBits < TWO_63 && NoWrap(totalBits, address, count)
    ensures rc == -1 <==> address >= totalBits || address + count > totalBits || count == 0
    ensures rc != -1 ==> Answered(Contents(bm[..]), address, count, rc)
  {
    hide Answered, FirstCounted, Counted, Contents;
    ghost var bits := Contents(bm[..]);
    if address >= totalBits || (address + count) % TWO_64 > totalBits || count == 0 {
      return -1;
    }
    var result;
    rc, result := BmCount(bm, totalBits, address, count, 0);
    if rc != 0 {
      return -100;
    } else {
      LeadingZeros(bits, address, count, result);
      if result > 0 {
        if result == count {
          return 0;
        } else {
          return -2;
        }
      }
    }
    rc, result := BmCount(bm, totalBits, address, count, 1);
    if rc != 0 {
      return -101;
    } else {
      LeadingOnes(bits, address, count, result);
      if result == count {
        return -3;
      }
    }
    if result == 0 {
      return -4;
    }
    var ones := result;
    var expectedZeroes := count - ones;
    rc, result := BmCount(bm, totalBits, address + ones, expectedZeroes, 0);
    if rc != 0 {
      return -102;
    }
    OnesThenZeros(bits, address, count, ones, result);
    if expectedZeroes == result {
      rc := 0;
    } else {
      rc := -5;
    }
  }

  /** Bits of the other value at the start: nothing is counted. */
  lemma NoneCounted(bits: seq<bool>, a: nat, n: nat, v: bool)
    requires 0 < n && a + n <= |bits| && bits[a] != v
    ensures Counted(bits, a, n, v) == 0
  {
    CountedIs(bits, a, n, v);
  }

  lemma LeadingZeros(bits: seq<bool>, a: nat, n: nat, z: nat)
    requires 0 < n && a + n <= |bits| && z == Counted(bits, a, n, false)
    ensures z > 0 ==> Answered(bits, a, n, if z == n then 0 else -2)
    ensures z == 0 && !bits[a] ==> FirstCounted(bits, a, n) == 0
  {
    if bits[a] {
      NoneCounted(bits, a, n, false);
    } else {
      var p := PrefixLen(bits, a, n, false);
      PrefixLenIs(bits, a, n, false, p);
      CountedIs(bits, a, n, false);
      hide PrefixLen, Counted;
      if z == n {
        assert AllEq(bits, a, 0, true) && AllEq(bits, a + 0, n - 0, false);
      } else if z > 0 {
        assert bits[a + p];
      }
    }
  }

  lemma LeadingOnes(bits: seq<bool>, a: nat, n: nat, o: nat)
    requires 0 < n && a + n <= |bits| && o == Counted(bits, a, n, true)
    requires bits[a] || FirstCounted(bits, a, n) == 0
    ensures o == n ==> Answered(bits, a, n, -3)
    ensures o == 0 ==> Answered(bits, a, n, -4)
    ensures o > 0 ==> bits[a]
  {
    if bits[a] {
      var p := PrefixLen(bits, a, n, true);
      PrefixLenIs(bits, a, n, true, p);
      CountedIs(bits, a, n, true);
      hide PrefixLen, Counted;
      assert AllEq(bits, a, n, true) ==> bits[a + n - 1];
    } else {
      NoneCounted(bits, a, n, true);
    }
  }

  lemma OnesThenZeros(bits: seq<bool>, a: nat, n: nat, o: nat, z: nat)
    requires 0 < o < n && a + n <= |bits| && bits[a]
    requires o == Counted(bits, a, n, true) && z == Counted(bits, a + o, n - o, false)
    ensures Answered(bits, a, n, if z == n - o then 0 else -5)
  {
    var p := PrefixLen(bits, a, n, true);
    PrefixLenIs(bits, a, n, true, p);
    CountedIs(bits, a, n, true);
    if o < p {
      assert bits[a + o];
      NoneCounted(bits, a + o, n - o, false);
    } else {
      CountedIs(bits, a + o, n - o, false);
      hide Counted;
      SecondStretch(bits, a, n, o);
    }
  }

  lemma SecondStretch(bits: seq<bool>, a: nat, n: nat, o: nat)
    requires 0 < o < n && a + n <= |bits|
    requires AllEq(bits, a, o, true) && !bits[a + o]
    ensures Verdict(bits, a, n, if PrefixLen(bits, a + o, n - o, false) == n - o then 0 else -5)
  {
    var z := PrefixLen(bits, a + o, n - o, false);
    PrefixLenIs(bits, a + o, n - o, false, z);
    assert bits[a];
    if z == n - o {
      assert CanGrow(bits, a, n);
    } else {
      assert a < a + o < a + o + z < a + n && !bits[a + o] && bits[a + o + z];
    }
  }

  /** The answer is right exactly if the first stretch is counted in full or the answer does not depend on it. */
  lemma AnswerIsVerdict(bits: seq<bool>, a: nat, n: nat, rc: int)
    requires 0 < n && a + n <= |bits| && Answered(bits, a, n, rc)
    ensures Verdict(bits, a, n, rc) <==>
            FirstIsExact(bits, a, n) || (FirstCounted(bits, a, n) > 0 && (bits[a] ==> Verdict(bits, a, n, -5)))
    ensures n <= INT_MAX ==> Verdict(bits, a, n, rc)
  {
    CountedIs(bits, a, n, bits[a]);
    hide Counted, CanGrow, AllEq;
  }

  // ---------- Whole bitmaps ----------

  function BytesFor(totalBits: nat): (bytes: nat)
    ensures totalBits <= 8 * bytes < totalBits + 8
  {
    (totalBits + 7) / 8
  }

  method BmZero(bm: array<byte>, totalBits: nat)
    requires totalBits <= 8 * bm.Length && totalBits < TWO_63
    modifies bm
    ensures Contents(bm[..]) == Fill(old(Contents(bm[..])), 0, 8 * BytesFor(totalBits), false)
  {
    ghost var orig := bm[..];
    var bytes := (totalBits + 7) / 8;
    Memset(bm, 0, 0x00, bytes);
    PaintBytes(orig, orig, bm[..], 0, 0, bytes, false, 0x00);
    PaintedIsFill(orig, bm[..], 0, 8 * bytes, false);
  }

  /** Every bit below totalBits becomes one, and every padding bit of the last byte zero. */
  method BmFill(bm: array<byte>, totalBits: nat)
    requires totalBits <= 8 * bm.Length && totalBits < TWO_63
    modifies bm
    ensures var padding := 8 * BytesFor(totalBits) - totalBits;
            Contents(bm[..]) == Fill(Fill(old(Contents(bm[..])), 0, totalBits, true), totalBits, padding, false)
  {
    hide Bit, Contents, Painted, Fill, Mask;
    ghost var orig := bm[..];
    var bytes := totalBits / 8;
    var tailBits := totalBits % 8;
    Memset(bm, 0, 0xff, bytes);
    ghost var filled := bm[..];
    FilledBytes(orig, filled, bytes);
    if tailBits > 0 {
      LowBits(tailBits, 0);
      bm[bytes] := Mask(tailBits) - 1;
      ghost var b := bm[bytes];
      LowMask(tailBits, b);
      LastByte(orig, filled, bytes, tailBits, b);
      assert bm[..] == filled[bytes := b];
    } else {
      WholeFilled(orig, filled, totalBits);
    }
  }

  lemma WholeFilled(orig: seq<byte>, filled: seq<byte>, totalBits: nat)
    requires totalBits <= 8 * |orig| && Painted(orig, filled, 0, totalBits, true)
    ensures Contents(filled) == Fill(Fill(Contents(orig), 0, totalBits, true), totalBits, 0, false)
  {
    hide Bit, Contents, Painted, Fill;
    PaintedIsFill(orig, filled, 0, totalBits, true);
    FillNone(Fill(Contents(orig), 0, totalBits, true), totalBits, false);
  }

  lemma LowMask(t: nat, b: byte)
    requires 0 < t < 8 && Mask(t) >= 1 && b == Mask(t) - 1
    ensures forall j :: 0 <= j < 8 ==> Bit(b, j) == (j < t)
  {
    hide Mask;
    forall j | 0 <= j < 8 ensures Bit(b, j) == (j < t) { LowBits(t, j); }
  }

  lemma FilledBytes(orig: seq<byte>, filled: seq<byte>, bytes: nat)
    requires bytes <= |orig| == |filled|
    requires forall i :: 0 <= i < |orig| ==> filled[i] == if i < bytes then 0xff else orig[i]
    ensures Painted(orig, filled, 0, 8 * bytes, true)
  {
    hide Bit, Painted;
    EmptyPaint(orig, 0, true);
    PaintBytes(orig, orig, filled, 0, 0, bytes, true, 0xff);
  }

  lemma EmptyPaint(orig: seq<byte>, a: nat, v: bool)
    ensures Painted(orig, orig, a, a, v)
  {
  }

  lemma LastByte(orig: seq<byte>, cur: seq<byte>, i: nat, t: nat, b: byte)
    requires i < |orig| && 0 < t < 8
    requires Painted(orig, cur, 0, 8 * i, true)
    requires forall j :: 0 <= j < 8 ==> Bit(b, j) == (j < t)
    ensures Contents(cur[i := b]) == Fill(Fill(Contents(orig), 0, 8 * i + t, true), 8 * i + t, 8 - t, false)
  {
    var next := cur[i := b];
    forall k | 0 <= k < 8 * |cur|
      ensures Contents(next)[k] == if k < 8 * i + t then true else if k < 8 * i + 8 then false else Contents(orig)[k]
    {
      assert Bit(cur[k / 8], k % 8) == if k < 8 * i then true else Bit(orig[k / 8], k % 8);
    }
  }

  lemma LowBits(t: nat, j: nat)
    requires 0 < t < 8 && j < 8
    ensures Mask(t) >= 1
    ensures Bit(Mask(t) - 1, j) <==> j < t
  {
    Masks();
  }

  /** The eight bits of a byte, least significant first. */
  function ByteBits(b: byte): (r: seq<bool>)
    ensures |r| == 8 && forall j :: 0 <= j < 8 ==> r[j] == Bit(b, j)
  {
    seq(8, j requires 0 <= j < 8 => Bit(b, j))
  }

  lemma ShiftBit(b: byte, j: nat)
    requires j < 8
    ensures Bit(b >> 1, j) <==> j < 7 && Bit(b, j + 1)
  {
    Masks();
  }

  lemma ShiftOutBit(b: byte, rest: byte)
    requires rest == b >> 1
    ensures CountTrue(ByteBits(b)) == CountTrue(ByteBits(rest)) + if b & 1 != 0 then 1 else 0
  {
    var low, high := [Bit(b, 0)], ByteBits(b)[1..];
    forall j | 0 <= j < 8 ensures Bit(rest, j) <==> j < 7 && Bit(b, j + 1) { ShiftBit(b, j); }
    assert ByteBits(b) == low + high;
    assert ByteBits(rest) == high + [false];
    CountConcat(low, high);
    CountConcat(high, [false]);
    CountUniform(low, Bit(b, 0));
    CountUniform([false], false);
  }

  /** The ones of a byte, counted by shifting them out. */
  method BytePopcount(b: byte) returns (count: nat)
    ensures count == CountTrue(ByteBits(b))
  {
    count := 0;
    var rest := b;
    while rest != 0
      invariant count + CountTrue(ByteBits(rest)) == CountTrue(ByteBits(b))
      decreases rest
    {
      ghost var before := rest;
      count := count + if rest & 1 != 0 then 1 else 0;
      rest := rest >> 1;
      ShiftOutBit(before, rest);
    }
    NoOnes();
  }

  lemma NoOnes()
    ensures CountTrue(ByteBits(0)) == 0
  {
    forall j | 0 <= j < 8 ensures !Bit(0, j) { FullByte(j); }
    CountUniform(ByteBits(0), false);
  }

  lemma CountByte(bm: seq<byte>, i: nat)
    requires i < |bm|
    ensures CountTrue(Contents(bm)[..8 * i + 8]) == CountTrue(Contents(bm)[..8 * i]) + CountTrue(ByteBits(bm[i]))
  {
    var bits := Contents(bm);
    assert bits[..8 * i + 8] == bits[..8 * i] + ByteBits(bm[i]);
    CountConcat(bits[..8 * i], ByteBits(bm[i]));
  }

  /** The low t bits of a byte are what its masked value counts. */
  lemma CountTail(bm: seq<byte>, i: nat, t: nat, low: byte)
    requires i < |bm| && 0 < t < 8 && 8 * i + t <= 8 * |bm|
    requires forall j :: 0 <= j < 8 ==> (Bit(low, j) <==> j < t && Bit(bm[i], j))
    ensures CountTrue(Contents(bm)[..8 * i + t]) == CountTrue(Contents(bm)[..8 * i]) + CountTrue(ByteBits(low))
  {
    var bits, ones := Contents(bm), ByteBits(low);
    assert bits[..8 * i + t] == bits[..8 * i] + ones[..t];
    assert ones == ones[..t] + ones[t..];
    CountConcat(bits[..8 * i], ones[..t]);
    CountConcat(ones[..t], ones[t..]);
    CountUniform(ones[t..], false);
  }

  /** The byte b with its bits from t on cleared. */
  method MaskTail(b: byte, t: nat) returns (low: byte)
    requires 0 < t < 8
    ensures forall j :: 0 <= j < 8 ==> (Bit(low, j) <==> j < t && Bit(b, j))
  {
    LowBits(t, 0);
    low := b & (Mask(t) - 1);
    forall j | 0 <= j < 8 ensures Bit(low, j) <==> j < t && Bit(b, j) { Masks(); }
  }

  method BmPopcount(bm: array<byte>, totalBits: nat) returns (count: nat)
    requires totalBits <= 8 * bm.Length
    ensures count == CountTrue(Contents(bm[..])[..totalBits])
  {
    hide Contents, CountTrue, ByteBits, Bit;
    var bytes := totalBits / 8;
    var tailBits := totalBits % 8;
    count := 0;
    assert Contents(bm[..])[..0] == [];
    CountUniform([], false);
    var i := 0;
    while i < bytes
      invariant i <= bytes
      invariant count == CountTrue(Contents(bm[..])[..8 * i])
    {
      CountByte(bm[..], i);
      var ones := BytePopcount(bm[i]);
      count := count + ones;
      i := i + 1;
    }
    if tailBits > 0 {
      var last := MaskTail(bm[bytes], tailBits);
      CountTail(bm[..], bytes, tailBits, last);
      var ones := BytePopcount(last);
      count := count + ones;
    }
  }
}
