/**
  What a search for a gap comes to once its size has passed through an int: sizes up to INT_MAX are looked
  for as they are, a size above is looked for by what an int keeps of it.
*/
module GapSizes {
  import opened BitStrings
  import opened Machine

  /** A size above INT_MAX that comes to no bits at all as an int. */
  predicate Lost(gapSize: nat) {
    gapSize > INT_MAX && ToInt(gapSize) <= 0
  }

  /** A size above 2^32 of which some low bits are left as an int. */
  predicate Wide(gapSize: nat) {
    gapSize > INT_MAX && ToInt(gapSize) > 0
  }

  /** Every size fits an int, or is lost, or is wide; what a wide size loses is at least 2^32. */
  lemma Sizes(gapSize: nat)
    ensures gapSize <= INT_MAX <==> !Lost(gapSize) && !Wide(gapSize)
    ensures !(Lost(gapSize) && Wide(gapSize))
    ensures Lost(gapSize) ==> ToInt(gapSize) <= 0
    ensures Wide(gapSize) ==> 0 < ToInt(gapSize) <= INT_MAX && gapSize - ToInt(gapSize) >= TWO_32
  {
    var high := gapSize - gapSize % TWO_32;
    assert high % TWO_32 == 0;
  }

  /** Taking away up to the low bits of a wide size takes as much away from what an int keeps. */
  lemma LowPart(gapSize: nat, taken: nat)
    requires Wide(gapSize) && taken <= ToInt(gapSize)
    ensures ToInt(gapSize - taken) == ToInt(gapSize) - taken
  {
    var high := gapSize - gapSize % TWO_32;
    assert high % TWO_32 == 0;
    assert high <= gapSize - taken < high + TWO_32;
    assert (gapSize - taken) % TWO_32 == gapSize - taken - high;
  }

  /** The end of the byte that bit at lies in. */
  function ByteEnd(at: nat): (end: nat)
    ensures at < end <= at + 8 && end % 8 == 0
  {
    at / 8 * 8 + 8
  }

  lemma SameByte(at: nat, f: nat)
    requires at <= f < ByteEnd(at)
    ensures ByteEnd(f) == ByteEnd(at)
  {
  }

  /** Where the zeros begin that [lo, hi) ends in. */
  function TailStart(bits: seq<bool>, lo: nat, hi: nat): (p: nat)
    requires lo <= hi <= |bits|
    ensures lo <= p <= hi && AllEq(bits, p, hi - p, false) && (lo < p ==> bits[p - 1])
    decreases hi
  {
    if hi == lo || bits[hi - 1] then hi else TailStart(bits, lo, hi - 1)
  }

  lemma {:induction false} TailStartIs(bits: seq<bool>, lo: nat, hi: nat, p: nat)
    requires lo <= p <= hi <= |bits| && AllEq(bits, p, hi - p, false) && (lo < p ==> bits[p - 1])
    ensures TailStart(bits, lo, hi) == p
    decreases hi
  {
    if p < hi {
      TailStartIs(bits, lo, hi - 1, p);
    }
  }

  function Least(a: nat, b: nat): nat {
    if a < b then a else b
  }

  /**
    The scan for low zeros when the size asked for is wider. It stands before bit at, and the zeros in
    [p, at) are open. A run inside one byte is the answer. One that goes over the end of a byte never is:
    when it is complete the rest of the size is still missing, and nothing is looked for in the byte behind it.
  */
  function ShortScan(bits: seq<bool>, low: nat, p: nat, at: nat): (r: Option<nat>)
    requires p <= at <= |bits| && |bits| % 8 == 0 && 0 < low
    ensures r.Some? ==> at <= r.value && r.value + low <= ByteEnd(r.value) <= |bits| && AllEq(bits, r.value, low, false)
    decreases |bits| - at
  {
    var end := ByteEnd(at);
    if at == |bits| then None
    else if at - p >= low then ShortScan(bits, low, end, end)
    else if p < at && AllEq(bits, p, Least(low, end - p), false) then ShortScan(bits, low, p, end)
    else match FirstGap(bits, at, end, low)
      case Some(f) =>
        FirstGapIs(bits, at, end, low);
        SameByte(at, f);
        Some(f)
      case None => ShortScan(bits, low, TailStart(bits, at, end), end)
  }

  /** A run that is complete: the next byte is passed over. */
  lemma ScanPassed(bits: seq<bool>, low: nat, p: nat, at: nat)
    requires p <= at && at + 8 <= |bits| && at % 8 == 0 == |bits| % 8 && 0 < low <= at - p
    ensures ShortScan(bits, low, p, at) == ShortScan(bits, low, at + 8, at + 8)
  {
    assert ByteEnd(at) == at + 8;
    hide ByteEnd, FirstGap, TailStart, AllEq;
  }

  /** A run that goes on over the byte, or ends in it. */
  lemma ScanGoesOn(bits: seq<bool>, low: nat, p: nat, at: nat)
    requires p < at && at + 8 <= |bits| && at % 8 == 0 == |bits| % 8 && at - p < low
    requires AllEq(bits, p, at - p, false) && AllEq(bits, at, Least(low - (at - p), 8), false)
    ensures ShortScan(bits, low, p, at) == ShortScan(bits, low, p, at + 8)
    ensures AllEq(bits, p, Least(low, at + 8 - p), false)
  {
    assert ByteEnd(at) == at + 8;
    hide ByteEnd, FirstGap, TailStart;
    assert Least(low, at + 8 - p) == at - p + Least(low - (at - p), 8);
  }

  /** A run that breaks off: the byte is looked at afresh. */
  lemma ScanBroken(bits: seq<bool>, low: nat, p: nat, at: nat)
    requires p < at && at + 8 <= |bits| && at % 8 == 0 == |bits| % 8 && at - p < low
    requires !AllEq(bits, at, Least(low - (at - p), 8), false)
    ensures ShortScan(bits, low, p, at) == ShortScan(bits, low, at, at)
  {
    assert ByteEnd(at) == at + 8;
    hide ByteEnd, FirstGap, TailStart;
    assert Least(low, at + 8 - p) == at - p + Least(low - (at - p), 8);
  }

  /** A byte that is looked at afresh. */
  lemma ScanFresh(bits: seq<bool>, low: nat, at: nat, end: nat)
    requires at < end <= |bits| && end == ByteEnd(at) && |bits| % 8 == 0 && 0 < low
    ensures match FirstGap(bits, at, end, low)
            case Some(f) => ShortScan(bits, low, at, at) == Some(f)
            case None => ShortScan(bits, low, at, at) == ShortScan(bits, low, TailStart(bits, at, end), end)
  {
    hide ByteEnd, FirstGap, TailStart, AllEq;
  }

  /**
    The answer of bm_find in the window [lo, hi): the first gap for a size that fits an int, nothing for a
    lost size, and for a wide one the first short run that the scan accepts, if the size asked for fits
    the window from there.
  */
  function FoundGap(bits: seq<bool>, lo: nat, hi: nat, gapSize: nat): (r: Option<nat>)
    requires lo <= hi <= |bits| && |bits| % 8 == 0
    ensures r.Some? ==> lo <= r.value && r.value + gapSize <= hi
  {
    if gapSize <= INT_MAX then
      FirstGapIs(bits, lo, hi, gapSize);
      FirstGap(bits, lo, hi, gapSize)
    else if Lost(gapSize) then None
    else match ShortScan(bits, ToInt(gapSize), lo, lo)
      case Some(f) => if f + gapSize <= hi then Some(f) else None
      case None => None
  }

  // ---------- When the answer is right ----------

  /** Where in [lo, ...) the first run of low zeros fits into one byte. */
  function ShortFit(lo: nat, low: nat): nat {
    if lo + low <= ByteEnd(lo) then lo else ByteEnd(lo)
  }

  /** A wide size whose low bits fit a byte, and a window that could hold the gap from there. */
  predicate Misled(lo: nat, hi: nat, gapSize: nat) {
    Wide(gapSize) && ToInt(gapSize) <= 8 && ShortFit(lo, ToInt(gapSize)) + gapSize <= hi
  }

  /** Where a misled search stops, whatever lies behind the few zeros that it has looked at. */
  lemma StopsShort(bits: seq<bool>, lo: nat, hi: nat, gapSize: nat)
    requires lo <= hi <= |bits| && |bits| % 8 == 0 && Misled(lo, hi, gapSize)
    requires var f := ShortFit(lo, ToInt(gapSize)); AllEq(bits, f, ToInt(gapSize), false) && (f == lo || bits[f - 1])
    ensures FoundGap(bits, lo, hi, gapSize) == Some(ShortFit(lo, ToInt(gapSize)))
  {
    var low, f := ToInt(gapSize), ShortFit(lo, ToInt(gapSize));
    Sizes(gapSize);
    assert ShortScan(bits, low, f, f) == Some(f);
    if f != lo {
      assert FirstGap(bits, lo, f, low) == None;
      TailStartIs(bits, lo, f, f);
    }
  }

  /** An answer whose bits are not all zero is given to misled searches only. */
  lemma FreeUnlessMisled(bits: seq<bool>, lo: nat, hi: nat, gapSize: nat)
    requires lo <= hi <= |bits| && |bits| % 8 == 0
    requires !Misled(lo, hi, gapSize) && FoundGap(bits, lo, hi, gapSize).Some?
    ensures AllEq(bits, FoundGap(bits, lo, hi, gapSize).value, gapSize, false)
  {
    Sizes(gapSize);
    FirstGapIs(bits, lo, hi, gapSize);
  }

  /** Zeros up to n, but for the bit behind the low zeros at f and the bit before them. */
  function Decoy(n: nat, f: nat, low: nat): (bits: seq<bool>)
    ensures |bits| == n
  {
    seq(n, k => k == f + low || k + 1 == f)
  }

  /** Exactly the misled searches can answer with a range that is not free. */
  lemma OccupiedIffMisled(n: nat, lo: nat, hi: nat, gapSize: nat)
    requires lo <= hi <= n && n % 8 == 0
    ensures Misled(lo, hi, gapSize) <==>
            exists bits: seq<bool> :: |bits| == n && FoundGap(bits, lo, hi, gapSize).Some? &&
              !AllEq(bits, FoundGap(bits, lo, hi, gapSize).value, gapSize, false)
  {
    if Misled(lo, hi, gapSize) {
      Sizes(gapSize);
      var f, low := ShortFit(lo, ToInt(gapSize)), ToInt(gapSize);
      var bits := Decoy(n, f, low);
      StopsShort(bits, lo, hi, gapSize);
      assert bits[f + low];
    } else {
      forall bits: seq<bool> | |bits| == n && FoundGap(bits, lo, hi, gapSize).Some?
        ensures AllEq(bits, FoundGap(bits, lo, hi, gapSize).value, gapSize, false)
      {
        FreeUnlessMisled(bits, lo, hi, gapSize);
      }
    }
  }

  /** Zeros everywhere, but behind the low ones at lo if these lie in one byte. */
  function Blind(n: nat, lo: nat, gapSize: nat): (bits: seq<bool>)
    ensures |bits| == n
  {
    seq(n, k => lo < k == lo + ToInt(gapSize) <= ByteEnd(lo))
  }

  /** For every size above INT_MAX that fits the window there are bits on which the answer is wrong. */
  lemma WrongOnBlind(n: nat, lo: nat, hi: nat, gapSize: nat)
    requires lo + gapSize <= hi <= n && n % 8 == 0 && gapSize > INT_MAX
    ensures FoundGap(Blind(n, lo, gapSize), lo, hi, gapSize) != FirstGap(Blind(n, lo, gapSize), lo, hi, gapSize)
  {
    Sizes(gapSize);
    var bits, low := Blind(n, lo, gapSize), ToInt(gapSize);
    if Lost(gapSize) || lo + low > ByteEnd(lo) {
      assert AllEq(bits, lo, gapSize, false);
      assert FirstGap(bits, lo, hi, gapSize) == Some(lo);
    } else {
      StopsShort(bits, lo, hi, gapSize);
      assert bits[lo + low];
      FirstGapIs(bits, lo, hi, gapSize);
    }
  }

  /** The answer is the first gap on all bitmaps exactly if the size fits an int. */
  lemma RightIffFits(n: nat, lo: nat, hi: nat, gapSize: nat)
    requires lo + gapSize <= hi <= n && n % 8 == 0
    ensures gapSize <= INT_MAX <==>
            forall bits: seq<bool> :: |bits| == n ==> FoundGap(bits, lo, hi, gapSize) == FirstGap(bits, lo, hi, gapSize)
  {
    if gapSize > INT_MAX {
      WrongOnBlind(n, lo, hi, gapSize);
      assert |Blind(n, lo, gapSize)| == n;
    }
  }

  /** A wide size whose low bits do not fit a byte is never found. */
  lemma TooLongForByte(bits: seq<bool>, lo: nat, hi: nat, gapSize: nat)
    requires lo <= hi <= |bits| && |bits| % 8 == 0 && Wide(gapSize) && ToInt(gapSize) > 8
    ensures FoundGap(bits, lo, hi, gapSize) == None
  {
    Sizes(gapSize);
  }

  /** 2^32 + 1 bits are asked for, and a single zero is what is found. */
  lemma OneForMany(bits: seq<bool>)
    requires |bits| % 8 == 0 && |bits| > TWO_32 && !bits[0] && bits[1]
    ensures FoundGap(bits, 0, |bits|, TWO_32 + 1) == Some(0) && FirstGap(bits, 0, |bits|, TWO_32 + 1) != Some(0)
  {
    StopsShort(bits, 0, |bits|, TWO_32 + 1);
    FirstGapIs(bits, 0, |bits|, TWO_32 + 1);
  }

  /** 2^31 zeros, and none is found. */
  lemma NoneForMany(bits: seq<bool>)
    requires |bits| % 8 == 0 && |bits| > INT_MAX && AllEq(bits, 0, INT_MAX + 1, false)
    ensures FoundGap(bits, 0, |bits|, INT_MAX + 1) == None && FirstGap(bits, 0, |bits|, INT_MAX + 1) == Some(0)
  {
  }
}
