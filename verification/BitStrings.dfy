/**
  Bit strings, and what setting, counting and searching a run of bits means for them.
  These are the specifications that the byte-level algorithms of map.c are proved against.
*/
module BitStrings {
  import opened Machine

  /** The n bits from address a on all have value v. */
  predicate AllEq(bits: seq<bool>, a: nat, n: nat, v: bool)
    requires a + n <= |bits|
  {
    forall k :: a <= k < a + n ==> bits[k] == v
  }

  /** The bit string with the n bits from address a on replaced by v. */
  function Fill(bits: seq<bool>, a: nat, n: nat, v: bool): (r: seq<bool>)
    requires a + n <= |bits|
    ensures |r| == |bits|
    ensures forall k :: 0 <= k < |r| ==> r[k] == if a <= k < a + n then v else bits[k]
  {
    bits[..a] + seq(n, _ => v) + bits[a + n..]
  }

  /** The length of the longest prefix of the n bits at a that has value v. */
  function PrefixLen(bits: seq<bool>, a: nat, n: nat, v: bool): (p: nat)
    requires a + n <= |bits|
    ensures p <= n
    decreases n
  {
    if n == 0 || bits[a] != v then 0 else 1 + PrefixLen(bits, a + 1, n - 1, v)
  }

  /** The address of the first run of gap zero bits inside [lo, hi), if any. */
  function FirstGap(bits: seq<bool>, lo: nat, hi: nat, gap: nat): (r: Option<nat>)
    requires hi <= |bits|
    decreases hi - lo
  {
    if lo + gap > hi then None
    else if AllEq(bits, lo, gap, false) then Some(lo)
    else FirstGap(bits, lo + 1, hi, gap)
  }

  function CountTrue(bits: seq<bool>): nat {
    if bits == [] then 0 else CountTrue(bits[..|bits| - 1]) + if bits[|bits| - 1] then 1 else 0
  }

  /** PrefixLen is the one length p whose bits all match and that cannot be extended. */
  lemma {:induction false} PrefixLenIs(bits: seq<bool>, a: nat, n: nat, v: bool, p: nat)
    requires a + n <= |bits| && p <= n
    ensures p == PrefixLen(bits, a, n, v) <==> AllEq(bits, a, p, v) && (p < n ==> bits[a + p] != v)
    decreases n
  {
    if n > 0 && bits[a] == v {
      if p == 0 {
      } else {
        PrefixLenIs(bits, a + 1, n - 1, v, p - 1);
        assert AllEq(bits, a, p, v) <==> AllEq(bits, a + 1, p - 1, v);
      }
    }
  }

  /** A matching stretch of bits is not longer than the longest one. */
  lemma PrefixLenAtLeast(bits: seq<bool>, a: nat, n: nat, v: bool, p: nat)
    requires a + n <= |bits| && p <= n
    requires AllEq(bits, a, p, v)
    ensures p <= PrefixLen(bits, a, n, v)
  {
    PrefixLenIs(bits, a, n, v, PrefixLen(bits, a, n, v));
  }

  lemma FillNone(bits: seq<bool>, a: nat, v: bool)
    requires a <= |bits|
    ensures Fill(bits, a, 0, v) == bits
  {
  }

  lemma FillShort(bits: seq<bool>, a: nat, v: bool)
    requires a < |bits|
    ensures Fill(bits, a, 0, v) == bits
    ensures Fill(bits, a, 1, v) == bits[a := v]
  {
  }

  /** No run of gap zeros starts in [lo, s). */
  ghost predicate NoGapIn(bits: seq<bool>, lo: nat, s: nat, gap: nat) {
    forall a :: lo <= a < s && a + gap <= |bits| ==> !AllEq(bits, a, gap, false)
  }

  /** FirstGap finds the least address whose gap bits are all zero and lie inside the window. */
  lemma {:induction false} FirstGapIs(bits: seq<bool>, lo: nat, hi: nat, gap: nat)
    requires hi <= |bits|
    ensures match FirstGap(bits, lo, hi, gap)
            case Some(f) => f + gap <= hi && FirstRun(bits, lo, gap, f)
            case None => forall a :: lo <= a && a + gap <= hi ==> !AllEq(bits, a, gap, false)
    decreases hi - lo
  {
    if lo + gap <= hi && !AllEq(bits, lo, gap, false) {
      FirstGapIs(bits, lo + 1, hi, gap);
    }
  }

  /** No bit outside the window matters, before it or behind it. */
  lemma {:induction false} FirstGapLocal(bits: seq<bool>, other: seq<bool>, lo: nat, hi: nat, gap: nat)
    requires hi <= |bits| && hi <= |other| && forall k :: lo <= k < hi ==> bits[k] == other[k]
    ensures FirstGap(bits, lo, hi, gap) == FirstGap(other, lo, hi, gap)
    decreases hi - lo
  {
    if lo + gap <= hi {
      assert AllEq(bits, lo, gap, false) == AllEq(other, lo, gap, false);
      if !AllEq(bits, lo, gap, false) {
        FirstGapLocal(bits, other, lo + 1, hi, gap);
      }
    }
  }

  /** The first run of gap zeros at or after lo starts at f. */
  ghost predicate FirstRun(bits: seq<bool>, lo: nat, gap: nat, f: nat) {
    lo <= f && f + gap <= |bits| && AllEq(bits, f, gap, false) && NoGapIn(bits, lo, f, gap)
  }

  /** A run of zeros with none before it is the first one. */
  lemma FirstGapSome(bits: seq<bool>, lo: nat, hi: nat, gap: nat, f: nat)
    requires hi <= |bits|
    requires FirstRun(bits, lo, gap, f)
    ensures FirstGap(bits, lo, hi, gap) == if f + gap <= hi then Some(f) else None
  {
    FirstGapIs(bits, lo, hi, gap);
  }

  lemma FirstGapNone(bits: seq<bool>, lo: nat, hi: nat, gap: nat, s: nat)
    requires hi <= |bits|
    requires NoGapIn(bits, lo, s, gap) && s + gap > hi
    ensures FirstGap(bits, lo, hi, gap) == None
  {
    FirstGapIs(bits, lo, hi, gap);
  }

  // ---------- Extents ----------

  /** n successive assignments of single bits, from address a on. */
  function SetEach(bits: seq<bool>, a: nat, n: nat, v: bool): (r: seq<bool>)
    requires a + n <= |bits|
    ensures |r| == |bits|
    decreases n
  {
    if n == 0 then bits else SetEach(bits[a := v], a + 1, n - 1, v)
  }

  /** Filling an extent is setting its bits one by one. */
  lemma {:induction false} FillIsSetEach(bits: seq<bool>, a: nat, n: nat, v: bool)
    requires a + n <= |bits|
    ensures Fill(bits, a, n, v) == SetEach(bits, a, n, v)
    decreases n
  {
    if n > 0 {
      FillIsSetEach(bits[a := v], a + 1, n - 1, v);
      assert Fill(bits, a, n, v) == Fill(bits[a := v], a + 1, n - 1, v);
    }
  }

  /** Filling a free extent and clearing it again gives the bits back. */
  lemma FillUndone(bits: seq<bool>, a: nat, n: nat)
    requires a + n <= |bits| && AllEq(bits, a, n, false)
    ensures Fill(Fill(bits, a, n, true), a, n, false) == bits
  {
  }

  // ---------- Counting ones ----------

  lemma {:induction false} CountConcat(s: seq<bool>, t: seq<bool>)
    ensures CountTrue(s + t) == CountTrue(s) + CountTrue(t)
  {
    if t == [] {
      assert s + t == s;
    } else {
      CountConcat(s, t[..|t| - 1]);
      assert (s + t)[..|s + t| - 1] == s + t[..|t| - 1];
    }
  }

  lemma {:induction false} CountUniform(s: seq<bool>, v: bool)
    requires forall i :: 0 <= i < |s| ==> s[i] == v
    ensures CountTrue(s) == if v then |s| else 0
  {
    if s != [] {
      CountUniform(s[..|s| - 1], v);
    }
  }

  /** Filling changes the number of ones by exactly the number of bits it flips. */
  lemma CountFill(bits: seq<bool>, a: nat, n: nat, v: bool, total: nat)
    requires a + n <= total <= |bits|
    ensures CountTrue(Fill(bits, a, n, v)[..total])
         == CountTrue(bits[..total]) - CountTrue(bits[a..a + n]) + if v then n else 0
  {
    var filled := Fill(bits, a, n, v);
    assert bits[..total] == bits[..a] + bits[a..a + n] + bits[a + n..total];
    assert filled[..total] == bits[..a] + filled[a..a + n] + bits[a + n..total];
    CountConcat(bits[..a], bits[a..a + n]);
    CountConcat(bits[..a] + bits[a..a + n], bits[a + n..total]);
    CountConcat(bits[..a], filled[a..a + n]);
    CountConcat(bits[..a] + filled[a..a + n], bits[a + n..total]);
    CountUniform(filled[a..a + n], v);
  }
}
