/**
  Runs of the block allocator that map.h leaves to its callers: a claim searches a free extent
  with bm_find and marks it with bm_set_extent, a free clears an extent that is live. What every
  run keeps is stated for the bit string and the list of live extents, and the methods below tie
  the byte buffer to it.
*/
module ExtentRuns {
  import opened Bits
  import opened BitStrings
  import opened Bitmap
  import opened GapSizes
  import opened Machine

  datatype Extent = Extent(start: nat, len: nat)

  datatype Op = Claim(address: nat, count: nat, gap: nat) | Free(index: nat)

  datatype State = State(bits: seq<bool>, live: seq<Extent>)

  /** What the range tests of the source can be relied on for. */
  predicate Accepted(total: nat, op: Op) {
    total < TWO_63 && (op.Claim? ==> NoWrap(total, op.address, op.count))
  }

  /** Not a claim of so wide a size that a short run inside its window passes for it. */
  predicate Honest(total: nat, op: Op) {
    op.Claim? && ValidFind(total, op.address, op.count, op.gap) ==>
      !Misled(op.address, WindowEnd(total, op.address, op.count), op.gap)
  }

  function ClaimAt(total: nat, bits: seq<bool>, op: Op): (r: Option<nat>)
    requires op.Claim? && total <= |bits| && |bits| % 8 == 0
    ensures r.Some? ==> 0 < op.gap && r.value + op.gap <= total
    ensures r.Some? ==> op.address <= r.value && r.value + op.gap <= op.address + op.count
  {
    if ValidFind(total, op.address, op.count, op.gap)
    then FoundGap(bits, op.address, WindowEnd(total, op.address, op.count), op.gap)
    else None
  }

  function Step(total: nat, s: State, op: Op): (r: State)
    requires total <= |s.bits| && |s.bits| % 8 == 0 && InRange(total, s.live)
    ensures |r.bits| == |s.bits| && InRange(total, r.live)
  {
    match op
    case Claim(_, _, gap) =>
      (match ClaimAt(total, s.bits, op)
       case None => s
       case Some(f) => State(Fill(s.bits, f, gap, true), s.live + [Extent(f, gap)]))
    case Free(i) =>
      if i < |s.live|
      then State(Fill(s.bits, s.live[i].start, s.live[i].len, false), Remove(s.live, i))
      else s
  }

  function Run(total: nat, s: State, ops: seq<Op>): (r: State)
    requires total <= |s.bits| && |s.bits| % 8 == 0 && InRange(total, s.live)
    ensures |r.bits| == |s.bits| && InRange(total, r.live)
  {
    if ops == [] then s
    else Step(total, Run(total, s, ops[..|ops| - 1]), ops[|ops| - 1])
  }

  predicate InRange(total: nat, live: seq<Extent>) {
    forall i :: 0 <= i < |live| ==> 0 < live[i].len && live[i].start + live[i].len <= total
  }

  // ---------- What every run keeps ----------

  predicate In(e: Extent, k: nat) {
    e.start <= k < e.start + e.len
  }

  ghost predicate Covered(live: seq<Extent>, k: nat) {
    exists i :: 0 <= i < |live| && In(live[i], k)
  }

  /** No bit belongs to two live extents. */
  ghost predicate Disjoint(live: seq<Extent>) {
    forall i, j, k :: 0 <= i < j < |live| && In(live[i], k) ==> !In(live[j], k)
  }

  function TotalLen(live: seq<Extent>): nat {
    if live == [] then 0 else TotalLen(live[..|live| - 1]) + live[|live| - 1].len
  }

  /** The set bits are exactly those of the live extents, in all bytes of the bitmap. */
  ghost predicate Exact(total: nat, s: State)
    requires 8 * BytesFor(total) <= |s.bits|
  {
    forall k :: 0 <= k < 8 * BytesFor(total) ==> s.bits[k] == Covered(s.live, k)
  }

  /** Live extents lie in the bitmap, do not overlap, and are exactly the set bits. */
  ghost predicate Consistent(total: nat, s: State) {
    8 * BytesFor(total) <= |s.bits| && |s.bits| % 8 == 0 &&
    InRange(total, s.live) && Disjoint(s.live) && Exact(total, s) &&
    CountTrue(s.bits[..total]) == TotalLen(s.live)
  }

  lemma {:induction false} TotalLenConcat(a: seq<Extent>, b: seq<Extent>)
    ensures TotalLen(a + b) == TotalLen(a) + TotalLen(b)
  {
    if b == [] {
      assert a + b == a;
    } else {
      TotalLenConcat(a, b[..|b| - 1]);
      assert (a + b)[..|a + b| - 1] == a + b[..|b| - 1];
    }
  }

  lemma CoveredAdd(live: seq<Extent>, e: Extent, k: nat)
    ensures Covered(live + [e], k) <==> Covered(live, k) || In(e, k)
  {
    var more := live + [e];
    assert more[|live|] == e;
    if Covered(live, k) {
      var i :| 0 <= i < |live| && In(live[i], k);
      assert In(more[i], k);
    }
  }

  function Remove(live: seq<Extent>, i: nat): seq<Extent>
    requires i < |live|
  {
    live[..i] + live[i + 1..]
  }

  lemma CoveredRemove(live: seq<Extent>, i: nat, k: nat)
    requires i < |live| && Disjoint(live)
    ensures Covered(Remove(live, i), k) <==> Covered(live, k) && !In(live[i], k)
  {
    var less := Remove(live, i);
    if Covered(less, k) {
      var j :| 0 <= j < |less| && In(less[j], k);
      assert In(live[if j < i then j else j + 1], k);
    }
    if Covered(live, k) && !In(live[i], k) {
      var j :| 0 <= j < |live| && In(live[j], k);
      assert In(less[if j < i then j else j - 1], k);
    }
  }

  lemma AddDisjoint(total: nat, s: State, e: Extent)
    requires 8 * BytesFor(total) <= |s.bits| && Exact(total, s) && Disjoint(s.live)
    requires e.start + e.len <= total && AllEq(s.bits, e.start, e.len, false)
    ensures Disjoint(s.live + [e])
  {
    forall i, k | 0 <= i < |s.live| && In(s.live[i], k)
      ensures !In(e, k)
    {
      assert Covered(s.live, k);
    }
  }

  lemma AddExact(total: nat, s: State, e: Extent)
    requires 8 * BytesFor(total) <= |s.bits| && Exact(total, s) && e.start + e.len <= total
    ensures Exact(total, State(Fill(s.bits, e.start, e.len, true), s.live + [e]))
  {
    forall k | 0 <= k < 8 * BytesFor(total)
      ensures Fill(s.bits, e.start, e.len, true)[k] == Covered(s.live + [e], k)
    {
      CoveredAdd(s.live, e, k);
    }
  }

  lemma AddCount(total: nat, s: State, e: Extent)
    requires e.start + e.len <= total <= |s.bits| && AllEq(s.bits, e.start, e.len, false)
    requires CountTrue(s.bits[..total]) == TotalLen(s.live)
    ensures CountTrue(Fill(s.bits, e.start, e.len, true)[..total]) == TotalLen(s.live + [e])
  {
    CountFill(s.bits, e.start, e.len, true, total);
    CountUniform(s.bits[e.start..e.start + e.len], false);
    TotalLenConcat(s.live, [e]);
    assert TotalLen([e]) == TotalLen([]) + e.len;
  }

  /** A free extent can be added: it meets no live one. */
  lemma AddKeeps(total: nat, s: State, e: Extent)
    requires Consistent(total, s)
    requires 0 < e.len && e.start + e.len <= total && AllEq(s.bits, e.start, e.len, false)
    ensures Consistent(total, State(Fill(s.bits, e.start, e.len, true), s.live + [e]))
  {
    AddDisjoint(total, s, e);
    AddExact(total, s, e);
    AddCount(total, s, e);
  }

  lemma RemoveDisjoint(live: seq<Extent>, i: nat)
    requires i < |live| && Disjoint(live)
    ensures Disjoint(Remove(live, i))
  {
    var less := Remove(live, i);
    forall a, b, k | 0 <= a < b < |less| && In(less[a], k)
      ensures !In(less[b], k)
    {
      var a', b' := if a < i then a else a + 1, if b < i then b else b + 1;
      assert In(live[a'], k) && live[b'] == less[b];
    }
  }

  lemma RemoveExact(total: nat, s: State, i: nat)
    requires 8 * BytesFor(total) <= |s.bits| && Exact(total, s) && Disjoint(s.live)
    requires i < |s.live| && s.live[i].start + s.live[i].len <= total
    ensures Exact(total, State(Fill(s.bits, s.live[i].start, s.live[i].len, false), Remove(s.live, i)))
  {
    forall k | 0 <= k < 8 * BytesFor(total)
      ensures Fill(s.bits, s.live[i].start, s.live[i].len, false)[k] == Covered(Remove(s.live, i), k)
    {
      CoveredRemove(s.live, i, k);
    }
  }

  lemma RemoveKeeps(total: nat, s: State, i: nat)
    requires Consistent(total, s) && i < |s.live|
    ensures Consistent(total, State(Fill(s.bits, s.live[i].start, s.live[i].len, false), Remove(s.live, i)))
  {
    RemoveDisjoint(s.live, i);
    RemoveExact(total, s, i);
    RemoveCount(total, s, i);
  }

  lemma RemoveCount(total: nat, s: State, i: nat)
    requires 8 * BytesFor(total) <= |s.bits| && InRange(total, s.live) && Exact(total, s) && i < |s.live|
    requires CountTrue(s.bits[..total]) == TotalLen(s.live)
    ensures CountTrue(Fill(s.bits, s.live[i].start, s.live[i].len, false)[..total]) == TotalLen(Remove(s.live, i))
  {
    hide CountTrue, TotalLen, Exact, Remove;
    var e := s.live[i];
    LiveIsSet(total, s, i);
    TotalWithout(s.live, i);
    CountFill(s.bits, e.start, e.len, false, total);
    CountUniform(s.bits[e.start..e.start + e.len], true);
  }

  /** All bits of a live extent are set. */
  lemma LiveIsSet(total: nat, s: State, i: nat)
    requires 8 * BytesFor(total) <= |s.bits| && Exact(total, s)
    requires i < |s.live| && s.live[i].start + s.live[i].len <= total
    ensures forall k :: s.live[i].start <= k < s.live[i].start + s.live[i].len ==> s.bits[k]
  {
    forall k | s.live[i].start <= k < s.live[i].start + s.live[i].len
      ensures s.bits[k]
    {
      assert In(s.live[i], k);
    }
  }

  lemma TotalWithout(live: seq<Extent>, i: nat)
    requires i < |live|
    ensures TotalLen(Remove(live, i)) == TotalLen(live) - live[i].len
  {
    hide TotalLen;
    var before, e, after := live[..i], live[i], live[i + 1..];
    SplitLive(live, i);
    TotalLenConcat(before, [e]);
    TotalLenConcat(before + [e], after);
    TotalLenConcat(before, after);
    TotalOfOne(e);
  }

  lemma SplitLive(live: seq<Extent>, i: nat)
    requires i < |live|
    ensures live == live[..i] + [live[i]] + live[i + 1..]
  {
  }

  lemma TotalOfOne(e: Extent)
    ensures TotalLen([e]) == e.len
  {
    assert [e][..0] == [];
  }

  lemma StepKeeps(total: nat, s: State, op: Op)
    requires Consistent(total, s) && Honest(total, op)
    ensures Consistent(total, Step(total, s, op))
  {
    match op
    case Claim(_, _, gap) =>
      if ClaimAt(total, s.bits, op).Some? {
        FreeUnlessMisled(s.bits, op.address, WindowEnd(total, op.address, op.count), gap);
        AddKeeps(total, s, Extent(ClaimAt(total, s.bits, op).value, gap));
      }
    case Free(i) =>
      if i < |s.live| {
        RemoveKeeps(total, s, i);
      }
  }

  ghost predicate AllHonest(total: nat, ops: seq<Op>) {
    forall i :: 0 <= i < |ops| ==> Honest(total, ops[i])
  }

  /** From an empty bitmap, every run of honest claims and of frees keeps extents and bits consistent. */
  lemma {:induction false} RunKeeps(total: nat, s: State, ops: seq<Op>)
    requires Consistent(total, s) && AllHonest(total, ops)
    ensures Consistent(total, Run(total, s, ops))
  {
    if ops != [] {
      RunKeeps(total, s, ops[..|ops| - 1]);
      StepKeeps(total, Run(total, s, ops[..|ops| - 1]), ops[|ops| - 1]);
    }
  }

  // ---------- What other claims do ----------

  lemma RunSnoc(total: nat, s: State, ops: seq<Op>, op: Op)
    requires total <= |s.bits| && |s.bits| % 8 == 0 && InRange(total, s.live)
    ensures Run(total, s, ops + [op]) == Step(total, Run(total, s, ops), op)
  {
    assert (ops + [op])[..|ops|] == ops;
  }

  lemma ClaimOne(total: nat, s: State, k: nat)
    requires total <= |s.bits| && |s.bits| % 8 == 0 && InRange(total, s.live) && k < total && !s.bits[k]
    ensures Step(total, s, Claim(k, 1, 1)) == State(s.bits[k := true], s.live + [Extent(k, 1)])
  {
    FillShort(s.bits, k, true);
  }

  /** Claims of single bits that prepare an overlap: the bit behind the short run, and the one before it. */
  function Decoys(op: Op): seq<Op>
    requires op.Claim? && 0 < ToInt(op.gap)
  {
    var low := ToInt(op.gap);
    var f := ShortFit(op.address, low);
    (if f == op.address then [] else [Claim(f - 1, 1, 1)]) + [Claim(f + low, 1, 1)]
  }

  lemma OneIsHonest(total: nat, k: nat)
    ensures Honest(total, Claim(k, 1, 1))
  {
  }

  lemma DecoysHonest(total: nat, op: Op)
    requires op.Claim? && 0 < ToInt(op.gap)
    ensures AllHonest(total, Decoys(op))
  {
    hide Honest, ShortFit, ToInt;
    var f := ShortFit(op.address, ToInt(op.gap));
    if f != op.address {
      FitBehind(op.address, ToInt(op.gap));
      OneIsHonest(total, f - 1);
    }
    OneIsHonest(total, f + ToInt(op.gap));
  }

  lemma FitBehind(lo: nat, low: nat)
    ensures lo <= ShortFit(lo, low)
  {
  }

  lemma DecoysAre(op: Op, f: nat, low: nat)
    requires op.Claim? && 0 < ToInt(op.gap) == low && f == ShortFit(op.address, low)
    ensures op.address <= f
    ensures Decoys(op) == if f == op.address then [] + [Claim(f + low, 1, 1)]
                          else [] + [Claim(f - 1, 1, 1)] + [Claim(f + low, 1, 1)]
  {
    hide ToInt;
  }

  /** The state after the claims: the bits at f + low and, if f is not the first address, at f - 1 are set. */
  lemma AfterDecoys(total: nat, s: State, op: Op, f: nat, low: nat)
    requires op.Claim? && 0 < ToInt(op.gap) == low && f == ShortFit(op.address, low) && f + low < total
    requires total <= |s.bits| && |s.bits| % 8 == 0 && s.live == [] && AllEq(s.bits, 0, total, false)
    ensures var r := Run(total, s, Decoys(op));
            AllEq(r.bits, f, low, false) && (f == op.address || r.bits[f - 1]) &&
            |r.live| > 0 && r.live[|r.live| - 1] == Extent(f + low, 1)
  {
    hide ToInt, ShortFit, Step, Run, Decoys, FoundGap;
    DecoysAre(op, f, low);
    NoRun(total, s);
    if f == op.address {
      RunSnoc(total, s, [], Claim(f + low, 1, 1));
      ClaimOne(total, s, f + low);
    } else {
      RunSnoc(total, s, [], Claim(f - 1, 1, 1));
      ClaimOne(total, s, f - 1);
      RunSnoc(total, s, [] + [Claim(f - 1, 1, 1)], Claim(f + low, 1, 1));
      ClaimOne(total, Run(total, s, [] + [Claim(f - 1, 1, 1)]), f + low);
    }
  }

  lemma NoRun(total: nat, s: State)
    requires total <= |s.bits| && |s.bits| % 8 == 0 && InRange(total, s.live)
    ensures Run(total, s, []) == s
  {
  }

  /** For every claim that is not honest, there is a run from an empty bitmap on that makes it overlap a live extent. */
  lemma OthersOverlap(total: nat, bits: seq<bool>, op: Op)
    requires total <= |bits| && |bits| % 8 == 0 && AllEq(bits, 0, total, false) && !Honest(total, op)
    ensures 0 < ToInt(op.gap) && AllHonest(total, Decoys(op))
    ensures !Disjoint(Run(total, State(bits, []), Decoys(op) + [op]).live)
  {
    hide ToInt, ShortFit, Wide, FoundGap, Run, Decoys, NoWrap, Contents, Bit, AllHonest;
    Sizes(op.gap);
    var low := ToInt(op.gap);
    var f := ShortFit(op.address, low);
    DecoysHonest(total, op);
    AfterDecoys(total, State(bits, []), op, f, low);
    var s := Run(total, State(bits, []), Decoys(op));
    StopsShort(s.bits, op.address, WindowEnd(total, op.address, op.count), op.gap);
    RunSnoc(total, State(bits, []), Decoys(op), op);
    var live := s.live + [Extent(f, op.gap)];
    assert In(live[|s.live| - 1], f + low) && In(live[|s.live|], f + low);
  }

  /** The honest claims are exactly those that keep every consistent bitmap consistent. */
  lemma HonestIff(total: nat, n: nat, op: Op)
    requires 8 * BytesFor(total) <= n && n % 8 == 0
    ensures Honest(total, op) <==>
            forall s: State :: |s.bits| == n && Consistent(total, s) ==> Consistent(total, Step(total, s, op))
  {
    if Honest(total, op) {
      forall s: State | |s.bits| == n && Consistent(total, s)
        ensures Consistent(total, Step(total, s, op))
      {
        StepKeeps(total, s, op);
      }
    } else {
      var bits := seq(n, _ => false);
      OthersOverlap(total, bits, op);
      EmptyIsConsistent(total, bits);
      RunKeeps(total, State(bits, []), Decoys(op));
      RunSnoc(total, State(bits, []), Decoys(op), op);
      var s := Run(total, State(bits, []), Decoys(op));
      assert |s.bits| == n && Consistent(total, s) && !Consistent(total, Step(total, s, op));
    }
  }

  /** Freeing what was claimed last gives back every bit and the list of live extents, if the claimed bits were free. */
  lemma ClaimThenFree(total: nat, s: State, op: Op)
    requires total <= |s.bits| && |s.bits| % 8 == 0 && InRange(total, s.live)
    requires op.Claim? && Honest(total, op) && ClaimAt(total, s.bits, op).Some?
    ensures Step(total, Step(total, s, op), Free(|s.live|)) == s
  {
    FreeUnlessMisled(s.bits, op.address, WindowEnd(total, op.address, op.count), op.gap);
    FillUndone(s.bits, ClaimAt(total, s.bits, op).value, op.gap);
  }

  /** Bytes with the same bits are the same bytes. */
  lemma SameBytes(a: seq<byte>, b: seq<byte>)
    requires Contents(a) == Contents(b)
    ensures a == b
  {
    assert |a| == |b|;
    forall i | 0 <= i < |a|
      ensures a[i] == b[i]
    {
      forall j | 0 <= j < 8
        ensures Bit(a[i], j) == Bit(b[i], j)
      {
        assert Contents(a)[8 * i + j] == Contents(b)[8 * i + j];
      }
      ByteExt(a[i], b[i]);
    }
  }

  // ---------- The run on the byte buffer ----------

  method Apply(bm: array<byte>, total: nat, live: seq<Extent>, op: Op) returns (after: seq<Extent>)
    requires total <= 8 * bm.Length && InRange(total, live) && Accepted(total, op)
    modifies bm
    ensures State(Contents(bm[..]), after) == old(Step(total, State(Contents(bm[..]), live), op))
  {
    after := live;
    match op
    case Claim(address, count, gap) =>
      var rc, found := BmFind(bm, total, address, count, gap);
      if rc == 0 {
        rc := BmSetExtent(bm, total, found, gap, SETBIT);
        after := live + [Extent(found, gap)];
      }
    case Free(i) =>
      if i < |live| {
        var rc := BmSetExtent(bm, total, live[i].start, live[i].len, CLEARBIT);
        after := Remove(live, i);
      }
  }

  lemma StepClaims(total: nat, s: State, op: Op)
    requires total <= |s.bits| && |s.bits| % 8 == 0 && InRange(total, s.live) && op.Claim?
    ensures |Step(total, s, op).live| > |s.live| <==> ClaimAt(total, s.bits, op).Some?
    ensures ClaimAt(total, s.bits, op).None? ==> Step(total, s, op) == s
    ensures InRange(total, Step(total, s, op).live) && Accepted(total, op) ==> Accepted(total, Free(|s.live|))
  {
    hide ClaimAt;
  }

  /** An honest claim that is freed at once leaves every byte and the list of live extents as they were. */
  method ClaimAndFree(bm: array<byte>, total: nat, live: seq<Extent>, op: Op)
    returns (claimed: bool, after: seq<Extent>)
    requires total <= 8 * bm.Length && InRange(total, live) && Accepted(total, op) && op.Claim? && Honest(total, op)
    modifies bm
    ensures claimed == old(ClaimAt(total, Contents(bm[..]), op)).Some?
    ensures bm[..] == old(bm[..]) && after == live
  {
    hide *;
    ghost var was := bm[..];
    StepClaims(total, State(Contents(was), live), op);
    after := Apply(bm, total, live, op);
    claimed := |after| > |live|;
    if claimed {
      ClaimThenFree(total, State(Contents(was), live), op);
      after := Apply(bm, total, after, Free(|live|));
    }
    SameBytes(bm[..], was);
  }

  lemma WholeBytes(n: nat)
    ensures 8 * n % 8 == 0
  {
  }

  /** What bm_zero leaves of a buffer. */
  ghost function Cleared(total: nat, bm: seq<byte>): (s: State)
    requires BytesFor(total) <= |bm|
    ensures total <= |s.bits| == 8 * |bm| && |s.bits| % 8 == 0 && InRange(total, s.live)
  {
    WholeBytes(|bm|);
    State(Fill(Contents(bm), 0, 8 * BytesFor(total), false), [])
  }

  /** A run that starts with bm_zero. */
  ghost function FromZero(total: nat, bm: seq<byte>, ops: seq<Op>): State
    requires BytesFor(total) <= |bm|
  {
    Run(total, Cleared(total, bm), ops)
  }

  lemma EmptyIsConsistent(total: nat, bits: seq<bool>)
    requires 8 * BytesFor(total) <= |bits| && |bits| % 8 == 0 && AllEq(bits, 0, 8 * BytesFor(total), false)
    ensures Consistent(total, State(bits, []))
  {
    CountUniform(bits[..total], false);
  }

  /** No run changes a bit outside the bitmap. */
  lemma {:induction false} RunStaysInside(total: nat, s: State, ops: seq<Op>)
    requires total <= |s.bits| && |s.bits| % 8 == 0 && InRange(total, s.live)
    ensures Run(total, s, ops).bits[total..] == s.bits[total..]
  {
    if ops != [] {
      RunStaysInside(total, s, ops[..|ops| - 1]);
      StepStaysInside(total, Run(total, s, ops[..|ops| - 1]), ops[|ops| - 1]);
    }
  }

  lemma StepStaysInside(total: nat, s: State, op: Op)
    requires total <= |s.bits| && |s.bits| % 8 == 0 && InRange(total, s.live)
    ensures Step(total, s, op).bits[total..] == s.bits[total..]
  {
    hide ClaimAt, Remove;
    if op.Claim? && ClaimAt(total, s.bits, op).Some? {
      assert Fill(s.bits, ClaimAt(total, s.bits, op).value, op.gap, true)[total..] == s.bits[total..];
    }
  }

  /**
    The whole run, starting with bm_zero, on a buffer that may be longer than the bitmap: buffer and live
    list are those of Run, and no byte behind the bitmap changes.
  */
  method Perform(bm: array<byte>, total: nat, ops: seq<Op>) returns (live: seq<Extent>)
    requires BytesFor(total) <= bm.Length && total < TWO_63
    requires forall i :: 0 <= i < |ops| ==> Accepted(total, ops[i])
    modifies bm
    ensures State(Contents(bm[..]), live) == old(FromZero(total, bm[..], ops))
    ensures AllHonest(total, ops) ==> Consistent(total, State(Contents(bm[..]), live))
    ensures bm[BytesFor(total)..] == old(bm[BytesFor(total)..])
  {
    hide Contents, Run, Step, Consistent, BytesFor, Honest;
    ghost var was := bm[..];
    BmZero(bm, total);
    live := [];
    ghost var start := Cleared(total, was);
    NoRun(total, start);
    var i := 0;
    assert ops[..0] == [];
    while i < |ops|
      invariant i <= |ops|
      invariant State(Contents(bm[..]), live) == Run(total, start, ops[..i])
      invariant InRange(total, live)
    {
      assert ops[..i + 1] == ops[..i] + [ops[i]];
      RunSnoc(total, start, ops[..i], ops[i]);
      live := Apply(bm, total, live, ops[i]);
      i := i + 1;
    }
    assert ops[..i] == ops;
    RunIsOver(total, was, bm[..], live, ops);
  }

  /** What a whole run comes to on the bytes. */
  lemma RunIsOver(total: nat, was: seq<byte>, now: seq<byte>, live: seq<Extent>, ops: seq<Op>)
    requires |was| == |now| && BytesFor(total) <= |was|
    requires State(Contents(now), live) == FromZero(total, was, ops)
    ensures AllHonest(total, ops) ==> Consistent(total, State(Contents(now), live))
    ensures now[BytesFor(total)..] == was[BytesFor(total)..]
  {
    hide Contents, Run, BytesFor, Consistent, Honest, Fill, Run;
    var start := Cleared(total, was);
    if AllHonest(total, ops) {
      EmptyIsConsistent(total, start.bits);
      RunKeeps(total, start, ops);
    }
    RunStaysInside(total, start, ops);
    SameBehind(Contents(now), start.bits, total, 8 * BytesFor(total));
    ClearedBehind(total, was);
    BehindKept(was, now, BytesFor(total));
  }

  lemma SameBehind(a: seq<bool>, b: seq<bool>, i: nat, j: nat)
    requires i <= j <= |a| == |b| && a[i..] == b[i..]
    ensures a[j..] == b[j..]
  {
    assert a[j..] == a[i..][j - i..] && b[j..] == b[i..][j - i..];
  }

  lemma ClearedBehind(total: nat, bm: seq<byte>)
    requires BytesFor(total) <= |bm|
    ensures Cleared(total, bm).bits[8 * BytesFor(total)..] == Contents(bm)[8 * BytesFor(total)..]
  {
    hide Contents, BytesFor;
  }

  /** The same bits from byte i on are the same bytes. */
  lemma BehindKept(a: seq<byte>, b: seq<byte>, i: nat)
    requires |a| == |b| && i <= |a| && Contents(a)[8 * i..] == Contents(b)[8 * i..]
    ensures a[i..] == b[i..]
  {
    ContentsBehind(a, i);
    ContentsBehind(b, i);
    SameBytes(a[i..], b[i..]);
  }

  lemma ContentsBehind(a: seq<byte>, i: nat)
    requires i <= |a|
    ensures Contents(a[i..]) == Contents(a)[8 * i..]
  {
    hide Bit;
    forall k | 0 <= k < 8 * |a[i..]|
      ensures Contents(a[i..])[k] == Contents(a)[8 * i + k]
    {
      assert (8 * i + k) / 8 == i + k / 8 && (8 * i + k) % 8 == k % 8;
    }
  }
}
