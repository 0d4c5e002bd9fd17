/**
  Two dictionaries on one context of the allocator: what is done to one leaves the other as it is.
*/
module DictPairs {
  import opened DictCalls
  import opened DictHeap
  import opened DictSpec
  import opened DictTables
  import opened DictTraces
  import opened Lists
  import opened Ta
  import Runs = DictRuns

  /** The dictionaries share their context and nothing that they have allocated themselves. */
  ghost predicate Apart(d: Dict, e: Dict)
    reads d, e
  {
    d != e && d.gc == e.gc && d.own !! e.own && e !in d.own && d !in e.own
  }

  /** The foreign allocations of d that e does not use. */
  ghost function Private(d: Dict, e: Dict): set<TaNode>
    reads d, e, d.gc
  {
    set x | x in d.Foreign() && x !in e.own
  }

  /** The blocks of e are foreign to d, and the links and entries of e are out of d's reach. */
  ghost predicate OutOfReach(d: Dict, e: Dict)
    reads *
  {
    e !in d.Footprint() &&
    (forall h :: h in e.rings ==>
      h !in d.Footprint() && forall i :: 0 <= i < |e.rings[h]| ==> e.rings[h][i] !in d.Footprint()) &&
    (forall i :: 0 <= i < |e.order| ==> e.order[i] !in d.Footprint() && e.order[i].node !in d.Footprint()) &&
    BlocksIn(e, d.Foreign())
  }

  /** All blocks of e are among these. */
  ghost predicate BlocksIn(e: Dict, nodes: set<TaNode>)
    reads e
  {
    e.block in nodes && e.bucketsBlock in nodes && forall i :: 0 <= i < |e.order| ==> e.order[i].block in nodes
  }

  /** The links of allocations are not links of a dictionary. */
  lemma LinksDiffer(e: Dict, x: TaNode)
    requires e.Valid() && x in e.gc.live
    ensures forall h :: h in e.rings ==> h != x.list && forall i :: 0 <= i < |e.rings[h]| ==> e.rings[h][i] != x.list
    ensures forall i :: 0 <= i < |e.order| ==> e.order[i].node != x.list
  {
    var k :| 0 <= k < |e.gc.live| && e.gc.live[k] == x;
    NextInRing(e.gc, k);
    Neighbours(e.gc.list, Links(e.gc.live), k);
    assert x.list.home == e.gc.list && x.list.store == null;
    hide Table, Nodes, Links, OwnBlocks;
    forall h | h in e.rings
      ensures h.home == h && forall i :: 0 <= i < |e.rings[h]| ==> e.rings[h][i].home == h
    {
      assert Ring(h, e.rings[h]);
    }
  }

  lemma Reach(d: Dict, e: Dict)
    requires d.Valid() && e.Valid() && Apart(d, e)
    ensures OutOfReach(d, e)
  {
    hide Table, Ring, Owned, Nodes, Links, UniqueKeys, DistinctLinks;
    forall x | x in d.Foreign()
      ensures forall h :: h in e.rings ==> h != x.list && forall i :: 0 <= i < |e.rings[h]| ==> e.rings[h][i] != x.list
      ensures forall i :: 0 <= i < |e.order| ==> e.order[i].node != x.list
    {
      LinksDiffer(e, x);
    }
    BlocksForeign(d, e);
  }

  lemma BlocksForeign(d: Dict, e: Dict)
    requires d.Valid() && e.Valid() && Apart(d, e)
    ensures BlocksIn(e, d.Foreign())
  {
    hide Table, AllRings, Enclosed, Ring, Owned, ShapeIs;
    forall x | x in e.gc.live && x in e.own
      ensures x in d.Foreign()
    {
      forall f: Entry | f in d.order
        ensures f.block != x
      {
        var j :| 0 <= j < |d.order| && d.order[j] == f;
      }
    }
    forall i | 0 <= i < |e.order|
      ensures e.order[i].block in d.Foreign()
    {
      assert e.order[i] in e.order;
    }
  }

  /** All of e that does not depend on the contents of memory. */
  ghost predicate Fixed(e: Dict, live: seq<TaNode>)
    reads e
  {
    e.Shape(e.count) && e.rings.Keys == (set h | h in e.buckets) && Enclosed(e.rings, e.links) &&
    Table(e.rings, e.buckets, e.order, e.hash) && OwnBlocks(live, e.block, e.bucketsBlock, e.order) &&
    IsInside(e.own, e.links, e.block, e.bucketsBlock, e.order)
  }

  lemma ValidParts(e: Dict)
    requires e.Valid()
    ensures Fixed(e, e.gc.live) && AllRings(e.rings) && Owners(e.order) && e.gc.Valid()
  {
  }

  /** A dictionary is valid as long as its blocks are live and its links are as they were. */
  lemma ValidAgain(e: Dict, live: seq<TaNode>)
    requires Fixed(e, live) && BlocksIn(e, set x | x in e.gc.live)
    requires AllRings(e.rings) && Owners(e.order) && e.gc.Valid()
    ensures e.Valid()
  {
    hide Table, AllRings, Enclosed, Ring, Owned, ShapeIs, IsInside, TaNode.Valid;
    forall f: Entry | f in e.order
      ensures f.block in e.gc.live
    {
      var j :| 0 <= j < |e.order| && e.order[j] == f;
    }
  }

  /** What is left of the foreign memory of d holds the blocks of e, as long as none of them is freed. */
  lemma BlocksStay(d: Dict, e: Dict, live: seq<TaNode>, foreign: set<TaNode>, freed: set<TaNode>)
    requires d.Foreign() == foreign - freed && BlocksIn(e, foreign) && freed !! e.own && d.gc == e.gc
    requires Fixed(e, live)
    ensures BlocksIn(e, d.Foreign()) && BlocksIn(e, set x | x in e.gc.live)
  {
  }

  lemma SafeInPrivate(d: Dict, e: Dict, calls: seq<Call>)
    requires Safe(MapOf(d.View().items), Private(d, e), calls)
    ensures Safe(MapOf(d.View().items), d.Foreign(), calls)
  {
    hide After, Frees, FreedBy, MapOf;
  }

  lemma FreedInPrivate(m: Store, mine: set<TaNode>, calls: seq<Call>, luck: seq<Luck>, own: set<object>)
    requires Safe(m, mine, calls) && |luck| <= |calls| && (forall x :: x in mine ==> x !in own)
    ensures Elements(FreedBy(m, calls, luck)) !! own
  {
    FreedOnce(m, mine, calls, luck);
    hide FreedBy, Safe;
  }

  /** Perform, which changes neither e nor its links and entries. */
  method PerformKeeping(d: Dict, e: Dict, calls: seq<Call>) returns (rcs: seq<int>, ghost luck: seq<Luck>)
    requires d.Valid() && OutOfReach(d, e) && AllRings(e.rings) && Owners(e.order)
    requires forall i :: 0 <= i < |calls| ==> Legal(calls[i])
    requires Safe(MapOf(d.View().items), d.Foreign(), calls)
    modifies d.Footprint()
    ensures d.Valid() && |luck| == |calls| && fresh(d.own - old(d.own))
    ensures RunIs(old(Seen(d)), d.hash, calls, luck, rcs, Seen(d))
    ensures AllRings(e.rings) && Owners(e.order) && unchanged(e) && e.View() == old(e.View())
  {
    hide Dict.Valid, RunIs, FreedAre, Safe, MapOf, Ring, ForeignIn, FreedBy, BlocksIn, Legal;
    rcs, luck := Perform(d, calls);
  }

  /**
    Any calls on d, the values of e and its memory not being handed to d for freeing: e is valid
    afterwards and holds what it held.
  */
  method PerformBeside(d: Dict, e: Dict, calls: seq<Call>) returns (rcs: seq<int>, ghost luck: seq<Luck>)
    requires d.Valid() && e.Valid() && Apart(d, e)
    requires forall i :: 0 <= i < |calls| ==> Legal(calls[i])
    requires Safe(MapOf(d.View().items), Private(d, e), calls)
    modifies d.Footprint()
    ensures d.Valid() && |luck| == |calls|
    ensures RunIs(old(Seen(d)), d.hash, calls, luck, rcs, Seen(d))
    ensures e.Valid() && e.View() == old(e.View()) && Apart(d, e)
  {
    ghost var m, mine, own, live := MapOf(d.View().items), Private(d, e), e.own, e.gc.live;
    ghost var was, down := Seen(d), d.own;
    hide *;
    Reach(d, e);
    ReachBlocks(d, e);
    ValidParts(e);
    SafeInPrivate(d, e, calls);
    InPrivate(d, e);
    ApartIs(d, e);
    rcs, luck := PerformKeeping(d, e, calls);
    FreedInPrivate(m, mine, calls, luck, own);
    RunParts(was, d.hash, calls, luck, rcs, Seen(d));
    BlocksStay(d, e, live, was.foreign, Elements(FreedBy(m, calls, luck)));
    ValidAgain(e, live);
    StillApart(d, e, down);
  }

  lemma ReachBlocks(d: Dict, e: Dict)
    requires OutOfReach(d, e)
    ensures BlocksIn(e, d.Foreign())
  {
  }

  lemma InPrivate(d: Dict, e: Dict)
    ensures forall x :: x in Private(d, e) ==> x !in e.own
  {
  }

  lemma ApartIs(d: Dict, e: Dict)
    requires Apart(d, e)
    ensures d != e && d.gc == e.gc && d.own !! e.own && e !in d.own && d !in e.own
  {
  }

  lemma StillApart(d: Dict, e: Dict, down: set<object>)
    requires d != e && d.gc == e.gc && down !! e.own && e !in down && d !in e.own
    requires e !in d.own - down && (d.own - down) !! e.own
    ensures Apart(d, e)
  {
  }

  // ---------- A second dictionary ----------

  /** The allocator's links are not links of d: d is closed against what happens to them. */
  ghost predicate Closed(d: Dict, links: set<Link>)
    reads d
  {
    (forall h :: h in d.rings ==> h !in links && forall i :: 0 <= i < |d.rings[h]| ==> d.rings[h][i] !in links) &&
    forall i :: 0 <= i < |d.order| ==> d.order[i].node !in links
  }

  lemma LinksApart(d: Dict)
    requires d.Valid()
    ensures Closed(d, LinkSet(d.gc, d.gc.live))
  {
    forall l | l in LinkSet(d.gc, d.gc.live)
      ensures forall h :: h in d.rings ==> h != l && forall i :: 0 <= i < |d.rings[h]| ==> d.rings[h][i] != l
      ensures forall i :: 0 <= i < |d.order| ==> d.order[i].node != l
    {
      if l == d.gc.list {
        HeadDiffers(d);
      } else {
        var k :| 0 <= k < |d.gc.live| && d.gc.live[k].list == l;
        LinksDiffer(d, d.gc.live[k]);
      }
    }
  }

  lemma HeadDiffers(d: Dict)
    requires d.Valid()
    ensures forall h :: h in d.rings ==>
              h != d.gc.list && forall i :: 0 <= i < |d.rings[h]| ==> d.rings[h][i] != d.gc.list
    ensures forall i :: 0 <= i < |d.order| ==> d.order[i].node != d.gc.list
  {
    assert d.gc.list.home == d.gc.list && d.gc.list !in d.links;
    hide Table, Nodes, Links, OwnBlocks;
    forall h | h in d.rings
      ensures h in d.links && h.home == h && forall i :: 0 <= i < |d.rings[h]| ==> d.rings[h][i].home == h
    {
      assert Ring(h, d.rings[h]);
    }
  }

  /** dict_new_sized, which changes neither d nor its links and entries. */
  method NewKeeping(d: Dict, hash: HashFn, n: nat) returns (e: Dict?)
    requires d.gc.Valid() && n <= 0xffff_ffff
    requires Closed(d, LinkSet(d.gc, d.gc.live)) && AllRings(d.rings) && Owners(d.order)
    modifies d.gc`live, d.gc`log
    modifies LinkSet(d.gc, d.gc.live)`next, LinkSet(d.gc, d.gc.live)`prev, LinkSet(d.gc, d.gc.live)`home
    ensures d.gc.Valid() && AllRings(d.rings) && Owners(d.order) && unchanged(d) && d.View() == old(d.View())
    ensures e == null ==> d.gc.live == old(d.gc.live)
    ensures e != null ==>
              fresh(e) && fresh(e.own) && e.gc == d.gc && e.hash == hash && e.Valid() && e.View() == Runs.New(n) &&
              e.Foreign() == set x | x in old(d.gc.live)
  {
    hide Dict.Valid, TaNode.Valid, Ring, ForeignIn, LinkSet;
    e := DictNewSized(d.gc, hash, n);
  }

  /** The blocks of d are still live: they are foreign to the new dictionary e. */
  lemma BlocksAreForeign(d: Dict, e: Dict, live: seq<TaNode>)
    requires Fixed(d, live) && e.gc == d.gc && e.Foreign() == set x | x in live
    ensures BlocksIn(d, set x | x in d.gc.live)
  {
    hide Table, Enclosed, IsInside;
    assert forall x :: x in live ==> x in e.Foreign() && x in d.gc.live;
    assert forall i :: 0 <= i < |d.order| ==> d.order[i] in d.order;
  }

  /** A further dictionary on the context of d: the two are apart, and d is as it was. */
  method NewBeside(d: Dict, hash: HashFn, n: nat) returns (e: Dict?)
    requires d.Valid() && n <= 0xffff_ffff
    modifies d.gc`live, d.gc`log
    modifies LinkSet(d.gc, d.gc.live)`next, LinkSet(d.gc, d.gc.live)`prev, LinkSet(d.gc, d.gc.live)`home
    ensures d.Valid() && d.View() == old(d.View())
    ensures e != null ==> e.Valid() && Apart(d, e) && e.hash == hash && e.View() == Runs.New(n)
  {
    hide *;
    ghost var live, own := d.gc.live, d.own;
    LinksApart(d);
    ValidParts(d);
    e := NewKeeping(d, hash, n);
    if e == null {
      StillThere(d, live);
    } else {
      BlocksAreForeign(d, e, live);
      FreshApart(d, e);
    }
    ValidAgain(d, live);
  }

  lemma StillThere(d: Dict, live: seq<TaNode>)
    requires Fixed(d, live) && d.gc.live == live
    ensures BlocksIn(d, set x | x in d.gc.live)
  {
    hide Table, Enclosed, IsInside;
    assert forall i :: 0 <= i < |d.order| ==> d.order[i] in d.order;
  }

  lemma FreshApart(d: Dict, e: Dict)
    requires d != e && d.gc == e.gc && d.own !! e.own && e !in d.own && d !in e.own
    ensures Apart(d, e)
  {
  }
}
