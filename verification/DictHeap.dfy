/**
  The hash table of dict.c on the heap: an array of ring heads, entries linked into the rings, and
  every piece of memory a node of the tracked allocator gc. The hash of a key is an arbitrary
  function. The ghost field order lists the entries by their latest fresh insertion.
*/
module DictHeap {
  import opened Buckets
  import opened DictSpec
  import opened DictTables
  import opened Lists
  import opened Machine
  import opened Seqs
  import opened Ta
  import Runs = DictRuns

  const DICT_SIZE := 32   // sizeof(dict_t)
  const ENTRY_SIZE := 24  // sizeof(dict_entry_t), before the key
  const LIST_SIZE := 16   // sizeof(list_t)

  // ---------- Entries as items ----------

  ghost function ItemsOf(entries: seq<Entry>): (items: seq<Item<TaNode?>>)
    reads entries
    ensures |items| == |entries|
    ensures forall i :: 0 <= i < |items| ==> items[i] == Item(entries[i].key, entries[i].val)
  {
    seq(|entries|, i requires 0 <= i < |entries| reads entries => Item(entries[i].key, entries[i].val))
  }

  ghost predicate UniqueKeys(entries: seq<Entry>) {
    forall i, j :: 0 <= i < j < |entries| ==> entries[i].key != entries[j].key
  }

  lemma {:induction false} ItemsSelect(entries: seq<Entry>, hash: HashFn, n: nat, b: nat)
    requires n > 0
    ensures ItemsOf(Select(entries, EntryHash(hash), n, b)) == Select(ItemsOf(entries), ItemHash(hash), n, b)
  {
    hide BucketFor;
    if entries != [] {
      var init := entries[..|entries| - 1];
      ItemsSelect(init, hash, n, b);
      assert ItemsOf(entries)[..|entries| - 1] == ItemsOf(init);
    }
  }

  lemma {:induction false} ItemsChained(entries: seq<Entry>, hash: HashFn, n: nat, k: nat)
    requires n > 0
    ensures ItemsOf(Chained(entries, EntryHash(hash), n, k)) == Chained(ItemsOf(entries), ItemHash(hash), n, k)
    decreases k
  {
    hide Select;
    if k > 0 {
      ItemsChained(entries, hash, n, k - 1);
      ItemsSelect(entries, hash, n, k - 1);
      var s, t := Chained(entries, EntryHash(hash), n, k - 1), Select(entries, EntryHash(hash), n, k - 1);
      assert ItemsOf(s + t) == ItemsOf(s) + ItemsOf(t);
    }
  }

  lemma ChainedNext(entries: seq<Entry>, hash: HashFn, n: nat, k: nat)
    requires n > 0
    ensures Chained(ItemsOf(entries), ItemHash(hash), n, k + 1)
         == Chained(ItemsOf(entries), ItemHash(hash), n, k) + ItemsOf(Chain(entries, hash, n, k))
  {
    ItemsSelect(entries, hash, n, k);
    hide Select, ItemsOf;
  }

  lemma ItemsTake(c: seq<Entry>, k: nat, visited: seq<Item<TaNode?>>)
    requires k < |c|
    ensures visited + ItemsOf(c[..k + 1]) == visited + ItemsOf(c[..k]) + [Item(c[k].key, c[k].val)]
  {
    assert ItemsOf(c[..k + 1]) == ItemsOf(c[..k]) + [Item(c[k].key, c[k].val)];
  }

  lemma EachIsAll(entries: seq<Entry>, hash: HashFn, n: nat)
    requires n > 0 && IsPowerOfTwo(n) && UniqueKeys(entries)
    ensures Chained(ItemsOf(entries), ItemHash(hash), n, 0) == []
    ensures var s := Chained(ItemsOf(entries), ItemHash(hash), n, n);
            Unique(s) && MapOf(s) == MapOf(ItemsOf(entries))
  {
    hide IsPowerOfTwo, MapOf;
    RehashKeepsMap(ItemsOf(entries), hash, n);
  }

  /** The entry found in the chain of its key's bucket is the item found in the whole list. */
  lemma FoundAt(entries: seq<Entry>, hash: HashFn, n: nat, b: nat, k: nat, key: string) returns (i: nat)
    requires n > 0 && UniqueKeys(entries)
    requires k < |Chain(entries, hash, n, b)| && Chain(entries, hash, n, b)[k].key == key
    ensures i < |entries| && entries[i] == Chain(entries, hash, n, b)[k]
    ensures i == IndexOf(ItemsOf(entries), key)
  {
    var e := Chain(entries, hash, n, b)[k];
    SelectElement(entries, EntryHash(hash), n, b, e);
    hide Select;
    i :| 0 <= i < |entries| && entries[i] == e;
    assert ItemsOf(entries)[i].key == key;
    var j := IndexOf(ItemsOf(entries), key);
    hide IndexOf;
    assert 0 <= j ==> entries[j].key == key;
  }

  lemma NotFound(entries: seq<Entry>, hash: HashFn, n: nat, key: string)
    requires n > 0
    requires var c := Chain(entries, hash, n, BucketFor(hash(key), n)); forall k :: 0 <= k < |c| ==> c[k].key != key
    ensures IndexOf(ItemsOf(entries), key) < 0
  {
    hide Select, BucketFor;
    var i := IndexOf(ItemsOf(entries), key);
    if i >= 0 {
      assert entries[i].key == key;
      assert entries[i] !in Chain(entries, hash, n, BucketFor(hash(key), n));
      SelectElement(entries, EntryHash(hash), n, BucketFor(hash(key), n), entries[i]);
    }
  }

  // ---------- Memory, seen from the rings of a table ----------

  /** ta_malloc, which leaves other rings alone. */
  method Alloc(gc: TaNode, size: nat, ghost m: Rings) returns (p: TaNode?)
    requires gc.Valid() && AllRings(m) && gc.list !in m
    modifies gc`live, gc`log, gc.list`next, gc.list.next`prev
    ensures gc.Valid() && AllRings(m)
    ensures gc.log == old(gc.log) + [p != null]
    ensures p == null ==> gc.live == old(gc.live)
    ensures p != null ==>
              fresh(p) && fresh(p.list) && Sized(p, size) && p.mark == 0 &&
              gc.live == [p] + old(gc.live)
  {
    Elsewhere(m, gc.list, Links(gc.live));
    FirstInRing(gc);
    assert gc.list.next.home == gc.list;
    hide Ring, TaNode.Valid;
    p := TaMalloc(gc, size);
  }

  /** The links that freeing the i-th live node touches, and the nodes it leaves. */
  lemma AroundNode(gc: TaNode, i: nat)
    requires gc.Valid() && i < |gc.live|
    ensures var l, links := gc.live[i].list, LinkSet(gc, gc.live);
            {l, l.next, l.prev} <= links &&
            l.home == gc.list && l.next.home == gc.list && l.prev.home == gc.list
    ensures forall x :: x in Without(gc.live, i) <==> x in gc.live && x != gc.live[i]
  {
    NextInRing(gc, i);
    LiveDistinct(gc);
    WithoutElements(gc.live, i);
    Neighbours(gc.list, Links(gc.live), i);
  }

  /** ta_free of a live node, which leaves other rings alone. */
  method Release(p: TaNode, gc: TaNode, ghost m: Rings)
    requires gc.Valid() && AllRings(m) && gc.list !in m && p in gc.live
    modifies gc`live, p`freed
    modifies LinkSet(gc, gc.live)`next, LinkSet(gc, gc.live)`prev, LinkSet(gc, gc.live)`home
    ensures gc.Valid() && AllRings(m) && p.freed
    ensures forall x :: x in gc.live <==> x in old(gc.live) && x != p
  {
    ghost var i :| 0 <= i < |gc.live| && gc.live[i] == p;
    AroundNode(gc, i);
    Elsewhere(m, gc.list, Links(gc.live));
    hide Ring, TaNode.Valid, Without, LinkSet, Links;
    FreeNode(p, gc, i);
  }

  /** list_del in one of the rings m, which leaves the allocator alone. */
  method DelBeside(entry: Link, ghost head: Link, ghost i: nat, ghost m: Rings, ghost gc: TaNode)
    requires AllRings(m) && head in m && i < |m[head]| && m[head][i] == entry && gc.Valid() && gc.list !in m
    modifies entry`home, entry.next`prev, entry.prev`next
    ensures AllRings(m[head := Without(m[head], i)]) && gc.Valid()
  {
    assert Ring(head, m[head]) && Ring(gc.list, Links(gc.live));
    Neighbours(head, m[head], i);
    assert forall l :: l == gc.list || l in Links(gc.live) ==> l.home == gc.list;
    hide Ring, AllRings, Links, Owned, Without;
    DelIn(entry, head, i, m);
  }

  /** list_add_tail to one of the rings m, which leaves the allocator alone. */
  method AddBeside(entry: Link, head: Link, ghost m: Rings, ghost gc: TaNode)
    requires AllRings(m) && head in m && entry.home == null && gc.Valid() && gc.list !in m
    modifies entry`next, entry`prev, entry`home, head`prev, head.prev`next
    ensures AllRings(m[head := m[head] + [entry]]) && gc.Valid()
  {
    assert Ring(head, m[head]) && Ring(gc.list, Links(gc.live));
    assert head.prev.home == head by {
      if |m[head]| > 0 {
        Neighbours(head, m[head], |m[head]| - 1);
      }
    }
    assert forall l :: l == gc.list || l in Links(gc.live) ==> l.home == gc.list;
    hide Ring, AllRings, Links, Owned;
    AddTailIn(entry, head, m);
  }

  /** What is allocated for a key, and for a table of n buckets. */
  function EntrySize(key: string): nat {
    ENTRY_SIZE + |key| + 1
  }

  /** memcpy of a key with its terminator to an offset of a block, which must have room for it. */
  method CopyKey(key: string, ghost p: TaNode, ghost offset: nat) returns (text: array<char>)
    requires offset + |key| + 1 <= p.room
    ensures fresh(text) && text[..] == key + "\0" && offset + text.Length <= p.room
  {
    text := new char[|key| + 1];
    var i := 0;
    while i < |key|
      invariant i <= |key| && text[..i] == key[..i]
    {
      text[i] := key[i];
      i := i + 1;
    }
    text[i] := '\0';
  }

  function TableSize(n: nat): nat {
    n * LIST_SIZE
  }

  /** The block p is the array of these sentinels. */
  ghost predicate TableIn(heads: seq<Link>, p: TaNode) {
    Sized(p, TableSize(|heads|)) && HeadsIn(heads, p)
  }

  /**
    All entries keep to themselves: their own block each, large enough for the key, which is live
    and neither of a and b, the blocks of the dictionary itself and of its buckets.
  */
  ghost predicate OwnBlocks(live: seq<TaNode>, a: TaNode, b: TaNode, entries: seq<Entry>) {
    a in live && b in live && a != b && Sized(a, DICT_SIZE) &&
    (forall e: Entry :: e in entries ==> e.block in live && e.block != a && e.block != b &&
                                         Sized(e.block, EntrySize(e.key))) &&
    forall e: Entry, f: Entry :: e in entries && f in entries && e != f ==> e.block != f.block
  }

  /** The live allocations that are neither a nor b nor a block of the entries. */
  ghost function ForeignIn(live: seq<TaNode>, a: TaNode, b: TaNode, entries: seq<Entry>): set<TaNode> {
    set x | x in live && x != a && x != b && forall e: Entry :: e in entries ==> e.block != x
  }

  lemma BlocksWithout(live: seq<TaNode>, live2: seq<TaNode>, a: TaNode, b: TaNode, entries: seq<Entry>, i: nat)
    requires OwnBlocks(live, a, b, entries) && UniqueKeys(entries) && i < |entries|
    requires forall x :: x in live2 <==> x in live && x != entries[i].block
    ensures OwnBlocks(live2, a, b, Without(entries, i))
    ensures ForeignIn(live2, a, b, Without(entries, i)) == ForeignIn(live, a, b, entries)
  {
    WithoutElements(entries, i);
  }

  lemma EntriesWithout(entries: seq<Entry>, i: nat)
    requires i < |entries| && Owners(entries) && UniqueKeys(entries)
    ensures Owners(Without(entries, i)) && UniqueKeys(Without(entries, i))
    ensures ItemsOf(Without(entries, i)) == Without(ItemsOf(entries), i)
    ensures forall e: Entry :: e in Without(entries, i) ==> e in entries
  {
  }

  lemma BlocksWith(live: seq<TaNode>, a: TaNode, b: TaNode, entries: seq<Entry>, e: Entry)
    requires OwnBlocks(live, a, b, entries) && e.block !in live && Sized(e.block, EntrySize(e.key))
    ensures OwnBlocks([e.block] + live, a, b, entries + [e])
    ensures ForeignIn([e.block] + live, a, b, entries + [e]) == ForeignIn(live, a, b, entries)
  {
    assert forall x :: x in entries + [e] <==> x in entries || x == e;
    assert forall x :: x in [e.block] + live <==> x in live || x == e.block;
  }

  lemma EntriesWith(entries: seq<Entry>, e: Entry)
    requires Owners(entries) && UniqueKeys(entries) && e.node.owner == e && e.node.store == e.block
    requires IndexOf(ItemsOf(entries), e.key) < 0
    ensures Owners(entries + [e]) && UniqueKeys(entries + [e])
    ensures ItemsOf(entries + [e]) == ItemsOf(entries) + [Item(e.key, e.val)]
  {
    assert forall i :: 0 <= i < |entries| ==> ItemsOf(entries)[i].key != e.key;
  }

  ghost predicate AmongEntries(s: seq<Entry>, t: seq<Entry>) {
    forall i :: 0 <= i < |s| ==> s[i] in t
  }

  /** A rehash puts the same entries in another order. */
  lemma EntriesChained(entries: seq<Entry>, hash: HashFn, n: nat)
    requires Owners(entries) && UniqueKeys(entries) && IsPowerOfTwo(n) && n > 0
    ensures var r := Chained(entries, EntryHash(hash), n, n);
            Owners(r) && UniqueKeys(r) && |r| == |entries| && AmongEntries(r, entries) && AmongEntries(entries, r) &&
            ItemsOf(r) == Chained(ItemsOf(entries), ItemHash(hash), n, n)
  {
    var r := Chained(entries, EntryHash(hash), n, n);
    ItemsChained(entries, hash, n, n);
    RehashKeepsMap(ItemsOf(entries), hash, n);
    hide IsPowerOfTwo, BucketFor, Chained, MapOf;
    forall i | 0 <= i < |r|
      ensures r[i] in entries && r[i].node.owner == r[i] && r[i].node.store == r[i].block
    {
      ChainedElement(entries, EntryHash(hash), n, n, r[i]);
    }
    forall i | 0 <= i < |entries|
      ensures entries[i] in r
    {
      ChainedElement(entries, EntryHash(hash), n, n, entries[i]);
      BucketIsMod(hash(entries[i].key), n);
    }
    assert forall i :: 0 <= i < |r| ==> ItemsOf(r)[i].key == r[i].key;
  }

  lemma BlocksMoved(live: seq<TaNode>, live2: seq<TaNode>, a: TaNode, b: TaNode, p: TaNode,
                    entries: seq<Entry>, entries2: seq<Entry>)
    requires OwnBlocks(live, a, b, entries) && p !in live
    requires AmongEntries(entries, entries2) && AmongEntries(entries2, entries)
    requires forall x :: x in live2 <==> (x == p || x in live) && x != b
    ensures OwnBlocks(live2, a, p, entries2)
    ensures ForeignIn(live2, a, p, entries2) == ForeignIn(live, a, b, entries)
  {
  }

  /** What the fields of a dictionary with n entries keep to, apart from the links. */
  ghost predicate ShapeIs(gc: TaNode, buckets: seq<Link>, nbuckets: nat, n: nat, order: seq<Entry>, links: set<Link>) {
    4 <= nbuckets <= Runs.MAX_BUCKETS && IsPowerOfTwo(nbuckets) && |buckets| == nbuckets && n == |order| &&
    DistinctLinks(buckets) && UniqueKeys(order) && gc.list !in links &&
    forall i :: 0 <= i < |order| ==> order[i].node in links
  }

  /** All that a dictionary has allocated and may still use, its links included, is in own. */
  ghost predicate IsInside(own: set<object>, links: set<Link>, a: TaNode, b: TaNode, order: seq<Entry>) {
    a in own && a.list in own && b in own && b.list in own && (forall l :: l in links ==> l in own) &&
    forall i :: 0 <= i < |order| ==> order[i] in own && order[i].block in own && order[i].block.list in own
  }

  lemma InsideMoved(own: set<object>, links: set<Link>, a: TaNode, b: TaNode, order: seq<Entry>,
                    heads: seq<Link>, p: TaNode, order2: seq<Entry>)
    requires IsInside(own, links, a, b, order) && AmongEntries(order2, order)
    ensures IsInside(own + (set h | h in heads) + {p, p.list}, links + (set h | h in heads), a, p, order2)
  {
  }

  lemma ShapeWith(gc: TaNode, buckets: seq<Link>, nbuckets: nat, n: nat, order: seq<Entry>, links: set<Link>, e: Entry)
    requires ShapeIs(gc, buckets, nbuckets, n, order, links) && UniqueKeys(order + [e]) && e.node != gc.list
    ensures ShapeIs(gc, buckets, nbuckets, n + 1, order + [e], links + {e.node})
  {
    hide IsPowerOfTwo;
  }

  lemma ShapeWithout(gc: TaNode, buckets: seq<Link>, nbuckets: nat, n: nat, order: seq<Entry>, links: set<Link>, i: nat)
    requires ShapeIs(gc, buckets, nbuckets, n, order, links) && i < |order|
    ensures n > 0 && ShapeIs(gc, buckets, nbuckets, n - 1, Without(order, i), links)
  {
    hide IsPowerOfTwo;
  }

  lemma LinksWith(gc: TaNode, p: TaNode, live: seq<TaNode>)
    ensures LinkSet(gc, [p] + live) == LinkSet(gc, live) + {p.list}
    ensures forall x :: x in [p] + live <==> x == p || x in live
  {
    var both := [p] + live;
    forall i | 0 <= i < |live|
      ensures live[i].list in LinkSet(gc, both)
    {
      assert both[i + 1] == live[i];
    }
    assert both[0] == p;
  }

  /**
    Setting a key in a dictionary that stood for was has made the log of allocations grow from before
    to after; a flag that was not asked for is set.
  */
  ghost predicate AskedFor(was: Runs.Dict<TaNode?>, key: string, val: TaNode?, entryOk: bool, growOk: bool,
                           before: seq<bool>, after: seq<bool>)
  {
    var asked := Runs.Asked(was, Runs.OpSet(key, val, entryOk, growOk));
    after == before + asked && (false !in asked ==> entryOk && growOk)
  }

  /** A known key asks for nothing. */
  lemma NothingAsked(was: Runs.Dict<TaNode?>, key: string, val: TaNode?, log: seq<bool>)
    requires IndexOf(was.items, key) >= 0
    ensures AskedFor(was, key, val, true, true, log, log)
  {
    assert log + [] == log;
  }

  /** A new key asks for its entry, and then perhaps for a larger table. */
  lemma EntryAsked(was: Runs.Dict<TaNode?>, key: string, val: TaNode?, entryOk: bool, growOk: bool,
                   before: seq<bool>, after: seq<bool>)
    requires IndexOf(was.items, key) < 0
    requires var next := Runs.Dict(was.nbuckets, was.items + [Item(key, val)]);
             if entryOk then
               after == before + [true] + Runs.AskedToGrow(next, growOk) && (!Runs.Full(next) ==> growOk)
             else after == before + [false]
    ensures AskedFor(was, key, val, entryOk, growOk, before, after)
  {
    hide IndexOf;
    var next := Runs.Dict(was.nbuckets, was.items + [Item(key, val)]);
    assert before + [true] + Runs.AskedToGrow(next, growOk) == before + ([true] + Runs.AskedToGrow(next, growOk));
    assert Runs.Full(next) ==> ([true] + Runs.AskedToGrow(next, growOk))[1] == growOk;
  }

  /** A set fails exactly if one allocation was tried and failed. */
  lemma FailsForEntry(was: Runs.Dict<TaNode?>, key: string, val: TaNode?, entryOk: bool, growOk: bool,
                      before: seq<bool>, after: seq<bool>)
    requires AskedFor(was, key, val, entryOk, growOk, before, after)
    ensures Runs.Set(was, key, val, entryOk, growOk).1 == if after == before + [false] then -1 else 0
  {
    hide Runs.Full;
    assert entryOk && IndexOf(was.items, key) < 0 ==> after[|before|];
  }

  /** A table of twice the size holds the same chains whichever way the entries are ordered. */
  lemma DoubledTable(m: Rings, heads: seq<Link>, n: nat, entries: seq<Entry>, hash: HashFn)
    requires IsPowerOfTwo(n) && n > 0 && |heads| == 2 * n
    requires Table(m, heads, Chained(entries, EntryHash(hash), n, n), hash)
    ensures Table(m, heads, entries, hash)
  {
    forall b | 0 <= b < |heads|
      ensures heads[b] in m && m[heads[b]] == Nodes(Chain(entries, hash, |heads|, b))
    {
      DoublingKeepsOrder(entries, EntryHash(hash), n, b);
    }
  }

  lemma BlocksReordered(live: seq<TaNode>, a: TaNode, b: TaNode, entries: seq<Entry>, entries2: seq<Entry>)
    requires OwnBlocks(live, a, b, entries) && AmongEntries(entries, entries2) && AmongEntries(entries2, entries)
    ensures OwnBlocks(live, a, b, entries2)
    ensures ForeignIn(live, a, b, entries2) == ForeignIn(live, a, b, entries)
  {
  }

  class Dict {
    const gc: TaNode
    const hash: HashFn
    const block: TaNode
    var buckets: seq<Link>
    var bucketsBlock: TaNode
    var nbuckets: nat
    var count: nat
    ghost var order: seq<Entry>
    ghost var rings: Rings
    ghost var links: set<Link>  // all links the dictionary has used
    ghost var own: set<object>  // all that it has allocated

    constructor (gc: TaNode, hash: HashFn, block: TaNode, buckets: seq<Link>, bucketsBlock: TaNode)
      ensures this.gc == gc && this.hash == hash && this.block == block
      ensures this.buckets == buckets && this.bucketsBlock == bucketsBlock && nbuckets == |buckets| && count == 0
      ensures order == [] && rings == (map h | h in buckets :: []) && links == set h | h in buckets
      ensures own == {block, block.list, bucketsBlock, bucketsBlock.list} + set h | h in buckets
    {
      this.gc, this.hash, this.block, this.buckets, this.bucketsBlock := gc, hash, block, buckets, bucketsBlock;
      nbuckets, count := |buckets|, 0;
      order, rings, links := [], map h | h in buckets :: [], set h | h in buckets;
      own := {block, block.list, bucketsBlock, bucketsBlock.list} + set h | h in buckets;
    }

    ghost predicate Shape(n: nat)
      reads this
    {
      ShapeIs(gc, buckets, nbuckets, n, order, links) && TableIn(buckets, bucketsBlock)
    }

    /** The rings in use are exactly those of the table, and so is the allocator's. */
    ghost predicate Linked()
      reads this, gc, gc.list, gc.live, Links(gc.live), links
    {
      rings.Keys == (set h | h in buckets) && Enclosed(rings, links) && AllRings(rings) &&
      Table(rings, buckets, order, hash) && gc.Valid()
    }

    ghost predicate Valid()
      reads this, gc, gc.list, gc.live, Links(gc.live), links, Nodes(order)
    {
      Shape(count) && Linked() && Owners(order) && OwnBlocks(gc.live, block, bucketsBlock, order) &&
      IsInside(own, links, block, bucketsBlock, order)
    }

    ghost function View(): Runs.Dict<TaNode?>
      reads this, order
    {
      Runs.Dict(nbuckets, ItemsOf(order))
    }

    /** The live allocations that are not the dictionary's own. */
    ghost function Foreign(): set<TaNode>
      reads this, gc
    {
      ForeignIn(gc.live, block, bucketsBlock, order)
    }

    /** Everything that an operation may change. */
    ghost function Footprint(): set<object>
      reads this, gc
    {
      {this, gc, gc.list} + own + Foreign() + set x | x in Foreign() :: x.list
    }

    lemma FootprintIs()
      ensures Footprint() == {this, gc, gc.list} + own + Foreign() + set x | x in Foreign() :: x.list
    {
    }

    lemma InFootprint()
      requires Valid()
      ensures {this, gc, gc.list} <= Footprint() && LinkSet(gc, gc.live) <= Footprint()
      ensures (forall l :: l in links ==> l in Footprint()) && forall x :: x in gc.live ==> x in Footprint()
      ensures forall e: Entry :: e in order ==> e in Footprint()
    {
      forall i | 0 <= i < |gc.live|
        ensures gc.live[i] in Footprint() && gc.live[i].list in Footprint()
      {
        var x := gc.live[i];
        if x !in Foreign() && x != block && x != bucketsBlock {
          var e: Entry :| e in order && e.block == x;
          var j :| 0 <= j < |order| && order[j] == e;
        }
      }
    }

    // ---------- Looking a key up ----------

    lemma AtEntry(b: nat, k: nat)
      requires Valid() && b < nbuckets && k <= |Chain(order, hash, nbuckets, b)|
      ensures var c, head := Chain(order, hash, nbuckets, b), buckets[b];
              head.next == (if 0 < |c| then c[0].node else head) &&
              (k < |c| ==> c[k].node != head && c[k].node.owner == c[k] && !c[k].block.freed &&
                           EntryOf(c[k].node) == c[k] &&
                           c[k].node.next == if k + 1 < |c| then c[k + 1].node else head)
      ensures var c, at := Chain(order, hash, nbuckets, b), BlockAt(Chain(order, hash, nbuckets, b), k, bucketsBlock);
              Holds(at, if k < |c| then c[k].node else buckets[b]) && !at.freed
      ensures Holds(bucketsBlock, buckets[b]) && !bucketsBlock.freed
    {
      NoneFreed();
      hide Chain, OwnBlocks;
      var c, head := Chain(order, hash, nbuckets, b), buckets[b];
      assert Ring(head, Nodes(c));
      if k < |c| {
        Neighbours(head, Nodes(c), k);
        OwnerIn(order, hash, nbuckets, b, k);
      }
    }

    /** None of the dictionary's memory has been freed. */
    lemma NoneFreed()
      requires Valid()
      ensures Unfreed(bucketsBlock, order) && HeadsIn(buckets, bucketsBlock)
    {
      hide Table, AllRings, Enclosed, ShapeIs, IsInside;
      forall i | 0 <= i < |order|
        ensures order[i].block in gc.live
      {
        assert order[i] in order;
      }
    }

    lemma StartWalk(key: string)
      requires Valid()
      ensures nbuckets > 0 && |buckets| == nbuckets && BucketFor(hash(key), nbuckets) < nbuckets && UniqueKeys(order)
    {
      BucketIsMod(hash(key), nbuckets);
    }

    /** The walk along the chain of key's bucket that all operations share: strcmp on every entry. */
    method Walk(key: string) returns (e: Entry?, ghost i: int)
      requires Valid()
      ensures Valid() && i == IndexOf(ItemsOf(order), key)
      ensures var j := IndexOf(ItemsOf(order), key); if j < 0 then e == null else j < |order| && e == order[j]
    {
      hide *;
      StartWalk(key);
      var b := BucketFor(hash(key), nbuckets);
      ghost var c, k := Chain(order, hash, nbuckets, b), 0;
      AtEntry(b, 0);
      var pos := Next(buckets[b], bucketsBlock);
      while pos != buckets[b]
        invariant Valid() && k <= |c| && pos == (if k < |c| then c[k].node else buckets[b])
        invariant forall j :: 0 <= j < k ==> c[j].key != key
        decreases |c| - k
      {
        AtEntry(b, k);
        e := EntryOf(pos);
        if e.key == key {
          i := FoundAt(order, hash, nbuckets, b, k, key);
          return;
        }
        pos := Next(pos, BlockAt(c, k, bucketsBlock));
        k := k + 1;
      }
      AtEntry(b, k);
      NotFound(order, hash, nbuckets, key);
      return null, -1;
    }

    /** The walk before an entry is set; it changes nothing. */
    method Find(key: string, ghost val: TaNode?) returns (e: Entry?, ghost i: int)
      requires Valid()
      ensures Valid() && i == IndexOf(ItemsOf(order), key) && if i < 0 then e == null else i < |order| && e == order[i]
      ensures View() == old(View()) && Foreign() == old(Foreign()) && Freed(key, val) == old(Freed(key, val))
    {
      hide Valid, IndexOf, ForeignIn;
      e, i := Walk(key);
    }

    method Get(key: string) returns (v: TaNode?)
      requires Valid()
      ensures v == if key in MapOf(View().items) then MapOf(View().items)[key] else null
    {
      var e, i := Walk(key);
      Runs.InMap(View().items, key);
      hide Valid, MapOf, Keys;
      v := if e != null then e.val else null;
    }

    method Has(key: string) returns (r: int)
      requires Valid()
      ensures r == if key in MapOf(View().items) then 1 else 0
    {
      var e, i := Walk(key);
      Runs.InMap(View().items, key);
      hide Valid, MapOf, Keys;
      r := if e != null then 1 else 0;
    }

    method Count() returns (n: nat)
      requires Valid()
      ensures n == |MapOf(View().items)|
    {
      n := count;
      Runs.SizeIsCount(View());
    }

    // ---------- Visiting all entries ----------

    lemma StartVisit(i: nat, visited: seq<Item<TaNode?>>, items: seq<Item<TaNode?>>)
      requires Valid() && i < nbuckets && items == ItemsOf(order)
      requires visited == Chained(items, ItemHash(hash), nbuckets, i)
      ensures nbuckets > 0 && i < |buckets|
      ensures var c := Chain(order, hash, nbuckets, i);
              visited + ItemsOf(c[..0]) == visited &&
              visited + ItemsOf(c[..|c|]) == Chained(items, ItemHash(hash), nbuckets, i + 1)
    {
      ChainedNext(order, hash, nbuckets, i);
      hide Chained, Chain;
      var c := Chain(order, hash, nbuckets, i);
      assert c[..|c|] == c;
    }

    /** The walk over one bucket: what fn is told, in order. */
    method VisitChain(i: nat, visited: seq<Item<TaNode?>>, ghost items: seq<Item<TaNode?>>)
      returns (after: seq<Item<TaNode?>>)
      requires Valid() && i < nbuckets && items == ItemsOf(order)
      requires visited == Chained(items, ItemHash(hash), nbuckets, i)
      ensures Valid() && items == ItemsOf(order)
      ensures after == Chained(items, ItemHash(hash), nbuckets, i + 1)
    {
      hide *;
      StartVisit(i, visited, items);
      ghost var c, k := Chain(order, hash, nbuckets, i), 0;
      AtEntry(i, 0);
      after := visited;
      var pos := Next(buckets[i], bucketsBlock);
      var tmp := Next(pos, BlockAt(c, 0, bucketsBlock));
      while pos != buckets[i]
        invariant k <= |c| && pos == (if k < |c| then c[k].node else buckets[i]) && tmp == pos.next
        invariant Valid() && items == ItemsOf(order) && after == visited + ItemsOf(c[..k])
        invariant visited + ItemsOf(c[..|c|]) == Chained(items, ItemHash(hash), nbuckets, i + 1)
        decreases |c| - k
      {
        AtEntry(i, k);
        ItemsTake(c, k, visited);
        var e := EntryOf(pos);
        after := after + [Item(e.key, e.val)];
        pos := tmp;
        k := k + 1;
        AtEntry(i, k);
        tmp := Next(pos, BlockAt(c, k, bucketsBlock));
      }
      AtEntry(i, k);
    }

    /**
      dict_each, with a callback that does not change the dictionary: every entry once, bucket after
      bucket. The bucket count is cast to int: a table of 2^31 buckets has its entries skipped.
    */
    method Each() returns (visited: seq<Item<TaNode?>>)
      requires Valid()
      ensures nbuckets <= INT_MAX ==>
                nbuckets > 0 && visited == Chained(ItemsOf(order), ItemHash(hash), nbuckets, nbuckets) &&
                Unique(visited) && MapOf(visited) == MapOf(ItemsOf(order))
      ensures nbuckets > INT_MAX ==> visited == []
    {
      hide *;
      visited := [];
      if nbuckets <= INT_MAX {
        visited := VisitAll(ItemsOf(order));
      }
    }

    /** The outer loop of dict_each. */
    method VisitAll(ghost items: seq<Item<TaNode?>>) returns (visited: seq<Item<TaNode?>>)
      requires Valid() && items == ItemsOf(order)
      ensures items == ItemsOf(order) && nbuckets > 0 && visited == Chained(items, ItemHash(hash), nbuckets, nbuckets)
      ensures Unique(visited) && MapOf(visited) == MapOf(items)
    {
      hide *;
      EachFacts(items);
      visited := [];
      for i := 0 to nbuckets
        invariant Valid() && items == ItemsOf(order) && visited == Chained(items, ItemHash(hash), nbuckets, i)
      {
        visited := VisitChain(i, visited, items);
      }
    }

    lemma EachFacts(items: seq<Item<TaNode?>>)
      requires Valid() && items == ItemsOf(order)
      ensures nbuckets > 0 && Chained(items, ItemHash(hash), nbuckets, 0) == []
      ensures var s := Chained(items, ItemHash(hash), nbuckets, nbuckets);
              Unique(s) && MapOf(s) == MapOf(items)
    {
      EachIsAll(order, hash, nbuckets);
    }

    // ---------- Linking and unlinking entries ----------

    /** Records new rings, a new order of entries and new links. */
    ghost method Relink(r: Rings, o: seq<Entry>, l: set<Link>)
      requires r.Keys == (set h | h in buckets) && Enclosed(r, l) && AllRings(r)
      requires Table(r, buckets, o, hash) && gc.Valid()
      modifies this`rings, this`order, this`links
      ensures rings == r && order == o && links == l && Linked()
    {
      hide Ring, Owned, Table;
      rings, order, links := r, o, l;
    }

    /** Where the i-th entry is linked, and what the table is without it. */
    lemma DetachTable(i: nat) returns (b: nat, k: nat)
      requires Valid() && i < |order|
      ensures b < |buckets| && buckets[b] in rings && k < |rings[buckets[b]]| && rings[buckets[b]][k] == order[i].node
      ensures Table(rings[buckets[b] := Without(rings[buckets[b]], k)], buckets, Without(order, i), hash)
    {
      b := BucketFor(hash(order[i].key), nbuckets);
      BucketIsMod(hash(order[i].key), nbuckets);
      TableRemove(rings, buckets, order, hash, i, b);
      k := |Chain(order[..i], hash, nbuckets, b)|;
      hide Chain, BucketFor, IsPowerOfTwo, Table, UniqueKeys, DistinctLinks, Owners, OwnBlocks, AllRings, IsInside;
    }

    /** The links that taking the k-th link out of a ring touches. */
    lemma LinksAround(h: Link, k: nat)
      requires AllRings(rings) && Enclosed(rings, links) && h in rings && k < |rings[h]|
      ensures {rings[h][k], rings[h][k].next, rings[h][k].prev} <= links
      ensures Enclosed(rings[h := Without(rings[h], k)], links)
    {
      assert Ring(h, rings[h]);
      Neighbours(h, rings[h], k);
      hide Ring;
    }

    lemma LinkedParts()
      requires Valid()
      ensures rings.Keys == (set h | h in buckets) && Enclosed(rings, links) && AllRings(rings) && gc.Valid()
      ensures gc.list !in rings
    {
      hide Ring, Owned, Table, OwnBlocks, IsPowerOfTwo;
    }

    lemma BeforeDetach(i: nat) returns (b: nat, k: nat)
      requires Valid() && i < |order|
      ensures b < |buckets| && buckets[b] in rings && k < |rings[buckets[b]]| && rings[buckets[b]][k] == order[i].node
      ensures {order[i].node, order[i].node.next, order[i].node.prev} <= links
      ensures AllRings(rings) && gc.Valid() && gc.list !in rings
      ensures var r := rings[buckets[b] := Without(rings[buckets[b]], k)];
              Table(r, buckets, Without(order, i), hash) && Enclosed(r, links) && r.Keys == set h | h in buckets
    {
      hide *;
      LinkedParts();
      b, k := DetachTable(i);
      LinksAround(buckets[b], k);
    }

    /** list_del of the i-th entry: it leaves its chain, and nothing else of the table changes. */
    method Detach(e: Entry, ghost i: nat)
      requires Valid() && i < |order| && order[i] == e
      modifies this`rings, this`order, this`links, links`next, links`prev, links`home
      ensures order == Without(old(order), i) && links == old(links) && Linked()
    {
      ghost var b, k := BeforeDetach(i);
      ghost var m, head := rings, buckets[b];
      ghost var r, o := m[head := Without(m[head], k)], Without(order, i);
      hide *;
      DelBeside(e.node, head, k, m, gc);
      Relink(r, o, links);
    }

    /** The same, seen from the items. */
    method DetachItem(e: Entry, ghost i: nat)
      requires Valid() && i < |order| && order[i] == e
      modifies this`rings, this`order, this`links, links`next, links`prev, links`home
      ensures order == Without(old(order), i) && links == old(links) && Linked()
      ensures Owners(order) && ItemsOf(order) == Without(old(ItemsOf(order)), i)
    {
      EntriesWithout(order, i);
      hide Valid, Linked, UniqueKeys, Without;
      Detach(e, i);
    }

    /** Frees an allocation, as seen from the rings and the items. */
    method FreeBlock(p: TaNode)
      requires Linked() && Owners(order) && gc.list !in links && p in gc.live
      modifies gc`live, p`freed
      modifies LinkSet(gc, gc.live)`next, LinkSet(gc, gc.live)`prev, LinkSet(gc, gc.live)`home
      ensures Linked() && Owners(order) && ItemsOf(order) == old(ItemsOf(order)) && p.freed
      ensures forall x :: x in gc.live <==> x in old(gc.live) && x != p
    {
      assert gc.list !in rings;
      hide Enclosed, Table, Ring, Owned, LinkSet, Links, Nodes;
      Release(p, gc, rings);
    }

    /** Where a new entry goes, and what the table is with it. */
    lemma BeforeAttach(e: Entry, b: nat)
      requires Valid() && b == BucketFor(hash(e.key), nbuckets)
      ensures b < |buckets| && buckets[b] in rings && {buckets[b], buckets[b].prev} <= links
      ensures AllRings(rings) && gc.Valid() && gc.list !in rings
      ensures var r := rings[buckets[b] := rings[buckets[b]] + [e.node]];
              Table(r, buckets, order + [e], hash) && Enclosed(r, links + {e.node}) && r.Keys == set h | h in buckets
    {
      BucketIsMod(hash(e.key), nbuckets);
      TableInsert(rings, buckets, order, hash, e, b);
      hide Chain, BucketFor, IsPowerOfTwo, Table, UniqueKeys, DistinctLinks, Owners, OwnBlocks;
      EndsIn(buckets[b], rings, links);
    }

    /** list_add_tail of a new entry: it becomes the last of its chain. */
    method Attach(e: Entry)
      requires Valid() && e.node.home == null
      modifies this`rings, this`order, this`links, links`next, links`prev, links`home
      modifies e.node`next, e.node`prev, e.node`home
      ensures order == old(order) + [e] && links == old(links) + {e.node} && Linked()
    {
      var b := BucketFor(hash(e.key), nbuckets);
      BeforeAttach(e, b);
      ghost var m, head := rings, buckets[b];
      ghost var r, o, l := m[head := m[head] + [e.node]], order + [e], links + {e.node};
      hide *;
      AddBeside(e.node, buckets[b], m, gc);
      Relink(r, o, l);
    }

    /** Stores the new count, which completes an operation. */
    method Recount(n: nat, ghost own2: set<object>)
      requires Linked() && Owners(order) && Shape(n) && OwnBlocks(gc.live, block, bucketsBlock, order)
      requires IsInside(own2, links, block, bucketsBlock, order)
      modifies this`count, this`own
      ensures count == n && own == own2 && Valid() && ItemsOf(order) == old(ItemsOf(order))
    {
      hide Ring, Owned, Table, Enclosed, ShapeIs, IsInside;
      count := n;
      own := own2;
    }

    // ---------- Deleting ----------

    /** Takes the i-th entry out of the table and frees its memory. */
    method DelAt(e: Entry, ghost i: nat)
      requires Valid() && i < |order| && order[i] == e
      modifies this`rings, this`order, this`links, this`own, this`count, links`next, links`prev, links`home
      modifies gc`live, gc.live`freed, LinkSet(gc, gc.live)`next, LinkSet(gc, gc.live)`prev, LinkSet(gc, gc.live)`home
      ensures Valid() && ItemsOf(order) == Without(old(ItemsOf(order)), i) && Foreign() == old(Foreign())
      ensures own == old(own) && e.block.freed && order == Without(old(order), i)
    {
      hide *;
      ghost var o, live := order, gc.live;
      BeforeDel(i);
      DetachItem(e, i);
      FreeBlock(e.block);
      BlocksWithout(live, gc.live, block, bucketsBlock, o, i);
      InShape(count - 1);
      Recount(count - 1, own);
      ForeignHere(gc.live, Without(o, i));
    }

    lemma BeforeDel(i: nat)
      requires Valid() && i < |order|
      ensures OwnBlocks(gc.live, block, bucketsBlock, order) && UniqueKeys(order) && order[i].block in gc.live
      ensures Foreign() == ForeignIn(gc.live, block, bucketsBlock, order) && gc.list !in links
      ensures count > 0 && ShapeIs(gc, buckets, nbuckets, count - 1, Without(order, i), links)
      ensures TableIn(buckets, bucketsBlock)
      ensures IsInside(own, links, block, bucketsBlock, Without(order, i))
    {
      ShapeWithout(gc, buckets, nbuckets, count, order, links, i);
      hide Linked, Owners, IsPowerOfTwo, Without;
    }

    /** dict_del: the entry and its memory go, and nothing else. */
    method Del(key: string) returns (r: int)
      requires Valid()
      modifies this`rings, this`order, this`links, this`own, this`count, links`next, links`prev, links`home
      modifies gc`live, gc.live`freed, LinkSet(gc, gc.live)`next, LinkSet(gc, gc.live)`prev, LinkSet(gc, gc.live)`home
      ensures Valid()
      ensures (View(), r) == Runs.Del(old(View()), key)
      ensures Foreign() == old(Foreign())
      ensures r == 0 ==>
                var i := old(IndexOf(ItemsOf(order), key));
                old(order)[i].block.freed && order == Without(old(order), i)
      ensures own == old(own)
    {
      var e, i := Walk(key);
      if e == null {
        return -1;
      }
      DelAt(e, i);
      r := 0;
    }

    // ---------- Inserting ----------

    /** ta_malloc for the dictionary: until it is used, the block is foreign. */
    method AllocBlock(size: nat) returns (p: TaNode?)
      requires Valid()
      modifies gc`live, gc`log, gc.list`next, gc.list.next`prev
      ensures Valid() && ItemsOf(order) == old(ItemsOf(order))
      ensures gc.log == old(gc.log) + [p != null]
      ensures gc.live == if p == null then old(gc.live) else [p] + old(gc.live)
      ensures p != null ==> fresh(p) && fresh(p.list) && Sized(p, size)
    {
      assert gc.list !in rings;
      hide Ring, TaNode.Valid, Table, Enclosed, Shape, Nodes, Links;
      p := Alloc(gc, size, rings);
    }

    /**
      Fills a new block with an entry that is not linked yet. The key and its terminator are copied behind
      the fixed part of the entry, and lie inside the block.
    */
    method NewEntry(key: string, val: TaNode?, p: TaNode) returns (e: Entry)
      requires Valid() && ENTRY_SIZE + |key| + 1 <= p.room
      ensures Valid() && ItemsOf(order) == old(ItemsOf(order))
      ensures fresh(e) && fresh(e.node) && e.node.home == null && e.node.owner == e && e.node.store == p
      ensures e.key == key && e.val == val && e.block == p
      ensures fresh(e.text) && e.text[..] == key + "\0" && ENTRY_SIZE + e.text.Length <= p.room
    {
      hide Ring, Owned, Enclosed, Table, OwnBlocks, DistinctLinks, UniqueKeys, IsPowerOfTwo;
      var node := new Link(p);
      var text := CopyKey(key, p, ENTRY_SIZE);
      e := new Entry(node, key, val, p, text);
      node.owner := e;
    }

    lemma EntriesOf(e: Entry)
      requires Valid() && e.node.owner == e && e.node.store == e.block && IndexOf(ItemsOf(order), e.key) < 0
      ensures Owners(order + [e]) && ItemsOf(order + [e]) == ItemsOf(order) + [Item(e.key, e.val)]
    {
      EntriesWith(order, e);
    }

    /** Attach, seen from the items. */
    method AttachItem(e: Entry)
      requires Valid() && e.node.home == null && e.node.owner == e && e.node.store == e.block
      requires IndexOf(ItemsOf(order), e.key) < 0
      modifies this`rings, this`order, this`links, links`next, links`prev, links`home
      modifies e.node`next, e.node`prev, e.node`home
      ensures order == old(order) + [e] && links == old(links) + {e.node} && Linked()
      ensures Owners(order) && ItemsOf(order) == old(ItemsOf(order)) + [Item(e.key, e.val)]
    {
      EntriesOf(e);
      hide *;
      Attach(e);
    }

    /** A new entry in the new block p, and what the dictionary will be with it. */
    method Prepare(p: TaNode, key: string, val: TaNode?, ghost live: seq<TaNode>) returns (e: Entry)
      requires Valid() && p !in live && OwnBlocks(live, block, bucketsBlock, order)
      requires Sized(p, EntrySize(key)) && IndexOf(ItemsOf(order), key) < 0
      ensures Valid() && ItemsOf(order) == old(ItemsOf(order)) && IndexOf(ItemsOf(order), key) < 0
      ensures fresh(e) && fresh(e.node) && e.node.home == null && e.node.owner == e && e.node.store == e.block
      ensures e.key == key && e.val == val
      ensures OwnBlocks([p] + live, block, bucketsBlock, order + [e])
      ensures ForeignIn([p] + live, block, bucketsBlock, order + [e]) == ForeignIn(live, block, bucketsBlock, order)
      ensures ShapeIs(gc, buckets, nbuckets, count + 1, order + [e], links + {e.node})
      ensures IsInside(own + {e, e.node, p, p.list}, links + {e.node}, block, bucketsBlock, order + [e])
    {
      assert UniqueKeys(order) && ShapeIs(gc, buckets, nbuckets, count, order, links) && Owners(order);
      e := NewEntry(key, val, p);
      hide Valid, OwnBlocks, ForeignIn;
      EntriesWith(order, e);
      BlocksWith(live, block, bucketsBlock, order, e);
      ShapeWith(gc, buckets, nbuckets, count, order, links, e);
    }

    lemma SizeOfTable()
      requires Valid()
      ensures TableIn(buckets, bucketsBlock)
    {
    }

    lemma InShape(n: nat)
      requires ShapeIs(gc, buckets, nbuckets, n, order, links) && TableIn(buckets, bucketsBlock)
      ensures Shape(n)
    {
    }

    lemma ForeignHere(live: seq<TaNode>, o: seq<Entry>)
      ensures gc.live == live && order == o ==> Foreign() == ForeignIn(live, block, bucketsBlock, o)
    {
    }

    /** Links a new entry in the new block p, which was foreign until now. */
    method Fill(p: TaNode, key: string, val: TaNode?, ghost live: seq<TaNode>)
      requires Valid() && IndexOf(ItemsOf(order), key) < 0
      requires gc.live == [p] + live && p !in live && OwnBlocks(live, block, bucketsBlock, order)
      requires Sized(p, EntrySize(key))
      modifies this`rings, this`order, this`links, this`own, this`count, links`next, links`prev, links`home
      ensures Valid() && Foreign() == ForeignIn(live, block, bucketsBlock, old(order))
      ensures ItemsOf(order) == old(ItemsOf(order)) + [Item(key, val)]
      ensures fresh(links - old(links))
      ensures fresh(own - old(own) - {p, p.list})
    {
      hide *;
      ghost var o := order;
      SizeOfTable();
      var e := Prepare(p, key, val, live);
      AttachItem(e);
      InShape(count + 1);
      Recount(count + 1, own + {e, e.node, p, p.list});
      ForeignHere([p] + live, o + [e]);
    }

    lemma BeforeInsert()
      requires Valid()
      ensures OwnBlocks(gc.live, block, bucketsBlock, order)
      ensures Foreign() == ForeignIn(gc.live, block, bucketsBlock, order)
      ensures gc.list in LinkSet(gc, gc.live) && gc.list.next in LinkSet(gc, gc.live)
    {
      FirstInRing(gc);
    }

    /** The second half of dict_set_impl, before growing: a new entry, if its block p can be allocated. */
    method Insert(key: string, val: TaNode?) returns (p: TaNode?)
      requires Valid() && IndexOf(ItemsOf(order), key) < 0
      modifies this`rings, this`order, this`links, this`own, this`count, links`next, links`prev, links`home
      modifies gc`live, gc`log, LinkSet(gc, gc.live)`next, LinkSet(gc, gc.live)`prev
      ensures Valid() && Foreign() == old(Foreign()) && fresh(links - old(links))
      ensures gc.log == old(gc.log) + [p != null]
      ensures p == null ==> gc.live == old(gc.live) && ItemsOf(order) == old(ItemsOf(order))
      ensures p != null ==> fresh(p) && fresh(p.list) && gc.live == [p] + old(gc.live) &&
                            ItemsOf(order) == old(ItemsOf(order)) + [Item(key, val)]
      ensures fresh(own - old(own))
    {
      hide *;
      BeforeInsert();
      p := AllocBlock(EntrySize(key));
      ForeignHere(gc.live, order);
      if p != null {
        Fill(p, key, val, old(gc.live));
      }
    }

    // ---------- Rehashing ----------

    /** Everything is linked as the dictionary will need it with the table under heads. */
    ghost predicate Ready(heads: seq<Link>, r: Rings, o: seq<Entry>, l: set<Link>)
      reads *
    {
      r.Keys == (set h | h in heads) && Enclosed(r, l) && AllRings(r) && Table(r, heads, o, hash) &&
      gc.Valid() && Owners(o)
    }

    /** Moves all entries to the new table. */
    method MoveOut(heads: seq<Link>, ghost o: seq<Entry>, ghost l: set<Link>, ghost all: set<Link>)
      returns (ghost r: Rings)
      requires Valid() && |heads| > 0 && IsPowerOfTwo(|heads|) && DistinctLinks(heads) && Unused(heads, rings, gc)
      requires all == l + LinkSet(gc, gc.live) && l == links + set h | h in heads
      requires o == Chained(order, EntryHash(hash), nbuckets, nbuckets) && Owners(o) && AmongEntries(o, order)
      modifies all`next, all`prev, all`home
      ensures Ready(heads, r, o, l) && ItemsOf(o) == old(ItemsOf(o))
    {
      hide Ring, Owned, Chained, IsPowerOfTwo, UniqueKeys, OwnBlocks, Nodes, Links, LinkSet, Chain, Unused, Shape;
      hide Table, AllRings, TaNode.Valid, Enclosed, DistinctLinks, Valid, Linked, BlocksOf;
      BeforeMove(heads, o, l);
      NoneFreed();
      r := Transfer(buckets, heads, hash, gc, order, bucketsBlock, rings, links, all);
      TableEnclosed(r, heads, o, hash, l);
    }

    lemma BeforeMove(heads: seq<Link>, o: seq<Entry>, l: set<Link>)
      requires Valid() && l == links + (set h | h in heads) && AmongEntries(o, order)
      ensures |buckets| == nbuckets > 0 && DistinctLinks(buckets) && Table(rings, buckets, order, hash)
      ensures gc.Valid() && AllRings(rings) && gc.list !in rings && Enclosed(rings, links) && Owners(order)
      ensures (forall h :: h in heads ==> h in l) && forall i :: 0 <= i < |o| ==> o[i].node in l
    {
      hide Table, IsPowerOfTwo, Owners, TaNode.Valid, OwnBlocks;
    }

    /** Records a new table. */
    method Rebind(heads: seq<Link>, p: TaNode, ghost r: Rings, ghost o: seq<Entry>, ghost l: set<Link>)
      requires Ready(heads, r, o, l) && ShapeIs(gc, heads, |heads|, count, o, l)
      requires TableIn(heads, p)
      modifies this`buckets, this`nbuckets, this`bucketsBlock, this`rings, this`order, this`links
      ensures buckets == heads && nbuckets == |heads| && bucketsBlock == p && order == o && links == l
      ensures Shape(count) && Linked() && Owners(order) && ItemsOf(order) == old(ItemsOf(o))
    {
      hide Ring, Owned, Table, ShapeIs;
      buckets, nbuckets, bucketsBlock := heads, |heads|, p;
      rings, order, links := r, o, l;
    }

    /** The new table keeps the dictionary's own invariant. */
    lemma NewShape(heads: seq<Link>, o: seq<Entry>, l: set<Link>)
      requires Valid() && 4 <= |heads| <= Runs.MAX_BUCKETS && IsPowerOfTwo(|heads|) && DistinctLinks(heads)
      requires Unused(heads, rings, gc)
      requires o == Chained(order, EntryHash(hash), nbuckets, nbuckets) && l == links + set h | h in heads
      ensures ShapeIs(gc, heads, |heads|, count, o, l) && Owners(o) && AmongEntries(o, order) && AmongEntries(order, o)
      ensures ItemsOf(o) == Chained(ItemsOf(order), ItemHash(hash), nbuckets, nbuckets)
    {
      EntriesChained(order, hash, nbuckets);
      hide Chained;
    }

    /** Moves all entries to the new table and makes it the dictionary's. */
    method MoveTo(heads: seq<Link>, p: TaNode, ghost all: set<Link>)
      requires Valid() && 4 <= |heads| <= Runs.MAX_BUCKETS && IsPowerOfTwo(|heads|) && DistinctLinks(heads)
      requires Unused(heads, rings, gc) && all == links + (set h | h in heads) + LinkSet(gc, gc.live)
      requires TableIn(heads, p)
      modifies this`buckets, this`nbuckets, this`bucketsBlock, this`rings, this`order, this`links
      modifies all`next, all`prev, all`home
      ensures nbuckets == |heads| && bucketsBlock == p && links == old(links) + set h | h in heads
      ensures order == Chained(old(order), EntryHash(hash), old(nbuckets), old(nbuckets))
      ensures AmongEntries(order, old(order)) && AmongEntries(old(order), order)
      ensures Shape(count) && Linked() && Owners(order)
      ensures ItemsOf(order) == Chained(old(ItemsOf(order)), ItemHash(hash), old(nbuckets), old(nbuckets))
    {
      ghost var o, l := Chained(order, EntryHash(hash), nbuckets, nbuckets), links + set h | h in heads;
      NewShape(heads, o, l);
      hide Valid, Chained, IsPowerOfTwo, LinkSet, Unused, Owners, Ready, Linked, AmongEntries, DistinctLinks, ShapeIs;
      ghost var r := MoveOut(heads, o, l, all);
      Rebind(heads, p, r, o, l);
    }

    /** Completes an operation that keeps the count. */
    ghost method Conclude(own2: set<object>)
      requires Linked() && Owners(order) && Shape(count) && OwnBlocks(gc.live, block, bucketsBlock, order)
      requires IsInside(own2, links, block, bucketsBlock, order)
      modifies this`own
      ensures own == own2 && Valid() && ItemsOf(order) == old(ItemsOf(order))
    {
      hide Ring, Owned, Table, Enclosed, ShapeIs, IsInside;
      own := own2;
    }

    /** The second half of dict_rehash: moves all entries to the new table and frees the old one. */
    method Replace(heads: seq<Link>, p: TaNode, ghost live: seq<TaNode>, ghost all: set<Link>)
      requires Valid() && 4 <= |heads| <= Runs.MAX_BUCKETS && IsPowerOfTwo(|heads|) && DistinctLinks(heads)
      requires gc.live == [p] + live && p !in live && OwnBlocks(live, block, bucketsBlock, order)
      requires Unused(heads, rings, gc) && all == links + (set h | h in heads) + LinkSet(gc, gc.live)
      requires TableIn(heads, p)
      modifies this`buckets, this`nbuckets, this`bucketsBlock, this`rings, this`order, this`links, this`own
      modifies all`next, all`prev, all`home, gc`live, gc.live`freed
      ensures Valid() && Foreign() == ForeignIn(live, block, old(bucketsBlock), old(order))
      ensures nbuckets == |heads| && links == old(links) + set h | h in heads
      ensures order == Chained(old(order), EntryHash(hash), old(nbuckets), old(nbuckets))
      ensures ItemsOf(order) == Chained(old(ItemsOf(order)), ItemHash(hash), old(nbuckets), old(nbuckets))
      ensures own == old(own) + (set h | h in heads) + {p, p.list} && old(bucketsBlock).freed
    {
      hide *;
      var oldBlock := bucketsBlock;
      ghost var o := order;
      InLive(p, live);
      NowInside();
      ghost var own2, l, b := own + (set h | h in heads) + {p, p.list}, links, bucketsBlock;
      MoveTo(heads, p, all);
      InsideMoved(own, l, block, b, o, heads, p, order);
      OffLinks();
      FreeBlock(oldBlock);
      BlocksMoved(live, gc.live, block, oldBlock, p, o, order);
      Conclude(own2);
      ForeignHere(gc.live, order);
    }

    lemma InLive(p: TaNode, live: seq<TaNode>)
      requires OwnBlocks(live, block, bucketsBlock, order)
      ensures bucketsBlock in live && bucketsBlock in [p] + live
    {
    }

    lemma NowInside()
      requires Valid()
      ensures IsInside(own, links, block, bucketsBlock, order)
    {
    }

    lemma OffLinks()
      requires Shape(count)
      ensures gc.list !in links
    {
    }

    /** A fresh array of sentinels for the dictionary. */
    method NewTable(n: nat, ghost p: TaNode) returns (heads: seq<Link>)
      requires Valid() && Sized(p, TableSize(n))
      ensures Valid() && ItemsOf(order) == old(ItemsOf(order))
      ensures |heads| == n && DistinctLinks(heads) && Unused(heads, rings, gc) && TableIn(heads, p)
      ensures forall i :: 0 <= i < n ==> fresh(heads[i])
    {
      heads := NewHeads(n, p);
    }

    /** Makes p the block of a new table of n buckets. */
    method Install(n: nat, p: TaNode, ghost live: seq<TaNode>)
      requires Valid() && 4 <= n <= 0xffff_ffff && IsPowerOfTwo(n)
      requires gc.live == [p] + live && p !in live && OwnBlocks(live, block, bucketsBlock, order)
      requires Sized(p, TableSize(n))
      modifies this`buckets, this`nbuckets, this`bucketsBlock, this`rings, this`order, this`links, this`own
      modifies links`next, links`prev, links`home, gc`live, gc.live`freed
      modifies LinkSet(gc, gc.live)`next, LinkSet(gc, gc.live)`prev, LinkSet(gc, gc.live)`home
      ensures Valid() && Foreign() == ForeignIn(live, block, old(bucketsBlock), old(order))
      ensures nbuckets == n && order == Chained(old(order), EntryHash(hash), old(nbuckets), old(nbuckets)) &&
              ItemsOf(order) == Chained(old(ItemsOf(order)), ItemHash(hash), old(nbuckets), old(nbuckets))
      ensures fresh(own - old(own) - {p, p.list}) && old(bucketsBlock).freed
    {
      hide Valid, OwnBlocks, ForeignIn, ItemsOf, IsPowerOfTwo, Chained, DistinctLinks, Unused, TableIn;
      var heads := NewTable(n, p);
      Runs.LargestPower(n);
      ghost var all := links + (set h | h in heads) + LinkSet(gc, gc.live);
      Replace(heads, p, live, all);
    }

    /** dict_rehash for a valid size: all or nothing. */
    method Resize(n: nat) returns (ok: bool)
      requires Valid() && 4 <= n <= 0xffff_ffff && IsPowerOfTwo(n)
      modifies this`buckets, this`nbuckets, this`bucketsBlock, this`rings, this`order, this`links, this`own
      modifies links`next, links`prev, links`home, gc`live, gc`log, gc.live`freed
      modifies LinkSet(gc, gc.live)`next, LinkSet(gc, gc.live)`prev, LinkSet(gc, gc.live)`home
      ensures Valid() && Foreign() == old(Foreign())
      ensures gc.log == old(gc.log) + [ok]
      ensures ok ==> nbuckets == n && order == Chained(old(order), EntryHash(hash), old(nbuckets), old(nbuckets)) &&
                     ItemsOf(order) == Chained(old(ItemsOf(order)), ItemHash(hash), old(nbuckets), old(nbuckets))
      ensures ok ==> old(bucketsBlock).freed
      ensures !ok ==> unchanged(this) && gc.live == old(gc.live) && ItemsOf(order) == old(ItemsOf(order))
      ensures fresh(own - old(own))
    {
      hide *;
      BeforeInsert();
      var p := AllocBlock(TableSize(n));
      ForeignHere(gc.live, order);
      ok := p != null;
      if p != null {
        LinksWith(gc, p, old(gc.live));
        Install(n, p, old(gc.live));
      }
    }

    /**
      dict_rehash. An invalid size or a failed allocation (!ok) leaves the dictionary as it is;
      otherwise the entries are spread over n buckets, chain after chain of the old table.
    */
    method Rehash(n: nat) returns (r: int, ghost ok: bool)
      requires Valid() && n <= 0xffff_ffff
      modifies this`buckets, this`nbuckets, this`bucketsBlock, this`rings, this`order, this`links, this`own
      modifies links`next, links`prev, links`home, gc`live, gc`log, gc.live`freed
      modifies LinkSet(gc, gc.live)`next, LinkSet(gc, gc.live)`prev, LinkSet(gc, gc.live)`home
      ensures Valid() && Foreign() == old(Foreign())
      ensures (View(), r) == Runs.Rehash(old(View()), hash, n, ok)
      ensures gc.log == old(gc.log) + Runs.AskedForRehash(n, ok) && (false !in Runs.AskedForRehash(n, ok) ==> ok)
      ensures r == 0 <==> ok && n >= 4 && IsPowerOfTwo(n)
      ensures r == 0 ==> nbuckets == n && order == Chained(old(order), EntryHash(hash), old(nbuckets), old(nbuckets))
      ensures r == 0 ==> old(bucketsBlock).freed
      ensures r != 0 ==> unchanged(this) && gc.live == old(gc.live)
      ensures fresh(own - old(own))
    {
      ok, r := true, -1;
      hide Valid, Foreign, ItemsOf, IsPowerOfTwo, Chained;
      if n >= 4 && IsPowerOfTwo(n) {
        var done := Resize(n);
        ok, r := done, if done then 0 else -1;
      }
    }

    // ---------- Setting ----------

    lemma InOldOrder(o: seq<Entry>, n: nat)
      requires Valid() && IsPowerOfTwo(n) && nbuckets == 2 * n && order == Chained(o, EntryHash(hash), n, n)
      requires Owners(o) && UniqueKeys(o)
      ensures Table(rings, buckets, o, hash) && ShapeIs(gc, buckets, nbuckets, count, o, links)
      ensures IsInside(own, links, block, bucketsBlock, o)
      ensures OwnBlocks(gc.live, block, bucketsBlock, o)
      ensures ForeignIn(gc.live, block, bucketsBlock, o) == ForeignIn(gc.live, block, bucketsBlock, order)
    {
      EntriesChained(o, hash, n);
      DoubledTable(rings, buckets, n, o, hash);
      BlocksReordered(gc.live, block, bucketsBlock, order, o);
      hide Table, Chained, IsPowerOfTwo, OwnBlocks, ForeignIn, UniqueKeys, DistinctLinks;
    }

    /** After doubling the table, the entries count as being in their old order again. */
    ghost method Reorder(o: seq<Entry>, n: nat)
      requires Valid() && IsPowerOfTwo(n) && nbuckets == 2 * n && order == Chained(o, EntryHash(hash), n, n)
      requires Owners(o) && UniqueKeys(o)
      modifies this`order
      ensures Valid() && order == o && Foreign() == old(Foreign()) && ItemsOf(order) == old(ItemsOf(o))
    {
      hide Table, Ring, Owned, Chained, IsPowerOfTwo, OwnBlocks, ForeignIn, ShapeIs, IsInside;
      InOldOrder(o, n);
      order := o;
    }

    lemma BeforeDoubling()
      requires Valid()
      ensures Owners(order) && UniqueKeys(order)
      ensures nbuckets >= 4 && IsPowerOfTwo(nbuckets) && IsPowerOfTwo(2 * nbuckets)
    {
      TwiceIsPower(nbuckets);
    }

    /** The rehash of a doubling, which leaves the values and links of the old entries alone. */
    method RehashTwice() returns (ghost ok: bool)
      requires Valid() && nbuckets <= 0xffff_ffff / 2
      modifies this`buckets, this`nbuckets, this`bucketsBlock, this`rings, this`order, this`links, this`own
      modifies links`next, links`prev, links`home, gc`live, gc`log, gc.live`freed
      modifies LinkSet(gc, gc.live)`next, LinkSet(gc, gc.live)`prev, LinkSet(gc, gc.live)`home
      ensures Valid() && Foreign() == old(Foreign())
      ensures gc.log == old(gc.log) + [ok] && Owners(old(order)) && ItemsOf(old(order)) == old(ItemsOf(order))
      ensures ok ==> nbuckets == 2 * old(nbuckets) &&
                     order == Chained(old(order), EntryHash(hash), old(nbuckets), old(nbuckets))
      ensures !ok ==> nbuckets == old(nbuckets) && order == old(order)
      ensures fresh(own - old(own))
    {
      hide Valid, Foreign, IsPowerOfTwo, Chained, View, Runs.Rehash, LinkSet;
      BeforeDoubling();
      var r;
      r, ok := Rehash(2 * nbuckets);
    }

    /** Doubles the table, if the allocation succeeds; the entries stay in order. */
    method Double() returns (ghost ok: bool)
      requires Valid() && nbuckets <= 0xffff_ffff / 2
      modifies this`buckets, this`nbuckets, this`bucketsBlock, this`rings, this`order, this`links, this`own
      modifies links`next, links`prev, links`home, gc`live, gc`log, gc.live`freed
      modifies LinkSet(gc, gc.live)`next, LinkSet(gc, gc.live)`prev, LinkSet(gc, gc.live)`home
      ensures Valid() && Foreign() == old(Foreign())
      ensures ItemsOf(order) == old(ItemsOf(order)) && nbuckets == if ok then 2 * old(nbuckets) else old(nbuckets)
      ensures gc.log == old(gc.log) + [ok]
      ensures fresh(own - old(own))
    {
      hide *;
      ghost var o, n := order, nbuckets;
      BeforeDoubling();
      ok := RehashTwice();
      if ok {
        Reorder(o, n);
      }
    }

    /** The doubling at three quarters load; when its allocation fails, nothing happens. */
    method Grow() returns (ghost ok: bool)
      requires Valid()
      modifies this`buckets, this`nbuckets, this`bucketsBlock, this`rings, this`order, this`links, this`own
      modifies links`next, links`prev, links`home, gc`live, gc`log, gc.live`freed
      modifies LinkSet(gc, gc.live)`next, LinkSet(gc, gc.live)`prev, LinkSet(gc, gc.live)`home
      ensures Valid() && Foreign() == old(Foreign())
      ensures View() == Runs.Grow(old(View()), ok)
      ensures gc.log == old(gc.log) + Runs.AskedToGrow(old(View()), ok) && (!Runs.Full(old(View())) ==> ok)
      ensures fresh(own - old(own))
    {
      ok := true;
      assert count == |ItemsOf(order)|;
      hide Valid, Foreign, ItemsOf;
      if count * 4 >= nbuckets * 3 && nbuckets <= 0xffff_ffff / 2 {
        ok := Double();
      }
    }

    /** Gives the i-th entry another value. */
    method Replant(e: Entry, val: TaNode?, ghost i: nat)
      requires Valid() && i < |order| && order[i] == e
      modifies e`val
      ensures Valid() && ItemsOf(order) == old(ItemsOf(order))[i := Item(e.key, val)]
    {
      assert UniqueKeys(order);
      hide Linked, Shape, OwnBlocks, Owners, Nodes;
      e.val := val;
    }

    /** Frees a value that is one of the live allocations and not the dictionary's own. */
    method FreeValue(v: TaNode)
      requires Valid() && v in Foreign()
      modifies this`own, gc`live, v`freed
      modifies LinkSet(gc, gc.live)`next, LinkSet(gc, gc.live)`prev, LinkSet(gc, gc.live)`home
      ensures Valid() && Foreign() == old(Foreign()) - {v} && ItemsOf(order) == old(ItemsOf(order))
      ensures own == old(own) && v.freed
    {
      ghost var live := gc.live;
      assert gc.list !in links && v in gc.live && OwnBlocks(live, block, bucketsBlock, order);
      hide Linked, Shape, Owners, Nodes;
      FreeBlock(v);
      assert OwnBlocks(gc.live, block, bucketsBlock, order);
      hide OwnBlocks;
      Conclude(own);
    }

    /** What dict_set_owned frees: the value that the key had, unless it stays. */
    ghost function Freed(key: string, val: TaNode?): set<TaNode?>
      reads this, order
    {
      var i := IndexOf(ItemsOf(order), key);
      if i >= 0 && order[i].val != val && order[i].val != null then {order[i].val} else {}
    }

    ghost predicate AllFreed(nodes: set<TaNode?>)
      reads nodes`freed
    {
      forall x :: x in nodes && x != null ==> x.freed
    }

    lemma InForeign(x: TaNode)
      requires x in Foreign()
      ensures x in gc.live
    {
    }

    /** Frees the value about to be replaced, as dict_set_owned does. */
    method FreeOld(e: Entry, val: TaNode?, ghost i: nat)
      requires Valid() && i < |order| && order[i] == e && i == IndexOf(ItemsOf(order), e.key)
      requires Freed(e.key, val) <= Foreign()
      modifies this`own, gc`live, gc.live`freed
      modifies LinkSet(gc, gc.live)`next, LinkSet(gc, gc.live)`prev, LinkSet(gc, gc.live)`home
      ensures Valid() && ItemsOf(order) == old(ItemsOf(order)) && e.val == old(e.val)
      ensures Foreign() == old(Foreign()) - old(Freed(e.key, val))
      ensures own == old(own) && AllFreed(old(Freed(e.key, val)))
    {
      hide Valid, ItemsOf, Foreign, IndexOf;
      if e.val != val && e.val != null {
        assert e.val in Freed(e.key, val);
        InForeign(e.val);
        FreeValue(e.val);
      }
    }

    /** What a set has done to a dictionary that stood for was and left these allocations alone. */
    ghost predicate SetDone(was: Runs.Dict<TaNode?>, foreign: set<TaNode>, freed: set<TaNode?>, key: string,
                            val: TaNode?, r: int, entryOk: bool, growOk: bool)
      reads *
    {
      Valid() && (View(), r) == Runs.Set(was, key, val, entryOk, growOk) && Foreign() == foreign - freed &&
      AllFreed(freed)
    }

    /** The key is there: replaces its value, and frees the old one if freeOld says so. */
    method SetFound(e: Entry, val: TaNode?, freeOld: bool, ghost i: nat)
      requires Valid() && i < |order| && order[i] == e && i == IndexOf(ItemsOf(order), e.key)
      requires freeOld ==> Freed(e.key, val) <= Foreign()
      modifies this`own, e`val, gc`live, gc.live`freed
      modifies LinkSet(gc, gc.live)`next, LinkSet(gc, gc.live)`prev, LinkSet(gc, gc.live)`home
      ensures SetDone(old(View()), old(Foreign()), if freeOld then old(Freed(e.key, val)) else {}, e.key, val,
                      0, true, true)
      ensures own == old(own)
    {
      hide Valid, ItemsOf, ForeignIn, IndexOf, Freed, Runs.Grow;
      ghost var freed := if freeOld then Freed(e.key, val) else {};
      if freeOld {
        FreeOld(e, val, i);
      }
      assert AllFreed(freed);
      Replant(e, val, i);
      assert AllFreed(freed);
    }

    lemma ViewIs()
      ensures View() == Runs.Dict(nbuckets, ItemsOf(order))
    {
    }

    lemma NotFreed(key: string, val: TaNode?)
      requires IndexOf(ItemsOf(order), key) < 0
      ensures Freed(key, val) == {}
    {
    }

    lemma NowDone(was: Runs.Dict<TaNode?>, foreign: set<TaNode>, key: string, val: TaNode?,
                  r: int, entryOk: bool, growOk: bool)
      requires Valid() && IndexOf(was.items, key) < 0 && Foreign() == foreign
      requires if entryOk then
                 r == 0 && View() == Runs.Grow(Runs.Dict(was.nbuckets, was.items + [Item(key, val)]), growOk)
               else r == -1 && View() == was
      ensures SetDone(was, foreign, {}, key, val, r, entryOk, growOk)
    {
      hide Valid, View, Foreign, Runs.Grow, IndexOf;
    }

    /** The key is not there: adds an entry and grows the table if it is three quarters full. */
    method SetNew(key: string, val: TaNode?) returns (r: int, ghost entryOk: bool, ghost growOk: bool)
      requires Valid() && IndexOf(ItemsOf(order), key) < 0
      modifies this`buckets, this`nbuckets, this`bucketsBlock, this`rings, this`order, this`links, this`own, this`count
      modifies links`next, links`prev, links`home, gc`live, gc`log, gc.live`freed
      modifies LinkSet(gc, gc.live)`next, LinkSet(gc, gc.live)`prev, LinkSet(gc, gc.live)`home
      ensures SetDone(old(View()), old(Foreign()), old(Freed(key, val)), key, val, r, entryOk, growOk)
      ensures old(Freed(key, val)) == {}
      ensures AskedFor(old(View()), key, val, entryOk, growOk, old(gc.log), gc.log)
      ensures fresh(own - old(own))
    {
      hide *;
      ghost var was, foreign, log := View(), Foreign(), gc.log;
      ViewIs();
      NotFreed(key, val);
      entryOk, growOk, r := false, false, -1;
      var p := Insert(key, val);
      ViewIs();
      if p != null {
        LinksWith(gc, p, old(gc.live));
        growOk := Grow();
        entryOk, r := true, 0;
      }
      NowDone(was, foreign, key, val, r, entryOk, growOk);
      EntryAsked(was, key, val, entryOk, growOk, log, gc.log);
    }

    /**
      dict_set_impl: dict_set, and with freeOld dict_set_owned, which also frees the value it
      replaces. entryOk and growOk tell whether the allocations asked for succeeded, as the log of the
      context has it. Only a failed allocation of an entry makes the call fail: growing may fail, too,
      and the entry is there all the same.
    */
    method SetImpl(key: string, val: TaNode?, freeOld: bool) returns (r: int, ghost entryOk: bool, ghost growOk: bool)
      requires Valid() && (freeOld ==> Freed(key, val) <= Foreign())
      modifies this`buckets, this`nbuckets, this`bucketsBlock, this`rings, this`order, this`links, this`own
      modifies this`count, order`val
      modifies links`next, links`prev, links`home, gc`live, gc`log, gc.live`freed
      modifies LinkSet(gc, gc.live)`next, LinkSet(gc, gc.live)`prev, LinkSet(gc, gc.live)`home
      ensures Valid() && (View(), r) == Runs.Set(old(View()), key, val, entryOk, growOk)
      ensures r == if gc.log == old(gc.log) + [false] then -1 else 0
      ensures nbuckets == if count > old(count) && 4 * count >= 3 * old(nbuckets) && old(nbuckets) < 0x8000_0000
                             && growOk then 2 * old(nbuckets) else old(nbuckets)
      ensures Foreign() == old(Foreign()) - if freeOld then old(Freed(key, val)) else {}
      ensures freeOld ==> AllFreed(old(Freed(key, val)))
      ensures AskedFor(old(View()), key, val, entryOk, growOk, old(gc.log), gc.log)
      ensures fresh(own - old(own))
    {
      ghost var was, log := View(), gc.log;
      CountIs();
      r, entryOk, growOk := SetEither(key, val, freeOld);
      CountIs();
      hide Valid, Foreign, Runs.Set, Freed, AskedFor;
      FailsForEntry(was, key, val, entryOk, growOk, log, gc.log);
      Runs.SetGrows(was, key, val, entryOk, growOk);
    }

    lemma CountIs()
      requires Valid()
      ensures nbuckets == View().nbuckets && count == |View().items|
    {
    }

    /** The walk, and then one of the two ways to set a key. */
    method SetEither(key: string, val: TaNode?, freeOld: bool) returns (r: int, ghost entryOk: bool, ghost growOk: bool)
      requires Valid() && (freeOld ==> Freed(key, val) <= Foreign())
      modifies this`buckets, this`nbuckets, this`bucketsBlock, this`rings, this`order, this`links, this`own
      modifies this`count, order`val
      modifies links`next, links`prev, links`home, gc`live, gc`log, gc.live`freed
      modifies LinkSet(gc, gc.live)`next, LinkSet(gc, gc.live)`prev, LinkSet(gc, gc.live)`home
      ensures SetDone(old(View()), old(Foreign()), if freeOld then old(Freed(key, val)) else {}, key, val,
                      r, entryOk, growOk)
      ensures AskedFor(old(View()), key, val, entryOk, growOk, old(gc.log), gc.log)
      ensures fresh(own - old(own))
    {
      hide *;
      ViewIs();
      var e, i := Find(key, val);
      if e != null {
        NothingAsked(View(), key, val, gc.log);
        SetFound(e, val, freeOld, i);
        r, entryOk, growOk := 0, true, true;
      } else {
        r, entryOk, growOk := SetNew(key, val);
      }
    }
  }

  /** The second of two allocations; when it fails, the first is freed. */
  method SecondBlock(gc: TaNode, p: TaNode, size: nat, ghost live: seq<TaNode>, ghost links: set<Link>)
    returns (q: TaNode?)
    requires gc.Valid() && gc.live == [p] + live && LinkSet(gc, gc.live) <= links
    modifies gc`live, gc`log, p`freed, links`next, links`prev, links`home
    ensures gc.Valid() && gc.log == old(gc.log) + [q != null]
    ensures gc.live == if q == null then live else [q, p] + live
    ensures q != null ==> fresh(q) && fresh(q.list) && Sized(q, size)
  {
    hide *;
    FrontLinks(gc);
    q := TaMalloc(gc, size);
    if q == null {
      FrontNode(gc, p, live);
      FreeNode(p, gc, 0);
    } else {
      assert [q] + ([p] + live) == [q, p] + live;
    }
  }

  lemma FrontLinks(gc: TaNode)
    requires gc.Valid()
    ensures {gc.list, gc.list.next} <= LinkSet(gc, gc.live)
  {
    FirstInRing(gc);
  }

  /** The first of the live nodes and the links next to it. */
  lemma FrontNode(gc: TaNode, p: TaNode, live: seq<TaNode>)
    requires gc.Valid() && gc.live == [p] + live
    ensures gc.live[0] == p && Without(gc.live, 0) == live
    ensures {p.list, p.list.next, p.list.prev} <= LinkSet(gc, gc.live)
  {
    AroundNode(gc, 0);
    hide TaNode.Valid, LinkSet;
  }

  /** Two allocations, or none. */
  method TwoBlocks(gc: TaNode, size: nat, size2: nat) returns (p: TaNode?, q: TaNode?)
    requires gc.Valid()
    modifies gc`live, gc`log
    modifies LinkSet(gc, gc.live)`next, LinkSet(gc, gc.live)`prev, LinkSet(gc, gc.live)`home
    ensures gc.Valid() && gc.log == old(gc.log) + (if p == null then [false] else [true, q != null])
    ensures p == null ==> q == null
    ensures q == null ==> gc.live == old(gc.live)
    ensures q != null ==> p != null && fresh(p) && fresh(q) && p != q && gc.live == [q, p] + old(gc.live)
    ensures q != null ==> Sized(p, size) && Sized(q, size2) && fresh(p.list) && fresh(q.list)
  {
    ghost var live, links := gc.live, LinkSet(gc, gc.live);
    FirstInRing(gc);
    assert {gc.list, gc.list.next} <= links;
    hide TaNode.Valid;
    q := null;
    p := TaMalloc(gc, size);
    if p != null {
      assert LinkSet(gc, gc.live) <= links + {p.list};
      hide LinkSet;
      q := SecondBlock(gc, p, size2, live, links + {p.list});
    }
  }

  /** Sets up the dictionary in its two new blocks. */
  method FreshDict(gc: TaNode, hash: HashFn, p: TaNode, q: TaNode, n: nat, ghost live: seq<TaNode>) returns (d: Dict)
    requires gc.Valid() && 4 <= n <= 0xffff_ffff && IsPowerOfTwo(n)
    requires gc.live == [q, p] + live && p != q && p !in live && q !in live
    requires Sized(p, DICT_SIZE) && Sized(q, TableSize(n))
    ensures gc.Valid() && fresh(d) && d.gc == gc && d.hash == hash
    ensures d.Valid() && d.View() == Runs.New(n) && d.Foreign() == set x | x in live
    ensures fresh(d.own - {p, p.list, q, q.list})
  {
    hide Ring, Owned, IsPowerOfTwo, DistinctLinks, HeadsIn, TableSize, Dict.Valid, Dict.View, ForeignIn;
    var heads := NewHeads(n, q);
    assert forall i :: 0 <= i < n ==> Ring(heads[i], []) && heads[i] != gc.list;
    d := new Dict(gc, hash, p, heads, q);
    Runs.LargestPower(n);
    NewIsValid(d, live);
  }

  /** What the constructor of a dictionary sets up in two live blocks. */
  lemma NewIsValid(d: Dict, live: seq<TaNode>)
    requires var n := |d.buckets|; d.nbuckets == n && 4 <= n <= Runs.MAX_BUCKETS && IsPowerOfTwo(n)
    requires d.gc.Valid() && DistinctLinks(d.buckets) && HeadsIn(d.buckets, d.bucketsBlock)
    requires forall i :: 0 <= i < |d.buckets| ==> Ring(d.buckets[i], []) && d.buckets[i] != d.gc.list
    requires d.gc.live == [d.bucketsBlock, d.block] + live
    requires d.block != d.bucketsBlock && d.block !in live && d.bucketsBlock !in live
    requires Sized(d.block, DICT_SIZE) && Sized(d.bucketsBlock, TableSize(d.nbuckets))
    requires d.count == 0 && d.order == [] && d.rings == (map h | h in d.buckets :: [])
    requires d.links == (set h | h in d.buckets)
    requires d.own == {d.block, d.block.list, d.bucketsBlock, d.bucketsBlock.list} + set h | h in d.buckets
    ensures d.Valid() && d.View() == Runs.New(d.nbuckets) && d.Foreign() == set x | x in live
  {
    hide Ring, Owned, IsPowerOfTwo, DistinctLinks, TableSize;
    assert d.gc.live[0] == d.bucketsBlock && d.gc.live[1] == d.block;
    assert forall x :: x in d.gc.live <==> x == d.block || x == d.bucketsBlock || x in live;
    assert AllRings(d.rings);
  }

  /** dict_new_sized: null for an invalid size or a failed allocation, and then nothing stays allocated. */
  method DictNewSized(gc: TaNode, hash: HashFn, n: nat) returns (d: Dict?)
    requires gc.Valid() && n <= 0xffff_ffff
    modifies gc`live, gc`log
    modifies LinkSet(gc, gc.live)`next, LinkSet(gc, gc.live)`prev, LinkSet(gc, gc.live)`home
    ensures gc.Valid() && (d == null ==> gc.live == old(gc.live))
    ensures n < 4 || !IsPowerOfTwo(n) ==> d == null && gc.log == old(gc.log)
    ensures n >= 4 && IsPowerOfTwo(n) && d == null ==>
              gc.log == old(gc.log) + [false] || gc.log == old(gc.log) + [true, false]
    ensures d != null ==> n >= 4 && IsPowerOfTwo(n) && gc.log == old(gc.log) + [true, true]
    ensures d != null ==>
              fresh(d) && d.gc == gc && d.hash == hash && d.Valid() && d.View() == Runs.New(n) &&
              d.Foreign() == (set x | x in old(gc.live)) && fresh(d.own)
  {
    d := null;
    hide TaNode.Valid, Dict.Valid, Dict.View, ForeignIn, LinkSet, IsPowerOfTwo, TableSize;
    if n >= 4 && IsPowerOfTwo(n) {
      ghost var live := gc.live;
      var p, q := TwoBlocks(gc, DICT_SIZE, TableSize(n));
      if q != null {
        d := FreshDict(gc, hash, p, q, n, live);
      }
    }
  }

  // ---------- Conservation ----------

  lemma {:induction false} CountDistinct<T>(s: seq<T>)
    requires forall i, j :: 0 <= i < j < |s| ==> s[i] != s[j]
    ensures |set x | x in s| == |s|
  {
    if s != [] {
      var init, last := s[..|s| - 1], s[|s| - 1];
      CountDistinct(init);
      assert (set x | x in s) == (set x | x in init) + {last};
    }
  }

  /** Apart from foreign memory the context holds one header, one bucket array and one block per entry. */
  lemma Conservation(d: Dict)
    requires d.Valid()
    ensures |d.gc.live| == |d.Foreign()| + 2 + d.count
  {
    var own := [d.block, d.bucketsBlock] + BlocksOf(d.order);
    LiveDistinct(d.gc);
    CountDistinct(d.gc.live);
    assert OwnBlocks(d.gc.live, d.block, d.bucketsBlock, d.order) && UniqueKeys(d.order);
    forall i, j | 0 <= i < j < |own|
      ensures own[i] != own[j]
    {
      if i >= 2 {
        assert own[i] == d.order[i - 2].block && own[j] == d.order[j - 2].block;
      } else if j >= 2 {
        assert own[j] == d.order[j - 2].block;
      }
    }
    CountDistinct(own);
    OwnOrForeign(d.gc.live, d.block, d.bucketsBlock, d.order, own);
  }

  lemma OwnOrForeign(live: seq<TaNode>, a: TaNode, b: TaNode, entries: seq<Entry>, own: seq<TaNode>)
    requires OwnBlocks(live, a, b, entries) && own == [a, b] + BlocksOf(entries)
    ensures |set x | x in live| == |ForeignIn(live, a, b, entries)| + |set x | x in own|
  {
    var f, o := ForeignIn(live, a, b, entries), set x | x in own;
    forall x
      ensures x in o <==> x == a || x == b || exists i :: 0 <= i < |entries| && entries[i].block == x
    {
      OwnElements(a, b, entries, own, x);
    }
    assert (set x | x in live) == f + o;
    assert f * o == {};
  }

  lemma OwnElements(a: TaNode, b: TaNode, entries: seq<Entry>, own: seq<TaNode>, x: TaNode)
    requires own == [a, b] + BlocksOf(entries)
    ensures x in own <==> x == a || x == b || exists i :: 0 <= i < |entries| && entries[i].block == x
  {
    assert own[0] == a && own[1] == b;
    if i :| 0 <= i < |entries| && entries[i].block == x {
      assert own[i + 2] == x;
    }
  }
}
