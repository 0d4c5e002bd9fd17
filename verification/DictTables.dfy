/**
  The bucket rings of dict.c and how a rehash moves the entries from one table of ring heads to
  another, one list node at a time.
*/
module DictTables {
  import opened Buckets
  import opened DictSpec
  import opened Lists
  import opened Seqs
  import opened Ta

  /** dict_entry_t; block is the allocation that holds it. */
  class Entry {
    const node: Link
    const key: string
    var val: TaNode?
    const block: TaNode
    const text: array<char>  // the key as it lies in the block

    constructor (node: Link, key: string, val: TaNode?, block: TaNode, text: array<char>)
      ensures this.node == node && this.key == key && this.val == val && this.block == block && this.text == text
    {
      this.node, this.key, this.val, this.block, this.text := node, key, val, block, text;
    }
  }

  function Nodes(entries: seq<Entry>): (s: seq<Link>)
    ensures |s| == |entries| && forall i :: 0 <= i < |s| ==> s[i] == entries[i].node
  {
    seq(|entries|, i requires 0 <= i < |entries| => entries[i].node)
  }

  function EntryHash(hash: HashFn): Entry -> nat {
    (e: Entry) => hash(e.key)
  }

  function BlocksOf(entries: seq<Entry>): (s: seq<TaNode>)
    ensures |s| == |entries| && forall i :: 0 <= i < |s| ==> s[i] == entries[i].block
  {
    seq(|entries|, i requires 0 <= i < |entries| => entries[i].block)
  }

  /** The entry a list node is embedded in, for access to its fields: container_of. */
  function EntryOf(l: Link): Entry
    reads l, if l.owner is Entry then {(l.owner as Entry).block} else {}
    requires l.owner is Entry && !(l.owner as Entry).block.freed
  {
    l.owner as Entry
  }

  /** The nodes are part of the entries, in the memory of the entries' blocks. */
  ghost predicate Owners(entries: seq<Entry>)
    reads Nodes(entries)`owner
  {
    forall i :: 0 <= i < |entries| ==>
      entries[i].node.owner == entries[i] && entries[i].node.store == entries[i].block
  }

  /** The sentinels lie in the block table. */
  ghost predicate HeadsIn(heads: seq<Link>, table: TaNode) {
    forall i :: 0 <= i < |heads| ==> heads[i].store == table
  }

  /** Neither the entries nor the sentinels of the table have been freed. */
  ghost predicate Unfreed(table: TaNode, entries: seq<Entry>)
    reads table`freed, BlocksOf(entries)`freed
  {
    !table.freed && forall i :: 0 <= i < |entries| ==> !entries[i].block.freed
  }

  /** The link l lies in a block that has not been freed. */
  ghost predicate InUse(block: TaNode, l: Link)
    reads block`freed, l`owner
  {
    Holds(block, l) && !block.freed
  }

  /** The block of the k-th of the entries of a chain, or of the sentinel behind them. */
  ghost function BlockAt(c: seq<Entry>, k: nat, table: TaNode): TaNode {
    if k < |c| then c[k].block else table
  }

  ghost predicate DistinctLinks(heads: seq<Link>) {
    forall i, j :: 0 <= i < j < |heads| ==> heads[i] != heads[j]
  }

  ghost predicate Enclosed(m: Rings, links: set<Link>) {
    forall h :: h in m ==> h in links && forall i :: 0 <= i < |m[h]| ==> m[h][i] in links
  }

  /** The entries of bucket b, among n, in chain order. */
  ghost function Chain(entries: seq<Entry>, hash: HashFn, n: nat, b: nat): seq<Entry>
    requires n > 0
  {
    Select(entries, EntryHash(hash), n, b)
  }

  /** The ring under the b-th head holds the nodes of exactly the entries of bucket b. */
  ghost predicate Table(m: Rings, heads: seq<Link>, entries: seq<Entry>, hash: HashFn) {
    forall b :: 0 <= b < |heads| ==> heads[b] in m && m[heads[b]] == Nodes(Chain(entries, hash, |heads|, b))
  }

  lemma TableInsert(m: Rings, heads: seq<Link>, entries: seq<Entry>, hash: HashFn, e: Entry, b: nat)
    requires Table(m, heads, entries, hash) && DistinctLinks(heads)
    requires b < |heads| && b == BucketFor(hash(e.key), |heads|)
    ensures Table(m[heads[b] := m[heads[b]] + [e.node]], heads, entries + [e], hash)
  {
    hide BucketFor, Select;
    var m2 := m[heads[b] := m[heads[b]] + [e.node]];
    forall c | 0 <= c < |heads|
      ensures heads[c] in m2 && m2[heads[c]] == Nodes(Chain(entries + [e], hash, |heads|, c))
    {
      SelectStep(entries, e, EntryHash(hash), |heads|, c);
      assert Nodes(Chain(entries, hash, |heads|, c) + [e]) == Nodes(Chain(entries, hash, |heads|, c)) + [e.node];
      assert Chain(entries, hash, |heads|, c) + [] == Chain(entries, hash, |heads|, c);
    }
  }

  lemma TableRemove(m: Rings, heads: seq<Link>, entries: seq<Entry>, hash: HashFn, i: nat, b: nat)
    requires Table(m, heads, entries, hash) && DistinctLinks(heads)
    requires i < |entries| && b < |heads| && b == BucketFor(hash(entries[i].key), |heads|)
    ensures var k := |Chain(entries[..i], hash, |heads|, b)|;
            k < |m[heads[b]]| && m[heads[b]][k] == entries[i].node &&
            Table(m[heads[b] := Without(m[heads[b]], k)], heads, Without(entries, i), hash)
  {
    hide BucketFor, Select;
    var k := |Chain(entries[..i], hash, |heads|, b)|;
    SelectWithout(entries, EntryHash(hash), |heads|, b, i);
    var m2 := m[heads[b] := Without(m[heads[b]], k)];
    forall c | 0 <= c < |heads|
      ensures heads[c] in m2 && m2[heads[c]] == Nodes(Chain(Without(entries, i), hash, |heads|, c))
    {
      SelectWithout(entries, EntryHash(hash), |heads|, c, i);
      if c == b {
        assert Nodes(Without(Chain(entries, hash, |heads|, b), k)) == Without(m[heads[b]], k);
      }
    }
  }

  // ---------- One step of a rehash ----------

  /** The links that deleting the first node or adding a last one touches. */
  lemma EndsIn(head: Link, m: Rings, links: set<Link>)
    requires AllRings(m) && Enclosed(m, links) && head in m
    ensures head.prev in links
    ensures |m[head]| > 0 ==> m[head][0] in links && m[head][0].next in links && m[head][0].prev in links
  {
    assert Ring(head, m[head]);
    if |m[head]| > 0 {
      Neighbours(head, m[head], |m[head]| - 1);
      Neighbours(head, m[head], 0);
    }
  }

  /** list_del and list_add_tail of the first node of the ring from. */
  method MoveOne(pos: Link, target: Link, ghost from: Link, ghost m: Rings, ghost links: set<Link>)
    requires AllRings(m) && Enclosed(m, links)
    requires from in m && target in m && from != target && |m[from]| > 0 && m[from][0] == pos
    modifies links`next, links`prev, links`home
    ensures AllRings(m[from := Without(m[from], 0)][target := m[target] + [pos]])
    ensures Enclosed(m[from := Without(m[from], 0)][target := m[target] + [pos]], links)
  {
    ghost var m1 := m[from := Without(m[from], 0)];
    EndsIn(from, m, links);
    assert Enclosed(m1, links);
    hide Ring, Without;
    DelIn(pos, from, 0, m);
    EndsIn(target, m1, links);
    hide AllRings;
    AddTailIn(pos, target, m1);
  }

  /**
    In the middle of a rehash: the chains of the buckets before i and the first k nodes of the
    i-th have moved to the new heads, in this order, and the others are still where they were.
  */
  ghost predicate Moving(m: Rings, m0: Rings, heads: seq<Link>, heads2: seq<Link>, entries: seq<Entry>,
                         hash: HashFn, i: nat, k: nat)
  {
    |heads| > 0 && m.Keys == m0.Keys &&
    (forall h :: h in m && h !in heads && h !in heads2 ==> m[h] == m0[h]) &&
    k <= |Chain(entries, hash, |heads|, i)| &&
    (forall b :: i <= b < |heads| ==>
      heads[b] in m && m[heads[b]] == Nodes(Chain(entries, hash, |heads|, b)[if b == i then k else 0..])) &&
    Table(m, heads2, Chained(entries, EntryHash(hash), |heads|, i) + Chain(entries, hash, |heads|, i)[..k], hash)
  }

  lemma DistinctParts(heads: seq<Link>, heads2: seq<Link>, i: nat, b: nat)
    requires DistinctLinks(heads + heads2) && i < |heads| && b < |heads2|
    ensures DistinctLinks(heads2) && heads[i] !in heads2 && heads2[b] !in heads && heads[i] != heads2[b]
    ensures forall c :: i < c < |heads| ==> heads[c] != heads[i]
  {
    var all := heads + heads2;
    forall c, d | 0 <= c < d < |heads2|
      ensures heads2[c] != heads2[d]
    {
      assert all[|heads| + c] != all[|heads| + d];
    }
    forall c | 0 <= c < |heads2|
      ensures heads2[c] != heads[i]
    {
      assert all[|heads| + c] != all[i];
    }
    forall c | 0 <= c < |heads|
      ensures heads2[b] != heads[c]
    {
      assert all[|heads| + b] != all[c];
    }
    forall c | i < c < |heads|
      ensures heads[c] != heads[i]
    {
      assert all[c] != all[i];
    }
  }

  lemma MovingStep(m: Rings, m0: Rings, heads: seq<Link>, heads2: seq<Link>, entries: seq<Entry>,
                   hash: HashFn, i: nat, k: nat, b: nat)
    requires Moving(m, m0, heads, heads2, entries, hash, i, k) && DistinctLinks(heads + heads2)
    requires i < |heads| && k < |Chain(entries, hash, |heads|, i)|
    requires b < |heads2| && b == BucketFor(hash(Chain(entries, hash, |heads|, i)[k].key), |heads2|)
    ensures heads[i] in m && heads2[b] in m && heads[i] != heads2[b]
    ensures m[heads[i]] == Nodes(Chain(entries, hash, |heads|, i)[k..])
    ensures var m2 := m[heads[i] := Without(m[heads[i]], 0)]
                       [heads2[b] := m[heads2[b]] + [Chain(entries, hash, |heads|, i)[k].node]];
            Moving(m2, m0, heads, heads2, entries, hash, i, k + 1)
  {
    var c := Chain(entries, hash, |heads|, i);
    DistinctParts(heads, heads2, i, b);
    var m1 := m[heads[i] := Without(m[heads[i]], 0)];
    var done := Chained(entries, EntryHash(hash), |heads|, i);
    TableElsewhere(m, heads2, done + c[..k], hash, heads[i], Without(m[heads[i]], 0));
    TableInsert(m1, heads2, done + c[..k], hash, c[k], b);
    TakeOne(c, k);
    assert done + c[..k] + [c[k]] == done + c[..k + 1];
    assert Without(Nodes(c[k..]), 0) == Nodes(c[k + 1..]);
    hide Table, BucketFor, Select, Chained;
  }

  lemma TableElsewhere(m: Rings, heads: seq<Link>, entries: seq<Entry>, hash: HashFn, h: Link, s: seq<Link>)
    requires Table(m, heads, entries, hash) && h !in heads
    ensures Table(m[h := s], heads, entries, hash)
  {
    hide Select;
  }

  lemma NextBucket(m: Rings, m0: Rings, heads: seq<Link>, heads2: seq<Link>, entries: seq<Entry>,
                   hash: HashFn, i: nat)
    requires |heads| > 0 && Moving(m, m0, heads, heads2, entries, hash, i, |Chain(entries, hash, |heads|, i)|)
    ensures Moving(m, m0, heads, heads2, entries, hash, i + 1, 0)
  {
    var h := EntryHash(hash);
    var c := Chain(entries, hash, |heads|, i);
    assert c[..|c|] == c;
    assert Chained(entries, h, |heads|, i + 1) == Chained(entries, h, |heads|, i) + c;
    assert Chained(entries, h, |heads|, i + 1) + Chain(entries, hash, |heads|, i + 1)[..0]
        == Chained(entries, h, |heads|, i + 1);
    hide Table, Chained, Select;
  }

  // ---------- The walk over the old table ----------

  /** What the ring says about its first node, which is the k-th of the chain c. */
  lemma AtFirst(head: Link, m: Rings, c: seq<Entry>, k: nat)
    requires AllRings(m) && head in m && k <= |c| && m[head] == Nodes(c[k..])
    ensures head.next == (if k < |c| then c[k].node else head)
    ensures k < |c| ==> c[k].node != head && |m[head]| > 0 && m[head][0] == c[k].node
    ensures k < |c| ==> c[k].node.next == if k + 1 < |c| then c[k + 1].node else head
  {
    assert Ring(head, m[head]);
    if k < |c| {
      DropOne(c, k);
      Neighbours(head, m[head], 0);
    }
  }

  lemma OwnerIn(entries: seq<Entry>, hash: HashFn, n: nat, b: nat, k: nat)
    requires n > 0 && k < |Chain(entries, hash, n, b)| && Owners(entries)
    ensures var e := Chain(entries, hash, n, b)[k]; e.node.owner == e && e.node.store == e.block
    ensures forall table :: Unfreed(table, entries) ==> !Chain(entries, hash, n, b)[k].block.freed
  {
    var e := Chain(entries, hash, n, b)[k];
    SelectElement(entries, EntryHash(hash), n, b, e);
    var i :| 0 <= i < |entries| && entries[i] == e;
  }

  /** The walk stands at pos, before the k-th node of the old bucket i. */
  ghost predicate Underway(m: Rings, m0: Rings, heads: seq<Link>, heads2: seq<Link>, entries: seq<Entry>,
                           table: TaNode, hash: HashFn, i: nat, k: nat, links: set<Link>, pos: Link)
    reads *
  {
    i < |heads| && HeadsIn(heads, table) && Unfreed(table, entries) && AllRings(m) && Enclosed(m, links) &&
    Owners(entries) && DistinctLinks(heads + heads2) &&
    Moving(m, m0, heads, heads2, entries, hash, i, k) &&
    var c := Chain(entries, hash, |heads|, i);
    k <= |c| && pos == if k < |c| then c[k].node else heads[i]
  }

  /** What is known at the k-th node of the old bucket i. */
  lemma AtNode(m: Rings, m0: Rings, heads: seq<Link>, heads2: seq<Link>, entries: seq<Entry>, table: TaNode,
               hash: HashFn, i: nat, k: nat, links: set<Link>, pos: Link)
    requires i < |heads| && Underway(m, m0, heads, heads2, entries, table, hash, i, k, links, pos) && pos != heads[i]
    ensures AllRings(m) && Enclosed(m, links) && Owners(entries) && DistinctLinks(heads + heads2)
    ensures HeadsIn(heads, table) && Unfreed(table, entries) && Moving(m, m0, heads, heads2, entries, hash, i, k)
    ensures var c := Chain(entries, hash, |heads|, i);
            k < |c| && pos == c[k].node && pos.owner == c[k] && !c[k].block.freed && EntryOf(pos) == c[k] &&
            pos.next == (if k + 1 < |c| then c[k + 1].node else heads[i]) &&
            heads[i] in m && |m[heads[i]]| > 0 && m[heads[i]][0] == pos
  {
    var c := Chain(entries, hash, |heads|, i);
    assert m[heads[i]] == Nodes(c[k..]);
    AtFirst(heads[i], m, c, k);
    OwnerIn(entries, hash, |heads|, i, k);
  }

  /** The walk stands in memory that has not been freed. */
  lemma StandsInUse(m: Rings, m0: Rings, heads: seq<Link>, heads2: seq<Link>, entries: seq<Entry>, table: TaNode,
                    hash: HashFn, i: nat, k: nat, links: set<Link>, pos: Link)
    requires i < |heads| && Underway(m, m0, heads, heads2, entries, table, hash, i, k, links, pos)
    ensures InUse(table, heads[i]) && InUse(BlockAt(Chain(entries, hash, |heads|, i), k, table), pos)
  {
    if k < |Chain(entries, hash, |heads|, i)| {
      OwnerIn(entries, hash, |heads|, i, k);
    }
  }

  /** MoveOne, which leaves the entries in their blocks. */
  method MoveOneOf(pos: Link, target: Link, ghost from: Link, ghost m: Rings, ghost links: set<Link>,
                   ghost entries: seq<Entry>, ghost table: TaNode) returns (ghost m2: Rings)
    requires AllRings(m) && Enclosed(m, links) && Owners(entries) && Unfreed(table, entries)
    requires from in m && target in m && from != target && |m[from]| > 0 && m[from][0] == pos
    modifies links`next, links`prev, links`home
    ensures m2 == m[from := Without(m[from], 0)][target := m[target] + [pos]]
    ensures AllRings(m2) && Enclosed(m2, links) && Owners(entries) && Unfreed(table, entries)
  {
    hide AllRings, Enclosed, Without, Nodes, BlocksOf;
    m2 := m[from := Without(m[from], 0)][target := m[target] + [pos]];
    MoveOne(pos, target, from, m, links);
  }

  /** Moves the k-th node of the old bucket i to its new bucket. */
  method MoveNode(pos: Link, head: Link, heads2: seq<Link>, hash: HashFn, ghost heads: seq<Link>,
                  ghost entries: seq<Entry>, ghost table: TaNode, ghost i: nat, ghost k: nat, ghost m: Rings,
                  ghost m0: Rings, ghost links: set<Link>) returns (ghost m2: Rings)
    requires i < |heads| && head == heads[i] && pos != head && |heads2| > 0 && IsPowerOfTwo(|heads2|)
    requires Underway(m, m0, heads, heads2, entries, table, hash, i, k, links, pos)
    modifies links`next, links`prev, links`home
    ensures Underway(m2, m0, heads, heads2, entries, table, hash, i, k + 1, links, old(pos.next))
    ensures InUse(BlockAt(Chain(entries, hash, |heads|, i), k + 1, table), old(pos.next))
  {
    AtNode(m, m0, heads, heads2, entries, table, hash, i, k, links, pos);
    hide *;
    var e := EntryOf(pos);
    var b := BucketFor(hash(e.key), |heads2|);
    BucketIsMod(hash(e.key), |heads2|);
    MovingStep(m, m0, heads, heads2, entries, hash, i, k, b);
    ghost var next := pos.next;
    m2 := MoveOneOf(pos, heads2[b], head, m, links, entries, table);
    AfterMove(m2, m0, heads, heads2, entries, table, hash, i, k + 1, links, next);
  }

  lemma AfterMove(m: Rings, m0: Rings, heads: seq<Link>, heads2: seq<Link>, entries: seq<Entry>, table: TaNode,
                  hash: HashFn, i: nat, k: nat, links: set<Link>, pos: Link)
    requires i < |heads| && HeadsIn(heads, table) && Unfreed(table, entries) && AllRings(m) && Enclosed(m, links)
    requires Owners(entries) && DistinctLinks(heads + heads2) && Moving(m, m0, heads, heads2, entries, hash, i, k)
    requires var c := Chain(entries, hash, |heads|, i);
             k <= |c| && pos == if k < |c| then c[k].node else heads[i]
    ensures Underway(m, m0, heads, heads2, entries, table, hash, i, k, links, pos)
    ensures InUse(BlockAt(Chain(entries, hash, |heads|, i), k, table), pos)
  {
    StandsInUse(m, m0, heads, heads2, entries, table, hash, i, k, links, pos);
  }

  lemma StartChain(m: Rings, m0: Rings, heads: seq<Link>, heads2: seq<Link>, entries: seq<Entry>, table: TaNode,
                   hash: HashFn, i: nat, links: set<Link>)
    requires i < |heads| && HeadsIn(heads, table) && Unfreed(table, entries)
    requires AllRings(m) && Enclosed(m, links) && Owners(entries) && DistinctLinks(heads + heads2)
    requires Moving(m, m0, heads, heads2, entries, hash, i, 0)
    ensures Underway(m, m0, heads, heads2, entries, table, hash, i, 0, links, heads[i].next)
    ensures InUse(table, heads[i]) && InUse(BlockAt(Chain(entries, hash, |heads|, i), 0, table), heads[i].next)
  {
    var c := Chain(entries, hash, |heads|, i);
    assert m[heads[i]] == Nodes(c[0..]);
    AtFirst(heads[i], m, c, 0);
    StandsInUse(m, m0, heads, heads2, entries, table, hash, i, 0, links, heads[i].next);
  }

  lemma EndChain(m: Rings, m0: Rings, heads: seq<Link>, heads2: seq<Link>, entries: seq<Entry>, table: TaNode,
                 hash: HashFn, i: nat, k: nat, links: set<Link>)
    requires i < |heads| && Underway(m, m0, heads, heads2, entries, table, hash, i, k, links, heads[i])
    ensures AllRings(m) && Enclosed(m, links) && Owners(entries) && Unfreed(table, entries)
    ensures Moving(m, m0, heads, heads2, entries, hash, i + 1, 0)
  {
    var c := Chain(entries, hash, |heads|, i);
    assert m[heads[i]] == Nodes(c[k..]);
    AtFirst(heads[i], m, c, k);
    NextBucket(m, m0, heads, heads2, entries, hash, i);
  }

  lemma BlockInUse(block: TaNode, l: Link)
    requires InUse(block, l)
    ensures Holds(block, l) && !block.freed
  {
  }

  /** The inner loop of dict_rehash: list_for_each_safe over one old bucket. */
  method MoveChain(head: Link, heads2: seq<Link>, hash: HashFn, ghost heads: seq<Link>, ghost entries: seq<Entry>,
                   ghost table: TaNode, ghost i: nat, ghost m: Rings, ghost m0: Rings,
                   ghost links: set<Link>) returns (ghost m2: Rings)
    requires i < |heads| && heads[i] == head && DistinctLinks(heads + heads2)
    requires |heads2| > 0 && IsPowerOfTwo(|heads2|) && Owners(entries)
    requires HeadsIn(heads, table) && Unfreed(table, entries)
    requires AllRings(m) && Enclosed(m, links) && Moving(m, m0, heads, heads2, entries, hash, i, 0)
    modifies links`next, links`prev, links`home
    ensures AllRings(m2) && Enclosed(m2, links) && Owners(entries) && Unfreed(table, entries)
    ensures Moving(m2, m0, heads, heads2, entries, hash, i + 1, 0)
  {
    ghost var c, k := Chain(entries, hash, |heads|, i), 0;
    m2 := m;
    StartChain(m, m0, heads, heads2, entries, table, hash, i, links);
    BlockInUse(table, head);
    BlockInUse(BlockAt(c, 0, table), head.next);
    hide *;
    var pos := Next(head, table);
    var tmp := Next(pos, BlockAt(c, 0, table));
    while pos != head
      invariant Underway(m2, m0, heads, heads2, entries, table, hash, i, k, links, pos) && tmp == pos.next
      decreases |c| - k
    {
      AtNode(m2, m0, heads, heads2, entries, table, hash, i, k, links, pos);
      m2 := MoveNode(pos, head, heads2, hash, heads, entries, table, i, k, m2, m0, links);
      pos := tmp;
      k := k + 1;
      BlockInUse(BlockAt(c, k, table), pos);
      tmp := Next(pos, BlockAt(c, k, table));
    }
    EndChain(m2, m0, heads, heads2, entries, table, hash, i, k, links);
  }

  lemma StartMoving(m: Rings, heads: seq<Link>, heads2: seq<Link>, entries: seq<Entry>, hash: HashFn)
    requires |heads| > 0 && Table(m, heads, entries, hash) && Table(m, heads2, [], hash)
    ensures Moving(m, m, heads, heads2, entries, hash, 0, 0)
  {
    assert Chained(entries, EntryHash(hash), |heads|, 0) + Chain(entries, hash, |heads|, 0)[..0] == [];
    hide Select, Chained;
  }

  lemma EndMoving(m: Rings, m0: Rings, heads: seq<Link>, heads2: seq<Link>, entries: seq<Entry>, hash: HashFn)
    requires |heads| > 0 && Moving(m, m0, heads, heads2, entries, hash, |heads|, 0)
    ensures m.Keys == m0.Keys && forall h :: h in m && h !in heads && h !in heads2 ==> m[h] == m0[h]
    ensures Table(m, heads2, Chained(entries, EntryHash(hash), |heads|, |heads|), hash)
  {
    var done := Chained(entries, EntryHash(hash), |heads|, |heads|);
    assert done + Chain(entries, hash, |heads|, |heads|)[..0] == done;
  }

  /** The outer loop of dict_rehash. */
  method MoveAll(heads: seq<Link>, heads2: seq<Link>, hash: HashFn, ghost entries: seq<Entry>, ghost table: TaNode,
                 ghost m: Rings, ghost links: set<Link>) returns (ghost m2: Rings)
    requires |heads| > 0 && |heads2| > 0 && IsPowerOfTwo(|heads2|) && DistinctLinks(heads + heads2)
    requires AllRings(m) && Enclosed(m, links) && Owners(entries)
    requires HeadsIn(heads, table) && Unfreed(table, entries)
    requires Table(m, heads, entries, hash) && Table(m, heads2, [], hash)
    modifies links`next, links`prev, links`home
    ensures AllRings(m2) && Enclosed(m2, links) && m2.Keys == m.Keys
    ensures forall h :: h in m2 && h !in heads && h !in heads2 ==> m2[h] == m[h]
    ensures Table(m2, heads2, Chained(entries, EntryHash(hash), |heads|, |heads|), hash)
  {
    hide *;
    StartMoving(m, heads, heads2, entries, hash);
    m2 := m;
    for i := 0 to |heads|
      invariant AllRings(m2) && Enclosed(m2, links) && Owners(entries) && Unfreed(table, entries)
      invariant Moving(m2, m, heads, heads2, entries, hash, i, 0)
    {
      m2 := MoveChain(heads[i], heads2, hash, heads, entries, table, i, m2, m, links);
    }
    EndMoving(m2, m, heads, heads2, entries, hash);
  }

  // ---------- Between the allocator's ring and the table ----------

  /** Sentinels of a fresh bucket array, all initialised. */
  method NewHeads(n: nat, ghost table: TaNode) returns (heads: seq<Link>)
    ensures |heads| == n && DistinctLinks(heads) && HeadsIn(heads, table)
    ensures forall i :: 0 <= i < n ==> fresh(heads[i]) && Ring(heads[i], [])
  {
    heads := [];
    for i := 0 to n
      invariant |heads| == i && DistinctLinks(heads) && HeadsIn(heads, table)
      invariant forall j :: 0 <= j < i ==> fresh(heads[j]) && Ring(heads[j], [])
    {
      var head := new Link(table);
      InitListHead(head);
      heads := heads + [head];
    }
  }

  /** Nothing of the rings m belongs to a ring under a head outside m. */
  lemma Elsewhere(m: Rings, head: Link, s: seq<Link>)
    requires AllRings(m) && head !in m && Ring(head, s)
    ensures forall h :: h in m.Keys || h in Members(m) ==> h.home != head
  {
    forall h | h in m.Keys || h in Members(m)
      ensures h.home != head
    {
      if h in m {
        assert Ring(h, m[h]);
      } else {
        var g, i :| g in m && 0 <= i < |m[g]| && h == m[g][i];
        assert Ring(g, m[g]);
      }
    }
  }

  /** The rings of a table, a fresh table and the allocator, seen together. */
  ghost function Together(rings: Rings, heads2: seq<Link>, gc: TaNode): Rings
    reads gc
  {
    (rings + map h | h in heads2 :: [])[gc.list := Links(gc.live)]
  }

  /** The table under these heads alone. */
  ghost function Under(m: Rings, heads: seq<Link>): Rings
    requires forall i :: 0 <= i < |heads| ==> heads[i] in m
  {
    map h | h in heads :: m[h]
  }

  /** Fresh sentinels, none of them in use. */
  ghost predicate Unused(heads2: seq<Link>, rings: Rings, gc: TaNode)
    reads heads2
  {
    forall i :: 0 <= i < |heads2| ==> Ring(heads2[i], []) && heads2[i] !in rings && heads2[i] != gc.list
  }

  lemma GatherRings(rings: Rings, links: set<Link>, heads: seq<Link>, heads2: seq<Link>, gc: TaNode)
    requires gc.Valid() && AllRings(rings) && gc.list !in rings && Enclosed(rings, links)
    requires Unused(heads2, rings, gc)
    ensures var m := Together(rings, heads2, gc);
            gc.list in m && m[gc.list] == Links(gc.live) &&
            AllRings(m) && Enclosed(m, links + (set h | h in heads2) + LinkSet(gc, gc.live))
  {
    hide Ring;
  }

  lemma GatherTables(rings: Rings, heads: seq<Link>, heads2: seq<Link>, gc: TaNode, entries: seq<Entry>, hash: HashFn)
    requires gc.list !in rings && DistinctLinks(heads) && DistinctLinks(heads2) && |heads| > 0
    requires Table(rings, heads, entries, hash)
    requires Unused(heads2, rings, gc)
    ensures var m := Together(rings, heads2, gc);
            DistinctLinks(heads + heads2) && Table(m, heads, entries, hash) && Table(m, heads2, [], hash)
    ensures gc.list !in heads && gc.list !in heads2
  {
  }

  lemma SplitRings(m: Rings, m2: Rings, heads: seq<Link>, heads2: seq<Link>, gc: TaNode, entries: seq<Entry>,
                   hash: HashFn)
    requires AllRings(m2) && Table(m2, heads2, entries, hash) && m2.Keys == m.Keys
    requires gc.list in m && m[gc.list] == Links(gc.live) && gc.list !in heads && gc.list !in heads2
    requires forall h :: h in m2 && h !in heads && h !in heads2 ==> m2[h] == m[h]
    ensures AllRings(Under(m2, heads2)) && Ring(gc.list, Links(gc.live))
    ensures Under(m2, heads2).Keys == (set h | h in heads2)
    ensures Table(Under(m2, heads2), heads2, entries, hash)
  {
    hide Ring, Chain;
  }

  lemma ChainIn(entries: seq<Entry>, hash: HashFn, n: nat, b: nat, i: nat)
    requires n > 0 && i < |Chain(entries, hash, n, b)|
    ensures Chain(entries, hash, n, b)[i] in entries
  {
    SelectElement(entries, EntryHash(hash), n, b, Chain(entries, hash, n, b)[i]);
  }

  /** A table with no rings but its own has no links but its heads and its entries' nodes. */
  lemma TableEnclosed(m: Rings, heads: seq<Link>, entries: seq<Entry>, hash: HashFn, links: set<Link>)
    requires Table(m, heads, entries, hash) && m.Keys == set h | h in heads
    requires (forall h :: h in heads ==> h in links) && forall i :: 0 <= i < |entries| ==> entries[i].node in links
    ensures Enclosed(m, links)
  {
    hide Chain;
    forall h | h in m
      ensures forall i :: 0 <= i < |m[h]| ==> m[h][i] in links
    {
      var b :| 0 <= b < |heads| && heads[b] == h;
      forall i | 0 <= i < |m[h]|
        ensures m[h][i] in links
      {
        ChainIn(entries, hash, |heads|, b, i);
        var j :| 0 <= j < |entries| && entries[j] == Chain(entries, hash, |heads|, b)[i];
      }
    }
  }

  lemma StillValid(gc: TaNode)
    requires Ring(gc.list, Links(gc.live)) && Owned(gc, gc.live)
    ensures gc.Valid()
  {
  }

  /** MoveAll, which leaves the owners of the allocator's nodes alone. */
  method MoveAllBut(heads: seq<Link>, heads2: seq<Link>, hash: HashFn, ghost entries: seq<Entry>, ghost table: TaNode,
                    ghost m: Rings, ghost links: set<Link>, ghost gc: TaNode,
                    ghost live: seq<TaNode>) returns (ghost m2: Rings)
    requires |heads| > 0 && |heads2| > 0 && IsPowerOfTwo(|heads2|) && DistinctLinks(heads + heads2)
    requires AllRings(m) && Enclosed(m, links) && Owners(entries) && Owned(gc, live)
    requires HeadsIn(heads, table) && Unfreed(table, entries)
    requires Table(m, heads, entries, hash) && Table(m, heads2, [], hash)
    modifies links`next, links`prev, links`home
    ensures AllRings(m2) && m2.Keys == m.Keys && Owned(gc, live)
    ensures forall h :: h in m2 && h !in heads && h !in heads2 ==> m2[h] == m[h]
    ensures Table(m2, heads2, Chained(entries, EntryHash(hash), |heads|, |heads|), hash)
  {
    hide Ring, Chain, Table, Enclosed, IsPowerOfTwo, Chained, DistinctLinks, AllRings, Owners, Select, Nodes;
    m2 := MoveAll(heads, heads2, hash, entries, table, m, links);
  }

  /**
    The whole move of dict_rehash: the entries leave the rings under heads for those under heads2,
    and the allocator's ring is as before.
  */
  method Transfer(heads: seq<Link>, heads2: seq<Link>, hash: HashFn, ghost gc: TaNode, ghost entries: seq<Entry>,
                  ghost table: TaNode, ghost rings: Rings, ghost links: set<Link>,
                  ghost all: set<Link>) returns (ghost rings2: Rings)
    requires |heads| > 0 && |heads2| > 0 && IsPowerOfTwo(|heads2|)
    requires DistinctLinks(heads) && DistinctLinks(heads2)
    requires gc.Valid() && AllRings(rings) && gc.list !in rings && Enclosed(rings, links) && Owners(entries)
    requires Table(rings, heads, entries, hash) && HeadsIn(heads, table) && Unfreed(table, entries)
    requires Unused(heads2, rings, gc)
    requires all == links + (set h | h in heads2) + LinkSet(gc, gc.live)
    modifies all`next, all`prev, all`home
    ensures gc.Valid()
    ensures AllRings(rings2) && rings2.Keys == set h | h in heads2
    ensures Table(rings2, heads2, Chained(entries, EntryHash(hash), |heads|, |heads|), hash)
  {
    ghost var m := Together(rings, heads2, gc);
    GatherRings(rings, links, heads, heads2, gc);
    GatherTables(rings, heads, heads2, gc, entries, hash);
    assert Owned(gc, gc.live);
    hide *;
    assert gc.list in m && m[gc.list] == Links(gc.live);
    ghost var m2 := MoveAllBut(heads, heads2, hash, entries, table, m, all, gc, gc.live);
    SplitRings(m, m2, heads, heads2, gc, Chained(entries, EntryHash(hash), |heads|, |heads|), hash);
    rings2 := Under(m2, heads2);
    StillValid(gc);
  }
}
