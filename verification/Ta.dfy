/**
  The tracked allocator of ta.c: every allocation is a node on a ring under its context. The
  ghost field live lists the nodes of a context in ring order; allocation may fail at any time.
*/
module Ta {
  import opened Lists
  import opened Machine
  import opened Seqs

  /** ta_node_t, and ta_list_t, which is a node that serves as a ring head. */
  class TaNode {
    const list: Link
    const size: nat        // as it is stored: cut to 32 bits
    ghost const room: nat  // the bytes of user data that were allocated
    var mark: int
    ghost var freed: bool
    ghost var live: seq<TaNode>  // of a context only
    ghost var log: seq<bool>     // of a context only: whether its allocations, in order, have succeeded

    constructor (list: Link, bytes: nat)
      ensures this.list == list && Sized(this, bytes) && mark == 0 && !freed && live == [] && log == []
    {
      this.list, this.size, this.room := list, bytes % TWO_32, bytes;
      mark, freed, live, log := 0, false, [], [];
    }

    /** Its memory has not been freed, and its link is part of it. */
    ghost predicate Intact()
      reads this`freed, list`owner
    {
      !freed && list.owner == this && list.store == null
    }

    /** The context's ring holds exactly the links of the live nodes, none of them freed. */
    ghost predicate Valid()
      reads this, list, live, Links(live)
    {
      Ring(list, Links(live)) && Owned(this, live)
    }
  }

  /** The node was allocated for this many bytes. */
  ghost predicate Sized(p: TaNode, bytes: nat) {
    p.size == bytes % TWO_32 && p.room == bytes
  }

  function Links(nodes: seq<TaNode>): (s: seq<Link>)
    ensures |s| == |nodes| && forall i :: 0 <= i < |s| ==> s[i] == nodes[i].list
  {
    seq(|nodes|, i requires 0 <= i < |nodes| => nodes[i].list)
  }

  /** The links belong to the nodes, no node is freed, and none is the context itself, which is not freed either. */
  ghost predicate Owned(ll: TaNode, nodes: seq<TaNode>)
    reads ll`freed, ll.list`owner, nodes`freed, Links(nodes)`owner
  {
    ll.Intact() && forall i :: 0 <= i < |nodes| ==> nodes[i].Intact() && nodes[i] != ll
  }

  /** The link l is part of the allocation block. */
  ghost predicate Holds(block: TaNode, l: Link)
    reads l`owner
  {
    if l.store != null then l.store == block else l.owner == block
  }

  /** The next field of a link, which lies in the allocation block: that must not have been freed. */
  function Next(l: Link, ghost block: TaNode): (next: Link)
    reads l, block
    requires Holds(block, l) && !block.freed
    ensures next == l.next
  {
    l.next
  }

  /** The node a link is embedded in, for access to its fields: container_of. */
  function NodeOf(l: Link): TaNode
    reads l, l.owner
    requires l.owner is TaNode && !(l.owner as TaNode).freed
  {
    l.owner as TaNode
  }

  /** Live nodes are distinct. */
  lemma LiveDistinct(ll: TaNode)
    requires ll.Valid()
    ensures forall i, j :: 0 <= i < j < |ll.live| ==> ll.live[i] != ll.live[j] && ll.live[i].list != ll.live[j].list
  {
    var s := Links(ll.live);
    forall i, j | 0 <= i < j < |ll.live|
      ensures ll.live[i] != ll.live[j] && ll.live[i].list != ll.live[j].list
    {
      assert s[i] != s[j];
    }
  }

  method TaListInit(ll: TaNode)
    requires ll.Intact()
    modifies ll`live, ll.list`next, ll.list`prev, ll.list`home
    ensures ll.Valid() && ll.live == []
  {
    InitListHead(ll.list);
    ll.live := [];
  }

  /** Returns null when malloc fails. The stored size is cut to 32 bits. */
  method TaMalloc(ll: TaNode, size: nat) returns (p: TaNode?)
    requires ll.Valid()
    modifies ll`live, ll`log, ll.list`next, ll.list.next`prev
    ensures ll.Valid()
    ensures ll.log == old(ll.log) + [p != null]
    ensures p == null ==> ll.live == old(ll.live)
    ensures p != null ==>
              fresh(p) && fresh(p.list) && Sized(p, size) && p.mark == 0 &&
              ll.live == [p] + old(ll.live)
  {
    hide Ring, Links;
    if * {
      ll.log := ll.log + [false];
      return null;
    }
    var link := new Link(null);
    var node := new TaNode(link, size);
    link.owner := node;
    OwnedWith(ll, ll.live, node);
    AddOwned(node.list, ll, Links(ll.live), [node] + ll.live);
    ll.live, ll.log := [node] + ll.live, ll.log + [true];
    p := node;
  }

  lemma LinksWithout(nodes: seq<TaNode>, i: nat)
    requires i < |nodes|
    ensures Links(Without(nodes, i)) == Without(Links(nodes), i)
  {
  }

  lemma OthersOwned(ll: TaNode, i: nat)
    requires ll.Valid() && i < |ll.live|
    ensures Owned(ll, Without(ll.live, i)) && ll.live[i] !in Without(ll.live, i)
  {
    LiveDistinct(ll);
  }

  /** Takes the live node p out of its context. */
  method Unlink(p: TaNode, ghost ll: TaNode, ghost i: nat)
    requires ll.Valid() && i < |ll.live| && ll.live[i] == p
    modifies ll`live, p.list`home, p.list.next`prev, p.list.prev`next
    ensures ll.Valid() && ll.live == Without(old(ll.live), i)
    ensures p !in ll.live && p.list.home == null
  {
    OthersOwned(ll, i);
    LinksWithout(ll.live, i);
    hide Ring, Without, Links;
    DelOwned(p.list, ll, i, Links(ll.live), Without(ll.live, i));
    ll.live := Without(ll.live, i);
  }

  /** list_del, which leaves the nodes where they are. */
  method DelOwned(entry: Link, ghost ll: TaNode, ghost i: nat, ghost s: seq<Link>, ghost nodes: seq<TaNode>)
    requires Ring(ll.list, s) && i < |s| && s[i] == entry && Owned(ll, nodes)
    modifies entry`home, entry.next`prev, entry.prev`next
    ensures Ring(ll.list, Without(s, i)) && entry.home == null && Owned(ll, nodes)
  {
    hide Ring, Without;
    ListDel(entry, ll.list, i, s);
  }

  /** list_add, which leaves the nodes where they are. */
  method AddOwned(entry: Link, ll: TaNode, ghost s: seq<Link>, ghost nodes: seq<TaNode>)
    requires Ring(ll.list, s) && entry.home == null && Owned(ll, nodes)
    modifies entry`next, entry`prev, entry`home, ll.list`next, ll.list.next`prev
    ensures Ring(ll.list, [entry] + s) && Owned(ll, nodes)
  {
    hide Ring;
    ListAdd(entry, ll.list, s);
  }

  lemma OwnedWith(ll: TaNode, nodes: seq<TaNode>, p: TaNode)
    requires Owned(ll, nodes) && p.Intact() && p != ll
    ensures Owned(ll, [p] + nodes) && Links([p] + nodes) == [p.list] + Links(nodes)
  {
  }

  /** Unlinks and frees the live node p. */
  method FreeNode(p: TaNode, ghost ll: TaNode, ghost i: nat)
    requires ll.Valid() && i < |ll.live| && ll.live[i] == p
    modifies ll`live, p`freed, p.list`home, p.list.next`prev, p.list.prev`next
    ensures ll.Valid() && ll.live == Without(old(ll.live), i)
    ensures p.freed
  {
    hide Without, Ring;
    Unlink(p, ll, i);
    p.freed := true;
  }

  /** The links that unlinking p writes to. */
  ghost function Around(p: TaNode?): set<Link>
    reads p, if p == null then {} else {p.list}
  {
    if p == null then {} else {p.list, p.list.next, p.list.prev}
  }

  function Only(p: TaNode?): set<TaNode> {
    if p == null then {} else {p}
  }

  /** ta_free: freeing null does nothing. */
  method TaFree(p: TaNode?, ghost ll: TaNode, ghost i: nat)
    requires ll.Valid()
    requires p != null ==> i < |ll.live| && ll.live[i] == p
    modifies ll`live, Only(p)`freed, Around(p)`next, Around(p)`prev, Around(p)`home
    ensures ll.Valid()
    ensures ll.live == if p == null then old(ll.live) else Without(old(ll.live), i)
    ensures p != null ==> p.freed
  {
    if p == null {
      return;
    }
    FreeNode(p, ll, i);
  }

  /** ta_calloc; the product is a size_t. */
  method TaCalloc(ll: TaNode, n: nat, size: nat) returns (p: TaNode?)
    requires ll.Valid()
    modifies ll`live, ll`log, ll.list`next, ll.list.next`prev
    ensures ll.Valid()
    ensures ll.log == old(ll.log) + [p != null]
    ensures p == null ==> ll.live == old(ll.live)
    ensures p != null ==>
              fresh(p) && fresh(p.list) && p.size == n * size % TWO_32 && p.room == n * size % TWO_64 && p.mark == 0 &&
              ll.live == [p] + old(ll.live)
  {
    WrapTwice(n * size);
    p := TaMalloc(ll, n * size % TWO_64);
  }

  lemma WrapTwice(x: nat)
    ensures x % TWO_64 % TWO_32 == x % TWO_32
  {
    var q := x / TWO_64;
    assert x == TWO_32 * (TWO_32 * q) + x % TWO_64;
  }

  // ---------- Reallocation ----------

  /** Puts a node that is on no ring at the front of the context. */
  method PutFirst(p: TaNode, ll: TaNode)
    requires ll.Valid() && p.list.home == null && p.Intact() && p != ll
    modifies ll`live, p.list`next, p.list`prev, p.list`home, ll.list`next, ll.list.next`prev
    ensures ll.Valid() && ll.live == [p] + old(ll.live)
  {
    OwnedWith(ll, ll.live, p);
    hide Ring, Links;
    AddOwned(p.list, ll, Links(ll.live), [p] + ll.live);
    ll.live := [p] + ll.live;
  }

  lemma FirstIn(ll: TaNode, links: set<Link>)
    requires ll.Valid() && LinkSet(ll, ll.live) <= links
    ensures ll.list in links && ll.list.next in links
  {
    FirstInRing(ll);
  }

  lemma AroundIn(ll: TaNode, i: nat)
    requires ll.Valid() && i < |ll.live|
    ensures Around(ll.live[i]) <= LinkSet(ll, ll.live)
    ensures LinkSet(ll, Without(ll.live, i)) <= LinkSet(ll, ll.live)
  {
    NextInRing(ll, i);
  }

  /**
    ta_realloc of the i-th live node. Success or not, the node ends up at the front of its context;
    when realloc fails it is the same node as before.
  */
  method TaRealloc(ll: TaNode, p: TaNode, size: nat, ghost i: nat) returns (q: TaNode?)
    requires ll.Valid() && i < |ll.live| && ll.live[i] == p
    modifies ll`live, ll`log, p`freed
    modifies LinkSet(ll, ll.live)`next, LinkSet(ll, ll.live)`prev, LinkSet(ll, ll.live)`home
    ensures ll.Valid() && ll.live == [if q == null then p else q] + Without(old(ll.live), i)
    ensures ll.log == old(ll.log) + [q != null]
    ensures q == null ==> !p.freed
    ensures q != null ==> p.freed && fresh(q) && fresh(q.list) && Sized(q, size) && q.mark == 0
  {
    ghost var links := LinkSet(ll, ll.live);
    NextInRing(ll, i);
    AroundIn(ll, i);
    hide TaNode.Valid, Without, LinkSet;
    Unlink(p, ll, i);
    FirstIn(ll, links);
    q := MoveToFront(ll, p, size);
  }

  /** The part of ta_realloc behind the unlinking. */
  method MoveToFront(ll: TaNode, p: TaNode, size: nat) returns (q: TaNode?)
    requires ll.Valid() && p !in ll.live && p != ll && p.Intact() && p.list.home == null
    modifies ll`live, ll`log, p`freed, p.list`next, p.list`prev, p.list`home, ll.list`next, ll.list.next`prev
    ensures ll.Valid() && ll.live == [if q == null then p else q] + old(ll.live)
    ensures ll.log == old(ll.log) + [q != null]
    ensures q == null ==> !p.freed
    ensures q != null ==> p.freed && fresh(q) && fresh(q.list) && Sized(q, size) && q.mark == 0
  {
    hide Ring, Owned, Links;
    q := Moved(p, size, ll);
    ll.log := ll.log + [q != null];
    if q == null {
      PutFirst(p, ll);
    } else {
      PutFirst(q, ll);
    }
  }

  /** realloc of a node that is on no ring: null, or a new node, and then the old one is gone. */
  method Moved(p: TaNode, size: nat, ghost ll: TaNode) returns (q: TaNode?)
    requires ll.Valid() && p !in ll.live && p != ll
    modifies p`freed
    ensures ll.Valid() && ll.live == old(ll.live)
    ensures q == null ==> p.freed == old(p.freed)
    ensures q != null ==> p.freed && fresh(q) && fresh(q.list) && Sized(q, size) && q.mark == 0
    ensures q != null ==> q.list.home == null && q.Intact()
  {
    hide Ring;
    if * {
      return null;
    }
    var link := new Link(null);
    q := new TaNode(link, size);
    link.owner := q;
    p.freed := true;
  }

  // ---------- Destroying a context ----------

  /** The first k nodes of the ring are freed, and the others and the context itself are not. */
  ghost predicate Dying(ll: TaNode, all: seq<TaNode>, k: nat)
    reads *
  {
    k <= |all| && Distinct(all) && Ring(ll.list, Links(all)) && ll.Intact() &&
    forall i :: 0 <= i < |all| ==> if i < k then all[i].freed else all[i].Intact() && all[i] != ll
  }

  ghost function NodeAt(ll: TaNode, all: seq<TaNode>, k: nat): TaNode {
    if k < |all| then all[k] else ll
  }

  /** Where the walk stands when k nodes are freed. */
  lemma AtDying(ll: TaNode, all: seq<TaNode>, k: nat)
    requires Dying(ll, all, k)
    ensures k <= |all| && Holds(NodeAt(ll, all, k), NodeAt(ll, all, k).list) && !NodeAt(ll, all, k).freed
    ensures k < |all| ==> NodeAt(ll, all, k) == all[k] && all[k].list != ll.list && all[k].list.owner == all[k] &&
                          all[k].list.next == NodeAt(ll, all, k + 1).list
    ensures k == |all| ==> NodeAt(ll, all, k) == ll
    ensures k == 0 ==> ll.list.next == NodeAt(ll, all, 0).list
  {
    if k < |all| {
      Neighbours(ll.list, Links(all), k);
    }
    hide Ring;
  }

  lemma StartDying(ll: TaNode)
    requires ll.Valid()
    ensures Dying(ll, ll.live, 0) && Holds(ll, ll.list) && !ll.freed
    ensures ll.list.next == NodeAt(ll, ll.live, 0).list
  {
    LiveDistinct(ll);
    FirstInRing(ll);
    hide Ring;
  }

  /** free of the node that a link of a ring is embedded in; the ring is left as it is. */
  method FreeInPlace(pos: Link, ghost node: TaNode, ghost ll: TaNode, ghost all: seq<TaNode>, ghost k: nat)
    requires Dying(ll, all, k) && k < |all| && node == all[k] && pos == node.list
    modifies node`freed
    ensures Dying(ll, all, k + 1)
  {
    AtDying(ll, all, k);
    hide Ring, Links;
    NodeOf(pos).freed := true;
  }

  lemma AllDead(ll: TaNode, all: seq<TaNode>)
    requires Dying(ll, all, |all|)
    ensures ll.Intact() && forall i :: 0 <= i < |all| ==> all[i].freed
  {
  }

  /** Frees every node without unlinking any, and leaves an empty context. */
  method TaListDestroy(ll: TaNode)
    requires ll.Valid()
    modifies ll`live, ll.live`freed, ll.list`next, ll.list`prev, ll.list`home
    ensures ll.Valid() && ll.live == []
    ensures forall i :: 0 <= i < |old(ll.live)| ==> old(ll.live)[i].freed
  {
    hide *;
    ghost var all, k := ll.live, 0;
    StartDying(ll);
    AtDying(ll, all, k);
    var pos := Next(ll.list, ll);
    var tmp := Next(pos, NodeAt(ll, all, k));
    while pos != ll.list
      invariant k <= |all| && pos == NodeAt(ll, all, k).list && tmp == pos.next && Dying(ll, all, k)
      decreases |all| - k
    {
      AtDying(ll, all, k);
      FreeInPlace(pos, all[k], ll, all, k);
      pos := tmp;
      k := k + 1;
      AtDying(ll, all, k);
      tmp := Next(pos, NodeAt(ll, all, k));
    }
    AtDying(ll, all, k);
    AllDead(ll, all);
    TaListInit(ll);
  }

  /** What a context's nodes hold in all. */
  function TotalSize(nodes: seq<TaNode>): nat
  {
    if nodes == [] then 0 else TotalSize(nodes[..|nodes| - 1]) + nodes[|nodes| - 1].size
  }

  /** Walks the ring with the successor saved in advance, as list_for_each_safe does. */
  method TaListTotalMem(ll: TaNode) returns (size: nat)
    requires ll.Valid()
    ensures size == TotalSize(ll.live) % TWO_64
  {
    ghost var s := Links(ll.live);
    size := 0;
    var pos := Next(ll.list, ll);
    ghost var k := 0;
    var tmp := Next(pos, if k < |s| then ll.live[k] else ll);
    while pos != ll.list
      invariant k <= |s| && pos == (if k < |s| then s[k] else ll.list)
      invariant tmp == pos.next
      invariant size == TotalSize(ll.live[..k]) % TWO_64
      decreases |s| - k
    {
      assert pos.owner == ll.live[k];
      Neighbours(ll.list, s, k);
      assert ll.live[..k + 1][..k] == ll.live[..k];
      size := (size + NodeOf(pos).size) % TWO_64;
      pos := tmp;
      k := k + 1;
      tmp := Next(pos, if k < |s| then ll.live[k] else ll);
    }
    assert ll.live[..k] == ll.live;
  }

  /** Marks the i-th live node, for the next sweep to free it. */
  method TaMark(p: TaNode, ghost ll: TaNode, ghost i: nat)
    requires ll.Valid() && i < |ll.live| && ll.live[i] == p
    modifies p`mark
    ensures p.mark == 1 && ll.Valid()
  {
    p.mark := 1;
  }

  /** The nodes whose mark is not set, in order. */
  function Unmarked(nodes: seq<TaNode>, marks: seq<int>): (r: seq<TaNode>)
    requires |marks| == |nodes|
  {
    if nodes == [] then []
    else
      var n := |nodes| - 1;
      Unmarked(nodes[..n], marks[..n]) + if marks[n] == 1 then [] else [nodes[n]]
  }

  ghost function Marks(nodes: seq<TaNode>): (marks: seq<int>)
    reads nodes
    ensures |marks| == |nodes| && forall i :: 0 <= i < |nodes| ==> marks[i] == nodes[i].mark
  {
    seq(|nodes|, i requires 0 <= i < |nodes| reads nodes => nodes[i].mark)
  }

  lemma UnmarkedStep(nodes: seq<TaNode>, marks: seq<int>, n: TaNode, mark: int)
    requires |marks| == |nodes|
    ensures Unmarked(nodes + [n], marks + [mark]) == Unmarked(nodes, marks) + if mark == 1 then [] else [n]
  {
    assert (nodes + [n])[..|nodes|] == nodes && (marks + [mark])[..|marks|] == marks;
  }

  lemma FirstInRing(ll: TaNode)
    requires ll.Valid()
    ensures ll.list.next == (if |ll.live| > 0 then ll.live[0].list else ll.list)
  {
  }

  lemma NextInRing(ll: TaNode, i: nat)
    requires ll.Valid() && i < |ll.live|
    ensures ll.live[i].Intact() && ll.live[i].list != ll.list && ll.live[i] != ll
    ensures ll.live[i].list.next == (if i + 1 < |ll.live| then ll.live[i + 1].list else ll.list)
    ensures ll.live[i].list.prev == (if i > 0 then ll.live[i - 1].list else ll.list)
  {
    Neighbours(ll.list, Links(ll.live), i);
  }

  ghost predicate Distinct(nodes: seq<TaNode>) {
    forall i, j :: 0 <= i < j < |nodes| ==> nodes[i] != nodes[j]
  }

  ghost predicate Within(nodes: seq<TaNode>, links: set<Link>) {
    forall i :: 0 <= i < |nodes| ==> nodes[i].list in links
  }

  /** Looks at one node of the ring, after kept and before next: frees it if it is marked. */
  method SweepStep(ll: TaNode, pos: Link, ghost kept: seq<TaNode>, ghost node: TaNode, ghost next: seq<TaNode>,
                   ghost links: set<Link>) returns (n: TaNode, ghost after: seq<TaNode>)
    requires ll.Valid() && ll.live == kept + [node] + next && pos == node.list
    requires Within(ll.live, links) && ll.list in links
    modifies ll`live, node`freed, links
    ensures n == node && after == (if n.mark == 1 then kept else kept + [n])
    ensures ll.Valid() && ll.live == after + next && Within(ll.live, links)
    ensures n.freed <==> n.mark == 1
    ensures old(pos.next) == (if |next| > 0 then next[0].list else ll.list)
  {
    ghost var i := |kept|;
    AtFront(kept, node, next, links);
    NextInRing(ll, i);
    hide TaNode.Valid, Within, Without, Ring;
    n := NodeOf(pos);
    if n.mark == 1 {
      FreeNode(n, ll, i);
      after := kept;
    } else {
      after := kept + [n];
    }
  }

  lemma AtFront(kept: seq<TaNode>, node: TaNode, next: seq<TaNode>, links: set<Link>)
    requires Within(kept + [node] + next, links)
    ensures var live, i := kept + [node] + next, |kept|;
            live[i] == node && node.list in links &&
            (if |next| > 0 then i + 1 < |live| && live[i + 1] == next[0] && next[0].list in links
             else |live| == i + 1) &&
            (i > 0 ==> live[i - 1].list in links) &&
            Without(live, i) == kept + next && Within(kept + next, links)
  {
    var live, i := kept + [node] + next, |kept|;
    assert live[i] == node;
    assert Without(live, i) == kept + next;
    forall j | 0 <= j < |kept + next|
      ensures (kept + next)[j].list in links
    {
      assert (kept + next)[j] == live[if j < i then j else j + 1];
    }
    assert i > 0 ==> live[i - 1].list in links;
    assert |next| > 0 ==> live[i + 1] == next[0];
  }

  /** After looking at the first k nodes, exactly the marked ones among them are freed. */
  ghost predicate Swept(all: seq<TaNode>, marks: seq<int>, k: nat)
    requires |marks| == |all|
    reads all
  {
    forall i :: 0 <= i < |all| ==> all[i].mark == marks[i] && (all[i].freed <==> i < k && marks[i] == 1)
  }

  /** What is on the ring when the sweep stands before the k-th of all nodes. */
  ghost predicate Left(live: seq<TaNode>, all: seq<TaNode>, marks: seq<int>, k: nat)
    requires k <= |all| == |marks|
  {
    live == Unmarked(all[..k], marks[..k]) + all[k..]
  }

  lemma LeftStep(live: seq<TaNode>, all: seq<TaNode>, marks: seq<int>, k: nat)
    returns (kept: seq<TaNode>, next: seq<TaNode>)
    requires k < |all| == |marks| && Left(live, all, marks, k)
    ensures live == kept + [all[k]] + next
    ensures Left((if marks[k] == 1 then kept else kept + [all[k]]) + next, all, marks, k + 1)
    ensures if k + 1 < |all| then |next| > 0 && next[0] == all[k + 1] else |next| == 0
  {
    kept, next := Unmarked(all[..k], marks[..k]), all[k + 1..];
    DropOne(all, k);
    TakeOne(all, k);
    TakeOne(marks, k);
    UnmarkedStep(all[..k], marks[..k], all[k], marks[k]);
    Concat3(kept, all[k], next);
    hide Unmarked;
    assert kept + [] == kept;
  }

  /** The sweep stands at pos, before the k-th of all nodes, and has kept what was not marked. */
  ghost predicate Sweeping(ll: TaNode, links: set<Link>, all: seq<TaNode>, marks: seq<int>, k: nat, pos: Link)
    reads *
  {
    k <= |all| == |marks| && ll.Valid() && Within(ll.live, links) && ll.list in links &&
    Left(ll.live, all, marks, k) && Swept(all, marks, k) && Distinct(all) &&
    pos == (if k < |all| then all[k].list else ll.list)
  }

  /** The sweep stands in memory that is still allocated. */
  lemma MaySweep(ll: TaNode, links: set<Link>, all: seq<TaNode>, marks: seq<int>, k: nat, pos: Link)
    requires Sweeping(ll, links, all, marks, k, pos)
    ensures var node := if k < |all| then all[k] else ll;
            pos == node.list && Holds(node, pos) && !node.freed
  {
    if k < |all| {
      assert ll.live[|Unmarked(all[..k], marks[..k])|] == all[k];
    }
  }

  method SweepBody(ll: TaNode, pos: Link, ghost links: set<Link>, ghost all: seq<TaNode>, ghost node: TaNode,
                   ghost marks: seq<int>, ghost k: nat)
    requires k < |all| && node == all[k] && Sweeping(ll, links, all, marks, k, pos)
    modifies ll`live, node`freed, links
    ensures Sweeping(ll, links, all, marks, k + 1, if k + 1 < |all| then all[k + 1].list else ll.list)
    ensures var next := if k + 1 < |all| then all[k + 1] else ll;
            old(pos.next) == next.list && Holds(next, next.list) && !next.freed
  {
    hide Left, TaNode.Valid, Within, Ring, Owned, Unmarked, Links;
    ghost var kept, rest := LeftStep(ll.live, all, marks, k);
    var n, after := SweepStep(ll, pos, kept, node, rest, links);
    MaySweep(ll, links, all, marks, k + 1, if k + 1 < |all| then all[k + 1].list else ll.list);
  }

  /** Frees exactly the marked nodes; the others stay, in order. */
  method TaSweep(ll: TaNode)
    requires ll.Valid()
    modifies ll`live, ll.live`freed, LinkSet(ll, ll.live)
    ensures ll.Valid()
    ensures ll.live == Unmarked(old(ll.live), old(Marks(ll.live)))
    ensures Swept(old(ll.live), old(Marks(ll.live)), |old(ll.live)|)
  {
    ghost var all, marks := ll.live, Marks(ll.live);
    ghost var links := LinkSet(ll, all);
    StartSweep(ll, links);
    hide *;
    ghost var k := 0;
    var pos := Next(ll.list, ll);
    var tmp := Next(pos, if k < |all| then all[k] else ll);
    while pos != ll.list
      invariant k <= |all| && Sweeping(ll, links, all, marks, k, pos) && tmp == pos.next
      decreases |all| - k
    {
      SweepBody(ll, pos, links, all, all[k], marks, k);
      pos := tmp;
      k := k + 1;
      tmp := Next(pos, if k < |all| then all[k] else ll);
    }
    EndSweep(ll, links, all, marks, k);
  }

  /** The links of a context's ring. */
  ghost function LinkSet(ll: TaNode, nodes: seq<TaNode>): set<Link> {
    {ll.list} + set i | 0 <= i < |nodes| :: nodes[i].list
  }

  lemma StartSweep(ll: TaNode, links: set<Link>)
    requires ll.Valid() && links == LinkSet(ll, ll.live)
    ensures Sweeping(ll, links, ll.live, Marks(ll.live), 0, ll.list.next)
    ensures var first := if 0 < |ll.live| then ll.live[0] else ll;
            Holds(ll, ll.list) && !ll.freed && Holds(first, ll.list.next) && !first.freed
    ensures ll.list.next == (if 0 < |ll.live| then ll.live[0].list else ll.list)
  {
    LiveDistinct(ll);
    FirstInRing(ll);
    var all := ll.live;
    assert Within(all, links);
    assert Unmarked(all[..0], Marks(all)[..0]) + all[0..] == all;
  }

  lemma EndSweep(ll: TaNode, links: set<Link>, all: seq<TaNode>, marks: seq<int>, k: nat)
    requires Sweeping(ll, links, all, marks, k, ll.list) && k <= |all|
    requires k < |all| ==> all[k].list == ll.list
    ensures ll.Valid() && ll.live == Unmarked(all, marks)
    ensures |marks| == |all| && Swept(all, marks, |all|)
  {
    forall i | 0 <= i < |ll.live|
      ensures ll.live[i].list != ll.list
    {
      NextInRing(ll, i);
    }
    assert k < |all| ==> ll.live[|Unmarked(all[..k], marks[..k])|] == all[k];
    assert all[..k] == all && marks[..k] == marks && all[k..] == [];
  }
}
