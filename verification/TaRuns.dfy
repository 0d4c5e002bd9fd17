/**
  Runs of calls on one context of the tracked allocator: what is left of it, in which order, and that
  every node made is either live or freed.
*/
module TaRuns {
  import opened Machine
  import opened Seqs
  import opened Ta

  /** What is told of a live node: the number of the call that made it, its size and its mark. */
  datatype Block = Block(id: nat, size: nat, mark: int)

  /** The calls of ta.h; id names the pointer that call number id has returned. A pointer that is not held is null. */
  datatype Call =
    | CallMalloc(size: nat)
    | CallCalloc(n: nat, size: nat)
    | CallRealloc(id: nat, size: nat)
    | CallFree(id: nat)
    | CallMark(id: nat)
    | CallSweep
    | CallDestroy

  /** Where the block is on the ring, or -1. */
  function Place(blocks: seq<Block>, id: nat): (i: int)
    ensures -1 <= i < |blocks|
    ensures i >= 0 ==> blocks[i].id == id
    ensures i < 0 ==> forall j :: 0 <= j < |blocks| ==> blocks[j].id != id
  {
    if blocks == [] then -1
    else if blocks[|blocks| - 1].id == id then |blocks| - 1
    else Place(blocks[..|blocks| - 1], id)
  }

  /** The blocks that a sweep leaves. */
  function Kept(blocks: seq<Block>): (r: seq<Block>)
    ensures forall b :: b in r <==> b in blocks && b.mark != 1
  {
    if blocks == [] then []
    else
      var init, last := blocks[..|blocks| - 1], blocks[|blocks| - 1];
      Kept(init) + if last.mark == 1 then [] else [last]
  }

  /** What call number k makes of the blocks of a context, in ring order. */
  function Step(blocks: seq<Block>, k: nat, call: Call, ok: bool): seq<Block> {
    match call
    case CallMalloc(size) => if ok then [Block(k, size % TWO_32, 0)] + blocks else blocks
    case CallCalloc(n, size) => if ok then [Block(k, n * size % TWO_32, 0)] + blocks else blocks
    case CallRealloc(id, size) =>
      var i := Place(blocks, id);
      if i < 0 then blocks
      else [if ok then Block(id, size % TWO_32, 0) else blocks[i]] + Without(blocks, i)
    case CallFree(id) =>
      var i := Place(blocks, id);
      if i < 0 then blocks else Without(blocks, i)
    case CallMark(id) =>
      var i := Place(blocks, id);
      if i < 0 then blocks else blocks[i := blocks[i].(mark := 1)]
    case CallSweep => Kept(blocks)
    case CallDestroy => []
  }

  /** What the call asks of malloc or realloc, and whether it gets it. */
  function Asked(blocks: seq<Block>, call: Call, ok: bool): seq<bool> {
    match call
    case CallMalloc(_) => [ok]
    case CallCalloc(_, _) => [ok]
    case CallRealloc(id, _) => if Place(blocks, id) < 0 then [] else [ok]
    case _ => []
  }

  /** The blocks after the first calls, from an empty context on; oks says which allocations succeed. */
  function Run(calls: seq<Call>, oks: seq<bool>): seq<Block>
    requires |oks| <= |calls|
  {
    if oks == [] then []
    else
      var k := |oks| - 1;
      Step(Run(calls, oks[..k]), k, calls[k], oks[k])
  }

  function AskedIn(calls: seq<Call>, oks: seq<bool>): seq<bool>
    requires |oks| <= |calls|
  {
    if oks == [] then []
    else
      var k := |oks| - 1;
      AskedIn(calls, oks[..k]) + Asked(Run(calls, oks[..k]), calls[k], oks[k])
  }

  function Bytes(blocks: seq<Block>): nat {
    if blocks == [] then 0 else Bytes(blocks[..|blocks| - 1]) + blocks[|blocks| - 1].size
  }

  lemma {:induction false} BytesConcat(s: seq<Block>, t: seq<Block>)
    ensures Bytes(s + t) == Bytes(s) + Bytes(t)
  {
    if t == [] {
      assert s + t == s;
    } else {
      BytesConcat(s, t[..|t| - 1]);
      assert (s + t)[..|s + t| - 1] == s + t[..|t| - 1];
    }
  }

  /** The bytes that a call adds to the context. */
  function Gained(blocks: seq<Block>, call: Call, ok: bool): nat {
    match call
    case CallMalloc(size) => if ok then size % TWO_32 else 0
    case CallCalloc(n, size) => if ok then n * size % TWO_32 else 0
    case CallRealloc(id, size) => if Place(blocks, id) >= 0 && ok then size % TWO_32 else 0
    case _ => 0
  }

  /** The bytes that it takes away. */
  function Lost(blocks: seq<Block>, call: Call, ok: bool): nat {
    match call
    case CallRealloc(id, _) => if Place(blocks, id) >= 0 && ok then blocks[Place(blocks, id)].size else 0
    case CallFree(id) => if Place(blocks, id) >= 0 then blocks[Place(blocks, id)].size else 0
    case CallSweep => Bytes(Marked(blocks))
    case CallDestroy => Bytes(blocks)
    case _ => 0
  }

  /** The blocks that a sweep frees. */
  function Marked(blocks: seq<Block>): (r: seq<Block>) {
    if blocks == [] then []
    else
      var init, last := blocks[..|blocks| - 1], blocks[|blocks| - 1];
      Marked(init) + if last.mark == 1 then [last] else []
  }

  function GainedIn(calls: seq<Call>, oks: seq<bool>): nat
    requires |oks| <= |calls|
  {
    if oks == [] then 0
    else
      var k := |oks| - 1;
      GainedIn(calls, oks[..k]) + Gained(Run(calls, oks[..k]), calls[k], oks[k])
  }

  function LostIn(calls: seq<Call>, oks: seq<bool>): nat
    requires |oks| <= |calls|
  {
    if oks == [] then 0
    else
      var k := |oks| - 1;
      LostIn(calls, oks[..k]) + Lost(Run(calls, oks[..k]), calls[k], oks[k])
  }

  lemma BytesOfOne(b: Block)
    ensures Bytes([b]) == b.size
  {
    assert [b][..0] == [];
  }

  lemma BytesWithout(blocks: seq<Block>, i: nat)
    requires i < |blocks|
    ensures Bytes(Without(blocks, i)) == Bytes(blocks) - blocks[i].size
  {
    hide Bytes;
    SplitAt(blocks, i);
    BytesConcat(blocks[..i], [blocks[i]] + blocks[i + 1..]);
    BytesConcat([blocks[i]], blocks[i + 1..]);
    BytesConcat(blocks[..i], blocks[i + 1..]);
    BytesOfOne(blocks[i]);
  }

  lemma BytesMarked(blocks: seq<Block>, i: nat)
    requires i < |blocks|
    ensures Bytes(blocks[i := blocks[i].(mark := 1)]) == Bytes(blocks)
  {
    hide Bytes;
    var marked := blocks[i := blocks[i].(mark := 1)];
    BytesWithout(blocks, i);
    BytesWithout(marked, i);
    assert Without(marked, i) == Without(blocks, i);
  }

  lemma {:induction false} BytesSwept(blocks: seq<Block>)
    ensures Bytes(Kept(blocks)) + Bytes(Marked(blocks)) == Bytes(blocks)
  {
    if blocks != [] {
      var init, last := blocks[..|blocks| - 1], blocks[|blocks| - 1];
      BytesSwept(init);
      assert Kept(init) + [] == Kept(init) && Marked(init) + [] == Marked(init);
      BytesConcat(Kept(init), [last]);
      BytesConcat(Marked(init), [last]);
      BytesOfOne(last);
    }
  }

  lemma StepBalances(blocks: seq<Block>, k: nat, call: Call, ok: bool)
    ensures Bytes(Step(blocks, k, call, ok)) + Lost(blocks, call, ok) == Bytes(blocks) + Gained(blocks, call, ok)
  {
    hide Bytes, Kept, Marked, Without, Place;
    match call
    case CallMalloc(size) =>
      BytesConcat([Block(k, size % TWO_32, 0)], blocks);
      BytesOfOne(Block(k, size % TWO_32, 0));
    case CallCalloc(n, size) =>
      BytesConcat([Block(k, n * size % TWO_32, 0)], blocks);
      BytesOfOne(Block(k, n * size % TWO_32, 0));
    case CallRealloc(id, size) =>
      var i := Place(blocks, id);
      if i >= 0 {
        var first := if ok then Block(id, size % TWO_32, 0) else blocks[i];
        BytesConcat([first], Without(blocks, i));
        BytesOfOne(first);
        BytesWithout(blocks, i);
      }
    case CallFree(id) =>
      if Place(blocks, id) >= 0 {
        BytesWithout(blocks, Place(blocks, id));
      }
    case CallMark(id) =>
      if Place(blocks, id) >= 0 {
        BytesMarked(blocks, Place(blocks, id));
      }
    case CallSweep =>
      BytesSwept(blocks);
    case CallDestroy =>
      NoBytes();
  }

  lemma NoBytes()
    ensures Bytes([]) == 0
  {
  }

  /** Whatever fails: what the context holds is what it has gained and not lost. */
  lemma {:induction false} RunBalances(calls: seq<Call>, oks: seq<bool>)
    requires |oks| <= |calls|
    ensures Bytes(Run(calls, oks)) + LostIn(calls, oks) == GainedIn(calls, oks)
  {
    if oks != [] {
      var k := |oks| - 1;
      RunBalances(calls, oks[..k]);
      StepBalances(Run(calls, oks[..k]), k, calls[k], oks[k]);
    }
  }

  // ---------- What a client holds ----------

  /** The pointers that a client holds, by the call that has returned them. */
  type Client = map<nat, TaNode>

  /** The client holds exactly these nodes, and these are their blocks. */
  ghost predicate Holding(nodes: seq<TaNode>, held: Client, blocks: seq<Block>)
    reads nodes`mark
  {
    |blocks| == |nodes| &&
    (forall i :: 0 <= i < |blocks| ==> blocks[i].id in held && held[blocks[i].id] == nodes[i]) &&
    (forall i :: 0 <= i < |blocks| ==> blocks[i].size == nodes[i].size && blocks[i].mark == nodes[i].mark) &&
    (forall i, j :: 0 <= i < j < |blocks| ==> blocks[i].id != blocks[j].id) &&
    forall id :: id in held ==> Place(blocks, id) >= 0
  }

  lemma HoldsPlace(nodes: seq<TaNode>, held: Client, blocks: seq<Block>, id: nat)
    requires Holding(nodes, held, blocks)
    ensures id in held <==> Place(blocks, id) >= 0
    ensures id in held ==> held[id] == nodes[Place(blocks, id)]
  {
    hide Place;
  }

  lemma HoldsMore(nodes: seq<TaNode>, held: Client, blocks: seq<Block>, p: TaNode, b: Block)
    requires Holding(nodes, held, blocks) && b.id !in held && b.size == p.size && b.mark == p.mark
    ensures Holding([p] + nodes, held[b.id := p], [b] + blocks)
  {
    hide Place;
    var more := [b] + blocks;
    forall id | id in held[b.id := p]
      ensures Place(more, id) >= 0
    {
      assert more[if id == b.id then 0 else Place(blocks, id) + 1].id == id;
    }
  }

  lemma HoldsFewer(nodes: seq<TaNode>, held: Client, blocks: seq<Block>, i: nat)
    requires Holding(nodes, held, blocks) && i < |blocks|
    ensures Holding(Without(nodes, i), held - {blocks[i].id}, Without(blocks, i))
  {
    hide Place;
    var less := Without(blocks, i);
    forall id | id in held - {blocks[i].id}
      ensures Place(less, id) >= 0
    {
      var j := Place(blocks, id);
      assert less[if j < i then j else j - 1].id == id;
    }
  }

  /** The pointers that are still good after a sweep. */
  function Good(held: Client): Client
    reads set id | id in held :: held[id]
  {
    map id | id in held && held[id].mark != 1 :: held[id]
  }

  ghost predicate SameMarks(nodes: seq<TaNode>, blocks: seq<Block>)
    reads nodes`mark
  {
    |blocks| == |nodes| && forall i :: 0 <= i < |blocks| ==> blocks[i].mark == nodes[i].mark
  }

  lemma {:induction false} SweptSize(nodes: seq<TaNode>, blocks: seq<Block>)
    requires SameMarks(nodes, blocks)
    ensures |Unmarked(nodes, Marks(nodes))| == |Kept(blocks)|
  {
    if nodes != [] {
      var n := |nodes| - 1;
      SweptSize(nodes[..n], blocks[..n]);
      assert Marks(nodes)[..n] == Marks(nodes[..n]);
    }
  }

  /** What a sweep leaves at one place is one node with its block. */
  lemma {:induction false} SweptAt(nodes: seq<TaNode>, blocks: seq<Block>, j: nat) returns (i: nat)
    requires SameMarks(nodes, blocks) && j < |Kept(blocks)|
    ensures |Unmarked(nodes, Marks(nodes))| == |Kept(blocks)|
    ensures i < |nodes| && Unmarked(nodes, Marks(nodes))[j] == nodes[i] && Kept(blocks)[j] == blocks[i]
    ensures blocks[i].mark != 1
    decreases |nodes|
  {
    var n := |nodes| - 1;
    SweptSize(nodes, blocks);
    SweptSize(nodes[..n], blocks[..n]);
    assert Marks(nodes)[..n] == Marks(nodes[..n]);
    if j < |Kept(blocks[..n])| {
      i := SweptAt(nodes[..n], blocks[..n], j);
    } else {
      i := n;
    }
  }

  lemma {:induction false} KeptDistinct(blocks: seq<Block>)
    requires forall i, j :: 0 <= i < j < |blocks| ==> blocks[i].id != blocks[j].id
    ensures forall i, j :: 0 <= i < j < |Kept(blocks)| ==> Kept(blocks)[i].id != Kept(blocks)[j].id
  {
    if blocks != [] {
      var init, last := blocks[..|blocks| - 1], blocks[|blocks| - 1];
      KeptDistinct(init);
      forall j | 0 <= j < |Kept(init)|
        ensures Kept(init)[j].id != last.id
      {
        assert Kept(init)[j] in init;
      }
    }
  }

  lemma SweptHolding(nodes: seq<TaNode>, held: Client, blocks: seq<Block>)
    requires Holding(nodes, held, blocks)
    ensures Holding(Unmarked(nodes, Marks(nodes)), Good(held), Kept(blocks))
  {
    hide Place, Kept, Unmarked;
    SweptSize(nodes, blocks);
    KeptDistinct(blocks);
    var r, b := Unmarked(nodes, Marks(nodes)), Kept(blocks);
    forall j | 0 <= j < |b|
      ensures b[j].id in Good(held) && Good(held)[b[j].id] == r[j] && b[j].size == r[j].size && b[j].mark == r[j].mark
    {
      var i := SweptAt(nodes, blocks, j);
    }
    forall id | id in Good(held)
      ensures Place(b, id) >= 0
    {
      HoldsPlace(nodes, held, blocks, id);
      assert blocks[Place(blocks, id)] in b;
    }
  }

  lemma {:induction false} UnmarkedElements(nodes: seq<TaNode>, marks: seq<int>, x: TaNode)
    requires |marks| == |nodes|
    ensures x in Unmarked(nodes, marks) <==> exists i :: 0 <= i < |nodes| && nodes[i] == x && marks[i] != 1
  {
    if nodes != [] {
      var n := |nodes| - 1;
      UnmarkedElements(nodes[..n], marks[..n], x);
      assert forall i :: 0 <= i < n ==> nodes[..n][i] == nodes[i] && marks[..n][i] == marks[i];
      assert x in Unmarked(nodes, marks) <==> x in Unmarked(nodes[..n], marks[..n]) || (marks[n] != 1 && x == nodes[n]);
    }
  }

  lemma {:induction false} TotalIsBytes(nodes: seq<TaNode>, blocks: seq<Block>)
    requires |blocks| == |nodes| && forall i :: 0 <= i < |blocks| ==> blocks[i].size == nodes[i].size
    ensures TotalSize(nodes) == Bytes(blocks)
  {
    if nodes != [] {
      TotalIsBytes(nodes[..|nodes| - 1], blocks[..|blocks| - 1]);
    }
  }

  // ---------- On the heap ----------

  /** Each of these nodes is live or freed, and no other node is live. */
  ghost predicate Accounted(ll: TaNode, made: set<TaNode>)
    reads ll`live, made`freed
  {
    (forall x :: x in ll.live ==> x in made) && forall x :: x in made ==> (x in ll.live <==> !x.freed)
  }

  /** Where a run stands before call number k: the context, the client's pointers, and all nodes made so far. */
  ghost predicate Standing(ll: TaNode, held: Client, blocks: seq<Block>, made: set<TaNode>, k: nat)
    reads *
  {
    ll.Valid() && Holding(ll.live, held, blocks) && Accounted(ll, made) && forall id :: id in held ==> id < k
  }

  /** All that a call may write to. */
  ghost function Reach(ll: TaNode): set<object>
    reads ll`live
  {
    {ll, ll.list} + (set x | x in ll.live) + set x | x in ll.live :: x.list
  }

  lemma Reached(ll: TaNode)
    requires ll.Valid()
    ensures ll in Reach(ll) && ll.list in Reach(ll) && ll.list.next in Reach(ll)
    ensures forall o :: o in LinkSet(ll, ll.live) ==> o in Reach(ll)
    ensures forall i :: 0 <= i < |ll.live| ==>
              ll.live[i] in Reach(ll) && forall o :: o in Around(ll.live[i]) ==> o in Reach(ll)
    ensures forall x :: x in ll.live ==> x in Reach(ll)
  {
    FirstInRing(ll);
    forall i | 0 <= i < |ll.live|
      ensures ll.live[i] in Reach(ll) && forall o :: o in Around(ll.live[i]) ==> o in Reach(ll)
    {
      NextInRing(ll, i);
    }
  }

  /** A node that malloc or calloc has made joins the others. */
  lemma Made(ll: TaNode, held: Client, blocks: seq<Block>, made: set<TaNode>, k: nat, live: seq<TaNode>, p: TaNode,
             b: Block)
    requires ll.Valid() && ll.live == [p] + live && p !in made
    requires Holding(live, held, blocks) && (forall id :: id in held ==> id < k)
    requires (forall x :: x in live ==> x in made) && forall x :: x in made ==> (x in live <==> !x.freed)
    requires b == Block(k, p.size, p.mark)
    ensures Standing(ll, held[k := p], [b] + blocks, made + {p}, k + 1)
  {
    HoldsMore(live, held, blocks, p, b);
    NextInRing(ll, 0);
    hide Holding, TaNode.Valid;
  }

  method DoMalloc(ll: TaNode, size: nat, held: Client, k: nat, ghost blocks: seq<Block>,
                  ghost made: set<TaNode>)
    returns (now: Client, ghost ok: bool, ghost more: set<TaNode>)
    requires Standing(ll, held, blocks, made, k)
    modifies Reach(ll)
    ensures Standing(ll, now, Step(blocks, k, CallMalloc(size), ok), made + more, k + 1)
    ensures ll.log == old(ll.log) + [ok]
    ensures forall x :: x in more ==> fresh(x) && fresh(x.list)
  {
    hide TaNode.Valid, Place;
    Reached(ll);
    ghost var live := ll.live;
    var p := TaMalloc(ll, size);
    now, ok, more := held, p != null, {};
    if p != null {
      Made(ll, held, blocks, made, k, live, p, Block(k, p.size, p.mark));
      now, more := held[k := p], {p};
    }
  }

  method DoCalloc(ll: TaNode, n: nat, size: nat, held: Client, k: nat, ghost blocks: seq<Block>,
                  ghost made: set<TaNode>)
    returns (now: Client, ghost ok: bool, ghost more: set<TaNode>)
    requires Standing(ll, held, blocks, made, k)
    modifies Reach(ll)
    ensures Standing(ll, now, Step(blocks, k, CallCalloc(n, size), ok), made + more, k + 1)
    ensures ll.log == old(ll.log) + [ok]
    ensures forall x :: x in more ==> fresh(x) && fresh(x.list)
  {
    hide TaNode.Valid, Place;
    Reached(ll);
    ghost var live := ll.live;
    var p := TaCalloc(ll, n, size);
    now, ok, more := held, p != null, {};
    if p != null {
      Made(ll, held, blocks, made, k, live, p, Block(k, p.size, p.mark));
      now, more := held[k := p], {p};
    }
  }

  /** What holds of the nodes of a context before one of them is taken off its ring. */
  ghost predicate Before(live: seq<TaNode>, held: Client, blocks: seq<Block>, made: set<TaNode>, dead: set<TaNode>,
                         i: nat)
  {
    i < |live| == |blocks| && Distinct(live) && dead <= made && (forall x :: x in live ==> x in made) &&
    (forall x :: x in made ==> (x in live <==> x !in dead)) && blocks[i].id in held && held[blocks[i].id] == live[i]
  }

  ghost function DeadOf(made: set<TaNode>): set<TaNode>
    reads made`freed
  {
    set x | x in made && x.freed
  }

  lemma StandsBefore(ll: TaNode, held: Client, blocks: seq<Block>, made: set<TaNode>, k: nat, id: nat)
    requires Standing(ll, held, blocks, made, k) && id in held
    ensures Place(blocks, id) >= 0 && blocks[Place(blocks, id)].id == id && held[id] == ll.live[Place(blocks, id)]
    ensures Before(ll.live, held, blocks, made, DeadOf(made), Place(blocks, id)) && id < k
    ensures Place(blocks, id) < |ll.live| && held[id] in made && !held[id].freed
    ensures var b := blocks[Place(blocks, id)]; b.size == held[id].size && b.mark == held[id].mark
  {
    HoldsPlace(ll.live, held, blocks, id);
    LiveDistinct(ll);
    hide TaNode.Valid, Place;
  }

  lemma OthersLeft(live: seq<TaNode>, held: Client, blocks: seq<Block>, made: set<TaNode>, dead: set<TaNode>, i: nat)
    requires Before(live, held, blocks, made, dead, i)
    ensures i < |live| == |blocks| && forall x :: x in Without(live, i) <==> x in made && x !in dead && x != live[i]
    ensures live[i] in made && live[i] !in dead
  {
    WithoutElements(live, i);
  }

  /** One of the nodes is freed and off the ring. */
  lemma Gone(ll: TaNode, held: Client, blocks: seq<Block>, made: set<TaNode>, k: nat, live: seq<TaNode>,
             dead: set<TaNode>, i: nat)
    requires Before(live, held, blocks, made, dead, i) && Holding(live, held, blocks)
    requires ll.Valid() && ll.live == Without(live, i) && DeadOf(made) == dead + {live[i]}
    requires forall id :: id in held ==> id < k
    ensures Standing(ll, held - {blocks[i].id}, Without(blocks, i), made, k)
  {
    hide TaNode.Valid, Holding, Without, Before, DeadOf;
    OthersLeft(live, held, blocks, made, dead, i);
    HoldsFewer(live, held, blocks, i);
    AccountedBy(ll, made, dead + {live[i]});
  }

  /** The live nodes are those made that are not dead. */
  lemma AccountedBy(ll: TaNode, made: set<TaNode>, dead: set<TaNode>)
    requires DeadOf(made) == dead && forall x :: x in ll.live <==> x in made && x !in dead
    ensures Accounted(ll, made)
  {
    assert forall x :: x in made ==> (x.freed <==> x in dead);
  }

  lemma DeadMore(made: set<TaNode>, q: TaNode)
    requires !q.freed
    ensures DeadOf(made + {q}) == DeadOf(made)
  {
  }

  lemma FirstLives(ll: TaNode)
    requires ll.Valid() && |ll.live| > 0
    ensures !ll.live[0].freed
  {
    NextInRing(ll, 0);
  }

  lemma FirstOf(q: TaNode, nodes: seq<TaNode>)
    ensures ([q] + nodes)[0] == q && forall x :: x in [q] + nodes <==> x == q || x in nodes
  {
  }

  lemma HeldAgain(held: Client, id: nat, q: TaNode)
    requires id in held
    ensures (held - {id})[id := q] == held[id := q]
  {
  }

  /** The node is put to the front, or replaced there by a new one. */
  lemma Renewed(ll: TaNode, held: Client, blocks: seq<Block>, made: set<TaNode>, k: nat, live: seq<TaNode>,
                dead: set<TaNode>, i: nat, q: TaNode, b: Block, more: set<TaNode>)
    requires Before(live, held, blocks, made, dead, i) && Holding(live, held, blocks) && b.id == blocks[i].id
    requires ll.Valid() && ll.live == [q] + Without(live, i) && b.size == q.size && b.mark == q.mark
    requires if more == {} then q == live[i] && DeadOf(made) == dead
             else more == {q} && q !in made && DeadOf(made) == dead + {live[i]}
    requires forall id :: id in held ==> id < k
    ensures Standing(ll, held[b.id := q], [b] + Without(blocks, i), made + more, k)
  {
    assert b.id in held;
    hide TaNode.Valid, Holding, Without, Before, DeadOf;
    OthersLeft(live, held, blocks, made, dead, i);
    HoldsFewer(live, held, blocks, i);
    HoldsMore(Without(live, i), held - {b.id}, Without(blocks, i), q, b);
    HeldAgain(held, b.id, q);
    FirstOf(q, Without(live, i));
    if more == {} {
      assert made + more == made;
      AccountedBy(ll, made, dead);
    } else {
      FirstLives(ll);
      DeadMore(made, q);
      DeadApart(made, q);
      AccountedBy(ll, made + {q}, dead + {live[i]});
    }
  }

  lemma DeadApart(made: set<TaNode>, q: TaNode)
    requires q !in made
    ensures q !in DeadOf(made)
  {
  }

  method DoRealloc(ll: TaNode, id: nat, size: nat, held: Client, ghost k: nat, ghost blocks: seq<Block>,
                   ghost made: set<TaNode>)
    returns (now: Client, ghost ok: bool, ghost more: set<TaNode>)
    requires Standing(ll, held, blocks, made, k) && id in held
    modifies Reach(ll)
    ensures Standing(ll, now, Step(blocks, k, CallRealloc(id, size), ok), made + more, k)
    ensures ll.log == old(ll.log) + Asked(blocks, CallRealloc(id, size), ok)
    ensures forall x :: x in more ==> fresh(x) && fresh(x.list)
  {
    hide TaNode.Valid, Place, Without, Before, Holding, Accounted;
    Reached(ll);
    StandsBefore(ll, held, blocks, made, k, id);
    ghost var i, live, p, dead := Place(blocks, id), ll.live, held[id], DeadOf(made);
    var q := TaRealloc(ll, held[id], size, i);
    if q == null {
      now, ok, more := held, false, {};
      assert held[id := p] == held;
      Renewed(ll, held, blocks, made, k, live, dead, i, p, blocks[i], {});
    } else {
      now, ok, more := held[id := q], true, {q};
      Renewed(ll, held, blocks, made, k, live, dead, i, q, Block(id, q.size, q.mark), {q});
    }
  }

  method DoFree(ll: TaNode, id: nat, held: Client, ghost k: nat, ghost blocks: seq<Block>, ghost made: set<TaNode>)
    returns (now: Client)
    requires Standing(ll, held, blocks, made, k) && id in held
    modifies Reach(ll)
    ensures Standing(ll, now, Step(blocks, k, CallFree(id), true), made, k)
    ensures ll.log == old(ll.log)
  {
    hide TaNode.Valid, Place, Without, Before, Holding, Accounted;
    Reached(ll);
    StandsBefore(ll, held, blocks, made, k, id);
    ghost var i, live, dead := Place(blocks, id), ll.live, DeadOf(made);
    TaFree(held[id], ll, i);
    now := held - {id};
    Gone(ll, held, blocks, made, k, live, dead, i);
  }

  /** Blocks with the same numbers are found at the same places. */
  lemma SamePlaces(blocks: seq<Block>, marked: seq<Block>, id: nat)
    requires |marked| == |blocks| && forall j :: 0 <= j < |blocks| ==> marked[j].id == blocks[j].id
    requires Place(blocks, id) >= 0
    ensures Place(marked, id) >= 0
  {
    hide Place;
    assert marked[Place(blocks, id)].id == id;
  }

  /** What is held stays held when the i-th block is marked. */
  ghost predicate HoldingBut(nodes: seq<TaNode>, held: Client, blocks: seq<Block>, i: nat)
    reads nodes`mark
  {
    |blocks| == |nodes| && i < |nodes| &&
    (forall j :: 0 <= j < |blocks| ==> blocks[j].id in held && held[blocks[j].id] == nodes[j]) &&
    (forall j :: 0 <= j < |blocks| ==>
      blocks[j].size == nodes[j].size && (j != i ==> blocks[j].mark == nodes[j].mark)) &&
    (forall j, l :: 0 <= j < l < |blocks| ==> blocks[j].id != blocks[l].id) &&
    forall id :: id in held ==> Place(blocks, id) >= 0
  }

  lemma MarkedHolding(nodes: seq<TaNode>, held: Client, blocks: seq<Block>, i: nat)
    requires HoldingBut(nodes, held, blocks, i) && nodes[i].mark == 1
    ensures Holding(nodes, held, blocks[i := blocks[i].(mark := 1)])
  {
    hide Place;
    var marked := blocks[i := blocks[i].(mark := 1)];
    forall j | 0 <= j < |blocks|
      ensures marked[j].id == blocks[j].id && marked[j].size == nodes[j].size && marked[j].mark == nodes[j].mark
    {
    }
    forall id | id in held
      ensures Place(marked, id) >= 0
    {
      SamePlaces(blocks, marked, id);
    }
  }

  method MarkHeld(p: TaNode, held: Client, ghost ll: TaNode, ghost blocks: seq<Block>, ghost i: nat)
    requires ll.Valid() && Holding(ll.live, held, blocks) && i < |ll.live| && ll.live[i] == p
    modifies p`mark
    ensures ll.Valid() && Holding(ll.live, held, blocks[i := blocks[i].(mark := 1)])
  {
    hide TaNode.Valid, Place;
    LiveDistinct(ll);
    TaMark(p, ll, i);
    MarkedHolding(ll.live, held, blocks, i);
  }

  method DoMark(ll: TaNode, id: nat, held: Client, ghost k: nat, ghost blocks: seq<Block>, ghost made: set<TaNode>)
    requires Standing(ll, held, blocks, made, k)
    modifies Reach(ll)
    ensures Standing(ll, held, Step(blocks, k, CallMark(id), true), made, k + 1)
    ensures ll.log == old(ll.log)
  {
    hide TaNode.Valid, Place, Holding, Accounted;
    Reached(ll);
    HoldsPlace(ll.live, held, blocks, id);
    if id in held {
      ghost var i := Place(blocks, id);
      HeldSize(ll.live, held, blocks);
      MarkHeld(held[id], held, ll, blocks, i);
    }
  }

  lemma HeldSize(nodes: seq<TaNode>, held: Client, blocks: seq<Block>)
    requires Holding(nodes, held, blocks)
    ensures |nodes| == |blocks|
  {
  }

  /** All of these nodes that are not live are freed. */
  ghost predicate OthersDead(live: seq<TaNode>, made: set<TaNode>)
    reads made`freed
  {
    (forall x :: x in live ==> x in made) && forall x :: x in made && x !in live ==> x.freed
  }

  lemma StandsOthers(ll: TaNode, held: Client, blocks: seq<Block>, made: set<TaNode>, k: nat)
    requires Standing(ll, held, blocks, made, k)
    ensures ll.Valid() && Holding(ll.live, held, blocks) && OthersDead(ll.live, made)
    ensures forall id :: id in held ==> id < k
  {
    hide TaNode.Valid, Holding;
  }

  lemma Stands(ll: TaNode, held: Client, blocks: seq<Block>, made: set<TaNode>, k: nat)
    requires ll.Valid() && Holding(ll.live, held, blocks) && Accounted(ll, made) && forall id :: id in held ==> id < k
    ensures Standing(ll, held, blocks, made, k)
  {
    hide TaNode.Valid, Holding, Accounted;
  }

  lemma SweptAccount(ll: TaNode, live: seq<TaNode>, marks: seq<int>, made: set<TaNode>)
    requires |marks| == |live| && ll.live == Unmarked(live, marks) && Swept(live, marks, |live|)
    requires OthersDead(live, made)
    ensures Accounted(ll, made)
  {
    hide Unmarked;
    forall x
      ensures x in ll.live <==> exists i :: 0 <= i < |live| && live[i] == x && marks[i] != 1
    {
      UnmarkedElements(live, marks, x);
    }
  }

  /** ta_sweep, and what is still good of the pointers held. */
  method SweepHeld(ll: TaNode, held: Client, ghost blocks: seq<Block>, ghost made: set<TaNode>) returns (now: Client)
    requires ll.Valid() && Holding(ll.live, held, blocks) && OthersDead(ll.live, made)
    modifies ll`live, ll.live`freed, LinkSet(ll, ll.live)
    ensures ll.Valid() && Holding(ll.live, now, Kept(blocks)) && OthersDead(old(ll.live), made)
    ensures ll.live == Unmarked(old(ll.live), old(Marks(ll.live)))
    ensures Swept(old(ll.live), old(Marks(ll.live)), |old(ll.live)|)
    ensures now == old(Good(held))
  {
    hide TaNode.Valid, Place, Unmarked, Kept;
    now := Good(held);
    SweptHolding(ll.live, held, blocks);
    TaSweep(ll);
  }

  lemma GoodOnes(held: Client)
    ensures forall id :: id in Good(held) ==> id in held
  {
  }

  method DoSweep(ll: TaNode, held: Client, ghost k: nat, ghost blocks: seq<Block>, ghost made: set<TaNode>)
    returns (now: Client)
    requires Standing(ll, held, blocks, made, k)
    modifies Reach(ll)
    ensures Standing(ll, now, Kept(blocks), made, k + 1)
    ensures ll.log == old(ll.log)
  {
    hide *;
    ghost var live, marks := ll.live, Marks(ll.live);
    StandsOthers(ll, held, blocks, made, k);
    Reached(ll);
    GoodOnes(held);
    now := SweepHeld(ll, held, blocks, made);
    SweptAccount(ll, live, marks, made);
    Stands(ll, now, Kept(blocks), made, k + 1);
  }

  lemma NothingHeld(ll: TaNode, made: set<TaNode>, live: seq<TaNode>)
    requires ll.live == [] && OthersDead(live, made) && forall i :: 0 <= i < |live| ==> live[i].freed
    ensures Holding(ll.live, map[], []) && Accounted(ll, made)
  {
  }

  method DoDestroy(ll: TaNode, held: Client, ghost k: nat, ghost blocks: seq<Block>, ghost made: set<TaNode>)
    returns (now: Client)
    requires Standing(ll, held, blocks, made, k)
    modifies Reach(ll)
    ensures Standing(ll, now, [], made, k + 1)
    ensures ll.log == old(ll.log)
  {
    hide TaNode.Valid, Holding, Accounted, Standing;
    ghost var live := ll.live;
    StandsOthers(ll, held, blocks, made, k);
    Reached(ll);
    TaListDestroy(ll);
    now := map[];
    NothingHeld(ll, made, live);
    Stands(ll, now, [], made, k + 1);
  }

  lemma NotThere(ll: TaNode, held: Client, blocks: seq<Block>, id: nat)
    requires Holding(ll.live, held, blocks) && id !in held
    ensures Place(blocks, id) < 0
  {
    hide Place;
  }

  method Do(ll: TaNode, call: Call, held: Client, k: nat, ghost blocks: seq<Block>, ghost made: set<TaNode>)
    returns (now: Client, ghost ok: bool, ghost more: set<TaNode>)
    requires Standing(ll, held, blocks, made, k)
    modifies Reach(ll)
    ensures Standing(ll, now, Step(blocks, k, call, ok), made + more, k + 1)
    ensures ll.log == old(ll.log) + Asked(blocks, call, ok)
    ensures forall x :: x in more ==> fresh(x) && fresh(x.list)
  {
    hide TaNode.Valid, Holding, Accounted, Place, Kept, Without, LinkSet;
    assert made + {} == made;
    now, ok, more := held, true, {};
    match call {
      case CallMalloc(size) =>
        now, ok, more := DoMalloc(ll, size, held, k, blocks, made);
      case CallCalloc(n, size) =>
        now, ok, more := DoCalloc(ll, n, size, held, k, blocks, made);
      case CallRealloc(id, size) =>
        if id in held {
          now, ok, more := DoRealloc(ll, id, size, held, k, blocks, made);
        } else {
          NotThere(ll, held, blocks, id);
        }
      case CallFree(id) =>
        if id in held {
          now := DoFree(ll, id, held, k, blocks, made);
        } else {
          NotThere(ll, held, blocks, id);
          TaFree(null, ll, 0);
        }
      case CallMark(id) =>
        DoMark(ll, id, held, k, blocks, made);
      case CallSweep =>
        now := DoSweep(ll, held, k, blocks, made);
      case CallDestroy =>
        now := DoDestroy(ll, held, k, blocks, made);
    }
  }

  /** Nothing that has been there before a run is written to, but for the context. */
  lemma ReachesNew(ll: TaNode, held: Client, blocks: seq<Block>, made: set<TaNode>, k: nat)
    requires Standing(ll, held, blocks, made, k)
    ensures forall o :: o in Reach(ll) ==> o == ll || o == ll.list || exists x :: x in made && (o == x || o == x.list)
  {
    hide TaNode.Valid, Holding;
  }

  lemma RunGoesOn(calls: seq<Call>, oks: seq<bool>, ok: bool)
    requires |oks| < |calls|
    ensures Run(calls, oks + [ok]) == Step(Run(calls, oks), |oks|, calls[|oks|], ok)
    ensures AskedIn(calls, oks + [ok]) == AskedIn(calls, oks) + Asked(Run(calls, oks), calls[|oks|], ok)
  {
    assert (oks + [ok])[..|oks|] == oks;
  }

  lemma StartsEmpty(ll: TaNode, calls: seq<Call>)
    requires ll.Valid() && ll.live == []
    ensures Standing(ll, map[], Run(calls, []), {}, 0) && AskedIn(calls, []) == []
  {
  }

  /**
    The whole life of a context: ta_list_init, any calls with any of their allocations failing, and
    ta_list_total_mem. The nodes left are those of Run, in its order; every node that was ever made is
    either live or freed; and what is left in bytes is what has been gained and not lost.
  */
  method Perform(ll: TaNode, calls: seq<Call>)
    returns (held: Client, total: nat, ghost oks: seq<bool>, ghost made: set<TaNode>)
    requires ll.Intact()
    modifies ll, ll.list
    ensures |oks| == |calls| && Standing(ll, held, Run(calls, oks), made, |calls|)
    ensures ll.log == old(ll.log) + AskedIn(calls, oks)
    ensures total == (GainedIn(calls, oks) - LostIn(calls, oks)) % TWO_64
    ensures forall x :: x in made ==> fresh(x)
  {
    hide *;
    TaListInit(ll);
    held, oks, made := map[], [], {};
    StartsEmpty(ll, calls);
    for k := 0 to |calls|
      invariant |oks| == k && Standing(ll, held, Run(calls, oks), made, k)
      invariant ll.log == old(ll.log) + AskedIn(calls, oks)
      invariant forall x :: x in made ==> fresh(x) && fresh(x.list)
    {
      ReachesNew(ll, held, Run(calls, oks), made, k);
      ghost var ok, more;
      held, ok, more := Do(ll, calls[k], held, k, Run(calls, oks), made);
      RunGoesOn(calls, oks, ok);
      oks, made := oks + [ok], made + more;
    }
    StandsValid(ll, held, Run(calls, oks), made, |calls|);
    total := TaListTotalMem(ll);
    RunBalances(calls, oks);
  }

  lemma StandsValid(ll: TaNode, held: Client, blocks: seq<Block>, made: set<TaNode>, k: nat)
    requires Standing(ll, held, blocks, made, k)
    ensures ll.Valid() && TotalSize(ll.live) == Bytes(blocks)
  {
    TotalIsBytes(ll.live, blocks);
  }
}
