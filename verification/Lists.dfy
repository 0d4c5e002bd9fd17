/**
  The intrusive circular lists of list.h. A ring is a head and the links between the head's next
  and its prev; the ghost field home names the head of the ring a link is in.
*/
module Lists {
  import opened Seqs

  class Link {
    var next: Link
    var prev: Link
    ghost var home: Link?
    var owner: object?          // the structure this link is embedded in
    ghost const store: object?  // the allocation it lies in, unless it is the link of an allocation

    constructor (ghost store: object?)
      ensures next == this && prev == this && home == null && owner == null && this.store == store
    {
      this.store := store;
      next := this;
      prev := this;
      home := null;
      owner := null;
    }
  }

  /** head and the links s, in this order, form a closed ring in both directions. */
  ghost predicate Ring(head: Link, s: seq<Link>)
    reads head, s
  {
    && head.home == head
    && (forall i :: 0 <= i < |s| ==> s[i] != head && s[i].home == head)
    && (forall i, j :: 0 <= i < j < |s| ==> s[i] != s[j])
    && (if |s| == 0 then head.next == head && head.prev == head
        else head.next == s[0] && s[0].prev == head && head.prev == s[|s| - 1] && s[|s| - 1].next == head)
    && (forall i, j :: 0 <= i && j == i + 1 && j < |s| ==> s[i].next == s[j] && s[j].prev == s[i])
  }

  /** The rings in use, each under its head. */
  type Rings = map<Link, seq<Link>>

  ghost function Members(m: Rings): set<Link> {
    set h, i | h in m && 0 <= i < |m[h]| :: m[h][i]
  }

  ghost predicate AllRings(m: Rings)
    reads m.Keys, Members(m)
  {
    forall h :: h in m ==> Ring(h, m[h])
  }

  /** The links next to a link of a ring are in the ring. */
  lemma Neighbours(head: Link, s: seq<Link>, i: nat)
    requires Ring(head, s) && i < |s|
    ensures s[i].home == head
    ensures s[i].next == (if i + 1 < |s| then s[i + 1] else head) && s[i].next.home == head
    ensures s[i].prev == (if i > 0 then s[i - 1] else head) && s[i].prev.home == head
  {
  }

  method InitListHead(head: Link)
    modifies head`next, head`prev, head`home
    ensures Ring(head, [])
  {
    head.next := head;
    head.prev := head;
    head.home := head;
  }

  // ---------- The operations on one ring ----------

  method ListAdd(entry: Link, head: Link, ghost s: seq<Link>)
    requires Ring(head, s) && entry.home == null
    modifies entry`next, entry`prev, entry`home, head`next, head.next`prev
    ensures Ring(head, [entry] + s)
  {
    assert forall i :: 0 <= i < |s| ==> s[i] != head && s[i] != entry;
    entry.next := head.next;
    entry.prev := head;
    var first := head.next;
    first.prev := entry;
    head.next := entry;
    entry.home := head;
  }

  method ListAddTail(entry: Link, head: Link, ghost s: seq<Link>)
    requires Ring(head, s) && entry.home == null
    modifies entry`next, entry`prev, entry`home, head`prev, head.prev`next
    ensures Ring(head, s + [entry])
  {
    assert forall i :: 0 <= i < |s| ==> s[i] != head && s[i] != entry;
    entry.next := head;
    entry.prev := head.prev;
    var last := head.prev;
    last.next := entry;
    head.prev := entry;
    entry.home := head;
  }

  method ListDel(entry: Link, ghost head: Link, ghost i: nat, ghost s: seq<Link>)
    requires Ring(head, s) && i < |s| && s[i] == entry
    modifies entry`home, entry.next`prev, entry.prev`next
    ensures Ring(head, Without(s, i)) && entry.home == null
  {
    assert entry != head;
    assert entry.next == if i + 1 < |s| then s[i + 1] else head;
    assert entry.prev == if i > 0 then s[i - 1] else head;
    var next, prev := entry.next, entry.prev;
    next.prev := prev;
    prev.next := next;
    entry.home := null;
  }

  // ---------- The same among other rings ----------

  method AddTailIn(entry: Link, head: Link, ghost m: Rings)
    requires AllRings(m) && head in m && entry.home == null
    modifies entry`next, entry`prev, entry`home, head`prev, head.prev`next
    ensures AllRings(m[head := m[head] + [entry]])
  {
    assert Ring(head, m[head]);
    ListAddTail(entry, head, m[head]);
    forall h | h in m && h != head
      ensures Ring(h, m[h])
    {
      assert old(Ring(h, m[h]));
    }
  }

  method DelIn(entry: Link, ghost head: Link, ghost i: nat, ghost m: Rings)
    requires AllRings(m) && head in m && i < |m[head]| && m[head][i] == entry
    modifies entry`home, entry.next`prev, entry.prev`next
    ensures entry.home == null
    ensures AllRings(m[head := Without(m[head], i)])
  {
    assert Ring(head, m[head]);
    Neighbours(head, m[head], i);
    ListDel(entry, head, i, m[head]);
    forall h | h in m && h != head
      ensures Ring(h, m[h])
    {
      assert old(Ring(h, m[h]));
    }
  }
}
