/**
  dict_each with a callback that may delete the key it is told: the walk saves each successor before
  the callback runs.
*/
module DictVisits {
  import opened Buckets
  import opened DictHeap
  import opened DictSpec
  import opened DictTables
  import opened Lists
  import opened Machine
  import opened Seqs
  import opened Ta
  import Runs = DictRuns

  /** A callback, which calls dict_del on the key it is told where this is true, and else does nothing. */
  type Callback = Item<TaNode?> -> bool

  /** The keys that the callback has deleted, having been told these items. */
  ghost function Dropped(visited: seq<Item<TaNode?>>, drop: Callback): set<string> {
    set x | x in visited && drop(x) :: x.key
  }

  /** The items whose keys are not gone, in order. */
  function Minus(items: seq<Item<TaNode?>>, gone: set<string>): seq<Item<TaNode?>> {
    if items == [] then []
    else
      var last := items[|items| - 1];
      Minus(items[..|items| - 1], gone) + if last.key in gone then [] else [last]
  }

  lemma {:induction false} MinusElements(items: seq<Item<TaNode?>>, gone: set<string>, x: Item<TaNode?>)
    ensures x in Minus(items, gone) <==> x in items && x.key !in gone
  {
    if items != [] {
      MinusElements(items[..|items| - 1], gone, x);
      assert items == items[..|items| - 1] + [items[|items| - 1]];
    }
  }

  lemma {:induction false} MinusUnique(items: seq<Item<TaNode?>>, gone: set<string>)
    requires Unique(items)
    ensures Unique(Minus(items, gone))
  {
    if items != [] {
      var init, last := items[..|items| - 1], items[|items| - 1];
      MinusUnique(init, gone);
      forall x | x in Minus(init, gone)
        ensures x.key != last.key
      {
        MinusElements(init, gone, x);
      }
    }
  }

  lemma {:induction false} MinusNone(items: seq<Item<TaNode?>>)
    ensures Minus(items, {}) == items
  {
    if items != [] {
      MinusNone(items[..|items| - 1]);
    }
  }

  lemma {:induction false} MinusAbsent(items: seq<Item<TaNode?>>, gone: set<string>, key: string)
    requires forall x :: x in items ==> x.key != key
    ensures Minus(items, gone + {key}) == Minus(items, gone)
  {
    if items != [] {
      assert items[|items| - 1] in items;
      MinusAbsent(items[..|items| - 1], gone, key);
    }
  }

  /** One more key gone is one item less. */
  lemma {:induction false} MinusOne(items: seq<Item<TaNode?>>, gone: set<string>, key: string, j: nat)
    requires Unique(items) && j < |Minus(items, gone)| && Minus(items, gone)[j].key == key
    ensures Minus(items, gone + {key}) == Without(Minus(items, gone), j)
  {
    var init, last := items[..|items| - 1], items[|items| - 1];
    var m, rest := Minus(items, gone), Minus(init, gone);
    if last.key == key {
      MinusAbsent(init, gone, key);
      forall x | x in rest
        ensures x.key != key
      {
        MinusElements(init, gone, x);
      }
      assert forall t :: 0 <= t < |rest| ==> rest[t] in rest && rest[t] == m[t];
    } else {
      assert j < |rest| && rest[j] == m[j];
      MinusOne(init, gone, key, j);
      hide Minus;
    }
  }

  /** What is left of the map when these keys are gone. */
  lemma MinusMap(items: seq<Item<TaNode?>>, gone: set<string>)
    requires Unique(items)
    ensures MapOf(Minus(items, gone)) == MapOf(items) - gone
  {
    MinusUnique(items, gone);
    forall x
      ensures x in Minus(items, gone) <==> x.key in MapOf(items) - gone && (MapOf(items) - gone)[x.key] == x.val
    {
      MinusElements(items, gone, x);
      MapElements(items, x.key, x.val);
      assert x == Item(x.key, x.val);
    }
    Runs.MapFromElements(Minus(items, gone), MapOf(items) - gone);
  }

  // ---------- The chains during the walk ----------

  /**
    The entries of order are those of all but for some that the walk over bucket i has deleted: of the
    first k of its chain it has kept these, and the later chains are as they were.
  */
  ghost predicate Ahead(order: seq<Entry>, all: seq<Entry>, hash: HashFn, n: nat, i: nat, k: nat, kept: seq<Entry>) {
    n > 0 && k <= |Chain(all, hash, n, i)| &&
    Chain(order, hash, n, i) == kept + Chain(all, hash, n, i)[k..] &&
    forall b :: i < b < n ==> Chain(order, hash, n, b) == Chain(all, hash, n, b)
  }

  lemma AheadKept(order: seq<Entry>, all: seq<Entry>, hash: HashFn, n: nat, i: nat, k: nat, kept: seq<Entry>)
    requires Ahead(order, all, hash, n, i, k, kept) && k < |Chain(all, hash, n, i)|
    ensures Ahead(order, all, hash, n, i, k + 1, kept + [Chain(all, hash, n, i)[k]])
  {
    var c := Chain(all, hash, n, i);
    assert kept + c[k..] == kept + [c[k]] + c[k + 1..];
    hide Chain;
  }

  lemma AheadDropped(order: seq<Entry>, all: seq<Entry>, hash: HashFn, n: nat, i: nat, k: nat, kept: seq<Entry>, j: nat)
    requires Ahead(order, all, hash, n, i, k, kept) && k < |Chain(all, hash, n, i)|
    requires j < |order| && order[j] == Chain(all, hash, n, i)[k] && BucketFor(hash(order[j].key), n) == i
    requires var c := Chain(order, hash, n, i); forall x, y :: 0 <= x < y < |c| ==> c[x] != c[y]
    ensures Ahead(Without(order, j), all, hash, n, i, k + 1, kept)
  {
    var c, c0 := Chain(order, hash, n, i), Chain(all, hash, n, i);
    SelectWithout(order, EntryHash(hash), n, i, j);
    forall b | i < b < n
      ensures Chain(Without(order, j), hash, n, b) == Chain(all, hash, n, b)
    {
      SelectWithout(order, EntryHash(hash), n, b, j);
    }
    var p := |Chain(order[..j], hash, n, i)|;
    hide BucketFor, Select, Without;
    assert c[|kept|] == c0[k] == c[p];
    assert p == |kept|;
    WithoutMiddle(kept, c0[k], c0[k + 1..]);
    assert kept + [c0[k]] + c0[k + 1..] == c;
  }

  /** The chains from bucket i on are as they were. */
  ghost predicate Later(order: seq<Entry>, all: seq<Entry>, hash: HashFn, n: nat, i: nat) {
    n > 0 && forall b :: i <= b < n ==> Chain(order, hash, n, b) == Chain(all, hash, n, b)
  }

  lemma AheadAtEnds(order: seq<Entry>, all: seq<Entry>, hash: HashFn, n: nat, i: nat)
    ensures i < n && Later(order, all, hash, n, i) ==> Ahead(order, all, hash, n, i, 0, [])
    ensures forall kept :: n > 0 && Ahead(order, all, hash, n, i, |Chain(all, hash, n, i)|, kept) ==>
              Later(order, all, hash, n, i + 1)
  {
    hide Select;
  }

  // ---------- The walk ----------

  /** The items of the buckets before i, and of the first k entries of bucket i. */
  function Told(items: seq<Item<TaNode?>>, hash: HashFn, n: nat, i: nat, k: nat): seq<Item<TaNode?>>
    requires n > 0 && k <= |Select(items, ItemHash(hash), n, i)|
  {
    Chained(items, ItemHash(hash), n, i) + Select(items, ItemHash(hash), n, i)[..k]
  }

  lemma ToldStep(items: seq<Item<TaNode?>>, hash: HashFn, n: nat, i: nat, k: nat)
    requires n > 0 && k < |Select(items, ItemHash(hash), n, i)|
    ensures Told(items, hash, n, i, k + 1) == Told(items, hash, n, i, k) + [Select(items, ItemHash(hash), n, i)[k]]
  {
    hide Select, Chained;
  }

  /**
    The walk over bucket i stands before the k-th of its entries, has told the callback the items in
    visited, and these deletions are all that has happened to the dictionary.
  */
  ghost predicate Visiting(d: Dict, all: seq<Entry>, items: seq<Item<TaNode?>>, drop: Callback, i: nat, k: nat,
                           kept: seq<Entry>, visited: seq<Item<TaNode?>>)
    reads *
  {
    d.Valid() && i < d.nbuckets && items == ItemsOf(all) && Unique(items) &&
    Ahead(d.order, all, d.hash, d.nbuckets, i, k, kept) &&
    k <= |Select(items, ItemHash(d.hash), d.nbuckets, i)| && visited == Told(items, d.hash, d.nbuckets, i, k) &&
    ItemsOf(d.order) == Minus(items, Dropped(visited, drop))
  }

  /** The node at which the walk stands, or the sentinel. */
  ghost function At(c: seq<Entry>, k: nat, head: Link): Link {
    if k < |c| then c[k].node else head
  }

  /** What the walk finds there. */
  lemma Finds(d: Dict, all: seq<Entry>, items: seq<Item<TaNode?>>, drop: Callback, i: nat, k: nat,
              kept: seq<Entry>, visited: seq<Item<TaNode?>>)
    requires Visiting(d, all, items, drop, i, k, kept, visited)
    ensures d.nbuckets > 0 && i < |d.buckets| == d.nbuckets && d.Valid()
    ensures var c, head := Chain(all, d.hash, d.nbuckets, i), d.buckets[i];
            k <= |c| && Holds(BlockAt(c, k, d.bucketsBlock), At(c, k, head)) && !BlockAt(c, k, d.bucketsBlock).freed &&
            Holds(d.bucketsBlock, head) && !d.bucketsBlock.freed &&
            (kept == [] ==> head.next == At(c, k, head)) && (At(c, k, head) == head <==> k == |c|) &&
            (k < |c| ==> At(c, k, head) == c[k].node && c[k].node.owner == c[k] && !c[k].block.freed &&
                         EntryOf(c[k].node) == c[k] && c[k].node.next == At(c, k + 1, head))
  {
    var c, c1 := Chain(all, d.hash, d.nbuckets, i), Chain(d.order, d.hash, d.nbuckets, i);
    assert c1 == kept + c[k..];
    d.AtEntry(i, |kept|);
    hide Chain, Dict.Linked, OwnBlocks, Owners, ItemsOf;
    assert k < |c| ==> c1[|kept|] == c[k];
    assert k + 1 < |c| ==> c1[|kept| + 1] == c[k + 1];
  }

  /** Where the entry is that the walk stands at, and what the callback is told. */
  lemma Tells(d: Dict, all: seq<Entry>, items: seq<Item<TaNode?>>, drop: Callback, i: nat, k: nat,
              kept: seq<Entry>, visited: seq<Item<TaNode?>>)
    requires Visiting(d, all, items, drop, i, k, kept, visited) && d.nbuckets > 0
    requires k < |Chain(all, d.hash, d.nbuckets, i)|
    ensures var e := Chain(all, d.hash, d.nbuckets, i)[k];
            var j := IndexOf(ItemsOf(d.order), e.key);
            0 <= j < |d.order| && d.order[j] == e && BucketFor(d.hash(e.key), d.nbuckets) == i
  {
    var c, c1 := Chain(all, d.hash, d.nbuckets, i), Chain(d.order, d.hash, d.nbuckets, i);
    assert UniqueKeys(d.order) && c1[|kept|] == c[k];
    hide *;
    SelectElement(d.order, EntryHash(d.hash), d.nbuckets, i, c[k]);
    var j := FoundAt(d.order, d.hash, d.nbuckets, i, |kept|, c[k].key);
    HashIs(d.hash, c[k]);
  }

  lemma HashIs(hash: HashFn, e: Entry)
    ensures EntryHash(hash)(e) == hash(e.key)
  {
  }

  /** No entry is in a chain twice. */
  lemma ChainDistinct(d: Dict, i: nat)
    requires d.Valid() && i < d.nbuckets
    ensures var c := Chain(d.order, d.hash, d.nbuckets, i); forall x, y :: 0 <= x < y < |c| ==> c[x] != c[y]
  {
    hide Chain, Owners, OwnBlocks, Enclosed, IsInside;
    var c := Chain(d.order, d.hash, d.nbuckets, i);
    assert Ring(d.buckets[i], Nodes(c));
    assert forall x :: 0 <= x < |c| ==> Nodes(c)[x] == c[x].node;
  }

  lemma TellsItem(all: seq<Entry>, items: seq<Item<TaNode?>>, hash: HashFn, n: nat, i: nat, k: nat)
    requires n > 0 && items == ItemsOf(all) && k < |Chain(all, hash, n, i)|
    ensures var e, s := Chain(all, hash, n, i)[k], Select(items, ItemHash(hash), n, i);
            k < |s| && s[k] == Item(e.key, e.val)
  {
    ItemsSelect(all, hash, n, i);
  }

  lemma DroppedStep(visited: seq<Item<TaNode?>>, x: Item<TaNode?>, drop: Callback)
    ensures drop(x) ==> Dropped(visited + [x], drop) == Dropped(visited, drop) + {x.key}
    ensures !drop(x) ==> Dropped(visited + [x], drop) == Dropped(visited, drop)
  {
  }

  lemma VisitingParts(d: Dict, all: seq<Entry>, items: seq<Item<TaNode?>>, drop: Callback, i: nat, k: nat,
                      kept: seq<Entry>, visited: seq<Item<TaNode?>>)
    requires Visiting(d, all, items, drop, i, k, kept, visited)
    ensures d.Valid() && 0 <= i < d.nbuckets && items == ItemsOf(all) && Unique(items)
    ensures Ahead(d.order, all, d.hash, d.nbuckets, i, k, kept)
    ensures k <= |Select(items, ItemHash(d.hash), d.nbuckets, i)| && visited == Told(items, d.hash, d.nbuckets, i, k)
    ensures ItemsOf(d.order) == Minus(items, Dropped(visited, drop))
  {
  }

  lemma VisitingIs(d: Dict, all: seq<Entry>, items: seq<Item<TaNode?>>, drop: Callback, i: nat, k: nat,
                   kept: seq<Entry>, visited: seq<Item<TaNode?>>)
    requires d.Valid() && i < d.nbuckets && items == ItemsOf(all) && Unique(items)
    requires Ahead(d.order, all, d.hash, d.nbuckets, i, k, kept)
    requires k <= |Select(items, ItemHash(d.hash), d.nbuckets, i)| && visited == Told(items, d.hash, d.nbuckets, i, k)
    requires ItemsOf(d.order) == Minus(items, Dropped(visited, drop))
    ensures Visiting(d, all, items, drop, i, k, kept, visited)
  {
  }

  /** The callback is told the k-th entry of the bucket, and may delete it. */
  method Turn(d: Dict, e: Entry, drop: Callback, visited: seq<Item<TaNode?>>, ghost all: seq<Entry>,
              ghost items: seq<Item<TaNode?>>, ghost i: nat, ghost k: nat, ghost kept: seq<Entry>)
    returns (after: seq<Item<TaNode?>>, ghost kept2: seq<Entry>)
    requires Visiting(d, all, items, drop, i, k, kept, visited) && d.nbuckets > 0
    requires var c := Chain(all, d.hash, d.nbuckets, i); k < |c| && e == c[k]
    modifies d.Footprint()
    ensures Visiting(d, all, items, drop, i, k + 1, kept2, after)
    ensures Same(d, old(d.nbuckets), old(d.buckets), old(d.bucketsBlock), old(d.own), old(d.Foreign()))
  {
    hide *;
    Tells(d, all, items, drop, i, k, kept, visited);
    VisitingParts(d, all, items, drop, i, k, kept, visited);
    ChainDistinct(d, i);
    ghost var order, j, n, hash := d.order, IndexOf(ItemsOf(d.order), e.key), d.nbuckets, d.hash;
    ghost var buckets, bucketsBlock, own, foreign := d.buckets, d.bucketsBlock, d.own, d.Foreign();
    var x := Item(e.key, e.val);
    after := visited + [x];
    TellsItem(all, items, hash, n, i, k);
    ToldStep(items, hash, n, i, k);
    DroppedStep(visited, x, drop);
    NowSame(d);
    if drop(x) {
      AheadDropped(order, all, hash, n, i, k, kept, j);
      MinusOne(items, Dropped(visited, drop), e.key, j);
      var r := DelKnown(d, e.key, all, items);
      kept2 := kept;
    } else {
      AheadKept(order, all, hash, n, i, k, kept);
      kept2 := kept + [e];
    }
    SameIs(d, n, buckets, bucketsBlock, own, foreign);
    VisitingIs(d, all, items, drop, i, k + 1, kept2, after);
  }

  lemma SameIs(d: Dict, nbuckets: nat, buckets: seq<Link>, bucketsBlock: TaNode, own: set<object>,
               foreign: set<TaNode>)
    requires Same(d, nbuckets, buckets, bucketsBlock, own, foreign)
    ensures d.nbuckets == nbuckets && d.buckets == buckets && d.bucketsBlock == bucketsBlock && d.own == own
    ensures d.Foreign() == foreign
  {
  }

  lemma NowSame(d: Dict)
    ensures Same(d, d.nbuckets, d.buckets, d.bucketsBlock, d.own, d.Foreign())
  {
  }

  /** What the walk leaves alone in a dictionary. */
  ghost predicate Same(d: Dict, nbuckets: nat, buckets: seq<Link>, bucketsBlock: TaNode, own: set<object>,
                       foreign: set<TaNode>)
    reads d, d.gc
  {
    d.nbuckets == nbuckets && d.buckets == buckets && d.bucketsBlock == bucketsBlock && d.own == own &&
    d.Foreign() == foreign
  }

  lemma DelIs(was: Runs.Dict<TaNode?>, key: string, now: Runs.Dict<TaNode?>, r: int)
    requires (now, r) == Runs.Del(was, key) && IndexOf(was.items, key) >= 0
    ensures r == 0 && now.items == Without(was.items, IndexOf(was.items, key))
  {
  }

  /** dict_del of a key that is there, as seen from the walk. */
  method DelKnown(d: Dict, key: string, ghost all: seq<Entry>, ghost items: seq<Item<TaNode?>>) returns (r: int)
    requires d.Valid() && IndexOf(ItemsOf(d.order), key) >= 0 && items == ItemsOf(all)
    modifies d.Footprint()
    ensures d.Valid() && items == ItemsOf(all)
    ensures var j := old(IndexOf(ItemsOf(d.order), key));
            d.order == Without(old(d.order), j) && ItemsOf(d.order) == Without(old(ItemsOf(d.order)), j)
    ensures Same(d, old(d.nbuckets), old(d.buckets), old(d.bucketsBlock), old(d.own), old(d.Foreign()))
  {
    hide *;
    ghost var was := d.View();
    d.InFootprint();
    d.ViewIs();
    r := d.Del(key);
    d.ViewIs();
    DelIs(was, key, d.View(), r);
    NowSame(d);
  }

  /** The walk is between two buckets, and i is the next one. */
  ghost predicate Between(d: Dict, all: seq<Entry>, items: seq<Item<TaNode?>>, drop: Callback, i: nat,
                          visited: seq<Item<TaNode?>>)
    reads *
  {
    d.Valid() && d.nbuckets > 0 && items == ItemsOf(all) && Unique(items) &&
    Later(d.order, all, d.hash, d.nbuckets, i) &&
    visited == Chained(items, ItemHash(d.hash), d.nbuckets, i) &&
    ItemsOf(d.order) == Minus(items, Dropped(visited, drop))
  }

  lemma EnterBucket(d: Dict, all: seq<Entry>, items: seq<Item<TaNode?>>, drop: Callback, i: nat,
                    visited: seq<Item<TaNode?>>)
    requires Between(d, all, items, drop, i, visited) && i < d.nbuckets
    ensures Visiting(d, all, items, drop, i, 0, [], visited)
  {
    AheadAtEnds(d.order, all, d.hash, d.nbuckets, i);
    hide Dict.Valid, Ahead, Later, Minus, Dropped, ItemsOf, Chained, Select;
    assert visited == Told(items, d.hash, d.nbuckets, i, 0);
  }

  lemma LeaveBucket(d: Dict, all: seq<Entry>, items: seq<Item<TaNode?>>, drop: Callback, i: nat, k: nat,
                    kept: seq<Entry>, visited: seq<Item<TaNode?>>)
    requires Visiting(d, all, items, drop, i, k, kept, visited) && k == |Chain(all, d.hash, d.nbuckets, i)|
    ensures Between(d, all, items, drop, i + 1, visited)
  {
    AheadAtEnds(d.order, all, d.hash, d.nbuckets, i);
    ItemsSelect(all, d.hash, d.nbuckets, i);
    hide Dict.Valid, Ahead, Later, Minus, Dropped, Select;
    var s := Select(items, ItemHash(d.hash), d.nbuckets, i);
    assert s[..k] == s;
  }

  /** list_for_each_safe over one bucket: the successor of each node is read before the callback runs. */
  method VisitBucket(d: Dict, i: nat, drop: Callback, visited: seq<Item<TaNode?>>, ghost all: seq<Entry>,
                     ghost items: seq<Item<TaNode?>>) returns (after: seq<Item<TaNode?>>)
    requires Between(d, all, items, drop, i, visited) && i < d.nbuckets
    modifies d.Footprint()
    ensures Between(d, all, items, drop, i + 1, after)
    ensures Same(d, old(d.nbuckets), old(d.buckets), old(d.bucketsBlock), old(d.own), old(d.Foreign()))
  {
    hide *;
    ghost var n, buckets, bucketsBlock, own, foreign := d.nbuckets, d.buckets, d.bucketsBlock, d.own, d.Foreign();
    EnterBucket(d, all, items, drop, i, visited);
    ghost var k, kept := 0, [];
    after := visited;
    Finds(d, all, items, drop, i, k, kept, after);
    ghost var c := Chain(all, d.hash, n, i);
    d.FootprintIs();
    NowSame(d);
    var head := d.buckets[i];
    var pos := Next(head, bucketsBlock);
    var tmp := Next(pos, BlockAt(c, k, bucketsBlock));
    while pos != head
      invariant k <= |c| && pos == At(c, k, head) && tmp == pos.next
      invariant Visiting(d, all, items, drop, i, k, kept, after)
      invariant Same(d, n, buckets, bucketsBlock, own, foreign)
      decreases |c| - k
    {
      SameIs(d, n, buckets, bucketsBlock, own, foreign);
      d.FootprintIs();
      Finds(d, all, items, drop, i, k, kept, after);
      after, kept := Turn(d, EntryOf(pos), drop, after, all, items, i, k, kept);
      SameIs(d, n, buckets, bucketsBlock, own, foreign);
      pos := tmp;
      k := k + 1;
      Finds(d, all, items, drop, i, k, kept, after);
      tmp := Next(pos, BlockAt(c, k, bucketsBlock));
    }
    SameIs(d, n, buckets, bucketsBlock, own, foreign);
    Finds(d, all, items, drop, i, k, kept, after);
    LeaveBucket(d, all, items, drop, i, k, kept, after);
  }

  lemma StartVisits(d: Dict, items: seq<Item<TaNode?>>, drop: Callback)
    requires d.Valid() && items == ItemsOf(d.order)
    ensures Between(d, d.order, items, drop, 0, [])
  {
    assert Dropped([], drop) == {};
    MinusNone(items);
    hide Chain, Minus, Dropped, OwnBlocks, Owners, Dict.Linked;
  }

  lemma EndVisits(d: Dict, all: seq<Entry>, items: seq<Item<TaNode?>>, drop: Callback, visited: seq<Item<TaNode?>>)
    requires Between(d, all, items, drop, d.nbuckets, visited) && IsPowerOfTwo(d.nbuckets)
    ensures d.Valid() && d.nbuckets > 0 && Unique(items)
    ensures visited == Chained(items, ItemHash(d.hash), d.nbuckets, d.nbuckets)
    ensures Unique(visited) && MapOf(visited) == MapOf(items)
    ensures ItemsOf(d.order) == Minus(items, Dropped(visited, drop))
    ensures MapOf(ItemsOf(d.order)) == MapOf(items) - Dropped(visited, drop)
  {
    RehashKeepsMap(items, d.hash, d.nbuckets);
    MinusMap(items, Dropped(visited, drop));
    hide Dict.Valid, Later, Minus, Dropped, Chained, MapOf, IsPowerOfTwo;
  }

  lemma BucketsArePower(d: Dict)
    requires d.Valid()
    ensures d.nbuckets > 0 && IsPowerOfTwo(d.nbuckets)
  {
  }

  /**
    dict_each with a callback that may delete the key it is told: it is still told every entry once, and
    exactly the entries that it does not delete are left, in order.
  */
  method EachDeleting(d: Dict, drop: Callback) returns (visited: seq<Item<TaNode?>>)
    requires d.Valid()
    modifies d.Footprint()
    ensures d.Valid() && d.nbuckets == old(d.nbuckets) && d.Foreign() == old(d.Foreign())
    ensures d.nbuckets > INT_MAX ==> visited == [] && d.View() == old(d.View())
    ensures d.nbuckets <= INT_MAX ==>
              d.nbuckets > 0 && visited == Chained(old(d.View().items), ItemHash(d.hash), d.nbuckets, d.nbuckets) &&
              Unique(visited) && MapOf(visited) == old(MapOf(d.View().items)) &&
              d.View().items == Minus(old(d.View().items), Dropped(visited, drop)) &&
              MapOf(d.View().items) == old(MapOf(d.View().items)) - Dropped(visited, drop)
  {
    hide *;
    visited := [];
    d.ViewIs();
    if d.nbuckets <= INT_MAX {
      ghost var all, items := d.order, ItemsOf(d.order);
      ghost var n, buckets, bucketsBlock, own, foreign := d.nbuckets, d.buckets, d.bucketsBlock, d.own, d.Foreign();
      StartVisits(d, items, drop);
      BucketsArePower(d);
      NowSame(d);
      d.FootprintIs();
      var i := 0;
      while i < d.nbuckets
        invariant i <= n && d.nbuckets == n
        invariant Between(d, all, items, drop, i, visited)
        invariant Same(d, n, buckets, bucketsBlock, own, foreign)
        decreases n - i
      {
        SameIs(d, n, buckets, bucketsBlock, own, foreign);
        d.FootprintIs();
        visited := VisitBucket(d, i, drop, visited, all, items);
        SameIs(d, n, buckets, bucketsBlock, own, foreign);
        i := i + 1;
      }
      SameIs(d, n, buckets, bucketsBlock, own, foreign);
      EndVisits(d, all, items, drop, visited);
      d.ViewIs();
    }
  }
}
