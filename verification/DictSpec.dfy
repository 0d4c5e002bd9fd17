/**
  What dict.c means. A dictionary is a bucket count and its entries in order of their latest fresh
  insertion; the chain of bucket b is the entries of that bucket, in this order. A rehash
  concatenates the chains; when it doubles the table the order, and so every chain, stays as it is.
*/
module DictSpec {
  import opened Buckets
  import opened Machine
  import opened Seqs

  // ---------- Spreading entries over buckets ----------

  /** The elements of s whose hash belongs to bucket b of n, in order. */
  function Select<T>(s: seq<T>, hash: T -> nat, n: nat, b: nat): (r: seq<T>)
    requires n > 0
    ensures |r| <= |s|
  {
    if s == [] then []
    else
      var last := s[|s| - 1];
      Select(s[..|s| - 1], hash, n, b) + if BucketFor(hash(last), n) == b then [last] else []
  }

  /** The chains of buckets [0, k), one behind the other. */
  function Chained<T>(s: seq<T>, hash: T -> nat, n: nat, k: nat): seq<T>
    requires n > 0
    decreases k
  {
    if k == 0 then [] else Chained(s, hash, n, k - 1) + Select(s, hash, n, k - 1)
  }

  lemma SelectStep<T>(s: seq<T>, x: T, hash: T -> nat, n: nat, b: nat)
    requires n > 0
    ensures Select(s + [x], hash, n, b) == Select(s, hash, n, b) + if BucketFor(hash(x), n) == b then [x] else []
  {
    assert (s + [x])[..|s|] == s;
  }

  lemma {:induction false} SelectConcat<T>(s: seq<T>, t: seq<T>, hash: T -> nat, n: nat, b: nat)
    requires n > 0
    ensures Select(s + t, hash, n, b) == Select(s, hash, n, b) + Select(t, hash, n, b)
  {
    hide BucketFor;
    if t == [] {
      assert s + t == s;
    } else {
      var init, x := t[..|t| - 1], t[|t| - 1];
      SelectConcat(s, init, hash, n, b);
      assert s + t == (s + init) + [x];
      SelectStep(s + init, x, hash, n, b);
    }
  }

  /** An element is selected exactly if it is an element of the bucket. */
  lemma {:induction false} SelectElement<T>(s: seq<T>, hash: T -> nat, n: nat, b: nat, x: T)
    requires n > 0
    ensures x in Select(s, hash, n, b) <==> x in s && BucketFor(hash(x), n) == b
  {
    hide BucketFor;
    if s != [] {
      SelectElement(s[..|s| - 1], hash, n, b, x);
      assert s == s[..|s| - 1] + [s[|s| - 1]];
    }
  }

  lemma {:induction false} SelectNone<T>(s: seq<T>, hash: T -> nat, n: nat, b: nat)
    requires n > 0
    requires forall x :: x in s ==> BucketFor(hash(x), n) != b
    ensures Select(s, hash, n, b) == []
  {
    hide BucketFor;
    if s != [] {
      SelectNone(s[..|s| - 1], hash, n, b);
      assert s == s[..|s| - 1] + [s[|s| - 1]];
    }
  }

  lemma SelectMiddle<T>(head: seq<T>, x: T, tail: seq<T>, hash: T -> nat, n: nat, b: nat)
    requires n > 0
    ensures Select(head + ([x] + tail), hash, n, b) ==
            Select(head, hash, n, b) + ((if BucketFor(hash(x), n) == b then [x] else []) + Select(tail, hash, n, b))
  {
    SelectStep([], x, hash, n, b);
    assert [] + [x] == [x];
    SelectConcat([x], tail, hash, n, b);
    SelectConcat(head, [x] + tail, hash, n, b);
    hide BucketFor, Select;
  }

  /** Taking the i-th element out takes it out of its own chain, and leaves the other chains alone. */
  lemma SelectWithout<T>(s: seq<T>, hash: T -> nat, n: nat, b: nat, i: nat)
    requires n > 0 && i < |s|
    ensures BucketFor(hash(s[i]), n) != b ==> Select(Without(s, i), hash, n, b) == Select(s, hash, n, b)
    ensures BucketFor(hash(s[i]), n) == b ==>
              var c, k := Select(s, hash, n, b), |Select(s[..i], hash, n, b)|;
              k < |c| && c[k] == s[i] && Select(Without(s, i), hash, n, b) == Without(c, k)
  {
    hide BucketFor, Select;
    SplitAt(s, i);
    SelectMiddle(s[..i], s[i], s[i + 1..], hash, n, b);
    SelectConcat(s[..i], s[i + 1..], hash, n, b);
    WithoutMiddle(Select(s[..i], hash, n, b), s[i], Select(s[i + 1..], hash, n, b));
  }

  /** When n divides the bigger table, a bucket of it selects from one old bucket only. */
  lemma {:induction false} SelectRefines<T>(s: seq<T>, hash: T -> nat, n: nat, b: nat)
    requires n > 0 && IsPowerOfTwo(n)
    ensures Select(Select(s, hash, n, b % n), hash, 2 * n, b) == Select(s, hash, 2 * n, b)
  {
    hide BucketFor, IsPowerOfTwo;
    if s != [] {
      var init, x := s[..|s| - 1], s[|s| - 1];
      SelectRefines(init, hash, n, b);
      DoublingSplits(hash(x), n);
      SelectStep(Select(init, hash, n, b % n), x, hash, 2 * n, b);
      assert Select(init, hash, n, b % n) + [] == Select(init, hash, n, b % n);
      assert Select(init, hash, 2 * n, b) + [] == Select(init, hash, 2 * n, b);
    }
  }

  lemma SelectOther<T>(s: seq<T>, hash: T -> nat, n: nat, c: nat, b: nat)
    requires n > 0 && IsPowerOfTwo(n) && b % n != c
    ensures Select(Select(s, hash, n, c), hash, 2 * n, b) == []
  {
    hide BucketFor, IsPowerOfTwo, Select;
    var t := Select(s, hash, n, c);
    forall x | x in t
      ensures BucketFor(hash(x), 2 * n) != b
    {
      SelectElement(s, hash, n, c, x);
      DoublingSplits(hash(x), n);
      assert BucketFor(hash(x), 2 * n) % n == c;
    }
    SelectNone(t, hash, 2 * n, b);
  }

  lemma {:induction false} SelectChained<T>(s: seq<T>, hash: T -> nat, n: nat, b: nat, k: nat)
    requires n > 0 && IsPowerOfTwo(n)
    ensures Select(Chained(s, hash, n, k), hash, 2 * n, b)
         == if b % n < k then Select(s, hash, 2 * n, b) else []
    decreases k
  {
    hide BucketFor, IsPowerOfTwo, Select;
    if k == 0 {
      SelectNone([], hash, 2 * n, b);
    } else {
      SelectChained(s, hash, n, b, k - 1);
      SelectConcat(Chained(s, hash, n, k - 1), Select(s, hash, n, k - 1), hash, 2 * n, b);
      if b % n == k - 1 {
        SelectRefines(s, hash, n, b);
      } else {
        SelectOther(s, hash, n, k - 1, b);
      }
      assert Select(s, hash, 2 * n, b) + [] == Select(s, hash, 2 * n, b) == [] + Select(s, hash, 2 * n, b);
    }
  }

  /** Doubling keeps every chain in order: concatenating the old chains loses nothing of it. */
  lemma DoublingKeepsOrder<T>(s: seq<T>, hash: T -> nat, n: nat, b: nat)
    requires n > 0 && IsPowerOfTwo(n)
    ensures Select(Chained(s, hash, n, n), hash, 2 * n, b) == Select(s, hash, 2 * n, b)
  {
    hide IsPowerOfTwo;
    SelectChained(s, hash, n, b, n);
  }

  lemma {:induction false} ChainedElement<T>(s: seq<T>, hash: T -> nat, n: nat, k: nat, x: T)
    requires n > 0
    ensures x in Chained(s, hash, n, k) <==> x in s && BucketFor(hash(x), n) < k
    decreases k
  {
    hide BucketFor, Select;
    if k > 0 {
      ChainedElement(s, hash, n, k - 1, x);
      SelectElement(s, hash, n, k - 1, x);
    }
  }

  // ---------- Association lists ----------

  datatype Item<V> = Item(key: string, val: V)

  type HashFn = string -> nat

  function ItemHash<V>(hash: HashFn): Item<V> -> nat {
    (it: Item<V>) => hash(it.key)
  }

  ghost predicate Unique<V>(items: seq<Item<V>>) {
    forall i, j :: 0 <= i < j < |items| ==> items[i].key != items[j].key
  }

  function Keys<V>(items: seq<Item<V>>): set<string> {
    set i | 0 <= i < |items| :: items[i].key
  }

  /** The position of the first item with this key, or -1: the walk along a chain. */
  function IndexOf<V>(items: seq<Item<V>>, key: string): (i: int)
    ensures -1 <= i < |items|
    ensures i >= 0 ==> items[i].key == key
    ensures forall j :: 0 <= j < (if i >= 0 then i else |items|) ==> items[j].key != key
  {
    if items == [] then -1
    else
      var i := IndexOf(items[..|items| - 1], key);
      if i >= 0 then i else if items[|items| - 1].key == key then |items| - 1 else -1
  }

  function Lookup<V>(items: seq<Item<V>>, key: string): Option<V> {
    var i := IndexOf(items, key);
    if i >= 0 then Some(items[i].val) else None
  }

  /** The finite map that an association list stands for. */
  ghost function MapOf<V>(items: seq<Item<V>>): (m: map<string, V>)
    ensures m.Keys == Keys(items)
  {
    map k | k in Keys(items) :: items[IndexOf(items, k)].val
  }

  lemma MapElements<V>(items: seq<Item<V>>, key: string, val: V)
    requires Unique(items)
    ensures (key in MapOf(items) && MapOf(items)[key] == val) <==> Item(key, val) in items
  {
    if Item(key, val) in items {
      var i :| 0 <= i < |items| && items[i] == Item(key, val);
      assert items[i].key in Keys(items);
      assert IndexOf(items, key) == i;
    }
  }

  /** Unique lists with the same elements stand for the same map and have the same length. */
  lemma SameElementsSameMap<V>(s: seq<Item<V>>, t: seq<Item<V>>)
    requires Unique(s) && Unique(t)
    requires forall x :: x in s <==> x in t
    ensures MapOf(s) == MapOf(t) && |s| == |t|
  {
    hide MapOf, Keys;
    forall k
      ensures k in MapOf(s) <==> k in MapOf(t)
      ensures k in MapOf(s) ==> MapOf(s)[k] == MapOf(t)[k]
    {
      if k in MapOf(s) {
        MapElements(s, k, MapOf(s)[k]);
        MapElements(t, k, MapOf(s)[k]);
      }
      if k in MapOf(t) {
        MapElements(t, k, MapOf(t)[k]);
        MapElements(s, k, MapOf(t)[k]);
      }
    }
    CountKeys(s);
    CountKeys(t);
    assert MapOf(s).Keys == MapOf(t).Keys;
  }

  lemma {:induction false} CountKeys<V>(items: seq<Item<V>>)
    requires Unique(items)
    ensures |Keys(items)| == |items|
  {
    if items != [] {
      var init, last := items[..|items| - 1], items[|items| - 1];
      CountKeys(init);
      assert Keys(items) == Keys(init) + {last.key};
      assert last.key !in Keys(init);
    }
  }

  lemma UniqueConcat<V>(s: seq<Item<V>>, t: seq<Item<V>>)
    requires Unique(s) && Unique(t)
    requires forall x, y :: x in s && y in t ==> x.key != y.key
    ensures Unique(s + t)
  {
    var r := s + t;
    forall i, j | 0 <= i < j < |r|
      ensures r[i].key != r[j].key
    {
      if i < |s| <= j {
        assert s[i] in s && t[j - |s|] in t;
      }
    }
  }

  lemma {:induction false} UniqueSelect<V>(items: seq<Item<V>>, hash: HashFn, n: nat, b: nat)
    requires n > 0 && Unique(items)
    ensures Unique(Select(items, ItemHash<V>(hash), n, b))
  {
    hide BucketFor;
    if items != [] {
      var init, last := items[..|items| - 1], items[|items| - 1];
      UniqueSelect(init, hash, n, b);
      var sel := Select(init, ItemHash<V>(hash), n, b);
      forall x, y | x in sel && y in [last]
        ensures x.key != y.key
      {
        SelectElement(init, ItemHash<V>(hash), n, b, x);
        assert init == items[..|init|];
      }
      UniqueConcat(sel, [last]);
    }
  }

  lemma {:induction false} UniqueChained<V>(items: seq<Item<V>>, hash: HashFn, n: nat, k: nat)
    requires n > 0 && Unique(items)
    ensures Unique(Chained(items, ItemHash<V>(hash), n, k))
    decreases k
  {
    hide BucketFor, Select;
    if k > 0 {
      var h := ItemHash<V>(hash);
      UniqueChained(items, hash, n, k - 1);
      UniqueSelect(items, hash, n, k - 1);
      var s, t := Chained(items, h, n, k - 1), Select(items, h, n, k - 1);
      forall x, y | x in s && y in t
        ensures x.key != y.key
      {
        ChainedElement(items, h, n, k - 1, x);
        SelectElement(items, h, n, k - 1, y);
      }
      UniqueConcat(s, t);
    }
  }

  /** A rehash keeps the map and the number of entries, whatever the new size. */
  lemma RehashKeepsMap<V>(items: seq<Item<V>>, hash: HashFn, n: nat)
    requires n > 0 && IsPowerOfTwo(n) && Unique(items)
    ensures var moved := Chained(items, ItemHash<V>(hash), n, n);
            Unique(moved) && MapOf(moved) == MapOf(items) && |moved| == |items|
  {
    hide BucketFor, IsPowerOfTwo, Chained, MapOf;
    var h := ItemHash<V>(hash);
    UniqueChained(items, hash, n, n);
    forall x
      ensures x in items <==> x in Chained(items, h, n, n)
    {
      ChainedElement(items, h, n, n, x);
      BucketIsMod(h(x), n);
    }
    SameElementsSameMap(Chained(items, h, n, n), items);
  }

  /** Looking a key up in its chain is looking it up in the whole list. */
  lemma {:induction false} LookupInChain<V>(items: seq<Item<V>>, hash: HashFn, n: nat, key: string)
    requires n > 0
    ensures Lookup(Select(items, ItemHash<V>(hash), n, BucketFor(hash(key), n)), key) == Lookup(items, key)
  {
    hide BucketFor;
    if items != [] {
      var b := BucketFor(hash(key), n);
      var init, last := items[..|items| - 1], items[|items| - 1];
      LookupInChain(items[..|items| - 1], hash, n, key);
      LookupStep(Select(init, ItemHash<V>(hash), n, b), last, key);
      LookupStep(init, last, key);
      assert items == init + [last];
      assert Select(init, ItemHash<V>(hash), n, b) + [] == Select(init, ItemHash<V>(hash), n, b);
    }
  }

  lemma LookupStep<V>(items: seq<Item<V>>, last: Item<V>, key: string)
    ensures Lookup(items + [last], key) ==
            if Lookup(items, key).Some? then Lookup(items, key)
            else if last.key == key then Some(last.val) else None
  {
    assert (items + [last])[..|items|] == items;
  }
}
