/**
  Runs of dictionary operations, with every allocation free to fail: what they mean for the map the
  dictionary stands for, how far the table grows and what growing costs, and the order of chains.
*/
module DictRuns {
  import opened Buckets
  import opened DictSpec
  import opened Seqs

  const MAX_BUCKETS := 0x8000_0000  // the largest power of two that a uint32_t holds

  datatype Dict<V> = Dict(nbuckets: nat, items: seq<Item<V>>)

  ghost predicate Valid<V>(d: Dict<V>) {
    4 <= d.nbuckets <= MAX_BUCKETS && IsPowerOfTwo(d.nbuckets) && Unique(d.items)
  }

  // ---------- The operations ----------

  function New<V>(n: nat): Dict<V> {
    Dict(n, [])
  }

  /** dict_rehash: -1 and no change for an invalid size or a failed allocation (!ok). */
  function Rehash<V>(d: Dict<V>, hash: HashFn, n: nat, ok: bool): (Dict<V>, int)
    requires d.nbuckets > 0
  {
    if n < 4 || !IsPowerOfTwo(n) || !ok then (d, -1)
    else (Dict(n, Chained(d.items, ItemHash<V>(hash), d.nbuckets, d.nbuckets)), 0)
  }

  predicate Full<V>(d: Dict<V>) {
    |d.items| * 4 >= d.nbuckets * 3 && d.nbuckets <= 0xffff_ffff / 2
  }

  /** The automatic doubling; it leaves the order of the entries alone. */
  function Grow<V>(d: Dict<V>, ok: bool): Dict<V> {
    if Full(d) && ok then Dict(2 * d.nbuckets, d.items) else d
  }

  /** dict_set: entryOk and growOk say whether the allocations succeed. */
  function Set<V>(d: Dict<V>, key: string, val: V, entryOk: bool, growOk: bool): (Dict<V>, int) {
    var i := IndexOf(d.items, key);
    if i >= 0 then (d.(items := d.items[i := Item(key, val)]), 0)
    else if !entryOk then (d, -1)
    else (Grow(d.(items := d.items + [Item(key, val)]), growOk), 0)
  }

  function Del<V>(d: Dict<V>, key: string): (Dict<V>, int) {
    var i := IndexOf(d.items, key);
    if i >= 0 then (d.(items := Without(d.items, i)), 0) else (d, -1)
  }

  datatype Op<V> =
    | OpSet(key: string, val: V, entryOk: bool, growOk: bool)
    | OpDel(key: string)
    | OpRehash(n: nat, ok: bool)

  function Step<V>(d: Dict<V>, hash: HashFn, op: Op<V>): Dict<V>
    requires d.nbuckets > 0
  {
    match op
    case OpSet(key, val, entryOk, growOk) => Set(d, key, val, entryOk, growOk).0
    case OpDel(key) => Del(d, key).0
    case OpRehash(n, ok) => Rehash(d, hash, n, ok).0
  }

  function Run<V>(d: Dict<V>, hash: HashFn, ops: seq<Op<V>>): (r: Dict<V>)
    requires d.nbuckets > 0
    ensures r.nbuckets > 0
  {
    if ops == [] then d else Step(Run(d, hash, ops[..|ops| - 1]), hash, ops[|ops| - 1])
  }

  // ---------- The allocations that operations ask for ----------

  function AskedForRehash(n: nat, ok: bool): seq<bool> {
    if n < 4 || !IsPowerOfTwo(n) then [] else [ok]
  }

  function AskedToGrow<V>(d: Dict<V>, ok: bool): seq<bool> {
    if Full(d) then [ok] else []
  }

  /** Whether the allocations that an operation asks for succeed, in order. */
  function Asked<V>(d: Dict<V>, op: Op<V>): seq<bool> {
    match op
    case OpSet(key, val, entryOk, growOk) =>
      if IndexOf(d.items, key) >= 0 then []
      else if entryOk then [true] + AskedToGrow(d.(items := d.items + [Item(key, val)]), growOk)
      else [false]
    case OpDel(_) => []
    case OpRehash(n, ok) => AskedForRehash(n, ok)
  }

  /** The same for a run. */
  function AskedIn<V>(d: Dict<V>, hash: HashFn, ops: seq<Op<V>>): seq<bool>
    requires d.nbuckets > 0
  {
    if ops == [] then []
    else AskedIn(d, hash, ops[..|ops| - 1]) + Asked(Run(d, hash, ops[..|ops| - 1]), ops[|ops| - 1])
  }

  // ---------- A plain map ----------

  function MapStep<V>(m: map<string, V>, op: Op<V>): map<string, V> {
    match op
    case OpSet(key, val, entryOk, _) => if key in m || entryOk then m[key := val] else m
    case OpDel(key) => m - {key}
    case OpRehash(_, _) => m
  }

  function MapRun<V>(m: map<string, V>, ops: seq<Op<V>>): map<string, V> {
    if ops == [] then m else MapStep(MapRun(m, ops[..|ops| - 1]), ops[|ops| - 1])
  }

  /** What an operation returns when the dictionary stands for m. */
  function Answer<V>(m: map<string, V>, op: Op<V>): int {
    match op
    case OpSet(key, _, entryOk, _) => if key in m || entryOk then 0 else -1
    case OpDel(key) => if key in m then 0 else -1
    case OpRehash(n, ok) => if n >= 4 && IsPowerOfTwo(n) && ok then 0 else -1
  }

  lemma InMap<V>(items: seq<Item<V>>, key: string)
    ensures key in MapOf(items) <==> IndexOf(items, key) >= 0
    ensures key in MapOf(items) ==> MapOf(items)[key] == items[IndexOf(items, key)].val
  {
    var i := IndexOf(items, key);
    if i >= 0 {
      assert items[i].key in Keys(items);
    }
  }

  /** A set doubles the table exactly if it has inserted an entry that fills three quarters of it and it can. */
  lemma SetGrows<V>(d: Dict<V>, key: string, val: V, entryOk: bool, growOk: bool)
    ensures var (n, r) := Set(d, key, val, entryOk, growOk);
            n.nbuckets == if |n.items| > |d.items| && 4 * |n.items| >= 3 * d.nbuckets && d.nbuckets < 0x8000_0000
                             && growOk then 2 * d.nbuckets else d.nbuckets
  {
  }

  lemma SameMap<V>(m: map<string, V>, n: map<string, V>)
    requires forall k :: (k in m <==> k in n) && (k in m ==> m[k] == n[k])
    ensures m == n
  {
  }

  /** Two ways to say which items a list has. */
  lemma MapFromElements<V>(items: seq<Item<V>>, m: map<string, V>)
    requires Unique(items)
    requires forall x :: x in items <==> x.key in m && m[x.key] == x.val
    ensures MapOf(items) == m
  {
    hide MapOf, Keys, Unique;
    forall k
      ensures k in MapOf(items) <==> k in m
      ensures k in m ==> MapOf(items)[k] == m[k]
    {
      if k in m {
        assert Item(k, m[k]) in items;
        MapElements(items, k, m[k]);
      }
      if k in MapOf(items) {
        MapElements(items, k, MapOf(items)[k]);
        assert Item(k, MapOf(items)[k]) in items;
      }
    }
    SameMap(MapOf(items), m);
  }

  lemma ReplaceElement<V>(items: seq<Item<V>>, i: nat, val: V, x: Item<V>)
    requires Unique(items) && i < |items|
    ensures x in items[i := Item(items[i].key, val)] <==>
            if x.key == items[i].key then x.val == val else x in items
  {
    var r := items[i := Item(items[i].key, val)];
    assert r[i] == Item(items[i].key, val);
    if x in items && x.key != items[i].key {
      var j :| 0 <= j < |items| && items[j] == x;
      assert r[j] == x;
    }
  }

  lemma ReplaceIs<V>(items: seq<Item<V>>, i: nat, val: V)
    requires Unique(items) && i < |items|
    ensures var r := items[i := Item(items[i].key, val)];
            Unique(r) && MapOf(r) == MapOf(items)[items[i].key := val]
  {
    var r, m := items[i := Item(items[i].key, val)], MapOf(items)[items[i].key := val];
    hide MapOf, Keys;
    forall x
      ensures x in r <==> x.key in m && m[x.key] == x.val
    {
      ReplaceElement(items, i, val, x);
      MapElements(items, x.key, x.val);
      assert Item(x.key, x.val) == x;
    }
    MapFromElements(r, m);
  }

  lemma AppendIs<V>(items: seq<Item<V>>, key: string, val: V)
    requires Unique(items) && IndexOf(items, key) < 0
    ensures var r := items + [Item(key, val)];
            Unique(r) && MapOf(r) == MapOf(items)[key := val]
  {
    var r := items + [Item(key, val)];
    assert r[..|items|] == items;
    hide MapOf, Keys;
    forall k
      ensures k in MapOf(r) <==> k in MapOf(items)[key := val]
      ensures k in MapOf(r) ==> MapOf(r)[k] == MapOf(items)[key := val][k]
    {
      InMap(r, k);
      InMap(items, k);
    }
    SameMap(MapOf(r), MapOf(items)[key := val]);
  }

  lemma RemoveElement<V>(items: seq<Item<V>>, i: nat, x: Item<V>)
    requires Unique(items) && i < |items|
    ensures x in Without(items, i) <==> x in items && x.key != items[i].key
  {
    var r := Without(items, i);
    if x in items && x.key != items[i].key {
      var j :| 0 <= j < |items| && items[j] == x;
      assert r[if j < i then j else j - 1] == x;
    }
  }

  lemma RemoveIs<V>(items: seq<Item<V>>, i: nat)
    requires Unique(items) && i < |items|
    ensures var r := Without(items, i);
            Unique(r) && MapOf(r) == MapOf(items) - {items[i].key}
  {
    var r, m := Without(items, i), MapOf(items) - {items[i].key};
    hide MapOf, Keys;
    forall x
      ensures x in r <==> x.key in m && m[x.key] == x.val
    {
      RemoveElement(items, i, x);
      MapElements(items, x.key, x.val);
      assert Item(x.key, x.val) == x;
    }
    assert Unique(r);
    hide Without;
    MapFromElements(r, m);
  }

  lemma StepIsMapStep<V>(d: Dict<V>, hash: HashFn, op: Op<V>)
    requires Valid(d) && (op.OpRehash? ==> op.n <= 0xffff_ffff)
    ensures Valid(Step(d, hash, op))
    ensures MapOf(Step(d, hash, op).items) == MapStep(MapOf(d.items), op)
  {
    hide MapOf, Keys, IsPowerOfTwo, Chained;
    match op
    case OpSet(key, val, entryOk, growOk) =>
      InMap(d.items, key);
      if key in MapOf(d.items) {
        ReplaceIs(d.items, IndexOf(d.items, key), val);
      } else if entryOk {
        AppendIs(d.items, key, val);
        TwiceIsPower(d.nbuckets);
        if d.nbuckets <= 0xffff_ffff / 2 {
          SmallPower(d.nbuckets);
        }
      }
    case OpDel(key) =>
      InMap(d.items, key);
      if key in MapOf(d.items) {
        RemoveIs(d.items, IndexOf(d.items, key));
      } else {
        assert MapOf(d.items) - {key} == MapOf(d.items);
      }
    case OpRehash(n, ok) =>
      RehashKeepsMap(d.items, hash, d.nbuckets);
      if IsPowerOfTwo(n) {
        LargestPower(n);
      }
  }

  lemma SmallPower(n: nat)
    requires n > 0 && IsPowerOfTwo(n) && n <= 0xffff_ffff / 2
    ensures 2 * n <= MAX_BUCKETS
  {
    var k := PowerOfTwoIs(n);
    if k >= 31 {
      PowerGrows(31, k);
      assert Pow2(31) == 0x8000_0000 by { PowersUpTo31(); }
    } else {
      PowerGrows(k, 30);
      PowersUpTo31();
    }
  }

  /** No power of two between 2^31 and UINT32_MAX. */
  lemma LargestPower(n: nat)
    requires IsPowerOfTwo(n) && n <= 0xffff_ffff
    ensures n <= MAX_BUCKETS
  {
    var k := PowerOfTwoIs(n);
    PowersUpTo31();
    assert Pow2(32) == 2 * Pow2(31);
    if k >= 32 {
      PowerGrows(32, k);
    } else {
      PowerGrows(k, 31);
    }
  }

  lemma {:induction false} PowerGrows(j: nat, k: nat)
    requires j <= k
    ensures Pow2(j) <= Pow2(k)
  {
    if j < k {
      PowerGrows(j, k - 1);
    }
  }

  lemma PowersUpTo31()
    ensures Pow2(30) == 0x4000_0000 && Pow2(31) == 0x8000_0000
  {
    assert Pow2(8) == 256;
    assert Pow2(16) == 0x1_0000;
    assert Pow2(24) == 0x100_0000;
    assert Pow2(30) == 0x4000_0000;
  }

  /** Every run refines a plain map: the same keys and values, counted by the entries. */
  lemma {:induction false} RunRefinesMap<V>(d: Dict<V>, hash: HashFn, ops: seq<Op<V>>)
    requires Valid(d) && forall i :: 0 <= i < |ops| && ops[i].OpRehash? ==> ops[i].n <= 0xffff_ffff
    ensures Valid(Run(d, hash, ops))
    ensures MapOf(Run(d, hash, ops).items) == MapRun(MapOf(d.items), ops)
    ensures |Run(d, hash, ops).items| == |MapRun(MapOf(d.items), ops)|
  {
    hide MapOf, Step, MapStep;
    if ops != [] {
      RunRefinesMap(d, hash, ops[..|ops| - 1]);
      StepIsMapStep(Run(d, hash, ops[..|ops| - 1]), hash, ops[|ops| - 1]);
    }
    SizeIsCount(Run(d, hash, ops));
  }

  lemma SizeIsCount<V>(d: Dict<V>)
    requires Valid(d)
    ensures |MapOf(d.items)| == |d.items|
  {
    CountKeys(d.items);
    assert MapOf(d.items).Keys == Keys(d.items);
  }

  // ---------- Growth ----------

  /** A set or a delete, all of whose allocations succeed. */
  predicate Smooth<V>(op: Op<V>) {
    op.OpDel? || (op.OpSet? && op.entryOk && op.growOk)
  }

  predicate Fresh<V>(d: Dict<V>, op: Op<V>) {
    op.OpSet? && IndexOf(d.items, op.key) < 0 && op.entryOk
  }

  /** How many entries an operation moves into a new table. */
  function Moved<V>(d: Dict<V>, hash: HashFn, op: Op<V>): nat
    requires d.nbuckets > 0
  {
    if op.OpSet? && Step(d, hash, op).nbuckets != d.nbuckets then |Step(d, hash, op).items| else 0
  }

  function FreshIn<V>(d: Dict<V>, hash: HashFn, ops: seq<Op<V>>): nat
    requires d.nbuckets > 0
  {
    if ops == [] then 0
    else
      var init := ops[..|ops| - 1];
      FreshIn(d, hash, init) + if Fresh(Run(d, hash, init), ops[|ops| - 1]) then 1 else 0
  }

  function MovedIn<V>(d: Dict<V>, hash: HashFn, ops: seq<Op<V>>): nat
    requires d.nbuckets > 0
  {
    if ops == [] then 0
    else
      var init := ops[..|ops| - 1];
      MovedIn(d, hash, init) + Moved(Run(d, hash, init), hash, ops[|ops| - 1])
  }

  /** What is true of a table of n buckets, grown from n0, after fresh insertions and moves. */
  predicate Bounds(n0: nat, n: nat, count: nat, inserted: nat, moved: nat) {
    n0 <= n && count <= inserted && 4 * count < 3 * n &&
    4 * moved == 3 * (n - n0) && (n > n0 ==> 3 * n <= 8 * inserted)
  }

  /** One operation in numbers: it inserts at most one entry, and moves all of them when that makes the table grow. */
  lemma StepInNumbers<V>(d: Dict<V>, hash: HashFn, op: Op<V>)
    requires d.nbuckets > 0 && Smooth(op) && Step(d, hash, op).nbuckets < MAX_BUCKETS
    ensures var r, f := Step(d, hash, op), if Fresh(d, op) then 1 else 0;
            |r.items| <= |d.items| + f &&
            if r.nbuckets == d.nbuckets then
              Moved(d, hash, op) == 0 && (f == 1 ==> 4 * |r.items| < 3 * d.nbuckets)
            else
              f == 1 && r.nbuckets == 2 * d.nbuckets && 4 * |r.items| >= 3 * d.nbuckets &&
              Moved(d, hash, op) == |r.items| == |d.items| + 1
  {
    hide IsPowerOfTwo, IndexOf;
  }

  lemma GrowthInNumbers(n0: nat, n: nat, count: nat, inserted: nat, moved: nat)
    requires Bounds(n0, n, count, inserted, moved) && n % 4 == 0 && 4 * (count + 1) >= 3 * n
    ensures 4 * (count + 1) == 3 * n && Bounds(n0, 2 * n, count + 1, inserted + 1, moved + count + 1)
  {
  }

  lemma GrowthStep<V>(d: Dict<V>, hash: HashFn, op: Op<V>, n0: nat, inserted: nat, moved: nat)
    requires Valid(d) && Smooth(op)
    requires Bounds(n0, d.nbuckets, |d.items|, inserted, moved)
    requires Step(d, hash, op).nbuckets < MAX_BUCKETS
    ensures Bounds(n0, Step(d, hash, op).nbuckets, |Step(d, hash, op).items|,
                   inserted + (if Fresh(d, op) then 1 else 0), moved + Moved(d, hash, op))
  {
    hide IsPowerOfTwo, Step, Moved, Fresh, Smooth;
    MultipleOfFour(d.nbuckets);
    StepInNumbers(d, hash, op);
    if Step(d, hash, op).nbuckets != d.nbuckets {
      GrowthInNumbers(n0, d.nbuckets, |d.items|, inserted, moved);
    }
  }

  lemma BucketsGrow<V>(d: Dict<V>, hash: HashFn, op: Op<V>)
    requires d.nbuckets > 0 && Smooth(op)
    ensures d.nbuckets <= Step(d, hash, op).nbuckets
  {
  }

  /**
    While the table stays below 2^31 buckets and allocations succeed, it is less than three
    quarters full after every operation, and all the doublings of a run together have moved fewer
    than two entries for each fresh insertion.
  */
  lemma {:induction false} GrowthBound<V>(n0: nat, hash: HashFn, ops: seq<Op<V>>)
    requires n0 >= 4 && IsPowerOfTwo(n0)
    requires forall i :: 0 <= i < |ops| ==> Smooth(ops[i])
    requires Run(New<V>(n0), hash, ops).nbuckets < MAX_BUCKETS
    ensures var d, r := New<V>(n0), Run(New<V>(n0), hash, ops);
            Valid(r) && 4 * |r.items| < 3 * r.nbuckets &&
            Bounds(n0, r.nbuckets, |r.items|, FreshIn(d, hash, ops), MovedIn(d, hash, ops)) &&
            (MovedIn(d, hash, ops) > 0 ==> MovedIn(d, hash, ops) < 2 * FreshIn(d, hash, ops))
  {
    hide Step, Smooth, Moved, Fresh, IsPowerOfTwo, Unique;
    var d := New<V>(n0);
    if ops == [] {
      NothingIsUnique<V>();
    } else {
      var init, op := ops[..|ops| - 1], ops[|ops| - 1];
      var p := Run(d, hash, init);
      BucketsGrow(p, hash, op);
      GrowthBound(n0, hash, init);
      GrowthStep(p, hash, op, n0, FreshIn(d, hash, init), MovedIn(d, hash, init));
      NotRehash(op);
      StepIsMapStep(p, hash, op);
    }
  }

  lemma NotRehash<V>(op: Op<V>)
    requires Smooth(op)
    ensures !op.OpRehash?
  {
  }

  lemma NothingIsUnique<V>()
    ensures Unique<V>([])
  {
  }

  // ---------- The order of chains ----------

  /** When the key was last inserted afresh: the number of the operation, or -1. */
  function Stamp<V>(d: Dict<V>, hash: HashFn, ops: seq<Op<V>>, key: string): int
    requires d.nbuckets > 0
  {
    if ops == [] then -1
    else
      var init, op := ops[..|ops| - 1], ops[|ops| - 1];
      if op.OpSet? && op.key == key && Fresh(Run(d, hash, init), op) then |init| else Stamp(d, hash, init, key)
  }

  ghost predicate StampsGrow<V>(d: Dict<V>, hash: HashFn, ops: seq<Op<V>>, items: seq<Item<V>>)
    requires d.nbuckets > 0
  {
    forall i, j :: 0 <= i < j < |items| ==>
      Stamp(d, hash, ops, items[i].key) < Stamp(d, hash, ops, items[j].key)
  }

  lemma {:induction false} StampBound<V>(d: Dict<V>, hash: HashFn, ops: seq<Op<V>>, key: string)
    requires d.nbuckets > 0
    ensures Stamp(d, hash, ops, key) < |ops|
  {
    hide Fresh, Run;
    if ops != [] {
      StampBound(d, hash, ops[..|ops| - 1], key);
    }
  }

  /** Without explicit rehashes, the entries stay in order of their latest fresh insertion. */
  lemma {:induction false} OrderOfInsertion<V>(n0: nat, hash: HashFn, ops: seq<Op<V>>)
    requires n0 > 0 && forall i :: 0 <= i < |ops| ==> !ops[i].OpRehash?
    ensures StampsGrow(New<V>(n0), hash, ops, Run(New<V>(n0), hash, ops).items)
  {
    var d := New<V>(n0);
    if ops != [] {
      var init, op := ops[..|ops| - 1], ops[|ops| - 1];
      var p, r := Run(d, hash, init), Run(d, hash, ops);
      OrderOfInsertion<V>(n0, hash, init);
      forall i, j | 0 <= i < j < |r.items|
        ensures Stamp(d, hash, ops, r.items[i].key) < Stamp(d, hash, ops, r.items[j].key)
      {
        StampBound(d, hash, init, r.items[i].key);
        ItemFrom(p, hash, op, i);
        ItemFrom(p, hash, op, j);
      }
    }
  }

  /** Where the item at position i of the next state comes from. */
  lemma ItemFrom<V>(p: Dict<V>, hash: HashFn, op: Op<V>, i: nat)
    requires p.nbuckets > 0 && !op.OpRehash? && i < |Step(p, hash, op).items|
    ensures var r := Step(p, hash, op);
            if Fresh(p, op) then
              |r.items| == |p.items| + 1 &&
              (if i < |p.items| then r.items[i] == p.items[i] && p.items[i].key != op.key else r.items[i].key == op.key)
            else if op.OpDel? && IndexOf(p.items, op.key) >= 0 then
              |r.items| == |p.items| - 1 &&
              r.items[i] == p.items[if i < IndexOf(p.items, op.key) then i else i + 1]
            else
              |r.items| == |p.items| && r.items[i].key == p.items[i].key
  {
  }

  /** So every chain of the table lists its keys in that order. */
  lemma ChainsInOrder<V>(n0: nat, hash: HashFn, ops: seq<Op<V>>, b: nat)
    requires n0 > 0 && forall i :: 0 <= i < |ops| ==> !ops[i].OpRehash?
    ensures var r := Run(New<V>(n0), hash, ops);
            StampsGrow(New<V>(n0), hash, ops, Select(r.items, ItemHash<V>(hash), r.nbuckets, b))
  {
    hide StampsGrow;
    OrderOfInsertion<V>(n0, hash, ops);
    var r := Run(New<V>(n0), hash, ops);
    SelectKeepsOrder(New<V>(n0), hash, ops, r.items, r.nbuckets, b);
  }

  lemma {:induction false} SelectKeepsOrder<V>(d: Dict<V>, hash: HashFn, ops: seq<Op<V>>, items: seq<Item<V>>,
                                               n: nat, b: nat)
    requires d.nbuckets > 0 && n > 0 && StampsGrow(d, hash, ops, items)
    ensures StampsGrow(d, hash, ops, Select(items, ItemHash<V>(hash), n, b))
  {
    hide BucketFor, Stamp;
    if items != [] {
      var init, last := items[..|items| - 1], items[|items| - 1];
      SelectKeepsOrder(d, hash, ops, init, n, b);
      var s := Select(init, ItemHash<V>(hash), n, b);
      forall i | 0 <= i < |s|
        ensures Stamp(d, hash, ops, s[i].key) < Stamp(d, hash, ops, last.key)
      {
        SelectElement(init, ItemHash<V>(hash), n, b, s[i]);
        var j :| 0 <= j < |init| && init[j] == s[i];
        assert items[j] == s[i];
      }
    }
  }
}
