/**
  Sequences of calls on a dictionary whose values are allocations: what the calls return, which
  values they free, and which sequences never free a value twice.
*/
module DictTraces {
  import opened Ta
  import Runs = DictRuns

  /** dict_set or, with freeOld, dict_set_owned; dict_del; dict_rehash. */
  datatype Call =
    | CallSet(key: string, val: TaNode?, freeOld: bool)
    | CallDel(key: string)
    | CallRehash(n: nat)

  /** Whether the allocations of one call succeed: its first one, and the one for a larger table. */
  datatype Luck = Luck(first: bool, grow: bool)

  const LUCKY := Luck(true, true)

  type Store = map<string, TaNode?>

  type Op = Runs.Op<TaNode?>

  predicate Legal(call: Call) {
    call.CallRehash? ==> call.n <= 0xffff_ffff
  }

  function OpOf(call: Call, luck: Luck): Op {
    match call
    case CallSet(key, val, _) => Runs.OpSet(key, val, luck.first, luck.grow)
    case CallDel(key) => Runs.OpDel(key)
    case CallRehash(n) => Runs.OpRehash(n, luck.first)
  }

  /** What the first calls do, as far as luck goes. */
  function Ops(calls: seq<Call>, luck: seq<Luck>): (ops: seq<Op>)
    requires |luck| <= |calls|
    ensures |ops| == |luck| && forall i :: 0 <= i < |ops| ==> ops[i] == OpOf(calls[i], luck[i])
  {
    seq(|luck|, i requires 0 <= i < |luck| => OpOf(calls[i], luck[i]))
  }

  /** The plain map after these calls. */
  function After(m: Store, calls: seq<Call>, luck: seq<Luck>): Store
    requires |luck| <= |calls|
  {
    Runs.MapRun(m, Ops(calls, luck))
  }

  lemma OpsStep(calls: seq<Call>, luck: seq<Luck>, l: Luck)
    requires |luck| < |calls|
    ensures Ops(calls, luck + [l]) == Ops(calls, luck) + [OpOf(calls[|luck|], l)]
  {
  }

  lemma AfterStep(m: Store, calls: seq<Call>, luck: seq<Luck>, l: Luck)
    requires |luck| < |calls|
    ensures After(m, calls, luck + [l]) == Runs.MapStep(After(m, calls, luck), OpOf(calls[|luck|], l))
  {
    OpsStep(calls, luck, l);
    var ops := Ops(calls, luck + [l]);
    assert ops[..|ops| - 1] == Ops(calls, luck);
  }

  // ---------- Values that are freed ----------

  /** What a call frees when the dictionary stands for m: the value that an owned set replaces. */
  function Frees(m: Store, call: Call): seq<TaNode> {
    if call.CallSet? && call.freeOld && call.key in m && m[call.key] != null && m[call.key] != call.val
    then [m[call.key]]
    else []
  }

  /** What the calls free, in order. */
  function FreedBy(m: Store, calls: seq<Call>, luck: seq<Luck>): seq<TaNode>
    requires |luck| <= |calls|
    decreases |luck|
  {
    if luck == [] then []
    else
      var init := luck[..|luck| - 1];
      FreedBy(m, calls, init) + Frees(After(m, calls, init), calls[|init|])
  }

  function Elements(s: seq<TaNode>): set<TaNode> {
    set x | x in s
  }

  lemma FreedStep(m: Store, calls: seq<Call>, luck: seq<Luck>, l: Luck)
    requires |luck| < |calls|
    ensures FreedBy(m, calls, luck + [l]) == FreedBy(m, calls, luck) + Frees(After(m, calls, luck), calls[|luck|])
    ensures Elements(FreedBy(m, calls, luck + [l]))
         == Elements(FreedBy(m, calls, luck)) + Elements(Frees(After(m, calls, luck), calls[|luck|]))
  {
    hide After, Frees;
    assert (luck + [l])[..|luck|] == luck;
  }

  /** Whatever allocations fail: an owned set never replaces a value that is not live or has been freed. */
  ghost predicate Safe(m: Store, foreign: set<TaNode>, calls: seq<Call>) {
    forall luck: seq<Luck> :: |luck| < |calls| ==>
      forall x :: x in Frees(After(m, calls, luck), calls[|luck|]) ==>
        x in foreign && x !in FreedBy(m, calls, luck)
  }

  lemma DistinctMore(s: seq<TaNode>, t: seq<TaNode>)
    requires Distinct(s) && |t| <= 1 && forall x :: x in t ==> x !in s
    ensures Distinct(s + t)
  {
    if t != [] {
      assert t[0] in t;
    }
  }

  lemma SafeNow(m: Store, foreign: set<TaNode>, calls: seq<Call>, luck: seq<Luck>)
    requires Safe(m, foreign, calls) && |luck| < |calls|
    ensures var more := Frees(After(m, calls, luck), calls[|luck|]);
            |more| <= 1 && (forall x :: x in more ==> x !in FreedBy(m, calls, luck)) && Elements(more) <= foreign
  {
  }

  /** Then the run frees live allocations, each of them once. */
  lemma {:induction false} FreedOnce(m: Store, foreign: set<TaNode>, calls: seq<Call>, luck: seq<Luck>)
    requires Safe(m, foreign, calls) && |luck| <= |calls|
    ensures Elements(FreedBy(m, calls, luck)) <= foreign && Distinct(FreedBy(m, calls, luck))
    decreases |luck|
  {
    if luck != [] {
      var init := luck[..|luck| - 1];
      FreedOnce(m, foreign, calls, init);
      assert luck == init + [luck[|luck| - 1]];
      FreedStep(m, calls, init, luck[|luck| - 1]);
      SafeNow(m, foreign, calls, init);
      hide *;
      DistinctMore(FreedBy(m, calls, init), Frees(After(m, calls, init), calls[|init|]));
    } else {
      assert Elements([]) == {};
    }
  }

  /** Without owned sets nothing is freed, and every sequence is safe. */
  lemma {:induction false} NothingFreed(m: Store, foreign: set<TaNode>, calls: seq<Call>, luck: seq<Luck>)
    requires forall i :: 0 <= i < |calls| && calls[i].CallSet? ==> !calls[i].freeOld
    requires |luck| <= |calls|
    ensures Safe(m, foreign, calls) && FreedBy(m, calls, luck) == []
    decreases |luck|
  {
    hide After;
    if luck != [] {
      NothingFreed(m, foreign, calls, luck[..|luck| - 1]);
    }
  }

  // ---------- Handing values over ----------

  /** All stored values are live, and none is stored twice. */
  ghost predicate Holding(m: Store, live: set<TaNode>) {
    (forall k :: k in m && m[k] != null ==> m[k] in live) &&
    forall k, l :: k in m && l in m && k != l && m[k] != null ==> m[k] != m[l]
  }

  /** The values that the calls from i on set are live and are not stored yet. */
  ghost predicate ToCome(m: Store, live: set<TaNode>, calls: seq<Call>, i: nat) {
    forall j :: i <= j < |calls| && calls[j].CallSet? && calls[j].val != null ==>
      calls[j].val in live && forall k :: k in m ==> m[k] != calls[j].val
  }

  /** No value is handed over twice. */
  ghost predicate OnceEach(calls: seq<Call>) {
    forall i, j :: 0 <= i < j < |calls| && calls[i].CallSet? && calls[j].CallSet? && calls[i].val != null ==>
      calls[i].val != calls[j].val
  }

  /**
    A caller who hands over live values, each of them once, may mix all calls in any order: what the
    dictionary stores stays live and distinct, whatever allocations fail.
  */
  lemma {:induction false} KeepsHolding(m: Store, live: set<TaNode>, calls: seq<Call>, luck: seq<Luck>)
    requires Holding(m, live) && ToCome(m, live, calls, 0) && OnceEach(calls) && |luck| <= |calls|
    ensures var left := live - Elements(FreedBy(m, calls, luck));
            Holding(After(m, calls, luck), left) && ToCome(After(m, calls, luck), left, calls, |luck|)
    decreases |luck|
  {
    if luck == [] {
      assert live - Elements([]) == live;
      assert Ops(calls, luck) == [];
    } else {
      var init, l := luck[..|luck| - 1], luck[|luck| - 1];
      KeepsHolding(m, live, calls, init);
      assert luck == init + [l];
      AfterStep(m, calls, init, l);
      FreedStep(m, calls, init, l);
      var left := live - Elements(FreedBy(m, calls, init));
      HoldingStep(After(m, calls, init), left, calls, |init|, l);
      assert live - Elements(FreedBy(m, calls, luck)) == left - Elements(Frees(After(m, calls, init), calls[|init|]));
    }
  }

  lemma HoldingStep(m: Store, live: set<TaNode>, calls: seq<Call>, i: nat, l: Luck)
    requires i < |calls| && Holding(m, live) && ToCome(m, live, calls, i) && OnceEach(calls)
    ensures var next, left := Runs.MapStep(m, OpOf(calls[i], l)), live - Elements(Frees(m, calls[i]));
            Holding(next, left) && ToCome(next, left, calls, i + 1)
  {
  }

  lemma HandedOverIsSafe(m: Store, live: set<TaNode>, calls: seq<Call>)
    requires Holding(m, live) && ToCome(m, live, calls, 0) && OnceEach(calls)
    ensures Safe(m, live, calls)
  {
    forall luck: seq<Luck>, x | |luck| < |calls| && x in Frees(After(m, calls, luck), calls[|luck|])
      ensures x in live && x !in FreedBy(m, calls, luck)
    {
      KeepsHolding(m, live, calls, luck);
    }
  }
}
