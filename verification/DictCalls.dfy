/**
  Whole runs of calls on one dictionary on the heap: what they return, free and leave.
*/
module DictCalls {
  import opened Buckets
  import opened DictHeap
  import opened DictSpec
  import opened DictTraces
  import opened Ta
  import Runs = DictRuns

  // ---------- One call ----------

  /** What is seen of a dictionary: what it stands for, the foreign allocations, and the log of all allocations. */
  datatype Snap = Snap(dict: Runs.Dict<TaNode?>, foreign: set<TaNode>, log: seq<bool>)

  ghost function Seen(d: Dict): (s: Snap)
    reads d, d.order, d.gc
    ensures s.dict == d.View() && s.foreign == d.Foreign() && s.log == d.gc.log
  {
    Snap(d.View(), d.Foreign(), d.gc.log)
  }

  /** A call that returned r has made now of was. */
  ghost predicate StepIs(was: Snap, hash: HashFn, call: Call, luck: Luck, r: int, now: Snap) {
    var op, m := OpOf(call, luck), MapOf(was.dict.items);
    was.dict.nbuckets > 0 && now.dict == Runs.Step(was.dict, hash, op) && r == Runs.Answer(m, op) &&
    now.foreign == was.foreign - Elements(Frees(m, call)) &&
    now.log == was.log + Runs.Asked(was.dict, op) && (false !in Runs.Asked(was.dict, op) ==> luck == LUCKY)
  }

  lemma SetIsStep(was: Snap, hash: HashFn, call: Call, luck: Luck, r: int, now: Snap)
    requires was.dict.nbuckets > 0 && call.CallSet?
    requires (now.dict, r) == Runs.Set(was.dict, call.key, call.val, luck.first, luck.grow)
    requires AskedFor(was.dict, call.key, call.val, luck.first, luck.grow, was.log, now.log)
    requires now.foreign == was.foreign - Elements(Frees(MapOf(was.dict.items), call))
    ensures StepIs(was, hash, call, luck, r, now)
  {
    Runs.InMap(was.dict.items, call.key);
    hide Runs.Asked, MapOf, Frees, IndexOf, Runs.Grow;
  }

  lemma DelIsStep(was: Snap, hash: HashFn, key: string, r: int, now: Snap)
    requires was.dict.nbuckets > 0 && (now.dict, r) == Runs.Del(was.dict, key)
    requires now.foreign == was.foreign && now.log == was.log
    ensures StepIs(was, hash, CallDel(key), LUCKY, r, now)
  {
    Runs.InMap(was.dict.items, key);
    hide MapOf, IndexOf;
  }

  lemma RehashIsStep(was: Snap, hash: HashFn, n: nat, ok: bool, r: int, now: Snap)
    requires was.dict.nbuckets > 0 && (now.dict, r) == Runs.Rehash(was.dict, hash, n, ok)
    requires now.foreign == was.foreign && now.log == was.log + Runs.AskedForRehash(n, ok)
    requires false !in Runs.AskedForRehash(n, ok) ==> ok
    ensures StepIs(was, hash, CallRehash(n), Luck(ok, true), r, now)
  {
    hide MapOf, IsPowerOfTwo, Chained;
  }

  /** What an owned set frees, seen from the entries and from the map. */
  lemma FreesIs(d: Dict, call: Call)
    requires call.CallSet?
    ensures Elements(Frees(MapOf(d.View().items), call)) == if call.freeOld then d.Freed(call.key, call.val) else {}
  {
    Runs.InMap(d.View().items, call.key);
    hide MapOf, IndexOf;
  }

  ghost predicate Dead(nodes: set<TaNode>)
    reads nodes`freed
  {
    forall x :: x in nodes ==> x.freed
  }

  /** Freed nodes are out of the reach of the allocator. */
  lemma DeadOut(d: Dict, dead: set<TaNode>)
    requires d.Valid() && Dead(dead)
    ensures forall x :: x in d.gc.live ==> x !in dead
  {
  }

  lemma BeforeCalls(d: Dict)
    requires d.Valid()
    ensures d.nbuckets == d.View().nbuckets > 0 && Runs.Valid(d.View()) && d.count == |d.View().items|
  {
  }

  lemma NothingDies(d: Dict, call: Call)
    requires !call.CallSet?
    ensures Elements(Frees(MapOf(d.View().items), call)) == {}
    ensures call.CallRehash? && Legal(call) ==> call.n <= 0xffff_ffff
  {
  }

  lemma DeadTogether(d: Dict, dead: set<TaNode>, more: set<TaNode>)
    requires Dead(dead) && (more == {} || d.AllFreed(more))
    ensures Dead(dead + more)
  {
  }

  /** One call; what was freed before it stays freed. */
  method Do(d: Dict, call: Call, ghost dead: set<TaNode>) returns (r: int, ghost luck: Luck)
    requires d.Valid() && Legal(call) && Elements(Frees(MapOf(d.View().items), call)) <= d.Foreign()
    requires Dead(dead)
    modifies d.Footprint()
    ensures d.Valid() && fresh(d.own - old(d.own))
    ensures StepIs(old(Seen(d)), d.hash, call, luck, r, Seen(d))
    ensures Dead(dead + Elements(Frees(old(MapOf(d.View().items)), call)))
  {
    hide *;
    d.InFootprint();
    BeforeCalls(d);
    DeadOut(d, dead);
    ghost var was := Seen(d);
    ghost var more := Elements(Frees(MapOf(was.dict.items), call));
    match call {
      case CallSet(key, val, freeOld) =>
        FreesIs(d, call);
        ghost var entryOk, growOk;
        r, entryOk, growOk := d.SetImpl(key, val, freeOld);
        luck := Luck(entryOk, growOk);
        SetIsStep(was, d.hash, call, luck, r, Seen(d));
      case CallDel(key) =>
        NothingDies(d, call);
        r := d.Del(key);
        luck := LUCKY;
        DelIsStep(was, d.hash, key, r, Seen(d));
      case CallRehash(n) =>
        NothingDies(d, call);
        ghost var ok;
        r, ok := d.Rehash(n);
        luck := Luck(ok, true);
        RehashIsStep(was, d.hash, n, ok, r, Seen(d));
    }
    DeadTogether(d, dead, more);
  }

  // ---------- Runs ----------

  /** The same for the first calls of a sequence, each with its result. */
  ghost predicate RunIs(was: Snap, hash: HashFn, calls: seq<Call>, luck: seq<Luck>, rcs: seq<int>, now: Snap) {
    was.dict.nbuckets > 0 && |rcs| == |luck| <= |calls| &&
    var m, ops := MapOf(was.dict.items), Ops(calls, luck);
    now.dict == Runs.Run(was.dict, hash, ops) && MapOf(now.dict.items) == After(m, calls, luck) &&
    AnswersAre(m, calls, luck, rcs) &&
    now.foreign == was.foreign - Elements(FreedBy(m, calls, luck)) &&
    LogIs(was.log, Runs.AskedIn(was.dict, hash, ops), luck, now.log)
  }

  /** The log has grown by what was asked for; all is well if nothing of that failed. */
  ghost predicate LogIs(log: seq<bool>, asked: seq<bool>, luck: seq<Luck>, nowLog: seq<bool>) {
    nowLog == log + asked && (false !in asked ==> AllLucky(luck))
  }

  /** Every call returns what the plain map before it says. */
  ghost predicate AnswersAre(m: Store, calls: seq<Call>, luck: seq<Luck>, rcs: seq<int>)
    requires |rcs| == |luck| <= |calls|
  {
    forall i :: 0 <= i < |rcs| ==> rcs[i] == Runs.Answer(After(m, calls, luck[..i]), OpOf(calls[i], luck[i]))
  }

  ghost predicate AllLucky(luck: seq<Luck>) {
    forall i :: 0 <= i < |luck| ==> luck[i] == LUCKY
  }

  lemma AnswersStep(m: Store, calls: seq<Call>, luck: seq<Luck>, rcs: seq<int>, l: Luck, r: int)
    requires |rcs| == |luck| < |calls| && AnswersAre(m, calls, luck, rcs)
    requires r == Runs.Answer(After(m, calls, luck), OpOf(calls[|luck|], l))
    ensures AnswersAre(m, calls, luck + [l], rcs + [r])
  {
    hide After, Runs.Answer;
    forall i | 0 <= i < |rcs + [r]|
      ensures (rcs + [r])[i] == Runs.Answer(After(m, calls, (luck + [l])[..i]), OpOf(calls[i], (luck + [l])[i]))
    {
      assert (luck + [l])[..i] == luck[..i];
      assert luck[..|luck|] == luck;
    }
  }

  lemma RunGoesOn(was: Runs.Dict<TaNode?>, hash: HashFn, calls: seq<Call>, luck: seq<Luck>, l: Luck)
    requires was.nbuckets > 0 && |luck| < |calls|
    ensures var now, op := Runs.Run(was, hash, Ops(calls, luck)), OpOf(calls[|luck|], l);
            Runs.Run(was, hash, Ops(calls, luck + [l])) == Runs.Step(now, hash, op) &&
            Runs.AskedIn(was, hash, Ops(calls, luck + [l]))
              == Runs.AskedIn(was, hash, Ops(calls, luck)) + Runs.Asked(now, op)
  {
    OpsStep(calls, luck, l);
    hide Runs.Step, Runs.Asked, Ops;
    var ops := Ops(calls, luck + [l]);
    assert ops[..|ops| - 1] == Ops(calls, luck);
  }

  lemma LogStep(log: seq<bool>, asked: seq<bool>, luck: seq<Luck>, nowLog: seq<bool>, more: seq<bool>, l: Luck)
    requires LogIs(log, asked, luck, nowLog) && (false !in more ==> l == LUCKY)
    ensures LogIs(log, asked + more, luck + [l], nowLog + more)
  {
    assert log + (asked + more) == log + asked + more;
    if false !in asked + more {
      assert forall b :: b in asked || b in more ==> b in asked + more;
    }
  }

  /** What a further call makes of a run. */
  lemma RunStep(was: Snap, hash: HashFn, calls: seq<Call>, luck: seq<Luck>, rcs: seq<int>, now: Snap,
                l: Luck, r: int, next: Snap)
    requires RunIs(was, hash, calls, luck, rcs, now)
    requires |luck| < |calls| && Legal(calls[|luck|]) && Runs.Valid(now.dict)
    requires StepIs(now, hash, calls[|luck|], l, r, next)
    ensures RunIs(was, hash, calls, luck + [l], rcs + [r], next)
  {
    hide *;
    var m, call := MapOf(was.dict.items), calls[|luck|];
    var op := OpOf(call, l);
    RunParts(was, hash, calls, luck, rcs, now);
    StepParts(now, hash, call, l, r, next);
    RunGoesOn(was.dict, hash, calls, luck, l);
    AfterStep(m, calls, luck, l);
    Runs.StepIsMapStep(now.dict, hash, op);
    AnswersStep(m, calls, luck, rcs, l, r);
    LogStep(was.log, Runs.AskedIn(was.dict, hash, Ops(calls, luck)), luck, now.log, Runs.Asked(now.dict, op), l);
    FreedStep(m, calls, luck, l);
    ForeignStep(was.foreign, Elements(FreedBy(m, calls, luck)), Elements(Frees(After(m, calls, luck), call)));
    RunTogether(was, hash, calls, luck + [l], rcs + [r], next);
  }

  lemma RunParts(was: Snap, hash: HashFn, calls: seq<Call>, luck: seq<Luck>, rcs: seq<int>, now: Snap)
    requires RunIs(was, hash, calls, luck, rcs, now)
    ensures was.dict.nbuckets > 0 && |rcs| == |luck| <= |calls|
    ensures now.dict == Runs.Run(was.dict, hash, Ops(calls, luck))
    ensures MapOf(now.dict.items) == After(MapOf(was.dict.items), calls, luck)
    ensures AnswersAre(MapOf(was.dict.items), calls, luck, rcs)
    ensures now.foreign == was.foreign - Elements(FreedBy(MapOf(was.dict.items), calls, luck))
    ensures LogIs(was.log, Runs.AskedIn(was.dict, hash, Ops(calls, luck)), luck, now.log)
  {
  }

  lemma StepParts(was: Snap, hash: HashFn, call: Call, luck: Luck, r: int, now: Snap)
    requires StepIs(was, hash, call, luck, r, now) && Legal(call)
    ensures was.dict.nbuckets > 0 && now.dict == Runs.Step(was.dict, hash, OpOf(call, luck))
    ensures r == Runs.Answer(MapOf(was.dict.items), OpOf(call, luck))
    ensures now.foreign == was.foreign - Elements(Frees(MapOf(was.dict.items), call))
    ensures now.log == was.log + Runs.Asked(was.dict, OpOf(call, luck))
    ensures false !in Runs.Asked(was.dict, OpOf(call, luck)) ==> luck == LUCKY
    ensures OpOf(call, luck).OpRehash? ==> OpOf(call, luck).n <= 0xffff_ffff
  {
  }

  lemma ForeignStep(foreign: set<TaNode>, freed: set<TaNode>, more: set<TaNode>)
    ensures foreign - freed - more == foreign - (freed + more)
  {
  }

  lemma RunTogether(was: Snap, hash: HashFn, calls: seq<Call>, luck: seq<Luck>, rcs: seq<int>, now: Snap)
    requires was.dict.nbuckets > 0 && |rcs| == |luck| <= |calls|
    requires now.dict == Runs.Run(was.dict, hash, Ops(calls, luck))
    requires MapOf(now.dict.items) == After(MapOf(was.dict.items), calls, luck)
    requires AnswersAre(MapOf(was.dict.items), calls, luck, rcs)
    requires now.foreign == was.foreign - Elements(FreedBy(MapOf(was.dict.items), calls, luck))
    requires LogIs(was.log, Runs.AskedIn(was.dict, hash, Ops(calls, luck)), luck, now.log)
    ensures RunIs(was, hash, calls, luck, rcs, now)
  {
  }

  lemma RunStarts(was: Snap, hash: HashFn, calls: seq<Call>)
    requires Runs.Valid(was.dict)
    ensures RunIs(was, hash, calls, [], [], was)
    ensures Elements(FreedBy(MapOf(was.dict.items), calls, [])) == {}
  {
    assert Ops(calls, []) == [];
    assert was.log + [] == was.log;
    hide Ops;
  }

  /** The next call of a safe sequence frees only what it may. */
  lemma MayCall(was: Snap, hash: HashFn, calls: seq<Call>, luck: seq<Luck>, rcs: seq<int>, now: Snap)
    requires RunIs(was, hash, calls, luck, rcs, now) && |luck| < |calls|
    requires Safe(MapOf(was.dict.items), was.foreign, calls)
    ensures Elements(Frees(MapOf(now.dict.items), calls[|luck|])) <= now.foreign
  {
    SafeNow(MapOf(was.dict.items), was.foreign, calls, luck);
    hide MapOf, Safe, After, FreedBy, Frees, Runs.Run, Ops;
  }

  /** What may change now could change before, or has been allocated since. */
  lemma ParcelOut(d: Dict, own: set<object>, foreign: set<TaNode>)
    requires d.Foreign() <= foreign
    ensures forall o :: o in d.Footprint() ==>
              o in d.own - own || o in {d, d.gc, d.gc.list} + own + foreign + set x | x in foreign :: x.list
  {
  }

  lemma ForeignShrinks(was: Snap, hash: HashFn, calls: seq<Call>, luck: seq<Luck>, rcs: seq<int>, now: Snap)
    requires RunIs(was, hash, calls, luck, rcs, now)
    ensures now.foreign <= was.foreign && |luck| == |rcs| <= |calls|
  {
  }

  /** What a run leaves: the values that owned sets have replaced are freed, each once, and nothing else foreign. */
  ghost predicate FreedAre(freed: seq<TaNode>, foreign: set<TaNode>)
    reads freed`freed
  {
    Distinct(freed) && Elements(freed) <= foreign && Dead(Elements(freed))
  }

  lemma RunEnds(d: Dict, was: Snap, calls: seq<Call>, luck: seq<Luck>)
    requires d.Valid() && Safe(MapOf(was.dict.items), was.foreign, calls) && |luck| <= |calls|
    requires Dead(Elements(FreedBy(MapOf(was.dict.items), calls, luck)))
    ensures FreedAre(FreedBy(MapOf(was.dict.items), calls, luck), was.foreign) && d.count == |MapOf(d.View().items)|
  {
    FreedOnce(MapOf(was.dict.items), was.foreign, calls, luck);
    BeforeCalls(d);
    Runs.SizeIsCount(d.View());
    hide Dict.Valid, MapOf, FreedBy, Safe;
  }

  /**
    After any calls, with any allocation failing, the dictionary holds the keys and values of a plain
    map, every call has returned what that map says, and exactly the values that owned sets have
    replaced are freed.
  */
  method Perform(d: Dict, calls: seq<Call>) returns (rcs: seq<int>, ghost luck: seq<Luck>)
    requires d.Valid() && forall i :: 0 <= i < |calls| ==> Legal(calls[i])
    requires Safe(MapOf(d.View().items), d.Foreign(), calls)
    modifies d.Footprint()
    ensures d.Valid() && d.count == |MapOf(d.View().items)| && |luck| == |calls| && fresh(d.own - old(d.own))
    ensures RunIs(old(Seen(d)), d.hash, calls, luck, rcs, Seen(d))
    ensures FreedAre(FreedBy(old(MapOf(d.View().items)), calls, luck), old(d.Foreign()))
  {
    hide *;
    ghost var was, own := Seen(d), d.own;
    ghost var m := MapOf(was.dict.items);
    rcs, luck := [], [];
    BeforeCalls(d);
    RunStarts(was, d.hash, calls);
    d.FootprintIs();
    NoneDead();
    for i := 0 to |calls|
      invariant d.Valid() && fresh(d.own - own) && |luck| == i
      invariant RunIs(was, d.hash, calls, luck, rcs, Seen(d))
      invariant Dead(Elements(FreedBy(m, calls, luck)))
    {
      ForeignShrinks(was, d.hash, calls, luck, rcs, Seen(d));
      ParcelOut(d, own, was.foreign);
      BeforeCalls(d);
      MayCall(was, d.hash, calls, luck, rcs, Seen(d));
      ghost var now, nowOwn := Seen(d), d.own;
      ghost var l;
      var r;
      r, l := Do(d, calls[i], Elements(FreedBy(m, calls, luck)));
      FreshTwice(d.own, nowOwn, own);
      RunStep(was, d.hash, calls, luck, rcs, now, l, r, Seen(d));
      RunParts(was, d.hash, calls, luck, rcs, now);
      FreedStep(m, calls, luck, l);
      rcs, luck := rcs + [r], luck + [l];
    }
    RunEnds(d, was, calls, luck);
  }

  lemma NoneDead()
    ensures Dead({})
  {
  }

  lemma FreshTwice(now: set<object>, mid: set<object>, own: set<object>)
    ensures now - own <= (now - mid) + (mid - own)
  {
  }

  /**
    The same for a caller who hands over live values, each of them once: what the dictionary stores
    is live at the end, and no value is stored twice.
  */
  method PerformOwned(d: Dict, calls: seq<Call>) returns (rcs: seq<int>, ghost luck: seq<Luck>)
    requires d.Valid() && forall i :: 0 <= i < |calls| ==> Legal(calls[i])
    requires Holding(MapOf(d.View().items), d.Foreign()) && OnceEach(calls)
    requires ToCome(MapOf(d.View().items), d.Foreign(), calls, 0)
    modifies d.Footprint()
    ensures d.Valid() && d.count == |MapOf(d.View().items)| && |luck| == |calls| && fresh(d.own - old(d.own))
    ensures RunIs(old(Seen(d)), d.hash, calls, luck, rcs, Seen(d))
    ensures FreedAre(FreedBy(old(MapOf(d.View().items)), calls, luck), old(d.Foreign()))
    ensures Holding(MapOf(d.View().items), d.Foreign())
  {
    hide *;
    ghost var was := Seen(d);
    HandedOverIsSafe(MapOf(was.dict.items), was.foreign, calls);
    rcs, luck := Perform(d, calls);
    KeepsHolding(MapOf(was.dict.items), was.foreign, calls, luck);
    RunParts(was, d.hash, calls, luck, rcs, Seen(d));
  }

  // ---------- From a new dictionary on ----------

  /** Every allocation of a context, and their links. */
  ghost function Memory(gc: TaNode): set<object>
    reads gc
  {
    {gc, gc.list} + LinkSet(gc, gc.live) + set x | x in gc.live
  }

  lemma MayChange(gc: TaNode, live: seq<TaNode>, d: Dict)
    requires d.gc == gc && d.Foreign() == set x | x in live
    ensures forall o :: o in d.Footprint() ==>
              o == d || o == gc || o in d.own || o in LinkSet(gc, live) || o in live
  {
  }

  /**
    What a run of sets and deletes has made of a new dictionary of n buckets: all that RunIs says, and
    every chain lists its keys in order of their latest fresh insertion. When no allocation has failed
    and the table is below 2^31 buckets, it is less than three quarters full, and growing it has moved
    fewer than two entries per fresh insertion.
  */
  ghost predicate Built(d: Dict, n: nat, foreign: set<TaNode>, log: seq<bool>, calls: seq<Call>, luck: seq<Luck>,
                        rcs: seq<int>)
    reads *
  {
    d.Valid() && n > 0 && d.nbuckets > 0 && |luck| == |calls| &&
    RunIs(Snap(Runs.New(n), foreign, log), d.hash, calls, luck, rcs, Seen(d)) &&
    (forall b :: 0 <= b < d.nbuckets ==>
      Runs.StampsGrow(Runs.New(n), d.hash, Ops(calls, luck),
                      Select(d.View().items, ItemHash(d.hash), d.nbuckets, b))) &&
    (AllLucky(luck) && d.nbuckets < Runs.MAX_BUCKETS ==>
      4 * d.count < 3 * d.nbuckets && FewMoved(n, d.hash, Ops(calls, luck)))
  }

  /** All doublings of a run together move fewer than two entries per fresh insertion. */
  predicate FewMoved(n: nat, hash: HashFn, ops: seq<Op>)
    requires n > 0
  {
    var d := Runs.New<TaNode?>(n);
    Runs.MovedIn(d, hash, ops) == 0 || Runs.MovedIn(d, hash, ops) < 2 * Runs.FreshIn(d, hash, ops)
  }

  lemma AfterBuilding(d: Dict, n: nat, foreign: set<TaNode>, log: seq<bool>, calls: seq<Call>, luck: seq<Luck>,
                      rcs: seq<int>)
    requires d.Valid() && n >= 4 && IsPowerOfTwo(n) && |luck| == |calls|
    requires RunIs(Snap(Runs.New(n), foreign, log), d.hash, calls, luck, rcs, Seen(d))
    requires forall i :: 0 <= i < |calls| ==> !calls[i].CallRehash?
    ensures Built(d, n, foreign, log, calls, luck, rcs)
  {
    hide *;
    var ops := Ops(calls, luck);
    RunParts(Snap(Runs.New(n), foreign, log), d.hash, calls, luck, rcs, Seen(d));
    NoRehash(calls, luck);
    BeforeCalls(d);
    forall b | 0 <= b < d.nbuckets
      ensures Runs.StampsGrow(Runs.New(n), d.hash, ops, Select(d.View().items, ItemHash(d.hash), d.nbuckets, b))
    {
      Runs.ChainsInOrder<TaNode?>(n, d.hash, ops, b);
    }
    if AllLucky(luck) && d.nbuckets < Runs.MAX_BUCKETS {
      LoadBuilt(n, d.hash, calls, luck);
    }
    BuiltIs(d, n, foreign, log, calls, luck, rcs);
  }

  lemma BuiltIs(d: Dict, n: nat, foreign: set<TaNode>, log: seq<bool>, calls: seq<Call>, luck: seq<Luck>,
                rcs: seq<int>)
    requires d.Valid() && n > 0 && d.nbuckets > 0 && |luck| == |calls|
    requires RunIs(Snap(Runs.New(n), foreign, log), d.hash, calls, luck, rcs, Seen(d))
    requires forall b :: 0 <= b < d.nbuckets ==>
               Runs.StampsGrow(Runs.New(n), d.hash, Ops(calls, luck),
                               Select(d.View().items, ItemHash(d.hash), d.nbuckets, b))
    requires AllLucky(luck) && d.nbuckets < Runs.MAX_BUCKETS ==>
               4 * d.count < 3 * d.nbuckets && FewMoved(n, d.hash, Ops(calls, luck))
    ensures Built(d, n, foreign, log, calls, luck, rcs)
  {
    hide RunIs, Runs.StampsGrow, Dict.Valid, Dict.View, FewMoved, AllLucky, Select;
  }

  lemma NoRehash(calls: seq<Call>, luck: seq<Luck>)
    requires |luck| <= |calls| && forall i :: 0 <= i < |calls| ==> !calls[i].CallRehash?
    ensures forall i :: 0 <= i < |Ops(calls, luck)| ==> !Ops(calls, luck)[i].OpRehash?
    ensures AllLucky(luck) ==> forall i :: 0 <= i < |Ops(calls, luck)| ==> Runs.Smooth(Ops(calls, luck)[i])
  {
  }

  lemma LoadBuilt(n: nat, hash: HashFn, calls: seq<Call>, luck: seq<Luck>)
    requires n >= 4 && IsPowerOfTwo(n) && |luck| <= |calls| && AllLucky(luck)
    requires forall i :: 0 <= i < |calls| ==> !calls[i].CallRehash?
    requires Runs.Run(Runs.New<TaNode?>(n), hash, Ops(calls, luck)).nbuckets < Runs.MAX_BUCKETS
    ensures var r := Runs.Run(Runs.New<TaNode?>(n), hash, Ops(calls, luck));
            4 * |r.items| < 3 * r.nbuckets && FewMoved(n, hash, Ops(calls, luck))
  {
    NoRehash(calls, luck);
    Runs.GrowthBound<TaNode?>(n, hash, Ops(calls, luck));
    hide AllLucky, Ops, IsPowerOfTwo, Runs.Run, Runs.MovedIn, Runs.FreshIn, Runs.Smooth;
  }

  lemma StartBuilding(d: Dict, n: nat, live: seq<TaNode>)
    requires d.Valid() && d.View() == Runs.New(n) && n >= 4
    ensures MapOf(d.View().items) == map[] && n > 0 && Elements(live) == set x | x in live
  {
  }

  /** dict_new_sized, and sets and deletes on the new dictionary. */
  method BuildUp(gc: TaNode, hash: HashFn, n: nat, calls: seq<Call>)
    returns (d: Dict?, rcs: seq<int>, ghost luck: seq<Luck>)
    requires gc.Valid() && n <= 0xffff_ffff
    requires forall i :: 0 <= i < |calls| ==> Legal(calls[i]) && !calls[i].CallRehash?
    requires Safe(map[], Elements(gc.live), calls)
    modifies Memory(gc)
    ensures d == null ==> gc.Valid() && gc.live == old(gc.live) && rcs == []
    ensures d != null ==>
              fresh(d) && d.hash == hash &&
              Built(d, n, Elements(old(gc.live)), old(gc.log) + [true, true], calls, luck, rcs)
    ensures d != null ==> |luck| == |calls| && FreedAre(FreedBy(map[], calls, luck), Elements(old(gc.live)))
  {
    hide *;
    ghost var live, log := gc.live, gc.log;
    rcs, luck := [], [];
    MemoryIs(gc);
    d := DictNewSized(gc, hash, n);
    if d != null {
      StartBuilding(d, n, live);
      MayChange(gc, live, d);
      rcs, luck := Perform(d, calls);
      AfterBuilding(d, n, Elements(live), log + [true, true], calls, luck, rcs);
    }
  }

  lemma MemoryIs(gc: TaNode)
    ensures Memory(gc) == {gc, gc.list} + LinkSet(gc, gc.live) + set x | x in gc.live
  {
  }
}
