/** Any sequence of calls on a shard of the LRU cache (util/cache.cc). */
module CacheRuns {
  import opened HandleTables
  import opened CacheModel

  datatype Call = Inserted(id: Id, charge: nat) | LookedUp(id: Id) | Released(h: nat) | Erased(id: Id) | Pruned

  const EMPTY := Model(map[], map[], [], [], map[], [], FIRST)

  /** A client releases only handles it holds; all else may be called at any time. */
  ghost predicate Legal(m: Model, call: Call) {
    call.Released? ==> call.h in m.clients && m.clients[call.h] > 0
  }

  function After(m: Model, call: Call, capacity: nat): Model {
    match call
    case Inserted(id, charge) => Insert(m, capacity, id, charge)
    case LookedUp(id) => Lookup(m, id)
    case Released(h) => Release(m, h)
    case Erased(id) => Erase(m, id)
    case Pruned => Prune(m)
  }

  ghost predicate Step(m: Model, call: Call, t: Model, capacity: nat) {
    Legal(m, call) && t == After(m, call, capacity)
  }

  ghost predicate StepAt(run: seq<Model>, calls: seq<Call>, capacity: nat, k: nat)
    requires k < |calls| && |run| == |calls| + 1
  {
    Step(run[k], calls[k], run[k + 1], capacity)
  }

  ghost predicate Run(run: seq<Model>, calls: seq<Call>, capacity: nat) {
    && |run| == |calls| + 1 && run[0] == EMPTY
    && forall k {:trigger StepAt(run, calls, capacity, k)} :: 0 <= k < |calls| ==> StepAt(run, calls, capacity, k)
  }

  lemma EmptyInv()
    ensures Inv(EMPTY)
  {
    forall h: nat ensures Known(EMPTY, h) {}
  }

  /** Deleters run one after the other: what was deleted stays so. */
  lemma EraseDeletes(m: Model, id: Id)
    requires Inv(m)
    ensures Inv(Erase(m, id)) && m.deleted <= Erase(m, id).deleted
  {
    EraseInv(m, id);
  }

  lemma StepKeeps(m: Model, call: Call, t: Model, capacity: nat)
    requires Inv(m) && Step(m, call, t, capacity)
    ensures Inv(t) && m.deleted <= t.deleted
    ensures call.Inserted? ==> Usage(t) <= capacity || forall h :: h in t.handles && t.handles[h].inCache ==> h in t.clients && t.clients[h] > 0
  {
    match call
    case Inserted(id, charge) =>
      InsertSpec(m, capacity, id, charge);
      InsertDeletes(m, capacity, id, charge);
    case LookedUp(id) => LookupInv(m, id);
    case Released(h) =>
      assert Known(m, h);
      ReleaseInv(m, h);
    case Erased(id) => EraseDeletes(m, id);
    case Pruned => PruneSpec(m);
  }

  lemma InsertDeletes(m: Model, capacity: nat, id: Id, charge: nat)
    requires Inv(m)
    ensures m.deleted <= Insert(m, capacity, id, charge).deleted
  {
    AddedInv(m, capacity, id, charge);
    AddedDeletes(m, capacity, id, charge);
    var k := EvictSpec(Added(m, capacity, id, charge), capacity);
  }

  lemma AddedDeletes(m: Model, capacity: nat, id: Id, charge: nat)
    requires Inv(m)
    ensures m.deleted <= Added(m, capacity, id, charge).deleted
  {}

  /** From the empty cache on, every legal call keeps the invariant. */
  lemma {:induction false} InvAlways(run: seq<Model>, calls: seq<Call>, capacity: nat, k: nat)
    requires Run(run, calls, capacity) && k < |run|
    ensures Inv(run[k])
  {
    if k == 0 {
      EmptyInv();
    } else {
      InvAlways(run, calls, capacity, k - 1);
      assert StepAt(run, calls, capacity, k - 1);
      StepKeeps(run[k - 1], calls[k - 1], run[k], capacity);
    }
  }

  /** No run is cut short: whatever call is legal in its last state can be made. */
  lemma RunGoesOn(run: seq<Model>, calls: seq<Call>, capacity: nat, call: Call)
    requires Run(run, calls, capacity) && Legal(run[|calls|], call)
    ensures Run(run + [After(run[|calls|], call, capacity)], calls + [call], capacity)
  {
    var r, c := run + [After(run[|calls|], call, capacity)], calls + [call];
    forall k: nat | k < |c| ensures StepAt(r, c, capacity, k) {
      assert k < |calls| ==> StepAt(run, calls, capacity, k);
    }
  }

  /** After any calls, the cache is in order: every handle ever given out is either live,
      because the cache or a client holds it, or its deleter has run, exactly once; what a
      client holds is live; and directly after an Insert the usage is within the capacity
      unless clients hold all that is cached. */
  lemma InOrderAlways(run: seq<Model>, calls: seq<Call>, capacity: nat, k: nat)
    requires Run(run, calls, capacity) && k < |run|
    ensures Inv(run[k])
    ensures forall h :: FIRST <= h < run[k].next ==> (h in run[k].handles <==> h !in run[k].deleted)
    ensures forall h :: h in run[k].handles ==> h in run[k].clients && (run[k].clients[h] > 0 || run[k].handles[h].inCache)
    ensures forall h :: h in run[k].clients ==> Live(run[k], h)
    ensures forall i, j :: 0 <= i < j < |run[k].deleted| ==> run[k].deleted[i] != run[k].deleted[j]
    ensures k > 0 && calls[k - 1].Inserted? ==>
              Usage(run[k]) <= capacity || forall h :: h in run[k].handles && run[k].handles[h].inCache ==> h in run[k].clients && run[k].clients[h] > 0
  {
    InvAlways(run, calls, capacity, k);
    LiveAndOld(run[k]);
    forall h | h in run[k].clients ensures Live(run[k], h) {
      HeldIsLive(run[k], h);
    }
    forall h | FIRST <= h < run[k].next
      ensures (h in run[k].handles <==> h !in run[k].deleted)
              && (h in run[k].handles ==> h in run[k].clients && (run[k].clients[h] > 0 || run[k].handles[h].inCache))
    {
      Accounting(run[k], h);
    }
    if k > 0 {
      InvAlways(run, calls, capacity, k - 1);
      assert StepAt(run, calls, capacity, k - 1);
      StepKeeps(run[k - 1], calls[k - 1], run[k], capacity);
    }
  }

  /** A deleter that has run is never undone or repeated by later calls. */
  lemma {:induction false} DeletedForGood(run: seq<Model>, calls: seq<Call>, capacity: nat, j: nat, k: nat)
    requires Run(run, calls, capacity) && j <= k < |run|
    ensures run[j].deleted <= run[k].deleted
    decreases k
  {
    if j < k {
      DeletedForGood(run, calls, capacity, j, k - 1);
      InvAlways(run, calls, capacity, k - 1);
      assert StepAt(run, calls, capacity, k - 1);
      StepKeeps(run[k - 1], calls[k - 1], run[k], capacity);
    }
  }
}
