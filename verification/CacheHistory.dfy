/** What a shard of the LRU cache (util/cache.cc) holds, in terms of the calls that were
    made on it alone: who holds a handle, which entry an id leads to, and in which order
    idle entries are evicted. */
module CacheHistory {
  import opened Keys
  import opened Seqs
  import opened HandleTables
  import opened CacheModel
  import opened CacheRuns

  // ------------------------------------------------------------ one call

  function Held(m: Model, h: nat): nat {
    if h in m.clients then m.clients[h] else 0
  }

  /** The call hands out a reference to h. */
  ghost predicate Gives(m: Model, call: Call, h: nat) {
    match call
    case Inserted(_, _) => h == m.next
    case LookedUp(id) => id in m.contents && m.contents[id] == h
    case _ => false
  }

  ghost predicate SameHandle(m: Model, t: Model, h: nat) {
    h in t.handles ==> h in m.handles && t.handles[h].id == m.handles[h].id && t.handles[h].charge == m.handles[h].charge
  }

  ghost predicate SameEntry(m: Model, t: Model, id: Id) {
    && (id in t.contents ==> id in m.contents && t.contents[id] == m.contents[id])
    && (id in m.contents && id !in t.contents ==> m.contents[id] in m.lru)
  }

  /** Idle entries may have gone, and nothing else has changed. */
  ghost predicate Shrunk(m: Model, t: Model) {
    && OrderKept(m.lru, t.lru) && t.next == m.next
    && (forall h {:trigger Held(t, h)} :: Held(t, h) == Held(m, h))
    && (forall h {:trigger SameHandle(m, t, h)} :: SameHandle(m, t, h))
    && forall id {:trigger SameEntry(m, t, id)} :: SameEntry(m, t, id)
  }

  lemma ShrunkOnce(m: Model)
    requires Inv(m) && m.lru != []
    ensures Inv(WithoutOldest(m)) && Shrunk(m, WithoutOldest(m)) && |WithoutOldest(m).lru| < |m.lru|
  {
    var e, t := m.lru[0], WithoutOldest(m);
    EraseOldest(m);
    EraseInv(m, m.handles[e].id);
    assert e in m.lru;
    LiveAndOld(m);
    assert HandleOk(m, None, e);
    WithoutKeepsOrder(m.lru, e);
    forall h ensures Held(t, h) == Held(m, h) {}
    forall h ensures SameHandle(m, t, h) {}
    forall id ensures SameEntry(m, t, id) {}
  }

  lemma ShrunkTwice(m: Model, n: Model, t: Model)
    requires Shrunk(m, n) && Shrunk(n, t)
    ensures Shrunk(m, t)
  {
    forall h ensures Held(t, h) == Held(m, h) {
      assert Held(n, h) == Held(m, h);
    }
    forall h ensures SameHandle(m, t, h) {
      assert SameHandle(m, n, h) && SameHandle(n, t, h);
    }
    forall id ensures SameEntry(m, t, id) {
      assert SameEntry(m, n, id) && SameEntry(n, t, id);
    }
  }

  lemma {:induction false} EvictShrinks(m: Model, capacity: nat)
    requires Inv(m)
    ensures Shrunk(m, Evict(m, capacity))
    decreases |m.lru|
  {
    if Usage(m) > capacity && m.lru != [] {
      ShrunkOnce(m);
      EvictShrinks(WithoutOldest(m), capacity);
      ShrunkTwice(m, WithoutOldest(m), Evict(m, capacity));
    }
  }

  lemma {:induction false} PruneShrinks(m: Model)
    requires Inv(m)
    ensures Shrunk(m, Prune(m))
    decreases |m.lru|
  {
    if m.lru != [] {
      ShrunkOnce(m);
      PruneShrinks(WithoutOldest(m));
      ShrunkTwice(m, WithoutOldest(m), Prune(m));
    }
  }

  /** What FinishErase does besides taking the handle out of the cache. */
  lemma FinishEraseEffect(m: Model, e: nat)
    requires Inv'(m, Some(e))
    ensures var t := FinishErase(m, e);
            && OrderKept(m.lru, t.lru) && t.contents == m.contents
            && (forall h :: Held(t, h) == Held(m, h)) && forall h :: SameHandle(m, t, h)
  {
    assert HandleOk(m, Some(e), e);
    WithoutKeepsOrder(m.lru, e);
  }

  /** Insert, before it evicts. */
  lemma AddedEffect(m: Model, capacity: nat, id: Id, charge: nat)
    requires Inv(m)
    ensures var t := Added(m, capacity, id, charge);
            && OrderKept(m.lru, t.lru) && t.next == m.next + 1 && t.contents == (if capacity > 0 then m.contents[id := m.next] else m.contents)
            && (forall h :: Held(t, h) == Held(m, h) + if h == m.next then 1 else 0)
            && m.next in t.handles && t.handles[m.next].id == id && t.handles[m.next].charge == charge
            && forall h :: h != m.next ==> SameHandle(m, t, h)
  {
    LiveAndOld(m);
    NewHandle(m, capacity, id, charge);
    if capacity > 0 && id in m.contents {
      CachedInv(m, id, charge);
      FinishEraseEffect(Tabled(Cached(m, id, charge), id, m.next), m.contents[id]);
    }
  }

  lemma NewHandle(m: Model, capacity: nat, id: Id, charge: nat)
    requires Inv(m)
    ensures var t := Added(m, capacity, id, charge);
            m.next in t.handles && t.handles[m.next].id == id && t.handles[m.next].charge == charge
  {
    AddedInv(m, capacity, id, charge);
    AddedHasNew(m, capacity, id, charge);
  }

  // ------------------------------------------------------- what a call changes

  /** References come from Insert and Lookup, and go with Release. */
  ghost predicate CountsRight(m: Model, call: Call, t: Model, h: nat) {
    Held(t, h) + (if call == Released(h) then 1 else 0) == Held(m, h) + if Gives(m, call, h) then 1 else 0
  }

  /** Idle entries keep their order; only a Release makes one more idle, at the end. */
  ghost predicate OrderRight(m: Model, call: Call, t: Model, g: nat, h: nat) {
    StandsBefore(t.lru, g, h) ==> StandsBefore(m.lru, g, h) || (call == Released(h) && g in m.lru && h !in m.lru)
  }

  ghost predicate IdleRight(m: Model, call: Call, t: Model, h: nat) {
    && (h in t.lru ==> h in m.lru || call == Released(h))
    && (h in m.lru ==> call != Released(h))
  }

  /** The last Insert decides, until Erase takes the entry out or it is evicted or pruned. */
  ghost predicate EntryRight(m: Model, call: Call, t: Model, capacity: nat, id: Id) {
    if call.Inserted? && call.id == id && capacity > 0 then id in t.contents && t.contents[id] == m.next
    else if call == Erased(id) then id !in t.contents
    else if call.Inserted? || call.Pruned? then SameEntry(m, t, id)
    else (id in t.contents <==> id in m.contents) && (id in t.contents ==> t.contents[id] == m.contents[id])
  }

  ghost predicate HandleRight(m: Model, call: Call, t: Model, h: nat) {
    h in t.handles ==> (h == m.next && call == Inserted(t.handles[h].id, t.handles[h].charge)) || SameHandle(m, t, h)
  }

  ghost predicate Right(m: Model, call: Call, t: Model, capacity: nat) {
    && t.next == m.next + (if call.Inserted? then 1 else 0)
    && (forall h {:trigger CountsRight(m, call, t, h)} :: CountsRight(m, call, t, h))
    && (forall g, h {:trigger OrderRight(m, call, t, g, h)} :: OrderRight(m, call, t, g, h))
    && (forall h {:trigger IdleRight(m, call, t, h)} :: IdleRight(m, call, t, h))
    && (forall id {:trigger EntryRight(m, call, t, capacity, id)} :: EntryRight(m, call, t, capacity, id))
    && forall h {:trigger HandleRight(m, call, t, h)} :: HandleRight(m, call, t, h)
  }

  lemma InsertedRight(m: Model, id: Id, charge: nat, capacity: nat)
    requires Inv(m)
    ensures Right(m, Inserted(id, charge), Insert(m, capacity, id, charge), capacity)
  {
    var call, n, t := Inserted(id, charge), Added(m, capacity, id, charge), Insert(m, capacity, id, charge);
    AddedEffect(m, capacity, id, charge);
    AddedInv(m, capacity, id, charge);
    EvictShrinks(n, capacity);
    InsertSpec(m, capacity, id, charge);
    forall h ensures CountsRight(m, call, t, h) {
      assert Held(t, h) == Held(n, h);
    }
    forall g, h ensures OrderRight(m, call, t, g, h) {
      assert StandsBefore(t.lru, g, h) ==> StandsBefore(n.lru, g, h);
    }
    forall i ensures EntryRight(m, call, t, capacity, i) {
      assert SameEntry(n, t, i);
    }
    forall h ensures HandleRight(m, call, t, h) {
      assert SameHandle(n, t, h);
    }
  }

  lemma LookedUpRight(m: Model, id: Id, capacity: nat)
    requires Inv(m)
    ensures Right(m, LookedUp(id), Lookup(m, id), capacity)
  {
    var call, t := LookedUp(id), Lookup(m, id);
    LookupInv(m, id);
    if id in m.contents {
      WithoutKeepsOrder(m.lru, m.contents[id]);
    }
    forall h ensures CountsRight(m, call, t, h) {}
    forall g, h ensures OrderRight(m, call, t, g, h) {}
    forall h ensures HandleRight(m, call, t, h) {}
  }

  lemma ReleasedRight(m: Model, e: nat, capacity: nat)
    requires Inv(m) && e in m.clients && m.clients[e] > 0
    ensures Right(m, Released(e), Release(m, e), capacity)
  {
    var call, t := Released(e), Release(m, e);
    HeldIsLive(m, e);
    assert HandleOk(m, None, e);
    assert e !in m.lru;
    forall h ensures CountsRight(m, call, t, h) {}
    forall g, h ensures OrderRight(m, call, t, g, h) {
      if StandsBefore(t.lru, g, h) && t.lru == m.lru + [e] {
        AppendedOrder(m.lru, e, g, h);
      }
    }
    forall h ensures HandleRight(m, call, t, h) {}
  }

  lemma ErasedRight(m: Model, id: Id, capacity: nat)
    requires Inv(m)
    ensures Right(m, Erased(id), Erase(m, id), capacity)
  {
    var call, t := Erased(id), Erase(m, id);
    EraseInv(m, id);
    if id in m.contents {
      UntableInv(m, id);
      FinishEraseEffect(Untable(m, id), m.contents[id]);
    }
    forall h ensures CountsRight(m, call, t, h) {}
    forall g, h ensures OrderRight(m, call, t, g, h) {}
    forall h ensures HandleRight(m, call, t, h) {}
  }

  lemma PrunedRight(m: Model, capacity: nat)
    requires Inv(m)
    ensures Right(m, Pruned, Prune(m), capacity)
  {
    var call, t := Pruned, Prune(m);
    PruneSpec(m);
    PruneShrinks(m);
    forall h ensures CountsRight(m, call, t, h) {
      assert Held(t, h) == Held(m, h);
    }
    forall g, h ensures OrderRight(m, call, t, g, h) {}
    forall id ensures EntryRight(m, call, t, capacity, id) {
      assert SameEntry(m, t, id);
    }
    forall h ensures HandleRight(m, call, t, h) {
      assert SameHandle(m, t, h);
    }
  }

  lemma CallRight(run: seq<Model>, calls: seq<Call>, capacity: nat, k: nat)
    requires Run(run, calls, capacity) && k < |calls|
    ensures Inv(run[k]) && Inv(run[k + 1]) && Right(run[k], calls[k], run[k + 1], capacity)
  {
    InvAlways(run, calls, capacity, k);
    InvAlways(run, calls, capacity, k + 1);
    assert StepAt(run, calls, capacity, k);
    match calls[k]
    case Inserted(id, charge) => InsertedRight(run[k], id, charge, capacity);
    case LookedUp(id) => LookedUpRight(run[k], id, capacity);
    case Released(h) => ReleasedRight(run[k], h, capacity);
    case Erased(id) => ErasedRight(run[k], id, capacity);
    case Pruned => PrunedRight(run[k], capacity);
  }

  // --------------------------------------------------------------- references

  /** How often the first k calls have handed out h, */
  ghost function Given(run: seq<Model>, calls: seq<Call>, h: nat, k: nat): nat
    requires k <= |calls| < |run|
  {
    if k == 0 then 0 else Given(run, calls, h, k - 1) + if Gives(run[k - 1], calls[k - 1], h) then 1 else 0
  }

  /** and how often it was given back. */
  ghost function Returned(calls: seq<Call>, h: nat, k: nat): nat
    requires k <= |calls|
  {
    if k == 0 then 0 else Returned(calls, h, k - 1) + if calls[k - 1] == Released(h) then 1 else 0
  }

  /** Clients hold what they were given and have not released. */
  lemma {:induction false} HeldAsGiven(run: seq<Model>, calls: seq<Call>, capacity: nat, h: nat, k: nat)
    requires Run(run, calls, capacity) && k <= |calls|
    ensures Held(run[k], h) + Returned(calls, h, k) == Given(run, calls, h, k)
  {
    if k > 0 {
      HeldAsGiven(run, calls, capacity, h, k - 1);
      CallRight(run, calls, capacity, k - 1);
      assert CountsRight(run[k - 1], calls[k - 1], run[k], h);
    }
  }

  ghost predicate InsertedAs(run: seq<Model>, calls: seq<Call>, h: nat, id: Id, charge: nat, i: nat)
    requires i < |calls| < |run|
  {
    calls[i] == Inserted(id, charge) && run[i].next == h
  }

  /** Handles are numbered by the calls of Insert, and keep the identity and the charge that
      they were inserted with. */
  lemma {:induction false} HandleAsInserted(run: seq<Model>, calls: seq<Call>, capacity: nat, h: nat, k: nat)
    requires Run(run, calls, capacity) && k <= |calls|
    ensures h in run[k].handles ==> exists i {:trigger InsertedAs(run, calls, h, run[k].handles[h].id, run[k].handles[h].charge, i)} ::
              0 <= i < k && InsertedAs(run, calls, h, run[k].handles[h].id, run[k].handles[h].charge, i)
  {
    if k > 0 {
      HandleAsInserted(run, calls, capacity, h, k - 1);
      CallRight(run, calls, capacity, k - 1);
      assert HandleRight(run[k - 1], calls[k - 1], run[k], h);
      if h in run[k].handles && !SameHandle(run[k - 1], run[k], h) {
        assert InsertedAs(run, calls, h, run[k].handles[h].id, run[k].handles[h].charge, k - 1);
      }
    }
  }

  // ------------------------------------------------------------------ entries

  /** Call i inserted the entry, and no later one has replaced or erased it. */
  ghost predicate LastInsert(calls: seq<Call>, id: Id, k: nat, i: nat)
    requires k <= |calls|
  {
    && i < k && calls[i].Inserted? && calls[i].id == id
    && forall j {:trigger calls[j]} :: i < j < k ==> calls[j] != Erased(id) && !(calls[j].Inserted? && calls[j].id == id)
  }

  /** The entry was idle when an Insert or a Prune made room. */
  ghost predicate PushedOut(run: seq<Model>, calls: seq<Call>, h: nat, i: nat, k: nat, j: nat)
    requires k <= |calls| < |run|
  {
    i < j < k && h in run[j].lru && (calls[j].Inserted? || calls[j].Pruned?)
  }

  ghost predicate LedByLast(run: seq<Model>, calls: seq<Call>, id: Id, k: nat)
    requires k <= |calls| < |run|
  {
    id in run[k].contents ==> exists i: nat {:trigger LastInsert(calls, id, k, i)} :: LastInsert(calls, id, k, i) && run[k].contents[id] == run[i].next
  }

  ghost predicate LostIdle(run: seq<Model>, calls: seq<Call>, id: Id, k: nat, i: nat)
    requires k <= |calls| < |run|
  {
    LastInsert(calls, id, k, i) && id !in run[k].contents ==>
      exists j: nat {:trigger PushedOut(run, calls, run[i].next, i, k, j)} :: PushedOut(run, calls, run[i].next, i, k, j)
  }

  /** Without a capacity no id leads anywhere.  With one */
  lemma {:induction false} CachingIsOff(run: seq<Model>, calls: seq<Call>, id: Id, k: nat)
    requires Run(run, calls, 0) && k <= |calls|
    ensures id !in run[k].contents
  {
    if k > 0 {
      CachingIsOff(run, calls, id, k - 1);
      CallRight(run, calls, 0, k - 1);
      assert EntryRight(run[k - 1], calls[k - 1], run[k], 0, id);
    }
  }

  /** an id leads to the handle of its last Insert, */
  lemma {:induction false} EntryIsLastInsert(run: seq<Model>, calls: seq<Call>, capacity: nat, id: Id, k: nat)
    requires Run(run, calls, capacity) && k <= |calls| && capacity > 0
    ensures LedByLast(run, calls, id, k)
  {
    if k > 0 {
      EntryIsLastInsert(run, calls, capacity, id, k - 1);
      CallRight(run, calls, capacity, k - 1);
      assert EntryRight(run[k - 1], calls[k - 1], run[k], capacity, id);
      if id in run[k].contents {
        if calls[k - 1].Inserted? && calls[k - 1].id == id {
          assert LastInsert(calls, id, k, k - 1);
        } else {
          assert SameEntry(run[k - 1], run[k], id);
          var i: nat :| LastInsert(calls, id, k - 1, i) && run[k - 1].contents[id] == run[i].next;
          assert LastInsert(calls, id, k, i);
        }
      }
    }
  }

  /** unless Erase has taken the entry out, or it was pushed out while it was idle. */
  lemma {:induction false} LastInsertIsEntry(run: seq<Model>, calls: seq<Call>, capacity: nat, id: Id, k: nat, i: nat)
    requires Run(run, calls, capacity) && k <= |calls| && capacity > 0
    ensures LostIdle(run, calls, id, k, i)
  {
    if LastInsert(calls, id, k, i) && id !in run[k].contents {
      CallRight(run, calls, capacity, k - 1);
      assert EntryRight(run[k - 1], calls[k - 1], run[k], capacity, id);
      assert i < k - 1;
      LastInsertIsEntry(run, calls, capacity, id, k - 1, i);
      if id in run[k - 1].contents {
        EntryIsLastInsert(run, calls, capacity, id, k - 1);
        var l: nat :| LastInsert(calls, id, k - 1, l) && run[k - 1].contents[id] == run[l].next;
        assert calls[i].Inserted? && calls[l].Inserted?;
        assert SameEntry(run[k - 1], run[k], id);
        assert PushedOut(run, calls, run[i].next, i, k, k - 1);
      } else {
        var j: nat :| PushedOut(run, calls, run[i].next, i, k - 1, j);
        assert PushedOut(run, calls, run[i].next, i, k, j);
      }
    }
  }

  // ----------------------------------------------------------------- eviction

  /** Call i was the last Release of h, and h has been idle ever since. */
  ghost predicate IdleSince(run: seq<Model>, calls: seq<Call>, h: nat, k: nat, i: nat)
    requires k <= |calls| < |run|
  {
    && i < k && calls[i] == Released(h) && (forall j {:trigger calls[j]} :: i < j < k ==> calls[j] != Released(h))
    && forall j {:trigger run[j]} :: i < j <= k ==> h in run[j].lru
  }

  lemma {:induction false} IdleHasRelease(run: seq<Model>, calls: seq<Call>, capacity: nat, h: nat, k: nat) returns (i: nat)
    requires Run(run, calls, capacity) && k <= |calls| && h in run[k].lru
    ensures IdleSince(run, calls, h, k, i)
  {
    CallRight(run, calls, capacity, k - 1);
    assert IdleRight(run[k - 1], calls[k - 1], run[k], h);
    if calls[k - 1] == Released(h) {
      i := k - 1;
    } else {
      i := IdleHasRelease(run, calls, capacity, h, k - 1);
    }
  }

  /** Of two idle entries the one that was released for the last time earlier stands first. */
  lemma {:induction false} OldestFirst(run: seq<Model>, calls: seq<Call>, capacity: nat, g: nat, h: nat, k: nat) returns (i: nat, j: nat)
    requires Run(run, calls, capacity) && k <= |calls| && StandsBefore(run[k].lru, g, h)
    ensures i < j && IdleSince(run, calls, g, k, i) && IdleSince(run, calls, h, k, j)
  {
    CallRight(run, calls, capacity, k - 1);
    assert OrderRight(run[k - 1], calls[k - 1], run[k], g, h);
    assert IdleRight(run[k - 1], calls[k - 1], run[k], g) && IdleRight(run[k - 1], calls[k - 1], run[k], h);
    if StandsBefore(run[k - 1].lru, g, h) {
      i, j := OldestFirst(run, calls, capacity, g, h, k - 1);
    } else {
      i := IdleHasRelease(run, calls, capacity, g, k - 1);
      j := k - 1;
    }
  }

  /** d was idle and is gone after the call, though the call has not replaced it. */
  ghost predicate EvictedBy(m: Model, call: Call, t: Model, d: nat) {
    call.Inserted? && d in m.lru && d !in t.handles && !(call.id in m.contents && m.contents[call.id] == d)
  }

  lemma AddedStillIdle(m: Model, capacity: nat, id: Id, charge: nat, d: nat)
    requires Inv(m) && d in m.lru && !(id in m.contents && m.contents[id] == d)
    ensures d in Added(m, capacity, id, charge).lru
  {
    if capacity > 0 && id in m.contents {
      WithoutMember(m.lru, m.contents[id]);
    }
  }

  /** What Insert evicts stands in front of what it leaves. */
  lemma EvictedStandsFirst(m: Model, capacity: nat, id: Id, charge: nat, d: nat, h: nat)
    requires Inv(m) && EvictedBy(m, Inserted(id, charge), Insert(m, capacity, id, charge), d) && h in Insert(m, capacity, id, charge).lru
    ensures StandsBefore(m.lru, d, h)
  {
    var n, t := Added(m, capacity, id, charge), Insert(m, capacity, id, charge);
    AddedInv(m, capacity, id, charge);
    AddedEffect(m, capacity, id, charge);
    AddedStillIdle(m, capacity, id, charge, d);
    var k := EvictSpec(n, capacity);
    LiveAndOld(t);
    AcrossTheCut(n.lru, k, d, h);
  }

  /** Insert evicts the entries whose last Release is the longest ago. */
  lemma EvictsOldest(run: seq<Model>, calls: seq<Call>, capacity: nat, k: nat, d: nat, h: nat) returns (i: nat, j: nat)
    requires Run(run, calls, capacity) && k < |calls| && EvictedBy(run[k], calls[k], run[k + 1], d) && h in run[k + 1].lru
    ensures i < j && IdleSince(run, calls, d, k, i) && IdleSince(run, calls, h, k, j)
  {
    InvAlways(run, calls, capacity, k);
    assert StepAt(run, calls, capacity, k);
    EvictedStandsFirst(run[k], capacity, calls[k].id, calls[k].charge, d, h);
    i, j := OldestFirst(run, calls, capacity, d, h, k);
  }
}
