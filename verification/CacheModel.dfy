/** One shard of the LRU cache (LRUCache in util/cache.cc) on values: what its operations
    do to the handles, the table and the two lists, and what they keep. */
module CacheModel {
  import opened Keys
  import opened Seqs
  import opened HandleTables

  /** LRUHandle without its links. */
  datatype Handle = Handle(id: Id, charge: nat, inCache: bool, refs: nat)

  /** The live handles, the hash table, the two lists (oldest first), and history: the
      references held by clients, the handles whose deleter has run, and how many handles
      were ever allocated (handles are numbered from FIRST). */
  datatype Model = Model(
    handles: map<nat, Handle>, contents: map<Id, nat>, lru: seq<nat>, inUse: seq<nat>,
    clients: map<nat, nat>, deleted: seq<nat>, next: nat)

  const FIRST := 2

  function ChargeOf(handles: map<nat, Handle>, h: nat): nat {
    if h in handles then handles[h].charge else 0
  }

  function Charges(handles: map<nat, Handle>, q: seq<nat>): nat {
    if q == [] then 0 else ChargeOf(handles, q[0]) + Charges(handles, q[1..])
  }

  /** usage_ */
  function Usage(m: Model): nat {
    Charges(m.handles, m.lru) + Charges(m.handles, m.inUse)
  }

  // ------------------------------------------------------------- transitions

  /** LRUCache::Ref, for a client. */
  function Ref(m: Model, e: nat): Model
    requires e in m.handles && e in m.clients
  {
    var h := m.handles[e];
    var t := if h.refs == 1 && h.inCache then m.(lru := Without(m.lru, e), inUse := m.inUse + [e]) else m;
    t.(handles := m.handles[e := h.(refs := h.refs + 1)], clients := m.clients[e := m.clients[e] + 1])
  }

  /** LRUCache::Unref. */
  function Unref(m: Model, e: nat): Model
    requires e in m.handles && m.handles[e].refs > 0
  {
    var h := m.handles[e].(refs := m.handles[e].refs - 1);
    if h.refs == 0 then m.(handles := m.handles - {e}, clients := m.clients - {e}, deleted := m.deleted + [e])
    else
      var t := m.(handles := m.handles[e := h]);
      if h.inCache && h.refs == 1 then t.(inUse := Without(m.inUse, e), lru := m.lru + [e]) else t
  }

  /** The operations are defined everywhere; on a handle that is not live, which Inv rules
      out, they do nothing. */
  predicate Live(m: Model, e: nat) {
    e in m.handles && m.handles[e].refs > 0
  }

  /** LRUCache::Release */
  function Release(m: Model, e: nat): Model {
    if Live(m, e) && e in m.clients && m.clients[e] > 0 then Unref(m.(clients := m.clients[e := m.clients[e] - 1]), e) else m
  }

  /** LRUCache::FinishErase, for a handle that is no longer in the table. */
  function FinishErase(m: Model, e: nat): Model {
    if Live(m, e) then
      Unref(m.(lru := Without(m.lru, e), inUse := Without(m.inUse, e), handles := m.handles[e := m.handles[e].(inCache := false)]), e)
    else m
  }

  // ------------------------------------------------------------- invariants

  /** `pending` has been taken out of the table but not yet out of the cache. */
  ghost predicate HandleOk(m: Model, pending: Option<nat>, h: nat)
    requires h in m.handles
  {
    var e := m.handles[h];
    && h in m.clients && e.refs > 0 && e.refs == m.clients[h] + (if e.inCache then 1 else 0)
    && (h in m.lru <==> e.inCache && e.refs == 1) && (h in m.inUse <==> e.inCache && e.refs >= 2)
    && (e.inCache && pending != Some(h) ==> e.id in m.contents && m.contents[e.id] == h)
    && FIRST <= h < m.next && h !in m.deleted
  }

  ghost predicate ContentOk(m: Model, pending: Option<nat>, id: Id)
    requires id in m.contents
  {
    var h := m.contents[id];
    h in m.handles && m.handles[h].inCache && m.handles[h].id == id && pending != Some(h)
  }

  /** Lists and references are of live handles; an allocated handle is live or deleted. */
  ghost predicate Known(m: Model, h: nat) {
    && (h in m.lru || h in m.inUse || h in m.clients ==> h in m.handles)
    && (h in m.deleted ==> FIRST <= h < m.next)
    && (FIRST <= h < m.next ==> h in m.handles || h in m.deleted)
  }

  ghost predicate Inv'(m: Model, pending: Option<nat>) {
    && NoDup(m.lru) && NoDup(m.inUse) && NoDup(m.deleted) && m.next >= FIRST
    && (forall h {:trigger HandleOk(m, pending, h)} :: h in m.handles ==> HandleOk(m, pending, h))
    && (forall id {:trigger ContentOk(m, pending, id)} :: id in m.contents ==> ContentOk(m, pending, id))
    && (forall h: nat {:trigger Known(m, h)} :: Known(m, h))
    && (pending.Some? ==> pending.value in m.handles && m.handles[pending.value].inCache)
  }

  /** The cached handles are those of the table, each on one list: on lru with one
      reference, on inUse with more; every handle is live until its deleter has run, once. */
  ghost predicate Inv(m: Model) {
    Inv'(m, None)
  }

  lemma LiveAndOld(m: Model)
    requires Inv(m)
    ensures forall h: nat :: h in m.lru || h in m.inUse || h in m.clients ==> h in m.handles
    ensures forall h: nat :: h in m.handles || h in m.deleted ==> FIRST <= h < m.next
  {
    forall h: nat | h in m.lru || h in m.inUse || h in m.clients ensures h in m.handles {
      assert Known(m, h);
    }
    forall h: nat | h in m.handles || h in m.deleted ensures FIRST <= h < m.next {
      assert Known(m, h);
      if h in m.handles {
        assert HandleOk(m, None, h);
      }
    }
  }

  lemma HeldIsLive(m: Model, h: nat)
    requires Inv(m) && h in m.clients
    ensures Live(m, h)
  {
    assert Known(m, h) && HandleOk(m, None, h);
  }

  // ------------------------------------------------------------ charges

  lemma {:induction false} ChargesSame(a: map<nat, Handle>, b: map<nat, Handle>, q: seq<nat>)
    requires forall h :: h in q ==> ChargeOf(a, h) == ChargeOf(b, h)
    ensures Charges(a, q) == Charges(b, q)
  {
    if q != [] {
      ChargesSame(a, b, q[1..]);
    }
  }

  lemma {:induction false} ChargesConcat(a: map<nat, Handle>, p: seq<nat>, q: seq<nat>)
    ensures Charges(a, p + q) == Charges(a, p) + Charges(a, q)
  {
    if p == [] {
      assert p + q == q;
    } else {
      ChargesConcat(a, p[1..], q);
      assert (p + q)[1..] == p[1..] + q;
    }
  }

  lemma {:induction false} ChargesWithout(a: map<nat, Handle>, q: seq<nat>, e: nat)
    ensures Charges(a, Without(q, e)) + (if e in q then ChargeOf(a, e) else 0) == Charges(a, q)
  {
    if q != [] && q[0] != e {
      ChargesWithout(a, q[1..], e);
      assert e in q <==> e in q[1..];
      assert ([q[0]] + Without(q[1..], e))[1..] == Without(q[1..], e);
    }
  }

  // --------------------------------------------------------- steps keep them

  lemma RefInv(m: Model, e: nat)
    requires Inv(m) && e in m.handles && e in m.clients
    ensures Inv(Ref(m, e)) && Usage(Ref(m, e)) == Usage(m)
  {
    var t := Ref(m, e);
    assert HandleOk(m, None, e);
    WithoutMember(m.lru, e);
    if m.handles[e].refs == 1 && m.handles[e].inCache {
      Appended(m.inUse, e);
      ChargesWithout(m.handles, m.lru, e);
      ChargesConcat(m.handles, m.inUse, [e]);
      assert Charges(m.handles, [e]) == ChargeOf(m.handles, e) + Charges(m.handles, [][..]);
    }
    ChargesSame(m.handles, t.handles, t.lru);
    ChargesSame(m.handles, t.handles, t.inUse);
    forall h: nat ensures Known(t, h) {
      assert Known(m, h);
    }
    forall h | h in t.handles ensures HandleOk(t, None, h) {
      assert HandleOk(m, None, h);
    }
    forall id | id in t.contents ensures ContentOk(t, None, id) {
      assert ContentOk(m, None, id);
    }
  }

  lemma UsageKept(m: Model, t: Model, e: nat)
    requires t.lru == m.lru && t.inUse == m.inUse
    requires forall h :: h in m.lru || h in m.inUse ==> ChargeOf(t.handles, h) == ChargeOf(m.handles, h)
    ensures Usage(t) == Usage(m)
  {
    ChargesSame(m.handles, t.handles, m.lru);
    ChargesSame(m.handles, t.handles, m.inUse);
  }

  /** Moving e from inUse to the end of lru. */
  lemma UsageMoved(m: Model, t: Model, e: nat)
    requires NoDup(m.inUse) && e in m.inUse && t.lru == m.lru + [e] && t.inUse == Without(m.inUse, e)
    requires forall h :: ChargeOf(t.handles, h) == ChargeOf(m.handles, h)
    ensures Usage(t) == Usage(m)
  {
    ChargesWithout(m.handles, m.inUse, e);
    ChargesConcat(m.handles, m.lru, [e]);
    assert Charges(m.handles, [e]) == ChargeOf(m.handles, e) + Charges(m.handles, [e][1..]);
    ChargesSame(m.handles, t.handles, t.lru);
    ChargesSame(m.handles, t.handles, t.inUse);
  }

  lemma ReleaseUsage(m: Model, e: nat)
    requires Inv(m) && e in m.handles && e in m.clients && m.clients[e] > 0
    ensures m.handles[e].refs > 0 && Usage(Release(m, e)) == Usage(m)
  {
    assert HandleOk(m, None, e);
    var t, h := Release(m, e), m.handles[e];
    if h.refs > 1 && h.inCache && h.refs == 2 {
      UsageMoved(m, t, e);
    } else {
      UsageKept(m, t, e);
    }
  }

  lemma ReleaseInv(m: Model, e: nat)
    requires Inv(m) && e in m.handles && e in m.clients && m.clients[e] > 0
    ensures m.handles[e].refs > 0 && Inv(Release(m, e))
  {
    assert HandleOk(m, None, e);
    var t := Release(m, e);
    WithoutMember(m.inUse, e);
    if m.handles[e].refs == 1 {
      Appended(m.deleted, e);
    } else if m.handles[e].inCache && m.handles[e].refs == 2 {
      Appended(m.lru, e);
    }
    forall h: nat ensures Known(t, h) {
      assert Known(m, h);
    }
    forall x | x in t.handles ensures HandleOk(t, None, x) {
      assert HandleOk(m, None, x);
    }
    forall id | id in t.contents ensures ContentOk(t, None, id) {
      assert ContentOk(m, None, id);
    }
  }

  /** Taking e off its list takes its charge off the usage. */
  lemma UsageDropped(m: Model, t: Model, e: nat)
    requires t.lru == Without(m.lru, e) && t.inUse == Without(m.inUse, e) && NoDup(m.lru) && NoDup(m.inUse)
    requires e in m.handles && (e in m.lru <==> e !in m.inUse)
    requires forall h :: h != e ==> ChargeOf(t.handles, h) == ChargeOf(m.handles, h)
    ensures Usage(t) + m.handles[e].charge == Usage(m)
  {
    ChargesWithout(m.handles, m.lru, e);
    ChargesWithout(m.handles, m.inUse, e);
    WithoutMember(m.lru, e);
    WithoutMember(m.inUse, e);
    ChargesSame(m.handles, t.handles, t.lru);
    ChargesSame(m.handles, t.handles, t.inUse);
  }

  lemma FinishEraseInv(m: Model, e: nat)
    requires Inv'(m, Some(e))
    ensures m.handles[e].refs > 0 && Inv(FinishErase(m, e)) && Usage(FinishErase(m, e)) + m.handles[e].charge == Usage(m)
  {
    assert HandleOk(m, Some(e), e);
    var t := FinishErase(m, e);
    WithoutMember(m.lru, e);
    WithoutMember(m.inUse, e);
    UsageDropped(m, t, e);
    if m.handles[e].refs == 1 {
      Appended(m.deleted, e);
    }
    forall h: nat ensures Known(t, h) {
      assert Known(m, h);
    }
    forall x | x in t.handles ensures HandleOk(t, None, x) {
      assert HandleOk(m, Some(e), x);
    }
    forall id | id in t.contents ensures ContentOk(t, None, id) {
      assert ContentOk(m, Some(e), id);
    }
  }

  // -------------------------------------------------------------- operations

  function Lookup(m: Model, id: Id): Model {
    if id in m.contents && m.contents[id] in m.handles && m.contents[id] in m.clients then Ref(m, m.contents[id]) else m
  }

  lemma LookupInv(m: Model, id: Id)
    requires Inv(m)
    ensures Inv(Lookup(m, id)) && Usage(Lookup(m, id)) == Usage(m)
    ensures id in m.contents ==> m.contents[id] in m.handles && m.contents[id] in m.clients
  {
    if id in m.contents {
      assert ContentOk(m, None, id);
      assert HandleOk(m, None, m.contents[id]);
      RefInv(m, m.contents[id]);
    }
  }

  /** table_.Remove */
  function Untable(m: Model, id: Id): Model {
    m.(contents := m.contents - {id})
  }

  lemma UntableInv(m: Model, id: Id)
    requires Inv(m) && id in m.contents
    ensures Inv'(Untable(m, id), Some(m.contents[id])) && Usage(Untable(m, id)) == Usage(m)
  {
    var e, t := m.contents[id], Untable(m, id);
    assert ContentOk(m, None, id);
    forall h: nat ensures Known(t, h) {
      assert Known(m, h);
    }
    forall x | x in t.handles ensures HandleOk(t, Some(e), x) {
      assert HandleOk(m, None, x);
    }
    forall i | i in t.contents ensures ContentOk(t, Some(e), i) {
      assert ContentOk(m, None, i);
    }
  }

  /** LRUCache::Erase */
  function Erase(m: Model, id: Id): Model {
    if id in m.contents then FinishErase(Untable(m, id), m.contents[id]) else m
  }

  lemma PendingIsListed(m: Model, e: nat)
    requires Inv'(m, Some(e))
    ensures e in m.handles && m.handles[e].refs > 0 && (e in m.lru || e in m.inUse) && m.handles[e].charge <= Usage(m)
  {
    assert HandleOk(m, Some(e), e);
    FinishEraseInv(m, e);
  }

  /** Erasing an entry of the table. */
  lemma EraseHit(m: Model, id: Id)
    requires Inv(m) && id in m.contents
    ensures var e := m.contents[id];
            && e in m.handles && m.handles[e].refs > 0 && (e in m.lru || e in m.inUse) && m.handles[e].charge <= Usage(m)
            && Erase(m, id) == FinishErase(Untable(m, id), e)
  {
    UntableInv(m, id);
    PendingIsListed(Untable(m, id), m.contents[id]);
    FinishEraseInv(Untable(m, id), m.contents[id]);
  }

  lemma EraseInv(m: Model, id: Id)
    requires Inv(m)
    ensures Inv(Erase(m, id)) && Erase(m, id).contents == m.contents - {id}
    ensures Usage(Erase(m, id)) + (if id in m.contents then ChargeOf(m.handles, m.contents[id]) else 0) == Usage(m)
  {
    if id in m.contents {
      UntableInv(m, id);
      FinishEraseInv(Untable(m, id), m.contents[id]);
    } else {
      assert m.contents - {id} == m.contents;
    }
  }

  /** The oldest entry on lru is only held by the cache, so erasing it deletes it. */
  lemma EraseOldest(m: Model)
    requires Inv(m) && m.lru != []
    ensures var e := m.lru[0];
            && e in m.handles && m.handles[e].id in m.contents && m.contents[m.handles[e].id] == e
            && var t := Erase(m, m.handles[e].id);
               t.lru == m.lru[1..] && t.inUse == m.inUse && t.deleted == m.deleted + [e] && t.handles == m.handles - {e} && t.next == m.next
  {
    var e := m.lru[0];
    assert e in m.lru;
    LiveAndOld(m);
    assert HandleOk(m, None, e);
    WithoutMember(m.inUse, e);
    assert Without(m.lru, e) == m.lru[1..];
  }

  /** One turn of the loops in Insert and Prune. */
  function WithoutOldest(m: Model): Model
    requires m.lru != []
  {
    if m.lru[0] in m.handles then Erase(m, m.handles[m.lru[0]].id) else m
  }

  /** The eviction loop of Insert. */
  function Evict(m: Model, capacity: nat): Model
    decreases |m.lru|
  {
    if Usage(m) <= capacity || m.lru == [] then m
    else
      var t := WithoutOldest(m);
      if |t.lru| < |m.lru| then Evict(t, capacity) else t
  }

  function SetOf(q: seq<nat>): set<nat> {
    set h | h in q
  }

  /** What eviction comes to: the k oldest entries of lru are gone and deleted, oldest
      first, and k is the least number that suffices. */
  ghost predicate Evicted(m: Model, t: Model, capacity: nat, k: nat) {
    && k <= |m.lru| && t.lru == m.lru[k..] && t.inUse == m.inUse && t.deleted == m.deleted + m.lru[..k]
    && t.handles == m.handles - SetOf(m.lru[..k]) && t.next == m.next
    && Usage(t) + Charges(m.handles, m.lru[..k]) == Usage(m)
    && (Usage(t) <= capacity || t.lru == [])
    && (forall j {:trigger m.lru[..j]} :: 0 <= j < k ==> Usage(m) > capacity + Charges(m.handles, m.lru[..j]))
  }

  lemma {:induction false} EvictSpec(m: Model, capacity: nat) returns (k: nat)
    requires Inv(m)
    ensures Inv(Evict(m, capacity)) && Evicted(m, Evict(m, capacity), capacity, k)
    decreases |m.lru|
  {
    if Usage(m) <= capacity || m.lru == [] {
      k := 0;
      assert m.lru[..0] == [] && m.lru[0..] == m.lru;
      assert m.handles - SetOf(m.lru[..0]) == m.handles;
    } else {
      var e := m.lru[0];
      EraseOldest(m);
      EraseInv(m, m.handles[e].id);
      var n := Erase(m, m.handles[e].id);
      var j := EvictSpec(n, capacity);
      k := j + 1;
      OneEvictedMore(m, n, Evict(m, capacity), capacity, j);
    }
  }

  /** The charges of a prefix, with and without the oldest entry. */
  lemma PrefixCharges(m: map<nat, Handle>, n: map<nat, Handle>, q: seq<nat>, i: nat)
    requires NoDup(q) && i < |q| && n == m - {q[0]}
    ensures Charges(m, q[..i + 1]) == ChargeOf(m, q[0]) + Charges(n, q[1..][..i])
  {
    assert q[..i + 1] == [q[0]] + q[1..][..i];
    assert q[..i + 1][1..] == q[1..][..i];
    forall h | h in q[1..][..i] ensures h != q[0] {
      var x :| 0 <= x < i && q[1..][x] == h;
      assert q[x + 1] == h;
    }
    ChargesSame(m, n, q[1..][..i]);
  }

  lemma PrefixSet(q: seq<nat>, j: nat)
    requires j < |q|
    ensures SetOf(q[..j + 1]) == {q[0]} + SetOf(q[1..][..j]) && q[..j + 1] == [q[0]] + q[1..][..j] && q[j + 1..] == q[1..][j..]
  {
    assert q[..j + 1] == [q[0]] + q[1..][..j];
  }

  lemma OneEvictedMore(m: Model, n: Model, t: Model, capacity: nat, j: nat)
    requires m.lru != [] && NoDup(m.lru) && Usage(m) > capacity && n.lru == m.lru[1..] && n.inUse == m.inUse && n.next == m.next
    requires n.deleted == m.deleted + [m.lru[0]] && n.handles == m.handles - {m.lru[0]}
    requires Usage(n) + ChargeOf(m.handles, m.lru[0]) == Usage(m) && Evicted(n, t, capacity, j)
    ensures Evicted(m, t, capacity, j + 1)
  {
    var q := m.lru;
    PrefixSet(q, j);
    PrefixCharges(m.handles, n.handles, q, j);
    forall i | 0 <= i < j + 1 ensures Usage(m) > capacity + Charges(m.handles, q[..i]) {
      if i > 0 {
        PrefixCharges(m.handles, n.handles, q, i - 1);
        assert Usage(n) > capacity + Charges(n.handles, n.lru[..i - 1]);
      }
    }
  }

  /** A new handle for the caller, not in the cache. */
  function Allocated(m: Model, id: Id, charge: nat): Model {
    m.(handles := m.handles[m.next := Handle(id, charge, false, 1)], clients := m.clients[m.next := 1], next := m.next + 1)
  }

  /** A new handle that the cache holds as well, on the in-use list. */
  function Cached(m: Model, id: Id, charge: nat): Model {
    m.(handles := m.handles[m.next := Handle(id, charge, true, 2)], clients := m.clients[m.next := 1], next := m.next + 1,
       inUse := m.inUse + [m.next])
  }

  lemma AllocatedInv(m: Model, id: Id, charge: nat)
    requires Inv(m)
    ensures Inv(Allocated(m, id, charge)) && Usage(Allocated(m, id, charge)) == Usage(m)
  {
    var e, t := m.next, Allocated(m, id, charge);
    LiveAndOld(m);
    UsageKept(m, t, e);
    forall h: nat ensures Known(t, h) {
      assert Known(m, h);
    }
    forall h | h in t.handles ensures HandleOk(t, None, h) {
      if h != e {
        assert HandleOk(m, None, h);
      }
    }
    forall i | i in t.contents ensures ContentOk(t, None, i) {
      assert ContentOk(m, None, i);
    }
  }

  /** table_.Insert makes the entry it replaces pending. */
  function Tabled(m: Model, id: Id, e: nat): Model {
    m.(contents := m.contents[id := e])
  }

  function Replaced(m: Model, id: Id): Option<nat> {
    if id in m.contents then Some(m.contents[id]) else None
  }

  lemma CachedUsage(m: Model, id: Id, charge: nat)
    requires Inv(m)
    ensures Usage(Tabled(Cached(m, id, charge), id, m.next)) == Usage(m) + charge
  {
    var e, t := m.next, Tabled(Cached(m, id, charge), id, m.next);
    LiveAndOld(m);
    ChargesConcat(t.handles, m.inUse, [e]);
    assert Charges(t.handles, [e]) == charge + Charges(t.handles, [e][1..]);
    ChargesSame(m.handles, t.handles, m.lru);
    ChargesSame(m.handles, t.handles, m.inUse);
  }

  lemma CachedInv(m: Model, id: Id, charge: nat)
    requires Inv(m)
    ensures Inv'(Tabled(Cached(m, id, charge), id, m.next), Replaced(m, id))
  {
    var e, t, old' := m.next, Tabled(Cached(m, id, charge), id, m.next), Replaced(m, id);
    LiveAndOld(m);
    assert id in m.contents ==> ContentOk(m, None, id);
    Appended(m.inUse, e);
    forall h: nat ensures Known(t, h) {
      assert Known(m, h);
    }
    forall h | h in t.handles ensures HandleOk(t, old', h) {
      if h != e {
        assert HandleOk(m, None, h);
      }
    }
    forall i | i in t.contents ensures ContentOk(t, old', i) {
      if i != id {
        assert ContentOk(m, None, i);
      }
    }
  }

  /** What Insert has done before it evicts. */
  function Added(m: Model, capacity: nat, id: Id, charge: nat): Model {
    if capacity == 0 then Allocated(m, id, charge)
    else
      var t, old' := Tabled(Cached(m, id, charge), id, m.next), Replaced(m, id);
      if old' == None then t else FinishErase(t, old'.value)
  }

  lemma NextIsNew(m: Model)
    requires Inv(m)
    ensures m.next !in m.lru && m.next !in m.inUse && m.next >= FIRST
  {
    LiveAndOld(m);
  }

  lemma AddedUncached(m: Model, id: Id, charge: nat)
    requires Inv(m)
    ensures Added(m, 0, id, charge) == Allocated(m, id, charge) && Usage(Added(m, 0, id, charge)) == Usage(m)
  {
    AllocatedInv(m, id, charge);
  }

  lemma AddedFresh(m: Model, capacity: nat, id: Id, charge: nat)
    requires Inv(m) && capacity > 0 && id !in m.contents
    ensures Added(m, capacity, id, charge) == Tabled(Cached(m, id, charge), id, m.next)
    ensures Usage(Added(m, capacity, id, charge)) == Usage(m) + charge
  {
    CachedInv(m, id, charge);
    CachedUsage(m, id, charge);
  }

  lemma AddedReplacing(m: Model, capacity: nat, id: Id, charge: nat)
    requires Inv(m) && capacity > 0 && id in m.contents
    ensures var t, e := Tabled(Cached(m, id, charge), id, m.next), m.contents[id];
            && e in t.handles && t.handles[e].refs > 0 && (e in t.lru || e in t.inUse) && t.handles[e].charge <= Usage(m) + charge
            && Added(m, capacity, id, charge) == FinishErase(t, e)
            && Usage(Added(m, capacity, id, charge)) + t.handles[e].charge == Usage(m) + charge
  {
    var t, e := Tabled(Cached(m, id, charge), id, m.next), m.contents[id];
    CachedInv(m, id, charge);
    CachedUsage(m, id, charge);
    PendingIsListed(t, e);
    FinishEraseInv(t, e);
  }

  lemma AddedInv(m: Model, capacity: nat, id: Id, charge: nat)
    requires Inv(m)
    ensures Inv(Added(m, capacity, id, charge))
    ensures Added(m, capacity, id, charge).contents == if capacity == 0 then m.contents else m.contents[id := m.next]
  {
    if capacity == 0 {
      AllocatedInv(m, id, charge);
    } else {
      CachedInv(m, id, charge);
      CachedUsage(m, id, charge);
      if id in m.contents {
        FinishEraseInv(Tabled(Cached(m, id, charge), id, m.next), m.contents[id]);
      }
    }
  }

  /** LRUCache::Insert */
  function Insert(m: Model, capacity: nat, id: Id, charge: nat): Model {
    Evict(Added(m, capacity, id, charge), capacity)
  }

  /** After Insert the cache is within its capacity, or all it holds is in use by clients;
      the new handle is not evicted, and a lookup finds it unless caching is off. */
  lemma InsertSpec(m: Model, capacity: nat, id: Id, charge: nat)
    requires Inv(m)
    ensures var t := Insert(m, capacity, id, charge);
            && Inv(t) && (Usage(t) <= capacity || forall h :: h in t.handles && t.handles[h].inCache ==> h in t.clients && t.clients[h] > 0)
            && m.next in t.clients && t.clients[m.next] == 1
            && (capacity > 0 ==> id in t.contents && t.contents[id] == m.next)
  {
    AddedInv(m, capacity, id, charge);
    var n := Added(m, capacity, id, charge);
    var k := EvictSpec(n, capacity);
    var t := Evict(n, capacity);
    forall h | h in t.handles && t.handles[h].inCache && t.lru == [] ensures h in t.clients && t.clients[h] > 0 {
      assert HandleOk(t, None, h);
    }
    NewHandleStays(m, capacity, id, charge, k);
  }

  lemma AddedHasNew(m: Model, capacity: nat, id: Id, charge: nat)
    requires Inv(m) && Inv(Added(m, capacity, id, charge))
    ensures var e, n := m.next, Added(m, capacity, id, charge);
            && e in n.handles && n.handles[e] == Handle(id, charge, capacity > 0, if capacity > 0 then 2 else 1) && e !in n.lru
  {
    var e, n := m.next, Added(m, capacity, id, charge);
    if id in m.contents {
      assert ContentOk(m, None, id);
      assert HandleOk(m, None, m.contents[id]);
    }
    assert e in n.handles && n.handles[e] == Handle(id, charge, capacity > 0, if capacity > 0 then 2 else 1);
    assert HandleOk(n, None, e);
  }

  lemma NewHandleStays(m: Model, capacity: nat, id: Id, charge: nat, k: nat)
    requires Inv(m) && Inv(Added(m, capacity, id, charge)) && Inv(Insert(m, capacity, id, charge))
    requires Evicted(Added(m, capacity, id, charge), Insert(m, capacity, id, charge), capacity, k)
    ensures var t := Insert(m, capacity, id, charge);
            && m.next in t.clients && t.clients[m.next] == 1
            && (capacity > 0 ==> id in t.contents && t.contents[id] == m.next)
  {
    var e, n, t := m.next, Added(m, capacity, id, charge), Insert(m, capacity, id, charge);
    AddedHasNew(m, capacity, id, charge);
    assert forall h :: h in n.lru[..k] ==> h in n.lru;
    assert e in t.handles;
    assert HandleOk(t, None, e);
  }

  /** LRUCache::Prune */
  function Prune(m: Model): Model
    decreases |m.lru|
  {
    if m.lru == [] then m
    else
      var t := WithoutOldest(m);
      if |t.lru| < |m.lru| then Prune(t) else t
  }

  lemma {:induction false} PruneSpec(m: Model)
    requires Inv(m)
    ensures Inv(Prune(m)) && Prune(m).lru == [] && Prune(m).inUse == m.inUse && Prune(m).deleted == m.deleted + m.lru
    decreases |m.lru|
  {
    if m.lru != [] {
      EraseOldest(m);
      EraseInv(m, m.handles[m.lru[0]].id);
      PruneSpec(Erase(m, m.handles[m.lru[0]].id));
      assert m.lru == [m.lru[0]] + m.lru[1..];
    }
  }

  /** The fate of a handle: live, while the cache or a client holds it, or else its deleter
      has run, once.  It is in the cache exactly if the table leads to it. */
  lemma Accounting(m: Model, h: nat)
    requires Inv(m) && FIRST <= h < m.next
    ensures h in m.handles <==> h !in m.deleted
    ensures h in m.handles ==> h in m.clients && (m.clients[h] > 0 || m.handles[h].inCache)
    ensures (h in m.handles && m.handles[h].inCache) <==> exists id :: id in m.contents && m.contents[id] == h
    ensures forall i, j :: 0 <= i < j < |m.deleted| ==> m.deleted[i] != m.deleted[j]
  {
    assert Known(m, h);
    if h in m.handles {
      assert HandleOk(m, None, h);
    }
    forall id | id in m.contents && m.contents[id] == h ensures h in m.handles && m.handles[h].inCache {
      assert ContentOk(m, None, id);
    }
  }
}
