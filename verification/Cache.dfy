/** One shard of the LRU cache with its hash table and its two linked lists in memory
    (LRUCache in util/cache.cc). */
module Cache {
  import opened Keys
  import opened Seqs
  import opened HandleTables
  import opened CacheModel
  import opened Rings

  /** The dummy heads lru_ and in_use_. */
  const LRU := 0
  const IN_USE := 1

  /** Both lists are rings, and share no node. */
  ghost predicate Lists(links: Memory, lru: seq<nat>, inUse: seq<nat>) {
    && Ring(links, LRU, lru) && Ring(links, IN_USE, inUse)
    && (forall h :: h in lru ==> h >= FIRST && h !in inUse) && (forall h :: h in inUse ==> h >= FIRST)
  }

  lemma {:induction false} WithoutAt(q: seq<nat>, i: nat)
    requires NoDup(q) && i < |q|
    ensures Without(q, q[i]) == q[..i] + q[i + 1..]
  {
    if i > 0 {
      assert q[0] != q[i];
      WithoutAt(q[1..], i - 1);
      assert q[1..][i - 1] == q[i];
      assert q[..i] + q[i + 1..] == [q[0]] + (q[1..][..i - 1] + q[1..][i..]);
    }
  }

  /** LRU_Remove */
  method Unlink(links: Memory, e: nat, ghost lru: seq<nat>, ghost inUse: seq<nat>) returns (m: Memory)
    requires Lists(links, lru, inUse) && (e in lru || e in inUse) && e in links && links[e].next in links && links[e].prev in links
    ensures Lists(m, Without(lru, e), Without(inUse, e)) && m.Keys == links.Keys
  {
    WithoutMember(lru, e);
    WithoutMember(inUse, e);
    ghost var head, q := if e in lru then LRU else IN_USE, if e in lru then lru else inUse;
    ghost var i: nat :| i < |q| && q[i] == e;
    WithoutAt(q, i);
    m := Rings.Remove(links, e, head, q, i);
    if e in lru {
      RingFrame(links, m, IN_USE, inUse);
    } else {
      RingFrame(links, m, LRU, lru);
    }
  }

  /** LRU_Append(&in_use_, e) */
  method AppendInUse(links: Memory, e: nat, ghost lru: seq<nat>, ghost inUse: seq<nat>) returns (m: Memory)
    requires Lists(links, lru, inUse) && e !in lru && e !in inUse && e >= FIRST
    ensures Lists(m, lru, inUse + [e])
  {
    m := Rings.Append(links, IN_USE, e, inUse);
    RingFrame(links, m, LRU, lru);
  }

  /** LRU_Append(&lru_, e) */
  method AppendLru(links: Memory, e: nat, ghost lru: seq<nat>, ghost inUse: seq<nat>) returns (m: Memory)
    requires Lists(links, lru, inUse) && e !in lru && e !in inUse && e >= FIRST
    ensures Lists(m, lru + [e], inUse)
  {
    m := Rings.Append(links, LRU, e, lru);
    RingFrame(links, m, IN_USE, inUse);
  }

  lemma OnRing(links: Memory, lru: seq<nat>, inUse: seq<nat>, e: nat)
    requires Lists(links, lru, inUse) && (e in lru || e in inUse)
    ensures e in links && links[e].next in links && links[e].prev in links && e >= FIRST
  {
    var head, q := if e in lru then LRU else IN_USE, if e in lru then lru else inUse;
    var i: nat :| i < |q| && q[i] == e;
    assert LinkedAt(links, head, q, i) && LinkedAt(links, head, q, i + 1);
    assert NodeAt(head, q, i + 1) == e;
  }

  /** A client takes a handle that only the cache held. */
  method MoveToInUse(links: Memory, e: nat, ghost lru: seq<nat>, ghost inUse: seq<nat>) returns (m: Memory)
    requires Lists(links, lru, inUse) && e in lru
    ensures Lists(m, Without(lru, e), inUse + [e])
  {
    OnRing(links, lru, inUse, e);
    WithoutMember(lru, e);
    WithoutMember(inUse, e);
    m := Unlink(links, e, lru, inUse);
    m := AppendInUse(m, e, Without(lru, e), inUse);
  }

  /** The last client has given the handle back. */
  method MoveToLru(links: Memory, e: nat, ghost lru: seq<nat>, ghost inUse: seq<nat>) returns (m: Memory)
    requires Lists(links, lru, inUse) && e in inUse
    ensures Lists(m, lru + [e], Without(inUse, e))
  {
    OnRing(links, lru, inUse, e);
    WithoutMember(lru, e);
    WithoutMember(inUse, e);
    m := Unlink(links, e, lru, inUse);
    m := AppendLru(m, e, lru, Without(inUse, e));
  }

  /** lru_.next is the oldest entry, or lru_ itself. */
  lemma OldestIsNext(links: Memory, lru: seq<nat>, inUse: seq<nat>)
    requires Lists(links, lru, inUse)
    ensures LRU in links && links[LRU].next == if lru == [] then LRU else lru[0]
    ensures links[LRU].next == LRU <==> lru == []
  {
    assert LinkedAt(links, LRU, lru, 0);
  }

  class LRUCache {
    const table: HandleTable
    var capacity: nat
    var usage: nat
    var links: Memory
    var handles: map<nat, Handle>
    var next: nat
    ghost var lru: seq<nat>
    ghost var inUse: seq<nat>
    ghost var clients: map<nat, nat>
    ghost var deleted: seq<nat>

    ghost function M(): Model
      reads this, table
    {
      Model(handles, table.contents, lru, inUse, clients, deleted, next)
    }

    /** Memory is in order, whatever the references say. */
    ghost predicate Sound()
      reads this, table
    {
      table.Valid() && Lists(links, lru, inUse)
    }

    ghost predicate Valid()
      reads this, table
    {
      Sound() && Inv(M()) && usage == Usage(M())
    }

    constructor (capacity: nat)
      ensures Valid() && fresh(table) && this.capacity == capacity && table.contents == map[] && handles == map[]
    {
      table := new HandleTable();
      this.capacity, usage, next := capacity, 0, FIRST;
      links := map[LRU := Links(LRU, LRU), IN_USE := Links(IN_USE, IN_USE)];
      handles, lru, inUse, clients, deleted := map[], [], [], map[], [];
      new;
    }

    method Ref(e: nat)
      requires Sound() && e in handles && e in clients
      requires handles[e].inCache && handles[e].refs == 1 ==> e in lru
      modifies `links, `handles, `lru, `inUse, `clients
      ensures Sound() && M() == CacheModel.Ref(old(M()), e)
    {
      var h := handles[e];
      if h.refs == 1 && h.inCache {
        links := MoveToInUse(links, e, lru, inUse);
        lru, inUse := Without(lru, e), inUse + [e];
      }
      handles := handles[e := h.(refs := h.refs + 1)];
      clients := clients[e := clients[e] + 1];
    }

    /** Unref: the deleter runs when the last reference goes. */
    method Unref(e: nat)
      requires Sound() && e in handles && handles[e].refs > 0
      requires handles[e].inCache ==> handles[e].refs > 1 && (handles[e].refs == 2 ==> e in inUse)
      modifies `links, `handles, `lru, `inUse, `clients, `deleted
      ensures Sound() && M() == CacheModel.Unref(old(M()), e)
    {
      var h := handles[e].(refs := handles[e].refs - 1);
      handles := handles[e := h];
      if h.refs == 0 {
        deleted, clients := deleted + [e], clients - {e};
        handles := handles - {e};
        assert handles == old(handles) - {e};
      } else if h.inCache && h.refs == 1 {
        links := MoveToLru(links, e, lru, inUse);
        lru, inUse := lru + [e], Without(inUse, e);
      }
    }

    /** The client gives back a handle it holds. */
    method Release(e: nat)
      requires Valid() && e in handles && e in clients && clients[e] > 0
      modifies `links, `handles, `lru, `inUse, `clients, `deleted
      ensures Valid() && old(handles)[e].refs > 0 && M() == CacheModel.Release(old(M()), e)
    {
      ghost var m := M();
      ReleaseInv(m, e);
      ReleaseUsage(m, e);
      assert HandleOk(m, None, e);
      clients := clients[e := clients[e] - 1];
      Unref(e);
    }

    /** FinishErase of a handle that has left the table. */
    method FinishErase(e: nat)
      requires Sound() && e in handles && handles[e].refs > 0 && (e in lru || e in inUse) && handles[e].charge <= usage
      modifies `usage, `links, `handles, `lru, `inUse, `clients, `deleted
      ensures Sound() && M() == CacheModel.FinishErase(old(M()), e) && usage == old(usage) - old(handles)[e].charge
    {
      OnRing(links, lru, inUse, e);
      links := Unlink(links, e, lru, inUse);
      lru, inUse := Without(lru, e), Without(inUse, e);
      usage := usage - handles[e].charge;
      handles := handles[e := handles[e].(inCache := false)];
      Unref(e);
    }

    method Lookup(id: Id) returns (e: Option<nat>)
      requires Valid()
      modifies `links, `handles, `lru, `inUse, `clients
      ensures Valid() && M() == CacheModel.Lookup(old(M()), id)
      ensures e == if id in old(table.contents) then Some(old(table.contents)[id]) else None
    {
      ghost var m := M();
      LookupInv(m, id);
      e := table.Lookup(id);
      if e != None {
        assert HandleOk(m, None, e.value);
        Ref(e.value);
      }
    }

    /** table_.Remove makes the entry pending. */
    method Detach(id: Id) returns (e: Option<nat>)
      requires Sound()
      modifies table
      ensures e == if id in old(table.contents) then Some(old(table.contents)[id]) else None
      ensures Sound() && M() == if e == None then old(M()) else Untable(old(M()), id)
    {
      e := table.Remove(id);
      assert e == None ==> old(table.contents) - {id} == old(table.contents);
    }

    /** Erase, given what it needs of the entry. */
    method EraseEntry(id: Id, ghost e: nat)
      requires Sound()
      requires id in table.contents ==> table.contents[id] == e && e in handles && handles[e].refs > 0
                                        && (e in lru || e in inUse) && handles[e].charge <= usage
      modifies this, table
      ensures Sound() && capacity == old(capacity)
      ensures id in old(table.contents) ==> M() == CacheModel.FinishErase(Untable(old(M()), id), e) && usage == old(usage) - old(handles)[e].charge
      ensures id !in old(table.contents) ==> M() == old(M()) && usage == old(usage)
    {
      var found := Detach(id);
      if found != None {
        FinishErase(found.value);
      }
    }

    method Erase(id: Id)
      requires Valid()
      modifies this, table
      ensures Valid() && M() == CacheModel.Erase(old(M()), id) && capacity == old(capacity)
    {
      ghost var m := M();
      ghost var e := if id in m.contents then m.contents[id] else 0;
      EraseInv(m, id);
      if id in m.contents {
        EraseHit(m, id);
      }
      EraseEntry(id, e);
    }

    /** The entry that Insert and Prune take: the oldest on lru. */
    method EraseOldest()
      requires Valid() && lru != []
      modifies this, table
      ensures Valid() && capacity == old(capacity) && old(lru)[0] in old(handles)
      ensures M() == CacheModel.Erase(old(M()), old(handles)[old(lru)[0]].id)
      ensures |lru| < |old(lru)|
    {
      CacheModel.EraseOldest(M());
      OldestIsNext(links, lru, inUse);
      var e := links[LRU].next;
      Erase(handles[e].id);
    }

    method Prune()
      requires Valid()
      modifies this, table
      ensures Valid() && M() == CacheModel.Prune(old(M()))
    {
      OldestIsNext(links, lru, inUse);
      while links[LRU].next != LRU
        invariant Valid() && LRU in links && (links[LRU].next == LRU <==> lru == [])
        invariant CacheModel.Prune(M()) == CacheModel.Prune(old(M()))
        decreases |lru|
      {
        EraseOldest();
        OldestIsNext(links, lru, inUse);
      }
    }

    /** malloc, without caching the entry. */
    method Allocate(id: Id, charge: nat) returns (e: nat)
      requires Sound()
      modifies `handles, `clients, `next
      ensures Sound() && e == old(next) && M() == Allocated(old(M()), id, charge)
    {
      e, next := next, next + 1;
      handles, clients := handles[e := Handle(id, charge, false, 1)], clients[e := 1];
    }

    /** The entry also gets the cache's reference, and goes to the in-use list. */
    method AppendNew(id: Id, charge: nat) returns (e: nat)
      requires Sound() && next !in lru && next !in inUse && next >= FIRST
      modifies `handles, `clients, `next, `links, `inUse, `usage
      ensures Sound() && e == old(next) && M() == Cached(old(M()), id, charge) && usage == old(usage) + charge
    {
      e := Allocate(id, charge);
      var h := handles[e];
      handles := handles[e := h.(refs := h.refs + 1, inCache := true)];
      links := AppendInUse(links, e, lru, inUse);
      inUse := inUse + [e];
      usage := usage + charge;
    }

    /** table_.Insert, and the end of the entry it replaces. */
    method AddToTable(id: Id, e: nat, ghost replaced: nat)
      requires Sound()
      requires id in table.contents ==> table.contents[id] == replaced && replaced in handles && handles[replaced].refs > 0
                                        && (replaced in lru || replaced in inUse) && handles[replaced].charge <= usage
      modifies this, table
      ensures Sound() && capacity == old(capacity)
      ensures id in old(table.contents) ==>
                M() == CacheModel.FinishErase(Tabled(old(M()), id, e), replaced) && usage == old(usage) - old(handles)[replaced].charge
      ensures id !in old(table.contents) ==> M() == Tabled(old(M()), id, e) && usage == old(usage)
    {
      var found := table.Insert(id, e);
      if found != None {
        FinishErase(found.value);
      }
    }

    /** Insert up to its eviction loop, when caching is on. */
    method AddCached(id: Id, charge: nat) returns (e: nat)
      requires Valid() && capacity > 0
      modifies this, table
      ensures Sound() && e == old(next) && capacity == old(capacity)
      ensures M() == Added(old(M()), old(capacity), id, charge) && usage == Usage(M())
    {
      ghost var replaced := if id in table.contents then table.contents[id] else 0;
      NextIsNew(M());
      if id in table.contents {
        AddedReplacing(M(), capacity, id, charge);
      } else {
        AddedFresh(M(), capacity, id, charge);
      }
      e := AppendNew(id, charge);
      AddToTable(id, e, replaced);
    }

    /** Insert, up to its eviction loop. */
    method Add(id: Id, charge: nat) returns (e: nat)
      requires Valid()
      modifies this, table
      ensures Valid() && e == old(next) && M() == Added(old(M()), old(capacity), id, charge) && capacity == old(capacity)
    {
      AddedInv(M(), capacity, id, charge);
      if capacity == 0 {
        AddedUncached(M(), id, charge);
        e := Allocate(id, charge);
      } else {
        e := AddCached(id, charge);
      }
    }

    /** Insert: the caller gets a handle; then the oldest entries that no client holds are
        evicted until the usage is within the capacity. */
    method Insert(id: Id, charge: nat) returns (e: nat)
      requires Valid()
      modifies this, table
      ensures Valid() && e == old(next) && capacity == old(capacity) && M() == CacheModel.Insert(old(M()), old(capacity), id, charge)
    {
      AddedInv(M(), capacity, id, charge);
      e := Add(id, charge);
      ghost var added := M();
      OldestIsNext(links, lru, inUse);
      while usage > capacity && links[LRU].next != LRU
        invariant Valid() && capacity == old(capacity) && LRU in links && (links[LRU].next == LRU <==> lru == [])
        invariant Evict(M(), capacity) == Evict(added, capacity)
        decreases |lru|
      {
        EraseOldest();
        OldestIsNext(links, lru, inUse);
      }
    }
  }
}
