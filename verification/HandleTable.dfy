/** The chained hash table of the cache (HandleTable in util/cache.cc).  A bucket is the
    sequence of the entries of its chain; an entry is named by its key and hash. */
module HandleTables {
  import opened Keys

  /** What identifies an entry: its key, and the hash it was given. */
  datatype Id = Id(key: seq<byte>, hash: nat)

  /** An element of a chain: the handle with its key and hash. */
  datatype Slot = Slot(id: Id, handle: nat)

  type Buckets = seq<seq<Slot>>

  /** Bucket b's chain: every entry belongs there and agrees with the map, once. */
  ghost predicate ChainOk(chain: seq<Slot>, length: nat, b: nat, m: map<Id, nat>)
    requires length > 0
  {
    && (forall j {:trigger chain[j]} :: 0 <= j < |chain| ==>
          chain[j].id in m && m[chain[j].id] == chain[j].handle && chain[j].id.hash % length == b)
    && (forall j, k :: 0 <= j < k < |chain| ==> chain[j].id != chain[k].id)
  }

  predicate InChain(chain: seq<Slot>, id: Id) {
    exists j :: 0 <= j < |chain| && chain[j].id == id
  }

  /** The chains hold exactly the map. */
  ghost predicate Holds(list: Buckets, m: map<Id, nat>) {
    && |list| > 0
    && (forall b {:trigger list[b]} :: 0 <= b < |list| ==> ChainOk(list[b], |list|, b, m))
    && (forall id {:trigger id in m} :: id in m ==> InChain(list[id.hash % |list|], id))
  }

  lemma HashBucket(list: Buckets, hash: nat)
    requires |list| > 0
    ensures 0 <= hash % |list| < |list|
  {}

  /** The bucket of an id, with its chain replaced. */
  lemma Rechained(list: Buckets, m: map<Id, nat>, id: Id, chain: seq<Slot>, m': map<Id, nat>)
    requires Holds(list, m) && ChainOk(chain, |list|, id.hash % |list|, m')
    requires forall x :: x != id ==> (x in m <==> x in m') && (x in m ==> m'[x] == m[x])
    requires forall x :: x != id && InChain(list[id.hash % |list|], x) ==> InChain(chain, x)
    requires id in m' ==> InChain(chain, id)
    ensures Holds(list[id.hash % |list| := chain], m')
  {
    var b, list' := id.hash % |list|, list[id.hash % |list| := chain];
    forall c | 0 <= c < |list'| ensures ChainOk(list'[c], |list'|, c, m') {
      if c != b {
        assert ChainOk(list[c], |list|, c, m);
        assert list'[c] == list[c];
      }
    }
    forall x | x in m' ensures InChain(list'[x.hash % |list'|], x) {
      if x != id {
        assert x in m;
      }
    }
  }

  class HandleTable {
    var length: nat
    var elems: nat
    var list: Buckets
    ghost var contents: map<Id, nat>

    ghost predicate Valid()
      reads this
    {
      length == |list| && length >= 4 && Holds(list, contents) && elems == |contents|
    }

    constructor ()
      ensures Valid() && contents == map[]
    {
      length, elems, list, contents := 4, 0, [[], [], [], []], map[];
    }

    /** FindPointer: the chain and the place in it where the entry is, or its end. */
    method FindPointer(id: Id) returns (b: nat, at: nat)
      requires Valid()
      ensures b == id.hash % length < length && at <= |list[b]|
      ensures at < |list[b]| ==> list[b][at].id == id
      ensures at < |list[b]| <==> id in contents
    {
      b := id.hash % length;
      at := 0;
      while at < |list[b]| && list[b][at].id != id
        invariant at <= |list[b]| && forall j :: 0 <= j < at ==> list[b][j].id != id
      {
        at := at + 1;
      }
      assert ChainOk(list[b], length, b, contents);
    }

    method Lookup(id: Id) returns (h: Option<nat>)
      requires Valid()
      ensures h == if id in contents then Some(contents[id]) else None
    {
      var b, at := FindPointer(id);
      assert ChainOk(list[b], length, b, contents);
      h := if at < |list[b]| then Some(list[b][at].handle) else None;
    }

    /** The entry takes the place of the one with its id. */
    method Replace(id: Id, handle: nat, at: nat)
      requires Valid() && at < |list[id.hash % length]| && list[id.hash % length][at].id == id
      modifies this
      ensures Valid() && id in old(contents) && old(contents)[id] == old(list)[id.hash % old(length)][at].handle
      ensures contents == old(contents)[id := handle]
    {
      var b := id.hash % length;
      assert ChainOk(list[b], length, b, contents);
      ReplaceHolds(list, contents, at, id, handle);
      list := list[b := list[b][at := Slot(id, handle)]];
      assert contents[id := handle].Keys == contents.Keys;
      contents := contents[id := handle];
    }

    /** The entry goes to the end of its chain. */
    method Extend(id: Id, handle: nat)
      requires Valid() && id !in contents
      modifies this
      ensures Valid() && contents == old(contents)[id := handle] && elems == old(elems) + 1
    {
      var b := id.hash % length;
      ExtendHolds(list, contents, id, handle);
      list := list[b := list[b] + [Slot(id, handle)]];
      assert contents[id := handle].Keys == contents.Keys + {id};
      contents, elems := contents[id := handle], elems + 1;
    }

    /** The entry takes the place of the one with its id, which is returned, or goes to the
        end of its chain. */
    method Insert(id: Id, handle: nat) returns (old': Option<nat>)
      requires Valid()
      modifies this
      ensures Valid() && contents == old(contents)[id := handle]
      ensures old' == if id in old(contents) then Some(old(contents)[id]) else None
    {
      var b, at := FindPointer(id);
      if at < |list[b]| {
        old' := Some(list[b][at].handle);
        Replace(id, handle, at);
      } else {
        old' := None;
        Extend(id, handle);
        if elems > length {
          Resize();
        }
      }
    }

    method Remove(id: Id) returns (result: Option<nat>)
      requires Valid()
      modifies this
      ensures Valid() && contents == old(contents) - {id}
      ensures result == if id in old(contents) then Some(old(contents)[id]) else None
    {
      var b, at := FindPointer(id);
      var chain := list[b];
      assert ChainOk(chain, length, b, contents);
      result := None;
      if at < |chain| {
        result := Some(chain[at].handle);
        var chain' := chain[..at] + chain[at + 1..];
        ghost var m := contents - {id};
        Shortened(chain, at, length, b, contents);
        Rechained(list, contents, id, chain', m);
        assert contents.Keys == m.Keys + {id};
        list, contents, elems := list[b := chain'], m, elems - 1;
      } else {
        assert contents - {id} == contents;
      }
    }

    /** Every entry moves to the head of its chain in the larger table. */
    method Resize()
      requires Valid()
      modifies this
      ensures Valid() && contents == old(contents) && elems == old(elems) && elems <= length
    {
      var newLength := 4;
      while newLength < elems
        invariant newLength >= 4
      {
        newLength := newLength * 2;
      }
      var newList := Rehash(list, newLength, contents);
      list, length := newList, newLength;
    }
  }

  lemma ReplaceHolds(list: Buckets, m: map<Id, nat>, at: nat, id: Id, handle: nat)
    requires Holds(list, m) && at < |list[id.hash % |list|]| && list[id.hash % |list|][at].id == id
    ensures var b := id.hash % |list|; Holds(list[b := list[b][at := Slot(id, handle)]], m[id := handle])
  {
    var b := id.hash % |list|;
    assert ChainOk(list[b], |list|, b, m);
    Replaced(list[b], at, id, handle, |list|, b, m);
    Rechained(list, m, id, list[b][at := Slot(id, handle)], m[id := handle]);
  }

  lemma ExtendHolds(list: Buckets, m: map<Id, nat>, id: Id, handle: nat)
    requires Holds(list, m) && id !in m
    ensures var b := id.hash % |list|; Holds(list[b := list[b] + [Slot(id, handle)]], m[id := handle])
  {
    var b := id.hash % |list|;
    assert ChainOk(list[b], |list|, b, m);
    Extended(list[b], id, handle, |list|, b, m);
    Rechained(list, m, id, list[b] + [Slot(id, handle)], m[id := handle]);
  }

  lemma Replaced(chain: seq<Slot>, at: nat, id: Id, handle: nat, length: nat, b: nat, m: map<Id, nat>)
    requires length > 0 && ChainOk(chain, length, b, m) && at < |chain| && chain[at].id == id
    ensures ChainOk(chain[at := Slot(id, handle)], length, b, m[id := handle])
    ensures forall x :: InChain(chain, x) ==> InChain(chain[at := Slot(id, handle)], x)
  {
    var chain' := chain[at := Slot(id, handle)];
    forall x | InChain(chain, x) ensures InChain(chain', x) {
      var j :| 0 <= j < |chain| && chain[j].id == x;
      assert chain'[j].id == x;
    }
  }

  lemma Extended(chain: seq<Slot>, id: Id, handle: nat, length: nat, b: nat, m: map<Id, nat>)
    requires length > 0 && ChainOk(chain, length, b, m) && id !in m && id.hash % length == b
    ensures ChainOk(chain + [Slot(id, handle)], length, b, m[id := handle]) && InChain(chain + [Slot(id, handle)], id)
    ensures forall x :: InChain(chain, x) ==> InChain(chain + [Slot(id, handle)], x)
  {
    var chain' := chain + [Slot(id, handle)];
    assert chain'[|chain|].id == id;
    forall x | InChain(chain, x) ensures InChain(chain', x) {
      var j :| 0 <= j < |chain| && chain[j].id == x;
      assert chain'[j].id == x;
    }
  }

  lemma Prepended(chain: seq<Slot>, s: Slot, length: nat, b: nat, m: map<Id, nat>)
    requires length > 0 && ChainOk(chain, length, b, m) && s.id !in m && s.id.hash % length == b
    ensures ChainOk([s] + chain, length, b, m[s.id := s.handle]) && InChain([s] + chain, s.id)
    ensures forall x :: InChain(chain, x) ==> InChain([s] + chain, x)
  {
    var chain' := [s] + chain;
    assert chain'[0] == s;
    assert forall j :: 0 < j < |chain'| ==> chain'[j] == chain[j - 1];
    forall x | InChain(chain, x) ensures InChain(chain', x) {
      StillInChain(chain, s, x);
    }
  }

  lemma StillInChain(chain: seq<Slot>, s: Slot, x: Id)
    requires InChain(chain, x)
    ensures InChain([s] + chain, x)
  {
    var j :| 0 <= j < |chain| && chain[j].id == x;
    assert ([s] + chain)[j + 1].id == x;
  }

  lemma Shortened(chain: seq<Slot>, at: nat, length: nat, b: nat, m: map<Id, nat>)
    requires length > 0 && ChainOk(chain, length, b, m) && at < |chain|
    ensures ChainOk(chain[..at] + chain[at + 1..], length, b, m - {chain[at].id})
    ensures forall x :: x != chain[at].id && InChain(chain, x) ==> InChain(chain[..at] + chain[at + 1..], x)
  {
    var chain' := chain[..at] + chain[at + 1..];
    forall j | 0 <= j < |chain'| ensures chain'[j] == if j < at then chain[j] else chain[j + 1] {}
    forall x | x != chain[at].id && InChain(chain, x) ensures InChain(chain', x) {
      var j :| 0 <= j < |chain| && chain[j].id == x;
      assert chain'[if j < at then j else j - 1].id == x;
    }
  }

  // ------------------------------------------------------------------ resizing

  /** The id's entry is in an earlier bucket than i, or before place n of bucket i. */
  ghost predicate Passed(list: Buckets, id: Id, i: nat, n: nat)
    requires |list| > 0
  {
    var b := id.hash % |list|;
    b < i || (b == i && exists j :: 0 <= j < n && j < |list[b]| && list[b][j].id == id)
  }

  /** What has been moved: the entries passed so far. */
  ghost predicate Moved(list: Buckets, m: map<Id, nat>, moved: map<Id, nat>, i: nat, n: nat) {
    && |list| > 0
    && (forall id {:trigger id in moved} :: id in moved ==> id in m && moved[id] == m[id] && Passed(list, id, i, n))
    && (forall id {:trigger id in m} :: id in m && Passed(list, id, i, n) ==> id in moved)
  }

  lemma AllMoved(list: Buckets, m: map<Id, nat>, moved: map<Id, nat>)
    requires Moved(list, m, moved, |list|, 0)
    ensures moved == m
  {
    forall id | id in m ensures id in moved {
      HashBucket(list, id.hash);
    }
  }

  method MoveChain(list: Buckets, i: nat, into: Buckets, ghost m: map<Id, nat>, ghost moved: map<Id, nat>)
    returns (newList: Buckets, ghost moved': map<Id, nat>)
    requires i < |list| && Holds(list, m) && Holds(into, moved) && Moved(list, m, moved, i, 0)
    ensures |newList| == |into| && Holds(newList, moved') && Moved(list, m, moved', i + 1, 0)
  {
    newList, moved' := into, moved;
    var chain, n := list[i], 0;
    assert ChainOk(chain, |list|, i, m);
    while n < |chain|
      invariant n <= |chain| && |newList| == |into| && Holds(newList, moved') && Moved(list, m, moved', i, n)
    {
      var s := chain[n];
      NotYetMoved(list, m, moved', i, n);
      var b := s.id.hash % |newList|;
      assert ChainOk(newList[b], |newList|, b, moved');
      Prepended(newList[b], s, |newList|, b, moved');
      Rechained(newList, moved', s.id, [s] + newList[b], moved'[s.id := s.handle]);
      MovedOneMore(list, m, moved', i, n);
      newList, moved' := newList[b := [s] + newList[b]], moved'[s.id := s.handle];
      n := n + 1;
    }
    ChainMoved(list, m, moved', i);
  }

  lemma NotYetMoved(list: Buckets, m: map<Id, nat>, moved: map<Id, nat>, i: nat, n: nat)
    requires i < |list| && Holds(list, m) && Moved(list, m, moved, i, n) && n < |list[i]|
    ensures list[i][n].id !in moved
  {
    assert ChainOk(list[i], |list|, i, m);
  }

  lemma MovedOneMore(list: Buckets, m: map<Id, nat>, moved: map<Id, nat>, i: nat, n: nat)
    requires i < |list| && Holds(list, m) && Moved(list, m, moved, i, n) && n < |list[i]|
    ensures Moved(list, m, moved[list[i][n].id := list[i][n].handle], i, n + 1)
  {
    var s := list[i][n];
    assert ChainOk(list[i], |list|, i, m);
    var moved' := moved[s.id := s.handle];
    forall id | id in m && Passed(list, id, i, n + 1) ensures id in moved' {
      if id != s.id {
        assert Passed(list, id, i, n);
      }
    }
    forall id | id in moved' ensures id in m && moved'[id] == m[id] && Passed(list, id, i, n + 1) {
      if id != s.id {
        assert id in moved;
      }
    }
  }

  lemma ChainMoved(list: Buckets, m: map<Id, nat>, moved: map<Id, nat>, i: nat)
    requires i < |list| && Holds(list, m) && Moved(list, m, moved, i, |list[i]|)
    ensures Moved(list, m, moved, i + 1, 0)
  {
    forall id | id in m && Passed(list, id, i + 1, 0) ensures id in moved {
      assert InChain(list[id.hash % |list|], id);
      assert Passed(list, id, i, |list[i]|);
    }
  }

  lemma EmptyHolds(list: Buckets)
    requires |list| > 0 && forall b :: 0 <= b < |list| ==> list[b] == []
    ensures Holds(list, map[])
  {}

  method Rehash(list: Buckets, newLength: nat, ghost m: map<Id, nat>) returns (newList: Buckets)
    requires Holds(list, m) && newLength > 0
    ensures |newList| == newLength && Holds(newList, m)
  {
    newList := seq(newLength, _ => []);
    ghost var moved: map<Id, nat> := map[];
    EmptyHolds(newList);
    var i := 0;
    while i < |list|
      invariant i <= |list| && |newList| == newLength && Holds(newList, moved) && Moved(list, m, moved, i, 0)
    {
      newList, moved := MoveChain(list, i, newList, m, moved);
      i := i + 1;
    }
    AllMoved(list, m, moved);
  }
}
