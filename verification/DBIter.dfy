/** The user-level iterator of db/db_iter.cc over a sorted stream of internal entries. */
module DBIter {
  import opened Keys
  import opened Version
  import opened Iterators

  // -------------------------------------------------- the list of live entries

  predicate Seen(es: seq<Entry>, s: nat, i: nat)
    requires i < |es|
  {
    es[i].key.seqno <= s
  }

  /** Entry i is what a reader at sequence s sees for its user key: the newest
      visible entry, and not a deletion marker. */
  ghost predicate Live(es: seq<Entry>, s: nat, i: nat) {
    && i < |es| && Seen(es, s, i) && es[i].key.kind == Value
    && forall j :: 0 <= j < i && es[j].key.user == es[i].key.user ==> !Seen(es, s, j)
  }

  /** The positions below n of live entries, in order. */
  ghost function LiveTo(es: seq<Entry>, s: nat, n: nat): seq<nat>
    requires n <= |es|
  {
    if n == 0 then []
    else if Live(es, s, n - 1) then LiveTo(es, s, n - 1) + [n - 1]
    else LiveTo(es, s, n - 1)
  }

  ghost function LiveList(es: seq<Entry>, s: nat): seq<nat> {
    LiveTo(es, s, |es|)
  }

  lemma {:induction false} LiveToFacts(es: seq<Entry>, s: nat, n: nat)
    requires n <= |es|
    ensures forall k {:trigger LiveTo(es, s, n)[k]} :: 0 <= k < |LiveTo(es, s, n)| ==> LiveTo(es, s, n)[k] < n && Live(es, s, LiveTo(es, s, n)[k])
    ensures forall k, m :: 0 <= k < m < |LiveTo(es, s, n)| ==> LiveTo(es, s, n)[k] < LiveTo(es, s, n)[m]
    ensures forall i {:trigger Live(es, s, i)} :: 0 <= i < n && Live(es, s, i) ==> i in LiveTo(es, s, n)
  {
    if n > 0 {
      LiveToFacts(es, s, n - 1);
    }
  }

  /** Order of two entries of a sorted stream. */
  lemma InOrder(es: seq<Entry>, i: nat, j: nat)
    requires Sorted(es) && i < j < |es|
    ensures !Less(es[j].key.user, es[i].key.user)
    ensures es[i].key.user == es[j].key.user ==> es[i].key.seqno > es[j].key.seqno
  {
    assert Before(es[i].key, es[j].key);
  }

  /** k is the place in the list of the first live entry at or after i. */
  ghost predicate FirstAt(es: seq<Entry>, s: nat, i: nat, k: nat) {
    var live := LiveList(es, s);
    && k <= |live|
    && (forall m :: 0 <= m < k ==> live[m] < i)
    && (forall m :: k <= m < |live| ==> live[m] >= i)
  }

  lemma NoLiveBetween(es: seq<Entry>, s: nat, i: nat, j: nat, k: nat)
    requires FirstAt(es, s, i, k) && i <= j
    requires forall m :: i <= m < j ==> !Live(es, s, m)
    ensures FirstAt(es, s, j, k)
  {
    LiveToFacts(es, s, |es|);
  }

  lemma LiveIsNext(es: seq<Entry>, s: nat, i: nat, k: nat)
    requires FirstAt(es, s, i, k) && i < |es| && Live(es, s, i)
    ensures k < |LiveList(es, s)| && LiveList(es, s)[k] == i
  {
    LiveToFacts(es, s, |es|);
    var live := LiveList(es, s);
    var m :| 0 <= m < |live| && live[m] == i;
  }

  lemma AfterLive(es: seq<Entry>, s: nat, k: nat)
    requires k < |LiveList(es, s)|
    ensures FirstAt(es, s, LiveList(es, s)[k], k) && FirstAt(es, s, LiveList(es, s)[k] + 1, k + 1)
  {
    LiveToFacts(es, s, |es|);
  }

  /** The list holds each user key at most once, in order. */
  lemma LiveListAscends(es: seq<Entry>, s: nat, k: nat, m: nat)
    requires Sorted(es) && k < m < |LiveList(es, s)|
    ensures LiveList(es, s)[k] < LiveList(es, s)[m] < |es|
    ensures Less(es[LiveList(es, s)[k]].key.user, es[LiveList(es, s)[m]].key.user)
  {
    LiveToFacts(es, s, |es|);
    var i, j := LiveList(es, s)[k], LiveList(es, s)[m];
    assert Live(es, s, i) && Live(es, s, j);
    assert Before(es[i].key, es[j].key);
  }

  ghost function All(es: seq<Entry>): set<Entry> {
    set e | e in es
  }

  /** The list is exactly what snapshot reads return: a user key is in it with a value
      if and only if a read of the key at sequence s yields that value. */
  lemma LiveListIsView(es: seq<Entry>, s: nat, u: UserKey, value: seq<byte>)
    requires Sorted(es)
    ensures View(All(es), u, s) == Some(value)
            <==> exists k :: 0 <= k < |LiveList(es, s)| && LiveList(es, s)[k] < |es| && es[LiveList(es, s)[k]].key.user == u && es[LiveList(es, s)[k]].value == value
  {
    LiveToFacts(es, s, |es|);
    var all := All(es);
    if e :| Newest(all, u, s, e) && e.key.kind == Value {
      var i :| 0 <= i < |es| && es[i] == e;
      NewestIsLive(es, s, u, i);
      ViewOfNewest(all, u, s, e);
      var m :| 0 <= m < |LiveList(es, s)| && LiveList(es, s)[m] == i;
      forall k | 0 <= k < |LiveList(es, s)| && es[LiveList(es, s)[k]].key.user == u ensures LiveList(es, s)[k] == i {
        OneLivePerKey(es, s, i, LiveList(es, s)[k]);
      }
    } else {
      forall k | 0 <= k < |LiveList(es, s)| ensures es[LiveList(es, s)[k]].key.user != u {
        if es[LiveList(es, s)[k]].key.user == u {
          LiveIsNewest(es, s, LiveList(es, s)[k]);
        }
      }
    }
  }

  lemma NewestIsLive(es: seq<Entry>, s: nat, u: UserKey, i: nat)
    requires Sorted(es) && i < |es| && es[i].key.kind == Value && Newest(All(es), u, s, es[i])
    ensures Live(es, s, i)
  {
    forall j | 0 <= j < i && es[j].key.user == es[i].key.user ensures !Seen(es, s, j) {
      InOrder(es, j, i);
      assert es[j] in All(es);
    }
  }

  lemma LiveIsNewest(es: seq<Entry>, s: nat, i: nat)
    requires Sorted(es) && Live(es, s, i)
    ensures Newest(All(es), es[i].key.user, s, es[i])
  {
    var all := All(es);
    assert es[i] in all;
    forall d | d in all && Visible(d, es[i].key.user, s) ensures d == es[i] || d.key.seqno < es[i].key.seqno {
      var j :| 0 <= j < |es| && es[j] == d;
      if i < j {
        InOrder(es, i, j);
      }
    }
  }

  lemma OneLivePerKey(es: seq<Entry>, s: nat, i: nat, j: nat)
    requires Live(es, s, i) && Live(es, s, j) && es[i].key.user == es[j].key.user
    ensures i == j
  {}

  // ------------------------------------------------------------------- DBIter

  /** c is the live entry just below position n. */
  lemma LastBelow(es: seq<Entry>, s: nat, n: nat, k: nat, c: nat)
    requires FirstAt(es, s, n, k) && c < n && Live(es, s, c)
    requires forall i :: c < i < n ==> !Live(es, s, i)
    ensures 0 < k <= |LiveList(es, s)| && LiveList(es, s)[k - 1] == c
  {
    LiveToFacts(es, s, |es|);
    var live := LiveList(es, s);
    var m :| 0 <= m < |live| && live[m] == c;
    assert m < k;
    var last := live[k - 1];
    assert Live(es, s, last) && c <= last < n;
  }

  lemma NoneBelow(es: seq<Entry>, s: nat, n: nat, k: nat)
    requires FirstAt(es, s, n, k) && forall i :: 0 <= i < n ==> !Live(es, s, i)
    ensures k == 0
  {
    LiveToFacts(es, s, |es|);
    var live := LiveList(es, s);
    assert |live| > 0 ==> Live(es, s, live[0]);
  }

  lemma NoneFrom(es: seq<Entry>, s: nat, n: nat, k: nat)
    requires FirstAt(es, s, n, k) && forall i :: n <= i < |es| ==> !Live(es, s, i)
    ensures k == |LiveList(es, s)|
  {
    LiveToFacts(es, s, |es|);
    var live := LiveList(es, s);
    assert |live| > 0 ==> Live(es, s, live[|live| - 1]);
  }

  class DBIter {
    const iter: Iterator
    const sequence: nat
    var savedKey: UserKey
    var savedValue: seq<byte>
    var direction: Direction
    var valid: bool

    constructor (iter: Iterator, sequence: nat)
      ensures this.iter == iter && this.sequence == sequence && !valid
    {
      this.iter, this.sequence := iter, sequence;
      savedKey, savedValue, direction, valid := [], [], Forward, false;
    }

    ghost predicate Valid()
      reads this, iter
    {
      iter.Valid() && Sorted(iter.es)
    }

    /** The iterator stands on element k of the list of live entries, or is invalid. */
    ghost predicate On(k: Option<nat>)
      requires Valid()
      reads this, iter
    {
      match k
      case None => !valid
      case Some(k) =>
        var live := LiveList(iter.es, sequence);
        && valid && k < |live| && live[k] < |iter.es|
        && match direction
           case Forward => iter.pos == Some(live[k])
           case Reverse => Behind(iter.es, sequence, iter.pos, savedKey) && savedKey == iter.es[live[k]].key.user && savedValue == iter.es[live[k]].value
    }

    /** key() and value(): those of the live entry the iterator stands on. */
    method KeyValue(ghost k: nat) returns (key: UserKey, value: seq<byte>)
      requires Valid() && On(Some(k))
      ensures key == iter.es[LiveList(iter.es, sequence)[k]].key.user && value == iter.es[LiveList(iter.es, sequence)[k]].value
    {
      if direction == Forward {
        key, value := iter.es[iter.pos.value].key.user, iter.es[iter.pos.value].value;
      } else {
        key, value := savedKey, savedValue;
      }
    }

    /** The loop shared by Next, Seek and SeekToFirst.  Ghost parameters: the search
        is for the first live entry at or after `from`, which has place k. */
    method FindNextUserEntry(skipping: bool, ghost from: nat, ghost k: nat)
      requires Valid() && iter.pos.Some? && iter.pos.value <= from
      requires FirstAt(iter.es, sequence, from, k) && Hides(iter.es, sequence, iter.pos.value, from, skipping, savedKey)
      requires direction == Forward
      modifies this, iter
      ensures Valid() && direction == Forward
      ensures On(if k < |LiveList(iter.es, sequence)| then Some(k) else None)
    {
      var skip, skipNow := savedKey, skipping;
      var es := iter.es;
      while true
        invariant iter.Valid() && iter.pos.Some? && es == iter.es && direction == Forward
        invariant Hides(es, sequence, iter.pos.value, from, skipNow, skip)
        invariant forall i :: from <= i < iter.pos.value ==> !Live(es, sequence, i)
        decreases |es| - iter.pos.value
      {
        var q := iter.pos.value;
        ghost var skipNow0, skip0 := skipNow, skip;
        if es[q].key.seqno <= sequence {
          if es[q].key.kind == Deletion {
            skip := es[q].key.user;
            skipNow := true;
          } else if skipNow && !Less(skip, es[q].key.user) {
            // hidden
            HiddenIsNotLive(es, sequence, q, from, skip);
          } else {
            ShownIsLive(es, sequence, q, from, skipNow, skip);
            NoLiveBetween(es, sequence, from, q, k);
            LiveIsNext(es, sequence, q, k);
            valid := true;
            savedKey := [];
            return;
          }
        }
        if q + 1 < |es| {
          HidesStep(es, sequence, q, from, skipNow0, skip0);
        }
        iter.Next();
        if iter.pos == None {
          break;
        }
      }
      savedKey := [];
      valid := false;
      NoneFrom(es, sequence, from, k);
    }

    /** The backward loop shared by Prev and SeekToLast.  Ghost parameters: everything
        to look at lies below n, and k live entries do. */
    method FindPrevUserEntry(ghost n: nat, ghost k: nat)
      requires Valid() && direction == Reverse
      requires iter.pos == if n == 0 then None else Some(n - 1)
      requires FirstAt(iter.es, sequence, n, k) && Boundary(iter.es, sequence, n)
      modifies this, iter
      ensures Valid() && On(if k == 0 then None else Some(k - 1))
    {
      var es := iter.es;
      var valueType := Deletion;
      ghost var c: Option<nat> := None;
      ghost var m := n;
      while iter.pos.Some?
        invariant iter.Valid() && es == iter.es && direction == Reverse && m <= n <= |es|
        invariant iter.pos == if m == 0 then None else Some(m - 1)
        invariant Candidate(es, sequence, m, n, c, valueType, savedKey, savedValue)
        decreases m
      {
        var j := iter.pos.value;
        if es[j].key.seqno <= sequence {
          if valueType != Deletion && Less(es[j].key.user, savedKey) {
            break;
          }
          CandidateMoves(es, sequence, m, n, c, valueType, savedKey, savedValue);
          c := Some(j);
          valueType := es[j].key.kind;
          if valueType == Deletion {
            savedKey, savedValue := [], [];
          } else {
            savedKey, savedValue := es[j].key.user, es[j].value;
          }
        }
        iter.Prev();
        m := m - 1;
      }
      if valueType == Deletion {
        NoneBelow(es, sequence, n, k);
        valid := false;
        savedKey, savedValue := [], [];
        direction := Forward;
      } else {
        CandidateIsLive(es, sequence, m, n, c, valueType, savedKey, savedValue);
        CandidateIsBehind(es, sequence, m, n, c, valueType, savedKey, savedValue, iter.pos);
        LastBelow(es, sequence, n, k, c.value);
        valid := true;
      }
    }

    /** Next: one element further in the list of live entries. */
    method Next(ghost k: nat)
      requires Valid() && On(Some(k))
      modifies this, iter
      ensures Valid() && On(if k + 1 < |LiveList(iter.es, sequence)| then Some(k + 1) else None)
    {
      ghost var i := LiveList(iter.es, sequence)[k];
      LiveToFacts(iter.es, sequence, |iter.es|);
      assert Live(iter.es, sequence, i);
      AfterLive(iter.es, sequence, k);
      if direction == Reverse {
        TurnAround(iter.es, sequence, iter.pos, i);
        direction := Forward;
        if iter.pos == None {
          iter.SeekToFirst();
        } else {
          iter.Next();
        }
        assert iter.pos.Some?;  // the entries of the current key lie ahead
      } else {
        StandingHides(iter.es, sequence, i);
        savedKey := iter.es[iter.pos.value].key.user;
      }
      FindNextUserEntry(true, i + 1, k + 1);
    }

    /** Prev: one element back in the list of live entries. */
    method Prev(ghost k: nat)
      requires Valid() && On(Some(k))
      modifies this, iter
      ensures Valid() && On(if k > 0 then Some(k - 1) else None)
    {
      ghost var i := LiveList(iter.es, sequence)[k];
      LiveToFacts(iter.es, sequence, |iter.es|);
      assert Live(iter.es, sequence, i);
      AfterLive(iter.es, sequence, k);
      if direction == Forward {
        savedKey := iter.es[iter.pos.value].key.user;
        var es := iter.es;
        while true
          invariant iter.Valid() && iter.pos.Some? && iter.pos.value <= i && es == iter.es
          invariant savedKey == es[i].key.user && valid && direction == Forward
          invariant forall j :: iter.pos.value <= j < i ==> !Less(es[j].key.user, es[i].key.user)
          decreases iter.pos.value
        {
          iter.Prev();
          if iter.pos == None {
            KeyBoundary(es, sequence, 0, i);
            FirstAtDown(es, sequence, 0, i, k);
            NoneBelow(es, sequence, 0, k);
            valid := false;
            savedKey, savedValue := [], [];
            return;
          }
          if Less(es[iter.pos.value].key.user, savedKey) {
            break;
          }
        }
        KeyBoundary(es, sequence, iter.pos.value + 1, i);
        FirstAtDown(es, sequence, iter.pos.value + 1, i, k);
        direction := Reverse;
      } else {
        BehindIsBoundary(iter.es, sequence, iter.pos, k);
      }
      FindPrevUserEntry(if iter.pos.Some? then iter.pos.value + 1 else 0, k);
    }

    /** Seek: the first live entry whose user key is at or after the target. */
    method Seek(target: UserKey) returns (ghost k: nat)
      requires Valid()
      modifies this, iter
      ensures Valid() && k <= |LiveList(iter.es, sequence)|
      ensures On(if k < |LiveList(iter.es, sequence)| then Some(k) else None)
      ensures forall m :: 0 <= m < |LiveList(iter.es, sequence)| && LiveList(iter.es, sequence)[m] < |iter.es| ==>
                (m < k <==> Less(iter.es[LiveList(iter.es, sequence)[m]].key.user, target))
    {
      direction := Forward;
      savedKey, savedValue := [], [];
      iter.Seek(IKey(target, sequence, Value));
      ghost var q := if iter.pos.Some? then iter.pos.value else |iter.es|;
      k := PlaceOf(iter.es, sequence, q);
      SeekStarts(iter.es, sequence, target, q, k);
      if iter.pos.Some? {
        FindNextUserEntry(false, q, k);
      } else {
        NoneFrom(iter.es, sequence, q, k);
        valid := false;
      }
    }

    method SeekToFirst()
      requires Valid()
      modifies this, iter
      ensures Valid() && On(if |LiveList(iter.es, sequence)| > 0 then Some(0) else None)
    {
      direction := Forward;
      savedValue := [];
      iter.SeekToFirst();
      LiveToFacts(iter.es, sequence, |iter.es|);
      if iter.pos.Some? {
        FindNextUserEntry(false, 0, 0);
      } else {
        valid := false;
      }
    }

    method SeekToLast()
      requires Valid()
      modifies this, iter
      ensures Valid() && On(if |LiveList(iter.es, sequence)| > 0 then Some(|LiveList(iter.es, sequence)| - 1) else None)
    {
      direction := Reverse;
      savedValue := [];
      iter.SeekToLast();
      LiveToFacts(iter.es, sequence, |iter.es|);
      FindPrevUserEntry(|iter.es|, |LiveList(iter.es, sequence)|);
    }
  }

  /** The state in which Next, having turned around if need be, starts to search. */
  lemma HidesFromLive(es: seq<Entry>, s: nat, q: nat, i: nat)
    requires Sorted(es) && Live(es, s, i) && q <= i
    requires forall j {:trigger Seen(es, s, j)} :: 0 <= j < q && Seen(es, s, j) ==> !Less(es[i].key.user, es[j].key.user)
    requires forall j {:trigger Seen(es, s, j)} :: q <= j < |es| && Seen(es, s, j) ==> !Less(es[j].key.user, es[i].key.user)
    ensures Hides(es, s, q, i + 1, true, es[i].key.user)
  {
    RanksDiffer();
    forall j | q <= j < i && Seen(es, s, j) ensures es[j].key.user == es[i].key.user {
      InOrder(es, j, i);
    }
  }

  lemma TurnAround(es: seq<Entry>, s: nat, pos: Option<nat>, i: nat)
    requires Sorted(es) && Live(es, s, i) && Behind(es, s, pos, es[i].key.user)
    ensures var q := if pos.Some? then pos.value + 1 else 0; q <= i && Hides(es, s, q, i + 1, true, es[i].key.user)
  {
    var q := if pos.Some? then pos.value + 1 else 0;
    if pos.Some? && i <= pos.value {
      if i < pos.value {
        InOrder(es, i, pos.value);
      }
      assert false;
    }
    forall j | 0 <= j < q ensures !Less(es[i].key.user, es[j].key.user) {
      InOrder(es, j, i);
    }
    HidesFromLive(es, s, q, i);
  }

  lemma StandingHides(es: seq<Entry>, s: nat, i: nat)
    requires Sorted(es) && Live(es, s, i)
    ensures Hides(es, s, i, i + 1, true, es[i].key.user)
  {
    forall j | 0 <= j < i ensures !Less(es[i].key.user, es[j].key.user) {
      InOrder(es, j, i);
    }
    forall j | i <= j < |es| ensures !Less(es[j].key.user, es[i].key.user) {
      if i < j {
        InOrder(es, i, j);
      }
    }
    HidesFromLive(es, s, i, i);
  }

  /** Every position has a place in the list. */
  lemma PlaceOf(es: seq<Entry>, s: nat, q: nat) returns (k: nat)
    requires q <= |es|
    ensures FirstAt(es, s, q, k)
  {
    LiveToFacts(es, s, |es|);
    var live := LiveList(es, s);
    k := 0;
    while k < |live| && live[k] < q
      invariant k <= |live| && forall m :: 0 <= m < k ==> live[m] < q
    {
      k := k + 1;
    }
  }

  /** After the inner Seek nothing visible for the keys ahead has been skipped. */
  lemma SeekStarts(es: seq<Entry>, s: nat, target: UserKey, q: nat, k: nat)
    requires Sorted(es) && q <= |es| && FirstAt(es, s, q, k)
    requires forall i :: 0 <= i < q ==> ILess(es[i].key, IKey(target, s, Value))
    requires q < |es| ==> !ILess(es[q].key, IKey(target, s, Value))
    ensures q < |es| ==> Hides(es, s, q, q, false, [])
    ensures forall m :: 0 <= m < |LiveList(es, s)| && LiveList(es, s)[m] < |es| ==> (m < k <==> Less(es[LiveList(es, s)[m]].key.user, target))
  {
    RanksDiffer();
    LiveToFacts(es, s, |es|);
    forall j | 0 <= j < q && Seen(es, s, j) ensures Less(es[j].key.user, target) {
      assert ILess(es[j].key, IKey(target, s, Value));
    }
    forall j | q <= j < |es| ensures !Less(es[j].key.user, target) {
      if q < j {
        InOrder(es, q, j);
      }
    }
    forall m | 0 <= m < |LiveList(es, s)| ensures m < k <==> Less(es[LiveList(es, s)[m]].key.user, target) {
      assert Live(es, s, LiveList(es, s)[m]);
    }
  }

  /** The entries of smaller user keys end at n. */
  lemma KeyBoundary(es: seq<Entry>, s: nat, n: nat, i: nat)
    requires Sorted(es) && n <= i < |es|
    requires forall j :: n <= j < i ==> !Less(es[j].key.user, es[i].key.user)
    requires n > 0 ==> Less(es[n - 1].key.user, es[i].key.user)
    ensures Boundary(es, s, n)
    ensures forall m :: n <= m < i ==> !Live(es, s, m) || !Live(es, s, i)
  {
    RanksDiffer();
    forall a, b | 0 <= a < n <= b < |es| ensures Less(es[a].key.user, es[b].key.user) {
      if a < n - 1 {
        InOrder(es, a, n - 1);
      }
      if i < b {
        InOrder(es, i, b);
      }
    }
    forall m | n <= m < i ensures es[m].key.user == es[i].key.user {
      InOrder(es, m, i);
    }
  }

  /** Reverse position: live entries below it are those before k. */
  lemma BehindIsBoundary(es: seq<Entry>, s: nat, pos: Option<nat>, k: nat)
    requires Sorted(es) && k < |LiveList(es, s)| && LiveList(es, s)[k] < |es|
    requires Live(es, s, LiveList(es, s)[k]) && Behind(es, s, pos, es[LiveList(es, s)[k]].key.user)
    ensures var n := if pos.Some? then pos.value + 1 else 0; Boundary(es, s, n) && FirstAt(es, s, n, k)
  {
    RanksDiffer();
    var n := if pos.Some? then pos.value + 1 else 0;
    var i := LiveList(es, s)[k];
    TurnAround(es, s, pos, i);
    forall a, b | 0 <= a < n <= b < |es| && Seen(es, s, b) ensures Less(es[a].key.user, es[b].key.user) {
      if a < n - 1 {
        InOrder(es, a, n - 1);
      }
    }
    AfterLive(es, s, k);
    forall m | n <= m < i ensures !Live(es, s, m) {}
    FirstAtDown(es, s, n, i, k);
  }

  lemma FirstAtDown(es: seq<Entry>, s: nat, n: nat, i: nat, k: nat)
    requires FirstAt(es, s, i, k) && n <= i && forall m :: n <= m < i ==> !Live(es, s, m)
    ensures FirstAt(es, s, n, k)
  {
    LiveToFacts(es, s, |es|);
    var live := LiveList(es, s);
    forall m | 0 <= m < k ensures live[m] < n {
      assert Live(es, s, live[m]);
    }
  }

  /** Reverse: the inner iterator is before every visible entry whose user key is not
      less than `key`. */
  ghost predicate Behind(es: seq<Entry>, s: nat, pos: Option<nat>, key: UserKey) {
    && (pos.Some? ==> pos.value < |es| && Less(es[pos.value].key.user, key))
    && forall j {:trigger Seen(es, s, j)} :: (if pos.Some? then pos.value < j else 0 <= j) && j < |es| && Seen(es, s, j) ==> !Less(es[j].key.user, key)
  }

  /** Position n separates user keys, as far as visible entries go. */
  ghost predicate Boundary(es: seq<Entry>, s: nat, n: nat) {
    n <= |es| && forall i, j {:trigger es[i], Seen(es, s, j)} :: 0 <= i < n <= j < |es| && Seen(es, s, j) ==> Less(es[i].key.user, es[j].key.user)
  }

  /** What `skipping` and `skip` stand for when the forward loop looks at entry q. */
  ghost predicate Hides(es: seq<Entry>, s: nat, q: nat, from: nat, skipping: bool, skip: UserKey) {
    && q < |es| && from <= |es|
    && (forall j {:trigger Seen(es, s, j)} :: 0 <= j < q && Seen(es, s, j) ==>
          if skipping then !Less(skip, es[j].key.user) else Less(es[j].key.user, es[q].key.user))
    && (skipping ==> exists v :: 0 <= v < |es| && (v < q || v < from) && Seen(es, s, v) && es[v].key.user == skip)
    && (forall j {:trigger Seen(es, s, j)} :: q <= j < from && Seen(es, s, j) ==> skipping && es[j].key.user == skip)
  }

  lemma HiddenIsNotLive(es: seq<Entry>, s: nat, q: nat, from: nat, skip: UserKey)
    requires Sorted(es) && Hides(es, s, q, from, true, skip) && Seen(es, s, q) && !Less(skip, es[q].key.user)
    ensures q >= from ==> !Live(es, s, q)
  {
    RanksDiffer();
    var v :| 0 <= v < |es| && (v < q || v < from) && Seen(es, s, v) && es[v].key.user == skip;
    if q >= from {
      InOrder(es, v, q);
    }
  }

  lemma ShownIsLive(es: seq<Entry>, s: nat, q: nat, from: nat, skipping: bool, skip: UserKey)
    requires Sorted(es) && Hides(es, s, q, from, skipping, skip) && Seen(es, s, q) && es[q].key.kind == Value
    requires skipping ==> Less(skip, es[q].key.user)
    ensures q >= from && Live(es, s, q)
  {}

  lemma HidesStep(es: seq<Entry>, s: nat, q: nat, from: nat, skipping: bool, skip: UserKey)
    requires Sorted(es) && Hides(es, s, q, from, skipping, skip) && q + 1 < |es|
    requires Seen(es, s, q) && es[q].key.kind == Value ==> skipping && !Less(skip, es[q].key.user)
    ensures if Seen(es, s, q) && es[q].key.kind == Deletion then Hides(es, s, q + 1, from, true, es[q].key.user)
            else Hides(es, s, q + 1, from, skipping, skip)
  {
    InOrder(es, q, q + 1);
    forall j | 0 <= j < q ensures !Less(es[q].key.user, es[j].key.user) {
      InOrder(es, j, q);
    }
  }

  /** What the backward loop has learnt about the entries in [m, n): c is the lowest
      visible one, and nothing else there can be live. */
  ghost predicate Candidate(es: seq<Entry>, s: nat, m: nat, n: nat, c: Option<nat>, kind: Kind, key: UserKey, value: seq<byte>) {
    && m <= n <= |es|
    && (c.Some? ==> m <= c.value < n && Seen(es, s, c.value) && kind == es[c.value].key.kind)
    && (c.None? ==> kind == Deletion)
    && (forall i {:trigger Seen(es, s, i)} :: m <= i < (if c.Some? then c.value else n) ==> !Seen(es, s, i))
    && (forall i {:trigger Live(es, s, i)} :: m <= i < n && Live(es, s, i) ==> c == Some(i))
    && (kind == Value ==> key == es[c.value].key.user && value == es[c.value].value)
  }

  lemma CandidateMoves(es: seq<Entry>, s: nat, m: nat, n: nat, c: Option<nat>, kind: Kind, key: UserKey, value: seq<byte>)
    requires Sorted(es) && 0 < m && Candidate(es, s, m, n, c, kind, key, value) && Seen(es, s, m - 1)
    requires kind == Value ==> !Less(es[m - 1].key.user, key)
    ensures c.Some? ==> !Live(es, s, c.value)
  {
    RanksDiffer();
    if c.Some? && kind == Value {
      InOrder(es, m - 1, c.value);
    }
  }

  lemma CandidateIsBehind(es: seq<Entry>, s: nat, m: nat, n: nat, c: Option<nat>, kind: Kind, key: UserKey, value: seq<byte>, pos: Option<nat>)
    requires Sorted(es) && Candidate(es, s, m, n, c, kind, key, value) && kind == Value && Boundary(es, s, n)
    requires pos == if m == 0 then None else Some(m - 1)
    requires m > 0 ==> Less(es[m - 1].key.user, key)
    ensures Behind(es, s, pos, key)
  {
    forall j | m <= j < |es| && Seen(es, s, j) ensures !Less(es[j].key.user, key) {
      if c.value < j < n {
        InOrder(es, c.value, j);
      } else if n <= j {
        assert Less(es[c.value].key.user, es[j].key.user);
      }
    }
  }

  lemma CandidateIsLive(es: seq<Entry>, s: nat, m: nat, n: nat, c: Option<nat>, kind: Kind, key: UserKey, value: seq<byte>)
    requires Sorted(es) && Candidate(es, s, m, n, c, kind, key, value) && kind == Value
    requires m > 0 ==> Less(es[m - 1].key.user, key)
    ensures Live(es, s, c.value)
  {
    forall j | 0 <= j < c.value && es[j].key.user == es[c.value].key.user ensures !Seen(es, s, j) {
      if j < m - 1 {
        InOrder(es, j, m - 1);
      }
    }
  }
}
