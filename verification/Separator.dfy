/** Shortened keys for the index of a table: FindShortestSeparator and FindShortSuccessor
    of the byte-wise comparator (util/comparator.cc) and of the internal-key comparator
    (db/dbformat.cc). */
module Separator {
  import opened Keys

  /** Two keys that first differ at position i compare as their bytes there. */
  lemma {:induction false} DiffersAt(a: UserKey, b: UserKey, i: nat, j: nat)
    requires j <= i < |a| && i < |b| && a[..i] == b[..i] && a[i] != b[i]
    ensures CompareFrom(a, b, j) == a[i] as int - b[i] as int
    decreases i - j
  {
    if j < i {
      assert a[..i][j] == b[..i][j];
      DiffersAt(a, b, i, j + 1);
    }
  }

  /** A key is before what it is a proper prefix of. */
  lemma {:induction false} PrefixIsLess(a: UserKey, b: UserKey, j: nat)
    requires a <= b && |a| < |b| && j <= |a|
    ensures CompareFrom(a, b, j) < 0
    decreases |a| - j
  {
    if j < |a| {
      PrefixIsLess(a, b, j + 1);
    }
  }

  /** BytewiseComparatorImpl::FindShortestSeparator */
  method FindShortestSeparator(start: UserKey, limit: UserKey) returns (r: UserKey)
    ensures r == start || (Less(start, r) && Less(r, limit) && |r| <= |start|)
    ensures r == start <==> !CanShorten(start, limit)
    ensures r != start ==> exists i :: 0 <= i < |start| && |r| == i + 1 && r[..i] == start[..i]
  {
    r := start;
    var minLength := if |start| < |limit| then |start| else |limit|;
    var diff := 0;
    while diff < minLength && start[diff] == limit[diff]
      invariant diff <= minLength && start[..diff] == limit[..diff]
    {
      assert start[..diff + 1] == start[..diff] + [start[diff]] && limit[..diff + 1] == limit[..diff] + [limit[diff]];
      diff := diff + 1;
    }
    if diff >= minLength {
      NoDifference(start, limit, diff);
    } else {
      var byte' := start[diff];
      OneDifference(start, limit, diff);
      if byte' < 0xFF && byte' as int + 1 < limit[diff] as int {
        r := start[..diff] + [byte' + 1];
        assert r[..diff] == start[..diff];
        DiffersAt(start, r, diff, 0);
        DiffersAt(r, limit, diff, 0);
      }
    }
  }

  /** The byte where start and limit first differ can be incremented and stays below that
      of limit. */
  ghost predicate CanShorten(start: UserKey, limit: UserKey) {
    exists i :: 0 <= i < |start| && ShortensAt(start, limit, i)
  }

  ghost predicate ShortensAt(start: UserKey, limit: UserKey, i: nat)
    requires i < |start|
  {
    i < |limit| && start[..i] == limit[..i] && start[i] as int + 1 < limit[i] as int
  }

  lemma NoDifference(start: UserKey, limit: UserKey, n: nat)
    requires n == (if |start| < |limit| then |start| else |limit|) && start[..n] == limit[..n]
    ensures !CanShorten(start, limit)
  {
    forall i | 0 <= i < |start| ensures !ShortensAt(start, limit, i) {
      assert i < n ==> start[..n][i] == limit[..n][i];
    }
  }

  lemma OneDifference(start: UserKey, limit: UserKey, n: nat)
    requires n < |start| && n < |limit| && start[..n] == limit[..n] && start[n] != limit[n]
    ensures CanShorten(start, limit) <==> start[n] as int + 1 < limit[n] as int
  {
    assert start[n] as int + 1 < limit[n] as int ==> ShortensAt(start, limit, n);
    forall i | 0 <= i < |start| && i != n ensures !ShortensAt(start, limit, i) {
      assert i < n ==> start[..n][i] == limit[..n][i];
      assert i > n && i < |limit| ==> start[..i][n] == start[n] && limit[..i][n] == limit[n];
    }
  }

  /** BytewiseComparatorImpl::FindShortSuccessor */
  method FindShortSuccessor(key: UserKey) returns (r: UserKey)
    ensures r == key || (Less(key, r) && |r| <= |key|)
    ensures r == key <==> forall i :: 0 <= i < |key| ==> key[i] == 0xFF
  {
    var i := 0;
    while i < |key|
      invariant i <= |key| && forall j :: 0 <= j < i ==> key[j] == 0xFF
    {
      if key[i] != 0xFF {
        r := key[..i] + [key[i] + 1];
        assert r[..i] == key[..i];
        DiffersAt(key, r, i, 0);
        return;
      }
      i := i + 1;
    }
    r := key;
  }

  /** A key at or after `start` and before `limit`; a changed one has a shorter user key
      strictly between theirs, with the number that sorts first. */
  ghost predicate Separates(start: IKey, r: IKey, limit: IKey) {
    r == start || (Less(start.user, r.user) && Less(r.user, limit.user) && |r.user| < |start.user| && r.seqno == MAX_SEQUENCE && r.kind == Value)
  }

  ghost predicate Succeeds(key: IKey, r: IKey) {
    r == key || (Less(key.user, r.user) && |r.user| < |key.user| && r.seqno == MAX_SEQUENCE && r.kind == Value)
  }

  /** InternalKeyComparator::FindShortestSeparator */
  method InternalSeparator(start: IKey, limit: IKey) returns (r: IKey)
    ensures Separates(start, r, limit)
  {
    var tmp := FindShortestSeparator(start.user, limit.user);
    r := start;
    if |tmp| < |start.user| && Less(start.user, tmp) {
      r := IKey(tmp, MAX_SEQUENCE, Value);
    }
  }

  /** InternalKeyComparator::FindShortSuccessor */
  method InternalSuccessor(key: IKey) returns (r: IKey)
    ensures Succeeds(key, r)
  {
    var tmp := FindShortSuccessor(key.user);
    r := key;
    if |tmp| < |key.user| && Less(key.user, tmp) {
      r := IKey(tmp, MAX_SEQUENCE, Value);
    }
  }

  /** The separator is not before start, and before limit. */
  lemma SeparatorIsBetween(start: IKey, r: IKey, limit: IKey)
    requires Separates(start, r, limit) && ILess(start, limit)
    ensures IAtMost(start, r) && ILess(r, limit)
  {}

  /** No user key has entries on both sides of a lookup key at or before the separator: an
      entry at or after limit with k's user key needs k to be at or before start. */
  lemma NothingBeyond(start: IKey, r: IKey, limit: IKey, k: IKey)
    requires Separates(start, r, limit) && ILess(start, k) && IAtMost(k, r)
    requires ILess(start, limit)
    ensures k.user != limit.user
    ensures forall e: IKey :: IAtMost(limit, e) ==> e.user != k.user
  {
    RanksDiffer();
  }
}
