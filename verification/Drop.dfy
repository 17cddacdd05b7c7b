/** The drop rule of DBImpl::DoCompactionWork and Compaction::IsBaseLevelForKey. */
module Drop {
  import opened Keys
  import opened Version

  // ---------------------------------------------------------------- semantics

  ghost predicate Unique(es: set<Entry>) {
    forall d, e :: d in es && e in es && d.key.user == e.key.user && d.key.seqno == e.key.seqno ==> d == e
  }

  /** A newer entry for the same user key is visible to every live snapshot. */
  ghost predicate Hidden(es: set<Entry>, e: Entry, snap: nat) {
    exists d :: d in es && d.key.user == e.key.user && e.key.seqno < d.key.seqno <= snap
  }

  /** A deletion marker old enough for every live snapshot, with nothing older
      left for its user key. */
  ghost predicate Obsolete(left: set<Entry>, e: Entry, snap: nat) {
    && e.key.kind == Deletion && e.key.seqno <= snap
    && forall d :: d in left && d.key.user == e.key.user ==> d.key.seqno > e.key.seqno
  }

  lemma NewestExists(es: set<Entry>, u: UserKey, s: nat, x: Entry) returns (e: Entry)
    requires Unique(es) && x in es && Visible(x, u, s)
    ensures Newest(es, u, s, e)
    decreases s - x.key.seqno
  {
    if d :| d in es && Visible(d, u, s) && d.key.seqno > x.key.seqno {
      e := NewestExists(es, u, s, d);
    } else {
      e := x;
    }
  }

  /** Removing hidden entries and obsolete deletion markers changes no view at or
      above the oldest snapshot. */
  lemma DropKeepsView(before: set<Entry>, after: set<Entry>, u: UserKey, s: nat, snap: nat)
    requires after <= before && Unique(before) && snap <= s
    requires forall e :: e in before && e !in after ==> Hidden(before, e, snap) || Obsolete(after, e, snap)
    ensures View(before, u, s) == View(after, u, s)
  {
    if x :| x in before && Visible(x, u, s) {
      var e := NewestExists(before, u, s, x);
      ViewOfNewest(before, u, s, e);
      if e in after {
        assert Newest(after, u, s, e);
        ViewOfNewest(after, u, s, e);
      } else {
        assert Obsolete(after, e, snap);
        assert forall d :: d in after ==> !Visible(d, u, s);
      }
    }
  }

  // ------------------------------------------------------------ the drop rule

  /** No file from level l on has a range that covers u: the stateless scan. */
  ghost predicate BaseLevel(v: Levels, l: nat, u: UserKey) {
    forall m, f :: l <= m < |v| && f in v[m] ==> !Covers(f, u)
  }

  /** last_sequence_for_key when entry i is looked at. */
  function LastSequence(input: seq<Entry>, i: nat): nat
    requires i < |input|
  {
    if i > 0 && input[i - 1].key.user == input[i].key.user then input[i - 1].key.seqno else MAX_SEQUENCE
  }

  /** Is entry i dropped by a compaction into level l - 1? */
  ghost predicate Dropped(input: seq<Entry>, i: nat, snap: nat, v: Levels, l: nat)
    requires i < |input|
  {
    || LastSequence(input, i) <= snap
    || (input[i].key.kind == Deletion && input[i].key.seqno <= snap && BaseLevel(v, l, input[i].key.user))
  }

  /** What survives of the first n input entries. */
  ghost function Kept(input: seq<Entry>, n: nat, snap: nat, v: Levels, l: nat): (r: seq<Entry>)
    requires n <= |input|
    ensures forall e :: e in r ==> e in input[..n]
  {
    if n == 0 then []
    else if Dropped(input, n - 1, snap, v, l) then Kept(input, n - 1, snap, v, l)
    else Kept(input, n - 1, snap, v, l) + [input[n - 1]]
  }

  lemma {:induction false} KeptMember(input: seq<Entry>, n: nat, snap: nat, v: Levels, l: nat, i: nat)
    requires i < n <= |input| && !Dropped(input, i, snap, v, l)
    ensures input[i] in Kept(input, n, snap, v, l)
  {
    if i < n - 1 {
      KeptMember(input, n - 1, snap, v, l, i);
    }
  }

  lemma {:induction false} KeptOnly(input: seq<Entry>, n: nat, snap: nat, v: Levels, l: nat, e: Entry) returns (i: nat)
    requires n <= |input| && e in Kept(input, n, snap, v, l)
    ensures i < n && input[i] == e && !Dropped(input, i, snap, v, l)
  {
    if !Dropped(input, n - 1, snap, v, l) && input[n - 1] == e {
      i := n - 1;
    } else {
      i := KeptOnly(input, n - 1, snap, v, l, e);
    }
  }

  /** Entries between two entries for the same user key carry that key too. */
  lemma SameKeyRun(input: seq<Entry>, i: nat, j: nat)
    requires Sorted(input) && i < j < |input| && input[i].key.user == input[j].key.user
    ensures input[j - 1].key.user == input[j].key.user
    ensures input[j - 1].key.seqno <= input[i].key.seqno
  {
    RanksDiffer();
    if i < j - 1 {
      assert Before(input[i].key, input[j - 1].key) && Before(input[j - 1].key, input[j].key);
    }
  }

  /** The rule is sound: what it drops is hidden or obsolete, and after an
      obsolete marker every older input entry of the key goes as well. */
  lemma DroppedIsHiddenOrLast(input: seq<Entry>, i: nat, snap: nat, v: Levels, l: nat)
    requires Sorted(input) && i < |input| && snap < MAX_SEQUENCE
    requires Dropped(input, i, snap, v, l)
    ensures || (exists j :: 0 <= j < i && input[j].key.user == input[i].key.user && input[i].key.seqno < input[j].key.seqno <= snap)
            || (&& input[i].key.kind == Deletion && input[i].key.seqno <= snap && BaseLevel(v, l, input[i].key.user)
                && forall j :: i < j < |input| && input[j].key.user == input[i].key.user ==> Dropped(input, j, snap, v, l))
  {
    RanksDiffer();
    if LastSequence(input, i) <= snap {
      assert Before(input[i - 1].key, input[i].key);
    } else {
      forall j | i < j < |input| && input[j].key.user == input[i].key.user ensures Dropped(input, j, snap, v, l) {
        SameKeyRun(input, i, j);
      }
    }
  }

  /** An input entry for the same user key is newer and visible to every live snapshot. */
  ghost predicate HiddenInInput(input: seq<Entry>, e: Entry, snap: nat) {
    exists d :: d in input && d.key.user == e.key.user && e.key.seqno < d.key.seqno <= snap
  }

  /** Exactly the entries go that are hidden, and the old deletion markers whose user key no
      deeper file can hold. */
  lemma DroppedExactly(input: seq<Entry>, i: nat, snap: nat, v: Levels, l: nat)
    requires Sorted(input) && i < |input| && snap < MAX_SEQUENCE
    ensures Dropped(input, i, snap, v, l) <==>
              || HiddenInInput(input, input[i], snap)
              || (&& input[i].key.kind == Deletion && input[i].key.seqno <= snap
                  && forall m, f :: l <= m < |v| && f in v[m] ==> !Covers(f, input[i].key.user))
  {
    if Dropped(input, i, snap, v, l) {
      DroppedIsHiddenOrLast(input, i, snap, v, l);
    }
    if HiddenInInput(input, input[i], snap) {
      var j :| 0 <= j < |input| && input[j].key.user == input[i].key.user && input[i].key.seqno < input[j].key.seqno <= snap;
      if i < j {
        SameKeyRun(input, i, j);
        assert Before(input[i].key, input[j].key);
      } else {
        SameKeyRun(input, j, i);
      }
      RanksDiffer();
    }
  }
}
