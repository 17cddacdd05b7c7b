/** A memtable flushed while a compaction is running (db/db_impl.cc, the call of
    CompactMemTable inside DoCompactionWork): exactly when the version stays well-formed. */
module FlushRace {
  import opened Keys
  import opened Version
  import opened Drop
  import opened Selection
  import opened CompactionProof
  import opened Flush

  /** The compaction chosen in v is installed after f was flushed into the given level. */
  ghost predicate BothInstalled(v: Levels, p: Picked, outputs: seq<File>, f: File, level: nat, both: Levels) {
    && |v| == |both| == NUM_LEVELS && level < NUM_LEVELS && LevelsInOrder(both)
    && forall l, g {:trigger g in both[l]} :: 0 <= l < NUM_LEVELS ==>
         (g in both[l] <==> Stays(v, p, l, g) || (l == p.level + 1 && g in outputs) || (l == level && g == f))
  }

  /** The flushed file and the outputs have numbers of their own. */
  ghost predicate NumbersApart(v: Levels, outputs: seq<File>, f: File)
    requires |v| == NUM_LEVELS
  {
    OwnNumber(v, f) && forall o :: o in outputs ==> o.number != f.number
  }

  /** No output lies across the flushed file, if they come to the same level. */
  ghost predicate NoneAcross(p: Picked, outputs: seq<File>, f: File, level: nat) {
    level == p.level + 1 ==> forall o :: o in outputs ==> Precedes(f, o) || Precedes(o, f)
  }

  /** It is the compaction's own result with the flushed file in it. */
  lemma SameAsAfter(v: Levels, p: Picked, outputs: seq<File>, v': Levels, f: File, level: nat, both: Levels)
    requires Replaced(v, p, outputs, v') && BothInstalled(v, p, outputs, f, level, both)
    ensures Placed(v', f, level, both)
  {
    forall l, g | 0 <= l < NUM_LEVELS ensures g in both[l] <==> g in v'[l] || (l == level && g == f) {
      assert g in v'[l] <==> Stays(v, p, l, g) || (l == p.level + 1 && g in outputs);
    }
  }

  /** An output's entries are from input files. */
  lemma OutputNewer(v: Levels, p: Picked, outputs: seq<File>, f: File, o: File, maxOverlap: nat, level: nat)
    requires WellFormed(v) && GoodChoice(v, p) && GoodOutputs(v, p, outputs) && o in outputs
    requires GoodFile(f) && NewerThanAll(v, f) && MemLevel(v, RangeOf(f), maxOverlap, level)
    ensures Newer(f, o)
    ensures p.level + 1 <= level ==> Newer(o, f)
  {
    InputsAreFiles(v, p);
    forall e, d | e in f.entries && d in o.entries && e.key.user == d.key.user
      ensures e.key.seqno > d.key.seqno && (p.level + 1 <= level ==> d.key.seqno > e.key.seqno)
    {
      var g := InputFile(p, d);
      var l := if g in p.inputs0 then p.level else p.level + 1;
      assert g in v[l] && Newer(f, g);
      if p.level + 1 <= level {
        NothingMeets(v, RangeOf(f), maxOverlap, level, l, g);
        OutOfRange(g, f);
      }
    }
  }

  lemma RaceFits(v: Levels, p: Picked, outputs: seq<File>, v': Levels, f: File, maxOverlap: nat, level: nat)
    requires Replaced(v, p, outputs, v') && GoodFile(f) && NewerThanAll(v, f)
    requires MemLevel(v, RangeOf(f), maxOverlap, level) && NoneAcross(p, outputs, f, level)
    ensures NewerThanAll(v', f) && FitsIn(v', f, level)
  {
    PickedFits(v, f, maxOverlap, level);
    forall l, g | 0 <= l < |v'| && g in v'[l] ensures Newer(f, g) && (l < level ==> Newer(g, f)) {
      if Stays(v, p, l, g) {
        assert g in v[l];
      } else {
        OutputNewer(v, p, outputs, f, g, maxOverlap, level);
      }
    }
    if level > 0 {
      forall g | g in v'[level] ensures Precedes(f, g) || Precedes(g, f) {
        assert Stays(v, p, level, g) || (level == p.level + 1 && g in outputs);
      }
    }
  }

  lemma RaceNumbers(v: Levels, p: Picked, outputs: seq<File>, v': Levels, f: File)
    requires Replaced(v, p, outputs, v') && NumbersApart(v, outputs, f)
    ensures OwnNumber(v', f)
  {
    forall l, g | 0 <= l < NUM_LEVELS && g in v'[l] ensures g.number != f.number {
      assert Stays(v, p, l, g) || g in outputs;
    }
    forall g | g in v'[0] ensures g.number < f.number {
      assert Stays(v, p, 0, g);
    }
  }

  /** With a memtable flushed during a compaction the version stays well-formed if and only
      if no output lies across the flushed file in the same level. */
  lemma FlushDuringCompaction(v: Levels, p: Picked, outputs: seq<File>, v': Levels, f: File, maxOverlap: nat, level: nat, both: Levels)
    requires Replaced(v, p, outputs, v') && GoodFile(f) && NewerThanAll(v, f) && NumbersApart(v, outputs, f)
    requires MemLevel(v, RangeOf(f), maxOverlap, level) && BothInstalled(v, p, outputs, f, level, both)
    ensures WellFormed(both) <==> NoneAcross(p, outputs, f, level)
  {
    SameAsAfter(v, p, outputs, v', f, level, both);
    if NoneAcross(p, outputs, f, level) {
      StaysWellFormed(v, p, outputs, v');
      RaceFits(v, p, outputs, v', f, maxOverlap, level);
      RaceNumbers(v, p, outputs, v', f);
      AddedKeeps(v', f, level, both);
    }
    if WellFormed(both) && level == p.level + 1 {
      forall o | o in outputs ensures Precedes(f, o) || Precedes(o, f) {
        assert o in both[level] && f in both[level] && o != f;
        assert Disjoint(both[level]);
        DistinctFilesApart(both[level], f, o);
      }
    }
  }

  /** What is readable in principle does not depend on the order of the two: if the
      compaction keeps every view, it also keeps those of the version with the flushed file. */
  lemma RaceKeepsViews(es: set<Entry>, es': set<Entry>, more: set<Entry>, u: UserKey, s: nat)
    requires Unique(es + more) && Unique(es' + more)
    requires forall e, d :: e in more && (d in es || d in es') && e.key.user == d.key.user ==> e.key.seqno > d.key.seqno
    requires View(es, u, s) == View(es', u, s)
    ensures View(es + more, u, s) == View(es' + more, u, s)
  {
    if x :| x in more && Visible(x, u, s) {
      NewestWithMore(es, more, u, s, x);
      NewestWithMore(es', more, u, s, x);
    } else {
      NothingMore(es, more, u, s);
      NothingMore(es', more, u, s);
    }
  }

  lemma NewestWithMore(es: set<Entry>, more: set<Entry>, u: UserKey, s: nat, x: Entry)
    requires Unique(es + more) && x in more && Visible(x, u, s)
    requires forall e, d :: e in more && d in es && e.key.user == d.key.user ==> e.key.seqno > d.key.seqno
    ensures View(es + more, u, s) == View(more, u, s)
  {
    assert Unique(more) by {
      assert forall e :: e in more ==> e in es + more;
    }
    var e := NewestExists(more, u, s, x);
    ViewOfNewest(more, u, s, e);
    assert Newest(es + more, u, s, e);
    ViewOfNewest(es + more, u, s, e);
  }

  lemma NothingMore(es: set<Entry>, more: set<Entry>, u: UserKey, s: nat)
    requires Unique(es + more) && forall x :: x in more ==> !Visible(x, u, s)
    ensures View(es + more, u, s) == View(es, u, s)
  {
    assert Unique(es) by {
      assert forall e :: e in es ==> e in es + more;
    }
    if x :| x in es && Visible(x, u, s) {
      var e := NewestExists(es, u, s, x);
      ViewOfNewest(es, u, s, e);
      assert Newest(es + more, u, s, e);
      ViewOfNewest(es + more, u, s, e);
    }
  }

  /** The flushed entries are not among the others, and differ from each other. */
  lemma StillUnique(es: set<Entry>, f: File)
    requires Unique(es) && GoodFile(f)
    requires forall e, d :: e in EntriesOf(f) && d in es && e.key.user == d.key.user ==> e.key.seqno > d.key.seqno
    ensures Unique(es + EntriesOf(f))
  {
    forall d, e | d in EntriesOf(f) && e in EntriesOf(f) && d.key.user == e.key.user && d.key.seqno == e.key.seqno ensures d == e {
      SameFileEntries(f, d, e);
    }
  }

  lemma AllNewer(v: Levels, f: File)
    requires NewerThanAll(v, f)
    ensures forall e, d :: e in EntriesOf(f) && d in Entries(v) && e.key.user == d.key.user ==> e.key.seqno > d.key.seqno
  {
    forall e, d | e in EntriesOf(f) && d in Entries(v) && e.key.user == d.key.user ensures e.key.seqno > d.key.seqno {
      var l, g :| 0 <= l < |v| && g in v[l] && d in g.entries;
      assert Newer(f, g);
    }
  }

  /** The entries, at least, are all there: reads of everything the version holds stay what
      they were, if the compaction alone keeps them. */
  lemma RaceLosesNoEntry(v: Levels, p: Picked, snap: nat, input: seq<Entry>, outputs: seq<File>, v': Levels, f: File, level: nat, both: Levels, u: UserKey, s: nat)
    requires Ran(v, p, snap, input, outputs, v') && GoodFile(f) && NewerThanAll(v, f)
    requires BothInstalled(v, p, outputs, f, level, both) && s >= snap && !Resurrects(v, p, snap, u)
    ensures View(Entries(v) + EntriesOf(f), u, s) == View(Entries(both), u, s)
  {
    SameAsAfter(v, p, outputs, v', f, level, both);
    AddedEntries(v', f, level, both);
    OnlyDroppedAreGone(v, p, snap, input, outputs, v');
    EntriesAreUnique(v);
    AllNewer(v, f);
    StillUnique(Entries(v), f);
    StillUnique(Entries(v'), f);
    ViewIsKept(v, p, snap, input, outputs, v', u, s);
    RaceKeepsViews(Entries(v), Entries(v'), EntriesOf(f), u, s);
  }
}
