/** A compaction, from the choice of its inputs to the installed version, keeps the
    version well formed and changes no view at or above the oldest snapshot. */
module CompactionProof {
  import opened Keys
  import opened Version
  import opened Drop
  import opened Inputs
  import opened Selection
  import opened Builder
  import Manifest

  ghost predicate InFiles(files: seq<File>, e: Entry) {
    exists f :: f in files && e in f.entries
  }

  /** The sorted stream of all input entries (the merging iterator's output). */
  ghost predicate MergesInputs(input: seq<Entry>, p: Picked) {
    Sorted(input) && forall e :: e in input <==> InFiles(p.inputs0, e) || InFiles(p.inputs1, e)
  }

  ghost predicate LevelsInOrder(v: Levels) {
    forall l :: 0 <= l < |v| ==> InOrder(v[l])
  }

  /** The result of installing a compaction, level by level. */
  ghost predicate Installed(v: Levels, p: Picked, outputs: seq<File>, v': Levels)
    requires |v| == NUM_LEVELS
  {
    && |v'| == NUM_LEVELS && LevelsInOrder(v')
    && forall l, f {:trigger f in v'[l]} :: 0 <= l < NUM_LEVELS ==>
         (f in v'[l] <==> Stays(v, p, l, f) || (l == p.level + 1 && f in outputs))
  }

  ghost predicate Stays(v: Levels, p: Picked, l: nat, f: File)
    requires l < |v|
  {
    f in v[l] && !(l == p.level && f in p.inputs0) && !(l == p.level + 1 && f in p.inputs1)
  }

  /** The output files hold input entries only, do not overlap, and carry numbers of
      their own. */
  ghost predicate GoodOutputs(v: Levels, p: Picked, outputs: seq<File>)
    requires |v| == NUM_LEVELS
  {
    && Disjoint(outputs)
    && (forall o :: o in outputs ==> GoodFile(o))
    && (forall o, e :: o in outputs && e in o.entries ==> InFiles(p.inputs0, e) || InFiles(p.inputs1, e))
    && (forall o, q :: o in outputs && q in outputs && o.number == q.number ==> o == q)
    && (forall l, f, o {:trigger f in v[l], o in outputs} ::
          0 <= l < NUM_LEVELS && f in v[l] && o in outputs && (Stays(v, p, l, f) || l == p.level + 1) ==> f.number != o.number)
  }

  /** Inputs replaced by outputs: what a compaction and a trivial move share. */
  ghost predicate Replaced(v: Levels, p: Picked, outputs: seq<File>, v': Levels) {
    WellFormed(v) && GoodChoice(v, p) && GoodOutputs(v, p, outputs) && Installed(v, p, outputs, v')
  }

  /** All that is known once a compaction of a well-formed version has run. */
  ghost predicate Ran(v: Levels, p: Picked, snap: nat, input: seq<Entry>, outputs: seq<File>, v': Levels) {
    && Replaced(v, p, outputs, v') && snap < MAX_SEQUENCE
    && MergesInputs(input, p)
    && Compaction.Flat(outputs) == Kept(input, |input|, snap, v, p.level + 2)
  }

  // ---------------------------------------------------- where output entries come from

  lemma OutputEntry(v: Levels, p: Picked, snap: nat, input: seq<Entry>, outputs: seq<File>, v': Levels, o: File, e: Entry) returns (i: nat)
    requires Ran(v, p, snap, input, outputs, v') && o in outputs && e in o.entries
    ensures i < |input| && input[i] == e && !Dropped(input, i, snap, v, p.level + 2)
  {
    Compaction.FlatMember(outputs, e);
    i := KeptOnly(input, |input|, snap, v, p.level + 2, e);
  }

  lemma InputFile(p: Picked, e: Entry) returns (g: File)
    requires InFiles(p.inputs0, e) || InFiles(p.inputs1, e)
    ensures (g in p.inputs0 || g in p.inputs1) && e in g.entries
  {
    if InFiles(p.inputs0, e) {
      g :| g in p.inputs0 && e in g.entries;
    } else {
      g :| g in p.inputs1 && e in g.entries;
    }
  }

  lemma InputsAreFiles(v: Levels, p: Picked)
    requires WellFormed(v) && GoodChoice(v, p)
    ensures forall g :: g in p.inputs0 ==> g in v[p.level] && GoodFile(g)
    ensures forall g :: g in p.inputs1 ==> g in v[p.level + 1] && GoodFile(g)
  {
    forall g | g in p.inputs0 ensures GoodFile(g) {
      assert g in v[p.level];
    }
    forall g | g in p.inputs1 ensures GoodFile(g) {
      assert g in v[p.level + 1];
    }
  }

  /** A file that stays above the outputs is newer than every input file. */
  lemma StaysNewer(v: Levels, p: Picked, l: nat, f: File, g: File)
    requires WellFormed(v) && GoodChoice(v, p) && l <= p.level && Stays(v, p, l, f)
    requires g in p.inputs0 || g in p.inputs1
    ensures Newer(f, g)
  {
    InputsAreFiles(v, p);
    SelectionLeavesNewer(v, p.level, p.inputs0);
    if g in p.inputs0 {
      if l == p.level {
        assert f !in p.inputs0;
      }
    }
  }

  /** Every input file is newer than a file below the two levels. */
  lemma BelowOlder(v: Levels, p: Picked, m: nat, f: File, g: File)
    requires WellFormed(v) && GoodChoice(v, p) && p.level + 1 < m < NUM_LEVELS && g in v[m]
    requires f in p.inputs0 || f in p.inputs1
    ensures Newer(f, g)
  {
    InputsAreFiles(v, p);
  }

  // ------------------------------------------------------- the installed version

  lemma OutputsNewerThanDeeper(v: Levels, p: Picked, outputs: seq<File>, v': Levels, o: File, m: nat, g: File)
    requires Replaced(v, p, outputs, v') && o in outputs
    requires p.level + 1 < m < NUM_LEVELS && g in v[m]
    ensures Newer(o, g)
  {
    forall e, d | e in o.entries && d in g.entries && e.key.user == d.key.user ensures e.key.seqno > d.key.seqno {
      var f := InputFile(p, e);
      BelowOlder(v, p, m, f, g);
    }
  }

  lemma StaysNewerThanOutputs(v: Levels, p: Picked, outputs: seq<File>, v': Levels, l: nat, f: File, o: File)
    requires Replaced(v, p, outputs, v') && o in outputs
    requires l <= p.level && Stays(v, p, l, f)
    ensures Newer(f, o)
  {
    forall e, d | e in f.entries && d in o.entries && e.key.user == d.key.user ensures e.key.seqno > d.key.seqno {
      var g := InputFile(p, d);
      StaysNewer(v, p, l, f, g);
    }
  }

  lemma AgeIsKept(v: Levels, p: Picked, outputs: seq<File>, v': Levels)
    requires Replaced(v, p, outputs, v')
    ensures LevelsByAge(v') && ZeroByAge(v'[0])
  {
    forall l, m, f, g | 0 <= l < m < |v'| && f in v'[l] && g in v'[m] ensures Newer(f, g) {
      if Stays(v, p, l, f) {
        if !Stays(v, p, m, g) {
          StaysNewerThanOutputs(v, p, outputs, v', l, f, g);
        }
      } else {
        OutputsNewerThanDeeper(v, p, outputs, v', f, m, g);
      }
    }
    forall f, g | f in v'[0] && g in v'[0] && f.number > g.number ensures Newer(f, g) {
      assert Stays(v, p, 0, f) && Stays(v, p, 0, g);
    }
  }

  lemma DistinctFilesApart(files: seq<File>, f: File, g: File)
    requires Disjoint(files) && f in files && g in files && f != g
    ensures Precedes(f, g) || Precedes(g, f)
  {
    var i :| 0 <= i < |files| && files[i] == f;
    var j :| 0 <= j < |files| && files[j] == g;
    assert i < j ==> Precedes(files[i], files[j]);
    assert j < i ==> Precedes(files[j], files[i]);
  }

  /** A lower file that is not compacted lies wholly before or wholly after every
      input entry. */
  lemma ApartFromInputs(v: Levels, p: Picked, f: File, g: File, e: Entry)
    requires WellFormed(v) && GoodChoice(v, p) && Stays(v, p, p.level + 1, f)
    requires (g in p.inputs0 || g in p.inputs1) && e in g.entries
    ensures Less(f.largest.user, p.smallest.user) || Less(p.largest.user, f.smallest.user)
    ensures Less(f.largest.user, p.smallest.user) ==> Before(f.largest, e.key)
    ensures Less(p.largest.user, f.smallest.user) ==> Before(e.key, f.smallest)
  {
    InputsAreFiles(v, p);
    var r := Range(Some(p.smallest.user), Some(p.largest.user));
    assert !Meets(f, r);
    GoodIsBounded(v[p.level + 1]);
    assert Bounded(f);
    if g in p.inputs1 {
      assert Meets(g, r);
      DistinctFilesApart(v[p.level + 1], f, g);
      SidesAgree(f, g, e, r);
    } else {
      EntriesInRange(g);
    }
  }

  lemma SidesAgree(f: File, g: File, e: Entry, r: Range)
    requires Bounded(f) && GoodFile(g) && e in g.entries && (Precedes(f, g) || Precedes(g, f))
    requires r.lo.Some? && r.hi.Some? && Meets(g, r)
    ensures Less(f.largest.user, r.lo.value) ==> Before(f.largest, e.key)
    ensures Less(r.hi.value, f.smallest.user) ==> Before(e.key, f.smallest)
  {
    SmallestUpToLargest(g);
  }

  lemma ApartFromOutputs(v: Levels, p: Picked, outputs: seq<File>, v': Levels, f: File, o: File)
    requires Replaced(v, p, outputs, v') && o in outputs && Stays(v, p, p.level + 1, f)
    ensures Precedes(f, o) || Precedes(o, f)
  {
    assert GoodFile(o);
    var first, last := o.entries[0], o.entries[|o.entries| - 1];
    assert first in o.entries && last in o.entries;
    var g := InputFile(p, first);
    var h := InputFile(p, last);
    ApartFromInputs(v, p, f, g, first);
    ApartFromInputs(v, p, f, h, last);
  }

  /** Files in BySmallest order that are pairwise apart are disjoint in that order. */
  lemma OrderedApart(files: seq<File>)
    requires InOrder(files) && AllBounded(files)
    requires forall f, g {:trigger Precedes(f, g)} :: f in files && g in files && f != g ==> Precedes(f, g) || Precedes(g, f)
    ensures Disjoint(files)
  {
    forall i, j | 0 <= i < j < |files| ensures Precedes(files[i], files[j]) {
      var f, g := files[i], files[j];
      assert BySmallest(f, g);
      BySmallestTotal(f, g);
      assert Bounded(f) && Bounded(g);
      assert Precedes(f, g) || Precedes(g, f);
    }
  }

  lemma LevelsAreGood(v: Levels, p: Picked, outputs: seq<File>, v': Levels)
    requires Replaced(v, p, outputs, v')
    ensures GoodFiles(v') && SortedLevels(v')
  {
    forall l, f | 0 <= l < |v'| && f in v'[l] ensures GoodFile(f) {
      if Stays(v, p, l, f) {
        assert f in v[l];
      }
    }
    forall l | 1 <= l < |v'| ensures Disjoint(v'[l]) {
      GoodIsBounded(v'[l]);
      forall f, g | f in v'[l] && g in v'[l] && f != g ensures Precedes(f, g) || Precedes(g, f) {
        if Stays(v, p, l, f) && Stays(v, p, l, g) {
          DistinctFilesApart(v[l], f, g);
        } else if Stays(v, p, l, f) {
          ApartFromOutputs(v, p, outputs, v', f, g);
        } else if Stays(v, p, l, g) {
          ApartFromOutputs(v, p, outputs, v', g, f);
        } else {
          DistinctFilesApart(outputs, f, g);
        }
      }
      OrderedApart(v'[l]);
    }
  }

  lemma OneNumberOneFile(v: Levels, p: Picked, outputs: seq<File>, v': Levels, l: nat, m: nat, f: File, g: File)
    requires Replaced(v, p, outputs, v')
    requires l < NUM_LEVELS && m < NUM_LEVELS && f in v'[l] && g in v'[m] && f.number == g.number
    ensures l == m && f == g
  {
    if Stays(v, p, l, f) && Stays(v, p, m, g) {
      var i :| 0 <= i < |v[l]| && v[l][i] == f;
      var j :| 0 <= j < |v[m]| && v[m][j] == g;
    }
  }

  lemma NumbersStayDistinct(v: Levels, p: Picked, outputs: seq<File>, v': Levels)
    requires Replaced(v, p, outputs, v')
    ensures DistinctNumbers(v')
  {
    forall l, m, i, j | (0 <= l < |v'| && 0 <= m < |v'| && 0 <= i < |v'[l]| && 0 <= j < |v'[m]|
                         && v'[l][i].number == v'[m][j].number)
      ensures l == m && i == j
    {
      OneNumberOneFile(v, p, outputs, v', l, m, v'[l][i], v'[m][j]);
      assert InOrder(v'[l]);
      if i < j {
        assert BySmallest(v'[l][i], v'[l][j]);
        BySmallestTotal(v'[l][i], v'[l][j]);
      } else if j < i {
        assert BySmallest(v'[l][j], v'[l][i]);
        BySmallestTotal(v'[l][j], v'[l][i]);
      }
    }
  }

  /** Compaction keeps every invariant of the version. */
  lemma StaysWellFormed(v: Levels, p: Picked, outputs: seq<File>, v': Levels)
    requires Replaced(v, p, outputs, v')
    ensures WellFormed(v') && LevelsInOrder(v')
  {
    AgeIsKept(v, p, outputs, v');
    LevelsAreGood(v, p, outputs, v');
    NumbersStayDistinct(v, p, outputs, v');
  }

  // -------------------------------------------------------------------- views

  /** Of two different files of a well-formed version one is newer. */
  lemma FilesSeparate(v: Levels, l: nat, m: nat, f: File, g: File)
    requires WellFormed(v) && l <= m < |v| && f in v[l] && g in v[m]
    ensures (l == m && f == g) || Newer(f, g) || Newer(g, f)
  {
    if l == m && f != g {
      var i :| 0 <= i < |v[l]| && v[l][i] == f;
      var j :| 0 <= j < |v[l]| && v[l][j] == g;
      if l == 0 {
        assert f.number > g.number || g.number > f.number;
      } else if i < j {
        EarlierIsNewer(v[l], i, j);
      } else {
        EarlierIsNewer(v[l], j, i);
      }
    }
  }

  lemma SameFileEntries(f: File, d: Entry, e: Entry)
    requires GoodFile(f) && d in f.entries && e in f.entries
    requires d.key.user == e.key.user && d.key.seqno == e.key.seqno
    ensures d == e
  {
    var i :| 0 <= i < |f.entries| && f.entries[i] == d;
    var j :| 0 <= j < |f.entries| && f.entries[j] == e;
    assert i < j ==> Before(f.entries[i].key, f.entries[j].key);
    assert j < i ==> Before(f.entries[j].key, f.entries[i].key);
  }

  /** No two entries of a well-formed version share user key and sequence number. */
  lemma EntriesAreUnique(v: Levels)
    requires WellFormed(v)
    ensures Unique(Entries(v))
  {
    forall d, e | d in Entries(v) && e in Entries(v) && d.key.user == e.key.user && d.key.seqno == e.key.seqno ensures d == e {
      var l, f :| 0 <= l < |v| && f in v[l] && d in f.entries;
      var m, g :| 0 <= m < |v| && g in v[m] && e in g.entries;
      if l <= m {
        FilesSeparate(v, l, m, f, g);
      } else {
        FilesSeparate(v, m, l, g, f);
      }
      if f == g {
        SameFileEntries(f, d, e);
      }
    }
  }

  /** Compaction only removes entries, and what it removes are dropped input entries. */
  lemma OnlyDroppedAreGone(v: Levels, p: Picked, snap: nat, input: seq<Entry>, outputs: seq<File>, v': Levels)
    requires Ran(v, p, snap, input, outputs, v')
    ensures Entries(v') <= Entries(v)
    ensures forall e :: e in Entries(v) && e !in Entries(v') ==> exists i :: 0 <= i < |input| && input[i] == e && Dropped(input, i, snap, v, p.level + 2)
  {
    InputsAreFiles(v, p);
    forall e | e in Entries(v') ensures e in Entries(v) {
      var l, f :| 0 <= l < |v'| && f in v'[l] && e in f.entries;
      if Stays(v, p, l, f) {
        assert f in v[l];
      } else {
        var i := OutputEntry(v, p, snap, input, outputs, v', f, e);
        var g := InputFile(p, e);
      }
    }
    forall e | e in Entries(v) && e !in Entries(v')
      ensures exists i :: 0 <= i < |input| && input[i] == e && Dropped(input, i, snap, v, p.level + 2)
    {
      var l, f :| 0 <= l < |v| && f in v[l] && e in f.entries;
      assert f !in v'[l];
      assert !Stays(v, p, l, f);
      assert f in p.inputs0 || f in p.inputs1;
      assert e in input;
      var i :| 0 <= i < |input| && input[i] == e;
      if !Dropped(input, i, snap, v, p.level + 2) {
        KeptSurvives(v, p, snap, input, outputs, v', i);
      }
    }
  }

  lemma KeptSurvives(v: Levels, p: Picked, snap: nat, input: seq<Entry>, outputs: seq<File>, v': Levels, i: nat)
    requires Ran(v, p, snap, input, outputs, v') && i < |input| && !Dropped(input, i, snap, v, p.level + 2)
    ensures input[i] in Entries(v')
  {
    KeptMember(input, |input|, snap, v, p.level + 2, i);
    Compaction.FlatMember(outputs, input[i]);
    var o :| o in outputs && input[i] in o.entries;
    assert o in v'[p.level + 1];
  }

  lemma SameSlot(input: seq<Entry>, i: nat, k: nat)
    requires Sorted(input) && i < |input| && k < |input| && input[i] == input[k]
    ensures i == k
  {
    assert i < k ==> Before(input[i].key, input[k].key);
    assert k < i ==> Before(input[k].key, input[i].key);
  }

  /** A dropped entry does not survive anywhere. */
  lemma DroppedIsGone(v: Levels, p: Picked, snap: nat, input: seq<Entry>, outputs: seq<File>, v': Levels, i: nat)
    requires Ran(v, p, snap, input, outputs, v') && i < |input| && Dropped(input, i, snap, v, p.level + 2)
    ensures input[i] !in Entries(v')
  {
    var e := input[i];
    if e in Entries(v') {
      var l, f :| 0 <= l < |v'| && f in v'[l] && e in f.entries;
      InputsAreFiles(v, p);
      var g := InputFile(p, e);
      if Stays(v, p, l, f) {
        var m := if g in p.inputs0 then p.level else p.level + 1;
        if l <= m {
          FilesSeparate(v, l, m, f, g);
        } else {
          FilesSeparate(v, m, l, g, f);
        }
      } else {
        var k := OutputEntry(v, p, snap, input, outputs, v', f, e);
        SameSlot(input, i, k);
      }
    }
  }

  /** An entry of a lower-level file that is not compacted. */
  ghost predicate Leftover(v: Levels, p: Picked, d: Entry)
    requires |v| == NUM_LEVELS && p.level + 1 < NUM_LEVELS
  {
    exists f :: f in v[p.level + 1] && f !in p.inputs1 && d in f.entries
  }

  /** Only a leftover lower file can still hold something older than a dropped
      deletion marker, and only if the marker came from the lower level. */
  lemma OlderIsLeftover(v: Levels, p: Picked, snap: nat, input: seq<Entry>, outputs: seq<File>, v': Levels, i: nat, d: Entry)
    requires Ran(v, p, snap, input, outputs, v') && i < |input|
    requires BaseLevel(v, p.level + 2, input[i].key.user)
    requires forall j :: i <= j < |input| && input[j].key.user == input[i].key.user ==> Dropped(input, j, snap, v, p.level + 2)
    requires d in Entries(v') && d.key.user == input[i].key.user && d.key.seqno <= input[i].key.seqno
    ensures Leftover(v, p, d) && InFiles(p.inputs1, input[i])
  {
    var l, f :| 0 <= l < |v'| && f in v'[l] && d in f.entries;
    var g := InputFile(p, input[i]);
    if !Stays(v, p, l, f) {
      KeptIsNewer(v, p, snap, input, outputs, v', i, f, d);
    } else if l <= p.level {
      StaysNewer(v, p, l, f, g);
    } else if l > p.level + 1 {
      DeeperHasOtherKeys(v, l, p.level + 2, input[i].key.user, f, d);
    } else if g in p.inputs0 {
      UpperHasOtherKeys(v, p, f, d, g, input[i]);
    }
  }

  lemma KeptIsNewer(v: Levels, p: Picked, snap: nat, input: seq<Entry>, outputs: seq<File>, v': Levels, i: nat, o: File, d: Entry)
    requires Ran(v, p, snap, input, outputs, v') && i < |input|
    requires forall j :: i <= j < |input| && input[j].key.user == input[i].key.user ==> Dropped(input, j, snap, v, p.level + 2)
    requires o in outputs && d in o.entries && d.key.user == input[i].key.user
    ensures d.key.seqno > input[i].key.seqno
  {
    var k := OutputEntry(v, p, snap, input, outputs, v', o, d);
    assert Before(input[k].key, input[i].key);
  }

  lemma DeeperHasOtherKeys(v: Levels, l: nat, m: nat, u: UserKey, f: File, d: Entry)
    requires WellFormed(v) && m <= l < |v| && BaseLevel(v, m, u) && f in v[l] && d in f.entries
    ensures d.key.user != u
  {
    EntriesInRange(f);
    assert !Covers(f, u);
  }

  lemma UpperHasOtherKeys(v: Levels, p: Picked, f: File, d: Entry, g: File, e: Entry)
    requires WellFormed(v) && GoodChoice(v, p) && Stays(v, p, p.level + 1, f) && d in f.entries
    requires g in p.inputs0 && e in g.entries
    ensures d.key.user != e.key.user
  {
    ApartFromInputs(v, p, f, g, e);
    InputRange(v, p, g, e);
    assert GoodFile(f);
    EntriesInRange(f);
  }

  lemma InputRange(v: Levels, p: Picked, g: File, e: Entry)
    requires WellFormed(v) && GoodChoice(v, p) && g in p.inputs0 && e in g.entries
    ensures !Less(e.key.user, p.smallest.user) && !Less(p.largest.user, e.key.user)
  {
    InputsAreFiles(v, p);
    EntriesInRange(g);
  }

  /** The one thing that can go wrong: for user key u the newest entry a snapshot at
      `snap` sees is a deletion marker of a compacted lower file, and a lower file
      that is left alone continues u with an older value. */
  ghost predicate Resurrects(v: Levels, p: Picked, snap: nat, u: UserKey)
    requires |v| == NUM_LEVELS && p.level + 1 < NUM_LEVELS
  {
    exists e, d :: Marker(v, p, snap, u, e) && NextLeftover(v, p, e, d) && d.key.kind == Value
  }

  ghost predicate Marker(v: Levels, p: Picked, snap: nat, u: UserKey, e: Entry) {
    && Newest(Entries(v), u, snap, e) && e.key.kind == Deletion
    && InFiles(p.inputs1, e) && BaseLevel(v, p.level + 2, u)
  }

  /** d is the newest leftover entry older than e. */
  ghost predicate NextLeftover(v: Levels, p: Picked, e: Entry, d: Entry)
    requires |v| == NUM_LEVELS && p.level + 1 < NUM_LEVELS
  {
    && Leftover(v, p, d) && d.key.user == e.key.user && d.key.seqno < e.key.seqno
    && forall x :: Leftover(v, p, x) && x.key.user == e.key.user && x.key.seqno < e.key.seqno ==> x == d || x.key.seqno < d.key.seqno
  }

  lemma LeftoverStays(v: Levels, p: Picked, snap: nat, input: seq<Entry>, outputs: seq<File>, v': Levels, d: Entry)
    requires Ran(v, p, snap, input, outputs, v') && Leftover(v, p, d)
    ensures d in Entries(v')
  {
    var f :| f in v[p.level + 1] && f !in p.inputs1 && d in f.entries;
    assert Stays(v, p, p.level + 1, f);
    assert f in v'[p.level + 1];
  }

  /** Without a resurrection the view of u does not change. */
  lemma ViewIsKept(v: Levels, p: Picked, snap: nat, input: seq<Entry>, outputs: seq<File>, v': Levels, u: UserKey, s: nat)
    requires Ran(v, p, snap, input, outputs, v') && s >= snap && !Resurrects(v, p, snap, u)
    ensures View(Entries(v), u, s) == View(Entries(v'), u, s)
  {
    EntriesAreUnique(v);
    OnlyDroppedAreGone(v, p, snap, input, outputs, v');
    if x :| x in Entries(v) && Visible(x, u, s) {
      var e := NewestExists(Entries(v), u, s, x);
      ViewOfNewest(Entries(v), u, s, e);
      if e in Entries(v') {
        assert Newest(Entries(v'), u, s, e);
        ViewOfNewest(Entries(v'), u, s, e);
      } else {
        var i :| 0 <= i < |input| && input[i] == e && Dropped(input, i, snap, v, p.level + 2);
        NewestDropIsMarker(v, p, snap, input, outputs, v', i, u, s);
        ViewAfterMarker(v, p, snap, input, outputs, v', i, u, s);
      }
    }
  }

  /** Where the newest visible entry was a dropped marker, nothing shows up instead. */
  lemma ViewAfterMarker(v: Levels, p: Picked, snap: nat, input: seq<Entry>, outputs: seq<File>, v': Levels, i: nat, u: UserKey, s: nat)
    requires Ran(v, p, snap, input, outputs, v') && s >= snap && !Resurrects(v, p, snap, u)
    requires i < |input| && input[i] !in Entries(v') && input[i].key.kind == Deletion && BaseLevel(v, p.level + 2, u)
    requires Newest(Entries(v), u, snap, input[i]) && Newest(Entries(v), u, s, input[i])
    requires forall j :: i <= j < |input| && input[j].key.user == u ==> Dropped(input, j, snap, v, p.level + 2)
    requires Entries(v') <= Entries(v) && Unique(Entries(v))
    ensures View(Entries(v'), u, s) == None
  {
    if y :| y in Entries(v') && Visible(y, u, s) {
      var d := NewestExists(Entries(v'), u, s, y);
      OlderIsLeftover(v, p, snap, input, outputs, v', i, d);
      assert Marker(v, p, snap, u, input[i]);
      forall z | Leftover(v, p, z) && z.key.user == u && z.key.seqno < input[i].key.seqno ensures z == d || z.key.seqno < d.key.seqno {
        LeftoverStays(v, p, snap, input, outputs, v', z);
      }
      assert NextLeftover(v, p, input[i], d);
      ViewOfNewest(Entries(v'), u, s, d);
    }
  }

  /** If the newest visible entry is dropped, it is an obsolete deletion marker. */
  lemma NewestDropIsMarker(v: Levels, p: Picked, snap: nat, input: seq<Entry>, outputs: seq<File>, v': Levels, i: nat, u: UserKey, s: nat)
    requires Ran(v, p, snap, input, outputs, v') && s >= snap && i < |input|
    requires Dropped(input, i, snap, v, p.level + 2) && Newest(Entries(v), u, s, input[i])
    ensures input[i].key.kind == Deletion && BaseLevel(v, p.level + 2, u)
    ensures Newest(Entries(v), u, snap, input[i])
    ensures forall j :: i <= j < |input| && input[j].key.user == u ==> Dropped(input, j, snap, v, p.level + 2)
  {
    DroppedIsHiddenOrLast(input, i, snap, v, p.level + 2);
    forall j | 0 <= j < |input| ensures input[j] in Entries(v) {
      var g := InputFile(p, input[j]);
      InputsAreFiles(v, p);
    }
  }

  /** A resurrection changes the view at the oldest snapshot. */
  lemma ResurrectionShows(v: Levels, p: Picked, snap: nat, input: seq<Entry>, outputs: seq<File>, v': Levels, u: UserKey)
    requires Ran(v, p, snap, input, outputs, v') && Resurrects(v, p, snap, u)
    ensures View(Entries(v), u, snap) == None && View(Entries(v'), u, snap) != None
  {
    var e, d :| Marker(v, p, snap, u, e) && NextLeftover(v, p, e, d) && d.key.kind == Value;
    ViewOfNewest(Entries(v), u, snap, e);
    OnlyDroppedAreGone(v, p, snap, input, outputs, v');
    LeftoverStays(v, p, snap, input, outputs, v', d);
    assert e in input;
    var i :| 0 <= i < |input| && input[i] == e;
    assert Dropped(input, i, snap, v, p.level + 2);
    NewestDropIsMarker(v, p, snap, input, outputs, v', i, u, snap);
    DroppedIsGone(v, p, snap, input, outputs, v', i);
    forall x | x in Entries(v') && Visible(x, u, snap) ensures x == d || x.key.seqno < d.key.seqno {
      assert x in Entries(v) && x != e;
      OlderIsLeftover(v, p, snap, input, outputs, v', i, x);
    }
    ViewOfNewest(Entries(v'), u, snap, d);
  }

  /** Exactly when a compaction keeps every readable view: it does if and only if no
      user key is resurrected. */
  lemma ViewsKeptExactly(v: Levels, p: Picked, snap: nat, input: seq<Entry>, outputs: seq<File>, v': Levels)
    requires Ran(v, p, snap, input, outputs, v')
    ensures (forall u, s :: s >= snap ==> View(Entries(v), u, s) == View(Entries(v'), u, s)) <==> (forall u :: !Resurrects(v, p, snap, u))
  {
    if forall u :: !Resurrects(v, p, snap, u) {
      forall u, s: nat | s >= snap ensures View(Entries(v), u, s) == View(Entries(v'), u, s) {
        ViewIsKept(v, p, snap, input, outputs, v', u, s);
      }
    } else {
      var u :| Resurrects(v, p, snap, u);
      ResurrectionShows(v, p, snap, input, outputs, v', u);
    }
  }

  lemma LeftoverIsNewer(v: Levels, p: Picked, d: Entry, e: Entry)
    requires |v| == NUM_LEVELS && p.level + 1 < NUM_LEVELS && LeftIsNewer(v[p.level + 1], p.inputs1)
    requires Leftover(v, p, d) && InFiles(p.inputs1, e) && d.key.user == e.key.user
    ensures d.key.seqno > e.key.seqno
  {
    var f :| f in v[p.level + 1] && f !in p.inputs1 && d in f.entries;
    var g :| g in p.inputs1 && e in g.entries;
    assert Newer(f, g);
  }

  /** With lower inputs closed per user key, every view is kept. */
  lemma ViewsKeptWhenClosed(v: Levels, p: Picked, snap: nat, input: seq<Entry>, outputs: seq<File>, v': Levels)
    requires Ran(v, p, snap, input, outputs, v') && LeftIsNewer(v[p.level + 1], p.inputs1)
    ensures forall u, s :: s >= snap ==> View(Entries(v), u, s) == View(Entries(v'), u, s)
  {
    forall u ensures !Resurrects(v, p, snap, u) {
      if e, d :| Marker(v, p, snap, u, e) && NextLeftover(v, p, e, d) && d.key.kind == Value {
        LeftoverIsNewer(v, p, d, e);
      }
    }
    ViewsKeptExactly(v, p, snap, input, outputs, v');
  }

  // ------------------------------------------------- installing and running it all

  /** The edit of InstallCompactionResults (or of a trivial move): every input is
      deleted, every output is added one level down. */
  ghost predicate CompactionEdit(p: Picked, outputs: seq<File>, e: Edit) {
    && (forall l, n :: (l, n) in e.deletedFiles <==>
          (l == p.level && exists f :: f in p.inputs0 && f.number == n) || (l == p.level + 1 && exists f :: f in p.inputs1 && f.number == n))
    && |e.newFiles| == |outputs| && forall i :: 0 <= i < |outputs| ==> e.newFiles[i] == (p.level + 1, outputs[i])
  }

  method AddInputDeletions(p: Picked) returns (d: set<(nat, nat)>)
    ensures forall l, n :: (l, n) in d <==>
          (l == p.level && exists f :: f in p.inputs0 && f.number == n) || (l == p.level + 1 && exists f :: f in p.inputs1 && f.number == n)
  {
    d := {};
    for i := 0 to |p.inputs0|
      invariant forall l, n :: (l, n) in d <==> l == p.level && exists k :: 0 <= k < i && p.inputs0[k].number == n
    {
      d := d + {(p.level, p.inputs0[i].number)};
    }
    ghost var d0 := d;
    for i := 0 to |p.inputs1|
      invariant forall l, n :: (l, n) in d <==> (l, n) in d0 || (l == p.level + 1 && exists k :: 0 <= k < i && p.inputs1[k].number == n)
    {
      d := d + {(p.level + 1, p.inputs1[i].number)};
    }
  }

  /** In a well-formed version deleting by number deletes exactly the inputs. */
  lemma DeletionsHitInputs(v: Levels, p: Picked, outputs: seq<File>, e: Edit, l: nat, f: File)
    requires WellFormed(v) && GoodChoice(v, p) && GoodOutputs(v, p, outputs) && CompactionEdit(p, outputs, e)
    requires l < NUM_LEVELS && f in v[l]
    ensures (l, f.number) in e.deletedFiles <==> !Stays(v, p, l, f)
  {
    if (l, f.number) in e.deletedFiles {
      var g :| (g in p.inputs0 || g in p.inputs1) && g.number == f.number && g in v[l] && !Stays(v, p, l, g);
      var i :| 0 <= i < |v[l]| && v[l][i] == f;
      var j :| 0 <= j < |v[l]| && v[l][j] == g;
    }
  }

  lemma OutputNumbersDiffer(v: Levels, p: Picked, outputs: seq<File>, i: nat, j: nat)
    requires |v| == NUM_LEVELS && GoodOutputs(v, p, outputs) && i < j < |outputs|
    ensures outputs[i].number != outputs[j].number
  {
    assert outputs[i] in outputs && outputs[j] in outputs;
    assert Precedes(outputs[i], outputs[j]);
    GoodIsBounded(outputs);
    assert Bounded(outputs[i]);
  }

  /** What the edit adds to a level. */
  lemma AddedByEdit(v: Levels, p: Picked, outputs: seq<File>, e: Edit, l: nat)
    requires |v| == NUM_LEVELS && GoodOutputs(v, p, outputs) && CompactionEdit(p, outputs, e)
    ensures InOrder(AddedAfter([], e, l))
    ensures forall f :: f in AddedAfter([], e, l) <==> l == p.level + 1 && f in outputs
    ensures NewNumbers(e.newFiles, l, |e.newFiles|) == if l == p.level + 1 then (set o | o in outputs :: o.number) else {}
  {
    forall i, j | 0 <= i < j < |outputs| ensures outputs[i].number != outputs[j].number {
      OutputNumbersDiffer(v, p, outputs, i, j);
    }
    Manifest.AddToMembers([], e.newFiles, l, |e.newFiles|, {});
    assert e.newFiles[..|e.newFiles|] == e.newFiles;
    TaggedOutputs(p.level + 1, outputs, e.newFiles, l);
  }

  lemma TaggedOutputs(level: nat, outputs: seq<File>, news: seq<(nat, File)>, l: nat)
    requires |news| == |outputs| && forall i :: 0 <= i < |outputs| ==> news[i] == (level, outputs[i])
    ensures forall f :: (l, f) in news <==> l == level && f in outputs
    ensures NewNumbers(news, l, |news|) == if l == level then (set o | o in outputs :: o.number) else {}
  {
    forall f | l == level && f in outputs ensures (l, f) in news && f.number in NewNumbers(news, l, |news|) {
      var i :| 0 <= i < |outputs| && outputs[i] == f;
      assert news[i] == (l, f);
    }
  }

  /** Applying the edit installs exactly the replacement. */
  lemma EditInstalls(v: Levels, p: Picked, outputs: seq<File>, e: Edit, v': Levels)
    requires WellFormed(v) && LevelsInOrder(v) && GoodChoice(v, p) && GoodOutputs(v, p, outputs) && CompactionEdit(p, outputs, e)
    requires |v'| == NUM_LEVELS && forall l :: 0 <= l < NUM_LEVELS ==> Manifest.LiveStep(v[l], e, l, v'[l])
    ensures Installed(v, p, outputs, v')
  {
    forall l | 0 <= l < NUM_LEVELS
      ensures InOrder(v'[l]) && forall f :: f in v'[l] <==> Stays(v, p, l, f) || (l == p.level + 1 && f in outputs)
    {
      AddedByEdit(v, p, outputs, e, l);
      assert Manifest.LiveStep(v[l], e, l, v'[l]);
      LevelInstalled(v, p, outputs, e, l, v'[l]);
    }
  }

  lemma LevelInstalled(v: Levels, p: Picked, outputs: seq<File>, e: Edit, l: nat, files: seq<File>)
    requires WellFormed(v) && GoodChoice(v, p) && GoodOutputs(v, p, outputs) && CompactionEdit(p, outputs, e)
    requires l < NUM_LEVELS && Manifest.LiveStep(v[l], e, l, files)
    requires forall f :: f in AddedAfter([], e, l) <==> l == p.level + 1 && f in outputs
    requires NewNumbers(e.newFiles, l, |e.newFiles|) == if l == p.level + 1 then (set o | o in outputs :: o.number) else {}
    ensures InOrder(files) && forall f :: f in files <==> Stays(v, p, l, f) || (l == p.level + 1 && f in outputs)
  {
    var gone := DeletedAfter({}, e, l);
    assert forall f :: f in files <==> (f in v[l] || f in AddedAfter([], e, l)) && f.number !in gone;
    forall f | f in v[l] ensures f.number in gone <==> !Stays(v, p, l, f) {
      DeletionsHitInputs(v, p, outputs, e, l, f);
    }
    forall f, g | f in v[l] && g in AddedAfter([], e, l) ensures !SameKey(f, g) {
      assert f.number != g.number;
    }
  }

  method InstallCompactionResults(v: Levels, p: Picked, outputs: seq<File>) returns (v': Levels)
    requires WellFormed(v) && LevelsInOrder(v) && GoodChoice(v, p) && GoodOutputs(v, p, outputs)
    ensures Replaced(v, p, outputs, v')
  {
    var deletions := AddInputDeletions(p);
    var news: seq<(nat, File)> := [];
    for i := 0 to |outputs|
      invariant |news| == i && forall k :: 0 <= k < i ==> news[k] == (p.level + 1, outputs[k])
    {
      news := news + [(p.level + 1, outputs[i])];
    }
    var e := Edit(deletions, news);
    v' := Manifest.LogAndApply(v, e);
    EditInstalls(v, p, outputs, e, v');
  }

  /** n is larger than every file number in use. */
  ghost predicate Above(v: Levels, n: nat) {
    forall l, f :: 0 <= l < |v| && f in v[l] ==> f.number < n
  }

  lemma OutputsAreGood(v: Levels, p: Picked, snap: nat, input: seq<Entry>, outputs: seq<File>, first: nat)
    requires WellFormed(v) && GoodChoice(v, p) && MergesInputs(input, p)
    requires Compaction.Outputs(outputs, [], first) && Above(v, first)
    requires Compaction.Flat(outputs) == Kept(input, |input|, snap, v, p.level + 2)
    ensures GoodOutputs(v, p, outputs)
  {
    forall o, e | o in outputs && e in o.entries ensures e in input {
      Compaction.FlatMember(outputs, e);
      var i := KeptOnly(input, |input|, snap, v, p.level + 2, e);
    }
  }

  /** The file is now one level further down, and every other file is where it was. */
  ghost predicate Moved(v: Levels, v': Levels, level: nat, f: File) {
    && level + 1 < NUM_LEVELS == |v| == |v'| && f in v[level] && f !in v'[level] && f in v'[level + 1]
    && forall l, g {:trigger g in v'[l]} {:trigger g in v[l]} :: 0 <= l < NUM_LEVELS && !(g == f && (l == level || l == level + 1)) ==> (g in v'[l] <==> g in v[l])
  }

  /** A trivial move: one upper file, no lower ones.  Nothing readable changes. */
  method TrivialMove(v: Levels, p: Picked) returns (v': Levels)
    requires WellFormed(v) && LevelsInOrder(v) && GoodChoice(v, p)
    requires |p.inputs0| == 1 && p.inputs1 == []
    ensures WellFormed(v') && LevelsInOrder(v') && Entries(v') == Entries(v)
    ensures Moved(v, v', p.level, p.inputs0[0])
  {
    var f := p.inputs0[0];
    InputsAreFiles(v, p);
    assert f in p.inputs0;
    MoveIsGood(v, p, f);
    v' := InstallCompactionResults(v, p, [f]);
    StaysWellFormed(v, p, [f], v');
    MoveKeepsEntries(v, p, f, v');
    OneFileMoves(v, p, f, v');
  }

  lemma OneFileMoves(v: Levels, p: Picked, f: File, v': Levels)
    requires Replaced(v, p, [f], v') && p.inputs0 == [f] && p.inputs1 == []
    ensures Moved(v, v', p.level, f)
  {
    assert f in p.inputs0;
    assert f in [f];
    assert f in v[p.level] && f in v'[p.level + 1];
    assert !Stays(v, p, p.level, f);
    forall l, g | 0 <= l < NUM_LEVELS && !(g == f && (l == p.level || l == p.level + 1)) ensures g in v'[l] <==> g in v[l] {
      assert Stays(v, p, l, g) <==> g in v[l];
    }
  }

  lemma MoveIsGood(v: Levels, p: Picked, f: File)
    requires WellFormed(v) && GoodChoice(v, p) && p.inputs0 == [f] && p.inputs1 == []
    ensures GoodOutputs(v, p, [f])
  {
    assert f in p.inputs0;
    assert f in v[p.level] && GoodFile(f);
    forall l, g | 0 <= l < NUM_LEVELS && g in v[l] && (Stays(v, p, l, g) || l == p.level + 1) ensures g.number != f.number {
      var i :| 0 <= i < |v[l]| && v[l][i] == g;
      var j :| 0 <= j < |v[p.level]| && v[p.level][j] == f;
    }
  }

  lemma MoveKeepsEntries(v: Levels, p: Picked, f: File, v': Levels)
    requires Replaced(v, p, [f], v') && p.inputs0 == [f] && p.inputs1 == []
    ensures Entries(v') == Entries(v)
  {
    assert f in p.inputs0;
    forall e | e in Entries(v) ensures e in Entries(v') {
      var l, g :| 0 <= l < |v| && g in v[l] && e in g.entries;
      if Stays(v, p, l, g) {
        assert g in v'[l];
      } else {
        assert g == f && f in v'[p.level + 1];
      }
    }
    forall e | e in Entries(v') ensures e in Entries(v) {
      var l, g :| 0 <= l < |v'| && g in v'[l] && e in g.entries;
      if Stays(v, p, l, g) {
        assert g in v[l];
      } else {
        assert g == f && f in v[p.level];
      }
    }
  }
}
