/** Flushing a memtable: the level its table is put in (PickLevelForMemTableOutput in
    db/version_set.cc) and the version afterwards (CompactMemTable in db/db_impl.cc). */
module Flush {
  import opened Keys
  import opened Version
  import opened Inputs
  import opened Builder
  import opened CompactionProof
  import Compaction

  const MAX_MEM_COMPACT_LEVEL := 2  // config::kMaxMemCompactLevel

  // ------------------------------------------------------------ overlap queries

  predicate AfterFile(u: Option<UserKey>, f: File) {
    u.Some? && Less(f.largest.user, u.value)
  }

  predicate BeforeFile(u: Option<UserKey>, f: File) {
    u.Some? && Less(u.value, f.smallest.user)
  }

  ghost predicate SomeMeets(files: seq<File>, r: Range) {
    exists f :: f in files && Meets(f, r)
  }

  /** Sequence numbers are those that fit into a tag. */
  ghost predicate Numbered(files: seq<File>) {
    forall f :: f in files ==> f.largest.seqno <= MAX_SEQUENCE
  }

  /** Once one file begins after the range, so do those behind it. */
  lemma LaterBegins(files: seq<File>, i: nat, j: nat, hi: Option<UserKey>)
    requires Disjoint(files) && AllBounded(files) && i <= j < |files| && BeforeFile(hi, files[i])
    ensures BeforeFile(hi, files[j])
  {
    if i < j {
      AscendPair(files, i, j);
    }
  }

  /** SomeFileOverlapsRange: in sorted levels one binary search decides. */
  method SomeFileOverlapsRange(disjointSortedFiles: bool, files: seq<File>, smallest: Option<UserKey>, largest: Option<UserKey>) returns (r: bool)
    requires AllBounded(files) && (disjointSortedFiles ==> Disjoint(files) && Numbered(files))
    ensures r <==> SomeMeets(files, Range(smallest, largest))
  {
    if !disjointSortedFiles {
      for i := 0 to |files|
        invariant forall j :: 0 <= j < i ==> !Meets(files[j], Range(smallest, largest))
      {
        if AfterFile(smallest, files[i]) || BeforeFile(largest, files[i]) {
          // no overlap
        } else {
          assert Meets(files[i], Range(smallest, largest));
          return true;
        }
      }
      return false;
    }
    var index := 0;
    if smallest.Some? {
      var smallKey := IKey(smallest.value, MAX_SEQUENCE, Value);
      SortedIsMonotone(files, smallKey);
      index := FindFile(files, smallKey);
      forall i | 0 <= i < |files| ensures i < index <==> AfterFile(smallest, files[i]) {
        EndsBefore(files[i], smallest.value);
      }
    }
    if index >= |files| {
      return false;
    }
    r := !BeforeFile(largest, files[index]);
    if !r {
      forall j | index <= j < |files| ensures BeforeFile(largest, files[j]) {
        LaterBegins(files, index, j, largest);
      }
    } else {
      assert Meets(files[index], Range(smallest, largest));
    }
  }

  /** With the earliest possible key for u, only the user keys matter. */
  lemma EndsBefore(f: File, u: UserKey)
    requires f.largest.seqno <= MAX_SEQUENCE
    ensures ILess(f.largest, IKey(u, MAX_SEQUENCE, Value)) <==> Less(f.largest.user, u)
  {}

  // ------------------------------------------------------------- choice of level

  function Bytes(files: seq<File>): nat {
    Compaction.FileBytes(files, 0, |files|)
  }

  /** The table may go one level deeper: nothing there overlaps it, and not too much one
      level further down. */
  ghost predicate MayDescend(v: Levels, r: Range, maxOverlap: nat, level: nat)
    requires level + 1 < |v|
  {
    !SomeMeets(v[level + 1], r) && (level + 2 < |v| ==> Bytes(Meeting(v[level + 2], r)) <= maxOverlap)
  }

  /** The level chosen: 0 if something there overlaps the table, and otherwise as deep as
      it may go, at most 2. */
  ghost predicate MemLevel(v: Levels, r: Range, maxOverlap: nat, level: nat) {
    && |v| == NUM_LEVELS && level <= MAX_MEM_COMPACT_LEVEL
    && (level > 0 ==> !SomeMeets(v[0], r))
    && (forall l {:trigger MayDescend(v, r, maxOverlap, l)} :: 0 <= l < level ==> MayDescend(v, r, maxOverlap, l))
    && (level < MAX_MEM_COMPACT_LEVEL ==> (level == 0 && SomeMeets(v[0], r)) || !MayDescend(v, r, maxOverlap, level))
  }

  ghost predicate AllNumbered(v: Levels) {
    forall l :: 0 <= l < |v| ==> Numbered(v[l])
  }

  method PickLevelForMemTableOutput(v: Levels, smallest: UserKey, largest: UserKey, maxOverlap: nat) returns (level: nat)
    requires Ranged(v) && AllNumbered(v)
    ensures MemLevel(v, Range(Some(smallest), Some(largest)), maxOverlap, level)
  {
    ghost var r := Range(Some(smallest), Some(largest));
    level := 0;
    var overlaps := SomeFileOverlapsRange(false, v[0], Some(smallest), Some(largest));
    if !overlaps {
      var start, limit := IKey(smallest, MAX_SEQUENCE, Value), IKey(largest, 0, Deletion);
      while level < MAX_MEM_COMPACT_LEVEL
        invariant level <= MAX_MEM_COMPACT_LEVEL
        invariant forall l {:trigger MayDescend(v, r, maxOverlap, l)} :: 0 <= l < level ==> MayDescend(v, r, maxOverlap, l)
      {
        overlaps := SomeFileOverlapsRange(true, v[level + 1], Some(smallest), Some(largest));
        if overlaps {
          break;
        }
        if level + 2 < NUM_LEVELS {
          var files, range := GetOverlappingInputs(v, level + 2, Some(start), Some(limit));
          if Bytes(files) > maxOverlap {
            break;
          }
        }
        level := level + 1;
      }
    }
  }

  // --------------------------------------------------------- one file more in a version

  function RangeOf(f: File): Range {
    Range(Some(f.smallest.user), Some(f.largest.user))
  }

  /** The version with f at the given level. */
  ghost predicate Placed(v: Levels, f: File, level: nat, v': Levels) {
    && |v| == |v'| == NUM_LEVELS && level < NUM_LEVELS && LevelsInOrder(v')
    && forall l, g {:trigger g in v'[l]} :: 0 <= l < NUM_LEVELS ==> (g in v'[l] <==> g in v[l] || (l == level && g == f))
  }

  /** f has a number of its own, which makes it the newest of level 0. */
  ghost predicate OwnNumber(v: Levels, f: File)
    requires |v| == NUM_LEVELS
  {
    && (forall l, g {:trigger g in v[l]} :: 0 <= l < NUM_LEVELS && g in v[l] ==> g.number != f.number)
    && forall g :: g in v[0] ==> g.number < f.number
  }

  ghost predicate NewerThanAll(v: Levels, f: File) {
    forall l, g {:trigger g in v[l]} :: 0 <= l < |v| && g in v[l] ==> Newer(f, g)
  }

  /** Files whose ranges do not meet share no user key. */
  lemma OutOfRange(g: File, f: File)
    requires GoodFile(f) && GoodFile(g) && !Meets(g, RangeOf(f))
    ensures Newer(f, g) && Newer(g, f) && (Precedes(f, g) || Precedes(g, f))
  {
    SmallestUpToLargest(f);
    SmallestUpToLargest(g);
  }

  ghost predicate FitsIn(v: Levels, f: File, level: nat)
    requires |v| == NUM_LEVELS && level < NUM_LEVELS
  {
    && (forall l, g {:trigger g in v[l]} :: 0 <= l < level && g in v[l] ==> Newer(g, f))
    && (level > 0 ==> forall g :: g in v[level] ==> Precedes(f, g) || Precedes(g, f))
  }

  lemma AddedNumbers(v: Levels, f: File, level: nat, v': Levels)
    requires WellFormed(v) && Placed(v, f, level, v') && OwnNumber(v, f)
    ensures DistinctNumbers(v')
  {
    forall l, m, i, j | (0 <= l < |v'| && 0 <= m < |v'| && 0 <= i < |v'[l]| && 0 <= j < |v'[m]| && v'[l][i].number == v'[m][j].number)
      ensures l == m && i == j
    {
      OneNumber(v, f, level, v', l, m, v'[l][i], v'[m][j]);
      assert InOrder(v'[l]);
      if i < j {
        assert BySmallest(v'[l][i], v'[l][j]);
        BySmallestTotal(v'[l][i], v'[l][j]);
      } else if j < i {
        assert BySmallest(v'[l][j], v'[l][i]);
        BySmallestTotal(v'[l][j], v'[l][i]);
      }
    }
  }

  lemma OneNumber(v: Levels, f: File, level: nat, v': Levels, l: nat, m: nat, g: File, h: File)
    requires WellFormed(v) && Placed(v, f, level, v') && OwnNumber(v, f)
    requires l < NUM_LEVELS && m < NUM_LEVELS && g in v'[l] && h in v'[m] && g.number == h.number
    ensures l == m && g == h
  {
    if g in v[l] && h in v[m] {
      var i :| 0 <= i < |v[l]| && v[l][i] == g;
      var j :| 0 <= j < |v[m]| && v[m][j] == h;
    }
  }

  lemma AddedAge(v: Levels, f: File, level: nat, v': Levels)
    requires WellFormed(v) && Placed(v, f, level, v') && OwnNumber(v, f) && NewerThanAll(v, f) && FitsIn(v, f, level)
    ensures LevelsByAge(v') && ZeroByAge(v'[0])
  {
    forall l, m, g, h | 0 <= l < m < |v'| && g in v'[l] && h in v'[m] ensures Newer(g, h) {
      if g in v[l] && h in v[m] {
        assert Newer(g, h);
      } else if h in v[m] {
        assert g == f;
      } else {
        assert h == f && m == level && g in v[l];
      }
    }
    forall g, h | g in v'[0] && h in v'[0] && g.number > h.number ensures Newer(g, h) {
      if g in v[0] && h in v[0] {
        assert Newer(g, h);
      }
    }
  }

  lemma AddedSorted(v: Levels, f: File, level: nat, v': Levels)
    requires WellFormed(v) && Placed(v, f, level, v') && GoodFile(f) && FitsIn(v, f, level)
    ensures GoodFiles(v') && SortedLevels(v')
  {
    forall l, g | 0 <= l < |v'| && g in v'[l] ensures GoodFile(g) {
      assert g in v[l] || g == f;
    }
    forall l | 1 <= l < |v'| ensures Disjoint(v'[l]) {
      GoodIsBounded(v'[l]);
      forall g, h | g in v'[l] && h in v'[l] && g != h ensures Precedes(g, h) || Precedes(h, g) {
        if g in v[l] && h in v[l] {
          DistinctFilesApart(v[l], g, h);
        }
      }
      OrderedApart(v'[l]);
    }
  }

  /** A file that is newer than all others keeps the version well-formed where it fits. */
  lemma AddedKeeps(v: Levels, f: File, level: nat, v': Levels)
    requires WellFormed(v) && Placed(v, f, level, v') && GoodFile(f) && OwnNumber(v, f) && NewerThanAll(v, f) && FitsIn(v, f, level)
    ensures WellFormed(v') && LevelsInOrder(v')
  {
    AddedNumbers(v, f, level, v');
    AddedAge(v, f, level, v');
    AddedSorted(v, f, level, v');
  }

  /** Where the chosen level is not 0, nothing overlaps the table there or above. */
  lemma NothingMeets(v: Levels, r: Range, maxOverlap: nat, level: nat, l: nat, g: File)
    requires MemLevel(v, r, maxOverlap, level) && l <= level && level > 0 && g in v[l]
    ensures !Meets(g, r)
  {
    if l > 0 {
      assert MayDescend(v, r, maxOverlap, l - 1);
    }
  }

  lemma PickedFits(v: Levels, f: File, maxOverlap: nat, level: nat)
    requires WellFormed(v) && GoodFile(f) && MemLevel(v, RangeOf(f), maxOverlap, level)
    ensures FitsIn(v, f, level)
  {
    if level > 0 {
      forall l, g | 0 <= l <= level && g in v[l] ensures Newer(g, f) && (Precedes(f, g) || Precedes(g, f)) {
        NothingMeets(v, RangeOf(f), maxOverlap, level, l, g);
        OutOfRange(g, f);
      }
    }
  }

  ghost function EntriesOf(f: File): set<Entry> {
    set e | e in f.entries
  }

  lemma AddedEntries(v: Levels, f: File, level: nat, v': Levels)
    requires Placed(v, f, level, v')
    ensures Entries(v') == Entries(v) + EntriesOf(f)
  {
    forall e | e in Entries(v) ensures e in Entries(v') {
      var l, g :| 0 <= l < |v| && g in v[l] && e in g.entries;
      assert g in v'[l];
    }
    forall e | e in EntriesOf(f) ensures e in Entries(v') {
      assert f in v'[level];
    }
    forall e | e in Entries(v') ensures e in Entries(v) || e in EntriesOf(f) {
      var l, g :| 0 <= l < |v'| && g in v'[l] && e in g.entries;
      assert g in v[l] || g == f;
    }
  }

  /** A flush keeps the invariants of the version, and adds the memtable's entries. */
  lemma FlushKeeps(v: Levels, f: File, maxOverlap: nat, level: nat, v': Levels)
    requires WellFormed(v) && GoodFile(f) && OwnNumber(v, f) && NewerThanAll(v, f)
    requires MemLevel(v, RangeOf(f), maxOverlap, level) && Placed(v, f, level, v')
    ensures WellFormed(v') && LevelsInOrder(v') && Entries(v') == Entries(v) + EntriesOf(f)
  {
    PickedFits(v, f, maxOverlap, level);
    AddedKeeps(v, f, level, v');
    AddedEntries(v, f, level, v');
  }

  /** What LogAndApply makes of the edit that adds one file. */
  lemma OneAdded(v: Levels, f: File, level: nat, v': Levels)
    requires |v| == |v'| == NUM_LEVELS && level < NUM_LEVELS && LevelsInOrder(v) && OwnNumber(v, f)
    requires forall l :: 0 <= l < NUM_LEVELS ==> Manifest.LiveStep(v[l], Edit({}, [(level, f)]), l, v'[l])
    ensures Placed(v, f, level, v')
  {
    var e := Edit({}, [(level, f)]);
    forall l | 0 <= l < NUM_LEVELS
      ensures InOrder(v'[l]) && forall g :: g in v'[l] <==> g in v[l] || (l == level && g == f)
    {
      assert AddTo([], e.newFiles, l, 0) == [];
      assert AddedAfter([], e, l) == if l == level then [f] else [];
      assert DeletedAfter({}, e, l) == {};
      assert Manifest.LiveStep(v[l], e, l, v'[l]);
      forall g, h | g in v[l] && h in AddedAfter([], e, l) ensures !SameKey(g, h) {
        assert g.number != f.number;
      }
    }
  }

  lemma NoneAdded(v: Levels, v': Levels)
    requires |v| == |v'| == NUM_LEVELS && LevelsInOrder(v)
    requires forall l :: 0 <= l < NUM_LEVELS ==> Manifest.LiveStep(v[l], Edit({}, []), l, v'[l])
    ensures v' == v
  {
    forall l | 0 <= l < NUM_LEVELS ensures v'[l] == v[l] {
      assert AddedAfter([], Edit({}, []), l) == [] && DeletedAfter({}, Edit({}, []), l) == {};
      assert Manifest.LiveStep(v[l], Edit({}, []), l, v'[l]);
      assert Apart(v[l], []);
      SameFilesSameLevel(v[l], v'[l]);
    }
  }

  /** BuildTable of a memtable's entries, which are not none. */
  function TableOf(number: nat, size: nat, entries: seq<Entry>): File
    requires entries != []
  {
    File(number, size, entries[0].key, entries[|entries| - 1].key, entries)
  }

  /** The memtable is newer than all that the version holds. */
  ghost predicate NewerEntries(v: Levels, entries: seq<Entry>) {
    forall e, d :: e in entries && d in Entries(v) && e.key.user == d.key.user ==> e.key.seqno > d.key.seqno
  }

  lemma NewerTable(v: Levels, f: File)
    requires NewerEntries(v, f.entries)
    ensures NewerThanAll(v, f)
  {
    forall l, g | 0 <= l < |v| && g in v[l] ensures Newer(f, g) {
      assert forall d :: d in g.entries ==> d in Entries(v);
    }
  }

  /** The file is in the level chosen for it, and all others are where they were. */
  ghost predicate FlushedTo(v: Levels, f: File, maxOverlap: nat, v': Levels) {
    exists level {:trigger Placed(v, f, level, v')} :: MemLevel(v, RangeOf(f), maxOverlap, level) && Placed(v, f, level, v')
  }

  /** CompactMemTable: the memtable becomes a table file, and the version with it holds
      exactly what memtable and version held, so that every read stays what it was.  An
      empty memtable leaves the version alone. */
  method CompactMemTable(v: Levels, entries: seq<Entry>, number: nat, size: nat, maxOverlap: nat) returns (v': Levels)
    requires WellFormed(v) && LevelsInOrder(v) && AllNumbered(v)
    requires Sorted(entries) && NewerEntries(v, entries) && forall l, g :: 0 <= l < NUM_LEVELS && g in v[l] ==> g.number < number
    ensures WellFormed(v') && LevelsInOrder(v')
    ensures Entries(v') == Entries(v) + set e | e in entries
    ensures entries == [] ==> v' == v
    ensures entries != [] ==> FlushedTo(v, File(number, size, entries[0].key, entries[|entries| - 1].key, entries), maxOverlap, v')
  {
    if entries == [] {
      v' := Manifest.LogAndApply(v, Edit({}, []));
      NoneAdded(v, v');
      assert (set e | e in entries) == {};
      return;
    }
    var f := TableOf(number, size, entries);
    WellFormedIsRanged(v);
    var level := PickLevelForMemTableOutput(v, f.smallest.user, f.largest.user, maxOverlap);
    v' := Manifest.LogAndApply(v, Edit({}, [(level, f)]));
    OneAdded(v, f, level, v');
    NewerTable(v, f);
    FlushKeeps(v, f, maxOverlap, level, v');
    assert Placed(v, f, level, v');
  }
}
