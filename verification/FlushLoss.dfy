/** A flush into the gap between the inputs of a manual compaction that is running, after
    which two keys are no longer found. */
module FlushLoss {
  import opened Keys
  import opened Version
  import opened Inputs
  import opened Builder
  import opened Selection
  import opened CompactionProof
  import opened Flush
  import opened FlushRace
  import opened FlushReads

  const A: UserKey := [97]
  const M: UserKey := [109]
  const Z: UserKey := [122]
  const END: UserKey := [126]

  const FIRST := Entry(IKey(A, 5, Value), [1])
  const LAST := Entry(IKey(Z, 6, Value), [2])
  const FRESH := Entry(IKey(M, 9, Value), [3])
  const DEEP := Entry(IKey(END, 4, Value), [4])

  const LEFT := File(5, 1, FIRST.key, FIRST.key, [FIRST])
  const RIGHT := File(6, 1, LAST.key, LAST.key, [LAST])
  const BEHIND := File(4, 1, DEEP.key, DEEP.key, [DEEP])
  const OUTPUT := File(8, 2, FIRST.key, LAST.key, [FIRST, LAST])
  const FLUSHED := File(9, 1, FRESH.key, FRESH.key, [FRESH])

  const TREE: Levels := [[], [LEFT, RIGHT], [BEHIND], [], [], [], []]
  const PICK := Picked(1, [LEFT, RIGHT], [], [], LEFT.smallest, RIGHT.largest)
  const AFTER: Levels := [[], [], [OUTPUT, BEHIND], [], [], [], []]
  const BOTH: Levels := [[], [], [OUTPUT, FLUSHED, BEHIND], [], [], [], []]

  lemma KeysInOrder()
    ensures Less(A, M) && Less(M, Z) && Less(A, Z) && !Less(M, A) && !Less(Z, M) && !Less(Z, A)
    ensures Less(A, END) && Less(M, END) && Less(Z, END) && !Less(END, A) && !Less(END, M) && !Less(END, Z)
  {
    assert CompareFrom(A, END, 0) == 97 - 126 && CompareFrom(M, END, 0) == 109 - 126 && CompareFrom(Z, END, 0) == 122 - 126;
    assert CompareFrom(A, M, 0) == 97 - 109 && CompareFrom(M, Z, 0) == 109 - 122 && CompareFrom(A, Z, 0) == 97 - 122;
  }

  lemma TreeLevels(l: nat, f: File)
    requires l < |TREE| && f in TREE[l]
    ensures (l == 1 && (f == LEFT || f == RIGHT)) || (l == 2 && f == BEHIND)
  {}

  lemma FilesAreGood()
    ensures GoodFile(LEFT) && GoodFile(RIGHT) && GoodFile(BEHIND) && Precedes(LEFT, RIGHT) && GoodFiles(TREE)
  {
    KeysInOrder();
    forall l, f | 0 <= l < |TREE| && f in TREE[l] ensures f == LEFT || f == RIGHT || f == BEHIND {
      TreeLevels(l, f);
    }
  }

  lemma TreeByAge()
    ensures LevelsByAge(TREE)
  {
    KeysInOrder();
    forall l, m, f, g {:trigger f in TREE[l], g in TREE[m]} | 0 <= l < m < |TREE| && f in TREE[l] && g in TREE[m] ensures Newer(f, g) {
      TreeLevels(l, f);
      TreeLevels(m, g);
    }
  }

  lemma TreeNumbers()
    ensures DistinctNumbers(TREE)
  {
    forall l, m, i, j | (0 <= l < |TREE| && 0 <= m < |TREE| && 0 <= i < |TREE[l]| && 0 <= j < |TREE[m]|
                         && TREE[l][i].number == TREE[m][j].number)
      ensures l == m && i == j
    {
      assert TREE[l][i] in TREE[l] && TREE[m][j] in TREE[m];
      TreeLevels(l, TREE[l][i]);
      TreeLevels(m, TREE[m][j]);
    }
  }

  lemma TreeSorted()
    ensures SortedLevels(TREE) && LevelsInOrder(TREE)
  {
    KeysInOrder();
    assert Precedes(LEFT, RIGHT);
    forall l | 0 <= l < |TREE| ensures TREE[l] == [] || TREE[l] == [LEFT, RIGHT] || TREE[l] == [BEHIND] {}
  }

  lemma TreeIsGood()
    ensures WellFormed(TREE) && LevelsInOrder(TREE)
  {
    FilesAreGood();
    TreeByAge();
    TreeNumbers();
    TreeSorted();
    assert TREE[0] == [];
  }

  lemma PickIsGood()
    ensures GoodChoice(TREE, PICK)
  {
    KeysInOrder();
    assert TREE[1] == [LEFT, RIGHT] && TREE[2] == [BEHIND];
    assert LEFT in PICK.inputs0 && RIGHT in PICK.inputs0;
    assert RunAt(TREE[1], PICK.inputs0, 0, 2);
    assert IsLargest(PICK.inputs0, RIGHT.largest);
    assert SpansAll(PICK.inputs0, PICK.smallest, PICK.largest);
    assert !Meets(BEHIND, Range(Some(A), Some(Z)));
    assert Meeting(TREE[2], Range(Some(A), Some(Z))) == [];
  }

  lemma SliceIsAll(p: Picked)
    requires p.level == 1 && InputsListed(TREE, p) && LEFT in p.inputs0 && RIGHT in p.inputs0
    ensures p.inputs0 == [LEFT, RIGHT]
  {
    assert TREE[1] == [LEFT, RIGHT];
    var lo: nat, hi: nat :| SliceAt(TREE[1], p.inputs0, lo, hi);
  }

  lemma OnlyChoice(p: Picked)
    requires GoodChoice(TREE, p) && p.level == 1 && p.grandparents == [] && p.inputs0 == [LEFT, RIGHT]
    ensures p == PICK
  {
    KeysInOrder();
    PickIsGood();
    assert LEFT in p.inputs0 && RIGHT in p.inputs0;
    assert p.smallest == LEFT.smallest && p.largest == RIGHT.largest;
  }

  /** Without bounds, both files of level 1 are taken. */
  lemma BothTaken(maxBytes: nat, inputs0: seq<File>)
    requires maxBytes >= 2 && RangeTaken(TREE[1], Range(None, None), maxBytes, inputs0)
    ensures LEFT in inputs0 && RIGHT in inputs0
  {
    var q := Range(None, None);
    assert Seqs.FilterTo([LEFT, RIGHT], MeetsTest(q), 1) == [LEFT];
    assert Seqs.FilterTo([LEFT, RIGHT], MeetsTest(q), 2) == [LEFT, RIGHT];
    assert Meeting(TREE[1], q) == [LEFT, RIGHT];
    var k: nat :| CutOff([LEFT, RIGHT], maxBytes, k) && forall f :: f in [LEFT, RIGHT][..k] ==> f in inputs0;
    assert Compaction.FileBytes([LEFT, RIGHT], 0, 1) == 1;
    assert k == 2;
    assert LEFT in [LEFT, RIGHT][..2] && RIGHT in [LEFT, RIGHT][..2];
  }

  /** A manual compaction of level 1 without bounds picks these inputs. */
  method PickedHere(maxBytes: nat, limit: nat) returns (p: Option<Picked>)
    requires maxBytes >= 2
    ensures p == Some(PICK)
  {
    TreeIsGood();
    WellFormedIsRanged(TREE);
    FilesAreGood();
    LevelOneMeets();
    p := CompactRange(TREE, 1, None, None, maxBytes, limit);
    BothTaken(maxBytes, p.value.inputs0);
    SliceIsAll(p.value);
    NothingMeetsEmpty(p.value.inputs0 + p.value.inputs1, p.value.grandparents);
    OnlyChoice(p.value);
  }

  lemma LevelOneMeets()
    ensures LEFT in Meeting(TREE[1], Range(None, None)) && TREE[3] == []
  {
    assert TREE[1] == [LEFT, RIGHT];
  }

  lemma NothingMeetsEmpty(all: seq<File>, r: seq<File>)
    requires MeetsSpanOf([], all, r)
    ensures r == []
  {
    var lo, hi :| SpansAll(all, lo, hi) && r == Meeting([], Range(Some(lo.user), Some(hi.user)));
  }

  lemma OutputIsGood()
    ensures GoodOutputs(TREE, PICK, [OUTPUT])
  {
    KeysInOrder();
    assert LEFT in PICK.inputs0 && RIGHT in PICK.inputs0 && FIRST in LEFT.entries && LAST in RIGHT.entries;
    assert GoodFile(OUTPUT);
    forall l, f | 0 <= l < |TREE| && f in TREE[l] ensures f.number != OUTPUT.number {
      TreeLevels(l, f);
    }
  }

  lemma BehindStays(l: nat, f: File)
    requires l < |TREE|
    ensures Stays(TREE, PICK, l, f) <==> l == 2 && f == BEHIND
  {
    if f in TREE[l] {
      TreeLevels(l, f);
    }
    assert BEHIND in TREE[2];
  }

  lemma AfterIsInstalled()
    ensures Installed(TREE, PICK, [OUTPUT], AFTER)
  {
    KeysInOrder();
    forall l | 0 <= l < NUM_LEVELS ensures AFTER[l] == (if l == 2 then [OUTPUT, BEHIND] else []) {}
    assert BySmallest(OUTPUT, BEHIND);
    forall l, f | 0 <= l < NUM_LEVELS ensures Stays(TREE, PICK, l, f) <==> l == 2 && f == BEHIND {
      BehindStays(l, f);
    }
  }

  lemma BothAreInstalled()
    ensures BothInstalled(TREE, PICK, [OUTPUT], FLUSHED, 2, BOTH)
  {
    KeysInOrder();
    forall l | 0 <= l < NUM_LEVELS ensures BOTH[l] == (if l == 2 then [OUTPUT, FLUSHED, BEHIND] else []) {}
    assert BySmallest(OUTPUT, FLUSHED) && BySmallest(FLUSHED, BEHIND) && BySmallest(OUTPUT, BEHIND);
    forall l, f | 0 <= l < NUM_LEVELS ensures Stays(TREE, PICK, l, f) <==> l == 2 && f == BEHIND {
      BehindStays(l, f);
    }
  }

  /** Nothing at levels 0 to 2 overlaps the flushed table. */
  lemma FlushGoesToLevelTwo(maxOverlap: nat)
    ensures MemLevel(TREE, RangeOf(FLUSHED), maxOverlap, 2)
  {
    KeysInOrder();
    var r := RangeOf(FLUSHED);
    assert TREE[0] == [] && TREE[1] == [LEFT, RIGHT] && TREE[2] == [BEHIND] && TREE[3] == [];
    assert !Meets(LEFT, r) && !Meets(RIGHT, r) && !Meets(BEHIND, r);
    assert Meeting([], r) == [] && Meeting([BEHIND], r) == [];
    assert MayDescend(TREE, r, maxOverlap, 0) && MayDescend(TREE, r, maxOverlap, 1);
  }

  lemma FlushedIsNewest()
    ensures NewerThanAll(TREE, FLUSHED) && NumbersApart(TREE, [OUTPUT], FLUSHED)
  {
    KeysInOrder();
    forall l, g | 0 <= l < |TREE| && g in TREE[l] ensures Newer(FLUSHED, g) && g.number < FLUSHED.number {
      TreeLevels(l, g);
    }
  }

  lemma EntriesOfBoth(u: UserKey, s: nat, d: Entry)
    requires d in Entries(BOTH) && Visible(d, u, s) && (u == M || u == Z)
    ensures d == if u == M then FRESH else LAST
  {
    var l, g :| 0 <= l < |BOTH| && g in BOTH[l] && d in g.entries;
    assert l == 2;
    assert g == OUTPUT || g == FLUSHED || g == BEHIND;
    assert A != M && Z != M && A != Z && END != M && END != Z;
  }

  lemma KeysAreThere(u: UserKey, s: nat, e: Entry)
    requires (u == M && e == FRESH && s >= 9) || (u == Z && e == LAST && s >= 6)
    ensures View(Entries(BOTH), u, s) == Some(e.value)
  {
    assert e in (if u == M then FLUSHED else OUTPUT).entries && OUTPUT in BOTH[2] && FLUSHED in BOTH[2];
    assert e in Entries(BOTH);
    forall d | d in Entries(BOTH) && Visible(d, u, s) ensures d == e {
      EntriesOfBoth(u, s, d);
    }
    ViewOfNewest(Entries(BOTH), u, s, e);
  }

  lemma LiesAcross()
    ensures AcrossAt(PICK, [OUTPUT], AFTER, FLUSHED, 0) && GoodFile(FLUSHED)
  {
    KeysInOrder();
    assert AFTER[2] == [OUTPUT, BEHIND];
  }

  /** The binary search of the three files of level 2 looks at the flushed one first, which
      ends before Z. */
  lemma LastIsSkipped(s: nat)
    requires s >= 6
    ensures Skipped(AFTER[2], FLUSHED, 0, Z, s)
  {
    KeysInOrder();
    assert AFTER[2] == [OUTPUT, BEHIND];
    assert ProbesNext(0, 3, 0);
  }

  lemma FreshIsNotSkipped(s: nat)
    requires s >= 9
    ensures !Skipped(AFTER[2], FLUSHED, 0, M, s)
  {
    KeysInOrder();
  }

  lemma NothingLeft(u: UserKey, s: nat)
    requires (u == M && s >= 9) || (u == Z && s >= 6)
    ensures View(Entries(Readable(AFTER, 2, FLUSHED, 0, u, s)), u, s) == None
  {
    var v := Readable(AFTER, 2, FLUSHED, 0, u, s);
    if u == M {
      FreshIsNotSkipped(s);
    } else {
      LastIsSkipped(s);
      assert Removed(AFTER[2], 0) == [BEHIND];
    }
    assert A != M && Z != M && END != M && END != Z;
    forall l, f | 0 <= l < |v| && f in v[l] ensures NothingVisible(f, u, s) {
      assert l == 2 && (f == BEHIND || (u == M && f == OUTPUT));
    }
    NoHitAnywhere(v, u, s);
  }

  /** Choice of inputs, compaction and flush are as they should be. */
  lemma RaceIsPossible(maxOverlap: nat)
    ensures Replaced(TREE, PICK, [OUTPUT], AFTER) && MemLevel(TREE, RangeOf(FLUSHED), maxOverlap, 2)
    ensures NewerThanAll(TREE, FLUSHED) && NumbersApart(TREE, [OUTPUT], FLUSHED)
    ensures BothInstalled(TREE, PICK, [OUTPUT], FLUSHED, 2, BOTH)
  {
    TreeIsGood();
    PickIsGood();
    OutputIsGood();
    AfterIsInstalled();
    BothAreInstalled();
    FlushGoesToLevelTwo(maxOverlap);
    FlushedIsNewest();
  }

  lemma NotFound(maxOverlap: nat, u: UserKey, s: nat)
    requires (u == M && s >= 9) || (u == Z && s >= 6)
    ensures Read(BOTH, u, s) == None
  {
    RaceIsPossible(maxOverlap);
    LiesAcross();
    NothingLeft(u, s);
    ReadsAcross(TREE, PICK, [OUTPUT], AFTER, FLUSHED, maxOverlap, BOTH, 0, u, s);
  }

  /** Yet with both installed the version holds the value just written to M and the older
      one of Z, and Version::Get finds neither. */
  lemma KeysAreLost(maxOverlap: nat, u: UserKey, s: nat)
    requires (u == M && s >= 9) || (u == Z && s >= 6)
    ensures Replaced(TREE, PICK, [OUTPUT], AFTER) && MemLevel(TREE, RangeOf(FLUSHED), maxOverlap, 2)
    ensures NewerThanAll(TREE, FLUSHED) && NumbersApart(TREE, [OUTPUT], FLUSHED)
    ensures BothInstalled(TREE, PICK, [OUTPUT], FLUSHED, 2, BOTH)
    ensures View(Entries(BOTH), u, s) == Some(if u == M then FRESH.value else LAST.value)
    ensures Read(BOTH, u, s) == None
  {
    RaceIsPossible(maxOverlap);
    KeysAreThere(u, s, if u == M then FRESH else LAST);
    NotFound(maxOverlap, u, s);
  }

  /** Version::Get at work. */
  method GetLost(u: UserKey, s: nat) returns (r: Option<seq<byte>>)
    requires (u == M && s >= 9) || (u == Z && s >= 6)
    ensures r == None && View(Entries(BOTH), u, s).Some?
  {
    KeysAreLost(0, u, s);
    r := Get(BOTH, u, s);
  }
}
