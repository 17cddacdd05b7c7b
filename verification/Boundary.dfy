/** Why the lower inputs need a hypothesis: SetupOtherInputs adds boundary files to
    the upper level only, so a deletion marker can be dropped while the older value
    it hides stays in the next file of the lower level. */
module Boundary {
  import opened Keys
  import opened Version
  import opened Drop
  import opened Inputs
  import opened Selection
  import opened CompactionProof

  const B: UserKey := [98]
  const C: UserKey := [99]

  const UPPER := File(7, 1, IKey(B, 9, Value), IKey(B, 9, Value), [Entry(IKey(B, 9, Value), [1])])
  const MARKER := Entry(IKey(C, 4, Deletion), [])
  const HIDDEN := Entry(IKey(C, 3, Value), [2])
  const LOWER := File(5, 1, IKey(B, 5, Value), MARKER.key, [Entry(IKey(B, 5, Value), [3]), MARKER])
  const NEXT := File(6, 1, HIDDEN.key, HIDDEN.key, [HIDDEN])

  const TREE: Levels := [[], [UPPER], [LOWER, NEXT], [], [], [], []]
  const PICK := Picked(1, [UPPER], [LOWER], [], UPPER.smallest, UPPER.largest)

  lemma TreeLevels(l: nat, f: File)
    requires l < |TREE| && f in TREE[l]
    ensures (l == 1 && f == UPPER) || (l == 2 && (f == LOWER || f == NEXT))
  {}

  lemma FilesAreGood()
    ensures GoodFile(UPPER) && GoodFile(LOWER) && GoodFile(NEXT) && GoodFiles(TREE)
  {
    assert Less(B, C);
    forall l, f | 0 <= l < |TREE| && f in TREE[l] ensures f == UPPER || f == LOWER || f == NEXT {
      TreeLevels(l, f);
    }
  }

  lemma TreeByAge()
    ensures LevelsByAge(TREE)
  {
    assert Newer(UPPER, LOWER) && Newer(UPPER, NEXT);
    forall l, m, f, g | 0 <= l < m < |TREE| && f in TREE[l] && g in TREE[m] ensures Newer(f, g) {
      TreeLevels(l, f);
      TreeLevels(m, g);
    }
  }

  lemma TreeNumbers()
    ensures DistinctNumbers(TREE)
  {
    forall l, m, i, j | (0 <= l < |TREE| && 0 <= m < |TREE| && 0 <= i < |TREE[l]| && 0 <= j < |TREE[m]|
                         && TREE[l][i].number == TREE[m][j].number)
      ensures l == m && i == j
    {
      assert TREE[l][i] in TREE[l] && TREE[m][j] in TREE[m];
      TreeLevels(l, TREE[l][i]);
      TreeLevels(m, TREE[m][j]);
    }
  }

  lemma TreeSorted()
    ensures SortedLevels(TREE) && LevelsInOrder(TREE)
  {
    assert Precedes(LOWER, NEXT);
    assert Less(B, C);
    forall l | 0 <= l < |TREE| ensures TREE[l] == [] || TREE[l] == [UPPER] || TREE[l] == [LOWER, NEXT] {}
  }

  lemma DeeperIsEmpty(m: nat)
    requires 3 <= m < |TREE|
    ensures TREE[m] == []
  {}

  lemma PickIsGood()
    ensures GoodChoice(TREE, PICK)
  {
    assert Less(B, C) && !Less(C, B) && !Less(B, B);
    assert TREE[1] == [UPPER] && TREE[2] == [LOWER, NEXT];
    assert UPPER in PICK.inputs0;
    SingleIsRun(TREE[1], UPPER);
    assert IsLargest([UPPER], UPPER.largest);
    assert !Continues(UPPER.largest, UPPER);
    assert SpansAll(PICK.inputs0, PICK.smallest, PICK.largest);
    var r := Range(Some(B), Some(B));
    assert Meets(LOWER, r) && !Meets(NEXT, r);
    assert Seqs.FilterTo(TREE[2], MeetsTest(r), 1) == [LOWER];
    assert Seqs.FilterTo(TREE[2], MeetsTest(r), 2) == [LOWER];
  }

  lemma MarkerComesBack()
    ensures Resurrects(TREE, PICK, 10, C)
  {
    assert TREE[2] == [LOWER, NEXT];
    forall e | e in Entries(TREE) && Visible(e, C, 10) ensures e == MARKER || e == HIDDEN {
      var l, f :| 0 <= l < |TREE| && f in TREE[l] && e in f.entries;
      TreeLevels(l, f);
    }
    assert MARKER in LOWER.entries && LOWER in TREE[2] && HIDDEN in NEXT.entries && NEXT in TREE[2];
    assert MARKER in Entries(TREE);
    forall m | 3 <= m < |TREE| ensures TREE[m] == [] {
      DeeperIsEmpty(m);
    }
    assert BaseLevel(TREE, 3, C);
    assert LOWER in PICK.inputs1;
    assert Marker(TREE, PICK, 10, C, MARKER);
    forall x | Leftover(TREE, PICK, x) ensures x == HIDDEN {
      var f :| f in TREE[2] && f !in PICK.inputs1 && x in f.entries;
      TreeLevels(2, f);
    }
    assert NextLeftover(TREE, PICK, MARKER, HIDDEN);
  }

  lemma OnlyChoice(p: Picked)
    requires GoodChoice(TREE, p) && p.level == 1 && p.grandparents == [] && InputsListed(TREE, p)
    ensures p == PICK
  {
    assert TREE[1] == [UPPER] && TREE[2] == [LOWER, NEXT];
    var lo: nat, hi: nat :| SliceAt(TREE[1], p.inputs0, lo, hi);
    assert p.inputs0 == [UPPER];
    assert p.smallest == UPPER.smallest && p.largest == UPPER.largest;
    PickIsGood();
  }

  lemma UpperIsSelectable()
    ensures Ranged(TREE) && Selectable(TREE, 1, [UPPER]) && Listed(TREE[1], 1, [UPPER]) && TREE[3] == []
  {
    SingleIsRun(TREE[1], UPPER);
    PickIsGood();
    TreeIsGood();
    WellFormedIsRanged(TREE);
  }

  /** SetupOtherInputs picks these inputs when the upper file is due, whatever the limit on
      expanded compactions. */
  method PickedHere(limit: nat) returns (p: Picked)
    ensures p == PICK
  {
    UpperIsSelectable();
    p := SetupOtherInputs(TREE, 1, [UPPER], limit);
    NothingMeetsEmpty(p.inputs0 + p.inputs1, p.grandparents);
    OnlyChoice(p);
  }

  lemma NothingMeetsEmpty(all: seq<File>, r: seq<File>)
    requires MeetsSpanOf([], all, r)
    ensures r == []
  {
    var lo, hi :| SpansAll(all, lo, hi) && r == Meeting([], Range(Some(lo.user), Some(hi.user)));
  }

  lemma TreeIsGood()
    ensures WellFormed(TREE) && LevelsInOrder(TREE)
  {
    FilesAreGood();
    TreeByAge();
    TreeNumbers();
    TreeSorted();
    assert TREE[0] == [];
  }

  /** The hypothesis on the lower inputs cannot be dispensed with: here the selection
      rules pick inputs whose compaction brings a deleted key back. */
  lemma HypothesisIsNeeded()
    ensures WellFormed(TREE) && LevelsInOrder(TREE) && GoodChoice(TREE, PICK)
    ensures Resurrects(TREE, PICK, 10, C)
  {
    TreeIsGood();
    PickIsGood();
    MarkerComesBack();
  }
}
