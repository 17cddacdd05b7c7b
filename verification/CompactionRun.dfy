/** A whole compaction (DoCompactionWork in db/db_impl.cc and MakeInputIterator in
    db/version_set.cc): the inputs are read through a merging iterator, and the version with
    the outputs is installed. */
module CompactionRun {
  import opened Keys
  import opened Version
  import opened Inputs
  import opened Seqs
  import opened Selection
  import opened Iterators
  import opened Merging
  import opened MergingUnion
  import opened CompactionProof

  // -------------------------------------------------------- one list per iterator

  /** The entries of the files one after the other, as the concatenating iterator has them. */
  function Joined(files: seq<File>): (es: seq<Entry>)
    ensures forall e :: e in es <==> InFiles(files, e)
  {
    if files == [] then []
    else
      var front, last := files[..|files| - 1], files[|files| - 1];
      assert files == front + [last];
      Joined(front) + last.entries
  }

  /** The entries of each file on its own. */
  function Singly(files: seq<File>): (ls: seq<seq<Entry>>)
    ensures |ls| == |files| && forall i {:trigger ls[i]} :: 0 <= i < |files| ==> ls[i] == files[i].entries
  {
    if files == [] then [] else Singly(files[..|files| - 1]) + [files[|files| - 1].entries]
  }

  /** The lists for the inputs of one level: one for each file of level 0, else one in all. */
  function ListsOf(level: nat, files: seq<File>): seq<seq<Entry>> {
    if files == [] then [] else if level == 0 then Singly(files) else [Joined(files)]
  }

  lemma {:induction false} JoinedIsSorted(files: seq<File>)
    requires Disjoint(files) && forall f :: f in files ==> GoodFile(f)
    ensures Sorted(Joined(files))
  {
    if files != [] {
      var front, last := files[..|files| - 1], files[|files| - 1];
      assert forall i, j :: 0 <= i < j < |front| ==> Precedes(files[i], files[j]);
      JoinedIsSorted(front);
      assert last in files;
      forall e, d | e in Joined(front) && d in last.entries ensures Before(e.key, d.key) {
        var f :| f in front && e in f.entries;
        var i :| 0 <= i < |front| && front[i] == f;
        assert files[i] == f && Precedes(files[i], files[|files| - 1]);
        EntriesBefore(f, last, e, d);
      }
      SortedJoin(Joined(front), last.entries);
    }
  }

  lemma EntriesBefore(f: File, g: File, e: Entry, d: Entry)
    requires GoodFile(f) && GoodFile(g) && Precedes(f, g) && e in f.entries && d in g.entries
    ensures Before(e.key, d.key)
  {
    SmallestUpToLargest(f);
    SmallestUpToLargest(g);
  }

  lemma SortedJoin(a: seq<Entry>, b: seq<Entry>)
    requires Sorted(a) && Sorted(b) && forall e, d :: e in a && d in b ==> Before(e.key, d.key)
    ensures Sorted(a + b)
  {
    forall i, j | 0 <= i < j < |a + b| ensures Before((a + b)[i].key, (a + b)[j].key) {
      if i < |a| <= j {
        assert a[i] in a && b[j - |a|] in b;
      }
    }
  }

  lemma FilesApart(v: Levels, l: nat, m: nat, f: File, g: File, x: Entry, y: Entry)
    requires WellFormed(v) && l <= m < |v| && f in v[l] && g in v[m] && (l != m || f != g)
    requires x in f.entries && y in g.entries
    ensures Apart(x, y)
  {
    FilesSeparate(v, l, m, f, g);
  }

  /** A part of a sorted level is sorted. */
  lemma SliceIsDisjoint(files: seq<File>, r: seq<File>)
    requires Disjoint(files) && IsSlice(files, r)
    ensures Disjoint(r)
  {
    var lo: nat, hi: nat :| SliceAt(files, r, lo, hi);
    forall i, j | 0 <= i < j < |r| ensures Precedes(r[i], r[j]) {
      assert Precedes(files[lo + i], files[lo + j]);
    }
  }

  lemma {:induction false} FilteredIsDisjoint(files: seq<File>, r: Range, n: nat)
    requires Disjoint(files) && n <= |files|
    ensures Disjoint(FilterTo(files, MeetsTest(r), n))
  {
    if n > 0 {
      FilteredIsDisjoint(files, r, n - 1);
      var m := FilterTo(files, MeetsTest(r), n - 1);
      forall i | 0 <= i < |m| ensures Precedes(m[i], files[n - 1]) {
        FilterToMember(files, MeetsTest(r), n - 1, m[i]);
        var j :| 0 <= j < n - 1 && files[j] == m[i];
        assert Precedes(files[j], files[n - 1]);
      }
    }
  }

  /** The inputs of each of the two levels are in order. */
  lemma InputsInOrder(v: Levels, p: Picked)
    requires WellFormed(v) && GoodChoice(v, p) && InputsListed(v, p)
    ensures p.level > 0 ==> Disjoint(p.inputs0)
    ensures p.level == 0 ==> NoDup(p.inputs0)
    ensures Disjoint(p.inputs1)
  {
    assert SortedLevels(v);
    if p.level > 0 {
      SliceIsDisjoint(v[p.level], p.inputs0);
    }
    var r := Range(Some(p.smallest.user), Some(p.largest.user));
    FilteredIsDisjoint(v[p.level + 1], r, |v[p.level + 1]|);
  }

  /** The lists of one level can be merged. */
  lemma LevelMerges(v: Levels, l: nat, files: seq<File>)
    requires WellFormed(v) && l < |v| && forall f :: f in files ==> f in v[l] && GoodFile(f)
    requires if l == 0 then NoDup(files) else Disjoint(files)
    ensures Mergeable(ListsOf(l, files))
  {
    var ls := ListsOf(l, files);
    if l > 0 {
      JoinedIsSorted(files);
    } else if files != [] {
      forall c | 0 <= c < |ls| ensures Sorted(ls[c]) {
        assert files[c] in files;
      }
      forall c, d | 0 <= c < d < |ls| ensures AllApart(ls[c], ls[d]) {
        forall x, y | x in ls[c] && y in ls[d] ensures Apart(x, y) {
          assert files[c] in files && files[d] in files;
          FilesApart(v, l, l, files[c], files[d], x, y);
        }
      }
    }
  }

  /** What is in the lists of a level. */
  lemma ListMember(l: nat, files: seq<File>, x: Entry)
    ensures InFiles(files, x) <==> exists c :: 0 <= c < |ListsOf(l, files)| && x in ListsOf(l, files)[c]
  {
    var ls := ListsOf(l, files);
    if InFiles(files, x) {
      var f :| f in files && x in f.entries;
      var i :| 0 <= i < |files| && files[i] == f;
      assert l == 0 ==> x in ls[i];
      assert l > 0 ==> x in ls[0];
    }
    forall c | 0 <= c < |ls| && x in ls[c] ensures InFiles(files, x) {
      assert l == 0 ==> files[c] in files;
    }
  }

  function AllLists(p: Picked): seq<seq<Entry>> {
    ListsOf(p.level, p.inputs0) + ListsOf(p.level + 1, p.inputs1)
  }

  lemma MergeableJoin(a: seq<seq<Entry>>, b: seq<seq<Entry>>)
    requires Mergeable(a) && Mergeable(b)
    requires forall c, d {:trigger AllApart(a[c], b[d])} :: 0 <= c < |a| && 0 <= d < |b| ==> AllApart(a[c], b[d])
    ensures Mergeable(a + b)
  {
    var ls := a + b;
    forall c, d | 0 <= c < d < |ls| ensures AllApart(ls[c], ls[d]) {
      if d < |a| {
        assert AllApart(a[c], a[d]);
      } else if c >= |a| {
        assert AllApart(b[c - |a|], b[d - |a|]);
      } else {
        assert AllApart(a[c], b[d - |a|]);
      }
    }
    forall c | 0 <= c < |ls| ensures Sorted(ls[c]) {
      assert if c < |a| then Sorted(a[c]) else Sorted(b[c - |a|]);
    }
  }

  lemma InputsApart(v: Levels, p: Picked, x: Entry, y: Entry)
    requires WellFormed(v) && GoodChoice(v, p) && InFiles(p.inputs0, x) && InFiles(p.inputs1, y)
    ensures Apart(x, y)
  {
    var f :| f in p.inputs0 && x in f.entries;
    var g :| g in p.inputs1 && y in g.entries;
    InputsAreFiles(v, p);
    FilesApart(v, p.level, p.level + 1, f, g, x, y);
  }

  lemma AcrossLevels(v: Levels, p: Picked, a: seq<Entry>, b: seq<Entry>)
    requires WellFormed(v) && GoodChoice(v, p)
    requires (forall x :: x in a ==> InFiles(p.inputs0, x)) && (forall y :: y in b ==> InFiles(p.inputs1, y))
    ensures AllApart(a, b)
  {
    forall x, y | x in a && y in b ensures Apart(x, y) {
      InputsApart(v, p, x, y);
    }
  }

  lemma FromFiles(l: nat, files: seq<File>, c: nat)
    requires c < |ListsOf(l, files)|
    ensures forall x :: x in ListsOf(l, files)[c] ==> InFiles(files, x)
  {
    forall x | x in ListsOf(l, files)[c] ensures InFiles(files, x) {
      ListMember(l, files, x);
    }
  }

  lemma AllMerge(v: Levels, p: Picked)
    requires WellFormed(v) && GoodChoice(v, p) && InputsListed(v, p)
    ensures Mergeable(AllLists(p))
  {
    InputsAreFiles(v, p);
    InputsInOrder(v, p);
    var a, b := ListsOf(p.level, p.inputs0), ListsOf(p.level + 1, p.inputs1);
    LevelMerges(v, p.level, p.inputs0);
    LevelMerges(v, p.level + 1, p.inputs1);
    forall c, d | 0 <= c < |a| && 0 <= d < |b| ensures AllApart(a[c], b[d]) {
      FromFiles(p.level, p.inputs0, c);
      FromFiles(p.level + 1, p.inputs1, d);
      AcrossLevels(v, p, a[c], b[d]);
    }
    MergeableJoin(a, b);
  }

  /** What all the lists hold. */
  lemma ListsHoldInputs(p: Picked, x: Entry)
    ensures (InFiles(p.inputs0, x) || InFiles(p.inputs1, x)) <==> exists c :: 0 <= c < |AllLists(p)| && x in AllLists(p)[c]
  {
    var a, b, ls := ListsOf(p.level, p.inputs0), ListsOf(p.level + 1, p.inputs1), AllLists(p);
    ListMember(p.level, p.inputs0, x);
    ListMember(p.level + 1, p.inputs1, x);
    if c :| 0 <= c < |a| && x in a[c] {
      assert x in ls[c];
    }
    if c :| 0 <= c < |b| && x in b[c] {
      assert x in ls[|a| + c];
    }
    forall c | 0 <= c < |ls| && x in ls[c] ensures InFiles(p.inputs0, x) || InFiles(p.inputs1, x) {
      assert if c < |a| then x in a[c] else x in b[c - |a|];
    }
  }

  /** A union holds what its lists hold. */
  lemma UnionHolds(u: Union, x: Entry)
    requires Merges(u)
    ensures x in u.merged <==> exists c :: 0 <= c < |u.lists| && x in u.lists[c]
  {
    if x in u.merged {
      FromAList(u, x);
    }
    forall c | 0 <= c < |u.lists| && x in u.lists[c] ensures x in u.merged {
      var j :| 0 <= j < |u.lists[c]| && u.lists[c][j] == x;
      assert ListPlaced(u, c) && Placed(u, c, j);
    }
  }

  lemma UnionMergesInputs(u: Union, p: Picked)
    requires Merges(u) && u.lists == AllLists(p)
    ensures MergesInputs(u.merged, p)
  {
    forall e ensures e in u.merged <==> InFiles(p.inputs0, e) || InFiles(p.inputs1, e) {
      UnionHolds(u, e);
      ListsHoldInputs(p, e);
    }
  }

  // ---------------------------------------------------------------- reading them

  /** An iterator for each list. */
  method MakeChildren(lists: seq<seq<Entry>>) returns (children: seq<Iterator>)
    ensures |children| == |lists| && forall i, j :: 0 <= i < j < |children| ==> children[i] != children[j]
    ensures forall i {:trigger children[i]} :: 0 <= i < |children| ==> fresh(children[i]) && children[i].Valid() && children[i].es == lists[i]
  {
    children := [];
    for i := 0 to |lists|
      invariant |children| == i && forall j, k :: 0 <= j < k < i ==> children[j] != children[k]
      invariant forall j {:trigger children[j]} :: 0 <= j < i ==> fresh(children[j]) && children[j].Valid() && children[j].es == lists[j]
    {
      var it := new Iterator(lists[i]);
      children := children + [it];
    }
  }

  /** SeekToFirst, then Next to the end, on a merging iterator. */
  method ReadMerged(it: MergingIterator) returns (input: seq<Entry>)
    requires it.Valid()
    modifies it, it.children
    ensures input == it.u.merged
  {
    input := [];
    it.SeekToFirst();
    while it.current.Some?
      invariant it.Valid() && |input| <= |it.u.merged| && input == it.u.merged[..|input|]
      invariant it.On(if |input| < |it.u.merged| then Some(|input|) else None)
      decreases |it.u.merged| - |input|
    {
      ghost var p := |input|;
      var key, value := it.KeyValue(p);
      input := input + [Entry(key, value)];
      it.Next(p);
    }
  }

  /** The same on a single child. */
  method ReadOne(it: Iterator) returns (input: seq<Entry>)
    modifies it
    ensures input == it.es
  {
    input := [];
    it.SeekToFirst();
    while it.pos.Some?
      invariant it.Valid() && |input| <= |it.es| && input == it.es[..|input|]
      invariant it.pos == if |input| < |it.es| then Some(|input|) else None
      decreases |it.es| - |input|
    {
      input := input + [it.es[it.pos.value]];
      it.Next();
    }
  }

  lemma OneList(p: Picked)
    requires |AllLists(p)| == 1 && Sorted(AllLists(p)[0])
    ensures MergesInputs(AllLists(p)[0], p)
  {
    forall e ensures e in AllLists(p)[0] <==> InFiles(p.inputs0, e) || InFiles(p.inputs1, e) {
      ListsHoldInputs(p, e);
    }
  }

  lemma SomeList(p: Picked)
    requires p.inputs0 != []
    ensures |AllLists(p)| >= 1
  {}

  /** MakeInputIterator, read to its end: a single child is used as it is, and more are
      merged. */
  method ReadInputs(v: Levels, p: Picked) returns (input: seq<Entry>)
    requires WellFormed(v) && GoodChoice(v, p) && InputsListed(v, p)
    ensures MergesInputs(input, p)
  {
    var lists := AllLists(p);
    AllMerge(v, p);
    SomeList(p);
    var children := MakeChildren(lists);
    if |children| == 1 {
      OneList(p);
      input := ReadOne(children[0]);
    } else {
      var it := NewMergingIterator(children, lists);
      UnionMergesInputs(it.u, p);
      input := ReadMerged(it);
    }
  }

  ghost predicate KeepsViews(v: Levels, v': Levels, snap: nat) {
    forall u, s :: s >= snap ==> View(Entries(v), u, s) == View(Entries(v'), u, s)
  }

  ghost predicate NothingComesBack(v: Levels, p: Picked, snap: nat)
    requires |v| == NUM_LEVELS && p.level + 1 < NUM_LEVELS
  {
    forall u :: !Resurrects(v, p, snap, u)
  }

  /** The inputs are replaced by files that hold what is kept of their entries, merged. */
  ghost predicate Compacted(v: Levels, p: Picked, snap: nat, v': Levels) {
    exists input, outputs {:trigger Ran(v, p, snap, input, outputs, v')} :: Ran(v, p, snap, input, outputs, v')
  }

  /** A whole compaction: merge, drop, write, install.  The version stays well
      formed, and every view at or above the oldest snapshot is kept, if and only if
      no key is resurrected. */
  method Compact(v: Levels, p: Picked, snap: nat, fileSize: seq<Entry> -> nat,
                 maxOutputFileSize: nat, maxOverlap: nat, nextFileNumber: nat)
    returns (v': Levels)
    requires WellFormed(v) && LevelsInOrder(v) && GoodChoice(v, p) && InputsListed(v, p)
    requires snap < MAX_SEQUENCE && Above(v, nextFileNumber)
    ensures WellFormed(v') && LevelsInOrder(v') && Compacted(v, p, snap, v')
    ensures KeepsViews(v, v', snap) <==> NothingComesBack(v, p, snap)
    ensures LeftIsNewer(v[p.level + 1], p.inputs1) ==> KeepsViews(v, v', snap)
  {
    var input := ReadInputs(v, p);
    WellFormedIsRanged(v);
    var c := new Compaction.Compaction(p.level, v, p.grandparents, maxOverlap);
    var outputs := Compaction.DoCompactionWork(c, input, snap, fileSize, maxOutputFileSize, nextFileNumber);
    OutputsAreGood(v, p, snap, input, outputs, nextFileNumber);
    v' := InstallCompactionResults(v, p, outputs);
    assert Ran(v, p, snap, input, outputs, v');
    StaysWellFormed(v, p, outputs, v');
    ViewsKeptExactly(v, p, snap, input, outputs, v');
    if LeftIsNewer(v[p.level + 1], p.inputs1) {
      ViewsKeptWhenClosed(v, p, snap, input, outputs, v');
    }
  }

  /** Compaction::IsTrivialMove */
  predicate IsTrivialMove(p: Picked, maxOverlap: nat) {
    |p.inputs0| == 1 && |p.inputs1| == 0 && Compaction.FileBytes(p.grandparents, 0, |p.grandparents|) <= maxOverlap
  }

  /** BackgroundCompaction without a pending memtable or manual request: inputs are picked
      for a level that is too large or a file sought too often, and moved or compacted. */
  method BackgroundCompaction(v: Levels, bySize: Option<nat>, bySeeks: Option<(nat, File)>, pointers: seq<Option<IKey>>, limit: nat,
                              snap: nat, fileSize: seq<Entry> -> nat, maxOutputFileSize: nat, maxOverlap: nat, nextFileNumber: nat)
    returns (v': Levels, ghost p: Option<Picked>)
    requires WellFormed(v) && LevelsInOrder(v) && |pointers| == NUM_LEVELS
    requires bySize.Some? ==> bySize.value + 1 < NUM_LEVELS && v[bySize.value] != []
    requires bySeeks.Some? ==> bySeeks.value.0 + 1 < NUM_LEVELS && bySeeks.value.1 in v[bySeeks.value.0]
    requires snap < MAX_SEQUENCE && Above(v, nextFileNumber)
    ensures WellFormed(v') && LevelsInOrder(v')
    ensures p.None? <==> bySize.None? && bySeeks.None?
    ensures p.None? ==> v' == v
    ensures p.Some? ==> Unbroken(p.value.inputs0 + p.value.inputs1)
    ensures p.Some? ==> GoodChoice(v, p.value) && (KeepsViews(v, v', snap) <==> NothingComesBack(v, p.value, snap))
    ensures p.Some? ==>
              if |p.value.inputs0| == 1 && p.value.inputs1 == [] && Compaction.FileBytes(p.value.grandparents, 0, |p.value.grandparents|) <= maxOverlap
              then Moved(v, v', p.value.level, p.value.inputs0[0]) else Compacted(v, p.value, snap, v')
  {
    WellFormedIsRanged(v);
    var picked := PickCompaction(v, bySize, bySeeks, pointers, limit);
    p, v' := picked, v;
    if picked.Some? {
      if IsTrivialMove(picked.value, maxOverlap) {
        v' := TrivialMove(v, picked.value);
      } else {
        v' := Compact(v, picked.value, snap, fileSize, maxOutputFileSize, maxOverlap, nextFileNumber);
      }
    }
  }
}
