/** VersionSet::Builder: accumulating version edits and saving the result as a new
    version (db/version_set.cc). */
module Builder {
  import opened Keys
  import opened Version

  /** The part of a VersionEdit that changes the set of files. */
  datatype Edit = Edit(deletedFiles: set<(nat, nat)>, newFiles: seq<(nat, File)>)

  // ------------------------------------------------------------ BySmallestKey

  predicate BySmallest(f: File, g: File) {
    ILess(f.smallest, g.smallest) || (f.smallest == g.smallest && f.number < g.number)
  }

  predicate SameKey(f: File, g: File) {
    f.smallest == g.smallest && f.number == g.number
  }

  ghost predicate InOrder(files: seq<File>) {
    forall i, j {:trigger BySmallest(files[i], files[j])} :: 0 <= i < j < |files| ==> BySmallest(files[i], files[j])
  }

  lemma BySmallestTotal(f: File, g: File)
    ensures BySmallest(f, g) || SameKey(f, g) || BySmallest(g, f)
    ensures !(BySmallest(f, g) && BySmallest(g, f)) && !(BySmallest(f, g) && SameKey(f, g))
  {
    ITotal(f.smallest, g.smallest);
  }

  lemma BySmallestTransitive(f: File, g: File, h: File)
    requires (BySmallest(f, g) || SameKey(f, g)) && BySmallest(g, h)
    ensures BySmallest(f, h)
  {}

  /** A sorted level is determined by its set of files. */
  lemma {:induction false} SameFilesSameLevel(a: seq<File>, b: seq<File>)
    requires InOrder(a) && InOrder(b) && forall f :: f in a <==> f in b
    ensures a == b
  {
    assert a != [] ==> a[0] in b;
    assert b != [] ==> b[0] in b;
    if a != [] && b != [] {
      FirstIsLeast(a, b[0]);
      FirstIsLeast(b, a[0]);
      BySmallestTotal(a[0], b[0]);
      assert a == [a[0]] + a[1..] && b == [b[0]] + b[1..];
      TailInOrder(a);
      TailInOrder(b);
      assert forall g :: g in a[1..] <==> g in a && g != a[0];
      assert forall g :: g in b[1..] <==> g in b && g != b[0];
      SameFilesSameLevel(a[1..], b[1..]);
    }
  }

  lemma FirstIsLeast(a: seq<File>, f: File)
    requires InOrder(a) && f in a
    ensures f == a[0] || BySmallest(a[0], f)
  {
    var i :| 0 <= i < |a| && a[i] == f;
    assert i > 0 ==> BySmallest(a[0], a[i]);
  }

  lemma TailInOrder(a: seq<File>)
    requires InOrder(a) && a != []
    ensures InOrder(a[1..]) && a[0] !in a[1..]
  {
    forall i, j | 0 <= i < j < |a[1..]| ensures BySmallest(a[1..][i], a[1..][j]) {
      assert BySmallest(a[i + 1], a[j + 1]);
    }
    forall i | 0 <= i < |a[1..]| ensures a[1..][i] != a[0] {
      assert BySmallest(a[0], a[i + 1]);
      BySmallestTotal(a[0], a[i + 1]);
    }
  }

  // ------------------------------------------------------------- added_files

  /** FileSet::insert: an element with the same key stays. */
  function Insert(files: seq<File>, f: File): (r: seq<File>)
    ensures (forall g :: g in files ==> !SameKey(g, f)) ==> forall g :: g in r <==> g == f || g in files
    ensures InOrder(files) ==> InOrder(r) && forall g :: g in r ==> g == f || g in files
    ensures |files| <= |r| <= |files| + 1
  {
    if files == [] then [f]
    else if BySmallest(f, files[0]) then
      assert InOrder(files) ==> InOrder([f] + files) by {
        if InOrder(files) {
          BeforeAll(files, f);
        }
      }
      [f] + files
    else if SameKey(files[0], f) then files
    else
      var r := Insert(files[1..], f);
      assert files == [files[0]] + files[1..];
      assert InOrder(files) ==> InOrder([files[0]] + r) by {
        if InOrder(files) {
          TailInOrder(files);
          BySmallestTotal(f, files[0]);
          AfterFirst(files, r, f);
        }
      }
      [files[0]] + r
  }

  lemma BeforeAll(files: seq<File>, f: File)
    requires InOrder(files) && files != [] && BySmallest(f, files[0])
    ensures InOrder([f] + files)
  {
    var s := [f] + files;
    forall i, j | 0 <= i < j < |s| ensures BySmallest(s[i], s[j]) {
      if i > 0 {
        assert BySmallest(files[i - 1], files[j - 1]);
      } else if j > 1 {
        assert BySmallest(files[0], files[j - 1]);
        BySmallestTransitive(f, files[0], files[j - 1]);
      }
    }
  }

  lemma AfterFirst(files: seq<File>, r: seq<File>, f: File)
    requires InOrder(files) && files != [] && InOrder(r) && BySmallest(files[0], f)
    requires forall g :: g in r ==> g == f || g in files[1..]
    ensures InOrder([files[0]] + r)
  {
    var s := [files[0]] + r;
    forall i, j | 0 <= i < j < |s| ensures BySmallest(s[i], s[j]) {
      if i > 0 {
        assert BySmallest(r[i - 1], r[j - 1]);
      } else {
        assert r[j - 1] in r;
        if r[j - 1] != f {
          var k :| 0 <= k < |files[1..]| && files[1..][k] == r[j - 1];
          assert BySmallest(files[0], files[k + 1]);
        }
      }
    }
  }

  // ------------------------------------------------------------------ Builder

  /** Levels named by an edit exist (VersionEdit decoding checks this). */
  ghost predicate GoodEdit(e: Edit) {
    && (forall d :: d in e.deletedFiles ==> d.0 < NUM_LEVELS)
    && (forall i :: 0 <= i < |e.newFiles| ==> e.newFiles[i].0 < NUM_LEVELS)
  }

  /** added_files of a level after the first n additions of an edit. */
  ghost function AddTo(files: seq<File>, news: seq<(nat, File)>, level: nat, n: nat): seq<File>
    requires n <= |news|
  {
    if n == 0 then files
    else if news[n - 1].0 == level then Insert(AddTo(files, news, level, n - 1), news[n - 1].1)
    else AddTo(files, news, level, n - 1)
  }

  /** The numbers of the files that the first n additions put in a level. */
  ghost function NewNumbers(news: seq<(nat, File)>, level: nat, n: nat): set<nat>
    requires n <= |news|
  {
    set i | 0 <= i < n && news[i].0 == level :: news[i].1.number
  }

  ghost function DeletedNumbers(d: set<(nat, nat)>, level: nat): set<nat> {
    set x | x in d && x.0 == level :: x.1
  }

  /** deleted_files of a level after an edit: the additions lift deletions. */
  ghost function DeletedAfter(deleted: set<nat>, e: Edit, level: nat): set<nat> {
    deleted + DeletedNumbers(e.deletedFiles, level) - NewNumbers(e.newFiles, level, |e.newFiles|)
  }

  ghost function AddedAfter(added: seq<File>, e: Edit, level: nat): seq<File> {
    AddTo(added, e.newFiles, level, |e.newFiles|)
  }

  lemma {:induction false} AddToInOrder(files: seq<File>, news: seq<(nat, File)>, level: nat, n: nat)
    requires n <= |news| && InOrder(files)
    ensures InOrder(AddTo(files, news, level, n))
  {
    if n > 0 {
      AddToInOrder(files, news, level, n - 1);
    }
  }

  /** std::upper_bound: the first position in [from, |files|) whose file is greater
      than f. */
  function UpperBound(files: seq<File>, from: nat, f: File): (p: nat)
    requires from <= |files|
    ensures from <= p <= |files|
    ensures forall i :: from <= i < p ==> !BySmallest(f, files[i])
    ensures p < |files| ==> BySmallest(f, files[p])
    decreases |files| - from
  {
    if from == |files| || BySmallest(f, files[from]) then from else UpperBound(files, from + 1, f)
  }

  /** f may be appended to files without breaking the order. */
  ghost predicate AllBelow(files: seq<File>, f: File) {
    forall g {:trigger BySmallest(g, f)} :: g in files ==> BySmallest(g, f)
  }

  /** No file of one list has the key of a file of the other. */
  ghost predicate Apart(a: seq<File>, b: seq<File>) {
    forall f, g {:trigger SameKey(f, g)} :: f in a && g in b ==> !SameKey(f, g)
  }

  lemma AppendInOrder(files: seq<File>, f: File)
    requires InOrder(files) && AllBelow(files, f)
    ensures InOrder(files + [f])
  {
    forall i | 0 <= i < |files| ensures BySmallest(files[i], f) {
      assert files[i] in files;
    }
  }

  ghost predicate AdditionsDone(d0: seq<set<nat>>, a0: seq<seq<File>>, news: seq<(nat, File)>, i: nat, d: seq<set<nat>>, a: seq<seq<File>>) {
    && i <= |news| && |d0| == |a0| == |d| == |a| == NUM_LEVELS
    && (forall l :: 0 <= l < NUM_LEVELS ==> d[l] == d0[l] - NewNumbers(news, l, i))
    && (forall l :: 0 <= l < NUM_LEVELS ==> a[l] == AddTo(a0[l], news, l, i))
  }

  lemma AdditionStep(d0: seq<set<nat>>, a0: seq<seq<File>>, news: seq<(nat, File)>, i: nat, d: seq<set<nat>>, a: seq<seq<File>>)
    requires AdditionsDone(d0, a0, news, i, d, a) && i < |news| && news[i].0 < NUM_LEVELS
    ensures AdditionsDone(d0, a0, news, i + 1, d[news[i].0 := d[news[i].0] - {news[i].1.number}], a[news[i].0 := Insert(a[news[i].0], news[i].1)])
  {
    forall l ensures NewNumbers(news, l, i + 1) == NewNumbers(news, l, i) + (if l == news[i].0 then {news[i].1.number} else {}) {}
  }

  /** What SaveTo makes of one level: the base and added files that are not deleted,
      in order unless a file was added under the key of a base file. */
  ghost predicate Saved(base: seq<File>, added: seq<File>, deleted: set<nat>, files: seq<File>) {
    && (forall f :: f in files <==> (f in base || f in added) && f.number !in deleted)
    && (Apart(base, added) ==> InOrder(files))
  }

  class Builder {
    const base: Levels          // base_->files_
    var deleted: seq<set<nat>>  // levels_[l].deleted_files
    var added: seq<seq<File>>   // levels_[l].added_files, in set order

    ghost predicate Valid()
      reads this
    {
      && |base| == NUM_LEVELS && |deleted| == NUM_LEVELS && |added| == NUM_LEVELS
      && (forall l :: 0 <= l < NUM_LEVELS ==> InOrder(base[l]) && InOrder(added[l]))
    }

    constructor (base: Levels)
      requires |base| == NUM_LEVELS && forall l :: 0 <= l < NUM_LEVELS ==> InOrder(base[l])
      ensures Valid() && this.base == base
      ensures forall l :: 0 <= l < NUM_LEVELS ==> deleted[l] == {} && added[l] == []
    {
      this.base := base;
      deleted := seq(NUM_LEVELS, _ => {});
      added := seq(NUM_LEVELS, _ => []);
    }

    /** Builder::Apply: deletions first, then additions. */
    method Apply(e: Edit)
      requires Valid() && GoodEdit(e)
      modifies this
      ensures Valid()
      ensures forall l :: 0 <= l < NUM_LEVELS ==> deleted[l] == DeletedAfter(old(deleted[l]), e, l)
      ensures forall l :: 0 <= l < NUM_LEVELS ==> added[l] == AddedAfter(old(added[l]), e, l)
    {
      ApplyDeletions(e);
      ApplyAdditions(e);
    }

    method ApplyAdditions(e: Edit)
      requires Valid() && GoodEdit(e)
      modifies this
      ensures Valid()
      ensures forall l :: 0 <= l < NUM_LEVELS ==> deleted[l] == old(deleted[l]) - NewNumbers(e.newFiles, l, |e.newFiles|)
      ensures forall l :: 0 <= l < NUM_LEVELS ==> added[l] == AddedAfter(old(added[l]), e, l)
    {
      ghost var d0, a0 := deleted, added;
      for i := 0 to |e.newFiles|
        invariant AdditionsDone(d0, a0, e.newFiles, i, deleted, added)
      {
        var level, f := e.newFiles[i].0, e.newFiles[i].1;
        AdditionStep(d0, a0, e.newFiles, i, deleted, added);
        deleted := deleted[level := deleted[level] - {f.number}];
        added := added[level := Insert(added[level], f)];
      }
      forall l | 0 <= l < NUM_LEVELS ensures InOrder(added[l]) {
        AddToInOrder(a0[l], e.newFiles, l, |e.newFiles|);
      }
    }

    method ApplyDeletions(e: Edit)
      requires Valid() && GoodEdit(e)
      modifies this`deleted
      ensures Valid()
      ensures forall l :: 0 <= l < NUM_LEVELS ==> deleted[l] == old(deleted[l]) + DeletedNumbers(e.deletedFiles, l)
    {
      var todo := e.deletedFiles;
      while todo != {}
        invariant todo <= e.deletedFiles && |deleted| == NUM_LEVELS
        invariant forall l :: 0 <= l < NUM_LEVELS ==> deleted[l] == old(deleted[l]) + DeletedNumbers(e.deletedFiles - todo, l)
        decreases todo
      {
        var d :| d in todo;
        todo := todo - {d};
        deleted := deleted[d.0 := deleted[d.0] + {d.1}];
      }
      assert e.deletedFiles - {} == e.deletedFiles;
    }

    /** Builder::SaveTo. */
    method SaveTo() returns (v: Levels)
      requires Valid()
      ensures |v| == NUM_LEVELS
      ensures forall l :: 0 <= l < NUM_LEVELS ==> Saved(base[l], added[l], deleted[l], v[l])
    {
      v := [];
      for l := 0 to NUM_LEVELS
        invariant |v| == l
        invariant forall m :: 0 <= m < l ==> Saved(base[m], added[m], deleted[m], v[m])
      {
        var files := SaveLevel(base[l], added[l], deleted[l]);
        v := v + [files];
      }
    }
  }

  /** The merge has consumed the first b base files and the first a added files. */
  ghost predicate Merged(files: seq<File>, bs: seq<File>, b: nat, ads: seq<File>, a: nat, deleted: set<nat>) {
    && b <= |bs| && a <= |ads|
    && (forall f {:trigger f in files} :: f in files <==> (f in bs[..b] || f in ads[..a]) && f.number !in deleted)
    && (Apart(bs, ads) ==> InOrder(files) && (b < |bs| ==> AllBelow(files, bs[b])) && (a < |ads| ==> AllBelow(files, ads[a])))
  }

  /** Builder::SaveTo for one level, with MaybeAddFile: the merge of base and added
      files without the deleted ones. */
  method SaveLevel(bs: seq<File>, ads: seq<File>, deleted: set<nat>) returns (files: seq<File>)
    requires InOrder(bs) && InOrder(ads)
    ensures Saved(bs, ads, deleted, files)
  {
    files := [];
    var b, a := 0, 0;
    while a < |ads|
      invariant Merged(files, bs, b, ads, a, deleted)
    {
      var bpos := UpperBound(bs, b, ads[a]);
      files := TakeBaseFiles(files, bs, b, bpos, ads, a, deleted);
      b := bpos;
      TakeAdded(files, bs, b, ads, a, deleted);
      files := MaybeAddFile(files, ads[a], deleted);
      a := a + 1;
    }
    files := TakeBaseFiles(files, bs, b, |bs|, ads, |ads|, deleted);
    MergedAll(files, bs, ads, deleted);
  }

  /** The i-th file may be taken before f. */
  predicate NotBefore(f: File, bs: seq<File>, i: nat)
    requires i < |bs|
  {
    !BySmallest(f, bs[i])
  }

  /** The loops over base files: those up to `end` are not after the next added file. */
  method TakeBaseFiles(files: seq<File>, bs: seq<File>, start: nat, end: nat, ads: seq<File>, a: nat, deleted: set<nat>) returns (files': seq<File>)
    requires Merged(files, bs, start, ads, a, deleted) && start <= end <= |bs| && InOrder(bs)
    requires a < |ads| ==> forall i {:trigger NotBefore(ads[a], bs, i)} :: start <= i < end ==> NotBefore(ads[a], bs, i)
    ensures Merged(files', bs, end, ads, a, deleted)
  {
    files' := files;
    for b := start to end
      invariant Merged(files', bs, b, ads, a, deleted)
    {
      assert a < |ads| ==> NotBefore(ads[a], bs, b);
      TakeBase(files', bs, b, ads, a, deleted);
      files' := MaybeAddFile(files', bs[b], deleted);
    }
  }

  lemma MergedAll(files: seq<File>, bs: seq<File>, ads: seq<File>, deleted: set<nat>)
    requires Merged(files, bs, |bs|, ads, |ads|, deleted)
    ensures Saved(bs, ads, deleted, files)
  {
    assert bs[..|bs|] == bs && ads[..|ads|] == ads;
  }

  /** MaybeAddFile. */
  function MaybeAddFile(files: seq<File>, f: File, deleted: set<nat>): seq<File> {
    if f.number in deleted then files else files + [f]
  }

  lemma TakeBase(files: seq<File>, bs: seq<File>, b: nat, ads: seq<File>, a: nat, deleted: set<nat>)
    requires Merged(files, bs, b, ads, a, deleted) && b < |bs| && InOrder(bs)
    requires a < |ads| ==> !BySmallest(ads[a], bs[b])
    ensures Merged(MaybeAddFile(files, bs[b], deleted), bs, b + 1, ads, a, deleted)
  {
    assert bs[..b + 1] == bs[..b] + [bs[b]];
    if Apart(bs, ads) {
      AppendInOrder(files, bs[b]);
      if b + 1 < |bs| {
        assert BySmallest(bs[b], bs[b + 1]);
        BelowBoth(files, bs[b], bs[b + 1]);
      }
      if a < |ads| {
        BySmallestTotal(ads[a], bs[b]);
        assert !SameKey(bs[b], ads[a]);
        BelowBoth(files, bs[b], ads[a]);
      }
    }
  }

  lemma TakeAdded(files: seq<File>, bs: seq<File>, b: nat, ads: seq<File>, a: nat, deleted: set<nat>)
    requires Merged(files, bs, b, ads, a, deleted) && a < |ads| && InOrder(ads)
    requires b < |bs| ==> BySmallest(ads[a], bs[b])
    ensures Merged(MaybeAddFile(files, ads[a], deleted), bs, b, ads, a + 1, deleted)
  {
    assert ads[..a + 1] == ads[..a] + [ads[a]];
    if Apart(bs, ads) {
      AppendInOrder(files, ads[a]);
      if a + 1 < |ads| {
        assert BySmallest(ads[a], ads[a + 1]);
        BelowBoth(files, ads[a], ads[a + 1]);
      }
      if b < |bs| {
        BelowBoth(files, ads[a], bs[b]);
      }
    }
  }

  lemma BelowBoth(files: seq<File>, f: File, g: File)
    requires AllBelow(files, f) && BySmallest(f, g)
    ensures AllBelow(files, g) && AllBelow(files + [f], g)
  {
    forall h | h in files ensures BySmallest(h, g) {
      assert BySmallest(h, f);
      BySmallestTransitive(h, f, g);
    }
    assert forall h :: h in files + [f] <==> h in files || h == f;
  }
}
