/** Exactly when replaying a manifest in one Builder gives what one Builder per edit gave
    (VersionSet::Recover and LogAndApply in db/version_set.cc), whatever numbers are deleted
    and added again. */
module ManifestExact {
  import opened Keys
  import opened Version
  import opened Builder
  import opened Manifest

  // ----------------------------------------------------- what edits do to a level

  ghost predicate Adds(es: seq<Edit>, l: nat, i: nat, f: File) {
    i < |es| && (l, f) in es[i].newFiles
  }

  ghost predicate AddsNumber(es: seq<Edit>, l: nat, i: nat, x: nat) {
    i < |es| && x in NewNumbers(es[i].newFiles, l, |es[i].newFiles|)
  }

  /** The edit deletes the number and does not add it. */
  ghost predicate Drops(es: seq<Edit>, l: nat, k: nat, x: nat) {
    k < |es| && x in DeletedNumbers(es[k].deletedFiles, l) && !AddsNumber(es, l, k, x)
  }

  /** Files that std::set takes for the same are the same. */
  ghost predicate SameNamed(es: seq<Edit>, l: nat) {
    forall i, j, f, g {:trigger Adds(es, l, i, f), Adds(es, l, j, g)} :: Adds(es, l, i, f) && Adds(es, l, j, g) && SameKey(f, g) ==> f == g
  }

  /** The file was added, and its number not dropped since. */
  ghost predicate Held(es: seq<Edit>, l: nat, n: nat, f: File) {
    exists i: nat {:trigger Adds(es, l, i, f)} :: i < n && Adds(es, l, i, f) && forall k: nat {:trigger Drops(es, l, k, f.number)} :: i < k < n ==> !Drops(es, l, k, f.number)
  }

  ghost predicate EverAdded(es: seq<Edit>, l: nat, n: nat, f: File) {
    exists i: nat {:trigger Adds(es, l, i, f)} :: i < n && Adds(es, l, i, f)
  }

  /** The number was dropped, and not added since. */
  ghost predicate Gone(es: seq<Edit>, l: nat, n: nat, x: nat) {
    exists k: nat {:trigger Drops(es, l, k, x)} :: k < n && Drops(es, l, k, x) && forall m: nat {:trigger AddsNumber(es, l, m, x)} :: k < m < n ==> !AddsNumber(es, l, m, x)
  }

  /** A file that comes back: its number was dropped after it was added, and then added
      again, but for another file. */
  ghost predicate ComesBack(es: seq<Edit>, l: nat, n: nat, f: File) {
    && !Gone(es, l, n, f.number)
    && exists i: nat, k: nat {:trigger Adds(es, l, i, f), Drops(es, l, k, f.number)} ::
         i < k < n && Adds(es, l, i, f) && Drops(es, l, k, f.number)
         && forall j: nat {:trigger Adds(es, l, j, f)} :: k < j < n ==> !Adds(es, l, j, f)
  }

  lemma AddsItsNumber(es: seq<Edit>, l: nat, i: nat, f: File)
    requires Adds(es, l, i, f)
    ensures AddsNumber(es, l, i, f.number)
  {
    var news := es[i].newFiles;
    var j :| 0 <= j < |news| && news[j] == (l, f);
  }

  // ------------------------------------------------------------ added_files

  lemma {:induction false} InsertKeeps(files: seq<File>, f: File) returns (g: File)
    ensures forall h :: h in files ==> h in Insert(files, f)
    ensures forall h :: h in Insert(files, f) ==> h in files || h == f
    ensures g in Insert(files, f) && (g == f || (SameKey(g, f) && g in files))
  {
    g := f;
    if files != [] {
      assert files == [files[0]] + files[1..];
      assert files[0] in files;
      if !BySmallest(f, files[0]) {
        if SameKey(files[0], f) {
          g := files[0];
        } else {
          g := InsertKeeps(files[1..], f);
        }
      }
    }
  }

  /** What an edit's additions do to added_files. */
  lemma {:induction false} AddToHas(files: seq<File>, news: seq<(nat, File)>, l: nat, n: nat)
    requires n <= |news|
    requires forall f, g :: (f in files || (l, f) in news) && (g in files || (l, g) in news) && SameKey(f, g) ==> f == g
    ensures forall f :: f in AddTo(files, news, l, n) <==> f in files || (l, f) in news[..n]
  {
    if n > 0 {
      AddToHas(files, news, l, n - 1);
      assert news[..n] == news[..n - 1] + [news[n - 1]];
      var g := InsertKeeps(AddTo(files, news, l, n - 1), news[n - 1].1);
      assert news[n - 1] in news;
      assert forall f :: (l, f) in news[..n - 1] ==> (l, f) in news;
    }
  }

  lemma {:induction false} AddedHas(es: seq<Edit>, l: nat, n: nat)
    requires n <= |es| && SameNamed(es, l)
    ensures forall f :: f in AddedN(es, n, l) <==> EverAdded(es, l, n, f)
  {
    if n > 0 {
      AddedHas(es, l, n - 1);
      var news := es[n - 1].newFiles;
      forall f, g | (f in AddedN(es, n - 1, l) || (l, f) in news) && (g in AddedN(es, n - 1, l) || (l, g) in news) && SameKey(f, g)
        ensures f == g
      {
        assert (l, f) in news ==> Adds(es, l, n - 1, f);
        assert (l, g) in news ==> Adds(es, l, n - 1, g);
      }
      AddToHas(AddedN(es, n - 1, l), news, l, |news|);
      assert news[..|news|] == news;
      forall f ensures f in AddedN(es, n, l) <==> EverAdded(es, l, n, f) {
        assert (l, f) in news <==> Adds(es, l, n - 1, f);
      }
    }
  }

  lemma AddedByOne(es: seq<Edit>, l: nat, i: nat)
    requires i < |es| && SameNamed(es, l)
    ensures forall f :: f in AddedAfter([], es[i], l) <==> Adds(es, l, i, f)
  {
    var news := es[i].newFiles;
    forall f, g | (l, f) in news && (l, g) in news && SameKey(f, g) ensures f == g {
      assert Adds(es, l, i, f) && Adds(es, l, i, g);
    }
    AddToHas([], news, l, |news|);
    assert news[..|news|] == news;
  }

  lemma {:induction false} DeletedHas(es: seq<Edit>, l: nat, n: nat, x: nat)
    requires n <= |es|
    ensures x in DeletedN(es, n, l) <==> Gone(es, l, n, x)
  {
    if n > 0 {
      DeletedHas(es, l, n - 1, x);
      assert x in DeletedN(es, n, l) <==> (x in DeletedN(es, n - 1, l) || Drops(es, l, n - 1, x)) && !AddsNumber(es, l, n - 1, x);
      if Gone(es, l, n - 1, x) && !AddsNumber(es, l, n - 1, x) {
        var k: nat :| k < n - 1 && Drops(es, l, k, x) && forall m: nat {:trigger AddsNumber(es, l, m, x)} :: k < m < n - 1 ==> !AddsNumber(es, l, m, x);
        assert Gone(es, l, n, x);
      }
    }
  }

  // ---------------------------------------------------------------- live levels

  lemma HeldNext(es: seq<Edit>, l: nat, n: nat, f: File)
    requires n < |es|
    ensures Held(es, l, n + 1, f) <==> (Held(es, l, n, f) || Adds(es, l, n, f)) && !Drops(es, l, n, f.number)
  {
    if Adds(es, l, n, f) {
      AddsItsNumber(es, l, n, f);
    }
    if Held(es, l, n, f) && !Drops(es, l, n, f.number) {
      var i: nat :| i < n && Adds(es, l, i, f) && forall k: nat {:trigger Drops(es, l, k, f.number)} :: i < k < n ==> !Drops(es, l, k, f.number);
      assert Held(es, l, n + 1, f);
    }
  }

  /** The live version of a level: the files added and not dropped since. */
  lemma {:induction false} LiveHas(vs: seq<seq<File>>, es: seq<Edit>, l: nat, n: nat, f: File)
    requires History(vs, es, l) && vs[0] == [] && SameNamed(es, l) && n <= |es|
    ensures f in vs[n] <==> Held(es, l, n, f)
  {
    if n > 0 {
      LiveHas(vs, es, l, n - 1, f);
      assert Stepped(vs, es, l, n - 1);
      AddedByOne(es, l, n - 1);
      HeldNext(es, l, n - 1, f);
      assert f.number in DeletedAfter({}, es[n - 1], l) <==> Drops(es, l, n - 1, f.number);
    }
  }

  lemma LastAdded(es: seq<Edit>, l: nat, n: nat, f: File) returns (i: nat)
    requires EverAdded(es, l, n, f)
    ensures i < n && Adds(es, l, i, f) && forall j: nat {:trigger Adds(es, l, j, f)} :: i < j < n ==> !Adds(es, l, j, f)
  {
    i :| i < n && Adds(es, l, i, f);
    var k := i + 1;
    while k < n
      invariant i < k <= n && Adds(es, l, i, f)
      invariant forall j: nat {:trigger Adds(es, l, j, f)} :: i < j < k ==> !Adds(es, l, j, f)
    {
      if Adds(es, l, k, f) {
        i := k;
      }
      k := k + 1;
    }
  }

  /** What replay has and the live version has not is what comes back. */
  lemma ReplayedOrBack(es: seq<Edit>, l: nat, n: nat, f: File)
    requires n <= |es|
    ensures Held(es, l, n, f) ==> EverAdded(es, l, n, f) && !Gone(es, l, n, f.number)
    ensures EverAdded(es, l, n, f) && !Gone(es, l, n, f.number) ==> (Held(es, l, n, f) <==> !ComesBack(es, l, n, f))
  {
    forall i: nat | i < n && Adds(es, l, i, f) ensures AddsNumber(es, l, i, f.number) {
      AddsItsNumber(es, l, i, f);
    }
    if EverAdded(es, l, n, f) && !Gone(es, l, n, f.number) && !Held(es, l, n, f) {
      var i := LastAdded(es, l, n, f);
      var k: nat :| i < k < n && Drops(es, l, k, f.number);
      assert Adds(es, l, i, f);
    }
  }

  /** Recovery in one builder from the first n edits gives the level as it was after them if
      and only if no file comes back. */
  lemma ReplayIsExactly(vs: seq<seq<File>>, es: seq<Edit>, l: nat, n: nat, replayed: seq<File>)
    requires History(vs, es, l) && vs[0] == [] && SameNamed(es, l) && n <= |es| && InOrder(vs[n])
    requires Saved([], AddedN(es, n, l), DeletedN(es, n, l), replayed)
    ensures replayed == vs[n] <==> forall f :: !ComesBack(es, l, n, f)
  {
    AddedHas(es, l, n);
    forall f
      ensures f in replayed <==> EverAdded(es, l, n, f) && !Gone(es, l, n, f.number)
      ensures f in vs[n] <==> Held(es, l, n, f)
    {
      DeletedHas(es, l, n, f.number);
      LiveHas(vs, es, l, n, f);
    }
    forall f ensures ComesBack(es, l, n, f) <==> f in replayed && f !in vs[n] {
      ReplayedOrBack(es, l, n, f);
    }
    if forall f :: !ComesBack(es, l, n, f) {
      forall f ensures f in replayed <==> f in vs[n] {
        ReplayedOrBack(es, l, n, f);
        assert !ComesBack(es, l, n, f);
      }
      SameFilesSameLevel(replayed, vs[n]);
    }
  }

  /** Where a number always names the same file, nothing comes back. */
  lemma OneFileForANumber(es: seq<Edit>, l: nat, n: nat, f: File)
    requires n <= |es|
    requires forall i, j, g, h {:trigger Adds(es, l, i, g), Adds(es, l, j, h)} :: Adds(es, l, i, g) && Adds(es, l, j, h) && g.number == h.number ==> g == h
    ensures !ComesBack(es, l, n, f)
  {
    if ComesBack(es, l, n, f) {
      var i: nat, k: nat :| i < k < n && Adds(es, l, i, f) && Drops(es, l, k, f.number)
                            && forall j: nat {:trigger Adds(es, l, j, f)} :: k < j < n ==> !Adds(es, l, j, f);
      var m: nat :| k < m < n && AddsNumber(es, l, m, f.number);
      var news := es[m].newFiles;
      var j :| 0 <= j < |news| && news[j].0 == l && news[j].1.number == f.number;
      assert Adds(es, l, m, news[j].1);
    }
  }

  // -------------------------------------------------------------- an example

  const FIRST := IKey([97], 1, Value)
  const SECOND := IKey([98], 2, Value)
  const OLD := File(5, 1, FIRST, FIRST, [Entry(FIRST, [])])
  const NEW := File(5, 1, SECOND, SECOND, [Entry(SECOND, [])])
  const REUSE := [Edit({}, [(1, OLD)]), Edit({(1, 5)}, []), Edit({}, [(1, NEW)])]

  /** Number 5 is given to a second file after the first was deleted. */
  lemma ReuseBringsBack()
    ensures SameNamed(REUSE, 1) && ComesBack(REUSE, 1, 3, OLD)
  {
    assert Adds(REUSE, 1, 0, OLD) && Drops(REUSE, 1, 1, 5) && Adds(REUSE, 1, 2, NEW);
    AddsItsNumber(REUSE, 1, 2, NEW);
    assert FIRST.user[0] != SECOND.user[0];
    assert !Adds(REUSE, 1, 2, OLD);
  }
}
