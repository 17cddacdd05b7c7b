/** LogAndApply, WriteSnapshot and Recover (db/version_set.cc) as changes of the
    file lists: replaying the manifest in one Builder gives the live version. */
module Manifest {
  import opened Version
  import opened Builder

  // ---------------------------------------------------- one builder, many edits

  ghost function AddedN(es: seq<Edit>, n: nat, l: nat): seq<File>
    requires n <= |es|
  {
    if n == 0 then [] else AddedAfter(AddedN(es, n - 1, l), es[n - 1], l)
  }

  ghost function DeletedN(es: seq<Edit>, n: nat, l: nat): set<nat>
    requires n <= |es|
  {
    if n == 0 then {} else DeletedAfter(DeletedN(es, n - 1, l), es[n - 1], l)
  }

  /** The file numbers a level has held in `base` or after the first n edits. */
  ghost function Ever(base: seq<File>, es: seq<Edit>, n: nat, l: nat): set<nat>
    requires n <= |es|
  {
    if n == 0 then set f | f in base :: f.number
    else Ever(base, es, n - 1, l) + NewNumbers(es[n - 1].newFiles, l, |es[n - 1].newFiles|)
  }

  /** An edit adds to the level only files it never held, each once. */
  ghost predicate FreshAt(known: set<nat>, news: seq<(nat, File)>, l: nat) {
    && (forall i :: 0 <= i < |news| && news[i].0 == l ==> news[i].1.number !in known)
    && (forall i, j :: 0 <= i < j < |news| && news[i].0 == l && news[j].0 == l ==> news[i].1.number != news[j].1.number)
  }

  ghost predicate NeverReAdds(base: seq<File>, es: seq<Edit>, l: nat) {
    forall k {:trigger FreshAt(Ever(base, es, k, l), es[k].newFiles, l)} :: 0 <= k < |es| ==> FreshAt(Ever(base, es, k, l), es[k].newFiles, l)
  }

  /** One LogAndApply: a fresh builder on the current version. */
  ghost predicate LiveStep(before: seq<File>, e: Edit, l: nat, after: seq<File>) {
    Saved(before, AddedAfter([], e, l), DeletedAfter({}, e, l), after)
  }

  /** What fresh additions do to added_files. */
  lemma {:induction false} AddToMembers(files: seq<File>, news: seq<(nat, File)>, l: nat, n: nat, known: set<nat>)
    requires n <= |news| && InOrder(files) && FreshAt(known, news, l)
    requires forall f :: f in files ==> f.number in known
    ensures InOrder(AddTo(files, news, l, n))
    ensures forall f :: f in AddTo(files, news, l, n) <==> f in files || (l, f) in news[..n]
    ensures forall f :: f in AddTo(files, news, l, n) ==> f.number in known + NewNumbers(news, l, n)
  {
    if n > 0 {
      AddToMembers(files, news, l, n - 1, known);
      assert news[..n] == news[..n - 1] + [news[n - 1]];
      if news[n - 1].0 == l {
        var front := AddTo(files, news, l, n - 1);
        forall g | g in front ensures !SameKey(g, news[n - 1].1) {
          if (l, g) in news[..n - 1] {
            var i :| 0 <= i < n - 1 && news[i] == (l, g);
          }
        }
      }
    }
  }

  /** The invariant that ties the replaying builder to the live version. */
  ghost predicate Tied(base: seq<File>, es: seq<Edit>, n: nat, l: nat, live: seq<File>)
    requires n <= |es|
  {
    var added := AddedN(es, n, l);
    && InOrder(live) && InOrder(added) && Apart(base, added)
    && (forall f :: f in live <==> (f in base || f in added) && f.number !in DeletedN(es, n, l))
    && (forall f :: f in base || f in added ==> f.number in Ever(base, es, n, l))
  }

  lemma TiedStep(base: seq<File>, es: seq<Edit>, n: nat, l: nat, live: seq<File>, next: seq<File>)
    requires n < |es| && Tied(base, es, n, l, live) && LiveStep(live, es[n], l, next)
    requires FreshAt(Ever(base, es, n, l), es[n].newFiles, l)
    ensures Tied(base, es, n + 1, l, next)
  {
    var known := Ever(base, es, n, l);
    var news := es[n].newFiles;
    AddToMembers(AddedN(es, n, l), news, l, |news|, known);
    AddToMembers([], news, l, |news|, known);
    assert news[..|news|] == news;
    FreshApart(live, AddedAfter([], es[n], l), news, l, known);
    FreshApart(base, AddedAfter([], es[n], l), news, l, known);
    forall f, g | f in base && g in AddedN(es, n + 1, l) ensures !SameKey(f, g) {
      assert g in AddedN(es, n, l) || g in AddedAfter([], es[n], l);
    }
    forall f | (l, f) in news ensures f.number in NewNumbers(news, l, |news|) {
      var i :| 0 <= i < |news| && news[i] == (l, f);
    }
  }

  lemma FreshApart(live: seq<File>, added: seq<File>, news: seq<(nat, File)>, l: nat, known: set<nat>)
    requires FreshAt(known, news, l)
    requires forall f :: f in live ==> f.number in known
    requires forall f :: f in added ==> (l, f) in news
    ensures Apart(live, added)
  {
    forall f, g | f in live && g in added ensures !SameKey(f, g) {
      var i :| 0 <= i < |news| && news[i] == (l, g);
    }
  }

  /** vs[k] is the file list of level l before edit k. */
  ghost predicate History(vs: seq<seq<File>>, es: seq<Edit>, l: nat) {
    && |vs| == |es| + 1 && InOrder(vs[0])
    && forall k {:trigger Stepped(vs, es, l, k)} :: 0 <= k < |es| ==> Stepped(vs, es, l, k)
  }

  ghost predicate Stepped(vs: seq<seq<File>>, es: seq<Edit>, l: nat, k: nat)
    requires k < |es| && |vs| == |es| + 1
  {
    LiveStep(vs[k], es[k], l, vs[k + 1])
  }

  lemma {:induction false} HistoryIsTied(vs: seq<seq<File>>, es: seq<Edit>, n: nat, l: nat)
    requires History(vs, es, l) && n <= |es| && NeverReAdds(vs[0], es, l)
    ensures Tied(vs[0], es, n, l, vs[n])
  {
    if n > 0 {
      HistoryIsTied(vs, es, n - 1, l);
      assert Stepped(vs, es, l, n - 1);
      assert FreshAt(Ever(vs[0], es, n - 1, l), es[n - 1].newFiles, l);
      TiedStep(vs[0], es, n - 1, l, vs[n - 1], vs[n]);
    }
  }

  /** Manifest replay equals live history: applying all edits in one builder gives,
      level by level, the same file list as one builder per edit. */
  lemma ReplayEqualsHistory(vs: seq<seq<File>>, es: seq<Edit>, l: nat, replayed: seq<File>)
    requires History(vs, es, l) && NeverReAdds(vs[0], es, l)
    requires Saved(vs[0], AddedN(es, |es|, l), DeletedN(es, |es|, l), replayed)
    ensures replayed == vs[|es|]
  {
    HistoryIsTied(vs, es, |es|, l);
    SameFilesSameLevel(replayed, vs[|es|]);
  }

  // ------------------------------------------------------- the snapshot record

  function Tagged(l: nat, files: seq<File>): seq<(nat, File)> {
    seq(|files|, i requires 0 <= i < |files| => (l, files[i]))
  }

  ghost function SnapshotTo(v: Levels, n: nat): seq<(nat, File)>
    requires n <= |v|
  {
    if n == 0 then [] else SnapshotTo(v, n - 1) + Tagged(n - 1, v[n - 1])
  }

  lemma {:induction false} SnapshotMembers(v: Levels, n: nat, l: nat)
    requires n <= |v| && l < |v|
    ensures forall f :: (l, f) in SnapshotTo(v, n) <==> l < n && f in v[l]
    ensures forall i :: 0 <= i < |SnapshotTo(v, n)| ==> SnapshotTo(v, n)[i].0 < n
    ensures DistinctNumbers(v) ==> FreshAt({}, SnapshotTo(v, n), l)
  {
    if n > 0 {
      SnapshotMembers(v, n - 1, l);
      TaggedMembers(v, n - 1, l);
    }
  }

  lemma TaggedMembers(v: Levels, m: nat, l: nat)
    requires m < |v|
    ensures forall f :: (l, f) in Tagged(m, v[m]) <==> l == m && f in v[m]
    ensures DistinctNumbers(v) ==> FreshAt({}, Tagged(m, v[m]), l)
  {
    var t := Tagged(m, v[m]);
    forall f | f in v[m] ensures (m, f) in t {
      var i :| 0 <= i < |v[m]| && v[m][i] == f;
      assert t[i] == (m, f);
    }
  }

  /** WriteSnapshot: one edit that adds every file of the current version. */
  method WriteSnapshot(v: Levels) returns (e: Edit)
    requires |v| == NUM_LEVELS
    ensures e == Edit({}, SnapshotTo(v, NUM_LEVELS))
  {
    var news: seq<(nat, File)> := [];
    for l := 0 to NUM_LEVELS
      invariant news == SnapshotTo(v, l)
    {
      ghost var before := news;
      for i := 0 to |v[l]|
        invariant news == before + Tagged(l, v[l])[..i]
      {
        news := news + [(l, v[l][i])];
      }
    }
    e := Edit({}, news);
  }

  /** Recovering from a snapshot record restores the version it was written from. */
  lemma SnapshotRestores(v: Levels, l: nat)
    requires |v| == NUM_LEVELS && l < NUM_LEVELS && DistinctNumbers(v) && InOrder(v[l])
    ensures LiveStep([], Edit({}, SnapshotTo(v, NUM_LEVELS)), l, v[l])
    ensures FreshAt({}, SnapshotTo(v, NUM_LEVELS), l)
  {
    var news := SnapshotTo(v, NUM_LEVELS);
    SnapshotMembers(v, NUM_LEVELS, l);
    AddToMembers([], news, l, |news|, {});
    assert news[..|news|] == news;
  }

  /** The manifest as it is written: a snapshot of vs[0], then all later edits.
      Recovery starts from the empty version and arrives at the live one. */
  lemma RecoveryIsExact(first: Levels, vs: seq<seq<File>>, es: seq<Edit>, l: nat, recovered: seq<File>)
    requires |first| == NUM_LEVELS && l < NUM_LEVELS && DistinctNumbers(first)
    requires History(vs, es, l) && vs[0] == first[l] && NeverReAdds(vs[0], es, l)
    requires var all := [Edit({}, SnapshotTo(first, NUM_LEVELS))] + es;
             Saved([], AddedN(all, |all|, l), DeletedN(all, |all|, l), recovered)
    ensures recovered == vs[|es|]
  {
    var snapshot := Edit({}, SnapshotTo(first, NUM_LEVELS));
    var all := [snapshot] + es;
    var whole := [[]] + vs;
    SnapshotRestores(first, l);
    forall k | 0 <= k < |all| ensures Stepped(whole, all, l, k) {
      if k > 0 {
        assert Stepped(vs, es, l, k - 1);
      }
    }
    forall k | 0 <= k < |all| ensures FreshAt(Ever([], all, k, l), all[k].newFiles, l) {
      if k > 0 {
        EverAfterSnapshot(first, es, k - 1, l);
        assert FreshAt(Ever(vs[0], es, k - 1, l), es[k - 1].newFiles, l);
      }
    }
    ReplayEqualsHistory(whole, all, l, recovered);
  }

  lemma {:induction false} EverAfterSnapshot(first: Levels, es: seq<Edit>, n: nat, l: nat)
    requires |first| == NUM_LEVELS && l < NUM_LEVELS && n <= |es|
    ensures Ever([], [Edit({}, SnapshotTo(first, NUM_LEVELS))] + es, n + 1, l) == Ever(first[l], es, n, l)
  {
    var news := SnapshotTo(first, NUM_LEVELS);
    var all := [Edit({}, news)] + es;
    if n == 0 {
      SnapshotMembers(first, NUM_LEVELS, l);
      assert Ever([], all, 0, l) == {};
      forall f | f in first[l] ensures f.number in NewNumbers(news, l, |news|) {
        var i :| 0 <= i < |news| && news[i] == (l, f);
      }
      forall x | x in NewNumbers(news, l, |news|) ensures x in set f | f in first[l] :: f.number {
        var i :| 0 <= i < |news| && news[i].0 == l && news[i].1.number == x;
        assert (l, news[i].1) in news;
      }
    } else {
      EverAfterSnapshot(first, es, n - 1, l);
      assert all[n] == es[n - 1];
    }
  }

  /** Recover: every record of the manifest goes through the same builder. */
  method Recover(base: Levels, es: seq<Edit>) returns (v: Levels)
    requires |base| == NUM_LEVELS && forall l :: 0 <= l < NUM_LEVELS ==> InOrder(base[l])
    requires forall k :: 0 <= k < |es| ==> GoodEdit(es[k])
    ensures |v| == NUM_LEVELS
    ensures forall l :: 0 <= l < NUM_LEVELS ==> Saved(base[l], AddedN(es, |es|, l), DeletedN(es, |es|, l), v[l])
  {
    var builder := new Builder(base);
    for k := 0 to |es|
      invariant builder.Valid() && builder.base == base && fresh(builder)
      invariant forall l :: 0 <= l < NUM_LEVELS ==> builder.added[l] == AddedN(es, k, l) && builder.deleted[l] == DeletedN(es, k, l)
    {
      builder.Apply(es[k]);
    }
    v := builder.SaveTo();
  }

  /** LogAndApply. */
  method LogAndApply(current: Levels, e: Edit) returns (v: Levels)
    requires |current| == NUM_LEVELS && forall l :: 0 <= l < NUM_LEVELS ==> InOrder(current[l])
    requires GoodEdit(e)
    ensures |v| == NUM_LEVELS && forall l :: 0 <= l < NUM_LEVELS ==> LiveStep(current[l], e, l, v[l])
  {
    var builder := new Builder(current);
    builder.Apply(e);
    v := builder.SaveTo();
  }
}
