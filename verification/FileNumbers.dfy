/** The numbers of table files (NewFileNumber and its users in db/version_set.cc and
    db/db_impl.cc): every number is given to one file, so a manifest can be replayed. */
module FileNumbers {
  import opened Version
  import opened Builder
  import opened ManifestExact
  import opened Selection
  import opened CompactionProof

  /** The file is in the version, or an edit of the manifest has added it. */
  ghost predicate Known(es: seq<Edit>, v: Levels, f: File) {
    (exists l: nat, i: nat {:trigger Adds(es, l, i, f)} :: Adds(es, l, i, f)) || exists l {:trigger v[l]} :: 0 <= l < |v| && f in v[l]
  }

  /** A number stands for one file, which is in one level. */
  ghost predicate OneHome(v: Levels) {
    forall l, m, f, g {:trigger f in v[l], g in v[m]} :: 0 <= l < |v| && 0 <= m < |v| && f in v[l] && g in v[m] && f.number == g.number ==> l == m && f == g
  }

  /** Known files have numbers below the next one, each its own; the numbers that were handed
      out and are not yet in use are others. */
  ghost predicate Numbering(es: seq<Edit>, v: Levels, issued: set<nat>, next: nat) {
    && (forall f {:trigger Known(es, v, f)} :: Known(es, v, f) ==> f.number < next && f.number !in issued)
    && (forall f, g {:trigger Known(es, v, f), Known(es, v, g)} :: Known(es, v, f) && Known(es, v, g) && f.number == g.number ==> f == g)
    && OneHome(v) && forall x :: x in issued ==> x < next
  }

  /** The edit takes the file from another level. */
  ghost predicate Moves(v: Levels, e: Edit, l: nat, f: File) {
    exists m {:trigger v[m]} :: 0 <= m < |v| && m != l && f in v[m] && (m, f.number) in e.deletedFiles
  }

  /** Every file that an edit adds has a number that was handed out for it, or is moved. */
  ghost predicate Proper(v: Levels, issued: set<nat>, e: Edit) {
    && (forall i {:trigger e.newFiles[i]} :: 0 <= i < |e.newFiles| ==> e.newFiles[i].1.number in issued || Moves(v, e, e.newFiles[i].0, e.newFiles[i].1))
    && forall i, j {:trigger e.newFiles[i], e.newFiles[j]} :: 0 <= i < j < |e.newFiles| ==> e.newFiles[i].1.number != e.newFiles[j].1.number
  }

  /** The outputs of a compaction have numbers that were handed out for them. */
  lemma CompactionIsProper(v: Levels, p: Picked, outputs: seq<File>, issued: set<nat>, e: Edit)
    requires |v| == NUM_LEVELS && GoodOutputs(v, p, outputs) && CompactionEdit(p, outputs, e)
    requires forall o :: o in outputs ==> o.number in issued
    ensures Proper(v, issued, e)
  {
    forall i, j | 0 <= i < j < |e.newFiles| ensures e.newFiles[i].1.number != e.newFiles[j].1.number {
      OutputNumbersDiffer(v, p, outputs, i, j);
    }
    forall i | 0 <= i < |e.newFiles| ensures e.newFiles[i].1.number in issued {
      assert outputs[i] in outputs;
    }
  }

  /** A trivial move takes its file from the level above. */
  lemma MoveIsProper(v: Levels, p: Picked, f: File, issued: set<nat>, e: Edit)
    requires |v| == NUM_LEVELS && GoodChoice(v, p) && p.inputs0 == [f] && p.inputs1 == [] && CompactionEdit(p, [f], e)
    ensures Proper(v, issued, e)
  {
    assert f in p.inputs0;
    assert f in v[p.level];
    assert Moves(v, e, p.level + 1, f);
  }

  function Used(e: Edit): set<nat> {
    set i | 0 <= i < |e.newFiles| :: e.newFiles[i].1.number
  }

  /** The next version, level by level. */
  ghost predicate Becomes(v: Levels, e: Edit, v': Levels) {
    && |v| == |v'| == NUM_LEVELS
    && forall l {:trigger LevelBecomes(v, e, v', l)} :: 0 <= l < NUM_LEVELS ==> LevelBecomes(v, e, v', l)
  }

  ghost predicate LevelBecomes(v: Levels, e: Edit, v': Levels, l: nat)
    requires l < |v| && l < |v'|
  {
    Manifest.LiveStep(v[l], e, l, v'[l])
  }

  /** A number occurs once among the additions. */
  lemma OneEntry(v: Levels, issued: set<nat>, e: Edit, l: nat, m: nat, f: File, g: File)
    requires Proper(v, issued, e) && (l, f) in e.newFiles && (m, g) in e.newFiles && f.number == g.number
    ensures l == m && f == g
  {
    var i :| 0 <= i < |e.newFiles| && e.newFiles[i] == (l, f);
    var j :| 0 <= j < |e.newFiles| && e.newFiles[j] == (m, g);
  }

  lemma AddedHere(v: Levels, issued: set<nat>, e: Edit, l: nat, f: File)
    requires Proper(v, issued, e)
    ensures f in AddedAfter([], e, l) <==> (l, f) in e.newFiles
    ensures (l, f) in e.newFiles ==> f.number in Used(e) && (f.number in issued || Moves(v, e, l, f))
  {
    forall g, h | (l, g) in e.newFiles && (l, h) in e.newFiles && SameKey(g, h) ensures g == h {
      OneEntry(v, issued, e, l, l, g, h);
    }
    AddToHas([], e.newFiles, l, |e.newFiles|);
    assert e.newFiles[..|e.newFiles|] == e.newFiles;
    if (l, f) in e.newFiles {
      var i :| 0 <= i < |e.newFiles| && e.newFiles[i] == (l, f);
    }
  }

  /** The files of the next version are those kept and those added. */
  lemma InNext(v: Levels, issued: set<nat>, e: Edit, v': Levels, l: nat, f: File)
    requires Becomes(v, e, v') && Proper(v, issued, e) && l < NUM_LEVELS
    ensures f in v'[l] ==> (l, f) in e.newFiles || (f in v[l] && f.number !in DeletedAfter({}, e, l))
  {
    assert LevelBecomes(v, e, v', l);
    AddedHere(v, issued, e, l, f);
  }

  /** What is known afterwards was known before, or has a number that was handed out. */
  lemma KnownNext(es: seq<Edit>, v: Levels, issued: set<nat>, next: nat, e: Edit, v': Levels, f: File)
    requires Numbering(es, v, issued, next) && Proper(v, issued, e) && Becomes(v, e, v') && Known(es + [e], v', f)
    ensures Known(es, v, f) || (f.number in issued && f.number in Used(e) && exists l: nat :: (l, f) in e.newFiles)
  {
    if l: nat, i: nat :| Adds(es + [e], l, i, f) {
      if i < |es| {
        assert Adds(es, l, i, f);
      } else {
        AddedHere(v, issued, e, l, f);
      }
    } else {
      var l :| 0 <= l < |v'| && f in v'[l];
      InNext(v, issued, e, v', l, f);
      AddedHere(v, issued, e, l, f);
    }
  }

  lemma SameNumber(es: seq<Edit>, v: Levels, issued: set<nat>, next: nat, e: Edit, v': Levels, f: File, g: File)
    requires Numbering(es, v, issued, next) && Proper(v, issued, e) && Becomes(v, e, v')
    requires Known(es + [e], v', f) && Known(es + [e], v', g) && f.number == g.number
    ensures f == g
  {
    KnownNext(es, v, issued, next, e, v', f);
    KnownNext(es, v, issued, next, e, v', g);
    if f.number in issued {
      var l: nat :| (l, f) in e.newFiles;
      var m: nat :| (m, g) in e.newFiles;
      OneEntry(v, issued, e, l, m, f, g);
    }
  }

  /** An added file leaves the level that it was in. */
  lemma AddedIsMoved(es: seq<Edit>, v: Levels, issued: set<nat>, next: nat, e: Edit, l: nat, m: nat, f: File)
    requires Numbering(es, v, issued, next) && Proper(v, issued, e) && (l, f) in e.newFiles && m < |v| && f in v[m]
    ensures f.number in DeletedAfter({}, e, m)
  {
    AddedHere(v, issued, e, l, f);
    assert Known(es, v, f);
    var k :| 0 <= k < |v| && k != l && f in v[k] && (k, f.number) in e.deletedFiles;
    assert f.number in DeletedNumbers(e.deletedFiles, m);
    forall i | 0 <= i < |e.newFiles| && e.newFiles[i].1.number == f.number ensures e.newFiles[i].0 != m {
      OneEntry(v, issued, e, l, e.newFiles[i].0, f, e.newFiles[i].1);
    }
  }

  lemma OneHomeNext(es: seq<Edit>, v: Levels, issued: set<nat>, next: nat, e: Edit, v': Levels)
    requires Numbering(es, v, issued, next) && Proper(v, issued, e) && Becomes(v, e, v')
    ensures OneHome(v')
  {
    forall l, m, f, g | 0 <= l < |v'| && 0 <= m < |v'| && f in v'[l] && g in v'[m] && f.number == g.number ensures l == m && f == g {
      assert Known(es + [e], v', f) && Known(es + [e], v', g);
      SameNumber(es, v, issued, next, e, v', f, g);
      InNext(v, issued, e, v', l, f);
      InNext(v, issued, e, v', m, f);
      if (l, f) in e.newFiles && (m, f) in e.newFiles {
        OneEntry(v, issued, e, l, m, f, f);
      } else if (l, f) in e.newFiles {
        AddedIsMoved(es, v, issued, next, e, l, m, f);
      } else if (m, f) in e.newFiles {
        AddedIsMoved(es, v, issued, next, e, m, l, f);
      }
    }
  }

  /** An edit that uses numbers as it should keeps them in order. */
  lemma NumberingKept(es: seq<Edit>, v: Levels, issued: set<nat>, next: nat, e: Edit, v': Levels)
    requires Numbering(es, v, issued, next) && Proper(v, issued, e) && Becomes(v, e, v')
    ensures Numbering(es + [e], v', issued - Used(e), next)
  {
    OneHomeNext(es, v, issued, next, e, v');
    forall f | Known(es + [e], v', f) ensures f.number < next && f.number !in issued - Used(e) {
      KnownNext(es, v, issued, next, e, v', f);
    }
    forall f, g | Known(es + [e], v', f) && Known(es + [e], v', g) && f.number == g.number ensures f == g {
      SameNumber(es, v, issued, next, e, v', f, g);
    }
  }

  /** One more number is handed out, */
  lemma NumberIssued(es: seq<Edit>, v: Levels, issued: set<nat>, next: nat)
    requires Numbering(es, v, issued, next)
    ensures Numbering(es, v, issued + {next}, next + 1)
  {}

  /** or the last one is given back, */
  lemma NumberReturned(es: seq<Edit>, v: Levels, issued: set<nat>, next: nat, n: nat)
    requires Numbering(es, v, issued, next) && n in issued
    ensures Numbering(es, v, issued - {n}, if next == n + 1 then n else next)
  {}

  /** or some are passed over. */
  lemma NumbersPassed(es: seq<Edit>, v: Levels, issued: set<nat>, next: nat, next': nat)
    requires Numbering(es, v, issued, next) && next <= next'
    ensures Numbering(es, v, issued, next')
  {}

  /** No file is added under the key of one that is there. */
  lemma ProperIsApart(es: seq<Edit>, v: Levels, issued: set<nat>, next: nat, e: Edit, l: nat)
    requires Numbering(es, v, issued, next) && Proper(v, issued, e) && l < |v|
    ensures Apart(v[l], AddedAfter([], e, l))
  {
    forall f, g | f in v[l] && g in AddedAfter([], e, l) ensures !SameKey(f, g) {
      AddedHere(v, issued, e, l, g);
      assert Known(es, v, f);
    }
  }

  /** The first edit of a manifest adds the files of the version. */
  lemma SnapshotNumbering(e: Edit, v: Levels, issued: set<nat>, next: nat)
    requires Numbering([], v, issued, next) && forall x :: x in e.newFiles ==> x.0 < |v| && x.1 in v[x.0]
    ensures Numbering([e], v, issued, next)
  {
    forall f | Known([e], v, f) ensures Known([], v, f) {
      if l: nat, i: nat :| Adds([e], l, i, f) {
        assert (l, f) in e.newFiles;
      }
    }
  }

  /** Then no file comes back when the edits are replayed. */
  lemma NumberedReplays(es: seq<Edit>, v: Levels, issued: set<nat>, next: nat, l: nat, n: nat)
    requires Numbering(es, v, issued, next) && n <= |es|
    ensures SameNamed(es, l) && forall f :: !ComesBack(es, l, n, f)
  {
    forall i, j, g, h {:trigger Adds(es, l, i, g), Adds(es, l, j, h)} | Adds(es, l, i, g) && Adds(es, l, j, h) && g.number == h.number ensures g == h {
      assert Known(es, v, g) && Known(es, v, h);
    }
    forall f ensures !ComesBack(es, l, n, f) {
      OneFileForANumber(es, l, n, f);
    }
  }
}
