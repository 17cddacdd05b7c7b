/** The version set and its manifest (VersionSet in db/version_set.cc): LogAndApply writes
    every change to a log file, and Recover rebuilds files, compaction pointers and counters
    from the bytes of that file, wherever a crash has cut it off. */
module VersionSets {
  import opened Keys
  import opened Version
  import opened Builder
  import opened TableBlocks
  import opened LogFormat
  import opened LogRoundTrip
  import opened ManifestExact
  import opened FileNumbers
  import E = VersionEdits

  /** The entries of the table file with a number. */
  type Disk = nat -> seq<Entry>

  // ------------------------------------------------------- files in an edit

  function MetaOf(put: TagWriter, f: File): E.FileMetaData {
    E.FileMetaData(f.number, f.size, EncodeKey(put, f.smallest), EncodeKey(put, f.largest))
  }

  function KeyOf(b: seq<byte>): IKey {
    var k := ParseKey(b);
    if k.Some? then k.value else IKey([], 0, Deletion)
  }

  function FileOf(disk: Disk, m: E.FileMetaData): File {
    File(m.number, m.fileSize, KeyOf(m.smallest), KeyOf(m.largest), disk(m.number))
  }

  ghost predicate Storable(disk: Disk, f: File) {
    KeyFits(f.smallest) && KeyFits(f.largest) && f.number < Coding.UINT64 && f.size < Coding.UINT64 && disk(f.number) == f.entries
  }

  lemma FileRoundTrip(put: TagWriter, disk: Disk, f: File)
    requires Exact(put) && Storable(disk, f)
    ensures FileOf(disk, MetaOf(put, f)) == f
    ensures |EncodeKey(put, f.smallest)| < Coding.UINT32 && |EncodeKey(put, f.largest)| < Coding.UINT32
  {
    KeyRoundTrip(put, f.smallest);
    KeyRoundTrip(put, f.largest);
  }

  function FilesOf(disk: Disk, fs: seq<(nat, E.FileMetaData)>): (r: seq<(nat, File)>)
    ensures |r| == |fs| && forall i {:trigger r[i]} :: 0 <= i < |fs| ==> r[i] == (fs[i].0, FileOf(disk, fs[i].1))
  {
    if fs == [] then [] else FilesOf(disk, fs[..|fs| - 1]) + [(fs[|fs| - 1].0, FileOf(disk, fs[|fs| - 1].1))]
  }

  function PairSet(ps: seq<(nat, nat)>): set<(nat, nat)> {
    set p | p in ps
  }

  /** What an edit says about files. */
  function FileEdit(disk: Disk, e: E.Edit): Edit {
    Edit(PairSet(e.deletedFiles), FilesOf(disk, e.newFiles))
  }

  ghost function FileEdits(disk: Disk, es: seq<E.Edit>): (r: seq<Edit>)
    ensures |r| == |es| && forall i {:trigger r[i]} :: 0 <= i < |es| ==> r[i] == FileEdit(disk, es[i])
  {
    if es == [] then [] else FileEdits(disk, es[..|es| - 1]) + [FileEdit(disk, es[|es| - 1])]
  }

  /** Every level that the edit names exists. */
  ghost predicate LevelsExist(e: E.Edit) {
    && InRange(e.compactPointers, NUM_LEVELS)
    && (forall i :: 0 <= i < |e.deletedFiles| ==> e.deletedFiles[i].0 < NUM_LEVELS)
    && (forall i :: 0 <= i < |e.newFiles| ==> e.newFiles[i].0 < NUM_LEVELS)
  }

  lemma ExistingIsGood(disk: Disk, e: E.Edit)
    requires LevelsExist(e)
    ensures GoodEdit(FileEdit(disk, e))
  {
    forall d | d in PairSet(e.deletedFiles) ensures d.0 < NUM_LEVELS {
      var i :| 0 <= i < |e.deletedFiles| && e.deletedFiles[i] == d;
    }
  }

  ghost predicate AllLevelsOk(rs: seq<E.Record>) {
    forall i :: 0 <= i < |rs| ==> E.LevelOk(rs[i])
  }

  lemma AllOfFour(s: seq<E.Record>, p: seq<E.Record>, d: seq<E.Record>, a: seq<E.Record>)
    ensures AllLevelsOk(s + p + d + a) <==> AllLevelsOk(s) && AllLevelsOk(p) && AllLevelsOk(d) && AllLevelsOk(a)
  {
    AllOfTwo(s + p + d, a);
    AllOfTwo(s + p, d);
    AllOfTwo(s, p);
  }

  lemma AllOfTwo(p: seq<E.Record>, q: seq<E.Record>)
    ensures AllLevelsOk(p + q) <==> AllLevelsOk(p) && AllLevelsOk(q)
  {
    if AllLevelsOk(p + q) {
      forall i | 0 <= i < |p| ensures E.LevelOk(p[i]) {
        assert E.LevelOk((p + q)[i]);
      }
      forall i | 0 <= i < |q| ensures E.LevelOk(q[i]) {
        assert E.LevelOk((p + q)[|p| + i]);
      }
    }
  }

  lemma RecordLevels(e: E.Edit)
    ensures LevelsExist(e) <==> AllLevelsOk(E.Records(e))
  {
    E.RecordAt(e.compactPointers, e.deletedFiles, e.newFiles);
    ScalarLevels(e);
    AllOfFour(E.Scalars(e), E.PointerRecords(e.compactPointers), E.DeletedRecords(e.deletedFiles), E.AddedRecords(e.newFiles));
    ListLevels(e);
  }

  lemma ScalarLevels(e: E.Edit)
    ensures AllLevelsOk(E.Scalars(e))
  {
    forall r | r in E.Scalars(e) ensures E.LevelOk(r) {}
  }

  lemma ListLevels(e: E.Edit)
    ensures LevelsExist(e) <==>
              && AllLevelsOk(E.PointerRecords(e.compactPointers)) && AllLevelsOk(E.DeletedRecords(e.deletedFiles))
              && AllLevelsOk(E.AddedRecords(e.newFiles))
  {
    E.RecordAt(e.compactPointers, e.deletedFiles, e.newFiles);
  }

  // ---------------------------------------------- pointers and counters in edits

  /** compact_pointer_ after the pointers of an edit; "" is no pointer. */
  function Pointed(ps: seq<seq<byte>>, es: seq<(nat, seq<byte>)>): (r: seq<seq<byte>>)
    requires InRange(es, |ps|)
    ensures |r| == |ps|
  {
    if es == [] then ps else Pointed(ps, es[..|es| - 1])[es[|es| - 1].0 := es[|es| - 1].1]
  }

  predicate InRange(es: seq<(nat, seq<byte>)>, levels: nat) {
    forall i :: 0 <= i < |es| ==> es[i].0 < levels
  }

  const NO_POINTERS: seq<seq<byte>> := [[], [], [], [], [], [], []]

  ghost predicate AllExist(es: seq<E.Edit>) {
    forall k {:trigger LevelsExist(es[k])} :: 0 <= k < |es| ==> LevelsExist(es[k])
  }

  ghost function PointersAfter(es: seq<E.Edit>, n: nat): (r: seq<seq<byte>>)
    requires n <= |es| && AllExist(es)
    ensures |r| == NUM_LEVELS
  {
    if n == 0 then NO_POINTERS
    else
      assert LevelsExist(es[n - 1]);
      Pointed(PointersAfter(es, n - 1), es[n - 1].compactPointers)
  }

  /** The counters that edits carry. */
  datatype Counters = Counters(log: Option<nat>, prevLog: Option<nat>, nextFile: Option<nat>, lastSequence: Option<nat>)

  function Latest(new': Option<nat>, old': Option<nat>): Option<nat> {
    if new'.Some? then new' else old'
  }

  function Counted(c: Counters, e: E.Edit): Counters {
    Counters(Latest(e.logNumber, c.log), Latest(e.prevLogNumber, c.prevLog), Latest(e.nextFileNumber, c.nextFile), Latest(e.lastSequence, c.lastSequence))
  }

  ghost function CountersAfter(es: seq<E.Edit>, n: nat): Counters
    requires n <= |es|
  {
    if n == 0 then Counters(None, None, None, None) else Counted(CountersAfter(es, n - 1), es[n - 1])
  }

  /** The records of a manifest. */
  function RecordsOf(es: seq<E.Edit>): (r: seq<seq<byte>>)
    ensures |r| == |es| && forall i {:trigger r[i]} :: 0 <= i < |es| ==> r[i] == E.AllBytes(E.Records(es[i]))
  {
    if es == [] then [] else RecordsOf(es[..|es| - 1]) + [E.AllBytes(E.Records(es[|es| - 1]))]
  }

  lemma RecordsMore(es: seq<E.Edit>, e: E.Edit)
    ensures RecordsOf(es + [e]) == RecordsOf(es) + [E.AllBytes(E.Records(e))]
  {
    assert (es + [e])[..|es|] == es;
  }

  /** Edits as LogAndApply writes them. */
  ghost predicate Writable(name: seq<byte>, e: E.Edit) {
    E.EditFits(e) && LevelsExist(e) && (e.comparator.Some? ==> e.comparator.value == name)
  }

  ghost predicate AllWritable(name: seq<byte>, es: seq<E.Edit>) {
    forall k {:trigger Writable(name, es[k])} :: 0 <= k < |es| ==> Writable(name, es[k])
  }

  // ------------------------------------------------------------------- recovery

  /** What Recover sets. */
  datatype Recovered = Recovered(
    files: Levels, compactPointer: seq<seq<byte>>, logNumber: nat, prevLogNumber: nat,
    manifestFileNumber: nat, nextFileNumber: nat, lastSequence: nat)

  const EMPTY: Levels := [[], [], [], [], [], [], []]

  /** Files, pointers and counters are those after the first n edits. */
  ghost predicate FromEdits(disk: Disk, es: seq<E.Edit>, n: nat, r: Recovered)
    requires n <= |es| && AllExist(es)
  {
    var c, fes := CountersAfter(es, n), FileEdits(disk, es);
    && c.log == Some(r.logNumber) && r.prevLogNumber == (if c.prevLog.Some? then c.prevLog.value else 0)
    && c.nextFile == Some(r.manifestFileNumber) && r.nextFileNumber == r.manifestFileNumber + 1 && c.lastSequence == Some(r.lastSequence)
    && r.compactPointer == PointersAfter(es, n) && |r.files| == NUM_LEVELS
    && forall l :: 0 <= l < NUM_LEVELS ==> Saved([], Manifest.AddedN(fes, n, l), Manifest.DeletedN(fes, n, l), r.files[l])
  }

  ghost predicate Complete(c: Counters) {
    c.log.Some? && c.nextFile.Some? && c.lastSequence.Some?
  }

  /** Builder::Apply as far as it concerns the version set. */
  method ApplyPointers(pointers: seq<seq<byte>>, ps: seq<(nat, seq<byte>)>) returns (r: seq<seq<byte>>)
    requires InRange(ps, |pointers|)
    ensures r == Pointed(pointers, ps)
  {
    r := pointers;
    for i := 0 to |ps|
      invariant r == Pointed(pointers, ps[..i])
    {
      assert ps[..i + 1][..i] == ps[..i];
      r := r[ps[i].0 := ps[i].1];
    }
    assert ps[..|ps|] == ps;
  }

  /** What has been taken over from the first n edits. */
  ghost predicate Replayed(disk: Disk, es: seq<E.Edit>, n: nat, builder: Builder, pointers: seq<seq<byte>>, c: Counters)
    requires n <= |es| && AllExist(es)
    reads builder
  {
    ReplayedFiles(FileEdits(disk, es), n, builder) && pointers == PointersAfter(es, n) && c == CountersAfter(es, n)
  }

  /** What the builder has been given. */
  ghost predicate ReplayedFiles(fes: seq<Edit>, n: nat, builder: Builder)
    requires n <= |fes|
    reads builder
  {
    && builder.Valid() && builder.base == EMPTY
    && forall l :: 0 <= l < NUM_LEVELS ==> builder.added[l] == Manifest.AddedN(fes, n, l) && builder.deleted[l] == Manifest.DeletedN(fes, n, l)
  }

  /** Builder::Apply as far as it concerns files. */
  method ApplyFiles(builder: Builder, e: Edit, ghost fes: seq<Edit>, ghost n: nat)
    requires n < |fes| && fes[n] == e && GoodEdit(e) && ReplayedFiles(fes, n, builder)
    modifies builder
    ensures ReplayedFiles(fes, n + 1, builder)
  {
    builder.Apply(e);
  }

  /** VersionEdit::DecodeFrom on a new edit. */
  method DecodeEdit(record: seq<byte>, ghost e: E.Edit) returns (ok: bool, e': E.Edit)
    ensures record == E.AllBytes(E.Records(e)) && E.EditFits(e) && LevelsExist(e) ==> ok && e' == e
  {
    var edit := new E.VersionEdit();
    ok := edit.DecodeFrom(record, E.Records(e));
    e' := E.Edit(edit.comparator, edit.logNumber, edit.prevLogNumber, edit.nextFileNumber, edit.lastSequence, edit.compactPointers, edit.deletedFiles, edit.newFiles);
    if record == E.AllBytes(E.Records(e)) && E.EditFits(e) && LevelsExist(e) {
      RecordLevels(e);
      E.RecordsMakeTheEdit(E.FRESH, e);
      assert E.FRESH.compactPointers + e.compactPointers == e.compactPointers;
    }
  }

  lemma NextReplayed(disk: Disk, es: seq<E.Edit>, n: nat, pointers: seq<seq<byte>>, c: Counters)
    requires AllExist(es) && n < |es| && pointers == PointersAfter(es, n) && c == CountersAfter(es, n)
    ensures LevelsExist(es[n]) && Counted(c, es[n]) == CountersAfter(es, n + 1)
    ensures Pointed(pointers, es[n].compactPointers) == PointersAfter(es, n + 1)
    ensures FileEdits(disk, es)[n] == FileEdit(disk, es[n]) && GoodEdit(FileEdit(disk, es[n]))
  {
    assert LevelsExist(es[n]);
    ExistingIsGood(disk, es[n]);
  }

  /** One record of the manifest. */
  method ReplayRecord(name: seq<byte>, disk: Disk, record: seq<byte>, builder: Builder, pointers: seq<seq<byte>>, c: Counters, ghost es: seq<E.Edit>, ghost n: nat)
    returns (ok: bool, pointers': seq<seq<byte>>, c': Counters)
    requires AllWritable(name, es) && AllExist(es) && n < |es| && record == RecordsOf(es)[n] && Replayed(disk, es, n, builder, pointers, c)
    modifies builder
    ensures ok && Replayed(disk, es, n + 1, builder, pointers', c')
  {
    assert Writable(name, es[n]);
    NextReplayed(disk, es, n, pointers, c);
    var e;
    ok, e := DecodeEdit(record, es[n]);
    ok := ok && (e.comparator.Some? ==> e.comparator.value == name);
    pointers' := pointers;
    if ok {
      ApplyFiles(builder, FileEdit(disk, e), FileEdits(disk, es), n);
      pointers' := ApplyPointers(pointers, e.compactPointers);
    }
    c' := Counted(c, e);
  }

  /** Of a manifest with this many bytes left, the first n records are whole. */
  ghost predicate Whole(crc: Crc, es: seq<E.Edit>, length: nat, n: nat) {
    n <= |es| && |Log(crc, RecordsOf(es)[..n])| <= length && (n < |es| ==> length < |Log(crc, RecordsOf(es)[..n + 1])|)
  }

  /** VersionSet::Recover, on a manifest that may be cut off anywhere: it takes over exactly
      the edits whose records are whole, and fails exactly if these leave a counter open. */
  method Recover(crc: Crc, name: seq<byte>, disk: Disk, file: seq<byte>, ghost es: seq<E.Edit>) returns (r: Option<Recovered>)
    requires AllWritable(name, es) && AllExist(es) && file <= Log(crc, RecordsOf(es))
    ensures exists n: nat :: Whole(crc, es, |file|, n)
              && (r.Some? <==> Complete(CountersAfter(es, n))) && (r.Some? ==> FromEdits(disk, es, n, r.value))
  {
    var records, reported := ReadLog(crc, true, file, RecordsOf(es));
    ghost var n := |records|;
    assert records == RecordsOf(es)[..n];
    assert Whole(crc, es, |file|, n);
    r := None;
    if reported == 0 {
      var builder, ok, pointers, c := ReplayAll(name, disk, records, es);
      if ok {
        r := FinishRecovery(disk, builder, pointers, c, es, n);
      }
    }
  }

  method StartReplay(disk: Disk, ghost es: seq<E.Edit>) returns (builder: Builder)
    requires AllExist(es)
    ensures fresh(builder) && Replayed(disk, es, 0, builder, NO_POINTERS, Counters(None, None, None, None))
  {
    assert forall l :: 0 <= l < NUM_LEVELS ==> EMPTY[l] == [];
    builder := new Builder(EMPTY);
  }

  method ReplayAll(name: seq<byte>, disk: Disk, records: seq<seq<byte>>, ghost es: seq<E.Edit>)
    returns (builder: Builder, ok: bool, pointers: seq<seq<byte>>, c: Counters)
    requires AllWritable(name, es) && AllExist(es) && records <= RecordsOf(es)
    ensures fresh(builder) && ok && Replayed(disk, es, |records|, builder, pointers, c)
  {
    builder := StartReplay(disk, es);
    pointers, c, ok := NO_POINTERS, Counters(None, None, None, None), true;
    var i := 0;
    while i < |records| && ok
      invariant fresh(builder) && ok && i <= |records| && Replayed(disk, es, i, builder, pointers, c)
    {
      ok, pointers, c := ReplayRecord(name, disk, records[i], builder, pointers, c, es, i);
      i := i + 1;
    }
  }

  /** The recovered version is installed unless a counter is missing. */
  method FinishRecovery(disk: Disk, builder: Builder, pointers: seq<seq<byte>>, c: Counters, ghost es: seq<E.Edit>, ghost n: nat) returns (r: Option<Recovered>)
    requires AllExist(es) && n <= |es| && Replayed(disk, es, n, builder, pointers, c)
    ensures r.Some? <==> Complete(CountersAfter(es, n))
    ensures r.Some? ==> FromEdits(disk, es, n, r.value)
  {
    r := None;
    if c.nextFile.Some? && c.log.Some? && c.lastSequence.Some? {
      var files := builder.SaveTo();
      var prevLog := if c.prevLog.Some? then c.prevLog.value else 0;
      r := Some(Recovered(files, pointers, c.log.value, prevLog, c.nextFile.value, c.nextFile.value + 1, c.lastSequence.value));
    }
  }

  // ---------------------------------------------------------------- live versions

  ghost predicate LiveAt(disk: Disk, es: seq<E.Edit>, versions: seq<Levels>, k: nat, l: nat)
    requires k < |es| && |versions| == |es| + 1 && l < |versions[k]| && l < |versions[k + 1]|
  {
    Manifest.LiveStep(versions[k][l], FileEdit(disk, es[k]), l, versions[k + 1][l])
  }

  /** The version before and after every edit of the manifest. */
  ghost predicate Lived(disk: Disk, es: seq<E.Edit>, versions: seq<Levels>) {
    && |versions| == |es| + 1 && versions[0] == EMPTY
    && (forall k {:trigger versions[k]} :: 0 <= k < |versions| ==> |versions[k]| == NUM_LEVELS && forall l :: 0 <= l < NUM_LEVELS ==> InOrder(versions[k][l]))
    && forall k, l {:trigger LiveAt(disk, es, versions, k, l)} :: 0 <= k < |es| && 0 <= l < NUM_LEVELS ==> LiveAt(disk, es, versions, k, l)
  }

  lemma LivedMore(disk: Disk, es: seq<E.Edit>, versions: seq<Levels>, e: E.Edit, v: Levels)
    requires Lived(disk, es, versions) && |v| == NUM_LEVELS && forall l :: 0 <= l < NUM_LEVELS ==> InOrder(v[l])
    requires forall l :: 0 <= l < NUM_LEVELS ==> Manifest.LiveStep(versions[|es|][l], FileEdit(disk, e), l, v[l])
    ensures Lived(disk, es + [e], versions + [v])
  {
    forall k: nat, l: nat | k < |es| + 1 && l < NUM_LEVELS ensures LiveAt(disk, es + [e], versions + [v], k, l) {
      assert k < |es| ==> LiveAt(disk, es, versions, k, l);
    }
  }

  ghost function LevelOf(versions: seq<Levels>, l: nat): (r: seq<seq<File>>)
    requires forall k :: 0 <= k < |versions| ==> l < |versions[k]|
    ensures |r| == |versions| && forall k {:trigger r[k]} :: 0 <= k < |versions| ==> r[k] == versions[k][l]
  {
    if versions == [] then [] else LevelOf(versions[..|versions| - 1], l) + [versions[|versions| - 1][l]]
  }

  lemma LivedIsHistory(disk: Disk, es: seq<E.Edit>, versions: seq<Levels>, l: nat)
    requires Lived(disk, es, versions) && l < NUM_LEVELS
    ensures Manifest.History(LevelOf(versions, l), FileEdits(disk, es), l) && LevelOf(versions, l)[0] == []
  {
    forall k | 0 <= k < |es| ensures Manifest.Stepped(LevelOf(versions, l), FileEdits(disk, es), l, k) {
      assert LiveAt(disk, es, versions, k, l);
    }
  }

  /** Recovered files are those of the live version after the last whole record, level by
      level, if and only if no file comes back under a number used twice. */
  lemma RecoveredIsLive(disk: Disk, es: seq<E.Edit>, versions: seq<Levels>, n: nat, r: Recovered, l: nat)
    requires AllExist(es) && Lived(disk, es, versions) && n <= |es| && FromEdits(disk, es, n, r)
    requires l < NUM_LEVELS && SameNamed(FileEdits(disk, es), l)
    ensures r.files[l] == versions[n][l] <==> forall f :: !ComesBack(FileEdits(disk, es), l, n, f)
  {
    LivedIsHistory(disk, es, versions, l);
    SavedLevel(disk, es, n, r, l);
    var vs, fes := LevelOf(versions, l), FileEdits(disk, es);
    assert vs[n] == versions[n][l] && InOrder(versions[n][l]);
    ReplayIsExactly(vs, fes, l, n, r.files[l]);
  }

  lemma SavedLevel(disk: Disk, es: seq<E.Edit>, n: nat, r: Recovered, l: nat)
    requires AllExist(es) && n <= |es| && FromEdits(disk, es, n, r) && l < NUM_LEVELS
    ensures var fes := FileEdits(disk, es); Saved([], Manifest.AddedN(fes, n, l), Manifest.DeletedN(fes, n, l), r.files[l])
  {}

  // --------------------------------------------------------- compaction pointers

  ghost predicate Names(es: seq<(nat, seq<byte>)>, i: nat) {
    exists j :: 0 <= j < |es| && es[j].0 == i
  }

  /** The last pointer of the list for a level is what counts. */
  lemma {:induction false} PointedSame(a: seq<seq<byte>>, b: seq<seq<byte>>, es: seq<(nat, seq<byte>)>, i: nat)
    requires |a| == |b| && i < |a| && InRange(es, |a|)
    ensures a[i] == b[i] || Names(es, i) ==> Pointed(a, es)[i] == Pointed(b, es)[i]
    ensures !Names(es, i) ==> Pointed(a, es)[i] == a[i]
  {
    if es != [] {
      var front := es[..|es| - 1];
      PointedSame(a, b, front, i);
      assert Names(es, i) <==> Names(front, i) || es[|es| - 1].0 == i by {
        assert forall j :: 0 <= j < |front| ==> front[j] == es[j];
      }
    }
  }

  /** Applying an edit's pointers a second time changes nothing. */
  lemma PointedTwice(a: seq<seq<byte>>, es: seq<(nat, seq<byte>)>)
    requires InRange(es, |a|)
    ensures Pointed(Pointed(a, es), es) == Pointed(a, es)
  {
    var b := Pointed(a, es);
    forall i | 0 <= i < |a| ensures Pointed(b, es)[i] == b[i] {
      PointedSame(b, a, es, i);
    }
  }

  /** The pointers of the first n levels, where there are any. */
  function PointerList(ps: seq<seq<byte>>, n: nat): (r: seq<(nat, seq<byte>)>)
    requires n <= |ps|
    ensures InRange(r, |ps|) && forall i :: 0 <= i < |r| ==> r[i].1 == ps[r[i].0]
  {
    if n == 0 then []
    else if ps[n - 1] != [] then PointerList(ps, n - 1) + [(n - 1, ps[n - 1])]
    else PointerList(ps, n - 1)
  }

  lemma OneMorePointer(none: seq<seq<byte>>, a: seq<(nat, seq<byte>)>, x: (nat, seq<byte>))
    requires InRange(a, |none|) && x.0 < |none|
    ensures InRange(a + [x], |none|) && Pointed(none, a + [x]) == Pointed(none, a)[x.0 := x.1]
  {
    assert (a + [x])[..|a|] == a;
  }

  lemma Spliced(none: seq<seq<byte>>, ps: seq<seq<byte>>, n: nat)
    requires |none| == |ps| && 0 < n <= |ps|
    ensures ps[..n] + none[n..] == (ps[..n - 1] + none[n - 1..])[n - 1 := ps[n - 1]]
    ensures ps[n - 1] == none[n - 1] ==> ps[..n] + none[n..] == ps[..n - 1] + none[n - 1..]
  {}

  lemma OneRestored(none: seq<seq<byte>>, ps: seq<seq<byte>>, n: nat, a: seq<(nat, seq<byte>)>, b: seq<(nat, seq<byte>)>)
    requires |none| == |ps| && 0 < n <= |ps| && none[n - 1] == []
    requires InRange(a, |none|) && InRange(b, |none|) && b == if ps[n - 1] != [] then a + [(n - 1, ps[n - 1])] else a
    requires Pointed(none, a) == ps[..n - 1] + none[n - 1..]
    ensures Pointed(none, b) == ps[..n] + none[n..]
  {
    Spliced(none, ps, n);
    if ps[n - 1] != [] {
      OneMorePointer(none, a, (n - 1, ps[n - 1]));
    }
  }

  /** The pointers of a snapshot record restore all pointers. */
  lemma {:induction false} PointersRestored(none: seq<seq<byte>>, ps: seq<seq<byte>>, n: nat)
    requires |none| == |ps| && n <= |ps| && forall i :: 0 <= i < |none| ==> none[i] == []
    ensures Pointed(none, PointerList(ps, n)) == ps[..n] + none[n..]
  {
    if n > 0 {
      PointersRestored(none, ps, n - 1);
      OneRestored(none, ps, n, PointerList(ps, n - 1), PointerList(ps, n));
    }
  }

  // ------------------------------------------------------------------- snapshot

  function MetasOf(put: TagWriter, fs: seq<(nat, File)>): (r: seq<(nat, E.FileMetaData)>)
    ensures |r| == |fs| && forall i {:trigger r[i]} :: 0 <= i < |fs| ==> r[i] == (fs[i].0, MetaOf(put, fs[i].1))
  {
    if fs == [] then [] else MetasOf(put, fs[..|fs| - 1]) + [(fs[|fs| - 1].0, MetaOf(put, fs[|fs| - 1].1))]
  }

  /** What WriteSnapshot needs of the version and the pointers, and has. */
  ghost predicate Snapshotable(disk: Disk, name: seq<byte>, ps: seq<seq<byte>>, v: Levels) {
    && |v| == NUM_LEVELS && |ps| == NUM_LEVELS && DistinctNumbers(v) && |name| < Coding.UINT32
    && (forall l :: 0 <= l < NUM_LEVELS ==> InOrder(v[l]))
    && (forall l, f {:trigger f in v[l]} :: 0 <= l < NUM_LEVELS && f in v[l] ==> Storable(disk, f))
    && forall i :: 0 <= i < NUM_LEVELS ==> |ps[i]| < Coding.UINT32
  }

  /** Every file of the version, with its level. */
  ghost function AllFiles(v: Levels): seq<(nat, File)> {
    Manifest.SnapshotTo(v, |v|)
  }

  ghost function Snapshot(put: TagWriter, name: seq<byte>, ps: seq<seq<byte>>, v: Levels): E.Edit {
    E.Edit(Some(name), None, None, None, None, PointerList(ps, |ps|), [], MetasOf(put, AllFiles(v)))
  }

  lemma SnapshotFiles(v: Levels, x: (nat, File))
    requires |v| == NUM_LEVELS && x in AllFiles(v)
    ensures x.0 < NUM_LEVELS && x.1 in v[x.0]
  {
    var news := AllFiles(v);
    var i :| 0 <= i < |news| && news[i] == x;
    Manifest.SnapshotMembers(v, |v|, 0);
    Manifest.SnapshotMembers(v, |v|, x.0);
    assert (x.0, x.1) in news;
  }

  lemma MetasRoundTrip(put: TagWriter, disk: Disk, news: seq<(nat, File)>)
    requires Exact(put) && forall i :: 0 <= i < |news| ==> Storable(disk, news[i].1)
    ensures FilesOf(disk, MetasOf(put, news)) == news
  {
    var metas := MetasOf(put, news);
    var r := FilesOf(disk, metas);
    forall i | 0 <= i < |news| ensures r[i] == news[i] {
      FileRoundTrip(put, disk, news[i].1);
      assert metas[i] == (news[i].0, MetaOf(put, news[i].1));
    }
  }

  lemma AllStorable(disk: Disk, name: seq<byte>, ps: seq<seq<byte>>, v: Levels)
    requires Snapshotable(disk, name, ps, v)
    ensures forall i {:trigger AllFiles(v)[i]} :: 0 <= i < |AllFiles(v)| ==> Storable(disk, AllFiles(v)[i].1) && AllFiles(v)[i].0 < NUM_LEVELS
  {
    var news := AllFiles(v);
    forall i {:trigger news[i]} | 0 <= i < |news| ensures Storable(disk, news[i].1) && news[i].0 < NUM_LEVELS {
      SnapshotFiles(v, news[i]);
    }
  }

  /** The record of a snapshot says what WriteSnapshot of the file lists says. */
  lemma SnapshotIsFiles(put: TagWriter, disk: Disk, name: seq<byte>, ps: seq<seq<byte>>, v: Levels)
    requires Exact(put) && Snapshotable(disk, name, ps, v)
    ensures FileEdit(disk, Snapshot(put, name, ps, v)) == Edit({}, AllFiles(v))
  {
    AllStorable(disk, name, ps, v);
    MetasRoundTrip(put, disk, AllFiles(v));
    assert PairSet([]) == {};
  }

  ghost predicate ListsFit(e: E.Edit) {
    && E.InOrder(e.deletedFiles)
    && (forall i :: 0 <= i < |e.compactPointers| ==> E.Fits(E.Pointer(e.compactPointers[i].0, e.compactPointers[i].1)))
    && (forall i :: 0 <= i < |e.deletedFiles| ==> E.Fits(E.Deleted(e.deletedFiles[i].0, e.deletedFiles[i].1)))
    && (forall i :: 0 <= i < |e.newFiles| ==> E.Fits(E.Added(e.newFiles[i].0, e.newFiles[i].1)))
  }

  ghost predicate ScalarsFit(e: E.Edit) {
    && (e.comparator.Some? ==> |e.comparator.value| < Coding.UINT32)
    && (e.logNumber.Some? ==> e.logNumber.value < Coding.UINT64) && (e.prevLogNumber.Some? ==> e.prevLogNumber.value < Coding.UINT64)
    && (e.nextFileNumber.Some? ==> e.nextFileNumber.value < Coding.UINT64) && (e.lastSequence.Some? ==> e.lastSequence.value < Coding.UINT64)
  }

  lemma ScalarRecordsFit(e: E.Edit)
    requires ScalarsFit(e)
    ensures forall r :: r in E.Scalars(e) ==> E.Fits(r)
  {}

  lemma PartsMakeFit(e: E.Edit)
    requires ListsFit(e) && ScalarsFit(e)
    ensures E.EditFits(e)
  {
    ScalarRecordsFit(e);
    E.RecordAt(e.compactPointers, e.deletedFiles, e.newFiles);
    var p, d, a := E.PointerRecords(e.compactPointers), E.DeletedRecords(e.deletedFiles), E.AddedRecords(e.newFiles);
    assert forall r :: r in p ==> E.Fits(r);
    assert forall r :: r in d ==> E.Fits(r);
    assert forall r :: r in a ==> E.Fits(r);
    forall i | 0 <= i < |E.Records(e)| ensures E.Fits(E.Records(e)[i]) {
      assert E.Records(e)[i] in E.Records(e);
    }
  }

  lemma SnapshotFits(put: TagWriter, disk: Disk, name: seq<byte>, ps: seq<seq<byte>>, v: Levels)
    requires Exact(put) && Snapshotable(disk, name, ps, v)
    ensures Writable(name, Snapshot(put, name, ps, v))
  {
    var e, news := Snapshot(put, name, ps, v), AllFiles(v);
    AllStorable(disk, name, ps, v);
    forall i | 0 <= i < |e.newFiles| ensures E.Fits(E.Added(e.newFiles[i].0, e.newFiles[i].1)) && e.newFiles[i].0 < NUM_LEVELS {
      FileRoundTrip(put, disk, news[i].1);
      assert e.newFiles[i] == (news[i].0, MetaOf(put, news[i].1));
    }
    PartsMakeFit(e);
  }

  lemma OneExists(e: E.Edit)
    requires LevelsExist(e)
    ensures AllExist([e])
    ensures PointersAfter([e], 1) == Pointed(NO_POINTERS, e.compactPointers)
  {
    assert PointersAfter([e], 0) == NO_POINTERS;
  }

  lemma OneLived(disk: Disk, e: E.Edit, v: Levels)
    requires |v| == NUM_LEVELS && forall l :: 0 <= l < NUM_LEVELS ==> InOrder(v[l])
    requires forall l :: 0 <= l < NUM_LEVELS ==> Manifest.LiveStep([], FileEdit(disk, e), l, v[l])
    ensures Lived(disk, [e], [EMPTY, v])
  {
    NothingLived(disk);
    LivedMore(disk, [], [EMPTY], e, v);
    assert [] + [e] == [e] && [EMPTY] + [v] == [EMPTY, v];
  }

  lemma NothingLived(disk: Disk)
    ensures Lived(disk, [], [EMPTY]) && forall l :: 0 <= l < NUM_LEVELS ==> EMPTY[l] == []
  {}

  /** A manifest that begins with a snapshot restores version and pointers. */
  lemma SnapshotLives(put: TagWriter, disk: Disk, name: seq<byte>, ps: seq<seq<byte>>, v: Levels)
    requires Exact(put) && Snapshotable(disk, name, ps, v)
    ensures var es := [Snapshot(put, name, ps, v)];
            AllExist(es) && Lived(disk, es, [EMPTY, v]) && PointersAfter(es, 1) == ps
  {
    var e := Snapshot(put, name, ps, v);
    SnapshotFits(put, disk, name, ps, v);
    SnapshotIsFiles(put, disk, name, ps, v);
    OneExists(e);
    forall l: nat | l < NUM_LEVELS ensures Manifest.LiveStep([], FileEdit(disk, e), l, v[l]) {
      Manifest.SnapshotRestores(v, l);
    }
    OneLived(disk, e, v);
    AllPointersRestored(ps);
  }

  lemma NonePoint()
    ensures |NO_POINTERS| == NUM_LEVELS && forall i :: 0 <= i < |NO_POINTERS| ==> NO_POINTERS[i] == []
  {}

  lemma WholeRestored(none: seq<seq<byte>>, ps: seq<seq<byte>>)
    requires |none| == |ps| && forall i :: 0 <= i < |none| ==> none[i] == []
    ensures Pointed(none, PointerList(ps, |ps|)) == ps
  {
    PointersRestored(none, ps, |ps|);
    assert ps[..|ps|] + none[|ps|..] == ps;
  }

  lemma AllPointersRestored(ps: seq<seq<byte>>)
    requires |ps| == NUM_LEVELS
    ensures Pointed(NO_POINTERS, PointerList(ps, |ps|)) == ps
  {
    NonePoint();
    WholeRestored(NO_POINTERS, ps);
  }

  // ----------------------------------------------------------- what is kept in step

  /** The edit makes of one version the other. */
  ghost predicate LeadsTo(disk: Disk, before: Levels, e: E.Edit, after: Levels) {
    && |before| == |after| == NUM_LEVELS && AllInOrder(after)
    && forall l {:trigger StepAt(disk, before, e, after, l)} :: 0 <= l < NUM_LEVELS ==> StepAt(disk, before, e, after, l)
  }

  ghost predicate StepAt(disk: Disk, before: Levels, e: E.Edit, after: Levels, l: nat)
    requires l < |before| && l < |after|
  {
    Manifest.LiveStep(before[l], FileEdit(disk, e), l, after[l])
  }

  ghost predicate AllInOrder(v: Levels) {
    |v| == NUM_LEVELS && forall l {:trigger OrderAt(v, l)} :: 0 <= l < NUM_LEVELS ==> OrderAt(v, l)
  }

  ghost predicate OrderAt(v: Levels, l: nat)
    requires l < |v|
  {
    InOrder(v[l])
  }

  lemma LeadsToNext(disk: Disk, before: Levels, e: E.Edit, after: Levels)
    requires LeadsTo(disk, before, e, after)
    ensures Becomes(before, FileEdit(disk, e), after)
  {
    forall l: nat | l < NUM_LEVELS ensures LevelBecomes(before, FileEdit(disk, e), after, l) {
      assert StepAt(disk, before, e, after, l);
    }
  }

  /** The files of the version have numbers of their own, below the next one. */
  ghost predicate NumbersBelow(v: Levels, next: nat) {
    OneHome(v) && forall l, f {:trigger f in v[l]} :: 0 <= l < |v| && f in v[l] ==> f.number < next
  }

  ghost predicate NumberedAt(es: seq<E.Edit>, versions: seq<Levels>, k: nat)
    requires 0 < k <= |es| < |versions|
  {
    es[k - 1].nextFileNumber.Some? && NumbersBelow(versions[k], es[k - 1].nextFileNumber.value)
  }

  /** The versions after whole edits are below the file number that the edit records. */
  ghost predicate AllNumbered(es: seq<E.Edit>, versions: seq<Levels>) {
    |versions| == |es| + 1 && forall k {:trigger NumberedAt(es, versions, k)} :: 2 <= k <= |es| ==> NumberedAt(es, versions, k)
  }

  lemma AllNumberedMore(es: seq<E.Edit>, versions: seq<Levels>, e: E.Edit, v: Levels)
    requires AllNumbered(es, versions) && e.nextFileNumber.Some? && NumbersBelow(v, e.nextFileNumber.value)
    ensures AllNumbered(es + [e], versions + [v])
  {
    forall k | 2 <= k <= |es + [e]| ensures NumberedAt(es + [e], versions + [v], k) {
      assert k <= |es| ==> NumberedAt(es, versions, k);
    }
  }

  lemma FileEditsMore(disk: Disk, es: seq<E.Edit>, e: E.Edit)
    ensures FileEdits(disk, es + [e]) == FileEdits(disk, es) + [FileEdit(disk, e)]
  {
    assert (es + [e])[..|es|] == es;
  }

  lemma NumbersOfVersion(es: seq<Edit>, v: Levels, issued: set<nat>, next: nat)
    requires Numbering(es, v, issued, next)
    ensures NumbersBelow(v, next)
  {
    forall l, f | 0 <= l < |v| && f in v[l] ensures f.number < next {
      assert Known(es, v, f);
    }
  }

  /** The next edit keeps the numbers in order. */
  lemma NumbersKept(disk: Disk, es: seq<E.Edit>, v: Levels, issued: set<nat>, next: nat, e: E.Edit, v': Levels)
    requires Numbering(FileEdits(disk, es), v, issued, next) && Proper(v, issued, FileEdit(disk, e)) && LeadsTo(disk, v, e, v')
    ensures Numbering(FileEdits(disk, es + [e]), v', issued - Used(FileEdit(disk, e)), next) && NumbersBelow(v', next)
  {
    LeadsToNext(disk, v, e, v');
    FileEditsMore(disk, es, e);
    NumberingKept(FileEdits(disk, es), v, issued, next, FileEdit(disk, e), v');
    NumbersOfVersion(FileEdits(disk, es + [e]), v', issued - Used(FileEdit(disk, e)), next);
  }

  /** So does the snapshot at the beginning of a manifest. */
  lemma SnapshotNumbers(put: TagWriter, disk: Disk, name: seq<byte>, ps: seq<seq<byte>>, v: Levels, issued: set<nat>, next: nat)
    requires Exact(put) && Snapshotable(disk, name, ps, v) && Numbering([], v, issued, next)
    ensures Numbering(FileEdits(disk, [Snapshot(put, name, ps, v)]), v, issued, next)
  {
    var e := Snapshot(put, name, ps, v);
    SnapshotIsFiles(put, disk, name, ps, v);
    forall x | x in AllFiles(v) ensures x.0 < |v| && x.1 in v[x.0] {
      SnapshotFiles(v, x);
    }
    SnapshotNumbering(FileEdit(disk, e), v, issued, next);
    assert FileEdits(disk, [e]) == [FileEdit(disk, e)];
  }

  /** The log holds the records of these edits and nothing else. */
  ghost predicate LogHolds(w: Writer, es: seq<E.Edit>)
    reads w
  {
    w.dest == Log(w.crc, RecordsOf(es)) && w.blockOffset == After(0, SplitAll(0, RecordsOf(es))) && w.blockOffset <= BLOCK
  }

  /** Version and pointers are what the edits in the manifest have made of them. */
  ghost predicate StateOf(disk: Disk, name: seq<byte>, es: seq<E.Edit>, versions: seq<Levels>, current: Levels, pointers: seq<seq<byte>>) {
    && AllWritable(name, es) && AllExist(es) && Lived(disk, es, versions)
    && versions[|es|] == current && PointersAfter(es, |es|) == pointers
  }

  lemma {:induction false} PointersPrefix(es: seq<E.Edit>, e: E.Edit, n: nat)
    requires AllExist(es) && AllExist(es + [e]) && n <= |es|
    ensures PointersAfter(es + [e], n) == PointersAfter(es, n)
  {
    if n > 0 {
      PointersPrefix(es, e, n - 1);
      assert (es + [e])[n - 1] == es[n - 1];
    }
  }

  lemma {:induction false} CountersPrefix(es: seq<E.Edit>, e: E.Edit, n: nat)
    requires n <= |es|
    ensures CountersAfter(es + [e], n) == CountersAfter(es, n)
  {
    if n > 0 {
      CountersPrefix(es, e, n - 1);
      assert (es + [e])[n - 1] == es[n - 1];
    }
  }

  lemma StateMore(disk: Disk, name: seq<byte>, es: seq<E.Edit>, versions: seq<Levels>, current: Levels, pointers: seq<seq<byte>>, e: E.Edit, v: Levels)
    requires StateOf(disk, name, es, versions, current, pointers) && Writable(name, e)
    requires LeadsTo(disk, current, e, v)
    ensures StateOf(disk, name, es + [e], versions + [v], v, Pointed(pointers, e.compactPointers))
  {
    forall l | 0 <= l < NUM_LEVELS ensures InOrder(v[l]) && Manifest.LiveStep(current[l], FileEdit(disk, e), l, v[l]) {
      assert OrderAt(v, l) && StepAt(disk, current, e, v, l);
    }
    LivedMore(disk, es, versions, e, v);
    forall k | 0 <= k < |es + [e]| ensures Writable(name, (es + [e])[k]) && LevelsExist((es + [e])[k]) {
      assert k < |es| ==> Writable(name, es[k]);
    }
    PointersPrefix(es, e, |es|);
    assert (es + [e])[|es|] == e;
  }

  /** An edit as LogAndApply completes it. */
  predicate Full(e: E.Edit) {
    e.logNumber.Some? && e.prevLogNumber.Some? && e.nextFileNumber.Some? && e.lastSequence.Some?
  }

  /** The manifest starts with a snapshot, which has no counters; later edits have all. */
  ghost predicate SnapshotFirst(es: seq<E.Edit>) {
    && |es| >= 1 && es[0].logNumber == es[0].prevLogNumber == es[0].nextFileNumber == es[0].lastSequence == None
    && forall k {:trigger Full(es[k])} :: 1 <= k < |es| ==> Full(es[k])
  }

  ghost function CountersOf(e: E.Edit): Counters {
    Counters(e.logNumber, e.prevLogNumber, e.nextFileNumber, e.lastSequence)
  }

  /** After a whole edit the counters are its own. */
  lemma {:induction false} LastCounts(es: seq<E.Edit>, n: nat)
    requires SnapshotFirst(es) && n <= |es|
    ensures CountersAfter(es, n) == if n >= 2 then CountersOf(es[n - 1]) else Counters(None, None, None, None)
  {
    if n > 0 {
      LastCounts(es, n - 1);
      if n >= 2 {
        assert Full(es[n - 1]);
      } else {
        assert CountersAfter(es, 1) == Counted(CountersAfter(es, 0), es[0]);
      }
    }
  }

  lemma SnapshotStays(es: seq<E.Edit>, e: E.Edit)
    requires SnapshotFirst(es) && Full(e)
    ensures SnapshotFirst(es + [e])
  {
    forall k | 1 <= k < |es + [e]| ensures Full((es + [e])[k]) {
      assert k < |es| ==> Full(es[k]);
    }
  }

  lemma OneMoreRecord(crc: Crc, es: seq<E.Edit>, e: E.Edit, record: seq<byte>)
    requires record == [] + E.AllBytes(E.Records(e))
    ensures var offset := After(0, SplitAll(0, RecordsOf(es)));
            && Log(crc, RecordsOf(es + [e])) == Log(crc, RecordsOf(es)) + Bytes(Written(crc), offset, Split(offset, record, true))
            && After(0, SplitAll(0, RecordsOf(es + [e]))) == After(offset, Split(offset, record, true))
  {
    assert record == E.AllBytes(E.Records(e));
    LogMore(crc, RecordsOf(es), record);
    RecordsMore(es, e);
  }

  /** One more record in the manifest. */
  method AddEdit(w: Writer, record: seq<byte>, ghost e: E.Edit, ghost es: seq<E.Edit>)
    requires LogHolds(w, es) && record == [] + E.AllBytes(E.Records(e))
    modifies w
    ensures LogHolds(w, es + [e])
  {
    OneMoreRecord(w.crc, es, e, record);
    w.AddRecord(record);
  }

  /** The edit that says all about a version: comparator, compaction pointers and files. */
  method SnapshotRecord(name: seq<byte>, put: TagWriter, ghost disk: Disk, pointers: seq<seq<byte>>, v: Levels) returns (record: seq<byte>)
    requires Exact(put) && Snapshotable(disk, name, pointers, v)
    ensures record == [] + E.AllBytes(E.Records(Snapshot(put, name, pointers, v)))
  {
    var edit := new E.VersionEdit();
    edit.comparator := Some(name);
    for level := 0 to NUM_LEVELS
      invariant fresh(edit) && edit.View() == E.FRESH.(comparator := Some(name), compactPointers := PointerList(pointers, level))
      modifies edit
    {
      if pointers[level] != [] {
        edit.compactPointers := edit.compactPointers + [(level, pointers[level])];
      }
    }
    var files := Manifest.WriteSnapshot(v);
    edit.newFiles := MetasOf(put, files.newFiles);
    SnapshotFits(put, disk, name, pointers, v);
    assert edit.View() == Snapshot(put, name, pointers, v);
    record := edit.EncodeTo([]);
  }

  /** WriteSnapshot */
  method WriteSnapshot(log: Writer, name: seq<byte>, put: TagWriter, ghost disk: Disk, pointers: seq<seq<byte>>, v: Levels)
    requires LogHolds(log, []) && Exact(put) && Snapshotable(disk, name, pointers, v)
    modifies log
    ensures LogHolds(log, [Snapshot(put, name, pointers, v)])
  {
    var record := SnapshotRecord(name, put, disk, pointers, v);
    ghost var e := Snapshot(put, name, pointers, v);
    AddEdit(log, record, e, []);
    assert [] + [e] == [e];
  }

  /** A new manifest, which begins with a snapshot. */
  method StartManifest(crc: Crc, name: seq<byte>, put: TagWriter, ghost disk: Disk, pointers: seq<seq<byte>>, v: Levels) returns (log: Writer)
    requires Exact(put) && Snapshotable(disk, name, pointers, v)
    ensures fresh(log) && log.crc == crc && LogHolds(log, [Snapshot(put, name, pointers, v)])
  {
    log := new Writer(crc, []);
    assert RecordsOf([]) == [] && Log(crc, []) == [];
    WriteSnapshot(log, name, put, disk, pointers, v);
  }

  /** What the edits in the manifest, if one is open, and the version have in common. */
  ghost predicate InStep(disk: Disk, name: seq<byte>, es: seq<E.Edit>, versions: seq<Levels>, current: Levels, pointers: seq<seq<byte>>) {
    SnapshotFirst(es) && StateOf(disk, name, es, versions, current, pointers) && AllNumbered(es, versions)
  }

  lemma SnapshotInStep(disk: Disk, name: seq<byte>, put: TagWriter, pointers: seq<seq<byte>>, v: Levels)
    requires Exact(put) && Snapshotable(disk, name, pointers, v)
    ensures InStep(disk, name, [Snapshot(put, name, pointers, v)], [EMPTY, v], v, pointers)
  {
    SnapshotLives(put, disk, name, pointers, v);
    SnapshotFits(put, disk, name, pointers, v);
    OneWritable(name, Snapshot(put, name, pointers, v));
  }

  lemma OneWritable(name: seq<byte>, e: E.Edit)
    requires Writable(name, e) && !Full(e) && e.logNumber == e.prevLogNumber == e.nextFileNumber == e.lastSequence == None
    ensures AllWritable(name, [e]) && SnapshotFirst([e])
  {}

  lemma StepMore(disk: Disk, name: seq<byte>, es: seq<E.Edit>, versions: seq<Levels>, current: Levels, pointers: seq<seq<byte>>, e: E.Edit, v: Levels)
    requires InStep(disk, name, es, versions, current, pointers) && Full(e) && Writable(name, e) && LeadsTo(disk, current, e, v)
    requires NumbersBelow(v, e.nextFileNumber.value)
    ensures InStep(disk, name, es + [e], versions + [v], v, Pointed(pointers, e.compactPointers))
  {
    AllNumberedMore(es, versions, e, v);
    StateMore(disk, name, es, versions, current, pointers, e, v);
    SnapshotStays(es, e);
  }

  /** A manifest is open: the present one, or a new one that begins with a snapshot, taken
      with the pointers that the edit has already set. */
  method OpenManifest(log0: Writer?, crc: Crc, name: seq<byte>, put: TagWriter, ghost disk: Disk, current: Levels,
                      ghost compactPointer: seq<seq<byte>>, pointers: seq<seq<byte>>, ghost e: E.Edit, ghost es0: seq<E.Edit>, ghost vs0: seq<Levels>,
                      ghost issued: set<nat>, ghost next: nat)
    returns (log: Writer, ghost es: seq<E.Edit>, ghost vs: seq<Levels>, ghost ps: seq<seq<byte>>)
    requires Exact(put) && |compactPointer| == NUM_LEVELS
    requires InRange(e.compactPointers, NUM_LEVELS) && pointers == Pointed(compactPointer, e.compactPointers)
    requires log0 != null ==> log0.crc == crc && LogHolds(log0, es0) && InStep(disk, name, es0, vs0, current, compactPointer)
    requires log0 == null ==> Snapshotable(disk, name, pointers, current) && es0 == []
    requires Numbering(FileEdits(disk, es0), current, issued, next)
    ensures Numbering(FileEdits(disk, es), current, issued, next)
    ensures log.crc == crc && LogHolds(log, es) && InStep(disk, name, es, vs, current, ps)
    ensures |ps| == NUM_LEVELS && pointers == Pointed(ps, e.compactPointers)
    ensures if log0 == null then fresh(log) && |es| == 1 else log == log0 && es == es0
  {
    if log0 == null {
      PointedTwice(compactPointer, e.compactPointers);
      SnapshotInStep(disk, name, put, pointers, current);
      SnapshotNumbers(put, disk, name, pointers, current, issued, next);
      log := StartManifest(crc, name, put, disk, pointers, current);
      es, vs, ps := [Snapshot(put, name, pointers, current)], [EMPTY, current], pointers;
    } else {
      log, es, vs, ps := log0, es0, vs0, compactPointer;
    }
  }

  /** The record is added. */
  method AppendRecord(log: Writer, record: seq<byte>, ghost name: seq<byte>, ghost disk: Disk, ghost current: Levels,
                      ghost ps: seq<seq<byte>>, ghost e: E.Edit, ghost v: Levels, ghost es: seq<E.Edit>, ghost vs: seq<Levels>)
    requires LogHolds(log, es) && InStep(disk, name, es, vs, current, ps)
    requires record == [] + E.AllBytes(E.Records(e)) && Full(e) && Writable(name, e) && LeadsTo(disk, current, e, v)
    requires |ps| == NUM_LEVELS && NumbersBelow(v, e.nextFileNumber.value)
    modifies log
    ensures LogHolds(log, es + [e]) && InStep(disk, name, es + [e], vs + [v], v, Pointed(ps, e.compactPointers))
  {
    StepMore(disk, name, es, vs, current, ps, e, v);
    AddEdit(log, record, e, es);
  }

  /** The record of the edit is added to the manifest. */
  method RecordEdit(log0: Writer?, crc: Crc, name: seq<byte>, put: TagWriter, ghost disk: Disk, current: Levels, ghost compactPointer: seq<seq<byte>>,
                    pointers: seq<seq<byte>>, ghost e: E.Edit, record: seq<byte>, ghost v: Levels, ghost es0: seq<E.Edit>, ghost vs0: seq<Levels>,
                    ghost issued: set<nat>, ghost next: nat)
    returns (log: Writer, ghost es: seq<E.Edit>, ghost vs: seq<Levels>)
    requires Exact(put) && |compactPointer| == NUM_LEVELS
    requires log0 != null ==> log0.crc == crc && LogHolds(log0, es0) && InStep(disk, name, es0, vs0, current, compactPointer)
    requires log0 == null ==> Snapshotable(disk, name, pointers, current) && es0 == []
    requires Numbering(FileEdits(disk, es0), current, issued, next) && Proper(current, issued, FileEdit(disk, e))
    requires Full(e) && Writable(name, e) && LeadsTo(disk, current, e, v) && e.nextFileNumber == Some(next)
    requires pointers == Pointed(compactPointer, e.compactPointers) && record == [] + E.AllBytes(E.Records(e))
    modifies log0
    ensures log.crc == crc && LogHolds(log, es) && InStep(disk, name, es, vs, v, pointers)
    ensures Numbering(FileEdits(disk, es), v, issued - Used(FileEdit(disk, e)), next)
    ensures if log0 == null then fresh(log) && |es| == 2 && es[1] == e else log == log0 && es == es0 + [e]
  {
    ghost var ps;
    log, es, vs, ps := OpenManifest(log0, crc, name, put, disk, current, compactPointer, pointers, e, es0, vs0, issued, next);
    NumbersKept(disk, es, current, issued, next, e, v);
    AppendRecord(log, record, name, disk, current, ps, e, v, es, vs);
    es, vs := es + [e], vs + [v];
  }

  lemma SameFiles(disk: Disk, a: E.Edit, b: E.Edit)
    requires a.deletedFiles == b.deletedFiles && a.newFiles == b.newFiles
    ensures FileEdit(disk, a) == FileEdit(disk, b)
  {}

  /** VersionSet, once its files are known. */
  class VersionSet {
    const crc: Crc
    const name: seq<byte>
    const put: TagWriter
    const disk: Disk
    var current: Levels
    var compactPointer: seq<seq<byte>>
    var nextFileNumber: nat
    var lastSequence: nat
    var logNumber: nat
    var prevLogNumber: nat
    var descriptorLog: Writer?
    ghost var logged: seq<E.Edit>
    ghost var versions: seq<Levels>
    ghost var issued: set<nat>  // file numbers handed out and not yet used

    /** The counters are in their range, and the file numbers in order. */
    ghost predicate NumbersOk()
      reads this
    {
      && nextFileNumber < Coding.UINT64 && lastSequence < Coding.UINT64 && logNumber < Coding.UINT64 && prevLogNumber < Coding.UINT64
      && Numbering(FileEdits(disk, logged), current, issued, nextFileNumber)
    }

    /** Manifest and version are in step. */
    ghost predicate ManifestOk()
      reads `current, `compactPointer, `descriptorLog, `logged, `versions, descriptorLog
    {
      && Exact(put) && AllInOrder(current) && |compactPointer| == NUM_LEVELS
      && (descriptorLog == null ==> logged == [])
      && (descriptorLog != null ==> descriptorLog.crc == crc && LogHolds(descriptorLog, logged) && InStep(disk, name, logged, versions, current, compactPointer))
    }

    ghost predicate Valid()
      reads this, descriptorLog
    {
      ManifestOk() && NumbersOk()
    }

    /** A version set with the given files and counters, and no manifest open. */
    constructor (crc: Crc, name: seq<byte>, disk: Disk, r: Recovered)
      requires AllInOrder(r.files) && |r.compactPointer| == NUM_LEVELS && NumbersBelow(r.files, r.nextFileNumber)
      requires r.nextFileNumber < Coding.UINT64 && r.lastSequence < Coding.UINT64 && r.logNumber < Coding.UINT64 && r.prevLogNumber < Coding.UINT64
      ensures Valid() && descriptorLog == null && current == r.files && compactPointer == r.compactPointer
      ensures nextFileNumber == r.nextFileNumber && lastSequence == r.lastSequence && logNumber == r.logNumber && prevLogNumber == r.prevLogNumber
      ensures this.crc == crc && this.name == name && this.disk == disk && issued == {}
    {
      this.crc, this.name, this.disk, put := crc, name, disk, Fixed64();
      current, compactPointer := r.files, r.compactPointer;
      nextFileNumber, lastSequence, logNumber, prevLogNumber := r.nextFileNumber, r.lastSequence, r.logNumber, r.prevLogNumber;
      descriptorLog, logged, versions, issued := null, [], [], {};
      Fixed64IsExact();
    }

    /** NewFileNumber.  Like the next two, it leaves alone what ManifestOk depends on. */
    method NewFileNumber() returns (n: nat)
      requires NumbersOk() && nextFileNumber + 1 < Coding.UINT64
      modifies `nextFileNumber, `issued
      ensures NumbersOk() && n == old(nextFileNumber) && nextFileNumber == n + 1 && issued == old(issued) + {n}
    {
      NumberIssued(FileEdits(disk, logged), current, issued, nextFileNumber);
      n := nextFileNumber;
      nextFileNumber, issued := nextFileNumber + 1, issued + {n};
    }

    /** ReuseFileNumber: a number that was handed out last may be handed out again. */
    method ReuseFileNumber(n: nat)
      requires NumbersOk() && n in issued
      modifies `nextFileNumber, `issued
      ensures NumbersOk() && issued == old(issued) - {n} && nextFileNumber == if old(nextFileNumber) == n + 1 then n else old(nextFileNumber)
    {
      NumberReturned(FileEdits(disk, logged), current, issued, nextFileNumber, n);
      if nextFileNumber == n + 1 {
        nextFileNumber := n;
      }
      issued := issued - {n};
    }

    /** MarkFileNumberUsed */
    method MarkFileNumberUsed(n: nat)
      requires NumbersOk() && n + 1 < Coding.UINT64
      modifies `nextFileNumber
      ensures NumbersOk() && nextFileNumber == if old(nextFileNumber) <= n then n + 1 else old(nextFileNumber)
    {
      if nextFileNumber <= n {
        NumbersPassed(FileEdits(disk, logged), current, issued, nextFileNumber, n + 1);
        nextFileNumber := n + 1;
      }
    }

    /** The edit with the counters that it leaves open. */
    function Filled(e: E.Edit): E.Edit
      reads this
    {
      e.(logNumber := Some(if e.logNumber.Some? then e.logNumber.value else logNumber),
         prevLogNumber := Some(if e.prevLogNumber.Some? then e.prevLogNumber.value else prevLogNumber),
         nextFileNumber := Some(nextFileNumber), lastSequence := Some(lastSequence))
    }

    method Fill(edit: E.VersionEdit)
      modifies edit
      ensures edit.View() == Filled(old(edit.View()))
    {
      if edit.logNumber == None {
        edit.logNumber := Some(logNumber);
      }
      if edit.prevLogNumber == None {
        edit.prevLogNumber := Some(prevLogNumber);
      }
      edit.nextFileNumber, edit.lastSequence := Some(nextFileNumber), Some(lastSequence);
    }

    lemma FilledFits(e: E.Edit)
      requires NumbersOk() && ListsFit(e) && ScalarsFit(e) && LevelsExist(e) && e.comparator == None
      requires e.logNumber.Some? ==> logNumber <= e.logNumber.value < nextFileNumber
      ensures Full(Filled(e)) && Writable(name, Filled(e))
      ensures Filled(e).logNumber.value < Coding.UINT64 && Filled(e).prevLogNumber.value < Coding.UINT64
    {
      PartsMakeFit(Filled(e));
    }

    /** What the completed edit makes of files and pointers. */
    method NextVersion(e: E.Edit) returns (v: Levels, pointers: seq<seq<byte>>)
      requires Valid() && LevelsExist(e) && Proper(current, issued, FileEdit(disk, e))
      ensures pointers == Pointed(compactPointer, e.compactPointers) && LeadsTo(disk, current, e, v)
    {
      ExistingIsGood(disk, e);
      ghost var fe := FileEdit(disk, e);
      forall l | 0 <= l < NUM_LEVELS ensures InOrder(current[l]) && Apart(current[l], AddedAfter([], fe, l)) {
        assert OrderAt(current, l);
        ProperIsApart(FileEdits(disk, logged), current, issued, nextFileNumber, fe, l);
      }
      v := Manifest.LogAndApply(current, FileEdit(disk, e));
      forall l: nat | l < NUM_LEVELS ensures OrderAt(v, l) && StepAt(disk, current, e, v, l) {
        assert Manifest.LiveStep(current[l], fe, l, v[l]);
      }
      pointers := ApplyPointers(compactPointer, e.compactPointers);
    }

    /** LogAndApply, with writes that succeed: the edit is completed, applied, recorded, and
        the new version installed.  Files that it adds have numbers from NewFileNumber or are
        taken from another level. */
    method LogAndApply(edit: E.VersionEdit)
      requires Valid() && ListsFit(edit.View()) && ScalarsFit(edit.View()) && LevelsExist(edit.View()) && edit.comparator == None
      requires edit.logNumber.Some? ==> logNumber <= edit.logNumber.value < nextFileNumber
      requires Proper(current, issued, FileEdit(disk, edit.View()))
      requires descriptorLog == null ==> Snapshotable(disk, name, Pointed(compactPointer, edit.compactPointers), current)
      modifies this, edit, descriptorLog
      ensures Valid() && descriptorLog != null && edit.View() == old(Filled(edit.View()))
      ensures nextFileNumber == old(nextFileNumber) && lastSequence == old(lastSequence)
      ensures issued == old(issued) - Used(FileEdit(disk, edit.View()))
      ensures edit.logNumber == Some(logNumber) && edit.prevLogNumber == Some(prevLogNumber)
      ensures edit.nextFileNumber == Some(nextFileNumber) && edit.lastSequence == Some(lastSequence)
      ensures logNumber == if old(edit.logNumber).Some? then old(edit.logNumber).value else old(logNumber)
      ensures prevLogNumber == if old(edit.prevLogNumber).Some? then old(edit.prevLogNumber).value else old(prevLogNumber)
      ensures compactPointer == Pointed(old(compactPointer), edit.compactPointers)
      ensures LeadsTo(disk, old(current), edit.View(), current)
      ensures if old(descriptorLog) == null then |logged| == 2 && logged[1] == edit.View() else logged == old(logged) + [edit.View()]
    {
      var e := CompleteEdit(edit);
      var record := edit.EncodeTo([]);
      var v, pointers := NextVersion(e);
      Commit(e, record, v, pointers);
    }

    /** The counters are filled in. */
    method CompleteEdit(edit: E.VersionEdit) returns (e: E.Edit)
      requires Valid() && ListsFit(edit.View()) && ScalarsFit(edit.View()) && LevelsExist(edit.View()) && edit.comparator == None
      requires edit.logNumber.Some? ==> logNumber <= edit.logNumber.value < nextFileNumber
      modifies edit
      ensures e == edit.View() == Filled(old(edit.View())) && Full(e) && Writable(name, e) && FileEdit(disk, e) == FileEdit(disk, old(edit.View()))
      ensures e.logNumber.value < Coding.UINT64 && e.prevLogNumber.value < Coding.UINT64 && e.compactPointers == old(edit.compactPointers)
    {
      FilledFits(edit.View());
      Fill(edit);
      e := E.Edit(edit.comparator, edit.logNumber, edit.prevLogNumber, edit.nextFileNumber, edit.lastSequence, edit.compactPointers, edit.deletedFiles, edit.newFiles);
      SameFiles(disk, old(edit.View()), e);
    }

    /** The rest of LogAndApply; `record` is what the edit is encoded as. */
    method Commit(e: E.Edit, record: seq<byte>, v: Levels, pointers: seq<seq<byte>>)
      requires Valid() && Full(e) && Writable(name, e) && LeadsTo(disk, current, e, v) && pointers == Pointed(compactPointer, e.compactPointers)
      requires Proper(current, issued, FileEdit(disk, e)) && e.nextFileNumber == Some(nextFileNumber)
      requires record == [] + E.AllBytes(E.Records(e))
      requires e.logNumber.value < Coding.UINT64 && e.prevLogNumber.value < Coding.UINT64
      requires descriptorLog == null ==> Snapshotable(disk, name, pointers, current)
      modifies this, descriptorLog
      ensures Valid() && descriptorLog != null && current == v && compactPointer == pointers
      ensures nextFileNumber == old(nextFileNumber) && lastSequence == old(lastSequence) && issued == old(issued) - Used(FileEdit(disk, e))
      ensures e.logNumber == Some(logNumber) && e.prevLogNumber == Some(prevLogNumber)
      ensures if old(descriptorLog) == null then |logged| == 2 && logged[1] == e else logged == old(logged) + [e]
    {
      var log;
      ghost var es, vs;
      log, es, vs := RecordEdit(descriptorLog, crc, name, put, disk, current, compactPointer, pointers, e, record, v, logged, versions, issued, nextFileNumber);
      Set(log, es, vs, v, pointers, e.logNumber.value, e.prevLogNumber.value, issued - Used(FileEdit(disk, e)));
    }

    method Set(log: Writer, ghost es: seq<E.Edit>, ghost vs: seq<Levels>, v: Levels, pointers: seq<seq<byte>>, logNumber': nat, prevLogNumber': nat, ghost issued': set<nat>)
      modifies this
      ensures descriptorLog == log && logged == es && versions == vs && current == v && compactPointer == pointers
      ensures logNumber == logNumber' && prevLogNumber == prevLogNumber' && nextFileNumber == old(nextFileNumber) && lastSequence == old(lastSequence)
      ensures issued == issued'
    {
      descriptorLog, logged, versions, issued := log, es, vs, issued';
      current, compactPointer, logNumber, prevLogNumber := v, pointers, logNumber', prevLogNumber';
    }

    /** Whatever part of the manifest a crash leaves, Recover brings back the state after the
        last edit whose record is whole, as long as that is not the snapshot alone. */
    method CrashAndRecover(cut: nat) returns (r: Option<Recovered>)
      requires Valid() && descriptorLog != null && cut <= |descriptorLog.dest|
      ensures exists n: nat :: Whole(crc, logged, cut, n) && (r.Some? <==> n >= 2) && (r.Some? ==> Restored(disk, logged, versions, n, r.value))
    {
      r := Recover(crc, name, disk, descriptorLog.dest[..cut], logged);
      ghost var n: nat :| Whole(crc, logged, cut, n)
        && (r.Some? <==> Complete(CountersAfter(logged, n))) && (r.Some? ==> FromEdits(disk, logged, n, r.value));
      LastCounts(logged, n);
      if n >= 2 {
        assert Full(logged[n - 1]);
        NumbersReplay(disk, logged, current, issued, nextFileNumber, n);
        FromEditsRestores(disk, logged, versions, n, r.value);
      }
    }

    /** Reopened without a crash, files and pointers are as they are now. */
    method Reopen() returns (r: Option<Recovered>)
      requires Valid() && descriptorLog != null
      ensures r.Some? <==> |logged| >= 2
      ensures r.Some? ==> r.value.files == current && r.value.compactPointer == compactPointer && Restored(disk, logged, versions, |logged|, r.value)
    {
      r := CrashAndRecover(|descriptorLog.dest|);
      ghost var n: nat :| Whole(crc, logged, |descriptorLog.dest|, n)
        && (r.Some? <==> n >= 2) && (r.Some? ==> Restored(disk, logged, versions, n, r.value));
      AllWhole(crc, logged, n);
    }

    /** Whatever a crash leaves, a version set starts anew from it, with the files of the last
        whole edit and with file numbers that none of them has. */
    method Restart(cut: nat) returns (next: VersionSet?)
      requires Valid() && descriptorLog != null && cut <= |descriptorLog.dest|
      ensures next != null ==> fresh(next) && next.Valid() && next.descriptorLog == null
      ensures exists n: nat :: Whole(crc, logged, cut, n) && RestartedAt(logged, versions, n, next)
    {
      next := null;
      var r := CrashAndRecover(cut);
      ghost var n: nat :| Whole(crc, logged, cut, n) && (r.Some? <==> n >= 2) && (r.Some? ==> Restored(disk, logged, versions, n, r.value));
      if r.Some? {
        RestoredIsReady(disk, name, logged, versions, current, compactPointer, n, r.value);
        if r.value.nextFileNumber < Coding.UINT64 {
          next := new VersionSet(crc, name, disk, r.value);
        }
      }
    }
  }

  /** After n whole edits, unless these are the snapshot alone or the numbers are used up. */
  ghost predicate RestartedAt(es: seq<E.Edit>, versions: seq<Levels>, n: nat, next: VersionSet?)
    reads next
  {
    && n <= |es| < |versions|
    && (next != null <==> n >= 2 && es[n - 1].nextFileNumber.Some? && es[n - 1].nextFileNumber.value + 1 < Coding.UINT64)
    && (next != null ==> next.current == versions[n] && next.nextFileNumber == es[n - 1].nextFileNumber.value + 1)
  }

  /** The state after the first n edits is back. */
  ghost predicate Restored(disk: Disk, es: seq<E.Edit>, versions: seq<Levels>, n: nat, r: Recovered) {
    && 2 <= n <= |es| < |versions| && |versions[n]| == |r.files| == NUM_LEVELS && Full(es[n - 1]) && AllExist(es)
    && r.logNumber == es[n - 1].logNumber.value && r.prevLogNumber == es[n - 1].prevLogNumber.value
    && r.manifestFileNumber == es[n - 1].nextFileNumber.value && r.nextFileNumber == r.manifestFileNumber + 1
    && r.lastSequence == es[n - 1].lastSequence.value && r.compactPointer == PointersAfter(es, n)
    && r.files == versions[n]
  }

  /** Numbers that are in order bring no file back. */
  ghost predicate NoneBack(disk: Disk, es: seq<E.Edit>, n: nat) {
    forall l {:trigger SameNamed(FileEdits(disk, es), l)} :: 0 <= l < NUM_LEVELS ==> SameNamed(FileEdits(disk, es), l) && forall f :: !ComesBack(FileEdits(disk, es), l, n, f)
  }

  lemma {:induction false} NumbersReplay(disk: Disk, es: seq<E.Edit>, v: Levels, issued: set<nat>, next: nat, n: nat)
    requires Numbering(FileEdits(disk, es), v, issued, next) && n <= |es|
    ensures NoneBack(disk, es, n)
  {
    forall l | 0 <= l < NUM_LEVELS ensures SameNamed(FileEdits(disk, es), l) && forall f :: !ComesBack(FileEdits(disk, es), l, n, f) {
      NumberedReplays(FileEdits(disk, es), v, issued, next, l, n);
    }
  }

  lemma FromEditsRestores(disk: Disk, es: seq<E.Edit>, versions: seq<Levels>, n: nat, r: Recovered)
    requires AllExist(es) && Lived(disk, es, versions) && SnapshotFirst(es) && 2 <= n <= |es| && FromEdits(disk, es, n, r) && NoneBack(disk, es, n)
    ensures Restored(disk, es, versions, n, r)
  {
    LastCounts(es, n);
    assert Full(es[n - 1]);
    assert |versions[n]| == NUM_LEVELS;
    forall l | 0 <= l < NUM_LEVELS ensures r.files[l] == versions[n][l] {
      assert SameNamed(FileEdits(disk, es), l);
      RecoveredIsLive(disk, es, versions, n, r, l);
    }
  }

  lemma {:induction false} LogGrows(crc: Crc, rs: seq<seq<byte>>, m: nat, n: nat)
    requires m <= n <= |rs|
    ensures |Log(crc, rs[..m])| <= |Log(crc, rs[..n])|
    decreases n
  {
    if m < n {
      LogGrows(crc, rs, m, n - 1);
      LogMore(crc, rs[..n - 1], rs[n - 1]);
      assert rs[..n] == rs[..n - 1] + [rs[n - 1]];
    }
  }

  lemma AllWhole(crc: Crc, es: seq<E.Edit>, n: nat)
    requires Whole(crc, es, |Log(crc, RecordsOf(es))|, n)
    ensures n == |es|
  {
    assert RecordsOf(es)[..|es|] == RecordsOf(es);
    if n < |es| {
      LogGrows(crc, RecordsOf(es), n + 1, |es|);
    }
  }

  /** What is recovered can go on: its counters have room, and its files have numbers below
      the next. */
  lemma RestoredIsReady(disk: Disk, name: seq<byte>, es: seq<E.Edit>, versions: seq<Levels>, current: Levels, pointers: seq<seq<byte>>, n: nat, r: Recovered)
    requires InStep(disk, name, es, versions, current, pointers) && Restored(disk, es, versions, n, r)
    ensures AllInOrder(r.files) && |r.compactPointer| == NUM_LEVELS && NumbersBelow(r.files, r.nextFileNumber)
    ensures r.lastSequence < Coding.UINT64 && r.logNumber < Coding.UINT64 && r.prevLogNumber < Coding.UINT64
  {
    assert NumberedAt(es, versions, n) && Writable(name, es[n - 1]);
    assert |versions[n]| == NUM_LEVELS;
    ScalarsOfFit(es[n - 1]);
  }

  lemma ScalarsOfFit(e: E.Edit)
    requires E.EditFits(e) && Full(e)
    ensures e.logNumber.value < Coding.UINT64 && e.prevLogNumber.value < Coding.UINT64 && e.lastSequence.value < Coding.UINT64
  {
    RecordOfFit(e, E.Number(E.LOG_NUMBER, e.logNumber.value));
    RecordOfFit(e, E.Number(E.PREV_LOG_NUMBER, e.prevLogNumber.value));
    RecordOfFit(e, E.Number(E.LAST_SEQUENCE, e.lastSequence.value));
  }

  lemma RecordOfFit(e: E.Edit, r: E.Record)
    requires E.EditFits(e) && r in E.Scalars(e)
    ensures E.Fits(r)
  {
    var i :| 0 <= i < |E.Scalars(e)| && E.Scalars(e)[i] == r;
    assert E.Records(e)[i] == r;
  }
}
