/** Version edits as bytes in the manifest (db/version_edit.cc).  Internal keys are kept as
    the bytes they are encoded in. */
module VersionEdits {
  import opened Coding
  import opened Keys
  import opened Slices

  const NUM_LEVELS := 7

  const COMPARATOR := 1
  const LOG_NUMBER := 2
  const NEXT_FILE_NUMBER := 3
  const LAST_SEQUENCE := 4
  const COMPACT_POINTER := 5
  const DELETED_FILE := 6
  const NEW_FILE := 7
  const PREV_LOG_NUMBER := 9

  datatype FileMetaData = FileMetaData(number: nat, fileSize: nat, smallest: seq<byte>, largest: seq<byte>)

  /** An edit; the deleted files, a std::set, are in increasing order. */
  datatype Edit = Edit(
    comparator: Option<seq<byte>>, logNumber: Option<nat>, prevLogNumber: Option<nat>, nextFileNumber: Option<nat>,
    lastSequence: Option<nat>, compactPointers: seq<(nat, seq<byte>)>, deletedFiles: seq<(nat, nat)>, newFiles: seq<(nat, FileMetaData)>)

  // -------------------------------------------------------------------- the format

  /** One tagged record of an encoded edit. */
  datatype Record =
    | Name(name: seq<byte>)
    | Number(tag: nat, n: nat)
    | Pointer(level: nat, key: seq<byte>)
    | Deleted(level: nat, file: nat)
    | Added(level: nat, f: FileMetaData)

  function TagOf(r: Record): nat {
    match r
    case Name(_) => COMPARATOR
    case Number(tag, _) => tag
    case Pointer(_, _) => COMPACT_POINTER
    case Deleted(_, _) => DELETED_FILE
    case Added(_, _) => NEW_FILE
  }

  function FileBytes(f: FileMetaData): seq<byte> {
    Varint(f.number) + (Varint(f.fileSize) + (LengthPrefixed(f.smallest) + LengthPrefixed(f.largest)))
  }

  function Payload(r: Record): seq<byte> {
    match r
    case Name(name) => LengthPrefixed(name)
    case Number(_, n) => Varint(n)
    case Pointer(level, key) => Varint(level) + LengthPrefixed(key)
    case Deleted(level, file) => Varint(level) + Varint(file)
    case Added(level, f) => Varint(level) + FileBytes(f)
  }

  function RecordBytes(r: Record): seq<byte> {
    Varint(TagOf(r)) + Payload(r)
  }

  function AllBytes(rs: seq<Record>): seq<byte> {
    if rs == [] then [] else RecordBytes(rs[0]) + AllBytes(rs[1..])
  }

  predicate IsNumberTag(tag: nat) {
    tag == LOG_NUMBER || tag == PREV_LOG_NUMBER || tag == NEXT_FILE_NUMBER || tag == LAST_SEQUENCE
  }

  /** The values fit the widths of their types. */
  predicate Fits(r: Record) {
    match r
    case Name(name) => |name| < UINT32
    case Number(tag, n) => IsNumberTag(tag) && n < UINT64
    case Pointer(level, key) => level < UINT32 && |key| < UINT32
    case Deleted(level, file) => level < UINT32 && file < UINT64
    case Added(level, f) => level < UINT32 && f.number < UINT64 && f.fileSize < UINT64 && |f.smallest| < UINT32 && |f.largest| < UINT32
  }

  /** Levels are those of a version. */
  predicate LevelOk(r: Record) {
    (r.Pointer? || r.Deleted? || r.Added?) ==> r.level < NUM_LEVELS
  }

  // --------------------------------------------------------------- edits and records

  /** The order of pairs in a std::set. */
  predicate PairLess(a: (nat, nat), b: (nat, nat)) {
    a.0 < b.0 || (a.0 == b.0 && a.1 < b.1)
  }

  predicate InOrder(s: seq<(nat, nat)>) {
    forall i, j {:trigger PairLess(s[i], s[j])} :: 0 <= i < j < |s| ==> PairLess(s[i], s[j])
  }

  /** std::set insert */
  function InsertPair(s: seq<(nat, nat)>, x: (nat, nat)): seq<(nat, nat)> {
    if s == [] then [x]
    else if x == s[0] then s
    else if PairLess(x, s[0]) then [x] + s
    else [s[0]] + InsertPair(s[1..], x)
  }

  lemma {:induction false} InsertLast(s: seq<(nat, nat)>, x: (nat, nat))
    requires forall i :: 0 <= i < |s| ==> PairLess(s[i], x)
    ensures InsertPair(s, x) == s + [x]
  {
    if s != [] {
      assert PairLess(s[0], x);
      InsertLast(s[1..], x);
    }
  }

  /** What decoding a record does to an edit. */
  function Apply(e: Edit, r: Record): Edit {
    match r
    case Name(name) => e.(comparator := Some(name))
    case Number(tag, n) =>
      if tag == LOG_NUMBER then e.(logNumber := Some(n))
      else if tag == PREV_LOG_NUMBER then e.(prevLogNumber := Some(n))
      else if tag == NEXT_FILE_NUMBER then e.(nextFileNumber := Some(n))
      else e.(lastSequence := Some(n))
    case Pointer(level, key) => e.(compactPointers := e.compactPointers + [(level, key)])
    case Deleted(level, file) => e.(deletedFiles := InsertPair(e.deletedFiles, (level, file)))
    case Added(level, f) => e.(newFiles := e.newFiles + [(level, f)])
  }

  function ApplyAll(e: Edit, rs: seq<Record>): Edit
    decreases |rs|
  {
    if rs == [] then e else ApplyAll(Apply(e, rs[0]), rs[1..])
  }

  /** Clear, which leaves the compaction pointers. */
  function Cleared(e: Edit): Edit {
    Edit(None, None, None, None, None, e.compactPointers, [], [])
  }

  const FRESH := Edit(None, None, None, None, None, [], [], [])

  function NumberRecord(tag: nat, n: Option<nat>): seq<Record> {
    if n.Some? then [Number(tag, n.value)] else []
  }

  function PointerRecords(ps: seq<(nat, seq<byte>)>): seq<Record> {
    if ps == [] then [] else [Pointer(ps[0].0, ps[0].1)] + PointerRecords(ps[1..])
  }

  function DeletedRecords(ds: seq<(nat, nat)>): seq<Record> {
    if ds == [] then [] else [Deleted(ds[0].0, ds[0].1)] + DeletedRecords(ds[1..])
  }

  function AddedRecords(fs: seq<(nat, FileMetaData)>): seq<Record> {
    if fs == [] then [] else [Added(fs[0].0, fs[0].1)] + AddedRecords(fs[1..])
  }

  function Scalars(e: Edit): seq<Record> {
    (if e.comparator.Some? then [Name(e.comparator.value)] else [])
    + NumberRecord(LOG_NUMBER, e.logNumber) + NumberRecord(PREV_LOG_NUMBER, e.prevLogNumber)
    + NumberRecord(NEXT_FILE_NUMBER, e.nextFileNumber) + NumberRecord(LAST_SEQUENCE, e.lastSequence)
  }

  /** The records an edit is encoded as, in their order. */
  function Records(e: Edit): seq<Record> {
    Scalars(e) + PointerRecords(e.compactPointers) + DeletedRecords(e.deletedFiles) + AddedRecords(e.newFiles)
  }

  lemma {:induction false} ApplyAppend(e: Edit, a: seq<Record>, b: seq<Record>)
    ensures ApplyAll(e, a + b) == ApplyAll(ApplyAll(e, a), b)
    decreases |a|
  {
    if a == [] {
      assert a + b == b;
    } else {
      assert (a + b)[1..] == a[1..] + b;
      ApplyAppend(Apply(e, a[0]), a[1..], b);
    }
  }

  lemma ApplyOne(e: Edit, r: Record)
    ensures ApplyAll(e, [r]) == Apply(e, r)
  {
    assert [r][1..] == [];
  }

  lemma ApplyNumber(e: Edit, tag: nat, n: Option<nat>)
    ensures ApplyAll(e, NumberRecord(tag, n)) == if n.Some? then Apply(e, Number(tag, n.value)) else e
  {
    if n.Some? {
      ApplyOne(e, Number(tag, n.value));
    }
  }

  lemma ApplyScalars(c: Edit, e: Edit)
    requires c.comparator == None && c.logNumber == c.prevLogNumber == c.nextFileNumber == c.lastSequence == None
    ensures ApplyAll(c, Scalars(e)) == e.(compactPointers := c.compactPointers, deletedFiles := c.deletedFiles, newFiles := c.newFiles)
  {
    var name := if e.comparator.Some? then [Name(e.comparator.value)] else [];
    var a, b := NumberRecord(LOG_NUMBER, e.logNumber), NumberRecord(PREV_LOG_NUMBER, e.prevLogNumber);
    var d, f := NumberRecord(NEXT_FILE_NUMBER, e.nextFileNumber), NumberRecord(LAST_SEQUENCE, e.lastSequence);
    ApplyAppend(c, name + a + b + d, f);
    ApplyAppend(c, name + a + b, d);
    ApplyAppend(c, name + a, b);
    ApplyAppend(c, name, a);
    if e.comparator.Some? {
      ApplyOne(c, Name(e.comparator.value));
    }
    var c1 := c.(comparator := e.comparator);
    ApplyNumber(c1, LOG_NUMBER, e.logNumber);
    var c2 := c1.(logNumber := e.logNumber);
    ApplyNumber(c2, PREV_LOG_NUMBER, e.prevLogNumber);
    var c3 := c2.(prevLogNumber := e.prevLogNumber);
    ApplyNumber(c3, NEXT_FILE_NUMBER, e.nextFileNumber);
    var c4 := c3.(nextFileNumber := e.nextFileNumber);
    ApplyNumber(c4, LAST_SEQUENCE, e.lastSequence);
  }

  lemma {:induction false} ApplyPointers(e: Edit, ps: seq<(nat, seq<byte>)>)
    ensures ApplyAll(e, PointerRecords(ps)) == e.(compactPointers := e.compactPointers + ps)
    decreases |ps|
  {
    if ps != [] {
      var r := Pointer(ps[0].0, ps[0].1);
      ApplyAppend(e, [r], PointerRecords(ps[1..]));
      ApplyOne(e, r);
      ApplyPointers(Apply(e, r), ps[1..]);
      assert e.compactPointers + ps == (e.compactPointers + [ps[0]]) + ps[1..];
    } else {
      assert e.compactPointers + ps == e.compactPointers;
    }
  }

  lemma {:induction false} ApplyDeleted(e: Edit, ds: seq<(nat, nat)>)
    requires InOrder(e.deletedFiles + ds)
    ensures ApplyAll(e, DeletedRecords(ds)) == e.(deletedFiles := e.deletedFiles + ds)
    decreases |ds|
  {
    var s := e.deletedFiles;
    if ds != [] {
      var r := Deleted(ds[0].0, ds[0].1);
      forall i | 0 <= i < |s| ensures PairLess(s[i], ds[0]) {
        assert PairLess((s + ds)[i], (s + ds)[|s|]);
      }
      InsertLast(s, ds[0]);
      ApplyAppend(e, [r], DeletedRecords(ds[1..]));
      ApplyOne(e, r);
      assert s + ds == (s + [ds[0]]) + ds[1..];
      ApplyDeleted(Apply(e, r), ds[1..]);
    } else {
      assert s + ds == s;
    }
  }

  lemma {:induction false} ApplyAdded(e: Edit, fs: seq<(nat, FileMetaData)>)
    ensures ApplyAll(e, AddedRecords(fs)) == e.(newFiles := e.newFiles + fs)
    decreases |fs|
  {
    if fs != [] {
      var r := Added(fs[0].0, fs[0].1);
      ApplyAppend(e, [r], AddedRecords(fs[1..]));
      ApplyOne(e, r);
      ApplyAdded(Apply(e, r), fs[1..]);
      assert e.newFiles + fs == (e.newFiles + [fs[0]]) + fs[1..];
    } else {
      assert e.newFiles + fs == e.newFiles;
    }
  }

  /** Applying an edit's records to a cleared one gives the edit, after the compaction
      pointers that Clear left. */
  lemma RecordsMakeTheEdit(before: Edit, e: Edit)
    requires InOrder(e.deletedFiles)
    ensures ApplyAll(Cleared(before), Records(e)) == e.(compactPointers := before.compactPointers + e.compactPointers)
  {
    var c := Cleared(before);
    var a, b, d, f := Scalars(e), PointerRecords(e.compactPointers), DeletedRecords(e.deletedFiles), AddedRecords(e.newFiles);
    ApplyAppend(c, a + b + d, f);
    ApplyAppend(c, a + b, d);
    ApplyAppend(c, a, b);
    ApplyScalars(c, e);
    var c1 := ApplyAll(c, a);
    ApplyPointers(c1, e.compactPointers);
    var c2 := ApplyAll(c1, b);
    assert c2.deletedFiles + e.deletedFiles == e.deletedFiles;
    ApplyDeleted(c2, e.deletedFiles);
    var c3 := ApplyAll(c2, d);
    ApplyAdded(c3, e.newFiles);
    assert c3.newFiles + e.newFiles == e.newFiles;
  }

  lemma {:induction false} BytesAppend(a: seq<Record>, b: seq<Record>)
    ensures AllBytes(a + b) == AllBytes(a) + AllBytes(b)
  {
    if a == [] {
      assert a + b == b;
    } else {
      assert (a + b)[1..] == a[1..] + b;
      BytesAppend(a[1..], b);
    }
  }

  lemma OneRecord(r: Record)
    ensures AllBytes([r]) == RecordBytes(r)
  {
    assert [r][1..] == [];
  }

  // ---------------------------------------------------------------------- decoding

  /** GetLevel */
  method GetLevel(s: seq<byte>, ghost n: nat, ghost rest: seq<byte>) returns (ok: bool, level: nat, t: seq<byte>)
    ensures ok ==> |t| < |s|
    ensures s == Varint(n) + rest && n < UINT32 ==> (ok <==> n < NUM_LEVELS) && (ok ==> level == n && t == rest)
  {
    ok, level, t := GetVarint32(s, n, rest);
    ok := ok && level < NUM_LEVELS;
  }

  method ParsePointer(s: seq<byte>, ghost level: nat, ghost key: seq<byte>, ghost rest: seq<byte>) returns (ok: bool, r: Record, t: seq<byte>)
    ensures ok ==> |t| < |s|
    ensures s == Payload(Pointer(level, key)) + rest && Fits(Pointer(level, key)) ==>
              (ok <==> level < NUM_LEVELS) && (ok ==> r == Pointer(level, key) && t == rest)
  {
    assert Payload(Pointer(level, key)) + rest == Varint(level) + (LengthPrefixed(key) + rest);
    r := Pointer(0, []);
    var l, k;
    ok, l, t := GetLevel(s, level, LengthPrefixed(key) + rest);
    if ok {
      ok, k, t := GetLengthPrefixedSlice(t, key, rest);
      r := Pointer(l, k);
    }
  }

  method ParseDeleted(s: seq<byte>, ghost level: nat, ghost file: nat, ghost rest: seq<byte>) returns (ok: bool, r: Record, t: seq<byte>)
    ensures ok ==> |t| < |s|
    ensures s == Payload(Deleted(level, file)) + rest && Fits(Deleted(level, file)) ==>
              (ok <==> level < NUM_LEVELS) && (ok ==> r == Deleted(level, file) && t == rest)
  {
    assert Payload(Deleted(level, file)) + rest == Varint(level) + (Varint(file) + rest);
    r := Deleted(0, 0);
    var l, n;
    ok, l, t := GetLevel(s, level, Varint(file) + rest);
    if ok {
      ok, n, t := GetVarint64(t, file, rest);
      r := Deleted(l, n);
    }
  }

  method ParseAdded(s: seq<byte>, ghost level: nat, ghost f: FileMetaData, ghost rest: seq<byte>) returns (ok: bool, r: Record, t: seq<byte>)
    ensures ok ==> |t| < |s|
    ensures s == Payload(Added(level, f)) + rest && Fits(Added(level, f)) ==>
              (ok <==> level < NUM_LEVELS) && (ok ==> r == Added(level, f) && t == rest)
  {
    ghost var d := LengthPrefixed(f.largest) + rest;
    ghost var c := LengthPrefixed(f.smallest) + d;
    ghost var b := Varint(f.fileSize) + c;
    ghost var a := Varint(f.number) + b;
    assert Payload(Added(level, f)) + rest == Varint(level) + a;
    r := Added(0, FileMetaData(0, 0, [], []));
    var l, number, size, smallest, largest;
    ok, l, t := GetLevel(s, level, a);
    if ok {
      ok, number, t := GetVarint64(t, f.number, b);
      if ok {
        ok, size, t := GetVarint64(t, f.fileSize, c);
        if ok {
          ok, smallest, t := GetLengthPrefixedSlice(t, f.smallest, d);
          if ok {
            ok, largest, t := GetLengthPrefixedSlice(t, f.largest, rest);
            r := Added(l, FileMetaData(number, size, smallest, largest));
          }
        }
      }
    }
  }

  /** What follows a tag. */
  method ParsePayload(tag: nat, s: seq<byte>, ghost r: Record, ghost rest: seq<byte>) returns (ok: bool, r': Record, t: seq<byte>)
    ensures ok ==> |t| < |s|
    ensures tag == TagOf(r) && s == Payload(r) + rest && Fits(r) ==> (ok <==> LevelOk(r)) && (ok ==> r' == r && t == rest)
  {
    if tag == COMPARATOR {
      var name;
      ok, name, t := GetLengthPrefixedSlice(s, if r.Name? then r.name else [], rest);
      r' := Name(name);
    } else if IsNumberTag(tag) {
      var n;
      ok, n, t := GetVarint64(s, if r.Number? then r.n else 0, rest);
      r' := Number(tag, n);
    } else if tag == COMPACT_POINTER {
      ok, r', t := ParsePointer(s, if r.Pointer? then r.level else 0, if r.Pointer? then r.key else [], rest);
    } else if tag == DELETED_FILE {
      ok, r', t := ParseDeleted(s, if r.Deleted? then r.level else 0, if r.Deleted? then r.file else 0, rest);
    } else if tag == NEW_FILE {
      ok, r', t := ParseAdded(s, if r.Added? then r.level else 0, if r.Added? then r.f else FileMetaData(0, 0, [], []), rest);
    } else {
      ok, r', t := false, Number(LOG_NUMBER, 0), s;
    }
  }

  // ---------------------------------------------------------------------- encoding

  /** An edit whose values fit the widths of their types, as they do in the program. */
  ghost predicate EditFits(e: Edit) {
    InOrder(e.deletedFiles) && forall i :: 0 <= i < |Records(e)| ==> Fits(Records(e)[i])
  }

  /** A field that is only written when it is set. */
  method PutNumber(dst: seq<byte>, tag: nat, n: Option<nat>) returns (dst': seq<byte>)
    requires tag < 128
    ensures dst' == dst + AllBytes(NumberRecord(tag, n))
  {
    dst' := dst;
    if n.Some? {
      OneRecord(Number(tag, n.value));
      dst' := PutVarint32(dst', tag);
      dst' := PutVarint64(dst', n.value);
      Regroup(dst, Varint(tag), Varint(n.value));
    }
  }

  method PutPointer(dst: seq<byte>, level: nat, key: seq<byte>) returns (dst': seq<byte>)
    requires Fits(Pointer(level, key))
    ensures dst' == dst + RecordBytes(Pointer(level, key))
  {
    dst' := PutVarint32(dst, COMPACT_POINTER);
    dst' := PutVarint32(dst', level);
    dst' := PutLengthPrefixedSlice(dst', key);
    Nest(dst, Varint(COMPACT_POINTER), Varint(level), LengthPrefixed(key));
  }

  method PutDeletedFile(dst: seq<byte>, level: nat, file: nat) returns (dst': seq<byte>)
    requires Fits(Deleted(level, file))
    ensures dst' == dst + RecordBytes(Deleted(level, file))
  {
    dst' := PutVarint32(dst, DELETED_FILE);
    dst' := PutVarint32(dst', level);
    dst' := PutVarint64(dst', file);
    Nest(dst, Varint(DELETED_FILE), Varint(level), Varint(file));
  }

  method PutNewFile(dst: seq<byte>, level: nat, f: FileMetaData) returns (dst': seq<byte>)
    requires Fits(Added(level, f))
    ensures dst' == dst + RecordBytes(Added(level, f))
  {
    dst' := PutVarint32(dst, NEW_FILE);
    dst' := PutVarint32(dst', level);
    ghost var head := dst';
    dst' := PutVarint64(dst', f.number);
    dst' := PutVarint64(dst', f.fileSize);
    ghost var mid := dst';
    dst' := PutLengthPrefixedSlice(dst', f.smallest);
    dst' := PutLengthPrefixedSlice(dst', f.largest);
    Regroup(mid, LengthPrefixed(f.smallest), LengthPrefixed(f.largest));
    Nest(head, Varint(f.number), Varint(f.fileSize), LengthPrefixed(f.smallest) + LengthPrefixed(f.largest));
    Nest(dst, Varint(NEW_FILE), Varint(level), FileBytes(f));
  }

  lemma Regroup(a: seq<byte>, b: seq<byte>, c: seq<byte>)
    ensures (a + b) + c == a + (b + c)
  {}

  lemma Nest(a: seq<byte>, b: seq<byte>, c: seq<byte>, d: seq<byte>)
    ensures ((a + b) + c) + d == a + (b + (c + d))
  {
    Regroup(a + b, c, d);
    Regroup(a, b, c + d);
  }

  lemma FourParts(dst: seq<byte>, a: seq<Record>, b: seq<Record>, c: seq<Record>, d: seq<Record>)
    ensures (((dst + AllBytes(a)) + AllBytes(b)) + AllBytes(c)) + AllBytes(d) == dst + AllBytes(a + b + c + d)
  {
    BytesAppend(a + b + c, d);
    BytesAppend(a + b, c);
    BytesAppend(a, b);
    Regroup(dst, AllBytes(a), AllBytes(b));
    Regroup(dst, AllBytes(a + b), AllBytes(c));
    Regroup(dst, AllBytes(a + b + c), AllBytes(d));
  }

  /** What is still to be written, after one more record. */
  lemma OneWritten(was: seq<byte>, r: Record, rs: seq<Record>)
    requires rs != [] && rs[0] == r
    ensures (was + RecordBytes(r)) + AllBytes(rs[1..]) == was + AllBytes(rs)
  {
    Regroup(was, RecordBytes(r), AllBytes(rs[1..]));
  }

  method PutPointers(dst: seq<byte>, ps: seq<(nat, seq<byte>)>) returns (dst': seq<byte>)
    requires forall i :: 0 <= i < |ps| ==> Fits(Pointer(ps[i].0, ps[i].1))
    ensures dst' == dst + AllBytes(PointerRecords(ps))
  {
    dst' := dst;
    for i := 0 to |ps|
      invariant dst' + AllBytes(PointerRecords(ps[i..])) == dst + AllBytes(PointerRecords(ps))
    {
      assert ps[i..][1..] == ps[i + 1..];
      OneWritten(dst', Pointer(ps[i].0, ps[i].1), PointerRecords(ps[i..]));
      dst' := PutPointer(dst', ps[i].0, ps[i].1);
    }
  }

  method PutDeleted(dst: seq<byte>, ds: seq<(nat, nat)>) returns (dst': seq<byte>)
    requires forall i :: 0 <= i < |ds| ==> Fits(Deleted(ds[i].0, ds[i].1))
    ensures dst' == dst + AllBytes(DeletedRecords(ds))
  {
    dst' := dst;
    for i := 0 to |ds|
      invariant dst' + AllBytes(DeletedRecords(ds[i..])) == dst + AllBytes(DeletedRecords(ds))
    {
      assert ds[i..][1..] == ds[i + 1..];
      OneWritten(dst', Deleted(ds[i].0, ds[i].1), DeletedRecords(ds[i..]));
      dst' := PutDeletedFile(dst', ds[i].0, ds[i].1);
    }
  }

  method PutAdded(dst: seq<byte>, fs: seq<(nat, FileMetaData)>) returns (dst': seq<byte>)
    requires forall i :: 0 <= i < |fs| ==> Fits(Added(fs[i].0, fs[i].1))
    ensures dst' == dst + AllBytes(AddedRecords(fs))
  {
    dst' := dst;
    for i := 0 to |fs|
      invariant dst' + AllBytes(AddedRecords(fs[i..])) == dst + AllBytes(AddedRecords(fs))
    {
      assert fs[i..][1..] == fs[i + 1..];
      OneWritten(dst', Added(fs[i].0, fs[i].1), AddedRecords(fs[i..]));
      dst' := PutNewFile(dst', fs[i].0, fs[i].1);
    }
  }

  /** The parts of the records fit when all of them do. */
  lemma PartsFit(e: Edit)
    requires EditFits(e)
    ensures forall i :: 0 <= i < |e.compactPointers| ==> Fits(Pointer(e.compactPointers[i].0, e.compactPointers[i].1))
    ensures forall i :: 0 <= i < |e.deletedFiles| ==> Fits(Deleted(e.deletedFiles[i].0, e.deletedFiles[i].1))
    ensures forall i :: 0 <= i < |e.newFiles| ==> Fits(Added(e.newFiles[i].0, e.newFiles[i].1))
    ensures e.comparator.Some? ==> |e.comparator.value| < UINT32
  {
    RecordAt(e.compactPointers, e.deletedFiles, e.newFiles);
    var a, b, d := Scalars(e), PointerRecords(e.compactPointers), DeletedRecords(e.deletedFiles);
    var rs := Records(e);
    forall i | 0 <= i < |e.compactPointers| ensures Fits(Pointer(e.compactPointers[i].0, e.compactPointers[i].1)) {
      assert rs[|a| + i] == b[i];
    }
    forall i | 0 <= i < |e.deletedFiles| ensures Fits(Deleted(e.deletedFiles[i].0, e.deletedFiles[i].1)) {
      assert rs[|a| + |b| + i] == d[i];
    }
    forall i | 0 <= i < |e.newFiles| ensures Fits(Added(e.newFiles[i].0, e.newFiles[i].1)) {
      assert rs[|a| + |b| + |d| + i] == AddedRecords(e.newFiles)[i];
    }
    if e.comparator.Some? {
      assert rs[0] == Name(e.comparator.value);
    }
  }

  lemma {:induction false} RecordAt(ps: seq<(nat, seq<byte>)>, ds: seq<(nat, nat)>, fs: seq<(nat, FileMetaData)>)
    ensures |PointerRecords(ps)| == |ps| && forall i :: 0 <= i < |ps| ==> PointerRecords(ps)[i] == Pointer(ps[i].0, ps[i].1)
    ensures |DeletedRecords(ds)| == |ds| && forall i :: 0 <= i < |ds| ==> DeletedRecords(ds)[i] == Deleted(ds[i].0, ds[i].1)
    ensures |AddedRecords(fs)| == |fs| && forall i :: 0 <= i < |fs| ==> AddedRecords(fs)[i] == Added(fs[i].0, fs[i].1)
    decreases |ps| + |ds| + |fs|
  {
    if ps != [] || ds != [] || fs != [] {
      RecordAt(if ps == [] then [] else ps[1..], if ds == [] then [] else ds[1..], if fs == [] then [] else fs[1..]);
    }
  }

  /** Records from k on are still to be read, and lead to the target. */
  ghost predicate Reached(e: Edit, input: seq<byte>, rs: seq<Record>, k: nat, target: Edit) {
    k <= |rs| && input == AllBytes(rs[k..]) && ApplyAll(e, rs[k..]) == target
  }

  lemma NextRecord(e: Edit, input: seq<byte>, rs: seq<Record>, k: nat, target: Edit)
    requires Reached(e, input, rs, k, target)
    ensures input == [] ==> k == |rs| && e == target
    ensures input != [] ==> k < |rs| && input == RecordBytes(rs[k]) + AllBytes(rs[k + 1..])
    ensures input != [] ==> Reached(Apply(e, rs[k]), AllBytes(rs[k + 1..]), rs, k + 1, target)
  {
    if k < |rs| {
      assert rs[k..][1..] == rs[k + 1..];
    }
  }

  class VersionEdit {
    var comparator: Option<seq<byte>>
    var logNumber: Option<nat>
    var prevLogNumber: Option<nat>
    var nextFileNumber: Option<nat>
    var lastSequence: Option<nat>
    var compactPointers: seq<(nat, seq<byte>)>
    var deletedFiles: seq<(nat, nat)>
    var newFiles: seq<(nat, FileMetaData)>

    constructor ()
      ensures View() == FRESH
    {
      comparator, logNumber, prevLogNumber, nextFileNumber, lastSequence := None, None, None, None, None;
      compactPointers, deletedFiles, newFiles := [], [], [];
    }

    ghost function View(): Edit
      reads this
    {
      Edit(comparator, logNumber, prevLogNumber, nextFileNumber, lastSequence, compactPointers, deletedFiles, newFiles)
    }

    method Clear()
      modifies this
      ensures View() == Cleared(old(View()))
    {
      comparator, logNumber, prevLogNumber, nextFileNumber, lastSequence := None, None, None, None, None;
      deletedFiles, newFiles := [], [];
    }

    /** EncodeTo: the scalar fields, then the three lists. */
    method EncodeTo(dst: seq<byte>) returns (dst': seq<byte>)
      requires EditFits(View())
      ensures dst' == dst + AllBytes(Records(View()))
    {
      PartsFit(View());
      dst' := EncodeScalars(dst);
      dst' := PutPointers(dst', compactPointers);
      dst' := PutDeleted(dst', deletedFiles);
      dst' := PutAdded(dst', newFiles);
      FourParts(dst, Scalars(View()), PointerRecords(compactPointers), DeletedRecords(deletedFiles), AddedRecords(newFiles));
    }

    method EncodeName(dst: seq<byte>) returns (dst': seq<byte>)
      requires comparator.Some? ==> |comparator.value| < UINT32
      ensures dst' == dst + AllBytes(if comparator.Some? then [Name(comparator.value)] else [])
    {
      dst' := dst;
      if comparator.Some? {
        OneRecord(Name(comparator.value));
        dst' := PutVarint32(dst', COMPARATOR);
        dst' := PutLengthPrefixedSlice(dst', comparator.value);
        Regroup(dst, Varint(COMPARATOR), LengthPrefixed(comparator.value));
      }
    }

    method EncodeScalars(dst: seq<byte>) returns (dst': seq<byte>)
      requires comparator.Some? ==> |comparator.value| < UINT32
      ensures dst' == dst + AllBytes(Scalars(View()))
    {
      ghost var name := if comparator.Some? then [Name(comparator.value)] else [];
      ghost var a, b := NumberRecord(LOG_NUMBER, logNumber), NumberRecord(PREV_LOG_NUMBER, prevLogNumber);
      ghost var d, f := NumberRecord(NEXT_FILE_NUMBER, nextFileNumber), NumberRecord(LAST_SEQUENCE, lastSequence);
      dst' := EncodeName(dst);
      dst' := PutNumber(dst', LOG_NUMBER, logNumber);
      dst' := PutNumber(dst', PREV_LOG_NUMBER, prevLogNumber);
      dst' := PutNumber(dst', NEXT_FILE_NUMBER, nextFileNumber);
      FourParts(dst, name, a, b, d);
      dst' := PutNumber(dst', LAST_SEQUENCE, lastSequence);
      BytesAppend(name + a + b + d, f);
      Regroup(dst, AllBytes(name + a + b + d), AllBytes(f));
    }

    method Take(r: Record)
      modifies this
      ensures View() == Apply(old(View()), r)
    {
      match r
      case Name(name) => comparator := Some(name);
      case Number(tag, n) =>
        if tag == LOG_NUMBER {
          logNumber := Some(n);
        } else if tag == PREV_LOG_NUMBER {
          prevLogNumber := Some(n);
        } else if tag == NEXT_FILE_NUMBER {
          nextFileNumber := Some(n);
        } else {
          lastSequence := Some(n);
        }
      case Pointer(level, key) => compactPointers := compactPointers + [(level, key)];
      case Deleted(level, file) => deletedFiles := InsertPair(deletedFiles, (level, file));
      case Added(level, f) => newFiles := newFiles + [(level, f)];
    }

    /** One turn of the loop of DecodeFrom. */
    method DecodeRecord(s: seq<byte>, ghost r: Record, ghost rest: seq<byte>) returns (ok: bool, t: seq<byte>)
      modifies this
      ensures ok ==> |t| < |s|
      ensures s == RecordBytes(r) + rest && Fits(r) ==> (ok <==> LevelOk(r)) && (ok ==> View() == Apply(old(View()), r) && t == rest)
    {
      Regroup(Varint(TagOf(r)), Payload(r), rest);
      var tag, r';
      ok, tag, t := GetVarint32(s, TagOf(r), Payload(r) + rest);
      if ok {
        ok, r', t := ParsePayload(tag, t, r, rest);
        if ok {
          Take(r');
        }
      }
    }

    /** DecodeFrom: of bytes that are the records rs, all are applied, unless one names a
        level that does not exist, which is an error. */
    method DecodeFrom(src: seq<byte>, ghost rs: seq<Record>) returns (ok: bool)
      modifies this
      ensures src == AllBytes(rs) && (forall i :: 0 <= i < |rs| ==> Fits(rs[i])) ==>
                (ok <==> forall i :: 0 <= i < |rs| ==> LevelOk(rs[i]))
                && (ok ==> View() == ApplyAll(Cleared(old(View())), rs))
    {
      Clear();
      var input := src;
      ghost var seen := src == AllBytes(rs) && forall i :: 0 <= i < |rs| ==> Fits(rs[i]);
      ghost var k := 0;
      ok := true;
      assert rs[0..] == rs;
      while ok && |input| > 0
        invariant seen ==> k <= |rs| && (!ok ==> k < |rs| && !LevelOk(rs[k]))
        invariant seen && ok ==> Reached(View(), input, rs, k, ApplyAll(Cleared(old(View())), rs))
        invariant seen && ok ==> forall i :: 0 <= i < k ==> LevelOk(rs[i])
        decreases ok, |input|
      {
        ghost var r, rest := Number(LOG_NUMBER, 0), [];
        if seen {
          NextRecord(View(), input, rs, k, ApplyAll(Cleared(old(View())), rs));
          r, rest := rs[k], AllBytes(rs[k + 1..]);
        }
        ok, input := DecodeRecord(input, r, rest);
        if seen && ok {
          k := k + 1;
        }
      }
      if seen && ok {
        NextRecord(View(), input, rs, k, ApplyAll(Cleared(old(View())), rs));
      }
    }
  }

  /** Decoding undoes encoding exactly when every level of the edit exists and the edit
      decoded into had no compaction pointers: Clear leaves those. */
  method EncodeThenDecode(e: VersionEdit, into: VersionEdit) returns (ok: bool)
    requires e != into && EditFits(e.View())
    modifies into
    ensures ok <==> forall i :: 0 <= i < |Records(e.View())| ==> LevelOk(Records(e.View())[i])
    ensures ok ==> into.View() == e.View().(compactPointers := old(into.compactPointers) + e.compactPointers)
    ensures ok ==> (into.View() == e.View() <==> old(into.compactPointers) == [])
  {
    var bytes := e.EncodeTo([]);
    ghost var before, rs := into.View(), Records(e.View());
    assert [] + AllBytes(rs) == AllBytes(rs);
    RecordsMakeTheEdit(before, e.View());
    ok := into.DecodeFrom(bytes, rs);
    assert |before.compactPointers + e.compactPointers| == |before.compactPointers| + |e.compactPointers|;
  }
}
