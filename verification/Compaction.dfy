/** A running compaction: the Compaction object of db/version_set.cc and the
    merge loop DBImpl::DoCompactionWork. */
module Compaction {
  import opened Keys
  import opened Version
  import opened Drop

  function FileBytes(files: seq<File>, lo: nat, hi: nat): nat
    requires lo <= hi <= |files|
    decreases hi - lo
  {
    if lo == hi then 0 else files[lo].size + FileBytes(files, lo + 1, hi)
  }

  lemma {:induction false} FileBytesNext(files: seq<File>, lo: nat, hi: nat)
    requires lo <= hi < |files|
    ensures FileBytes(files, lo, hi + 1) == FileBytes(files, lo, hi) + files[hi].size
    decreases hi - lo
  {
    if lo < hi {
      FileBytesNext(files, lo + 1, hi);
    }
  }

  class Compaction {
    const level: nat
    const version: Levels           // input_version_
    const grandparents: seq<File>
    const maxOverlap: nat           // MaxGrandParentOverlapBytes
    const levelPtrs: array<nat>     // level_ptrs_
    var grandparentIndex: nat
    var seenKey: bool
    var overlappedBytes: nat

    constructor (level: nat, version: Levels, grandparents: seq<File>, maxOverlap: nat)
      requires Ranged(version)
      ensures this.level == level && this.version == version && this.grandparents == grandparents
      ensures this.maxOverlap == maxOverlap && fresh(levelPtrs)
      ensures Unused()
    {
      this.level, this.version, this.grandparents, this.maxOverlap := level, version, grandparents, maxOverlap;
      grandparentIndex, seenKey, overlappedBytes := 0, false, 0;
      levelPtrs := new nat[NUM_LEVELS](_ => 0);
    }

    /** Nothing read yet. */
    ghost predicate Unused()
      reads this, levelPtrs
    {
      && Ranged(version) && levelPtrs.Length == NUM_LEVELS
      && (forall m :: 0 <= m < NUM_LEVELS ==> levelPtrs[m] == 0)
      && grandparentIndex == 0 && !seenKey && overlappedBytes == 0
    }

    /** The cursors have skipped only files that end before u, so u may be asked
        for next. */
    ghost predicate Ready(u: UserKey)
      reads this, levelPtrs
    {
      && Ranged(version) && levelPtrs.Length == NUM_LEVELS
      && (forall m :: 0 <= m < NUM_LEVELS ==> levelPtrs[m] <= |version[m]|)
      && (forall m, i :: 0 <= m < NUM_LEVELS && 0 <= i < levelPtrs[m] ==> Less(version[m][i].largest.user, u))
    }

    lemma ReadyForLater(u: UserKey, w: UserKey)
      requires Ready(u) && !Less(w, u)
      ensures Ready(w)
    {}

    /** The forward-only scan agrees with the stateless one, as long as the keys
        asked for never decrease. */
    method IsBaseLevelForKey(u: UserKey) returns (base: bool)
      requires Ready(u)
      modifies levelPtrs
      ensures Ready(u)
      ensures base <==> BaseLevel(version, level + 2, u)
    {
      var lvl := level + 2;
      while lvl < NUM_LEVELS
        invariant Ready(u)
        invariant forall m, f :: level + 2 <= m < lvl && m < NUM_LEVELS && f in version[m] ==> !Covers(f, u)
      {
        var files := version[lvl];
        assert forall i :: 0 <= i < levelPtrs[lvl] ==> !Covers(files[i], u);
        while levelPtrs[lvl] < |files|
          invariant Ready(u)
          invariant forall i :: 0 <= i < levelPtrs[lvl] <= |files| ==> !Covers(files[i], u)
          decreases |files| - levelPtrs[lvl]
        {
          var f := files[levelPtrs[lvl]];
          if !Less(f.largest.user, u) {
            if !Less(u, f.smallest.user) {
              assert Covers(f, u);
              return false;
            }
            NotCoveredFrom(files, levelPtrs[lvl], u);
            break;
          }
          levelPtrs[lvl] := levelPtrs[lvl] + 1;
        }
        lvl := lvl + 1;
      }
      base := true;
    }

    lemma NotCoveredFrom(files: seq<File>, p: nat, u: UserKey)
      requires Disjoint(files) && AllBounded(files)
      requires p < |files| && Less(u, files[p].smallest.user)
      ensures forall i :: p <= i < |files| ==> !Covers(files[i], u)
    {
      LargestAscend(files);
    }

    /** Closes the current output once the grandparent bytes passed since the last
        cut exceed the limit. */
    method ShouldStopBefore(key: IKey) returns (stop: bool)
      requires grandparentIndex <= |grandparents|
      modifies this`grandparentIndex, this`seenKey, this`overlappedBytes
      ensures old(grandparentIndex) <= grandparentIndex <= |grandparents| && seenKey
      ensures forall i :: old(grandparentIndex) <= i < grandparentIndex ==> ILess(grandparents[i].largest, key)
      ensures grandparentIndex < |grandparents| ==> !ILess(grandparents[grandparentIndex].largest, key)
      ensures var passed := old(overlappedBytes) + (if old(seenKey) then FileBytes(grandparents, old(grandparentIndex), grandparentIndex) else 0);
              stop == (passed > maxOverlap) && overlappedBytes == if stop then 0 else passed
    {
      while grandparentIndex < |grandparents| && ILess(grandparents[grandparentIndex].largest, key)
        invariant old(grandparentIndex) <= grandparentIndex <= |grandparents| && seenKey == old(seenKey)
        invariant forall i :: old(grandparentIndex) <= i < grandparentIndex ==> ILess(grandparents[i].largest, key)
        invariant overlappedBytes == old(overlappedBytes) + (if seenKey then FileBytes(grandparents, old(grandparentIndex), grandparentIndex) else 0)
      {
        FileBytesNext(grandparents, old(grandparentIndex), grandparentIndex);
        if seenKey {
          overlappedBytes := overlappedBytes + grandparents[grandparentIndex].size;
        }
        grandparentIndex := grandparentIndex + 1;
      }
      seenKey := true;
      if overlappedBytes > maxOverlap {
        overlappedBytes := 0;
        stop := true;
      } else {
        stop := false;
      }
    }
  }

  // ------------------------------------------------------ where outputs are cut

  /** How many grandparents in a row end before the key. */
  ghost function Passed(gps: seq<File>, key: IKey): (n: nat)
    ensures n <= |gps|
  {
    if gps == [] || !ILess(gps[0].largest, key) then 0 else 1 + Passed(gps[1..], key)
  }

  lemma {:induction false} PassedIs(gps: seq<File>, key: IKey, n: nat)
    requires n <= |gps| && (forall i :: 0 <= i < n ==> ILess(gps[i].largest, key)) && (n < |gps| ==> !ILess(gps[n].largest, key))
    ensures Passed(gps, key) == n
  {
    if n > 0 {
      assert forall i :: 0 <= i < n - 1 ==> gps[1..][i] == gps[i + 1];
      PassedIs(gps[1..], key, n - 1);
    }
  }

  lemma {:induction false} PassedEndBefore(gps: seq<File>, key: IKey, i: nat)
    requires i < Passed(gps, key)
    ensures ILess(gps[i].largest, key)
  {
    if i > 0 {
      PassedEndBefore(gps[1..], key, i - 1);
    }
  }

  /** The bytes of the grandparents that end between two input keys. */
  ghost function BytesBetween(gps: seq<File>, a: IKey, b: IKey): nat {
    if Passed(gps, a) <= Passed(gps, b) then FileBytes(gps, Passed(gps, a), Passed(gps, b)) else 0
  }

  /** The last place up to i where the grandparents passed since the place before came to more than
      the limit; the beginning counts as one. */
  ghost function LastStop(gps: seq<File>, limit: nat, input: seq<Entry>, i: nat): (n: nat)
    requires i < |input|
    ensures n <= i
  {
    if i == 0 then 0
    else
      var last := LastStop(gps, limit, input, i - 1);
      if BytesBetween(gps, input[last].key, input[i].key) > limit then i else last
  }

  ghost predicate StopsAt(gps: seq<File>, limit: nat, input: seq<Entry>, i: nat)
    requires i < |input|
  {
    i > 0 && LastStop(gps, limit, input, i) == i
  }

  lemma {:induction false} FileBytesJoin(files: seq<File>, a: nat, b: nat, c: nat)
    requires a <= b <= c <= |files|
    ensures FileBytes(files, a, c) == FileBytes(files, a, b) + FileBytes(files, b, c)
    decreases b - a
  {
    if a < b {
      FileBytesJoin(files, a + 1, b, c);
    }
  }

  lemma {:induction false} PassedMore(gps: seq<File>, a: IKey, b: IKey)
    requires ILess(a, b)
    ensures Passed(gps, a) <= Passed(gps, b)
  {
    RanksDiffer();
    if gps != [] && ILess(gps[0].largest, a) {
      PassedMore(gps[1..], a, b);
    }
  }

  /** The cursor over the grandparents after the first i input entries. */
  ghost predicate Tracks(gps: seq<File>, limit: nat, input: seq<Entry>, i: nat, index: nat, seen: bool, bytes: nat)
    requires i <= |input|
  {
    && index <= |gps| && (seen <==> i > 0)
    && if i == 0 then index == 0 && bytes == 0
       else index == Passed(gps, input[i - 1].key) && bytes == BytesBetween(gps, input[LastStop(gps, limit, input, i - 1)].key, input[i - 1].key)
  }

  /** ShouldStopBefore stops where it should. */
  lemma TracksOn(gps: seq<File>, limit: nat, input: seq<Entry>, i: nat, index: nat, seen: bool, bytes: nat, index': nat, stop: bool, bytes': nat)
    requires Sorted(input) && i < |input| && Tracks(gps, limit, input, i, index, seen, bytes)
    requires index <= index' <= |gps| && forall j :: index <= j < index' ==> ILess(gps[j].largest, input[i].key)
    requires index' < |gps| ==> !ILess(gps[index'].largest, input[i].key)
    requires var passed := bytes + (if seen then FileBytes(gps, index, index') else 0);
             stop == (passed > limit) && bytes' == if stop then 0 else passed
    ensures Tracks(gps, limit, input, i + 1, index', true, bytes') && (stop <==> StopsAt(gps, limit, input, i))
  {
    if i == 0 {
      PassedIs(gps, input[0].key, index');
    } else {
      assert Before(input[i - 1].key, input[i].key);
      forall j | 0 <= j < index' ensures ILess(gps[j].largest, input[i].key) {
        if j < index {
          PassedEndBefore(gps, input[i - 1].key, j);
          RanksDiffer();
        }
      }
      PassedIs(gps, input[i].key, index');
      var last := LastStop(gps, limit, input, i - 1);
      if last < i - 1 {
        assert Before(input[last].key, input[i - 1].key);
        PassedMore(gps, input[last].key, input[i - 1].key);
      }
      FileBytesJoin(gps, Passed(gps, input[last].key), index, index');
    }
  }

  /** What the places of the cuts depend on. */
  datatype Rules = Rules(gps: seq<File>, limit: nat, fileSize: seq<Entry> -> nat, maxSize: nat)

  /** The first and the last input entry of an output. */
  datatype Mark = Mark(lo: nat, hi: nat)

  /** The entries are some of those from lo to hi, nothing is a reason to cut between them, and they
      came up to the size, if at all, with the last one. */
  ghost predicate Uncut(r: Rules, input: seq<Entry>, entries: seq<Entry>, m: Mark) {
    && m.lo <= m.hi < |input| && entries != [] && entries[0] == input[m.lo] && entries[|entries| - 1] == input[m.hi]
    && (forall i {:trigger StopsAt(r.gps, r.limit, input, i)} :: m.lo < i <= m.hi ==> !StopsAt(r.gps, r.limit, input, i))
    && (|entries| > 1 ==> r.fileSize(entries[..|entries| - 1]) < r.maxSize)
  }

  /** There is a reason to cut behind these entries and not behind input[upTo]. */
  ghost predicate Caused(r: Rules, input: seq<Entry>, entries: seq<Entry>, m: Mark, upTo: nat) {
    || r.fileSize(entries) >= r.maxSize
    || exists i {:trigger StopsAt(r.gps, r.limit, input, i)} :: m.hi < i <= upTo && i < |input| && StopsAt(r.gps, r.limit, input, i)
  }

  ghost predicate CutAt(r: Rules, input: seq<Entry>, files: seq<File>, marks: seq<Mark>, k: nat, upTo: nat)
    requires k < |files| == |marks|
  {
    && Uncut(r, input, files[k].entries, marks[k]) && files[k].size == r.fileSize(files[k].entries)
    && Caused(r, input, files[k].entries, marks[k], if k + 1 < |files| then marks[k + 1].lo else upTo)
  }

  ghost predicate AllCut(r: Rules, input: seq<Entry>, files: seq<File>, marks: seq<Mark>, upTo: nat) {
    |marks| == |files| && forall k {:trigger CutAt(r, input, files, marks, k, upTo)} :: 0 <= k < |files| ==> CutAt(r, input, files, marks, k, upTo)
  }

  /** The outputs so far, and the open one (`m` if there is one), after p input entries. */
  ghost predicate Cuts(r: Rules, input: seq<Entry>, files: seq<File>, cur: seq<Entry>, marks: seq<Mark>, m: Mark, p: nat) {
    && (cur != [] ==> Uncut(r, input, cur, m) && m.hi < p <= |input| && r.fileSize(cur) < r.maxSize && NoStops(r, input, m.hi, p))
    && AllCut(r, input, files, marks, if cur != [] then m.lo else p)
  }

  ghost predicate NoStops(r: Rules, input: seq<Entry>, hi: nat, p: nat)
    requires p <= |input|
  {
    forall i {:trigger StopsAt(r.gps, r.limit, input, i)} :: hi < i < p ==> !StopsAt(r.gps, r.limit, input, i)
  }

  lemma CausedLater(r: Rules, input: seq<Entry>, files: seq<File>, marks: seq<Mark>, p: nat, q: nat)
    requires AllCut(r, input, files, marks, p) && p <= q
    ensures AllCut(r, input, files, marks, q)
  {
    forall k | 0 <= k < |files| ensures CutAt(r, input, files, marks, k, q) {
      assert CutAt(r, input, files, marks, k, p);
    }
  }

  /** The next entry is dropped, */
  lemma CutsDropped(r: Rules, input: seq<Entry>, files: seq<File>, cur: seq<Entry>, marks: seq<Mark>, m: Mark, p: nat)
    requires Cuts(r, input, files, cur, marks, m, p) && p < |input| && (cur == [] || !StopsAt(r.gps, r.limit, input, p))
    ensures Cuts(r, input, files, cur, marks, m, p + 1)
  {
    if cur == [] {
      CausedLater(r, input, files, marks, p, p + 1);
    }
  }

  /** or added, */
  lemma CutsAdded(r: Rules, input: seq<Entry>, files: seq<File>, cur: seq<Entry>, marks: seq<Mark>, m: Mark, p: nat) returns (m': Mark)
    requires Cuts(r, input, files, cur, marks, m, p) && p < |input| && (cur == [] || !StopsAt(r.gps, r.limit, input, p))
    ensures Uncut(r, input, cur + [input[p]], m') && m'.hi == p && AllCut(r, input, files, marks, m'.lo)
  {
    m' := Mark(if cur == [] then p else m.lo, p);
    assert (cur + [input[p]])[..|cur|] == cur;
    forall i | m'.lo < i <= m'.hi ensures !StopsAt(r.gps, r.limit, input, i) {
      assert i <= m.hi || m.hi < i < p || i == p;
    }
  }

  /** and the open output is closed. */
  lemma CutsClosed(r: Rules, input: seq<Entry>, files: seq<File>, cur: seq<Entry>, marks: seq<Mark>, m: Mark, p: nat, f: File)
    requires AllCut(r, input, files, marks, m.lo) && Uncut(r, input, cur, m) && f.entries == cur && f.size == r.fileSize(cur)
    requires Caused(r, input, cur, m, p)
    ensures AllCut(r, input, files + [f], marks + [m], p)
  {
    var fs, ms := files + [f], marks + [m];
    forall k | 0 <= k < |fs| ensures CutAt(r, input, fs, ms, k, p) {
      if k < |files| {
        assert CutAt(r, input, files, marks, k, m.lo);
        assert ms[k] == marks[k] && (k + 1 < |files| ==> ms[k + 1] == marks[k + 1]);
      }
    }
  }

  /** Every output holds entries without a reason to cut between them, and behind every one but the
      last there is a reason. */
  ghost predicate WellCut(r: Rules, input: seq<Entry>, outputs: seq<File>) {
    exists marks {:trigger AllPlaced(r, input, outputs, marks)} :: AllPlaced(r, input, outputs, marks)
  }

  ghost predicate AllPlaced(r: Rules, input: seq<Entry>, outputs: seq<File>, marks: seq<Mark>) {
    |marks| == |outputs| && forall k {:trigger PlacedAt(r, input, outputs, marks, k)} :: 0 <= k < |outputs| ==> PlacedAt(r, input, outputs, marks, k)
  }

  ghost predicate PlacedAt(r: Rules, input: seq<Entry>, outputs: seq<File>, marks: seq<Mark>, k: nat)
    requires k < |outputs| == |marks|
  {
    && Uncut(r, input, outputs[k].entries, marks[k]) && outputs[k].size == r.fileSize(outputs[k].entries)
    && (k + 1 < |outputs| ==> Caused(r, input, outputs[k].entries, marks[k], marks[k + 1].lo))
  }

  lemma AllCutIsPlaced(r: Rules, input: seq<Entry>, files: seq<File>, marks: seq<Mark>, upTo: nat)
    requires AllCut(r, input, files, marks, upTo)
    ensures WellCut(r, input, files)
  {
    forall k | 0 <= k < |files| ensures PlacedAt(r, input, files, marks, k) {
      assert CutAt(r, input, files, marks, k, upTo);
    }
    assert AllPlaced(r, input, files, marks);
  }

  /** The input is used up, which needs no reason. */
  lemma LastIsPlaced(r: Rules, input: seq<Entry>, files: seq<File>, cur: seq<Entry>, marks: seq<Mark>, m: Mark, f: File)
    requires AllCut(r, input, files, marks, m.lo) && Uncut(r, input, cur, m) && f.entries == cur && f.size == r.fileSize(cur)
    ensures WellCut(r, input, files + [f])
  {
    var fs, ms := files + [f], marks + [m];
    forall k | 0 <= k < |fs| ensures PlacedAt(r, input, fs, ms, k) {
      if k < |files| {
        assert CutAt(r, input, files, marks, k, m.lo);
        assert ms[k] == marks[k] && (k + 1 < |files| ==> ms[k + 1] == marks[k + 1]);
      }
    }
    assert AllPlaced(r, input, fs, ms);
  }

  lemma {:induction false} SameStop(r: Rules, input: seq<Entry>, lo: nat, hi: nat)
    requires lo <= hi < |input|
    requires forall i {:trigger StopsAt(r.gps, r.limit, input, i)} :: lo < i <= hi ==> !StopsAt(r.gps, r.limit, input, i)
    ensures LastStop(r.gps, r.limit, input, hi) <= lo
    decreases hi
  {
    if lo < hi {
      SameStop(r, input, lo, hi - 1);
      assert !StopsAt(r.gps, r.limit, input, hi);
    }
  }

  /** So between the first and the last key of an output at most `limit` bytes of grandparents end:
      compacting it further will not be too expensive. */
  lemma OverlapIsBounded(r: Rules, input: seq<Entry>, outputs: seq<File>, o: File)
    requires Sorted(input) && WellCut(r, input, outputs) && o in outputs
    ensures o.entries != [] && BytesBetween(r.gps, o.entries[0].key, o.entries[|o.entries| - 1].key) <= r.limit
  {
    var marks: seq<Mark> :| AllPlaced(r, input, outputs, marks);
    var k :| 0 <= k < |outputs| && outputs[k] == o;
    assert PlacedAt(r, input, outputs, marks, k);
    var lo, hi := marks[k].lo, marks[k].hi;
    SameStop(r, input, lo, hi);
    WithinLimit(r, input, hi);
    LaterIsLess(r.gps, input, LastStop(r.gps, r.limit, input, hi), lo, hi);
  }

  lemma LaterIsLess(gps: seq<File>, input: seq<Entry>, last: nat, lo: nat, hi: nat)
    requires Sorted(input) && last <= lo <= hi < |input|
    ensures BytesBetween(gps, input[lo].key, input[hi].key) <= BytesBetween(gps, input[last].key, input[hi].key)
  {
    if last < lo < hi {
      assert Before(input[last].key, input[lo].key) && Before(input[lo].key, input[hi].key);
      PassedMore(gps, input[last].key, input[lo].key);
      PassedMore(gps, input[lo].key, input[hi].key);
      FileBytesJoin(gps, Passed(gps, input[last].key), Passed(gps, input[lo].key), Passed(gps, input[hi].key));
    }
  }

  lemma WithinLimit(r: Rules, input: seq<Entry>, i: nat)
    requires i < |input|
    ensures BytesBetween(r.gps, input[LastStop(r.gps, r.limit, input, i)].key, input[i].key) <= r.limit
  {}

  // ------------------------------------------------------------ the merge loop

  ghost function Flat(files: seq<File>): seq<Entry> {
    if files == [] then [] else Flat(files[..|files| - 1]) + files[|files| - 1].entries
  }

  lemma FlatAppend(files: seq<File>, f: File)
    ensures Flat(files + [f]) == Flat(files) + f.entries
  {
    assert (files + [f])[..|files|] == files;
  }

  lemma {:induction false} FlatMember(files: seq<File>, e: Entry)
    ensures e in Flat(files) <==> exists f :: f in files && e in f.entries
  {
    if files != [] {
      var front, last := files[..|files| - 1], files[|files| - 1];
      assert files == front + [last];
      FlatMember(front, e);
      assert last in files;
      assert forall f :: f in files <==> f in front || f == last;
    }
  }

  /** The output files finished so far and the one being built (`cur`). */
  ghost predicate Outputs(files: seq<File>, cur: seq<Entry>, firstNumber: nat) {
    && (forall i :: 0 <= i < |files| ==> GoodFile(files[i]) && files[i].number == firstNumber + i)
    && Disjoint(files)
    && Sorted(cur)
    && (cur != [] ==> forall f :: f in files ==> Before(f.largest, cur[0].key))
  }

  /** All entries written so far come before `key`. */
  ghost predicate AllBefore(files: seq<File>, cur: seq<Entry>, key: IKey) {
    && (forall f :: f in files ==> Before(f.largest, key))
    && (forall e :: e in cur ==> Before(e.key, key))
  }

  /** FinishCompactionOutputFile: the builder's entries become a table file. */
  function Finish(number: nat, cur: seq<Entry>, fileSize: seq<Entry> -> nat): File
    requires cur != []
  {
    File(number, fileSize(cur), cur[0].key, cur[|cur| - 1].key, cur)
  }

  /** The outputs are in order and hold, together with the open builder, `kept`. */
  ghost predicate Wrote(files: seq<File>, cur: seq<Entry>, firstNumber: nat, kept: seq<Entry>) {
    Outputs(files, cur, firstNumber) && Flat(files) + cur == kept
  }

  lemma FinishKeepsOutputs(files: seq<File>, cur: seq<Entry>, firstNumber: nat, f: File)
    requires Outputs(files, cur, firstNumber) && cur != []
    requires f.smallest == cur[0].key && f.largest == cur[|cur| - 1].key && f.entries == cur && f.number == firstNumber + |files|
    ensures Outputs(files + [f], [], firstNumber)
  {
    forall i | 0 <= i < |files| ensures Precedes(files[i], f) {
      assert files[i] in files;
    }
    assert GoodFile(f);
  }

  lemma FinishStaysBefore(files: seq<File>, cur: seq<Entry>, f: File, key: IKey)
    requires AllBefore(files, cur, key) && cur != [] && f.largest == cur[|cur| - 1].key
    ensures AllBefore(files + [f], [], key)
  {
    assert forall g :: g in files + [f] <==> g in files || g == f;
  }

  method FinishCompactionOutputFile(files: seq<File>, cur: seq<Entry>, firstNumber: nat, fileSize: seq<Entry> -> nat, ghost kept: seq<Entry>)
    returns (r: seq<File>)
    requires Wrote(files, cur, firstNumber, kept) && cur != []
    ensures Wrote(r, [], firstNumber, kept)
    ensures forall key :: AllBefore(files, cur, key) ==> AllBefore(r, [], key)
    ensures r == files + [Finish(firstNumber + |files|, cur, fileSize)]
  {
    r := files + [Finish(firstNumber + |files|, cur, fileSize)];
    FinishKeepsAll(files, cur, firstNumber, r[|files|], kept);
  }

  lemma FinishKeepsAll(files: seq<File>, cur: seq<Entry>, firstNumber: nat, f: File, kept: seq<Entry>)
    requires Wrote(files, cur, firstNumber, kept) && cur != []
    requires f.smallest == cur[0].key && f.largest == cur[|cur| - 1].key && f.entries == cur && f.number == firstNumber + |files|
    ensures Wrote(files + [f], [], firstNumber, kept)
    ensures forall key :: AllBefore(files, cur, key) ==> AllBefore(files + [f], [], key)
  {
    FlatAppend(files, f);
    FinishKeepsOutputs(files, cur, firstNumber, f);
    assert Flat(files + [f]) + [] == Flat(files) + cur;
    forall key | AllBefore(files, cur, key) ensures AllBefore(files + [f], [], key) {
      FinishStaysBefore(files, cur, f, key);
    }
  }

  lemma AddKeepsOrder(files: seq<File>, cur: seq<Entry>, firstNumber: nat, kept: seq<Entry>, e: Entry)
    requires Wrote(files, cur, firstNumber, kept) && AllBefore(files, cur, e.key)
    ensures Wrote(files, cur + [e], firstNumber, kept + [e])
  {
    forall i, j | 0 <= i < j < |cur + [e]| ensures Before((cur + [e])[i].key, (cur + [e])[j].key) {
      assert i < |cur| ==> cur[i] in cur;
    }
    assert Flat(files) + (cur + [e]) == (Flat(files) + cur) + [e];
  }

  lemma NextIsLater(files: seq<File>, cur: seq<Entry>, input: seq<Entry>, i: nat, more: seq<Entry>)
    requires Sorted(input) && i + 1 < |input| && AllBefore(files, cur, input[i].key)
    requires more == cur || more == cur + [input[i]]
    ensures AllBefore(files, more, input[i + 1].key)
  {
    assert Before(input[i].key, input[i + 1].key);
    RanksDiffer();
  }

  /** One turn of the loop decides whether input[i] is dropped. */
  method Decide(c: Compaction, input: seq<Entry>, i: nat, snap: nat, currentUserKey: Option<UserKey>, lastSequenceForKey: nat)
    returns (drop: bool)
    requires i < |input| && c.Ready(input[i].key.user)
    requires currentUserKey == if i == 0 then None else Some(input[i - 1].key.user)
    requires i > 0 ==> lastSequenceForKey == input[i - 1].key.seqno
    modifies c.levelPtrs
    ensures c.Ready(input[i].key.user)
    ensures drop <==> Dropped(input, i, snap, c.version, c.level + 2)
  {
    var e := input[i];
    drop := false;
    var last := lastSequenceForKey;
    if currentUserKey != Some(e.key.user) {
      last := MAX_SEQUENCE;  // first occurrence of this user key
    }
    if last <= snap {
      drop := true;
    } else if e.key.kind == Deletion && e.key.seqno <= snap {
      drop := c.IsBaseLevelForKey(e.key.user);
    }
  }

  /** Adds a kept entry to the open output and closes the output once it is big
      enough. */
  method AddToOutput(files: seq<File>, cur: seq<Entry>, e: Entry, firstNumber: nat, fileSize: seq<Entry> -> nat,
                     maxOutputFileSize: nat, ghost kept: seq<Entry>)
    returns (files': seq<File>, cur': seq<Entry>)
    requires Wrote(files, cur, firstNumber, kept) && AllBefore(files, cur, e.key)
    ensures Wrote(files', cur', firstNumber, kept + [e])
    ensures forall key :: AllBefore(files, cur + [e], key) ==> AllBefore(files', cur', key)
    ensures if fileSize(cur + [e]) >= maxOutputFileSize then cur' == [] && files' == files + [Finish(firstNumber + |files|, cur + [e], fileSize)]
            else cur' == cur + [e] && files' == files
  {
    AddKeepsOrder(files, cur, firstNumber, kept, e);
    files', cur' := files, cur + [e];
    if fileSize(cur') >= maxOutputFileSize {
      files' := FinishCompactionOutputFile(files', cur', firstNumber, fileSize, kept + [e]);
      cur' := [];
    }
  }

  /** The cursor over the grandparents has seen the first i keys. */
  ghost predicate Tracked(c: Compaction, input: seq<Entry>, i: nat)
    requires i <= |input|
    reads c
  {
    Tracks(c.grandparents, c.maxOverlap, input, i, c.grandparentIndex, c.seenKey, c.overlappedBytes)
  }

  /** Does the key of the next entry call for a cut? */
  method StopBefore(c: Compaction, input: seq<Entry>, i: nat) returns (stop: bool)
    requires Sorted(input) && i < |input| && Tracked(c, input, i)
    modifies c`grandparentIndex, c`seenKey, c`overlappedBytes
    ensures Tracked(c, input, i + 1) && (stop <==> StopsAt(c.grandparents, c.maxOverlap, input, i))
  {
    ghost var index, seen, bytes := c.grandparentIndex, c.seenKey, c.overlappedBytes;
    stop := c.ShouldStopBefore(input[i].key);
    TracksOn(c.grandparents, c.maxOverlap, input, i, index, seen, bytes, c.grandparentIndex, stop, c.overlappedBytes);
  }

  /** The outputs are in order, hold what is kept of the first i entries, and are cut where they
      should be. */
  ghost predicate Written(r: Rules, input: seq<Entry>, files: seq<File>, cur: seq<Entry>, firstNumber: nat, kept: seq<Entry>, marks: seq<Mark>, m: Mark, i: nat) {
    && Wrote(files, cur, firstNumber, kept) && Cuts(r, input, files, cur, marks, m, i)
    && (i < |input| ==> AllBefore(files, cur, input[i].key))
  }

  /** Closes the open output where that is called for. */
  method CutBefore(stop: bool, ghost r: Rules, ghost input: seq<Entry>, files: seq<File>, cur: seq<Entry>, firstNumber: nat, fileSize: seq<Entry> -> nat,
                   ghost kept: seq<Entry>, ghost marks: seq<Mark>, ghost m: Mark, ghost i: nat)
    returns (files': seq<File>, cur': seq<Entry>, ghost marks': seq<Mark>)
    requires Written(r, input, files, cur, firstNumber, kept, marks, m, i) && i < |input|
    requires r.fileSize == fileSize && (stop <==> StopsAt(r.gps, r.limit, input, i))
    ensures Written(r, input, files', cur', firstNumber, kept, marks', m, i) && (cur' == [] || !StopsAt(r.gps, r.limit, input, i))
  {
    files', cur', marks' := files, cur, marks;
    if stop && cur != [] {
      files' := FinishCompactionOutputFile(files, cur, firstNumber, fileSize, kept);
      CutsClosed(r, input, files, cur, marks, m, i, files'[|files|]);
      cur', marks' := [], marks + [m];
    }
  }

  lemma DropWritten(r: Rules, input: seq<Entry>, files: seq<File>, cur: seq<Entry>, firstNumber: nat, kept: seq<Entry>, marks: seq<Mark>, m: Mark, i: nat)
    requires Written(r, input, files, cur, firstNumber, kept, marks, m, i) && i < |input| && Sorted(input)
    requires cur == [] || !StopsAt(r.gps, r.limit, input, i)
    ensures Written(r, input, files, cur, firstNumber, kept, marks, m, i + 1)
  {
    CutsDropped(r, input, files, cur, marks, m, i);
    if i + 1 < |input| {
      NextIsLater(files, cur, input, i, cur);
    }
  }

  /** The entry is in the open output, */
  lemma OpenWritten(r: Rules, input: seq<Entry>, files: seq<File>, cur: seq<Entry>, firstNumber: nat, kept: seq<Entry>, marks: seq<Mark>, m: Mark, i: nat)
    requires i < |input| && Wrote(files, cur + [input[i]], firstNumber, kept) && (i + 1 < |input| ==> AllBefore(files, cur + [input[i]], input[i + 1].key))
    requires Uncut(r, input, cur + [input[i]], m) && m.hi == i && AllCut(r, input, files, marks, m.lo) && r.fileSize(cur + [input[i]]) < r.maxSize
    ensures Written(r, input, files, cur + [input[i]], firstNumber, kept, marks, m, i + 1)
  {}

  /** or that has been closed. */
  lemma ClosedWritten(r: Rules, input: seq<Entry>, files: seq<File>, cur: seq<Entry>, firstNumber: nat, kept: seq<Entry>, marks: seq<Mark>, m: Mark, i: nat, f: File)
    requires i < |input| && Wrote(files + [f], [], firstNumber, kept) && (i + 1 < |input| ==> AllBefore(files + [f], [], input[i + 1].key))
    requires Uncut(r, input, cur, m) && AllCut(r, input, files, marks, m.lo) && r.fileSize(cur) >= r.maxSize && f.entries == cur && f.size == r.fileSize(cur)
    ensures Written(r, input, files + [f], [], firstNumber, kept, marks + [m], m, i + 1)
  {
    CutsClosed(r, input, files, cur, marks, m, i + 1, f);
  }

  /** Adds the entry to the open output, and closes that once it is big enough. */
  method AddWritten(ghost r: Rules, input: seq<Entry>, files: seq<File>, cur: seq<Entry>, firstNumber: nat, fileSize: seq<Entry> -> nat, maxOutputFileSize: nat,
                    ghost kept: seq<Entry>, ghost marks: seq<Mark>, ghost m: Mark, i: nat)
    returns (files': seq<File>, cur': seq<Entry>, ghost marks': seq<Mark>, ghost m': Mark)
    requires Written(r, input, files, cur, firstNumber, kept, marks, m, i) && i < |input| && Sorted(input)
    requires r.fileSize == fileSize && r.maxSize == maxOutputFileSize && (cur == [] || !StopsAt(r.gps, r.limit, input, i))
    ensures Written(r, input, files', cur', firstNumber, kept + [input[i]], marks', m', i + 1)
  {
    marks' := marks;
    m' := CutsAdded(r, input, files, cur, marks, m, i);
    if i + 1 < |input| {
      NextIsLater(files, cur, input, i, cur + [input[i]]);
    }
    files', cur' := AddToOutput(files, cur, input[i], firstNumber, fileSize, maxOutputFileSize, kept);
    if cur' == [] {
      ClosedWritten(r, input, files, cur + [input[i]], firstNumber, kept + [input[i]], marks, m', i, files'[|files|]);
      marks' := marks + [m'];
    } else {
      OpenWritten(r, input, files, cur, firstNumber, kept + [input[i]], marks, m', i);
    }
  }

  /** One turn of the loop. */
  method ProcessEntry(c: Compaction, input: seq<Entry>, i: nat, snap: nat, fileSize: seq<Entry> -> nat,
                      maxOutputFileSize: nat, firstNumber: nat, currentUserKey: Option<UserKey>, lastSequenceForKey: nat,
                      files: seq<File>, cur: seq<Entry>, ghost r: Rules, ghost kept: seq<Entry>, ghost marks: seq<Mark>, ghost m: Mark)
    returns (files': seq<File>, cur': seq<Entry>, ghost kept': seq<Entry>, ghost marks': seq<Mark>, ghost m': Mark)
    requires Sorted(input) && i < |input| && c.Ready(input[i].key.user) && Tracked(c, input, i)
    requires currentUserKey == if i == 0 then None else Some(input[i - 1].key.user)
    requires i > 0 ==> lastSequenceForKey == input[i - 1].key.seqno
    requires r == Rules(c.grandparents, c.maxOverlap, fileSize, maxOutputFileSize)
    requires Written(r, input, files, cur, firstNumber, kept, marks, m, i) && kept == Kept(input, i, snap, c.version, c.level + 2)
    modifies c, c.levelPtrs
    ensures Tracked(c, input, i + 1) && (i + 1 < |input| ==> c.Ready(input[i + 1].key.user))
    ensures Written(r, input, files', cur', firstNumber, kept', marks', m', i + 1) && kept' == Kept(input, i + 1, snap, c.version, c.level + 2)
  {
    var stop := StopBefore(c, input, i);
    m', kept' := m, kept;
    files', cur', marks' := CutBefore(stop, r, input, files, cur, firstNumber, fileSize, kept, marks, m, i);
    var drop := Decide(c, input, i, snap, currentUserKey, lastSequenceForKey);
    if i + 1 < |input| {
      assert Before(input[i].key, input[i + 1].key);
      c.ReadyForLater(input[i].key.user, input[i + 1].key.user);
    }
    if drop {
      DropWritten(r, input, files', cur', firstNumber, kept, marks', m', i);
    } else {
      files', cur', marks', m' := AddWritten(r, input, files', cur', firstNumber, fileSize, maxOutputFileSize, kept, marks', m', i);
      kept' := kept + [input[i]];
    }
  }

  /** The loop of DoCompactionWork over the merged input.  Whatever the places
      where outputs are cut, their entries are exactly the kept ones. */
  method DoCompactionWork(c: Compaction, input: seq<Entry>, snap: nat, fileSize: seq<Entry> -> nat,
                          maxOutputFileSize: nat, firstNumber: nat)
    returns (outputs: seq<File>)
    requires Sorted(input) && c.Unused()
    modifies c, c.levelPtrs
    ensures Flat(outputs) == Kept(input, |input|, snap, c.version, c.level + 2)
    ensures Outputs(outputs, [], firstNumber)
    ensures WellCut(Rules(c.grandparents, c.maxOverlap, fileSize, maxOutputFileSize), input, outputs)
  {
    outputs := [];
    ghost var r, kept, marks, m := Rules(c.grandparents, c.maxOverlap, fileSize, maxOutputFileSize), [], [], Mark(0, 0);
    var cur: seq<Entry> := [];       // the entries of compact->builder
    var currentUserKey: Option<UserKey> := None;
    var lastSequenceForKey := MAX_SEQUENCE;
    var i := 0;
    assert |input| > 0 ==> c.Ready(input[0].key.user);
    while i < |input|
      invariant i <= |input| && Tracked(c, input, i)
      invariant i < |input| ==> c.Ready(input[i].key.user)
      invariant currentUserKey == if i == 0 then None else Some(input[i - 1].key.user)
      invariant i > 0 ==> lastSequenceForKey == input[i - 1].key.seqno
      invariant Written(r, input, outputs, cur, firstNumber, kept, marks, m, i) && kept == Kept(input, i, snap, c.version, c.level + 2)
    {
      outputs, cur, kept, marks, m := ProcessEntry(c, input, i, snap, fileSize, maxOutputFileSize, firstNumber,
                                             currentUserKey, lastSequenceForKey, outputs, cur, r, kept, marks, m);
      currentUserKey, lastSequenceForKey := Some(input[i].key.user), input[i].key.seqno;
      i := i + 1;
    }
    outputs := FinishLast(r, input, outputs, cur, firstNumber, fileSize, kept, marks, m, i);
  }

  /** The last output is closed at the end of the input. */
  method FinishLast(ghost r: Rules, ghost input: seq<Entry>, files: seq<File>, cur: seq<Entry>, firstNumber: nat, fileSize: seq<Entry> -> nat,
                    ghost kept: seq<Entry>, ghost marks: seq<Mark>, ghost m: Mark, ghost i: nat)
    returns (outputs: seq<File>)
    requires Written(r, input, files, cur, firstNumber, kept, marks, m, i) && r.fileSize == fileSize
    ensures Flat(outputs) == kept && Outputs(outputs, [], firstNumber) && WellCut(r, input, outputs)
  {
    outputs := files;
    if cur != [] {
      LastIsPlaced(r, input, files, cur, marks, m, Finish(firstNumber + |files|, cur, fileSize));
      outputs := FinishCompactionOutputFile(files, cur, firstNumber, fileSize, kept);
    } else {
      AllCutIsPlaced(r, input, files, marks, i);
    }
    assert Flat(outputs) + [] == Flat(outputs);
  }
}
