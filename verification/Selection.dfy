/** VersionSet::SetupOtherInputs, PickCompaction and CompactRange: which files of
    two adjacent levels take part in a compaction. */
module Selection {
  import opened Keys
  import opened Version
  import opened Inputs
  import opened Seqs
  import Compaction

  /** The selection of files from one level that the rest of the compaction relies
      on: a contiguous run of a sorted level, or, in level 0, a set closed under
      overlap of user ranges. */
  ghost predicate Selectable(v: Levels, level: nat, ins: seq<File>)
    requires level < |v|
  {
    && ins != [] && (forall f :: f in ins ==> f in v[level])
    && (level > 0 ==> IsRun(v[level], ins))
    && (level == 0 ==> ZeroClosed(v[0], ins))
  }

  predicate RangesMeet(f: File, g: File) {
    !Less(f.largest.user, g.smallest.user) && !Less(g.largest.user, f.smallest.user)
  }

  ghost predicate ZeroClosed(files: seq<File>, ins: seq<File>) {
    forall f, g :: f in files && g in ins && RangesMeet(f, g) ==> f in ins
  }

  /** No boundary file is left: none continues the largest key of the selection. */
  ghost predicate Sealed(files: seq<File>, ins: seq<File>) {
    exists key :: IsLargest(ins, key) && forall f {:trigger Continues(key, f)} :: f in files ==> !Continues(key, f)
  }

  /** No file left at the level holds an older entry for a user key of the
      selection: what stays is newer than what is compacted. */
  ghost predicate LeftIsNewer(files: seq<File>, ins: seq<File>) {
    forall f, g :: f in files && f !in ins && g in ins ==> Newer(f, g)
  }

  // ------------------------------------------------------------- user ranges

  ghost predicate SpansAll(ins: seq<File>, lo: IKey, hi: IKey) {
    && (forall f :: f in ins ==> !Less(f.smallest.user, lo.user) && !Less(hi.user, f.largest.user))
    && (exists f :: f in ins && f.smallest == lo)
    && (exists f :: f in ins && f.largest == hi)
  }

  /** VersionSet::GetRange. */
  method GetRange(ins: seq<File>) returns (smallest: IKey, largest: IKey)
    requires ins != []
    ensures SpansAll(ins, smallest, largest)
  {
    smallest, largest := ins[0].smallest, ins[0].largest;
    ghost var a, b := 0, 0;
    for i := 1 to |ins|
      invariant a < i && ins[a].smallest == smallest && b < i && ins[b].largest == largest
      invariant forall j :: 0 <= j < i ==> !Less(ins[j].smallest.user, smallest.user) && !Less(largest.user, ins[j].largest.user)
    {
      if ILess(ins[i].smallest, smallest) {
        smallest, a := ins[i].smallest, i;
      }
      if ILess(largest, ins[i].largest) {
        largest, b := ins[i].largest, i;
      }
    }
  }

  /** A level-0 overlap result is closed under overlap. */
  lemma ClosedMeeting(files: seq<File>, r: Range)
    requires Closed(files, r)
    ensures ZeroClosed(files, Meeting(files, r))
  {}

  /** Closed level-0 selections have no boundary files. */
  lemma {:induction false} NoZeroBoundary(files: seq<File>, ins: seq<File>, r: seq<File>, n: nat)
    requires ZeroClosed(files, ins) && Chain(files, ins, r) && n <= |r|
    requires AllBounded(files) && AllBounded(ins)
    ensures forall i :: 0 <= i < n ==> r[i] in ins
  {
    if n > 0 {
      NoZeroBoundary(files, ins, r, n - 1);
      if n - 1 < |ins| {
        assert r[n - 1] == r[..|ins|][n - 1];
      } else {
        var j := ChainLink(files, ins, r, n - 1);
        assert r[j] in ins;
        ContinuesMeets(r[j], r[n - 1]);
      }
    }
  }

  lemma ChainLink(files: seq<File>, ins: seq<File>, r: seq<File>, k: nat) returns (j: nat)
    requires Chain(files, ins, r) && |ins| <= k < |r|
    ensures j < k && Continues(r[j].largest, r[k]) && r[k] in files
  {
    assert Linked(r, k);
    j :| 0 <= j < k && Continues(r[j].largest, r[k]);
  }

  lemma ContinuesMeets(g: File, f: File)
    requires Bounded(f) && Bounded(g) && Continues(g.largest, f)
    ensures RangesMeet(f, g)
  {}

  /** In a sorted level the files that meet a user range are contiguous. */
  lemma MeetsSpan(files: seq<File>, r: Range, a: nat) returns (lo: nat, hi: nat)
    requires Disjoint(files) && AllBounded(files)
    requires a < |files| && Meets(files[a], r)
    ensures lo < hi <= |files|
    ensures forall i :: 0 <= i < |files| ==> (Meets(files[i], r) <==> lo <= i < hi)
  {
    lo := 0;
    while lo < a && !Meets(files[lo], r)
      invariant lo <= a && forall i :: 0 <= i < lo ==> !Meets(files[i], r)
    {
      lo := lo + 1;
    }
    hi := |files|;
    while hi > a + 1 && !Meets(files[hi - 1], r)
      invariant a < hi <= |files| && forall i :: hi <= i < |files| ==> !Meets(files[i], r)
    {
      hi := hi - 1;
    }
    forall i | lo <= i < hi ensures Meets(files[i], r) {
      GapMeets(files, lo, i, hi - 1, r);
    }
  }

  lemma GapMeets(files: seq<File>, i: nat, j: nat, k: nat, r: Range)
    requires Disjoint(files) && AllBounded(files)
    requires i <= j <= k < |files| && Meets(files[i], r) && Meets(files[k], r)
    ensures Meets(files[j], r)
  {
    if i < j < k {
      AscendPair(files, i, j);
      AscendPair(files, j, k);
    }
  }

  /** In a sorted level an overlap query, or a nonempty prefix of it, is a run. */
  lemma MeetingIsRun(files: seq<File>, r: Range, k: nat)
    requires Disjoint(files) && AllBounded(files)
    requires 0 < k <= |Meeting(files, r)|
    ensures IsRun(files, Meeting(files, r)[..k]) && IsSlice(files, Meeting(files, r)[..k])
  {
    var m := Meeting(files, r);
    assert m[0] in m;
    var a :| 0 <= a < |files| && files[a] == m[0];
    var lo, hi := MeetsSpan(files, r, a);
    FilterToSlice(files, MeetsTest(r), lo, hi, |files|);
    SliceIsRun(files, lo, hi, k);
  }

  lemma SliceIsRun(files: seq<File>, lo: nat, hi: nat, k: nat)
    requires lo < hi <= |files| && 0 < k <= hi - lo
    ensures IsRun(files, files[lo..hi][..k]) && IsSlice(files, files[lo..hi][..k])
  {
    assert files[lo..hi][..k] == files[lo..lo + k];
    assert SliceAt(files, files[lo..hi][..k], lo, lo + k);
    assert RunAt(files, files[lo..hi][..k], lo, lo + k);
  }

  /** With no boundary file left, a selection leaves only newer entries behind. */
  lemma SelectionLeavesNewer(v: Levels, level: nat, ins: seq<File>)
    requires WellFormed(v) && level < |v| && Selectable(v, level, ins) && Sealed(v[level], ins)
    ensures LeftIsNewer(v[level], ins)
  {
    if level == 0 {
      forall f, g | f in v[0] && f !in ins && g in ins ensures Newer(f, g) {
        ApartIsNewer(f, g);
      }
    } else {
      SealedRunLeavesNewer(v[level], ins);
    }
  }

  lemma SealedRunLeavesNewer(files: seq<File>, ins: seq<File>)
    requires Disjoint(files) && forall f :: f in files ==> GoodFile(f)
    requires IsRun(files, ins) && Sealed(files, ins)
    ensures LeftIsNewer(files, ins)
  {
    GoodIsBounded(files);
    var key :| IsLargest(ins, key) && forall f {:trigger Continues(key, f)} :: f in files ==> !Continues(key, f);
    var lo: nat, hi: nat :| RunAt(files, ins, lo, hi);
    RunLargest(files, ins, lo, hi, key);
    RunLeavesNewer(files, ins, lo, hi);
  }

  lemma ApartIsNewer(f: File, g: File)
    requires GoodFile(f) && GoodFile(g) && !RangesMeet(f, g)
    ensures Newer(f, g) && Newer(g, f)
  {
    EntriesInRange(f);
    EntriesInRange(g);
  }

  lemma RunLeavesNewer(files: seq<File>, ins: seq<File>, lo: nat, hi: nat)
    requires Disjoint(files) && forall f :: f in files ==> GoodFile(f)
    requires RunAt(files, ins, lo, hi)
    requires forall f :: f in files ==> !Continues(files[hi - 1].largest, f)
    ensures LeftIsNewer(files, ins)
  {
    GoodIsBounded(files);
    forall i, j | 0 <= i < |files| && files[i] !in ins && lo <= j < hi ensures Newer(files[i], files[j]) {
      if i < j {
        EarlierIsNewer(files, i, j);
      } else {
        NothingOlderAfter(files, hi, i, j);
        ApartIsNewer(files[i], files[j]);
      }
    }
  }

  lemma NothingOlderAfter(files: seq<File>, hi: nat, i: nat, j: nat)
    requires Disjoint(files) && AllBounded(files)
    requires j < hi <= i < |files|
    requires forall f :: f in files ==> !Continues(files[hi - 1].largest, f)
    ensures Less(files[j].largest.user, files[i].smallest.user)
  {
    assert Precedes(files[hi - 1], files[hi]);
    assert files[hi] in files;
    assert Less(files[hi - 1].largest.user, files[hi].smallest.user);
    if j < hi - 1 {
      AscendPair(files, j, hi - 1);
    }
    if hi < i {
      AscendPair(files, hi, i);
    }
  }

  // ------------------------------------------------ selections without a gap

  /** The user key is between the ends of these files. */
  ghost predicate Amid(ins: seq<File>, u: UserKey) {
    (exists f :: f in ins && !Less(u, f.smallest.user)) && exists g :: g in ins && !Less(g.largest.user, u)
  }

  /** The ranges of the files make up one range: every user key between their ends is
      covered by one of them. */
  ghost predicate Unbroken(ins: seq<File>) {
    forall u {:trigger CoveredBy(ins, u)} :: Amid(ins, u) ==> CoveredBy(ins, u)
  }

  lemma SameFilesUnbroken(a: seq<File>, b: seq<File>)
    requires Unbroken(a) && forall f :: f in a <==> f in b
    ensures Unbroken(b)
  {
    forall u | Amid(b, u) ensures CoveredBy(b, u) {
      assert Amid(a, u);
      assert CoveredBy(a, u);
      var f :| f in a && Covers(f, u);
      assert f in b;
    }
  }

  lemma OneIsUnbroken(f: File)
    ensures Unbroken([f])
  {
    forall u | Amid([f], u) ensures CoveredBy([f], u) {
      assert f in [f];
    }
  }

  /** A user key outside the span of some files and between the ends of them and others that
      meet the span is covered by one of these. */
  lemma OutsideIsCovered(ins: seq<File>, more: seq<File>, lo: UserKey, hi: UserKey, u: UserKey)
    requires forall f :: f in ins ==> !Less(f.smallest.user, lo) && !Less(hi, f.largest.user)
    requires forall f :: f in ins ==> Bounded(f)
    requires forall g :: g in more ==> Meets(g, Range(Some(lo), Some(hi)))
    requires Amid(ins + more, u) && (Less(u, lo) || Less(hi, u))
    ensures CoveredBy(ins + more, u)
  {
    var f, g :| f in ins + more && !Less(u, f.smallest.user) && g in ins + more && !Less(g.largest.user, u);
    RanksDiffer();
    if Less(u, lo) {
      assert f in more && Covers(f, u);
    } else {
      assert g in more && Covers(g, u);
    }
  }

  /** Files that meet the span of an unbroken selection leave it unbroken. */
  lemma MeetingKeepsUnbroken(ins: seq<File>, more: seq<File>, lo: IKey, hi: IKey)
    requires Unbroken(ins) && SpansAll(ins, lo, hi) && forall f :: f in ins ==> Bounded(f)
    requires forall g :: g in more ==> Meets(g, Range(Some(lo.user), Some(hi.user)))
    ensures Unbroken(ins + more)
  {
    forall u | Amid(ins + more, u) ensures CoveredBy(ins + more, u) {
      if Less(u, lo.user) || Less(hi.user, u) {
        OutsideIsCovered(ins, more, lo.user, hi.user, u);
      } else {
        assert Amid(ins, u);
        assert CoveredBy(ins, u);
        var f :| f in ins && Covers(f, u);
        assert f in ins + more;
      }
    }
  }

  /** So do the files of level 0 that the overlap query comes to. */
  lemma GrownKeepsUnbroken(files: seq<File>, ins: seq<File>, lo: IKey, hi: IKey, r: Range)
    requires Unbroken(ins) && SpansAll(ins, lo, hi) && Closed(files, r) && Grown(files, Range(Some(lo.user), Some(hi.user)), r)
    ensures Unbroken(ins + Meeting(files, r))
  {
    var q0, more := Range(Some(lo.user), Some(hi.user)), Meeting(files, r);
    forall u | Amid(ins + more, u) ensures CoveredBy(ins + more, u) {
      AmidGrown(files, ins, lo, hi, r, u);
      var f :| (f in ins || f in more) && Covers(f, u);
      assert f in ins + more;
    }
  }

  lemma AmidGrown(files: seq<File>, ins: seq<File>, lo: IKey, hi: IKey, r: Range, u: UserKey)
    requires Unbroken(ins) && SpansAll(ins, lo, hi) && Closed(files, r) && Grown(files, Range(Some(lo.user), Some(hi.user)), r)
    requires Amid(ins + Meeting(files, r), u)
    ensures CoveredBy(ins, u) || CoveredBy(Meeting(files, r), u)
  {
    var more := Meeting(files, r);
    var f, g :| f in ins + more && !Less(u, f.smallest.user) && g in ins + more && !Less(g.largest.user, u);
    RanksDiffer();
    assert f in more ==> Inside(f, r);
    assert g in more ==> Inside(g, r);
    assert InRange(u, r);
    if InRange(u, Range(Some(lo.user), Some(hi.user))) {
      assert Amid(ins, u);
    }
  }

  /** A boundary file shares a user key with the file it continues. */
  lemma {:induction false} ChainKeepsUnbroken(files: seq<File>, ins: seq<File>, r: seq<File>, others: seq<File>, n: nat)
    requires Chain(files, ins, r) && |ins| <= n <= |r| && Unbroken(ins + others)
    requires AllBounded(files) && AllBounded(ins) && AllBounded(others) && ins != []
    ensures Unbroken(r[..n] + others)
  {
    if n == |ins| {
      assert r[..n] == ins;
    } else {
      ChainKeepsUnbroken(files, ins, r, others, n - 1);
      var j := ChainLink(files, ins, r, n - 1);
      ChainIsBounded(files, ins, r, j);
      ChainIsBounded(files, ins, r, n - 1);
      ContinuesMeets(r[j], r[n - 1]);
      assert r[..n - 1][j] == r[j];
      OneMoreUnbroken(r[..n - 1], others, r[j], r[n - 1]);
      assert r[..n] == r[..n - 1] + [r[n - 1]];
    }
  }

  lemma OneMoreUnbroken(a: seq<File>, others: seq<File>, h: File, g: File)
    requires Unbroken(a + others) && h in a && RangesMeet(g, h) && Bounded(g) && Bounded(h)
    ensures Unbroken(a + [g] + others)
  {
    TouchingKeepsUnbroken(a + others, h, g);
    SameFilesUnbroken(a + others + [g], a + [g] + others);
  }

  lemma ChainIsBounded(files: seq<File>, ins: seq<File>, r: seq<File>, k: nat)
    requires Chain(files, ins, r) && AllBounded(files) && AllBounded(ins) && k < |r|
    ensures Bounded(r[k])
  {
    if k < |ins| {
      assert r[k] == r[..|ins|][k];
    }
  }

  /** One more file whose range meets that of a file which is there. */
  lemma TouchingKeepsUnbroken(ins: seq<File>, h: File, g: File)
    requires Unbroken(ins) && h in ins && RangesMeet(g, h) && Bounded(g) && Bounded(h)
    ensures Unbroken(ins + [g])
  {
    forall u | Amid(ins + [g], u) ensures CoveredBy(ins + [g], u) {
      RanksDiffer();
      if Covers(g, u) {
        assert g in ins + [g];
      } else {
        assert Amid(ins, u);
        assert CoveredBy(ins, u);
        var f :| f in ins && Covers(f, u);
        assert f in ins + [g];
      }
    }
  }

  // --------------------------------------------------------- SetupOtherInputs

  datatype Picked = Picked(level: nat, inputs0: seq<File>, inputs1: seq<File>, grandparents: seq<File>, smallest: IKey, largest: IKey)

  ghost predicate Pair(v: Levels, level: nat, i0: seq<File>, i1: seq<File>, lo: IKey, hi: IKey)
    requires level + 1 < |v|
  {
    && Selectable(v, level, i0) && Sealed(v[level], i0)
    && SpansAll(i0, lo, hi)
    && i1 == Meeting(v[level + 1], Range(Some(lo.user), Some(hi.user)))
  }

  /** What the choice of inputs guarantees: a sealed selection of one level and
      every file of the next level that meets its user range. */
  ghost predicate GoodChoice(v: Levels, p: Picked) {
    && |v| == NUM_LEVELS && p.level + 1 < NUM_LEVELS
    && Pair(v, p.level, p.inputs0, p.inputs1, p.smallest, p.largest)
  }

  /** The upper inputs are in the order of their level, which the concatenating iterator
      needs; the lower ones are a filtered level and so are as well. */
  ghost predicate InputsListed(v: Levels, p: Picked)
    requires p.level < |v|
  {
    Listed(v[p.level], p.level, p.inputs0)
  }

  lemma ChainKeeps(files: seq<File>, ins: seq<File>, r: seq<File>)
    requires Chain(files, ins, r) && forall f :: f in ins ==> f in files
    ensures forall f :: f in ins ==> f in r
    ensures forall f :: f in r ==> f in files
  {
    forall k | 0 <= k < |r| ensures r[k] in files {
      if k < |ins| {
        assert r[k] == r[..|ins|][k];
      }
    }
    assert forall i :: 0 <= i < |ins| ==> r[i] == r[..|ins|][i];
  }

  /** AddBoundaryInputs seals a selection. */
  method Seal(v: Levels, level: nat, ins: seq<File>) returns (r: seq<File>)
    requires Ranged(v) && level < |v| && Selectable(v, level, ins)
    ensures Selectable(v, level, r) && Sealed(v[level], r)
    ensures forall f :: f in ins ==> f in r
    ensures Listed(v[level], level, ins) ==> Listed(v[level], level, r)
    ensures Chain(v[level], ins, r)
  {
    r := AddBoundaryInputs(v[level], ins, level);
    ChainKeeps(v[level], ins, r);
    if level == 0 {
      NoZeroBoundary(v[0], ins, r, |r|);
      assert forall f :: f in r <==> f in ins;
    }
  }

  /** An overlap query around existing files yields a selection that holds them. */
  lemma OverlapIsSelectable(v: Levels, level: nat, ins: seq<File>, lo: IKey, hi: IKey, r: Range)
    requires Ranged(v) && level < |v|
    requires ins != [] && forall f :: f in ins ==> f in v[level]
    requires forall f :: f in ins ==> !Less(f.smallest.user, lo.user) && !Less(hi.user, f.largest.user)
    requires Wider(r, Range(Some(lo.user), Some(hi.user)))
    requires level == 0 ==> Closed(v[0], r)
    ensures Selectable(v, level, Meeting(v[level], r))
    ensures forall f :: f in ins ==> f in Meeting(v[level], r)
  {
    forall f | f in ins ensures Meets(f, r) {
      assert Bounded(f);
    }
    var m := Meeting(v[level], r);
    assert ins[0] in m;
    if level > 0 {
      MeetingIsRun(v[level], r, |m|);
      assert m[..|m|] == m;
    } else {
      ClosedMeeting(v[0], r);
    }
  }

  lemma ZeroMeetingIsListed(files: seq<File>, r: Range)
    requires Distinct(files)
    ensures NoDup(Meeting(files, r))
  {
    FilterToNoDup(files, MeetsTest(r), |files|);
  }

  /** An overlap query lists files in order. */
  lemma MeetingIsListed(v: Levels, level: nat, r: Range)
    requires Ranged(v) && level < |v| && Meeting(v[level], r) != []
    ensures Listed(v[level], level, Meeting(v[level], r))
  {
    var m := Meeting(v[level], r);
    if level == 0 {
      ZeroMeetingIsListed(v[0], r);
    } else {
      MeetingIsRun(v[level], r, |m|);
      assert m[..|m|] == m;
    }
  }

  lemma ChainUnbroken(v: Levels, level: nat, ins: seq<File>, r: seq<File>, others: seq<File>)
    requires Ranged(v) && level < |v| && Selectable(v, level, ins) && Chain(v[level], ins, r)
    requires AllBounded(others) && Unbroken(ins + others)
    ensures Unbroken(r + others)
  {
    ChainKeepsUnbroken(v[level], ins, r, others, |r|);
    assert r[..|r|] == r;
  }

  /** The overlap query around an unbroken pair of selections leaves them unbroken. */
  lemma OverlapUnbroken(v: Levels, level: nat, inputs0: seq<File>, inputs1: seq<File>, lo: IKey, hi: IKey, r: Range)
    requires Ranged(v) && level < |v| && Unbroken(inputs0 + inputs1) && AllBounded(inputs0) && AllBounded(inputs1)
    requires SpansAll(inputs0 + inputs1, lo, hi)
    requires if level == 0 then Closed(v[0], r) && Grown(v[0], Range(Some(lo.user), Some(hi.user)), r) else r == Range(Some(lo.user), Some(hi.user))
    requires forall f :: f in inputs0 ==> f in Meeting(v[level], r)
    ensures Unbroken(Meeting(v[level], r) + inputs1)
  {
    var ins, more := inputs0 + inputs1, Meeting(v[level], r);
    if level == 0 {
      GrownKeepsUnbroken(v[0], ins, lo, hi, r);
    } else {
      MeetingKeepsUnbroken(ins, more, lo, hi);
    }
    SameFilesUnbroken(ins + more, more + inputs1);
  }

  lemma SelectableIsBounded(v: Levels, level: nat, ins: seq<File>)
    requires Ranged(v) && level < |v| && Selectable(v, level, ins)
    ensures AllBounded(ins)
  {
    assert AllBounded(v[level]);
  }

  // ------------------------------------------------- exactly which inputs are chosen

  /** The files that overlap these, in level 0 together with all that overlap them in turn. */
  ghost predicate Overlapping(v: Levels, level: nat, all: seq<File>, m: seq<File>)
    requires level < |v|
  {
    exists lo, hi, r {:trigger Around(v, level, all, m, lo, hi, r)} :: Around(v, level, all, m, lo, hi, r)
  }

  ghost predicate Around(v: Levels, level: nat, all: seq<File>, m: seq<File>, lo: IKey, hi: IKey, r: Range)
    requires level < |v|
  {
    && SpansAll(all, lo, hi) && m == Meeting(v[level], r)
    && if level == 0 then Closed(v[0], r) && Grown(v[0], Range(Some(lo.user), Some(hi.user)), r) else r == Range(Some(lo.user), Some(hi.user))
  }

  /** These files with their boundary files. */
  ghost predicate SealedFrom(files: seq<File>, ins: seq<File>, r: seq<File>) {
    Chain(files, ins, r) && Sealed(files, r)
  }

  /** The upper files that overlap all inputs, with their boundary files. */
  ghost predicate GrownTo(v: Levels, level: nat, all: seq<File>, e0: seq<File>)
    requires level < |v|
  {
    exists m {:trigger SealedFrom(v[level], m, e0)} :: Overlapping(v, level, all, m) && SealedFrom(v[level], m, e0)
  }

  /** More upper files are taken exactly if there are more, the bytes stay below the limit, and
      the lower files are as many as before. */
  ghost predicate GrowthDecided(v: Levels, level: nat, b0: seq<File>, b1: seq<File>, e0: seq<File>, e1: seq<File>, limit: nat, i0: seq<File>, i1: seq<File>)
    requires level + 1 < |v|
  {
    if b1 == [] then i0 == b0 && i1 == b1
    else
      && GrownTo(v, level, b0 + b1, e0)
      && if |e0| > |b0| && Compaction.FileBytes(b1, 0, |b1|) + Compaction.FileBytes(e0, 0, |e0|) < limit
         then MeetsSpanOf(v[level + 1], e0, e1) && (if |e1| == |b1| then i0 == e0 && i1 == e1 else i0 == b0 && i1 == b1)
         else i0 == b0 && i1 == b1
  }

  ghost predicate Decided(v: Levels, level: nat, b0: seq<File>, b1: seq<File>, limit: nat, i0: seq<File>, i1: seq<File>)
    requires level + 1 < |v|
  {
    exists e0, e1 {:trigger GrowthDecided(v, level, b0, b1, e0, e1, limit, i0, i1)} :: GrowthDecided(v, level, b0, b1, e0, e1, limit, i0, i1)
  }

  /** What SetupOtherInputs makes of the given upper inputs: these with their boundary files, the
      lower files that overlap them, and more upper files where that is decided. */
  ghost predicate ChosenFrom(v: Levels, level: nat, ins: seq<File>, limit: nat, i0: seq<File>, i1: seq<File>)
    requires level + 1 < |v|
  {
    exists b0, b1 {:trigger Decided(v, level, b0, b1, limit, i0, i1)} ::
      SealedFrom(v[level], ins, b0) && MeetsSpanOf(v[level + 1], b0, b1) && Decided(v, level, b0, b1, limit, i0, i1)
  }

  /** The upper-level files that overlap everything chosen so far. */
  method Grow(v: Levels, level: nat, inputs0: seq<File>, inputs1: seq<File>) returns (r: seq<File>)
    requires Ranged(v) && level < |v| && Selectable(v, level, inputs0)
    ensures Selectable(v, level, r) && Sealed(v[level], r) && Listed(v[level], level, r)
    ensures forall f :: f in inputs0 ==> f in r
    ensures AllBounded(inputs1) && Unbroken(inputs0 + inputs1) ==> Unbroken(r + inputs1)
    ensures GrownTo(v, level, inputs0 + inputs1, r)
  {
    var allStart, allLimit := GetRange(inputs0 + inputs1);
    var expanded0, range := GetOverlappingInputs(v, level, Some(allStart), Some(allLimit));
    assert forall f :: f in inputs0 ==> f in inputs0 + inputs1;
    OverlapIsSelectable(v, level, inputs0, allStart, allLimit, range);
    MeetingIsListed(v, level, range);
    r := Seal(v, level, expanded0);
    assert Around(v, level, inputs0 + inputs1, expanded0, allStart, allLimit, range);
    assert SealedFrom(v[level], expanded0, r);
    if AllBounded(inputs1) && Unbroken(inputs0 + inputs1) {
      SelectableIsBounded(v, level, inputs0);
      OverlapUnbroken(v, level, inputs0, inputs1, allStart, allLimit, range);
      ChainUnbroken(v, level, expanded0, r, inputs1);
    }
  }

  /** The files of a deeper level that overlap all of these. */
  method SpanOverlap(v: Levels, level: nat, all: seq<File>) returns (r: seq<File>, lo: IKey, hi: IKey)
    requires Ranged(v) && 0 < level < NUM_LEVELS && all != []
    ensures SpansAll(all, lo, hi) && r == Meeting(v[level], Range(Some(lo.user), Some(hi.user)))
  {
    lo, hi := GetRange(all);
    var range;
    r, range := GetOverlappingInputs(v, level, Some(lo), Some(hi));
  }

  /** The lower files that overlap a sealed selection. */
  method LowerInputs(v: Levels, level: nat, inputs0: seq<File>) returns (inputs1: seq<File>, lo: IKey, hi: IKey)
    requires Ranged(v) && level + 1 < NUM_LEVELS && Selectable(v, level, inputs0) && Sealed(v[level], inputs0)
    ensures Pair(v, level, inputs0, inputs1, lo, hi)
  {
    inputs1, lo, hi := SpanOverlap(v, level + 1, inputs0);
  }

  lemma LowerIsBounded(v: Levels, level: nat, inputs1: seq<File>, lo: IKey, hi: IKey)
    requires Ranged(v) && level + 1 < |v| && inputs1 == Meeting(v[level + 1], Range(Some(lo.user), Some(hi.user)))
    ensures AllBounded(inputs1)
  {
    assert AllBounded(v[level + 1]);
  }

  /** The lower files that meet an unbroken upper selection. */
  lemma LowerUnbroken(v: Levels, level: nat, inputs0: seq<File>, inputs1: seq<File>, lo: IKey, hi: IKey)
    requires Ranged(v) && level + 1 < NUM_LEVELS && Pair(v, level, inputs0, inputs1, lo, hi) && Unbroken(inputs0)
    ensures Unbroken(inputs0 + inputs1)
  {
    SelectableIsBounded(v, level, inputs0);
    MeetingKeepsUnbroken(inputs0, inputs1, lo, hi);
  }

  /** More upper files, and the lower files that meet them. */
  lemma ExpandedUnbroken(v: Levels, level: nat, inputs0: seq<File>, inputs1: seq<File>, lo: IKey, hi: IKey,
                         expanded0: seq<File>, expanded1: seq<File>, lo': IKey, hi': IKey)
    requires Ranged(v) && level + 1 < NUM_LEVELS
    requires Pair(v, level, inputs0, inputs1, lo, hi) && Pair(v, level, expanded0, expanded1, lo', hi')
    requires (forall f :: f in inputs0 ==> f in expanded0) && Unbroken(expanded0 + inputs1)
    ensures Unbroken(expanded0 + expanded1)
  {
    var ins := expanded0 + inputs1;
    SelectableIsBounded(v, level, expanded0);
    LowerIsBounded(v, level, inputs1, lo, hi);
    RanksDiffer();
    assert forall f :: f in inputs1 ==> f in expanded1;
    forall u | Amid(expanded0 + expanded1, u) ensures CoveredBy(expanded0 + expanded1, u) {
      AmidExpanded(expanded0, inputs1, expanded1, lo', hi', u);
    }
  }

  lemma AmidExpanded(expanded0: seq<File>, inputs1: seq<File>, expanded1: seq<File>, lo: IKey, hi: IKey, u: UserKey)
    requires SpansAll(expanded0, lo, hi) && AllBounded(expanded0) && Unbroken(expanded0 + inputs1)
    requires (forall f :: f in inputs1 ==> f in expanded1) && forall g :: g in expanded1 ==> Meets(g, Range(Some(lo.user), Some(hi.user)))
    requires Amid(expanded0 + expanded1, u)
    ensures CoveredBy(expanded0 + expanded1, u)
  {
    if Less(u, lo.user) || Less(hi.user, u) {
      OutsideIsCovered(expanded0, expanded1, lo.user, hi.user, u);
    } else {
      var a, b :| a in expanded0 && a.smallest == lo && b in expanded0 && b.largest == hi;
      assert a in expanded0 + inputs1 && b in expanded0 + inputs1;
      assert Amid(expanded0 + inputs1, u);
      assert CoveredBy(expanded0 + inputs1, u);
      var f :| f in expanded0 + inputs1 && Covers(f, u);
      assert f in expanded0 + expanded1;
    }
  }

  /** The attempt to take more upper files without changing the number of lower
      files. */
  method Expand(v: Levels, level: nat, inputs0: seq<File>, inputs1: seq<File>, smallest: IKey, largest: IKey, limit: nat)
    returns (i0: seq<File>, i1: seq<File>, lo: IKey, hi: IKey)
    requires Ranged(v) && level + 1 < NUM_LEVELS && Pair(v, level, inputs0, inputs1, smallest, largest)
    ensures Pair(v, level, i0, i1, lo, hi)
    ensures forall f :: f in inputs0 ==> f in i0
    ensures Listed(v[level], level, inputs0) ==> Listed(v[level], level, i0)
    ensures Unbroken(inputs0 + inputs1) ==> Unbroken(i0 + i1)
    ensures Decided(v, level, inputs0, inputs1, limit, i0, i1)
  {
    i0, i1, lo, hi := inputs0, inputs1, smallest, largest;
    ghost var e0, e1: seq<File> := [], [];
    if inputs1 != [] {
      var expanded0 := Grow(v, level, inputs0, inputs1);
      e0 := expanded0;
      LowerIsBounded(v, level, inputs1, smallest, largest);
      var inputs1Size := Compaction.FileBytes(inputs1, 0, |inputs1|);
      var expanded0Size := Compaction.FileBytes(expanded0, 0, |expanded0|);
      if |expanded0| > |inputs0| && inputs1Size + expanded0Size < limit {
        var expanded1, newStart, newLimit := LowerInputs(v, level, expanded0);
        SpanMeets(v[level + 1], expanded0, newStart, newLimit);
        e1 := expanded1;
        if |expanded1| == |inputs1| {
          if Unbroken(inputs0 + inputs1) {
            ExpandedUnbroken(v, level, inputs0, inputs1, smallest, largest, expanded0, expanded1, newStart, newLimit);
          }
          i0, i1, lo, hi := expanded0, expanded1, newStart, newLimit;
        }
      }
    }
    assert GrowthDecided(v, level, inputs0, inputs1, e0, e1, limit, i0, i1);
  }

  lemma StartUnbroken(v: Levels, level: nat, ins: seq<File>, inputs0: seq<File>, inputs1: seq<File>, lo: IKey, hi: IKey)
    requires Ranged(v) && level + 1 < NUM_LEVELS && Selectable(v, level, ins) && Chain(v[level], ins, inputs0) && Unbroken(ins)
    requires Pair(v, level, inputs0, inputs1, lo, hi)
    ensures Unbroken(inputs0 + inputs1)
  {
    assert ins + [] == ins && inputs0 + [] == inputs0;
    ChainUnbroken(v, level, ins, inputs0, []);
    LowerUnbroken(v, level, inputs0, inputs1, lo, hi);
  }

  /** VersionSet::SetupOtherInputs: choose the lower files, then try to take more
      upper files without changing the number of lower ones.  `limit` is
      ExpandedCompactionByteSizeLimit. */
  method SetupOtherInputs(v: Levels, level: nat, ins: seq<File>, limit: nat) returns (p: Picked)
    requires Ranged(v) && level + 1 < NUM_LEVELS && Selectable(v, level, ins)
    ensures GoodChoice(v, p) && p.level == level
    ensures forall f :: f in ins ==> f in p.inputs0
    ensures Listed(v[level], level, ins) ==> InputsListed(v, p)
    ensures GrandparentsOf(v, level, p.inputs0 + p.inputs1, p.grandparents)
    ensures Unbroken(ins) ==> Unbroken(p.inputs0 + p.inputs1)
    ensures ChosenFrom(v, level, ins, limit, p.inputs0, p.inputs1)
  {
    var inputs0 := Seal(v, level, ins);
    var inputs1, smallest, largest := LowerInputs(v, level, inputs0);
    SpanMeets(v[level + 1], inputs0, smallest, largest);
    ghost var b0, b1 := inputs0, inputs1;
    if Unbroken(ins) {
      StartUnbroken(v, level, ins, inputs0, inputs1, smallest, largest);
    }
    inputs0, inputs1, smallest, largest := Expand(v, level, inputs0, inputs1, smallest, largest, limit);
    assert SealedFrom(v[level], ins, b0) && Decided(v, level, b0, b1, limit, inputs0, inputs1);
    var grandparents := Grandparents(v, level, inputs0 + inputs1);
    p := Picked(level, inputs0, inputs1, grandparents, smallest, largest);
  }

  ghost predicate MeetsSpanOf(files: seq<File>, all: seq<File>, r: seq<File>) {
    exists lo, hi :: SpansAll(all, lo, hi) && r == Meeting(files, Range(Some(lo.user), Some(hi.user)))
  }

  /** The files two levels down that meet the range of all inputs. */
  ghost predicate GrandparentsOf(v: Levels, level: nat, all: seq<File>, r: seq<File>)
    requires |v| == NUM_LEVELS
  {
    if level + 2 >= NUM_LEVELS then r == [] else MeetsSpanOf(v[level + 2], all, r)
  }

  lemma SpanMeets(files: seq<File>, all: seq<File>, lo: IKey, hi: IKey)
    requires SpansAll(all, lo, hi)
    ensures MeetsSpanOf(files, all, Meeting(files, Range(Some(lo.user), Some(hi.user))))
  {}

  /** The files two levels down that meet the range of all inputs. */
  method Grandparents(v: Levels, level: nat, all: seq<File>) returns (r: seq<File>)
    requires Ranged(v) && all != []
    ensures GrandparentsOf(v, level, all, r)
  {
    r := [];
    if level + 2 < NUM_LEVELS {
      var overlap, allStart, allLimit := SpanOverlap(v, level + 2, all);
      SpanMeets(v[level + 2], all, allStart, allLimit);
      r := overlap;
    }
  }

  // --------------------------------------------- PickCompaction, CompactRange

  predicate BehindPointer(pointer: Option<IKey>, f: File) {
    pointer.None? || ILess(pointer.value, f.largest)
  }

  /** The first file that ends behind the compaction pointer, and if there is none, the first of
      all. */
  ghost predicate NextToCompact(files: seq<File>, pointer: Option<IKey>, f: File) {
    exists i: nat :: i < |files| && files[i] == f && NextAt(files, pointer, i)
  }

  ghost predicate NextAt(files: seq<File>, pointer: Option<IKey>, i: nat)
    requires i < |files|
  {
    && (forall j :: 0 <= j < i ==> !BehindPointer(pointer, files[j]))
    && (BehindPointer(pointer, files[i]) || (i == 0 && forall j :: 0 <= j < |files| ==> !BehindPointer(pointer, files[j])))
  }

  /** A compaction that starts from one file; in level 0, from all that overlap it. */
  ghost predicate StartsFrom(v: Levels, level: nat, f: File, limit: nat, i0: seq<File>, i1: seq<File>)
    requires level + 1 < |v|
  {
    exists ins {:trigger ChosenFrom(v, level, ins, limit, i0, i1)} ::
      ChosenFrom(v, level, ins, limit, i0, i1) && (if level == 0 then Overlapping(v, 0, [f], ins) else ins == [f])
  }

  /** The method that finds it. */
  method NextFile(files: seq<File>, pointer: Option<IKey>) returns (f: File)
    requires files != []
    ensures f in files && NextToCompact(files, pointer, f)
  {
    for i := 0 to |files|
      invariant forall j :: 0 <= j < i ==> !BehindPointer(pointer, files[j])
    {
      if BehindPointer(pointer, files[i]) {
        assert NextAt(files, pointer, i);
        return files[i];
      }
    }
    assert NextAt(files, pointer, 0);
    return files[0];  // wrap-around to the beginning of the key space
  }

  /** One file, or in level 0 all that overlap it. */
  method StartInputs(v: Levels, level: nat, f: File) returns (ins: seq<File>)
    requires Ranged(v) && level < NUM_LEVELS && f in v[level]
    ensures Selectable(v, level, ins) && Listed(v[level], level, ins) && Unbroken(ins) && f in ins
    ensures if level == 0 then Overlapping(v, 0, [f], ins) else ins == [f]
  {
    ins := [f];
    OneIsUnbroken(f);
    if level == 0 {
      var smallest, largest := GetRange(ins);
      var zero, r := GetOverlappingInputs(v, 0, Some(smallest), Some(largest));
      OverlapIsSelectable(v, 0, ins, smallest, largest, r);
      assert f in ins;
      ZeroMeetingIsListed(v[0], r);
      ZeroUnbroken(v, f, smallest, largest, r);
      assert Around(v, 0, ins, zero, smallest, largest, r);
      ins := zero;
    } else {
      SingleIsRun(v[level], f);
    }
  }

  /** VersionSet::PickCompaction.  `bySize` is the level chosen by Finalize when its
      score reaches 1; `bySeeks` is file_to_compact_ with its level. */
  method PickCompaction(v: Levels, bySize: Option<nat>, bySeeks: Option<(nat, File)>, pointers: seq<Option<IKey>>, limit: nat)
    returns (p: Option<Picked>)
    requires Ranged(v) && |pointers| == NUM_LEVELS
    requires bySize.Some? ==> bySize.value + 1 < NUM_LEVELS && v[bySize.value] != []
    requires bySeeks.Some? ==> bySeeks.value.0 + 1 < NUM_LEVELS && bySeeks.value.1 in v[bySeeks.value.0]
    ensures p.None? <==> bySize.None? && bySeeks.None?
    ensures p.Some? ==> GoodChoice(v, p.value) && InputsListed(v, p.value) && Unbroken(p.value.inputs0 + p.value.inputs1)
    ensures bySize.Some? ==> p.value.level == bySize.value
    ensures bySize.None? && bySeeks.Some? ==> p.value.level == bySeeks.value.0 && bySeeks.value.1 in p.value.inputs0
    ensures p.Some? ==> exists f {:trigger StartsFrom(v, p.value.level, f, limit, p.value.inputs0, p.value.inputs1)} ::
              && StartsFrom(v, p.value.level, f, limit, p.value.inputs0, p.value.inputs1)
              && if bySize.Some? then NextToCompact(v[p.value.level], pointers[p.value.level], f) else f == bySeeks.value.1
    ensures p.Some? ==> GrandparentsOf(v, p.value.level, p.value.inputs0 + p.value.inputs1, p.value.grandparents)
  {
    var level, f;
    if bySize.Some? {
      level := bySize.value;
      f := NextFile(v[level], pointers[level]);
    } else if bySeeks.Some? {
      level, f := bySeeks.value.0, bySeeks.value.1;
    } else {
      return None;
    }
    var picked := PickFrom(v, level, f, limit);
    p := Some(picked);
  }

  /** The inputs that start from one file. */
  method PickFrom(v: Levels, level: nat, f: File, limit: nat) returns (p: Picked)
    requires Ranged(v) && level + 1 < NUM_LEVELS && f in v[level]
    ensures GoodChoice(v, p) && p.level == level && InputsListed(v, p) && Unbroken(p.inputs0 + p.inputs1) && f in p.inputs0
    ensures StartsFrom(v, level, f, limit, p.inputs0, p.inputs1) && GrandparentsOf(v, level, p.inputs0 + p.inputs1, p.grandparents)
  {
    var ins := StartInputs(v, level, f);
    p := SetupOtherInputs(v, level, ins, limit);
  }

  lemma ZeroUnbroken(v: Levels, f: File, lo: IKey, hi: IKey, r: Range)
    requires Ranged(v) && SpansAll([f], lo, hi) && f in Meeting(v[0], r)
    requires Closed(v[0], r) && Grown(v[0], Range(Some(lo.user), Some(hi.user)), r)
    ensures Unbroken(Meeting(v[0], r))
  {
    OneIsUnbroken(f);
    GrownKeepsUnbroken(v[0], [f], lo, hi, r);
    SameFilesUnbroken([f] + Meeting(v[0], r), Meeting(v[0], r));
  }

  lemma SingleIsRun(files: seq<File>, f: File)
    requires f in files
    ensures IsRun(files, [f]) && IsSlice(files, [f])
  {
    var i :| 0 <= i < |files| && files[i] == f;
    assert SliceAt(files, [f], i, i + 1);
    assert RunAt(files, [f], i, i + 1);
  }

  /** The shortest beginning that reaches the size, or all. */
  ghost predicate CutOff(files: seq<File>, maxBytes: nat, k: nat) {
    && 0 < k <= |files|
    && (forall j {:trigger Compaction.FileBytes(files, 0, j)} :: 0 < j < k ==> Compaction.FileBytes(files, 0, j) < maxBytes)
    && (k < |files| ==> Compaction.FileBytes(files, 0, k) >= maxBytes)
  }

  /** What a manual compaction of the range has to take. */
  ghost predicate RangeTaken(files: seq<File>, q: Range, maxBytes: nat, inputs0: seq<File>) {
    exists k: nat :: CutOff(Meeting(files, q), maxBytes, k) && forall f :: f in Meeting(files, q)[..k] ==> f in inputs0
  }

  /** A compaction that starts from the files that meet a range: below level 0 those up to the one that
      reaches the size, in level 0 with all that overlap them. */
  ghost predicate StartsFromRange(v: Levels, level: nat, q: Range, maxBytes: nat, limit: nat, i0: seq<File>, i1: seq<File>)
    requires level + 1 < |v|
  {
    exists ins {:trigger ChosenFrom(v, level, ins, limit, i0, i1)} :: ChosenFrom(v, level, ins, limit, i0, i1) && RangeStart(v[level], level, q, maxBytes, ins)
  }

  ghost predicate RangeStart(files: seq<File>, level: nat, q: Range, maxBytes: nat, ins: seq<File>) {
    if level == 0 then exists r :: Closed(files, r) && Grown(files, q, r) && ins == Meeting(files, r)
    else exists k: nat :: CutOff(Meeting(files, q), maxBytes, k) && ins == Meeting(files, q)[..k]
  }

  lemma NoneMeets(files: seq<File>, q: Range)
    requires Meeting(files, q) == []
    ensures forall f :: f in files ==> !Meets(f, q)
  {
    forall f | f in files ensures f in Meeting(files, q) <==> Meets(f, q) {}
  }

  /** Where no file meets the range, it does not grow. */
  lemma NothingToGrow(files: seq<File>, q: Range, r: Range)
    requires Meeting(files, q) == [] && Grown(files, q, r)
    ensures Meeting(files, r) == []
  {
    var m := Meeting(files, r);
    assert m == [] || m[0] in m;
    NoneMeets(files, q);
    RanksDiffer();
    assert Closed(files, q) && Wider(q, q);
    WiderMeetsMore(files, q, r);
  }

  lemma WiderMeetsMore(files: seq<File>, big: Range, small: Range)
    requires Wider(big, small)
    ensures forall f :: f in Meeting(files, small) ==> f in Meeting(files, big)
  {
    RanksDiffer();
  }

  /** The loop that adds up file sizes. */
  method CutAfter(files: seq<File>, maxBytes: nat) returns (k: nat)
    requires files != []
    ensures CutOff(files, maxBytes, k)
  {
    var total := 0;
    for i := 0 to |files|
      invariant total == Compaction.FileBytes(files, 0, i)
      invariant forall j {:trigger Compaction.FileBytes(files, 0, j)} :: 0 < j <= i ==> Compaction.FileBytes(files, 0, j) < maxBytes
    {
      Compaction.FileBytesNext(files, 0, i);
      total := total + files[i].size;
      if total >= maxBytes {
        return i + 1;
      }
    }
    k := |files|;
  }

  /** The files that meet the range, below level 0 cut off after `maxBytes`. */
  method RangeInputs(v: Levels, level: nat, begin: Option<IKey>, end: Option<IKey>, maxBytes: nat) returns (ins: seq<File>)
    requires Ranged(v) && level + 1 < NUM_LEVELS
    ensures ins == [] <==> Meeting(v[level], UserRange(begin, end)) == []
    ensures ins != [] ==> Selectable(v, level, ins) && Listed(v[level], level, ins) && RangeStart(v[level], level, UserRange(begin, end), maxBytes, ins)
    ensures level == 0 ==> forall f :: f in Meeting(v[0], UserRange(begin, end)) ==> f in ins
  {
    var r;
    ins, r := GetOverlappingInputs(v, level, begin, end);
    ghost var q := UserRange(begin, end);
    if level == 0 {
      WiderMeetsMore(v[0], r, q);
      if Meeting(v[0], q) == [] {
        NothingToGrow(v[0], q, r);
      } else {
        assert Meeting(v[0], q)[0] in Meeting(v[0], r);
      }
    }
    if ins == [] {
      return;
    }
    MeetingIsListed(v, level, r);
    if level > 0 {
      var k := CutAfter(ins, maxBytes);
      MeetingIsRun(v[level], r, k);
      ins := ins[..k];
    } else {
      ClosedMeeting(v[0], r);
    }
  }

  /** VersionSet::CompactRange. */
  method CompactRange(v: Levels, level: nat, begin: Option<IKey>, end: Option<IKey>, maxBytes: nat, limit: nat)
    returns (p: Option<Picked>)
    requires Ranged(v) && level + 1 < NUM_LEVELS
    ensures p.Some? ==> GoodChoice(v, p.value) && p.value.level == level && InputsListed(v, p.value)
    ensures p.None? <==> Meeting(v[level], UserRange(begin, end)) == []
    ensures p.Some? && level > 0 ==> RangeTaken(v[level], UserRange(begin, end), maxBytes, p.value.inputs0)
    ensures level == 0 ==> forall f :: f in Meeting(v[0], UserRange(begin, end)) ==> p.Some? && f in p.value.inputs0
    ensures p.Some? ==> StartsFromRange(v, level, UserRange(begin, end), maxBytes, limit, p.value.inputs0, p.value.inputs1)
    ensures p.Some? ==> GrandparentsOf(v, p.value.level, p.value.inputs0 + p.value.inputs1, p.value.grandparents)
  {
    var ins := RangeInputs(v, level, begin, end, maxBytes);
    if ins == [] {
      return None;
    }
    var picked := SetupOtherInputs(v, level, ins, limit);
    p := Some(picked);
  }
}
