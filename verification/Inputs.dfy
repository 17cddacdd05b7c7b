/** Choosing the inputs of a compaction (db/version_set.cc): overlapping files,
    boundary files, and the expansion of the upper level. */
module Inputs {
  import opened Keys
  import opened Version
  import opened Seqs

  // -------------------------------------------------------------- user ranges

  /** A user-key range; None stands for an open end. */
  datatype Range = Range(lo: Option<UserKey>, hi: Option<UserKey>)

  predicate Meets(f: File, r: Range) {
    && !(r.lo.Some? && Less(f.largest.user, r.lo.value))
    && !(r.hi.Some? && Less(r.hi.value, f.smallest.user))
  }

  predicate Inside(f: File, r: Range) {
    && (r.lo.Some? ==> !Less(f.smallest.user, r.lo.value))
    && (r.hi.Some? ==> !Less(r.hi.value, f.largest.user))
  }

  predicate Wider(big: Range, small: Range) {
    && (big.lo.Some? ==> small.lo.Some? && !Less(small.lo.value, big.lo.value))
    && (big.hi.Some? ==> small.hi.Some? && !Less(big.hi.value, small.hi.value))
  }

  function MeetsTest(r: Range): File -> bool {
    f => Meets(f, r)
  }

  /** The files that meet the range, in file order. */
  function Meeting(files: seq<File>, r: Range): (m: seq<File>)
    ensures forall f :: f in m <==> f in files && Meets(f, r)
  {
    Filter(files, MeetsTest(r))
  }

  /** Every file that meets the range lies inside it. */
  ghost predicate Closed(files: seq<File>, r: Range) {
    forall f :: f in files && Meets(f, r) ==> Inside(f, r)
  }

  /** How many files reach out of the range on the left, plus on the right. */
  ghost function Sticking(files: seq<File>, r: Range): nat {
    if files == [] then 0
    else
      var f := files[|files| - 1];
      Sticking(files[..|files| - 1], r)
      + (if SticksLeft(f, r) then 1 else 0) + (if SticksRight(f, r) then 1 else 0)
  }

  predicate SticksLeft(f: File, r: Range) {
    r.lo.Some? && Less(f.smallest.user, r.lo.value)
  }

  predicate SticksRight(f: File, r: Range) {
    r.hi.Some? && Less(r.hi.value, f.largest.user)
  }

  lemma {:induction false} WiderSticksLess(files: seq<File>, big: Range, small: Range)
    requires Wider(big, small)
    ensures Sticking(files, big) <= Sticking(files, small)
    ensures (exists f :: f in files && ((SticksLeft(f, small) && !SticksLeft(f, big)) || (SticksRight(f, small) && !SticksRight(f, big))))
            ==> Sticking(files, big) < Sticking(files, small)
  {
    if files != [] {
      var front, last := files[..|files| - 1], files[|files| - 1];
      assert files == front + [last];
      WiderSticksLess(front, big, small);
    }
  }

  /** r grew out of the requested range q0 only as far as every closed range has to. */
  ghost predicate Forced(files: seq<File>, q0: Range, r: Range) {
    Wider(r, q0) && forall q :: Closed(files, q) && Wider(q, q0) ==> Wider(q, r)
  }

  predicate InRange(u: UserKey, r: Range) {
    !(r.lo.Some? && Less(u, r.lo.value)) && !(r.hi.Some? && Less(r.hi.value, u))
  }

  /** Every user key that r has beyond q0 lies in a file that meets r. */
  ghost predicate Filled(files: seq<File>, q0: Range, r: Range) {
    forall u {:trigger InRange(u, r)} :: InRange(u, r) ==> InRange(u, q0) || CoveredBy(Meeting(files, r), u)
  }

  /** The range has grown as far as files force it to, and into files. */
  ghost predicate Grown(files: seq<File>, q0: Range, r: Range) {
    Forced(files, q0, r) && Filled(files, q0, r)
  }

  ghost predicate ClosedUpTo(files: seq<File>, r: Range, i: nat) {
    i <= |files| && forall j {:trigger files[j]} :: 0 <= j < i && Meets(files[j], r) ==> Inside(files[j], r)
  }

  /** Some file of these covers the user key. */
  ghost predicate CoveredBy(files: seq<File>, u: UserKey) {
    exists f :: f in files && Covers(f, u)
  }

  /** Version::GetOverlappingInputs.  In level 0 the range grows and the scan
      restarts until the range is closed; `r` is the final range, it is the least closed
      range around the requested one, and what it has more lies in files. */
  method GetOverlappingInputs(v: Levels, level: nat, begin: Option<IKey>, end: Option<IKey>)
    returns (inputs: seq<File>, r: Range)
    requires level < |v| && AllBounded(v[level])
    ensures inputs == Meeting(v[level], r)
    ensures level > 0 ==> r == UserRange(begin, end)
    ensures level == 0 ==> Closed(v[0], r) && Grown(v[0], UserRange(begin, end), r)
  {
    var files := v[level];
    inputs, r := [], UserRange(begin, end);
    var i := 0;
    while i < |files|
      invariant i <= |files|
      invariant inputs == FilterTo(files, MeetsTest(r), i)
      invariant level > 0 ==> r == UserRange(begin, end)
      invariant level == 0 ==> Grown(files, UserRange(begin, end), r) && ClosedUpTo(files, r, i)
      decreases Sticking(files, r), |files| - i
    {
      var f := files[i];
      OneScanned(files, r, i);
      i := i + 1;
      if r.lo.Some? && Less(f.largest.user, r.lo.value) {
        // completely before the range
      } else if r.hi.Some? && Less(r.hi.value, f.smallest.user) {
        // completely after the range
      } else {
        inputs := inputs + [f];
        if level == 0 {
          var wider := Stretched(f, r);
          if wider.Some? {
            StretchIsGrown(files, UserRange(begin, end), r, f);
            r, inputs, i := wider.value, [], 0;
          }
        }
      }
    }
  }

  lemma OneScanned(files: seq<File>, r: Range, i: nat)
    requires i < |files|
    ensures FilterTo(files, MeetsTest(r), i + 1) == FilterTo(files, MeetsTest(r), i) + if Meets(files[i], r) then [files[i]] else []
    ensures ClosedUpTo(files, r, i) && (Meets(files[i], r) ==> Stretched(files[i], r).None?) ==> ClosedUpTo(files, r, i + 1)
  {}

  function UserRange(begin: Option<IKey>, end: Option<IKey>): Range {
    Range(if begin.Some? then Some(begin.value.user) else None, if end.Some? then Some(end.value.user) else None)
  }

  lemma GrowLeft(files: seq<File>, q0: Range, r: Range, f: File)
    requires f in files && Bounded(f) && Meets(f, r) && SticksLeft(f, r) && Forced(files, q0, r)
    ensures var r' := r.(lo := Some(f.smallest.user)); Sticking(files, r') < Sticking(files, r) && Forced(files, q0, r')
  {
    var r' := r.(lo := Some(f.smallest.user));
    WiderSticksLess(files, r', r);
    forall q | Closed(files, q) && Wider(q, q0) ensures Wider(q, r') {
      assert Wider(q, r) && Meets(f, q) && Inside(f, q);
    }
  }

  lemma GrowRight(files: seq<File>, q0: Range, r: Range, f: File)
    requires f in files && Bounded(f) && Meets(f, r) && SticksRight(f, r) && Forced(files, q0, r)
    ensures var r' := r.(hi := Some(f.largest.user)); Sticking(files, r') < Sticking(files, r) && Forced(files, q0, r')
  {
    var r' := r.(hi := Some(f.largest.user));
    WiderSticksLess(files, r', r);
    forall q | Closed(files, q) && Wider(q, q0) ensures Wider(q, r') {
      assert Wider(q, r) && Meets(f, q) && Inside(f, q);
    }
  }

  /** The range stretched to the end of f that sticks out of it, if one does. */
  function Stretched(f: File, r: Range): Option<Range> {
    if SticksLeft(f, r) then Some(r.(lo := Some(f.smallest.user)))
    else if SticksRight(f, r) then Some(r.(hi := Some(f.largest.user)))
    else None
  }

  lemma StretchIsForced(files: seq<File>, q0: Range, r: Range, f: File)
    requires f in files && Bounded(f) && Meets(f, r) && Stretched(f, r).Some? && Forced(files, q0, r)
    ensures Sticking(files, Stretched(f, r).value) < Sticking(files, r) && Forced(files, q0, Stretched(f, r).value)
  {
    if SticksLeft(f, r) {
      GrowLeft(files, q0, r, f);
    } else {
      GrowRight(files, q0, r, f);
    }
  }

  /** What the stretched range has more lies in f. */
  lemma StretchIsFilled(files: seq<File>, q0: Range, r: Range, f: File)
    requires f in files && Bounded(f) && Meets(f, r) && Stretched(f, r).Some? && Filled(files, q0, r)
    ensures Filled(files, q0, Stretched(f, r).value)
  {
    var r' := Stretched(f, r).value;
    forall u | InRange(u, r') && !InRange(u, q0) ensures CoveredBy(Meeting(files, r'), u) {
      if InRange(u, r) {
        var g :| g in Meeting(files, r) && Covers(g, u);
        assert g in Meeting(files, r');
      } else {
        assert f in Meeting(files, r') && Covers(f, u);
      }
    }
  }

  lemma StretchIsGrown(files: seq<File>, q0: Range, r: Range, f: File)
    requires f in files && Bounded(f) && Meets(f, r) && Stretched(f, r).Some? && Grown(files, q0, r)
    ensures Sticking(files, Stretched(f, r).value) < Sticking(files, r) && Grown(files, q0, Stretched(f, r).value)
  {
    StretchIsForced(files, q0, r, f);
    StretchIsFilled(files, q0, r, f);
  }

  // ----------------------------------------------------------- boundary files

  /** f starts right where `key` ends: same user key, but older. */
  predicate Continues(key: IKey, f: File) {
    ILess(key, f.smallest) && f.smallest.user == key.user
  }

  ghost predicate IsLargest(files: seq<File>, key: IKey) {
    && (exists f :: f in files && f.largest == key)
    && (forall f {:trigger ILess(key, f.largest)} :: f in files ==> !ILess(key, f.largest))
  }

  /** FindLargestKey. */
  method FindLargestKey(files: seq<File>) returns (key: Option<IKey>)
    ensures key.None? <==> files == []
    ensures key.Some? ==> IsLargest(files, key.value)
  {
    if files == [] {
      return None;
    }
    var k := files[0].largest;
    ghost var at := 0;
    for i := 1 to |files|
      invariant at < i && files[at].largest == k
      invariant forall j :: 0 <= j < i ==> !ILess(k, files[j].largest)
    {
      if ILess(k, files[i].largest) {
        k, at := files[i].largest, i;
      }
    }
    key := Some(k);
  }

  /** FindSmallestBoundaryFile. */
  method FindSmallestBoundaryFile(files: seq<File>, key: IKey) returns (r: Option<File>)
    ensures r.None? ==> forall f {:trigger Continues(key, f)} :: f in files ==> !Continues(key, f)
    ensures r.Some? ==> r.value in files && Continues(key, r.value)
    ensures r.Some? ==> forall f :: f in files && Continues(key, f) ==> IAtMost(r.value.smallest, f.smallest)
  {
    RanksDiffer();
    r := None;
    for i := 0 to |files|
      invariant r.None? ==> forall f :: f in files[..i] ==> !Continues(key, f)
      invariant r.Some? ==> r.value in files && Continues(key, r.value)
      invariant r.Some? ==> forall f :: f in files[..i] && Continues(key, f) ==> IAtMost(r.value.smallest, f.smallest)
    {
      if Continues(key, files[i]) {
        if r == None || ILess(files[i].smallest, r.value.smallest) {
          r := Some(files[i]);
        }
      }
      assert files[..i + 1] == files[..i] + [files[i]];
    }
    assert files[..|files|] == files;
  }

  /** `r` extends `from` by a chain of boundary files. */
  ghost predicate Chain(files: seq<File>, from: seq<File>, r: seq<File>) {
    && |from| <= |r| && r[..|from|] == from
    && forall k :: |from| <= k < |r| ==> r[k] in files && Linked(r, k)
  }

  ghost predicate Linked(r: seq<File>, k: nat)
    requires k < |r|
  {
    exists j :: 0 <= j < k && Continues(r[j].largest, r[k])
  }

  ghost function StartingAfter(files: seq<File>, key: IKey): nat {
    if files == [] then 0
    else StartingAfter(files[..|files| - 1], key) + (if ILess(key, files[|files| - 1].smallest) then 1 else 0)
  }

  lemma {:induction false} FewerStartAfter(files: seq<File>, key: IKey, later: IKey)
    requires IAtMost(key, later)
    ensures StartingAfter(files, later) <= StartingAfter(files, key)
    ensures (exists f :: f in files && ILess(key, f.smallest) && !ILess(later, f.smallest)) ==> StartingAfter(files, later) < StartingAfter(files, key)
  {
    if files != [] {
      var front, last := files[..|files| - 1], files[|files| - 1];
      assert files == front + [last];
      RanksDiffer();
      FewerStartAfter(front, key, later);
    }
  }

  /** AddBoundaryInputs: afterwards no file of the level continues the largest key
      of the selection. */
  method AddBoundaryInputs(files: seq<File>, from: seq<File>, ghost level: nat) returns (r: seq<File>)
    requires AllBounded(files)
    ensures Chain(files, from, r)
    ensures from != [] ==> exists key :: IsLargest(r, key) && forall f {:trigger Continues(key, f)} :: f in files ==> !Continues(key, f)
    ensures IsRun(files, from) && Disjoint(files) ==> IsRun(files, r)
    ensures Listed(files, level, from) && (level > 0 ==> Disjoint(files)) ==> Listed(files, level, r)
  {
    r := from;
    var largest := FindLargestKey(from);
    if largest == None {
      return;
    }
    var key := largest.value;
    var searching := true;
    while searching
      invariant Chain(files, from, r) && IsLargest(r, key)
      invariant IsRun(files, from) && Disjoint(files) ==> IsRun(files, r)
      invariant Listed(files, level, from) && (level > 0 ==> Disjoint(files)) ==> Listed(files, level, r)
      invariant !searching ==> forall f {:trigger Continues(key, f)} :: f in files ==> !Continues(key, f)
      decreases if searching then 1 else 0, StartingAfter(files, key)
    {
      var b := FindSmallestBoundaryFile(files, key);
      if b.Some? {
        TakeBoundary(files, from, r, key, b.value);
        if Listed(files, level, r) && (level > 0 ==> Disjoint(files)) {
          ListedMore(files, level, r, key, b.value);
        }
        r := r + [b.value];
        key := b.value.largest;
      } else {
        searching := false;
      }
    }
  }

  /** A boundary file is not among those whose largest key it continues. */
  lemma BoundaryIsNew(r: seq<File>, key: IKey, b: File)
    requires IsLargest(r, key) && Continues(key, b) && Bounded(b)
    ensures NoDup(r) ==> NoDup(r + [b])
  {
    var beyond := b in r && ILess(key, b.largest);
  }

  /** One turn of the loop in AddBoundaryInputs. */
  lemma TakeBoundary(files: seq<File>, from: seq<File>, r: seq<File>, key: IKey, b: File)
    requires AllBounded(files) && Chain(files, from, r) && IsLargest(r, key)
    requires b in files && Continues(key, b) && forall f :: f in files && Continues(key, f) ==> IAtMost(b.smallest, f.smallest)
    ensures Chain(files, from, r + [b]) && IsLargest(r + [b], b.largest)
    ensures IsRun(files, r) && Disjoint(files) ==> IsRun(files, r + [b])
    ensures StartingAfter(files, b.largest) < StartingAfter(files, key)
  {
    if IsRun(files, r) && Disjoint(files) {
      BoundaryExtendsRun(files, r, key, b);
    }
    ChainGrows(files, from, r, key, b);
    LargestGrows(r, key, b);
    FewerStartAfter(files, key, b.largest);
    NotAfterItself(b);
  }

  lemma NotAfterItself(b: File)
    requires Bounded(b)
    ensures !ILess(b.largest, b.smallest)
  {}

  lemma ChainGrows(files: seq<File>, from: seq<File>, r: seq<File>, key: IKey, b: File)
    requires Chain(files, from, r) && IsLargest(r, key) && b in files && Continues(key, b)
    ensures Chain(files, from, r + [b])
  {
    var g :| g in r && g.largest == key;
    var j :| 0 <= j < |r| && r[j] == g;
    forall k | |from| <= k < |r + [b]|
      ensures (r + [b])[k] in files && Linked(r + [b], k)
    {
      if k < |r| {
        assert Linked(r, k);
        var i :| 0 <= i < k && Continues(r[i].largest, r[k]);
        assert (r + [b])[i] == r[i] && (r + [b])[k] == r[k];
      } else {
        assert (r + [b])[j] == r[j] && (r + [b])[k] == b;
      }
    }
    assert (r + [b])[..|from|] == r[..|from|];
  }

  lemma LargestGrows(r: seq<File>, key: IKey, b: File)
    requires IsLargest(r, key) && Continues(key, b) && Bounded(b)
    ensures IsLargest(r + [b], b.largest) && ILess(key, b.largest)
  {
    RanksDiffer();
    assert b in r + [b];
    assert ILess(key, b.largest);
    forall f | f in r + [b] ensures !ILess(b.largest, f.largest) {
      if f in r {
        assert !ILess(key, f.largest);
      }
    }
  }

  // ------------------------------------------------ contiguous runs in a level

  ghost predicate RunAt(files: seq<File>, r: seq<File>, lo: nat, hi: nat) {
    && lo < hi <= |files|
    && (forall i :: lo <= i < hi ==> files[i] in r)
    && (forall f :: f in r ==> exists i :: lo <= i < hi && files[i] == f)
  }

  /** The selection is a nonempty contiguous part of the level. */
  ghost predicate IsRun(files: seq<File>, r: seq<File>) {
    exists lo: nat, hi: nat :: RunAt(files, r, lo, hi)
  }

  /** The largest key of a run is that of its last file. */
  lemma RunLargest(files: seq<File>, r: seq<File>, lo: nat, hi: nat, key: IKey)
    requires RunAt(files, r, lo, hi) && Disjoint(files) && IsLargest(r, key)
    requires AllBounded(files)
    ensures key == files[hi - 1].largest
  {
    var f :| f in r && f.largest == key;
    var i :| lo <= i < hi && files[i] == f;
    assert files[hi - 1] in r;
    if i < hi - 1 {
      AscendPair(files, i, hi - 1);
    }
  }

  /** The next file of the level is the first to continue the run, if any does. */
  lemma NextContinues(files: seq<File>, hi: nat, k: nat, key: IKey)
    requires Disjoint(files) && AllBounded(files)
    requires 0 < hi <= |files| && k < |files| && key == files[hi - 1].largest && Continues(key, files[k])
    ensures hi <= k && Continues(key, files[hi])
    ensures hi < k ==> ILess(files[hi].smallest, files[k].smallest)
  {
    if k < hi {
      assert Bounded(files[k]);
      if k < hi - 1 {
        AscendPair(files, k, hi - 1);
      }
      assert false;
    }
    if hi < k {
      AscendPair(files, hi, k);
      assert Precedes(files[hi - 1], files[hi]);
      RanksDiffer();
    }
  }

  lemma RunGrows(files: seq<File>, r: seq<File>, lo: nat, hi: nat)
    requires RunAt(files, r, lo, hi) && hi < |files|
    ensures IsRun(files, r + [files[hi]])
  {
    assert forall f :: f in r + [files[hi]] <==> f in r || f == files[hi];
    assert RunAt(files, r + [files[hi]], lo, hi + 1);
  }

  /** The boundary file taken is the next of the level. */
  lemma BoundaryIsNext(files: seq<File>, r: seq<File>, key: IKey, b: File, lo: nat, hi: nat)
    requires RunAt(files, r, lo, hi) && Disjoint(files) && IsLargest(r, key)
    requires AllBounded(files)
    requires b in files && Continues(key, b)
    requires forall f :: f in files && Continues(key, f) ==> IAtMost(b.smallest, f.smallest)
    ensures hi < |files| && files[hi] == b
  {
    RunLargest(files, r, lo, hi, key);
    var k :| 0 <= k < |files| && files[k] == b;
    NextContinues(files, hi, k, key);
    ITotal(b.smallest, files[hi].smallest);
  }

  lemma BoundaryExtendsRun(files: seq<File>, r: seq<File>, key: IKey, b: File)
    requires IsRun(files, r) && Disjoint(files) && IsLargest(r, key)
    requires AllBounded(files)
    requires b in files && Continues(key, b)
    requires forall f :: f in files && Continues(key, f) ==> IAtMost(b.smallest, f.smallest)
    ensures IsRun(files, r + [b])
  {
    var lo: nat, hi: nat :| RunAt(files, r, lo, hi);
    BoundaryIsNext(files, r, key, b, lo, hi);
    RunGrows(files, r, lo, hi);
  }

  // ------------------------------------------------------ the order of inputs

  /** A nonempty part of the level, in its order. */
  ghost predicate SliceAt(files: seq<File>, r: seq<File>, lo: nat, hi: nat) {
    lo < hi <= |files| && r == files[lo..hi]
  }

  ghost predicate IsSlice(files: seq<File>, r: seq<File>) {
    exists lo: nat, hi: nat :: SliceAt(files, r, lo, hi)
  }

  /** Inputs are listed in the order of their level, those of level 0 once each. */
  ghost predicate Listed(files: seq<File>, level: nat, ins: seq<File>) {
    if level == 0 then NoDup(ins) else IsSlice(files, ins)
  }

  lemma SliceAtRun(files: seq<File>, r: seq<File>, lo: nat, hi: nat)
    requires SliceAt(files, r, lo, hi)
    ensures RunAt(files, r, lo, hi)
  {
    forall i | lo <= i < hi ensures files[i] in r {
      assert files[i] == r[i - lo];
    }
    forall f | f in r ensures exists i :: lo <= i < hi && files[i] == f {
      var j :| 0 <= j < |r| && r[j] == f;
      assert files[lo + j] == f;
    }
  }

  lemma SliceGrows(files: seq<File>, r: seq<File>, lo: nat, hi: nat)
    requires SliceAt(files, r, lo, hi) && hi < |files|
    ensures SliceAt(files, r + [files[hi]], lo, hi + 1)
  {}

  lemma BoundaryExtendsSlice(files: seq<File>, r: seq<File>, key: IKey, b: File)
    requires IsSlice(files, r) && Disjoint(files) && IsLargest(r, key)
    requires AllBounded(files)
    requires b in files && Continues(key, b)
    requires forall f :: f in files && Continues(key, f) ==> IAtMost(b.smallest, f.smallest)
    ensures IsSlice(files, r + [b])
  {
    var lo: nat, hi: nat :| SliceAt(files, r, lo, hi);
    SliceAtRun(files, r, lo, hi);
    BoundaryIsNext(files, r, key, b, lo, hi);
    SliceGrows(files, r, lo, hi);
  }

  /** One turn of AddBoundaryInputs keeps the order. */
  lemma ListedMore(files: seq<File>, level: nat, r: seq<File>, key: IKey, b: File)
    requires Listed(files, level, r) && (level > 0 ==> Disjoint(files)) && IsLargest(r, key)
    requires AllBounded(files)
    requires b in files && Continues(key, b)
    requires forall f :: f in files && Continues(key, f) ==> IAtMost(b.smallest, f.smallest)
    ensures Listed(files, level, r + [b])
  {
    if level == 0 {
      BoundaryIsNew(r, key, b);
    } else {
      BoundaryExtendsSlice(files, r, key, b);
    }
  }
}
