/** What reads find after a memtable was flushed into the gap of an output of the running
    compaction (db/db_impl.cc, FindFile and Version::Get in db/version_set.cc). */
module FlushReads {
  import opened Keys
  import opened Version
  import opened Builder
  import opened Inputs
  import opened Selection
  import opened CompactionProof
  import opened Flush
  import opened FlushRace

  // -------------------------------------------- one file too many in a sorted level

  /** f lies strictly within o, none of whose entries is in the range of f. */
  ghost predicate Within(f: File, o: File) {
    && Less(o.smallest.user, f.smallest.user) && Less(f.largest.user, o.largest.user)
    && forall e :: e in o.entries ==> Less(e.key.user, f.smallest.user) || Less(f.largest.user, e.key.user)
  }

  /** The level with f behind the file that it lies within. */
  function Crowded(files: seq<File>, f: File, i: nat): seq<File>
    requires i < |files|
  {
    files[..i + 1] + [f] + files[i + 1..]
  }

  function Removed(files: seq<File>, i: nat): seq<File>
    requires i < |files|
  {
    files[..i] + files[i + 1..]
  }

  /** Whether a binary search looks at position i + 1 before it looks at position i. */
  predicate ProbesNext(left: nat, right: nat, i: nat)
    requires left <= i && i + 2 <= right
    decreases right - left
  {
    var mid := (left + right) / 2;
    if mid == i then false
    else if mid == i + 1 then true
    else if mid < i then ProbesNext(mid + 1, right, i)
    else ProbesNext(left, mid, i)
  }

  /** The search passes the outer file over: it looks at f first, and f ends before the key. */
  ghost predicate Skipped(files: seq<File>, f: File, i: nat, u: UserKey, s: nat)
    requires i < |files|
  {
    var key := IKey(u, s, Value);
    ILess(f.largest, key) && !ILess(files[i].largest, key) && ProbesNext(0, |files| + 1, i)
  }

  /** The files that a search for the key takes notice of. */
  ghost function Noticed(files: seq<File>, f: File, i: nat, u: UserKey, s: nat): seq<File>
    requires i < |files|
  {
    if Skipped(files, f, i, u, s) then Removed(files, i) else files
  }

  ghost predicate Crowding(files: seq<File>, f: File, i: nat) {
    Disjoint(files) && GoodList(files) && GoodFile(f) && i < |files| && Within(f, files[i])
  }

  lemma FilesAround(files: seq<File>, f: File, i: nat, j: nat)
    requires Crowding(files, f, i) && j < |files| && j != i
    ensures j < i ==> Before(files[j].largest, files[i].smallest) && ILess(files[j].largest, files[i].smallest)
    ensures j > i ==> Before(files[i].largest, files[j].smallest) && ILess(files[i].largest, files[j].largest)
    ensures ILess(files[i].smallest, f.largest) && ILess(f.largest, files[i].largest)
  {
    assert files[i] in files && files[j] in files;
    SmallestUpToLargest(f);
    SmallestUpToLargest(files[j]);
    assert j < i ==> Precedes(files[j], files[i]);
    assert j > i ==> Precedes(files[i], files[j]);
  }

  lemma {:induction false} AllBefore(files: seq<File>, key: IKey, left: nat, right: nat)
    requires left <= right <= |files| && forall j :: left <= j < right ==> ILess(files[j].largest, key)
    ensures Found(files, key, left, right) == right
    decreases right - left
  {
    if left < right {
      AllBefore(files, key, (left + right) / 2 + 1, right);
    }
  }

  lemma {:induction false} NoneBefore(files: seq<File>, key: IKey, left: nat, right: nat)
    requires left <= right <= |files| && forall j :: left <= j < right ==> !ILess(files[j].largest, key)
    ensures Found(files, key, left, right) == left
    decreases right - left
  {
    if left < right {
      NoneBefore(files, key, left, (left + right) / 2);
    }
  }

  /** Where the search ends depends on which of the two it looks at first. */
  lemma {:induction false} SearchAround(files: seq<File>, key: IKey, left: nat, right: nat, i: nat)
    requires left <= i && i + 2 <= right <= |files|
    requires forall j :: left <= j < i ==> ILess(files[j].largest, key)
    requires forall j :: i + 2 <= j < right ==> !ILess(files[j].largest, key)
    requires !ILess(files[i].largest, key) && ILess(files[i + 1].largest, key)
    ensures Found(files, key, left, right) == if ProbesNext(left, right, i) then i + 2 else i
    decreases right - left
  {
    var mid := (left + right) / 2;
    if mid == i {
      AllBefore(files, key, left, i);
    } else if mid == i + 1 {
      NoneBefore(files, key, i + 2, right);
    } else if mid < i {
      SearchAround(files, key, mid + 1, right, i);
    } else {
      SearchAround(files, key, left, mid, i);
    }
  }

  /** Files before r end before the key, those from r on do not. */
  ghost predicate EndsAt(files: seq<File>, key: IKey, r: nat) {
    r <= |files| && forall j :: 0 <= j < |files| ==> (ILess(files[j].largest, key) <==> j < r)
  }

  lemma FoundAt(files: seq<File>, key: IKey, r: nat)
    requires EndsAt(files, key, r)
    ensures Found(files, key, 0, |files|) == r
  {
    FoundSplits(files, key, 0, |files|);
    var q := Found(files, key, 0, |files|);
    var before := q < |files| && ILess(files[q].largest, key);
    var behind := r < |files| && ILess(files[r].largest, key);
  }

  lemma EndsSomewhere(files: seq<File>, key: IKey) returns (r: nat)
    requires Disjoint(files) && GoodList(files)
    ensures EndsAt(files, key, r)
  {
    GoodIsBounded(files);
    SortedIsMonotone(files, key);
    FoundSplits(files, key, 0, |files|);
    r := Found(files, key, 0, |files|);
  }

  /** The file at a position, if there is one and it reaches down to u. */
  function FileAt(files: seq<File>, u: UserKey, r: nat): seq<File> {
    if r >= |files| || Less(u, files[r].smallest.user) then [] else [files[r]]
  }

  lemma DeepAt(files: seq<File>, u: UserKey, s: nat, r: nat)
    requires EndsAt(files, IKey(u, s, Value), r)
    ensures DeepFiles(files, u, s) == FileAt(files, u, r)
  {
    FoundAt(files, IKey(u, s, Value), r);
  }

  lemma CrowdedFile(files: seq<File>, f: File, i: nat, j: nat)
    requires i < |files| && j <= |files|
    ensures Crowded(files, f, i)[j] == if j <= i then files[j] else if j == i + 1 then f else files[j - 1]
  {}

  lemma CrowdedEnds(files: seq<File>, f: File, i: nat, key: IKey, r: nat)
    requires EndsAt(files, key, r) && i < |files| && (ILess(f.largest, key) <==> r > i)
    ensures EndsAt(Crowded(files, f, i), key, if r > i then r + 1 else r)
  {
    var c, q := Crowded(files, f, i), if r > i then r + 1 else r;
    forall j | 0 <= j < |c| ensures ILess(c[j].largest, key) <==> j < q {
      CrowdedFile(files, f, i, j);
    }
  }

  lemma RemovedEnds(files: seq<File>, i: nat, key: IKey)
    requires EndsAt(files, key, i) && i < |files|
    ensures EndsAt(Removed(files, i), key, i)
  {
    var rest := Removed(files, i);
    forall j | 0 <= j < |rest| ensures ILess(rest[j].largest, key) <==> j < i {
      assert rest[j] == if j < i then files[j] else files[j + 1];
    }
  }

  lemma InnerEnds(files: seq<File>, f: File, i: nat)
    requires Crowding(files, f, i)
    ensures ILess(files[i].smallest, f.largest) && ILess(f.largest, files[i].largest)
    ensures Less(files[i].smallest.user, f.largest.user) && !Less(f.largest.user, f.smallest.user)
  {
    SmallestUpToLargest(f);
    assert f.entries[0] in f.entries;
  }

  /** A key that f reaches up to, or one behind both. */
  lemma Aside(files: seq<File>, f: File, i: nat, u: UserKey, s: nat, r: nat)
    requires Crowding(files, f, i) && EndsAt(files, IKey(u, s, Value), r)
    requires ILess(f.largest, IKey(u, s, Value)) <==> r > i
    ensures DeepFiles(Crowded(files, f, i), u, s) == DeepFiles(files, u, s)
  {
    var q := if r > i then r + 1 else r;
    CrowdedEnds(files, f, i, IKey(u, s, Value), r);
    DeepAt(files, u, s, r);
    DeepAt(Crowded(files, f, i), u, s, q);
    if q <= |files| {
      CrowdedFile(files, f, i, q);
    }
  }

  /** Of the files around f, those that end before the key. */
  lemma OuterEnds(files: seq<File>, f: File, i: nat, key: IKey, r: nat)
    requires Crowding(files, f, i) && EndsAt(files, key, r)
    ensures !ILess(f.largest, key) ==> r <= i
    ensures ILess(files[i].largest, key) <==> r > i
    ensures ILess(f.largest, key) ==> r >= i
  {
    InnerEnds(files, f, i);
    if i > 0 {
      FilesAround(files, f, i, i - 1);
    }
  }

  lemma CrowdedBetween(files: seq<File>, f: File, i: nat, key: IKey)
    requires EndsAt(files, key, i) && i < |files| && ILess(f.largest, key)
    ensures Found(Crowded(files, f, i), key, 0, |files| + 1) == if ProbesNext(0, |files| + 1, i) then i + 2 else i
  {
    var c := Crowded(files, f, i);
    forall j | 0 <= j < |c| ensures ILess(c[j].largest, key) <==> j < i || j == i + 1 {
      CrowdedFile(files, f, i, j);
    }
    SearchAround(c, key, 0, |c|, i);
  }

  /** A key between the ends of the two: the search comes to the outer file, */
  lemma BetweenFound(files: seq<File>, f: File, i: nat, u: UserKey, s: nat)
    requires Crowding(files, f, i) && EndsAt(files, IKey(u, s, Value), i) && ILess(f.largest, IKey(u, s, Value))
    requires !ProbesNext(0, |files| + 1, i)
    ensures DeepFiles(Crowded(files, f, i), u, s) == DeepFiles(files, u, s)
  {
    CrowdedBetween(files, f, i, IKey(u, s, Value));
    DeepAt(files, u, s, i);
    CrowdedFile(files, f, i, i);
  }

  /** or passes it over. */
  lemma BetweenPassed(files: seq<File>, f: File, i: nat, u: UserKey, s: nat)
    requires Crowding(files, f, i) && EndsAt(files, IKey(u, s, Value), i) && ILess(f.largest, IKey(u, s, Value))
    requires ProbesNext(0, |files| + 1, i)
    ensures DeepFiles(Crowded(files, f, i), u, s) == DeepFiles(Removed(files, i), u, s)
  {
    var key, rest := IKey(u, s, Value), Removed(files, i);
    CrowdedBetween(files, f, i, key);
    RemovedEnds(files, i, key);
    DeepAt(rest, u, s, i);
    if i + 1 < |files| {
      CrowdedFile(files, f, i, i + 2);
      assert rest[i] == files[i + 1];
    }
  }

  lemma Between(files: seq<File>, f: File, i: nat, u: UserKey, s: nat)
    requires Crowding(files, f, i) && EndsAt(files, IKey(u, s, Value), i) && ILess(f.largest, IKey(u, s, Value))
    ensures DeepFiles(Crowded(files, f, i), u, s) == DeepFiles(Noticed(files, f, i, u, s), u, s)
  {
    if ProbesNext(0, |files| + 1, i) {
      BetweenPassed(files, f, i, u, s);
    } else {
      BetweenFound(files, f, i, u, s);
    }
  }

  /** The search in the crowded level finds what it would find in the level as noticed. */
  lemma SearchNotices(files: seq<File>, f: File, i: nat, u: UserKey, s: nat)
    requires Crowding(files, f, i)
    ensures DeepFiles(Crowded(files, f, i), u, s) == DeepFiles(Noticed(files, f, i, u, s), u, s)
  {
    var r := EndsSomewhere(files, IKey(u, s, Value));
    OuterEnds(files, f, i, IKey(u, s, Value), r);
    if ILess(f.largest, IKey(u, s, Value)) && r == i {
      Between(files, f, i, u, s);
    } else {
      Aside(files, f, i, u, s, r);
    }
  }

  // ------------------------------------------------------- which answers are wrong

  lemma RemovedIsGood(files: seq<File>, i: nat)
    requires Disjoint(files) && GoodList(files) && i < |files|
    ensures Disjoint(Removed(files, i)) && GoodList(Removed(files, i))
    ensures forall g :: g in Removed(files, i) ==> exists j :: 0 <= j < |files| && j != i && files[j] == g
    ensures forall g :: g in files ==> g in Removed(files, i) || g == files[i]
  {
    var r := Removed(files, i);
    forall j | 0 <= j < |r| ensures r[j] == files[if j < i then j else j + 1] {}
    forall j, k | 0 <= j < k < |r| ensures Precedes(r[j], r[k]) {
      assert Precedes(files[if j < i then j else j + 1], files[if k < i then k else k + 1]);
    }
    assert files == files[..i] + [files[i]] + files[i + 1..];
  }

  /** What the crowded level answers is the right answer of the level as noticed. */
  lemma AnswerOfNoticed(files: seq<File>, f: File, i: nat, level: nat, u: UserKey, s: nat)
    requires Crowding(files, f, i) && level > 0
    ensures LevelAnswer(Crowded(files, f, i), level, u, s) == LevelAnswer(Noticed(files, f, i, u, s), level, u, s)
    ensures RightAnswer(Noticed(files, f, i, u, s), u, s, LevelAnswer(Crowded(files, f, i), level, u, s))
  {
    var n := Noticed(files, f, i, u, s);
    SearchNotices(files, f, i, u, s);
    RemovedIsGood(files, i);
    DeepAreCandidates(n, u, s);
    ScanIsRight(n, DeepFiles(n, u, s), u, s);
  }

  lemma CrowdedMembers(files: seq<File>, f: File, i: nat)
    requires i < |files|
    ensures forall g :: g in Crowded(files, f, i) <==> g in files || g == f
  {
    assert files == files[..i + 1] + files[i + 1..];
  }

  /** No other file holds the user keys in the range of f. */
  lemma OnlyInner(files: seq<File>, f: File, i: nat, u: UserKey, s: nat)
    requires Crowding(files, f, i) && !Less(u, f.smallest.user) && !Less(f.largest.user, u)
    ensures forall g :: g in files ==> NothingVisible(g, u, s)
  {
    forall j | 0 <= j < |files| && j != i ensures NothingVisible(files[j], u, s) {
      FilesAround(files, f, i, j);
      UncoveredHoldsNothing(files[j], u, s);
    }
  }

  /** An entry of f is never found. */
  lemma InnerIsMissed(files: seq<File>, f: File, i: nat, level: nat, u: UserKey, s: nat)
    requires Crowding(files, f, i) && level > 0 && !NothingVisible(f, u, s)
    ensures !Skipped(files, f, i, u, s) && LevelAnswer(Crowded(files, f, i), level, u, s) == None
    ensures !RightAnswer(Crowded(files, f, i), u, s, LevelAnswer(Crowded(files, f, i), level, u, s))
  {
    var e :| e in f.entries && Visible(e, u, s);
    SmallestUpToLargest(f);
    EntriesInRange(f);
    assert !Skipped(files, f, i, u, s);
    AnswerOfNoticed(files, f, i, level, u, s);
    OnlyInner(files, f, i, u, s);
    CrowdedMembers(files, f, i);
  }

  /** A skipped file hides the newest entry of its keys. */
  lemma OuterIsMissed(files: seq<File>, f: File, i: nat, level: nat, u: UserKey, s: nat)
    requires Crowding(files, f, i) && level > 0 && Skipped(files, f, i, u, s) && !NothingVisible(files[i], u, s)
    ensures !RightAnswer(Crowded(files, f, i), u, s, LevelAnswer(Crowded(files, f, i), level, u, s))
  {
    var e :| e in files[i].entries && Visible(e, u, s);
    var hit := LevelAnswer(Crowded(files, f, i), level, u, s);
    AnswerOfNoticed(files, f, i, level, u, s);
    CrowdedMembers(files, f, i);
    assert files[i] in files;
    if hit.Some? {
      RemovedIsGood(files, i);
      var g :| g in Removed(files, i) && hit.value in g.entries;
      var j :| 0 <= j < |files| && j != i && files[j] == g;
      SkippedIsNewer(files, f, i, j, u, s, e, hit.value);
    }
  }

  lemma SkippedIsNewer(files: seq<File>, f: File, i: nat, j: nat, u: UserKey, s: nat, e: Entry, d: Entry)
    requires Crowding(files, f, i) && Skipped(files, f, i, u, s) && j < |files| && j != i
    requires e in files[i].entries && Visible(e, u, s) && d in files[j].entries && Visible(d, u, s)
    ensures e.key.seqno > d.key.seqno
  {
    if i < j {
      EarlierIsNewer(files, i, j);
    } else {
      InnerEnds(files, f, i);
      FilesAround(files, f, i, j);
      EntriesInRange(files[j]);
      assert false;
    }
  }

  /** Exactly the wrong answers: those for keys of which f holds a visible entry, and those
      for keys of which the outer file does, if it is passed over. */
  lemma WrongAnswers(files: seq<File>, f: File, i: nat, level: nat, u: UserKey, s: nat)
    requires Crowding(files, f, i) && level > 0
    ensures RightAnswer(Crowded(files, f, i), u, s, LevelAnswer(Crowded(files, f, i), level, u, s)) <==>
              NothingVisible(f, u, s) && (Skipped(files, f, i, u, s) ==> NothingVisible(files[i], u, s))
  {
    if !NothingVisible(f, u, s) {
      InnerIsMissed(files, f, i, level, u, s);
    } else if Skipped(files, f, i, u, s) && !NothingVisible(files[i], u, s) {
      OuterIsMissed(files, f, i, level, u, s);
    } else {
      AnswerOfNoticed(files, f, i, level, u, s);
      CrowdedMembers(files, f, i);
      RemovedIsGood(files, i);
    }
  }

  // --------------------------------------------------- flush during a compaction

  /** An output across the flushed file surrounds it, since no input meets its range. */
  lemma AcrossIsWithin(v: Levels, p: Picked, outputs: seq<File>, f: File, o: File, maxOverlap: nat)
    requires WellFormed(v) && GoodChoice(v, p) && GoodOutputs(v, p, outputs) && o in outputs && GoodFile(f)
    requires MemLevel(v, RangeOf(f), maxOverlap, p.level + 1) && !Precedes(f, o) && !Precedes(o, f)
    ensures Within(f, o)
  {
    InputsAreFiles(v, p);
    forall e | e in o.entries ensures Less(e.key.user, f.smallest.user) || Less(f.largest.user, e.key.user) {
      var g := InputFile(p, e);
      NothingMeets(v, RangeOf(f), maxOverlap, p.level + 1, if g in p.inputs0 then p.level else p.level + 1, g);
      EntriesInRange(g);
    }
    assert o.entries[0] in o.entries && o.entries[|o.entries| - 1] in o.entries;
  }

  /** Between the ends of an output are the ends of its inputs. */
  lemma AmidInputs(p: Picked, o: File, u: UserKey)
    requires GoodFile(o) && Less(o.smallest.user, u) && Less(u, o.largest.user)
    requires forall e :: e in o.entries ==> InFiles(p.inputs0, e) || InFiles(p.inputs1, e)
    requires forall g :: g in p.inputs0 || g in p.inputs1 ==> GoodFile(g)
    ensures Amid(p.inputs0 + p.inputs1, u)
  {
    var e, d := o.entries[0], o.entries[|o.entries| - 1];
    assert e in o.entries && d in o.entries;
    var g := InputFile(p, e);
    var h := InputFile(p, d);
    EntriesInRange(g);
    EntriesInRange(h);
    assert g in p.inputs0 + p.inputs1 && h in p.inputs0 + p.inputs1;
    RanksDiffer();
  }

  /** If the inputs leave no gap, no flush finds a place between them. */
  lemma NoGapNoneAcross(v: Levels, p: Picked, outputs: seq<File>, f: File, maxOverlap: nat, level: nat)
    requires WellFormed(v) && GoodChoice(v, p) && GoodOutputs(v, p, outputs) && GoodFile(f)
    requires Unbroken(p.inputs0 + p.inputs1) && MemLevel(v, RangeOf(f), maxOverlap, level)
    ensures NoneAcross(p, outputs, f, level)
  {
    InputsAreFiles(v, p);
    if level == p.level + 1 {
      forall o | o in outputs ensures Precedes(f, o) || Precedes(o, f) {
        if !Precedes(f, o) && !Precedes(o, f) {
          AcrossIsWithin(v, p, outputs, f, o, maxOverlap);
          GapIsNeeded(v, p, o, f, maxOverlap);
        }
      }
    }
  }

  lemma BeforeOuterEnd(o: File, f: File)
    requires GoodFile(f) && Within(f, o)
    ensures Less(f.smallest.user, o.largest.user)
  {
    SmallestUpToLargest(f);
    RanksDiffer();
  }

  lemma GapIsNeeded(v: Levels, p: Picked, o: File, f: File, maxOverlap: nat)
    requires WellFormed(v) && GoodChoice(v, p) && GoodFile(o) && GoodFile(f) && Within(f, o)
    requires forall e :: e in o.entries ==> InFiles(p.inputs0, e) || InFiles(p.inputs1, e)
    requires MemLevel(v, RangeOf(f), maxOverlap, p.level + 1)
    ensures !Unbroken(p.inputs0 + p.inputs1)
  {
    InputsAreFiles(v, p);
    BeforeOuterEnd(o, f);
    AmidInputs(p, o, f.smallest.user);
    InputsCoverNot(v, p, f, maxOverlap);
  }

  lemma InputsCoverNot(v: Levels, p: Picked, f: File, maxOverlap: nat)
    requires WellFormed(v) && GoodChoice(v, p) && GoodFile(f) && MemLevel(v, RangeOf(f), maxOverlap, p.level + 1)
    ensures !CoveredBy(p.inputs0 + p.inputs1, f.smallest.user)
  {
    InputsAreFiles(v, p);
    var ins, u := p.inputs0 + p.inputs1, f.smallest.user;
    forall h | h in ins ensures !Covers(h, u) {
      NothingMeets(v, RangeOf(f), maxOverlap, p.level + 1, if h in p.inputs0 then p.level else p.level + 1, h);
      ApartCoversNot(h, f);
    }
  }

  lemma ApartCoversNot(h: File, f: File)
    requires !Meets(h, RangeOf(f)) && GoodFile(f)
    ensures !Covers(h, f.smallest.user)
  {
    SmallestUpToLargest(f);
    RanksDiffer();
  }

  /** Whatever is flushed while a compaction without a gap runs, the version stays well-formed
      and every read is right.  The inputs that PickCompaction selects are such. */
  lemma NoGapNoLoss(v: Levels, p: Picked, outputs: seq<File>, v': Levels, f: File, maxOverlap: nat, level: nat, both: Levels, u: UserKey, s: nat)
    requires Replaced(v, p, outputs, v') && GoodFile(f) && NewerThanAll(v, f) && NumbersApart(v, outputs, f)
    requires MemLevel(v, RangeOf(f), maxOverlap, level) && BothInstalled(v, p, outputs, f, level, both)
    requires Unbroken(p.inputs0 + p.inputs1)
    ensures WellFormed(both) && Read(both, u, s) == View(Entries(v') + EntriesOf(f), u, s)
  {
    NoGapNoneAcross(v, p, outputs, f, maxOverlap, level);
    FlushDuringCompaction(v, p, outputs, v', f, maxOverlap, level, both);
    ReadsBeside(v, p, outputs, v', f, maxOverlap, level, both, u, s);
  }

  /** In the order of the level the flushed file comes directly behind the output around it. */
  lemma CrowdedInOrder(files: seq<File>, f: File, i: nat)
    requires Crowding(files, f, i) && InOrder(files)
    ensures InOrder(Crowded(files, f, i))
  {
    var c := Crowded(files, f, i);
    forall j | 0 <= j < |c| ensures c[j] == if j <= i then files[j] else if j == i + 1 then f else files[j - 1] {}
    InnerEnds(files, f, i);
    assert BySmallest(files[i], f);
    forall j, k | 0 <= j < k < |c| ensures BySmallest(c[j], c[k]) {
      if j == i + 1 {
        FilesAround(files, f, i, k - 1);
        assert BySmallest(f, files[k - 1]);
      } else if k == i + 1 {
        if j < i {
          assert BySmallest(files[j], files[i]);
          BySmallestTransitive(files[j], files[i], f);
        }
      } else {
        assert BySmallest(files[if j <= i then j else j - 1], files[if k <= i then k else k - 1]);
      }
    }
  }

  /** The levels with both the flushed file and the outputs installed. */
  lemma BothLevels(v: Levels, p: Picked, outputs: seq<File>, v': Levels, f: File, both: Levels, i: nat)
    requires Replaced(v, p, outputs, v') && BothInstalled(v, p, outputs, f, p.level + 1, both)
    requires Crowding(v'[p.level + 1], f, i)
    ensures both == v'[p.level + 1 := Crowded(v'[p.level + 1], f, i)]
  {
    var level := p.level + 1;
    SameAsAfter(v, p, outputs, v', f, level, both);
    CrowdedInOrder(v'[level], f, i);
    CrowdedMembers(v'[level], f, i);
    forall l | 0 <= l < NUM_LEVELS ensures both[l] == if l == level then Crowded(v'[l], f, i) else v'[l] {
      assert InOrder(both[l]) && InOrder(v'[l]);
      SameFilesSameLevel(both[l], if l == level then Crowded(v'[l], f, i) else v'[l]);
    }
  }

  /** Where an output lies across the flushed file. */
  ghost predicate AcrossAt(p: Picked, outputs: seq<File>, v': Levels, f: File, i: nat) {
    && p.level + 1 < |v'| && i < |v'[p.level + 1]| && v'[p.level + 1][i] in outputs
    && !Precedes(f, v'[p.level + 1][i]) && !Precedes(v'[p.level + 1][i], f)
  }

  lemma AcrossCrowds(v: Levels, p: Picked, outputs: seq<File>, v': Levels, f: File, maxOverlap: nat, both: Levels, i: nat)
    requires Replaced(v, p, outputs, v') && GoodFile(f)
    requires MemLevel(v, RangeOf(f), maxOverlap, p.level + 1) && BothInstalled(v, p, outputs, f, p.level + 1, both)
    requires AcrossAt(p, outputs, v', f, i)
    ensures WellFormed(v') && Crowding(v'[p.level + 1], f, i)
    ensures both == v'[p.level + 1 := Crowded(v'[p.level + 1], f, i)]
  {
    StaysWellFormed(v, p, outputs, v');
    AcrossIsWithin(v, p, outputs, f, v'[p.level + 1][i], maxOverlap);
    assert SortedLevels(v');
    BothLevels(v, p, outputs, v', f, both, i);
  }

  lemma AcrossSomewhere(v: Levels, p: Picked, outputs: seq<File>, v': Levels, f: File, level: nat) returns (i: nat)
    requires Replaced(v, p, outputs, v') && !NoneAcross(p, outputs, f, level)
    ensures level == p.level + 1 && AcrossAt(p, outputs, v', f, i)
  {
    var o :| o in outputs && !Precedes(f, o) && !Precedes(o, f);
    assert o in v'[p.level + 1];
    i :| 0 <= i < |v'[p.level + 1]| && v'[p.level + 1][i] == o;
  }

  ghost predicate LevelRight(files: seq<File>, level: nat, u: UserKey, s: nat) {
    RightAnswer(files, u, s, LevelAnswer(files, level, u, s))
  }

  /** Whatever is looked up in the level, the answer is right. */
  ghost predicate AllRight(files: seq<File>, level: nat) {
    forall u, s: nat {:trigger LevelRight(files, level, u, s)} :: LevelRight(files, level, u, s)
  }

  lemma WrongWhenAcross(v: Levels, p: Picked, outputs: seq<File>, v': Levels, f: File, maxOverlap: nat, both: Levels, i: nat)
    requires Replaced(v, p, outputs, v') && GoodFile(f)
    requires MemLevel(v, RangeOf(f), maxOverlap, p.level + 1) && BothInstalled(v, p, outputs, f, p.level + 1, both)
    requires AcrossAt(p, outputs, v', f, i)
    ensures !LevelRight(both[p.level + 1], p.level + 1, f.entries[0].key.user, f.entries[0].key.seqno)
  {
    var level, e := p.level + 1, f.entries[0];
    AcrossCrowds(v, p, outputs, v', f, maxOverlap, both, i);
    assert Visible(e, e.key.user, e.key.seqno);
    InnerIsMissed(v'[level], f, i, level, e.key.user, e.key.seqno);
  }

  lemma RightEverywhere(v: Levels, level: nat)
    requires WellFormed(v) && level < |v|
    ensures AllRight(v[level], level)
  {
    forall u, s: nat ensures LevelRight(v[level], level, u, s) {
      LevelAnswerIsRight(v, level, u, s);
    }
  }

  lemma RightIfNoneAcross(v: Levels, p: Picked, outputs: seq<File>, v': Levels, f: File, maxOverlap: nat, level: nat, both: Levels)
    requires Replaced(v, p, outputs, v') && GoodFile(f) && NewerThanAll(v, f) && NumbersApart(v, outputs, f)
    requires MemLevel(v, RangeOf(f), maxOverlap, level) && BothInstalled(v, p, outputs, f, level, both)
    requires NoneAcross(p, outputs, f, level)
    ensures AllRight(both[level], level)
  {
    FlushDuringCompaction(v, p, outputs, v', f, maxOverlap, level, both);
    RightEverywhere(both, level);
  }

  lemma WrongIfAcross(v: Levels, p: Picked, outputs: seq<File>, v': Levels, f: File, maxOverlap: nat, level: nat, both: Levels)
    requires Replaced(v, p, outputs, v') && GoodFile(f)
    requires MemLevel(v, RangeOf(f), maxOverlap, level) && BothInstalled(v, p, outputs, f, level, both)
    requires !NoneAcross(p, outputs, f, level)
    ensures !AllRight(both[level], level)
  {
    var i := AcrossSomewhere(v, p, outputs, v', f, level);
    WrongWhenAcross(v, p, outputs, v', f, maxOverlap, both, i);
  }

  /** After a flush during a compaction, every search of the level that got the flushed file
      gives the right answer if and only if no output lies across that file. */
  lemma SearchRightIfNoneAcross(v: Levels, p: Picked, outputs: seq<File>, v': Levels, f: File, maxOverlap: nat, level: nat, both: Levels)
    requires Replaced(v, p, outputs, v') && GoodFile(f) && NewerThanAll(v, f) && NumbersApart(v, outputs, f)
    requires MemLevel(v, RangeOf(f), maxOverlap, level) && BothInstalled(v, p, outputs, f, level, both)
    ensures AllRight(both[level], level) <==> NoneAcross(p, outputs, f, level)
  {
    if NoneAcross(p, outputs, f, level) {
      RightIfNoneAcross(v, p, outputs, v', f, maxOverlap, level, both);
    } else {
      WrongIfAcross(v, p, outputs, v', f, maxOverlap, level, both);
    }
  }

  // ------------------------------------------------------------ whole reads

  ghost predicate SameAt(v: Levels, w: Levels, l: nat, u: UserKey, s: nat)
    requires l < |v| && l < |w|
  {
    LevelAnswer(v[l], l, u, s) == LevelAnswer(w[l], l, u, s)
  }

  lemma {:induction false} SameAnswers(v: Levels, w: Levels, level: nat, u: UserKey, s: nat)
    requires |v| == |w| && level <= |v|
    requires forall l {:trigger SameAt(v, w, l, u, s)} :: 0 <= l < |v| ==> SameAt(v, w, l, u, s)
    ensures Answer(v, level, u, s) == Answer(w, level, u, s)
    decreases |v| - level
  {
    if level < |v| {
      assert SameAt(v, w, level, u, s);
      SameAnswers(v, w, level + 1, u, s);
    }
  }

  lemma OneFewer(v: Levels, level: nat, i: nat)
    requires WellFormed(v) && 0 < level < NUM_LEVELS && i < |v[level]|
    ensures WellFormed(v[level := Removed(v[level], i)])
  {
    var w := v[level := Removed(v[level], i)];
    RemovedIsGood(v[level], i);
    forall l, g | 0 <= l < |w| && g in w[l] ensures g in v[l] && GoodFile(g) {}
    forall l | 0 <= l < |w| ensures forall j :: 0 <= j < |w[l]| ==> w[l][j] == v[l][if l == level && j >= i then j + 1 else j] {}
    forall l | 1 <= l < |w| ensures Disjoint(w[l]) {}
    forall l, m, f, g | 0 <= l < m < |w| && f in w[l] && g in w[m] ensures Newer(f, g) {
      assert f in v[l] && g in v[m];
    }
  }

  /** What is left for reads of a key when an output lies across the flushed file. */
  ghost function Readable(v': Levels, level: nat, f: File, i: nat, u: UserKey, s: nat): Levels
    requires level < |v'| && i < |v'[level]|
  {
    v'[level := Noticed(v'[level], f, i, u, s)]
  }

  lemma CrowdedReads(v': Levels, f: File, level: nat, i: nat, u: UserKey, s: nat)
    requires WellFormed(v') && 0 < level < NUM_LEVELS && Crowding(v'[level], f, i)
    ensures Read(v'[level := Crowded(v'[level], f, i)], u, s) == View(Entries(Readable(v', level, f, i, u, s)), u, s)
  {
    var both, w := v'[level := Crowded(v'[level], f, i)], Readable(v', level, f, i, u, s);
    AnswerOfNoticed(v'[level], f, i, level, u, s);
    forall l | 0 <= l < |both| ensures SameAt(both, w, l, u, s) {}
    SameAnswers(both, w, 0, u, s);
    if Skipped(v'[level], f, i, u, s) {
      OneFewer(v', level, i);
    } else {
      assert w == v';
    }
    ReadIsView(w, u, s);
  }

  /** If an output lies across the flushed file, every read is answered as if that file did
      not exist, and reads that pass the output over as if neither did. */
  lemma ReadsAcross(v: Levels, p: Picked, outputs: seq<File>, v': Levels, f: File, maxOverlap: nat, both: Levels, i: nat, u: UserKey, s: nat)
    requires Replaced(v, p, outputs, v') && GoodFile(f)
    requires MemLevel(v, RangeOf(f), maxOverlap, p.level + 1) && BothInstalled(v, p, outputs, f, p.level + 1, both)
    requires AcrossAt(p, outputs, v', f, i)
    ensures Read(both, u, s) == View(Entries(Readable(v', p.level + 1, f, i, u, s)), u, s)
  {
    AcrossCrowds(v, p, outputs, v', f, maxOverlap, both, i);
    CrowdedReads(v', f, p.level + 1, i, u, s);
  }

  /** Otherwise reads see all that is there. */
  lemma ReadsBeside(v: Levels, p: Picked, outputs: seq<File>, v': Levels, f: File, maxOverlap: nat, level: nat, both: Levels, u: UserKey, s: nat)
    requires Replaced(v, p, outputs, v') && GoodFile(f) && NewerThanAll(v, f) && NumbersApart(v, outputs, f)
    requires MemLevel(v, RangeOf(f), maxOverlap, level) && BothInstalled(v, p, outputs, f, level, both)
    requires NoneAcross(p, outputs, f, level)
    ensures Read(both, u, s) == View(Entries(v') + EntriesOf(f), u, s)
  {
    FlushDuringCompaction(v, p, outputs, v', f, maxOverlap, level, both);
    ReadIsView(both, u, s);
    SameAsAfter(v, p, outputs, v', f, level, both);
    AddedEntries(v', f, level, both);
  }
}
