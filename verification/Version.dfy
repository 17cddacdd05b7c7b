/** Versions of the LSM tree (db/version_set.cc): table files arranged in levels,
    what a reader at a given sequence number sees, and Version::Get. */
module Version {
  import opened Keys

  const NUM_LEVELS: nat := 7  // config::kNumLevels

  datatype Entry = Entry(key: IKey, value: seq<byte>)

  /** FileMetaData together with the entries stored in the table it names. */
  datatype File = File(number: nat, size: nat, smallest: IKey, largest: IKey, entries: seq<Entry>)

  /** files_[0], ..., files_[6]. */
  type Levels = seq<seq<File>>

  // --------------------------------------------------------------- invariants

  /** The order of stored keys: the sequence number alone separates two entries
      for one user key, so no two stored keys share user key and number. */
  predicate Before(a: IKey, b: IKey) {
    Less(a.user, b.user) || (a.user == b.user && a.seqno > b.seqno)
  }

  ghost predicate Sorted(es: seq<Entry>) {
    forall i, j {:trigger Before(es[i].key, es[j].key)} :: 0 <= i < j < |es| ==> Before(es[i].key, es[j].key)
  }

  ghost predicate GoodFile(f: File) {
    && |f.entries| > 0 && Sorted(f.entries)
    && f.smallest == f.entries[0].key
    && f.largest == f.entries[|f.entries| - 1].key
  }

  ghost predicate Distinct(files: seq<File>) {
    forall i, j :: 0 <= i < j < |files| ==> files[i].number != files[j].number
  }

  /** What range arguments need of a file: its bounds are in order. */
  ghost predicate Bounded(f: File) {
    f.smallest == f.largest || Before(f.smallest, f.largest)
  }

  ghost predicate AllBounded(files: seq<File>) {
    forall f {:trigger Bounded(f)} :: f in files ==> Bounded(f)
  }

  lemma GoodIsBounded(files: seq<File>)
    requires forall f :: f in files ==> GoodFile(f)
    ensures AllBounded(files)
  {}

  /** For every user key in both, all entries of f are newer than those of g. */
  ghost predicate Newer(f: File, g: File) {
    forall e, d :: e in f.entries && d in g.entries && e.key.user == d.key.user ==> e.key.seqno > d.key.seqno
  }

  ghost predicate Precedes(f: File, g: File) {
    Before(f.largest, g.smallest)
  }

  /** Sorted, with disjoint key ranges. */
  ghost predicate Disjoint(files: seq<File>) {
    forall i, j {:trigger Precedes(files[i], files[j])} :: 0 <= i < j < |files| ==> Precedes(files[i], files[j])
  }

  ghost predicate GoodFiles(v: Levels) {
    forall l, f {:trigger f in v[l], GoodFile(f)} :: 0 <= l < |v| && f in v[l] ==> GoodFile(f)
  }

  /** A file number occurs once in a version. */
  ghost predicate DistinctNumbers(v: Levels) {
    forall l, m, i, j :: (0 <= l < |v| && 0 <= m < |v| && 0 <= i < |v[l]| && 0 <= j < |v[m]|
                          && v[l][i].number == v[m][j].number) ==> l == m && i == j
  }

  ghost predicate SortedLevels(v: Levels) {
    forall l :: 1 <= l < |v| ==> Disjoint(v[l])
  }

  /** Level 0 may overlap; a larger file number means a newer file. */
  ghost predicate ZeroByAge(files: seq<File>) {
    forall f, g {:trigger Newer(f, g)} :: f in files && g in files && f.number > g.number ==> Newer(f, g)
  }

  /** Shallower is newer. */
  ghost predicate LevelsByAge(v: Levels) {
    forall l, m, f, g {:trigger f in v[l], g in v[m], Newer(f, g)} :: 0 <= l < m < |v| && f in v[l] && g in v[m] ==> Newer(f, g)
  }

  ghost predicate WellFormed(v: Levels) {
    && |v| == NUM_LEVELS
    && GoodFiles(v)
    && DistinctNumbers(v)
    && SortedLevels(v)
    && ZeroByAge(v[0])
    && LevelsByAge(v)
  }

  /** What the selection code relies on: bounds in order, deep levels sorted, and no file
      twice in level 0. */
  ghost predicate Ranged(v: Levels) {
    && |v| == NUM_LEVELS && Distinct(v[0])
    && (forall l :: 0 <= l < NUM_LEVELS ==> AllBounded(v[l]))
    && (forall l :: 1 <= l < NUM_LEVELS ==> Disjoint(v[l]))
  }

  lemma WellFormedIsRanged(v: Levels)
    requires WellFormed(v)
    ensures Ranged(v)
  {
    forall l | 0 <= l < NUM_LEVELS ensures AllBounded(v[l]) {
      GoodIsBounded(v[l]);
    }
  }

  // -------------------------------------------------------------------- views

  ghost function Entries(v: Levels): set<Entry> {
    set l, f, e | 0 <= l < |v| && f in v[l] && e in f.entries :: e
  }

  predicate Visible(e: Entry, u: UserKey, s: nat) {
    e.key.user == u && e.key.seqno <= s
  }

  ghost predicate Newest(es: set<Entry>, u: UserKey, s: nat, e: Entry) {
    e in es && Visible(e, u, s) && forall d :: d in es && Visible(d, u, s) ==> d == e || d.key.seqno < e.key.seqno
  }

  /** What a reader at sequence s sees for user key u. */
  ghost function View(es: set<Entry>, u: UserKey, s: nat): Option<seq<byte>> {
    if exists e :: Newest(es, u, s, e) && e.key.kind == Value
    then var e :| Newest(es, u, s, e) && e.key.kind == Value; Some(e.value)
    else None
  }

  function Payload(e: Entry): Option<seq<byte>> {
    if e.key.kind == Value then Some(e.value) else None
  }

  lemma ViewOfNewest(es: set<Entry>, u: UserKey, s: nat, e: Entry)
    requires Newest(es, u, s, e)
    ensures View(es, u, s) == Payload(e)
  {
    forall d | Newest(es, u, s, d) ensures d == e {}
  }

  // ------------------------------------------------------------ table lookups

  /** What TableCache::Get followed by SaveValue yields: the first entry at or
      after the lookup key, if it carries the wanted user key. */
  function Lookup(es: seq<Entry>, k: IKey): Option<Entry> {
    if es == [] then None
    else if ILess(es[0].key, k) then Lookup(es[1..], k)
    else if es[0].key.user == k.user then Some(es[0])
    else None
  }

  ghost predicate NewestOfFile(es: seq<Entry>, u: UserKey, s: nat, e: Entry) {
    e in es && Visible(e, u, s) && forall d :: d in es && Visible(d, u, s) ==> d == e || d.key.seqno < e.key.seqno
  }

  lemma {:induction false} LookupIsNewest(es: seq<Entry>, u: UserKey, s: nat)
    requires Sorted(es)
    ensures match Lookup(es, IKey(u, s, Value))
            case None => forall e :: e in es ==> !Visible(e, u, s)
            case Some(e) => NewestOfFile(es, u, s, e)
  {
    RanksDiffer();
    var k := IKey(u, s, Value);
    if es != [] {
      if ILess(es[0].key, k) {
        LookupIsNewest(es[1..], u, s);
        assert !Visible(es[0], u, s);
        assert forall e :: e in es ==> e == es[0] || e in es[1..];
      } else {
        forall d | d in es && d != es[0] ensures Before(es[0].key, d.key) {
          var i :| 0 <= i < |es| && es[i] == d;
        }
      }
    }
  }

  // ----------------------------------------------------------------- FindFile

  /** Where a binary search between two positions ends. */
  function Found(files: seq<File>, key: IKey, left: nat, right: nat): (r: nat)
    requires left <= right <= |files|
    ensures left <= r <= right
    decreases right - left
  {
    if left == right then right
    else
      var mid := (left + right) / 2;
      if ILess(files[mid].largest, key) then Found(files, key, mid + 1, right) else Found(files, key, left, mid)
  }

  /** What the search relies on: once a file reaches up to the key, so do those behind it. */
  ghost predicate Monotone(files: seq<File>, key: IKey) {
    forall i, j :: 0 <= i < j < |files| && ILess(files[j].largest, key) ==> ILess(files[i].largest, key)
  }

  lemma {:induction false} FoundSplits(files: seq<File>, key: IKey, left: nat, right: nat)
    requires left <= right <= |files| && Monotone(files, key)
    requires forall i :: 0 <= i < left ==> ILess(files[i].largest, key)
    requires forall i :: right <= i < |files| ==> !ILess(files[i].largest, key)
    ensures var r := Found(files, key, left, right);
            && (forall i :: 0 <= i < r ==> ILess(files[i].largest, key))
            && (forall i :: r <= i < |files| ==> !ILess(files[i].largest, key))
    decreases right - left
  {
    if left < right {
      var mid := (left + right) / 2;
      if ILess(files[mid].largest, key) {
        FoundSplits(files, key, mid + 1, right);
      } else {
        FoundSplits(files, key, left, mid);
      }
    }
  }

  /** Binary search for the first file whose largest key is at or after key. */
  method FindFile(files: seq<File>, key: IKey) returns (right: nat)
    ensures right == Found(files, key, 0, |files|)
    ensures Monotone(files, key) ==>
              && right <= |files|
              && (forall i :: 0 <= i < right ==> ILess(files[i].largest, key))
              && (forall i :: right <= i < |files| ==> !ILess(files[i].largest, key))
  {
    var left := 0;
    right := |files|;
    while left < right
      invariant left <= right <= |files| && Found(files, key, left, right) == Found(files, key, 0, |files|)
    {
      var mid := (left + right) / 2;
      if ILess(files[mid].largest, key) {
        left := mid + 1;
      } else {
        right := mid;
      }
    }
    if Monotone(files, key) {
      FoundSplits(files, key, 0, |files|);
    }
  }

  lemma SortedIsMonotone(files: seq<File>, key: IKey)
    requires Disjoint(files) && AllBounded(files)
    ensures Monotone(files, key)
  {
    LargestAscend(files);
  }

  lemma SmallestUpToLargest(f: File)
    requires GoodFile(f)
    ensures forall e :: e in f.entries ==> (e.key == f.smallest || Before(f.smallest, e.key)) && (e.key == f.largest || Before(e.key, f.largest))
  {}

  lemma EntriesInRange(f: File)
    requires GoodFile(f)
    ensures forall e :: e in f.entries ==> !Less(e.key.user, f.smallest.user) && !Less(f.largest.user, e.key.user)
  {
    SmallestUpToLargest(f);
  }

  lemma AscendPair(files: seq<File>, i: nat, j: nat)
    requires Disjoint(files) && i < j < |files| && Bounded(files[i]) && Bounded(files[j])
    ensures Before(files[i].largest, files[j].largest) && Before(files[i].smallest, files[j].smallest)
    ensures ILess(files[i].largest, files[j].largest) && ILess(files[i].smallest, files[j].smallest)
  {
    assert Precedes(files[i], files[j]);
  }

  lemma LargestAscend(files: seq<File>)
    requires Disjoint(files) && AllBounded(files)
    ensures forall i, j :: 0 <= i < j < |files| ==> Before(files[i].largest, files[j].largest)
    ensures forall i, j :: 0 <= i < j < |files| ==> Before(files[i].smallest, files[j].smallest)
  {
    forall i, j | 0 <= i < j < |files|
      ensures Before(files[i].largest, files[j].largest) && Before(files[i].smallest, files[j].smallest)
    {
      AscendPair(files, i, j);
    }
  }

  // ------------------------------------------------------------- Version::Get

  ghost predicate NothingVisible(f: File, u: UserKey, s: nat) {
    forall e :: e in f.entries ==> !Visible(e, u, s)
  }

  predicate Covers(f: File, u: UserKey) {
    !Less(u, f.smallest.user) && !Less(f.largest.user, u)
  }

  lemma UncoveredHoldsNothing(f: File, u: UserKey, s: nat)
    requires GoodFile(f) && !Covers(f, u)
    ensures NothingVisible(f, u, s)
  {
    SmallestUpToLargest(f);
  }

  ghost predicate Descending(files: seq<File>) {
    forall i, j :: 0 <= i < j < |files| ==> files[i].number > files[j].number
  }

  /** std::sort(tmp.begin(), tmp.end(), NewestFirst). */
  function NewestFirst(files: seq<File>): (r: seq<File>)
    ensures forall f :: f in r <==> f in files
    ensures Distinct(files) ==> Descending(r)
  {
    if files == [] then []
    else
      var rest := NewestFirst(files[1..]);
      assert files == [files[0]] + files[1..];
      assert Distinct(files) ==> forall f :: f in files[1..] ==> files[0].number != f.number;
      InsertByNumber(files[0], rest)
  }

  function InsertByNumber(f: File, files: seq<File>): (r: seq<File>)
    ensures forall g :: g in r <==> g == f || g in files
    ensures Descending(files) && (forall g :: g in files ==> g.number != f.number) ==> Descending(r)
  {
    if files == [] then [f]
    else if f.number > files[0].number then [f] + files
    else
      var rest := InsertByNumber(f, files[1..]);
      assert files == [files[0]] + files[1..];
      assert Descending(files) ==> forall g :: g in files[1..] ==> files[0].number > g.number;
      assert forall i :: 0 <= i < |rest| ==> rest[i] in rest;
      [files[0]] + rest
  }

  /** The files of one level to search for (u, s), in search order: every file
      left out holds nothing visible, or is superseded by a file that holds a
      visible entry;
      every file is newer than the ones after it. */
  ghost predicate Candidates(files: seq<File>, r: seq<File>, u: UserKey, s: nat) {
    && (forall f :: f in r ==> f in files)
    && (forall i, j :: 0 <= i < j < |r| ==> Newer(r[i], r[j]))
    && (forall f :: f in files && f !in r && !NothingVisible(f, u, s) ==>
          exists c :: c in r && Newer(c, f) && !NothingVisible(c, u, s))
  }

  /** The files whose range covers u. */
  function Covering(files: seq<File>, u: UserKey): (r: seq<File>)
    ensures forall f :: f in r <==> f in files && Covers(f, u)
    ensures Distinct(files) ==> Distinct(r)
  {
    if files == [] then []
    else
      var front, last := files[..|files| - 1], files[|files| - 1];
      var r := Covering(front, u);
      assert files == front + [last];
      assert Distinct(files) ==> forall f :: f in front ==> f.number != last.number;
      assert forall a :: 0 <= a < |r| ==> r[a] in r;
      if Covers(last, u) then r + [last] else r
  }

  /** The level-0 files to search, newest first. */
  function ZeroFiles(files: seq<File>, u: UserKey): seq<File> {
    NewestFirst(Covering(files, u))
  }

  ghost predicate GoodList(files: seq<File>) {
    forall f :: f in files ==> GoodFile(f)
  }

  lemma ZeroAreCandidates(files: seq<File>, u: UserKey, s: nat)
    requires Distinct(files) && ZeroByAge(files) && GoodList(files)
    ensures Candidates(files, ZeroFiles(files, u), u, s)
  {
    var r := ZeroFiles(files, u);
    forall i, j | 0 <= i < j < |r| ensures Newer(r[i], r[j]) {
      assert r[i] in r && r[j] in r;
    }
    forall f | f in files && f !in r ensures NothingVisible(f, u, s) {
      UncoveredHoldsNothing(f, u, s);
    }
  }

  method ZeroCandidates(files: seq<File>, u: UserKey, ghost s: nat) returns (r: seq<File>)
    ensures r == ZeroFiles(files, u)
    ensures Distinct(files) && ZeroByAge(files) && GoodList(files) ==> Candidates(files, r, u, s)
  {
    var tmp := [];
    for i := 0 to |files|
      invariant tmp == Covering(files[..i], u)
    {
      assert files[..i + 1][..i] == files[..i];
      if Covers(files[i], u) {
        tmp := tmp + [files[i]];
      }
    }
    assert files[..|files|] == files;
    r := NewestFirst(tmp);
    if Distinct(files) && ZeroByAge(files) && GoodList(files) {
      ZeroAreCandidates(files, u, s);
    }
  }

  /** The file of a deeper level that the binary search leads to, if it reaches down to u. */
  function DeepFiles(files: seq<File>, u: UserKey, s: nat): seq<File> {
    var index := Found(files, IKey(u, s, Value), 0, |files|);
    if index >= |files| || Less(u, files[index].smallest.user) then [] else [files[index]]
  }

  lemma DeepAreCandidates(files: seq<File>, u: UserKey, s: nat)
    requires Disjoint(files) && GoodList(files)
    ensures Candidates(files, DeepFiles(files, u, s), u, s)
  {
    var key, r := IKey(u, s, Value), DeepFiles(files, u, s);
    GoodIsBounded(files);
    SortedIsMonotone(files, key);
    FoundSplits(files, key, 0, |files|);
    var index := Found(files, key, 0, |files|);
    forall i | 0 <= i < |files| && files[i] !in r && !NothingVisible(files[i], u, s)
      ensures |r| == 1 && Newer(r[0], files[i]) && !NothingVisible(r[0], u, s)
    {
      if i == index {
        UncoveredHoldsNothing(files[i], u, s);
      }
      OnlyLaterFilesHide(files, index, i, u, s);
    }
  }

  /** In a sorted level the binary search leaves a single candidate. */
  method DeepCandidates(files: seq<File>, u: UserKey, s: nat) returns (r: seq<File>)
    ensures r == DeepFiles(files, u, s)
    ensures Disjoint(files) && GoodList(files) ==> Candidates(files, r, u, s)
  {
    var index := FindFile(files, IKey(u, s, Value));
    if index >= |files| {
      r := [];
    } else if Less(u, files[index].smallest.user) {
      r := [];
    } else {
      r := [files[index]];
    }
    if Disjoint(files) && GoodList(files) {
      DeepAreCandidates(files, u, s);
    }
  }

  lemma OnlyLaterFilesHide(files: seq<File>, index: nat, i: nat, u: UserKey, s: nat)
    requires Disjoint(files) && forall f :: f in files ==> GoodFile(f)
    requires index <= |files| && i < |files| && i != index
    requires forall j :: 0 <= j < index ==> ILess(files[j].largest, IKey(u, s, Value))
    requires forall j :: index <= j < |files| ==> !ILess(files[j].largest, IKey(u, s, Value))
    requires !NothingVisible(files[i], u, s)
    ensures index < i && !Less(u, files[index].smallest.user)
    ensures Newer(files[index], files[i])
    ensures !NothingVisible(files[index], u, s)
  {
    RanksDiffer();
    SmallestUpToLargest(files[i]);
    var e :| e in files[i].entries && Visible(e, u, s);
    if i < index {
      assert false;
    }
    SmallestUpToLargest(files[index]);
    assert Precedes(files[index], files[i]);
    var last := files[index].entries[|files[index].entries| - 1];
    assert last in files[index].entries && Visible(last, u, s);
  }

  /** Disjoint files never repeat a key, and earlier files are newer. */
  lemma EarlierIsNewer(files: seq<File>, i: nat, j: nat)
    requires Disjoint(files) && forall f :: f in files ==> GoodFile(f)
    requires i < j < |files|
    ensures Newer(files[i], files[j])
  {
    RanksDiffer();
    SmallestUpToLargest(files[i]);
    SmallestUpToLargest(files[j]);
    assert Precedes(files[i], files[j]);
  }

  ghost predicate NewestOfLevel(files: seq<File>, u: UserKey, s: nat, e: Entry) {
    && Visible(e, u, s)
    && (exists f :: f in files && e in f.entries)
    && (forall f, d :: f in files && d in f.entries && Visible(d, u, s) ==> d == e || d.key.seqno < e.key.seqno)
  }

  /** The first hit among the files to search. */
  function Scan(r: seq<File>, u: UserKey, s: nat): Option<Entry> {
    if r == [] then None
    else
      var hit := Lookup(r[0].entries, IKey(u, s, Value));
      if hit.Some? then hit else Scan(r[1..], u, s)
  }

  lemma {:induction false} ScanHits(r: seq<File>, u: UserKey, s: nat) returns (i: nat)
    requires GoodList(r)
    ensures i <= |r| && (forall j :: 0 <= j < i ==> NothingVisible(r[j], u, s))
    ensures if i == |r| then Scan(r, u, s) == None else Scan(r, u, s).Some? && NewestOfFile(r[i].entries, u, s, Scan(r, u, s).value)
  {
    if r == [] {
      i := 0;
    } else {
      assert r[0] in r;
      LookupIsNewest(r[0].entries, u, s);
      if Lookup(r[0].entries, IKey(u, s, Value)).Some? {
        i := 0;
      } else {
        i := ScanHits(r[1..], u, s);
        i := i + 1;
      }
    }
  }

  /** The answer of one level. */
  ghost predicate RightAnswer(files: seq<File>, u: UserKey, s: nat, hit: Option<Entry>) {
    match hit
    case None => forall f :: f in files ==> NothingVisible(f, u, s)
    case Some(e) => NewestOfLevel(files, u, s, e)
  }

  lemma ScanIsRight(files: seq<File>, r: seq<File>, u: UserKey, s: nat)
    requires GoodList(files) && Candidates(files, r, u, s)
    ensures RightAnswer(files, u, s, Scan(r, u, s))
  {
    var i := ScanHits(r, u, s);
    if i < |r| {
      assert r[i] in r;
      forall f, d | f in files && d in f.entries && Visible(d, u, s)
        ensures d == Scan(r, u, s).value || d.key.seqno < Scan(r, u, s).value.key.seqno
      {
        HitIsNewest(files, r, i, u, s, Scan(r, u, s).value, f, d);
      }
    }
  }

  /** The scan over the candidates of one level. */
  method SearchLevel(ghost files: seq<File>, r: seq<File>, u: UserKey, s: nat) returns (hit: Option<Entry>)
    ensures hit == Scan(r, u, s)
    ensures GoodList(files) && Candidates(files, r, u, s) ==> RightAnswer(files, u, s, hit)
  {
    hit := None;
    var i := 0;
    while i < |r| && hit == None
      invariant i <= |r| && Scan(r, u, s) == if hit.Some? then hit else Scan(r[i..], u, s)
    {
      hit := Lookup(r[i].entries, IKey(u, s, Value));
      i := i + 1;
    }
    if GoodList(files) && Candidates(files, r, u, s) {
      ScanIsRight(files, r, u, s);
    }
  }

  /** A hit in r[i] beats whatever a later candidate or a file superseded by a
      candidate holds. */
  lemma HitIsNewest(files: seq<File>, r: seq<File>, i: nat, u: UserKey, s: nat, e: Entry, f: File, d: Entry)
    requires Candidates(files, r, u, s) && i < |r|
    requires forall j :: 0 <= j < i ==> NothingVisible(r[j], u, s)
    requires NewestOfFile(r[i].entries, u, s, e)
    requires f in files && d in f.entries && Visible(d, u, s)
    ensures d == e || d.key.seqno < e.key.seqno
  {
    if f in r {
      var j :| 0 <= j < |r| && r[j] == f;
      if i < j {
        assert Newer(r[i], r[j]);
      }
    } else {
      var c :| c in r && Newer(c, f) && !NothingVisible(c, u, s);
      var j :| 0 <= j < |r| && r[j] == c;
      var x :| x in c.entries && Visible(x, u, s);
      if i < j {
        assert Newer(r[i], r[j]);
      }
    }
  }

  /** What Get finds in one level. */
  function LevelAnswer(files: seq<File>, level: nat, u: UserKey, s: nat): Option<Entry> {
    Scan(if level == 0 then ZeroFiles(files, u) else DeepFiles(files, u, s), u, s)
  }

  /** What Get finds from the given level on. */
  function Answer(v: Levels, level: nat, u: UserKey, s: nat): Option<Entry>
    requires level <= |v|
    decreases |v| - level
  {
    if level == |v| then None
    else
      var hit := LevelAnswer(v[level], level, u, s);
      if hit.Some? then hit else Answer(v, level + 1, u, s)
  }

  lemma LevelAnswerIsRight(v: Levels, level: nat, u: UserKey, s: nat)
    requires WellFormed(v) && level < |v|
    ensures RightAnswer(v[level], u, s, LevelAnswer(v[level], level, u, s))
  {
    if level == 0 {
      ZeroAreCandidates(v[0], u, s);
      ScanIsRight(v[0], ZeroFiles(v[0], u), u, s);
    } else {
      DeepAreCandidates(v[level], u, s);
      ScanIsRight(v[level], DeepFiles(v[level], u, s), u, s);
    }
  }

  function Read(v: Levels, u: UserKey, s: nat): Option<seq<byte>> {
    var hit := Answer(v, 0, u, s);
    if hit.Some? then Payload(hit.value) else None
  }

  /** Level by level, the first hit decides: it is the newest entry of the whole version
      with sequence number at most s. */
  lemma {:induction false} AnswerIsView(v: Levels, level: nat, u: UserKey, s: nat)
    requires WellFormed(v) && level <= |v|
    requires forall l, f :: 0 <= l < level && f in v[l] ==> NothingVisible(f, u, s)
    ensures var hit := Answer(v, level, u, s);
            View(Entries(v), u, s) == if hit.Some? then Payload(hit.value) else None
    decreases |v| - level
  {
    if level == |v| {
      NoHitAnywhere(v, u, s);
    } else {
      LevelAnswerIsRight(v, level, u, s);
      var hit := LevelAnswer(v[level], level, u, s);
      if hit.Some? {
        LevelHitIsNewest(v, level, u, s, hit.value);
        ViewOfNewest(Entries(v), u, s, hit.value);
      } else {
        AnswerIsView(v, level + 1, u, s);
      }
    }
  }

  lemma LevelHitIsNewest(v: Levels, level: nat, u: UserKey, s: nat, e: Entry)
    requires WellFormed(v) && level < NUM_LEVELS
    requires forall l, f :: 0 <= l < level && f in v[l] ==> NothingVisible(f, u, s)
    requires NewestOfLevel(v[level], u, s, e)
    ensures Newest(Entries(v), u, s, e)
  {
    var g :| g in v[level] && e in g.entries;
    assert e in Entries(v);
    forall d | d in Entries(v) && Visible(d, u, s) ensures d == e || d.key.seqno < e.key.seqno {
      var l, f :| 0 <= l < |v| && f in v[l] && d in f.entries;
      assert l < level ==> NothingVisible(f, u, s);
      if l > level {
        assert Newer(g, f);
      }
    }
  }

  lemma NoHitAnywhere(v: Levels, u: UserKey, s: nat)
    requires forall l, f :: 0 <= l < |v| && f in v[l] ==> NothingVisible(f, u, s)
    ensures View(Entries(v), u, s) == None
  {
    forall e | e in Entries(v) ensures !Visible(e, u, s) {
      var l, f :| 0 <= l < |v| && f in v[l] && e in f.entries;
      assert NothingVisible(f, u, s);
    }
  }

  lemma ReadIsView(v: Levels, u: UserKey, s: nat)
    requires WellFormed(v)
    ensures Read(v, u, s) == View(Entries(v), u, s)
  {
    AnswerIsView(v, 0, u, s);
  }

  /** The levels one after the other, up to the first hit. */
  method SearchLevels(v: Levels, u: UserKey, s: nat) returns (hit: Option<Entry>)
    requires |v| == NUM_LEVELS
    ensures hit == Answer(v, 0, u, s)
  {
    var level := 0;
    while level < NUM_LEVELS
      invariant level <= NUM_LEVELS && Answer(v, 0, u, s) == Answer(v, level, u, s)
    {
      if |v[level]| > 0 {
        var files;
        if level == 0 {
          files := ZeroCandidates(v[0], u, s);
        } else {
          files := DeepCandidates(v[level], u, s);
        }
        hit := SearchLevel(v[level], files, u, s);
        if hit.Some? {
          return;
        }
      }
      level := level + 1;
    }
    hit := None;
  }

  /** Version::Get.  On a well-formed version the result is what the newest entry of all
      with sequence number at most s says. */
  method Get(v: Levels, u: UserKey, s: nat) returns (r: Option<seq<byte>>)
    requires |v| == NUM_LEVELS
    ensures r == Read(v, u, s)
    ensures WellFormed(v) ==> r == View(Entries(v), u, s)
  {
    var hit := SearchLevels(v, u, s);
    if WellFormed(v) {
      ReadIsView(v, u, s);
    }
    if hit.Some? {
      var e := hit.value;
      return if e.key.kind == Value then Some(e.value) else None;
    }
    r := None;
  }
}
