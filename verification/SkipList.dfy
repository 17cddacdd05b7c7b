/** The skip list of db/skiplist.h: nodes in an arena, one forward pointer per node
    and level, all pointers changed by single stores. */
module SkipList {
  import opened Keys

  const MAX_HEIGHT: nat := 12  // kMaxHeight
  const HEAD: nat := 0         // head_

  /** The shared memory: keys and heights of allocated nodes, next_ pointers, and
      max_height_. */
  datatype Store = Store(key: map<nat, UserKey>, height: map<nat, nat>, next: map<(nat, nat), Option<nat>>, maxHeight: nat)

  /** x->Next(l). */
  function Next(st: Store, x: nat, l: nat): Option<nat> {
    if (x, l) in st.next then st.next[(x, l)] else None
  }

  /** x->SetNext(l, p). */
  function SetNext(st: Store, x: nat, l: nat, p: Option<nat>): Store {
    st.(next := st.next[(x, l) := p])
  }

  /** NewNode. */
  function NewNode(st: Store, n: nat, k: UserKey, h: nat): Store {
    st.(key := st.key[n := k], height := st.height[n := h])
  }

  /** compare_(n->key, key) < 0 for an allocated node. */
  predicate NodeBefore(st: Store, n: nat, k: UserKey) {
    Less(KeyOf(st, n), k)
  }

  function KeyOf(st: Store, n: nat): UserKey {
    if n in st.key then st.key[n] else []
  }

  // ---------------------------------------------------------------- one level

  /** The node before position i of a level, and the node at it. */
  function Pred(list: seq<nat>, i: nat): nat
    requires i <= |list|
  {
    if i == 0 then HEAD else list[i - 1]
  }

  function At(list: seq<nat>, i: nat): Option<nat>
    requires i <= |list|
  {
    if i < |list| then Some(list[i]) else None
  }

  ghost predicate Allocated(st: Store, list: seq<nat>, l: nat) {
    forall n {:trigger n in list} :: n in list ==> n != HEAD && n in st.key && n in st.height && st.height[n] > l
  }

  ghost predicate Ascending(st: Store, list: seq<nat>)
  {
    forall i, j {:trigger NodeBefore(st, list[i], KeyOf(st, list[j]))} :: 0 <= i < j < |list| ==> NodeBefore(st, list[i], KeyOf(st, list[j]))
  }

  /** Following level l from the head spells `list`. */
  ghost predicate Spells(st: Store, list: seq<nat>, l: nat) {
    forall i {:trigger At(list, i)} :: 0 <= i <= |list| ==> Next(st, Pred(list, i), l) == At(list, i)
  }

  ghost predicate Level(st: Store, list: seq<nat>, l: nat) {
    Allocated(st, list, l) && Ascending(st, list) && Spells(st, list, l)
  }

  /** The invariant: every level is sorted and a sublist of the level below. */
  ghost predicate Good(st: Store, lists: seq<seq<nat>>) {
    && |lists| == MAX_HEIGHT && 1 <= st.maxHeight <= MAX_HEIGHT
    && (forall l {:trigger Level(st, lists[l], l)} :: 0 <= l < MAX_HEIGHT ==> Level(st, lists[l], l))
    && (forall l, n {:trigger n in lists[l]} :: 0 < l < MAX_HEIGHT && n in lists[l] ==> n in lists[l - 1])
    && (forall l :: st.maxHeight <= l < MAX_HEIGHT ==> lists[l] == [])
  }

  /** i is the first position of the level whose key is not before k. */
  ghost predicate FirstFrom(st: Store, list: seq<nat>, k: UserKey, i: nat)
  {
    && i <= |list|
    && (forall j :: 0 <= j < i ==> NodeBefore(st, list[j], k))
    && (forall j :: i <= j < |list| ==> !NodeBefore(st, list[j], k))
  }

  /** r is the first node at or after k in the sorted bottom level. */
  ghost predicate IsFirst(st: Store, list: seq<nat>, k: UserKey, r: Option<nat>)
  {
    exists i: nat :: FirstFrom(st, list, k, i) && r == At(list, i)
  }

  /** A search for k may stand at x on this level. */
  ghost predicate StandsAt(st: Store, list: seq<nat>, k: UserKey, x: nat) {
    x == HEAD || (x in list && NodeBefore(st, x, k))
  }

  /** The place of a node in its level. */
  lemma PlaceOf(st: Store, list: seq<nat>, l: nat, x: nat) returns (i: nat)
    requires Level(st, list, l) && (x == HEAD || x in list)
    ensures i <= |list| && x == Pred(list, i) && Next(st, x, l) == At(list, i)
  {
    i := 0;
    if x != HEAD {
      var p :| 0 <= p < |list| && list[p] == x;
      i := p + 1;
    }
    assert At(list, i) == At(list, i);
  }

  /** The place of a search position in its level. */
  lemma PositionOf(st: Store, list: seq<nat>, l: nat, k: UserKey, x: nat) returns (i: nat)
    requires Level(st, list, l) && StandsAt(st, list, k, x)
    ensures i <= |list| && x == Pred(list, i) && Next(st, x, l) == At(list, i)
    ensures forall j :: 0 <= j < i ==> NodeBefore(st, list[j], k)
  {
    i := PlaceOf(st, list, l, x);
    if x == HEAD {
      i := 0;
      assert At(list, i) == At(list, i);
    } else {
      assert x == list[i - 1];
      forall j | 0 <= j < i ensures NodeBefore(st, list[j], k) {
        if j < i - 1 {
          assert NodeBefore(st, list[j], KeyOf(st, list[i - 1]));
        }
      }
    }
  }

  /** Where the next node is null or not before k, the search has found the split. */
  lemma SplitFound(st: Store, list: seq<nat>, l: nat, k: UserKey, x: nat) returns (i: nat)
    requires Level(st, list, l) && StandsAt(st, list, k, x)
    requires var n := Next(st, x, l); n.None? || !NodeBefore(st, n.value, k)
    ensures FirstFrom(st, list, k, i) && x == Pred(list, i) && Next(st, x, l) == At(list, i)
  {
    i := PositionOf(st, list, l, k, x);
    forall j | i <= j < |list| ensures !NodeBefore(st, list[j], k) {
      if i < j {
        assert NodeBefore(st, list[i], KeyOf(st, list[j]));
      }
    }
  }

  // ------------------------------------------------------------------ Insert

  /** x is new: no level mentions it. */
  ghost predicate Unlinked(lists: seq<seq<nat>>, x: nat, from: nat) {
    x != HEAD && forall l :: from <= l < |lists| ==> x !in lists[l]
  }

  /** Splicing x in at position p of a level. */
  function Splice(list: seq<nat>, p: nat, x: nat): seq<nat>
    requires p <= |list|
  {
    list[..p] + [x] + list[p..]
  }

  /** Storing into a node that a level does not reach leaves the level alone. */
  lemma OtherLevel(st: Store, list: seq<nat>, l: nat, y: nat, m: nat, q: Option<nat>)
    requires Level(st, list, l) && (m != l || (y != HEAD && y !in list))
    ensures Level(SetNext(st, y, m, q), list, l)
  {
    var st' := SetNext(st, y, m, q);
    forall i | 0 <= i <= |list| ensures Next(st', Pred(list, i), l) == At(list, i) {
      assert Next(st, Pred(list, i), l) == At(list, i);
    }
    forall i, j | 0 <= i < j < |list| ensures NodeBefore(st', list[i], KeyOf(st', list[j])) {
      assert NodeBefore(st, list[i], KeyOf(st, list[j]));
    }
  }

  /** The publishing store prev->SetNext(l, x): x, whose own pointer is set already,
      appears in the level at position p. */
  lemma LinkLevel(st: Store, list: seq<nat>, l: nat, p: nat, x: nat)
    requires Level(st, list, l) && x != HEAD && x !in list && x in st.key && x in st.height && st.height[x] > l
    requires FirstFrom(st, list, KeyOf(st, x), p) && Next(st, x, l) == At(list, p)
    requires forall n :: n in list ==> KeyOf(st, n) != KeyOf(st, x)
    ensures Level(SetNext(st, Pred(list, p), l, Some(x)), Splice(list, p, x), l)
  {
    var prev := Pred(list, p);
    var st' := SetNext(st, prev, l, Some(x));
    var list' := Splice(list, p, x);
    assert forall n :: n in list' <==> n in list || n == x;
    forall i | 0 <= i <= |list'| ensures Next(st', Pred(list', i), l) == At(list', i) {
      SpellsAfterLink(st, list, l, p, x, i);
    }
    forall i, j | 0 <= i < j < |list'| ensures NodeBefore(st', list'[i], KeyOf(st', list'[j])) {
      AscendsAfterLink(st, list, p, x, i, j);
    }
  }

  lemma SpellsAfterLink(st: Store, list: seq<nat>, l: nat, p: nat, x: nat, i: nat)
    requires Level(st, list, l) && x != HEAD && x !in list && p <= |list| && Next(st, x, l) == At(list, p)
    requires i <= |list| + 1
    ensures var st' := SetNext(st, Pred(list, p), l, Some(x)); var list' := Splice(list, p, x);
            Next(st', Pred(list', i), l) == At(list', i)
  {
    var list' := Splice(list, p, x);
    if i < p {
      assert At(list, i) == At(list', i) && Pred(list', i) == Pred(list, i);
      DistinctNodes(st, list, l, i, p);
    } else if i > p + 1 {
      assert At(list, i - 1) == At(list', i) && Pred(list', i) == Pred(list, i - 1);
      DistinctNodes(st, list, l, p, i - 1);
    }
  }

  lemma DistinctNodes(st: Store, list: seq<nat>, l: nat, i: nat, j: nat)
    requires Level(st, list, l) && i < j <= |list|
    ensures Pred(list, i) != Pred(list, j)
  {
    assert list[j - 1] in list;
    if i > 0 {
      assert NodeBefore(st, list[i - 1], KeyOf(st, list[j - 1]));
    }
  }

  lemma AscendsAfterLink(st: Store, list: seq<nat>, p: nat, x: nat, i: nat, j: nat)
    requires Ascending(st, list) && FirstFrom(st, list, KeyOf(st, x), p) && i < j <= |list|
    requires forall n :: n in list ==> KeyOf(st, n) != KeyOf(st, x)
    ensures var list' := Splice(list, p, x); NodeBefore(st, list'[i], KeyOf(st, list'[j]))
  {
    RanksDiffer();
    var list' := Splice(list, p, x);
    if j < p {
      assert NodeBefore(st, list[i], KeyOf(st, list[j]));
    } else if i > p {
      assert NodeBefore(st, list[i - 1], KeyOf(st, list[j - 1]));
    } else if i < p && j > p {
      assert NodeBefore(st, list[i], KeyOf(st, list[j - 1]));
    } else if i == p {
      assert !NodeBefore(st, list[j - 1], KeyOf(st, x));
      assert list[j - 1] in list;
    }
  }

  // ------------------------------------------------- one writer, many readers

  /** Insert between two stores: x is linked on levels below i; `wired` tells whether
      x's own pointer on level i has been set. */
  datatype Writer = Idle | Linking(x: nat, height: nat, prev: seq<nat>, i: nat, wired: bool)

  /** FindGreaterOrEqual, FindLessThan and FindLast. */
  datatype Search = From(target: UserKey) | Below(target: UserKey) | Last

  datatype Reader = Searching(what: Search, x: nat, level: nat) | Found(what: Search, result: Option<nat>)

  datatype State = State(st: Store, lists: seq<seq<nat>>, w: Writer, readers: map<nat, Reader>)

  /** prev is the predecessor of key k on a level. */
  ghost predicate IsPrev(st: Store, list: seq<nat>, k: UserKey, prev: nat) {
    exists p: nat :: FirstFrom(st, list, k, p) && prev == Pred(list, p)
  }

  ghost predicate Absent(st: Store, list: seq<nat>, k: UserKey) {
    forall n {:trigger KeyOf(st, n)} :: n in list ==> KeyOf(st, n) != k
  }

  ghost predicate WriterOk(st: Store, lists: seq<seq<nat>>, w: Writer)
    requires |lists| == MAX_HEIGHT
  {
    w.Linking? ==>
      && w.i < w.height <= st.maxHeight <= MAX_HEIGHT && |w.prev| >= w.height
      && w.x != HEAD && w.x in st.key && w.x in st.height && st.height[w.x] == w.height
      && (forall l :: 0 <= l < w.i ==> w.x in lists[l])
      && Unlinked(lists, w.x, w.i)
      && (forall l {:trigger Absent(st, lists[l], KeyOf(st, w.x))} :: w.i <= l < MAX_HEIGHT ==> Absent(st, lists[l], KeyOf(st, w.x)))
      && (forall l {:trigger IsPrev(st, lists[l], KeyOf(st, w.x), w.prev[l])} :: w.i <= l < w.height ==> IsPrev(st, lists[l], KeyOf(st, w.x), w.prev[l]))
      && (w.wired ==> Next(st, w.x, w.i) == Next(st, w.prev[w.i], w.i))
  }

  ghost predicate ReaderOk(st: Store, lists: seq<seq<nat>>, r: Reader)
    requires |lists| == MAX_HEIGHT
  {
    r.Searching? ==> r.level < MAX_HEIGHT && MayStand(st, lists[r.level], r.what, r.x)
  }

  ghost predicate MayStand(st: Store, list: seq<nat>, what: Search, x: nat) {
    if what.Last? then x == HEAD || x in list else StandsAt(st, list, what.target, x)
  }

  /** The answer to a search of a list: the first node at or after the target, the last
      node before it, or the last node; the head stands for no node. */
  ghost predicate Answers(st: Store, list: seq<nat>, what: Search, r: Option<nat>) {
    match what
    case From(k) => IsFirst(st, list, k, r)
    case Below(k) => r.Some? && IsPrev(st, list, k, r.value)
    case Last => r == Some(Pred(list, |list|))
  }

  ghost predicate Inv(s: State) {
    && Good(s.st, s.lists)
    && WriterOk(s.st, s.lists, s.w)
    && forall r {:trigger s.readers[r]} :: r in s.readers ==> ReaderOk(s.st, s.lists, s.readers[r])
  }

  ghost predicate Init(s: State) {
    s == State(Store(map[], map[], map l | 0 <= l < MAX_HEIGHT :: (HEAD, l) := None, 1), seq(MAX_HEIGHT, _ => []), Idle, map[])
  }

  /** Insert(k) has searched, drawn a height and allocated x; its first shared store
      is that of max_height_. */
  ghost predicate Begin(s: State, s': State, k: UserKey, x: nat, height: nat, prev: seq<nat>) {
    && s.w.Idle? && |s.lists| == MAX_HEIGHT && 1 <= height <= MAX_HEIGHT && |prev| == height
    && x != HEAD && x !in s.st.key && Absent(s.st, s.lists[0], k)
    && (forall l :: 0 <= l < height ==> IsPrev(s.st, s.lists[l], k, prev[l]))
    && s' == s.(st := Allocate(s.st, k, x, height), w := Linking(x, height, prev, 0, false))
  }

  function Allocate(st: Store, k: UserKey, x: nat, height: nat): Store {
    var st' := NewNode(st, x, k, height);
    if height > st.maxHeight then st'.(maxHeight := height) else st'
  }

  /** x->NoBarrier_SetNext(i, prev[i]->NoBarrier_Next(i)). */
  ghost predicate Wire(s: State, s': State) {
    && s.w.Linking? && !s.w.wired && s.w.i < |s.w.prev|
    && s' == s.(st := SetNext(s.st, s.w.x, s.w.i, Next(s.st, s.w.prev[s.w.i], s.w.i)), w := s.w.(wired := true))
  }

  /** prev[i]->SetNext(i, x). */
  ghost predicate Publish(s: State, s': State, p: nat) {
    && s.w.Linking? && s.w.wired && s.w.i < |s.w.prev| && s.w.i < |s.lists|
    && p <= |s.lists[s.w.i]| && s.w.prev[s.w.i] == Pred(s.lists[s.w.i], p)
    && s' == s.(st := SetNext(s.st, s.w.prev[s.w.i], s.w.i, Some(s.w.x)),
                lists := s.lists[s.w.i := Splice(s.lists[s.w.i], p, s.w.x)],
                w := if s.w.i + 1 < s.w.height then s.w.(i := s.w.i + 1, wired := false) else Idle)
  }

  /** A search starts; the height it loads may be stale. */
  ghost predicate StartRead(s: State, s': State, r: nat, what: Search, height: nat) {
    && 1 <= height <= s.st.maxHeight
    && s' == s.(readers := s.readers[r := Searching(what, HEAD, height - 1)])
  }

  /** Does the search go on to this node of the level it is on? */
  predicate GoesTo(st: Store, what: Search, next: Option<nat>) {
    next.Some? && (what.Last? || NodeBefore(st, next.value, what.target))
  }

  function Advance(st: Store, r: Reader): Reader
    requires r.Searching?
  {
    var next := Next(st, r.x, r.level);
    if GoesTo(st, r.what, next) then r.(x := next.value)
    else if r.level == 0 then Found(r.what, if r.what.From? then next else Some(r.x))
    else r.(level := r.level - 1)
  }

  /** One load of a next pointer, and what the search does with it. */
  ghost predicate Read(s: State, s': State, r: nat) {
    && r in s.readers && s.readers[r].Searching?
    && s' == s.(readers := s.readers[r := Advance(s.st, s.readers[r])])
  }

  ghost predicate Step(s: State, s': State) {
    || (exists k, x, height, prev :: Begin(s, s', k, x, height, prev))
    || Wire(s, s')
    || (exists p :: Publish(s, s', p))
    || (exists r, what, height :: StartRead(s, s', r, what, height))
    || (exists r :: Read(s, s', r))
  }

  // ------------------------------------------------------- the invariant holds

  lemma InitIsGood(s: State)
    requires Init(s)
    ensures Inv(s)
  {
    forall l | 0 <= l < MAX_HEIGHT ensures Level(s.st, s.lists[l], l) {
      assert s.lists[l] == [];
    }
  }

  /** Allocating a fresh node changes no level. */
  lemma AllocateKeeps(st: Store, list: seq<nat>, l: nat, k: UserKey, x: nat, height: nat)
    requires Level(st, list, l) && x !in st.key
    ensures Level(Allocate(st, k, x, height), list, l)
    ensures x !in list
    ensures forall n :: n in list ==> KeyOf(Allocate(st, k, x, height), n) == KeyOf(st, n)
  {
    var st' := Allocate(st, k, x, height);
    forall i | 0 <= i <= |list| ensures Next(st', Pred(list, i), l) == At(list, i) {
      assert Next(st, Pred(list, i), l) == At(list, i);
    }
    forall i, j | 0 <= i < j < |list| ensures NodeBefore(st', list[i], KeyOf(st', list[j])) {
      assert list[i] in list && list[j] in list;
      assert NodeBefore(st, list[i], KeyOf(st, list[j]));
    }
  }

  lemma BeginKeepsGood(s: State, s': State, k: UserKey, x: nat, height: nat, prev: seq<nat>)
    requires Inv(s) && Begin(s, s', k, x, height, prev)
    ensures Good(s'.st, s'.lists)
    ensures forall l, n :: 0 <= l < MAX_HEIGHT && n in s.lists[l] ==> KeyOf(s'.st, n) == KeyOf(s.st, n) && n != x
  {
    forall l | 0 <= l < MAX_HEIGHT
      ensures Level(s'.st, s'.lists[l], l) && x !in s.lists[l] && forall n :: n in s.lists[l] ==> KeyOf(s'.st, n) == KeyOf(s.st, n)
    {
      assert Level(s.st, s.lists[l], l);
      AllocateKeeps(s.st, s.lists[l], l, k, x, height);
    }
  }

  /** Every level is a sublist of the bottom one. */
  lemma {:induction false} BottomHoldsAll(st: Store, lists: seq<seq<nat>>, l: nat, n: nat)
    requires Good(st, lists) && l < MAX_HEIGHT && n in lists[l]
    ensures n in lists[0]
  {
    if l > 0 {
      BottomHoldsAll(st, lists, l - 1, n);
    }
  }

  lemma BeginFindsAbsent(s: State, s': State, k: UserKey, x: nat, height: nat, prev: seq<nat>, l: nat)
    requires Inv(s) && Begin(s, s', k, x, height, prev) && l < MAX_HEIGHT
    requires forall n :: n in s.lists[l] ==> KeyOf(s'.st, n) == KeyOf(s.st, n)
    ensures Absent(s'.st, s'.lists[l], k)
    ensures l < height ==> IsPrev(s'.st, s'.lists[l], k, prev[l])
  {
    forall n | n in s.lists[l] ensures KeyOf(s'.st, n) != k {
      BottomHoldsAll(s.st, s.lists, l, n);
      assert KeyOf(s.st, n) != k;
    }
    if l < height {
      assert IsPrev(s.st, s.lists[l], k, prev[l]);
      var p: nat :| FirstFrom(s.st, s.lists[l], k, p) && prev[l] == Pred(s.lists[l], p);
      SameKeysSameSplit(s.st, s'.st, s.lists[l], k, p);
    }
  }

  lemma BeginKeepsInv(s: State, s': State, k: UserKey, x: nat, height: nat, prev: seq<nat>)
    requires Inv(s) && Begin(s, s', k, x, height, prev)
    ensures Inv(s')
  {
    BeginKeepsGood(s, s', k, x, height, prev);
    forall l | 0 <= l < MAX_HEIGHT
      ensures Absent(s'.st, s'.lists[l], KeyOf(s'.st, x)) && (l < height ==> IsPrev(s'.st, s'.lists[l], KeyOf(s'.st, x), prev[l]))
    {
      BeginFindsAbsent(s, s', k, x, height, prev, l);
    }
    BeginKeepsReaders(s, s', k, x, height, prev);
  }

  lemma BeginKeepsReaders(s: State, s': State, k: UserKey, x: nat, height: nat, prev: seq<nat>)
    requires Inv(s) && Begin(s, s', k, x, height, prev)
    requires forall l, n :: 0 <= l < MAX_HEIGHT && n in s.lists[l] ==> KeyOf(s'.st, n) == KeyOf(s.st, n)
    ensures forall r :: r in s'.readers ==> ReaderOk(s'.st, s'.lists, s'.readers[r])
  {
    forall r | r in s'.readers ensures ReaderOk(s'.st, s'.lists, s'.readers[r]) {
      assert ReaderOk(s.st, s.lists, s.readers[r]);
    }
  }

  lemma SameKeysSameSplit(st: Store, st': Store, list: seq<nat>, k: UserKey, p: nat)
    requires FirstFrom(st, list, k, p) && forall n :: n in list ==> KeyOf(st', n) == KeyOf(st, n)
    ensures FirstFrom(st', list, k, p)
  {
    assert forall j :: 0 <= j < |list| ==> list[j] in list;
  }

  lemma WireKeepsInv(s: State, s': State)
    requires Inv(s) && Wire(s, s')
    ensures Inv(s')
  {
    var x, i := s.w.x, s.w.i;
    forall l | 0 <= l < MAX_HEIGHT ensures Level(s'.st, s'.lists[l], l) {
      assert Level(s.st, s.lists[l], l);
      OtherLevel(s.st, s.lists[l], l, x, i, Next(s.st, s.w.prev[i], i));
    }
    OnlyPointers(s, s');
    assert s.w.prev[i] != x by {
      assert IsPrev(s.st, s.lists[i], KeyOf(s.st, x), s.w.prev[i]);
      assert Level(s.st, s.lists[i], i);
    }
  }

  /** A store to a pointer changes no key, so positions stay what they are. */
  lemma OnlyPointers(s: State, s': State)
    requires Inv(s) && s'.st.key == s.st.key && s'.lists == s.lists && s'.readers == s.readers
    ensures forall r :: r in s'.readers ==> ReaderOk(s'.st, s'.lists, s'.readers[r])
    ensures s.w.Linking? ==> forall l :: s.w.i <= l < MAX_HEIGHT ==> Absent(s'.st, s.lists[l], KeyOf(s.st, s.w.x))
    ensures s.w.Linking? ==> forall l :: s.w.i <= l < s.w.height ==> IsPrev(s'.st, s.lists[l], KeyOf(s.st, s.w.x), s.w.prev[l])
  {
    forall r | r in s'.readers ensures ReaderOk(s'.st, s'.lists, s'.readers[r]) {
      assert ReaderOk(s.st, s.lists, s.readers[r]);
    }
    if s.w.Linking? {
      var k := KeyOf(s.st, s.w.x);
      forall l | s.w.i <= l < MAX_HEIGHT ensures Absent(s'.st, s.lists[l], k) {
        assert Absent(s.st, s.lists[l], k);
        forall n | n in s.lists[l] ensures KeyOf(s'.st, n) != k {
          assert KeyOf(s.st, n) != k;
        }
      }
      forall l | s.w.i <= l < s.w.height ensures IsPrev(s'.st, s.lists[l], k, s.w.prev[l]) {
        assert IsPrev(s.st, s.lists[l], k, s.w.prev[l]);
        var p :| FirstFrom(s.st, s.lists[l], k, p) && s.w.prev[l] == Pred(s.lists[l], p);
        SameKeysSameSplit(s.st, s'.st, s.lists[l], k, p);
      }
    }
  }

  /** The position named by prev is the split of the level. */
  lemma PublishPosition(st: Store, list: seq<nat>, l: nat, k: UserKey, p: nat)
    requires Level(st, list, l) && p <= |list| && IsPrev(st, list, k, Pred(list, p))
    ensures FirstFrom(st, list, k, p) && Next(st, Pred(list, p), l) == At(list, p)
  {
    var q: nat :| FirstFrom(st, list, k, q) && Pred(list, p) == Pred(list, q);
    if p < q {
      DistinctNodes(st, list, l, p, q);
    } else if q < p {
      DistinctNodes(st, list, l, q, p);
    }
    assert At(list, p) == At(list, p);
  }

  lemma PublishKeepsGood(s: State, s': State, p: nat)
    requires Inv(s) && Publish(s, s', p)
    ensures Good(s'.st, s'.lists)
  {
    var x, i, list := s.w.x, s.w.i, s.lists[s.w.i];
    assert Level(s.st, list, i);
    assert IsPrev(s.st, list, KeyOf(s.st, x), s.w.prev[i]);
    assert Absent(s.st, list, KeyOf(s.st, x));
    PublishPosition(s.st, list, i, KeyOf(s.st, x), p);
    LinkLevel(s.st, list, i, p, x);
    forall l | 0 <= l < MAX_HEIGHT ensures Level(s'.st, s'.lists[l], l) {
      assert Level(s.st, s.lists[l], l);
      if l != i {
        OtherLevel(s.st, s.lists[l], l, s.w.prev[i], i, Some(x));
      }
    }
    assert forall n :: n in s'.lists[i] <==> n in list || n == x;
    forall l, n {:trigger n in s'.lists[l]} | 0 < l < MAX_HEIGHT && n in s'.lists[l] ensures n in s'.lists[l - 1] {
      if n == x && l == i {
        assert x in s.lists[l - 1];
      } else {
        assert n in s.lists[l];
      }
    }
  }

  lemma PublishKeepsInv(s: State, s': State, p: nat)
    requires Inv(s) && Publish(s, s', p)
    ensures Inv(s')
  {
    var x, i := s.w.x, s.w.i;
    PublishKeepsGood(s, s', p);
    assert forall n :: n in s'.lists[i] <==> n in s.lists[i] || n == x;
    var t := s.(st := s'.st);
    OnlyPointers(s, t);
    forall r | r in s'.readers ensures ReaderOk(s'.st, s'.lists, s'.readers[r]) {
      assert ReaderOk(t.st, t.lists, t.readers[r]);
    }
    if s'.w.Linking? {
      forall l | s'.w.i <= l < MAX_HEIGHT ensures Absent(s'.st, s'.lists[l], KeyOf(s'.st, x)) {
        assert Absent(t.st, s.lists[l], KeyOf(s.st, x));
      }
      forall l | s'.w.i <= l < s'.w.height ensures IsPrev(s'.st, s'.lists[l], KeyOf(s'.st, x), s'.w.prev[l]) {
        assert IsPrev(t.st, s.lists[l], KeyOf(s.st, x), s.w.prev[l]);
      }
    }
  }

  lemma ReadKeepsInv(s: State, s': State, r: nat)
    requires Inv(s) && Read(s, s', r)
    ensures Inv(s')
  {
    var rd := s.readers[r];
    assert ReaderOk(s.st, s.lists, rd);
    var list := s.lists[rd.level];
    assert Level(s.st, list, rd.level);
    var i := PlaceOf(s.st, list, rd.level, rd.x);
    assert ReaderOk(s.st, s.lists, Advance(s.st, rd));
    forall q | q in s'.readers ensures ReaderOk(s'.st, s'.lists, s'.readers[q]) {
      assert q in s.readers && (q != r ==> ReaderOk(s.st, s.lists, s.readers[q]));
    }
  }

  lemma StartKeepsInv(s: State, s': State, r: nat, what: Search, height: nat)
    requires Inv(s) && StartRead(s, s', r, what, height)
    ensures Inv(s')
  {
    forall q | q in s'.readers ensures ReaderOk(s'.st, s'.lists, s'.readers[q]) {
      assert q != r ==> q in s.readers && ReaderOk(s.st, s.lists, s.readers[q]);
    }
  }

  /** Every single store and load keeps the invariant. */
  lemma StepKeepsInv(s: State, s': State)
    requires Inv(s) && Step(s, s')
    ensures Inv(s')
  {
    if k, x, height, prev :| Begin(s, s', k, x, height, prev) {
      BeginKeepsInv(s, s', k, x, height, prev);
    } else if Wire(s, s') {
      WireKeepsInv(s, s');
    } else if p :| Publish(s, s', p) {
      PublishKeepsInv(s, s', p);
    } else if r, what, height :| StartRead(s, s', r, what, height) {
      StartKeepsInv(s, s', r, what, height);
    } else {
      var r :| Read(s, s', r);
      ReadKeepsInv(s, s', r);
    }
  }

  // ---------------------------------------------------------------- whole runs

  ghost predicate StepAt(t: seq<State>, i: nat)
    requires i + 1 < |t|
  {
    Step(t[i], t[i + 1])
  }

  ghost predicate Run(t: seq<State>) {
    && t != [] && Init(t[0])
    && forall i {:trigger StepAt(t, i)} :: 0 <= i < |t| - 1 ==> StepAt(t, i)
  }

  lemma {:induction false} RunKeepsInv(t: seq<State>, n: nat)
    requires Run(t) && n < |t|
    ensures Inv(t[n])
  {
    if n == 0 {
      InitIsGood(t[0]);
    } else {
      RunKeepsInv(t, n - 1);
      assert StepAt(t, n - 1);
      StepKeepsInv(t[n - 1], t[n]);
    }
  }

  /** The keys a reader of the bottom level can find. */
  ghost function Contents(s: State): set<UserKey>
    requires |s.lists| > 0
  {
    set n | n in s.lists[0] :: KeyOf(s.st, n)
  }

  /** A search answers at the moment of its last load, and the answer is right for the
      list as it is at that moment. */
  lemma SearchIsAtomic(t: seq<State>, n: nat, r: nat)
    requires Run(t) && n + 1 < |t|
    requires r in t[n].readers && t[n].readers[r].Searching? && Read(t[n], t[n + 1], r)
    requires t[n + 1].readers[r].Found?
    ensures |t[n].lists| == MAX_HEIGHT
    ensures t[n + 1].readers[r].what == t[n].readers[r].what
    ensures Answers(t[n].st, t[n].lists[0], t[n].readers[r].what, t[n + 1].readers[r].result)
    ensures t[n + 1].lists == t[n].lists && t[n + 1].st == t[n].st
  {
    RunKeepsInv(t, n);
    var s, rd := t[n], t[n].readers[r];
    assert ReaderOk(s.st, s.lists, rd);
    assert Level(s.st, s.lists[0], 0);
    if rd.what.Last? {
      var i := PlaceOf(s.st, s.lists[0], 0, rd.x);
    } else {
      var i := SplitFound(s.st, s.lists[0], 0, rd.what.target, rd.x);
    }
  }

  /** One step either leaves the readable contents alone or adds the key being
      inserted: a reader sees the set before an Insert or the set after it, never
      anything else. */
  lemma ContentsChangeAtOnce(t: seq<State>, n: nat)
    requires Run(t) && n + 1 < |t|
    ensures |t[n].lists| == MAX_HEIGHT && |t[n + 1].lists| == MAX_HEIGHT
    ensures || Contents(t[n + 1]) == Contents(t[n])
            || (&& t[n].w.Linking? && t[n].w.i == 0 && KeyOf(t[n].st, t[n].w.x) !in Contents(t[n])
                && Contents(t[n + 1]) == Contents(t[n]) + {KeyOf(t[n].st, t[n].w.x)})
  {
    RunKeepsInv(t, n);
    RunKeepsInv(t, n + 1);
    var s, s' := t[n], t[n + 1];
    assert StepAt(t, n);
    if k, x, height, prev :| Begin(s, s', k, x, height, prev) {
      BeginKeepsGood(s, s', k, x, height, prev);
      SameContents(s, s');
    } else if p :| Publish(s, s', p) {
      if s.w.i == 0 {
        assert forall m :: m in s'.lists[0] <==> m in s.lists[0] || m == s.w.x;
        assert Absent(s.st, s.lists[0], KeyOf(s.st, s.w.x));
      } else {
        SameContents(s, s');
      }
    } else {
      SameContents(s, s');
    }
  }

  lemma SameContents(s: State, s': State)
    requires |s.lists| > 0 && |s'.lists| > 0 && s'.lists[0] == s.lists[0]
    requires forall n :: n in s.lists[0] ==> KeyOf(s'.st, n) == KeyOf(s.st, n)
    ensures Contents(s') == Contents(s)
  {}

  // ------------------------------------------------------------------- towers

  /** The node is on as many levels as it is high, except that the one being inserted is only
      on the levels that have been linked. */
  ghost predicate TowerAt(s: State, n: nat, l: nat)
    requires l < |s.lists|
  {
    n in s.st.height && (n in s.lists[l] <==> l < if s.w.Linking? && n == s.w.x then s.w.i else s.st.height[n])
  }

  ghost predicate Towers(s: State)
    requires |s.lists| == MAX_HEIGHT
  {
    forall n, l {:trigger TowerAt(s, n, l)} :: n in s.st.key && 0 <= l < MAX_HEIGHT ==> TowerAt(s, n, l)
  }

  lemma BeginKeepsTowers(s: State, s': State, k: UserKey, x: nat, height: nat, prev: seq<nat>, n: nat, l: nat)
    requires Inv(s) && Towers(s) && Begin(s, s', k, x, height, prev) && n in s'.st.key && l < MAX_HEIGHT
    ensures TowerAt(s', n, l)
  {
    assert Level(s.st, s.lists[l], l);
    if n != x {
      assert TowerAt(s, n, l);
    }
  }

  lemma PublishKeepsTowers(s: State, s': State, p: nat, n: nat, l: nat)
    requires Inv(s) && Towers(s) && Publish(s, s', p) && n in s'.st.key && l < MAX_HEIGHT
    ensures TowerAt(s', n, l)
  {
    assert TowerAt(s, n, l);
    assert n in Splice(s.lists[s.w.i], p, s.w.x) <==> n in s.lists[s.w.i] || n == s.w.x;
  }

  lemma StepKeepsTowers(s: State, s': State)
    requires Inv(s) && Towers(s) && Step(s, s') && |s'.lists| == MAX_HEIGHT
    ensures Towers(s')
  {
    forall n, l | n in s'.st.key && 0 <= l < MAX_HEIGHT ensures TowerAt(s', n, l) {
      if k, x, height, prev :| Begin(s, s', k, x, height, prev) {
        BeginKeepsTowers(s, s', k, x, height, prev, n, l);
      } else if p :| Publish(s, s', p) {
        PublishKeepsTowers(s, s', p, n, l);
      } else {
        assert TowerAt(s, n, l);
      }
    }
  }

  /** After every step of every run: so when no Insert is under way all nodes are linked on
      all their levels, and max_height_ is at least the height of each. */
  lemma {:induction false} RunKeepsTowers(t: seq<State>, n: nat)
    requires Run(t) && n < |t|
    ensures |t[n].lists| == MAX_HEIGHT && Towers(t[n])
    ensures forall x {:trigger t[n].st.height[x]} :: x in t[n].st.key && x in t[n].st.height && (t[n].w.Linking? ==> x != t[n].w.x) ==> t[n].st.height[x] <= t[n].st.maxHeight
  {
    RunKeepsInv(t, n);
    if n > 0 {
      RunKeepsTowers(t, n - 1);
      RunKeepsInv(t, n - 1);
      assert StepAt(t, n - 1);
      StepKeepsTowers(t[n - 1], t[n]);
    }
  }

  // ----------------------------------------------------------------- SkipList

  lemma OnlyFirstCanEqual(st: Store, list: seq<nat>, l: nat, k: UserKey, p: nat)
    requires Level(st, list, l) && FirstFrom(st, list, k, p)
    ensures (exists n :: n in list && KeyOf(st, n) == k) <==> p < |list| && !Less(k, KeyOf(st, list[p]))
  {
    RanksDiffer();
    assert forall j :: p < j < |list| ==> NodeBefore(st, list[p], KeyOf(st, list[j]));
    if n :| n in list && KeyOf(st, n) == k {
      var j :| 0 <= j < |list| && list[j] == n;
    }
    if p < |list| && !Less(k, KeyOf(st, list[p])) {
      assert list[p] in list;
    }
  }

  class SkipList {
    var st: Store
    ghost var lists: seq<seq<nat>>

    ghost predicate Valid()
      reads this
    {
      Good(st, lists)
    }

    /** The nodes in key order. */
    ghost function Nodes(): seq<nat>
      requires Valid()
      reads this
    {
      lists[0]
    }

    constructor ()
      ensures Valid() && Nodes() == []
    {
      st := Store(map[], map[], map l | 0 <= l < MAX_HEIGHT :: (HEAD, l) := None, 1);
      lists := seq(MAX_HEIGHT, _ => []);
      new;
      InitIsGood(State(st, lists, Idle, map[]));
    }

    /** FindGreaterOrEqual: the first node at or after k, and the node before it on
        every level in use. */
    method FindGreaterOrEqual(k: UserKey) returns (r: Option<nat>, prev: seq<nat>)
      requires Valid()
      ensures IsFirst(st, Nodes(), k, r)
      ensures |prev| == st.maxHeight && forall l :: 0 <= l < st.maxHeight ==> IsPrev(st, lists[l], k, prev[l])
    {
      var x := HEAD;
      var level := st.maxHeight - 1;
      prev := seq(st.maxHeight, _ => HEAD);
      assert Level(st, lists[level], level);
      ghost var pos: nat := PositionOf(st, lists[level], level, k, x);
      while true
        invariant 0 <= level < st.maxHeight && |prev| == st.maxHeight && Level(st, lists[level], level)
        invariant StandsAt(st, lists[level], k, x) && pos <= |lists[level]| && x == Pred(lists[level], pos)
        invariant Next(st, x, level) == At(lists[level], pos)
        invariant forall l :: level < l < st.maxHeight ==> IsPrev(st, lists[l], k, prev[l])
        decreases level, |lists[level]| - pos
      {
        var next := Next(st, x, level);
        if next.Some? && NodeBefore(st, next.value, k) {
          x, pos := next.value, pos + 1;
          assert At(lists[level], pos) == At(lists[level], pos);
        } else {
          ghost var p := SplitFound(st, lists[level], level, k, x);
          prev := prev[level := x];
          if level == 0 {
            return next, prev;
          } else {
            level := level - 1;
            assert Level(st, lists[level], level);
            pos := PositionOf(st, lists[level], level, k, x);
          }
        }
      }
    }

    /** FindLessThan: the last node before k, or the head. */
    method FindLessThan(k: UserKey) returns (x: nat)
      requires Valid()
      ensures IsPrev(st, Nodes(), k, x)
    {
      x := HEAD;
      var level := st.maxHeight - 1;
      assert Level(st, lists[level], level);
      ghost var pos: nat := PositionOf(st, lists[level], level, k, x);
      while true
        invariant 0 <= level < st.maxHeight && Level(st, lists[level], level)
        invariant StandsAt(st, lists[level], k, x) && pos <= |lists[level]| && x == Pred(lists[level], pos)
        invariant Next(st, x, level) == At(lists[level], pos)
        decreases level, |lists[level]| - pos
      {
        var next := Next(st, x, level);
        if next.None? || !NodeBefore(st, next.value, k) {
          if level == 0 {
            ghost var p := SplitFound(st, lists[0], 0, k, x);
            return;
          } else {
            level := level - 1;
            assert Level(st, lists[level], level);
            pos := PositionOf(st, lists[level], level, k, x);
          }
        } else {
          x, pos := next.value, pos + 1;
          assert At(lists[level], pos) == At(lists[level], pos);
        }
      }
    }

    /** FindLast: the last node, or the head of an empty list. */
    method FindLast() returns (x: nat)
      requires Valid()
      ensures x == Pred(Nodes(), |Nodes()|)
    {
      x := HEAD;
      var level := st.maxHeight - 1;
      ghost var pos: nat := 0;
      assert Level(st, lists[level], level);
      while true
        invariant 0 <= level < st.maxHeight && Level(st, lists[level], level)
        invariant pos <= |lists[level]| && x == Pred(lists[level], pos)
        decreases level, |lists[level]| - pos
      {
        assert At(lists[level], pos) == At(lists[level], pos);
        var next := Next(st, x, level);
        if next == None {
          if level == 0 {
            return;
          } else {
            pos := DownFrom(st, lists, level, pos);
            level := level - 1;
            assert Level(st, lists[level], level);
          }
        } else {
          x, pos := next.value, pos + 1;
        }
      }
    }

    /** Contains. */
    method Contains(k: UserKey) returns (b: bool)
      requires Valid()
      ensures b <==> exists n :: n in Nodes() && KeyOf(st, n) == k
    {
      var x, _ := FindGreaterOrEqual(k);
      ghost var p: nat :| FirstFrom(st, Nodes(), k, p) && x == At(Nodes(), p);
      b := x.Some? && !Less(k, KeyOf(st, x.value));
      assert Level(st, lists[0], 0);
      OnlyFirstCanEqual(st, Nodes(), 0, k, p);
    }

    /** Insert, store by store: after every one of them the invariant of the step
        relation holds, and in the end exactly one node has been spliced in where its
        key belongs, on as many levels as it is high and on no other.  `height` is what
        RandomHeight drew, x the node the arena gave. */
    method Insert(k: UserKey, height: nat, x: nat)
      requires Valid() && 1 <= height <= MAX_HEIGHT
      requires Absent(st, Nodes(), k) && x != HEAD && x !in st.key
      modifies this
      ensures Valid() && st.key == old(st.key)[x := k] && st.height == old(st.height)[x := height]
      ensures st.maxHeight == if height > old(st.maxHeight) then height else old(st.maxHeight)
      ensures |old(lists)| == MAX_HEIGHT
      ensures forall l {:trigger lists[l]} :: 0 <= l < height ==> SplicedIn(old(st), old(lists)[l], k, x, lists[l])
      ensures forall l {:trigger lists[l]} :: height <= l < MAX_HEIGHT ==> lists[l] == old(lists)[l]
    {
      var found, prev := FindGreaterOrEqual(k);
      var oldHeight := st.maxHeight;
      if height > oldHeight {
        prev := prev + seq(height - oldHeight, _ => HEAD);
      }
      prev := prev[..height];
      InsertBegins(st, lists, k, x, height, prev);
      ghost var st0 := st;
      st := Allocate(st, k, x, height);
      LinkNode(st0, k, height, x, prev);
    }

    /** The loop of Insert over the levels of the new node. */
    method LinkNode(ghost st0: Store, k: UserKey, height: nat, x: nat, prev: seq<nat>)
      requires 1 <= height && |prev| == height && x !in st0.key && st.key == st0.key[x := k]
      requires Inv(State(st, lists, LinkingFrom(x, height, prev, 0), map[]))
      modifies this
      ensures Valid() && st.key == old(st.key) && st.height == old(st.height) && st.maxHeight == old(st.maxHeight)
      ensures LinkedUpTo(st0, old(lists), k, x, height, lists)
    {
      var i := 0;
      while i < height
        invariant 0 <= i <= height && st.key == old(st.key) && st.height == old(st.height) && st.maxHeight == old(st.maxHeight)
        invariant LinkedUpTo(st0, old(lists), k, x, i, lists)
        invariant Inv(State(st, lists, LinkingFrom(x, height, prev, i), map[]))
      {
        ghost var p := LinkOne(st0, st, lists, k, x, height, prev, i);
        st := SetNext(st, x, i, Next(st, prev[i], i));
        st := SetNext(st, prev[i], i, Some(x));
        lists := lists[i := Splice(lists[i], p, x)];
        i := i + 1;
      }
    }
  }

  ghost function LinkingFrom(x: nat, height: nat, prev: seq<nat>, i: nat): Writer {
    if i < height then Linking(x, height, prev, i, false) else Idle
  }

  /** The two stores of Insert for level i, and the place where x appears. */
  lemma LinkOne(st0: Store, st: Store, lists: seq<seq<nat>>, k: UserKey, x: nat, height: nat, prev: seq<nat>, i: nat) returns (p: nat)
    requires i < height && Inv(State(st, lists, LinkingFrom(x, height, prev, i), map[]))
    requires x !in st0.key && st.key == st0.key[x := k]
    ensures p <= |lists[i]|
    ensures var wired := SetNext(st, x, i, Next(st, prev[i], i));
            Inv(State(SetNext(wired, prev[i], i, Some(x)), lists[i := Splice(lists[i], p, x)], LinkingFrom(x, height, prev, i + 1), map[]))
    ensures FirstFrom(st0, lists[i], k, p)
  {
    var s := State(st, lists, Linking(x, height, prev, i, false), map[]);
    var s1 := State(SetNext(st, x, i, Next(st, prev[i], i)), lists, Linking(x, height, prev, i, true), map[]);
    WireKeepsInv(s, s1);
    p := PublishPoint(s1);
    var s2 := State(SetNext(s1.st, prev[i], i, Some(x)), lists[i := Splice(lists[i], p, x)], LinkingFrom(x, height, prev, i + 1), map[]);
    PublishKeepsInv(s1, s2, p);
    assert x !in lists[i];
    SameKeysSameSplit(s1.st, st0, lists[i], k, p);
  }

  /** The search result, padded with the head for levels not in use yet, is the
      predecessor on every level of the new node. */
  lemma InsertBegins(st: Store, lists: seq<seq<nat>>, k: UserKey, x: nat, height: nat, prev: seq<nat>)
    requires Good(st, lists) && 1 <= height <= MAX_HEIGHT && |prev| == height
    requires Absent(st, lists[0], k) && x != HEAD && x !in st.key
    requires forall l :: 0 <= l < height ==> if l < st.maxHeight then IsPrev(st, lists[l], k, prev[l]) else prev[l] == HEAD
    ensures Inv(State(Allocate(st, k, x, height), lists, LinkingFrom(x, height, prev, 0), map[]))
  {
    var s := State(st, lists, Idle, map[]);
    forall l | 0 <= l < height ensures IsPrev(st, lists[l], k, prev[l]) {
      if l >= st.maxHeight {
        assert lists[l] == [] && FirstFrom(st, [], k, 0);
      }
    }
    BeginKeepsInv(s, State(Allocate(st, k, x, height), lists, LinkingFrom(x, height, prev, 0), map[]), k, x, height, prev);
  }

  /** `now` is `list` with x spliced in where key k belongs. */
  ghost predicate SplicedIn(st: Store, list: seq<nat>, k: UserKey, x: nat, now: seq<nat>) {
    exists p: nat :: FirstFrom(st, list, k, p) && now == Splice(list, p, x)
  }

  /** On the lowest n levels x is linked, and on no other. */
  ghost predicate LinkedUpTo(st: Store, before: seq<seq<nat>>, k: UserKey, x: nat, n: nat, now: seq<seq<nat>>) {
    && |before| == |now| == MAX_HEIGHT
    && (forall l {:trigger now[l]} :: 0 <= l < n && l < MAX_HEIGHT ==> SplicedIn(st, before[l], k, x, now[l]))
    && forall l {:trigger now[l]} :: n <= l < MAX_HEIGHT ==> now[l] == before[l]
  }

  lemma PublishPoint(s: State) returns (p: nat)
    requires Inv(s) && s.w.Linking? && s.w.wired
    ensures p <= |s.lists[s.w.i]| && s.w.prev[s.w.i] == Pred(s.lists[s.w.i], p)
    ensures FirstFrom(s.st, s.lists[s.w.i], KeyOf(s.st, s.w.x), p)
  {
    assert IsPrev(s.st, s.lists[s.w.i], KeyOf(s.st, s.w.x), s.w.prev[s.w.i]);
    p :| FirstFrom(s.st, s.lists[s.w.i], KeyOf(s.st, s.w.x), p) && s.w.prev[s.w.i] == Pred(s.lists[s.w.i], p);
  }

  /** A position on one level has a position on the level below. */
  lemma DownFrom(st: Store, lists: seq<seq<nat>>, level: nat, pos: nat) returns (p: nat)
    requires Good(st, lists) && 0 < level < MAX_HEIGHT && pos <= |lists[level]|
    ensures p <= |lists[level - 1]| && Pred(lists[level - 1], p) == Pred(lists[level], pos)
  {
    if pos == 0 {
      p := 0;
    } else {
      assert lists[level][pos - 1] in lists[level];
      var j :| 0 <= j < |lists[level - 1]| && lists[level - 1][j] == lists[level][pos - 1];
      p := j + 1;
    }
  }
}
