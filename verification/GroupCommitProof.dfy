/** What every step of group commit keeps, and what readers and writers are promised. */
module GroupCommitProof {
  import opened Keys
  import opened GroupCommit

  /** The last log record ends in the batches of writers a to b, numbered from base; it is
      synced if one of them asked for that. */
  ghost predicate LastCovers(s: State, base: nat, a: nat, b: nat)
    requires b <= |s.writers|
  {
    && |s.log| > 0
    && var r := s.log[|s.log| - 1];
       && r.base <= base <= r.base + |r.ops| && r.ops[base - r.base..] == Merged(s.writers, a, b)
       && forall i {:trigger s.writers[i]} :: a <= i < b && s.writers[i].sync ==> r.synced
  }

  /** A group that is logged has a sync leader if it has a sync member. */
  ghost predicate GroupOk(s: State)
    requires Shape(s)
  {
    match s.phase
    case Logging(stop) => forall i {:trigger s.writers[i]} :: s.head <= i < stop && s.writers[i].sync ==> s.writers[s.head].sync
    case Inserting(stop, _) => LastCovers(s, s.last + 1, s.head, stop)
    case Popping(stop, ok, next) =>
      && (ok ==> LastCovers(s, next, s.head, stop) || (stop == s.head + 1 && s.writers[s.head].batch == None))
      && (next + |Merged(s.writers, s.head, stop)| == s.last + 1 || (stop == s.head + 1 && !ok && next == s.last + 1))
    case _ => true
  }

  /** Later operations are numbered from here on. */
  ghost function Low(s: State): nat {
    if s.phase.Popping? then s.phase.next else s.last + 1
  }

  ghost predicate RangeOk(s: State, i: nat)
    requires i < |s.acked| && i < |s.bases| && i < |s.writers|
  {
    s.bases[i] <= Low(s) && (s.acked[i] ==> s.bases[i] + |Ops(s.writers[i])| <= Low(s))
  }

  ghost predicate InOrder(s: State, i: nat, j: nat)
    requires i < j < |s.acked| && j < |s.bases| && j < |s.writers|
  {
    s.acked[i] ==> s.bases[i] + |Ops(s.writers[i])| <= s.bases[j]
  }

  ghost predicate Covers(r: LogRecord, base: nat, ops: seq<Op>) {
    r.synced && r.base <= base && base - r.base + |ops| <= |r.ops| && r.ops[base - r.base..base - r.base + |ops|] == ops
  }

  /** A sync write acknowledged OK is in a synced record of the log. */
  ghost predicate SyncOk(s: State, i: nat)
    requires i < |s.acked| && i < |s.bases| && i < |s.writers|
  {
    s.acked[i] && s.writers[i].sync && s.writers[i].batch.Some? ==>
      exists r :: r in s.log && Covers(r, s.bases[i], s.writers[i].batch.value)
  }

  ghost predicate WritersOk(s: State)
    requires Shape(s)
  {
    && (forall i {:trigger RangeOk(s, i)} :: 0 <= i < s.head ==> RangeOk(s, i))
    && (forall i {:trigger SyncOk(s, i)} :: 0 <= i < s.head ==> SyncOk(s, i))
    && (forall i, j {:trigger InOrder(s, i, j)} :: 0 <= i < j < s.head ==> InOrder(s, i, j))
  }

  ghost predicate Inv(s: State) {
    Shape(s) && MemOk(s) && LogOk(s) && GroupOk(s) && WritersOk(s)
  }

  lemma InitInv(s: State)
    requires Init(s)
    ensures Inv(s)
  {}

  /** Steps that pop nobody and only raise the numbers. */
  lemma WritersKept(s: State, s': State)
    requires Shape(s) && WritersOk(s) && Shape(s') && s.writers <= s'.writers && s'.head == s.head
    requires s'.acked == s.acked && s'.bases == s.bases && Low(s) <= Low(s') && s.log <= s'.log
    ensures WritersOk(s')
  {
    forall i | 0 <= i < s'.head ensures RangeOk(s', i) {
      assert RangeOk(s, i);
    }
    forall i | 0 <= i < s'.head ensures SyncOk(s', i) {
      assert SyncOk(s, i);
    }
    forall i, j | 0 <= i < j < s'.head ensures InOrder(s', i, j) {
      assert InOrder(s, i, j);
    }
  }

  lemma EnqueueLists(s: State, s': State, w: Writer)
    requires Shape(s) && Enqueue(s, s', w)
    ensures Shape(s') && Current(s') == Current(s) && Applied(s'.writers, s'.acked, s'.bases) == Applied(s.writers, s.acked, s.bases)
    ensures s.phase.Logging? || s.phase.Inserting? ==> Merged(s'.writers, s.head, s.phase.stop) == Merged(s.writers, s.head, s.phase.stop)
  {
    AppliedSame(s.writers, s'.writers, s.acked, s.bases);
    if s.phase.Logging? || s.phase.Inserting? {
      MergedSame(s.writers, s'.writers, s.head, s.phase.stop);
    }
  }

  lemma EnqueueGroup(s: State, s': State, w: Writer)
    requires Shape(s) && Enqueue(s, s', w) && GroupOk(s)
    ensures Shape(s') && GroupOk(s')
  {
    EnqueueLists(s, s', w);
  }

  lemma EnqueueInv(s: State, s': State, w: Writer)
    requires Inv(s) && Enqueue(s, s', w)
    ensures Inv(s')
  {
    EnqueueLists(s, s', w);
    EnqueueGroup(s, s', w);
    WritersKept(s, s');
  }

  lemma LeadLists(s: State, s': State)
    requires Shape(s) && (Lead(s, s') || RoomFails(s, s') || BackgroundError(s, s'))
    ensures Shape(s') && Current(s') == Current(s) && Inserted(s') == Inserted(s)
    ensures s'.writers == s.writers && s'.acked == s.acked && s'.bases == s.bases && s'.mem == s.mem && s'.log == s.log && s'.head == s.head
    ensures Low(s') == Low(s) && (s.failed ==> s'.failed) && (s'.phase.Logging? || s'.phase.Inserting? ==> s'.phase == s.phase)
  {}

  lemma ListsKept(s: State, s': State)
    requires Shape(s) && Shape(s') && Current(s') == Current(s) && Inserted(s') == Inserted(s) && MemOk(s) && LogOk(s)
    requires s'.writers == s.writers && s'.acked == s.acked && s'.bases == s.bases && s'.mem == s.mem && s'.log == s.log
    requires (s.failed ==> s'.failed) && (s'.phase.Logging? || s'.phase.Inserting? ==> s'.phase == s.phase)
    ensures MemOk(s') && LogOk(s')
  {}

  lemma LeadGroup(s: State, s': State)
    requires Shape(s) && GroupOk(s) && (Lead(s, s') || RoomFails(s, s') || BackgroundError(s, s'))
    ensures Shape(s') && GroupOk(s')
  {}

  lemma LeadInv(s: State, s': State)
    requires Inv(s) && (Lead(s, s') || RoomFails(s, s') || BackgroundError(s, s'))
    ensures Inv(s')
  {
    LeadLists(s, s');
    ListsKept(s, s');
    LeadGroup(s, s');
    WritersKept(s, s');
  }

  lemma SyncIsLed(ws: seq<Writer>, a: nat, b: nat, i: nat)
    requires IsGroup(ws, a, b) && a <= i < b && ws[i].sync
    ensures ws[a].sync
  {
    assert i > a ==> Member(ws, a, i);
  }

  lemma RoomMadeInv(s: State, s': State, stop: nat)
    requires Inv(s) && RoomMade(s, s', stop)
    ensures Inv(s')
  {
    WritersKept(s, s');
    if s.writers[s.head].batch == None {
      assert Merged(s.writers, s.head, s.head + 1) == [];
    } else {
      forall i | s.head <= i < stop && s.writers[i].sync ensures s.writers[s.head].sync {
        SyncIsLed(s.writers, s.head, stop, i);
      }
    }
  }

  lemma LogFailsInv(s: State, s': State)
    requires Inv(s) && LogFails(s, s')
    ensures Inv(s')
  {
    WritersKept(s, s');
  }

  lemma LoggedLists(s: State, s': State, synced: bool)
    requires Shape(s) && Logged(s, s', synced)
    ensures Shape(s') && s'.writers == s.writers && s'.acked == s.acked && s'.bases == s.bases && Current(s) == []
    ensures var ops := Merged(s.writers, s.head, s.phase.stop);
            && Replayed(s'.log) == Replayed(s.log) + Entries(s.last + 1, ops)
            && Current(s') == if s'.phase.Inserting? then Entries(s.last + 1, ops) else []
    ensures !s'.phase.Logging? && (!s'.phase.Inserting? ==> s'.failed)
  {
    ReplayedMore(s.log, LogRecord(s.last + 1, Merged(s.writers, s.head, s.phase.stop), s.writers[s.head].sync && synced));
  }

  lemma LoggedLog(s: State, s': State, synced: bool)
    requires Shape(s) && Logged(s, s', synced) && LogOk(s)
    ensures LogOk(s')
  {
    LoggedLists(s, s', synced);
    var a := Applied(s.writers, s.acked, s.bases);
    assert a + [] == a;
  }

  lemma LoggedGroup(s: State, s': State, synced: bool)
    requires Shape(s) && Logged(s, s', synced) && GroupOk(s)
    ensures GroupOk(s')
  {}

  lemma LoggedInv(s: State, s': State, synced: bool)
    requires Inv(s) && Logged(s, s', synced)
    ensures Inv(s')
  {
    WritersKept(s, s');
    LoggedLog(s, s', synced);
    LoggedGroup(s, s', synced);
  }

  lemma {:induction false} EntriesAt(base: nat, ops: seq<Op>, i: nat)
    requires i < |ops|
    ensures Entries(base, ops)[i] == Entry(base + i, ops[i])
    decreases ops
  {
    if i > 0 {
      EntriesAt(base + 1, ops[1..], i - 1);
    }
  }

  lemma OneMore<T>(mem: seq<T>, a: seq<T>, c: seq<T>, k: nat)
    requires k < |c| && mem == a + c[..k]
    ensures mem + [c[k]] == a + c[..k + 1]
  {}

  lemma InsertMem(s: State, s': State)
    requires Shape(s) && Insert(s, s') && MemOk(s)
    ensures MemOk(s')
  {
    var ops, k := Merged(s.writers, s.head, s.phase.stop), s.phase.done;
    var c := Current(s);
    EntriesAt(s.last + 1, ops, k);
    OneMore(s.mem, Applied(s.writers, s.acked, s.bases), c, k);
    assert Current(s') == c && s'.mem == s.mem + [c[k]];
  }

  lemma InsertInv(s: State, s': State)
    requires Inv(s) && Insert(s, s')
    ensures Inv(s')
  {
    WritersKept(s, s');
    InsertMem(s, s');
  }

  lemma PublishInv(s: State, s': State)
    requires Inv(s) && Publish(s, s')
    ensures Inv(s')
  {
    PublishLists(s, s');
    ListsKept(s, s');
    PublishGroup(s, s');
    WritersKept(s, s');
  }

  lemma PublishLists(s: State, s': State)
    requires Shape(s) && Publish(s, s')
    ensures Shape(s') && Current(s') == Current(s) && Inserted(s') == Inserted(s) && Low(s') == Low(s) && s'.phase.Popping? && s'.failed == s.failed
    ensures s'.writers == s.writers && s'.acked == s.acked && s'.bases == s.bases && s'.mem == s.mem && s'.log == s.log && s'.head == s.head
  {}

  lemma PublishGroup(s: State, s': State)
    requires Shape(s) && Publish(s, s') && GroupOk(s)
    ensures Shape(s') && GroupOk(s')
  {}

  // ------------------------------------------------------------------ popping

  /** The numbered operations of a group are its first writer's, then the others'. */
  lemma FrontShare(ws: seq<Writer>, a: nat, b: nat, base: nat)
    requires a < b <= |ws|
    ensures Entries(base, Merged(ws, a, b)) == Entries(base, Ops(ws[a])) + Entries(base + |Ops(ws[a])|, Merged(ws, a + 1, b))
  {
    EntriesConcat(base, Ops(ws[a]), Merged(ws, a + 1, b));
  }

  lemma PopApplied(s: State, s': State)
    requires Shape(s) && Pop(s, s')
    ensures Shape(s') && Applied(s'.writers, s'.acked, s'.bases) == Applied(s.writers, s.acked, s.bases) + Share(s.writers[s.head], s.phase.ok, s.phase.next)
  {
    AppliedMore(s.writers, s.acked, s.bases, s.phase.ok, s.phase.next);
  }

  lemma PopFront(s: State, rest: seq<Entry>)
    requires Shape(s) && s.phase.Popping?
    requires rest == if s.phase.ok then Entries(s.phase.next + |Ops(s.writers[s.head])|, Merged(s.writers, s.head + 1, s.phase.stop)) else []
    ensures Current(s) == Share(s.writers[s.head], s.phase.ok, s.phase.next) + rest
  {
    CurrentIs(s);
    FrontOf(s.writers, s.head, s.phase.stop, s.phase.next, s.phase.ok, Current(s), rest);
  }

  lemma FrontOf(ws: seq<Writer>, a: nat, b: nat, base: nat, ok: bool, c: seq<Entry>, rest: seq<Entry>)
    requires a < b <= |ws| && c == if ok then Entries(base, Merged(ws, a, b)) else []
    requires rest == if ok then Entries(base + |Ops(ws[a])|, Merged(ws, a + 1, b)) else []
    ensures c == Share(ws[a], ok, base) + rest
  {
    if ok {
      FrontShare(ws, a, b, base);
    }
  }

  lemma CurrentIs(s: State)
    requires Shape(s) && s.phase.Popping?
    ensures Current(s) == if s.phase.ok then Entries(s.phase.next, Merged(s.writers, s.head, s.phase.stop)) else []
  {}

  lemma Joined<T>(a': seq<T>, a: seq<T>, share: seq<T>, c': seq<T>, c: seq<T>)
    requires a' == a + share && c == share + c'
    ensures a' + c' == a + c
  {}

  lemma PopShares(s: State, s': State)
    requires Shape(s) && Pop(s, s')
    ensures Shape(s') && Applied(s'.writers, s'.acked, s'.bases) + Current(s') == Applied(s.writers, s.acked, s.bases) + Current(s)
  {
    PopApplied(s, s');
    PopCurrent(s, s');
    PopFront(s, Current(s'));
    Joined(Applied(s'.writers, s'.acked, s'.bases), Applied(s.writers, s.acked, s.bases), Share(s.writers[s.head], s.phase.ok, s.phase.next), Current(s'), Current(s));
  }

  lemma PopCurrent(s: State, s': State)
    requires Shape(s) && Pop(s, s')
    ensures Current(s') == if s.phase.ok then Entries(s.phase.next + |Ops(s.writers[s.head])|, Merged(s.writers, s.head + 1, s.phase.stop)) else []
  {}

  lemma PopGroup(s: State, s': State)
    requires Shape(s) && Pop(s, s') && GroupOk(s)
    ensures GroupOk(s') && Low(s') >= Low(s)
    ensures s.phase.ok ==> Low(s') == Low(s) + |Ops(s.writers[s.head])|
  {
    var ws, a, stop, w := s.writers, s.head, s.phase.stop, s.writers[s.head];
    assert Merged(ws, a, stop) == Ops(w) + Merged(ws, a + 1, stop);
    if a + 1 < stop && s.phase.ok {
      var r, next := s.log[|s.log| - 1], s.phase.next;
      assert r.ops[next + |Ops(w)| - r.base..] == r.ops[next - r.base..][|Ops(w)|..];
    }
  }

  lemma PopSync(s: State, s': State)
    requires Shape(s) && Pop(s, s') && GroupOk(s)
    ensures SyncOk(s', s.head)
  {
    var ws, a, stop, w := s.writers, s.head, s.phase.stop, s.writers[s.head];
    if s.phase.ok && w.sync && w.batch.Some? {
      var r, next := s.log[|s.log| - 1], s.phase.next;
      var ops := Ops(w);
      assert Merged(ws, a, stop) == ops + Merged(ws, a + 1, stop);
      assert r.ops[next - r.base..][..|ops|] == r.ops[next - r.base..next - r.base + |ops|];
      assert r in s'.log && Covers(r, next, ops);
    }
  }

  lemma PopWriters(s: State, s': State)
    requires Shape(s) && Pop(s, s') && GroupOk(s) && WritersOk(s)
    ensures WritersOk(s')
  {
    PopGroup(s, s');
    PopSync(s, s');
    var h := s.head;
    forall i | 0 <= i < s'.head ensures RangeOk(s', i) {
      if i < h {
        assert RangeOk(s, i);
      }
    }
    forall i | 0 <= i < s'.head ensures SyncOk(s', i) {
      if i < h {
        assert SyncOk(s, i);
      }
    }
    forall i, j | 0 <= i < j < s'.head ensures InOrder(s', i, j) {
      if j < h {
        assert InOrder(s, i, j);
      } else {
        assert RangeOk(s, i);
      }
    }
  }

  lemma PopInv(s: State, s': State)
    requires Inv(s) && Pop(s, s')
    ensures Inv(s')
  {
    PopShares(s, s');
    PopGroup(s, s');
    PopWriters(s, s');
    assert Current(s)[..|Current(s)|] == Current(s) && Current(s')[..|Current(s')|] == Current(s');
  }

  /** Every step keeps the invariant. */
  lemma NextInv(s: State, s': State)
    requires Inv(s) && Next(s, s')
    ensures Inv(s')
  {
    if w :| Enqueue(s, s', w) {
      EnqueueInv(s, s', w);
    } else if Lead(s, s') || RoomFails(s, s') || BackgroundError(s, s') {
      LeadInv(s, s');
    } else if stop :| RoomMade(s, s', stop) {
      RoomMadeInv(s, s', stop);
    } else if LogFails(s, s') {
      LogFailsInv(s, s');
    } else if synced :| Logged(s, s', synced) {
      LoggedInv(s, s', synced);
    } else if Insert(s, s') {
      InsertInv(s, s');
    } else if Publish(s, s') {
      PublishInv(s, s');
    } else {
      PopInv(s, s');
    }
  }

  // ---------------------------------------------------------------- whole runs

  ghost predicate StepAt(run: seq<State>, k: nat)
    requires 0 < k < |run|
  {
    Next(run[k - 1], run[k])
  }

  ghost predicate Run(run: seq<State>) {
    |run| > 0 && Init(run[0]) && forall k {:trigger StepAt(run, k)} :: 0 < k < |run| ==> StepAt(run, k)
  }

  lemma {:induction false} RunInv(run: seq<State>, k: nat)
    requires Run(run) && k < |run|
    ensures Inv(run[k])
  {
    if k == 0 {
      InitInv(run[0]);
    } else {
      RunInv(run, k - 1);
      assert StepAt(run, k);
      NextInv(run[k - 1], run[k]);
    }
  }

  /** Every number lies in [lo, hi), and they ascend. */
  ghost predicate Within(es: seq<Entry>, lo: nat, hi: nat) {
    && (forall i :: 0 <= i < |es| ==> lo <= es[i].seqno < hi)
    && (forall i, j :: 0 <= i < j < |es| ==> es[i].seqno < es[j].seqno)
  }

  lemma EntriesWithin(base: nat, ops: seq<Op>, n: nat)
    requires n <= |ops|
    ensures Within(Entries(base, ops)[..n], base, base + n)
  {
    forall i | 0 <= i < n ensures Entries(base, ops)[i].seqno == base + i {
      EntriesAt(base, ops, i);
    }
  }

  lemma WithinConcat(a: seq<Entry>, b: seq<Entry>, lo: nat, mid: nat, hi: nat)
    requires Within(a, lo, mid) && Within(b, mid, hi) && lo <= mid <= hi
    ensures Within(a + b, lo, hi)
  {}

  lemma {:induction false} AppliedWithin(s: State, n: nat, hi: nat)
    requires Shape(s) && WritersOk(s) && n <= s.head
    requires forall i :: 0 <= i < n && s.acked[i] ==> s.bases[i] + |Ops(s.writers[i])| <= hi
    ensures Within(Applied(s.writers, s.acked[..n], s.bases[..n]), 0, hi)
  {
    if n > 0 {
      var l := n - 1;
      assert s.acked[..n][..l] == s.acked[..l] && s.bases[..n][..l] == s.bases[..l];
      if s.acked[l] {
        forall i | 0 <= i < l && s.acked[i] ensures s.bases[i] + |Ops(s.writers[i])| <= s.bases[l] {
          assert InOrder(s, i, l);
        }
        AppliedWithin(s, l, s.bases[l]);
        var ops := Ops(s.writers[l]);
        EntriesWithin(s.bases[l], ops, |ops|);
        assert Entries(s.bases[l], ops)[..|ops|] == Entries(s.bases[l], ops);
        WithinConcat(Applied(s.writers, s.acked[..l], s.bases[..l]), Entries(s.bases[l], ops), 0, s.bases[l], hi);
      } else {
        AppliedWithin(s, l, hi);
      }
    }
  }

  /** A read at LastSequence, made while the mutex is free, sees the batches of the writers
      acknowledged OK, whole and in queue order, and nothing of the batch being inserted;
      the entries of the memtable have ascending numbers. */
  lemma ReadsWholeBatches(run: seq<State>, k: nat)
    requires Run(run) && k < |run| && Free(run[k])
    ensures var s := run[k];
            && |s.acked| == |s.bases| <= |s.writers|
            && var seen := Applied(s.writers, s.acked, s.bases);
               && seen <= s.mem && (forall i :: 0 <= i < |s.mem| ==> (s.mem[i].seqno <= s.last <==> i < |seen|))
               && (forall i, j :: 0 <= i < j < |s.mem| ==> s.mem[i].seqno < s.mem[j].seqno)
  {
    var s := run[k];
    RunInv(run, k);
    AppliedIsBelow(s);
    RestIsAbove(s);
    var seen, rest := Applied(s.writers, s.acked, s.bases), Current(s)[..Inserted(s)];
    SplitAt(s.mem, seen, rest, s.last + 1);
  }

  lemma AppliedIsBelow(s: State)
    requires Shape(s) && WritersOk(s) && Free(s)
    ensures Within(Applied(s.writers, s.acked, s.bases), 0, s.last + 1)
  {
    forall i | 0 <= i < s.head && s.acked[i] ensures s.bases[i] + |Ops(s.writers[i])| <= s.last + 1 {
      assert RangeOk(s, i);
    }
    AppliedWithin(s, s.head, s.last + 1);
    assert s.acked[..s.head] == s.acked && s.bases[..s.head] == s.bases;
  }

  lemma RestIsAbove(s: State)
    requires Shape(s) && Inserted(s) <= |Current(s)| && Free(s)
    ensures var rest := Current(s)[..Inserted(s)]; Within(rest, s.last + 1, s.last + 1 + |rest|)
  {
    if s.phase.Inserting? {
      EntriesWithin(s.last + 1, Merged(s.writers, s.head, s.phase.stop), s.phase.done);
    }
  }

  lemma SplitAt(mem: seq<Entry>, seen: seq<Entry>, rest: seq<Entry>, mid: nat)
    requires mem == seen + rest && Within(seen, 0, mid) && Within(rest, mid, mid + |rest|)
    ensures forall i :: 0 <= i < |mem| ==> (mem[i].seqno < mid <==> i < |seen|)
    ensures forall i, j :: 0 <= i < j < |mem| ==> mem[i].seqno < mem[j].seqno
  {
    WithinConcat(seen, rest, 0, mid, mid + |rest|);
  }

  /** Where a writer's batch is among those applied. */
  lemma {:induction false} AppliedAt(ws: seq<Writer>, acked: seq<bool>, bases: seq<nat>, i: nat) returns (at: nat)
    requires |acked| == |bases| <= |ws| && i < |acked| && acked[i]
    ensures var es, n := Applied(ws, acked, bases), |Ops(ws[i])|;
            at + n <= |es| && es[at..at + n] == Entries(bases[i], Ops(ws[i]))
    decreases |acked|
  {
    var l := |acked| - 1;
    var es := Applied(ws, acked[..l], bases[..l]);
    if i == l {
      at := |es|;
    } else {
      at := AppliedAt(ws, acked[..l], bases[..l], i);
      var n := |Ops(ws[i])|;
      assert Applied(ws, acked, bases)[at..at + n] == es[at..at + n];
    }
  }

  /** Entries with the numbers of a stretch of the memtable are in that stretch. */
  lemma OnlyThere(mem: seq<Entry>, at: nat, base: nat, ops: seq<Op>, x: nat)
    requires at + |ops| <= |mem| && mem[at..at + |ops|] == Entries(base, ops) && x < |mem|
    requires forall i, j :: 0 <= i < j < |mem| ==> mem[i].seqno < mem[j].seqno
    ensures base <= mem[x].seqno < base + |ops| ==> at <= x < at + |ops|
  {
    if |ops| > 0 {
      var es := mem[at..at + |ops|];
      EntriesAt(base, ops, 0);
      EntriesAt(base, ops, |ops| - 1);
      assert mem[at] == es[0] && mem[at + |ops| - 1] == es[|ops| - 1];
    }
  }

  lemma Stretch<T>(a: seq<T>, b: seq<T>, at: nat, n: nat)
    requires a <= b && at + n <= |a|
    ensures b[at..at + n] == a[at..at + n]
  {}

  /** A writer acknowledged OK has its batch in the memtable, once, contiguously numbered,
      and in the log; batches acknowledged earlier have lower numbers. */
  lemma AcknowledgedIsApplied(run: seq<State>, k: nat, i: nat) returns (at: nat)
    requires Run(run) && k < |run| && Free(run[k]) && i < |run[k].acked| && run[k].acked[i]
    ensures var s := run[k];
            && i < |s.writers| && |s.bases| == |s.acked|
            && var ops := Ops(s.writers[i]);
               && at + |ops| <= |s.mem| && s.mem[at..at + |ops|] == Entries(s.bases[i], ops)
               && at + |ops| <= |Replayed(s.log)| && Replayed(s.log)[at..at + |ops|] == Entries(s.bases[i], ops)
               && (forall x :: 0 <= x < |s.mem| && s.bases[i] <= s.mem[x].seqno < s.bases[i] + |ops| ==> at <= x < at + |ops|)
               && (forall j :: i < j < |s.acked| ==> s.bases[i] + |ops| <= s.bases[j])
  {
    var s := run[k];
    ReadsWholeBatches(run, k);
    LogHoldsApplied(run, k);
    at := AppliedAt(s.writers, s.acked, s.bases, i);
    var ops, es := Ops(s.writers[i]), Applied(s.writers, s.acked, s.bases);
    Stretch(es, s.mem, at, |ops|);
    Stretch(es, Replayed(s.log), at, |ops|);
    forall x | 0 <= x < |s.mem| ensures s.bases[i] <= s.mem[x].seqno < s.bases[i] + |ops| ==> at <= x < at + |ops| {
      OnlyThere(s.mem, at, s.bases[i], ops, x);
    }
    forall j | i < j < |s.acked| ensures s.bases[i] + |ops| <= s.bases[j] {
      LaterNumbers(run, k, i, j);
    }
  }

  lemma LogHoldsApplied(run: seq<State>, k: nat)
    requires Run(run) && k < |run|
    ensures var s := run[k]; |s.acked| == |s.bases| <= |s.writers| && Applied(s.writers, s.acked, s.bases) <= Replayed(s.log)
  {
    RunInv(run, k);
  }

  lemma LaterNumbers(run: seq<State>, k: nat, i: nat, j: nat)
    requires Run(run) && k < |run| && i < j < |run[k].acked| && run[k].acked[i]
    ensures var s := run[k]; j < |s.bases| && j < |s.writers| && s.bases[i] + |Ops(s.writers[i])| <= s.bases[j]
  {
    RunInv(run, k);
    assert InOrder(run[k], i, j);
  }

  /** A sync write acknowledged OK is in a record that was synced. */
  lemma SyncIsDurable(run: seq<State>, k: nat, i: nat)
    requires Run(run) && k < |run| && i < |run[k].acked| && run[k].acked[i]
    ensures var s := run[k];
            && i < |s.writers| && i < |s.bases|
            && (s.writers[i].sync && s.writers[i].batch.Some? ==> exists r :: r in s.log && Covers(r, s.bases[i], s.writers[i].batch.value))
  {
    RunInv(run, k);
    assert SyncOk(run[k], i);
  }

  /** Unless a write has failed, replaying the log gives the memtable that readers see. */
  lemma ReplayIsMemory(run: seq<State>, k: nat)
    requires Run(run) && k < |run| && !run[k].failed && run[k].phase == Idle
    ensures Replayed(run[k].log) == run[k].mem
  {
    RunInv(run, k);
    var s := run[k];
    assert Applied(s.writers, s.acked, s.bases) + [] == Applied(s.writers, s.acked, s.bases);
  }

  // --------------------------------------------------------------------- failures

  /** A step in which making room, appending to the log or syncing it fails, for the group that
      writer i is in. */
  ghost predicate FailsFor(s: State, s': State, i: nat) {
    && (RoomFails(s, s') || LogFails(s, s') || (s.phase.Logging? && s.head < |s.writers| && s.writers[s.head].sync && Logged(s, s', false)))
    && s'.phase.Popping? && s.head <= i < s'.phase.stop
  }

  ghost predicate FailedFor(run: seq<State>, k: nat, i: nat)
    requires k < |run|
  {
    exists j {:trigger FailsAt(run, j, i)} :: 0 < j <= k && FailsAt(run, j, i)
  }

  ghost predicate FailsAt(run: seq<State>, j: nat, i: nat)
    requires 0 < j < |run|
  {
    FailsFor(run[j - 1], run[j], i)
  }

  /** Who is refused, and who is about to be. */
  ghost predicate Refused(s: State, i: nat) {
    (i < |s.acked| && !s.acked[i]) || (s.phase.Popping? && !s.phase.ok && s.head <= i < s.phase.stop)
  }

  lemma RefusedBefore(s: State, s': State, i: nat)
    requires Shape(s) && Next(s, s') && Refused(s', i)
    ensures Refused(s, i) || FailsFor(s, s', i)
  {
    if synced :| Logged(s, s', synced) {
      if s'.phase.Popping? {
        assert !synced;
      }
    }
  }

  /** A write is only refused if making room for its group, logging it or syncing it failed. */
  lemma {:induction false} RefusalHasCause(run: seq<State>, k: nat, i: nat)
    requires Run(run) && k < |run| && Refused(run[k], i)
    ensures FailedFor(run, k, i)
  {
    RunInv(run, k - 1);
    assert StepAt(run, k);
    RefusedBefore(run[k - 1], run[k], i);
    if Refused(run[k - 1], i) {
      RefusalHasCause(run, k - 1, i);
      var j :| 0 < j <= k - 1 && FailsAt(run, j, i);
      assert FailsAt(run, j, i);
    } else {
      assert FailsAt(run, k, i);
    }
  }
}
