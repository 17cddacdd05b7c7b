/** Group commit (DBImpl::Write and BuildBatchGroup in db/db_impl.cc) as a queue
    protocol.  Batches are well-formed, as WriteBatch builds them: a list of operations
    whose number is the batch's count. */
module GroupCommit {
  import opened Keys

  /** One record of a batch. */
  datatype Op = Op(kind: Kind, key: UserKey, value: seq<byte>)

  /** DBImpl::Writer; a null batch asks for a compaction, `size` is the batch's ByteSize. */
  datatype Writer = Writer(sync: bool, batch: Option<seq<Op>>, size: nat)

  /** A memtable entry. */
  datatype Entry = Entry(seqno: nat, op: Op)

  /** A record of the log: the merged batch with its first sequence number. */
  datatype LogRecord = LogRecord(base: nat, ops: seq<Op>, synced: bool)

  /** What the writer at the front is doing for the writers up to `stop`: nothing yet,
      making room, appending to the log, inserting into the memtable (`done` operations
      are in), or popping them off the queue (`next` numbers the next one's operations). */
  datatype Phase =
    | Idle | Making | Logging(stop: nat) | Inserting(stop: nat, done: nat) | Popping(stop: nat, ok: bool, next: nat)

  /** All writers that ever queued up, in order; writers_ is writers[head..], and the
      writers before head have been popped, with a status (`acked`) and the sequence
      number of their first operation (`bases`, history). */
  datatype State = State(
    writers: seq<Writer>, head: nat, phase: Phase, last: nat, mem: seq<Entry>, log: seq<LogRecord>,
    failed: bool, acked: seq<bool>, bases: seq<nat>)

  // --------------------------------------------------------- BuildBatchGroup

  const MAX_GROUP := 0x10_0000
  const SMALL := 0x2_0000

  /** The size up to which a group may grow. */
  function MaxSize(size: nat): nat {
    if size <= SMALL then size + SMALL else MAX_GROUP
  }

  function Ops(w: Writer): seq<Op> {
    if w.batch.Some? then w.batch.value else []
  }

  function Bytes(w: Writer): nat {
    if w.batch.Some? then w.size else 0
  }

  /** The operations of the writers from a to b. */
  function Merged(ws: seq<Writer>, a: nat, b: nat): seq<Op>
    requires b <= |ws|
    decreases b - a
  {
    if a >= b then [] else Ops(ws[a]) + Merged(ws, a + 1, b)
  }

  /** The bytes of their batches. */
  function GroupSize(ws: seq<Writer>, a: nat, b: nat): nat
    requires b <= |ws|
    decreases b
  {
    if a >= b then 0 else GroupSize(ws, a, b - 1) + Bytes(ws[b - 1])
  }

  lemma {:induction false} MergedBack(ws: seq<Writer>, a: nat, b: nat)
    requires a <= b < |ws|
    ensures Merged(ws, a, b + 1) == Merged(ws, a, b) + Ops(ws[b])
    decreases b - a
  {
    if a < b {
      MergedBack(ws, a + 1, b);
    } else {
      assert Merged(ws, a, b + 1) == Ops(ws[a]) + Merged(ws, a + 1, b + 1);
      assert Ops(ws[a]) + [] == [] + Ops(ws[a]);
    }
  }

  lemma {:induction false} MergedSame(ws: seq<Writer>, ws': seq<Writer>, a: nat, b: nat)
    requires b <= |ws| && ws <= ws'
    ensures Merged(ws', a, b) == Merged(ws, a, b)
    decreases b - a
  {
    if a < b {
      MergedSame(ws, ws', a + 1, b);
    }
  }

  /** What one more writer adds to a group. */
  lemma GroupGrows(ws: seq<Writer>, a: nat, b: nat)
    requires a < b < |ws|
    ensures GroupSize(ws, a, b + 1) == GroupSize(ws, a, b) + Bytes(ws[b])
    ensures ws[b].batch.Some? ==> Merged(ws, a, b + 1) == Merged(ws, a, b) + ws[b].batch.value
    ensures ws[b].batch == None ==> Merged(ws, a, b + 1) == Merged(ws, a, b)
  {
    MergedBack(ws, a, b);
    assert Merged(ws, a, b) + [] == Merged(ws, a, b);
  }

  /** A group starts with its leader. */
  lemma GroupStarts(ws: seq<Writer>, a: nat)
    requires a < |ws| && ws[a].batch.Some?
    ensures Merged(ws, a, a + 1) == ws[a].batch.value && GroupSize(ws, a, a + 1) == ws[a].size
  {
    MergedBack(ws, a, a);
  }

  /** May the writer join a group that `leader` leads and that has the given size? */
  predicate Joins(leader: Writer, w: Writer, size: nat) {
    (w.sync ==> leader.sync) && (w.batch.Some? ==> size + w.size <= MaxSize(leader.size))
  }

  ghost predicate Member(ws: seq<Writer>, a: nat, i: nat)
    requires a <= i < |ws|
  {
    Joins(ws[a], ws[i], GroupSize(ws, a, i))
  }

  /** The group led by writer a ends at b: each member may join, and the next may not. */
  ghost predicate IsGroup(ws: seq<Writer>, a: nat, b: nat) {
    && a < b <= |ws|
    && (forall i {:trigger Member(ws, a, i)} :: a < i < b ==> Member(ws, a, i))
    && (b < |ws| ==> !Member(ws, a, b))
  }

  /** In numbers: a group is at most 1 MB large, and at most 128 KB larger than its leader if that is
      small, unless it is the leader's batch alone; it is synced if a member asks for it; and it
      ends only before a writer that would break one of these rules. */
  lemma {:induction false} GroupBounds(ws: seq<Writer>, a: nat, b: nat)
    requires IsGroup(ws, a, b) && ws[a].batch.Some?
    ensures GroupSize(ws, a, b) == ws[a].size || GroupSize(ws, a, b) <= if ws[a].size <= 0x2_0000 then ws[a].size + 0x2_0000 else 0x10_0000
    ensures forall i :: a <= i < b && ws[i].sync ==> ws[a].sync
    ensures b < |ws| && (ws[b].sync ==> ws[a].sync) ==>
              && ws[b].batch.Some?
              && GroupSize(ws, a, b) + ws[b].size > if ws[a].size <= 0x2_0000 then ws[a].size + 0x2_0000 else 0x10_0000
  {
    GroupInBounds(ws, a, b);
    forall i | a <= i < b && ws[i].sync ensures ws[a].sync {
      assert i > a ==> Member(ws, a, i);
    }
  }

  lemma {:induction false} GroupInBounds(ws: seq<Writer>, a: nat, b: nat)
    requires a < b <= |ws| && ws[a].batch.Some? && forall i {:trigger Member(ws, a, i)} :: a < i < b ==> Member(ws, a, i)
    ensures GroupSize(ws, a, b) == ws[a].size || GroupSize(ws, a, b) <= if ws[a].size <= 0x2_0000 then ws[a].size + 0x2_0000 else 0x10_0000
  {
    if b == a + 1 {
      GroupStarts(ws, a);
    } else {
      GroupInBounds(ws, a, b - 1);
      assert Member(ws, a, b - 1);
    }
  }

  /** BuildBatchGroup: `result` is the merged batch, `stop` follows last_writer. */
  method BuildBatchGroup(ws: seq<Writer>, head: nat) returns (result: seq<Op>, stop: nat)
    requires head < |ws| && ws[head].batch.Some?
    ensures IsGroup(ws, head, stop) && result == Merged(ws, head, stop)
  {
    var first := ws[head];
    result := first.batch.value;
    var size := first.size;
    var maxSize := 0x10_0000;
    if size <= 0x2_0000 {
      maxSize := size + 0x2_0000;
    }
    stop := head + 1;
    GroupStarts(ws, head);
    while stop < |ws|
      invariant head < stop <= |ws| && result == Merged(ws, head, stop) && size == GroupSize(ws, head, stop)
      invariant forall i {:trigger Member(ws, head, i)} :: head < i < stop ==> Member(ws, head, i)
    {
      var w := ws[stop];
      GroupGrows(ws, head, stop);
      if w.sync && !first.sync {
        break;
      }
      if w.batch.Some? {
        if size + w.size > maxSize {
          break;
        }
        size := size + w.size;
        result := result + w.batch.value;
      }
      stop := stop + 1;
    }
  }

  // ------------------------------------------------------------------- steps

  /** The mutex is free: the front writer is not popping its group. */
  ghost predicate Free(s: State) {
    !s.phase.Popping?
  }

  /** A new writer queues up. */
  ghost predicate Enqueue(s: State, s': State, w: Writer) {
    Free(s) && s' == s.(writers := s.writers + [w])
  }

  /** The writer at the front stops waiting; MakeRoomForWrite may release the mutex. */
  ghost predicate Lead(s: State, s': State) {
    s.phase == Idle && s.head < |s.writers| && s' == s.(phase := Making)
  }

  ghost predicate RoomFails(s: State, s': State) {
    s.phase == Making && s.head < |s.writers| && s' == s.(phase := Popping(s.head + 1, false, s.last + 1))
  }

  /** There is room; a null batch is done, otherwise the group is built and the mutex
      released for logging.  A recorded background error makes this fail. */
  ghost predicate RoomMade(s: State, s': State, stop: nat) {
    && s.phase == Making && !s.failed && s.head < |s.writers|
    && if s.writers[s.head].batch == None then s' == s.(phase := Popping(s.head + 1, true, s.last + 1))
       else IsGroup(s.writers, s.head, stop) && s' == s.(phase := Logging(stop))
  }

  /** SetLastSequence, whatever became of the group. */
  function Published(s: State, stop: nat, ok: bool): State
    requires stop <= |s.writers|
  {
    s.(phase := Popping(stop, ok, s.last + 1), last := s.last + |Merged(s.writers, s.head, stop)|)
  }

  /** log_->AddRecord fails: nothing is inserted, but the numbers are used up. */
  ghost predicate LogFails(s: State, s': State) {
    s.phase.Logging? && s.phase.stop <= |s.writers| && s' == Published(s, s.phase.stop, false)
  }

  /** The record is appended; a sync leader syncs, and `synced` says whether it worked. */
  ghost predicate Logged(s: State, s': State, synced: bool) {
    && s.phase.Logging? && s.head < s.phase.stop <= |s.writers|
    && var stop, sync := s.phase.stop, s.writers[s.head].sync;
       var t := s.(log := s.log + [LogRecord(s.last + 1, Merged(s.writers, s.head, stop), sync && synced)]);
       s' == if sync && !synced then Published(t, stop, false).(failed := true) else t.(phase := Inserting(stop, 0))
  }

  /** MemTableInserter adds the next operation, without the mutex. */
  ghost predicate Insert(s: State, s': State) {
    && s.phase.Inserting? && s.phase.stop <= |s.writers|
    && var ops := Merged(s.writers, s.head, s.phase.stop);
       && s.phase.done < |ops|
       && s' == s.(mem := s.mem + [Entry(s.last + 1 + s.phase.done, ops[s.phase.done])],
                   phase := Inserting(s.phase.stop, s.phase.done + 1))
  }

  ghost predicate Publish(s: State, s': State) {
    && s.phase.Inserting? && s.phase.stop <= |s.writers|
    && s.phase.done == |Merged(s.writers, s.head, s.phase.stop)| && s' == Published(s, s.phase.stop, true)
  }

  /** A turn of the last loop of Write: the front writer gets the leader's status. */
  ghost predicate Pop(s: State, s': State) {
    && s.phase.Popping? && s.head < s.phase.stop <= |s.writers|
    && s' == s.(head := s.head + 1, acked := s.acked + [s.phase.ok], bases := s.bases + [s.phase.next],
                phase := if s.head + 1 == s.phase.stop then Idle
                         else Popping(s.phase.stop, s.phase.ok, s.phase.next + |Ops(s.writers[s.head])|))
  }

  /** Any other writer of the background error, such as a failed compaction. */
  ghost predicate BackgroundError(s: State, s': State) {
    Free(s) && s' == s.(failed := true)
  }

  ghost predicate Next(s: State, s': State) {
    || (exists w :: Enqueue(s, s', w)) || Lead(s, s') || RoomFails(s, s') || (exists stop :: RoomMade(s, s', stop)) || LogFails(s, s')
    || (exists synced :: Logged(s, s', synced)) || Insert(s, s') || Publish(s, s') || Pop(s, s') || BackgroundError(s, s')
  }

  ghost predicate Init(s: State) {
    s == State([], 0, Idle, s.last, [], [], false, [], [])
  }

  // -------------------------------------------------------------- invariants

  /** Operations numbered from base on. */
  function Entries(base: nat, ops: seq<Op>): (es: seq<Entry>)
    ensures |es| == |ops|
    decreases ops
  {
    if ops == [] then [] else [Entry(base, ops[0])] + Entries(base + 1, ops[1..])
  }

  lemma {:induction false} EntriesConcat(base: nat, a: seq<Op>, b: seq<Op>)
    ensures Entries(base, a + b) == Entries(base, a) + Entries(base + |a|, b)
    decreases a
  {
    if a == [] {
      assert a + b == b;
    } else {
      EntriesConcat(base + 1, a[1..], b);
      assert (a + b)[1..] == a[1..] + b;
    }
  }

  /** A writer's part in the memtable. */
  ghost function Share(w: Writer, ok: bool, base: nat): seq<Entry> {
    if ok then Entries(base, Ops(w)) else []
  }

  /** The batches of the writers acknowledged OK, in queue order. */
  ghost function Applied(ws: seq<Writer>, acked: seq<bool>, bases: seq<nat>): seq<Entry>
    requires |acked| == |bases| <= |ws|
    decreases acked
  {
    if acked == [] then []
    else
      var l := |acked| - 1;
      Applied(ws, acked[..l], bases[..l]) + Share(ws[l], acked[l], bases[l])
  }

  /** What a replay of the log inserts. */
  ghost function Replayed(log: seq<LogRecord>): seq<Entry> {
    if log == [] then [] else Replayed(log[..|log| - 1]) + Entries(log[|log| - 1].base, log[|log| - 1].ops)
  }

  ghost predicate Shape(s: State) {
    && |s.acked| == |s.bases| == s.head <= |s.writers|
    && (s.phase == Making ==> s.head < |s.writers|)
    && (s.phase.Logging? || s.phase.Inserting? || s.phase.Popping? ==> s.head < s.phase.stop <= |s.writers|)
  }

  /** The batches of the current group that are, or will be, in the memtable. */
  ghost function Current(s: State): seq<Entry>
    requires Shape(s)
  {
    match s.phase
    case Inserting(stop, _) => Entries(s.last + 1, Merged(s.writers, s.head, stop))
    case Popping(stop, true, next) => Entries(next, Merged(s.writers, s.head, stop))
    case _ => []
  }

  /** How many of them are. */
  ghost function Inserted(s: State): nat
    requires Shape(s)
  {
    if s.phase.Inserting? then s.phase.done else |Current(s)|
  }

  /** The memtable holds the acknowledged batches in order, then a part of the current group. */
  ghost predicate MemOk(s: State)
    requires Shape(s)
  {
    Inserted(s) <= |Current(s)| && s.mem == Applied(s.writers, s.acked, s.bases) + Current(s)[..Inserted(s)]
  }

  /** So does the log, with all of the current group; after a failed sync it ends in a
      record that is not inserted. */
  ghost predicate LogOk(s: State)
    requires Shape(s)
  {
    && Applied(s.writers, s.acked, s.bases) + Current(s) <= Replayed(s.log)
    && (!s.failed || s.phase.Logging? || s.phase.Inserting? ==> Applied(s.writers, s.acked, s.bases) + Current(s) == Replayed(s.log))
  }

  lemma {:induction false} AppliedSame(ws: seq<Writer>, ws': seq<Writer>, acked: seq<bool>, bases: seq<nat>)
    requires |acked| == |bases| <= |ws| && ws <= ws'
    ensures Applied(ws', acked, bases) == Applied(ws, acked, bases)
    decreases acked
  {
    if acked != [] {
      AppliedSame(ws, ws', acked[..|acked| - 1], bases[..|acked| - 1]);
    }
  }

  lemma AppliedMore(ws: seq<Writer>, acked: seq<bool>, bases: seq<nat>, ok: bool, base: nat)
    requires |acked| == |bases| < |ws|
    ensures Applied(ws, acked + [ok], bases + [base]) == Applied(ws, acked, bases) + Share(ws[|acked|], ok, base)
  {
    var as', bs := acked + [ok], bases + [base];
    assert as'[..|acked|] == acked && bs[..|acked|] == bases;
    assert Applied(ws, as', bs) == Applied(ws, as'[..|acked|], bs[..|acked|]) + Share(ws[|acked|], as'[|acked|], bs[|acked|]);
  }

  lemma ReplayedMore(log: seq<LogRecord>, r: LogRecord)
    ensures Replayed(log + [r]) == Replayed(log) + Entries(r.base, r.ops)
  {
    assert (log + [r])[..|log|] == log;
  }
}
