/** The worker pool of libuv (src/threadpool.c) as a state machine.  One step is one
    critical section, or the part of it between two turns of the worker's loop; the
    intrusive queues are sequences. */
module ThreadPool {
  import opened Keys
  import opened Seqs

  /** A member of `wq`: a request, or run_slow_work_message. */
  datatype Entry = Item(id: nat) | SlowMessage

  /** The `work` field of struct uv__work. */
  datatype Work = Callback | Null | Cancelled

  /** Where a request is. */
  datatype Place = InQueue | InSlow | AtWorker(i: nat) | Limbo | InDone | InLocal | Delivered

  /** struct uv__work: `linked` is !QUEUE_EMPTY(&w->wq); `place` is history. */
  datatype Request = Request(slow: bool, linked: bool, work: Work, place: Place)

  /** A worker is about to lock the mutex for the first time, in uv_cond_wait (woken or
      not), at the top of its loop holding the mutex, executing, or about to relock. */
  datatype Worker = Ready | Asleep | Woken | Top | Executing(id: nat, slow: bool, ran: bool) | Finished(slow: bool)

  datatype State = State(
    wq: seq<Entry>, slow: seq<nat>, running: nat, idle: nat, workers: seq<Worker>,
    done: seq<nat>, local: seq<nat>, cancelling: Option<nat>,
    reqs: map<nat, Request>, executed: seq<nat>, delivered: seq<(nat, bool)>)

  function Threshold(s: State): nat {
    (|s.workers| + 1) / 2
  }

  /** Nobody holds the mutex. */
  ghost predicate Free(s: State) {
    Top !in s.workers
  }

  /** The guard of the worker's inner loop. */
  predicate MustWait(s: State) {
    s.wq == [] || (s.wq == [SlowMessage] && s.running >= Threshold(s))
  }

  // ---------------------------------------------------------------- steps

  /** uv_cond_signal: some waiting worker is woken, if there is one. */
  ghost predicate Signalled(ws: seq<Worker>, ws': seq<Worker>) {
    if Asleep in ws then exists i :: 0 <= i < |ws| && ws[i] == Asleep && ws' == ws[i := Woken]
    else ws' == ws
  }

  ghost predicate SignalledIfIdle(s: State, ws: seq<Worker>, ws': seq<Worker>) {
    if s.idle > 0 then Signalled(ws, ws') else ws' == ws
  }

  /** post, for a new request. */
  ghost predicate Submit(s: State, s': State, id: nat, slow: bool) {
    && Free(s) && id !in s.reqs
    && var r := s.(reqs := s.reqs[id := Request(slow, true, Callback, if slow then InSlow else InQueue)]);
       if slow && SlowMessage in s.wq then s' == r.(slow := s.slow + [id])
       else
         && SignalledIfIdle(s, s.workers, s'.workers)
         && s' == r.(slow := if slow then s.slow + [id] else s.slow,
                     wq := s.wq + [if slow then SlowMessage else Item(id)],
                     workers := s'.workers)
  }

  /** A worker locks the mutex: at first, on leaving uv_cond_wait, or after executing. */
  ghost predicate Lock(s: State, s': State, i: nat) {
    && Free(s) && i < |s.workers|
    && match s.workers[i] {
         case Ready => s' == s.(workers := s.workers[i := Top])
         case Woken => s.idle > 0 && s' == s.(workers := s.workers[i := Top], idle := s.idle - 1)
         case Finished(false) => s' == s.(workers := s.workers[i := Top])
         case Finished(true) => s.running > 0 && s' == s.(workers := s.workers[i := Top], running := s.running - 1)
         case _ => false
       }
  }

  /** uv_cond_wait may return without a signal. */
  ghost predicate Spurious(s: State, s': State, i: nat) {
    i < |s.workers| && s.workers[i] == Asleep && s' == s.(workers := s.workers[i := Woken])
  }

  /** A worker leaves a queue with request id: QUEUE_INIT marks it as executing. */
  function Taken(s: State, i: nat, id: nat, slow: bool): State
    requires i < |s.workers| && id in s.reqs
  {
    s.(workers := s.workers[i := Executing(id, slow, false)],
       reqs := s.reqs[id := s.reqs[id].(linked := false, place := AtWorker(i))])
  }

  /** One turn of the worker's loop, holding the mutex. */
  ghost predicate Turn(s: State, s': State, i: nat) {
    && i < |s.workers| && s.workers[i] == Top
    && if MustWait(s) then s' == s.(workers := s.workers[i := Asleep], idle := s.idle + 1)
       else if s.wq[0].Item? then s.wq[0].id in s.reqs && s' == Taken(s.(wq := s.wq[1..]), i, s.wq[0].id, false)
       else if s.running >= Threshold(s) then s' == s.(wq := s.wq[1..] + [SlowMessage])
       else if s.slow == [] then s' == s.(wq := s.wq[1..])
       else RunSlow(s, s', i)
  }

  ghost predicate RunSlow(s: State, s': State, i: nat)
    requires i < |s.workers| && |s.wq| > 0 && |s.slow| > 0
  {
    && s.slow[0] in s.reqs
    && var t := Taken(s.(running := s.running + 1, slow := s.slow[1..]), i, s.slow[0], true);
       if |s.slow| > 1 then
         SignalledIfIdle(s, t.workers, s'.workers) && s' == t.(wq := s.wq[1..] + [SlowMessage], workers := s'.workers)
       else s' == t.(wq := s.wq[1..])
  }

  /** w->work(w) */
  ghost predicate Execute(s: State, s': State, i: nat) {
    && i < |s.workers| && s.workers[i].Executing? && !s.workers[i].ran
    && s' == s.(workers := s.workers[i := s.workers[i].(ran := true)], executed := s.executed + [s.workers[i].id])
  }

  /** The worker hands the request to its loop. */
  ghost predicate Finish(s: State, s': State, i: nat) {
    && i < |s.workers| && s.workers[i].Executing? && s.workers[i].ran && s.workers[i].id in s.reqs
    && var id := s.workers[i].id;
       s' == s.(workers := s.workers[i := Finished(s.workers[i].slow)], done := s.done + [id],
                reqs := s.reqs[id := s.reqs[id].(linked := true, work := Null, place := InDone)])
  }

  /** The test of uv__work_cancel. */
  predicate CanCancel(r: Request) {
    r.linked && r.work != Null
  }

  /** The first half of uv__work_cancel, under both mutexes.  QUEUE_REMOVE takes the
      request out of whatever queue it is in and leaves its own links as they were. */
  ghost predicate CancelBegin(s: State, s': State, id: nat) {
    && Free(s) && s.cancelling == None && id in s.reqs && s.reqs[id].place != Delivered
    && if CanCancel(s.reqs[id]) then
         s' == s.(wq := Without(s.wq, Item(id)), slow := Without(s.slow, id), done := Without(s.done, id),
                  local := Without(s.local, id), cancelling := Some(id),
                  reqs := s.reqs[id := s.reqs[id].(place := Limbo)])
       else s' == s
  }

  /** The second half: the request is marked and queued as done. */
  ghost predicate CancelEnd(s: State, s': State) {
    && s.cancelling.Some? && s.cancelling.value in s.reqs
    && var id := s.cancelling.value;
       s' == s.(cancelling := None, done := s.done + [id],
                reqs := s.reqs[id := s.reqs[id].(work := Cancelled, place := InDone)])
  }

  /** uv__work_done takes over the loop's queue. */
  ghost predicate Collect(s: State, s': State) {
    && s.cancelling == None && s.local == [] && (forall id :: id in s.done ==> id in s.reqs)
    && s' == s.(done := [], local := s.done,
                reqs := map id | id in s.reqs :: if id in s.done then s.reqs[id].(place := InLocal) else s.reqs[id])
  }

  /** uv__work_done calls back the next request; the callback may submit and cancel. */
  ghost predicate Deliver(s: State, s': State) {
    && s.cancelling == None && |s.local| > 0 && s.local[0] in s.reqs
    && var id := s.local[0];
       s' == s.(local := s.local[1..], delivered := s.delivered + [(id, s.reqs[id].work == Cancelled)],
                reqs := s.reqs[id := s.reqs[id].(place := Delivered)])
  }

  datatype Step =
    | SubmitStep(id: nat, slow: bool) | LockStep(i: nat) | SpuriousStep(i: nat) | TurnStep(i: nat)
    | ExecuteStep(i: nat) | FinishStep(i: nat) | CancelBeginStep(id: nat) | CancelEndStep | CollectStep | DeliverStep

  ghost predicate NextBy(s: State, s': State, step: Step) {
    match step
    case SubmitStep(id, slow) => Submit(s, s', id, slow)
    case LockStep(i) => Lock(s, s', i)
    case SpuriousStep(i) => Spurious(s, s', i)
    case TurnStep(i) => Turn(s, s', i)
    case ExecuteStep(i) => Execute(s, s', i)
    case FinishStep(i) => Finish(s, s', i)
    case CancelBeginStep(id) => CancelBegin(s, s', id)
    case CancelEndStep => CancelEnd(s, s')
    case CollectStep => Collect(s, s')
    case DeliverStep => Deliver(s, s')
  }

  /** init_threads: all queues empty, at least one worker. */
  ghost predicate Init(s: State) {
    && |s.workers| > 0 && (forall i :: 0 <= i < |s.workers| ==> s.workers[i] == Ready)
    && s == State([], [], 0, 0, s.workers, [], [], None, map[], [], [])
  }
}
