/** In which order the worker pool takes up work (src/threadpool.c), and that it takes up what
    it can: over every run, slow work goes on below its threshold, requests of a kind are
    begun and called back first come, first served, and while a worker sleeps enough others
    are up. */
module ThreadPoolOrder {
  import opened Seqs
  import opened ThreadPool
  import opened ThreadPoolProof

  // ------------------------------------------------------------------- slow work

  /** A worker that turns to the message of the slow work takes the oldest slow request exactly
      if fewer than half of the workers, rounded up, are counted with slow work. */
  lemma SlowGoesOn(run: seq<State>, k: nat, i: nat)
    requires Run(run) && k + 1 < |run| && Turn(run[k], run[k + 1], i)
    requires run[k].wq != [] && run[k].wq[0] == SlowMessage && run[k].slow != []
    ensures Count(run[k].workers, IsSlow) < (|run[k].workers| + 1) / 2 ==> run[k + 1].workers[i] == Executing(run[k].slow[0], true, false)
    ensures Count(run[k].workers, IsSlow) >= (|run[k].workers| + 1) / 2 ==> run[k + 1].slow == run[k].slow && SlowMessage in run[k + 1].wq
  {
    RunInv(run, k);
  }

  // ------------------------------------------------------- first come, first served

  /** When b was submitted, a was there already. */
  ghost predicate SubmittedAfter(run: seq<State>, b: nat, a: nat, k: nat)
    requires k < |run|
  {
    exists j {:trigger run[j]} :: 0 <= j < k && a in run[j].reqs && b !in run[j].reqs && b in run[j + 1].reqs
  }

  ghost predicate Joins(s: State, s': State, a: nat, b: nat) {
    a in s.reqs && b !in s.reqs && b in s'.reqs
  }

  lemma ItemsJoin(s: State, s': State, step: Step, a: nat, b: nat)
    requires Inv(s) && NextBy(s, s', step) && StandsBefore(s'.wq, Item(a), Item(b))
    ensures StandsBefore(s.wq, Item(a), Item(b)) || Joins(s, s', a, b)
  {
    match step
    case SubmitStep(id, slow) =>
      if s'.wq != s.wq {
        AppendedOrder(s.wq, if slow then SlowMessage else Item(id), Item(a), Item(b));
      }
    case TurnStep(i) =>
      if s'.wq != s.wq {
        TailKeepsOrder(s.wq);
        if s'.wq == s.wq[1..] + [SlowMessage] && s.wq[0] == SlowMessage {
          MessageTaken(s.wq, s.reqs);
          AppendedOrder(s.wq[1..], SlowMessage, Item(a), Item(b));
        }
      }
    case CancelBeginStep(id) => WithoutKeepsOrder(s.wq, Item(id));
    case _ =>
  }

  lemma SlowJoin(s: State, s': State, step: Step, a: nat, b: nat)
    requires Inv(s) && NextBy(s, s', step) && StandsBefore(s'.slow, a, b)
    ensures StandsBefore(s.slow, a, b) || Joins(s, s', a, b)
  {
    match step
    case SubmitStep(id, slow) =>
      if slow {
        AppendedOrder(s.slow, id, a, b);
      }
    case TurnStep(i) =>
      if s'.slow != s.slow {
        TailKeepsOrder(s.slow);
      }
    case CancelBeginStep(id) => WithoutKeepsOrder(s.slow, id);
    case _ =>
  }

  lemma ItemsJoinAt(run: seq<State>, k: nat, a: nat, b: nat)
    requires Run(run) && 0 < k < |run| && StandsBefore(run[k].wq, Item(a), Item(b))
    ensures StandsBefore(run[k - 1].wq, Item(a), Item(b)) || Joins(run[k - 1], run[k], a, b)
  {
    RunInv(run, k - 1);
    assert StepAt(run, k);
    var step :| NextBy(run[k - 1], run[k], step);
    ItemsJoin(run[k - 1], run[k], step, a, b);
  }

  lemma SlowJoinAt(run: seq<State>, k: nat, a: nat, b: nat)
    requires Run(run) && 0 < k < |run| && StandsBefore(run[k].slow, a, b)
    ensures StandsBefore(run[k - 1].slow, a, b) || Joins(run[k - 1], run[k], a, b)
  {
    RunInv(run, k - 1);
    assert StepAt(run, k);
    var step :| NextBy(run[k - 1], run[k], step);
    SlowJoin(run[k - 1], run[k], step, a, b);
  }

  lemma {:induction false} ItemsInOrder(run: seq<State>, k: nat, a: nat, b: nat)
    requires Run(run) && k < |run| && StandsBefore(run[k].wq, Item(a), Item(b))
    ensures SubmittedAfter(run, b, a, k)
  {
    ItemsJoinAt(run, k, a, b);
    if StandsBefore(run[k - 1].wq, Item(a), Item(b)) {
      ItemsInOrder(run, k - 1, a, b);
    }
  }

  lemma {:induction false} SlowInOrder(run: seq<State>, k: nat, a: nat, b: nat)
    requires Run(run) && k < |run| && StandsBefore(run[k].slow, a, b)
    ensures SubmittedAfter(run, b, a, k)
  {
    SlowJoinAt(run, k, a, b);
    if StandsBefore(run[k - 1].slow, a, b) {
      SlowInOrder(run, k - 1, a, b);
    }
  }

  lemma FirstBefore<T(!new)>(q: seq<T>, y: T)
    requires q != [] && y in q && y != q[0]
    ensures StandsBefore(q, q[0], y)
  {
    var j :| 0 <= j < |q| && q[j] == y;
  }

  /** Over every run: when a worker begins a request, every other one of the same kind that is
      waiting was submitted later. */
  lemma FirstComeFirstServed(run: seq<State>, k: nat, i: nat, a: nat, slow: bool, b: nat)
    requires Run(run) && k + 1 < |run| && Turn(run[k], run[k + 1], i) && run[k + 1].workers[i] == Executing(a, slow, false)
    requires b in run[k].reqs && b != a && run[k].reqs[b].place == if slow then InSlow else InQueue
    ensures SubmittedAfter(run, b, a, k)
  {
    RunInv(run, k);
    var s := run[k];
    if slow {
      assert s.slow[0] == a && b in s.slow;
      FirstBefore(s.slow, b);
      SlowInOrder(run, k, a, b);
    } else {
      assert s.wq[0] == Item(a) && Item(b) in s.wq;
      FirstBefore(s.wq, Item(b));
      ItemsInOrder(run, k, a, b);
    }
  }

  // ------------------------------------------------------------------- callbacks

  /** The requests that wait for their callback. */
  ghost function Ended(s: State): seq<nat> {
    s.local + s.done
  }

  /** b came to wait for its callback after a, and both have waited since. */
  ghost predicate EndedAfter(run: seq<State>, b: nat, a: nat, k: nat, j: nat)
    requires k < |run|
  {
    && j < k && b !in Ended(run[j])
    && (forall l {:trigger run[l]} :: j <= l <= k ==> a in Ended(run[l])) && forall l {:trigger run[l]} :: j < l <= k ==> b in Ended(run[l])
  }

  ghost predicate Ends(s: State, s': State, a: nat, b: nat) {
    StandsBefore(Ended(s'), a, b) ==> StandsBefore(Ended(s), a, b) || (a in Ended(s) && b !in Ended(s))
  }

  lemma OneMoreEnded(s: State, s': State, id: nat, a: nat, b: nat)
    requires Ended(s') == Ended(s) + [id] && id !in Ended(s)
    ensures Ends(s, s', a, b)
  {
    if StandsBefore(Ended(s'), a, b) {
      AppendedOrder(Ended(s), id, a, b);
    }
  }

  lemma FinishEnds(s: State, s': State, i: nat, a: nat, b: nat)
    requires QueuesOk(s) && Points(s) && Finish(s, s', i)
    ensures Ends(s, s', a, b)
  {
    assert WorkerOk(s, i);
    assert Ended(s') == Ended(s) + [s.workers[i].id];
    OneMoreEnded(s, s', s.workers[i].id, a, b);
  }

  lemma CancelEnds(s: State, s': State, a: nat, b: nat)
    requires QueuesOk(s) && Points(s) && CancelEnd(s, s')
    ensures Ends(s, s', a, b)
  {
    assert RequestOk(s, s.cancelling.value);
    assert Ended(s') == Ended(s) + [s.cancelling.value];
    OneMoreEnded(s, s', s.cancelling.value, a, b);
  }

  lemma EndedJoin(s: State, s': State, step: Step, a: nat, b: nat)
    requires QueuesOk(s) && Points(s) && NextBy(s, s', step)
    ensures Ends(s, s', a, b)
  {
    match step
    case FinishStep(i) => FinishEnds(s, s', i, a, b);
    case CancelEndStep => CancelEnds(s, s', a, b);
    case CancelBeginStep(id) =>
      WithoutKeepsOrder(s.local, id);
      WithoutKeepsOrder(s.done, id);
      ConcatKeepsOrder(s.local, Without(s.local, id), s.done, Without(s.done, id));
    case CollectStep => assert Ended(s') == Ended(s);
    case DeliverStep =>
      assert Ended(s') == Ended(s)[1..];
      TailKeepsOrder(Ended(s));
    case _ => assert Ended(s') == Ended(s);
  }

  lemma EndedAt(run: seq<State>, k: nat, a: nat, b: nat)
    requires Run(run) && 0 < k < |run|
    ensures Ends(run[k - 1], run[k], a, b)
  {
    RunInv(run, k - 1);
    assert StepAt(run, k);
    var step :| NextBy(run[k - 1], run[k], step);
    EndedJoin(run[k - 1], run[k], step, a, b);
  }

  lemma {:induction false} EndedInOrder(run: seq<State>, k: nat, a: nat, b: nat) returns (j: nat)
    requires Run(run) && k < |run| && StandsBefore(Ended(run[k]), a, b)
    ensures EndedAfter(run, b, a, k, j)
  {
    assert Ended(run[0]) == [];
    EndedAt(run, k, a, b);
    if StandsBefore(Ended(run[k - 1]), a, b) {
      j := EndedInOrder(run, k - 1, a, b);
    } else {
      j := k - 1;
    }
  }

  /** Over every run: callbacks are made in the order in which the requests were finished or
      cancelled. */
  lemma CalledBackInOrder(run: seq<State>, k: nat, a: nat, b: nat) returns (j: nat)
    requires Run(run) && k + 1 < |run| && Deliver(run[k], run[k + 1]) && run[k].local[0] == a
    requires b != a && b in Ended(run[k])
    ensures EndedAfter(run, b, a, k, j)
  {
    assert Ended(run[k])[0] == a;
    FirstBefore(Ended(run[k]), b);
    j := EndedInOrder(run, k, a, b);
  }

  // ---------------------------------------------------------------- enough are up

  /** A worker that is going to look at the queue. */
  predicate IsUp(w: Worker) {
    w == Ready || w == Woken || w == Top || w == Finished(false)
  }

  /** How many entries of the queue could be taken up at once. */
  ghost function Takeable(wq: seq<Entry>, slowGoesOn: bool): int {
    |wq| - if SlowMessage in wq && !slowGoesOn then 1 else 0
  }

  ghost function Open(s: State): int {
    Takeable(s.wq, Count(s.workers, IsSlow) < (|s.workers| + 1) / 2)
  }

  /** While somebody sleeps, at least as many are up as there are entries to take. */
  ghost predicate Manned(s: State) {
    Asleep in s.workers ==> Count(s.workers, IsUp) >= Open(s)
  }

  lemma SignalWakes(ws: seq<Worker>, ws': seq<Worker>)
    requires Signalled(ws, ws') && Asleep in ws'
    ensures Count(ws', IsUp) == Count(ws, IsUp) + 1 && Count(ws', IsSlow) == Count(ws, IsSlow) && |ws'| == |ws|
  {
    assert Asleep in ws;
    var i :| 0 <= i < |ws| && ws[i] == Asleep && ws' == ws[i := Woken];
    CountUpdate(ws, IsUp, i, Woken);
    CountUpdate(ws, IsSlow, i, Woken);
  }

  lemma SleeperIsIdle(s: State)
    requires Inv(s) && Asleep in s.workers
    ensures s.idle > 0
  {
    CountZero(s.workers, IsIdle);
  }

  lemma SubmitMans(s: State, s': State, id: nat, slow: bool)
    requires Inv(s) && Manned(s) && Submit(s, s', id, slow)
    ensures Manned(s')
  {
    if Asleep in s'.workers && s'.wq != s.wq {
      assert Asleep in s.workers by {
        if s'.workers != s.workers {
          assert Signalled(s.workers, s'.workers);
        }
      }
      SleeperIsIdle(s);
      SignalWakes(s.workers, s'.workers);
    }
  }

  lemma WorkerMans(s: State, s': State, step: Step, i: nat)
    requires Inv(s) && Manned(s) && NextBy(s, s', step) && i < |s.workers|
    requires step == LockStep(i) || step == SpuriousStep(i) || step == ExecuteStep(i) || step == FinishStep(i)
    ensures Manned(s')
  {
    var w := s'.workers[i];
    assert s'.workers == s.workers[i := w];
    CountUpdate(s.workers, IsUp, i, w);
    CountUpdate(s.workers, IsSlow, i, w);
  }

  lemma TurnMans(s: State, s': State, i: nat)
    requires Inv(s) && Manned(s) && Turn(s, s', i)
    ensures Manned(s')
  {
    if s.wq != [] {
      Popped(s.wq);
      if s.wq[0] == SlowMessage {
        MessageTaken(s.wq, s.reqs);
      }
    }
    if !MustWait(s) && s.wq[0] == SlowMessage && s.running < Threshold(s) && s.slow != [] {
      RunSlowMans(s, s', i);
    } else {
      var w := s'.workers[i];
      assert s'.workers == s.workers[i := w];
      CountUpdate(s.workers, IsUp, i, w);
      CountUpdate(s.workers, IsSlow, i, w);
    }
  }

  lemma RunSlowMans(s: State, s': State, i: nat)
    requires Inv(s) && Manned(s) && i < |s.workers| && s.workers[i] == Top
    requires |s.wq| > 0 && s.wq[0] == SlowMessage && SlowMessage !in s.wq[1..] && |s.slow| > 0 && s.running < Threshold(s) && RunSlow(s, s', i)
    ensures Manned(s')
  {
    var ws := s.workers[i := Executing(s.slow[0], true, false)];
    CountUpdate(s.workers, IsUp, i, ws[i]);
    CountUpdate(s.workers, IsSlow, i, ws[i]);
    if Asleep in s'.workers && |s.slow| > 1 {
      assert Asleep in ws;
      var j :| 0 <= j < |ws| && ws[j] == Asleep;
      assert s.workers[j] == Asleep;
      SleeperIsIdle(s);
      SignalWakes(ws, s'.workers);
    }
  }

  lemma StepMans(s: State, s': State, step: Step)
    requires Inv(s) && Manned(s) && NextBy(s, s', step)
    ensures Manned(s')
  {
    match step
    case SubmitStep(id, slow) => SubmitMans(s, s', id, slow);
    case LockStep(i) => WorkerMans(s, s', step, i);
    case SpuriousStep(i) => WorkerMans(s, s', step, i);
    case TurnStep(i) => TurnMans(s, s', i);
    case ExecuteStep(i) => WorkerMans(s, s', step, i);
    case FinishStep(i) => WorkerMans(s, s', step, i);
    case CancelBeginStep(id) =>
      WithoutMember(s.wq, Item(id));
      WithoutSize(s.wq, Item(id));
    case _ =>
  }

  /** Over every run: while a worker sleeps, at least as many others are up, and neither asleep
      nor executing, as there are entries in the queue that could be taken. */
  lemma {:induction false} EnoughAreUp(run: seq<State>, k: nat)
    requires Run(run) && k < |run|
    ensures Asleep in run[k].workers ==> Count(run[k].workers, IsUp) >= Open(run[k])
  {
    if k > 0 {
      EnoughAreUp(run, k - 1);
      RunInv(run, k - 1);
      assert StepAt(run, k);
      var step :| NextBy(run[k - 1], run[k], step);
      StepMans(run[k - 1], run[k], step);
    }
  }
}
