/** What every step of the worker pool keeps, and what holds over whole runs. */
module ThreadPoolProof {
  import opened Keys
  import opened Seqs
  import opened ThreadPool

  // ------------------------------------------------------------ queues

  /** The queue holds each request at place p, once, and nothing else. */
  ghost predicate Holds(q: seq<nat>, reqs: map<nat, Request>, p: Place) {
    && NoDup(q)
    && (forall id :: id in q ==> id in reqs && reqs[id].place == p)
    && (forall id :: id in reqs && reqs[id].place == p ==> id in q)
  }

  ghost predicate HoldsItems(wq: seq<Entry>, reqs: map<nat, Request>) {
    && NoDup(wq)
    && (forall e :: e in wq && e.Item? ==> e.id in reqs && reqs[e.id].place == InQueue)
    && (forall id :: id in reqs && reqs[id].place == InQueue ==> Item(id) in wq)
  }

  // ---------------------------------------------------------- counting workers

  ghost function Count(ws: seq<Worker>, p: Worker -> bool): nat {
    if ws == [] then 0 else Count(ws[..|ws| - 1], p) + if p(ws[|ws| - 1]) then 1 else 0
  }

  lemma {:induction false} CountUpdate(ws: seq<Worker>, p: Worker -> bool, i: nat, w: Worker)
    requires i < |ws|
    ensures Count(ws[i := w], p) == Count(ws, p) - (if p(ws[i]) then 1 else 0) + (if p(w) then 1 else 0)
  {
    var l := |ws| - 1;
    if i < l {
      assert ws[i := w][..l] == ws[..l][i := w];
      CountUpdate(ws[..l], p, i, w);
    } else {
      assert ws[i := w][..l] == ws[..l];
    }
  }

  lemma {:induction false} CountZero(ws: seq<Worker>, p: Worker -> bool)
    ensures Count(ws, p) == 0 <==> forall i :: 0 <= i < |ws| ==> !p(ws[i])
  {
    if ws != [] {
      var l := |ws| - 1;
      CountZero(ws[..l], p);
      assert forall i :: 0 <= i < l ==> ws[..l][i] == ws[i];
    }
  }

  predicate IsIdle(w: Worker) {
    w == Asleep || w == Woken
  }

  predicate IsSlow(w: Worker) {
    (w.Executing? && w.slow) || w == Finished(true)
  }

  // -------------------------------------------------------------- invariants

  /** What the place of a request says about its fields. */
  ghost predicate FieldsOk(r: Request) {
    match r.place
    case InQueue => r.linked && r.work == Callback && !r.slow
    case InSlow => r.linked && r.work == Callback && r.slow
    case AtWorker(_) => !r.linked && r.work == Callback
    case Limbo => r.linked && r.work != Null
    case InDone => r.linked && r.work != Callback
    case InLocal => r.linked && r.work != Callback
    case Delivered => r.work != Callback
  }

  ghost predicate WorkerOk(s: State, i: nat)
    requires i < |s.workers|
  {
    s.workers[i].Executing? ==>
      var id := s.workers[i].id;
      id in s.reqs && s.reqs[id].place == AtWorker(i) && s.reqs[id].slow == s.workers[i].slow
  }

  ghost predicate RequestOk(s: State, id: nat)
    requires id in s.reqs
  {
    var r := s.reqs[id];
    && FieldsOk(r)
    && (r.place.AtWorker? ==> r.place.i < |s.workers| && s.workers[r.place.i].Executing? && s.workers[r.place.i].id == id)
    && (r.place == Limbo <==> s.cancelling == Some(id))
    && (id in s.executed <==> r.work == Null || (r.place.AtWorker? && s.workers[r.place.i].ran))
  }

  ghost predicate QueuesOk(s: State) {
    HoldsItems(s.wq, s.reqs) && Holds(s.slow, s.reqs, InSlow) && Holds(s.done, s.reqs, InDone) && Holds(s.local, s.reqs, InLocal)
  }

  ghost predicate HistoryOk(s: State) {
    && NoDup(s.executed) && (forall id :: id in s.executed ==> id in s.reqs)
    && (forall j, k :: 0 <= j < k < |s.delivered| ==> s.delivered[j].0 != s.delivered[k].0)
    && (forall k {:trigger s.delivered[k]} :: 0 <= k < |s.delivered| ==> DeliveredOk(s, s.delivered[k]))
    && (s.cancelling.Some? ==> s.cancelling.value in s.reqs)
  }

  ghost predicate DeliveredOk(s: State, d: (nat, bool)) {
    d.0 in s.reqs && s.reqs[d.0].place == Delivered && (d.1 <==> s.reqs[d.0].work == Cancelled)
  }

  /** The counters are what they count, and slow work stays under its threshold. */
  ghost predicate CountersOk(s: State) {
    && |s.workers| > 0 && s.idle == Count(s.workers, IsIdle) && s.running == Count(s.workers, IsSlow)
    && s.running <= Threshold(s)
  }

  /** Waiting slow work is announced; and unless there is nothing to do, somebody is up. */
  ghost predicate Awake(s: State) {
    && (s.slow != [] ==> SlowMessage in s.wq)
    && (!MustWait(s) ==> exists i :: 0 <= i < |s.workers| && s.workers[i] != Asleep)
  }

  ghost predicate Points(s: State) {
    && (forall i {:trigger WorkerOk(s, i)} :: 0 <= i < |s.workers| ==> WorkerOk(s, i))
    && (forall id {:trigger RequestOk(s, id)} :: id in s.reqs ==> RequestOk(s, id))
  }

  ghost predicate Inv(s: State) {
    QueuesOk(s) && HistoryOk(s) && CountersOk(s) && Awake(s) && Points(s)
  }

  lemma InitInv(s: State)
    requires Init(s)
    ensures Inv(s)
  {
    CountZero(s.workers, IsIdle);
    CountZero(s.workers, IsSlow);
  }

  // ------------------------------------------------- what a small change keeps

  /** Requests differ at id only. */
  ghost predicate Only(reqs: map<nat, Request>, reqs': map<nat, Request>, id: nat) {
    && (forall d :: d in reqs && d != id ==> d in reqs' && reqs'[d] == reqs[d])
    && (forall d :: d in reqs' && d != id ==> d in reqs)
    && id in reqs'
  }

  ghost predicate WasAt(reqs: map<nat, Request>, id: nat, p: Place) {
    id in reqs && reqs[id].place == p
  }

  lemma HoldsKept(q: seq<nat>, reqs: map<nat, Request>, reqs': map<nat, Request>, id: nat, p: Place)
    requires Holds(q, reqs, p) && Only(reqs, reqs', id) && !WasAt(reqs, id, p) && !WasAt(reqs', id, p)
    ensures Holds(q, reqs', p)
  {}

  lemma HoldsMore(q: seq<nat>, reqs: map<nat, Request>, reqs': map<nat, Request>, id: nat, p: Place)
    requires Holds(q, reqs, p) && Only(reqs, reqs', id) && !WasAt(reqs, id, p) && WasAt(reqs', id, p)
    ensures Holds(q + [id], reqs', p)
  {
    Appended(q, id);
  }

  lemma HoldsLess(q: seq<nat>, reqs: map<nat, Request>, reqs': map<nat, Request>, p: Place)
    requires |q| > 0 && Holds(q, reqs, p) && Only(reqs, reqs', q[0]) && !WasAt(reqs', q[0], p)
    ensures Holds(q[1..], reqs', p)
  {
    Popped(q);
  }

  lemma HoldsWithout(q: seq<nat>, reqs: map<nat, Request>, reqs': map<nat, Request>, id: nat, p: Place)
    requires Holds(q, reqs, p) && Only(reqs, reqs', id) && !WasAt(reqs', id, p)
    ensures Holds(Without(q, id), reqs', p)
  {
    WithoutMember(q, id);
  }

  lemma ItemsKept(wq: seq<Entry>, reqs: map<nat, Request>, reqs': map<nat, Request>, id: nat)
    requires HoldsItems(wq, reqs) && Only(reqs, reqs', id) && !WasAt(reqs, id, InQueue) && !WasAt(reqs', id, InQueue)
    ensures HoldsItems(wq, reqs')
  {}

  lemma MessageAdded(wq: seq<Entry>, reqs: map<nat, Request>)
    requires HoldsItems(wq, reqs) && SlowMessage !in wq
    ensures HoldsItems(wq + [SlowMessage], reqs)
  {
    Appended(wq, SlowMessage);
  }

  lemma MessageTaken(wq: seq<Entry>, reqs: map<nat, Request>)
    requires HoldsItems(wq, reqs) && |wq| > 0 && wq[0] == SlowMessage
    ensures HoldsItems(wq[1..], reqs) && SlowMessage !in wq[1..]
  {
    Popped(wq);
  }

  /** Requests and workers agree after a change of request id and worker i. */
  lemma PointsExcept(s: State, s': State, id: nat, i: nat)
    requires Points(s) && |s'.workers| == |s.workers| && Only(s.reqs, s'.reqs, id)
    requires forall j :: 0 <= j < |s.workers| && j != i ==> StillWorks(s.workers[j], s'.workers[j], id)
    requires forall d :: d != id ==> (d in s.executed <==> d in s'.executed)
    requires forall d :: d != id ==> (s.cancelling == Some(d) <==> s'.cancelling == Some(d))
    requires i < |s.workers| ==> WorkerOk(s', i) && (s.workers[i].Executing? ==> s.workers[i].id == id)
    requires RequestOk(s', id)
    ensures Points(s')
  {
    forall j | 0 <= j < |s'.workers| ensures WorkerOk(s', j) {
      assert WorkerOk(s, j);
    }
    forall d | d in s'.reqs ensures RequestOk(s', d) {
      if d != id {
        assert RequestOk(s, d);
      }
    }
  }

  ghost predicate StillWorks(w: Worker, w': Worker, id: nat) {
    if w.Executing? then w' == w && w.id != id else !w'.Executing?
  }

  /** Workers that execute nothing change among themselves. */
  lemma PointsMoved(s: State, s': State)
    requires Points(s) && |s'.workers| == |s.workers| && s'.reqs == s.reqs
    requires s'.executed == s.executed && s'.cancelling == s.cancelling
    requires forall j :: 0 <= j < |s.workers| ==> if s.workers[j].Executing? then s'.workers[j] == s.workers[j] else !s'.workers[j].Executing?
    ensures Points(s')
  {
    forall j | 0 <= j < |s'.workers| ensures WorkerOk(s', j) {
      assert WorkerOk(s, j);
    }
    forall d | d in s'.reqs ensures RequestOk(s', d) {
      assert RequestOk(s, d);
    }
  }

  lemma HistoryKept(s: State, s': State, id: nat)
    requires HistoryOk(s) && s'.delivered == s.delivered && Only(s.reqs, s'.reqs, id) && !WasAt(s.reqs, id, Delivered)
    requires s'.executed == s.executed || (s'.executed == s.executed + [id] && id !in s.executed)
    requires s'.cancelling.Some? ==> s'.cancelling.value in s'.reqs
    ensures HistoryOk(s')
  {
    if s'.executed != s.executed {
      Appended(s.executed, id);
    }
    forall k | 0 <= k < |s'.delivered| ensures DeliveredOk(s', s'.delivered[k]) {
      assert DeliveredOk(s, s.delivered[k]);
    }
  }

  /** A signal changes no more than one sleeper into a woken worker. */
  lemma SignalKeeps(s: State, ws: seq<Worker>, ws': seq<Worker>)
    requires SignalledIfIdle(s, ws, ws')
    ensures |ws'| == |ws| && Count(ws', IsIdle) == Count(ws, IsIdle) && Count(ws', IsSlow) == Count(ws, IsSlow)
    ensures forall i :: 0 <= i < |ws| ==> ws'[i] == ws[i] || (ws[i] == Asleep && ws'[i] == Woken)
    ensures s.idle > 0 && Asleep in ws ==> Woken in ws'
  {
    if s.idle > 0 && Asleep in ws {
      var i :| 0 <= i < |ws| && ws[i] == Asleep && ws' == ws[i := Woken];
      CountUpdate(ws, IsIdle, i, Woken);
      CountUpdate(ws, IsSlow, i, Woken);
      assert ws'[i] == Woken;
    }
  }

  /** Once signalled, a worker is up: idle counts the sleepers. */
  lemma SomebodyUp(s: State, ws': seq<Worker>)
    requires CountersOk(s) && SignalledIfIdle(s, s.workers, ws')
    ensures exists i :: 0 <= i < |ws'| && ws'[i] != Asleep
  {
    SignalKeeps(s, s.workers, ws');
    CountZero(s.workers, IsIdle);
    if Asleep in s.workers {
      assert s.idle > 0;
      assert Woken in ws';
    } else {
      assert ws'[0] != Asleep;
    }
  }

  // ------------------------------------------------------------------- steps

  lemma SubmitPoints(s: State, s': State, id: nat, slow: bool)
    requires Points(s) && HistoryOk(s) && Submit(s, s', id, slow)
    ensures Points(s')
  {
    if !(slow && SlowMessage in s.wq) {
      SignalKeeps(s, s.workers, s'.workers);
    }
    var r := s.(reqs := s'.reqs);
    assert RequestOk(r, id);
    PointsExcept(s, r, id, |s.workers|) by {
      forall j | 0 <= j < |s.workers| ensures StillWorks(s.workers[j], r.workers[j], id) {
        assert WorkerOk(s, j);
      }
    }
    PointsMoved(r, s');
  }

  lemma SubmitInv(s: State, s': State, id: nat, slow: bool)
    requires Inv(s) && Submit(s, s', id, slow)
    ensures Inv(s')
  {
    if !(slow && SlowMessage in s.wq) {
      SignalKeeps(s, s.workers, s'.workers);
      SomebodyUp(s, s'.workers);
    }
    SubmitQueues(s, s', id, slow);
    SubmitPoints(s, s', id, slow);
    HistoryKept(s, s', id);
  }

  lemma SubmitQueues(s: State, s': State, id: nat, slow: bool)
    requires QueuesOk(s) && Submit(s, s', id, slow)
    ensures QueuesOk(s')
  {
    HoldsKept(s.done, s.reqs, s'.reqs, id, InDone);
    HoldsKept(s.local, s.reqs, s'.reqs, id, InLocal);
    if slow {
      HoldsMore(s.slow, s.reqs, s'.reqs, id, InSlow);
      ItemsKept(s.wq, s.reqs, s'.reqs, id);
      if SlowMessage !in s.wq {
        MessageAdded(s.wq, s'.reqs);
      }
    } else {
      HoldsKept(s.slow, s.reqs, s'.reqs, id, InSlow);
      Appended(s.wq, Item(id));
    }
  }

  lemma LockInv(s: State, s': State, i: nat)
    requires Inv(s) && Lock(s, s', i)
    ensures Inv(s')
  {
    CountUpdate(s.workers, IsIdle, i, Top);
    CountUpdate(s.workers, IsSlow, i, Top);
    assert s'.workers[i] == Top;
    PointsMoved(s, s');
  }

  lemma SpuriousInv(s: State, s': State, i: nat)
    requires Inv(s) && Spurious(s, s', i)
    ensures Inv(s')
  {
    CountUpdate(s.workers, IsIdle, i, Woken);
    CountUpdate(s.workers, IsSlow, i, Woken);
    assert s'.workers[i] == Woken;
    PointsMoved(s, s');
  }

  lemma SleepInv(s: State, s': State, i: nat)
    requires Inv(s) && Turn(s, s', i) && MustWait(s)
    ensures Inv(s')
  {
    CountUpdate(s.workers, IsIdle, i, Asleep);
    CountUpdate(s.workers, IsSlow, i, Asleep);
    PointsMoved(s, s');
  }

  /** A request goes from the head of a queue to worker i. */
  lemma TakenPoints(s: State, i: nat, id: nat, slow: bool)
    requires Points(s) && i < |s.workers| && s.workers[i] == Top && id in s.reqs
    requires s.reqs[id].place == InQueue || s.reqs[id].place == InSlow
    requires slow == s.reqs[id].slow
    ensures Points(Taken(s, i, id, slow))
  {
    var t := Taken(s, i, id, slow);
    assert RequestOk(s, id);
    assert t.workers[i] == Executing(id, slow, false);
    assert RequestOk(t, id);
    PointsExcept(s, t, id, i) by {
      forall j | 0 <= j < |s.workers| && j != i ensures StillWorks(s.workers[j], t.workers[j], id) {
        assert WorkerOk(s, j);
      }
    }
  }

  lemma TakeItemQueues(s: State, s': State, i: nat)
    requires QueuesOk(s) && Turn(s, s', i) && !MustWait(s) && s.wq[0].Item?
    ensures QueuesOk(s') && (SlowMessage in s.wq ==> SlowMessage in s'.wq)
  {
    var id := s.wq[0].id;
    Popped(s.wq);
    HoldsKept(s.slow, s.reqs, s'.reqs, id, InSlow);
    HoldsKept(s.done, s.reqs, s'.reqs, id, InDone);
    HoldsKept(s.local, s.reqs, s'.reqs, id, InLocal);
  }

  lemma TakeItemInv(s: State, s': State, i: nat)
    requires Inv(s) && Turn(s, s', i) && !MustWait(s) && s.wq[0].Item?
    ensures Inv(s')
  {
    var id := s.wq[0].id;
    assert RequestOk(s, id);
    TakenPoints(s.(wq := s.wq[1..]), i, id, false) by {
      PointsMoved(s, s.(wq := s.wq[1..]));
    }
    CountUpdate(s.workers, IsIdle, i, Executing(id, false, false));
    CountUpdate(s.workers, IsSlow, i, Executing(id, false, false));
    assert s'.workers[i] != Asleep;
    TakeItemQueues(s, s', i);
    HistoryKept(s, s', id);
  }

  lemma RescheduleInv(s: State, s': State, i: nat)
    requires Inv(s) && Turn(s, s', i) && !MustWait(s) && s.wq[0] == SlowMessage && (s.running >= Threshold(s) || s.slow == [])
    ensures Inv(s')
  {
    MessageTaken(s.wq, s.reqs);
    MessageAdded(s.wq[1..], s.reqs);
    assert s'.workers[i] == Top;
    PointsMoved(s, s');
  }

  lemma RunSlowQueues(s: State, s': State, i: nat)
    requires QueuesOk(s) && Turn(s, s', i) && !MustWait(s) && s.wq[0] == SlowMessage && s.running < Threshold(s) && s.slow != []
    requires s.slow[0] in s.reqs ==> s.reqs[s.slow[0]].place == InSlow
    ensures QueuesOk(s') && (s'.slow != [] ==> SlowMessage in s'.wq)
  {
    var id := s.slow[0];
    Popped(s.slow);
    MessageTaken(s.wq, s.reqs);
    ItemsKept(s.wq[1..], s.reqs, s'.reqs, id);
    HoldsLess(s.slow, s.reqs, s'.reqs, InSlow);
    HoldsKept(s.done, s.reqs, s'.reqs, id, InDone);
    HoldsKept(s.local, s.reqs, s'.reqs, id, InLocal);
    if |s.slow| > 1 {
      MessageAdded(s.wq[1..], s'.reqs);
    }
  }

  lemma RunSlowPoints(s: State, s': State, i: nat)
    requires Inv(s) && Turn(s, s', i) && !MustWait(s) && s.wq[0] == SlowMessage && s.running < Threshold(s) && s.slow != []
    ensures Points(s')
  {
    var id := s.slow[0];
    assert RequestOk(s, id);
    var r := s.(running := s.running + 1, slow := s.slow[1..]);
    PointsMoved(s, r);
    TakenPoints(r, i, id, true);
    var t := Taken(r, i, id, true);
    if |s.slow| > 1 {
      SignalKeeps(s, t.workers, s'.workers);
    }
    PointsMoved(t, s');
  }

  lemma RunSlowCounters(s: State, s': State, i: nat)
    requires CountersOk(s) && Turn(s, s', i) && !MustWait(s) && s.wq[0] == SlowMessage && s.running < Threshold(s) && s.slow != []
    ensures CountersOk(s') && s'.workers[i] != Asleep
  {
    var ws := s.workers[i := Executing(s.slow[0], true, false)];
    CountUpdate(s.workers, IsIdle, i, ws[i]);
    CountUpdate(s.workers, IsSlow, i, ws[i]);
    if |s.slow| > 1 {
      SignalKeeps(s, ws, s'.workers);
    }
  }

  lemma RunSlowHistory(s: State, s': State, i: nat)
    requires QueuesOk(s) && HistoryOk(s) && Turn(s, s', i) && !MustWait(s) && s.wq[0] == SlowMessage && s.running < Threshold(s) && s.slow != []
    ensures HistoryOk(s')
  {
    HistoryKept(s, s', s.slow[0]);
  }

  lemma RunSlowInv(s: State, s': State, i: nat)
    requires Inv(s) && Turn(s, s', i) && !MustWait(s) && s.wq[0] == SlowMessage && s.running < Threshold(s) && s.slow != []
    ensures Inv(s')
  {
    RunSlowQueues(s, s', i);
    RunSlowCounters(s, s', i);
    RunSlowPoints(s, s', i);
    RunSlowHistory(s, s', i);
  }

  lemma ExecuteInv(s: State, s': State, i: nat)
    requires Inv(s) && Execute(s, s', i)
    ensures Inv(s')
  {
    var id, w := s.workers[i].id, s.workers[i].(ran := true);
    assert WorkerOk(s, i) && RequestOk(s, id);
    CountUpdate(s.workers, IsIdle, i, w);
    CountUpdate(s.workers, IsSlow, i, w);
    HistoryKept(s, s', id);
    assert s'.workers[i] == w && RequestOk(s', id);
    PointsExcept(s, s', id, i) by {
      forall j | 0 <= j < |s.workers| && j != i ensures StillWorks(s.workers[j], s'.workers[j], id) {
        assert WorkerOk(s, j);
      }
    }
  }

  lemma FinishPoints(s: State, s': State, i: nat)
    requires Points(s) && Finish(s, s', i)
    ensures Points(s')
  {
    var id, w := s.workers[i].id, Finished(s.workers[i].slow);
    assert WorkerOk(s, i) && RequestOk(s, id);
    assert s'.workers[i] == w && RequestOk(s', id);
    PointsExcept(s, s', id, i) by {
      forall j | 0 <= j < |s.workers| && j != i ensures StillWorks(s.workers[j], s'.workers[j], id) {
        assert WorkerOk(s, j);
      }
    }
  }

  lemma FinishQueues(s: State, s': State, i: nat)
    requires QueuesOk(s) && Finish(s, s', i) && s.reqs[s.workers[i].id].place == AtWorker(i)
    ensures QueuesOk(s')
  {
    var id := s.workers[i].id;
    ItemsKept(s.wq, s.reqs, s'.reqs, id);
    HoldsKept(s.slow, s.reqs, s'.reqs, id, InSlow);
    HoldsMore(s.done, s.reqs, s'.reqs, id, InDone);
    HoldsKept(s.local, s.reqs, s'.reqs, id, InLocal);
  }

  lemma FinishInv(s: State, s': State, i: nat)
    requires Inv(s) && Finish(s, s', i)
    ensures Inv(s')
  {
    var w := Finished(s.workers[i].slow);
    assert WorkerOk(s, i);
    CountUpdate(s.workers, IsIdle, i, w);
    CountUpdate(s.workers, IsSlow, i, w);
    assert s'.workers[i] == w;
    FinishQueues(s, s', i);
    FinishPoints(s, s', i);
    HistoryKept(s, s', s.workers[i].id);
  }

  /** A change that leaves the workers alone. */
  lemma PointsElsewhere(s: State, s': State, id: nat)
    requires Points(s) && s'.workers == s.workers && s'.executed == s.executed && Only(s.reqs, s'.reqs, id)
    requires forall d :: d != id ==> (s.cancelling == Some(d) <==> s'.cancelling == Some(d))
    requires RequestOk(s', id) && (id in s.reqs ==> !s.reqs[id].place.AtWorker?)
    ensures Points(s')
  {
    PointsExcept(s, s', id, |s.workers|) by {
      forall j | 0 <= j < |s.workers| ensures StillWorks(s.workers[j], s'.workers[j], id) {
        assert WorkerOk(s, j);
      }
    }
  }

  lemma CancelQueues(s: State, s': State, id: nat)
    requires QueuesOk(s) && CancelBegin(s, s', id) && CanCancel(s.reqs[id])
    ensures QueuesOk(s') && (SlowMessage in s.wq ==> SlowMessage in s'.wq) && (s'.slow != [] ==> s.slow != [])
    ensures s.wq == [] || s.wq == [SlowMessage] ==> s'.wq == s.wq
  {
    WithoutMember(s.wq, Item(id));
    HoldsWithout(s.slow, s.reqs, s'.reqs, id, InSlow);
    HoldsWithout(s.done, s.reqs, s'.reqs, id, InDone);
    HoldsWithout(s.local, s.reqs, s'.reqs, id, InLocal);
  }

  lemma CancelPoints(s: State, s': State, id: nat)
    requires Points(s) && CancelBegin(s, s', id) && CanCancel(s.reqs[id])
    ensures Points(s') && id !in s.executed && !s.reqs[id].place.AtWorker?
  {
    assert RequestOk(s, id);
    assert RequestOk(s', id);
    PointsElsewhere(s, s', id);
  }

  lemma CancelBeginInv(s: State, s': State, id: nat)
    requires Inv(s) && CancelBegin(s, s', id)
    ensures Inv(s')
  {
    if CanCancel(s.reqs[id]) {
      CancelPoints(s, s', id);
      CancelQueues(s, s', id);
      HistoryKept(s, s', id);
    }
  }

  lemma CancelEndInv(s: State, s': State)
    requires Inv(s) && CancelEnd(s, s')
    ensures Inv(s')
  {
    var id := s.cancelling.value;
    assert RequestOk(s, id) && RequestOk(s', id);
    ItemsKept(s.wq, s.reqs, s'.reqs, id);
    HoldsKept(s.slow, s.reqs, s'.reqs, id, InSlow);
    HoldsMore(s.done, s.reqs, s'.reqs, id, InDone);
    HoldsKept(s.local, s.reqs, s'.reqs, id, InLocal);
    PointsElsewhere(s, s', id);
  }

  lemma DeliverInv(s: State, s': State)
    requires Inv(s) && Deliver(s, s')
    ensures Inv(s')
  {
    var id := s.local[0];
    Popped(s.local);
    assert RequestOk(s, id) && RequestOk(s', id);
    ItemsKept(s.wq, s.reqs, s'.reqs, id);
    HoldsKept(s.slow, s.reqs, s'.reqs, id, InSlow);
    HoldsKept(s.done, s.reqs, s'.reqs, id, InDone);
    HoldsLess(s.local, s.reqs, s'.reqs, InLocal);
    PointsElsewhere(s, s', id);
    forall k | 0 <= k < |s'.delivered| ensures DeliveredOk(s', s'.delivered[k]) && (k < |s.delivered| ==> s.delivered[k].0 != id) {
      if k < |s.delivered| {
        assert s'.delivered[k] == s.delivered[k];
        assert DeliveredOk(s, s.delivered[k]);
      }
    }
  }

  lemma CollectPoints(s: State, s': State)
    requires Points(s) && Collect(s, s') && Holds(s.done, s.reqs, InDone)
    ensures Points(s')
  {
    forall j | 0 <= j < |s'.workers| ensures WorkerOk(s', j) {
      assert WorkerOk(s, j);
    }
    forall d | d in s'.reqs ensures RequestOk(s', d) {
      assert RequestOk(s, d);
    }
  }

  lemma CollectInv(s: State, s': State)
    requires Inv(s) && Collect(s, s')
    ensures Inv(s')
  {
    CollectPoints(s, s');
    forall k | 0 <= k < |s'.delivered| ensures DeliveredOk(s', s'.delivered[k]) {
      assert DeliveredOk(s, s.delivered[k]);
    }
  }

  /** Every step keeps the invariant. */
  lemma NextInv(s: State, s': State, step: Step)
    requires Inv(s) && NextBy(s, s', step)
    ensures Inv(s')
  {
    match step {
      case SubmitStep(id, slow) => SubmitInv(s, s', id, slow);
      case LockStep(i) => LockInv(s, s', i);
      case SpuriousStep(i) => SpuriousInv(s, s', i);
      case TurnStep(i) =>
        if MustWait(s) {
          SleepInv(s, s', i);
        } else if s.wq[0].Item? {
          TakeItemInv(s, s', i);
        } else if s.running >= Threshold(s) || s.slow == [] {
          RescheduleInv(s, s', i);
        } else {
          RunSlowInv(s, s', i);
        }
      case ExecuteStep(i) => ExecuteInv(s, s', i);
      case FinishStep(i) => FinishInv(s, s', i);
      case CancelBeginStep(id) => CancelBeginInv(s, s', id);
      case CancelEndStep => CancelEndInv(s, s');
      case CollectStep => CollectInv(s, s');
      case DeliverStep => DeliverInv(s, s');
    }
  }

  // ---------------------------------------------------------------- whole runs

  ghost predicate Next(s: State, s': State) {
    exists step :: NextBy(s, s', step)
  }

  ghost predicate Run(run: seq<State>) {
    && |run| > 0 && Init(run[0])
    && forall k {:trigger StepAt(run, k)} :: 0 < k < |run| ==> StepAt(run, k)
  }

  ghost predicate StepAt(run: seq<State>, k: nat)
    requires 0 < k < |run|
  {
    Next(run[k - 1], run[k])
  }

  lemma {:induction false} RunInv(run: seq<State>, k: nat)
    requires Run(run) && k < |run|
    ensures Inv(run[k])
  {
    if k == 0 {
      InitInv(run[0]);
    } else {
      RunInv(run, k - 1);
      assert StepAt(run, k);
      var step :| NextBy(run[k - 1], run[k], step);
      NextInv(run[k - 1], run[k], step);
    }
  }

  function Times<T(==)>(q: seq<T>, x: T): nat {
    if q == [] then 0 else (if q[0] == x then 1 else 0) + Times(q[1..], x)
  }

  lemma {:induction false} TimesOnce<T(!new)>(q: seq<T>, x: T)
    requires NoDup(q)
    ensures Times(q, x) == if x in q then 1 else 0
  {
    if q != [] {
      Popped(q);
      TimesOnce(q[1..], x);
    }
  }

  function DeliveredIds(d: seq<(nat, bool)>): seq<nat> {
    seq(|d|, k requires 0 <= k < |d| => d[k].0)
  }

  ghost function ExecutingIt(id: nat): Worker -> bool {
    (w: Worker) => w.Executing? && w.id == id
  }

  /** How often a request is found in the queues, at workers, being cancelled, or delivered. */
  ghost function Occurrences(s: State, id: nat): nat {
    Times(s.wq, Item(id)) + Times(s.slow, id) + Count(s.workers, ExecutingIt(id)) + Times(s.done, id) + Times(s.local, id)
    + (if s.cancelling == Some(id) then 1 else 0) + Times(DeliveredIds(s.delivered), id)
  }

  lemma {:induction false} CountOne(ws: seq<Worker>, id: nat, i: nat, n: nat)
    requires i < |ws| && ws[i].Executing? && ws[i].id == id && n <= |ws|
    requires forall j :: 0 <= j < |ws| && j != i && ws[j].Executing? ==> ws[j].id != id
    ensures Count(ws[..n], ExecutingIt(id)) == if i < n then 1 else 0
  {
    if n > 0 {
      assert ws[..n][..n - 1] == ws[..n - 1];
      CountOne(ws, id, i, n - 1);
    }
  }

  lemma {:induction false} CountNone(ws: seq<Worker>, id: nat)
    requires forall j :: 0 <= j < |ws| && ws[j].Executing? ==> ws[j].id != id
    ensures Count(ws, ExecutingIt(id)) == 0
  {
    CountZero(ws, ExecutingIt(id));
  }

  /** The workers executing a request: one if it is at a worker, else none. */
  lemma WorkersOf(s: State, id: nat)
    requires Inv(s)
    ensures Count(s.workers, ExecutingIt(id)) == if id in s.reqs && s.reqs[id].place.AtWorker? then 1 else 0
  {
    forall j | 0 <= j < |s.workers| && s.workers[j].Executing? && s.workers[j].id == id
      ensures id in s.reqs && s.reqs[id].place == AtWorker(j)
    {
      assert WorkerOk(s, j);
    }
    if id in s.reqs && s.reqs[id].place.AtWorker? {
      assert RequestOk(s, id);
      CountOne(s.workers, id, s.reqs[id].place.i, |s.workers|);
      assert s.workers[..|s.workers|] == s.workers;
    } else {
      CountNone(s.workers, id);
    }
  }

  /** The delivered requests are those whose place says so. */
  lemma DeliveredHolds(s: State, id: nat)
    requires HistoryOk(s)
    ensures NoDup(DeliveredIds(s.delivered)) && (id in DeliveredIds(s.delivered) ==> id in s.reqs && s.reqs[id].place == Delivered)
  {
    if id in DeliveredIds(s.delivered) {
      var k :| 0 <= k < |s.delivered| && DeliveredIds(s.delivered)[k] == id;
      assert DeliveredOk(s, s.delivered[k]);
    }
  }

  /** Nothing delivered is forgotten. */
  ghost predicate Recorded(s: State) {
    forall id :: id in s.reqs && s.reqs[id].place == Delivered ==> id in DeliveredIds(s.delivered)
  }

  lemma DeliveredGrows(s: State, s': State, step: Step, id: nat)
    requires NextBy(s, s', step)
    ensures s.delivered <= s'.delivered
    ensures WasAt(s'.reqs, id, Delivered) && !WasAt(s.reqs, id, Delivered) ==> step == DeliverStep && s.local[0] == id
  {}

  lemma RecordedNext(s: State, s': State, step: Step)
    requires Recorded(s) && NextBy(s, s', step)
    ensures Recorded(s')
  {
    forall id | id in s'.reqs && s'.reqs[id].place == Delivered ensures id in DeliveredIds(s'.delivered) {
      DeliveredGrows(s, s', step, id);
      if WasAt(s.reqs, id, Delivered) {
        var k :| 0 <= k < |s.delivered| && DeliveredIds(s.delivered)[k] == id;
        assert s'.delivered[k] == s.delivered[k];
        assert DeliveredIds(s'.delivered)[k] == id;
      } else {
        assert DeliveredIds(s'.delivered)[|s.delivered|] == id;
      }
    }
  }

  lemma {:induction false} RunRecorded(run: seq<State>, k: nat)
    requires Run(run) && k < |run|
    ensures Recorded(run[k])
  {
    if k > 0 {
      RunRecorded(run, k - 1);
      assert StepAt(run, k);
      var step :| NextBy(run[k - 1], run[k], step);
      RecordedNext(run[k - 1], run[k], step);
    }
  }

  /** Over every run, each submitted request is in exactly one place. */
  lemma OnePlace(run: seq<State>, k: nat, id: nat)
    requires Run(run) && k < |run|
    ensures Occurrences(run[k], id) == if id in run[k].reqs then 1 else 0
  {
    var s := run[k];
    RunInv(run, k);
    RunRecorded(run, k);
    TimesOnce(s.wq, Item(id));
    TimesOnce(s.slow, id);
    TimesOnce(s.done, id);
    TimesOnce(s.local, id);
    DeliveredHolds(s, id);
    TimesOnce(DeliveredIds(s.delivered), id);
    WorkersOf(s, id);
    if id in s.reqs {
      assert RequestOk(s, id);
    }
  }

  /** Over every run, a request is executed at most once, completes at most once, and
      completes as cancelled exactly if it was never executed. */
  lemma CompletesOnce(run: seq<State>, k: nat)
    requires Run(run) && k < |run|
    ensures NoDup(run[k].executed) && NoDup(DeliveredIds(run[k].delivered))
    ensures forall d :: d in run[k].delivered ==> (d.1 <==> d.0 !in run[k].executed)
  {
    var s := run[k];
    RunInv(run, k);
    DeliveredHolds(s, 0);
    forall d | d in s.delivered ensures d.1 <==> d.0 !in s.executed {
      var j :| 0 <= j < |s.delivered| && s.delivered[j] == d;
      assert DeliveredOk(s, s.delivered[j]) && RequestOk(s, d.0);
    }
  }

  predicate RunsSlow(w: Worker) {
    w.Executing? && w.slow
  }

  lemma {:induction false} CountAtMost(ws: seq<Worker>, p: Worker -> bool, q: Worker -> bool)
    requires forall w :: p(w) ==> q(w)
    ensures Count(ws, p) <= Count(ws, q)
  {
    if ws != [] {
      CountAtMost(ws[..|ws| - 1], p, q);
    }
  }

  /** Over every run, at most half of the workers (rounded up) execute slow requests, and
      a worker's slow flag is that of its request. */
  lemma SlowBounded(run: seq<State>, k: nat)
    requires Run(run) && k < |run|
    ensures Count(run[k].workers, RunsSlow) <= (|run[k].workers| + 1) / 2
    ensures forall i :: 0 <= i < |run[k].workers| && run[k].workers[i].Executing? ==>
                        run[k].workers[i].id in run[k].reqs && run[k].reqs[run[k].workers[i].id].slow == run[k].workers[i].slow
  {
    var s := run[k];
    RunInv(run, k);
    CountAtMost(s.workers, RunsSlow, IsSlow);
    forall i | 0 <= i < |s.workers| && s.workers[i].Executing?
      ensures s.workers[i].id in s.reqs && s.reqs[s.workers[i].id].slow == s.workers[i].slow
    {
      assert WorkerOk(s, i);
    }
  }

  /** Over every run, waiting slow work has its message queued, never twice. */
  lemma SlowAnnounced(run: seq<State>, k: nat)
    requires Run(run) && k < |run|
    ensures Times(run[k].wq, SlowMessage) <= 1
    ensures run[k].slow != [] ==> Times(run[k].wq, SlowMessage) == 1
  {
    RunInv(run, k);
    TimesOnce(run[k].wq, SlowMessage);
  }

  /** No wakeup is lost: when all workers sleep, no request is waiting. */
  lemma NoneStranded(run: seq<State>, k: nat)
    requires Run(run) && k < |run| && forall i :: 0 <= i < |run[k].workers| ==> run[k].workers[i] == Asleep
    ensures run[k].wq == [] && run[k].slow == []
    ensures forall id :: id in run[k].reqs ==> run[k].reqs[id].place != InQueue && run[k].reqs[id].place != InSlow
  {
    RunInv(run, k);
    CountZero(run[k].workers, IsSlow);
  }

  // -------------------------------------------------------------- cancellation

  /** A successful uv_cancel has begun. */
  ghost predicate Withdrawn(s: State, id: nat) {
    id in s.reqs && (s.reqs[id].place == Limbo || s.reqs[id].work == Cancelled)
  }

  lemma WithdrawnTurn(s: State, s': State, i: nat, id: nat)
    requires QueuesOk(s) && RequestOk'(s, id) && Withdrawn(s, id) && Turn(s, s', i)
    ensures Withdrawn(s', id)
  {
    if !MustWait(s) && s.wq[0].Item? {
      Popped(s.wq);
    } else if s.slow != [] {
      Popped(s.slow);
    }
  }

  ghost predicate RequestOk'(s: State, id: nat) {
    id in s.reqs && RequestOk(s, id)
  }

  /** Steps of a worker that executes something else. */
  lemma WithdrawnFinish(s: State, s': State, i: nat, id: nat)
    requires Points(s) && Withdrawn(s, id) && Finish(s, s', i)
    ensures Withdrawn(s', id)
  {
    assert WorkerOk(s, i) && RequestOk(s, id);
  }

  lemma WithdrawnNext(s: State, s': State, id: nat)
    requires Inv(s) && Withdrawn(s, id) && Next(s, s')
    ensures Withdrawn(s', id)
  {
    var step :| NextBy(s, s', step);
    assert RequestOk(s, id);
    match step {
      case TurnStep(i) => WithdrawnTurn(s, s', i, id);
      case FinishStep(i) => WithdrawnFinish(s, s', i, id);
      case _ => WithdrawnOther(s, s', step, id);
    }
  }

  lemma WithdrawnOther(s: State, s': State, step: Step, id: nat)
    requires Withdrawn(s, id) && NextBy(s, s', step) && !step.TurnStep? && !step.FinishStep?
    requires Holds(s.done, s.reqs, InDone) && Holds(s.local, s.reqs, InLocal)
    requires s.reqs[id].place == Limbo <==> s.cancelling == Some(id)
    ensures Withdrawn(s', id)
  {}

  lemma WithdrawnInRun(run: seq<State>, k: nat, id: nat)
    requires Run(run) && 0 < k < |run| && Withdrawn(run[k - 1], id)
    ensures Withdrawn(run[k], id)
  {
    RunInv(run, k - 1);
    assert StepAt(run, k);
    WithdrawnNext(run[k - 1], run[k], id);
  }

  lemma {:induction false} StaysWithdrawn(run: seq<State>, j: nat, k: nat, id: nat)
    requires Run(run) && j <= k < |run| && Withdrawn(run[j], id)
    ensures Withdrawn(run[k], id)
    decreases k
  {
    if j < k {
      StaysWithdrawn(run, j, k - 1, id);
      WithdrawnInRun(run, k, id);
    }
  }

  lemma WithdrawnMeans(s: State, id: nat)
    requires Inv(s) && Withdrawn(s, id)
    ensures id !in s.executed && (id, false) !in s.delivered
  {
    assert RequestOk(s, id);
    forall k | 0 <= k < |s.delivered| ensures s.delivered[k] != (id, false) {
      assert DeliveredOk(s, s.delivered[k]);
    }
  }

  /** A request that uv_cancel accepted is never executed, and if it completes, then as
      cancelled; one that it refuses with UV_EBUSY is executing or executed. */
  lemma CancelIsFinal(run: seq<State>, j: nat, k: nat, id: nat)
    requires Run(run) && j < k < |run| && CancelBegin(run[j], run[j + 1], id)
    ensures CanCancel(run[j].reqs[id]) ==> id !in run[k].executed && (id, false) !in run[k].delivered
    ensures !CanCancel(run[j].reqs[id]) ==> id in run[j].executed || run[j].reqs[id].place.AtWorker?
  {
    RunInv(run, j);
    assert RequestOk(run[j], id);
    if CanCancel(run[j].reqs[id]) {
      StaysWithdrawn(run, j + 1, k, id);
      RunInv(run, k);
      WithdrawnMeans(run[k], id);
    }
  }

  /** The loop body of a worker that holds the mutex is always defined. */
  lemma TurnIsDefined(s: State, i: nat)
    requires Inv(s) && i < |s.workers| && s.workers[i] == Top
    ensures exists s' :: Turn(s, s', i)
  {
    if MustWait(s) {
      assert Turn(s, s.(workers := s.workers[i := Asleep], idle := s.idle + 1), i);
    } else if s.wq[0].Item? {
      assert s.wq[0] in s.wq;
      assert Turn(s, Taken(s.(wq := s.wq[1..]), i, s.wq[0].id, false), i);
    } else if s.running >= Threshold(s) {
      assert Turn(s, s.(wq := s.wq[1..] + [SlowMessage]), i);
    } else if s.slow == [] {
      assert Turn(s, s.(wq := s.wq[1..]), i);
    } else {
      assert s.slow[0] in s.slow;
      var t := Taken(s.(running := s.running + 1, slow := s.slow[1..]), i, s.slow[0], true);
      ghost var ws := t.workers;
      if s.idle > 0 && Asleep in t.workers {
        var j :| 0 <= j < |t.workers| && t.workers[j] == Asleep;
        ws := t.workers[j := Woken];
      }
      assert SignalledIfIdle(s, t.workers, ws);
      assert Turn(s, if |s.slow| > 1 then t.(wq := s.wq[1..] + [SlowMessage], workers := ws) else t.(wq := s.wq[1..]), i);
    }
  }

  /** Where the program is about to take the step: neither the counters nor the queues
      matter to it. */
  ghost predicate Due(s: State, step: Step) {
    match step
    case SubmitStep(id, slow) => Free(s) && id !in s.reqs
    case LockStep(i) => Free(s) && i < |s.workers| && (s.workers[i] == Ready || s.workers[i] == Woken || s.workers[i].Finished?)
    case SpuriousStep(i) => i < |s.workers| && s.workers[i] == Asleep
    case TurnStep(i) => i < |s.workers| && s.workers[i] == Top
    case ExecuteStep(i) => i < |s.workers| && s.workers[i].Executing? && !s.workers[i].ran
    case FinishStep(i) => i < |s.workers| && s.workers[i].Executing? && s.workers[i].ran
    case CancelBeginStep(id) => Free(s) && s.cancelling == None && id in s.reqs && s.reqs[id].place != Delivered
    case CancelEndStep => s.cancelling.Some?
    case CollectStep => s.cancelling == None && s.local == []
    case DeliverStep => s.cancelling == None && s.local != []
  }

  /** The counters never fall below zero: a worker that has been asleep is counted in idle
      and one that has done slow work in running. */
  lemma CountersSuffice(s: State, i: nat)
    requires Inv(s) && i < |s.workers|
    ensures s.workers[i] == Woken ==> s.idle > 0
    ensures s.workers[i] == Finished(true) ==> s.running > 0
  {
    CountZero(s.workers, IsIdle);
    CountZero(s.workers, IsSlow);
  }

  lemma LockIsDefined(s: State, i: nat)
    requires Inv(s) && Due(s, LockStep(i))
    ensures exists s' :: Lock(s, s', i)
  {
    CountersSuffice(s, i);
    var t := s.(workers := s.workers[i := Top]);
    match s.workers[i] {
      case Ready => assert Lock(s, t, i);
      case Woken => assert Lock(s, t.(idle := s.idle - 1), i);
      case Finished(slow) => assert Lock(s, if slow then t.(running := s.running - 1) else t, i);
    }
  }

  lemma SubmitIsDefined(s: State, id: nat, slow: bool)
    requires Inv(s) && Due(s, SubmitStep(id, slow))
    ensures exists s' :: Submit(s, s', id, slow)
  {
    var r := s.(reqs := s.reqs[id := Request(slow, true, Callback, if slow then InSlow else InQueue)]);
    if slow && SlowMessage in s.wq {
      assert Submit(s, r.(slow := s.slow + [id]), id, slow);
    } else {
      var ws := s.workers;
      if s.idle > 0 && Asleep in s.workers {
        var j :| 0 <= j < |s.workers| && s.workers[j] == Asleep;
        ws := s.workers[j := Woken];
      }
      assert SignalledIfIdle(s, s.workers, ws);
      assert Submit(s, r.(slow := if slow then s.slow + [id] else s.slow, wq := s.wq + [if slow then SlowMessage else Item(id)], workers := ws), id, slow);
    }
  }

  lemma CancelIsDefined(s: State, step: Step)
    requires Inv(s) && Due(s, step) && (step.CancelBeginStep? || step.CancelEndStep?)
    ensures exists s' :: NextBy(s, s', step)
  {
    match step
    case CancelBeginStep(id) =>
      var t := s.(wq := Without(s.wq, Item(id)), slow := Without(s.slow, id), done := Without(s.done, id),
                  local := Without(s.local, id), cancelling := Some(id), reqs := s.reqs[id := s.reqs[id].(place := Limbo)]);
      assert NextBy(s, if CanCancel(s.reqs[id]) then t else s, step);
    case CancelEndStep =>
      var id := s.cancelling.value;
      assert NextBy(s, s.(cancelling := None, done := s.done + [id], reqs := s.reqs[id := s.reqs[id].(work := Cancelled, place := InDone)]), step);
  }

  lemma LoopIsDefined(s: State, step: Step)
    requires Inv(s) && Due(s, step) && (step.CollectStep? || step.DeliverStep?)
    ensures exists s' :: NextBy(s, s', step)
  {
    match step
    case CollectStep =>
      var reqs := map id | id in s.reqs :: if id in s.done then s.reqs[id].(place := InLocal) else s.reqs[id];
      assert NextBy(s, s.(done := [], local := s.done, reqs := reqs), step);
    case DeliverStep =>
      var id := s.local[0];
      assert id in s.local;
      assert NextBy(s, s.(local := s.local[1..], delivered := s.delivered + [(id, s.reqs[id].work == Cancelled)],
                          reqs := s.reqs[id := s.reqs[id].(place := Delivered)]), step);
  }

  lemma WorkIsDefined(s: State, i: nat)
    requires Inv(s) && i < |s.workers| && s.workers[i].Executing?
    ensures exists s' :: if s.workers[i].ran then Finish(s, s', i) else Execute(s, s', i)
  {
    assert WorkerOk(s, i);
    var id := s.workers[i].id;
    if s.workers[i].ran {
      assert Finish(s, s.(workers := s.workers[i := Finished(s.workers[i].slow)], done := s.done + [id],
                          reqs := s.reqs[id := s.reqs[id].(linked := true, work := Null, place := InDone)]), i);
    } else {
      assert Execute(s, s.(workers := s.workers[i := s.workers[i].(ran := true)], executed := s.executed + [id]), i);
    }
  }

  /** No run is cut short: every step that the program is about to take can be taken. */
  lemma NoStepIsBlocked(s: State, step: Step)
    requires Inv(s) && Due(s, step)
    ensures exists s' :: NextBy(s, s', step)
  {
    match step
    case SubmitStep(id, slow) =>
      SubmitIsDefined(s, id, slow);
      var t :| Submit(s, t, id, slow);
      assert NextBy(s, t, step);
    case LockStep(i) =>
      LockIsDefined(s, i);
      var t :| Lock(s, t, i);
      assert NextBy(s, t, step);
    case SpuriousStep(i) =>
      assert NextBy(s, s.(workers := s.workers[i := Woken]), step);
    case TurnStep(i) =>
      TurnIsDefined(s, i);
      var t :| Turn(s, t, i);
      assert NextBy(s, t, step);
    case ExecuteStep(i) =>
      WorkIsDefined(s, i);
      var t :| Execute(s, t, i);
      assert NextBy(s, t, step);
    case FinishStep(i) =>
      WorkIsDefined(s, i);
      var t :| Finish(s, t, i);
      assert NextBy(s, t, step);
    case CancelBeginStep(id) => CancelIsDefined(s, step);
    case CancelEndStep => CancelIsDefined(s, step);
    case CollectStep => LoopIsDefined(s, step);
    case DeliverStep => LoopIsDefined(s, step);
  }
}
