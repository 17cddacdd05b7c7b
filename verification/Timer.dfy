/** Timers as clients of the heap (libuv src/timer.c).  A timer handle is named by the
    address of its heap node. */
module Timers {
  import opened Keys
  import opened Heap

  const UINT64 := 0x1_0000_0000_0000_0000
  const INT_MAX := 0x7FFF_FFFF
  const NS_PER_MS := 1000000

  type uint64 = n: nat | n < UINT64

  /** The loop's clock in milliseconds, as uv__update_time takes it from one in nanoseconds. */
  type millis = n: uint64 | n <= (UINT64 - 1) / NS_PER_MS

  /** uv_timer_t; `cb` says whether a callback is set. */
  datatype Timer = Timer(cb: bool, timeout: uint64, repeat: uint64, startId: uint64, active: bool, closing: bool)

  type Table = map<nat, Timer>

  /** What timer_less_than compares; an address that is no handle is after them all. */
  function Key(timers: Table, h: nat): (nat, nat) {
    if h in timers then (timers[h].timeout, timers[h].startId) else (UINT64, 0)
  }

  predicate KeyLess(a: (nat, nat), b: (nat, nat)) {
    a.0 < b.0 || (a.0 == b.0 && a.1 < b.1)
  }

  /** timer_less_than on heap nodes. */
  function Lt(timers: Table): (nat, nat) -> bool {
    (a: nat, b: nat) => KeyLess(Key(timers, a), Key(timers, b))
  }

  lemma LtIsWeakOrder(timers: Table)
    ensures WeakOrder(Lt(timers))
  {}

  /** The earlier timeout goes first, and of two equal ones the timer that was started first. */
  ghost predicate Precedes(t: Timer, u: Timer) {
    t.timeout < u.timeout || (t.timeout == u.timeout && t.startId <= u.startId)
  }

  /** now + delay, or the largest 64-bit value when the sum wraps. */
  function Clamp(now: uint64, delay: uint64): (r: uint64)
    ensures r >= delay && (r > now || delay == 0 || now == UINT64 - 1)
    ensures delay == 0 ==> r == now
    ensures now + delay < UINT64 ==> r == now + delay
    ensures now + delay >= UINT64 ==> r == UINT64 - 1
  {
    var sum := (now + delay) % UINT64;
    if sum < delay then UINT64 - 1 else sum
  }

  predicate Due(timers: Table, h: nat, now: uint64) {
    h in timers && timers[h].active && timers[h].timeout <= now
  }

  ghost function ActiveSet(timers: Table): set<nat> {
    set h | h in timers && timers[h].active
  }

  ghost function DueSet(timers: Table, now: uint64): set<nat> {
    set h | h in timers && Due(timers, h, now)
  }

  /** What one expiry does to a handle: a repeating timer is started again. */
  function Fired(t: Timer, now: uint64, startId: uint64): Timer {
    if t.repeat != 0 then t.(timeout := Clamp(now, t.repeat), startId := startId) else t.(active := false)
  }

  lemma {:induction false} DistinctSize(nodes: seq<nat>)
    requires Distinct(nodes)
    ensures |ElementsOf(nodes)| == |nodes|
  {
    if nodes != [] {
      var front := nodes[..|nodes| - 1];
      DistinctSize(front);
      DroppedElements(nodes);
      assert nodes[|nodes| - 1] in ElementsOf(nodes);
    }
  }

  lemma FewerActive(timers: Table, h: nat)
    requires h in timers && !timers[h].active
    ensures |ActiveSet(timers)| < |timers|
  {
    SmallerSet(ActiveSet(timers), timers.Keys - {h});
  }

  lemma {:induction false} SmallerSet<T>(a: set<T>, b: set<T>)
    requires a <= b
    ensures |a| <= |b|
    decreases b
  {
    if x :| x in b {
      SmallerSet(a - {x}, b - {x});
    }
  }

  lemma SameOrder(nodes: seq<nat>, t: Table, t': Table)
    requires Ordered(nodes, Lt(t))
    requires forall n :: n in nodes ==> Key(t, n) == Key(t', n)
    ensures Ordered(nodes, Lt(t'))
  {
    forall i | 0 < i < |nodes| ensures Kept(nodes, Lt(t'), i) {
      assert Kept(nodes, Lt(t), i);
    }
  }

  // ------------------------------------------------- what a callback may do

  datatype State = State(timers: Table, counter: uint64, now: millis)

  /** The calls on the loop's timers, and uv_update_time with what the clock then reads. */
  datatype Action =
    | Begin(h: nat, cb: bool, timeout: uint64, repeat: uint64)
    | End(h: nat)
    | Renew(h: nat)
    | SetRepeat(h: nat, repeat: uint64)
    | Close(h: nat)
    | UpdateTime(hrtime: uint64)

  function Started(s: State, h: nat, timeout: uint64, repeat: uint64): State {
    s.(timers := s.timers[h := Timer(true, Clamp(s.now, timeout), repeat, s.counter, true, false)], counter := (s.counter + 1) % UINT64)
  }

  function Stopped(s: State, h: nat): State
    requires h in s.timers
  {
    s.(timers := s.timers[h := s.timers[h].(active := false)])
  }

  function Act(s: State, a: Action): State
    requires Knows(s.timers, a)
  {
    match a
    case Begin(h, cb, timeout, repeat) => if s.timers[h].closing || !cb then s else Started(s, h, timeout, repeat)
    case End(h) => Stopped(s, h)
    case Renew(h) =>
      if s.timers[h].closing || !s.timers[h].cb || s.timers[h].repeat == 0 then s else Started(s, h, s.timers[h].repeat, s.timers[h].repeat)
    case SetRepeat(h, repeat) => s.(timers := s.timers[h := s.timers[h].(repeat := repeat)])
    case Close(h) => s.(timers := s.timers[h := s.timers[h].(active := false, closing := true)])
    case UpdateTime(hrtime) => s.(now := hrtime / NS_PER_MS)
  }

  predicate Knows(timers: Table, a: Action) {
    a.UpdateTime? || a.h in timers
  }

  predicate AllKnown(timers: Table, actions: seq<Action>) {
    forall a :: a in actions ==> Knows(timers, a)
  }

  function Acts(s: State, actions: seq<Action>): (t: State)
    requires AllKnown(s.timers, actions)
    ensures t.timers.Keys == s.timers.Keys
  {
    if actions == [] then s else
      var before := Acts(s, actions[..|actions| - 1]);
      Act(before, actions[|actions| - 1])
  }

  /** uv_timer_stop and uv_timer_again on a timer that is due. */
  function Expired(s: State, h: nat): State
    requires h in s.timers
  {
    s.(timers := s.timers[h := Fired(s.timers[h], s.now, s.counter)],
       counter := if s.timers[h].repeat != 0 then (s.counter + 1) % UINT64 else s.counter)
  }

  /** A callback that starts no timer without a delay and leaves the clock alone. */
  predicate Quiet(actions: seq<Action>) {
    forall a :: a in actions ==> !a.UpdateTime? && (a.Begin? ==> a.timeout != 0)
  }

  /** One turn of the loop of uv__run_timers: a first due timer expires and its callback runs. */
  ghost predicate Turn(s: State, t: State, h: nat, actions: seq<Action>) {
    Due(s.timers, h, s.now) && IsFirst(s.timers, h, s.now) && AllKnown(s.timers, actions) && t == Acts(Expired(s, h), actions)
  }

  ghost predicate TurnAt(states: seq<State>, fired: seq<nat>, callbacks: nat -> seq<Action>, k: nat)
    requires k < |fired| && |states| == |fired| + 1
  {
    Turn(states[k], states[k + 1], fired[k], callbacks(k))
  }

  ghost predicate Turns(states: seq<State>, fired: seq<nat>, callbacks: nat -> seq<Action>) {
    |states| == |fired| + 1 && forall k {:trigger TurnAt(states, fired, callbacks, k)} :: 0 <= k < |fired| ==> TurnAt(states, fired, callbacks, k)
  }

  lemma MoreTurns(states: seq<State>, fired: seq<nat>, callbacks: nat -> seq<Action>, t: State, h: nat)
    requires Turns(states, fired, callbacks) && Turn(states[|fired|], t, h, callbacks(|fired|))
    ensures Turns(states + [t], fired + [h], callbacks)
  {
    forall k: nat | k < |fired| + 1 ensures TurnAt(states + [t], fired + [h], callbacks, k) {
      assert k < |fired| ==> TurnAt(states, fired, callbacks, k);
    }
  }

  ghost predicate SameTurn(was: Table, now: Table, h: nat) {
    h in was && h in now && now[h].timeout == was[h].timeout && now[h].startId == was[h].startId
  }

  lemma QuietActs(s: State, actions: seq<Action>)
    requires AllKnown(s.timers, actions) && Quiet(actions)
    ensures Acts(s, actions).now == s.now
    ensures forall h :: Due(Acts(s, actions).timers, h, s.now) ==> Due(s.timers, h, s.now) && SameTurn(s.timers, Acts(s, actions).timers, h)
  {
    if actions != [] {
      QuietActs(s, actions[..|actions| - 1]);
    }
  }

  lemma QuietTurn(s: State, t: State, h: nat, actions: seq<Action>)
    requires Turn(s, t, h, actions) && Quiet(actions)
    ensures t.now == s.now && DueSet(t.timers, t.now) < DueSet(s.timers, s.now)
    ensures forall n :: Due(t.timers, n, s.now) ==> n != h && Due(s.timers, n, s.now) && SameTurn(s.timers, t.timers, n)
  {
    QuietActs(Expired(s, h), actions);
    assert h in DueSet(s.timers, s.now) && h !in DueSet(t.timers, t.now);
    assert forall n :: n in DueSet(t.timers, t.now) ==> n in DueSet(s.timers, s.now);
  }

  /** The timer part of uv_loop_t. */
  class Loop {
    const heap: Heap
    var timers: Table
    var time: millis
    var counter: uint64

    ghost predicate Valid()
      reads this, heap
    {
      && heap.Valid(Lt(timers)) && heap.Elements() == ActiveSet(timers) && |timers| <= 0xFFFF_FFFF
      && forall h :: h in timers && timers[h].active ==> timers[h].cb && !timers[h].closing
    }

    constructor ()
      ensures Valid() && timers == map[] && counter == 0 && fresh(heap)
    {
      heap := new Heap(map[]);
      timers, time, counter := map[], 0, 0;
    }

    /** uv_timer_init */
    method Init(h: nat)
      requires Valid() && h !in timers && |timers| < 0xFFFF_FFFF
      modifies `timers
      ensures Valid() && timers == old(timers)[h := Timer(false, 0, 0, 0, false, false)]
    {
      NotInHeap(h);
      ghost var was := timers;
      timers := timers[h := Timer(false, 0, 0, 0, false, false)];
      SameOrder(heap.nodes, was, timers);
      LtIsWeakOrder(timers);
    }

    lemma NotInHeap(h: nat)
      requires Valid()
      ensures h !in ActiveSet(timers) <==> h !in heap.nodes
      ensures forall n :: n in heap.nodes ==> n in timers && timers[n].active
    {
      assert forall n :: n in heap.nodes <==> n in heap.Elements();
    }

    /** The heap counts its nodes in an unsigned int, and there is one for each active timer. */
    lemma RoomInHeap(h: nat)
      requires Valid() && h in timers && !timers[h].active
      ensures heap.nelts < 0xFFFF_FFFF
    {
      DistinctSize(heap.nodes);
      FewerActive(timers, h);
    }

    ghost function S(): State
      reads this
    {
      State(timers, counter, time)
    }

    /** uv_update_time */
    method UpdateTime(hrtime: uint64)
      requires Valid()
      modifies `time
      ensures Valid() && time == hrtime / NS_PER_MS
    {
      time := hrtime / NS_PER_MS;
    }

    /** uv_timer_set_repeat */
    method SetRepeat(h: nat, repeat: uint64)
      requires Valid() && h in timers
      modifies `timers
      ensures Valid() && timers == old(timers)[h := old(timers)[h].(repeat := repeat)]
    {
      ghost var was := timers;
      timers := timers[h := timers[h].(repeat := repeat)];
      SameOrder(heap.nodes, was, timers);
      LtIsWeakOrder(timers);
    }

    /** uv_close on a timer, which stops it for good. */
    method Close(h: nat)
      requires Valid() && h in timers
      modifies `timers, heap
      ensures Valid() && timers == old(timers)[h := old(timers)[h].(active := false, closing := true)]
    {
      Stop(h);
      NotInHeap(h);
      ghost var was := timers;
      timers := timers[h := timers[h].(closing := true)];
      SameOrder(heap.nodes, was, timers);
      LtIsWeakOrder(timers);
    }

    /** uv_timer_stop */
    method Stop(h: nat)
      requires Valid() && h in timers
      modifies `timers, heap
      ensures Valid() && timers == old(timers)[h := old(timers)[h].(active := false)]
      ensures heap.nelts == old(heap.nelts) - if old(timers)[h].active then 1 else 0
    {
      if !timers[h].active {
        return;
      }
      NotInHeap(h);
      assert heap.nodes != [];
      heap.Remove(h, Lt(timers));
      ghost var was := timers;
      timers := timers[h := timers[h].(active := false)];
      SameOrder(heap.nodes, was, timers);
      LtIsWeakOrder(timers);
    }

    /** uv_timer_start; None is UV_EINVAL. */
    method Start(h: nat, cb: bool, timeout: uint64, repeat: uint64) returns (ok: bool)
      requires Valid() && h in timers
      modifies `timers, `counter, heap
      ensures Valid() && ok == (!old(timers)[h].closing && cb)
      ensures ok ==> timers == old(timers)[h := Timer(true, Clamp(time, timeout), repeat, old(counter), true, false)]
      ensures ok ==> counter == (old(counter) + 1) % UINT64
      ensures !ok ==> timers == old(timers) && counter == old(counter)
    {
      if timers[h].closing || !cb {
        return false;
      }
      if timers[h].active {
        Stop(h);
      }
      NotInHeap(h);
      RoomInHeap(h);
      ghost var was := timers;
      timers := timers[h := Timer(true, Clamp(time, timeout), repeat, counter, true, false)];
      counter := (counter + 1) % UINT64;
      SameOrder(heap.nodes, was, timers);
      LtIsWeakOrder(timers);
      heap.Insert(h, Lt(timers));
      ok := true;
    }

    /** uv_timer_again */
    method Again(h: nat) returns (ok: bool)
      requires Valid() && h in timers
      modifies `timers, `counter, heap
      ensures Valid() && ok == old(timers)[h].cb
      ensures ok && old(timers)[h].repeat != 0 && !old(timers)[h].closing ==>
                && timers == old(timers)[h := Timer(true, Clamp(time, old(timers)[h].repeat), old(timers)[h].repeat, old(counter), true, false)]
                && counter == (old(counter) + 1) % UINT64
      ensures !ok || old(timers)[h].repeat == 0 || old(timers)[h].closing ==> timers == old(timers) && counter == old(counter)
    {
      if !timers[h].cb {
        return false;
      }
      if timers[h].repeat != 0 {
        Stop(h);
        var started := Start(h, timers[h].cb, timers[h].repeat, timers[h].repeat);
      }
      ok := true;
    }

    /** uv__next_timeout: how long the loop may block, at most INT_MAX. */
    method NextTimeout() returns (r: int)
      requires Valid()
      ensures r == -1 <==> ActiveSet(timers) == {}
      ensures r >= 0 ==> forall h :: h in ActiveSet(timers) ==> timers[h].timeout >= time + r || r == 0
      ensures r == 0 <==> DueSet(timers, time) != {}
      ensures 0 < r < INT_MAX ==> exists h :: h in ActiveSet(timers) && timers[h].timeout == time + r
      ensures -1 <= r <= INT_MAX
    {
      heap.MinIsLeast(Lt(timers));
      if heap.min == None {
        assert forall h :: h in DueSet(timers, time) ==> h in ActiveSet(timers);
        return -1;
      }
      var h := heap.min.value;
      assert h in ActiveSet(timers);
      assert forall n :: n in ActiveSet(timers) ==> !Lt(timers)(n, h);
      if timers[h].timeout <= time {
        assert h in DueSet(timers, time);
        return 0;
      }
      assert forall n :: n in DueSet(timers, time) ==> n in ActiveSet(timers);
      r := timers[h].timeout - time;
      if r > INT_MAX {
        r := INT_MAX;
      }
    }

    /** The least timer, if it is due. */
    method LeastDue() returns (next: Option<nat>)
      requires Valid()
      ensures next == None ==> DueSet(timers, time) == {}
      ensures next.Some? ==> Due(timers, next.value, time) && IsFirst(timers, next.value, time)
    {
      heap.MinIsLeast(Lt(timers));
      assert forall n :: n in DueSet(timers, time) ==> n in ActiveSet(timers);
      if heap.min == None {
        return None;
      }
      var h := heap.min.value;
      assert h in ActiveSet(timers);
      if timers[h].timeout > time {
        return None;
      }
      assert forall n :: Due(timers, n, time) ==> n in ActiveSet(timers) && !Lt(timers)(n, h);
      next := Some(h);
    }

    /** One turn of the loop of uv__run_timers. */
    method RunOne() returns (next: Option<nat>)
      requires Valid()
      modifies `timers, `counter, heap
      ensures Valid()
      ensures next == None ==> timers == old(timers) && counter == old(counter) && DueSet(timers, time) == {}
      ensures next.Some? ==> Due(old(timers), next.value, time) && IsFirst(old(timers), next.value, time)
      ensures next.Some? ==> S() == Expired(old(S()), next.value)
      ensures next.Some? && old(timers)[next.value].repeat == 0 ==> timers == old(timers)[next.value := old(timers)[next.value].(active := false)]
      ensures next.Some? && old(timers)[next.value].repeat != 0 ==>
                timers == old(timers)[next.value := old(timers)[next.value].(timeout := Clamp(time, old(timers)[next.value].repeat), startId := old(counter))]
    {
      next := LeastDue();
      if next.Some? {
        Stop(next.value);
        var again := Again(next.value);
      }
    }

    /** What a callback does, call by call. */
    method Perform(actions: seq<Action>)
      requires Valid() && AllKnown(timers, actions)
      modifies `timers, `counter, `time, heap
      ensures Valid() && S() == Acts(old(S()), actions)
    {
      ghost var was := S();
      var i := 0;
      while i < |actions|
        invariant i <= |actions| && Valid() && AllKnown(was.timers, actions[..i]) && S() == Acts(was, actions[..i])
      {
        assert actions[..i + 1][..i] == actions[..i];
        assert actions[i] in actions;
        PerformOne(actions[i]);
        i := i + 1;
      }
      assert actions[..i] == actions;
    }

    method PerformOne(a: Action)
      requires Valid() && Knows(timers, a)
      modifies `timers, `counter, `time, heap
      ensures Valid() && S() == Act(old(S()), a)
    {
      match a
      case Begin(h, cb, timeout, repeat) => var ok := Start(h, cb, timeout, repeat);
      case End(h) => Stop(h);
      case Renew(h) => var ok := Again(h);
      case SetRepeat(h, repeat) => SetRepeat(h, repeat);
      case Close(h) => Close(h);
      case UpdateTime(hrtime) => UpdateTime(hrtime);
    }

    /** uv__run_timers.  The k-th callback it runs does callbacks(k), which may be anything;
        for the loop to end, callbacks must at some point stop starting timers that are due
        at once and setting the clock. */
    method RunTimers(callbacks: nat -> seq<Action>, ghost n: nat) returns (fired: seq<nat>, ghost states: seq<State>)
      requires Valid() && forall k :: AllKnown(timers, callbacks(k))
      requires forall k: nat :: k >= n ==> Quiet(callbacks(k))
      modifies `timers, `counter, `time, heap
      ensures Valid() && DueSet(timers, time) == {}
      ensures Turns(states, fired, callbacks) && states[0] == old(S()) && states[|fired|] == S()
    {
      fired, states := [], [S()];
      while true
        invariant Valid() && timers.Keys == old(timers.Keys)
        invariant Turns(states, fired, callbacks) && states[0] == old(S()) && states[|fired|] == S()
        decreases if |fired| < n then n - |fired| else 0, DueSet(timers, time)
      {
        ghost var before := S();
        var next := RunOne();
        if next == None {
          break;
        }
        Perform(callbacks(|fired|));
        if |fired| >= n {
          QuietTurn(before, S(), next.value, callbacks(|fired|));
        }
        MoreTurns(states, fired, callbacks, S(), next.value);
        fired, states := fired + [next.value], states + [S()];
      }
    }
  }

  /** h precedes every due timer. */
  ghost predicate IsFirst(timers: Table, h: nat, now: uint64) {
    h in timers && forall n :: Due(timers, n, now) ==> Precedes(timers[h], timers[n])
  }
}
