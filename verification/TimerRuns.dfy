/** What uv__run_timers comes to (libuv src/timer.c): which timers fire in it and in which
    order, whatever their callbacks do to the timers. */
module TimerRuns {
  import opened Heap
  import opened Timers

  /** Some of the first n callbacks name the timer. */
  ghost predicate Touched(callbacks: nat -> seq<Action>, n: nat, h: nat) {
    exists k: nat, a :: k < n && a in callbacks(k) && !a.UpdateTime? && a.h == h
  }

  ghost predicate AllQuiet(callbacks: nat -> seq<Action>, n: nat) {
    forall k: nat :: k < n ==> Quiet(callbacks(k))
  }

  /** `fired` lists, in order, some of the timers due in `was`.  Those have expired and the
      others are as they were, apart from what callbacks did to them; a timer that is still
      due has its timeout and its number, and comes after the fired ones. */
  ghost predicate FiredOf(was: State, t: State, fired: seq<nat>) {
    && t.now == was.now && t.timers.Keys == was.timers.Keys && Distinct(fired)
    && (forall h :: h in fired ==> Due(was.timers, h, was.now))
    && (forall i, j :: 0 <= i < j < |fired| ==> fired[i] in was.timers && fired[j] in was.timers && Precedes(was.timers[fired[i]], was.timers[fired[j]]))
    && (forall h :: Due(t.timers, h, was.now) ==> StillDue(was, t, fired, h))
  }

  ghost predicate StillDue(was: State, t: State, fired: seq<nat>, h: nat) {
    && h !in fired && Due(was.timers, h, was.now) && SameTurn(was.timers, t.timers, h)
    && forall f :: f in fired ==> f in was.timers && Precedes(was.timers[f], was.timers[h])
  }

  /** What the loop leaves a timer as that no callback has named. */
  ghost predicate Left(was: State, t: State, fired: seq<nat>, h: nat)
    requires h in was.timers && h in t.timers
  {
    t.timers[h] == if h in fired then Fired(was.timers[h], was.now, t.timers[h].startId) else was.timers[h]
  }

  lemma {:induction false} ActsLeave(s: State, actions: seq<Action>, h: nat)
    requires AllKnown(s.timers, actions) && h in s.timers
    requires forall a :: a in actions ==> a.UpdateTime? || a.h != h
    ensures Acts(s, actions).timers[h] == s.timers[h]
  {
    if actions != [] {
      ActsLeave(s, actions[..|actions| - 1], h);
      assert actions[|actions| - 1] in actions;
    }
  }

  lemma OneMoreFired(was: State, s: State, t: State, fired: seq<nat>, h: nat, actions: seq<Action>)
    requires FiredOf(was, s, fired) && Turn(s, t, h, actions) && Quiet(actions)
    ensures FiredOf(was, t, fired + [h])
  {
    QuietTurn(s, t, h, actions);
    assert StillDue(was, s, fired, h);
    forall n | Due(t.timers, n, was.now) ensures StillDue(was, t, fired + [h], n) {
      assert StillDue(was, s, fired, n);
    }
  }

  /** When no callback starts a timer that is due at once or sets the clock, only timers due
      from the start fire, each at most once, in (timeout, start_id) order. */
  lemma {:induction false} FiredInOrder(states: seq<State>, fired: seq<nat>, callbacks: nat -> seq<Action>, i: nat)
    requires Turns(states, fired, callbacks) && i <= |fired| && AllQuiet(callbacks, i)
    ensures FiredOf(states[0], states[i], fired[..i])
  {
    if i > 0 {
      FiredInOrder(states, fired, callbacks, i - 1);
      assert TurnAt(states, fired, callbacks, i - 1);
      OneMoreFired(states[0], states[i - 1], states[i], fired[..i - 1], fired[i - 1], callbacks(i - 1));
      assert fired[..i] == fired[..i - 1] + [fired[i - 1]];
    }
  }

  /** A timer that no callback names is started again or inactive if it fired, and else as
      it was. */
  lemma {:induction false} Untouched(states: seq<State>, fired: seq<nat>, callbacks: nat -> seq<Action>, i: nat, h: nat)
    requires Turns(states, fired, callbacks) && i <= |fired| && AllQuiet(callbacks, i)
    requires h in states[0].timers && !Touched(callbacks, i, h)
    ensures h in states[i].timers && Left(states[0], states[i], fired[..i], h)
  {
    if i > 0 {
      Untouched(states, fired, callbacks, i - 1, h);
      assert TurnAt(states, fired, callbacks, i - 1);
      ActsLeave(Expired(states[i - 1], fired[i - 1]), callbacks(i - 1), h);
      FiredInOrder(states, fired, callbacks, i - 1);
      assert StillDue(states[0], states[i - 1], fired[..i - 1], fired[i - 1]);
      assert fired[..i] == fired[..i - 1] + [fired[i - 1]];
    }
  }

  /** Once the loop is done, every timer due at its start has fired unless a callback
      intervened. */
  lemma AllDueFire(states: seq<State>, fired: seq<nat>, callbacks: nat -> seq<Action>, h: nat)
    requires Turns(states, fired, callbacks) && AllQuiet(callbacks, |fired|)
    requires DueSet(states[|fired|].timers, states[|fired|].now) == {}
    ensures FiredOf(states[0], states[|fired|], fired)
    ensures h in states[0].timers && !Touched(callbacks, |fired|, h) ==>
              && h in states[|fired|].timers && Left(states[0], states[|fired|], fired, h)
              && (h in fired <==> Due(states[0].timers, h, states[0].now))
  {
    FiredInOrder(states, fired, callbacks, |fired|);
    assert fired[..|fired|] == fired;
    if h in states[0].timers && !Touched(callbacks, |fired|, h) {
      Untouched(states, fired, callbacks, |fired|, h);
      assert h !in DueSet(states[|fired|].timers, states[|fired|].now);
    }
  }

  ghost predicate Closed(timers: Table, h: nat) {
    h in timers && timers[h].closing && !timers[h].active
  }

  lemma {:induction false} ClosedStays(s: State, actions: seq<Action>, h: nat)
    requires AllKnown(s.timers, actions) && Closed(s.timers, h)
    ensures Closed(Acts(s, actions).timers, h)
  {
    if actions != [] {
      ClosedStays(s, actions[..|actions| - 1], h);
    }
  }

  /** A closed timer never fires, whatever the callbacks do. */
  lemma {:induction false} ClosedNeverFires(states: seq<State>, fired: seq<nat>, callbacks: nat -> seq<Action>, h: nat, i: nat, k: nat)
    requires Turns(states, fired, callbacks) && i <= k <= |fired| && Closed(states[i].timers, h)
    ensures Closed(states[k].timers, h) && h !in fired[i..k]
    decreases k
  {
    if i < k {
      ClosedNeverFires(states, fired, callbacks, h, i, k - 1);
      assert TurnAt(states, fired, callbacks, k - 1);
      ClosedStays(Expired(states[k - 1], fired[k - 1]), callbacks(k - 1), h);
      assert fired[i..k] == fired[i..k - 1] + [fired[k - 1]];
    }
  }

  /** A witness for callbacks with which the loop goes on: while each one starts some timer
      anew without a delay, something is due. */
  lemma RunsOn(states: seq<State>, fired: seq<nat>, callbacks: nat -> seq<Action>, h: nat, repeat: uint64, i: nat)
    requires Turns(states, fired, callbacks) && i <= |fired|
    requires Due(states[0].timers, h, states[0].now) && !states[0].timers[h].closing
    requires forall k: nat :: callbacks(k) == [Begin(h, true, 0, repeat)]
    ensures Due(states[i].timers, h, states[i].now) && !states[i].timers[h].closing
  {
    if i > 0 {
      RunsOn(states, fired, callbacks, h, repeat, i - 1);
      assert TurnAt(states, fired, callbacks, i - 1);
      var s := Expired(states[i - 1], fired[i - 1]);
      assert Acts(s, [Begin(h, true, 0, repeat)][..0]) == s;
      assert Acts(s, callbacks(i - 1)) == Act(s, Begin(h, true, 0, repeat));
    }
  }
}
