/** What cancelling a timer achieves, and the order of execution, over all runs. */
module TimerRuns {
  import opened Timers

  // ---------------------------------------------------------------------
  // Runs in pieces
  // ---------------------------------------------------------------------

  lemma {:induction false} RunAppends(s: State, a: seq<Event>, b: seq<Event>)
    requires Allowed(s, a) && Allowed(Run(s, a), b)
    ensures Allowed(s, a + b) && Run(s, a + b) == Run(Run(s, a), b)
    decreases a
  {
    hide Step, Enabled;
    if a == [] {
      assert a + b == b;
    } else {
      assert (a + b)[0] == a[0] && (a + b)[1..] == a[1..] + b;
      RunAppends(Step(s, a[0]), a[1..], b);
    }
  }

  /** Entries are never removed and keep their timer; the log only grows. */
  ghost predicate Continues(s: State, t: State) {
    && |s.entries| <= |t.entries| && |s.log| <= |t.log| && t.log[..|s.log|] == s.log
    && forall id :: 0 <= id < |s.entries| ==> t.entries[id].owner == s.entries[id].owner
  }

  lemma StepContinues(s: State, e: Event)
    requires Enabled(s, e)
    ensures Continues(s, Step(s, e))
  {
    hide Insert, Flat, Due;
  }

  lemma ContinuesTwice(s: State, t: State, u: State)
    requires Continues(s, t) && Continues(t, u)
    ensures Continues(s, u)
  {
    assert u.log[..|s.log|] == u.log[..|t.log|][..|s.log|];
  }

  lemma {:induction false} RunContinues(s: State, es: seq<Event>)
    requires Allowed(s, es)
    ensures Continues(s, Run(s, es))
    decreases es
  {
    hide Step, Enabled;
    if es == [] {
      assert s.log[..|s.log|] == s.log;
    } else {
      StepContinues(s, es[0]);
      RunContinues(Step(s, es[0]), es[1..]);
      ContinuesTwice(s, Step(s, es[0]), Run(s, es));
    }
  }

  // ---------------------------------------------------------------------
  // Order of execution
  // ---------------------------------------------------------------------

  predicate WithoutTicks(es: seq<Event>) {
    forall i :: 0 <= i < |es| ==> !es[i].Take?
  }

  /** What one step adds to the log: the first callback or nothing. */
  lemma StepLogs(s: State, e: Event)
    requires Valid(s) && Enabled(s, e) && !e.Take?
    ensures var t := Step(s, e);
            && t.now == s.now && Valid(t) && SameTimes(s.entries, t.entries)
            && (t.log == s.log || (s.callbacks != [] && t.log == s.log + [Fired(s.callbacks[0], s.now)]
                                   && t.callbacks == s.callbacks[1..]))
            && (t.callbacks == s.callbacks || (s.callbacks != [] && t.callbacks == s.callbacks[1..]))
  {
    hide Valid, Insert, Flat, Due;
    StepKeeps(s, e);
  }

  ghost predicate LoggedInOrder(s: State, u: State) {
    && (forall i :: |s.log| <= i < |u.log| ==> u.log[i].id in s.callbacks && u.log[i].at == s.now)
    && forall i, j :: |s.log| <= i < j < |u.log| ==> Earlier(u.entries, u.log[i].id, u.log[j].id)
  }

  /** Between two ticks, whatever else happens, only entries that the tick took out
      are executed, in the order of their fire times and then of insertion. */
  lemma {:induction false} TickOrder(s: State, es: seq<Event>)
    requires Valid(s) && Allowed(s, es) && WithoutTicks(es)
    ensures LoggedInOrder(s, Run(s, es)) && SameTimes(s.entries, Run(s, es).entries)
    decreases es
  {
    hide Valid, Step, Enabled;
    if es != [] {
      assert !es[0].Take? && WithoutTicks(es[1..]);
      var next, u := Step(s, es[0]), Run(s, es);
      StepLogs(s, es[0]);
      TickOrder(next, es[1..]);
      RunContinues(next, es[1..]);
      TickOrderStep(s, next, u);
    }
  }

  lemma TickOrderStep(s: State, next: State, u: State)
    requires Valid(s) && LoggedInOrder(next, u) && Continues(next, u) && next.now == s.now
    requires SameTimes(s.entries, next.entries) && SameTimes(next.entries, u.entries)
    requires next.log == s.log || (s.callbacks != [] && next.log == s.log + [Fired(s.callbacks[0], s.now)]
                                   && next.callbacks == s.callbacks[1..])
    requires next.callbacks == s.callbacks || (s.callbacks != [] && next.callbacks == s.callbacks[1..])
    ensures LoggedInOrder(s, u)
  {
    hide Filed, LogIsRight, Flat;
    var n := |s.log|;
    if next.log != s.log {
      assert u.log[n] == u.log[..|next.log|][n] == Fired(s.callbacks[0], s.now);
      forall j | n < j < |u.log| ensures Earlier(u.entries, u.log[n].id, u.log[j].id) {
        var k :| 0 <= k < |next.callbacks| && next.callbacks[k] == u.log[j].id;
        assert s.callbacks[k + 1] == u.log[j].id;
        assert Earlier(s.entries, s.callbacks[0], s.callbacks[k + 1]);
      }
    }
  }

  // ---------------------------------------------------------------------
  // Cancelling
  // ---------------------------------------------------------------------

  predicate WithoutDelay(es: seq<Event>, timer: nat) {
    forall i :: 0 <= i < |es| ==> !(es[i].Delay? && es[i].timer == timer)
  }

  /** Since `s` no entry of the timer was executed. */
  ghost predicate Quiet(s: State, u: State, timer: nat) {
    forall i :: |s.log| <= i < |u.log| ==> u.log[i].id < |u.entries| && u.entries[u.log[i].id].owner != timer
  }

  /** No entry of the timer can be executed any more: the active ones are in the map
      of a disabled loop. */
  ghost predicate Dormant(s: State, timer: nat) {
    forall id :: 0 <= id < |s.entries| && s.entries[id].owner == timer && s.entries[id].active ==>
      !s.enabled && id !in s.callbacks
  }

  lemma StepStaysDormant(s: State, e: Event, timer: nat)
    requires Valid(s) && Enabled(s, e) && Dormant(s, timer) && !(e.Delay? && e.timer == timer)
    ensures Dormant(Step(s, e), timer) && Quiet(s, Step(s, e), timer)
  {
    hide Filed, LogIsRight, Flat, Insert, Due;
    var t := Step(s, e);
    forall id | 0 <= id < |t.entries| && t.entries[id].owner == timer && t.entries[id].active
      ensures !t.enabled && id !in t.callbacks
    {
      assert id < |s.entries| && s.entries[id].active;
    }
    if e.RunNext? {
      assert s.callbacks[0] in s.callbacks;
    }
  }

  lemma {:induction false} DormantStaysQuiet(s: State, es: seq<Event>, timer: nat)
    requires Valid(s) && Allowed(s, es) && Dormant(s, timer) && WithoutDelay(es, timer)
    ensures Quiet(s, Run(s, es), timer)
    decreases es
  {
    hide Valid, Step, Enabled, Dormant;
    if es != [] {
      var next, u := Step(s, es[0]), Run(s, es);
      StepKeeps(s, es[0]);
      StepStaysDormant(s, es[0], timer);
      assert WithoutDelay(es[1..], timer);
      DormantStaysQuiet(next, es[1..], timer);
      StepContinues(s, es[0]);
      RunContinues(next, es[1..]);
      forall i | |s.log| <= i < |u.log| ensures u.log[i].id < |u.entries| && u.entries[u.log[i].id].owner != timer {
        if i < |next.log| {
          assert u.log[i] == u.log[..|next.log|][i] == next.log[i];
        }
      }
    }
  }

  lemma {:induction false} ExecutedHas(entries: seq<Entry>, ids: seq<nat>, now: int, id: nat)
    requires forall i :: 0 <= i < |ids| ==> ids[i] < |entries|
    requires id in ids && id < |entries| && entries[id].active
    ensures Fired(id, now) in Executed(entries, ids, now)
  {
    if ids[0] != id {
      ExecutedHas(entries, ids[1..], now, id);
    }
  }

  lemma RepeatHasNoDelay(n: nat, timer: nat)
    ensures WithoutDelay(Repeat(n), timer)
  {
    if n > 0 {
      RepeatHasNoDelay(n - 1, timer);
    }
  }

  /** An active entry among the callbacks is executed when the callback loop goes on. */
  lemma RunsFromCallbacks(s: State, id: nat) returns (es: seq<Event>)
    requires Valid(s) && id in s.callbacks && id < |s.entries| && s.entries[id].active
    ensures Allowed(s, es) && es == Repeat(|s.callbacks|)
    ensures exists i :: |s.log| <= i < |Run(s, es).log| && Run(s, es).log[i].id == id
  {
    hide Valid, Step, Enabled, Run, Allowed;
    es := Repeat(|s.callbacks|);
    DrainMeans(s);
    ExecutedHas(s.entries, s.callbacks, s.now, id);
    var x := Executed(s.entries, s.callbacks, s.now);
    var k :| 0 <= k < |x| && x[k] == Fired(id, s.now);
    assert Run(s, es).log[|s.log| + k].id == id;
  }

  /** An active entry in the map of an enabled loop is executed by a later tick. */
  lemma RunsFromWheel(s: State, id: nat) returns (es: seq<Event>)
    requires Valid(s) && s.enabled && id < |s.entries| && s.entries[id].active && id !in s.callbacks
    ensures Allowed(s, es) && forall timer :: WithoutDelay(es, timer)
    ensures exists i :: |s.log| <= i < |Run(s, es).log| && Run(s, es).log[i].id == id
  {
    hide Filed, LogIsRight, Flat, Insert, Due, Ordered, Run, Allowed;
    var first := Repeat(|s.callbacks|);
    DrainMeans(s);
    var t := Run(s, first);
    var time := s.entries[id].fireTime;
    var tick := Take(time);
    TakeMeans(t, time);
    var u := Step(t, tick);
    StepKeeps(t, tick);
    assert id in u.callbacks;
    var last := RunsFromCallbacks(u, id);
    OneEvent(t, tick);
    RunAppends(t, [tick], last);
    RunAppends(s, first, [tick] + last);
    es := first + ([tick] + last);
    forall timer ensures WithoutDelay(es, timer) {
      RepeatHasNoDelay(|s.callbacks|, timer);
      RepeatHasNoDelay(|u.callbacks|, timer);
    }
    RunContinues(s, first);
    var i :| |u.log| <= i < |Run(u, last).log| && Run(u, last).log[i].id == id;
    assert |s.log| <= i < |Run(s, es).log| && Run(s, es).log[i].id == id;
  }

  lemma OneEvent(s: State, e: Event)
    requires Enabled(s, e)
    ensures Allowed(s, [e]) && Run(s, [e]) == Step(s, e)
  {
    assert [e][1..] == [];
  }

  lemma {:induction false} RestlessRuns(s: State, timer: nat) returns (es: seq<Event>)
    requires Valid(s) && !Dormant(s, timer)
    ensures Allowed(s, es) && WithoutDelay(es, timer) && !Quiet(s, Run(s, es), timer)
  {
    hide Valid, Run, Allowed;
    var id :| 0 <= id < |s.entries| && s.entries[id].owner == timer && s.entries[id].active
              && !(!s.enabled && id !in s.callbacks);
    if id in s.callbacks {
      es := RunsFromCallbacks(s, id);
      RepeatHasNoDelay(|s.callbacks|, timer);
    } else {
      es := RunsFromWheel(s, id);
    }
    RunContinues(s, es);
  }

  /** After a cancel, nothing of the timer is executed any more, as long as it is not
      delayed again, exactly when no earlier entry of it could still be executed. */
  lemma CancelMeans(s: State, timer: nat)
    requires Valid(s)
    ensures Enabled(s, Cancel(timer))
    ensures var t := Step(s, Cancel(timer));
            (forall es :: Allowed(t, es) && WithoutDelay(es, timer) ==> Quiet(t, Run(t, es), timer)) <==>
            (forall id :: 0 <= id < |s.entries| && s.entries[id].owner == timer && s.entries[id].active
                          && !(timer in s.latest && id == s.latest[timer]) ==>
               !s.enabled && id !in s.callbacks)
  {
    CancelKeeps(s, timer);
    var t := Step(s, Cancel(timer));
    CancelIsDormant(s, timer);
    hide Valid, Step, Run, Allowed, Quiet, WithoutDelay, Dormant;
    if Dormant(t, timer) {
      forall es | Allowed(t, es) && WithoutDelay(es, timer) ensures Quiet(t, Run(t, es), timer) {
        DormantStaysQuiet(t, es, timer);
      }
    } else {
      var es := RestlessRuns(t, timer);
    }
  }

  lemma CancelIsDormant(s: State, timer: nat)
    requires Valid(s)
    ensures Enabled(s, Cancel(timer))
    ensures Dormant(Step(s, Cancel(timer)), timer) <==>
            forall id :: 0 <= id < |s.entries| && s.entries[id].owner == timer && s.entries[id].active
                         && !(timer in s.latest && id == s.latest[timer]) ==>
              !s.enabled && id !in s.callbacks
  {
    hide Filed, LogIsRight, Flat, Ordered;
    var t := Step(s, Cancel(timer));
    assert forall id :: 0 <= id < |s.entries| && !(timer in s.latest && id == s.latest[timer]) ==>
             t.entries[id] == s.entries[id];
  }

  // ---------------------------------------------------------------------
  // A rule for callers
  // ---------------------------------------------------------------------

  /** The timer is delayed only when its last entry was executed or cancelled. */
  ghost predicate DelayedInTurn(s: State, es: seq<Event>, timer: nat)
    requires Allowed(s, es)
    decreases es
  {
    es == [] ||
    (&& (es[0].Delay? && es[0].timer == timer && timer in s.latest && s.latest[timer] < |s.entries| ==>
           !s.entries[s.latest[timer]].active)
     && DelayedInTurn(Step(s, es[0]), es[1..], timer))
  }

  ghost predicate OnlyLatest(s: State, timer: nat) {
    forall id :: 0 <= id < |s.entries| && s.entries[id].owner == timer && s.entries[id].active ==>
      timer in s.latest && id == s.latest[timer]
  }

  lemma StepKeepsOnlyLatest(s: State, e: Event, timer: nat)
    requires Valid(s) && Enabled(s, e) && OnlyLatest(s, timer)
    requires e.Delay? && e.timer == timer && timer in s.latest ==> !s.entries[s.latest[timer]].active
    ensures OnlyLatest(Step(s, e), timer)
  {
    hide Filed, LogIsRight, Flat, Insert, Due, Ordered;
    var t := Step(s, e);
    forall id | 0 <= id < |t.entries| && t.entries[id].owner == timer && t.entries[id].active
      ensures timer in t.latest && id == t.latest[timer]
    {
      if id < |s.entries| {
        assert s.entries[id].active;
      }
    }
  }

  lemma {:induction false} RunKeepsOnlyLatest(s: State, es: seq<Event>, timer: nat)
    requires Valid(s) && Allowed(s, es) && OnlyLatest(s, timer) && DelayedInTurn(s, es, timer)
    ensures OnlyLatest(Run(s, es), timer)
    decreases es
  {
    hide Step, Enabled, OnlyLatest, Filed, LogIsRight, Flat, Ordered;
    if es != [] {
      StepKeeps(s, es[0]);
      StepKeepsOnlyLatest(s, es[0], timer);
      RunKeepsOnlyLatest(Step(s, es[0]), es[1..], timer);
    }
  }

  /** A timer that was only delayed in turn is stopped by a cancel, whatever follows
      until it is delayed again. */
  lemma CancelStops(es: seq<Event>, timer: nat, later: seq<Event>)
    requires Allowed(INITIAL, es) && DelayedInTurn(INITIAL, es, timer)
    ensures Enabled(Run(INITIAL, es), Cancel(timer))
    ensures var t := Step(Run(INITIAL, es), Cancel(timer));
            Allowed(t, later) && WithoutDelay(later, timer) ==> Quiet(t, Run(t, later), timer)
  {
    hide Valid, Run, Allowed, Step, Enabled, DelayedInTurn, Quiet, WithoutDelay;
    InitialIsValid();
    NoneAtFirst(timer);
    RunKeeps(INITIAL, es);
    RunKeepsOnlyLatest(INITIAL, es, timer);
    CancelMeans(Run(INITIAL, es), timer);
  }

  lemma NoneAtFirst(timer: nat)
    ensures OnlyLatest(INITIAL, timer)
  {
  }

  // ---------------------------------------------------------------------
  // Disabling
  // ---------------------------------------------------------------------

  /** What is executed from a state on was already among the callbacks there. */
  ghost predicate OnlyCallbacks(s: State, t: State) {
    && !t.enabled && |s.log| <= |t.log|
    && (forall i :: 0 <= i < |t.callbacks| ==> t.callbacks[i] in s.callbacks)
    && (forall i :: |s.log| <= i < |t.log| ==> t.log[i].id in s.callbacks)
  }

  lemma DisabledStep(s: State, t: State, e: Event)
    requires OnlyCallbacks(s, t) && Enabled(t, e)
    ensures OnlyCallbacks(s, Step(t, e))
  {
    hide Insert, Flat, Due;
  }

  lemma {:induction false} DisabledRun(s: State, t: State, es: seq<Event>)
    requires OnlyCallbacks(s, t) && Allowed(t, es)
    ensures OnlyCallbacks(s, Run(t, es))
    decreases es
  {
    hide Step, Enabled, OnlyCallbacks;
    if es != [] {
      DisabledStep(s, t, es[0]);
      DisabledRun(s, Step(t, es[0]), es[1..]);
    }
  }

  /** Once the loop is disabled, in every run only those entries still execute that a
      tick had taken out before. */
  lemma DisableStops(s: State, es: seq<Event>)
    requires Allowed(s, [Disable] + es)
    ensures var t := Run(s, [Disable] + es);
            && !t.enabled && |s.log| <= |t.log|
            && forall i :: |s.log| <= i < |t.log| ==> t.log[i].id in s.callbacks
  {
    assert ([Disable] + es)[1..] == es;
    DisabledRun(s, Step(s, Disable), es);
  }
}
