/** Timer messages delivered at most once each: what a pending timer waits for, and when it waits in vain. */
module AutoStopDelivery {
  import opened Text
  import opened AutoStop
  import opened AutoStopRuns

  /** A run of the object together with the timer messages still on their way, those whose handler
      ended in an error and those dropped as duplicates, each by the place of its timer among the
      armed ones. */
  datatype Mail = Mail(world: World, flight: set<nat>, failed: set<nat>, dropped: set<nat>)

  /** An invocation that completes, by a caller or by the message of an armed timer. A message
      whose handler ends in an error is used up and stores nothing. A timer it arms is sent under
      a key of its Runtime and generation, and may be dropped as a duplicate. */
  datatype Invocation = Called(event: Event, duplicate: bool) | Delivers(event: Event, message: nat, duplicate: bool)

  predicate SentBefore(armings: seq<Arming>, timer: Timer) {
    exists j :: 0 <= j < |armings| && armings[j].timer.runtime == timer.runtime && armings[j].timer.generation == timer.generation
  }

  /** A message is dropped only if its key has been used before. */
  predicate Possible(m: Mail, i: Invocation) {
    && (i.duplicate ==>
          var n := Step(m.world, i.event).armings;
          |n| > |m.world.armings| && SentBefore(m.world.armings, n[|m.world.armings|].timer))
    && match i
       case Called(e, _) => !e.Expired?
       case Delivers(e, k, _) => e.Expired? && k in m.flight && k < |m.world.armings| && e.timer == m.world.armings[k].timer
  }

  function MailStep(m: Mail, i: Invocation): Mail {
    var n := Step(m.world, i.event);
    var sent := if |n.armings| > |m.world.armings| then {|m.world.armings|} else {};
    Mail(n,
         (if i.Delivers? then m.flight - {i.message} else m.flight) + (if i.duplicate then {} else sent),
         if i.Delivers? && Handle(m.world.state, i.event).Err? then m.failed + {i.message} else m.failed,
         if i.duplicate then m.dropped + sent else m.dropped)
  }

  function MailRun(m: Mail, run: seq<Invocation>): Mail {
    if run == [] then m
    else MailStep(MailRun(m, run[..|run| - 1]), run[|run| - 1])
  }

  /** Invocations on one clock, each possible when it comes. */
  predicate AllPossible(m: Mail, run: seq<Invocation>) {
    run == [] ||
    (var before := MailRun(m, run[..|run| - 1]);
     && AllPossible(m, run[..|run| - 1])
     && Possible(before, run[|run| - 1]) && OnClock(before.world.clock, run[|run| - 1].event))
  }

  function Last(m: Mail): int {
    |m.world.armings| - 1
  }

  /** A pending timer is the one armed last, and its message is on its way, has failed or was dropped. */
  ghost predicate Accounted(m: Mail) {
    && m.flight !! m.failed !! m.dropped
    && (forall k :: k in m.flight || k in m.failed || k in m.dropped ==> k < |m.world.armings|)
    && (m.world.state.timerPending ==>
          && Last(m) >= 0 && Current(m.world.state, m.world.armings[Last(m)].timer)
          && (Last(m) in m.flight || Last(m) in m.failed || Last(m) in m.dropped))
  }

  /** Every dropped message repeats an earlier timer's generation. */
  ghost predicate DroppedRepeat(m: Mail) {
    forall k :: k in m.dropped ==> k < |m.world.armings| && SentBefore(m.world.armings[..k], m.world.armings[k].timer)
  }

  /** The failed messages are just those whose delivery ended in an error. */
  lemma {:induction false} FailedExactly(m: Mail, run: seq<Invocation>, k: nat)
    requires m.failed == {}
    ensures k in MailRun(m, run).failed <==>
              exists j :: 0 <= j < |run| && run[j].Delivers? && run[j].message == k
                && Handle(MailRun(m, run[..j]).world.state, run[j].event).Err?
    decreases |run|
  {
    hide Handle, Step;
    if run != [] {
      var n := |run| - 1;
      var before := run[..n];
      FailedExactly(m, before, k);
      assert forall j :: 0 <= j < n ==> before[j] == run[j] && before[..j] == run[..j];
      if k in MailRun(m, before).failed {
        var j :| 0 <= j < n && before[j].Delivers? && before[j].message == k
                 && Handle(MailRun(m, before[..j]).world.state, before[j].event).Err?;
        assert run[j].Delivers? && before[..j] == run[..j];
      }
    }
  }

  // One invocation

  lemma ObserveArmsCurrent(s: State, o: Observation)
    requires Observe(s, o).Ok? && Observe(s, o).value.timer.Some?
    ensures Current(Observe(s, o).value.state, Observe(s, o).value.timer.value)
  {
    hide EvaluateFor, RestorePolicy;
  }

  lemma ObserveKeepsTimer(s: State, o: Observation, timer: Timer)
    requires Observe(s, o).Ok? && Observe(s, o).value.timer.None? && Observe(s, o).value.state.timerPending
    ensures s.timerPending && !CoordinationChanged(s, o)
    ensures Current(s, timer) ==> Current(Observe(s, o).value.state, timer)
  {
    hide EvaluateFor, RestorePolicy;
  }

  lemma ExpireEndsTimer(s: State, t: Timer, o: Observation, timer: Timer)
    requires Expire(s, t, o).Ok? && Expire(s, t, o).value.timer.None? && Expire(s, t, o).value.state.timerPending
    ensures !Current(s, t) && Expire(s, t, o).value.state == s
  {
    hide EvaluateFor, Observe;
    if Current(s, t) && CoordinationChanged(s, o) {
      ObserveKeepsTimer(s, o, timer);
    }
  }

  lemma ExpireArmsCurrent(s: State, t: Timer, o: Observation)
    requires Expire(s, t, o).Ok? && Expire(s, t, o).value.timer.Some?
    ensures Current(Expire(s, t, o).value.state, Expire(s, t, o).value.timer.value)
    ensures Expire(s, t, o).value.stop.None?
  {
    hide EvaluateFor, Observe;
    ObserveArmsCurrent(s, o);
    ObserveNeverStops(s, o);
  }

  /** A timer that is still pending after a message that armed none is the same timer. */
  lemma SameTimerStays(s: State, e: Event, timer: Timer)
    requires Handle(s, e).Ok? && Handle(s, e).value.timer.None? && Handle(s, e).value.state.timerPending
    ensures Current(s, timer) ==> Current(Handle(s, e).value.state, timer)
    ensures !(e.Expired? && Current(s, e.timer))
    ensures s.timerPending
  {
    hide AutoStop.Observe, AutoStop.Expire;
    match e
    case Suppressed(_, _) =>
    case Resumed(_, _) =>
    case Observed(_, _) => ObserveKeepsTimer(s, Stamped(e), timer);
    case Refreshed(_, gone, _) =>
      if s.runtime != "" && !gone {
        ObserveKeepsTimer(s, Stamped(e), timer);
      }
    case Expired(t, _, _, gone, _, dispatch) =>
      if Current(s, t) && !gone {
        ExpireEndsTimer(s, t, Stamped(e), timer);
        assert false;
      }
  }

  lemma ArmedIsCurrent(s: State, e: Event)
    requires Handle(s, e).Ok? && Handle(s, e).value.timer.Some?
    ensures Current(Handle(s, e).value.state, Handle(s, e).value.timer.value)
  {
    hide AutoStop.Observe, AutoStop.Expire;
    match e
    case Suppressed(_, _) =>
      assert false;
    case Resumed(_, _) =>
      assert false;
    case Observed(_, _) => ObserveArmsCurrent(s, Stamped(e));
    case Refreshed(_, _, _) => ObserveArmsCurrent(s, Stamped(e));
    case Expired(t, _, _, _, _, _) => ExpireArmsCurrent(s, t, Stamped(e));
  }

  lemma StepIsAccounted(m: Mail, i: Invocation)
    requires Accounted(m) && Possible(m, i)
    ensures Accounted(MailStep(m, i))
  {
    hide Handle, Current;
    var s, e := m.world.state, i.event;
    if Handle(s, e).Ok? {
      var t := Handle(s, e).value;
      if t.timer.Some? {
        ArmedIsCurrent(s, e);
      } else if t.state.timerPending {
        var timer := if Last(m) >= 0 then m.world.armings[Last(m)].timer else Timer("", 0, 0);
        SameTimerStays(s, e, timer);
      }
    }
  }

  lemma ArmingsGrow(w: World, e: Event)
    ensures w.armings <= Step(w, e).armings && |Step(w, e).armings| <= |w.armings| + 1
  {
    hide Handle;
  }

  lemma DroppedStillRepeat(m: Mail, i: Invocation)
    requires DroppedRepeat(m) && Possible(m, i)
    ensures DroppedRepeat(MailStep(m, i))
  {
    hide Step, SentBefore;
    ArmingsGrow(m.world, i.event);
    var before, after := m.world.armings, MailStep(m, i).world.armings;
    forall k | k in MailStep(m, i).dropped
      ensures k < |after| && SentBefore(after[..k], after[k].timer)
    {
      if k < |before| {
        assert after[..k] == before[..k];
      } else {
        assert after[..k] == before;
      }
    }
  }

  // Runs

  function Empty(environment: string, clock: Time): Mail {
    Mail(Initial(environment, clock), {}, {}, {})
  }

  lemma {:induction false} RunsAreAccounted(environment: string, clock: Time, run: seq<Invocation>)
    requires 0 < clock && AllPossible(Empty(environment, clock), run)
    ensures Accounted(MailRun(Empty(environment, clock), run)) && DroppedRepeat(MailRun(Empty(environment, clock), run))
    ensures Invariant(environment, MailRun(Empty(environment, clock), run).world)
    ensures 0 < MailRun(Empty(environment, clock), run).world.clock
  {
    hide Accounted, DroppedRepeat, Possible, Invariant, Step, Handle;
    if run != [] {
      var before := MailRun(Empty(environment, clock), run[..|run| - 1]);
      RunsAreAccounted(environment, clock, run[..|run| - 1]);
      StepIsAccounted(before, run[|run| - 1]);
      DroppedStillRepeat(before, run[|run| - 1]);
      StepKeepsInvariant(environment, before.world, run[|run| - 1].event);
    } else {
      StartIsAccounted(environment, clock);
    }
  }

  lemma StartIsAccounted(environment: string, clock: Time)
    ensures Accounted(Empty(environment, clock)) && DroppedRepeat(Empty(environment, clock)) && Invariant(environment, Initial(environment, clock))
  {
    InitialIsInvariant(environment, clock);
  }

  /** Over every run a pending timer still has its message on the way exactly when no delivery of
      that message has ended in an error and it was not dropped; below the counter's top none is. */
  lemma PendingTimerIsAwaitedExactlyUnlessFailed(environment: string, clock: Time, run: seq<Invocation>)
    requires 0 < clock && AllPossible(Empty(environment, clock), run)
    ensures var m := MailRun(Empty(environment, clock), run);
            && (m.world.state.timerPending ==>
                  && Last(m) >= 0 && Current(m.world.state, m.world.armings[Last(m)].timer)
                  && (Last(m) in m.flight <==> Last(m) !in m.failed && Last(m) !in m.dropped))
            && (m.world.ticks < GENERATIONS ==> m.dropped == {})
  {
    hide Invariant, MailRun, AllPossible, DroppedRepeat;
    RunsAreAccounted(environment, clock, run);
    var m := MailRun(Empty(environment, clock), run);
    if m.world.ticks < GENERATIONS {
      NothingIsDropped(environment, m);
    }
  }

  lemma NothingIsDropped(environment: string, m: Mail)
    requires Invariant(environment, m.world) && DroppedRepeat(m) && m.world.ticks < GENERATIONS
    ensures m.dropped == {}
  {
    hide Justified, Quiescent, GraceRemembered, StopsInOrder, CancelledIsOver, ArmingsAreDense;
    var armings := m.world.armings;
    assert ArmingsInOrder(m.world.ticks, m.world.state.timerPending, armings);
    forall k | 0 <= k < |armings|
      ensures !SentBefore(armings[..k], armings[k].timer)
    {
      assert forall j :: 0 <= j < k ==> armings[..k][j] == armings[j];
      assert forall j :: 0 <= j < |armings| ==> armings[j].timer.generation == armings[j].tick;
    }
  }

  // Waiting in vain

  /** The pending timer's message has failed or was dropped. */
  predicate Stuck(m: Mail) {
    m.world.state.timerPending && Last(m) !in m.flight
  }

  /** The message finds the Runtime idle still, under the same policy. */
  predicate StillQualifies(s: State, o: Observation) {
    !CoordinationChanged(s, o) && EvaluateFor(s, o).Ok? && EvaluateFor(s, o).value.qualifies
  }

  /** The messages that leave a timer pending which none of them belongs to. */
  predicate LeavesTimer(s: State, e: Event) {
    Handle(s, e).Err? ||
    match e
    case Observed(_, _) => StillQualifies(s, Stamped(e))
    case Refreshed(_, gone, _) => !gone && StillQualifies(s, Stamped(e))
    case Expired(_, _, _, _, _, _) => true
    case Suppressed(_, _) => false
    case Resumed(_, _) => true
  }

  /** Below the counter's top no other timer can be taken for the pending one. */
  lemma OnlyTheLastIsCurrent(environment: string, w: World, k: nat)
    requires Invariant(environment, w) && w.state.timerPending && w.ticks < GENERATIONS && k < |w.armings| - 1
    ensures !Current(w.state, w.armings[k].timer)
  {
    hide Justified, Quiescent, GraceRemembered, StopsInOrder, CancelledIsOver, ArmingsAreDense;
    assert w.armings[k].tick < w.armings[|w.armings| - 1].tick == w.ticks;
  }

  lemma LeavingMeansPending(s: State, e: Event, clock: Time)
    requires s.timerPending && Quiescent(s) && GraceRemembered(s, clock)
    requires e.Expired? ==> !Current(s, e.timer)
    ensures LeavesTimer(s, e) <==>
              Handle(s, e).Err? || (Handle(s, e).value.timer.None? && Handle(s, e).value.state.timerPending)
    ensures LeavesTimer(s, e) && Handle(s, e).Ok? ==>
              Handle(s, e).value.stop.None? && Handle(s, e).value.state.timerGeneration == s.timerGeneration
  {
  }

  /** Below the counter's top an invocation leaves the stuck timer stuck exactly when it is such a
      message, and then arms and stops nothing: as long as the Runtime stays idle under its
      policy, it is never stopped. */
  lemma StuckExactlyWhileIdle(environment: string, m: Mail, i: Invocation)
    requires Invariant(environment, m.world) && Accounted(m) && Stuck(m) && Possible(m, i)
    requires m.world.ticks < GENERATIONS
    ensures Stuck(MailStep(m, i)) && Last(MailStep(m, i)) == Last(m) <==> LeavesTimer(m.world.state, i.event)
    ensures LeavesTimer(m.world.state, i.event) ==>
              var n := MailStep(m, i).world;
              n.armings == m.world.armings && n.stops == m.world.stops && n.ticks == m.world.ticks
  {
    hide Handle, LeavesTimer, Current, Quiescent, GraceRemembered, TicksInOrder, Justified;
    if i.Delivers? {
      OnlyTheLastIsCurrent(environment, m.world, i.message);
    }
    LeavingMeansPending(m.world.state, i.event, m.world.clock);
  }

  predicate AllLeaveTimer(m: Mail, run: seq<Invocation>) {
    forall k :: 0 <= k < |run| ==> LeavesTimer(MailRun(m, run[..k]).world.state, run[k].event)
  }

  /** Over every continuation of a run: while all invocations leave the stuck timer, no timer is
      armed and nothing is stopped. */
  lemma {:induction false} StuckRuntimeIsNeverStopped(environment: string, m: Mail, run: seq<Invocation>)
    requires Invariant(environment, m.world) && Accounted(m) && Stuck(m) && m.world.ticks < GENERATIONS
    requires AllPossible(m, run) && AllLeaveTimer(m, run)
    ensures var n := MailRun(m, run);
            && Invariant(environment, n.world) && Accounted(n) && Stuck(n)
            && n.world.armings == m.world.armings && n.world.stops == m.world.stops && n.world.ticks == m.world.ticks
  {
    hide Invariant, Accounted, Stuck, Possible, LeavesTimer, Step, MailStep;
    if run != [] {
      var before := run[..|run| - 1];
      assert forall k :: 0 <= k < |before| ==> before[k] == run[k] && before[..k] == run[..k];
      StuckRuntimeIsNeverStopped(environment, m, before);
      var n := MailRun(m, before);
      StuckExactlyWhileIdle(environment, n, run[|run| - 1]);
      StepIsAccounted(n, run[|run| - 1]);
      StepKeepsInvariant(environment, n.world, run[|run| - 1].event);
      MailStepIsStep(n, run[|run| - 1]);
    }
  }

  lemma MailStepIsStep(m: Mail, i: Invocation)
    ensures MailStep(m, i).world == Step(m.world, i.event)
  {
  }

  // An input that shows it

  function IdleAt(k: nat): Observation {
    Observation("runtime", Policy("policy", "environment", WhenFullyIdle, 60), 1, 1, k,
                Some(Activity("runtime", k, k, 0, 0, 0, 0, 0, 0, 0)), [])
  }

  /** When the grace period is over. */
  const EXPIRY: nat := 1 + 60 * SECOND

  /** A Runtime is idle, its timer expires and the dispatch of its stop fails for good; from then
      on every snapshot finds it idle. */
  function IdleForever(n: nat): seq<Invocation> {
    if n == 0 then
      [Called(Observed(1, IdleAt(1)), false), Delivers(Expired(Timer("runtime", 1, 60 * SECOND), EXPIRY, EXPIRY, false, IdleAt(EXPIRY), Dispatch.Failed), 0, false)]
    else IdleForever(n - 1) + [Called(Observed(EXPIRY + n, IdleAt(EXPIRY + n)), false)]
  }

  ghost predicate IdleInVain(m: Mail, n: nat) {
    var s, w := m.world.state, m.world;
    && m.flight == {} && m.failed == {0} && m.dropped == {} && w.stops == [] && |w.armings| == 1 && w.clock == EXPIRY + n
    && s.timerPending && s.timerGeneration == 1 && s.environment == "environment" && s.runtime == "runtime" && s.suppressed == ""
    && s.policyId == "policy" && s.mode == WhenFullyIdle && s.graceSeconds == 60 && s.policyGeneration == 1
    && s.lastSequence <= EXPIRY + n
  }

  lemma OneMore(m: Mail, run: seq<Invocation>, i: Invocation)
    ensures MailRun(m, run + [i]) == MailStep(MailRun(m, run), i)
    ensures AllPossible(m, run + [i]) <==>
              AllPossible(m, run) && Possible(MailRun(m, run), i) && OnClock(MailRun(m, run).world.clock, i.event)
  {
    hide MailStep, Possible, OnClock;
    assert (run + [i])[..|run + [i]| - 1] == run;
  }

  /** However long the Runtime stays idle, its timer stays pending, no message is on the way, and
      it is not stopped. */
  lemma {:induction false} FailedDispatchStrandsTheTimer(n: nat)
    ensures AllPossible(Empty("environment", 1), IdleForever(n))
    ensures IdleInVain(MailRun(Empty("environment", 1), IdleForever(n)), n)
  {
    hide MailStep, MailRun, AllPossible, OnClock, IdleInVain, Possible, IdleAt, Empty;
    if n == 0 {
      FailedAtFirst();
    } else {
      FailedDispatchStrandsTheTimer(n - 1);
      OneMore(Empty("environment", 1), IdleForever(n - 1), Called(Observed(EXPIRY + n, IdleAt(EXPIRY + n)), false));
      OneMoreIdle(MailRun(Empty("environment", 1), IdleForever(n - 1)), n);
    }
  }

  lemma OneMoreIdle(m: Mail, n: nat)
    requires n > 0 && IdleInVain(m, n - 1)
    ensures var i := Called(Observed(EXPIRY + n, IdleAt(EXPIRY + n)), false);
            Possible(m, i) && OnClock(m.world.clock, i.event) && IdleInVain(MailStep(m, i), n)
  {
  }

  lemma FailedAtFirst()
    ensures AllPossible(Empty("environment", 1), IdleForever(0))
    ensures IdleInVain(MailRun(Empty("environment", 1), IdleForever(0)), 0)
  {
    var start, run := Empty("environment", 1), IdleForever(0);
    FirstIdleArms();
    DispatchFails(MailStep(start, run[0]));
    hide MailStep, IdleInVain, Possible, IdleAt, ArmedOnce;
    assert [] + [run[0]] == [run[0]] && [run[0]] + [run[1]] == run;
    OneMore(start, [], run[0]);
    OneMore(start, [run[0]], run[1]);
  }

  ghost predicate ArmedOnce(m: Mail) {
    var s, w := m.world.state, m.world;
    && m.flight == {0} && m.failed == {} && m.dropped == {} && w.stops == [] && w.clock == 1
    && |w.armings| == 1 && w.armings[0].timer == Timer("runtime", 1, 60 * SECOND)
    && s.timerPending && s.timerGeneration == 1 && s.environment == "environment" && s.runtime == "runtime" && s.suppressed == ""
    && s.policyId == "policy" && s.mode == WhenFullyIdle && s.graceSeconds == 60 && s.policyGeneration == 1
    && s.lastSequence == 1 && s.graceStart.Some? && s.graceStartedAt == 1
  }

  lemma FirstIdleArms()
    ensures ArmedOnce(MailStep(Empty("environment", 1), IdleForever(0)[0]))
    ensures Possible(Empty("environment", 1), IdleForever(0)[0])
  {
  }

  lemma DispatchFails(m: Mail)
    requires ArmedOnce(m)
    ensures var i := IdleForever(0)[1];
            Possible(m, i) && OnClock(m.world.clock, i.event) && IdleInVain(MailStep(m, i), 0)
  {
    hide StopFor;
  }
}
