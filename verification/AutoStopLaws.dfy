/** When the Auto-stop coordinator arms a timer, keeps it, stops a Runtime or fails, told from the
    policy, the counters and the times of the messages themselves. */
module AutoStopLaws {
  import opened Text
  import opened AutoStop
  import opened AutoStopRuns

  // What a message shows

  /** The policy is complete, belongs to this Environment and allows at most a day of grace. */
  predicate Governs(p: Policy, environment: string) {
    && environment != "" && p.environment == environment && p.id != "" && 0 <= p.graceSeconds <= 86400
    && (p.mode == WhenDisconnected || p.mode == WhenAgentsFinish || p.mode == WhenFullyIdle || p.mode == Manual)
  }

  /** A snapshot that names its Runtime, has a sequence and a time, and counts nothing below zero. */
  predicate Complete(a: Activity) {
    && a.runtime != "" && a.sequence > 0 && a.observedAt != 0
    && 0 <= a.ssh && 0 <= a.ide && 0 <= a.codex && 0 <= a.claude
    && 0 <= a.protected && 0 <= a.containers && 0 <= a.unknown
  }

  /** Nothing is left that the mode waits for; no other mode ever stops a Runtime. */
  predicate Quiet(mode: Mode, a: Activity) {
    && (mode == WhenDisconnected || mode == WhenAgentsFinish || mode == WhenFullyIdle)
    && (mode == WhenDisconnected || mode == WhenFullyIdle ==> a.ssh == 0 && a.ide == 0)
    && (mode == WhenAgentsFinish || mode == WhenFullyIdle ==> a.codex == 0 && a.claude == 0)
    && (mode == WhenFullyIdle ==> a.protected == 0 && a.containers == 0 && a.unknown == 0)
  }

  /** The observation is of the Runtime and the policy the state already coordinates. */
  predicate SameCoordination(s: State, o: Observation) {
    && s.runtime == o.runtime && s.policyId == o.policy.id && s.mode == o.policy.mode
    && s.graceSeconds == o.policy.graceSeconds && s.policyGeneration == o.policyGeneration
  }

  /** What was last seen counts only within one coordination. */
  function LastSeen(s: State, o: Observation): nat {
    if SameCoordination(s, o) then s.lastSequence else 0
  }

  /** The Runtime is suppressed: a suppression lasts from one policy to the next, but not from one
      Runtime to another. */
  predicate IsSuppressed(s: State, o: Observation) {
    s.runtime == o.runtime == s.suppressed
  }

  predicate Admissible(s: State, o: Observation) {
    Governs(o.policy, s.environment) && o.runtime != "" && o.policyGeneration > 0
  }

  /** A new, fresh and quiet snapshot of this Runtime, with nothing else going on. */
  predicate Qualifies(s: State, o: Observation) {
    && o.freshAfter != 0 && o.snapshot.Some? && o.conflicts == []
    && var a := o.snapshot.value;
    && Complete(a) && a.runtime == o.runtime && a.sequence > LastSeen(s, o) && a.observedAt >= o.freshAfter
    && Quiet(o.policy.mode, a)
  }

  // One observation

  /** What the coordinator's evaluation comes to; base is the state it evaluates from. */
  lemma EvaluatesExactly(s: State, base: State, o: Observation)
    requires base.environment == s.environment && base.lastSequence == LastSeen(s, o)
    ensures EvaluateFor(base, o).Ok? && EvaluateFor(base, o).value.qualifies <==> Admissible(s, o) && Qualifies(s, o)
    ensures RestorePolicy(s.environment, o).Ok? <==> Admissible(s, o)
    ensures EvaluateFor(base, o).Ok? && EvaluateFor(base, o).value.qualifies ==>
              EvaluateFor(base, o).value.sequence == o.snapshot.value.sequence
  {
  }

  /** A timer is armed exactly on an admissible, qualifying observation of a Runtime that is not
      suppressed, when none is pending and no stop has been dispatched in the same coordination. It
      runs for the grace period, under the next generation of the counter. */
  lemma ArmsExactly(s: State, o: Observation)
    requires o.processedAt != 0
    ensures Observe(s, o).Ok? && Observe(s, o).value.timer.Some? <==>
              && Admissible(s, o) && Qualifies(s, o) && !IsSuppressed(s, o)
              && (SameCoordination(s, o) ==> !s.timerPending && (s.dispatched == 0 || s.dispatched != s.timerGeneration))
    ensures Observe(s, o).Ok? && Observe(s, o).value.timer.Some? ==>
              var disowned := if s.timerPending then 1 else 0;
              var generation := (s.timerGeneration + disowned + 1) % 0x1_0000_0000_0000_0000;
              var n := Observe(s, o).value.state;
              && Observe(s, o).value.timer == Some(Timer(o.runtime, generation, o.policy.graceSeconds * 1_000_000_000))
              && n.timerPending && n.timerGeneration == generation
              && n.graceStart == o.snapshot && n.graceStartedAt == o.processedAt
              && SameCoordination(n, o) && n.lastSequence == o.snapshot.value.sequence
              && n.environment == s.environment
  {
    EvaluatesExactly(s, if SameCoordination(s, o) then s else Adopt(s, o), o);
    if Admissible(s, o) && Qualifies(s, o) {
      assert o.snapshot.Some? && o.snapshot.value.sequence > LastSeen(s, o) && o.runtime != "";
    }
    hide EvaluateFor, RestorePolicy, Qualifies, Admissible;
  }

  /** An observation fails, and so stores nothing, exactly when it is inadmissible, or when an
      automatic policy meets no freshness threshold, an incomplete snapshot, or next to a new and
      fresh snapshot a conflict it does not know. */
  lemma FailsExactly(s: State, o: Observation)
    requires o.processedAt != 0
    ensures Observe(s, o).Err? <==>
              || !Admissible(s, o)
              || (&& !IsSuppressed(s, o) && o.policy.mode != Manual
                  && (|| o.freshAfter == 0
                      || (&& o.snapshot.Some?
                          && var a := o.snapshot.value;
                          || !Complete(a)
                          || (&& a.runtime == o.runtime && a.sequence > LastSeen(s, o)
                              && a.observedAt >= o.freshAfter && UnknownConflict in o.conflicts))))
  {
  }

  /** A pending timer survives exactly the qualifying observations of its own coordination while
      its Runtime is not suppressed; losing it is what is reported as cancelled, and moves the
      generation past it. */
  lemma KeepsTheTimerExactly(s: State, o: Observation)
    requires o.processedAt != 0 && Observe(s, o).Ok? && s.timerPending
    ensures var t := Observe(s, o).value;
            var kept := SameCoordination(s, o) && !IsSuppressed(s, o) && Qualifies(s, o);
            && (t.state.timerPending && t.timer.None? <==> kept)
            && (kept ==> t.state == s.(lastSequence := o.snapshot.value.sequence) && !t.cancelled)
            && (!kept ==> t.cancelled && t.state.timerGeneration != s.timerGeneration)
  {
    EvaluatesExactly(s, if SameCoordination(s, o) then s else Adopt(s, o), o);
    if Admissible(s, o) && Qualifies(s, o) {
      assert o.snapshot.Some? && o.snapshot.value.sequence > LastSeen(s, o);
    }
    hide EvaluateFor, RestorePolicy, Qualifies, Admissible;
  }

  /** The sequence remembered next: a snapshot's own, if it is higher, whatever else became of it; nothing
      is learned under a manual policy. */
  function Seen(previous: nat, o: Observation): nat {
    if o.policy.mode == Manual || o.snapshot.None? || o.snapshot.value.sequence <= previous then previous
    else o.snapshot.value.sequence
  }

  /** All that an accepted observation leaves behind. A change of coordination reopens the cycle and forgets
      the grace period; a change of Runtime also lifts the suppression. */
  lemma ObserveLeaves(s: State, o: Observation)
    requires o.processedAt != 0 && Observe(s, o).Ok?
    ensures var t := Observe(s, o).value;
            var n := t.state;
            var same := SameCoordination(s, o);
            var kept := s.timerPending && same && !IsSuppressed(s, o) && Qualifies(s, o);
            && n.environment == s.environment && SameCoordination(n, o)
            && n.suppressed == (if s.runtime == o.runtime then s.suppressed else "")
            && n.dispatched == (if same then s.dispatched else 0)
            && n.lastSequence == (if IsSuppressed(s, o) then LastSeen(s, o) else Seen(LastSeen(s, o), o))
            && (n.timerPending <==> kept || t.timer.Some?)
            && (t.cancelled <==> s.timerPending && !kept)
            && (t.timer.None? ==>
                  if t.cancelled || !same then n.graceStart.None? && n.graceStartedAt == 0
                  else n.graceStart == s.graceStart && n.graceStartedAt == s.graceStartedAt)
  {
    var base := if SameCoordination(s, o) then s else Adopt(s, o);
    EvaluatesExactly(s, base, o);
    SeenExactly(base, o);
    ArmsExactly(s, o);
    ObserveNeverStops(s, o);
    if Admissible(s, o) && Qualifies(s, o) {
      assert o.snapshot.Some? && o.snapshot.value.sequence > LastSeen(s, o) && o.runtime != "";
    }
    hide EvaluateFor, RestorePolicy, Qualifies, Admissible, Next;
  }

  /** The generation moves once past a timer that is disowned and once to arm one. */
  lemma GenerationMoves(s: State, o: Observation)
    requires o.processedAt != 0 && Observe(s, o).Ok? && s.timerGeneration < 0x1_0000_0000_0000_0000
    ensures var t := Observe(s, o).value;
            t.state.timerGeneration ==
              (s.timerGeneration + (if t.cancelled then 1 else 0) + (if t.timer.Some? then 1 else 0)) % 0x1_0000_0000_0000_0000
  {
    hide EvaluateFor, RestorePolicy;
  }

  lemma SeenExactly(s: State, o: Observation)
    ensures EvaluateFor(s, o).Ok? ==>
              var d := EvaluateFor(s, o).value.sequence;
              (if d > s.lastSequence then d else s.lastSequence) == Seen(s.lastSequence, o)
  {
  }

  // One expiry

  /** A stop is requested exactly when the pending timer itself is delivered for the Runtime and
      policy still coordinated, the grace period began with a snapshot, and once more a new, fresh
      and quiet snapshot qualifies. The request names both. */
  lemma StopsExactly(s: State, t: Timer, o: Observation)
    ensures Expire(s, t, o).Ok? && Expire(s, t, o).value.stop.Some? <==>
              && s.timerPending && t.runtime == s.runtime && t.generation == s.timerGeneration
              && SameCoordination(s, o) && Admissible(s, o) && Qualifies(s, o)
              && s.graceStart.Some? && s.graceStartedAt != 0
    ensures Expire(s, t, o).Ok? && Expire(s, t, o).value.stop.Some? ==>
              var r := Expire(s, t, o).value.stop.value;
              var n := Expire(s, t, o).value.state;
              && r.environment == s.environment && r.runtime == s.runtime
              && r.key == "system:runtime.stop:auto_stop:" + s.environment + ":" + s.runtime + ":" + FormatNat(t.generation)
              && r.evidence.policy == o.policy && r.evidence.policyGeneration == o.policyGeneration
              && r.evidence.snapshots == [s.graceStart.value, o.snapshot.value]
              && r.evidence.startedAt == s.graceStartedAt && r.evidence.expiredAt == o.snapshot.value.observedAt
              && r.evidence.graceSeconds == o.policy.graceSeconds
              && n == s.(timerPending := false, lastSequence := o.snapshot.value.sequence, dispatched := t.generation)
  {
    if SameCoordination(s, o) {
      EvaluatesExactly(s, s, o);
      if Admissible(s, o) && Qualifies(s, o) {
        assert o.snapshot.Some? && o.snapshot.value.sequence > LastSeen(s, o);
      }
      hide EvaluateFor, RestorePolicy, Qualifies, Admissible, Observe;
    } else if Current(s, t) {
      ObserveNeverStops(s, o);
      hide Observe, EvaluateFor;
    }
  }

  /** A timer that is not the pending one changes nothing; the pending one is over after any
      delivery that succeeds, whatever was observed. */
  lemma ExpiryEndsTheTimer(s: State, t: Timer, o: Observation)
    requires Expire(s, t, o).Ok? && o.processedAt != 0
    ensures var n := Expire(s, t, o).value;
            if s.timerPending && t.runtime == s.runtime && t.generation == s.timerGeneration
            then (n.state.timerPending ==> n.timer.Some? && n.state.timerGeneration != t.generation)
                 && if SameCoordination(s, o) then
                      && n.timer.None? && !n.cancelled
                      && n.state == if n.stop.Some?
                           then s.(timerPending := false, lastSequence := Seen(s.lastSequence, o), dispatched := t.generation)
                           else s.(timerPending := false, lastSequence := Seen(s.lastSequence, o), graceStart := None, graceStartedAt := 0)
                    else n.cancelled && Observe(s, o).Ok? && n == Observe(s, o).value.(cancelled := true)
            else n == Transition(s, None, None, false)
  {
    if s.timerPending && t.runtime == s.runtime && t.generation == s.timerGeneration && !SameCoordination(s, o) {
      ArmsExactly(s, o);
      KeepsTheTimerExactly(s, o);
    } else {
      SeenExactly(s, o);
    }
    hide EvaluateFor, Qualifies;
  }

  // Suppressing, resuming, abandoning

  /** Suppressing a Runtime disowns the pending timer, whatever Runtime it is for, and names this
      Runtime in the one slot; nothing else changes. */
  lemma SuppressDisownsTheTimer(s: State, runtime: string)
    ensures Suppress(s, runtime).Ok? <==> s.environment != "" && runtime != ""
    ensures Suppress(s, runtime).Ok? ==>
              var n := Suppress(s, runtime).value;
              && n.timer.None? && n.stop.None? && (n.cancelled <==> s.timerPending)
              && n.state.suppressed == runtime && !n.state.timerPending
              && n.state.graceStart.None? && n.state.graceStartedAt == 0
              && (s.timerPending ==> n.state.timerGeneration != s.timerGeneration)
              && n.state.(suppressed := s.suppressed, timerPending := s.timerPending, timerGeneration := s.timerGeneration,
                          graceStart := s.graceStart, graceStartedAt := s.graceStartedAt) == s
              && (!s.timerPending ==> n.state.timerGeneration == s.timerGeneration)
  {
  }

  /** Resuming clears the slot and reopens the cycle exactly for the suppressed Runtime. */
  lemma ResumeClearsItsOwnSlot(s: State, runtime: string)
    ensures Resume(s, runtime).Ok? <==> s.environment != "" && runtime != ""
    ensures Resume(s, runtime).Ok? ==>
              var n := Resume(s, runtime).value;
              && n.timer.None? && n.stop.None? && !n.cancelled
              && n.state == if s.suppressed == runtime then s.(suppressed := "", dispatched := 0) else s
  {
  }

  /** An abandoned object forgets everything but its Environment and its generation. */
  lemma AbandonForgets(s: State)
    ensures var n := Abandon(s);
            && n.timer.None? && n.stop.None? && (n.cancelled <==> s.timerPending)
            && (n.state.timerGeneration == s.timerGeneration <==> !s.timerPending)
            && n.state == State(s.environment, "", "", Unset, 0, 0, n.state.timerGeneration, false, 0, 0, "", 0, None)
  {
  }

  // The handlers

  /** What each kind of message counts as fresh: what it says itself, the last five minutes for a
      refresh, and nothing older than the handler's own start for an expiry. */
  function Since(e: Event): Time
    requires !e.Suppressed? && !e.Resumed?
  {
    match e
    case Observed(_, o) => o.freshAfter
    case Refreshed(at, _, _) => at - 300_000_000_000
    case Expired(_, freshAt, _, _, _, _) => freshAt
  }

  function AsOf(e: Event): Observation
    requires !e.Suppressed? && !e.Resumed?
  {
    e.observation.(freshAfter := Since(e), processedAt := e.at)
  }

  /** Over whole messages: an observation and a refresh of a Runtime that is still there may arm a
      timer; an expiry may arm one only for another coordination; nothing else does. */
  lemma MessagesArmExactly(s: State, e: Event)
    requires e.at != 0
    ensures Handle(s, e).Ok? && Handle(s, e).value.timer.Some? <==>
              && !e.Suppressed? && !e.Resumed?
              && (e.Refreshed? ==> s.runtime != "" && !e.gone)
              && (e.Expired? ==>
                    && !e.gone && s.timerPending && e.timer.runtime == s.runtime && e.timer.generation == s.timerGeneration
                    && !SameCoordination(s, e.observation))
              && var o := AsOf(e);
              && Admissible(s, o) && Qualifies(s, o) && !IsSuppressed(s, o)
              && (SameCoordination(s, o) ==> !s.timerPending && (s.dispatched == 0 || s.dispatched != s.timerGeneration))
  {
    if !e.Suppressed? && !e.Resumed? {
      assert Stamped(e) == AsOf(e);
      ArmsExactly(s, AsOf(e));
      StopsExactly(s, if e.Expired? then e.timer else Timer("", 0, 0), AsOf(e));
      hide Observe, Qualifies, Admissible;
    }
  }

  /** Only the delivery of the pending timer to a Runtime that is still there stops it, and only when
      the dispatch goes through; a refused one closes the period and reopens the cycle, a failed one
      stores nothing. */
  lemma MessagesStopExactly(s: State, e: Event)
    requires e.at != 0
    ensures var due :=
              && e.Expired? && !e.gone
              && s.timerPending && e.timer.runtime == s.runtime && e.timer.generation == s.timerGeneration
              && var o := AsOf(e);
              && SameCoordination(s, o) && Admissible(s, o) && Qualifies(s, o)
              && s.graceStart.Some? && s.graceStartedAt != 0;
            && (Handle(s, e).Ok? && Handle(s, e).value.stop.Some? <==> due && e.dispatch.Delivered?)
            && (due && e.dispatch.Failed? ==> Handle(s, e).Err?)
            && (due && e.dispatch.Refused? ==>
                  && Handle(s, e).Ok? && Handle(s, e).value.cancelled && Handle(s, e).value.timer.None?
                  && Handle(s, e).value.state ==
                     s.(timerPending := false, lastSequence := e.observation.snapshot.value.sequence, dispatched := 0,
                        graceStartedAt := 0, graceStart := None))
            && (due && e.dispatch.Delivered? ==> Handle(s, e) == Expire(s, e.timer, AsOf(e)))
  {
    if e.Expired? {
      assert Stamped(e) == AsOf(e);
      StopsExactly(s, e.timer, AsOf(e));
      hide Expire, Qualifies, Admissible;
    } else if e.Observed? || e.Refreshed? {
      ObserveNeverStops(s, Stamped(e));
      hide Observe;
    }
  }

  // Whole runs

  /** The message shows this Runtime, under this policy, in this snapshot: fresh, with nothing running
      that the policy waits for and nothing else going on. */
  predicate ShowsQuiet(e: Event, runtime: string, policy: Policy, generation: nat, a: Activity) {
    && !e.Suppressed? && !e.Resumed?
    && e.observation.runtime == runtime && e.observation.policy == policy
    && e.observation.policyGeneration == generation && e.observation.snapshot == Some(a)
    && e.observation.conflicts == [] && a.observedAt >= Since(e)
    && Governs(policy, policy.environment) && Complete(a) && a.runtime == runtime && Quiet(policy.mode, a)
  }

  /** The pending timer's grace period began with such a message. */
  ghost predicate BeganWith(s: State, events: seq<Event>) {
    s.timerPending ==>
      && s.graceStart.Some?
      && exists j :: 0 <= j < |events|
           && ShowsQuiet(events[j], s.runtime, Policy(s.policyId, s.environment, s.mode, s.graceSeconds),
                         s.policyGeneration, s.graceStart.value)
           && events[j].at == s.graceStartedAt
  }

  /** A first message opens the grace period; a later one, the timer's own delivery, ends it. */
  ghost predicate FromTwoMessages(r: StopRequest, events: seq<Event>) {
    && |r.evidence.snapshots| == 2
    && exists j, k :: 0 <= j < k < |events|
         && ShowsQuiet(events[j], r.runtime, r.evidence.policy, r.evidence.policyGeneration, r.evidence.snapshots[0])
         && events[j].at == r.evidence.startedAt
         && events[k].Expired? && !events[k].gone && events[k].dispatch.Delivered? && events[k].timer.runtime == r.runtime
         && ShowsQuiet(events[k], r.runtime, r.evidence.policy, r.evidence.policyGeneration, r.evidence.snapshots[1])
  }

  lemma BeganStays(s: State, n: State, events: seq<Event>, e: Event)
    requires BeganWith(s, events)
    requires n.timerPending ==>
               && s.timerPending && n.runtime == s.runtime && n.policyId == s.policyId && n.environment == s.environment
               && n.mode == s.mode && n.graceSeconds == s.graceSeconds && n.policyGeneration == s.policyGeneration
               && n.graceStart == s.graceStart && n.graceStartedAt == s.graceStartedAt
    ensures BeganWith(n, events + [e])
  {
    hide ShowsQuiet;
    if n.timerPending {
      var policy := Policy(s.policyId, s.environment, s.mode, s.graceSeconds);
      var j :| 0 <= j < |events| && ShowsQuiet(events[j], s.runtime, policy, s.policyGeneration, s.graceStart.value)
               && events[j].at == s.graceStartedAt;
      assert (events + [e])[j] == events[j];
    }
  }

  /** What becomes of the pending timer in one message: it is newly armed by it, or stays as it was. */
  lemma ArmedNowOrBefore(s: State, e: Event)
    requires e.at != 0 && Handle(s, e).Ok?
    ensures var t := Handle(s, e).value; var n := t.state;
            n.timerPending ==>
              if t.timer.Some? then
                && !e.Suppressed? && !e.Resumed?
                && Admissible(s, AsOf(e)) && Qualifies(s, AsOf(e)) && SameCoordination(n, e.observation)
                && n.environment == s.environment && n.graceStart == e.observation.snapshot && n.graceStartedAt == e.at
              else
                && s.timerPending && n.runtime == s.runtime && n.policyId == s.policyId && n.environment == s.environment
                && n.mode == s.mode && n.graceSeconds == s.graceSeconds && n.policyGeneration == s.policyGeneration
                && n.graceStart == s.graceStart && n.graceStartedAt == s.graceStartedAt
  {
    MessagesArmExactly(s, e);
    if !e.Suppressed? && !e.Resumed? {
      var o := AsOf(e);
      assert Stamped(e) == o;
      ArmsExactly(s, o);
      if Observe(s, o).Ok? && s.timerPending {
        KeepsTheTimerExactly(s, o);
      }
      if e.Expired? && Expire(s, e.timer, o).Ok? {
        ExpiryEndsTheTimer(s, e.timer, o);
      }
      hide EvaluateFor, Qualifies, Admissible, IsSuppressed;
    }
  }

  lemma {:induction false} StopsBeganAndEnded(environment: string, clock: Time, events: seq<Event>)
    requires 0 < clock && Clocked(clock, events)
    ensures var w := Run(Initial(environment, clock), events);
            && BeganWith(w.state, events)
            && forall i :: 0 <= i < |w.stops| ==> FromTwoMessages(w.stops[i].request, events)
  {
    hide BeganWith, FromTwoMessages, Handle;
    if events == [] {
      NothingBegan(environment, clock);
    } else {
      var before, e := events[..|events| - 1], events[|events| - 1];
      StopsBeganAndEnded(environment, clock, before);
      RunsKeepInvariant(environment, clock, before);
      hide Run, Invariant;
      OneMessageMore(Run(Initial(environment, clock), before), before, e);
      assert before + [e] == events;
    }
  }

  lemma NothingBegan(environment: string, clock: Time)
    ensures BeganWith(Initial(environment, clock).state, [])
  {
  }

  lemma {:induction false} OneMessageMore(w: World, events: seq<Event>, e: Event)
    requires e.at != 0 && BeganWith(w.state, events)
    requires forall i :: 0 <= i < |w.stops| ==> FromTwoMessages(w.stops[i].request, events)
    ensures var n := Step(w, e);
            && BeganWith(n.state, events + [e])
            && forall i :: 0 <= i < |n.stops| ==> FromTwoMessages(n.stops[i].request, events + [e])
  {
    hide BeganWith, FromTwoMessages, Handle;
    forall i | 0 <= i < |w.stops|
      ensures FromTwoMessages(w.stops[i].request, events + [e])
    {
      TwoMessagesStay(w.stops[i].request, events, e);
    }
    if Handle(w.state, e).Ok? {
      var t := Handle(w.state, e).value;
      NextBegan(w.state, events, e);
      if t.stop.Some? {
        StopEnds(w.state, events, e);
      }
    } else {
      BeganStays(w.state, w.state, events, e);
    }
  }

  lemma TwoMessagesStay(r: StopRequest, events: seq<Event>, e: Event)
    requires FromTwoMessages(r, events)
    ensures FromTwoMessages(r, events + [e])
  {
    hide ShowsQuiet;
    var longer := events + [e];
    assert forall j :: 0 <= j < |events| ==> longer[j] == events[j];
    var j, k :| 0 <= j < k < |events|
         && ShowsQuiet(events[j], r.runtime, r.evidence.policy, r.evidence.policyGeneration, r.evidence.snapshots[0])
         && events[j].at == r.evidence.startedAt
         && events[k].Expired? && !events[k].gone && events[k].dispatch.Delivered? && events[k].timer.runtime == r.runtime
         && ShowsQuiet(events[k], r.runtime, r.evidence.policy, r.evidence.policyGeneration, r.evidence.snapshots[1]);
    assert longer[j] == events[j] && longer[k] == events[k];
  }

  lemma NextBegan(s: State, events: seq<Event>, e: Event)
    requires e.at != 0 && BeganWith(s, events) && Handle(s, e).Ok?
    ensures BeganWith(Handle(s, e).value.state, events + [e])
  {
    hide Handle, BeganWith, Quiet, Complete;
    ArmedNowOrBefore(s, e);
    var t := Handle(s, e).value;
    if t.state.timerPending && t.timer.Some? {
      var n := t.state;
      assert ShowsQuiet(e, n.runtime, Policy(n.policyId, n.environment, n.mode, n.graceSeconds), n.policyGeneration,
                        n.graceStart.value);
      JustBegan(n, events, e);
    } else {
      BeganStays(s, t.state, events, e);
    }
  }

  lemma JustBegan(n: State, events: seq<Event>, e: Event)
    requires n.graceStart.Some? && e.at == n.graceStartedAt
    requires ShowsQuiet(e, n.runtime, Policy(n.policyId, n.environment, n.mode, n.graceSeconds), n.policyGeneration,
                        n.graceStart.value)
    ensures BeganWith(n, events + [e])
  {
    hide ShowsQuiet;
    assert (events + [e])[|events|] == e;
  }

  lemma StopEnds(s: State, events: seq<Event>, e: Event)
    requires e.at != 0 && BeganWith(s, events) && Handle(s, e).Ok? && Handle(s, e).value.stop.Some?
    ensures FromTwoMessages(Handle(s, e).value.stop.value, events + [e])
  {
    MessagesStopExactly(s, e);
    StopsExactly(s, e.timer, AsOf(e));
    hide Handle, Expire, Quiet, Complete, Governs;
    var longer := events + [e];
    var r := Handle(s, e).value.stop.value;
    assert r.evidence.policy == Policy(s.policyId, s.environment, s.mode, s.graceSeconds);
    assert ShowsQuiet(e, r.runtime, r.evidence.policy, r.evidence.policyGeneration, r.evidence.snapshots[1]);
    hide ShowsQuiet;
    var j :| 0 <= j < |events|
             && ShowsQuiet(events[j], s.runtime, r.evidence.policy, s.policyGeneration, s.graceStart.value)
             && events[j].at == s.graceStartedAt;
    assert longer[j] == events[j] && longer[|events|] == e;
  }

  /** Over every run: a Runtime is stopped only under one of the three automatic modes, on two fresh
      snapshots that two messages brought while nothing else was going on, the second being the
      delivery of the timer; and in both nothing ran that the mode waits for. */
  lemma {:induction false} StopsNeedTwoQuietMessages(environment: string, clock: Time, events: seq<Event>)
    requires 0 < clock && Clocked(clock, events)
    ensures forall stop <- Run(Initial(environment, clock), events).stops ::
              var r := stop.request;
              && r.environment == environment == r.evidence.policy.environment
              && FromTwoMessages(r, events)
              && r.evidence.snapshots[0].sequence < r.evidence.snapshots[1].sequence
              && r.evidence.expiredAt == r.evidence.snapshots[1].observedAt >= r.evidence.startedAt
              && r.evidence.graceSeconds == r.evidence.policy.graceSeconds && 0 <= r.evidence.graceSeconds <= 86400
              && r.evidence.policyGeneration != 0 && r.evidence.startedAt != 0
              && r.key == "system:runtime.stop:auto_stop:" + environment + ":" + r.runtime + ":"
                          + FormatNat(stop.tick % 0x1_0000_0000_0000_0000)
              && r.evidence.policy.mode in {WhenDisconnected, WhenAgentsFinish, WhenFullyIdle}
              && forall a <- r.evidence.snapshots ::
                   && a.runtime == r.runtime && a.sequence != 0 && a.observedAt != 0
                   && (r.evidence.policy.mode == WhenDisconnected ==> a.ssh == 0 && a.ide == 0)
                   && (r.evidence.policy.mode == WhenAgentsFinish ==> a.codex == 0 && a.claude == 0)
                   && (r.evidence.policy.mode == WhenFullyIdle ==>
                         && a.ssh == 0 && a.ide == 0 && a.codex == 0 && a.claude == 0
                         && a.protected == 0 && a.containers == 0 && a.unknown == 0)
  {
    StopsBeganAndEnded(environment, clock, events);
    StopsAreJustified(environment, clock, events);
    hide Run;
    var w := Run(Initial(environment, clock), events);
    forall stop <- w.stops
      ensures FromTwoMessages(stop.request, events) && Justified(environment, stop)
    {
      var i :| 0 <= i < |w.stops| && w.stops[i] == stop;
    }
  }
}
