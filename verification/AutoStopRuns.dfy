/** Whole runs of one Environment's Auto-stop object: messages arrive in any order,
    timers may fire late, twice or forged, dispatch may be refused or fail. */
module AutoStopRuns {
  import opened Text
  import opened AutoStop

  datatype Dispatch = Delivered | Refused | Failed

  /** One handler invocation together with what it read from the outside. */
  datatype Event =
    | Observed(at: Time, observation: Observation)
    | Refreshed(at: Time, gone: bool, observation: Observation)
    | Expired(timer: Timer, freshAt: Time, at: Time, gone: bool, observation: Observation, dispatch: Dispatch)
    | Suppressed(at: Time, runtime: string)
    | Resumed(at: Time, runtime: string)

  /** The ticks of a run count every move of the timer generation, without wrapping around:
      a timer armed at some tick carries that tick modulo the counter's width. */
  datatype Arming = Arming(tick: nat, timer: Timer)

  datatype StopRecord = StopRecord(tick: nat, request: StopRequest)

  /** The stored coordination state and the history of what the object did. */
  datatype World = World(
    state: State, clock: Time, ticks: nat, armings: seq<Arming>, cancelled: set<nat>, stops: seq<StopRecord>)

  // ------------------------------------------------------------ the handlers

  /** Refresh reads state as of now; Expire demands a snapshot no older than its start. */
  function Stamped(e: Event): Observation
    requires !e.Suppressed? && !e.Resumed?
  {
    match e
    case Observed(at, o) => o.(processedAt := at)
    case Refreshed(at, _, o) => o.(freshAfter := at - STALE_THRESHOLD, processedAt := at)
    case Expired(_, freshAt, at, _, o, _) => o.(freshAfter := freshAt, processedAt := at)
  }

  /** A refused dispatch ends the cycle without a stop. */
  function Settle(t: Transition, dispatch: Dispatch): Result<Transition> {
    if t.stop.None? || dispatch.Delivered? then Ok(t)
    else if dispatch.Failed? then Err("dispatch failed")
    else
      Ok(Transition(
           t.state.(timerPending := false, dispatched := 0, graceStartedAt := 0, graceStart := None),
           t.timer, None, true))
  }

  /** What a handler stores, sends and returns; an error stores nothing. */
  function Handle(s: State, e: Event): Result<Transition> {
    match e
    case Suppressed(_, runtime) => Suppress(s, runtime)
    case Resumed(_, runtime) => Resume(s, runtime)
    case Observed(_, _) => Observe(s, Stamped(e))
    case Refreshed(_, gone, _) =>
      if s.runtime == "" then Ok(Transition(s, None, None, false))
      else if gone then Ok(Abandon(s))
      else Observe(s, Stamped(e))
    case Expired(timer, _, _, gone, _, dispatch) =>
      if !Current(s, timer) then Ok(Transition(s, None, None, false))
      else if gone then Ok(Abandon(s))
      else
        match Expire(s, timer, Stamped(e))
        case Err(error) => Err(error)
        case Ok(t) => Settle(t, dispatch)
  }

  function Step(w: World, e: Event): World {
    match Handle(w.state, e)
    case Err(_) => w.(clock := e.at)
    case Ok(t) => Record(w, t, e.at)
  }

  /** How often a transition moved the generation: once to disown a pending timer, once to arm. */
  function Moves(s: State, t: Transition): nat {
    if t.timer.Some? then (if s.timerPending then 2 else 1)
    else if t.state.timerGeneration != s.timerGeneration then 1 else 0
  }

  function Record(w: World, t: Transition, at: Time): World {
    var ticks := w.ticks + Moves(w.state, t);
    World(
      t.state, at, ticks,
      if t.timer.Some? then w.armings + [Arming(ticks, t.timer.value)] else w.armings,
      if t.cancelled then w.cancelled + {w.ticks} else w.cancelled,
      if t.stop.Some? then w.stops + [StopRecord(w.ticks, t.stop.value)] else w.stops)
  }

  function Run(w: World, events: seq<Event>): World {
    if events == [] then w
    else Step(Run(w, events[..|events| - 1]), events[|events| - 1])
  }

  /** The object as Restate first creates it. */
  function Initial(environment: string, clock: Time): World {
    World(State(environment, "", "", Unset, 0, 0, 0, false, 0, 0, "", 0, None), clock, 0, [], {}, [])
  }

  /** Event times come from one clock that never runs backwards. */
  predicate OnClock(clock: Time, e: Event) {
    0 < clock <= e.at && (e.Expired? ==> clock <= e.freshAt <= e.at)
  }

  function ClockAfter(clock: Time, events: seq<Event>): Time {
    if events == [] then clock else events[|events| - 1].at
  }

  predicate Clocked(clock: Time, events: seq<Event>) {
    events == [] ||
    (Clocked(clock, events[..|events| - 1]) &&
     OnClock(ClockAfter(clock, events[..|events| - 1]), events[|events| - 1]))
  }

  // ------------------------------------------------------------- invariants

  /** Armed ticks increase, every timer carries its tick, and a pending timer was armed last. */
  ghost predicate ArmingsInOrder(ticks: nat, pending: bool, armings: seq<Arming>) {
    && (forall i, j :: 0 <= i < j < |armings| ==> armings[i].tick < armings[j].tick)
    && (forall i :: 0 <= i < |armings| ==>
          0 < armings[i].tick <= ticks && armings[i].timer.generation == armings[i].tick % GENERATIONS)
    && (pending ==> armings != [] && armings[|armings| - 1].tick == ticks)
  }

  /** Only arming and disowning move the generation. */
  ghost predicate ArmingsAreDense(ticks: nat, armings: seq<Arming>) {
    if armings == [] then ticks == 0
    else
      && armings[0].tick == 1
      && (forall i :: 0 < i < |armings| ==> armings[i].tick <= armings[i - 1].tick + 2)
      && ticks <= armings[|armings| - 1].tick + 1
  }

  /** No tick reported as cancelled is still pending. */
  ghost predicate CancelledIsOver(ticks: nat, pending: bool, cancelled: set<nat>) {
    forall c :: c in cancelled ==> c < ticks || (c == ticks && !pending)
  }

  ghost predicate ArmedAt(armings: seq<Arming>, tick: nat) {
    exists i :: 0 <= i < |armings| && armings[i].tick == tick
  }

  /** Each stop belongs to one armed tick that was never cancelled, and ends it. */
  ghost predicate StopsInOrder(w: World) {
    && (forall i, j :: 0 <= i < j < |w.stops| ==> w.stops[i].tick < w.stops[j].tick)
    && (forall i :: 0 <= i < |w.stops| ==>
          && ArmedAt(w.armings, w.stops[i].tick) && w.stops[i].tick !in w.cancelled
          && w.stops[i].tick <= w.ticks && (w.stops[i].tick == w.ticks ==> !w.state.timerPending))
  }

  ghost predicate TicksInOrder(w: World) {
    && w.state.timerGeneration == w.ticks % GENERATIONS
    && ArmingsInOrder(w.ticks, w.state.timerPending, w.armings)
    && ArmingsAreDense(w.ticks, w.armings)
    && CancelledIsOver(w.ticks, w.state.timerPending, w.cancelled)
    && StopsInOrder(w)
  }

  /** A dispatched generation blocks its own successor, and suppression blocks timers. */
  ghost predicate Quiescent(s: State) {
    && (s.dispatched != 0 ==> !s.timerPending && s.dispatched == s.timerGeneration)
    && (s.suppressed != "" && s.suppressed == s.runtime ==> !s.timerPending)
  }

  /** What a pending timer remembers about the start of its grace period. */
  ghost predicate GraceRemembered(s: State, clock: Time) {
    s.timerPending ==>
      && s.runtime != "" && s.graceStart.Some? && 0 < s.graceStartedAt <= clock
      && ValidActivity(s.graceStart.value) && s.graceStart.value.runtime == s.runtime
      && Idle(s.mode, s.graceStart.value) && s.graceStart.value.sequence <= s.lastSequence
  }

  /** The evidence of a stop: accepted by the stop workflow, two distinct idle snapshots. */
  ghost predicate Justified(environment: string, stop: StopRecord) {
    var r := stop.request;
    && r.environment == environment
    && r.key == StopKey(environment, r.runtime, stop.tick % GENERATIONS)
    && AuditAccepts(environment, r.runtime, r.evidence)
    && (forall i :: 0 <= i < 2 ==> Idle(r.evidence.policy.mode, r.evidence.snapshots[i]))
    && r.evidence.snapshots[0].sequence < r.evidence.snapshots[1].sequence
    && r.evidence.expiredAt == r.evidence.snapshots[1].observedAt
  }

  ghost predicate Invariant(environment: string, w: World) {
    && w.state.environment == environment
    && TicksInOrder(w) && Quiescent(w.state) && GraceRemembered(w.state, w.clock)
    && (forall i :: 0 <= i < |w.stops| ==> Justified(environment, w.stops[i]))
  }

  // -------------------------------------------------------- one transition

  /** What any coordinator transition may do. */
  ghost predicate Orderly(s: State, t: Transition, clock: Time) {
    var n, moves := t.state, Moves(s, t);
    && n.environment == s.environment
    && n.timerGeneration == (s.timerGeneration + moves) % GENERATIONS
    && Quiescent(n) && GraceRemembered(n, clock)
    && (t.timer.Some? ==> n.timerPending && t.timer.value.generation == n.timerGeneration)
    && (t.timer.None? ==> (n.timerPending ==> s.timerPending && moves == 0))
    && (t.timer.None? && moves > 0 ==> s.timerPending)
    && (t.stop.Some? ==> s.timerPending && !n.timerPending && moves == 0 && n.dispatched == s.timerGeneration)
    && (t.cancelled ==> s.timerPending && t.stop.None? && (n.timerPending ==> t.timer.Some?))
    && (s.timerPending && moves > 0 ==> t.cancelled)
  }

  /** What a qualifying evaluation has checked. */
  lemma Qualified(s: State, o: Observation)
    requires EvaluateFor(s, o).Ok? && EvaluateFor(s, o).value.qualifies
    ensures o.runtime != "" && o.policy.environment == s.environment && o.policyGeneration != 0 && o.snapshot.Some?
    ensures var a := o.snapshot.value;
            && ValidActivity(a) && a.runtime == o.runtime && Idle(o.policy.mode, a)
            && a.sequence > s.lastSequence && a.observedAt >= o.freshAfter
            && EvaluateFor(s, o).value.sequence == a.sequence
  {
  }

  lemma SameCoordinationIsOrderly(s: State, o: Observation, clock: Time)
    requires Quiescent(s) && GraceRemembered(s, clock) && clock <= o.processedAt && Observe(s, o).Ok?
    requires s.timerGeneration < GENERATIONS && 0 < o.processedAt && !CoordinationChanged(s, o)
    ensures Orderly(s, Observe(s, o).value, o.processedAt)
  {
    hide EvaluateFor, RestorePolicy, ValidActivity, Idle;
    if EvaluateFor(s, o).Ok? && EvaluateFor(s, o).value.qualifies {
      Qualified(s, o);
    }
  }

  lemma NewCoordinationIsOrderly(s: State, o: Observation, clock: Time)
    requires Quiescent(s) && clock <= o.processedAt && Observe(s, o).Ok?
    requires s.timerGeneration < GENERATIONS && 0 < o.processedAt && CoordinationChanged(s, o)
    ensures Orderly(s, Observe(s, o).value, o.processedAt)
  {
    hide CoordinationChanged, EvaluateFor, RestorePolicy, ValidActivity, Idle;
    var base := Adopt(s, o);
    assert !base.timerPending;
    if EvaluateFor(base, o).Ok? && EvaluateFor(base, o).value.qualifies {
      Qualified(base, o);
    }
  }

  lemma ObserveIsOrderly(s: State, o: Observation, clock: Time)
    requires Quiescent(s) && GraceRemembered(s, clock) && clock <= o.processedAt && Observe(s, o).Ok?
    requires s.timerGeneration < GENERATIONS && 0 < o.processedAt
    ensures Orderly(s, Observe(s, o).value, o.processedAt)
    ensures Observe(s, o).value.stop.None?
  {
    hide Orderly, Quiescent, GraceRemembered, EvaluateFor;
    if CoordinationChanged(s, o) {
      NewCoordinationIsOrderly(s, o, clock);
    } else {
      SameCoordinationIsOrderly(s, o, clock);
    }
  }

  lemma ExpireIsOrderly(s: State, t: Timer, o: Observation, clock: Time)
    requires Quiescent(s) && GraceRemembered(s, clock) && clock <= o.processedAt && Expire(s, t, o).Ok?
    requires s.timerGeneration < GENERATIONS && 0 < o.processedAt
    ensures Orderly(s, Expire(s, t, o).value, o.processedAt)
  {
    if Current(s, t) && CoordinationChanged(s, o) {
      ObserveIsOrderly(s, o, clock);
    }
  }

  lemma HandleIsOrderly(s: State, e: Event, clock: Time)
    requires Quiescent(s) && GraceRemembered(s, clock) && OnClock(clock, e) && Handle(s, e).Ok?
    requires s.timerGeneration < GENERATIONS
    ensures Orderly(s, Handle(s, e).value, e.at)
  {
    match e
    case Suppressed(_, _) =>
    case Resumed(_, _) =>
    case Observed(_, _) => ObserveIsOrderly(s, Stamped(e), clock);
    case Refreshed(_, gone, _) =>
      if s.runtime != "" && !gone {
        ObserveIsOrderly(s, Stamped(e), clock);
      }
    case Expired(timer, _, _, gone, _, dispatch) =>
      if Current(s, timer) && !gone {
        ExpireIsOrderly(s, timer, Stamped(e), clock);
      }
  }

  /** A stop is always justified by the grace period it ends. */
  lemma StopIsJustified(s: State, e: Event, clock: Time, tick: nat)
    requires GraceRemembered(s, clock) && OnClock(clock, e) && Handle(s, e).Ok? && Handle(s, e).value.stop.Some?
    requires s.timerGeneration == tick % GENERATIONS
    ensures Justified(s.environment, StopRecord(tick, Handle(s, e).value.stop.value))
    ensures e.Expired? && Current(s, e.timer)
  {
    assert e.Expired? && Current(s, e.timer);
    assert !CoordinationChanged(s, Stamped(e));
    hide EvaluateFor, Idle, StopKey;
    Qualified(s, Stamped(e));
  }

  /** A timer delivered no sooner than its delay never stops a Runtime before its grace
      period has passed. */
  lemma StopWaitsOutTheGrace(s: State, e: Event, clock: Time)
    requires GraceRemembered(s, clock) && OnClock(clock, e) && Handle(s, e).Ok? && Handle(s, e).value.stop.Some?
    requires e.Expired? && e.freshAt >= s.graceStartedAt + s.graceSeconds * SECOND
    ensures var evidence := Handle(s, e).value.stop.value.evidence;
            evidence.startedAt + evidence.policy.graceSeconds * SECOND <= evidence.expiredAt
  {
    assert Current(s, e.timer) && !CoordinationChanged(s, Stamped(e));
  }

  // ------------------------------------------------------------------ one step

  lemma TicksWrap(ticks: nat, moves: nat)
    ensures (ticks % GENERATIONS + moves) % GENERATIONS == (ticks + moves) % GENERATIONS
  {
  }

  lemma ArmingsStayInOrder(ticks: nat, pending: bool, armings: seq<Arming>, timer: Timer, next: nat)
    requires ArmingsInOrder(ticks, pending, armings) && ticks < next && timer.generation == next % GENERATIONS
    ensures ArmingsInOrder(next, true, armings + [Arming(next, timer)])
  {
  }

  lemma ArmingsStayDense(ticks: nat, pending: bool, armings: seq<Arming>, timer: Timer, next: nat)
    requires ArmingsInOrder(ticks, pending, armings) && ArmingsAreDense(ticks, armings)
    requires next == ticks + (if pending then 2 else 1)
    ensures ArmingsAreDense(next, armings + [Arming(next, timer)])
  {
  }

  /** A transition that arms nothing moves the ticks at most past a pending timer. */
  lemma ArmingsOutlive(ticks: nat, pending: bool, armings: seq<Arming>, next: nat, still: bool)
    requires ArmingsInOrder(ticks, pending, armings) && ArmingsAreDense(ticks, armings)
    requires ticks <= next <= ticks + (if pending then 1 else 0) && (still ==> pending && next == ticks)
    ensures ArmingsInOrder(next, still, armings) && ArmingsAreDense(next, armings)
  {
  }

  lemma ArmedStays(armings: seq<Arming>, more: seq<Arming>, tick: nat)
    requires ArmedAt(armings, tick)
    ensures ArmedAt(armings + more, tick)
  {
    var i :| 0 <= i < |armings| && armings[i].tick == tick;
    assert (armings + more)[i].tick == tick;
  }

  lemma OrderlyKeepsArmings(w: World, t: Transition, at: Time)
    requires TicksInOrder(w) && Orderly(w.state, t, at)
    ensures var n := Record(w, t, at);
            ArmingsInOrder(n.ticks, n.state.timerPending, n.armings) && ArmingsAreDense(n.ticks, n.armings)
    ensures Record(w, t, at).state.timerGeneration == Record(w, t, at).ticks % GENERATIONS
  {
    hide StopsInOrder, CancelledIsOver, GraceRemembered, Quiescent, ArmingsInOrder, ArmingsAreDense;
    var next := w.ticks + Moves(w.state, t);
    TicksWrap(w.ticks, Moves(w.state, t));
    if t.timer.Some? {
      ArmingsStayInOrder(w.ticks, w.state.timerPending, w.armings, t.timer.value, next);
      ArmingsStayDense(w.ticks, w.state.timerPending, w.armings, t.timer.value, next);
    } else {
      ArmingsOutlive(w.ticks, w.state.timerPending, w.armings, next, t.state.timerPending);
    }
  }

  lemma OrderlyKeepsCancelled(w: World, t: Transition, at: Time)
    requires TicksInOrder(w) && Orderly(w.state, t, at)
    ensures var n := Record(w, t, at); CancelledIsOver(n.ticks, n.state.timerPending, n.cancelled)
  {
    hide StopsInOrder, ArmingsInOrder, ArmingsAreDense, GraceRemembered, Quiescent;
  }

  lemma OrderlyKeepsStops(w: World, t: Transition, at: Time)
    requires TicksInOrder(w) && Orderly(w.state, t, at)
    ensures StopsInOrder(Record(w, t, at))
  {
    hide ArmingsAreDense, GraceRemembered, Quiescent, ArmedAt;
    var n := Record(w, t, at);
    forall i | 0 <= i < |w.stops|
      ensures ArmedAt(n.armings, w.stops[i].tick)
    {
      ArmedStays(w.armings, n.armings[|w.armings|..], w.stops[i].tick);
      assert n.armings == w.armings + n.armings[|w.armings|..];
    }
    if t.stop.Some? {
      LastIsArmed(w.ticks, w.armings);
    }
  }

  lemma LastIsArmed(ticks: nat, armings: seq<Arming>)
    requires ArmingsInOrder(ticks, true, armings)
    ensures ArmedAt(armings, ticks)
  {
    assert armings[|armings| - 1].tick == ticks;
  }

  lemma StepKeepsInvariant(environment: string, w: World, e: Event)
    requires Invariant(environment, w) && OnClock(w.clock, e)
    ensures Invariant(environment, Step(w, e)) && Step(w, e).clock == e.at
  {
    hide Handle, Orderly, Justified, Quiescent, GraceRemembered, Moves;
    hide ArmingsInOrder, ArmingsAreDense, CancelledIsOver, StopsInOrder;
    if Handle(w.state, e).Ok? {
      var t := Handle(w.state, e).value;
      HandleIsOrderly(w.state, e, w.clock);
      OrderlyParts(w.state, t, e.at);
      OrderlyKeepsArmings(w, t, e.at);
      OrderlyKeepsCancelled(w, t, e.at);
      OrderlyKeepsStops(w, t, e.at);
      if t.stop.Some? {
        StopIsJustified(w.state, e, w.clock, w.ticks);
      }
    } else {
      IdleStep(w, e.at);
    }
  }

  lemma IdleStep(w: World, at: Time)
    requires GraceRemembered(w.state, w.clock) && w.clock <= at && StopsInOrder(w)
    ensures GraceRemembered(w.state, at) && StopsInOrder(w.(clock := at))
  {
  }

  lemma OrderlyParts(s: State, t: Transition, at: Time)
    requires Orderly(s, t, at)
    ensures Quiescent(t.state) && GraceRemembered(t.state, at) && t.state.environment == s.environment
  {
  }

  // ----------------------------------------------------------------- theorems

  /** Every run keeps the invariant. */
  lemma {:induction false} RunsKeepInvariant(environment: string, clock: Time, events: seq<Event>)
    requires 0 < clock && Clocked(clock, events)
    ensures var w := Run(Initial(environment, clock), events);
            Invariant(environment, w) && w.clock == ClockAfter(clock, events)
  {
    hide Step, Invariant;
    if events != [] {
      var before, e := events[..|events| - 1], events[|events| - 1];
      RunsKeepInvariant(environment, clock, before);
      StepKeepsInvariant(environment, Run(Initial(environment, clock), before), e);
    } else {
      InitialIsInvariant(environment, clock);
    }
  }

  lemma InitialIsInvariant(environment: string, clock: Time)
    ensures Invariant(environment, Initial(environment, clock))
  {
  }

  /** Over every run, of any length: timers are armed at increasing ticks and carry their tick;
      a stop ends an armed tick that was never cancelled; each tick stops at most once; and two
      stops share an idempotency key exactly when they stop the same Runtime a whole number of
      counter widths apart. */
  lemma TimersAndStops(environment: string, clock: Time, events: seq<Event>)
    requires 0 < clock && Clocked(clock, events)
    ensures var w := Run(Initial(environment, clock), events);
            && (forall i, j :: 0 <= i < j < |w.armings| ==> w.armings[i].tick < w.armings[j].tick)
            && (forall i :: 0 <= i < |w.armings| ==> w.armings[i].timer.generation == w.armings[i].tick % GENERATIONS)
            && (forall i :: 0 <= i < |w.stops| ==>
                  ArmedAt(w.armings, w.stops[i].tick) && w.stops[i].tick !in w.cancelled)
            && (forall i, j :: 0 <= i < j < |w.stops| ==>
                  && w.stops[i].tick < w.stops[j].tick
                  && (w.stops[i].request.key == w.stops[j].request.key <==>
                        && w.stops[i].request.runtime == w.stops[j].request.runtime
                        && (w.stops[j].tick - w.stops[i].tick) % GENERATIONS == 0))
  {
    hide Run, ArmedAt;
    RunsKeepInvariant(environment, clock, events);
    var w := Run(Initial(environment, clock), events);
    forall i, j | 0 <= i < j < |w.stops|
      ensures w.stops[i].request.key == w.stops[j].request.key <==>
                && w.stops[i].request.runtime == w.stops[j].request.runtime
                && (w.stops[j].tick - w.stops[i].tick) % GENERATIONS == 0
    {
      var a, b := w.stops[i], w.stops[j];
      assert Justified(environment, a) && Justified(environment, b) && a.tick < b.tick;
      StopKeysDistinct(environment, a.request.runtime, a.tick % GENERATIONS, b.request.runtime, b.tick % GENERATIONS);
      SameRemainder(a.tick, b.tick);
    }
  }

  lemma SameRemainder(a: nat, b: nat)
    requires a <= b
    ensures a % GENERATIONS == b % GENERATIONS <==> (b - a) % GENERATIONS == 0
  {
  }

  /** Exactly when the generations a run arms strictly increase: as long as it armed its last
      timer below the counter's width. */
  lemma GenerationsIncreaseExactlyBelowTheTop(environment: string, clock: Time, events: seq<Event>)
    requires 0 < clock && Clocked(clock, events)
    ensures var armings := Run(Initial(environment, clock), events).armings;
            (forall i, j :: 0 <= i < j < |armings| ==> armings[i].timer.generation < armings[j].timer.generation)
            <==> armings == [] || armings[|armings| - 1].tick < GENERATIONS
  {
    hide Run;
    RunsKeepInvariant(environment, clock, events);
    var w := Run(Initial(environment, clock), events);
    if w.armings != [] && w.armings[|w.armings| - 1].tick >= GENERATIONS {
      var k := FirstPastTheTop(w.ticks, w.state.timerPending, w.armings, |w.armings| - 1);
      assert w.armings[k].timer.generation <= 1 == w.armings[0].timer.generation;
    }
  }

  /** The first timer armed past the top carries generation 0 or 1. */
  lemma {:induction false} FirstPastTheTop(ticks: nat, pending: bool, armings: seq<Arming>, i: nat) returns (k: nat)
    requires ArmingsInOrder(ticks, pending, armings) && ArmingsAreDense(ticks, armings)
    requires i < |armings| && armings[i].tick >= GENERATIONS
    ensures 0 < k <= i && GENERATIONS <= armings[k].tick <= GENERATIONS + 1
  {
    if armings[i - 1].tick < GENERATIONS {
      k := i;
    } else {
      k := FirstPastTheTop(ticks, pending, armings, i - 1);
    }
  }

  /** At any point below the top, the next timer outranks all earlier ones exactly when the
      counter has room for the moves that arming it takes. */
  lemma ArmingOutranksExactlyBelowTheTop(environment: string, w: World, e: Event)
    requires Invariant(environment, w) && OnClock(w.clock, e) && w.ticks < GENERATIONS && w.armings != []
    requires |Step(w, e).armings| > |w.armings|
    ensures var armed := Step(w, e).armings[|w.armings|].timer.generation;
            (forall i :: 0 <= i < |w.armings| ==> w.armings[i].timer.generation < armed)
            <==> w.state.timerGeneration + (if w.state.timerPending then 2 else 1) < GENERATIONS
  {
    hide Handle, Quiescent, GraceRemembered, Justified, StopsInOrder, CancelledIsOver, ArmingsInOrder, ArmingsAreDense;
    var t := Handle(w.state, e).value;
    HandleIsOrderly(w.state, e, w.clock);
    NextGeneration(w.ticks, w.state.timerPending, w.armings, if w.state.timerPending then 2 else 1);
    assert Step(w, e).armings == w.armings + [Arming(w.ticks + Moves(w.state, t), t.timer.value)];
    TicksWrap(w.ticks, Moves(w.state, t));
  }

  lemma NextGeneration(ticks: nat, pending: bool, armings: seq<Arming>, moves: nat)
    requires ArmingsInOrder(ticks, pending, armings) && ArmingsAreDense(ticks, armings) && armings != []
    requires ticks < GENERATIONS && 1 <= moves <= 2
    ensures (forall i :: 0 <= i < |armings| ==> armings[i].timer.generation < (ticks % GENERATIONS + moves) % GENERATIONS)
            <==> ticks % GENERATIONS + moves < GENERATIONS
  {
    assert armings[0].timer.generation == 1;
  }

  /** Every stop of every run carries evidence the stop workflow's validator accepts. */
  lemma StopsAreJustified(environment: string, clock: Time, events: seq<Event>)
    requires 0 < clock && Clocked(clock, events)
    ensures var w := Run(Initial(environment, clock), events);
            forall i :: 0 <= i < |w.stops| ==> Justified(environment, w.stops[i])
  {
    RunsKeepInvariant(environment, clock, events);
  }

  /** In every run no timer is pending while the coordinated Runtime is the suppressed one. */
  lemma SuppressedRuntimeHasNoTimer(environment: string, clock: Time, events: seq<Event>)
    requires 0 < clock && Clocked(clock, events)
    ensures var s := Run(Initial(environment, clock), events).state;
            s.suppressed != "" && s.suppressed == s.runtime ==> !s.timerPending
  {
    RunsKeepInvariant(environment, clock, events);
  }

  // ------------------------------------------------------ at the counter's top

  /** A Runtime that turns idle and busy by turns: each idle snapshot arms a timer, each busy
      one disowns it, so every event moves the generation once. */
  function Toggle(k: nat): Event
    requires k > 0
  {
    var agents := if k % 2 == 1 then 0 else 1;
    Observed(k, Observation("runtime", Policy("policy", "environment", WhenFullyIdle, 60), 1, 1, k,
                            Some(Activity("runtime", k, k, 0, 0, agents, 0, 0, 0, 0)), []))
  }

  function Toggles(n: nat): (events: seq<Event>)
    ensures |events| == n && (n > 0 ==> events[n - 1] == Toggle(n))
  {
    if n == 0 then [] else Toggles(n - 1) + [Toggle(n)]
  }

  lemma {:induction false} TogglesAreClocked(n: nat)
    ensures Clocked(1, Toggles(n))
  {
    if n > 0 {
      TogglesAreClocked(n - 1);
      assert Toggles(n)[..n - 1] == Toggles(n - 1);
    }
  }

  ghost predicate ToggledState(s: State, n: nat) {
    && s.timerGeneration == n % GENERATIONS && s.timerPending == (n % 2 == 1)
    && s.environment == "environment" && s.lastSequence == n && s.dispatched == 0 && s.suppressed == ""
    && if n == 0 then s.runtime == ""
       else
         && s.runtime == "runtime" && s.policyId == "policy" && s.mode == WhenFullyIdle
         && s.graceSeconds == 60 && s.policyGeneration == 1
  }

  /** Where n toggles lead. */
  ghost predicate Toggled(w: World, n: nat) {
    && w.ticks == n && ToggledState(w.state, n)
    && (w.armings == [] <==> n == 0)
    && (n > 0 ==> w.armings[0] == Arming(1, Timer("runtime", 1, 60 * SECOND)))
    && (n % 2 == 1 ==> w.armings[|w.armings| - 1] == Arming(n, Timer("runtime", n % GENERATIONS, 60 * SECOND)))
    && (n >= 2 ==> 1 in w.cancelled)
  }

  lemma ToggleArms(s: State, n: nat)
    requires n % 2 == 1 && ToggledState(s, n - 1)
    ensures Handle(s, Toggle(n)).Ok?
    ensures var t := Handle(s, Toggle(n)).value;
            ToggledState(t.state, n) && t.timer == Some(Timer("runtime", n % GENERATIONS, 60 * SECOND)) && !t.cancelled
  {
    TicksWrap(n - 1, 1);
    assert !s.timerPending;
  }

  lemma ToggleDisarms(s: State, n: nat)
    requires n > 0 && n % 2 == 0 && ToggledState(s, n - 1)
    ensures Handle(s, Toggle(n)).Ok?
    ensures var t := Handle(s, Toggle(n)).value;
            ToggledState(t.state, n) && t.timer == None && t.cancelled && Moves(s, t) == 1
  {
    TicksWrap(n - 1, 1);
    assert s.timerPending && !CoordinationChanged(s, Stamped(Toggle(n)));
  }

  lemma OneToggle(w: World, n: nat)
    requires n > 0 && Toggled(w, n - 1)
    ensures Toggled(Step(w, Toggle(n)), n)
  {
    hide Handle, ToggledState, Toggle;
    if n % 2 == 1 {
      ToggleArms(w.state, n);
      IdleBeforeArming(w.state, n - 1);
    } else {
      ToggleDisarms(w.state, n);
    }
  }

  lemma IdleBeforeArming(s: State, n: nat)
    requires ToggledState(s, n) && n % 2 == 0
    ensures !s.timerPending
  {
  }

  lemma {:induction false} TogglesReachEveryTick(n: nat)
    ensures Toggled(Run(Initial("environment", 1), Toggles(n)), n)
  {
    hide Toggled, Toggle, Step;
    if n > 0 {
      TogglesReachEveryTick(n - 1);
      OneToggle(Run(Initial("environment", 1), Toggles(n - 1)), n);
      assert Toggles(n)[..n - 1] == Toggles(n - 1);
    } else {
      StartsToggled();
    }
  }

  lemma StartsToggled()
    ensures Toggled(Initial("environment", 1), 0)
  {
  }

  /** A run that goes past the top: the timer its last observation arms carries the generation
      of the first timer, so the first one, disowned long ago, is current again. */
  lemma WrappingRevivesACancelledTimer() returns (events: seq<Event>)
    ensures Clocked(1, events)
    ensures Revived(Run(Initial("environment", 1), events))
  {
    hide Toggles, Run, Clocked, Toggled, Revived, Initial;
    events := Toggles(GENERATIONS + 1);
    TogglesAreClocked(GENERATIONS + 1);
    TogglesReachEveryTick(GENERATIONS + 1);
    RevivedPastTheTop(Run(Initial("environment", 1), events), GENERATIONS + 1);
  }

  /** Two timers of one generation, the earlier cancelled, and its message accepted all the same. */
  ghost predicate Revived(w: World) {
    && w.armings != []
    && var first, last := w.armings[0], w.armings[|w.armings| - 1];
       && first.tick in w.cancelled && first.tick < last.tick
       && first.timer.generation == last.timer.generation && Current(w.state, first.timer)
  }

  lemma RevivedPastTheTop(w: World, n: nat)
    requires Toggled(w, n) && n > 1 && n % 2 == 1 && n % GENERATIONS == 1
    ensures Revived(w)
  {
  }

  // ------------------------------------------------------------ after a stop

  /** Messages that do not reopen a closed dispatch cycle: coordination unchanged, the
      Runtime still there, the suppressed Runtime not resumed. */
  predicate LeavesCycleClosed(s: State, e: Event) {
    match e
    case Observed(_, _) => !CoordinationChanged(s, Stamped(e))
    case Refreshed(_, gone, _) => !gone && !CoordinationChanged(s, Stamped(e))
    case Expired(_, _, _, _, _, _) => true
    case Suppressed(_, _) => true
    case Resumed(_, runtime) => runtime != s.suppressed
  }

  predicate LeaveCycleClosed(w: World, events: seq<Event>) {
    forall i :: 0 <= i < |events| ==> LeavesCycleClosed(Run(w, events[..i]).state, events[i])
  }

  /** Once a stop has been dispatched no timer is armed, and so no further stop emitted,
      until one of the messages that reopens the cycle. */
  lemma {:induction false} NoTimerAfterStop(w: World, events: seq<Event>)
    requires Quiescent(w.state) && w.state.dispatched != 0 && LeaveCycleClosed(w, events)
    ensures var n := Run(w, events);
            && n.armings == w.armings && n.stops == w.stops
            && Quiescent(n.state) && n.state.dispatched == w.state.dispatched && !n.state.timerPending
  {
    hide Step, LeavesCycleClosed;
    if events != [] {
      var before := events[..|events| - 1];
      assert forall i :: 0 <= i < |before| ==> before[i] == events[i] && before[..i] == events[..i];
      NoTimerAfterStop(w, before);
      ClosedCycleStays(Run(w, before), events[|events| - 1]);
    }
  }

  lemma ClosedCycleStays(w: World, e: Event)
    requires Quiescent(w.state) && w.state.dispatched != 0 && LeavesCycleClosed(w.state, e)
    ensures var n := Step(w, e);
            && n.armings == w.armings && n.stops == w.stops
            && Quiescent(n.state) && n.state.dispatched == w.state.dispatched && !n.state.timerPending
  {
  }

  /** A stop ends its dispatch cycle exactly unless the stopped timer's generation is 0, which
      stands for "nothing dispatched" and is carried only past the counter's top. */
  lemma StopClosesCycle(environment: string, w: World, e: Event)
    requires Invariant(environment, w) && OnClock(w.clock, e)
    requires |Step(w, e).stops| > |w.stops|
    ensures var s := Step(w, e).state;
            && s.dispatched == w.state.timerGeneration && Quiescent(s)
            && (s.dispatched != 0 <==> w.ticks % GENERATIONS != 0)
            && (s.dispatched == 0 ==> w.ticks >= GENERATIONS)
  {
    hide Handle;
    HandleIsOrderly(w.state, e, w.clock);
    assert w.ticks > 0;
  }

  // ------------------------------------------------------------- suppression

  /** The coordinated Runtime is the suppressed one, with no timer. */
  predicate Held(s: State, runtime: string) {
    s.runtime == runtime == s.suppressed && !s.timerPending
  }

  /** The messages that do not lift the suppression of the coordinated Runtime: refused ones,
      expiries, observations of the same Runtime, its own repeated suppression, and the
      resumption of another Runtime. */
  predicate KeepsSuppression(s: State, e: Event) {
    Handle(s, e).Err? ||
    match e
    case Observed(_, o) => o.runtime == s.runtime
    case Refreshed(_, gone, o) => !gone && o.runtime == s.runtime
    case Expired(_, _, _, _, _, _) => true
    case Suppressed(_, r) => r == s.runtime
    case Resumed(_, r) => r != s.runtime
  }

  /** One message leaves the suppression in place exactly when it is such a message, and then
      arms and stops nothing. */
  lemma SuppressionHoldsExactlyOver(w: World, e: Event, runtime: string)
    requires runtime != "" && Held(w.state, runtime)
    ensures Held(Step(w, e).state, runtime) <==> KeepsSuppression(w.state, e)
    ensures KeepsSuppression(w.state, e) ==> Step(w, e).armings == w.armings && Step(w, e).stops == w.stops
  {
  }

  predicate AllKeepSuppression(w: World, events: seq<Event>) {
    forall i :: 0 <= i < |events| ==> KeepsSuppression(Run(w, events[..i]).state, events[i])
  }

  ghost predicate HeldThroughout(w: World, events: seq<Event>, runtime: string) {
    forall i :: 0 <= i <= |events| ==> Held(Run(w, events[..i]).state, runtime)
  }

  /** Over a run the suppressed Runtime stays held at every point exactly when every message
      keeps the suppression, and a held Runtime gets no timer and no stop, even when its
      policy changes meanwhile. */
  lemma {:induction false} SuppressionLasts(w: World, events: seq<Event>, runtime: string)
    requires runtime != "" && Held(w.state, runtime)
    ensures HeldThroughout(w, events, runtime) <==> AllKeepSuppression(w, events)
    ensures HeldThroughout(w, events, runtime) ==>
              Run(w, events).armings == w.armings && Run(w, events).stops == w.stops
    decreases |events|
  {
    hide Step, Held, KeepsSuppression;
    if events != [] {
      var n := |events| - 1;
      var before := events[..n];
      assert forall i :: 0 <= i <= n ==> before[..i] == events[..i];
      assert events[..n + 1] == events && Run(w, events) == Step(Run(w, before), events[n]);
      SuppressionLasts(w, before, runtime);
      if HeldThroughout(w, before, runtime) {
        assert before[..n] == before && Held(Run(w, before).state, runtime);
        SuppressionHoldsExactlyOver(Run(w, before), events[n], runtime);
      } else {
        ThroughoutSplits(w, events, runtime);
      }
    } else {
      assert events[..0] == [] && Run(w, []) == w;
    }
  }

  lemma ThroughoutSplits(w: World, events: seq<Event>, runtime: string)
    requires events != [] && !HeldThroughout(w, events[..|events| - 1], runtime)
    ensures !HeldThroughout(w, events, runtime)
  {
    hide Run, Held;
    var before := events[..|events| - 1];
    var i :| 0 <= i <= |before| && !Held(Run(w, before[..i]).state, runtime);
    assert before[..i] == events[..i];
  }

  /** An input that shows the single slot: suppressing Runtime "b" while "a" is held lifts the
      suppression of "a", and the next idle snapshot of "a" arms a timer. */
  lemma AnotherSuppressionLiftsTheFirst() returns (w: World, events: seq<Event>)
    ensures Held(w.state, "a") && |events| == 2 && events[0].Suppressed? && events[0].runtime == "b"
    ensures events[1].Observed? && events[1].observation.runtime == "a"
    ensures |Run(w, events).armings| > |w.armings|
  {
    var policy := Policy("policy", "environment", WhenFullyIdle, 60);
    w := World(State("environment", "a", "policy", WhenFullyIdle, 60, 1, 0, false, 0, 0, "a", 0, None), 1, 0, [], {}, []);
    var idle := Activity("a", 1, 1, 0, 0, 0, 0, 0, 0, 0);
    events := [Suppressed(1, "b"), Observed(1, Observation("a", policy, 1, 1, 1, Some(idle), []))];
    assert events[..1] == [events[0]] && events[..1][..0] == [];
    assert Run(w, events[..1]) == Step(w, events[0]);
  }

  // --------------------------------------------------------- the durable object

  function Timers(armings: seq<Arming>): seq<Timer> {
    seq(|armings|, i requires 0 <= i < |armings| => armings[i].timer)
  }

  function Requests(stops: seq<StopRecord>): seq<StopRequest> {
    seq(|stops|, i requires 0 <= i < |stops| => stops[i].request)
  }

  function Sent<T>(message: Option<T>): seq<T> {
    if message.Some? then [message.value] else []
  }

  lemma RecordSends(w: World, e: Event, t: Transition)
    requires Handle(w.state, e) == Ok(t)
    ensures Step(w, e).state == t.state
    ensures Timers(Step(w, e).armings) == Timers(w.armings) + Sent(t.timer)
    ensures Requests(Step(w, e).stops) == Requests(w.stops) + Sent(t.stop)
  {
    hide Handle;
  }

  /** The Restate object: its handlers read and overwrite the stored state, send timers
      and dispatch stops. The ghost world is the history of everything it has done. */
  class AutoStopObject {
    const environment: string
    var state: State
    var sent: seq<Timer>
    var stops: seq<StopRequest>
    ghost var world: World

    /** The object is where its history leads, and the history keeps the run invariant. */
    ghost predicate Valid()
      reads this
    {
      && Invariant(environment, world)
      && state == world.state && sent == Timers(world.armings) && stops == Requests(world.stops)
    }

    constructor (environment: string, ghost clock: Time)
      ensures Valid() && this.environment == environment && world == Initial(environment, clock)
    {
      this.environment := environment;
      state := State(environment, "", "", Unset, 0, 0, 0, false, 0, 0, "", 0, None);
      sent, stops := [], [];
      world := Initial(environment, clock);
      new;
      InitialIsInvariant(environment, clock);
    }

    /** Stores a transition and sends its timer and its stop. */
    method Commit(ghost e: Event, t: Transition)
      requires Valid() && OnClock(world.clock, e) && Handle(state, e) == Ok(t)
      modifies this
      ensures Valid() && world == Step(old(world), e)
    {
      StepKeepsInvariant(environment, world, e);
      RecordSends(world, e, t);
      hide Handle, Invariant, Step, Timers, Requests;
      world := Step(world, e);
      state := t.state;
      sent := sent + Sent(t.timer);
      stops := stops + Sent(t.stop);
    }

    /** An error stores nothing. */
    ghost method Refuse(e: Event)
      requires Valid() && OnClock(world.clock, e) && Handle(state, e).Err?
      modifies this`world
      ensures Valid() && world == Step(old(world), e)
    {
      StepKeepsInvariant(environment, world, e);
      hide Handle, Invariant;
      world := Step(world, e);
    }

    method Suppress(at: Time, runtime: string) returns (r: Result<Transition>)
      requires Valid() && OnClock(world.clock, Suppressed(at, runtime))
      modifies this
      ensures Valid() && r == Handle(old(state), Suppressed(at, runtime)) && world == Step(old(world), Suppressed(at, runtime))
    {
      hide Invariant;
      r := AutoStop.Suppress(state, runtime);
      if r.Ok? {
        Commit(Suppressed(at, runtime), r.value);
      } else {
        Refuse(Suppressed(at, runtime));
      }
    }

    method Resume(at: Time, runtime: string) returns (r: Result<Transition>)
      requires Valid() && OnClock(world.clock, Resumed(at, runtime))
      modifies this
      ensures Valid() && r == Handle(old(state), Resumed(at, runtime)) && world == Step(old(world), Resumed(at, runtime))
    {
      hide Invariant;
      r := AutoStop.Resume(state, runtime);
      if r.Ok? {
        Commit(Resumed(at, runtime), r.value);
      } else {
        Refuse(Resumed(at, runtime));
      }
    }

    method Observe(at: Time, observation: Observation) returns (r: Result<Transition>)
      requires Valid() && OnClock(world.clock, Observed(at, observation))
      modifies this
      ensures Valid() && r == Handle(old(state), Observed(at, observation)) && world == Step(old(world), Observed(at, observation))
    {
      hide Invariant, AutoStop.Observe;
      r := AutoStop.Observe(state, observation.(processedAt := at));
      if r.Ok? {
        Commit(Observed(at, observation), r.value);
      } else {
        Refuse(Observed(at, observation));
      }
    }

    method Refresh(at: Time, gone: bool, observation: Observation) returns (r: Result<Transition>)
      requires Valid() && OnClock(world.clock, Refreshed(at, gone, observation))
      modifies this
      ensures Valid() && r == Handle(old(state), Refreshed(at, gone, observation))
      ensures world == Step(old(world), Refreshed(at, gone, observation))
    {
      hide Invariant, AutoStop.Observe, Abandon;
      if state.runtime == "" {
        r := Ok(Transition(state, None, None, false));
      } else if gone {
        r := Ok(Abandon(state));
      } else {
        r := AutoStop.Observe(state, observation.(freshAfter := at - STALE_THRESHOLD, processedAt := at));
      }
      if r.Ok? {
        Commit(Refreshed(at, gone, observation), r.value);
      } else {
        Refuse(Refreshed(at, gone, observation));
      }
    }

    method Expire(timer: Timer, freshAt: Time, at: Time, gone: bool, observation: Observation, dispatch: Dispatch)
      returns (r: Result<Transition>)
      requires Valid() && OnClock(world.clock, Expired(timer, freshAt, at, gone, observation, dispatch))
      modifies this
      ensures Valid() && r == Handle(old(state), Expired(timer, freshAt, at, gone, observation, dispatch))
      ensures world == Step(old(world), Expired(timer, freshAt, at, gone, observation, dispatch))
    {
      hide Invariant, AutoStop.Expire, Abandon;
      if !Current(state, timer) {
        r := Ok(Transition(state, None, None, false));
      } else if gone {
        r := Ok(Abandon(state));
      } else {
        r := AutoStop.Expire(state, timer, observation.(freshAfter := freshAt, processedAt := at));
        if r.Ok? && r.value.stop.Some? && !dispatch.Delivered? {
          if dispatch.Failed? {
            r := Err("dispatch failed");
          } else {
            var settled := r.value.state.(timerPending := false, dispatched := 0, graceStartedAt := 0, graceStart := None);
            r := Ok(Transition(settled, r.value.timer, None, true));
          }
        }
      }
      if r.Ok? {
        Commit(Expired(timer, freshAt, at, gone, observation, dispatch), r.value);
      } else {
        Refuse(Expired(timer, freshAt, at, gone, observation, dispatch));
      }
    }
  }
}
