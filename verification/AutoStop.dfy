/** The Auto-stop coordinator: a pure transition function over one Environment's
    coordination state. Times are nanoseconds, zero standing for "not set". */
module AutoStop {
  import opened Text

  type Time = int

  const SECOND: Time := 1_000_000_000
  const STALE_THRESHOLD: Time := 300 * SECOND
  const GENERATIONS: nat := 0x1_0000_0000_0000_0000

  datatype Mode = Unset | WhenDisconnected | WhenAgentsFinish | WhenFullyIdle | Manual | Unrecognized(name: string)

  datatype Policy = Policy(id: string, environment: string, mode: Mode, graceSeconds: int)

  datatype Conflict = Setup | Materialization | Start | Replace | Restore | UnknownConflict

  datatype Activity = Activity(
    runtime: string, sequence: nat, observedAt: Time,
    ssh: int, ide: int, codex: int, claude: int, protected: int, containers: int, unknown: int)

  datatype Observation = Observation(
    runtime: string, policy: Policy, policyGeneration: nat,
    freshAfter: Time, processedAt: Time, snapshot: Option<Activity>, conflicts: seq<Conflict>)

  datatype State = State(
    environment: string, runtime: string,
    policyId: string, mode: Mode, graceSeconds: int, policyGeneration: nat,
    timerGeneration: nat, timerPending: bool, lastSequence: nat, dispatched: nat,
    suppressed: string, graceStartedAt: Time, graceStart: Option<Activity>)

  datatype Timer = Timer(runtime: string, generation: nat, delay: Time)

  datatype Evidence = Evidence(
    policy: Policy, policyGeneration: nat, snapshots: seq<Activity>,
    startedAt: Time, expiredAt: Time, graceSeconds: int)

  datatype StopRequest = StopRequest(environment: string, runtime: string, key: string, evidence: Evidence)

  datatype Transition = Transition(state: State, timer: Option<Timer>, stop: Option<StopRequest>, cancelled: bool)

  datatype Decision = Decision(qualifies: bool, sequence: nat)

  // -------------------------------------------------------------- the policy

  predicate ValidPolicy(p: Policy) {
    p.id != "" && p.environment != "" && !p.mode.Unset? && !p.mode.Unrecognized? && 0 <= p.graceSeconds <= 86400
  }

  predicate ValidActivity(a: Activity) {
    && a.runtime != "" && a.sequence != 0 && a.observedAt != 0
    && a.ssh >= 0 && a.ide >= 0 && a.codex >= 0 && a.claude >= 0
    && a.protected >= 0 && a.containers >= 0 && a.unknown >= 0
  }

  /** What each mode counts as idle. */
  predicate Idle(mode: Mode, a: Activity) {
    match mode
    case WhenDisconnected => a.ssh == 0 && a.ide == 0
    case WhenAgentsFinish => a.codex == 0 && a.claude == 0
    case WhenFullyIdle =>
      a.ssh == 0 && a.ide == 0 && a.codex == 0 && a.claude == 0 &&
      a.protected == 0 && a.containers == 0 && a.unknown == 0
    case _ => false
  }

  /** AutoStopPolicy.Evaluate. */
  function Evaluate(policy: Policy, previous: nat, o: Observation): Result<Decision> {
    if policy.mode.Manual? then Ok(Decision(false, 0))
    else if o.runtime == "" || o.freshAfter == 0 then Err("Runtime ID and freshness threshold are required")
    else if o.snapshot.None? then Ok(Decision(false, 0))
    else
      var a := o.snapshot.value;
      if !ValidActivity(a) then Err("Activity Snapshot is invalid")
      else if a.runtime != o.runtime || a.sequence <= previous || a.observedAt < o.freshAfter then
        Ok(Decision(false, a.sequence))
      else if UnknownConflict in o.conflicts then Err("unknown conflict")
      else Ok(Decision(o.conflicts == [] && Idle(policy.mode, a), a.sequence))
  }

  /** restoreAutoStopPolicy. */
  function RestorePolicy(environment: string, o: Observation): Result<Policy> {
    if environment == "" || o.runtime == "" || o.policyGeneration == 0 then
      Err("Environment, Runtime, and policy generation are required")
    else if o.policy.environment != environment then Err("Policy belongs to another Environment")
    else if !ValidPolicy(o.policy) then Err("Policy is invalid")
    else Ok(o.policy)
  }

  function EvaluateFor(s: State, o: Observation): Result<Decision> {
    match RestorePolicy(s.environment, o)
    case Err(e) => Err(e)
    case Ok(policy) => Evaluate(policy, s.lastSequence, o)
  }

  predicate CoordinationChanged(s: State, o: Observation) {
    s.runtime != o.runtime || s.policyId != o.policy.id || s.mode != o.policy.mode ||
    s.graceSeconds != o.policy.graceSeconds || s.policyGeneration != o.policyGeneration
  }

  // --------------------------------------------------------- the coordinator

  /** A uint64 counter. */
  function Next(generation: nat): nat {
    (generation + 1) % GENERATIONS
  }

  /** A pending timer is disowned by moving the generation on. */
  function Disarm(s: State): State {
    s.(timerGeneration := if s.timerPending then Next(s.timerGeneration) else s.timerGeneration,
       timerPending := false, graceStartedAt := 0, graceStart := None)
  }

  function Suppress(s: State, runtime: string): Result<Transition> {
    if s.environment == "" || runtime == "" then Err("Environment and Runtime are required")
    else Ok(Transition(Disarm(s).(suppressed := runtime), None, None, s.timerPending))
  }

  function Resume(s: State, runtime: string): Result<Transition> {
    if s.environment == "" || runtime == "" then Err("Environment and Runtime are required")
    else
      var next := if s.suppressed == runtime then s.(suppressed := "", dispatched := 0) else s;
      Ok(Transition(next, None, None, false))
  }

  /** The state an observation of another Runtime, policy or policy generation starts from. */
  function Adopt(s: State, o: Observation): State {
    Disarm(s).(
      runtime := o.runtime, policyId := o.policy.id, mode := o.policy.mode,
      graceSeconds := o.policy.graceSeconds, policyGeneration := o.policyGeneration,
      lastSequence := 0, dispatched := 0,
      suppressed := if s.runtime != o.runtime then "" else s.suppressed)
  }

  function Observe(s: State, o: Observation): Result<Transition> {
    if RestorePolicy(s.environment, o).Err? then Err("invalid observation")
    else
      var changed := CoordinationChanged(s, o);
      var base := if changed then Adopt(s, o) else s;
      var cancelled := changed && s.timerPending;
      if base.suppressed == o.runtime then
        Ok(Transition(if base.timerPending then Disarm(base) else base, None, None, cancelled || base.timerPending))
      else
        match EvaluateFor(base, o)
        case Err(e) => Err(e)
        case Ok(decision) =>
          var seen := base.(lastSequence := if decision.sequence > base.lastSequence then decision.sequence else base.lastSequence);
          if !decision.qualifies then
            Ok(Transition(if seen.timerPending then Disarm(seen) else seen, None, None, cancelled || seen.timerPending))
          else if seen.timerPending || (seen.dispatched != 0 && seen.dispatched == seen.timerGeneration) then
            Ok(Transition(seen, None, None, cancelled))
          else if o.snapshot.Some? && o.processedAt == 0 then Err("processing time is required")
          else Ok(Arm(seen, o, cancelled))
  }

  function Arm(s: State, o: Observation, cancelled: bool): Transition {
    var generation := Next(s.timerGeneration);
    var armed := s.(timerGeneration := generation, timerPending := true);
    var next := if o.snapshot.Some? then armed.(graceStartedAt := o.processedAt, graceStart := o.snapshot) else armed;
    Transition(next, Some(Timer(o.runtime, generation, o.policy.graceSeconds * SECOND)), None, cancelled)
  }

  /** The state already recognises this timer as the one it armed last. */
  predicate Current(s: State, t: Timer) {
    s.timerPending && s.runtime == t.runtime && s.timerGeneration == t.generation
  }

  function Expire(s: State, t: Timer, o: Observation): Result<Transition> {
    if !Current(s, t) then Ok(Transition(s, None, None, false))
    else if CoordinationChanged(s, o) then
      match Observe(s, o)
      case Err(e) => Err(e)
      case Ok(transition) => Ok(transition.(cancelled := true))
    else
      match EvaluateFor(s, o)
      case Err(e) => Err(e)
      case Ok(decision) =>
        var next := s.(
          timerPending := false,
          lastSequence := if decision.sequence > s.lastSequence then decision.sequence else s.lastSequence);
        if !decision.qualifies then
          Ok(Transition(next.(graceStartedAt := 0, graceStart := None), None, None, false))
        else if s.graceStart.None? || o.snapshot.None? || s.graceStartedAt == 0 then
          Err("qualifying grace evidence is required")
        else
          Ok(Transition(next.(dispatched := t.generation), None, Some(StopFor(s, t, o)), false))
  }

  function StopFor(s: State, t: Timer, o: Observation): StopRequest
    requires s.graceStart.Some? && o.snapshot.Some?
  {
    StopRequest(s.environment, s.runtime, StopKey(s.environment, s.runtime, t.generation),
      Evidence(o.policy, o.policyGeneration, [s.graceStart.value, o.snapshot.value],
               s.graceStartedAt, o.snapshot.value.observedAt, s.graceSeconds))
  }

  function StopKey(environment: string, runtime: string, generation: nat): string {
    "system:runtime.stop:auto_stop:" + environment + ":" + runtime + ":" + FormatNat(generation)
  }

  /** abandonAutoStopRuntime: the Runtime or its Environment is gone. */
  function Abandon(s: State): Transition {
    Transition(
      Disarm(s).(runtime := "", policyId := "", mode := Unset, graceSeconds := 0, policyGeneration := 0,
                 lastSequence := 0, dispatched := 0, suppressed := ""),
      None, None, s.timerPending)
  }

  /** validateRuntimeStopAudit for an automatic stop of this Environment and Runtime. */
  predicate AuditAccepts(environment: string, runtime: string, e: Evidence) {
    && e.policy.environment == environment && e.policyGeneration != 0
    && e.startedAt != 0 && e.startedAt <= e.expiredAt
    && e.graceSeconds == e.policy.graceSeconds
    && |e.snapshots| == 2
    && forall i :: 0 <= i < 2 ==>
         e.snapshots[i].runtime == runtime && e.snapshots[i].sequence != 0 && e.snapshots[i].observedAt != 0
  }

  lemma ObserveNeverStops(s: State, o: Observation)
    ensures Observe(s, o).Ok? ==> Observe(s, o).value.stop.None?
  {
    hide EvaluateFor, RestorePolicy;
  }

  /** The key names exactly the Runtime and the generation. */
  lemma StopKeysDistinct(environment: string, r1: string, g1: nat, r2: string, g2: nat)
    ensures StopKey(environment, r1, g1) == StopKey(environment, r2, g2) <==> r1 == r2 && g1 == g2
  {
    var head := "system:runtime.stop:auto_stop:" + environment + ":";
    var k1, k2 := StopKey(environment, r1, g1), StopKey(environment, r2, g2);
    assert k1 == (head + r1) + [':'] + FormatNat(g1);
    assert k2 == (head + r2) + [':'] + FormatNat(g2);
    if k1 == k2 {
      LastFieldUnique(head + r1, FormatNat(g1), head + r2, FormatNat(g2), ':');
      FormatNatInjective(g1, g2);
      assert k1[|head|..|head + r1|] == r1 && k2[|head|..|head + r2|] == r2;
    }
  }

  // --------------------------------------------------- what suppression covers

  /** Suppressing a Runtime keeps every later observation of it from arming a timer
      exactly when that Runtime is the one already coordinated: the first observation
      of any other Runtime clears the suppression. */
  lemma SuppressionHoldsIffCoordinated(s: State, runtime: string)
    requires s.environment != "" && runtime != ""
    ensures (forall o: Observation :: o.runtime == runtime && Observe(Suppress(s, runtime).value.state, o).Ok? ==>
               Observe(Suppress(s, runtime).value.state, o).value.timer.None?)
            <==> s.runtime == runtime
  {
    if s.runtime != runtime {
      var idle := Activity(runtime, 1, 1, 0, 0, 0, 0, 0, 0, 0);
      var o := Observation(runtime, Policy("policy", s.environment, WhenFullyIdle, 60), 1, 1, 1, Some(idle), []);
      assert Observe(Suppress(s, runtime).value.state, o).value.timer.Some?;
    }
  }

  /** An input that shows it: the stop workflow suppresses a Runtime the coordinator has
      not seen yet, and the Runtime's next idle snapshot arms a timer all the same. */
  lemma EarlySuppressionIsForgotten() returns (s: State, o: Observation)
    ensures Suppress(s, "runtime").Ok? && o.runtime == "runtime"
    ensures Observe(Suppress(s, "runtime").value.state, o).Ok?
    ensures Observe(Suppress(s, "runtime").value.state, o).value.timer.Some?
  {
    s := State("environment", "", "", Unset, 0, 0, 0, false, 0, 0, "", 0, None);
    var idle := Activity("runtime", 1, 1, 0, 0, 0, 0, 0, 0, 0);
    o := Observation("runtime", Policy("policy", "environment", WhenFullyIdle, 60), 1, 1, 1, Some(idle), []);
  }
}
