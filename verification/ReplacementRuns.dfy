/** The replacement workflow itself, and the contract that makes its volume single-writer. */
module ReplacementRuns {
  import opened Text
  import opened DeadlinePoll
  import opened Replacement

  // What the waits come to

  function Script(answers: seq<Timed<Reply>>): seq<Answer<Sighting>> {
    seq(|answers|, i requires 0 <= i < |answers| => AsAnswer(answers[i]))
  }

  function Evaluation(prior: Request, expected: State, waiting: set<State>): (Sighting, int) -> (Sighting, bool) {
    (s: Sighting, t: int) => Judge(s, prior, expected, waiting)
  }

  function Restamp(): (Sighting, int) -> Sighting {
    (s: Sighting, at: int) => s.(observedAt := at)
  }

  function WaitConfig(startedAt: int, timing: Timing): Config {
    Config(startedAt, Positive(timing.timeout, DEFAULT_POLL_TIMEOUT),
           Positive(timing.interval, DEFAULT_POLL_INTERVAL), MAX_POLL_DELAY)
  }

  ghost function PollOf(prior: Request, initial: Sighting, expected: State, waiting: set<State>, timing: Timing,
                        answers: seq<Timed<Reply>>): Run<Sighting> {
    Settled(Some(Observation(initial, initial.observedAt)), WaitConfig(initial.observedAt, timing), 0,
            Script(answers), Evaluation(prior, expected, waiting), Restamp())
  }

  /** waitForProviderState reaches the expected state: the first point at which a sighting is
      accepted comes before the deadline, and it is not a failure. */
  ghost function Awaited(prior: Request, initial: Sighting, expected: State, waiting: set<State>, timing: Timing,
                         answers: seq<Timed<Reply>>): Option<Sighting> {
    var run := PollOf(prior, initial, expected, waiting, timing, answers);
    if initial.observedAt != 0 && exists n: nat :: Accepts(run, n) then
      var n: nat :| Accepts(run, n);
      if run.Held(n).value.failure == "" then run.Held(n) else None
    else None
  }

  ghost predicate Accepts<T>(run: Run<T>, n: nat) {
    run.Reaches(n) && run.Done(n)
  }

  function VolumeScript(answers: seq<Timed<Look>>): seq<Answer<VolumeSighting>> {
    seq(|answers|, i requires 0 <= i < |answers| => AsVolumeAnswer(answers[i]))
  }

  function VolumeEvaluation(prior: Request): (VolumeSighting, int) -> (VolumeSighting, bool) {
    (v: VolumeSighting, t: int) => JudgeVolume(v, prior)
  }

  function KeepLook(): (VolumeSighting, int) -> VolumeSighting {
    (v: VolumeSighting, at: int) => v
  }

  ghost function VolumePollOf(prior: Request, timing: Timing, clock: int, answers: seq<Timed<Look>>): Run<VolumeSighting> {
    Settled(None, WaitConfig(0, timing), clock, VolumeScript(answers), VolumeEvaluation(prior), KeepLook())
  }

  ghost predicate Detaches(prior: Request, timing: Timing, clock: int, answers: seq<Timed<Look>>) {
    var run := VolumePollOf(prior, timing, clock, answers);
    clock != 0 && exists n: nat :: Accepts(run, n) && run.Held(n).value.failure == ""
  }

  /** The last event is the answer the sighting was made from. */
  predicate Shows(trace: seq<Event>, s: Sighting) {
    && trace != []
    && var e := trace[|trace| - 1];
    && e.Provider? && e.call in {Observe, Stop, Retire} && s == Stamped(e.reply, e.at)
  }

  lemma AcceptsOnce<T>(run: Run<T>, outcome: Outcome<T>, taken: nat)
    requires EndsRight(run, outcome, taken)
    ensures forall n: nat :: Accepts(run, n) <==> outcome.Finished? && !outcome.timedOut && n == taken
    ensures outcome.Finished? && !outcome.timedOut ==> outcome.value == run.Held(taken) && run.Held(taken).Some?
  {
    forall n: nat | Accepts(run, n)
      ensures outcome.Finished? && !outcome.timedOut && n == taken
    {
      EndsOnce(run, outcome, taken, n);
    }
  }

  lemma WaitDecided(prior: Request, initial: Sighting, expected: State, waiting: set<State>, timing: Timing,
                    answers: seq<Timed<Reply>>, outcome: Outcome<Sighting>, taken: nat)
    requires initial.observedAt != 0
    requires EndsRight(PollOf(prior, initial, expected, waiting, timing, answers), outcome, taken)
    ensures match Awaited(prior, initial, expected, waiting, timing, answers)
            case None => outcome.Finished? && !outcome.timedOut ==> outcome.value.Some? && outcome.value.value.failure != ""
            case Some(s) =>
              && outcome.Finished? && !outcome.timedOut && outcome.value == Some(s) && s.failure == ""
              && Accepts(PollOf(prior, initial, expected, waiting, timing, answers), taken)
              && PollOf(prior, initial, expected, waiting, timing, answers).Held(taken) == Some(s)
  {
    hide EndsRight, Accepts, PollOf, Run.Held;
    var run := PollOf(prior, initial, expected, waiting, timing, answers);
    AcceptsOnce(run, outcome, taken);
    if outcome.Finished? && !outcome.timedOut {
      assert Accepts(run, taken);
    }
  }

  lemma {:induction false} AwaitedWasSeen(prior: Request, initial: Sighting, expected: State, waiting: set<State>, timing: Timing,
                       answers: seq<Timed<Reply>>, n: nat)
    requires initial.failure == "" && !initial.retryable
    requires Accepts(PollOf(prior, initial, expected, waiting, timing, answers), n)
    requires PollOf(prior, initial, expected, waiting, timing, answers).Held(n).Some?
    requires PollOf(prior, initial, expected, waiting, timing, answers).Held(n).value.failure == ""
    ensures var s := PollOf(prior, initial, expected, waiting, timing, answers).Held(n).value;
            && s.compute.Some? && Matches(s.compute.value, prior) && s.compute.value.state == expected
            && if n == 0 then s == initial
               else n <= |answers| && answers[n - 1].Timed? && s == Stamped(answers[n - 1].reply, answers[n - 1].at)
  {
    hide Matches;
    var run := PollOf(prior, initial, expected, waiting, timing, answers);
    assert forall k :: 0 <= k < |answers| ==> run.answers[k] == AsAnswer(answers[k]);
    var v := AcceptedWasEvaluated(run, n);
    hide Run.Reaches, Run.Done, Run.Held;
    assert Judge(v, prior, expected, waiting) == (run.Held(n).value, true);
  }

  /** An awaited sighting is the last event of the trace once the wait is logged. */
  lemma AwaitedShows(trace: seq<Event>, prior: Request, initial: Sighting, expected: State, waiting: set<State>,
                     timing: Timing, answers: seq<Timed<Reply>>, n: nat, s: Sighting)
    requires Shows(trace, initial) && initial.failure == "" && !initial.retryable
    requires Accepts(PollOf(prior, initial, expected, waiting, timing, answers), n) && n <= |answers|
    requires PollOf(prior, initial, expected, waiting, timing, answers).Held(n) == Some(s) && s.failure == ""
    ensures s.compute.Some? && s.compute.value.state == expected
    ensures s.compute.value.spec == prior.spec && s.compute.value.providerId == prior.providerId
    ensures var longer := trace + Logged(answers, n);
            Shows(longer, s) && Sees(longer[|longer| - 1], prior, {expected})
  {
    hide Accepts, PollOf, Run.Held;
    AwaitedWasSeen(prior, initial, expected, waiting, timing, answers, n);
    var longer := trace + Logged(answers, n);
    if n == 0 {
      assert longer == trace;
    } else {
      assert longer[|longer| - 1] == Provider(Observe, answers[n - 1].reply, answers[n - 1].at);
    }
  }

  /** A successful answer with the old compute's identity. */
  function Confirmed(answer: Timed<Reply>, prior: Request): Option<Sighting> {
    if answer.Timed? && answer.reply.Found? && Matches(answer.reply.compute, prior)
    then Some(Stamped(answer.reply, answer.at)) else None
  }

  /** The sighting that ends step 2, if it ends well. */
  ghost function StoppedSighting(prior: Request, timing: Timing, w: World): Option<Sighting> {
    match Confirmed(w.first, prior)
    case None => None
    case Some(first) =>
      var state := first.compute.value.state;
      if state in {Stopped, Terminated} then Some(first)
      else if state == Stopping then Awaited(prior, first, Stopped, {Stopping, Running}, timing, w.whileStopping)
      else if state == Running || (state == Pending && Awaited(prior, first, Running, {Pending}, timing, w.whilePending).Some?) then
        match Confirmed(w.stop, prior)
        case None => None
        case Some(stopped) => Awaited(prior, stopped, Stopped, {Stopping, Running}, timing, w.whileStopping)
      else None
  }

  lemma LastIs(trace: seq<Event>, prior: Request, s: Sighting, state: State)
    requires Shows(trace, s) && Sees(trace[|trace| - 1], prior, {state})
    ensures s.compute.Some? && s.compute.value.state == state
    ensures Sees(trace[|trace| - 1], prior, {s.compute.value.state})
  {
  }

  lemma JustifiedStop(trace: seq<Event>, prior: Request)
    requires trace != [] && Sees(trace[|trace| - 1], prior, {Running})
    ensures Justified(trace + [Issued(Stop)], |trace|, prior)
  {
  }

  ghost predicate SettlesOld(w: World, s: Sighting, metered: bool) {
    && (w.first.Timed? && w.first.reply.Found? && w.first.reply.compute.state == Running ==> metered)
    && (metered ==> s.observedAt != 0 && w.usageCloses)
    && w.volumeVerifies
  }

  ghost function RetiredSighting(prior: Request, timing: Timing, w: World, s: Sighting): Option<Sighting>
    requires s.compute.Some?
  {
    if s.compute.value.state == Terminated then Some(s)
    else
      match Confirmed(w.retire, prior)
      case None => None
      case Some(retiring) => Awaited(prior, retiring, Terminated, {Stopping, Stopped}, timing, w.whileRetiring)
  }

  predicate ValidAttachment(c: Compute, request: Request) {
    Matches(c, request) && !Blank(c.provider) && !Blank(c.systemVolume) && c.state in {Pending, Running}
  }

  /** The new compute was allocated as asked and noted. */
  predicate Provides(w: World, spec: Spec) {
    && w.ensure.Timed? && w.ensure.reply.Found?
    && (var c := w.ensure.reply.compute;
        c.spec == spec && c.provider != "" && c.providerId != "" && c.state in {Pending, Running})
    && w.provisions
  }

  predicate Admits(w: World, spec: Spec) {
    && w.reserves && Provides(w, spec)
    && w.attach.Timed? && w.attach.reply.Found?
    && ValidAttachment(w.attach.reply.compute, Request(spec, w.ensure.reply.compute.providerId))
  }

  /** Every gate of the workflow, in order. */
  ghost predicate Favourable(prior: Request, timing: Timing, w: World, metered: bool, spec: Spec) {
    && StoppedSighting(prior, timing, w).Some?
    && (var s := StoppedSighting(prior, timing, w).value;
        && s.compute.Some? && SettlesOld(w, s, metered) && RetiredSighting(prior, timing, w, s).Some?)
    && Detaches(prior, timing, w.clock, w.whileAttached)
    && Admits(w, spec)
  }

  // Justifications

  lemma JustifiedClose(trace: seq<Event>, prior: Request, s: Sighting)
    requires Shows(trace, s) && Sees(trace[|trace| - 1], prior, {Stopped, Terminated})
    ensures Justified(trace + [UsageClosed(s.observedAt)], |trace|, prior)
  {
  }

  lemma SeenFromSighting(before: seq<Event>, trace: seq<Event>, prior: Request, s: Sighting)
    requires before <= trace && Shows(before, s) && s.compute.Some?
    requires Sees(before[|before| - 1], prior, {s.compute.value.state})
    ensures SeenBefore(trace, |trace|, prior, {s.compute.value.state})
  {
  }

  lemma JustifiedVerify(trace: seq<Event>, prior: Request, state: State)
    requires SeenBefore(trace, |trace|, prior, {state}) && state in {Stopped, Terminated}
    ensures Justified(trace + [VolumeVerified], |trace|, prior)
  {
    var j :| 0 <= j < |trace| && Sees(trace[j], prior, {state});
    assert (trace + [VolumeVerified])[j] == trace[j];
  }

  lemma JustifiedRetire(trace: seq<Event>, prior: Request)
    requires SeenBefore(trace, |trace|, prior, {Stopped}) && VolumeVerified in trace
    ensures Justified(trace + [Issued(Retire)], |trace|, prior)
  {
    var longer := trace + [Issued(Retire)];
    var j :| 0 <= j < |trace| && Sees(trace[j], prior, {Stopped});
    assert longer[j] == trace[j] && longer[..|trace|] == trace;
  }

  lemma JustifiedLooks(trace: seq<Event>, prior: Request, answers: seq<Timed<Look>>, n: nat)
    requires Safe(trace, prior) && SeenBefore(trace, |trace|, prior, {Terminated}) && n <= |answers|
    ensures Safe(trace + LoggedLooks(answers, n), prior)
  {
    var more := LoggedLooks(answers, n);
    var j :| 0 <= j < |trace| && Sees(trace[j], prior, {Terminated});
    assert (trace + more)[j] == trace[j];
    SafeExtends(trace, more, prior);
  }

  lemma DetachmentDecided(prior: Request, timing: Timing, clock: int, answers: seq<Timed<Look>>,
                          outcome: Outcome<VolumeSighting>, taken: nat)
    requires clock != 0 && EndsRight(VolumePollOf(prior, timing, clock, answers), outcome, taken)
    ensures outcome.Finished? && !outcome.timedOut ==>
              && outcome.value.Some? && outcome.value == VolumePollOf(prior, timing, clock, answers).Held(taken)
              && Accepts(VolumePollOf(prior, timing, clock, answers), taken)
    ensures Detaches(prior, timing, clock, answers) <==>
              outcome.Finished? && !outcome.timedOut && outcome.value.value.failure == ""
  {
    hide EndsRight, Accepts, VolumePollOf, Run.Held;
    var run := VolumePollOf(prior, timing, clock, answers);
    AcceptsOnce(run, outcome, taken);
    if outcome.Finished? && !outcome.timedOut {
      assert Accepts(run, taken);
    }
  }

  lemma {:induction false} DetachmentSeen(trace: seq<Event>, prior: Request, timing: Timing, clock: int, answers: seq<Timed<Look>>, n: nat)
    requires SeenBefore(trace, |trace|, prior, {Terminated}) && n <= |answers|
    requires Accepts(VolumePollOf(prior, timing, clock, answers), n)
    requires VolumePollOf(prior, timing, clock, answers).Held(n).Some?
    requires VolumePollOf(prior, timing, clock, answers).Held(n).value.failure == ""
    ensures var longer := trace + LoggedLooks(answers, n); OldWriterGone(longer, |longer|, prior)
  {
    var run := VolumePollOf(prior, timing, clock, answers);
    assert forall k :: 0 <= k < |answers| ==> run.answers[k] == AsVolumeAnswer(answers[k]);
    var v := AcceptedWasEvaluated(run, n);
    hide Run.Reaches, Run.Done, Run.Held;
    assert JudgeVolume(v, prior) == (run.Held(n).value, true);
    var longer := trace + LoggedLooks(answers, n);
    var j :| 0 <= j < |trace| && Sees(trace[j], prior, {Terminated});
    assert longer[j] == trace[j] && longer[|longer| - 1] == VolumeObserved(answers[n - 1].reply);
  }

  lemma JustifiedAfterWriter(trace: seq<Event>, prior: Request, e: Event)
    requires OldWriterGone(trace, |trace|, prior) && (e.Reserved? || (e.Issued? && e.call in {Ensure, Attach}))
    ensures Justified(trace + [e], |trace|, prior) && OldWriterGone(trace + [e], |trace + [e]|, prior)
  {
    var j, k :| 0 <= j < k < |trace| && Sees(trace[j], prior, {Terminated}) && SeesDetached(trace[k], prior);
    assert (trace + [e])[j] == trace[j] && (trace + [e])[k] == trace[k];
  }

  lemma WriterStaysGone(trace: seq<Event>, prior: Request, e: Event)
    requires OldWriterGone(trace, |trace|, prior)
    ensures OldWriterGone(trace + [e], |trace + [e]|, prior)
  {
    var j, k :| 0 <= j < k < |trace| && Sees(trace[j], prior, {Terminated}) && SeesDetached(trace[k], prior);
    assert (trace + [e])[j] == trace[j] && (trace + [e])[k] == trace[k];
  }

  /** The trace grew by the answers to the first reads of a wait. */
  ghost predicate Appends(before: seq<Event>, trace: seq<Event>, answers: seq<Timed<Reply>>) {
    exists n: nat :: n <= |answers| && trace == before + Logged(answers, n)
  }

  lemma StaysIn(before: seq<Event>, trace: seq<Event>)
    requires before <= trace
    ensures forall e <- before :: e in trace
  {
    forall e <- before
      ensures e in trace
    {
      var j :| 0 <= j < |before| && before[j] == e;
      assert trace[j] == e;
    }
  }

  class Workflow {
    const prior: Request
    const timing: Timing
    var trace: seq<Event>

    constructor (prior: Request, timing: Timing)
      ensures trace == [] && this.prior == prior && this.timing == timing
    {
      this.prior, this.timing, trace := prior, timing, [];
    }

    /** One event of the trace. */
    method Perform(event: Event)
      requires Safe(trace, prior) && Justified(trace + [event], |trace|, prior)
      modifies this
      ensures trace == old(trace) + [event] && Safe(trace, prior)
    {
      SafeExtends(trace, [event], prior);
      trace := trace + [event];
    }

    /** waitForProviderState for the old compute. */
    method WaitForState(initial: Sighting, expected: State, waiting: set<State>, answers: seq<Timed<Reply>>)
      returns (w: Wait)
      requires Safe(trace, prior) && Shows(trace, initial) && initial.failure == "" && !initial.retryable
      modifies this
      ensures old(trace) <= trace && Safe(trace, prior)
      ensures Appends(old(trace), trace, answers)
      ensures match Awaited(prior, initial, expected, waiting, timing, answers)
              case None => !w.Reached?
              case Some(s) => w == Reached(s)
      ensures w.Reached? ==>
                && w.sighting.failure == "" && w.sighting.compute.Some?
                && Shows(trace, w.sighting) && Sees(trace[|trace| - 1], prior, {expected})
      ensures w.Reached? ==>
                && w.sighting.compute.value.spec == prior.spec
                && w.sighting.compute.value.providerId == prior.providerId
                && w.sighting.compute.value.state == expected
    {
      if initial.observedAt == 0 {
        assert trace == old(trace) + Logged(answers, 0);
        return Ended("Runtime provider observation time is required");
      }
      hide Judge, Stamped, EndsRight, SleepsFit, FewSleeps, Awaited, Accepts, PollOf, Shows, Sees, Run.Held, Logged;
      var outcome, taken, sleeps :=
        Poll(Some(Observation(initial, initial.observedAt)), WaitConfig(initial.observedAt, timing), 0,
             Script(answers), Evaluation(prior, expected, waiting), Restamp());
      WaitDecided(prior, initial, expected, waiting, timing, answers, outcome, taken);
      if Awaited(prior, initial, expected, waiting, timing, answers).Some? {
        AwaitedShows(trace, prior, initial, expected, waiting, timing, answers, taken, outcome.value.value);
      }
      SafeExtends(trace, Logged(answers, taken), prior);
      trace := trace + Logged(answers, taken);
      match outcome
      case Failed(_) => w := Cancelled;
      case Unfinished => w := Cancelled;
      case Finished(value, _, _, timedOut) =>
        if timedOut {
          w := Ended("provider did not reach the state before the deadline");
        } else if value.value.failure != "" {
          w := Ended(value.value.failure);
        } else {
          w := Reached(value.value);
        }
    }

    /** A single call about the old compute. */
    method CallOld(call: Call, answer: Timed<Reply>) returns (r: Wait)
      requires call in {Observe, Stop, Retire} && Safe(trace, prior)
      requires Justified(trace + [Issued(call)], |trace|, prior)
      modifies this
      ensures old(trace) + [Issued(call)] <= trace && Safe(trace, prior)
      ensures match Confirmed(answer, prior) case None => !r.Reached? case Some(s) => r == Reached(s)
      ensures r.Reached? ==>
                && Shows(trace, r.sighting) && Sees(trace[|trace| - 1], prior, {r.sighting.compute.value.state})
                && r.sighting.compute.value.spec == prior.spec
                && r.sighting.compute.value.providerId == prior.providerId
    {
      Perform(Issued(call));
      if answer.Lost? || answer.reply.Transient? {
        return Cancelled;
      }
      Perform(Provider(call, answer.reply, answer.at));
      var s := Stamped(answer.reply, answer.at);
      if s.failure != "" {
        return Ended(s.failure);
      }
      if !Matches(s.compute.value, prior) {
        return Ended("Runtime provider observation identity diverged");
      }
      r := Reached(s);
    }

    /** Step 2: observe first, and stop the old compute only if it was seen running. */
    method StopOld(w: World) returns (r: Wait)
      requires trace == []
      modifies this
      ensures Safe(trace, prior)
      ensures match StoppedSighting(prior, timing, w) case None => !r.Reached? case Some(s) => r == Reached(s)
      ensures r.Reached? ==>
                && r.sighting.compute.Some?
                && Shows(trace, r.sighting) && Sees(trace[|trace| - 1], prior, {r.sighting.compute.value.state})
                && r.sighting.compute.value.state in {Stopped, Terminated}
      ensures r.Reached? ==>
                && r.sighting.compute.value.spec == prior.spec
                && r.sighting.compute.value.providerId == prior.providerId
                && w.first.Timed? && w.first.reply.Found?
                && (r.sighting.compute.value.state == Terminated <==> w.first.reply.compute.state == Terminated)
      ensures r.Reached? && w.first.reply.compute.state in {Pending, Running} ==> Issued(Stop) in trace
    {
      hide Awaited, Sees, Shows, Appends, Logged, Matches, Justified, Safe, SeenBefore;
      r := CallOld(Observe, w.first);
      if !r.Reached? {
        return;
      }
      if r.sighting.compute.value.state == Pending {
        r := WaitForState(r.sighting, Running, {Pending}, w.whilePending);
        if !r.Reached? {
          return;
        }
        LastIs(trace, prior, r.sighting, Running);
      }
      var state := r.sighting.compute.value.state;
      if state != Stopped && state != Terminated {
        if state != Running && state != Stopping {
          return Ended("Runtime provider state cannot be replaced");
        }
        if state == Running {
          JustifiedStop(trace, prior);
          r := CallOld(Stop, w.stop);
          if !r.Reached? {
            return;
          }
        }
        ghost var asked := trace;
        r := WaitForState(r.sighting, Stopped, {Stopping, Running}, w.whileStopping);
        if r.Reached? {
          LastIs(trace, prior, r.sighting, Stopped);
          StaysIn(asked, trace);
        }
      }
    }

    /** Usage is closed at the time of the sighting that found the compute gone; the volume is
        verified before anything is retired. */
    method SettleOld(w: World, s: Sighting, metered: bool) returns (ok: bool)
      requires Safe(trace, prior) && Shows(trace, s) && s.compute.Some?
      requires Sees(trace[|trace| - 1], prior, {s.compute.value.state}) && s.compute.value.state in {Stopped, Terminated}
      modifies this
      ensures Safe(trace, prior) && old(trace) <= trace
      ensures ok <==> SettlesOld(w, s, metered)
      ensures ok ==> SeenBefore(trace, |trace|, prior, {s.compute.value.state}) && VolumeVerified in trace
      ensures ok && metered ==> UsageClosed(s.observedAt) in trace
    {
      if w.first.Timed? && w.first.reply.Found? && w.first.reply.compute.state == Running && !metered {
        return false;
      }
      if metered {
        if s.observedAt == 0 {
          return false;
        }
        JustifiedClose(trace, prior, s);
        Perform(UsageClosed(s.observedAt));
        if !w.usageCloses {
          return false;
        }
      }
      if !w.volumeVerifies {
        return false;
      }
      SeenFromSighting(old(trace), trace, prior, s);
      JustifiedVerify(trace, prior, s.compute.value.state);
      SeenStays(trace, [VolumeVerified], prior, {s.compute.value.state});
      Perform(VolumeVerified);
      assert trace[|trace| - 1] == VolumeVerified;
      ok := true;
    }

    /** Step 4: retire a stopped compute and wait until it is terminated. */
    method RetireOld(w: World, s: Sighting) returns (r: Wait)
      requires Safe(trace, prior) && s.compute.Some? && s.compute.value.state in {Stopped, Terminated}
      requires SeenBefore(trace, |trace|, prior, {s.compute.value.state}) && VolumeVerified in trace
      modifies this
      ensures Safe(trace, prior) && old(trace) <= trace
      ensures match RetiredSighting(prior, timing, w, s) case None => !r.Reached? case Some(t) => r == Reached(t)
      ensures r.Reached? ==> SeenBefore(trace, |trace|, prior, {Terminated})
      ensures r.Reached? && s.compute.value.state == Stopped ==>
                && Issued(Retire) in trace && r.sighting.compute.Some?
                && r.sighting.compute.value.spec == prior.spec
                && r.sighting.compute.value.providerId == prior.providerId
                && r.sighting.compute.value.state == Terminated
    {
      hide Awaited, Sees, Shows, Appends, Logged, Matches, Justified, Safe;
      if s.compute.value.state == Terminated {
        return Reached(s);
      }
      JustifiedRetire(trace, prior);
      r := CallOld(Retire, w.retire);
      if !r.Reached? {
        return;
      }
      ghost var asked := trace;
      r := WaitForState(r.sighting, Terminated, {Stopping, Stopped}, w.whileRetiring);
      if r.Reached? {
        StaysIn(asked, trace);
        LastIs(trace, prior, r.sighting, Terminated);
        assert SeenBefore(trace, |trace|, prior, {Terminated});
      }
    }

    /** waitForOldDataVolumeDetachment. */
    method AwaitDetachment(w: World) returns (ok: bool)
      requires Safe(trace, prior) && SeenBefore(trace, |trace|, prior, {Terminated})
      modifies this
      ensures Safe(trace, prior) && old(trace) <= trace
      ensures exists n: nat :: n <= |w.whileAttached| && trace == old(trace) + LoggedLooks(w.whileAttached, n)
      ensures ok <==> Detaches(prior, timing, w.clock, w.whileAttached)
      ensures ok ==> OldWriterGone(trace, |trace|, prior)
    {
      if w.clock == 0 {
        assert trace == old(trace) + LoggedLooks(w.whileAttached, 0);
        return false;
      }
      hide JudgeVolume, EndsRight, SleepsFit, FewSleeps, Accepts, VolumePollOf, Run.Held, LoggedLooks, OldWriterGone;
      var outcome, taken, sleeps :=
        Poll(None, WaitConfig(0, timing), w.clock, VolumeScript(w.whileAttached), VolumeEvaluation(prior), KeepLook());
      DetachmentDecided(prior, timing, w.clock, w.whileAttached, outcome, taken);
      JustifiedLooks(trace, prior, w.whileAttached, taken);
      ok := outcome.Finished? && !outcome.timedOut && outcome.value.value.failure == "";
      if ok {
        DetachmentSeen(trace, prior, timing, w.clock, w.whileAttached, taken);
      }
      trace := trace + LoggedLooks(w.whileAttached, taken);
    }

    /** A single call that makes a new writer; false when no final answer came. */
    method CallNew(call: Call, answer: Timed<Reply>) returns (answered: bool)
      requires call in {Ensure, Attach} && Safe(trace, prior) && OldWriterGone(trace, |trace|, prior)
      modifies this
      ensures Safe(trace, prior) && OldWriterGone(trace, |trace|, prior)
      ensures answered <==> answer.Timed? && !answer.reply.Transient?
      ensures trace == old(trace) + [Issued(call)] + (if answered then [Provider(call, answer.reply, answer.at)] else [])
    {
      hide OldWriterGone, Safe;
      JustifiedAfterWriter(trace, prior, Issued(call));
      Perform(Issued(call));
      if answer.Lost? || answer.reply.Transient? {
        return false;
      }
      var answering := Provider(call, answer.reply, answer.at);
      WriterStaysGone(trace, prior, answering);
      Perform(answering);
      answered := true;
    }

    /** Steps 5 and 6: reserve the new Runtime, allocate its compute, then attach the volume. */
    method AttachNew(w: World, spec: Spec) returns (v: Verdict)
      requires Safe(trace, prior) && OldWriterGone(trace, |trace|, prior)
      modifies this
      ensures Safe(trace, prior) && old(trace) <= trace
      ensures v.Attached? <==> Admits(w, spec)
      ensures Issued(Ensure) in trace[|old(trace)|..] <==> w.reserves
      ensures Issued(Attach) in trace[|old(trace)|..] <==> w.reserves && Provides(w, spec)
      ensures v.Attached? ==> trace != [] && trace[|trace| - 1] == Provider(Attach, w.attach.reply, w.attach.at)
      ensures v.Attached? ==>
                && w.ensure.Timed? && w.ensure.reply.Found? && w.attach.Timed? && w.attach.reply == Found(v.compute)
                && v.compute.spec == spec && v.compute.providerId == w.ensure.reply.compute.providerId != ""
                && !Blank(v.compute.provider) && !Blank(v.compute.systemVolume)
                && (v.compute.state == Pending || v.compute.state == Running)
    {
      hide OldWriterGone, Safe;
      JustifiedAfterWriter(trace, prior, Reserved);
      Perform(Reserved);
      if !w.reserves {
        return Refused("reservation failed");
      }
      var ensureAnswered := CallNew(Ensure, w.ensure);
      assert trace[|old(trace)|..][1] == Issued(Ensure);
      if !ensureAnswered {
        return Aborted;
      }
      if w.ensure.reply.Broken? {
        return Refused(w.ensure.reply.failure);
      }
      var ensured := w.ensure.reply.compute;
      if ensured.spec != spec || ensured.provider == "" || ensured.providerId == "" {
        return Refused("replacement Runtime provider identity diverged");
      }
      if ensured.state != Pending && ensured.state != Running {
        return Refused("replacement Runtime provider state diverged");
      }
      if !w.provisions {
        return Refused("replacement Runtime was not provisioned");
      }
      var attachAnswered := CallNew(Attach, w.attach);
      assert trace[|old(trace)|..][1] == Issued(Ensure) && trace[|old(trace)|..][3] == Issued(Attach);
      if !attachAnswered {
        return Aborted;
      }
      if w.attach.reply.Broken? {
        return Refused(w.attach.reply.failure);
      }
      var attached := w.attach.reply.compute;
      if !ValidAttachment(attached, Request(spec, ensured.providerId)) {
        return Refused("Runtime attachment identity diverged");
      }
      v := Attached(attached);
    }

    /** fulfillRuntimeReplacement up to the attachment of the data volume. Against any answers
        the trace is safe, and the volume ends up attached exactly when every gate was passed. */
    method Replace(w: World, metered: bool, spec: Spec) returns (v: Verdict)
      requires trace == []
      modifies this
      ensures Safe(trace, prior)
      ensures v.Attached? <==> Favourable(prior, timing, w, metered, spec)
      ensures v.Attached? ==> trace != [] && trace[|trace| - 1] == Provider(Attach, w.attach.reply, w.attach.at)
      ensures v.Attached? ==>
                && w.ensure.Timed? && w.ensure.reply.Found? && w.attach.Timed? && w.attach.reply == Found(v.compute)
                && v.compute.spec == spec && v.compute.providerId == w.ensure.reply.compute.providerId != ""
      ensures v.Attached? ==>
                && w.first.Timed? && w.first.reply.Found? && VolumeVerified in trace
                && (w.first.reply.compute.state in {Pending, Running} ==> Issued(Stop) in trace)
                && (w.first.reply.compute.state != Terminated ==> Issued(Retire) in trace)
                && (metered ==> exists e <- trace :: e.UsageClosed?)
    {
      hide Safe, Shows, Sees, SeenBefore, OldWriterGone, StoppedSighting, RetiredSighting, Detaches, Admits, SettlesOld;
      var stopped := StopOld(w);
      if !stopped.Reached? {
        return Refused("old compute did not stop");
      }
      ghost var atStop := trace;
      var settled := SettleOld(w, stopped.sighting, metered);
      if !settled {
        return Refused("usage or data volume not settled");
      }
      ghost var atSettlement := trace;
      var retired := RetireOld(w, stopped.sighting);
      if !retired.Reached? {
        return Refused("old compute was not retired");
      }
      ghost var atRetirement := trace;
      var detached := AwaitDetachment(w);
      if !detached {
        return Refused("old data volume was not detached");
      }
      v := AttachNew(w, spec);
      StaysIn(atStop, trace);
      StaysIn(atSettlement, trace);
      StaysIn(atRetirement, trace);
    }
  }
}
