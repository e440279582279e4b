/** Replacing a Runtime's compute: every provider call, in order, against arbitrary provider
    answers, up to the attachment of the data volume to the new compute. */
module Replacement {
  import opened Text
  import opened DeadlinePoll

  datatype State = Pending | Running | Stopping | Stopped | Terminated | Unheard

  datatype Spec = Spec(runtime: string, placement: string, image: string, volume: string)

  datatype Request = Request(spec: Spec, providerId: string)

  datatype Compute = Compute(spec: Spec, providerId: string, provider: string, systemVolume: string, state: State)

  /** A transient error of a single call is retried until the workflow is cancelled. */
  datatype Reply = Found(compute: Compute) | Broken(failure: string) | Transient

  datatype Attachment = Attachment(volume: string, holder: string, attached: bool, readWrite: bool)

  datatype Look = Seen(attachment: Attachment) | LookFailed(failure: string) | LookTransient

  /** One answer inside a poll, with the time journaled after it. */
  datatype Timed<+T> = Timed(reply: T, at: int) | Lost

  datatype Sighting = Sighting(compute: Option<Compute>, observedAt: int, retryable: bool, failure: string)

  datatype VolumeSighting = VolumeSighting(attachment: Option<Attachment>, retryable: bool, failure: string)

  datatype Call = Observe | Stop | Retire | Ensure | Attach

  /** A call is issued before anything is known of its answer; an answer that is lost or transient
      leaves only the issued call. A reservation is logged when it is asked for. */
  datatype Event =
    | Issued(call: Call)
    | Provider(call: Call, reply: Reply, at: int)
    | UsageClosed(at: int)
    | VolumeVerified
    | VolumeObserved(look: Look)
    | Reserved

  datatype Timing = Timing(interval: int, timeout: int)

  /** Everything the world answers during one replacement. */
  datatype World = World(
    first: Timed<Reply>, whilePending: seq<Timed<Reply>>,
    stop: Timed<Reply>, whileStopping: seq<Timed<Reply>>,
    usageCloses: bool, volumeVerifies: bool,
    retire: Timed<Reply>, whileRetiring: seq<Timed<Reply>>,
    clock: int, whileAttached: seq<Timed<Look>>,
    reserves: bool, ensure: Timed<Reply>, provisions: bool, attach: Timed<Reply>)

  datatype Verdict = Attached(compute: Compute) | Refused(reason: string) | Aborted

  datatype Wait = Reached(sighting: Sighting) | Ended(failure: string) | Cancelled

  const DEFAULT_POLL_INTERVAL := 5_000_000_000
  const DEFAULT_POLL_TIMEOUT := 600_000_000_000
  const MAX_POLL_DELAY := 30_000_000_000

  // What a trace shows

  predicate Matches(c: Compute, request: Request) {
    c.spec == request.spec && c.providerId == request.providerId
  }

  /** The event is an answer about the old compute, with the right identity, in one of the states. */
  predicate Sees(e: Event, prior: Request, states: set<State>) {
    && e.Provider? && e.call in {Observe, Stop, Retire}
    && e.reply.Found? && Matches(e.reply.compute, prior) && e.reply.compute.state in states
  }

  predicate SeesDetached(e: Event, prior: Request) {
    && e.VolumeObserved? && e.look.Seen?
    && e.look.attachment.volume == prior.spec.volume && !e.look.attachment.attached
  }

  ghost predicate SeenBefore(trace: seq<Event>, i: nat, prior: Request, states: set<State>)
    requires i <= |trace|
  {
    exists j :: 0 <= j < i && Sees(trace[j], prior, states)
  }

  /** The old compute was seen terminated, and later the volume was seen detached. */
  ghost predicate OldWriterGone(trace: seq<Event>, i: nat, prior: Request)
    requires i <= |trace|
  {
    exists j, k :: 0 <= j < k < i && Sees(trace[j], prior, {Terminated}) && SeesDetached(trace[k], prior)
  }

  /** What must have come before the event at one place in a trace. */
  ghost predicate Justified(trace: seq<Event>, i: nat, prior: Request)
    requires i < |trace|
  {
    match trace[i]
    case Issued(call) =>
      (match call
       case Observe => true
       case Stop => i > 0 && Sees(trace[i - 1], prior, {Running})
       case Retire => SeenBefore(trace, i, prior, {Stopped}) && VolumeVerified in trace[..i]
       case Ensure => OldWriterGone(trace, i, prior)
       case Attach => OldWriterGone(trace, i, prior))
    case Provider(call, _, _) => call.Observe? || (i > 0 && trace[i - 1] == Issued(call))
    case UsageClosed(at) => i > 0 && Sees(trace[i - 1], prior, {Stopped, Terminated}) && trace[i - 1].at == at
    case VolumeVerified => SeenBefore(trace, i, prior, {Stopped, Terminated})
    case VolumeObserved(_) => SeenBefore(trace, i, prior, {Terminated})
    case Reserved => OldWriterGone(trace, i, prior)
  }

  ghost predicate Safe(trace: seq<Event>, prior: Request) {
    forall i :: 0 <= i < |trace| ==> Justified(trace, i, prior)
  }

  lemma JustifiedStays(trace: seq<Event>, more: seq<Event>, i: nat, prior: Request)
    requires i < |trace| && Justified(trace, i, prior)
    ensures Justified(trace + more, i, prior)
  {
    var longer := trace + more;
    assert longer[..i] == trace[..i];
    assert forall j :: 0 <= j <= i ==> longer[j] == trace[j];
  }

  lemma SafeExtends(trace: seq<Event>, more: seq<Event>, prior: Request)
    requires Safe(trace, prior)
    requires forall i :: |trace| <= i < |trace + more| ==> Justified(trace + more, i, prior)
    ensures Safe(trace + more, prior)
  {
    forall i | 0 <= i < |trace|
      ensures Justified(trace + more, i, prior)
    {
      JustifiedStays(trace, more, i, prior);
    }
  }

  lemma SeenStays(trace: seq<Event>, more: seq<Event>, prior: Request, states: set<State>)
    requires SeenBefore(trace, |trace|, prior, states)
    ensures SeenBefore(trace + more, |trace + more|, prior, states)
  {
    var j :| 0 <= j < |trace| && Sees(trace[j], prior, states);
    assert (trace + more)[j] == trace[j];
  }

  // Judging answers

  function Stamped(reply: Reply, at: int): Sighting {
    match reply
    case Found(c) => Sighting(Some(c), at, false, "")
    case Broken(f) => Sighting(None, at, false, if f == "" then "failed" else f)
    case Transient => Sighting(None, at, true, "")
  }

  /** The evaluation of waitForProviderState. */
  function Judge(s: Sighting, request: Request, expected: State, waiting: set<State>): (Sighting, bool) {
    if s.retryable then (s, false)
    else if s.failure != "" then (s, true)
    else if s.compute.None? || !Matches(s.compute.value, request) then
      (Sighting(None, 0, false, "Runtime provider observation identity diverged"), true)
    else if s.compute.value.state == expected then (s, true)
    else if s.compute.value.state !in waiting then
      (s.(failure := "Runtime provider observation diverged"), true)
    else (s, false)
  }

  function StampedLook(look: Look): VolumeSighting {
    match look
    case Seen(a) => VolumeSighting(Some(a), false, "")
    case LookFailed(f) => VolumeSighting(None, false, if f == "" then "failed" else f)
    case LookTransient => VolumeSighting(None, true, "")
  }

  /** The evaluation of waitForOldDataVolumeDetachment. */
  function JudgeVolume(v: VolumeSighting, prior: Request): (VolumeSighting, bool) {
    if v.retryable then (v, false)
    else if v.failure != "" then (v, true)
    else if v.attachment.None? || v.attachment.value.volume != prior.spec.volume then
      (v.(failure := "Data Volume attachment observation identity diverged"), true)
    else if !v.attachment.value.attached then (v, true)
    else if v.attachment.value.holder != prior.providerId || !v.attachment.value.readWrite then
      (v.(failure := "old Data Volume attachment ownership diverged"), true)
    else (v, false)
  }

  function AsAnswer(t: Timed<Reply>): Answer<Sighting> {
    match t
    case Lost => ReadError
    case Timed(reply, at) => Answer(Read(Stamped(reply, 0), true, reply.Transient?), at)
  }

  function AsVolumeAnswer(t: Timed<Look>): Answer<VolumeSighting> {
    match t
    case Lost => ReadError
    case Timed(look, at) => Answer(Read(StampedLook(look), true, look.LookTransient?), at)
  }

  function Positive(x: int, otherwise: int): int {
    if x <= 0 then otherwise else x
  }

  /** The replies a poll consumed, as trace events. */
  function Logged(answers: seq<Timed<Reply>>, n: nat): (r: seq<Event>)
    requires n <= |answers|
    ensures |r| <= n && forall i :: 0 <= i < |r| ==> r[i].Provider? && r[i].call == Observe
    ensures n > 0 && answers[n - 1].Timed? ==> |r| > 0 && r[|r| - 1] == Provider(Observe, answers[n - 1].reply, answers[n - 1].at)
  {
    if n == 0 then []
    else Logged(answers, n - 1) +
         (match answers[n - 1] case Timed(reply, at) => [Provider(Observe, reply, at)] case Lost => [])
  }

  function LoggedLooks(answers: seq<Timed<Look>>, n: nat): (r: seq<Event>)
    requires n <= |answers|
    ensures |r| <= n && forall i :: 0 <= i < |r| ==> r[i].VolumeObserved?
    ensures n > 0 && answers[n - 1].Timed? ==> |r| > 0 && r[|r| - 1] == VolumeObserved(answers[n - 1].reply)
  {
    if n == 0 then []
    else LoggedLooks(answers, n - 1) +
         (match answers[n - 1] case Timed(look, at) => [VolumeObserved(look)] case Lost => [])
  }
}
