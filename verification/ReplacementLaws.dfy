/** What a replacement guarantees, in terms of the answers themselves: which events must come
    before which, when a wait ends well, and which worlds let the volume be attached. */
module ReplacementLaws {
  import opened Text
  import opened DeadlinePoll
  import opened Replacement
  import opened ReplacementRuns

  // What comes before what

  /** The single-writer property: no call that allocates a compute or gives it the volume is even
      issued, let alone answered, unless the very compute being replaced was reported terminated
      and then its own volume was seen detached. */
  lemma SingleWriter(trace: seq<Event>, prior: Request, i: nat)
    requires Safe(trace, prior) && i < |trace|
    requires (trace[i].Issued? || trace[i].Provider?) && trace[i].call in {Ensure, Attach}
    ensures exists j, k :: 0 <= j < k < i
              && trace[j].Provider? && trace[j].call !in {Ensure, Attach} && trace[j].reply.Found?
              && trace[j].reply.compute.spec == prior.spec
              && trace[j].reply.compute.providerId == prior.providerId
              && trace[j].reply.compute.state == Terminated
              && trace[k].VolumeObserved? && trace[k].look.Seen?
              && trace[k].look.attachment.volume == prior.spec.volume
              && !trace[k].look.attachment.attached
  {
    assert Justified(trace, i, prior);
    if trace[i].Provider? {
      assert Justified(trace, i - 1, prior);
    }
  }

  /** A stop goes out right after the old compute itself was reported running. */
  lemma StopsOnlyWhatRuns(trace: seq<Event>, prior: Request, i: nat)
    requires Safe(trace, prior) && i < |trace| && trace[i] == Issued(Stop)
    ensures i > 0 && trace[i - 1].Provider? && trace[i - 1].reply.Found?
    ensures trace[i - 1].reply.compute.spec == prior.spec
    ensures trace[i - 1].reply.compute.providerId == prior.providerId
    ensures trace[i - 1].reply.compute.state == Running
  {
    assert Justified(trace, i, prior);
  }

  /** A compute is retired only after it was itself reported stopped and its volume was verified. */
  lemma RetiresOnlyTheStopped(trace: seq<Event>, prior: Request, i: nat)
    requires Safe(trace, prior) && i < |trace| && trace[i] == Issued(Retire)
    ensures VolumeVerified in trace[..i]
    ensures exists j :: 0 <= j < i
              && trace[j].Provider? && trace[j].reply.Found?
              && trace[j].reply.compute.spec == prior.spec
              && trace[j].reply.compute.providerId == prior.providerId
              && trace[j].reply.compute.state == Stopped
  {
    assert Justified(trace, i, prior);
  }

  /** Usage is closed at the time of the very report that the old compute is gone. */
  lemma ClosesUsageAtTheReport(trace: seq<Event>, prior: Request, i: nat)
    requires Safe(trace, prior) && i < |trace| && trace[i].UsageClosed?
    ensures i > 0 && trace[i - 1].Provider? && trace[i - 1].reply.Found?
    ensures trace[i - 1].at == trace[i].at
    ensures trace[i - 1].reply.compute.spec == prior.spec
    ensures trace[i - 1].reply.compute.providerId == prior.providerId
    ensures trace[i - 1].reply.compute.state in {Stopped, Terminated}
  {
    assert Justified(trace, i, prior);
  }

  /** Volumes are verified after the old compute is gone, and looked at only once it is
      terminated; every provider answer but an observation follows its own call. */
  lemma LooksFollowTermination(trace: seq<Event>, prior: Request, i: nat)
    requires Safe(trace, prior) && i < |trace|
    ensures trace[i].Provider? && trace[i].call != Observe ==> i > 0 && trace[i - 1] == Issued(trace[i].call)
    ensures trace[i].VolumeVerified? || trace[i].VolumeObserved? ==>
              exists j :: 0 <= j < i
                && trace[j].Provider? && trace[j].reply.Found?
                && trace[j].reply.compute.spec == prior.spec
                && trace[j].reply.compute.providerId == prior.providerId
                && (trace[j].reply.compute.state == Terminated ||
                    (trace[i].VolumeVerified? && trace[j].reply.compute.state == Stopped))
  {
    assert Justified(trace, i, prior);
  }

  /** Nothing a wait reads is left out of the trace, and nothing else gets into it. */
  lemma {:induction false} EveryAnswerIsLogged(answers: seq<Timed<Reply>>, n: nat)
    requires n <= |answers| && forall i :: 0 <= i < n ==> answers[i].Timed?
    ensures |Logged(answers, n)| == n
    ensures forall i :: 0 <= i < n ==> Logged(answers, n)[i] == Provider(Observe, answers[i].reply, answers[i].at)
  {
    if n > 0 {
      EveryAnswerIsLogged(answers, n - 1);
    }
  }

  lemma {:induction false} EveryLookIsLogged(answers: seq<Timed<Look>>, n: nat)
    requires n <= |answers| && forall i :: 0 <= i < n ==> answers[i].Timed?
    ensures |LoggedLooks(answers, n)| == n
    ensures forall i :: 0 <= i < n ==> LoggedLooks(answers, n)[i] == VolumeObserved(answers[i].reply)
  {
    if n > 0 {
      EveryLookIsLogged(answers, n - 1);
    }
  }

  // When a wait ends well

  /** The time known after k answers of a wait. */
  function TimeAfter(initial: Sighting, answers: seq<Timed<Reply>>, k: nat): int
    requires k <= |answers|
  {
    if k == 0 || answers[k - 1].Lost? then initial.observedAt else answers[k - 1].at
  }

  /** After k answers the old compute was only known to be on its way, or the call was worth
      repeating, and the deadline lay ahead. */
  predicate OnItsWay(prior: Request, initial: Sighting, expected: State, waiting: set<State>, timing: Timing,
                     answers: seq<Timed<Reply>>, k: nat)
    requires k <= |answers| && initial.compute.Some?
  {
    && TimeAfter(initial, answers, k) < initial.observedAt + (if timing.timeout <= 0 then 600_000_000_000 else timing.timeout)
    && if k == 0 then
         var c := initial.compute.value;
         c.spec == prior.spec && c.providerId == prior.providerId && c.state != expected && c.state in waiting
       else
         && answers[k - 1].Timed?
         && (answers[k - 1].reply.Transient? ||
             (&& answers[k - 1].reply.Found?
              && var c := answers[k - 1].reply.compute;
              c.spec == prior.spec && c.providerId == prior.providerId && c.state != expected && c.state in waiting))
  }

  /** The first n answers arrive in time order, each while the wait is on, and the last of them
      (the initial sighting when n is 0) reports the old compute in the expected state. */
  ghost predicate ArrivesAt(prior: Request, initial: Sighting, expected: State, waiting: set<State>, timing: Timing,
                            answers: seq<Timed<Reply>>, n: nat, s: Sighting)
    requires initial.compute.Some?
  {
    && n <= |answers|
    && (forall k :: 0 <= k < n ==>
          answers[k].Timed? && answers[k].at != 0 && answers[k].at >= TimeAfter(initial, answers, k))
    && (forall k :: 0 <= k < n ==> OnItsWay(prior, initial, expected, waiting, timing, answers, k))
    && (if n == 0 then s == initial
        else answers[n - 1].reply.Found? && s == Sighting(Some(answers[n - 1].reply.compute), answers[n - 1].at, false, ""))
    && s.compute.value.spec == prior.spec && s.compute.value.providerId == prior.providerId
    && s.compute.value.state == expected
  }

  /** The sighting an evaluation looks at after n answers. */
  function Latest(initial: Sighting, answers: seq<Timed<Reply>>, n: nat): Sighting
    requires n <= |answers| && (n > 0 ==> answers[n - 1].Timed?)
  {
    if n == 0 then initial else Stamped(answers[n - 1].reply, answers[n - 1].at)
  }

  lemma {:induction false} HeldAfter(prior: Request, initial: Sighting, expected: State, waiting: set<State>, timing: Timing,
                  answers: seq<Timed<Reply>>, k: nat)
    requires k <= |answers| && initial.compute.Some? && initial.failure == "" && !initial.retryable
    requires forall i :: 0 <= i < k ==> answers[i].Timed?
    ensures var run := PollOf(prior, initial, expected, waiting, timing, answers);
            && |run.answers| == |answers|
            && run.CheckedAt(k) == TimeAfter(initial, answers, k)
            && var v := Latest(initial, answers, k);
            && run.Candidate(k) == Some(v)
            && (run.Held(k) == if v.retryable then Some(v) else Some(Judge(v, prior, expected, waiting).0))
            && (run.Done(k) <==> !v.retryable && Judge(v, prior, expected, waiting).1)
  {
    hide Judge;
  }

  lemma JudgedDone(v: Sighting, prior: Request, expected: State, waiting: set<State>)
    ensures v.retryable || !Judge(v, prior, expected, waiting).1 <==>
              || v.retryable
              || (&& v.failure == "" && v.compute.Some?
                  && v.compute.value.spec == prior.spec && v.compute.value.providerId == prior.providerId
                  && v.compute.value.state != expected && v.compute.value.state in waiting)
  {
  }

  lemma JudgedWell(v: Sighting, prior: Request, expected: State, waiting: set<State>, s: Sighting)
    ensures !v.retryable && Judge(v, prior, expected, waiting) == (s, true) && s.failure == "" <==>
              && !v.retryable && v.failure == "" && v == s && v.compute.Some?
              && v.compute.value.spec == prior.spec && v.compute.value.providerId == prior.providerId
              && v.compute.value.state == expected
  {
  }

  lemma {:induction false} StopsUnlessOnItsWay(prior: Request, initial: Sighting, expected: State, waiting: set<State>,
                            timing: Timing, answers: seq<Timed<Reply>>, k: nat)
    requires k <= |answers| && initial.compute.Some? && initial.failure == "" && !initial.retryable
    requires forall i :: 0 <= i < k ==> answers[i].Timed?
    requires initial.observedAt != 0
    ensures |PollOf(prior, initial, expected, waiting, timing, answers).answers| == |answers|
    ensures PollOf(prior, initial, expected, waiting, timing, answers).Stops(k) <==>
              !OnItsWay(prior, initial, expected, waiting, timing, answers, k)
  {
    var run := PollOf(prior, initial, expected, waiting, timing, answers);
    HeldAfter(prior, initial, expected, waiting, timing, answers, k);
    assert run.deadline == initial.observedAt + (if timing.timeout <= 0 then 600_000_000_000 else timing.timeout);
    hide Run.Held, Run.Candidate, Run.CheckedAt, Run.Done, PollOf;
    JudgedDone(Latest(initial, answers, k), prior, expected, waiting);
    hide Judge;
  }

  ghost predicate EndsWith(run: Run<Sighting>, n: nat, s: Sighting) {
    Accepts(run, n) && run.Held(n) == Some(s) && s.failure == ""
  }

  lemma {:induction false} EndsWithLatest(prior: Request, initial: Sighting, expected: State, waiting: set<State>, timing: Timing,
                       answers: seq<Timed<Reply>>, n: nat, s: Sighting)
    requires n <= |answers| && initial.compute.Some? && initial.failure == "" && !initial.retryable
    requires forall k :: 0 <= k < n ==> answers[k].Timed?
    ensures var v := Latest(initial, answers, n);
            var run := PollOf(prior, initial, expected, waiting, timing, answers);
            EndsWith(run, n, s) <==> run.Reaches(n) && !v.retryable && Judge(v, prior, expected, waiting) == (s, true) && s.failure == ""
  {
    var run := PollOf(prior, initial, expected, waiting, timing, answers);
    HeldAfter(prior, initial, expected, waiting, timing, answers, n);
    hide Run.Held, Run.Candidate, Run.CheckedAt, Run.Stops, Run.Reaches, PollOf, Run.Done, Judge;
  }

  lemma {:induction false} AcceptsExactly(prior: Request, initial: Sighting, expected: State, waiting: set<State>, timing: Timing,
                       answers: seq<Timed<Reply>>, n: nat, s: Sighting)
    requires initial.compute.Some? && initial.failure == "" && !initial.retryable && initial.observedAt != 0
    ensures EndsWith(PollOf(prior, initial, expected, waiting, timing, answers), n, s) <==>
              ArrivesAt(prior, initial, expected, waiting, timing, answers, n, s)
  {
    var run := PollOf(prior, initial, expected, waiting, timing, answers);
    assert |run.answers| == |answers|;
    if n <= |answers| {
      assert forall k :: 0 <= k < n ==> run.answers[k] == AsAnswer(answers[k]);
      if forall k :: 0 <= k < n ==> answers[k].Timed? {
        forall k | 0 <= k <= n
          ensures run.CheckedAt(k) == TimeAfter(initial, answers, k)
          ensures run.Stops(k) <==> !OnItsWay(prior, initial, expected, waiting, timing, answers, k)
        {
          HeldAfter(prior, initial, expected, waiting, timing, answers, k);
          StopsUnlessOnItsWay(prior, initial, expected, waiting, timing, answers, k);
        }
        hide Run.Held, Run.Candidate, Run.CheckedAt, Run.Stops, Run.Reaches, PollOf, Run.Done, OnItsWay, Judge, TimeAfter, EndsWith;
        ReachesInOrder(run, prior, initial, expected, waiting, timing, answers, n);
        EndsWithLatest(prior, initial, expected, waiting, timing, answers, n, s);
        JudgedWell(Latest(initial, answers, n), prior, expected, waiting, s);
      } else {
        var k :| 0 <= k < n && !answers[k].Timed?;
        assert !run.Smooth(n);
        hide Run.Held, PollOf, Run.Done, OnItsWay;
      }
    }
  }

  lemma ReachesInOrder(run: Run<Sighting>, prior: Request, initial: Sighting, expected: State, waiting: set<State>,
                       timing: Timing, answers: seq<Timed<Reply>>, n: nat)
    requires n <= |answers| == |run.answers| && initial.compute.Some?
    requires forall k :: 0 <= k < n ==> answers[k].Timed? && run.answers[k] == AsAnswer(answers[k])
    requires forall k :: 0 <= k <= n ==> run.CheckedAt(k) == TimeAfter(initial, answers, k)
    requires forall k :: 0 <= k <= n ==>
               (run.Stops(k) <==> !OnItsWay(prior, initial, expected, waiting, timing, answers, k))
    ensures run.Reaches(n) <==>
              && (forall k :: 0 <= k < n ==> answers[k].at != 0 && answers[k].at >= TimeAfter(initial, answers, k))
              && (forall k :: 0 <= k < n ==> OnItsWay(prior, initial, expected, waiting, timing, answers, k))
  {
    hide Run.CheckedAt, Run.Stops, OnItsWay, TimeAfter;
    assert run.Smooth(n) <==>
             forall k :: 0 <= k < n ==> answers[k].at != 0 && answers[k].at >= TimeAfter(initial, answers, k);
  }

  /** A wait for the old compute to reach a state ends well exactly when some answer reports that
      compute in that state before the deadline, and every earlier one was worth waiting on. */
  lemma {:induction false} AwaitedExactly(prior: Request, initial: Sighting, expected: State, waiting: set<State>, timing: Timing,
                       answers: seq<Timed<Reply>>, s: Sighting)
    requires initial.compute.Some? && initial.failure == "" && !initial.retryable
    ensures Awaited(prior, initial, expected, waiting, timing, answers) == Some(s) <==>
              initial.observedAt != 0 && exists n: nat :: ArrivesAt(prior, initial, expected, waiting, timing, answers, n, s)
  {
    var run := PollOf(prior, initial, expected, waiting, timing, answers);
    if initial.observedAt != 0 {
      forall n: nat
        ensures EndsWith(run, n, s) <==> ArrivesAt(prior, initial, expected, waiting, timing, answers, n, s)
      {
        AcceptsExactly(prior, initial, expected, waiting, timing, answers, n, s);
      }
      AwaitedEnds(prior, initial, expected, waiting, timing, answers, s);
    }
  }

  lemma {:induction false} AwaitedEnds(prior: Request, initial: Sighting, expected: State, waiting: set<State>, timing: Timing,
                    answers: seq<Timed<Reply>>, s: Sighting)
    requires initial.observedAt != 0
    ensures Awaited(prior, initial, expected, waiting, timing, answers) == Some(s) <==>
              exists n: nat :: EndsWith(PollOf(prior, initial, expected, waiting, timing, answers), n, s)
  {
    var run := PollOf(prior, initial, expected, waiting, timing, answers);
    forall m: nat, n: nat | Accepts(run, m) && Accepts(run, n)
      ensures m == n
    {
      AcceptedOnce(run, m, n);
    }
    forall m: nat | Accepts(run, m)
      ensures m <= |run.answers| && run.Held(m).Some?
    {
      hide PollOf;
    }
    hide PollOf, Run.Held, Run.Done, Run.Reaches, Run.Stops;
    if exists n: nat :: EndsWith(run, n, s) {
      var n: nat :| EndsWith(run, n, s);
      assert Accepts(run, n);
    }
    if Awaited(prior, initial, expected, waiting, timing, answers) == Some(s) {
      var n: nat :| Accepts(run, n) && run.Held(n).value.failure == "" && run.Held(n) == Some(s);
      assert EndsWith(run, n, s);
    }
  }

  lemma AcceptedOnce<T>(run: Run<T>, m: nat, n: nat)
    requires Accepts(run, m) && Accepts(run, n)
    ensures m == n
  {
    hide Run.Done;
    assert run.Stops(m) && run.Stops(n);
  }

  // When the volume is seen detached in time

  function LookedAt(clock: int, answers: seq<Timed<Look>>, k: nat): int
    requires k <= |answers|
  {
    if k == 0 || answers[k - 1].Lost? then clock else answers[k - 1].at
  }

  /** After k looks the volume was still the old compute's own writable attachment, or the look
      was worth repeating, and the deadline lay ahead. */
  predicate StillAttached(prior: Request, timing: Timing, clock: int, answers: seq<Timed<Look>>, k: nat)
    requires k <= |answers|
  {
    && LookedAt(clock, answers, k) < clock + (if timing.timeout <= 0 then 600_000_000_000 else timing.timeout)
    && (k > 0 ==>
          && answers[k - 1].Timed?
          && (answers[k - 1].reply.LookTransient? ||
              (&& answers[k - 1].reply.Seen?
               && var a := answers[k - 1].reply.attachment;
               a.volume == prior.spec.volume && a.attached && a.holder == prior.providerId && a.readWrite)))
  }

  /** The first n looks come in time order, each while the wait is on, and the last of them shows
      the old compute's volume detached. */
  ghost predicate DetachedAt(prior: Request, timing: Timing, clock: int, answers: seq<Timed<Look>>, n: nat) {
    && 0 < n <= |answers|
    && (forall k :: 0 <= k < n ==>
          answers[k].Timed? && answers[k].at != 0 && answers[k].at >= LookedAt(clock, answers, k))
    && (forall k :: 0 <= k < n ==> StillAttached(prior, timing, clock, answers, k))
    && answers[n - 1].reply.Seen?
    && answers[n - 1].reply.attachment.volume == prior.spec.volume && !answers[n - 1].reply.attachment.attached
  }

  lemma {:induction false} LooksAfter(prior: Request, timing: Timing, clock: int, answers: seq<Timed<Look>>, k: nat)
    requires k <= |answers| && forall i :: 0 <= i < k ==> answers[i].Timed?
    ensures var run := VolumePollOf(prior, timing, clock, answers);
            && |run.answers| == |answers|
            && run.CheckedAt(k) == LookedAt(clock, answers, k)
            && if k == 0 then run.Held(0).None? && !run.Done(0)
               else
                 var v := StampedLook(answers[k - 1].reply);
                 && run.Candidate(k) == Some(v)
                 && (run.Held(k) == if v.retryable then Some(v) else Some(JudgeVolume(v, prior).0))
                 && (run.Done(k) <==> !v.retryable && JudgeVolume(v, prior).1)
  {
    hide JudgeVolume;
  }

  lemma {:induction false} LookStopsUnlessAttached(prior: Request, timing: Timing, clock: int, answers: seq<Timed<Look>>, k: nat)
    requires k <= |answers| && forall i :: 0 <= i < k ==> answers[i].Timed?
    ensures |VolumePollOf(prior, timing, clock, answers).answers| == |answers|
    ensures VolumePollOf(prior, timing, clock, answers).Stops(k) <==> !StillAttached(prior, timing, clock, answers, k)
  {
    var run := VolumePollOf(prior, timing, clock, answers);
    LooksAfter(prior, timing, clock, answers, k);
    assert run.deadline == clock + (if timing.timeout <= 0 then 600_000_000_000 else timing.timeout);
    hide Run.Held, Run.Candidate, Run.CheckedAt, Run.Done, VolumePollOf;
  }

  ghost predicate EndsDetached(run: Run<VolumeSighting>, n: nat) {
    Accepts(run, n) && run.Held(n).Some? && run.Held(n).value.failure == ""
  }

  lemma {:induction false} EndsDetachedExactly(prior: Request, timing: Timing, clock: int, answers: seq<Timed<Look>>, n: nat)
    ensures EndsDetached(VolumePollOf(prior, timing, clock, answers), n) <==> DetachedAt(prior, timing, clock, answers, n)
  {
    var run := VolumePollOf(prior, timing, clock, answers);
    assert |run.answers| == |answers|;
    if n <= |answers| {
      assert forall k :: 0 <= k < n ==> run.answers[k] == AsVolumeAnswer(answers[k]);
      if forall k :: 0 <= k < n ==> answers[k].Timed? {
        forall k | 0 <= k <= n
          ensures run.CheckedAt(k) == LookedAt(clock, answers, k)
          ensures run.Stops(k) <==> !StillAttached(prior, timing, clock, answers, k)
        {
          LooksAfter(prior, timing, clock, answers, k);
          LookStopsUnlessAttached(prior, timing, clock, answers, k);
        }
        LooksAfter(prior, timing, clock, answers, n);
        hide Run.Held, Run.Candidate, Run.CheckedAt, Run.Stops, Run.Reaches, VolumePollOf, Run.Done, StillAttached, LookedAt;
        LooksInOrder(run, prior, timing, clock, answers, n);
      } else {
        var k :| 0 <= k < n && !answers[k].Timed?;
        assert !run.Smooth(n);
        hide Run.Held, VolumePollOf, Run.Done, StillAttached;
      }
    }
  }

  lemma LooksInOrder(run: Run<VolumeSighting>, prior: Request, timing: Timing, clock: int, answers: seq<Timed<Look>>, n: nat)
    requires n <= |answers| == |run.answers|
    requires forall k :: 0 <= k < n ==> answers[k].Timed? && run.answers[k] == AsVolumeAnswer(answers[k])
    requires forall k :: 0 <= k <= n ==> run.CheckedAt(k) == LookedAt(clock, answers, k)
    requires forall k :: 0 <= k <= n ==> (run.Stops(k) <==> !StillAttached(prior, timing, clock, answers, k))
    ensures run.Reaches(n) <==>
              && (forall k :: 0 <= k < n ==> answers[k].at != 0 && answers[k].at >= LookedAt(clock, answers, k))
              && (forall k :: 0 <= k < n ==> StillAttached(prior, timing, clock, answers, k))
  {
    hide Run.CheckedAt, Run.Stops, StillAttached, LookedAt;
    assert run.Smooth(n) <==>
             forall k :: 0 <= k < n ==> answers[k].at != 0 && answers[k].at >= LookedAt(clock, answers, k);
  }

  /** The wait for the old volume ends well exactly when some look shows that very volume detached
      before the deadline, and every earlier one showed it with the old compute. */
  lemma {:induction false} DetachesExactly(prior: Request, timing: Timing, clock: int, answers: seq<Timed<Look>>)
    ensures Detaches(prior, timing, clock, answers) <==>
              clock != 0 && exists n: nat :: DetachedAt(prior, timing, clock, answers, n)
  {
    var run := VolumePollOf(prior, timing, clock, answers);
    forall n: nat
      ensures EndsDetached(run, n) <==> DetachedAt(prior, timing, clock, answers, n)
    {
      EndsDetachedExactly(prior, timing, clock, answers, n);
    }
    hide DetachedAt;
    if Detaches(prior, timing, clock, answers) {
      var n: nat :| Accepts(run, n) && run.Held(n).value.failure == "";
      assert EndsDetached(run, n);
    }
    if clock != 0 && exists n: nat :: DetachedAt(prior, timing, clock, answers, n) {
      var n: nat :| DetachedAt(prior, timing, clock, answers, n);
      assert EndsDetached(run, n);
    }
  }

  // When the replacement goes through

  /** An answer that reports the old compute, whatever its state. */
  predicate ReportsOld(answer: Timed<Reply>, prior: Request) {
    && answer.Timed? && answer.reply.Found?
    && answer.reply.compute.spec == prior.spec && answer.reply.compute.providerId == prior.providerId
  }

  function Report(answer: Timed<Reply>): Sighting
    requires answer.Timed? && answer.reply.Found?
  {
    Sighting(Some(answer.reply.compute), answer.at, false, "")
  }

  lemma AwaitedIsExpected(prior: Request, initial: Sighting, expected: State, waiting: set<State>, timing: Timing,
                          answers: seq<Timed<Reply>>)
    requires initial.compute.Some? && initial.failure == "" && !initial.retryable
    ensures var s := Awaited(prior, initial, expected, waiting, timing, answers);
            s.Some? ==> s.value.compute.Some? && s.value.compute.value.state == expected
  {
    var s := Awaited(prior, initial, expected, waiting, timing, answers);
    hide Awaited, OnItsWay;
    if s.Some? {
      AwaitedExactly(prior, initial, expected, waiting, timing, answers, s.value);
    }
  }

  /** The volume ends up attached to the new compute exactly when, for the state the old compute
      was first reported in, every call and wait this state calls for turns out well. */
  lemma AttachesExactly(prior: Request, timing: Timing, w: World, metered: bool, spec: Spec)
    ensures Favourable(prior, timing, w, metered, spec) <==>
              && ReportsOld(w.first, prior)
              && var state := w.first.reply.compute.state;
              && state != Unheard
              && (state == Pending ==> Awaited(prior, Report(w.first), Running, {Pending}, timing, w.whilePending).Some?)
              && (state in {Pending, Running} ==> ReportsOld(w.stop, prior))
              && var stopping := if state in {Pending, Running} then w.stop else w.first;
              && var gone := if state in {Stopped, Terminated} then Some(Report(w.first))
                             else Awaited(prior, Report(stopping), Stopped, {Stopping, Running}, timing, w.whileStopping);
              && gone.Some?
              && (state == Running ==> metered)
              && (metered ==> gone.value.observedAt != 0 && w.usageCloses)
              && w.volumeVerifies
              && (state != Terminated ==>
                    && ReportsOld(w.retire, prior)
                    && Awaited(prior, Report(w.retire), Terminated, {Stopping, Stopped}, timing, w.whileRetiring).Some?)
              && Detaches(prior, timing, w.clock, w.whileAttached)
              && w.reserves
              && w.ensure.Timed? && w.ensure.reply.Found? && w.provisions
              && var ensured := w.ensure.reply.compute;
              && ensured.spec == spec && ensured.provider != "" && ensured.providerId != ""
              && (ensured.state == Pending || ensured.state == Running)
              && w.attach.Timed? && w.attach.reply.Found?
              && var attached := w.attach.reply.compute;
              && attached.spec == spec && attached.providerId == ensured.providerId
              && !Blank(attached.provider) && !Blank(attached.systemVolume)
              && (attached.state == Pending || attached.state == Running)
  {
    hide Awaited, Detaches;
    if ReportsOld(w.first, prior) {
      var state := w.first.reply.compute.state;
      assert Confirmed(w.first, prior) == Some(Report(w.first));
      assert ReportsOld(w.stop, prior) ==> Confirmed(w.stop, prior) == Some(Report(w.stop));
      assert ReportsOld(w.retire, prior) ==> Confirmed(w.retire, prior) == Some(Report(w.retire));
      if state == Stopping {
        AwaitedIsExpected(prior, Report(w.first), Stopped, {Stopping, Running}, timing, w.whileStopping);
      } else if state in {Pending, Running} && ReportsOld(w.stop, prior) {
        AwaitedIsExpected(prior, Report(w.stop), Stopped, {Stopping, Running}, timing, w.whileStopping);
      }
      hide ReportsOld;
    }
  }
}
