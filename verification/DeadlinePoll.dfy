/** Polling under one absolute deadline: read, evaluate, back off, and end either with an
    evaluated value or with a last check at or past the deadline. */
module DeadlinePoll {
  import opened Text

  /** One external read. A retryable failure advances the clock and is never evaluated. */
  datatype Read<+T> = Read(value: T, useValue: bool, retryable: bool)

  /** What the journal holds for one attempt; time 0 stands for Go's zero time. */
  datatype Answer<+T> = Answer(read: Read<T>, checkedAt: int) | ReadError

  datatype Observation<+T> = Observation(value: T, checkedAt: int)

  datatype Config = Config(startedAt: int, timeout: int, initialDelay: int, maxDelay: int)

  datatype Outcome<+T> =
    | Finished(value: Option<T>, startedAt: int, checkedAt: int, timedOut: bool)
    | Failed(error: string)
    | Unfinished

  /** A wait of the given length before the answer with the given index is read. */
  datatype Sleep = Sleep(delay: int, before: nat)

  /** Everything that decides how a poll goes, with the start time settled. */
  datatype Run<!T> = Run(
    initial: Option<Observation<T>>, startedAt: int, deadline: int, answers: seq<Answer<T>>,
    evaluate: (T, int) -> (T, bool), stamp: (T, int) -> T)
  {
    function First(): int {
      if initial.Some? then initial.value.checkedAt else startedAt
    }

    /** The clock never moved backwards, nor failed to be read, over the first n answers. */
    ghost predicate Smooth(n: nat)
      requires n <= |answers|
    {
      forall k :: 0 <= k < n ==> answers[k].Answer? && answers[k].checkedAt != 0 && answers[k].checkedAt >= CheckedAt(k)
    }

    ghost function CheckedAt(n: nat): int
      requires n <= |answers|
    {
      if n == 0 || answers[n - 1].ReadError? then First() else answers[n - 1].checkedAt
    }

    /** The value an evaluation after n answers would look at. */
    ghost function Candidate(n: nat): Option<T>
      requires n <= |answers|
      decreases n, 0
    {
      if n == 0 then (if initial.Some? then Some(initial.value.value) else None)
      else if answers[n - 1].Answer? && answers[n - 1].read.useValue then
        Some(stamp(answers[n - 1].read.value, answers[n - 1].checkedAt))
      else Held(n - 1)
    }

    ghost predicate Evaluates(n: nat)
      requires n <= |answers|
    {
      Candidate(n).Some? && (n > 0 ==> answers[n - 1].Answer? && !answers[n - 1].read.retryable)
    }

    /** The value held after n answers. */
    ghost function Held(n: nat): Option<T>
      requires n <= |answers|
      decreases n, 1
    {
      var c := Candidate(n);
      if c.Some? && (n > 0 ==> answers[n - 1].Answer? && !answers[n - 1].read.retryable)
      then Some(evaluate(c.value, startedAt).0) else c
    }

    ghost predicate Done(n: nat)
      requires n <= |answers|
    {
      Evaluates(n) && evaluate(Candidate(n).value, startedAt).1
    }

    ghost predicate Stops(n: nat)
      requires n <= |answers|
    {
      Done(n) || CheckedAt(n) >= deadline
    }

    /** The poll reaches the point after n answers. */
    ghost predicate Reaches(n: nat) {
      n <= |answers| && Smooth(n) && forall k :: 0 <= k < n ==> !Stops(k)
    }

    /** Every sleep so far moved the journaled clock by at least its length. */
    ghost predicate Honest(sleeps: seq<Sleep>) {
      forall i :: 0 <= i < |sleeps| && sleeps[i].before < |answers| && answers[sleeps[i].before].Answer? ==>
        answers[sleeps[i].before].checkedAt >= CheckedAt(sleeps[i].before) + sleeps[i].delay
    }
  }

  function Min(a: int, b: int): int {
    if a < b then a else b
  }

  predicate Configured(c: Config) {
    c.timeout > 0 && c.initialDelay > 0 && c.maxDelay > 0
  }

  function StartTime(c: Config, clock: int): int {
    if c.startedAt == 0 then clock else c.startedAt
  }

  function Settled<T>(initial: Option<Observation<T>>, config: Config, clock: int, answers: seq<Answer<T>>,
                      evaluate: (T, int) -> (T, bool), stamp: (T, int) -> T): Run<T> {
    var startedAt := StartTime(config, clock);
    Run(initial, startedAt, startedAt + config.timeout, answers, evaluate, stamp)
  }

  /** The first point at which the value is accepted or the deadline has passed ends the poll;
      a read error, or a clock that is unset or moves backwards, fails it; and it is left
      unfinished only by running out of answers. */
  ghost predicate EndsRight<T>(run: Run<T>, outcome: Outcome<T>, taken: nat) {
    && run.Reaches(taken)
    && match outcome
       case Finished(value, startedAt, checkedAt, timedOut) =>
         && run.Stops(taken) && value == run.Held(taken)
         && startedAt == run.startedAt && checkedAt == run.CheckedAt(taken)
         && timedOut == !run.Done(taken)
       case Failed(_) => !run.Stops(taken) && taken < |run.answers| && !run.Smooth(taken + 1)
       case Unfinished => !run.Stops(taken) && taken == |run.answers|
  }

  /** Sleeps fall before distinct reads and never outlast the time left at the last check. */
  ghost predicate SleepsFit<T>(run: Run<T>, sleeps: seq<Sleep>) {
    && (forall i :: 0 <= i < |sleeps| ==> sleeps[i].before < |run.answers|)
    && (forall i :: 0 <= i < |sleeps| ==> sleeps[i].before == if run.initial.Some? then i else i + 1)
    && (forall i :: 0 <= i < |sleeps| ==>
          0 < sleeps[i].delay <= run.deadline - run.CheckedAt(sleeps[i].before))
  }

  /** How long the next sleep is meant to be: at first the initial delay, then twice the last one up
      to the largest. */
  function NextDelay(sleeps: seq<Sleep>, config: Config): int {
    if sleeps == [] then config.initialDelay else Min(2 * sleeps[|sleeps| - 1].delay, config.maxDelay)
  }

  /** Every sleep is as long as meant, or cut to the time left at the last check. */
  ghost predicate BacksOff<T>(run: Run<T>, sleeps: seq<Sleep>, config: Config) {
    forall i :: 0 <= i < |sleeps| ==>
      && sleeps[i].before < |run.answers|
      && sleeps[i].delay == Min(NextDelay(sleeps[..i], config), run.deadline - run.CheckedAt(sleeps[i].before))
  }

  lemma {:induction false} BacksOffOnce<T>(run: Run<T>, sleeps: seq<Sleep>, config: Config, delay: int, n: nat)
    requires BacksOff(run, sleeps, config) && n < |run.answers|
    requires delay == Min(NextDelay(sleeps, config), run.deadline - run.CheckedAt(n))
    ensures BacksOff(run, sleeps + [Sleep(delay, n)], config)
  {
    hide NextDelay, Min, Run.CheckedAt;
    var longer := sleeps + [Sleep(delay, n)];
    forall i | 0 <= i < |longer|
      ensures longer[i].before < |run.answers|
      ensures longer[i].delay == Min(NextDelay(longer[..i], config), run.deadline - run.CheckedAt(longer[i].before))
    {
      assert longer[..i] == sleeps[..i];
      if i == |sleeps| {
        assert sleeps[..i] == sleeps;
      }
    }
  }

  lemma Ends<T>(run: Run<T>, n: nat)
    requires run.Reaches(n)
    ensures run.Done(n) || run.CheckedAt(n) >= run.deadline ==>
              EndsRight(run, Finished(run.Held(n), run.startedAt, run.CheckedAt(n), !run.Done(n)), n)
    ensures !run.Done(n) && run.CheckedAt(n) < run.deadline ==>
              if n == |run.answers| then EndsRight(run, Unfinished, n)
              else !run.Smooth(n + 1) ==> EndsRight(run, Failed(UNREADABLE), n)
  {
  }

  lemma Start<T>(run: Run<T>)
    ensures run.Reaches(0) && run.CheckedAt(0) == run.First()
    ensures match run.initial
            case None => run.Held(0) == None && !run.Done(0)
            case Some(o) =>
              var (next, done) := run.evaluate(o.value, run.startedAt);
              run.Held(0) == Some(next) && run.Done(0) == done
  {
  }

  predicate Usable<T>(answer: Answer<T>, checkedAt: int) {
    answer.Answer? && answer.checkedAt != 0 && answer.checkedAt >= checkedAt
  }

  /** One more answer: a bad one fails the poll, a good one moves the clock and the value. */
  lemma Next<T>(run: Run<T>, n: nat)
    requires run.Reaches(n) && n < |run.answers| && !run.Done(n) && run.CheckedAt(n) < run.deadline
    ensures Usable(run.answers[n], run.CheckedAt(n)) <==> run.Smooth(n + 1)
    ensures run.Smooth(n + 1) ==>
              var a := run.answers[n];
              run.Reaches(n + 1) && run.CheckedAt(n + 1) == a.checkedAt
              && Absorbed(run.Held(n), a, run.startedAt, run.evaluate, run.stamp, run.Held(n + 1), run.Done(n + 1))
  {
  }

  /** What a good answer makes of the held value, and whether the result is accepted. */
  ghost predicate Absorbed<T>(
    held: Option<T>, a: Answer<T>, startedAt: int, evaluate: (T, int) -> (T, bool), stamp: (T, int) -> T,
    value: Option<T>, done: bool)
    requires a.Answer?
  {
    var c := if a.read.useValue then Some(stamp(a.read.value, a.checkedAt)) else held;
    if a.read.retryable || c.None? then value == c && !done
    else
      var (next, accepted) := evaluate(c.value, startedAt);
      value == Some(next) && done == accepted
  }

  method Absorb<T>(held: Option<T>, a: Answer<T>, startedAt: int,
                   evaluate: (T, int) -> (T, bool), stamp: (T, int) -> T)
    returns (value: Option<T>, done: bool)
    requires a.Answer?
    ensures Absorbed(held, a, startedAt, evaluate, stamp, value, done)
  {
    value, done := held, false;
    if a.read.useValue {
      value := Some(stamp(a.read.value, a.checkedAt));
    }
    if !a.read.retryable && value.Some? {
      var (next, accepted) := evaluate(value.value, startedAt);
      value, done := Some(next), accepted;
    }
  }

  lemma AbsorbedIsUnique<T>(held: Option<T>, a: Answer<T>, startedAt: int, evaluate: (T, int) -> (T, bool),
                            stamp: (T, int) -> T, v: Option<T>, d: bool, w: Option<T>, e: bool)
    requires a.Answer?
    requires Absorbed(held, a, startedAt, evaluate, stamp, v, d) && Absorbed(held, a, startedAt, evaluate, stamp, w, e)
    ensures v == w && d == e
  {
  }

  lemma HonestPrefix<T>(run: Run<T>, sleeps: seq<Sleep>, last: Sleep)
    requires run.Honest(sleeps + [last])
    ensures run.Honest(sleeps)
    ensures last.before < |run.answers| && run.answers[last.before].Answer? ==>
              run.answers[last.before].checkedAt >= run.CheckedAt(last.before) + last.delay
  {
    var all := sleeps + [last];
    assert all[|sleeps|] == last;
    assert forall i :: 0 <= i < |sleeps| ==> all[i] == sleeps[i];
  }

  /** With an honest clock the number of sleeps is linear in the time allowed. */
  ghost predicate FewSleeps<T>(run: Run<T>, sleeps: seq<Sleep>, least: int) {
    run.Honest(sleeps) && |sleeps| > 0 ==> (|sleeps| - 1) * least < run.deadline - run.First()
  }

  /** While the clock is honest, every sleep but the one cut short by the deadline advances it
      by at least the least delay. */
  ghost predicate Paced<T>(run: Run<T>, sleeps: seq<Sleep>, checkedAt: int, delay: int, least: int) {
    run.Honest(sleeps) && checkedAt < run.deadline ==>
      delay >= least && checkedAt >= run.First() + |sleeps| * least
  }

  lemma SleepKeepsPace<T>(
    run: Run<T>, sleeps: seq<Sleep>, checkedAt: int, delay: int, least: int, max: int, n: nat, next: int)
    requires Paced(run, sleeps, checkedAt, delay, least) && 0 < least <= max
    requires n < |run.answers| && run.CheckedAt(n) == checkedAt < run.deadline
    requires if run.answers[n].Answer? then next == run.answers[n].checkedAt else next >= run.deadline
    ensures var cut := Min(delay, run.deadline - checkedAt);
            var longer := sleeps + [Sleep(cut, n)];
            Paced(run, longer, next, Min(cut * 2, max), least) && FewSleeps(run, longer, least)
  {
    var cut := Min(delay, run.deadline - checkedAt);
    if run.Honest(sleeps + [Sleep(cut, n)]) {
      HonestPrefix(run, sleeps, Sleep(cut, n));
      assert (|sleeps| + 1) * least == |sleeps| * least + least;
    }
  }

  lemma ReadKeepsPace<T>(run: Run<T>, checkedAt: int, delay: int, least: int, next: int)
    requires Paced(run, [], checkedAt, delay, least) && checkedAt < run.deadline && next >= checkedAt
    ensures Paced(run, [], next, delay, least)
  {
  }

  lemma SleepFits<T>(run: Run<T>, sleeps: seq<Sleep>, delay: int, n: nat)
    requires SleepsFit(run, sleeps) && n < |run.answers| && n == |sleeps| + (if run.initial.Some? then 0 else 1)
    requires 0 < delay <= run.deadline - run.CheckedAt(n)
    ensures SleepsFit(run, sleeps + [Sleep(delay, n)])
  {
  }

  lemma NothingSlept<T>(run: Run<T>, delay: int, least: int)
    requires 0 < least <= delay
    ensures SleepsFit(run, []) && FewSleeps(run, [], least) && Paced(run, [], run.First(), delay, least)
  {
  }

  const UNCONFIGURED := "not configured"
  const UNREADABLE := "read failed or clock moved backwards"

  /** durableDeadlinePoll. The deciding answers come as a finite journal. */
  method Poll<T>(initial: Option<Observation<T>>, config: Config, clock: int, answers: seq<Answer<T>>,
                 evaluate: (T, int) -> (T, bool), stamp: (T, int) -> T)
    returns (outcome: Outcome<T>, taken: nat, sleeps: seq<Sleep>)
    ensures || config.timeout <= 0 || config.initialDelay <= 0 || config.maxDelay <= 0
            || (config.startedAt == 0 && clock == 0) || (initial.Some? && initial.value.checkedAt == 0)
            <==> outcome.Failed? && outcome.error == UNCONFIGURED
    ensures !(outcome.Failed? && outcome.error == UNCONFIGURED) ==>
              var run := Settled(initial, config, clock, answers, evaluate, stamp);
              && EndsRight(run, outcome, taken) && SleepsFit(run, sleeps) && BacksOff(run, sleeps, config)
              && taken <= |sleeps| + (if initial.Some? then 0 else 1)
              && FewSleeps(run, sleeps, Min(config.initialDelay, config.maxDelay))
  {
    outcome, taken, sleeps := Failed(UNCONFIGURED), 0, [];
    if !Configured(config) {
      return;
    }
    var startedAt := StartTime(config, clock);
    if startedAt == 0 {
      return;
    }
    ghost var run := Settled(initial, config, clock, answers, evaluate, stamp);
    ghost var least := Min(config.initialDelay, config.maxDelay);
    NothingSlept(run, config.initialDelay, least);
    Start(run);
    Ends(run, 0);
    assert BacksOff(run, [], config);
    hide EndsRight, Run.Stops, SleepsFit, BacksOff, FewSleeps, Paced, Run.Reaches, Run.Smooth, Run.Held, Run.Candidate, Run.Done, Run.CheckedAt, Run.Honest;
    var value, checkedAt := None, startedAt;
    if initial.Some? {
      if initial.value.checkedAt == 0 {
        return;
      }
      checkedAt := initial.value.checkedAt;
      var (next, done) := evaluate(initial.value.value, startedAt);
      value := Some(next);
      if done {
        outcome := Finished(value, startedAt, checkedAt, false);
        return;
      }
    }
    outcome, taken, sleeps := ReadOn(run, value, checkedAt, startedAt, startedAt + config.timeout, config, initial.None?, answers, evaluate, stamp);
    assert UNREADABLE[0] != UNCONFIGURED[0];
  }

  /** The loop of the poll, from a value that is held but not accepted. */
  method ReadOn<T>(ghost run: Run<T>, held: Option<T>, checked: int, startedAt: int, deadline: int, config: Config,
                   unread: bool, answers: seq<Answer<T>>, evaluate: (T, int) -> (T, bool), stamp: (T, int) -> T)
    returns (outcome: Outcome<T>, taken: nat, sleeps: seq<Sleep>)
    requires Configured(config) && run.Reaches(0) && !run.Done(0) && held == run.Held(0) && checked == run.CheckedAt(0)
    requires (run.startedAt, run.deadline, run.answers) == (startedAt, deadline, answers)
    requires run.evaluate == evaluate && run.stamp == stamp && unread == run.initial.None?
    requires SleepsFit(run, []) && BacksOff(run, [], config) && FewSleeps(run, [], Min(config.initialDelay, config.maxDelay))
    requires Paced(run, [], checked, config.initialDelay, Min(config.initialDelay, config.maxDelay))
    ensures EndsRight(run, outcome, taken) && (outcome.Failed? ==> outcome.error == UNREADABLE)
    ensures SleepsFit(run, sleeps) && BacksOff(run, sleeps, config)
    ensures taken <= |sleeps| + (if run.initial.Some? then 0 else 1)
    ensures FewSleeps(run, sleeps, Min(config.initialDelay, config.maxDelay))
  {
    hide EndsRight, Run.Stops, Absorbed, SleepsFit, BacksOff, FewSleeps, Paced, Run.Reaches, Run.Smooth, Run.Held, Run.Candidate, Run.Done, Run.CheckedAt, Run.Honest;
    ghost var least := Min(config.initialDelay, config.maxDelay);
    var value, checkedAt, delay, readImmediately := held, checked, config.initialDelay, unread;
    taken, sleeps := 0, [];
    while true
      invariant taken <= |answers| && run.Reaches(taken) && !run.Done(taken)
      invariant value == run.Held(taken) && checkedAt == run.CheckedAt(taken)
      invariant delay > 0 && readImmediately == (taken == 0 && unread)
      invariant taken == |sleeps| + (if unread && taken > 0 then 1 else 0)
      invariant SleepsFit(run, sleeps) && BacksOff(run, sleeps, config) && delay == NextDelay(sleeps, config)
      invariant Paced(run, sleeps, checkedAt, delay, least) && FewSleeps(run, sleeps, least)
      decreases |answers| - taken
    {
      Ends(run, taken);
      if checkedAt >= deadline {
        outcome := Finished(value, startedAt, checkedAt, true);
        return;
      }
      if taken == |answers| {
        outcome := Unfinished;
        return;
      }
      var sleptBeforeRead := !readImmediately;
      var answer := answers[taken];
      Next(run, taken);
      if sleptBeforeRead {
        ghost var after := if answer.Answer? then answer.checkedAt else deadline;
        SleepKeepsPace(run, sleeps, checkedAt, delay, least, config.maxDelay, taken, after);
        delay := Min(delay, deadline - checkedAt);
        SleepFits(run, sleeps, delay, taken);
        BacksOffOnce(run, sleeps, config, delay, taken);
        sleeps := sleeps + [Sleep(delay, taken)];
      } else if Usable(answer, checkedAt) {
        ReadKeepsPace(run, checkedAt, delay, least, answer.checkedAt);
      }
      readImmediately := false;
      if !Usable(answer, checkedAt) {
        outcome := Failed(UNREADABLE);
        return;
      }
      var next, done := Absorb(value, answer, startedAt, evaluate, stamp);
      AbsorbedIsUnique(value, answer, startedAt, evaluate, stamp, next, done, run.Held(taken + 1), run.Done(taken + 1));
      checkedAt, taken, value := answer.checkedAt, taken + 1, next;
      Ends(run, taken);
      if done {
        outcome := Finished(value, startedAt, checkedAt, false);
        return;
      }
      if checkedAt >= deadline {
        outcome := Finished(value, startedAt, checkedAt, true);
        return;
      }
      if sleptBeforeRead {
        delay := Min(delay * 2, config.maxDelay);
      }
    }
  }

  /** With an honest clock a poll takes at most window / min(initialDelay, maxDelay) + 2 reads,
      so a longer journal cannot leave it unfinished. */
  lemma HonestPollsEnd<T>(run: Run<T>, outcome: Outcome<T>, taken: nat, sleeps: seq<Sleep>, least: int)
    requires EndsRight(run, outcome, taken) && FewSleeps(run, sleeps, least) && run.Honest(sleeps) && least > 0
    requires taken <= |sleeps| + (if run.initial.Some? then 0 else 1)
    ensures run.First() >= run.deadline ==> taken == 0 && !outcome.Unfinished?
    ensures run.First() < run.deadline ==>
              var bound := (run.deadline - run.First()) / least + 2;
              taken <= bound && (|run.answers| > bound ==> !outcome.Unfinished?)
  {
    var window := run.deadline - run.First();
    if window > 0 {
      if |sleeps| > 0 {
        QuotientBounds(|sleeps| - 1, least, window);
      } else {
        QuotientBounds(0, least, window);
      }
    } else {
      assert run.Stops(0);
    }
  }

  lemma QuotientBounds(n: nat, d: int, total: int)
    requires d > 0 && n * d < total
    ensures n <= total / d
  {
    assert total == total / d * d + total % d;
    assert n * d < (total / d + 1) * d;
  }

  /** An accepted value was accepted by evaluating either the initial value or an answer. */
  lemma AcceptedWasEvaluated<T>(run: Run<T>, n: nat) returns (v: T)
    requires run.Reaches(n) && run.Done(n)
    requires forall k :: 0 <= k < n ==> run.answers[k].Answer? ==> run.answers[k].read.useValue
    ensures run.evaluate(v, run.startedAt) == (run.Held(n).value, true)
    ensures if n == 0 then run.initial.Some? && v == run.initial.value.value
            else var a := run.answers[n - 1];
              a.Answer? && !a.read.retryable && v == run.stamp(a.read.value, a.checkedAt)
  {
    v := run.Candidate(n).value;
  }

  /** A timed-out poll made its last check at or past the deadline. */
  lemma TimeoutsAreLate<T>(run: Run<T>, outcome: Outcome<T>, taken: nat)
    requires EndsRight(run, outcome, taken) && outcome.Finished?
    ensures outcome.timedOut ==> outcome.checkedAt >= run.deadline
    ensures !outcome.timedOut ==> outcome.value.Some? && run.Done(taken)
  {
  }

  /** The poll can only end at one place. */
  lemma EndsOnce<T>(run: Run<T>, outcome: Outcome<T>, taken: nat, n: nat)
    requires EndsRight(run, outcome, taken) && run.Reaches(n) && run.Done(n)
    ensures n == taken && outcome == Finished(run.Held(n), run.startedAt, run.CheckedAt(n), false)
  {
    hide Run.Done, Run.Held, Run.CheckedAt;
    assert run.Stops(n);
  }
}
