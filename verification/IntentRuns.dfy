/** Any number of concurrent CreateOrReplayConnectionIntent calls, each split at its
    unlocked preparation, interleaved with consumption, pruning and Operation writers. */
module IntentRuns {
  import opened Text
  import opened Times
  import opened ConnectionIntents

  datatype Phase = Replaying | Preparing | Persisting | Racing | Finished

  /** A call fixes its observation time and expiry once, when it starts. */
  datatype Call = Call(key: Key, environment: string, observedAt: Time, expiresAt: Time, phase: Phase)

  /** A call that succeeded, and the moment its deciding transaction ran. */
  datatype Completion = Completion(key: Key, environment: string, id: string, expiresAt: Time, at: Time)

  /** A consumption as it was asked for, and the row it spent as it was found. */
  datatype Consumption = Consumption(owner: string, id: string, environment: string, at: Time, key: Key, row: Intent)

  datatype World = World(
    db: Database, clock: Time, calls: map<nat, Call>,
    completions: seq<Completion>, consumed: seq<Consumption>, minted: set<string>)

  datatype Event =
    | Begin(call: nat, key: Key, environment: string, lifetime: Time)
    | RunReplay(call: nat)
    | RunPrepare(call: nat, prepared: bool)
    | RunPersist(call: nat, checked: Result<Option<string>>, mint: string)
    | RunRaceReplay(call: nat)
    | Consume(key: Key, owner: string, id: string, environment: string, at: Time)
    | PruneExpired(boundary: Time)
    | ReserveOperation(key: Key, operation: Operation, allowed: bool)
    | Tick(elapsed: Time)

  predicate InPhase(w: World, call: nat, phase: Phase) {
    call in w.calls && w.calls[call].phase == phase
  }

  /** Which events can happen: minted identities are fresh, and nobody reads a clock
      that is ahead of the shared one. */
  predicate Enabled(w: World, e: Event) {
    match e
    case Begin(call, _, _, lifetime) => call !in w.calls && lifetime > 0
    case RunReplay(call) => InPhase(w, call, Replaying)
    case RunPrepare(call, _) => InPhase(w, call, Preparing)
    case RunPersist(call, _, mint) => InPhase(w, call, Persisting) && mint !in w.minted
    case RunRaceReplay(call) => InPhase(w, call, Racing)
    case Consume(key, owner, id, environment, at) =>
      at <= w.clock && Spendable(w.db, key, owner, id, environment, at)
    case PruneExpired(boundary) => boundary <= w.clock
    case ReserveOperation(key, operation, allowed) => Reserve(w.db, key, operation, allowed, w.clock).Ok?
    case Tick(elapsed) => elapsed >= 0
  }

  function Move(w: World, call: nat, phase: Phase): World
    requires call in w.calls
  {
    w.(calls := w.calls[call := w.calls[call].(phase := phase)])
  }

  function Succeed(w: World, call: nat, record: Intent): World
    requires call in w.calls
  {
    var c := w.calls[call];
    Move(w, call, Finished).(
      completions := w.completions + [Completion(c.key, c.environment, record.id, record.expiresAt, w.clock)])
  }

  function Step(w: World, e: Event): World
    requires Enabled(w, e)
  {
    match e
    case Begin(call, key, environment, lifetime) =>
      w.(calls := w.calls[call := Call(key, environment, w.clock, w.clock + lifetime, Replaying)])
    case RunReplay(call) =>
      var c := w.calls[call];
      (match Replay(w.db, c.key, c.environment, c.observedAt)
       case Err(_) => Move(w, call, Finished)
       case Ok(Some(existing)) => Succeed(w, call, existing)
       case Ok(None) => Move(w, call, Preparing))
    case RunPrepare(call, prepared) => Move(w, call, if prepared then Persisting else Finished)
    case RunPersist(call, checked, mint) =>
      var c := w.calls[call];
      var outcome := PersistOutcome(w.db, c.key, c.environment, c.observedAt, c.expiresAt, checked, mint, w.clock);
      var next := w.(db := Persist(w.db, c.key, c.environment, c.observedAt, c.expiresAt, checked, mint, w.clock),
                     minted := w.minted + {mint});
      (match outcome
       case Refused(_) => Move(next, call, Finished)
       case Raced => Move(next, call, Racing)
       case Returned(record) => Succeed(next, call, record))
    case RunRaceReplay(call) =>
      var c := w.calls[call];
      (match Replay(w.db, c.key, c.environment, c.observedAt)
       case Ok(Some(existing)) => Succeed(w, call, existing)
       case _ => Move(w, call, Finished))
    case Consume(key, owner, id, environment, at) =>
      w.(db := Spend(w.db, key, at),
         consumed := w.consumed + [Consumption(owner, id, environment, at, key, w.db.intents[key])])
    case PruneExpired(boundary) => w.(db := Prune(w.db, boundary))
    case ReserveOperation(key, operation, allowed) => w.(db := Reserve(w.db, key, operation, allowed, w.clock).value)
    case Tick(elapsed) => w.(clock := w.clock + elapsed)
  }

  predicate Start(w: World) {
    w.db == Database(map[], map[]) && w.calls == map[] && w.completions == [] && w.consumed == [] && w.minted == {}
  }

  /** A history of worlds, each reached from the one before by some enabled event. */
  ghost predicate Execution(history: seq<World>) {
    && history != [] && Start(history[0])
    && forall i :: 0 < i < |history| ==> Reaches(history[i - 1], history[i])
  }

  ghost predicate Reaches(w: World, w': World) {
    exists e :: Enabled(w, e) && w' == Step(w, e)
  }

  // -------------------------------------------------------------- invariants

  ghost predicate KeysExclusive(w: World) {
    Exclusive(w.db, w.clock)
  }

  ghost predicate IdentitiesFresh(w: World) {
    && (forall key :: key in w.db.intents ==> w.db.intents[key].id in w.minted)
    && DistinctIdentities(w.db)
  }

  /** Spent identities are spent once, and an unused row is not among them. */
  ghost predicate SpentOnce(w: World) {
    && (forall i, j :: 0 <= i < j < |w.consumed| ==> w.consumed[i].id != w.consumed[j].id)
    && (forall i :: 0 <= i < |w.consumed| ==> w.consumed[i].id in w.minted)
    && (forall key, i :: key in w.db.intents && w.db.intents[key].usedAt.None? && 0 <= i < |w.consumed| ==>
          w.db.intents[key].id != w.consumed[i].id)
  }

  ghost predicate CallsObserved(w: World) {
    forall c :: c in w.calls ==> w.calls[c].observedAt <= w.clock
  }

  /** Every row expires at a whole microsecond. */
  ghost predicate WholeExpiries(w: World) {
    forall key :: key in w.db.intents ==> w.db.intents[key].expiresAt % MICROSECOND == 0
  }

  /** As long as a returned Intent lives in the table, its row stays. */
  ghost predicate LivesInTable(w: World, c: Completion) {
    w.clock < StoredTime(c.expiresAt) ==>
      c.key in w.db.intents && w.db.intents[c.key].id == c.id &&
      w.db.intents[c.key].expiresAt == StoredTime(c.expiresAt) && w.db.intents[c.key].environment == c.environment
  }

  ghost predicate CompletionsAgree(w: World) {
    && (forall i :: 0 <= i < |w.completions| ==> LivesInTable(w, w.completions[i]))
    && (forall i, j :: 0 <= i < j < |w.completions| ==> Agree(w.completions[i], w.completions[j]))
  }

  /** Two successes on one key within the first one's stored lifetime are the same Intent. */
  ghost predicate Agree(first: Completion, second: Completion) {
    first.key == second.key && second.at < StoredTime(first.expiresAt) ==>
      second.id == first.id && second.environment == first.environment
      && StoredTime(second.expiresAt) == StoredTime(first.expiresAt)
  }

  ghost predicate Invariant(w: World) {
    KeysExclusive(w) && IdentitiesFresh(w) && SpentOnce(w) && CallsObserved(w) && WholeExpiries(w) && CompletionsAgree(w)
  }

  // ------------------------------------------------------------- preservation

  /** A row that is still alive is never replaced, pruned or re-identified. */
  lemma LivingRowsStay(w: World, e: Event, key: Key)
    requires Enabled(w, e) && CallsObserved(w)
    requires key in w.db.intents && Step(w, e).clock < w.db.intents[key].expiresAt
    ensures var row := w.db.intents[key];
            var after := Step(w, e).db.intents;
            key in after && after[key].id == row.id && after[key].expiresAt == row.expiresAt &&
            after[key].environment == row.environment
  {
  }

  /** A success returns the row its key holds at that moment; of a new Intent the row keeps the
      expiry as it is stored. */
  lemma SuccessReturnsTheRow(w: World, e: Event)
    requires Enabled(w, e) && WholeExpiries(w) && |Step(w, e).completions| > |w.completions|
    ensures var n := Step(w, e);
            && n.clock == w.clock && n.completions == w.completions + [n.completions[|w.completions|]]
            && var c := n.completions[|w.completions|];
            && c.at == n.clock && c.key in n.db.intents
            && n.db.intents[c.key].id == c.id && n.db.intents[c.key].expiresAt == StoredTime(c.expiresAt)
            && n.db.intents[c.key].environment == c.environment
  {
  }

  lemma CompletionsAreKept(w: World, e: Event)
    requires Enabled(w, e)
    ensures Step(w, e).completions == w.completions || |Step(w, e).completions| == |w.completions| + 1
    ensures w.completions <= Step(w, e).completions && w.clock <= Step(w, e).clock
  {
  }

  lemma AgreementIsKept(w: World, e: Event)
    requires Enabled(w, e) && CallsObserved(w) && WholeExpiries(w) && CompletionsAgree(w)
    ensures CompletionsAgree(Step(w, e))
  {
    hide Enabled, Step;
    var n := Step(w, e);
    CompletionsAreKept(w, e);
    forall i | 0 <= i < |w.completions|
      ensures LivesInTable(n, w.completions[i])
    {
      var c := w.completions[i];
      assert LivesInTable(w, c);
      if n.clock < StoredTime(c.expiresAt) {
        LivingRowsStay(w, e, c.key);
      }
    }
    if |n.completions| > |w.completions| {
      SuccessReturnsTheRow(w, e);
    }
  }

  lemma ExclusionIsKept(w: World, e: Event)
    requires Enabled(w, e) && KeysExclusive(w) && CallsObserved(w)
    ensures KeysExclusive(Step(w, e))
  {
  }

  lemma FreshnessIsKept(w: World, e: Event)
    requires Enabled(w, e) && IdentitiesFresh(w) && CallsObserved(w)
    ensures IdentitiesFresh(Step(w, e)) && CallsObserved(Step(w, e))
  {
  }

  lemma ExpiriesStayWhole(w: World, e: Event)
    requires Enabled(w, e) && WholeExpiries(w)
    ensures WholeExpiries(Step(w, e))
  {
    hide StoredTime;
  }

  lemma SpendingIsKept(w: World, e: Event)
    requires Enabled(w, e) && IdentitiesFresh(w) && SpentOnce(w)
    ensures SpentOnce(Step(w, e))
  {
  }

  lemma StepKeepsInvariant(w: World, e: Event)
    requires Invariant(w) && Enabled(w, e)
    ensures Invariant(Step(w, e))
  {
    hide Enabled, Step;
    ExclusionIsKept(w, e);
    FreshnessIsKept(w, e);
    SpendingIsKept(w, e);
    ExpiriesStayWhole(w, e);
    AgreementIsKept(w, e);
  }

  lemma {:induction false} ExecutionsKeepInvariant(history: seq<World>, n: nat)
    requires Execution(history) && n < |history|
    ensures Invariant(history[n])
  {
    if n > 0 {
      ExecutionsKeepInvariant(history, n - 1);
      assert Reaches(history[n - 1], history[n]);
      var e :| Enabled(history[n - 1], e) && history[n] == Step(history[n - 1], e);
      StepKeepsInvariant(history[n - 1], e);
    }
  }

  // ------------------------------------------------------------ consumptions

  /** Some call returned this Intent under this key, for this Environment and with this stored expiry. */
  ghost predicate WasReturned(completions: seq<Completion>, key: Key, id: string, environment: string, expiresAt: Time) {
    exists i :: 0 <= i < |completions|
      && completions[i].key == key && completions[i].id == id && completions[i].environment == environment
      && StoredTime(completions[i].expiresAt) == expiresAt
  }

  ghost predicate RowsWereReturned(w: World) {
    forall key :: key in w.db.intents ==>
      WasReturned(w.completions, key, w.db.intents[key].id, w.db.intents[key].environment, w.db.intents[key].expiresAt)
  }

  /** The consumption is of an unused Intent that was returned to this owner for this Environment,
      before its stored expiry. */
  ghost predicate Entitled(completions: seq<Completion>, c: Consumption) {
    && c.key.owner == c.owner && c.row.id == c.id && c.row.environment == c.environment
    && c.row.usedAt.None? && c.at < c.row.expiresAt
    && WasReturned(completions, c.key, c.id, c.environment, c.row.expiresAt)
  }

  lemma ReturnedStays(before: seq<Completion>, after: seq<Completion>, key: Key, id: string, environment: string, expiresAt: Time)
    requires before <= after && WasReturned(before, key, id, environment, expiresAt)
    ensures WasReturned(after, key, id, environment, expiresAt)
  {
    hide StoredTime;
    var i :| 0 <= i < |before| && before[i].key == key && before[i].id == id && before[i].environment == environment
             && StoredTime(before[i].expiresAt) == expiresAt;
    assert after[i] == before[i];
  }

  /** A row is the one from before, up to its use, or the one a success has just returned. */
  lemma RowsComeFromSuccesses(w: World, e: Event, key: Key)
    requires Enabled(w, e) && WholeExpiries(w) && key in Step(w, e).db.intents
    ensures var n, row := Step(w, e), Step(w, e).db.intents[key];
            || (key in w.db.intents && row == w.db.intents[key].(usedAt := row.usedAt))
            || (&& |n.completions| == |w.completions| + 1
                && var c := n.completions[|w.completions|];
                c.key == key && c.id == row.id && c.environment == row.environment && StoredTime(c.expiresAt) == row.expiresAt)
  {
    hide StoredTime;
  }

  lemma RowsStayReturned(w: World, e: Event)
    requires Enabled(w, e) && WholeExpiries(w) && RowsWereReturned(w)
    ensures RowsWereReturned(Step(w, e))
  {
    hide Enabled, Step, WholeExpiries, WasReturned;
    var n := Step(w, e);
    CompletionsAreKept(w, e);
    forall key | key in n.db.intents
      ensures WasReturned(n.completions, key, n.db.intents[key].id, n.db.intents[key].environment, n.db.intents[key].expiresAt)
    {
      RowsComeFromSuccesses(w, e, key);
      var row := n.db.intents[key];
      if key in w.db.intents && row == w.db.intents[key].(usedAt := row.usedAt) {
        ReturnedStays(w.completions, n.completions, key, row.id, row.environment, row.expiresAt);
      } else {
        JustReturned(n.completions, |w.completions|, row);
      }
    }
  }

  lemma JustReturned(completions: seq<Completion>, i: nat, row: Intent)
    requires i < |completions| && completions[i].id == row.id && completions[i].environment == row.environment
    requires StoredTime(completions[i].expiresAt) == row.expiresAt
    ensures WasReturned(completions, completions[i].key, row.id, row.environment, row.expiresAt)
  {
    hide StoredTime;
  }

  /** What one step consumes was entitled to be. */
  lemma OneMoreConsumption(w: World, e: Event)
    requires Enabled(w, e) && RowsWereReturned(w) && Step(w, e).consumed != w.consumed && WholeExpiries(w)
    ensures var c := Step(w, e).consumed[|Step(w, e).consumed| - 1];
            Step(w, e).consumed == w.consumed + [c] && Entitled(w.completions, c)
  {
    hide WasReturned;
    assert e.Consume?;
  }

  ghost predicate AllEntitled(w: World) {
    forall i :: 0 <= i < |w.consumed| ==> Entitled(w.completions, w.consumed[i])
  }

  lemma EntitlementsStay(w: World, e: Event)
    requires Enabled(w, e) && RowsWereReturned(w) && WholeExpiries(w) && AllEntitled(w)
    ensures AllEntitled(Step(w, e))
  {
    hide Enabled, Step, RowsWereReturned, WholeExpiries, WasReturned;
    var n := Step(w, e);
    CompletionsAreKept(w, e);
    if n.consumed != w.consumed {
      OneMoreConsumption(w, e);
    }
    forall i | 0 <= i < |n.consumed|
      ensures Entitled(n.completions, n.consumed[i])
    {
      var c := n.consumed[i];
      assert Entitled(w.completions, c);
      ReturnedStays(w.completions, n.completions, c.key, c.id, c.environment, c.row.expiresAt);
    }
  }

  lemma {:induction false} ConsumptionsAreEntitled(history: seq<World>, n: nat)
    requires Execution(history) && n < |history|
    ensures RowsWereReturned(history[n]) && AllEntitled(history[n])
  {
    if n > 0 {
      ConsumptionsAreEntitled(history, n - 1);
      ExecutionsKeepInvariant(history, n - 1);
      assert Reaches(history[n - 1], history[n]);
      var e :| Enabled(history[n - 1], e) && history[n] == Step(history[n - 1], e);
      hide Enabled, Step, RowsWereReturned, AllEntitled;
      RowsStayReturned(history[n - 1], e);
      EntitlementsStay(history[n - 1], e);
    }
  }

  /** Over every execution: what is consumed was returned by a create of that owner for that
      Environment, had not been used, and is consumed before its stored expiry. */
  lemma NothingElseIsConsumed(history: seq<World>, n: nat, i: nat)
    requires Execution(history) && n < |history| && i < |history[n].consumed|
    ensures var c := history[n].consumed[i];
            && c.row.usedAt.None? && c.at < c.row.expiresAt
            && exists completion <- history[n].completions ::
                 && completion.key.owner == c.owner && completion.id == c.id && completion.environment == c.environment
                 && c.at < StoredTime(completion.expiresAt) == c.row.expiresAt
  {
    ConsumptionsAreEntitled(history, n);
    hide Execution, StoredTime;
    var w := history[n];
    var c := w.consumed[i];
    assert Entitled(w.completions, c);
    var k :| 0 <= k < |w.completions|
      && w.completions[k].key == c.key && w.completions[k].id == c.id && w.completions[k].environment == c.environment
      && StoredTime(w.completions[k].expiresAt) == c.row.expiresAt;
    assert w.completions[k] in w.completions;
  }

  /** And everything that is entitled can be: a row can be spent exactly by its owner, for its
      Environment, under its identity, unused, and before it expires. */
  lemma ConsumableExactly(w: World, key: Key, owner: string, id: string, environment: string, at: Time)
    requires WholeExpiries(w)
    ensures Enabled(w, Consume(key, owner, id, environment, at)) <==>
              && at <= w.clock && key in w.db.intents && key.owner == owner
              && var row := w.db.intents[key];
              && row.id == id && row.environment == environment && row.usedAt.None?
              && row.createdAt < row.expiresAt && at < row.expiresAt
  {
  }

  // ------------------------------------------------- pruning and Operations

  /** Pruning leaves no row that has expired at the boundary, and every row that has not. */
  lemma PruningRemovesExactlyTheExpired(history: seq<World>, n: nat, boundary: Time, key: Key)
    requires Execution(history) && n < |history|
    ensures key in Prune(history[n].db, boundary).intents <==>
              key in history[n].db.intents && boundary < history[n].db.intents[key].expiresAt
    ensures key in Prune(history[n].db, boundary).intents ==>
              Prune(history[n].db, boundary).intents[key] == history[n].db.intents[key]
    ensures Prune(history[n].db, boundary).operations == history[n].db.operations
  {
    ExecutionsKeepInvariant(history, n);
    hide Execution, KeysExclusive, IdentitiesFresh, SpentOnce, CallsObserved, CompletionsAgree;
    PrunedExactly(history[n], boundary, key);
  }

  lemma PrunedExactly(w: World, boundary: Time, key: Key)
    requires WholeExpiries(w)
    ensures key in Prune(w.db, boundary).intents <==> key in w.db.intents && boundary < w.db.intents[key].expiresAt
  {
  }

  /** Once a key has an Operation, it keeps that Operation over any further execution. */
  lemma {:induction false} FirstOperationStays(history: seq<World>, m: nat, n: nat, key: Key)
    requires Execution(history) && m <= n < |history| && key in history[m].db.operations
    ensures key in history[n].db.operations && history[n].db.operations[key] == history[m].db.operations[key]
  {
    if m < n {
      FirstOperationStays(history, m, n - 1, key);
      assert Reaches(history[n - 1], history[n]);
    }
  }

  /** A key that has an Operation accepts exactly requests for the same Environment, kind and input,
      and they change nothing. */
  lemma OnlyTheSameOperationReplays(history: seq<World>, n: nat, key: Key, operation: Operation, allowed: bool)
    requires Execution(history) && n < |history| && key in history[n].db.operations
    ensures var existing := history[n].db.operations[key];
            Enabled(history[n], ReserveOperation(key, operation, allowed)) <==>
              && operation.environment == existing.environment && operation.kind == existing.kind && operation.input == existing.input
    ensures Enabled(history[n], ReserveOperation(key, operation, allowed)) ==>
              Step(history[n], ReserveOperation(key, operation, allowed)) == history[n]
  {
    ExecutionsKeepInvariant(history, n);
  }

  // ------------------------------------------------------------------ theorems

  /** No interleaving gives one (owner, key) both an Operation and a living Intent. */
  lemma OperationAndIntentExclude(history: seq<World>, n: nat, key: Key)
    requires Execution(history) && n < |history|
    ensures var w := history[n];
            !(key in w.db.operations && key in w.db.intents && w.clock < w.db.intents[key].expiresAt)
  {
    ExecutionsKeepInvariant(history, n);
  }

  /** Each Intent identity is consumed at most once. */
  lemma ConsumedAtMostOnce(history: seq<World>, n: nat, i: nat, j: nat)
    requires Execution(history) && n < |history| && i < j < |history[n].consumed|
    ensures history[n].consumed[i].id != history[n].consumed[j].id
  {
    ExecutionsKeepInvariant(history, n);
  }

  /** All calls that succeed on one owner and key within the stored lifetime of the Intent
      first returned get that same Intent, and were for the same Environment. */
  lemma OneIntentPerLifetime(history: seq<World>, n: nat, i: nat, j: nat)
    requires Execution(history) && n < |history| && i < j < |history[n].completions|
    requires history[n].completions[i].key == history[n].completions[j].key
    requires history[n].completions[j].at < StoredTime(history[n].completions[i].expiresAt)
    ensures history[n].completions[j].id == history[n].completions[i].id
    ensures history[n].completions[j].environment == history[n].completions[i].environment
  {
    ExecutionsKeepInvariant(history, n);
    assert Agree(history[n].completions[i], history[n].completions[j]);
  }

  /** With fresh identities the insert race the code guards against cannot happen. */
  lemma FreshMintNeverRaces(w: World, key: Key, mint: string)
    requires Invariant(w) && mint !in w.minted
    ensures Unminted(w.db, key, mint)
  {
  }

  // --------------------------------------------------- the end of a lifetime

  const KEY := Key("owner", "key")

  /** A create that finds no living Intent and nothing in its way. */
  lemma OneCreate(w: World, call: nat, lifetime: Time, id: string) returns (more: seq<World>)
    requires call !in w.calls && lifetime > 0 && id != "" && id !in w.minted
    requires w.db.operations == map[] && w.db.intents.Keys <= {KEY}
    requires KEY in w.db.intents ==> w.db.intents[KEY].expiresAt != 0 && w.db.intents[KEY].expiresAt <= w.clock
    ensures |more| == 4 && Reaches(w, more[0]) && forall i :: 0 < i < 4 ==> Reaches(more[i - 1], more[i])
    ensures var n := more[3];
            && n.clock == w.clock && n.db.operations == map[] && n.db.intents.Keys == {KEY}
            && n.db.intents[KEY].expiresAt == StoredTime(w.clock + lifetime)
            && n.minted == w.minted + {id} && n.calls.Keys == w.calls.Keys + {call}
            && n.completions == w.completions + [Completion(KEY, "environment", id, w.clock + lifetime, w.clock)]
  {
    hide StoredTime;
    var a := Step(w, Begin(call, KEY, "environment", lifetime));
    assert Enabled(w, Begin(call, KEY, "environment", lifetime));
    var b := Step(a, RunReplay(call));
    assert Enabled(a, RunReplay(call)) && b.calls[call].phase == Preparing;
    var c := Step(b, RunPrepare(call, true));
    assert Enabled(b, RunPrepare(call, true));
    var d := Step(c, RunPersist(call, Ok(None), id));
    assert Enabled(c, RunPersist(call, Ok(None), id)) && Unminted(c.db, KEY, id);
    more := [a, b, c, d];
  }

  /** The expiry a new Intent is returned with may lie up to a microsecond after the stored one.
      For every lifetime that does not end at a whole microsecond there is an execution in which
      a second create, before that expiry, returns another Intent. */
  lemma TwoIntentsInOneLifetime(clock: Time, lifetime: Time) returns (history: seq<World>)
    requires lifetime > 0 && (clock + lifetime) % MICROSECOND != 0 && StoredTime(clock + lifetime) != 0
    ensures Execution(history) && history[0].clock == clock
    ensures var done := history[|history| - 1].completions;
            && |done| == 2 && done[0].key == done[1].key && done[0].expiresAt == clock + lifetime
            && done[1].at < done[0].expiresAt && done[1].id != done[0].id
  {
    hide StoredTime, Enabled, Step;
    var w := World(Database(map[], map[]), clock, map[], [], [], {});
    var first := OneCreate(w, 0, lifetime, "first");
    var wait := if StoredTime(clock + lifetime) > clock then StoredTime(clock + lifetime) - clock else 0;
    var later := first[3].(clock := clock + wait);
    Waits(first[3], wait);
    var second := OneCreate(later, 1, lifetime, "second");
    history := [w] + first + [later] + second;
    assert history[0] == w && (forall i :: 1 <= i < 5 ==> history[i] == first[i - 1]) && history[5] == later;
    assert forall i :: 6 <= i < 10 ==> history[i] == second[i - 6];
    assert "first" != "second";
  }

  lemma Waits(w: World, elapsed: Time)
    requires elapsed >= 0
    ensures Reaches(w, w.(clock := w.clock + elapsed))
  {
    assert Enabled(w, Tick(elapsed));
  }
}
