/** Laws of a whole batch: when applying it can go through, what it leaves at every
    selector, and what it leaves alone. */
module MaterializationLaws {
  import opened Text
  import opened Selectors
  import opened Documents
  import opened Materialization

  // ------------------------------------------------------- accepted batches

  ghost predicate SelectorsIndependent(plans: seq<Plan>) {
    forall i, j :: 0 <= i < j < |plans| ==> PlansIndependent(plans[i], plans[j])
  }

  /** Plans on the same target are file plans with disjoint field paths; a reference touches no
      target, and its selector need not even be one. */
  ghost predicate PlansIndependent(a: Plan, b: Plan) {
    !a.reference && !b.reference ==>
      ValidSyntax(a.selector) && ValidSyntax(b.selector) &&
      (a.location == b.location ==>
         !a.directory && !b.directory && Disjoint(Fields(a.selector), Fields(b.selector)))
  }

  /** The string ownership check makes the plans of an accepted batch independent. */
  lemma AcceptedPlansAreIndependent(fs: Files, items: seq<Item>, intent: Intent, plans: seq<Plan>)
    requires Planned(fs, items, intent, plans)
    ensures SelectorsIndependent(plans)
  {
    forall i, j | 0 <= i < j < |plans|
      ensures PlansIndependent(plans[i], plans[j])
    {
      var a, b := items[i], items[j];
      assert Prepare(fs, a, intent).value == plans[i] && Prepare(fs, b, intent).value == plans[j];
      if !plans[i].reference && !plans[j].reference {
        OverlapIsPrefixRelation(b.selector, a.selector);
      }
      assert Compatible(a, b);
    }
  }

  /** One target strictly inside another. */
  predicate Nested(a: Plan, b: Plan) {
    a.location < b.location || b.location < a.location
  }

  predicate Unnested(plans: seq<Plan>) {
    forall i, j :: 0 <= i < j < |plans| && Mutating(plans[i]) && Mutating(plans[j]) ==> !Nested(plans[i], plans[j])
  }

  ghost predicate ObservedBy(fs: Files, plans: seq<Plan>) {
    forall i :: 0 <= i < |plans| ==> ValidPlan(plans[i]) && (Mutating(plans[i]) ==> ObservedIn(fs, plans[i]))
  }

  // ------------------------------------------------------------ one effect

  /** An effect changes nothing outside its own target. */
  lemma EffectIsConfined(fs: Files, p: Plan)
    requires ValidPlan(p) && !Blocked(p) && Effect(fs, p).Ok?
    ensures Without(Effect(fs, p).value, p.location) == Without(fs, p.location)
  {
  }

  /** Two file systems equal outside a target look the same from any location that
      is neither above nor below it. */
  lemma ObservationIsLocal(fs: Files, fs': Files, changed: Location, l: Location, selector: string, directory: bool)
    requires Without(fs, changed) == Without(fs', changed)
    requires !(changed <= l) && !(l <= changed) && ValidSyntax(selector)
    ensures Observe(fs', l, selector, directory) == Observe(fs, l, selector, directory)
  {
    SameView(fs, fs', changed, l);
    SameView(fs', fs, changed, l);
    assert Within(fs, l) == Within(fs', l);
  }

  /** What lies on the way to, at, or below such a location is the same. */
  lemma SameView(fs: Files, fs': Files, changed: Location, l: Location)
    requires Without(fs, changed) == Without(fs', changed)
    requires !(changed <= l) && !(l <= changed)
    ensures forall k :: k in fs && (k <= l || l <= k) ==> k in fs' && fs[k] == fs'[k]
    ensures BelowFile(fs, l) ==> BelowFile(fs', l)
    ensures DirectoryAt(fs, l) ==> DirectoryAt(fs', l)
  {
    SameOutside(fs, fs', changed);
    forall k | k in fs && (k <= l || l <= k)
      ensures k in fs' && fs[k] == fs'[k]
    {
      assert !(changed <= k);
    }
  }

  lemma SameOutside(fs: Files, fs': Files, changed: Location)
    requires Without(fs, changed) == Without(fs', changed)
    ensures forall k :: !(changed <= k) ==> (k in fs <==> k in fs') && (k in fs ==> fs[k] == fs'[k])
  {
    forall k | !(changed <= k)
      ensures (k in fs <==> k in fs') && (k in fs ==> fs[k] == fs'[k])
    {
      assert k in Without(fs, changed) <==> k in fs;
      assert k in Without(fs', changed) <==> k in fs';
    }
  }

  lemma SameInside(fs: Files, fs': Files, l: Location)
    requires Within(fs, l) == Within(fs', l)
    ensures forall k :: l <= k ==> (k in fs <==> k in fs') && (k in fs ==> fs[k] == fs'[k])
  {
    forall k | l <= k
      ensures (k in fs <==> k in fs') && (k in fs ==> fs[k] == fs'[k])
    {
      assert k in Within(fs, l) <==> k in fs;
      assert k in Within(fs', l) <==> k in fs';
    }
  }

  /** The value a field path reads in the file at a location; a missing file has no fields. */
  function Peek(fs: Files, l: Location, path: seq<string>): Result<Option<Json>> {
    if l !in fs then Ok(None) else SelectContent(fs[l].content, path)
  }

  /** A field edit rewrites one document and leaves disjoint paths reading as before. */
  lemma FieldEditKeepsDisjoint(fs: Files, p: Plan, path: seq<string>)
    requires ValidPlan(p) && !Blocked(p) && Mutating(p) && !p.directory && Effect(fs, p).Ok?
    requires Fields(p.selector) != [] && Disjoint(Fields(p.selector), path)
    ensures var fs' := Effect(fs, p).value;
            && p.location in fs' && fs'[p.location].content.Document?
            && fs'.Keys == fs.Keys + {p.location}
            && Peek(fs', p.location, path) == Peek(fs, p.location, path)
  {
    var desired := if p.operation.Remove? then None else Some(p.desired.content);
    var tree := if p.location in fs then fs[p.location].content.tree else EMPTY_OBJECT;
    if p.operation.Remove? {
      RemoveKeepsDisjoint(tree, Fields(p.selector), path);
    } else {
      MergeKeepsDisjoint(tree, Fields(p.selector), p.desired.content.tree, path);
    }
  }

  /** What an independent, unnested plan would observe stays what it was, whatever that is. */
  lemma EffectKeepsView(fs: Files, p: Plan, q: Plan)
    requires ValidPlan(p) && !Blocked(p) && ValidPlan(q) && !q.reference && Effect(fs, p).Ok?
    requires PlansIndependent(p, q) || PlansIndependent(q, p)
    requires Mutating(p) ==> !Nested(p, q)
    ensures Observe(Effect(fs, p).value, q.location, q.selector, q.directory) == Observe(fs, q.location, q.selector, q.directory)
  {
    var fs' := Effect(fs, p).value;
    if Mutating(p) {
      if p.location == q.location {
        FieldEditKeepsDisjoint(fs, p, Fields(q.selector));
        SameFileView(fs, fs', q);
      } else {
        EffectIsConfined(fs, p);
        PrefixesAreOrdered(p.location, q.location);
        ObservationIsLocal(fs, fs', p.location, q.location, q.selector, q.directory);
      }
    }
  }

  /** An applied plan never invalidates what an independent, unnested plan observed. */
  lemma EffectKeepsObservation(fs: Files, p: Plan, q: Plan)
    requires ValidPlan(p) && !Blocked(p) && ValidPlan(q) && !q.reference && Effect(fs, p).Ok?
    requires PlansIndependent(p, q) || PlansIndependent(q, p)
    requires Mutating(p) ==> !Nested(p, q)
    requires ObservedIn(fs, q)
    ensures ObservedIn(Effect(fs, p).value, q)
  {
    hide Effect, Observe, PlansIndependent;
    EffectKeepsView(fs, p, q);
  }

  lemma PrefixesAreOrdered(a: Location, b: Location)
    requires a != b && !(a < b) && !(b < a)
    ensures !(a <= b) && !(b <= a)
  {
  }

  lemma SameFileView(fs: Files, fs': Files, q: Plan)
    requires ValidPlan(q) && !q.reference && !q.directory && Fields(q.selector) != []
    requires q.location in fs' && fs'.Keys == fs.Keys + {q.location} && ReadFile(fs, q.location).Ok?
    requires Peek(fs', q.location, Fields(q.selector)) == Peek(fs, q.location, Fields(q.selector))
    ensures Observe(fs', q.location, q.selector, false) == Observe(fs, q.location, q.selector, false)
  {
  }

  // -------------------------------------------------------------- whole runs

  /** In an independent, unnested batch no plan's re-observation is ever invalidated
      by the plans applied before it. */
  lemma {:induction false} ReobservationHolds(fs: Files, plans: seq<Plan>, n: nat, i: nat)
    requires Runnable(plans) && n <= i < |plans| && StateAfter(fs, plans, n).Ok?
    requires SelectorsIndependent(plans) && Unnested(plans) && ObservedBy(fs, plans)
    requires Mutating(plans[i])
    ensures ObservedIn(StateAfter(fs, plans, n).value, plans[i])
  {
    if n > 0 {
      ReobservationHolds(fs, plans, n - 1, i);
      assert PlansIndependent(plans[n - 1], plans[i]);
      EffectKeepsObservation(StateAfter(fs, plans, n - 1).value, plans[n - 1], plans[i]);
    }
  }

  /** A file plan whose target still reads as observed can always be applied. */
  lemma ObservedFileIsEditable(fs: Files, p: Plan)
    requires ValidPlan(p) && !Blocked(p) && !p.directory && Mutating(p) && ObservedIn(fs, p)
    ensures Effect(fs, p).Ok?
  {
    if Fields(p.selector) != [] {
      var tree := if p.location in fs then fs[p.location].content.tree else EMPTY_OBJECT;
      if p.operation.Remove? {
        PresentIsRemovable(tree, Fields(p.selector));
      } else {
        MergeFailsWhenSelectFails(tree, Fields(p.selector), p.desired.content.tree);
      }
    }
  }

  predicate FilesOnly(plans: seq<Plan>) {
    forall i :: 0 <= i < |plans| && Mutating(plans[i]) ==> !plans[i].directory
  }

  /** The first n plans install no directory whose files contradict one another. */
  predicate InstallsTrees(plans: seq<Plan>, n: nat)
    requires Runnable(plans) && n <= |plans|
  {
    forall i :: 0 <= i < n && InstallsDirectory(plans[i]) ==> WellFormed(plans[i].desired.files)
  }

  predicate InstallsDirectory(p: Plan)
    requires ValidPlan(p) && !Blocked(p)
  {
    Mutating(p) && p.directory && !p.operation.Remove?
  }

  lemma DirectoryPlanRuns(fs: Files, p: Plan)
    requires ValidPlan(p) && !Blocked(p) && p.directory && Mutating(p) && ObservedIn(fs, p)
    ensures Effect(fs, p).Ok? <==> (InstallsDirectory(p) ==> WellFormed(p.desired.files))
  {
  }

  /** A batch without nested targets, of files and directories, met by no write fault, goes
      through exactly when every directory it installs is a tree. */
  lemma {:induction false} UnnestedBatchRuns(fs: Files, plans: seq<Plan>, n: nat)
    requires Runnable(plans) && n <= |plans|
    requires SelectorsIndependent(plans) && Unnested(plans) && ObservedBy(fs, plans)
    ensures StateAfter(fs, plans, n).Ok? <==> InstallsTrees(plans, n)
  {
    hide Unnested, SelectorsIndependent, WellFormed, ObservedIn;
    if n > 0 {
      UnnestedBatchRuns(fs, plans, n - 1);
      var last := plans[n - 1];
      assert InstallsTrees(plans, n) <==> InstallsTrees(plans, n - 1) && (InstallsDirectory(last) ==> WellFormed(last.desired.files));
      if StateAfter(fs, plans, n - 1).Ok? {
        var before := StateAfter(fs, plans, n - 1).value;
        if Mutating(last) {
          ReobservationHolds(fs, plans, n - 1, n - 1);
          if last.directory {
            DirectoryPlanRuns(before, last);
          } else {
            ObservedFileIsEditable(before, last);
          }
        }
      }
    }
  }

  /** Two nested file targets can both be observed only while neither exists. */
  lemma NestedTargetsWereAbsent(fs: Files, p: Plan, q: Plan)
    requires ValidPlan(p) && ValidPlan(q) && !p.reference && !q.reference && !p.directory && !q.directory && Nested(p, q)
    requires ObservedIn(fs, p) && ObservedIn(fs, q)
    ensures p.observed == Absent && q.observed == Absent
  {
  }

  /** A file written by one plan is still there when a later plan runs. */
  lemma {:induction false} WrittenFileStays(fs: Files, plans: seq<Plan>, i: nat, n: nat)
    requires Runnable(plans) && i < n <= |plans| && FilesOnly(plans)
    requires SelectorsIndependent(plans) && StateAfter(fs, plans, n).Ok?
    requires Mutating(plans[i]) && !plans[i].operation.Remove?
    ensures plans[i].location in StateAfter(fs, plans, n).value
    decreases n
  {
    var before, last := StateAfter(fs, plans, n - 1).value, plans[n - 1];
    if i < n - 1 {
      WrittenFileStays(fs, plans, i, n - 1);
      assert PlansIndependent(plans[i], last);
    }
  }

  lemma EffectStaysWellFormed(fs: Files, p: Plan)
    requires WellFormed(fs) && ValidPlan(p) && !Blocked(p) && Effect(fs, p).Ok?
    ensures WellFormed(Effect(fs, p).value)
  {
    if Mutating(p) {
      assert !BelowFile(fs, p.location);
      if p.directory {
        DirectoryEffectStaysWellFormed(fs, p);
      } else {
        assert p.location !in fs ==> !DirectoryAt(fs, p.location);
        assert Effect(fs, p).value.Keys <= fs.Keys + {p.location};
      }
    }
  }

  lemma DirectoryEffectStaysWellFormed(fs: Files, p: Plan)
    requires WellFormed(fs) && ValidPlan(p) && !Blocked(p) && Effect(fs, p).Ok?
    requires Mutating(p) && p.directory && !BelowFile(fs, p.location)
    ensures WellFormed(Effect(fs, p).value)
  {
    var fs' := Effect(fs, p).value;
    forall a, b | a in fs' && b in fs'
      ensures !(a < b)
    {
      if p.location <= b && !(p.location <= a) && a < b {
        PrefixesOfOne(a, p.location, b);
        assert false;
      }
    }
  }

  lemma PrefixesOfOne(a: Location, l: Location, b: Location)
    requires a <= b && l <= b && !(l <= a)
    ensures a < l
  {
  }

  lemma {:induction false} StaysWellFormed(fs: Files, plans: seq<Plan>, n: nat)
    requires Runnable(plans) && n <= |plans| && WellFormed(fs) && StateAfter(fs, plans, n).Ok?
    ensures WellFormed(StateAfter(fs, plans, n).value)
  {
    if n > 0 {
      StaysWellFormed(fs, plans, n - 1);
      EffectStaysWellFormed(StateAfter(fs, plans, n - 1).value, plans[n - 1]);
    }
  }

  lemma NestedPairFails(fs: Files, plans: seq<Plan>, i: nat, j: nat)
    requires Runnable(plans) && i < j < |plans| && FilesOnly(plans) && WellFormed(fs)
    requires SelectorsIndependent(plans) && ObservedBy(fs, plans)
    requires Mutating(plans[i]) && Mutating(plans[j]) && Nested(plans[i], plans[j])
    ensures StateAfter(fs, plans, j + 1).Err?
  {
    if StateAfter(fs, plans, j).Ok? {
      var now := StateAfter(fs, plans, j).value;
      NestedTargetsWereAbsent(fs, plans[i], plans[j]);
      WrittenFileStays(fs, plans, i, j);
      StaysWellFormed(fs, plans, j);
      var a, b := plans[i].location, plans[j].location;
      assert a < b ==> BelowFile(now, b);
      assert b < a ==> DirectoryAt(now, b) && b !in now;
    }
  }

  lemma {:induction false} FailureSticks(fs: Files, plans: seq<Plan>, m: nat, n: nat)
    requires Runnable(plans) && m <= n <= |plans| && StateAfter(fs, plans, m).Err?
    ensures StateAfter(fs, plans, n).Err?
  {
    if m < n {
      FailureSticks(fs, plans, m, n - 1);
    }
  }

  /** An accepted batch of file targets, met by no write fault, goes through exactly
      when no mutated target lies inside another. The ownership check compares
      targets for equality only and does not see nesting. */
  lemma BatchRunsIffUnnested(fs: Files, items: seq<Item>, intent: Intent, plans: seq<Plan>)
    requires WellFormed(fs) && Planned(fs, items, intent, plans) && Runnable(plans) && FilesOnly(plans)
    ensures StateAfter(fs, plans, |plans|).Ok? <==> Unnested(plans)
  {
    hide Prepare, Effect, SelectorsIndependent, ObservedBy, StateAfter, Acceptable, Planned, WellFormed, Nested;
    AcceptedPlansAreIndependent(fs, items, intent, plans);
    PlannedWasObserved(fs, items, intent, plans);
    if Unnested(plans) {
      UnnestedBatchRuns(fs, plans, |plans|);
    } else {
      var i, j :| 0 <= i < j < |plans| && Mutating(plans[i]) && Mutating(plans[j]) && Nested(plans[i], plans[j]);
      NestedPairFails(fs, plans, i, j);
      FailureSticks(fs, plans, j + 1, |plans|);
    }
  }

  /** An accepted batch of any targets of which none lies inside another, met by no write fault,
      goes through exactly when every directory it installs is a tree. */
  lemma UnnestedBatchRunsIffTrees(fs: Files, items: seq<Item>, intent: Intent, plans: seq<Plan>)
    requires Planned(fs, items, intent, plans) && Runnable(plans) && Unnested(plans)
    ensures StateAfter(fs, plans, |plans|).Ok? <==> InstallsTrees(plans, |plans|)
  {
    hide Prepare, Effect, SelectorsIndependent, ObservedBy, StateAfter, Acceptable, Planned, WellFormed, Nested;
    AcceptedPlansAreIndependent(fs, items, intent, plans);
    PlannedWasObserved(fs, items, intent, plans);
    UnnestedBatchRuns(fs, plans, |plans|);
  }

  lemma PlannedWasObserved(fs: Files, items: seq<Item>, intent: Intent, plans: seq<Plan>)
    requires Planned(fs, items, intent, plans)
    ensures ObservedBy(fs, plans)
  {
  }

  lemma NewFileIsPlanned(item: Item)
    requires ValidItem(item) && item.mode.Managed? && item.approved && item.selector == "$" && !item.directory
    requires item.desired.FileContent? && item.lastApplied == Absent && item.observed == Absent
    ensures Prepare(map[], item, Reconcile).Ok?
    ensures var p := Prepare(map[], item, Reconcile).value;
            p.location == item.location && p.operation.Create? && !p.directory && !p.reference
  {
    hide ValidItem;
    assert Observe(map[], item.location, "$", false) == Ok(Absent);
  }

  /** An input that shows it: "a.json" and "a.json/b.json" are both created, pass the
      ownership check and planning, and the second can never be applied. */
  lemma NestedTargetsPassOwnership() returns (items: seq<Item>, plans: seq<Plan>)
    ensures Planned(map[], items, Reconcile, plans) && Runnable(plans) && FilesOnly(plans)
    ensures StateAfter(map[], plans, |plans|).Err?
  {
    var content := FileContent(Canonical(EMPTY_OBJECT));
    var outer := Item("a", ["home", "a.json"], "$", false, Managed, content, 0x180, Absent, Absent, true, false, true);
    var inner := outer.(id := "b", location := ["home", "a.json", "b.json"]);
    items := [outer, inner];
    assert outer.id[0] == 'a' && inner.id[0] == 'b';
    NewFileIsPlanned(outer);
    NewFileIsPlanned(inner);
    hide ValidItem, Prepare;
    plans := [Prepare(map[], outer, Reconcile).value, Prepare(map[], inner, Reconcile).value];
    assert plans[0].location == ["home", "a.json"] && plans[1].location == ["home", "a.json", "b.json"];
    assert plans[0].location == plans[1].location[..2];
    assert Nested(plans[0], plans[1]);
    assert !Unnested(plans);
    BatchRunsIffUnnested(map[], items, Reconcile, plans);
  }

  // --------------------------------------------------------------- read-back

  /** What a plan's target must read once the plan has been applied. */
  ghost predicate ReadsAsPlanned(fs: Files, p: Plan)
    requires ValidPlan(p) && !Blocked(p) && Mutating(p)
  {
    var path := Fields(p.selector);
    if p.directory then Within(fs, p.location) == (if p.operation.Remove? then map[] else p.desired.files)
    else if p.operation.Remove? then
      if path == [] then p.location !in fs else Peek(fs, p.location, path) == Ok(None)
    else
      p.location in fs &&
      (if path == [] then fs[p.location] == File(p.desired.content, p.fileMode)
       else Peek(fs, p.location, path) == Ok(Some(p.desired.content.tree)))
  }

  lemma EffectReadsBack(fs: Files, p: Plan)
    requires ValidPlan(p) && !Blocked(p) && Mutating(p) && Effect(fs, p).Ok?
    ensures ReadsAsPlanned(Effect(fs, p).value, p)
  {
    if !p.directory && Fields(p.selector) != [] {
      var tree := if p.location in fs then fs[p.location].content.tree else EMPTY_OBJECT;
      if p.operation.Remove? {
        RemoveReadsAbsent(tree, Fields(p.selector));
      } else {
        MergeReadsBack(tree, Fields(p.selector), p.desired.content.tree, []);
        assert Fields(p.selector) + [] == Fields(p.selector);
      }
    }
  }

  /** The locations a plan writes: its file, or everything at and below its directory. */
  predicate Covers(p: Plan, l: Location) {
    Mutating(p) && if p.directory then p.location <= l else p.location == l
  }

  /** An effect touches only what its plan covers. */
  lemma EffectIsLocal(fs: Files, p: Plan, l: Location)
    requires ValidPlan(p) && !Blocked(p) && Effect(fs, p).Ok? && !Covers(p, l)
    ensures var fs' := Effect(fs, p).value; (l in fs <==> l in fs') && (l in fs ==> fs[l] == fs'[l])
  {
  }

  /** No directory target shares a subtree with another target. */
  predicate DirectoriesApart(plans: seq<Plan>) {
    forall i, j :: 0 <= i < j < |plans| && Mutating(plans[i]) && Mutating(plans[j]) ==>
      plans[i].directory || plans[j].directory ==> !Nested(plans[i], plans[j])
  }

  lemma DistantReadsStay(fs: Files, fs': Files, changed: Location, p: Plan)
    requires ValidPlan(p) && !Blocked(p) && Mutating(p) && ReadsAsPlanned(fs, p)
    requires Without(fs, changed) == Without(fs', changed) && !(changed <= p.location) && !(p.location <= changed)
    ensures ReadsAsPlanned(fs', p)
  {
    SameView(fs, fs', changed, p.location);
    SameView(fs', fs, changed, p.location);
    assert Within(fs, p.location) == Within(fs', p.location);
  }

  /** One more plan keeps what an independent plan reads. */
  lemma EffectKeepsReading(fs: Files, p: Plan, q: Plan)
    requires ValidPlan(p) && !Blocked(p) && Effect(fs, p).Ok?
    requires ValidPlan(q) && !Blocked(q) && Mutating(q) && ReadsAsPlanned(fs, q)
    requires PlansIndependent(q, p) && (Mutating(p) && (p.directory || q.directory) ==> !Nested(p, q))
    ensures ReadsAsPlanned(Effect(fs, p).value, q)
  {
    if Mutating(p) && p.location == q.location {
      FieldEditKeepsDisjoint(fs, p, Fields(q.selector));
    } else if Mutating(p) && (p.directory || q.directory) {
      EffectIsConfined(fs, p);
      PrefixesAreOrdered(p.location, q.location);
      DistantReadsStay(fs, Effect(fs, p).value, p.location, q);
    } else if !q.directory {
      EffectIsLocal(fs, p, q.location);
    }
  }

  /** After a successful batch every target reads what its plan promised, whatever the other
      plans did; a directory target must not overlap another target. */
  lemma {:induction false} BatchReadsBack(fs: Files, plans: seq<Plan>, n: nat, i: nat)
    requires Runnable(plans) && i < n <= |plans| && DirectoriesApart(plans)
    requires SelectorsIndependent(plans) && StateAfter(fs, plans, n).Ok? && Mutating(plans[i])
    ensures ReadsAsPlanned(StateAfter(fs, plans, n).value, plans[i])
    decreases n
  {
    hide Effect, ReadsAsPlanned, PlansIndependent;
    var before, last := StateAfter(fs, plans, n - 1).value, plans[n - 1];
    if i == n - 1 {
      EffectReadsBack(before, last);
    } else {
      BatchReadsBack(fs, plans, n - 1, i);
      assert PlansIndependent(plans[i], last);
      EffectKeepsReading(before, last, plans[i]);
    }
  }

  /** Every field path disjoint from all the selectors applied to its file reads as it did
      before the batch, and so does every file no plan covers. */
  lemma {:induction false} BatchKeepsTheRest(fs: Files, plans: seq<Plan>, n: nat, l: Location, path: seq<string>)
    requires Runnable(plans) && n <= |plans| && StateAfter(fs, plans, n).Ok?
    requires forall i :: 0 <= i < n && Covers(plans[i], l) ==>
               !plans[i].directory && Disjoint(Fields(plans[i].selector), path)
    ensures Peek(StateAfter(fs, plans, n).value, l, path) == Peek(fs, l, path)
    ensures (forall i :: 0 <= i < n ==> !Covers(plans[i], l)) ==>
              var fs' := StateAfter(fs, plans, n).value; (l in fs <==> l in fs') && (l in fs ==> fs[l] == fs'[l])
  {
    hide Effect;
    if n > 0 {
      BatchKeepsTheRest(fs, plans, n - 1, l, path);
      var before, last := StateAfter(fs, plans, n - 1).value, plans[n - 1];
      if Covers(last, l) {
        FieldEditKeepsDisjoint(before, last, path);
      } else {
        EffectIsLocal(before, last, l);
      }
    }
  }
}
