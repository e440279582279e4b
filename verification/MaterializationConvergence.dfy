/** What a reconciliation may overwrite, and when repeating it does nothing. */
module MaterializationConvergence {
  import opened Text
  import opened Selectors
  import opened Documents
  import JsonText
  import opened Materialization
  import opened MaterializationLaws
  import opened MaterializationOrder
  import opened MaterializationNesting

  /** The target holds something other than what was last installed there. */
  predicate LocallyEdited(item: Item) {
    !item.observed.Absent? && item.observed != item.lastApplied
  }

  /** A plan that will be carried out and changes its target. */
  predicate CarriesOut(p: Plan) {
    Mutating(p) && !Blocked(p)
  }

  /** An accepted plan replaces or removes a local edit exactly when it is approved and either
      prunes a target whose source is gone or refreshes a seeded target whose cache key changed. */
  lemma LocalEditsAreKeptExceptBy(fs: Files, item: Item, intent: Intent)
    requires Prepare(fs, item, intent).Ok? && LocallyEdited(item)
    ensures CarriesOut(Prepare(fs, item, intent).value) <==>
              && item.approved && !item.mode.Referenced?
              && if item.desired.Nothing? then intent.Prune?
                 else item.mode.Seeded? && !item.lastApplied.Absent? && item.cacheKeyChanged
  {
  }

  /** An input that shows the refresh: a seeded file edited by hand is planned for an update. */
  lemma SeededRefreshReplacesEdits() returns (fs: Files, item: Item)
    ensures item.mode.Seeded? && LocallyEdited(item) && Prepare(fs, item, Reconcile).Ok?
    ensures CarriesOut(Prepare(fs, item, Reconcile).value)
  {
    var location := ["home", "notes"];
    fs := map[location := File(Opaque("edited"), 420)];
    item := Item("seed", location, "$", false, Seeded, FileContent(Opaque("seed")), 420,
                 OfContent(Opaque("seed")), OfContent(Opaque("edited")), false, true, true);
    assert item.id[0] == 's';
    assert !BelowFile(fs, location);
    assert Observe(fs, location, "$", false) == Ok(OfContent(Opaque("edited")));
  }

  /** The item as the next run finds it recorded, its cache key settled. */
  function Recorded(item: Item): Item {
    var digest := DesiredDigest(item.desired);
    item.(lastApplied := digest, observed := digest, cacheKeyChanged := false)
  }

  /** What is read of an installed item as such: an installed field is read as the canonical text of
      its value, an installed file as its own text, a directory as its files. */
  function Reread(item: Item): Digest
    requires ValidItem(item) && !item.mode.Referenced? && !item.desired.Nothing?
  {
    match item.desired
    case Tree(files) => OfTree(files)
    case FileContent(content) => OfContent(if Fields(item.selector) == [] then content else Canonical(content.tree))
  }

  /** The item owns a whole file or directory, or its text is canonical. */
  predicate Settles(item: Item)
    requires ValidItem(item) && !item.mode.Referenced?
  {
    !item.desired.FileContent? || Fields(item.selector) == [] ||
    (item.desired.content.Document? && item.desired.content.text == JsonText.Encode(item.desired.content.tree))
  }

  /** Everything a carried-out plan says about its item. */
  lemma PlanOf(fs: Files, item: Item)
    requires Prepare(fs, item, Reconcile).Ok? && CarriesOut(Prepare(fs, item, Reconcile).value)
    ensures var p := Prepare(fs, item, Reconcile).value;
            && !p.operation.Remove? && ValidItem(item) && !item.mode.Referenced? && !item.desired.Nothing?
            && p.location == item.location && p.selector == Normalize(item.selector) && p.desired == item.desired
            && p.directory == item.directory && ValidSyntax(item.selector) && ValidSyntax(p.selector) && Fields(p.selector) == Fields(item.selector)
            && item.directory == item.desired.Tree?
  {
  }

  lemma InstalledIsReread(fs: Files, p: Plan, item: Item)
    requires WellFormed(fs) && ValidPlan(p) && CarriesOut(p) && !p.operation.Remove? && ReadsAsPlanned(fs, p)
    requires ValidItem(item) && !item.mode.Referenced? && item.desired.FileContent?
    requires p.location == item.location && p.desired == item.desired && p.directory == item.directory
    requires Fields(p.selector) == Fields(item.selector)
    ensures Observe(fs, item.location, item.selector, item.directory) == Ok(Reread(item))
  {
    assert !BelowFile(fs, p.location);
  }

  /** What the whole batch leaves at an installed item: a file that no later plan lies around is read
      as such; for a directory, and for anything inside a later directory, the plans decide. */
  function FinallyReads(items: seq<Item>, plans: seq<Plan>, i: nat): Result<Digest>
    requires Runnable(plans) && i < |plans| == |items| && Mutating(plans[i])
    requires ValidItem(items[i]) && !items[i].mode.Referenced? && !items[i].desired.Nothing?
  {
    if plans[i].directory || LastAround(plans, i + 1, |plans|, plans[i].location).Some?
    then Leaves(plans, i) else Ok(Reread(items[i]))
  }

  lemma {:induction false} InstalledItemReads(fs: Files, items: seq<Item>, plans: seq<Plan>, i: nat)
    requires WellFormed(fs) && Planned(fs, items, Reconcile, plans) && Runnable(plans)
    requires StateAfter(fs, plans, |plans|).Ok? && i < |plans| && CarriesOut(plans[i])
    ensures |items| == |plans| && ValidItem(items[i]) && !items[i].mode.Referenced? && !items[i].desired.Nothing?
    ensures var seen := Observe(StateAfter(fs, plans, |plans|).value, items[i].location, items[i].selector, items[i].directory);
            seen == FinallyReads(items, plans, i) || (seen.Err? && FinallyReads(items, plans, i).Err?)
  {
    hide Effect, Acceptable, WellFormed, Observe, ReadsAsPlanned, ValidItem, ValidPlan, Prepare, SelectorsIndependent, ObservedBy, Leaves;
    AcceptedPlansAreIndependent(fs, items, Reconcile, plans);
    PlannedWasObserved(fs, items, Reconcile, plans);
    PlannedAt(fs, items, Reconcile, plans, i);
    PlanOf(fs, items[i]);
    var after := StateAfter(fs, plans, |plans|).value;
    if plans[i].directory || LastAround(plans, i + 1, |plans|, plans[i].location).Some? {
      LeavesIsSeen(fs, plans, i);
      SameFieldsSameView(after, plans[i], items[i]);
    } else {
      StaysWellFormed(fs, plans, |plans|);
      FileReadsBack(fs, plans, i, |plans|);
      InstalledIsReread(after, plans[i], items[i]);
    }
  }

  lemma SameFieldsSameView(fs: Files, p: Plan, item: Item)
    requires ValidPlan(p) && !p.reference && ValidSyntax(item.selector) && Fields(p.selector) == Fields(item.selector)
    requires p.location == item.location && p.directory == item.directory
    ensures Seen(fs, p) == Observe(fs, item.location, item.selector, item.directory)
  {
  }

  lemma PlannedAt(fs: Files, items: seq<Item>, intent: Intent, plans: seq<Plan>, i: nat)
    requires Planned(fs, items, intent, plans) && i < |plans|
    ensures |items| == |plans| && Prepare(fs, items[i], intent) == Ok(plans[i])
  {
  }

  /** The digest of an installed item survives the whole batch: in the end its target reads as what
      was desired. */
  predicate SettlesAmong(items: seq<Item>, plans: seq<Plan>, i: nat)
    requires Runnable(plans) && i < |plans| == |items| && Mutating(plans[i])
    requires ValidItem(items[i]) && !items[i].mode.Referenced? && !items[i].desired.Nothing?
  {
    FinallyReads(items, plans, i) == Ok(DesiredDigest(items[i].desired))
  }

  /** After a batch has been applied, the next reconciliation takes an installed item as it was
      recorded exactly when its digest survived the batch, and then it plans no change. Otherwise
      the item, and with it every batch it is part of, is refused because its observation seems
      to have changed. */
  lemma {:induction false} ReconcilingAgain(fs: Files, items: seq<Item>, plans: seq<Plan>, i: nat)
    requires WellFormed(fs) && Planned(fs, items, Reconcile, plans) && Runnable(plans)
    requires StateAfter(fs, plans, |plans|).Ok? && i < |plans| && CarriesOut(plans[i])
    ensures |items| == |plans| && ValidItem(items[i]) && !items[i].mode.Referenced? && !items[i].desired.Nothing?
    ensures var next := Prepare(StateAfter(fs, plans, |plans|).value, Recorded(items[i]), Reconcile);
            && (next.Ok? <==> SettlesAmong(items, plans, i))
            && (next.Ok? ==> next.value.operation.Skip? && !Mutating(next.value))
    ensures !SettlesAmong(items, plans, i) ==>
              forall again :: Recorded(items[i]) in again ==>
                !Acceptable(StateAfter(fs, plans, |plans|).value, again, Reconcile)
  {
    hide Effect, Acceptable, Prepare, Runnable, WellFormed, FinallyReads;
    InstalledItemReads(fs, items, plans, i);
    RecordedIsTakenExactly(StateAfter(fs, plans, |plans|).value, items[i]);
  }

  // When a digest survives

  /** An item no other plan lies around or inside: it owns its whole target or its text is canonical. */
  lemma {:induction false} AloneSettlesExactly(fs: Files, items: seq<Item>, plans: seq<Plan>, i: nat)
    requires Planned(fs, items, Reconcile, plans) && Runnable(plans) && i < |plans| && CarriesOut(plans[i])
    requires forall k :: i < k < |plans| && Mutating(plans[k]) ==> !Nested(plans[k], plans[i])
    ensures |items| == |plans| && ValidItem(items[i]) && !items[i].mode.Referenced? && !items[i].desired.Nothing?
    ensures SettlesAmong(items, plans, i) <==> Settles(items[i])
  {
    hide Observe, JsonText.Encode, Leaves, PlansIndependent;
    PlannedAt(fs, items, Reconcile, plans, i);
    PlanOf(fs, items[i]);
    if plans[i].directory {
      AcceptedPlansAreIndependent(fs, items, Reconcile, plans);
      hide Prepare;
      DirectoryIsAlone(plans, i);
      AloneLeaves(plans, i);
    }
  }

  lemma DirectoryIsAlone(plans: seq<Plan>, i: nat)
    requires SelectorsIndependent(plans) && i < |plans| && Mutating(plans[i]) && plans[i].directory
    requires forall k :: i < k < |plans| && Mutating(plans[k]) ==> !Nested(plans[k], plans[i])
    ensures OnlyOne(plans, i + 1, |plans|, plans[i].location, i)
  {
    forall k | i < k < |plans| && Mutating(plans[k])
      ensures !(plans[i].location <= plans[k].location)
    {
      assert PlansIndependent(plans[i], plans[k]);
    }
  }

  /** A directory with one later item inside it: that item changes nothing in the directory's files. */
  lemma {:induction false} OuterDirectorySettlesExactly(fs: Files, items: seq<Item>, plans: seq<Plan>, i: nat, j: nat)
    requires Planned(fs, items, Reconcile, plans) && Runnable(plans) && i < j < |plans| && CarriesOut(plans[i])
    requires plans[i].directory && Mutating(plans[j]) && plans[i].location < plans[j].location
    requires OnlyOne(plans, i + 1, |plans|, plans[i].location, j)
    ensures |items| == |plans| && ValidItem(items[i]) && !items[i].mode.Referenced? && !items[i].desired.Nothing?
    ensures SettlesAmong(items, plans, i) <==> Effect(Left(plans[i]), plans[j]) == Ok(Left(plans[i]))
  {
    hide Observe, Leaves, Effect;
    PlannedAt(fs, items, Reconcile, plans, i);
    PlanOf(fs, items[i]);
    OuterFirstPairLeaves(plans, i, j);
  }

  /** An item with one later directory around it: the directory's files read there as desired. */
  lemma {:induction false} InnerItemSettlesExactly(fs: Files, items: seq<Item>, plans: seq<Plan>, i: nat, j: nat)
    requires Planned(fs, items, Reconcile, plans) && Runnable(plans) && i < j < |plans| && CarriesOut(plans[i])
    requires plans[j].directory && Mutating(plans[j]) && plans[j].location < plans[i].location
    requires OnlyOne(plans, i + 1, |plans|, plans[i].location, j)
    ensures |items| == |plans| && ValidItem(items[i]) && !items[i].mode.Referenced? && !items[i].desired.Nothing?
    ensures SettlesAmong(items, plans, i) <==>
              Observe(Left(plans[j]), items[i].location, items[i].selector, items[i].directory)
              == Ok(DesiredDigest(items[i].desired))
  {
    hide Observe, Leaves, Effect;
    PlannedAt(fs, items, Reconcile, plans, i);
    PlanOf(fs, items[i]);
    InnerFirstPairLeaves(plans, i, j);
    SameFieldsSameView(Left(plans[j]), plans[i], items[i]);
  }

  lemma RecordedIsTakenExactly(fs: Files, item: Item)
    requires ValidItem(item) && !item.mode.Referenced? && !item.desired.Nothing?
    ensures var next := Prepare(fs, Recorded(item), Reconcile);
            var taken := Observe(fs, item.location, item.selector, item.directory) == Ok(DesiredDigest(item.desired));
            && (next.Ok? <==> taken)
            && (next.Ok? ==> next.value.operation.Skip? && !Mutating(next.value))
            && (!taken ==> forall again :: Recorded(item) in again ==> !Acceptable(fs, again, Reconcile))
  {
    hide Observe;
    if Observe(fs, item.location, item.selector, item.directory) != Ok(DesiredDigest(item.desired)) {
      forall again | Recorded(item) in again
        ensures !Acceptable(fs, again, Reconcile)
      {
        var k :| 0 <= k < |again| && again[k] == Recorded(item);
        assert Prepare(fs, again[k], Reconcile).Err?;
      }
    }
  }

  /** The same item observed afresh instead: where it can be observed at all, a managed one whose
      digest did not survive reads as drifted, and blocks its batch, although nobody has touched
      the file. */
  lemma {:induction false} UnsettledReadsAsDrift(fs: Files, items: seq<Item>, plans: seq<Plan>, i: nat)
    requires WellFormed(fs) && Planned(fs, items, Reconcile, plans) && Runnable(plans)
    requires StateAfter(fs, plans, |plans|).Ok? && i < |plans| && CarriesOut(plans[i])
    requires items[i].mode.Managed?
    ensures |items| == |plans| && ValidItem(items[i]) && !items[i].mode.Referenced? && !items[i].desired.Nothing?
    ensures var after := StateAfter(fs, plans, |plans|).value;
            var observed := Observe(after, items[i].location, items[i].selector, items[i].directory);
            && (observed.Err? <==> FinallyReads(items, plans, i).Err?)
            && (observed.Ok? ==>
                  var next := Prepare(after, Recorded(items[i]).(observed := observed.value), Reconcile);
                  && next.Ok? && (Blocked(next.value) <==> !SettlesAmong(items, plans, i))
                  && (!Blocked(next.value) ==> next.value.operation.Skip?))
  {
    hide Effect, Acceptable, Prepare, Runnable, WellFormed, FinallyReads, Observe;
    InstalledItemReads(fs, items, plans, i);
    FreshIsDriftExactly(StateAfter(fs, plans, |plans|).value, items[i]);
  }

  lemma FreshIsDriftExactly(fs: Files, item: Item)
    requires ValidItem(item) && item.mode.Managed? && !item.desired.Nothing?
    ensures var observed := Observe(fs, item.location, item.selector, item.directory);
            observed.Ok? ==>
              var next := Prepare(fs, Recorded(item).(observed := observed.value), Reconcile);
              && next.Ok? && (Blocked(next.value) <==> observed.value != DesiredDigest(item.desired))
              && (!Blocked(next.value) ==> next.value.operation.Skip?)
  {
    hide Observe;
  }

  /** An input that shows it: hook settings written with white space, installed under one
      field of a settings file that does not exist yet. */
  lemma SpacedSettingsAreRefusedNextTime() returns (items: seq<Item>, plans: seq<Plan>)
    ensures Planned(map[], items, Reconcile, plans) && Runnable(plans) && |items| == 1
    ensures StateAfter(map[], plans, 1).Ok?
    ensures Prepare(StateAfter(map[], plans, 1).value, Recorded(items[0]), Reconcile).Err?
  {
    HooksField();
    SpacesAreNotCanonical();
    var item := SPACED_HOOKS;
    hide JsonText.Encode, Prepare, Effect, Planned, Runnable, StateAfter, Split, ValidSyntax, Fields, Recorded;
    items := [item];
    plans := NewFieldIsInstalled(item);
    ReconcilingAgain(map[], items, plans, 0);
    AloneSettlesExactly(map[], items, plans, 0);
  }

  const NO_HOOKS := Object(map["Stop" := Array([])])

  const SPACED_HOOKS := Item(
    "hooks", ["home", ".claude", "settings.json"], "$.hooks", false, Managed,
    FileContent(Document("{ \"Stop\": [] }", NO_HOOKS)), 0x180, Absent, Absent, true, false, true)

  /** A batch of one new field is planned and installed on an empty file system. */
  lemma NewFieldIsInstalled(item: Item) returns (plans: seq<Plan>)
    requires ValidItem(item) && item.mode.Managed? && item.approved && !item.directory
    requires item.desired.FileContent? && item.desired.content.Document? && Fields(item.selector) != []
    requires item.lastApplied == Absent && item.observed == Absent
    ensures |plans| == 1 && Planned(map[], [item], Reconcile, plans) && Runnable(plans)
    ensures CarriesOut(plans[0]) && StateAfter(map[], plans, 1).Ok?
  {
    hide JsonText.Encode, Split, JsonTarget;
    assert Observe(map[], item.location, item.selector, false) == Ok(Absent);
    var plan := Prepare(map[], item, Reconcile).value;
    assert plan.operation.Create?;
    ObservedFileIsEditable(map[], plan);
    plans := [plan];
    assert StateAfter(map[], plans, 0) == Ok(map[]);
  }

  lemma SpacesAreNotCanonical()
    ensures JsonText.Encode(NO_HOOKS) != "{ \"Stop\": [] }"
  {
    JsonText.MemberTextFollowsBrace(NO_HOOKS, "Stop");
    hide JsonText.Encode;
    assert "{ \"Stop\": [] }"[1] == ' ';
  }

  lemma HooksField()
    ensures ValidSyntax("$.hooks") && Fields("$.hooks") == ["hooks"]
    ensures ValidItem(SPACED_HOOKS)
  {
    assert HasSuffix("settings.json", ".json");
    assert "$.hooks"[2..] == "hooks";
    SplitWithoutSeparator("hooks", '.');
  }

  /** An input that shows it for whole targets: the directory of OrderDecides goes through with the
      file inside it, and is refused next time for holding that file. */
  lemma {:induction false} NestedDirectoryIsRefusedNextTime() returns (plans: seq<Plan>)
    ensures Planned(map[], [SKILL_ITEM, NOTES_ITEM], Reconcile, plans) && Runnable(plans)
    ensures ValidItem(SKILL_ITEM) && Settles(SKILL_ITEM) && StateAfter(map[], plans, 2).Ok?
    ensures Prepare(StateAfter(map[], plans, 2).value, Recorded(SKILL_ITEM), Reconcile).Err?
  {
    var items := [SKILL_ITEM, NOTES_ITEM];
    var notesFirst;
    plans, notesFirst := OrderDecides();
    assert WellFormed(map[]) && |plans| == 2;
    hide Prepare, Effect, Planned, StateAfter, SettlesAmong, Observe, WellFormed, Recorded;
    PlannedAt(map[], items, Reconcile, plans, 0);
    PlannedAt(map[], items, Reconcile, plans, 1);
    NewSkillIsPlanned();
    NewNotesArePlanned();
    Inside();
    ReconcilingAgain(map[], items, plans, 0);
    OuterDirectorySettlesExactly(map[], items, plans, 0, 1);
    NotesChangeTheSkill();
  }

  lemma NotesChangeTheSkill()
    ensures ValidPlan(NewPlan(SKILL_ITEM)) && ValidPlan(NewPlan(NOTES_ITEM))
    ensures Effect(Left(NewPlan(SKILL_ITEM)), NewPlan(NOTES_ITEM)) != Ok(Left(NewPlan(SKILL_ITEM)))
  {
    SkillAdmitsNotes();
    Inside();
    var skill, notes := NewPlan(SKILL_ITEM), NewPlan(NOTES_ITEM);
    hide Observe;
    assert NOTES !in Left(skill);
    if Effect(Left(skill), notes).Ok? {
      WritesItsFile(Left(skill), notes);
    }
  }
}
