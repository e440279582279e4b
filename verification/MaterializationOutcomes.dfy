/** What planning decides for an item, and what a batch then leaves at its target, told from the
    item's own digests, mode and approval. */
module MaterializationOutcomes {
  import opened Text
  import opened Selectors
  import opened Documents
  import opened Materialization
  import opened MaterializationLaws
  import opened MaterializationOrder
  import opened MaterializationConvergence

  /** The digest is that of what the item wants installed. */
  predicate AsDesired(item: Item, digest: Digest) {
    match item.desired
    case Nothing => digest.Absent?
    case FileContent(content) => digest == OfContent(content)
    case Tree(files) => digest == OfTree(files)
  }

  // What is planned

  /** An item is planned exactly when it is valid, its target still reads as it was observed, and
      nothing is pruned whose source is there; the plan carries the item over. */
  lemma PlannedExactly(fs: Files, item: Item, intent: Intent)
    ensures Prepare(fs, item, intent).Ok? <==>
              && ValidItem(item) && (intent.Prune? ==> item.desired.Nothing?)
              && (!item.mode.Referenced? ==> Observe(fs, item.location, item.selector, item.directory) == Ok(item.observed))
    ensures Prepare(fs, item, intent).Ok? ==>
              var p := Prepare(fs, item, intent).value;
              && p.id == item.id && p.location == item.location && p.directory == item.directory
              && p.desired == item.desired && p.fileMode == item.fileMode && p.observed == item.observed
              && (p.reference <==> item.mode.Referenced?)
              && (p.selector == item.selector || (item.selector == "" && p.selector == "$"))
  {
    hide Observe;
  }

  /** An item is valid exactly when it has an identity and: referenced with its source present, nothing was ever
      applied for it; otherwise its selector is one, selects fields in JSON targets only, and what it wants
      installed is a file, which decodes if the target is JSON, or a directory of files below the target. */
  lemma ValidExactly(item: Item)
    ensures ValidItem(item) <==>
              && (exists c <- item.id :: c !in " \t\n\r\U{0B}\U{0C}\U{85}\U{A0}")
              && if item.mode.Referenced? && !item.desired.Nothing? then item.lastApplied.Absent?
                 else
                   && (item.selector == "" || item.selector == "$" ||
                       (DottedPath(item.selector) && (item.desired.Tree? || JsonName(item.location))))
                   && (item.desired.FileContent? ==>
                         !item.directory && (JsonName(item.location) ==> item.desired.content.Document?))
                   && (item.desired.Tree? ==>
                         && item.directory && (item.selector == "" || item.selector == "$")
                         && item.desired.files != map[] && forall k :: k in item.desired.files ==> item.location < k)
  {
    SelectorExactly(item);
    BlankExactly(item.id);
    hide ValidSyntax, Fields, Blank, DottedPath, JsonName, JsonTarget;
  }

  lemma SelectorExactly(item: Item)
    ensures ValidSyntax(item.selector) <==> item.selector == "" || item.selector == "$" || DottedPath(item.selector)
    ensures ValidSyntax(item.selector) ==> (Fields(item.selector) == [] <==> item.selector == "" || item.selector == "$")
    ensures JsonTarget(item.location) <==> JsonName(item.location)
  {
    SyntaxExactly(item.selector);
    hide ValidSyntax, Fields;
  }

  /** "$." and names with single dots between them. */
  predicate DottedPath(selector: string) {
    && |selector| > 2 && selector[..2] == "$." && selector[2] != '.' && selector[|selector| - 1] != '.'
    && forall k :: 2 <= k < |selector| - 1 ==> !(selector[k] == '.' && selector[k + 1] == '.')
  }

  /** The last component ends in ".json". */
  predicate JsonName(l: Location) {
    l != [] && |l[|l| - 1]| >= 5 && l[|l| - 1][|l[|l| - 1]| - 5..] == ".json"
  }

  /** Nothing is planned for an item but what is listed here: the one operation that its mode, its
      three digests, the intent, its approval and its cache key call for. */
  lemma OperationsExactly(fs: Files, item: Item, intent: Intent)
    requires Prepare(fs, item, intent).Ok?
    ensures var op := Prepare(fs, item, intent).value.operation;
            var gone := item.desired.Nothing?;
            var untouched := item.observed == item.lastApplied;
            && (op.Orphan? <==> gone && intent.Reconcile?)
            && (op.Remove? <==> item.approved && gone && intent.Prune? && !item.observed.Absent?)
            && (op.Create? <==>
                  && item.approved && !gone && !item.mode.Referenced?
                  && item.observed.Absent? && item.lastApplied.Absent?)
            && (op.Update? <==>
                  && item.approved && !gone && !item.mode.Referenced? && !item.lastApplied.Absent?
                  && (item.mode.Managed? ==> untouched && (item.cacheKeyChanged || !AsDesired(item, item.observed)))
                  && (item.mode.Seeded? ==> item.cacheKeyChanged))
            && (op.Skip? <==>
                  if gone then intent.Prune? && item.observed.Absent?
                  else
                    match item.mode
                    case Referenced => item.bound
                    case Seeded => !item.lastApplied.Absent? && !item.cacheKeyChanged
                    case Managed => untouched && AsDesired(item, item.observed) && !item.cacheKeyChanged)
            && (op.Drift? <==> item.approved && !gone && item.mode.Managed? && !untouched && AsDesired(item, item.lastApplied))
            && (op.Conflict? <==>
                  && item.approved && !gone
                  && ((item.mode.Managed? && !untouched && !AsDesired(item, item.lastApplied)) ||
                      (item.mode.Seeded? && item.lastApplied.Absent? && !item.observed.Absent?)))
            && (op.RequiresInput? <==>
                  if gone then intent.Prune? && !item.approved && !item.observed.Absent?
                  else if item.mode.Referenced? then !item.bound
                  else !item.approved && !op.Skip?)
  {
    hide Observe;
  }

  /** The item's target is going to be changed. */
  predicate IsInstalled(item: Item) {
    && item.approved && !item.mode.Referenced? && !item.desired.Nothing?
    && if item.lastApplied.Absent? then item.observed.Absent?
       else if item.mode.Seeded? then item.cacheKeyChanged
       else item.observed == item.lastApplied && (item.cacheKeyChanged || !AsDesired(item, item.observed))
  }

  predicate IsRemoved(item: Item, intent: Intent) {
    item.approved && !item.mode.Referenced? && item.desired.Nothing? && intent.Prune? && !item.observed.Absent?
  }

  /** A plan is carried out exactly for what is to be installed or removed; and it blocks its batch
      unless the item is carried out or can be left as it stands. */
  lemma CarriedOutExactly(fs: Files, item: Item, intent: Intent)
    requires Prepare(fs, item, intent).Ok?
    ensures var p := Prepare(fs, item, intent).value;
            && (CarriesOut(p) <==> IsInstalled(item) || IsRemoved(item, intent))
            && (CarriesOut(p) ==> (p.operation.Remove? <==> IsRemoved(item, intent)))
            && (!Blocked(p) <==>
                  || IsInstalled(item)
                  || (if item.desired.Nothing? then intent.Reconcile? || item.observed.Absent? || item.approved
                      else
                        match item.mode
                        case Referenced => item.bound
                        case Seeded => !item.lastApplied.Absent? && !item.cacheKeyChanged
                        case Managed =>
                          item.observed == item.lastApplied && AsDesired(item, item.observed) && !item.cacheKeyChanged))
  {
    hide Observe;
    OperationsExactly(fs, item, intent);
    hide Decide;
  }

  // What is left

  /** A file plan that is carried out gives its file the planned mode, and whole files the planned
      text; removing a field keeps the mode, and removing a file leaves none. */
  lemma CarriedOutFileHasItsMode(fs: Files, p: Plan)
    requires ValidPlan(p) && CarriesOut(p) && !p.directory && Effect(fs, p).Ok?
    ensures var fs', l := Effect(fs, p).value, p.location;
            && (forall k :: k != l ==> (k in fs' <==> k in fs) && (k in fs' ==> fs'[k] == fs[k]))
            && if p.operation.Remove? then
                 l in fs && (if Fields(p.selector) == [] then l !in fs' else l in fs' && fs'[l].mode == fs[l].mode)
               else
                 && l in fs' && fs'[l].mode == p.fileMode
                 && (Fields(p.selector) == [] ==> fs'[l].content == p.desired.content)
  {
    EffectReadsBack(fs, p);
    hide JsonText.Encode;
  }

  /** What the item's target reads once a batch without nested targets has gone through: nothing
      where it was removed; where it was installed its directory, its own text, or for a field the
      canonical text of its value; and otherwise just what it read before. */
  function EndsAs(item: Item, intent: Intent): Digest
    requires ValidItem(item)
  {
    if IsRemoved(item, intent) then Absent
    else if IsInstalled(item) then
      match item.desired
      case Tree(files) => OfTree(files)
      case FileContent(content) =>
        OfContent(if Fields(item.selector) == [] then content else Canonical(content.tree))
    else item.observed
  }

  /** No other plan that changes anything lies around or inside the target of plan j. */
  predicate Solitary(plans: seq<Plan>, j: nat)
    requires j < |plans|
  {
    forall k :: 0 <= k < |plans| && k != j && Mutating(plans[k]) ==> !Nested(plans[k], plans[j])
  }

  lemma {:induction false} OthersKeepTheView(fs: Files, plans: seq<Plan>, m: nat, n: nat, j: nat)
    requires Runnable(plans) && m <= n <= |plans| && j < |plans| && !(m <= j < n) && Solitary(plans, j)
    requires StateAfter(fs, plans, n).Ok? && SelectorsIndependent(plans) && !plans[j].reference
    ensures StateAfter(fs, plans, m).Ok?
    ensures Seen(StateAfter(fs, plans, n).value, plans[j]) == Seen(StateAfter(fs, plans, m).value, plans[j])
    decreases n - m
  {
    hide Effect, Observe, PlansIndependent;
    if m < n {
      OthersKeepTheView(fs, plans, m, n - 1, j);
      var last := n - 1;
      if last < j {
        assert PlansIndependent(plans[last], plans[j]);
      } else {
        assert PlansIndependent(plans[j], plans[last]);
      }
      EffectKeepsView(StateAfter(fs, plans, last).value, plans[last], plans[j]);
    }
  }

  lemma RemovedReadsAbsent(fs: Files, p: Plan)
    requires WellFormed(fs) && ValidPlan(p) && CarriesOut(p) && p.operation.Remove? && Effect(fs, p).Ok?
    ensures Seen(Effect(fs, p).value, p) == Ok(Absent)
  {
    EffectReadsBack(fs, p);
    EffectStaysWellFormed(fs, p);
    var after := Effect(fs, p).value;
    if p.directory {
      RemovedDirectoryIsAbsent(fs, p);
    } else {
      assert p.location in fs;
      assert !BelowFile(after, p.location);
      assert !DirectoryAt(after, p.location);
    }
  }

  lemma RemovedDirectoryIsAbsent(fs: Files, p: Plan)
    requires WellFormed(fs) && ValidPlan(p) && CarriesOut(p) && p.operation.Remove? && Effect(fs, p).Ok? && p.directory
    ensures Seen(Effect(fs, p).value, p) == Ok(Absent)
  {
    var after := Effect(fs, p).value;
    assert after == Without(fs, p.location);
    assert forall k :: k in after ==> k in fs && !(p.location <= k);
  }

  lemma InstalledReads(fs: Files, p: Plan, item: Item)
    requires WellFormed(fs) && ValidPlan(p) && CarriesOut(p) && !p.operation.Remove? && Effect(fs, p).Ok?
    requires ValidItem(item) && !item.mode.Referenced? && !item.desired.Nothing?
    requires p.location == item.location && p.desired == item.desired && p.directory == item.directory
    requires Fields(p.selector) == Fields(item.selector)
    ensures Seen(Effect(fs, p).value, p) == Ok(
              match item.desired
              case Tree(files) => OfTree(files)
              case FileContent(content) =>
                OfContent(if Fields(item.selector) == [] then content else Canonical(content.tree)))
  {
    hide Effect;
    var after := Effect(fs, p).value;
    EffectReadsBack(fs, p);
    EffectStaysWellFormed(fs, p);
    if p.directory {
      InstalledDirectoryReads(fs, p);
    } else {
      InstalledIsReread(after, p, item);
      SameFieldsSameView(after, p, item);
    }
  }

  lemma InstalledDirectoryReads(fs: Files, p: Plan)
    requires WellFormed(fs) && ValidPlan(p) && CarriesOut(p) && !p.operation.Remove? && Effect(fs, p).Ok?
    requires p.directory
    ensures Seen(Effect(fs, p).value, p) == Ok(OfTree(p.desired.files))
  {
    var after := Effect(fs, p).value;
    EffectReadsBack(fs, p);
    var k :| k in p.desired.files;
    assert k in after && p.location < k;
    EffectStaysWellFormed(fs, p);
  }

  /** The end of every item no other target lies around or inside, in a batch that went through. */
  lemma {:induction false} EveryItemEndsAs(fs: Files, items: seq<Item>, intent: Intent, plans: seq<Plan>, i: nat)
    requires WellFormed(fs) && Planned(fs, items, intent, plans) && Runnable(plans)
    requires StateAfter(fs, plans, |plans|).Ok? && i < |plans| && Solitary(plans, i)
    ensures |items| == |plans| && ValidItem(items[i])
    ensures !items[i].mode.Referenced? ==>
              Observe(StateAfter(fs, plans, |plans|).value, items[i].location, items[i].selector, items[i].directory)
              == Ok(EndsAs(items[i], intent))
  {
    hide Effect, Acceptable, WellFormed, Observe, Prepare, SelectorsIndependent, Nested, StateAfter;
    var item, p := items[i], plans[i];
    PlannedAt(fs, items, intent, plans, i);
    PlannedExactly(fs, item, intent);
    if !item.mode.Referenced? {
      AcceptedPlansAreIndependent(fs, items, intent, plans);
      CarriedOutExactly(fs, item, intent);
      assert Fields(p.selector) == Fields(item.selector);
      OthersKeepTheView(fs, plans, i + 1, |plans|, i);
      StateBefore(fs, plans, i, |plans|);
      OthersKeepTheView(fs, plans, 0, i, i);
      NothingApplied(fs, plans);
      OneMoreState(fs, plans, i);
      StaysWellFormed(fs, plans, i);
      var before, after := StateAfter(fs, plans, i).value, StateAfter(fs, plans, |plans|).value;
      SameFieldsSameView(after, p, item);
      SameFieldsSameView(fs, p, item);
      if !CarriesOut(p) {
        UnmutatedApplies(before, p);
      } else if p.operation.Remove? {
        RemovedReadsAbsent(before, p);
      } else {
        InstalledReads(before, p, item);
      }
    }
  }

  /** Once such a batch has gone through, an approved managed item whose source is there reads as
      desired exactly when it owns its whole target or its text is canonical. */
  lemma {:induction false} ManagedItemsReadAsDesired(fs: Files, items: seq<Item>, plans: seq<Plan>, i: nat)
    requires WellFormed(fs) && Planned(fs, items, Reconcile, plans) && Runnable(plans)
    requires StateAfter(fs, plans, |plans|).Ok? && i < |plans| && Solitary(plans, i)
    requires items[i].mode.Managed? && items[i].approved && !items[i].desired.Nothing?
    ensures |items| == |plans| && ValidItem(items[i])
    ensures var read := Observe(StateAfter(fs, plans, |plans|).value, items[i].location, items[i].selector, items[i].directory);
            && read.Ok?
            && (AsDesired(items[i], read.value) <==>
                  (items[i].desired.FileContent? && Fields(items[i].selector) != [] ==>
                     items[i].desired.content == Canonical(items[i].desired.content.tree)))
  {
    hide Effect, Acceptable, Prepare, WellFormed, Observe, StateAfter, Solitary;
    var item := items[i];
    PlannedAt(fs, items, Reconcile, plans, i);
    PlannedExactly(fs, item, Reconcile);
    OperationsExactly(fs, item, Reconcile);
    EveryItemEndsAs(fs, items, Reconcile, plans, i);
    if !IsInstalled(item) && item.desired.FileContent? {
      ObservedFieldIsCanonical(fs, item);
    }
  }

  /** A field is observed as the canonical text of its value. */
  lemma ObservedFieldIsCanonical(fs: Files, item: Item)
    requires ValidItem(item) && !item.mode.Referenced? && item.desired.FileContent? && AsDesired(item, item.observed)
    requires Observe(fs, item.location, item.selector, item.directory) == Ok(item.observed)
    ensures Fields(item.selector) != [] ==>
              item.desired.content.Document? && item.desired.content == Canonical(item.desired.content.tree)
  {
    hide JsonText.Encode;
  }
}
