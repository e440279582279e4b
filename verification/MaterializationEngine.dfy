/** Applying a batch on a guest whose every write may fail, with rollback.
    Write faults are nondeterministic; a failed directory operation may leave any
    part of its own target behind. On a faultless guest nothing fails but what must. */
module MaterializationEngine {
  import opened Text
  import opened Materialization
  import opened MaterializationLaws
  import opened MaterializationOutcomes

  /** What a target held, files with their modes, before anything was mutated. */
  datatype Backup = Backup(location: Location, directory: bool, saved: Files)

  datatype Outcome =
    | Rejected(error: string)
    | Stopped(plans: seq<Plan>)
    | Unprepared(plans: seq<Plan>)
    | Applied(plans: seq<Plan>)
    | RolledBack(plans: seq<Plan>)
    | RollbackFailed(plans: seq<Plan>)

  /** snapshotMaterialization. */
  function Snapshot(fs: Files, p: Plan): (r: Result<Backup>)
    ensures r.Ok? ==> r.value.location == p.location && SavedFrom(fs, r.value)
  {
    if BelowFile(fs, p.location) then Err("not a directory")
    else if p.directory then
      if p.location in fs then Err("directory target is not a real directory")
      else Ok(Backup(p.location, true, Within(fs, p.location)))
    else if p.location in fs then
      if DirectoryAt(fs, p.location) then Err("inconsistent file system")
      else
        AtOrStrictlyBelow(fs, p.location);
        Ok(Backup(p.location, false, Within(fs, p.location)))
    else if DirectoryAt(fs, p.location) then Err("target is not a regular file")
    else
      AtOrStrictlyBelow(fs, p.location);
      Ok(Backup(p.location, false, Within(fs, p.location)))
  }

  /** What could be observed can be backed up. */
  lemma ObservedCanBeSaved(fs: Files, p: Plan)
    requires WellFormed(fs) && ValidPlan(p) && Mutating(p) && ObservedIn(fs, p)
    ensures Snapshot(fs, p).Ok?
  {
  }

  lemma AtOrStrictlyBelow(fs: Files, l: Location)
    ensures forall k :: k in Within(fs, l) ==> k == l || l < k
  {
  }

  /** A backup is exactly what the file system held at and below its target, which no file was above. */
  predicate SavedFrom(fs: Files, b: Backup) {
    && b.saved == Within(fs, b.location) && !BelowFile(fs, b.location)
    && (b.directory ==> b.location !in b.saved)
    && (!b.directory && b.saved != map[] ==> b.saved.Keys == {b.location})
  }

  predicate Covered(backups: seq<Backup>, k: Location) {
    exists i :: 0 <= i < |backups| && backups[i].location <= k
  }

  /** Nothing outside the backed-up targets differs. */
  ghost predicate SameElsewhere(fs: Files, fs0: Files, backups: seq<Backup>) {
    forall k :: !Covered(backups, k) ==> (k in fs <==> k in fs0) && (k in fs ==> fs[k] == fs0[k])
  }

  lemma ConfinedIsElsewhere(fs: Files, fs': Files, fs0: Files, backups: seq<Backup>, l: Location)
    requires SameElsewhere(fs, fs0, backups)
    requires Without(fs, l) == Without(fs', l)
    requires HasBackup(backups, l)
    ensures SameElsewhere(fs', fs0, backups)
  {
    SameOutside(fs, fs', l);
    var b :| b in backups && b.location == l;
    assert forall k :: l <= k ==> Covered(backups, k);
  }

  /** Restoring one target keeps every target that already reads as saved. */
  lemma RestoreKeepsRestored(fs: Files, fs': Files, fs0: Files, l: Location, other: Location)
    requires Without(fs, l) == Without(fs', l)
    requires Within(fs', l) == Within(fs0, l)
    requires Within(fs, other) == Within(fs0, other)
    ensures Within(fs', other) == Within(fs0, other)
  {
    SameOutside(fs, fs', l);
    SameInside(fs', fs0, l);
    SameInside(fs, fs0, other);
  }

  // Rolling back without faults

  /** Whatever lies above target i will have been rolled back by a later backup before its turn. */
  predicate ClearAt(fs: Files, backups: seq<Backup>, i: nat)
    requires i < |backups|
  {
    forall k :: k in fs && k < backups[i].location ==> CoveredFrom(backups, i + 1, k)
  }

  predicate CoveredFrom(backups: seq<Backup>, n: nat, k: Location)
    requires n <= |backups|
  {
    exists m :: n <= m < |backups| && backups[m].location <= k
  }

  /** A backup still to be restored lies around target m. */
  predicate Shadowed(backups: seq<Backup>, n: nat, m: nat)
    requires n <= m < |backups|
  {
    exists j :: 0 <= j < n && backups[j].location < backups[m].location
  }

  ghost predicate SameWithin(fs: Files, fs0: Files, l: Location) {
    Within(fs, l) == Within(fs0, l)
  }

  /** The backups from n on have been restored, except those a backup still to come covers. */
  ghost predicate RestoredOrShadowed(fs: Files, fs0: Files, backups: seq<Backup>, n: nat)
    requires n <= |backups|
  {
    forall m :: n <= m < |backups| ==> SameWithin(fs, fs0, backups[m].location) || Shadowed(backups, n, m)
  }

  /** Outside the targets restored so far nothing has changed since the rollback began. */
  ghost predicate SameBefore(fs: Files, start: Files, backups: seq<Backup>, n: nat)
    requires n <= |backups|
  {
    forall k :: !CoveredFrom(backups, n, k) ==> (k in fs <==> k in start) && (k in fs ==> fs[k] == start[k])
  }

  /** With all later targets restored, the next one lies below a file exactly when it is not clear. */
  lemma BlockedExactlyWhenNotClear(fs: Files, fs0: Files, start: Files, backups: seq<Backup>, i: nat)
    requires i < |backups| && SavedFrom(fs0, backups[i]) && SameBefore(fs, start, backups, i + 1)
    requires forall m :: i < m < |backups| ==> SameWithin(fs, fs0, backups[m].location)
    ensures BelowFile(fs, backups[i].location) <==> !ClearAt(start, backups, i)
  {
    var l := backups[i].location;
    if BelowFile(fs, l) {
      var k :| k in fs && k < l;
      if CoveredFrom(backups, i + 1, k) {
        var m :| i + 1 <= m < |backups| && backups[m].location <= k;
        SameInside(fs, fs0, backups[m].location);
        assert BelowFile(fs0, l);
      } else {
        assert k in start;
      }
    }
    if !ClearAt(start, backups, i) {
      var k :| k in start && k < l && !CoveredFrom(backups, i + 1, k);
      assert k in fs;
    }
  }

  /** A target that lies below a file is covered by a backup still to come. */
  lemma BlockedIsShadowed(fs: Files, fs0: Files, backups: seq<Backup>, i: nat)
    requires i < |backups| && SavedFrom(fs0, backups[i]) && SameElsewhere(fs, fs0, backups)
    requires RestoredOrShadowed(fs, fs0, backups, i + 1) && BelowFile(fs, backups[i].location)
    ensures Shadowed(backups, i, i)
  {
    var l := backups[i].location;
    var k :| k in fs && k < l;
    assert k !in fs0 by {
      assert !BelowFile(fs0, l);
    }
    assert Covered(backups, k);
    var m :| 0 <= m < |backups| && backups[m].location <= k;
    if m > i {
      if SameWithin(fs, fs0, backups[m].location) {
        SameInside(fs, fs0, backups[m].location);
        assert false;
      } else {
        assert Shadowed(backups, i + 1, m);
        var j :| 0 <= j < i + 1 && backups[j].location < backups[m].location;
        assert j != i && backups[j].location < l;
      }
    } else {
      assert m != i && backups[m].location < l;
    }
  }

  /** A step of the rollback, whether it restored its target or was blocked. */
  lemma StepRestoresOrShadows(before: Files, fs: Files, fs0: Files, backups: seq<Backup>, i: nat, restored: bool)
    requires i < |backups| && RestoredOrShadowed(before, fs0, backups, i + 1)
    requires if restored then SameWithin(fs, fs0, backups[i].location) && Without(fs, backups[i].location) == Without(before, backups[i].location)
             else fs == before && Shadowed(backups, i, i)
    ensures RestoredOrShadowed(fs, fs0, backups, i)
  {
    forall m | i <= m < |backups|
      ensures SameWithin(fs, fs0, backups[m].location) || Shadowed(backups, i, m)
    {
      if m > i && SameWithin(before, fs0, backups[m].location) {
        if restored {
          RestoreKeepsRestored(before, fs, fs0, backups[i].location, backups[m].location);
        }
      } else if m > i {
        var j :| 0 <= j < i + 1 && backups[j].location < backups[m].location;
        if j == i && restored {
          WithinCarries(fs, fs0, backups[i].location, backups[m].location);
        } else if j == i {
          var outer :| 0 <= outer < i && backups[outer].location < backups[i].location;
          assert backups[outer].location < backups[m].location;
        }
      }
    }
  }

  lemma WithinCarries(fs: Files, fs0: Files, l: Location, inner: Location)
    requires SameWithin(fs, fs0, l) && l <= inner
    ensures SameWithin(fs, fs0, inner)
  {
    SameInside(fs, fs0, l);
  }

  lemma StepKeepsBefore(before: Files, fs: Files, start: Files, backups: seq<Backup>, i: nat)
    requires i < |backups| && SameBefore(before, start, backups, i + 1)
    requires Without(fs, backups[i].location) == Without(before, backups[i].location)
    ensures SameBefore(fs, start, backups, i)
  {
    SameOutside(before, fs, backups[i].location);
    forall k | !CoveredFrom(backups, i, k)
      ensures (k in fs <==> k in start) && (k in fs ==> fs[k] == start[k])
    {
      assert !(backups[i].location <= k) && !CoveredFrom(backups, i + 1, k);
    }
  }

  lemma FailedState(fs0: Files, before: Files, plans: seq<Plan>, n: nat)
    requires Runnable(plans) && n < |plans| && StateAfter(fs0, plans, n) == Ok(before)
    ensures Effect(before, plans[n]).Err? ==> StateAfter(fs0, plans, |plans|).Err?
  {
    hide Effect;
    if Effect(before, plans[n]).Err? {
      FailureSticks(fs0, plans, n + 1, |plans|);
    }
  }

  lemma RollbackBegins(fs: Files, fs0: Files, backups: seq<Backup>)
    ensures RestoredOrShadowed(fs, fs0, backups, |backups|) && SameBefore(fs, fs, backups, |backups|)
  {
  }

  lemma EverythingIsBack(fs: Files, fs0: Files, backups: seq<Backup>)
    requires SameElsewhere(fs, fs0, backups)
    requires forall i :: 0 <= i < |backups| ==> SameWithin(fs, fs0, backups[i].location)
    ensures fs == fs0
  {
    forall k
      ensures (k in fs <==> k in fs0) && (k in fs ==> fs[k] == fs0[k])
    {
      if Covered(backups, k) {
        var i :| 0 <= i < |backups| && backups[i].location <= k;
        SameInside(fs, fs0, backups[i].location);
      }
    }
  }

  lemma AllRestored(fs: Files, fs0: Files, backups: seq<Backup>)
    requires SameElsewhere(fs, fs0, backups) && RestoredOrShadowed(fs, fs0, backups, 0)
    ensures fs == fs0
  {
    EverythingIsBack(fs, fs0, backups);
  }

  class Guest {
    const faultless: bool
    var fs: Files

    constructor (files: Files, faultless: bool)
      ensures fs == files && this.faultless == faultless
    {
      fs, this.faultless := files, faultless;
    }

    /** writeMaterializedFile: a synced temporary linked or renamed into place, so a
        failure leaves the target as it was. */
    method WriteFile(l: Location, file: File) returns (ok: bool)
      modifies this
      ensures ok ==> !BelowFile(old(fs), l) && fs == old(fs)[l := file]
      ensures !ok ==> fs == old(fs)
      ensures faultless ==> (ok <==> !BelowFile(old(fs), l) && !DirectoryAt(old(fs), l))
    {
      var fault: bool := *;
      if (fault && !faultless) || BelowFile(fs, l) || DirectoryAt(fs, l) {
        return false;
      }
      fs := fs[l := file];
      ok := true;
    }

    /** Below a file the target cannot even be looked up. */
    method RemoveAll(l: Location) returns (ok: bool)
      modifies this
      ensures ok ==> !BelowFile(old(fs), l) && fs == Without(old(fs), l)
      ensures Without(fs, l) == Without(old(fs), l)
      ensures faultless ==> (ok <==> !BelowFile(old(fs), l)) && (!ok ==> fs == old(fs))
    {
      if BelowFile(fs, l) {
        return false;
      }
      var fault: bool, survivors: set<Location> := *, *;
      if fault && !faultless {
        fs := map k | k in fs && (!(l <= k) || k in survivors) :: fs[k];
        return false;
      }
      fs := Without(fs, l);
      ok := true;
    }

    /** writeMaterializedDirectory: the tree is staged, the old target renamed aside, the
        staged tree renamed in. A failure may leave the old tree, nothing, or the new tree. */
    method WriteDirectory(l: Location, files: Files) returns (ok: bool)
      requires forall k :: k in files ==> l < k
      modifies this
      ensures ok ==> fs == Without(old(fs), l) + files && WellFormed(files)
      ensures Without(fs, l) == Without(old(fs), l)
      ensures faultless ==> (ok <==> l !in old(fs) && !BelowFile(old(fs), l) && WellFormed(files))
    {
      var staged: bool, moved: bool, installed: bool, restored: bool, cleaned: bool := *, *, *, *, *;
      if faultless {
        staged, moved, installed, cleaned := true, true, true, true;
      }
      if !staged || !moved || l in fs || BelowFile(fs, l) || !WellFormed(files) {
        return false;
      }
      if !installed {
        if !restored {
          fs := Without(fs, l);
        }
        return false;
      }
      fs := Without(fs, l) + files;
      ok := cleaned;
    }

    /** plan.apply(): re-observe, then mutate. Success is the plan's Effect; failure is
        confined to the plan's target. */
    method ApplyPlan(p: Plan) returns (ok: bool)
      requires ValidPlan(p) && !Blocked(p)
      modifies this
      ensures ok ==> Effect(old(fs), p) == Ok(fs)
      ensures Without(fs, p.location) == Without(old(fs), p.location)
      ensures !Mutating(p) ==> ok
      ensures faultless && WellFormed(old(fs)) ==> (ok <==> Effect(old(fs), p).Ok?)
    {
      if !Mutating(p) {
        return true;
      }
      if !ObservedIn(fs, p) {
        return false;
      }
      if p.directory {
        if p.operation.Remove? {
          ok := RemoveAll(p.location);
        } else {
          ok := WriteDirectory(p.location, p.desired.files);
        }
        return;
      }
      var desired := if p.operation.Remove? then None else Some(p.desired.content);
      var edited := EditFile(fs, p, desired);
      if edited.Err? {
        return false;
      }
      if p.location in edited.value {
        ok := WriteFile(p.location, edited.value[p.location]);
      } else {
        var fault: bool := *;
        if fault && !faultless {
          return false;
        }
        fs := edited.value;
        ok := true;
      }
    }

    /** materializationBackup.restore(). */
    method Restore(b: Backup, ghost fs0: Files) returns (ok: bool)
      requires SavedFrom(fs0, b)
      modifies this
      ensures ok ==> Within(fs, b.location) == b.saved
      ensures Without(fs, b.location) == Without(old(fs), b.location)
      ensures faultless && WellFormed(fs0) ==> (ok <==> !BelowFile(old(fs), b.location)) && (!ok ==> fs == old(fs))
    {
      ok := RemoveAll(b.location);
      if !ok || b.saved == map[] {
        return;
      }
      assert !BelowFile(fs, b.location) && b.location !in fs && !DirectoryAt(fs, b.location);
      if b.directory {
        AtOrStrictlyBelow(fs0, b.location);
        ok := WriteDirectory(b.location, b.saved);
      } else {
        ok := WriteFile(b.location, b.saved[b.location]);
      }
    }

    /** rollbackMaterializations: in reverse, going on past a failed restore. */
    method Rollback(backups: seq<Backup>, ghost fs0: Files) returns (ok: bool)
      requires forall i :: 0 <= i < |backups| ==> SavedFrom(fs0, backups[i])
      requires SameElsewhere(fs, fs0, backups)
      modifies this
      ensures ok ==> fs == fs0
      ensures SameElsewhere(fs, fs0, backups)
      ensures faultless && WellFormed(fs0) ==>
                fs == fs0 && (ok <==> forall i :: 0 <= i < |backups| ==> ClearAt(old(fs), backups, i))
    {
      hide BelowFile, WellFormed, ClearAt, CoveredFrom, Shadowed, SameElsewhere, SameBefore, RestoredOrShadowed;
      RollbackBegins(fs, fs0, backups);
      ghost var reliable := faultless && WellFormed(fs0);
      ok := true;
      var n := |backups|;
      while n > 0
        invariant 0 <= n <= |backups|
        invariant SameElsewhere(fs, fs0, backups)
        invariant ok ==> forall i :: n <= i < |backups| ==> SameWithin(fs, fs0, backups[i].location)
        invariant reliable ==> RestoredOrShadowed(fs, fs0, backups, n) && SameBefore(fs, old(fs), backups, n)
        invariant reliable ==> (ok <==> forall i :: n <= i < |backups| ==> ClearAt(old(fs), backups, i))
      {
        n := n - 1;
        ghost var before := fs;
        if reliable && ok {
          BlockedExactlyWhenNotClear(fs, fs0, old(fs), backups, n);
        }
        if reliable && BelowFile(fs, backups[n].location) {
          BlockedIsShadowed(fs, fs0, backups, n);
        }
        var restored := Restore(backups[n], fs0);
        ConfinedIsElsewhere(before, fs, fs0, backups, backups[n].location);
        if reliable {
          StepRestoresOrShadows(before, fs, fs0, backups, n, restored);
          StepKeepsBefore(before, fs, old(fs), backups, n);
        }
        ok := ok && restored;
        if ok {
          forall i | n <= i < |backups|
            ensures SameWithin(fs, fs0, backups[i].location)
          {
            if i > n {
              RestoreKeepsRestored(before, fs, fs0, backups[n].location, backups[i].location);
            }
          }
        }
      }
      if reliable {
        AllRestored(fs, fs0, backups);
      }
      if ok {
        EverythingIsBack(fs, fs0, backups);
      }
    }

    /** snapshotMaterializationPlans: one backup for every plan that will mutate. */
    method TakeBackups(plans: seq<Plan>) returns (r: Result<seq<Backup>>)
      ensures r.Ok? ==> forall i :: 0 <= i < |r.value| ==> SavedFrom(fs, r.value[i])
      ensures r.Ok? ==> forall l :: MutatedBy(plans, l) <==> HasBackup(r.value, l)
      ensures WellFormed(fs) && ObservedBy(fs, plans) ==> r.Ok?
    {
      hide WellFormed, Snapshot;
      var backups: seq<Backup> := [];
      for n := 0 to |plans|
        invariant forall i :: 0 <= i < |backups| ==> SavedFrom(fs, backups[i])
        invariant forall l :: MutatedBy(plans[..n], l) <==> HasBackup(backups, l)
      {
        assert plans[..n + 1] == plans[..n] + [plans[n]];
        OneMorePlan(plans[..n], plans[n]);
        if Mutating(plans[n]) {
          if WellFormed(fs) && ObservedBy(fs, plans) {
            ObservedCanBeSaved(fs, plans[n]);
          }
          var backup := Snapshot(fs, plans[n]);
          if backup.Err? {
            return Err(backup.error);
          }
          assert forall l :: HasBackup(backups + [backup.value], l) <==>
                   HasBackup(backups, l) || plans[n].location == l;
          backups := backups + [backup.value];
        }
      }
      assert plans[..|plans|] == plans;
      r := Ok(backups);
    }

    /** The mutation loop, up to the first plan that fails. */
    method ApplyPlans(plans: seq<Plan>, ghost backups: seq<Backup>) returns (ok: bool)
      requires Runnable(plans)
      requires forall l :: MutatedBy(plans, l) ==> HasBackup(backups, l)
      modifies this
      ensures ok ==> StateAfter(old(fs), plans, |plans|) == Ok(fs)
      ensures SameElsewhere(fs, old(fs), backups)
      ensures faultless && WellFormed(old(fs)) ==> (ok <==> StateAfter(old(fs), plans, |plans|).Ok?)
    {
      hide Effect, WellFormed;
      for n := 0 to |plans|
        invariant StateAfter(old(fs), plans, n) == Ok(fs)
        invariant WellFormed(old(fs)) ==> WellFormed(fs)
        invariant SameElsewhere(fs, old(fs), backups)
      {
        ghost var before := fs;
        ok := ApplyPlan(plans[n]);
        if Mutating(plans[n]) {
          assert MutatedBy(plans, plans[n].location);
          ConfinedIsElsewhere(before, fs, old(fs), backups, plans[n].location);
        } else {
          NoEffect(before, plans[n]);
        }
        if !ok {
          FailedState(old(fs), before, plans, n);
          return;
        }
        if WellFormed(old(fs)) {
          EffectStaysWellFormed(before, plans[n]);
        }
      }
      ok := true;
    }

    /** ApplyProfileMaterializations. Without faults the batch is applied exactly when every plan's
        effect is defined, the file system is otherwise as it was, and between unnested targets no
        rollback is reported as failed. With faults it is all or nothing: unless the batch is applied in full
        or a restore itself fails, every regular file is what it was, content and mode,
        even when targets repeat or nest; and even a failed rollback leaves every file
        outside the mutated targets alone. */
    method ApplyBatch(items: seq<Item>, intent: Intent) returns (outcome: Outcome)
      modifies this
      ensures outcome.Rejected? <==> !Acceptable(old(fs), items, intent)
      ensures !outcome.Rejected? ==> Planned(old(fs), items, intent, outcome.plans)
      ensures !outcome.Rejected? ==> (outcome.Stopped? <==> !Runnable(outcome.plans))
      ensures outcome.Applied? ==> StateAfter(old(fs), outcome.plans, |outcome.plans|) == Ok(fs)
      ensures outcome.Applied? && WellFormed(old(fs)) ==>
                forall i :: 0 <= i < |items| && !items[i].mode.Referenced? && Solitary(outcome.plans, i) ==>
                  && ValidItem(items[i])
                  && Observe(fs, items[i].location, items[i].selector, items[i].directory) == Ok(EndsAs(items[i], intent))
      ensures !outcome.Applied? && !outcome.RollbackFailed? ==> fs == old(fs)
      ensures WellFormed(old(fs)) ==> !outcome.Unprepared?
      ensures faultless && WellFormed(old(fs)) && !outcome.Rejected? && !outcome.Stopped? ==>
                && (outcome.Applied? <==> StateAfter(old(fs), outcome.plans, |outcome.plans|).Ok?)
                && (!outcome.Applied? ==> fs == old(fs))
                && (Unnested(outcome.plans) ==> !outcome.RollbackFailed?)
      ensures outcome.RollbackFailed? ==>
                forall k :: Untouched(outcome.plans, k) ==>
                  (k in fs <==> k in old(fs)) && (k in fs ==> fs[k] == old(fs)[k])
    {
      hide Prepare, Effect;
      ghost var fs0 := fs;
      var planned := PlanBatch(fs, items, intent);
      if planned.Err? {
        return Rejected(planned.error);
      }
      var plans := planned.value;
      PlannedWasObserved(fs0, items, intent, plans);
      if exists i :: 0 <= i < |plans| && Blocked(plans[i]) {
        return Stopped(plans);
      }
      var taken := TakeBackups(plans);
      if taken.Err? {
        return Unprepared(plans);
      }
      var ok := ApplyPlans(plans, taken.value);
      if ok {
        if WellFormed(fs0) {
          EveryItemEnds(fs0, items, intent, plans);
        }
        return Applied(plans);
      }
      ghost var atFailure := fs;
      var restored := Rollback(taken.value, fs0);
      if restored {
        return RolledBack(plans);
      }
      if Unnested(plans) {
        UnnestedIsClear(atFailure, fs0, plans, taken.value);
      }
      UnmutatedIsUncovered(plans, taken.value);
      return RollbackFailed(plans);
    }
  }

  ghost predicate MutatedBy(plans: seq<Plan>, l: Location) {
    exists p :: p in plans && Mutating(p) && p.location == l
  }

  /** Between unnested targets a rollback finds nothing in its way. */
  lemma UnnestedIsClear(fs: Files, fs0: Files, plans: seq<Plan>, backups: seq<Backup>)
    requires Unnested(plans) && SameElsewhere(fs, fs0, backups)
    requires forall l :: HasBackup(backups, l) ==> MutatedBy(plans, l)
    requires forall i :: 0 <= i < |backups| ==> SavedFrom(fs0, backups[i])
    ensures forall i :: 0 <= i < |backups| ==> ClearAt(fs, backups, i)
  {
    forall i, k | 0 <= i < |backups| && k in fs
      ensures !(k < backups[i].location)
    {
      if Covered(backups, k) {
        var m :| 0 <= m < |backups| && backups[m].location <= k;
        NestedBackups(plans, backups, m, i);
      } else {
        assert k in fs0 && !BelowFile(fs0, backups[i].location);
      }
    }
  }

  lemma NestedBackups(plans: seq<Plan>, backups: seq<Backup>, m: nat, i: nat)
    requires Unnested(plans) && m < |backups| && i < |backups|
    requires forall l :: HasBackup(backups, l) ==> MutatedBy(plans, l)
    ensures !(backups[m].location < backups[i].location)
  {
    assert HasBackup(backups, backups[m].location) && HasBackup(backups, backups[i].location);
    var p :| p in plans && Mutating(p) && p.location == backups[m].location;
    var q :| q in plans && Mutating(q) && q.location == backups[i].location;
    var a :| 0 <= a < |plans| && plans[a] == p;
    var b :| 0 <= b < |plans| && plans[b] == q;
    if a == b {
    } else if a < b {
      assert !Nested(plans[a], plans[b]);
    } else {
      assert !Nested(plans[b], plans[a]);
    }
  }

  /** Two new files, one named below the other: once the outer one has been written, the rollback
      is blocked exactly when the outer one is restored last. Its files come back all the same. */
  lemma OuterRestoredLastBlocksRollback(outer: Location, inner: Location, file: File)
    requires outer < inner
    ensures var a, b := Backup(outer, false, map[]), Backup(inner, false, map[]);
            && SavedFrom(map[], a) && SavedFrom(map[], b)
            && !(forall i :: 0 <= i < 2 ==> ClearAt(map[outer := file], [a, b], i))
            && (forall i :: 0 <= i < 2 ==> ClearAt(map[outer := file], [b, a], i))
  {
    var a, b := Backup(outer, false, map[]), Backup(inner, false, map[]);
    var early := [a, b];
    assert outer in map[outer := file] && outer < early[1].location && !CoveredFrom(early, 2, outer);
    assert !ClearAt(map[outer := file], early, 1);
    var late := [b, a];
    assert late[1].location <= outer;
    assert CoveredFrom(late, 1, outer);
  }

  lemma OneMorePlan(plans: seq<Plan>, p: Plan)
    ensures forall l :: MutatedBy(plans + [p], l) <==>
              MutatedBy(plans, l) || (Mutating(p) && p.location == l)
  {
  }

  ghost predicate HasBackup(backups: seq<Backup>, l: Location) {
    exists b :: b in backups && b.location == l
  }

  lemma UnmutatedIsUncovered(plans: seq<Plan>, backups: seq<Backup>)
    requires forall l :: HasBackup(backups, l) ==> MutatedBy(plans, l)
    ensures forall k :: Untouched(plans, k) ==> !Covered(backups, k)
  {
    forall k | Covered(backups, k)
      ensures !Untouched(plans, k)
    {
      var i :| 0 <= i < |backups| && backups[i].location <= k;
      assert HasBackup(backups, backups[i].location);
      assert MutatedBy(plans, backups[i].location);
    }
  }

  /** Neither at nor below any target the plans mutate. */
  predicate Untouched(plans: seq<Plan>, k: Location) {
    forall p :: p in plans && Mutating(p) ==> !(p.location <= k)
  }

  lemma {:induction false} EveryItemEnds(fs: Files, items: seq<Item>, intent: Intent, plans: seq<Plan>)
    requires WellFormed(fs) && Planned(fs, items, intent, plans) && Runnable(plans) && StateAfter(fs, plans, |plans|).Ok?
    ensures forall i :: 0 <= i < |items| && !items[i].mode.Referenced? && Solitary(plans, i) ==>
              && ValidItem(items[i])
              && Observe(StateAfter(fs, plans, |plans|).value, items[i].location, items[i].selector, items[i].directory)
                 == Ok(EndsAs(items[i], intent))
  {
    hide Effect, Acceptable, WellFormed, Observe, Prepare, Solitary, EndsAs, StateAfter, Runnable;
    forall i | 0 <= i < |items| && !items[i].mode.Referenced? && Solitary(plans, i)
      ensures ValidItem(items[i])
      ensures Observe(StateAfter(fs, plans, |plans|).value, items[i].location, items[i].selector, items[i].directory)
              == Ok(EndsAs(items[i], intent))
    {
      EveryItemEndsAs(fs, items, intent, plans, i);
    }
  }

  lemma NoEffect(fs: Files, p: Plan)
    requires ValidPlan(p) && !Blocked(p) && !Mutating(p)
    ensures Effect(fs, p) == Ok(fs)
  {
  }
}
