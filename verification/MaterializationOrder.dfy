/** Batches whose targets lie inside one another: which orders of their items go through. */
module MaterializationOrder {
  import opened Text
  import opened Selectors
  import opened Documents
  import opened Materialization
  import opened MaterializationLaws

  /** Both plans will mutate, the one's target around or inside the other's. */
  predicate NestedPair(plans: seq<Plan>, i: nat, j: nat)
    requires i < |plans| && j < |plans|
  {
    Mutating(plans[i]) && Mutating(plans[j]) && Nested(plans[i], plans[j])
  }

  /** What a plan's re-observation would find. */
  function Seen(fs: Files, p: Plan): Result<Digest>
    requires ValidPlan(p) && !p.reference
  {
    Observe(fs, p.location, p.selector, p.directory)
  }

  // What an outer directory leaves

  /** The files a directory plan leaves at and below its target. */
  function Left(p: Plan): Files
    requires ValidPlan(p) && !Blocked(p) && Mutating(p) && p.directory
  {
    if p.operation.Remove? then map[] else p.desired.files
  }

  /** The outer plan is a directory whose new files read, at the inner target, as that target was
      observed before the batch. */
  predicate Admits(outer: Plan, inner: Plan)
    requires ValidPlan(outer) && !Blocked(outer) && Mutating(outer) && ValidPlan(inner) && !inner.reference
  {
    outer.directory && Observe(Left(outer), inner.location, inner.selector, inner.directory) == Ok(inner.observed)
  }

  ghost predicate SameAround(a: Files, b: Files, l: Location) {
    forall k :: k <= l || l <= k ==> (k in a <==> k in b) && (k in a ==> a[k] == b[k])
  }

  lemma SameAroundObserves(a: Files, b: Files, l: Location, selector: string, directory: bool)
    requires SameAround(a, b, l) && ValidSyntax(selector)
    ensures Observe(a, l, selector, directory) == Observe(b, l, selector, directory)
    ensures ReadFile(a, l) == ReadFile(b, l) && Within(a, l) == Within(b, l)
  {
    assert l <= l;
    assert l in a <==> l in b;
    assert BelowFile(a, l) == BelowFile(b, l) by {
      if BelowFile(a, l) {
        var k :| k in a && k < l;
        assert k <= l && k in b;
      }
      if BelowFile(b, l) {
        var k :| k in b && k < l;
        assert k <= l && k in a;
      }
    }
    assert Within(a, l) == Within(b, l);
    assert DirectoryAt(a, l) == DirectoryAt(b, l) by {
      if DirectoryAt(a, l) {
        var k :| k in a && l < k;
        assert l <= k && k in b;
      }
      if DirectoryAt(b, l) {
        var k :| k in b && l < k;
        assert l <= k && k in a;
      }
    }
  }

  /** Two prefixes of one location are ordered. */
  lemma Comparable(a: Location, b: Location, l: Location)
    requires a <= l && b <= l
    ensures a <= b || b < a
  {
    if |a| <= |b| {
      assert a == l[..|a|] == b[..|a|];
    } else {
      assert b == l[..|b|] == a[..|b|];
    }
  }

  /** After a directory plan, what lies inside its target is read off its files alone. */
  lemma InsideReadsLeft(fs: Files, p: Plan, q: Plan)
    requires ValidPlan(p) && !Blocked(p) && Mutating(p) && p.directory && Effect(fs, p).Ok?
    requires ValidPlan(q) && !q.reference && p.location < q.location
    ensures Observe(Effect(fs, p).value, q.location, q.selector, q.directory)
         == Observe(Left(p), q.location, q.selector, q.directory)
  {
    var fs', left := Effect(fs, p).value, Left(p);
    assert !BelowFile(fs, p.location);
    forall k | k <= q.location || q.location <= k
      ensures (k in fs' <==> k in left) && (k in fs' ==> fs'[k] == left[k])
    {
      if k <= q.location {
        Comparable(p.location, k, q.location);
      } else {
        assert p.location <= k;
      }
    }
    SameAroundObserves(fs', left, q.location, q.selector, q.directory);
  }

  /** Two file systems that show the same directory show the same inside it. */
  lemma SameDirectorySameInside(a: Files, b: Files, l: Location, q: Plan)
    requires Observe(a, l, "$", true) == Observe(b, l, "$", true) && Observe(a, l, "$", true).Ok?
    requires ValidPlan(q) && !q.reference && l < q.location
    ensures Observe(a, q.location, q.selector, q.directory) == Observe(b, q.location, q.selector, q.directory)
  {
    SameDirectorySameWithin(a, b, l);
    SameInside(a, b, l);
    forall k | k <= q.location || q.location <= k
      ensures (k in a <==> k in b) && (k in a ==> a[k] == b[k])
    {
      if k <= q.location {
        Comparable(l, k, q.location);
      } else {
        assert l <= k;
      }
    }
    SameAroundObserves(a, b, q.location, q.selector, q.directory);
  }

  lemma SameDirectorySameWithin(a: Files, b: Files, l: Location)
    requires Observe(a, l, "$", true) == Observe(b, l, "$", true) && Observe(a, l, "$", true).Ok?
    ensures Within(a, l) == Within(b, l)
    ensures !BelowFile(a, l) && !BelowFile(b, l) && l !in a && l !in b
  {
    if !DirectoryAt(a, l) {
      NothingWithin(a, l);
      NothingWithin(b, l);
    }
  }

  lemma NothingWithin(fs: Files, l: Location)
    requires l !in fs && !DirectoryAt(fs, l)
    ensures Within(fs, l) == map[]
  {
    forall k | k in fs
      ensures !(l <= k)
    {
      assert l <= k ==> l == k || l < k;
    }
  }

  lemma DirectorySelector(fs: Files, p: Plan)
    requires ValidPlan(p) && !p.reference && p.directory
    ensures Observe(fs, p.location, p.selector, p.directory) == Observe(fs, p.location, "$", true)
  {
  }

  // What happens in between

  /** The plans from m up to n leave plan j's target alone: none lies around or inside it. */
  predicate Apart(plans: seq<Plan>, m: nat, n: nat, j: nat)
    requires m <= n <= j < |plans|
  {
    forall k :: m <= k < n ==> !NestedPair(plans, k, j)
  }

  /** Plans apart from plan j do not change what it would observe. */
  lemma {:induction false} ViewStays(fs: Files, plans: seq<Plan>, m: nat, n: nat, j: nat)
    requires Runnable(plans) && m <= n <= j < |plans| && StateAfter(fs, plans, n).Ok?
    requires SelectorsIndependent(plans) && Mutating(plans[j]) && Apart(plans, m, n, j)
    ensures StateAfter(fs, plans, m).Ok?
    ensures Seen(StateAfter(fs, plans, n).value, plans[j]) == Seen(StateAfter(fs, plans, m).value, plans[j])
  {
    hide Effect, Observe, PlansIndependent;
    if m < n {
      ViewStays(fs, plans, m, n - 1, j);
      assert PlansIndependent(plans[n - 1], plans[j]) && !NestedPair(plans, n - 1, j);
      EffectKeepsView(StateAfter(fs, plans, n - 1).value, plans[n - 1], plans[j]);
    }
  }

  /** A plan is applied exactly when its target still reads as observed and what it installs is a tree. */
  lemma AppliesExactly(fs: Files, p: Plan)
    requires ValidPlan(p) && !Blocked(p) && Mutating(p)
    ensures Effect(fs, p).Ok? <==> ObservedIn(fs, p) && (InstallsDirectory(p) ==> WellFormed(p.desired.files))
  {
    hide WellFormed;
    if ObservedIn(fs, p) {
      if p.directory {
        DirectoryPlanRuns(fs, p);
      } else {
        ObservedFileIsEditable(fs, p);
      }
    }
  }

  // The outer target first

  /** Of two targets one inside the other the outer one comes first. */
  predicate OuterFirst(plans: seq<Plan>) {
    forall i, j :: 0 <= i < j < |plans| && NestedPair(plans, i, j) ==> plans[i].location < plans[j].location
  }

  predicate PairAdmits(plans: seq<Plan>, i: nat, j: nat)
    requires Runnable(plans) && i < j < |plans|
  {
    NestedPair(plans, i, j) ==> Admits(plans[i], plans[j])
  }

  /** Every outer plan up to n admits the inner ones. */
  predicate AllAdmit(plans: seq<Plan>, n: nat)
    requires Runnable(plans) && n <= |plans|
  {
    forall i, j :: 0 <= i < j < n ==> PairAdmits(plans, i, j)
  }

  lemma {:induction false} AdmittedReadsAsObserved(fs: Files, plans: seq<Plan>, n: nat, j: nat)
    requires Runnable(plans) && n <= j < |plans| && StateAfter(fs, plans, n).Ok?
    requires SelectorsIndependent(plans) && OuterFirst(plans) && ObservedBy(fs, plans) && Mutating(plans[j])
    requires forall i :: 0 <= i < n ==> PairAdmits(plans, i, j)
    ensures ObservedIn(StateAfter(fs, plans, n).value, plans[j])
  {
    hide Effect, Observe, PlansIndependent;
    if n > 0 {
      var before, p, q := StateAfter(fs, plans, n - 1).value, plans[n - 1], plans[j];
      AdmittedReadsAsObserved(fs, plans, n - 1, j);
      if NestedPair(plans, n - 1, j) {
        assert PairAdmits(plans, n - 1, j);
        InsideReadsLeft(before, p, q);
      } else {
        assert PlansIndependent(p, q);
        EffectKeepsObservation(before, p, q);
      }
    }
  }

  /** A file written by a plan, with the outer targets first, is still there later. */
  lemma {:induction false} OuterFileStays(fs: Files, plans: seq<Plan>, i: nat, n: nat)
    requires Runnable(plans) && i < n <= |plans| && OuterFirst(plans)
    requires SelectorsIndependent(plans) && StateAfter(fs, plans, n).Ok?
    requires Mutating(plans[i]) && !plans[i].operation.Remove? && !plans[i].directory
    ensures plans[i].location in StateAfter(fs, plans, n).value
    decreases n
  {
    hide Observe, PlansIndependent;
    if i < n - 1 {
      OuterFileStays(fs, plans, i, n - 1);
      assert PlansIndependent(plans[i], plans[n - 1]);
      assert NestedPair(plans, i, n - 1) ==> plans[i].location < plans[n - 1].location;
      FileOutlives(StateAfter(fs, plans, n - 1).value, plans[i], plans[n - 1]);
    } else {
      WritesItsFile(StateAfter(fs, plans, i).value, plans[i]);
    }
  }

  lemma WritesItsFile(fs: Files, p: Plan)
    requires ValidPlan(p) && !Blocked(p) && Mutating(p) && !p.directory && !p.operation.Remove? && Effect(fs, p).Ok?
    ensures p.location in Effect(fs, p).value
  {
  }

  lemma FileOutlives(fs: Files, p: Plan, q: Plan)
    requires ValidPlan(p) && Mutating(p) && !p.directory && p.location in fs
    requires ValidPlan(q) && !Blocked(q) && Effect(fs, q).Ok? && PlansIndependent(p, q)
    requires Mutating(q) ==> !(q.location < p.location)
    ensures p.location in Effect(fs, q).value
  {
    if Mutating(q) && q.location == p.location {
      FieldEditKeepsDisjoint(fs, q, Fields(p.selector));
    } else if Mutating(q) && q.directory {
      assert !(q.location <= p.location);
    }
  }

  /** Nothing can be planned inside a file that is there, nor applied inside one that was written. */
  lemma OuterIsDirectory(fs: Files, plans: seq<Plan>, i: nat, j: nat)
    requires Runnable(plans) && i < j < |plans| && StateAfter(fs, plans, j + 1).Ok?
    requires SelectorsIndependent(plans) && OuterFirst(plans) && ObservedBy(fs, plans) && NestedPair(plans, i, j)
    ensures plans[i].directory
  {
    hide Observe, PlansIndependent, StateAfter;
    if !plans[i].directory {
      var p, q := plans[i], plans[j];
      assert StateAfter(fs, plans, j).Ok? && Effect(StateAfter(fs, plans, j).value, q).Ok? by {
        OneMoreState(fs, plans, j);
      }
      if p.operation.Remove? {
        FileWasThere(fs, p);
        BelowFileIsUnobservable(fs, p.location, q);
      } else {
        OuterFileStays(fs, plans, i, j);
        BelowFileIsUnobservable(StateAfter(fs, plans, j).value, p.location, q);
        AppliesExactly(StateAfter(fs, plans, j).value, q);
      }
    }
  }

  lemma OneMoreState(fs: Files, plans: seq<Plan>, n: nat)
    requires Runnable(plans) && n < |plans|
    ensures StateAfter(fs, plans, n + 1).Ok? <==>
              StateAfter(fs, plans, n).Ok? && Effect(StateAfter(fs, plans, n).value, plans[n]).Ok?
    ensures StateAfter(fs, plans, n + 1).Ok? ==>
              StateAfter(fs, plans, n + 1) == Effect(StateAfter(fs, plans, n).value, plans[n])
  {
  }

  lemma FileWasThere(fs: Files, p: Plan)
    requires ValidPlan(p) && Mutating(p) && !p.directory && p.operation.Remove? && ObservedIn(fs, p)
    ensures p.location in fs
  {
  }

  lemma BelowFileIsUnobservable(fs: Files, l: Location, q: Plan)
    requires ValidPlan(q) && !q.reference && l in fs && l < q.location
    ensures Observe(fs, q.location, q.selector, q.directory).Err?
  {
    assert BelowFile(fs, q.location);
  }

  /** When a batch goes through, each outer directory admits what lies inside it. */
  lemma {:induction false} PassedMeansAdmitted(fs: Files, plans: seq<Plan>, i: nat, j: nat)
    requires Runnable(plans) && i < j < |plans| && StateAfter(fs, plans, j + 1).Ok?
    requires SelectorsIndependent(plans) && OuterFirst(plans) && ObservedBy(fs, plans)
    ensures PairAdmits(plans, i, j)
    decreases j - i
  {
    hide Observe, PlansIndependent, StateAfter, Effect;
    if NestedPair(plans, i, j) {
      OuterIsDirectory(fs, plans, i, j);
      var q := plans[j];
      OneMoreState(fs, plans, j);
      if k :| i < k < j && NestedPair(plans, k, j) {
        StateBefore(fs, plans, k + 1, j + 1);
        OuterIsDirectory(fs, plans, k, j);
        BothAround(plans, i, k, j);
        PassedMeansAdmitted(fs, plans, i, k);
        DirectorySelector(Left(plans[i]), plans[k]);
        DirectorySelector(fs, plans[k]);
        SameDirectorySameInside(Left(plans[i]), fs, plans[k].location, q);
      } else {
        StateBefore(fs, plans, i + 1, j + 1);
        OneMoreState(fs, plans, i);
        ViewStays(fs, plans, i + 1, j, j);
        InsideReadsLeft(StateAfter(fs, plans, i).value, plans[i], q);
        AppliesExactly(StateAfter(fs, plans, j).value, q);
      }
    }
  }

  lemma StateBefore(fs: Files, plans: seq<Plan>, m: nat, n: nat)
    requires Runnable(plans) && m <= n <= |plans| && StateAfter(fs, plans, n).Ok?
    ensures StateAfter(fs, plans, m).Ok?
  {
    if StateAfter(fs, plans, m).Err? {
      FailureSticks(fs, plans, m, n);
    }
  }

  lemma BothAround(plans: seq<Plan>, i: nat, k: nat, j: nat)
    requires Runnable(plans) && i < k < j < |plans| && SelectorsIndependent(plans) && OuterFirst(plans)
    requires NestedPair(plans, i, j) && NestedPair(plans, k, j) && plans[i].directory
    ensures NestedPair(plans, i, k)
  {
    assert PlansIndependent(plans[i], plans[k]);
    Comparable(plans[i].location, plans[k].location, plans[j].location);
  }

  lemma {:induction false} OrderedStatesExactly(fs: Files, plans: seq<Plan>, n: nat)
    requires Runnable(plans) && n <= |plans|
    requires SelectorsIndependent(plans) && OuterFirst(plans) && ObservedBy(fs, plans)
    ensures StateAfter(fs, plans, n).Ok? <==> InstallsTrees(plans, n) && AllAdmit(plans, n)
  {
    hide Observe, PlansIndependent, StateAfter, Effect, WellFormed, PairAdmits, OuterFirst;
    if n > 0 {
      var last := plans[n - 1];
      OrderedStatesExactly(fs, plans, n - 1);
      OneMoreState(fs, plans, n - 1);
      if StateAfter(fs, plans, n).Ok? {
        var j := n - 1;
        forall i | 0 <= i < j
          ensures PairAdmits(plans, i, j)
        {
          PassedMeansAdmitted(fs, plans, i, j);
        }
        if Mutating(last) {
          AppliesExactly(StateAfter(fs, plans, n - 1).value, last);
        }
      } else if InstallsTrees(plans, n) && AllAdmit(plans, n) && Mutating(last) {
        AdmittedReadsAsObserved(fs, plans, n - 1, n - 1);
        AppliesExactly(StateAfter(fs, plans, n - 1).value, last);
      } else if InstallsTrees(plans, n) && AllAdmit(plans, n) {
        UnmutatedApplies(StateAfter(fs, plans, n - 1).value, last);
      }
    } else {
      NothingApplied(fs, plans);
    }
  }

  lemma UnmutatedApplies(fs: Files, p: Plan)
    requires ValidPlan(p) && !Blocked(p) && !Mutating(p)
    ensures Effect(fs, p) == Ok(fs)
  {
  }

  lemma NothingApplied(fs: Files, plans: seq<Plan>)
    requires Runnable(plans)
    ensures StateAfter(fs, plans, 0) == Ok(fs)
  {
  }

  /** An accepted batch with its outer targets before its inner ones, met by no write fault, goes
      through exactly when every directory it installs is a tree and every outer plan is a
      directory whose new files read at the inner target as it was observed. */
  lemma OrderedBatchRunsExactly(fs: Files, items: seq<Item>, intent: Intent, plans: seq<Plan>)
    requires Planned(fs, items, intent, plans) && Runnable(plans) && OuterFirst(plans)
    ensures StateAfter(fs, plans, |plans|).Ok? <==> InstallsTrees(plans, |plans|) && AllAdmit(plans, |plans|)
  {
    hide Prepare, Effect, SelectorsIndependent, ObservedBy, StateAfter, Acceptable, Planned, OuterFirst, InstallsTrees, AllAdmit;
    AcceptedPlansAreIndependent(fs, items, intent, plans);
    PlannedWasObserved(fs, items, intent, plans);
    OrderedStatesExactly(fs, plans, |plans|);
  }

  // Either order, in pairs

  /** No target has more than one other target around or inside it. */
  predicate InPairs(plans: seq<Plan>) {
    forall a, b, c :: 0 <= a < |plans| && 0 <= b < c < |plans| && NestedPair(plans, a, b) ==> !NestedPair(plans, a, c)
  }

  /** With the outer target first, it admits the inner one; with the inner target first, the
      outer one is a directory, and the inner plan writes back what is there already. */
  predicate PairGoes(fs: Files, plans: seq<Plan>, i: nat, j: nat)
    requires Runnable(plans) && i < j < |plans|
  {
    NestedPair(plans, i, j) ==>
      if plans[i].location < plans[j].location then Admits(plans[i], plans[j])
      else plans[j].directory && Effect(fs, plans[i]) == Ok(fs)
  }

  predicate AllGo(fs: Files, plans: seq<Plan>, n: nat)
    requires Runnable(plans) && n <= |plans|
  {
    forall i, j :: 0 <= i < j < n ==> PairGoes(fs, plans, i, j)
  }

  /** A file plan never leaves room for a target inside its own. */
  lemma OuterFileRefuses(fs0: Files, fs: Files, p: Plan, q: Plan)
    requires ValidPlan(p) && !Blocked(p) && Mutating(p) && !p.directory && ValidPlan(q) && !q.reference
    requires p.location < q.location && ObservedIn(fs0, p) && ObservedIn(fs0, q) && Effect(fs, p).Ok?
    ensures !ObservedIn(Effect(fs, p).value, q)
  {
    if p.operation.Remove? {
      FileWasThere(fs0, p);
      BelowFileIsUnobservable(fs0, p.location, q);
    } else {
      WritesItsFile(fs, p);
      BelowFileIsUnobservable(Effect(fs, p).value, p.location, q);
    }
  }

  /** A plan with nothing at its target writes something there. */
  lemma CreatesSomething(fs: Files, p: Plan)
    requires ValidPlan(p) && !Blocked(p) && Mutating(p) && Effect(fs, p).Ok?
    requires forall k :: k in fs ==> !(p.location <= k)
    ensures exists k :: k in Effect(fs, p).value && p.location <= k
  {
    assert p.location !in fs && !DirectoryAt(fs, p.location);
    assert Observe(fs, p.location, p.selector, p.directory) == Ok(Absent);
    if p.directory {
      var k :| k in p.desired.files;
      assert k in Effect(fs, p).value;
    } else {
      assert p.location in Effect(fs, p).value;
    }
  }

  /** A later file target around an earlier one is never found as it was observed. */
  lemma OuterFileComesTooLate(fs: Files, p: Plan, q: Plan)
    requires ValidPlan(p) && !Blocked(p) && Mutating(p) && ValidPlan(q) && !q.reference && !q.directory
    requires q.location < p.location && Effect(fs, p).Ok? && ObservedIn(fs, q)
    ensures !ObservedIn(Effect(fs, p).value, q)
  {
    var fs' := Effect(fs, p).value;
    assert !BelowFile(fs, p.location) && q.location !in fs && !DirectoryAt(fs, q.location);
    forall k | k in fs
      ensures !(p.location <= k)
    {
      assert p.location <= k ==> q.location < k;
    }
    CreatesSomething(fs, p);
    var k :| k in fs' && p.location <= k;
    assert q.location < k;
    EffectIsConfined(fs, p);
    SameOutside(fs, fs', p.location);
    assert q.location !in fs';
  }

  /** A directory reads as before exactly when the plan inside it changed nothing. */
  lemma OuterDirectorySeesAnyChange(fs: Files, p: Plan, q: Plan)
    requires ValidPlan(p) && !Blocked(p) && ValidPlan(q) && !q.reference && q.directory
    requires q.location < p.location && Effect(fs, p).Ok? && ObservedIn(fs, q)
    ensures ObservedIn(Effect(fs, p).value, q) <==> Effect(fs, p).value == fs
  {
    var fs' := Effect(fs, p).value;
    if ObservedIn(fs', q) {
      DirectorySelector(fs, q);
      DirectorySelector(fs', q);
      SameDirectorySameWithin(fs, fs', q.location);
      SameInside(fs, fs', q.location);
      EffectIsConfined(fs, p);
      SameOutside(fs, fs', p.location);
      forall k
        ensures (k in fs <==> k in fs') && (k in fs ==> fs[k] == fs'[k])
      {
        assert p.location <= k ==> q.location <= k;
      }
    }
  }

  /** Whether a plan changes anything is decided inside any directory around its target. */
  lemma ChangeIsLocal(a: Files, b: Files, p: Plan, l: Location)
    requires ValidPlan(p) && !Blocked(p) && Mutating(p) && l < p.location
    requires Within(a, l) == Within(b, l) && !BelowFile(a, l) && !BelowFile(b, l) && l !in a && l !in b
    ensures Effect(a, p) == Ok(a) <==> Effect(b, p) == Ok(b)
  {
    ChangesNothingAlike(a, b, p, l);
    ChangesNothingAlike(b, a, p, l);
  }

  lemma ChangesNothingAlike(a: Files, b: Files, p: Plan, l: Location)
    requires ValidPlan(p) && !Blocked(p) && Mutating(p) && l < p.location
    requires Within(a, l) == Within(b, l) && !BelowFile(a, l) && !BelowFile(b, l) && l !in a && l !in b
    ensures Effect(a, p) == Ok(a) ==> Effect(b, p) == Ok(b)
  {
    hide Effect, Observe;
    SameInside(a, b, l);
    forall k | k <= p.location || p.location <= k
      ensures (k in a <==> k in b) && (k in a ==> a[k] == b[k])
    {
      if k <= p.location {
        Comparable(l, k, p.location);
      } else {
        assert l <= k;
      }
    }
    SameAroundObserves(a, b, p.location, p.selector, p.directory);
    if p.directory {
      DirectoryChangesNothing(a, p);
      DirectoryChangesNothing(b, p);
    } else if Effect(a, p) == Ok(a) {
      AppliesExactly(a, p);
      FileChangesNothing(a, b, p);
    }
  }

  /** A directory plan changes nothing exactly when it finds the files it leaves. */
  lemma DirectoryChangesNothing(fs: Files, p: Plan)
    requires ValidPlan(p) && !Blocked(p) && Mutating(p) && p.directory
    ensures Effect(fs, p) == Ok(fs) <==>
              ObservedIn(fs, p) && (InstallsDirectory(p) ==> WellFormed(p.desired.files)) && Within(fs, p.location) == Left(p)
  {
    hide Observe, WellFormed;
    AppliesExactly(fs, p);
    var without := Without(fs, p.location);
    if Effect(fs, p).Ok? {
      assert Effect(fs, p).value == without + Left(p);
      if Within(fs, p.location) == Left(p) {
        assert forall k :: k in fs ==> (k in without || k in Within(fs, p.location));
        assert without + Left(p) == fs;
      }
      if without + Left(p) == fs {
        assert forall k :: k in Within(fs, p.location) <==> k in Left(p);
        assert Within(fs, p.location) == Left(p);
      }
    }
  }

  lemma FileChangesNothing(a: Files, b: Files, p: Plan)
    requires ValidPlan(p) && !Blocked(p) && Mutating(p) && !p.directory && Effect(a, p) == Ok(a)
    requires ObservedIn(b, p) && ReadFile(a, p.location) == ReadFile(b, p.location)
    ensures Effect(b, p) == Ok(b)
  {
    hide Observe;
    var desired := if p.operation.Remove? then None else Some(p.desired.content);
    assert EditFile(a, p, desired) == Ok(a);
    EditWritesItsFile(a, p, desired);
    EditWritesItsFile(b, p, desired);
    SameEdit(a, b, p, desired);
    assert b[p.location := b[p.location]] == b;
  }

  lemma SameEdit(a: Files, b: Files, p: Plan, desired: Option<Content>)
    requires ValidPlan(p) && !p.reference && (desired.Some? && Fields(p.selector) != [] ==> desired.value.Document?)
    requires ReadFile(a, p.location) == ReadFile(b, p.location) && EditFile(a, p, desired).Ok?
    ensures EditFile(b, p, desired).Ok?
    ensures p.location in EditFile(a, p, desired).value <==> p.location in EditFile(b, p, desired).value
    ensures p.location in EditFile(a, p, desired).value ==>
              EditFile(a, p, desired).value[p.location] == EditFile(b, p, desired).value[p.location]
  {
  }

  /** An edit that leaves everything as it was leaves its file as it was, and the other way round. */
  lemma EditWritesItsFile(fs: Files, p: Plan, desired: Option<Content>)
    requires ValidPlan(p) && !p.reference && (desired.Some? && Fields(p.selector) != [] ==> desired.value.Document?)
    ensures EditFile(fs, p, desired).Ok? ==>
              var edited := EditFile(fs, p, desired).value;
              (edited == fs <==> p.location in fs && p.location in edited && edited[p.location] == fs[p.location])
  {
    if EditFile(fs, p, desired).Ok? {
      var edited := EditFile(fs, p, desired).value;
      if p.location in edited {
        assert edited == fs[p.location := edited[p.location]];
      }
    }
  }

  /** Plan j finds its target as observed exactly when its one earlier partner lets it. */
  lemma PairDecides(fs: Files, plans: seq<Plan>, j: nat)
    requires Runnable(plans) && j < |plans| && StateAfter(fs, plans, j).Ok? && Mutating(plans[j])
    requires SelectorsIndependent(plans) && InPairs(plans) && ObservedBy(fs, plans)
    ensures ObservedIn(StateAfter(fs, plans, j).value, plans[j]) <==> forall i :: 0 <= i < j ==> PairGoes(fs, plans, i, j)
  {
    hide Observe, PlansIndependent, StateAfter, Effect, InPairs;
    if i :| 0 <= i < j && NestedPair(plans, i, j) {
      OnlyPartner(plans, i, j);
      ViewStays(fs, plans, i + 1, j, j);
      StateBefore(fs, plans, i, j);
      ViewStays(fs, plans, 0, i, j);
      NothingApplied(fs, plans);
      PartnerDecides(fs, plans, i, j);
      forall k | 0 <= k < j && k != i
        ensures PairGoes(fs, plans, k, j)
      {
        assert !NestedPair(plans, k, j);
      }
    } else {
      ViewStays(fs, plans, 0, j, j);
      NothingApplied(fs, plans);
    }
  }

  lemma OnePartner(plans: seq<Plan>, a: nat, b: nat, c: nat)
    requires InPairs(plans) && a < |plans| && b < c < |plans|
    ensures !(NestedPair(plans, a, b) && NestedPair(plans, a, c))
  {
  }

  lemma OnlyPartner(plans: seq<Plan>, i: nat, j: nat)
    requires InPairs(plans) && i < j < |plans| && NestedPair(plans, i, j)
    ensures forall k :: 0 <= k < j && k != i ==> !NestedPair(plans, k, j)
  {
    forall k | 0 <= k < j && k != i
      ensures !NestedPair(plans, k, j)
    {
      if i < k {
        OnePartner(plans, j, i, k);
      } else {
        OnePartner(plans, j, k, i);
      }
    }
  }

  lemma PartnerDecides(fs: Files, plans: seq<Plan>, i: nat, j: nat)
    requires Runnable(plans) && i < j < |plans| && ObservedBy(fs, plans) && NestedPair(plans, i, j)
    requires StateAfter(fs, plans, i).Ok? && StateAfter(fs, plans, i + 1).Ok?
    requires Seen(StateAfter(fs, plans, i).value, plans[j]) == Seen(fs, plans[j])
    ensures Seen(StateAfter(fs, plans, i + 1).value, plans[j]) == Ok(plans[j].observed) <==> PairGoes(fs, plans, i, j)
  {
    hide Observe, StateAfter, Effect;
    OneMoreState(fs, plans, i);
    var before, p, q := StateAfter(fs, plans, i).value, plans[i], plans[j];
    if p.location < q.location {
      if p.directory {
        InsideReadsLeft(before, p, q);
      } else {
        OuterFileRefuses(fs, before, p, q);
      }
    } else if !q.directory {
      OuterFileComesTooLate(before, p, q);
    } else {
      OuterDirectorySeesAnyChange(before, p, q);
      DirectorySelector(before, q);
      DirectorySelector(fs, q);
      SameDirectorySameWithin(before, fs, q.location);
      ChangeIsLocal(before, fs, p, q.location);
    }
  }

  lemma {:induction false} PairedStatesExactly(fs: Files, plans: seq<Plan>, n: nat)
    requires Runnable(plans) && n <= |plans|
    requires SelectorsIndependent(plans) && InPairs(plans) && ObservedBy(fs, plans)
    ensures StateAfter(fs, plans, n).Ok? <==> InstallsTrees(plans, n) && AllGo(fs, plans, n)
  {
    hide Observe, PlansIndependent, StateAfter, Effect, WellFormed, PairGoes, InPairs;
    if n > 0 {
      var j, last := n - 1, plans[n - 1];
      PairedStatesExactly(fs, plans, j);
      OneMoreState(fs, plans, j);
      assert AllGo(fs, plans, n) <==> AllGo(fs, plans, j) && forall i :: 0 <= i < j ==> PairGoes(fs, plans, i, j);
      if !Mutating(last) {
        IdleAlwaysGoes(fs, plans, j);
        if StateAfter(fs, plans, j).Ok? {
          UnmutatedApplies(StateAfter(fs, plans, j).value, last);
        }
      } else if StateAfter(fs, plans, j).Ok? {
        PairDecides(fs, plans, j);
        AppliesExactly(StateAfter(fs, plans, j).value, last);
      }
    } else {
      NothingApplied(fs, plans);
    }
  }

  lemma IdleAlwaysGoes(fs: Files, plans: seq<Plan>, j: nat)
    requires Runnable(plans) && j < |plans| && !Mutating(plans[j])
    ensures forall i :: 0 <= i < j ==> PairGoes(fs, plans, i, j)
  {
  }

  /** An accepted batch whose nested targets come in pairs, in either order, met by no write
      fault, goes through exactly when every directory it installs is a tree and every pair goes. */
  lemma PairedBatchRunsExactly(fs: Files, items: seq<Item>, intent: Intent, plans: seq<Plan>)
    requires Planned(fs, items, intent, plans) && Runnable(plans) && InPairs(plans)
    ensures StateAfter(fs, plans, |plans|).Ok? <==> InstallsTrees(plans, |plans|) && AllGo(fs, plans, |plans|)
  {
    hide Prepare, Effect, SelectorsIndependent, ObservedBy, StateAfter, Acceptable, Planned, InPairs, InstallsTrees, AllGo;
    AcceptedPlansAreIndependent(fs, items, intent, plans);
    PlannedWasObserved(fs, items, intent, plans);
    PairedStatesExactly(fs, plans, |plans|);
  }

  // An input that shows it

  const SKILL: Location := ["home", "skill"]
  const GUIDE: Location := ["home", "skill", "guide"]
  const NOTES: Location := ["home", "skill", "notes"]

  const SKILL_ITEM := Item("skill", SKILL, "$", true, Managed, Tree(map[GUIDE := File(Opaque("guide"), 0x1A4)]),
                           0x1C0, Absent, Absent, true, false, true)

  const NOTES_ITEM := Item("notes", NOTES, "$", false, Managed, FileContent(Opaque("notes")), 0x180,
                           Absent, Absent, true, false, true)

  function NewPlan(item: Item): Plan {
    Plan(item.id, Create, item.location, "$", item.directory, false, item.desired, item.fileMode, Absent)
  }

  lemma Inside()
    ensures SKILL < NOTES && SKILL < GUIDE && !(GUIDE <= NOTES) && !(NOTES <= GUIDE)
  {
    assert GUIDE[..2] == SKILL && NOTES[..2] == SKILL && NOTES != GUIDE;
  }

  lemma NewItemIsPlanned(item: Item)
    requires ValidItem(item) && item.mode.Managed? && item.approved && !item.desired.Nothing? && item.selector == "$"
    requires item.lastApplied == Absent && item.observed == Absent
    ensures Prepare(map[], item, Reconcile) == Ok(NewPlan(item))
  {
    hide ValidItem;
    assert Observe(map[], item.location, "$", item.directory) == Ok(Absent);
  }

  lemma NewSkillIsPlanned()
    ensures Prepare(map[], SKILL_ITEM, Reconcile) == Ok(NewPlan(SKILL_ITEM))
  {
    hide Split, Prepare;
    Inside();
    assert GUIDE in SKILL_ITEM.desired.files;
    assert SKILL_ITEM.id[0] == 's';
    NewItemIsPlanned(SKILL_ITEM);
  }

  lemma NewNotesArePlanned()
    ensures Prepare(map[], NOTES_ITEM, Reconcile) == Ok(NewPlan(NOTES_ITEM))
  {
    hide Split, Prepare, Observe;
    assert "notes"[0] != ".json"[0];
    assert !JsonTarget(NOTES);
    NewItemIsPlanned(NOTES_ITEM);
  }

  lemma BothOrdersPlanned()
    ensures Planned(map[], [SKILL_ITEM, NOTES_ITEM], Reconcile, [NewPlan(SKILL_ITEM), NewPlan(NOTES_ITEM)])
    ensures Planned(map[], [NOTES_ITEM, SKILL_ITEM], Reconcile, [NewPlan(NOTES_ITEM), NewPlan(SKILL_ITEM)])
  {
    Inside();
    NewSkillIsPlanned();
    NewNotesArePlanned();
    hide Prepare;
  }

  /** A new directory and a new file inside it, which the directory does not bring itself: accepted
      in either order, applied with the directory first, refused with the file first. */
  lemma OrderDecides() returns (skillFirst: seq<Plan>, notesFirst: seq<Plan>)
    ensures Planned(map[], [SKILL_ITEM, NOTES_ITEM], Reconcile, skillFirst) && Runnable(skillFirst)
    ensures Planned(map[], [NOTES_ITEM, SKILL_ITEM], Reconcile, notesFirst) && Runnable(notesFirst)
    ensures StateAfter(map[], skillFirst, 2).Ok? && StateAfter(map[], notesFirst, 2).Err?
  {
    var skill, notes := NewPlan(SKILL_ITEM), NewPlan(NOTES_ITEM);
    skillFirst, notesFirst := [skill, notes], [notes, skill];
    BothOrdersPlanned();
    Inside();
    NewSkillIsPlanned();
    NewNotesArePlanned();
    SkillAdmitsNotes();
    NotesChangeSomething();
    hide Prepare, Planned, StateAfter, Effect, Admits, Observe;
    PairedBatchRunsExactly(map[], [SKILL_ITEM, NOTES_ITEM], Reconcile, skillFirst);
    PairedBatchRunsExactly(map[], [NOTES_ITEM, SKILL_ITEM], Reconcile, notesFirst);
    assert PairGoes(map[], skillFirst, 0, 1);
    assert !PairGoes(map[], notesFirst, 0, 1);
  }

  lemma SkillAdmitsNotes()
    ensures ValidPlan(NewPlan(SKILL_ITEM)) && ValidPlan(NewPlan(NOTES_ITEM))
    ensures Admits(NewPlan(SKILL_ITEM), NewPlan(NOTES_ITEM)) && WellFormed(NewPlan(SKILL_ITEM).desired.files)
  {
    Inside();
    NewSkillIsPlanned();
    NewNotesArePlanned();
    hide Prepare;
  }

  lemma NotesChangeSomething()
    ensures Effect(map[], NewPlan(NOTES_ITEM)) != Ok(map[])
  {
    Inside();
    NewSkillIsPlanned();
    NewNotesArePlanned();
    hide Prepare;
    if Effect(map[], NewPlan(NOTES_ITEM)).Ok? {
      WritesItsFile(map[], NewPlan(NOTES_ITEM));
    }
  }
}
