/** Batches whose targets lie inside one another, in any order and to any depth. What happens at a
    target is decided by the last plan around it and the plans inside it since. */
module MaterializationNesting {
  import opened Text
  import opened Selectors
  import opened Documents
  import opened Materialization
  import opened MaterializationLaws
  import opened MaterializationOrder

  predicate Surrounds(p: Plan, l: Location) {
    Mutating(p) && p.location < l
  }

  predicate AtOrInside(p: Plan, l: Location) {
    Mutating(p) && l <= p.location
  }

  /** The last plan from m up to n whose target lies around a location. */
  function LastAround(plans: seq<Plan>, m: nat, n: nat, l: Location): (r: Option<nat>)
    requires m <= n <= |plans|
    ensures r.None? ==> forall k :: m <= k < n ==> !Surrounds(plans[k], l)
    ensures r.Some? ==>
              m <= r.value < n && Surrounds(plans[r.value], l) && forall k :: r.value < k < n ==> !Surrounds(plans[k], l)
    decreases n - m
  {
    if m == n then None
    else if Surrounds(plans[n - 1], l) then Some(n - 1)
    else LastAround(plans, m, n - 1, l)
  }

  /** The plans from m up to n that lie at or inside a location, applied alone to some files. */
  function Replay(base: Files, plans: seq<Plan>, m: nat, n: nat, l: Location): Result<Files>
    requires Runnable(plans) && m <= n <= |plans|
    decreases n - m
  {
    if m == n then Ok(base)
    else
      match Replay(base, plans, m, n - 1, l)
      case Err(e) => Err(e)
      case Ok(files) => if AtOrInside(plans[n - 1], l) then Effect(files, plans[n - 1]) else Ok(files)
  }

  // Effects on a region

  lemma AroundInner(a: Files, b: Files, l: Location, inner: Location)
    requires SameAround(a, b, l) && l <= inner
    ensures SameAround(a, b, inner)
  {
    forall k | k <= inner || inner <= k
      ensures (k in a <==> k in b) && (k in a ==> a[k] == b[k])
    {
      if k <= inner {
        Comparable(l, k, inner);
      } else {
        assert l <= k;
      }
    }
  }

  /** A plan at or inside a location does to two file systems alike around it what it does to one. */
  lemma EffectAlike(a: Files, b: Files, p: Plan, l: Location)
    requires ValidPlan(p) && !Blocked(p) && AtOrInside(p, l) && SameAround(a, b, l)
    ensures Effect(a, p).Ok? <==> Effect(b, p).Ok?
    ensures Effect(a, p).Ok? ==> SameAround(Effect(a, p).value, Effect(b, p).value, l)
  {
    hide Effect, Observe;
    AroundInner(a, b, l, p.location);
    SameAroundObserves(a, b, p.location, p.selector, p.directory);
    AppliesExactly(a, p);
    AppliesExactly(b, p);
    if Effect(a, p).Ok? {
      var a', b' := Effect(a, p).value, Effect(b, p).value;
      EffectIsConfined(a, p);
      EffectIsConfined(b, p);
      SameOutside(a, a', p.location);
      SameOutside(b, b', p.location);
      SameWrites(a, b, p);
      forall k | k <= l || l <= k
        ensures (k in a' <==> k in b') && (k in a' ==> a'[k] == b'[k])
      {
        if !(p.location <= k) {
          assert (k in a <==> k in b) && (k in a ==> a[k] == b[k]);
        }
      }
    }
  }

  /** What a plan leaves at and inside its own target. */
  lemma SameWrites(a: Files, b: Files, p: Plan)
    requires ValidPlan(p) && !Blocked(p) && Mutating(p) && SameAround(a, b, p.location)
    requires Effect(a, p).Ok? && Effect(b, p).Ok?
    ensures var a', b' := Effect(a, p).value, Effect(b, p).value;
            forall k :: p.location <= k ==> (k in a' <==> k in b') && (k in a' ==> a'[k] == b'[k])
  {
    var a', b' := Effect(a, p).value, Effect(b, p).value;
    if !p.directory {
      var desired := if p.operation.Remove? then None else Some(p.desired.content);
      SameAroundObserves(a, b, p.location, p.selector, p.directory);
      SameEdit(a, b, p, desired);
      forall k | p.location <= k
        ensures (k in a' <==> k in b') && (k in a' ==> a'[k] == b'[k])
      {
        if k != p.location {
          EffectIsLocal(a, p, k);
          EffectIsLocal(b, p, k);
        }
      }
    }
  }

  /** A plan neither around nor at or inside a location leaves what is around it alone. */
  lemma EffectApart(fs: Files, p: Plan, l: Location)
    requires ValidPlan(p) && !Blocked(p) && Effect(fs, p).Ok? && !Surrounds(p, l) && !AtOrInside(p, l)
    ensures SameAround(Effect(fs, p).value, fs, l)
  {
    hide Effect;
    if Mutating(p) {
      EffectIsConfined(fs, p);
      var fs' := Effect(fs, p).value;
      SameOutside(fs, fs', p.location);
      forall k | k <= l || l <= k
        ensures (k in fs' <==> k in fs) && (k in fs' ==> fs'[k] == fs[k])
      {
        if p.location <= k && l <= k {
          Comparable(p.location, l, k);
        }
      }
    } else {
      UnmutatedApplies(fs, p);
    }
  }

  /** As long as no plan lies around a location, what is around it is found by replaying the
      plans at or inside it, from any files alike there at the outset. */
  lemma {:induction false} Region(fs: Files, plans: seq<Plan>, base: Files, m: nat, n: nat, l: Location)
    requires Runnable(plans) && m <= n <= |plans| && StateAfter(fs, plans, n).Ok?
    requires StateAfter(fs, plans, m).Ok? && SameAround(StateAfter(fs, plans, m).value, base, l)
    requires forall k :: m <= k < n ==> !Surrounds(plans[k], l)
    ensures Replay(base, plans, m, n, l).Ok?
    ensures SameAround(StateAfter(fs, plans, n).value, Replay(base, plans, m, n, l).value, l)
    decreases n - m
  {
    hide Effect, SameAround;
    if m < n {
      StateBefore(fs, plans, n - 1, n);
      Region(fs, plans, base, m, n - 1, l);
      var before, files, p := StateAfter(fs, plans, n - 1).value, Replay(base, plans, m, n - 1, l).value, plans[n - 1];
      if AtOrInside(p, l) {
        EffectAlike(before, files, p, l);
      } else {
        EffectApart(before, p, l);
        AroundTwice(Effect(before, p).value, before, files, l);
      }
    }
  }

  lemma AroundTwice(a: Files, b: Files, c: Files, l: Location)
    requires SameAround(a, b, l) && SameAround(b, c, l)
    ensures SameAround(a, c, l)
  {
  }

  /** After a directory plan its files are all there is, at its target and anywhere inside. */
  lemma LeftAround(fs: Files, p: Plan, l: Location)
    requires ValidPlan(p) && !Blocked(p) && Mutating(p) && p.directory && Effect(fs, p).Ok? && p.location <= l
    ensures SameAround(Effect(fs, p).value, Left(p), l)
  {
    var fs', left := Effect(fs, p).value, Left(p);
    assert !BelowFile(fs, p.location);
    forall k | k <= l || l <= k
      ensures (k in fs' <==> k in left) && (k in fs' ==> fs'[k] == left[k])
    {
      if k <= l {
        Comparable(p.location, k, l);
      } else {
        assert p.location <= k;
      }
    }
  }

  // When a batch goes through

  /** What a target reads after the plans at or inside it that follow a directory plan around it. */
  function ReadsAfter(base: Files, plans: seq<Plan>, m: nat, n: nat, q: Plan): Result<Digest>
    requires Runnable(plans) && m <= n <= |plans| && ValidPlan(q) && !q.reference
  {
    match Replay(base, plans, m, n, q.location)
    case Err(e) => Err(e)
    case Ok(files) => Seen(files, q)
  }

  /** Plan j finds its target as it was observed: in the files of the last plan around it, which is
      a directory, or in the files from before the batch if there is none, after the earlier plans
      inside it. */
  predicate FindsItsTarget(fs: Files, plans: seq<Plan>, j: nat)
    requires Runnable(plans) && j < |plans| && Mutating(plans[j])
  {
    var q := plans[j];
    match LastAround(plans, 0, j, q.location)
    case None => ReadsAfter(fs, plans, 0, j, q) == Ok(q.observed)
    case Some(k) => plans[k].directory && ReadsAfter(Left(plans[k]), plans, k + 1, j, q) == Ok(q.observed)
  }

  lemma RegionReads(fs: Files, plans: seq<Plan>, base: Files, m: nat, n: nat, q: Plan)
    requires Runnable(plans) && m <= n <= |plans| && StateAfter(fs, plans, n).Ok? && ValidPlan(q) && !q.reference
    requires StateAfter(fs, plans, m).Ok? && SameAround(StateAfter(fs, plans, m).value, base, q.location)
    requires forall k :: m <= k < n ==> !Surrounds(plans[k], q.location)
    ensures Replay(base, plans, m, n, q.location).Ok?
    ensures ReadsAfter(base, plans, m, n, q) == Seen(StateAfter(fs, plans, n).value, q)
  {
    hide Effect, StateAfter, Replay, Observe, SameAround;
    Region(fs, plans, base, m, n, q.location);
    SameAroundObserves(StateAfter(fs, plans, n).value, Replay(base, plans, m, n, q.location).value,
                       q.location, q.selector, q.directory);
  }

  /** What lies above a location stays as long as no plan lies around it. */
  lemma {:induction false} AboveStays(fs: Files, plans: seq<Plan>, m: nat, n: nat, l: Location, k: Location)
    requires Runnable(plans) && m <= n <= |plans| && StateAfter(fs, plans, n).Ok? && StateAfter(fs, plans, m).Ok?
    requires (forall i :: m <= i < n ==> !Surrounds(plans[i], l)) && k < l && k in StateAfter(fs, plans, m).value
    ensures k in StateAfter(fs, plans, n).value
    decreases n - m
  {
    hide Effect;
    if m < n {
      StateBefore(fs, plans, n - 1, n);
      AboveStays(fs, plans, m, n - 1, l, k);
      var before, p := StateAfter(fs, plans, n - 1).value, plans[n - 1];
      assert !(Mutating(p) && p.location <= k);
      EffectIsLocal(before, p, k);
    }
  }

  /** A file plan around a target makes it unobservable for good. */
  lemma FileAroundHides(fs: Files, plans: seq<Plan>, k: nat, n: nat, q: Plan)
    requires Runnable(plans) && k < n <= |plans| && StateAfter(fs, plans, n).Ok? && ObservedBy(fs, plans)
    requires ValidPlan(q) && !q.reference && ObservedIn(fs, q) && Surrounds(plans[k], q.location) && !plans[k].directory
    requires forall i :: k < i < n ==> !Surrounds(plans[i], q.location)
    ensures Seen(StateAfter(fs, plans, n).value, q).Err?
  {
    hide Effect, Observe, StateAfter;
    var p := plans[k];
    StateBefore(fs, plans, k + 1, n);
    OneMoreState(fs, plans, k);
    if p.operation.Remove? {
      FileWasThere(fs, p);
      BelowFileIsUnobservable(fs, p.location, q);
    } else {
      WritesItsFile(StateAfter(fs, plans, k).value, p);
      AboveStays(fs, plans, k + 1, n, q.location, p.location);
      BelowFileIsUnobservable(StateAfter(fs, plans, n).value, p.location, q);
    }
  }

  lemma {:induction false} FindingDecides(fs: Files, plans: seq<Plan>, j: nat)
    requires Runnable(plans) && j < |plans| && Mutating(plans[j]) && StateAfter(fs, plans, j).Ok? && ObservedBy(fs, plans)
    ensures ObservedIn(StateAfter(fs, plans, j).value, plans[j]) <==> FindsItsTarget(fs, plans, j)
  {
    hide Effect, Observe, StateAfter, Replay, ReadsAfter, SameAround;
    var q := plans[j];
    match LastAround(plans, 0, j, q.location)
    case None =>
      NothingApplied(fs, plans);
      AroundItself(fs, q.location);
      RegionReads(fs, plans, fs, 0, j, q);
    case Some(k) =>
      if plans[k].directory {
        StateBefore(fs, plans, k + 1, j);
        OneMoreState(fs, plans, k);
        LeftAround(StateAfter(fs, plans, k).value, plans[k], q.location);
        RegionReads(fs, plans, Left(plans[k]), k + 1, j, q);
      } else {
        FileAroundHides(fs, plans, k, j, q);
      }
  }

  lemma AroundItself(fs: Files, l: Location)
    ensures SameAround(fs, fs, l)
  {
  }

  predicate AllFind(fs: Files, plans: seq<Plan>, n: nat)
    requires Runnable(plans) && n <= |plans|
  {
    forall j :: 0 <= j < n && Mutating(plans[j]) ==> FindsItsTarget(fs, plans, j)
  }

  lemma {:induction false} NestedStatesExactly(fs: Files, plans: seq<Plan>, n: nat)
    requires Runnable(plans) && n <= |plans| && ObservedBy(fs, plans)
    ensures StateAfter(fs, plans, n).Ok? <==> InstallsTrees(plans, n) && AllFind(fs, plans, n)
  {
    hide Observe, StateAfter, Effect, WellFormed, FindsItsTarget;
    if n > 0 {
      var j, last := n - 1, plans[n - 1];
      NestedStatesExactly(fs, plans, j);
      OneMoreState(fs, plans, j);
      if StateAfter(fs, plans, j).Ok? {
        if Mutating(last) {
          FindingDecides(fs, plans, j);
          AppliesExactly(StateAfter(fs, plans, j).value, last);
        } else {
          UnmutatedApplies(StateAfter(fs, plans, j).value, last);
        }
      }
    } else {
      NothingApplied(fs, plans);
    }
  }

  /** An accepted batch, met by no write fault, goes through exactly when every directory it installs
      is a tree and every plan finds its target as it was observed, in the files of the last
      directory around it and after the plans inside it alone. */
  lemma {:induction false} NestedBatchRunsExactly(fs: Files, items: seq<Item>, intent: Intent, plans: seq<Plan>)
    requires Planned(fs, items, intent, plans) && Runnable(plans)
    ensures StateAfter(fs, plans, |plans|).Ok? <==> InstallsTrees(plans, |plans|) && AllFind(fs, plans, |plans|)
  {
    hide Prepare, Effect, ObservedBy, StateAfter, Acceptable, Planned, InstallsTrees, AllFind;
    PlannedWasObserved(fs, items, intent, plans);
    NestedStatesExactly(fs, plans, |plans|);
  }

  // What a batch leaves

  /** What is found in the end at the target of a plan that went through, unless that is its own
      file: what the last later directory around it left there, or its own files, after the later
      plans inside it. */
  function Leaves(plans: seq<Plan>, i: nat): Result<Digest>
    requires Runnable(plans) && i < |plans| && Mutating(plans[i])
    requires plans[i].directory || LastAround(plans, i + 1, |plans|, plans[i].location).Some?
  {
    var p := plans[i];
    match LastAround(plans, i + 1, |plans|, p.location)
    case None => ReadsAfter(Left(p), plans, i + 1, |plans|, p)
    case Some(b) =>
      if plans[b].directory then ReadsAfter(Left(plans[b]), plans, b + 1, |plans|, p) else Err("not a directory")
  }

  lemma {:induction false} LeavesIsSeen(fs: Files, plans: seq<Plan>, i: nat)
    requires Runnable(plans) && i < |plans| && Mutating(plans[i]) && ObservedBy(fs, plans)
    requires StateAfter(fs, plans, |plans|).Ok?
    requires plans[i].directory || LastAround(plans, i + 1, |plans|, plans[i].location).Some?
    ensures var seen := Seen(StateAfter(fs, plans, |plans|).value, plans[i]);
            seen == Leaves(plans, i) || (seen.Err? && Leaves(plans, i).Err?)
  {
    hide Effect, Observe, StateAfter, Replay, ReadsAfter, SameAround;
    var p, n := plans[i], |plans|;
    var around := LastAround(plans, i + 1, n, p.location);
    var b := if around.Some? then around.value else i;
    StateBefore(fs, plans, b + 1, n);
    OneMoreState(fs, plans, b);
    if plans[b].directory {
      LeftAround(StateAfter(fs, plans, b).value, plans[b], p.location);
      RegionReads(fs, plans, Left(plans[b]), b + 1, n, p);
    } else {
      FileAroundHides(fs, plans, b, n, p);
    }
  }

  /** A file plan's selector reads what it installed until a later plan lies around its target. */
  lemma {:induction false} FileReadsBack(fs: Files, plans: seq<Plan>, i: nat, n: nat)
    requires Runnable(plans) && i < n <= |plans| && StateAfter(fs, plans, n).Ok? && SelectorsIndependent(plans)
    requires Mutating(plans[i]) && !plans[i].directory && !plans[i].operation.Remove?
    requires forall k :: i < k < n ==> !Surrounds(plans[k], plans[i].location)
    ensures ReadsAsPlanned(StateAfter(fs, plans, n).value, plans[i])
    decreases n
  {
    hide Effect, PlansIndependent, Observe;
    StateBefore(fs, plans, n - 1, n);
    var before, p, last := StateAfter(fs, plans, n - 1).value, plans[i], plans[n - 1];
    if i == n - 1 {
      EffectReadsBack(before, last);
    } else {
      FileReadsBack(fs, plans, i, n - 1);
      assert PlansIndependent(p, last);
      if Mutating(last) && p.location < last.location {
        BelowFileIsUnobservable(before, p.location, last);
        AppliesExactly(before, last);
      } else {
        EffectKeepsReading(before, last, p);
      }
    }
  }

  // Pairs

  /** Among the plans from m up to n only plan j, if it, lies around, at or inside a location. */
  predicate OnlyOne(plans: seq<Plan>, m: nat, n: nat, l: Location, j: nat)
    requires m <= n <= |plans|
  {
    forall k :: m <= k < n && k != j ==> !Surrounds(plans[k], l) && !AtOrInside(plans[k], l)
  }

  lemma {:induction false} ReplayOfOne(base: Files, plans: seq<Plan>, m: nat, n: nat, l: Location, j: nat)
    requires Runnable(plans) && m <= n <= |plans| && OnlyOne(plans, m, n, l, j)
    ensures Replay(base, plans, m, n, l) == if m <= j < n && AtOrInside(plans[j], l) then Effect(base, plans[j]) else Ok(base)
    decreases n - m
  {
    hide Effect;
    if m < n {
      ReplayOfOne(base, plans, m, n - 1, l, j);
    }
  }

  /** A directory's files read as installed after one plan inside it exactly when that plan changes
      nothing in them. */
  lemma InnerPlanIsSeen(p: Plan, q: Plan)
    requires ValidPlan(p) && !Blocked(p) && InstallsDirectory(p) && ValidPlan(q) && !Blocked(q) && Mutating(q)
    requires p.location < q.location && Effect(Left(p), q).Ok?
    ensures Seen(Effect(Left(p), q).value, p) == Ok(OfTree(Left(p))) <==> Effect(Left(p), q) == Ok(Left(p))
  {
    var left, after := Left(p), Effect(Left(p), q).value;
    LeftReadsAsInstalled(p);
    EffectIsConfined(left, q);
    SameOutside(left, after, q.location);
    assert forall k :: k in after ==> p.location <= k;
    assert Within(after, p.location) == after;
  }

  lemma LeftReadsAsInstalled(p: Plan)
    requires ValidPlan(p) && !Blocked(p) && InstallsDirectory(p)
    ensures Seen(Left(p), p) == Ok(OfTree(Left(p)))
  {
    var files := Left(p);
    var k :| k in files;
    assert p.location < k;
    assert Within(files, p.location) == files;
  }

  /** With one other plan, later and inside it, a directory reads as installed in the end exactly
      when that plan changes nothing in its files. */
  lemma OuterFirstPairLeaves(plans: seq<Plan>, i: nat, j: nat)
    requires Runnable(plans) && i < j < |plans| && InstallsDirectory(plans[i])
    requires Mutating(plans[j]) && plans[i].location < plans[j].location
    requires OnlyOne(plans, i + 1, |plans|, plans[i].location, j)
    ensures Leaves(plans, i) == Ok(OfTree(plans[i].desired.files)) <==> Effect(Left(plans[i]), plans[j]) == Ok(Left(plans[i]))
  {
    hide Effect, Observe;
    ReplayOfOne(Left(plans[i]), plans, i + 1, |plans|, plans[i].location, j);
    if Effect(Left(plans[i]), plans[j]).Ok? {
      InnerPlanIsSeen(plans[i], plans[j]);
    }
  }

  /** With one other plan, later and around it, a target reads in the end what that plan's files
      hold there. */
  lemma InnerFirstPairLeaves(plans: seq<Plan>, i: nat, j: nat)
    requires Runnable(plans) && i < j < |plans| && Mutating(plans[i]) && Mutating(plans[j]) && plans[j].directory
    requires plans[j].location < plans[i].location && OnlyOne(plans, i + 1, |plans|, plans[i].location, j)
    ensures Leaves(plans, i) == Seen(Left(plans[j]), plans[i])
  {
    hide Effect, Observe;
    var around := LastAround(plans, i + 1, |plans|, plans[i].location);
    assert around == Some(j);
    ReplayOfOne(Left(plans[j]), plans, j + 1, |plans|, plans[i].location, j);
  }

  /** With no other plan later around or inside it, a directory reads as installed in the end. */
  lemma AloneLeaves(plans: seq<Plan>, i: nat)
    requires Runnable(plans) && i < |plans| && InstallsDirectory(plans[i])
    requires OnlyOne(plans, i + 1, |plans|, plans[i].location, i)
    ensures Leaves(plans, i) == Ok(OfTree(plans[i].desired.files))
  {
    hide Effect, Observe;
    ReplayOfOne(Left(plans[i]), plans, i + 1, |plans|, plans[i].location, i);
    LeftReadsAsInstalled(plans[i]);
  }
}
