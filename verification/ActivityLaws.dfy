/** What the activity counts mean: one root per agent tree, no user process left out. */
module ActivityLaws {
  import opened Text
  import opened Ancestry
  import opened Activity

  // The agent forest

  lemma ParentStep(ps: Processes, pid: int, m: nat, n: nat)
    requires Up(ps, pid, m).Some?
    ensures Up(ps, pid, m + n) == Up(ps, Up(ps, pid, m).value, n)
  {
    UpAgain(ps, pid, m, n);
  }

  lemma {:induction false} RootAbove(
    ps: Processes, rank: map<int, nat>, pid: int, scope: Scope, allow: set<string>) returns (n: nat)
    requires Ranked(ps, rank) && pid in ps && Tracked(ps[pid], scope, allow)
    ensures Up(ps, pid, n).Some? && Up(ps, pid, n).value in AgentRoots(ps, scope, allow)
    decreases rank[pid]
  {
    hide Tracked;
    if HasTrackedAncestor(ps, pid, scope, allow) {
      var m: nat :| m > 0 && TrackedAt(ps, pid, m, scope, allow);
      var above := Up(ps, pid, m).value;
      RankFallsUpward(ps, rank, pid, m);
      var rest := RootAbove(ps, rank, above, scope, allow);
      ParentStep(ps, pid, m, rest);
      n := m + rest;
    } else {
      n := 0;
    }
  }

  lemma RootsAreNotAboveEachOther(ps: Processes, pid: int, m: nat, n: nat, scope: Scope, allow: set<string>)
    requires m < n && Up(ps, pid, m).Some? && Up(ps, pid, n).Some?
    requires Up(ps, pid, n).value in AgentRoots(ps, scope, allow)
    ensures Up(ps, pid, m).value !in AgentRoots(ps, scope, allow)
  {
    hide Tracked;
    ParentStep(ps, pid, m, n - m);
    assert TrackedAt(ps, Up(ps, pid, m).value, n - m, scope, allow);
  }

  /** Counting roots counts agent trees: every tracked process has exactly one root on its
      way up, so some root is counted as soon as some tracked process exists. */
  lemma EachTrackedProcessHasOneRoot(
    ps: Processes, rank: map<int, nat>, pid: int, scope: Scope, allow: set<string>)
    requires Ranked(ps, rank) && pid in ps && Tracked(ps[pid], scope, allow)
    ensures exists n: nat ::
              && Up(ps, pid, n).Some? && Up(ps, pid, n).value in AgentRoots(ps, scope, allow)
              && forall m: nat ::
                   Up(ps, pid, m).Some? && Up(ps, pid, m).value in AgentRoots(ps, scope, allow) ==> m == n
    ensures AgentRoots(ps, scope, allow) != {}
  {
    hide Tracked, AgentRoots;
    var n := RootAbove(ps, rank, pid, scope, allow);
    forall m: nat | m != n && Up(ps, pid, m).Some? && Up(ps, pid, m).value in AgentRoots(ps, scope, allow)
      ensures false
    {
      if m < n {
        RootsAreNotAboveEachOther(ps, pid, m, n, scope, allow);
      } else {
        RootsAreNotAboveEachOther(ps, pid, n, m, scope, allow);
      }
    }
  }

  lemma AgentsExistExactlyWhenRootsDo(ps: Processes, rank: map<int, nat>, scope: Scope, allow: set<string>)
    requires Ranked(ps, rank)
    ensures |AgentRoots(ps, scope, allow)| > 0 <==> exists pid :: pid in ps && Tracked(ps[pid], scope, allow)
  {
    hide Tracked;
    var roots := AgentRoots(ps, scope, allow);
    if pid :| pid in ps && Tracked(ps[pid], scope, allow) {
      EachTrackedProcessHasOneRoot(ps, rank, pid, scope, allow);
    } else {
      assert roots == {};
    }
  }

  // Coverage

  lemma AgentTreesNeedAgents(ps: Processes, pid: int, scope: Scope, allow: set<string>)
    requires pid in ps && InAgentTree(ps, pid, scope, allow)
    ensures exists q :: q in ps && Tracked(ps[q], scope, allow)
  {
    hide Tracked, InSubtree;
    var n: nat :| TrackedAt(ps, pid, n, scope, allow);
    var q := Up(ps, pid, n).value;
    assert q in ps && Tracked(ps[q], scope, allow);
  }

  /** No reported activity of any kind, SSH connections aside. */
  ghost predicate LooksIdle(ps: Processes, scope: Scope, lists: Lists) {
    && |AgentRoots(ps, scope, lists.codex)| == 0
    && |AgentRoots(ps, scope, lists.claude)| == 0
    && |ProtectedOnes(ps, scope, lists.protected)| == 0
    && |UnknownOnes(ps, scope, lists)| == 0
    && |scope.selected| == 0
  }

  lemma NotBaselineIsReported(ps: Processes, rank: map<int, nat>, pid: int, scope: Scope, lists: Lists)
    requires Ranked(ps, rank) && pid in ps && !Baseline(ps[pid], scope.uid)
    ensures !LooksIdle(ps, scope, lists)
  {
    hide Baseline, Tracked, Ranked, Unknown, InAgentTree;
    if LooksIdle(ps, scope, lists) {
      assert pid !in UnknownOnes(ps, scope, lists);
      assert pid !in ProtectedOnes(ps, scope, lists.protected);
      NotUnknown(ps, pid, scope, lists);
      AgentsExistExactlyWhenRootsDo(ps, rank, scope, lists.codex);
      AgentsExistExactlyWhenRootsDo(ps, rank, scope, lists.claude);
      if InAgentTree(ps, pid, scope, lists.codex) {
        AgentTreesNeedAgents(ps, pid, scope, lists.codex);
      }
      if InAgentTree(ps, pid, scope, lists.claude) {
        AgentTreesNeedAgents(ps, pid, scope, lists.claude);
      }
    }
  }

  lemma NotUnknown(ps: Processes, pid: int, scope: Scope, lists: Lists)
    requires pid in ps && !Baseline(ps[pid], scope.uid) && !Unknown(ps, pid, scope, lists)
    ensures InSelectedContainer(ps[pid], scope) || InUserSession(ps[pid], scope.uid)
    ensures || InSelectedContainer(ps[pid], scope)
            || InAgentTree(ps, pid, scope, lists.codex) || InAgentTree(ps, pid, scope, lists.claude)
            || LiveAllowed(ps[pid], lists.protected)
  {
  }

  /** No busy Runtime looks idle: with all five counts at zero every process is baseline,
      so neither cgroup scope counts anything. */
  lemma NoBusyRuntimeLooksIdle(ps: Processes, rank: map<int, nat>, scope: Scope, lists: Lists)
    requires Ranked(ps, rank) && LooksIdle(ps, scope, lists)
    ensures forall pid :: pid in ps ==> Baseline(ps[pid], scope.uid)
    ensures |Scoped(ps, scope.uid, true)| == 0 && |Scoped(ps, scope.uid, false)| == 0
  {
    hide LooksIdle, Baseline, InUserSession;
    forall pid | pid in ps
      ensures Baseline(ps[pid], scope.uid)
    {
      if !Baseline(ps[pid], scope.uid) {
        NotBaselineIsReported(ps, rank, pid, scope, lists);
      }
    }
    assert Scoped(ps, scope.uid, true) == {} && Scoped(ps, scope.uid, false) == {};
  }

  /** Exactly which samples look idle. */
  lemma IdleExactlyWhenOnlyBaseline(ps: Processes, rank: map<int, nat>, scope: Scope, lists: Lists)
    requires Ranked(ps, rank)
    ensures LooksIdle(ps, scope, lists) <==>
              && scope.selected == {}
              && forall pid :: pid in ps ==>
                   && Baseline(ps[pid], scope.uid) && !Protected(ps[pid], scope, lists.protected)
                   && !Tracked(ps[pid], scope, lists.codex) && !Tracked(ps[pid], scope, lists.claude)
  {
    hide Baseline, Tracked, Protected, HasTrackedAncestor, InAgentTree;
    AgentsExistExactlyWhenRootsDo(ps, rank, scope, lists.codex);
    AgentsExistExactlyWhenRootsDo(ps, rank, scope, lists.claude);
    if LooksIdle(ps, scope, lists) {
      NoBusyRuntimeLooksIdle(ps, rank, scope, lists);
      forall pid | pid in ps
        ensures !Protected(ps[pid], scope, lists.protected)
      {
        assert pid !in ProtectedOnes(ps, scope, lists.protected);
      }
    } else if scope.selected == {} {
      if forall pid :: pid in ps ==> Baseline(ps[pid], scope.uid) && !Protected(ps[pid], scope, lists.protected) {
        assert UnknownOnes(ps, scope, lists) == {};
        assert ProtectedOnes(ps, scope, lists.protected) == {};
      }
    }
  }

  // Escaped processes

  /** An escaped process is unknown activity exactly when no running selected container holds it. */
  lemma EscapedIsUnknownOutsideContainers(ps: Processes, pid: int, scope: Scope, lists: Lists)
    requires pid in Scoped(ps, scope.uid, false)
    ensures pid in UnknownOnes(ps, scope, lists) <==> !InSelectedContainer(ps[pid], scope)
  {
  }

  /** The snapshot's documentation calls every escaped process unknown activity; a process
      of the user in a selected container is escaped and not unknown. */
  lemma EscapedWithoutUnknown(uid: nat, lists: Lists)
    requires uid > 0
    ensures var p := Process(7, 1, uid, "/app", Running, "/docker/c", "c");
            var scope := Scope(uid, {"c"});
            7 in Scoped(map[7 := p], uid, false) && UnknownOnes(map[7 := p], scope, lists) == {}
  {
  }
}
