/** From a raw sample to an accepted process map and a snapshot. */
module ActivityObserver {
  import opened Text
  import opened Paths
  import opened Ancestry
  import opened Activity
  import opened ActivityLaws

  // Cgroup paths

  predicate ValidCgroup(path: string) {
    IsAbs(path) && Clean(path) == path
  }

  /** The subtree test on strings means exactly that one path's elements extend the other's. */
  lemma SubtreeIsFieldPrefix(path: string, root: string)
    requires HasPrefix(path, "/") && HasPrefix(root, "/")
    ensures InSubtree(path, root) <==> Split(root[1..], '/') <= Split(path[1..], '/')
  {
    var p, r := path[1..], root[1..];
    assert path == "/" + p && root == "/" + r && root + "/" == "/" + (r + "/");
    assert HasPrefix(path, root + "/") <==> HasPrefix(p, r + "/") by {
      if HasPrefix(path, root + "/") {
        assert (root + "/")[1..] == r + "/";
        assert forall i :: 0 <= i < |r + "/"| ==> (r + "/")[i] == (root + "/")[i + 1] == path[i + 1] == p[i];
      }
      if HasPrefix(p, r + "/") {
        assert forall i :: 1 <= i < |root + "/"| ==> (root + "/")[i] == (r + "/")[i - 1] == p[i - 1] == path[i];
      }
    }
    ExtensionIsLongerSplit(p, r, '/');
    JoinOfSplit(p, '/');
    JoinOfSplit(r, '/');
    assert path == root <==> Split(r, '/') == Split(p, '/');
    assert Split(r, '/') <= Split(p, '/') <==> Split(r, '/') == Split(p, '/') || Split(r, '/') < Split(p, '/');
  }

  /** No clean path but the root itself lies in the root's subtree. */
  lemma RootHoldsOnlyItself(path: string)
    requires ValidCgroup(path)
    ensures InSubtree(path, "/") <==> path == "/"
  {
    if HasPrefix(path, "//") {
      assert path[1..][0] == '/';
      assert Split(path[1..], '/')[0] == "" && !Plain("");
      assert "" in Split(path[1..], '/');
      CleanRootedPathsArePlain(path);
    }
  }

  lemma UserSliceFields(uid: nat)
    ensures HasPrefix(UserSlice(uid), "/")
    ensures Split(UserSlice(uid)[1..], '/') == ["user.slice", "user-" + FormatNat(uid) + ".slice"]
  {
    hide FormatNat, Split;
    var name := "user-" + FormatNat(uid) + ".slice";
    assert '/' !in FormatNat(uid);
    assert UserSlice(uid) == "/" + ("user.slice" + ['/'] + name);
    assert UserSlice(uid)[1..] == "user.slice" + ['/'] + name;
    SplitOfConcat("user.slice", name, '/');
    SplitWithoutSeparator("user.slice", '/');
    SplitWithoutSeparator(name, '/');
  }

  /** What is left when nothing is reported: of the processes the user owns or whose cgroup
      lies under the user's slice, only the systemd user manager in its init scope. */
  lemma OnlyTheUserManagerRemains(ps: Processes, rank: map<int, nat>, scope: Scope, lists: Lists, pid: int)
    requires Ranked(ps, rank) && LooksIdle(ps, scope, lists) && pid in ps && HasPrefix(ps[pid].cgroup, "/")
    requires || ps[pid].owner == scope.uid
             || ["user.slice", "user-" + FormatNat(scope.uid) + ".slice"] <= Split(ps[pid].cgroup[1..], '/')
    ensures ps[pid].cgroup == UserManager(scope.uid)
    ensures ps[pid].executable == "/usr/lib/systemd/systemd" || ps[pid].executable == "/lib/systemd/systemd"
  {
    hide LooksIdle, Split, FormatNat;
    NoBusyRuntimeLooksIdle(ps, rank, scope, lists);
    UserSliceFields(scope.uid);
    SubtreeIsFieldPrefix(ps[pid].cgroup, UserSlice(scope.uid));
  }

  // Accepted samples

  predicate ValidSample(p: Process) {
    && p.pid > 0 && p.parent >= 0 && p.owner >= 0 && p.executable != ""
    && (p.state == Running || p.state == Waiting)
    && ValidCgroup(p.cgroup)
  }

  // What each count counts

  /** The elements of an absolute path. */
  function Elements(path: string): seq<string> {
    if path == "" then [] else Split(path[1..], '/')
  }

  /** The user's slice holds the process, whoever owns it. */
  predicate InSession(p: Process, uid: nat) {
    ["user.slice", "user-" + FormatNat(uid) + ".slice"] <= Elements(p.cgroup)
  }

  predicate HeldByContainer(p: Process, scope: Scope) {
    p.container != "" && p.container in scope.selected
  }

  /** The one process of a session that is not activity. */
  predicate IsUserManager(p: Process, uid: nat) {
    && p.cgroup == "/user.slice/user-" + FormatNat(uid) + ".slice/user@" + FormatNat(uid) + ".service/init.scope"
    && (p.executable == "/usr/lib/systemd/systemd" || p.executable == "/lib/systemd/systemd")
  }

  predicate IsAgent(p: Process, scope: Scope, allow: set<string>) {
    p.executable in allow && (InSession(p, scope.uid) || HeldByContainer(p, scope))
  }

  ghost predicate AgentAt(ps: Processes, pid: int, n: nat, scope: Scope, allow: set<string>) {
    Up(ps, pid, n).Some? && Up(ps, pid, n).value in ps && IsAgent(ps[Up(ps, pid, n).value], scope, allow)
  }

  /** The nearest agent on the way up, the process itself included, has it in its cgroup. */
  ghost predicate BelongsToAgent(ps: Processes, pid: int, scope: Scope, allow: set<string>)
    requires pid in ps
  {
    exists n: nat ::
      && AgentAt(ps, pid, n, scope, allow) && (forall m: nat :: m < n ==> !AgentAt(ps, pid, m, scope, allow))
      && Elements(ps[Up(ps, pid, n).value].cgroup) <= Elements(ps[pid].cgroup)
  }

  ghost predicate AllValid(ps: Processes) {
    forall pid :: pid in ps ==> ValidSample(ps[pid])
  }

  lemma InSessionByElements(p: Process, uid: nat)
    requires HasPrefix(p.cgroup, "/")
    ensures InUserSession(p, uid) <==> InSession(p, uid)
  {
    hide Split, FormatNat;
    UserSliceFields(uid);
    SubtreeIsFieldPrefix(p.cgroup, UserSlice(uid));
  }

  lemma TrackedIsAgent(ps: Processes, pid: int, n: nat, scope: Scope, allow: set<string>)
    requires AllValid(ps)
    ensures TrackedAt(ps, pid, n, scope, allow) <==> AgentAt(ps, pid, n, scope, allow)
  {
    hide InUserSession, InSession;
    if Up(ps, pid, n).Some? && Up(ps, pid, n).value in ps {
      var q := Up(ps, pid, n).value;
      assert ValidSample(ps[q]);
      InSessionByElements(ps[q], scope.uid);
    }
  }

  /** Agents are counted once a tree, at the top. */
  lemma {:induction false} RootsAreTopmostAgents(ps: Processes, pid: int, scope: Scope, allow: set<string>)
    requires AllValid(ps) && pid in ps
    ensures pid in AgentRoots(ps, scope, allow) <==>
              IsAgent(ps[pid], scope, allow) && forall n: nat :: n > 0 ==> !AgentAt(ps, pid, n, scope, allow)
  {
    hide Tracked, IsAgent;
    forall n: nat
      ensures TrackedAt(ps, pid, n, scope, allow) <==> AgentAt(ps, pid, n, scope, allow)
    {
      TrackedIsAgent(ps, pid, n, scope, allow);
    }
    assert Up(ps, pid, 0) == Some(pid);
    assert TrackedAt(ps, pid, 0, scope, allow) <==> Tracked(ps[pid], scope, allow);
    assert AgentAt(ps, pid, 0, scope, allow) <==> IsAgent(ps[pid], scope, allow);
  }

  lemma {:induction false} TreesBelongToAgents(ps: Processes, pid: int, scope: Scope, allow: set<string>)
    requires AllValid(ps) && pid in ps
    ensures InAgentTree(ps, pid, scope, allow) <==> BelongsToAgent(ps, pid, scope, allow)
  {
    hide Tracked, IsAgent, Elements, InSubtree;
    forall n: nat
      ensures TrackedAt(ps, pid, n, scope, allow) <==> AgentAt(ps, pid, n, scope, allow)
    {
      TrackedIsAgent(ps, pid, n, scope, allow);
    }
    forall n: nat | AgentAt(ps, pid, n, scope, allow)
      ensures InSubtree(ps[pid].cgroup, ps[Up(ps, pid, n).value].cgroup) <==>
                Elements(ps[Up(ps, pid, n).value].cgroup) <= Elements(ps[pid].cgroup)
    {
      var q := Up(ps, pid, n).value;
      assert ValidSample(ps[pid]) && ValidSample(ps[q]);
      SubtreeByElements(ps[pid], ps[q]);
    }
  }

  lemma SubtreeByElements(p: Process, root: Process)
    requires ValidSample(p) && ValidSample(root)
    ensures InSubtree(p.cgroup, root.cgroup) <==> Elements(root.cgroup) <= Elements(p.cgroup)
  {
    SubtreeIsFieldPrefix(p.cgroup, root.cgroup);
  }

  /** Protected are the allowed executables of the session and those of other users; the session counts
      everything in the user's slice but the user manager, and the escaped are the user's processes
      outside it. */
  lemma ScopesAreCountedExactly(ps: Processes, pid: int, scope: Scope, allow: set<string>)
    requires AllValid(ps) && pid in ps
    ensures var p, uid := ps[pid], scope.uid;
            && (pid in ProtectedOnes(ps, scope, allow) <==> p.executable in allow && (p.owner != uid || InSession(p, uid)))
            && (pid in Scoped(ps, uid, true) <==> InSession(p, uid) && !IsUserManager(p, uid))
            && (pid in Scoped(ps, uid, false) <==> !InSession(p, uid) && p.owner == uid)
  {
    var p := ps[pid];
    assert ValidSample(p);
    SessionOf(p, scope.uid);
    BaselineOf(p, scope.uid);
    hide InUserSession, InSession, ValidSample, Baseline, IsUserManager, AllValid;
    assert LiveAllowed(p, allow) <==> p.executable in allow;
  }

  lemma SessionOf(p: Process, uid: nat)
    requires ValidSample(p)
    ensures (p.state == Running || p.state == Waiting) && (InUserSession(p, uid) <==> InSession(p, uid))
  {
    InSessionByElements(p, uid);
  }

  lemma BaselineOf(p: Process, uid: nat)
    requires ValidSample(p)
    ensures Baseline(p, uid) <==> if InSession(p, uid) then IsUserManager(p, uid) else p.owner != uid
  {
    SessionOf(p, uid);
    hide InUserSession, InSession, FormatNat, ValidSample;
    assert UserManager(uid) == "/user.slice/user-" + FormatNat(uid) + ".slice/user@" + FormatNat(uid) + ".service/init.scope";
  }

  /** Unknown are the processes no selected container holds that escaped or that the session counts, except
      in the session what belongs to an agent or is protected. */
  lemma UnknownIsCountedExactly(ps: Processes, pid: int, scope: Scope, lists: Lists)
    requires AllValid(ps) && pid in ps
    ensures var p, uid := ps[pid], scope.uid;
            pid in UnknownOnes(ps, scope, lists) <==>
              && !HeldByContainer(p, scope)
              && if InSession(p, uid) then
                   && !IsUserManager(p, uid) && p.executable !in lists.protected
                   && !BelongsToAgent(ps, pid, scope, lists.codex) && !BelongsToAgent(ps, pid, scope, lists.claude)
                 else p.owner == uid
  {
    var p := ps[pid];
    assert ValidSample(p);
    SessionOf(p, scope.uid);
    BaselineOf(p, scope.uid);
    hide InUserSession, InSession, InAgentTree, BelongsToAgent, ValidSample, Baseline, IsUserManager;
    assert LiveAllowed(p, lists.protected) <==> p.executable in lists.protected;
    TreesBelongToAgents(ps, pid, scope, lists.codex);
    TreesBelongToAgents(ps, pid, scope, lists.claude);
  }

  function ByPid(samples: seq<Process>): Processes {
    if samples == [] then map[]
    else
      var last := samples[|samples| - 1];
      ByPid(samples[..|samples| - 1])[last.pid := last]
  }

  predicate Consistent(samples: seq<Process>) {
    forall i, j :: 0 <= i < j < |samples| && samples[i].pid == samples[j].pid ==> samples[i] == samples[j]
  }

  lemma {:induction false} ByPidHoldsSamples(samples: seq<Process>)
    requires Consistent(samples)
    ensures forall i :: 0 <= i < |samples| ==> samples[i].pid in ByPid(samples) && ByPid(samples)[samples[i].pid] == samples[i]
    ensures forall pid :: pid in ByPid(samples) ==> ByPid(samples)[pid] in samples && ByPid(samples)[pid].pid == pid
  {
    if samples != [] {
      ByPidHoldsSamples(samples[..|samples| - 1]);
    }
  }

  predicate Acceptable(samples: seq<Process>) {
    (forall i :: 0 <= i < |samples| ==> ValidSample(samples[i])) && Consistent(samples)
  }

  /** A sample is acceptable exactly when every process has a positive PID, no negative parent or owner, an
      executable, a live state and a cgroup path of proper names, and repeated PIDs repeat their process. */
  lemma AcceptedExactly(samples: seq<Process>)
    ensures Acceptable(samples) <==>
              && (forall p <- samples ::
                    && p.pid > 0 && p.parent >= 0 && p.owner >= 0 && p.executable != "" && p.state != NotLive
                    && HasPrefix(p.cgroup, "/")
                    && (p.cgroup == "/" || forall e <- Elements(p.cgroup) :: e != "" && e != "." && e != ".."))
              && forall p <- samples, q <- samples :: p.pid == q.pid ==> p == q
  {
    hide Clean, Split, Consistent;
    forall p <- samples
      ensures ValidSample(p) <==>
                && p.pid > 0 && p.parent >= 0 && p.owner >= 0 && p.executable != "" && p.state != NotLive
                && HasPrefix(p.cgroup, "/")
                && (p.cgroup == "/" || forall e <- Elements(p.cgroup) :: e != "" && e != "." && e != "..")
    {
      ValidExactly(p);
    }
    hide ValidSample, Elements;
    assert (forall i :: 0 <= i < |samples| ==> ValidSample(samples[i])) <==> forall p <- samples :: ValidSample(p);
    ConsistentExactly(samples);
  }

  lemma ValidExactly(p: Process)
    ensures ValidSample(p) <==>
              && p.pid > 0 && p.parent >= 0 && p.owner >= 0 && p.executable != "" && p.state != NotLive
              && HasPrefix(p.cgroup, "/")
              && (p.cgroup == "/" || forall e <- Elements(p.cgroup) :: e != "" && e != "." && e != "..")
  {
    hide Clean, Split;
    if HasPrefix(p.cgroup, "/") {
      var fields := Split(p.cgroup[1..], '/');
      assert Elements(p.cgroup) == fields;
      CleanRootedPathsArePlain(p.cgroup);
      PlainElements(fields);
      hide AllPlain;
    }
  }

  lemma PlainElements(fields: seq<string>)
    ensures AllPlain(fields) <==> forall e <- fields :: e != "" && e != "." && e != ".."
  {
    if forall e <- fields :: e != "" && e != "." && e != ".." {
      assert forall i :: 0 <= i < |fields| ==> fields[i] in fields;
    }
  }

  lemma ConsistentExactly(samples: seq<Process>)
    ensures Consistent(samples) <==> forall p <- samples, q <- samples :: p.pid == q.pid ==> p == q
  {
    if forall p <- samples, q <- samples :: p.pid == q.pid ==> p == q {
      assert forall i :: 0 <= i < |samples| ==> samples[i] in samples;
    }
  }

  /** The map of an acceptable sample holds just its processes, all of them valid. */
  lemma SamplesAreHeld(samples: seq<Process>)
    requires Acceptable(samples)
    ensures AllValid(ByPid(samples)) && forall p <- samples :: p.pid in ByPid(samples) && ByPid(samples)[p.pid] == p
    ensures forall pid :: pid in ByPid(samples) ==> ByPid(samples)[pid] in samples && ByPid(samples)[pid].pid == pid
  {
    hide ValidSample, ByPid, Consistent;
    ByPidHoldsSamples(samples);
    forall pid | pid in ByPid(samples)
      ensures ValidSample(ByPid(samples)[pid])
    {
      var i :| 0 <= i < |samples| && samples[i] == ByPid(samples)[pid];
    }
  }

  /** The first n samples are acceptable, and the map holds them. */
  ghost predicate Collected(samples: seq<Process>, n: nat, processes: Processes)
    requires n <= |samples|
  {
    Acceptable(samples[..n]) && processes == ByPid(samples[..n])
  }

  lemma CollectedAll(samples: seq<Process>)
    ensures Collected(samples, 0, map[])
    ensures forall processes :: Collected(samples, |samples|, processes) ==> Acceptable(samples) && processes == ByPid(samples)
  {
    assert samples[..|samples|] == samples;
  }

  lemma CollectedOneMore(samples: seq<Process>, n: nat, processes: Processes)
    requires n < |samples| && Collected(samples, n, processes)
    ensures var p := samples[n];
            if !ValidSample(p) || (p.pid in processes && processes[p.pid] != p) then !Acceptable(samples)
            else Collected(samples, n + 1, processes[p.pid := p])
  {
    hide ValidSample, Consistent, ByPid;
    OneMoreSample(samples, n);
  }

  /** The loop of uniqueProcesses: valid samples that agree on every repeated PID. */
  method CollectProcesses(samples: seq<Process>) returns (r: Option<Processes>)
    ensures r.Some? <==> Acceptable(samples)
    ensures r.Some? ==> r.value == ByPid(samples)
  {
    CollectedAll(samples);
    hide ValidSample, Acceptable, Collected, ByPid;
    var processes: Processes := map[];
    var i := 0;
    while i < |samples|
      invariant 0 <= i <= |samples| && Collected(samples, i, processes)
    {
      CollectedOneMore(samples, i, processes);
      var p := samples[i];
      if !ValidSample(p) || (p.pid in processes && processes[p.pid] != p) {
        return None;
      }
      processes := processes[p.pid := p];
      i := i + 1;
    }
    r := Some(processes);
  }

  /** uniqueProcesses: accepts exactly the samples that are valid one by one, agree on every
      repeated PID, and have no ancestry cycle. */
  method UniqueProcesses(samples: seq<Process>) returns (r: Option<Processes>, ghost rank: map<int, nat>)
    ensures r.Some? <==> Acceptable(samples) && !Cyclic(ByPid(samples))
    ensures r.Some? ==> r.value == ByPid(samples) && Ranked(r.value, rank)
  {
    hide Acceptable, Cyclic, Ranked, ByPid;
    rank := map[];
    r := CollectProcesses(samples);
    if r.Some? {
      var ok;
      ok, rank := ValidateAncestry(r.value);
      if !ok {
        r := None;
      }
    }
  }

  lemma OneMoreSample(samples: seq<Process>, i: nat)
    requires i < |samples| && Consistent(samples[..i])
    ensures var seen, p := ByPid(samples[..i]), samples[i];
            if p.pid in seen && seen[p.pid] != p then !Consistent(samples)
            else Consistent(samples[..i + 1]) && ByPid(samples[..i + 1]) == seen[p.pid := p]
  {
    ByPidExtends(samples, i);
    ByPidHoldsSamples(samples[..i]);
    hide ByPid, Consistent;
    var seen, p := ByPid(samples[..i]), samples[i];
    if p.pid in seen && seen[p.pid] != p {
      Conflicts(samples, i, seen[p.pid]);
    } else {
      Extends(samples, i);
    }
  }

  lemma ByPidExtends(samples: seq<Process>, i: nat)
    requires i < |samples|
    ensures ByPid(samples[..i + 1]) == ByPid(samples[..i])[samples[i].pid := samples[i]]
  {
    assert samples[..i + 1][..i] == samples[..i];
  }

  lemma Conflicts(samples: seq<Process>, i: nat, seen: Process)
    requires i < |samples| && seen in samples[..i] && seen.pid == samples[i].pid && seen != samples[i]
    ensures !Consistent(samples)
  {
  }

  lemma Extends(samples: seq<Process>, i: nat)
    requires i < |samples| && Consistent(samples[..i])
    requires forall k :: 0 <= k < i && samples[..i][k].pid == samples[i].pid ==> samples[..i][k] == samples[i]
    ensures Consistent(samples[..i + 1])
  {
  }

  /** Observe, for the process and container part of a sample whose user is not root. */
  method Observe(samples: seq<Process>, containers: Containers, uid: int, lists: Lists) returns (r: Option<Snapshot>)
    ensures r.Some? <==> uid > 0 && Acceptable(samples) && !Cyclic(ByPid(samples))
    ensures r.Some? ==>
              var ps := ByPid(samples);
              var scope := Scope(uid, set id | id in containers && containers[id].running && containers[id].selection in lists.containers);
              && r.value.codex == |AgentRoots(ps, scope, lists.codex)|
              && r.value.claude == |AgentRoots(ps, scope, lists.claude)|
              && r.value.protected == |ProtectedOnes(ps, scope, lists.protected)|
              && r.value.containers == |scope.selected|
              && r.value.unknown == |UnknownOnes(ps, scope, lists)|
              && r.value.session == |Scoped(ps, uid, true)|
              && r.value.escaped == |Scoped(ps, uid, false)|
    ensures r.Some? && r.value.codex == 0 && r.value.claude == 0 && r.value.protected == 0
            && r.value.containers == 0 && r.value.unknown == 0
            ==> r.value.session == 0 && r.value.escaped == 0
                && forall i :: 0 <= i < |samples| ==> Baseline(samples[i], uid)
  {
    hide ValidSample, Cyclic, Ranked, Consistent, Baseline;
    if uid <= 0 {
      return None;
    }
    var unique;
    ghost var rank;
    unique, rank := UniqueProcesses(samples);
    if unique.None? {
      return None;
    }
    var ps := unique.value;
    var scope := Scope(uid, RunningSelected(containers, lists.containers));
    assert scope.selected == set id | id in containers && containers[id].running && containers[id].selection in lists.containers;
    var session, escaped := CountCgroupScopes(ps, uid);
    var codex := CountAgentRoots(ps, rank, scope, lists.codex);
    var claude := CountAgentRoots(ps, rank, scope, lists.claude);
    var protected := CountProtected(ps, scope, lists.protected);
    var selected := CountContainers(containers, lists.containers);
    var unknown := CountUnknown(ps, rank, scope, lists);
    if codex == 0 && claude == 0 && protected == 0 && selected == 0 && unknown == 0 {
      NoBusyRuntimeLooksIdle(ps, rank, scope, lists);
      ByPidHoldsSamples(samples);
    }
    return Some(Snapshot(codex, claude, protected, selected, unknown, session, escaped));
  }
}
