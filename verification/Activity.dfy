/** One Runtime activity sample: which processes count as agents, protected, unknown or
    baseline, and why a sample whose counts are all zero holds no user process. */
module Activity {
  import opened Text
  import opened Ancestry

  datatype Container = Container(selection: string, running: bool)

  type Containers = map<string, Container>

  datatype Lists = Lists(codex: set<string>, claude: set<string>, protected: set<string>, containers: set<string>)

  /** The user a sample is about, and the IDs of the running selected containers. */
  datatype Scope = Scope(uid: nat, selected: set<string>)

  datatype Snapshot = Snapshot(
    codex: nat, claude: nat, protected: nat, containers: nat, unknown: nat, session: nat, escaped: nat)

  // Predicates on one process

  predicate InSubtree(path: string, root: string) {
    path == root || HasPrefix(path, root + "/")
  }

  function UserSlice(uid: nat): string {
    "/user.slice/user-" + FormatNat(uid) + ".slice"
  }

  function UserManager(uid: nat): string {
    UserSlice(uid) + "/user@" + FormatNat(uid) + ".service/init.scope"
  }

  predicate InUserSession(p: Process, uid: nat) {
    InSubtree(p.cgroup, UserSlice(uid))
  }

  predicate InSelectedContainer(p: Process, scope: Scope) {
    p.container != "" && p.container in scope.selected
  }

  predicate LiveAllowed(p: Process, allow: set<string>) {
    p.executable in allow && (p.state == Running || p.state == Waiting)
  }

  predicate Tracked(p: Process, scope: Scope, allow: set<string>) {
    (InUserSession(p, scope.uid) || InSelectedContainer(p, scope)) && LiveAllowed(p, allow)
  }

  predicate Baseline(p: Process, uid: nat) {
    if !InUserSession(p, uid) then p.owner != uid
    else p.cgroup == UserManager(uid) && p.executable in {"/usr/lib/systemd/systemd", "/lib/systemd/systemd"}
  }

  predicate Protected(p: Process, scope: Scope, allow: set<string>) {
    LiveAllowed(p, allow) && (p.owner != scope.uid || InUserSession(p, scope.uid))
  }

  // Predicates on a process and its ancestors

  ghost predicate TrackedAt(ps: Processes, pid: int, n: nat, scope: Scope, allow: set<string>) {
    var up := Up(ps, pid, n);
    up.Some? && up.value in ps && Tracked(ps[up.value], scope, allow)
  }

  ghost predicate HasTrackedAncestor(ps: Processes, pid: int, scope: Scope, allow: set<string>) {
    exists n: nat :: n > 0 && TrackedAt(ps, pid, n, scope, allow)
  }

  /** The nearest tracked process on the way up, the process itself included, holds the
      process in its cgroup subtree. */
  ghost predicate InAgentTree(ps: Processes, pid: int, scope: Scope, allow: set<string>)
    requires pid in ps
  {
    exists n: nat ::
      && TrackedAt(ps, pid, n, scope, allow)
      && (forall m: nat :: m < n ==> !TrackedAt(ps, pid, m, scope, allow))
      && InSubtree(ps[pid].cgroup, ps[Up(ps, pid, n).value].cgroup)
  }

  ghost predicate Unknown(ps: Processes, pid: int, scope: Scope, lists: Lists)
    requires pid in ps
  {
    && !Baseline(ps[pid], scope.uid)
    && !InSelectedContainer(ps[pid], scope)
    && (InUserSession(ps[pid], scope.uid) ==>
          && !InAgentTree(ps, pid, scope, lists.codex)
          && !InAgentTree(ps, pid, scope, lists.claude)
          && !LiveAllowed(ps[pid], lists.protected))
  }

  // What the counters count

  ghost function AgentRoots(ps: Processes, scope: Scope, allow: set<string>): set<int> {
    set pid | pid in ps && Tracked(ps[pid], scope, allow) && !HasTrackedAncestor(ps, pid, scope, allow)
  }

  ghost function ProtectedOnes(ps: Processes, scope: Scope, allow: set<string>): set<int> {
    set pid | pid in ps && Protected(ps[pid], scope, allow)
  }

  ghost function UnknownOnes(ps: Processes, scope: Scope, lists: Lists): set<int> {
    set pid | pid in ps && Unknown(ps, pid, scope, lists)
  }

  /** The processes that are not baseline, inside or outside the user's session subtree. */
  ghost function Scoped(ps: Processes, uid: nat, inside: bool): set<int> {
    set pid | pid in ps && !Baseline(ps[pid], uid) && InUserSession(ps[pid], uid) == inside
  }

  function RunningSelected(cs: Containers, allow: set<string>): set<string> {
    set id | id in cs && cs[id].selection in allow && cs[id].running
  }

  // Walks

  lemma NothingAbove(ps: Processes, pid: int, n: nat, m: nat)
    requires Up(ps, pid, n).Some? && Up(ps, pid, n).value !in ps && n <= m
    ensures Up(ps, pid, m).None? || Up(ps, pid, m).value !in ps
  {
    UpAgain(ps, pid, n, m - n);
  }

  /** hasTrackedAllowedAncestor, on a sample the ancestry check accepted. */
  method FindTrackedAncestor(ps: Processes, ghost rank: map<int, nat>, pid: int, scope: Scope, allow: set<string>)
    returns (found: bool)
    requires Ranked(ps, rank) && pid in ps
    ensures found <==> HasTrackedAncestor(ps, pid, scope, allow)
  {
    hide Tracked;
    var parent := ps[pid].parent;
    ghost var n := 1;
    assert Up(ps, pid, 0) == Some(pid);
    UpAgain(ps, pid, 0, 1);
    while parent in ps
      invariant n > 0 && Up(ps, pid, n) == Some(parent)
      invariant forall m: nat :: 0 < m < n ==> !TrackedAt(ps, pid, m, scope, allow)
      decreases if parent in ps then rank[parent] + 1 else 0
    {
      if Tracked(ps[parent], scope, allow) {
        assert TrackedAt(ps, pid, n, scope, allow);
        return true;
      }
      UpAgain(ps, pid, n, 1);
      parent, n := ps[parent].parent, n + 1;
    }
    forall m: nat | m >= n
      ensures !TrackedAt(ps, pid, m, scope, allow)
    {
      NothingAbove(ps, pid, n, m);
    }
    found := false;
  }

  /** belongsToAgentTree. */
  method FindAgentTree(ps: Processes, ghost rank: map<int, nat>, pid: int, scope: Scope, allow: set<string>)
    returns (found: bool)
    requires Ranked(ps, rank) && pid in ps
    ensures found <==> InAgentTree(ps, pid, scope, allow)
  {
    hide Tracked, InSubtree;
    var current := pid;
    ghost var n := 0;
    while current in ps
      invariant Up(ps, pid, n) == Some(current)
      invariant forall m: nat :: m < n ==> !TrackedAt(ps, pid, m, scope, allow)
      decreases if current in ps then rank[current] + 1 else 0
    {
      if Tracked(ps[current], scope, allow) {
        assert TrackedAt(ps, pid, n, scope, allow);
        return InSubtree(ps[pid].cgroup, ps[current].cgroup);
      }
      UpAgain(ps, pid, n, 1);
      current, n := ps[current].parent, n + 1;
    }
    forall m: nat | m >= n
      ensures !TrackedAt(ps, pid, m, scope, allow)
    {
      NothingAbove(ps, pid, n, m);
    }
    found := false;
  }

  // Counters

  /** One step of a count over unordered keys: what has been counted is all but the pending. */
  lemma Tally<T>(all: set<T>, pending: set<T>, x: T)
    requires x in pending
    ensures all - (pending - {x}) == (all - pending) + (if x in all then {x} else {})
    ensures |all - (pending - {x})| == |all - pending| + (if x in all then 1 else 0)
  {
  }

  method CountAgentRoots(ps: Processes, ghost rank: map<int, nat>, scope: Scope, allow: set<string>)
    returns (count: nat)
    requires Ranked(ps, rank)
    ensures count == |AgentRoots(ps, scope, allow)|
  {
    hide HasTrackedAncestor, Tracked;
    count := 0;
    var pending := ps.Keys;
    ghost var all := AgentRoots(ps, scope, allow);
    assert all - pending == {};
    while pending != {}
      invariant pending <= ps.Keys && count == |all - pending|
      decreases pending
    {
      var pid := AnyOf(pending);
      Tally(all, pending, pid);
      pending := pending - {pid};
      var skip := !Tracked(ps[pid], scope, allow);
      if !skip {
        skip := FindTrackedAncestor(ps, rank, pid, scope, allow);
      }
      if !skip {
        count := count + 1;
      }
    }
    assert all - pending == all;
  }

  method CountProtected(ps: Processes, scope: Scope, allow: set<string>) returns (count: nat)
    ensures count == |ProtectedOnes(ps, scope, allow)|
  {
    hide Protected;
    count := 0;
    var pending := ps.Keys;
    ghost var all := ProtectedOnes(ps, scope, allow);
    assert all - pending == {};
    while pending != {}
      invariant pending <= ps.Keys && count == |all - pending|
      decreases pending
    {
      var pid := AnyOf(pending);
      Tally(all, pending, pid);
      pending := pending - {pid};
      if Protected(ps[pid], scope, allow) {
        count := count + 1;
      }
    }
    assert all - pending == all;
  }

  /** One process of countUnknownUserProcesses. */
  method IsUnknown(ps: Processes, ghost rank: map<int, nat>, pid: int, scope: Scope, lists: Lists)
    returns (unknown: bool)
    requires Ranked(ps, rank) && pid in ps
    ensures unknown <==> Unknown(ps, pid, scope, lists)
  {
    hide Baseline, InSelectedContainer, InUserSession, LiveAllowed, InAgentTree;
    if Baseline(ps[pid], scope.uid) {
      return false;
    }
    if InSelectedContainer(ps[pid], scope) {
      return false;
    }
    if !InUserSession(ps[pid], scope.uid) {
      return true;
    }
    var codex := FindAgentTree(ps, rank, pid, scope, lists.codex);
    if codex {
      return false;
    }
    var claude := FindAgentTree(ps, rank, pid, scope, lists.claude);
    if claude {
      return false;
    }
    return !LiveAllowed(ps[pid], lists.protected);
  }

  method CountUnknown(ps: Processes, ghost rank: map<int, nat>, scope: Scope, lists: Lists) returns (count: nat)
    requires Ranked(ps, rank)
    ensures count == |UnknownOnes(ps, scope, lists)|
  {
    hide Unknown;
    count := 0;
    var pending := ps.Keys;
    ghost var all := UnknownOnes(ps, scope, lists);
    assert all - pending == {};
    while pending != {}
      invariant pending <= ps.Keys && count == |all - pending|
      decreases pending
    {
      var pid := AnyOf(pending);
      Tally(all, pending, pid);
      pending := pending - {pid};
      var unknown := IsUnknown(ps, rank, pid, scope, lists);
      if unknown {
        count := count + 1;
      }
    }
    assert all - pending == all;
  }

  method CountCgroupScopes(ps: Processes, uid: nat) returns (session: nat, escaped: nat)
    ensures session == |Scoped(ps, uid, true)| && escaped == |Scoped(ps, uid, false)|
  {
    hide Baseline, InUserSession;
    session, escaped := 0, 0;
    var pending := ps.Keys;
    ghost var inside, outside := Scoped(ps, uid, true), Scoped(ps, uid, false);
    assert inside - pending == {} && outside - pending == {};
    while pending != {}
      invariant pending <= ps.Keys && session == |inside - pending| && escaped == |outside - pending|
      decreases pending
    {
      var pid := AnyOf(pending);
      Tally(inside, pending, pid);
      Tally(outside, pending, pid);
      pending := pending - {pid};
      if !Baseline(ps[pid], uid) {
        if InUserSession(ps[pid], uid) {
          session := session + 1;
        } else {
          escaped := escaped + 1;
        }
      }
    }
    assert inside - pending == inside && outside - pending == outside;
  }

  method CountContainers(cs: Containers, allow: set<string>) returns (count: nat)
    ensures count == |RunningSelected(cs, allow)|
  {
    count := 0;
    var pending := cs.Keys;
    ghost var all := RunningSelected(cs, allow);
    assert all - pending == {};
    while pending != {}
      invariant pending <= cs.Keys && count == |all - pending|
      decreases pending
    {
      var id := AnyOf(pending);
      Tally(all, pending, id);
      pending := pending - {id};
      if cs[id].selection in allow && cs[id].running {
        count := count + 1;
      }
    }
    assert all - pending == all;
  }
}
