/** Sampled processes as a parent-pointer map: ancestor walks, cycles, and the memoised
    check that accepts exactly the acyclic samples. */
module Ancestry {
  import opened Text

  datatype ProcessState = Running | Waiting | NotLive

  datatype Process = Process(
    pid: int, parent: int, owner: int, executable: string, state: ProcessState, cgroup: string, container: string)

  type Processes = map<int, Process>

  /** The PID n parent links above, which need not have been sampled itself. */
  function Up(ps: Processes, pid: int, n: nat): Option<int>
    decreases n
  {
    if n == 0 then Some(pid)
    else if pid in ps then Up(ps, ps[pid].parent, n - 1)
    else None
  }

  ghost predicate Cyclic(ps: Processes) {
    exists pid, n :: pid in ps && n > 0 && Up(ps, pid, n) == Some(pid)
  }

  /** Ranks falling along every parent link, for a parent-closed part of the sample. */
  ghost predicate Descends(ps: Processes, rank: map<int, nat>) {
    && rank.Keys <= ps.Keys
    && forall p :: p in rank && ps[p].parent in ps ==> ps[p].parent in rank && rank[ps[p].parent] < rank[p]
  }

  ghost predicate Ranked(ps: Processes, rank: map<int, nat>) {
    rank.Keys == ps.Keys && Descends(ps, rank)
  }

  lemma {:induction false} UpAgain(ps: Processes, pid: int, m: nat, n: nat)
    ensures Up(ps, pid, m + n) == if Up(ps, pid, m).Some? then Up(ps, Up(ps, pid, m).value, n) else None
    decreases m
  {
    if m > 0 && pid in ps {
      UpAgain(ps, ps[pid].parent, m - 1, n);
    }
  }

  lemma {:induction false} RankFallsUpward(ps: Processes, rank: map<int, nat>, pid: int, n: nat)
    requires Ranked(ps, rank) && pid in ps && n > 0
    requires Up(ps, pid, n).Some? && Up(ps, pid, n).value in ps
    ensures rank[Up(ps, pid, n).value] < rank[pid]
    decreases n
  {
    if n > 1 {
      RankFallsUpward(ps, rank, ps[pid].parent, n - 1);
    }
  }

  lemma RankedIsAcyclic(ps: Processes, rank: map<int, nat>)
    requires Ranked(ps, rank)
    ensures !Cyclic(ps)
  {
    forall pid, n | pid in ps && n > 0 && Up(ps, pid, n) == Some(pid)
      ensures false
    {
      RankFallsUpward(ps, rank, pid, n);
    }
  }

  /** Consecutive parents, all sampled. */
  ghost predicate Trail(ps: Processes, trail: seq<int>) {
    && (forall k :: 0 <= k < |trail| ==> trail[k] in ps)
    && (forall k :: 0 < k < |trail| ==> ps[trail[k - 1]].parent == trail[k])
  }

  ghost function Visited(trail: seq<int>): set<int> {
    set pid | pid in trail
  }

  lemma {:induction false} TrailIsUp(ps: Processes, trail: seq<int>, i: nat, j: nat)
    requires Trail(ps, trail) && i <= j < |trail|
    ensures Up(ps, trail[i], j - i) == Some(trail[j])
    decreases j - i
  {
    if i < j {
      TrailIsUp(ps, trail, i + 1, j);
    }
  }

  /** A trail that leads to ranked or unsampled ground can be ranked itself. */
  lemma {:induction false} RankTrail(ps: Processes, rank: map<int, nat>, trail: seq<int>) returns (r: map<int, nat>)
    requires Descends(ps, rank) && Trail(ps, trail)
    requires forall k :: 0 <= k < |trail| ==> trail[k] !in rank
    requires forall i, j :: 0 <= i < j < |trail| ==> trail[i] != trail[j]
    requires trail != [] ==> var above := ps[trail[|trail| - 1]].parent; above in ps ==> above in rank
    ensures Descends(ps, r) && r.Keys == rank.Keys + Visited(trail)
    decreases |trail|
  {
    if trail == [] {
      r := rank;
    } else {
      var last := trail[|trail| - 1];
      var above := ps[last].parent;
      var next := rank[last := if above in rank then rank[above] + 1 else 0];
      r := RankTrail(ps, next, trail[..|trail| - 1]);
      assert trail == trail[..|trail| - 1] + [last];
      assert Visited(trail) == Visited(trail[..|trail| - 1]) + {last};
    }
  }

  /** The inner walk: up from one process until it meets validated or unsampled ground,
      or a process already on its own path. */
  method WalkUp(ps: Processes, validated: set<int>, pid: int) returns (cycle: bool, path: set<int>, ghost trail: seq<int>)
    requires pid in ps && validated <= ps.Keys
    ensures cycle ==> Cyclic(ps)
    ensures !cycle ==>
              && Trail(ps, trail) && path == Visited(trail)
              && path <= ps.Keys && path !! validated && (pid in path || pid in validated)
              && (forall k :: 0 <= k < |trail| ==> trail[k] !in validated)
              && (forall i, j :: 0 <= i < j < |trail| ==> trail[i] != trail[j])
              && (trail != [] ==> var above := ps[trail[|trail| - 1]].parent; above in ps ==> above in validated)
  {
    path, trail, cycle := {}, [], false;
    var current := pid;
    while current !in validated && current in ps
      invariant Trail(ps, trail) && path == Visited(trail)
      invariant path <= ps.Keys && path !! validated
      invariant forall k :: 0 <= k < |trail| ==> trail[k] !in validated
      invariant forall i, j :: 0 <= i < j < |trail| ==> trail[i] != trail[j]
      invariant trail != [] ==> trail[0] == pid
      invariant if trail == [] then current == pid else ps[trail[|trail| - 1]].parent == current
      decreases ps.Keys - path
    {
      if current in path {
        TrailClosesCycle(ps, trail, current);
        cycle := true;
        return;
      }
      path := path + {current};
      ghost var longer := trail + [current];
      assert forall k :: 0 <= k < |longer| ==> longer[k] == if k < |trail| then trail[k] else current;
      trail := longer;
      current := ps[current].parent;
    }
  }

  lemma TrailClosesCycle(ps: Processes, trail: seq<int>, current: int)
    requires Trail(ps, trail) && current in trail && ps[trail[|trail| - 1]].parent == current
    ensures Cyclic(ps)
  {
    var i :| 0 <= i < |trail| && trail[i] == current;
    TrailIsUp(ps, trail, i, |trail| - 1);
    UpAgain(ps, current, |trail| - 1 - i, 1);
    assert Up(ps, current, |trail| - i) == Some(current);
  }

  /** One turn of the outer loop: the walk's path joins the validated processes. */
  method ValidateOne(ps: Processes, validated: set<int>, ghost rank: map<int, nat>, pid: int)
    returns (cycle: bool, next: set<int>, ghost r: map<int, nat>)
    requires pid in ps && rank.Keys == validated && Descends(ps, rank)
    ensures cycle ==> Cyclic(ps)
    ensures !cycle ==> Descends(ps, r) && r.Keys == next && validated + {pid} <= next <= ps.Keys
  {
    hide Up, Cyclic, Visited;
    var path;
    ghost var trail;
    cycle, path, trail := WalkUp(ps, validated, pid);
    next, r := validated + path, rank;
    if !cycle {
      r := RankTrail(ps, rank, trail);
    }
  }

  /** Go leaves the order of map iteration open. */
  method AnyOf<T>(s: set<T>) returns (x: T)
    requires s != {}
    ensures x in s
  {
    x :| x in s;
  }

  /** validateProcessAncestry: the memoised check accepts exactly the acyclic samples, and
      with every accepted one come ranks along which each ancestor walk descends. */
  method ValidateAncestry(ps: Processes) returns (ok: bool, ghost rank: map<int, nat>)
    ensures ok <==> !Cyclic(ps)
    ensures ok ==> Ranked(ps, rank)
  {
    hide Up, Cyclic;
    var validated: set<int> := {};
    rank := map[];
    var pending := ps.Keys;
    while pending != {}
      invariant pending <= ps.Keys && ps.Keys <= pending + validated
      invariant rank.Keys == validated
      invariant Descends(ps, rank)
      decreases pending
    {
      var pid := AnyOf(pending);
      var cycle, next;
      ghost var r;
      cycle, next, r := ValidateOne(ps, validated, rank, pid);
      if cycle {
        return false, map[];
      }
      pending, validated, rank := pending - {pid}, next, r;
    }
    RankedIsAcyclic(ps, rank);
    ok := true;
  }
}
