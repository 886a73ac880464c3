/**
 Task dependencies: the depth-first check of orchestrator/core/schema.py and the transitive
 dependents of orchestrator/core/scheduler.py.

 The check is proved to decide acyclicity: it passes exactly the graphs whose dependencies
 are known and acyclic, and what it reports otherwise is a real cycle.  A graph that passed
 has a topological order, which is why the unguarded recursion of `get_dependents` stops.
 */
module DependencyGraph {
  import opened Wrappers

  type TaskId = string

  /** Dependencies of every task, with the plan's own task order (a Python dict keeps it). */
  datatype Graph = Graph(order: seq<TaskId>, deps: map<TaskId, seq<TaskId>>)
  {
    ghost predicate Valid() {
      NoDuplicates(order) && forall t :: t in order <==> t in deps
    }

    predicate Edge(a: TaskId, b: TaskId) { a in deps && b in deps[a] }

    /** Every dependency names a task of the plan. */
    ghost predicate Known() { forall a, b :: Edge(a, b) ==> b in deps }

    /** Consecutive elements are linked: p[0] depends on p[1] depends on ... */
    predicate IsPath(p: seq<TaskId>) { forall i {:trigger p[i]} | 0 <= i < |p| - 1 :: Edge(p[i], p[i + 1]) }

    ghost predicate PathFromTo(p: seq<TaskId>, a: TaskId, b: TaskId) {
      |p| >= 2 && p[0] == a && p[|p| - 1] == b && IsPath(p)
    }

    /** `a` depends on `b`, directly or through other tasks. */
    ghost predicate Reaches(a: TaskId, b: TaskId) { exists p :: PathFromTo(p, a, b) }

    ghost predicate Acyclic() { forall t :: !Reaches(t, t) }

    /** A path that comes back to one of its own elements. */
    predicate ClosesCycle(p: seq<TaskId>) {
      |p| >= 2 && IsPath(p) && p[|p| - 1] in p[..|p| - 1]
    }
  }

  predicate NoDuplicates<T(==)>(s: seq<T>) { forall i, j | 0 <= i < j < |s| :: s[i] != s[j] }

  function Elements<T>(s: seq<T>): set<T> { set x | x in s }

  // ---------------------------------------------------------------------------------------
  // Topological orders
  // ---------------------------------------------------------------------------------------

  /** Dependencies come strictly before the tasks that need them. */
  ghost predicate Topological(g: Graph, topo: seq<TaskId>) {
    && NoDuplicates(topo)
    && forall i {:trigger topo[i]} | 0 <= i < |topo| :: forall d :: g.Edge(topo[i], d) ==> d in topo[..i]
  }

  /** Position of a task in an order; one past the end for a stranger. */
  ghost function Rank(topo: seq<TaskId>, t: TaskId): (r: nat)
    ensures r <= |topo|
    ensures t in topo ==> r < |topo| && topo[r] == t
  {
    if topo == [] then 0 else if topo[0] == t then 0 else 1 + Rank(topo[1..], t)
  }

  lemma RankAt(topo: seq<TaskId>, i: nat)
    requires NoDuplicates(topo) && i < |topo|
    ensures Rank(topo, topo[i]) == i
  {
    assert topo[Rank(topo, topo[i])] == topo[i];
  }

  lemma EdgeDescends(g: Graph, topo: seq<TaskId>, a: TaskId, b: TaskId)
    requires Topological(g, topo) && a in topo && g.Edge(a, b)
    ensures b in topo && Rank(topo, b) < Rank(topo, a)
  {
    var i := Rank(topo, a);
    assert b in topo[..i];
    var j :| 0 <= j < i && topo[..i][j] == b;
    RankAt(topo, j);
  }

  lemma {:induction false} PathDescends(g: Graph, topo: seq<TaskId>, p: seq<TaskId>)
    requires Topological(g, topo) && |p| >= 2 && g.IsPath(p) && p[0] in topo
    ensures p[|p| - 1] in topo && Rank(topo, p[|p| - 1]) < Rank(topo, p[0])
    decreases |p|
  {
    assert g.Edge(p[0], p[1]);
    EdgeDescends(g, topo, p[0], p[1]);
    if |p| > 2 {
      forall i | 0 <= i < |p[1..]| - 1 ensures g.Edge(p[1..][i], p[1..][i + 1]) {
        assert g.Edge(p[i + 1], p[i + 2]);
      }
      PathDescends(g, topo, p[1..]);
    }
  }

  lemma TopologicalMeansAcyclic(g: Graph, topo: seq<TaskId>)
    requires Topological(g, topo) && forall t :: t in g.deps ==> t in topo
    ensures g.Acyclic()
  {
    forall t, p | g.PathFromTo(p, t, t) ensures false {
      assert g.Edge(p[0], p[1]);
      PathDescends(g, topo, p);
    }
  }

  lemma CycleIsReal(g: Graph, p: seq<TaskId>)
    requires g.ClosesCycle(p)
    ensures !g.Acyclic()
  {
    var n := |p| - 1;
    var i :| 0 <= i < n && p[i] == p[n];
    forall k | 0 <= k < |p[i..]| - 1 ensures g.Edge(p[i..][k], p[i..][k + 1]) {
      assert g.Edge(p[i + k], p[i + k + 1]);
    }
    assert g.PathFromTo(p[i..], p[i], p[i]);
    assert g.Reaches(p[i], p[i]);
  }

  // ---------------------------------------------------------------------------------------
  // check_circular_dependencies
  // ---------------------------------------------------------------------------------------

  datatype CheckError =
    | SelfDependency(task: TaskId)
    | UnknownDependency(task: TaskId, dep: TaskId)
    | CircularDependency(path: seq<TaskId>)

  /** The two sets the nested function of the source closes over. */
  class CycleSearch {
    const g: Graph
    var visited: set<TaskId>
    var recStack: set<TaskId>
    ghost var finished: seq<TaskId>  // in order of completion

    ghost predicate Valid()
      reads this
    {
      && g.Known()
      && Topological(g, finished)
      && visited == Elements(finished) + recStack
      && visited <= g.deps.Keys
      && (forall t :: t in recStack ==> t !in finished)
    }

    constructor (g: Graph)
      requires g.Known()
      ensures Valid() && this.g == g && visited == {} && recStack == {} && finished == []
    {
      this.g := g;
      visited, recStack, finished := {}, {}, [];
    }

    /** Visits everything `node` needs.  `path` leads from the start of the search to `node`. */
    method Dfs(node: TaskId, path: seq<TaskId>) returns (cycle: Option<seq<TaskId>>)
      requires Valid() && node in g.deps && node !in visited
      requires path != [] && path[|path| - 1] == node && g.IsPath(path)
      requires recStack == Elements(path[..|path| - 1])
      modifies this
      ensures cycle.Some? ==> g.ClosesCycle(cycle.value)
      ensures cycle.None? ==> Valid() && recStack == old(recStack) && node in finished
      ensures cycle.None? ==> old(visited) <= visited && forall t :: t in old(finished) ==> t in finished
      decreases g.deps.Keys - visited
    {
      visited := visited + {node};
      recStack := recStack + {node};
      assert path == path[..|path| - 1] + [node];
      var deps := g.deps[node];
      for i := 0 to |deps|
        invariant Valid() && recStack == Elements(path) && node in recStack
        invariant old(visited) + {node} <= visited
        invariant forall t :: t in old(finished) ==> t in finished
        invariant forall k | 0 <= k < i :: deps[k] in finished
      {
        var neighbor := deps[i];
        assert g.Edge(node, neighbor);
        var longer := path + [neighbor];
        assert g.IsPath(longer) by {
          forall k | 0 <= k < |longer| - 1 ensures g.Edge(longer[k], longer[k + 1]) {
            if k < |path| - 1 { assert g.Edge(path[k], path[k + 1]); }
          }
        }
        assert longer[..|longer| - 1] == path;
        if neighbor !in visited {
          cycle := Dfs(neighbor, longer);
          if cycle.Some? { return; }
        } else if neighbor in recStack {
          return Some(longer);
        }
      }
      recStack := recStack - {node};
      assert recStack == old(recStack);
      forall d | g.Edge(node, d) ensures d in finished {
        var k :| 0 <= k < |deps| && deps[k] == d;
      }
      Append(node);
      return None;
    }

    /** Ghost bookkeeping: `node` is complete once all its dependencies are. */
    ghost method Append(node: TaskId)
      requires Topological(g, finished) && node !in finished
      requires forall d :: g.Edge(node, d) ==> d in finished
      modifies this`finished
      ensures finished == old(finished) + [node] && Topological(g, finished)
    {
      var before := finished;
      finished := finished + [node];
      forall i, d | 0 <= i < |finished| && g.Edge(finished[i], d) ensures d in finished[..i] {
        assert finished[..i] == before[..i];
        if i < |before| { assert d in before[..i]; } else { assert before[..i] == before; }
      }
    }
  }

  /**
   The whole check.  It passes exactly when every dependency is a task of the plan and no
   task needs itself; a circularity it reports is a path that really closes.
   */
  method CheckCircularDependencies(g: Graph) returns (r: Option<CheckError>, ghost topo: seq<TaskId>)
    requires g.Valid()
    ensures r.None? <==> g.Known() && g.Acyclic()
    ensures r.None? ==> Topological(g, topo) && forall t :: t in topo <==> t in g.deps
    ensures r.Some? && r.value.SelfDependency? ==> g.Edge(r.value.task, r.value.task)
    ensures r.Some? && r.value.UnknownDependency? ==> g.Edge(r.value.task, r.value.dep) && r.value.dep !in g.deps
    ensures r.Some? && r.value.CircularDependency? ==> g.Known() && g.ClosesCycle(r.value.path)
  {
    topo := [];
    for i := 0 to |g.order|
      invariant forall k, d | 0 <= k < i && g.Edge(g.order[k], d) :: d in g.deps
    {
      var tid := g.order[i];
      var deps := g.deps[tid];
      if tid in deps {
        assert [tid, tid][..1] == [tid];
        CycleIsReal(g, [tid, tid]);
        return Some(SelfDependency(tid)), topo;
      }
      for j := 0 to |deps|
        invariant forall k | 0 <= k < j :: deps[k] in g.deps
      {
        if deps[j] !in g.deps {
          assert g.Edge(tid, deps[j]);
          return Some(UnknownDependency(tid, deps[j])), topo;
        }
      }
    }
    assert g.Known() by {
      forall a, b | g.Edge(a, b) ensures b in g.deps {
        var k :| 0 <= k < |g.order| && g.order[k] == a;
      }
    }
    var search := new CycleSearch(g);
    for i := 0 to |g.order|
      invariant search.Valid() && search.recStack == {} && search.g == g && fresh(search)
      invariant forall k | 0 <= k < i :: g.order[k] in search.visited
    {
      var tid := g.order[i];
      if tid !in search.visited {
        var cycle := search.Dfs(tid, [tid]);
        if cycle.Some? {
          CycleIsReal(g, cycle.value);
          return Some(CircularDependency(cycle.value)), topo;
        }
      }
    }
    topo := search.finished;
    forall t | t in g.deps ensures t in topo {
      var k :| 0 <= k < |g.order| && g.order[k] == t;
    }
    TopologicalMeansAcyclic(g, topo);
    return None, topo;
  }

  // ---------------------------------------------------------------------------------------
  // TaskDAG.get_dependents
  // ---------------------------------------------------------------------------------------

  /** Keeps first occurrences: `list(dict.fromkeys(s))`. */
  function FirstOccurrences(s: seq<TaskId>): (r: seq<TaskId>)
    ensures NoDuplicates(r)
    ensures forall t :: t in r <==> t in s
  {
    if s == [] then []
    else
      var last := s[|s| - 1];
      var init := FirstOccurrences(s[..|s| - 1]);
      assert s == s[..|s| - 1] + [last];
      if last in init then init else init + [last]
  }

  function FirstIndex(s: seq<TaskId>, t: TaskId): (i: nat)
    requires t in s
    ensures i < |s| && s[i] == t && t !in s[..i]
  {
    if s[0] == t then 0
    else
      assert t in s[1..];
      var i := FirstIndex(s[1..], t) + 1;
      assert s[..i] == [s[0]] + s[1..][..i - 1];
      i
  }

  lemma FirstIndexIsFirst(s: seq<TaskId>, t: TaskId, i: nat)
    requires i < |s| && s[i] == t && t !in s[..i]
    ensures FirstIndex(s, t) == i
  {
    var j := FirstIndex(s, t);
    forall k | 0 <= k < i ensures s[k] != t { assert s[..i][k] == s[k]; }
    forall k | 0 <= k < j ensures s[k] != t { assert s[..j][k] == s[k]; }
  }

  lemma FirstIndexInPrefix(s: seq<TaskId>, n: nat, t: TaskId)
    requires n <= |s| && t in s[..n]
    ensures FirstIndex(s, t) == FirstIndex(s[..n], t) < n
  {
    var i := FirstIndex(s[..n], t);
    assert s[..n][..i] == s[..i];
    FirstIndexIsFirst(s, t, i);
  }

  /** The kept occurrences stand in the order in which the elements first occur. */
  lemma {:induction false} FirstOccurrencesInOrder(s: seq<TaskId>, i: nat, j: nat)
    requires i < j < |FirstOccurrences(s)|
    ensures FirstIndex(s, FirstOccurrences(s)[i]) < FirstIndex(s, FirstOccurrences(s)[j])
  {
    var n, r := |s| - 1, FirstOccurrences(s);
    var init := FirstOccurrences(s[..n]);
    assert r[i] in init && init[i] == r[i];
    FirstIndexInPrefix(s, n, r[i]);
    if j < |init| {
      assert r[j] in init;
      FirstIndexInPrefix(s, n, r[j]);
      FirstOccurrencesInOrder(s[..n], i, j);
    } else {
      FirstIndexIsFirst(s, r[j], n);
    }
  }

  lemma ReachesInOneStepOrMore(g: Graph, a: TaskId, b: TaskId)
    ensures g.Edge(a, b) ==> g.Reaches(a, b)
    ensures g.Reaches(a, b) ==> exists c :: g.Edge(c, b) && (c == a || g.Reaches(a, c))
  {
    if g.Edge(a, b) { assert g.PathFromTo([a, b], a, b); }
    if g.Reaches(a, b) {
      var p :| g.PathFromTo(p, a, b);
      var c := p[|p| - 2];
      assert g.Edge(p[|p| - 2], p[|p| - 2 + 1]);
      if |p| > 2 {
        var q := p[..|p| - 1];
        forall i | 0 <= i < |q| - 1 ensures g.Edge(q[i], q[i + 1]) { assert g.Edge(p[i], p[i + 1]); }
        assert g.PathFromTo(q, a, c);
      }
    }
  }

  lemma ReachesExtends(g: Graph, a: TaskId, c: TaskId, b: TaskId)
    requires g.Reaches(a, c) && g.Edge(c, b)
    ensures g.Reaches(a, b)
  {
    var p :| g.PathFromTo(p, a, c);
    var q := p + [b];
    forall i | 0 <= i < |q| - 1 ensures g.Edge(q[i], q[i + 1]) {
      if i < |p| - 1 { assert g.Edge(p[i], p[i + 1]); }
    }
    assert g.PathFromTo(q, a, b);
  }

  /** `t` needs `id` by way of `c`, which lists `id` among its own dependencies. */
  ghost predicate NeedsBy(g: Graph, t: TaskId, c: TaskId, id: TaskId) {
    g.Edge(c, id) && (t == c || g.Reaches(t, c))
  }

  /** Whoever needs `id` needs it by way of one of its direct dependents. */
  lemma NeedsByDirectDependent(g: Graph, t: TaskId, id: TaskId)
    ensures g.Reaches(t, id) <==> exists c :: NeedsBy(g, t, c, id)
  {
    if g.Reaches(t, id) {
      ReachesInOneStepOrMore(g, t, id);
      var c :| g.Edge(c, id) && (c == t || g.Reaches(t, c));
      assert NeedsBy(g, t, c, id);
    }
    if c :| NeedsBy(g, t, c, id) {
      ReachesInOneStepOrMore(g, c, id);
      if t != c { ReachesExtends(g, t, c, id); }
    }
  }

  /**
   Every task that needs `id`, directly or not, once each, and never `id` itself.
   The recursion has no guard of its own: it stops because each call is about a task
   further up the topological order the check established.
   */
  method GetDependents(g: Graph, id: TaskId, ghost topo: seq<TaskId>) returns (dependents: seq<TaskId>)
    requires g.Valid() && g.Known()
    requires Topological(g, topo) && forall t :: t in g.deps ==> t in topo
    ensures NoDuplicates(dependents)
    ensures forall t :: t in dependents <==> g.Reaches(t, id)
    ensures id !in dependents
    decreases |topo| - Rank(topo, id)
  {
    var found: seq<TaskId> := [];
    for i := 0 to |g.order|
      invariant forall t :: t in found <==> exists k :: 0 <= k < i && NeedsBy(g, t, g.order[k], id)
    {
      var tid := g.order[i];
      ghost var before := found;
      if id in g.deps[tid] {
        assert g.Edge(tid, id);
        EdgeDescends(g, topo, tid, id);
        var further := GetDependents(g, tid, topo);
        found := found + [tid] + further;
      }
      assert forall t :: t in found <==> t in before || NeedsBy(g, t, tid, id);
    }
    forall t ensures t in found <==> g.Reaches(t, id) {
      NeedsByDirectDependent(g, t, id);
      if c :| NeedsBy(g, t, c, id) { var k :| 0 <= k < |g.order| && g.order[k] == c; }
    }
    TopologicalMeansAcyclic(g, topo);
    dependents := FirstOccurrences(found);
  }
}
