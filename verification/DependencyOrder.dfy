/** The depth-first ordering of a dependency graph (`_topological_order`). */
module DependencyOrder {
  import opened Wrappers

  /** `deps[n]` lists what `n` depends on; a node without an entry depends on nothing. */
  type Graph = map<string, seq<string>>

  function DepsOf(deps: Graph, node: string): seq<string> {
    if node in deps then deps[node] else []
  }

  ghost predicate NoDuplicates<T>(s: seq<T>) {
    forall i, j :: 0 <= i < j < |s| ==> s[i] != s[j]
  }

  // ---------------------------------------------------------------- walks and cycles

  /** Each node of `w` is a direct dependency of the one before it. */
  ghost predicate IsWalk(deps: Graph, w: seq<string>) {
    |w| > 0 && forall i :: 0 <= i < |w| - 1 ==> w[i + 1] in DepsOf(deps, w[i])
  }

  ghost predicate IsWalkBetween(deps: Graph, from: string, to: string, w: seq<string>) {
    IsWalk(deps, w) && w[0] == from && w[|w| - 1] == to
  }

  ghost predicate Reaches(deps: Graph, from: string, to: string) {
    exists w :: IsWalkBetween(deps, from, to, w)
  }

  ghost predicate ReachableFrom(deps: Graph, ids: seq<string>, node: string) {
    exists id :: id in ids && Reaches(deps, id, node)
  }

  ghost predicate OnCycle(deps: Graph, node: string) {
    exists w :: IsWalkBetween(deps, node, node, w) && |w| >= 2
  }

  /** Some node reachable from `ids` lies on a cycle. */
  ghost predicate CycleReachable(deps: Graph, ids: seq<string>) {
    exists node :: ReachableFrom(deps, ids, node) && OnCycle(deps, node)
  }

  /** A walk that runs into itself: its last node has occurred before, and is the first to. */
  ghost predicate IsLasso(deps: Graph, w: seq<string>) {
    IsWalk(deps, w) && w[|w| - 1] in w[..|w| - 1] && NoDuplicates(w[..|w| - 1])
  }

  /** From the first occurrence of its last node on, the walk is a cycle that passes no
      other node twice. */
  ghost predicate ClosesAt(deps: Graph, w: seq<string>, k: int) {
    && 0 <= k < |w| - 1 && w[k] == w[|w| - 1] && w[|w| - 1] !in w[..k]
    && IsWalkBetween(deps, w[|w| - 1], w[|w| - 1], w[k..]) && NoDuplicates(w[k..|w| - 1])
  }

  /** `order` repeats nothing and lists every dependency before its dependents. */
  ghost predicate IsTopological(deps: Graph, order: seq<string>) {
    && NoDuplicates(order)
    && forall i, d :: 0 <= i < |order| && d in DepsOf(deps, order[i]) ==> d in order[..i]
  }

  /** What the first ids need comes out before anything only later ids need. */
  ghost predicate EarlierIdsFirst(deps: Graph, ids: seq<string>, order: seq<string>) {
    forall k :: 0 <= k <= |ids| ==> CutsAt(deps, ids, k, order)
  }

  /** Some prefix of `order` is exactly what the first `k` ids reach. */
  ghost predicate CutsAt(deps: Graph, ids: seq<string>, k: nat, order: seq<string>)
    requires k <= |ids|
  {
    exists cut :: IsCut(deps, ids[..k], order, cut)
  }

  ghost predicate IsCut(deps: Graph, ids: seq<string>, order: seq<string>, cut: int) {
    0 <= cut <= |order| && forall n :: n in order[..cut] <==> ReachableFrom(deps, ids, n)
  }

  // ---------------------------------------------------------------- lemmas about walks

  lemma ReachesSelf(deps: Graph, node: string)
    ensures Reaches(deps, node, node)
  {
    assert IsWalkBetween(deps, node, node, [node]);
  }

  lemma ReachesThroughDep(deps: Graph, node: string, dep: string, to: string)
    requires dep in DepsOf(deps, node) && Reaches(deps, dep, to)
    ensures Reaches(deps, node, to)
  {
    var w :| IsWalkBetween(deps, dep, to, w);
    assert IsWalkBetween(deps, node, to, [node] + w);
  }

  /** Along a walk that starts inside a topological order, positions strictly decrease. */
  lemma {:induction false} WalkDescends(deps: Graph, order: seq<string>, w: seq<string>, p: nat)
    returns (q: nat)
    requires IsTopological(deps, order) && IsWalk(deps, w)
    requires p < |order| && order[p] == w[0]
    ensures q <= p && order[q] == w[|w| - 1]
    ensures |w| >= 2 ==> q < p
    decreases |w|
  {
    if |w| == 1 {
      q := p;
    } else {
      assert w[0 + 1] in DepsOf(deps, order[p]);
      var p' :| 0 <= p' < p && order[p'] == w[1];
      assert IsWalk(deps, w[1..]) by {
        forall i | 0 <= i < |w[1..]| - 1 ensures w[1..][i + 1] in DepsOf(deps, w[1..][i]) {
          assert w[(i + 1) + 1] in DepsOf(deps, w[i + 1]);
        }
      }
      q := WalkDescends(deps, order, w[1..], p');
    }
  }

  /** Everything reachable from inside a topological order is inside it. */
  lemma TopologicalIsClosed(deps: Graph, order: seq<string>, ids: seq<string>, node: string)
    requires IsTopological(deps, order) && ReachableFrom(deps, ids, node)
    requires forall id :: id in ids ==> id in order
    ensures node in order
  {
    var id :| id in ids && Reaches(deps, id, node);
    var w :| IsWalkBetween(deps, id, node, w);
    var p :| 0 <= p < |order| && order[p] == id;
    var _ := WalkDescends(deps, order, w, p);
  }

  /** A graph whose ids fit in a topological order has no cycle within reach. */
  lemma TopologicalHasNoCycle(deps: Graph, order: seq<string>, ids: seq<string>)
    requires IsTopological(deps, order)
    requires forall id :: id in ids ==> id in order
    ensures !CycleReachable(deps, ids)
  {
    if CycleReachable(deps, ids) {
      var node :| ReachableFrom(deps, ids, node) && OnCycle(deps, node);
      TopologicalIsClosed(deps, order, ids, node);
      var w :| IsWalkBetween(deps, node, node, w) && |w| >= 2;
      var p :| 0 <= p < |order| && order[p] == node;
      var q := WalkDescends(deps, order, w, p);
      assert false;
    }
  }

  /** A lasso that starts at an id is a reachable cycle: its tail from the first
      occurrence of the repeated node closes on itself. */
  lemma LassoIsCycle(deps: Graph, ids: seq<string>, w: seq<string>)
    requires IsLasso(deps, w) && w[0] in ids
    ensures CycleReachable(deps, ids)
    ensures exists k :: ClosesAt(deps, w, k)
  {
    var node, front := w[|w| - 1], w[..|w| - 1];
    var k :| 0 <= k < |front| && front[k] == node;
    assert forall i :: 0 <= i < k ==> front[i] != front[k];
    assert w[..k] == front[..k] && w[k..|w| - 1] == front[k..];
    assert ClosesAt(deps, w, k);
    assert IsWalkBetween(deps, w[0], node, w[..k + 1]);
    assert IsWalkBetween(deps, node, node, w[k..]);
    assert Reaches(deps, w[0], node);
    assert ReachableFrom(deps, ids, node);
    assert OnCycle(deps, node);
  }

  lemma SelfLoopIsCycle(deps: Graph, ids: seq<string>, node: string)
    requires node in ids && node in DepsOf(deps, node)
    ensures CycleReachable(deps, ids)
  {
    var w := [node, node];
    assert w[..1] == [node];
    LassoIsCycle(deps, ids, w);
  }

  // ---------------------------------------------------------------- the whole order

  /** `order` lists what `ids` reach, dependencies first, earlier ids first. */
  ghost predicate Orders(deps: Graph, ids: seq<string>, order: seq<string>) {
    && IsTopological(deps, order)
    && (forall n :: n in order <==> ReachableFrom(deps, ids, n))
    && EarlierIdsFirst(deps, ids, order)
  }

  lemma OrdersNothing(deps: Graph)
    ensures Orders(deps, [], [])
  {
    assert IsCut(deps, [][..0], [], 0);
  }

  lemma OrdersIds(deps: Graph, ids: seq<string>, order: seq<string>, id: string)
    requires Orders(deps, ids, order) && id in ids
    ensures id in order
  {
    ReachesSelf(deps, id);
  }

  /** One more id: visiting `last` turns an order of `ids` into one of `ids + [last]`. */
  lemma OrdersOneMore(deps: Graph, ids: seq<string>, last: string, before: seq<string>, order: seq<string>)
    requires Orders(deps, ids, before) && before <= order && IsTopological(deps, order) && last in order
    requires forall n :: n in order[|before|..] ==> Reaches(deps, last, n)
    ensures Orders(deps, ids + [last], order)
  {
    ReachableGrows(deps, ids, last, before, order);
    CutsGrow(deps, ids, last, before, order);
  }

  lemma ReachableGrows(deps: Graph, ids: seq<string>, last: string, before: seq<string>, order: seq<string>)
    requires Orders(deps, ids, before) && before <= order && IsTopological(deps, order) && last in order
    requires forall n :: n in order[|before|..] ==> Reaches(deps, last, n)
    ensures forall n :: n in order <==> ReachableFrom(deps, ids + [last], n)
  {
    var more := ids + [last];
    forall id | id in more ensures id in order {
      if id in ids { OrdersIds(deps, ids, before, id); }
    }
    forall n ensures n in order <==> ReachableFrom(deps, more, n) {
      if n in order {
        if n in before {
          var id :| id in ids && Reaches(deps, id, n);
          assert id in more;
        } else {
          assert n in order[|before|..];
          assert more[|ids|] == last;
        }
      }
      if ReachableFrom(deps, more, n) {
        TopologicalIsClosed(deps, order, more, n);
      }
    }
  }

  lemma CutsGrow(deps: Graph, ids: seq<string>, last: string, before: seq<string>, order: seq<string>)
    requires before <= order && EarlierIdsFirst(deps, ids, before)
    requires forall n :: n in order <==> ReachableFrom(deps, ids + [last], n)
    ensures EarlierIdsFirst(deps, ids + [last], order)
  {
    var more := ids + [last];
    forall k | 0 <= k <= |more| ensures CutsAt(deps, more, k, order) {
      if k <= |ids| {
        assert CutsAt(deps, ids, k, before);
        var cut :| IsCut(deps, ids[..k], before, cut);
        assert before[..cut] == order[..cut] && ids[..k] == more[..k];
        assert IsCut(deps, more[..k], order, cut);
      } else {
        assert more[..k] == more && order[..|order|] == order;
        assert IsCut(deps, more[..k], order, |order|);
      }
    }
  }

  /** In ids that are already ordered, each id is new and has all its dependencies before it. */
  lemma StableAt(deps: Graph, ids: seq<string>, i: nat)
    requires IsTopological(deps, ids) && i < |ids|
    ensures ids[i] !in ids[..i]
    ensures forall d :: d in DepsOf(deps, ids[i]) ==> d in ids[..i]
  {
  }

  lemma LassoRefutes(deps: Graph, ids: seq<string>, w: seq<string>)
    requires IsLasso(deps, w) && w[0] in ids
    ensures CycleReachable(deps, ids) && !IsTopological(deps, ids)
  {
    LassoIsCycle(deps, ids, w);
    if IsTopological(deps, ids) { TopologicalHasNoCycle(deps, ids, ids); }
  }

  lemma OrdersHasNoCycle(deps: Graph, ids: seq<string>, order: seq<string>)
    requires Orders(deps, ids, order)
    ensures !CycleReachable(deps, ids)
  {
    forall id | id in ids ensures id in order { OrdersIds(deps, ids, order, id); }
    TopologicalHasNoCycle(deps, order, ids);
  }

  // ---------------------------------------------------------------- the search

  lemma WalkOneMore(deps: Graph, path: seq<string>, node: string, dep: string)
    requires IsWalk(deps, path) && path[|path| - 1] == node && dep in DepsOf(deps, node)
    ensures IsWalk(deps, path + [dep])
  {
  }

  /** A node is unvisited as long as it has no mark. */
  datatype Mark = InProgress | Done

  /** The finished nodes are exactly those in `order`, the open ones exactly those on `path`. */
  ghost predicate Marked(state: map<string, Mark>, order: seq<string>, path: seq<string>) {
    && (forall n :: n in order <==> n in state && state[n].Done?)
    && (forall n :: n in path <==> n in state && state[n].InProgress?)
    && NoDuplicates(path)
  }

  lemma OpeningKeepsMarks(state: map<string, Mark>, order: seq<string>, path: seq<string>, node: string)
    requires Marked(state, order, path) && node !in state
    ensures Marked(state[node := InProgress], order, path + [node])
  {
  }

  lemma ClosingKeepsMarks(state: map<string, Mark>, order: seq<string>, path: seq<string>, node: string)
    requires Marked(state, order, path + [node]) && node !in path
    ensures node !in order
    ensures Marked(state[node := Done], order + [node], path)
  {
    assert node in path + [node];
    forall n | n in path ensures n in path + [node] {}
    assert (path + [node])[..|path|] == path;
    forall i, j | 0 <= i < j < |path| ensures path[i] != path[j] {
      assert (path + [node])[i] != (path + [node])[j];
    }
  }

  lemma AppendKeepsTopological(deps: Graph, order: seq<string>, node: string)
    requires IsTopological(deps, order) && node !in order
    requires forall d :: d in DepsOf(deps, node) ==> d in order
    ensures IsTopological(deps, order + [node])
  {
    var longer := order + [node];
    forall i, d | 0 <= i < |longer| && d in DepsOf(deps, longer[i]) ensures d in longer[..i] {
      assert longer[..i] == order[..i];
      assert i == |order| ==> order[..i] == order;
    }
  }

  /** Nodes added while visiting `dep` are reached from `node` as well. */
  lemma NewNodesReached(deps: Graph, node: string, dep: string, start: seq<string>, before: seq<string>, order: seq<string>)
    requires dep in DepsOf(deps, node) && start <= before <= order
    requires forall n :: n in before[|start|..] ==> Reaches(deps, node, n)
    requires forall n :: n in order[|before|..] ==> Reaches(deps, dep, n)
    ensures forall n :: n in order[|start|..] ==> Reaches(deps, node, n)
  {
    forall n | n in order[|start|..] ensures Reaches(deps, node, n) {
      if n !in before[|start|..] {
        var i :| |start| <= i < |order| && order[i] == n;
        assert n in order[|before|..];
        ReachesThroughDep(deps, node, dep, n);
      }
    }
  }

  class DepthFirstSearch {
    const deps: Graph
    var state: map<string, Mark>
    var order: seq<string>

    constructor (deps: Graph)
      ensures this.deps == deps && state == map[] && order == []
      ensures Valid([])
    {
      this.deps := deps;
      state := map[];
      order := [];
    }

    ghost predicate Valid(path: seq<string>)
      reads this
    {
      Marked(state, order, path) && IsTopological(deps, order)
    }

    method Visit(node: string, path: seq<string>) returns (r: Outcome<seq<string>>)
      requires Valid(path) && IsWalk(deps, path + [node])
      modifies this
      ensures r.Pass? ==> Valid(path)
      ensures r.Pass? ==> old(order) <= order && node in order
      ensures r.Pass? ==> old(state.Keys) <= state.Keys
      ensures r.Pass? ==> forall n :: n in order[|old(order)|..] ==> Reaches(deps, node, n)
      ensures r.Pass? && node in old(order) ==> order == old(order)
      ensures r.Pass? && node !in old(order) && (forall d :: d in DepsOf(deps, node) ==> d in old(order))
              ==> order == old(order) + [node]
      ensures r.Fail? ==> path + [node] <= r.error && IsLasso(deps, r.error)
      decreases deps.Keys - state.Keys, 0
    {
      if node in state && state[node].Done? {
        return Pass;
      }
      if node in state && state[node].InProgress? {
        assert (path + [node])[..|path|] == path;
        return Fail(path + [node]);
      }
      OpeningKeepsMarks(state, order, path, node);
      state := state[node := InProgress];
      if node in deps {
        r := VisitDependencies(node, path + [node]);
        if r.Fail? { return; }
      }
      ClosingKeepsMarks(state, order, path, node);
      AppendKeepsTopological(deps, order, node);
      ReachesSelf(deps, node);
      state := state[node := Done];
      order := order + [node];
      r := Pass;
    }

    /** The loop over the dependencies of the node that was opened last. */
    method VisitDependencies(node: string, path: seq<string>) returns (r: Outcome<seq<string>>)
      requires node in deps && Valid(path) && IsWalk(deps, path) && path[|path| - 1] == node
      modifies this
      ensures r.Pass? ==> Valid(path)
      ensures r.Pass? ==> old(order) <= order && old(state.Keys) <= state.Keys
      ensures r.Pass? ==> forall d :: d in deps[node] ==> d in order
      ensures r.Pass? ==> forall n :: n in order[|old(order)|..] ==> Reaches(deps, node, n)
      ensures r.Pass? && (forall d :: d in deps[node] ==> d in old(order)) ==> order == old(order)
      ensures r.Fail? ==> path <= r.error && IsLasso(deps, r.error)
      decreases deps.Keys - state.Keys, 1
    {
      var ds := deps[node];
      for i := 0 to |ds|
        invariant Valid(path)
        invariant old(order) <= order && old(state.Keys) <= state.Keys
        invariant forall d :: d in ds[..i] ==> d in order
        invariant forall n :: n in order[|old(order)|..] ==> Reaches(deps, node, n)
        invariant (forall d :: d in ds ==> d in old(order)) ==> order == old(order)
      {
        ghost var before := order;
        WalkOneMore(deps, path, node, ds[i]);
        r := Visit(ds[i], path);
        if r.Fail? {
          assert path <= path + [ds[i]] <= r.error;
          return;
        }
        assert forall n :: n in order[|old(order)|..] ==> Reaches(deps, node, n) by {
          NewNodesReached(deps, node, ds[i], old(order), before, order);
        }
        assert ds[..i + 1] == ds[..i] + [ds[i]];
      }
      assert ds[..|ds|] == ds;
      r := Pass;
    }

    /** The next id in turn. */
    method VisitId(ids: seq<string>, i: nat) returns (r: Outcome<seq<string>>)
      requires i < |ids| && Valid([]) && Orders(deps, ids[..i], order)
      requires IsTopological(deps, ids) ==> order == ids[..i]
      modifies this
      ensures r.Pass? ==> Valid([]) && Orders(deps, ids[..i + 1], order)
      ensures r.Pass? && IsTopological(deps, ids) ==> order == ids[..i + 1]
      ensures r.Fail? ==> IsLasso(deps, r.error) && r.error[0] == ids[i]
    {
      ghost var before := order;
      r := Visit(ids[i], []);
      if r.Pass? {
        assert ids[..i + 1] == ids[..i] + [ids[i]];
        assert IsTopological(deps, ids) ==> order == ids[..i + 1] by {
          if IsTopological(deps, ids) { StableAt(deps, ids, i); }
        }
        assert Orders(deps, ids[..i + 1], order) by {
          OrdersOneMore(deps, ids[..i], ids[i], before, order);
        }
      } else {
        assert [] + [ids[i]] <= r.error;
      }
    }
  }

  /** Raises exactly when a cycle can be reached from `ids`, and then reports a walk from
      an id into that cycle. Otherwise returns what is reachable from `ids`, every
      dependency first; `ids` itself comes back unchanged exactly when it is already
      in such an order. */
  method TopologicalOrder(ids: seq<string>, deps: Graph) returns (r: Result<seq<string>, seq<string>>)
    ensures r.Failure? <==> CycleReachable(deps, ids)
    ensures r.Failure? ==> IsLasso(deps, r.error) && r.error[0] in ids
    ensures r.Success? ==> Orders(deps, ids, r.value)
    ensures r == Success(ids) <==> IsTopological(deps, ids)
  {
    var search := new DepthFirstSearch(deps);
    OrdersNothing(deps);
    for i := 0 to |ids|
      invariant search.deps == deps && search.Valid([])
      invariant Orders(deps, ids[..i], search.order)
      invariant IsTopological(deps, ids) ==> search.order == ids[..i]
    {
      var visited := search.VisitId(ids, i);
      if visited.Fail? {
        LassoRefutes(deps, ids, visited.error);
        return Failure(visited.error);
      }
    }
    assert ids[..|ids|] == ids;
    OrdersHasNoCycle(deps, ids, search.order);
    r := Success(search.order);
  }
}
