/** The deployment plan of an artifact: its steps, their field rules and their graph. */
module InstallSchema {
  import opened Wrappers
  import opened DependencyOrder

  /** Exactly one origin: a marketplace slug, or a git url with its ref. */
  datatype Origin =
    | Marketplace(slug: string, version: string, kind: string)
    | Git(url: string, gitRef: string)

  datatype PluginSource = PluginSource(origin: Origin, subdirectory: Option<string>)

  datatype Action =
    | Prepare
    | Download
    | Extract
    | Provision(plugin: string)
    | InstallPlugin(plugin: string, source: Option<PluginSource>)
    | InstallExtension(extension: string, source: Option<PluginSource>)
    | ConfigurePlugin(plugin: string)
    | WriteEnv(plugin: string, from: string)
    | Notify(event: string)
    | Start
    | Stop
    | Restart
    | Healthcheck(timeoutSeconds: int, retries: int)
    | Rollback

  datatype Step = Step(id: string, dependsOn: seq<string>, snapshot: bool, action: Action)

  datatype InstallPlan = InstallPlan(projectId: string, version: string, steps: seq<Step>)

  // ---------------------------------------------------------------- identifiers

  predicate IsIdStart(c: char) { 'a' <= c <= 'z' || '0' <= c <= '9' }
  predicate IsIdChar(c: char) { IsIdStart(c) || c == '_' || c == '-' }

  predicate ValidStepId(id: string) {
    && 1 <= |id| <= 64
    && IsIdStart(id[0])
    && forall i :: 0 <= i < |id| ==> IsIdChar(id[i])
  }

  /** Also the rule for extension ids; unlike step ids these may hold dots. */
  predicate ValidPluginId(id: string) {
    && 1 <= |id| <= 128
    && IsIdStart(id[0])
    && forall i :: 0 <= i < |id| ==> IsIdChar(id[i]) || id[i] == '.'
  }

  // ---------------------------------------------------------------- the graph

  function Ids(steps: seq<Step>): (ids: seq<string>)
    ensures |ids| == |steps| && forall i :: 0 <= i < |steps| ==> ids[i] == steps[i].id
  {
    seq(|steps|, i requires 0 <= i < |steps| => steps[i].id)
  }

  /** `{s.id: s.depends_on for s in steps}`: of two steps with one id, the later counts. */
  function Dependencies(steps: seq<Step>): (deps: Graph)
    ensures forall id :: id in deps <==> id in Ids(steps)
  {
    if steps == [] then map[]
    else
      var last := steps[|steps| - 1];
      var deps := Dependencies(steps[..|steps| - 1])[last.id := last.dependsOn];
      assert forall id :: id in Ids(steps) <==> id in Ids(steps[..|steps| - 1]) || id == last.id by {
        assert Ids(steps) == Ids(steps[..|steps| - 1]) + [last.id];
      }
      deps
  }

  lemma {:induction false} DependenciesAt(steps: seq<Step>, i: nat)
    requires i < |steps| && NoDuplicates(Ids(steps))
    ensures steps[i].id in Dependencies(steps)
    ensures DepsOf(Dependencies(steps), steps[i].id) == steps[i].dependsOn
  {
    var n := |steps| - 1;
    assert Ids(steps[..n]) == Ids(steps)[..n];
    if i < n {
      DependenciesAt(steps[..n], i);
      assert Ids(steps)[i] != Ids(steps)[n];
    }
  }

  datatype PlanError =
    | DuplicateStep(id: string)
    | UnknownDependency(step: string, dep: string)
    | SelfDependency(step: string)
    | DependencyCycle(walk: seq<string>)

  ghost predicate DependenciesKnown(steps: seq<Step>) {
    forall i, d :: 0 <= i < |steps| && d in steps[i].dependsOn ==> d in Ids(steps)
  }

  ghost predicate SelfDependent(steps: seq<Step>) {
    exists i :: 0 <= i < |steps| && steps[i].id in steps[i].dependsOn
  }

  /** The graphs that are accepted: distinct ids, no dangling edge, no cycle. */
  ghost predicate AcceptedGraph(steps: seq<Step>) {
    && NoDuplicates(Ids(steps))
    && DependenciesKnown(steps)
    && !CycleReachable(Dependencies(steps), Ids(steps))
  }

  lemma {:induction false} SelfDependencyIsCycle(steps: seq<Step>, i: nat)
    requires i < |steps| && NoDuplicates(Ids(steps)) && steps[i].id in steps[i].dependsOn
    ensures CycleReachable(Dependencies(steps), Ids(steps))
  {
    var deps, id := Dependencies(steps), steps[i].id;
    DependenciesAt(steps, i);
    assert Ids(steps)[i] == id;
    SelfLoopIsCycle(deps, Ids(steps), id);
  }

  /** Which error a rejected graph gets, and that it names a real defect. */
  ghost predicate NamesDefect(steps: seq<Step>, error: PlanError) {
    match error
    case DuplicateStep(id) =>
      exists i, j :: 0 <= i < j < |steps| && steps[i].id == steps[j].id == id && NoDuplicates(Ids(steps)[..j])
    case UnknownDependency(step, dep) =>
      NoDuplicates(Ids(steps)) && dep !in Ids(steps) &&
      exists i :: 0 <= i < |steps| && steps[i].id == step && dep in steps[i].dependsOn
    case SelfDependency(step) =>
      NoDuplicates(Ids(steps)) &&
      exists i :: 0 <= i < |steps| && steps[i].id == step && step in steps[i].dependsOn
    case DependencyCycle(walk) =>
      NoDuplicates(Ids(steps)) && DependenciesKnown(steps) &&
      !SelfDependent(steps) &&
      IsLasso(Dependencies(steps), walk) && walk[0] in Ids(steps)
  }

  method CheckDistinctIds(steps: seq<Step>) returns (r: Outcome<PlanError>)
    ensures r.Pass? <==> NoDuplicates(Ids(steps))
    ensures r.Fail? ==> r.error.DuplicateStep? && NamesDefect(steps, r.error)
  {
    var seen: set<string> := {};
    for i := 0 to |steps|
      invariant forall id :: id in seen <==> id in Ids(steps)[..i]
      invariant NoDuplicates(Ids(steps)[..i])
    {
      if steps[i].id in seen {
        var j :| 0 <= j < i && Ids(steps)[j] == steps[i].id;
        return Fail(DuplicateStep(steps[i].id));
      }
      seen := seen + {steps[i].id};
      assert Ids(steps)[..i + 1] == Ids(steps)[..i] + [steps[i].id];
    }
    assert Ids(steps)[..|steps|] == Ids(steps);
    r := Pass;
  }

  method CheckDependencies(steps: seq<Step>) returns (r: Outcome<PlanError>)
    requires NoDuplicates(Ids(steps))
    ensures r.Pass? <==> DependenciesKnown(steps) && !SelfDependent(steps)
    ensures r.Fail? ==> NamesDefect(steps, r.error)
  {
    for i := 0 to |steps|
      invariant forall k, d :: 0 <= k < i && d in steps[k].dependsOn ==> d in Ids(steps)
      invariant !SelfDependent(steps[..i])
    {
      var ds := steps[i].dependsOn;
      for j := 0 to |ds|
        invariant forall d :: d in ds[..j] ==> d in Ids(steps) && d != steps[i].id
      {
        assert ds[j] in steps[i].dependsOn;
        if ds[j] !in Ids(steps) {
          return Fail(UnknownDependency(steps[i].id, ds[j]));
        }
        if ds[j] == steps[i].id {
          return Fail(SelfDependency(steps[i].id));
        }
      }
      assert ds[..|ds|] == ds;
    }
    assert steps[..|steps|] == steps;
    r := Pass;
  }

  /** `InstallPlan._validate_graph`. */
  method ValidateGraph(steps: seq<Step>) returns (r: Outcome<PlanError>)
    ensures r.Pass? <==> AcceptedGraph(steps)
    ensures r.Fail? ==> NamesDefect(steps, r.error)
  {
    r := CheckDistinctIds(steps);
    if r.Fail? { return; }
    r := CheckDependencies(steps);
    if r.Fail? {
      if SelfDependent(steps) {
        ghost var i :| 0 <= i < |steps| && steps[i].id in steps[i].dependsOn;
        SelfDependencyIsCycle(steps, i);
      }
      return;
    }
    var order := TopologicalOrder(Ids(steps), Dependencies(steps));
    r := if order.Failure? then Fail(DependencyCycle(order.error)) else Pass;
  }

  /** Every step comes once, after all the steps it depends on. */
  ghost predicate IsExecutionOrder(steps: seq<Step>, order: seq<string>) {
    && NoDuplicates(order)
    && (forall id :: id in order <==> id in Ids(steps))
    && forall i, k, d :: 0 <= i < |steps| && 0 <= k < |order| && order[k] == steps[i].id && d in steps[i].dependsOn
         ==> d in order[..k]
  }

  /** The ids of an accepted plan are closed under dependencies. */
  lemma {:induction false} WalkStaysInPlan(steps: seq<Step>, w: seq<string>)
    requires NoDuplicates(Ids(steps)) && DependenciesKnown(steps)
    requires IsWalk(Dependencies(steps), w) && w[0] in Ids(steps)
    ensures w[|w| - 1] in Ids(steps)
    decreases |w|
  {
    if |w| > 1 {
      var i :| 0 <= i < |steps| && steps[i].id == w[0];
      DependenciesAt(steps, i);
      assert w[0 + 1] in steps[i].dependsOn;
      forall k | 0 <= k < |w[1..]| - 1 ensures w[1..][k + 1] in DepsOf(Dependencies(steps), w[1..][k]) {
        assert w[(k + 1) + 1] in DepsOf(Dependencies(steps), w[k + 1]);
      }
      WalkStaysInPlan(steps, w[1..]);
    }
  }

  lemma OrderedPlan(steps: seq<Step>, order: seq<string>)
    requires AcceptedGraph(steps) && Orders(Dependencies(steps), Ids(steps), order)
    ensures IsExecutionOrder(steps, order)
  {
    var deps := Dependencies(steps);
    forall id ensures id in order <==> id in Ids(steps) {
      if id in Ids(steps) {
        OrdersIds(deps, Ids(steps), order, id);
      }
      if id in order {
        var from :| from in Ids(steps) && Reaches(deps, from, id);
        var w :| IsWalkBetween(deps, from, id, w);
        WalkStaysInPlan(steps, w);
      }
    }
    forall i, k, d | 0 <= i < |steps| && 0 <= k < |order| && order[k] == steps[i].id && d in steps[i].dependsOn
      ensures d in order[..k]
    {
      DependenciesAt(steps, i);
    }
  }

  /** The written order is kept exactly when it already respects every dependency. */
  ghost predicate WrittenInOrder(steps: seq<Step>) {
    forall i, d :: 0 <= i < |steps| && d in steps[i].dependsOn ==> d in Ids(steps)[..i]
  }

  lemma {:induction false} WrittenOrderIsTopological(steps: seq<Step>)
    requires NoDuplicates(Ids(steps))
    ensures WrittenInOrder(steps) <==> IsTopological(Dependencies(steps), Ids(steps))
  {
    var deps := Dependencies(steps);
    forall i | 0 <= i < |steps| ensures DepsOf(deps, Ids(steps)[i]) == steps[i].dependsOn {
      DependenciesAt(steps, i);
    }
  }

  /** `InstallPlan.execution_order`, on any plan that was accepted: it never raises. */
  method ExecutionOrder(plan: InstallPlan) returns (order: seq<string>)
    requires AcceptedGraph(plan.steps)
    ensures IsExecutionOrder(plan.steps, order)
    ensures multiset(order) == multiset(Ids(plan.steps))
    ensures order == Ids(plan.steps) <==> WrittenInOrder(plan.steps)
  {
    var r := TopologicalOrder(Ids(plan.steps), Dependencies(plan.steps));
    order := r.value;
    OrderedPlan(plan.steps, order);
    WrittenOrderIsTopological(plan.steps);
    SameMembersOnce(order, Ids(plan.steps));
  }

  lemma {:induction false} DistinctCount<T>(s: seq<T>, x: T)
    requires NoDuplicates(s)
    ensures multiset(s)[x] == if x in s then 1 else 0
  {
    if s != [] {
      var n := |s| - 1;
      DistinctCount(s[..n], x);
      assert s == s[..n] + [s[n]];
    }
  }

  lemma SameMembersOnce<T>(a: seq<T>, b: seq<T>)
    requires NoDuplicates(a) && NoDuplicates(b)
    requires forall x :: x in a <==> x in b
    ensures multiset(a) == multiset(b)
  {
    forall x ensures multiset(a)[x] == multiset(b)[x] {
      DistinctCount(a, x);
      DistinctCount(b, x);
    }
  }

  /** The first step with this id. */
  function FindStep(steps: seq<Step>, id: string): (r: Option<Step>)
    ensures r.None? <==> id !in Ids(steps)
    ensures r.Some? ==> r.value in steps && r.value.id == id
  {
    if steps == [] then None
    else if steps[0].id == id then (assert Ids(steps)[0] == id; Some(steps[0]))
    else
      assert Ids(steps) == [steps[0].id] + Ids(steps[1..]);
      FindStep(steps[1..], id)
  }

  /** `InstallPlan.step`; nothing stands for `KeyError`. */
  method StepById(plan: InstallPlan, id: string) returns (r: Option<Step>)
    ensures r == FindStep(plan.steps, id)
  {
    var steps := plan.steps;
    for i := 0 to |steps|
      invariant FindStep(steps, id) == FindStep(steps[i..], id)
    {
      assert steps[i..][1..] == steps[i + 1..];
      if steps[i].id == id {
        return Some(steps[i]);
      }
    }
    r := None;
  }
}
