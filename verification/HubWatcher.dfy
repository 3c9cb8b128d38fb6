/** Polling the hub for the latest version and redeploying when it changes. */
module HubWatcher {
  import opened Wrappers
  import opened FileTree
  import opened DeploymentStates
  import opened Pipeline
  import opened SnapshotGc
  import opened InstallSchema
  import opened Manifest

  /** One run that was started: its version, its final state, and whether the version was
      recorded as installed afterwards. */
  datatype RunLog = RunLog(version: string, end: State, recorded: bool)

  /** The version on record after these runs. */
  function OnRecord(start: Option<string>, runs: seq<RunLog>): Option<string> {
    if runs == [] then start
    else
      var last := runs[|runs| - 1];
      if last.recorded then Some(last.version) else OnRecord(start, runs[..|runs| - 1])
  }

  /** Only a run that returned normally is recorded. */
  predicate Truthful(runs: seq<RunLog>) {
    forall i :: 0 <= i < |runs| && runs[i].recorded ==> runs[i].end == Succeeded
  }

  predicate SucceededAt(runs: seq<RunLog>, i: nat, version: string) {
    i < |runs| && runs[i] == RunLog(version, Succeeded, true)
  }

  /** The version on record is the one found at the start, or that of a run that returned
      normally. */
  lemma {:induction false} RecordNamesSuccess(start: Option<string>, runs: seq<RunLog>)
    requires Truthful(runs)
    ensures
      var now := OnRecord(start, runs);
      now == start || (now.Some? && exists i :: SucceededAt(runs, i, now.value))
  {
    if runs != [] {
      var n := |runs| - 1;
      RecordNamesSuccess(start, runs[..n]);
      if runs[n].recorded {
        assert SucceededAt(runs, n, runs[n].version);
      } else if OnRecord(start, runs[..n]) != start {
        var i :| SucceededAt(runs[..n], i, OnRecord(start, runs[..n]).value);
        assert SucceededAt(runs, i, OnRecord(start, runs[..n]).value);
      }
    }
  }

  /** What the hub, the run and the host contribute to one tick. */
  datatype Inputs = Inputs(
    authenticate: Pipeline.Outcome<string>,
    latest: Pipeline.Outcome<string>,
    run: Outside,
    recordRaises: bool,
    snapshots: seq<string>,
    time: string -> int,
    restartRaises: bool)

  /** What a run installed from: the unpacked artifact, the same with its sourced items laid
      over it, its manifest and plan, and the order of the steps. */
  datatype Delivered = Delivered(raw: Tree, extracted: Tree, manifest: ProjectManifest, plan: InstallPlan, order: seq<string>)

  /** It comes from the trusted signer, and was asked for. */
  ghost predicate Delivers(o: Outside, prim: Primitives, trusted: Bytes, credentials: Credentials, version: string,
                           d: Delivered) {
    && Verified(o, prim, trusted, credentials, version, d.raw, d.manifest, d.plan)
    && ResolvesTo(o, prim, WithRoot(d.raw), SourcedItems(d.manifest), d.extracted)
    && IsExecutionOrder(d.plan.steps, d.order)
  }

  /** What the driver was told. */
  function ToldBy(cfg: D.Config, d: Delivered): D.Config {
    D.FromExtracted(D.ForManifest(cfg, d.manifest.plugins, d.manifest.pluginsDirname), d.extracted)
  }

  /** Every item that the plan installs holds what the artifact ships, every other what it held. */
  ghost predicate Holds(cfg: D.Config, d: Delivered, before: Tree, after: Tree)
    requires IsExecutionOrder(d.plan.steps, d.order)
  {
    U.SeparateLayout(d.manifest.pluginsDirname) && U.ProperSteps(InOrder(d.plan.steps, d.order)) &&
    U.Rooted(before, d.manifest.pluginsDirname) ==>
      forall kind, id :: U.ProperItem(kind, id) ==>
        R.InstalledBy(InOrder(d.plan.steps, d.order), before, after, ToldBy(cfg, d), kind, id)
  }

  /** The project holds what was delivered for this version. */
  ghost predicate Leaves(o: Outside, prim: Primitives, trusted: Bytes, credentials: Credentials, version: string,
                         cfg: D.Config, d: Delivered, before: Tree, after: Tree) {
    Delivers(o, prim, trusted, credentials, version, d) && Holds(cfg, d, before, after)
  }

  datatype WatchResult = WatchResult(checkedVersion: string, deployed: bool)

  /** Whether this tick starts a run. */
  predicate Starts(installed: Option<string>, t: Inputs) {
    t.authenticate.Success? && t.latest.Success? && installed != Some(t.latest.value)
  }

  class Watcher {
    const prim: Primitives
    const credentials: Credentials
    const trusted: Bytes
    const keepSnapshots: int
    const cfg: D.Config
    var project: Tree
    var cache: Tree
    var installed: Option<string>
    ghost var runs: seq<RunLog>
    ghost const start: Option<string>

    constructor (prim: Primitives, credentials: Credentials, trusted: Bytes, keepSnapshots: int, cfg: D.Config,
                 project: Tree, cache: Tree, installed: Option<string>)
      ensures Valid() && runs == [] && start == installed
      ensures this.project == project && this.cache == cache && this.installed == installed
    {
      this.prim, this.credentials, this.trusted, this.keepSnapshots, this.cfg := prim, credentials, trusted, keepSnapshots, cfg;
      this.project, this.cache, this.installed := project, cache, installed;
      start, runs := installed, [];
    }

    ghost predicate Valid()
      reads this`installed, this`runs
    {
      installed == OnRecord(start, runs) && Truthful(runs)
    }

    /** `check_once`. */
    method CheckOnce(t: Inputs) returns (r: Pipeline.Outcome<WatchResult>, ghost d: Option<Delivered>)
      requires Valid()
      modifies this`project, this`cache, this`installed, this`runs
      ensures Valid()
      ensures t.authenticate.Failure? || t.latest.Failure? || old(installed) == Some(t.latest.value) ==>
                project == old(project) && cache == old(cache) && installed == old(installed) && runs == old(runs)
      ensures t.authenticate.Success? && t.latest.Success? && old(installed) != Some(t.latest.value) ==>
                |runs| == |old(runs)| + 1
      ensures !Starts(old(installed), t) ==>
                project == old(project) && cache == old(cache) && installed == old(installed) && runs == old(runs)
      ensures Starts(old(installed), t) ==>
                |runs| == |old(runs)| + 1 && runs[..|old(runs)|] == old(runs) && runs[|old(runs)|].version == t.latest.value
      ensures Starts(old(installed), t) && runs[|old(runs)|].end != Succeeded ==> installed == old(installed) && r.Failure?
      ensures Starts(old(installed), t) && runs[|old(runs)|].end == Succeeded ==>
                installed == (if t.recordRaises then old(installed) else Some(t.latest.value)) &&
                (r.Success? <==> !t.recordRaises && !t.restartRaises)
      ensures !Starts(old(installed), t) ==> (r.Success? <==> t.authenticate.Success? && t.latest.Success?)
      ensures r.Success? ==> t.latest.Success? && r.value == WatchResult(t.latest.value, Starts(old(installed), t))
      ensures r.Success? ==> installed == Some(t.latest.value)
      ensures r.Success? && r.value.deployed ==> forall version :: IsDir(cache, [version]) <==> version == t.latest.value
      ensures r.Success? ==> r.value.deployed == d.Some?
      ensures r.Success? && d.Some? ==>
        Leaves(t.run, prim, trusted, credentials, t.latest.value, cfg, d.value, old(project), project)
    {
      d := None;
      if t.authenticate.Failure? { return Failure(t.authenticate.error), d; }
      if t.latest.Failure? { return Failure(t.latest.error), d; }
      var latest := t.latest.value;
      if installed == Some(latest) {
        return Success(WatchResult(latest, false)), d;
      }
      var ran, delivered := Redeploy(t, latest);
      d := delivered;
      if ran.Failure? { return Failure(ran.error), d; }
      r := Success(WatchResult(latest, true));
    }

    /** Run, record and collect garbage. */
    method Redeploy(t: Inputs, latest: string) returns (r: Pipeline.Outcome<()>, ghost d: Option<Delivered>)
      requires Valid()
      modifies this`project, this`cache, this`installed, this`runs
      ensures Valid()
      ensures |runs| == |old(runs)| + 1 && runs[..|old(runs)|] == old(runs) && runs[|old(runs)|].version == latest
      ensures runs[|old(runs)|].end != Succeeded ==> installed == old(installed) && r.Failure?
      ensures runs[|old(runs)|].end == Succeeded ==>
                installed == (if t.recordRaises then old(installed) else Some(latest)) &&
                (r.Success? <==> !t.recordRaises && !t.restartRaises)
      ensures r.Success? ==> d.Some? && forall version :: IsDir(cache, [version]) <==> version == latest
      ensures r.Success? ==> Leaves(t.run, prim, trusted, credentials, latest, cfg, d.value, old(project), project)
    {
      r, d := Deploy(t.run, latest);
      if r.Failure? { return; }
      if t.recordRaises { return Failure(OtherError), d; }
      Record(latest);
      CleanUp(t, latest, d.value, old(project));
      if t.restartRaises { r := Failure(OtherError); }
    }

    /** The version is on record from now on. */
    method Record(latest: string)
      requires Valid() && runs != [] && runs[|runs| - 1] == RunLog(latest, Succeeded, false)
      modifies this`installed, this`runs
      ensures Valid() && installed == Some(latest)
      ensures runs == old(runs)[..|old(runs)| - 1] + [RunLog(latest, Succeeded, true)]
    {
      installed := Some(latest);
      runs := runs[..|runs| - 1] + [RunLog(latest, Succeeded, true)];
    }

    /** What was installed outlives the garbage collection. */
    method CleanUp(t: Inputs, latest: string, ghost d: Delivered, ghost before: Tree)
      requires IsExecutionOrder(d.plan.steps, d.order) && Holds(cfg, d, before, project)
      requires IsDir(cache, []) && IsDir(cache, [latest])
      modifies this`project, this`cache
      ensures Holds(cfg, d, before, project)
      ensures forall version :: IsDir(cache, [version]) <==> version == latest
    {
      ghost var after := project;
      var removed := CollectGarbage(latest, t.snapshots, t.time);
      StillHolds(cfg, d, before, after, removed);
    }

    /** Run one deployment. */
    method Deploy(o: Outside, version: string) returns (r: Pipeline.Outcome<()>, ghost d: Option<Delivered>)
      requires Valid()
      modifies this`project, this`cache, this`runs
      ensures Valid()
      ensures |runs| == |old(runs)| + 1 && runs[..|old(runs)|] == old(runs)
      ensures runs[|old(runs)|].version == version && !runs[|old(runs)|].recorded
      ensures r.Success? <==> runs[|old(runs)|].end == Succeeded
      ensures r.Success? ==> IsDir(cache, []) && IsDir(cache, [version])
      ensures r.Success? ==> d.Some?
      ensures d.Some? ==> Leaves(o, prim, trusted, credentials, version, cfg, d.value, old(project), project)
    {
      var ran, end, delivered := RunIn(o, version);
      r, d := ran, delivered;
      runs := runs + [RunLog(version, end, false)];
      assert runs[..|runs| - 1] == old(runs);
    }

    /** The run itself, in this version's directory of the cache. */
    method RunIn(o: Outside, version: string)
      returns (r: Pipeline.Outcome<()>, ghost end: State, ghost d: Option<Delivered>)
      modifies this`project, this`cache
      ensures r.Success? <==> end == Succeeded
      ensures r.Success? ==> IsDir(cache, []) && IsDir(cache, [version])
      ensures r.Success? ==> d.Some?
      ensures d.Some? ==> Leaves(o, prim, trusted, credentials, version, cfg, d.value, old(project), project)
    {
      var driver := new D.Driver(cfg, project);
      var runner := new DeploymentRunner(o, prim, credentials, version, trusted, driver, Sub(cache, [version]));
      ghost var raw, order;
      r, raw, order := runner.Run();
      project := driver.tree;
      WorkdirAt(cache, version, runner.workdir);
      cache := Graft(cache, [version], runner.workdir);
      if IsDir(runner.workdir, []) {
        cache := WithRoot(cache);
      }
      end, d := runner.state, None;
      if r.Success? {
        d := Some(Delivered(raw, driver.cfg.extracted, runner.manifest.value, runner.installPlan.value, order));
        RanHolds(o, cfg, d.value, old(project));
      }
    }

    /** `_collect_garbage`, apart from the restarts. */
    method CollectGarbage(latest: string, snapshots: seq<string>, time: string -> int) returns (removed: seq<string>)
      modifies this`project, this`cache
      ensures IsDir(old(cache), []) ==> cache == KeepVersions(old(cache), {latest})
      ensures !IsDir(old(cache), []) ==> cache == old(cache)
      ensures IsDir(cache, []) ==>
        forall version :: IsDir(cache, [version]) <==> version == latest && IsDir(old(cache), [version])
      ensures project == RemoveAll(old(project), removed)
    {
      var gc := new GarbageCollector(keepSnapshots, project, Some(cache));
      removed := gc.CollectSnapshots(snapshots, time);
      project := gc.tree;
      var versions := ListVersions(cache);
      OnlyKeptVersions(cache, {latest});
      var _ := gc.CollectCache(versions, {latest});
      cache := gc.cache.value;
    }

    /** `watch_forever` for as many ticks as are given: a tick that raises does not end it. */
    method Watch(ticks: seq<Inputs>)
      requires Valid()
      modifies this`project, this`cache, this`installed, this`runs
      ensures Valid()
      ensures installed == start || (installed.Some? && exists i :: SucceededAt(runs, i, installed.value))
    {
      for k := 0 to |ticks|
        invariant Valid()
      {
        var _, _ := CheckOnce(ticks[k]);
      }
      RecordNamesSuccess(start, runs);
    }
  }

  lemma WorkdirAt(cache: Tree, version: string, workdir: Tree)
    ensures IsDir(workdir, []) ==> IsDir(WithRoot(Graft(cache, [version], workdir)), [version])
  {
    GraftAt(cache, [version], workdir, [version]);
    assert [version][|[version]|..] == [];
  }

  /** What a run that returned has left at every item. */
  lemma RanHolds(o: Outside, cfg: D.Config, d: Delivered, before: Tree)
    requires IsExecutionOrder(d.plan.steps, d.order)
    requires Ran(o, ToldBy(cfg, d), before, InOrder(d.plan.steps, d.order)).1
    ensures Holds(cfg, d, before, Left(o, ToldBy(cfg, d), before, InOrder(d.plan.steps, d.order)))
  {
    var steps, told := InOrder(d.plan.steps, d.order), ToldBy(cfg, d);
    if U.SeparateLayout(d.manifest.pluginsDirname) && U.ProperSteps(steps) && U.Rooted(before, d.manifest.pluginsDirname) {
      forall kind, id | U.ProperItem(kind, id) ensures R.InstalledBy(steps, before, Left(o, told, before, steps), told, kind, id) {
        SucceededInstalls(o, told, before, steps, kind, id);
      }
    }
  }

  /** Removing snapshots changes no item. */
  lemma {:induction false} SnapshotsAside(tree: Tree, removed: seq<string>, dirname: Path, kind: D.Kind, id: string)
    requires U.SeparateLayout(dirname)
    ensures Sub(RemoveAll(tree, removed), D.Target(dirname, kind, id)) == Sub(tree, D.Target(dirname, kind, id))
  {
    if removed != [] {
      var n := |removed| - 1;
      var saved := D.SNAPSHOTS + [removed[n]];
      SnapshotsAside(tree, removed[..n], dirname, kind, id);
      assert saved[0] == ".snapshots";
      U.TargetNotSaved(dirname, kind, id, saved);
      U.RemoveLocal(RemoveAll(tree, removed[..n]), saved);
      U.LocalElsewhere(RemoveAll(tree, removed[..n]), RemoveAll(tree, removed), saved, D.Target(dirname, kind, id));
    }
  }

  lemma StillHolds(cfg: D.Config, d: Delivered, before: Tree, after: Tree, removed: seq<string>)
    requires IsExecutionOrder(d.plan.steps, d.order) && Holds(cfg, d, before, after)
    ensures Holds(cfg, d, before, RemoveAll(after, removed))
  {
    var collected := RemoveAll(after, removed);
    var steps, dirname := InOrder(d.plan.steps, d.order), d.manifest.pluginsDirname;
    if U.SeparateLayout(dirname) && U.ProperSteps(steps) && U.Rooted(before, dirname) {
      forall kind, id | U.ProperItem(kind, id) ensures R.InstalledBy(steps, before, collected, ToldBy(cfg, d), kind, id) {
        SnapshotsAside(after, removed, dirname, kind, id);
        assert R.InstalledBy(steps, before, after, ToldBy(cfg, d), kind, id);
      }
    }
  }

  /** `iterdir`, in some order. */
  method ListVersions(cache: Tree) returns (names: seq<string>)
    ensures forall name :: IsDir(cache, [name]) ==> name in names
  {
    names := [];
    var todo := cache.Keys;
    while todo != {}
      invariant todo <= cache.Keys
      invariant forall name :: IsDir(cache, [name]) ==> name in names || [name] in todo
      decreases todo
    {
      var p :| p in todo;
      todo := todo - {p};
      if |p| == 1 {
        names := names + [p[0]];
      }
    }
  }
}
