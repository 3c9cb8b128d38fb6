/** What an installation that completes leaves on the host. */
module InstallResult {
  import opened Wrappers
  import opened FileTree
  import opened InstallSchema
  import opened Manifest
  import opened EnvFile
  import opened SnapshotNames
  import opened InstallDriver
  import opened InstallUndo

  /** The artifact's directory for this item; for a plugin as signing makes it, if there is a
      key, and nothing if signing raises. */
  function Shipped(cfg: Config, kind: Kind, id: string): Option<Tree> {
    var content := Sub(cfg.extracted, Target(cfg.pluginsDirname, kind, id));
    if kind.Extension? || cfg.sign.None? then Some(content)
    else
      var signed := cfg.sign.value(id, content);
      if signed.None? then None else Some(signed.value)
  }

  /** Exactly what the artifact ships is at the item's directory: nothing of what was there
      before is left. */
  predicate HoldsShipped(tree: Tree, cfg: Config, kind: Kind, id: string) {
    var shipped := Shipped(cfg, kind, id);
    shipped.Some? && Sub(tree, Target(cfg.pluginsDirname, kind, id)) == shipped.value
  }

  /** An item that does not exist has no content. */
  predicate RootedAt(tree: Tree, target: Path) { target !in tree ==> Sub(tree, target) == map[] }

  lemma PlacedShipped(tree: Tree, cfg: Config, kind: Kind, id: string, w: Weather)
    requires IsDir(cfg.extracted, Target(cfg.pluginsDirname, kind, id)) && RootedAt(tree, Target(cfg.pluginsDirname, kind, id))
    requires Placement(tree, cfg, kind, id, w).1
    ensures HoldsShipped(Placement(tree, cfg, kind, id, w).0, cfg, kind, id)
  {
    var target := Target(cfg.pluginsDirname, kind, id);
    var copied := ReplaceTree(tree, cfg.extracted, target, target, w).0;
    ReplaceEffect(tree, cfg.extracted, target, target, w);
    if kind.Plugin? && cfg.sign.Some? {
      SubOfGraft(copied, target, cfg.sign.value(id, Sub(copied, target)).value);
    }
  }

  lemma InstalledShipped(h: Host, cfg: Config, step: Step, kind: Kind, id: string, w: Weather)
    requires SeparateLayout(cfg.pluginsDirname) && Rooted(h.tree, cfg.pluginsDirname) && ProperItem(kind, id)
    requires InstallItem(h, cfg, step, kind, id, w).1
    ensures HoldsShipped(InstallItem(h, cfg, step, kind, id, w).0.tree, cfg, kind, id)
  {
    var (noted, _) := if step.snapshot then TakeSnapshot(h, cfg.pluginsDirname, step.id, id, kind, w) else (h, true);
    if step.snapshot { SnapshotEffect(h, cfg.pluginsDirname, step.id, id, kind, w); }
    assert RootedAt(noted.tree, Target(cfg.pluginsDirname, kind, id));
    PlacedShipped(noted.tree, cfg, kind, id, w);
  }

  lemma StepShips(h: Host, cfg: Config, step: Step, w: Weather, kind: Kind, id: string)
    requires SeparateLayout(cfg.pluginsDirname) && Rooted(h.tree, cfg.pluginsDirname) && ProperItem(kind, id)
    requires Touches(step, kind, id) && RunStep(h, cfg, step, w).1
    ensures HoldsShipped(RunStep(h, cfg, step, w).0.tree, cfg, kind, id)
  {
    InstalledShipped(h, cfg, step, kind, id, w);
  }

  /** The item holds what the artifact ships if one of the steps installs it, and what it
      held before otherwise. */
  ghost predicate InstalledBy(steps: seq<Step>, before: Tree, after: Tree, cfg: Config, kind: Kind, id: string) {
    && (Touched(steps, kind, id) ==> HoldsShipped(after, cfg, kind, id))
    && (!Touched(steps, kind, id) ==>
          Sub(after, Target(cfg.pluginsDirname, kind, id)) == Sub(before, Target(cfg.pluginsDirname, kind, id)))
  }

  lemma OneMoreStep(h: Host, cfg: Config, steps: seq<Step>, step: Step, w: Weather, before: Tree, kind: Kind, id: string)
    requires SeparateLayout(cfg.pluginsDirname) && Rooted(h.tree, cfg.pluginsDirname)
    requires ProperSteps([step]) && ProperItem(kind, id) && RunStep(h, cfg, step, w).1
    requires InstalledBy(steps, before, h.tree, cfg, kind, id)
    ensures InstalledBy(steps + [step], before, RunStep(h, cfg, step, w).0.tree, cfg, kind, id)
  {
    TouchedOneMore(steps, step, kind, id);
    if Touches(step, kind, id) {
      StepShips(h, cfg, step, w, kind, id);
    } else {
      StepLeavesAlone(h, cfg, step, w, kind, id);
    }
  }

  lemma StepLeavesAlone(h: Host, cfg: Config, step: Step, w: Weather, kind: Kind, id: string)
    requires SeparateLayout(cfg.pluginsDirname) && Rooted(h.tree, cfg.pluginsDirname)
    requires ProperSteps([step]) && ProperItem(kind, id) && !Touches(step, kind, id)
    ensures Sub(RunStep(h, cfg, step, w).0.tree, Target(cfg.pluginsDirname, kind, id)) ==
            Sub(h.tree, Target(cfg.pluginsDirname, kind, id))
  {
    RunStepEffect(h, cfg, step, w);
  }

  lemma PrefixIsRooted(h0: Host, cfg: Config, steps: seq<Step>, ws: seq<Weather>)
    requires |steps| == |ws| && SeparateLayout(cfg.pluginsDirname) && ProperSteps(steps)
    requires Rooted(h0.tree, cfg.pluginsDirname) && Recorded(h0)
    ensures Rooted(RunSteps(h0, cfg, steps, ws).0.tree, cfg.pluginsDirname)
  {
    RunStepsEffect(h0, cfg, steps, ws);
  }

  lemma LastStepInstalls(h0: Host, cfg: Config, steps: seq<Step>, ws: seq<Weather>, kind: Kind, id: string)
    requires |steps| == |ws| > 0 && SeparateLayout(cfg.pluginsDirname) && ProperSteps(steps) && ProperItem(kind, id)
    requires Rooted(h0.tree, cfg.pluginsDirname) && Recorded(h0) && RunSteps(h0, cfg, steps, ws).1
    requires
      var n := |steps| - 1;
      InstalledBy(steps[..n], h0.tree, RunSteps(h0, cfg, steps[..n], ws[..n]).0.tree, cfg, kind, id)
    ensures InstalledBy(steps, h0.tree, RunSteps(h0, cfg, steps, ws).0.tree, cfg, kind, id)
  {
    var n := |steps| - 1;
    assert ProperSteps(steps[..n]) && ProperSteps([steps[n]]);
    PrefixIsRooted(h0, cfg, steps[..n], ws[..n]);
    OneMoreStep(RunSteps(h0, cfg, steps[..n], ws[..n]).0, cfg, steps[..n], steps[n], ws[n], h0.tree, kind, id);
    assert steps == steps[..n] + [steps[n]];
  }

  lemma PrefixCompletes(h0: Host, cfg: Config, steps: seq<Step>, ws: seq<Weather>)
    requires |steps| == |ws| > 0 && RunSteps(h0, cfg, steps, ws).1
    ensures RunSteps(h0, cfg, steps[..|steps| - 1], ws[..|ws| - 1]).1
  {
  }

  /** A run that completes leaves at every item it installs exactly what the artifact ships,
      and leaves every other item alone. */
  lemma {:induction false} CompletedRunInstalls(h0: Host, cfg: Config, steps: seq<Step>, ws: seq<Weather>,
      kind: Kind, id: string)
    requires |steps| == |ws| && SeparateLayout(cfg.pluginsDirname) && ProperSteps(steps) && ProperItem(kind, id)
    requires Rooted(h0.tree, cfg.pluginsDirname) && Recorded(h0) && RunSteps(h0, cfg, steps, ws).1
    ensures InstalledBy(steps, h0.tree, RunSteps(h0, cfg, steps, ws).0.tree, cfg, kind, id)
    decreases |steps|
  {
    if steps != [] {
      PrefixCompletes(h0, cfg, steps, ws);
      CompletedRunInstalls(h0, cfg, steps[..|steps| - 1], ws[..|ws| - 1], kind, id);
      LastStepInstalls(h0, cfg, steps, ws, kind, id);
    }
  }

  /** The snapshot of what is there can be taken under its name. */
  predicate CanSnapshot(tree: Tree, saved: Path) { !IsFile(tree, SNAPSHOTS) && saved !in tree }

  /** A step that meets no error installs exactly if the artifact has the item's directory,
      which can be signed where it has to be, no file is in its way, and what is there
      before can be saved. */
  lemma InstallSucceedsExactly(h: Host, cfg: Config, step: Step, kind: Kind, id: string, now: nat)
    requires SeparateLayout(cfg.pluginsDirname) && ProperItem(kind, id) && Rooted(h.tree, cfg.pluginsDirname)
    ensures
      var target := Target(cfg.pluginsDirname, kind, id);
      InstallItem(h, cfg, step, kind, id, Weather(NoFault, now)).1 <==>
        && IsDir(cfg.extracted, target) && Shipped(cfg, kind, id).Some?
        && Unobstructed(h.tree, target)
        && (step.snapshot && target in h.tree ==> CanSnapshot(h.tree, SavedPath(step.id, id, now)))
  {
    var dirname, w := cfg.pluginsDirname, Weather(NoFault, now);
    var target := Target(dirname, kind, id);
    if IsDir(cfg.extracted, target) {
      var (noted, taken) := if step.snapshot then TakeSnapshot(h, dirname, step.id, id, kind, w) else (h, true);
      if step.snapshot {
        SnapshotSucceedsExactly(h, dirname, step.id, id, kind, w);
        SnapshotEffect(h, dirname, step.id, id, kind, w);
        SnapshotKeepsTarget(h, dirname, step.id, id, kind, w);
      }
      assert RootedAt(noted.tree, target);
      PlacementSucceeds(noted.tree, cfg, kind, id, w);
    }
  }

  lemma SnapshotSucceedsExactly(h: Host, dirname: Path, stepId: string, id: string, kind: Kind, w: Weather)
    requires w.fault.NoFault?
    ensures
      var target := Target(dirname, kind, id);
      TakeSnapshot(h, dirname, stepId, id, kind, w).1 <==>
        (target in h.tree ==> CanSnapshot(h.tree, SavedPath(stepId, id, w.now)) && !IsFile(WithSnapshotsDir(h.tree), target))
  {
    var saved := SavedPath(stepId, id, w.now);
    assert |saved| == 2 && saved != SNAPSHOTS;
  }

  lemma SnapshotKeepsTarget(h: Host, dirname: Path, stepId: string, id: string, kind: Kind, w: Weather)
    requires SeparateLayout(dirname)
    ensures
      var noted, target := TakeSnapshot(h, dirname, stepId, id, kind, w).0, Target(dirname, kind, id);
      && (Unobstructed(noted.tree, target) <==> Unobstructed(h.tree, target))
      && (IsFile(WithSnapshotsDir(h.tree), target) <==> IsFile(h.tree, target))
  {
    var target, saved := Target(dirname, kind, id), SavedPath(stepId, id, w.now);
    var noted := TakeSnapshot(h, dirname, stepId, id, kind, w).0;
    TargetNotSaved(dirname, kind, id, saved);
    TargetNotSaved(dirname, kind, id, SNAPSHOTS);
    SnapshotIsLocal(h, dirname, stepId, id, kind, w);
    LocalElsewhere(h.tree, noted.tree, saved, target);
    LocalKeepsParents(h.tree, noted.tree, saved, target);
  }

  lemma PlacementSucceeds(tree: Tree, cfg: Config, kind: Kind, id: string, w: Weather)
    requires w.fault.NoFault?
    requires IsDir(cfg.extracted, Target(cfg.pluginsDirname, kind, id)) && RootedAt(tree, Target(cfg.pluginsDirname, kind, id))
    ensures Placement(tree, cfg, kind, id, w).1 <==>
              Unobstructed(tree, Target(cfg.pluginsDirname, kind, id)) && Shipped(cfg, kind, id).Some?
  {
    var target := Target(cfg.pluginsDirname, kind, id);
    ReplaceSucceeds(tree, cfg.extracted, target, w);
    ReplaceEffect(tree, cfg.extracted, target, target, w);
  }

  lemma ReplaceSucceeds(tree: Tree, extracted: Tree, target: Path, w: Weather)
    requires w.fault.NoFault?
    ensures ReplaceTree(tree, extracted, target, target, w).1 <==> Unobstructed(tree, target)
  {
    RemoveLocal(tree, target);
    LocalKeepsParents(tree, Remove(tree, target), target, target);
  }

  // ---------------------------------------------------------------- which steps can stop a run

  /** A run that completes has run every step, each on what the ones before it left. */
  lemma {:induction false} EveryStepRan(h0: Host, cfg: Config, steps: seq<Step>, ws: seq<Weather>, i: nat)
    requires |steps| == |ws| && i < |steps| && RunSteps(h0, cfg, steps, ws).1
    ensures RunSteps(h0, cfg, steps[..i], ws[..i]).1
    ensures RunStep(RunSteps(h0, cfg, steps[..i], ws[..i]).0, cfg, steps[i], ws[i]).1
    decreases |steps|
  {
    var n := |steps| - 1;
    if i < n {
      assert steps[..n][..i] == steps[..i] && ws[..n][..i] == ws[..i];
      EveryStepRan(h0, cfg, steps[..n], ws[..n], i);
    }
  }

  /** In a run that completes, the project directory could be made, and no provisioner, no
      start, stop or restart and no healthcheck has raised. */
  lemma CompletedRunMeansNoCallFailed(h0: Host, cfg: Config, steps: seq<Step>, ws: seq<Weather>, i: nat)
    requires |steps| == |ws| && i < |steps| && RunSteps(h0, cfg, steps, ws).1
    ensures
      match steps[i].action
      case Prepare => ws[i].fault != CallFails
      case Provision(_) => ws[i].fault != CallFails
      case Start => ws[i].fault != CallFails
      case Stop => ws[i].fault != CallFails
      case Restart => ws[i].fault != CallFails
      case Healthcheck(_, _) => ws[i].fault != CallFails
      case _ => true
  {
    EveryStepRan(h0, cfg, steps, ws, i);
  }

  /** A run stops at one of its steps, and that is none of those that do nothing here. */
  lemma {:induction false} StopsSomewhere(h0: Host, cfg: Config, steps: seq<Step>, ws: seq<Weather>) returns (i: nat)
    requires |steps| == |ws| && !RunSteps(h0, cfg, steps, ws).1
    ensures i < |steps| && RunSteps(h0, cfg, steps[..i], ws[..i]).1
    ensures !RunStep(RunSteps(h0, cfg, steps[..i], ws[..i]).0, cfg, steps[i], ws[i]).1
    ensures
      match steps[i].action
      case Notify(_) => false
      case ConfigurePlugin(_) => false
      case Download => false
      case Extract => false
      case Rollback => false
      case InstallPlugin(_, _) => true
      case InstallExtension(_, _) => true
      case WriteEnv(_, _) => true
      case _ => ws[i].fault == CallFails
    decreases |steps|
  {
    var n := |steps| - 1;
    if RunSteps(h0, cfg, steps[..n], ws[..n]).1 {
      i := n;
    } else {
      i := StopsSomewhere(h0, cfg, steps[..n], ws[..n]);
      assert steps[..n][..i] == steps[..i] && ws[..n][..i] == ws[..i];
    }
  }

  /** An env file that is there is never written, and passes exactly if the manifest names
      the plugin with no required key, or every required key has a value in the file. */
  lemma ExistingEnvFileIsChecked(h: Host, cfg: Config, step: Step, w: Weather, plugin: string, ref: PluginRef)
    requires step.action.WriteEnv? && step.action.plugin == plugin
    requires cfg.plugins.Some? && FindPlugin(cfg.plugins.value, plugin) == Some(ref)
    requires cfg.pluginsDirname + [plugin + ".env"] in h.tree
    ensures
      var file := cfg.pluginsDirname + [plugin + ".env"];
      && RunStep(h, cfg, step, w).0 == h
      && (RunStep(h, cfg, step, w).1 <==>
            || ref.required == []
            || (IsFile(h.tree, file) &&
                forall key :: key in ref.required ==>
                  key in ParseText(h.tree[file].data) && ParseText(h.tree[file].data)[key] != ""))
  {
  }

  /** Without a manifest, or for a plugin that it does not name, nothing is required. */
  lemma UnlistedPluginPasses(h: Host, cfg: Config, step: Step, w: Weather, plugin: string)
    requires step.action.WriteEnv? && step.action.plugin == plugin && cfg.pluginsDirname + [plugin + ".env"] in h.tree
    requires cfg.plugins.None? || forall i :: 0 <= i < |cfg.plugins.value| ==> cfg.plugins.value[i].id != plugin
    ensures RunStep(h, cfg, step, w) == (h, true)
  {
  }

  /** A new env file is the template of the artifact, seeded; without one the step fails. */
  lemma NewEnvFileIsSeeded(h: Host, cfg: Config, step: Step, w: Weather, plugin: string, from: string)
    requires step.action == WriteEnv(plugin, from) && cfg.pluginsDirname + [plugin + ".env"] !in h.tree
    ensures
      var file := cfg.pluginsDirname + [plugin + ".env"];
      var (after, ok) := RunStep(h, cfg, step, w);
      && (!IsFile(cfg.extracted, PathOf(from)) ==> !ok && after == h)
      && (ok ==>
            && IsFile(after.tree, file) && after.records == h.records
            && after.tree[file].data == SeedText(cfg.extracted[PathOf(from)].data, cfg.osEnvironment)
            && forall k :: 0 <= k < |file| ==> IsDir(after.tree, file[..k]))
  {
    var file := cfg.pluginsDirname + [plugin + ".env"];
    assert PluginEnvFile(cfg.pluginsDirname, plugin) == file;
    forall k | 0 <= k < |file| ensures !ParentsBlocked(h.tree, file) ==> IsDir(WithParents(h.tree, file), file[..k]) {
      WithParentsAt(h.tree, file, file[..k]);
    }
  }

  /** A snapshot of what is there lies in `.snapshots`, under the names of the step and the
      item and the time, and that directory is there as well. */
  lemma SnapshotIsFiled(h: Host, dirname: Path, stepId: string, id: string, kind: Kind, w: Weather)
    requires SeparateLayout(dirname) && Target(dirname, kind, id) in h.tree
    requires TakeSnapshot(h, dirname, stepId, id, kind, w).1
    ensures
      var after := TakeSnapshot(h, dirname, stepId, id, kind, w).0;
      var saved := [".snapshots", SnapshotName(stepId, id, w.now)];
      && IsDir(after.tree, [".snapshots"]) && saved !in h.tree
      && Sub(after.tree, saved) == Sub(h.tree, Target(dirname, kind, id))
      && after.records == h.records + [SnapshotRecord(stepId, id, Some(saved), kind)]
  {
    var target := Target(dirname, kind, id);
    var saved := SavedPath(stepId, id, w.now);
    assert saved == [".snapshots", SnapshotName(stepId, id, w.now)] && SNAPSHOTS == [".snapshots"];
    TargetNotSaved(dirname, kind, id, SNAPSHOTS);
    SnapshotSucceeds(h, dirname, stepId, id, kind, w);
    MakingSnapshotsDir(h.tree, target);
    SubOfGraft(WithSnapshotsDir(h.tree), saved, Sub(WithSnapshotsDir(h.tree), target));
    GraftAt(WithSnapshotsDir(h.tree), saved, Sub(WithSnapshotsDir(h.tree), target), SNAPSHOTS);
  }

  /** Above an item that was installed there are directories. */
  lemma InstalledHasParents(h: Host, cfg: Config, step: Step, kind: Kind, id: string, w: Weather, k: nat)
    requires SeparateLayout(cfg.pluginsDirname) && InstallItem(h, cfg, step, kind, id, w).1
    requires k < |Target(cfg.pluginsDirname, kind, id)|
    ensures IsDir(InstallItem(h, cfg, step, kind, id, w).0.tree, Target(cfg.pluginsDirname, kind, id)[..k])
  {
    var target := Target(cfg.pluginsDirname, kind, id);
    var (noted, _) := if step.snapshot then TakeSnapshot(h, cfg.pluginsDirname, step.id, id, kind, w) else (h, true);
    PlacedHasParents(noted.tree, cfg, kind, id, w, k);
  }

  lemma ReplacedHasParents(tree: Tree, extracted: Tree, target: Path, w: Weather, k: nat)
    requires ReplaceTree(tree, extracted, target, target, w).1 && k < |target|
    ensures IsDir(ReplaceTree(tree, extracted, target, target, w).0, target[..k])
  {
    var cleared := Remove(tree, target);
    WithParentsAt(cleared, target, target[..k]);
    assert !IsFile(cleared, target[..k]);
    GraftAt(WithParents(cleared, target), target, Sub(extracted, target), target[..k]);
  }

  lemma SigningKeepsParents(tree: Tree, target: Path, id: string, cfg: Config, w: Weather, k: nat)
    requires k < |target| && IsDir(tree, target[..k])
    ensures IsDir(SignTarget(tree, target, id, cfg, w).0, target[..k])
  {
    if cfg.sign.Some? && w.fault.SignFails? {
      GraftAt(tree, target, w.fault.left, target[..k]);
    } else if cfg.sign.Some? && cfg.sign.value(id, Sub(tree, target)).Some? {
      GraftAt(tree, target, cfg.sign.value(id, Sub(tree, target)).value, target[..k]);
    }
  }

  lemma PlacedHasParents(tree: Tree, cfg: Config, kind: Kind, id: string, w: Weather, k: nat)
    requires Placement(tree, cfg, kind, id, w).1 && k < |Target(cfg.pluginsDirname, kind, id)|
    ensures IsDir(Placement(tree, cfg, kind, id, w).0, Target(cfg.pluginsDirname, kind, id)[..k])
  {
    var target := Target(cfg.pluginsDirname, kind, id);
    ReplacedHasParents(tree, cfg.extracted, target, w, k);
    SigningKeepsParents(ReplaceTree(tree, cfg.extracted, target, target, w).0, target, id, cfg, w, k);
  }
}
