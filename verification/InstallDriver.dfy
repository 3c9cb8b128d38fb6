/** Executing plan steps on a host, with snapshots and rollback. */
module InstallDriver {
  import opened Wrappers
  import opened FileTree
  import opened InstallSchema
  import opened Manifest
  import opened EnvFile
  import opened SnapshotNames

  datatype Kind = Plugin | Extension

  /** `savedPath` is absent when the target did not exist before the step. */
  datatype SnapshotRecord = SnapshotRecord(stepId: string, itemId: string, savedPath: Option<Path>, kind: Kind)

  /** What a call that copies or deletes a directory may leave there when it raises. */
  type Remains = t: Tree | t != map[] ==> IsDir(t, [])

  /** Everything the driver reads but never changes. `sign` takes the directory's name and
      content and returns the signed content, or nothing when signing raises. */
  datatype Config = Config(
    extracted: Tree,
    pluginsDirname: Path,
    plugins: Option<seq<PluginRef>>,
    sign: Option<(string, Tree) -> Option<Remains>>,
    osEnvironment: Environment)

  /** What the driver is told once the manifest is known. */
  function ForManifest(cfg: Config, plugins: seq<PluginRef>, dirname: Path): Config {
    cfg.(plugins := Some(plugins), pluginsDirname := dirname)
  }

  function FromExtracted(cfg: Config, extracted: Tree): Config { cfg.(extracted := extracted) }

  const SNAPSHOTS: Path := [".snapshots"]

  function Target(pluginsDirname: Path, kind: Kind, id: string): Path {
    match kind
    case Plugin => pluginsDirname + [id]
    case Extension => ["extensions", id]
  }

  function PluginEnvFile(pluginsDirname: Path, id: string): Path { pluginsDirname + [id + ".env"] }

  /** The project root on the host and the driver's undo log. */
  datatype Host = Host(tree: Tree, records: seq<SnapshotRecord>)

  /** Where an error strikes inside a step, and what it leaves behind. */
  datatype Fault =
    | NoFault
    | SnapshotFails(left: Remains)
    | DeleteFails(left: Remains)
    | ParentFails
    | CopyFails(left: Remains)
    | SignFails(left: Remains)
    | EnvWriteFails(written: Option<Bytes>)
    | CallFails

  /** What the outside world contributes to one step. */
  datatype Weather = Weather(fault: Fault, now: nat)

  // ---------------------------------------------------------------- what each operation does

  function SavedPath(stepId: string, itemId: string, now: nat): Path {
    SNAPSHOTS + [SnapshotName(stepId, itemId, now)]
  }

  function WithSnapshotsDir(tree: Tree): Tree { tree[SNAPSHOTS := Dir] }

  function CopyTree(tree: Tree, from: Path, to: Path): Tree { Graft(tree, to, Sub(tree, from)) }

  function TakeSnapshot(host: Host, dirname: Path, stepId: string, id: string, kind: Kind, w: Weather): (Host, bool) {
    var target := Target(dirname, kind, id);
    if target !in host.tree then
      (Host(host.tree, host.records + [SnapshotRecord(stepId, id, None, kind)]), true)
    else if IsFile(host.tree, SNAPSHOTS) then (host, false)
    else
      var tree := WithSnapshotsDir(host.tree);
      var saved := SavedPath(stepId, id, w.now);
      if tree[target].File? || saved in tree then (Host(tree, host.records), false)
      else if w.fault.SnapshotFails? then (Host(Graft(tree, saved, w.fault.left), host.records), false)
      else (Host(CopyTree(tree, target, saved),
                 host.records + [SnapshotRecord(stepId, id, Some(saved), kind)]), true)
  }

  /** Replace the target directory by the one at `source`. */
  function ReplaceTree(tree: Tree, extracted: Tree, source: Path, target: Path, w: Weather): (Tree, bool) {
    if target in tree && (tree[target].File? || w.fault.DeleteFails?) then
      (if w.fault.DeleteFails? && tree[target].Dir? then Graft(tree, target, w.fault.left) else tree, false)
    else
      var cleared := Remove(tree, target);
      if ParentsBlocked(cleared, target) || w.fault.ParentFails? then (cleared, false)
      else
        var ready := WithParents(cleared, target);
        if w.fault.CopyFails? then (Graft(ready, target, w.fault.left), false)
        else (Graft(ready, target, Sub(extracted, source)), true)
  }

  function SignTarget(tree: Tree, target: Path, id: string, cfg: Config, w: Weather): (Tree, bool) {
    if cfg.sign.None? then (tree, true)
    else if w.fault.SignFails? then (Graft(tree, target, w.fault.left), false)
    else
      var signed := cfg.sign.value(id, Sub(tree, target));
      if signed.None? then (tree, false) else (Graft(tree, target, signed.value), true)
  }

  /** After the snapshot: the copy, and for a plugin the signature. */
  function Placement(tree: Tree, cfg: Config, kind: Kind, id: string, w: Weather): (Tree, bool) {
    var target := Target(cfg.pluginsDirname, kind, id);
    var (copied, ok) := ReplaceTree(tree, cfg.extracted, target, target, w);
    if !ok || kind.Extension? then (copied, ok) else SignTarget(copied, target, id, cfg, w)
  }

  function InstallItem(host: Host, cfg: Config, step: Step, kind: Kind, id: string, w: Weather): (Host, bool) {
    var source := Target(cfg.pluginsDirname, kind, id);
    if !IsDir(cfg.extracted, source) then (host, false)
    else
      var (noted, taken) := if step.snapshot then TakeSnapshot(host, cfg.pluginsDirname, step.id, id, kind, w) else (host, true);
      if !taken then (noted, false)
      else
        var (placed, ok) := Placement(noted.tree, cfg, kind, id, w);
        (Host(placed, noted.records), ok)
  }

  /** A relative path as `pathlib` reads it. */
  function PathOf(text: string): Path
    decreases |text|
  {
    var i := IndexOf(text, '/');
    var head := if text[..i] == "" || text[..i] == "." then [] else [text[..i]];
    if i == |text| then head else head + PathOf(text[i + 1..])
  }

  predicate MissingNothing(cfg: Config, plugin: string, text: string) {
    cfg.plugins.None? ||
    var ref := FindPlugin(cfg.plugins.value, plugin);
    ref.None? ||
    forall key :: key in ref.value.required ==> key in ParseText(text) && ParseText(text)[key] != ""
  }

  /** Nothing is required of this plugin: the file is not even read. */
  predicate NothingRequired(cfg: Config, plugin: string) {
    cfg.plugins.None? ||
    var ref := FindPlugin(cfg.plugins.value, plugin);
    ref.None? || ref.value.required == []
  }

  function SeedEnv(tree: Tree, cfg: Config, plugin: string, from: string, w: Weather): (Tree, bool) {
    var target := PluginEnvFile(cfg.pluginsDirname, plugin);
    if target in tree then (tree, true)
    else if !IsFile(cfg.extracted, PathOf(from)) || ParentsBlocked(tree, target) || w.fault.ParentFails? then (tree, false)
    else
      var ready := WithParents(tree, target);
      if w.fault.EnvWriteFails? then
        (if w.fault.written.Some? then ready[target := File(w.fault.written.value)] else ready, false)
      else (ready[target := File(SeedText(cfg.extracted[PathOf(from)].data, cfg.osEnvironment))], true)
  }

  function WriteEnvFile(tree: Tree, cfg: Config, plugin: string, from: string, w: Weather): (Tree, bool) {
    var (seeded, ok) := SeedEnv(tree, cfg, plugin, from, w);
    var target := PluginEnvFile(cfg.pluginsDirname, plugin);
    if !ok then (seeded, false)
    else (seeded, NothingRequired(cfg, plugin) || (IsFile(seeded, target) && MissingNothing(cfg, plugin, seeded[target].data)))
  }

  /** One dispatched step. Steps without a branch here do nothing at this stage. */
  function RunStep(host: Host, cfg: Config, step: Step, w: Weather): (Host, bool) {
    match step.action
    case InstallPlugin(id, _) => InstallItem(host, cfg, step, Plugin, id, w)
    case InstallExtension(id, _) => InstallItem(host, cfg, step, Extension, id, w)
    case WriteEnv(plugin, from) =>
      var (tree, ok) := WriteEnvFile(host.tree, cfg, plugin, from, w);
      (Host(tree, host.records), ok)
    case Prepare => (host, !w.fault.CallFails?)
    case Provision(_) => (host, !w.fault.CallFails?)
    case Start => (host, !w.fault.CallFails?)
    case Stop => (host, !w.fault.CallFails?)
    case Restart => (host, !w.fault.CallFails?)
    case Healthcheck(_, _) => (host, !w.fault.CallFails?)
    case _ => (host, true)
  }

  /** The steps in order, up to the first one that raises. */
  function RunSteps(host: Host, cfg: Config, steps: seq<Step>, ws: seq<Weather>): (Host, bool)
    requires |steps| == |ws|
  {
    if steps == [] then (host, true)
    else
      var n := |steps| - 1;
      var (before, ok) := RunSteps(host, cfg, steps[..n], ws[..n]);
      if !ok then (before, false) else RunStep(before, cfg, steps[n], ws[n])
  }

  // ---------------------------------------------------------------- undoing

  function RecordTarget(dirname: Path, record: SnapshotRecord): Path {
    Target(dirname, record.kind, record.itemId)
  }

  function CopyBack(tree: Tree, saved: Path, target: Path): Tree {
    Graft(WithParents(tree, target), target, Sub(tree, saved))
  }

  /** Undo one record, or raise and leave `left` at its target. */
  function UndoRecord(tree: Tree, dirname: Path, record: SnapshotRecord, fault: Option<Remains>): (Tree, bool) {
    var target := RecordTarget(dirname, record);
    if IsFile(tree, target) then (tree, false)
    else if fault.Some? then (Graft(tree, target, fault.value), false)
    else
      var cleared := Remove(tree, target);
      if record.savedPath.None? || record.savedPath.value !in cleared then (cleared, true)
      else if IsFile(cleared, record.savedPath.value) || ParentsBlocked(cleared, target) then (cleared, false)
      else (CopyBack(cleared, record.savedPath.value, target), true)
  }

  /** Undoing the record with this number raises. */
  datatype RollbackFault = Smooth | StuckAt(index: nat, left: Remains)

  function FaultAt(fault: RollbackFault, index: nat): Option<Remains> {
    if fault.StuckAt? && fault.index == index then Some(fault.left) else None
  }

  /** Undo the records from the last one back, stopping at one made by step `stop`. */
  function RollBack(tree: Tree, dirname: Path, records: seq<SnapshotRecord>, stop: Option<string>, fault: RollbackFault)
    : (Tree, bool)
    decreases |records|
  {
    if records == [] then (tree, true)
    else
      var n := |records| - 1;
      if stop == Some(records[n].stepId) then (tree, true)
      else
        var undone := UndoRecord(tree, dirname, records[n], FaultAt(fault, n));
        if !undone.1 then undone else RollBack(undone.0, dirname, records[..n], stop, fault)
  }

  // ---------------------------------------------------------------- the driver

  /** Every method returns false where the original raises. */
  class Driver {
    var cfg: Config
    var tree: Tree
    var snapshots: seq<SnapshotRecord>

    constructor (cfg: Config, tree: Tree)
      ensures this.cfg == cfg && this.tree == tree && snapshots == []
    {
      this.cfg := cfg;
      this.tree := tree;
      snapshots := [];
    }

    function State(): Host
      reads this
    {
      Host(tree, snapshots)
    }

    /** `snapshot_before`. */
    method SnapshotBefore(stepId: string, id: string, kind: Kind, w: Weather) returns (ok: bool)
      modifies this`tree, this`snapshots
      ensures (State(), ok) == TakeSnapshot(old(State()), cfg.pluginsDirname, stepId, id, kind, w)
    {
      var target := Target(cfg.pluginsDirname, kind, id);
      if target !in tree {
        snapshots := snapshots + [SnapshotRecord(stepId, id, None, kind)];
        return true;
      }
      if IsFile(tree, SNAPSHOTS) {
        return false;
      }
      tree := WithSnapshotsDir(tree);
      var saved := SavedPath(stepId, id, w.now);
      if tree[target].File? || saved in tree {
        return false;
      }
      if w.fault.SnapshotFails? {
        tree := Graft(tree, saved, w.fault.left);
        return false;
      }
      tree := CopyTree(tree, target, saved);
      snapshots := snapshots + [SnapshotRecord(stepId, id, Some(saved), kind)];
      ok := true;
    }

    /** `rollback`. */
    method Rollback(stop: Option<string>, fault: RollbackFault) returns (ok: bool)
      modifies this`tree
      ensures (tree, ok) == RollBack(old(tree), cfg.pluginsDirname, snapshots, stop, fault)
    {
      var i := |snapshots|;
      assert snapshots[..i] == snapshots;
      while i > 0
        invariant 0 <= i <= |snapshots|
        invariant RollBack(tree, cfg.pluginsDirname, snapshots[..i], stop, fault) ==
                  RollBack(old(tree), cfg.pluginsDirname, snapshots, stop, fault)
      {
        i := i - 1;
        var record := snapshots[i];
        assert snapshots[..i + 1][..i] == snapshots[..i];
        if stop == Some(record.stepId) {
          break;
        }
        ok := Undo(record, FaultAt(fault, i));
        if !ok { return; }
      }
      ok := true;
    }

    /** The body of its loop. */
    method Undo(record: SnapshotRecord, stuck: Option<Remains>) returns (ok: bool)
      modifies this`tree
      ensures (tree, ok) == UndoRecord(old(tree), cfg.pluginsDirname, record, stuck)
    {
      var target := RecordTarget(cfg.pluginsDirname, record);
      if IsFile(tree, target) {
        return false;
      }
      if stuck.Some? {
        tree := Graft(tree, target, stuck.value);
        return false;
      }
      tree := Remove(tree, target);
      if record.savedPath.Some? && record.savedPath.value in tree {
        if IsFile(tree, record.savedPath.value) || ParentsBlocked(tree, target) {
          return false;
        }
        tree := CopyBack(tree, record.savedPath.value, target);
      }
      ok := true;
    }

    /** `install_plugin`, with the signature that follows the copy. */
    method InstallPlugin(step: Step, id: string, w: Weather) returns (ok: bool)
      modifies this`tree, this`snapshots
      ensures (State(), ok) == InstallItem(old(State()), cfg, step, Plugin, id, w)
    {
      var target := Target(cfg.pluginsDirname, Plugin, id);
      if !IsDir(cfg.extracted, target) {
        return false;
      }
      if step.snapshot {
        ok := SnapshotBefore(step.id, id, Plugin, w);
        if !ok { return; }
      }
      ok := Replace(target, target, w);
      if !ok || cfg.sign.None? {
        return;
      }
      if w.fault.SignFails? {
        tree := Graft(tree, target, w.fault.left);
        return false;
      }
      var signed := cfg.sign.value(id, Sub(tree, target));
      if signed.None? {
        return false;
      }
      tree := Graft(tree, target, signed.value);
    }

    /** `install_extension`. */
    method InstallExtension(step: Step, id: string, w: Weather) returns (ok: bool)
      modifies this`tree, this`snapshots
      ensures (State(), ok) == InstallItem(old(State()), cfg, step, Extension, id, w)
    {
      var target := Target(cfg.pluginsDirname, Extension, id);
      if !IsDir(cfg.extracted, target) {
        return false;
      }
      if step.snapshot {
        ok := SnapshotBefore(step.id, id, Extension, w);
        if !ok { return; }
      }
      ok := Replace(target, target, w);
    }

    /** Delete the target if it exists, then copy the source there. */
    method Replace(source: Path, target: Path, w: Weather) returns (ok: bool)
      modifies this`tree
      ensures (tree, ok) == ReplaceTree(old(tree), cfg.extracted, source, target, w)
    {
      if target in tree {
        if tree[target].File? {
          return false;
        }
        if w.fault.DeleteFails? {
          tree := Graft(tree, target, w.fault.left);
          return false;
        }
      }
      tree := Remove(tree, target);
      if ParentsBlocked(tree, target) || w.fault.ParentFails? {
        return false;
      }
      tree := WithParents(tree, target);
      if w.fault.CopyFails? {
        tree := Graft(tree, target, w.fault.left);
        return false;
      }
      tree := Graft(tree, target, Sub(cfg.extracted, source));
      ok := true;
    }

    /** `write_env` with `_check_required_env`: an existing file is never overwritten. */
    method WriteEnv(plugin: string, from: string, w: Weather) returns (ok: bool)
      modifies this`tree
      ensures (tree, ok) == WriteEnvFile(old(tree), cfg, plugin, from, w)
    {
      var target := PluginEnvFile(cfg.pluginsDirname, plugin);
      if target !in tree {
        var template := PathOf(from);
        if !IsFile(cfg.extracted, template) || ParentsBlocked(tree, target) || w.fault.ParentFails? {
          return false;
        }
        tree := WithParents(tree, target);
        if w.fault.EnvWriteFails? {
          if w.fault.written.Some? { tree := tree[target := File(w.fault.written.value)]; }
          return false;
        }
        var text := SeedEnvFromOsEnviron(cfg.extracted[template].data, cfg.osEnvironment);
        tree := tree[target := File(text)];
      }
      ok := CheckRequiredEnv(plugin, target);
    }

    method CheckRequiredEnv(plugin: string, target: Path) returns (ok: bool)
      requires target in tree
      ensures ok <==> NothingRequired(cfg, plugin) || (IsFile(tree, target) && MissingNothing(cfg, plugin, tree[target].data))
    {
      if cfg.plugins.None? {
        return true;
      }
      var ref := FindPlugin(cfg.plugins.value, plugin);
      if ref.None? || ref.value.required == [] {
        return true;
      }
      if tree[target].Dir? {
        return false;
      }
      var values := ParseEnvFile(tree[target].data);
      var required := ref.value.required;
      var missing: seq<string> := [];
      for i := 0 to |required|
        invariant missing == [] <==> forall key :: key in required[..i] ==> key in values && values[key] != ""
      {
        assert required[..i + 1] == required[..i] + [required[i]];
        if required[i] !in values || values[required[i]] == "" {
          missing := missing + [required[i]];
        }
      }
      assert required[..|required|] == required;
      ok := missing == [];
    }

    /** `DeploymentRunner._dispatch`: hand one step to the operation its action names. */
    method Dispatch(step: Step, w: Weather) returns (ok: bool)
      modifies this`tree, this`snapshots
      ensures (State(), ok) == RunStep(old(State()), cfg, step, w)
    {
      match step.action
      case InstallPlugin(id, _) => ok := InstallPlugin(step, id, w);
      case InstallExtension(id, _) => ok := InstallExtension(step, id, w);
      case WriteEnv(plugin, from) => ok := WriteEnv(plugin, from, w);
      case Prepare => ok := !w.fault.CallFails?;
      case Provision(_) => ok := !w.fault.CallFails?;
      case Start => ok := !w.fault.CallFails?;
      case Stop => ok := !w.fault.CallFails?;
      case Restart => ok := !w.fault.CallFails?;
      case Healthcheck(_, _) => ok := !w.fault.CallFails?;
      case _ => ok := true;
    }
  }
}
