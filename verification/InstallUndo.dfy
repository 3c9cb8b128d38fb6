/** What rolling back restores, over every run of steps and every failure in it. */
module InstallUndo {
  import opened Wrappers
  import opened FileTree
  import opened Text
  import opened InstallSchema
  import opened Manifest
  import opened EnvFile
  import opened InstallDriver

  // ---------------------------------------------------------------- where things live

  /** Plugins and extensions do not share a directory. */
  predicate SeparateLayout(dirname: Path) {
    ValidPluginsDirname(dirname) && dirname[0] != "extensions"
  }

  /** An item whose directory cannot be some plugin's environment file. */
  predicate ProperItem(kind: Kind, id: string) {
    kind.Extension? || !EndsWith(id, ".env")
  }

  predicate IsSaved(p: Path) { |p| == 2 && p[..1] == SNAPSHOTS }

  lemma TargetsApart(dirname: Path, kind: Kind, id: string, kind': Kind, id': string)
    requires SeparateLayout(dirname) && (kind != kind' || id != id')
    ensures Apart(Target(dirname, kind, id), Target(dirname, kind', id'))
  {
    var a, b := Target(dirname, kind, id), Target(dirname, kind', id');
    assert a[0] == if kind.Plugin? then dirname[0] else "extensions";
    assert b[0] == if kind'.Plugin? then dirname[0] else "extensions";
    if kind == kind' {
      assert a[|a| - 1] == id && b[|b| - 1] == id';
    }
  }

  lemma TargetNotSaved(dirname: Path, kind: Kind, id: string, p: Path)
    requires SeparateLayout(dirname) && p != [] && p[0] == ".snapshots"
    ensures Apart(Target(dirname, kind, id), p)
  {
    assert ".snapshots"[0] == '.';
    assert Target(dirname, kind, id)[0] == if kind.Plugin? then dirname[0] else "extensions";
    assert dirname[0] != "" && IsDirnameChar(dirname[0][0]);
  }

  lemma EnvFileApart(dirname: Path, kind: Kind, id: string, plugin: string)
    requires SeparateLayout(dirname) && ProperItem(kind, id)
    ensures Apart(Target(dirname, kind, id), PluginEnvFile(dirname, plugin))
  {
    var t, e := Target(dirname, kind, id), PluginEnvFile(dirname, plugin);
    assert t[0] == if kind.Plugin? then dirname[0] else "extensions";
    assert e[0] == dirname[0];
    if kind.Plugin? {
      assert t[|dirname|] == id && e[|dirname|] == plugin + ".env";
      assert EndsWith(plugin + ".env", ".env");
    }
  }

  // ---------------------------------------------------------------- what a change can reach

  /** `b` differs from `a` only at or below `root`, and by new directories above it. */
  ghost predicate LocalTo(a: Tree, b: Tree, root: Path) {
    forall p :: !(root <= p) ==> SameAt(a, b, p) || (p < root && p !in a && IsDir(b, p))
  }

  lemma LocalTrans(a: Tree, b: Tree, c: Tree, root: Path)
    requires LocalTo(a, b, root) && LocalTo(b, c, root)
    ensures LocalTo(a, c, root)
  {
    forall p | !(root <= p) ensures SameAt(a, c, p) || (p < root && p !in a && IsDir(c, p)) {
      assert SameAt(a, b, p) || (p < root && p !in a && IsDir(b, p));
      assert SameAt(b, c, p) || (p < root && p !in b && IsDir(c, p));
    }
  }

  lemma LocalElsewhere(a: Tree, b: Tree, root: Path, other: Path)
    requires LocalTo(a, b, root) && Apart(root, other)
    ensures SameAt(a, b, other) && Sub(a, other) == Sub(b, other)
  {
    forall p | other <= p ensures SameAt(a, b, p) {
      if root <= p { PrefixesCompare(root, other, p); }
      if p < root { PrefixesCompare(other, root, root); }
    }
    SameBelow(a, b, other);
  }

  lemma GraftLocal(tree: Tree, root: Path, sub: Tree)
    ensures LocalTo(tree, Graft(tree, root, sub), root)
  {
    forall p | !(root <= p) ensures SameAt(tree, Graft(tree, root, sub), p) { GraftAt(tree, root, sub, p); }
  }

  lemma RemoveLocal(tree: Tree, root: Path)
    ensures LocalTo(tree, Remove(tree, root), root) && Sub(Remove(tree, root), root) == map[]
  {
  }

  lemma WithParentsLocal(tree: Tree, root: Path)
    ensures LocalTo(tree, WithParents(tree, root), root)
  {
    forall p | !(root <= p)
      ensures SameAt(tree, WithParents(tree, root), p) || (p < root && p !in tree && IsDir(WithParents(tree, root), p))
    {
      WithParentsAt(tree, root, p);
    }
  }

  // ---------------------------------------------------------------- invariants of a run

  /** Every snapshot that is there stays, with its content. */
  ghost predicate SavedStay(a: Tree, b: Tree) {
    forall s :: IsSaved(s) && s in a ==> s in b && Sub(a, s) == Sub(b, s)
  }

  /** An item that does not exist has no content. */
  ghost predicate Rooted(tree: Tree, dirname: Path) {
    forall kind, id :: ProperItem(kind, id) && Target(dirname, kind, id) !in tree ==>
      Sub(tree, Target(dirname, kind, id)) == map[]
  }

  /** What undoing this record puts back. */
  function SavedContent(tree: Tree, record: SnapshotRecord): Tree {
    if record.savedPath.None? || record.savedPath.value !in tree then map[] else Sub(tree, record.savedPath.value)
  }

  /** Every record is of a proper item, and its snapshot is still there. */
  ghost predicate Recorded(host: Host) {
    forall r :: r in host.records ==>
      && ProperItem(r.kind, r.itemId)
      && (r.savedPath.Some? ==> IsSaved(r.savedPath.value) && r.savedPath.value in host.tree)
  }

  predicate Touches(step: Step, kind: Kind, id: string) {
    match step.action
    case InstallPlugin(p, _) => kind.Plugin? && p == id
    case InstallExtension(e, _) => kind.Extension? && e == id
    case _ => false
  }

  /** No plugin that a plan installs has an id ending in `.env`. */
  predicate ProperSteps(steps: seq<Step>) {
    forall i :: 0 <= i < |steps| && steps[i].action.InstallPlugin? ==> ProperItem(Plugin, steps[i].action.plugin)
  }

  /** The record a step adds, if it adds one. */
  ghost predicate OwnRecord(step: Step, before: Tree, after: Tree, dirname: Path, r: SnapshotRecord) {
    && r.stepId == step.id && step.snapshot && Touches(step, r.kind, r.itemId)
    && (r.savedPath.Some? ==> IsSaved(r.savedPath.value) && r.savedPath.value in after)
    && SavedContent(after, r) == Sub(before, RecordTarget(dirname, r))
    && (if r.savedPath.Some? then IsDir(before, RecordTarget(dirname, r)) else RecordTarget(dirname, r) !in before)
  }

  /** What one step may do to the host, whether or not it raises. */
  ghost predicate StepEffect(h: Host, h': Host, dirname: Path, step: Step, ok: bool) {
    && SavedStay(h.tree, h'.tree) && Rooted(h'.tree, dirname)
    && (h'.records == h.records ||
        exists r :: h'.records == h.records + [r] && OwnRecord(step, h.tree, h'.tree, dirname, r))
    && (forall kind, id :: ProperItem(kind, id) && !Touches(step, kind, id) ==>
          Sub(h'.tree, Target(dirname, kind, id)) == Sub(h.tree, Target(dirname, kind, id)))
    && (step.snapshot && h'.records == h.records ==> forall kind, id :: Touches(step, kind, id) ==>
          !ok && Sub(h'.tree, Target(dirname, kind, id)) == Sub(h.tree, Target(dirname, kind, id)))
  }

  // ---------------------------------------------------------------- one step

  lemma SnapshotIsLocal(h: Host, dirname: Path, stepId: string, id: string, kind: Kind, w: Weather)
    ensures LocalTo(h.tree, TakeSnapshot(h, dirname, stepId, id, kind, w).0.tree, SavedPath(stepId, id, w.now))
  {
    var target := Target(dirname, kind, id);
    var saved := SavedPath(stepId, id, w.now);
    assert SNAPSHOTS == saved[..1];
    if target in h.tree && !IsFile(h.tree, SNAPSHOTS) {
      var tree := WithSnapshotsDir(h.tree);
      assert LocalTo(h.tree, tree, saved);
      var sub := if w.fault.SnapshotFails? then w.fault.left else Sub(tree, target);
      GraftLocal(tree, saved, sub);
      LocalTrans(h.tree, tree, Graft(tree, saved, sub), saved);
    }
  }

  /** The name is fresh, or nothing at all is written there. */
  lemma SnapshotIsFresh(h: Host, dirname: Path, stepId: string, id: string, kind: Kind, w: Weather)
    requires SavedPath(stepId, id, w.now) in h.tree
    ensures
      var after := TakeSnapshot(h, dirname, stepId, id, kind, w).0.tree;
      var saved := SavedPath(stepId, id, w.now);
      saved in after && Sub(after, saved) == Sub(h.tree, saved)
  {
    var after := TakeSnapshot(h, dirname, stepId, id, kind, w).0.tree;
    var saved := SavedPath(stepId, id, w.now);
    assert SNAPSHOTS == saved[..1];
    forall p | saved <= p ensures SameAt(h.tree, after, p) {
      assert p != SNAPSHOTS;
    }
    SameBelow(h.tree, after, saved);
  }

  lemma LocalKeepsSaved(a: Tree, b: Tree, saved: Path)
    requires LocalTo(a, b, saved) && IsSaved(saved)
    requires saved in a ==> saved in b && Sub(a, saved) == Sub(b, saved)
    ensures SavedStay(a, b)
  {
    forall s | IsSaved(s) && s in a ensures s in b && Sub(a, s) == Sub(b, s) {
      if s != saved {
        assert Apart(saved, s);
        LocalElsewhere(a, b, saved, s);
      }
    }
  }

  lemma SnapshotEffect(h: Host, dirname: Path, stepId: string, id: string, kind: Kind, w: Weather)
    requires SeparateLayout(dirname)
    ensures
      var (h', ok) := TakeSnapshot(h, dirname, stepId, id, kind, w);
      && SavedStay(h.tree, h'.tree)
      && forall kind, id :: SameAt(h.tree, h'.tree, Target(dirname, kind, id)) &&
           Sub(h'.tree, Target(dirname, kind, id)) == Sub(h.tree, Target(dirname, kind, id))
  {
    var (h', ok) := TakeSnapshot(h, dirname, stepId, id, kind, w);
    var saved := SavedPath(stepId, id, w.now);
    SnapshotIsLocal(h, dirname, stepId, id, kind, w);
    if saved in h.tree { SnapshotIsFresh(h, dirname, stepId, id, kind, w); }
    LocalKeepsSaved(h.tree, h'.tree, saved);
    forall kind, id ensures SameAt(h.tree, h'.tree, Target(dirname, kind, id)) &&
           Sub(h'.tree, Target(dirname, kind, id)) == Sub(h.tree, Target(dirname, kind, id)) {
      TargetNotSaved(dirname, kind, id, saved);
      LocalElsewhere(h.tree, h'.tree, saved, Target(dirname, kind, id));
    }
  }

  lemma MakingSnapshotsDir(tree: Tree, target: Path)
    requires Apart(target, SNAPSHOTS)
    ensures Sub(WithSnapshotsDir(tree), target) == Sub(tree, target)
  {
    var made := WithSnapshotsDir(tree);
    forall p | target <= p ensures SameAt(tree, made, p) {}
    SameBelow(tree, made, target);
  }

  lemma CopyHasRoot(tree: Tree, from: Path, to: Path)
    requires from in tree
    ensures to in CopyTree(tree, from, to)
  {
    assert from + [] == from;
    SubAt(tree, from, []);
    GraftAt(tree, to, Sub(tree, from), to);
    assert to[|to|..] == [];
  }

  lemma SnapshotSucceeds(h: Host, dirname: Path, stepId: string, id: string, kind: Kind, w: Weather)
    requires TakeSnapshot(h, dirname, stepId, id, kind, w).1 && Target(dirname, kind, id) in h.tree
    ensures
      var saved := SavedPath(stepId, id, w.now);
      var tree := WithSnapshotsDir(h.tree);
      TakeSnapshot(h, dirname, stepId, id, kind, w).0 ==
        Host(CopyTree(tree, Target(dirname, kind, id), saved), h.records + [SnapshotRecord(stepId, id, Some(saved), kind)])
  {
    assert !IsFile(h.tree, SNAPSHOTS);
    assert !(WithSnapshotsDir(h.tree)[Target(dirname, kind, id)].File? || SavedPath(stepId, id, w.now) in WithSnapshotsDir(h.tree));
    assert !w.fault.SnapshotFails?;
  }

  lemma SnapshotOfDirectory(h: Host, dirname: Path, stepId: string, id: string, kind: Kind, w: Weather)
    requires TakeSnapshot(h, dirname, stepId, id, kind, w).1 && Target(dirname, kind, id) in h.tree
    requires Target(dirname, kind, id) != SNAPSHOTS
    ensures IsDir(h.tree, Target(dirname, kind, id))
  {
    assert WithSnapshotsDir(h.tree)[Target(dirname, kind, id)] == h.tree[Target(dirname, kind, id)];
  }

  /** A snapshot that succeeds records the target's content as it is now. */
  lemma SnapshotRecords(h: Host, dirname: Path, stepId: string, id: string, kind: Kind,
      w: Weather) returns (r: SnapshotRecord)
    requires SeparateLayout(dirname) && ProperItem(kind, id) && Rooted(h.tree, dirname)
    requires TakeSnapshot(h, dirname, stepId, id, kind, w).1
    ensures
      var h' := TakeSnapshot(h, dirname, stepId, id, kind, w).0;
      && h'.records == h.records + [r]
      && r.stepId == stepId && r.kind == kind && r.itemId == id
      && (r.savedPath.Some? ==> IsSaved(r.savedPath.value) && r.savedPath.value in h'.tree)
      && SavedContent(h'.tree, r) == Sub(h.tree, Target(dirname, kind, id))
      && (if r.savedPath.Some? then IsDir(h.tree, Target(dirname, kind, id)) else Target(dirname, kind, id) !in h.tree)
  {
    var target := Target(dirname, kind, id);
    var saved := SavedPath(stepId, id, w.now);
    if target !in h.tree {
      r := SnapshotRecord(stepId, id, None, kind);
    } else {
      r := SnapshotRecord(stepId, id, Some(saved), kind);
      TargetNotSaved(dirname, kind, id, SNAPSHOTS);
      SnapshotSucceeds(h, dirname, stepId, id, kind, w);
      SnapshotOfDirectory(h, dirname, stepId, id, kind, w);
      SavedCopy(h.tree, target, r);
    }
  }

  lemma SavedCopy(tree: Tree, target: Path, r: SnapshotRecord)
    requires target in tree && Apart(target, SNAPSHOTS) && r.savedPath.Some?
    ensures
      var copied := CopyTree(WithSnapshotsDir(tree), target, r.savedPath.value);
      r.savedPath.value in copied && SavedContent(copied, r) == Sub(tree, target)
  {
    MakingSnapshotsDir(tree, target);
    CopyHasRoot(WithSnapshotsDir(tree), target, r.savedPath.value);
    SubOfGraft(WithSnapshotsDir(tree), r.savedPath.value, Sub(WithSnapshotsDir(tree), target));
  }

  // ---- the target

  ghost predicate PlacesAt(tree: Tree, after: Tree, target: Path, sub: Tree) {
    && LocalTo(tree, after, target)
    && Sub(after, target) == sub
    && (target !in after ==> sub == map[])
    && !IsFile(after, target)
  }

  lemma GraftPlaces(tree: Tree, target: Path, sub: Tree)
    requires sub != map[] ==> IsDir(sub, [])
    ensures PlacesAt(tree, Graft(tree, target, sub), target, sub)
  {
    GraftLocal(tree, target, sub);
    GraftRooted(tree, target, sub);
  }

  lemma CopyPlaces(tree: Tree, target: Path, sub: Tree)
    requires sub != map[] ==> IsDir(sub, [])
    ensures PlacesAt(tree, Graft(WithParents(Remove(tree, target), target), target, sub), target, sub)
  {
    var cleared := Remove(tree, target);
    var ready := WithParents(cleared, target);
    RemoveLocal(tree, target);
    WithParentsLocal(cleared, target);
    LocalTrans(tree, cleared, ready, target);
    GraftPlaces(ready, target, sub);
    LocalTrans(tree, ready, Graft(ready, target, sub), target);
  }

  lemma ReplaceEffect(tree: Tree, extracted: Tree, source: Path, target: Path, w: Weather)
    requires IsDir(extracted, source)
    requires target !in tree ==> Sub(tree, target) == map[]
    ensures
      var (after, ok) := ReplaceTree(tree, extracted, source, target, w);
      && LocalTo(tree, after, target)
      && (target !in after ==> Sub(after, target) == map[])
      && (ok ==> Sub(after, target) == Sub(extracted, source))
      && (!IsFile(tree, target) ==> !IsFile(after, target))
  {
    var cleared := Remove(tree, target);
    RemoveLocal(tree, target);
    if target in tree && (tree[target].File? || w.fault.DeleteFails?) {
      if w.fault.DeleteFails? { GraftPlaces(tree, target, w.fault.left); }
    } else if ParentsBlocked(cleared, target) || w.fault.ParentFails? {
    } else if w.fault.CopyFails? {
      CopyPlaces(tree, target, w.fault.left);
    } else {
      assert source + [] == source;
      SubAt(extracted, source, []);
      CopyPlaces(tree, target, Sub(extracted, source));
    }
  }

  lemma GraftRooted(tree: Tree, root: Path, sub: Tree)
    requires sub != map[] ==> IsDir(sub, [])
    ensures Sub(Graft(tree, root, sub), root) == sub
    ensures root !in Graft(tree, root, sub) ==> sub == map[]
    ensures !IsFile(Graft(tree, root, sub), root)
  {
    SubOfGraft(tree, root, sub);
    assert root[|root|..] == [];
    GraftAt(tree, root, sub, root);
  }

  lemma SignEffect(tree: Tree, target: Path, id: string, cfg: Config, w: Weather)
    requires target !in tree ==> Sub(tree, target) == map[]
    ensures
      var (after, ok) := SignTarget(tree, target, id, cfg, w);
      LocalTo(tree, after, target) && (target !in after ==> Sub(after, target) == map[])
      && (!IsFile(tree, target) ==> !IsFile(after, target))
  {
    if cfg.sign.Some? {
      if w.fault.SignFails? {
        GraftLocal(tree, target, w.fault.left);
        GraftRooted(tree, target, w.fault.left);
      } else {
        var signed := cfg.sign.value(id, Sub(tree, target));
        if signed.Some? {
          GraftLocal(tree, target, signed.value);
          GraftRooted(tree, target, signed.value);
        }
      }
    }
  }

  /** A change at one item's directory leaves the other items and all snapshots alone. */
  lemma ItemChange(a: Tree, b: Tree, dirname: Path, kind: Kind, id: string)
    requires SeparateLayout(dirname) && LocalTo(a, b, Target(dirname, kind, id)) && Rooted(a, dirname)
    requires Target(dirname, kind, id) !in b ==> Sub(b, Target(dirname, kind, id)) == map[]
    ensures SavedStay(a, b) && Rooted(b, dirname)
    ensures forall k, i :: k != kind || i != id ==> Sub(b, Target(dirname, k, i)) == Sub(a, Target(dirname, k, i))
  {
    var target := Target(dirname, kind, id);
    forall s | IsSaved(s) && s in a ensures s in b && Sub(a, s) == Sub(b, s) {
      assert s[0] == s[..1][0];
      TargetNotSaved(dirname, kind, id, s);
      LocalElsewhere(a, b, target, s);
    }
    forall k, i | k != kind || i != id
      ensures Sub(b, Target(dirname, k, i)) == Sub(a, Target(dirname, k, i))
      ensures SameAt(a, b, Target(dirname, k, i))
    {
      TargetsApart(dirname, kind, id, k, i);
      LocalElsewhere(a, b, target, Target(dirname, k, i));
    }
  }

  lemma SavedStayTrans(a: Tree, b: Tree, c: Tree)
    requires SavedStay(a, b) && SavedStay(b, c)
    ensures SavedStay(a, c)
  {
  }

  lemma PlacementEffect(tree: Tree, cfg: Config, kind: Kind, id: string, w: Weather)
    requires SeparateLayout(cfg.pluginsDirname) && Rooted(tree, cfg.pluginsDirname) && ProperItem(kind, id)
    requires IsDir(cfg.extracted, Target(cfg.pluginsDirname, kind, id))
    ensures
      var after := Placement(tree, cfg, kind, id, w).0;
      && SavedStay(tree, after) && Rooted(after, cfg.pluginsDirname)
      && LocalTo(tree, after, Target(cfg.pluginsDirname, kind, id))
      && (!IsFile(tree, Target(cfg.pluginsDirname, kind, id)) ==> !IsFile(after, Target(cfg.pluginsDirname, kind, id)))
      && forall k, i :: k != kind || i != id ==>
           Sub(after, Target(cfg.pluginsDirname, k, i)) == Sub(tree, Target(cfg.pluginsDirname, k, i))
  {
    var target := Target(cfg.pluginsDirname, kind, id);
    var (copied, ok) := ReplaceTree(tree, cfg.extracted, target, target, w);
    ReplaceEffect(tree, cfg.extracted, target, target, w);
    if ok && kind.Plugin? {
      SignEffect(copied, target, id, cfg, w);
      LocalTrans(tree, copied, SignTarget(copied, target, id, cfg, w).0, target);
    }
    ItemChange(tree, Placement(tree, cfg, kind, id, w).0, cfg.pluginsDirname, kind, id);
  }

  lemma InstallEffect(h: Host, cfg: Config, step: Step, kind: Kind, id: string, w: Weather)
    requires SeparateLayout(cfg.pluginsDirname) && Rooted(h.tree, cfg.pluginsDirname) && ProperItem(kind, id)
    requires forall k, i :: Touches(step, k, i) <==> k == kind && i == id
    ensures
      var (h', ok) := InstallItem(h, cfg, step, kind, id, w);
      StepEffect(h, h', cfg.pluginsDirname, step, ok)
  {
    var dirname := cfg.pluginsDirname;
    var target := Target(dirname, kind, id);
    if IsDir(cfg.extracted, target) {
      var (noted, taken) := if step.snapshot then TakeSnapshot(h, dirname, step.id, id, kind, w) else (h, true);
      if step.snapshot { SnapshotEffect(h, dirname, step.id, id, kind, w); }
      if taken {
        var (after, fine) := Placement(noted.tree, cfg, kind, id, w);
        PlacementEffect(noted.tree, cfg, kind, id, w);
        SavedStayTrans(h.tree, noted.tree, after);
        if step.snapshot {
          var r := SnapshotRecords(h, dirname, step.id, id, kind, w);
          assert OwnRecord(step, h.tree, after, dirname, r);
        }
      }
    }
  }

  /** Writing an environment file reaches no item and no snapshot. */
  lemma EnvEffect(tree: Tree, cfg: Config, plugin: string, from: string, w: Weather)
    requires SeparateLayout(cfg.pluginsDirname) && Rooted(tree, cfg.pluginsDirname)
    ensures
      var after := WriteEnvFile(tree, cfg, plugin, from, w).0;
      && SavedStay(tree, after) && Rooted(after, cfg.pluginsDirname)
      && forall kind, id :: ProperItem(kind, id) ==>
           Sub(after, Target(cfg.pluginsDirname, kind, id)) == Sub(tree, Target(cfg.pluginsDirname, kind, id))
  {
    var dirname := cfg.pluginsDirname;
    var after := WriteEnvFile(tree, cfg, plugin, from, w).0;
    var file := PluginEnvFile(dirname, plugin);
    WithParentsLocal(tree, file);
    assert LocalTo(tree, after, file);
    forall s | IsSaved(s) && s in tree ensures s in after && Sub(tree, s) == Sub(after, s) {
      assert s[0] == s[..1][0];
      TargetNotSaved(dirname, Plugin, plugin + ".env", s);
      LocalElsewhere(tree, after, file, s);
    }
    forall kind, id | ProperItem(kind, id)
      ensures SameAt(tree, after, Target(dirname, kind, id))
      ensures Sub(after, Target(dirname, kind, id)) == Sub(tree, Target(dirname, kind, id))
    {
      EnvFileApart(dirname, kind, id, plugin);
      LocalElsewhere(tree, after, file, Target(dirname, kind, id));
    }
  }

  predicate TouchesNothing(step: Step) { !step.action.InstallPlugin? && !step.action.InstallExtension? }

  /** The other steps leave the tree and the records alone. */
  lemma QuietStep(h: Host, cfg: Config, step: Step, w: Weather)
    requires TouchesNothing(step) && !step.action.WriteEnv?
    ensures RunStep(h, cfg, step, w).0 == h
  {
  }

  /** A step that touches no item, and leaves the items as they are. */
  lemma AsideEffect(h: Host, h': Host, dirname: Path, step: Step, ok: bool)
    requires TouchesNothing(step) && h'.records == h.records && SavedStay(h.tree, h'.tree) && Rooted(h'.tree, dirname)
    requires forall kind, id :: ProperItem(kind, id) ==>
      Sub(h'.tree, Target(dirname, kind, id)) == Sub(h.tree, Target(dirname, kind, id))
    ensures StepEffect(h, h', dirname, step, ok)
  {
    assert forall kind, id :: !Touches(step, kind, id);
  }

  lemma WriteEnvEffect(h: Host, cfg: Config, step: Step, w: Weather)
    requires SeparateLayout(cfg.pluginsDirname) && Rooted(h.tree, cfg.pluginsDirname) && step.action.WriteEnv?
    ensures StepEffect(h, RunStep(h, cfg, step, w).0, cfg.pluginsDirname, step, RunStep(h, cfg, step, w).1)
  {
    EnvEffect(h.tree, cfg, step.action.plugin, step.action.from, w);
    AsideEffect(h, RunStep(h, cfg, step, w).0, cfg.pluginsDirname, step, RunStep(h, cfg, step, w).1);
  }

  lemma RunStepEffect(h: Host, cfg: Config, step: Step, w: Weather)
    requires SeparateLayout(cfg.pluginsDirname) && Rooted(h.tree, cfg.pluginsDirname) && ProperSteps([step])
    ensures
      var (h', ok) := RunStep(h, cfg, step, w);
      StepEffect(h, h', cfg.pluginsDirname, step, ok)
  {
    if step.action.InstallPlugin? {
      assert ProperItem(Plugin, [step][0].action.plugin);
      InstallEffect(h, cfg, step, Plugin, step.action.plugin, w);
    } else if step.action.InstallExtension? {
      InstallEffect(h, cfg, step, Extension, step.action.extension, w);
    } else if step.action.WriteEnv? {
      WriteEnvEffect(h, cfg, step, w);
    } else {
      QuietStep(h, cfg, step, w);
      AsideEffect(h, h, cfg.pluginsDirname, step, RunStep(h, cfg, step, w).1);
    }
  }

  // ---------------------------------------------------------------- whole runs

  /** What undoing `records` puts back at `target`: what the earliest of them saved. */
  function Restored(tree: Tree, dirname: Path, records: seq<SnapshotRecord>, target: Path): Option<Tree> {
    if records == [] then None
    else
      var n := |records| - 1;
      var earlier := Restored(tree, dirname, records[..n], target);
      if earlier.Some? then earlier
      else if RecordTarget(dirname, records[n]) == target then Some(SavedContent(tree, records[n]))
      else None
  }

  lemma {:induction false} RestoredStays(a: Tree, b: Tree, dirname: Path, records: seq<SnapshotRecord>, target: Path)
    requires SavedStay(a, b)
    requires forall r :: r in records && r.savedPath.Some? ==> IsSaved(r.savedPath.value) && r.savedPath.value in a
    ensures Restored(a, dirname, records, target) == Restored(b, dirname, records, target)
  {
    if records != [] {
      RestoredStays(a, b, dirname, records[..|records| - 1], target);
    }
  }

  /** The first step that touches the item, if any does, takes a snapshot. */
  ghost predicate FirstTouchSnapshots(steps: seq<Step>, kind: Kind, id: string) {
    forall i :: FirstTouch(steps, i, kind, id) ==> steps[i].snapshot
  }

  ghost predicate FirstTouch(steps: seq<Step>, i: int, kind: Kind, id: string) {
    0 <= i < |steps| && Touches(steps[i], kind, id) && !Touched(steps[..i], kind, id)
  }

  ghost predicate Touched(steps: seq<Step>, kind: Kind, id: string) {
    exists i :: 0 <= i < |steps| && Touches(steps[i], kind, id)
  }

  /** What undoing the newer records would leave at the item. */
  function AfterUndo(tree: Tree, dirname: Path, records: seq<SnapshotRecord>, kind: Kind, id: string): Tree {
    Restored(tree, dirname, records, Target(dirname, kind, id)).GetOr(Sub(tree, Target(dirname, kind, id)))
  }

  ghost predicate MadeBy(r: SnapshotRecord, steps: seq<Step>) {
    exists s :: s in steps && s.id == r.stepId
  }

  /** Between `h0` and `h`: the records only grow, and undoing the new ones would give every
      item whose first touching step takes a snapshot its content in `h0`. */
  ghost predicate RunEffect(h0: Host, h: Host, dirname: Path, steps: seq<Step>, ok: bool) {
    && h0.records <= h.records && Recorded(h) && Rooted(h.tree, dirname)
    && SavedStay(h0.tree, h.tree)
    && (forall i :: |h0.records| <= i < |h.records| ==> MadeBy(h.records[i], steps))
    && forall kind, id :: ProperItem(kind, id) && FirstTouchSnapshots(steps, kind, id) ==>
         ItemKept(h0, h, dirname, steps, ok, kind, id)
  }

  lemma FirstTouchOfPrefix(steps: seq<Step>, n: nat, kind: Kind, id: string)
    requires n < |steps| && FirstTouchSnapshots(steps, kind, id)
    ensures FirstTouchSnapshots(steps[..n], kind, id)
    ensures Touches(steps[n], kind, id) && !Touched(steps[..n], kind, id) ==> steps[n].snapshot
  {
    forall i | FirstTouch(steps[..n], i, kind, id) ensures steps[..n][i].snapshot {
      assert steps[..n][..i] == steps[..i];
      assert FirstTouch(steps, i, kind, id);
    }
    assert Touches(steps[n], kind, id) && !Touched(steps[..n], kind, id) ==> FirstTouch(steps, n, kind, id);
  }

  lemma RestoredOneMore(tree: Tree, dirname: Path, older: seq<SnapshotRecord>, r: SnapshotRecord, target: Path)
    ensures Restored(tree, dirname, older + [r], target) ==
      if Restored(tree, dirname, older, target).Some? then Restored(tree, dirname, older, target)
      else if RecordTarget(dirname, r) == target then Some(SavedContent(tree, r))
      else None
  {
    assert (older + [r])[..|older + [r]| - 1] == older;
  }

  /** The item-wise part of the invariant. */
  ghost predicate ItemKept(h0: Host, h: Host, dirname: Path, steps: seq<Step>, ok: bool, kind: Kind, id: string)
    requires |h0.records| <= |h.records|
  {
    && AfterUndo(h.tree, dirname, h.records[|h0.records|..], kind, id) == Sub(h0.tree, Target(dirname, kind, id))
    && (ok && Touched(steps, kind, id) ==>
          Restored(h.tree, dirname, h.records[|h0.records|..], Target(dirname, kind, id)).Some?)
  }

  lemma TouchedOneMore(steps: seq<Step>, step: Step, kind: Kind, id: string)
    ensures Touched(steps + [step], kind, id) <==> Touched(steps, kind, id) || Touches(step, kind, id)
  {
    var all := steps + [step];
    if Touched(steps, kind, id) {
      var i :| 0 <= i < |steps| && Touches(steps[i], kind, id);
      assert all[i] == steps[i];
    }
    assert all[|steps|] == step;
  }

  /** Across one step that adds no record. */
  lemma ItemWithoutRecord(h0: Host, h: Host, h': Host, dirname: Path, steps: seq<Step>, step: Step, ok: bool,
      kind: Kind, id: string)
    requires |h0.records| <= |h.records| && Recorded(h) && ItemKept(h0, h, dirname, steps, true, kind, id)
    requires StepEffect(h, h', dirname, step, ok) && h'.records == h.records
    requires ProperItem(kind, id) && FirstTouchSnapshots(steps + [step], kind, id)
    ensures ItemKept(h0, h', dirname, steps + [step], ok, kind, id)
  {
    var all, older, target := steps + [step], h.records[|h0.records|..], Target(dirname, kind, id);
    assert all[..|steps|] == steps && all[|steps|] == step;
    FirstTouchOfPrefix(all, |steps|, kind, id);
    TouchedOneMore(steps, step, kind, id);
    RestoredStays(h.tree, h'.tree, dirname, older, target);
  }

  /** A step touches one item at most. */
  lemma TouchesOne(step: Step, kind: Kind, id: string, kind': Kind, id': string)
    requires Touches(step, kind, id) && Touches(step, kind', id')
    ensures kind == kind' && id == id'
  {
  }

  /** Across one step that records the state before it. */
  lemma ItemWithRecord(h0: Host, h: Host, h': Host, dirname: Path, steps: seq<Step>, step: Step, ok: bool,
      r: SnapshotRecord, kind: Kind, id: string)
    requires |h0.records| <= |h.records| && Recorded(h) && ItemKept(h0, h, dirname, steps, true, kind, id)
    requires SavedStay(h.tree, h'.tree)
    requires !Touches(step, kind, id) ==> Sub(h'.tree, Target(dirname, kind, id)) == Sub(h.tree, Target(dirname, kind, id))
    requires h'.records == h.records + [r] && OwnRecord(step, h.tree, h'.tree, dirname, r)
    requires SeparateLayout(dirname) && ProperItem(kind, id)
    ensures ItemKept(h0, h', dirname, steps + [step], ok, kind, id)
  {
    var older, target := h.records[|h0.records|..], Target(dirname, kind, id);
    TouchedOneMore(steps, step, kind, id);
    RestoredStays(h.tree, h'.tree, dirname, older, target);
    assert h'.records[|h0.records|..] == older + [r];
    RestoredOneMore(h'.tree, dirname, older, r, target);
    if Touches(step, kind, id) {
      TouchesOne(step, kind, id, r.kind, r.itemId);
      assert RecordTarget(dirname, r) == target;
    } else {
      TargetsApart(dirname, r.kind, r.itemId, kind, id);
    }
  }

  lemma RecordedAcrossStep(h0: Host, h: Host, h': Host, dirname: Path, steps: seq<Step>, step: Step, ok: bool)
    requires RunEffect(h0, h, dirname, steps, true) && StepEffect(h, h', dirname, step, ok)
    requires ProperSteps([step])
    ensures h0.records <= h'.records && Recorded(h')
    ensures forall i :: |h0.records| <= i < |h'.records| ==> MadeBy(h'.records[i], steps + [step])
  {
    forall i | |h0.records| <= i < |h'.records| ensures MadeBy(h'.records[i], steps + [step]) {
      if i < |h.records| {
        assert h'.records[i] == h.records[i] && MadeBy(h.records[i], steps);
        var s :| s in steps && s.id == h.records[i].stepId;
        assert s in steps + [step];
      } else {
        assert step in steps + [step];
      }
    }
    if h'.records != h.records {
      var r :| h'.records == h.records + [r] && OwnRecord(step, h.tree, h'.tree, dirname, r);
      assert ProperItem(r.kind, r.itemId) by {
        if r.kind.Plugin? { assert [step][0].action.plugin == r.itemId; }
      }
    }
  }

  lemma RunEffectStep(h0: Host, h: Host, h': Host, dirname: Path, steps: seq<Step>, step: Step, ok: bool)
    requires RunEffect(h0, h, dirname, steps, true) && StepEffect(h, h', dirname, step, ok)
    requires SeparateLayout(dirname) && ProperSteps([step])
    ensures RunEffect(h0, h', dirname, steps + [step], ok)
  {
    SavedStayTrans(h0.tree, h.tree, h'.tree);
    RecordedAcrossStep(h0, h, h', dirname, steps, step, ok);
    var all := steps + [step];
    forall kind, id | ProperItem(kind, id) && FirstTouchSnapshots(all, kind, id)
      ensures ItemKept(h0, h', dirname, all, ok, kind, id)
    {
      assert all[..|steps|] == steps;
      FirstTouchOfPrefix(all, |steps|, kind, id);
      if h'.records == h.records {
        ItemWithoutRecord(h0, h, h', dirname, steps, step, ok, kind, id);
      } else {
        var r :| h'.records == h.records + [r] && OwnRecord(step, h.tree, h'.tree, dirname, r);
        ItemWithRecord(h0, h, h', dirname, steps, step, ok, r, kind, id);
      }
    }
  }

  /** Every run, up to wherever it stops. */
  lemma {:induction false} RunStepsEffect(h0: Host, cfg: Config, steps: seq<Step>, ws: seq<Weather>)
    requires |steps| == |ws| && SeparateLayout(cfg.pluginsDirname) && ProperSteps(steps)
    requires Rooted(h0.tree, cfg.pluginsDirname) && Recorded(h0)
    ensures
      var (h, ok) := RunSteps(h0, cfg, steps, ws);
      RunEffect(h0, h, cfg.pluginsDirname, steps, ok)
    decreases |steps|
  {
    var dirname := cfg.pluginsDirname;
    if steps == [] {
      assert h0.records[|h0.records|..] == [];
    } else {
      var n := |steps| - 1;
      assert ProperSteps(steps[..n]) && ProperSteps([steps[n]]);
      RunStepsEffect(h0, cfg, steps[..n], ws[..n]);
      var (h, ok) := RunSteps(h0, cfg, steps[..n], ws[..n]);
      assert steps == steps[..n] + [steps[n]];
      if ok {
        RunStepEffect(h, cfg, steps[n], ws[n]);
        var (h', ok') := RunStep(h, cfg, steps[n], ws[n]);
        RunEffectStep(h0, h, h', dirname, steps[..n], steps[n], ok');
      } else {
        StoppedRun(h0, h, dirname, steps, n);
      }
    }
  }

  /** After a step has raised, the steps behind it change nothing. */
  lemma StoppedRun(h0: Host, h: Host, dirname: Path, steps: seq<Step>, n: nat)
    requires n < |steps| && RunEffect(h0, h, dirname, steps[..n], false)
    ensures RunEffect(h0, h, dirname, steps, false)
  {
    forall kind, id | ProperItem(kind, id) && FirstTouchSnapshots(steps, kind, id)
      ensures ItemKept(h0, h, dirname, steps, false, kind, id)
    {
      FirstTouchOfPrefix(steps, n, kind, id);
    }
    forall i | |h0.records| <= i < |h.records| ensures MadeBy(h.records[i], steps) {
      assert MadeBy(h.records[i], steps[..n]);
      var s :| s in steps[..n] && s.id == h.records[i].stepId;
      assert s in steps;
    }
  }

  // ---------------------------------------------------------------- rolling back

  /** How many of the records rolling back to `stop` leaves alone. */
  function KeptRecords(records: seq<SnapshotRecord>, stop: Option<string>): (n: nat)
    ensures n <= |records|
  {
    if records == [] then 0
    else if stop == Some(records[|records| - 1].stepId) then |records|
    else KeptRecords(records[..|records| - 1], stop)
  }

  /** The records are of proper items and point into the snapshot directory. */
  ghost predicate Undoable(records: seq<SnapshotRecord>) {
    forall r :: r in records ==> ProperItem(r.kind, r.itemId) && (r.savedPath.Some? ==> IsSaved(r.savedPath.value))
  }

  /** Snapshots are neither lost nor made. */
  ghost predicate SavedSame(a: Tree, b: Tree) {
    forall s :: IsSaved(s) ==> (s in a <==> s in b) && Sub(a, s) == Sub(b, s)
  }

  lemma UndoRecordEffect(tree: Tree, dirname: Path, r: SnapshotRecord, fault: Option<Remains>)
    requires SeparateLayout(dirname) && Undoable([r])
    ensures
      var (after, ok) := UndoRecord(tree, dirname, r, fault);
      && LocalTo(tree, after, RecordTarget(dirname, r))
      && SavedSame(tree, after)
      && (ok ==> Sub(after, RecordTarget(dirname, r)) == SavedContent(tree, r))
  {
    assert r in [r];
    var (after, ok) := UndoRecord(tree, dirname, r, fault);
    var target := RecordTarget(dirname, r);
    var cleared := Remove(tree, target);
    RemoveLocal(tree, target);
    if r.savedPath.Some? {
      var saved := r.savedPath.value;
      assert saved[0] == saved[..1][0];
      TargetNotSaved(dirname, r.kind, r.itemId, saved);
      LocalElsewhere(tree, cleared, target, saved);
    }
    if IsFile(tree, target) {
    } else if fault.Some? {
      GraftPlaces(tree, target, fault.value);
    } else if r.savedPath.None? || r.savedPath.value !in cleared || IsFile(cleared, r.savedPath.value) || ParentsBlocked(cleared, target) {
    } else {
      var saved := r.savedPath.value;
      assert saved + [] == saved;
      SubAt(cleared, saved, []);
      CopyPlaces(tree, target, Sub(cleared, saved));
    }
    forall s | IsSaved(s) ensures (s in tree <==> s in after) && Sub(tree, s) == Sub(after, s) {
      assert s[0] == s[..1][0];
      TargetNotSaved(dirname, r.kind, r.itemId, s);
      LocalElsewhere(tree, after, target, s);
    }
  }

  lemma {:induction false} RestoredSame(a: Tree, b: Tree, dirname: Path, records: seq<SnapshotRecord>, target: Path)
    requires SavedSame(a, b) && Undoable(records)
    ensures Restored(a, dirname, records, target) == Restored(b, dirname, records, target)
  {
    if records != [] {
      RestoredSame(a, b, dirname, records[..|records| - 1], target);
    }
  }

  /** Undoing `r` first and then what is older, or all of it at once. */
  lemma UndoLastFirst(tree: Tree, undone: Tree, dirname: Path, older: seq<SnapshotRecord>, r: SnapshotRecord,
      kind: Kind, id: string)
    requires SeparateLayout(dirname) && Undoable(older)
    requires LocalTo(tree, undone, RecordTarget(dirname, r)) && SavedSame(tree, undone)
    requires Sub(undone, RecordTarget(dirname, r)) == SavedContent(tree, r)
    ensures AfterUndo(undone, dirname, older, kind, id) == AfterUndo(tree, dirname, older + [r], kind, id)
  {
    var target := Target(dirname, kind, id);
    RestoredOneMore(tree, dirname, older, r, target);
    RestoredSame(tree, undone, dirname, older, target);
    if r.kind != kind || r.itemId != id {
      TargetsApart(dirname, r.kind, r.itemId, kind, id);
      LocalElsewhere(tree, undone, RecordTarget(dirname, r), target);
    }
  }

  lemma {:induction false} RollbackKeepsSaved(tree: Tree, dirname: Path, records: seq<SnapshotRecord>,
      stop: Option<string>, fault: RollbackFault)
    requires SeparateLayout(dirname) && Undoable(records)
    ensures SavedSame(tree, RollBack(tree, dirname, records, stop, fault).0)
    decreases |records|
  {
    var n := |records| - 1;
    if records != [] && stop != Some(records[n].stepId) {
      assert Undoable([records[n]]);
      UndoRecordEffect(tree, dirname, records[n], FaultAt(fault, n));
      var undone := UndoRecord(tree, dirname, records[n], FaultAt(fault, n));
      RollbackKeepsSaved(undone.0, dirname, records[..n], stop, fault);
    }
  }

  /** A rollback that completes leaves every item as the earliest undone record saved it,
      and an item without an undone record as it was. */
  lemma {:induction false} RollbackRestores(tree: Tree, dirname: Path, records: seq<SnapshotRecord>, stop: Option<string>,
                                            fault: RollbackFault, kind: Kind, id: string)
    requires SeparateLayout(dirname) && Undoable(records)
    requires RollBack(tree, dirname, records, stop, fault).1
    ensures Sub(RollBack(tree, dirname, records, stop, fault).0, Target(dirname, kind, id)) ==
      AfterUndo(tree, dirname, records[KeptRecords(records, stop)..], kind, id)
    decreases |records|
  {
    var n, kept := |records| - 1, KeptRecords(records, stop);
    if records == [] || stop == Some(records[n].stepId) {
      assert records[kept..] == [];
    } else {
      var undone := UndoRecord(tree, dirname, records[n], FaultAt(fault, n));
      var older := records[..n][kept..];
      assert AfterUndo(undone.0, dirname, older, kind, id) == AfterUndo(tree, dirname, older + [records[n]], kind, id) by {
        assert Undoable([records[n]]);
        UndoRecordEffect(tree, dirname, records[n], FaultAt(fault, n));
        UndoLastFirst(tree, undone.0, dirname, older, records[n], kind, id);
      }
      assert records[kept..] == older + [records[n]];
      RollbackRestores(undone.0, dirname, records[..n], stop, fault, kind, id);
    }
  }

  // ---------------------------------------------------------------- the promises

  lemma {:induction false} KeepsAll(records: seq<SnapshotRecord>)
    ensures KeptRecords(records, None) == 0
  {
    if records != [] { KeepsAll(records[..|records| - 1]); }
  }

  /** A fresh driver runs any prefix of any plan, fails anywhere in any step, and rolls
      back: every item whose first touching step takes a snapshot is as it was before. */
  lemma FailedInstallIsUndone(tree: Tree, cfg: Config, steps: seq<Step>, ws: seq<Weather>, fault: RollbackFault,
                              kind: Kind, id: string)
    requires |steps| == |ws| && SeparateLayout(cfg.pluginsDirname) && ProperSteps(steps)
    requires Rooted(tree, cfg.pluginsDirname)
    requires ProperItem(kind, id) && FirstTouchSnapshots(steps, kind, id)
    ensures
      var (h, _) := RunSteps(Host(tree, []), cfg, steps, ws);
      var (after, done) := RollBack(h.tree, cfg.pluginsDirname, h.records, None, fault);
      done ==> Sub(after, Target(cfg.pluginsDirname, kind, id)) == Sub(tree, Target(cfg.pluginsDirname, kind, id))
  {
    var h0 := Host(tree, []);
    RunStepsEffect(h0, cfg, steps, ws);
    var (h, ok) := RunSteps(h0, cfg, steps, ws);
    assert ItemKept(h0, h, cfg.pluginsDirname, steps, ok, kind, id);
    assert h.records[|h0.records|..] == h.records[0..] == h.records;
    KeepsAll(h.records);
    if RollBack(h.tree, cfg.pluginsDirname, h.records, None, fault).1 {
      RollbackRestores(h.tree, cfg.pluginsDirname, h.records, None, fault, kind, id);
    }
  }

  lemma {:induction false} KeepsUpTo(older: seq<SnapshotRecord>, newer: seq<SnapshotRecord>, stop: string)
    requires older != [] && older[|older| - 1].stepId == stop
    requires forall r :: r in newer ==> r.stepId != stop
    ensures KeptRecords(older + newer, Some(stop)) == |older|
    decreases |newer|
  {
    if newer == [] {
      assert older + newer == older;
    } else {
      var n := |newer| - 1;
      assert (older + newer)[..|older + newer| - 1] == older + newer[..n];
      assert newer[n] in newer;
      KeepsUpTo(older, newer[..n], stop);
    }
  }

  /** Rolling back to a step that made the last record before `later` ran: every item that
      `later` touches first with a snapshot is as it was right after that step. */
  lemma RollbackToStep(h0: Host, cfg: Config, stop: string, later: seq<Step>, ws: seq<Weather>, fault: RollbackFault,
                       kind: Kind, id: string)
    requires |later| == |ws| && SeparateLayout(cfg.pluginsDirname) && ProperSteps(later)
    requires Rooted(h0.tree, cfg.pluginsDirname) && Recorded(h0)
    requires h0.records != [] && h0.records[|h0.records| - 1].stepId == stop
    requires forall s :: s in later ==> s.id != stop
    requires ProperItem(kind, id) && FirstTouchSnapshots(later, kind, id)
    ensures
      var (h, _) := RunSteps(h0, cfg, later, ws);
      var (after, done) := RollBack(h.tree, cfg.pluginsDirname, h.records, Some(stop), fault);
      done ==> Sub(after, Target(cfg.pluginsDirname, kind, id)) == Sub(h0.tree, Target(cfg.pluginsDirname, kind, id))
  {
    var (h, ok) := RunSteps(h0, cfg, later, ws);
    var older, dirname := |h0.records|, cfg.pluginsDirname;
    assert AfterUndo(h.tree, dirname, h.records[older..], kind, id) == Sub(h0.tree, Target(dirname, kind, id))
      && Undoable(h.records) && KeptRecords(h.records, Some(stop)) == older by {
      RunStepsEffect(h0, cfg, later, ws);
      assert ItemKept(h0, h, dirname, later, ok, kind, id);
      NewerKept(h0, h, dirname, later, ok, stop);
    }
    if RollBack(h.tree, dirname, h.records, Some(stop), fault).1 {
      RollbackRestores(h.tree, dirname, h.records, Some(stop), fault, kind, id);
    }
  }

  lemma NewerKept(h0: Host, h: Host, dirname: Path, later: seq<Step>, ok: bool, stop: string)
    requires RunEffect(h0, h, dirname, later, ok)
    requires h0.records != [] && h0.records[|h0.records| - 1].stepId == stop
    requires forall s :: s in later ==> s.id != stop
    ensures KeptRecords(h.records, Some(stop)) == |h0.records|
  {
    var newer := h.records[|h0.records|..];
    assert h.records == h0.records + newer;
    forall r | r in newer ensures r.stepId != stop {
      var i :| 0 <= i < |newer| && newer[i] == r;
      assert MadeBy(h.records[|h0.records| + i], later);
    }
    KeepsUpTo(h0.records, newer, stop);
  }

  /** A step that made no record does not stop the rollback at all. */
  lemma {:induction false} RollbackToUnrecordedStep(tree: Tree, dirname: Path, records: seq<SnapshotRecord>,
      stop: string, fault: RollbackFault)
    requires forall r :: r in records ==> r.stepId != stop
    ensures RollBack(tree, dirname, records, Some(stop), fault) == RollBack(tree, dirname, records, None, fault)
    decreases |records|
  {
    if records != [] {
      var n := |records| - 1;
      assert records[n] in records;
      var undone := UndoRecord(tree, dirname, records[n], FaultAt(fault, n));
      RollbackToUnrecordedStep(undone.0, dirname, records[..n], stop, fault);
    }
  }

  // ---------------------------------------------------------------- what a rollback leaves alone

  /** Whether it completes or not, a rollback does not change what lies apart from the
      items it has records of. */
  lemma {:induction false} RollbackElsewhere(tree: Tree, dirname: Path, records: seq<SnapshotRecord>, stop: Option<string>,
                                             fault: RollbackFault, other: Path)
    requires SeparateLayout(dirname) && Undoable(records)
    requires forall r :: r in records ==> Apart(RecordTarget(dirname, r), other)
    ensures
      var after := RollBack(tree, dirname, records, stop, fault).0;
      SameAt(tree, after, other) && Sub(after, other) == Sub(tree, other)
    decreases |records|
  {
    var n := |records| - 1;
    if records != [] && stop != Some(records[n].stepId) {
      assert records[n] in records && Undoable([records[n]]);
      UndoRecordEffect(tree, dirname, records[n], FaultAt(fault, n));
      var undone := UndoRecord(tree, dirname, records[n], FaultAt(fault, n));
      LocalElsewhere(tree, undone.0, RecordTarget(dirname, records[n]), other);
      RollbackElsewhere(undone.0, dirname, records[..n], stop, fault, other);
    }
  }

  /** An environment file that exists is changed by no step. */
  lemma StepKeepsEnvFile(h: Host, cfg: Config, step: Step, w: Weather, plugin: string)
    requires SeparateLayout(cfg.pluginsDirname) && Rooted(h.tree, cfg.pluginsDirname) && ProperSteps([step])
    requires PluginEnvFile(cfg.pluginsDirname, plugin) in h.tree
    ensures SameAt(h.tree, RunStep(h, cfg, step, w).0.tree, PluginEnvFile(cfg.pluginsDirname, plugin))
  {
    if step.action.InstallPlugin? {
      assert ProperItem(Plugin, [step][0].action.plugin);
      InstallKeepsEnvFile(h, cfg, step, Plugin, step.action.plugin, w, plugin);
    } else if step.action.InstallExtension? {
      InstallKeepsEnvFile(h, cfg, step, Extension, step.action.extension, w, plugin);
    } else if step.action.WriteEnv? {
      WithParentsAt(h.tree, PluginEnvFile(cfg.pluginsDirname, step.action.plugin), PluginEnvFile(cfg.pluginsDirname, plugin));
    } else {
      QuietStep(h, cfg, step, w);
    }
  }

  lemma InstallKeepsEnvFile(h: Host, cfg: Config, step: Step, kind: Kind, id: string, w: Weather, plugin: string)
    requires SeparateLayout(cfg.pluginsDirname) && Rooted(h.tree, cfg.pluginsDirname) && ProperItem(kind, id)
    ensures SameAt(h.tree, InstallItem(h, cfg, step, kind, id, w).0.tree, PluginEnvFile(cfg.pluginsDirname, plugin))
  {
    var dirname := cfg.pluginsDirname;
    var target, file := Target(dirname, kind, id), PluginEnvFile(dirname, plugin);
    if IsDir(cfg.extracted, target) {
      var (noted, taken) := if step.snapshot then TakeSnapshot(h, dirname, step.id, id, kind, w) else (h, true);
      if step.snapshot {
        SnapshotEffect(h, dirname, step.id, id, kind, w);
        SnapshotIsLocal(h, dirname, step.id, id, kind, w);
        TargetNotSaved(dirname, Plugin, plugin + ".env", SavedPath(step.id, id, w.now));
        LocalElsewhere(h.tree, noted.tree, SavedPath(step.id, id, w.now), file);
      }
      if taken {
        PlacementEffect(noted.tree, cfg, kind, id, w);
        EnvFileApart(dirname, kind, id, plugin);
        LocalElsewhere(noted.tree, Placement(noted.tree, cfg, kind, id, w).0, target, file);
      }
    }
  }

  /** Nor by a whole run, nor by the rollback after it, however either of them ends. */
  lemma EnvFileNeverChanges(h0: Host, cfg: Config, steps: seq<Step>, ws: seq<Weather>, stop: Option<string>,
      fault: RollbackFault, plugin: string)
    requires |steps| == |ws| && SeparateLayout(cfg.pluginsDirname) && ProperSteps(steps)
    requires Rooted(h0.tree, cfg.pluginsDirname) && Recorded(h0)
    requires PluginEnvFile(cfg.pluginsDirname, plugin) in h0.tree
    ensures
      var file := PluginEnvFile(cfg.pluginsDirname, plugin);
      var (h, _) := RunSteps(h0, cfg, steps, ws);
      SameAt(h0.tree, h.tree, file) && SameAt(h0.tree, RollBack(h.tree, cfg.pluginsDirname, h.records, stop, fault).0, file)
  {
    var file := PluginEnvFile(cfg.pluginsDirname, plugin);
    var h := RunSteps(h0, cfg, steps, ws).0;
    RunKeepsEnvFile(h0, cfg, steps, ws, plugin);
    RunStepsEffect(h0, cfg, steps, ws);
    forall r | r in h.records ensures Apart(RecordTarget(cfg.pluginsDirname, r), file) {
      EnvFileApart(cfg.pluginsDirname, r.kind, r.itemId, plugin);
    }
    RollbackElsewhere(h.tree, cfg.pluginsDirname, h.records, stop, fault, file);
  }

  lemma {:induction false} RunKeepsEnvFile(h0: Host, cfg: Config, steps: seq<Step>, ws: seq<Weather>, plugin: string)
    requires |steps| == |ws| && SeparateLayout(cfg.pluginsDirname) && ProperSteps(steps)
    requires Rooted(h0.tree, cfg.pluginsDirname) && Recorded(h0)
    requires PluginEnvFile(cfg.pluginsDirname, plugin) in h0.tree
    ensures SameAt(h0.tree, RunSteps(h0, cfg, steps, ws).0.tree, PluginEnvFile(cfg.pluginsDirname, plugin))
    decreases |steps|
  {
    if steps != [] {
      var n := |steps| - 1;
      assert ProperSteps(steps[..n]) && ProperSteps([steps[n]]);
      RunKeepsEnvFile(h0, cfg, steps[..n], ws[..n], plugin);
      RunStepsEffect(h0, cfg, steps[..n], ws[..n]);
      var (h, ok) := RunSteps(h0, cfg, steps[..n], ws[..n]);
      if ok { StepKeepsEnvFile(h, cfg, steps[n], ws[n], plugin); }
    }
  }

  /** A first `write_env` succeeds exactly when every required key has a value, in the
      process environment or else in the template. */
  lemma FirstWriteEnvSucceedsExactly(tree: Tree, cfg: Config, plugin: string, from: string, now: nat, ref: PluginRef)
    requires PluginEnvFile(cfg.pluginsDirname, plugin) !in tree
    requires !ParentsBlocked(tree, PluginEnvFile(cfg.pluginsDirname, plugin)) && IsFile(cfg.extracted, PathOf(from))
    requires cfg.plugins.Some? && FindPlugin(cfg.plugins.value, plugin) == Some(ref)
    requires forall key :: key in cfg.osEnvironment ==> '\n' !in cfg.osEnvironment[key]
    ensures
      var values := Override(ParseText(cfg.extracted[PathOf(from)].data), cfg.osEnvironment);
      WriteEnvFile(tree, cfg, plugin, from, Weather(NoFault, now)).1 <==>
        forall key :: key in ref.required ==> key in values && values[key] != ""
  {
    var target, template := PluginEnvFile(cfg.pluginsDirname, plugin), cfg.extracted[PathOf(from)].data;
    SeedingCommutesWithParsing(template, cfg.osEnvironment);
    FreshEnvFile(tree, cfg, plugin, from, now);
  }

  lemma FreshEnvFile(tree: Tree, cfg: Config, plugin: string, from: string, now: nat)
    requires PluginEnvFile(cfg.pluginsDirname, plugin) !in tree
    requires !ParentsBlocked(tree, PluginEnvFile(cfg.pluginsDirname, plugin)) && IsFile(cfg.extracted, PathOf(from))
    ensures
      var text := SeedText(cfg.extracted[PathOf(from)].data, cfg.osEnvironment);
      WriteEnvFile(tree, cfg, plugin, from, Weather(NoFault, now)).1 <==>
        NothingRequired(cfg, plugin) || MissingNothing(cfg, plugin, text)
  {
  }

  // ---------------------------------------------------------------- that a rollback completes

  predicate CopiesBack(tree: Tree, r: SnapshotRecord) {
    r.savedPath.Some? && r.savedPath.value in tree
  }

  predicate Unobstructed(tree: Tree, target: Path) {
    !IsFile(tree, target) && !ParentsBlocked(tree, target)
  }

  /** Nothing keeps this record from being undone. */
  predicate Undoes(tree: Tree, dirname: Path, r: SnapshotRecord) {
    && !IsFile(tree, RecordTarget(dirname, r))
    && (CopiesBack(tree, r) ==> IsDir(tree, r.savedPath.value) && !ParentsBlocked(tree, RecordTarget(dirname, r)))
  }

  lemma PrefixOfPrefix(root: Path, target: Path, k: nat)
    requires k < |target| && root <= target[..k]
    ensures root <= target && root != target
  {
  }

  /** A change at or apart from a directory puts no file above it, and takes none away. */
  lemma LocalKeepsParents(a: Tree, b: Tree, root: Path, target: Path)
    requires LocalTo(a, b, root) && (Apart(root, target) || root == target)
    ensures ParentsBlocked(b, target) <==> ParentsBlocked(a, target)
  {
    forall k | 0 <= k < |target| ensures IsFile(b, target[..k]) <==> IsFile(a, target[..k]) {
      var q := target[..k];
      if root <= q { PrefixOfPrefix(root, target, k); }
      assert SameAt(a, b, q) || (q < root && q !in a && IsDir(b, q));
    }
  }

  lemma UndoRecordSucceeds(tree: Tree, dirname: Path, r: SnapshotRecord)
    requires SeparateLayout(dirname) && Undoable([r])
    ensures UndoRecord(tree, dirname, r, None).1 <==> Undoes(tree, dirname, r)
  {
    var target := RecordTarget(dirname, r);
    var cleared := Remove(tree, target);
    RemoveLocal(tree, target);
    LocalKeepsParents(tree, cleared, target, target);
    SavedOutlivesTarget(tree, dirname, r);
  }

  lemma SavedOutlivesTarget(tree: Tree, dirname: Path, r: SnapshotRecord)
    requires SeparateLayout(dirname) && Undoable([r])
    ensures r.savedPath.Some? ==> SameAt(tree, Remove(tree, RecordTarget(dirname, r)), r.savedPath.value)
  {
    assert r in [r];
    if r.savedPath.Some? {
      assert r.savedPath.value[0] == r.savedPath.value[..1][0];
      TargetNotSaved(dirname, r.kind, r.itemId, r.savedPath.value);
    }
  }

  lemma UndoneIsNoFile(tree: Tree, dirname: Path, r: SnapshotRecord)
    requires SeparateLayout(dirname) && Undoable([r]) && Undoes(tree, dirname, r)
    ensures !IsFile(UndoRecord(tree, dirname, r, None).0, RecordTarget(dirname, r))
  {
    var target := RecordTarget(dirname, r);
    var cleared := Remove(tree, target);
    SavedOutlivesTarget(tree, dirname, r);
    if CopiesBack(tree, r) {
      SavedComesBackAsDir(cleared, target, r.savedPath.value);
    }
  }

  lemma SavedComesBackAsDir(cleared: Tree, target: Path, saved: Path)
    requires IsDir(cleared, saved)
    ensures !IsFile(CopyBack(cleared, saved, target), target)
  {
    assert saved + [] == saved;
    SubAt(cleared, saved, []);
    GraftAt(WithParents(cleared, target), target, Sub(cleared, saved), target);
    assert target[|target|..] == [];
  }

  /** Undoing one record neither helps nor hinders another. */
  lemma UndoKeepsUndoes(tree: Tree, dirname: Path, r: SnapshotRecord, q: SnapshotRecord)
    requires SeparateLayout(dirname) && Undoable([r]) && Undoable([q]) && Undoes(tree, dirname, r)
    ensures Undoes(UndoRecord(tree, dirname, r, None).0, dirname, q) <==> Undoes(tree, dirname, q)
  {
    var after := UndoRecord(tree, dirname, r, None).0;
    var root, target := RecordTarget(dirname, r), RecordTarget(dirname, q);
    UndoRecordEffect(tree, dirname, r, None);
    UndoneIsNoFile(tree, dirname, r);
    if root != target {
      TargetsApart(dirname, r.kind, r.itemId, q.kind, q.itemId);
      LocalElsewhere(tree, after, root, target);
    }
    LocalKeepsParents(tree, after, root, target);
    SavedRootSame(tree, after, q);
  }

  lemma SavedRootSame(a: Tree, b: Tree, q: SnapshotRecord)
    requires SavedSame(a, b) && Undoable([q])
    ensures q.savedPath.Some? ==> SameAt(a, b, q.savedPath.value)
  {
    assert q in [q];
    if q.savedPath.Some? {
      var s := q.savedPath.value;
      assert s + [] == s;
      SubAt(a, s, []);
      SubAt(b, s, []);
    }
  }

  /** All the records that rolling back to `stop` undoes can be undone. */
  ghost predicate AllUndo(tree: Tree, dirname: Path, records: seq<SnapshotRecord>, stop: Option<string>) {
    forall i :: KeptRecords(records, stop) <= i < |records| ==> Undoes(tree, dirname, records[i])
  }

  lemma AllUndoNext(tree: Tree, dirname: Path, records: seq<SnapshotRecord>, stop: Option<string>)
    requires SeparateLayout(dirname) && Undoable(records)
    requires records != [] && stop != Some(records[|records| - 1].stepId)
    ensures
      var n := |records| - 1;
      AllUndo(tree, dirname, records, stop) <==>
        Undoes(tree, dirname, records[n]) && AllUndo(UndoRecord(tree, dirname, records[n], None).0, dirname, records[..n], stop)
  {
    var n := |records| - 1;
    if Undoes(tree, dirname, records[n]) {
      assert records[n] in records;
      forall i | 0 <= i < n
        ensures Undoes(UndoRecord(tree, dirname, records[n], None).0, dirname, records[i]) <==> Undoes(tree, dirname, records[i])
      {
        assert records[i] in records;
        UndoKeepsUndoes(tree, dirname, records[n], records[i]);
      }
    }
  }

  /** A rollback that meets no error runs to its end exactly if none of the items to undo is
      a file now, and those to copy back have saved directories and only directories above. */
  lemma {:induction false} RollbackCompletes(tree: Tree, dirname: Path, records: seq<SnapshotRecord>, stop: Option<string>)
    requires SeparateLayout(dirname) && Undoable(records)
    ensures RollBack(tree, dirname, records, stop, Smooth).1 <==> AllUndo(tree, dirname, records, stop)
    decreases |records|
  {
    var n := |records| - 1;
    if records != [] && stop != Some(records[n].stepId) {
      assert records[n] in records;
      AllUndoNext(tree, dirname, records, stop);
      UndoRecordSucceeds(tree, dirname, records[n]);
      RollbackCompletes(UndoRecord(tree, dirname, records[n], None).0, dirname, records[..n], stop);
    }
  }

  // ---- along a run

  /** Above what exists there are only directories. */
  ghost predicate Supported(tree: Tree, dirname: Path) {
    forall kind, id :: ProperItem(kind, id) ==> SupportedAt(tree, Target(dirname, kind, id))
  }

  predicate SupportedAt(tree: Tree, target: Path) { target in tree ==> !ParentsBlocked(tree, target) }

  /** No file appears at the target or above it, and the target itself appears only where
      there is none above. */
  predicate Steady(a: Tree, b: Tree, target: Path) {
    && (!IsFile(a, target) ==> !IsFile(b, target))
    && (ParentsBlocked(a, target) <==> ParentsBlocked(b, target))
    && (target in b && target !in a ==> !ParentsBlocked(a, target))
  }

  lemma LocalIsSteady(a: Tree, b: Tree, root: Path, target: Path)
    requires LocalTo(a, b, root) && Apart(root, target)
    ensures Steady(a, b, target)
  {
    LocalElsewhere(a, b, root, target);
    LocalKeepsParents(a, b, root, target);
  }

  lemma PlacementIsSteady(tree: Tree, cfg: Config, kind: Kind, id: string, w: Weather)
    requires SeparateLayout(cfg.pluginsDirname) && Rooted(tree, cfg.pluginsDirname) && ProperItem(kind, id)
    requires IsDir(cfg.extracted, Target(cfg.pluginsDirname, kind, id))
    ensures Steady(tree, Placement(tree, cfg, kind, id, w).0, Target(cfg.pluginsDirname, kind, id))
  {
    var target := Target(cfg.pluginsDirname, kind, id);
    PlacementEffect(tree, cfg, kind, id, w);
    LocalKeepsParents(tree, Placement(tree, cfg, kind, id, w).0, target, target);
    RemoveLocal(tree, target);
    LocalKeepsParents(tree, Remove(tree, target), target, target);
    PlacedWhereFree(tree, cfg, kind, id, w);
  }

  lemma PlacedWhereFree(tree: Tree, cfg: Config, kind: Kind, id: string, w: Weather)
    ensures
      var target := Target(cfg.pluginsDirname, kind, id);
      target in Placement(tree, cfg, kind, id, w).0 ==> target in tree || !ParentsBlocked(Remove(tree, target), target)
  {
  }

  lemma InstallIsSteady(h: Host, cfg: Config, step: Step, kind: Kind, id: string, w: Weather, k: Kind, i: string)
    requires SeparateLayout(cfg.pluginsDirname) && Rooted(h.tree, cfg.pluginsDirname) && ProperItem(kind, id)
    ensures Steady(h.tree, InstallItem(h, cfg, step, kind, id, w).0.tree, Target(cfg.pluginsDirname, k, i))
  {
    var dirname := cfg.pluginsDirname;
    var target, other := Target(dirname, kind, id), Target(dirname, k, i);
    if IsDir(cfg.extracted, target) {
      var (noted, taken) := if step.snapshot then TakeSnapshot(h, dirname, step.id, id, kind, w) else (h, true);
      if step.snapshot {
        SnapshotEffect(h, dirname, step.id, id, kind, w);
        SnapshotIsLocal(h, dirname, step.id, id, kind, w);
        TargetNotSaved(dirname, k, i, SavedPath(step.id, id, w.now));
        LocalIsSteady(h.tree, noted.tree, SavedPath(step.id, id, w.now), other);
      }
      if taken {
        var after := Placement(noted.tree, cfg, kind, id, w).0;
        if k == kind && i == id {
          PlacementIsSteady(noted.tree, cfg, kind, id, w);
        } else {
          PlacementEffect(noted.tree, cfg, kind, id, w);
          TargetsApart(dirname, kind, id, k, i);
          LocalIsSteady(noted.tree, after, target, other);
        }
      }
    }
  }

  lemma WriteEnvLocal(tree: Tree, cfg: Config, plugin: string, from: string, w: Weather)
    ensures LocalTo(tree, WriteEnvFile(tree, cfg, plugin, from, w).0, PluginEnvFile(cfg.pluginsDirname, plugin))
  {
    WithParentsLocal(tree, PluginEnvFile(cfg.pluginsDirname, plugin));
  }

  lemma WriteEnvIsSteady(tree: Tree, cfg: Config, plugin: string, from: string, w: Weather, kind: Kind, id: string)
    requires SeparateLayout(cfg.pluginsDirname) && ProperItem(kind, id)
    ensures Steady(tree, WriteEnvFile(tree, cfg, plugin, from, w).0, Target(cfg.pluginsDirname, kind, id))
  {
    var target := Target(cfg.pluginsDirname, kind, id);
    WriteEnvLocal(tree, cfg, plugin, from, w);
    EnvFileApart(cfg.pluginsDirname, kind, id, plugin);
    LocalIsSteady(tree, WriteEnvFile(tree, cfg, plugin, from, w).0, PluginEnvFile(cfg.pluginsDirname, plugin), target);
  }

  lemma InstallStep(h: Host, cfg: Config, step: Step, w: Weather)
    ensures step.action.InstallPlugin? ==> RunStep(h, cfg, step, w) == InstallItem(h, cfg, step, Plugin, step.action.plugin, w)
    ensures step.action.InstallExtension? ==>
      RunStep(h, cfg, step, w) == InstallItem(h, cfg, step, Extension, step.action.extension, w)
  {
  }

  lemma StepIsSteady(h: Host, cfg: Config, step: Step, w: Weather, kind: Kind, id: string)
    requires SeparateLayout(cfg.pluginsDirname) && Rooted(h.tree, cfg.pluginsDirname) && ProperSteps([step])
    requires ProperItem(kind, id)
    ensures Steady(h.tree, RunStep(h, cfg, step, w).0.tree, Target(cfg.pluginsDirname, kind, id))
  {
    InstallStep(h, cfg, step, w);
    if step.action.InstallPlugin? {
      assert ProperItem(Plugin, [step][0].action.plugin);
      InstallIsSteady(h, cfg, step, Plugin, step.action.plugin, w, kind, id);
    } else if step.action.InstallExtension? {
      InstallIsSteady(h, cfg, step, Extension, step.action.extension, w, kind, id);
    } else if step.action.WriteEnv? {
      WriteEnvIsSteady(h.tree, cfg, step.action.plugin, step.action.from, w, kind, id);
    } else {
      QuietStep(h, cfg, step, w);
    }
  }

  ghost predicate EveryUndoes(h: Host, dirname: Path) {
    forall r :: r in h.records ==> Undoes(h.tree, dirname, r)
  }

  /** A record that could be undone before a step can be undone after it. */
  lemma StaysUndoable(h: Host, h': Host, dirname: Path, step: Step, ok: bool, r: SnapshotRecord)
    requires StepEffect(h, h', dirname, step, ok) && Recorded(h) && r in h.records
    requires Steady(h.tree, h'.tree, RecordTarget(dirname, r)) && Undoes(h.tree, dirname, r)
    ensures Undoes(h'.tree, dirname, r)
  {
    if r.savedPath.Some? {
      var s := r.savedPath.value;
      assert s + [] == s;
      SubAt(h.tree, s, []);
      SubAt(h'.tree, s, []);
    }
  }

  /** A new record is of a directory that was copied, or of an item that was not there. */
  lemma NewIsUndoable(h: Host, h': Host, dirname: Path, step: Step, r: SnapshotRecord)
    requires OwnRecord(step, h.tree, h'.tree, dirname, r)
    requires SupportedAt(h.tree, RecordTarget(dirname, r)) && Steady(h.tree, h'.tree, RecordTarget(dirname, r))
    ensures Undoes(h'.tree, dirname, r)
  {
    if r.savedPath.Some? {
      var s, target := r.savedPath.value, RecordTarget(dirname, r);
      assert s + [] == s && target + [] == target;
      SubAt(h'.tree, s, []);
      SubAt(h.tree, target, []);
    }
  }

  lemma StepKeepsUndoable(h: Host, cfg: Config, step: Step, w: Weather)
    requires SeparateLayout(cfg.pluginsDirname) && Rooted(h.tree, cfg.pluginsDirname) && ProperSteps([step])
    requires Supported(h.tree, cfg.pluginsDirname) && Recorded(h) && EveryUndoes(h, cfg.pluginsDirname)
    ensures
      var h' := RunStep(h, cfg, step, w).0;
      Supported(h'.tree, cfg.pluginsDirname) && EveryUndoes(h', cfg.pluginsDirname)
  {
    var (h', ok) := RunStep(h, cfg, step, w);
    var dirname := cfg.pluginsDirname;
    RunStepEffect(h, cfg, step, w);
    forall kind, id | ProperItem(kind, id)
      ensures Steady(h.tree, h'.tree, Target(dirname, kind, id)) && SupportedAt(h'.tree, Target(dirname, kind, id))
    {
      StepIsSteady(h, cfg, step, w, kind, id);
      assert SupportedAt(h.tree, Target(dirname, kind, id));
    }
    forall r | r in h'.records ensures Undoes(h'.tree, dirname, r) {
      if r in h.records {
        StaysUndoable(h, h', dirname, step, ok, r);
      } else {
        var q :| h'.records == h.records + [q] && OwnRecord(step, h.tree, h'.tree, dirname, q);
        assert ProperItem(r.kind, r.itemId) by {
          if r.kind.Plugin? { assert [step][0].action.plugin == r.itemId; }
        }
        NewIsUndoable(h, h', dirname, step, r);
      }
    }
  }

  lemma {:induction false} RunKeepsUndoable(h0: Host, cfg: Config, steps: seq<Step>, ws: seq<Weather>)
    requires |steps| == |ws| && SeparateLayout(cfg.pluginsDirname) && ProperSteps(steps)
    requires Rooted(h0.tree, cfg.pluginsDirname) && Supported(h0.tree, cfg.pluginsDirname)
    requires Recorded(h0) && EveryUndoes(h0, cfg.pluginsDirname)
    ensures
      var h := RunSteps(h0, cfg, steps, ws).0;
      Supported(h.tree, cfg.pluginsDirname) && EveryUndoes(h, cfg.pluginsDirname)
    decreases |steps|
  {
    if steps != [] {
      var n := |steps| - 1;
      assert ProperSteps(steps[..n]) && ProperSteps([steps[n]]);
      RunKeepsUndoable(h0, cfg, steps[..n], ws[..n]);
      RunStepsEffect(h0, cfg, steps[..n], ws[..n]);
      var (h, ok) := RunSteps(h0, cfg, steps[..n], ws[..n]);
      if ok { StepKeepsUndoable(h, cfg, steps[n], ws[n]); }
    }
  }

  /** However a run ends, rolling it back completes unless the rollback meets an error itself. */
  lemma RollbackOfRunCompletes(tree: Tree, cfg: Config, steps: seq<Step>, ws: seq<Weather>, stop: Option<string>)
    requires |steps| == |ws| && SeparateLayout(cfg.pluginsDirname) && ProperSteps(steps)
    requires Rooted(tree, cfg.pluginsDirname) && Supported(tree, cfg.pluginsDirname)
    ensures
      var (h, _) := RunSteps(Host(tree, []), cfg, steps, ws);
      RollBack(h.tree, cfg.pluginsDirname, h.records, stop, Smooth).1
  {
    var h := RunSteps(Host(tree, []), cfg, steps, ws).0;
    RunKeepsUndoable(Host(tree, []), cfg, steps, ws);
    RunStepsEffect(Host(tree, []), cfg, steps, ws);
    RollbackCompletes(h.tree, cfg.pluginsDirname, h.records, stop);
  }

  // ---------------------------------------------------------------- rolling back twice

  ghost predicate UnderSome(records: seq<SnapshotRecord>, dirname: Path, p: Path) {
    exists i :: 0 <= i < |records| && RecordTarget(dirname, records[i]) <= p
  }

  /** `p` is above the target of a record that has something to copy back. */
  ghost predicate AboveSome(tree: Tree, records: seq<SnapshotRecord>, dirname: Path, p: Path) {
    exists i :: 0 <= i < |records| && p < RecordTarget(dirname, records[i]) && CopiesBack(tree, records[i])
  }

  lemma AboveSomeSame(a: Tree, b: Tree, records: seq<SnapshotRecord>, dirname: Path, p: Path)
    requires SavedSame(a, b) && Undoable(records)
    ensures AboveSome(a, records, dirname, p) <==> AboveSome(b, records, dirname, p)
  {
    assert forall i :: 0 <= i < |records| ==> (CopiesBack(a, records[i]) <==> CopiesBack(b, records[i]));
  }

  lemma AboveSomeLast(tree: Tree, records: seq<SnapshotRecord>, dirname: Path, p: Path)
    requires records != []
    ensures AboveSome(tree, records, dirname, p) <==>
      AboveSome(tree, records[..|records| - 1], dirname, p) ||
      (p < RecordTarget(dirname, records[|records| - 1]) && CopiesBack(tree, records[|records| - 1]))
  {
    var n := |records| - 1;
    if AboveSome(tree, records[..n], dirname, p) {
      var i :| 0 <= i < n && p < RecordTarget(dirname, records[..n][i]) && CopiesBack(tree, records[..n][i]);
      assert records[i] == records[..n][i];
    }
  }

  /** One undone record, away from its target. */
  lemma UndoRecordAbove(tree: Tree, dirname: Path, r: SnapshotRecord, fault: Option<Remains>, p: Path)
    requires SeparateLayout(dirname) && Undoable([r]) && UndoRecord(tree, dirname, r, fault).1
    requires !(RecordTarget(dirname, r) <= p)
    ensures
      var after := UndoRecord(tree, dirname, r, fault).0;
      if p < RecordTarget(dirname, r) && CopiesBack(tree, r) && p !in tree then IsDir(after, p) else SameAt(tree, after, p)
  {
    assert r in [r];
    var target := RecordTarget(dirname, r);
    var cleared := Remove(tree, target);
    assert SameAt(tree, cleared, p);
    if r.savedPath.Some? {
      var saved := r.savedPath.value;
      assert SameAt(tree, cleared, saved) by {
        assert saved[0] == saved[..1][0];
        TargetNotSaved(dirname, r.kind, r.itemId, saved);
      }
      if saved in cleared {
        CopiedBackAt(cleared, target, saved, p);
      }
    }
  }

  lemma CopiedBackAt(cleared: Tree, target: Path, saved: Path, p: Path)
    requires !(target <= p)
    ensures
      var after := CopyBack(cleared, saved, target);
      if p < target && p !in cleared then IsDir(after, p) else SameAt(cleared, after, p)
  {
    WithParentsAt(cleared, target, p);
    GraftAt(WithParents(cleared, target), target, Sub(cleared, saved), p);
  }

  /** Away from every recorded item, a completed rollback adds exactly the missing
      directories above the items it copied back. */
  lemma {:induction false} RollbackAbove(tree: Tree, dirname: Path, records: seq<SnapshotRecord>,
      fault: RollbackFault, p: Path)
    requires SeparateLayout(dirname) && Undoable(records) && RollBack(tree, dirname, records, None, fault).1
    requires !UnderSome(records, dirname, p)
    ensures
      var after := RollBack(tree, dirname, records, None, fault).0;
      if AboveSome(tree, records, dirname, p) && p !in tree then IsDir(after, p) else SameAt(tree, after, p)
    decreases |records|
  {
    if records != [] {
      var n := |records| - 1;
      var undone := UndoRecord(tree, dirname, records[n], FaultAt(fault, n));
      assert Undoable([records[n]]) && Undoable(records[..n]);
      UndoRecordAbove(tree, dirname, records[n], FaultAt(fault, n), p);
      UndoRecordEffect(tree, dirname, records[n], FaultAt(fault, n));
      assert !UnderSome(records[..n], dirname, p);
      RollbackAbove(undone.0, dirname, records[..n], fault, p);
      AboveSomeLast(tree, records, dirname, p);
      AboveSomeSame(tree, undone.0, records[..n], dirname, p);
    }
  }

  lemma {:induction false} RestoredIfRecorded(tree: Tree, dirname: Path, records: seq<SnapshotRecord>, i: nat)
    requires i < |records|
    ensures Restored(tree, dirname, records, RecordTarget(dirname, records[i])).Some?
  {
    if i < |records| - 1 { RestoredIfRecorded(tree, dirname, records[..|records| - 1], i); }
  }

  /** A rollback that completes has met no error. */
  lemma {:induction false} CompletedIsSmooth(tree: Tree, dirname: Path, records: seq<SnapshotRecord>, stop: Option<string>,
                                             fault: RollbackFault)
    requires RollBack(tree, dirname, records, stop, fault).1
    ensures RollBack(tree, dirname, records, stop, fault) == RollBack(tree, dirname, records, stop, Smooth)
    decreases |records|
  {
    var n := |records| - 1;
    if records != [] && stop != Some(records[n].stepId) {
      CompletedIsSmooth(UndoRecord(tree, dirname, records[n], None).0, dirname, records[..n], stop, fault);
    }
  }

  lemma {:induction false} RollbackKeepsUndoes(tree: Tree, dirname: Path, records: seq<SnapshotRecord>, q: SnapshotRecord)
    requires SeparateLayout(dirname) && Undoable(records) && Undoable([q])
    requires RollBack(tree, dirname, records, None, Smooth).1
    ensures Undoes(RollBack(tree, dirname, records, None, Smooth).0, dirname, q) <==> Undoes(tree, dirname, q)
    decreases |records|
  {
    if records != [] {
      var n := |records| - 1;
      assert records[n] in records;
      UndoRecordSucceeds(tree, dirname, records[n]);
      UndoKeepsUndoes(tree, dirname, records[n], q);
      RollbackKeepsUndoes(UndoRecord(tree, dirname, records[n], None).0, dirname, records[..n], q);
    }
  }

  lemma SecondCompletes(tree: Tree, dirname: Path, records: seq<SnapshotRecord>)
    requires SeparateLayout(dirname) && Undoable(records) && RollBack(tree, dirname, records, None, Smooth).1
    ensures RollBack(RollBack(tree, dirname, records, None, Smooth).0, dirname, records, None, Smooth).1
  {
    var once := RollBack(tree, dirname, records, None, Smooth).0;
    RollbackCompletes(tree, dirname, records, None);
    RollbackCompletes(once, dirname, records, None);
    KeepsAll(records);
    forall i | 0 <= i < |records| ensures Undoes(once, dirname, records[i]) {
      assert records[i] in records && Undoes(tree, dirname, records[i]);
      RollbackKeepsUndoes(tree, dirname, records, records[i]);
    }
  }

  /** Rolling back a second time runs to its end as well, and changes nothing at all. */
  lemma RollbackTwice(tree: Tree, dirname: Path, records: seq<SnapshotRecord>, fault: RollbackFault)
    requires SeparateLayout(dirname) && Undoable(records) && RollBack(tree, dirname, records, None, fault).1
    ensures
      var once := RollBack(tree, dirname, records, None, fault).0;
      RollBack(once, dirname, records, None, Smooth) == (once, true)
  {
    var once := RollBack(tree, dirname, records, None, fault).0;
    var twice := RollBack(once, dirname, records, None, Smooth).0;
    CompletedIsSmooth(tree, dirname, records, None, fault);
    SecondCompletes(tree, dirname, records);
    RollbackKeepsSaved(tree, dirname, records, None, fault);
    forall p ensures SameAt(once, twice, p) { SecondIsSameAt(tree, dirname, records, fault, p); }
    SameEverywhere(once, twice);
  }

  lemma SecondIsSameAt(tree: Tree, dirname: Path, records: seq<SnapshotRecord>, fault: RollbackFault, p: Path)
    requires SeparateLayout(dirname) && Undoable(records) && RollBack(tree, dirname, records, None, fault).1
    requires RollBack(RollBack(tree, dirname, records, None, fault).0, dirname, records, None, Smooth).1
    ensures
      var once := RollBack(tree, dirname, records, None, fault).0;
      SameAt(once, RollBack(once, dirname, records, None, Smooth).0, p)
  {
    var once := RollBack(tree, dirname, records, None, fault).0;
    var twice := RollBack(once, dirname, records, None, Smooth).0;
    RollbackKeepsSaved(tree, dirname, records, None, fault);
    if UnderSome(records, dirname, p) {
      var i :| 0 <= i < |records| && RecordTarget(dirname, records[i]) <= p;
      SecondRestoresSame(tree, dirname, records, fault, i);
      var target := RecordTarget(dirname, records[i]);
      assert p == target + p[|target|..];
      SubAt(once, target, p[|target|..]);
      SubAt(twice, target, p[|target|..]);
    } else {
      RollbackAbove(tree, dirname, records, fault, p);
      RollbackAbove(once, dirname, records, Smooth, p);
      AboveSomeSame(tree, once, records, dirname, p);
    }
  }

  lemma SecondRestoresSame(tree: Tree, dirname: Path, records: seq<SnapshotRecord>, fault: RollbackFault, i: nat)
    requires SeparateLayout(dirname) && Undoable(records) && i < |records|
    requires RollBack(tree, dirname, records, None, fault).1
    requires RollBack(RollBack(tree, dirname, records, None, fault).0, dirname, records, None, Smooth).1
    ensures
      var once := RollBack(tree, dirname, records, None, fault).0;
      var target := RecordTarget(dirname, records[i]);
      Sub(RollBack(once, dirname, records, None, Smooth).0, target) == Sub(once, target)
  {
    var once := RollBack(tree, dirname, records, None, fault).0;
    var r := records[i];
    RollbackKeepsSaved(tree, dirname, records, None, fault);
    KeepsAll(records);
    assert records[0..] == records;
    RollbackRestores(tree, dirname, records, None, fault, r.kind, r.itemId);
    RollbackRestores(once, dirname, records, None, Smooth, r.kind, r.itemId);
    RestoredSame(tree, once, dirname, records, RecordTarget(dirname, r));
    RestoredIfRecorded(tree, dirname, records, i);
  }
}
