/** One tick of the multi-source poller: every marketplace source of a plan is checked and
    brought up to date on its own. */
module WatchSources {
  import opened Wrappers
  import opened FileTree
  import opened InstallSchema
  import opened Overlays

  datatype SourceUpdate = SourceUpdate(
    id: string, kind: string, slug: string, fromVersion: Option<string>, toVersion: string)

  /** A step that names a source: the resolver's key for it and the directory it fills. */
  datatype Item = Item(kind: string, key: string, target: Path, source: PluginSource)

  function ItemOf(step: Step, dirname: Path): Option<Item> {
    match step.action
    case InstallPlugin(id, Some(source)) => Some(Item("plugin", id, dirname + [id], source))
    case InstallExtension(id, Some(source)) => Some(Item("extension", "ext-" + id, ["extensions", id], source))
    case _ => None
  }

  /** What the marketplace and the resolver answer for each step of the plan in one tick;
      nothing stands for an exception. */
  datatype Answers = Answers(
    latest: (nat, string, string) -> Option<string>,
    resolve: (nat, string, PluginSource) -> Option<Folder>)

  type Record = map<string, string>

  function Get(record: Record, id: string): Option<string> {
    if id in record then Some(record[id]) else None
  }

  /** What is taken to be installed: the recorded version, else the plan's own pin. */
  function Current(record: Record, id: string, pin: string): Option<string> {
    if id in record then Some(record[id]) else if pin != "latest" then Some(pin) else None
  }

  // ---------------------------------------------------------------- one step

  datatype Decision = Skip | Confirm(version: string) | Update(item: Item, version: string, tree: Folder) | Abort

  function Decide(step: Step, i: nat, dirname: Path, record: Record, answers: Answers): Decision {
    var item := ItemOf(step, dirname);
    if item.None? then Skip
    else if item.value.source.origin.Git? then Abort
    else
      var Marketplace(slug, pin, kind) := item.value.source.origin;
      var latest := answers.latest(i, slug, kind);
      if latest.None? then Skip
      else if Current(record, step.id, pin) == latest then Confirm(latest.value)
      else
        var tree := answers.resolve(i, item.value.key, Pinned(item.value.source, latest.value));
        if tree.None? then Skip else Update(item.value, latest.value, tree.value)
  }

  /** `source.model_copy(update={"marketplace_version": latest})`. */
  function Pinned(source: PluginSource, version: string): PluginSource
    requires source.origin.Marketplace?
  {
    source.(origin := source.origin.(version := version))
  }

  function Recorded(record: Record, id: string, d: Decision): Record {
    if d.Confirm? || d.Update? then record[id := d.version] else record
  }

  function Reported(step: Step, record: Record, d: Decision): SourceUpdate
    requires d.Update? && d.item.source.origin.Marketplace?
  {
    var Marketplace(slug, pin, _) := d.item.source.origin;
    SourceUpdate(step.id, d.item.kind, slug, Current(record, step.id, pin), d.version)
  }

  function EffectOf(d: Decision): Effect {
    match d
    case Update(item, _, tree) => Write(item.target, tree)
    case Abort => Halt
    case _ => Idle
  }

  // ---------------------------------------------------------------- one tick

  datatype Tick = Tick(steps: seq<Step>, dirname: Path, answers: Answers)

  /** What is remembered after the first `n` steps. */
  function RecordAfter(record: Record, t: Tick, n: nat): Record
    requires n <= |t.steps|
    decreases n, 0
  {
    if n == 0 then record
    else Recorded(RecordAfter(record, t, n - 1), t.steps[n - 1].id, DecisionAt(record, t, n - 1))
  }

  /** What is decided for step `i` when its turn comes. */
  function DecisionAt(record: Record, t: Tick, i: nat): Decision
    requires i < |t.steps|
    decreases i, 1
  {
    Decide(t.steps[i], i, t.dirname, RecordAfter(record, t, i), t.answers)
  }

  function Effects(record: Record, t: Tick, n: nat): (es: seq<Effect>)
    requires n <= |t.steps|
    ensures |es| == n
  {
    seq(n, i requires 0 <= i < n => EffectOf(DecisionAt(record, t, i)))
  }

  /** What is reported after the first `n` steps. */
  function UpdatesAfter(record: Record, t: Tick, n: nat): seq<SourceUpdate>
    requires n <= |t.steps|
  {
    if n == 0 then []
    else
      var d := DecisionAt(record, t, n - 1);
      UpdatesAfter(record, t, n - 1) +
      if d.Update? then [Reported(t.steps[n - 1], RecordAfter(record, t, n - 1), d)] else []
  }

  function Ticked(tree: Tree, record: Record, t: Tick, trouble: Trouble): (Tree, bool) {
    Run(tree, Effects(record, t, |t.steps|), trouble)
  }

  /** The record on disk after a tick: written only by one that does not raise. */
  function Kept(tree: Tree, record: Record, t: Tick, trouble: Trouble): Record {
    if Ticked(tree, record, t, trouble).1 then RecordAfter(record, t, |t.steps|) else record
  }

  /** The updates that a tick returns, unless it raises. */
  function Returned(tree: Tree, record: Record, t: Tick, trouble: Trouble): Option<seq<SourceUpdate>> {
    if Ticked(tree, record, t, trouble).1 then Some(UpdatesAfter(record, t, |t.steps|)) else None
  }

  lemma RunNext(tree: Tree, record: Record, t: Tick, trouble: Trouble, i: nat)
    requires i < |t.steps| && Run(tree, Effects(record, t, i), trouble).1
    ensures Run(tree, Effects(record, t, i + 1), trouble) ==
            Attempt(Run(tree, Effects(record, t, i), trouble).0, EffectOf(DecisionAt(record, t, i)), i, trouble)
  {
    assert Effects(record, t, i + 1)[..i] == Effects(record, t, i);
  }

  lemma RunStopped(tree: Tree, record: Record, t: Tick, trouble: Trouble, n: nat)
    requires n <= |t.steps| && !Run(tree, Effects(record, t, n), trouble).1
    ensures Ticked(tree, record, t, trouble) == Run(tree, Effects(record, t, n), trouble)
  {
    assert Effects(record, t, |t.steps|)[..n] == Effects(record, t, n);
    StoppedStays(tree, Effects(record, t, |t.steps|), trouble, n);
  }

  /** A project directory and the versions recorded for it on disk. */
  class Project {
    var tree: Tree
    var record: Record

    constructor (tree: Tree, record: Record)
      ensures this.tree == tree && this.record == record
    {
      this.tree, this.record := tree, record;
    }

    /** `check_once`, from the parsed plan on. */
    method CheckOnce(t: Tick, trouble: Trouble) returns (r: Option<seq<SourceUpdate>>)
      modifies this
      ensures (tree, r.Some?) == Ticked(old(tree), old(record), t, trouble)
      ensures record == Kept(old(tree), old(record), t, trouble)
      ensures r == Returned(old(tree), old(record), t, trouble)
    {
      var state := record;
      var updates: seq<SourceUpdate> := [];
      var dirty := false;
      for i := 0 to |t.steps|
        invariant record == old(record) && (!dirty ==> state == record)
        invariant state == RecordAfter(record, t, i) && updates == UpdatesAfter(record, t, i)
        invariant Run(old(tree), Effects(record, t, i), trouble) == (tree, true)
      {
        var step := t.steps[i];
        RunNext(old(tree), record, t, trouble, i);
        var d := Decide(step, i, t.dirname, state, t.answers);
        var (copied, ok) := Attempt(tree, EffectOf(d), i, trouble);
        tree := copied;
        if !ok {
          RunStopped(old(tree), record, t, trouble, i + 1);
          return None;
        }
        if d.Update? {
          updates := updates + [Reported(step, state, d)];
        }
        dirty := dirty || d.Update? || (d.Confirm? && Get(state, step.id) != Some(d.version));
        state := Recorded(state, step.id, d);
      }
      if dirty {
        record := state;
      }
      r := Some(updates);
    }
  }
}
