/** What a tick of the multi-source poller amounts to, step by step and tick by tick. */
module WatchTicks {
  import opened Wrappers
  import opened FileTree
  import opened DependencyOrder
  import opened InstallSchema
  import opened Overlays
  import opened WatchSources

  /** What would be decided for step `i` if it were the only one. */
  function Alone(record: Record, t: Tick, i: nat): Decision
    requires i < |t.steps|
  {
    Decide(t.steps[i], i, t.dirname, record, t.answers)
  }

  /** The version recorded for step `i` if it were the only one. */
  function SettlesAt(record: Record, t: Tick, i: nat): Option<string>
    requires i < |t.steps|
  {
    var d := Alone(record, t, i);
    if d.Confirm? || d.Update? then Some(d.version) else Get(record, t.steps[i].id)
  }

  // ---------------------------------------------------------------- each record on its own

  lemma DecideLocal(step: Step, i: nat, dirname: Path, a: Record, b: Record, answers: Answers)
    requires Get(a, step.id) == Get(b, step.id)
    ensures Decide(step, i, dirname, a, answers) == Decide(step, i, dirname, b, answers)
  {
    if ItemOf(step, dirname).Some? && ItemOf(step, dirname).value.source.origin.Marketplace? {
      var pin := ItemOf(step, dirname).value.source.origin.version;
      assert Current(a, step.id, pin) == Current(b, step.id, pin);
    }
  }

  lemma {:induction false} RecordsArePointwise(record: Record, t: Tick, n: nat)
    requires n <= |t.steps| && NoDuplicates(Ids(t.steps))
    ensures forall i :: 0 <= i < n ==> Get(RecordAfter(record, t, n), t.steps[i].id) == SettlesAt(record, t, i)
    ensures forall id :: id !in Ids(t.steps)[..n] ==> Get(RecordAfter(record, t, n), id) == Get(record, id)
  {
    if n > 0 {
      var ids := Ids(t.steps);
      RecordsArePointwise(record, t, n - 1);
      assert ids[..n] == ids[..n - 1] + [ids[n - 1]];
      assert ids[n - 1] !in ids[..n - 1];
      DecideLocal(t.steps[n - 1], n - 1, t.dirname, RecordAfter(record, t, n - 1), record, t.answers);
    }
  }

  /** The decision in the middle of a tick is the one made for that step alone. */
  lemma DecidedAlone(record: Record, t: Tick, i: nat)
    requires i < |t.steps| && NoDuplicates(Ids(t.steps))
    ensures DecisionAt(record, t, i) == Alone(record, t, i)
    ensures Get(RecordAfter(record, t, i), t.steps[i].id) == Get(record, t.steps[i].id)
  {
    RecordsArePointwise(record, t, i);
    assert Ids(t.steps)[i] !in Ids(t.steps)[..i];
    DecideLocal(t.steps[i], i, t.dirname, RecordAfter(record, t, i), record, t.answers);
  }

  /** Whatever becomes of the other steps, the recorded version of this one becomes the
      latest exactly when its own check succeeds and it is current or can be resolved. */
  lemma VersionBecomesLatest(tree: Tree, record: Record, t: Tick, trouble: Trouble, i: nat)
    requires i < |t.steps| && NoDuplicates(Ids(t.steps)) && Ticked(tree, record, t, trouble).1
    requires ItemOf(t.steps[i], t.dirname).Some? && ItemOf(t.steps[i], t.dirname).value.source.origin.Marketplace?
    ensures
      var step := t.steps[i];
      var item := ItemOf(step, t.dirname).value;
      var Marketplace(slug, pin, kind) := item.source.origin;
      var latest := t.answers.latest(i, slug, kind);
      var current := if step.id in record then Some(record[step.id]) else if pin == "latest" then None else Some(pin);
      Get(Kept(tree, record, t, trouble), step.id) ==
        if latest.Some? &&
           (current == latest ||
            t.answers.resolve(i, item.key, PluginSource(Marketplace(slug, latest.value, kind), item.source.subdirectory)).Some?)
        then latest else Get(record, step.id)
  {
    RecordsArePointwise(record, t, |t.steps|);
  }

  // ---------------------------------------------------------------- each directory on its own

  /** No step's directory lies inside another's. */
  ghost predicate SeparateTargets(t: Tick) {
    forall i, j :: 0 <= i < j < |t.steps| && ItemOf(t.steps[i], t.dirname).Some? && ItemOf(t.steps[j], t.dirname).Some? ==>
      Apart(ItemOf(t.steps[i], t.dirname).value.target, ItemOf(t.steps[j], t.dirname).value.target)
  }

  lemma EffectTarget(record: Record, t: Tick, i: nat)
    requires i < |t.steps| && EffectOf(DecisionAt(record, t, i)).Write?
    ensures ItemOf(t.steps[i], t.dirname).Some?
    ensures EffectOf(DecisionAt(record, t, i)).target == ItemOf(t.steps[i], t.dirname).value.target
  {
  }

  lemma EffectsAreSeparate(record: Record, t: Tick)
    requires SeparateTargets(t)
    ensures Separate(Effects(record, t, |t.steps|))
  {
    var es := Effects(record, t, |t.steps|);
    forall i, j | 0 <= i < j < |es| && es[i].Write? && es[j].Write? ensures Apart(es[i].target, es[j].target) {
      EffectTarget(record, t, i);
      EffectTarget(record, t, j);
    }
  }

  lemma OnlyOneWritesThere(record: Record, t: Tick, i: nat)
    requires i < |t.steps| && SeparateTargets(t) && ItemOf(t.steps[i], t.dirname).Some?
    ensures OnlyWriter(Effects(record, t, |t.steps|), i, ItemOf(t.steps[i], t.dirname).value.target)
  {
    var es := Effects(record, t, |t.steps|);
    forall j | 0 <= j < |es| && es[j].Write?
      ensures es[j].target == ItemOf(t.steps[j], t.dirname).value.target && ItemOf(t.steps[j], t.dirname).Some?
    {
      EffectTarget(record, t, j);
    }
  }

  /** What the directory of a step holds after the tick depends on its own answers only:
      either it is as before, or the resolved tree has been laid over it. */
  lemma DirectoriesArePointwise(tree: Tree, record: Record, t: Tick, trouble: Trouble, i: nat)
    requires i < |t.steps| && NoDuplicates(Ids(t.steps)) && SeparateTargets(t)
    requires ItemOf(t.steps[i], t.dirname).Some? && Ticked(tree, record, t, trouble).1
    ensures
      var target := ItemOf(t.steps[i], t.dirname).value.target;
      Sub(Ticked(tree, record, t, trouble).0, target) == Sub(Apply(tree, EffectOf(Alone(record, t, i))), target)
  {
    var es := Effects(record, t, |t.steps|);
    RunIs(tree, es, trouble);
    OnlyOneWritesThere(record, t, i);
    OverlayAt(tree, es, i, ItemOf(t.steps[i], t.dirname).value.target);
    DecidedAlone(record, t, i);
  }

  /** A step that names a source: as what it is reported, the resolver's key and the directory. */
  predicate Asks(step: Step, dirname: Path, name: string, key: string, target: Path, source: PluginSource) {
    match step.action
    case InstallPlugin(id, from) => from == Some(source) && name == "plugin" && key == id && target == dirname + [id]
    case InstallExtension(id, from) =>
      from == Some(source) && name == "extension" && key == "ext-" + id && target == ["extensions", id]
    case _ => false
  }

  /** What the record or else the plan's own pin says is installed. */
  function Installed(record: Record, id: string, pin: string): Option<string> {
    if id in record then Some(record[id]) else if pin == "latest" then None else Some(pin)
  }

  /** The source is a git one, or it has a newer version that resolves to a tree which cannot
      be laid over the directory. */
  predicate SpoilsAt(tree: Tree, record: Record, t: Tick, i: nat, key: string, target: Path, source: PluginSource)
    requires i < |t.steps|
  {
    match source.origin
    case Git(_, _) => true
    case Marketplace(slug, pin, kind) =>
      var latest := t.answers.latest(i, slug, kind);
      && latest.Some? && Installed(record, t.steps[i].id, pin) != latest
      && var fetched := t.answers.resolve(i, key, PluginSource(Marketplace(slug, latest.value, kind), source.subdirectory));
         fetched.Some? && MergeConflict(tree, target, fetched.value)
  }

  /** Step `i` on its own would make the tick raise. */
  ghost predicate Spoils(tree: Tree, record: Record, t: Tick, i: nat)
    requires i < |t.steps|
  {
    exists name, key, target, source ::
      Asks(t.steps[i], t.dirname, name, key, target, source) && SpoilsAt(tree, record, t, i, key, target, source)
  }

  lemma SpoilsMeans(tree: Tree, record: Record, t: Tick, i: nat)
    requires i < |t.steps|
    ensures Fails(tree, EffectOf(Alone(record, t, i))) <==> Spoils(tree, record, t, i)
  {
    var item := ItemOf(t.steps[i], t.dirname);
    if item.Some? {
      var x := item.value;
      assert Asks(t.steps[i], t.dirname, x.kind, x.key, x.target, x.source);
      assert Fails(tree, EffectOf(Alone(record, t, i))) <==> SpoilsAt(tree, record, t, i, x.key, x.target, x.source);
    }
  }

  /** Failed checks and failed resolves never abort a tick. What does is a step that names
      a git source, or a directory that cannot be merged into. */
  lemma RaisesExactly(tree: Tree, record: Record, t: Tick)
    requires NoDuplicates(Ids(t.steps)) && SeparateTargets(t)
    ensures !Ticked(tree, record, t, Smooth).1 <==> exists i :: 0 <= i < |t.steps| && Spoils(tree, record, t, i)
  {
    var es := Effects(record, t, |t.steps|);
    EffectsAreSeparate(record, t);
    RunFailsPointwise(tree, es);
    forall i | 0 <= i < |es| ensures Fails(tree, es[i]) <==> Spoils(tree, record, t, i) {
      DecidedAlone(record, t, i);
      SpoilsMeans(tree, record, t, i);
    }
  }

  /** One step with a git source is enough: the tick raises and nothing is recorded,
      whatever the marketplace answers for the other steps. */
  lemma GitSourceSpoilsTick(tree: Tree, record: Record, t: Tick, trouble: Trouble, i: nat,
                            name: string, key: string, target: Path, url: string, gitRef: string, part: Option<string>)
    requires i < |t.steps| && NoDuplicates(Ids(t.steps))
    requires Asks(t.steps[i], t.dirname, name, key, target, PluginSource(Git(url, gitRef), part))
    ensures !Ticked(tree, record, t, trouble).1 && Kept(tree, record, t, trouble) == record
  {
    var es := Effects(record, t, |t.steps|);
    RunIs(tree, es, trouble);
    assert es[i] == Halt;
    HaltIsNotClean(tree, es, i);
  }

  /** A tick that is cut by a copy error records nothing; done again with the same answers
      it reaches the tree, the record and the report of a tick that was never cut. */
  lemma ReplayReachesTheSame(tree: Tree, record: Record, t: Tick, trouble: Trouble)
    requires Ticked(tree, record, t, Smooth).1 && !Ticked(tree, record, t, trouble).1
    ensures
      var cut, left := Ticked(tree, record, t, trouble).0, Kept(tree, record, t, trouble);
      && left == record
      && Ticked(cut, left, t, Smooth) == Ticked(tree, record, t, Smooth)
      && Kept(cut, left, t, Smooth) == Kept(tree, record, t, Smooth)
  {
    RunAgain(tree, Effects(record, t, |t.steps|), trouble);
  }

  // ---------------------------------------------------------------- what is reported

  predicate Reports(record: Record, t: Tick, i: nat, u: SourceUpdate)
    requires i < |t.steps|
  {
    var d := Alone(record, t, i);
    d.Update? && u == Reported(t.steps[i], record, d)
  }

  lemma NextReport(record: Record, t: Tick, i: nat)
    requires i < |t.steps| && NoDuplicates(Ids(t.steps))
    ensures
      var d := Alone(record, t, i);
      UpdatesAfter(record, t, i + 1) ==
      UpdatesAfter(record, t, i) + if d.Update? then [Reported(t.steps[i], record, d)] else []
  {
    DecidedAlone(record, t, i);
    var d := Alone(record, t, i);
    if d.Update? {
      var pin := d.item.source.origin.version;
      assert Current(RecordAfter(record, t, i), t.steps[i].id, pin) == Current(record, t.steps[i].id, pin);
    }
  }

  lemma InNextReport(record: Record, t: Tick, i: nat, u: SourceUpdate)
    requires i < |t.steps| && NoDuplicates(Ids(t.steps))
    ensures u in UpdatesAfter(record, t, i + 1) <==> u in UpdatesAfter(record, t, i) || Reports(record, t, i, u)
  {
    NextReport(record, t, i);
  }

  lemma {:induction false} ReportedSoFar(record: Record, t: Tick, n: nat, u: SourceUpdate)
    requires n <= |t.steps| && NoDuplicates(Ids(t.steps))
    ensures u in UpdatesAfter(record, t, n) <==> exists i :: 0 <= i < n && Reports(record, t, i, u)
  {
    if n > 0 {
      ReportedSoFar(record, t, n - 1, u);
      InNextReport(record, t, n - 1, u);
    }
  }

  /** A tick that returns reports an update exactly for the steps whose directory was
      written; one that raises reports none, also not for the steps it has written. */
  lemma ReportsExactly(tree: Tree, record: Record, t: Tick, trouble: Trouble, u: SourceUpdate)
    requires NoDuplicates(Ids(t.steps))
    ensures
      var returned := Returned(tree, record, t, trouble);
      && (returned.Some? <==> Ticked(tree, record, t, trouble).1)
      && (returned.Some? ==> (u in returned.value <==> exists i :: 0 <= i < |t.steps| && Reports(record, t, i, u)))
  {
    ReportedSoFar(record, t, |t.steps|, u);
  }

  // ---------------------------------------------------------------- what becomes of one step

  /** The directory and the recorded version of a step are as they were. */
  predicate LeftAlone(before: Tree, after: Tree, target: Path, record: Record, kept: Record, id: string) {
    && Sub(after, target) == Sub(before, target)
    && (id in kept <==> id in record) && (id in record ==> kept[id] == record[id])
  }

  /** After a tick that returned: a step whose latest version could not be found out, or not
      be resolved, is left alone; one that is current is only recorded; any other has that very
      version's tree laid over its directory, is recorded with it and reported. */
  lemma StepOutcome(tree: Tree, record: Record, t: Tick, trouble: Trouble, i: nat, name: string, key: string, target: Path,
                    slug: string, pin: string, kind: string, part: Option<string>)
    requires i < |t.steps| && NoDuplicates(Ids(t.steps)) && SeparateTargets(t) && Ticked(tree, record, t, trouble).1
    requires Asks(t.steps[i], t.dirname, name, key, target, PluginSource(Marketplace(slug, pin, kind), part))
    ensures
      var id, latest := t.steps[i].id, t.answers.latest(i, slug, kind);
      var current := if id in record then Some(record[id]) else if pin == "latest" then None else Some(pin);
      var after, kept := Ticked(tree, record, t, trouble).0, Kept(tree, record, t, trouble);
      if latest.None? then LeftAlone(tree, after, target, record, kept, id)
      else if current == latest then
        Sub(after, target) == Sub(tree, target) && id in kept && kept[id] == latest.value
      else
        var fetched := t.answers.resolve(i, key, PluginSource(Marketplace(slug, latest.value, kind), part));
        if fetched.None? then LeftAlone(tree, after, target, record, kept, id)
        else
          && Sub(after, target) == Sub(Merge(tree, target, fetched.value), target)
          && id in kept && kept[id] == latest.value
          && SourceUpdate(id, name, slug, current, latest.value) in Returned(tree, record, t, trouble).value
  {
    var d := Alone(record, t, i);
    DirectoriesArePointwise(tree, record, t, trouble, i);
    RecordsArePointwise(record, t, |t.steps|);
    assert Get(Kept(tree, record, t, trouble), t.steps[i].id) == SettlesAt(record, t, i);
    if d.Update? {
      var u := Reported(t.steps[i], record, d);
      assert Reports(record, t, i, u);
      ReportsExactly(tree, record, t, trouble, u);
    }
  }

  // ---------------------------------------------------------------- the next tick

  /** The same plan, and the same latest version for step `i`. */
  predicate SameLatest(t: Tick, next: Tick, i: nat)
    requires i < |t.steps|
  {
    && next.steps == t.steps && next.dirname == t.dirname
    && var item := ItemOf(t.steps[i], t.dirname);
       item.Some? && item.value.source.origin.Marketplace? ==>
         var Marketplace(slug, _, kind) := item.value.source.origin;
         next.answers.latest(i, slug, kind) == t.answers.latest(i, slug, kind)
  }

  lemma ThenItIsCurrent(record: Record, t: Tick, next: Tick, i: nat)
    requires i < |t.steps| && NoDuplicates(Ids(t.steps)) && SameLatest(t, next, i)
    requires Alone(record, t, i).Confirm? || Alone(record, t, i).Update?
    ensures Alone(RecordAfter(record, t, |t.steps|), next, i) == Confirm(Alone(record, t, i).version)
  {
    RecordsArePointwise(record, t, |t.steps|);
    assert Get(RecordAfter(record, t, |t.steps|), t.steps[i].id) == SettlesAt(record, t, i);
  }

  lemma NoUpdateNoReport(record: Record, t: Tick, i: nat, u: SourceUpdate)
    requires i < |t.steps| && NoDuplicates(Ids(t.steps)) && !Alone(record, t, i).Update?
    requires u in UpdatesAfter(record, t, |t.steps|)
    ensures u.id != t.steps[i].id
  {
    ReportedSoFar(record, t, |t.steps|, u);
    var j :| 0 <= j < |t.steps| && Reports(record, t, j, u);
    assert Ids(t.steps)[i] != Ids(t.steps)[j];
  }

  /** After a tick that returned, a step that succeeded in it has nothing to do while the
      latest version stays the same. */
  lemma SecondTickIsSilent(tree: Tree, record: Record, t: Tick, trouble: Trouble, now: Tree, next: Tick, again: Trouble,
                           i: nat, u: SourceUpdate)
    requires i < |t.steps| && NoDuplicates(Ids(t.steps)) && SameLatest(t, next, i)
    requires Ticked(tree, record, t, trouble).1 && (Alone(record, t, i).Confirm? || Alone(record, t, i).Update?)
    ensures
      var kept := Kept(tree, record, t, trouble);
      var returned := Returned(now, kept, next, again);
      && DecisionAt(kept, next, i) == Confirm(Alone(record, t, i).version)
      && (returned.Some? && u in returned.value ==> u.id != t.steps[i].id)
  {
    var kept := Kept(tree, record, t, trouble);
    ThenItIsCurrent(record, t, next, i);
    DecidedAlone(kept, next, i);
    if u in UpdatesAfter(kept, next, |t.steps|) {
      NoUpdateNoReport(kept, next, i, u);
    }
  }

  predicate AllSucceed(record: Record, t: Tick) {
    forall i :: 0 <= i < |t.steps| && ItemOf(t.steps[i], t.dirname).Some? ==>
      Alone(record, t, i).Confirm? || Alone(record, t, i).Update?
  }

  /** When every step has succeeded in a tick that returned, the next tick changes neither
      the project nor the record, and reports nothing. */
  lemma NothingLeftToDo(tree: Tree, record: Record, t: Tick, trouble: Trouble, next: Tick, again: Trouble)
    requires NoDuplicates(Ids(t.steps)) && next.steps == t.steps && next.dirname == t.dirname
    requires forall i :: 0 <= i < |t.steps| ==> SameLatest(t, next, i)
    requires Ticked(tree, record, t, trouble).1 && AllSucceed(record, t)
    ensures
      var now, kept := Ticked(tree, record, t, trouble).0, Kept(tree, record, t, trouble);
      && Ticked(now, kept, next, again) == (now, true)
      && Kept(now, kept, next, again) == kept
      && Returned(now, kept, next, again) == Some([])
  {
    var now, kept := Ticked(tree, record, t, trouble).0, Kept(tree, record, t, trouble);
    var es := Effects(kept, next, |t.steps|);
    forall i | 0 <= i < |es| ensures es[i] == Idle && !Alone(kept, next, i).Update? {
      DecidedAlone(kept, next, i);
      if ItemOf(t.steps[i], t.dirname).Some? { ThenItIsCurrent(record, t, next, i); }
    }
    IdleRun(now, es, again);
    NothingToReport(kept, next);
    RecordStays(record, t, next);
  }

  lemma NothingToReport(record: Record, t: Tick)
    requires NoDuplicates(Ids(t.steps)) && forall i :: 0 <= i < |t.steps| ==> !Alone(record, t, i).Update?
    ensures UpdatesAfter(record, t, |t.steps|) == []
  {
    var updates := UpdatesAfter(record, t, |t.steps|);
    if updates != [] {
      assert updates[0] in updates;
      ReportedSoFar(record, t, |t.steps|, updates[0]);
    }
  }

  /** What was kept is what the next tick records. */
  lemma RecordStays(record: Record, t: Tick, next: Tick)
    requires NoDuplicates(Ids(t.steps)) && next.steps == t.steps && next.dirname == t.dirname
    requires (forall i :: 0 <= i < |t.steps| ==> SameLatest(t, next, i)) && AllSucceed(record, t)
    ensures RecordAfter(RecordAfter(record, t, |t.steps|), next, |t.steps|) == RecordAfter(record, t, |t.steps|)
  {
    var n := |t.steps|;
    var kept := RecordAfter(record, t, n);
    var after := RecordAfter(kept, next, n);
    RecordsArePointwise(record, t, n);
    RecordsArePointwise(kept, next, n);
    forall id ensures Get(after, id) == Get(kept, id) {
      if id in Ids(t.steps)[..n] {
        var i :| 0 <= i < n && Ids(t.steps)[i] == id;
        SettledAlready(record, t, next, i);
      }
    }
    forall id ensures id in after <==> id in kept { assert Get(after, id) == Get(kept, id); }
    forall id | id in after ensures after[id] == kept[id] { assert Get(after, id) == Get(kept, id); }
  }

  lemma SettledAlready(record: Record, t: Tick, next: Tick, i: nat)
    requires i < |t.steps| && NoDuplicates(Ids(t.steps)) && SameLatest(t, next, i) && AllSucceed(record, t)
    ensures SettlesAt(RecordAfter(record, t, |t.steps|), next, i) == Get(RecordAfter(record, t, |t.steps|), t.steps[i].id)
  {
    RecordsArePointwise(record, t, |t.steps|);
    if ItemOf(t.steps[i], t.dirname).Some? { ThenItIsCurrent(record, t, next, i); }
  }

  lemma {:induction false} IdleRun(tree: Tree, es: seq<Effect>, trouble: Trouble)
    requires forall i :: 0 <= i < |es| ==> es[i] == Idle
    ensures Run(tree, es, trouble) == (tree, true)
    decreases |es|
  {
    if es != [] { IdleRun(tree, es[..|es| - 1], trouble); }
  }
}
