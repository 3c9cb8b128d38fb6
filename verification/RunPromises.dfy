/** What a deployment run that gets as far as installing has checked and obtained, in the
    hub's, the manifest's and the plan's own terms. */
module RunPromises {
  import opened Wrappers
  import opened FileTree
  import opened TreeDigest
  import opened InstallSchema
  import opened Manifest
  import opened Pipeline
  import opened Overlays

  // ---------------------------------------------------------------- what was verified

  lemma NothingLeftOut(files: Files)
    ensures Keep(files, {}, []) == files
  {
    assert forall p :: !Skipped(p, []);
  }

  function AllButManifest(tree: Tree): Files {
    map p | p in tree && tree[p].File? && Rel(p) != "manifest.json" :: tree[p].data
  }

  /** The downloaded bytes carry the trusted key's signature; after their twelve-byte nonce
      they decrypt under the hub's 32-byte key to what unpacks to this tree; its
      `manifest.json` declares the digest of all its other files; and that manifest and
      `deployment/install.yaml` are for the requested project and version. */
  lemma VerifiedMeans(o: Outside, prim: Primitives, trusted: Bytes, credentials: Credentials, version: string,
                      raw: Tree, m: ProjectManifest, plan: InstallPlan)
    requires Verified(o, prim, trusted, credentials, version, raw, m, plan)
    ensures o.authenticate.Success? && o.requestArtifact.Success? && o.download.Success? && o.obtainKey.Success?
    ensures o.requestArtifact.value.signerPublicKey == trusted
    ensures prim.verify(trusted, o.requestArtifact.value.signature, o.download.value)
    ensures
      var encrypted, key := o.download.value, o.obtainKey.value;
      && |key| == 32
      && exists nonce, ciphertext, compressed, archive ::
           && (|encrypted| >= 12 ==> nonce + ciphertext == encrypted && |nonce| == 12)
           && prim.decrypt(key, nonce, ciphertext) == Some(compressed)
           && prim.decompress(compressed) == Some(archive) && prim.untar(archive) == Members(raw)
    ensures
      var tree := raw[[] := Dir];
      && IsFile(tree, ["manifest.json"]) && prim.parseManifest(tree[["manifest.json"]].data) == Some(m)
      && IsFile(tree, ["deployment", "install.yaml"])
      && prim.parsePlan(tree[["deployment", "install.yaml"]].data) == Some(plan)
      && m.contentSha256 == prim.sha(Preimage(AllButManifest(tree), prim.sha))
    ensures m.projectId == credentials.projectId && plan.projectId == credentials.projectId && m.version == version
  {
    var encrypted, key, tree := o.download.value, o.obtainKey.value, raw[[] := Dir];
    var nonce, ciphertext := Take(encrypted, 12), Drop(encrypted, 12);
    var compressed := prim.decrypt(key, nonce, ciphertext).value;
    var archive := prim.decompress(compressed).value;
    assert prim.decrypt(key, nonce, ciphertext) == Some(compressed);
    assert prim.decompress(compressed) == Some(archive) && prim.untar(archive) == Members(raw);
    assert |encrypted| >= 12 ==> nonce + ciphertext == encrypted && |nonce| == 12;
    assert forall p :: !Skipped(p, []);
    assert Packer.AgentFiles(tree) == AllButManifest(tree);
  }

  // ---------------------------------------------------------------- what the sources gave

  lemma {:induction false} SourcedPluginIn(plugins: seq<PluginRef>, dirname: Path, i: nat)
    requires i < |plugins| && plugins[i].source.Some?
    ensures
      var p := plugins[i];
      Sourced(p.id, dirname + [p.id], p.source.value, p.sha256) in SourcedPlugins(plugins, dirname)
  {
    if i > 0 { SourcedPluginIn(plugins[1..], dirname, i - 1); }
  }

  lemma {:induction false} SourcedExtensionIn(extensions: seq<ExtensionRef>, i: nat)
    requires i < |extensions| && extensions[i].source.Some?
    ensures
      var e := extensions[i];
      Sourced("ext-" + e.id, ["extensions", e.id], e.source.value, e.sha256) in SourcedExtensions(extensions)
  {
    if i > 0 { SourcedExtensionIn(extensions[1..], i - 1); }
  }

  /** This item could be fetched, and is what was pinned if anything was. */
  ghost predicate FetchedAsPinned(o: Outside, prim: Primitives, key: string, source: PluginSource, pinned: Option<string>) {
    && o.resolve.Some? && o.resolve.value(key, source).Success?
    && (pinned.Some? ==>
          prim.sha(Preimage(FilesOf(o.resolve.value(key, source).value), prim.sha)) == pinned.value)
  }

  lemma {:induction false} EachFetched(o: Outside, prim: Primitives, extracted: Tree, items: seq<Sourced>, item: Sourced)
    requires Resolved(o, prim, extracted, items).Success? && item in items
    ensures FetchedAsPinned(o, prim, item.key, item.source, item.pinned)
    decreases |items|
  {
    if item == items[0] {
      NothingLeftOut(FilesOf(o.resolve.value(item.key, item.source).value));
    } else {
      EachFetched(o, prim, LaidOver(o, prim, extracted, items[0]).value, items[1..], item);
    }
  }

  /** Every plugin and extension with a source was fetched, under its own key, and where the
      manifest pins a hash, the fetched files have it. */
  lemma PinnedSourcesMatch(o: Outside, prim: Primitives, extracted: Tree, m: ProjectManifest)
    requires Resolved(o, prim, extracted, SourcedItems(m)).Success?
    ensures forall i :: 0 <= i < |m.plugins| && m.plugins[i].source.Some? ==>
              FetchedAsPinned(o, prim, m.plugins[i].id, m.plugins[i].source.value, m.plugins[i].sha256)
    ensures forall i :: 0 <= i < |m.extensions| && m.extensions[i].source.Some? ==>
              FetchedAsPinned(o, prim, "ext-" + m.extensions[i].id, m.extensions[i].source.value, m.extensions[i].sha256)
  {
    forall i | 0 <= i < |m.plugins| && m.plugins[i].source.Some?
      ensures FetchedAsPinned(o, prim, m.plugins[i].id, m.plugins[i].source.value, m.plugins[i].sha256)
    {
      SourcedPluginIn(m.plugins, m.pluginsDirname, i);
      var p := m.plugins[i];
      EachFetched(o, prim, extracted, SourcedItems(m), Sourced(p.id, m.pluginsDirname + [p.id], p.source.value, p.sha256));
    }
    forall i | 0 <= i < |m.extensions| && m.extensions[i].source.Some?
      ensures FetchedAsPinned(o, prim, "ext-" + m.extensions[i].id, m.extensions[i].source.value, m.extensions[i].sha256)
    {
      SourcedExtensionIn(m.extensions, i);
      var e := m.extensions[i];
      EachFetched(o, prim, extracted, SourcedItems(m), Sourced("ext-" + e.id, ["extensions", e.id], e.source.value, e.sha256));
    }
  }

  // ---------------------------------------------------------------- what was laid over the artifact

  /** The fetched trees as writes, in order. */
  function Writes(o: Outside, items: seq<Sourced>): (es: seq<Effect>)
    ensures |es| == |items|
  {
    seq(|items|, i requires 0 <= i < |items| => WriteOf(o, items[i]))
  }

  lemma {:induction false} OverlayFront(tree: Tree, e: Effect, es: seq<Effect>)
    ensures Overlay(tree, [e] + es) == Overlay(Apply(tree, e), es)
    ensures Clean(tree, [e] + es) <==> !Fails(tree, e) && Clean(Apply(tree, e), es)
    decreases |es|
  {
    var all, n := [e] + es, |es|;
    if es == [] {
      assert all[..0] == [];
    } else {
      OverlayFront(tree, e, es[..n - 1]);
      OverlayNext(tree, all, n);
      assert all[..n + 1] == all && all[..n] == [e] + es[..n - 1] && all[n] == es[n - 1];
    }
  }

  function WriteOf(o: Outside, item: Sourced): Effect {
    if o.resolve.Some? && o.resolve.value(item.key, item.source).Success?
    then Write(item.target, o.resolve.value(item.key, item.source).value) else Halt
  }

  lemma LaidOverIs(o: Outside, prim: Primitives, extracted: Tree, item: Sourced)
    requires LaidOver(o, prim, extracted, item).Success?
    ensures LaidOver(o, prim, extracted, item).value == Apply(extracted, WriteOf(o, item))
    ensures !Fails(extracted, WriteOf(o, item))
  {
  }

  lemma WritesFront(o: Outside, items: seq<Sourced>)
    requires items != []
    ensures Writes(o, items) == [WriteOf(o, items[0])] + Writes(o, items[1..])
  {
  }

  lemma ResolvedFront(o: Outside, prim: Primitives, extracted: Tree, items: seq<Sourced>)
    requires items != [] && Resolved(o, prim, extracted, items).Success?
    ensures
      var first := Apply(extracted, WriteOf(o, items[0]));
      && !Fails(extracted, WriteOf(o, items[0])) && Resolved(o, prim, first, items[1..]).Success?
      && Resolved(o, prim, extracted, items).value == Resolved(o, prim, first, items[1..]).value
  {
    LaidOverIs(o, prim, extracted, items[0]);
  }

  lemma {:induction false} ResolvedIsOverlay(o: Outside, prim: Primitives, extracted: Tree, items: seq<Sourced>)
    requires Resolved(o, prim, extracted, items).Success?
    ensures Resolved(o, prim, extracted, items).value == Overlay(extracted, Writes(o, items))
    ensures Clean(extracted, Writes(o, items))
    decreases |items|
  {
    if items != [] {
      ResolvedFront(o, prim, extracted, items);
      ResolvedIsOverlay(o, prim, Apply(extracted, WriteOf(o, items[0])), items[1..]);
      WritesFront(o, items);
      OverlayFront(extracted, WriteOf(o, items[0]), Writes(o, items[1..]));
    }
  }

  ghost predicate TargetsApart(items: seq<Sourced>) {
    forall i, j :: 0 <= i < j < |items| ==> Apart(items[i].target, items[j].target)
  }

  /** If no two items share a place, each one's directory ends up as it was unpacked with the
      fetched files in it, at their own paths, whole. */
  lemma FetchedFilesAreThere(o: Outside, prim: Primitives, extracted: Tree, items: seq<Sourced>, i: nat, rel: Path)
    requires Resolved(o, prim, extracted, items).Success? && TargetsApart(items) && i < |items|
    ensures o.resolve.Some? && o.resolve.value(items[i].key, items[i].source).Success?
    ensures
      var fetched := o.resolve.value(items[i].key, items[i].source).value;
      var result := Resolved(o, prim, extracted, items).value;
      IsFile(fetched, rel) && !IsDir(extracted, items[i].target + rel) ==>
        items[i].target + rel in result && result[items[i].target + rel] == fetched[rel]
  {
    var es, target := Writes(o, items), items[i].target;
    ResolvedIsOverlay(o, prim, extracted, items);
    EachFetched(o, prim, extracted, items, items[i]);
    var fetched := o.resolve.value(items[i].key, items[i].source).value;
    assert es[i] == Write(target, fetched);
    OverlayAt(extracted, es, i, target);
    assert Separate(es);
    CleanPointwise(extracted, es);
    if IsFile(fetched, rel) && !IsDir(extracted, target + rel) {
      MergedFile(extracted, target, fetched, rel);
      SubIs(Overlay(extracted, es), target, rel);
      SubIs(Merge(extracted, target, fetched), target, rel);
    }
  }

  // ---------------------------------------------------------------- calls that fail

  /** The steps that are run are the plan's, by their ids, in this order. */
  lemma StepsInOrder(steps: seq<Step>, order: seq<string>, i: nat)
    requires i < |order| && forall id :: id in order ==> id in Ids(steps)
    ensures |InOrder(steps, order)| == |order|
    ensures InOrder(steps, order)[i] in steps && InOrder(steps, order)[i].id == order[i]
  {
    assert order[i] in order;
  }

  predicate CallFailed(o: Outside, steps: seq<Step>, i: nat)
    requires i < |steps|
  {
    && o.weather(i).fault == D.CallFails
    && (steps[i].action == Prepare || steps[i].action.Provision? || steps[i].action == Start ||
        steps[i].action == Stop || steps[i].action == Restart || steps[i].action.Healthcheck?)
  }

  /** A directory that cannot be made, a provisioner, supervisor or healthcheck that raises:
      the run does not complete, and if the rollback meets no error it ends rolled back. */
  lemma FailedCallRollsBack(o: Outside, cfg: D.Config, tree: Tree, steps: seq<Step>, i: nat)
    requires i < |steps| && CallFailed(o, steps, i)
    ensures !Ran(o, cfg, tree, steps).1
    ensures
      o.rollbackFault.Smooth? && U.SeparateLayout(cfg.pluginsDirname) && U.ProperSteps(steps) &&
      U.Rooted(tree, cfg.pluginsDirname) && U.Supported(tree, cfg.pluginsDirname) ==>
        WasRolledBack(o, cfg, tree, steps)
  {
    if Ran(o, cfg, tree, steps).1 {
      R.CompletedRunMeansNoCallFailed(D.Host(tree, []), cfg, steps, WeatherOf(o, |steps|), i);
    }
    if o.rollbackFault.Smooth? && U.SeparateLayout(cfg.pluginsDirname) && U.ProperSteps(steps) &&
       U.Rooted(tree, cfg.pluginsDirname) && U.Supported(tree, cfg.pluginsDirname) {
      FailedStepRollsBack(o, cfg, tree, steps);
    }
  }

  predicate CanStop(o: Outside, steps: seq<Step>, i: nat)
    requires i < |steps|
  {
    CallFailed(o, steps, i) || steps[i].action.InstallPlugin? || steps[i].action.InstallExtension? ||
    steps[i].action.WriteEnv?
  }

  /** Nothing else stops a run: not `notify`, `configure_plugin`, `download`, `extract` or `rollback`. */
  lemma OnlyTheseStop(o: Outside, cfg: D.Config, tree: Tree, steps: seq<Step>)
    requires !Ran(o, cfg, tree, steps).1
    ensures exists i :: 0 <= i < |steps| && CanStop(o, steps, i)
  {
    var i := R.StopsSomewhere(D.Host(tree, []), cfg, steps, WeatherOf(o, |steps|));
    assert CanStop(o, steps, i);
  }
}
