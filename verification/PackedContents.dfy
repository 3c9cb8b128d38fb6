/** What a built artifact holds and hashes, file by file, and where the manifest's entries
    come from: with the names that the packer looks for. */
module PackedContents {
  import opened Wrappers
  import opened FileTree
  import opened Text
  import opened TreeDigest
  import opened InstallSchema
  import opened Manifest
  import opened Packer

  // ---------------------------------------------------------------- names that are never packed

  const EXCLUDED_NAMES: seq<string> := [
    ".venv", "venv", ".git", "node_modules", "__pycache__", ".pytest_cache", ".mypy_cache", ".ruff_cache",
    ".env", "id_rsa", "id_ed25519"]

  const EXCLUDED_SUFFIXES: seq<string> := [".pyc", ".pem", ".key", ".p12", ".db", ".sqlite", ".sqlite3"]

  predicate HasExcludedSuffix(name: string) {
    exists k :: 0 <= k < |EXCLUDED_SUFFIXES| && EndsWith(name, EXCLUDED_SUFFIXES[k])
  }

  predicate Excluded(name: string) { name in EXCLUDED_NAMES || HasExcludedSuffix(name) }

  lemma {:induction false} StarMatchesSuffix(name: string, tail: string)
    requires '*' !in tail
    ensures Glob(name, "*" + tail) <==> EndsWith(name, tail)
    decreases |name|
  {
    var pattern := "*" + tail;
    assert pattern[1..] == tail;
    GlobLiteral(name, tail);
    if name != "" {
      StarMatchesSuffix(name[1..], tail);
      assert |tail| < |name| ==> name[1..][|name[1..]| - |tail|..] == name[|name| - |tail|..];
    }
  }

  /** Where each pattern comes from: the first eight are names, and so on. */
  lemma LiteralPatterns(k: nat)
    requires k < 11
    ensures
      var at := if k < 8 then k else if k == 8 then 9 else k + 4;
      PACKAGING_EXCLUDE_PATTERNS[at] == EXCLUDED_NAMES[k] && '*' !in EXCLUDED_NAMES[k]
  {
  }

  lemma SuffixPatterns(k: nat)
    requires k < 7
    ensures
      var at := if k == 0 then 8 else if k < 4 then k + 9 else k + 11;
      PACKAGING_EXCLUDE_PATTERNS[at] == "*" + EXCLUDED_SUFFIXES[k] && '*' !in EXCLUDED_SUFFIXES[k]
  {
  }

  lemma LiteralMatches(name: string, k: nat)
    requires k < 11
    ensures
      var at := if k < 8 then k else if k == 8 then 9 else k + 4;
      Glob(name, PACKAGING_EXCLUDE_PATTERNS[at]) <==> name == EXCLUDED_NAMES[k]
  {
    LiteralPatterns(k);
    GlobLiteral(name, EXCLUDED_NAMES[k]);
  }

  lemma SuffixMatches(name: string, k: nat)
    requires k < 7
    ensures
      var at := if k == 0 then 8 else if k < 4 then k + 9 else k + 11;
      Glob(name, PACKAGING_EXCLUDE_PATTERNS[at]) <==> EndsWith(name, EXCLUDED_SUFFIXES[k])
  {
    SuffixPatterns(k);
    StarMatchesSuffix(name, EXCLUDED_SUFFIXES[k]);
  }

  lemma NameMatchesExactly(name: string)
    ensures NameMatches(name, PACKAGING_EXCLUDE_PATTERNS) <==> Excluded(name)
  {
    if NameMatches(name, PACKAGING_EXCLUDE_PATTERNS) {
      var at :| 0 <= at < |PACKAGING_EXCLUDE_PATTERNS| && Glob(name, PACKAGING_EXCLUDE_PATTERNS[at]);
      if at == 8 || 10 <= at <= 12 || 15 <= at {
        SuffixMatches(name, if at == 8 then 0 else if at <= 12 then at - 9 else at - 11);
      } else {
        LiteralMatches(name, if at < 8 then at else if at == 9 then 8 else at - 4);
      }
    }
    if k :| 0 <= k < |EXCLUDED_NAMES| && EXCLUDED_NAMES[k] == name { LiteralMatches(name, k); }
    if k :| 0 <= k < |EXCLUDED_SUFFIXES| && EndsWith(name, EXCLUDED_SUFFIXES[k]) { SuffixMatches(name, k); }
  }

  predicate HasExcludedName(p: Path) { exists k :: 0 <= k < |p| && Excluded(p[k]) }

  lemma SkippedExactly(p: Path)
    ensures Skipped(p, PACKAGING_EXCLUDE_PATTERNS) <==> HasExcludedName(p)
  {
    forall k | 0 <= k < |p| ensures NameMatches(p[k], PACKAGING_EXCLUDE_PATTERNS) <==> Excluded(p[k]) {
      NameMatchesExactly(p[k]);
    }
  }

  // ---------------------------------------------------------------- what is sealed, what is hashed

  predicate IsTemplate(name: string) { EndsWith(name, ".template") }

  /** The manifest that an extension is reduced to. */
  function OwnManifest(tree: Tree, id: string): string {
    if IsFile(tree, ["extensions", id, "service.yaml"]) then "service.yaml"
    else if IsFile(tree, ["extensions", id, "extension.yaml"]) then "extension.yaml"
    else "service.yaml"
  }

  predicate KeptInPlugin(p: Path, dirname: Path, id: string) {
    dirname + [id] < p ==> p[|dirname| + 1] == "plugin.yaml" || IsTemplate(p[|dirname| + 1])
  }

  predicate KeptInExtension(tree: Tree, p: Path, id: string) {
    ["extensions", id] < p ==> p[2] == OwnManifest(tree, id) || IsTemplate(p[2])
  }

  /** Of each source-based item nothing but its manifest and its templates is packed. */
  predicate OutlivesPruning(tree: Tree, m: ProjectManifest, p: Path) {
    && (forall i :: 0 <= i < |m.plugins| && m.plugins[i].source.Some? ==> KeptInPlugin(p, m.pluginsDirname, m.plugins[i].id))
    && (forall i :: 0 <= i < |m.extensions| && m.extensions[i].source.Some? ==> KeptInExtension(tree, p, m.extensions[i].id))
  }

  predicate AtTop(p: Path, dir: Path) { dir < p ==> |p| == |dir| + 1 }

  /** It does not lie deeper in any of them. */
  predicate AtTopOfItems(m: ProjectManifest, p: Path) {
    && (forall i :: 0 <= i < |m.plugins| && m.plugins[i].source.Some? ==> AtTop(p, m.pluginsDirname + [m.plugins[i].id]))
    && (forall i :: 0 <= i < |m.extensions| && m.extensions[i].source.Some? ==> AtTop(p, ["extensions", m.extensions[i].id]))
  }

  lemma {:induction false} PluginPruningsMean(plugins: seq<PluginRef>, dirname: Path, p: Path)
    ensures OutlivesAll(p, PluginPrunings(plugins, dirname)) <==>
              forall i :: 0 <= i < |plugins| && plugins[i].source.Some? ==> KeptInPlugin(p, dirname, plugins[i].id)
    ensures UnlistedAll(p, PluginPrunings(plugins, dirname)) <==>
              forall i :: 0 <= i < |plugins| && plugins[i].source.Some? ==>
                KeptInPlugin(p, dirname, plugins[i].id) && AtTop(p, dirname + [plugins[i].id])
  {
    if plugins != [] {
      var n := |plugins| - 1;
      PluginPruningsMean(plugins[..n], dirname, p);
      assert forall i :: 0 <= i < n ==> plugins[..n][i] == plugins[i];
      if plugins[n].source.Some? {
        OneMorePruning(p, PluginPrunings(plugins[..n], dirname), Pruning(PluginDir(dirname, plugins[n].id), PLUGIN_MANIFEST));
      }
    }
  }

  lemma {:induction false} ExtensionPruningsMean(extensions: seq<ExtensionRef>, tree: Tree, p: Path)
    ensures OutlivesAll(p, ExtensionPrunings(extensions, tree)) <==>
              forall i :: 0 <= i < |extensions| && extensions[i].source.Some? ==> KeptInExtension(tree, p, extensions[i].id)
    ensures UnlistedAll(p, ExtensionPrunings(extensions, tree)) <==>
              forall i :: 0 <= i < |extensions| && extensions[i].source.Some? ==>
                KeptInExtension(tree, p, extensions[i].id) && AtTop(p, ["extensions", extensions[i].id])
  {
    if extensions != [] {
      var n := |extensions| - 1;
      ExtensionPruningsMean(extensions[..n], tree, p);
      assert forall i :: 0 <= i < n ==> extensions[..n][i] == extensions[i];
      if extensions[n].source.Some? {
        OneMorePruning(p, ExtensionPrunings(extensions[..n], tree), ExtensionPruning(tree, extensions[n].id));
        assert ["extensions", extensions[n].id] + ["service.yaml"] == ["extensions", extensions[n].id, "service.yaml"];
        assert ["extensions", extensions[n].id] + ["extension.yaml"] == ["extensions", extensions[n].id, "extension.yaml"];
      }
    }
  }

  lemma OneMorePruning(p: Path, prunings: seq<Pruning>, last: Pruning)
    ensures OutlivesAll(p, prunings + [last]) <==> OutlivesAll(p, prunings) && Outlives(p, last)
    ensures UnlistedAll(p, prunings + [last]) <==> UnlistedAll(p, prunings) && Unlisted(p, last)
  {
    var more := prunings + [last];
    assert more[|prunings|] == last;
    assert forall i :: 0 <= i < |prunings| ==> more[i] == prunings[i];
  }

  lemma AllPruningsMean(tree: Tree, m: ProjectManifest, p: Path)
    ensures OutlivesAll(p, SourcePrunings(m, tree)) <==> OutlivesPruning(tree, m, p)
    ensures UnlistedAll(p, SourcePrunings(m, tree)) <==> OutlivesPruning(tree, m, p) && AtTopOfItems(m, p)
  {
    var a, b := PluginPrunings(m.plugins, m.pluginsDirname), ExtensionPrunings(m.extensions, tree);
    PluginPruningsMean(m.plugins, m.pluginsDirname, p);
    ExtensionPruningsMean(m.extensions, tree, p);
    assert forall i :: 0 <= i < |a| ==> (a + b)[i] == a[i];
    assert forall i :: 0 <= i < |b| ==> (a + b)[|a| + i] == b[i];
  }

  /** A file of the source, apart from the manifest that is written, is packed exactly if none
      of its names is excluded and no source-based item is reduced to other files; and it is
      packed as it is. */
  lemma SealedFilesExactly(tree: Tree, m: ProjectManifest, data: Bytes, p: Path)
    requires Sealable(tree, m) && p != ["manifest.json"]
    ensures
      var sealed := SealedTree(WithManifest(tree, data), m);
      && (IsFile(sealed, p) <==> IsFile(tree, p) && !HasExcludedName(p) && OutlivesPruning(tree, m, p))
      && (IsFile(sealed, p) ==> sealed[p] == tree[p])
  {
    var full := WithManifest(tree, data);
    SkippedExactly(p);
    AllPruningsMean(tree, m, p);
    SameLookupWithManifest(tree, data, m.extensions);
    assert m.extensions[..|m.extensions|] == m.extensions;
    SameSealed(full, m, |m.extensions|, p);
  }

  /** And it counts for the manifest's hash exactly if it is packed, and not deep inside a
      source-based item. */
  lemma HashedFilesExactly(tree: Tree, m: ProjectManifest, p: Path)
    requires Sealable(tree, m) && p != ["manifest.json"]
    ensures
      var hashed := HashedFiles(tree, SourcePrunings(m, tree));
      && (p in hashed <==>
            IsFile(tree, p) && !HasExcludedName(p) && OutlivesPruning(tree, m, p) && AtTopOfItems(m, p))
      && (p in hashed ==> hashed[p] == tree[p].data)
  {
    SkippedExactly(p);
    AllPruningsMean(tree, m, p);
    HashedAndSealed(tree, m, [], p);
    if IsFile(tree, p) {
      assert Separable('/', ["manifest.json"]) by { NoSlash(); }
      assert Rel(["manifest.json"]) == "manifest.json";
      if Rel(p) == "manifest.json" { RelIsInjective(p, ["manifest.json"]); }
    }
  }

  lemma NoSlash()
    ensures '/' !in "manifest.json"
  {
    assert "manifest.json" == ['m', 'a', 'n', 'i', 'f', 'e', 's', 't', '.', 'j', 's', 'o', 'n'];
  }

  // ---------------------------------------------------------------- the items' own manifests

  /** No excluded name and no excluded suffix ends like the manifests do. */
  lemma LastCharacters()
    ensures forall k :: 0 <= k < |EXCLUDED_NAMES| ==>
              EXCLUDED_NAMES[k] != "" && EXCLUDED_NAMES[k][|EXCLUDED_NAMES[k]| - 1] != 'l'
    ensures forall k :: 0 <= k < |EXCLUDED_SUFFIXES| ==>
              EXCLUDED_SUFFIXES[k] != "" && EXCLUDED_SUFFIXES[k][|EXCLUDED_SUFFIXES[k]| - 1] != 'l'
  {
  }

  lemma EndsAlike(name: string, suffix: string)
    requires suffix != ""
    ensures EndsWith(name, suffix) ==> name != "" && name[|name| - 1] == suffix[|suffix| - 1]
  {
    assert EndsWith(name, suffix) ==> name[|name| - |suffix|..][|suffix| - 1] == name[|name| - 1];
  }

  lemma ManifestNamesPass(name: string)
    requires name != "" && name[|name| - 1] == 'l'
    ensures !Excluded(name) && !IsTemplate(name)
  {
    LastCharacters();
    forall k | 0 <= k < |EXCLUDED_SUFFIXES| ensures !EndsWith(name, EXCLUDED_SUFFIXES[k]) {
      EndsAlike(name, EXCLUDED_SUFFIXES[k]);
    }
    assert ".template"[8] == 'e';
    EndsAlike(name, ".template");
  }

  lemma NotExcludedBelow(dir: Path, name: string)
    requires !HasExcludedName(dir) && !Excluded(name)
    ensures !HasExcludedName(dir + [name])
  {
  }

  /** Plugins do not live among the extensions. */
  predicate PluginsElsewhere(m: ProjectManifest) { m.pluginsDirname != [] && m.pluginsDirname[0] != "extensions" }

  /** What the packer establishes before it seals. */
  ghost predicate Built(tree: Tree, m: ProjectManifest, data: Bytes, steps: seq<Step>, declared: Declared, sha: Hash) {
    Sealable(tree, m) && Describes(m, tree, steps, declared, sha) && AllCopied(m, CopyIgnoring(WithManifest(tree, data)))
  }

  lemma PluginFilesStay(tree: Tree, m: ProjectManifest, i: nat, name: string)
    requires PluginsElsewhere(m) && i < |m.plugins| && (name == "plugin.yaml" || IsTemplate(name))
    ensures
      var p := m.pluginsDirname + [m.plugins[i].id, name];
      OutlivesPruning(tree, m, p) && AtTopOfItems(m, p)
  {
    var p := m.pluginsDirname + [m.plugins[i].id, name];
    assert p[0] == m.pluginsDirname[0] && p[|m.pluginsDirname| + 1] == name;
  }

  lemma PluginFileIsPacked(tree: Tree, m: ProjectManifest, data: Bytes, i: nat, name: string)
    requires Sealable(tree, m) && AllCopied(m, CopyIgnoring(WithManifest(tree, data))) && PluginsElsewhere(m)
    requires i < |m.plugins| && m.plugins[i].source.Some? && (name == "plugin.yaml" || IsTemplate(name))
    requires IsFile(tree, m.pluginsDirname + [m.plugins[i].id] + [name]) && !Excluded(name)
    ensures
      var p := m.pluginsDirname + [m.plugins[i].id] + [name];
      && IsFile(SealedTree(WithManifest(tree, data), m), p) && SealedTree(WithManifest(tree, data), m)[p] == tree[p]
      && p in HashedFiles(tree, SourcePrunings(m, tree))
      && HashedFiles(tree, SourcePrunings(m, tree))[p] == tree[p].data
  {
    var dir := m.pluginsDirname + [m.plugins[i].id];
    assert dir + [name] == m.pluginsDirname + [m.plugins[i].id, name];
    CopiedIsNotExcluded(tree, data, dir);
    PluginFilesStay(tree, m, i, name);
    NotExcludedBelow(dir, name);
    SealedFilesExactly(tree, m, data, dir + [name]);
    HashedFilesExactly(tree, m, dir + [name]);
  }

  /** Every source-based plugin's `plugin.yaml` is packed unchanged and counts for the hash,
      and so do its templates; nothing else in its directory is packed. */
  lemma PluginIsReduced(tree: Tree, m: ProjectManifest, data: Bytes, steps: seq<Step>, declared: Declared, sha: Hash, i: nat)
    requires Built(tree, m, data, steps, declared, sha) && PluginsElsewhere(m)
    requires i < |m.plugins| && m.plugins[i].source.Some?
    ensures
      var sealed, hashed := SealedTree(WithManifest(tree, data), m), HashedFiles(tree, SourcePrunings(m, tree));
      var dir := m.pluginsDirname + [m.plugins[i].id];
      && IsFile(tree, dir + ["plugin.yaml"])
      && IsFile(sealed, dir + ["plugin.yaml"]) && sealed[dir + ["plugin.yaml"]] == tree[dir + ["plugin.yaml"]]
      && dir + ["plugin.yaml"] in hashed && hashed[dir + ["plugin.yaml"]] == tree[dir + ["plugin.yaml"]].data
      && (forall name :: IsFile(tree, dir + [name]) && IsTemplate(name) && !Excluded(name) ==>
            IsFile(sealed, dir + [name]) && sealed[dir + [name]] == tree[dir + [name]] && dir + [name] in hashed)
      && (forall p :: IsFile(sealed, p) && dir < p ==> p[|dir|] == "plugin.yaml" || IsTemplate(p[|dir|]))
  {
    var sealed, hashed := SealedTree(WithManifest(tree, data), m), HashedFiles(tree, SourcePrunings(m, tree));
    var dir := m.pluginsDirname + [m.plugins[i].id];
    PluginHasManifest(tree, m, steps, declared, sha, i);
    forall name | IsFile(tree, dir + [name]) && !Excluded(name) && (name == "plugin.yaml" || IsTemplate(name))
      ensures IsFile(sealed, dir + [name]) && sealed[dir + [name]] == tree[dir + [name]]
      ensures dir + [name] in hashed && hashed[dir + [name]] == tree[dir + [name]].data
    {
      PluginFileIsPacked(tree, m, data, i, name);
    }
    ManifestNamesPass("plugin.yaml");
    forall p | IsFile(sealed, p) && dir < p ensures p[|dir|] == "plugin.yaml" || IsTemplate(p[|dir|]) {
      SealedFilesExactly(tree, m, data, p);
      assert KeptInPlugin(p, m.pluginsDirname, m.plugins[i].id);
    }
  }

  lemma PluginHasManifest(tree: Tree, m: ProjectManifest, steps: seq<Step>, declared: Declared, sha: Hash, i: nat)
    requires Describes(m, tree, steps, declared, sha) && i < |m.plugins|
    ensures IsFile(tree, m.pluginsDirname + [m.plugins[i].id] + ["plugin.yaml"])
  {
    var names :| ListsDirs(names, tree, m.pluginsDirname) &&
      DescribesPlugins(m.plugins, names, tree, m.pluginsDirname, steps, declared, sha);
    assert PluginAccepted(tree, PluginDir(m.pluginsDirname, names[i]), names[i], steps, declared);
    assert m.plugins[i].id == names[i];
  }

  lemma CopiedIsNotExcluded(tree: Tree, data: Bytes, dir: Path)
    requires IsDir(CopyIgnoring(WithManifest(tree, data)), dir)
    ensures !HasExcludedName(dir)
  {
    SkippedExactly(dir);
  }

  lemma ExtensionFilesStay(tree: Tree, m: ProjectManifest, i: nat, name: string)
    requires PluginsElsewhere(m) && i < |m.extensions| && (name == OwnManifest(tree, m.extensions[i].id) || IsTemplate(name))
    ensures
      var p := ["extensions", m.extensions[i].id, name];
      OutlivesPruning(tree, m, p) && AtTopOfItems(m, p)
  {
    var p := ["extensions", m.extensions[i].id, name];
    assert p[0] == "extensions" && p[1] == m.extensions[i].id && p[2] == name;
    forall k | 0 <= k < |m.plugins| ensures !(m.pluginsDirname + [m.plugins[k].id] < p) {
      assert (m.pluginsDirname + [m.plugins[k].id])[0] == m.pluginsDirname[0];
    }
    forall k | 0 <= k < |m.extensions| && ["extensions", m.extensions[k].id] < p ensures m.extensions[k].id == m.extensions[i].id {
      assert ["extensions", m.extensions[k].id][1] == p[1];
    }
  }

  lemma ExtensionFileIsPacked(tree: Tree, m: ProjectManifest, data: Bytes, i: nat, name: string)
    requires Sealable(tree, m) && AllCopied(m, CopyIgnoring(WithManifest(tree, data))) && PluginsElsewhere(m)
    requires i < |m.extensions| && m.extensions[i].source.Some?
    requires name == OwnManifest(tree, m.extensions[i].id) || IsTemplate(name)
    requires IsFile(tree, ["extensions", m.extensions[i].id, name]) && !Excluded(name)
    ensures
      var p := ["extensions", m.extensions[i].id, name];
      && IsFile(SealedTree(WithManifest(tree, data), m), p) && SealedTree(WithManifest(tree, data), m)[p] == tree[p]
      && p in HashedFiles(tree, SourcePrunings(m, tree))
  {
    var dir: Path := ["extensions", m.extensions[i].id];
    var p: Path := ["extensions", m.extensions[i].id, name];
    assert p == dir + [name] && p != ["manifest.json"];
    CopiedIsNotExcluded(tree, data, dir);
    ExtensionFilesStay(tree, m, i, name);
    NotExcludedBelow(dir, name);
    SealedFilesExactly(tree, m, data, p);
    HashedFilesExactly(tree, m, p);
  }

  /** Every source-based extension's manifest, the first of `service.yaml` and
      `extension.yaml` that is there, is packed unchanged and counts for the hash, and so do
      its templates; nothing else in its directory is packed. */
  lemma ExtensionIsReduced(tree: Tree, m: ProjectManifest, data: Bytes, steps: seq<Step>, declared: Declared, sha: Hash,
                           i: nat)
    requires Built(tree, m, data, steps, declared, sha) && PluginsElsewhere(m)
    requires i < |m.extensions| && m.extensions[i].source.Some?
    ensures
      var sealed, hashed := SealedTree(WithManifest(tree, data), m), HashedFiles(tree, SourcePrunings(m, tree));
      var id := m.extensions[i].id;
      var service, extension := ["extensions", id, "service.yaml"], ["extensions", id, "extension.yaml"];
      && (IsFile(tree, service) ==> IsFile(sealed, service) && sealed[service] == tree[service] && service in hashed)
      && (IsFile(tree, extension) && !IsFile(tree, service) ==>
            IsFile(sealed, extension) && sealed[extension] == tree[extension] && extension in hashed)
      && (forall name :: IsFile(tree, ["extensions", id, name]) && IsTemplate(name) && !Excluded(name) ==>
            IsFile(sealed, ["extensions", id, name]) && sealed[["extensions", id, name]] == tree[["extensions", id, name]] &&
            ["extensions", id, name] in hashed)
      && (forall p :: IsFile(sealed, p) && ["extensions", id] < p ==> p[2] == OwnManifest(tree, id) || IsTemplate(p[2]))
  {
    var sealed, hashed := SealedTree(WithManifest(tree, data), m), HashedFiles(tree, SourcePrunings(m, tree));
    var id := m.extensions[i].id;
    var dir: Path := ["extensions", id];
    forall name | IsFile(tree, ["extensions", id, name]) && !Excluded(name) && (name == OwnManifest(tree, id) || IsTemplate(name))
      ensures IsFile(sealed, ["extensions", id, name]) && sealed[["extensions", id, name]] == tree[["extensions", id, name]]
      ensures ["extensions", id, name] in hashed
    {
      ExtensionFileIsPacked(tree, m, data, i, name);
    }
    ManifestNamesPass("service.yaml");
    ManifestNamesPass("extension.yaml");
    forall p | IsFile(sealed, p) && dir < p ensures p[2] == OwnManifest(tree, id) || IsTemplate(p[2]) {
      SealedFilesExactly(tree, m, data, p);
      assert KeptInExtension(tree, p, id);
    }
  }

  /** Among the extensions a plugin is not safe: where an extension of the same name is
      source-based as well, its `plugin.yaml` is not packed. */
  lemma SharedDirectoryLosesPluginManifest(tree: Tree, m: ProjectManifest, data: Bytes, i: nat)
    requires Sealable(tree, m) && m.pluginsDirname == ["extensions"]
    requires i < |m.extensions| && m.extensions[i].source.Some?
    ensures !IsFile(SealedTree(WithManifest(tree, data), m), ["extensions", m.extensions[i].id, "plugin.yaml"])
  {
    var p: Path := ["extensions", m.extensions[i].id, "plugin.yaml"];
    SealedFilesExactly(tree, m, data, p);
    assert p[2] == "plugin.yaml" && p[0] == "extensions" && p[1] == m.extensions[i].id;
    assert "plugin.yaml"[0] == 'p' && "service.yaml"[0] == 's' && "extension.yaml"[0] == 'e';
    ManifestNamesPass("plugin.yaml");
    assert !KeptInExtension(tree, p, m.extensions[i].id);
  }

  // ---------------------------------------------------------------- where an item comes from

  /** The last step of the plan that gives this plugin a source. */
  ghost predicate PlanGivesPlugin(steps: seq<Step>, id: string, source: PluginSource) {
    exists i :: 0 <= i < |steps| && steps[i].action == InstallPlugin(id, Some(source)) &&
      forall j :: i < j < |steps| && steps[j].action.InstallPlugin? && steps[j].action.plugin == id ==>
        steps[j].action.source.None?
  }

  ghost predicate PlanGivesExtension(steps: seq<Step>, id: string, source: PluginSource) {
    exists i :: 0 <= i < |steps| && steps[i].action == InstallExtension(id, Some(source)) &&
      forall j :: i < j < |steps| && steps[j].action.InstallExtension? && steps[j].action.extension == id ==>
        steps[j].action.source.None?
  }

  lemma {:induction false} PlanPlugins(steps: seq<Step>, id: string)
    ensures id in PlanPluginSources(steps) ==> PlanGivesPlugin(steps, id, PlanPluginSources(steps)[id])
    ensures id !in PlanPluginSources(steps) ==>
              forall i :: 0 <= i < |steps| && steps[i].action.InstallPlugin? && steps[i].action.plugin == id ==>
                steps[i].action.source.None?
  {
    if steps != [] {
      var n := |steps| - 1;
      PlanPlugins(steps[..n], id);
      var last := steps[n].action;
      assert forall i :: 0 <= i < n ==> steps[..n][i] == steps[i];
      if last.InstallPlugin? && last.source.Some? && last.plugin == id {
        assert steps[n].action == InstallPlugin(id, Some(last.source.value));
      } else if id in PlanPluginSources(steps) {
        var source := PlanPluginSources(steps)[id];
        var i :| 0 <= i < n && steps[..n][i].action == InstallPlugin(id, Some(source)) &&
          forall j :: i < j < n && steps[..n][j].action.InstallPlugin? && steps[..n][j].action.plugin == id ==>
            steps[..n][j].action.source.None?;
        assert steps[i].action == InstallPlugin(id, Some(source));
      }
    }
  }

  lemma {:induction false} PlanExtensions(steps: seq<Step>, id: string)
    ensures id in PlanExtensionSources(steps) ==> PlanGivesExtension(steps, id, PlanExtensionSources(steps)[id])
    ensures id !in PlanExtensionSources(steps) ==>
              forall i :: 0 <= i < |steps| && steps[i].action.InstallExtension? && steps[i].action.extension == id ==>
                steps[i].action.source.None?
  {
    if steps != [] {
      var n := |steps| - 1;
      PlanExtensions(steps[..n], id);
      var last := steps[n].action;
      assert forall i :: 0 <= i < n ==> steps[..n][i] == steps[i];
      if last.InstallExtension? && last.source.Some? && last.extension == id {
        assert steps[n].action == InstallExtension(id, Some(last.source.value));
      } else if id in PlanExtensionSources(steps) {
        var source := PlanExtensionSources(steps)[id];
        var i :| 0 <= i < n && steps[..n][i].action == InstallExtension(id, Some(source)) &&
          forall j :: i < j < n && steps[..n][j].action.InstallExtension? && steps[..n][j].action.extension == id ==>
            steps[..n][j].action.source.None?;
        assert steps[i].action == InstallExtension(id, Some(source));
      }
    }
  }

  lemma OnlyOneGiven(steps: seq<Step>, id: string, a: PluginSource, b: PluginSource)
    requires PlanGivesPlugin(steps, id, a) && PlanGivesPlugin(steps, id, b)
    ensures a == b
  {
    var i :| 0 <= i < |steps| && steps[i].action == InstallPlugin(id, Some(a)) &&
      forall j :: i < j < |steps| && steps[j].action.InstallPlugin? && steps[j].action.plugin == id ==>
        steps[j].action.source.None?;
    var k :| 0 <= k < |steps| && steps[k].action == InstallPlugin(id, Some(b)) &&
      forall j :: k < j < |steps| && steps[j].action.InstallPlugin? && steps[j].action.plugin == id ==>
        steps[j].action.source.None?;
    assert steps[i].action.source.Some? && steps[k].action.source.Some?;
  }

  lemma OnlyOneExtensionGiven(steps: seq<Step>, id: string, a: PluginSource, b: PluginSource)
    requires PlanGivesExtension(steps, id, a) && PlanGivesExtension(steps, id, b)
    ensures a == b
  {
    var i :| 0 <= i < |steps| && steps[i].action == InstallExtension(id, Some(a)) &&
      forall j :: i < j < |steps| && steps[j].action.InstallExtension? && steps[j].action.extension == id ==>
        steps[j].action.source.None?;
    var k :| 0 <= k < |steps| && steps[k].action == InstallExtension(id, Some(b)) &&
      forall j :: k < j < |steps| && steps[j].action.InstallExtension? && steps[j].action.extension == id ==>
        steps[j].action.source.None?;
    assert steps[i].action.source.Some? && steps[k].action.source.Some?;
  }

  /** A plugin's entry in the manifest: a source from the last step of the plan that gives
      one, else from its own manifest, else from the registry; and the hash of all its files
      exactly if it has none. */
  lemma PluginEntry(m: ProjectManifest, tree: Tree, steps: seq<Step>, declared: Declared, sha: Hash, i: nat)
    requires Describes(m, tree, steps, declared, sha) && i < |m.plugins|
    ensures m.plugins[i].id in declared.pluginYaml
    ensures
      var ref, yaml := m.plugins[i], declared.pluginYaml[m.plugins[i].id];
      && ref.required == yaml.required
      && (forall source :: PlanGivesPlugin(steps, ref.id, source) ==> ref.source == Some(source))
      && ((forall source :: !PlanGivesPlugin(steps, ref.id, source)) ==>
            ref.source ==
              if yaml.source.Some? then yaml.source
              else if ref.id in declared.registry then Some(declared.registry[ref.id])
              else None)
      && ref.sha256 ==
           if ref.source.Some? then None
           else Some(sha(Preimage(FilesOf(Sub(tree, m.pluginsDirname + [ref.id])), sha)))
  {
    var names :| ListsDirs(names, tree, m.pluginsDirname) &&
      DescribesPlugins(m.plugins, names, tree, m.pluginsDirname, steps, declared, sha);
    var ref := m.plugins[i];
    assert DescribesPlugin(ref, tree, PluginDir(m.pluginsDirname, names[i]), names[i], steps, declared, sha);
    PlanPlugins(steps, ref.id);
    NothingSkipped(FilesOf(Sub(tree, m.pluginsDirname + [ref.id])));
    forall source | PlanGivesPlugin(steps, ref.id, source) ensures ref.source == Some(source) {
      assert ref.id in PlanPluginSources(steps);
      OnlyOneGiven(steps, ref.id, source, PlanPluginSources(steps)[ref.id]);
    }
  }

  lemma NothingSkipped(files: Files)
    ensures Keep(files, {}, []) == files
  {
    assert forall p :: !Skipped(p, []);
  }

  /** The same for an extension; its own manifest counts only if one of the two is there. */
  lemma ExtensionEntry(m: ProjectManifest, tree: Tree, steps: seq<Step>, declared: Declared, sha: Hash, i: nat)
    requires Describes(m, tree, steps, declared, sha) && i < |m.extensions|
    ensures
      var ref := m.extensions[i];
      var dir := ["extensions", ref.id];
      var hasManifest := IsFile(tree, dir + ["service.yaml"]) || IsFile(tree, dir + ["extension.yaml"]);
      && (forall source :: PlanGivesExtension(steps, ref.id, source) ==> ref.source == Some(source))
      && ((forall source :: !PlanGivesExtension(steps, ref.id, source)) ==>
            ref.source ==
              if hasManifest && ref.id in declared.extensionSource then Some(declared.extensionSource[ref.id])
              else if ref.id in declared.registry then Some(declared.registry[ref.id])
              else None)
      && ref.sha256 == if ref.source.Some? then None else Some(sha(Preimage(FilesOf(Sub(tree, dir)), sha)))
  {
    var names :| (if IsDir(tree, ["extensions"]) then ListsDirs(names, tree, ["extensions"]) else names == []) &&
      DescribesExtensions(m.extensions, names, tree, steps, declared, sha);
    var ref := m.extensions[i];
    DescribesEachExtension(m.extensions, names, tree, steps, declared, sha, i);
    PlanExtensions(steps, ref.id);
    NothingSkipped(FilesOf(Sub(tree, ["extensions", ref.id])));
    forall source | PlanGivesExtension(steps, ref.id, source) ensures ref.source == Some(source) {
      assert ref.id in PlanExtensionSources(steps);
      OnlyOneExtensionGiven(steps, ref.id, source, PlanExtensionSources(steps)[ref.id]);
    }
  }

  /** Every directory among the plugins and among the extensions has its entry, and nothing else has. */
  lemma EntriesAreDirectories(m: ProjectManifest, tree: Tree, steps: seq<Step>, declared: Declared, sha: Hash, id: string)
    requires Describes(m, tree, steps, declared, sha)
    ensures IsDir(tree, m.pluginsDirname + [id]) <==> exists i :: 0 <= i < |m.plugins| && m.plugins[i].id == id
    ensures IsDir(tree, ["extensions"]) ==>
              (IsDir(tree, ["extensions", id]) <==> exists i :: 0 <= i < |m.extensions| && m.extensions[i].id == id)
    ensures !IsDir(tree, ["extensions"]) ==> m.extensions == []
  {
    var names :| ListsDirs(names, tree, m.pluginsDirname) &&
      DescribesPlugins(m.plugins, names, tree, m.pluginsDirname, steps, declared, sha);
    forall i | 0 <= i < |names| ensures m.plugins[i].id == names[i] {
      assert DescribesPlugin(m.plugins[i], tree, PluginDir(m.pluginsDirname, names[i]), names[i], steps, declared, sha);
    }
    if id in names { var i :| 0 <= i < |names| && names[i] == id; assert m.plugins[i].id == id; }
    if i :| 0 <= i < |m.plugins| && m.plugins[i].id == id { assert names[i] in names; }
    ExtensionEntries(m, tree, steps, declared, sha, id);
  }

  lemma ExtensionEntries(m: ProjectManifest, tree: Tree, steps: seq<Step>, declared: Declared, sha: Hash, id: string)
    requires Describes(m, tree, steps, declared, sha)
    ensures IsDir(tree, ["extensions"]) ==>
              (IsDir(tree, ["extensions", id]) <==> exists i :: 0 <= i < |m.extensions| && m.extensions[i].id == id)
    ensures !IsDir(tree, ["extensions"]) ==> m.extensions == []
  {
    var names :| (if IsDir(tree, ["extensions"]) then ListsDirs(names, tree, ["extensions"]) else names == []) &&
      DescribesExtensions(m.extensions, names, tree, steps, declared, sha);
    forall i | 0 <= i < |names| ensures |m.extensions| == |names| && m.extensions[i].id == names[i] {
      DescribesEachExtension(m.extensions, names, tree, steps, declared, sha, i);
    }
    assert ["extensions"] + [id] == ["extensions", id];
    if id in names { var i :| 0 <= i < |names| && names[i] == id; assert m.extensions[i].id == id; }
    if IsDir(tree, ["extensions"]) {
      if i :| 0 <= i < |m.extensions| && m.extensions[i].id == id { assert names[i] in names; }
    }
  }

  /** What a tree must have so that a manifest can be written for it. */
  lemma WritableMeans(tree: Tree, dirname: Path, steps: seq<Step>, declared: Declared)
    ensures Writable(tree, dirname, steps, declared) ==>
      && ["manifest.json"] !in tree && IsDir(tree, dirname) && ValidPluginsDirname(dirname)
      && (exists id :: IsDir(tree, dirname + [id]))
      && (forall id :: IsDir(tree, dirname + [id]) ==>
            && IsFile(tree, dirname + [id] + ["plugin.yaml"]) && id in declared.pluginYaml && ValidPluginId(id)
            && ((forall source :: !PlanGivesPlugin(steps, id, source)) && declared.pluginYaml[id].source.None? &&
                id !in declared.registry && declared.pluginYaml[id].envTemplate.Some? ==>
                  IsFile(tree, dirname + [id] + [declared.pluginYaml[id].envTemplate.value])))
      && (IsDir(tree, ["extensions"]) ==> forall id :: IsDir(tree, ["extensions"] + [id]) ==> ValidPluginId(id))
  {
    if Writable(tree, dirname, steps, declared) {
      forall id | IsDir(tree, dirname + [id])
        ensures PluginAccepted(tree, PluginDir(dirname, id), id, steps, declared)
        ensures (forall source :: !PlanGivesPlugin(steps, id, source)) ==> id !in PlanPluginSources(steps)
      {
        PlanPlugins(steps, id);
      }
    }
  }
}
