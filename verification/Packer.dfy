/** The build side: what is hashed into the manifest, and what is sealed. */
module Packer {
  import opened Wrappers
  import opened FileTree
  import opened Ordering
  import opened Text
  import opened TreeDigest
  import opened InstallSchema
  import opened Manifest

  const MANIFEST_FILENAME := "manifest.json"
  const PLUGIN_MANIFEST := "plugin.yaml"
  const EXTENSION_MANIFESTS := ["service.yaml", "extension.yaml"]

  const PACKAGING_EXCLUDE_PATTERNS: seq<string> := [
    ".venv", "venv", ".git", "node_modules", "__pycache__", ".pytest_cache", ".mypy_cache",
    ".ruff_cache", "*.pyc", ".env", "*.pem", "*.key", "*.p12", "id_rsa", "id_ed25519",
    "*.db", "*.sqlite", "*.sqlite3"]

  /** A directory on disk that is changed in place. */
  class Directory {
    var tree: Tree

    constructor (tree: Tree)
      ensures this.tree == tree
    {
      this.tree := tree;
    }
  }

  /** Strictly below. */
  predicate Inside(p: Path, dir: Path) { dir < p }

  /** The name of the entry of `dir` that `p` is, or lies below. */
  function TopName(p: Path, dir: Path): string
    requires Inside(p, dir)
  {
    p[|dir|]
  }

  function ChildNames(tree: Tree, dir: Path): set<string> {
    set p | p in tree && Inside(p, dir) :: TopName(p, dir)
  }

  // ---------------------------------------------------------------- pruning

  predicate SurvivesPruning(name: string, manifestName: string) {
    name == manifestName || EndsWith(name, ".template")
  }

  /** One source-based directory and the name of its own manifest file. */
  datatype Pruning = Pruning(dir: Path, manifestName: string)

  /** `p` is still there after the directory was pruned in place. */
  predicate Outlives(p: Path, pruning: Pruning) {
    Inside(p, pruning.dir) ==> SurvivesPruning(TopName(p, pruning.dir), pruning.manifestName)
  }

  /** `p` is not on the packer's list of files that pruning deletes. */
  predicate Unlisted(p: Path, pruning: Pruning) {
    Inside(p, pruning.dir) ==>
      |p| == |pruning.dir| + 1 && SurvivesPruning(TopName(p, pruning.dir), pruning.manifestName)
  }

  predicate OutlivesAll(p: Path, prunings: seq<Pruning>) {
    forall i :: 0 <= i < |prunings| ==> Outlives(p, prunings[i])
  }

  predicate UnlistedAll(p: Path, prunings: seq<Pruning>) {
    forall i :: 0 <= i < |prunings| ==> Unlisted(p, prunings[i])
  }

  function Pruned(tree: Tree, prunings: seq<Pruning>): Tree {
    map p | p in tree && OutlivesAll(p, prunings) :: tree[p]
  }

  /** `_prune_to_manifest_only`; listing a directory that is not there raises. */
  method PruneToManifestOnly(view: Directory, dir: Path, manifestName: string) returns (ok: bool)
    modifies view
    ensures ok <==> IsDir(old(view.tree), dir)
    ensures !ok ==> view.tree == old(view.tree)
    ensures ok ==> view.tree == Pruned(old(view.tree), [Pruning(dir, manifestName)])
  {
    if !IsDir(view.tree, dir) {
      return false;
    }
    var todo := ChildNames(view.tree, dir);
    while todo != {}
      invariant view.tree.Keys <= old(view.tree.Keys)
      invariant forall p :: p in old(view.tree) ==>
        (p in view.tree <==> Outlives(p, Pruning(dir, manifestName)) || TopName(p, dir) in todo)
      invariant forall p :: p in view.tree ==> view.tree[p] == old(view.tree[p])
      decreases todo
    {
      var name :| name in todo;
      if !SurvivesPruning(name, manifestName) {
        forall p | Inside(p, dir) ensures dir + [name] <= p <==> TopName(p, dir) == name {
          assert p == p[..|dir|] + p[|dir|..];
        }
        view.tree := Remove(view.tree, dir + [name]);
      }
      todo := todo - {name};
    }
    ghost var prunings := [Pruning(dir, manifestName)];
    assert forall p :: OutlivesAll(p, prunings) <==> Outlives(p, prunings[0]);
    ok := true;
  }

  /** `_non_manifest_relpaths`: the files below `dir` that pruning will delete, as text. */
  function NonManifestRelpaths(tree: Tree, pruning: Pruning): set<string> {
    set p | p in tree && tree[p].File? && Inside(p, pruning.dir) && !Unlisted(p, pruning) :: Rel(p)
  }

  function ListedRelpaths(tree: Tree, prunings: seq<Pruning>): set<string> {
    set i, p | 0 <= i < |prunings| && p in NonManifestRelpaths(tree, prunings[i]) :: p
  }

  /** `_find_extension_manifest`: the first manifest name that is a file there. */
  function ExtensionManifest(tree: Tree, dir: Path): Option<string> {
    if IsFile(tree, dir + [EXTENSION_MANIFESTS[0]]) then Some(EXTENSION_MANIFESTS[0])
    else if IsFile(tree, dir + [EXTENSION_MANIFESTS[1]]) then Some(EXTENSION_MANIFESTS[1])
    else None
  }

  function ExtensionManifestName(tree: Tree, dir: Path): string {
    ExtensionManifest(tree, dir).GetOr(EXTENSION_MANIFESTS[0])
  }

  function PluginDir(pluginsDirname: Path, id: string): Path { pluginsDirname + [id] }
  function ExtensionDir(id: string): Path { ["extensions", id] }

  // ---------------------------------------------------------------- describing the tree

  /** What the project's own files say, already parsed. */
  datatype PluginYaml = PluginYaml(
    required: seq<string>, source: Option<PluginSource>, envTemplate: Option<string>)

  datatype Declared = Declared(
    pluginYaml: map<string, PluginYaml>,
    extensionSource: map<string, PluginSource>,
    registry: map<string, PluginSource>)

  datatype BuildError =
    | ManifestExists
    | NoPluginsDirectory
    | MissingPluginYaml(id: string)
    | InvalidPlugin(id: string)
    | MissingEnvTemplate(id: string)
    | NoPlugins
    | InvalidExtension(id: string)
    | InvalidPluginsDirname

  function Lookup<V>(m: map<string, V>, key: string): Option<V> {
    if key in m then Some(m[key]) else None
  }

  function FirstOf<T>(a: Option<T>, b: Option<T>): Option<T> { if a.Some? then a else b }

  function PlanPluginSources(steps: seq<Step>): map<string, PluginSource> {
    if steps == [] then map[]
    else
      var rest := PlanPluginSources(steps[..|steps| - 1]);
      var action := steps[|steps| - 1].action;
      if action.InstallPlugin? && action.source.Some? then rest[action.plugin := action.source.value] else rest
  }

  function PlanExtensionSources(steps: seq<Step>): map<string, PluginSource> {
    if steps == [] then map[]
    else
      var rest := PlanExtensionSources(steps[..|steps| - 1]);
      var action := steps[|steps| - 1].action;
      if action.InstallExtension? && action.source.Some? then rest[action.extension := action.source.value] else rest
  }

  /** The plan outranks the item's own manifest, which outranks the registry. */
  function PluginOrigin(id: string, steps: seq<Step>, declared: Declared): Option<PluginSource>
    requires id in declared.pluginYaml
  {
    FirstOf(Lookup(PlanPluginSources(steps), id),
      FirstOf(declared.pluginYaml[id].source, Lookup(declared.registry, id)))
  }

  function ExtensionOrigin(tree: Tree, id: string, steps: seq<Step>, declared: Declared): Option<PluginSource> {
    FirstOf(Lookup(PlanExtensionSources(steps), id),
      FirstOf(if ExtensionManifest(tree, ExtensionDir(id)).Some? then Lookup(declared.extensionSource, id) else None,
        Lookup(declared.registry, id)))
  }

  predicate PluginAccepted(tree: Tree, dir: Path, id: string, steps: seq<Step>, declared: Declared) {
    && IsFile(tree, dir + [PLUGIN_MANIFEST])
    && id in declared.pluginYaml
    && ValidPluginId(id)
    && var yaml := declared.pluginYaml[id];
       PluginOrigin(id, steps, declared).None? && yaml.envTemplate.Some? ==>
         IsFile(tree, dir + [yaml.envTemplate.value])
  }

  /** The digest of one embedded directory; no patterns are skipped here. */
  ghost function DirectoryDigest(tree: Tree, dir: Path, sha: Hash): string {
    sha(Preimage(Keep(FilesOf(Sub(tree, dir)), {}, []), sha))
  }

  /** Only what is embedded is hashed; what is fetched at deploy time is not there yet. */
  ghost function EmbeddedDigest(source: Option<PluginSource>, tree: Tree, dir: Path, sha: Hash): Option<string> {
    if source.Some? then None else Some(DirectoryDigest(tree, dir, sha))
  }

  ghost predicate DescribesPlugin(ref: PluginRef, tree: Tree, dir: Path, id: string, steps: seq<Step>,
      declared: Declared, sha: Hash)
    requires id in declared.pluginYaml
  {
    && ref.id == id
    && ref.required == declared.pluginYaml[id].required
    && ref.source == PluginOrigin(id, steps, declared)
    && ref.sha256 == EmbeddedDigest(ref.source, tree, dir, sha)
  }

  ghost predicate DescribesExtension(ref: ExtensionRef, tree: Tree, id: string, steps: seq<Step>, declared: Declared,
      sha: Hash)
  {
    && ref.id == id
    && ref.source == ExtensionOrigin(tree, id, steps, declared)
    && ref.sha256 == EmbeddedDigest(ref.source, tree, ExtensionDir(id), sha)
  }

  /** The source-based plugins, in the order they get pruned. */
  function PluginPrunings(plugins: seq<PluginRef>, pluginsDirname: Path): seq<Pruning> {
    if plugins == [] then []
    else
      var last := plugins[|plugins| - 1];
      var rest := PluginPrunings(plugins[..|plugins| - 1], pluginsDirname);
      if last.source.Some? then rest + [Pruning(PluginDir(pluginsDirname, last.id), PLUGIN_MANIFEST)] else rest
  }

  function ExtensionPruning(tree: Tree, id: string): Pruning {
    Pruning(ExtensionDir(id), ExtensionManifestName(tree, ExtensionDir(id)))
  }

  /** The source-based extensions, each with the manifest name found in `tree`. */
  function ExtensionPrunings(extensions: seq<ExtensionRef>, tree: Tree): seq<Pruning> {
    if extensions == [] then []
    else
      var last := extensions[|extensions| - 1];
      var rest := ExtensionPrunings(extensions[..|extensions| - 1], tree);
      if last.source.Some? then rest + [ExtensionPruning(tree, last.id)] else rest
  }

  function SourcePrunings(m: ProjectManifest, tree: Tree): seq<Pruning> {
    PluginPrunings(m.plugins, m.pluginsDirname) + ExtensionPrunings(m.extensions, tree)
  }

  lemma ListedOfConcat(tree: Tree, a: seq<Pruning>, b: seq<Pruning>)
    ensures ListedRelpaths(tree, a + b) == ListedRelpaths(tree, a) + ListedRelpaths(tree, b)
  {
    var ab := a + b;
    forall p | p in ListedRelpaths(tree, a) || p in ListedRelpaths(tree, b) ensures p in ListedRelpaths(tree, ab) {
      if p in ListedRelpaths(tree, a) {
        var i :| 0 <= i < |a| && p in NonManifestRelpaths(tree, a[i]);
        assert ab[i] == a[i];
      } else {
        var i :| 0 <= i < |b| && p in NonManifestRelpaths(tree, b[i]);
        assert ab[|a| + i] == b[i];
      }
    }
  }

  method Rglob(tree: Tree) returns (listing: seq<Path>)
    ensures forall i, j :: 0 <= i < j < |listing| ==> listing[i] != listing[j]
    ensures forall p :: p in listing <==> p in tree
  {
    listing := [];
    var todo := tree.Keys;
    while todo != {}
      invariant todo <= tree.Keys
      invariant forall p :: p in listing <==> p in tree && p !in todo
      invariant forall i, j :: 0 <= i < j < |listing| ==> listing[i] != listing[j]
      decreases todo
    {
      var p :| p in todo;
      todo := todo - {p};
      listing := listing + [p];
    }
  }

  method SortedDirs(tree: Tree, dir: Path) returns (names: seq<string>)
    ensures ListsDirs(names, tree, dir)
  {
    var listing: seq<string> := [];
    var todo := set name | name in ChildNames(tree, dir) && IsDir(tree, dir + [name]);
    ghost var all := todo;
    while todo != {}
      invariant todo <= all
      invariant forall name :: name in listing <==> name in all && name !in todo
      invariant forall i, j :: 0 <= i < j < |listing| ==> listing[i] != listing[j]
      decreases todo
    {
      var name :| name in todo;
      todo := todo - {name};
      listing := listing + [name];
    }
    StringsTotal();
    SortedIsAscending(StringLess, listing);
    names := Sorted(StringLess, listing);
    forall name ensures name in names <==> IsDir(tree, dir + [name]) {
      if IsDir(tree, dir + [name]) {
        assert Inside(dir + [name], dir) && TopName(dir + [name], dir) == name;
      }
    }
  }

  method DigestDirectory(tree: Tree, dir: Path, sha: Hash) returns (digest: string)
    ensures digest == DirectoryDigest(tree, dir, sha)
  {
    var sub := Sub(tree, dir);
    var listing := Rglob(sub);
    digest := ComputeTreeDigest(sub, listing, {}, [], sha);
  }

  method DescribePlugin(tree: Tree, dir: Path, id: string, steps: seq<Step>, declared: Declared, sha: Hash)
    returns (r: Result<PluginRef, BuildError>)
    ensures r.Success? <==> PluginAccepted(tree, dir, id, steps, declared)
    ensures r.Success? ==> DescribesPlugin(r.value, tree, dir, id, steps, declared, sha)
  {
    if !IsFile(tree, dir + [PLUGIN_MANIFEST]) {
      return Failure(MissingPluginYaml(id));
    }
    if id !in declared.pluginYaml || !ValidPluginId(id) {
      return Failure(InvalidPlugin(id));
    }
    var yaml := declared.pluginYaml[id];
    var source := PluginOrigin(id, steps, declared);
    var sha256 := None;
    if source.None? {
      if yaml.envTemplate.Some? && !IsFile(tree, dir + [yaml.envTemplate.value]) {
        return Failure(MissingEnvTemplate(id));
      }
      var digest := DigestDirectory(tree, dir, sha);
      sha256 := Some(digest);
    }
    r := Success(PluginRef(id, sha256, yaml.required, source));
  }

  /** `refs` describe these plugins, in this order. */
  ghost predicate DescribesPlugins(refs: seq<PluginRef>, names: seq<string>, tree: Tree, pluginsDirname: Path,
      steps: seq<Step>, declared: Declared, sha: Hash)
  {
    && |refs| == |names|
    && forall i :: 0 <= i < |names| ==>
         && PluginAccepted(tree, PluginDir(pluginsDirname, names[i]), names[i], steps, declared)
         && DescribesPlugin(refs[i], tree, PluginDir(pluginsDirname, names[i]), names[i], steps, declared, sha)
  }

  lemma DescribesOneMore(refs: seq<PluginRef>, names: seq<string>, ref: PluginRef, name: string, tree: Tree,
      pluginsDirname: Path, steps: seq<Step>, declared: Declared, sha: Hash)
    requires DescribesPlugins(refs, names, tree, pluginsDirname, steps, declared, sha)
    requires PluginAccepted(tree, PluginDir(pluginsDirname, name), name, steps, declared)
    requires DescribesPlugin(ref, tree, PluginDir(pluginsDirname, name), name, steps, declared, sha)
    ensures DescribesPlugins(refs + [ref], names + [name], tree, pluginsDirname, steps, declared, sha)
  {
  }

  ghost predicate PluginsAccepted(names: seq<string>, tree: Tree, pluginsDirname: Path, steps: seq<Step>,
      declared: Declared)
  {
    forall i :: 0 <= i < |names| ==> PluginAccepted(tree, PluginDir(pluginsDirname, names[i]), names[i], steps, declared)
  }

  /** The subdirectories of `dir`, sorted. */
  ghost predicate ListsDirs(names: seq<string>, tree: Tree, dir: Path) {
    Ascending(StringLess, names) && forall name :: name in names <==> IsDir(tree, dir + [name])
  }

  /** The plugins half of `write_manifest`. */
  method DescribePlugins(tree: Tree, names: seq<string>, pluginsDirname: Path, steps: seq<Step>, declared: Declared, sha: Hash)
    returns (r: Result<seq<PluginRef>, BuildError>, listed: set<string>)
    ensures r.Success? <==> names != [] && PluginsAccepted(names, tree, pluginsDirname, steps, declared)
    ensures r.Success? ==> DescribesPlugins(r.value, names, tree, pluginsDirname, steps, declared, sha)
    ensures r.Success? ==> listed == ListedRelpaths(tree, PluginPrunings(r.value, pluginsDirname))
  {
    listed := {};
    var refs: seq<PluginRef> := [];
    for i := 0 to |names|
      invariant DescribesPlugins(refs, names[..i], tree, pluginsDirname, steps, declared, sha)
      invariant listed == ListedRelpaths(tree, PluginPrunings(refs, pluginsDirname))
    {
      var dir := PluginDir(pluginsDirname, names[i]);
      var ref := DescribePlugin(tree, dir, names[i], steps, declared, sha);
      if ref.Failure? {
        return Failure(ref.error), listed;
      }
      if ref.value.source.Some? {
        listed := listed + NonManifestRelpaths(tree, Pruning(dir, PLUGIN_MANIFEST));
      }
      DescribesOneMore(refs, names[..i], ref.value, names[i], tree, pluginsDirname, steps, declared, sha);
      assert names[..i + 1] == names[..i] + [names[i]];
      assert listed == ListedRelpaths(tree, PluginPrunings(refs + [ref.value], pluginsDirname)) by {
        PrunedOneMore(tree, PluginPrunings(refs, pluginsDirname), Pruning(dir, PLUGIN_MANIFEST));
        assert (refs + [ref.value])[..|refs|] == refs;
      }
      refs := refs + [ref.value];
    }
    assert names[..|names|] == names;
    if refs == [] {
      return Failure(NoPlugins), listed;
    }
    r := Success(refs);
  }

  /** `refs` describe these extensions, in this order. */
  ghost predicate DescribesExtensions(refs: seq<ExtensionRef>, names: seq<string>, tree: Tree, steps: seq<Step>,
      declared: Declared, sha: Hash)
    decreases |names|
  {
    && |refs| == |names|
    && (names == [] ||
        var n := |names| - 1;
        DescribesExtensions(refs[..n], names[..n], tree, steps, declared, sha) &&
        DescribesExtension(refs[n], tree, names[n], steps, declared, sha))
  }

  lemma {:induction false} DescribesEachExtension(refs: seq<ExtensionRef>, names: seq<string>, tree: Tree,
      steps: seq<Step>, declared: Declared, sha: Hash, i: nat)
    requires DescribesExtensions(refs, names, tree, steps, declared, sha) && i < |names|
    ensures |refs| == |names| && DescribesExtension(refs[i], tree, names[i], steps, declared, sha)
    decreases |names|
  {
    var n := |names| - 1;
    if i < n { DescribesEachExtension(refs[..n], names[..n], tree, steps, declared, sha, i); }
  }

  lemma DescribesOneMoreExtension(refs: seq<ExtensionRef>, names: seq<string>, ref: ExtensionRef, name: string,
      tree: Tree, steps: seq<Step>, declared: Declared, sha: Hash)
    requires DescribesExtensions(refs, names, tree, steps, declared, sha)
    requires DescribesExtension(ref, tree, name, steps, declared, sha)
    ensures DescribesExtensions(refs + [ref], names + [name], tree, steps, declared, sha)
  {
    assert (refs + [ref])[..|refs|] == refs && (names + [name])[..|names|] == names;
  }

  method DescribeExtension(tree: Tree, id: string, steps: seq<Step>, declared: Declared, sha: Hash)
    returns (ref: ExtensionRef)
    ensures DescribesExtension(ref, tree, id, steps, declared, sha)
  {
    var source := ExtensionOrigin(tree, id, steps, declared);
    var sha256 := None;
    if source.None? {
      var digest := DigestDirectory(tree, ExtensionDir(id), sha);
      sha256 := Some(digest);
    }
    ref := ExtensionRef(id, sha256, source);
  }

  predicate ValidIds(ids: seq<string>) {
    forall i :: 0 <= i < |ids| ==> ValidPluginId(ids[i])
  }

  lemma ValidIdsOneMore(ids: seq<string>, id: string)
    ensures ValidIds(ids + [id]) <==> ValidIds(ids) && ValidPluginId(id)
  {
    var more := ids + [id];
    if ValidIds(more) {
      assert more[|ids|] == id;
      forall i | 0 <= i < |ids| ensures ValidPluginId(ids[i]) { assert more[i] == ids[i]; }
    }
  }

  lemma ValidIdsOfPrefix(ids: seq<string>, n: nat)
    requires n <= |ids|
    ensures ValidIds(ids) ==> ValidIds(ids[..n])
  {
  }

  method ExtensionNames(tree: Tree) returns (names: seq<string>)
    ensures if IsDir(tree, ["extensions"]) then ListsDirs(names, tree, ["extensions"]) else names == []
  {
    if IsDir(tree, ["extensions"]) {
      names := SortedDirs(tree, ["extensions"]);
    } else {
      names := [];
    }
  }

  /** The extensions half of `write_manifest`; a tree without `extensions/` has none. */
  method DescribeExtensions(tree: Tree, names: seq<string>, steps: seq<Step>, declared: Declared, sha: Hash)
    returns (r: Result<seq<ExtensionRef>, BuildError>, listed: set<string>)
    ensures r.Success? <==> ValidIds(names)
    ensures r.Success? ==> DescribesExtensions(r.value, names, tree, steps, declared, sha)
    ensures r.Success? ==> listed == ListedRelpaths(tree, ExtensionPrunings(r.value, tree))
  {
    listed := {};
    var refs: seq<ExtensionRef> := [];
    for i := 0 to |names|
      invariant ValidIds(names[..i])
      invariant DescribesExtensions(refs, names[..i], tree, steps, declared, sha)
      invariant listed == ListedRelpaths(tree, ExtensionPrunings(refs, tree))
    {
      var id := names[i];
      assert names[..i + 1] == names[..i] + [id];
      ValidIdsOneMore(names[..i], id);
      ValidIdsOfPrefix(names, i + 1);
      if !ValidPluginId(id) {
        return Failure(InvalidExtension(id)), listed;
      }
      refs, listed := AddExtension(tree, refs, listed, names[..i], id, steps, declared, sha);
    }
    assert names[..|names|] == names;
    r := Success(refs);
  }

  /** One turn of the loop. */
  method AddExtension(tree: Tree, refs: seq<ExtensionRef>, listed: set<string>, names: seq<string>, id: string,
                      steps: seq<Step>, declared: Declared, sha: Hash)
    returns (more: seq<ExtensionRef>, relpaths: set<string>)
    requires DescribesExtensions(refs, names, tree, steps, declared, sha)
    requires listed == ListedRelpaths(tree, ExtensionPrunings(refs, tree))
    ensures DescribesExtensions(more, names + [id], tree, steps, declared, sha)
    ensures relpaths == ListedRelpaths(tree, ExtensionPrunings(more, tree))
  {
    var ref := DescribeExtension(tree, id, steps, declared, sha);
    relpaths := listed;
    if ref.source.Some? {
      relpaths := relpaths + NonManifestRelpaths(tree, ExtensionPruning(tree, id));
    }
    DescribesOneMoreExtension(refs, names, ref, id, tree, steps, declared, sha);
    ExtensionPrunedOneMore(tree, refs, ref);
    more := refs + [ref];
  }

  lemma PrunedOneMore(tree: Tree, prunings: seq<Pruning>, last: Pruning)
    ensures ListedRelpaths(tree, prunings + [last]) == ListedRelpaths(tree, prunings) + NonManifestRelpaths(tree, last)
  {
    ListedOfConcat(tree, prunings, [last]);
    assert [last][0] == last;
  }

  lemma ExtensionPrunedOneMore(tree: Tree, refs: seq<ExtensionRef>, ref: ExtensionRef)
    ensures ListedRelpaths(tree, ExtensionPrunings(refs + [ref], tree)) ==
      ListedRelpaths(tree, ExtensionPrunings(refs, tree)) +
      if ref.source.Some? then NonManifestRelpaths(tree, ExtensionPruning(tree, ref.id)) else {}
  {
    assert (refs + [ref])[..|refs|] == refs;
    PrunedOneMore(tree, ExtensionPrunings(refs, tree), ExtensionPruning(tree, ref.id));
  }

  /** What the manifest's content hash is taken over: the unpruned tree, without the
      manifest, the listed files and everything under an excluded name. */
  function HashedFiles(tree: Tree, prunings: seq<Pruning>): Files {
    Keep(FilesOf(tree), {MANIFEST_FILENAME} + ListedRelpaths(tree, prunings), PACKAGING_EXCLUDE_PATTERNS)
  }

  /** The manifest describes the tree it was computed from. */
  ghost predicate Describes(m: ProjectManifest, tree: Tree, steps: seq<Step>, declared: Declared, sha: Hash) {
    && (exists names :: ListsDirs(names, tree, m.pluginsDirname) &&
          DescribesPlugins(m.plugins, names, tree, m.pluginsDirname, steps, declared, sha))
    && (exists names ::
          && (if IsDir(tree, ["extensions"]) then ListsDirs(names, tree, ["extensions"]) else names == [])
          && DescribesExtensions(m.extensions, names, tree, steps, declared, sha))
    && m.contentSha256 == sha(Preimage(HashedFiles(tree, SourcePrunings(m, tree)), sha))
  }

  /** What `write_manifest` asks of a tree. */
  ghost predicate Writable(tree: Tree, pluginsDirname: Path, steps: seq<Step>, declared: Declared) {
    && [MANIFEST_FILENAME] !in tree && IsDir(tree, pluginsDirname) && ValidPluginsDirname(pluginsDirname)
    && HasPlugins(tree, pluginsDirname) && AllPluginsAccepted(tree, pluginsDirname, steps, declared)
    && (IsDir(tree, ["extensions"]) ==> AllExtensionsNamed(tree))
  }

  ghost predicate HasPlugins(tree: Tree, pluginsDirname: Path) {
    exists name :: IsDir(tree, pluginsDirname + [name])
  }

  ghost predicate AllPluginsAccepted(tree: Tree, pluginsDirname: Path, steps: seq<Step>, declared: Declared) {
    forall name :: IsDir(tree, pluginsDirname + [name]) ==>
      PluginAccepted(tree, PluginDir(pluginsDirname, name), name, steps, declared)
  }

  ghost predicate AllExtensionsNamed(tree: Tree) {
    forall name :: IsDir(tree, ["extensions"] + [name]) ==> ValidPluginId(name)
  }

  lemma ListedPlugins(names: seq<string>, tree: Tree, pluginsDirname: Path, steps: seq<Step>, declared: Declared)
    requires ListsDirs(names, tree, pluginsDirname)
    ensures names != [] <==> HasPlugins(tree, pluginsDirname)
    ensures PluginsAccepted(names, tree, pluginsDirname, steps, declared) <==>
            AllPluginsAccepted(tree, pluginsDirname, steps, declared)
  {
    if names != [] { assert names[0] in names; }
    forall i | 0 <= i < |names| ensures IsDir(tree, pluginsDirname + [names[i]]) { assert names[i] in names; }
    if PluginsAccepted(names, tree, pluginsDirname, steps, declared) {
      forall name | IsDir(tree, pluginsDirname + [name])
        ensures PluginAccepted(tree, PluginDir(pluginsDirname, name), name, steps, declared)
      {
        assert name in names;
      }
    }
  }

  lemma ListedExtensions(names: seq<string>, tree: Tree)
    requires ListsDirs(names, tree, ["extensions"])
    ensures ValidIds(names) <==> AllExtensionsNamed(tree)
  {
    forall i | 0 <= i < |names| ensures IsDir(tree, ["extensions"] + [names[i]]) { assert names[i] in names; }
    if ValidIds(names) {
      forall name | IsDir(tree, ["extensions"] + [name]) ensures ValidPluginId(name) { assert name in names; }
    }
  }

  /** The manifest for a tree, before it is written. */
  method DescribeProject(tree: Tree, projectId: string, version: string, pluginsDirname: Path, steps: seq<Step>,
                         declared: Declared, sha: Hash)
    returns (r: Result<ProjectManifest, BuildError>)
    ensures r.Success? <==> Writable(tree, pluginsDirname, steps, declared)
    ensures r.Success? ==> r.value.projectId == projectId && r.value.version == version && r.value.pluginsDirname == pluginsDirname
    ensures r.Success? ==> Describes(r.value, tree, steps, declared, sha)
    ensures r.Success? ==> r.value.plugins != []
  {
    if [MANIFEST_FILENAME] in tree {
      return Failure(ManifestExists);
    }
    if !IsDir(tree, pluginsDirname) {
      return Failure(NoPluginsDirectory);
    }
    var dirs := SortedDirs(tree, pluginsDirname);
    ListedPlugins(dirs, tree, pluginsDirname, steps, declared);
    var plugins, listedPlugins := DescribePlugins(tree, dirs, pluginsDirname, steps, declared, sha);
    if plugins.Failure? {
      return Failure(plugins.error);
    }
    var names := ExtensionNames(tree);
    if IsDir(tree, ["extensions"]) { ListedExtensions(names, tree); }
    var extensions, listedExtensions := DescribeExtensions(tree, names, steps, declared, sha);
    if extensions.Failure? {
      return Failure(extensions.error);
    }
    if !ValidPluginsDirname(pluginsDirname) {
      return Failure(InvalidPluginsDirname);
    }
    var digest := DigestSource(tree, listedPlugins + listedExtensions, sha);
    r := Success(ProjectManifest(projectId, version, plugins.value, extensions.value, pluginsDirname, digest));
    ListedOfConcat(tree, PluginPrunings(plugins.value, pluginsDirname), ExtensionPrunings(extensions.value, tree));
  }

  method DigestSource(tree: Tree, listed: set<string>, sha: Hash) returns (digest: string)
    ensures digest == sha(Preimage(Keep(FilesOf(tree), {MANIFEST_FILENAME} + listed, PACKAGING_EXCLUDE_PATTERNS), sha))
  {
    var listing := Rglob(tree);
    digest := ComputeTreeDigest(tree, listing, {MANIFEST_FILENAME} + listed, PACKAGING_EXCLUDE_PATTERNS, sha);
  }

  /** `write_manifest`: `dump` renders the manifest as JSON. */
  method WriteManifest(source: Directory, projectId: string, version: string, pluginsDirname: Path,
                       steps: seq<Step>, declared: Declared, sha: Hash, dump: ProjectManifest -> Bytes)
    returns (r: Result<ProjectManifest, BuildError>)
    modifies source
    ensures r.Success? <==> Writable(old(source.tree), pluginsDirname, steps, declared)
    ensures r.Failure? ==> source.tree == old(source.tree)
    ensures r.Success? ==> source.tree == old(source.tree)[[MANIFEST_FILENAME] := File(dump(r.value))]
    ensures r.Success? ==> r.value.projectId == projectId && r.value.version == version && r.value.pluginsDirname == pluginsDirname
    ensures r.Success? ==> Describes(r.value, old(source.tree), steps, declared, sha)
    ensures r.Success? ==> r.value.plugins != []
  {
    r := DescribeProject(source.tree, projectId, version, pluginsDirname, steps, declared, sha);
    if r.Success? {
      source.tree := source.tree[[MANIFEST_FILENAME] := File(dump(r.value))];
    }
  }

  // ---------------------------------------------------------------- the packaging view

  /** `copytree` with the ignore patterns applied to every name on the way down. */
  function CopyIgnoring(tree: Tree): Tree {
    map p | p in tree && !Skipped(p, PACKAGING_EXCLUDE_PATTERNS) :: tree[p]
  }

  /** The prunings of the extensions when each manifest name is looked up in the view
      itself, after everything before it has been pruned. */
  function ViewPrunings(view: Tree, before: seq<Pruning>, extensions: seq<ExtensionRef>): seq<Pruning> {
    if extensions == [] then before
    else
      var last := extensions[|extensions| - 1];
      var prunings := ViewPrunings(view, before, extensions[..|extensions| - 1]);
      if last.source.None? then prunings
      else prunings + [ExtensionPruning(Pruned(view, prunings), last.id)]
  }

  function SealedPrunings(m: ProjectManifest, tree: Tree): seq<Pruning> {
    ViewPrunings(CopyIgnoring(tree), PluginPrunings(m.plugins, m.pluginsDirname), m.extensions)
  }

  lemma PrunedTwice(tree: Tree, a: seq<Pruning>, b: seq<Pruning>)
    ensures Pruned(Pruned(tree, a), b) == Pruned(tree, a + b)
  {
    forall p ensures OutlivesAll(p, a + b) <==> OutlivesAll(p, a) && OutlivesAll(p, b) {
      if OutlivesAll(p, a + b) {
        forall i | 0 <= i < |a| ensures Outlives(p, a[i]) { assert (a + b)[i] == a[i]; }
        forall i | 0 <= i < |b| ensures Outlives(p, b[i]) { assert (a + b)[|a| + i] == b[i]; }
      }
    }
  }

  /** Pruning an item's directory never removes the directory of an item. */
  lemma ItemDirsStay(copy: Tree, prunings: seq<Pruning>, dir: Path)
    requires forall i :: 0 <= i < |prunings| ==> |prunings[i].dir| >= |dir|
    ensures IsDir(Pruned(copy, prunings), dir) <==> IsDir(copy, dir)
  {
    assert OutlivesAll(dir, prunings);
  }

  lemma PluginDirStays(copy: Tree, plugins: seq<PluginRef>, pluginsDirname: Path, id: string)
    ensures IsDir(Pruned(copy, PluginPrunings(plugins, pluginsDirname)), PluginDir(pluginsDirname, id)) <==>
            IsDir(copy, PluginDir(pluginsDirname, id))
  {
    var prunings := PluginPrunings(plugins, pluginsDirname);
    forall i | 0 <= i < |prunings| ensures |prunings[i].dir| == |pluginsDirname| + 1 {
      PluginPruningsAre(plugins, pluginsDirname, i);
    }
    ItemDirsStay(copy, prunings, PluginDir(pluginsDirname, id));
  }

  /** Every directory that has to be pruned was copied. */
  ghost predicate PluginsCopied(plugins: seq<PluginRef>, pluginsDirname: Path, copy: Tree) {
    forall k :: 0 <= k < |plugins| && plugins[k].source.Some? ==> IsDir(copy, PluginDir(pluginsDirname, plugins[k].id))
  }

  ghost predicate ExtensionsCopied(extensions: seq<ExtensionRef>, copy: Tree) {
    forall k :: 0 <= k < |extensions| && extensions[k].source.Some? ==> IsDir(copy, ExtensionDir(extensions[k].id))
  }

  ghost predicate AllCopied(m: ProjectManifest, copy: Tree) {
    PluginsCopied(m.plugins, m.pluginsDirname, copy) && ExtensionsCopied(m.extensions, copy)
  }

  /** The plugin loop of `_prepare_packaging_view`. */
  method PrunePlugins(view: Directory, m: ProjectManifest) returns (ok: bool)
    modifies view
    ensures ok <==> PluginsCopied(m.plugins, m.pluginsDirname, old(view.tree))
    ensures ok ==> view.tree == Pruned(old(view.tree), PluginPrunings(m.plugins, m.pluginsDirname))
  {
    ghost var copy := view.tree;
    assert Pruned(copy, []) == copy;
    for i := 0 to |m.plugins|
      invariant view.tree == Pruned(copy, PluginPrunings(m.plugins[..i], m.pluginsDirname))
      invariant PluginsCopied(m.plugins[..i], m.pluginsDirname, copy)
    {
      var plugin := m.plugins[i];
      PluginDirStays(copy, m.plugins[..i], m.pluginsDirname, plugin.id);
      assert m.plugins[..i + 1][..i] == m.plugins[..i];
      if plugin.source.Some? {
        PrunedTwice(copy, PluginPrunings(m.plugins[..i], m.pluginsDirname),
                    [Pruning(PluginDir(m.pluginsDirname, plugin.id), PLUGIN_MANIFEST)]);
        ok := PruneToManifestOnly(view, PluginDir(m.pluginsDirname, plugin.id), PLUGIN_MANIFEST);
        if !ok { return; }
      }
    }
    assert m.plugins[..|m.plugins|] == m.plugins;
    ok := true;
  }

  /** Item directories lie at least two levels down. */
  ghost predicate DeepEnough(prunings: seq<Pruning>) { forall i :: 0 <= i < |prunings| ==> |prunings[i].dir| >= 2 }

  lemma ExtensionDirStays(copy: Tree, before: seq<Pruning>, extensions: seq<ExtensionRef>, id: string)
    requires DeepEnough(before)
    ensures IsDir(Pruned(copy, ViewPrunings(copy, before, extensions)), ExtensionDir(id)) <==> IsDir(copy, ExtensionDir(id))
  {
    var prunings := ViewPrunings(copy, before, extensions);
    ViewKeepsBefore(copy, before, extensions);
    forall i | 0 <= i < |prunings| ensures |prunings[i].dir| >= 2 {
      ViewPruningsAre(copy, before, extensions, i);
      if i < |before| { assert prunings[i] == before[i]; }
    }
    ItemDirsStay(copy, prunings, ExtensionDir(id));
  }

  lemma PluginPruningsAreDeep(plugins: seq<PluginRef>, pluginsDirname: Path)
    requires pluginsDirname != []
    ensures DeepEnough(PluginPrunings(plugins, pluginsDirname))
  {
    var prunings := PluginPrunings(plugins, pluginsDirname);
    forall i | 0 <= i < |prunings| ensures |prunings[i].dir| >= 2 { PluginPruningsAre(plugins, pluginsDirname, i); }
  }

  /** Its extension loop; `copy` is the view before anything was pruned. */
  method PruneExtensions(view: Directory, ghost copy: Tree, ghost before: seq<Pruning>, extensions: seq<ExtensionRef>)
    returns (ok: bool)
    requires view.tree == Pruned(copy, before) && DeepEnough(before)
    modifies view
    ensures ok <==> ExtensionsCopied(extensions, copy)
    ensures ok ==> view.tree == Pruned(copy, ViewPrunings(copy, before, extensions))
  {
    for i := 0 to |extensions|
      invariant view.tree == Pruned(copy, ViewPrunings(copy, before, extensions[..i]))
      invariant ExtensionsCopied(extensions[..i], copy)
    {
      var extension := extensions[i];
      ExtensionDirStays(copy, before, extensions[..i], extension.id);
      assert extensions[..i + 1][..i] == extensions[..i];
      if extension.source.Some? {
        var dir := ExtensionDir(extension.id);
        var name := ExtensionManifestName(view.tree, dir);
        PrunedTwice(copy, ViewPrunings(copy, before, extensions[..i]), [Pruning(dir, name)]);
        ok := PruneToManifestOnly(view, dir, name);
        if !ok { return; }
      }
    }
    assert extensions[..|extensions|] == extensions;
    ok := true;
  }

  /** `_prepare_packaging_view`; nothing when a directory to prune was not copied. */
  method PreparePackagingView(source: Tree, m: ProjectManifest) returns (r: Option<Directory>)
    requires m.pluginsDirname != []
    ensures r.Some? <==> AllCopied(m, CopyIgnoring(source))
    ensures r.Some? ==> fresh(r.value)
    ensures r.Some? ==> r.value.tree == Pruned(CopyIgnoring(source), SealedPrunings(m, source))
  {
    PluginPruningsAreDeep(m.plugins, m.pluginsDirname);
    var view := new Directory(CopyIgnoring(source));
    var ok := PrunePlugins(view, m);
    if !ok { return None; }
    ok := PruneExtensions(view, CopyIgnoring(source), PluginPrunings(m.plugins, m.pluginsDirname), m.extensions);
    r := if ok then Some(view) else None;
  }

  // ---------------------------------------------------------------- agreement

  /** Names on a real file system: not empty, no separator. */
  predicate ProperNames(tree: Tree) {
    forall p :: p in tree ==> Separable('/', p)
  }

  lemma RelIsInjective(p: Path, q: Path)
    requires Separable('/', p) && Separable('/', q) && Rel(p) == Rel(q)
    ensures p == q
  {
    JoinIsInjective('/', p, q);
  }

  /** The textual exclude set excludes exactly the files pruning would delete. */
  lemma ListedMeans(tree: Tree, prunings: seq<Pruning>, p: Path)
    requires ProperNames(tree) && IsFile(tree, p)
    ensures Rel(p) in ListedRelpaths(tree, prunings) <==> !UnlistedAll(p, prunings)
  {
    if i :| 0 <= i < |prunings| && Rel(p) in NonManifestRelpaths(tree, prunings[i]) {
      var q :| q in tree && tree[q].File? && Inside(q, prunings[i].dir) && !Unlisted(q, prunings[i]) && Rel(q) == Rel(p);
      assert p in tree;
      RelIsInjective(p, q);
    }
    if i :| 0 <= i < |prunings| && !Unlisted(p, prunings[i]) {
      assert Rel(p) in NonManifestRelpaths(tree, prunings[i]);
    }
  }

  /** The literal tail of a pattern is the tail of every name it matches. */
  lemma {:induction false} GlobFixesTail(name: string, pattern: string, tail: string)
    requires Glob(name, pattern) && EndsWith(pattern, tail) && '*' !in tail
    ensures EndsWith(name, tail)
    decreases |pattern|, |name|
  {
    if pattern == tail {
      GlobLiteral(name, tail);
    } else if pattern[0] == '*' && !Glob(name, pattern[1..]) {
      GlobFixesTail(name[1..], pattern, tail);
    } else {
      GlobFixesTail(if pattern[0] == '*' then name else name[1..], pattern[1..], tail);
    }
  }

  lemma {:induction false} GlobLiteral(name: string, pattern: string)
    requires '*' !in pattern
    ensures Glob(name, pattern) <==> name == pattern
    decreases pattern
  {
    if pattern != "" {
      assert pattern == [pattern[0]] + pattern[1..];
      if name != "" {
        GlobLiteral(name[1..], pattern[1..]);
        assert name == [name[0]] + name[1..];
      }
    }
  }

  lemma LastCharacterDiffers(name: string, pattern: string)
    requires name != "" && pattern != "" && pattern[|pattern| - 1] != '*'
    requires name[|name| - 1] != pattern[|pattern| - 1]
    ensures !Glob(name, pattern)
  {
    var tail := [pattern[|pattern| - 1]];
    assert EndsWith(pattern, tail) && !EndsWith(name, tail) by {
      assert name[|name| - 1..] == [name[|name| - 1]];
    }
    if Glob(name, pattern) { GlobFixesTail(name, pattern, tail); }
  }

  lemma InsideOneLevel(p: Path, dir: Path, other: Path)
    requires dir < p && |p| == |dir| + 1 && |other| >= |dir| && Inside(p, other)
    ensures other == dir
  {
    assert other == p[..|dir|] == dir;
  }

  /** Both extension manifest names pass the exclude patterns and are lost to plugin pruning. */
  lemma ExtensionManifestNames(name: string)
    requires name == EXTENSION_MANIFESTS[0] || name == EXTENSION_MANIFESTS[1]
    ensures !NameMatches(name, PACKAGING_EXCLUDE_PATTERNS)
    ensures !SurvivesPruning(name, PLUGIN_MANIFEST)
  {
    assert name[|name| - 1] == 'l';
    forall k | 0 <= k < |PACKAGING_EXCLUDE_PATTERNS| ensures !Glob(name, PACKAGING_EXCLUDE_PATTERNS[k]) {
      var pattern := PACKAGING_EXCLUDE_PATTERNS[k];
      assert pattern != "" && pattern[|pattern| - 1] != '*' && pattern[|pattern| - 1] != 'l';
      LastCharacterDiffers(name, pattern);
    }
    assert ".template"[8] == 'e';
  }

  // The manifest name of an extension is looked up once in the source tree, for the list
  // of excluded files, and once more in the half-pruned view. The two lookups can differ
  // only when a source-based plugin is pruned in the very same directory, and then both
  // names lead to the same files.

  ghost predicate DistinctExtensions(extensions: seq<ExtensionRef>) {
    forall i, j :: 0 <= i < j < |extensions| ==> extensions[i].id != extensions[j].id
  }

  lemma {:induction false} PluginPruningsAre(plugins: seq<PluginRef>, pluginsDirname: Path, i: nat)
    requires i < |PluginPrunings(plugins, pluginsDirname)|
    ensures PluginPrunings(plugins, pluginsDirname)[i].manifestName == PLUGIN_MANIFEST
    ensures |PluginPrunings(plugins, pluginsDirname)[i].dir| == |pluginsDirname| + 1
  {
    var n := |plugins| - 1;
    if i < |PluginPrunings(plugins[..n], pluginsDirname)| {
      PluginPruningsAre(plugins[..n], pluginsDirname, i);
    }
  }

  lemma {:induction false} ViewKeepsBefore(view: Tree, before: seq<Pruning>, extensions: seq<ExtensionRef>)
    ensures before <= ViewPrunings(view, before, extensions)
  {
    if extensions != [] { ViewKeepsBefore(view, before, extensions[..|extensions| - 1]); }
  }

  /** Each pruning in the view is a plugin's or that of one of the extensions so far. */
  lemma {:induction false} ViewPruningsAre(view: Tree, before: seq<Pruning>, extensions: seq<ExtensionRef>, i: nat)
    requires i < |ViewPrunings(view, before, extensions)|
    ensures i >= |before| ==>
      exists k :: 0 <= k < |extensions| && ViewPrunings(view, before, extensions)[i].dir == ExtensionDir(extensions[k].id)
  {
    if extensions != [] {
      var n := |extensions| - 1;
      var rest := ViewPrunings(view, before, extensions[..n]);
      if i < |rest| {
        ViewPruningsAre(view, before, extensions[..n], i);
      }
    }
  }

  /** What decides between the two lookups of `ext`'s manifest name. */
  lemma LookupsAgree(tree: Tree, m: ProjectManifest, n: nat)
    requires n < |m.extensions| && DistinctExtensions(m.extensions) && ValidPluginsDirname(m.pluginsDirname)
    requires ExtensionDir(m.extensions[n].id) in CopyIgnoring(tree)
    ensures
      var before := PluginPrunings(m.plugins, m.pluginsDirname);
      var prunings := ViewPrunings(CopyIgnoring(tree), before, m.extensions[..n]);
      var dir := ExtensionDir(m.extensions[n].id);
      || ExtensionManifestName(Pruned(CopyIgnoring(tree), prunings), dir) == ExtensionManifestName(tree, dir)
      || exists i :: 0 <= i < |before| && before[i].dir == dir
  {
    var copy := CopyIgnoring(tree);
    var before := PluginPrunings(m.plugins, m.pluginsDirname);
    var prunings := ViewPrunings(copy, before, m.extensions[..n]);
    var dir := ExtensionDir(m.extensions[n].id);
    if forall i :: 0 <= i < |before| ==> before[i].dir != dir {
      ViewKeepsBefore(copy, before, m.extensions[..n]);
      forall k | 0 <= k < 2
        ensures IsFile(Pruned(copy, prunings), dir + [EXTENSION_MANIFESTS[k]]) <==> IsFile(tree, dir + [EXTENSION_MANIFESTS[k]])
      {
        var p := dir + [EXTENSION_MANIFESTS[k]];
        ExtensionManifestNames(EXTENSION_MANIFESTS[k]);
        forall j | 0 <= j < |p| ensures !NameMatches(p[j], PACKAGING_EXCLUDE_PATTERNS) {
          if j < |dir| { assert p[j] == dir[j]; }
        }
        forall i | 0 <= i < |prunings| ensures !Inside(p, prunings[i].dir) {
          if i < |before| {
            PluginPruningsAre(m.plugins, m.pluginsDirname, i);
            assert prunings[i] == before[i];
          } else {
            ViewPruningsAre(copy, before, m.extensions[..n], i);
            assert forall k :: 0 <= k < n ==> ExtensionDir(m.extensions[k].id)[1] != dir[1];
          }
          if Inside(p, prunings[i].dir) { InsideOneLevel(p, dir, prunings[i].dir); }
        }
      }
    }
  }

  /** Pruning the view keeps the same paths as pruning by the names found in the source. */
  lemma {:induction false} SameSealed(tree: Tree, m: ProjectManifest, n: nat, p: Path)
    requires n <= |m.extensions| && DistinctExtensions(m.extensions) && ValidPluginsDirname(m.pluginsDirname)
    requires forall i :: 0 <= i < |m.extensions| && m.extensions[i].source.Some? ==>
      ExtensionDir(m.extensions[i].id) in CopyIgnoring(tree)
    ensures
      var before := PluginPrunings(m.plugins, m.pluginsDirname);
      OutlivesAll(p, ViewPrunings(CopyIgnoring(tree), before, m.extensions[..n])) <==>
      OutlivesAll(p, before + ExtensionPrunings(m.extensions[..n], tree))
    decreases n
  {
    var copy := CopyIgnoring(tree);
    var before := PluginPrunings(m.plugins, m.pluginsDirname);
    if n == 0 {
      assert before + ExtensionPrunings(m.extensions[..0], tree) == before;
    } else {
      var k := n - 1;
      assert m.extensions[..n][..k] == m.extensions[..k];
      SameSealed(tree, m, k, p);
      if m.extensions[k].source.Some? {
        var viewed, sourced := ViewPrunings(copy, before, m.extensions[..k]), ExtensionPrunings(m.extensions[..k], tree);
        SameSealedNext(tree, m, k, p, viewed, sourced);
      }
    }
  }

  /** One more extension, pruned by the name in the view or by the one in the source. */
  lemma SameSealedNext(tree: Tree, m: ProjectManifest, k: nat, p: Path, viewed: seq<Pruning>, sourced: seq<Pruning>)
    requires k < |m.extensions| && DistinctExtensions(m.extensions) && ValidPluginsDirname(m.pluginsDirname)
    requires ExtensionDir(m.extensions[k].id) in CopyIgnoring(tree)
    requires viewed == ViewPrunings(CopyIgnoring(tree), PluginPrunings(m.plugins, m.pluginsDirname), m.extensions[..k])
    requires OutlivesAll(p, viewed) <==> OutlivesAll(p, PluginPrunings(m.plugins, m.pluginsDirname) + sourced)
    ensures
      var before, id := PluginPrunings(m.plugins, m.pluginsDirname), m.extensions[k].id;
      OutlivesAll(p, viewed + [ExtensionPruning(Pruned(CopyIgnoring(tree), viewed), id)]) <==>
      OutlivesAll(p, before + (sourced + [ExtensionPruning(tree, id)]))
  {
    var before, dir := PluginPrunings(m.plugins, m.pluginsDirname), ExtensionDir(m.extensions[k].id);
    var viewName := ExtensionManifestName(Pruned(CopyIgnoring(tree), viewed), dir);
    var sourceName := ExtensionManifestName(tree, dir);
    OutlivesOneMore(p, viewed, Pruning(dir, viewName));
    OutlivesOneMore(p, before + sourced, Pruning(dir, sourceName));
    assert before + (sourced + [Pruning(dir, sourceName)]) == before + sourced + [Pruning(dir, sourceName)];
    LookupsAgree(tree, m, k);
    if viewName != sourceName && OutlivesAll(p, before + sourced) {
      SameAfterPlugin(p, m, before + sourced, dir, viewName, sourceName);
    }
  }

  lemma OutlivesOneMore(p: Path, prunings: seq<Pruning>, last: Pruning)
    ensures OutlivesAll(p, prunings + [last]) <==> OutlivesAll(p, prunings) && Outlives(p, last)
  {
    var more := prunings + [last];
    if OutlivesAll(p, more) {
      forall i | 0 <= i < |prunings| ensures Outlives(p, prunings[i]) { assert more[i] == prunings[i]; }
      assert Outlives(p, more[|prunings|]);
    }
  }

  /** In a directory already pruned as a plugin, neither extension manifest is left. */
  lemma SameAfterPlugin(p: Path, m: ProjectManifest, prunings: seq<Pruning>, dir: Path, a: string, b: string)
    requires PluginPrunings(m.plugins, m.pluginsDirname) <= prunings && OutlivesAll(p, prunings)
    requires var before := PluginPrunings(m.plugins, m.pluginsDirname);
      exists i :: 0 <= i < |before| && before[i].dir == dir
    requires a in EXTENSION_MANIFESTS && b in EXTENSION_MANIFESTS
    ensures Outlives(p, Pruning(dir, a)) <==> Outlives(p, Pruning(dir, b))
  {
    var before := PluginPrunings(m.plugins, m.pluginsDirname);
    var i :| 0 <= i < |before| && before[i].dir == dir;
    PluginPruningsAre(m.plugins, m.pluginsDirname, i);
    assert prunings[i] == before[i] && Outlives(p, prunings[i]);
    ExtensionManifestNames(a);
    ExtensionManifestNames(b);
  }

  /** What the agent hashes after extraction: every file but the manifest. */
  function AgentFiles(tree: Tree): Files {
    Keep(FilesOf(tree), {MANIFEST_FILENAME}, [])
  }

  /** A top-level directory of a source-based item has a name that survives pruning and
      holds, at any depth, a file that gets sealed. */
  ghost predicate SurvivingDirectoryHoldsFile(tree: Tree, prunings: seq<Pruning>) {
    exists p, i :: HeldInSurvivingDirectory(tree, prunings, p, i)
  }

  ghost predicate HeldInSurvivingDirectory(tree: Tree, prunings: seq<Pruning>, p: Path, i: int) {
    && 0 <= i < |prunings|
    && IsFile(tree, p) && !Skipped(p, PACKAGING_EXCLUDE_PATTERNS) && Rel(p) != MANIFEST_FILENAME
    && OutlivesAll(p, prunings)
    && Inside(p, prunings[i].dir) && |p| > |prunings[i].dir| + 1
  }

  /** The tree that gets sealed: the source with its manifest, copied, filtered and pruned. */
  function SealedTree(source: Tree, m: ProjectManifest): Tree {
    Pruned(CopyIgnoring(source), SealedPrunings(m, source))
  }

  /** What `write_manifest` establishes about a manifest and the tree it was computed on. */
  ghost predicate Sealable(tree: Tree, m: ProjectManifest) {
    && ProperNames(tree) && [MANIFEST_FILENAME] !in tree
    && DistinctExtensions(m.extensions) && ValidPluginsDirname(m.pluginsDirname)
    && forall i :: 0 <= i < |m.extensions| && m.extensions[i].source.Some? ==>
         ExtensionDir(m.extensions[i].id) in CopyIgnoring(tree)
  }

  function WithManifest(tree: Tree, data: Bytes): Tree { tree[[MANIFEST_FILENAME] := File(data)] }

  lemma {:induction false} SameLookupWithManifest(tree: Tree, data: Bytes, extensions: seq<ExtensionRef>)
    ensures ExtensionPrunings(extensions, WithManifest(tree, data)) == ExtensionPrunings(extensions, tree)
  {
    if extensions != [] {
      SameLookupWithManifest(tree, data, extensions[..|extensions| - 1]);
    }
  }

  /** One file: hashed by the packer, and hashed by the agent. */
  lemma HashedAndSealed(tree: Tree, m: ProjectManifest, data: Bytes, p: Path)
    requires Sealable(tree, m) && p != [MANIFEST_FILENAME]
    ensures p in HashedFiles(tree, SourcePrunings(m, tree)) <==>
      IsFile(tree, p) && !Skipped(p, PACKAGING_EXCLUDE_PATTERNS) && Rel(p) != MANIFEST_FILENAME
      && UnlistedAll(p, SourcePrunings(m, tree))
    ensures p in AgentFiles(SealedTree(WithManifest(tree, data), m)) <==>
      IsFile(tree, p) && !Skipped(p, PACKAGING_EXCLUDE_PATTERNS) && Rel(p) != MANIFEST_FILENAME
      && OutlivesAll(p, SourcePrunings(m, tree))
  {
    var full := WithManifest(tree, data);
    if IsFile(tree, p) { ListedMeans(tree, SourcePrunings(m, tree), p); }
    SameLookupWithManifest(tree, data, m.extensions);
    assert m.extensions[..|m.extensions|] == m.extensions;
    SameSealed(full, m, |m.extensions|, p);
  }

  lemma ManifestNotHashed(tree: Tree, m: ProjectManifest, data: Bytes)
    requires [MANIFEST_FILENAME] !in tree
    ensures [MANIFEST_FILENAME] !in HashedFiles(tree, SourcePrunings(m, tree))
    ensures [MANIFEST_FILENAME] !in AgentFiles(SealedTree(WithManifest(tree, data), m))
  {
    assert Rel([MANIFEST_FILENAME]) == MANIFEST_FILENAME;
  }

  /** Both sides hash the same contents, as far as they hash the same files. */
  lemma SameContents(tree: Tree, m: ProjectManifest, data: Bytes, p: Path)
    requires p in HashedFiles(tree, SourcePrunings(m, tree)) && p in AgentFiles(SealedTree(WithManifest(tree, data), m))
    requires [MANIFEST_FILENAME] !in tree
    ensures HashedFiles(tree, SourcePrunings(m, tree))[p] == AgentFiles(SealedTree(WithManifest(tree, data), m))[p]
  {
    ManifestNotHashed(tree, m, data);
  }

  lemma UnlistedOutlives(p: Path, prunings: seq<Pruning>)
    requires UnlistedAll(p, prunings)
    ensures OutlivesAll(p, prunings)
  {
    forall i | 0 <= i < |prunings| ensures Outlives(p, prunings[i]) { assert Unlisted(p, prunings[i]); }
  }

  /** The packer and the agent hash the same files exactly when no surviving directory holds one. */
  lemma SameFilesExactly(tree: Tree, m: ProjectManifest, data: Bytes)
    requires Sealable(tree, m)
    ensures
      HashedFiles(tree, SourcePrunings(m, tree)).Keys == AgentFiles(SealedTree(WithManifest(tree, data), m)).Keys <==>
      !SurvivingDirectoryHoldsFile(tree, SourcePrunings(m, tree))
  {
    var prunings := SourcePrunings(m, tree);
    var hashed, sealed := HashedFiles(tree, prunings), AgentFiles(SealedTree(WithManifest(tree, data), m));
    ManifestNotHashed(tree, m, data);
    forall p | p != [MANIFEST_FILENAME]
      ensures p in hashed ==> p in sealed
      ensures p in sealed && p !in hashed ==> exists i :: HeldInSurvivingDirectory(tree, prunings, p, i)
    {
      HashedAndSealed(tree, m, data, p);
      if p in hashed { UnlistedOutlives(p, prunings); }
      if p in sealed && p !in hashed {
        var i :| 0 <= i < |prunings| && !Unlisted(p, prunings[i]);
        assert Outlives(p, prunings[i]);
        assert HeldInSurvivingDirectory(tree, prunings, p, i);
      }
    }
    if SurvivingDirectoryHoldsFile(tree, prunings) {
      var p, i :| HeldInSurvivingDirectory(tree, prunings, p, i);
      assert Rel([MANIFEST_FILENAME]) == MANIFEST_FILENAME;
      HashedAndSealed(tree, m, data, p);
      assert !Unlisted(p, prunings[i]);
      assert p in sealed && p !in hashed;
    }
  }

  /** The central promise of the content hash: what the packer hashed is what the agent
      hashes again, if and only if no surviving directory of a source-based item holds a file. */
  lemma SealAgreesExactly(tree: Tree, m: ProjectManifest, data: Bytes, sha: Hash)
    requires Sealable(tree, m)
    ensures
      var hashed, sealed := HashedFiles(tree, SourcePrunings(m, tree)), AgentFiles(SealedTree(WithManifest(tree, data), m));
      && (!SurvivingDirectoryHoldsFile(tree, SourcePrunings(m, tree)) ==> Preimage(hashed, sha) == Preimage(sealed, sha))
      && (IsHexDigest(sha) && PlainNames(FilesOf(tree)) ==>
            SurvivingDirectoryHoldsFile(tree, SourcePrunings(m, tree)) ==> Preimage(hashed, sha) != Preimage(sealed, sha))
  {
    var hashed, sealed := HashedFiles(tree, SourcePrunings(m, tree)), AgentFiles(SealedTree(WithManifest(tree, data), m));
    SameFilesExactly(tree, m, data);
    if !SurvivingDirectoryHoldsFile(tree, SourcePrunings(m, tree)) {
      forall p | p in hashed ensures hashed[p] == sealed[p] {
        assert p in sealed.Keys;
        SameContents(tree, m, data, p);
      }
      assert hashed == sealed;
    } else if IsHexDigest(sha) && PlainNames(FilesOf(tree)) {
      ManifestNotHashed(tree, m, data);
      assert PlainNames(hashed) && PlainNames(sealed) by {
        forall p | p in hashed || p in sealed ensures p in FilesOf(tree) { HashedAndSealed(tree, m, data, p); }
      }
      PreimageDecodes(hashed, sealed, sha);
      assert HashMap(hashed, sha).Keys == hashed.Keys && HashMap(sealed, sha).Keys == sealed.Keys;
    }
  }

  /** `build_artifact` up to the encoding: the tree that goes into the artifact. */
  method BuildArtifact(source: Directory, projectId: string, version: string, pluginsDirname: Path,
                       steps: seq<Step>, declared: Declared, sha: Hash, dump: ProjectManifest -> Bytes)
    returns (r: Option<(ProjectManifest, Tree)>)
    requires ProperNames(source.tree)
    modifies source
    ensures r.Some? ==> Writable(old(source.tree), pluginsDirname, steps, declared)
    ensures r.None? && Writable(old(source.tree), pluginsDirname, steps, declared) ==>
      exists m :: Describes(m, old(source.tree), steps, declared, sha) && !AllCopied(m, CopyIgnoring(source.tree))
    ensures r.Some? ==>
      var (m, sealed) := r.value;
      && Sealable(old(source.tree), m) && Describes(m, old(source.tree), steps, declared, sha)
      && AllCopied(m, CopyIgnoring(source.tree))
      && source.tree == WithManifest(old(source.tree), dump(m))
      && sealed == SealedTree(source.tree, m)
      && m.projectId == projectId && m.version == version
      && (!SurvivingDirectoryHoldsFile(old(source.tree), SourcePrunings(m, old(source.tree))) ==>
            sha(Preimage(AgentFiles(sealed), sha)) == m.contentSha256)
  {
    ghost var before := source.tree;
    var manifest := WriteManifest(source, projectId, version, pluginsDirname, steps, declared, sha, dump);
    if manifest.Failure? { return None; }
    var m := manifest.value;
    var view := PreparePackagingView(source.tree, m);
    if view.None? { return None; }
    DescribedExtensionsAreDistinct(m, before, steps, declared, sha);
    SealAgreesExactly(before, m, dump(m), sha);
    r := Some((m, view.value.tree));
  }

  lemma DescribedExtensionsAreDistinct(m: ProjectManifest, tree: Tree, steps: seq<Step>, declared: Declared, sha: Hash)
    requires Describes(m, tree, steps, declared, sha)
    ensures DistinctExtensions(m.extensions)
  {
    StringsTotal();
    var names :|
      && (if IsDir(tree, ["extensions"]) then ListsDirs(names, tree, ["extensions"]) else names == [])
      && DescribesExtensions(m.extensions, names, tree, steps, declared, sha);
    assert |m.extensions| == |names|;
    forall i, j | 0 <= i < j < |m.extensions| ensures m.extensions[i].id != m.extensions[j].id {
      DescribesEachExtension(m.extensions, names, tree, steps, declared, sha, i);
      DescribesEachExtension(m.extensions, names, tree, steps, declared, sha, j);
      assert StringLess(names[i], names[j]);
    }
  }

  // ---------------------------------------------------------------- a tree on which they disagree

  const EXAMPLE_FILE: Path := ["app", "l", "x.template", "f"]
  const EXAMPLE_YAML: Path := ["app", "l", "plugin.yaml"]
  const EXAMPLE_TREE: Tree := map[
    [] := Dir, ["app"] := Dir, ["app", "l"] := Dir, ["app", "l", "x.template"] := Dir,
    EXAMPLE_YAML := File(""), EXAMPLE_FILE := File("z")]

  /** The plugin's own manifest names its source. */
  function ExampleDeclared(source: PluginSource): Declared {
    Declared(map["l" := PluginYaml([], Some(source), None)], map[], map[])
  }

  lemma PlainNameNotExcluded(name: string)
    requires name == "app" || name == "l" || name == "f"
    ensures !NameMatches(name, PACKAGING_EXCLUDE_PATTERNS)
  {
    forall k | 0 <= k < |PACKAGING_EXCLUDE_PATTERNS| ensures !Glob(name, PACKAGING_EXCLUDE_PATTERNS[k]) {
      var pattern := PACKAGING_EXCLUDE_PATTERNS[k];
      var last := pattern[|pattern| - 1];
      assert last != '*' && last != 'p' && last != 'l' && last != 'f';
      LastCharacterDiffers(name, pattern);
    }
  }

  lemma TemplateIsNotSqlite(name: string)
    requires name == "x.template"
    ensures !Glob(name, "*.sqlite")
  {
    var pattern := "*.sqlite";
    assert name[|name| - 3..] == "ate" && pattern[|pattern| - 3..] == "ite";
    assert "ate"[0] != "ite"[0];
    if Glob(name, pattern) { GlobFixesTail(name, pattern, "ite"); }
  }

  lemma TemplateNotExcluded(name: string)
    requires name == "x.template"
    ensures !NameMatches(name, PACKAGING_EXCLUDE_PATTERNS)
  {
    forall k | 0 <= k < |PACKAGING_EXCLUDE_PATTERNS| ensures !Glob(name, PACKAGING_EXCLUDE_PATTERNS[k]) {
      var pattern := PACKAGING_EXCLUDE_PATTERNS[k];
      if k == 16 {
        assert pattern == "*.sqlite";
        TemplateIsNotSqlite(name);
      } else if pattern[|pattern| - 1] == 'e' {
        assert pattern[0] == '.';
      } else {
        assert pattern[|pattern| - 1] != '*';
        LastCharacterDiffers(name, pattern);
      }
    }
  }

  lemma ExampleHoldsFile()
    ensures HeldInSurvivingDirectory(EXAMPLE_TREE, [Pruning(["app", "l"], PLUGIN_MANIFEST)], EXAMPLE_FILE, 0)
  {
    PlainNameNotExcluded("app");
    PlainNameNotExcluded("l");
    TemplateNotExcluded("x.template");
    PlainNameNotExcluded("f");
    forall k | 0 <= k < |EXAMPLE_FILE| ensures !NameMatches(EXAMPLE_FILE[k], PACKAGING_EXCLUDE_PATTERNS) {
    }
    assert "x.template"[1..] == ".template";
    assert Rel(EXAMPLE_FILE)[0] == 'a';
  }

  lemma ExampleDirs(name: string)
    ensures IsDir(EXAMPLE_TREE, ["app"] + [name]) <==> name == "l"
  {
    assert ["app"] + [name] == ["app", name];
    assert ["app", name] in EXAMPLE_TREE ==> ["app", name] == ["app", "l"];
    assert ["app", name] == ["app", "l"] ==> name == ["app", "l"][1];
  }

  lemma ExampleIsWritable(source: PluginSource)
    ensures Writable(EXAMPLE_TREE, ["app"], [], ExampleDeclared(source))
  {
    ExampleDirs("l");
    forall name | IsDir(EXAMPLE_TREE, ["app"] + [name])
      ensures PluginAccepted(EXAMPLE_TREE, PluginDir(["app"], name), name, [], ExampleDeclared(source))
    {
      ExampleDirs(name);
      assert PluginDir(["app"], "l") + [PLUGIN_MANIFEST] == EXAMPLE_YAML;
    }
    assert [MANIFEST_FILENAME] !in EXAMPLE_TREE && ["extensions"] !in EXAMPLE_TREE;
  }

  lemma ExampleShape(pluginsDirname: Path)
    requires pluginsDirname == ["app"]
    ensures forall name :: IsDir(EXAMPLE_TREE, pluginsDirname + [name]) <==> name == "l"
    ensures !IsDir(EXAMPLE_TREE, ["extensions"])
  {
    forall name ensures IsDir(EXAMPLE_TREE, pluginsDirname + [name]) <==> name == "l" { ExampleDirs(name); }
    assert ["extensions"] !in EXAMPLE_TREE;
  }

  /** There is only one way to describe it. */
  lemma ExampleDescribed(m: ProjectManifest, source: PluginSource, sha: Hash)
    requires m.pluginsDirname == ["app"] && Describes(m, EXAMPLE_TREE, [], ExampleDeclared(source), sha)
    ensures |m.plugins| == 1 && m.plugins[0].id == "l" && m.plugins[0].source == Some(source) && m.extensions == []
  {
    ExampleShape(m.pluginsDirname);
    SinglePlugin(m, EXAMPLE_TREE, "l", [], ExampleDeclared(source), sha);
  }

  lemma SinglePlugin(m: ProjectManifest, tree: Tree, id: string, steps: seq<Step>, declared: Declared, sha: Hash)
    requires Describes(m, tree, steps, declared, sha) && id in declared.pluginYaml && !IsDir(tree, ["extensions"])
    requires forall name :: IsDir(tree, m.pluginsDirname + [name]) <==> name == id
    ensures |m.plugins| == 1 && m.plugins[0].id == id && m.plugins[0].source == PluginOrigin(id, steps, declared)
    ensures m.extensions == []
  {
    var names := DescribedNames(m, tree, steps, declared, sha);
    OnlyListing(names, tree, m.pluginsDirname, id);
    OnlyPlugin(m.plugins, tree, m.pluginsDirname, id, steps, declared, sha);
    NoExtensions(m, tree, steps, declared, sha);
  }

  lemma DescribedNames(m: ProjectManifest, tree: Tree, steps: seq<Step>, declared: Declared, sha: Hash)
    returns (names: seq<string>)
    requires Describes(m, tree, steps, declared, sha)
    ensures ListsDirs(names, tree, m.pluginsDirname)
    ensures DescribesPlugins(m.plugins, names, tree, m.pluginsDirname, steps, declared, sha)
  {
    names :| ListsDirs(names, tree, m.pluginsDirname) &&
      DescribesPlugins(m.plugins, names, tree, m.pluginsDirname, steps, declared, sha);
  }

  lemma OnlyListing(names: seq<string>, tree: Tree, dir: Path, id: string)
    requires ListsDirs(names, tree, dir) && forall name :: IsDir(tree, dir + [name]) <==> name == id
    ensures names == [id]
  {
    StringsTotal();
    AscendingIsUnique(StringLess, names, [id]);
  }

  lemma OnlyPlugin(refs: seq<PluginRef>, tree: Tree, pluginsDirname: Path, id: string, steps: seq<Step>,
                   declared: Declared, sha: Hash)
    requires DescribesPlugins(refs, [id], tree, pluginsDirname, steps, declared, sha) && id in declared.pluginYaml
    ensures |refs| == 1 && refs[0].id == id && refs[0].source == PluginOrigin(id, steps, declared)
  {
    assert DescribesPlugin(refs[0], tree, PluginDir(pluginsDirname, [id][0]), [id][0], steps, declared, sha);
  }

  lemma NoExtensions(m: ProjectManifest, tree: Tree, steps: seq<Step>, declared: Declared, sha: Hash)
    requires Describes(m, tree, steps, declared, sha) && !IsDir(tree, ["extensions"])
    ensures m.extensions == []
  {
  }

  lemma SinglePruning(plugins: seq<PluginRef>, pluginsDirname: Path)
    requires |plugins| == 1 && plugins[0].source.Some?
    ensures PluginPrunings(plugins, pluginsDirname) == [Pruning(PluginDir(pluginsDirname, plugins[0].id), PLUGIN_MANIFEST)]
  {
    assert plugins[..0] == [];
    assert PluginPrunings([], pluginsDirname) == [];
  }

  lemma ExamplePrunings(m: ProjectManifest)
    requires |m.plugins| == 1 && m.plugins[0].id == "l" && m.plugins[0].source.Some? && m.extensions == []
    requires m.pluginsDirname == ["app"]
    ensures SourcePrunings(m, EXAMPLE_TREE) == [Pruning(["app", "l"], PLUGIN_MANIFEST)]
  {
    SinglePruning(m.plugins, m.pluginsDirname);
    assert PluginDir(["app"], "l") == ["app", "l"];
  }

  lemma ExampleIsCopied(m: ProjectManifest, data: Bytes)
    requires |m.plugins| == 1 && m.plugins[0].id == "l" && m.extensions == [] && m.pluginsDirname == ["app"]
    ensures AllCopied(m, CopyIgnoring(WithManifest(EXAMPLE_TREE, data)))
  {
    PlainNameNotExcluded("app");
    PlainNameNotExcluded("l");
    var dir: Path := ["app", "l"];
    assert PluginDir(["app"], "l") == dir;
    assert !Skipped(dir, PACKAGING_EXCLUDE_PATTERNS);
  }

  lemma ExampleNames()
    ensures ProperNames(EXAMPLE_TREE) && PlainNames(FilesOf(EXAMPLE_TREE))
  {
    assert Separable('/', EXAMPLE_FILE) && Separable('\n', EXAMPLE_FILE);
    assert Separable('/', EXAMPLE_YAML) && Separable('\n', EXAMPLE_YAML);
    forall p | p in EXAMPLE_TREE ensures p == EXAMPLE_YAML || p <= EXAMPLE_FILE {}
    forall p: Path | p <= EXAMPLE_FILE ensures Separable('/', p) {
      assert forall i :: 0 <= i < |p| ==> p[i] == EXAMPLE_FILE[i];
    }
    forall p | p in FilesOf(EXAMPLE_TREE) ensures p == EXAMPLE_FILE || p == EXAMPLE_YAML {}
  }

  /** A directory called `x.template` in a source-based plugin is sealed, but not hashed. The
      packer accepts the tree, copies all it has to prune, and gives a manifest that the
      agent's digest then contradicts. */
  lemma DisagreementExample(source: PluginSource, data: Bytes, sha: Hash, m: ProjectManifest)
    requires IsHexDigest(sha)
    ensures Writable(EXAMPLE_TREE, ["app"], [], ExampleDeclared(source))
    ensures m.pluginsDirname == ["app"] && Describes(m, EXAMPLE_TREE, [], ExampleDeclared(source), sha) ==>
      && AllCopied(m, CopyIgnoring(WithManifest(EXAMPLE_TREE, data)))
      && Preimage(HashedFiles(EXAMPLE_TREE, SourcePrunings(m, EXAMPLE_TREE)), sha) !=
         Preimage(AgentFiles(SealedTree(WithManifest(EXAMPLE_TREE, data), m)), sha)
  {
    ExampleIsWritable(source);
    if m.pluginsDirname == ["app"] && Describes(m, EXAMPLE_TREE, [], ExampleDeclared(source), sha) {
      ExampleDescribed(m, source, sha);
      ExampleIsCopied(m, data);
      ExampleNames();
      ExamplePrunings(m);
      ExampleHoldsFile();
      SealAgreesExactly(EXAMPLE_TREE, m, data, sha);
    }
  }
}
