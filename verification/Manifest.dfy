/** The description of an artifact's contents (`manifest.json`), already parsed. */
module Manifest {
  import opened Wrappers
  import opened FileTree
  import opened InstallSchema

  /** `sha256` is absent for an item that is resolved from `source` at deploy time. */
  datatype PluginRef = PluginRef(
    id: string, sha256: Option<string>, required: seq<string>, source: Option<PluginSource>)

  datatype ExtensionRef = ExtensionRef(id: string, sha256: Option<string>, source: Option<PluginSource>)

  datatype ProjectManifest = ProjectManifest(
    projectId: string,
    version: string,
    plugins: seq<PluginRef>,
    extensions: seq<ExtensionRef>,
    pluginsDirname: Path,
    contentSha256: string)

  predicate IsDirnameChar(c: char) {
    'A' <= c <= 'Z' || 'a' <= c <= 'z' || '0' <= c <= '9' || c == '_' || c == '-'
  }

  /** The directory plugins live under: at least one segment, none of them dotted. */
  predicate ValidPluginsDirname(dir: Path) {
    && dir != []
    && forall i :: 0 <= i < |dir| ==> dir[i] != "" && forall k :: 0 <= k < |dir[i]| ==> IsDirnameChar(dir[i][k])
  }

  /** `ProjectManifest.plugin`: the first entry with this id, or nothing (`KeyError`). */
  function FindPlugin(plugins: seq<PluginRef>, id: string): (r: Option<PluginRef>)
    ensures r.None? <==> forall i :: 0 <= i < |plugins| ==> plugins[i].id != id
    ensures r.Some? ==> r.value in plugins && r.value.id == id
  {
    if plugins == [] then None
    else if plugins[0].id == id then Some(plugins[0])
    else
      var rest := FindPlugin(plugins[1..], id);
      assert forall i :: 1 <= i < |plugins| ==> plugins[i] == plugins[1..][i - 1];
      assert forall i :: 0 <= i < |plugins[1..]| ==> plugins[1..][i] == plugins[i + 1];
      rest
  }
}
