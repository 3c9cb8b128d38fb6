/** The signature a host puts beside an installed plugin. */
module PluginSigning {
  import opened Wrappers
  import opened FileTree
  import opened Ordering
  import opened Text
  import opened TreeDigest
  import D = InstallDriver
  import Packer

  const SIG: Path := ["plugin.sig"]
  const PLUGIN_YAML: Path := ["plugin.yaml"]
  const PLUGIN_JSON: Path := ["plugin.json"]
  const CHUNK := 8192

  /** Names are compared literally, also those that look like patterns. */
  const SECURITY_IGNORE: set<string> := {
    "__pycache__", ".git", ".mypy_cache", ".pytest_cache", "*.md", "*.json",
    "plugin.sig", "plugin.yaml", "plugin.json"}

  /** `path.suffix`: a name that starts with its only dot has none. */
  predicate HasCompiledSuffix(name: string) {
    |name| > 4 && (EndsWith(name, ".pyc") || EndsWith(name, ".pyo"))
  }

  /** `_should_ignore`, for a path relative to the plugin's directory. */
  predicate ShouldIgnore(p: Path) {
    (exists i :: 0 <= i < |p| && p[i] in SECURITY_IGNORE) || (p != [] && HasCompiledSuffix(p[|p| - 1]))
  }

  // ---------------------------------------------------------------- what is signed

  /** The directory of the entry point below the plugin's directory. */
  function SourceDir(entryPoint: string): Option<Path> {
    var p := D.PathOf(entryPoint);
    if entryPoint != "" && entryPoint[0] == '/' then None
    else Walked([], if p == [] then [] else p[..|p| - 1])
  }

  function SignedFiles(dir: Tree, src: Path): Files {
    map p | p in dir && dir[p].File? && src < p && !ShouldIgnore(p) :: dir[p].data
  }

  /** The bytes of the first manifest found; nothing if reading it raises. */
  function ManifestBytes(dir: Tree): Option<Bytes> {
    var p := if PLUGIN_YAML in dir then PLUGIN_YAML else PLUGIN_JSON;
    if p !in dir then Some([]) else if dir[p].Dir? then None else Some(dir[p].data)
  }

  function FileRecord(p: Path, data: Bytes): Bytes { Rel(p) + ['\0'] + data + ['\0'] }

  function Records(listing: seq<Path>, files: Files): Bytes
    requires forall p :: p in listing ==> p in files
  {
    if listing == [] then []
    else
      var n := |listing| - 1;
      assert forall p :: p in listing[..n] ==> p in listing;
      assert listing[n] in listing;
      Records(listing[..n], files) + FileRecord(listing[n], files[listing[n]])
  }

  /** Everything the HMAC is fed; nothing where computing it raises. */
  ghost function HmacInput(dir: Tree, entryPoint: string): Option<Bytes> {
    var src, head := SourceDir(entryPoint), ManifestBytes(dir);
    if head.None? || src.None? || src.value !in dir then None
    else Some(head.value + Records(Ascend(SignedFiles(dir, src.value).Keys), SignedFiles(dir, src.value)))
  }

  /** The chunk loop feeds exactly the file. */
  method FeedFile(fed: Bytes, data: Bytes) returns (all: Bytes)
    ensures all == fed + data
  {
    all := fed;
    var at := 0;
    while at < |data|
      invariant 0 <= at <= |data|
      invariant all == fed + data[..at]
    {
      var end := if at + CHUNK <= |data| then at + CHUNK else |data|;
      var chunk := data[at..end];
      assert data[..end] == data[..at] + chunk;
      all := all + chunk;
      at := end;
    }
    assert data[..at] == data;
  }

  /** `compute_plugin_hmac`. */
  method ComputePluginHmac(dir: Tree, entryPoint: string, key: Bytes, hmac: (Bytes, Bytes) -> string)
    returns (r: Option<string>)
    ensures r.Some? <==> HmacInput(dir, entryPoint).Some?
    ensures r.Some? ==> r.value == hmac(key, HmacInput(dir, entryPoint).value)
  {
    var head, src := ManifestBytes(dir), SourceDir(entryPoint);
    if head.None? || src.None? || src.value !in dir {
      return None;
    }
    var files := SortedFiles(dir, src.value);
    var fed := FeedFiles(head.value, files, SignedFiles(dir, src.value));
    r := Some(hmac(key, fed));
  }

  /** The loop over the files. */
  method FeedFiles(head: Bytes, files: seq<Path>, signed: Files) returns (fed: Bytes)
    requires forall p :: p in files ==> p in signed
    ensures fed == head + Records(files, signed)
  {
    fed := head;
    for i := 0 to |files|
      invariant fed == head + Records(files[..i], signed)
    {
      NextRecord(files, signed, i);
      var p := files[i];
      fed := fed + Rel(p);
      fed := fed + ['\0'];
      fed := FeedFile(fed, signed[p]);
      fed := fed + ['\0'];
    }
    assert files[..|files|] == files;
  }

  lemma NextRecord(files: seq<Path>, signed: Files, i: nat)
    requires i < |files| && forall p :: p in files ==> p in signed
    ensures files[i] in files
    ensures Records(files[..i + 1], signed) == Records(files[..i], signed) + FileRecord(files[i], signed[files[i]])
  {
    assert files[..i + 1][..i] == files[..i];
    assert files[..i + 1][i] == files[i];
  }

  /** `sorted(...)` over what `rglob` finds below the source directory. */
  method SortedFiles(dir: Tree, src: Path) returns (files: seq<Path>)
    ensures files == Ascend(SignedFiles(dir, src).Keys)
  {
    var listing := Packer.Rglob(dir);
    var found: seq<Path> := [];
    for i := 0 to |listing|
      invariant forall p :: p in found <==> p in listing[..i] && p in SignedFiles(dir, src)
      invariant forall j, k :: 0 <= j < k < |found| ==> found[j] != found[k]
    {
      var p := listing[i];
      assert listing[..i + 1] == listing[..i] + [p];
      assert p !in listing[..i];
      if IsFile(dir, p) && src < p && !ShouldIgnore(p) {
        found := found + [p];
      }
    }
    assert listing[..|listing|] == listing;
    files := Sorted(PathLess, found);
    PathsTotal();
    SortedIsAscending(PathLess, found);
    AscendingIsUnique(PathLess, files, Ascend(SignedFiles(dir, src).Keys));
  }

  // ---------------------------------------------------------------- what does not matter

  /** The same apart from ignored paths; the manifests, though ignored, count. */
  ghost predicate SameApartFromIgnored(a: Tree, b: Tree) {
    && (forall p :: ShouldIgnore(p) || SameAt(a, b, p))
    && SameAt(a, b, PLUGIN_YAML) && SameAt(a, b, PLUGIN_JSON)
  }

  /** Adding, changing or removing ignored paths leaves the HMAC input alone, as long as
      the source directory is there both times. */
  lemma IgnoredPathsDoNotMatter(a: Tree, b: Tree, entryPoint: string)
    requires SameApartFromIgnored(a, b)
    requires SourceDir(entryPoint).Some? ==> (SourceDir(entryPoint).value in a <==> SourceDir(entryPoint).value in b)
    ensures HmacInput(a, entryPoint) == HmacInput(b, entryPoint)
  {
    assert ManifestBytes(a) == ManifestBytes(b);
    if SourceDir(entryPoint).Some? {
      SameSignedFiles(a, b, SourceDir(entryPoint).value);
    }
  }

  lemma SameSignedFiles(a: Tree, b: Tree, src: Path)
    requires SameApartFromIgnored(a, b)
    ensures SignedFiles(a, src) == SignedFiles(b, src)
  {
    forall p ensures p in SignedFiles(a, src) <==> p in SignedFiles(b, src) {
      assert ShouldIgnore(p) || SameAt(a, b, p);
    }
    forall p | p in SignedFiles(a, src) ensures SignedFiles(a, src)[p] == SignedFiles(b, src)[p] {
      assert ShouldIgnore(p) || SameAt(a, b, p);
    }
  }

  function WithSignature(dir: Tree, text: Bytes): Tree { dir[SIG := File(text)] }

  /** Writing the signature does not invalidate it. */
  lemma SignatureDoesNotSignItself(dir: Tree, text: Bytes, entryPoint: string)
    requires SourceDir(entryPoint) == Some(SIG) ==> SIG in dir
    ensures HmacInput(WithSignature(dir, text), entryPoint) == HmacInput(dir, entryPoint)
  {
    assert SIG[0] in SECURITY_IGNORE;
    assert SIG != PLUGIN_YAML && SIG != PLUGIN_JSON;
    IgnoredPathsDoNotMatter(dir, WithSignature(dir, text), entryPoint);
  }

  predicate InIgnoredDirectory(dir: Path) { exists i :: 0 <= i < |dir| && dir[i] in SECURITY_IGNORE }

  /** The entries that look like patterns match nothing but themselves: documentation and
      data files are signed, wherever their directories are not ignored. */
  lemma PatternsAreLiteral(dir: Path, name: string)
    requires EndsWith(name, ".md") || EndsWith(name, ".json")
    ensures ShouldIgnore(dir + [name]) <==> InIgnoredDirectory(dir) || name in {"*.md", "*.json", "plugin.json"}
  {
    var p := dir + [name];
    assert p[|dir|] == name && forall i :: 0 <= i < |dir| ==> p[i] == dir[i];
    IgnoredDocument(name);
    NotCompiled(name);
  }

  lemma IgnoredDocument(name: string)
    requires EndsWith(name, ".md") || EndsWith(name, ".json")
    ensures name != "" && (name[|name| - 1] == 'd' || name[|name| - 1] == 'n')
    ensures name in SECURITY_IGNORE <==> name in {"*.md", "*.json", "plugin.json"}
  {
    assert "__pycache__"[|"__pycache__"| - 1] == '_' && ".git"[3] == 't' && ".mypy_cache"[10] == 'e' && ".pytest_cache"[12] == 'e';
    assert "plugin.sig"[9] == 'g' && "plugin.yaml"[10] == 'l';
  }

  lemma NotCompiled(name: string)
    requires name != "" && (name[|name| - 1] == 'd' || name[|name| - 1] == 'n')
    ensures !HasCompiledSuffix(name)
  {
    if EndsWith(name, ".pyc") { EndsWithLast(name, ".pyc"); }
    if EndsWith(name, ".pyo") { EndsWithLast(name, ".pyo"); }
  }

  lemma EndsWithLast(s: string, suffix: string)
    requires suffix != "" && EndsWith(s, suffix)
    ensures s != "" && s[|s| - 1] == suffix[|suffix| - 1]
  {
    assert s[|s| - |suffix|..][|suffix| - 1] == suffix[|suffix| - 1];
  }

  // ---------------------------------------------------------------- what is determined

  predicate NulFree(s: seq<char>) { '\0' !in s }

  /** File names are plain, and neither they nor the contents hold a NUL. */
  predicate PlainText(files: Files) { forall p :: p in files ==> PlainFile(p, files[p]) }

  predicate PlainFile(p: Path, data: Bytes) {
    p != [] && Separable('/', p) && NulFree(data) && forall i :: 0 <= i < |p| ==> NulFree(p[i])
  }

  lemma LastRecordDecodes(x: Bytes, p: Path, a: Bytes, y: Bytes, q: Path, b: Bytes)
    requires PlainFile(p, a) && PlainFile(q, b)
    requires EndsInNul(x) && EndsInNul(y)
    requires x + FileRecord(p, a) == y + FileRecord(q, b)
    ensures x == y && p == q && a == b
  {
    JoinAvoids('/', '\0', p);
    JoinAvoids('/', '\0', q);
    WithoutLastNul(x, p, a);
    WithoutLastNul(y, q, b);
    CutAtLast(x + Rel(p), a, y + Rel(q), b);
    CutAtEnd(x, Rel(p), y, Rel(q));
    JoinIsInjective('/', p, q);
  }

  lemma WithoutLastNul(x: Bytes, p: Path, a: Bytes)
    ensures var s := x + FileRecord(p, a); s[..|s| - 1] == x + Rel(p) + ['\0'] + a
  {
  }

  predicate EndsInNul(s: Bytes) { s == [] || s[|s| - 1] == '\0' }

  lemma CutAtLast(x: Bytes, a: Bytes, y: Bytes, b: Bytes)
    requires NulFree(a) && NulFree(b) && x + ['\0'] + a == y + ['\0'] + b
    ensures x == y && a == b
  {
    var s := x + ['\0'] + a;
    assert s[|x|] == '\0' && s[|y|] == '\0';
    assert forall k :: |x| < k < |s| ==> s[k] == a[k - |x| - 1] && s[k] in a;
    assert forall k :: |y| < k < |s| ==> s[k] == b[k - |y| - 1] && s[k] in b;
    assert x == s[..|x|] && y == s[..|y|];
    assert a == s[|x| + 1..] && b == s[|y| + 1..];
  }

  lemma NoNulPast(x: Bytes, a: Bytes, y: Bytes, b: Bytes)
    requires NulFree(a) && EndsInNul(y) && x + a == y + b
    ensures |y| <= |x|
  {
    assert y != [] ==> (y + b)[|y| - 1] == '\0';
    assert forall k :: |x| <= k < |x + a| ==> (x + a)[k] == a[k - |x|] && a[k - |x|] in a;
  }

  lemma CutAtEnd(x: Bytes, a: Bytes, y: Bytes, b: Bytes)
    requires NulFree(a) && NulFree(b) && EndsInNul(x) && EndsInNul(y) && x + a == y + b
    ensures x == y && a == b
  {
    NoNulPast(x, a, y, b);
    NoNulPast(y, b, x, a);
    assert x == (x + a)[..|x|] && y == (y + b)[..|y|];
    assert a == (x + a)[|x|..] && b == (y + b)[|y|..];
  }

  predicate Within(listing: seq<Path>, files: Files) { forall p :: p in listing ==> p in files }

  lemma RecordsEndInNul(listing: seq<Path>, files: Files)
    requires Within(listing, files)
    ensures EndsInNul(Records(listing, files)) && (listing != [] ==> Records(listing, files) != [])
  {
  }

  lemma LastRecord(listing: seq<Path>, files: Files)
    requires listing != [] && Within(listing, files) && PlainText(files)
    ensures var n := |listing| - 1;
            && listing[n] in files && PlainFile(listing[n], files[listing[n]]) && Within(listing[..n], files)
            && Records(listing, files) == Records(listing[..n], files) + FileRecord(listing[n], files[listing[n]])
            && EndsInNul(Records(listing[..n], files))
  {
    assert forall p :: p in listing[..|listing| - 1] ==> p in listing;
    RecordsEndInNul(listing[..|listing| - 1], files);
  }

  lemma {:induction false} RecordsDecode(la: seq<Path>, a: Files, lb: seq<Path>, b: Files)
    requires PlainText(a) && PlainText(b) && Within(la, a) && Within(lb, b)
    requires Records(la, a) == Records(lb, b)
    ensures la == lb && forall p :: p in la ==> a[p] == b[p]
    decreases |la|
  {
    RecordsEndInNul(la, a);
    RecordsEndInNul(lb, b);
    if la != [] && lb != [] {
      var n, m := |la| - 1, |lb| - 1;
      LastRecord(la, a);
      LastRecord(lb, b);
      LastRecordDecodes(Records(la[..n], a), la[n], a[la[n]], Records(lb[..m], b), lb[m], b[lb[m]]);
      RecordsDecode(la[..n], a, lb[..m], b);
      assert la == la[..n] + [la[n]] && lb == lb[..m] + [lb[m]];
    }
  }

  /** Under one manifest, text files without NUL are determined by the HMAC input: no other
      set of signed files gives the same bytes. */
  lemma SignedFilesAreDetermined(a: Files, b: Files)
    requires PlainText(a) && PlainText(b)
    ensures Records(Ascend(a.Keys), a) == Records(Ascend(b.Keys), b) <==> a == b
  {
    if Records(Ascend(a.Keys), a) == Records(Ascend(b.Keys), b) {
      RecordsDecode(Ascend(a.Keys), a, Ascend(b.Keys), b);
      assert forall p :: p in a <==> p in Ascend(a.Keys);
      assert forall p :: p in b <==> p in Ascend(b.Keys);
    }
  }

  // ---------------------------------------------------------------- signing

  /** What is read from `plugin.yaml`. */
  datatype Descriptor = Descriptor(
    executionMode: Option<string>, name: Option<string>, version: Option<string>, entryPoint: Option<string>)

  /** The HMAC, the reading of `plugin.yaml`, and the text of a signature file. */
  datatype Primitives = Primitives(
    hmac: (Bytes, Bytes) -> string,
    parse: Bytes -> Option<Descriptor>,
    render: (string, string, string) -> Bytes)

  datatype Signing = Raised | NotSigned | Signature(text: Bytes)

  /** What `sign_installed_plugin` is going to write into the directory `dirname`. */
  ghost function SignatureFor(dir: Tree, dirname: string, key: Bytes, prim: Primitives): Signing {
    if !IsFile(dir, PLUGIN_YAML) then NotSigned
    else
      var parsed := prim.parse(dir[PLUGIN_YAML].data);
      if parsed.None? then Raised
      else if parsed.value.executionMode != Some("trusted") then NotSigned
      else
        var input := HmacInput(dir, parsed.value.entryPoint.GetOr("src/main.py"));
        if input.None? || IsDir(dir, SIG) then Raised
        else Signature(prim.render(parsed.value.name.GetOr(dirname), parsed.value.version.GetOr("0.0.0"),
                                   prim.hmac(key, input.value)))
  }

  class InstalledPlugin {
    const dirname: string
    var dir: Tree

    constructor (dirname: string, dir: Tree)
      ensures this.dirname == dirname && this.dir == dir
    {
      this.dirname, this.dir := dirname, dir;
    }

    /** `sign_installed_plugin`; false where it raises. */
    method Sign(key: Bytes, prim: Primitives) returns (ok: bool)
      modifies this`dir
      ensures ok <==> !SignatureFor(old(dir), dirname, key, prim).Raised?
      ensures SignatureFor(old(dir), dirname, key, prim).Signature? ==>
                dir == WithSignature(old(dir), SignatureFor(old(dir), dirname, key, prim).text)
      ensures !SignatureFor(old(dir), dirname, key, prim).Signature? ==> dir == old(dir)
    {
      if !IsFile(dir, PLUGIN_YAML) {
        return true;
      }
      var parsed := prim.parse(dir[PLUGIN_YAML].data);
      if parsed.None? {
        return false;
      }
      var data := parsed.value;
      if data.executionMode != Some("trusted") {
        return true;
      }
      var digest := ComputePluginHmac(dir, data.entryPoint.GetOr("src/main.py"), key, prim.hmac);
      if digest.None? || IsDir(dir, SIG) {
        return false;
      }
      dir := WithSignature(dir, prim.render(data.name.GetOr(dirname), data.version.GetOr("0.0.0"), digest.value));
      ok := true;
    }
  }

  function EntryPoint(dir: Tree, prim: Primitives): string {
    var parsed := if IsFile(dir, PLUGIN_YAML) then prim.parse(dir[PLUGIN_YAML].data) else None;
    if parsed.None? then "" else parsed.value.entryPoint.GetOr("src/main.py")
  }

  /** Signing again writes the same signature: what was signed has not changed. */
  lemma SigningTwice(dir: Tree, dirname: string, key: Bytes, prim: Primitives)
    requires SignatureFor(dir, dirname, key, prim).Signature?
    ensures
      var text := SignatureFor(dir, dirname, key, prim).text;
      && SignatureFor(WithSignature(dir, text), dirname, key, prim) == Signature(text)
      && WithSignature(WithSignature(dir, text), text) == WithSignature(dir, text)
  {
    var text := SignatureFor(dir, dirname, key, prim).text;
    assert SIG[0] != PLUGIN_YAML[0];
    SignatureDoesNotSignItself(dir, text, EntryPoint(dir, prim));
  }
}
