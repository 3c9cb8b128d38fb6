/** When the bytes that the HMAC is fed determine the signed files. */
module SigningInput {
  import opened Wrappers
  import opened FileTree
  import opened Ordering
  import opened Text
  import opened TreeDigest
  import opened PluginSigning
  import E = EnvFile

  /** A signed file below the source directory, with names such as a disk allows. */
  predicate SignablePath(src: Path, p: Path) {
    src < p && !ShouldIgnore(p) && Separable('/', p) && forall i :: 0 <= i < |p| ==> NulFree(p[i])
  }

  /** Files that can all be signed, and that can stand on a disk together. */
  ghost predicate Signable(src: Path, files: Files) {
    && (forall p :: p in files ==> SignablePath(src, p))
    && (forall p, q :: p in files && q in files && p <= q ==> p == q)
  }

  ghost function Fed(files: Files): Bytes { Records(Ascend(files.Keys), files) }

  /** No other set of files is fed as the same bytes. */
  ghost predicate Determined(src: Path, files: Files) {
    forall other :: Signable(src, other) && Fed(other) == Fed(files) ==> other == files
  }

  predicate SplitsAt(src: Path, p: Path, data: Bytes, front: Bytes, q: Path, back: Bytes) {
    && SignablePath(src, q) && PathLess(p, q) && Apart(p, q)
    && data == front + ['\0'] + Rel(q) + ['\0'] + back
  }

  /** The content of `p` holds, between two NULs, the name of a file that would come after it. */
  ghost predicate Splits(src: Path, p: Path, data: Bytes) {
    exists front, q, back :: SplitsAt(src, p, data, front, q, back)
  }

  /** There is at most one file, and its content cannot be taken for two. */
  ghost predicate AtMostOneUnsplit(src: Path, files: Files) {
    && (forall p, q :: p in files && q in files ==> p == q)
    && (forall p :: p in files ==> !Splits(src, p, files[p]))
  }

  // ---------------------------------------------------------------- listings and records

  lemma ListedAs(files: Files, listing: seq<Path>)
    requires Ascending(PathLess, listing) && forall p :: p in listing <==> p in files
    ensures Ascend(files.Keys) == listing
  {
    PathsTotal();
    AscendingIsUnique(PathLess, Ascend(files.Keys), listing);
  }

  lemma ListedOnce(listing: seq<Path>, i: nat, j: nat)
    requires Ascending(PathLess, listing) && i < |listing| && j < |listing| && i != j
    ensures listing[i] != listing[j]
  {
    PathsTotal();
  }

  lemma {:induction false} RecordsSame(listing: seq<Path>, a: Files, b: Files)
    requires Within(listing, a) && Within(listing, b) && forall p :: p in listing ==> a[p] == b[p]
    ensures Records(listing, a) == Records(listing, b)
  {
    if listing != [] {
      assert forall p :: p in listing[..|listing| - 1] ==> p in listing;
      RecordsSame(listing[..|listing| - 1], a, b);
    }
  }

  lemma Regroup(name: string, earlier: Bytes, last: string, data: Bytes)
    ensures name + ['\0'] + earlier + ['\0'] + (last + ['\0'] + data + ['\0']) ==
            name + ['\0'] + (earlier + ['\0'] + last + ['\0'] + data) + ['\0']
  {
  }

  /** What comes after the first name and before the last NUL. */
  lemma {:induction false} FirstName(listing: seq<Path>, files: Files) returns (rest: Bytes)
    requires listing != [] && Within(listing, files)
    ensures Records(listing, files) == Rel(listing[0]) + ['\0'] + rest + ['\0']
  {
    var n := |listing| - 1;
    var p := listing[n];
    if n == 0 {
      rest := files[p];
      assert listing[..0] == [] && Records([], files) == [];
      assert Records(listing, files) == FileRecord(p, files[p]);
    } else {
      var earlier := FirstName(listing[..n], files);
      rest := earlier + ['\0'] + Rel(p) + ['\0'] + files[p];
      assert Records(listing, files) == Records(listing[..n], files) + FileRecord(p, files[p]);
      Regroup(Rel(listing[0]), earlier, Rel(p), files[p]);
    }
  }

  lemma RelIsNulFree(src: Path, p: Path)
    requires SignablePath(src, p)
    ensures '\0' !in Rel(p)
  {
    JoinAvoids('/', '\0', p);
  }

  // ---------------------------------------------------------------- one file that cannot be split

  lemma OnlyOneListed(files: Files, p: Path)
    requires p in files && forall q :: q in files ==> q == p
    ensures Ascend(files.Keys) == [p] && Fed(files) == FileRecord(p, files[p])
  {
    ListedAs(files, [p]);
    assert Records([p], files) == Records([], files) + FileRecord(p, files[p]);
  }

  /** Other files fed as one file's record: the first has that file's name, and with more
      than one of them the file's content splits. */
  lemma FedAsOne(src: Path, p: Path, data: Bytes, other: Files)
    requires SignablePath(src, p) && Signable(src, other) && Fed(other) == FileRecord(p, data)
    ensures Splits(src, p, data) || other == map[p := data]
  {
    var listing := Ascend(other.Keys);
    assert listing != [];
    assert listing[0] in listing;
    RelIsNulFree(src, p);
    RelIsNulFree(src, listing[0]);
    var n := |listing| - 1;
    var last := listing[n];
    if n == 0 {
      OnlyListed(other, listing);
      SameRecord(p, data, listing[0], other[listing[0]]);
    } else {
      assert listing[n] in listing && forall q :: q in listing[..n] ==> q in listing;
      var rest := FirstName(listing[..n], other);
      assert Fed(other) == Rel(listing[0]) + ['\0'] + rest + ['\0'] + FileRecord(last, other[last]);
      SplitRecord(p, data, listing[0], rest, last, other[last]);
      ListedOnce(listing, 0, n);
      assert SplitsAt(src, p, data, rest, last, other[last]);
    }
  }

  lemma OnlyListed(files: Files, listing: seq<Path>)
    requires |listing| == 1 && forall p :: p in listing <==> p in files
    ensures files == map[listing[0] := files[listing[0]]]
    ensures Records(listing, files) == FileRecord(listing[0], files[listing[0]])
  {
    assert listing[..0] == [] && Records([], files) == [];
    assert forall p :: p in files ==> p == listing[0];
  }

  lemma SameRecord(p: Path, a: Bytes, q: Path, b: Bytes)
    requires '\0' !in Rel(p) && '\0' !in Rel(q) && Separable('/', p) && Separable('/', q)
    requires FileRecord(p, a) == FileRecord(q, b)
    ensures p == q && a == b
  {
    assert FileRecord(p, a) == Rel(p) + ['\0'] + (a + ['\0']) && FileRecord(q, b) == Rel(q) + ['\0'] + (b + ['\0']);
    CutAtSeparator('\0', Rel(p), a + ['\0'], Rel(q), b + ['\0']);
    JoinIsInjective('/', p, q);
    assert a == (a + ['\0'])[..|a|] && b == (b + ['\0'])[..|b|];
  }

  lemma SplitRecord(p: Path, data: Bytes, q: Path, rest: Bytes, last: Path, back: Bytes)
    requires '\0' !in Rel(p) && '\0' !in Rel(q) && Separable('/', p) && Separable('/', q)
    requires FileRecord(p, data) == Rel(q) + ['\0'] + rest + ['\0'] + FileRecord(last, back)
    ensures p == q && data == rest + ['\0'] + Rel(last) + ['\0'] + back
  {
    var behind := rest + ['\0'] + Rel(last) + ['\0'] + back;
    assert FileRecord(p, data) == FileRecord(q, behind);
    SameRecord(p, data, q, behind);
  }

  lemma UnsplitIsDetermined(src: Path, files: Files)
    requires Signable(src, files) && AtMostOneUnsplit(src, files)
    ensures Determined(src, files)
  {
    forall other | Signable(src, other) && Fed(other) == Fed(files) ensures other == files {
      if files == map[] {
        NothingFed(files);
        NothingFed(other);
      } else {
        var p :| p in files;
        OnlyOneListed(files, p);
        FedAsOne(src, p, files[p], other);
        assert files == map[p := files[p]];
      }
    }
  }

  lemma NothingFed(files: Files)
    ensures Fed(files) == [] <==> files == map[]
  {
    var listing := Ascend(files.Keys);
    RecordsEndInNul(listing, files);
    if listing == [] {
      assert forall p :: p in files ==> p in listing;
      assert files == map[];
    } else {
      assert listing[0] in files;
    }
  }

  // ---------------------------------------------------------------- what can be read in another way

  /** The last two files taken together as one. */
  function Joined(files: Files, x: Path, y: Path): Files
    requires x in files && y in files
  {
    map p | p in files && p != y :: if p == x then files[x] + ['\0'] + Rel(y) + ['\0'] + files[y] else files[p]
  }

  lemma TwoFilesJoin(src: Path, files: Files, front: seq<Path>, x: Path, y: Path)
    requires Signable(src, files) && Ascend(files.Keys) == front + [x, y]
    ensures x in files && y in files
    ensures var joined := Joined(files, x, y); Signable(src, joined) && Fed(joined) == Fed(files) && joined != files
  {
    JoinedAscend(files, front, x, y);
    var joined := Joined(files, x, y);
    assert y in files && y !in joined;
    RecordsSame(front, files, joined);
    LastTwoRecords(files, joined, front, x, y);
  }

  lemma JoinedAscend(files: Files, front: seq<Path>, x: Path, y: Path)
    requires Ascend(files.Keys) == front + [x, y]
    ensures x in files && y in files && Within(front, files) && x !in front
    ensures Ascend(Joined(files, x, y).Keys) == front + [x] && Within(front, Joined(files, x, y))
    ensures x in Joined(files, x, y)
  {
    var listing := front + [x, y];
    assert listing[|front|] == x && listing[|front| + 1] == y;
    assert x in listing && y in listing;
    assert listing[..|front| + 1] == front + [x] && (front + [x])[..|front|] == front;
    AllButLast(listing);
    AllButLast(front + [x]);
    assert forall p :: p in front + [x] <==> p in Joined(files, x, y);
    ListedAs(Joined(files, x, y), front + [x]);
  }

  lemma LastTwoRecords(files: Files, joined: Files, front: seq<Path>, x: Path, y: Path)
    requires Within(front, files) && Within(front, joined) && x in files && y in files && x in joined
    requires Records(front, files) == Records(front, joined)
    requires joined[x] == files[x] + ['\0'] + Rel(y) + ['\0'] + files[y]
    ensures Within(front + [x], joined) && Within(front + [x, y], files)
    ensures Records(front + [x], joined) == Records(front + [x, y], files)
  {
    assert (front + [x])[..|front|] == front && (front + [x, y])[..|front| + 1] == front + [x];
    JoinedRecord(x, files[x], y, files[y]);
  }

  lemma AllButLast(listing: seq<Path>)
    requires Ascending(PathLess, listing) && listing != []
    ensures Ascending(PathLess, listing[..|listing| - 1])
    ensures forall p :: p in listing[..|listing| - 1] <==> p in listing && p != listing[|listing| - 1]
  {
    var n := |listing| - 1;
    assert listing == listing[..n] + [listing[n]];
    forall i | 0 <= i < n ensures listing[..n][i] != listing[n] { ListedOnce(listing, i, n); }
  }

  lemma JoinedRecord(x: Path, a: Bytes, y: Path, b: Bytes)
    ensures FileRecord(x, a) + FileRecord(y, b) == FileRecord(x, a + ['\0'] + Rel(y) + ['\0'] + b)
  {
  }

  lemma OneFileSplits(src: Path, files: Files, p: Path, front: Bytes, q: Path, back: Bytes)
    requires Signable(src, files) && p in files && files == map[p := files[p]] && SplitsAt(src, p, files[p], front, q, back)
    ensures
      var split := map[p := front, q := back];
      Signable(src, split) && Fed(split) == Fed(files) && split != files
  {
    var split: Files := map[p := front, q := back];
    assert p in files && SignablePath(src, p);
    assert q in split && q !in files;
    OnlyOneListed(files, p);
    ListedAs(split, [p, q]);
    assert [p, q][..1] == [p];
    assert Records([p], split) == Records([], split) + FileRecord(p, front);
    assert Records([p, q], split) == FileRecord(p, front) + FileRecord(q, back);
    JoinedRecord(p, front, q, back);
  }

  lemma AtMostOneListed(files: Files)
    requires |Ascend(files.Keys)| <= 1
    ensures forall p, q :: p in files && q in files ==> p == q
  {
    var listing := Ascend(files.Keys);
    assert forall p :: p in files ==> p in listing;
  }

  lemma SplitIsNotDetermined(src: Path, files: Files, p: Path)
    requires Signable(src, files) && p in files && (forall q :: q in files ==> q == p) && Splits(src, p, files[p])
    ensures !Determined(src, files)
  {
    var front, q, back :| SplitsAt(src, p, files[p], front, q, back);
    assert files == map[p := files[p]];
    OneFileSplits(src, files, p, front, q, back);
  }

  lemma SeveralAreNotDetermined(src: Path, files: Files, listing: seq<Path>)
    requires Signable(src, files) && listing == Ascend(files.Keys) && |listing| >= 2
    ensures !Determined(src, files)
  {
    var n := |listing| - 2;
    assert listing == listing[..n] + [listing[n], listing[n + 1]];
    TwoFilesJoin(src, files, listing[..n], listing[n], listing[n + 1]);
  }

  lemma OthersAreNot(src: Path, files: Files)
    requires Signable(src, files) && !AtMostOneUnsplit(src, files)
    ensures !Determined(src, files)
  {
    if |Ascend(files.Keys)| >= 2 {
      SeveralAreNotDetermined(src, files, Ascend(files.Keys));
    } else {
      AtMostOneListed(files);
      var p :| p in files && Splits(src, p, files[p]);
      SplitIsNotDetermined(src, files, p);
    }
  }

  /** The bytes fed for the files determine them exactly if there is at most one, whose
      content does not hold the name of a later one between two NULs. */
  lemma DeterminedExactly(src: Path, files: Files)
    requires Signable(src, files)
    ensures Determined(src, files) <==> AtMostOneUnsplit(src, files)
  {
    if AtMostOneUnsplit(src, files) { UnsplitIsDetermined(src, files); } else { OthersAreNot(src, files); }
  }

  // ---------------------------------------------------------------- plugin directories

  /** Under one manifest, the HMAC input of two directories differs as what is fed does. */
  lemma InputsAgreeExactly(a: Tree, b: Tree, entryPoint: string, src: Path)
    requires SourceDir(entryPoint) == Some(src) && src in a && src in b
    requires ManifestBytes(a).Some? && ManifestBytes(a) == ManifestBytes(b)
    ensures HmacInput(a, entryPoint) == HmacInput(b, entryPoint) <==> Fed(SignedFiles(a, src)) == Fed(SignedFiles(b, src))
  {
    var head := ManifestBytes(a).value;
    var x, y := Fed(SignedFiles(a, src)), Fed(SignedFiles(b, src));
    assert (head + x)[|head|..] == x && (head + y)[|head|..] == y;
  }

  /** A directory with this manifest and these files. */
  function PluginDirectory(manifest: Bytes, src: Path, files: Files): Tree {
    Directories(src, files) + AsFiles(files) + map[PLUGIN_YAML := File(manifest)]
  }

  function AsFiles(files: Files): Tree { map p | p in files :: File(files[p]) }

  function Directories(src: Path, files: Files): Tree {
    map p | p in DirectoryPaths(src, files) :: Dir
  }

  function DirectoryPaths(src: Path, files: Files): set<Path> {
    (set k | 0 <= k <= |src| :: src[..k]) + (set q, k | q in files && 0 <= k < |q| :: q[..k])
  }

  lemma DirectoryAt(manifest: Bytes, src: Path, files: Files, p: Path)
    requires PLUGIN_YAML !in files
    ensures IsFile(PluginDirectory(manifest, src, files), p) <==> p == PLUGIN_YAML || p in files
    ensures p in files ==> PluginDirectory(manifest, src, files)[p] == File(files[p])
    ensures PluginDirectory(manifest, src, files)[PLUGIN_YAML] == File(manifest)
    ensures p in DirectoryPaths(src, files) ==> p in PluginDirectory(manifest, src, files)
  {
  }

  lemma DirectoryHolds(manifest: Bytes, src: Path, files: Files)
    requires Signable(src, files) && "plugin.yaml" !in src
    ensures
      var dir := PluginDirectory(manifest, src, files);
      src in dir && ManifestBytes(dir) == Some(manifest) && SignedFiles(dir, src) == files
  {
    var dir := PluginDirectory(manifest, src, files);
    ManifestIsIgnored();
    assert src in DirectoryPaths(src, files) by { assert src[..|src|] == src; }
    DirectoryAt(manifest, src, files, src);
    forall p ensures HasOnly(dir, files, p) { DirectoryAt(manifest, src, files, p); }
    SignedAreThese(dir, src, files);
  }

  predicate HasOnly(dir: Tree, files: Files, p: Path) {
    && (IsFile(dir, p) <==> p == PLUGIN_YAML || p in files)
    && (p in files ==> IsFile(dir, p) && dir[p].data == files[p])
  }

  lemma SignedAreThese(dir: Tree, src: Path, files: Files)
    requires Signable(src, files) && ShouldIgnore(PLUGIN_YAML) && forall p :: HasOnly(dir, files, p)
    ensures SignedFiles(dir, src) == files
  {
    forall p ensures p in SignedFiles(dir, src) <==> p in files
             ensures p in files ==> SignedFiles(dir, src)[p] == files[p]
    {
      assert HasOnly(dir, files, p) && (p in files ==> SignablePath(src, p));
    }
  }

  lemma ManifestIsIgnored()
    ensures ShouldIgnore(PLUGIN_YAML)
  {
    assert PLUGIN_YAML[0] in SECURITY_IGNORE;
  }

  /** Another directory that gives the same input holds the same signed files. */
  ghost predicate DirectoryDetermined(dir: Tree, entryPoint: string, src: Path) {
    forall other :: GivesSameInput(dir, other, entryPoint, src) ==> SignedFiles(other, src) == SignedFiles(dir, src)
  }

  ghost predicate GivesSameInput(dir: Tree, other: Tree, entryPoint: string, src: Path) {
    && src in other && Signable(src, SignedFiles(other, src))
    && ManifestBytes(other) == ManifestBytes(dir)
    && HmacInput(other, entryPoint) == HmacInput(dir, entryPoint)
  }

  /** Under one manifest the HMAC input determines the signed files of a directory exactly if
      there is at most one, whose content does not hold the name of a later one between NULs. */
  lemma SignedFilesAreDeterminedExactly(dir: Tree, entryPoint: string, src: Path)
    requires HmacInput(dir, entryPoint).Some? && SourceDir(entryPoint) == Some(src)
    requires Signable(src, SignedFiles(dir, src)) && "plugin.yaml" !in src
    ensures DirectoryDetermined(dir, entryPoint, src) <==> AtMostOneUnsplit(src, SignedFiles(dir, src))
  {
    var files := SignedFiles(dir, src);
    DeterminedExactly(src, files);
    forall other | GivesSameInput(dir, other, entryPoint, src) ensures Fed(SignedFiles(other, src)) == Fed(files) {
      InputsAgreeExactly(dir, other, entryPoint, src);
    }
    if !Determined(src, files) {
      var other :| Signable(src, other) && Fed(other) == Fed(files) && other != files;
      var made := PluginDirectory(ManifestBytes(dir).value, src, other);
      DirectoryHolds(ManifestBytes(dir).value, src, other);
      InputsAgreeExactly(dir, made, entryPoint, src);
      assert GivesSameInput(dir, made, entryPoint, src);
    }
  }

  lemma EntryBelow(dir: string, file: string)
    requires Separable('/', [dir, file]) && dir != "." && dir != ".." && file != "."
    ensures SourceDir(dir + "/" + file) == Some([dir])
  {
    var text := dir + "/" + file;
    assert [dir, file][0] == dir && [dir, file][1] == file;
    assert text != "" && text[0] == dir[0] && dir[0] in dir;
    assert D.PathOf(file) == [file] by { assert file[..|file|] == file; }
    assert D.PathOf(text) == [dir] + D.PathOf(file) by { FirstSlash(dir, file); }
    assert D.PathOf(text) == [dir, file] && [dir, file][..1] == [dir];
    WalkedOne(dir);
  }

  lemma WalkedOne(name: string)
    requires name != ".."
    ensures Walked([], [name]) == Some([name])
  {
    var p: Path := [name];
    var none: Path := [];
    assert p[..0] == none && Walked([], none) == Some(none);
    assert none + [p[0]] == p;
  }

  lemma FirstSlash(dir: string, file: string)
    requires '/' !in dir
    ensures
      var text := dir + "/" + file;
      var i := E.IndexOf(text, '/');
      i == |dir| < |text| && text[..i] == dir && text[i + 1..] == file
  {
    var text := dir + "/" + file;
    var i := E.IndexOf(text, '/');
    assert text[|dir|] == '/';
    assert forall k :: 0 <= k < i ==> text[k] in text[..i];
    assert forall k :: 0 <= k < |dir| ==> text[k] == dir[k] && dir[k] in dir;
  }

  lemma DefaultEntry()
    ensures SourceDir("src/main.py") == Some(["src"])
  {
    EntryBelow("src", "main.py");
    assert "src" + "/" + "main.py" == "src/main.py";
  }

  /** Two plugin directories under one manifest, with different files and one HMAC input: one
      file whose content spells the record of a second, and the two files. */
  lemma TwoDirectoriesOneInput(manifest: Bytes)
    ensures
      var one := PluginDirectory(manifest, ["src"], map[["src", "a"] := "x\0src/b\0y"]);
      var two := PluginDirectory(manifest, ["src"], map[["src", "a"] := "x", ["src", "b"] := "y"]);
      && HmacInput(one, "src/main.py").Some? && HmacInput(one, "src/main.py") == HmacInput(two, "src/main.py")
      && SignedFiles(one, ["src"]) != SignedFiles(two, ["src"])
  {
    DefaultEntry();
    SmallNames();
    SpelledRecord();
    SplitDirectories(manifest, "src", "src/main.py", ["src", "a"], "x\0src/b\0y", "x", ["src", "b"], "y");
  }

  lemma SpelledRecord()
    ensures "x\0src/b\0y" == "x" + ['\0'] + Rel(["src", "b"]) + ['\0'] + "y"
  {
    assert Rel(["src", "b"]) == "src/b";
  }

  lemma SmallNames()
    ensures SignablePath(["src"], ["src", "a"]) && SignablePath(["src"], ["src", "b"])
    ensures PathLess(["src", "a"], ["src", "b"]) && Apart(["src", "a"], ["src", "b"])
  {
    NotIgnored("a");
    NotIgnored("b");
    assert ["src", "a"][1] != ["src", "b"][1];
    assert ["src", "a"][1..] == ["a"] && ["src", "b"][1..] == ["b"];
    assert StringLess("a", "b");
  }

  lemma NotIgnored(name: string)
    requires name == "a" || name == "b"
    ensures !ShouldIgnore(["src", name])
  {
    assert |"src"| == 3 && |name| == 1;
    assert "src" !in SECURITY_IGNORE && name !in SECURITY_IGNORE;
  }

  lemma SplitDirectories(manifest: Bytes, dir: string, entry: string, p: Path, data: Bytes, front: Bytes, q: Path, back: Bytes)
    requires SourceDir(entry) == Some([dir]) && dir != "plugin.yaml"
    requires SignablePath([dir], p) && SplitsAt([dir], p, data, front, q, back)
    ensures
      var one, two := PluginDirectory(manifest, [dir], map[p := data]), PluginDirectory(manifest, [dir], map[p := front, q := back]);
      && HmacInput(one, entry).Some? && HmacInput(one, entry) == HmacInput(two, entry)
      && SignedFiles(one, [dir]) != SignedFiles(two, [dir])
  {
    var files: Files := map[p := data];
    var split: Files := map[p := front, q := back];
    assert Signable([dir], files) && p in files;
    OneFileSplits([dir], files, p, front, q, back);
    DirectoryHolds(manifest, [dir], files);
    DirectoryHolds(manifest, [dir], split);
    InputsAgreeExactly(PluginDirectory(manifest, [dir], files), PluginDirectory(manifest, [dir], split), entry, [dir]);
  }

  // ---------------------------------------------------------------- in the source's own names

  /** A path is not signed if one of its names is on the list, or it is compiled code. */
  lemma IgnoredExactly(p: Path)
    ensures ShouldIgnore(p) <==>
      || (exists i :: 0 <= i < |p| && p[i] in {
            "__pycache__", ".git", ".mypy_cache", ".pytest_cache", "*.md", "*.json",
            "plugin.sig", "plugin.yaml", "plugin.json"})
      || (p != [] && |p[|p| - 1]| > 4 && (EndsWith(p[|p| - 1], ".pyc") || EndsWith(p[|p| - 1], ".pyo")))
  {
  }

  /** What is fed for one file: its path, a NUL, its content, a NUL. */
  lemma OneFileFed(p: Path, data: Bytes)
    ensures Fed(map[p := data]) == Join('/', p) + ['\0'] + data + ['\0']
  {
    OnlyOneListed(map[p := data], p);
  }

  /** The HMAC takes `plugin.yaml`, or without one `plugin.json`, or neither; then the signed
      files below the source directory. It raises where that directory is missing. */
  lemma HmacInputIs(dir: Tree, entryPoint: string, src: Path)
    requires SourceDir(entryPoint) == Some(src)
    requires !IsDir(dir, ["plugin.yaml"]) && !IsDir(dir, ["plugin.json"])
    ensures HmacInput(dir, entryPoint).Some? <==> src in dir
    ensures src in dir ==>
      var head :=
        if IsFile(dir, ["plugin.yaml"]) then dir[["plugin.yaml"]].data
        else if IsFile(dir, ["plugin.json"]) then dir[["plugin.json"]].data
        else [];
      HmacInput(dir, entryPoint).value == head + Fed(SignedFiles(dir, src))
    ensures forall p :: p in SignedFiles(dir, src) <==> IsFile(dir, p) && src < p && !ShouldIgnore(p)
    ensures forall p :: p in SignedFiles(dir, src) ==> SignedFiles(dir, src)[p] == dir[p].data
  {
  }

  lemma PathOfOne(name: string)
    requires '/' !in name && name != "" && name != "."
    ensures D.PathOf(name) == [name]
  {
    assert name[..|name|] == name;
  }

  lemma PathOfMore(name: string, rest: string)
    requires '/' !in name && name != "" && name != "."
    ensures D.PathOf(name + "/" + rest) == [name] + D.PathOf(rest)
  {
    FirstSlash(name, rest);
  }

  /** Empty names and single dots count for nothing. */
  lemma PathOfNothing(rest: string)
    ensures D.PathOf("/" + rest) == D.PathOf(rest) && D.PathOf("./" + rest) == D.PathOf(rest)
    ensures D.PathOf("") == [] && D.PathOf(".") == []
  {
    FirstSlash("", rest);
    FirstSlash(".", rest);
    assert "" + "/" + rest == "/" + rest && "." + "/" + rest == "./" + rest;
    assert ""[..0] == "" && "."[..1] == ".";
  }

  /** A path of plain names is read as those names. */
  lemma {:induction false} PathOfJoin(names: seq<string>)
    requires Separable('/', names) && "." !in names && names != []
    ensures D.PathOf(Join('/', names)) == names
  {
    assert names[0] in names;
    if |names| == 1 {
      PathOfOne(names[0]);
      assert names == [names[0]];
    } else {
      PathOfMore(names[0], Join('/', names[1..]));
      PathOfJoin(names[1..]);
      assert names == [names[0]] + names[1..];
    }
  }

  /** The source directory is that of the entry point, as far as it does not go up. */
  lemma SourceDirIs(dirs: seq<string>, file: string)
    requires Separable('/', dirs + [file]) && "." !in dirs + [file]
    ensures SourceDir(Join('/', dirs + [file])) == Walked([], dirs)
  {
    var names := dirs + [file];
    PathOfJoin(names);
    assert names[..|names| - 1] == dirs;
    assert names[0] in names && names[0] != "" && '/' !in names[0];
    FirstOfJoin(names);
  }

  lemma FirstOfJoin(names: seq<string>)
    requires names != [] && names[0] != ""
    ensures Join('/', names) != "" && Join('/', names)[0] == names[0][0]
  {
  }

  /** A plugin is signed exactly if its `plugin.yaml` says `execution_mode: trusted`; missing
      names, versions and entry points have the defaults below. */
  lemma SignatureIs(dir: Tree, dirname: string, key: Bytes, prim: Primitives)
    requires IsFile(dir, ["plugin.yaml"]) && prim.parse(dir[["plugin.yaml"]].data).Some? && !IsDir(dir, ["plugin.sig"])
    ensures
      var read := prim.parse(dir[["plugin.yaml"]].data).value;
      var entry := if read.entryPoint.Some? then read.entryPoint.value else "src/main.py";
      var name := if read.name.Some? then read.name.value else dirname;
      var version := if read.version.Some? then read.version.value else "0.0.0";
      SignatureFor(dir, dirname, key, prim) ==
        if read.executionMode != Some("trusted") then NotSigned
        else if HmacInput(dir, entry).None? then Raised
        else Signature(prim.render(name, version, prim.hmac(key, HmacInput(dir, entry).value)))
  {
  }
}
