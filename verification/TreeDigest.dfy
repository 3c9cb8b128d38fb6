/** The digest over a directory tree that both the packer and the agent compute. */
module TreeDigest {
  import opened FileTree
  import opened Ordering
  import opened Text

  /** Shell patterns as far as the packer uses them: `*` matches any run, the rest is literal. */
  predicate Glob(name: string, pattern: string)
    decreases |pattern|, |name|
  {
    if pattern == "" then name == ""
    else if pattern[0] == '*' then Glob(name, pattern[1..]) || (name != "" && Glob(name[1..], pattern))
    else name != "" && name[0] == pattern[0] && Glob(name[1..], pattern[1..])
  }

  predicate NameMatches(name: string, patterns: seq<string>) {
    exists k :: 0 <= k < |patterns| && Glob(name, patterns[k])
  }

  /** Some component of the path matches a pattern. */
  predicate Skipped(p: Path, patterns: seq<string>) {
    exists k :: 0 <= k < |p| && NameMatches(p[k], patterns)
  }

  function Rel(p: Path): string { Join('/', p) }

  type Files = map<Path, Bytes>

  function FilesOf(tree: Tree): Files {
    map p | p in tree && tree[p].File? :: tree[p].data
  }

  function Keep(files: Files, exclude: set<string>, patterns: seq<string>): Files {
    map p | p in files && Rel(p) !in exclude && !Skipped(p, patterns) :: files[p]
  }

  type Hash = Bytes -> string

  function Entry(p: Path, data: Bytes, sha: Hash): string {
    Rel(p) + ":" + sha(data)
  }

  function Entries(listing: seq<Path>, files: Files, sha: Hash): seq<string>
    requires forall p :: p in listing ==> p in files
  {
    seq(|listing|, i requires 0 <= i < |listing| => Entry(listing[i], files[listing[i]], sha))
  }

  /** What is hashed, as a function of the files alone. */
  ghost function Preimage(files: Files, sha: Hash): Bytes {
    Join('\n', Entries(Ascend(files.Keys), files, sha))
  }

  ghost function Ascend(paths: set<Path>): (listing: seq<Path>)
    ensures Ascending(PathLess, listing)
    ensures forall p :: p in listing <==> p in paths
  {
    PathsTotal();
    ListingIsAscending(PathLess, paths);
    Listing(PathLess, paths)
  }

  /** One file is left out of the digest. */
  predicate Ignored(p: Path, exclude: set<string>, patterns: seq<string>) {
    Rel(p) in exclude || Skipped(p, patterns)
  }

  /** `compute_tree_digest`. `listing` is the tree in whatever order it was enumerated:
      the digest does not depend on it, and filtering late equals filtering first. */
  method ComputeTreeDigest(tree: Tree, listing: seq<Path>, exclude: set<string>, patterns: seq<string>, sha: Hash)
    returns (digest: string)
    requires forall i, j :: 0 <= i < j < |listing| ==> listing[i] != listing[j]
    requires forall p :: p in listing <==> p in tree
    ensures digest == sha(Preimage(Keep(FilesOf(tree), exclude, patterns), sha))
  {
    var paths := Sorted(PathLess, OnlyFiles(tree, listing));
    PathsTotal();
    SortedIsAscending(PathLess, OnlyFiles(tree, listing));
    var entries := HashFiles(tree, paths, exclude, patterns, sha);
    digest := sha(Join('\n', entries));
  }

  /** The loop over the sorted files: filtering late equals filtering first. */
  method HashFiles(tree: Tree, paths: seq<Path>, exclude: set<string>, patterns: seq<string>, sha: Hash)
    returns (entries: seq<string>)
    requires Ascending(PathLess, paths) && forall p :: p in paths <==> IsFile(tree, p)
    ensures
      var kept := Keep(FilesOf(tree), exclude, patterns);
      entries == Entries(Ascend(kept.Keys), kept, sha)
  {
    ghost var kept := Keep(FilesOf(tree), exclude, patterns);
    entries := [];
    ghost var used: seq<Path> := [];
    for i := 0 to |paths|
      invariant UsedSoFar(used, paths[..i], kept)
      invariant entries == Entries(used, kept, sha)
    {
      var p := paths[i];
      assert p in paths;
      assert paths[..i + 1] == paths[..i] + [p];
      if !Ignored(p, exclude, patterns) {
        assert Ascending(PathLess, paths[..i + 1]);
        UsedOneMore(paths[..i], p, used, kept);
        EntriesOneMore(used, p, kept, sha);
        entries := entries + [Entry(p, tree[p].data, sha)];
        used := used + [p];
      }
    }
    assert paths[..|paths|] == paths;
    PathsTotal();
    AscendingIsUnique(PathLess, used, Ascend(kept.Keys));
  }

  /** `used` lists the kept ones among `paths`, in order. */
  ghost predicate UsedSoFar(used: seq<Path>, paths: seq<Path>, kept: Files) {
    Ascending(PathLess, used) && forall p :: p in used <==> p in paths && p in kept
  }

  lemma UsedOneMore(paths: seq<Path>, p: Path, used: seq<Path>, kept: Files)
    requires UsedSoFar(used, paths, kept) && Ascending(PathLess, paths + [p]) && p in kept
    ensures UsedSoFar(used + [p], paths + [p], kept)
  {
    var all := paths + [p];
    forall k | 0 <= k < |used| ensures PathLess(used[k], p) {
      assert used[k] in used;
      var j :| 0 <= j < |paths| && paths[j] == used[k];
      assert PathLess(all[j], all[|paths|]);
    }
  }

  lemma EntriesOneMore(used: seq<Path>, p: Path, files: Files, sha: Hash)
    requires p in files && forall q :: q in used ==> q in files
    ensures Entries(used + [p], files, sha) == Entries(used, files, sha) + [Entry(p, files[p], sha)]
  {
  }

  function OnlyFiles(tree: Tree, listing: seq<Path>): (files: seq<Path>)
    requires forall i, j :: 0 <= i < j < |listing| ==> listing[i] != listing[j]
    ensures forall p :: p in files <==> p in listing && IsFile(tree, p)
    ensures forall i, j :: 0 <= i < j < |files| ==> files[i] != files[j]
  {
    if listing == [] then []
    else
      var rest := OnlyFiles(tree, listing[1..]);
      assert listing == [listing[0]] + listing[1..];
      if IsFile(tree, listing[0]) then [listing[0]] + rest else rest
  }

  // ---------------------------------------------------------------- decoding

  /** Every hash is 64 characters long and holds no line break. */
  ghost predicate IsHexDigest(sha: Hash) {
    forall data :: |sha(data)| == 64 && '\n' !in sha(data)
  }

  /** File names are not empty and hold neither a separator nor a line break. */
  predicate PlainNames(files: Files) {
    forall p :: p in files ==> p != [] && Separable('/', p) && Separable('\n', p)
  }

  function HashMap(files: Files, sha: Hash): map<Path, string> {
    map p | p in files :: sha(files[p])
  }

  lemma EntryDecodes(p: Path, x: Bytes, q: Path, y: Bytes, sha: Hash)
    requires IsHexDigest(sha) && Separable('/', p) && Separable('/', q)
    requires Entry(p, x, sha) == Entry(q, y, sha)
    ensures p == q && sha(x) == sha(y)
  {
    var entry := Entry(p, x, sha);
    var colon := |entry| - 65;
    assert |sha(x)| == 64 && |sha(y)| == 64;
    assert Rel(p) == entry[..colon] == Rel(q);
    assert sha(x) == entry[colon + 1..] == sha(y);
    JoinIsInjective('/', p, q);
  }

  lemma EntriesSeparable(files: Files, sha: Hash)
    requires IsHexDigest(sha) && PlainNames(files)
    ensures Separable('\n', Entries(Ascend(files.Keys), files, sha))
  {
    var listing := Ascend(files.Keys);
    forall i | 0 <= i < |listing|
      ensures Entries(listing, files, sha)[i] != "" && '\n' !in Entries(listing, files, sha)[i]
    {
      assert listing[i] in listing;
      JoinAvoids('/', '\n', listing[i]);
    }
  }

  lemma EqualPreimages(a: Files, b: Files, sha: Hash)
    requires IsHexDigest(sha) && PlainNames(a) && PlainNames(b)
    requires Preimage(a, sha) == Preimage(b, sha)
    ensures Ascend(a.Keys) == Ascend(b.Keys)
    ensures forall p :: p in Ascend(a.Keys) ==> p in a && p in b && sha(a[p]) == sha(b[p])
  {
    var la, lb := Ascend(a.Keys), Ascend(b.Keys);
    EntriesSeparable(a, sha);
    EntriesSeparable(b, sha);
    JoinIsInjective('\n', Entries(la, a, sha), Entries(lb, b, sha));
    assert |la| == |Entries(la, a, sha)| == |Entries(lb, b, sha)| == |lb|;
    forall i | 0 <= i < |la| ensures la[i] == lb[i] && sha(a[la[i]]) == sha(b[la[i]]) {
      assert la[i] in la && lb[i] in lb;
      assert Entries(la, a, sha)[i] == Entries(lb, b, sha)[i];
      EntryDecodes(la[i], a[la[i]], lb[i], b[lb[i]], sha);
    }
  }

  lemma SamePreimage(a: Files, b: Files, sha: Hash)
    requires HashMap(a, sha) == HashMap(b, sha)
    ensures Preimage(a, sha) == Preimage(b, sha)
  {
    var la, lb := Ascend(a.Keys), Ascend(b.Keys);
    assert a.Keys == HashMap(a, sha).Keys == HashMap(b, sha).Keys == b.Keys;
    forall i | 0 <= i < |la| ensures Entries(la, a, sha)[i] == Entries(la, b, sha)[i] {
      assert la[i] in la;
      assert HashMap(a, sha)[la[i]] == HashMap(b, sha)[la[i]];
    }
    assert Entries(la, a, sha) == Entries(la, b, sha);
  }

  /** The preimage determines, and is determined by, the map from paths to content hashes. */
  lemma PreimageDecodes(a: Files, b: Files, sha: Hash)
    requires IsHexDigest(sha) && PlainNames(a) && PlainNames(b)
    ensures Preimage(a, sha) == Preimage(b, sha) <==> HashMap(a, sha) == HashMap(b, sha)
  {
    if Preimage(a, sha) == Preimage(b, sha) {
      EqualPreimages(a, b, sha);
      forall p ensures p in a <==> p in b {
        assert p in a <==> p in Ascend(a.Keys);
      }
      forall p | p in a ensures HashMap(a, sha)[p] == HashMap(b, sha)[p] {
        assert p in Ascend(a.Keys);
      }
    }
    if HashMap(a, sha) == HashMap(b, sha) {
      SamePreimage(a, b, sha);
    }
  }

  lemma ListedAscending(files: Files, listing: seq<Path>)
    requires Ascending(PathLess, listing) && forall p :: p in listing <==> p in files
    ensures Ascend(files.Keys) == listing
  {
    PathsTotal();
    AscendingIsUnique(PathLess, Ascend(files.Keys), listing);
  }

  /** The hashed text: one line per file, its path and the hash of its content, in path order. */
  lemma PreimageOfTwo(p: Path, x: Bytes, q: Path, y: Bytes, sha: Hash)
    requires PathLess(p, q) && p != q
    ensures Preimage(map[p := x, q := y], sha) == Join('/', p) + ":" + sha(x) + ['\n'] + (Join('/', q) + ":" + sha(y))
  {
    var files: Files := map[p := x, q := y];
    ListedAscending(files, [p, q]);
    var entries := Entries([p, q], files, sha);
    assert entries[0] == Entry(p, x, sha) && entries[1] == Entry(q, y, sha);
    TwoJoined('\n', entries);
  }

  lemma TwoJoined(sep: char, parts: seq<string>)
    requires |parts| == 2
    ensures Join(sep, parts) == parts[0] + [sep] + parts[1]
  {
    assert parts[1..] == [parts[1]];
  }
}
