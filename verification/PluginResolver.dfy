/** Resolving source-based items through an on-disk cache whose marker is written last. */
module PluginResolver {
  import opened Wrappers
  import opened FileTree
  import opened InstallSchema
  import opened InstallDriver

  const MARKER := ".xcore-resolved"

  // ---------------------------------------------------------------- cache keys

  /** `_safe_ref_dirname`. */
  function SafeRefDirname(text: string): (name: string)
    ensures |name| == |text|
    ensures forall i :: 0 <= i < |text| ==> name[i] == if text[i] == '/' then '_' else text[i]
  {
    seq(|text|, i requires 0 <= i < |text| => if text[i] == '/' then '_' else text[i])
  }

  /** What is asked for: under which id, from where, and which part of it. */
  datatype Request = Request(id: string, source: PluginSource)

  function CacheName(origin: Origin): string {
    match origin
    case Marketplace(_, version, _) => "mkt-" + SafeRefDirname(version)
    case Git(_, gitRef) => SafeRefDirname(gitRef)
  }

  function CacheDir(req: Request): Path { [req.id, CacheName(req.source.origin)] }

  /** Where a marketplace archive is stored while it is unpacked. */
  function ZipPath(id: string, version: string): Path { [id, SafeRefDirname(version) + ".zip"] }

  // ---------------------------------------------------------------- where the content comes from

  datatype Artifact = Artifact(data: Bytes, signature: Bytes)

  /** An archive that turns out to be broken, or a checkout that fails, has written `partial` by then. */
  datatype Unzipped = Archive(tree: Tree) | BadZip(partial: Tree) | UnsafeZip
  datatype CheckedOut = Commit(tree: Tree) | CheckoutFails(partial: Tree)

  /** The sources, which always give the same answer, and the trusted signer's check. `early`
      are the names that come before the wrapping directory's own when that is listed;
      `beyond` says whether a path that leaves the cache leads to a directory. */
  datatype World = World(
    artifact: (string, string, string) -> Artifact,
    genuine: (Bytes, Bytes) -> bool,
    unzip: Bytes -> Unzipped,
    early: Tree -> set<string>,
    checkout: (string, string) -> CheckedOut,
    beyond: string -> bool)

  function TopNames(tree: Tree): set<string> {
    set p | p in tree && p != [] :: p[0]
  }

  /** The names found below the directory `root`. */
  function Children(tree: Tree, root: string): set<string> {
    set p | p in tree && |p| >= 2 && p[0] == root :: p[1]
  }

  /** The only entry is a directory. */
  predicate HasSingleRoot(tree: Tree, root: string) {
    TopNames(tree) == {root} && IsDir(tree, [root])
  }

  function Lifted(tree: Tree, root: string): Tree {
    Sub(tree, [root])[[] := Dir]
  }

  /** Only the children in `done` have moved up. */
  function LiftedSome(tree: Tree, root: string, done: set<string>): Tree {
    (map p | p in tree && !(|p| >= 2 && p[0] == root && p[1] in done) :: tree[p]) +
    (map p | p in Sub(tree, [root]) && p != [] && p[0] in done :: Sub(tree, [root])[p])
  }

  function MovedFirst(tree: Tree, root: string, early: set<string>): set<string> {
    early * (Children(tree, root) - {root})
  }

  /** `flatten_single_root`: what lay below the only directory moves up, unless a child with
      that directory's own name is in its own way. */
  ghost function Flattened(tree: Tree, early: set<string>): (Tree, bool) {
    if exists root :: HasSingleRoot(tree, root) then
      var root :| HasSingleRoot(tree, root);
      if root in Children(tree, root) then (LiftedSome(tree, root, MovedFirst(tree, root, early)), false)
      else (Lifted(tree, root), true)
    else (tree, true)
  }

  /** The outcome of fetching: refused before anything is written, unusable and cleaned up
      again, left as it is without being marked, or the content of the cache directory. */
  datatype Fetched = Refused | Unusable | Stuck(tree: Tree) | Content(tree: Tree)

  /** Where the marker has to go there must not be a directory. */
  function Settled(tree: Tree, ok: bool): Fetched {
    if !ok || IsDir(tree, [MARKER]) then Stuck(tree) else Content(tree)
  }

  predicate Genuine(w: World, origin: Origin) {
    match origin
    case Marketplace(slug, version, kind) =>
      var artifact := w.artifact(slug, version, kind);
      w.genuine(artifact.signature, artifact.data)
    case Git(_, _) => true
  }

  function UnzippedOf(w: World, origin: Origin): Unzipped
    requires origin.Marketplace?
  {
    w.unzip(w.artifact(origin.slug, origin.version, origin.kind).data)
  }

  ghost function Fetch(w: World, origin: Origin): Fetched {
    match origin
    case Marketplace(_, _, _) =>
      var unzipped := UnzippedOf(w, origin);
      if !Genuine(w, origin) then Refused
      else if !unzipped.Archive? then Unusable
      else
        var raw := WithRoot(unzipped.tree);
        Settled(Flattened(raw, w.early(raw)).0, Flattened(raw, w.early(raw)).1)
    case Git(url, gitRef) =>
      var commit := w.checkout(url, gitRef);
      if !commit.Commit? then Unusable else Settled(Remove(WithRoot(commit.tree), [".git"]), true)
  }

  /** What is written into the cache directory before anything in it is moved or deleted. */
  function RawTree(w: World, origin: Origin): Tree {
    if !Genuine(w, origin) then map[]
    else
      match origin
      case Marketplace(_, _, _) =>
        (match UnzippedOf(w, origin)
         case Archive(tree) => WithRoot(tree)
         case BadZip(partial) => WithRoot(partial)
         case UnsafeZip => map[])
      case Git(url, gitRef) =>
        (match w.checkout(url, gitRef)
         case Commit(tree) => WithRoot(tree)
         case CheckoutFails(partial) => WithRoot(partial))
  }

  // ---------------------------------------------------------------- one resolve

  datatype Stage = Removing | Fetching | Filling

  /** What goes wrong. An error or a kill inside a stage leaves in the cache directory what
      `left` says of what can be there, and maybe something of the stored archive. Later on,
      deleting `.git` may silently leave a rest, and writing the marker may be cut. */
  datatype Fault =
    | NoFault
    | Interrupted(stage: Stage, left: Tree, archive: Option<Bytes>)
    | Late(gitRest: Tree, cut: Option<string>)

  /** An interrupted deletion leaves some of what was there. */
  function Rest(before: Tree, left: Tree): Tree {
    if !IsDir(left, []) then map[] else map p | p in left && p in before :: before[p]
  }

  predicate SameKind(a: Tree, p: Path, b: Tree, q: Path) { p in a && q in b && a[p].Dir? == b[q].Dir? }

  /** While the directory is filled it holds nothing but what the source does, there or moved
      up already, and for git the repository's own directory. File contents may be cut. */
  predicate MayStand(w: World, origin: Origin, left: Tree, p: Path) {
    var raw := RawTree(w, origin);
    || SameKind(left, p, raw, p)
    || (Lifts(w, origin) && exists root :: root in TopNames(raw) && MovedUp(raw, root, left, p))
    || (origin.Git? && [".git"] <= p)
  }

  /** Only a sound archive is flattened. */
  predicate Lifts(w: World, origin: Origin) { origin.Marketplace? && UnzippedOf(w, origin).Archive? }

  predicate MovedUp(raw: Tree, root: string, left: Tree, p: Path) {
    HasSingleRoot(raw, root) && SameKind(left, p, raw, [root] + p)
  }

  function Leftover(w: World, origin: Origin, left: Tree): Tree {
    if !IsDir(left, []) then map[] else map p | p in left && (p == [] || MayStand(w, origin, left, p)) :: left[p]
  }

  predicate Marked(cache: Tree, dest: Path) { IsDir(cache, dest) && IsFile(cache, dest + [MARKER]) }

  function Label(origin: Origin): string {
    match origin
    case Marketplace(_, version, _) => version
    case Git(_, gitRef) => gitRef
  }

  function WithMarker(tree: Tree, text: string): Tree { tree[[MARKER] := File(text)] }

  predicate Strikes(fault: Fault, stage: Stage) { fault.Interrupted? && fault.stage == stage }

  /** The marketplace archive is stored next to the cache directories for a moment. */
  function WithoutZip(cache: Tree, req: Request): Tree {
    match req.source.origin
    case Marketplace(_, version, _) => Remove(cache, ZipPath(req.id, version))
    case Git(_, _) => cache
  }

  function WithZip(cache: Tree, req: Request, data: Bytes): Tree {
    match req.source.origin
    case Marketplace(_, version, _) => cache[ZipPath(req.id, version) := File(data)]
    case Git(_, _) => cache
  }

  predicate ZipStays(fault: Fault) { Strikes(fault, Filling) && fault.archive.Some? }

  /** The archive is gone again in the end, unless the process was killed or could not even
      store it. */
  function AfterZip(cache: Tree, req: Request, fault: Fault): Tree {
    if ZipStays(fault) then WithZip(cache, req, fault.archive.value) else WithoutZip(cache, req)
  }

  predicate ZipBlocked(cache: Tree, req: Request) {
    match req.source.origin
    case Marketplace(_, version, _) => IsDir(cache, ZipPath(req.id, version))
    case Git(_, _) => false
  }

  /** Fill an empty cache directory, marker last. */
  ghost function Fill(cache: Tree, w: World, req: Request, fault: Fault): (Tree, bool) {
    var dest, fetched := CacheDir(req), Fetch(w, req.source.origin);
    if Strikes(fault, Fetching) || fetched.Refused? || ParentsBlocked(cache, dest) then (cache, false)
    else
      var ready := Emptied(cache, dest);
      if ZipBlocked(ready, req) then (ready, false)
      else (Put(ready, req, fault, Filled(w, req, fault)), fetched.Content? && !Strikes(fault, Filling) && !MarkerCut(fault))
  }

  /** What the directory holds in the end if filling it gets that far. */
  ghost function Filled(w: World, req: Request, fault: Fault): Tree {
    if Strikes(fault, Filling) then Leftover(w, req.source.origin, fault.left)
    else
      match Fetch(w, req.source.origin)
      case Content(tree) => WithMarker(WithGitRest(tree, req.source.origin, fault), MarkerText(req, fault))
      case Stuck(tree) => WithGitRest(tree, req.source.origin, fault)
      case _ => map[]
  }

  predicate MarkerCut(fault: Fault) { fault.Late? && fault.cut.Some? }

  /** `rmtree(..., ignore_errors=True)` of the repository's own directory. */
  function WithGitRest(tree: Tree, origin: Origin, fault: Fault): Tree {
    if origin.Git? && fault.Late? && IsDir(fault.gitRest, []) then Graft(tree, [".git"], fault.gitRest) else tree
  }

  /** A fresh, empty directory. */
  function Emptied(cache: Tree, dest: Path): Tree {
    Graft(WithParents(cache, dest), dest, map[[] := Dir])
  }

  /** The cache with this content in the directory, after the archive next to it was used. */
  function Put(cache: Tree, req: Request, fault: Fault, content: Tree): Tree {
    Graft(AfterZip(cache, req, fault), CacheDir(req), content)
  }

  function MarkerText(req: Request, fault: Fault): string {
    if MarkerCut(fault) then fault.cut.value else Label(req.source.origin)
  }

  /** Reuse the cache directory if it is marked; otherwise empty it and fill it again. */
  ghost function Ensure(cache: Tree, w: World, req: Request, fault: Fault): (Tree, bool) {
    var dest := CacheDir(req);
    if Marked(cache, dest) then (cache, true)
    else if IsFile(cache, dest) then (cache, false)
    else if dest in cache && Strikes(fault, Removing) then (Graft(cache, dest, Rest(Sub(cache, dest), fault.left)), false)
    else Fill(Remove(cache, dest), w, req, fault)
  }

  /** The names in the requested subdirectory; without one it is the directory itself. */
  function Names(req: Request): Path {
    match req.source.subdirectory
    case Some(sub) => PathOf(sub)
    case None => []
  }

  predicate Absolute(req: Request) {
    match req.source.subdirectory
    case Some(sub) => sub != "" && sub[0] == '/'
    case None => false
  }

  /** A directory that is returned: one in the cache, or one that the model does not follow. */
  datatype Place = InCache(path: Path) | Beyond

  predicate IsBeyond(w: World, req: Request) { w.beyond(req.source.subdirectory.GetOr("")) }

  /** `dest / subdirectory`, if that is a directory. An absolute path replaces `dest`. */
  function Found(cache: Tree, w: World, req: Request): Option<Place> {
    var at := Walked(CacheDir(req), Names(req));
    if !Absolute(req) && !Passable(cache, CacheDir(req), Names(req)) then None
    else if !Absolute(req) && at.Some? then Some(InCache(at.value))
    else if IsBeyond(w, req) then Some(Beyond)
    else None
  }

  /** `resolve`: the new cache, and the directory that is returned. */
  ghost function Resolve(cache: Tree, w: World, req: Request, fault: Fault): (Tree, Option<Place>) {
    var (filled, ok) := Ensure(cache, w, req, fault);
    (filled, if ok then Found(filled, w, req) else None)
  }

  // ---------------------------------------------------------------- what the cache holds

  /** The marker is not part of the content, whoever wrote it. */
  function WithoutMarker(tree: Tree): Tree { tree - {[MARKER]} }

  predicate IsMarked(tree: Tree) { IsDir(tree, []) && IsFile(tree, [MARKER]) }

  /** What counts: neither the marker nor, for git, the repository's own directory. */
  function Bare(tree: Tree, origin: Origin): Tree {
    WithoutMarker(if origin.Git? then Remove(tree, [".git"]) else tree)
  }

  predicate Hidden(origin: Origin, p: Path) { p == [MARKER] || (origin.Git? && [".git"] <= p) }

  lemma BareAt(tree: Tree, origin: Origin, p: Path)
    ensures Hidden(origin, p) ==> p !in Bare(tree, origin)
    ensures !Hidden(origin, p) ==> SameAt(tree, Bare(tree, origin), p)
  {
  }

  /** Marked, it is all that a fetch gives. */
  ghost predicate Whole(tree: Tree, w: World, origin: Origin) {
    IsMarked(tree) ==>
      Fetch(w, origin).Content? && Bare(tree, origin) == Bare(Fetch(w, origin).tree, origin)
  }

  /** A marked directory holds exactly what a fetch gives. */
  ghost predicate Complete(cache: Tree, w: World, req: Request) {
    Whole(Sub(cache, CacheDir(req)), w, req.source.origin)
  }

  /** The source itself holds a file that passes for the marker, at once or once moved up. */
  predicate ShipsMarker(w: World, origin: Origin) {
    var raw := RawTree(w, origin);
    || IsFile(raw, [MARKER])
    || (Lifts(w, origin) && exists root :: root in TopNames(raw) && HasSingleRoot(raw, root) && IsFile(raw, [root, MARKER]))
  }

  /** Usable, and nothing but the marker. */
  ghost predicate OnlyMarker(w: World, origin: Origin) {
    Fetch(w, origin).Content? && Bare(RawTree(w, origin), origin) == map[[] := Dir]
  }

  ghost predicate Crashproof(w: World, origin: Origin) { !ShipsMarker(w, origin) || OnlyMarker(w, origin) }

  /** Two requests that share a cache directory have the same origin. */
  ghost predicate KeysInjective(reqs: set<Request>) {
    forall a, b :: a in reqs && b in reqs && CacheDir(a) == CacheDir(b) ==> a.source.origin == b.source.origin
  }

  lemma CacheDirsApart(a: Path, b: Path)
    requires |a| == 2 && |b| == 2 && a != b
    ensures Apart(a, b)
  {
  }

  /** A change below one two-segment path keeps every other such directory. */
  lemma OtherDirKept(a: Tree, b: Tree, root: Path, dest: Path)
    requires |root| == 2 && |dest| == 2 && root != dest
    requires KeepsOthers(a, b, root)
    ensures Sub(a, dest) == Sub(b, dest) && (Marked(a, dest) <==> Marked(b, dest))
  {
    forall p | dest <= p ensures SameAt(a, b, p) {
      if root <= p { PrefixesCompare(root, dest, p); CacheDirsApart(root, dest); }
    }
    SameBelow(a, b, dest);
    assert dest <= dest + [MARKER];
  }

  /** Everything but the parents of `root` and what lies at or below it. */
  ghost predicate KeepsOthers(a: Tree, b: Tree, root: Path) {
    forall p :: root <= p || SameAt(a, b, p) || |p| < 2
  }

  lemma KeepsOthersTrans(a: Tree, b: Tree, c: Tree, root: Path)
    requires KeepsOthers(a, b, root) && KeepsOthers(b, c, root)
    ensures KeepsOthers(a, c, root)
  {
    forall p ensures root <= p || SameAt(a, c, p) || |p| < 2 {
      assert root <= p || SameAt(a, b, p) || |p| < 2;
      assert root <= p || SameAt(b, c, p) || |p| < 2;
    }
  }

  lemma GraftKeepsOthers(tree: Tree, root: Path, sub: Tree)
    ensures KeepsOthers(tree, Graft(tree, root, sub), root)
  {
    forall p | !(root <= p) ensures SameAt(tree, Graft(tree, root, sub), p) { GraftAt(tree, root, sub, p); }
  }

  lemma ReadyKeepsOthers(tree: Tree, root: Path, sub: Tree)
    requires |root| == 2
    ensures KeepsOthers(tree, Graft(WithParents(tree, root), root, sub), root)
  {
    forall p | !(root <= p) && |p| >= 2 ensures SameAt(tree, WithParents(tree, root), p) { WithParentsAt(tree, root, p); }
    assert KeepsOthers(tree, WithParents(tree, root), root);
    GraftKeepsOthers(WithParents(tree, root), root, sub);
    KeepsOthersTrans(tree, WithParents(tree, root), Graft(WithParents(tree, root), root, sub), root);
  }

  /** Of the other cache directories, the same ones are marked, and those are untouched. */
  ghost predicate OthersStay(a: Tree, b: Tree, dest: Path) {
    forall other :: |other| == 2 && other != dest ==> StaysMarked(a, b, other)
  }

  predicate StaysMarked(a: Tree, b: Tree, dest: Path) {
    (Marked(a, dest) <==> Marked(b, dest)) && (Marked(b, dest) ==> Sub(a, dest) == Sub(b, dest))
  }

  lemma KeepsMarked(a: Tree, b: Tree, dest: Path)
    requires |dest| == 2 && KeepsOthers(a, b, dest)
    ensures OthersStay(a, b, dest)
  {
    forall other | |other| == 2 && other != dest ensures StaysMarked(a, b, other) {
      OtherDirKept(a, b, dest, other);
    }
  }

  lemma ZipKeepsMarked(cache: Tree, req: Request, fault: Fault)
    requires !ZipBlocked(cache, req)
    ensures OthersStay(cache, AfterZip(cache, req, fault), CacheDir(req))
  {
    if req.source.origin.Marketplace? {
      var zip := ZipPath(req.id, req.source.origin.version);
      var after := AfterZip(cache, req, fault);
      assert KeepsOthers(cache, after, zip);
      forall other | |other| == 2 ensures StaysMarked(cache, after, other) {
        if other != zip { OtherDirKept(cache, after, zip, other); }
      }
    }
  }

  lemma MarkedTrans(a: Tree, b: Tree, c: Tree, dest: Path)
    requires OthersStay(a, b, dest) && OthersStay(b, c, dest)
    ensures OthersStay(a, c, dest)
  {
  }

  /** Whatever happens to it, a resolve does no harm to the other entries. */
  lemma EnsureKeepsOthers(cache: Tree, w: World, req: Request, fault: Fault)
    ensures OthersStay(cache, Ensure(cache, w, req, fault).0, CacheDir(req))
  {
    var dest := CacheDir(req);
    var cleared := Remove(cache, dest);
    if Refills(cache, dest, fault) {
      EnsureRefills(cache, w, req, fault);
      assert KeepsOthers(cache, cleared, dest);
      KeepsMarked(cache, cleared, dest);
      FillKeepsOthers(cleared, w, req, fault);
      MarkedTrans(cache, cleared, Fill(cleared, w, req, fault).0, dest);
    } else {
      EnsureOtherwise(cache, w, req, fault);
      if !Marked(cache, dest) && !IsFile(cache, dest) {
        GraftKeepsOthers(cache, dest, Rest(Sub(cache, dest), fault.left));
        KeepsMarked(cache, Graft(cache, dest, Rest(Sub(cache, dest), fault.left)), dest);
      }
    }
  }

  lemma PutKeepsMarked(cache: Tree, req: Request, fault: Fault, content: Tree)
    requires !ZipBlocked(cache, req)
    ensures OthersStay(cache, Put(cache, req, fault, content), CacheDir(req))
  {
    var stored, dest := AfterZip(cache, req, fault), CacheDir(req);
    ZipKeepsMarked(cache, req, fault);
    GraftKeepsOthers(stored, dest, content);
    KeepsMarked(stored, Put(cache, req, fault, content), dest);
    MarkedTrans(cache, stored, Put(cache, req, fault, content), dest);
  }

  predicate Reaches(cache: Tree, req: Request, fault: Fault) {
    !Strikes(fault, Fetching) && !ParentsBlocked(cache, CacheDir(req)) && !ZipBlocked(Emptied(cache, CacheDir(req)), req)
  }

  lemma FillPuts(cache: Tree, w: World, req: Request, fault: Fault)
    requires Reaches(cache, req, fault) && !Fetch(w, req.source.origin).Refused?
    ensures Fill(cache, w, req, fault).0 == Put(Emptied(cache, CacheDir(req)), req, fault, Filled(w, req, fault))
    ensures Fill(cache, w, req, fault).1 <==>
      Fetch(w, req.source.origin).Content? && !Strikes(fault, Filling) && !MarkerCut(fault)
  {
  }

  lemma FillOtherwise(cache: Tree, w: World, req: Request, fault: Fault)
    requires !Reaches(cache, req, fault) || Fetch(w, req.source.origin).Refused?
    ensures !Fill(cache, w, req, fault).1
    ensures Fill(cache, w, req, fault).0 == cache || Fill(cache, w, req, fault).0 == Emptied(cache, CacheDir(req))
  {
  }

  /** Whether `dest` is cleared and filled. */
  predicate Refills(cache: Tree, dest: Path, fault: Fault) {
    !Marked(cache, dest) && !IsFile(cache, dest) && !(dest in cache && Strikes(fault, Removing))
  }

  lemma EnsureRefills(cache: Tree, w: World, req: Request, fault: Fault)
    requires Refills(cache, CacheDir(req), fault)
    ensures Ensure(cache, w, req, fault) == Fill(Remove(cache, CacheDir(req)), w, req, fault)
  {
  }

  lemma EnsureOtherwise(cache: Tree, w: World, req: Request, fault: Fault)
    requires !Refills(cache, CacheDir(req), fault)
    ensures
      var (after, ok) := Ensure(cache, w, req, fault);
      if Marked(cache, CacheDir(req)) || IsFile(cache, CacheDir(req)) then after == cache && ok == Marked(cache, CacheDir(req))
      else !ok && after == Graft(cache, CacheDir(req), Rest(Sub(cache, CacheDir(req)), fault.left))
  {
  }

  lemma FillKeepsOthers(cache: Tree, w: World, req: Request, fault: Fault)
    ensures OthersStay(cache, Fill(cache, w, req, fault).0, CacheDir(req))
  {
    var dest := CacheDir(req);
    var after := Fill(cache, w, req, fault).0;
    if Strikes(fault, Fetching) || Fetch(w, req.source.origin).Refused? || ParentsBlocked(cache, dest) {
    } else {
      var ready := Emptied(cache, dest);
      ReadyKeepsOthers(cache, dest, map[[] := Dir]);
      KeepsMarked(cache, ready, dest);
      if !ZipBlocked(ready, req) {
        FillPuts(cache, w, req, fault);
        PutKeepsMarked(ready, req, fault, Filled(w, req, fault));
        MarkedTrans(cache, ready, after, dest);
      }
    }
  }

  // ---- the entry itself

  lemma MarkedIs(cache: Tree, dest: Path)
    ensures Marked(cache, dest) <==> IsMarked(Sub(cache, dest))
  {
    assert dest + [] == dest;
    SubAt(cache, dest, []);
    SubAt(cache, dest, [MARKER]);
  }

  lemma PutHolds(cache: Tree, req: Request, fault: Fault, content: Tree)
    ensures Sub(Put(cache, req, fault, content), CacheDir(req)) == content
    ensures Marked(Put(cache, req, fault, content), CacheDir(req)) <==> IsMarked(content)
  {
    SubOfGraft(AfterZip(cache, req, fault), CacheDir(req), content);
    MarkedIs(Put(cache, req, fault, content), CacheDir(req));
  }

  lemma ContentIsRooted(w: World, origin: Origin)
    requires Fetch(w, origin).Content?
    ensures IsDir(Fetch(w, origin).tree, []) && !IsDir(Fetch(w, origin).tree, [MARKER])
  {
  }

  lemma GitRestAt(tree: Tree, origin: Origin, fault: Fault, p: Path)
    requires !Hidden(origin, p) || p == [MARKER]
    ensures SameAt(tree, WithGitRest(tree, origin, fault), p)
  {
    assert [".git"][0] != [MARKER][0] by { assert |".git"| == 4 && |MARKER| == 15; }
    if origin.Git? && fault.Late? { GraftAt(tree, [".git"], fault.gitRest, p); }
  }

  /** Neither the marker nor a rest of the repository's own directory counts. */
  lemma LateComesOff(tree: Tree, origin: Origin, fault: Fault, text: string)
    ensures Bare(WithMarker(WithGitRest(tree, origin, fault), text), origin) == Bare(tree, origin)
  {
    var full := WithMarker(WithGitRest(tree, origin, fault), text);
    forall p ensures SameAt(Bare(full, origin), Bare(tree, origin), p) {
      BareAt(full, origin, p);
      BareAt(tree, origin, p);
      if !Hidden(origin, p) { GitRestAt(tree, origin, fault, p); }
    }
    SameEverywhere(Bare(full, origin), Bare(tree, origin));
  }

  /** A marker that an interrupted filling leaves is one the source ships. */
  lemma LeftMarkerIsShipped(w: World, origin: Origin, left: Tree)
    requires IsFile(Leftover(w, origin, left), [MARKER])
    ensures ShipsMarker(w, origin)
  {
    var raw := RawTree(w, origin);
    assert [".git"][0] != [MARKER][0] by { assert |".git"| == 4 && |MARKER| == 15; }
    assert MayStand(w, origin, left, [MARKER]);
    if !SameKind(left, [MARKER], raw, [MARKER]) {
      var root :| root in TopNames(raw) && MovedUp(raw, root, left, [MARKER]);
      assert [root] + [MARKER] == [root, MARKER];
    }
  }

  lemma NoRootOfMarker(raw: Tree, root: string)
    requires IsFile(raw, [MARKER])
    ensures !HasSingleRoot(raw, root)
  {
    assert [MARKER][0] in TopNames(raw);
  }

  /** A shipped marker that stands at the top is the content's, and nothing is moved. */
  lemma MarkerAtTop(w: World, origin: Origin)
    requires Fetch(w, origin).Content? && IsFile(RawTree(w, origin), [MARKER])
    ensures Bare(Fetch(w, origin).tree, origin) == Bare(RawTree(w, origin), origin)
  {
    var raw := RawTree(w, origin);
    forall root ensures !HasSingleRoot(raw, root) { NoRootOfMarker(raw, root); }
    if origin.Marketplace? {
      assert raw == WithRoot(UnzippedOf(w, origin).tree);
      assert Fetch(w, origin).tree == raw;
    } else {
      assert Fetch(w, origin).tree == Remove(raw, [".git"]);
      assert Remove(Remove(raw, [".git"]), [".git"]) == Remove(raw, [".git"]);
    }
  }

  lemma OnlyMarkerAtTop(w: World, origin: Origin)
    requires OnlyMarker(w, origin) && ShipsMarker(w, origin)
    ensures IsFile(RawTree(w, origin), [MARKER])
  {
    var raw := RawTree(w, origin);
    forall root ensures origin.Marketplace? ==> !IsFile(raw, [root, MARKER]) {
      BareAt(raw, origin, [root, MARKER]);
    }
  }

  /** Of a source of nothing but the marker, a rest that is marked is the whole. */
  lemma OnlyMarkerLeftover(w: World, origin: Origin, left: Tree)
    requires OnlyMarker(w, origin) && IsMarked(Leftover(w, origin, left))
    ensures Bare(Leftover(w, origin, left), origin) == Bare(Fetch(w, origin).tree, origin)
  {
    var raw, rest := RawTree(w, origin), Leftover(w, origin, left);
    LeftMarkerIsShipped(w, origin, left);
    OnlyMarkerAtTop(w, origin);
    MarkerAtTop(w, origin);
    forall p ensures SameAt(Bare(rest, origin), map[[] := Dir], p) {
      BareAt(rest, origin, p);
      BareAt(raw, origin, p);
      forall root ensures !HasSingleRoot(raw, root) { NoRootOfMarker(raw, root); }
    }
    SameEverywhere(Bare(rest, origin), map[[] := Dir]);
  }

  /** The content of a filled directory is whole if it is marked. */
  lemma FilledIsWhole(w: World, req: Request, fault: Fault)
    requires Crashproof(w, req.source.origin)
    ensures Whole(Filled(w, req, fault), w, req.source.origin)
  {
    var origin := req.source.origin;
    if Strikes(fault, Filling) {
      if IsMarked(Filled(w, req, fault)) {
        LeftMarkerIsShipped(w, origin, fault.left);
        OnlyMarkerLeftover(w, origin, fault.left);
      }
    } else if Fetch(w, origin).Content? {
      LateComesOff(Fetch(w, origin).tree, origin, fault, MarkerText(req, fault));
    } else if Fetch(w, origin).Stuck? {
      GitRestAt(Fetch(w, origin).tree, origin, fault, [MARKER]);
      if IsFile(Fetch(w, origin).tree, [MARKER]) { StuckMarkerIsShipped(w, origin); }
    }
  }

  lemma StuckMarkerIsShipped(w: World, origin: Origin)
    requires Fetch(w, origin).Stuck? && IsFile(Fetch(w, origin).tree, [MARKER])
    ensures ShipsMarker(w, origin)
  {
    var raw, tree := RawTree(w, origin), Fetch(w, origin).tree;
    assert origin.Marketplace? && raw == WithRoot(UnzippedOf(w, origin).tree);
    assert !Flattened(raw, w.early(raw)).1;
    var root :| HasSingleRoot(raw, root) && tree == LiftedSome(raw, root, MovedFirst(raw, root, w.early(raw)));
    assert root in TopNames(raw);
    SubAt(raw, [root], [MARKER]);
    assert [root] + [MARKER] == [root, MARKER];
  }

  lemma FilledIsMarked(w: World, req: Request, fault: Fault)
    requires Fetch(w, req.source.origin).Content? && !Strikes(fault, Filling)
    ensures IsMarked(Filled(w, req, fault))
  {
    var tree := Fetch(w, req.source.origin).tree;
    ContentIsRooted(w, req.source.origin);
    assert !Hidden(req.source.origin, []);
    GitRestAt(tree, req.source.origin, fault, []);
  }

  lemma UnmarkedIsComplete(cache: Tree, w: World, req: Request)
    requires !Marked(cache, CacheDir(req))
    ensures Complete(cache, w, req)
  {
    MarkedIs(cache, CacheDir(req));
  }

  lemma EmptiedIsUnmarked(cache: Tree, dest: Path)
    ensures !Marked(Emptied(cache, dest), dest)
  {
    SubOfGraft(WithParents(cache, dest), dest, map[[] := Dir]);
    MarkedIs(Emptied(cache, dest), dest);
  }

  /** An entry that gets its marker is complete, however the filling was disturbed. */
  lemma FillCompletes(cache: Tree, w: World, req: Request, fault: Fault)
    requires Whole(Filled(w, req, fault), w, req.source.origin) && !Marked(cache, CacheDir(req))
    ensures
      var (after, ok) := Fill(cache, w, req, fault);
      Complete(after, w, req) && (ok ==> Marked(after, CacheDir(req)))
  {
    var dest := CacheDir(req);
    if !Reaches(cache, req, fault) || Fetch(w, req.source.origin).Refused? {
      FillOtherwise(cache, w, req, fault);
      EmptiedIsUnmarked(cache, dest);
      UnmarkedIsComplete(Fill(cache, w, req, fault).0, w, req);
    } else {
      FillPuts(cache, w, req, fault);
      PutHolds(Emptied(cache, dest), req, fault, Filled(w, req, fault));
      if Fill(cache, w, req, fault).1 { FilledIsMarked(w, req, fault); }
    }
  }

  lemma RestIsUnmarked(cache: Tree, dest: Path, left: Tree)
    requires !Marked(cache, dest)
    ensures !Marked(Graft(cache, dest, Rest(Sub(cache, dest), left)), dest)
  {
    var rest := Rest(Sub(cache, dest), left);
    SubOfGraft(cache, dest, rest);
    MarkedIs(cache, dest);
    MarkedIs(Graft(cache, dest, rest), dest);
  }

  /** Whatever disturbs it, a resolve leaves a complete entry, and a marked one if it succeeds. */
  lemma EnsureCompletes(cache: Tree, w: World, req: Request, fault: Fault)
    requires Crashproof(w, req.source.origin) && Complete(cache, w, req)
    ensures
      var (after, ok) := Ensure(cache, w, req, fault);
      Complete(after, w, req) && (ok ==> Marked(after, CacheDir(req)))
  {
    var dest := CacheDir(req);
    if Refills(cache, dest, fault) {
      EnsureRefills(cache, w, req, fault);
      FilledIsWhole(w, req, fault);
      FillCompletes(Remove(cache, dest), w, req, fault);
    } else {
      EnsureOtherwise(cache, w, req, fault);
      if !Marked(cache, dest) && !IsFile(cache, dest) {
        RestIsUnmarked(cache, dest, fault.left);
        UnmarkedIsComplete(Ensure(cache, w, req, fault).0, w, req);
      }
    }
  }

  // ---- sources that ship a marker

  /** What an interruption may leave so that the rest passes for the whole. */
  ghost function Deceptive(w: World, origin: Origin): Tree {
    var raw := RawTree(w, origin);
    if !IsFile(raw, [MARKER]) && exists root :: root != MARKER && HasSingleRoot(raw, root) then
      var root :| root != MARKER && HasSingleRoot(raw, root);
      map[[] := Dir, [MARKER] := File(""), [root] := Dir]
    else map[[] := Dir, [MARKER] := File("")]
  }

  lemma DeceptiveStands(w: World, origin: Origin)
    requires ShipsMarker(w, origin)
    ensures Leftover(w, origin, Deceptive(w, origin)) == Deceptive(w, origin)
  {
    var raw, left := RawTree(w, origin), Deceptive(w, origin);
    assert IsDir(left, []) && IsFile(left, [MARKER]);
    if !IsFile(raw, [MARKER]) {
      var root :| root in TopNames(raw) && HasSingleRoot(raw, root) && IsFile(raw, [root, MARKER]);
      assert [root] + [MARKER] == [root, MARKER];
      assert MovedUp(raw, root, left, [MARKER]);
      forall other | HasSingleRoot(raw, other) ensures other == root { assert other in TopNames(raw); }
    }
    assert MayStand(w, origin, left, [MARKER]);
    forall p | p in left ensures p == [] || MayStand(w, origin, left, p) {
    }
  }

  lemma DeceptiveIsNotWhole(w: World, origin: Origin)
    requires ShipsMarker(w, origin) && !OnlyMarker(w, origin)
    ensures !Whole(Deceptive(w, origin), w, origin)
  {
    var raw, left := RawTree(w, origin), Deceptive(w, origin);
    assert IsMarked(left);
    if Fetch(w, origin).Content? {
      if IsFile(raw, [MARKER]) {
        MarkerAtTop(w, origin);
        MarkerIsBare(origin);
      } else {
        assert raw == WithRoot(UnzippedOf(w, origin).tree);
        WrapperIsGone(w, origin);
      }
    }
  }

  lemma MarkerIsBare(origin: Origin)
    ensures Bare(map[[] := Dir, [MARKER] := File("")], origin) == map[[] := Dir]
  {
    var left: Tree := map[[] := Dir, [MARKER] := File("")];
    assert [".git"][0] != [MARKER][0] by { assert |".git"| == 4 && |MARKER| == 15; }
    assert Remove(left, [".git"]) == left;
  }

  lemma ChildIs(tree: Tree, root: string, name: string)
    ensures [root, name] in tree ==> name in Children(tree, root)
  {
    var p := [root, name];
    assert p[0] == root && p[1] == name;
  }

  lemma WrapperIsGone(w: World, origin: Origin)
    requires origin.Marketplace? && Fetch(w, origin).Content? && ShipsMarker(w, origin) && !IsFile(RawTree(w, origin), [MARKER])
    ensures Bare(Fetch(w, origin).tree, origin) != Bare(Deceptive(w, origin), origin)
  {
    var raw := RawTree(w, origin);
    assert raw == WithRoot(UnzippedOf(w, origin).tree);
    var root :| root in TopNames(raw) && HasSingleRoot(raw, root) && IsFile(raw, [root, MARKER]);
    forall other | HasSingleRoot(raw, other) ensures other == root { assert other in TopNames(raw); }
    assert [root, MARKER][1] in Children(raw, root);
    assert root !in Children(raw, root) && root != MARKER;
    assert Fetch(w, origin).tree == Lifted(raw, root);
    SubAt(raw, [root], [root]);
    assert [root] + [root] == [root, root];
    ChildIs(raw, root, root);
    assert [root] !in Lifted(raw, root);
    assert [root] in Bare(Deceptive(w, origin), origin);
  }

  /** A first resolve is interrupted; the next one takes what is left for the whole. */
  ghost predicate Deceived(w: World, req: Request, fault: Fault) {
    var cut := Resolve(map[], w, req, fault).0;
    !Complete(cut, w, req) && Ensure(cut, w, req, Fault.NoFault) == (cut, true)
  }

  lemma ShippedMarkerDeceives(w: World, req: Request)
    requires !Crashproof(w, req.source.origin)
    ensures Deceived(w, req, Interrupted(Filling, Deceptive(w, req.source.origin), None))
  {
    var origin, dest := req.source.origin, CacheDir(req);
    var fault := Interrupted(Filling, Deceptive(w, origin), None);
    var none: Tree := map[];
    DeceptiveStands(w, origin);
    DeceptiveIsNotWhole(w, origin);
    assert Remove(none, dest) == none;
    UnobstructedAfterClearing(none, req);
    assert !Fetch(w, origin).Refused?;
    FillPuts(none, w, req, fault);
    var cut := Resolve(none, w, req, fault).0;
    assert cut == Put(Emptied(none, dest), req, fault, Deceptive(w, origin));
    PutHolds(Emptied(none, dest), req, fault, Deceptive(w, origin));
    MarkedIs(cut, dest);
  }

  /** Whatever disturbs it, a resolve keeps this entry complete. */
  ghost predicate StaysComplete(w: World, req: Request) {
    forall cache, fault :: Complete(cache, w, req) ==> Complete(Ensure(cache, w, req, fault).0, w, req)
  }

  /** Crash consistency of an entry holds exactly if the source ships no file that passes
      for the marker, or an archive ships nothing else. */
  lemma CrashproofExactly(w: World, req: Request)
    ensures StaysComplete(w, req) <==> Crashproof(w, req.source.origin)
  {
    if Crashproof(w, req.source.origin) {
      forall cache, fault | Complete(cache, w, req) ensures Complete(Ensure(cache, w, req, fault).0, w, req) {
        EnsureCompletes(cache, w, req, fault);
      }
    } else {
      ShippedMarkerDeceives(w, req);
      var none: Tree := map[];
      assert Complete(none, w, req);
      assert !Complete(Ensure(none, w, req, Interrupted(Filling, Deceptive(w, req.source.origin), None)).0, w, req);
    }
  }

  // ---------------------------------------------------------------- any sequence of resolves

  datatype Call = Call(req: Request, fault: Fault)

  ghost function Run(cache: Tree, w: World, calls: seq<Call>): Tree {
    if calls == [] then cache
    else
      var n := |calls| - 1;
      Resolve(Run(cache, w, calls[..n]), w, calls[n].req, calls[n].fault).0
  }

  ghost predicate AllComplete(cache: Tree, w: World, reqs: set<Request>) {
    forall req :: req in reqs ==> Complete(cache, w, req)
  }

  lemma ResolveKeepsComplete(cache: Tree, w: World, reqs: set<Request>, req: Request, fault: Fault)
    requires AllComplete(cache, w, reqs) && KeysInjective(reqs) && req in reqs && Crashproof(w, req.source.origin)
    ensures AllComplete(Resolve(cache, w, req, fault).0, w, reqs)
  {
    var after := Resolve(cache, w, req, fault).0;
    EnsureKeepsOthers(cache, w, req, fault);
    EnsureCompletes(cache, w, req, fault);
    forall other | other in reqs ensures Complete(after, w, other) {
      MarkedIs(after, CacheDir(other));
      if CacheDir(other) == CacheDir(req) {
        assert other.source.origin == req.source.origin;
      } else {
        assert StaysMarked(cache, after, CacheDir(other));
        assert Complete(cache, w, other);
      }
    }
  }

  /** Crash consistency: over any sequence of resolves, each disturbed anywhere, a marked
      entry holds the whole verified content. */
  lemma {:induction false} MarkedEntriesAreComplete(cache: Tree, w: World, calls: seq<Call>, reqs: set<Request>)
    requires AllComplete(cache, w, reqs) && KeysInjective(reqs)
    requires forall i :: 0 <= i < |calls| ==> calls[i].req in reqs && Crashproof(w, calls[i].req.source.origin)
    ensures AllComplete(Run(cache, w, calls), w, reqs)
    decreases |calls|
  {
    if calls != [] {
      var n := |calls| - 1;
      MarkedEntriesAreComplete(cache, w, calls[..n], reqs);
      ResolveKeepsComplete(Run(cache, w, calls[..n]), w, reqs, calls[n].req, calls[n].fault);
    }
  }

  /** An empty cache is where every history begins. */
  lemma EmptyIsComplete(w: World, reqs: set<Request>)
    ensures AllComplete(map[], w, reqs)
  {
  }

  // ---- the requested part

  /** The requested path, wherever it goes on the way, ends in the entry itself, and not in
      what does not count there. */
  predicate LeadsBack(req: Request, origin: Origin) {
    var dest, at := CacheDir(req), Walked(CacheDir(req), Names(req));
    !Absolute(req) && at.Some? && dest <= at.value && !Hidden(origin, at.value[|dest|..])
  }

  /** The marker is a file, so a path that goes through it leads nowhere. */
  predicate PassesMarker(req: Request) {
    !Absolute(req) && exists k :: 0 <= k <= |Names(req)| && StopsAtMarker(req, k)
  }

  predicate StopsAtMarker(req: Request, k: int)
    requires 0 <= k <= |Names(req)|
  {
    Walked(CacheDir(req), Names(req)[..k]) == Some(CacheDir(req) + [MARKER])
  }

  predicate Own(req: Request, origin: Origin) { LeadsBack(req, origin) || PassesMarker(req) }

  /** The requested path never leaves the entry, and never enters the repository's own directory. */
  predicate Contained(req: Request, origin: Origin) {
    && !Absolute(req) && Walked([], Names(req)).Some?
    && forall k :: 0 <= k <= |Names(req)| ==> !InGit(origin, Names(req)[..k])
  }

  predicate InGit(origin: Origin, names: Path) {
    origin.Git? && Walked([], names).Some? && [".git"] <= Walked([], names).value
  }

  lemma ContainedIsOwn(req: Request, origin: Origin)
    requires Contained(req, origin)
    ensures Own(req, origin)
  {
    var names := Names(req);
    WalkedBelow(CacheDir(req), names);
    assert names[..|names|] == names;
    assert !InGit(origin, names[..|names|]);
    if Walked([], names).value == [MARKER] { assert StopsAtMarker(req, |names|); }
  }

  /** The place is the requested part of the entry, and holds what that part of `tree` does;
      at the top, what counts of it. */
  ghost predicate Serves(cache: Tree, req: Request, origin: Origin, place: Place, tree: Tree) {
    var dest := CacheDir(req);
    && place.InCache? && dest <= place.path && Walked(dest, Names(req)) == Some(place.path)
    && var rel := place.path[|dest|..];
       && IsDir(tree, rel)
       && (rel != [] ==> Sub(cache, place.path) == Sub(tree, rel))
       && (rel == [] ==> Bare(Sub(cache, place.path), origin) == Bare(tree, origin))
  }

  lemma SameButHidden(a: Tree, b: Tree, origin: Origin, p: Path)
    requires Bare(a, origin) == Bare(b, origin) && !Hidden(origin, p)
    ensures SameAt(a, b, p)
  {
    BareAt(a, origin, p);
    BareAt(b, origin, p);
  }

  lemma EntryAt(cache: Tree, dest: Path, origin: Origin, tree: Tree, p: Path)
    requires Bare(Sub(cache, dest), origin) == Bare(tree, origin) && !Hidden(origin, p)
    ensures At(cache, dest + p) == At(tree, p)
  {
    SubIs(cache, dest, p);
    SameButHidden(Sub(cache, dest), tree, origin, p);
  }

  lemma PartAt(cache: Tree, place: Path, tree: Tree, rel: Path, q: Path)
    requires At(cache, place + q) == At(tree, rel + q)
    ensures At(Sub(cache, place), q) == At(Sub(tree, rel), q)
  {
    SubIs(cache, place, q);
    SubIs(tree, rel, q);
  }

  lemma Joined(a: Path, b: Path, c: Path)
    ensures a + b + c == a + (b + c)
  {
  }

  /** The part of an entry at `rel`. */
  lemma PartOfEntry(cache: Tree, dest: Path, origin: Origin, rel: Path, tree: Tree)
    requires Bare(Sub(cache, dest), origin) == Bare(tree, origin) && !Hidden(origin, rel)
    ensures IsDir(cache, dest + rel) <==> IsDir(tree, rel)
    ensures rel != [] ==> Sub(cache, dest + rel) == Sub(tree, rel)
  {
    EntryAt(cache, dest, origin, tree, rel);
    if rel != [] {
      forall q ensures At(Sub(cache, dest + rel), q) == At(Sub(tree, rel), q) {
        NotHiddenBelow(origin, rel, rel + q);
        EntryAt(cache, dest, origin, tree, rel + q);
        Joined(dest, rel, q);
        PartAt(cache, dest + rel, tree, rel, q);
      }
      SameNodes(Sub(cache, dest + rel), Sub(tree, rel));
    }
  }

  lemma NotHiddenBelow(origin: Origin, rel: Path, p: Path)
    requires rel != [] && rel <= p && !Hidden(origin, rel)
    ensures !Hidden(origin, p)
  {
    if |p| == 1 {
      assert rel == p;
    } else {
      assert rel[0] == p[0];
    }
  }

  /** What is found for a request that ends in its entry is the entry's part. */
  lemma OwnIsServed(cache: Tree, w: World, req: Request, origin: Origin, tree: Tree)
    requires Own(req, origin) && Marked(cache, CacheDir(req))
    requires Bare(Sub(cache, CacheDir(req)), origin) == Bare(tree, origin)
    ensures Found(cache, w, req).Some? ==> Serves(cache, req, origin, Found(cache, w, req).value, tree)
  {
    var dest, names := CacheDir(req), Names(req);
    if Found(cache, w, req).Some? {
      assert Passable(cache, dest, names);
      NotThroughMarker(cache, req);
      var at := Walked(dest, names).value;
      var rel := at[|dest|..];
      assert at == dest + rel;
      assert PassableAt(cache, dest, names[..|names|]) && names[..|names|] == names;
      PartOfEntry(cache, dest, origin, rel, tree);
      assert rel == [] ==> at == dest;
    }
  }

  lemma NotThroughMarker(cache: Tree, req: Request)
    requires Marked(cache, CacheDir(req)) && Passable(cache, CacheDir(req), Names(req))
    ensures !PassesMarker(req)
  {
    forall k | 0 <= k <= |Names(req)| ensures !StopsAtMarker(req, k) {
      assert PassableAt(cache, CacheDir(req), Names(req)[..k]);
    }
  }

  /** A contained request is answered exactly if the content has the part. */
  lemma ContainedIsFound(cache: Tree, w: World, req: Request, origin: Origin, tree: Tree)
    requires Contained(req, origin) && Marked(cache, CacheDir(req)) && !IsDir(tree, [MARKER])
    requires Bare(Sub(cache, CacheDir(req)), origin) == Bare(tree, origin)
    ensures Found(cache, w, req).Some? <==> Passable(tree, [], Names(req))
  {
    var dest, names := CacheDir(req), Names(req);
    WalkedBelow(dest, names);
    forall k | 0 <= k <= |names| ensures PassableAt(cache, dest, names[..k]) <==> PassableAt(tree, [], names[..k]) {
      WalkedPrefix([], names, k);
      WalkedBelow(dest, names[..k]);
      var rel := Walked([], names[..k]).value;
      assert !InGit(origin, names[..k]);
      if rel != [MARKER] { PartOfEntry(cache, dest, origin, rel, tree); }
    }
  }

  /** Transparency: after any history, what a resolve returns is the part that was asked for
      of the freshly fetched content, which has such a part. */
  lemma ResolveIsTransparent(w: World, calls: seq<Call>, reqs: set<Request>, req: Request, fault: Fault)
    requires KeysInjective(reqs) && req in reqs && Crashproof(w, req.source.origin)
    requires forall i :: 0 <= i < |calls| ==> calls[i].req in reqs && Crashproof(w, calls[i].req.source.origin)
    requires Own(req, req.source.origin)
    ensures
      var fetched := Fetch(w, req.source.origin);
      var (after, place) := Resolve(Run(map[], w, calls), w, req, fault);
      place.Some? ==> fetched.Content? && Serves(after, req, req.source.origin, place.value, fetched.tree)
  {
    var before := Run(map[], w, calls);
    EmptyIsComplete(w, reqs);
    MarkedEntriesAreComplete(map[], w, calls, reqs);
    EnsureCompletes(before, w, req, fault);
    if Resolve(before, w, req, fault).1.Some? { EntryServes(Resolve(before, w, req, fault).0, w, req); }
  }

  lemma EntryServes(cache: Tree, w: World, req: Request)
    requires Marked(cache, CacheDir(req)) && Complete(cache, w, req) && Own(req, req.source.origin)
    ensures
      var fetched := Fetch(w, req.source.origin);
      && fetched.Content?
      && (Found(cache, w, req).Some? ==> Serves(cache, req, req.source.origin, Found(cache, w, req).value, fetched.tree))
  {
    MarkedIs(cache, CacheDir(req));
    OwnIsServed(cache, w, req, req.source.origin, Fetch(w, req.source.origin).tree);
  }

  // ---- requests that end elsewhere

  /** Whatever is in the cache, a directory that is returned lies in the entry. */
  ghost predicate AlwaysOwn(req: Request) {
    forall cache, w, fault :: ReturnsOwn(cache, w, req, fault)
  }

  ghost predicate ReturnsOwn(cache: Tree, w: World, req: Request, fault: Fault) {
    var dest, place := CacheDir(req), Resolve(cache, w, req, fault).1;
    place.Some? ==>
      && place.value.InCache? && dest <= place.value.path
      && !Hidden(req.source.origin, place.value.path[|dest|..])
  }

  lemma EnsureMarks(cache: Tree, w: World, req: Request, fault: Fault)
    requires Ensure(cache, w, req, fault).1
    ensures Marked(Ensure(cache, w, req, fault).0, CacheDir(req))
  {
    var dest := CacheDir(req);
    if Refills(cache, dest, fault) {
      var cleared := Remove(cache, dest);
      EnsureRefills(cache, w, req, fault);
      if !Reaches(cleared, req, fault) || Fetch(w, req.source.origin).Refused? {
        FillOtherwise(cleared, w, req, fault);
      } else {
        FillPuts(cleared, w, req, fault);
        PutHolds(Emptied(cleared, dest), req, fault, Filled(w, req, fault));
        FilledIsMarked(w, req, fault);
      }
    } else {
      EnsureOtherwise(cache, w, req, fault);
    }
  }

  /** A cache in which the requested path can be followed. */
  function Trodden(req: Request): Tree {
    (map p | p in Stops(req) :: Dir)[CacheDir(req) + [MARKER] := File("")]
  }

  function Stops(req: Request): set<Path> {
    set k | 0 <= k <= |Names(req)| && Walked(CacheDir(req), Names(req)[..k]).Some? ::
      Walked(CacheDir(req), Names(req)[..k]).value
  }

  lemma TroddenIsPassable(req: Request)
    requires !PassesMarker(req)
    ensures Marked(Trodden(req), CacheDir(req))
    ensures !Absolute(req) ==> Passable(Trodden(req), CacheDir(req), Names(req))
  {
    var dest, names := CacheDir(req), Names(req);
    assert Walked(dest, names[..0]) == Some(dest);
    assert dest in Stops(req);
    forall k | 0 <= k <= |names| && !Absolute(req) ensures PassableAt(Trodden(req), dest, names[..k]) {
      assert !StopsAtMarker(req, k);
      assert Walked(dest, names[..k]).Some? ==> Walked(dest, names[..k]).value in Stops(req);
    }
  }

  /** A directory that is returned lies in the request's own entry for sure exactly if the
      requested path ends there, or leads nowhere. */
  lemma OwnExactly(req: Request)
    ensures AlwaysOwn(req) <==> Own(req, req.source.origin)
  {
    if Own(req, req.source.origin) {
      forall cache, w, fault ensures ReturnsOwn(cache, w, req, fault) {
        if Ensure(cache, w, req, fault).1 && Found(Ensure(cache, w, req, fault).0, w, req).Some? {
          EnsureMarks(cache, w, req, fault);
          OwnIsFoundThere(Ensure(cache, w, req, fault).0, w, req);
        }
      }
    } else {
      var w := World((slug, version, kind) => Artifact("", ""), (signature, data) => false, data => UnsafeZip,
                     tree => {}, (url, gitRef) => CheckoutFails(map[]), sub => true);
      TroddenIsPassable(req);
      assert !ReturnsOwn(Trodden(req), w, req, Fault.NoFault);
    }
  }

  lemma OwnIsFoundThere(cache: Tree, w: World, req: Request)
    requires Own(req, req.source.origin) && Marked(cache, CacheDir(req)) && Found(cache, w, req).Some?
    ensures
      var place := Found(cache, w, req).value;
      && place.InCache? && CacheDir(req) <= place.path
      && !Hidden(req.source.origin, place.path[|CacheDir(req)|..])
  {
    assert Passable(cache, CacheDir(req), Names(req));
    NotThroughMarker(cache, req);
  }

  /** Two requests for one item at different refs; the first asks for the parent of its entry. */
  function ParentOf(id: string, url: string, gitRef: string): Request {
    Request(id, PluginSource(Git(url, gitRef), Some("..")))
  }

  /** What an undisturbed first resolve of a git source leaves. */
  lemma GitFilled(cache: Tree, w: World, req: Request)
    requires req.source.origin.Git? && Fetch(w, req.source.origin).Content?
    requires CacheDir(req) !in cache && !ParentsBlocked(cache, CacheDir(req))
    ensures
      var dest := CacheDir(req);
      var (after, ok) := Ensure(cache, w, req, Fault.NoFault);
      && ok && Marked(after, dest)
      && forall p :: !(dest <= p) ==> SameAt(after, WithParents(Remove(cache, dest), dest), p)
  {
    var dest, none := CacheDir(req), Fault.NoFault;
    var cleared := Remove(cache, dest);
    EnsureRefills(cache, w, req, none);
    forall k | 0 <= k < |dest| ensures !IsFile(cleared, dest[..k]) { assert !IsFile(cache, dest[..k]); }
    FillPuts(cleared, w, req, none);
    EnsureMarks(cache, w, req, none);
    var content := Filled(w, req, none);
    forall p | !(dest <= p) ensures SameAt(Ensure(cache, w, req, none).0, WithParents(cleared, dest), p) {
      GraftAt(WithParents(cleared, dest), dest, map[[] := Dir], p);
      GraftAt(Emptied(cleared, dest), dest, content, p);
    }
  }

  lemma ParentIsFound(cache: Tree, w: World, id: string, url: string, gitRef: string)
    requires Marked(cache, CacheDir(ParentOf(id, url, gitRef))) && IsDir(cache, [id])
    ensures Found(cache, w, ParentOf(id, url, gitRef)) == Some(InCache([id]))
  {
    var req := ParentOf(id, url, gitRef);
    var dest := CacheDir(req);
    assert PathOf("..") == [".."] by { assert ".."[..2] == ".."; }
    assert Names(req) == [".."];
    assert [".."][..0] == [] && [".."][..1] == [".."];
    assert Walked(dest, []) == Some(dest) && dest[..|dest| - 1] == [id];
    assert Walked(dest, [".."]) == Some([id]);
    assert PassableAt(cache, dest, [".."][..0]) && PassableAt(cache, dest, [".."][..1]);
  }

  /** With the same sources, asking for the parent of an entry returns one content after one
      history and another after another. */
  lemma ParentShowsHistory(w: World, id: string, url: string, a: string, b: string)
    requires SafeRefDirname(a) != SafeRefDirname(b)
    requires Fetch(w, Git(url, a)).Content? && Fetch(w, Git(url, b)).Content?
    ensures
      var req, other := ParentOf(id, url, a), Request(id, PluginSource(Git(url, b), None));
      var (one, place) := Resolve(Run(map[], w, []), w, req, Fault.NoFault);
      var (two, place') := Resolve(Run(map[], w, [Call(other, Fault.NoFault)]), w, req, Fault.NoFault);
      place == place' == Some(InCache([id])) && Sub(one, [id]) != Sub(two, [id])
  {
    var req, other := ParentOf(id, url, a), Request(id, PluginSource(Git(url, b), None));
    var none: Tree := map[];
    var before := Ensure(none, w, other, Fault.NoFault).0;
    FirstOfTwo(w, req, other);
    assert [Call(other, Fault.NoFault)][..0] == [];
    assert Run(none, w, [Call(other, Fault.NoFault)]) == before;
    ParentIsFound(Ensure(none, w, req, Fault.NoFault).0, w, id, url, a);
    ParentIsFound(Ensure(before, w, req, Fault.NoFault).0, w, id, url, a);
    var name := CacheName(other.source.origin);
    assert [id] + [name] == CacheDir(other);
    SubAt(Ensure(none, w, req, Fault.NoFault).0, [id], [name]);
    SubAt(Ensure(before, w, req, Fault.NoFault).0, [id], [name]);
  }

  lemma PairNotBlocked(cache: Tree, dest: Path)
    requires |dest| == 2 && !IsFile(cache, []) && !IsFile(cache, [dest[0]])
    ensures !ParentsBlocked(cache, dest)
  {
    assert dest[..0] == [] && dest[..1] == [dest[0]];
  }

  lemma PairWithParents(cache: Tree, dest: Path, other: Path)
    requires |dest| == 2 && |other| == 2 && other != dest && !IsFile(cache, []) && !IsFile(cache, [dest[0]])
    ensures
      var ready := WithParents(Remove(cache, dest), dest);
      IsDir(ready, [dest[0]]) && !IsFile(ready, []) && SameAt(cache, ready, other)
  {
    var cleared := Remove(cache, dest);
    WithParentsAt(cleared, dest, []);
    WithParentsAt(cleared, dest, [dest[0]]);
    WithParentsAt(cleared, dest, other);
    CacheDirsApart(dest, other);
  }

  /** A new entry, and another one that it leaves alone. */
  lemma EntryMade(cache: Tree, w: World, req: Request, other: Path)
    requires req.source.origin.Git? && Fetch(w, req.source.origin).Content?
    requires CacheDir(req) !in cache && !IsFile(cache, []) && !IsFile(cache, [req.id])
    requires |other| == 2 && other != CacheDir(req)
    ensures
      var (after, ok) := Ensure(cache, w, req, Fault.NoFault);
      && ok && Marked(after, CacheDir(req)) && IsDir(after, [req.id]) && !IsFile(after, [])
      && SameAt(cache, after, other)
  {
    var dest := CacheDir(req);
    var after := Ensure(cache, w, req, Fault.NoFault).0;
    var ready := WithParents(Remove(cache, dest), dest);
    PairNotBlocked(cache, dest);
    PairWithParents(cache, dest, other);
    GitFilled(cache, w, req);
    CacheDirsApart(dest, other);
    assert SameAt(after, ready, []) && SameAt(after, ready, [req.id]) && SameAt(after, ready, other);
  }

  lemma FirstOfTwo(w: World, req: Request, other: Request)
    requires req.id == other.id && CacheDir(req) != CacheDir(other)
    requires req.source.origin.Git? && Fetch(w, req.source.origin).Content?
    requires other.source.origin.Git? && Fetch(w, other.source.origin).Content?
    ensures
      var one := Ensure(map[], w, req, Fault.NoFault);
      && one.1 && Marked(one.0, CacheDir(req)) && IsDir(one.0, [req.id]) && CacheDir(other) !in one.0
    ensures
      var two := Ensure(Ensure(map[], w, other, Fault.NoFault).0, w, req, Fault.NoFault);
      && two.1 && Marked(two.0, CacheDir(req)) && IsDir(two.0, [req.id]) && CacheDir(other) in two.0
  {
    EntryMade(map[], w, req, CacheDir(other));
    EntryMade(map[], w, other, CacheDir(req));
    EntryMade(Ensure(map[], w, other, Fault.NoFault).0, w, req, CacheDir(other));
  }

  // ---------------------------------------------------------------- when a resolve succeeds

  /** The archive is never stored under the name of the entry itself. */
  lemma {:induction false} ZipIsNotEntry(version: string)
    ensures "mkt-" + version != version + ".zip"
    decreases |version|
  {
    var a, b := "mkt-" + version, version + ".zip";
    if |version| < 4 {
      assert b[|version|] == '.' && a[|version|] == "mkt-"[|version|];
    } else if a == b {
      var rest := version[4..];
      assert version[..4] == b[..4] == a[..4] == "mkt-";
      assert version == "mkt-" + rest;
      assert a[4..] == version && b[4..] == rest + ".zip";
      ZipIsNotEntry(rest);
    }
  }

  /** No file or directory is where something else has to go. */
  predicate Unobstructed(cache: Tree, req: Request) {
    !IsFile(cache, CacheDir(req)) && !ParentsBlocked(cache, CacheDir(req)) && !ZipBlocked(cache, req)
  }

  lemma UnobstructedAfterClearing(cache: Tree, req: Request)
    requires Unobstructed(cache, req)
    ensures !ParentsBlocked(Remove(cache, CacheDir(req)), CacheDir(req))
    ensures !ZipBlocked(Emptied(Remove(cache, CacheDir(req)), CacheDir(req)), req)
  {
    var dest := CacheDir(req);
    var cleared := Remove(cache, dest);
    forall k | 0 <= k < |dest| ensures !IsFile(cleared, dest[..k]) { assert !IsFile(cache, dest[..k]); }
    if req.source.origin.Marketplace? {
      var version := SafeRefDirname(req.source.origin.version);
      var zip := ZipPath(req.id, req.source.origin.version);
      ZipIsNotEntry(version);
      assert zip[1] == version + ".zip" && dest[1] == "mkt-" + version;
      CacheDirsApart(dest, zip);
      WithParentsAt(cleared, dest, zip);
      GraftAt(WithParents(cleared, dest), dest, map[[] := Dir], zip);
    }
  }

  /** An undisturbed resolve of a contained request succeeds exactly if the source has usable
      content, properly signed where it must be, with the part that was asked for. */
  lemma ResolvesExactly(cache: Tree, w: World, req: Request)
    requires Complete(cache, w, req) && Unobstructed(cache, req) && Contained(req, req.source.origin)
    ensures
      var fetched := Fetch(w, req.source.origin);
      var (after, place) := Resolve(cache, w, req, Fault.NoFault);
      && (place.Some? <==> fetched.Content? && Passable(fetched.tree, [], Names(req)))
      && (place.Some? ==> Serves(after, req, req.source.origin, place.value, fetched.tree))
  {
    var filled := Ensure(cache, w, req, Fault.NoFault).0;
    UndisturbedEnsure(cache, w, req);
    if Ensure(cache, w, req, Fault.NoFault).1 {
      MarkedIs(filled, CacheDir(req));
      ContentIsRooted(w, req.source.origin);
      ContainedIsOwn(req, req.source.origin);
      ContainedIsFound(filled, w, req, req.source.origin, Fetch(w, req.source.origin).tree);
      EntryServes(filled, w, req);
    }
  }

  lemma UndisturbedEnsure(cache: Tree, w: World, req: Request)
    requires Complete(cache, w, req) && Unobstructed(cache, req)
    ensures
      var (after, ok) := Ensure(cache, w, req, Fault.NoFault);
      && (ok <==> Fetch(w, req.source.origin).Content?)
      && (ok ==> Marked(after, CacheDir(req)) && Complete(after, w, req))
  {
    var dest, none := CacheDir(req), Fault.NoFault;
    if Marked(cache, dest) {
      EnsureOtherwise(cache, w, req, none);
      MarkedIs(cache, dest);
    } else {
      EnsureRefills(cache, w, req, none);
      UnobstructedAfterClearing(cache, req);
      UndisturbedFill(Remove(cache, dest), w, req);
    }
  }

  lemma UndisturbedFill(cache: Tree, w: World, req: Request)
    requires Reaches(cache, req, Fault.NoFault) && !Marked(cache, CacheDir(req))
    ensures
      var (after, ok) := Fill(cache, w, req, Fault.NoFault);
      && (ok <==> Fetch(w, req.source.origin).Content?)
      && (ok ==> Marked(after, CacheDir(req)) && Complete(after, w, req))
  {
    if Fetch(w, req.source.origin).Content? {
      FillPuts(cache, w, req, Fault.NoFault);
      ContentIsWhole(w, req);
      FillCompletes(cache, w, req, Fault.NoFault);
    } else if Fetch(w, req.source.origin).Refused? {
      FillOtherwise(cache, w, req, Fault.NoFault);
    } else {
      FillPuts(cache, w, req, Fault.NoFault);
    }
  }

  lemma ContentIsWhole(w: World, req: Request)
    requires Fetch(w, req.source.origin).Content?
    ensures Whole(Filled(w, req, Fault.NoFault), w, req.source.origin)
  {
    LateComesOff(Fetch(w, req.source.origin).tree, req.source.origin, Fault.NoFault, MarkerText(req, Fault.NoFault));
  }

  // ---------------------------------------------------------------- when keys collide

  predicate SlashLike(c: char) { c == '/' || c == '_' }

  /** Refs and versions share a name exactly when they differ at most in `/` against `_`. */
  lemma SafeRefDirnameCollides(a: string, b: string)
    ensures SafeRefDirname(a) == SafeRefDirname(b) <==>
      |a| == |b| && forall i :: 0 <= i < |a| ==> a[i] == b[i] || (SlashLike(a[i]) && SlashLike(b[i]))
  {
    var x, y := SafeRefDirname(a), SafeRefDirname(b);
    if x == y {
      forall i | 0 <= i < |a| ensures a[i] == b[i] || (SlashLike(a[i]) && SlashLike(b[i])) {
        assert x[i] == y[i];
      }
    }
  }

  predicate OriginsCollide(a: Origin, b: Origin) {
    match (a, b)
    case (Marketplace(_, v, _), Marketplace(_, v', _)) => SafeRefDirname(v) == SafeRefDirname(v')
    case (Git(_, r), Git(_, r')) => SafeRefDirname(r) == SafeRefDirname(r')
    case (Marketplace(_, v, _), Git(_, r)) => "mkt-" + SafeRefDirname(v) == SafeRefDirname(r)
    case (Git(_, r), Marketplace(_, v, _)) => "mkt-" + SafeRefDirname(v) == SafeRefDirname(r)
  }

  /** Which requests share a cache directory: the slug, the kind and the url play no part,
      and a git ref can look like a marketplace version. */
  lemma CacheDirsCollide(a: Request, b: Request)
    ensures CacheDir(a) == CacheDir(b) <==> a.id == b.id && OriginsCollide(a.source.origin, b.source.origin)
  {
    var x, y := CacheDir(a), CacheDir(b);
    assert x == y <==> x[0] == y[0] && x[1] == y[1];
    if a.source.origin.Marketplace? && b.source.origin.Marketplace? {
      var v, v' := SafeRefDirname(a.source.origin.version), SafeRefDirname(b.source.origin.version);
      assert ("mkt-" + v)[4..] == v && ("mkt-" + v')[4..] == v';
    }
  }

  /** A second request for a directory that another one has filled is answered from the first
      one's content: with the part it asks for of that, if there is one. So, unless a rest of
      a repository's own directory tells them apart, the entry is right for both exactly when
      both fetch the same. */
  lemma SharedDirectoryServesFirst(cache: Tree, w: World, first: Request, second: Request, fault: Fault)
    requires CacheDir(first) == CacheDir(second) && Marked(cache, CacheDir(first)) && Complete(cache, w, first)
    requires Contained(second, first.source.origin)
    ensures
      var one, two := Fetch(w, first.source.origin), Fetch(w, second.source.origin);
      var (after, place) := Resolve(cache, w, second, fault);
      && after == cache && one.Content?
      && (place.Some? <==> Passable(one.tree, [], Names(second)))
      && (place.Some? ==> Serves(after, second, first.source.origin, place.value, one.tree))
      && (first.source.origin.Git? == second.source.origin.Git? ==>
            (Complete(after, w, second) <==>
               two.Content? && Bare(two.tree, second.source.origin) == Bare(one.tree, second.source.origin)))
  {
    MarkedIs(cache, CacheDir(first));
    var one := Fetch(w, first.source.origin).tree;
    ContentIsRooted(w, first.source.origin);
    ContainedIsOwn(second, first.source.origin);
    OwnIsServed(cache, w, second, first.source.origin, one);
    ContainedIsFound(cache, w, second, first.source.origin, one);
  }

  /** Two branches whose names differ in one character share a directory. */
  lemma CollisionExample(id: string, url: string)
    ensures
      var a := Request(id, PluginSource(Git(url, "a/b"), None));
      var b := Request(id, PluginSource(Git(url, "a_b"), None));
      CacheDir(a) == CacheDir(b) && a.source.origin != b.source.origin
  {
    SafeRefDirnameCollides("a/b", "a_b");
    assert "a/b"[1] != "a_b"[1];
  }
}
