/** The resolver as it works on its cache: directories are wiped, filled, flattened and
    marked in place. */
module PluginFetcher {
  import opened Wrappers
  import opened FileTree
  import opened InstallSchema
  import opened PluginResolver

  // ---------------------------------------------------------------- flattening

  /** Where each node comes from while the children in `done` have moved up out of `root`. */
  function HalfLiftedFrom(start: Tree, root: string, done: set<string>, p: Path): Option<Node> {
    if p != [] && p[0] in done then At(start, [root] + p)
    else if |p| >= 2 && p[0] == root && p[1] in done then None
    else At(start, p)
  }

  ghost predicate HalfLifted(start: Tree, now: Tree, root: string, done: set<string>) {
    forall p :: At(now, p) == HalfLiftedFrom(start, root, done, p)
  }

  function MoveUp(tree: Tree, root: string, child: string): Tree {
    Remove(Graft(tree, [child], Sub(tree, [root, child])), [root, child])
  }

  lemma MoveUpAt(tree: Tree, root: string, child: string, p: Path)
    requires root != child
    ensures At(MoveUp(tree, root, child), p) ==
      if [child] <= p then At(tree, [root] + p) else if [root, child] <= p then None else At(tree, p)
  {
    var sub := Sub(tree, [root, child]);
    var grafted := Graft(tree, [child], sub);
    GraftAt(tree, [child], sub, p);
    assert At(MoveUp(tree, root, child), p) == if [root, child] <= p then None else At(grafted, p);
    if [child] <= p {
      BelowChild(child, p);
      SubAt(tree, [root, child], p[1..]);
      assert [root, child] + p[1..] == [root] + p;
      assert !([root, child] <= p);
    }
  }

  lemma BelowChild(child: string, p: Path)
    requires [child] <= p
    ensures p[0] == child && p == [child] + p[1..] && p[|[child]|..] == p[1..]
  {
  }

  lemma LiftOne(start: Tree, now: Tree, root: string, done: set<string>, child: string)
    requires HalfLifted(start, now, root, done)
    requires TopNames(start) == {root} && root !in done && child !in done && child != root
    ensures HalfLifted(start, MoveUp(now, root, child), root, done + {child})
  {
    var next := MoveUp(now, root, child);
    forall p ensures At(next, p) == HalfLiftedFrom(start, root, done + {child}, p) {
      MoveUpAt(now, root, child, p);
      if [child] <= p {
        assert At(now, [root] + p) == HalfLiftedFrom(start, root, done, [root] + p);
      } else {
        assert At(now, p) == HalfLiftedFrom(start, root, done, p);
        assert [root, child] <= p <==> |p| >= 2 && p[0] == root && p[1] == child;
      }
    }
  }

  lemma AllLifted(start: Tree, now: Tree, root: string)
    requires HalfLifted(start, now, root, Children(start, root))
    requires HasSingleRoot(start, root) && IsDir(start, []) && root !in Children(start, root)
    ensures Children(now, root) == {}
    ensures Remove(now, [root]) == Lifted(start, root)
  {
    var children := Children(start, root);
    forall p ensures !(p in now && |p| >= 2 && p[0] == root) {
      assert At(now, p) == HalfLiftedFrom(start, root, children, p);
    }
    forall p ensures SameAt(Remove(now, [root]), Lifted(start, root), p) {
      assert At(now, p) == HalfLiftedFrom(start, root, children, p);
      SubAt(start, [root], p);
      if p != [] {
        if [root] + p in start { assert ([root] + p)[1] == p[0]; }
        if p in start { assert p[0] in TopNames(start); }
      }
    }
    SameEverywhere(Remove(now, [root]), Lifted(start, root));
  }

  lemma SomeLifted(start: Tree, now: Tree, root: string, done: set<string>)
    requires HalfLifted(start, now, root, done) && TopNames(start) == {root} && root !in done
    ensures now == LiftedSome(start, root, done)
  {
    forall p ensures SameAt(now, LiftedSome(start, root, done), p) {
      assert At(now, p) == HalfLiftedFrom(start, root, done, p);
      SubAt(start, [root], p);
      if p in start && p != [] { assert p[0] in TopNames(start); }
    }
    SameEverywhere(now, LiftedSome(start, root, done));
  }

  lemma FlattenedIs(tree: Tree, root: string, early: set<string>)
    requires HasSingleRoot(tree, root)
    ensures Flattened(tree, early) ==
      if root in Children(tree, root) then (LiftedSome(tree, root, MovedFirst(tree, root, early)), false)
      else (Lifted(tree, root), true)
  {
    forall other | HasSingleRoot(tree, other) ensures other == root {
      assert other in TopNames(tree);
    }
  }

  lemma NothingToFlatten(tree: Tree, early: set<string>)
    requires forall root :: !HasSingleRoot(tree, root)
    ensures Flattened(tree, early) == (tree, true)
  {
  }

  lemma SeveralEntries(tree: Tree, early: set<string>)
    requires |TopNames(tree)| != 1
    ensures Flattened(tree, early) == (tree, true)
  {
    forall root ensures !HasSingleRoot(tree, root) {
      assert |{root}| == 1;
    }
    NothingToFlatten(tree, early);
  }

  lemma OneFile(tree: Tree, root: string, early: set<string>)
    requires TopNames(tree) == {root} && !IsDir(tree, [root])
    ensures Flattened(tree, early) == (tree, true)
  {
    forall other ensures !HasSingleRoot(tree, other) {
      assert root in TopNames(tree);
    }
    NothingToFlatten(tree, early);
  }

  /** `flatten_single_root`; false where it raises. */
  method FlattenSingleRoot(start: Tree, early: set<string>) returns (tree: Tree, ok: bool)
    requires IsDir(start, [])
    ensures (tree, ok) == Flattened(start, early)
  {
    tree, ok := start, true;
    var entries := TopNames(tree);
    if |entries| != 1 {
      SeveralEntries(start, early);
      return;
    }
    var root :| root in entries;
    SingletonHolds(entries, root);
    if !IsDir(tree, [root]) {
      OneFile(start, root, early);
      return;
    }
    FlattenedIs(start, root, early);
    tree, ok := LiftChildren(start, root, early);
    if ok {
      tree := Remove(tree, [root]);
    }
  }

  /** The loop over the children, in any order; a child named like the root cannot be moved. */
  method LiftChildren(start: Tree, root: string, early: set<string>) returns (tree: Tree, ok: bool)
    requires HasSingleRoot(start, root) && IsDir(start, [])
    ensures ok <==> root !in Children(start, root)
    ensures ok ==> Children(tree, root) == {} && Remove(tree, [root]) == Lifted(start, root)
    ensures !ok ==> tree == LiftedSome(start, root, MovedFirst(start, root, early))
  {
    tree := start;
    var children := Children(start, root);
    ok := root !in children;
    var first := if ok then children else MovedFirst(start, root, early);
    var todo := first;
    while todo != {}
      invariant todo <= first && root !in first
      invariant HalfLifted(start, tree, root, first - todo)
      decreases todo
    {
      var child :| child in todo;
      LiftOne(start, tree, root, first - todo, child);
      tree := MoveUp(tree, root, child);
      assert first - (todo - {child}) == (first - todo) + {child};
      todo := todo - {child};
    }
    assert first - todo == first;
    if ok {
      AllLifted(start, tree, root);
    } else {
      SomeLifted(start, tree, root, first);
    }
  }

  lemma SingletonHolds(entries: set<string>, root: string)
    requires |entries| == 1 && root in entries
    ensures entries == {root}
  {
    assert |entries - {root}| == 0;
  }

  // ---------------------------------------------------------------- the resolver

  /** The archive that was stored for a moment leaves no trace. */
  lemma ZipLeavesNoTrace(cache: Tree, req: Request, data: Bytes, content: Tree)
    requires IsDir(cache, CacheDir(req)) && !ZipBlocked(cache, req)
    ensures WithoutZip(Graft(WithZip(cache, req, data), CacheDir(req), content), req) ==
            Graft(WithoutZip(cache, req), CacheDir(req), content)
  {
    if req.source.origin.Marketplace? {
      var dest, zip := CacheDir(req), ZipPath(req.id, req.source.origin.version);
      var stored := WithZip(cache, req, data);
      var left, right := WithoutZip(Graft(stored, dest, content), req), Graft(WithoutZip(cache, req), dest, content);
      forall p ensures SameAt(left, right, p) {
        GraftAt(stored, dest, content, p);
        GraftAt(Remove(cache, zip), dest, content, p);
        if dest <= p && zip <= p { PrefixesCompare(dest, zip, p); CacheDirsApart(dest, zip); }
      }
      SameEverywhere(left, right);
    }
  }

  class Resolver {
    const w: World
    /** Whether a marketplace client and the signer's secret were configured. */
    const configured: bool
    var cache: Tree

    constructor (w: World, configured: bool, cache: Tree)
      ensures this.w == w && this.configured == configured && this.cache == cache
    {
      this.w, this.configured, this.cache := w, configured, cache;
    }

    /** `resolve`: none where the original raises. */
    method ResolveSource(req: Request, fault: Fault) returns (r: Option<Place>)
      modifies this`cache
      ensures
        if req.source.origin.Marketplace? && !configured then r.None? && cache == old(cache)
        else (cache, r) == Resolve(old(cache), w, req, fault)
    {
      var ok;
      if req.source.origin.Marketplace? {
        if !configured {
          return None;
        }
        ok := EnsureMarketplace(req, fault);
      } else {
        ok := EnsureGit(req, fault);
      }
      if !ok {
        return None;
      }
      r := Directory(req);
    }

    /** The last lines of `_resolve_marketplace` and `_resolve_git`. */
    method Directory(req: Request) returns (r: Option<Place>)
      ensures r == Found(cache, w, req)
    {
      if Absolute(req) {
        return if IsBeyond(w, req) then Some(Beyond) else None;
      }
      if !Passable(cache, CacheDir(req), Names(req)) {
        return None;
      }
      var at := Walked(CacheDir(req), Names(req));
      if at.None? {
        return if IsBeyond(w, req) then Some(Beyond) else None;
      }
      r := Some(InCache(at.value));
    }

    /** `shutil.rmtree` of a directory without marker; an interrupted one leaves a rest. */
    method Clear(dest: Path, fault: Fault) returns (ok: bool)
      requires !Marked(cache, dest)
      modifies this`cache
      ensures ok <==> !IsFile(old(cache), dest) && !(dest in old(cache) && Strikes(fault, Removing))
      ensures ok ==> cache == Remove(old(cache), dest)
      ensures !ok && IsFile(old(cache), dest) ==> cache == old(cache)
      ensures !ok && !IsFile(old(cache), dest) ==> cache == Graft(old(cache), dest, Rest(Sub(old(cache), dest), fault.left))
    {
      if dest in cache {
        if cache[dest].File? {
          return false;
        }
        if Strikes(fault, Removing) {
          cache := Graft(cache, dest, Rest(Sub(cache, dest), fault.left));
          return false;
        }
      }
      cache := Remove(cache, dest);
      ok := true;
    }

    /** The part of `_resolve_marketplace` that makes sure of a marked directory. */
    method EnsureMarketplace(req: Request, fault: Fault) returns (ok: bool)
      requires req.source.origin.Marketplace?
      modifies this`cache
      ensures (cache, ok) == Ensure(old(cache), w, req, fault)
    {
      if Marked(cache, CacheDir(req)) {
        return true;
      }
      ok := Clear(CacheDir(req), fault);
      if ok {
        ok := Download(req, fault);
      }
    }

    /** Fetch, verify, unpack, flatten, and mark last. */
    method Download(req: Request, fault: Fault) returns (ok: bool)
      requires req.source.origin.Marketplace?
      modifies this`cache
      ensures (cache, ok) == Fill(old(cache), w, req, fault)
    {
      var Marketplace(slug, version, kind) := req.source.origin;
      if Strikes(fault, Fetching) {
        return false;
      }
      var artifact := w.artifact(slug, version, kind);
      if !w.genuine(artifact.signature, artifact.data) || ParentsBlocked(cache, CacheDir(req)) {
        return false;
      }
      EmptiedIsDir(cache, CacheDir(req));
      cache := Emptied(cache, CacheDir(req));
      if ZipBlocked(cache, req) {
        return false;
      }
      ghost var ready := cache;
      ok := Unzip(req, artifact.data, fault);
      if ok {
        ok := Mark(ready, req, fault);
      } else {
        NeverMarked(w, req, fault);
      }
    }

    /** Store the archive, extract it, delete it again, and strip its wrapping directory. */
    method Unzip(req: Request, data: Bytes, fault: Fault) returns (ok: bool)
      requires req.source.origin.Marketplace? && Genuine(w, req.source.origin)
      requires data == w.artifact(req.source.origin.slug, req.source.origin.version, req.source.origin.kind).data
      requires IsDir(cache, CacheDir(req)) && !ZipBlocked(cache, req)
      modifies this`cache
      ensures cache == Put(old(cache), req, fault, Unmarked(w, req, fault))
      ensures ok <==> !Strikes(fault, Filling) && Unpacked(w, req.source.origin)
    {
      var dest := CacheDir(req);
      var unzipped := w.unzip(data);
      var content := if Strikes(fault, Filling) then Leftover(w, req.source.origin, fault.left)
                     else if unzipped.Archive? then WithRoot(unzipped.tree) else map[];
      ZipLeavesNoTrace(cache, req, data, content);
      if !Strikes(fault, Filling) { UnzippedContent(w, req, fault); }
      cache := WithZip(cache, req, if ZipStays(fault) then fault.archive.value else data);
      cache := Graft(cache, dest, content);
      if !ZipStays(fault) {
        cache := WithoutZip(cache, req);
      }
      ok := !Strikes(fault, Filling) && unzipped.Archive?;
      if ok {
        SubOfGraft(WithoutZip(old(cache), req), dest, content);
        var flat, lifted := FlattenSingleRoot(Sub(cache, dest), w.early(content));
        GraftTwice(WithoutZip(old(cache), req), dest, content, flat);
        cache := Graft(cache, dest, flat);
        ok := lifted;
      }
    }

    /** Write the marker into the filled directory. */
    method Mark(ghost ready: Tree, req: Request, fault: Fault) returns (ok: bool)
      requires cache == Put(ready, req, fault, Unmarked(w, req, fault))
      requires Genuine(w, req.source.origin) && !Strikes(fault, Filling) && Unpacked(w, req.source.origin)
      modifies this`cache
      ensures cache == Put(ready, req, fault, Filled(w, req, fault))
      ensures ok <==> Fetch(w, req.source.origin).Content? && !MarkerCut(fault)
    {
      var marker := CacheDir(req) + [MARKER];
      MarkedLast(w, req, fault);
      MarkerOfPut(ready, req, fault, Unmarked(w, req, fault));
      if IsDir(cache, marker) {
        return false;
      }
      MarkAfterPut(ready, req, fault, Unmarked(w, req, fault), MarkerText(req, fault));
      cache := cache[marker := File(MarkerText(req, fault))];
      ok := !MarkerCut(fault);
    }

    /** The part of `_resolve_git` that makes sure of a marked directory. */
    method EnsureGit(req: Request, fault: Fault) returns (ok: bool)
      requires req.source.origin.Git?
      modifies this`cache
      ensures (cache, ok) == Ensure(old(cache), w, req, fault)
    {
      if Marked(cache, CacheDir(req)) {
        return true;
      }
      ok := Clear(CacheDir(req), fault);
      if ok {
        ok := Clone(req, fault);
      }
    }

    /** `_clone`: check out, drop the repository's own directory, and mark last. */
    method Clone(req: Request, fault: Fault) returns (ok: bool)
      requires req.source.origin.Git?
      modifies this`cache
      ensures (cache, ok) == Fill(old(cache), w, req, fault)
    {
      var Git(url, gitRef) := req.source.origin;
      var dest := CacheDir(req);
      if Strikes(fault, Fetching) || ParentsBlocked(cache, dest) {
        return false;
      }
      GitIsFilled(cache, w, req, fault);
      cache := Emptied(cache, dest);
      ghost var ready := cache;
      ok := Checkout(req, w.checkout(url, gitRef), fault);
      if ok {
        ok := Mark(ready, req, fault);
      } else {
        NeverMarked(w, req, fault);
      }
    }

    /** The git commands, and the cleaning up behind them. */
    method Checkout(req: Request, commit: CheckedOut, fault: Fault) returns (ok: bool)
      requires req.source.origin.Git? && commit == w.checkout(req.source.origin.url, req.source.origin.gitRef)
      modifies this`cache
      ensures cache == Put(old(cache), req, fault, Unmarked(w, req, fault))
      ensures ok <==> !Strikes(fault, Filling) && Unpacked(w, req.source.origin)
    {
      var dest := CacheDir(req);
      if !Strikes(fault, Filling) { CheckedOutContent(w, req, fault); }
      if Strikes(fault, Filling) {
        cache := Graft(cache, dest, Leftover(w, req.source.origin, fault.left));
        return false;
      }
      if commit.CheckoutFails? {
        cache := Graft(cache, dest, map[]);
        return false;
      }
      var full := WithRoot(commit.tree);
      RemoveInside(cache, dest, full, [".git"]);
      cache := Graft(cache, dest, full);
      cache := Remove(cache, dest + [".git"]);
      if fault.Late? && IsDir(fault.gitRest, []) {
        GraftInside(old(cache), dest, Remove(full, [".git"]), [".git"], fault.gitRest);
        cache := Graft(cache, dest + [".git"], fault.gitRest);
      }
      ok := true;
    }
  }

  /** The directory is filled, and only the marker is missing. */
  ghost predicate Unpacked(w: World, origin: Origin) {
    match origin
    case Marketplace(_, _, _) =>
      var unzipped := UnzippedOf(w, origin);
      unzipped.Archive? && Flattened(WithRoot(unzipped.tree), w.early(WithRoot(unzipped.tree))).1
    case Git(url, gitRef) => w.checkout(url, gitRef).Commit?
  }

  /** What the directory holds before the marker is written. */
  ghost function Unmarked(w: World, req: Request, fault: Fault): Tree {
    var fetched := Fetch(w, req.source.origin);
    if Strikes(fault, Filling) then Leftover(w, req.source.origin, fault.left)
    else if fetched.Content? || fetched.Stuck? then WithGitRest(fetched.tree, req.source.origin, fault) else map[]
  }

  /** The marker is written last, unless a directory is in its place. */
  lemma MarkedLast(w: World, req: Request, fault: Fault)
    requires Genuine(w, req.source.origin) && !Strikes(fault, Filling) && Unpacked(w, req.source.origin)
    ensures
      var content, text := Unmarked(w, req, fault), MarkerText(req, fault);
      && (Fetch(w, req.source.origin).Content? <==> !IsDir(content, [MARKER]))
      && Filled(w, req, fault) == if IsDir(content, [MARKER]) then content else WithMarker(content, text)
  {
    var fetched := Fetch(w, req.source.origin);
    if fetched.Content? || fetched.Stuck? { GitRestAt(fetched.tree, req.source.origin, fault, [MARKER]); }
  }

  lemma GitIsFilled(cache: Tree, w: World, req: Request, fault: Fault)
    requires req.source.origin.Git? && !Strikes(fault, Fetching) && !ParentsBlocked(cache, CacheDir(req))
    ensures Fill(cache, w, req, fault).0 == Put(Emptied(cache, CacheDir(req)), req, fault, Filled(w, req, fault))
    ensures Fill(cache, w, req, fault).1 <==>
      Fetch(w, req.source.origin).Content? && !Strikes(fault, Filling) && !MarkerCut(fault)
  {
    FillPuts(cache, w, req, fault);
  }

  lemma NeverMarked(w: World, req: Request, fault: Fault)
    requires Genuine(w, req.source.origin) && (Strikes(fault, Filling) || !Unpacked(w, req.source.origin))
    ensures Filled(w, req, fault) == Unmarked(w, req, fault)
    ensures !Strikes(fault, Filling) ==> !Fetch(w, req.source.origin).Content?
  {
  }

  lemma UnzippedContent(w: World, req: Request, fault: Fault)
    requires req.source.origin.Marketplace? && Genuine(w, req.source.origin) && !Strikes(fault, Filling)
    ensures
      var unzipped := UnzippedOf(w, req.source.origin);
      Unmarked(w, req, fault) ==
        if unzipped.Archive? then Flattened(WithRoot(unzipped.tree), w.early(WithRoot(unzipped.tree))).0 else map[]
  {
  }

  lemma CheckedOutContent(w: World, req: Request, fault: Fault)
    requires req.source.origin.Git? && !Strikes(fault, Filling)
    ensures
      var commit := w.checkout(req.source.origin.url, req.source.origin.gitRef);
      Unmarked(w, req, fault) ==
        if commit.Commit? then WithGitRest(Remove(WithRoot(commit.tree), [".git"]), req.source.origin, fault) else map[]
  {
  }

  lemma MarkerOfPut(cache: Tree, req: Request, fault: Fault, content: Tree)
    ensures IsDir(Put(cache, req, fault, content), CacheDir(req) + [MARKER]) <==> IsDir(content, [MARKER])
  {
    var dest := CacheDir(req);
    GraftAt(AfterZip(cache, req, fault), dest, content, dest + [MARKER]);
    assert (dest + [MARKER])[|dest|..] == [MARKER];
  }

  lemma EmptiedIsDir(cache: Tree, dest: Path)
    ensures IsDir(Emptied(cache, dest), dest)
  {
    GraftAt(WithParents(cache, dest), dest, map[[] := Dir], dest);
    assert dest[|dest|..] == [];
  }

  lemma MarkAfterPut(cache: Tree, req: Request, fault: Fault, content: Tree, text: string)
    ensures Put(cache, req, fault, content)[CacheDir(req) + [MARKER] := File(text)] ==
            Put(cache, req, fault, WithMarker(content, text))
  {
    MarkInside(AfterZip(cache, req, fault), CacheDir(req), content, text);
  }

  lemma GraftTwice(tree: Tree, root: Path, first: Tree, second: Tree)
    ensures Graft(Graft(tree, root, first), root, second) == Graft(tree, root, second)
  {
    forall p ensures SameAt(Graft(Graft(tree, root, first), root, second), Graft(tree, root, second), p) {
      GraftAt(tree, root, first, p);
      GraftAt(tree, root, second, p);
      GraftAt(Graft(tree, root, first), root, second, p);
    }
    SameEverywhere(Graft(Graft(tree, root, first), root, second), Graft(tree, root, second));
  }

  lemma BelowInside(root: Path, rel: Path, p: Path)
    requires root <= p
    ensures root + rel <= p <==> rel <= p[|root|..]
    ensures root + rel <= p ==> p[|root + rel|..] == p[|root|..][|rel|..]
  {
  }

  lemma GraftInsideAt(tree: Tree, root: Path, sub: Tree, rel: Path, more: Tree, first: Tree, inner: Tree, p: Path)
    requires first == Graft(tree, root, sub) && inner == Graft(sub, rel, more)
    ensures At(Graft(first, root + rel, more), p) == At(Graft(tree, root, inner), p)
  {
    GraftIs(tree, root, sub, p);
    GraftIs(first, root + rel, more, p);
    GraftIs(tree, root, inner, p);
    if root <= p {
      BelowInside(root, rel, p);
      GraftIs(sub, rel, more, p[|root|..]);
    }
  }

  /** Grafting inside a grafted tree is grafting into it first. */
  lemma GraftInside(tree: Tree, root: Path, sub: Tree, rel: Path, more: Tree)
    ensures Graft(Graft(tree, root, sub), root + rel, more) == Graft(tree, root, Graft(sub, rel, more))
  {
    var first, inner := Graft(tree, root, sub), Graft(sub, rel, more);
    forall p ensures At(Graft(first, root + rel, more), p) == At(Graft(tree, root, inner), p) {
      GraftInsideAt(tree, root, sub, rel, more, first, inner, p);
    }
    SameNodes(Graft(first, root + rel, more), Graft(tree, root, inner));
  }

  /** Deleting inside a grafted tree is grafting what is left. */
  lemma RemoveInside(tree: Tree, root: Path, sub: Tree, rel: Path)
    ensures Remove(Graft(tree, root, sub), root + rel) == Graft(tree, root, Remove(sub, rel))
  {
    var left, right := Remove(Graft(tree, root, sub), root + rel), Graft(tree, root, Remove(sub, rel));
    forall p ensures SameAt(left, right, p) {
      GraftAt(tree, root, sub, p);
      GraftAt(tree, root, Remove(sub, rel), p);
      if root <= p {
        assert root + rel <= p <==> rel <= p[|root|..];
      }
    }
    SameEverywhere(left, right);
  }

  lemma MarkInside(tree: Tree, root: Path, sub: Tree, text: string)
    ensures Graft(tree, root, sub)[root + [MARKER] := File(text)] == Graft(tree, root, WithMarker(sub, text))
  {
    var left, right := Graft(tree, root, sub)[root + [MARKER] := File(text)], Graft(tree, root, WithMarker(sub, text));
    forall p ensures SameAt(left, right, p) {
      GraftAt(tree, root, sub, p);
      GraftAt(tree, root, WithMarker(sub, text), p);
      if root <= p {
        assert p == root + p[|root|..];
        assert p == root + [MARKER] <==> p[|root|..] == [MARKER];
      }
    }
    SameEverywhere(left, right);
  }
}
