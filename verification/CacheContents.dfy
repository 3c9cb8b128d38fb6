/** What ends up in the plugin cache, in the marketplace's and git's own terms. */
module CacheContents {
  import opened Wrappers
  import opened FileTree
  import opened InstallSchema
  import opened PluginResolver
  import opened Text
  import F = PluginFetcher
  import S = SigningInput

  // ---------------------------------------------------------------- signatures

  /** After any history, a marked entry of a marketplace request holds an artifact that the
      trusted signer's check has passed. */
  lemma MarkedEntriesAreSigned(w: World, calls: seq<Call>, reqs: set<Request>, req: Request,
                               slug: string, version: string, kind: string)
    requires KeysInjective(reqs) && req in reqs && req.source.origin == Marketplace(slug, version, kind)
    requires forall i :: 0 <= i < |calls| ==> calls[i].req in reqs && Crashproof(w, calls[i].req.source.origin)
    ensures
      var artifact := w.artifact(slug, version, kind);
      Marked(Run(map[], w, calls), [req.id, "mkt-" + SafeRefDirname(version)]) ==>
        w.genuine(artifact.signature, artifact.data)
  {
    EmptyIsComplete(w, reqs);
    MarkedEntriesAreComplete(map[], w, calls, reqs);
    MarkedIs(Run(map[], w, calls), CacheDir(req));
    assert Complete(Run(map[], w, calls), w, req);
  }

  /** Nothing new stands at or below `dest`. */
  ghost predicate NothingNew(before: Tree, after: Tree, dest: Path) {
    forall p :: dest <= p && p in after ==> p in before && after[p] == before[p]
  }

  /** Where the check fails, nothing is returned, whatever else happens; what is there was
      there before, and it is all gone unless the deletion was interrupted or met a file. */
  lemma ForgedArtifactIsRefused(cache: Tree, w: World, req: Request, fault: Fault, slug: string, version: string, kind: string)
    requires req.source.origin == Marketplace(slug, version, kind) && !Marked(cache, CacheDir(req))
    requires
      var artifact := w.artifact(slug, version, kind);
      !w.genuine(artifact.signature, artifact.data)
    ensures
      var (after, place) := Resolve(cache, w, req, fault);
      && place.None? && !Marked(after, CacheDir(req)) && NothingNew(cache, after, CacheDir(req))
      && (!Strikes(fault, Removing) && !IsFile(cache, CacheDir(req)) ==> forall p :: CacheDir(req) <= p ==> p !in after)
  {
    var dest := CacheDir(req);
    if Refills(cache, dest, fault) {
      EnsureRefills(cache, w, req, fault);
      RefusedStays(Remove(cache, dest), w, req, fault);
    } else {
      EnsureOtherwise(cache, w, req, fault);
      if !IsFile(cache, dest) {
        RestIsUnmarked(cache, dest, fault.left);
        forall p | dest <= p && p in Resolve(cache, w, req, fault).0
          ensures p in cache && Resolve(cache, w, req, fault).0[p] == cache[p]
        {
          RestWasThere(cache, dest, fault.left, p);
        }
      }
    }
  }

  lemma RefusedStays(cache: Tree, w: World, req: Request, fault: Fault)
    requires Fetch(w, req.source.origin).Refused?
    ensures Fill(cache, w, req, fault) == (cache, false)
  {
  }

  lemma RestWasThere(cache: Tree, dest: Path, left: Tree, p: Path)
    requires dest <= p && p in Graft(cache, dest, Rest(Sub(cache, dest), left))
    ensures p in cache && Graft(cache, dest, Rest(Sub(cache, dest), left))[p] == cache[p]
  {
    GraftIs(cache, dest, Rest(Sub(cache, dest), left), p);
    SubIs(cache, dest, p[|dest|..]);
    assert dest + p[|dest|..] == p;
  }

  // ---------------------------------------------------------------- contents

  /** Everything in the archive lies in one directory of this name. */
  ghost predicate WrappedIn(archive: Tree, root: string) {
    && IsDir(archive, [root])
    && forall p :: p in archive && p != [] ==> p[0] == root
  }

  lemma WrappedIs(archive: Tree, root: string)
    ensures HasSingleRoot(WithRoot(archive), root) <==> WrappedIn(archive, root)
  {
    var tree := WithRoot(archive);
    if WrappedIn(archive, root) {
      assert [root] in tree && [root][0] == root;
      assert forall name :: name in TopNames(tree) ==> name == root;
      assert root in TopNames(tree);
    }
    if HasSingleRoot(tree, root) {
      forall p | p in archive && p != [] ensures p[0] == root { assert p[0] in TopNames(tree); }
    }
  }

  /** Of a signed archive, the entry holds every node: from inside the directory that wraps
      everything, if there is one, else as it is. */
  lemma ArchiveContents(w: World, slug: string, version: string, kind: string, p: Path)
    requires Fetch(w, Marketplace(slug, version, kind)).Content? && p != []
    ensures
      var artifact := w.artifact(slug, version, kind);
      && w.genuine(artifact.signature, artifact.data) && w.unzip(artifact.data).Archive?
      && var archive, content := w.unzip(artifact.data).tree, Fetch(w, Marketplace(slug, version, kind)).tree;
         && (forall root :: WrappedIn(archive, root) ==> At(content, p) == At(archive, [root] + p))
         && ((forall root :: !WrappedIn(archive, root)) ==> At(content, p) == At(archive, p))
  {
    var archive := w.unzip(w.artifact(slug, version, kind).data).tree;
    var raw := WithRoot(archive);
    forall root ensures WrappedIn(archive, root) <==> HasSingleRoot(raw, root) { WrappedIs(archive, root); }
    forall root | HasSingleRoot(raw, root)
      ensures At(Fetch(w, Marketplace(slug, version, kind)).tree, p) == At(archive, [root] + p)
    {
      F.FlattenedIs(raw, root, w.early(raw));
      SubIs(raw, [root], p);
    }
    if forall root :: !HasSingleRoot(raw, root) { F.NothingToFlatten(raw, w.early(raw)); }
  }

  /** Of a commit, the entry holds every node but the repository's own directory. */
  lemma CommitContents(w: World, url: string, gitRef: string, p: Path)
    requires Fetch(w, Git(url, gitRef)).Content? && p != []
    ensures
      && w.checkout(url, gitRef).Commit?
      && var content := Fetch(w, Git(url, gitRef)).tree;
         At(content, p) == if p[0] == ".git" then None else At(w.checkout(url, gitRef).tree, p)
  {
    assert [".git"] <= p <==> p[0] == ".git";
  }

  /** An archive cannot be used exactly if its signature is wrong, it is broken or unsafe,
      the directory that wraps everything has a child of its own name, or a directory stands
      where the marker has to go. */
  lemma UsableExactly(w: World, slug: string, version: string, kind: string)
    ensures
      var artifact := w.artifact(slug, version, kind);
      Fetch(w, Marketplace(slug, version, kind)).Content? <==>
        && w.genuine(artifact.signature, artifact.data) && w.unzip(artifact.data).Archive?
        && var archive := w.unzip(artifact.data).tree;
           && (forall root :: WrappedIn(archive, root) ==>
                 !IsDir(archive, [root, ".xcore-resolved"]) && !HasBelow(archive, [root, root]))
           && ((forall root :: !WrappedIn(archive, root)) ==> !IsDir(archive, [".xcore-resolved"]))
  {
    var artifact := w.artifact(slug, version, kind);
    if w.genuine(artifact.signature, artifact.data) && w.unzip(artifact.data).Archive? {
      var archive := w.unzip(artifact.data).tree;
      var raw := WithRoot(archive);
      forall root ensures WrappedIn(archive, root) <==> HasSingleRoot(raw, root) { WrappedIs(archive, root); }
      if root :| HasSingleRoot(raw, root) {
        forall other | HasSingleRoot(raw, other) ensures other == root { assert other in TopNames(raw); }
        F.FlattenedIs(raw, root, w.early(raw));
        ChildOfItself(archive, root);
        SubIs(raw, [root], [MARKER]);
        assert [root] + [MARKER] == [root, ".xcore-resolved"];
      } else {
        F.NothingToFlatten(raw, w.early(raw));
      }
    }
  }

  ghost predicate HasBelow(tree: Tree, dir: Path) { exists p :: dir <= p && p in tree }

  lemma ChildOfItself(archive: Tree, root: string)
    ensures root in Children(WithRoot(archive), root) <==> HasBelow(archive, [root, root])
  {
    var raw := WithRoot(archive);
    if root in Children(raw, root) {
      var p :| p in raw && |p| >= 2 && p[0] == root && p[1] == root;
      assert [root, root] <= p;
    }
    if HasBelow(archive, [root, root]) {
      var p :| [root, root] <= p && p in archive;
      assert p[0] == root && p[1] == root;
    }
  }

  // ---------------------------------------------------------------- subdirectories

  /** An absolute path is never taken for one in the cache. */
  lemma AbsoluteLeavesCache(cache: Tree, w: World, req: Request, path: string)
    requires req.source.subdirectory == Some("/" + path)
    ensures Found(cache, w, req) == if w.beyond("/" + path) then Some(Beyond) else None
  {
  }

  lemma {:induction false} PlainNamesWalk(start: Path, names: Path)
    requires ".." !in names
    ensures Walked(start, names) == Some(start + names)
    decreases |names|
  {
    if names == [] {
      assert start + [] == start;
    } else {
      var n := |names| - 1;
      assert forall name :: name in names[..n] ==> name in names;
      PlainNamesWalk(start, names[..n]);
      assert start + names[..n] + [names[n]] == start + names;
    }
  }

  lemma PlainNames(req: Request, names: Path)
    requires Separable('/', names) && "." !in names
    requires req.source.subdirectory == if names == [] then None else Some(Join('/', names))
    ensures Names(req) == names && !Absolute(req)
  {
    if names != [] {
      S.PathOfJoin(names);
      assert names[0] in names && names[0] != "" && '/' !in names[0];
      S.FirstOfJoin(names);
      assert names[0][0] in names[0];
    }
  }

  lemma PlainPassable(cache: Tree, dest: Path, names: Path)
    requires ".." !in names
    ensures Passable(cache, dest, names) <==> forall k :: 0 <= k <= |names| ==> IsDir(cache, dest + names[..k])
  {
    forall k | 0 <= k <= |names| ensures PassableAt(cache, dest, names[..k]) <==> IsDir(cache, dest + names[..k]) {
      assert forall name :: name in names[..k] ==> name in names;
      PlainNamesWalk(dest, names[..k]);
    }
  }

  /** A path of plain names is looked for in the entry, name by name; without one it is the
      entry itself. */
  lemma PlainSubdirectory(cache: Tree, w: World, req: Request, names: Path)
    requires Separable('/', names) && "." !in names && ".." !in names
    requires req.source.subdirectory == if names == [] then None else Some(Join('/', names))
    ensures
      var dest := CacheDir(req);
      Found(cache, w, req) ==
        if forall k :: 0 <= k <= |names| ==> IsDir(cache, dest + names[..k]) then Some(InCache(dest + names)) else None
  {
    PlainNames(req, names);
    PlainNamesWalk(CacheDir(req), names);
    PlainPassable(cache, CacheDir(req), names);
  }
}
