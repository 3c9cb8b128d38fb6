/** Directory trees as finite maps from paths to nodes. A path is the sequence of its
    segments below some root; text and bytes are both sequences of characters. */
module FileTree {
  import opened Wrappers

  type Bytes = seq<char>
  type Path = seq<string>
  datatype Node = Dir | File(data: Bytes)
  type Tree = map<Path, Node>

  predicate IsDir(tree: Tree, p: Path) { p in tree && tree[p].Dir? }
  predicate IsFile(tree: Tree, p: Path) { p in tree && tree[p].File? }

  /** Neither path lies at or below the other. */
  predicate Apart(a: Path, b: Path) { !(a <= b) && !(b <= a) }

  // ---------------------------------------------------------------- subtrees

  /** What lies at or below `root`, with paths relative to it; empty if `root` does not exist. */
  function Sub(tree: Tree, root: Path): Tree {
    map rel | rel in PathsBelow(tree, root) :: tree[root + rel]
  }

  function PathsBelow(tree: Tree, root: Path): (rels: set<Path>)
    ensures forall rel :: rel in rels <==> root + rel in tree
  {
    var rels := set p | p in tree && root <= p :: p[|root|..];
    assert forall rel :: root + rel in tree ==> root <= root + rel && (root + rel)[|root|..] == rel;
    assert forall p :: p in tree && root <= p ==> root + p[|root|..] == p;
    rels
  }

  lemma SubAt(tree: Tree, root: Path, rel: Path)
    ensures rel in Sub(tree, root) <==> root + rel in tree
    ensures rel in Sub(tree, root) ==> Sub(tree, root)[rel] == tree[root + rel]
  {
  }

  /** `shutil.rmtree`, when it completes. */
  function Remove(tree: Tree, root: Path): Tree {
    map p | p in tree && !(root <= p) :: tree[p]
  }

  /** Put `sub` at `root`, in place of whatever was at or below it. */
  function Graft(tree: Tree, root: Path, sub: Tree): Tree {
    Remove(tree, root) + Placed(root, sub)
  }

  function Placed(root: Path, sub: Tree): Tree {
    map p | p in (set rel | rel in sub :: root + rel) :: sub[p[|root|..]]
  }

  lemma PlacedAt(root: Path, sub: Tree, p: Path)
    ensures p in Placed(root, sub) <==> root <= p && p[|root|..] in sub
    ensures p in Placed(root, sub) ==> Placed(root, sub)[p] == sub[p[|root|..]]
  {
    if root <= p && p[|root|..] in sub {
      assert p == root + p[|root|..];
    }
  }

  lemma GraftAt(tree: Tree, root: Path, sub: Tree, p: Path)
    ensures root <= p ==> (p in Graft(tree, root, sub) <==> p[|root|..] in sub)
    ensures root <= p && p[|root|..] in sub ==> Graft(tree, root, sub)[p] == sub[p[|root|..]]
    ensures !(root <= p) ==> (p in Graft(tree, root, sub) <==> p in tree)
    ensures !(root <= p) && p in tree ==> Graft(tree, root, sub)[p] == tree[p]
  {
    PlacedAt(root, sub, p);
  }

  lemma GraftIs(tree: Tree, root: Path, sub: Tree, p: Path)
    ensures At(Graft(tree, root, sub), p) == if root <= p then At(sub, p[|root|..]) else At(tree, p)
  {
    GraftAt(tree, root, sub, p);
  }

  /** What was put there is what is found there. */
  lemma SubOfGraft(tree: Tree, root: Path, sub: Tree)
    ensures Sub(Graft(tree, root, sub), root) == sub
  {
    var grafted := Graft(tree, root, sub);
    forall rel ensures rel in Sub(grafted, root) <==> rel in sub
      ensures rel in sub ==> Sub(grafted, root)[rel] == sub[rel]
    {
      SubAt(grafted, root, rel);
      GraftAt(tree, root, sub, root + rel);
      assert (root + rel)[|root|..] == rel;
    }
  }

  // ---------------------------------------------------------------- following a path

  /** Where these names lead from `start`, `..` going back; nothing above the root. */
  function Walked(start: Path, names: Path): Option<Path> {
    if names == [] then Some(start)
    else
      var n := |names| - 1;
      var front := Walked(start, names[..n]);
      if front.None? then None
      else if names[n] != ".." then Some(front.value + [names[n]])
      else if front.value == [] then None
      else Some(front.value[..|front.value| - 1])
  }

  /** Every place on the way is a directory, as far as it is in this tree. */
  predicate Passable(tree: Tree, start: Path, names: Path) {
    forall k :: 0 <= k <= |names| ==> PassableAt(tree, start, names[..k])
  }

  predicate PassableAt(tree: Tree, start: Path, names: Path) {
    var at := Walked(start, names);
    at.Some? ==> IsDir(tree, at.value)
  }

  /** What does not go above its start leads to the same place below any other. */
  lemma {:induction false} WalkedBelow(start: Path, names: Path)
    requires Walked([], names).Some?
    ensures Walked(start, names) == Some(start + Walked([], names).value)
    decreases |names|
  {
    if names != [] {
      var n := |names| - 1;
      WalkedBelow(start, names[..n]);
      var front := Walked([], names[..n]).value;
      if names[n] != ".." {
        assert start + front + [names[n]] == start + (front + [names[n]]);
      } else {
        assert (start + front)[..|start + front| - 1] == start + front[..|front| - 1];
      }
    } else {
      assert start + [] == start;
    }
  }

  lemma {:induction false} WalkedPrefix(start: Path, names: Path, k: nat)
    requires k <= |names| && Walked(start, names).Some?
    ensures Walked(start, names[..k]).Some?
    decreases |names|
  {
    if k < |names| {
      assert names[..|names| - 1][..k] == names[..k];
      WalkedPrefix(start, names[..|names| - 1], k);
    } else {
      assert names[..k] == names;
    }
  }

  // ---------------------------------------------------------------- trees compared

  predicate SameAt(a: Tree, b: Tree, p: Path) {
    (p in a <==> p in b) && (p in a ==> a[p] == b[p])
  }

  lemma SameEverywhere(a: Tree, b: Tree)
    requires forall p :: SameAt(a, b, p)
    ensures a == b
  {
    assert forall p :: p in a <==> SameAt(a, b, p) && p in a;
    forall p ensures p in a <==> p in b {
      assert SameAt(a, b, p);
    }
    forall p | p in a ensures a[p] == b[p] {
      assert SameAt(a, b, p);
    }
  }

  lemma SameBelow(a: Tree, b: Tree, root: Path)
    requires forall p :: root <= p ==> SameAt(a, b, p)
    ensures Sub(a, root) == Sub(b, root)
  {
    forall rel ensures SameAt(Sub(a, root), Sub(b, root), rel) {
      assert SameAt(a, b, root + rel);
    }
    SameEverywhere(Sub(a, root), Sub(b, root));
  }

  lemma SubIs(tree: Tree, root: Path, rel: Path)
    ensures At(Sub(tree, root), rel) == At(tree, root + rel)
  {
    SubAt(tree, root, rel);
  }

  lemma SameNodes(a: Tree, b: Tree)
    requires forall p :: At(a, p) == At(b, p)
    ensures a == b
  {
    forall p ensures SameAt(a, b, p) { assert At(a, p) == At(b, p); }
    SameEverywhere(a, b);
  }

  lemma PrefixesCompare(a: Path, b: Path, p: Path)
    requires a <= p && b <= p
    ensures a <= b || b <= a
  {
    if |a| <= |b| {
      assert a == p[..|a|] == b[..|a|];
    } else {
      assert b == p[..|b|] == a[..|b|];
    }
  }

  // ---------------------------------------------------------------- making directories

  /** Files are put into a directory that was made before. */
  function WithRoot(tree: Tree): Tree { tree[[] := Dir] }

  /** `mkdir(parents=True, exist_ok=True)` on the parent of `p` raises if a file is in the way. */
  predicate ParentsBlocked(tree: Tree, p: Path) {
    exists k :: 0 <= k < |p| && IsFile(tree, p[..k])
  }

  function WithParents(tree: Tree, p: Path): Tree {
    tree + map q | q in (set k | 0 <= k < |p| :: p[..k]) && q !in tree :: Dir
  }

  lemma WithParentsAt(tree: Tree, p: Path, q: Path)
    ensures q in tree ==> q in WithParents(tree, p) && WithParents(tree, p)[q] == tree[q]
    ensures q in WithParents(tree, p) && q !in tree ==> q <= p && q != p && WithParents(tree, p)[q] == Dir
    ensures q <= p && q != p ==> q in WithParents(tree, p)
  {
    if q <= p && q != p {
      assert q == p[..|q|];
    }
  }

  // ---------------------------------------------------------------- merging

  /** Nothing lies below a file. */
  ghost predicate Treelike(tree: Tree) {
    forall p, q :: p in tree && q in tree && tree[p].File? && p <= q ==> p == q
  }

  /** What a directory on disk holds, itself included. */
  type Folder = t: Tree | IsDir(t, []) && Treelike(t) witness map[[] := Dir]

  /** `shutil.copy2` of a file onto a directory puts it inside, under its own name. */
  predicate Diverted(tree: Tree, target: Path, sub: Tree, rel: Path) {
    rel in sub && rel != [] && sub[rel].File? && IsDir(tree, target + rel)
  }

  function Nested(target: Path, rel: Path): Path
    requires rel != []
  {
    target + rel + [rel[|rel| - 1]]
  }

  /** Copying this entry raises: a directory onto a file, or a file onto a directory that has
      a directory of the file's own name. */
  predicate Clashes(tree: Tree, target: Path, sub: Tree, rel: Path) {
    rel in sub &&
    if sub[rel].Dir? then IsFile(tree, target + rel)
    else IsDir(tree, target + rel) && (rel == [] || IsDir(tree, Nested(target, rel)))
  }

  /** `mkdir` and `copytree(..., dirs_exist_ok=True)` of `sub` onto `target` raise. */
  predicate MergeConflict(tree: Tree, target: Path, sub: Tree) {
    ParentsBlocked(tree, target) || exists rel :: rel in sub && Clashes(tree, target, sub, rel)
  }

  function Straight(tree: Tree, target: Path, sub: Tree): Tree {
    map rel | rel in sub && !Diverted(tree, target, sub, rel) :: sub[rel]
  }

  function Diversions(tree: Tree, target: Path, sub: Tree): Tree {
    map p | p in DiversionPaths(tree, target, sub) && LandsNested(tree, target, sub, p) :: sub[p[|target|..|p| - 1]]
  }

  function DiversionPaths(tree: Tree, target: Path, sub: Tree): set<Path> {
    set rel | rel in sub && Diverted(tree, target, sub, rel) :: Nested(target, rel)
  }

  /** Everything in `sub` is written over what is there; nothing is deleted. */
  function Merge(tree: Tree, target: Path, sub: Tree): Tree {
    WithParents(tree, target) + Diversions(tree, target, sub) + Placed(target, Straight(tree, target, sub))
  }

  /** What a merge that raises has copied: `copytree` goes on after an error, but not below a
      directory it could not make. */
  function Salvaged(tree: Tree, target: Path, sub: Tree): Tree {
    map rel | rel in sub && !(exists k :: 0 <= k <= |rel| && Clashes(tree, target, sub, rel[..k])) :: sub[rel]
  }

  function At(tree: Tree, p: Path): Option<Node> { if p in tree then Some(tree[p]) else None }

  predicate LandsStraight(tree: Tree, target: Path, sub: Tree, p: Path) {
    target <= p && p[|target|..] in sub && !Diverted(tree, target, sub, p[|target|..])
  }

  predicate LandsNested(tree: Tree, target: Path, sub: Tree, p: Path) {
    EndsTwice(target, p) && Diverted(tree, target, sub, p[|target|..|p| - 1])
  }

  /** What is at `p` after a merge. */
  function MergedAt(tree: Tree, target: Path, sub: Tree, p: Path): Option<Node> {
    if LandsStraight(tree, target, sub, p) then Some(sub[p[|target|..]])
    else if LandsNested(tree, target, sub, p) then Some(sub[p[|target|..|p| - 1]])
    else if p in tree then Some(tree[p])
    else if p < target then Some(Dir)
    else None
  }

  /** A path that ends in one name twice. */
  predicate EndsTwice(target: Path, p: Path) {
    |p| >= |target| + 2 && target <= p && p[|p| - 1] == p[|p| - 2]
  }

  lemma NestedIs(target: Path, rel: Path, p: Path)
    requires rel != []
    ensures p == Nested(target, rel) <==> EndsTwice(target, p) && rel == p[|target|..|p| - 1]
  {
    if EndsTwice(target, p) && rel == p[|target|..|p| - 1] {
      assert p == target + rel + [p[|p| - 1]];
    }
    if p == Nested(target, rel) {
      assert p[..|p| - 1] == target + rel;
    }
  }

  lemma DiversionsAt(tree: Tree, target: Path, sub: Tree, p: Path)
    ensures p in Diversions(tree, target, sub) <==> LandsNested(tree, target, sub, p)
    ensures LandsNested(tree, target, sub, p) ==> Diversions(tree, target, sub)[p] == sub[p[|target|..|p| - 1]]
  {
    if LandsNested(tree, target, sub, p) {
      var rel := p[|target|..|p| - 1];
      NestedIs(target, rel, p);
      assert rel in sub && p == Nested(target, rel);
    }
  }

  lemma StraightAt(tree: Tree, target: Path, sub: Tree, p: Path)
    ensures p in Placed(target, Straight(tree, target, sub)) <==> LandsStraight(tree, target, sub, p)
    ensures LandsStraight(tree, target, sub, p) ==> Placed(target, Straight(tree, target, sub))[p] == sub[p[|target|..]]
  {
    PlacedAt(target, Straight(tree, target, sub), p);
  }

  lemma LayersAt(a: Tree, b: Tree, c: Tree, p: Path)
    ensures At(a + b + c, p) == if p in c then Some(c[p]) else if p in b then Some(b[p]) else At(a, p)
  {
  }

  lemma MergeAt(tree: Tree, target: Path, sub: Tree, p: Path)
    ensures At(Merge(tree, target, sub), p) == MergedAt(tree, target, sub, p)
  {
    var a, b, c := WithParents(tree, target), Diversions(tree, target, sub), Placed(target, Straight(tree, target, sub));
    LayersAt(a, b, c, p);
    StraightAt(tree, target, sub, p);
    DiversionsAt(tree, target, sub, p);
    WithParentsAt(tree, target, p);
  }
}
