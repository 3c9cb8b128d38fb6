/** Laying several trees over one directory tree, one after the other. */
module Overlays {
  import opened FileTree

  /** What one step of a poll does to the tree. */
  datatype Effect = Idle | Write(target: Path, sub: Folder) | Halt

  function Apply(tree: Tree, e: Effect): Tree {
    if e.Write? then Merge(tree, e.target, e.sub) else tree
  }

  predicate Fails(tree: Tree, e: Effect) {
    e.Halt? || (e.Write? && MergeConflict(tree, e.target, e.sub))
  }

  function Overlay(tree: Tree, es: seq<Effect>): Tree {
    if es == [] then tree else Apply(Overlay(tree, es[..|es| - 1]), es[|es| - 1])
  }

  /** None of the effects fails where it is applied. */
  predicate Clean(tree: Tree, es: seq<Effect>) {
    es == [] || (Clean(tree, es[..|es| - 1]) && !Fails(Overlay(tree, es[..|es| - 1]), es[|es| - 1]))
  }

  /** While the tree of one effect is being copied, an error leaves only some of its entries,
      and any contents in the files among them. */
  datatype Trouble = Smooth | CopyCut(step: nat, left: Tree)

  predicate CutHere(trouble: Trouble, i: nat, e: Effect) {
    trouble.CopyCut? && trouble.step == i && e.Write?
  }

  /** As much of `left` as copying `sub` can have made. */
  function Begun(sub: Tree, left: Tree): Tree {
    map rel | rel in left && rel in sub && left[rel].Dir? == sub[rel].Dir? :: left[rel]
  }

  /** Apply effect number `i`, unless it raises. */
  function Attempt(tree: Tree, e: Effect, i: nat, trouble: Trouble): (Tree, bool) {
    if e.Halt? || (e.Write? && ParentsBlocked(tree, e.target)) then (tree, false)
    else if Fails(tree, e) then (Merge(tree, e.target, Salvaged(tree, e.target, e.sub)), false)
    else if CutHere(trouble, i, e) then (Merge(tree, e.target, Begun(e.sub, trouble.left)), false)
    else (Apply(tree, e), true)
  }

  /** Apply the effects in order, up to one that raises. */
  function Run(tree: Tree, es: seq<Effect>, trouble: Trouble): (Tree, bool) {
    if es == [] then (tree, true)
    else
      var n := |es| - 1;
      var (before, ok) := Run(tree, es[..n], trouble);
      if !ok then (before, false) else Attempt(before, es[n], n, trouble)
  }

  lemma OverlayNext(tree: Tree, es: seq<Effect>, i: nat)
    requires i < |es|
    ensures Overlay(tree, es[..i + 1]) == Apply(Overlay(tree, es[..i]), es[i])
    ensures Clean(tree, es[..i + 1]) <==> Clean(tree, es[..i]) && !Fails(Overlay(tree, es[..i]), es[i])
  {
    assert es[..i + 1][..i] == es[..i];
  }

  // ---------------------------------------------------------------- what a merge leaves

  /** A file comes out whole at its own path, unless a directory is there. */
  lemma MergedFile(tree: Tree, target: Path, sub: Folder, rel: Path)
    requires IsFile(sub, rel) && !IsDir(tree, target + rel)
    ensures IsFile(Merge(tree, target, sub), target + rel)
    ensures Merge(tree, target, sub)[target + rel].data == sub[rel].data
  {
    assert (target + rel)[|target|..] == rel;
    MergeAt(tree, target, sub, target + rel);
  }

  /** If there is one, it goes inside, under its own name. */
  lemma MergedInside(tree: Tree, target: Path, sub: Folder, rel: Path)
    requires IsFile(sub, rel) && rel != [] && IsDir(tree, target + rel)
    ensures
      var inside := target + rel + [rel[|rel| - 1]];
      IsFile(Merge(tree, target, sub), inside) && Merge(tree, target, sub)[inside].data == sub[rel].data
  {
    var inside := target + rel + [rel[|rel| - 1]];
    NestedIs(target, rel, inside);
    MergeAt(tree, target, sub, inside);
    LandsOnce(tree, target, sub, inside);
  }

  /** What is not below the target stays, and what is there is replaced only by an entry of
      its own path, or of that path without its last name. */
  lemma MergeKeeps(tree: Tree, target: Path, sub: Folder, p: Path)
    requires p in tree && (target <= p ==> p[|target|..] !in sub)
    requires |p| > |target| && target <= p ==> p[|target|..|p| - 1] !in sub || sub[p[|target|..|p| - 1]].Dir?
    ensures p in Merge(tree, target, sub) && Merge(tree, target, sub)[p] == tree[p]
  {
    MergeAt(tree, target, sub, p);
  }

  // ---------------------------------------------------------------- separate targets

  ghost predicate Separate(es: seq<Effect>) {
    forall i, j :: 0 <= i < j < |es| && es[i].Write? && es[j].Write? ==> Apart(es[i].target, es[j].target)
  }

  /** Nothing that matters for merging into `target` differs. */
  ghost predicate AlikeFor(a: Tree, b: Tree, target: Path) {
    && (forall p :: target <= p ==> SameAt(a, b, p))
    && (forall p :: p < target ==> (IsFile(a, p) <==> IsFile(b, p)))
  }

  lemma MergeElsewhere(tree: Tree, target: Path, sub: Tree, other: Path)
    requires Apart(target, other)
    ensures AlikeFor(tree, Merge(tree, target, sub), other)
  {
    var merged := Merge(tree, target, sub);
    forall p | other <= p ensures SameAt(tree, merged, p) {
      MergeAt(tree, target, sub, p);
      if target <= p { PrefixesCompare(target, other, p); }
    }
    forall p | p < other ensures IsFile(tree, p) <==> IsFile(merged, p) {
      MergeAt(tree, target, sub, p);
      assert target <= p ==> target <= other;
    }
  }

  lemma AlikeTrans(a: Tree, b: Tree, c: Tree, target: Path)
    requires AlikeFor(a, b, target) && AlikeFor(b, c, target)
    ensures AlikeFor(a, c, target)
  {
    forall p | target <= p ensures SameAt(a, c, p) {
      assert SameAt(a, b, p) && SameAt(b, c, p);
    }
  }

  lemma AlikeBelow(a: Tree, b: Tree, target: Path, rel: Path)
    requires AlikeFor(a, b, target)
    ensures SameAt(a, b, target + rel) && (rel != [] ==> SameAt(a, b, Nested(target, rel)))
  {
    assert target <= target + rel;
    if rel != [] { assert target <= Nested(target, rel); }
  }

  lemma AlikeFails(a: Tree, b: Tree, e: Effect)
    requires e.Write? ==> AlikeFor(a, b, e.target)
    ensures Fails(a, e) <==> Fails(b, e)
  {
    if e.Write? {
      forall k | 0 <= k < |e.target| ensures IsFile(a, e.target[..k]) <==> IsFile(b, e.target[..k]) {
        assert e.target[..k] < e.target;
      }
      forall rel ensures Clashes(a, e.target, e.sub, rel) <==> Clashes(b, e.target, e.sub, rel) {
        AlikeBelow(a, b, e.target, rel);
      }
    }
  }

  lemma AlikeMerges(a: Tree, b: Tree, target: Path, sub: Tree)
    requires AlikeFor(a, b, target)
    ensures Sub(Merge(a, target, sub), target) == Sub(Merge(b, target, sub), target)
  {
    forall rel ensures Diverted(a, target, sub, rel) <==> Diverted(b, target, sub, rel) { AlikeBelow(a, b, target, rel); }
    forall p | target <= p ensures SameAt(Merge(a, target, sub), Merge(b, target, sub), p) {
      assert SameAt(a, b, p);
      MergeAt(a, target, sub, p);
      MergeAt(b, target, sub, p);
    }
    SameBelow(Merge(a, target, sub), Merge(b, target, sub), target);
  }

  lemma {:induction false} ElsewhereAlike(tree: Tree, es: seq<Effect>, other: Path)
    requires forall i :: 0 <= i < |es| && es[i].Write? ==> Apart(es[i].target, other)
    ensures AlikeFor(tree, Overlay(tree, es), other)
    decreases |es|
  {
    if es != [] {
      var n := |es| - 1;
      var before := Overlay(tree, es[..n]);
      ElsewhereAlike(tree, es[..n], other);
      if es[n].Write? {
        MergeElsewhere(before, es[n].target, es[n].sub, other);
        AlikeTrans(tree, before, Apply(before, es[n]), other);
      }
    }
  }

  /** With separate targets, each effect fails or not by itself. */
  lemma {:induction false} CleanPointwise(tree: Tree, es: seq<Effect>)
    requires Separate(es)
    ensures Clean(tree, es) <==> forall i :: 0 <= i < |es| ==> !Fails(tree, es[i])
    decreases |es|
  {
    if es != [] {
      var n := |es| - 1;
      CleanPointwise(tree, es[..n]);
      if es[n].Write? { ElsewhereAlike(tree, es[..n], es[n].target); }
      AlikeFails(tree, Overlay(tree, es[..n]), es[n]);
      assert forall i :: 0 <= i < |es| ==> es[i] == if i < n then es[..n][i] else es[n];
    }
  }

  /** Only effect `i` may write at `target`; the others stay clear of it. */
  ghost predicate OnlyWriter(es: seq<Effect>, i: nat, target: Path) {
    && (i < |es| && es[i].Write? ==> es[i].target == target)
    && (forall j :: 0 <= j < |es| && es[j].Write? && j != i ==> Apart(es[j].target, target))
  }

  /** What a target holds in the end depends on its own effect only. */
  lemma {:induction false} OverlayAt(tree: Tree, es: seq<Effect>, i: nat, target: Path)
    requires i < |es| && OnlyWriter(es, i, target)
    ensures Sub(Overlay(tree, es), target) == Sub(Apply(tree, es[i]), target)
    decreases |es|
  {
    var n := |es| - 1;
    var before := Overlay(tree, es[..n]);
    if i == n {
      ElsewhereAlike(tree, es[..n], target);
      if es[n].Write? { AlikeMerges(tree, before, target, es[n].sub); } else { SameBelow(tree, before, target); }
    } else {
      OverlayAt(tree, es[..n], i, target);
      if es[n].Write? {
        MergeElsewhere(before, es[n].target, es[n].sub, target);
        SameBelow(before, Overlay(tree, es), target);
      }
    }
  }

  // ---------------------------------------------------------------- doing it again

  /** The effect writes at `p`, or makes the directory `p` on the way to its target. */
  predicate Covers(tree: Tree, e: Effect, p: Path) {
    e.Write? &&
    (p < e.target || LandsStraight(tree, e.target, e.sub, p) || LandsNested(tree, e.target, e.sub, p))
  }

  predicate SameKind(a: Tree, b: Tree, p: Path) {
    p in a && p in b && a[p].Dir? == b[p].Dir?
  }

  /** `ahead` differs from `behind` only where an effect from `k` on will write, and there
      it already has a node of the kind that is there in the end. */
  ghost predicate Ahead(ahead: Tree, behind: Tree, tree: Tree, es: seq<Effect>, k: nat, end: Tree) {
    forall p :: SameAt(ahead, behind, p) || (SameKind(ahead, end, p) && CoveredFrom(tree, es, k, p))
  }

  ghost predicate CoveredFrom(tree: Tree, es: seq<Effect>, k: nat, p: Path) {
    exists i :: k <= i < |es| && CoveredBy(tree, es, i, p)
  }

  predicate CoveredBy(tree: Tree, es: seq<Effect>, i: nat, p: Path)
    requires i < |es|
  {
    Covers(Overlay(tree, es[..i]), es[i], p)
  }

  lemma ClashesAt(tree: Tree, target: Path, sub: Tree, rel: Path)
    requires !MergeConflict(tree, target, sub) && rel in sub
    ensures sub[rel].Dir? ==> !IsFile(tree, target + rel)
    ensures sub[rel].File? && rel == [] ==> !IsDir(tree, target)
    ensures Diverted(tree, target, sub, rel) ==> !IsDir(tree, Nested(target, rel))
  {
    assert !Clashes(tree, target, sub, rel);
    assert target + [] == target;
  }

  lemma ApplyKeepsKinds(tree: Tree, e: Effect, p: Path)
    requires !Fails(tree, e) && p in tree
    ensures SameKind(tree, Apply(tree, e), p)
  {
    if e.Write? {
      MergeAt(tree, e.target, e.sub, p);
      if LandsStraight(tree, e.target, e.sub, p) {
        assert p == e.target + p[|e.target|..];
        ClashesAt(tree, e.target, e.sub, p[|e.target|..]);
      } else if LandsNested(tree, e.target, e.sub, p) {
        var rel := p[|e.target|..|p| - 1];
        NestedIs(e.target, rel, p);
        ClashesAt(tree, e.target, e.sub, rel);
      }
    }
  }

  /** Along a clean run a node, once there, stays of its kind. */
  lemma {:induction false} KindsKept(tree: Tree, es: seq<Effect>, k: nat, p: Path)
    requires k <= |es| && Clean(tree, es) && p in Overlay(tree, es[..k])
    ensures SameKind(Overlay(tree, es[..k]), Overlay(tree, es), p)
    decreases |es|
  {
    if k == |es| {
      assert es[..k] == es;
    } else {
      var n := |es| - 1;
      assert es[..n][..k] == es[..k];
      KindsKept(tree, es[..n], k, p);
      ApplyKeepsKinds(Overlay(tree, es[..n]), es[n], p);
    }
  }

  lemma CoveredKind(tree: Tree, e: Effect, p: Path)
    requires Covers(tree, e, p) && !Fails(tree, e)
    ensures p in Apply(tree, e)
    ensures p < e.target ==> Apply(tree, e)[p].Dir?
    ensures LandsStraight(tree, e.target, e.sub, p) ==> Apply(tree, e)[p] == e.sub[p[|e.target|..]]
    ensures LandsNested(tree, e.target, e.sub, p) ==> Apply(tree, e)[p].File?
  {
    MergeAt(tree, e.target, e.sub, p);
    LandsOnce(tree, e.target, e.sub, p);
    if p < e.target && p in tree {
      assert p == e.target[..|p|];
    }
  }

  lemma LandsOnce(tree: Tree, target: Path, sub: Folder, p: Path)
    ensures LandsNested(tree, target, sub, p) ==> !LandsStraight(tree, target, sub, p)
  {
    if LandsNested(tree, target, sub, p) {
      NothingBelowFile(sub, p[|target|..|p| - 1], p[|target|..]);
    }
  }

  /** In a folder no entry is nested in a file. */
  lemma NothingBelowFile(sub: Folder, file: Path, below: Path)
    requires file in sub && sub[file].File? && file <= below && file != below
    ensures below !in sub
  {
  }

  lemma {:induction false} CleanPrefix(tree: Tree, es: seq<Effect>, k: nat)
    requires k <= |es| && Clean(tree, es)
    ensures Clean(tree, es[..k])
    decreases |es|
  {
    if k < |es| {
      assert es[..|es| - 1][..k] == es[..k];
      CleanPrefix(tree, es[..|es| - 1], k);
    } else {
      assert es[..k] == es;
    }
  }

  /** `end` has every node of `behind`, and every node the effect writes there, in its kind. */
  ghost predicate LeadsTo(behind: Tree, e: Effect, end: Tree) {
    && (forall p :: p in behind ==> SameKind(behind, end, p))
    && (forall p :: Covers(behind, e, p) ==> SameKind(Apply(behind, e), end, p))
  }

  /** The two trees divert the same files. */
  lemma SameDiversions(ahead: Tree, behind: Tree, e: Effect, end: Tree, rel: Path)
    requires e.Write? && !Fails(behind, e) && LeadsTo(behind, e, end)
    requires forall p :: SameAt(ahead, behind, p) || SameKind(ahead, end, p)
    ensures Diverted(ahead, e.target, e.sub, rel) <==> Diverted(behind, e.target, e.sub, rel)
  {
    if rel in e.sub && rel != [] && e.sub[rel].File? {
      var p := e.target + rel;
      assert p[|e.target|..] == rel;
      assert SameAt(ahead, behind, p) || SameKind(ahead, end, p);
      if IsDir(behind, p) {
        assert SameKind(behind, end, p);
      } else {
        assert LandsStraight(behind, e.target, e.sub, p);
        CoveredKind(behind, e, p);
        assert SameKind(Apply(behind, e), end, p);
      }
    }
  }

  lemma SameCoverage(ahead: Tree, behind: Tree, e: Effect, end: Tree, p: Path)
    requires e.Write? && !Fails(behind, e) && LeadsTo(behind, e, end)
    requires forall q :: SameAt(ahead, behind, q) || SameKind(ahead, end, q)
    ensures LandsStraight(ahead, e.target, e.sub, p) <==> LandsStraight(behind, e.target, e.sub, p)
    ensures LandsNested(ahead, e.target, e.sub, p) <==> LandsNested(behind, e.target, e.sub, p)
  {
    if e.target <= p {
      SameDiversions(ahead, behind, e, end, p[|e.target|..]);
      if |p| > |e.target| { SameDiversions(ahead, behind, e, end, p[|e.target|..|p| - 1]); }
    }
  }

  /** A tree that is ahead takes the next effect without conflict, and stays ahead. */
  lemma AheadStep(ahead: Tree, tree: Tree, es: seq<Effect>, k: nat)
    requires k < |es| && Clean(tree, es)
    requires Ahead(ahead, Overlay(tree, es[..k]), tree, es, k, Overlay(tree, es))
    ensures !Fails(ahead, es[k])
    ensures Ahead(Apply(ahead, es[k]), Overlay(tree, es[..k + 1]), tree, es, k + 1, Overlay(tree, es))
  {
    var behind, next, end, e := Overlay(tree, es[..k]), Overlay(tree, es[..k + 1]), Overlay(tree, es), es[k];
    OverlayNext(tree, es, k);
    CleanPrefix(tree, es, k + 1);
    LeadsOn(tree, es, k);
    AheadNoConflict(ahead, behind, e, end);
    forall p ensures SameAt(Apply(ahead, e), next, p) || (SameKind(Apply(ahead, e), end, p) && CoveredFrom(tree, es, k + 1, p)) {
      assert SameAt(ahead, behind, p) || (SameKind(ahead, end, p) && CoveredFrom(tree, es, k, p));
      AheadAt(ahead, behind, e, end, p);
      if CoveredFrom(tree, es, k, p) && !Covers(behind, e, p) {
        var i :| k <= i < |es| && CoveredBy(tree, es, i, p);
        assert i != k;
      }
    }
  }

  lemma LeadsOn(tree: Tree, es: seq<Effect>, k: nat)
    requires k < |es| && Clean(tree, es)
    ensures !Fails(Overlay(tree, es[..k]), es[k])
    ensures LeadsTo(Overlay(tree, es[..k]), es[k], Overlay(tree, es))
  {
    var behind, e := Overlay(tree, es[..k]), es[k];
    OverlayNext(tree, es, k);
    CleanPrefix(tree, es, k + 1);
    forall p | p in behind ensures SameKind(behind, Overlay(tree, es), p) { KindsKept(tree, es, k, p); }
    forall p | Covers(behind, e, p) ensures SameKind(Apply(behind, e), Overlay(tree, es), p) {
      CoveredKind(behind, e, p);
      KindsKept(tree, es, k + 1, p);
    }
  }

  lemma AheadNoConflict(ahead: Tree, behind: Tree, e: Effect, end: Tree)
    requires !Fails(behind, e) && LeadsTo(behind, e, end)
    requires forall p :: SameAt(ahead, behind, p) || SameKind(ahead, end, p)
    ensures !Fails(ahead, e)
  {
    if e.Write? {
      forall j | 0 <= j < |e.target| ensures !IsFile(ahead, e.target[..j]) {
        var p := e.target[..j];
        assert Covers(behind, e, p);
        CoveredKind(behind, e, p);
        assert !IsFile(behind, p);
        assert SameAt(ahead, behind, p) || SameKind(ahead, end, p);
      }
      forall rel | rel in e.sub ensures !Clashes(ahead, e.target, e.sub, rel) { AheadNoClash(ahead, behind, e, end, rel); }
    }
  }

  lemma AheadNoClash(ahead: Tree, behind: Tree, e: Effect, end: Tree, rel: Path)
    requires e.Write? && !Fails(behind, e) && LeadsTo(behind, e, end) && rel in e.sub
    requires forall p :: SameAt(ahead, behind, p) || SameKind(ahead, end, p)
    ensures !Clashes(ahead, e.target, e.sub, rel)
  {
    var p := e.target + rel;
    assert p[|e.target|..] == rel;
    ClashesAt(behind, e.target, e.sub, rel);
    SameDiversions(ahead, behind, e, end, rel);
    assert SameAt(ahead, behind, p) || SameKind(ahead, end, p);
    if Diverted(behind, e.target, e.sub, rel) {
      var q := Nested(e.target, rel);
      NestedIs(e.target, rel, q);
      assert LandsNested(behind, e.target, e.sub, q);
      CoveredKind(behind, e, q);
      assert SameAt(ahead, behind, q) || SameKind(ahead, end, q);
      assert SameKind(Apply(behind, e), end, q);
    } else {
      assert LandsStraight(behind, e.target, e.sub, p);
      CoveredKind(behind, e, p);
      assert SameKind(Apply(behind, e), end, p);
    }
  }

  lemma AheadAt(ahead: Tree, behind: Tree, e: Effect, end: Tree, p: Path)
    requires !Fails(behind, e) && !Fails(ahead, e) && LeadsTo(behind, e, end)
    requires forall q :: SameAt(ahead, behind, q) || SameKind(ahead, end, q)
    ensures Covers(behind, e, p) ==> SameAt(Apply(ahead, e), Apply(behind, e), p)
    ensures !Covers(behind, e, p) ==> SameAt(Apply(ahead, e), ahead, p) && SameAt(Apply(behind, e), behind, p)
  {
    if e.Write? {
      SameCoverage(ahead, behind, e, end, p);
      MergeAt(ahead, e.target, e.sub, p);
      MergeAt(behind, e.target, e.sub, p);
      if p < e.target {
        CoveredKind(ahead, e, p);
        CoveredKind(behind, e, p);
      }
    }
  }

  /** From a tree that is ahead, the same effects end in the same tree. */
  lemma {:induction false} AheadEndsSame(ahead: Tree, tree: Tree, es: seq<Effect>, k: nat)
    requires k <= |es| && Clean(tree, es) && Ahead(ahead, tree, tree, es, 0, Overlay(tree, es))
    ensures Clean(ahead, es[..k])
    ensures Ahead(Overlay(ahead, es[..k]), Overlay(tree, es[..k]), tree, es, k, Overlay(tree, es))
  {
    if k > 0 {
      AheadEndsSame(ahead, tree, es, k - 1);
      AheadStep(Overlay(ahead, es[..k - 1]), tree, es, k - 1);
      OverlayNext(ahead, es, k - 1);
    }
  }

  /** What was begun lands where all of it would have. */
  lemma BegunLands(tree: Tree, e: Effect, left: Tree, p: Path)
    requires e.Write?
    ensures LandsStraight(tree, e.target, Begun(e.sub, left), p) ==> LandsStraight(tree, e.target, e.sub, p)
    ensures LandsNested(tree, e.target, Begun(e.sub, left), p) ==> LandsNested(tree, e.target, e.sub, p)
  {
  }

  /** A cut merge leaves a node as it was, or of the kind the whole merge gives it. */
  lemma CutAt(tree: Tree, e: Effect, left: Tree, p: Path)
    requires e.Write? && !Fails(tree, e)
    ensures
      var cut := Merge(tree, e.target, Begun(e.sub, left));
      && (p in tree ==> p in cut)
      && (SameAt(cut, tree, p) || (Covers(tree, e, p) && SameKind(cut, Apply(tree, e), p)))
  {
    var begun := Begun(e.sub, left);
    MergeAt(tree, e.target, begun, p);
    BegunLands(tree, e, left, p);
    if Covers(tree, e, p) { CoveredKind(tree, e, p); }
  }

  /** A run that was cut while one effect was being applied leaves a tree that is ahead. */
  lemma {:induction false} CutIsAhead(tree: Tree, es: seq<Effect>, k: nat, left: Tree)
    requires k < |es| && es[k].Write? && Clean(tree, es)
    ensures
      var cut := Merge(Overlay(tree, es[..k]), es[k].target, Begun(es[k].sub, left));
      Ahead(cut, tree, tree, es, 0, Overlay(tree, es))
  {
    var before, end := Overlay(tree, es[..k]), Overlay(tree, es);
    var cut := Merge(before, es[k].target, Begun(es[k].sub, left));
    LeadsOn(tree, es, k);
    forall p ensures SameAt(cut, tree, p) || (SameKind(cut, end, p) && CoveredFrom(tree, es, 0, p)) {
      CutAt(before, es[k], left, p);
      ChangedIsCovered(tree, es, k, p);
      if p in tree { StillThere(tree, es[..k], p); }
      if Covers(before, es[k], p) { assert CoveredBy(tree, es, k, p); }
    }
  }

  lemma UncoveredStays(tree: Tree, e: Effect, p: Path)
    requires !Covers(tree, e, p)
    ensures SameAt(Apply(tree, e), tree, p)
  {
    if e.Write? { MergeAt(tree, e.target, e.sub, p); }
  }

  lemma {:induction false} ChangedIsCovered(tree: Tree, es: seq<Effect>, k: nat, p: Path)
    requires k <= |es|
    ensures SameAt(Overlay(tree, es[..k]), tree, p) || CoveredFrom(tree, es, 0, p)
  {
    if k > 0 {
      var before := Overlay(tree, es[..k - 1]);
      ChangedIsCovered(tree, es, k - 1, p);
      OverlayNext(tree, es, k - 1);
      if CoveredBy(tree, es, k - 1, p) {
        assert CoveredFrom(tree, es, 0, p);
      } else {
        UncoveredStays(before, es[k - 1], p);
      }
    }
  }

  lemma {:induction false} StillThere(tree: Tree, es: seq<Effect>, p: Path)
    requires p in tree
    ensures p in Overlay(tree, es)
    decreases |es|
  {
    if es != [] {
      var e := es[|es| - 1];
      StillThere(tree, es[..|es| - 1], p);
      if e.Write? { MergeAt(Overlay(tree, es[..|es| - 1]), e.target, e.sub, p); }
    }
  }

  /** Doing everything again after a cut ends where an uncut run ends. */
  lemma ReplayAfterCut(tree: Tree, es: seq<Effect>, k: nat, left: Tree)
    requires k < |es| && es[k].Write? && Clean(tree, es)
    ensures
      var cut := Merge(Overlay(tree, es[..k]), es[k].target, Begun(es[k].sub, left));
      Clean(cut, es) && Overlay(cut, es) == Overlay(tree, es)
  {
    var cut := Merge(Overlay(tree, es[..k]), es[k].target, Begun(es[k].sub, left));
    CutIsAhead(tree, es, k, left);
    AheadEndsSame(cut, tree, es, |es|);
    assert es[..|es|] == es;
    forall p ensures SameAt(Overlay(cut, es), Overlay(tree, es), p) {
      assert !CoveredFrom(tree, es, |es|, p);
    }
    SameEverywhere(Overlay(cut, es), Overlay(tree, es));
  }

  // ---------------------------------------------------------------- runs that may be cut

  /** A run completes exactly when no effect fails and none is cut. */
  lemma {:induction false} RunIs(tree: Tree, es: seq<Effect>, trouble: Trouble)
    ensures Run(tree, es, trouble).1 <==> Clean(tree, es) && !CutWithin(es, trouble)
    ensures Run(tree, es, trouble).1 ==> Run(tree, es, trouble).0 == Overlay(tree, es)
    decreases |es|
  {
    if es != [] {
      RunIs(tree, es[..|es| - 1], trouble);
    }
  }

  predicate CutWithin(es: seq<Effect>, trouble: Trouble) {
    trouble.CopyCut? && trouble.step < |es| && es[trouble.step].Write?
  }

  lemma {:induction false} StoppedStays(tree: Tree, es: seq<Effect>, trouble: Trouble, k: nat)
    requires k <= |es| && !Run(tree, es[..k], trouble).1
    ensures Run(tree, es, trouble) == Run(tree, es[..k], trouble)
    decreases |es|
  {
    if k == |es| {
      assert es[..k] == es;
    } else {
      assert es[..|es| - 1][..k] == es[..k];
      StoppedStays(tree, es[..|es| - 1], trouble, k);
    }
  }

  lemma {:induction false} HaltIsNotClean(tree: Tree, es: seq<Effect>, i: nat)
    requires i < |es| && es[i] == Halt
    ensures !Clean(tree, es)
    decreases |es|
  {
    if i < |es| - 1 { HaltIsNotClean(tree, es[..|es| - 1], i); }
  }

  lemma AttemptCut(before: Tree, e: Effect, k: nat, trouble: Trouble)
    requires !Fails(before, e) && CutHere(trouble, k, e)
    ensures Attempt(before, e, k, trouble) == (Merge(before, e.target, Begun(e.sub, trouble.left)), false)
  {
  }

  lemma RunOneMore(tree: Tree, es: seq<Effect>, trouble: Trouble, k: nat)
    requires k < |es| && Run(tree, es[..k], trouble).1
    ensures Run(tree, es[..k + 1], trouble) == Attempt(Run(tree, es[..k], trouble).0, es[k], k, trouble)
  {
    assert es[..k + 1][..k] == es[..k];
  }

  /** Where a run that only a copy error stops has got to. */
  lemma CutRun(tree: Tree, es: seq<Effect>, trouble: Trouble)
    requires Clean(tree, es) && CutWithin(es, trouble)
    ensures
      var k := trouble.step;
      Run(tree, es, trouble).0 == Merge(Overlay(tree, es[..k]), es[k].target, Begun(es[k].sub, trouble.left))
  {
    var k := trouble.step;
    CleanPrefix(tree, es, k);
    RunIs(tree, es[..k], trouble);
    CleanPrefix(tree, es, k + 1);
    OverlayNext(tree, es, k);
    RunOneMore(tree, es, trouble, k);
    AttemptCut(Overlay(tree, es[..k]), es[k], k, trouble);
    StoppedStays(tree, es, trouble, k + 1);
  }

  /** A run that a copy error has cut, done again, ends where an uncut run ends. */
  lemma RunAgain(tree: Tree, es: seq<Effect>, trouble: Trouble)
    requires Run(tree, es, Smooth).1 && !Run(tree, es, trouble).1
    ensures Run(Run(tree, es, trouble).0, es, Smooth) == Run(tree, es, Smooth)
  {
    RunIs(tree, es, Smooth);
    RunIs(tree, es, trouble);
    CutRun(tree, es, trouble);
    ReplayAfterCut(tree, es, trouble.step, trouble.left);
    RunIs(Run(tree, es, trouble).0, es, Smooth);
  }

  /** With separate targets, a run stops exactly when some effect fails by itself. */
  lemma RunFailsPointwise(tree: Tree, es: seq<Effect>)
    requires Separate(es)
    ensures Run(tree, es, Smooth).1 <==> forall i :: 0 <= i < |es| ==> !Fails(tree, es[i])
  {
    RunIs(tree, es, Smooth);
    CleanPointwise(tree, es);
  }

  // ---------------------------------------------------------------- runs that fail

  /** A run that fails has applied everything before the first effect that does. */
  lemma StopsAtFirst(tree: Tree, es: seq<Effect>, k: nat)
    requires k < |es| && Clean(tree, es[..k]) && Fails(Overlay(tree, es[..k]), es[k])
    ensures Run(tree, es, Smooth) == (Attempt(Overlay(tree, es[..k]), es[k], k, Smooth).0, false)
  {
    RunIs(tree, es[..k], Smooth);
    RunOneMore(tree, es, Smooth, k);
    StoppedStays(tree, es, Smooth, k + 1);
  }

  /** Copying goes on after a conflict: a file that has none itself, and none above it, is
      copied although the merge raises. */
  lemma FailedMergeCopiesTheRest(tree: Tree, e: Effect, i: nat, trouble: Trouble, rel: Path)
    requires e.Write? && !ParentsBlocked(tree, e.target) && Fails(tree, e)
    requires IsFile(e.sub, rel) && !IsDir(tree, e.target + rel)
    requires forall k :: 0 <= k <= |rel| ==> !Clashes(tree, e.target, e.sub, rel[..k])
    ensures
      var after := Attempt(tree, e, i, trouble).0;
      IsFile(after, e.target + rel) && after[e.target + rel].data == e.sub[rel].data
  {
    var salvaged := Salvaged(tree, e.target, e.sub);
    assert rel in salvaged && salvaged[rel] == e.sub[rel];
    assert (e.target + rel)[|e.target|..] == rel;
    MergeAt(tree, e.target, salvaged, e.target + rel);
  }
}
