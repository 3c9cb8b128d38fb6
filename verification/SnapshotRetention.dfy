/** Whose snapshots are kept: retention seen from the plugins and extensions. */
module SnapshotRetention {
  import opened FileTree
  import opened DependencyOrder
  import opened InstallSchema
  import opened InstallDriver
  import opened SnapshotNames
  import opened SnapshotGroups
  import opened SnapshotGc

  /** A plugin or an extension; the two may share an id. */
  datatype Item = Item(kind: Kind, id: string)

  /** A snapshot by the step that took it, the item it is of, and the time. */
  datatype Taken = Taken(stepId: string, item: Item, now: nat)

  function Named(t: Taken): string { SnapshotName(t.stepId, t.item.id, t.now) }

  /** A project tree, what lies in its snapshots directory, what each was taken of, and when
      it was modified. */
  datatype Scene = Scene(tree: Tree, listing: seq<string>, log: map<string, Taken>, time: string -> int)

  predicate Listed(s: Scene, name: string) { name in s.listing && IsDir(s.tree, SNAPSHOTS + [name]) }

  /** There is a snapshots directory, and every listed directory in it is a snapshot of one
      of these items. */
  ghost predicate Holds(s: Scene, items: set<Item>) {
    && IsDir(s.tree, SNAPSHOTS) && NoDuplicates(s.listing)
    && forall name :: Listed(s, name) ==> name in s.log && Named(s.log[name]) == name && s.log[name].item in items
  }

  predicate TakenOf(s: Scene, item: Item, name: string) {
    Listed(s, name) && name in s.log && s.log[name].item == item
  }

  function Own(s: Scene, item: Item): set<string> {
    set name | name in s.listing && TakenOf(s, item, name)
  }

  /** What a collection removes where there is a snapshots directory. */
  function Collected(s: Scene, keep: int): seq<string> {
    AllStale(s.tree, s.time, keep, s.listing, Keys(s.tree, s.listing))
  }

  function Left(s: Scene, keep: int, item: Item): set<string> {
    set name | name in Own(s, item) && name !in Collected(s, keep)
  }

  /** Of the item's own snapshots exactly the `min(n, keep)` newest are left. */
  ghost predicate KeepsNewest(s: Scene, keep: nat, item: Item) {
    && |Left(s, keep, item)| == (if |Own(s, item)| <= keep then |Own(s, item)| else keep)
    && forall x, y :: x in Own(s, item) && x in Collected(s, keep) && y in Left(s, keep, item) ==> s.time(x) <= s.time(y)
  }

  /** Whatever snapshots of these items there are, the newest of this one are kept. */
  ghost predicate KeptPerItem(items: set<Item>, item: Item) {
    forall s: Scene, keep: nat :: Holds(s, items) ==> KeepsNewest(s, keep, item)
  }

  /** No other item, of either kind, has an id that ends the same after its last hyphen. */
  ghost predicate Unshared(items: set<Item>, item: Item) {
    forall other :: other in items && AfterLastHyphen(other.id) == AfterLastHyphen(item.id) ==> other == item
  }

  // ---------------------------------------------------------------- unshared ids

  /** If no other id ends the same, the group of an item is its own snapshots. */
  lemma UnsharedGroupIsOwn(s: Scene, items: set<Item>, item: Item, name: string)
    requires Holds(s, items) && Unshared(items, item)
    ensures name in Group(s.tree, s.listing, AfterLastHyphen(item.id)) <==> name in Own(s, item)
  {
    GroupIs(s.tree, s.listing, AfterLastHyphen(item.id), name);
    if Listed(s, name) {
      var t := s.log[name];
      ParsedKey(t.stepId, t.item.id, t.now);
    }
  }

  lemma {:induction false} SizeOfDistinct(names: seq<string>, members: set<string>)
    requires NoDuplicates(names) && forall name :: name in members <==> name in names
    ensures |members| == |names|
  {
    if names != [] {
      var n := |names| - 1;
      assert names == names[..n] + [names[n]];
      SizeOfDistinct(names[..n], members - {names[n]});
    } else {
      assert members == {};
    }
  }

  lemma PartsAreDistinct(group: seq<string>, a: seq<string>, b: seq<string>)
    requires NoDuplicates(group) && multiset(a) + multiset(b) == multiset(group)
    ensures NoDuplicates(b)
  {
    forall i, j | 0 <= i < j < |b| ensures b[i] != b[j] {
      if b[i] == b[j] {
        assert b == b[..i] + [b[i]] + b[i + 1..j] + [b[j]] + b[j + 1..];
        assert multiset(b)[b[i]] >= 2;
        assert multiset(group)[b[i]] >= 2;
        DistinctCount(group, b[i]);
      }
    }
  }

  lemma UnsharedIsKept(s: Scene, keep: nat, items: set<Item>, item: Item)
    requires Holds(s, items) && Unshared(items, item)
    ensures KeepsNewest(s, keep, item)
  {
    var key := AfterLastHyphen(item.id);
    var group := Group(s.tree, s.listing, key);
    var stale, kept := Stale(s.tree, s.time, keep, s.listing, key), Fresh(s.tree, s.time, keep, s.listing, key);
    RetentionIsExact(s.tree, s.time, keep, s.listing, key);
    GroupIsDistinct(s.tree, s.listing, key);
    forall name ensures name in group <==> name in Own(s, item) { UnsharedGroupIsOwn(s, items, item, name); }
    forall name | name in group ensures name in Collected(s, keep) <==> name in stale {
      GroupIs(s.tree, s.listing, key, name);
      RemovedExactly(s.tree, s.time, keep, s.listing, name);
    }
    PartsAreDistinct(group, stale, kept);
    SizeOfDistinct(group, Own(s, item));
    SizeOfDistinct(kept, Left(s, keep, item));
  }

  // ---------------------------------------------------------------- shared ids

  /** If another item's id ends the same, be it an extension with the plugin's own id, the
      only snapshot of an item can be collected although one is to be kept for each. */
  lemma SharedGroupLosesOnlySnapshot(tree: Tree, time: string -> int, lost: Taken, kept: Taken)
    requires lost.item != kept.item && AfterLastHyphen(lost.item.id) == AfterLastHyphen(kept.item.id)
    requires time(Named(lost)) <= time(Named(kept))
    requires IsDir(tree, SNAPSHOTS + [Named(lost)]) && IsDir(tree, SNAPSHOTS + [Named(kept)])
    ensures OnlyFirstRemoved(tree, time, 1, [Named(lost), Named(kept)])
  {
    ParsedKey(lost.stepId, lost.item.id, lost.now);
    ParsedKey(kept.stepId, kept.item.id, kept.now);
    OlderOfTwo(tree, time, Named(lost), Named(kept));
  }

  predicate OnlyFirstRemoved(tree: Tree, time: string -> int, keep: int, listing: seq<string>) {
    AllStale(tree, time, keep, listing, Keys(tree, listing)) == listing[..if listing == [] then 0 else 1]
  }

  /** Two snapshots, one of each item, taken at different times. */
  function SharedScene(lost: Taken, kept: Taken): Scene {
    var x, y := Named(lost), Named(kept);
    Scene(map[[] := Dir, SNAPSHOTS := Dir, SNAPSHOTS + [x] := Dir, SNAPSHOTS + [y] := Dir], [x, y],
          map[x := lost, y := kept], name => 0)
  }

  lemma NamesDiffer(step: string, a: string, b: string)
    ensures SnapshotName(step, a, 0) != SnapshotName(step, b, 1)
  {
    var x, y := SnapshotName(step, a, 0), SnapshotName(step, b, 1);
    assert x[|x| - 1] == '0' && y[|y| - 1] == '1';
  }

  lemma SharedIsNotKept(items: set<Item>, item: Item, other: Item)
    requires item in items && other in items && other != item
    requires AfterLastHyphen(other.id) == AfterLastHyphen(item.id)
    ensures !KeptPerItem(items, item)
  {
    var lost, kept := Taken("s", item, 0), Taken("s", other, 1);
    NamesDiffer("s", item.id, other.id);
    assert Holds(SharedScene(lost, kept), items);
    NothingLeft(SharedScene(lost, kept), lost, kept);
  }

  lemma NothingLeft(s: Scene, lost: Taken, kept: Taken)
    requires lost.item != kept.item && AfterLastHyphen(lost.item.id) == AfterLastHyphen(kept.item.id)
    requires s.listing == [Named(lost), Named(kept)] && Listed(s, Named(lost)) && Listed(s, Named(kept))
    requires Named(lost) in s.log && s.log[Named(lost)] == lost && Named(kept) in s.log && s.log[Named(kept)] == kept
    requires s.time(Named(lost)) <= s.time(Named(kept))
    ensures !KeepsNewest(s, 1, lost.item)
  {
    SharedGroupLosesOnlySnapshot(s.tree, s.time, lost, kept);
    FirstIsCollected(s);
    OwnIsFirst(s, lost, kept);
    OnlyOneIsLost(s, lost.item, Named(lost));
  }

  lemma FirstIsCollected(s: Scene)
    requires s.listing != [] && OnlyFirstRemoved(s.tree, s.time, 1, s.listing)
    ensures s.listing[0] in Collected(s, 1)
  {
    assert s.listing[..1][0] == s.listing[0];
  }

  lemma OwnIsFirst(s: Scene, lost: Taken, kept: Taken)
    requires lost.item != kept.item && s.listing == [Named(lost), Named(kept)] && Listed(s, Named(lost))
    requires Named(lost) in s.log && s.log[Named(lost)] == lost && Named(kept) in s.log && s.log[Named(kept)] == kept
    ensures Own(s, lost.item) == {Named(lost)}
  {
  }

  lemma OnlyOneIsLost(s: Scene, item: Item, name: string)
    requires Own(s, item) == {name} && name in Collected(s, 1)
    ensures !KeepsNewest(s, 1, item)
  {
    assert Left(s, 1, item) == {};
  }

  /** Retention is per item exactly for the items whose id, after its last hyphen, is shared
      with no other item of either kind. */
  lemma RetentionIsPerItemExactly(items: set<Item>, item: Item)
    requires item in items
    ensures KeptPerItem(items, item) <==> Unshared(items, item)
  {
    if Unshared(items, item) {
      forall s: Scene, keep: nat | Holds(s, items) ensures KeepsNewest(s, keep, item) {
        UnsharedIsKept(s, keep, items, item);
      }
    } else {
      var other :| other in items && AfterLastHyphen(other.id) == AfterLastHyphen(item.id) && other != item;
      SharedIsNotKept(items, item, other);
    }
  }

  lemma OlderOfTwo(tree: Tree, time: string -> int, x: string, y: string)
    requires GroupKey(x) == GroupKey(y) && time(x) <= time(y)
    requires IsDir(tree, SNAPSHOTS + [x]) && IsDir(tree, SNAPSHOTS + [y])
    ensures AllStale(tree, time, 1, [x, y], Keys(tree, [x, y])) == [x]
  {
    var key := GroupKey(x);
    GroupOfTwo(tree, x, y);
    assert SortedByTime(time, [x, y]) == [x, y] by {
      assert [x, y][1..] == [y] && [y][1..] == [];
      assert SortedByTime(time, [y]) == InsertByTime(time, y, []);
    }
    assert Stale(tree, time, 1, [x, y], key) == [x];
    assert [key][..0] == [];
    assert AllStale(tree, time, 1, [x, y], [key]) == [] + [x];
  }

  lemma GroupOfTwo(tree: Tree, x: string, y: string)
    requires GroupKey(x) == GroupKey(y)
    requires IsDir(tree, SNAPSHOTS + [x]) && IsDir(tree, SNAPSHOTS + [y])
    ensures Group(tree, [x, y], GroupKey(x)) == [x, y]
    ensures Keys(tree, [x, y]) == [GroupKey(x)]
  {
    assert [x, y][..1] == [x] && [x][..0] == [];
    assert Group(tree, [x], GroupKey(x)) == [] + [x];
    assert Keys(tree, [x]) == [] + [GroupKey(x)];
  }
}
