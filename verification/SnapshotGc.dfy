/** Collecting old snapshots and cached versions. */
module SnapshotGc {
  import opened Wrappers
  import opened FileTree
  import opened DependencyOrder
  import opened InstallSchema
  import opened InstallDriver
  import opened SnapshotGroups

  // ---------------------------------------------------------------- sorting by time

  /** `list.sort(key=...)`: among equal times the earlier listed comes first. */
  function InsertByTime(time: string -> int, x: string, s: seq<string>): seq<string> {
    if s == [] || time(x) <= time(s[0]) then [x] + s else [s[0]] + InsertByTime(time, x, s[1..])
  }

  function SortedByTime(time: string -> int, s: seq<string>): seq<string> {
    if s == [] then [] else InsertByTime(time, s[0], SortedByTime(time, s[1..]))
  }

  ghost predicate InTimeOrder(time: string -> int, s: seq<string>) {
    forall i, j :: 0 <= i < j < |s| ==> time(s[i]) <= time(s[j])
  }

  lemma {:induction false} InsertByTimeHolds(time: string -> int, x: string, s: seq<string>)
    ensures multiset(InsertByTime(time, x, s)) == multiset(s) + multiset{x}
  {
    if s != [] && time(x) > time(s[0]) {
      InsertByTimeHolds(time, x, s[1..]);
      assert s == [s[0]] + s[1..];
    }
  }

  ghost predicate NoneBefore(time: string -> int, bound: int, s: seq<string>) {
    forall i :: 0 <= i < |s| ==> bound <= time(s[i])
  }

  lemma {:induction false} InsertByTimeOrders(time: string -> int, x: string, s: seq<string>, bound: int)
    requires InTimeOrder(time, s) && NoneBefore(time, bound, s) && bound <= time(x)
    ensures InTimeOrder(time, InsertByTime(time, x, s)) && NoneBefore(time, bound, InsertByTime(time, x, s))
  {
    if s != [] && time(x) > time(s[0]) {
      InsertByTimeOrders(time, x, s[1..], time(s[0]));
    }
  }

  lemma {:induction false} SortedByTimeOrders(time: string -> int, s: seq<string>)
    ensures InTimeOrder(time, SortedByTime(time, s))
    ensures multiset(SortedByTime(time, s)) == multiset(s)
  {
    if s != [] {
      SortedByTimeOrders(time, s[1..]);
      InsertByTimeHolds(time, s[0], SortedByTime(time, s[1..]));
      var rest := SortedByTime(time, s[1..]);
      var bound := if rest == [] || time(s[0]) <= time(rest[0]) then time(s[0]) else time(rest[0]);
      InsertByTimeOrders(time, s[0], rest, bound);
      assert s == [s[0]] + s[1..];
    }
  }

  /** The ones modified at this time, in order. */
  function AtTime(time: string -> int, s: seq<string>, t: int): seq<string> {
    if s == [] then [] else (if time(s[0]) == t then [s[0]] else []) + AtTime(time, s[1..], t)
  }

  lemma {:induction false} InsertKeepsTies(time: string -> int, x: string, s: seq<string>, t: int)
    requires InTimeOrder(time, s)
    ensures AtTime(time, InsertByTime(time, x, s), t) == (if time(x) == t then [x] else []) + AtTime(time, s, t)
  {
    if s != [] && time(x) > time(s[0]) {
      InsertKeepsTies(time, x, s[1..], t);
      var rest := InsertByTime(time, x, s[1..]);
      assert ([s[0]] + rest)[1..] == rest;
      if time(x) == t {
        assert AtTime(time, s, t) == AtTime(time, s[1..], t);
      }
    } else {
      assert ([x] + s)[1..] == s;
    }
  }

  /** Sorting by time leaves snapshots of one time in the order in which they were listed. */
  lemma {:induction false} SortIsStable(time: string -> int, s: seq<string>, t: int)
    ensures AtTime(time, SortedByTime(time, s), t) == AtTime(time, s, t)
  {
    if s != [] {
      SortIsStable(time, s[1..], t);
      SortedByTimeOrders(time, s[1..]);
      InsertKeepsTies(time, s[0], SortedByTime(time, s[1..]), t);
    }
  }

  // ---------------------------------------------------------------- groups

  /** The listed directories that are read as belonging to `key`, in listing order. */
  function Group(tree: Tree, listing: seq<string>, key: string): seq<string> {
    if listing == [] then []
    else
      var n := |listing| - 1;
      var name := listing[n];
      Group(tree, listing[..n], key) +
      if IsDir(tree, SNAPSHOTS + [name]) && GroupKey(name) == key then [name] else []
  }

  predicate Belongs(tree: Tree, listing: seq<string>, key: string, name: string) {
    name in listing && IsDir(tree, SNAPSHOTS + [name]) && GroupKey(name) == key
  }

  lemma {:induction false} GroupIs(tree: Tree, listing: seq<string>, key: string, name: string)
    ensures name in Group(tree, listing, key) <==> Belongs(tree, listing, key, name)
  {
    if listing != [] {
      var n := |listing| - 1;
      GroupIs(tree, listing[..n], key, name);
      assert listing == listing[..n] + [listing[n]];
    }
  }

  lemma {:induction false} GroupIsDistinct(tree: Tree, listing: seq<string>, key: string)
    requires NoDuplicates(listing)
    ensures NoDuplicates(Group(tree, listing, key))
  {
    if listing != [] {
      var n := |listing| - 1;
      GroupIsDistinct(tree, listing[..n], key);
      assert listing[n] !in listing[..n];
      GroupIs(tree, listing[..n], key, listing[n]);
    }
  }

  // ---------------------------------------------------------------- what is stale

  /** `max(0, n - keep)`, as a slice takes it. */
  function StaleCount(n: nat, keep: int): (k: nat)
    ensures k <= n
    ensures 0 <= keep ==> n - k == if n <= keep then n else keep
  {
    if n <= keep then 0 else if keep < 0 then n else n - keep
  }

  function Stale(tree: Tree, time: string -> int, keep: int, listing: seq<string>, key: string): seq<string> {
    var sorted := SortedByTime(time, Group(tree, listing, key));
    SortedHasLength(time, Group(tree, listing, key));
    sorted[..StaleCount(|sorted|, keep)]
  }

  function Fresh(tree: Tree, time: string -> int, keep: int, listing: seq<string>, key: string): seq<string> {
    var sorted := SortedByTime(time, Group(tree, listing, key));
    sorted[StaleCount(|sorted|, keep)..]
  }

  lemma SortedHasLength(time: string -> int, s: seq<string>)
    ensures |SortedByTime(time, s)| == |s|
  {
    SortedByTimeOrders(time, s);
    assert |multiset(SortedByTime(time, s))| == |multiset(s)|;
  }

  /** Cutting a list without repetition in two. */
  lemma CutInTwo(s: seq<string>, t: seq<string>, k: nat)
    requires NoDuplicates(s) && multiset(t) == multiset(s) && k <= |t|
    ensures multiset(t[..k]) + multiset(t[k..]) == multiset(s)
    ensures forall name :: name in s <==> name in t[..k] || name in t[k..]
    ensures forall name :: !(name in t[..k] && name in t[k..])
  {
    assert t == t[..k] + t[k..];
    forall name ensures name in s <==> name in t[..k] || name in t[k..] {
      assert name in s <==> name in multiset(s);
      assert name in t <==> name in multiset(t);
    }
    forall name ensures !(name in t[..k] && name in t[k..]) {
      DistinctCount(s, name);
      assert multiset(t)[name] == multiset(t[..k])[name] + multiset(t[k..])[name];
      assert name in t[..k] ==> multiset(t[..k])[name] >= 1;
      assert name in t[k..] ==> multiset(t[k..])[name] >= 1;
    }
  }

  /** Of each group exactly the `min(n, keep)` newest stay; stale and fresh together are the
      group, and have nothing in common. */
  lemma RetentionIsExact(tree: Tree, time: string -> int, keep: nat, listing: seq<string>, key: string)
    requires NoDuplicates(listing)
    ensures
      var group, stale, kept := Group(tree, listing, key), Stale(tree, time, keep, listing, key), Fresh(tree, time, keep, listing, key);
      && multiset(stale) + multiset(kept) == multiset(group)
      && (forall name :: name in group <==> name in stale || name in kept)
      && (forall name :: !(name in stale && name in kept))
      && |kept| == (if |group| <= keep then |group| else keep)
      && (forall x, y :: x in stale && y in kept ==> time(x) <= time(y))
  {
    var group := Group(tree, listing, key);
    var sorted := SortedByTime(time, group);
    SortedByTimeOrders(time, group);
    SortedHasLength(time, group);
    GroupIsDistinct(tree, listing, key);
    CutInTwo(group, sorted, StaleCount(|sorted|, keep));
    CutByTime(time, sorted, StaleCount(|sorted|, keep));
  }

  lemma CutByTime(time: string -> int, s: seq<string>, k: nat)
    requires InTimeOrder(time, s) && k <= |s|
    ensures forall x, y :: x in s[..k] && y in s[k..] ==> time(x) <= time(y)
  {
    forall x, y | x in s[..k] && y in s[k..] ensures time(x) <= time(y) {
      var i :| 0 <= i < k && s[i] == x;
      var j :| k <= j < |s| && s[j] == y;
    }
  }

  // ---------------------------------------------------------------- removing

  function RemoveAll(tree: Tree, names: seq<string>): Tree {
    if names == [] then tree
    else Remove(RemoveAll(tree, names[..|names| - 1]), SNAPSHOTS + [names[|names| - 1]])
  }

  /** What is removed lies below one of the named snapshots. */
  lemma {:induction false} RemoveAllAt(tree: Tree, names: seq<string>, p: Path)
    ensures p in RemoveAll(tree, names) <==> p in tree && !(|p| >= 2 && p[0] == SNAPSHOTS[0] && p[1] in names)
    ensures p in RemoveAll(tree, names) ==> RemoveAll(tree, names)[p] == tree[p]
  {
    if names != [] {
      var n := |names| - 1;
      RemoveAllAt(tree, names[..n], p);
      assert SNAPSHOTS + [names[n]] <= p <==> |p| >= 2 && p[0] == SNAPSHOTS[0] && p[1] == names[n];
      assert names == names[..n] + [names[n]];
    }
  }

  /** The keys in the order in which they first occur, as a dictionary keeps them. */
  function Keys(tree: Tree, listing: seq<string>): seq<string> {
    if listing == [] then []
    else
      var n := |listing| - 1;
      var name, before := listing[n], Keys(tree, listing[..n]);
      if IsDir(tree, SNAPSHOTS + [name]) && GroupKey(name) !in before then before + [GroupKey(name)] else before
  }

  lemma {:induction false} KeysAre(tree: Tree, listing: seq<string>, key: string)
    ensures key in Keys(tree, listing) <==> exists name :: Belongs(tree, listing, key, name)
  {
    if listing != [] {
      var n := |listing| - 1;
      KeysAre(tree, listing[..n], key);
      assert listing == listing[..n] + [listing[n]];
      if key in Keys(tree, listing[..n]) {
        var name :| Belongs(tree, listing[..n], key, name);
        assert Belongs(tree, listing, key, name);
      }
      if IsDir(tree, SNAPSHOTS + [listing[n]]) && key == GroupKey(listing[n]) {
        assert Belongs(tree, listing, key, listing[n]);
      }
      forall name | Belongs(tree, listing, key, name) && name != listing[n] ensures Belongs(tree, listing[..n], key, name) { }
    }
  }

  function AllStale(tree: Tree, time: string -> int, keep: int, listing: seq<string>, keys: seq<string>): seq<string> {
    if keys == [] then []
    else
      var n := |keys| - 1;
      AllStale(tree, time, keep, listing, keys[..n]) + Stale(tree, time, keep, listing, keys[n])
  }

  lemma {:induction false} AllStaleIs(tree: Tree, time: string -> int, keep: int, listing: seq<string>,
      keys: seq<string>, name: string)
    ensures name in AllStale(tree, time, keep, listing, keys) <==>
            exists key :: key in keys && name in Stale(tree, time, keep, listing, key)
  {
    if keys != [] {
      var n := |keys| - 1;
      AllStaleIs(tree, time, keep, listing, keys[..n], name);
      assert keys == keys[..n] + [keys[n]];
    }
  }

  lemma StaleIsInGroup(tree: Tree, time: string -> int, keep: int, listing: seq<string>, key: string, name: string)
    requires name in Stale(tree, time, keep, listing, key)
    ensures Belongs(tree, listing, key, name)
  {
    var group := Group(tree, listing, key);
    SortedByTimeOrders(time, group);
    assert name in multiset(SortedByTime(time, group));
    assert name in group;
    GroupIs(tree, listing, key, name);
  }

  /** What is removed altogether: the stale part of each snapshot's own group. */
  lemma RemovedExactly(tree: Tree, time: string -> int, keep: int, listing: seq<string>, name: string)
    ensures name in AllStale(tree, time, keep, listing, Keys(tree, listing)) <==>
            name in Stale(tree, time, keep, listing, GroupKey(name))
  {
    AllStaleIs(tree, time, keep, listing, Keys(tree, listing), name);
    if name in Stale(tree, time, keep, listing, GroupKey(name)) {
      StaleIsInGroup(tree, time, keep, listing, GroupKey(name), name);
      KeysAre(tree, listing, GroupKey(name));
    }
    forall key | name in Stale(tree, time, keep, listing, key) ensures key == GroupKey(name) {
      StaleIsInGroup(tree, time, keep, listing, key, name);
    }
  }

  // ---------------------------------------------------------------- cached versions

  function KeepVersions(cache: Tree, versions: set<string>): Tree {
    map p | p in cache && (p == [] || !IsDir(cache, [p[0]]) || p[0] in versions) :: cache[p]
  }

  lemma OnlyKeptVersions(cache: Tree, versions: set<string>)
    ensures forall name :: IsDir(KeepVersions(cache, versions), [name]) <==> IsDir(cache, [name]) && name in versions
    ensures forall name :: name in versions ==> Sub(KeepVersions(cache, versions), [name]) == Sub(cache, [name])
  {
    forall name | name in versions ensures Sub(KeepVersions(cache, versions), [name]) == Sub(cache, [name]) {
      SameBelow(KeepVersions(cache, versions), cache, [name]);
    }
  }

  /** The dictionary of the groups, and its keys in order. */
  ghost predicate Grouped(tree: Tree, listing: seq<string>, byPlugin: map<string, seq<string>>, keys: seq<string>) {
    && keys == Keys(tree, listing)
    && (forall key :: key in byPlugin <==> key in keys)
    && (forall key :: key in byPlugin ==> byPlugin[key] == Group(tree, listing, key))
    && (forall key :: key !in byPlugin ==> Group(tree, listing, key) == [])
  }

  lemma GroupedNext(tree: Tree, listing: seq<string>, name: string, byPlugin: map<string, seq<string>>, keys: seq<string>)
    requires Grouped(tree, listing, byPlugin, keys)
    ensures
      var key := GroupKey(name);
      if IsDir(tree, SNAPSHOTS + [name]) then
        Grouped(tree, listing + [name], byPlugin[key := (if key in byPlugin then byPlugin[key] else []) + [name]],
                if key in byPlugin then keys else keys + [key])
      else Grouped(tree, listing + [name], byPlugin, keys)
  {
    if IsDir(tree, SNAPSHOTS + [name]) {
      GroupedAdd(tree, listing, name, byPlugin, keys);
    } else {
      NextKeys(tree, listing, name);
      forall k ensures Group(tree, listing + [name], k) == Group(tree, listing, k) { NextGroup(tree, listing, name, k); }
    }
  }

  lemma GroupedAdd(tree: Tree, listing: seq<string>, name: string, byPlugin: map<string, seq<string>>, keys: seq<string>)
    requires Grouped(tree, listing, byPlugin, keys) && IsDir(tree, SNAPSHOTS + [name])
    ensures
      var key := GroupKey(name);
      Grouped(tree, listing + [name], byPlugin[key := (if key in byPlugin then byPlugin[key] else []) + [name]],
              if key in byPlugin then keys else keys + [key])
  {
    var key, all := GroupKey(name), listing + [name];
    var more := byPlugin[key := (if key in byPlugin then byPlugin[key] else []) + [name]];
    NextKeys(tree, listing, name);
    forall k | k in more ensures more[k] == Group(tree, all, k) { GroupAt(tree, listing, name, byPlugin, keys, k); }
    forall k | k !in more ensures Group(tree, all, k) == [] { GroupAt(tree, listing, name, byPlugin, keys, k); }
  }

  lemma GroupAt(tree: Tree, listing: seq<string>, name: string, byPlugin: map<string, seq<string>>, keys: seq<string>,
                k: string)
    requires Grouped(tree, listing, byPlugin, keys) && IsDir(tree, SNAPSHOTS + [name])
    ensures Group(tree, listing + [name], k) ==
      (if k in byPlugin then byPlugin[k] else []) + if k == GroupKey(name) then [name] else []
  {
    NextGroup(tree, listing, name, k);
  }

  lemma NextGroup(tree: Tree, listing: seq<string>, name: string, key: string)
    ensures Group(tree, listing + [name], key) ==
      if IsDir(tree, SNAPSHOTS + [name]) && GroupKey(name) == key then Group(tree, listing, key) + [name]
      else Group(tree, listing, key)
  {
    assert (listing + [name])[..|listing|] == listing;
  }

  lemma NextKeys(tree: Tree, listing: seq<string>, name: string)
    ensures Keys(tree, listing + [name]) ==
      if IsDir(tree, SNAPSHOTS + [name]) && GroupKey(name) !in Keys(tree, listing) then Keys(tree, listing) + [GroupKey(name)]
      else Keys(tree, listing)
  {
    assert (listing + [name])[..|listing|] == listing;
  }

  // ---------------------------------------------------------------- the collector

  class GarbageCollector {
    const keepSnapshots: int
    var tree: Tree
    var cache: Option<Tree>

    constructor (keepSnapshots: int, tree: Tree, cache: Option<Tree>)
      ensures this.keepSnapshots == keepSnapshots && this.tree == tree && this.cache == cache
    {
      this.keepSnapshots, this.tree, this.cache := keepSnapshots, tree, cache;
    }

    /** `collect_snapshots`, given what lies in the snapshots directory and when it was modified. */
    method CollectSnapshots(listing: seq<string>, time: string -> int) returns (removed: seq<string>)
      modifies this`tree
      ensures !IsDir(old(tree), SNAPSHOTS) ==> removed == [] && tree == old(tree)
      ensures IsDir(old(tree), SNAPSHOTS) ==>
                removed == AllStale(old(tree), time, keepSnapshots, listing, Keys(old(tree), listing))
      ensures tree == RemoveAll(old(tree), removed)
    {
      removed := [];
      if !IsDir(tree, SNAPSHOTS) {
        return;
      }
      var byPlugin, keys := GroupByPlugin(listing);
      for k := 0 to |keys|
        invariant removed == AllStale(old(tree), time, keepSnapshots, listing, keys[..k])
        invariant tree == RemoveAll(old(tree), removed)
      {
        assert keys[k] in keys && keys[..k + 1][..k] == keys[..k];
        var snapshots := SortedByTime(time, byPlugin[keys[k]]);
        var stale := snapshots[..StaleCount(|snapshots|, keepSnapshots)];
        RemoveSnapshots(stale);
        RemoveAllAppends(old(tree), removed, stale);
        removed := removed + stale;
      }
      assert keys[..|keys|] == keys;
    }

    method GroupByPlugin(listing: seq<string>) returns (byPlugin: map<string, seq<string>>, keys: seq<string>)
      ensures Grouped(tree, listing, byPlugin, keys)
    {
      byPlugin, keys := map[], [];
      for i := 0 to |listing|
        invariant Grouped(tree, listing[..i], byPlugin, keys)
      {
        var name := listing[i];
        GroupedNext(tree, listing[..i], name, byPlugin, keys);
        assert listing[..i + 1] == listing[..i] + [name];
        if IsDir(tree, SNAPSHOTS + [name]) {
          byPlugin, keys := AddTo(byPlugin, keys, GroupKey(name), name);
        }
      }
      assert listing[..|listing|] == listing;
    }

    /** `setdefault(key, []).append(name)`, and the keys in the order in which they came. */
    method AddTo(byPlugin: map<string, seq<string>>, keys: seq<string>, key: string, name: string)
      returns (more: map<string, seq<string>>, allKeys: seq<string>)
      ensures allKeys == if key in byPlugin then keys else keys + [key]
      ensures more == byPlugin[key := (if key in byPlugin then byPlugin[key] else []) + [name]]
    {
      more, allKeys := byPlugin, keys;
      if key !in more {
        more := more[key := []];
        allKeys := allKeys + [key];
      }
      more := more[key := more[key] + [name]];
    }

    method RemoveSnapshots(names: seq<string>)
      modifies this`tree
      ensures tree == RemoveAll(old(tree), names)
    {
      for i := 0 to |names|
        invariant tree == RemoveAll(old(tree), names[..i])
      {
        assert names[..i + 1][..i] == names[..i];
        tree := Remove(tree, SNAPSHOTS + [names[i]]);
      }
      assert names[..|names|] == names;
    }

    /** `collect_cache`, given what lies in the cache directory. */
    method CollectCache(listing: seq<string>, versions: set<string>) returns (removed: seq<string>)
      requires cache.Some? ==> forall name :: IsDir(cache.value, [name]) ==> name in listing
      modifies this`cache
      ensures old(cache).None? ==> cache.None? && removed == []
      ensures old(cache).Some? && !IsDir(old(cache).value, []) ==> cache == old(cache) && removed == []
      ensures old(cache).Some? && IsDir(old(cache).value, []) ==> cache == Some(KeepVersions(old(cache).value, versions))
      ensures old(cache).Some? && IsDir(old(cache).value, []) ==>
                NoDuplicates(removed) &&
                forall name :: name in removed <==> IsDir(old(cache).value, [name]) && name !in versions
    {
      removed := [];
      if cache.None? || !IsDir(cache.value, []) {
        return;
      }
      var start := cache.value;
      for i := 0 to |listing|
        invariant cache.Some? && cache.value == WithoutVersions(start, listing[..i], versions)
        invariant NoDuplicates(removed)
        invariant forall name :: name in removed <==> name in listing[..i] && IsDir(start, [name]) && name !in versions
      {
        var name := listing[i];
        VersionsNext(start, listing, i, versions);
        assert listing[..i + 1] == listing[..i] + [name];
        if IsDir(cache.value, [name]) && name !in versions {
          cache := Some(Remove(cache.value, [name]));
          removed := removed + [name];
        }
      }
      assert listing[..|listing|] == listing;
      assert WithoutVersions(start, listing, versions) == KeepVersions(start, versions);
    }
  }

  function WithoutVersions(cache: Tree, names: seq<string>, versions: set<string>): Tree {
    map p | p in cache && !(p != [] && p[0] in names && IsDir(cache, [p[0]]) && p[0] !in versions) :: cache[p]
  }

  lemma VersionsNext(start: Tree, listing: seq<string>, i: nat, versions: set<string>)
    requires i < |listing|
    ensures
      var now, next := WithoutVersions(start, listing[..i], versions), WithoutVersions(start, listing[..i + 1], versions);
      next == if IsDir(now, [listing[i]]) && listing[i] !in versions then Remove(now, [listing[i]]) else now
  {
    assert listing[..i + 1] == listing[..i] + [listing[i]];
    assert forall p: Path :: [listing[i]] <= p <==> p != [] && p[0] == listing[i];
  }

  lemma {:induction false} RemoveAllAppends(tree: Tree, a: seq<string>, b: seq<string>)
    ensures RemoveAll(RemoveAll(tree, a), b) == RemoveAll(tree, a + b)
  {
    if b != [] {
      var n := |b| - 1;
      RemoveAllAppends(tree, a, b[..n]);
      assert (a + b)[..|a + b| - 1] == a + b[..n];
    } else {
      assert a + b == a;
    }
  }
}
