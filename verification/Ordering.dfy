/** Strict total orders, lexicographic order and sorting without repetition. */
module Ordering {

  ghost predicate StrictTotalOrder<T(!new)>(less: (T, T) -> bool) {
    && (forall x :: !less(x, x))
    && (forall x, y :: less(x, y) || x == y || less(y, x))
    && (forall x, y, z :: less(x, y) && less(y, z) ==> less(x, z))
  }

  ghost predicate Ascending<T(!new)>(less: (T, T) -> bool, s: seq<T>) {
    forall i, j :: 0 <= i < j < |s| ==> less(s[i], s[j])
  }

  /** How Python compares strings and tuples: first difference, shorter first. */
  predicate LexLess<T(==)>(less: (T, T) -> bool, a: seq<T>, b: seq<T>) {
    b != [] && (a == [] || less(a[0], b[0]) || (a[0] == b[0] && LexLess(less, a[1..], b[1..])))
  }

  predicate CharLess(a: char, b: char) { a < b }
  predicate StringLess(a: string, b: string) { LexLess(CharLess, a, b) }
  predicate PathLess(a: seq<string>, b: seq<string>) { LexLess(StringLess, a, b) }

  lemma {:induction false} LexIrreflexive<T(!new)>(less: (T, T) -> bool, a: seq<T>)
    requires StrictTotalOrder(less)
    ensures !LexLess(less, a, a)
  {
    if a != [] { LexIrreflexive(less, a[1..]); }
  }

  lemma {:induction false} LexConnected<T(!new)>(less: (T, T) -> bool, a: seq<T>, b: seq<T>)
    requires StrictTotalOrder(less)
    ensures LexLess(less, a, b) || a == b || LexLess(less, b, a)
  {
    if a != [] && b != [] && a[0] == b[0] {
      LexConnected(less, a[1..], b[1..]);
      assert a == [a[0]] + a[1..] && b == [b[0]] + b[1..];
    }
  }

  lemma {:induction false} LexTransitive<T(!new)>(less: (T, T) -> bool, a: seq<T>, b: seq<T>, c: seq<T>)
    requires StrictTotalOrder(less) && LexLess(less, a, b) && LexLess(less, b, c)
    ensures LexLess(less, a, c)
  {
    if a != [] && a[0] == b[0] && b[0] == c[0] {
      LexTransitive(less, a[1..], b[1..], c[1..]);
    }
  }

  lemma StringsTotal()
    ensures StrictTotalOrder(StringLess)
  {
    assert StrictTotalOrder(CharLess);
    forall a ensures !StringLess(a, a) { LexIrreflexive(CharLess, a); }
    forall a, b ensures StringLess(a, b) || a == b || StringLess(b, a) { LexConnected(CharLess, a, b); }
    forall a, b, c | StringLess(a, b) && StringLess(b, c) ensures StringLess(a, c) { LexTransitive(CharLess, a, b, c); }
  }

  lemma PathsTotal()
    ensures StrictTotalOrder(PathLess)
  {
    StringsTotal();
    forall a ensures !PathLess(a, a) { LexIrreflexive(StringLess, a); }
    forall a, b ensures PathLess(a, b) || a == b || PathLess(b, a) { LexConnected(StringLess, a, b); }
    forall a, b, c | PathLess(a, b) && PathLess(b, c) ensures PathLess(a, c) { LexTransitive(StringLess, a, b, c); }
  }

  // ---------------------------------------------------------------- sorting

  function Insert<T>(less: (T, T) -> bool, x: T, s: seq<T>): seq<T> {
    if s == [] || less(x, s[0]) then [x] + s else [s[0]] + Insert(less, x, s[1..])
  }

  lemma {:induction false} InsertKeepsAscending<T(!new)>(less: (T, T) -> bool, x: T, s: seq<T>)
    requires StrictTotalOrder(less) && Ascending(less, s) && x !in s
    ensures Ascending(less, Insert(less, x, s))
    ensures forall y :: y in Insert(less, x, s) <==> y == x || y in s
  {
    if s != [] && !less(x, s[0]) {
      InsertKeepsAscending(less, x, s[1..]);
      var rest := Insert(less, x, s[1..]);
      assert s == [s[0]] + s[1..];
      forall y | y in rest ensures less(s[0], y) {
        if y in s[1..] {
          var i :| 0 <= i < |s[1..]| && s[1..][i] == y;
          assert less(s[0], s[i + 1]);
        }
      }
    }
  }

  /** Python's `sorted` on a listing without repetition. */
  function Sorted<T(!new)>(less: (T, T) -> bool, s: seq<T>): seq<T> {
    if s == [] then [] else Insert(less, s[0], Sorted(less, s[1..]))
  }

  lemma {:induction false} SortedIsAscending<T(!new)>(less: (T, T) -> bool, s: seq<T>)
    requires StrictTotalOrder(less)
    requires forall i, j :: 0 <= i < j < |s| ==> s[i] != s[j]
    ensures Ascending(less, Sorted(less, s))
    ensures forall y :: y in Sorted(less, s) <==> y in s
  {
    if s != [] {
      SortedIsAscending(less, s[1..]);
      assert s[0] !in s[1..];
      InsertKeepsAscending(less, s[0], Sorted(less, s[1..]));
      assert s == [s[0]] + s[1..];
    }
  }

  /** There is only one ascending way to list given members. */
  lemma {:induction false} AscendingIsUnique<T(!new)>(less: (T, T) -> bool, a: seq<T>, b: seq<T>)
    requires StrictTotalOrder(less) && Ascending(less, a) && Ascending(less, b)
    requires forall y :: y in a <==> y in b
    ensures a == b
  {
    forall k | 0 <= k < |a| ensures a[k] in b { assert a[k] in a; }
    forall k | 0 <= k < |b| ensures b[k] in a { assert b[k] in b; }
    if a != [] { assert a[0] in b; }
    if b != [] { assert b[0] in a; }
    if a != [] && b != [] {
      assert a[0] in b && b[0] in a;
      assert a[0] == b[0];
      assert a == [a[0]] + a[1..] && b == [b[0]] + b[1..];
      forall y ensures y in a[1..] <==> y in b[1..] {
        assert a[0] !in a[1..] && b[0] !in b[1..];
        assert y in a <==> y == a[0] || y in a[1..];
        assert y in b <==> y == b[0] || y in b[1..];
      }
      AscendingIsUnique(less, a[1..], b[1..]);
    }
  }

  /** The ascending listing of a set. */
  ghost function Listing<T(!new)>(less: (T, T) -> bool, members: set<T>): seq<T> {
    if members == {} then [] else
      var x :| x in members;
      Insert(less, x, Listing(less, members - {x}))
  }

  lemma {:induction false} ListingIsAscending<T(!new)>(less: (T, T) -> bool, members: set<T>)
    requires StrictTotalOrder(less)
    ensures Ascending(less, Listing(less, members))
    ensures forall y :: y in Listing(less, members) <==> y in members
  {
    if members != {} {
      var x :| x in members && Listing(less, members) == Insert(less, x, Listing(less, members - {x}));
      ListingIsAscending(less, members - {x});
      InsertKeepsAscending(less, x, Listing(less, members - {x}));
    }
  }
}
