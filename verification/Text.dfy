/** Text suffixes and joining text with a separator. */
module Text {

  predicate EndsWith(s: string, suffix: string) {
    |suffix| <= |s| && s[|s| - |suffix|..] == suffix
  }

  function Join(sep: char, parts: seq<string>): string {
    if parts == [] then "" else if |parts| == 1 then parts[0] else parts[0] + [sep] + Join(sep, parts[1..])
  }

  /** Parts that can be told apart after joining: none empty, none holding the separator. */
  predicate Separable(sep: char, parts: seq<string>) {
    forall i :: 0 <= i < |parts| ==> parts[i] != "" && sep !in parts[i]
  }

  lemma CutAtSeparator(sep: char, x: string, u: string, y: string, v: string)
    requires sep !in x && sep !in y && x + [sep] + u == y + [sep] + v
    ensures x == y && u == v
  {
    var whole := x + [sep] + u;
    assert whole[|x|] == sep && whole[|y|] == sep;
    forall k | 0 <= k < |x| ensures whole[k] != sep { assert whole[k] == x[k] && x[k] in x; }
    forall k | 0 <= k < |y| ensures whole[k] != sep { assert whole[k] == y[k] && y[k] in y; }
    assert x == whole[..|x|] && y == whole[..|y|];
    assert u == whole[|x| + 1..] && v == whole[|y| + 1..];
  }

  lemma {:induction false} JoinIsInjective(sep: char, a: seq<string>, b: seq<string>)
    requires Separable(sep, a) && Separable(sep, b) && Join(sep, a) == Join(sep, b)
    ensures a == b
  {
    if |a| > 1 && |b| > 1 {
      CutAtSeparator(sep, a[0], Join(sep, a[1..]), b[0], Join(sep, b[1..]));
      JoinIsInjective(sep, a[1..], b[1..]);
      assert a == [a[0]] + a[1..] && b == [b[0]] + b[1..];
    } else if |a| > 1 {
      JoinHasSeparator(sep, a);
    } else if |b| > 1 {
      JoinHasSeparator(sep, b);
    }
  }

  lemma JoinHasSeparator(sep: char, a: seq<string>)
    requires |a| > 1
    ensures sep in Join(sep, a)
  {
    assert Join(sep, a)[|a[0]|] == sep;
  }

  lemma {:induction false} JoinAvoids(sep: char, c: char, a: seq<string>)
    requires c != sep && forall i :: 0 <= i < |a| ==> c !in a[i]
    ensures c !in Join(sep, a)
  {
    if |a| > 1 { JoinAvoids(sep, c, a[1..]); }
  }
}
