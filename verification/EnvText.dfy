/** What the lines of an environment file mean, and what seeding does to its text. */
module EnvText {
  import opened Wrappers
  import opened Text
  import opened EnvFile

  lemma SpaceIs(c: char)
    ensures IsSpace(c) <==> c in " \t\n\r\U{000B}\U{000C}"
  {
    var spaces := " \t\n\r\U{000B}\U{000C}";
    assert spaces[0] == ' ' && spaces[1] == '\t' && spaces[2] == '\n' && spaces[3] == '\r';
    assert spaces[4] == '\U{000B}' && spaces[5] == '\U{000C}';
  }

  /** `KEY = value`, with any space around the two, sets the key to the value; the value may
      hold further equals signs. */
  lemma AssignmentLine(a: string, key: string, b: string, c: string, value: string, d: string)
    requires AllSpace(a) && AllSpace(b) && AllSpace(c) && AllSpace(d) && Trimmed(key) && Trimmed(value)
    requires key != "" && key[0] != '#' && '=' !in key
    ensures ParseLine(a + (key + b + "=" + c + value) + d) == Some(Setting(key, value))
  {
    if value == "" { EmptyAssignment(a, key, b, c, d); } else { FullAssignment(a, key, b, c, value, d); }
  }

  lemma EmptyAssignment(a: string, key: string, b: string, c: string, d: string)
    requires AllSpace(a) && AllSpace(b) && AllSpace(c) && AllSpace(d) && Trimmed(key)
    requires key != "" && key[0] != '#' && '=' !in key
    ensures ParseLine(a + (key + b + "=" + c + "") + d) == Some(Setting(key, ""))
  {
    var s := key + b + "=";
    assert s + ("" + "") == s;
    StrippedAssignment(s, key, b, "", "");
    BareKeyIsTrimmed(key, b);
    PaddedLine(a, s, c + d, key, "");
    EmptyValue(a, s, c, d);
  }

  lemma FullAssignment(a: string, key: string, b: string, c: string, value: string, d: string)
    requires AllSpace(a) && AllSpace(b) && AllSpace(c) && AllSpace(d) && Trimmed(key) && Trimmed(value)
    requires key != "" && key[0] != '#' && '=' !in key && value != ""
    ensures ParseLine(a + (key + b + "=" + c + value) + d) == Some(Setting(key, value))
  {
    var s := key + b + "=" + (c + value);
    StrippedAssignment(s, key, b, c, value);
    FullIsTrimmed(key, b, c, value);
    PaddedLine(a, s, d, key, value);
    assert key + b + "=" + c + value == s;
  }

  lemma FullIsTrimmed(key: string, b: string, c: string, value: string)
    requires Trimmed(key) && Trimmed(value) && key != "" && value != ""
    ensures Trimmed(key + b + "=" + (c + value))
  {
    var s := key + b + "=" + (c + value);
    assert s[|s| - 1] == value[|value| - 1] && s[0] == key[0];
  }

  lemma BareKeyIsTrimmed(key: string, b: string)
    requires Trimmed(key) && key != ""
    ensures Trimmed(key + b + "=")
  {
    var s := key + b + "=";
    assert s[|s| - 1] == '=' && s[0] == key[0] && !IsSpace('=');
  }

  lemma EmptyValue(a: string, s: string, c: string, d: string)
    ensures a + (s + c + "") + d == a + s + (c + d)
  {
  }

  lemma PaddedLine(a: string, s: string, d: string, key: string, value: string)
    requires AllSpace(a) && AllSpace(d) && Trimmed(s) && s != "" && s[0] != '#' && '=' in s
    requires var i := IndexOf(s, '='); i < |s| && Strip(s[..i]) == key && Strip(s[i + 1..]) == value
    ensures ParseLine(a + s + d) == Some(Setting(key, value))
  {
    StripIs(a, s, d);
  }

  lemma NoEqualsInSpace(s: string)
    requires AllSpace(s)
    ensures '=' !in s
  {
    assert !IsSpace('=');
  }

  lemma FirstEquals(x: string, y: string)
    requires '=' !in x
    ensures
      var s := x + "=" + y;
      IndexOf(s, '=') == |x| < |s| && '=' in s && s[..|x|] == x && s[|x| + 1..] == y
  {
    var s := x + "=" + y;
    assert s[|x|] == '=' && s[..|x|] == x && s[|x| + 1..] == y;
    IndexOfIs(s, '=', |x|);
  }

  lemma StrippedAssignment(s: string, key: string, b: string, c: string, value: string)
    requires s == key + b + "=" + (c + value) && AllSpace(b) && AllSpace(c) && Trimmed(key) && Trimmed(value)
    requires key != "" && key[0] != '#' && '=' !in key
    ensures s != "" && s[0] != '#' && '=' in s
    ensures var i := IndexOf(s, '='); i < |s| && Strip(s[..i]) == key && Strip(s[i + 1..]) == value
  {
    NoEqualsInSpace(b);
    FirstEquals(key + b, c + value);
    assert s[0] == key[0];
    StripsTo(key, b);
    StripIs(c, value, "");
    assert c + value + "" == c + value;
  }

  /** Blank lines, comments and lines without an equals sign set nothing. */
  lemma OtherLines(a: string, rest: string)
    requires AllSpace(a)
    ensures ParseLine(a) == None
    ensures ParseLine(a + "#" + rest) == None
    ensures '=' !in rest ==> ParseLine(rest) == None
  {
    StripIs(a, "", "");
    assert a + "" + "" == a;
    CommentStays(a, rest);
    StripKeepsNothingNew(rest);
  }

  lemma CommentStays(a: string, rest: string)
    requires AllSpace(a)
    ensures Strip(a + "#" + rest) != "" && Strip(a + "#" + rest)[0] == '#'
  {
    var t := "#" + rest;
    assert a + "#" + rest == a + t && t[0] == '#' && !IsSpace('#');
    StripLeftSkips(a, t);
    var b := StripRightSplits(t);
    assert t == StripRight(t) + b;
    assert StripRight(t) == "" ==> b == t;
  }

  // ---------------------------------------------------------------- whole files

  predicate Sets(lines: seq<string>, i: int, key: string, value: string) {
    0 <= i < |lines| && ParseLine(lines[i]) == Some(Setting(key, value))
  }

  predicate SetsNothing(line: string, key: string) { ParseLine(line).None? || ParseLine(line).value.key != key }

  /** Line `i` is the last one that sets the key. */
  predicate LastSets(lines: seq<string>, i: int, key: string, value: string) {
    Sets(lines, i, key, value) && forall j :: i < j < |lines| ==> SetsNothing(lines[j], key)
  }

  lemma StillLast(lines: seq<string>, i: int, key: string, value: string)
    requires lines != [] && LastSets(lines[..|lines| - 1], i, key, value) && SetsNothing(lines[|lines| - 1], key)
    ensures LastSets(lines, i, key, value)
  {
    assert forall j :: 0 <= j < |lines| - 1 ==> lines[..|lines| - 1][j] == lines[j];
  }

  lemma {:induction false} LastLineWins(lines: seq<string>, key: string)
    ensures key in ParseLines(lines) ==> exists i :: LastSets(lines, i, key, ParseLines(lines)[key])
    ensures key !in ParseLines(lines) ==> forall i :: 0 <= i < |lines| ==> SetsNothing(lines[i], key)
  {
    if lines != [] {
      var n := |lines| - 1;
      LastLineWins(lines[..n], key);
      assert forall i :: 0 <= i < n ==> lines[..n][i] == lines[i];
      if SetsNothing(lines[n], key) {
        if key in ParseLines(lines[..n]) {
          var i :| LastSets(lines[..n], i, key, ParseLines(lines[..n])[key]);
          StillLast(lines, i, key, ParseLines(lines)[key]);
        }
      } else {
        assert LastSets(lines, n, key, ParseLines(lines)[key]);
      }
    }
  }

  /** In a file of these lines a key has exactly the value of the last line that sets it. */
  lemma ParsedFile(lines: seq<string>, key: string, value: string)
    requires NoLineFeeds(lines)
    ensures key in ParseText(Join('\n', lines)) && ParseText(Join('\n', lines))[key] == value <==>
              exists i :: LastSets(lines, i, key, value)
  {
    SplitOfJoin(lines);
    EmptyLineSetsNothing(lines);
    LastLineWins(lines, key);
    var values := ParseLines(lines);
    if i :| LastSets(lines, i, key, value) {
      assert !SetsNothing(lines[i], key);
      assert key in values;
      var k :| LastSets(lines, k, key, values[key]);
      assert !SetsNothing(lines[k], key);
      assert k == i;
    }
  }

  // ---------------------------------------------------------------- seeding

  /** A line as it is seeded: its value is replaced if the process has one for its key, and
      everything else stays, comments and layout included. */
  function Rewritten(line: string, os: Environment): string {
    match ParseLine(line)
    case Some(Setting(key, _)) => if key in os then key + "=" + os[key] else line
    case None => line
  }

  lemma SeededLine(line: string, os: Environment)
    ensures SeedLine(line, os) == Rewritten(line, os)
  {
    if '=' in Strip(line) { SameKey(line); }
  }

  lemma SeededLines(lines: seq<string>, os: Environment, rewritten: seq<string>)
    requires NoLineFeeds(lines) && forall key :: key in os ==> '\n' !in os[key]
    requires |rewritten| == |lines| && forall i :: 0 <= i < |lines| ==> rewritten[i] == Rewritten(lines[i], os)
    ensures SeedLines(lines, os) == rewritten && NoLineFeeds(rewritten)
    ensures lines != [] && lines[|lines| - 1] != "" ==> rewritten[|lines| - 1] != ""
  {
    forall i | 0 <= i < |lines| ensures SeedLine(lines[i], os) == rewritten[i] && '\n' !in rewritten[i] {
      SeededLine(lines[i], os);
      SeedLineStaysOneLine(lines[i], os);
    }
  }

  function RewrittenLines(lines: seq<string>, os: Environment): seq<string> {
    seq(|lines|, i requires 0 <= i < |lines| => Rewritten(lines[i], os))
  }

  /** The seeded text is the template's, line by line, and ends in a line feed if it did. */
  lemma SeededText(lines: seq<string>, os: Environment)
    requires NoLineFeeds(lines) && lines != [] && lines[|lines| - 1] != ""
    requires forall key :: key in os ==> '\n' !in os[key]
    ensures SeedText(Join('\n', lines), os) == Join('\n', RewrittenLines(lines, os))
    ensures SeedText(Join('\n', lines) + "\n", os) == Join('\n', RewrittenLines(lines, os)) + "\n"
  {
    var text, rewritten := Join('\n', lines), RewrittenLines(lines, os);
    SeededLines(lines, os, rewritten);
    LastCharacterOfJoin(lines);
    LastCharacterOfJoin(rewritten);
    SplitsInto(lines);
    SeedsTo(text, lines, rewritten, os);
    AddedLineFeed(text);
    SeedsTo(text + "\n", lines, rewritten, os);
  }

  lemma SplitsInto(lines: seq<string>)
    requires NoLineFeeds(lines) && lines != [] && lines[|lines| - 1] != ""
    ensures SplitLines(Join('\n', lines)) == lines && SplitLines(Join('\n', lines) + "\n") == lines
  {
    SplitOfJoin(lines);
    LastCharacterOfJoin(lines);
    SplitWithFinalLineFeed(Join('\n', lines));
  }

  lemma SeedsTo(text: string, lines: seq<string>, rewritten: seq<string>, os: Environment)
    requires SplitLines(text) == lines && SeedLines(lines, os) == rewritten && !EndsInLineFeed(Join('\n', rewritten))
    ensures SeedText(text, os) == if EndsInLineFeed(text) then Join('\n', rewritten) + "\n" else Join('\n', rewritten)
  {
  }

  lemma AddedLineFeed(text: string)
    ensures EndsInLineFeed(text + "\n")
  {
  }

  lemma {:induction false} LastCharacterOfJoin(lines: seq<string>)
    requires NoLineFeeds(lines) && lines != [] && lines[|lines| - 1] != ""
    ensures !EndsInLineFeed(Join('\n', lines)) && Join('\n', lines) != ""
  {
    if |lines| > 1 {
      LastCharacterOfJoin(lines[1..]);
      var rest := Join('\n', lines[1..]);
      assert Join('\n', lines)[|Join('\n', lines)| - 1] == rest[|rest| - 1];
    } else {
      assert lines[0][|lines[0]| - 1] in lines[0];
    }
  }
}
