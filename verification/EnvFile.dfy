/** Environment files: parsing them, and seeding a template from the process environment. */
module EnvFile {
  import opened Wrappers
  import opened Text

  predicate IsSpace(c: char) {
    c == ' ' || c == '\t' || c == '\n' || c == '\r' || c == '\U{000B}' || c == '\U{000C}'
  }

  function StripLeft(s: string): string {
    if s != "" && IsSpace(s[0]) then StripLeft(s[1..]) else s
  }

  function StripRight(s: string): string {
    if s != "" && IsSpace(s[|s| - 1]) then StripRight(s[..|s| - 1]) else s
  }

  function Strip(s: string): string { StripRight(StripLeft(s)) }

  /** The position of the first `c`, or the length. */
  function IndexOf(s: string, c: char): (i: nat)
    ensures i <= |s| && c !in s[..i] && (i < |s| ==> s[i] == c) && (i == |s| <==> c !in s)
  {
    if s == "" then 0
    else if s[0] == c then 0
    else
      var i := IndexOf(s[1..], c) + 1;
      assert s == [s[0]] + s[1..];
      assert s[..i] == [s[0]] + s[1..][..i - 1];
      i
  }

  /** Lines end at line feeds; a final line feed does not start another line. */
  function SplitLines(text: string): seq<string>
    decreases |text|
  {
    var i := IndexOf(text, '\n');
    if text == "" then []
    else if i == |text| then [text]
    else [text[..i]] + SplitLines(text[i + 1..])
  }

  datatype Setting = Setting(key: string, value: string)

  /** What one line sets: blank lines, comments and lines without `=` set nothing. */
  function ParseLine(line: string): Option<Setting> {
    var s := Strip(line);
    if s == "" || s[0] == '#' || '=' !in s then None
    else
      var i := IndexOf(s, '=');
      Some(Setting(Strip(s[..i]), Strip(s[i + 1..])))
  }

  type Environment = map<string, string>

  function Apply(values: Environment, line: string): Environment {
    var setting := ParseLine(line);
    if setting.None? then values else values[setting.value.key := setting.value.value]
  }

  /** A later line overrides an earlier one. */
  function ParseLines(lines: seq<string>): Environment {
    if lines == [] then map[] else Apply(ParseLines(lines[..|lines| - 1]), lines[|lines| - 1])
  }

  function ParseText(text: string): Environment { ParseLines(SplitLines(text)) }

  /** `_parse_env_file`. */
  method ParseEnvFile(text: string) returns (values: Environment)
    ensures values == ParseText(text)
  {
    values := map[];
    var lines := SplitLines(text);
    for i := 0 to |lines|
      invariant values == ParseLines(lines[..i])
    {
      assert lines[..i + 1][..i] == lines[..i];
      var line := Strip(lines[i]);
      if line == "" || line[0] == '#' || '=' !in line {
        continue;
      }
      var at := IndexOf(line, '=');
      values := values[Strip(line[..at]) := Strip(line[at + 1..])];
    }
    assert lines[..|lines|] == lines;
  }

  /** One template line with its value replaced if the key is set in `os`. */
  function SeedLine(line: string, os: Environment): string {
    var stripped := Strip(line);
    if stripped == "" || stripped[0] == '#' || '=' !in stripped then line
    else
      var key := Strip(line[..IndexOf(line, '=')]);
      if key in os then key + "=" + os[key] else line
  }

  function SeedLines(lines: seq<string>, os: Environment): (seeded: seq<string>)
    ensures |seeded| == |lines|
  {
    seq(|lines|, i requires 0 <= i < |lines| => SeedLine(lines[i], os))
  }

  predicate EndsInLineFeed(text: string) { text != "" && text[|text| - 1] == '\n' }

  function SeedText(text: string, os: Environment): string {
    var seeded := Join('\n', SeedLines(SplitLines(text), os));
    if EndsInLineFeed(text) && !EndsInLineFeed(seeded) then seeded + "\n" else seeded
  }

  /** `_seed_env_from_os_environ`. */
  method SeedEnvFromOsEnviron(text: string, os: Environment) returns (seeded: string)
    ensures seeded == SeedText(text, os)
  {
    var lines: seq<string> := [];
    var template := SplitLines(text);
    for i := 0 to |template|
      invariant lines == SeedLines(template[..i], os)
    {
      var line := template[i];
      var stripped := Strip(line);
      if stripped == "" || stripped[0] == '#' || '=' !in stripped {
        lines := lines + [line];
      } else {
        var key := Strip(line[..IndexOf(line, '=')]);
        if key in os {
          lines := lines + [key + "=" + os[key]];
        } else {
          lines := lines + [line];
        }
      }
    }
    assert template[..|template|] == template;
    seeded := Join('\n', lines);
    if EndsInLineFeed(text) && !EndsInLineFeed(seeded) {
      seeded := seeded + "\n";
    }
  }

  // ---------------------------------------------------------------- stripping

  predicate AllSpace(s: string) { forall i :: 0 <= i < |s| ==> IsSpace(s[i]) }

  predicate Trimmed(s: string) { s != "" ==> !IsSpace(s[0]) && !IsSpace(s[|s| - 1]) }

  lemma {:induction false} StripLeftSkips(a: string, s: string)
    requires AllSpace(a)
    ensures StripLeft(a + s) == StripLeft(s)
  {
    if a == "" {
      assert a + s == s;
    } else {
      assert (a + s)[1..] == a[1..] + s;
      StripLeftSkips(a[1..], s);
    }
  }

  lemma {:induction false} StripRightSkips(s: string, b: string)
    requires AllSpace(b)
    ensures StripRight(s + b) == StripRight(s)
  {
    if b == "" {
      assert s + b == s;
    } else {
      assert (s + b)[..|s + b| - 1] == s + b[..|b| - 1];
      StripRightSkips(s, b[..|b| - 1]);
    }
  }

  /** Stripping is determined by cutting space off both ends of a trimmed middle. */
  lemma StripIs(a: string, t: string, b: string)
    requires AllSpace(a) && Trimmed(t) && AllSpace(b)
    ensures Strip(a + t + b) == t
  {
    assert a + t + b == a + (t + b);
    StripLeftSkips(a, t + b);
    if t == "" {
      assert t + b == b && b == b + "";
      StripLeftSkips(b, "");
    } else {
      StripRightSkips(t, b);
    }
  }

  lemma {:induction false} StripLeftSplits(s: string) returns (a: string)
    ensures AllSpace(a) && s == a + StripLeft(s)
    ensures StripLeft(s) != "" ==> !IsSpace(StripLeft(s)[0])
  {
    a := "";
    if s != "" && IsSpace(s[0]) {
      a := StripLeftSplits(s[1..]);
      a := [s[0]] + a;
      assert s == [s[0]] + s[1..];
    }
  }

  lemma {:induction false} StripRightSplits(s: string) returns (b: string)
    ensures AllSpace(b) && s == StripRight(s) + b
    ensures StripRight(s) != "" ==> !IsSpace(StripRight(s)[|StripRight(s)| - 1])
  {
    b := "";
    if s != "" && IsSpace(s[|s| - 1]) {
      b := StripRightSplits(s[..|s| - 1]);
      b := b + [s[|s| - 1]];
      assert s == s[..|s| - 1] + [s[|s| - 1]];
    }
  }

  lemma StripSplits(s: string) returns (a: string, b: string)
    ensures AllSpace(a) && AllSpace(b) && s == a + Strip(s) + b && Trimmed(Strip(s))
  {
    a := StripLeftSplits(s);
    b := StripRightSplits(StripLeft(s));
    if Strip(s) != "" {
      assert Strip(s)[0] == StripLeft(s)[0];
    }
  }

  lemma StripKeepsNothingNew(s: string)
    ensures forall c :: c in Strip(s) ==> c in s
  {
    var a, b := StripSplits(s);
    forall c | c in Strip(s) ensures c in s {
      assert c in a + Strip(s) + b;
    }
  }

  lemma StripRightThenStrip(s: string)
    ensures Strip(StripRight(s)) == Strip(s)
  {
    var b := StripRightSplits(s);
    var a, c := StripSplits(StripRight(s));
    StripIs(a, Strip(StripRight(s)), c + b);
    assert a + Strip(StripRight(s)) + (c + b) == s;
  }

  // ---------------------------------------------------------------- one line

  lemma IndexOfIs(s: string, c: char, i: nat)
    requires i < |s| && s[i] == c && c !in s[..i]
    ensures IndexOf(s, c) == i
  {
    var j := IndexOf(s, c);
    forall k | 0 <= k < i ensures s[k] != c { assert s[k] == s[..i][k]; }
    forall k | 0 <= k < j ensures s[k] != c { assert s[k] == s[..j][k]; }
  }

  /** The key read from the raw line is the key read from the stripped line. */
  lemma SameKey(line: string)
    requires '=' in Strip(line)
    ensures '=' in line
    ensures Strip(line[..IndexOf(line, '=')]) == Strip(Strip(line)[..IndexOf(Strip(line), '=')])
  {
    var a, b := StripSplits(line);
    var s := Strip(line);
    var i := IndexOf(s, '=');
    assert line[|a| + i] == '=';
    assert line[..|a| + i] == a + s[..i];
    IndexOfIs(line, '=', |a| + i);
    StripLeftSkips(a, s[..i]);
  }

  lemma KeyStarts(s: string, i: nat)
    requires i < |s| && !IsSpace(s[0])
    ensures Strip(s[..i]) != "" ==> Strip(s[..i])[0] == s[0]
    ensures Strip(s[..i]) == "" ==> i == 0
  {
    if i > 0 {
      var b := StripRightSplits(s[..i]);
      assert s[..i][0] == s[0];
    }
  }

  lemma WrittenLineStrips(key: string, value: string)
    requires Trimmed(key)
    ensures Strip(key + "=" + value) == key + "=" + StripRight(value)
  {
    var b := StripRightSplits(value);
    var v := StripRight(value);
    assert key + "=" + value == key + "=" + v + b;
    LineIsTrimmed(key, v);
    StripsTo(key + "=" + v, b);
  }

  lemma LineIsTrimmed(key: string, v: string)
    requires Trimmed(key) && (v != "" ==> !IsSpace(v[|v| - 1]))
    ensures Trimmed(key + "=" + v)
  {
    var t := key + "=" + v;
    assert t[0] == if key == "" then '=' else key[0];
    assert t[|t| - 1] == if v == "" then '=' else v[|v| - 1];
  }

  lemma StripsTo(t: string, b: string)
    requires Trimmed(t) && AllSpace(b)
    ensures Strip(t + b) == t
  {
    StripIs("", t, b);
    assert "" + t + b == t + b;
  }

  lemma TrimmedIsStripped(s: string)
    requires Trimmed(s)
    ensures Strip(s) == s
  {
    StripsTo(s, "");
    assert s + "" == s;
  }

  /** A freshly written `key=value` line reads back as that key and the stripped value. */
  lemma WrittenLineParses(key: string, value: string)
    requires Trimmed(key) && '=' !in key && (key != "" ==> key[0] != '#')
    ensures ParseLine(key + "=" + value) == Some(Setting(key, Strip(value)))
  {
    var v := StripRight(value);
    var t := key + "=" + v;
    WrittenLineStrips(key, value);
    assert t[|key|] == '=' && t[..|key|] == key && t[|key| + 1..] == v;
    IndexOfIs(t, '=', |key|);
    TrimmedIsStripped(key);
    StripRightThenStrip(value);
  }

  /** Seeding one line changes only the value it sets, and only for a key set in `os`. */
  lemma SeedLineParses(line: string, os: Environment)
    ensures
      var setting := ParseLine(line);
      ParseLine(SeedLine(line, os)) ==
        if setting.Some? && setting.value.key in os
        then Some(Setting(setting.value.key, Strip(os[setting.value.key])))
        else setting
  {
    var s := Strip(line);
    if s != "" && s[0] != '#' && '=' in s {
      SameKey(line);
      var _, _ := StripSplits(line);
      var i := IndexOf(s, '=');
      var key := Strip(s[..i]);
      if key in os {
        KeyStarts(s, i);
        StripKeepsNothingNew(s[..i]);
        var _, _ := StripSplits(s[..i]);
        WrittenLineParses(key, os[key]);
      }
    }
  }

  // ---------------------------------------------------------------- the whole text

  /** What seeding should mean: the same keys, set from `os` where it has them. */
  function Override(values: Environment, os: Environment): Environment {
    map key | key in values :: if key in os then Strip(os[key]) else values[key]
  }

  lemma {:induction false} SeedLinesParse(lines: seq<string>, os: Environment)
    ensures ParseLines(SeedLines(lines, os)) == Override(ParseLines(lines), os)
  {
    if lines != [] {
      var n := |lines| - 1;
      assert SeedLines(lines, os)[..n] == SeedLines(lines[..n], os);
      SeedLinesParse(lines[..n], os);
      ApplyOverrides(ParseLines(lines[..n]), lines[n], os);
    }
  }

  /** Applying a seeded line to overridden values overrides the values with the line applied. */
  lemma ApplyOverrides(values: Environment, line: string, os: Environment)
    ensures Apply(Override(values, os), SeedLine(line, os)) == Override(Apply(values, line), os)
  {
    SeedLineParses(line, os);
  }

  predicate NoLineFeeds(lines: seq<string>) {
    forall i :: 0 <= i < |lines| ==> '\n' !in lines[i]
  }

  lemma {:induction false} SplitHasNoLineFeeds(text: string)
    ensures NoLineFeeds(SplitLines(text))
    decreases |text|
  {
    var i := IndexOf(text, '\n');
    if text != "" && i < |text| {
      SplitHasNoLineFeeds(text[i + 1..]);
    }
  }

  function WithoutLastEmpty(lines: seq<string>): seq<string> {
    if lines != [] && lines[|lines| - 1] == "" then lines[..|lines| - 1] else lines
  }

  /** Joining and splitting again loses at most an empty last line. */
  lemma {:induction false} SplitOfJoin(lines: seq<string>)
    requires NoLineFeeds(lines)
    ensures SplitLines(Join('\n', lines)) == WithoutLastEmpty(lines)
  {
    if |lines| > 1 {
      var head, rest := lines[0], lines[1..];
      SplitAtLineFeed(head, Join('\n', rest));
      SplitOfJoin(rest);
      DropsLater(lines);
    } else if |lines| == 1 {
      SplitOneLine(lines[0]);
      assert lines == [lines[0]];
    }
  }

  lemma DropsLater(lines: seq<string>)
    requires |lines| > 1
    ensures WithoutLastEmpty(lines) == [lines[0]] + WithoutLastEmpty(lines[1..])
  {
  }

  lemma SplitAtLineFeed(head: string, text: string)
    requires '\n' !in head
    ensures SplitLines(head + ['\n'] + text) == [head] + SplitLines(text)
  {
    var all := head + ['\n'] + text;
    assert all[..|head|] == head && all[|head| + 1..] == text;
    IndexOfIs(all, '\n', |head|);
  }

  lemma SplitOneLine(line: string)
    requires '\n' !in line
    ensures SplitLines(Join('\n', [line])) == WithoutLastEmpty([line])
  {
    assert IndexOf(line, '\n') == |line|;
  }

  lemma {:induction false} SplitWithFinalLineFeed(text: string)
    requires !EndsInLineFeed(text)
    ensures SplitLines(text + "\n") == if text == "" then [""] else SplitLines(text)
    decreases |text|
  {
    var i := IndexOf(text, '\n');
    var longer := text + "\n";
    assert longer[..i] == text[..i];
    IndexOfIs(longer, '\n', i);
    if i < |text| {
      assert longer[i + 1..] == text[i + 1..] + "\n";
      SplitWithFinalLineFeed(text[i + 1..]);
    } else {
      assert longer[i + 1..] == "";
    }
  }

  lemma EmptyLineSetsNothing(lines: seq<string>)
    ensures ParseLines(WithoutLastEmpty(lines)) == ParseLines(lines)
  {
  }

  /** Parsing the seeded text gives the template's keys, each with the process's value if
      it has one and with the template's own value otherwise. */
  lemma SeedingCommutesWithParsing(text: string, os: Environment)
    requires forall key :: key in os ==> '\n' !in os[key]
    ensures ParseText(SeedText(text, os)) == Override(ParseText(text), os)
  {
    var template := SplitLines(text);
    var lines := SeedLines(template, os);
    SplitHasNoLineFeeds(text);
    forall i | 0 <= i < |lines| ensures '\n' !in lines[i] {
      SeedLineStaysOneLine(template[i], os);
    }
    SeedLinesParse(template, os);
    var seeded := Join('\n', lines);
    SplitOfJoin(lines);
    EmptyLineSetsNothing(lines);
    if EndsInLineFeed(text) && !EndsInLineFeed(seeded) {
      SplitWithFinalLineFeed(seeded);
      if seeded == "" { EmptyLineSetsNothing([""]); }
    }
  }

  lemma SeedLineStaysOneLine(line: string, os: Environment)
    requires '\n' !in line && forall key :: key in os ==> '\n' !in os[key]
    ensures '\n' !in SeedLine(line, os)
  {
    StripKeepsNothingNew(line);
    if '=' in Strip(line) {
      StripKeepsNothingNew(line[..IndexOf(line, '=')]);
    }
  }
}
