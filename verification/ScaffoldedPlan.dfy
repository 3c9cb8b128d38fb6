/** What a scaffolded plan consists of, and what its texts may look like. */
module ScaffoldedPlan {
  import opened Wrappers
  import opened EnvFile
  import opened InstallSchema
  import opened Manifest
  import opened Scaffold
  import opened SnapshotNames

  // ---------------------------------------------------------------- the steps

  predicate HasTemplate(p: PluginSpec) { p.envTemplate != None && p.envTemplate != Some("") }

  /** The step of a plugin that the start waits for. */
  function Awaited(p: PluginSpec): string { if HasTemplate(p) then "write_env_" + p.id else "install_" + p.id }

  predicate IsPluginStep(p: PluginSpec, step: Step) {
    || step == Step("install_" + p.id, [], p.snapshot, InstallPlugin(p.id, None))
    || (HasTemplate(p) && step == Step("write_env_" + p.id, ["install_" + p.id], false, WriteEnv(p.id, p.envTemplate.value)))
  }

  predicate IsExtensionStep(e: ExtensionSpec, step: Step) {
    step == Step("install_ext_" + e.id, [], e.snapshot, InstallExtension(e.id, None))
  }

  ghost predicate IsStartStep(o: ScaffoldOptions, step: Step) {
    && step.id == "start" && step.action == Start && !step.snapshot
    && forall d :: d in step.dependsOn <==>
         || (exists i :: 0 <= i < |o.plugins| && d == Awaited(o.plugins[i]))
         || (exists j :: 0 <= j < |o.extensions| && d == "install_ext_" + o.extensions[j].id)
  }

  predicate IsHealthStep(o: ScaffoldOptions, step: Step) {
    && step.id == "healthcheck" && step.dependsOn == ["start"] && !step.snapshot && step.action.Healthcheck?
    && step.action.retries == o.healthcheckRetries
    && ParseDuration(o.healthcheckTimeout) == Some(step.action.timeoutSeconds)
  }

  lemma {:induction false} PluginStepsAre(plugins: seq<PluginSpec>, step: Step)
    ensures step in PluginSteps(plugins) <==> exists i :: 0 <= i < |plugins| && IsPluginStep(plugins[i], step)
  {
    if plugins != [] {
      var n := |plugins| - 1;
      PluginStepsAre(plugins[..n], step);
      assert step in StepsOf(plugins[n]) <==> IsPluginStep(plugins[n], step);
      assert forall i :: 0 <= i < n ==> plugins[..n][i] == plugins[i];
    }
  }

  lemma ExtensionStepsAre(extensions: seq<ExtensionSpec>, step: Step)
    ensures step in ExtensionSteps(extensions) <==> exists j :: 0 <= j < |extensions| && IsExtensionStep(extensions[j], step)
  {
    var steps := ExtensionSteps(extensions);
    if j :| 0 <= j < |extensions| && IsExtensionStep(extensions[j], step) { assert steps[j] == step; }
    if j :| 0 <= j < |steps| && steps[j] == step { assert IsExtensionStep(extensions[j], step); }
  }

  lemma StartIs(o: ScaffoldOptions)
    ensures IsStartStep(o, StartStep(o))
  {
    var deps := StartDeps(o.plugins, o.extensions);
    forall d
      ensures d in deps <==>
        || (exists i :: 0 <= i < |o.plugins| && d == Awaited(o.plugins[i]))
        || (exists j :: 0 <= j < |o.extensions| && d == "install_ext_" + o.extensions[j].id)
    {
      if i :| 0 <= i < |o.plugins| && d == Awaited(o.plugins[i]) { assert deps[i] == d; }
      if j :| 0 <= j < |o.extensions| && d == "install_ext_" + o.extensions[j].id { assert deps[|o.plugins| + j] == d; }
      if k :| 0 <= k < |deps| && deps[k] == d {
        assert k < |o.plugins| ==> d == Awaited(o.plugins[k]);
        assert k >= |o.plugins| ==> d == "install_ext_" + o.extensions[k - |o.plugins|].id;
      }
    }
  }

  lemma InConcat(a: seq<Step>, b: seq<Step>, step: Step)
    ensures step in a + b <==> step in a || step in b
  {
  }

  /** A scaffolded plan prepares, installs every plugin and every extension, writes the
      environment files after their plugins, starts after all of that and, if wanted, checks
      the start; and it does nothing else. */
  lemma StepsAre(o: ScaffoldOptions, step: Step)
    requires Scaffoldable(o)
    ensures step in Steps(o) <==>
      || step == Step("prepare", [], false, Prepare)
      || (exists i :: 0 <= i < |o.plugins| && IsPluginStep(o.plugins[i], step))
      || (exists j :: 0 <= j < |o.extensions| && IsExtensionStep(o.extensions[j], step))
      || step == StartStep(o)
      || (o.withHealthcheck && IsHealthStep(o, step))
    ensures IsStartStep(o, StartStep(o))
  {
    StartIs(o);
    PluginStepsAre(o.plugins, step);
    ExtensionStepsAre(o.extensions, step);
    InConcat([PREPARE], PluginSteps(o.plugins), step);
    InConcat([PREPARE] + PluginSteps(o.plugins), ExtensionSteps(o.extensions), step);
    InConcat(Installing(o), [StartStep(o)], step);
    InConcat(Installing(o) + [StartStep(o)], HealthSteps(o), step);
    assert step in HealthSteps(o) <==> o.withHealthcheck && IsHealthStep(o, step);
  }

  // ---------------------------------------------------------------- durations

  lemma {:induction false} DecimalReadsBack(n: nat)
    ensures AllDigits(Decimal(n)) && DecimalValue(Decimal(n)) == n
    decreases n
  {
    var s := Decimal(n);
    if n < 10 {
      assert s[..0] == "" && s[0] as int - '0' as int == n;
    } else {
      DecimalReadsBack(n / 10);
      assert s[..|s| - 1] == Decimal(n / 10) && s[|s| - 1] == Digit(n % 10);
      assert Digit(n % 10) as int - '0' as int == n % 10;
    }
  }

  /** `30s` is thirty seconds and `5m` five minutes, with or without space around. */
  lemma DurationMeans(a: string, n: nat, b: string)
    requires AllSpace(a) && AllSpace(b)
    ensures ParseDuration(a + (Decimal(n) + "s") + b) == Some(n)
    ensures ParseDuration(a + (Decimal(n) + "m") + b) == Some(60 * n)
  {
    DecimalReadsBack(n);
    UnitAtEnd(Decimal(n), 's');
    UnitAtEnd(Decimal(n), 'm');
    StripIs(a, Decimal(n) + "s", b);
    StripIs(a, Decimal(n) + "m", b);
  }

  lemma UnitAtEnd(digits: string, unit: char)
    requires digits != "" && AllDigits(digits) && (unit == 's' || unit == 'm')
    ensures
      var s := digits + [unit];
      Trimmed(s) && |s| >= 2 && s[|s| - 1] == unit && s[..|s| - 1] == digits
  {
    assert (digits + [unit])[0] == digits[0];
  }

  /** No other text is a duration. */
  lemma OnlyDurations(text: string)
    ensures ParseDuration(text).Some? <==>
              exists digits, unit :: (unit == 's' || unit == 'm') && digits != "" && AllDigits(digits) &&
                                     Strip(text) == digits + [unit]
  {
    var v := Strip(text);
    if ParseDuration(text).Some? {
      assert v == v[..|v| - 1] + [v[|v| - 1]];
    }
    if digits, unit :| (unit == 's' || unit == 'm') && digits != "" && AllDigits(digits) && v == digits + [unit] {
      assert v[..|v| - 1] == digits;
    }
  }

  // ---------------------------------------------------------------- paths and ids

  /** `..` stands here, between slashes or at an end. */
  predicate ParentAt(path: string, k: int) {
    && 0 <= k && k + 2 <= |path| && path[k] == '.' && path[k + 1] == '.'
    && (k == 0 || path[k - 1] == '/') && (k + 2 == |path| || path[k + 2] == '/')
  }

  ghost predicate HoldsParent(path: string) { exists k :: ParentAt(path, k) }

  lemma {:induction false} ParentSegmentMeans(path: string)
    ensures HasParentSegment(path) <==> HoldsParent(path)
    decreases |path|
  {
    var i := IndexOf(path, '/');
    if path[..i] == ".." {
      assert path[0] == path[..i][0] && path[1] == path[..i][1];
      assert ParentAt(path, 0);
    } else if i < |path| {
      ParentSegmentMeans(path[i + 1..]);
      ParentInRest(path, i);
    } else {
      forall k ensures !ParentAt(path, k) { NoSlashNoParent(path, k); }
    }
  }

  lemma ParentInRest(path: string, i: nat)
    requires i < |path| && path[i] == '/' && '/' !in path[..i] && path[..i] != ".."
    ensures HoldsParent(path) <==> HoldsParent(path[i + 1..])
  {
    var rest := path[i + 1..];
    if HoldsParent(path) {
      var k :| ParentAt(path, k);
      ParentLater(path, i, k);
      assert ParentAt(rest, k - i - 1);
    }
    if HoldsParent(rest) {
      var k :| ParentAt(rest, k);
      ParentLater(path, i, k + i + 1);
      assert ParentAt(path, k + i + 1);
    }
  }

  lemma TwoDots(s: string)
    ensures |s| == 2 && s[0] == '.' && s[1] == '.' ==> s == ".."
  {
  }

  lemma NoSlashNoParent(path: string, k: int)
    requires '/' !in path && path != ".."
    ensures !ParentAt(path, k)
  {
    assert forall j :: 0 <= j < |path| ==> path[j] in path;
    TwoDots(path);
  }

  /** Behind the first segment everything is as in the rest. */
  lemma ParentLater(path: string, i: nat, k: int)
    requires i < |path| && path[i] == '/' && '/' !in path[..i] && path[..i] != ".."
    ensures ParentAt(path, k) <==> ParentAt(path[i + 1..], k - i - 1)
  {
    assert forall j :: 0 <= j < i ==> path[j] in path[..i];
    TwoDots(path[..i]);
  }

  /** A template path is refused exactly if it is absolute, starts in a home directory, or
      goes up anywhere. */
  lemma RelativePathMeans(path: string)
    ensures RelativePath(path) <==> !("/" <= path) && !("~" <= path) && !HoldsParent(path)
  {
    ParentSegmentMeans(path);
  }

  const ID_STARTS := "abcdefghijklmnopqrstuvwxyz0123456789"

  lemma StartsAre(c: char)
    ensures IsIdStart(c) <==> c in ID_STARTS
  {
    assert 'a' <= c <= 'z' ==> ID_STARTS[c as int - 'a' as int] == c;
    assert '0' <= c <= '9' ==> ID_STARTS[26 + (c as int - '0' as int)] == c;
    assert forall k :: 0 <= k < 36 ==> IsIdStart(ID_STARTS[k]);
  }

  /** Step ids: at most 64 characters, the first a small letter or a digit, the others these,
      `_` or `-`. Ids of plugins and extensions may be 128 long, and also hold dots. */
  lemma IdRules(id: string)
    ensures ValidStepId(id) <==>
              1 <= |id| <= 64 && id[0] in ID_STARTS && forall i :: 0 <= i < |id| ==> id[i] in ID_STARTS + "_-"
    ensures ValidPluginId(id) <==>
              1 <= |id| <= 128 && id[0] in ID_STARTS && forall i :: 0 <= i < |id| ==> id[i] in ID_STARTS + "_-."
  {
    forall i | 0 <= i < |id| ensures IsIdStart(id[i]) <==> id[i] in ID_STARTS { StartsAre(id[i]); }
    forall c: char ensures c in ID_STARTS + "_-" <==> c in ID_STARTS || c == '_' || c == '-' {
      assert "_-"[0] == '_' && "_-"[1] == '-';
    }
    forall c: char ensures c in ID_STARTS + "_-." <==> c in ID_STARTS || c == '_' || c == '-' || c == '.' {
      assert "_-."[0] == '_' && "_-."[1] == '-' && "_-."[2] == '.';
    }
  }

  const CAPITALS := "ABCDEFGHIJKLMNOPQRSTUVWXYZ"

  lemma CapitalsAre(c: char)
    ensures 'A' <= c <= 'Z' <==> c in CAPITALS
  {
    assert 'A' <= c <= 'Z' ==> CAPITALS[c as int - 'A' as int] == c;
    assert forall k :: 0 <= k < 26 ==> 'A' <= CAPITALS[k] <= 'Z';
  }

  predicate DirnameCharacter(c: char) { c in ID_STARTS || c in CAPITALS || c == '_' || c == '-' }

  /** The plugins directory: one or more names, none empty, of letters, digits, `_` and `-`. */
  lemma DirnameRule(dir: seq<string>)
    ensures ValidPluginsDirname(dir) <==>
              dir != [] && forall i :: 0 <= i < |dir| ==> dir[i] != "" && forall k :: 0 <= k < |dir[i]| ==> DirnameCharacter(dir[i][k])
  {
    forall i, k | 0 <= i < |dir| && 0 <= k < |dir[i]| ensures IsDirnameChar(dir[i][k]) <==> DirnameCharacter(dir[i][k]) {
      StartsAre(dir[i][k]);
      CapitalsAre(dir[i][k]);
    }
  }
}
