/** Generating a starter plan, and exactly when that succeeds. */
module Scaffold {
  import opened Wrappers
  import opened DependencyOrder
  import opened EnvFile
  import opened InstallSchema

  // ---------------------------------------------------------------- field rules of a plan

  const DURATION_UNITS := {'s', 'm'}

  predicate AllDigits(s: string) { forall i :: 0 <= i < |s| ==> '0' <= s[i] <= '9' }

  function DecimalValue(s: string): nat
    requires AllDigits(s)
  {
    if s == "" then 0 else 10 * DecimalValue(s[..|s| - 1]) + (s[|s| - 1] as int - '0' as int)
  }

  /** `30s` or `5m` in seconds; nothing for any other text. */
  function ParseDuration(text: string): Option<nat> {
    var v := Strip(text);
    if |v| < 2 || v[|v| - 1] !in DURATION_UNITS || !AllDigits(v[..|v| - 1]) then None
    else Some(DecimalValue(v[..|v| - 1]) * if v[|v| - 1] == 'm' then 60 else 1)
  }

  /** `..` is one of the parts between slashes. */
  predicate HasParentSegment(path: string)
    decreases |path|
  {
    var i := IndexOf(path, '/');
    path[..i] == ".." || (i < |path| && HasParentSegment(path[i + 1..]))
  }

  predicate RelativePath(path: string) {
    (path == "" || (path[0] != '/' && path[0] != '~')) && !HasParentSegment(path)
  }

  predicate ValidAction(action: Action) {
    match action
    case Provision(plugin) => ValidPluginId(plugin)
    case InstallPlugin(plugin, _) => ValidPluginId(plugin)
    case InstallExtension(extension, _) => ValidPluginId(extension)
    case ConfigurePlugin(plugin) => ValidPluginId(plugin)
    case WriteEnv(plugin, from) => ValidPluginId(plugin) && RelativePath(from)
    case Notify(event) => ValidStepId(event)
    case Healthcheck(timeoutSeconds, retries) => 0 < timeoutSeconds <= 600 && 0 <= retries <= 20
    case _ => true
  }

  predicate ValidStep(step: Step) { ValidStepId(step.id) && ValidAction(step.action) }

  // ---------------------------------------------------------------- options

  datatype PluginSpec = PluginSpec(id: string, snapshot: bool, envTemplate: Option<string>)
  datatype ExtensionSpec = ExtensionSpec(id: string, snapshot: bool)

  datatype ScaffoldOptions = ScaffoldOptions(
    projectId: string,
    plugins: seq<PluginSpec>,
    extensions: seq<ExtensionSpec>,
    version: string,
    withHealthcheck: bool,
    healthcheckTimeout: string,
    healthcheckRetries: int)

  /** An empty template name counts as none. */
  predicate HasEnv(p: PluginSpec) { p.envTemplate.Some? && p.envTemplate.value != "" }

  function InstallId(id: string): string { "install_" + id }
  function WriteEnvId(id: string): string { "write_env_" + id }
  function InstallExtensionId(id: string): string { "install_ext_" + id }

  function LastStepId(p: PluginSpec): string { if HasEnv(p) then WriteEnvId(p.id) else InstallId(p.id) }

  // ---------------------------------------------------------------- the steps

  function InstallStep(p: PluginSpec): Step { Step(InstallId(p.id), [], p.snapshot, InstallPlugin(p.id, None)) }

  function EnvStep(p: PluginSpec): Step
    requires HasEnv(p)
  {
    Step(WriteEnvId(p.id), [InstallId(p.id)], false, WriteEnv(p.id, p.envTemplate.value))
  }

  function ExtensionStep(e: ExtensionSpec): Step {
    Step(InstallExtensionId(e.id), [], e.snapshot, InstallExtension(e.id, None))
  }

  function StepsOf(p: PluginSpec): seq<Step> { if HasEnv(p) then [InstallStep(p), EnvStep(p)] else [InstallStep(p)] }

  function PluginSteps(plugins: seq<PluginSpec>): seq<Step> {
    if plugins == [] then [] else PluginSteps(plugins[..|plugins| - 1]) + StepsOf(plugins[|plugins| - 1])
  }

  function ExtensionSteps(extensions: seq<ExtensionSpec>): seq<Step> {
    seq(|extensions|, i requires 0 <= i < |extensions| => ExtensionStep(extensions[i]))
  }

  function LastStepIds(plugins: seq<PluginSpec>): seq<string> {
    seq(|plugins|, i requires 0 <= i < |plugins| => LastStepId(plugins[i]))
  }

  function StartDeps(plugins: seq<PluginSpec>, extensions: seq<ExtensionSpec>): seq<string> {
    LastStepIds(plugins) + seq(|extensions|, i requires 0 <= i < |extensions| => InstallExtensionId(extensions[i].id))
  }

  const PREPARE := Step("prepare", [], false, Prepare)

  function Installing(o: ScaffoldOptions): seq<Step> {
    [PREPARE] + PluginSteps(o.plugins) + ExtensionSteps(o.extensions)
  }

  function StartStep(o: ScaffoldOptions): Step { Step("start", StartDeps(o.plugins, o.extensions), false, Start) }

  /** The healthcheck step, once its timeout has been read. */
  function HealthStep(o: ScaffoldOptions, seconds: nat): Step {
    Step("healthcheck", ["start"], false, Healthcheck(seconds, o.healthcheckRetries))
  }

  function HealthSteps(o: ScaffoldOptions): seq<Step> {
    if o.withHealthcheck then [HealthStep(o, ParseDuration(o.healthcheckTimeout).GetOr(0))] else []
  }

  function Steps(o: ScaffoldOptions): seq<Step> { Installing(o) + [StartStep(o)] + HealthSteps(o) }

  // ---------------------------------------------------------------- scaffolding

  datatype ScaffoldError = NoPlugins | InvalidField(step: string) | InvalidGraph(error: PlanError)

  predicate ValidFields(steps: seq<Step>) { forall i :: 0 <= i < |steps| ==> ValidStep(steps[i]) }

  /** What the schema accepts. */
  ghost predicate Loadable(steps: seq<Step>) { steps != [] && ValidFields(steps) && AcceptedGraph(steps) }

  lemma NextPlugin(plugins: seq<PluginSpec>, i: nat)
    requires i < |plugins|
    ensures [PREPARE] + PluginSteps(plugins[..i + 1]) == [PREPARE] + PluginSteps(plugins[..i]) + StepsOf(plugins[i])
    ensures LastStepIds(plugins[..i + 1]) == LastStepIds(plugins[..i]) + [LastStepId(plugins[i])]
  {
    assert plugins[..i + 1][..i] == plugins[..i];
  }

  lemma NextExtension(plugins: seq<PluginSpec>, extensions: seq<ExtensionSpec>, i: nat)
    requires i < |extensions|
    ensures ExtensionSteps(extensions[..i + 1]) == ExtensionSteps(extensions[..i]) + [ExtensionStep(extensions[i])]
    ensures StartDeps(plugins, extensions[..i + 1]) ==
            StartDeps(plugins, extensions[..i]) + [InstallExtensionId(extensions[i].id)]
  {
  }

  /** `scaffold_install_plan`; an unreadable timeout fails like one out of range. */
  method ScaffoldInstallPlan(o: ScaffoldOptions) returns (r: Result<InstallPlan, ScaffoldError>)
    ensures r.Success? ==> r.value == InstallPlan(o.projectId, o.version, Steps(o))
    ensures r.Success? <==> o.plugins != [] && Loadable(Steps(o))
    ensures o.plugins == [] ==> r == Failure(NoPlugins)
  {
    if o.plugins == [] {
      return Failure(NoPlugins);
    }
    var steps, startDeps := AddPlugins(o.plugins);
    steps, startDeps := AddExtensions(o.plugins, steps, startDeps, o.extensions);
    steps := steps + [Step("start", startDeps, false, Start)];
    if o.withHealthcheck {
      steps := steps + [HealthStep(o, ParseDuration(o.healthcheckTimeout).GetOr(0))];
    }
    assert steps == Steps(o);
    r := Validate(InstallPlan(o.projectId, o.version, steps));
  }

  /** The loop over the plugins, after `prepare`. */
  method AddPlugins(plugins: seq<PluginSpec>) returns (steps: seq<Step>, startDeps: seq<string>)
    ensures steps == [PREPARE] + PluginSteps(plugins)
    ensures startDeps == LastStepIds(plugins)
  {
    steps, startDeps := [PREPARE], [];
    for i := 0 to |plugins|
      invariant steps == [PREPARE] + PluginSteps(plugins[..i])
      invariant startDeps == LastStepIds(plugins[..i])
    {
      NextPlugin(plugins, i);
      steps, startDeps := AddPlugin(steps, startDeps, plugins[i]);
    }
    assert plugins[..|plugins|] == plugins;
  }

  method AddPlugin(before: seq<Step>, deps: seq<string>, plugin: PluginSpec)
    returns (steps: seq<Step>, startDeps: seq<string>)
    ensures steps == before + StepsOf(plugin)
    ensures startDeps == deps + [LastStepId(plugin)]
  {
    steps := before + [InstallStep(plugin)];
    var lastStepId := InstallId(plugin.id);
    if HasEnv(plugin) {
      steps := steps + [EnvStep(plugin)];
      lastStepId := WriteEnvId(plugin.id);
    }
    startDeps := deps + [lastStepId];
  }

  /** The loop over the extensions. */
  method AddExtensions(plugins: seq<PluginSpec>, before: seq<Step>, deps: seq<string>, extensions: seq<ExtensionSpec>)
    returns (steps: seq<Step>, startDeps: seq<string>)
    requires deps == LastStepIds(plugins)
    ensures steps == before + ExtensionSteps(extensions)
    ensures startDeps == StartDeps(plugins, extensions)
  {
    steps, startDeps := before, deps;
    for i := 0 to |extensions|
      invariant steps == before + ExtensionSteps(extensions[..i])
      invariant startDeps == StartDeps(plugins, extensions[..i])
    {
      NextExtension(plugins, extensions, i);
      steps := steps + [ExtensionStep(extensions[i])];
      startDeps := startDeps + [InstallExtensionId(extensions[i].id)];
    }
    assert extensions[..|extensions|] == extensions;
  }

  /** `InstallPlan.model_validate`: first the fields, then the graph. */
  method Validate(plan: InstallPlan) returns (r: Result<InstallPlan, ScaffoldError>)
    requires plan.steps != []
    ensures r.Success? ==> r.value == plan
    ensures r.Success? <==> Loadable(plan.steps)
    ensures r.Failure? ==> r.error != NoPlugins
  {
    var steps := plan.steps;
    for i := 0 to |steps|
      invariant ValidFields(steps[..i])
    {
      if !ValidStep(steps[i]) {
        return Failure(InvalidField(steps[i].id));
      }
    }
    var graph := ValidateGraph(steps);
    r := if graph.Pass? then Success(plan) else Failure(InvalidGraph(graph.error));
  }

  // ---------------------------------------------------------------- when it succeeds

  /** What a step id may hold besides its prefix. */
  predicate PlainId(id: string, longest: nat) {
    && 1 <= |id| <= longest
    && IsIdStart(id[0])
    && forall i :: 0 <= i < |id| ==> IsIdChar(id[i])
  }

  predicate WellFormedPlugin(p: PluginSpec) {
    if HasEnv(p) then PlainId(p.id, 54) && RelativePath(p.envTemplate.value) else PlainId(p.id, 56)
  }

  predicate WellFormedHealthcheck(o: ScaffoldOptions) {
    var seconds := ParseDuration(o.healthcheckTimeout);
    seconds.Some? && 0 < seconds.value <= 600 && 0 <= o.healthcheckRetries <= 20
  }

  ghost predicate DistinctPlugins(plugins: seq<PluginSpec>) {
    forall i, j :: 0 <= i < j < |plugins| ==> plugins[i].id != plugins[j].id
  }

  ghost predicate DistinctExtensions(extensions: seq<ExtensionSpec>) {
    forall i, j :: 0 <= i < j < |extensions| ==> extensions[i].id != extensions[j].id
  }

  ghost predicate NoPluginLooksLikeExtension(plugins: seq<PluginSpec>, extensions: seq<ExtensionSpec>) {
    forall i, j :: 0 <= i < |plugins| && 0 <= j < |extensions| ==> plugins[i].id != "ext_" + extensions[j].id
  }

  ghost predicate DistinctIds(o: ScaffoldOptions) {
    && DistinctPlugins(o.plugins)
    && DistinctExtensions(o.extensions)
    && NoPluginLooksLikeExtension(o.plugins, o.extensions)
  }

  /** The options a plan can be scaffolded from. */
  ghost predicate Scaffoldable(o: ScaffoldOptions) {
    && o.plugins != []
    && (forall i :: 0 <= i < |o.plugins| ==> WellFormedPlugin(o.plugins[i]))
    && (forall i :: 0 <= i < |o.extensions| ==> PlainId(o.extensions[i].id, 52))
    && DistinctIds(o)
    && (o.withHealthcheck ==> WellFormedHealthcheck(o))
  }

  // ---- fields

  lemma PrefixedIdIsValid(prefix: string, id: string)
    requires ValidStepId(prefix) && id != ""
    ensures ValidStepId(prefix + id) <==> |prefix| + |id| <= 64 && forall i :: 0 <= i < |id| ==> IsIdChar(id[i])
  {
    var s := prefix + id;
    assert forall i :: 0 <= i < |id| ==> s[|prefix| + i] == id[i];
    assert forall i :: 0 <= i < |s| ==> s[i] == if i < |prefix| then prefix[i] else id[i - |prefix|];
  }

  lemma PluginFields(p: PluginSpec)
    ensures ValidFields(StepsOf(p)) <==> WellFormedPlugin(p)
  {
    var steps := StepsOf(p);
    assert steps[0] == InstallStep(p);
    if p.id != "" {
      PrefixedIdIsValid("install_", p.id);
      PrefixedIdIsValid("write_env_", p.id);
    }
    if HasEnv(p) {
      assert steps[1] == EnvStep(p);
      assert ValidFields(steps) <==> ValidStep(steps[0]) && ValidStep(steps[1]);
    } else {
      assert ValidFields(steps) <==> ValidStep(steps[0]);
    }
  }

  lemma ExtensionFields(e: ExtensionSpec)
    ensures ValidStep(ExtensionStep(e)) <==> PlainId(e.id, 52)
  {
    if e.id != "" { PrefixedIdIsValid("install_ext_", e.id); }
  }

  lemma FieldsSplit(a: seq<Step>, b: seq<Step>)
    ensures ValidFields(a + b) <==> ValidFields(a) && ValidFields(b)
  {
    assert forall i :: 0 <= i < |a| ==> (a + b)[i] == a[i];
    assert forall i :: 0 <= i < |b| ==> (a + b)[|a| + i] == b[i];
  }

  lemma {:induction false} PluginStepsFields(plugins: seq<PluginSpec>)
    ensures ValidFields(PluginSteps(plugins)) <==> forall i :: 0 <= i < |plugins| ==> WellFormedPlugin(plugins[i])
  {
    if plugins != [] {
      var n := |plugins| - 1;
      PluginStepsFields(plugins[..n]);
      PluginFields(plugins[n]);
      FieldsSplit(PluginSteps(plugins[..n]), StepsOf(plugins[n]));
      assert forall i :: 0 <= i < n ==> plugins[..n][i] == plugins[i];
    }
  }

  lemma ExtensionStepsFields(extensions: seq<ExtensionSpec>)
    ensures ValidFields(ExtensionSteps(extensions)) <==>
            forall i :: 0 <= i < |extensions| ==> PlainId(extensions[i].id, 52)
  {
    var steps := ExtensionSteps(extensions);
    forall i | 0 <= i < |steps| ensures ValidStep(steps[i]) <==> PlainId(extensions[i].id, 52) {
      ExtensionFields(extensions[i]);
    }
  }

  lemma HealthFields(o: ScaffoldOptions)
    ensures ValidFields(HealthSteps(o)) <==> (o.withHealthcheck ==> WellFormedHealthcheck(o))
  {
    if o.withHealthcheck {
      assert HealthSteps(o)[0].id == "healthcheck";
      assert ValidFields(HealthSteps(o)) <==> ValidStep(HealthSteps(o)[0]);
    }
  }

  lemma AllFields(o: ScaffoldOptions)
    ensures ValidFields(Steps(o)) <==>
            && (forall i :: 0 <= i < |o.plugins| ==> WellFormedPlugin(o.plugins[i]))
            && (forall i :: 0 <= i < |o.extensions| ==> PlainId(o.extensions[i].id, 52))
            && (o.withHealthcheck ==> WellFormedHealthcheck(o))
  {
    PluginStepsFields(o.plugins);
    ExtensionStepsFields(o.extensions);
    HealthFields(o);
    assert ValidFields([PREPARE]) && ValidFields([StartStep(o)]);
    assert ValidFields(Installing(o)) <==> ValidFields(PluginSteps(o.plugins)) && ValidFields(ExtensionSteps(o.extensions)) by {
      FieldsSplit([PREPARE], PluginSteps(o.plugins));
      FieldsSplit([PREPARE] + PluginSteps(o.plugins), ExtensionSteps(o.extensions));
    }
    assert ValidFields(Steps(o)) <==> ValidFields(Installing(o)) && ValidFields(HealthSteps(o)) by {
      FieldsSplit(Installing(o), [StartStep(o)]);
      FieldsSplit(Installing(o) + [StartStep(o)], HealthSteps(o));
    }
  }

  // ---- distinct ids

  lemma IdsOfConcat(a: seq<Step>, b: seq<Step>)
    ensures Ids(a + b) == Ids(a) + Ids(b)
  {
  }

  ghost predicate NothingShared(a: seq<string>, b: seq<string>) { forall x :: !(x in a && x in b) }

  lemma NoDuplicatesSplit(a: seq<string>, b: seq<string>)
    ensures NoDuplicates(a + b) <==> NoDuplicates(a) && NoDuplicates(b) && NothingShared(a, b)
  {
    if NoDuplicates(a + b) {
      NoDuplicatesParts(a, b);
    }
    if NoDuplicates(a) && NoDuplicates(b) && NothingShared(a, b) {
      forall i, j | 0 <= i < j < |a + b| ensures (a + b)[i] != (a + b)[j] {
        if j < |a| {
          assert a[i] != a[j];
        } else if i >= |a| {
          assert b[i - |a|] != b[j - |a|];
        } else {
          assert a[i] in a && b[j - |a|] in b;
        }
      }
    }
  }

  lemma NoDuplicatesParts(a: seq<string>, b: seq<string>)
    requires NoDuplicates(a + b)
    ensures NoDuplicates(a) && NoDuplicates(b) && NothingShared(a, b)
  {
    var s := a + b;
    forall i, j | 0 <= i < j < |a| ensures a[i] != a[j] { assert s[i] != s[j]; }
    forall i, j | 0 <= i < j < |b| ensures b[i] != b[j] { assert s[|a| + i] != s[|a| + j]; }
    forall i, j | 0 <= i < |a| && 0 <= j < |b| ensures a[i] != b[j] { assert s[i] != s[|a| + j]; }
  }

  predicate IsPluginStepId(p: PluginSpec, id: string) {
    id == InstallId(p.id) || (HasEnv(p) && id == WriteEnvId(p.id))
  }

  lemma {:induction false} PluginStepIds(plugins: seq<PluginSpec>, id: string)
    ensures id in Ids(PluginSteps(plugins)) <==> exists i :: 0 <= i < |plugins| && IsPluginStepId(plugins[i], id)
  {
    if plugins != [] {
      var n := |plugins| - 1;
      PluginStepIds(plugins[..n], id);
      IdsOfConcat(PluginSteps(plugins[..n]), StepsOf(plugins[n]));
      assert id in Ids(StepsOf(plugins[n])) <==> IsPluginStepId(plugins[n], id) by { IdsOfSteps(plugins[n]); }
      assert forall i :: 0 <= i < n ==> plugins[..n][i] == plugins[i];
    }
  }

  lemma IdsOfSteps(p: PluginSpec)
    ensures Ids(StepsOf(p)) == if HasEnv(p) then [InstallId(p.id), WriteEnvId(p.id)] else [InstallId(p.id)]
  {
  }

  lemma ExtensionStepIds(extensions: seq<ExtensionSpec>, id: string)
    ensures id in Ids(ExtensionSteps(extensions)) <==>
            exists i :: 0 <= i < |extensions| && id == InstallExtensionId(extensions[i].id)
  {
    var ids := Ids(ExtensionSteps(extensions));
    assert forall i :: 0 <= i < |extensions| ==> ids[i] == InstallExtensionId(extensions[i].id);
  }

  lemma PrefixIsInjective(prefix: string, a: string, b: string)
    ensures prefix + a == prefix + b <==> a == b
  {
    assert (prefix + a)[|prefix|..] == a && (prefix + b)[|prefix|..] == b;
  }

  /** Which generated ids can coincide. */
  lemma GeneratedIds(p: PluginSpec, q: PluginSpec, e: ExtensionSpec, id: string)
    ensures IsPluginStepId(p, id) && IsPluginStepId(q, id) ==> p.id == q.id
    ensures IsPluginStepId(p, id) && id == InstallExtensionId(e.id) ==> p.id == "ext_" + e.id
    ensures p.id == "ext_" + e.id ==> InstallId(p.id) == InstallExtensionId(e.id)
    ensures IsPluginStepId(p, id) ==> id != "prepare" && id != "start" && id != "healthcheck"
    ensures InstallExtensionId(e.id) != "prepare" && InstallExtensionId(e.id) != "start" && InstallExtensionId(e.id) != "healthcheck"
  {
    PrefixIsInjective("install_", p.id, q.id);
    PrefixIsInjective("write_env_", p.id, q.id);
    PrefixIsInjective("install_", p.id, "ext_" + e.id);
    assert InstallExtensionId(e.id) == "install_" + ("ext_" + e.id);
    assert InstallId(p.id)[0] == 'i' && InstallId(q.id)[0] == 'i' && InstallExtensionId(e.id)[0] == 'i';
    assert WriteEnvId(p.id)[0] == 'w' && WriteEnvId(q.id)[0] == 'w';
  }

  lemma {:induction false} PluginIdsDistinct(plugins: seq<PluginSpec>)
    ensures NoDuplicates(Ids(PluginSteps(plugins))) <==> DistinctPlugins(plugins)
  {
    if plugins != [] {
      var n := |plugins| - 1;
      var before, last := PluginSteps(plugins[..n]), plugins[n];
      PluginIdsDistinct(plugins[..n]);
      assert forall i :: 0 <= i < n ==> plugins[..n][i] == plugins[i];
      IdsOfConcat(before, StepsOf(last));
      IdsOfSteps(last);
      NoDuplicatesSplit(Ids(before), Ids(StepsOf(last)));
      assert InstallId(last.id)[0] != WriteEnvId(last.id)[0];
      LastIsNew(plugins);
    }
  }

  predicate NewLast(plugins: seq<PluginSpec>)
    requires plugins != []
  {
    var n := |plugins| - 1;
    forall i :: 0 <= i < n ==> plugins[i].id != plugins[n].id
  }

  lemma LastIsNew(plugins: seq<PluginSpec>)
    requires plugins != []
    ensures
      var n := |plugins| - 1;
      NothingShared(Ids(PluginSteps(plugins[..n])), Ids(StepsOf(plugins[n]))) <==> NewLast(plugins)
  {
    var n := |plugins| - 1;
    var before, last := Ids(PluginSteps(plugins[..n])), plugins[n];
    IdsOfSteps(last);
    if i :| 0 <= i < n && plugins[i].id == last.id {
      PluginStepIds(plugins[..n], InstallId(last.id));
      assert IsPluginStepId(plugins[..n][i], InstallId(last.id));
      assert InstallId(last.id) in before && InstallId(last.id) in Ids(StepsOf(last));
    } else {
      forall x ensures !(x in before && x in Ids(StepsOf(last))) {
        PluginStepIds(plugins[..n], x);
        if x in before && x in Ids(StepsOf(last)) {
          var i :| 0 <= i < n && IsPluginStepId(plugins[..n][i], x);
          GeneratedIds(plugins[i], last, ExtensionSpec("", false), x);
        }
      }
    }
  }

  lemma ExtensionIdsDistinct(extensions: seq<ExtensionSpec>)
    ensures NoDuplicates(Ids(ExtensionSteps(extensions))) <==> DistinctExtensions(extensions)
  {
    var ids := Ids(ExtensionSteps(extensions));
    forall i, j | 0 <= i < j < |ids| ensures ids[i] == ids[j] <==> extensions[i].id == extensions[j].id {
      PrefixIsInjective("install_ext_", extensions[i].id, extensions[j].id);
    }
  }

  lemma KindsShareNothing(plugins: seq<PluginSpec>, extensions: seq<ExtensionSpec>)
    ensures NothingShared(Ids(PluginSteps(plugins)), Ids(ExtensionSteps(extensions))) <==>
            NoPluginLooksLikeExtension(plugins, extensions)
  {
    var a, b := Ids(PluginSteps(plugins)), Ids(ExtensionSteps(extensions));
    if NoPluginLooksLikeExtension(plugins, extensions) {
      forall x ensures !(x in a && x in b) {
        PluginStepIds(plugins, x);
        ExtensionStepIds(extensions, x);
        if x in a && x in b {
          var i :| 0 <= i < |plugins| && IsPluginStepId(plugins[i], x);
          var j :| 0 <= j < |extensions| && x == InstallExtensionId(extensions[j].id);
          GeneratedIds(plugins[i], plugins[i], extensions[j], x);
        }
      }
    }
    if i, j :| 0 <= i < |plugins| && 0 <= j < |extensions| && plugins[i].id == "ext_" + extensions[j].id {
      var x := InstallId(plugins[i].id);
      GeneratedIds(plugins[i], plugins[i], extensions[j], x);
      PluginStepIds(plugins, x);
      ExtensionStepIds(extensions, x);
      assert IsPluginStepId(plugins[i], x);
      assert x in a && x in b;
    }
  }

  lemma FixedIdsAreNew(o: ScaffoldOptions, id: string)
    requires id == "prepare" || id == "start" || id == "healthcheck"
    ensures id !in Ids(PluginSteps(o.plugins)) && id !in Ids(ExtensionSteps(o.extensions))
  {
    PluginStepIds(o.plugins, id);
    ExtensionStepIds(o.extensions, id);
    forall i | 0 <= i < |o.plugins| ensures !IsPluginStepId(o.plugins[i], id) {
      GeneratedIds(o.plugins[i], o.plugins[i], ExtensionSpec("", false), id);
    }
    forall j | 0 <= j < |o.extensions| ensures id != InstallExtensionId(o.extensions[j].id) {
      GeneratedIds(PluginSpec("", false, None), PluginSpec("", false, None), o.extensions[j], id);
    }
  }

  function Tail(o: ScaffoldOptions): seq<string> { if o.withHealthcheck then ["start", "healthcheck"] else ["start"] }

  lemma IdsOfAll(o: ScaffoldOptions)
    ensures Ids(Steps(o)) == ["prepare"] + (Ids(PluginSteps(o.plugins)) + Ids(ExtensionSteps(o.extensions))) + Tail(o)
  {
  }

  lemma AllIdsDistinct(o: ScaffoldOptions)
    ensures NoDuplicates(Ids(Steps(o))) <==> DistinctIds(o)
  {
    var a, b := Ids(PluginSteps(o.plugins)), Ids(ExtensionSteps(o.extensions));
    IdsOfAll(o);
    PluginIdsDistinct(o.plugins);
    ExtensionIdsDistinct(o.extensions);
    KindsShareNothing(o.plugins, o.extensions);
    NoDuplicatesSplit(a, b);
    FixedIdsAreNew(o, "prepare");
    FixedIdsAreNew(o, "start");
    FixedIdsAreNew(o, "healthcheck");
    FrameIsDistinct(a + b, o);
  }

  lemma FrameIsDistinct(ids: seq<string>, o: ScaffoldOptions)
    requires "prepare" !in ids && "start" !in ids && "healthcheck" !in ids
    ensures NoDuplicates(["prepare"] + ids + Tail(o)) <==> NoDuplicates(ids)
  {
    NoDuplicatesSplit(["prepare"], ids);
    NoDuplicatesSplit(["prepare"] + ids, Tail(o));
    assert "prepare"[0] != "start"[0] && "prepare"[0] != "healthcheck"[0] && "start"[0] != "healthcheck"[0];
    assert NoDuplicates(["prepare"]) && NoDuplicates(Tail(o));
    assert NothingShared(["prepare"], ids);
    assert NothingShared(["prepare"] + ids, Tail(o));
  }

  // ---- order

  lemma AppendInOrder(steps: seq<Step>, step: Step)
    requires WrittenInOrder(steps) && forall d :: d in step.dependsOn ==> d in Ids(steps)
    ensures WrittenInOrder(steps + [step])
  {
    var all := steps + [step];
    IdsOfConcat(steps, [step]);
    forall i, d | 0 <= i < |all| && d in all[i].dependsOn ensures d in Ids(all)[..i] {
      if i < |steps| {
        assert Ids(all)[..i] == Ids(steps)[..i];
        assert d in steps[i].dependsOn;
      } else {
        assert Ids(all)[..i] == Ids(steps);
      }
    }
  }

  lemma {:induction false} PluginsInOrder(plugins: seq<PluginSpec>)
    ensures WrittenInOrder([PREPARE] + PluginSteps(plugins))
    ensures forall i :: 0 <= i < |plugins| ==> LastStepId(plugins[i]) in Ids([PREPARE] + PluginSteps(plugins))
  {
    if plugins != [] {
      var n := |plugins| - 1;
      var before, p := [PREPARE] + PluginSteps(plugins[..n]), plugins[n];
      PluginsInOrder(plugins[..n]);
      AppendInOrder(before, InstallStep(p));
      IdsOfConcat(before, StepsOf(p));
      IdsOfSteps(p);
      if HasEnv(p) {
        IdsOfConcat(before, [InstallStep(p)]);
        assert Ids([InstallStep(p)]) == [InstallId(p.id)];
        AppendInOrder(before + [InstallStep(p)], EnvStep(p));
        assert before + StepsOf(p) == before + [InstallStep(p)] + [EnvStep(p)];
      }
      assert [PREPARE] + PluginSteps(plugins) == before + StepsOf(p);
      forall i | 0 <= i < |plugins| ensures LastStepId(plugins[i]) in Ids(before + StepsOf(p)) {
        assert i < n ==> plugins[..n][i] == plugins[i];
      }
    }
  }

  lemma {:induction false} ExtensionsInOrder(steps: seq<Step>, extensions: seq<ExtensionSpec>)
    requires WrittenInOrder(steps)
    ensures WrittenInOrder(steps + ExtensionSteps(extensions))
  {
    if extensions == [] {
      assert steps + ExtensionSteps(extensions) == steps;
    } else {
      var n := |extensions| - 1;
      ExtensionsInOrder(steps, extensions[..n]);
      AppendInOrder(steps + ExtensionSteps(extensions[..n]), ExtensionStep(extensions[n]));
      assert steps + ExtensionSteps(extensions) == steps + ExtensionSteps(extensions[..n]) + [ExtensionStep(extensions[n])];
    }
  }

  lemma StartDepsKnown(o: ScaffoldOptions, d: string)
    requires d in StartDeps(o.plugins, o.extensions)
    ensures d in Ids(Installing(o))
  {
    var before := [PREPARE] + PluginSteps(o.plugins);
    PluginsInOrder(o.plugins);
    IdsOfConcat(before, ExtensionSteps(o.extensions));
    var k :| 0 <= k < |o.plugins| + |o.extensions| && StartDeps(o.plugins, o.extensions)[k] == d;
    if k < |o.plugins| {
      assert d == LastStepId(o.plugins[k]);
    } else {
      assert d == Ids(ExtensionSteps(o.extensions))[k - |o.plugins|];
    }
  }

  lemma AllInOrder(o: ScaffoldOptions)
    ensures WrittenInOrder(Steps(o))
  {
    PluginsInOrder(o.plugins);
    ExtensionsInOrder([PREPARE] + PluginSteps(o.plugins), o.extensions);
    forall d | d in StartStep(o).dependsOn ensures d in Ids(Installing(o)) { StartDepsKnown(o, d); }
    AppendInOrder(Installing(o), StartStep(o));
    if o.withHealthcheck {
      var health := HealthStep(o, ParseDuration(o.healthcheckTimeout).GetOr(0));
      IdsOfConcat(Installing(o), [StartStep(o)]);
      assert Ids([StartStep(o)]) == ["start"];
      AppendInOrder(Installing(o) + [StartStep(o)], health);
    } else {
      assert Steps(o) == Installing(o) + [StartStep(o)];
    }
  }

  lemma InOrderIsAccepted(steps: seq<Step>)
    requires WrittenInOrder(steps) && NoDuplicates(Ids(steps))
    ensures AcceptedGraph(steps)
  {
    WrittenOrderIsTopological(steps);
    TopologicalHasNoCycle(Dependencies(steps), Ids(steps), Ids(steps));
    forall i, d | 0 <= i < |steps| && d in steps[i].dependsOn ensures d in Ids(steps) {
      assert d in Ids(steps)[..i];
    }
  }

  /** The schema accepts what is generated exactly for the options described above. */
  lemma ScaffoldsExactly(o: ScaffoldOptions)
    ensures o.plugins != [] && Loadable(Steps(o)) <==> Scaffoldable(o)
  {
    AllFields(o);
    AllIdsDistinct(o);
    AllInOrder(o);
    if DistinctIds(o) { InOrderIsAccepted(Steps(o)); }
  }

  /** A scaffolded plan runs in the order in which it is written. */
  method ScaffoldedOrder(o: ScaffoldOptions) returns (order: seq<string>)
    requires Scaffoldable(o)
    ensures order == Ids(Steps(o))
  {
    ScaffoldsExactly(o);
    AllInOrder(o);
    order := ExecutionOrder(InstallPlan(o.projectId, o.version, Steps(o)));
  }
}
