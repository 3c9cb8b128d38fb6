/** The states of a deployment and the transitions between them. */
module DeploymentStates {

  datatype State =
    | Pending
    | Authenticating
    | RequestingArtifact
    | Downloading
    | VerifyingSignature
    | ObtainingKey
    | Decrypting
    | Extracting
    | VerifyingManifest
    | ValidatingProject
    | ResolvingPlugins
    | ResolvingSequence
    | Installing
    | Healthchecking
    | Notifying
    | Succeeded
    | Failed
    | RolledBack

  predicate IsTerminal(s: State) { s == Succeeded || s == Failed || s == RolledBack }

  function Transitions(s: State): set<State> {
    match s
    case Pending => {Authenticating}
    case Authenticating => {RequestingArtifact, Failed}
    case RequestingArtifact => {Downloading, Failed}
    case Downloading => {VerifyingSignature, Failed}
    case VerifyingSignature => {ObtainingKey, Failed}
    case ObtainingKey => {Decrypting, Failed}
    case Decrypting => {Extracting, Failed}
    case Extracting => {VerifyingManifest, Failed}
    case VerifyingManifest => {ValidatingProject, Failed}
    case ValidatingProject => {ResolvingPlugins, Failed}
    case ResolvingPlugins => {ResolvingSequence, Failed}
    case ResolvingSequence => {Installing, Failed}
    case Installing => {Healthchecking, Failed, RolledBack}
    case Healthchecking => {Notifying, Failed, RolledBack}
    case Notifying => {Succeeded, Failed}
    case Succeeded => {}
    case Failed => {}
    case RolledBack => {}
  }

  /** The stages in the only order in which they can be passed. */
  const STAGES := [
    Pending, Authenticating, RequestingArtifact, Downloading, VerifyingSignature, ObtainingKey,
    Decrypting, Extracting, VerifyingManifest, ValidatingProject, ResolvingPlugins,
    ResolvingSequence, Installing, Healthchecking, Notifying, Succeeded]

  /** Every stage leads to the next one; all but the first can fail; only the installation
      and the healthcheck can be rolled back; and nothing leads on from an end. */
  lemma TransitionsExactly(i: nat)
    requires i < 15
    ensures Transitions(STAGES[i]) ==
      {STAGES[i + 1]} + (if i > 0 then {Failed} else {}) +
      (if STAGES[i] == Installing || STAGES[i] == Healthchecking then {RolledBack} else {})
    ensures Transitions(Succeeded) == {} && Transitions(Failed) == {} && Transitions(RolledBack) == {}
  {
  }

  /** Any sequence of states the transition table allows, from the initial one. */
  ghost predicate IsRun(trail: seq<State>) {
    && trail != [] && trail[0] == Pending
    && forall i :: 0 <= i < |trail| - 1 ==> trail[i + 1] in Transitions(trail[i])
  }

  /** Whatever is done with the table, no stage can be skipped or repeated: up to the last
      state, a run is a beginning of the stages, and only the last may be a failure. */
  lemma {:induction false} RunsFollowStages(trail: seq<State>)
    requires IsRun(trail)
    ensures 1 <= |trail| <= 16
    ensures trail[..|trail| - 1] == STAGES[..|trail| - 1]
    ensures trail[|trail| - 1] == STAGES[|trail| - 1] || trail[|trail| - 1] == Failed || trail[|trail| - 1] == RolledBack
    decreases |trail|
  {
    var n := |trail| - 1;
    if n > 0 {
      RunsFollowStages(trail[..n]);
      assert trail[..n][..n - 1] == trail[..n - 1];
      assert trail[n] in Transitions(trail[n - 1]);
      assert trail[n - 1] == STAGES[n - 1];
      assert n < 16 && (trail[n] == STAGES[n] || trail[n] == Failed || trail[n] == RolledBack) by {
        StageSuccessor(n - 1, trail[n]);
      }
      assert trail[..n] == trail[..n - 1] + [trail[n - 1]];
      assert STAGES[..n] == STAGES[..n - 1] + [STAGES[n - 1]];
    }
  }

  lemma StageSuccessor(k: nat, next: State)
    requires k < 16 && next in Transitions(STAGES[k])
    ensures k < 15 && (next == STAGES[k + 1] || next == Failed || next == RolledBack)
  {
  }

  /** In particular nothing is installed before every check has been passed, in order. */
  lemma InstallingNeedsEveryStage(trail: seq<State>, k: nat)
    requires IsRun(trail) && k < |trail| && trail[k] == Installing
    ensures k == 12 && trail[..k + 1] == STAGES[..13]
  {
    assert IsRun(trail[..k + 1]);
    RunsFollowStages(trail[..k + 1]);
    assert trail[..k + 1][..k] == trail[..k];
    assert forall j :: 0 <= j < 16 && STAGES[j] == Installing ==> j == 12;
    assert trail[..k + 1] == trail[..k] + [trail[k]];
    assert STAGES[..13] == STAGES[..12] + [STAGES[12]];
  }

  /** The states before anything is installed. */
  predicate IsEarly(s: State) {
    match s
    case Installing => false
    case Healthchecking => false
    case Notifying => false
    case Succeeded => false
    case Failed => false
    case RolledBack => false
    case _ => true
  }

  lemma EarlyStage(k: nat)
    requires k < 16
    ensures IsEarly(STAGES[k]) <==> k < 12
  {
  }

  lemma NotYetInstalling(trail: seq<State>)
    requires IsRun(trail)
    ensures IsEarly(trail[|trail| - 1]) ==> Installing !in trail
  {
    RunsFollowStages(trail);
    EarlyStage(|trail| - 1);
    if k :| 0 <= k < |trail| && trail[k] == Installing {
      InstallingNeedsEveryStage(trail, k);
    }
  }
}
