/** One deployment, from authentication to the final report. */
module Pipeline {
  import opened Wrappers
  import opened FileTree
  import opened TreeDigest
  import opened InstallSchema
  import opened Manifest
  import opened DeploymentStates
  import Packer
  import D = InstallDriver
  import U = InstallUndo
  import R = InstallResult

  /** `DeploymentError` and its subclasses, or any other exception. */
  datatype Raised = DeploymentError | OtherError

  type Outcome<T> = Result<T, Raised>

  predicate Raises<T>(r: Outcome<T>, error: Raised) { r.Failure? && r.error == error }

  datatype ArtifactLocation = ArtifactLocation(downloadUrl: string, signature: Bytes, signerPublicKey: Bytes)
  datatype Credentials = Credentials(xdevkey: string, projectId: string, deploymentCredential: string)

  /** What the hub, the plugin resolver and the host do in one run; any answer may be an exception.
      An error while files are unpacked, or while resolved ones are copied, is one as well. */
  datatype Outside = Outside(
    authenticate: Outcome<string>,
    requestArtifact: Outcome<ArtifactLocation>,
    download: Outcome<Bytes>,
    obtainKey: Outcome<Bytes>,
    unpacking: Outcome<()>,
    notify: Outcome<()>,
    resolve: Option<(string, PluginSource) -> Outcome<Folder>>,
    weather: nat -> D.Weather,
    rollbackFault: D.RollbackFault)

  datatype Unpacked = Members(tree: Tree) | UnsafePath | NotAnArchive

  /** The cryptographic and parsing primitives, taken as given functions. */
  datatype Primitives = Primitives(
    verify: (Bytes, Bytes, Bytes) -> bool,
    decrypt: (Bytes, Bytes, Bytes) -> Option<Bytes>,
    decompress: Bytes -> Option<Bytes>,
    untar: Bytes -> Unpacked,
    sha: Hash,
    parseManifest: Bytes -> Option<ProjectManifest>,
    parsePlan: Bytes -> Option<InstallPlan>)

  const EXTRACTED: Path := ["extracted"]
  const ARCHIVE: Path := ["artifact.tar"]
  const INSTALL_PLAN: Path := ["deployment", "install.yaml"]
  const NONCE_LENGTH := 12
  const KEY_LENGTH := 32

  /** Python's `b[:n]` and `b[n:]`, which never raise. */
  function Take(b: Bytes, n: nat): Bytes { if n <= |b| then b[..n] else b }
  function Drop(b: Bytes, n: nat): Bytes { if n <= |b| then b[n..] else [] }

  // ---------------------------------------------------------------- what is accepted

  /** The signed ciphertext came from the trusted signer. */
  predicate Authentic(trusted: Bytes, prim: Primitives, location: ArtifactLocation, encrypted: Bytes) {
    location.signerPublicKey == trusted && prim.verify(location.signerPublicKey, location.signature, encrypted)
  }

  /** The hub answers, with bytes that the trusted signer has not signed. */
  predicate Forged(o: Outside, prim: Primitives, trusted: Bytes) {
    && o.authenticate.Success? && o.requestArtifact.Success? && o.download.Success?
    && !Authentic(trusted, prim, o.requestArtifact.value, o.download.value)
  }

  /** Decompress and unpack; nothing if the compressed form is invalid. */
  function Unpack(prim: Primitives, compressed: Bytes): Option<Unpacked> {
    var archive := prim.decompress(compressed);
    if archive.None? then None else Some(prim.untar(archive.value))
  }

  predicate UnpacksTo(prim: Primitives, compressed: Bytes, tree: Tree) {
    var unpacked := Unpack(prim, compressed);
    unpacked.Some? && unpacked.value.Members? && unpacked.value.tree == tree
  }

  /** Decrypt under a key of the right length; the nonce comes first. */
  function Decrypt(prim: Primitives, encrypted: Bytes, key: Bytes): Option<Bytes> {
    if |key| != KEY_LENGTH then None
    else prim.decrypt(key, Take(encrypted, NONCE_LENGTH), Drop(encrypted, NONCE_LENGTH))
  }

  predicate ManifestOf(prim: Primitives, tree: Tree, m: ProjectManifest) {
    && IsFile(tree, [Packer.MANIFEST_FILENAME])
    && prim.parseManifest(tree[[Packer.MANIFEST_FILENAME]].data) == Some(m)
  }

  predicate PlanOf(prim: Primitives, tree: Tree, plan: InstallPlan) {
    && IsFile(tree, INSTALL_PLAN)
    && prim.parsePlan(tree[INSTALL_PLAN].data) == Some(plan)
  }

  ghost function ContentHash(prim: Primitives, tree: Tree): string {
    prim.sha(Preimage(Packer.AgentFiles(tree), prim.sha))
  }

  /** The tree is what its own manifest says it is, and its plan is acceptable. */
  ghost predicate Attested(prim: Primitives, tree: Tree, m: ProjectManifest, plan: InstallPlan) {
    && ManifestOf(prim, tree, m)
    && ContentHash(prim, tree) == m.contentSha256
    && PlanOf(prim, tree, plan) && AcceptedGraph(plan.steps)
  }

  ghost predicate Attestable(prim: Primitives, tree: Tree) {
    exists m, plan :: Attested(prim, tree, m, plan)
  }

  /** The bytes unpack to a tree that describes itself truthfully. */
  ghost predicate Opens(prim: Primitives, compressed: Bytes) {
    var unpacked := Unpack(prim, compressed);
    unpacked.Some? && unpacked.value.Members? && Attestable(prim, WithRoot(unpacked.value.tree))
  }

  predicate Requested(credentials: Credentials, version: string, m: ProjectManifest, plan: InstallPlan) {
    m.projectId == credentials.projectId && plan.projectId == credentials.projectId && m.version == version
  }

  /** What the downloaded bytes decrypt to, if they are signed by the trusted key. */
  function Delivery(o: Outside, prim: Primitives, trusted: Bytes): Option<Bytes> {
    if o.authenticate.Failure? || o.requestArtifact.Failure? || o.download.Failure? || o.obtainKey.Failure? then None
    else if !Authentic(trusted, prim, o.requestArtifact.value, o.download.value) then None
    else Decrypt(prim, o.download.value, o.obtainKey.value)
  }

  /** `tree` is what the signed bytes that were downloaded unpack to, and it could be unpacked. */
  predicate Genuine(o: Outside, prim: Primitives, trusted: Bytes, tree: Tree) {
    o.unpacking.Success? && Delivery(o, prim, trusted).Some? && UnpacksTo(prim, Delivery(o, prim, trusted).value, tree)
  }

  /** Everything that has to hold before the driver is driven: the tree comes from the
      trusted signer, and it describes itself truthfully. */
  ghost predicate Verified(o: Outside, prim: Primitives, trusted: Bytes, credentials: Credentials, version: string,
                           tree: Tree, m: ProjectManifest, plan: InstallPlan) {
    && Genuine(o, prim, trusted, tree)
    && Attested(prim, WithRoot(tree), m, plan)
    && Requested(credentials, version, m, plan)
  }

  // ---------------------------------------------------------------- source-based items

  /** One item the manifest references by source: resolver key, target below the extracted
      tree, and the pinned hash if any. */
  datatype Sourced = Sourced(key: string, target: Path, source: PluginSource, pinned: Option<string>)

  function SourcedPlugins(plugins: seq<PluginRef>, dirname: Path): seq<Sourced> {
    if plugins == [] then []
    else
      var rest := SourcedPlugins(plugins[1..], dirname);
      var p := plugins[0];
      if p.source.None? then rest else [Sourced(p.id, dirname + [p.id], p.source.value, p.sha256)] + rest
  }

  function SourcedExtensions(extensions: seq<ExtensionRef>): seq<Sourced> {
    if extensions == [] then []
    else
      var rest := SourcedExtensions(extensions[1..]);
      var e := extensions[0];
      if e.source.None? then rest
      else [Sourced("ext-" + e.id, ["extensions", e.id], e.source.value, e.sha256)] + rest
  }

  function SourcedItems(m: ProjectManifest): seq<Sourced> {
    SourcedPlugins(m.plugins, m.pluginsDirname) + SourcedExtensions(m.extensions)
  }

  /** The digest of a whole directory, nothing left out. */
  ghost function WholeDigest(prim: Primitives, tree: Tree): string {
    prim.sha(Preimage(Keep(FilesOf(tree), {}, []), prim.sha))
  }

  /** Fetch one sourced item and lay it over what was extracted. */
  ghost function LaidOver(o: Outside, prim: Primitives, extracted: Tree, item: Sourced): Outcome<Tree> {
    if o.resolve.None? then Failure(DeploymentError)
    else
      var fetched := o.resolve.value(item.key, item.source);
      if fetched.Failure? then Failure(fetched.error)
      else if item.pinned.Some? && WholeDigest(prim, fetched.value) != item.pinned.value then Failure(DeploymentError)
      else if MergeConflict(extracted, item.target, fetched.value) then Failure(OtherError)
      else Success(Merge(extracted, item.target, fetched.value))
  }

  /** All of them, one after the other, up to the first that raises. */
  ghost function Resolved(o: Outside, prim: Primitives, extracted: Tree, items: seq<Sourced>): Outcome<Tree>
    decreases |items|
  {
    if items == [] then Success(extracted)
    else
      var first := LaidOver(o, prim, extracted, items[0]);
      if first.Failure? then Failure(first.error) else Resolved(o, prim, first.value, items[1..])
  }

  predicate SameResult(a: Outcome<Tree>, b: Outcome<Tree>) {
    a.Success? == b.Success? && (a.Success? ==> a.value == b.value)
  }

  /** With the first `i` items laid over `start`, the rest lead to the same result. */
  ghost predicate ResolvedUpTo(o: Outside, prim: Primitives, start: Tree, items: seq<Sourced>, i: nat, extracted: Tree)
    requires i <= |items|
  {
    SameResult(Resolved(o, prim, extracted, items[i..]), Resolved(o, prim, start, items))
  }

  lemma ResolvedNext(o: Outside, prim: Primitives, start: Tree, items: seq<Sourced>, i: nat, extracted: Tree)
    requires i < |items| && ResolvedUpTo(o, prim, start, items, i, extracted)
    ensures
      var next := LaidOver(o, prim, extracted, items[i]);
      if next.Failure? then Resolved(o, prim, start, items).Failure?
      else ResolvedUpTo(o, prim, start, items, i + 1, next.value)
  {
    assert items[i..][1..] == items[i + 1..];
  }

  ghost predicate ResolvesTo(o: Outside, prim: Primitives, extracted: Tree, items: seq<Sourced>, result: Tree) {
    Resolved(o, prim, extracted, items).Success? && Resolved(o, prim, extracted, items).value == result
  }

  // ---------------------------------------------------------------- what can be deployed

  /** Everything an installation needs can be obtained: a verified artifact, for the requested
      project and version, with all its sourced items. */
  ghost predicate Deployable(o: Outside, prim: Primitives, trusted: Bytes, credentials: Credentials, version: string) {
    exists raw, m, plan :: CanDeploy(o, prim, trusted, credentials, version, raw, m, plan)
  }

  ghost predicate CanDeploy(o: Outside, prim: Primitives, trusted: Bytes, credentials: Credentials, version: string,
                            raw: Tree, m: ProjectManifest, plan: InstallPlan) {
    && Verified(o, prim, trusted, credentials, version, raw, m, plan)
    && Resolved(o, prim, WithRoot(raw), SourcedItems(m)).Success?
  }

  /** What the signed bytes unpack to is one tree, with one manifest and one plan. */
  lemma OnlyOneArtifact(o: Outside, prim: Primitives, trusted: Bytes, a: Tree, m: ProjectManifest, plan: InstallPlan,
                        b: Tree, m': ProjectManifest, plan': InstallPlan)
    requires Genuine(o, prim, trusted, a) && Attested(prim, WithRoot(a), m, plan)
    requires Genuine(o, prim, trusted, b) && Attested(prim, WithRoot(b), m', plan')
    ensures a == b && m == m' && plan == plan'
  {
  }

  lemma NotReceived(o: Outside, prim: Primitives, trusted: Bytes, credentials: Credentials, version: string)
    requires Delivery(o, prim, trusted).None? || o.unpacking.Failure? || !Opens(prim, Delivery(o, prim, trusted).value)
    ensures !Deployable(o, prim, trusted, credentials, version)
  {
  }

  lemma ForgedCannotRun(o: Outside, prim: Primitives, trusted: Bytes, credentials: Credentials, version: string)
    ensures Forged(o, prim, trusted) ==> !Deployable(o, prim, trusted, credentials, version)
  {
  }

  lemma NotUsable(o: Outside, prim: Primitives, trusted: Bytes, credentials: Credentials, version: string,
                  raw: Tree, m: ProjectManifest, plan: InstallPlan)
    requires Genuine(o, prim, trusted, raw) && Attested(prim, WithRoot(raw), m, plan)
    requires !Requested(credentials, version, m, plan) || Resolved(o, prim, WithRoot(raw), SourcedItems(m)).Failure?
    ensures !Deployable(o, prim, trusted, credentials, version)
  {
    forall b, m', plan' ensures !CanDeploy(o, prim, trusted, credentials, version, b, m', plan') {
      if CanDeploy(o, prim, trusted, credentials, version, b, m', plan') {
        OnlyOneArtifact(o, prim, trusted, raw, m, plan, b, m', plan');
      }
    }
  }

  // ---------------------------------------------------------------- the installation

  /** The steps of the plan in execution order. */
  function InOrder(steps: seq<Step>, order: seq<string>): seq<Step>
    requires forall id :: id in order ==> id in Ids(steps)
  {
    seq(|order|, i requires 0 <= i < |order| => (assert order[i] in order; FindStep(steps, order[i]).value))
  }

  function WeatherOf(o: Outside, n: nat): seq<D.Weather> {
    seq(n, i requires 0 <= i < n => o.weather(i))
  }

  /** The steps run on a host that no snapshot has been taken of yet. */
  function Ran(o: Outside, cfg: D.Config, tree: Tree, steps: seq<Step>): (D.Host, bool) {
    D.RunSteps(D.Host(tree, []), cfg, steps, WeatherOf(o, |steps|))
  }

  /** The rollback that follows when a step has raised. */
  function Undone(o: Outside, cfg: D.Config, h: D.Host): (Tree, bool) {
    D.RollBack(h.tree, cfg.pluginsDirname, h.records, None, o.rollbackFault)
  }

  /** How an installation that was started leaves the host. */
  function Left(o: Outside, cfg: D.Config, tree: Tree, steps: seq<Step>): Tree {
    var ran := Ran(o, cfg, tree, steps);
    if ran.1 then ran.0.tree else Undone(o, cfg, ran.0).0
  }

  /** A step raised, and the rollback ran to its end. */
  predicate WasRolledBack(o: Outside, cfg: D.Config, tree: Tree, steps: seq<Step>) {
    var ran := Ran(o, cfg, tree, steps);
    !ran.1 && Undone(o, cfg, ran.0).1
  }

  /** The host and the final state after an installation was started. */
  ghost predicate InstalledAs(o: Outside, cfg: D.Config, before: Tree, steps: seq<Step>, after: Tree, end: State) {
    after == Left(o, cfg, before, steps) && EndsAs(o, cfg, before, steps, end)
  }

  ghost predicate EndsAs(o: Outside, cfg: D.Config, before: Tree, steps: seq<Step>, end: State) {
    && (end == RolledBack <==> WasRolledBack(o, cfg, before, steps))
    && (end == Succeeded ==> Ran(o, cfg, before, steps).1)
  }

  /** What `ROLLED_BACK` promises about the host. */
  lemma RolledBackRestores(o: Outside, cfg: D.Config, tree: Tree, steps: seq<Step>, kind: D.Kind, id: string)
    requires WasRolledBack(o, cfg, tree, steps)
    requires U.SeparateLayout(cfg.pluginsDirname) && U.ProperSteps(steps) && U.Rooted(tree, cfg.pluginsDirname)
    requires U.ProperItem(kind, id) && U.FirstTouchSnapshots(steps, kind, id)
    ensures Sub(Left(o, cfg, tree, steps), D.Target(cfg.pluginsDirname, kind, id)) ==
            Sub(tree, D.Target(cfg.pluginsDirname, kind, id))
  {
    U.FailedInstallIsUndone(tree, cfg, steps, WeatherOf(o, |steps|), o.rollbackFault, kind, id);
  }

  /** When a step raises and the rollback meets no error of its own, the run ends rolled back. */
  lemma FailedStepRollsBack(o: Outside, cfg: D.Config, tree: Tree, steps: seq<Step>)
    requires o.rollbackFault.Smooth?
    requires U.SeparateLayout(cfg.pluginsDirname) && U.ProperSteps(steps)
    requires U.Rooted(tree, cfg.pluginsDirname) && U.Supported(tree, cfg.pluginsDirname)
    ensures WasRolledBack(o, cfg, tree, steps) <==> !Ran(o, cfg, tree, steps).1
  {
    U.RollbackOfRunCompletes(tree, cfg, steps, WeatherOf(o, |steps|), None);
  }

  /** What `SUCCEEDED` promises about the host. */
  lemma SucceededInstalls(o: Outside, cfg: D.Config, tree: Tree, steps: seq<Step>, kind: D.Kind, id: string)
    requires Ran(o, cfg, tree, steps).1
    requires U.SeparateLayout(cfg.pluginsDirname) && U.ProperSteps(steps) && U.Rooted(tree, cfg.pluginsDirname)
    requires U.ProperItem(kind, id)
    ensures R.InstalledBy(steps, tree, Left(o, cfg, tree, steps), cfg, kind, id)
  {
    R.CompletedRunInstalls(D.Host(tree, []), cfg, steps, WeatherOf(o, |steps|), kind, id);
  }

  method DigestExtracted(prim: Primitives, tree: Tree) returns (digest: string)
    ensures digest == ContentHash(prim, tree)
  {
    var listing := Packer.Rglob(tree);
    digest := ComputeTreeDigest(tree, listing, {Packer.MANIFEST_FILENAME}, [], prim.sha);
  }

  method DigestWhole(prim: Primitives, tree: Tree) returns (digest: string)
    ensures digest == WholeDigest(prim, tree)
  {
    var listing := Packer.Rglob(tree);
    digest := ComputeTreeDigest(tree, listing, {}, [], prim.sha);
  }

  method ReadManifest(prim: Primitives, tree: Tree) returns (r: Outcome<ProjectManifest>)
    ensures r.Success? ==> ManifestOf(prim, tree, r.value)
    ensures r.Failure? ==> !Attestable(prim, tree)
  {
    if !IsFile(tree, [Packer.MANIFEST_FILENAME]) {
      return Failure(DeploymentError);
    }
    var parsed := prim.parseManifest(tree[[Packer.MANIFEST_FILENAME]].data);
    r := if parsed.None? then Failure(OtherError) else Success(parsed.value);
  }

  /** The part of `_verify_manifest` after the manifest has been read. */
  method CheckContents(prim: Primitives, tree: Tree, m: ProjectManifest) returns (r: Outcome<InstallPlan>)
    requires ManifestOf(prim, tree, m)
    ensures r.Success? ==> Attested(prim, tree, m, r.value)
    ensures r.Failure? ==> !Attestable(prim, tree)
  {
    var actual := DigestExtracted(prim, tree);
    if actual != m.contentSha256 {
      return Failure(DeploymentError);
    }
    if !IsFile(tree, INSTALL_PLAN) {
      return Failure(DeploymentError);
    }
    var plan := prim.parsePlan(tree[INSTALL_PLAN].data);
    if plan.None? {
      return Failure(OtherError);
    }
    var accepted := ValidateGraph(plan.value.steps);
    if accepted.Fail? {
      return Failure(OtherError);
    }
    r := Success(plan.value);
  }

  /** The manifest as far as it can be read, and the plan if everything is as it should be. */
  method OpenTree(prim: Primitives, tree: Tree) returns (m: Outcome<ProjectManifest>, r: Outcome<InstallPlan>)
    ensures r.Success? ==> m.Success? && Attested(prim, tree, m.value, r.value)
    ensures r.Success? <==> Attestable(prim, tree)
  {
    m := ReadManifest(prim, tree);
    r := if m.Failure? then Failure(m.error) else Failure(OtherError);
    if m.Success? {
      r := CheckContents(prim, tree, m.value);
    }
  }

  // ---------------------------------------------------------------- the runner

  class DeploymentRunner {
    const o: Outside
    const prim: Primitives
    const credentials: Credentials
    const version: string
    const trusted: Bytes
    const driver: D.Driver
    var workdir: Tree
    var state: State
    var session: Option<string>
    var manifest: Option<ProjectManifest>
    var installPlan: Option<InstallPlan>
    ghost var trail: seq<State>

    constructor (o: Outside, prim: Primitives, credentials: Credentials, version: string, trusted: Bytes,
                 driver: D.Driver, workdir: Tree)
      ensures this.o == o && this.prim == prim && this.credentials == credentials && this.version == version
      ensures this.trusted == trusted && this.driver == driver && this.workdir == workdir
      ensures state == Pending && session.None? && manifest.None? && installPlan.None? && Valid()
    {
      this.o, this.prim, this.credentials, this.version := o, prim, credentials, version;
      this.trusted, this.driver, this.workdir := trusted, driver, workdir;
      state, session, manifest, installPlan := Pending, None, None, None;
      trail := [Pending];
    }

    /** The trail of states is one the transition table allows, and it ends here. */
    ghost predicate Valid()
      reads this`trail, this`state
    {
      IsRun(trail) && trail[|trail| - 1] == state
    }

    function Extracted(): Tree
      reads this`workdir
    {
      Sub(workdir, EXTRACTED)
    }

    /** `_transition`. */
    method Transition(next: State) returns (r: Outcome<()>)
      requires Valid()
      modifies this`state, this`trail
      ensures Valid()
      ensures r.Success? <==> next in Transitions(old(state))
      ensures r.Success? ==> state == next && trail == old(trail) + [next]
      ensures r.Failure? ==> r.error == DeploymentError && state == old(state) && trail == old(trail)
    {
      if next !in Transitions(state) {
        return Failure(DeploymentError);
      }
      state := next;
      trail := trail + [next];
      r := Success(());
    }

    /** Through `_decrypt`: authenticate, fetch, check the signature, obtain the key, open. */
    method Fetch() returns (r: Outcome<Bytes>)
      requires Valid() && state == Pending
      modifies this`state, this`trail, this`session
      ensures Valid() && IsEarly(state) && state != Pending
      ensures r.Success? ==> state == Decrypting
      ensures session.Some? <==> o.authenticate.Success?
      ensures r.Success? <==> Delivery(o, prim, trusted).Some?
      ensures r.Success? ==> Delivery(o, prim, trusted).value == r.value
      ensures Forged(o, prim, trusted) ==> Raises(r, DeploymentError)
      ensures r.Success? ==>
        && o.requestArtifact.Success? && o.requestArtifact.value.signerPublicKey == trusted
        && o.download.Success? && prim.verify(trusted, o.requestArtifact.value.signature, o.download.value)
    {
      var _ := Transition(Authenticating);
      if o.authenticate.Failure? {
        session := None;
        return Failure(o.authenticate.error);
      }
      session := Some(o.authenticate.value);
      var _ := Transition(RequestingArtifact);
      if o.requestArtifact.Failure? { return Failure(o.requestArtifact.error); }
      var location := o.requestArtifact.value;
      var _ := Transition(Downloading);
      if o.download.Failure? { return Failure(o.download.error); }
      var encrypted := o.download.value;
      var _ := Transition(VerifyingSignature);
      if location.signerPublicKey != trusted { return Failure(DeploymentError); }
      if !prim.verify(location.signerPublicKey, location.signature, encrypted) { return Failure(DeploymentError); }
      var _ := Transition(ObtainingKey);
      if o.obtainKey.Failure? { return Failure(o.obtainKey.error); }
      var _ := Transition(Decrypting);
      if |o.obtainKey.value| != KEY_LENGTH { return Failure(DeploymentError); }
      var compressed := prim.decrypt(o.obtainKey.value, Take(encrypted, NONCE_LENGTH), Drop(encrypted, NONCE_LENGTH));
      if compressed.None? { return Failure(DeploymentError); }
      r := Success(compressed.value);
    }

    /** `_extract`: whatever an earlier attempt left below `extracted` is gone afterwards. */
    method Extract(compressed: Bytes) returns (r: Outcome<()>)
      requires Valid() && state == Decrypting
      modifies this`state, this`trail, this`workdir
      ensures Valid() && state == Extracting && trail == old(trail) + [Extracting]
      ensures r.Success? <==>
        o.unpacking.Success? && Unpack(prim, compressed).Some? && Unpack(prim, compressed).value.Members?
      ensures r.Success? ==> Extracted() == WithRoot(Unpack(prim, compressed).value.tree) && IsDir(workdir, [])
    {
      var _ := Transition(Extracting);
      var archive := prim.decompress(compressed);
      if archive.None? {
        return Failure(DeploymentError);
      }
      if EXTRACTED in workdir {
        workdir := Remove(workdir, EXTRACTED);
      }
      workdir := WithRoot(workdir)[EXTRACTED := Dir];
      workdir := workdir[ARCHIVE := File(archive.value)];
      if o.unpacking.Failure? { return Failure(o.unpacking.error); }
      var unpacked := prim.untar(archive.value);
      if unpacked.NotAnArchive? { return Failure(OtherError); }
      if unpacked.UnsafePath? { return Failure(DeploymentError); }
      Fill(WithRoot(unpacked.tree));
      r := Success(());
    }

    /** This is below `extracted` from now on. */
    method Fill(tree: Tree)
      modifies this`workdir
      ensures Extracted() == tree && (IsDir(old(workdir), []) ==> IsDir(workdir, []))
    {
      SubOfGraft(workdir, EXTRACTED, tree);
      GraftAt(workdir, EXTRACTED, tree, []);
      workdir := Graft(workdir, EXTRACTED, tree);
    }

    /** Extraction and verification together. What comes out does not depend on what any
        earlier attempt has left in the working directory. */
    method OpenArtifact(compressed: Bytes) returns (r: Outcome<()>)
      requires Valid() && state == Decrypting
      modifies this`state, this`trail, this`workdir, this`manifest, this`installPlan, driver`cfg
      ensures Valid() && IsEarly(state) && state != Pending
      ensures r.Success? <==> o.unpacking.Success? && Opens(prim, compressed)
      ensures r.Success? ==>
        && state == VerifyingManifest && manifest.Some? && installPlan.Some? && IsDir(workdir, [])
        && Unpack(prim, compressed).Some? && Unpack(prim, compressed).value.Members?
        && Extracted() == WithRoot(Unpack(prim, compressed).value.tree)
        && Attested(prim, Extracted(), manifest.value, installPlan.value)
        && driver.cfg == D.ForManifest(old(driver.cfg), manifest.value.plugins, manifest.value.pluginsDirname)
    {
      r := Extract(compressed);
      if r.Success? {
        r := VerifyManifest();
      }
    }

    /** `_verify_manifest`, on whatever has been extracted. */
    method VerifyManifest() returns (r: Outcome<()>)
      requires Valid() && state == Extracting
      modifies this`state, this`trail, this`manifest, this`installPlan, driver`cfg
      ensures Valid() && state == VerifyingManifest && trail == old(trail) + [VerifyingManifest]
      ensures r.Success? ==> manifest.Some? && installPlan.Some? && Attested(prim, Extracted(), manifest.value, installPlan.value)
      ensures r.Success? <==> Attestable(prim, Extracted())
      ensures r.Success? ==> driver.cfg == D.ForManifest(old(driver.cfg), manifest.value.plugins, manifest.value.pluginsDirname)
    {
      var _ := Transition(VerifyingManifest);
      var tree := Extracted();
      var parsed, plan := OpenTree(prim, tree);
      if parsed.Success? {
        manifest := Some(parsed.value);
        driver.cfg := D.ForManifest(driver.cfg, parsed.value.plugins, parsed.value.pluginsDirname);
      }
      if plan.Failure? {
        return Failure(plan.error);
      }
      installPlan := Some(plan.value);
      r := Success(());
    }

    /** `_validate_project`. */
    method ValidateProject() returns (r: Outcome<()>)
      requires Valid() && state == VerifyingManifest && manifest.Some? && installPlan.Some?
      modifies this`state, this`trail
      ensures Valid() && state == ValidatingProject && trail == old(trail) + [ValidatingProject]
      ensures r.Success? <==>
        && manifest.value.projectId == credentials.projectId && installPlan.value.projectId == credentials.projectId
        && manifest.value.version == version
      ensures r.Success? <==> Requested(credentials, version, manifest.value, installPlan.value)
      ensures r.Failure? ==> r.error == DeploymentError
    {
      var _ := Transition(ValidatingProject);
      if manifest.value.projectId != credentials.projectId { return Failure(DeploymentError); }
      if installPlan.value.projectId != credentials.projectId { return Failure(DeploymentError); }
      if manifest.value.version != version { return Failure(DeploymentError); }
      r := Success(());
    }

    /** One item of `_resolve_plugins`. */
    method LayOver(item: Sourced) returns (r: Outcome<()>)
      modifies this`workdir
      ensures IsDir(old(workdir), []) ==> IsDir(workdir, [])
      ensures r.Success? ==>
        LaidOver(o, prim, old(Extracted()), item).Success? && LaidOver(o, prim, old(Extracted()), item).value == Extracted()
      ensures r.Failure? ==> Raises(LaidOver(o, prim, old(Extracted()), item), r.error)
    {
      if o.resolve.None? {
        return Failure(DeploymentError);
      }
      var fetched := o.resolve.value(item.key, item.source);
      if fetched.Failure? {
        return Failure(fetched.error);
      }
      if item.pinned.Some? {
        var actual := DigestWhole(prim, fetched.value);
        if actual != item.pinned.value {
          return Failure(DeploymentError);
        }
      }
      if MergeConflict(Extracted(), item.target, fetched.value) {
        return Failure(OtherError);
      }
      Fill(Merge(Extracted(), item.target, fetched.value));
      r := Success(());
    }

    /** `_resolve_plugins`: source-based items are fetched and laid over the extracted tree. */
    method ResolvePlugins() returns (r: Outcome<()>)
      requires Valid() && state == ValidatingProject && manifest.Some?
      modifies this`state, this`trail, this`workdir
      ensures IsDir(old(workdir), []) ==> IsDir(workdir, [])
      ensures Valid() && state == ResolvingPlugins && trail == old(trail) + [ResolvingPlugins]
      ensures r.Success? ==> ResolvesTo(o, prim, old(Extracted()), SourcedItems(manifest.value), Extracted())
      ensures r.Failure? ==> Resolved(o, prim, old(Extracted()), SourcedItems(manifest.value)).Failure?
    {
      var _ := Transition(ResolvingPlugins);
      r := LayOverAll(SourcedItems(manifest.value));
    }

    /** The two loops of `_resolve_plugins`, up to the first item that raises. */
    method LayOverAll(items: seq<Sourced>) returns (r: Outcome<()>)
      modifies this`workdir
      ensures IsDir(old(workdir), []) ==> IsDir(workdir, [])
      ensures r.Success? ==> ResolvesTo(o, prim, old(Extracted()), items, Extracted())
      ensures r.Failure? ==> Resolved(o, prim, old(Extracted()), items).Failure?
    {
      ghost var start := Extracted();
      for i := 0 to |items|
        invariant ResolvedUpTo(o, prim, start, items, i, Extracted())
        invariant IsDir(old(workdir), []) ==> IsDir(workdir, [])
      {
        ResolvedNext(o, prim, start, items, i, Extracted());
        r := LayOver(items[i]);
        if r.Failure? { return; }
      }
      r := Success(());
    }

    /** `_resolve_sequence`. */
    method ResolveSequence() returns (order: seq<string>)
      requires Valid() && state == ResolvingPlugins && installPlan.Some? && AcceptedGraph(installPlan.value.steps)
      modifies this`state, this`trail
      ensures Valid() && state == ResolvingSequence && trail == old(trail) + [ResolvingSequence]
      ensures IsExecutionOrder(installPlan.value.steps, order)
    {
      var _ := Transition(ResolvingSequence);
      order := ExecutionOrder(installPlan.value);
    }

    /** `_install`: run the steps; if one raises, roll back and say so. */
    method Install(order: seq<string>) returns (r: Outcome<()>)
      requires Valid() && state == ResolvingSequence && installPlan.Some?
      requires forall id :: id in order ==> id in Ids(installPlan.value.steps)
      requires driver.snapshots == []
      modifies this`state, this`trail, driver
      ensures Valid()
      ensures driver.cfg == D.FromExtracted(old(driver.cfg), Extracted())
      ensures InstalledAs(o, driver.cfg, old(driver.tree), InOrder(installPlan.value.steps, order), driver.tree, state)
      ensures r.Success? <==> Ran(o, driver.cfg, old(driver.tree), InOrder(installPlan.value.steps, order)).1
      ensures Raises(r, DeploymentError) ==> state == RolledBack
      ensures !Raises(r, DeploymentError) ==> state == Installing
      ensures Installing in trail
    {
      var _ := Transition(Installing);
      driver.cfg := D.FromExtracted(driver.cfg, Extracted());
      var ok, undone := RunOrUndo(installPlan.value, order);
      if ok {
        return Success(());
      }
      if !undone {
        return Failure(OtherError);
      }
      var _ := Transition(RolledBack);
      r := Failure(DeploymentError);
    }

    /** Run the steps; if one raises, roll back, which may raise as well. */
    method RunOrUndo(plan: InstallPlan, order: seq<string>) returns (ok: bool, undone: bool)
      requires forall id :: id in order ==> id in Ids(plan.steps)
      requires driver.snapshots == []
      modifies driver`tree, driver`snapshots
      ensures ok <==> Ran(o, driver.cfg, old(driver.tree), InOrder(plan.steps, order)).1
      ensures !(ok && undone)
      ensures InstalledAs(o, driver.cfg, old(driver.tree), InOrder(plan.steps, order), driver.tree,
                          if undone then RolledBack else Installing)
    {
      ok := RunPlan(plan, order);
      undone := false;
      if !ok {
        undone := driver.Rollback(None, o.rollbackFault);
      }
    }

    /** The loop over the steps, up to the first one that raises. */
    method RunPlan(plan: InstallPlan, order: seq<string>) returns (ok: bool)
      requires forall id :: id in order ==> id in Ids(plan.steps)
      requires driver.snapshots == []
      modifies driver`tree, driver`snapshots
      ensures (driver.State(), ok) == Ran(o, driver.cfg, old(driver.tree), InOrder(plan.steps, order))
    {
      ghost var steps := InOrder(plan.steps, order);
      ghost var ws := WeatherOf(o, |steps|);
      ghost var start := driver.State();
      assert ws[..0] == [] && steps[..0] == [];
      for i := 0 to |order|
        invariant D.RunSteps(start, driver.cfg, steps[..i], ws[..i]) == (driver.State(), true)
      {
        assert order[i] in order;
        var step := StepById(plan, order[i]);
        assert steps[..i + 1][..i] == steps[..i] && ws[..i + 1][..i] == ws[..i];
        ok := driver.Dispatch(step.value, o.weather(i));
        assert D.RunSteps(start, driver.cfg, steps[..i + 1], ws[..i + 1]) == (driver.State(), ok);
        if !ok {
          RunStopsThere(start, driver.cfg, steps, ws, i + 1);
          return;
        }
      }
      assert steps[..|order|] == steps && ws[..|order|] == ws;
      ok := true;
    }

    /** The verified artifact, with its sourced items laid over it. */
    ghost predicate ObtainedFrom(raw: Tree, extracted: Tree)
      reads this`manifest, this`installPlan
    {
      && manifest.Some? && installPlan.Some?
      && Verified(o, prim, trusted, credentials, version, raw, manifest.value, installPlan.value)
      && ResolvesTo(o, prim, WithRoot(raw), SourcedItems(manifest.value), extracted)
    }

    /** That is what the work directory holds. */
    ghost predicate Holding(raw: Tree)
      reads this`manifest, this`installPlan, this`workdir
    {
      ObtainedFrom(raw, Extracted()) && IsDir(workdir, [])
    }

    /** What the driver was driven with, if it was driven at all: the verified artifact with
        its sourced items laid over it, and the steps of its plan in an execution order. */
    ghost predicate DrivenWith(before: D.Config, raw: Tree, order: seq<string>)
      reads this`manifest, this`installPlan, driver`cfg
    {
      && ObtainedFrom(raw, driver.cfg.extracted)
      && driver.cfg == D.FromExtracted(D.ForManifest(before, manifest.value.plugins, manifest.value.pluginsDirname), driver.cfg.extracted)
      && IsExecutionOrder(installPlan.value.steps, order)
    }

    /** The steps ran to the end or were rolled back, and the report went out or did not. */
    ghost predicate Carried(before: Tree, steps: seq<Step>, ok: bool)
      reads this`state, driver`tree, driver`cfg
    {
      && InstalledAs(o, driver.cfg, before, steps, driver.tree, state)
      && (ok <==> o.notify.Success? && Ran(o, driver.cfg, before, steps).1)
    }

    /** Both together. */
    ghost predicate Drove(cfg: D.Config, before: Tree, raw: Tree, order: seq<string>, ok: bool)
      reads this`manifest, this`installPlan, this`state, this`workdir, driver`tree, driver`cfg
    {
      && DrivenWith(cfg, raw, order) && Carried(before, InOrder(installPlan.value.steps, order), ok)
      && IsDir(workdir, [])
    }

    ghost predicate CanRun() { Deployable(o, prim, trusted, credentials, version) }

    /** From authentication to the verified manifest. */
    method Receive() returns (r: Outcome<()>, ghost raw: Tree)
      requires Valid() && state == Pending
      modifies this`state, this`trail, this`session, this`workdir, this`manifest, this`installPlan, driver`cfg
      ensures Valid() && IsEarly(state) && state != Pending
      ensures r.Failure? ==> !CanRun()
      ensures Forged(o, prim, trusted) ==> Raises(r, DeploymentError)
      ensures r.Success? ==>
        && state == VerifyingManifest && manifest.Some? && installPlan.Some? && IsDir(workdir, [])
        && Genuine(o, prim, trusted, raw) && Extracted() == WithRoot(raw)
        && Attested(prim, WithRoot(raw), manifest.value, installPlan.value)
        && driver.cfg == D.ForManifest(old(driver.cfg), manifest.value.plugins, manifest.value.pluginsDirname)
    {
      raw := map[];
      var fetched := Fetch();
      if fetched.Failure? {
        NotReceived(o, prim, trusted, credentials, version);
        return Failure(fetched.error), raw;
      }
      r := OpenArtifact(fetched.value);
      if r.Success? {
        raw := Unpack(prim, fetched.value).value.tree;
        assert UnpacksTo(prim, fetched.value, raw);
      } else {
        NotReceived(o, prim, trusted, credentials, version);
      }
    }

    /** What was received is for the right project, and its sourced items are laid over it. */
    method Gather(ghost raw: Tree) returns (r: Outcome<()>)
      requires Valid() && state == VerifyingManifest && manifest.Some? && installPlan.Some?
      requires Genuine(o, prim, trusted, raw) && Extracted() == WithRoot(raw)
      requires Attested(prim, WithRoot(raw), manifest.value, installPlan.value) && IsDir(workdir, [])
      modifies this`state, this`trail, this`workdir
      ensures Valid() && IsEarly(state) && state != Pending
      ensures r.Success? <==> CanRun()
      ensures r.Success? ==> state == ResolvingPlugins && Holding(raw)
    {
      r := ValidateProject();
      if r.Success? {
        r := ResolvePlugins();
      }
      if r.Failure? {
        NotUsable(o, prim, trusted, credentials, version, raw, manifest.value, installPlan.value);
      } else {
        assert CanDeploy(o, prim, trusted, credentials, version, raw, manifest.value, installPlan.value);
      }
    }

    /** Everything before the execution order is worked out. */
    method Obtain() returns (r: Outcome<()>, ghost raw: Tree)
      requires Valid() && state == Pending
      modifies this`state, this`trail, this`session, this`workdir, this`manifest, this`installPlan, driver`cfg
      ensures Valid() && IsEarly(state) && state != Pending
      ensures r.Success? <==> CanRun()
      ensures Forged(o, prim, trusted) ==> Raises(r, DeploymentError)
      ensures r.Success? ==> state == ResolvingPlugins && Holding(raw)
      ensures r.Success? ==> driver.cfg == D.ForManifest(old(driver.cfg), manifest.value.plugins, manifest.value.pluginsDirname)
    {
      r, raw := Receive();
      if r.Success? {
        r := Gather(raw);
      }
    }

    /** The body of `run`, inside its `try`. */
    method Stages() returns (r: Outcome<()>, ghost raw: Tree, ghost order: seq<string>)
      requires Valid() && state == Pending && driver.snapshots == []
      modifies this`state, this`trail, this`session, this`workdir, this`manifest, this`installPlan, driver
      ensures Valid() && state != Pending && state != Failed
      ensures r.Success? <==> state == Succeeded
      ensures Raises(r, OtherError) ==> !IsTerminal(state)
      ensures Forged(o, prim, trusted) ==> Raises(r, DeploymentError)
      ensures Installing in trail <==> CanRun()
      ensures r.Success? ==> Installing in trail
      ensures Installing !in trail ==> driver.tree == old(driver.tree) && driver.snapshots == [] && state != RolledBack
      ensures Installing in trail ==> Drove(old(driver.cfg), old(driver.tree), raw, order, r.Success?)
    {
      r, raw := Obtain();
      if r.Success? {
        r, order := Carry(old(driver.cfg), raw);
      } else {
        order := [];
        NotYetInstalling(trail);
      }
    }

    /** From the execution order to the last transition. */
    method Carry(ghost before: D.Config, ghost raw: Tree) returns (r: Outcome<()>, ghost order: seq<string>)
      requires Valid() && state == ResolvingPlugins && driver.snapshots == [] && Holding(raw)
      requires driver.cfg == D.ForManifest(before, manifest.value.plugins, manifest.value.pluginsDirname)
      modifies this`state, this`trail, driver
      ensures Valid() && Installing in trail && state != Pending && state != Failed
      ensures r.Success? <==> state == Succeeded
      ensures Raises(r, OtherError) ==> !IsTerminal(state)
      ensures Drove(before, old(driver.tree), raw, order, r.Success?)
    {
      r, order := Deploy(raw);
      assert DrivenWith(before, raw, order);
      if r.Success? {
        r := Finish();
      }
    }

    /** Work out the execution order and install. */
    method Deploy(ghost raw: Tree) returns (r: Outcome<()>, ghost order: seq<string>)
      requires Valid() && state == ResolvingPlugins && driver.snapshots == [] && Holding(raw)
      modifies this`state, this`trail, driver
      ensures Valid() && Installing in trail
      ensures r.Success? ==> state == Installing
      ensures Raises(r, DeploymentError) ==> state == RolledBack
      ensures Raises(r, OtherError) ==> state == Installing
      ensures driver.cfg == D.FromExtracted(old(driver.cfg), Extracted())
      ensures IsExecutionOrder(installPlan.value.steps, order)
      ensures InstalledAs(o, driver.cfg, old(driver.tree), InOrder(installPlan.value.steps, order), driver.tree, state)
      ensures r.Success? <==> Ran(o, driver.cfg, old(driver.tree), InOrder(installPlan.value.steps, order)).1
    {
      var sequence := ResolveSequence();
      order := sequence;
      r := Install(sequence);
    }

    /** `_healthcheck`, `_notify` and the last transition. */
    method Finish() returns (r: Outcome<()>)
      requires Valid() && state == Installing
      modifies this`state, this`trail
      ensures Valid() && Installing in trail
      ensures r.Success? <==> state == Succeeded
      ensures r.Success? <==> o.notify.Success?
      ensures r.Failure? ==> state == Notifying
    {
      assert trail[|trail| - 1] == Installing;
      var _ := Transition(Healthchecking);
      var _ := Transition(Notifying);
      if o.notify.Failure? {
        return Failure(o.notify.error);
      }
      var _ := Transition(Succeeded);
      r := Success(());
    }

    /** The first lines of the exception handler of `run`. */
    method GiveUp(r: Outcome<()>)
      requires Valid() && state != Pending
      modifies this`state, this`trail
      ensures Valid() && (Installing in trail <==> Installing in old(trail))
      ensures state == if Raises(r, DeploymentError) && !IsTerminal(old(state)) then Failed else old(state)
    {
      if Raises(r, DeploymentError) && !IsTerminal(state) {
        FailedIsAllowed(state);
        var _ := Transition(Failed);
      }
    }

    /** `run`: a normal return ends in `Succeeded`; a `DeploymentError` ends in `Failed`, or in
        `RolledBack` exactly when a step raised and the rollback ran to its end; any other
        exception leaves a middle state. The driver is driven only with a verified artifact. */
    method Run() returns (r: Outcome<()>, ghost raw: Tree, ghost order: seq<string>)
      requires Valid() && state == Pending && driver.snapshots == []
      modifies this`state, this`trail, this`session, this`workdir, this`manifest, this`installPlan, driver
      ensures Valid()
      ensures r.Success? <==> state == Succeeded
      ensures Raises(r, DeploymentError) <==> state == Failed || state == RolledBack
      ensures Raises(r, OtherError) <==> !IsTerminal(state)
      ensures Installing in trail <==> CanRun()
      ensures r.Success? ==> Installing in trail
      ensures Installing in trail ==> IsDir(workdir, [])
      ensures Installing !in trail ==> driver.tree == old(driver.tree) && driver.snapshots == [] && state != RolledBack
      ensures Installing in trail ==> DrivenWith(old(driver.cfg), raw, order)
      ensures Installing in trail ==> Carried(old(driver.tree), InOrder(installPlan.value.steps, order), r.Success?)
      ensures Installing in trail ==>
        && o.requestArtifact.Success? && o.requestArtifact.value.signerPublicKey == trusted
        && o.download.Success? && prim.verify(trusted, o.requestArtifact.value.signature, o.download.value)
      ensures
        o.authenticate.Success? && o.requestArtifact.Success? && o.download.Success? &&
        (o.requestArtifact.value.signerPublicKey != trusted ||
         !prim.verify(trusted, o.requestArtifact.value.signature, o.download.value)) ==>
          state == Failed
      ensures Installing in trail ==>
        && manifest.value.projectId == credentials.projectId && installPlan.value.projectId == credentials.projectId
        && manifest.value.version == version
        && driver.cfg.pluginsDirname == manifest.value.pluginsDirname && driver.cfg.plugins == Some(manifest.value.plugins)
        && driver.cfg.sign == old(driver.cfg.sign) && driver.cfg.osEnvironment == old(driver.cfg.osEnvironment)
    {
      ForgedCannotRun(o, prim, trusted, credentials, version);
      r, raw, order := Stages();
      GiveUp(r);
      // The failure report to the hub that follows swallows its own exceptions.
    }
  }

  lemma FailedIsAllowed(s: State)
    requires !IsTerminal(s) && s != Pending
    ensures Failed in Transitions(s)
  {
  }

  /** Once a step has raised, the rest of the steps make no difference. */
  lemma {:induction false} RunStopsThere(start: D.Host, cfg: D.Config, steps: seq<Step>, ws: seq<D.Weather>, n: nat)
    requires |steps| == |ws| && n <= |steps| && !D.RunSteps(start, cfg, steps[..n], ws[..n]).1
    ensures D.RunSteps(start, cfg, steps, ws) == D.RunSteps(start, cfg, steps[..n], ws[..n])
    decreases |steps|
  {
    if n == |steps| {
      assert steps[..n] == steps && ws[..n] == ws;
    } else {
      var k := |steps| - 1;
      assert steps[..k][..n] == steps[..n] && ws[..k][..n] == ws[..n];
      RunStopsThere(start, cfg, steps[..k], ws[..k], n);
    }
  }
}
