/** From the packer to the agent: what was built is what gets accepted. */
module RoundTrip {
  import opened Wrappers
  import opened FileTree
  import opened TreeDigest
  import opened InstallSchema
  import opened Manifest
  import opened Packer
  import opened Pipeline

  /** The build-side counterparts of the agent's primitives. */
  datatype Sealing = Sealing(
    tar: Tree -> Bytes,
    compress: Bytes -> Bytes,
    encrypt: (Bytes, Bytes, Bytes) -> Bytes,
    dump: ProjectManifest -> Bytes)

  /** On this tree, each primitive of the agent undoes its counterpart. */
  ghost predicate Inverse(prim: Primitives, s: Sealing, key: Bytes, nonce: Bytes, tree: Tree) {
    && |key| == KEY_LENGTH && |nonce| == NONCE_LENGTH
    && prim.untar(s.tar(tree)) == Members(tree)
    && prim.decompress(s.compress(s.tar(tree))) == Some(s.tar(tree))
    && prim.decrypt(key, nonce, s.encrypt(key, nonce, s.compress(s.tar(tree)))) == Some(s.compress(s.tar(tree)))
  }

  /** `seal_directory`, without the signature: the nonce goes in front of the ciphertext. */
  function Seal(s: Sealing, key: Bytes, nonce: Bytes, tree: Tree): Bytes {
    nonce + s.encrypt(key, nonce, s.compress(s.tar(tree)))
  }

  /** What was sealed is what is unpacked. */
  lemma SealedOpens(prim: Primitives, s: Sealing, key: Bytes, nonce: Bytes, tree: Tree)
    requires Inverse(prim, s, key, nonce, tree)
    ensures
      var compressed := Decrypt(prim, Seal(s, key, nonce, tree), key);
      compressed.Some? && UnpacksTo(prim, compressed.value, tree)
  {
    var sealed := Seal(s, key, nonce, tree);
    assert Take(sealed, NONCE_LENGTH) == nonce;
    assert Drop(sealed, NONCE_LENGTH) == s.encrypt(key, nonce, s.compress(s.tar(tree)));
  }

  lemma PlanNameNotExcluded(name: string)
    requires name == "deployment" || name == "install.yaml" || name == "manifest.json"
    ensures !NameMatches(name, PACKAGING_EXCLUDE_PATTERNS)
  {
    forall k | 0 <= k < |PACKAGING_EXCLUDE_PATTERNS| ensures !Glob(name, PACKAGING_EXCLUDE_PATTERNS[k]) {
      var pattern := PACKAGING_EXCLUDE_PATTERNS[k];
      if name == "deployment" {
        assert pattern[0] == '*' || pattern[0] != 'd';
        if pattern[0] == '*' {
          assert pattern[|pattern| - 1] != '*' && pattern[|pattern| - 1] != 't';
          LastCharacterDiffers(name, pattern);
        }
      } else {
        assert pattern[|pattern| - 1] != '*' && pattern[|pattern| - 1] != 'l' && pattern[|pattern| - 1] != 'n';
        LastCharacterDiffers(name, pattern);
      }
    }
  }

  /** Paths of at most two segments are never touched by pruning. */
  lemma ShallowOutlives(tree: Tree, m: ProjectManifest, p: Path)
    requires ValidPluginsDirname(m.pluginsDirname) && |p| <= 2
    ensures OutlivesAll(p, SealedPrunings(m, tree))
  {
    var view, before := CopyIgnoring(tree), PluginPrunings(m.plugins, m.pluginsDirname);
    ViewKeepsBefore(view, before, m.extensions);
    forall i | 0 <= i < |SealedPrunings(m, tree)| ensures !Inside(p, SealedPrunings(m, tree)[i].dir) {
      if i < |before| {
        PluginPruningsAre(m.plugins, m.pluginsDirname, i);
        assert SealedPrunings(m, tree)[i] == before[i];
      } else {
        ViewPruningsAre(view, before, m.extensions, i);
      }
    }
  }

  /** The manifest and the plan are sealed as they are. */
  lemma ManifestAndPlanSealed(tree: Tree, m: ProjectManifest, data: Bytes)
    requires ValidPluginsDirname(m.pluginsDirname) && IsFile(tree, INSTALL_PLAN)
    ensures
      var sealed := SealedTree(WithManifest(tree, data), m);
      && IsFile(sealed, [MANIFEST_FILENAME]) && sealed[[MANIFEST_FILENAME]].data == data
      && IsFile(sealed, INSTALL_PLAN) && sealed[INSTALL_PLAN] == tree[INSTALL_PLAN]
  {
    var full := WithManifest(tree, data);
    PlanNameNotExcluded("deployment");
    PlanNameNotExcluded("install.yaml");
    PlanNameNotExcluded("manifest.json");
    ShallowOutlives(full, m, [MANIFEST_FILENAME]);
    ShallowOutlives(full, m, INSTALL_PLAN);
    assert !Skipped([MANIFEST_FILENAME], PACKAGING_EXCLUDE_PATTERNS);
    assert !Skipped(INSTALL_PLAN, PACKAGING_EXCLUDE_PATTERNS);
  }

  lemma RootIsNotHashed(tree: Tree)
    requires !IsFile(tree, [])
    ensures AgentFiles(WithRoot(tree)) == AgentFiles(tree)
  {
    var a, b := AgentFiles(WithRoot(tree)), AgentFiles(tree);
    assert forall p :: p in a <==> p in b;
  }

  /** The two preimages in question do not happen to have the same hash. */
  ghost predicate NoCollision(sha: Hash, tree: Tree, m: ProjectManifest, data: Bytes) {
    var hashed := Preimage(HashedFiles(tree, SourcePrunings(m, tree)), sha);
    var sealed := Preimage(AgentFiles(SealedTree(WithManifest(tree, data), m)), sha);
    sha(hashed) == sha(sealed) ==> hashed == sealed
  }

  /** The packer's artifact passes the agent's verification if no surviving directory of a
      source-based item holds a file; otherwise, short of a hash collision, it cannot. */
  lemma BuiltArtifactVerifies(prim: Primitives, tree: Tree, m: ProjectManifest, data: Bytes, plan: InstallPlan)
    requires Sealable(tree, m) && !IsFile(tree, []) && IsFile(tree, INSTALL_PLAN)
    requires m.contentSha256 == prim.sha(Preimage(HashedFiles(tree, SourcePrunings(m, tree)), prim.sha))
    requires prim.parseManifest(data) == Some(m)
    requires prim.parsePlan(tree[INSTALL_PLAN].data) == Some(plan) && AcceptedGraph(plan.steps)
    ensures
      var sealed := WithRoot(SealedTree(WithManifest(tree, data), m));
      && (!SurvivingDirectoryHoldsFile(tree, SourcePrunings(m, tree)) ==> Attested(prim, sealed, m, plan))
      && (SurvivingDirectoryHoldsFile(tree, SourcePrunings(m, tree)) ==>
            IsHexDigest(prim.sha) && PlainNames(FilesOf(tree)) && NoCollision(prim.sha, tree, m, data) ==>
            forall m', plan' :: !Attested(prim, sealed, m', plan'))
  {
    var sealed := SealedTree(WithManifest(tree, data), m);
    ManifestAndPlanSealed(tree, m, data);
    RootIsNotHashed(sealed);
    SealAgreesExactly(tree, m, data, prim.sha);
    assert ManifestOf(prim, WithRoot(sealed), m);
    assert PlanOf(prim, WithRoot(sealed), plan);
  }

  // ---------------------------------------------------------------- from the source to the host

  /** What the packer has written for `tree`: its manifest `m`, and the encrypted artifact. */
  ghost predicate BuiltFrom(sha: Hash, s: Sealing, key: Bytes, nonce: Bytes, tree: Tree, m: ProjectManifest, ciphertext: Bytes) {
    && Sealable(tree, m) && m.contentSha256 == sha(Preimage(HashedFiles(tree, SourcePrunings(m, tree)), sha))
    && ciphertext == Seal(s, key, nonce, SealedTree(WithManifest(tree, s.dump(m)), m))
  }

  /** `build_artifact` with `seal_directory`, apart from the signature. */
  method BuildSealed(source: Directory, projectId: string, version: string, pluginsDirname: Path, steps: seq<Step>,
                     declared: Declared, sha: Hash, s: Sealing, key: Bytes, nonce: Bytes)
    returns (r: Option<(ProjectManifest, Bytes)>)
    requires ProperNames(source.tree)
    modifies source
    ensures r.Some? ==>
      var (m, ciphertext) := r.value;
      && BuiltFrom(sha, s, key, nonce, old(source.tree), m, ciphertext)
      && m.projectId == projectId && m.version == version
  {
    var built := BuildArtifact(source, projectId, version, pluginsDirname, steps, declared, sha, s.dump);
    if built.None? {
      return None;
    }
    var (m, sealed) := built.value;
    r := Some((m, Seal(s, key, nonce, sealed)));
  }

  /** The hub answers every call, with this artifact, signed by this key; and the disk takes it. */
  ghost predicate Answers(o: Outside, prim: Primitives, trusted: Bytes, ciphertext: Bytes, key: Bytes) {
    && o.authenticate.Success? && o.requestArtifact.Success? && o.unpacking.Success?
    && o.download == Success(ciphertext) && o.obtainKey == Success(key)
    && Authentic(trusted, prim, o.requestArtifact.value, ciphertext)
  }

  /** What the manifest refers to can all be resolved and laid over the artifact. */
  ghost predicate CanBeResolved(o: Outside, prim: Primitives, s: Sealing, tree: Tree, m: ProjectManifest) {
    Resolved(o, prim, WithRoot(SealedTree(WithManifest(tree, s.dump(m)), m)), SourcedItems(m)).Success?
  }

  lemma DeliversWhatWasBuilt(o: Outside, prim: Primitives, s: Sealing, key: Bytes, nonce: Bytes, trusted: Bytes,
                             tree: Tree, m: ProjectManifest, ciphertext: Bytes)
    requires BuiltFrom(prim.sha, s, key, nonce, tree, m, ciphertext) && Answers(o, prim, trusted, ciphertext, key)
    requires Inverse(prim, s, key, nonce, SealedTree(WithManifest(tree, s.dump(m)), m))
    ensures forall raw :: Genuine(o, prim, trusted, raw) <==> raw == SealedTree(WithManifest(tree, s.dump(m)), m)
  {
    SealedOpens(prim, s, key, nonce, SealedTree(WithManifest(tree, s.dump(m)), m));
  }

  /** An artifact the packer has built, once a hub delivers it, can be deployed if no
      surviving directory of a source-based item holds a file, it was built for the requested
      project and version, and its sources resolve. Short of a hash collision it cannot be
      deployed otherwise. */
  lemma BuiltDeploysExactly(o: Outside, prim: Primitives, s: Sealing, key: Bytes, nonce: Bytes, trusted: Bytes,
                            credentials: Credentials, version: string, tree: Tree, m: ProjectManifest,
                            ciphertext: Bytes, plan: InstallPlan)
    requires BuiltFrom(prim.sha, s, key, nonce, tree, m, ciphertext) && Answers(o, prim, trusted, ciphertext, key)
    requires Inverse(prim, s, key, nonce, SealedTree(WithManifest(tree, s.dump(m)), m))
    requires !IsFile(tree, []) && IsFile(tree, INSTALL_PLAN) && prim.parseManifest(s.dump(m)) == Some(m)
    requires prim.parsePlan(tree[INSTALL_PLAN].data) == Some(plan) && AcceptedGraph(plan.steps)
    ensures
      var deployable := Deployable(o, prim, trusted, credentials, version);
      var proper :=
        && !SurvivingDirectoryHoldsFile(tree, SourcePrunings(m, tree))
        && Requested(credentials, version, m, plan) && CanBeResolved(o, prim, s, tree, m);
      && (proper ==> deployable)
      && (IsHexDigest(prim.sha) && PlainNames(FilesOf(tree)) && NoCollision(prim.sha, tree, m, s.dump(m)) ==>
            (deployable ==> proper))
  {
    var sealed := SealedTree(WithManifest(tree, s.dump(m)), m);
    BuiltArtifactVerifies(prim, tree, m, s.dump(m), plan);
    DeliversWhatWasBuilt(o, prim, s, key, nonce, trusted, tree, m, ciphertext);
    assert Genuine(o, prim, trusted, sealed);
    if !SurvivingDirectoryHoldsFile(tree, SourcePrunings(m, tree)) {
      AttestedDeploysExactly(o, prim, trusted, credentials, version, sealed, m, plan);
    } else {
      forall raw, m', plan' | CanDeploy(o, prim, trusted, credentials, version, raw, m', plan') ensures raw == sealed {
        assert Genuine(o, prim, trusted, raw);
      }
    }
  }

  lemma AttestedDeploysExactly(o: Outside, prim: Primitives, trusted: Bytes, credentials: Credentials, version: string,
                               raw: Tree, m: ProjectManifest, plan: InstallPlan)
    requires Genuine(o, prim, trusted, raw) && Attested(prim, WithRoot(raw), m, plan)
    ensures Deployable(o, prim, trusted, credentials, version) <==>
              Requested(credentials, version, m, plan) && Resolved(o, prim, WithRoot(raw), SourcedItems(m)).Success?
  {
    if Requested(credentials, version, m, plan) && Resolved(o, prim, WithRoot(raw), SourcedItems(m)).Success? {
      assert CanDeploy(o, prim, trusted, credentials, version, raw, m, plan);
    } else {
      NotUsable(o, prim, trusted, credentials, version, raw, m, plan);
    }
  }
}
