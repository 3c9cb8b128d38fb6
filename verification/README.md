# xcore-agent: a verified model of the deploy agent's core

xcore-agent turns a project directory into a signed, encrypted artifact, and on the target
host fetches, verifies and installs it. This project models that core in Dafny and proves
what it promises: how a plan is ordered, that the packer and the agent hash the same files,
that a failed installation is undone, that nothing is installed which was not verified, and
that the caches and polling loops around it agree with something simpler.

`dafny verify dfyconfig.toml` checks everything.

## How the model is built

A directory tree is a finite map from paths (sequences of names) to directories and files
(`FileTree`). Objects whose methods update their fields are classes (`DepthFirstSearch`,
`Packer.Directory`, `InstallDriver.Driver`, `Pipeline.DeploymentRunner`,
`PluginFetcher.Resolver`, `WatchSources.Project`, `SnapshotGc.GarbageCollector`,
`HubWatcher.Watcher`, `PluginSigning.InstalledPlugin`); their methods change the fields in
place and are proved against functions on values, about which the theorems are stated.

Errors are part of the model. A step of an installation takes a `Weather` that says where
inside it an error strikes and what it leaves behind; a call of the resolver takes a `Fault`;
a poll takes the `Answers` of the marketplace, any of which may be an exception, and a
`Trouble` that cuts a copy short. The theorems hold for every such choice.

Hash, HMAC, signature check, decryption, decompression, unpacking and the parsers are
functions passed in (`Pipeline.Primitives`, `PluginResolver.World`,
`PluginSigning.Primitives`). `RoundTrip` takes the build side as their inverses.

| module | what it holds |
|---|---|
| DependencyOrder, InstallSchema, Scaffold, ScaffoldedPlan | ordering a plan, accepting it, generating one, and what is generated |
| FileTree, Ordering, Text, Overlays | trees, sorting, joined text, laying trees over one another |
| TreeDigest, Manifest, Packer, PackedContents, RoundTrip | the content hash, the packer, what it packs file by file, and the packer against the agent |
| EnvFile, EnvText, SnapshotNames, InstallDriver, InstallUndo, InstallResult | installing with snapshots, undoing it, and what is left when it completes |
| DeploymentStates, Pipeline, RunPromises, HubWatcher | one deployment run, what it has checked when it installs, and the loop that starts runs |
| PluginResolver, PluginFetcher, CacheContents | the cache of resolved sources, as a function and in place, and what is in it |
| WatchSources, WatchTicks | the multi-source poller, and what a tick amounts to |
| SnapshotGroups, SnapshotGc, SnapshotRetention | snapshot names, what is collected, and what that means for each item |
| PluginSigning, SigningInput, SignedInstall | the signature beside an installed plugin, what it determines, and what an installation leaves |

## Hypotheses

- Undoing (`InstallUndo`): the plugins directory is one the manifest accepts and does not
  start with `extensions` (`SeparateLayout`), and no plugin id in the plan ends in `.env`
  (`ProperItem`), because ids may hold dots and the env file of `a` is the directory of
  `a.env`. An item is restored if the first step that touches it takes a snapshot. The host's
  tree is one a disk can hold: below an item that does not exist there is nothing (`Rooted`),
  and above one that does there are only directories (`Supported`).
- Packing (`PackedContents`): that a source-based item's manifest is packed needs a plugins
  directory that does not start with `extensions` (`PluginsElsewhere`);
  `SharedDirectoryLosesPluginManifest` is the counterexample.
- Sealing (`Packer`): the equivalence needs no hypothesis about the tree; it says that the two
  digests differ exactly when a surviving directory of a source-based item holds a file.
- Resolver cache: sources always answer the same, and two requests that share a cache
  directory have the same origin (`KeysInjective`). A source does not ship a file that passes
  for the marker, unless an archive ships nothing else (`Crashproof`): a resolve of one that
  does, interrupted while its files are written, can leave a rest that the next resolve takes
  for the whole (`ShippedMarkerDeceives`), and `CrashproofExactly` says that these are all the
  sources for which it can. A requested subdirectory is any text, so it can lead out of the
  entry: that what is returned is the entry's own holds for the requests that end in it
  (`Own`, exact by `OwnExactly`), and that success does not depend on what else is in the
  cache for those that stay in it (`Contained`). `ParentShowsHistory` is the counterexample
  `..`. What a path outside the cache leads to is taken from outside (`Beyond`). For git, the
  repository's own directory does not count as content, since deleting it may fail silently.
  The keys are not injective in general:
  `CacheDirsCollide` says exactly when they collide and `SharedDirectoryServesFirst` what then
  happens. A request for the version `latest` is a request for a mutable source and falls
  outside the first hypothesis.
- Poller: step ids are distinct, which every accepted plan guarantees. Statements about single
  directories also need targets that do not lie inside one another.
- Retention of an item holds if no other item, of either kind, has an id that ends the same
  after its last hyphen (`Unshared`); `SnapshotRetention.RetentionIsPerItemExactly` says that
  this is also needed.
- Retention is relative to modification times. A snapshot is a copy that keeps the source
  directory's time, so "newest" means newest by that time.

## Where the code and its documentation differ

- `_prune_to_manifest_only` and `_non_manifest_relpaths` are said never to disagree about what
  gets sealed. They do for a top-level directory whose name survives pruning
  (`Packer.DisagreementExample`, a tree the packer accepts and builds);
  `Packer.SealAgreesExactly` gives the exact condition.
- `check_once` is said never to let one source's failure abort the others. A step with a git
  source fails an assertion outside the guarded calls: the whole tick raises and nothing is
  recorded (`WatchTicks.GitSourceSpoilsTick`), and so it is when a tree cannot be copied
  (`WatchTicks.RaisesExactly`).
- Snapshots are said to be kept per plugin. They are kept per text after the id's last hyphen,
  and the kind plays no part (`SnapshotGroups.ParsedKey`). An item whose id ends like another's,
  or a plugin and an extension with one id, can lose their only snapshot
  (`SnapshotRetention.SharedGroupLosesOnlySnapshot`).
- `SECURITY_IGNORE` holds `*.md` and `*.json`, which are compared literally
  (`PluginSigning.PatternsAreLiteral`).
- The marker is said to tell a complete cache entry from an interrupted one. A marker that
  the source itself ships does not (`PluginResolver.CrashproofExactly`).
- Cache entries are described as keyed on plugin and version; the key also merges `/` with `_`
  and can merge a git ref with a marketplace version (`PluginResolver.CacheDirsCollide`).

## Model

| member | source | states |
|---|---|---|
| DependencyOrder.DepthFirstSearch.Visit | xcore_agent/schema/install.py:210-221 | one visit keeps the search invariant: it either closes a node after everything it reaches, or reports an edge-by-edge walk that runs into itself; it ends because the unvisited nodes, then the remaining dependencies, run out |
| DependencyOrder.TopologicalOrder | xcore_agent/schema/install.py:206-225 | raises if and only if a cycle is reachable from the ids; the reported walk repeats nothing before its last node, which it holds already; otherwise everything reachable comes out once, dependencies first, and the ids come back unchanged if and only if they were in order already |
| DependencyOrder.LassoIsCycle | xcore_agent/schema/install.py:214-216 | from the first occurrence of its last node on, the reported walk is a simple cycle of the graph, and that node is reachable from where the walk starts |
| DependencyOrder.TopologicalHasNoCycle | xcore_agent/schema/install.py:206-225 | an order that lists dependencies first rules out every reachable cycle |
| InstallSchema.DependenciesAt | xcore_agent/schema/install.py:255 | with distinct ids the dependency dictionary gives each step exactly its own list |
| InstallSchema.CheckDistinctIds | xcore_agent/schema/install.py:240-244 | passes exactly for distinct ids; the error names the first repeated one |
| InstallSchema.CheckDependencies | xcore_agent/schema/install.py:246-251 | passes exactly if every dependency exists and none is the step itself; the error names a real defect |
| InstallSchema.ValidateGraph | xcore_agent/schema/install.py:238-256 | accepts exactly the plans with distinct ids, known dependencies and no cycle; the error names a real defect |
| InstallSchema.ExecutionOrder | xcore_agent/schema/install.py:258-262 | never raises on an accepted plan; returns a permutation of the step ids with dependencies first, equal to the written order exactly when that already respects them |
| InstallSchema.WrittenOrderIsTopological | xcore_agent/schema/install.py:258-262 | the written order respects `depends_on` exactly when it is topological for the plan's graph |
| InstallSchema.StepById | xcore_agent/schema/install.py:264-268 | finds the first step with the id, or nothing |
| Scaffold.ScaffoldInstallPlan | xcore_agent/scaffold.py:45-111 | succeeds exactly if there is a plugin and the generated steps load; returns those steps |
| Scaffold.Validate | xcore_agent/schema/install.py:228-256 | a plan loads exactly if every field is well-formed and the graph is accepted |
| Scaffold.ScaffoldsExactly | xcore_agent/scaffold.py:50-111 | scaffolding succeeds if and only if there is a plugin, ids have no dots and fit (56, 54 with an env file, 52 for extensions), ids are distinct within each kind, no plugin is `ext_` plus an extension id, and env paths and healthcheck settings are valid |
| Scaffold.AllIdsDistinct | xcore_agent/scaffold.py:79-89 | generated step ids are distinct exactly if plugin ids are, extension ids are, and none collides across the kinds |
| Scaffold.AllFields | xcore_agent/schema/install.py:17-18 | every generated field passes the schema exactly under the length, character, path and healthcheck conditions |
| Scaffold.ScaffoldedOrder | xcore_agent/scaffold.py:53-102 | a scaffolded plan is executed in the order in which it is written |
| ScaffoldedPlan.StepsAre | xcore_agent/scaffold.py:50-111 | the steps of a scaffolded plan: prepare, an install step for every plugin and extension, an env step after each plugin with a template, a start after all of these and, if wanted, a healthcheck after it; and no other |
| ScaffoldedPlan.DurationMeans | xcore_agent/schema/install.py:19-27 | `30s` is that many seconds and `5m` sixty times as many, for every number and with space around |
| ScaffoldedPlan.OnlyDurations | xcore_agent/schema/install.py:19-27 | nothing but digits and one of the two units is a duration |
| ScaffoldedPlan.RelativePathMeans | xcore_agent/schema/install.py:143-148 | a template path is refused exactly if it starts with `/` or `~` or holds `..` between slashes |
| ScaffoldedPlan.IdRules | xcore_agent/schema/install.py:17-18 | the lengths and characters of step, plugin and extension ids |
| ScaffoldedPlan.DirnameRule | xcore_agent/schema/manifest.py:21 | the characters of the plugins directory |
| TreeDigest.ComputeTreeDigest | xcore_agent/crypto.py:80-115 | the digest is the hash of a preimage that depends on the filtered files only, not on the order of enumeration; filtering late equals filtering first |
| TreeDigest.PreimageDecodes | xcore_agent/crypto.py:104-115 | for plain names, two file sets have the same preimage if and only if they have the same map from paths to content hashes |
| TreeDigest.EntryDecodes | xcore_agent/crypto.py:114 | an entry is decoded at its last colon, whatever the name holds |
| TreeDigest.PreimageOfTwo | xcore_agent/crypto.py:104-115 | two files are hashed as two lines, path, colon, content hash, in path order |
| Packer.PruneToManifestOnly | xcore_agent/packer/builder.py:645-656 | deletes in place exactly what lies below a top-level name that does not survive |
| Packer.DescribePlugins | xcore_agent/packer/builder.py:233-268 | one entry per plugin directory in sorted order, hashed if and only if it has no source; collects exactly the files pruning would delete |
| Packer.DescribeExtensions | xcore_agent/packer/builder.py:270-309 | the same for extensions, each pruned by the manifest name found in its own directory |
| Packer.WriteManifest | xcore_agent/packer/builder.py:190-324 | succeeds exactly if the plugins directory has an acceptable name, there is no manifest yet, there are plugins, and every plugin and extension is acceptable; otherwise it writes nothing; the content hash is that of the source minus manifest, excluded names and files to be pruned |
| Packer.ListedMeans | xcore_agent/packer/builder.py:659-680 | the textual exclude set holds exactly the files that pruning would delete |
| Packer.PreparePackagingView | xcore_agent/packer/builder.py:598-627 | copying with the ignore patterns and pruning in place gives the sealed tree; it fails exactly when a directory to prune was not copied |
| Packer.LookupsAgree | xcore_agent/packer/builder.py:567-577 | an extension's manifest is looked up in the source when hashing and in the partly pruned view when sealing: both find the same name, or the directory was already reduced as a plugin |
| Packer.SameFilesExactly | xcore_agent/packer/builder.py:598-680 | the packer and the agent hash the same files if and only if no top-level directory with a surviving name in a source-based item holds a file |
| Packer.SealAgreesExactly | xcore_agent/packer/builder.py:226-310 | the packer's digest preimage of the unpruned source equals the agent's preimage of what was sealed, if and only if that holds |
| Packer.DisagreementExample | xcore_agent/packer/builder.py:630-680 | a source-based plugin with a directory called `x.template`: the packer accepts the tree, all it has to prune is copied, and the digest in the manifest it writes is of another preimage than the agent hashes |
| Packer.BuildArtifact | xcore_agent/packer/builder.py:159-178 | writes the manifest, then prepares the view; the result is sealable, holds that manifest, and hashes to what it declares unless a surviving directory holds a file; on an acceptable tree it fails only if a directory to prune is excluded from the copy |
| PackedContents.NameMatchesExactly | xcore_agent/packer/builder.py:64-83 | a name is excluded from packing exactly if it is one of eleven names or ends in one of seven suffixes |
| PackedContents.SealedFilesExactly | xcore_agent/packer/builder.py:598-656 | a source file is packed, unchanged, exactly if none of its names is excluded and, in a source-based item, the entry it belongs to is the item's own manifest or ends in `.template` |
| PackedContents.HashedFilesExactly | xcore_agent/packer/builder.py:659-680 | it counts for the content hash exactly if it is packed and lies directly in the item |
| PackedContents.PluginIsReduced | xcore_agent/packer/builder.py:630-656 | of a source-based plugin, `plugin.yaml` and the templates are packed unchanged and hashed, and nothing else is packed |
| PackedContents.ExtensionIsReduced | xcore_agent/packer/builder.py:608-656 | of a source-based extension, the first of `service.yaml` and `extension.yaml` and the templates are packed unchanged and hashed, and nothing else is packed |
| PackedContents.SharedDirectoryLosesPluginManifest | xcore_agent/packer/builder.py:608-656 | with the plugins under `extensions`, an extension of the same name that is source-based costs the plugin its `plugin.yaml` |
| PackedContents.PluginEntry | xcore_agent/packer/builder.py:233-268 | a plugin's source is the one of the last install step that gives one, else its manifest's, else the registry's; it has a hash, of all its files, exactly if it has no source |
| PackedContents.ExtensionEntry | xcore_agent/packer/builder.py:270-303 | the same for an extension, whose own manifest counts only if it has one |
| PackedContents.EntriesAreDirectories | xcore_agent/packer/builder.py:233-303 | the manifest has an entry for exactly the directories among the plugins and the extensions |
| PackedContents.WritableMeans | xcore_agent/packer/builder.py:216-263 | what a tree has if a manifest can be written for it |
| RoundTrip.SealedOpens | xcore_agent/packer/builder.py:327-354 | decrypting, decompressing and unpacking what was sealed gives the sealed tree |
| RoundTrip.ManifestAndPlanSealed | xcore_agent/packer/builder.py:598-627 | the manifest and the plan reach the agent unchanged, whatever is pruned or excluded |
| RoundTrip.BuiltArtifactVerifies | xcore_agent/agent/pipeline.py:238-263 | an artifact the packer builds passes the agent's verification, unless a surviving directory holds a file; then no manifest and plan are accepted, short of a hash collision |
| RoundTrip.BuildSealed | xcore_agent/packer/builder.py:159-188 | building and sealing a source gives a manifest with the digest of what is to be hashed, and the ciphertext of the packaging view that holds it |
| RoundTrip.BuiltDeploysExactly | xcore_agent/agent/pipeline.py:112-129 | what the packer built, delivered by a hub that answers, can be deployed if no surviving directory holds a file, it is for the requested project and version, and its sources resolve; and, short of a hash collision, only then |
| EnvFile.ParseEnvFile | xcore_agent/agent/install_driver.py:316-324 | the loop gives the last value set for each key |
| EnvFile.SeedEnvFromOsEnviron | xcore_agent/agent/install_driver.py:327-350 | the loop replaces values line by line and keeps a final line feed |
| EnvFile.SeedLineParses | xcore_agent/agent/install_driver.py:336-346 | a seeded line sets the same key, to the stripped value from the process if there is one |
| EnvFile.SeedingCommutesWithParsing | xcore_agent/agent/install_driver.py:316-350 | parsing the seeded text gives exactly the template's keys, each with the stripped process value if present and the template's value otherwise |
| EnvText.AssignmentLine | xcore_agent/agent/install_driver.py:316-324 | `KEY = value` with any space around the two sets the key to the value, up to further equals signs |
| EnvText.OtherLines | xcore_agent/agent/install_driver.py:318-321 | blank lines, comments and lines without an equals sign set nothing |
| EnvText.ParsedFile | xcore_agent/agent/install_driver.py:316-324 | a key has exactly the value of the last line that sets it |
| EnvText.SeededText | xcore_agent/agent/install_driver.py:327-350 | the seeded text is the template line by line, only values of keys that the process has replaced, and keeps a final line feed |
| InstallDriver.Driver.SnapshotBefore | xcore_agent/agent/install_driver.py:162-178 | the snapshot and its record, for every outcome of the copy |
| InstallDriver.Driver.Rollback | xcore_agent/agent/install_driver.py:180-196 | the loop undoes the records from the last one back, stopping at the given step, up to the first that raises |
| InstallDriver.Driver.InstallPlugin | xcore_agent/agent/install_driver.py:222-239 | check, snapshot, delete, copy, sign under the directory's name: the host after an error at any of them |
| InstallDriver.Driver.InstallExtension | xcore_agent/agent/install_driver.py:241-251 | the same without a signature |
| InstallDriver.Driver.WriteEnv | xcore_agent/agent/install_driver.py:259-278 | an existing env file is left alone; a new one is the seeded template |
| InstallDriver.Driver.CheckRequiredEnv | xcore_agent/agent/install_driver.py:280-296 | passes exactly if nothing is required of the plugin or every required key is set and not empty |
| InstallDriver.Driver.Dispatch | xcore_agent/agent/pipeline.py:389-416 | each action goes to its operation; creating the project directory, provisioning and the service calls may raise; the rest do nothing here |
| InstallUndo.RunStepsEffect | xcore_agent/agent/pipeline.py:374-382 | after any steps failing anywhere, records have only been added, earlier snapshots are intact, and undoing the new records would give every item whose first touching step takes a snapshot its content from before the run |
| InstallUndo.RollbackRestores | xcore_agent/agent/install_driver.py:180-196 | a completed rollback leaves at each item what its oldest undone record saved, or nothing if it recorded absence, or what was there if it has no record |
| InstallUndo.FailedInstallIsUndone | xcore_agent/agent/pipeline.py:374-387 | for every failure point of every step: after the rollback, each item whose first touching step had snapshots has exactly its content or absence from before the run |
| InstallUndo.RollbackToStep | xcore_agent/agent/install_driver.py:180-185 | rolling back to a step that has a record leaves each item whose later steps all had snapshots as it was right after that step |
| InstallUndo.RollbackToUnrecordedStep | xcore_agent/agent/install_driver.py:180-196 | rolling back to a step without a record is a full rollback |
| InstallUndo.RollbackElsewhere | xcore_agent/agent/install_driver.py:180-196 | rollback changes no item without a record and no env file |
| InstallUndo.RollbackTwice | xcore_agent/agent/install_driver.py:180-196 | rolling back a second time completes as well and leaves exactly the same host |
| InstallUndo.RollbackCompletes | xcore_agent/agent/install_driver.py:180-196 | a rollback that meets no error of its own runs to its end if and only if, of the records to undo, none is of an item that is a file now, and those with a saved copy have it as a directory and only directories above the item |
| InstallUndo.RollbackOfRunCompletes | xcore_agent/agent/pipeline.py:383-385 | after any run on a fresh driver, whatever step failed and how, a full or partial rollback that meets no error of its own completes |
| InstallResult.CompletedRunInstalls | xcore_agent/agent/install_driver.py:222-251 | a run that completes leaves at every item it installs exactly the artifact's directory, signed where a key is set, with nothing of the old one, and leaves every other item alone |
| InstallResult.InstallSucceedsExactly | xcore_agent/agent/install_driver.py:162-251 | an install step that meets no error succeeds if and only if the artifact has the directory, it can be signed where it has to be, no file is at or above the target, and what is there can be saved under its snapshot name |
| InstallResult.CompletedRunMeansNoCallFailed | xcore_agent/agent/pipeline.py:374-416 | in a run that completes no directory, provisioner, start, stop, restart or healthcheck has failed |
| InstallResult.ExistingEnvFileIsChecked | xcore_agent/agent/install_driver.py:259-296 | an env file that is there is not written, and passes exactly if every key that the manifest requires has a value in it |
| InstallResult.NewEnvFileIsSeeded | xcore_agent/agent/install_driver.py:259-276 | a new env file is the seeded template; without a template the step fails and writes nothing |
| InstallResult.SnapshotIsFiled | xcore_agent/agent/install_driver.py:162-178 | a snapshot is a copy under `.snapshots/<step>-<item>-<ms>`, a name that was free |
| InstallResult.InstalledHasParents | xcore_agent/agent/install_driver.py:222-251 | above an installed item there are directories |
| InstallUndo.EnvFileNeverChanges | xcore_agent/agent/install_driver.py:259-278 | no later step, of this run or another, changes an existing env file |
| InstallUndo.FirstWriteEnvSucceedsExactly | xcore_agent/agent/install_driver.py:259-296 | a first `write_env` with a manifest succeeds if and only if every required key is non-empty in the process environment laid over the template |
| DeploymentStates.RunsFollowStages | xcore_agent/agent/state.py:32-95 | whatever is tried, a run is a beginning of the one sequence of stages, with at most its last state a failure |
| DeploymentStates.InstallingNeedsEveryStage | xcore_agent/agent/state.py:29-95 | nothing is installed before all twelve earlier stages were passed, in order |
| DeploymentStates.TransitionsExactly | xcore_agent/agent/state.py:32-95 | the transition table: every stage leads to the next one, all but the first can fail, and two can be rolled back |
| Pipeline.DeploymentRunner.Transition | xcore_agent/agent/pipeline.py:104-110 | moves along the table or raises and stays |
| Pipeline.DeploymentRunner.Fetch | xcore_agent/agent/pipeline.py:164-209 | succeeds exactly if the hub answered throughout, the downloaded bytes carry a signature that verifies under the trusted key, which is the signer the hub names, and those same bytes decrypt |
| Pipeline.DeploymentRunner.Extract | xcore_agent/agent/pipeline.py:211-236 | if the disk takes it, the extracted tree is what the bytes unpack to, whatever was left there before |
| Pipeline.DeploymentRunner.VerifyManifest | xcore_agent/agent/pipeline.py:238-263 | succeeds exactly if the tree has a manifest whose content hash is the tree's and an acceptable plan |
| Pipeline.DeploymentRunner.OpenArtifact | xcore_agent/agent/pipeline.py:211-263 | extraction and verification give a tree and a verdict that do not depend on the leftovers of any earlier attempt |
| Pipeline.DeploymentRunner.ValidateProject | xcore_agent/agent/pipeline.py:265-279 | succeeds exactly if manifest and plan are for the requested project and version |
| Pipeline.DeploymentRunner.ResolvePlugins | xcore_agent/agent/pipeline.py:281-367 | source-based items are fetched, checked against their pinned hash and laid over the tree in order, up to the first that raises; a file over a directory goes inside it, as `copy2` does |
| Pipeline.DeploymentRunner.Obtain | xcore_agent/agent/pipeline.py:112-123 | everything before the execution order succeeds exactly if there is a verified artifact for the requested project and version whose sourced items can all be laid over it |
| Pipeline.DeploymentRunner.ResolveSequence | xcore_agent/agent/pipeline.py:369-372 | the order is an execution order of the accepted plan |
| Pipeline.DeploymentRunner.Install | xcore_agent/agent/pipeline.py:374-387 | the driver runs the steps in order; if one raises, the rollback follows, and the state is ROLLED_BACK exactly if the rollback completed |
| Pipeline.DeploymentRunner.Run | xcore_agent/agent/pipeline.py:112-162 | a normal return ends SUCCEEDED, a deployment error FAILED or ROLLED_BACK, any other exception in between; the driver is driven exactly if everything can be obtained, the return is normal exactly if then every step and the final report succeed; bytes whose signer is not the trusted key, or whose signature does not verify, end the run FAILED; if the host was touched, then with the tree the trusted signer's bytes unpack to, whose digest its manifest declares, and the steps of its plan in execution order |
| Pipeline.RolledBackRestores | xcore_agent/agent/pipeline.py:383-387 | after a run that ends ROLLED_BACK each item whose first touching step had snapshots is as before the run |
| Pipeline.FailedStepRollsBack | xcore_agent/agent/pipeline.py:374-387 | when a step raises and the rollback meets no error of its own, the run does end ROLLED_BACK |
| Pipeline.SucceededInstalls | xcore_agent/agent/pipeline.py:125-129 | after a run that ends SUCCEEDED every item its plan installs holds exactly what the artifact ships, and every other item is as before |
| RunPromises.VerifiedMeans | xcore_agent/agent/pipeline.py:177-279 | what a run has checked before it installs: signer, signature, 32-byte key, twelve-byte nonce, the digest of all files but `manifest.json`, the plan in `deployment/install.yaml`, project and version |
| RunPromises.PinnedSourcesMatch | xcore_agent/agent/pipeline.py:281-367 | every item with a source was fetched under its own key, and where a hash is pinned its files have it |
| RunPromises.FetchedFilesAreThere | xcore_agent/agent/pipeline.py:325-367 | with separate targets, every fetched file ends up whole at its own path, unless a directory was extracted there |
| RunPromises.StepsInOrder | xcore_agent/agent/pipeline.py:376-379 | the steps that are run are the plan's, by the ids of the order |
| RunPromises.FailedCallRollsBack | xcore_agent/agent/pipeline.py:374-412 | a failed directory, provisioner, start, stop, restart or healthcheck keeps the run from completing and, if the rollback meets no error, ends it ROLLED_BACK |
| RunPromises.OnlyTheseStop | xcore_agent/agent/pipeline.py:389-416 | besides these only an install or env step can stop a run: not `notify`, `configure_plugin`, `download`, `extract` or `rollback` |
| HubWatcher.Watcher.CheckOnce | xcore_agent/agent/watcher.py:56-82 | a tick with the latest version on record changes nothing; one whose run raises leaves the record; after a successful one, also on a fresh host, the latest version is on record, the cache holds its directory and no other version's, and every item of the plan holds what the verified artifact ships, every other what it held before |
| HubWatcher.Watcher.CollectGarbage | xcore_agent/agent/watcher.py:84-97 | afterwards the cache holds no version directory but the latest, and of the project only snapshots are gone |
| HubWatcher.Watcher.Watch | xcore_agent/agent/watcher.py:99-124 | over any ticks the version on record is the one found at the start or that of a run that returned normally |
| HubWatcher.RecordNamesSuccess | xcore_agent/agent/watcher.py:79-80 | a record that is only written after normal returns names a successful run |
| PluginResolver.SafeRefDirnameCollides | xcore_agent/plugin_resolver.py:215-216 | two refs share a directory name exactly if they differ at most in `/` against `_` |
| PluginResolver.CacheDirsCollide | xcore_agent/plugin_resolver.py:110-164 | when two requests share a cache directory: slug, kind and url play no part, and a git ref can look like a marketplace version |
| PluginResolver.EnsureKeepsOthers | xcore_agent/plugin_resolver.py:100-195 | a resolve, disturbed anywhere, leaves the same other entries marked, and those untouched |
| PluginResolver.EnsureCompletes | xcore_agent/plugin_resolver.py:110-152 | an entry that gets or keeps its marker holds exactly what a fetch gives, for git apart from a rest of `.git`, however the filling was disturbed: what is left may be any part of what the source holds, moved up or not, with contents cut anywhere, and the archive may stay |
| PluginResolver.CrashproofExactly | xcore_agent/plugin_resolver.py:110-195 | whatever disturbs it, a resolve keeps an entry complete, if and only if the source ships no file that passes for the marker, or an archive ships nothing else |
| PluginResolver.ShippedMarkerDeceives | xcore_agent/plugin_resolver.py:111-195 | for every other source there is an interruption after which the next, undisturbed resolve returns an incomplete entry |
| PluginResolver.MarkedEntriesAreComplete | xcore_agent/plugin_resolver.py:100-195 | crash consistency: after any sequence of resolves failing anywhere, a marked entry is the whole flattened tree of verified bytes, or the whole checkout, to which at most a rest of `.git` is added |
| PluginResolver.ResolveIsTransparent | xcore_agent/plugin_resolver.py:83-176 | after any such history a resolve that returns gives exactly the requested part of what a fresh fetch gives, for every request that ends in its entry |
| PluginResolver.OwnExactly | xcore_agent/plugin_resolver.py:154-176 | a directory that is returned lies in the request's own entry, whatever the cache holds, if and only if the requested path ends there, or runs through the marker and leads nowhere |
| PluginResolver.ParentShowsHistory | xcore_agent/plugin_resolver.py:170-176 | asking for `..` returns one content after one history and another after another, with the same sources |
| PluginResolver.ResolvesExactly | xcore_agent/plugin_resolver.py:100-195 | undisturbed and unobstructed, a resolve of a request that stays in its entry succeeds if and only if the source has usable content, with the trusted signature where one is required, and every directory on the requested path is in that content |
| PluginResolver.ZipIsNotEntry | xcore_agent/plugin_resolver.py:111-134 | the archive is never stored under the name of the entry it fills |
| PluginResolver.SharedDirectoryServesFirst | xcore_agent/plugin_resolver.py:110-154 | on a shared key the second request gets its part of the first one's content, with or without a subdirectory that stays in it, and raises if there is none; the entry is right for both exactly if both fetch the same |
| PluginResolver.CollisionExample | xcore_agent/plugin_resolver.py:164-216 | branches `a/b` and `a_b` share a directory |
| CacheContents.MarkedEntriesAreSigned | xcore_agent/plugin_resolver.py:111-152 | after any history a marked marketplace entry means that its artifact's signature passes the check |
| CacheContents.ForgedArtifactIsRefused | xcore_agent/plugin_resolver.py:116-131 | where the signature does not pass, nothing is returned or marked, and nothing new is written |
| CacheContents.ArchiveContents | xcore_agent/plugin_resolver.py:133-151 | the entry holds the archive node by node, from inside the directory that wraps everything, if there is one |
| CacheContents.CommitContents | xcore_agent/plugin_resolver.py:178-195 | the entry holds the commit node by node, without `.git` |
| CacheContents.UsableExactly | xcore_agent/plugin_resolver.py:116-152 | an artifact is usable exactly if it is signed, a sound and safe archive, and neither a child of the wrapping directory's own name nor a directory in the marker's place spoils it |
| CacheContents.PlainSubdirectory | xcore_agent/plugin_resolver.py:154-160 | a subdirectory of plain names is looked for in the entry, name by name |
| CacheContents.AbsoluteLeavesCache | xcore_agent/plugin_resolver.py:154-160 | an absolute one is never taken for one in the cache |
| PluginFetcher.FlattenSingleRoot | xcore_agent/plugin_resolver.py:234-246 | moving the children up one by one, in any order, gives the tree below the single root directory; with a child of the root's own name it raises, with the children that came before it moved; any other tree is left alone |
| PluginFetcher.Resolver.ResolveSource | xcore_agent/plugin_resolver.py:83-98 | agrees with the specification of a resolve for every request and every fault, also for subdirectories that lead elsewhere; raises without touching the cache if the marketplace is not configured |
| PluginFetcher.Resolver.Download | xcore_agent/plugin_resolver.py:116-152 | fetch, verify, store, extract, flatten and mark, in place, is filling the entry; the stored archive leaves no trace, unless it could not be stored or the process was killed |
| PluginFetcher.Resolver.Clone | xcore_agent/plugin_resolver.py:178-195 | checking out, dropping `.git`, as far as that goes, and marking, in place, is filling the entry |
| WatchSources.Project.CheckOnce | xcore_agent/watch_sources.py:109-183 | the loop over the steps: what happens to the tree, what is reported and what is recorded, both only if nothing raised |
| WatchTicks.VersionBecomesLatest | xcore_agent/watch_sources.py:115-179 | a step's recorded version becomes the latest if and only if its own check succeeds and it is current or that version resolves, whatever becomes of the other steps |
| WatchTicks.DirectoriesArePointwise | xcore_agent/watch_sources.py:173-174 | each step's directory is as before, or has its own resolved tree laid over it, wherever `copy2` puts the files |
| WatchTicks.StepOutcome | xcore_agent/watch_sources.py:109-183 | after a tick that returned, each step is left alone, only recorded, or has the tree that resolving the latest version gives laid over it, is recorded with that version and reported |
| WatchTicks.RaisesExactly | xcore_agent/watch_sources.py:115-179 | a tick raises if and only if some step names a git source, or has a newer version whose tree cannot be laid over what is there: a directory onto a file, or a file onto a directory that has a directory of that name inside; a failed check or resolve never raises |
| WatchTicks.GitSourceSpoilsTick | xcore_agent/watch_sources.py:128-129 | one git source makes every tick raise and record nothing |
| WatchTicks.ReportsExactly | xcore_agent/watch_sources.py:175-177 | a tick that returns reports an update for exactly the steps that were written, with the version they came from; one that raises reports nothing |
| WatchTicks.SecondTickIsSilent | xcore_agent/watch_sources.py:138-155 | a step that succeeded in a tick that returned is confirmed and not reported again while its latest version stays the same |
| WatchTicks.NothingLeftToDo | xcore_agent/watch_sources.py:138-183 | after a tick that returned and in which every step succeeded, the next one with the same versions changes neither the project nor the record, and reports nothing |
| WatchTicks.ReplayReachesTheSame | xcore_agent/watch_sources.py:173-183 | a tick cut by a copy error, whatever entries and file contents that left, done again reaches the tree and the record of a tick that was never cut, also when targets overlap |
| Overlays.RunAgain | xcore_agent/watch_sources.py:173-174 | laying the same trees over what a cut run left, truncated files included, ends where an uncut run ends |
| Overlays.RunFailsPointwise | xcore_agent/watch_sources.py:173-174 | with separate targets a run stops exactly if some merge fails by itself |
| Overlays.MergedFile | xcore_agent/watch_sources.py:173-174 | a file of a merged tree ends up whole at its own path, unless a directory is there |
| Overlays.FailedMergeCopiesTheRest | xcore_agent/watch_sources.py:173-174 | a merge that raises has still copied the files that have no conflict at or above them |
| SnapshotGroups.ParsedKey | xcore_agent/agent/gc.py:61-62 | for every step, item and time, the parsed key is the text after the item id's last hyphen: the id itself if and only if it has none |
| SnapshotGroups.CountedTogether | xcore_agent/agent/gc.py:57-63 | two snapshots share a group exactly if their ids agree after the last hyphen |
| SnapshotGc.GarbageCollector.CollectSnapshots | xcore_agent/agent/gc.py:46-71 | the two loops remove exactly the stale part of every group, listed group by group |
| SnapshotGc.RetentionIsExact | xcore_agent/agent/gc.py:65-71 | each group keeps exactly its min(n, keep) newest; removed and kept partition it |
| SnapshotGc.SortIsStable | xcore_agent/agent/gc.py:65-66 | snapshots of one time stay in the order in which they were listed |
| SnapshotGc.RemovedExactly | xcore_agent/agent/gc.py:57-71 | a snapshot is removed exactly if it is in the stale part of its own group |
| SnapshotGc.RemoveAllAt | xcore_agent/agent/gc.py:68-70 | removal deletes those snapshots and nothing else |
| SnapshotRetention.UnsharedGroupIsOwn | xcore_agent/agent/gc.py:46-63 | if no other item of either kind has an id that ends the same, an item's group is its own snapshots |
| SnapshotRetention.SharedGroupLosesOnlySnapshot | xcore_agent/agent/gc.py:46-71 | otherwise, keeping one snapshot each can remove an item's only one; a plugin and an extension with one id are such items |
| SnapshotRetention.RetentionIsPerItemExactly | xcore_agent/agent/gc.py:46-71 | every collection keeps an item's newest snapshots, as many as asked for, if and only if no other of the items shares the end of its id |
| SnapshotGc.GarbageCollector.CollectCache | xcore_agent/agent/gc.py:73-83 | removes exactly the version directories that are not to be kept, and returns exactly their names, each once |
| SnapshotGc.OnlyKeptVersions | xcore_agent/agent/gc.py:73-83 | what is kept is untouched, and nothing else is a directory there |
| PluginSigning.FeedFile | xcore_agent/agent/plugin_signing.py:90-92 | the chunk loop feeds exactly the file's bytes |
| PluginSigning.ComputePluginHmac | xcore_agent/agent/plugin_signing.py:65-95 | the HMAC is taken over the manifest, then every signed file in path order |
| PluginSigning.IgnoredPathsDoNotMatter | xcore_agent/agent/plugin_signing.py:54-62 | adding, changing or removing ignored paths leaves the HMAC input alone, apart from the manifests |
| PluginSigning.SignatureDoesNotSignItself | xcore_agent/agent/plugin_signing.py:119-126 | the HMAC input is the same before and after `plugin.sig` is written |
| PluginSigning.SigningTwice | xcore_agent/agent/plugin_signing.py:98-127 | signing again writes the same signature |
| PluginSigning.InstalledPlugin.Sign | xcore_agent/agent/plugin_signing.py:98-127 | writes a signature exactly for a trusted plugin, and nothing else |
| PluginSigning.SignedFilesAreDetermined | xcore_agent/agent/plugin_signing.py:85-93 | for files without NUL, the HMAC input after the manifest determines the signed files and their contents |
| SigningInput.HmacInputIs | xcore_agent/agent/plugin_signing.py:65-95 | the HMAC takes `plugin.yaml`, else `plugin.json`, else nothing, then the files below the source directory that are not ignored |
| SigningInput.IgnoredExactly | xcore_agent/agent/plugin_signing.py:41-62 | which paths are ignored |
| SigningInput.OneFileFed | xcore_agent/agent/plugin_signing.py:86-93 | a file is fed as its path, a NUL, its content and a NUL |
| SigningInput.SourceDirIs | xcore_agent/agent/plugin_signing.py:79-83 | the source directory is the entry point's own, `..` taken back |
| SigningInput.SignatureIs | xcore_agent/agent/plugin_signing.py:98-127 | exactly a plugin that asks for trusted execution is signed, with the defaults for name, version and entry point |
| SigningInput.SignedFilesAreDeterminedExactly | xcore_agent/agent/plugin_signing.py:72-95 | under one manifest, the HMAC input of a plugin directory determines its signed files if and only if there is at most one, whose content does not hold the name of a later one between two NULs |
| SigningInput.TwoDirectoriesOneInput | xcore_agent/agent/plugin_signing.py:85-93 | two plugin directories with one manifest, different signed files and the same HMAC input |
| SignedInstall.TrustedPluginsAreSigned | xcore_agent/agent/install_driver.py:222-239 | on a host with a key, a completed installation leaves every plugin it installs as shipped, and one that asks for trusted execution with the signature that is computed from the installed directory itself |
| PluginSigning.PatternsAreLiteral | xcore_agent/agent/plugin_signing.py:41-57 | a `.md` or `.json` file, in whatever directory that is not ignored, is ignored only if it is literally named like an entry of the list |

## Left out

- Text and bytes are both sequences of characters: encodings are not modelled.
- Symbolic links, file modes, modification times (other than as a parameter of retention) and the recursion limit.
- Line separators other than the line feed, digits other than ASCII, and `$` matching before a final line feed.
- `fnmatch` is modelled for `*` and literal characters, which is all the packer's patterns use.
- Cryptography and encodings are opaque functions; a trusted key that is itself malformed, on which the signature check raises another error, is not modelled.
- Network clients, retries, the command line, YAML and JSON parsing: the model starts from parsed values; semantic version and project id checks are part of parsing.
- `_validate_source_tree` and `_load_install_plan`: checks before packing whose failure only stops the build earlier.
- Supervisors, provisioners and notifiers are calls that may raise.
- Ids, refs and versions used as path segments are taken to be plain (not empty, `.` or `..`); requested subdirectories and entry points are not.
- A cache or version directory or an `extracted` that is a plain file, or an `artifact.tar` that is a directory: no attempt leaves any; the model clears them instead of raising.
- Pipeline.DeploymentRunner.ResolvePlugins: what a failed merge leaves below `extracted` is not stated; the next attempt starts by deleting it.
- DependencyOrder.TopologicalOrder: where the ids are out of order, which of several valid orders comes out is fixed only as far as earlier ids, with what they need, come first.
- SnapshotGc.GarbageCollector.CollectSnapshots: deletions ignore errors and are taken to complete.
- SnapshotGc.GarbageCollector.CollectCache: the same, also where `HubWatcher` calls it.
- HubWatcher.Watcher.CheckOnce: the record is taken to be written whole or not at all, and reading it never raises; freed bytes are not counted.
- WatchSources.Project.CheckOnce: starts from the parsed plan and record; reading and writing them as files, and the endless loop around the tick, add only easy members.
- The marketplace runner and its watcher, and `resolve_sources.py`: near copies of what is modelled.
- Agent verification of an embedded plugin's own `sha256`: no code performs it.
