/** Why a task is in the plan: for every task key, exactly which changed paths put it there. */
module PlanReasons {
  import opened Common
  import opened AffectedPlan
  import Splitting
  import Versions

  // ---------------------------------------------------------------------- classes of changed paths

  ghost predicate Changed(paths: set<string>, p: string) {
    p in paths && !IsDocOrChangelogPath(p)
  }

  /** A changed path that the loop looks at for itself: no document, workspace manifest, workflow or CI harness. */
  ghost predicate Direct(paths: set<string>, p: string) {
    Changed(paths, p) && !IsFullWorkspacePath(p) && !IsWorkflowPath(p) && !IsCiHarnessScriptPath(p)
  }

  ghost predicate RustChange(paths: set<string>, p: string) {
    Direct(paths, p) && IsRustPath(p)
  }

  ghost predicate InstallChange(paths: set<string>, p: string) {
    Direct(paths, p) && !IsRustPath(p) && IsInstallPath(p)
  }

  ghost predicate SourceChange(paths: set<string>, p: string) {
    Direct(paths, p) && !IsRustPath(p) && !IsInstallPath(p)
  }

  /** A source change that names no test, in a package or outside of all. */
  ghost predicate OwnedChange(w: World, paths: set<string>, p: string, owner: Package) {
    SourceChange(paths, p) && MappedTestsFor(w, p) == [] && OwningPackage(p, w.packages) == Some(owner)
  }

  ghost predicate UnownedChange(w: World, paths: set<string>, p: string) {
    SourceChange(paths, p) && MappedTestsFor(w, p) == [] && OwningPackage(p, w.packages) == None && IsCodeIshPath(p)
  }

  ghost predicate WorkflowChange(paths: set<string>, p: string) {
    Changed(paths, p) && !IsFullWorkspacePath(p) && IsWorkflowPath(p)
  }

  ghost predicate HarnessChange(paths: set<string>, p: string) {
    Changed(paths, p) && !IsFullWorkspacePath(p) && (IsWorkflowPath(p) || IsCiHarnessScriptPath(p))
  }

  /** A manifest of the whole workspace changed, and not just the root manifest along with the release harness. */
  ghost predicate FullChange(paths: set<string>) {
    (exists p :: Changed(paths, p) && IsFullWorkspacePath(p)) &&
    !("package.json" in paths &&
      forall p :: Changed(paths, p) ==> p == "package.json" || IsReleasePublishPath(p) || IsReleaseHarnessScriptPath(p) || IsUnscopedWrapperPath(p))
  }

  // ---------------------------------------------------------------------- reasons

  ghost predicate AsksForRust(paths: set<string>, k: string) {
    (k == "rust-check" || k == "rust-test") && exists p :: RustChange(paths, p)
  }

  ghost predicate AsksForInstall(paths: set<string>, k: string) {
    k == "install-methods" &&
    ((exists p :: InstallChange(paths, p)) || exists p :: Changed(paths, p) && IsTabWorkerSmokePath(p))
  }

  ghost predicate AsksForRelease(paths: set<string>, k: string) {
    (k == "release-publish-contract" || k == "release-publish-dry-run" || k == "test:" + "scripts/release-evidence.test.ts") &&
    exists p :: SourceChange(paths, p) && IsReleasePublishPath(p)
  }

  ghost predicate AsksForSmoke(w: World, paths: set<string>, k: string) {
    || (k == "wrapper-version" && exists p :: SourceChange(paths, p) && IsUnscopedWrapperPath(p))
    || (k == "sdk-package-smoke" && exists p :: SourceChange(paths, p) && IsSdkPackageSmokePath(p))
    || (k == "cli-smoke" && exists p, owner :: OwnedChange(w, paths, p, owner) && IsCodingAgentRuntimePath(p))
  }

  /** The check of the package of a change: always for the SDK client, otherwise only if no test is named. */
  ghost predicate Checks(w: World, paths: set<string>, p: string, owner: Package) {
    owner.hasCheck &&
    (OwnedChange(w, paths, p, owner) ||
     (SourceChange(paths, p) && IsSdkPackageSmokePath(p) && OwningPackage(p, w.packages) == Some(owner)))
  }

  ghost predicate AsksForCheck(w: World, paths: set<string>, k: string) {
    || (exists p, owner :: Checks(w, paths, p, owner) && k == "check:" + owner.name)
    || (k == "root-check" && (FullChange(paths) || exists p :: UnownedChange(w, paths, p)))
  }

  ghost predicate AsksForHarness(paths: set<string>, k: string) {
    || ((k == "ci-selftest" || k == "ci-dry-run" || k == "workflow-permissions") && exists p :: HarnessChange(paths, p))
    || (k == "yaml-parse" && exists p :: WorkflowChange(paths, p))
  }

  ghost predicate OnDisk(w: World, file: string) {
    w.validate ==> file in w.existing
  }

  ghost predicate NamedTest(w: World, paths: set<string>, p: string, file: string) {
    OnDisk(w, file) &&
    ((SourceChange(paths, p) && file in MappedTestsFor(w, p)) ||
     ((SourceChange(paths, p) || RustChange(paths, p)) && p in w.behavioral && file in w.behavioral[p]))
  }

  ghost predicate Canary(w: World, paths: set<string>, file: string) {
    exists c, p :: c in w.risks && file in c.canaries && Changed(paths, p) && MatchesRiskClass(p, c)
  }

  ghost predicate AsksForTest(w: World, paths: set<string>, file: string) {
    || (exists p :: NamedTest(w, paths, p, file))
    || Canary(w, paths, file)
    || (file == "packages/coding-agent/test/docs-index-lazy.test.ts" && exists p :: p in paths && IsEmbeddedDocsSourcePath(p))
    || (FullChange(paths) && exists q :: q in w.packages && q.hasTest && q.name != "@vib-rato/coding-agent" && file == q.name)
  }

  ghost predicate ShardOneChange(w: World, paths: set<string>) {
    exists p, c :: SourceChange(paths, p) && c in w.shardOne && IsCovered(p, c)
  }

  /** The path itself, or anything in a directory that is written with a slash at the end. */
  ghost predicate IsCovered(p: string, c: string) {
    if c != "" && c[|c| - 1] == '/' then c <= p else p == c
  }

  lemma {:induction false} CoveredIs(w: World, p: string)
    ensures IsShardOnePath(w, p) <==> exists c :: c in w.shardOne && IsCovered(p, c)
  {
    forall c ensures EndsWith(c, "/") <==> c != "" && c[|c| - 1] == '/' {
      if c != "" { assert c[|c| - 1..] == [c[|c| - 1]]; }
    }
  }

  ghost predicate TestsCodingAgent(w: World, paths: set<string>) {
    FullChange(paths) && exists q :: q in w.packages && q.hasTest && q.name == "@vib-rato/coding-agent"
  }

  ghost predicate AsksForShard(w: World, paths: set<string>, k: string) {
    || (k == "test:@vib-rato/coding-agent:sdk-production-host-isolated" && (ShardOneChange(w, paths) || TestsCodingAgent(w, paths)))
    || (k == ShardTask(1, w.shards) && ShardOneChange(w, paths))
    || (exists n: nat :: 1 <= n <= w.shards && k == ShardTask(n, w.shards) && TestsCodingAgent(w, paths))
  }

  ghost function ShardTask(n: nat, total: nat): (k: string) {
    "test:@vib-rato/coding-agent:shard-" + Versions.Decimal(n) + "-of-" + Versions.Decimal(total)
  }

  lemma {:induction false} ShardTaskIs(n: nat, total: nat)
    ensures ShardTask(n, total) == ShardKey(n, total)
  {
  }

  ghost predicate AsksFor(w: World, paths: set<string>, k: string) {
    || AsksForRust(paths, k)
    || AsksForInstall(paths, k)
    || AsksForRelease(paths, k)
    || AsksForSmoke(w, paths, k)
    || AsksForCheck(w, paths, k)
    || AsksForHarness(paths, k)
    || (exists file :: k == "test:" + file && AsksForTest(w, paths, file))
    || AsksForShard(w, paths, k)
    || ((k == "root-test:release" || k == "native-linux-x64") && FullChange(paths))
  }

  // ---------------------------------------------------------------------- every task of a path has its reason

  lemma {:induction false} TestHasReason(w: World, paths: set<string>, file: string)
    requires AsksForTest(w, paths, file)
    ensures AsksFor(w, paths, TestKey(file))
  {
    hide AsksForTest, AsksForRust, AsksForInstall, AsksForRelease, AsksForSmoke, AsksForCheck, AsksForHarness, AsksForShard, FullChange;
    assert TestKey(file) == "test:" + file;
  }

  lemma {:induction false} NamedHasReason(w: World, paths: set<string>, p: string, files: seq<string>, k: string)
    requires k in CheckedTestKeys(w, files)
    requires (SourceChange(paths, p) && files == MappedTestsFor(w, p)) ||
             ((SourceChange(paths, p) || RustChange(paths, p)) && files == BehavioralTestsFor(w, p))
    ensures AsksFor(w, paths, k)
  {
    hide SourceChange, RustChange, MappedTestsFor, AsksFor, Canary, FullChange;
    var f :| f in files && OnDisk(w, f) && k == TestKey(f);
    assert NamedTest(w, paths, p, f);
    TestHasReason(w, paths, f);
  }

  lemma {:induction false} OwnerHasReason(w: World, paths: set<string>, p: string, k: string)
    requires SourceChange(paths, p) && MappedTestsFor(w, p) == [] && k in OwnerKeys(w, p)
    ensures AsksFor(w, paths, k)
  {
    hide SourceChange, MappedTestsFor, OwningPackage, IsCodingAgentRuntimePath, IsUnscopedWrapperPath, IsCodeIshPath,
      IsSdkPackageSmokePath, FullChange, AsksForRust, AsksForInstall, AsksForRelease, AsksForHarness, AsksForShard, AsksForTest;
    var owner := OwningPackage(p, w.packages);
    if owner.Some? {
      assert OwnedChange(w, paths, p, owner.value);
      if k in CheckKeys(owner) { assert Checks(w, paths, p, owner.value); }
    } else {
      assert UnownedChange(w, paths, p);
    }
  }

  lemma {:induction false} SourceHasReason(w: World, paths: set<string>, p: string, k: string)
    requires SourceChange(paths, p) && k in LoopKeys(w, p)
    ensures AsksFor(w, paths, k)
  {
    hide MappedTestsFor, OwningPackage, IsCodingAgentRuntimePath, IsUnscopedWrapperPath, IsReleasePublishPath, IsShardOnePath,
      IsSdkPackageSmokePath, FullChange, IsWorkflowPath, IsCiHarnessScriptPath, IsRustPath, IsInstallPath, OwnerKeys,
      CheckedTestKeys, BehavioralTestsFor, ShardKey, ShardTask, TestsCodingAgent, Changed, IsFullWorkspacePath, AsksForTest, AsksForHarness,
      AsksForRust, AsksForInstall;
    if k in CheckedTestKeys(w, MappedTestsFor(w, p)) {
      NamedHasReason(w, paths, p, MappedTestsFor(w, p), k);
    } else if k in CheckedTestKeys(w, BehavioralTestsFor(w, p)) {
      NamedHasReason(w, paths, p, BehavioralTestsFor(w, p), k);
    } else if MappedTestsFor(w, p) == [] && k in OwnerKeys(w, p) {
      OwnerHasReason(w, paths, p, k);
    } else if IsSdkPackageSmokePath(p) && k in CheckKeys(OwningPackage(p, w.packages)) {
      assert Checks(w, paths, p, OwningPackage(p, w.packages).value);
    } else if IsShardOnePath(w, p) && k in {ShardKey(1, w.shards), SDK_HOST_KEY} {
      ShardTaskIs(1, w.shards);
      CoveredIs(w, p);
      assert ShardOneChange(w, paths);
    } else {
      assert AsksForRelease(paths, k) || AsksForSmoke(w, paths, k);
    }
  }

  lemma {:induction false} PathHasReason(w: World, paths: set<string>, p: string, k: string)
    requires Changed(paths, p) && k in PathKeys(w, p)
    ensures AsksFor(w, paths, k)
  {
    hide IsWorkflowPath, IsCiHarnessScriptPath, IsRustPath, IsInstallPath, IsTabWorkerSmokePath, IsFullWorkspacePath, LoopKeys,
      AsksForRelease, AsksForSmoke, AsksForCheck, AsksForShard, AsksForTest, FullChange;
    if k in SmokeKeys(p) {
      assert Changed(paths, p) && IsTabWorkerSmokePath(p);
    } else if k in LaterKeys(p) {
      assert HarnessChange(paths, p) && (k == "yaml-parse" ==> WorkflowChange(paths, p));
    } else {
      DirectHasReason(w, paths, p, k);
    }
  }

  lemma {:induction false} DirectHasReason(w: World, paths: set<string>, p: string, k: string)
    requires Changed(paths, p) && !IsFullWorkspacePath(p) && k in LoopKeys(w, p)
    ensures AsksFor(w, paths, k)
  {
    hide IsWorkflowPath, IsCiHarnessScriptPath, IsRustPath, IsInstallPath, IsFullWorkspacePath, Changed, MappedTestsFor,
      AsksForRelease, AsksForSmoke, AsksForCheck, AsksForShard, AsksForTest, FullChange, OwnerKeys, IsReleasePublishPath,
      IsShardOnePath, IsSdkPackageSmokePath, OwningPackage, CheckedTestKeys, BehavioralTestsFor, AsksForHarness, ShardKey;
    if SourceChange(paths, p) {
      SourceHasReason(w, paths, p, k);
    } else if IsRustPath(p) {
      assert RustChange(paths, p);
      if k in CheckedTestKeys(w, BehavioralTestsFor(w, p)) { NamedHasReason(w, paths, p, BehavioralTestsFor(w, p), k); }
    } else {
      assert InstallChange(paths, p);
    }
  }

  // ---------------------------------------------------------------------- every reason puts its task into the plan

  lemma {:induction false} PathGives(w: World, paths: set<string>, p: string, k: string)
    requires Changed(paths, p) && k in PathKeys(w, p)
    ensures k in Asked(w, paths)
  {
    hide Changed, PathKeys, FullWorkspace, FullKeys, CanariesOf, GateKeys;
    assert p in Relevant(paths) by { ChangedIsRelevant(paths, p); }
    assert k in KeysOf(w, Relevant(paths));
  }

  lemma {:induction false} ChangedIsRelevant(paths: set<string>, p: string)
    ensures Changed(paths, p) <==> p in Relevant(paths)
  {
  }

  lemma {:induction false} DirectGives(w: World, paths: set<string>, p: string, k: string)
    requires Direct(paths, p) && k in LoopKeys(w, p)
    ensures k in Asked(w, paths)
  {
    hide IsWorkflowPath, IsCiHarnessScriptPath, IsFullWorkspacePath, LoopKeys, Changed, Asked;
    PathGives(w, paths, p, k);
  }

  lemma {:induction false} RustGives(w: World, paths: set<string>, k: string)
    requires AsksForRust(paths, k)
    ensures k in Asked(w, paths)
  {
    hide IsWorkflowPath, IsCiHarnessScriptPath, IsFullWorkspacePath, IsRustPath, Changed, Asked;
    var p :| RustChange(paths, p);
    DirectGives(w, paths, p, k);
  }

  lemma {:induction false} InstallGives(w: World, paths: set<string>, k: string)
    requires AsksForInstall(paths, k)
    ensures k in Asked(w, paths)
  {
    hide IsWorkflowPath, IsCiHarnessScriptPath, IsFullWorkspacePath, IsRustPath, IsInstallPath, IsTabWorkerSmokePath, Changed, Asked;
    if p :| InstallChange(paths, p) {
      DirectGives(w, paths, p, k);
    } else {
      var p :| Changed(paths, p) && IsTabWorkerSmokePath(p);
      hide LoopKeys, LaterKeys;
      PathGives(w, paths, p, k);
    }
  }

  lemma {:induction false} ReleaseGives(w: World, paths: set<string>, k: string)
    requires AsksForRelease(paths, k)
    ensures k in Asked(w, paths)
  {
    hide IsWorkflowPath, IsCiHarnessScriptPath, IsFullWorkspacePath, IsRustPath, IsInstallPath, IsReleasePublishPath, Changed, Asked,
      MappedTestsFor, OwnerKeys, CheckedTestKeys, BehavioralTestsFor, IsShardOnePath, IsSdkPackageSmokePath, OwningPackage;
    var p :| SourceChange(paths, p) && IsReleasePublishPath(p);
    assert k in RELEASE_KEYS;
    DirectGives(w, paths, p, k);
  }

  lemma {:induction false} WrapperIsPublished(p: string)
    requires IsUnscopedWrapperPath(p)
    ensures IsReleasePublishPath(p)
  {
  }

  lemma {:induction false} SmokeGives(w: World, paths: set<string>, k: string)
    requires AsksForSmoke(w, paths, k)
    ensures k in Asked(w, paths)
  {
    hide IsWorkflowPath, IsCiHarnessScriptPath, IsFullWorkspacePath, IsRustPath, IsInstallPath, IsReleasePublishPath, Changed, Asked,
      MappedTestsFor, CheckedTestKeys, BehavioralTestsFor, IsShardOnePath, IsSdkPackageSmokePath, OwningPackage,
      IsUnscopedWrapperPath, IsCodingAgentRuntimePath, IsCodeIshPath;
    if k == "wrapper-version" {
      var p :| SourceChange(paths, p) && IsUnscopedWrapperPath(p);
      WrapperIsPublished(p);
      DirectGives(w, paths, p, k);
    } else if k == "sdk-package-smoke" {
      var p :| SourceChange(paths, p) && IsSdkPackageSmokePath(p);
      DirectGives(w, paths, p, k);
    } else {
      var p, owner :| OwnedChange(w, paths, p, owner) && IsCodingAgentRuntimePath(p);
      assert k in OwnerKeys(w, p);
      DirectGives(w, paths, p, k);
    }
  }

  lemma {:induction false} CheckGives(w: World, paths: set<string>, k: string)
    requires AsksForCheck(w, paths, k)
    ensures k in Asked(w, paths)
  {
    hide IsWorkflowPath, IsCiHarnessScriptPath, IsFullWorkspacePath, IsRustPath, IsInstallPath, IsReleasePublishPath, Changed, Asked,
      MappedTestsFor, CheckedTestKeys, BehavioralTestsFor, IsShardOnePath, IsSdkPackageSmokePath, OwningPackage,
      IsUnscopedWrapperPath, IsCodingAgentRuntimePath, IsCodeIshPath, FullChange;
    if p, owner :| Checks(w, paths, p, owner) && k == "check:" + owner.name {
      assert k == CheckKey(owner.name) && k in CheckKeys(Some(owner));
      DirectGives(w, paths, p, k);
    } else if p :| k == "root-check" && UnownedChange(w, paths, p) {
      assert k in OwnerKeys(w, p);
      DirectGives(w, paths, p, k);
    } else {
      FullGives(w, paths, k);
    }
  }

  lemma {:induction false} HarnessGives(w: World, paths: set<string>, k: string)
    requires AsksForHarness(paths, k)
    ensures k in Asked(w, paths)
  {
    hide IsWorkflowPath, IsCiHarnessScriptPath, IsFullWorkspacePath, Changed, Asked, LoopKeys, IsTabWorkerSmokePath;
    if p :| k == "yaml-parse" && WorkflowChange(paths, p) {
      assert k in LaterKeys(p);
      PathGives(w, paths, p, k);
    } else {
      var p :| HarnessChange(paths, p);
      assert k in SELFTEST_KEYS + {"workflow-permissions"};
      PathGives(w, paths, p, k);
    }
  }

  // ---------------------------------------------------------------------- full changes, canaries, shards

  lemma {:induction false} FullChangeIs(paths: set<string>)
    ensures FullChange(paths) <==> FullWorkspace(Relevant(paths))
  {
    hide IsFullWorkspacePath, IsReleasePublishPath, IsReleaseHarnessScriptPath, IsUnscopedWrapperPath;
    forall p ensures Changed(paths, p) <==> p in Relevant(paths) { ChangedIsRelevant(paths, p); }
    ManifestIsNoDocument();
  }

  lemma {:induction false} ManifestIsNoDocument()
    ensures !IsDocOrChangelogPath("package.json")
  {
    var p := "package.json";
    assert p[9..][0] == 's' && p[0] == 'p';
  }

  lemma {:induction false} FullGives(w: World, paths: set<string>, k: string)
    requires FullChange(paths) && k in FullKeys(w)
    ensures k in Asked(w, paths)
  {
    hide FullChange, FullWorkspace, FullKeys, KeysOf, CanariesOf, GateKeys, Relevant;
    FullChangeIs(paths);
  }

  lemma {:induction false} ShardKeysAre(total: nat, n: nat, k: string)
    requires n <= total
    ensures k in ShardKeys(total, n) <==> exists j: nat :: 1 <= j <= n && k == ShardKey(j, total)
  {
    hide ShardKey;
    if n > 0 { ShardKeysAre(total, n - 1, k); }
  }

  lemma {:induction false} WorkspaceTestsAre(w: World, packages: seq<Package>, k: string)
    ensures k in WorkspaceTestKeys(w, packages) <==> exists q :: q in packages && k in PackageTestKeys(w, q)
  {
    hide PackageTestKeys;
    if packages != [] {
      var init, last := packages[..|packages| - 1], packages[|packages| - 1];
      WorkspaceTestsAre(w, init, k);
      assert packages == init + [last];
    }
  }

  lemma {:induction false} CanariesAre(paths: set<string>, risks: seq<RiskClass>, f: string)
    ensures f in CanariesOf(paths, risks) <==> exists c :: c in risks && f in c.canaries && Touches(paths, c)
  {
    hide Touches;
    if risks != [] {
      var init, last := risks[..|risks| - 1], risks[|risks| - 1];
      CanariesAre(paths, init, f);
      assert risks == init + [last];
    }
  }

  lemma {:induction false} CanaryIs(w: World, paths: set<string>, f: string)
    ensures Canary(w, paths, f) <==> f in CanariesOf(Relevant(paths), w.risks)
  {
    hide MatchesRiskClass, Changed, Relevant, CanariesOf;
    CanariesAre(Relevant(paths), w.risks, f);
    forall p ensures Changed(paths, p) <==> p in Relevant(paths) { ChangedIsRelevant(paths, p); }
  }

  lemma {:induction false} TestGives(w: World, paths: set<string>, f: string)
    requires AsksForTest(w, paths, f)
    ensures TestKey(f) in Asked(w, paths)
  {
    hide NamedTest, Canary, FullChange, Asked, IsEmbeddedDocsSourcePath, FullKeys;
    if p :| NamedTest(w, paths, p, f) {
      NamedGives(w, paths, p, f);
    } else if Canary(w, paths, f) {
      CanaryGives(w, paths, f);
    } else if p :| f == GATE_TEST && p in paths && IsEmbeddedDocsSourcePath(p) {
      GateGives(w, paths, p);
    } else {
      var q :| q in w.packages && q.hasTest && q.name != "@vib-rato/coding-agent" && f == q.name;
      assert TestKey(f) in PackageTestKeys(w, q);
      PackageGives(w, paths, q, TestKey(f));
    }
  }

  lemma {:induction false} NamedGives(w: World, paths: set<string>, p: string, f: string)
    requires NamedTest(w, paths, p, f)
    ensures TestKey(f) in Asked(w, paths)
  {
    hide IsWorkflowPath, IsCiHarnessScriptPath, IsFullWorkspacePath, IsRustPath, IsInstallPath, IsReleasePublishPath, Changed, Asked,
      MappedTestsFor, OwnerKeys, IsShardOnePath, IsSdkPackageSmokePath, OwningPackage, TestKey, ShardKey, CheckKeys;
    if SourceChange(paths, p) && f in MappedTestsFor(w, p) {
      assert TestKey(f) in CheckedTestKeys(w, MappedTestsFor(w, p));
    } else {
      assert TestKey(f) in CheckedTestKeys(w, BehavioralTestsFor(w, p));
    }
    DirectGives(w, paths, p, TestKey(f));
  }

  lemma {:induction false} CanaryGives(w: World, paths: set<string>, f: string)
    requires Canary(w, paths, f)
    ensures TestKey(f) in Asked(w, paths)
  {
    hide Canary, CanariesOf, FullWorkspace, FullKeys, KeysOf, GateKeys, Relevant, TestKey;
    CanaryIs(w, paths, f);
  }

  lemma {:induction false} GateGives(w: World, paths: set<string>, p: string)
    requires p in paths && IsEmbeddedDocsSourcePath(p)
    ensures TestKey(GATE_TEST) in Asked(w, paths)
  {
    hide IsEmbeddedDocsSourcePath, CanariesOf, FullWorkspace, FullKeys, KeysOf, Relevant, TestKey;
  }

  lemma {:induction false} PackageGives(w: World, paths: set<string>, q: Package, k: string)
    requires FullChange(paths) && q in w.packages && k in PackageTestKeys(w, q)
    ensures k in Asked(w, paths)
  {
    hide FullChange, PackageTestKeys, Asked, WorkspaceTestKeys;
    WorkspaceTestsAre(w, w.packages, k);
    FullGives(w, paths, k);
  }

  lemma {:induction false} ShardGives(w: World, paths: set<string>, k: string)
    requires AsksForShard(w, paths, k)
    ensures k in Asked(w, paths)
  {
    hide FullChange, Asked, ShardOneChange, ShardKey, ShardKeys, ShardTask;
    forall n: nat ensures ShardTask(n, w.shards) == ShardKey(n, w.shards) { ShardTaskIs(n, w.shards); }
    if ShardOneChange(w, paths) && k in {ShardKey(1, w.shards), SDK_HOST_KEY} {
      ShardOneGives(w, paths, k);
    } else {
      var q :| q in w.packages && q.hasTest && q.name == "@vib-rato/coding-agent";
      ShardKeysAre(w.shards, w.shards, k);
      PackageGives(w, paths, q, k);
    }
  }

  lemma {:induction false} ShardOneGives(w: World, paths: set<string>, k: string)
    requires ShardOneChange(w, paths) && k in {ShardKey(1, w.shards), SDK_HOST_KEY}
    ensures k in Asked(w, paths)
  {
    hide IsWorkflowPath, IsCiHarnessScriptPath, IsFullWorkspacePath, IsRustPath, IsInstallPath, IsReleasePublishPath, Changed, Asked,
      MappedTestsFor, OwnerKeys, IsShardOnePath, IsSdkPackageSmokePath, OwningPackage, ShardKey, CheckKeys, CheckedTestKeys;
    var p, c :| SourceChange(paths, p) && c in w.shardOne && IsCovered(p, c);
    CoveredIs(w, p);
    DirectGives(w, paths, p, k);
  }

  lemma {:induction false} FullHasReason(w: World, paths: set<string>, k: string)
    requires FullChange(paths) && k in FullKeys(w)
    ensures AsksFor(w, paths, k)
  {
    hide FullChange, WorkspaceTestKeys, AsksForRust, AsksForInstall, AsksForRelease, AsksForSmoke, AsksForHarness, ShardOneChange,
      Canary, ShardKey, ShardTask, ShardKeys, UnownedChange, Checks, AsksForTest;
    if k in WorkspaceTestKeys(w, w.packages) {
      WorkspaceTestsAre(w, w.packages, k);
      var q :| q in w.packages && k in PackageTestKeys(w, q);
      if q.name == "@vib-rato/coding-agent" {
        forall n: nat ensures ShardTask(n, w.shards) == ShardKey(n, w.shards) { ShardTaskIs(n, w.shards); }
        ShardKeysAre(w.shards, w.shards, k);
        assert TestsCodingAgent(w, paths);
      } else {
        PackageHasReason(w, paths, q);
      }
    }
  }

  lemma {:induction false} PackageHasReason(w: World, paths: set<string>, q: Package)
    requires FullChange(paths) && q in w.packages && q.hasTest && q.name != "@vib-rato/coding-agent"
    ensures AsksFor(w, paths, TestKey(q.name))
  {
    hide FullChange, AsksFor, NamedTest, Canary;
    TestHasReason(w, paths, q.name);
  }

  // ---------------------------------------------------------------------- the plan, task by task

  lemma {:induction false} AskedHasReason(w: World, paths: set<string>, k: string)
    requires k in Asked(w, paths)
    ensures AsksFor(w, paths, k)
  {
    hide AsksFor, FullChange, FullKeys, CanariesOf, PathKeys, FullWorkspace, IsEmbeddedDocsSourcePath, TestKey, NamedTest, Canary;
    FullChangeIs(paths);
    if k in KeysOf(w, Relevant(paths)) {
      var p :| p in Relevant(paths) && k in PathKeys(w, p);
      PathHasReason(w, paths, p, k);
    } else if FullWorkspace(Relevant(paths)) && k in FullKeys(w) {
      FullHasReason(w, paths, k);
    } else if k in GateKeys(paths) {
      TestHasReason(w, paths, GATE_TEST);
    } else {
      var f :| f in CanariesOf(Relevant(paths), w.risks) && k == TestKey(f);
      CanaryIs(w, paths, f);
      TestHasReason(w, paths, f);
    }
  }

  lemma {:induction false} AskedIff(w: World, paths: set<string>, k: string)
    ensures k in Asked(w, paths) <==> AsksFor(w, paths, k)
  {
    hide Asked, AsksForRust, AsksForInstall, AsksForRelease, AsksForSmoke, AsksForCheck, AsksForHarness, AsksForTest, AsksForShard,
      FullChange;
    if k in Asked(w, paths) { AskedHasReason(w, paths, k); }
    if AsksForRust(paths, k) { RustGives(w, paths, k); }
    if AsksForInstall(paths, k) { InstallGives(w, paths, k); }
    if AsksForRelease(paths, k) { ReleaseGives(w, paths, k); }
    if AsksForSmoke(w, paths, k) { SmokeGives(w, paths, k); }
    if AsksForCheck(w, paths, k) { CheckGives(w, paths, k); }
    if AsksForHarness(paths, k) { HarnessGives(w, paths, k); }
    if AsksForShard(w, paths, k) { ShardGives(w, paths, k); }
    if file :| k == "test:" + file && AsksForTest(w, paths, file) { TestGives(w, paths, file); }
    if FullChange(paths) && k in FullKeys(w) { FullGives(w, paths, k); }
  }

  /**
   * A task is planned exactly if a changed path asks for it, or it is the build of the native addon and a task that is
   * asked for needs that.
   */
  lemma {:induction false} PlannedIff(w: World, paths: set<string>, k: string)
    requires Plan(w, paths).Some?
    ensures k in Plan(w, paths).value <==>
      AsksFor(w, paths, k) || (k == "native-linux-x64" && exists t :: AsksFor(w, paths, t) && TaskNeedsNative(t))
  {
    hide Asked, AsksFor, TaskNeedsNative, CanariesOf;
    forall t ensures t in Asked(w, paths) <==> AsksFor(w, paths, t) { AskedIff(w, paths, t); }
    AskedNotNative(w, paths);
  }

  /** And there is a plan exactly if the changed paths touch the risk classes of no more than eight canaries. */
  lemma {:induction false} PlannedUnlessTooMany(w: World, paths: set<string>, canaries: set<string>)
    requires forall f :: f in canaries <==> Canary(w, paths, f)
    ensures Plan(w, paths).Some? <==> |canaries| <= 8
  {
    hide Asked, CanariesOf, Canary, Relevant, EnsureNativeBuild;
    forall f ensures Canary(w, paths, f) <==> f in CanariesOf(Relevant(paths), w.risks) { CanaryIs(w, paths, f); }
    assert canaries == CanariesOf(Relevant(paths), w.risks);
  }

  // ---------------------------------------------------------------------- the test that a path names

  /** A test file of this base name, inside this directory. */
  ghost predicate IsTestOf(file: string, base: string, scope: string) {
    scope <= file && (BaseName(file) == base + ".test.ts" || BaseName(file) == base + ".test.tsx")
  }

  /** `base` is the name of the path without its directory and without a source extension, if it has one. */
  ghost predicate IsBaseOf(p: string, base: string) {
    var name := BaseName(p);
    (exists ext :: IsExtension(ext) && name == base + ext) || (base == name && forall ext :: IsExtension(ext) ==> !EndsWith(name, ext))
  }

  ghost predicate IsExtension(ext: string) {
    ext == ".ts" || ext == ".js" || ext in [".tsx", ".jsx", ".mts", ".cts"]
  }

  /** The directory of the package of a path, or else of the path itself. */
  ghost function ScopeOf(w: World, p: string): (scope: string) {
    var owner := OwningPackage(p, w.packages);
    (if owner.Some? then owner.value.dir else DirName(p)) + "/"
  }

  /** A path is its directory, a slash and its name. */
  lemma {:induction false} DirAndBase(p: string, dir: string, name: string)
    requires '/' !in name
    ensures p == name ==> BaseName(p) == name && DirName(p) == "."
    ensures p == "/" + name ==> BaseName(p) == name && DirName(p) == "/"
    ensures p == dir + "/" + name && dir != "" ==> BaseName(p) == name && DirName(p) == dir
  {
    if p == "/" + name {
      assert p[1..] == name;
      LastIs(p, '/', 0);
    }
    if p == dir + "/" + name {
      assert p[|dir| + 1..] == name && p[..|dir|] == dir;
      LastIs(p, '/', |dir|);
    }
  }

  /** The only place of a test of that name in that directory. */
  ghost predicate OnlyTest(files: seq<string>, base: string, scope: string, i: nat) {
    i < |files| && forall j :: 0 <= j < |files| ==> (IsTestOf(files[j], base, scope) <==> j == i)
  }

  lemma {:induction false} StrippedIsBase(p: string)
    ensures IsBaseOf(p, StripExtension(BaseName(p)))
  {
    hide BaseName, IsExtension, EndsWithAny, EndsWith;
    var name := BaseName(p);
    if EndsWith(name, ".ts") {
      Without(name, ".ts", 3);
    } else if EndsWith(name, ".js") {
      Without(name, ".js", 3);
    } else if EndsWithAny(name, [".tsx", ".jsx", ".mts", ".cts"]) {
      var ext := LongExtension(name);
      Without(name, ext, 4);
    } else {
      NoExtension(name);
    }
  }

  lemma {:induction false} Without(name: string, ext: string, n: nat)
    requires EndsWith(name, ext) && |ext| == n && (ext == ".ts" || ext == ".js" || ext in [".tsx", ".jsx", ".mts", ".cts"])
    ensures n <= |name| && IsExtension(ext) && name == name[..|name| - n] + ext
  {
  }

  lemma {:induction false} LongExtension(name: string) returns (ext: string)
    requires EndsWithAny(name, [".tsx", ".jsx", ".mts", ".cts"])
    ensures ext in [".tsx", ".jsx", ".mts", ".cts"] && |ext| == 4 && EndsWith(name, ext)
  {
    hide EndsWith;
    ext :| ext in [".tsx", ".jsx", ".mts", ".cts"] && EndsWith(name, ext);
  }

  lemma {:induction false} NoExtension(name: string)
    requires !EndsWith(name, ".ts") && !EndsWith(name, ".js") && !EndsWithAny(name, [".tsx", ".jsx", ".mts", ".cts"])
    ensures forall ext :: IsExtension(ext) ==> !EndsWith(name, ext)
  {
    hide EndsWith;
  }

  lemma {:induction false} NoneMatches(files: seq<string>, base: string, scope: string)
    ensures Matching(files, base, scope) == [] <==> forall j :: 0 <= j < |files| ==> !IsTestOf(files[j], base, scope)
  {
    hide BaseName;
    if files != [] {
      NoneMatches(files[1..], base, scope);
      assert forall j :: 0 < j < |files| ==> files[j] == files[1..][j - 1];
    }
  }

  lemma {:induction false} OneMatches(files: seq<string>, base: string, scope: string)
    ensures |Matching(files, base, scope)| == 1 <==> exists i: nat :: OnlyTest(files, base, scope, i)
    ensures forall i: nat :: OnlyTest(files, base, scope, i) ==> Matching(files, base, scope) == [files[i]]
  {
    hide IsTestOf;
    if files != [] {
      var rest := files[1..];
      assert forall j :: 0 < j < |files| ==> files[j] == rest[j - 1];
      OneMatches(rest, base, scope);
      NoneMatches(rest, base, scope);
      FirstMatches(files, base, scope);
      if IsTestOf(files[0], base, scope) {
        if Matching(rest, base, scope) == [] { assert OnlyTest(files, base, scope, 0); }
        forall i: nat | OnlyTest(files, base, scope, i) ensures i == 0 { assert IsTestOf(files[0], base, scope); }
      } else {
        forall i: nat | OnlyTest(files, base, scope, i) ensures i > 0 && OnlyTest(rest, base, scope, i - 1) { }
        forall i: nat | OnlyTest(rest, base, scope, i) ensures OnlyTest(files, base, scope, i + 1) { }
      }
    }
  }

  lemma {:induction false} FirstMatches(files: seq<string>, base: string, scope: string)
    requires files != []
    ensures Matching(files, base, scope) ==
      (if IsTestOf(files[0], base, scope) then [files[0]] else []) + Matching(files[1..], base, scope)
  {
    hide BaseName;
  }

  /** A test names itself; any other path names the one test of its base name in its package or directory, if there is one. */
  lemma {:induction false} MappedTestsAre(w: World, p: string) returns (base: string)
    ensures IsBaseOf(p, base)
    ensures IsTestFilePath(p) ==> MappedTestsFor(w, p) == if p in w.testFiles then [p] else []
    ensures !IsTestFilePath(p) && base != "" ==> forall i: nat :: OnlyTest(w.testFiles, base, ScopeOf(w, p), i) ==>
      MappedTestsFor(w, p) == [w.testFiles[i]]
    ensures !IsTestFilePath(p) && (base == "" || !exists i: nat :: OnlyTest(w.testFiles, base, ScopeOf(w, p), i)) ==>
      MappedTestsFor(w, p) == []
  {
    hide IsTestFilePath, IsBaseOf, BaseName, StripExtension, OnlyTest, OwningPackage, DirName, Matching;
    base := StripExtension(BaseName(p));
    StrippedIsBase(p);
    OneMatches(w.testFiles, base, ScopeOf(w, p));
  }

  /** The package of a path is the first one in whose directory it is. */
  lemma {:induction false} OwnerIsFirst(p: string, packages: seq<Package>) returns (n: nat)
    ensures n <= |packages| && forall j :: 0 <= j < n ==> !IsIn(p, packages[j].dir)
    ensures if n == |packages| then OwningPackage(p, packages) == None
      else IsIn(p, packages[n].dir) && OwningPackage(p, packages) == Some(packages[n])
  {
    if packages == [] || IsIn(p, packages[0].dir) {
      n := 0;
    } else {
      var m := OwnerIsFirst(p, packages[1..]);
      n := m + 1;
      assert forall j :: 0 < j < |packages| ==> packages[j] == packages[1..][j - 1];
    }
  }

  ghost predicate IsIn(p: string, dir: string) {
    p == dir || dir + "/" <= p
  }

  // ---------------------------------------------------------------------- one changed path

  lemma {:induction false} IsRustSource(p: string)
    requires p == "crates/pi-ast/src/lib.rs"
    ensures RustChange({p}, p)
  {
    assert p[..7] == "crates/";
    assert p[0] == 'c' && p[21..][0] == '.' && |p| == 24 && p[22] == 'r';
    assert p[|p| - 3..][0] == '.' && p[|p| - 3..][1] == 'r';
  }

  /** A change of one crate alone asks for the Rust check and tests. */
  lemma {:induction false} CrateIsChecked(w: World)
    ensures var paths := {"crates/pi-ast/src/lib.rs"};
      Plan(w, paths).Some? ==> "rust-check" in Plan(w, paths).value && "rust-test" in Plan(w, paths).value
  {
    hide RustChange, Plan, AsksForInstall, AsksForRelease, AsksForSmoke, AsksForCheck, AsksForHarness, AsksForTest, AsksForShard,
      FullChange;
    var p := "crates/pi-ast/src/lib.rs";
    IsRustSource(p);
    if Plan(w, {p}).Some? {
      PlannedIff(w, {p}, "rust-check");
      PlannedIff(w, {p}, "rust-test");
    }
  }

  // ---------------------------------------------------------------------- risk classes

  /** A name without what follows its last dot, unless that is all of it. */
  lemma {:induction false} StemIs(segment: string, stem: string, ext: string)
    ensures segment == stem + "." + ext && stem != "" && '.' !in ext ==> WithoutExtension(segment) == stem
    ensures '.' !in segment || ('.' !in segment[1..] && segment[0] == '.') ==> WithoutExtension(segment) == segment
  {
    if segment == stem + "." + ext && '.' !in ext {
      assert segment[|stem|] == '.' && segment[|stem| + 1..] == ext;
      LastIs(segment, '.', |stem|);
      assert segment[..|stem|] == stem;
    }
    if '.' in segment && '.' !in segment[1..] && segment[0] == '.' { LastIs(segment, '.', 0); }
  }

  lemma {:induction false} LastIs(s: string, c: char, n: nat)
    requires n < |s| && s[n] == c && c !in s[n + 1..]
    ensures LastIndexOf(s, c) == n
  {
    if n < |s| - 1 {
      var init := s[..|s| - 1];
      assert s[|s| - 1] == s[n + 1..][|s| - n - 2] && init[n + 1..] == s[n + 1..][..|s| - n - 2];
      LastIs(init, c, n);
    }
  }

  /** What touches a risk class: its exact paths, what is in its directories, its suffixes, and its names as a segment. */
  lemma {:induction false} TouchesClass(c: RiskClass, p: string, entry: string, rest: string, more: string)
    ensures entry in c.exact && p == entry ==> MatchesRiskClass(p, c)
    ensures entry in c.prefixes && (p == entry || p == entry + "/" + rest) ==> MatchesRiskClass(p, c)
    ensures entry in c.prefixes && EndsWith(entry, "/") && p == entry + rest ==> MatchesRiskClass(p, c)
    ensures entry in c.suffixes && p == rest + entry ==> MatchesRiskClass(p, c)
    ensures c.exact == c.prefixes == c.suffixes == c.segments == [] ==> !MatchesRiskClass(p, c)
  {
    hide Splitting.Split;
    if entry in c.suffixes && p == rest + entry { assert EndsWith(p, entry); }
    if entry in c.prefixes && p == entry + "/" + rest {
      assert entry + "/" <= p && entry <= p;
    }
  }

  lemma {:induction false} TouchesSegment(c: RiskClass, p: string, name: string, before: string, rest: string, ext: string)
    requires name in c.segments && '/' !in name && '/' !in ext && '.' !in ext && name != ""
    requires p == before + "/" + name + "/" + rest || p == before + "/" + name || p == before + "/" + name + "." + ext
    ensures MatchesRiskClass(p, c)
  {
    hide Splitting.Split, WithoutExtension;
    StemIs(name + "." + ext, name, ext);
    if p == before + "/" + name + "/" + rest {
      Splitting.SplitCut(before + "/" + name, '/', rest);
      LastPart(before, name);
      var parts := Splitting.Split(before + "/" + name, '/');
      assert parts[|parts| - 1] in Splitting.Split(p, '/');
    } else if p == before + "/" + name {
      LastPart(before, name);
    } else {
      assert p == before + "/" + (name + "." + ext);
      LastPart(before, name + "." + ext);
    }
  }

  lemma {:induction false} LastPart(before: string, name: string)
    requires '/' !in name
    ensures var parts := Splitting.Split(before + "/" + name, '/'); parts[|parts| - 1] == name && name in parts
  {
    hide Splitting.Split;
    Splitting.SplitCut(before, '/', name);
    Splitting.OnePart(name, '/');
  }
}
