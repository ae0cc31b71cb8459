/**
 * The pull-request planner: which CI tasks a set of changed paths asks for. Tasks are known by their keys; adding a key
 * that is there changes nothing. The tables of tests and risk classes are data, and the plan holds for any of them.
 */
module AffectedPlan {
  import opened Common
  import opened Splitting
  import Finite
  import Versions

  // ---------------------------------------------------------------------- paths

  predicate StartsWith(s: string, prefix: string) {
    prefix <= s
  }

  predicate EndsWith(s: string, suffix: string) {
    |suffix| <= |s| && s[|s| - |suffix|..] == suffix
  }

  predicate EndsWithAny(s: string, suffixes: seq<string>) {
    exists suffix :: suffix in suffixes && EndsWith(s, suffix)
  }

  function LastIndexOf(s: string, c: char): (k: int)
    ensures -1 <= k < |s| && (k == -1 ==> c !in s) && (k != -1 ==> s[k] == c && c !in s[k + 1..])
  {
    if s == "" then -1
    else if s[|s| - 1] == c then |s| - 1
    else
      var init := s[..|s| - 1];
      var k := LastIndexOf(init, c);
      assert s == init + [s[|s| - 1]] && (k != -1 ==> s[k + 1..] == init[k + 1..] + [s[|s| - 1]]);
      k
  }

  function BaseName(s: string): (r: string) {
    s[LastIndexOf(s, '/') + 1..]
  }

  function DirName(s: string): (r: string) {
    var k := LastIndexOf(s, '/');
    if k == -1 then "." else if k == 0 then "/" else s[..k]
  }

  predicate IsDocOrChangelogPath(p: string) {
    EndsWith(p, ".md") || StartsWith(p, "docs/") || StartsWith(p, ".vib/")
  }

  predicate IsEmbeddedDocsSourcePath(p: string) {
    (StartsWith(p, "docs/") && EndsWith(p, ".md")) || p == "packages/coding-agent/src/internal-urls/docs-index.generated.ts"
  }

  predicate IsFullWorkspacePath(p: string) {
    p in ["package.json", "bunfig.toml", "biome.json", "tsconfig.json", "tsconfig.base.json", "tsconfig.tools.json"]
  }

  predicate IsReleaseHarnessScriptPath(p: string) {
    p in ["scripts/ci-dev-affected.ts", "scripts/ci-release-publish.ts", "scripts/install-tests/tarball.dockerfile",
          "scripts/release-publish-order.test.ts", "scripts/sync-versions.ts"]
  }

  predicate IsUnscopedWrapperPath(p: string) {
    StartsWith(p, "packages/vibrato-cli/")
  }

  predicate IsReleasePublishPath(p: string) {
    p == "scripts/ci-release-publish.ts" || p == "scripts/release-evidence.ts" || IsUnscopedWrapperPath(p) ||
    StartsWith(p, "packages/natives-") || p == "packages/natives/package.json"
  }

  predicate IsWorkflowPath(p: string) {
    StartsWith(p, ".github/workflows/")
  }

  predicate IsCiHarnessScriptPath(p: string) {
    p in ["scripts/ci-dev-affected.ts", "scripts/ci-dev-affected.test.ts", "scripts/run-bun-test-files.ts",
          "scripts/run-bun-test-files.test.ts", "scripts/dev-ci-guard-topology.test.ts", "scripts/check-workflow-yaml.ts",
          "scripts/check-workflow-permissions.ts", "scripts/check-workflow-permissions.test.ts",
          "scripts/ci-risk-canary-manifest.ts", "scripts/ci-risk-canary-manifest.test.ts",
          "scripts/ci-virtual-integration.ts", "scripts/ci-virtual-integration.test.ts"]
  }

  predicate IsRustPath(p: string) {
    StartsWith(p, "crates/") || StartsWith(p, ".cargo/") ||
    BaseName(p) in ["Cargo.toml", "Cargo.lock", "rust-toolchain", "rust-toolchain.toml", "rustfmt.toml", ".rustfmt.toml",
                    "clippy.toml", ".clippy.toml"]
  }

  predicate IsInstallPath(p: string) {
    StartsWith(p, "scripts/install") || p == "Dockerfile" || p == "Dockerfile.dockerignore"
  }

  predicate IsSdkPackageSmokePath(p: string) {
    StartsWith(p, "packages/coding-agent/src/sdk/client/")
  }

  predicate IsCodingAgentRuntimePath(p: string) {
    StartsWith(p, "packages/coding-agent/") || StartsWith(p, "packages/agent/") || StartsWith(p, "packages/ai/")
  }

  predicate IsTestFilePath(p: string) {
    EndsWithAny(p, [".test.ts", ".test.tsx"])
  }

  predicate IsCodeIshPath(p: string) {
    EndsWithAny(p, [".ts", ".tsx", ".js", ".jsx", ".mts", ".cts", ".mjs", ".cjs", ".json", ".jsonc", ".toml", ".yaml", ".yml", ".sh"]) ||
    p == "bun.lock"
  }

  predicate IsTabWorkerSmokePath(p: string) {
    (exists prefix :: prefix in ["packages/coding-agent/src/tools/browser/", "packages/coding-agent/src/tools/puppeteer/",
      "packages/coding-agent/src/eval/js/", "packages/coding-agent/src/web/scrapers/", "packages/coding-agent/src/utils/",
      "packages/utils/src/", "packages/natives/"] && StartsWith(p, prefix)) ||
    p in ["packages/coding-agent/src/tools/tool-errors.ts", "packages/coding-agent/src/tools/path-utils.ts",
      "packages/coding-agent/src/cli.ts", "packages/coding-agent/scripts/build-binary.ts",
      "packages/coding-agent/scripts/compile-args.ts", "scripts/ci-build-native.ts"]
  }

  /** The root manifest changed, and everything else is release harness. */
  predicate IsRootPackageReleaseHarnessOnly(paths: set<string>) {
    "package.json" in paths &&
    forall p :: p in paths ==>
      p == "package.json" || IsReleasePublishPath(p) || IsReleaseHarnessScriptPath(p) || IsUnscopedWrapperPath(p)
  }

  // ---------------------------------------------------------------------- what one path asks for

  datatype Package = Package(name: string, dir: string, hasCheck: bool, hasTest: bool)

  datatype RiskClass = RiskClass(exact: seq<string>, prefixes: seq<string>, suffixes: seq<string>, segments: seq<string>,
                                 canaries: seq<string>)

  /** `existing` are the files on disk, looked at only if `validate` is set. */
  datatype World = World(packages: seq<Package>, testFiles: seq<string>, validate: bool, existing: set<string>, shards: nat,
                         behavioral: map<string, seq<string>>, shardOne: seq<string>, risks: seq<RiskClass>)

  function OwningPackage(p: string, packages: seq<Package>): (r: Option<Package>) {
    if packages == [] then None
    else if p == packages[0].dir || StartsWith(p, packages[0].dir + "/") then Some(packages[0])
    else OwningPackage(p, packages[1..])
  }

  function StripExtension(name: string): (r: string) {
    if EndsWith(name, ".ts") || EndsWith(name, ".js") then name[..|name| - 3]
    else if EndsWithAny(name, [".tsx", ".jsx", ".mts", ".cts"]) && |name| >= 4 then name[..|name| - 4]
    else name
  }

  function Matching(files: seq<string>, base: string, scope: string): (r: seq<string>) {
    if files == [] then []
    else
      (if BaseName(files[0]) in [base + ".test.ts", base + ".test.tsx"] && StartsWith(files[0], scope) then [files[0]] else []) +
      Matching(files[1..], base, scope)
  }

  /** The test that a path names directly: itself, or the one test of its base name in its package or directory. */
  function MappedTestsFor(w: World, p: string): (r: seq<string>) {
    if IsTestFilePath(p) then (if p in w.testFiles then [p] else [])
    else
      var base := StripExtension(BaseName(p));
      if base == "" then []
      else
        var owner := OwningPackage(p, w.packages);
        var scope := (if owner.Some? then owner.value.dir else DirName(p)) + "/";
        var matches := Matching(w.testFiles, base, scope);
        if |matches| == 1 then matches else []
  }

  function BehavioralTestsFor(w: World, p: string): (r: seq<string>) {
    if p in w.behavioral then w.behavioral[p] else []
  }

  predicate IsShardOnePath(w: World, p: string) {
    exists c :: c in w.shardOne && (if EndsWith(c, "/") then StartsWith(p, c) else p == c)
  }

  function TestKey(file: string): (k: string) {
    "test:" + file
  }

  function CheckedTestKeys(w: World, files: seq<string>): (r: set<string>) {
    set f | f in files && (w.validate ==> f in w.existing) :: TestKey(f)
  }

  function CheckKey(name: string): (k: string) {
    "check:" + name
  }

  function ShardKey(shard: nat, total: nat): (k: string) {
    "test:@vib-rato/coding-agent:shard-" + Versions.Decimal(shard) + "-of-" + Versions.Decimal(total)
  }

  const SDK_HOST_KEY := "test:@vib-rato/coding-agent:sdk-production-host-isolated"
  const GATE_TEST := "packages/coding-agent/test/docs-index-lazy.test.ts"

  const RELEASE_KEYS := {"release-publish-contract", "release-publish-dry-run", TestKey("scripts/release-evidence.test.ts")}

  function CheckKeys(owner: Option<Package>): (r: set<string>) {
    if owner.Some? && owner.value.hasCheck then {CheckKey(owner.value.name)} else {}
  }

  function OwnerKeys(w: World, p: string): (r: set<string>) {
    var owner := OwningPackage(p, w.packages);
    if owner.Some? then
      CheckKeys(owner) + (if IsCodingAgentRuntimePath(p) then {"cli-smoke"} else {}) +
      (if IsUnscopedWrapperPath(p) then {"wrapper-version"} else {})
    else if IsCodeIshPath(p) then {"root-check"} else {}
  }

  /** The tasks the loop over the paths adds for one of them, which is not a full-workspace path. */
  function LoopKeys(w: World, p: string): (r: set<string>) {
    if IsWorkflowPath(p) || IsCiHarnessScriptPath(p) then {}
    else if IsRustPath(p) then {"rust-check", "rust-test"} + CheckedTestKeys(w, BehavioralTestsFor(w, p))
    else if IsInstallPath(p) then {"install-methods"}
    else
      (if IsReleasePublishPath(p) then RELEASE_KEYS + (if IsUnscopedWrapperPath(p) then {"wrapper-version"} else {}) else {}) +
      (if IsSdkPackageSmokePath(p) then {"sdk-package-smoke"} + CheckKeys(OwningPackage(p, w.packages)) else {}) +
      CheckedTestKeys(w, MappedTestsFor(w, p)) + CheckedTestKeys(w, BehavioralTestsFor(w, p)) +
      (if IsShardOnePath(w, p) then {ShardKey(1, w.shards), SDK_HOST_KEY} else {}) +
      (if MappedTestsFor(w, p) != [] then {} else OwnerKeys(w, p))
  }

  const SELFTEST_KEYS := {"ci-selftest", "ci-dry-run"}

  /** The tasks added after the loop for one path: workflow checks and the compiled-worker smoke. */
  function LaterKeys(p: string): (r: set<string>) {
    (if IsWorkflowPath(p) then {"yaml-parse"} else {}) +
    (if IsWorkflowPath(p) || IsCiHarnessScriptPath(p) then SELFTEST_KEYS + {"workflow-permissions"} else {})
  }

  function SmokeKeys(p: string): (r: set<string>) {
    if IsTabWorkerSmokePath(p) then {"install-methods"} else {}
  }

  function PathKeys(w: World, p: string): (r: set<string>) {
    (if IsFullWorkspacePath(p) then {} else LoopKeys(w, p) + LaterKeys(p)) + SmokeKeys(p)
  }

  ghost function KeysOf(w: World, paths: set<string>): (r: set<string>) {
    set p, k | p in paths && k in PathKeys(w, p) :: k
  }

  // ---------------------------------------------------------------------- canaries

  const MAX_CANARY_TESTS := 8

  function WithoutExtension(segment: string): (r: string) {
    if LastIndexOf(segment, '.') > 0 then segment[..LastIndexOf(segment, '.')] else segment
  }

  predicate MatchesRiskClass(p: string, c: RiskClass) {
    p in c.exact ||
    (exists prefix :: prefix in c.prefixes &&
      (p == prefix || StartsWith(p, if EndsWith(prefix, "/") then prefix else prefix + "/"))) ||
    (exists suffix :: suffix in c.suffixes && EndsWith(p, suffix)) ||
    (exists segment, part :: segment in c.segments && part in Split(p, '/') && (part == segment || WithoutExtension(part) == segment))
  }

  ghost predicate Touches(paths: set<string>, c: RiskClass) {
    exists p :: p in paths && MatchesRiskClass(p, c)
  }

  ghost function CanariesOf(paths: set<string>, risks: seq<RiskClass>): (r: set<string>) {
    if risks == [] then {}
    else
      var last := risks[|risks| - 1];
      CanariesOf(paths, risks[..|risks| - 1]) + (if Touches(paths, last) then SetOf(last.canaries) else {})
  }

  lemma {:induction false} MoreCanaries(a: set<string>, b: set<string>, risks: seq<RiskClass>)
    requires a <= b
    ensures CanariesOf(a, risks) <= CanariesOf(b, risks)
  {
    hide MatchesRiskClass;
    if risks != [] { MoreCanaries(a, b, risks[..|risks| - 1]); }
  }

  lemma {:induction false} FewerCanaries(paths: set<string>, risks: seq<RiskClass>, n: nat)
    requires n <= |risks|
    ensures CanariesOf(paths, risks[..n]) <= CanariesOf(paths, risks)
    decreases |risks|
  {
    hide Touches;
    if n < |risks| {
      FewerCanaries(paths, risks[..|risks| - 1], n);
      assert risks[..|risks| - 1][..n] == risks[..n];
    } else {
      assert risks[..n] == risks;
    }
  }

  function SetOf(s: seq<string>): (r: set<string>) {
    set x | x in s
  }

  ghost function Bounded(canaries: set<string>): (r: Option<set<string>>) {
    if |canaries| <= MAX_CANARY_TESTS then Some(canaries) else None
  }

  method AddCanaries(selected: set<string>, canaries: seq<string>) returns (r: Option<set<string>>)
    requires |selected| <= MAX_CANARY_TESTS
    ensures r == Bounded(selected + SetOf(canaries))
  {
    var more := selected;
    for j := 0 to |canaries|
      invariant more == selected + SetOf(canaries[..j]) && |more| <= MAX_CANARY_TESTS
    {
      assert canaries[..j + 1] == canaries[..j] + [canaries[j]];
      more := more + {canaries[j]};
      if |more| > MAX_CANARY_TESTS {
        Finite.SubsetSize(more, selected + SetOf(canaries));
        return None;
      }
    }
    assert canaries[..|canaries|] == canaries;
    return Some(more);
  }

  /** The canaries of every class that a path touches; more than the limit is an error. */
  method SelectCanaryTests(paths: seq<string>, risks: seq<RiskClass>) returns (r: Option<set<string>>)
    ensures r == Bounded(CanariesOf(SetOf(paths), risks))
  {
    hide MatchesRiskClass;
    ghost var all := SetOf(paths);
    var selected: set<string> := {};
    for i := 0 to |risks|
      invariant selected == CanariesOf(all, risks[..i]) && |selected| <= MAX_CANARY_TESTS
    {
      assert risks[..i + 1][..i] == risks[..i];
      if exists p :: p in paths && MatchesRiskClass(p, risks[i]) {
        var more := AddCanaries(selected, risks[i].canaries);
        if more.None? {
          FewerCanaries(all, risks, i + 1);
          Finite.SubsetSize(CanariesOf(all, risks[..i + 1]), CanariesOf(all, risks));
          return None;
        }
        selected := more.value;
      }
    }
    assert risks[..|risks|] == risks;
    return Some(selected);
  }

  // ---------------------------------------------------------------------- the plan

  ghost predicate FullWorkspace(relevant: set<string>) {
    (exists p :: p in relevant && IsFullWorkspacePath(p)) && !IsRootPackageReleaseHarnessOnly(relevant)
  }

  function ShardKeys(total: nat, n: nat): (r: set<string>)
    requires n <= total
  {
    if n == 0 then {} else ShardKeys(total, n - 1) + {ShardKey(n, total)}
  }

  function PackageTestKeys(w: World, p: Package): (r: set<string>) {
    if !p.hasTest then {}
    else if p.name == "@vib-rato/coding-agent" then ShardKeys(w.shards, w.shards) + {SDK_HOST_KEY}
    else {TestKey(p.name)}
  }

  function WorkspaceTestKeys(w: World, packages: seq<Package>): (r: set<string>) {
    if packages == [] then {} else WorkspaceTestKeys(w, packages[..|packages| - 1]) + PackageTestKeys(w, packages[|packages| - 1])
  }

  const NATIVE_KEY := "native-linux-x64"
  const NATIVE_BUILD_KEYS := {"native-build", "native-linux-x64"}

  function FullKeys(w: World): (r: set<string>) {
    {"root-check", NATIVE_KEY, "root-test:release"} + WorkspaceTestKeys(w, w.packages)
  }

  predicate TaskNeedsNative(key: string) {
    key in ["python-test", "root-test", "root-test:release", "release-publish-contract", "root-check",
      "check:@vib-rato/coding-agent", "cli-smoke", "runtime-check", "wrapper-version", "deep-interview-definitions",
      "deep-interview-runtime", "sdk-package-smoke"] || StartsWith(key, "test:")
  }

  /** A build of the native addon is added if a task needs it and none builds it. */
  function EnsureNativeBuild(keys: set<string>): (r: set<string>) {
    if (exists k :: k in keys && TaskNeedsNative(k)) && !(exists k :: k in keys && k in NATIVE_BUILD_KEYS) then keys + {NATIVE_KEY}
    else keys
  }

  function Relevant(paths: set<string>): (r: set<string>) {
    set p | p in paths && !IsDocOrChangelogPath(p)
  }

  ghost function GateKeys(paths: set<string>): (r: set<string>) {
    if exists p :: p in paths && IsEmbeddedDocsSourcePath(p) then {TestKey(GATE_TEST)} else {}
  }

  /** Everything the changed paths ask for, before the native build is looked at. */
  ghost function Asked(w: World, paths: set<string>): (r: set<string>) {
    GateKeys(paths) + (if FullWorkspace(Relevant(paths)) then FullKeys(w) else {}) + KeysOf(w, Relevant(paths)) +
    set c | c in CanariesOf(Relevant(paths), w.risks) :: TestKey(c)
  }

  /** The plan as a function of the set of changed paths. */
  ghost function Plan(w: World, paths: set<string>): (r: Option<set<string>>) {
    if |CanariesOf(Relevant(paths), w.risks)| > MAX_CANARY_TESTS then None else Some(EnsureNativeBuild(Asked(w, paths)))
  }

  // ---------------------------------------------------------------------- the plan only grows

  /** The other full-workspace paths are not part of the release harness. */
  lemma {:induction false} OtherFullPaths(p: string)
    requires IsFullWorkspacePath(p) && p != "package.json"
    ensures !IsReleasePublishPath(p) && !IsReleaseHarnessScriptPath(p) && !IsUnscopedWrapperPath(p)
  {
    assert p[0] == 'b' || p[0] == 't';
  }

  /** The exemption of the root manifest never takes back a full-workspace plan. */
  lemma {:induction false} FullWorkspaceGrows(a: set<string>, b: set<string>)
    requires a <= b && FullWorkspace(a)
    ensures FullWorkspace(b)
  {
    hide IsFullWorkspacePath, IsReleasePublishPath, IsReleaseHarnessScriptPath, IsUnscopedWrapperPath;
    if "package.json" !in a {
      var p :| p in a && IsFullWorkspacePath(p);
      OtherFullPaths(p);
    }
  }

  lemma {:induction false} AskedGrows(w: World, a: set<string>, b: set<string>)
    requires a <= b
    ensures Asked(w, a) <= Asked(w, b)
  {
    hide IsFullWorkspacePath, FullWorkspace, IsDocOrChangelogPath, IsEmbeddedDocsSourcePath, PathKeys, FullKeys, CanariesOf;
    MoreCanaries(Relevant(a), Relevant(b), w.risks);
    if FullWorkspace(Relevant(a)) { FullWorkspaceGrows(Relevant(a), Relevant(b)); }
  }

  const OLD_NATIVE_KEY := "native-build"

  lemma {:induction false} TestKeyIsNotNative(file: string)
    ensures TestKey(file)[0] == 't' && TestKey(file) != OLD_NATIVE_KEY && TaskNeedsNative(TestKey(file))
  {
    assert TestKey(file)[..5] == "test:";
  }

  lemma {:induction false} CheckedNotNative(w: World, files: seq<string>)
    ensures OLD_NATIVE_KEY !in CheckedTestKeys(w, files)
  {
    hide TestKey;
    forall f ensures TestKey(f) != OLD_NATIVE_KEY { TestKeyIsNotNative(f); }
  }

  lemma {:induction false} ShardKeyIsNotNative(shard: nat, total: nat)
    ensures ShardKey(shard, total) != OLD_NATIVE_KEY
  {
    assert ShardKey(shard, total)[0] == 't';
  }

  lemma {:induction false} ConstantsNotNative(owner: Option<Package>)
    ensures OLD_NATIVE_KEY !in CheckKeys(owner) && OLD_NATIVE_KEY !in RELEASE_KEYS
  {
    TestKeyIsNotNative("scripts/release-evidence.test.ts");
    if owner.Some? { assert CheckKey(owner.value.name)[0] == 'c'; }
  }

  lemma {:induction false} PathKeysNotNative(w: World, p: string)
    ensures OLD_NATIVE_KEY !in PathKeys(w, p)
  {
    hide MappedTestsFor, BehavioralTestsFor, IsShardOnePath, IsWorkflowPath, IsCiHarnessScriptPath, IsRustPath,
      IsInstallPath, IsReleasePublishPath, IsUnscopedWrapperPath, IsSdkPackageSmokePath, OwningPackage, IsCodeIshPath,
      IsCodingAgentRuntimePath, IsTabWorkerSmokePath, IsFullWorkspacePath, TestKey, CheckKey, ShardKey, CheckedTestKeys;
    CheckedNotNative(w, MappedTestsFor(w, p));
    CheckedNotNative(w, BehavioralTestsFor(w, p));
    ConstantsNotNative(OwningPackage(p, w.packages));
    ShardKeyIsNotNative(1, w.shards);
  }

  lemma {:induction false} FullKeysNotNative(w: World, packages: seq<Package>)
    ensures OLD_NATIVE_KEY !in WorkspaceTestKeys(w, packages)
  {
    if packages != [] {
      FullKeysNotNative(w, packages[..|packages| - 1]);
      ShardKeysNotNative(w.shards, w.shards);
      TestKeyIsNotNative(packages[|packages| - 1].name);
    }
  }

  lemma {:induction false} ShardKeysNotNative(total: nat, n: nat)
    requires n <= total
    ensures OLD_NATIVE_KEY !in ShardKeys(total, n)
  {
    if n > 0 {
      ShardKeysNotNative(total, n - 1);
      assert ShardKey(n, total)[0] == 't';
    }
  }

  lemma {:induction false} AskedNotNative(w: World, paths: set<string>)
    ensures OLD_NATIVE_KEY !in Asked(w, paths)
  {
    hide PathKeys, FullWorkspace, CanariesOf, WorkspaceTestKeys, Relevant, IsEmbeddedDocsSourcePath;
    forall p ensures OLD_NATIVE_KEY !in PathKeys(w, p) { PathKeysNotNative(w, p); }
    FullKeysNotNative(w, w.packages);
    forall c ensures TestKey(c) != OLD_NATIVE_KEY { TestKeyIsNotNative(c); }
  }

  lemma {:induction false} NativeGrows(a: set<string>, b: set<string>)
    requires a <= b && OLD_NATIVE_KEY !in b
    ensures EnsureNativeBuild(a) <= EnsureNativeBuild(b)
  {
    hide TaskNeedsNative;
  }

  /**
   * More changed paths never take a task away: if the larger plan can be made then so can the smaller, and each of
   * its tasks is in the larger, also where the exemption of the root manifest changes sides.
   */
  lemma {:induction false} PlanGrows(w: World, a: set<string>, b: set<string>)
    requires a <= b && Plan(w, b).Some?
    ensures Plan(w, a).Some? && Plan(w, a).value <= Plan(w, b).value
  {
    hide Asked, CanariesOf, EnsureNativeBuild;
    MoreCanaries(Relevant(a), Relevant(b), w.risks);
    Finite.SubsetSize(CanariesOf(Relevant(a), w.risks), CanariesOf(Relevant(b), w.risks));
    AskedGrows(w, a, b);
    AskedNotNative(w, b);
    NativeGrows(Asked(w, a), Asked(w, b));
  }

  /** A plan with a task that loads the native addon has the task that builds it. */
  lemma {:induction false} PlanBuildsNative(w: World, paths: set<string>, key: string)
    requires Plan(w, paths).Some? && key in Plan(w, paths).value && TaskNeedsNative(key)
    ensures NATIVE_KEY in Plan(w, paths).value
  {
    hide Asked, CanariesOf, TaskNeedsNative;
    AskedNotNative(w, paths);
    NativeNeedsNone();
  }

  lemma {:induction false} NativeNeedsNone()
    ensures !TaskNeedsNative(NATIVE_KEY)
  {
    assert NATIVE_KEY[0] == 'n';
  }

  /** With no more canaries in the table than the limit, there always is a plan. */
  lemma {:induction false} PlanIsMade(w: World, paths: set<string>, all: set<string>)
    requires |all| <= MAX_CANARY_TESTS && forall c :: c in w.risks ==> SetOf(c.canaries) <= all
    ensures Plan(w, paths).Some?
  {
    hide Asked, CanariesOf, EnsureNativeBuild;
    CanariesWithin(Relevant(paths), w.risks, all);
    Finite.SubsetSize(CanariesOf(Relevant(paths), w.risks), all);
  }

  lemma {:induction false} CanariesWithin(paths: set<string>, risks: seq<RiskClass>, all: set<string>)
    requires forall c :: c in risks ==> SetOf(c.canaries) <= all
    ensures CanariesOf(paths, risks) <= all
  {
    hide Touches, SetOf;
    if risks != [] { CanariesWithin(paths, risks[..|risks| - 1], all); }
  }

  // ---------------------------------------------------------------------- making the plan

  function RelevantOf(paths: seq<string>): (r: seq<string>)
    ensures forall p :: p in r <==> p in paths && !IsDocOrChangelogPath(p)
  {
    if paths == [] then []
    else
      (if IsDocOrChangelogPath(paths[0]) then [] else [paths[0]]) + RelevantOf(paths[1..])
  }

  ghost predicate Looped(p: string) {
    !IsFullWorkspacePath(p)
  }

  ghost predicate IsHarness(p: string) {
    Looped(p) && (IsWorkflowPath(p) || IsCiHarnessScriptPath(p))
  }

  ghost function LoopUnion(w: World, paths: seq<string>): (r: set<string>) {
    if paths == [] then {}
    else
      var last := paths[|paths| - 1];
      LoopUnion(w, paths[..|paths| - 1]) + (if Looped(last) then LoopKeys(w, last) else {})
  }

  lemma {:induction false} InLoopUnion(w: World, paths: seq<string>, k: string)
    ensures k in LoopUnion(w, paths) <==> exists p :: p in paths && Looped(p) && k in LoopKeys(w, p)
  {
    hide LoopKeys, Looped;
    if paths != [] {
      var init, last := paths[..|paths| - 1], paths[|paths| - 1];
      InLoopUnion(w, init, k);
      assert paths == init + [last];
    }
  }

  /** What the loop, the flags it sets and the smoke check come to. */
  ghost function Parts(w: World, paths: seq<string>): (r: set<string>) {
    LoopUnion(w, paths) + (if exists p :: p in paths && IsTabWorkerSmokePath(p) then {"install-methods"} else {}) +
    (if exists p :: p in paths && IsHarness(p) then SELFTEST_KEYS + {"workflow-permissions"} else {}) +
    (if exists p :: p in paths && Looped(p) && IsWorkflowPath(p) then {"yaml-parse"} else {})
  }

  lemma {:induction false} PartsAreKeys(w: World, paths: seq<string>)
    ensures Parts(w, paths) == KeysOf(w, SetOf(paths))
  {
    hide LoopKeys, IsFullWorkspacePath, IsWorkflowPath, IsCiHarnessScriptPath, IsTabWorkerSmokePath;
    forall k ensures k in Parts(w, paths) <==> k in KeysOf(w, SetOf(paths)) {
      InLoopUnion(w, paths, k);
      if k in Parts(w, paths) {
        var p :| p in paths && k in PathKeys(w, p);
        assert p in SetOf(paths);
      }
    }
  }

  /** The loop over the changed paths and the tasks that its flags ask for. */
  method AddPathTasks(w: World, relevant: seq<string>, before: set<string>) returns (tasks: set<string>)
    ensures tasks == before + Parts(w, relevant)
  {
    hide LoopKeys, IsTabWorkerSmokePath, IsFullWorkspacePath, IsWorkflowPath, IsCiHarnessScriptPath;
    tasks := before;
    var needCiSelftest, needYamlParse, needPermissionCheck := false, false, false;
    for i := 0 to |relevant|
      invariant tasks == before + LoopUnion(w, relevant[..i])
      invariant needYamlParse <==> exists p :: p in relevant[..i] && Looped(p) && IsWorkflowPath(p)
      invariant needCiSelftest <==> exists p :: p in relevant[..i] && IsHarness(p)
      invariant needPermissionCheck == needCiSelftest
    {
      var changed := relevant[i];
      assert relevant[..i + 1] == relevant[..i] + [changed] && relevant[..i + 1][..i] == relevant[..i];
      HarnessAddsNothing(w, changed);
      assert changed in relevant[..i + 1];
      assert IsHarness(changed) <==> Looped(changed) && (IsWorkflowPath(changed) || IsCiHarnessScriptPath(changed));
      if !IsFullWorkspacePath(changed) {
        if IsWorkflowPath(changed) {
          needYamlParse, needCiSelftest, needPermissionCheck := true, true, true;
        } else if IsCiHarnessScriptPath(changed) {
          needCiSelftest, needPermissionCheck := true, true;
        } else {
          tasks := tasks + LoopKeys(w, changed);
        }
      }
    }
    assert relevant[..|relevant|] == relevant;
    if exists p :: p in relevant && IsTabWorkerSmokePath(p) {
      tasks := tasks + {"install-methods"};
    }
    if needCiSelftest {
      tasks := tasks + SELFTEST_KEYS;
    }
    if needYamlParse {
      tasks := tasks + {"yaml-parse"};
    }
    if needPermissionCheck {
      tasks := tasks + {"workflow-permissions"};
    }
  }

  lemma {:induction false} RelevantSet(paths: seq<string>)
    ensures SetOf(RelevantOf(paths)) == Relevant(SetOf(paths))
  {
    hide RelevantOf, IsDocOrChangelogPath;
  }

  /** The plan depends on the set of changed paths only: not on their order, and not on repetitions. */
  method PlanTargetedTasks(w: World, paths: seq<string>) returns (r: Option<set<string>>)
    ensures r == Plan(w, SetOf(paths))
  {
    hide Parts, IsFullWorkspacePath, IsRootPackageReleaseHarnessOnly, IsEmbeddedDocsSourcePath, FullKeys, EnsureNativeBuild,
      KeysOf, CanariesOf, IsDocOrChangelogPath, Relevant;
    var relevant := RelevantOf(paths);
    RelevantSet(paths);
    var tasks: set<string> := {};
    if exists p :: p in paths && IsEmbeddedDocsSourcePath(p) {
      tasks := tasks + {TestKey(GATE_TEST)};
    }
    assert tasks == GateKeys(SetOf(paths));
    if relevant == [] {
      NothingAsked(w, SetOf(paths));
      return Some(EnsureNativeBuild(tasks));
    }
    var fullWorkspace := (exists p :: p in relevant && IsFullWorkspacePath(p)) && !IsRootPackageReleaseHarnessOnly(SetOf(relevant));
    assert fullWorkspace <==> FullWorkspace(SetOf(relevant));
    if fullWorkspace {
      tasks := tasks + FullKeys(w);
    }
    tasks := AddPathTasks(w, relevant, tasks);
    PartsAreKeys(w, relevant);
    var canaries := SelectCanaryTests(relevant, w.risks);
    if canaries.None? {
      return None;
    }
    tasks := tasks + set c | c in canaries.value :: TestKey(c);
    assert tasks == Asked(w, SetOf(paths));
    return Some(EnsureNativeBuild(tasks));
  }

  lemma {:induction false} HarnessAddsNothing(w: World, p: string)
    ensures IsWorkflowPath(p) || IsCiHarnessScriptPath(p) ==> LoopKeys(w, p) == {}
  {
  }

  lemma {:induction false} NothingAsked(w: World, paths: set<string>)
    requires Relevant(paths) == {}
    ensures Plan(w, paths) == Some(EnsureNativeBuild(GateKeys(paths)))
  {
    hide EnsureNativeBuild, PathKeys, IsEmbeddedDocsSourcePath, IsDocOrChangelogPath;
    NoCanaries(w.risks);
    assert KeysOf(w, {}) == {};
  }

  lemma {:induction false} NoCanaries(risks: seq<RiskClass>)
    ensures CanariesOf({}, risks) == {}
  {
    hide MatchesRiskClass;
    if risks != [] { NoCanaries(risks[..|risks| - 1]); }
  }

  // ---------------------------------------------------------------------- build tasks

  /** A task with its capabilities; without any, its key says whether it needs or builds the native addon. */
  datatype Task = Task(key: string, capabilities: Option<Capabilities>)
  datatype Capabilities = Capabilities(nativeConsumer: bool, nativeProducer: bool)

  predicate Consumes(t: Task) {
    if t.capabilities.Some? then t.capabilities.value.nativeConsumer else TaskNeedsNative(t.key)
  }

  const PRODUCER := Task(NATIVE_KEY, Some(Capabilities(false, true)))

  datatype TsUnit = TsUnit(identity: string, nativeConsumer: bool, nativeProducer: bool)

  function PlainTasks(keys: set<string>): (r: set<Task>) {
    set k | k in keys :: Task(k, None)
  }

  function TsTasks(units: seq<TsUnit>): (r: set<Task>) {
    set u | u in units :: Task("ts-build:" + u.identity, Some(Capabilities(u.nativeConsumer, u.nativeProducer)))
  }

  function CargoTasks(identities: seq<string>): (r: set<Task>) {
    set i | i in identities :: Task("cargo-build:" + i, Some(Capabilities(false, false)))
  }

  /** A task builds or loads the native addon, or a selected unit or crate does. */
  ghost predicate NeedsProducer(legacy: set<string>, units: seq<TsUnit>, cargoNeedsProducer: bool) {
    (exists k :: k in legacy && (k in NATIVE_BUILD_KEYS || TaskNeedsNative(k))) ||
    (exists u :: u in units && (u.nativeConsumer || u.nativeProducer)) || cargoNeedsProducer
  }

  /** A planned task that is not itself a native build. */
  ghost predicate IsPlain(t: Task, legacy: set<string>) {
    t.key in legacy && t.key != "native-build" && t.key != "native-linux-x64" && t.capabilities == None
  }

  ghost predicate IsTsBuild(t: Task, units: seq<TsUnit>) {
    exists u :: u in units && t.key == "ts-build:" + u.identity &&
      t.capabilities == Some(Capabilities(u.nativeConsumer, u.nativeProducer))
  }

  ghost predicate IsCargoBuild(t: Task, crates: seq<string>) {
    exists c :: c in crates && t.key == "cargo-build:" + c && t.capabilities == Some(Capabilities(false, false))
  }

  lemma {:induction false} BuildTasksAre(legacy: set<string>, units: seq<TsUnit>, crates: seq<string>, t: Task)
    ensures t in PlainTasks(legacy - NATIVE_BUILD_KEYS) <==> IsPlain(t, legacy)
    ensures t in TsTasks(units) <==> IsTsBuild(t, units)
    ensures t in CargoTasks(crates) <==> IsCargoBuild(t, crates)
  {
  }

  /** Puts the one producer, if anything needs it, and the builds beside the plan without its own native builds. */
  method AppendBuildTasks(legacy: set<string>, units: seq<TsUnit>, crates: seq<string>, cargoNeedsProducer: bool) returns (r: set<Task>)
    ensures forall t :: t in r && Consumes(t) ==> PRODUCER in r
    ensures forall t :: t != PRODUCER ==> (t in r <==> IsPlain(t, legacy) || IsTsBuild(t, units) || IsCargoBuild(t, crates))
    ensures PRODUCER in r <==> NeedsProducer(legacy, units, cargoNeedsProducer)
  {
    hide TaskNeedsNative;
    assert forall u: TsUnit :: ("ts-build:" + u.identity)[0] == 't';
    assert forall i: string :: ("cargo-build:" + i)[0] == 'c';
    var legacyNeedsProducer := (exists k :: k in legacy && k in NATIVE_BUILD_KEYS) || exists k :: k in legacy && TaskNeedsNative(k);
    var needsProducer := legacyNeedsProducer || (exists u :: u in units && (u.nativeConsumer || u.nativeProducer)) || cargoNeedsProducer;
    r := PlainTasks(legacy - NATIVE_BUILD_KEYS) + TsTasks(units) + CargoTasks(crates);
    ghost var builds := r;
    forall t ensures t in builds <==> IsPlain(t, legacy) || IsTsBuild(t, units) || IsCargoBuild(t, crates) {
      BuildTasksAre(legacy, units, crates, t);
    }
    if needsProducer {
      r := r + {PRODUCER};
    }
  }
}
