# Vibrato release and CI tooling, verified

A Dafny model of the decision-making parts of Vibrato's repository scripts, with proofs of what they promise. Run
`dafny verify dfyconfig.toml` to check everything.

| part | files |
|---|---|
| Filing crash issues: many processes, one store on disk, a directory lock with stale takeover, and a GitHub that may commit without saying so | `ApprovalStore.dfy`, `FilingProtocol.dfy`, `FilingProgress.dfy` |
| Package tarballs: the ustar/PAX/GNU reader, the canonical writer, and reading what was written | `TarFields.dfy`, `TarPaths.dfy`, `TarText.dfy`, `TarParser.dfy`, `TarEntries.dfy`, `TarWriter.dfy`, `TarLayout.dfy`, `TarRoundTrip.dfy`, `TarCanonical.dfy`, `TarExample.dfy` |
| Publishing a release: the publication order and the publish/observe/retry run | `TopoSort.dfy`, `PublicationPlan.dfy`, `PlanConditions.dfy`, `Publisher.dfy` |
| Version order and nightly versions | `Versions.dfy` |
| Reservoir sampling | `Finite.dfy`, `Reservoir.dfy` |
| Affected packages and the pull-request plan | `Dependents.dfy`, `AffectedPlan.dfy`, `PlanReasons.dfy` |
| Searching a file in chunks | `ByteSearch.dfy` |
| The sharded test harness | `TestHarness.dfy` |
| The release rewrite of a changelog and its history guard | `Changelog.dfy`, `ChangelogExample.dfy` |
| The verdict on recursive deletions | `SafeCleanup.dfy` |

`Common.dfy` holds `Option` and `Result`, `Splitting.dfy` searching in text and splitting it at a separator. An operation that throws returns `None` or `Err`.

What the environment decides is a parameter: file-system and registry answers, random draws, read lengths, attempt
ids, the order in which processes and workers take their steps, and the death of processes. What is assumed of it:

- Filing: renaming without replacement is atomic; an exact removal removes the lock only if it is still the
  snapshotted one; lock tokens and attempt ids are new each time; a published owner file is complete; reads of an
  existing store succeed (`scripts/sentry-crash-issues.ts:694` otherwise turns a failed read into an empty store);
  replacing the store file is atomic, but what comes after it in the same write may still fail.
- Tarballs: bytes after decompression; a path is the UTF-8 text of the original's string.
- Chunked search: the file does not change while it is read.
- Deletions: POSIX paths; home paths and allowed roots are absolute, real paths are canonical.

Five properties that one may expect turn out not to hold everywhere. Each is kept as the code has it, with the exact
condition under which it holds and an input for which it does not:

- Writing entries and reading them back, and canonicalizing twice, change a path that is split so that its name part
  starts with a byte-order mark, because the text decoder drops the mark (`TarRoundTrip.RoundTripIff`,
  `TarCanonical.CanonicalIsStableIff`; `TarExample.MarkIsLost`,
  `TarExample.CanonicalIsNotStable`).
- The history guard refuses a release rewrite if the first `## [Unreleased]` stands inside the brackets of another
  heading (`Changelog.GuardAcceptsIff`; `ChangelogExample.SplitHeadingIsRefused`).
- A release rewrite of a changelog without its title can succeed and leave no unreleased heading, because its check
  looks for the text anywhere (`Changelog.UnreleasedIsLeftIff`; `ChangelogExample.UnreleasedIsNotLeft`). The comment at
  `scripts/release.ts:374-376` says that the heading is put back.
- An allowed root that is written with a slash at the end is not recognized as a root when it is itself the target, so
  it can be approved if it lies inside another root (`SafeCleanup.RootsAreKeptIff`;
  `SafeCleanup.SlashedRootIsApproved`). The roots made at `scripts/safe-cleanup.ts:389-408` never end in a slash, except
  for the file-system root.

## Model

| member | source | states |
|---|---|---|
| ApprovalStore.StoreFile.Record | scripts/sentry-crash-issues.ts:933-939 | the approvals that are not stored yet are appended; filed and pending records stay as they are |
| ApprovalStore.StoreFile.ConsumeApproval | scripts/sentry-crash-issues.ts:940-946 | exactly the approval of the manifest goes |
| ApprovalStore.StoreFile.RecordFiledUrl | scripts/sentry-crash-issues.ts:953-961 | the filed record is added once and every pending record of the manifest goes, others stay |
| ApprovalStore.StoreFile.RecordPendingAttempt | scripts/sentry-crash-issues.ts:968-974 | a pending record with the new attempt id is added only if the manifest has none |
| ApprovalStore.StoreFile.ClearPendingAttempt | scripts/sentry-crash-issues.ts:975-984 | compare-and-clear: true exactly if the manifest's pending record carried this attempt id, and then only it goes |
| ApprovalStore.ApplyOpFrame | scripts/sentry-crash-issues.ts:929-985 | which records each operation adds and removes: nothing filed is ever lost, and a pending record goes only by a clear of exactly its attempt or by its manifest being filed |
| FilingProtocol.MutualExclusion | scripts/sentry-crash-issues.ts:754-805 | over all runs at most one live process is inside the locked action, and the lock on disk is the one it published |
| FilingProtocol.TakeoverSafe | scripts/sentry-crash-issues.ts:807-886 | in every step of every run a lock disappears only when its own publisher releases it or its publisher is dead, even if locks were released and republished since the staleness check and snapshot |
| FilingProtocol.PublishedOwnerUnchanged | scripts/sentry-crash-issues.ts:791-797 | a process that has just published the lock finds its own token in it, so the identity check after publication never fails |
| FilingProtocol.CreatesBounded | scripts/sentry-crash-issues.ts:1262-1301 | over all runs the create calls for a manifest are at most one plus the clears of its pending record that took effect, each attempt is used for at most one create, and only approved manifests are created |
| FilingProtocol.FiledIsFinal | scripts/sentry-crash-issues.ts:1262-1301 | once a manifest is recorded as filed, it stays so and is never created again in any continuation, whatever is cleared |
| FilingProtocol.AttemptNeverReturns | scripts/sentry-crash-issues.ts:968-984 | an attempt id that has left the pending records never comes back, so a late clear of it changes nothing |
| FilingProtocol.PendingLeaves | scripts/sentry-crash-issues.ts:1152-1202 | a pending record leaves the store only by a clear of exactly this attempt or by a filed record of its manifest |
| FilingProgress.ActionIsAtomic | scripts/sentry-crash-issues.ts:754-805 | a process that takes its steps inside the locked action, whatever else happens between them, leaves the store, the lock and all counts as if it had run alone |
| FilingProgress.ApproveIsDone | scripts/sentry-crash-issues.ts:933-939 | an approval without error ends with exactly the old approvals and the given ones |
| FilingProgress.RetireIsDone | scripts/sentry-crash-issues.ts:940-946 | consuming an approval without error takes exactly that one away |
| FilingProgress.RetryIsDone | scripts/sentry-crash-issues.ts:1152-1176 | a retry without error ends with exactly the named attempt gone, or with nothing changed if it is not pending |
| FilingProgress.AcknowledgeIsDone | scripts/sentry-crash-issues.ts:1178-1202 | acknowledging the issue that is there ends with it filed and the approval gone, any other URL changes nothing |
| FilingProgress.ApplyWithholds | scripts/sentry-crash-issues.ts:1267-1284 | for a manifest that is filed or pending, or whose marker is found, nothing is called and nothing changes |
| FilingProgress.ApplyReachesCreate | scripts/sentry-crash-issues.ts:1267-1286 | otherwise the new attempt is recorded as pending before the create call |
| FilingProgress.ConfirmedIsFiled | scripts/sentry-crash-issues.ts:1286-1299 | a create that is answered with a URL ends with the manifest filed under it and not pending |
| FilingProgress.UnconfirmedStaysPending | scripts/sentry-crash-issues.ts:1286-1299 | a create without an answer leaves the attempt pending |
| FilingProgress.ConfirmedIsFiledForGood | scripts/sentry-crash-issues.ts:1286-1299 | in every run, whatever the other processes do, a confirmed create is filed after the next two steps without error, and then stays filed and is never created again |
| FilingProgress.FreeLockIsAcquired | scripts/sentry-crash-issues.ts:754-799 | a free lock is acquired and the action begins |
| FilingProgress.LockIsReleased | scripts/sentry-crash-issues.ts:798-802 | a held lock is released, and nothing else changes |
| FilingProgress.DeadLockIsStale | scripts/sentry-crash-issues.ts:807-839 | an old lock is judged stale if no process has the pid in it, or one that started at another time |
| FilingProgress.StaleLockIsRemoved | scripts/sentry-crash-issues.ts:841-876 | a lock judged stale is removed if its owner file still names the same owner |
| FilingProgress.ApprovedIsPicked | scripts/sentry-crash-issues.ts:1244-1251 | only an approved manifest is picked for filing |
| FilingProgress.PendingIsPicked | scripts/sentry-crash-issues.ts:1152-1171 | a retry names an attempt that is pending, and without one there is none |
| FilingProgress.ApprovedIsFiled | scripts/sentry-crash-issues.ts:1244-1301 | from a free lock to a free lock: without errors an approved manifest with no record is filed, with one create call |
| TarFields.PadOctalValue | scripts/release-evidence.ts:483-489 | a number that fits reads back from its padded octal digits |
| TarFields.ParsePadded | scripts/release-evidence.ts:316-323 | octal digits followed by NULs and spaces parse to their value |
| TarFields.CutAtAscii | scripts/release-evidence.ts:325-333 | text is valid UTF-8 exactly if its parts on both sides of an ASCII byte are |
| TarFields.CalculateChecksum | scripts/release-evidence.ts:335-340 | the loop sums the 512 bytes with the checksum field counted as eight spaces |
| TarPaths.NextRecordIsExact | scripts/release-evidence.ts:364-389 | a PAX record is read exactly if a well-formed record, as long as it says, stands at the front |
| TarPaths.PaxAccepts | scripts/release-evidence.ts:364-389 | a PAX payload is accepted exactly if it is a concatenation of well-formed length-prefixed records |
| TarPaths.PaxReads | scripts/release-evidence.ts:364-389 | and then its path is the decoded value of its last `path` record |
| TarPaths.ParsePaxAttributes | scripts/release-evidence.ts:364-389 | the offset loop computes that path |
| TarPaths.GnuPath | scripts/release-evidence.ts:391-399 | a GNU long path is accepted exactly if its bytes before the first NUL are valid text, and it is these bytes without a byte-order mark in front and without one newline at the end |
| TarText.ValidIff | scripts/release-evidence.ts:325-333 | text is valid exactly if it encodes some code points by section 3 of RFC 3629, surrogates excluded |
| TarText.BomIs | scripts/release-evidence.ts:325-333 | the mark that is dropped is the encoding of U+FEFF |
| TarText.ParsedIff | scripts/release-evidence.ts:316-323 | a field is read as a number exactly if it is octal digits between blanks, followed by NULs and spaces, up to the largest safe integer; blanks alone are zero |
| TarText.SafePathIff | scripts/release-evidence.ts:342-355 | a path is safe exactly if it is `package` and names below it, each after a slash, with perhaps a slash at the end |
| TarText.SafeModeIff | scripts/release-evidence.ts:458-459 | a mode is safe exactly if it is three octal digits and does not let others write |
| TarParser.ParseHeader | scripts/release-evidence.ts:335-340 | a header is read exactly if its stored checksum is right and its path, prefix and size can be read |
| TarParser.ParseMember | scripts/release-evidence.ts:425-472 | one round of the reader: the end of the archive, a rejection, or the state after one member |
| TarParser.ParseTarEntries | scripts/release-evidence.ts:402-475 | the loop over offsets terminates on every input and computes the entries or the rejection that `ParseTar` defines |
| TarParser.AcceptedIffTiled | scripts/release-evidence.ts:402-475 | a file is accepted with some entries exactly if it is tiled by headers with padded payloads and then at least two zero blocks and nothing but zeros, its members being acceptable in order and leaving no path extension over |
| TarParser.ExtensionTakenIff | scripts/release-evidence.ts:438-453 | a path extension is taken exactly if it is within the limit and is a run of well-formed PAX records, without a path if it is global, or a valid long path |
| TarParser.AcceptedExtensions | scripts/release-evidence.ts:402-475 | every path extension among the members of an accepted file is such a one |
| TarParser.PaddedIsRoundedUp | scripts/release-evidence.ts:357-362 | padding goes to the next whole block |
| TarEntries.AddEntryIff | scripts/release-evidence.ts:455-471 | a file or directory is taken exactly if the entries stay safe, distinct and within the limits with it |
| TarEntries.CarriedIs | scripts/release-evidence.ts:442-448 | a local PAX header carries the value of its last `path` record for the next file, a global one no path |
| TarEntries.AcceptedIff | scripts/release-evidence.ts:402-475 | a file is accepted with some entries exactly if it is tiled by members that are each acceptable and leave no path over, and these are their entries: each under the last path carried since the file before it, or else the path of its own header |
| TarEntries.AcceptedEntries | scripts/release-evidence.ts:402-475 | entries of an accepted file have safe, valid, distinct paths inside `package` and safe modes, directories have no data, counts and sizes are within limits, and they fit into the file |
| TarWriter.SplitIsLast | scripts/release-evidence.ts:491-500 | a long path is split at the last slash that fits both fields, and rejected exactly if there is none |
| TarWriter.SplitUstarPath | scripts/release-evidence.ts:491-500 | the backward loop finds that split |
| TarWriter.FillHeader | scripts/release-evidence.ts:502-523 | filling the buffer field by field, checksum last, gives the header block |
| TarWriter.CanonicalTarHeader | scripts/release-evidence.ts:502-523 | the header of an entry, or a rejection if its path or size does not fit; what its bytes are, the next row says |
| TarLayout.CanonicalLayout | scripts/release-evidence.ts:502-523 | every byte of a header, in its place: path in name and prefix, mode and size in octal, user, group and time zero, the type, no link name, the ustar magic and version, and the checksum of it all |
| TarWriter.OrderedIsSorted | scripts/release-evidence.ts:526 | the order written is sorted by path bytes and a permutation of the entries |
| TarWriter.AtMostIff | scripts/release-evidence.ts:526 | the order of paths: a prefix comes first, otherwise the smaller byte at the first difference |
| TarWriter.WriteMember | scripts/release-evidence.ts:528-534 | a member is its header, its data and zeros up to a whole block |
| TarWriter.CreateCanonicalTarball | scripts/release-evidence.ts:525-536 | the loop writes the ordered members and then two zero blocks, or rejects if one cannot be written |
| TarRoundTrip.ChecksumFits | scripts/release-evidence.ts:517-521 | the checksum of any header fits in its six octal digits |
| TarRoundTrip.BlockReads | scripts/release-evidence.ts:502-523 | a written header is accepted and reads back as the fields that went in, texts decoded |
| TarRoundTrip.MemberRereads | scripts/release-evidence.ts:425-472 | reading back a written member adds its entry under the path that is read back |
| TarRoundTrip.WrittenThenRead | scripts/release-evidence.ts:402-540 | writing acceptable entries and reading gives them in path order, under their paths as read back, if these are acceptable |
| TarRoundTrip.RoundTripIff | scripts/release-evidence.ts:402-540 | writing then reading is the identity up to order if and only if no path is split with a byte-order mark in front of its name part |
| TarCanonical.CanonicalizePackageTarball | scripts/release-evidence.ts:543-545 | canonicalizing is reading and writing what was read |
| TarCanonical.CanonicalIsNoLonger | scripts/release-evidence.ts:543-545 | the canonical form is never longer than its source, so within the unpacked limit |
| TarCanonical.PrintedDetermines | scripts/release-evidence.ts:525-536 | writing is injective: acceptable entry lists that are written alike are equal |
| TarCanonical.CanonicalIsStableIff | scripts/release-evidence.ts:543-545 | canonicalizing a canonical form gives it back, and the same entries, if and only if no path is split with a byte-order mark in front of its name part |
| TarExample.MarkIsLost | scripts/release-evidence.ts:325-333 | an acceptable entry with such a path reads back as an entry with another path |
| TarExample.MarkedFileIsRead | scripts/release-evidence.ts:391-399 | a tar file with such an entry is accepted, through a long-path extension |
| TarExample.CanonicalIsNotStable | scripts/release-evidence.ts:543-545 | that file can be canonicalized, and canonicalizing the result gives another file |
| TopoSort.Sort | scripts/ci-release-publish.ts:1112-1138 | the loop orders the nodes greedily by least ready index and stops only when none is ready |
| TopoSort.SortIsComplete | scripts/ci-release-publish.ts:1126-1145 | the result is complete exactly if the graph is acyclic, and then topological; otherwise what is left holds a cycle |
| TopoSort.SortIsLexicographicallyLeast | scripts/ci-release-publish.ts:1126-1137 | no topological order is lexicographically smaller |
| TopoSort.GreedyUnique | scripts/ci-release-publish.ts:1126-1137 | there is only one such order |
| PublicationPlan.DeclaredRecords | scripts/ci-release-publish.ts:1073-1105 | succeeds exactly on records that match the publish configuration one to one, and puts them in declaration order |
| PublicationPlan.CheckExact | scripts/ci-release-publish.ts:1107-1124 | finds no failure exactly if there is a record, all records share one release version, and every internal dependency is a declared package at exactly that version |
| PublicationPlan.OrderDeclared | scripts/ci-release-publish.ts:1112-1145 | succeeds exactly on an acyclic dependency graph; otherwise it names a cycle, and every record it names waits for another one it names |
| PublicationPlan.PlanExpectedEvidencePublication | scripts/ci-release-publish.ts:1072-1146 | a plan is made exactly on consistent, exact records with acyclic dependencies, and it is the greedy order of their declaration; a cycle is named exactly if that alone is wrong |
| PublicationPlan.PlanPutsDependenciesFirst | scripts/ci-release-publish.ts:1126-1145 | every dependency comes before its dependents |
| PublicationPlan.PlanIsAPermutation | scripts/ci-release-publish.ts:1126-1145 | the plan holds exactly the declared records, once each |
| PublicationPlan.PlanIgnoresOrder | scripts/ci-release-publish.ts:1073-1137 | records in another order have a plan exactly if these have one, and it is the same plan |
| PublicationPlan.PlanIsUnique | scripts/ci-release-publish.ts:1126-1145 | there is only one plan for some records |
| PlanConditions.PlannedIff | scripts/ci-release-publish.ts:1072-1146 | there is a plan exactly if the configuration defines every directory and name once, the evidence has exactly one record for each, all at one release version which they also depend on each other by, and no records depend on each other in a circle |
| Publisher.AssertExactRegistryObservation | scripts/ci-release-publish.ts:981-992 | accepts exactly the observations with the expected bytes, version and no downgrade |
| Publisher.ExactIs | scripts/ci-release-publish.ts:981-992 | the only exact observation of a record is the one with all its evidence, tagged with its version |
| Publisher.PublishRetainedPackage | scripts/ci-release-publish.ts:1008-1070 | publish is called at most once, and exactly if the tarball is good and the first look shows the version absent; it succeeds exactly if that look is exact, or publish works and the version becomes exact within the retries, or publish fails and the next look is exact; an exact look comes last; at most retries + 2 looks, two if publish fails |
| Publisher.AfterFailedPublish | scripts/ci-release-publish.ts:1034-1042 | a failed publish succeeds exactly if the one further look is exact |
| Publisher.AwaitVisibility | scripts/ci-release-publish.ts:1043-1069 | the further looks, at most retries + 1, go on exactly while the version lags or is absent; it succeeds exactly if within them the version is shown exactly and every look before only lagged or was absent |
| Publisher.SafeAtEveryPoint | scripts/ci-release-publish.ts:1148-1157 | a safe run is safe at every point of it |
| Publisher.PublishInOrder | scripts/ci-release-publish.ts:1148-1157 | whatever the registry answers and wherever the run stops, a publish happens once per package, after an absent look, and after all its internal dependencies were verified; a package is verified only right after the registry showed it exact; and the run succeeds exactly if all were verified, with the observations that the registry gave |
| Publisher.PublishExpectedEvidencePackages | scripts/ci-release-publish.ts:1148-1157 | the release is refused before any call exactly if the records have no plan; otherwise the run, also one that is cut short, follows the plan and is safe, it succeeds exactly if every package of the plan was verified, and what it returns are exact observations that the registry gave in this run |
| Publisher.DependenciesWereExact | scripts/ci-release-publish.ts:1148-1157 | in such a run, whatever its outcome, every publish comes after the registry answered with exactly the evidence of each internal dependency |
| Publisher.ReobserveExpectedEvidencePackages | scripts/ci-release-publish.ts:1160-1174 | succeeds exactly if the records have a plan and every package of it is seen exact once more |
| Versions.ComparesNumerically | scripts/release-evidence.ts:165-168 | comparing by length and then text is numeric comparison at any size |
| Versions.CompareStableVersions | scripts/release-evidence.ts:171-182 | agrees with precedence by item 11 of Semantic Versioning 2.0.0, zero exactly on equal text |
| Versions.StableOrder | scripts/release-evidence.ts:171-182 | the comparison is a total order |
| Versions.StableIff | scripts/release-evidence.ts:44 | the stable versions are exactly three decimal numbers with dots between them |
| Versions.NightlyIff | scripts/release-evidence.ts:45 | the nightly versions are exactly a stable one, a time, a run and twelve hexadecimal digits |
| Versions.ReleaseVersionIff | scripts/release-evidence.ts:46 | a release version is one of these two |
| Versions.PositiveIff | scripts/nightly-release.ts:51-53 | the positive integers are the decimal texts of the positive numbers |
| Versions.DeriveNightlyVersion | scripts/nightly-release.ts:60-80 | succeeds exactly on a non-empty stable line with a valid run and commit; its result is a nightly version whose core is on the same major and minor line, above every stable version given, by one patch over the highest |
| Reservoir.ReservoirSample.Add | scripts/tool_io.py:125-134 | one step of Algorithm R |
| Reservoir.SampleReservoir | scripts/tool_io.py:282-286 | sampling a stream leaves the items at the positions that the draws select |
| Reservoir.RunsCount | scripts/tool_io.py:125-134 | the number of draw sequences |
| Reservoir.EverySampleEquallyOften | scripts/tool_io.py:125-134 | every set of `size` positions is the sample of the same number of draw sequences, `(n - size)!` |
| Reservoir.EveryItemEquallyOften | scripts/tool_io.py:125-134 | every item is kept equally often: kept times n equals size times all |
| Reservoir.EveryRunIsASample | scripts/tool_io.py:125-134 | every draw sequence, also on a stream shorter than the reservoir, leaves min(size, n) distinct positions of the stream |
| Dependents.ExpandWithDependents | scripts/ci-dev-affected.ts:1243-1259 | the names selected are the least set with the touched ones that is closed under dependents, also on cycles |
| Dependents.ExpandCargoDependents | scripts/ci-dev-affected.ts:1575-1581 | the Cargo worklist computes the same closure over its own edges |
| Dependents.ClosureIsReached | scripts/ci-dev-affected.ts:1243-1271 | that set is exactly what a chain of dependents reaches from a touched name |
| Dependents.DependsOnWorkspaceIff | scripts/ci-dev-affected.ts:1261-1271 | on a package of the workspace any dependency counts, on another name only one with a workspace version |
| AffectedPlan.SelectCanaryTests | scripts/ci-risk-canary-manifest.ts:123-135 | selects the canaries of the touched risk classes, and fails exactly if there are more than the limit |
| AffectedPlan.PlanTargetedTasks | scripts/ci-dev-affected.ts:905-1043 | the plan depends only on the set of changed paths; which tasks it holds, the next rows say |
| PlanReasons.PlannedIff | scripts/ci-dev-affected.ts:905-1043 | for every task key, exactly which changed paths put it into the plan: Rust, install, release, smoke, check, harness, test and shard tasks, and the native build exactly if a task that is asked for needs it |
| PlanReasons.PlannedUnlessTooMany | scripts/ci-risk-canary-manifest.ts:123-135 | there is a plan exactly if the changed paths touch risk classes with at most eight canaries |
| PlanReasons.MappedTestsAre | scripts/ci-dev-affected.ts:1133-1148 | a test names itself, any other path the one test of its base name in its package or directory, and none if there are several |
| PlanReasons.OwnerIsFirst | scripts/ci-dev-affected.ts:1163-1165 | the package of a path is the first one in whose directory it is |
| PlanReasons.DirAndBase | scripts/ci-dev-affected.ts:1133-1148 | a path is its directory, a slash and its name |
| PlanReasons.StemIs | scripts/ci-risk-canary-manifest.ts:104-107 | a name without what follows its last dot, unless that is all of it |
| PlanReasons.TouchesClass | scripts/ci-risk-canary-manifest.ts:109-117 | exact paths, directories and suffixes of a risk class are touched by what they should be, and an empty class by nothing |
| PlanReasons.TouchesSegment | scripts/ci-risk-canary-manifest.ts:109-117 | a name of a risk class is touched by every path that has it as a segment, with or without extension |
| PlanReasons.CrateIsChecked | scripts/ci-dev-affected.ts:950-957 | a change of one crate alone plans the Rust check and tests |
| AffectedPlan.FullWorkspaceGrows | scripts/ci-dev-affected.ts:1284-1294 | further paths never take back a full-workspace plan, whichever way the root-manifest exemption goes |
| AffectedPlan.PlanGrows | scripts/ci-dev-affected.ts:905-1043 | further paths never take a planned task away |
| AffectedPlan.PlanIsMade | scripts/ci-risk-canary-manifest.ts:123-135 | with a table of no more canaries than the limit there always is a plan |
| AffectedPlan.PlanBuildsNative | scripts/ci-dev-affected.ts:1170-1175 | a plan with a task that loads the native addon has the task that builds it |
| AffectedPlan.AppendBuildTasks | scripts/ci-dev-affected.ts:1453-1465 | the builds are added, native builds are replaced by the one producer, which is there exactly if a unit or the Cargo side needs it, and consumers come with it |
| ByteSearch.FileContainsBytes | scripts/dev-link.ts:167-192 | with non-empty reads of any length the answer is whether the non-empty needle occurs in the file, whatever its length; a reported match is always there |
| ByteSearch.SearchChunk | scripts/dev-link.ts:177-184 | one round reads, searches and moves the overlap within the buffer, and keeps every place where a match could still start |
| ByteSearch.OccursInWindow | scripts/dev-link.ts:177-184 | a match in what has been read is in the window or was there before |
| TestHarness.ShardsPartition | scripts/run-bun-test-files.ts:142-145 | what the shards select holds, together, every file exactly as often as the list |
| TestHarness.ShardsDisjoint | scripts/run-bun-test-files.ts:142-145 | a file listed once is selected by one shard only |
| TestHarness.NeverRunTwice | scripts/run-bun-test-files.ts:361-394 | in every interleaving, at every moment, no file has been run twice |
| TestHarness.HarnessOutcome | scripts/run-bun-test-files.ts:361-409 | when the workers have ended, each file was run exactly once with its outcome recorded, and the exit code is 0 exactly if the runner gave no failure |
| TestHarness.ExitsWithZeroIff | scripts/run-bun-test-files.ts:381-409 | the exit code is 0 exactly if every test process of the run passed: exit code 0, no signal, in time, and the runner did not throw |
| TestHarness.ConcurrencyIsKept | scripts/run-bun-test-files.ts:394 | there are as many workers as asked for, or as files if these are fewer |
| TestHarness.RunsEnd | scripts/run-bun-test-files.ts:361-394 | every interleaving ends within five steps per file and never gets stuck before |
| TestHarness.EndsUnlessThrown | scripts/run-bun-test-files.ts:361-394 | if every sandbox can be made and removed, a run that can go no further has ended |
| Changelog.ReleaseHeadings | scripts/changelog-history-guard.ts:49-59 | the released versions of a text in line order |
| Changelog.GuardIsSilentIff | scripts/changelog-history-guard.ts:68-83 | the guard is silent exactly if every released heading of the base is still there |
| Changelog.ViolationIs | scripts/changelog-history-guard.ts:68-83 | what the guard reports: the missing headings and how many there were and are, all of them for a deleted file, nothing for a new one |
| Changelog.MissingInOrder | scripts/changelog-history-guard.ts:80 | the missing headings in their order, repetitions included |
| Changelog.SpaceIff | scripts/changelog-history-guard.ts:35 | the characters that count as spaces |
| Changelog.TrimIs | scripts/changelog-history-guard.ts:55-56 | trimming takes the spaces at both ends away and nothing else |
| Changelog.ReleasedChangelogContent | scripts/release.ts:364-385 | throws exactly if there is something to release, the title does not come first and no further marker is left; leaves a text without the marker alone; returns the text that the rows below describe, keeping all released headings with the new version where the marker was, passing the guard and keeping an unreleased heading exactly under their conditions |
| Changelog.ThrowsIff | scripts/release.ts:372-380 | the rewrite throws exactly if there is something to release, no title comes first, and replacing the first marker leaves none |
| Changelog.HasNotesIff | scripts/release.ts:357-362 | there is something to release exactly if the first marker that ends its line is followed, before the next heading that starts with a digit, by something other than spaces |
| Changelog.RewrittenText | scripts/release.ts:364-385 | the rewritten text, character by character: the heading with its version and date in place of the first marker and an empty section below the title, or below the marker if there was nothing to release |
| Changelog.HeadingOf | scripts/changelog-history-guard.ts:35-36 | which heading a line carries that contains a bracketed text |
| Changelog.HistoryIsKept | scripts/release.ts:364-385 | if the first marker starts a line, a successful rewrite keeps all released headings in order, adds the new version where the marker was, and the guard is silent |
| Changelog.GuardAcceptsIff | scripts/release.ts:364-385 | wherever the marker stands, the guard is silent exactly if no heading was split by it or another line carries that heading |
| Changelog.UnreleasedIsLeftIff | scripts/release.ts:370-382 | an unreleased heading is left exactly if there was nothing to release, the title comes first, or another line is one |
| ChangelogExample.SplitHeadingIsRefused | scripts/release.ts:364-385 | a changelog whose rewrite the guard refuses |
| ChangelogExample.UnreleasedIsNotLeft | scripts/release.ts:370-382 | a changelog whose rewrite succeeds without leaving an unreleased heading |
| SafeCleanup.PrefixIff | scripts/safe-cleanup.ts:98-118 | one path with a separator behind it is a text prefix of another exactly if its segments come first in it |
| SafeCleanup.AncestorIff | scripts/safe-cleanup.ts:108-112 | being an ancestor or equal is having one's segments first in the other's, however the other is written |
| SafeCleanup.InsideIff | scripts/safe-cleanup.ts:114-118 | being strictly inside a root is having its segments first, and more, however the root is written |
| SafeCleanup.ComponentsBetween | scripts/safe-cleanup.ts:125-137 | taking the relative path apart and joining its parts on again gives the paths of every segment from just below the root down to the target, however the root is written |
| SafeCleanup.AssessDeletionTarget | scripts/safe-cleanup.ts:156-323 | a deletion is approved exactly if it is permitted in terms of segments, for the canonical path and the first root it is inside of |
| SafeCleanup.ApprovedIsSafe | scripts/safe-cleanup.ts:156-323 | what is approved holds no home, is two segments deep, is no allowed root that is written without a slash at the end, lies strictly below an allowed root, and if it is there and the user is known, is owned throughout |
| SafeCleanup.PartAfter | scripts/safe-cleanup.ts:98-123 | what one more part does to a path: a segment is appended, empty and `.` change nothing, `..` takes the last segment back and stays at the root |
| SafeCleanup.UpUndoesDown | scripts/safe-cleanup.ts:98-123 | going up from a segment undoes going down to it |
| SafeCleanup.HomeIsKept | scripts/safe-cleanup.ts:174-190 | `/tmp/../../home/op` is the home `/home/op`, and is refused whatever is on disk |
| SafeCleanup.RootsAreKeptIff | scripts/safe-cleanup.ts:198-203 | no allowed root is ever approved if and only if none that lies inside another one and is otherwise removable is written with a slash at the end |
| SafeCleanup.SlashedRootIsApproved | scripts/safe-cleanup.ts:198-203 | a world with such a root and a deletion of it that is approved |

## Left out

- Crash issues: sanitizing and rendering Sentry fields, grouping rows by fingerprint, command-line parsing, the waiting between lock attempts and giving up after 200 of them, and the platform's checks of the store's owner and permissions.
- Tarballs: gzip and its compressed-size limit, hashes and integrity strings, the reading of package manifests, and the order in which several faults of one file are reported.
- TarWriter.Ordered: the standard library's sort is a stable insertion sort here; which one the library runs is not modelled.
- Publication: reading tarballs and evidence from disk, calling npm, the waits between looks, and the generation of evidence.
- Versions.DeriveNightlyVersion: the UTC stamp is a parameter; its formatting from a clock is not modelled.
- Reservoir sampling: the random generator; its draws are counted, not generated.
- Dependents.ExpandWithDependents: the final sort of the packages by directory in the system's locale is not modelled.
- AffectedPlan.PlanTargetedTasks: tasks are known by their keys; descriptions, commands and the order of tasks are not modelled, and the tables of behavioral tests, shard paths and risk classes are parameters.
- AffectedPlan.AppendBuildTasks: the selection of build units and crates is a parameter.
- The lists of paths and prefixes behind each class of changed path are data here as in the source; that they hold the intended paths is not stated.
- Push-mode planning, normalization of changed paths, and the build inventory.
- ByteSearch.FileContainsBytes: a file that shrinks or changes while it is read is not modelled, beyond a read that returns nothing.
- Test harness: spawning and killing test processes, time limits, sandboxes and signals; a worker that throws ends the harness without an exit code of its own.
- Changelog: which files are guarded and the reading of git revisions; dollar signs in versions and dates, which a replacement text would interpret.
- SafeCleanup.AssessDeletionTarget: which of several reasons a refusal gives is not stated; Windows paths, folding of letter case and granted fixture roots are not modelled.
- The runtime interception of deletion functions.
- Bundle, schema and documentation generators, benchmarks, and all package sources outside `scripts`.
