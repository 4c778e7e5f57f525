# Crabedence: a verified model of its protocol and decision code

A Dafny 4.11 model of the parts of this repository whose correctness is hard to see from the code:
the grant stores and admission, fixed-lease AWS launches and checkpoint deletion, the image cache,
the action-pin checker, argument schemas, canonical numbers and request digests, terminal receipts,
the capability registry and here-document framing. Every statement below is a proof obligation of the Dafny verifier;
`dafny verify dfyconfig.toml` checks the whole project.

## How the model is laid out

- **Authority** (`Grants`, `GrantMaterial`, `AuthorityRefs`, `AuthorityTables`, `PostgresAuthority`,
  `PostgresRuns`, `PostgresUpgrade`, `SqliteAuthority`, `Admission`). `AuthorityRefs` is the serial
  specification: a reference is a closed flag and a list of generations. `AuthorityTables` is the
  table layout both stores share, with the abstraction to that specification. PostgreSQL is a state
  machine whose steps are the single statements of any number of transactions, interleaved in any
  order, with commits, rollbacks and a moving clock. SQLite is a class whose methods are whole
  transactions. Both refine the same specification, and admission is proved on top of both.
- **AWS** (`AwsLaunch`, `AwsCheckpoint`). The cloud and the persistence callbacks are arbitrary
  functions of what has happened so far, so each contract holds for every behaviour of theirs,
  including calls that take effect and still report an error.
- **Images** (`StagingLocks`, `StagingNames`, `SparseCopy`, `Qcow2`, `Bytes`). The lock protocol is a state machine
  over system calls with crashes between any two; copies are methods over a file object with short
  reads, short writes and cancellation; header arithmetic is written modulo 2^64 as in the code.
- **Checkers** (`Yaml`, `ActionPins`, `JobMeaning`, `WorkflowChecks`, `WorkflowMeaning`, `Schema`,
  `BoundMeaning`, `EnumMeaning`, `SchemaMeaning`, `DuplicateKeys`, `Heredoc`). Each decision procedure is
  proved equivalent to a declarative predicate, or shown to read back what was written. `JobMeaning` and
  `WorkflowMeaning` say what workflows really use and reach, apart from how the checker walks them;
  `BoundMeaning`, `EnumMeaning` and `SchemaMeaning` say what a schema means, by the numbers its literals
  denote, apart from what the validator enforces.
- **Values and digests** (`Numerals`, `Json`, `CanonicalNumbers`, `RequestDigest`, `Registry`, `Receipts`,
  `ReceiptBuild`). A number is its literal, with the number it denotes beside it; canonical forms are proved
  equal exactly for equal values.
- `Text`, `Chains` and `Wrappers` hold ordering, splitting, decimal numbers, chains of a relation and the
  usual result types.

A digest is a symbolic value that remembers what it was computed from, so equal digests mean equal
material. Time is a number of nanoseconds.

## Where the code and its promise part

Each of these is kept as the code has it; a member states the exact condition.

- A JSON `null` bound to a resource dimension is read as the empty string
  (`Admission.NullArgumentAdmittedIff`).
- A PostgreSQL grant with a capability that a `text[]` literal must quote is stored and can never be
  read back (`GrantMaterial.TextArrayRoundTrip`, `PostgresRuns.IssueThenResolve`).
- A checkpoint deletion given an account id that is blank but not empty may report success from
  another account (`AwsCheckpoint.Cloud.DeleteImageCheckpoint`, `AwsCheckpoint.BlankAccountReportsSuccess`).
- `RegisterResolved` stores descriptors that `Register` would refuse (`Registry.RegisterResolvedSoundIff`).
- `additionalProperties: false` has no effect unless `properties` is an object (`SchemaMeaning.ClosedIff`).
- Exact parsing declines literals whose shift is beyond one million. A number so spelled meets every bound
  (`BoundMeaning.ValueBoundIff`), is no integer (`BoundMeaning.TypeIff`), and as a bound binds no number and
  no string (`BoundMeaning.BoundsBindIff`, `BoundMeaning.EachBoundIff`, `BoundMeaning.LengthsBindIff`). Since
  every number has such a spelling, no bound binds all numbers (`BoundMeaning.BoundsBindAllIff`).
  `BoundMeaning.HugeEscapes` has the inputs: 1e1000001 passes a maximum of 1, lets 1 pass as a minimum and the
  empty string as a minimum length, and is refused as an integer.
- `enum` compares printed text where a side is not a number that is read. It takes the string 1 for the number
  1 (`EnumMeaning.EnumConfusesTextAndNumber`), and misses 1E1000001 where 1e1000001 is listed and [1.0] where
  [1] is (`EnumMeaning.EnumMissesSpellings`). When it is membership is said for one value
  (`EnumMeaning.EnumIff`), for all values (`EnumMeaning.EnumExactIff`), for all scalars
  (`EnumMeaning.ScalarEnumIff`) and for the scalars that are read (`EnumMeaning.ReadEnumIff`).
- A job merged into the `jobs` mapping is not examined (`JobMeaning.ActionsExaminedIff`,
  `JobMeaning.MergedJobIsMissed`). A local target spelled like a reusable workflow is not followed, so an
  action manifest can hide behind it (`WorkflowMeaning.NothingHiddenIff`,
  `WorkflowMeaning.ExemptHidesUnpinned`). The verdict covers everything that is really reached exactly when
  what the two name is reached anyway (`WorkflowMeaning.CoveredIff`).
- A staging file can be unlinked under its live writer by another process that still owes a removal of
  the same name (`StagingNames.StaysInPlaceIff`, `StagingNames.NameTakenTwice`).
- Outside the validator, a version 2 receipt's evidence digest is not signed
  (`Receipts.UnvalidatedEvidence`), and a length of 2^32 or more wraps
  (`Receipts.WrappedLengthIsAmbiguous`).
- A receipt does not verify against the run it was built from if that run started between two milliseconds
  (`ReceiptBuild.BuiltVerifiesIff`).

## Model

| member | source | states |
|---|---|---|
| `Grants.NormalizeValues` | internal/capability/grant.go:98-116 | the loop that drops repeats and sorts yields the normal list of the value set |
| `Grants.NormalizeConstraints` | internal/capability/grant.go:98-116 | whatever order the dimensions are visited in, every dimension ends with its normal list |
| `Grants.NormalListsEqualIff` | internal/capability/grant.go:98-116 | two value lists normalise alike exactly when they hold the same set of values |
| `Grants.NormalConstraintsEqualIff` | internal/capability/grant.go:98-116 | two constraint maps normalise alike exactly when every dimension holds the same set of values |
| `Grants.SameMaterialIff` | internal/capability/grant.go:59-91 | two digests agree exactly when id, generation, principal, capability multiset, per-dimension value sets and millisecond times agree |
| `Grants.SameDigestSameAuthority` | internal/capability/grant.go:151-180 | grants with equal digests answer every capability and every resource question alike |
| `Grants.NormalizedTwice` | internal/authority/store.go:438-498 | cutting a time to milliseconds is idempotent, keeps its millisecond count and keeps the zero time |
| `GrantMaterial.TextArrayRoundTrip` | internal/authority/material.go:111-126 | a stored capability list reads back exactly when no element needed quoting; otherwise the read is refused, never read as another list |
| `AuthorityRefs.RunEvolves` | internal/authority/store.go:438-604 | over any sequence of operations generations are only appended, their material never changes, revocation and its time stick, and closing is permanent |
| `AuthorityRefs.Superseded` | internal/authority/store.go:340-407 | once a later generation exists an earlier one is never live again |
| `AuthorityRefs.RevokedUntilReissued` | internal/authority/store.go:574-604 | a reference with every generation revoked has no live generation until a new one is issued |
| `AuthorityRefs.RevokeGrantRevokesAll` | internal/authority/store.go:574-604 | revoking a grant leaves every generation of it revoked |
| `AuthorityRefs.RevokedOneNeverLive` | internal/authority/store.go:506-536 | a generation once revoked is never live again, however the reference evolves |
| `AuthorityRefs.ClosedStays` | internal/authority/store.go:544-565 | a closed reference stays closed with the generations it had |
| `AuthorityTables.NoRowsWithoutHead` | internal/authority/store.go:314-330 | the generations stored for an id are exactly 1 to next - 1, so the maximum the lock seeds from is next - 1 |
| `AuthorityTables.WrittenRefines` | internal/authority/store.go:438-604 | the rows an accepted operation writes represent exactly the specified new reference and leave all others alone |
| `PostgresAuthority.StepKeepsInv` | internal/authority/store.go:314-604 | every single statement of every transaction, in any interleaving, keeps the store and all open transactions consistent: one lock holder per id, ready transactions hold the row they will publish |
| `PostgresAuthority.CommitRefines` | internal/authority/store.go:438-604 | a commit is one accepted operation of the serial specification on that id, and changes nothing else |
| `PostgresAuthority.CommitKeepsOthers` | internal/authority/store.go:314-330 | a commit leaves every other open transaction consistent with the new tables |
| `PostgresRuns.OnlyCommitsVisible` | internal/authority/store.go:438-604 | no step but a commit changes the committed tables |
| `PostgresRuns.RunEvolvesFrom` | internal/authority/store.go:438-604 | over every run of every interleaving each reference evolves as the serial specification allows |
| `PostgresRuns.GenerationsContiguous` | internal/authority/store.go:314-330 | after every run the committed generations of an id are exactly 1 to next - 1, and no insert ever met an existing row |
| `PostgresRuns.CommitOrder` | internal/authority/store.go:438-498 | of two issues of one id, the one committed later has the larger generation |
| `PostgresRuns.ResolveReturnsLive` | internal/authority/store.go:340-407 | a read returns only the latest generation, unrevoked, to its own principal, unexpired on the database clock, under a digest that verifies |
| `PostgresRuns.RunSafety` | internal/authority/store.go:340-604 | a read never goes back behind any earlier moment of the run, never returns a generation revoked then, and a closed reference gains none |
| `PostgresRuns.IssueThenResolve` | internal/authority/store.go:340-498 | from its commit on, while live and unexpired, an issue reads back as exactly the minted grant if no capability needs quoting, and is refused otherwise |
| `PostgresRuns.CorruptionNeverBroadens` | internal/authority/store.go:340-407 | if the stored digest is still the issued one, whatever a read returns has the issued material and answers every question as the issued grant does |
| `PostgresRuns.RevokeAllIsFinal` | internal/authority/store.go:574-604 | in every run, from the commit of a revocation of the whole grant until an issue of the same id commits, every read of it is denied |
| `PostgresRuns.RevokeOneIsFinal` | internal/authority/store.go:506-536 | in every run, from the commit of a revocation of one generation on, no read returns that generation |
| `PostgresRuns.CloseIsFinal` | internal/authority/store.go:544-565 | in every run, from the commit of a close on, the reference is closed and its generations are the ones it had |
| `PostgresUpgrade.RecomputeGrantDigests` | internal/authority/store.go:243-306 | the rewrite succeeds exactly when every row decodes, then replaces every digest and nothing else |
| `PostgresUpgrade.BackfillGrantDigests` | internal/authority/store.go:132-191 | looks at rows without a digest only, fails exactly when one of them does not decode, and fills in the rest |
| `PostgresUpgrade.Upgrade` | internal/authority/store.go:91-306 | both start-up transactions in turn succeed exactly when every legacy row decodes, and the digests of the first do not survive the second |
| `PostgresUpgrade.LegacyHeads` | internal/authority/store.go:199-237 | seeding heads from the upgraded rows gives every legacy id an open head whose next generation is 2 |
| `PostgresUpgrade.UpgradedStoreInv` | internal/authority/store.go:91-237 | a store upgraded from the one-row schema, at any time, satisfies the invariant every run starts from |
| `PostgresUpgrade.UpgradedRowsKept` | internal/authority/store.go:91-128 | the upgrade keeps each legacy row's principal, capabilities, times and revocation |
| `PostgresUpgrade.UpgradedReadsVerify` | internal/authority/store.go:132-306 | after the upgrade no read fails its digest check |
| `PostgresUpgrade.InitialInv` | internal/authority/store.go:43-85 | a store just opened, empty or upgraded, at any time, satisfies the invariant |
| `PostgresUpgrade.ContiguousFromStart` | internal/authority/store.go:314-498 | in every interleaving from the opening of the store on, generations are exactly 1 to next - 1, no insert collides, and issues commit in generation order |
| `SqliteAuthority.SQLiteStore.LockAuthorityHead` | internal/authority/sqlite.go:222-237 | creates the missing head from the largest stored generation, returns the head, changes no row |
| `SqliteAuthority.SQLiteStore.IssueGrantWithConstraints` | internal/authority/sqlite.go:464-530 | succeeds exactly on an open reference, mints the next generation, and leaves exactly the tables of the specified issue; an error changes nothing |
| `SqliteAuthority.SQLiteStore.RevokeGeneration` | internal/authority/sqlite.go:535-567 | succeeds exactly when the generation exists and leaves exactly the tables with it stamped; an error changes nothing |
| `SqliteAuthority.SQLiteStore.RevokeGrant` | internal/authority/sqlite.go:601-633 | succeeds exactly when some generation exists and leaves exactly the tables with all of them stamped; an error changes nothing |
| `SqliteAuthority.SQLiteStore.CloseAuthorityRef` | internal/authority/sqlite.go:573-594 | leaves exactly the tables with the reference closed, known or not; an error changes nothing |
| `SqliteAuthority.SQLiteStore.InsertGeneration` | internal/authority/sqlite.go:510-523 | the insert and the advance of the head together are the specified issue |
| `SqliteAuthority.SQLiteStore.Resolve` | internal/authority/sqlite.go:383-443 | reads what the specification of a read on the tables says |
| `SqliteAuthority.ResolveReturnsLive` | internal/authority/sqlite.go:383-443 | a read returns only the latest generation, unrevoked, to its own principal, unexpired, under a digest that verifies |
| `SqliteAuthority.RunTablesRefines` | internal/authority/sqlite.go:464-633 | a run of written operations refines the same run of the serial specification |
| `SqliteAuthority.RunSafety` | internal/authority/sqlite.go:383-633 | over such a run a read never goes back behind an earlier state, never returns a generation revoked then, and a closed reference gains none |
| `SqliteAuthority.IssueThenResolve` | internal/authority/sqlite.go:383-530 | over such a run, while live and unexpired, an issue reads back as exactly the minted grant, for every capability list and constraint map |
| `SqliteAuthority.Perform` | internal/authority/sqlite.go:464-633 | a call on the store takes effect exactly when the driver holds up and the specification accepts it, and then writes exactly its operation |
| `SqliteAuthority.PerformAll` | internal/authority/sqlite.go:464-633 | any sequence of calls on the store, refused and failed ones included, leaves exactly the tables of the run of the operations that took effect |
| `SqliteAuthority.IssueCallsRead` | internal/authority/sqlite.go:383-633 | on the store itself: an accepted issue, any calls after it, then a read by its principal gives back the minted grant while it is live and unexpired |
| `SqliteAuthority.RevokeAllIsFinal` | internal/authority/sqlite.go:601-633 | over any run, from a revocation of the whole grant until it is issued again, every read of it is denied |
| `SqliteAuthority.RevokeOneIsFinal` | internal/authority/sqlite.go:535-567 | over any run, from a revocation of one generation on, no read returns that generation |
| `SqliteAuthority.CloseIsFinal` | internal/authority/sqlite.go:573-594 | over any run, from a close on, the reference is closed and its generations are the ones it had |
| `SqliteAuthority.CallCallsRead` | internal/authority/sqlite.go:383-633 | on the store itself: the three for a call that takes effect, any calls after it and a read |
| `Admission.CheckResourceConstraints` | internal/capability/admission.go:161-186 | refuses nothing exactly when every bound dimension has a bound argument the grant allows, whatever order the dimensions are visited in |
| `Admission.NullArgumentAdmittedIff` | internal/capability/admission.go:161-186 | an admitted request bound a string for the dimension exactly when the grant does not allow the empty string |
| `Admission.VerifyAuthority` | internal/capability/admission.go:96-155 | the whole decision table: authorised, not required, or refused as unknown capability, invalid request or unauthorised, each exactly when |
| `Admission.PostgresEndToEnd` | internal/capability/admission.go:96-155 | after any interleaving, an authorised request was authorised by the latest committed generation, unrevoked, unexpired on the database clock, digest-verified, issued to the requester and permitting the capability and every bound argument |
| `Admission.SqliteEndToEnd` | internal/capability/admission.go:96-155 | the same over any run of operations written to the embedded store |
| `Admission.PostgresFromStart` | internal/capability/admission.go:96-155 | the guarantee from the opening of the store on, empty or upgraded, with no invariant assumed |
| `Admission.AuthorizeAfterCalls` | internal/capability/admission.go:96-155 | on the embedded store itself: after any sequence of calls an authorisation that reads it has the same guarantee |
| `AwsLaunch.FixedCreateControl.CreateServer` | internal/cli/aws.go:779-813 | one attempt: announced durably before the call, pinned until its rejection is recorded, never resent after a recorded failure |
| `AwsLaunch.FixedCreateControl.RecordFailure` | internal/providers/aws/backend.go:276-291 | the provider's record of a rejection makes the token count as failed, whether or not it could be persisted |
| `AwsLaunch.FixedCreateControl.TryCreate` | internal/cli/aws.go:578-590 | one candidate in one market: a server of that type and market, or a failure that, when retryable, leaves the protocol resumable |
| `AwsLaunch.FixedCreateControl.TryAll` | internal/cli/aws.go:591-606 | candidates are tried in order and the next one only after a recorded definite rejection |
| `AwsLaunch.FixedCreateControl.TryMarkets` | internal/cli/aws.go:591-621 | all candidates in the first market in order, then only marked ones on demand |
| `AwsLaunch.FixedCreateControl.RollBack` | internal/cli/aws.go:530-555 | the deferred rollback: which key is deleted, whether the failure is recorded, and whether the attempt stays pinned, in every case |
| `AwsLaunch.FixedCreateControl.CreateServerInRegion` | internal/cli/aws.go:519-626 | over the whole launch every call was announced, no attempt was sent twice, nothing at all follows a call that was not definitely rejected, a call of unknown effect keeps its attempt pinned and the key in place, a terminal one unpins only after key and record are done, and the four outcomes are told apart by the log alone |
| `AwsCheckpoint.UniqueStringsOf` | internal/cli/gcp.go:716-728 | the loop yields the specified list |
| `AwsCheckpoint.UniqueStringsFacts` | internal/cli/gcp.go:716-728 | that list has no repeats and holds exactly the non-blank values, trimmed |
| `AwsCheckpoint.Cloud.GuardAccount` | internal/cli/aws.go:1039-1052 | passes only a blank expectation or the caller's own account, and always those when no call fails |
| `AwsCheckpoint.Cloud.DeleteSnapshotWithRetry` | internal/cli/aws.go:1054-1081 | removes at most that snapshot, and reports success in the owner's account only when it is gone |
| `AwsCheckpoint.Cloud.DeleteImageCheckpoint` | internal/cli/aws.go:983-1022 | wherever it stops, the image is still registered or the persisted list names every backing snapshot; success in the owner's account leaves none; and the exact refusals when no call fails |
| `AwsCheckpoint.BlankAccountReportsSuccess` | internal/cli/aws.go:983-1052 | every blank, non-empty account id can report success while the owner's snapshot remains |
| `StagingLocks.StepKeepsInv` | internal/applevmhelper/runtime_darwin_arm64.go:637-768 | every system call of every process, and a crash at any point, keeps locks, inodes, fresh files and the cleaner's view consistent |
| `StagingLocks.LiveWriterProtected` | internal/applevmhelper/runtime_darwin_arm64.go:637-663 | a live writer's file is covered by its own lock or by its directory lock |
| `StagingLocks.CleanerRemovesOnlyAbandoned` | internal/applevmhelper/runtime_darwin_arm64.go:709-768 | the path a cleaner is about to unlink belongs to no live writer |
| `StagingLocks.FirstLockNeverContended` | internal/applevmhelper/runtime_darwin_arm64.go:335-380 | the non-blocking lock on a file just created or just cloned always succeeds |
| `StagingLocks.CompletedPassRemovedTheRest` | internal/applevmhelper/runtime_darwin_arm64.go:709-768 | a pass that completes has removed every matching file but those whose lock another process held when the pass came to them |
| `StagingLocks.RunKeepsInv` | internal/applevmhelper/runtime_darwin_arm64.go:637-768 | the invariant holds after every schedule |
| `StagingNames.StaysInPlaceIff` | internal/applevmhelper/runtime_darwin_arm64.go:300-331 | a live writer's file stays under its name, whatever the other processes do, exactly when none of them owes a removal of an equal name |
| `StagingNames.RunLeavesInPlace` | internal/applevmhelper/runtime_darwin_arm64.go:637-768 | while none does, no schedule of the others moves the file or makes one of them owe it |
| `StagingNames.NameTakenTwice` | internal/applevmhelper/runtime_darwin_arm64.go:300-380 | from an empty cache: a run in which the deferred removal of one process takes away the live file of another |
| `SparseCopy.IsAllZero` | internal/applevmhelper/runtime_darwin_arm64.go:1163-1170 | true exactly when every byte is zero |
| `SparseCopy.File.WriteSparseBlocks` | internal/applevmhelper/runtime_darwin_arm64.go:1130-1161 | on success every byte of the range is as wanted or was left because it is zero there; nothing outside changes, on failure either |
| `SparseCopy.File.CopyReaderAtRange` | internal/applevmhelper/runtime_darwin_arm64.go:1102-1128 | for every pattern of short reads and every buffer size, success means the range holds the source; nothing outside changes |
| `SparseCopy.File.CopySparseImageWithHash` | internal/applevmhelper/runtime_darwin_arm64.go:410-444 | success on an empty target makes it equal to the source prefix, and exactly those bytes were hashed |
| `SparseCopy.File.ConvertToRaw` | internal/applevmhelper/runtime_darwin_arm64.go:787-847 | terminates for every extent oracle; with truthful extents success makes an empty target equal to the whole virtual disk |
| `Qcow2.ValidateHeaderExtensions` | internal/applevmhelper/runtime_darwin_arm64.go:980-1003 | the walk ends inside the first cluster and accepts exactly the well-formed extension chains |
| `Qcow2.ValidateMetadata` | internal/applevmhelper/runtime_darwin_arm64.go:870-967 | accepts exactly the well-formed images, stated over unbounded integers |
| `Qcow2.RangeExact` | internal/applevmhelper/runtime_darwin_arm64.go:969-978 | the 64-bit range test is exactly alignment and containment: no sum or difference in it wraps |
| `Qcow2.L1Exact` | internal/applevmhelper/runtime_darwin_arm64.go:870-967 | the L1 tests are exactly: bounded, inside the file, and entries times coverage reach the virtual size |
| `Qcow2.RefcountExact` | internal/applevmhelper/runtime_darwin_arm64.go:870-967 | the refcount test is exactly a non-empty bounded table inside the file |
| `Qcow2.SnapshotsExact` | internal/applevmhelper/runtime_darwin_arm64.go:870-967 | the snapshot test is exactly that any snapshot headers lie inside the file |
| `Qcow2.TablesExact` | internal/applevmhelper/runtime_darwin_arm64.go:870-967 | all wrap-around tests together are exactly the unbounded description of a well-formed image |
| `Yaml.Resolved` | scripts/workflow_action_pins.go:244-256 | following aliases and documents ends at a value |
| `Yaml.FoundIff` | scripts/workflow_action_pins.go:209-242 | stopping at mappings already on the path loses nothing: it finds exactly what some chain of merges, cyclic or not, reaches |
| `Yaml.Search` | scripts/workflow_action_pins.go:209-242 | the depth-first search terminates on every graph and returns exactly what the path-bounded search defines |
| `Yaml.MappingValues` | scripts/workflow_action_pins.go:209-242 | a lookup returns exactly the values some chain of merge keys gives the key |
| `ActionPins.ValidTargetIff` | scripts/workflow_action_pins.go:266-281 | the accepted targets are exactly local paths, sha256-pinned containers and 40-hex commit pins |
| `ActionPins.WorkflowActionNodes` | scripts/workflow_action_pins.go:185-207 | collects exactly the `uses` of every job and of every step of every job |
| `ActionPins.ManifestActionNodes` | scripts/workflow_action_pins.go:133-170 | collects exactly the `uses` of every step of a composite action |
| `JobMeaning.ActionsExaminedIff` | scripts/workflow_action_pins.go:185-207 | the checker sees every action a workflow uses, jobs merged in and not overridden included, exactly when no merged-in job uses one it does not see anyway |
| `JobMeaning.UsesAgreeIff` | scripts/workflow_action_pins.go:185-207 | examined and used actions are the same exactly when, besides, the value of a merge key taken for a job uses nothing else |
| `JobMeaning.SemUsesIff` | scripts/workflow_action_pins.go:185-207 | without a merge key in a jobs mapping the examined actions are exactly the used ones |
| `JobMeaning.MergedJobIsMissed` | scripts/workflow_action_pins.go:185-207 | a workflow whose merged-in job uses an unpinned action and shows no action at all |
| `WorkflowChecks.WorkflowChecker.FindManifests` | scripts/workflow_action_pins.go:109-119 | finds exactly the manifests behind a target, under both spellings, or reports that one cannot be inspected |
| `WorkflowChecks.WorkflowChecker.CheckLocalAction` | scripts/workflow_action_pins.go:91-131 | no finding settles the target and every manifest newly entered in the memo; a finding comes with a chain to what is wrong; no manifest is opened twice |
| `WorkflowChecks.WorkflowChecker.CheckLocalActionManifest` | scripts/workflow_action_pins.go:133-170 | no finding settles the manifest and every one newly entered; a finding is real |
| `WorkflowChecks.WorkflowChecker.CheckWorkflowFile` | scripts/workflow_action_pins.go:62-89 | every document is checked, and a decoding error after them is a finding |
| `WorkflowChecks.ClosedIsFine` | scripts/workflow_action_pins.go:91-170 | once every manifest in the memo is settled, everything any chain of local actions reaches is fine, cycles included |
| `WorkflowChecks.CheckWorkflowDir` | scripts/workflow_action_pins.go:32-60 | reports no finding exactly when every workflow decodes and everything reachable through any chain of local composite actions is pinned, inside the repository and readable |
| `WorkflowMeaning.ExemptIsExamined` | scripts/workflow_action_pins.go:91-98 | however an exempt target spells its path, a directory entry it names is examined as a workflow exactly when it is not a directory |
| `WorkflowMeaning.VerdictCoversAll` | scripts/workflow_action_pins.go:32-170 | with examined and used actions alike in every workflow and no manifest hidden behind an exempt target, what the checker reaches is exactly what the workflows reach, so a clean verdict means all of it is pinned |
| `WorkflowMeaning.CoveredIff` | scripts/workflow_action_pins.go:32-170 | in any checkout the checker reaches all that the workflows reach exactly when it reaches all that merged-in jobs and manifests behind exempt targets name |
| `WorkflowMeaning.AlikeVerdict` | scripts/workflow_action_pins.go:91-131 | the checker cannot tell apart checkouts that differ only in manifests it does not examine |
| `WorkflowMeaning.NothingHiddenIff` | scripts/workflow_action_pins.go:91-98 | for a clean checkout, nothing hides behind an exempt target exactly when, whatever the unexamined manifests hold, everything reached is pinned |
| `WorkflowMeaning.ExemptHidesUnpinned` | scripts/workflow_action_pins.go:91-98 | a checkout found clean in which a step runs an unpinned action behind an exempt target |
| `Receipts.LengthPrefixedBytes` | internal/cli/attest.go:318-328 | the loop writes the prefix and the length-prefixed code of the values |
| `Receipts.DecodedEncoded` | internal/cli/attest.go:318-328 | the code is uniquely decodable when every length fits in 32 bits |
| `Receipts.WrappedLengthIsAmbiguous` | internal/cli/attest.go:318-328 | without that bound two different lists share a code |
| `Receipts.TerminalReceiptSigningBytes` | internal/cli/attest.go:288-316 | the signed bytes are the version's prefix and the code of the version's values |
| `Receipts.SigningValuesShort` | internal/cli/attest.go:385-469 | the validator bounds every signed value below 2^32 bytes |
| `Receipts.SigningBytesIff` | internal/cli/attest.go:288-469 | two validated receipts, of either version, have equal signed bytes exactly when they agree on every field but the signature |
| `Receipts.UnvalidatedEvidence` | internal/cli/attest.go:288-316 | without the validator the evidence can be exchanged under the same bytes exactly before version 3 |
| `ReceiptBuild.Build` | internal/cli/attest.go:338-383 | what is signed was validated first, is the draft of the run, and carries the signature of its signed bytes |
| `ReceiptBuild.DraftTimes` | internal/cli/attest.go:338-383 | the duration always matches the times, so that only their order and negative counts can be refused |
| `ReceiptBuild.BuildIff` | internal/cli/attest.go:281-469 | a receipt is built exactly for the runs whose fields meet the limits, in time order and with the evidence of their version, and whose receipt fits in 16 KiB |
| `ReceiptBuild.BuiltIsAccepted` | internal/cli/attest.go:338-484 | what is built is accepted by the verifier |
| `ReceiptBuild.BuiltVerifiesIff` | internal/cli/attest.go:486-510 | a receipt verifies against the run it was built from exactly when that run starts on a whole millisecond and lasts at least as long as its parts |
| `ReceiptBuild.VerifiedCommand` | internal/cli/attest.go:277-279 | a receipt verifies against another run only if it ran the same arguments, unless two texts share a digest |
| `Receipts.AcceptedWasBuilt` | internal/cli/attest.go:471-484 | if signatures are unforged, an accepted receipt is field for field one that the key's holder built |
| `DuplicateKeys.Decoder.HasDuplicateKeys` | internal/cli/attest.go:556-599 | the recursive scan over the decoder says what the scan of the remaining tokens defines and stops where that does |
| `DuplicateKeys.ScanReports` | internal/cli/attest.go:556-599 | on any document's tokens cut anywhere, a duplicate is reported only if some object repeats a key; on all of them exactly then, and otherwise exactly the document was read |
| `DuplicateKeys.ScanDocument` | internal/cli/attest.go:512-524 | the verdict on a complete document is exact; on a cut one it is an error or a true duplicate |
| `Schema.CheckType` | internal/capability/schema.go:233-271 | accepts exactly the values of the named type, integers by the number a literal denotes if it is read |
| `Schema.CheckEnum` | internal/capability/schema.go:157-178 | the search finds a member exactly when one matches |
| `Schema.CheckNumber` | internal/capability/schema.go:180-193 | minimum, maximum and multipleOf by exact rational arithmetic |
| `Schema.CheckLength` | internal/capability/schema.go:195-208 | minLength and maxLength in code points, against exact bounds |
| `Schema.ValidateValue` | internal/capability/schema.go:149-230 | accepts exactly the values that conform, by recursion on the value |
| `Schema.ValidateObject` | internal/capability/schema.go:82-146 | accepts exactly the objects that conform, in whatever order properties and fields are visited |
| `Schema.ValidateArguments` | internal/capability/schema.go:51-79 | no schema accepts all, an unreadable one none, missing arguments count as an empty object, the rest exactly by conformance |
| `BoundMeaning.BoundsBindIff` | internal/capability/schema.go:180-193 | every read and accepted number is within a schema's minimum, maximum and multipleOf exactly when minimum and maximum are read and so is the step, unless it is zero, finer than anything that is read, or without effect between the two |
| `BoundMeaning.EachBoundIff` | internal/capability/schema.go:180-193 | alone, a minimum or a maximum binds the numbers that are read exactly when it is read, and a step also when every number that is read is a multiple of it |
| `BoundMeaning.ReadBoundsExact` | internal/capability/schema.go:180-193 | where neither value nor bounds are declined, a number passes exactly when it is within the bounds |
| `BoundMeaning.ValueBoundIff` | internal/capability/schema.go:180-193 | bounds that are read bind a number exactly when its literal is read |
| `BoundMeaning.BoundsBindAllIff` | internal/capability/schema.go:180-193 | over all number literals only a schema without bounds, or with a step of zero, is enforced |
| `BoundMeaning.NeverTooStrict` | internal/capability/schema.go:180-208 | a number or string that the bounds allow is never refused |
| `BoundMeaning.LengthsBindIff` | internal/capability/schema.go:195-208 | every accepted string has a length within the bounds exactly when the maximum is read, and the minimum is read, not above zero, or under a maximum below zero |
| `BoundMeaning.TypeIff` | internal/capability/schema.go:233-271 | the type of a number is told by its value exactly when the literal is read or has a fractional part |
| `BoundMeaning.HugeEscapes` | internal/capability/schema.go:180-271 | 1 with exponent 1000001 exceeds a maximum it passes, as a minimum lets 1 pass, as a minimum length any string, and is refused as an integer that it denotes |
| `EnumMeaning.EnumIff` | internal/capability/schema.go:157-178 | for one value the test is membership exactly when a member that only prints alike comes with one that is the value, and a member that is the value with one that matches |
| `EnumMeaning.EnumExactIff` | internal/capability/schema.go:157-178 | the test is membership for every value exactly when no member has a number inside and everything that prints like a member is listed |
| `EnumMeaning.ScalarEnumIff` | internal/capability/schema.go:157-178 | for a list of scalars it is membership for every scalar exactly when the list has no number, no text spelling one, and null, true and false only together with their texts |
| `EnumMeaning.ReadEnumIff` | internal/capability/schema.go:157-178 | for every scalar that is read, exactly when names, numbers and the texts they print as are listed together and every listed number that can be read is listed so |
| `EnumMeaning.EnumConfusesTextAndNumber` | internal/capability/schema.go:157-178 | the string 1 passes an enum that lists only the number 1 |
| `EnumMeaning.EnumMissesSpellings` | internal/capability/schema.go:157-178 | 1E1000001 is refused where 1e1000001 is listed, and [1.0] where [1] is |
| `SchemaMeaning.ClosedIff` | internal/capability/schema.go:104-143 | additionalProperties: false shuts out undeclared fields exactly when properties is an object or the schema's type excludes objects |
| `SchemaMeaning.ConformsIsMeant` | internal/capability/schema.go:149-230 | where the keyword conditions hold at every level of the schema and all numbers of the value are read, the validator accepts exactly what the schema means |
| `SchemaMeaning.ArgumentsMeant` | internal/capability/schema.go:51-79 | the same for arguments as sent, missing and unreadable ones included |
| `Numerals.ExactIsDenoted` | internal/capability/schema.go:29-41 | exact parsing gives the number a literal denotes, whatever its magnitude, and declines exactly the literals beyond its limits |
| `Numerals.SpellingsOfOne` | internal/capability/schema.go:157-178 | 1, 1.0 and 1e0 are one number |
| `Numerals.TrailingZero` | internal/capability/schema.go:29-41 | a zero at the end of the fraction does not change what a literal denotes |
| `Numerals.SpelledInjective` | internal/capability/schema.go:15-23 | two literals with one text are one literal |
| `Numerals.ReadableIff` | internal/capability/schema.go:29-41 | the numbers with a literal that is read are exactly the multiples of ten to the minus one million, of any size |
| `Numerals.ObscuredFacts` | internal/capability/schema.go:29-41 | every number has a literal, of any length asked for, that is declined |
| `Numerals.WholeIff` | internal/capability/schema.go:233-271 | a literal denotes a whole number exactly when the digits its shift puts behind the point are zeros |
| `CanonicalNumbers.ReadsIff` | internal/idempotency/digest.go:91-141 | the scan accepts exactly the texts of JSON number literals, and reads each as the literal it spells |
| `CanonicalNumbers.CanonicalJSONNumber` | internal/idempotency/digest.go:91-175 | every literal text is rewritten to its canonical spelling and every other text is refused |
| `CanonicalNumbers.CanonicalDenotes` | internal/idempotency/digest.go:143-175 | the canonical spelling denotes the same number |
| `CanonicalNumbers.CanonicalIff` | internal/idempotency/digest.go:91-175 | two literals have one canonical spelling exactly when they denote one number, whatever their exponents |
| `CanonicalNumbers.CanonicalTwice` | internal/idempotency/digest.go:91-175 | canonical spellings are canonical |
| `CanonicalNumbers.NormalizedIff` | internal/idempotency/digest.go:194-251 | two documents normalise alike exactly when they are the same JSON value |
| `RequestDigest.DigestMaterial` | internal/idempotency/digest.go:303-340 | the hashed map holds exactly what is bound; absent bindings are left out |
| `RequestDigest.SameMaterialIff` | internal/idempotency/digest.go:303-347 | two requests are hashed from the same material exactly when all fields agree and the arguments are the same JSON value |
| `Registry.RegistrationsArePermanent` | internal/capability/registry.go:436-469 | over every run of registrations a present descriptor never changes or disappears |
| `Registry.RegisterAloneIsSound` | internal/capability/registry.go:330-451 | a registry built by Register alone has no class, assurance, route, version or local-grant finding |
| `Registry.RegisterResolvedMayBeUnsound` | internal/capability/registry.go:455-469 | the shortcut can store a descriptor with such a finding |
| `Registry.RegisterResolvedSoundIff` | internal/capability/registry.go:455-469 | it keeps a registry free of them exactly when it refuses the descriptor or the descriptor is sound |
| `Registry.CapabilityRegistry.Register` | internal/capability/registry.go:436-451 | adds the resolved descriptor under a new id or changes nothing |
| `Registry.CapabilityRegistry.RegisterResolved` | internal/capability/registry.go:455-469 | adds the descriptor as given under a new id or changes nothing |
| `Registry.CapabilityRegistry.CanonicalDescriptors` | internal/capability/registry_digest.go:144-199 | lists every canonical descriptor once, numbers of its schema in canonical spelling, in ascending order of id, exactly when every schema is JSON |
| `Registry.CanonicalIff` | internal/capability/registry_digest.go:144-171 | two descriptors are exported alike exactly when their schemas are the same JSON value, null counting as none, and all else agrees, version 0 counting as 1 |
| `Registry.ExportIff` | internal/capability/registry_digest.go:144-199 | two registries export the same list exactly when they hold the same policies under the same ids |
| `Registry.ExportUnique` | internal/capability/registry_digest.go:176-199 | the export depends on the entries alone, not on registration or iteration order |
| `Registry.CapabilityRegistry.Validate` | internal/capability/registry_digest.go:304-350 | reports exactly the unsound descriptors, in order |
| `Heredoc.ContainsIffLine` | internal/cli/actions.go:1821-1828 | the framed substring test asks exactly whether the word is a line of the script |
| `Heredoc.HeredocDelimiter` | internal/cli/actions.go:1821-1828 | terminates for every script, because each rejected candidate is another line of it, with the first candidate that is not a line |
| `Heredoc.Builder.AppendRunStep` | internal/cli/actions.go:1807-1819 | appends one step for a known shell; an unknown one is refused and nothing is written |
| `Heredoc.BodyRoundTrip` | internal/cli/actions.go:1807-1819 | reading the block line by line up to the delimiter returns exactly the script and its final newline, and leaves what follows |
| `Heredoc.QuoteRoundTrip` | internal/cli/ssh.go:1624-1626 | a shell reads a quoted word back as the word |
| `Heredoc.StepsRoundTrip` | internal/cli/actions.go:1807-1828 | whatever scripts and directories hold, a shell reads back exactly the steps written, in order |

## Left out

- AwsLaunch.FixedCreateControl.CreateServerInRegion: covers one region and launches with both persistence callbacks; the fallback over regions and launches without them are not modelled, because the terminal flag is not reset between regions and a plain launch has no protocol to keep.
- AwsLaunch.FixedCreateControl.CreateServer: images, security groups and key import before the attempt are one error outcome, because they are remote lookups without an invariant.
- WorkflowChecks.CheckWorkflowDir: the messages and line numbers of findings are not modelled; only whether there is one.
- Registry.RegisterAloneIsSound: does not cover schema, adapter and resource-argument findings, because `Register` does not check them; `Registry.CapabilityRegistry.Validate` reports them exactly.
- Registry.CapabilityRegistry.CanonicalDescriptors: the JSON text of the exported list is not modelled; it is a function of the list.
- CanonicalNumbers.NormalizedIff: numbers are rewritten in a copy of the document, because nothing else holds the decoded one; numbers that arrive as Go integers or floats are not modelled.
- SchemaMeaning.ConformsIsMeant: each keyword's condition is exact for that keyword; for a whole schema together they are sufficient, because one keyword can refuse what another lets through. An enum that lists arrays or objects is covered by `EnumMeaning.EnumExactIff` only.
- JobMeaning.ActionsExaminedIff: of several merged mappings with the same key each counts, so there the used actions are an upper bound.
- SparseCopy.File.ConvertToRaw: what the image library reports about extents is an arbitrary function; that it is truthful is a hypothesis of the equality and of nothing else.
- ReceiptBuild.BuildIff: that base64 and times read back, that digests look like digests, and the length of a receipt as JSON text are taken from arbitrary encoders.
- Numerals.ExactIsDenoted: the limit of exact parsing is that of Go's math/big, a shift of one million, which is not part of this repository.
- Receipts.AcceptedWasBuilt: that Ed25519 signatures cannot be forged is a hypothesis; parsing of times, base64 and key fingerprints are arbitrary functions.
- The resolver kept in memory, the presence checks of `Admit`, and capability slices that are null rather than empty: they would only add easy members.
- SHA-256, Ed25519 and base64 themselves, and JSON text below tokens and decoded values; strings are taken to be valid UTF-8.
- SQL text, schema probes, drivers and metrics: a statement is one step on maps, and a driver failure is a choice of the environment.
- The SQLite legacy migration and its digest rewrite: they repeat the PostgreSQL ones on the same tables.
- White space outside ASCII in trimming.
- Windows path forms in the action-pin checker; a path is cleaned lexically as on Unix.
- Receipts of schema version 1, and receipt files.
- The Effect Fabric, adapters, relays, runners, SSH and rsync, VM processes, Slurm, the command line and its other providers.
