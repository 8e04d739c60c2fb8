# A verified model of GrowlerDB's control plane, cold tier and gateway

GrowlerDB indexes lakehouse tables into search shards. This project models the
parts of it whose correctness depends on order, on concurrency and on what a
crash leaves behind, and proves what they promise for every run.

How the model is put together:

- **Control-plane leadership** (`RegistryStore`, `Leadership`,
  `LeadershipTheorems`, `LeadershipCalls`, `LeadershipExamples`, `PostgresBackend`). Any number of
  replicas share one Postgres table of four versioned documents, each flushed under
  its own lock, and one advisory lock. A run is any list of steps: mutate, capture,
  persist, roll back, undo, race for the lock, reload, confirm, resign, verify,
  poll, a session dying, a reply being lost. A document is the list of mutations
  folded into it, so "built from" is the prefix order; a load marks unfinished jobs
  failed in memory. The backend, the registry's persist-with-rollback, the
  revocation of sessions and the leadership tick are also written as objects that
  update their fields, each method proved to be the step or steps it stands for.
- **Backups and replicas** (`Script`, `ObjectPrefix`, `Backup`, `Refresh`,
  `RefreshTheorems`). A writer is the list of object operations it performs; a crash
  or an error is a prefix of that list. A replica's reads each see the prefix after
  some number of the primary's operations.
- **The cold tier** (`Bundle`, `ColdTier`, `ColdTierImpl`, `LivePark`). Parking and
  promoting, one durable effect at a time, offline and beside live commits.
- **A pool node** (`Publication`, `Assignment`). Publishing shards into four maps
  under separate locks, and following pushed assignments.
- **Durable files and keys** (`DurableFiles`, `DurableFilesImpl`, `LittleEndian`,
  `KeyCodec`). A file system that keeps synced bytes and synced directory entries
  and nothing else, and the canonical byte encoding of composite keys.
- **The gateway** (`Sorting`, `Rounding`, `SortValues`, `GatewayPaging`, `TopWindow`,
  `WindowedScroll`, `ScrollExamples`, `RoutingPlan`, `WindowRouting`). The shared
  comparator, scatter-gather pages and scrolls over any number of shards, and the two
  routing plans. A hit carries its sort values as the segment stores them; what the
  ranking and the cursors see is the value as read, a 64-bit integer rounded to the
  nearest float, and what a query compares a cursor with is that float cast back.

Where the code does not meet a property it is documented to have, the model keeps
the code as it is, shows a run that fails, and proves exactly when the property
holds:

- A reload that lands between a replica's capture of a document and its persist
  refreshes the version the guard compares, and the stale capture is accepted
  (`ReloadUnderCaptureLosesUpdate`, `NoUpdateIsLost`, `WriteKeepsOthersIff`).
- A call's mutation is applied before the flush lock is taken. A reload or rollback
  in between takes it out of memory, and the call is acknowledged for a row that does
  not hold it (`PromotionDropsOwnUpdate`, `AcknowledgedIsInRowIff`).
- A rollback that fails leaves a refused mutation in a cache whose version reads as
  current (`FailedRollbackLeavesPhantom`, `RememberedVersionMeansCurrent`).
- A standby that follows a leader with a running job reads the job as failed, at
  equal versions (`FollowerFailsRunningJob`, `FollowerEqualsStoreIff`).
- A writer that took the hot shard from its handle before a live park's swap can
  commit between the park's check and its eviction (`StrayCommitIsLost`,
  `EndedPassServesIff`).
- A live park that stays hot because a write raced it leaves its marker behind, and a
  restart goes by the marker: what was committed since the backup is no longer served
  (`RacedPassThenRestartLosesCommit`, `CommitUnderMarkerIsLost`, `RestartServesIff`).
- A refresh cannot see a backup that is still uploading
  (`UploadingBackupTears`, `RefreshIsExactIff`).
- A refresh does not refuse a bundled prefix as a restore does: it reports success and
  leaves the replica without index files (`RefreshAfterPark`, `RestoreAfterRun`).
- A promotion ignores a failed marker removal and goes on to delete the copy the
  marker selects (`PromoteIsCrashSafeIff`, `FailedRemovalStrandsWindow`).
- A failed registry write leaves `.prev` a second name of the file itself, so damage
  to it takes both (`FailedCallLeavesOneFile`, `DamagedFileFallsBackIff`).
- A page sorted by one key is cut by that key alone; with a tie at the cut the page
  is not the head of the documented total order, and a scroll can skip a hit
  (`TiedHitIsSkipped`, `WindowIsExactIff`, `PageIsRightIff`, `ScrollIsExactIff`).
- A cursor over a 64-bit integer or date column carries a float. Past 2^53 the cast
  back can land on another integer: a scroll then returns one hit for ever, or loses
  one, with no tie anywhere (`ScrollPast2To53`, `MovedOnHitIsLost`, `SelectedAgainIff`,
  `KeysetIsExactIff`, `ScanScrollIsExactIff`, `KeyScrollIsExactIff`). The ranking
  compares the floats and the collector the integers, so hits that read alike can be
  paged in the wrong order (`FloatTieMisleads`).
- The comparator is not transitive with NaN (`PreorderIff`).
- The window fingerprint does not see event-time bounds
  (`FingerprintIgnoresBounds`, `FingerprintIff`).

Nothing here was executed; every statement is a proof about the model.

## Model

| member | source | states |
|---|---|---|
| RegistryStore.UpsertGrows | crates/growlerdb-controlplane/src/postgres_backend.rs:194-239 | the version-guarded write adds exactly one row, numbered next, to exactly one document when its baseline is the current version, and otherwise changes nothing; no row's version ever falls |
| RegistryStore.ChainExtends | crates/growlerdb-controlplane/src/postgres_backend.rs:194-239 | writing a document keeps "every version contains every earlier one" if and only if the document extends the current row |
| Leadership.RunKeepsWorld | crates/growlerdb-controlplane/src/registry.rs:758-963 | in every run every replica's images were loaded from the versions they name, baselines and polled sums were reached, and no row loses a version |
| Leadership.PolledSumRises | crates/growlerdb-controlplane/src/postgres_backend.rs:166-180 | the version sum a standby polls never falls over any run |
| LeadershipTheorems.WriteIsGuarded | crates/growlerdb-controlplane/src/postgres_backend.rs:194-239 | in every reachable world only a persist by a flagged writer whose baseline is the current version, over a live session, changes a row, and it writes the captured document as the next version |
| LeadershipTheorems.GuardedRunKeepsChain | crates/growlerdb-controlplane/src/postgres_backend.rs:194-239 | with no help from the lock: if every accepted write was captured from the version its baseline names, every version of the row contains every earlier one, for any number of replicas that believe they are the writer |
| LeadershipTheorems.NoUpdateIsLost | crates/growlerdb-controlplane/src/postgres_backend.rs:194-400 | for each of the four rows: in every run in which no reload falls between a capture of that document and its persist, every version was built on every earlier one and no mutation the store once held is ever lost, through session deaths, lost replies, failed reloads and the other documents' rollbacks |
| LeadershipTheorems.GuardAloneKeepsRegistry | crates/growlerdb-controlplane/src/registry.rs:758-821 | the same for the registry row from the version guard alone, with no use of the advisory lock |
| LeadershipTheorems.WriteKeepsOthersIff | crates/growlerdb-controlplane/src/registry.rs:758-821 | an accepted persist keeps everyone's updates if and only if what has landed in the row since its snapshot was captured is what the snapshot's own changes begin with; where they begin with something else, if and only if nothing has landed |
| LeadershipCalls.AcknowledgedIsInRowIff | crates/growlerdb-controlplane/src/registry.rs:758-821 | the row an acknowledged call writes holds the call's own mutation if and only if, between its mutation and its capture, the replica neither loaded that document anew nor took the mutation out again, whatever else ran |
| LeadershipExamples.PromotionDropsOwnUpdate | crates/growlerdb-controlplane/src/registry.rs:879-913 | a run in which a standby's mutation is swept away by its promotion reload and the persist that follows is acknowledged without it |
| LeadershipExamples.ReloadUnderCaptureLosesUpdate | crates/growlerdb-controlplane/src/registry.rs:921-953 | a run in which a promotion reload between capture and persist makes the guard accept a stale snapshot and an acknowledged mutation disappears |
| LeadershipTheorems.RememberedVersionMeansCurrent | crates/growlerdb-cli/src/lib.rs:6148-6198 | whenever the polled sum equals the remembered version, each in-memory document was loaded from exactly the row the store holds, and equals it if and only if memory carries no change of its own on top, a load's marking of unfinished jobs included |
| LeadershipTheorems.FollowerEqualsStoreIff | crates/growlerdb-controlplane/src/registry.rs:879-913 | a replica that applied nothing of its own, at equal versions, equals the store in every document, except that its jobs equal the row if and only if the row holds no unfinished job |
| LeadershipTheorems.FollowerReadsJob | crates/growlerdb-controlplane/src/registry.rs:893-903 | such a replica reads every job as the row has it, except that a job in progress there reads as failed |
| Leadership.LoadFailsJobsInProgress | crates/growlerdb-controlplane/src/registry.rs:893-903 | a load fails exactly the jobs in progress: jobs that ended or had failed read as before, and nothing is added when there is none |
| LeadershipExamples.FollowerFailsRunningJob | crates/growlerdb-controlplane/src/registry.rs:893-903 | a run in which a standby at equal versions reads a running job as failed |
| LeadershipExamples.FailedRollbackLeavesPhantom | crates/growlerdb-controlplane/src/registry.rs:857-871 | a run in which persist and rollback both fail and the cache differs from the store although the versions agree |
| LeadershipTheorems.OneLiveWriter | crates/growlerdb-controlplane/src/postgres_backend.rs:351-404 | in every reachable world at most one confirmed writer has a live session, and that session holds the advisory lock |
| LeadershipTheorems.LiveWriterIsNeverRefused | crates/growlerdb-controlplane/src/postgres_backend.rs:194-239 | a writer whose session is alive always has the current versions as its baseline, so an answered persist of any document succeeds |
| Leadership.OpenedHoldsRows | crates/growlerdb-controlplane/src/postgres_backend.rs:103-111 | a replica that has just opened as a standby and loaded holds every row at its version over a live session, and is not the writer |
| Leadership.FlushIsFreed | crates/growlerdb-controlplane/src/registry.rs:758-821 | after any persist and the rollback or undo that belongs to its document, that document can be captured again and the other documents' flushes are untouched |
| PostgresBackendModel.PostgresBackend.PersistDoc | crates/growlerdb-controlplane/src/postgres_backend.rs:194-239 | persists exactly as a flagged writer whose session answers and whose baseline is the row's version, and then adds one row and moves that baseline by one; any other outcome leaves it not the writer, and no row changes without a writer's statement that ran |
| PostgresBackendModel.PostgresBackend.LoadRows | crates/growlerdb-controlplane/src/postgres_backend.rs:290-328 | hands back the current rows exactly when the session answers and all decode; the baseline becomes the rows' versions as soon as it answers; a failure clears the flag only when the worker is gone |
| PostgresBackendModel.PostgresBackend.TryBecomeLeader | crates/growlerdb-controlplane/src/postgres_backend.rs:351-371 | a session that answers is kept and any other replaced; the lock is won exactly when it was free or this session's, and is then held one deeper; the flag is not touched |
| PostgresBackendModel.PostgresBackend.VerifyLeadership | crates/growlerdb-controlplane/src/postgres_backend.rs:389-400 | reports leadership, and keeps the flag, exactly for a flagged writer whose session answers |
| PostgresBackendModel.PostgresBackend.ResignLeadership | crates/growlerdb-controlplane/src/postgres_backend.rs:377-387 | clears the flag at once; a lock of this session is released by one acquisition exactly when the statement runs, so a lock held once is free; another's lock stays |
| PostgresBackendModel.PostgresBackend.PollVersion | crates/growlerdb-controlplane/src/postgres_backend.rs:166-180 | the sum of the four current versions, or a failure that clears the flag only when the worker is gone |
| PostgresBackendModel.ControlPlane.PersistSnapshot | crates/growlerdb-controlplane/src/registry.rs:758-821 | succeeds exactly for a writer whose session answers at the row's version with no rollback outstanding; a reported persist is what store and memory both hold; a refused one leaves memory at the store's row unless the rollback failed too; the whole call is capture, persist, restore |
| PostgresBackendModel.ControlPlane.RestoreCore | crates/growlerdb-controlplane/src/registry.rs:857-871 | puts the registry document back to the store's row or latches the failed rollback |
| PostgresBackendModel.ControlPlane.ReloadCatalog | crates/growlerdb-controlplane/src/registry.rs:879-913 | replaces all four documents, unfinished jobs marked failed, or none |
| PostgresBackendModel.ControlPlane.RevokeSessions | crates/growlerdb-controlplane/src/registry.rs:1570-1617 | succeeds exactly for a writer whose session answers at the row's version; a reported revocation is in the store's row and in memory; a refused one leaves memory as it was; the call is mutate, capture, persist, undo |
| PostgresBackendModel.ControlPlane.Tick | crates/growlerdb-cli/src/lib.rs:6148-6198 | a writer whose session answers stays ready with lock, rows, baseline and memory as they were; one whose session does not steps down, forgets its version and frees a lock held once; a standby that finds the lock free becomes ready on the current rows with the lock its own exactly when the load works, and otherwise frees it; one that finds it taken follows the rows and remembers their version sum |
| PostgresBackendModel.StandbyTickActions | crates/growlerdb-cli/src/lib.rs:6148-6198 | a standby's tick is promotion, following or nothing, by the lock's verdict |
| ObjectPrefix.ListedFilesSurviveRuns | crates/growlerdb-backup/src/lib.rs:175-487 | over any run of backups and cold parks on one prefix, each stopped after any number of object operations, every file the committed manifest names is stored and every named segment file is intact |
| ObjectPrefix.BackupIsCareful | crates/growlerdb-backup/src/lib.rs:175-247 | no operation of a backup removes an object the committed manifest names or commits a manifest naming an absent one |
| ObjectPrefix.BundlingIsCareful | crates/growlerdb-backup/src/lib.rs:412-458 | the same for the bundle steps of a park, whether or not the bundled manifest landed or the writer heard that it did |
| ObjectPrefix.PrunesEffect | crates/growlerdb-backup/src/lib.rs:281-304 | reclaiming removes exactly the listed objects neither manifest names |
| ObjectPrefix.SameSnapshotDeletesNothing | crates/growlerdb-backup/src/lib.rs:232-243 | a completed backup of a snapshot number no later than the committed one deletes nothing |
| ObjectPrefix.AdvanceKeepsTwoGenerations | crates/growlerdb-backup/src/lib.rs:232-304 | a completed backup of a later snapshot leaves exactly the files of its manifest and of the one it replaced |
| ObjectPrefix.OrphansAreReclaimed | crates/growlerdb-backup/src/lib.rs:281-304 | the same after any run of crashed attempts, so what they orphaned is gone |
| ObjectPrefix.CompletedAttemptRecords | crates/growlerdb-backup/src/lib.rs:175-458 | a completed backup or park has committed a manifest with the number and files of its own snapshot, bundled exactly if it was a park whose bundled manifest was stored |
| ObjectPrefix.CommittedIsOfSomeAttempt | crates/growlerdb-backup/src/lib.rs:175-487 | over any run, crashed attempts included, the committed manifest is the first one or one of an attempt's snapshot |
| RefreshTheorems.RepeatsDeleteNothing | crates/growlerdb-backup/src/lib.rs:225-243 | backups of one snapshot number of the shard, whatever their file layouts and wherever they stop: once the first has completed, no other deletes an object |
| RefreshTheorems.RisingAdvances | crates/growlerdb-backup/src/lib.rs:205-243 | backups of later and later snapshots of the shard commit manifests whose numbers advance |
| Backup.PruneSuperseded | crates/growlerdb-backup/src/lib.rs:281-304 | the loop performs a prefix of the reclaiming deletes, all of them exactly when it reports success |
| Backup.UploadFiles | crates/growlerdb-backup/src/lib.rs:192-204 | the loop uploads a prefix of the files and, on success, records each with its length |
| Backup.Run | crates/growlerdb-backup/src/lib.rs:175-247 | a backup performs the first operations of its list and no others, reports success exactly when it performed them all, and the manifest then stored is unbundled and records the snapshot's number and files |
| Refresh.FetchFile | crates/growlerdb-backup/src/lib.rs:794-816 | a mutable file, or a segment file missing or of another length, is fetched as the pass shows it, any other skipped; nothing else changes; with the object there and no failing read it succeeds |
| Refresh.Download | crates/growlerdb-backup/src/lib.rs:788-817 | every listed file ends up local, mutable ones as some state of the pass showed them; downloads plus skips are the manifest's files; with all segments present only mutable files are downloaded; on a quiet prefix without failing reads it succeeds |
| Refresh.RemoveStale | crates/growlerdb-backup/src/lib.rs:819-832 | removes exactly the local index files the manifest does not name and counts them |
| Refresh.Run | crates/growlerdb-backup/src/lib.rs:744-779 | success is reported only for a pass between two manifest reads of one snapshot, with every listed file copied in between and no extra index file; a repeat against a quiet primary downloads only the mutable files; without failing reads it gives up only after the last pass allowed or on a second missing object, and on a quiet prefix it succeeds and counts the index files it removed |
| Refresh.Restore | crates/growlerdb-backup/src/lib.rs:698-722 | downloads every listed file and adds nothing else; on a quiet prefix without failing reads it succeeds exactly if the manifest is not bundled |
| RefreshTheorems.RestoreAfterRun | crates/growlerdb-backup/src/lib.rs:698-722 | from a prefix any run of backups and parks has left, a reported restore holds every file of the snapshot whose manifest is committed, segments byte for byte; after a park that stored its bundled manifest it never reports success |
| RefreshTheorems.RefreshAfterPark | crates/growlerdb-backup/src/lib.rs:744-841 | a refresh from such a bundled prefix reports success and leaves no index file |
| RefreshTheorems.RefreshIsExact | crates/growlerdb-backup/src/lib.rs:744-841 | over any run of advancing backups and every interleaving of reads with their operations, a reported refresh is exactly the committed manifest's files if no backup was part-way through its uploads at the closing read |
| RefreshTheorems.RefreshReplica | crates/growlerdb-backup/src/lib.rs:744-841 | the refresh program beside any run of backups: what it reports is exactly the committed files under the condition above, where numbers rise from backup to backup |
| RefreshTheorems.RefreshIsExactIff | crates/growlerdb-backup/src/lib.rs:744-841 | every schedule of a reported pass gives the committed files if and only if no listed mutable object showed other bytes during it |
| RefreshTheorems.UploadingBackupTears | crates/growlerdb-backup/src/lib.rs:744-841 | a backup caught before its manifest lands in a reported refresh as a mixed directory |
| RefreshTheorems.SnapshotsRise | crates/growlerdb-backup/src/lib.rs:744-779 | with advancing backups an unchanged snapshot number means no manifest was committed in between |
| RefreshTheorems.RefreshBesideRestore | crates/growlerdb-backup/src/lib.rs:698-841 | run against one quiet prefix, a refresh of any earlier directory, whatever its aux store and metadata files hold, and a restore into an empty one end with the same manifest, index files and aux store, and every segment in place; without failing reads the refresh succeeds, and the restore exactly if nothing is bundled |
| Bundle.BuildFromDir | crates/growlerdb-index/src/bundle.rs:105-135 | the object is the named files joined, the layout cuts every one of them out whole, and a missing file fails the build |
| Bundle.Unbundle | crates/growlerdb-index/src/bundle.rs:141-170 | each name gives its span; a span beyond the bundle fails the whole call |
| Bundle.RoundTrip | crates/growlerdb-index/src/bundle.rs:105-170 | bundling and unbundling a directory gives it back |
| ColdTier.BuiltBundleHolds | crates/growlerdb-backup/src/lib.rs:412-458 | the bundle built from a window's own index files, in manifest order, holds every committed file |
| ColdTier.ParkIsCrashSafe | crates/growlerdb-backup/src/lib.rs:366-487 | at every crash point of an offline park, its bundle built from the window's own files or not built at all, the copy the marker selects holds every committed file, and a finished park is cold |
| ColdTier.FinishedPark | crates/growlerdb-backup/src/lib.rs:366-592 | a finished park leaves a manifest of its snapshot, bundled exactly if bundle, layout and bundled manifest were stored; a marker of that snapshot, local and published, bundled exactly if bundle and layout were; and locally everything but what it evicted |
| ColdTier.ParkOrder | crates/growlerdb-backup/src/lib.rs:466-592 | at every crash point the marker is published only if it is written locally, and a local file is gone only if it is published |
| ColdTier.PromoteIsCrashSafeIff | crates/growlerdb-backup/src/lib.rs:631-667 | at every crash point of a promotion the selected copy is whole if and only if the marker removal worked or no delete so far took what the marker selects; a finished one is hot exactly when the removal worked |
| ColdTier.UnreadablePromoteStops | crates/growlerdb-backup/src/lib.rs:631-651 | a cold copy that cannot be read stops a promotion with marker and store as they were |
| ColdTier.EveryLifeKeepsContents | crates/growlerdb-backup/src/lib.rs:366-667 | any sequence of commits, parks and promotions, each crashing anywhere, keeps the committed files in the selected copy, as long as no failed marker removal is followed by a delete of what it selects |
| ColdTier.LifeMoves | crates/growlerdb-backup/src/lib.rs:366-667 | in such a life a commit to a hot window is what it then holds, a finished park makes it cold, a finished promotion hot with every committed file local, and neither changes what is committed |
| ColdTier.FailedRemovalStrandsWindow | crates/growlerdb-backup/src/lib.rs:653-666 | a finished promotion leaves the window whole if and only if the marker was removed or neither bundle nor layout, or no committed per-file object, was deleted behind it |
| ColdTierImpl.ColdPark | crates/growlerdb-backup/src/lib.rs:565-592 | the program backs up, bundles the window's files, marks and evicts in that order up to the moment the power goes; wherever that is the selected copy holds every committed file, and if it finishes it leaves what a finished park leaves |
| ColdTierImpl.ParkThenRestore | crates/growlerdb-backup/src/lib.rs:698-706 | after a park that stored its bundled manifest, a restore from the window's prefix never reports success |
| ColdTierImpl.BackUp | crates/growlerdb-backup/src/lib.rs:175-247 | the loops perform the backup's operations in order and leave the local files alone |
| ColdTierImpl.BundleWindow | crates/growlerdb-backup/src/lib.rs:412-458 | bundles exactly if every index file the manifest lists is local and bundle and layout were stored; the manifest then committed, if it is stored, has the same snapshot, is marked bundled and lists exactly the other files, and otherwise the manifest is as before; the per-file deletes come after it |
| ColdTierImpl.EvictLocalIndex | crates/growlerdb-backup/src/lib.rs:346-356 | removes the local bulk file by file, a prefix if the power goes |
| ColdTierImpl.WriteSpans | crates/growlerdb-index/src/bundle.rs:141-170 | writes the spans in layout order and stops unreadable exactly at a span beyond the bundle |
| ColdTierImpl.PromoteCold | crates/growlerdb-backup/src/lib.rs:631-667 | the program performs the promotion's effects in order, an unreadable copy leaves marker and store untouched, and where the power goes the selected copy is whole exactly under the condition above |
| LivePark.ParkLosesNoCommit | crates/growlerdb-cli/src/lib.rs:1505-1618 | over every interleaving of commits through the handle with any number of passes, the local bulk is gone only if the cold copy holds every commit, and outside the window between swap and check the handle serves every commit |
| LivePark.RacedPassStaysHot | crates/growlerdb-cli/src/lib.rs:1574-1593 | a commit that raced the backup always sends the pass back to the intact hot shard |
| LivePark.EndedPassServesIff | crates/growlerdb-cli/src/lib.rs:1505-1618 | with writers that still hold the hot shard, an ended pass serves every commit if and only if it stayed hot or none landed between its check and its eviction |
| LivePark.StrayCommitIsLost | crates/growlerdb-engine/src/windowed_ingest.rs:381-382 | a run in which such a commit, between check and eviction, is acknowledged and then served by nobody |
| LivePark.LiveWindow.ParkOne | crates/growlerdb-cli/src/lib.rs:1505-1618 | one window's pass parks exactly when backup, marker, publication and cold open all went through, the snapshot was readable and no commit followed the backup; otherwise the hot shard is in the handle with its files; either way every commit is served |
| LivePark.RestartServesIff | crates/growlerdb-cli/src/lib.rs:2366-2410 | after any number of passes, a restart between two of them serves every commit if and only if no marker was left, or the copy it describes is intact, agrees with its metadata and is of the current snapshot |
| LivePark.CommitUnderMarkerIsLost | crates/growlerdb-cli/src/lib.rs:1582-1593 | in every state in which a pass has left a hot window its marker, one further commit is served by the handle and lost by a restart |
| LivePark.RacedPassThenRestartLosesCommit | crates/growlerdb-cli/src/lib.rs:1574-1593 | a run with no stray writer in which a raced pass stays hot, as it should, and a restart before the next pass loses the commit |
| LivePark.RetriedPassParks | crates/growlerdb-cli/src/lib.rs:1574-1618 | whatever happened before, an undisturbed pass on the tick after one that stayed hot parks the window with every commit in the cold copy, and a restart then serves them all |
| LivePark.LateCommitSpoilsBundle | crates/growlerdb-backup/src/lib.rs:412-436 | a commit between backup and bundling leaves a bundle whose metadata is ahead of its segments, and a per-file copy that agrees with itself |
| Publication.EveryInterleaving | crates/growlerdb-cli/src/lib.rs:2909-2983 | over every interleaving of per-map steps each map only climbs from absent to replica to primary, all are primary once a publication completed, and the in-flight guard names exactly the build in flight |
| Publication.PrimaryIsFinal | crates/growlerdb-cli/src/lib.rs:3854-3912 | a replica that was slow to open never undoes a completed primary publication in any map |
| Publication.OneBuildInFlight | crates/growlerdb-cli/src/lib.rs:3959-4049 | at most one build per ordinal is in flight |
| Publication.FailedBuildFreesGuard | crates/growlerdb-cli/src/lib.rs:3978-4049 | a failed build publishes nothing and frees the guard |
| Publication.JobsStart | crates/growlerdb-cli/src/lib.rs:3959-4049 | a new job gets to build exactly where nothing serves the ordinal as primary and no build is in flight; a replica gets to insert exactly where nothing serves it |
| Publication.SuccessfulBuildPublishes | crates/growlerdb-cli/src/lib.rs:2909-2983 | a build that succeeds ends with every map at primary once its steps have run, in any interleaving |
| Publication.OpenedReplicaServes | crates/growlerdb-cli/src/lib.rs:3854-3912 | an opened replica that finds the search map empty enters it, and no map is left without the shard once its steps have run, in any interleaving; one that finds it taken changes nothing |
| Assignment.SnapshotUnloadsExactlyDeassigned | crates/growlerdb-cli/src/lib.rs:3607-3684 | after any sequence of snapshots, retries, reconnects and write-path opens, a snapshot unloads only windows an earlier one assigned and none of its own, and every assigned window still served is its own, opened by the write path, or of an index without a writer here |
| Assignment.AssignedIsServed | crates/growlerdb-cli/src/lib.rs:3607-3684 | after any sequence of events, a snapshot or a later retry serves every window it names that this node has metadata for and can open, and adds no other; after a reconnect a retry adds nothing |
| Assignment.UnassignedBootWindowStays | crates/growlerdb-cli/src/lib.rs:3607-3684 | a boot window no snapshot names is served throughout |
| Assignment.AssignmentLoop.UnloadDeassigned | crates/growlerdb-cli/src/lib.rs:3706-3728 | the loop unloads exactly the previously assigned windows that are gone and have a writer |
| Assignment.AssignmentLoop.ServeAssigned | crates/growlerdb-cli/src/lib.rs:3770-3920 | the loop adds exactly the assigned windows that can be served and opened |
| Assignment.AssignmentLoop.RetryTick | crates/growlerdb-cli/src/lib.rs:3633-3684 | a retry serves every window the last snapshot assigned that has metadata and has become openable, adds no other, and unloads nothing |
| Assignment.AssignmentLoop.ApplySnapshot | crates/growlerdb-cli/src/lib.rs:3607-3684 | unload, remember, serve: every named window with metadata that opens is served, only such windows are added, and exactly the windows of the previous snapshot that this one does not name and a writer can unload are removed |
| DurableFiles.LoadedDocumentIsWhole | crates/growlerdb-core/src/durable.rs:21-98 | over any sequence of calls, failures at any step and power losses at any point, loading gives the last acknowledged document or one tried since, whole, nothing only if none was acknowledged, and `.prev` when present is whole |
| DurableFiles.CallKeepsOk | crates/growlerdb-core/src/durable.rs:85-98 | at every crash point of one call the path can only hold the last acknowledged document or one tried since |
| DurableFiles.AckedCallIsDurable | crates/growlerdb-core/src/durable.rs:21-62 | after a call that reports success no power loss can bring back anything but its document |
| DurableFiles.PrevIsThePreviousDocument | crates/growlerdb-core/src/durable.rs:76-98 | after any successful call over an existing file the path holds the new document, and `.prev` the one it replaced where the link was made or the file could be read for a copy; otherwise `.prev` is gone, or unchanged if it could not be removed |
| DurableFiles.DamagedFileFallsBackIff | crates/growlerdb-controlplane/src/backend.rs:300-326 | a damaged file is loaded from `.prev`, and loading fails if and only if there is none or it is still a second name of the damaged file |
| DurableFiles.FailedCallLeavesOneFile | crates/growlerdb-core/src/durable.rs:85-98 | a call that fails after the link leaves both names on one file |
| DurableFilesImpl.Write | crates/growlerdb-core/src/durable.rs:21-62 | temp, sync, rename, directory sync in order, a prefix if the power goes; success exactly when every step worked |
| DurableFilesImpl.RollPrev | crates/growlerdb-core/src/durable.rs:85-96 | rolls by link, else by durable copy, and fails exactly when the fallback copy failed |
| DurableFilesImpl.WriteKeepingPrev | crates/growlerdb-core/src/durable.rs:76-98 | performs the call's steps in order, reports success exactly when all worked, always so when the write and either the link or the copy work, and then the path shows the new document |
| KeyCodec.RoundTripIff | crates/growlerdb-core/src/doc.rs:109-177 | decoding gives back the key if and only if it holds no vector and every component is shorter than 2^32 bytes |
| KeyCodec.DecodeIsStrict | crates/growlerdb-core/src/doc.rs:213-296 | an accepted byte string re-encodes to itself |
| KeyCodec.EncodeIsInjective | crates/growlerdb-core/src/doc.rs:100-120 | no two such keys share an encoding |
| KeyCodec.PrefixAcceptedIff | crates/growlerdb-core/src/doc.rs:213-296 | a prefix of an encoding is accepted if and only if it ends on a field boundary, and then gives the fields before it; cut elsewhere it is reported truncated |
| KeyCodec.ItemBack | crates/growlerdb-core/src/doc.rs:122-177 | a field written before any bytes is read back from their front |
| KeyCodec.ItemIsEncoded | crates/growlerdb-core/src/doc.rs:237-290 | a decoded field is, byte for byte, the encoding in front |
| KeyCodec.EncodeKey | crates/growlerdb-core/src/doc.rs:109-177 | the appending loops produce the encoding, which is the wire format byte for byte |
| KeyCodec.EncodeIsWire | crates/growlerdb-core/src/doc.rs:109-177 | the encoding of every key is its partition fields in role 0 and then its identifier fields in role 1, each role, length, name, tag, length, value; lengths and numbers least significant byte first, negative ones in two's complement; the tag and value bytes of every type |
| LittleEndian.Utf8Iff | crates/growlerdb-core/src/doc.rs:247-268 | accepted as text are exactly the UTF-8 encodings of lists of Unicode scalar values |
| KeyCodec.GoldenKeys | crates/growlerdb-core/src/doc.rs:627-666 | the two keys whose bytes are frozen for routing hashes, delete terms and other clients encode to exactly those bytes |
| KeyCodec.DecodeKey | crates/growlerdb-core/src/doc.rs:219-295 | the loop over position and flag produces the decoding, accepts only encodings, and reports only errors that are there |
| KeyCodec.DecodeErrorMeans | crates/growlerdb-core/src/doc.rs:219-295 | a rejected byte string has, at the reported position, the unknown role or tag, the misplaced partition field, the length that overruns, the text that is not UTF-8 or the flag byte that the error names |
| SortValues.CmpIsAntisymmetric | crates/growlerdb-core/src/api.rs:488-507 | swapping the operands reverses the verdict for all values |
| SortValues.CmpComposes | crates/growlerdb-core/src/api.rs:488-507 | without NaN two comparisons compose as in a total preorder, across missing, numbers and strings, in both directions |
| SortValues.VerdictsMean | crates/growlerdb-core/src/api.rs:488-507 | numbers compare by value, infinities at the ends, strings byte by byte, both turned round by the descending direction; a number precedes a string and anything a missing value either way |
| SortValues.PreorderIff | crates/growlerdb-core/src/api.rs:488-507 | the comparator is a total preorder on a set of values if and only if no NaN stands next to two numbers that differ |
| SortValues.RankingIsOrder | crates/growlerdb-index/src/store.rs:4413-4437 | sort tuple plus encoded key is a total order on hits whose keys identify them |
| SortValues.FirstDifferenceDecides | crates/growlerdb-index/src/store.rs:4413-4437 | the first sort value on which two hits differ decides, in its own direction; if none does, the encoded keys do, ascending |
| Rounding.RoundRises | crates/growlerdb-index/src/segment.rs:1693-1728 | reading a stored integer as a float never reverses an order |
| Rounding.RoundIsFloat | crates/growlerdb-index/src/segment.rs:1693-1728 | what an integer reads as has a 53-bit significand |
| Rounding.RoundIsNearest | crates/growlerdb-index/src/segment.rs:1693-1728 | no 64-bit float is nearer to the integer than the one it reads as |
| Rounding.TiesGoToEven | crates/growlerdb-index/src/segment.rs:1693-1728 | half way between two floats it reads as the even one |
| Rounding.TripReadsTheSame | crates/growlerdb-index/src/segment.rs:2483-2502 | the integer a cursor's float is cast back to, saturating at the ends, reads as the same float |
| SortValues.SmallSurvives | crates/growlerdb-index/src/segment.rs:2483-2502 | integers up to 2^53 in size, floats, strings and missing values come back from a cursor as they were stored |
| SortValues.KeysetIsStrictlyAfter | crates/growlerdb-index/src/segment.rs:1834-1954 | where the sort values come back from a cursor as stored, the keyset query's alternatives select exactly the hits strictly after the cursor in that order, missing values and directions included |
| SortValues.SelectedAgainIff | crates/growlerdb-index/src/segment.rs:1834-1954 | a hit is selected again by its own cursor if and only if the first of its values not to come back was moved towards the start of the order |
| SortValues.KeysetIsExactIff | crates/growlerdb-index/src/segment.rs:1904-1954 | for one key and any two hits, the query puts the hit on the cursor's side where the ranking has it if and only if they read differently, or its stored value is the cursor's integer, or is on the side its composite key is |
| SortValues.SurvivesIff | crates/growlerdb-index/src/segment.rs:2483-2502 | among hits that store one value the query follows the ranking whatever their keys if and only if the value comes back from a cursor |
| GatewayPaging.PageIsGlobal | crates/growlerdb-engine/src/gateway.rs:996-1086 | the merged page of any number of shards is the page one index over all their hits would give, each hit once, also while a moved hit is on two shards |
| GatewayPaging.HeadsSuffice | crates/growlerdb-engine/src/gateway.rs:996-1017 | the first n hits overall need no more than the first n of each shard |
| GatewayPaging.AnswerOrderIsIrrelevant | crates/growlerdb-engine/src/gateway.rs:2278-2322 | the merge does not depend on the order in which shards answered |
| GatewayPaging.FollowIff | crates/growlerdb-engine/src/gateway.rs:1087-1100 | following cursors for m pages, whatever produces the pages, gives the first m times limit hits of a ranking if and only if every page on the way is the next stretch of it |
| GatewayPaging.ScanScrollIsExactIff | crates/growlerdb-index/src/segment.rs:1404-1463 | for any sort keys answered by full scan, over any number of shards, m pages are the first m times limit hits of the global ranking if and only if each cursor on the way selects none of the hits before it and all of the next page |
| GatewayPaging.MovedBackCursorFails | crates/growlerdb-index/src/segment.rs:2483-2502 | a scroll that has to go on from a hit whose first rounded value was moved towards the start is not exact |
| GatewayPaging.ScrollPageFollows | crates/growlerdb-engine/src/gateway.rs:1000-1100 | where sort values come back from a cursor as stored, the page after a cursor is the next hits of the global ranking |
| GatewayPaging.ScrollVisitsEveryHitOnce | crates/growlerdb-engine/src/gateway.rs:1087-1100 | under the same condition, following cursors for m pages gives the first m times limit hits of the strict global ranking of all hits |
| GatewayPaging.MergePage | crates/growlerdb-engine/src/gateway.rs:1049-1086 | gathering, ranking, dropping repeats and cutting produces the window of the merged ranking |
| GatewayPaging.DropRepeats | crates/growlerdb-engine/src/gateway.rs:1075-1078 | the loop with a seen set keeps exactly the hits whose key no earlier hit has, in order, even where copies differ |
| GatewayPaging.ZeroLimitIsEmpty | crates/growlerdb-engine/src/gateway.rs:1005-1011 | a request for no hits asks the shards for none and gathers nothing |
| TopWindow.SureIff | crates/growlerdb-index/src/segment.rs:1647-1691 | a hit is in the collector's window of n for every document order if and only if fewer than n others are level with it or before it on the stored key |
| TopWindow.PossibleIff | crates/growlerdb-index/src/segment.rs:1647-1691 | it is in the window for some document order if and only if fewer than n are strictly before it |
| TopWindow.PageIsRightIff | crates/growlerdb-engine/src/gateway.rs:996-1086 | the page merged from the windows of any number of shards is a given list for every document order if and only if each of its hits is sure in some shard, and every other hit that can get into a window ranks after a full page |
| TopWindow.OffsetPageIsGlobalIff | crates/growlerdb-engine/src/gateway.rs:996-1086 | a single-key page at any offset is the page of one index over all shards, for every document order, if and only if that condition holds of everything up to the end of the page |
| TopWindow.WindowIsExactIff | crates/growlerdb-index/src/store.rs:2514-2549 | a store's single-key page is the head of the total order for every document order of its hits if and only if every hit on it is strictly before every hit off it on the stored key |
| WindowedScroll.KeyScrollIsExactIff | crates/growlerdb-engine/src/gateway.rs:996-1100 | for any number of shards and every document order of their hits, m pages of a single-key scroll are the first m times limit hits of the total order if and only if at each of the m positions the page to come is right among what its cursor selects, in the sense of the page condition |
| WindowedScroll.ManyShardsExactIff | crates/growlerdb-engine/src/gateway.rs:996-1100 | where the key comes back from a cursor as stored: if and only if every hit, when its page is due, has in some shard fewer than limit hits still to come that are level with it or before it |
| WindowedScroll.ScrollIsExactIff | crates/growlerdb-index/src/store.rs:2514-2549 | where the key comes back from a cursor as stored, over one shard: if and only if no tie lies across any of the m page boundaries |
| ScrollExamples.RoundedScrollRepeats | crates/growlerdb-index/src/segment.rs:2483-2502 | for any two integers of which the first was moved towards the start of the order and the second reads after it, either document order and any number of single-hit pages: the scroll is that many copies of the first hit, though nothing is tied |
| ScrollExamples.ScrollPast2To53 | crates/growlerdb-index/src/segment.rs:2483-2502 | the inputs: 2^53+1 before 2^53+4 ascending, and 2^53+3 before 2^53 descending |
| ScrollExamples.MovedOnHitIsLost | crates/growlerdb-index/src/segment.rs:1904-1954 | for any integer moved towards the end of the order and any two hits that store it, the second is never returned, in the document order that favours it |
| ScrollExamples.FloatTieMisleads | crates/growlerdb-index/src/segment.rs:1665-1669 | 2^53 and 2^53+1 tie in the ranking but not in the collector, and in either document order the page of one is not the head of the ranking |
| ScrollExamples.TiedHitIsSkipped | crates/growlerdb-index/src/segment.rs:1647-1691 | for any tied value and any two keys, a document order in which a scroll of single-hit pages never returns one of the hits |
| RoutingPlan.MakePlan | crates/growlerdb-cli/src/lib.rs:4624-4667 | succeeds if and only if nothing is windowed, the count matches in 32 bits, the ordinals are a permutation of 0 to the entry count and every primary is set; endpoint o is ordinal o's primary; routing 1 and no other means partition; each error names the first thing wrong |
| RoutingPlan.PlanIgnoresListing | crates/growlerdb-cli/src/lib.rs:4624-4667 | neither being windowed, nor any other condition of success, nor the endpoints depend on the listing order |
| RoutingPlan.SortedByOrdinal | crates/growlerdb-cli/src/lib.rs:4636-4652 | sorting by ordinal puts ordinal i at position i throughout if and only if the ordinals are contiguous |
| WindowRouting.FingerprintIff | crates/growlerdb-cli/src/lib.rs:4802-4826 | fingerprints are equal if and only if, counted over the entries with a window, hot and cold, the two answers have each window, primary, multiset of set replicas and tier equally often |
| WindowRouting.FingerprintIgnoresBounds | crates/growlerdb-cli/src/lib.rs:4802-4826 | answers that differ only in event-time bounds have equal fingerprints, so the swap is skipped |
| WindowRouting.HolderEndpoints | crates/growlerdb-cli/src/lib.rs:4867-4872 | primary first, then each replica that is set, once |
| WindowRouting.Reloader.ConnectAll | crates/growlerdb-cli/src/lib.rs:4857-4898 | routes every window over cached connections, dialling only what is missing; fails exactly for an unset primary or an endpoint that can neither be reused nor dialled |
| WindowRouting.Reloader.Resolve | crates/growlerdb-cli/src/lib.rs:4837-4910 | on success every entry with a window, hot or cold, has a node with its window, bounds, tier, primary first and set replicas, as many as it is listed, and there is no other node; the cache holds exactly the endpoints those entries name and one that stays keeps its connection; it succeeds exactly if the windowing is known, there is a window, all have a primary and all endpoints can be reached; each error names something that is so; on failure nothing cached is lost |
| WindowRouting.ServesSameRouting | crates/growlerdb-cli/src/lib.rs:5375-5382 | nodes that serve one answer serve every answer with the same fingerprint: same windows, first choices, holders and tiers, equally often |
| WindowRouting.Reloader.Tick | crates/growlerdb-cli/src/lib.rs:5375-5397 | after a tick that reports success, skipped or swapped, the live nodes are exactly, counted over the answer's entries with a window, the windows, first choices, holders and tiers it asks for; a failed one leaves them in place |

## Left out

- Backend methods are atomic steps; two threads inside one backend method are not interleaved (crates/growlerdb-controlplane/src/postgres_backend.rs:113-164).
- NoUpdateIsLost: says that every version was built on every earlier one; the activity log is trimmed and finished jobs are pruned when a mutation is applied, so an old entry of those two documents need not be readable for ever. The activity log's debounce is not modelled (crates/growlerdb-controlplane/src/registry.rs:1415-1440).
- Segment file names are assumed unique across everything a prefix ever holds, the marker file is written atomically, and one writer owns a prefix at a time; two writers racing on one prefix are not modelled.
- EveryLifeKeepsContents: parks windows without a marker only. A hot window that an aborted pass left its marker is treated in `LivePark`, in numbers of commits and between passes; a crash inside a later pass over such a window is not modelled object by object.
- ParkLosesNoCommit: leaves out compactions that change files without a commit, the choice of which windows to park, and the loop over them (crates/growlerdb-cli/src/lib.rs:1499-1505).
- The hotcache sidecar, range cache, scratch-directory sweeps and the `park`/`revive` commands add no new ordering and are not modelled.
- EveryInterleaving: is stated over steps on values, one lock acquisition per step, not over shared map objects; the writer map that only primaries enter is left out.
- SnapshotUnloadsExactlyDeassigned: says nothing of windows the write path opened, which no snapshot tracks.
- LoadedDocumentIsWhole: covers the registry file; the best-effort sidecars start empty when unreadable and promise nothing. Serialised documents are assumed to parse.
- RoundTripIff: floats are bit patterns, and the debug assertions on NaN and on over-long components are not part of a release build and not modelled. Positions are unbounded integers; the decoder's overflow check reports the same error its bounds check would.
- PageIsGlobal: assumes each shard answers with the head of its own ranking, which holds for multi-key sorts by full scan; single-key sorts are answered from windows and are covered by OffsetPageIsGlobalIff and KeyScrollIsExactIff. A hit copied to two shards by a reshard is assumed identical on both. Pages deeper than 2^32 hits are covered only for shards shorter than that.
- KeysetIsStrictlyAfter: each column holds one type, a date is its number of microseconds, and the two zeros of a float column are one value. What happens to integers that a cursor does not give back is the subject of SelectedAgainIff, KeysetIsExactIff, ScanScrollIsExactIff and KeyScrollIsExactIff.
- OffsetPageIsGlobalIff: covers pages that end before the 2^32-th hit, where the depth asked of the shards is not cut off.
- WindowIsExactIff: the collector is assumed to put missing values last and to keep document address order among equal keys; it is a library outside the repository.
- Score-ranked, collapsed, hybrid and vector searches, partial results and deadlines are left out.
- MakePlan: the text of error messages is not modelled, and with duplicate ordinals which of two errors is reported depends on the listing order.
- FingerprintIff: covers the windows of an answer; the windowing configuration itself is not part of the fingerprint and is not compared.
- gRPC, TLS, authentication, telemetry, the console, the connectors, embedding models and the SQL engine are plumbing around this logic and are left out.
