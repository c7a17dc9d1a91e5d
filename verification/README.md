# Local-first sync, key vault and event-sourced state: a verified model

This project models the parts of a local-first planning application in which several pieces of code have to
agree with each other over time, and proves that they do, or exactly when they do.

**Sync with rebase** (`EventTables` to `SyncHypotheses`, and `SyncPush`). Clients append encrypted events locally,
pull pages from a server that holds an append-only log per store, and push what they have under an expected head.
When a remote event takes the version of a pending one, the pending events of that aggregate move up by one, each
resealed for its new version. The state is the event table in commit order, the map from event ids to server
sequences, the snapshots, the pull cursor and the remembered head of each client, and the log of the server.
`Replication.Follows` is the relation between one client and the log: the first `mapped` events of the log are
mapped, the first `held` of them are local rows (those between were pushed but the acknowledgement was lost), and
the unsent rows of every aggregate stand in commit order above a base. Shifts commit at once while inserts are
queued until the end of a page, so the loop invariant of a page is about the queue as well as the tables.
`SyncProtocol` composes local saves, learning a key, pulled pages (with or without the cursor write that follows),
push attempts (accepted, refused, or accepted with the response lost) and restarts into runs of any number of
clients. `SyncPush` says what one push achieves: which rows it sends, what its acknowledgement leaves, and what the
retry after a conflict sends instead.

A push step assumes two things, both necessary (`SyncHypotheses`): the expected head is the client's applied
cursor, and the client is at most 1000 events behind. The first can fail in the code because the head is
remembered before the later pages of a pull are applied (`SyncEngine.ts:376`), the second because a conflict answer
is cut at 1000 events while the cursor moves to the head (`sync.service.ts:85`, `SyncEngine.ts:547-548`).

**Projects and their snapshots** (`ProjectModel` to `ProjectRepository`, `ProjectCommands`, `ProjectStorage`).
`ProjectCommands` says for each of the eleven commands when it is refused and which fields it changes,
`ProjectStorage` what loading and saving come to in terms of the stored rows. A snapshot is a cache of the replay of
a project's events. It stays one through saves, remote pages and version shifts. A save is right exactly when no
version of the project is missing; a page that fails after a shift does leave one missing
(`ProjectRuns.FailedPageLeavesGap`), and the next save then writes a snapshot under too low a version.

**Canonical CBOR and wire formats** (`Bytes` to `SharingFormats`, `CborShape`, `Utf8Text`, `WireLayout`,
`WireDecoding`). Heads, values, canonical form, decoding under limits, and encoder and decoder of each record,
following RFC 8949, sections 3 and 4.2.1. `CborShape` states the bytes of every encoding without reference to
printer or parser, `WireLayout` the field under each key of each record, and `WireDecoding` exactly which bytes each
decoder takes and as what.

**Key vault** (`KeyVault` to `VaultLimit`, `KeyVaultFaults`, `VaultSessions`, and `KeyService`). A hash-chained log
of encrypted records, its replay into key maps, its layout in storage, and the service that keeps a copy in memory.
`KeyVaultFaults` says which logs are accepted and for which fault the others are not, `VaultSessions` when each
operation on a session succeeds. The cryptographic primitives are the functions of a `Suite`; `Sound` says that
opening undoes sealing under the same key, associated data and nonce and fixes the lengths, for every message whose
ciphertext is still shorter than 2^64 bytes. `KeyVault.PlainSuiteIsSound` gives such a suite, and `VaultLimit` a run
under any such suite that reaches every number of records up to the limit. Injectivity of the hash is never assumed:
the one theorem that needs it concludes that the two logs are equal or that a container of the one and a different
container of the other have the same hash. Encoding the containers injectively is proved.

**Goal achievement saga** (`GoalSaga`, `SagaCommands`, `GoalAchievementSaga`; `SagaCommands` says when a goal is
commanded, in terms of what its projects and the goal itself went through), **single-flight runner and publisher**
(`TaskRunner`, `CommittedEventPublisher`), **bounded stores** (`HandleCache`, `StoragePaging`).

Objects whose methods update fields are classes here: `Store`, `InMemoryRepository`, `SyncService`, `Engine`,
`Project`, `Repository`, `KeyService`, `Saga`, `Runner`, `Publisher`, `Session`, `BufferedStorage`, `WasmStorage`. The
contract of each method equates its new state with a function of the old one; the theorems are about those functions
and about runs built from them.

## Where the code does less than it sets out to do

- A push that starts while a pull still has pages to fetch can be accepted and give two events of one aggregate the
  same version on the server (`SyncHypotheses.PushBetweenPages`; condition in `Pushing.AcceptedPushIff`).
- A client more than 1000 events behind skips events for good when a push conflicts (`SyncHypotheses.ConflictCoversIff`;
  clients to whom it happens in `SyncHypotheses.LongGapSkips`).
- A page that fails midway can leave a version gap, and a save over the gap breaks the snapshot
  (`ProjectSaving.SaveThenLoadIff`, `ProjectRuns.GapBreaksSnapshot`).
- The 4097th record is stored with success and makes the vault unloadable (`VaultRuns.StoreReloadsIff`;
  a run that gets there in `VaultLimit.SomeVaultIsLost`).
- A caller waiting for a fresh execution is released by a failing one (condition in `TaskRunner.ThrowServesIff`; a run in
  `TaskRunner.ThrowDropsPending`).
- Paging stops moving at an empty key (`StoragePaging.StuckIff`), and the WASM adapter's joined names can lose a
  write (conditions in `StoragePaging.JoinedAlikeIff` and `StoragePaging.FlushesAgreeIff`; a pair of writes in
  `StoragePaging.JoinedAlikeLosesWrite`).
- A session allowed zero handles keeps one (`HandleCache.ZeroBoundKeepsOne`).
- The saga's counts depend on a project losing its goal before it gets another. `Project.addGoal` sees to that within
  one replica's history (`GoalAchievementSaga.DecidedIsAllowed`), but a rebase puts the events of two replicas into one
  history, in which each can have given the project a goal. The handlers do not look (condition in
  `GoalSaga.RecordedExactIff`; the stale link in `GoalSaga.SecondGoalStaysLinked`).

## Model

| member | source | states |
|---|---|---|
| EventTables.ExecKeepsSchema | packages/eventstore-web/src/worker/schema.ts:92-96 | whatever statement runs, event ids, (type, id, version) triples and mapped sequences stay unique: an insert that would break one is ignored |
| EventTables.ShiftFreesVersion | packages/infrastructure/src/sync/PendingEventVersionRewriter.ts:31-95 | a shift that no synced row blocks keeps the schema, and leaves the version occupied exactly when a synced row sat there |
| LocalStore.Store.UpdateVersion | packages/eventstore-web/src/worker/schema.ts:28 | an UPDATE of a row's version succeeds exactly when no other row of the aggregate has that version, and otherwise changes nothing |
| LocalStore.Store.Rollback | packages/infrastructure/src/sync/PendingEventVersionRewriter.ts:106-111 | everything since the transaction began is undone |
| LocalStore.Store.Batch | packages/sync-engine/src/SyncEngine.ts:1016 | a batch has the effect of its statements one after the other, ignored inserts included |
| LocalStore.Store.InsertMapping | packages/sync-engine/src/SyncEngine.ts:1038-1047 | an event id or a sequence that is already mapped is left alone; otherwise exactly one mapping is added |
| LocalStore.Store.AppendRows | packages/infrastructure/src/eventstore/persistence/EncryptedEventAppender.ts:16-112 | the rows are all inserted or none is, and they are exactly when they run on from the aggregate's highest version |
| PendingVersionRewriter.SelectIsDescending | packages/infrastructure/src/sync/PendingEventVersionRewriter.ts:31-53 | the pending rows at or above a version are visited from the highest version down, without a tie |
| PendingVersionRewriter.NextVersionFree | packages/infrastructure/src/sync/PendingEventVersionRewriter.ts:57-89 | midway through the rewrite the next row still has its old version, and its UPDATE fails exactly when it would in the table as it was at the start: the order of the walk never causes a clash |
| PendingVersionRewriter.RewritePendingVersions | packages/infrastructure/src/sync/PendingEventVersionRewriter.ts:27-114 | succeeds exactly when every moved row can be decrypted and no synced row is in the way; then exactly the pending rows at or above the version are one higher, each plaintext resealed for its new version, and the aggregate's snapshot is gone; on failure nothing has changed; the count and the old and new highest version it reports are right |
| RemoteApply.ResolveCollision | packages/sync-engine/src/SyncEngine.ts:882-948 | the 128-attempt loop ends by its second pass, with the version free, or with the error and nothing changed |
| RemoteApply.ApplyRemoteEvents | packages/sync-engine/src/SyncEngine.ts:863-1036 | shifts take effect event by event while inserts and mappings wait for one final batch; a failure keeps the shifts made so far and inserts nothing; the result says whether the page held an unmapped event |
| Replication.FollowsImpliesSchema | packages/eventstore-web/src/worker/schema.ts:28 | a client whose unsent rows of each aggregate lie, in order and without gaps, above a base no lower than what it holds never violates a uniqueness constraint |
| Replication.ClearFollows | packages/sync-engine/src/SyncEngine.ts:882-948 | the next event of the log can always be given its version: neither a synced collision nor a failing rewrite is reachable, and the base of its aggregate rises to the event's version |
| Replication.LoopFollows | packages/sync-engine/src/SyncEngine.ts:876-1015 | loop invariant over queued rows: after any prefix of the page the tables are as before but for shifts, the queue holds exactly the statements for the events met, and the loop stops exactly at the first event whose aggregate has no key |
| Replication.QueueFollows | packages/sync-engine/src/SyncEngine.ts:1016-1033 | when the queue runs at the end none of its inserts is ignored, since every version it needs was freed in the loop |
| Replication.PageFollows | packages/sync-engine/src/SyncEngine.ts:863-1036 | applying any slice of the log at or below the cursor's end keeps the client in step, fails exactly when a new event's aggregate has no key, and never reports an insert that did not persist |
| Replication.ApplyRemoteKeepsRows | packages/sync-engine/src/SyncEngine.ts:863-1036 | for any tables and any page, no local row is lost or reordered and each keeps its id, aggregate and plaintext |
| Replication.Rebase | packages/sync-engine/src/SyncEngine.ts:863-1036 | rebase theorem: after the page every log event up to its end is a local row at its log version, and each unsent row is higher by exactly the number of events of its aggregate that arrived, in the order it had |
| SyncServer.AppendedNew | apps/api/__tests__/sync/support/in-memory-sync-event-repository.ts:18-62 | a batch of unknown, distinct events is appended as it is and assigned the sequences after the head |
| SyncServer.SortKeepsStores | apps/api/__tests__/sync/support/in-memory-sync-event-repository.ts:59 | sorting the shared array by sequence mixes stores but leaves each store's own order alone |
| SyncServer.InMemoryRepository.AppendBatch | apps/api/__tests__/sync/support/in-memory-sync-event-repository.ts:18-62 | refused exactly when the expected head is not the head; otherwise known ids keep their first sequence, new ones get the next, and no other store changes |
| SyncServer.InMemoryRepository.LoadSince | apps/api/__tests__/sync/support/in-memory-sync-event-repository.ts:64-79 | exactly the store's events after the sequence, in sequence order, up to the limit, out of an array shared by all stores |
| SyncServer.InMemoryRepository.ResetStore | apps/api/__tests__/sync/support/in-memory-sync-event-repository.ts:81-86 | the store is empty and every other store as before |
| SyncServer.SyncService.PushEvents | apps/api/src/sync/application/sync.service.ts:47-98 | accept, or answer with the head, whether the server is behind, and at most 1000 missing events, leaving the log alone |
| SyncServer.SyncService.PullEvents | apps/api/src/sync/application/sync.service.ts:100-132 | the page, the head, whether more is to come, and for a page that is not empty the sequence of its last event |
| Pushing.AppendedPending | apps/api/__tests__/sync/support/in-memory-sync-event-repository.ts:31-58 | pushing a client's pending rows, some of which the server has from a push whose answer was lost, appends exactly those it does not have |
| Pushing.PushedLogOk | packages/sync-engine/src/SyncEngine.ts:437-495 | the log stays well formed if and only if no pushed aggregate has events above the client's base |
| Pushing.AcceptedPushIff | packages/sync-engine/src/SyncEngine.ts:437-495 | an accepted push keeps per-aggregate versions 1..n if and only if no event the client has not applied belongs to an aggregate it pushes |
| Pushing.OthersFollow | packages/sync-engine/src/SyncEngine.ts:480-495 | a client none of whose rows were pushed is in step with the longer log |
| Pushing.PushedFollows | packages/sync-engine/src/SyncEngine.ts:480-495 | the pusher is in step with the longer log even if it never hears the answer |
| Pushing.AssignAllFollows | packages/sync-engine/src/SyncEngine.ts:1038-1047 | recording the assigned sequences extends the mapped prefix of the log by exactly those events |
| SyncEngine.Engine.HasPendingEvents | packages/sync-engine/src/SyncEngine.ts:827-833 | true exactly when some row has no mapping |
| SyncEngine.Engine.PullOnce | packages/sync-engine/src/SyncEngine.ts:356-396 | the pull loop refines the recursive pull over the log: tables, cursor, remembered head and error; a rebase is asked for exactly when an unmapped event arrived and pending events were and still are there |
| SyncEngine.Engine.ApplyAssignments | packages/sync-engine/src/SyncEngine.ts:1038-1047 | the mappings are added in order, those already present skipped |
| SyncEngine.Engine.HandleConflict | packages/sync-engine/src/SyncEngine.ts:524-587 | missing events applied and the cursor moved to the head, or a pull after which the cursor must have passed the expected head; when a rebase is asked for |
| SyncEngine.Engine.TryPush | packages/sync-engine/src/SyncEngine.ts:442-507 | one attempt: log, tables, cursor and remembered head after acceptance, a lost answer, a conflict or a server that is behind; what these are is SyncPush.AckedPush, ConflictCatchesUp and ServerBehindIff |
| SyncEngine.Engine.PushOnce | packages/sync-engine/src/SyncEngine.ts:437-522 | the retry loop is the attempts one after the other, at most two, ending with the first that settles; other stores of the server are untouched; what they achieve is SyncPush.PushGetsThrough |
| SyncProtocol.MaxIsTop | packages/infrastructure/src/eventstore/persistence/EncryptedEventAppender.ts:100-112 | the highest local version of an aggregate is that of its last unsent row, or of its last held event if there is none |
| SyncProtocol.AppendFollows | packages/infrastructure/src/eventstore/persistence/EncryptedEventAppender.ts:16-112 | a local save keeps the client in step with the log |
| SyncProtocol.ApplyFromCursor | packages/sync-engine/src/SyncEngine.ts:378-390 | applying the events after the cursor, with or without the cursor write that follows, keeps the client in step; the only possible error is a missing key |
| SyncProtocol.PullKeepsClient | packages/sync-engine/src/SyncEngine.ts:356-396 | so does one page of a pull, also when the client stops between applying it and writing the cursor |
| SyncProtocol.AcceptedFollows | packages/sync-engine/src/SyncEngine.ts:480-495 | an accepted push appends the whole batch, keeps the log well formed, and keeps the pusher in step both with and without the acknowledgement |
| SyncProtocol.PushOutcomes | packages/sync-engine/src/SyncEngine.ts:437-522 | an attempt that starts from the cursor either leaves the log or appends the batch; after a conflict the cursor is the head, so the retry starts from the cursor again; no other error than a lost response or a missing key |
| SyncProtocol.StepKeepsSystem | packages/sync-engine/src/SyncEngine.ts:356-587 | every step of every client keeps the log well formed, all clients in step with it, and unsent rows private to one client |
| SyncProtocol.RunKeepsSystem | packages/sync-engine/src/SyncEngine.ts:356-587 | so does every run |
| SyncProtocol.ServerLogSafe | apps/api/__tests__/sync/support/in-memory-sync-event-repository.ts:18-62 | in every run from empty clients the server log has each event once and per aggregate versions exactly 1..n in log order, each payload readable under the key for that version |
| SyncProtocol.CursorSafe | packages/sync-engine/src/SyncEngine.ts:365-396 | in every run every server event at or below a client's cursor is a row of the client mapped to that very sequence, and the client's tables satisfy the schema |
| SyncProtocol.SettledIsPrefix | packages/sync-engine/src/SyncEngine.ts:480-495 | a client with nothing pending holds exactly the log up to its cursor |
| SyncProtocol.Converged | packages/sync-engine/src/SyncEngine.ts:480-495 | two clients at the same cursor with nothing pending hold the same rows, ciphertext included, and the same mappings |
| SyncProtocol.PullCatchesUp | packages/sync-engine/src/SyncEngine.ts:365-396 | with the keys at hand, a pull ends at the server's head with cursor and remembered head equal: what a push relies on |
| SyncHypotheses.ConflictCoversIff | apps/api/src/sync/application/sync.service.ts:82-96 | the cursor a conflict leaves covers only received events if and only if the client was at most 1000 behind |
| SyncHypotheses.LongGapSkips | apps/api/src/sync/application/sync.service.ts:82-96 | clients more than 1000 events behind that meet every hypothesis, for any number of events: the push ends at the head with an event never received |
| SyncHypotheses.PushBetweenPages | packages/sync-engine/src/SyncEngine.ts:374-390 | a push between two pages of a pull, whose remembered head is already past the cursor, is accepted and corrupts the log |
| SyncPush.BatchInOrder | packages/sync-engine/src/SyncEngine.ts:835-860 | a batch holds only pending rows, in commit order, at most the limit, and all of them when it is shorter |
| SyncPush.BatchIsOldest | packages/sync-engine/src/SyncEngine.ts:835-860 | every pending row left out of a batch comes after every row in it |
| SyncPush.AckedPush | packages/sync-engine/src/SyncEngine.ts:480-495 | a push from the server's head appends the whole batch; acknowledged, every event of the batch is mapped to the sequence it got, cursor and expected head are the server's head, and what is pending is what was pending without the batch; with the answer lost the client is unchanged |
| SyncPush.ConflictCatchesUp | packages/sync-engine/src/SyncEngine.ts:524-587 | a push that meets at most 1000 unknown events, all with known keys, applies them, moves cursor and head to the server's head and asks for another attempt |
| SyncPush.PushGetsThrough | packages/sync-engine/src/SyncEngine.ts:437-522 | the push of a client in step, at most 1000 events behind and with the keys it needs, ends without error within its two attempts: the log ends as the old log and the batch of the client as rebased by the conflict, all of it acknowledged |
| SyncPush.RetrySendsTheRest | packages/sync-engine/src/SyncEngine.ts:437-522 | what is pending after the conflict is exactly the client's own events that the server does not have, in commit order, with the plaintexts they were saved with |
| SyncPush.ServerBehindIff | packages/sync-engine/src/SyncEngine.ts:497-507 | a push reports that the server is behind exactly when something is pending and the expected head is above the server's; then nothing changes, however often it is tried |
| SyncPush.NewsIff | packages/sync-engine/src/SyncEngine.ts:356-396 | a pull with the keys at hand reports news exactly when the server had events past the cursor |
| ProjectModel.ReplaySplit | packages/domain/src/shared/AggregateRoot.ts:72-77 | replay of a history is replay of its tail from where its head leads, errors included, for every split |
| ProjectModel.CreateIsConsistent | packages/domain/src/projects/Project.ts:63-104 | creation is refused exactly when the target precedes the start, and gives a consistent project otherwise |
| ProjectModel.DecisionIsAdmissible | packages/domain/src/projects/Project.ts:177-430 | what a command emits on a consistent project is an event that keeps it so, and no command meets an undefined field |
| ProjectModel.AdmissibleKeepsConsistent | packages/domain/src/projects/Project.ts:434-507 | applying such an event keeps start at or before target, milestone ids unique, and milestones in range |
| ProjectModel.CommandKeepsConsistent | packages/domain/src/projects/Project.ts:177-430 | every command keeps start at or before target, milestone ids unique, and milestones in range |
| ProjectCommands.ArchivedRefuses | packages/domain/src/projects/Project.ts:526-528 | an archived project refuses every command |
| ProjectCommands.NameChanged | packages/domain/src/projects/Project.ts:177-195 | a new name is refused exactly when it is the present one; otherwise the name and the time of change are the only fields that change |
| ProjectCommands.DescriptionChanged | packages/domain/src/projects/Project.ts:197-215 | likewise the description |
| ProjectCommands.StatusChanged | packages/domain/src/projects/Project.ts:217-235 | likewise the status |
| ProjectCommands.DatesChanged | packages/domain/src/projects/Project.ts:237-263 | new dates are accepted exactly when they are in order and every milestone lies between them; they are then the project's dates |
| ProjectCommands.GoalAdded | packages/domain/src/projects/Project.ts:265-283 | a goal is refused exactly when there is one; otherwise it is the project's goal |
| ProjectCommands.GoalRemoved | packages/domain/src/projects/Project.ts:285-304 | nothing happens exactly when there is no goal; otherwise the project has none afterwards |
| ProjectCommands.ProjectArchivedNow | packages/domain/src/projects/Project.ts:414-432 | a live project is archived at the given time, all else as before |
| ProjectCommands.MilestoneAdded | packages/domain/src/projects/Project.ts:306-336 | a milestone is accepted exactly when it lies within the dates and its id is new; it is then the last one, the others as before |
| ProjectCommands.MilestoneRenamed | packages/domain/src/projects/Project.ts:338-364 | exactly the milestone of that id gets the title, refused exactly when it has it already |
| ProjectCommands.MilestoneMoved | packages/domain/src/projects/Project.ts:366-392 | exactly the milestone of that id gets the date, accepted exactly when it is within the dates and another than before |
| ProjectCommands.MilestoneArchived | packages/domain/src/projects/Project.ts:394-412 | exactly the milestone of that id is gone, the others as before and in order |
| ProjectCommands.MilestoneMissing | packages/domain/src/projects/Project.ts:537-543 | a milestone that is not there cannot be renamed, moved or archived; a date out of range is reported first |
| ProjectCommands.Created | packages/domain/src/projects/Project.ts:63-104 | the fields of a newly created project |
| ProjectCommands.ReplayedFields | packages/domain/src/projects/Project.ts:434-509 | after any history name, description, status, dates, goal, archival and time of change are what the last event concerning each says |
| ProjectCommands.HandlerFailsIff | packages/domain/src/projects/Project.ts:487-497 | an event cannot be handled exactly when it renames or moves a milestone that is not there |
| ProjectHistory.ResumeIsReplay | packages/infrastructure/src/projects/ProjectRepository.ts:45-63 | a snapshot at any version n that covers the first n rows, carried on by the rows after n, is the replay of all rows |
| ProjectHistory.LoadIsReplay | packages/infrastructure/src/projects/ProjectRepository.ts:45-63 | with a usable snapshot that covers its rows, or none, loading is replaying all stored events |
| ProjectHistory.ExecKeepsCache | packages/sync-engine/src/SyncEngine.ts:957-1016 | inserting remote rows never falsifies a snapshot |
| ProjectHistory.ShiftKeepsCache | packages/infrastructure/src/sync/PendingEventVersionRewriter.ts:91-95 | moving pending rows never leaves a snapshot that no longer matches: the one it would falsify is deleted |
| ProjectHistory.RemotePageKeepsCache | packages/sync-engine/src/SyncEngine.ts:863-1036 | nor does a whole page, whatever it holds and however it ends |
| ProjectSaving.SaveIsAppend | packages/infrastructure/src/projects/ProjectRepository.ts:65-98 | a successful save is the protocol's local append plus a snapshot of that project alone |
| ProjectSaving.SaveThenLoadIff | packages/infrastructure/src/projects/ProjectRepository.ts:65-138 | after load, command and save, the full replay gives the saved project; loading through the snapshot gives it if and only if no version of the project was missing before |
| ProjectSaving.SaveKeepsCache | packages/infrastructure/src/projects/ProjectRepository.ts:65-138 | a save over a gapless history keeps every snapshot a cache |
| ProjectRuns.StepKeepsCache | packages/infrastructure/src/projects/ProjectRepository.ts:45-138 | saves, remote pages, acknowledgements and loads keep every snapshot a cache of its rows |
| ProjectRuns.EveryLoadIsReplay | packages/infrastructure/src/projects/ProjectRepository.ts:45-63 | after any sequence of them, loading any project is replaying its stored events |
| ProjectRuns.ContiguousIff | packages/sync-engine/src/SyncEngine.ts:863-1036 | a client in step with the log misses no version of an aggregate if and only if the aggregate has nothing unsent or its base is what the client holds |
| ProjectRuns.FailedPageLeavesGap | packages/sync-engine/src/SyncEngine.ts:882-955 | a page that fails after a shift leaves a version missing |
| ProjectRuns.GapBreaksSnapshot | packages/infrastructure/src/projects/ProjectRepository.ts:104-138 | over such a gap a save writes a snapshot whose version is too low, and the next load is not the saved project |
| ProjectRepository.Project.Handle | packages/domain/src/projects/Project.ts:434-507 | the field assignments and array edits of a handler compute the event's effect on the state; an event that does not fit leaves every field alone |
| ProjectRepository.Project.Check | packages/domain/src/projects/Project.ts:177-430 | the guards of each command, its early returns and its loops over milestones decide what the decision function says; what each decision changes is stated command by command in ProjectCommands |
| ProjectRepository.Project.Execute | packages/domain/src/projects/Project.ts:177-430 | a command keeps the project consistent, and emits at most one event, which is what changed it, or changes nothing at all; which fields that are is stated in ProjectCommands |
| ProjectRepository.Project.ApplyEvent | packages/domain/src/shared/AggregateRoot.ts:25-49 | one more uncommitted event, one version up |
| ProjectRepository.Project.LoadFromHistory | packages/domain/src/shared/AggregateRoot.ts:72-77 | the history loop is the replay, and the version counts its events |
| ProjectRepository.Repository.LoadSnapshot | packages/infrastructure/src/projects/ProjectRepository.ts:140-184 | a snapshot that does not decrypt for its version is deleted and not used |
| ProjectRepository.Repository.Load | packages/infrastructure/src/projects/ProjectRepository.ts:45-63 | the project object equals what the load function gives, with every error case and the purge |
| ProjectRepository.Repository.Save | packages/infrastructure/src/projects/ProjectRepository.ts:65-98 | the events go in together or not at all, and then the snapshot; with a mandatory field missing the events stay, no snapshot is written and the save fails; the uncommitted events are cleared exactly on success |
| ProjectStorage.AllRowsAre | packages/infrastructure/src/projects/ProjectRepository.ts:45-63 | a full load reads exactly the project's rows, by strictly ascending version |
| ProjectStorage.ReadIff | packages/infrastructure/src/eventstore/adapters/EncryptedEventToDomainAdapter.ts:46-94 | a row is read as an event exactly when it is that event, under the row's own id, sealed under the key for the row's aggregate and version; which error else |
| ProjectStorage.FullLoadIff | packages/infrastructure/src/projects/ProjectRepository.ts:45-63 | a full load finds nothing exactly when there are no rows, reports a missing key exactly when there are and the key is not known, and gives a project exactly when every row encloses an event and the events replay to it |
| ProjectStorage.UsableIff | packages/infrastructure/src/projects/ProjectRepository.ts:140-184 | a snapshot is used exactly when it is that state sealed under the project's key, id and version |
| ProjectStorage.PurgedIs | packages/infrastructure/src/projects/ProjectRepository.ts:140-184 | any other snapshot of the project is deleted, and nothing else |
| ProjectStorage.SaveEndsIff | packages/infrastructure/src/projects/ProjectRepository.ts:65-98 | a save conflicts exactly when the snapshot is ahead of the rows or an event id is taken, and then at most purges; else the events are appended in order above the highest version, with a snapshot of the present state exactly when the mandatory fields are set |
| ProjectStorage.CreatedIsPersistable | packages/infrastructure/src/projects/ProjectRepository.ts:100-138 | whatever history starts with a creation leaves a project whose snapshot can be written |
| Cbor.ParseOfHead | packages/key-service-core/src/cbor.rs:27-32 | every head in each of its five lengths is parsed back and nothing after it is touched |
| Cbor.HeadIsShortest | packages/key-service-core/src/cbor.rs:34-46 | no head that parses to the same number is shorter than the one written, and one as long is the same (RFC 8949, section 4.2.1) |
| Cbor.ParseOfEncode | packages/key-service-core/src/cbor.rs:27-46 | the parser undoes the printer on every value, in front of any further bytes; the shape of those bytes is CborShape.EncodingIsShaped |
| Cbor.EncodeIsInjective | packages/key-service-core/src/cbor.rs:27-32 | encodings are prefix-free and determine the value |
| CborShape.EncodingIsShaped | packages/key-service-core/src/cbor.rs:27-32 | the shape of RFC 8949, sections 3 and 3.1: the first byte's top three bits are 0 for an integer from zero on, 1 for a negative one, 2 for bytes, 3 for a text, 4 for an array and 5 for a map; its low five bits are the argument below 24, and otherwise 24 to 27 with 1, 2, 4 or 8 bytes of it, most significant first; then the body |
| Utf8Text.Utf8Iff | packages/key-service-core/src/cbor.rs:34-46 | a byte string is taken as a text if and only if it is the UTF-8 encoding of a string of Unicode scalar values |
| Bytes.LessIff | packages/key-service-core/src/cbor.rs:160-174 | keys are ordered by the first byte in which their encodings differ, a prefix before what it starts |
| CanonicalCbor.CollectKeepsLast | packages/key-service-core/src/cbor.rs:160-174 | the ordered map over encoded keys ends strictly ascending and holds, for each key, exactly its last entry |
| CanonicalCbor.CanonicalFixed | packages/key-service-core/src/cbor.rs:157-182 | a canonical value is its own canonical form |
| CanonicalCbor.CanonIsCanonical | packages/key-service-core/src/cbor.rs:157-182 | at every depth the result has strictly ascending encoded keys |
| CanonicalCbor.CanonIsIdempotent | packages/key-service-core/src/cbor.rs:157-182 | doing it twice changes nothing |
| CanonicalCbor.LastKeyWins | packages/key-service-core/src/cbor.rs:160-174 | an entry is in the canonical map if and only if it is the canonical form of an entry with no later one under the same canonical key |
| CanonicalCbor.ReorderedCanon | packages/key-service-core/src/cbor.rs:157-182 | reordering maps with distinct canonical keys, at any nesting depth, does not change the canonical form |
| CborDecoding.LimitsKept | packages/key-service-core/src/cbor.rs:184-214 | a value within the limits has its canonical form within them |
| CborDecoding.AcceptedIff | packages/key-service-core/src/cbor.rs:34-46 | a byte string decodes to a value if and only if it is the encoding of that value, the value is canonical and within the limits, and the bytes are not too many |
| CborDecoding.DecodeOfEncode | packages/key-service-core/src/cbor.rs:27-46 | decoding the canonical encoding of any value within the limits gives its canonical form |
| CborDecoding.DecodingIsInjective | packages/key-service-core/src/cbor.rs:34-46 | no two accepted byte strings decode to the same value, whatever limits each was read under |
| CborDecoding.CanonicalizeValue | packages/key-service-core/src/cbor.rs:157-182 | the loops over entries and items, which encode canonicalized keys on the way, terminate and compute the canonical form |
| CborFields.Lookup | packages/key-service-core/src/cbor.rs:139-155 | a record with rising keys gives back each field under its key, and nothing under any other |
| CborFields.CanonOfFields | packages/key-service-core/src/cbor.rs:48-54 | canonicalizing a record keeps its fields in place and only canonicalizes what they hold |
| CborFields.PartSurvives | packages/key-service-core/src/cbor.rs:27-46 | a record with one embedded value, present or absent, comes back from bytes with that value in canonical form |
| Formats.ContainerRoundTrip | packages/key-service-core/src/formats.rs:409-419 | decode undoes encode for record containers, at the level of bytes |
| Formats.PlainRoundTrip | packages/key-service-core/src/formats.rs:421-441 | and for plain records, up to the canonical form of the payload |
| Formats.KdfRoundTrip | packages/key-service-core/src/formats.rs:505-521 | and for the key derivation parameters with their 32-bit fields |
| Formats.DecodeRecordContainers | packages/key-service-core/src/formats.rs:469-476 | the loop yields all containers in order or the error of the first that is malformed |
| Formats.HeaderRoundTrip | packages/key-service-core/src/formats.rs:345-407 | and for vault headers |
| Formats.SnapshotRoundTrip | packages/key-service-core/src/formats.rs:443-467 | and for snapshots, whose header is embedded as a value |
| SharingFormats.ScopeRoundTrip | packages/key-service-core/src/formats.rs:570-584 | and for scope states, up to the canonical form of the payload |
| SharingFormats.EncodeGrant | packages/key-service-core/src/formats.rs:586-611 | pushing the optional policy among the entries gives the encoding of the one map of the grant |
| SharingFormats.GrantRoundTrip | packages/key-service-core/src/formats.rs:119-161 | and for resource grants with and without a policy |
| SharingFormats.EncodeEnvelope | packages/key-service-core/src/formats.rs:613-635 | pushing the optional fingerprint last gives the encoding of the one map of the envelope |
| SharingFormats.EnvelopeRoundTrip | packages/key-service-core/src/formats.rs:238-278 | and for key envelopes with and without a recipient fingerprint |
| WireLayout.Names | packages/key-service-core/src/aad.rs:6-48 | the suite names and domain tags are the bytes of their ASCII spellings |
| WireLayout.ContainerLayout | packages/key-service-core/src/formats.rs:478-487 | parsing an encoded container gives version, sequence, previous hash, record id, nonce and ciphertext under keys 0 to 5 |
| WireLayout.PlainLayout | packages/key-service-core/src/formats.rs:421-428 | likewise a plain record: id, kind and payload under 0 to 2 |
| WireLayout.HeaderLayout | packages/key-service-core/src/formats.rs:345-382 | likewise a vault header, with the derivation parameters, the records and the wrapped key as nested values |
| WireLayout.SnapshotLayout | packages/key-service-core/src/formats.rs:443-455 | likewise a snapshot: the header under 0 as a value, the records under 1 |
| WireLayout.ScopeLayout | packages/key-service-core/src/formats.rs:570-584 | likewise a scope state, under 0 to 9 |
| WireLayout.GrantLayout | packages/key-service-core/src/formats.rs:586-611 | likewise a grant, under 0 to 15 with the policy under 9 or nothing there |
| WireLayout.EnvelopeLayout | packages/key-service-core/src/formats.rs:613-635 | likewise an envelope, under 0 to 13 with the fingerprint under 14 or nothing there |
| WireLayout.StoredPayloads | packages/key-service-core/src/keyvault.rs:224-298 | kind and payload of each of the four records the service makes |
| WireLayout.RecordAadLayout | packages/key-service-core/src/aad.rs:34-48 | a record's associated data is the tag, vault, user, suite and record id under 0 to 4 |
| WireLayout.KeywrapAadLayout | packages/key-service-core/src/aad.rs:6-32 | that of the wrapped vault key is the tag, vault, user, derivation parameters and suite |
| WireLayout.RecordAadBinds | packages/key-service-core/src/aad.rs:34-48 | two records share associated data exactly when vault, user and record id are the same |
| WireDecoding.ContainerIff | packages/key-service-core/src/formats.rs:489-503 | a container is read from exactly the canonical maps within the limits that have its fields, of the right types and lengths, under keys 0 to 5 |
| WireDecoding.PlainIff | packages/key-service-core/src/formats.rs:430-441 | likewise a plain record |
| WireDecoding.KdfIff | packages/key-service-core/src/formats.rs:505-521 | the derivation parameters are read as 64-bit integers and cut to 32 bits |
| WireDecoding.HeaderIff | packages/key-service-core/src/formats.rs:384-407 | likewise a header, whose suite names must be the known ones |
| WireDecoding.SnapshotIff | packages/key-service-core/src/formats.rs:457-467 | likewise a snapshot, whose header must also be readable by itself |
| WireDecoding.ScopeIff | packages/key-service-core/src/formats.rs:31-59 | likewise a scope state |
| WireDecoding.GrantIff | packages/key-service-core/src/formats.rs:118-161 | likewise a grant; its policy is what lies under 9, or none when nothing does |
| WireDecoding.EnvelopeIff | packages/key-service-core/src/formats.rs:237-278 | likewise an envelope; a fingerprint under 14 must be bytes |
| KeyVault.ApplyContainers | packages/key-service-core/src/keyvault.rs:71-122 | the loop over the sorted containers yields the replayed vault and keys, or the error of the first container that does not fit |
| KeyVault.ReplayedIsChained | packages/key-service-core/src/keyvault.rs:85-119 | what replay accepts is numbered from 1, each record carrying its predecessor's hash, with distinct ids |
| KeyVault.PlainSuiteIsSound | packages/key-service-core/src/crypto.rs:65-114 | the laws assumed of sealing, opening and hashing are met by some primitives |
| KeyVault.OpenOfSealed | packages/key-service-core/src/keyvault.rs:124-165 | a sealed record opens to the record that was sealed |
| KeyVault.AppendKeepsReplay | packages/key-service-core/src/keyvault.rs:124-165 | appending to a replayed log gives a log whose replay is the vault in memory, with the record's effect on the keys |
| KeyVaultReplay.AnyOrder | packages/key-service-core/src/keyvault.rs:71-122 | the containers of an accepted log are accepted in every order, with the same vault and the same keys |
| KeyVaultReplay.AppliedVault | packages/key-service-core/src/keyvault.rs:71-122 | an accepted log is its containers by sequence, all of them, with the head sequence their number |
| KeyVaultReplay.AppendedInAnyOrder | packages/key-service-core/src/keyvault.rs:124-165 | any log appended from the empty vault replays, in every permutation, to the same vault and to the keys its records wrote |
| KeyVaultReplay.LastWriterWins | packages/key-service-core/src/keyvault.rs:168-222 | an effect stands under its key after replay if and only if it is that of the last record that writes the key |
| KeyVaultReplay.EncodeContainerIsInjective | packages/key-service-core/src/formats.rs:478-487 | the bytes that are hashed determine the container |
| KeyVaultReplay.HeadHashDeterminesLog | packages/key-service-core/src/keyvault.rs:85-119 | two accepted non-empty logs with the same head hash are the same log by sequence, or a container of the one and a different one of the other are hashed alike |
| KeyVaultReplay.StoredUserKey | packages/key-service-core/src/keyvault.rs:224-238 | the record made for the user key writes exactly that key when replayed |
| KeyVaultReplay.StoredDeviceKeys | packages/key-service-core/src/keyvault.rs:240-262 | the record made for a device's signing keys writes exactly those under that device |
| KeyVaultReplay.StoredScopeKey | packages/key-service-core/src/keyvault.rs:264-280 | the record made for a scope key writes exactly that key under scope and epoch |
| KeyVaultReplay.StoredResourceKey | packages/key-service-core/src/keyvault.rs:282-298 | the record made for a resource key writes exactly that key under resource and key id |
| KeyVaultFaults.EffectIff | packages/key-service-core/src/keyvault.rs:168-222 | which payloads a record of each kind must have for which effect; other kinds have none |
| KeyVaultFaults.OpenIff | packages/key-service-core/src/keyvault.rs:99-113 | a container opens to a record exactly when key and nonce have their lengths, the ciphertext opens under the container's own associated data, and the record read from it names the same id |
| KeyVaultFaults.ReplaysIff | packages/key-service-core/src/keyvault.rs:71-122 | a log is accepted if and only if it is numbered from 1, linked from the genesis hash, free of repeated ids, and every record opens and is sensible |
| KeyVaultFaults.RejectedFor | packages/key-service-core/src/keyvault.rs:85-119 | a rejected log is rejected for its first bad record and that record's first fault: sequence, repeated id, chain, decryption, content |
| VaultStorage.IndexDecodesIff | packages/key-service-core/src/key_service.rs:1469-1493 | a written index can be read back if and only if it is within the limits, and then is what was written |
| VaultStorage.UuidIndexFitsIff | packages/key-service-core/src/key_service.rs:1469-1493 | an index of generated ids is within the limits if and only if it has at most 4096 of them |
| VaultStorage.RecordsInIff | packages/key-service-core/src/key_service.rs:1237-1275 | the records load exactly when every index entry is a text and every record that is there can be read; ids without a record are passed over |
| VaultStorage.TidyLoads | packages/key-service-core/src/key_service.rs:1237-1275 | a storage that holds each listed record under its id loads to those containers by sequence |
| VaultStorage.PutIsTidyIff | packages/key-service-core/src/key_service.rs:1445-1467 | adding a record always succeeds, and leaves a storage that loads if and only if the longer index is within the limits |
| VaultStorage.SmallContainerEncodable | packages/key-service-core/src/key_service.rs:1445-1467 | a container with a generated id and a payload of ordinary size is within the limits of reading |
| VaultService.UnwrapOfWrap | packages/key-service-core/src/key_service.rs:331-396 | the passphrase a vault key was wrapped with unwraps it |
| VaultSessions.EnsureValidIff | packages/key-service-core/src/key_service.rs:1201-1224 | a session is accepted exactly until it expires; asking with an expired one drops it and the vault in memory |
| VaultSessions.CreateIff | packages/key-service-core/src/key_service.rs:331-372 | when a vault can be created, and that sessions and memory stay |
| VaultSessions.CreatedOpens | packages/key-service-core/src/key_service.rs:331-396 | a vault created for any user opens under its passphrase to the key it was created with, empty |
| VaultSessions.UnlockIff | packages/key-service-core/src/key_service.rs:374-396 | unlocking succeeds exactly when the passphrase opens the stored header to a key under which the stored records replay; the session is then a normal one, under that key and until the given time |
| VaultSessions.RaiseIff | packages/key-service-core/src/key_service.rs:422-460 | a step-up succeeds exactly for a live session and a passphrase that opens the stored header to the session's own key; the session is then raised under the same key, and otherwise no session changes |
| VaultSessions.LockIff | packages/key-service-core/src/key_service.rs:483-492 | the session and the vault in memory are gone, other sessions stay |
| VaultSessions.ExportIff | packages/key-service-core/src/key_service.rs:494-512 | an export succeeds exactly for a raised live session and a storage that can be read |
| VaultSessions.ImportIff | packages/key-service-core/src/key_service.rs:514-561 | an import succeeds exactly for a raised live session and a snapshot that can be read |
| VaultSessions.ChangePassphraseIff | packages/key-service-core/src/key_service.rs:563-602 | a new passphrase is accepted exactly for a raised live session when a key can be derived; only the stored header changes |
| VaultSessions.PersistNeedsSession | packages/key-service-core/src/key_service.rs:1305-1388 | a key is stored only under a live session; without one nothing is stored |
| VaultSessions.IdentityNeedsSession | packages/key-service-core/src/key_service.rs:1088-1158 | so are the identity keys |
| VaultSessions.GoneIsRefused | packages/key-service-core/src/key_service.rs:1201-1224 | every operation on a session that is not there is refused and changes nothing |
| VaultSessions.GoneUntilIssued | packages/key-service-core/src/key_service.rs:483-492 | in every run a session that is gone stays away until an unlock issues it again |
| VaultSessions.RaisedByPassphrase | packages/key-service-core/src/key_service.rs:422-460 | in every run a raised session was raised at some step by a passphrase that then opened the stored header to its key |
| VaultRuns.ReloadGivesMemory | packages/key-service-core/src/key_service.rs:1160-1199 | what the invariant means: loading and replaying storage under the live session's key gives the vault and key maps in memory |
| VaultRuns.StoreKeepsOk | packages/key-service-core/src/key_service.rs:1305-1343 | storing a record keeps memory and storage in step with room left, and cannot be reloaded without |
| VaultRuns.StoreSucceedsIff | packages/key-service-core/src/key_service.rs:1305-1343 | a small record is stored if and only if the vault is in memory, key and nonce have their lengths, and its id is new |
| VaultRuns.StoreReloadsIff | packages/key-service-core/src/key_service.rs:1445-1467 | after a store that reported success the vault can be loaded again if and only if it held fewer than 4096 records |
| VaultSteps.NewPassphraseKeepsOk | packages/key-service-core/src/key_service.rs:563-602 | a passphrase change leaves sessions, vault and keys alone, and afterwards the new passphrase unwraps the same vault key |
| VaultSteps.IdentityKeepsOk | packages/key-service-core/src/key_service.rs:1088-1158 | creating an identity writes the user key and then the device keys, and keeps memory and storage in step also if the second write fails |
| VaultSteps.PersistKeepsOk | packages/key-service-core/src/key_service.rs:1305-1388 | persisting a key keeps memory and storage in step and adds exactly its effect to the keys in memory |
| VaultSteps.StepKeepsOk | packages/key-service-core/src/key_service.rs:1201-1224 | every operation keeps memory and storage in step, expired sessions included |
| VaultSteps.MemoryIsReload | packages/key-service-core/src/key_service.rs:1160-1199 | in every run with one live session at a time the vault and key maps in memory are those that reloading and replaying storage would give |
| VaultLimit.VaultFills | packages/key-service-core/src/key_service.rs:331-396 | with any sound primitives some run creates, unlocks and fills a vault to any number of records up to 4096 |
| VaultLimit.FullVaultIsLost | packages/key-service-core/src/key_service.rs:1445-1467 | at the end of such a run the 4097th record is stored with success, and after locking the vault cannot be unlocked |
| VaultLimit.SomeVaultIsLost | packages/key-service-core/src/key_service.rs:1445-1467 | there are primitives, a passphrase and a run for which this happens |
| VaultTransfer.ExportedDecodes | packages/key-service-core/src/key_service.rs:494-512 | an exported blob that can be read decodes to the header and records that were exported |
| VaultTransfer.ImportedIsTidy | packages/key-service-core/src/key_service.rs:514-561 | importing replaces header and index, so that exactly the imported records are listed, whatever the target held before |
| VaultTransfer.TransferKeepsVault | packages/key-service-core/src/key_service.rs:494-561 | export, import into any other vault, lock, and unlock with the exporting vault's passphrase reproduce exactly the exported vault and key maps |
| KeyService.KeyService.EnsureSessionValid | packages/key-service-core/src/key_service.rs:1201-1224 | an expired session is dropped together with the vault in memory |
| KeyService.KeyService.CreateNewVault | packages/key-service-core/src/key_service.rs:331-372 | storage has the new header and an empty index; sessions and memory are untouched |
| KeyService.KeyService.UnlockPassphrase | packages/key-service-core/src/key_service.rs:374-396 | the state that unlocking gives, or the error and where it leaves the service |
| KeyService.KeyService.FinishUnlock | packages/key-service-core/src/key_service.rs:1160-1199 | the session is there even when loading the vault fails, in which case the vault in memory stays what it was |
| KeyService.KeyService.LoadAllContainers | packages/key-service-core/src/key_service.rs:1237-1275 | the loop over the index yields the containers present, by sequence, or the error of the first bad entry |
| KeyService.KeyService.StepUpSession | packages/key-service-core/src/key_service.rs:422-460 | the object does what the step-up function says, on success, refusal and expiry; when it succeeds is VaultSessions.RaiseIff |
| KeyService.KeyService.LockNow | packages/key-service-core/src/key_service.rs:483-492 | the session and the vault in memory are gone |
| KeyService.KeyService.PersistRecordContainer | packages/key-service-core/src/key_service.rs:1445-1467 | the record and then the index with its id appended; an unreadable index leaves the record written and reports the error |
| KeyService.KeyService.StoreRecord | packages/key-service-core/src/key_service.rs:1318-1342 | order of append, write and update of the keys in memory, and what is left when one of them fails |
| KeyService.KeyService.PersistScopeKey | packages/key-service-core/src/key_service.rs:1305-1343 | the operation that the runs above take as a step, for a scope key |
| KeyService.KeyService.PersistResourceKey | packages/key-service-core/src/key_service.rs:1345-1388 | and for a resource key |
| KeyService.KeyService.InitIdentity | packages/key-service-core/src/key_service.rs:1088-1158 | both records one after the other, stopping at the first error |
| KeyService.KeyService.ChangePassphrase | packages/key-service-core/src/key_service.rs:563-602 | the header is written with the new wrap only when everything before it succeeded |
| KeyService.KeyService.ExportKeyvault | packages/key-service-core/src/key_service.rs:494-512 | the snapshot of what is in storage |
| KeyService.KeyService.ImportKeyvault | packages/key-service-core/src/key_service.rs:514-561 | the loop over the records, and header and index replaced by the snapshot's |
| GoalSaga.RecordedExactIff | packages/application/src/sagas/GoalAchievementSaga.ts:145-239 | an event keeps every goal's linked and completed ids exact if and only if the project's history allows it there |
| GoalSaga.SecondGoalStaysLinked | packages/application/src/sagas/GoalAchievementSaga.ts:172-192 | a project given a second goal before it loses the first stays linked to both |
| GoalSaga.HandledExactIff | packages/application/src/sagas/GoalAchievementSaga.ts:145-239 | so does the whole handling of the event, whatever the dispatched commands answer |
| GoalSaga.RequestsAreRight | packages/application/src/sagas/GoalAchievementSaga.ts:317-390 | one event dispatches at most one command; an achieve only when the goal has projects and all are completed, an unachieve only when one is not |
| GoalSaga.HandledIsExact | packages/application/src/sagas/GoalAchievementSaga.ts:102-143 | over any interleaving of well-formed histories a goal links exactly the projects whose current goal it is and has completed exactly those now completed |
| GoalSaga.ReplayedIsExact | packages/application/src/sagas/GoalAchievementSaga.ts:59-81 | so has the replay of the events |
| GoalSaga.LiveAgreesWithReplay | packages/application/src/sagas/GoalAchievementSaga.ts:59-81 | live handling and replay agree on both sets whenever each project's own history is the same, however the projects are interleaved |
| SagaCommands.HandledFollowsGoal | packages/application/src/sagas/GoalAchievementSaga.ts:241-286 | after any deliveries a goal is held to be achieved when an achievement of it came after every unachievement, archived when it was archived once, and at the last version its events carried plus one for each later event |
| SagaCommands.ReplayedFollowsGoal | packages/application/src/sagas/GoalAchievementSaga.ts:241-286 | so it is after a replay, with no command outstanding |
| SagaCommands.RequestedIff | packages/application/src/sagas/GoalAchievementSaga.ts:340-357 | a goal counts as asked for exactly when the last word on it was a request answered as done, with no achievement, unachievement or archival since |
| SagaCommands.CommandIff | packages/application/src/sagas/GoalAchievementSaga.ts:317-390 | with exact counts, one event asks for an achievement exactly when it concerns the goal, is no removal, the goal is neither achieved nor archived and has a version, and it has projects, all completed by now; for an unachievement exactly when it concerns the goal, which is achieved or asked for, not archived, has a version and has a project not completed |
| SagaCommands.RunCommandIff | packages/application/src/sagas/GoalAchievementSaga.ts:102-390 | the same over any run of well-formed histories, in terms of the delivered events alone |
| SagaCommands.CalledForIff | packages/application/src/sagas/GoalAchievementSaga.ts:317-390 | after a replay the commands that the decision rules give are exactly those the replayed events call for |
| GoalAchievementSaga.DecidedIsAllowed | packages/domain/src/projects/Project.ts:217-303 | what Project commands emit is allowed, and the facts the saga is measured against follow the project's goal and status |
| GoalAchievementSaga.CreatedIsAllowed | packages/domain/src/projects/Project.ts:63-104 | a creation is allowed for a new project, and the facts start with its goal and status |
| GoalAchievementSaga.Saga.TryAchieve | packages/application/src/sagas/GoalAchievementSaga.ts:317-357 | state, command and request flag after asking, on success and on a refused or failed dispatch; when it is asked for is SagaCommands.CommandIff |
| GoalAchievementSaga.Saga.TryUnachieve | packages/application/src/sagas/GoalAchievementSaga.ts:359-390 | the state is not changed by asking |
| GoalAchievementSaga.Saga.HandleProjectCreated | packages/application/src/sagas/GoalAchievementSaga.ts:145-170 | store and commands after a creation |
| GoalAchievementSaga.Saga.HandleProjectGoalAdded | packages/application/src/sagas/GoalAchievementSaga.ts:172-192 | store and commands when a project gets a goal |
| GoalAchievementSaga.Saga.HandleProjectGoalRemoved | packages/application/src/sagas/GoalAchievementSaga.ts:194-213 | store and commands when it loses its goal, and the project forgotten when it had none |
| GoalAchievementSaga.Saga.HandleProjectStatusTransitioned | packages/application/src/sagas/GoalAchievementSaga.ts:215-239 | store and commands after a status change |
| GoalAchievementSaga.Saga.HandleGoalEvent | packages/application/src/sagas/GoalAchievementSaga.ts:241-286 | achieved, archived and version follow the goal's own events |
| GoalAchievementSaga.Saga.HandleEvent | packages/application/src/sagas/GoalAchievementSaga.ts:102-143 | each event reaches the handler that reacts to it; during a replay no command leaves |
| GoalAchievementSaga.Saga.Bootstrap | packages/application/src/sagas/GoalAchievementSaga.ts:59-76 | counts are those of the replay; every goal the replay met is sent what it is owed, at most one command each and nothing else, up to the first failure, and its request flag is the answer; what is owed is SagaCommands.CalledForIff |
| GoalAchievementSaga.Saga.OnRebaseRequired | packages/application/src/sagas/GoalAchievementSaga.ts:78-81 | after a rebase counts, achieved, archived and version are those of the events replayed, whatever the saga held before; each goal is sent exactly the command the events call for, at most one, up to the first failure |
| TaskRunner.StepKeepsOk | packages/infrastructure/src/projection/ProjectionTaskRunner.ts:20-69 | executions never overlap, and every waiting caller has an execution coming that began, or will begin, no earlier than its call |
| TaskRunner.ReturnsAreFresh | packages/infrastructure/src/projection/ProjectionTaskRunner.ts:20-69 | if nothing throws, a call returns only after the end of a complete execution that began at or after the call |
| TaskRunner.RoundsAreWanted | packages/infrastructure/src/projection/ProjectionTaskRunner.ts:20-69 | in every run each execution was asked for by a call made since the one before it began, an execution is followed by another exactly when a call came during it, and otherwise everyone waiting is let go |
| TaskRunner.ThrowServesIff | packages/infrastructure/src/projection/ProjectionTaskRunner.ts:32-69 | when an execution throws, a waiting caller has been served if and only if the execution before it began at or after the call |
| TaskRunner.ThrowDropsPending | packages/infrastructure/src/projection/ProjectionTaskRunner.ts:36-66 | a run in which the caller that asked for another execution returns without one |
| TaskRunner.Runner.Arrive | packages/infrastructure/src/projection/ProjectionTaskRunner.ts:20-31 | a caller starts the cycle exactly when none is under way, and otherwise asks for one more execution |
| TaskRunner.Runner.ExecutionEnded | packages/infrastructure/src/projection/ProjectionTaskRunner.ts:32-69 | the cycle goes on exactly when one was asked for and nothing was thrown |
| TaskRunner.Runner.ArriveAs | packages/infrastructure/src/projection/ProjectionTaskRunner.ts:20-31 | the fields refine the state machine when a caller arrives |
| TaskRunner.Runner.EndAs | packages/infrastructure/src/projection/ProjectionTaskRunner.ts:32-69 | and when an execution ends |
| CommittedEventPublisher.Publisher.RunProcessStream | packages/infrastructure/src/eventing/CommittedEventPublisher.ts:115-181 | either the whole batch is handled, published in order and the position moved to its last event, or nothing changes; it fails exactly when an event that cannot be decoded comes before any that lacks the master key |
| CommittedEventPublisher.PublishedOnceInOrder | packages/infrastructure/src/eventing/CommittedEventPublisher.ts:115-181 | in every run the published events are in commit order without repetition, and every event up to the position was published or passed over for want of its aggregate's key, never both |
| CommittedEventPublisher.ProcessIff | packages/infrastructure/src/eventing/CommittedEventPublisher.ts:115-181 | a run does nothing exactly when some unread event lacks the master key or cannot be decoded; otherwise it reads to the end, publishes exactly the unread events with a key and skips exactly those without an aggregate key |
| CommittedEventPublisher.AllPublished | packages/infrastructure/src/eventing/CommittedEventPublisher.ts:115-181 | if no aggregate key is ever missing, exactly the events committed up to the position are published |
| CommittedEventPublisher.DeferredNotLost | packages/infrastructure/src/eventing/CommittedEventPublisher.ts:133-149 | without the master key nothing moves, and once every key is there everything committed so far is published |
| HandleCache.Session.TouchHandle | packages/key-service-core/src/session.rs:100-105 | the handle moves to the end of the queue, once |
| HandleCache.Session.MakeRoom | packages/key-service-core/src/session.rs:64-70 | map and queue lose the same oldest handles, as many as it takes |
| HandleCache.Session.InsertHandle | packages/key-service-core/src/session.rs:62-76 | map and queue together are the ideal cache after an insertion, also for an id already there |
| HandleCache.Session.GetHandle | packages/key-service-core/src/session.rs:78-83 | the entry of a live handle, which becomes the most recent, or none and no change |
| HandleCache.Session.RemoveHandle | packages/key-service-core/src/session.rs:85-90 | exactly that handle is gone from map and queue |
| HandleCache.AlwaysByLastUse | packages/key-service-core/src/session.rs:62-106 | after any sequence of operations the queue lists the live handles once each by last use, and is no longer than the bound (one, if the bound is zero) |
| HandleCache.ZeroBoundKeepsOne | packages/key-service-core/src/session.rs:62-76 | with a bound of zero an insertion leaves exactly the inserted handle, whatever came before |
| HandleCache.EvictsLeastRecent | packages/key-service-core/src/session.rs:64-70 | after any sequence of operations every handle evicted was used longer ago than every handle kept |
| HandleCache.OneMore | packages/key-service-core/src/session.rs:62-90 | the exact contents after one more operation: an insertion keeps the handle and the most recent others up to the bound, a lookup drops nothing, a removal drops that handle alone |
| HandleCache.HeldIsLastPut | packages/key-service-core/src/session.rs:62-90 | after any sequence of operations a live handle has the key material of its last insertion, and was not removed since |
| StoragePaging.AdaptersAgreeIff | packages/key-service-wasm/src/lib.rs:90-122 | both adapters start a page at the same key if and only if the cursor is empty, a present key, or before every key |
| StoragePaging.NextPageContinues | packages/key-service-core/src/async_key_service.rs:81-115 | in both adapters the next page starts right after the last key of this one, unless that key is empty |
| StoragePaging.StuckIff | packages/key-service-core/src/async_key_service.rs:358-382 | paging from the start never advances if and only if the empty key is the last of the first page |
| StoragePaging.BufferedStorage.ListSince | packages/key-service-core/src/async_key_service.rs:81-115 | the page of the sorted namespace after the cursor |
| StoragePaging.BufferedStorage.LoadNamespaceEntries | packages/key-service-core/src/async_key_service.rs:358-382 | wherever paging is not stuck from the start, the cursor loop terminates and returns the sorted namespace, each key once |
| StoragePaging.BufferedStorage.DrainPending | packages/key-service-core/src/async_key_service.rs:46-49 | all writes since the last drain, in order, and none is left |
| StoragePaging.WasmStorage.ListSince | packages/key-service-wasm/src/lib.rs:90-122 | the page of the sorted namespace from the first key past the cursor |
| StoragePaging.WasmStorage.DrainPending | packages/key-service-wasm/src/lib.rs:53-58 | the last write under each joined name, in some order, and none is left |
| StoragePaging.JoinedAlikeIff | packages/key-service-wasm/src/lib.rs:60-62 | two different namespace and key pairs share a pending name if and only if one splits the other at a further colon |
| StoragePaging.FlushesAgree | packages/key-service-wasm/src/lib.rs:53-88 | if no two writes share a name that way, draining the map flushes the same storage as all writes in order, whatever was stored before |
| StoragePaging.FlushesAgreeIff | packages/key-service-wasm/src/lib.rs:53-88 | into empty storage the two flushes agree if and only if no two writes share a name that way; otherwise some write is not there afterwards |
| StoragePaging.FlushedIs | packages/key-service-wasm/src/lib.rs:53-88 | after a flush a name holds the last value written under it, or what it held when there was none |
| StoragePaging.JoinedAlikeLosesWrite | packages/key-service-wasm/src/lib.rs:53-88 | a pair of writes of which the drained map keeps only the second |

## Left out

Sync and projects:

- SyncProtocol.StepKeepsSystem: a push step requires expected head = cursor and a gap of at most 1000; both are shown necessary rather than proved of the code, where they can fail.
- SyncProtocol.Converged: speaks of runs in which no client stops between applying a page and writing its cursor; after such a stop more events than the cursor says are mapped until the next page.
- RemoteApply.ApplyRemoteEvents: runs without another save or push of the same client in between, whereas the awaits of the code would let one in; likewise a project save is one step.
- PendingVersionRewriter.RewritePendingVersions: ciphertexts are symbolic terms that open only under the key, aggregate and version they were sealed for, so nonces are not modelled.
- LocalStore.Store.InsertMapping: an acknowledgement is one batch in the code; the insert-or-ignore of each mapping is the same either way.
- SyncEngine.Engine.TryPush: the rebase signal raised inside a push is stated for HandleConflict and not passed on.
- SyncServer.SyncService.PushEvents: access policy, store ownership and the validation of sharing references are not part of this model, nor are those columns.
- SyncServer.InMemoryRepository.ResetStore: without the refusal in production.
- The JSON and base64 codec of records, the columns for event type, time, actor and causation, and the comparison of a record's fields with the decrypted event.
- Timers, aborts, backoff, status, waiters, and a missing rewriter; key epochs.
- ProjectModel.CommandKeepsConsistent: dates are numbers in calendar order, and the string checks of value objects and the actor of an event are not modelled.
- ProjectRuns.EveryLoadIsReplay: saves presuppose that no version is missing (see SaveThenLoadIff) and that the project was loaded in the same step, so a stale project object is not saved.
- The JSON form of a project snapshot.

CBOR and formats:

- Floats, booleans, null, tags and big numbers, which no record of the vault uses; indefinite lengths are rejected here at once, in the code because re-encoding differs.
- The recursion limit of the CBOR library, which lies above the depth limit, and error texts.
- Signatures over scope states, grants and envelopes, and their references.

Vault:

- VaultSteps.MemoryIsReload: runs have one live session, no import or creation while unlocked, at most 4096 records, records of ordinary size, and a storage that does not fail.
- VaultTransfer.TransferKeepsVault: presupposes that the import reports success, that is, that the blob is within the decoding limits.
- VaultService.UnwrapOfWrap: key derivation and AEAD are functions with the laws of `Sound`, and a vault key is shorter than 2^64 - 16 bytes (the service makes keys of 32); weak keys, nonce reuse and timing are not expressible.
- KeyVaultReplay.HeadHashDeterminesLog: up to a hash collision among the containers of the two logs, which is named rather than excluded.
- KeyService.KeyService.EnsureSessionValid: the handles of a session and zeroization are not modelled with the vault; `HandleCache` has the handles alone.
- Unlocking by user presence, the application master key, renewing sessions, ingesting scope states, grants and envelopes, signer rosters, and encryption, decryption and signing by handle.
- The suite names are single-valued as in the source; a stored user key is valid or not by a predicate of the suite.
- Storage keys are constructors (header, index, record id) instead of joined strings.

Saga, runner, publisher, bounded stores:

- GoalAchievementSaga.Saga.HandleEvent: empty-string ids are not told apart from missing ones, and events that a dispatched command publishes are not delivered while the handler is still running.
- GoalAchievementSaga.Saga.Bootstrap: goals met in a replay are visited in some order; which of them a failing dispatch cuts off is left open.
- Idempotency keys, correlation ids, timestamps and the encryption of the saga's state.
- TaskRunner.Runner.ExecutionEnded: durations and the warning about them are left out.
- CommittedEventPublisher.PublishedOnceInOrder: within one start of the publisher; after a stop between publishing and writing the position the same events are published again, and a bus that fails is not modelled.
- HandleCache.Session.InsertHandle: ids are arguments and need not be fresh; the entry is a value that is not zeroized.
- StoragePaging.BufferedStorage.LoadNamespaceEntries: presupposes a positive limit and that paging is not stuck at an empty key from the start, which is exactly the case StuckIff describes.
- The IndexedDB adapter and lock poisoning.

Not modelled at all: the Goal, Scope and ResourceGrant aggregates, the SQL repositories of the server, base64url,
the ECIES envelope, migrations, workers, transport, React and the UI. They would add members of the same or an easier
kind.
