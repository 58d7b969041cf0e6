# Verification of the Electric SQL client

This project models the local-first TypeScript client of Electric SQL, and one class of its code
generator, and proves what they promise. `dafny verify dfyconfig.toml` checks all of it.

## What is modelled

**The satellite process** (`Types`, `Sets`, `Lsn`, `Merge`, `Oplog`, `OplogFold`, `Transactions`,
`Database`, `TriggerLog`, `Snapshot`, `Apply`, `Process`, `Runs`, `Convergence`, `BatchMerge`,
`WireConvergence`). Triggers log the writes of the application in an oplog. A snapshot stamps and tags the pending entries and enqueues them
as transactions. Incoming transactions are merged with the local entries, per column by last write and
per row by tags: an addition survives a deletion that has not seen it. SQLite is a record of finite
maps: user rows, shadow tags, trigger flags, the oplog by rowid, and the stored position. A statement may
fail, and a failing statement undoes its transaction.

**The wire** (`RowCodec`, `Protobuf`, `ProtobufRoundTrip`, `WireReader`, `Messages`, `Stream`, `EndToEnd`,
`Outbound`, `OutboundRuns`). Rows travel as a null bitmask and texts, transactions as begin, change and
commit operations inside Protocol Buffers messages (the "Base 128 Varints", "Message Structure",
"Length Types" and "Optional and Repeated Elements" sections of the Protocol Buffers encoding guide). The
sending side is a state machine over connect, close, start, stop, reset, enqueue and push, read by a peer that
runs the receiving half of the same client and may itself ask to stop.

**The data access layer** (`Schema`, `Relational`, `Continuations`, `NestedCreate`, `NestedIntegrity`,
`NestedReferences`, `NestedStore`, `ForeignKeys`, `ReferentialIntegrity`, `Include`). Nested creation,
the foreign keys that follow an updated row, and related rows fetched in one query. Loops in
continuation-passing style are plain loops here, which `Continuations.ForEachIsLoop` justifies.

**Two smaller parts**: the registry of processes (`Registry`) and the splitter of validator chains
(`Splitter`).

Code that works step by step is a class or a method with loops, proved against functions of the same
module; the theorems are lemmas about those functions and about whole runs of them.

## Where the code does not do what one may expect

Each is proved with its exact condition, and where it helps with one failing input.

- A later local entry replaces the cleared tags when it has the stamp of the row's first entry and
  adds to them otherwise (`OplogFold.FoldClearsTags`).
- A snapshot enqueues only the first transaction it finds, so it sends all that is missing exactly when that
  has one time (`Runs.SnapshotSendsAllExactlyWhen`). A push sends only the head of its queue
  (`OutboundRuns.PushSendsAllExactlyWhen`); `OutboundRuns.NothingIsLostExactlyWhen` says for whole runs
  when nothing enqueued is lost.
- A start request moves the enqueueing cursor: to the position it names, and to zero unless it carries the
  option for the first position. Within a session enqueueing is gap-free (`Runs.EnqueueingIsGapFree`); over
  a whole run it is exactly when every start request moves the cursor over no entry
  (`Runs.RunIsGapFreeExactlyWhen`, `Runs.DefaultStartResumesExactlyWhen`).
- An upsert needs the key columns, and all other NOT NULL columns, among its columns even when the row exists
  already, because SQLite checks NOT NULL before it looks for a conflict (`Apply.BatchSucceeds`). A merge that
  keeps a row which neither side inserted has no key columns, and the whole batch fails
  (`Convergence.StorableExactlyWhen`, `Convergence.UpdatesAloneDoNotMeet`). On the wire an update is an
  insert of its whole row, so only a row kept against a deletion is left without them
  (`WireConvergence.WireStorableExactlyWhen`, `WireConvergence.DeletionOfUpdatedRowIsNotStored`); that row
  itself converges all the same (`WireConvergence.DeletedRowComesBack`), the rest of the batch is lost.
- Two replicas agree on keeping a row when its last entry travels alone
  (`WireConvergence.LastEntriesAgree`). Of several entries of a row in one transaction the receiver keeps the
  tags of the first, so a row deleted on both sides and inserted again on one, in the same transaction, is
  dropped by the one and kept by the other (`Convergence.AgreeExactlyWhen`, `Convergence.MergesMayDisagree`).
- Since an update travels as an insert of its whole row, updates of different columns may diverge
  (`WireConvergence.RowConvergesExactlyWhen`, `WireConvergence.UpdatesMayDiverge`).
- A socket error leaves outbound replication active; connecting again without closing first sends
  operation logs outside a session (`OutboundRuns.ReconnectIsSafeExactlyWhen`,
  `OutboundRuns.SocketErrorLeavesActive`).
- A client that has asked its peer to stop answers a relation message that is still under way with an error
  (`OutboundRuns.StoppingPeerReadsExactlyWhen`).
- A successful insert is reported as an error when an equal row exists
  (`NestedReferences.AcceptedInsertSucceedsExactlyWhen`, `NestedReferences.EqualRowIsAnError`).
- An update of a null field moves all foreign keys that are null
  (`ForeignKeys.OnlyPointersMoveExactlyWhen`, `ForeignKeys.NullKeysAreMoved`).
- With several included relations the rows come back several times
  (`Include.RowsComeBackOnceExactlyWhen`, `Include.TwoRelationsGiveTheRowTwice`), and a condition of the caller
  on the field of the join is dropped (`Include.DroppedConditionMattersExactlyWhen`).
- A database whose start or stop has failed once can never be started again
  (`Registry.CallHelpsExactlyWhen`, `Registry.FailureIsFinal`, `Registry.FailedStartIsNotRetried`).

## Assumptions

- The identity of a row is its table and its primary key values. The code uses the sorted values joined
  by `_` (`clients/typescript/src/satellite/oplog.ts:377-381`), under which different keys can meet.
- Numbers are unbounded integers, times are milliseconds, and a stamp of null reads as time 0. Positions
  are read with JavaScript's 32-bit operators.
- Text and number encodings, tag strings and JSON are invertible; `RowCodec.Invertible` names them.
- Asynchronous steps are atomic and snapshots do not overlap.
- A start request leads to a position between zero and the last rowid, up to which all entries left have their
  stamps: one that was sent some time. Positions reported as sent were enqueued, and collection removes
  stamps that were enqueued (`Runs.Allowed`).
- The only constraints of a table that a batch can meet are its key and its NOT NULL columns without a default
  (`Database.Needed`): no other UNIQUE column, no CHECK, and no foreign key that fails at the commit. Key
  columns are NOT NULL, as in the tables of the repository's own migrations, which declare it or are WITHOUT
  ROWID; a plain SQLite key column may be null. Logged rows fill the NOT NULL columns (`Convergence.AllFilled`).
- An incoming entry carries the tags that its row has then. The theorems of `Convergence` and
  `WireConvergence` hold for any such tags; where they speak of what is sent, it is the tag of the write, or
  none for a delete (`Convergence.AsSent`), as the server makes it from a change
  (`components/electric/lib/electric/replication/changes.ex:56-69`). A replica has not cleared a tag that it
  has not received (`Convergence.Unseen`).
- A peer that connects again has closed before; an answer finds the call it answers still waiting where
  `OutboundRuns.Paired` is asked for.
- Oplogs are as the triggers write them where `OplogFold.Logged` is asked for: `TriggerLog.WritesCanBeReplayed`
  shows that they are.
- In the data access layer columns and relation fields have different names, foreign keys of a table are
  different columns, no table points at itself, and the stored row holds the values inserted
  (`NestedIntegrity.WellFormed`, `NestedIntegrity.Honest`, `ForeignKeys.WellPaired`).

## Model

| member | source | states |
|---|---|---|
| Lsn.BytesToNumber | clients/typescript/src/util/common.ts:49-55 | the loop of shifts and ors yields the signed 32-bit reading of the bytes taken as one big-endian number |
| Lsn.PositionRoundTrip | clients/typescript/src/util/common.ts:40-55 | a position comes back from its four bytes exactly when it is below 2^31; otherwise it comes back as its signed 32-bit reading |
| Lsn.PositionWrapsAtTwoTo31 | clients/typescript/src/util/common.ts:40-55 | the first position that is lost: 2^31 comes back as -2^31 |
| Sets.Difference | clients/typescript/src/util/sets.ts:1-4 | exactly the elements of the first list that are not in the second |
| Sets.DifferenceKeepsOrder | clients/typescript/src/util/sets.ts:1-4 | each element of a list stays in its place, or goes, on its own: order and repetitions are kept |
| Sets.Union | clients/typescript/src/util/sets.ts:6-8 | exactly the elements of either list |
| Sets.Distinct | clients/typescript/src/util/sets.ts:6-8 | the same elements, none of them twice: what a JavaScript `Set` keeps |
| Sets.UnionKeepsOrder | clients/typescript/src/util/sets.ts:6-8 | the elements of the first list come first, in order of their first occurrence |
| Sets.DistinctStays | clients/typescript/src/util/sets.ts:6-8 | a list without repetitions stays as it is |
| Merge.LessIsStrictOrder | clients/typescript/src/satellite/merge.ts:37 | the string comparison that breaks ties between origins is a strict total order |
| Merge.MergeChangesLastWriteWins | clients/typescript/src/satellite/merge.ts:11-48 | the key-by-key loop computes the declared last-write-wins merge |
| Merge.MergeIsMaximum | clients/typescript/src/satellite/merge.ts:22-47 | every merged column is written by one of the sides and no side has a later write of it by (time, origin) |
| Merge.TieGoesToGreaterOrigin | clients/typescript/src/satellite/merge.ts:36-40 | of two writes of a column at one time that of the greater origin wins, compared at the first character in which the origins differ |
| Merge.MergeCommutes | clients/typescript/src/satellite/merge.ts:11-48 | swapping the two (origin, changes) pairs changes nothing exactly when the origins differ or no column has two different writes of one time |
| Merge.MergeIsIdempotent | clients/typescript/src/satellite/merge.ts:11-48 | merging changes with themselves gives them back |
| Merge.MergeAssociates | clients/typescript/src/satellite/merge.ts:11-48 | merges under one origin can be regrouped |
| Merge.TagsSurvive | clients/typescript/src/satellite/merge.ts:50-63 | no tag is left exactly when the local side deleted the row and had cleared every incoming tag |
| Oplog.DiffRows | clients/typescript/src/satellite/oplog.ts:129-138 | the loop over the new row collects exactly the columns whose value differs from the old row, at the time of the entry |
| Oplog.LocalEntryToChanges | clients/typescript/src/satellite/oplog.ts:115-141 | kind, changed columns, tag and cleared tags of a local entry |
| Oplog.RemoteEntryToChanges | clients/typescript/src/satellite/oplog.ts:145-167 | kind, changed columns and tags of an incoming entry |
| Oplog.LocalOperationsToTableChanges | clients/typescript/src/satellite/oplog.ts:174-222 | the loop that mutates its accumulator computes the declared fold of the local entries of every row |
| Oplog.RemoteOperationsToTableChanges | clients/typescript/src/satellite/oplog.ts:224-255 | the loop that mutates its accumulator computes the declared fold of the incoming entries of every row |
| OplogFold.FoldIsRowByRow | clients/typescript/src/satellite/oplog.ts:180-221 | folding a log puts under each row the fold of that row's own entries, and a row without entries is absent |
| OplogFold.FoldReflectsLast | clients/typescript/src/satellite/oplog.ts:202-210 | kind and tag of a folded row are those of its last entry; a delete has no tag |
| OplogFold.FoldsAgreeOnColumns | clients/typescript/src/satellite/oplog.ts:174-255 | the local and the incoming fold of the same entries have the same columns and kind |
| OplogFold.FoldHoldsLastWrites | clients/typescript/src/satellite/oplog.ts:203-205 | a folded column is the last write of it, and only written columns are there |
| OplogFold.FoldClearsTags | clients/typescript/src/satellite/oplog.ts:201-217 | exact closed form of the cleared tags: those of the last entry with the stamp of the row's first entry and of all entries after it, no others |
| OplogFold.FirstStampIsKept | clients/typescript/src/satellite/oplog.ts:199-212 | the stamp that later entries are compared with stays that of the first entry of the row |
| OplogFold.FoldIsHomomorphism | clients/typescript/src/satellite/oplog.ts:180-221 | for times that do not decrease, the columns of folding a log in two pieces and merging them under one origin are the columns of folding the whole |
| OplogFold.FoldRefinesReplay | clients/typescript/src/satellite/oplog.ts:115-222 | for logs as the triggers write them, applying the one folded change of each row gives the table that executing all operations one by one gives |
| OplogFold.RowFoldRefinesReplay | clients/typescript/src/satellite/oplog.ts:115-222 | the same for one row, present or absent at the end |
| OplogFold.ReplayIsRowByRow | clients/typescript/src/satellite/oplog.ts:174-222 | executing a log touches each row only through that row's own entries |
| Transactions.ToTransactions | clients/typescript/src/satellite/oplog.ts:287-348 | one transaction per maximal run of equal timestamps, its position that of the last entry of the run |
| Transactions.GroupsCutAtStamps | clients/typescript/src/satellite/oplog.ts:326-347 | the runs concatenate to the entries, have one stamp each, and neighbouring runs have different stamps |
| Transactions.CutIsUnique | clients/typescript/src/satellite/oplog.ts:326-347 | only one list of runs has these three properties |
| Transactions.TransactionsConserveChanges | clients/typescript/src/satellite/oplog.ts:287-348 | the changes of all transactions in order are the changes of the entries in order: none lost, added or moved |
| Transactions.PositionsIncrease | clients/typescript/src/satellite/oplog.ts:320-346 | positions read back strictly increase along the transactions as long as rowids ascend below 2^31 |
| Transactions.EntryKeyIs | clients/typescript/src/satellite/oplog.ts:257-285 | the key of an incoming entry holds exactly the columns its relation marks as key, with the values of the new row, or of the old one where there is no new |
| TriggerLog.WriteIsLogged | clients/typescript/test/support/.electric/tarragon-envy-5432/default/index.js:42-47 | a write with triggers on adds one pending entry with the next rowid, whose kind, old and new row are what became of the row; a write without an entry changes nothing |
| TriggerLog.WritesCanBeReplayed | clients/typescript/test/support/.electric/tarragon-envy-5432/default/index.js:42-47 | after any writes of the application the oplog is as the fold theorems ask for, and replaying it gives the rows |
| Snapshot.TagBatch | clients/typescript/src/satellite/process.ts:332-362 | the loop with the cache tags every entry of the batch as declared, and leaves the cache that its entries imply |
| Snapshot.WriteShadow | clients/typescript/src/satellite/process.ts:364-370 | writing back the cache leaves the declared shadow table: emptied rows gone, other cached rows replaced, the rest untouched |
| Snapshot.CacheIsShadowAfter | clients/typescript/src/satellite/process.ts:340-370 | a row last written in the batch holds the new tag alone, a row last deleted none, any other row what it had |
| Snapshot.TagsReachOplog | clients/typescript/src/satellite/process.ts:343-360 | entry by entry: the first of a row clears exactly the shadow tags from before the snapshot, a later one of that row clears nothing, an unselected one is unchanged |
| Apply.MergeEntries | clients/typescript/src/satellite/process.ts:664-716 | the in-place merge of the two folds gives, for every incoming row, the declared merged row |
| Apply.AddWins | clients/typescript/src/satellite/process.ts:678-713 | a row written on both sides is deleted exactly when its last local entry is a delete and every incoming tag is in the folded clear set; an uncleared incoming tag survives; a row written on one side is that side's |
| Apply.BatchEffect | clients/typescript/src/satellite/process.ts:489-527 | of every batch that is stored, in whatever order its rows are visited: merged rows and tags are in place, incomplete inserts of key columns are ignored, all other rows, tags and the oplog are as before, the position is stored, and the triggers of the touched tables are on |
| Apply.BatchSucceeds | clients/typescript/src/satellite/process.ts:919-952 | a batch is stored exactly when every upsert writes some column, and writes all NOT NULL columns without a null or only key columns; otherwise nothing is stored |
| Apply.UpsertFailsExactlyWhen | clients/typescript/src/satellite/process.ts:919-952 | an upsert fails exactly when it writes nothing, or writes a column besides the key while a key column or another NOT NULL column is missing or null |
| Apply.UpdateAloneIsNotStored | clients/typescript/src/satellite/process.ts:919-940 | the failing batch: one changed column of a row that was not written here, on any database |
| Apply.BatchLogsNothing | clients/typescript/src/satellite/process.ts:489-527 | whatever its rows, a batch that goes through leaves the oplog, the rowids and the NOT NULL columns alone and ends at the new position |
| Apply.MergedIsKeyed | clients/typescript/src/satellite/process.ts:664-716 | entries that agree with their keys merge to rows that agree with theirs |
| BatchMerge.BatchMergesColumns | clients/typescript/src/satellite/process.ts:481-487 | column by column: against the stamped oplog entries of the row above the acknowledged position, a merged column is the last write of either side, of both the later one by time and origin, and no other column is merged |
| BatchMerge.BatchRemovesExactlyWhen | clients/typescript/src/satellite/process.ts:664-716 | a row with such entries is removed exactly when the last of them is a delete and they have cleared each incoming tag; the tags left are the incoming ones not cleared and the own one |
| BatchMerge.BatchTakesOver | clients/typescript/src/satellite/process.ts:530-545 | a row without such entries is merged as it arrives |
| Process.SatelliteProcess.PerformSnapshot | clients/typescript/src/satellite/process.ts:321-384 | stamps and tags the pending entries and then enqueues from the cursor: the whole new state in terms of the old one |
| Process.SatelliteProcess.ReplicateSnapshotChanges | clients/typescript/src/satellite/process.ts:455-467 | hands over the first transaction only, and nothing on a closed client |
| Process.SatelliteProcess.ApplyBatch | clients/typescript/src/satellite/process.ts:472-528 | snapshot, merge and one database transaction: stored as a whole or, on a failing statement, only the position in memory moves |
| Process.SatelliteProcess.ApplyTransactionInternal | clients/typescript/src/satellite/process.ts:731-754 | applies the batch and collects the oplog entries of its time when it was this client's own |
| Process.SatelliteProcess.Ack | clients/typescript/src/satellite/process.ts:773-793 | refuses a position below the acknowledged one or, for an acknowledgement, above the sent one; otherwise moves the one cursor in memory that it names |
| Process.SatelliteProcess.GarbageCollectOplog | clients/typescript/src/satellite/process.ts:888-896 | removes exactly the entries of one timestamp |
| Process.BuildStatements | clients/typescript/src/satellite/process.ts:489-527 | the statements of a batch in order: triggers of its tables off, the position, one upsert or delete and one shadow write per merged row, triggers on |
| Process.SnapshotTagsOplog | clients/typescript/src/satellite/process.ts:321-362 | what a snapshot does to each oplog entry |
| Process.SnapshotTagsRows | clients/typescript/src/satellite/process.ts:329-371 | what a snapshot does to the tags of each row |
| Process.SnapshotStamps | clients/typescript/src/satellite/process.ts:321-362 | in terms of the oplog before: pending entries above the acknowledged position get the stamp; the first entry of its row among those of the stamp clears the shadow tags of the row, later ones nothing; all other entries stay as they are |
| Process.EnqueuesExactlyWhen | clients/typescript/src/satellite/process.ts:373-384 | something is enqueued exactly when a stamped entry waits above the position enqueued last and the client is open and active; an open client that is not active is an error exactly when one waits; nothing but the client changes |
| Runs.StepKeeps | clients/typescript/src/satellite/process.ts:321-467 | every write, snapshot, incoming batch, acknowledgement, collection, push, close, connect and stop request keeps the invariant of the enqueueing cursor |
| Runs.SessionStepKeeps | clients/typescript/src/satellite/client.ts:467-518 | so does an accepted start request, with a new session that begins at the position it sets |
| Runs.BatchIsStep | clients/typescript/src/satellite/process.ts:472-528 | an incoming batch, stored or failed, is a step of a run: the snapshot before it, and then rows, tags, triggers and positions, or the position in memory alone |
| Runs.EnqueueingIsGapFree | clients/typescript/src/satellite/process.ts:374-382 | in every session of every run: the transactions enqueued carry, in rowid order and once each, exactly the writes logged between the position at which the session began and the enqueued position |
| Runs.StartKeepsOnceExactlyWhen | clients/typescript/src/satellite/client.ts:470-491 | a start request keeps the whole run gap-free and without repetition exactly when it moves the cursor over no entry |
| Runs.PositionsBind | clients/typescript/src/satellite/process.ts:773-793 | once a position is accepted, later acknowledgements are accepted exactly between it and the position sent, later sent positions exactly from the acknowledged one on |
| Runs.DefaultStartResumesExactlyWhen | clients/typescript/src/satellite/client.ts:482-489 | a start request without the option for the first position sends again all that the oplog still has: it moves the cursor over nothing exactly when nothing up to the cursor is left in the oplog |
| Runs.FirstStartGoesWhereAsked | clients/typescript/src/satellite/client.ts:470-491 | a start request for the first position keeps the cursor when it names the last acknowledged one and otherwise goes to the position it names |
| Runs.RunIsGapFreeExactlyWhen | clients/typescript/src/satellite/client.ts:467-518 | over a whole run with any start requests: every write is enqueued once, in order and with no gap at every point exactly when every start request moves the cursor over no entry |
| Runs.CollectIsHarmless | clients/typescript/src/satellite/process.ts:740-753 | collection loses no unsent write exactly when it removes nothing above the cursor |
| Runs.CollectTakesExactly | clients/typescript/src/satellite/process.ts:888-896 | collection takes exactly the entries of its stamp, keeps the order of the others and changes nothing else |
| Runs.SnapshotAdvances | clients/typescript/src/satellite/process.ts:374-382 | on an open and active client a snapshot that finds anything unsent moves the cursor |
| Runs.SnapshotSendsAllExactlyWhen | clients/typescript/src/satellite/process.ts:455-467 | on an open and active client nothing is left to send after a snapshot exactly when all that was missing has one time |
| Convergence.StorableExactlyWhen | clients/typescript/src/satellite/process.ts:919-940 | in terms of the own log and the incoming entries of a row: the merged row can be stored exactly when it is not kept or one of them has an insert |
| Convergence.BatchStorableExactlyWhen | clients/typescript/src/satellite/process.ts:919-940 | the same for whole batches: stored exactly when every row that the merge keeps has an insert on one side |
| Convergence.AddWinsOnBoth | clients/typescript/src/satellite/process.ts:678-713 | a row written last on the one side, of which a tag arrives that the other side did not clear, is kept by both merges, each with the tag of that write |
| Convergence.KeepsExactlyWhen | clients/typescript/src/satellite/merge.ts:50-63 | a merge with entries that were not seen before drops the row exactly when it was deleted here last and the first of them is a delete: the incoming fold keeps the tags of its first entry (oplog.ts:243-251) |
| Convergence.AgreeExactlyWhen | clients/typescript/src/satellite/process.ts:678-713 | exactly when two replicas that receive the ends of each other's logs agree on keeping a row; they do when one entry arrives, or the entries begin as they end |
| Convergence.UnseenStaysUnseen | clients/typescript/src/satellite/process.ts:332-371 | no snapshot clears or leaves a tag that the replica has not received, except its own new one |
| Convergence.RowConverges | clients/typescript/src/satellite/process.ts:664-716 | a row that two replicas wrote and both stored, whatever the tags: both merges have the same columns, a kept row has them over the base row, and the rows end equal exactly when both merges keep it or neither does |
| Convergence.MergedColumnIsLatest | clients/typescript/src/satellite/process.ts:664-716 | each merged column is the latest write on either side by (time, origin) |
| Convergence.EndRow | clients/typescript/src/satellite/process.ts:472-528 | of all batches that were received, whatever they hold, only the one stored last for a row decides how it ends |
| Convergence.TablesConverge | clients/typescript/src/satellite/process.ts:664-716 | for whole tables, any batches and any tags, with batches that fail: equal exactly when every row stays on both sides or neither and the latest writes known there agree in every column |
| Convergence.ReplicasConverge | clients/typescript/src/satellite/process.ts:472-528 | for the two databases: each batch goes through exactly when the logs say so, and the rows are equal afterwards exactly when every row meets |
| Convergence.LogIsMergeable | clients/typescript/src/satellite/process.ts:664-716 | every log of a replica is a batch to which these theorems apply, whatever the tags it arrives with |
| Convergence.OneSidedRow | clients/typescript/src/satellite/process.ts:690-693 | a row that only the other side wrote, and that could be stored, ends as it did there |
| Convergence.MergesMayDisagree | clients/typescript/src/satellite/oplog.ts:243-251 | a row that both delete and one inserts again in the same transaction, logged by snapshots: both batches are stored, and the one replica drops the row while the other keeps it |
| Convergence.UpdatesAloneDoNotMeet | clients/typescript/src/satellite/process.ts:919-940 | two updates of one row that arrive as changed columns are stored on neither side, whatever their tags, and leave different rows |
| WireConvergence.ReceivedFold | clients/typescript/src/satellite/oplog.ts:257-318 | because an update travels as an insert of its whole row, a received log of a row folds to the whole row written last, at the time of that write |
| WireConvergence.RowConvergesExactlyWhen | clients/typescript/src/satellite/oplog.ts:308-318 | two replicas that wrote a row in any way, and stored last the ends of each other's logs with any tags, end equal exactly when both drop it, or both keep it and in every column their rows agree or exactly one side holds the column by a later write |
| WireConvergence.NotBothHold | clients/typescript/src/satellite/merge.ts:35-45 | of rows that arrive with the row itself, two replicas never both hold a column |
| WireConvergence.LastEntriesAgree | clients/typescript/src/satellite/process.ts:678-713 | add wins over the wire: when the last entry of a row travels alone on each side, both replicas drop the row exactly when both deleted it last, and otherwise both keep it |
| WireConvergence.DeletedRowComesBack | clients/typescript/src/satellite/process.ts:678-713 | a row deleted here, of which an unseen write arrives, ends as the writer left it, also when the writer could not store the deletion |
| WireConvergence.WireStorableExactlyWhen | clients/typescript/src/satellite/process.ts:919-940 | a received batch is stored exactly when every row that was also written here, and that the merge keeps, was inserted here or arrives with a write |
| WireConvergence.ReplicasConvergeExactlyWhen | clients/typescript/src/satellite/process.ts:472-528 | for the two databases, logs with inserts, updates and deletes that arrive cut into batches anywhere and with any tags: when each batch goes through, that the rows are equal exactly when every row meets, and, when all batches went through, exactly when the rows that both wrote meet on the wire |
| WireConvergence.DeletionOfUpdatedRowIsNotStored | clients/typescript/src/satellite/process.ts:678-713 | a deletion that arrives for a row that was only updated here, whatever its tags: the merge keeps the row and cannot store it |
| WireConvergence.UpdatesMayDiverge | clients/typescript/src/satellite/oplog.ts:308-318 | two updates of different columns that do not converge |
| RowCodec.SetMaskBit | clients/typescript/src/satellite/client.ts:856-862 | sets the one bit counted from the most significant side of each byte and leaves the others |
| RowCodec.SerializeRow | clients/typescript/src/satellite/client.ts:795-817 | the loop builds the row of the record |
| RowCodec.MaskMarksNulls | clients/typescript/src/satellite/client.ts:798-811 | the mask has ceil(n/8) bytes, bit i is 1 exactly for a null column i, padding bits are 0 |
| RowCodec.SerializedIsRow | clients/typescript/src/satellite/client.ts:795-817 | mask and values of a serialized record are those that characterise it |
| RowCodec.RowIsUnique | clients/typescript/src/satellite/client.ts:795-817 | no other row has that mask and those values |
| RowCodec.RowRoundTrip | clients/typescript/src/satellite/client.ts:819-837 | deserializing gives the record back with missing values as null; an empty text stays a text |
| RowCodec.RowRoundTripExactly | clients/typescript/src/satellite/client.ts:819-922 | a record comes back exactly when each of its values is null or of its column's type |
| RowCodec.TypesAreRead | clients/typescript/src/satellite/client.ts:897-917 | which type names are read as numbers and which as texts, in letters of either case; every other name is an error |
| RowCodec.UnknownTypeIsError | clients/typescript/src/satellite/client.ts:814-835 | reading a row is an error exactly when a value that is not null is of an unknown type |
| ProtobufRoundTrip.DecodesWire | clients/typescript/src/_generated/protocol/satellite.ts:1035-1051 | for every list of fields, with fields of unknown numbers anywhere between and inside known ones: decoding reads exactly the encoded bytes and returns the known fields in order, at every level |
| ProtobufRoundTrip.SkipsItem | clients/typescript/src/_generated/protocol/satellite.ts:1045-1049 | skipping a field by its wire type ends exactly after it, for nested groups too |
| ProtobufRoundTrip.ReadsVarint | clients/typescript/src/_generated/protocol/satellite.ts:1036-1041 | a varint of at most ten bytes is read whole |
| ProtobufRoundTrip.ScalarsAreCut | clients/typescript/src/_generated/protocol/satellite.ts:1204-1220 | a number written larger than its field is cut to 32 or 64 bits, and to true or false |
| WireReader.Reader.DecodeMessage | clients/typescript/src/_generated/protocol/satellite.ts:1035-1051 | the loop over reader positions returns what the declared decoder returns and leaves the reader after the message, or fails when it does |
| WireReader.Writer.EncodeMessage | clients/typescript/src/_generated/protocol/satellite.ts:1028-1033 | the forking writer appends exactly the declared bytes of a message |
| Messages.RowComesBack | clients/typescript/src/_generated/protocol/satellite.ts:1591-1620 | decode after encode of a row: mask and all values in order |
| Messages.BeginComesBack | clients/typescript/src/_generated/protocol/satellite.ts:1180-1237 | defaults left out are restored, an absent origin stays absent |
| Messages.UpdateComesBack | clients/typescript/src/_generated/protocol/satellite.ts:1388-1437 | both rows and all tags of an update come back |
| Messages.OpLogComesBack | clients/typescript/src/_generated/protocol/satellite.ts:1028-1051 | all operations of a log come back in order |
| Messages.OpLogRoundTrip | clients/typescript/src/_generated/protocol/satellite.ts:1025-1134 | any bytes shorter than 2^32 whose known fields are those of a message with times below 2^64 and relation numbers below 2^32 decode to that message |
| Messages.EncodedOpLogRoundTrip | clients/typescript/src/_generated/protocol/satellite.ts:1025-1134 | decoding the encoding of an operation log with times below 2^64 and relation numbers below 2^32, shorter than 2^32 bytes, gives it back |
| Messages.KeysAsGenerated | clients/typescript/src/_generated/protocol/satellite.ts:1025-1620 | the keys, number and wire type, of all that is written for every message, as in the generated encoders: defaults are left out, repeated fields are written once per value |
| Messages.NumbersAreCut | clients/typescript/src/_generated/protocol/satellite.ts:1204-1220 | read from any peer, times are 64 bits, numbers of relations 32, and the flag of a migration true or false |
| Stream.TransactionToSatOpLog | clients/typescript/src/satellite/client.ts:382-437 | begin, one operation per change with the relation of its number, commit |
| Stream.InboundReplication.ProcessOpLogMessage | clients/typescript/src/satellite/client.ts:623-718 | the loop over operations is the declared step function; where an operation is in error it stops with what the operations before it and the beginning of that one left behind |
| Stream.InboundReplication.HandleRelation | clients/typescript/src/satellite/client.ts:560-581 | during active replication adds the relation under its number and changes nothing else; otherwise an error and no change |
| Stream.CutsDoNotMatter | clients/typescript/src/satellite/client.ts:623-718 | feeding messages one by one is feeding their concatenation |
| Stream.TransactionArrives | clients/typescript/src/satellite/client.ts:382-437 | the operations of a transaction emit exactly that transaction, with the receiver's relations and without the record that an insert or delete does not carry |
| Stream.PeerTransactionArrives | clients/typescript/src/satellite/client.ts:623-660 | a transaction of any peer is emitted with the time, position and origin of its begin, whatever its commit holds |
| Stream.OnlyChangesAndPositionTravel | clients/typescript/src/satellite/client.ts:382-437 | of a transaction only its time, its position and one operation per change are written: two fields in the begin, none in the commit |
| Stream.ErrorsExactlyWhen | clients/typescript/src/satellite/client.ts:623-718 | an operation is an error exactly when it commits or changes without an open transaction, changes what it commits, or has a row of an unknown relation or column type |
| Stream.ErrorLeaves | clients/typescript/src/satellite/client.ts:623-718 | an operation in error has emitted the transaction it committed and nothing else, and leaves the relations |
| Stream.OthersStay | clients/typescript/src/satellite/client.ts:623-660 | an operation that is no error begins and ends at most one transaction: the others stay open as they are, and the one it commits is emitted after those before |
| Stream.StreamReassembles | clients/typescript/src/satellite/client.ts:623-718 | transactions turned into operations and cut into messages anywhere are emitted in order, none is left open |
| Stream.OneOpenAtATime | clients/typescript/src/satellite/client.ts:623-718 | at every point of the stream at most one transaction is open |
| EndToEnd.PacketsArrive | clients/typescript/src/satellite/client.ts:609-756 | bytes in, transactions out: encoded operation logs of any transactions with times below 2^64 and relation numbers below 2^32, each shorter than 2^32 bytes, are emitted as those transactions in order |
| EndToEnd.EntryTravels | clients/typescript/src/satellite/oplog.ts:257-318 | an oplog entry sent as a change and read as an entry again is the entry that the other replica folds: an update has become an insert |
| EndToEnd.TransactionTravels | clients/typescript/src/satellite/oplog.ts:257-348 | the same for a whole transaction, entry by entry in order |
| Outbound.OutboundReplication.SendMissingRelations | clients/typescript/src/satellite/client.ts:358-380 | marks and then writes each relation not known yet, and stops where writing throws |
| Outbound.OutboundReplication.PushTransactions | clients/typescript/src/satellite/client.ts:321-340 | empties the queue and writes its first transaction, after the relations it lacks; throws when not active or without a socket |
| Outbound.OutboundReplication.HandleStartReq | clients/typescript/src/satellite/client.ts:467-518 | when stopped, sets both positions as the options say and starts a fresh session; answers with an error otherwise |
| Outbound.OutboundReplication.HandleStopReq | clients/typescript/src/satellite/client.ts:520-544 | stops when active, answers with an error otherwise |
| Outbound.OutboundReplication.EnqueueTransaction | clients/typescript/src/satellite/client.ts:305-319 | appends to the queue and moves the enqueued position to the transaction when active, throws otherwise |
| Outbound.OutboundReplication.ResetOutboundLogPositions | clients/typescript/src/satellite/client.ts:783-785 | stops, empties queue and relations and sets both positions |
| OutboundRuns.StepKeepsOrder | clients/typescript/src/satellite/client.ts:164-380 | each action keeps: every log written so far is in order, and an active sender with a socket has announced exactly its relations, once each, in an open session |
| OutboundRuns.SessionsAreWellOrdered | clients/typescript/src/satellite/client.ts:305-544 | in every run each operation log is written in an open session after exactly one message for each relation it uses |
| OutboundRuns.EverythingSentArrives | clients/typescript/src/satellite/client.ts:305-718 | in every run a peer that asks to start and to stop where it likes reads all that is written without an error exactly when every message finds it in the state that expects it, and then emits exactly the transactions handed to a socket, in order |
| OutboundRuns.DeliveredIsSent | clients/typescript/src/satellite/client.ts:358-380 | what arrives of a transaction sent: time, position and changes in their places, with kind, tags, table, column names and types, and the values of the records, missing ones as null |
| OutboundRuns.StoppingPeerReadsExactlyWhen | clients/typescript/src/satellite/client.ts:453-606 | a peer whose calls are answered reads all that is written without an error exactly when no answer is an error and no relation message reaches it between its call to stop and the answer; it then emits the same transactions |
| OutboundRuns.PushSendsAllExactlyWhen | clients/typescript/src/satellite/client.ts:329-338 | with a socket a push sends all of the queue exactly when that is one transaction at most; of a longer queue it sends the first and drops the others |
| OutboundRuns.NothingIsLostExactlyWhen | clients/typescript/src/satellite/client.ts:164-518 | over a whole run: everything enqueued was handed to a socket or still waits, in order, exactly when no push had more than one transaction or no socket, and no close, accepted start or reset met a queue that was not empty |
| OutboundRuns.PositionsAreLastNamed | clients/typescript/src/satellite/client.ts:305-319 | at every point of a run the enqueued and the acknowledged position are where the last accepted action that names one put them: an enqueued transaction, a start request or a reset |
| OutboundRuns.QueueEndsAtPosition | clients/typescript/src/satellite/client.ts:305-319 | in every run, while something waits in the queue, the enqueued position is that of the last transaction there |
| OutboundRuns.RequestsAreAnswered | clients/typescript/src/satellite/client.ts:453-544 | each request on a socket gets one answer: a start is accepted exactly when stopped, a stop exactly when active, and a refused one changes nothing else |
| OutboundRuns.ReconnectIsSafeExactlyWhen | clients/typescript/src/satellite/client.ts:194-198 | connecting again keeps the order for every next transaction exactly when outbound replication is not active, which a socket error alone does not bring about |
| OutboundRuns.SocketErrorLeavesActive | clients/typescript/src/satellite/client.ts:164-198 | the failing run: connect, start request, socket error, connect, and one transaction |
| Schema.PartitionLosesNothing | clients/typescript/src/client/model/schema.ts:124-137 | the two parts together hold every relation as often as before |
| Schema.PartitionKeeps | clients/typescript/src/client/model/schema.ts:124-137 | each part holds exactly the relations of its kind |
| Schema.BuildRelationIndex | clients/typescript/src/client/model/schema.ts:144-155 | grouping answers for every field what a filter over all relations of the table answers, in schema order |
| Schema.PointingAtIsFilter | clients/typescript/src/client/model/schema.ts:139-163 | a relation is listed for a field exactly when it comes in and its other side names that field |
| Schema.DbSchema.GetRelationsPointingAtField | clients/typescript/src/client/model/schema.ts:197-202 | a lookup in the index is that filter, also for a field nothing points at |
| Continuations.ForEachIsLoop | clients/typescript/src/client/util/continuationHelpers.ts:6-19 | looping by continuations runs the bodies in order and then the continuation, and skips all that follows a body that ends everything |
| NestedCreate.LogIsFlat | clients/typescript/src/client/model/table.ts:299-418 | the inserts happen in this order at every level: all rows pointed at, the row, all rows that point at it |
| NestedIntegrity.FoundIsMade | clients/typescript/src/client/model/table.ts:401-414 | the row read back by all given values is the row that was inserted |
| NestedIntegrity.KeysNameTheRowsMade | clients/typescript/src/client/model/table.ts:311-366 | at every level each foreign key holds the key of the row made for it; a related row points back unless it was given a target of its own |
| NestedIntegrity.GivenKeyStays | clients/typescript/src/client/model/table.ts:358-366 | the key that a related row was given reaches its row, unless it names its own target |
| NestedIntegrity.RelationFieldStays | clients/typescript/src/client/model/table.ts:244-256 | no earlier relation disturbs the field that a later relation looks at |
| NestedIntegrity.OnlyColumnsAreInserted | clients/typescript/src/client/model/table.ts:316-350 | once relation fields are deleted only column values are left to insert |
| NestedReferences.CreateKeepsReferences | clients/typescript/src/client/model/table.ts:278-428 | when keys given by hand name existing rows, no insert, at whatever point one stops, leaves a foreign key that names no row |
| NestedReferences.CreateMirrors | clients/typescript/src/client/model/table.ts:278-428 | what is made has the shape of the input: one row per node, in the table of its relation, with the values of the node |
| NestedReferences.OneInsertPerNode | clients/typescript/src/client/model/table.ts:278-428 | exactly one insert per node |
| NestedReferences.JobsAreInput | clients/typescript/src/client/model/table.ts:321-387 | the rows made after a row are exactly those in the relation fields of its input, and as many |
| NestedReferences.InputIsMade | clients/typescript/src/client/model/table.ts:278-428 | every related tree of the input is made: before the row what it points at, after it what points at it, with its key filled in |
| NestedReferences.AcceptedInsertSucceedsExactlyWhen | clients/typescript/src/client/model/table.ts:401-414 | for every tree: an accepted insert is reported as done exactly when the rows that point at it can be made and neither a row that was there nor one of those holds all the values given |
| NestedReferences.EqualRowIsAnError | clients/typescript/src/client/model/table.ts:401-414 | the failing input: a row with the same values is there already |
| NestedStore.Store.CreateOutgoing | clients/typescript/src/client/model/table.ts:296-319 | the loop over relations creates the targets and rewrites the data, on a database that changes |
| NestedStore.Store.CollectRelated | clients/typescript/src/client/model/table.ts:330-387 | the loop takes the relation fields out and remembers the related rows in the order they are met |
| NestedStore.Store.MakeRelatedObjects | clients/typescript/src/client/model/table.ts:345-371 | the wrapped closures create the related rows last first |
| NestedStore.Store.Create | clients/typescript/src/client/model/table.ts:278-428 | the whole operation on a changing database: its result, and a database that is the old one with the logged inserts |
| ForeignKeys.Store.UpdateFKs | clients/typescript/src/client/model/table.ts:838-904 | the two nested loops follow, for every changed field, every relation that the index lists |
| ForeignKeys.Store.Update | clients/typescript/src/client/model/table.ts:1135-1192 | finds the one row, updates it, moves the keys, and reads the row again; an error when it is not found or not unique before or after |
| ForeignKeys.ChangedIsDiff | clients/typescript/src/client/model/table.ts:853-855 | a field is followed exactly when its value differs after the update |
| ForeignKeys.EveryCellMoves | clients/typescript/src/client/model/table.ts:867-903 | following keys changes each value on its own and neither adds nor removes rows |
| ForeignKeys.EdgeIsRelation | clients/typescript/src/client/model/table.ts:876-897 | every column followed is an outgoing relation of another table to a changed field |
| ForeignKeys.OnlyPointersMoveExactlyWhen | clients/typescript/src/client/model/table.ts:885-895 | only keys that name the updated row move, exactly when the old value is not null; the query for a null moves every key that names nothing |
| ForeignKeys.NullKeysAreMoved | clients/typescript/src/client/model/table.ts:885-895 | the failing input: a null key moves when a null field is filled |
| ReferentialIntegrity.PointersFollow | clients/typescript/src/client/model/table.ts:838-904 | of a relation to a changed field exactly the keys with the old value get the new one |
| ReferentialIntegrity.NothingElseChanges | clients/typescript/src/client/model/table.ts:838-904 | every other column of every other row keeps its value |
| ReferentialIntegrity.UpdatedRowIsNew | clients/typescript/src/client/model/table.ts:1163-1174 | the updated row ends up as the update says |
| ReferentialIntegrity.UpdateKeepsIntegrity | clients/typescript/src/client/model/table.ts:1135-1192 | a successful update of a database without dangling keys leaves none, provided the keys it writes into the row itself name rows |
| ReferentialIntegrity.UpdateIsCellByCell | clients/typescript/src/client/model/table.ts:1135-1192 | a successful update has changed the database cell by cell: the one row found holds the new data over its old values, each key of a relation to a changed field that held the old value holds the new one, every other cell is as before |
| ReferentialIntegrity.UpdateSucceedsExactlyWhen | clients/typescript/src/client/model/table.ts:1135-1192 | it succeeds exactly when one row matches and no other row matches the condition with the new data over it |
| Include.JoinObjects | clients/typescript/src/client/model/table.ts:518-551 | the loop attaches to each row what the declared join attaches |
| Include.BatchRefinesLookup | clients/typescript/src/client/model/table.ts:553-595 | one IN query and the join attach to each row, in order, what its own query returns, and fail together |
| Include.IncludeIs | clients/typescript/src/client/model/table.ts:518-654 | including a relation is an error exactly when it leads to one object and some row has related rows at two places; otherwise each row comes back in its place with nothing, the one object, or for a relation to many all related rows in table order, also when that is one |
| Relational.MatchingInOrder | clients/typescript/src/client/model/builder.ts:216-241 | a query returns exactly the rows that match, in table order |
| Include.NullKeyAgreesExactlyWhen | clients/typescript/src/client/model/builder.ts:216-241 | the batch and a query for the key itself agree exactly when the key is not null or no row asked for has a null there |
| Include.DroppedConditionMattersExactlyWhen | clients/typescript/src/client/model/table.ts:553-595 | a condition of the caller on the field of the join is overwritten; that makes a difference for a row exactly when the condition asks for another key than the row has and that key finds something |
| Include.IncludeAttachesRelated | clients/typescript/src/client/model/table.ts:597-654 | in both directions and for both arities each row gets exactly the rows related to it that hold the values asked for |
| Include.RowsComeBackOnceExactlyWhen | clients/typescript/src/client/model/table.ts:656-704 | each row found comes back once exactly when one relation is included; otherwise once per included relation |
| Include.TwoRelationsGiveTheRowTwice | clients/typescript/src/client/model/table.ts:656-704 | the failing input: one row and two included relations |
| Registry.BaseRegistry.EnsureStarted | clients/typescript/src/satellite/registry.ts:53-126 | waits for a stop, shares a start, returns a running process, or starts one, in this order |
| Registry.AlreadyStartedExactlyWhen | clients/typescript/src/satellite/registry.ts:128-140 | after every run the answer is the one process of the database that is not gone, be it launching, running, stopping or failed, and an error exactly when there is none |
| Registry.BaseRegistry.Stop | clients/typescript/src/satellite/registry.ts:142-172 | waits for a start, shares a stop, stops what runs, in this order |
| Registry.BaseRegistry.StopAll | clients/typescript/src/satellite/registry.ts:174-190 | afterwards every running process is being stopped, and all of them and all starting ones are waited for |
| Registry.StopAnswersExactlyWhen | clients/typescript/src/satellite/registry.ts:142-172 | a stop waits for a start exactly when it includes starting and one is there, stops exactly a process that is up, waits for the stop of exactly one that quits or failed to stop, and has nothing to do exactly when there is none of these |
| Registry.StopQuits | clients/typescript/src/satellite/registry.ts:157-171 | a stop makes the process that is up quit and touches no other |
| Registry.StopAfterStartEnds | clients/typescript/src/satellite/registry.ts:146-150 | a stop that waited for a start leaves the process that came up quitting or gone, or failed to stop |
| Registry.StepKeeps | clients/typescript/src/satellite/registry.ts:53-172 | each call and each completed or failed start or stop keeps every process in exactly the maps of its phase |
| Registry.OneLiveProcess | clients/typescript/src/satellite/registry.ts:53-172 | in every interleaving at most one process per database is live; a starting database is in neither other map, a stopping one still among the satellites |
| Registry.CallersShareTheProcess | clients/typescript/src/satellite/registry.ts:53-126 | callers promised a process of a database that is still live were promised the same one |
| Registry.CallDuringStart | clients/typescript/src/satellite/registry.ts:86-90 | a call during a start gets the starting process and changes nothing |
| Registry.CallAnswersExactlyWhen | clients/typescript/src/satellite/registry.ts:53-126 | a call waits for a stop exactly when one is under way or failed, gets a process exactly when it starts, runs or failed to start, and launches one exactly when all of the database are gone |
| Registry.CallHelpsExactlyWhen | clients/typescript/src/satellite/registry.ts:103-125 | a call is promised a process, or the end of a stop under way, exactly when no start or stop of that database has failed |
| Registry.FailedStartIsNotRetried | clients/typescript/src/satellite/registry.ts:86-125 | the failing run: one start that fails; whoever asks then is promised the process that never came up |
| Registry.FailureIsFinal | clients/typescript/src/satellite/registry.ts:103-125 | a failed start or stop stays in the books in every later state of every run |
| Splitter.GetSplitIndices | generator/src/classes/extendedDMMFField/extendedDMMFFieldValidatorPattern.ts:51-65 | the loop with the depth counter computes the declared split positions |
| Splitter.MatchIsTheKey | generator/src/classes/extendedDMMFField/extendedDMMFFieldValidatorPattern.ts:57 | the end-anchored search finds a position exactly when a dot and word characters up to the end start there |
| Splitter.WordCharsAre | generator/src/classes/extendedDMMFField/extendedDMMFFieldValidatorPattern.ts:68-70 | the characters of a key are the letters, the digits and the underscore |
| Splitter.SplitsExactlyAtKeys | generator/src/classes/extendedDMMFField/extendedDMMFFieldValidatorPattern.ts:51-65 | a later position is a split exactly when a key starts there outside all parentheses and a character that is no word character follows it |
| Splitter.SplitsGrow | generator/src/classes/extendedDMMFField/extendedDMMFFieldValidatorPattern.ts:51-65 | split positions strictly increase |
| Splitter.PiecesJoinToText | generator/src/classes/extendedDMMFField/extendedDMMFFieldValidatorPattern.ts:71-77 | the pieces put together again are the text |
| Splitter.ChainSplitsIntoCalls | generator/src/classes/extendedDMMFField/extendedDMMFFieldValidatorPattern.ts:51-77 | splitting any chain of `.key(args)` calls with balanced arguments gives exactly those calls |

## Left out

- Runs.EnqueueingIsGapFree: says what is enqueued, not what is delivered; when nothing enqueued is lost on the way to the socket is `OutboundRuns.NothingIsLostExactlyWhen`.
- Convergence.ReplicasConverge: is about two replicas that write nothing more while they receive; a third replica, the echo of a replica's own transactions and the collection of its entries between two batches are not modelled.
- Process.SatelliteProcess.Ack: moves the cursor in memory; the row of the meta table that the code also writes is not modelled, so neither is what a restart reads from it.
- Registry.BaseRegistry.StopAll: says what is being stopped and waited for; that each start under way is followed by a stop once it has finished is not in the contract, because it happens after the call.
- Messages.OpLogRoundTrip: leaves out `SatOpMigrate`, field 6 of an operation, which the client neither writes nor reads; its bytes count as an unknown field.
- Messages.EncodedOpLogRoundTrip: leaves out the same field, so it is about logs without a `migrate`.
- NestedReferences.CreateKeepsReferences: takes the stored row from an engine that holds what was inserted and null in foreign keys left out; column defaults for foreign keys are not modelled.
- NestedStore.Store.Create: takes the input tree and the key filled in by the owner as two parameters, where the code writes the key into the input object; input objects shared between two places of a tree are not modelled.
- Include.FetchIncludes: the code adds fields to shared row objects, so a row that comes back twice carries the related rows of both relations; this sharing is not modelled.
- Include.BatchRefinesLookup: leaves out ordering, `take`, `skip` and nested includes of the related query, and compares values of one type, where JavaScript's `==` also equates a number and its text.
- ForeignKeys.Store.Update: leaves out nested updates of related rows; it stops after the keys have moved and the row is read again.
- The server between two clients is not modelled, apart from the tags it puts on a change; replicas exchange their batches directly.
- At process start the two positions are passed to `resetOutboundLogPositions` in swapped order (`clients/typescript/src/satellite/process.ts:172-175`); the invariant of `Runs` allows for it.
- The correlation of requests and responses, connection retries, authentication, pings and throttling: timing and libraries.
- Notifications of changed tables: they change no replicated data.
- Overlapping snapshots, foreign key cascades inside SQLite and compensations.
- The generated `encode` and `decode` of each message are lists of fields and assignments by field number; the text of the generated code is not parsed.
- `protobufjs` is the encoding guide's reader with varints of at most ten bytes; its error texts are one failure.
- Input validation by zod, SQL texts, the squel builder beyond the meaning of equality, IS NULL and IN, and the interactive transaction of each driver.
- The rest of the generator, the migrator, configuration defaults and the notifier: easy members only.
- Characters outside the basic plane in validator patterns, whose positions the loop and `substring` count differently.
