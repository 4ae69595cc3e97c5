# WalFlux in Dafny

WalFlux keeps `COUNT/SUM/AVG ... GROUP BY` tables equal to their source tables by consuming a
PostgreSQL logical replication stream, and claims that every source transaction takes effect exactly
once, whatever crashes. This project models the program and proves that claim and the ones under it.

`dafny verify dfyconfig.toml` checks everything.

## How it is built

| file | what it holds |
|---|---|
| Prelude, Decimals | results and errors; decimal arithmetic rounded to 28 digits |
| Views | rows, views, and what SQL says a target must hold (`GroundTruth`), over a multiset of rows |
| Aggregates, DeltaBatch | the delta batch as functions, and as the object whose methods equal them; the commands of a flush and what they do to tables |
| Maintenance, Targets, Projection, Flushes, ViewResults, Cuts | incremental maintenance: a batch takes the views of a history to the views of a longer one; unread columns, cuts, keys, backfill, NULLs, bounds |
| Protocol, Wire, RoundTrip, Accepted, Reader | the decoder; the wire form in bytes, told apart from it; that the one reads the other, refuses what is cut and accepts nothing else; the reader object |
| RowMessages, Convert | relations, row images, unchanged-TOAST substitution, operations; conversion of text cells |
| Machine, Safety, Theorems | the whole system as a step machine, its invariant, and the promises over every run |
| Runs, Daemon, Progress | the daemon loop and flush as methods; that they take machine steps only; when they halt, and what they have applied when they stop |
| Replication, Staleness | the message source and the timing of flushes |
| Bootstrap, Overlap | setup and teardown as methods that take machine steps only; a setup beside a live daemon |
| Config, Lsn | validation and column names; textual LSNs |

The machine (`Machine`) has a server (WAL of transactions with increasing end positions, slot with a
confirmed position, feedback in flight), a durable database (tables and checkpoint row) and a
volatile daemon. Its steps include a crash anywhere, a commit that is durable before its caller
learns of it, lost and late feedback, restarts with redelivery, setup in single steps that can each
be the last, and teardown. Three fields record history: transactions in the last backfill,
transactions in the targets, and the log of committed batches.

`Daemons.Daemon.Loop` and `.Flush` are proved equal to functions of what they are fed (`Runs`); those
are proved to take only machine steps, so every theorem about reachable states holds of the loop.

Text is its UTF-8 bytes. Numbers are integers at one common decimal scale. Three things are left open
(`Views.Semantics`): which keys the server takes for equal, which keys a dictionary in memory takes for
one, and what decimal the program makes of a value. All that is asked is that the dictionary never
merges keys that the server tells apart; it may split them, as it does with NaN, or never find one.
NULL is an ordinary key. Rows of a history are compared on the columns that a view reads.

## Where the code differs from its documentation

- `DESIGN.md` (line 111) says that a crash between slot creation and the backfill commit may leave the
  old checkpoint. The code deletes it before the slot is created (`walflux/bootstrap.py:70`); the model
  follows the code, and the start-up theorem needs it to.
- `messages` says keepalives go out about every ten seconds regardless of progress. A pass that finds a
  message sends none (`Replication.BusyStreamGoesStale`). `PassKeepsAliveIff` says when a pass keeps the
  feedback young, `YoungIffShortStretches` when a whole run does, `BusyStretchCosts` what a busy stretch
  costs, told from its length alone.
- `_Reader` is described as bounds-checked; a negative text length moves its cursor back
  (`Readers.NegativeLengthIsReadAgain`). `TakeIsForwardIff` gives the exact condition.
- Validation promises columns clear of each other, but accepts a group column that is a storage column
  of an aggregate (`Configs.AcceptedViewWithOneNameTwice`); `ColumnsDifferIff` gives the exact condition.

## What is assumed

- The server: atomic commit, whole transactions in commit order, end positions that increase, a
  snapshot that holds exactly the transactions up to the slot's start, and redelivery of at least
  everything past the confirmed position.
- A valid history: as each view reads them, deleted and old rows are there. `Cuts.CutMattersIff` says
  exactly when the cut between two flushes shows without that; `ViewResults.InvalidHistoryShowsTheCut`
  is a case.
- The numbers of any stretch of the WAL, summed in any one batch, stay within 10^28 units (`Fits`).
  `ViewResults.SmallChangesFit` gives the bound under which they do; `Decimals.LimitIsTight` shows that
  10^28 cannot be raised.
- Setup runs while no daemon lives, except to be refused by the slot of a live one. The program checks
  only the slot; `Overlap.SetupUndoneIff` says exactly when a daemon that outlived its slot undoes a
  setup. Reading the checkpoint and opening the stream are one step; a commit that outlives its process is settled before
  the next start; teardown's schema drop waits for open transactions.
- For the staleness bound: processing takes no time and `select` returns by its timeout.

## Model

| member | source | states |
|---|---|---|
| Theorems.TargetsEqualPrefix | walflux/daemon.py:147-200 | in every reachable state with a checkpoint each target is the GROUP BY of its source after exactly the transactions up to it, and what the daemon had pending at its commits, joined, is every transaction after the backfill with all its operations, none missing or twice |
| Theorems.ReachableIsSafe | walflux/daemon.py:281-312 | the invariant holds in every reachable state, the in-doubt commit and the commit-to-ack window included |
| Safety.StepKeeps | walflux/daemon.py:147-312 | each of the 24 steps keeps the invariant |
| Safety.RunKeeps | walflux/daemon.py:147-312 | every run keeps the invariant |
| Safety.BeginFlushKeeps | walflux/daemon.py:286-305 | the commands built from the pending run would install the views of the longer prefix |
| Safety.CommitInstallsBatch | walflux/daemon.py:297-305 | what a commit installs is the next stretch of the WAL, each transaction once with the operations of all its changes, and the log of commits grows by it |
| Safety.PendingGrows | walflux/daemon.py:170-180 | with the skip rule `pending` is the run of whole transactions after the checkpoint |
| Theorems.SentPositionsWereDurable | walflux/replication.py:74-103 | on every run each position sent as feedback is 0 or was itself the durable checkpoint in some state of the run |
| Theorems.AckNeverPassesCheckpoint | walflux/replication.py:74-83 | what is acknowledged, in flight or confirmed never passes the durable checkpoint |
| Theorems.StartsInSync | walflux/daemon.py:102-118 | a daemon starts only on a completed handshake and is sent every transaction that the targets miss |
| Safety.StartsEarlyEnough | walflux/daemon.py:173-177 | redelivery begins no later than the first transaction missing from the targets |
| Theorems.CheckpointOnlyAdvances | walflux/checkpoint.py:46-60 | no step moves a checkpoint back |
| Theorems.CanAlwaysCatchUp | walflux/daemon.py:147-200 | after a crash at any point some run of daemon steps brings the targets up to the whole WAL |
| Safety.CommitDurableKeeps | walflux/daemon.py:305-312 | a commit that is durable but has not returned keeps the invariant |
| Safety.AcknowledgeKeeps | walflux/daemon.py:311-312 | the ack after a commit keeps the invariant |
| Safety.BackfillKeeps | walflux/bootstrap.py:107-131 | a view backfilled in the snapshot holds its view of the snapshot, the others keep theirs |
| Safety.SetupCommitKeeps | walflux/bootstrap.py:130-131 | backfill and checkpoint, committed together, start the prefix invariant |
| Safety.PrepareKeeps | walflux/bootstrap.py:60-70 | table creation, slot drop and checkpoint deletion keep it, in that order |
| Safety.SnapshotKeeps | walflux/bootstrap.py:72-107 | slot creation with its snapshot, opening the backfill, and dying in between keep it |
| Safety.TeardownKeeps | walflux/bootstrap.py:150-169 | dropping slot and schema keeps it, also under a live daemon |
| Bootstrap.Setup | walflux/bootstrap.py:46-147 | setup takes machine steps only, with source commits between them; without --force on an existing slot, or with the slot in use, it fails and keeps the slot, and the database but for an empty checkpoint table; it succeeds if and only if it is not refused, every query can run and the process lives, and then leaves a completed handshake with every query's answer; a failure leaves no checkpoint, or the database as it was and the slot as it was or gone |
| Bootstrap.Handshake | walflux/bootstrap.py:64-131 | from the deletion of the old checkpoint on, whatever sources commit meanwhile, an unfinished setup leaves no checkpoint and a finished one holds its snapshot |
| Bootstrap.Backfill | walflux/bootstrap.py:107-131 | the loop over views fills each target with its view of the snapshot, however sources move on between queries |
| Overlap.SetupUndoneIff | walflux/bootstrap.py:231-238 | a daemon that outlived its slot can replace the checkpoint of a setup run beside it if and only if it has something pending of which every row is usable, and what it then writes is an earlier position |
| Overlap.SetupCompletes | walflux/bootstrap.py:46-131 | with no slot a setup runs to its end whatever the daemon is |
| Overlap.TeardownLeavesDaemon | walflux/bootstrap.py:150-169 | a teardown reaches that state from any daemon about to flush |
| Bootstrap.PrepareSlot | walflux/bootstrap.py:231-252 | an existing slot is refused without --force or when in use, else dropped |
| Bootstrap.Teardown | walflux/bootstrap.py:150-169 | teardown takes machine steps only, slot first |
| Runs.LoopLeavesExactTargets | walflux/daemon.py:147-200 | whatever the loop is fed and wherever it fails, each target it leaves is its view after exactly the transactions up to the checkpoint |
| Runs.LoopTakesMachineSteps | walflux/daemon.py:147-200 | the loop only takes machine steps; at every head fewer than max_txns are pending and `oldest` is None exactly when none is |
| Runs.LoopHeadIsExact | walflux/daemon.py:149-200 | at a loop head `pending` is the contiguous run after the checkpoint with strictly increasing end_lsn, and the checkpoint in memory is the durable one |
| Runs.LoopStaysReachable | walflux/daemon.py:196-200 | a stop without error leaves nothing pending |
| Runs.FlushIsSteps | walflux/daemon.py:281-312 | a flush is a sequence of machine steps however it ends: refused, rolled back, interrupted after the commit, done |
| Runs.TurnIsSteps | walflux/daemon.py:156-194 | so is a turn of the loop |
| Runs.TurnKeepsHead | walflux/daemon.py:189-194 | a turn ends at a loop head or halts the daemon |
| Runs.UnusableRowHalts | walflux/daemon.py:286-305 | a flush is refused before any command if and only if some pending row is unusable, and then target and checkpoint stay |
| Runs.SurvivingMarkerHalts | walflux/aggregates.py:288-298 | an unchanged-TOAST marker in a needed column halts with target and checkpoint unchanged |
| Runs.StartIsLoopHead | walflux/daemon.py:102-126 | a daemon that has just started is at a loop head |
| Progress.LoopUpIff | walflux/daemon.py:147-200 | told from the items alone: without a fault the loop ends without error if and only if every item up to a stop is one that a daemon can take (decodable, relations that suffice, complete rows between Begin and Commit) and every change it was sent is usable; then it has applied every transaction delivered and the checkpoint is the end of the last |
| Progress.LoopAppliesStream | walflux/daemon.py:147-200 | fed any stretch of the WAL from its place on, complete and usable, the loop ends without error with each target at its view after exactly the transactions sent |
| Progress.TurnUpIff | walflux/daemon.py:156-194 | one turn halts if and only if its item cannot be taken, or it flushes and a pending change is unusable; it flushes exactly at a wake with something pending, at max_txns, or max_ms after the oldest was sealed |
| Progress.SeesUpIff | walflux/daemon.py:166-188 | a message halts the daemon if and only if it is a relation that does not suffice or moved away from its views, or a row outside Begin..Commit, on an unknown relation or incomplete |
| Progress.FlushUpIff | walflux/daemon.py:281-312 | without a fault a flush completes if and only if every pending change is usable |
| Progress.FlushApplies | walflux/daemon.py:297-312 | a flush that completes applies everything pending, and its position is acknowledged |
| Theorems.CheckpointIsLastEnd | walflux/daemon.py:297-304 | in every reachable state the checkpoint is the end of the last transaction applied since the backfill |
| Daemons.Daemon.Loop | walflux/daemon.py:147-200 | the loop as a method: final database, error and checkpoint are those of the specified run |
| Daemons.Daemon.Flush | walflux/daemon.py:281-312 | the flush as a method: its four outcomes, database, checkpoint and what is sent after each |
| Daemons.Daemon.Handle | walflux/daemon.py:167-188 | the dispatch on message kinds, with the skip rule, and the error of each message that is refused |
| Daemons.Daemon.OnItem | walflux/daemon.py:157-194 | a wake or a message, then the flush triggers |
| Daemons.Daemon.OnRelation | walflux/daemon.py:202-232 | relation tracking, halting on a rename and on a missing column |
| Daemons.Daemon.RowOps | walflux/daemon.py:234-279 | a row message becomes one operation for each view of its table |
| Daemons.Daemon.Substitute | walflux/daemon.py:269-271 | overwriting marked entries one by one gives the substituted row |
| Daemons.Daemon.DecodeRow | walflux/daemon.py:365-373 | cells are converted column by column; another length is refused |
| Daemons.Daemon.constructor | walflux/daemon.py:84-94 | the table index gives for each table its views in configuration order |
| Daemons.ReadCheckpoint | walflux/daemon.py:102-115 | a start without checkpoint table or checkpoint is refused, else it begins at the checkpoint |
| Daemons.ApplyAtomically | walflux/daemon.py:301-305 | all commands and the commit, or nothing |
| Daemons.ApplyPending | walflux/daemon.py:286-296 | the two loops over transactions and operations fold them in order, to the first error |
| RowMessages.ChangesAreReconstructed | walflux/daemon.py:254-272 | a message that carries source changes is decoded into exactly their operations on every view, columns sent as unchanged included |
| RowMessages.NewImageDecodes | walflux/daemon.py:260-271 | decoding plus substitution gives exactly the new source row |
| RowMessages.RelationsStayResolved | walflux/daemon.py:202-232 | under every accepted message sequence an id stands for its latest definition, and one that fed a view still resolves to views that find their columns |
| RowMessages.NoColumnIsMissing | walflux/aggregates.py:280-287 | the missing-column failure cannot be reached from the daemon |
| RowMessages.RowOpsAre | walflux/daemon.py:245-279 | the operations of a row message are those of exactly the views whose source has the relation's schema and name, in configuration order |
| RowMessages.RelationRefusedIff | walflux/daemon.py:202-232 | a relation is refused if and only if a view over its schema and name lacks a group or aggregated column, or there is none and its id fed one before |
| RowMessages.RowRefusedIff | walflux/daemon.py:245-279 | a row message is refused if and only if its relation is unknown, or feeds a view and the old row is missing or an image cannot be decoded |
| RowMessages.UsableIff | walflux/aggregates.py:277-306 | a row is usable if and only if every group and aggregated column is there, not as unchanged, and what is summed is NULL or a finite decimal |
| RowMessages.RowErrorIs | walflux/aggregates.py:280-306 | which of the two errors a refused row raises |
| RowMessages.OpsAcceptedIff | walflux/aggregates.py:277-306 | a batch takes operations if and only if each is usable by its view |
| Flushes.FlushMaintainsViews | walflux/daemon.py:281-305 | if the targets hold the views of a history, the commands of a flush leave those of the longer history and the new checkpoint |
| Targets.ViewIsMaintained | walflux/aggregates.py:308-331 | for one view, grouped or global, truncated or not: deletes, upserts, cleanup in order take the view of S to the view of S' |
| Targets.UpsertsAdd | walflux/aggregates.py:210-220 | upserts add the total of each SQL group, whatever their order and however keys split it |
| Targets.CleanupReachesTruth | walflux/aggregates.py:323-330 | the cleanup leaves exactly the groups that have rows, and spares a global view |
| Maintenance.EventsTrack | walflux/aggregates.py:249-271 | after any valid events each group of the source is the group at the start plus its deltas, through truncates |
| Maintenance.ApplyRowIsExact | walflux/aggregates.py:299-306 | an accepted row adds exactly its signed contribution, no digit lost |
| Maintenance.PutAddsToTotal | walflux/aggregates.py:299-300 | one more contribution to an in-memory key adds to the total of its SQL group and no other |
| Flushes.BatchByView | walflux/aggregates.py:236-241 | views do not interfere in a batch |
| Flushes.ExecByView | walflux/daemon.py:301-304 | commands on different tables do not interfere |
| Flushes.OpsReachView | walflux/daemon.py:248-279 | each view gets exactly the events of its table, in order |
| ViewResults.CutsDoNotMatter | walflux/daemon.py:189-194 | two ways of cutting the same changes into flushes, under two in-memory key equalities no coarser than the server's, leave the same targets |
| ViewResults.InvalidHistoryShowsTheCut | walflux/aggregates.py:323-330 | on a delete before its insert they do not |
| Cuts.CutMattersIff | walflux/aggregates.py:323-330 | for any events, valid or not: one flush and two leave the same table if and only if a truncate follows the cut or no group left at or below zero rows is both non-zero and shown again by the rest |
| Cuts.FlushKeeps | walflux/aggregates.py:308-331 | on any clean table a flush keeps exactly the groups that then show rows |
| Flushes.WholeRowsAgree | walflux/aggregates.py:206-206 | a history valid row by row is valid as any view reads it, and the query over whole rows has the same answer |
| Projection.SameEvents | walflux/aggregates.py:280-306 | a batch cannot tell rows from their needed columns |
| ViewResults.BackfillAgreesWithStream | walflux/aggregates.py:131-150 | truncate and then the rows in any order, on any prior content, is what the backfill builds, the one-row global view included |
| ViewResults.AliasIsSqlAggregate | walflux/aggregates.py:110-119 | in every group each alias reads as the SQL aggregate, NULL exactly without non-NULL input |
| ViewResults.CleanupLosesNothing | walflux/aggregates.py:323-330 | before the cleanup every group shows its final vector, and the rows deleted are all zeros |
| ViewResults.NonNullWithinRows | walflux/aggregates.py:181-190 | non-NULL inputs lie between 0 and the rows |
| ViewResults.EventAccepted | walflux/aggregates.py:277-306 | an event is refused exactly when one of its row images is unusable, whatever the batch |
| ViewResults.RefusedRowIsCounted | walflux/aggregates.py:299-306 | a row with all its columns moves the row counters of the batch by its sign even when a value is refused: a batch is not safe under exceptions |
| ViewResults.FewEventsFit | walflux/aggregates.py:299-306 | n row images of magnitude at most m with n*m <= 10^28 are summed exactly |
| ViewResults.SmallChangesFit | walflux/aggregates.py:299-306 | the same for all views of a configuration |
| Views.RowIsAdded | walflux/aggregates.py:181-190 | a row adds its contribution to what SQL says of its group, NULL inputs included |
| Targets.GroundTruthLookup | walflux/aggregates.py:131-150 | the backfilled table has the vector of each group, and a grouped view exactly the groups with rows |
| Targets.KeyIsColumns | walflux/aggregates.py:299-299 | the key of a row has one entry for each group column, in order: its value |
| Targets.EntriesAreGroups | walflux/aggregates.py:131-150 | a grouped target has for each row the entry of its group columns, which counts and aggregates the rows that the server groups with it, and no other entries |
| Targets.EntryIsAgreement | walflux/aggregates.py:131-150 | where the server tells all keys apart, two rows are counted in one entry if and only if they agree on every group column |
| Views.OneMoreValue | walflux/aggregates.py:181-190 | counts and sums from no rows on: a NULL changes nothing, a number counts once and is added |
| Decimals.ExactWithinLimit | walflux/aggregates.py:305-305 | up to 10^28 units no rounding occurs |
| Decimals.LimitIsTight | walflux/aggregates.py:305-305 | 10^28 + 1 is lost |
| Decimals.NearestMultipleIsNearest | walflux/aggregates.py:305-305 | rounding yields the nearest multiple of the last kept digit, the even one half way |
| Decimals.RoundsToDigits | walflux/aggregates.py:305-305 | the last kept digit is the 28th |
| DeltaBatches.DeltaBatch.Apply | walflux/aggregates.py:277-306 | the accumulation in place, partial on error |
| DeltaBatches.DeltaBatch.ApplyUpdate | walflux/aggregates.py:257-260 | the old row out, the new row in, to the first error |
| DeltaBatches.DeltaBatch.ApplyTruncate | walflux/aggregates.py:262-271 | earlier deltas go, a global view gets a zero delta |
| DeltaBatches.DeltaBatch.Statements | walflux/aggregates.py:308-331 | deletes of truncated views, then upserts, then cleanups |
| DeltaBatches.AddAll | walflux/aggregates.py:302-306 | the loop over aggregates equals the fold that is proved exact |
| DeltaBatches.ChecksColumns | walflux/aggregates.py:280-298 | a row passes if and only if it has every needed column without marker |
| RoundTrip.DecodeInvertsEncode | walflux/protocol.py:187-339 | the wire form of every message that a server may send, told in bytes, is decoded into it, whatever follows and whatever further column flags are set |
| RoundTrip.StrictPrefixIsRefused | walflux/protocol.py:142-151 | every strict prefix of an encoded message is a ProtocolError |
| RoundTrip.EncodingIsInjective | tests/test_protocol.py:67-144 | two messages with the same bytes are the same |
| Accepted.AcceptedIff | walflux/protocol.py:324-339 | a buffer that begins with the wire form of a message is decoded into it; a buffer that is decoded begins with the wire form, or holds a text cell of negative length |
| Accepted.KindRefused | walflux/protocol.py:331-338 | an empty buffer and one of another kind are malformed |
| Accepted.CStringRefused | walflux/protocol.py:176-184 | a string without its end is malformed, one that is not UTF-8 raises the language's own error |
| Accepted.CellRefused | walflux/protocol.py:201-210 | a cell of another kind is malformed |
| Accepted.TimestampRefused | walflux/protocol.py:171-174 | a time outside the years 1 to 9999 overflows |
| RoundTrip.ValidUtf8Iff | walflux/protocol.py:182-182 | what is taken for UTF-8 is exactly what Unicode scalar values are written as |
| RoundTrip.ColumnReads | walflux/protocol.py:248-258 | a column is read back with any flags byte; its lowest bit is the key flag |
| RoundTrip.TupleReads | walflux/protocol.py:187-211 | a tuple is read back, or its cut refused, wherever it stands |
| RoundTrip.ManyRead | walflux/protocol.py:249-258 | so is any list of parts |
| Readers.Dispatch | walflux/protocol.py:324-339 | while text lengths are not negative no read of a decode, successful or failing, moves the cursor back or out of the buffer |
| Readers.DecodeMessage | walflux/protocol.py:324-339 | the reader-driven decoder equals the decoding function on every buffer |
| Readers.Reader.TupleData | walflux/protocol.py:187-211 | the loop over cells, cursor included |
| Readers.Reader.Columns | walflux/protocol.py:248-258 | the loop over columns, cursor included |
| Readers.Reader.Take | walflux/protocol.py:142-151 | only the upper bound is checked |
| Readers.Reader.CString | walflux/protocol.py:176-184 | up to the next NUL; other bytes than UTF-8 are not a ProtocolError |
| Readers.TakeIsForwardIff | walflux/protocol.py:142-151 | a take moves forward inside the buffer if and only if its length is not negative |
| Readers.NegativeLengthIsReadAgain | walflux/protocol.py:198-200 | with a negative length one cell is read twice and accepted |
| Conversions.NumericReadsBack | walflux/protocol.py:348-365 | every value of a numeric column, printed as the server prints it at its scale, converts to that value |
| Conversions.IntReadsBack | walflux/protocol.py:342-360 | so does every value of the four integer types |
| Conversions.OthersReadBack | walflux/protocol.py:348-365 | and booleans, NaN and the infinities; floats and all other types keep their text |
| Conversions.DecimalsRead | walflux/aggregates.py:153-178 | for a sum a boolean is 0 or 1, a float or text the number that it spells |
| Conversions.ConversionIsPlain | walflux/protocol.py:348-365 | no text converts to NULL or to the unchanged marker |
| Conversions.ProgramSemanticsAreValid | walflux/aggregates.py:153-178 | the program's decimals and dictionary keys, NaN included, meet what the model asks of them, whatever the server takes for equal |
| Conversions.ConversionIsSound | walflux/daemon.py:365-373 | so this conversion meets what reconstruction asks of one |
| Replication.Stream.Next | walflux/replication.py:50-72 | the message source up to its next yield, feedback included |
| Replication.Stream.Ack | walflux/replication.py:74-83 | the position is remembered and sent |
| Replication.YieldsArePaced | walflux/replication.py:59-72 | yields are at most the wake interval apart, whatever arrives |
| Replication.PassYields | walflux/replication.py:59-72 | a pass yields a message if it finds one, a wake if and only if a wake interval is over since the last yield |
| Replication.WakesAreSpaced | walflux/replication.py:66-72 | so a wake never comes less than a wake interval after the last yield |
| Replication.Stream.Stop | walflux/replication.py:85-87 | after it the source yields nothing more |
| Replication.Stream.Spend | walflux/replication.py:63-65 | the consumer's time passes before the next pass |
| Replication.OnlyAcksAreSent | walflux/replication.py:98-103 | every position sent, now or as keepalive, is one passed to ack, or 0 |
| Replication.PassKeepsAliveIff | walflux/replication.py:60-66 | at the check of a pass the feedback is younger than 10 s if and only if the pass found no message or it was that young already |
| Replication.YoungIffShortStretches | walflux/replication.py:60-72 | feedback stays younger than a bound of at least 10 s if and only if no busy stretch outlasts it |
| Replication.BusyStretchCosts | walflux/replication.py:60-66 | feedback younger than 10 s before a busy stretch stays younger than 10 s plus g if and only if the stretch takes at most g |
| Replication.BusyStreamGoesStale | walflux/replication.py:60-66 | messages that keep coming leave the feedback as old as one likes, with nothing sent |
| Staleness.StalenessIsBounded | walflux/daemon.py:153-200 | with the items that an ideal stream yields, every transaction the loop seals begins flushing, in a turn or the last flush, less than max_ms plus the wake interval and so less than twice max_ms after it was sealed, unless the daemon halts before |
| Staleness.SealedIsFlushedSoon | walflux/daemon.py:170-194 | the same from any loop head |
| Staleness.EveryFlushIsTimely | walflux/daemon.py:189-200 | every flush begins in time, and no turn leaves pending what has waited for max_ms |
| Staleness.TurnIsTimely | walflux/daemon.py:155-194 | the same for one turn |
| Configs.ParseView | walflux/config.py:139-187 | accepts exactly the definitions that keep the rules |
| Configs.ViewIff | walflux/config.py:139-187 | the rules spelled out in characters, and that an accepted definition stands for its table, its group columns in order and its aggregates one by one |
| Configs.SourceIff | walflux/config.py:76-91 | a source text stands for schema.name, or for a name in the schema public |
| Configs.ParseAggregate | walflux/config.py:93-136 | the rules of one aggregate against the aliases seen |
| Configs.ParseAggregates | walflux/config.py:178-179 | an aggregate list is accepted if and only if each is and aliases differ |
| Configs.AcceptedViewsAreOk | walflux/config.py:93-187 | what validation guarantees of names |
| Configs.ColumnsDifferIff | walflux/aggregates.py:97-119 | the columns of a target differ if and only if no key column is a column of an aggregate |
| Configs.GuardedColumnsDiffer | walflux/config.py:117-127 | they differ when no group column ends in a storage suffix and no alias is the constant key of a global view |
| Configs.AcceptedViewWithOneNameTwice | walflux/config.py:117-127 | validation accepts a view with one column twice |
| Configs.ColumnsLineUp | walflux/aggregates.py:203-222 | the upsert names the keys, the row counter and each aggregate's columns, spelled out, at the positions of their values |
| Configs.TableColumnIff | walflux/aggregates.py:89-119 | the columns of a target, spelled out |
| Lsn.ParseInvertsFormat | walflux/common.py:39-50 | parse_lsn(format_lsn(n)) is n |
| Lsn.FormatIsInjective | walflux/common.py:48-50 | different positions have different texts |
| Lsn.ParseValue | walflux/common.py:39-45 | two plain halves, the low one of 32 bits, give high * 2^32 + low |
| Lsn.HexLooks | walflux/common.py:48-50 | halves are written in upper-case digits without leading zeros |
| Lsn.HexReadsOn | walflux/common.py:39-45 | digits of either case are read, each sixteen times the next |
| Lsn.OrIsBitwise | walflux/common.py:39-45 | the halves are joined bit by bit, whatever they are |
| Lsn.OrderIsLexicographic | walflux/common.py:48-50 | integer order is the lexicographic order of the halves |

## Left out

- Aggregates.AggDeltas: the decimal that the program makes of a boolean, float or text is left open; the server refuses SUM over boolean and text columns at setup, and its float sums are not exact.
- Decimals.ExactWithinLimit: about values at one common scale, which the finitely many values of a history have; the exponent range of the context is out of reach of such values.
- Safety.RunKeeps: the bound of 28 digits is also asked of counters, which the source keeps as unbounded integers.
- Progress.LoopUpIff: a fault of the database or the feedback in a turn that flushes halts as `Runs.Flushed` says; here there is none.
- Daemons.Daemon.Loop: takes the items of the stream, clock readings and faults as inputs; slot and schema are not torn down while it runs (the step machine covers that), and signals are the stop flag of an item.
- Daemons.Daemon.RowOps: conversion of a text cell by type is a parameter; `Conversions.ConvertValue` is one.
- Conversions.NumericReadsBack: numbers are an optional minus, digits and one point; plus signs, exponents, underscores, blanks and digits past the common scale are not accepted, and floats stay text.
- Bootstrap.Setup: publication, version, wal_level and privilege checks are not modelled, and a backfill query that cannot run is an input; commits before the slot are met in one place, as they commute with the steps there.
- Replication.Stream.Next: partial messages are passes without a message; a stop between the wait and the wake is not told apart.
- Lsn.ParseValue: signs, prefixes, underscores and white space that the language accepts in hexadecimal text.
- Theorems.CanAlwaysCatchUp: needs every row of the WAL to be usable; an unusable one halts the daemon for good.
- Theorems.AckNeverPassesCheckpoint: positions that this program passes to the driver; the driver's own automatic replies are not modelled.
- Views.RowIsAdded: AVG is an exact quotient, not the server's division scale.
- Which of several equal keys (1.0 and 1.00) a target shows.
- Generated SQL text and quoting: commands are a datatype, and the checkpoint row is apart from the targets, so a view that is itself named `checkpoint` is not covered.
- A daemon inside its target transaction beside a setup, and concurrent setups.
- Source columns that change type or are renamed within a history; columns that no view reads may come and go.
- Renames of a source onto another configured table, and renames across a restart.
- Configuration files, command line, status, logging, demo and deployment.
- Identifier checks of `quote_ident` at SQL generation, and positive integers in batch settings.
- NaN and Infinity in aggregated columns beyond being refused, and sources that hold them at setup; as group keys they are ordinary values.
- bigint overflow and the memory of huge transactions.
