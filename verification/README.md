# A model of forge-index

forge-index follows EVM chains, decodes contract events and writes rows to Postgres. This project models
the parts whose correctness spans several functions: reorg detection and rollback, backfill with
checkpoints and a regrouping write buffer, the ABI codec, the RPC accelerators (log cache, request
deduplication, token bucket) and keyset pagination with its cursor codec.

A Postgres table is a map from primary key to the other columns and a SQL statement is one atomic change of
it. A node is an oracle. Failures, clocks and the order in which the database returns ties are parameters,
so that a theorem quantifies over all of them. Where a promise of the program does not hold on all inputs,
the condition under which it holds is stated as an equivalence, with an input that breaks it.

## How the files fit together

| files | what they model |
|---|---|
| `Tables`, `Sequences`, `Sorting`, `Naturals` | values, tables, row operations; filtering and stable sorting; minimum and maximum |
| `ReorgLog`, `BlockUndo`, `Rollback`, `RollbackCases`, `ReorgStore` | the shadow log and its replay: one block in any order, whole histories, and the inputs on which it fails |
| `Chain`, `Decisions`, `Detector` | the bounded chain state, the fork search and the decision on a new block |
| `Flush`, `Buffer`, `BufferEffects`, `Handler`, `EndToEnd`, `Runs`, `UnrecordedRuns` | the write buffer, the reorg handler, detection joined with rollback, whole runs whose writes are recorded, and the loop as it stands, which records none |
| `Planner`, `Delivery`, `DeliveryOrder`, `LogFetch` | ranges, fetching with the decoder, and the order in which events reach the handlers |
| `Backfill`, `BackfillSafety`, `BackfillRuns`, `Resumption`, `BufferedInserts`, `CrashSafety`, `CrashRuns`, `Workers`, `Coordinator` | backfill, over any number of crashes and restarts |
| `AbiTypes`, `AbiWords`, `AbiEncoding`, `AbiDecoder`, `AbiNumbers`, `AbiRoundTrip`, `AbiArrays`, `AbiSupport`, `AbiLimits`, `AbiEvents`, `ParamMaps`, `Utf8` | type texts, the specified encoding and the log decoder |
| `LogCache`, `CacheStamps`, `CacheRows`, `CacheTransparency`, `CacheHits`, `Dedup`, `DedupSharing`, `RateLimiter` | the RPC accelerators |
| `Pagination`, `CursorWalk`, `Base64` | list queries, following cursors, and their text |

Modules whose source changes state step by step hold classes or methods with loops; each method's
postcondition ties it to a function, and the theorems are about these functions.

## Model

| member | source | states |
|---|---|---|
| EndToEnd.ReorgRestores | crates/forge-index-sync/src/reorg/handler.rs:57-107 | on any ascending, linked chain state, after a block is decided a reorg and handled with the buffer empty: the fork is at or below the new tip; the chain state is the part below the fork, holds every canonical block, and only these if and only if the blocks below its gaps are canonical; for tables without foreign keys or secondary unique indexes, whose blocks were recorded and can be undone, the rollback succeeds if and only if the key of every row at or after the fork can be pasted, and then every table and shadow log is what the blocks below the fork alone build, in every order of ties |
| Runs.RunInStepIff | crates/forge-index-db/src/reorg.rs:39-246 | if the writes of every accepted block are recorded (nothing outside the tests records them, see `UnrecordedRuns`) and each block can be undone: for tables without foreign keys or secondary unique indexes, over every sequence of arriving blocks, with any number of reorgs, tables and orders of ties, the tables and shadow logs are those of the blocks accepted and not since rolled back if and only if every reorg finds only rows whose key can be pasted; a failed rollback ends the run |
| Runs.RunStaysInStep | crates/forge-index-db/src/reorg.rs:39-246 | with text keys without apostrophes every such recorded run stays in step |
| Runs.PlainExtendsIff | crates/forge-index-db/src/reorg.rs:39-246 | for such keys a block can be undone in every order if and only if its recorded rows are tie-safe, the condition of `PlainRollbackExactIff` |
| UnrecordedRuns.UnrecordedInStepIff | crates/forge-index-sync/src/realtime/processor.rs:103-195 | the loop as it stands flushes a block and records nothing: over every run the tables hold after every block what the blocks accepted and not rolled back wrote if and only if no reorg rolls back blocks that, taken together, changed a listed table |
| UnrecordedRuns.NothingUndone | crates/forge-index-sync/src/reorg/handler.rs:79-89 | rolling back tables whose shadow logs are empty succeeds and changes nothing |
| UnrecordedRuns.OrphanedRowStays | crates/forge-index-sync/src/realtime/processor.rs:103-195 | a row inserted in block 2 is still there after the reorg at block 3 that rolls block 2 back |
| Runs.NumericKeySticks | crates/forge-index-db/src/reorg.rs:146-153 | a row with a numeric key inserted in a rolled-back block stays, and the rollback fails |
| EndToEnd.RollbackTablesIff | crates/forge-index-sync/src/reorg/handler.rs:79-89 | for tables without foreign keys or secondary unique indexes, whose blocks were recorded and can be undone: rolling back all listed tables succeeds if and only if all keys to be undone can be pasted, and if and only if it takes each table and its log to its history below the fork |
| EndToEnd.LogUpTo | crates/forge-index-db/src/reorg.rs:109-246 | what a rollback leaves of the shadow log is the log of the remaining blocks, which can be rolled back again |
| Handler.ReorgHandler.HandleReorg | crates/forge-index-sync/src/reorg/handler.rs:57-107 | pending rows are flushed before any table is rolled back; a failing flush leaves the shadow log alone; success needs fork at or below the new tip, else the block count underflows |
| Handler.ReorgHandler.RollbackAll | crates/forge-index-sync/src/reorg/handler.rs:79-89 | tables are rolled back in order until one fails, and the replayed rows are counted |
| EndToEnd.StopsAtFailure | crates/forge-index-sync/src/reorg/handler.rs:79-89 | a rollback that fails does so at one table: the tables before it are rolled back, those behind it are untouched |
| EndToEnd.ReplayedCount | crates/forge-index-sync/src/reorg/handler.rs:79-104 | a rollback that succeeds reports the number of shadow rows its tables had at or after the fork |
| Rollback.RollbackExact | crates/forge-index-db/src/reorg.rs:109-246 | for tables without foreign keys or secondary unique indexes, if every block's recorded rows are settled, rollback from any block restores the table built by the blocks below it, for every order in which the database returns rows of one block, as far as all rows are replayed |
| Rollback.ReplayedIff | crates/forge-index-db/src/reorg.rs:109-246 | and all rows are replayed, in any order, if and only if every key can be pasted: no statement is refused for a NULL in a NOT NULL column |
| Rollback.RollbackExactIff | crates/forge-index-db/src/reorg.rs:109-246 | for tables without foreign keys or secondary unique indexes, every rollback of a history, from every block and in every order of ties, runs to its end and is exact if and only if every recorded key can be pasted and every block is settled: the rows whose undo goes to one key take it from after the block to before it in any order (which its key, operations and pre-images tell), and none of them sets a NOT NULL column to NULL; conflicting inserts and writes that find no row included |
| Rollback.PlainRollbackExactIff | crates/forge-index-db/src/reorg.rs:109-246 | for text keys without apostrophes that is: in every block, no key present before it is inserted in it, no key absent before it is deleted in it, every recorded pre-image reads back as the row from before the block, and no update of a key new in the block has a pre-image with a NOT NULL column that is not text |
| Rollback.OnceIsUndoableIff | crates/forge-index-db/src/reorg.rs:58-246 | with text columns, plain keys and at most one write per key and block, every rollback is exact if and only if no insert meets a key that is there and no delete one that is not |
| BlockUndo.BlockUndoExact | crates/forge-index-db/src/reorg.rs:144-240 | settled rows of one block, undone in any order, give back the table from before the block, and none is refused |
| BlockUndo.BlockUndoFails | crates/forge-index-db/src/reorg.rs:126-240 | if the rows of a block are not settled, or a key cannot be pasted, some order of them stops or restores a wrong table |
| BlockUndo.BlockUndoIff | crates/forge-index-db/src/reorg.rs:126-240 | for any rows and any two tables: every order of the rows is replayed to the end and leads from one table to the other if and only if the rows are settled and every key can be pasted |
| Rollback.RollbacksCompose | crates/forge-index-db/src/reorg.rs:109-246 | rollback from b2 and then from b1 <= b2 undoes the same rows and leaves the same log as a rollback from b1 |
| Rollback.RollbackFactors | crates/forge-index-db/src/reorg.rs:109-246 | conversely every rollback from b1 is one from b2 followed by one from b1 |
| Rollback.RollbackRepeats | crates/forge-index-db/src/reorg.rs:109-246 | a repeated rollback finds nothing to undo |
| Rollback.ClearHarmlessIff | crates/forge-index-db/src/reorg.rs:249-264 | clearing the log before f leaves the possible rollbacks from b unchanged if and only if the log has no row in [b, f) |
| RollbackCases.TiesMatter | crates/forge-index-db/src/reorg.rs:126-127 | any text row set to another value and back in one block: if the rows come back in the order of recording, the rollback leaves the other value |
| RollbackCases.TextMatters | crates/forge-index-db/src/reorg.rs:172-212 | one update of a row with a column that is not text: if no such column is NOT NULL, the rollback sets it to NULL; otherwise the undo is refused and the new row stays |
| RollbackCases.NewRowSticks | crates/forge-index-db/src/reorg.rs:126-212 | a row inserted and then updated in one block, with a NOT NULL column that is not text: if the update comes back first, its undo is refused and nothing is rolled back |
| RollbackCases.PairedApostrophes | crates/forge-index-db/src/reorg.rs:146-153 | undoing the insert of a key whose apostrophes come in pairs leaves its row and deletes that of the key it reads back as |
| ReorgStores.ReorgStore.RecordFlush | crates/forge-index-db/src/reorg.rs:58-103 | appends the inverse operation of each row, with its columns, under the block number, up to the first row without a key or a required column; fails on such a row, or on an unknown table if there is a row |
| ReorgStores.ReorgStore.RollbackFromBlock | crates/forge-index-db/src/reorg.rs:109-246 | replays the rows, newest block first, up to the first that cannot be replayed: its key is not text, or does not paste into a DELETE or UPDATE, or the statement would set a NOT NULL column to NULL; the log is cut only if all succeed, and a failure leaves the rows before it undone |
| ReorgStores.ReorgStore.ClearBeforeBlock | crates/forge-index-db/src/reorg.rs:249-264 | keeps exactly the shadow rows at or after the block |
| ReorgStores.RecordingPreImages | crates/forge-index-db/src/reorg.rs:58-106 | recording each write's pre-image as a flush produces exactly the log of the rollback theorems, write by write, and no recording is refused |
| Chain.ForkPointExact | crates/forge-index-sync/src/reorg/detector.rs:105-155 | on a gap-free linked state and a canonical node, a stored block agrees with the node if and only if it is numbered below the fork found; the search gives up with a deep reorg if and only if all of the last 128 numbers are stored and none agrees |
| Chain.WalkFacts | crates/forge-index-sync/src/reorg/detector.rs:119-155 | on any state, what a walk back from n establishes of the numbers it passed, and that it errs only on a node failure or an exhausted window |
| Decisions.DecideExact | crates/forge-index-sync/src/reorg/detector.rs:56-155 | what the detector answers to a block on every ascending state and node, from stored entries and node answers alone: normal, with the block stored and the oldest of 128 entries evicted, unless the parent is stored under another hash; then a reorg at f if and only if f - 1 is the highest of the 128 numbers below the block that is not stored or is the node's, and the state left is the entries below f; an RPC error if and only if the node fails for a number that the search gets to; a deep reorg if and only if all 128 are stored and orphaned; on an error the state stays |
| Decisions.DecideAlone | crates/forge-index-sync/src/reorg/detector.rs:56-112 | without a client for the chain: the same, and a block that contradicts its parent is an error |
| Decisions.AnsweringNode | crates/forge-index-sync/src/reorg/detector.rs:105-155 | with a node that answers, such a block is a reorg if and only if one of the 128 numbers below it is not stored or is the node's |
| Decisions.TwoBlocksDeep | crates/forge-index-sync/src/reorg/detector.rs:56-155 | with blocks 2 and 3 orphaned, block 4 is a reorg at 2 and leaves block 1 |
| Chain.ReorgLeavesCanonical | crates/forge-index-sync/src/reorg/detector.rs:75-95 | after a reorg on any ascending, linked state: the state is the prefix below the fork, no canonical block was dropped, and what is left is canonical if and only if every block left below a gap is |
| Chain.GapFreeReorg | crates/forge-index-sync/src/reorg/detector.rs:75-95 | without gaps exactly the canonical blocks are left |
| Chain.ReorgPrunes | crates/forge-index-sync/src/reorg/detector.rs:75-95 | on any ascending state a reorg leaves a prefix below the fork, and the fork is positive and at most the new tip |
| Chain.RunKeepsInvariant | crates/forge-index-sync/src/reorg/detector.rs:56-102 | over every run with advancing block numbers the state stays strictly ascending, within 128 entries, with neighbours parent-linked |
| Chain.AscendingIff | crates/forge-index-sync/src/reorg/detector.rs:56-102 | an accepted block keeps the state ascending if and only if its number exceeds the stored tip |
| Chain.PrunedExact | crates/forge-index-sync/src/reorg/chain_state.rs:50-58 | pruning an ascending state leaves exactly the entries numbered at most k, as a prefix |
| Chain.ReorgLeavesHole | crates/forge-index-sync/src/reorg/detector.rs:75-95 | the block that triggers a reorg is not stored, the next one is accepted without a check, and the numbers from the fork to it stay missing |
| Chain.GapHidesOrphan | crates/forge-index-sync/src/reorg/detector.rs:119-155 | with blocks 2 and 4 stored, orphaned, and 3 missing, a reorg at 5 leaves the orphaned block 2 |
| Detector.ChainState.Push | crates/forge-index-sync/src/reorg/chain_state.rs:29-34 | appends and evicts the oldest entry beyond capacity |
| Detector.ChainState.PruneAbove | crates/forge-index-sync/src/reorg/chain_state.rs:50-58 | pops entries from the back while they are numbered above k |
| Detector.ReorgDetector.FindForkPoint | crates/forge-index-sync/src/reorg/detector.rs:105-155 | the loop returns what the recursive fork search returns, on any state and node, and ends; a chain without state or client is not found |
| Detector.ReorgDetector.ProcessBlock | crates/forge-index-sync/src/reorg/detector.rs:56-102 | result and new state are those of the decision function, and other chains' states do not change |
| Detector.ReorgDetector.SeedBlock | crates/forge-index-sync/src/reorg/detector.rs:166-171 | seeds one chain's state and no other |
| Flush.FlushIff | crates/forge-index-db/src/buffer.rs:119-303 | inserts, then updates, then deletes give the table of the arrival order if and only if every key's operations survive regrouping: nothing is inserted after its last delete, and updates before the insert of an absent row are overwritten or have no effect |
| Flush.InOrderFlush | crates/forge-index-db/src/buffer.rs:119-303 | if for each key no insert follows an update or delete and no update follows a delete, the flush equals arrival order |
| Flush.UpdateBeforeInsertDiffers | crates/forge-index-db/src/buffer.rs:130-175 | an update of a row followed by its insert: arrival order leaves the inserted value, the flush the updated one |
| Buffer.Split | crates/forge-index-db/src/buffer.rs:130-150 | the three lists hold exactly the operations of their kind, each in arrival order |
| Buffer.WriteBuffer.InsertRow | crates/forge-index-db/src/buffer.rs:73-83 | refuses a row when the table's buffer is full and changes no other table |
| Buffer.WriteBuffer.UpdateRow | crates/forge-index-db/src/buffer.rs:86-91 | is never refused, whatever the buffer's size |
| Buffer.WriteBuffer.DeleteRow | crates/forge-index-db/src/buffer.rs:94-101 | is never refused; a delete by another column carries no key |
| Buffer.WriteBuffer.FlushTable | crates/forge-index-db/src/buffer.rs:119-178 | takes the rows before writing, so a failed statement loses the rows behind it and keeps what was written; the counter grows only on success |
| Buffer.WriteBuffer.WriteStatements | crates/forge-index-db/src/buffer.rs:152-303 | writes inserts, updates and deletes in that order up to the failing statement; an update that sets nothing and a delete without keys are not issued and cannot fail |
| Buffer.WriteBuffer.FlushAll | crates/forge-index-db/src/buffer.rs:104-116 | flushes tables in any order until one fails |
| Buffer.FlushNamesPasses | crates/forge-index-db/src/buffer.rs:104-178 | a flush of several tables touches only these, each of them as one flush would, and success empties every one |
| BufferEffects.FlushOneExact | crates/forge-index-db/src/buffer.rs:119-303 | flushing one table in terms of its buffered rows: they leave the buffer and take effect inserts first, then updates, then deletes, in order within each kind, up to the first statement that fails; an UPDATE row sets exactly the schema columns it carries, on an existing key, a DELETE row removes its key, any other is inserted with NULL for missing columns if its key is free, and nothing else changes; it fails if and only if an inserted row has no key or the failing statement is issued |
| BufferEffects.FlushNamesExact | crates/forge-index-db/src/buffer.rs:104-178 | flushing several tables: the first k come out as from a flush of their own, the next one fails, and no other table or buffer changes |
| BufferEffects.EffectUnique | crates/forge-index-db/src/buffer.rs:189-303 | a row's effect determines the table |
| BufferEffects.LeadsUnique | crates/forge-index-db/src/buffer.rs:119-303 | so do the effects of a sequence of rows |
| BufferEffects.InOrderLeads | crates/forge-index-db/src/buffer.rs:119-303 | for rows in which no insert follows an update or delete of its key and no update a delete, a successful flush has the effects in the order of arrival |
| BufferEffects.CallsThenFlush | crates/forge-index-db/src/buffer.rs:73-178 | any sequence of insert, update and delete calls for one table and one flush: it fails if and only if an inserted row has no key, and else the table is the one that the calls' rows lead to |
| Planner.MakePlan | crates/forge-index-sync/src/backfill/planner.rs:50-85 | the loop's ranges are the chunks from the checkpoint or start block, and the total is the number of blocks |
| Planner.ChunksPartition | crates/forge-index-sync/src/backfill/planner.rs:60-85 | ranges partition [start, current] in order, each at most chunk_size long, and their lengths add up to the total |
| Planner.ChunksCount | crates/forge-index-sync/src/backfill/planner.rs:60-85 | there are as many ranges as chunks are needed, no more |
| Planner.PartitionCovers | crates/forge-index-sync/src/backfill/planner.rs:60-85 | every block lies in exactly one range |
| Delivery.FetchRange | crates/forge-index-sync/src/backfill/worker.rs:63-108 | fails if and only if a log with a known selector is malformed; otherwise gives the decodable logs sorted by position |
| Delivery.SortedInPosition | crates/forge-index-sync/src/backfill/worker.rs:100-108 | sorted events are the same events, lower blocks first and lower log indexes first within a block |
| LogFetch.FetchLogs | crates/forge-index-sync/src/backfill/worker.rs:63-108 | fetching with the decoder of an ABI: fails if and only if some log is malformed, else gives the decoded events sorted by position |
| LogFetch.FetchesCarried | crates/forge-index-sync/src/backfill/worker.rs:78-108 | logs that carry encodings of the ABI's events, mixed with any logs of other selectors, are fetched, and give exactly the events carried, by block and log index |
| Delivery.DeliveryIsSorted | crates/forge-index-sync/src/backfill/coordinator.rs:116-167 | with one start block for all contracts and unique positions, handlers get the sort of all events, each once, whatever the chunk size |
| DeliveryOrder.BlockOrderIff | crates/forge-index-sync/src/backfill/coordinator.rs:116-167 | delivery is in order of position for every node if and only if one range is enough for every contract, or all contracts that have blocks to fetch start at the same one |
| DeliveryOrder.DeliveredOnce | crates/forge-index-sync/src/backfill/coordinator.rs:116-167 | whatever the starts and the chunk size, every event from a contract's start to the head is delivered exactly once |
| DeliveryOrder.BlockOrderMeans | crates/forge-index-sync/src/backfill/coordinator.rs:116-167 | ordered delivery is every wanted event, lower blocks first and lower log indexes first within a block |
| Resumption.DeliversFrom | crates/forge-index-sync/src/backfill/coordinator.rs:88-167 | a start delivers each event of a contract from its checkpoint, or from its start block if it has none that can be read, to the head as often as the node has it, and none of its events in other blocks |
| Resumption.ResumesAtCheckpoint | crates/forge-index-sync/src/backfill/coordinator.rs:88-167 | with a checkpoint that can be read no event of a block below it is delivered, and every one from it to the head is |
| Resumption.CheckpointsNeverDecrease | crates/forge-index-sync/src/backfill/coordinator.rs:88-265 | over every sequence of starts that read all checkpoints, whatever else goes wrong, no checkpoint ever decreases |
| Resumption.CompleteStart | crates/forge-index-sync/src/backfill/coordinator.rs:77-268 | after a start whose ranges all complete and save, every contract with blocks to index has its checkpoint one past the head, and every row that its events up to the head give is in its table |
| Resumption.InterruptedStart | crates/forge-index-sync/src/backfill/coordinator.rs:130-246 | a flush that stops in the first range writes the rows of exactly the tables it got to and saves no checkpoint; a failed fetch changes nothing |
| Resumption.NextEventHandled | crates/forge-index-sync/src/backfill/coordinator.rs:165-233 | a handler that finds a buffer full stops, and the next event is handled all the same |
| Delivery.DifferentStartsDisorder | crates/forge-index-sync/src/backfill/coordinator.rs:116-167 | contracts that start at blocks 0 and 2 deliver an event of block 2 before one of block 1 |
| BackfillRuns.CheckpointsAlwaysSafe | crates/forge-index-sync/src/backfill/coordinator.rs:77-268 | over every sequence of starts, unread checkpoints, failed fetches, interrupted flushes and lost checkpoint writes, without buffer overflow: for every row of every block in [start, checkpoint) of each contract there is a row under its key in its table; rows there at first are unchanged, and every other row is, with all its columns, one that some event gives for that table and key |
| BackfillRuns.CheckpointedRows | crates/forge-index-sync/src/backfill/coordinator.rs:77-268 | if events never give two different rows for one key, every row of a block below the checkpoint is in its table as emitted, unless its key was taken before the first run |
| Workers.WorkersNeededIff | crates/forge-index-sync/src/backfill/coordinator.rs:130-162 | measured by what the node knows, checkpoints are safe for every node, handler, buffer size, database and sequence of starts if and only if every contract has a worker |
| BackfillSafety.WrittenAdds | crates/forge-index-sync/src/backfill/coordinator.rs:165-246 | flushing a batch keeps every row already there with its columns, adds a row under every key its events give, and adds no row that its events do not give |
| BackfillSafety.SavedIs | crates/forge-index-sync/src/backfill/coordinator.rs:248-265 | a saved checkpoint is one past the range's last block and no other contract's checkpoint moves |
| CrashRuns.CrashesLeaveNoTrace | crates/forge-index-sync/src/backfill/coordinator.rs:77-268 | for one contract with insert-only handlers, any sequence of crashes, even between tables of one flush, unread checkpoints, failed checkpoint writes and restarts with other chunk sizes and heads, ended by a complete run, leaves the tables of one uninterrupted run |
| CrashSafety.Advance | crates/forge-index-sync/src/backfill/coordinator.rs:165-246 | handling blocks again, or for the first time, moves a table's frontier to the end of the range and never changes what was there |
| Backfill.BufferedRows | crates/forge-index-sync/src/backfill/coordinator.rs:165-233 | without overflow the buffer holds exactly the rows that a batch's events give, in order |
| Backfill.EnqueueStops | crates/forge-index-db/src/buffer.rs:73-83 | a handler's rows are buffered in order up to the first that finds its table's buffer full |
| Coordinator.BackfillCoordinator.RunChain | crates/forge-index-sync/src/backfill/coordinator.rs:77-268 | the nested loops change tables and checkpoints as the run function says, for every fate of every range, and report success if and only if every range completed |
| Coordinator.BackfillCoordinator.BuildPlans | crates/forge-index-sync/src/backfill/coordinator.rs:88-113 | one plan per contract, from its checkpoint if it has one that can be read, else from its start block |
| Coordinator.BackfillCoordinator.GatherEvents | crates/forge-index-sync/src/backfill/coordinator.rs:116-162 | merges the i-th ranges of all contracts that have one and a worker |
| Coordinator.BackfillCoordinator.SaveCheckpoints | crates/forge-index-sync/src/backfill/coordinator.rs:248-265 | saves range end plus one for the contracts whose write succeeds |
| BufferedInserts.InsertsFlushAsWritten | crates/forge-index-db/src/buffer.rs:119-303 | rows that handlers insert come out of the regrouping flush as they would one by one |
| BufferedInserts.FlushIsWritten | crates/forge-index-db/src/buffer.rs:104-178 | flushing buffered inserts table after table until one is refused writes exactly the tables before that one, which is the interrupted flush of the backfill theorems |
| Workers.MissingWorkerLosesRows | crates/forge-index-sync/src/backfill/coordinator.rs:130-265 | for any contracts, one that has no worker gets a checkpoint past a block whose row is missing |
| AbiEvents.EventRoundTrip | crates/forge-index-core/src/abi/decoder.rs:74-115 | decoding a log that carries the specified encoding of any values of the supported types gives these values under their names, in order, except that a negative number of exactly 128 bits makes it overflow |
| AbiEvents.EventDecodes | crates/forge-index-core/src/abi/decoder.rs:74-115 | the same with names that repeat: of values with one name the last is kept, in the place of the first |
| AbiEvents.InvalidSelectorIff | crates/forge-index-core/src/abi/decoder.rs:74-80 | decoding with the decoder of an ABI answers InvalidSelector if and only if the log has no topic or no event of the ABI has its first topic for selector; any other failure is a mismatch or an overflow |
| AbiEvents.TooFewTopics | crates/forge-index-core/src/abi/decoder.rs:87-96 | a log with fewer topics than its event has indexed inputs is malformed |
| AbiEvents.EncodingInjective | crates/forge-index-core/src/abi/decoder.rs:74-115 | one log cannot carry two different lists of values |
| AbiEvents.Decode | crates/forge-index-core/src/abi/decoder.rs:74-115 | the loop over inputs, topics and data offsets gives what the recursive decoder gives, errors included |
| AbiEvents.NewDecoder | crates/forge-index-core/src/abi/decoder.rs:65-71 | the loop indexes events by selector |
| AbiEvents.LastEventFound | crates/forge-index-core/src/abi/decoder.rs:65-71 | of several events with one selector the last one decodes |
| ParamMaps.PutNew | crates/forge-index-core/src/abi/decoder.rs:83-106 | a fresh name is appended to the insertion-ordered map |
| ParamMaps.PutAllCollects | crates/forge-index-core/src/abi/decoder.rs:83-106 | inserting entries one by one leaves one per name, in the order of the first ones, each with the value of the last one |
| AbiRoundTrip.TopParam | crates/forge-index-core/src/abi/decoder.rs:137-207 | every supported parameter is read back from its head and tail: one-word types, fixed arrays of elements that take one word, nested static tuples, bytes, string, arrays of static types, and tuples of all these |
| AbiRoundTrip.TupleParam | crates/forge-index-core/src/abi/decoder.rs:209-232 | tuple members are found through offsets relative to the tuple's base |
| AbiRoundTrip.StaticItems | crates/forge-index-core/src/abi/decoder.rs:288-307 | consecutive static elements of any size are read back in order |
| AbiRoundTrip.WordRoundTrip | crates/forge-index-core/src/abi/decoder.rs:118-164 | a one-word value survives encoding and decoding unless it is a negative 128-bit number |
| AbiRoundTrip.UsizeRoundTrip | crates/forge-index-core/src/abi/decoder.rs:384-394 | offsets and lengths below 2 to the 64 are read exactly |
| AbiNumbers.IntRoundTrip | crates/forge-index-core/src/abi/decoder.rs:343-368 | sign extension is right for every width from 1 to 256 and every value, and overflows exactly for negative values of width 128 |
| AbiNumbers.UintRoundTrip | crates/forge-index-core/src/abi/decoder.rs:330-341 | unsigned numbers of every width are read exactly, as text above 128 bits |
| AbiArrays.FixedArrayAdvance | crates/forge-index-core/src/abi/decoder.rs:178-193 | a fixed array of static elements is read rightly, but the next parameter is found if and only if the array is empty or its elements are one word long |
| AbiSupport.SupportedIff | crates/forge-index-core/src/abi/decoder.rs:137-327 | for every valid type whose element or member types are supported: all its values are read back, wherever head and tail lie, if and only if it is supported itself; so support ends at arrays of dynamic elements, fixed arrays of elements that do not take one word, and dynamic tuples inside tuples |
| AbiLimits.ShortData | crates/forge-index-core/src/abi/decoder.rs:370-382 | a word, pointer or length beyond the end of the data is a mismatch |
| AbiLimits.PointerRead | crates/forge-index-core/src/abi/decoder.rs:384-394 | pointers and lengths below 2 to the 64 are read, larger ones are a mismatch |
| AbiLimits.CutOff | crates/forge-index-core/src/abi/decoder.rs:275-286 | bytes that claim more than there is are cut off at the end of the data |
| AbiLimits.UnusedBytes | crates/forge-index-core/src/abi/decoder.rs:118-164 | numbers of at most 128 bits come from the low 16 bytes uncut, addresses from the low 20, and any nonzero last byte is true |
| AbiDecoder.DecodeParam | crates/forge-index-core/src/abi/decoder.rs:137-207 | the decoder with its loops gives what the recursive decoder gives, for every type, data and offset |
| AbiDecoder.DecodeTupleAt | crates/forge-index-core/src/abi/decoder.rs:209-232 | the loop over members gives the recursive result and the size of the heads |
| AbiDecoder.DecodeItems | crates/forge-index-core/src/abi/decoder.rs:288-327 | the loop over elements gives the recursive result |
| AbiDecoder.SlotToUsize | crates/forge-index-core/src/abi/decoder.rs:384-394 | a slot with a nonzero high byte is refused |
| AbiTypes.TypeRoundTrip | crates/forge-index-core/src/abi/parser.rs:141-181 | parsing the printed text of a tuple-free type, at any nesting depth, gives the type |
| AbiTypes.ParserOnto | crates/forge-index-core/src/abi/parser.rs:141-181 | the types the parser can return are exactly the tuple-free ones with machine-word sizes |
| AbiTypes.RefusedIff | crates/forge-index-core/src/abi/parser.rs:141-181 | a text is refused if and only if what is left of it without its array suffixes is none of address, bool, string, bytes, a text that starts with uint or int, or bytes and a number; the error carries that rest |
| AbiTypes.PrinterInjective | crates/forge-index-core/src/abi/types.rs:43-60 | different tuple-free types have different texts |
| AbiTypes.ParseDecimal | crates/forge-index-core/src/abi/parser.rs:141-181 | a printed number is read back, and refused if it does not fit a machine word |
| Utf8.LossyIff | crates/forge-index-core/src/abi/decoder.rs:169-173 | the lossy conversion always gives well-formed UTF-8, and the same bytes if and only if they were well-formed |
| Utf8.LossyReplaces | crates/forge-index-core/src/abi/decoder.rs:169-173 | well-formed text in front is kept, the ill-formed part behind it becomes one U+FFFD, and the conversion goes on after that part |
| Utf8.BrokenIsLongest | crates/forge-index-core/src/abi/decoder.rs:169-173 | the part replaced at once is the longest beginning of a character, or one byte if none begins there |
| Utf8.WidthIsCharacter | crates/forge-index-core/src/abi/decoder.rs:169-173 | a start counts as well-formed only if it is the encoding of a Unicode scalar value |
| CacheTransparency.TransparentIff | crates/forge-index-rpc/src/cached_client.rs:75-93 | for any set of filters in use, every reply over every call sequence is the node's answer if and only if filters stored under the same columns have the same answer and other filters share no log or all of them |
| CacheTransparency.AlwaysTransparentIff | crates/forge-index-rpc/src/cache/store.rs:106-176 | if storing may stop after any statement, no answer may have more than one log |
| CacheTransparency.DisjointFilters | crates/forge-index-rpc/src/cached_client.rs:75-93 | filters without wildcards whose answers share no log are served transparently, empty answers included |
| CacheStamps.StampsIdentify | crates/forge-index-rpc/src/cache/store.rs:39-52 | without wildcard positions the stored columns determine the filter |
| CacheStamps.WildcardsCollide | crates/forge-index-rpc/src/cache/store.rs:40-52 | a wildcard before a topic is stored like a wildcard after it |
| LogCache.RowRoundTrip | crates/forge-index-rpc/src/cache/store.rs:381-401 | a log survives the signed columns for every unsigned value |
| CacheRows.AnswerRoundTrip | crates/forge-index-rpc/src/cached_client.rs:78-87 | the sentinel of an empty answer comes back with the largest index and is dropped; real logs are kept |
| CacheTransparency.HalfStored | crates/forge-index-rpc/src/cache/store.rs:125-152 | an answer stored halfway is later taken for the whole |
| CacheHits.StaysCached | crates/forge-index-rpc/src/cached_client.rs:75-93 | between filters that the cache keeps apart: a filter once served from the table is served so for good, with the node's answer, whatever calls come in between and with the node down |
| CacheHits.FirstAnswerCached | crates/forge-index-rpc/src/cached_client.rs:75-93 | an answer stored in an empty table, even an empty answer, is served without the node from then on |
| LogCache.RpcCacheStore.GetLogs | crates/forge-index-rpc/src/cache/store.rs:34-103 | a miss if no row matches, else the matching rows in order of position |
| LogCache.RpcCacheStore.PutLogs | crates/forge-index-rpc/src/cache/store.rs:106-176 | inserts row by row, doing nothing on conflict, up to the failing statement; a sentinel for an empty answer |
| LogCache.CachedRpcClient.GetLogs | crates/forge-index-rpc/src/cached_client.rs:75-93 | reply, table and counters of one call, whatever fails |
| Dedup.ReachableIsSafe | crates/forge-index-rpc/src/dedup.rs:35-76 | in every reachable state of any number of tasks at most one closure per key runs, no closure is taken twice, and every returned call has the result of a leader for its own key whose run overlapped the call |
| Dedup.RunKeepsInvariant | crates/forge-index-rpc/src/dedup.rs:35-76 | every interleaving of the protocol's steps keeps the invariant |
| Dedup.NoDeadlock | crates/forge-index-rpc/src/dedup.rs:35-76 | as long as a call has not returned, some task can act |
| Dedup.WaiterUnblocks | crates/forge-index-rpc/src/dedup.rs:44-56 | a waiter whose leader has returned can always go on |
| Dedup.BoundFromStart | crates/forge-index-rpc/src/dedup.rs:35-76 | n tasks take at most 7n^2 + 8n steps, retries included, so no run retries forever |
| DedupSharing.JoinedShares | crates/forge-index-rpc/src/dedup.rs:44-76 | over every run: a call whose lookup finds its key in flight, with nothing sent yet, never uses its closure, never retries, and returns what that leader sent and returns |
| DedupSharing.OneRequest | crates/forge-index-rpc/src/dedup.rs:35-76 | if all calls of a key look it up before its leader sends, exactly one of them uses its closure and all that return have its result |
| DedupSharing.OwnAnswer | crates/forge-index-rpc/src/dedup.rs:58-76 | a call whose closure ran returns what the closure answered |
| RateLimiter.RateBound | crates/forge-index-rpc/src/rate_limiter.rs:27-75 | in any window of any call sequence, successes number at most the capacity plus the rate times the window's length |
| RateLimiter.Conservation | crates/forge-index-rpc/src/rate_limiter.rs:27-41 | tokens handed out and left never exceed tokens present and flowed in |
| RateLimiter.StaysSound | crates/forge-index-rpc/src/rate_limiter.rs:27-52 | tokens stay between zero and capacity in every reachable state |
| RateLimiter.WaitIsExact | crates/forge-index-rpc/src/rate_limiter.rs:44-52 | a later try succeeds if and only if the announced wait has passed |
| RateLimiter.ZeroNeverAcquires | crates/forge-index-rpc/src/rate_limiter.rs:18-41 | a limit of zero lets nobody through |
| RateLimiter.FullAfterPause | crates/forge-index-rpc/src/rate_limiter.rs:18-52 | after a pause in which its rate fills it up, a bucket with a capacity of m lets exactly m of any larger number of tries through at once |
| RateLimiter.TokenBucket.TryAcquire | crates/forge-index-rpc/src/rate_limiter.rs:34-41 | refills, then takes a token if there is a whole one |
| RateLimiter.TokenBucket.Acquire | crates/forge-index-rpc/src/rate_limiter.rs:64-75 | without competitors, takes a token at the first moment there is one |
| CursorWalk.WalkCompleteIff | crates/forge-index-api/src/graphql/resolver.rs:41-158 | following end cursors yields every matching row exactly once, in order, if and only if the rows fit on one page, or the order is ascending, no order value is null, keys are text, and the cursor of every page end reads back between that row and the next; it then takes the least number of pages |
| CursorWalk.ExactCursorsSuffice | crates/forge-index-api/src/graphql/resolver.rs:41-158 | text keys without apostrophes and order values that JSON holds exactly are enough for every ascending query without nulls |
| CursorWalk.BigNumberRepeats | crates/forge-index-api/src/graphql/resolver.rs:134-166 | ordered by amounts of 10^20 + 1 and above with one row per page, the first page comes again and again: no walk ends |
| CursorWalk.QuotedKeyStops | crates/forge-index-api/src/graphql/resolver.rs:74-84 | a key that cannot be pasted into the next query ends every walk at its page |
| CursorWalk.PairedKeyRepeats | crates/forge-index-api/src/graphql/resolver.rs:74-84 | of two rows with one order value, if the first key reads back from its literal as an earlier one, its page comes again and again |
| CursorWalk.Endless | crates/forge-index-api/src/graphql/resolver.rs:74-84 | a cursor that reads back before the first row makes the walk endless |
| CursorWalk.PageCountIs | crates/forge-index-api/src/graphql/resolver.rs:59-62 | the number of pages is the number of rows over the limit, rounded up, and at least one |
| CursorWalk.LeftAfter | crates/forge-index-api/src/graphql/resolver.rs:74-84 | the query after a cursor returns the matching rows that exceed the position it reads back as, in order |
| Pagination.ResolveList | crates/forge-index-api/src/graphql/resolver.rs:41-158 | one page: limits are capped at 1000, one row more than the limit tells whether there is a next page, a limit below -1 or a cursor key that cannot be pasted is an error |
| Pagination.ChosenExact | crates/forge-index-api/src/graphql/resolver.rs:41-130 | the rows behind a page are those that meet the filter, come behind the after cursor and ahead of the before cursor, each as often as the table has it, in order of value and key with nulls as the highest |
| Pagination.PageExact | crates/forge-index-api/src/graphql/resolver.rs:59-158 | a page has the first of them, as many as asked for, at most 1000 and by default 100; there is a next page if and only if more are left |
| Base64.RoundTrip | crates/forge-index-api/src/graphql/pagination.rs:37-95 | encoding then decoding returns the original if and only if it is UTF-8, as every string is |
| Base64.BytesRoundTrip | crates/forge-index-api/src/graphql/pagination.rs:37-95 | the decoded bytes of an encoding are the original ones, for every byte string |
| Base64.EncodedShape | crates/forge-index-api/src/graphql/pagination.rs:37-61 | the encoding has 4 * ceil(n / 3) bytes, with padding at the end and only there, as section 4 of RFC 4648 requires |
| Base64.RebuiltIff | crates/forge-index-api/src/graphql/pagination.rs:37-95 | a text survives decoding and encoding if and only if it is canonical (section 3.5 of RFC 4648), and the canonical texts are exactly the encodings |
| Base64.EncodedAt | crates/forge-index-api/src/graphql/pagination.rs:37-61 | each group of four letters stands for the same number, in base 64 and the alphabet of section 4 of RFC 4648, as its three bytes in base 256; missing bytes count as zero and letters made of nothing else are padding |
| Base64.UnpackedAt | crates/forge-index-api/src/graphql/pagination.rs:63-95 | conversely each group of four values gives the three bytes of the same number, as far as it has values |
| Base64.ValueIs | crates/forge-index-api/src/graphql/pagination.rs:63-95 | a letter of the alphabet has its position for value, any other byte zero |
| Base64.Encode | crates/forge-index-api/src/graphql/pagination.rs:37-61 | the loop over chunks, with its shifts and masks, gives the specified encoding |
| Base64.Decode | crates/forge-index-api/src/graphql/pagination.rs:63-95 | drops trailing padding, reads unknown bytes as zero, ignores a single left-over value, and fails exactly on ill-formed UTF-8 |

## Choices

- `record_flush` is called nowhere outside tests, so the realtime loop as it stands undoes nothing
  (`UnrecordedRuns`). The rollback theorems, and those of `EndToEnd` and `Runs`, are about tables whose writes are
  recorded write by write with their pre-images, which `Arrival.recorded` and `Kept` make explicit.
- A row whose key is not text stops a rollback. A key is pasted into a DELETE or UPDATE as it is: pairs of
  apostrophes read back as one, so that another key may be meant; a single one ends the literal, and the model takes
  the statement to be refused, whatever the rest of the key would say. The model's `Null` key stands for a missing key.
- The tables of the rollback theorems have no foreign keys and no unique indexes beside their primary key, either of
  which can refuse an undo statement as well. NOT NULL columns are part of the model (`Schema`).
- `columns` are the columns other than the key. A shadow row keeps all of them, a row operation only those it sets.
- One chain per reorg store: the shadow log is keyed by block number only.
- What befalls a backfill range is one of three fates: it ends before its flush (a failed fetch or a panicking
  handler), its flush stops after some tables, or it completes and saves some of the checkpoints. Killing the
  process is having no fate left. A range whose handlers overflow a buffer drops the rows that do not fit, as the
  logged handler error does; the safety theorems ask for enough room.
- A contract without a worker is a contract whose logs are not seen. A checkpoint that cannot be read counts as none.
- Order values and keys of a list query are ranks. What a cursor does to them on its way through JSON and SQL is a
  parameter of the query (`Wire`), so that the theorems hold for every column type.
- Numbers of the rate limiter are real numbers.
- The ABI decoder is modelled with overflow checks on: a shift by 128 is an error value. Without the checks the
  program decodes every negative 128-bit number as -1.
- `docs/architecture.md:102-114` says that after a reorg indexing resumes from the fork block. The code goes on with
  the next block (`Chain.ReorgLeavesHole`), and `handler.rs` computes the checkpoint it announces but does not store it.
  The model follows the code.
- The total count of a list query is documented as being without pagination, but the query counts under the
  cursor condition too. The model follows the code.

## Left out

- Servers, middleware, metrics, logging, command line, file watcher, process manager, shutdown: plumbing.
- SQL text otherwise: what a key with a single apostrophe makes of the rest of its statement; foreign keys and
  secondary unique indexes. In a flush they, and NOT NULL columns, are among the reasons for which a statement may
  fail at any point.
- The block cache in front of the fork search: it can answer with blocks from before a reorg, so the node is taken
  to answer with the current canonical chain.
- Eviction of requests in flight after 30 seconds, and leaders whose task is dropped.
- Rounding of the token bucket's floating-point numbers.
- The JSON text of a cursor; the `before` cursor is modelled in a page but no walk backwards is.
- Cached blocks, transactions and calls: key-value stores without the shared primary key that makes logs hard.
- The `id` of a log, which is its block hash and index on either path; the hexadecimal text of hashes and addresses.
- Machine-word overflow of offsets and lengths in the ABI decoder beyond 2 to the 64, and memory for announced
  array lengths.
- ABI types built from unsupported ones, and those that Solidity cannot declare (arrays of length zero, empty
  structs): the decoder's behaviour on them is modelled, but which of their values it happens to read is not stated.
- Parsing of the JSON ABI, selectors by keccak256, tuple types in type texts.
- Background flush, retry policy, finality depth, progress figures, factory addresses: not started by the runner or
  easy.
- Buffer.WriteBuffer.FlushAll: writes to the buffer by other tasks during a flush are not modelled.
