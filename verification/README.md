# Quenero block store and quorum mesh, modelled in Dafny

This project models four parts of the Quenero node and proves what holds over every input, every
run, or every reachable state.

- **The block store** (`src/blockchain_db`). `StoreSpec` gives the tables of the storage engine and
  each step of `add_block` and `pop_block` as functions that also return the tables a throw leaves
  behind. `BlockStore` is the store as an object with its loops, proved equal to these functions.
  `StoreUndo` and `StoreExact` prove that a pop undoes an add, `StoreIntegrity` and `StoreSound` the
  invariant of the tables, `StoreAccept`, `StoreRefusal` and `StorePop` when an add or a pop throws and
  what a refused block leaves, `StoreBlacklist` what a block blacklists, `StoreHistory` history
  independence over runs with batches, aborts and throws, `StoreRct` and `StoreRctChain` the RingCT
  count. `StoreClient` states the main results on the store object.
- **The checkpoint table and finality** (`Checkpoints`, `Finality`).
- **The proof-of-work window cache** (`PowCache`) and **batch ownership** (`LockedTxn`).
- **The quorum mesh generator** (`MeshGraph` for the graph theory, `QuorumMesh` for the matrix code).

`dafny verify dfyconfig.toml` checks everything.

## How values are modelled

- Hashes, key images and keys are naturals. A transaction or block carries the hash that the program
  computes from it; the hashes of listed transactions are those the block lists, as in the source.
- The per-output arrays of a transaction (`output_unlock_times`, `rct_signatures.outPk`) sit inside
  the output they belong to. `stakes` stands for finding both tags that mark blacklisted outputs.
- Storage tables are maps. `MDB_APPEND` and `MDB_APPENDDUP` fail when a row at or after the new key
  exists. The `blocks` and `block_info` rows of a height are one record. A recorded index list that is
  missing or too short, which the program would read out of bounds, counts as an error.
- A failing call returns an `Outcome` instead of throwing. Popping an empty store gives no block
  where the program returns a default one next to the exception.
- Integers are unbounded; the one subtraction that could wrap is commented in `PowCache`.

## Where the code does not do what one would expect

Each has a concrete input and, for all inputs, the exact condition.

- A pop does not undo an add when a transaction was dropped for an unsupported input, or when a
  version 2 transaction has a generation input next to others: outputs go in by "some input is a
  generation input" and come out by "the only input is one" (`StoreExact.PopUndoesAddExactly`,
  `StoreFindings`).
- The abort on an unsupported input also removes images that other transactions had spent
  (`StoreUndo.UnsupportedInputAbort`).
- The output blacklist outlives a pop: it is as before exactly if it held the indices recorded for the
  block's version 2 stakes (`StoreBlacklist.BlockBlacklist`, `StoreClient.AddThenPop`,
  `StoreFindings.BlacklistOutlivesPop`).
- A first block added in a write transaction of its own leaves what it wrote when it throws, because
  the guard commits as it goes out of scope. Nothing is left exactly if the sizes differ, the miner
  transaction's first image is spent, or it has no images and its hash is stored
  (`StoreRefusal.ThrowLeavesTables`, `StoreHistory.StepBuilt`,
  `StoreFindings.FirstBlockLeavesTransaction`).
- A pop in a batch of a block that it does not undo leaves wrong tables in the batch, whether it throws
  or not; outside a batch a throw is rolled back (`StorePop.PopReturnsExactly`, `StoreHistory.StepBuilt`,
  `StoreFindings.DroppedTransactionBlocksPop`).
- The stored RingCT count drifts when the miner transaction has no generation input or a listed one
  has one, and restarts at a block before version 4 (`StoreRctChain.StoredCountsExactly`,
  `StoreFindings.MinerWithoutGenerationInput`).
- The comment at `src/blockchain_db/blockchain_db.cpp:374` says the first checkpoint returned is at
  or below the height. The range query moves the height up to the lowest stored checkpoint first, so
  below it a hard-coded checkpoint above the height is returned, and finality can move back
  (`Finality.TwoCheckpointsSuffice`, `Finality.InsertionMovesForwardExactly`).
- A difficulty query at chain height 1 leaves stale vectors marked as filled, and every further block
  gets a wrong window until the chain fills it (`PowCache.CacheEqualsRecompute`,
  `PowCache.StaleWindowLasts`).
- A handle whose commit fails keeps its flag and later aborts another handle's batch
  (`LockedTxn.StepOwned`, `LockedTxn.StaleOwnerAbortsAnother`). Even then every batch ends exactly once
  (`LockedTxn.AllBatchesEnd`).

## Model

| member | source | states |
|---|---|---|
| BlockStore.Store.AddSpentKey | src/blockchain_db/lmdb/db_lmdb.cpp:1329-1344 | A new image joins the spent set; a repeated one is refused and changes nothing. |
| BlockStore.Store.RemoveSpentKey | src/blockchain_db/lmdb/db_lmdb.cpp:1346-1364 | Set difference, without an error for an absent image. |
| BlockStore.Store.AddOutput | src/blockchain_db/lmdb/db_lmdb.cpp:1125-1189 | New output id, next index of the amount, commitment only under amount 0, and each throw with what it leaves. |
| BlockStore.Store.RemoveOutput | src/blockchain_db/lmdb/db_lmdb.cpp:1237-1273 | Removes the row and the id it names, or throws with nothing changed. |
| BlockStore.Store.AddTransactionData | src/blockchain_db/lmdb/db_lmdb.cpp:960-1045 | Files the transaction under the next id and its hash at the current height, or throws. |
| BlockStore.Store.AddTxAmountOutputIndices | src/blockchain_db/lmdb/db_lmdb.cpp:1191-1212 | Records the index list under the transaction id. |
| BlockStore.Store.AddInputs | src/blockchain_db/blockchain_db.cpp:107-130 | The input loop ends as the scan says: all images spent, a repeat refused, or all images of the transaction taken off again. |
| BlockStore.Store.AddOutputs | src/blockchain_db/blockchain_db.cpp:134-165 | The output loop leaves exactly the tables and index list of adding the outputs one by one. |
| BlockStore.Store.AddTransaction | src/blockchain_db/blockchain_db.cpp:76-171 | Every table and the blacklist after `add_transaction`, on every path. |
| BlockStore.Store.RemoveTxOutputs | src/blockchain_db/lmdb/db_lmdb.cpp:1214-1235 | Takes outputs off last to first under the removal rule for amounts. |
| BlockStore.Store.RemoveTransaction | src/blockchain_db/blockchain_db.cpp:255-269 | Every table after `remove_transaction`, on every path; the blacklist stays. |
| BlockStore.Store.AddBlock | src/blockchain_db/blockchain_db.cpp:173-230 | Every table and the blacklist after `add_block`, on every path, and the height of the block. |
| BlockStore.Store.AddRow | src/blockchain_db/lmdb/db_lmdb.cpp:846-921 | The block row with its cumulative RingCT count, or the exact throw. |
| BlockStore.Store.PopBlock | src/blockchain_db/blockchain_db.cpp:237-253 | Every table after `pop_block`, the top block and the popped transactions, on every path; the blacklist stays. |
| StoreUndo.ScanExactly | src/blockchain_db/blockchain_db.cpp:107-130 | The input loop refuses a repeat if and only if the images before the first unsupported input are not new and distinct, and otherwise stops at that input. |
| StoreUndo.RepeatLeavesEarlier | src/blockchain_db/blockchain_db.cpp:107-116 | A repeat is refused at the first input whose image is spent or met before, and exactly the images before it stay spent. |
| StoreUndo.UnsupportedInputAbort | src/blockchain_db/blockchain_db.cpp:118-129 | For every transaction with an unsupported input: if the images before it are new, the spent set loses all its images and nothing else changes, so it is the old set exactly when none was spent; if not, the repeat is refused. |
| StoreUndo.BlacklistIsRecordedIndices | src/blockchain_db/blockchain_db.cpp:93-105 | Blacklisted are exactly the recorded indices of an accepted version 2 stake. |
| StoreUndo.UndoOutputs | src/blockchain_db/lmdb/db_lmdb.cpp:1229-1234 | Removing a transaction's outputs last to first restores both output tables. |
| StoreUndo.UndoTransaction | src/blockchain_db/blockchain_db.cpp:255-269 | Removing a just added transaction restores all tables. |
| StoreUndo.PopUndoesAdd | src/blockchain_db/blockchain_db.cpp:237-253 | After add and pop the tables are as before, the block is the added one, its transactions come back in reverse. |
| StoreExact.PopUndoesAddExactly | src/blockchain_db/lmdb/db_lmdb.cpp:1229-1234 | For every store and accepted block: the pop restores the tables if and only if no transaction has an unsupported input and none is misfiled. |
| StoreExact.AddTransactionStores | src/blockchain_db/lmdb/db_lmdb.cpp:960-1045 | A stored transaction gets a fresh hash and id, and the rows under amount 0 grow by its outputs stored there. |
| StoreIntegrity.SlotsDistinct | src/blockchain_db/blockchain_db.cpp:132-170 | No two outputs share an amount and index. |
| StoreIntegrity.RowOfOutput | src/blockchain_db/blockchain_db.cpp:138-165 | The row and id of an output, written out: amount 0 from version 2 on with a generation input, the next index of that amount, the output's own unlock time from version 3 on, its key, height and commitment. |
| StoreIntegrity.OutputsAdded | src/blockchain_db/blockchain_db.cpp:138-165 | The rows and ids that a transaction's outputs add, with version-chosen unlock time, height and commitment, and no other change. |
| StoreIntegrity.AddTransactionIntegrity | src/blockchain_db/blockchain_db.cpp:132-170 | Following recorded indices finds exactly the output and back, kept by every added transaction. |
| StoreSound.AddTransactionSpent | src/blockchain_db/blockchain_db.cpp:107-116 | The spent set stays the disjoint union of the stored transactions' images. |
| StoreSound.RemovalKeepsOthersSpent | src/blockchain_db/blockchain_db.cpp:259-265 | Taking one transaction's images off never un-spends another's. |
| StoreSound.DenseTransaction | src/blockchain_db/lmdb/db_lmdb.cpp:1156-1170 | Transaction ids, output ids and amount indices stay without gaps. |
| StoreSound.BlockKeepsSound | src/blockchain_db/blockchain_db.cpp:173-230 | A block keeps the whole invariant: integrity, spent set, dense ids, transactions filed at their block's height, linked parents. |
| StoreSound.BlockKeepsIntegrity | src/blockchain_db/blockchain_db.cpp:107-170 | Index integrity is kept by every accepted block, whatever its inputs. |
| StoreRct.NumRctAgainstRows | src/blockchain_db/blockchain_db.cpp:198-221 | By exactly how many outputs the passed count differs from the rows put under amount 0. |
| StoreRct.BlockKeepsRctExactly | src/blockchain_db/lmdb/db_lmdb.cpp:896-905 | Every stored cumulative count stays right if and only if the block's over- and under-counts and the count not carried on cancel out. |
| StoreRct.BlockKeepsRct | src/blockchain_db/blockchain_db.cpp:198-221 | They stay right for every block whose only generation input is in the miner transaction, from version 4 on. |
| StoreRctChain.PassedCountsAgainstRows | src/blockchain_db/blockchain_db.cpp:198-221 | For every chain without unsupported inputs the sum of the passed counts, corrected by the over- and under-counted outputs, is the number of rows under amount 0. |
| StoreRctChain.ReachablePassedCounts | src/blockchain_db/blockchain_db.cpp:198-221 | The same in every reachable state, whatever the block versions; equal outright with well-formed coinbases. |
| StoreRctChain.StoredCountsExactly | src/blockchain_db/lmdb/db_lmdb.cpp:896-905 | The counts stored with a chain are right if and only if the miscounts of each of its blocks cancel out. |
| StoreRctChain.ReachableStoredCounts | src/blockchain_db/lmdb/db_lmdb.cpp:896-905 | The same in every reachable state. |
| StoreRctChain.ReachableRctSound | src/blockchain_db/lmdb/db_lmdb.cpp:896-905 | So they are right with well-formed coinbases and no block before version 4 above the first. |
| StoreAccept.TransactionAccepted | src/blockchain_db/blockchain_db.cpp:107-170 | With dense ids any transaction is taken if and only if the images before its first unsupported input are new and, without such an input, its hash is new and its outputs are storable. |
| StoreAccept.TransactionOutcome | src/blockchain_db/blockchain_db.cpp:107-170 | Which error `add_transaction` throws and what each throw leaves, down to the outputs before one that cannot be stored; a throw blacklists nothing. |
| StoreAccept.BlockAccepted | src/blockchain_db/blockchain_db.cpp:173-230 | A block is taken if and only if counts match, each transaction is taken after those before it, its hash is new and its parent is the top block. |
| StoreAccept.BlockOutcome | src/blockchain_db/blockchain_db.cpp:173-230 | Which error `add_block` throws and what it leaves: that of the first transaction that is not taken, after those before it, or that of the row. |
| StoreAccept.SupportedTakenIsFit | src/blockchain_db/blockchain_db.cpp:203-215 | Without unsupported inputs the order does not matter: the transactions must fit the store and each other. |
| StoreRefusal.ThrowLeavesTables | src/blockchain_db/blockchain_db.cpp:107-136 | For every store: a block with a supported miner transaction that throws leaves the tables as they were if and only if the sizes differ, the miner transaction's first image is spent, or it has no images and its hash is stored. |
| StoreRefusal.TakenOrRefusedAtOnce | src/blockchain_db/blockchain_db.cpp:173-230 | So a block is taken or changes nothing exactly under conditions on the block, the spent images and the stored hashes. |
| StorePop.RemoveOutputsReturn | src/blockchain_db/lmdb/db_lmdb.cpp:1229-1234 | The outputs of a transaction come off if and only if every row looked for is there and wanted once, and exactly those rows go; otherwise the missing output is the error. |
| StorePop.RemovalStopsAt | src/blockchain_db/lmdb/db_lmdb.cpp:1229-1234 | A removal that throws stops at an output whose row is missing, with exactly the rows of the outputs after it gone. |
| StorePop.PopReturnsExactly | src/blockchain_db/blockchain_db.cpp:237-269 | A pop returns if and only if there is a top block, its transactions are stored, each listed once, and every row that their removal looks for is there and wanted once. |
| StorePop.PopStopsAt | src/blockchain_db/blockchain_db.cpp:243-251 | A pop of listed transactions that throws stops at one that is not stored or misses a row, with exactly those after it off and handed out. |
| StorePop.PopThrowLeaves | src/blockchain_db/blockchain_db.cpp:237-253 | What a throwing pop leaves, by the transaction that stops it, the block's row gone. |
| StoreBlacklist.BlockBlacklist | src/blockchain_db/blockchain_db.cpp:93-105 | An accepted block without unsupported inputs blacklists exactly the indices recorded for its version 2 stakes. |
| StoreBlacklist.RefusedBlockBlacklist | src/blockchain_db/blockchain_db.cpp:167-168 | A refused block blacklists exactly the indices recorded for the version 2 stakes before the transaction that stops it. |
| StoreHistory.StepBuilt | src/blockchain_db/lmdb/db_lmdb.cpp:4246-4263 | Each call keeps the tables equal to building the surviving chain if and only if a block added outside a batch is taken or refused at once, and a pop, unless rolled back, finds a block that it undoes; any add in a batch does. |
| StoreHistory.HistoryIndependent | src/blockchain_db/blockchain_db.cpp:173-269 | After any run of such batch starts, adds, pops, ends, aborts and resets, the tables are those of building the surviving chain on an empty store. |
| StoreHistory.HistoryIndependentExactly | src/blockchain_db/blockchain_db.cpp:173-269 | They are so all along a run if and only if each of its calls is such a call. |
| StoreHistory.BatchIsAllOrNothing | src/blockchain_db/lmdb/db_lmdb.cpp:3716-3846 | A batch of adds and pops works on a copy: an abort, or its end after a throwing add, leaves the committed tables and chain; its end otherwise makes the copy the committed tables. |
| StoreHistory.ResetForgets | src/cryptonote_core/blockchain.cpp:799-806 | A reset outside a batch leaves the empty store. |
| StoreHistory.BuiltIsIndexed | src/blockchain_db/blockchain_db.cpp:173-230 | Index integrity, dense ids and linked blocks hold for every chain, also with dropped transactions. |
| StoreHistory.SameChainSameTables | src/blockchain_db/blockchain_db.cpp:173-269 | Two runs that leave the same chain leave the same tables. |
| StoreHistory.PopBuilt | src/blockchain_db/blockchain_db.cpp:237-253 | In a reachable store a pop drops the last block of the chain if and only if that block is undo-safe, and then throws only on the empty chain, changing nothing. |
| StoreHistory.ReorganisationIsRebuild | src/cryptonote_core/blockchain.cpp:1073-1097 | Popping n undo-safe blocks and adding any others in a batch equals building the new chain directly; if that cannot be built, the committed tables and chain stay. |
| StoreHistory.BuiltRows | src/blockchain_db/lmdb/db_lmdb.cpp:889-906 | The rows are the chain's blocks with the metadata they were given. |
| StoreHistory.BuiltStores | src/blockchain_db/lmdb/db_lmdb.cpp:986-1021 | Without unsupported inputs, every transaction of the chain is stored as given, at its block's height. |
| StoreHistory.SpentIsChainImages | src/blockchain_db/blockchain_db.cpp:107-130 | Without unsupported inputs in the chain, an image is spent if and only if a transaction of the chain has it. |
| StoreHistory.ReachableIsSound | src/blockchain_db/blockchain_db.cpp:132-170 | Index integrity, dense ids and links hold in every reachable state, the whole invariant in every one whose chain has no unsupported inputs. |
| StoreClient.AddThenPop | src/blockchain_db/blockchain_db.cpp:173-253 | On the object: an accepted block is undone by a pop if and only if it is undo-safe, and the blacklist is as before if and only if it held the indices recorded for its stakes. |
| StoreClient.SwitchChain | src/cryptonote_core/blockchain.cpp:1073-1097 | On the object: popping n undo-safe blocks and adding others gives the tables and the outcome of building the new chain from nothing. |
| StoreFindings.DroppedTransactionBlocksPop | src/blockchain_db/blockchain_db.cpp:118-129 | A stored block with a dropped transaction cannot be popped. |
| StoreFindings.AbortUnspendsEarlierImage | src/blockchain_db/blockchain_db.cpp:121-127 | The abort un-spends an image spent earlier. |
| StoreFindings.FirstBlockLeavesTransaction | src/cryptonote_core/blockchain.cpp:799-816 | A first block with one generation input and the right unlock time that throws and leaves its transaction in the committed tables. |
| StoreFindings.BlacklistOutlivesPop | src/blockchain_db/blockchain_db.cpp:167-168 | A block that a pop undoes in every table, while any blacklist without index 0 has changed. |
| StoreFindings.MisfiledOutputBlocksPop | src/blockchain_db/lmdb/db_lmdb.cpp:1229-1234 | An accepted block with a misfiled output that the pop does not undo. |
| StoreFindings.MinerWithoutGenerationInput | src/blockchain_db/blockchain_db.cpp:198-201 | An accepted block after which the stored RingCT count is wrong. |
| Checkpoints.CheckpointTable.UpdateBlockCheckpoint | src/blockchain_db/lmdb/db_lmdb.cpp:4064-4082 | Stores or replaces the checkpoint at its height. |
| Checkpoints.CheckpointTable.RemoveBlockCheckpoint | src/blockchain_db/lmdb/db_lmdb.cpp:4084-4106 | Removes a checkpoint if there is one. |
| Checkpoints.CheckpointTable.FirstInRange | src/blockchain_db/lmdb/db_lmdb.cpp:4185-4207 | The first checkpoint on the way from start to end, both included. |
| Checkpoints.CheckpointTable.GetCheckpointsRange | src/blockchain_db/lmdb/db_lmdb.cpp:4159-4244 | The first checkpoints on the way between the clamped heights, in order, none skipped, at most as many as asked for. |
| Checkpoints.CheckpointTable.GetImmutableCheckpoint | src/blockchain_db/blockchain_db.cpp:361-394 | The nearest checkpoint if hard-coded, else the one below it, else none. |
| Finality.TwoCheckpointsSuffice | src/blockchain_db/blockchain_db.cpp:363-394 | Equals a scan of the whole table if and only if the height is not below a hard-coded lowest checkpoint. |
| Finality.FinalityGrowsWithHeight | src/blockchain_db/blockchain_db.cpp:361-394 | The immutable height never falls as the queried height grows. |
| Finality.InsertionMovesForwardExactly | src/blockchain_db/lmdb/db_lmdb.cpp:4167-4168 | A checkpoint at a new height moves finality back if and only if it goes below a hard-coded lowest one above the height. |
| Finality.ReplacementMovesForwardExactly | src/blockchain_db/lmdb/db_lmdb.cpp:4064-4082 | Replacing a checkpoint moves finality back if and only if it puts a masternode checkpoint in place of a hard-coded nearest one. |
| Finality.FinalityNeverMovesBack | src/blockchain_db/blockchain_db.cpp:361-394 | Over every sequence of other insertions, other replacements and growing heights finality only moves forward. |
| Finality.FinalityMovesBackBelowBottom | src/blockchain_db/lmdb/db_lmdb.cpp:4167-4168 | An insertion that takes finality back. |
| Finality.PruningKeepsFinality | src/checkpoints/checkpoints.cpp:170-196 | Pruning below the immutable checkpoint changes no answer at this or a higher height. |
| PowCache.Cache.AddTimestampAndDifficulty | src/cryptonote_basic/difficulty.cpp:120-139 | Pushes and trims both vectors to the newest entries. |
| PowCache.Cache.FillForPow | src/blockchain_db/blockchain_db.cpp:430-476 | The vectors after a fill, rebuilt or extended. |
| PowCache.RebuildIsWindow | src/blockchain_db/blockchain_db.cpp:453-474 | A rebuild holds heights max(1, height - count) to height - 1, ascending, both vectors aligned, min(height - 1, count) long. |
| PowCache.FillExactly | src/blockchain_db/blockchain_db.cpp:436-474 | What a fill leaves in every case, with the sizes 61 before and 60 from hard fork 16 on and the heights written out. |
| PowCache.FreshExactly | src/cryptonote_config.h:82-101 | The fresh window at every height holds the blocks from max(1, height - 61), or height - 60 from hard fork 16 on, in order. |
| PowCache.DroppedIsFresh | src/cryptonote_core/blockchain.cpp:803 | After a drop or a rollback the next query is right, whatever the vectors hold. |
| PowCache.SlideIsWindow | src/cryptonote_config.h:82-101 | Extending an up-to-date cache gives the fresh window, also where hard fork 16 shrinks it from 61 to 60. |
| PowCache.WindowAtHf16 | src/cryptonote_config.h:82-101 | On the step to hard fork 16 the 61 entries lose the two oldest and gain the newest. |
| PowCache.CacheEqualsRecompute | src/blockchain_db/blockchain_db.cpp:448-474 | Over every run of new blocks, rollbacks, drops and queries, a query from height 2 on gives the freshly read window if and only if it does not extend vectors longer than the chain after its first block into a window with room for more. |
| PowCache.StaleWindowLasts | src/blockchain_db/blockchain_db.cpp:436-451 | Stale vectors give a wrong window with every further block until the chain fills the window. |
| PowCache.StaleWindow | src/blockchain_db/blockchain_db.cpp:436-451 | A run that leads to a stale window. |
| LockedTxn.Database.BatchStart | src/blockchain_db/lmdb/db_lmdb.cpp:3716-3757 | Starts a batch unless one is active and says which. |
| LockedTxn.Database.BatchStop | src/blockchain_db/lmdb/db_lmdb.cpp:3796-3823 | Ends the batch, keeping its writes unless the commit fails; throws without a batch. |
| LockedTxn.Database.BatchAbort | src/blockchain_db/lmdb/db_lmdb.cpp:3825-3846 | Ends the batch without its writes; throws without a batch. |
| LockedTxn.Handle.constructor | src/blockchain_db/locked_txn.h:41-43 | Owns a batch exactly if none was active. |
| LockedTxn.Handle.Move | src/blockchain_db/locked_txn.h:46 | Ownership passes on; the old handle has none. |
| LockedTxn.Handle.Commit | src/blockchain_db/locked_txn.h:49 | Stops an owned batch; ownership is given up only if that did not throw. |
| LockedTxn.Handle.Abort | src/blockchain_db/locked_txn.h:50 | Aborts an owned batch; ownership is given up only if that did not throw. |
| LockedTxn.RunAccounted | src/blockchain_db/locked_txn.h:39-55 | Over every run each batch ends at most once, in order, and the database holds exactly the kept batches' writes. |
| LockedTxn.CommitKeepsWrites | src/blockchain_db/lmdb/db_lmdb.cpp:3796-3823 | A stop that does not fail adds the batch's writes to the database, and no other step of any kind changes it. |
| LockedTxn.BatchLasts | src/blockchain_db/lmdb/db_lmdb.cpp:3716-3757 | A batch starts empty, takes every write in order, and lasts until whoever holds it ends it. |
| LockedTxn.OwnerUntilEnded | src/blockchain_db/locked_txn.h:49-50 | A handle gives its batch up exactly when it ends it; it stays an owner if the stop fails or there is no batch. |
| LockedTxn.SessionKeepsAllOrNothing | src/blockchain_db/locked_txn.h:39-55 | From construction over any writes to the end of a handle: a commit keeps all writes, a failing one, an abort or the destructor none. |
| LockedTxn.StepOwned | src/blockchain_db/locked_txn.h:49-51 | Every step keeps one owner per batch if and only if it is not an owner's commit that throws. |
| LockedTxn.RunOwned | src/blockchain_db/locked_txn.h:39-55 | Over any interleaving on any number of handles a batch has one owner all along if and only if no owner's commit throws. |
| LockedTxn.AllBatchesEnd | src/blockchain_db/locked_txn.h:51 | Over every run, once all handles are destroyed every batch has ended exactly once, also with failing commits. |
| LockedTxn.UncommittedWritesVanish | src/blockchain_db/locked_txn.h:51 | Destroying an owner drops its batch's writes. |
| LockedTxn.NestedHandleIsInert | src/blockchain_db/locked_txn.h:35-43 | A handle made in an active batch never affects the database, over its whole life. |
| LockedTxn.StaleOwnerAbortsAnother | src/blockchain_db/locked_txn.h:49-51 | A run in which a failed commit loses another handle's writes. |
| QuorumMesh.TargetWithinReach | utils/generate-quorum-matrix.py:28-29 | The target is within reach if and only if there are at least five nodes. |
| QuorumMesh.Mesh.CountPathsWithinTwo | utils/generate-quorum-matrix.py:38-52 | The adjacency bit plus the number of common neighbours, in either order of arguments. |
| QuorumMesh.Mesh.MinWithinTwo | utils/generate-quorum-matrix.py:92-99 | The least path count over all pairs; none for fewer than two nodes. |
| QuorumMesh.Mesh.CountNotWithinTwo | utils/generate-quorum-matrix.py:102-108 | The number of pairs with at most the given number of paths. |
| QuorumMesh.Mesh.BestConnection | utils/generate-quorum-matrix.py:127-141 | The lexicographically least unconnected pair, first in row order on ties, with the matrix left as it was. |
| QuorumMesh.Mesh.GreedyAdvance | utils/generate-quorum-matrix.py:126-158 | One pass: the best pair is connected, the unconnected pairs shrink, the minimum is the true one; on a complete mesh entry (0, 0) is set. |
| QuorumMesh.Generate | utils/generate-quorum-matrix.py:118-158 | The loop ends; the mesh is the greedy one, has no loops or double connections, and every two nodes have at least the target paths. |
| QuorumMesh.GenerateQuorum | utils/generate-quorum-matrix.py:23-29 | Up to ten nodes the mesh is the greedy one for four paths and survives any three losses, above for two paths and any one. |
| QuorumMesh.QuorumMeshIs | utils/generate-quorum-matrix.py:28-29 | The same of every finished greedy mesh with the script's targets. |
| MeshGraph.PathsSymmetric | utils/generate-quorum-matrix.py:38-52 | Path counts do not depend on the order of the nodes. |
| MeshGraph.NotComplete | utils/generate-quorum-matrix.py:126-144 | While the minimum is below n - 1 some pair is unconnected. |
| MeshGraph.FreeScoresLow | utils/generate-quorum-matrix.py:127-137 | Every unconnected pair scores below the search's starting value. |
| MeshGraph.BestMeans | utils/generate-quorum-matrix.py:127-139 | The chosen pair has the least sum of outgoing and incoming connections, then leaves the fewest pairs low, then is the first in row order. |
| MeshGraph.NoneLow | utils/generate-quorum-matrix.py:102-108 | No pair is low for m if and only if every two nodes have more than m paths. |
| MeshGraph.EveryPassIsBest | utils/generate-quorum-matrix.py:126-144 | In every pass of the construction the connection made is best in this sense for the least path count at that point. |
| MeshGraph.TargetOutOfReach | utils/generate-quorum-matrix.py:126-158 | With a target above n - 1 the loop's exit condition is never met. |
| MeshGraph.TraceIsMesh | utils/generate-quorum-matrix.py:126-144 | After every pass the connections form a mesh, and each pass added a new one. |
| MeshGraph.TracePathsNeverFall | utils/generate-quorum-matrix.py:144-158 | From pass to pass no path count falls. |
| MeshGraph.GreedyMeshIsUnique | utils/generate-quorum-matrix.py:126-158 | The finished mesh is determined by node count and target. |
| MeshGraph.FaultTolerance | utils/generate-quorum-matrix.py:7-11 | After losing any combination of fewer than target nodes and connections, any two survivors are within two hops. |
| MeshGraph.FaultToleranceIsSharp | utils/generate-quorum-matrix.py:7-11 | Between any two nodes, as many losses as they have paths can cut them off. |
| MeshGraph.DegreeAtLeast | utils/generate-quorum-matrix.py:126-158 | Every node ends up with at least target connections. |

## Left out

- LMDB itself, blob parsing, hashing and commitments as cryptography: rows, identifiers and free constructors stand for them.
- Pruning, and with it the tables `txs_prunable`, `txs_prunable_hash` and `txs_prunable_tip`, which hold rows under the same ids as `txs_pruned`.
- BlockStore.Store.AddTransactionData: does not write the prunable tables, nor throw for a blob shorter than its unprunable part.
- BlockStore.Store.RemoveTransaction: does not remove from the prunable tables, nor throw for a missing prunable hash.
- `m_hardfork->add`, statistics counters and database resizing.
- LockedTxn.Database.BatchStart: does not throw for disabled batches, for a plain write transaction in use or for another thread's batch; the lock that the comment in `locked_txn.h` describes keeps those away.
- Checkpoints.CheckpointTable.UpdateBlockCheckpoint: does not model signatures that exceed the buffer, where the program ignores the conversion's failure and reads past the buffer.
- The difficulty algorithm, block reward rules, masternode logic, and every other constant of `cryptonote_config.h`.
- The tables, traces and C++ text that the quorum script prints.
- QuorumMesh.Generate: asks for at least two nodes and a target of at most n - 1; with fewer nodes the script fails on a missing minimum, with a higher target its loop does not end (`MeshGraph.TargetOutOfReach`).
- StoreHistory.HistoryIndependentExactly: asks that a block added outside a batch has a supported miner transaction, as `prevalidate_miner_transaction` does there; `StoreHistory.HistoryIndependent` does not.
- StoreHistory.Apply: the write transaction of the storage engine is a value that is kept or dropped, not the engine's own mechanism; the output blacklist is not part of it.
