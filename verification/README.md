# Verification of UaaS

UTXO as a Service follows a Bitcoin SV chain from its peers, keeps an index in memory with a database
behind it, and serves Merkle proofs. This project models four parts of it in Dafny and proves what they
are for.

* **Block sync** (`BlockSpec`, `BlockManagers`, `ChainState`, `Delivery`, `Restart`, `LogicSpec`, `Logics`,
  `Sync`). Blocks arrive, or are read from the file, in any order; those whose parent is not the tip wait.
  Whatever the order, what is stored, queued, written and sent is the same. Headers, index, heights and the `blocks` table tell one
  story through every run, orphans included, and a restart from the file or from the table rebuilds the
  state. Against an honest peer the logic reaches the tip.
* **Merkle proofs** (`MerkleSpec`, `MerkleTrees`, `MerkleProofs`, `Hex`). The cursor that fills the tree
  stops with every cell right; the proof produced for any listed transaction is accepted by the separate
  verifier; and an accepted proof that is not the honest one, going the same way, gives away at some step two
  distinct inputs with one hash: those that checking it and checking the honest proof hash there.
* **Write-behind tables** (`Tables`, `Worker`, `UtxoSpec`, `Utxos`, `WriteBehind`, `TxDbSpec`, `TxDbs`).
  What is in memory and what has been sent agree, with the exact conditions. Which operations the batching
  worker loses is read off the channel and the schedule; where it loses none, the `utxo`, `tx`, `mempool` and
  `blocks` tables end as memory has them.
* **Codecs and small algorithms** (`Serial`, `Varints`, `Wire`, `BlockFiles`, `CompactBlocks`, `RateLimits`,
  `ChainSort`).

Objects that the program updates in place are classes. Each method's contract equates its new state with a
function of the old one, and the theorems are lemmas about those functions over all inputs and all runs.
Hash functions are parameters, so every theorem holds for every hash function; acyclic links are stated by
a rank that a block's hash has above its parent's. Time, the clock's verdict on the last header, and the
arrival schedule of the database channel are parameters too.

Where the code and its comments differ the model follows the code:

* `handle_orphan_block` leaves the tip's hash where it was. `ChainState.OrphanKeepsLinkedIff` and
  `ChainState.DroppedHeaderIsNeverReplaced` say what that means, `ChainState.FirstBlockThenOrphan` shows it.
* It also hands on the height before lowering it (`ChainState.OrphanHeightIsOneAbove`).
* `process_block` past height 2^31 - 1 moves the tip without storing the header
  (`ChainState.StepKeepsSettledIff`; `ChainState.BlockPastRange` is the first such block).
* `get_start_block_timestamp` takes the smallest timestamp, not the first header's (`BlockSpec.MinTimestamp`).
* The coalescing loops drop what interrupts a run (`Worker.LostIffOddStreak`, `Worker.AllKeptIffQuiet`). When
  everything one block sends has arrived as the worker looks, its deletes of outputs and its transactions are
  lost (`WriteBehind.BlockLosesTwo`).
* Merging batches of INSERTs lets a taken key cut short what was sent after it (`Worker.MergeIsBothIff`,
  `Worker.MergeCanLoseNew`).
* An output re-added while its delete is pending is lost by the next flush (`UtxoSpec.AddAgreesIff`,
  `UtxoSpec.ReaddedIsLost`), and a pending output of an orphan block is written after it was forgotten
  (`UtxoSpec.OrphanAgreesIff`, `UtxoSpec.OrphanedIsWritten`).
* Memory has a transaction that the `tx` table has at another height or not at all after a block that lists a
  transaction confirmed at another height, or a new one without an entry before the first taken key
  (`TxDbSpec.ConfirmedAgreesIff`, `TxDbSpec.TwoHeightsDisagree`, `TxDbSpec.NegativeSumDisagrees`).
* A transaction of the mempool that cannot be written when it comes again is forgotten by memory only
  (`TxDbSpec.StandaloneAgreesIff`, `TxDbSpec.UnwritableDisagrees`).
* `deser_varint` keeps nothing of the bytes before the last (`Varints.VarintRoundTripIff`).

`dafny verify dfyconfig.toml` checks the whole project.

## Model

| member | source | states |
|---|---|---|
| MerkleSpec.RootIsSubtree | python/src/p2p_framework/object.py:476-485 | for every non-empty list the layer-by-layer fold is the root of the perfect binary tree whose missing right halves repeat the left one |
| MerkleSpec.TopLevelIsRoot | python/src/p2p_framework/object.py:479-485 | the fold ends after exactly as many layers as the tree is deep |
| MerkleSpec.WidthIsCeilDiv | python/src/merkle.py:41-45 | the row widths the tree is built with are the widths of the folded layers |
| MerkleSpec.DepthIsCeilLog2 | python/src/merkle.py:38 | the depth is the rounded-up base-two logarithm of the number of leaves |
| MerkleTrees.MerkleTree.constructor | python/src/merkle.py:36-48 | rows of the right widths, all cells unset, cursor at the root |
| MerkleTrees.ParentOfUnsetIsUnset | python/src/merkle.py:105-122 | an unset cell has an unset parent and is never in the bottom row, so the leaf branch is dead |
| MerkleTrees.SetCellKeepsInvariant | python/src/merkle.py:117-122 | filling the cursor's cell from its children keeps every cell right |
| MerkleTrees.RootSetMeansFull | python/src/merkle.py:105-106 | when the root is set no cell is left unset |
| MerkleTrees.MerkleTree.CalcRoot | python/src/merkle.py:105-122 | the cursor walk terminates, fills every cell and leaves the layer-by-layer fold of the leaves in the root |
| MerkleProofs.NextLayer | python/src/p2p_framework/object.py:480-484 | one pass computes the layer above |
| MerkleProofs.GetMerkleRoot | python/src/p2p_framework/object.py:476-485 | the folded root as a number; an empty list and a short hash are errors |
| MerkleProofs.SmallRoots | python/src/p2p_framework/object.py:476-485 | the roots of one, two and three leaves written out: the left is hashed first, an odd last one with itself |
| MerkleProofs.CreateTree | python/src/merkle.py:129-135 | a full tree over the decoded hashes, or the errors for an empty list and for text that is not hex |
| MerkleProofs.ClimbOne | python/src/merkle.py:146-159 | one turn notes the sibling of where the cursor came from |
| MerkleProofs.WalkTreeFromPos | python/src/merkle.py:138-164 | the branches from a leaf to the root, one a layer |
| MerkleProofs.CreateMerkleBranch | python/src/merkle.py:167-180 | for every list of hex hashes and every listed hash, the branches produced are accepted by the verifier for the folded root; a list of one has no branches, whatever its text; an unlisted hash, and text that is not hex in a longer list, are errors |
| MerkleProofs.VerifyProof | python/src/tools/merkle_verifier.py:15-43 | folds the branches and compares with the root; text that is not hex is an error |
| MerkleProofs.SiblingGivesParent | python/src/merkle.py:146-157 | whichever side the walk names, also for repeated hashes and odd layers, joining the sibling gives the parent |
| MerkleProofs.StepInWords | python/src/merkle.py:146-157 | which node each turn notes, and on which side, equal neighbours and a missing one included |
| MerkleProofs.OtherSidesAreLeft | python/src/tools/merkle_verifier.py:30-33 | any side but "R" counts as the left |
| MerkleProofs.HonestProofAccepted | python/src/tools/merkle_verifier.py:23-43 | the proof of any leaf of any list is accepted |
| MerkleProofs.FindCollision | python/src/tools/merkle_verifier.py:26-34 | from two proofs of 32-byte nodes that go the same way to one root but differ anywhere, a step at which checking the one and checking the other hash two distinct inputs to one value |
| MerkleProofs.AcceptedProofIsHonest | python/src/tools/merkle_verifier.py:15-43 | a proof accepted for a listed root that goes the way of position `pos` names the transaction at `pos` and its siblings, exactly unless at some step checking it and checking the honest proof hash two distinct inputs to one value |
| Hex.NodeRoundTrip | python/src/merkle.py:11-26 | the text of a node reads back as the node |
| Hex.TextIsReversed | python/src/merkle.py:11-18 | two lower-case digits a byte, those of the last byte first |
| Hex.AnyHexReads | python/src/merkle.py:21-26 | any digits of either case, two a byte, are read, the first byte last |
| Hex.SpaceIsSkipped | python/src/merkle.py:26 | white space between bytes is skipped |
| Hex.BadCharFails | python/src/merkle.py:26 | any other character is an error |
| BlockManagers.BlockManager.constructor | rust/src/uaas/block_manager.rs:93-119 | the state of a new manager |
| BlockManagers.BlockManager.WriteBlockToFile | rust/src/uaas/block_manager.rs:473-502 | appends at the old end of the file and returns that offset, when blocks are saved |
| BlockManagers.BlockManager.WriteBlockheaderToDatabase | rust/src/uaas/block_manager.rs:295-322 | sends the row of a header not yet indexed |
| BlockManagers.BlockManager.ProcessBlock | rust/src/uaas/block_manager.rs:255-293 | takes a block that extends the tip |
| BlockManagers.BlockManager.ProcessBlockQueue | rust/src/uaas/block_manager.rs:346-368 | takes waiting blocks until none extends the tip |
| BlockManagers.BlockManager.ProcessReadBlock | rust/src/uaas/block_manager.rs:386-412 | takes, queues or ignores a block read from the file |
| BlockManagers.BlockManager.OnBlock | rust/src/uaas/block_manager.rs:539-576 | takes, queues or ignores a block from a peer |
| BlockManagers.BlockManager.HandleOrphanBlock | rust/src/uaas/block_manager.rs:504-525 | empties the queue and drops the last header, not the tip's hash |
| BlockManagers.BlockManager.ReadBlocksFromFile | rust/src/uaas/block_manager.rs:414-455 | replays the file, each block with its offset |
| BlockManagers.BlockManager.LoadBlockheadersFromDatabase | rust/src/uaas/block_manager.rs:186-253 | loads headers, index and height from the rows in order, skipping those whose hashes do not decode |
| BlockManagers.BlockManager.Setup | rust/src/uaas/block_manager.rs:457-471 | starts from the table or from the file |
| BlockManagers.BlockManager.GetStartBlockTimestamp | rust/src/uaas/block_manager.rs:529-537 | the smallest timestamp once there are more headers than the threshold |
| BlockSpec.MinTimestamp | rust/src/uaas/block_manager.rs:533 | is some header's timestamp and no header's is smaller |
| BlockManagers.BlockManager.GetLastKnownBlockHash | rust/src/uaas/block_manager.rs:578-584 | the hash of the last header, or the start hash |
| ChainState.RunKeepsSettled | rust/src/uaas/block_manager.rs:255-322 | every run, in any order and with orphans, in which no block taken meets a height past the signed range keeps heights, index, headers and table in step and no block waiting whose turn has come |
| ChainState.StepKeepsSettledIff | rust/src/uaas/block_manager.rs:278-292 | an event keeps that exactly when every block it makes the manager take has a height in range |
| ChainState.StepBelowFits | rust/src/uaas/block_manager.rs:278-292 | an event that leaves the height below 2^31 met none past it |
| ChainState.BlockPastRange | rust/src/uaas/block_manager.rs:278-292 | the input that breaks it: a block at height 2^31 |
| ChainState.SettledInWords | rust/src/uaas/block_manager.rs:54-65 | no hash repeats, header `i` has height start + 1 + `i` in the index and in the table, and neither holds anything else |
| ChainState.EarlyBlockOnlyWaits | rust/src/uaas/block_manager.rs:557-575 | a block that does not extend the tip changes only the queue, where it displaces no block with the same parent |
| ChainState.KnownRowIsNotSent | rust/src/uaas/block_manager.rs:302-303 | a header that is indexed is not sent again, even from the queue |
| ChainState.AcceptKeepsStandingIff | rust/src/uaas/block_manager.rs:278-292 | taking a block that extends the tip keeps the invariant exactly while the height is below 2^31 |
| ChainState.OrphanKeepsSettled | rust/src/uaas/block_manager.rs:504-525 | an orphan, too, leaves heights, index, headers and table in step |
| ChainState.OrphanDropsLast | rust/src/uaas/block_manager.rs:506-524 | exactly the last header and its index entry go, with all that waited; the tip's hash and the file stay |
| ChainState.OrphanMovesRow | rust/src/uaas/block_manager.rs:518-520 | the dropped header's row moves from `blocks` to `orphans` |
| ChainState.OrphanFreeRunKeepsLinked | rust/src/uaas/block_manager.rs:265-276 | without orphans each header's parent is the one before it and the tip is the last |
| ChainState.OrphanKeepsLinkedIff | rust/src/uaas/block_manager.rs:512-524 | an orphan keeps that exactly when there is no header to drop |
| ChainState.FirstBlockThenOrphan | rust/src/uaas/block_manager.rs:504-525 | the input: one block and then an orphan leave no header and the block's hash as the tip |
| ChainState.DroppedHeaderIsNeverReplaced | rust/src/uaas/block_manager.rs:504-525 | after an orphan no block on the dropped header's parent is stored again, whatever is delivered |
| ChainState.OrphanHeightIsOneAbove | rust/src/uaas/block_manager.rs:517-523 | the height handed on is one above the dropped header's and no stored header has it |
| Delivery.AnyOrderDelivers | rust/src/uaas/block_manager.rs:539-576 | after any deliveries from a chain the longest arrived prefix is in, as if it had come in order, and the other arrivals wait under their parents |
| Delivery.OrderLeavesNoTrace | rust/src/uaas/block_manager.rs:346-368 | two sequences delivering the same blocks leave the same state, file and messages included |
| Delivery.AllDelivered | rust/src/uaas/block_manager.rs:346-368 | when every block has arrived the whole chain is in and nothing waits |
| Delivery.AnyFileIsRead | rust/src/uaas/block_manager.rs:386-455 | after reading any file of blocks from a chain, in any order and with repeats, the longest prefix in it is in and the others wait |
| Delivery.AnyFileInWords | rust/src/uaas/block_manager.rs:386-455 | then headers, calls and rows are those of that prefix, each row and each waiting block has the offset at which the block was first read, and the file is unchanged |
| Delivery.FrontierIsLongestPrefix | rust/src/uaas/block_manager.rs:346-352 | the prefix taken is the longest whose blocks have all arrived |
| Delivery.GrownInWords | rust/src/uaas/block_manager.rs:288-320 | each block taken from the network is written once to the file at the offset of its row, one read from the file is not; each is sent once and analysed once, at consecutive heights |
| Delivery.GrownHeights | rust/src/uaas/block_manager.rs:289-292 | the index has each block's height |
| Restart.OrphanFreeRunIsInStep | rust/src/uaas/block_manager.rs:473-502 | after any orphan-free run the state is that of some chain taken in order, and if blocks are saved the file is that chain |
| Restart.ReplayRebuildsState | rust/src/uaas/block_manager.rs:386-455 | replaying the file rebuilds the state of the run, without what was waiting |
| Restart.ReplayKeepsTable | rust/src/uaas/block_manager.rs:394 | the header rows sent again by a replay change nothing in the database |
| Restart.ReplayKeepsTables | rust/src/uaas/block_manager.rs:386-455 | with the transactions the analyser sends again, too, a restart from the file changes neither the `blocks` nor the `tx` table, and memory knows the same transactions |
| Restart.RowsAreChain | rust/src/uaas/block_manager.rs:190-219 | the rows ordered by height are the chain's |
| Restart.RowsRebuildState | rust/src/uaas/block_manager.rs:186-253 | loading the rows an orphan-free run wrote, whether or not blocks were saved, rebuilds headers, index, height and last hash |
| Restart.UndecodableIsSkipped | rust/src/uaas/block_manager.rs:227-247 | a row whose hashes do not decode is skipped, those after it are loaded all the same |
| Restart.LastReadableIsHeight | rust/src/uaas/block_manager.rs:243-246 | the height is one above that of the last row that decodes |
| Logics.Logic.SetState | rust/src/uaas/logic.rs:118-126 | a connection asks for the next block |
| Logics.Logic.IsOrphan | rust/src/uaas/logic.rs:133-153 | compares with the start timestamp, fixed the first time it is known |
| Logics.Logic.MessageToSend | rust/src/uaas/logic.rs:183-188 | hands over the queue and empties it |
| Logics.Logic.OnInv | rust/src/uaas/logic.rs:190-218 | asks for the transactions, keeps the blocks as a batch, and asks for the first if there was none |
| Logics.Logic.TrimEmptyInventoryFront | rust/src/uaas/logic.rs:235-243 | drops empty batches from the front |
| Logics.Logic.RequestNextBlock | rust/src/uaas/logic.rs:245-306 | forgets the received hash and asks for the next block or for more |
| Logics.Logic.OnBlock | rust/src/uaas/logic.rs:308-331 | takes the block or handles an orphan, asks on, and becomes ready at the tip |
| LogicSpec.FirstOrphanIff | rust/src/uaas/logic.rs:133-153 | at the first comparison a block is an orphan exactly when it is older than each of more than `threshold` headers |
| LogicSpec.StartTimestampStays | rust/src/uaas/logic.rs:138-149 | once known, the timestamp compared with never changes |
| LogicSpec.KnownStartDecides | rust/src/uaas/logic.rs:136-137 | once it is known, a block is an orphan exactly when it is older |
| LogicSpec.LaterOrphanIff | rust/src/uaas/logic.rs:133-153 | over every run after the first comparison with enough headers, a block is an orphan exactly when it is older than each header there was then |
| LogicSpec.TooFewFixNothing | rust/src/uaas/logic.rs:146-150 | a comparison without enough headers fixes nothing |
| LogicSpec.OlderBlockRollsBack | rust/src/uaas/logic.rs:308-323 | an older block is not stored: the last header and its index entry go with all that waited or was announced, its row is sent to `orphans` and deleted, the analyser is told, and GetBlocks is asked from the header before it |
| LogicSpec.OtherBlockIsTaken | rust/src/uaas/logic.rs:316-323 | any other block goes to the manager, and the next one announced, or more, is asked for |
| LogicSpec.OnlyConnectingAsks | rust/src/uaas/logic.rs:118-126 | connecting asks for what is open or for more; no other change of state asks anything |
| LogicSpec.TrimDrops | rust/src/uaas/logic.rs:235-243 | exactly the empty batches at the front go, the others keep their order |
| LogicSpec.WithoutIsExact | rust/src/uaas/logic.rs:248-252 | exactly the entries with the received hash go |
| LogicSpec.InvIsAnswered | rust/src/uaas/logic.rs:190-218 | an announcement's transactions are asked for; if nothing was open so is its first block, or more from the tip if it has none; otherwise its blocks wait behind earlier ones |
| LogicSpec.BlockIsAnsweredOnce | rust/src/uaas/logic.rs:308-331 | a block is answered by one message; the logic becomes ready exactly at a recent tip, asking nothing, and a block never unmakes it |
| LogicSpec.RunKeepsFrontOk | rust/src/uaas/logic.rs:235-243 | in every run the inventory is empty or starts with a non-empty batch, so the stale-entry branch is dead |
| LogicSpec.RequestAsksOnce | rust/src/uaas/logic.rs:269-305 | each request queues exactly one message, GetBlocks exactly when nothing announced is left |
| LogicSpec.RequestedBlockShrinksInventory | rust/src/uaas/logic.rs:248-252 | delivering the requested block leaves strictly fewer announced entries |
| Sync.PlayStaysInSync | rust/src/uaas/logic.rs:190-331 | against an honest peer exactly one question stays open through every play, reconnections included, and every reply brings the tip nearer |
| Sync.PeerCanAnswer | rust/src/uaas/logic.rs:269-300 | until the tip is reached the open question has an honest answer |
| Sync.SyncReachesTip | rust/src/uaas/logic.rs:118-331 | a play holds at most twice the missing blocks plus one replies, and when the peer has nothing left to say its whole chain is in |
| Sync.ConnectedIsInSync | rust/src/uaas/logic.rs:118-126 | a new logic, once connected, starts such a play |
| Worker.DatabaseWriter.TryRecv | rust/src/uaas/database.rs:211 | finds the next operation exactly when it has arrived |
| Worker.DatabaseWriter.Coalesce | rust/src/uaas/database.rs:210-246 | gives the batch that is written first of what the open one and the rest of the channel make |
| Worker.DatabaseWriter.PerformDbOperations | rust/src/uaas/database.rs:380-414 | for every schedule the database ends as the batches make it, INSERTs that meet taken keys included |
| Worker.BatchesDoWhatIsKept | rust/src/uaas/database.rs:380-414 | to a table for which they merge well, the batches do what the kept operations do one by one |
| Worker.MergeIsBothIff | rust/src/uaas/database.rs:210-246 | one batch of two does to a table what the two do, exactly when no INSERT of one is cut short by the other |
| Worker.MergedDeletesInOrder | rust/src/uaas/database.rs:217-222 | a merged batch of deletes lists those of the first and then those of the second |
| Worker.MergeCanLoseNew | rust/src/uaas/database.rs:231-239 | the input: a known transaction merged with a new one |
| Worker.SpacedMergeWell | rust/src/uaas/database.rs:210-246 | a table's batches of INSERTs that never find one of their kind waiting merge well |
| Worker.KeptIsAllButLost | rust/src/uaas/database.rs:380-414 | what is kept is everything sent, in the order it was sent, but the lost operations |
| Worker.LostIffOddStreak | rust/src/uaas/database.rs:210-246 | an operation is lost exactly when it is the first, third, fifth ... in a row that was there, of another kind, as the batch sent just before it looked for more |
| Worker.AllKeptIffQuiet | rust/src/uaas/database.rs:210-246 | everything is kept exactly when no operation is there, of another kind, as a batch sent just before it looks for more |
| Worker.QuietScheduleAppliesAll | rust/src/uaas/database.rs:380-414 | then a table for which the batches merge well ends as if every operation had been applied in order |
| Worker.FlushIsKeptIff | rust/src/uaas/utxo.rs:206-215 | which of a flush's writes and deletes are lost, anywhere in any channel |
| Utxos.Utxo.LoadUtxo | rust/src/uaas/utxo.rs:101-147 | afterwards an output is known exactly if it was or some row decodes to it, with the value of its last row; loading the rows of a table into nothing gives the table |
| Utxos.Utxo.Add | rust/src/uaas/utxo.rs:149-189 | adds to the map and to the pending writes; an index past 32 bits is refused |
| Utxos.Utxo.Delete | rust/src/uaas/utxo.rs:191-199 | removes a known output from map and pending writes and notes the delete |
| Utxos.Utxo.GetSatoshis | rust/src/uaas/utxo.rs:201-204 | the value of a known output |
| Utxos.Utxo.UpdateDb | rust/src/uaas/utxo.rs:206-215 | sends the pending writes, in whatever order the map yields them, then the deletes |
| Utxos.Utxo.HandleOrphanBlock | rust/src/uaas/utxo.rs:217-228 | removes the outputs of a height from table and map |
| UtxoSpec.AddAgreesIff | rust/src/uaas/utxo.rs:178-188 | an added output keeps map and table-to-come equal exactly when its delete is not pending |
| UtxoSpec.UnknownIsNotDeleted | rust/src/uaas/utxo.rs:191-199 | an output is noted for deletion, after those noted before, exactly if it is known, and only it leaves the map |
| UtxoSpec.ReaddedIsLost | rust/src/uaas/utxo.rs:178-215 | the input: added, deleted and added again, then a flush |
| UtxoSpec.OrphanAgreesIff | rust/src/uaas/utxo.rs:217-228 | an orphaned height keeps them equal exactly when no pending entry has it |
| UtxoSpec.OrphanedIsWritten | rust/src/uaas/utxo.rs:206-228 | the input: added at a height that is orphaned before the flush |
| UtxoSpec.UpdateDbWritesMap | rust/src/uaas/utxo.rs:206-215 | a flush leaves the table equal to the map |
| WriteBehind.UtxoIsPlainTable | rust/src/uaas/utxo.rs:149-228 | map, pending writes, pending deletes, shared channel and batching worker together leave the table that a plain table would be, when the run is careful and the schedule quiet |
| WriteBehind.TxTablesFollowMemory | rust/src/uaas/txdb.rs:201-308 | on a quiet schedule, if INSERTs merge well, the `tx` and `mempool` tables end as memory has them |
| WriteBehind.BlocksFollowHeaders | rust/src/uaas/block_manager.rs:255-322 | on a quiet schedule the `blocks` table lists exactly the stored headers at their heights, orphans included |
| WriteBehind.BlockLosesTwo | rust/src/uaas/tx_analyser.rs:248-271 | the input: of the five operations sent for one block, all waiting, exactly the deletes of outputs and the transactions are lost |
| UtxoSpec.CarefulRunAgrees | rust/src/uaas/utxo.rs:149-228 | every run whose steps meet those conditions keeps them equal |
| TxDbs.TxDb.ProcessBlock | rust/src/uaas/txdb.rs:201-241 | confirms the transactions of a block one by one |
| TxDbs.TxDb.SaveTx | rust/src/uaas/txdb.rs:179-199 | notes a row unless the outputs sum below zero |
| TxDbs.TxDb.BatchDeleteFromMempool | rust/src/uaas/txdb.rs:243-249 | sends the pending mempool deletes |
| TxDbs.TxDb.BatchWriteTxToTable | rust/src/uaas/txdb.rs:251-254 | sends the pending rows |
| TxDbs.TxDb.BatchWriteMempool | rust/src/uaas/txdb.rs:256-262 | sends the pending mempool entries, if any |
| TxDbs.TxDb.LoadTx | rust/src/uaas/txdb.rs:120-146 | afterwards a transaction is known exactly if it was or some row decodes to it, at the height of its last row; loading the rows of a table into nothing gives its heights |
| Tables.LoadedTable | rust/src/uaas/txdb.rs:135-140 | rows that list a table, in any order, load as that table |
| TxDbs.TxDb.LoadMempool | rust/src/uaas/txdb.rs:148-176 | loading adds every hash that decodes |
| TxDbs.TxDb.AddToMempool | rust/src/uaas/txdb.rs:264-295 | adds to the mempool and to the pending entries, or takes out what cannot be written |
| TxDbs.TxDb.TxExists | rust/src/uaas/txdb.rs:297-300 | known as confirmed or unconfirmed |
| TxDbs.TxDb.HandleOrphanBlock | rust/src/uaas/txdb.rs:302-308 | forgets the transactions of a height |
| TxDbSpec.RunKeepsMempoolAgreement | rust/src/uaas/tx_analyser.rs:248-311 | between events nothing of the mempool is pending and its table has exactly its keys, as long as nothing in the mempool comes again and cannot be written |
| TxDbSpec.StandaloneAgreesIff | rust/src/uaas/txdb.rs:264-295 | that is when they part |
| TxDbSpec.UnwritableDisagrees | rust/src/uaas/txdb.rs:276-283 | the input: a transaction announced twice that cannot be written the second time |
| TxDbSpec.StandaloneIsRecorded | rust/src/uaas/txdb.rs:256-295 | a new unconfirmed transaction gets its row in the mempool table, a known one keeps the row it has |
| TxDbSpec.BlockConfirms | rust/src/uaas/txdb.rs:217-241 | after a block exactly its transactions, as far as they can be numbered, are confirmed at its height, and exactly its transactions have left the mempool and its table |
| TxDbSpec.UnsavedConfirmsNothing | rust/src/uaas/txdb.rs:226-239 | where transactions are not saved a block confirms none |
| TxDbSpec.NotesInOrder | rust/src/uaas/txdb.rs:220-225 | a hash noted for deletion keeps its place as the rest of the block comes |
| TxDbSpec.FlushDeletesFirst | rust/src/uaas/tx_analyser.rs:264-271 | a flush applies the pending mempool deletes before the pending mempool rows, whatever is pending |
| TxDbSpec.ExistsIffInTable | rust/src/uaas/txdb.rs:297-300 | a transaction exists exactly when the `tx` or the `mempool` table has it, as long as memory agrees with them |
| TxDbSpec.ConfirmedIsRecorded | rust/src/uaas/txdb.rs:179-241 | every block puts exactly the rows of its entries up to the first taken key into the table |
| TxDbSpec.ConfirmedAgreesIff | rust/src/uaas/txdb.rs:179-241 | memory and table agree after a block exactly when each transaction that can be numbered is confirmed at its height already, or is new and has an entry with no taken key up to it |
| TxDbSpec.TwoHeightsDisagree | rust/src/uaas/txdb.rs:217-241 | an input that parts them: one transaction in blocks at two heights |
| TxDbSpec.NegativeSumDisagrees | rust/src/uaas/txdb.rs:181-188 | another: a new transaction whose outputs sum below zero |
| TxDbSpec.RunKeepsTxsAgreement | rust/src/uaas/txdb.rs:201-308 | memory and table list the same confirmed transactions at the same heights through every run of such blocks, orphans included |
| TxDbSpec.ReplayKeepsTxs | rust/src/uaas/txdb.rs:120-241 | after a restart, loading the table and processing blocks of the run again changes neither memory nor table |
| Serial.CompactSizeRoundTrip | python/src/p2p_framework/serial.py:13-45 | every compact size is read back, whatever follows |
| Serial.CompactSizeIsShortest | python/src/p2p_framework/serial.py:13-45 | no bytes read as a value are fewer than its encoding, and none but the encoding are as few |
| Serial.CompactSizeFormat | python/src/p2p_framework/serial.py:13-25 | the byte itself, or 253, 254 or 255 and two, four or eight bytes |
| Serial.LEDigits | python/src/p2p_framework/serial.py:86-91 | byte `i` is digit `i` to base 256 |
| Serial.SerIntIsTwosComplement | python/src/p2p_framework/object.py:310 | signed numbers are written in two's complement |
| Varints.WriteVarint | python/src/p2p_framework/serial.py:48-56 | the loop writes the base-128 digits, most significant first |
| Varints.WrittenHasValue | python/src/p2p_framework/serial.py:48-56 | the digits, each marked one counting one more, have the number as their value |
| Varints.OnlyLastUnmarked | python/src/p2p_framework/serial.py:48-56 | every digit but the last is marked |
| Varints.ReadVarint | python/src/p2p_framework/serial.py:59-65 | the loop reads to the first unmarked byte |
| Varints.ReadsLastDigit | python/src/p2p_framework/serial.py:59-65 | of what was written only the last digit is read, and counted twice |
| Varints.VarintRoundTripIff | python/src/p2p_framework/serial.py:48-65 | a number is read back exactly when it is one of the first 128 multiples of 129 |
| Varints.OneIsReadAs129 | python/src/p2p_framework/serial.py:59-65 | the smallest number that is not |
| Serial.StringRoundTrip | python/src/p2p_framework/serial.py:68-75 | every string is read back, whatever follows |
| Serial.ShortString | python/src/p2p_framework/serial.py:68-70 | a string cut short by the end of the stream is read as far as it goes |
| Serial.VectorRoundTrip | python/src/p2p_framework/serial.py:108-125 | a vector is read back if its elements are |
| Serial.CutVectorFails | python/src/p2p_framework/serial.py:108-117 | a vector with fewer elements than announced fails as a whole |
| Serial.SerUint256 | python/src/p2p_framework/serial.py:86-91 | eight words are the 32 low bytes; higher bits are dropped |
| Serial.DeserUint256 | python/src/p2p_framework/serial.py:78-83 | eight words read as one number, or fail when cut short |
| Serial.DeserVector | python/src/p2p_framework/serial.py:108-117 | the reading loop returns the elements in order, or fails with the first that fails |
| Wire.OutPointRoundTrip | python/src/p2p_framework/object.py:186-194 | an outpoint is read back, whatever follows |
| Wire.TxInRoundTrip | python/src/p2p_framework/object.py:224-235 | an input is read back, whatever follows |
| Wire.TxOutRoundTrip | python/src/p2p_framework/object.py:255-263 | an output is read back, whatever follows |
| Wire.TransactionRoundTrip | python/src/p2p_framework/object.py:301-315 | a transaction is read back, whatever follows |
| Wire.HeaderRoundTrip | python/src/p2p_framework/object.py:395-413 | a header is read back, whatever follows |
| Wire.OutPointLayout | python/src/p2p_framework/object.py:190-194 | hash and index lie at bytes 0 and 32 of 36 |
| Wire.TxInLayout | python/src/p2p_framework/object.py:230-235 | outpoint, script and sequence number, in that order |
| Wire.TxOutLayout | python/src/p2p_framework/object.py:259-263 | eight bytes of value, then the script |
| Wire.TransactionLayout | python/src/p2p_framework/object.py:309-315 | version, inputs, outputs and lock time, in that order |
| Wire.HeaderLayout | python/src/p2p_framework/object.py:404-413 | the six fields lie at bytes 0, 4, 36, 68, 72 and 76 of 80 |
| Wire.BlockLayout | python/src/p2p_framework/object.py:470-474 | 80 bytes of header, then the transactions |
| Wire.HeaderReadsIff | python/src/p2p_framework/object.py:395-402 | a header is read from any 80 bytes and from no fewer |
| Wire.BlockRoundTrip | python/src/p2p_framework/object.py:466-474 | a block is read back and exactly what followed it is left |
| Wire.BlockEncodingIsPrefixFree | python/src/p2p_framework/object.py:466-474 | no block's encoding begins another's |
| BlockFiles.LoadBlocks | python/src/truncate_blocks.py:10-33 | the blocks up to the first that cannot be read |
| BlockFiles.SaveBlocks | python/src/truncate_blocks.py:41-44 | what is written loads as what was given |
| BlockFiles.SaveBlock | python/src/truncate_blocks.py:36-38 | appending to a file of blocks adds the block at its end |
| BlockFiles.DecodedOfEncoded | python/src/truncate_blocks.py:10-44 | blocks written one after the other are read back, unreadable bytes after them ignored |
| BlockFiles.OffsetFindsBlock | python/src/truncate_blocks.py:36-44 | reading at the offset where a block was written finds it |
| BlockFiles.RowFindsBlock | rust/src/uaas/block_manager.rs:473-502 | with the blocks' true sizes the offset in a row is where reading the file finds the block |
| RateLimits.RustLimiter.Allow | rust/src/rate_limit.rs:22-45 | a limit of zero grants everything and records nothing; otherwise a poisoned lock refuses and records nothing, and any other request is decided and recorded as the common function does |
| RateLimits.PythonLimiter.Allow | python/src/rate_limit.py:27-41 | a limit of zero grants everything and records nothing; otherwise requests are decided and recorded as the same function does, so both programs decide every trace alike |
| RateLimits.ZeroGrantsAll | rust/src/rate_limit.rs:23-25 | with a limit of zero every request of every trace is granted |
| RateLimits.ClientsAreIndependent | rust/src/rate_limit.rs:35-44 | a client's decisions depend on its own requests only |
| RateLimits.RefusedOnlyWhenSpent | rust/src/rate_limit.rs:36-44 | a refusal comes only after `limit` grants in the current window |
| RateLimits.AtMostLimitPerWindow | rust/src/rate_limit.rs:36-44 | no window ever holds more than `limit` grants, whatever follows |
| RateLimits.AtMostTwiceTheLimit | rust/src/rate_limit.rs:36-44 | no half-open interval of 60 seconds holds more than twice the limit |
| ChainSort.SortFromLast | python/src/util.py:44-61 | a list of the same length that ends in the last block and in which each block is the parent of the next, or the parent hash that is missing |
| ChainSort.SortedIsPermutation | python/src/util.py:44-61 | with distinct hashes and acyclic links that list is a permutation of the input |
| ChainSort.ChainIsFound | python/src/util.py:44-61 | if the blocks form a chain, listed in any order before its last, no lookup fails and the chain is the result |
| CompactBlocks.BlockTransactionsRequest.FromAbsolute | python/src/p2p_framework/object.py:813-820 | stores the differences of a list of indexes |
| CompactBlocks.BlockTransactionsRequest.ToAbsolute | python/src/p2p_framework/object.py:822-828 | the indexes of the stored differences |
| CompactBlocks.EncodingIsOneToOne | python/src/p2p_framework/object.py:813-828 | the two directions undo each other on all lists |
| CompactBlocks.ValidIndexesIff | python/src/p2p_framework/object.py:813-828 | indexes rise strictly from zero on exactly when no difference is negative (BIP 152) |
| CompactBlocks.ToP2P | python/src/p2p_framework/object.py:709-714 | the prefilled transactions with their differences |
| CompactBlocks.FromP2P | python/src/p2p_framework/object.py:696-700 | the prefilled transactions with their indexes again |
| CompactBlocks.RebuiltIsSame | python/src/p2p_framework/object.py:692-715 | rebuilding from what was sent gives back the same |
| CompactBlocks.CarriesEncodes | python/src/p2p_framework/object.py:692-715 | the prefilled indexes are encoded as those of a request are, each transaction staying in its place |

## Left out

- WriteBehind.TxTablesFollowMemory: what the tables hold on a schedule that is not quiet is `ApplyAll` of `Worker.Batched`, and no simpler description of it is given.
- Restart.ReplayKeepsTables: says nothing of the `mempool` and `utxo` tables, on which memory, reloaded from them, may act anew.
- Sync.SyncReachesTip: the peer speaks only when asked and has a fixed chain whose first block has the smallest timestamp, so that no block is taken for an orphan.
- Delivery.AnyOrderDelivers: the chain's heights stay below 2^31, as they must for `process_block` to store its blocks (see `ChainState.AcceptKeepsStandingIff`).
- Logics.Logic.RequestNextBlock: the last known hash is a hash, not its text; the branch for text that does not decode cannot be reached, because `BlockManager::new` refuses such a start hash. The `rnd_orphans` test feature is not modelled.
- TxDbs.TxDb.AddToMempool: the map from a hash to itself is a set.
- RateLimits.RustLimiter.Allow: of the locks only that they can be poisoned is modelled. Limits are not negative.
- Logics.Logic: `on_tx` and `flush_database_cache`, which flush only when the state is ready, enter as arbitrary calls of `Utxo` and `TxDb`.
- BlockManagers.BlockManager.HandleOrphanBlock: heights are unbounded numbers; a manager that has a header has a height of at least one.
- Wire objects are values: `deserialize` filling an object's fields in place, the position at which a failed read leaves the stream, and the cached hashes are not captured. Field types carry the ranges that `struct.pack` enforces with errors.
- The floating-point logarithm and division of the tree's shape are exact integers here.
- JSON, HTTP, authentication, configuration, logging, threads, sockets and the `chain_gang` library.
- SQL text, retries, table creation and MySQL failures other than a taken key. A text stored in a hash column either decodes or does not.
- `TxAnalyser`: `process_tx_inputs` and the loop over a block's transactions build iterators that are never consumed and so do nothing; `process_tx_outputs`, which a standalone transaction reaches, enters as arbitrary calls of `Utxo.Add`. Collections and monitors.
- `sort_blocks_by_hash_from_first`, which does not compute what its name says, and the vectors of varints.
- `has_chain_tip`'s clock: whether the last header is recent is a parameter of `OnBlock`.
