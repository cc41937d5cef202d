# Verification of Cascadeth's core

Cascadeth replaces chain consensus by stake-weighted acknowledgements (acks). A validator acks a
transaction by putting it in a block; every node adds up the stake behind each ack per sender, nonce
and transaction hash, and applies a transaction to a state detached from the chain once its ack weight
passes four fifths of the total stake. This project models that protocol and the machinery around it in
Dafny, and proves properties of the models for all inputs, all runs or all reachable states.

`dafny verify dfyconfig.toml` checks the whole project.

## What is modelled

| part | files |
|---|---|
| sums, transactions, accounts, state | `Sums`, `Types` |
| gas, fees and balances of one transaction | `Gas` |
| votes, stake and quorums; validation and the ledger of one block | `Ballots`, `Ledger` |
| processing a block on values; the same on the pool's nested maps, gas pool and state object | `Processor`, `Node` |
| the turns of a block, read off before it is processed | `Turns` |
| many nodes with Byzantine validators: agreement and its exact bound | `Network`, `Tightness` |
| what becomes of confirmed transactions: blocks without error, what is lost, when a block fits, repeated entries, runs that show what fails | `Retention`, `Failures`, `Capacity`, `Repeats`, `Scenarios` |
| heaps, the nonce-sorted map, account lists, the hash lookup, the price heap | `Heap`, `NonceMap`, `SortedMap`, `TxList`, `ListOps`, `Lookup`, `PricedList` |
| the transaction pool over these indices, its fair truncation, and how it exceeds its limits | `PoolIndex`, `Fairness`, `TxPool`, `Overflow` |
| the canonical header chain, ancestor lookups, the section indexer | `HeaderChain`, `Ancestors`, `Indexer` |
| event delivery to subscribers | `Feed` |
| wallet derivation paths | `HdPath` |

Code that changes things step by step is modelled by classes and loops; each method is proved against a
function or predicate on values, and the promises are proved about those. Hashes are injective: a hash is
modelled by what it is the hash of. The sender of a transaction is a fixed function of it. An EVM call is a
parameter that conserves the sum of balances and returns at most the gas it was given; `Gas` defines the one
of plain transfers, which all runs in `Scenarios` and `Tightness` use. Things decided outside (the tie-breaking
coin of the header chain, which channel is ready, what the chain looks like at a read, the last activity of an
account) are parameters or free choices.

## What turned out

- Agreement holds in all runs exactly when the Byzantine stake is below 2(floor(4T/5)+1)-T, which is more
  than three fifths of the total stake T; with that much stake two honest nodes can be made to confirm
  different transactions (`Tightness.AgreementIffTolerable`).
- A comment at core/tx_pool.go:1009 speaks of two thirds; the code compares with four fifths, and the model
  follows the code. The `potentialTx` of an unconfirmed entry is only set on a copy, so it is never stored.
- A confirmed transaction can be lost. A block that fails is rolled back, but the votes it recorded and its
  in-place compaction of the confirmed list are not: what the first loop applied was never listed, and what the
  second loop applied may be written over. A block that succeeds drops what it refuses for more than money or
  predecessors, such as a transaction below the minimum price, which the local ack path lets through, or one that
  new settings rule out. `Failures.BlockLoses` says for all blocks and all confirmed transactions when one is lost
  and when not, and no step of a run but such a block loses any (`Failures.StepLoses`, `Failures.LostByABlock`).
  `Scenarios.AckLoopLoses`, `Scenarios.CompactionLoses` and `Scenarios.LowPriceLoses` are runs of honest
  validators from genesis, one for each way. With fixed settings and without failures no transaction at or above
  the minimum price is lost (`Retention.NoneLost`).
- Whether a block of plain transfers fails is a matter of signatures, senders and sums of gas
  (`Capacity.PlainSucceeds`).
- Each new voter above the quorum confirms a transaction again. While the list holds two applicable entries for
  one sender every block fails; without such a pair some block gets through, for plain transfers, matching fork
  flags and signed entries (`Repeats.ProgressIff`). A failing block can resolve a pair by writing a waiting entry
  over the first of the two. With nothing waiting between them it never does and the node rejects every later
  block; all other nodes can recover (`Repeats.StuckForever`, `Repeats.RecoveryIff`). Honest validators can lead
  a node there (`Scenarios.RunToStuck`).
- Mining writes a block with a state in which its transactions are applied, but the detached state follows
  imported blocks alone (`Network.DetachedIsReplay`, `Scenarios.MinedStateDiffers`).
- A remote transaction that left the pool and came back can have two entries in the price heap. Making room then
  counts its slots twice and frees too few; it frees enough for all needs exactly when there is no such
  transaction (`PricedList.FreesEnoughIffOnce`, `PricedList.DiscardShort`). So a pool can take a transaction and
  end above its limits (`Overflow.OverTheLimit`).
- A reset makes the pool track nonces from the state again. A payable transaction at the next nonce to ack then
  waits in the queue until the state's nonce has come up to it, if it was not pending before
  (`TxPool.TxPool.NextReady`, `TxPool.TxPool.RunReorg`).
- A batch of headers that are all known, wins a tie and does not end in the current header moves the head
  without rewriting the canonical map. The invariant survives exactly otherwise
  (`HeaderChain.HeaderChain.WriteHeaders`, `HeaderChain.KnownTieBreaks`).
- The empty derivation path is the only one whose printed form does not parse back (`HdPath.RoundTrip`).

## Model

| member | source | states |
|---|---|---|
| `Gas.DivisionGuard` | core/state_transition.go:132-141 | The division tests that guard the data charge hold exactly when the exact sum would exceed 64 bits. |
| `Gas.CountNonZero` | core/state_transition.go:121-126 | The counting loop splits the data so that the two prices times their counts give the data charge of the reference definition. |
| `Gas.ChargeData` | core/state_transition.go:119-142 | Charges for data are the exact sum, or an overflow error exactly when the sum does not fit in 64 bits. |
| `Gas.ChargeAccess` | core/state_transition.go:143-146 | The access list charge is added with 64-bit wrap-around, as the code does; no overflow test is made there. |
| `Gas.ComputeIntrinsicGas` | core/state_transition.go:110-148 | The loop and the guards compute the reference intrinsic gas, with the same overflow outcome. |
| `Gas.TotalAfterAdd` | core/evm.go:108-111 | Crediting an account raises the sum of all balances by exactly that amount, whether or not the account existed. |
| `Gas.TransitionConserves` | core/state_transition.go:182-309 | An executed transaction uses at most its gas limit, pool plus used gas is unchanged, the sum of balances falls by exactly the fee for the used gas (fees are burned) and no balance gets negative, for every conserving call. |
| `Gas.TransitionNonces` | core/state_transition.go:197-274 | Only the sender's nonce moves among external accounts: it equals the transaction's nonce before and is one higher after. |
| `Gas.TransferMoves` | core/evm.go:102-111 | A transfer takes the amount from the sender, gives it to the recipient and moves nothing else; for one and the same account nothing changes; the sum of balances and all nonces stay. |
| `Gas.TransferCallMoves` | core/vm/evm.go:222-275 | A call without code hands all its gas back and transfers the value if the sender has it; otherwise nothing moves. Nobody but the sender loses balance and no balance gets negative. |
| `Gas.TransferCallConserves` | core/vm/evm.go:222-275 | The call of plain transfers keeps the sum of balances and solvency and returns at most the gas it was given, for all states and transactions: it is an EVM in the sense of all other results. |
| `Gas.PlainTransfersOnly` | core/evm.go:102-111 | The EVM of plain transfers takes balance from the sender only, so the results that ask for this hold for it. |
| `Gas.GasPool.AddGas` | core/gaspool.go:29-35 | Adds exactly; the overflow that would panic is excluded by a precondition that every caller in the model discharges. |
| `Gas.GasPool.SubGas` | core/gaspool.go:39-46 | Takes the amount if and only if it is there and changes nothing otherwise. |
| `Gas.StateTransition.BuyGas` | core/state_transition.go:182-194 | Takes gas from the pool and its price from the sender, or fails for funds first and for pool second, without any change. |
| `Gas.StateTransition.PreCheck` | core/state_transition.go:197-210 | Nonce errors come before funds and gas errors; a failure leaves pool and state as they were. |
| `Gas.StateTransition.RefundGas` | core/state_transition.go:289-304 | The refund is at most half the gas used and at most the counter; remaining gas goes back to the pool and its price to the sender. |
| `Gas.StateTransition.TransitionDb` | core/state_transition.go:225-286 | The step-by-step mutation of gas counter, pool and balances equals the transition defined on values; the panic in `AddGas` is unreachable. |
| `Ballots.CastWeights` | core/tx_pool.go:997-1007 | A first vote adds the voter's stake to one hash and to the slot's received stake and to nothing else. |
| `Ballots.ReceivedIsSumOfWeights` | core/tx_pool.go:931-1017 | For any ballots the stake received for a sender and nonce is the sum of the ack weights over all hashes. |
| `Ballots.QuorumsIntersect` | core/tx_pool.go:1002-1017 | Two sets of voters above floor(4T/5) share at least 2(floor(4T/5)+1)-T stake. |
| `Ballots.OneHashPerNode` | core/tx_pool.go:931-1017 | At one node at most one hash per sender and nonce can exceed the quorum. |
| `Ballots.SharedStake` | eth/backend.go:202-205 | The stake two quorums of floor(4T/5) must share is more than three fifths of the total. |
| `Ledger.AckedIsAlmostApplicable` | core/tx_pool.go:673-799 | What may be acked can later be refused application only for its nonce or for lack of funds. |
| `Ledger.BooksBalance` | core/state_processor.go:206-224 | After any sequence of applications used gas plus gas pool is the block's limit and the sum of balances fell by exactly the fees on the receipts. |
| `Ledger.AtMostOnePerSender` | core/state_processor.go:94-197 | Applying transactions admitted against the frozen state serves each sender at most once, at its start-of-block nonce. |
| `Ledger.TransfersKeepFunds` | core/state_processor.go:94-197 | With plain transfers an account that has not been served yet has at least what it started the block with. |
| `Ledger.FailsOnlyOnGasOrRepeat` | core/state_processor.go:94-197 | With matching fork flags and plain transfers, applying admitted transactions fails only for the gas pool, for a repeated nonce or for a missing signature. |
| `Ledger.PlainFailsOnlyOnGasOrRepeat` | core/state_processor.go:94-197 | The same for the EVM of plain transfers, with no assumption left about the EVM. |
| `Processor.ProcessOnePerSender` | core/state_processor.go:61-203 | A block applies at most one transaction per sender, with the sender's start-of-block nonce. |
| `Processor.ProcessBalances` | core/state_processor.go:61-203 | Throughout a block used gas plus gas pool equals the block gas limit and balances fall by exactly the fees. |
| `Processor.ProcessFailsOnlyOnGasOrRepeat` | core/state_processor.go:61-203 | With matching fork flags and plain transfers a block fails only on gas pool exhaustion, a repeated nonce or an unsigned transaction. |
| `Processor.CompactionIsFilter` | core/state_processor.go:139-197 | Writing kept transactions back at index n while reading at index i equals filtering the list, at every point of the loop. |
| `Processor.ProcessCompaction` | core/state_processor.go:139-197 | After a successful block the confirmed list is the list after the ack loop, filtered by what cannot be applied yet. |
| `Processor.ErrorFreezes` | core/state_processor.go:183-186 | Once an application fails, the rest of the confirmed list is not touched. |
| `Processor.ProcessSound` | core/state_processor.go:94-126 | Every vote the block added is by its author for a transaction in it, and every confirmation is backed by a quorum of votes. |
| `Processor.AppliedWasConfirmed` | core/state_processor.go:94-197 | Whatever a block applies was confirmed: earlier by this node, or by an ack in this block. |
| `Processor.PlainProcessFailsOnlyOnGasOrRepeat` | core/state_processor.go:61-203 | The same for the EVM of plain transfers, with no assumption left about the EVM. |
| `Turns.TurnsDecide` | core/state_processor.go:61-203 | What both loops of a block do to gas, state and receipts equals applying one list of transactions in order, and that list can be read off the node and the block beforehand: the confirming acks that can be applied, then the listed transactions that can. |
| `Turns.SingleAckImport` | core/state_processor.go:94-197 | A block with one confirming ack, while everything listed waits, applies that transaction or lists it, and changes votes, list and states in no other way. |
| `Network.RunInvariant` | core/state_processor.go:255-312 | Over every run from genesis: honest validators acked one hash per sender and nonce, all votes are genuine, confirmations have a quorum, and histories have consecutive nonces. |
| `Network.QuorumAgreement` | core/tx_pool.go:904-1030 | In a state with the invariant and tolerable Byzantine stake, two confirmations for one sender and nonce are for the same transaction. |
| `Network.RunAgreement` | core/tx_pool.go:904-1030 | In every reachable state no two honest nodes, nor one node twice, confirmed different transactions for the same sender and nonce. |
| `Network.ThreeFifthsTolerable` | eth/backend.go:202-205 | Byzantine stake of at most three fifths of the total is tolerable. |
| `Network.HistoryEntry` | core/state_processor.go:94-197 | The i-th applied transaction of a sender was confirmed and has the genesis nonce plus i. |
| `Network.HistoriesAgree` | core/state_processor.go:94-197 | Given agreement, a sender's applied transactions at one node are a prefix of those at another, or the reverse. |
| `Network.RunHistoriesAgree` | core/blockchain.go:1982-2054 | In every reachable state honest nodes' histories of a sender are prefixes of one another, with consecutive nonces from genesis. |
| `Network.StepMovesDetached` | core/blockchain.go:1576-1593 | Of all steps of a run, mined and sealed blocks with the state built for them included, only an imported block without error moves a node's detached state, and it moves it by exactly the transactions attempted. |
| `Network.DetachedIsReplay` | core/blockchain.go:1576-1593 | Over every run a node's detached state is the genesis state advanced by exactly the blocks it imported without error, in order; blocks it built, with the state in which their transactions are applied, leave no trace. |
| `Network.RunOneHashPerNode` | core/tx_pool.go:931-1017 | In every reachable state, whatever the Byzantine stake, at most one hash per sender and nonce exceeds the quorum at a node. |
| `Tightness.Disagreement` | core/tx_pool.go:922-1017 | A run in which Byzantine stake of exactly the shared amount makes two honest nodes confirm different transactions for one nonce. |
| `Tightness.AgreementIffTolerable` | eth/backend.go:202-205 | Agreement holds in all runs if and only if Byzantine stake is below 2(floor(4T/5)+1)-T: the bound is exact. |
| `Retention.BlockAccounts` | core/state_processor.go:104-197 | A successful block leaves every acceptably priced confirmed transaction applied, still listed, or below its sender's nonce. |
| `Retention.RunRetains` | core/state_processor.go:104-197 | Over runs of successful blocks with fixed pool settings, no acceptably priced confirmed transaction is unaccounted for. |
| `Retention.OvertakenByItself` | core/state_processor.go:139-197 | Under agreement a confirmed transaction below the state nonce is below it because it was itself applied. |
| `Retention.NoneLost` | core/state_processor.go:104-197 | Together: such a transaction is applied or still in the confirmed list. |
| `Failures.FailureLeaves` | core/state_processor.go:94-197 | What a failing block leaves of the confirmed list, whichever loop it fails in: the waiting ones passed so far written over the front, the rest of the list after the first loop behind them, and no state change. |
| `Failures.FailureAccounts` | core/state_processor.go:94-197 | After a failing block a confirmed transaction, whatever its price or gas, is listed or overtaken if and only if it waits for money or predecessors, or is overtaken already, or stands in the old list at or behind the first place not written over. This covers transactions confirmed in the failing block itself. |
| `Failures.SuccessAccounts` | core/state_processor.go:94-197 | After a block without error a confirmed transaction is applied, listed or overtaken if and only if it could be applied in the state before, or waits for money or predecessors, or its nonce is below its sender's once the turns have been taken. All others are refused and dropped. |
| `Failures.BlockLoses` | core/state_processor.go:94-197 | For every block and every confirmed transaction, without any condition on price, gas or signature: it is neither applied nor listed nor overtaken afterwards if and only if `Loses` holds, which is read off the node and the block before the call. |
| `Failures.StepLoses` | core/state_processor.go:61-312 | Of all steps of a run, mining, sealing and new settings included, a transaction that was accounted for is lost by exactly those imports for which `Loses` holds. |
| `Failures.LostByABlock` | core/state_processor.go:61-312 | Over every run, with failing blocks and changing settings, a confirmed transaction that is neither applied nor listed nor overtaken was lost by a block the node imported, and that block is found. |
| `Failures.StopsExactly` | core/state_processor.go:139-197 | The place where the second loop stops is the one entry before which the turns succeed and with which they fail. |
| `Repeats.LateVoterRepeats` | core/state_processor.go:104-126 | A new voter above the quorum confirms a transaction a second time and lists it twice. |
| `Repeats.RepeatStops` | core/state_processor.go:139-197 | Two applicable list entries for one sender make every block fail at the second at the latest. |
| `Repeats.ProgressIff` | core/state_processor.go:61-203 | Some block gets through if and only if the list holds no two applicable entries for one sender, for matching fork flags, transfers that take from the sender only and a signed list. |
| `Repeats.StuckForever` | core/state_processor.go:139-197 | With two applicable entries for one sender and nothing waiting between them every block fails, leaves the detached state alone and leaves the node as it was in this respect. |
| `Repeats.RunStuck` | core/state_processor.go:61-312 | The same over runs: from then on no block, mined or received, moves the node's detached state, whatever else happens and however often its pool is reset, unless its own settings change. |
| `Repeats.RecoveryIff` | core/state_processor.go:61-203 | Some sequence of blocks, the earlier ones possibly failing, ends in one that gets through if and only if there is no such pair: a waiting entry in between is written over the first of the pair by a failing block, which resolves it. |
| `Capacity.PlainFits` | core/state_processor.go:206-224 | Admitted plain transfers all apply if and only if they are signed, have different senders, and for each the block's limit less the intrinsic gas of those before covers its gas; the gas left is then the limit less all intrinsic gas. |
| `Capacity.PlainSucceeds` | core/state_processor.go:61-203 | A block of plain transfers gets through if and only if its turns fit in that sense. |
| `Capacity.PlainStopsAt` | core/state_processor.go:139-197 | The second loop stops at the first entry with which the turns do not fit. |
| `Capacity.PlainLoses` | core/state_processor.go:94-197 | What a block of plain transfers loses, with that condition in the place of the block's outcome. |
| `Scenarios.AckLoopLoses` | core/state_processor.go:94-136 | A run from genesis of honest validators in which a transaction confirmed and applied in the first loop is lost because a later one does not fit in the block. |
| `Scenarios.CompactionLoses` | core/state_processor.go:139-197 | A run from genesis of honest validators in which a listed transaction is written over in the second loop of another validator's block that then fails, and is lost. |
| `Scenarios.LowPriceLoses` | core/state_processor.go:168-172 | A run from genesis of honest validators without any failing block: a transaction below the minimum price is acked locally, confirmed and listed, and the next block, which succeeds, drops it. |
| `Scenarios.RunToStuck` | core/state_processor.go:94-197 | A run from genesis of honest validators after which a node rejects every block. |
| `Scenarios.MinedStateDiffers` | miner/worker.go:739-763 | A run in which the state a block is sealed with has its transaction applied while the detached state has not. |
| `Node.Node.constructor` | core/tx_pool.go:303-360 | A node starts with empty ballots and the genesis state. |
| `Node.Node.RecordVote` | core/tx_pool.go:931-1007 | The nested maps for weights, voters and received stake count exactly the abstract ballots, and the returned weight is the stake of the hash's supporters. |
| `Node.Node.AddAck` | core/tx_pool.go:904-1030 | Counts one vote per validator and slot, advances the expected nonce for a local ack, and reports a confirmation exactly when a new voter brings the hash above the quorum. |
| `Node.Node.ApplyLocally` | core/state_processor.go:255-312 | The local ack path validates, votes and lists; without a quorum it reports insufficient acks and leaves the mining state alone; with one it applies the transaction to the mining state, or returns that error; an invalid one changes nothing. |
| `Node.Node.CommitTransaction` | miner/worker.go:739-763 | The block under construction takes a transaction in, applied or for its ack only, and leaves it out with the state restored exactly when validation or application fails. |
| `Node.Node.WriteBlockWithState` | core/blockchain.go:1576-1593 | Writing a block makes its state the detached one exactly when it was not mined here. |
| `Node.Node.StakeAddsUp` | core/tx_pool.go:931-1017 | On the node's own nested maps: the stake received for a slot is the sum of the weights of its entries. |
| `Node.Node.OneEntryAboveQuorum` | core/tx_pool.go:931-1017 | On the node's own nested maps: at most one entry of a slot has an ack weight above the quorum. |
| `Node.Node.ApplyTransaction` | core/state_processor.go:206-224 | One application through the mutable gas pool and state equals one step of the value-level ledger. |
| `Node.Node.ProcessAck` | core/state_processor.go:94-136 | One turn of the block loop equals one step of the reference: skip, count, list or apply. |
| `Node.Node.ProcessAcks` | core/state_processor.go:94-136 | The whole block loop, with its early exit, equals the reference loop. |
| `Node.Node.ProcessRetry` | core/state_processor.go:142-195 | One turn of the loop over confirmed transactions, with its in-place write, equals one step of the reference. |
| `Node.Node.ProcessRetries` | core/state_processor.go:139-197 | The whole loop over confirmed transactions equals the reference loop. |
| `Node.Node.ProcessBlock` | core/state_processor.go:61-203 | Processing a block through nested maps, gas pool and state object equals `Process` on values, including every error path. |
| `Node.Node.InsertBlock` | core/blockchain.go:1982-2054 | Importing a block moves the detached state exactly when processing succeeds. |
| `Heap.RootIsLeast` | core/tx_list.go:31-48 | In a heap nothing is less than the first element. |
| `Heap.Up` | core/tx_list.go:31-48 | Sifting up restores the heap and permutes it. |
| `Heap.Down` | core/tx_list.go:31-48 | Sifting down restores the heap from any start index and permutes it. |
| `Heap.Init` | core/tx_list.go:113-119 | Heapifying yields a heap with the same contents. |
| `Heap.Push` | core/tx_list.go:72-79 | Pushing keeps the heap and adds exactly one element. |
| `Heap.Remove` | core/tx_list.go:167-184 | Removing at any index keeps the heap and takes off exactly that element. |
| `Heap.Pop` | core/tx_list.go:83-100 | Popping returns a least element and keeps the heap of the others. |
| `SortedMap.TxSortedMap.Put` | core/tx_list.go:72-79 | Inserts or replaces at a nonce; heap index and cache stay consistent with the map. |
| `SortedMap.TxSortedMap.Forward` | core/tx_list.go:83-100 | Removes exactly the nonces below the threshold, in order; a cached sort stays right after slicing. |
| `SortedMap.TxSortedMap.FilterOut` | core/tx_list.go:124-138 | Splits the map into accepted and rejected transactions; the index is left to the caller and the cache dropped only if something went. |
| `SortedMap.TxSortedMap.Filter` | core/tx_list.go:104-111 | As the plain filter on maps, with the heap rebuilt. |
| `SortedMap.TxSortedMap.Cap` | core/tx_list.go:142-163 | Keeps exactly the lowest nonces up to the limit and returns the others highest first; the cache is cut accordingly. |
| `SortedMap.TxSortedMap.Remove` | core/tx_list.go:167-184 | Removes one nonce from map, heap index and cache and says whether it was there. |
| `SortedMap.TxSortedMap.Ready` | core/tx_list.go:193-208 | Removes exactly the maximal consecutive run from the lowest nonce, and nothing if that is above the start. |
| `SortedMap.TxSortedMap.FlattenCache` | core/tx_list.go:215-226 | The cached or freshly sorted slice is the sorted contents. |
| `SortedMap.TxSortedMap.LastElement` | core/tx_list.go:240-243 | Returns the transaction with the highest nonce. |
| `TxList.FilterPartitions` | core/tx_list.go:321-348 | Removed, invalidated and remaining transactions partition the old list. |
| `TxList.StaysContiguous` | core/tx_list.go:308-310 | Cutting a contiguous list below or above a nonce leaves it contiguous. |
| `TxList.FilterKeepsContiguous` | core/tx_list.go:321-348 | A strict filter leaves a contiguous list contiguous. |
| `TxList.CapKeepsContiguous` | core/tx_list.go:354-356 | A cap leaves a contiguous list contiguous. |
| `TxList.TxList.Add` | core/tx_list.go:278-301 | A transaction gets in exactly when its nonce is free or it outbids by the price bump; the caps keep bounding every listed transaction. |
| `TxList.TxList.Filter` | core/tx_list.go:321-348 | The result of the short circuit equals the full scan: unpayable, invalidated and remaining part are those of the reference. |
| `TxList.TxList.Cap` | core/tx_list.go:354-356 | Keeps the lowest nonces up to the limit. |
| `TxList.TxList.Remove` | core/tx_list.go:361-376 | Removes a nonce; a strict list also loses exactly what is behind it, which is returned. |
| `TxList.TxList.Ready` | core/tx_list.go:381-383 | Removes exactly the maximal executable run. |
| `TxList.WithinCaps` | core/tx_list.go:321-325 | When both caps are within the limits the full scan would remove nothing. |
| `Lookup.TxLookup.Add` | core/tx_pool.go:2052-2064 | Adds to one side; `slots` stays the sum of the slots of everything looked up if and only if the transaction was not there before. |
| `Lookup.TxLookup.Remove` | core/tx_pool.go:2067-2084 | Removes from both sides and keeps the slot count. |
| `Lookup.TxLookup.RemoteToLocals` | core/tx_pool.go:2088-2101 | Moves exactly the remote transactions of the given accounts to the local side and returns their number. |
| `Lookup.SlotsCover` | core/tx_pool.go:2104-2106 | Transactions use at least one slot each, so the slot count is at least the number of transactions. |
| `PricedList.TxPricedList.Put` | core/tx_list.go:459-465 | Adds one entry to the heap for a remote transaction and none for a local one; every remote transaction has an entry. |
| `PricedList.TxPricedList.Removed` | core/tx_list.go:469-479 | Up to a quarter of stale entries only the counter moves; beyond that the heap is rebuilt, with one entry for each remote transaction, no other and a counter of zero. |
| `PricedList.TxPricedList.Underpriced` | core/tx_list.go:505-524 | True exactly when there are remote transactions and all cost at least as much, although the heap holds stale entries; the entries of remote transactions all stay. |
| `PricedList.TxPricedList.Cap` | core/tx_list.go:483-501 | Returns exactly the remote transactions below the threshold. |
| `PricedList.TxPricedList.Discard` | core/tx_list.go:530-551 | Succeeds exactly when forced or when the entries of remote transactions make up the slots; then it drops the cheapest such entries, no more of them than it takes; a failure leaves all of them in. If no remote transaction has two entries, the transactions dropped free the slots asked for, or all remote ones are dropped. |
| `PricedList.RepeatsCountTwice` | core/tx_list.go:530-551 | The slots counted entry by entry are those of the transactions dropped if and only if no transaction is dropped twice; otherwise fewer are freed. |
| `PricedList.FreesEnoughIffOnce` | core/tx_list.go:530-551 | Every discard that counts enough slots frees that many if and only if no remote transaction has two entries in the heap. |
| `PricedList.DiscardShort` | core/tx_list.go:459-551 | Four additions, a removal that leaves its entry in the heap and an addition of the same transaction again: a discard for two slots counts it twice and frees one. |
| `PricedList.TxPricedList.Reheap` | core/tx_list.go:554-563 | Rebuilding from the lookup gives a heap with exactly one entry for each remote transaction and no other. |
| `PoolIndex.TakeOut` | core/tx_pool.go:1278-1324 | Taking part of a list out keeps lookup and lists in agreement, with that part in transit. |
| `PoolIndex.Settle` | core/tx_pool.go:1044-1127 | A transaction in transit finds its slot free in both lists, so the branches for a refused internal move are unreachable. |
| `PoolIndex.Forget` | core/tx_pool.go:2067-2084 | Removing a transaction in transit from the lookup restores agreement. |
| `PoolIndex.Enter` | core/tx_pool.go:2052-2064 | Entering a transaction for a free slot keeps agreement. |
| `TxPool.TxPool.constructor` | core/tx_pool.go:303-360 | A new pool is empty and its indices agree. |
| `TxPool.TxPool.Add` | core/tx_pool.go:803-891 | The transaction is in the lookup afterwards exactly when no error is returned; a known or invalid one is refused with the right error and no change; a valid one in a pool that is not full is placed exactly as `Placed` says. A full pool drops what `Discarded` says and otherwise at most the transaction that is replaced, and refuses only for price, for lack of room or for a slot that is taken; taking a remote one leaves it within its limits in slots, if no remote transaction had two entries in the price heap. Nothing else enters; all indices agree. |
| `TxPool.TxPool.Place` | core/tx_pool.go:848-883 | For a pending nonce it has to outbid what is there, else it goes to the queue, where again it has to outbid what it would replace; lists, lookup, `replaced` and the set of local accounts are exact. |
| `TxPool.TxPool.MakeRoom` | core/tx_pool.go:822-847 | Exactly the transactions of the cheapest remote entries that make up the need are dropped; refused as underpriced exactly when remote and no remote one is cheaper, and as overflow only when all remote ones together would not make room; a refusal changes nothing. If no remote transaction has two entries in the price heap there is room in slots afterwards, or the transaction is local and no remote one is left. |
| `TxPool.TxPool.EnqueueTx` | core/tx_pool.go:1044-1080 | Gets in exactly when the nonce is free in the queue or the price outbids; the replaced transaction leaves lookup and heap. |
| `TxPool.TxPool.ReplacePending` | core/tx_pool.go:848-872 | Replaces a pending transaction exactly when it outbids it. |
| `TxPool.TxPool.RemoveTx` | core/tx_pool.go:1278-1324 | Takes one transaction out of its list and the lookup; a pending one takes everything behind it back to the queue. |
| `TxPool.TxPool.PromoteAccount` | core/tx_pool.go:1599-1663 | Of what is left after dropping dead transactions exactly the maximal executable run becomes pending, nothing else does, and the rest stays queued within the limit. |
| `TxPool.TxPool.PromoteExecutables` | core/tx_pool.go:1599-1663 | For any different accounts what is promoted is exactly the maximal executable run of each, in order, what stays queued is exactly the rest within the limit, pending gains nothing else, other accounts keep queue and nonce, and all indices agree. |
| `TxPool.TxPool.DemoteAccount` | core/tx_pool.go:1800-1854 | Exactly the executable part stays pending, exactly the dead transactions leave the pool, all others are queued. |
| `TxPool.TxPool.DemoteUnexecutables` | core/tx_pool.go:1800-1854 | The same for every account at once. |
| `TxPool.TxPool.CutLast` | core/tx_pool.go:1701-1719 | Cuts exactly the highest nonce of an account from list, lookup and nonce tracker. |
| `TxPool.TxPool.CutRound` | core/tx_pool.go:1700-1720 | Cuts one transaction off each of several accounts and keeps the count right. |
| `TxPool.TxPool.TruncatePending` | core/tx_pool.go:1668-1750 | Ends with the total within the limit or every account that is not local within its guaranteed slots; fair; no more cut than needed; tracked nonces lowered to what was cut; nothing touched if the pool fitted. |
| `TxPool.TxPool.TruncateQueue` | core/tx_pool.go:1753-1795 | Equals the reference trim: whole accounts, those active last first, then the highest nonces of one. |
| `TxPool.TxPool.QueueTruncated` | core/tx_pool.go:1753-1795 | After a truncation the queue is within its limit or holds local accounts only; local accounts lose nothing and others only highest nonces. |
| `TxPool.TxPool.SetGasPrice` | core/tx_pool.go:556-565 | Exactly the remote transactions below the new minimum leave the pool. |
| `TxPool.TxPool.UpdateNonces` | core/tx_pool.go:1472-1475 | Every account with pending transactions continues behind its highest nonce; safe because no kept list is empty. |
| `TxPool.TxPool.LowerPendingNonce` | core/tx_noncer.go:68-79 | The tracked nonce becomes the lower of itself and the given one. |
| `TxPool.TxPool.Reset` | core/tx_pool.go:1568-1595 | Adopts state, gas limit and fork flags of a new head, takes back transactions from the given ones only, leaves expected nonces and local accounts alone and keeps all indices in agreement. |
| `TxPool.TxPool.NextReady` | core/tx_pool.go:1613-1635 | The transaction at the next nonce to ack is promoted if and only if it is queued, payable and the tracked nonce of its account has come up to it; otherwise it waits, however many acks went before. |
| `TxPool.TxPool.RunReorg` | core/tx_pool.go:1430-1476 | Afterwards pending and queued lists are within their limits, nonces continue, and after a reset every pending list starts at the next nonce to ack and holds nothing dead. After a reset that reinjects nothing the transaction to be acked next is pending if and only if it is payable and was pending, or was queued and the state's nonce has come up to it. |
| `TxPool.TxPool.Operate` | core/tx_pool.go:803-1854 | After any sequence of additions, removals, price changes, acks, new states of blocks being processed and reorganisations the lookup holds exactly the disjoint union of pending and queued transactions, no nonce is in both lists, no kept list is empty, slots add up and every remote transaction is in the price heap. |
| `Overflow.OverTheLimit` | core/tx_pool.go:803-891 | Four additions, a removal and two more additions to a pool end above its limits in slots: the cheapest left and came back, and making room counted it twice. |
| `Fairness.LevelledIsFair` | core/tx_pool.go:1668-1750 | The state kept between rounds is fair: locals untouched, nobody below the guaranteed slots, all cut accounts equal and no shorter than any other that may be cut. |
| `Fairness.RoundKeepsLevel` | core/tx_pool.go:1699-1721 | A round that cuts all offenders but the last brings them one step closer to it and keeps the rest. |
| `Fairness.RoundKeepsEven` | core/tx_pool.go:1725-1747 | A round over all offenders keeps them level. |
| `Fairness.NextOffender` | core/tx_pool.go:1688-1697 | Taking the longest waiting spammer keeps the offenders in order of length. |
| `Fairness.RoundNeeded` | core/tx_pool.go:1699-1747 | A round is only made when the limit is exceeded, so giving one transaction back to each cut account would exceed it again. |
| `Fairness.AllWithinSlots` | core/tx_pool.go:1725-1747 | When nobody is waiting and the offenders are at the guaranteed slots, nobody but local accounts exceeds them. |
| `Fairness.TrimSound` | core/tx_pool.go:1772-1794 | A trim takes off exactly the excess unless all accounts in the order are emptied, and only highest nonces. |
| `Fairness.ByHeartbeat` | core/tx_pool.go:1762-1769 | Arranges exactly the given accounts by last activity. |
| `HeaderChain.HeaderChain.constructor` | core/headerchain.go:151-301 | A chain of the genesis header alone satisfies the invariant. |
| `HeaderChain.HeaderChain.StoreAll` | core/headerchain.go:170-199 | Stores exactly the unknown headers, which are the tail of the batch, with total difficulties summed along their paths. |
| `HeaderChain.HeaderChain.DeleteAbove` | core/headerchain.go:240-247 | Stopping at the first gap deletes every canonical hash above the new head. |
| `HeaderChain.HeaderChain.Rewind` | core/headerchain.go:248-260 | Stopping at the first canonical hash that is right already makes the whole path up to the batch canonical. |
| `HeaderChain.HeaderChain.WriteHeaders` | core/headerchain.go:151-301 | The stored tree stays closed, with right difficulties and a current header of maximal difficulty; the canonical map is exactly the path to it if and only if the batch holds something new, or the chain does not move, or its end is the current header already. |
| `HeaderChain.HeaderChain.ImportAll` | core/headerchain.go:151-301 | Any sequence of linked batches of positive difficulty, each with something new if it attaches when its turn comes, keeps the whole invariant, whatever the coin says; a batch refused for an unknown ancestor may come again. |
| `HeaderChain.MovedPath` | core/headerchain.go:229-276 | The exact condition under which the rewritten map is the path to the new head. |
| `HeaderChain.KnownTieBreaks` | core/headerchain.go:261-276 | A batch of known headers that wins a tie leaves the canonical map on the old branch while the current header moves. |
| `HeaderChain.UpUp` | core/headerchain.go:151-301 | The ancestor of an ancestor is the ancestor: paths are determined from any height down. |
| `Ancestors.GetAncestor` | core/headerchain.go:426-458 | A hash found is the n-th parent, walking one by one, and it is found exactly when the walk stays on stored headers within the budget or meets the canonical chain. |
| `Ancestors.PathIsLinked` | core/headerchain.go:426-458 | The canonical map of a valid chain is parent-linked, as the ancestor lookup assumes. |
| `Ancestors.HashFn.GetHash` | core/evm.go:68-99 | For every height below the reference block the hash of its ancestor there, after any history of calls, and zero otherwise, with 64-bit arithmetic. |
| `Indexer.AllHeadsCanonical` | core/chain_indexer.go:422-440 | If the last stored section head is canonical in a parent-linked map, all stored heads are. |
| `Indexer.StartIsProduct` | core/chain_indexer.go:397-397 | A section starts at its number times the section size. |
| `Indexer.WholeIsQuotient` | core/chain_indexer.go:247-250 | The number of whole sections below a height is the quotient by the section size. |
| `Indexer.ChainIndexer.SetValidSections` | core/chain_indexer.go:479-491 | Sets the count and removes exactly the heads from there up to the old count; the chain of heads stays whole if and only if the count did not grow past the stored heads. |
| `Indexer.ChainIndexer.VerifyLastHead` | core/chain_indexer.go:422-430 | Forgets sections until the last head is canonical as last seen. |
| `Indexer.ChainIndexer.OnHead` | core/chain_indexer.go:243-300 | A reorganisation rolls stored and known sections back to the whole sections below it; a new head rolls nothing back. |
| `Indexer.ChainIndexer.Sections` | core/chain_indexer.go:434-440 | When the canonical map seen is parent-linked, every stored head is canonical, though only the last is compared. |
| `Indexer.ChainIndexer.ProcessSection` | core/chain_indexer.go:388-417 | A section processed without error ends in the size-th descendant of the head before, even if the chain changes between any two reads. |
| `Indexer.ChainIndexer.FinishUpdate` | core/chain_indexer.go:350-369 | The new head is stored exactly when processing succeeded and no section was rolled back meanwhile. |
| `Indexer.ChainIndexer.Update` | core/chain_indexer.go:304-382 | One round of the update loop with any notifications and queries in between keeps: heads exist exactly below the stored count, each following the one before. |
| `Indexer.ChainIndexer.RunAll` | core/chain_indexer.go:304-382 | The same over any number of rounds, with anything happening between them. |
| `Feed.Feed.Subscribe` | event/feed.go:72-92 | A subscription goes to the inbox and counts as live. |
| `Feed.Feed.Unsubscribe` | event/feed.go:103-124 | Ends exactly one subscription of the channel; its case is always found. |
| `Feed.Feed.Delete` | event/feed.go:223-225 | Shifting in place removes exactly one case. |
| `Feed.Feed.Deactivate` | event/feed.go:228-232 | Swapping in place moves a case behind the active ones. |
| `Feed.Feed.TryAll` | event/feed.go:156-165 | The non-blocking pass serves each active case at most once although cases are swapped under its index. |
| `Feed.Feed.Leave` | event/feed.go:171-177 | Deleting during a delivery shrinks the active part exactly when the case was still active. |
| `Feed.Feed.Send` | event/feed.go:128-190 | Everybody subscribed at the start gets the value exactly once or left before; the count returned is the number of deliveries; the cases end as a permutation of old and inbox minus those that left, with the remove case first. |
| `HdPath.ParseDerivationPath` | accounts/hd.go:68-118 | The loop with its early exits equals the reference parse, error for error. |
| `HdPath.String` | accounts/hd.go:122-136 | The loop equals the reference print. |
| `HdPath.ComponentRoundTrip` | accounts/hd.go:92-117 | Reading a printed 32-bit component gives the component, hardened or not. |
| `HdPath.SplitPrinted` | accounts/hd.go:68-91 | Splitting a printed path gives the marker and the printed components. |
| `HdPath.RoundTrip` | accounts/hd.go:68-136 | For 32-bit components, parsing the printed form gives the path back if and only if the path is not empty. |
| `HdPath.PrintNormalizes` | accounts/hd.go:68-136 | However a path was written, printing what was read and reading that again changes nothing. |

## Left out

- The a posteriori Multishot contract, its proposals and decisions (core/tx_pool.go:366-418, 494-520, 1019-1029): ack invariants are stated for runs without decisions.
- The miner's worker apart from taking transactions in and writing the block, and the clique engine: a block's author is authentic, and an honest validator's blocks carry only transactions that passed its local ack path.
- Restarts of a node: the expected ack nonces are not persisted, and agreement is stated for runs without restarts.
- The EVM interpreter, contract creation, tries, snapshots, the DAO fork, `Finalize`, receipt blooms and logs: state is a map from address to nonce and balance.
- Signatures, hashing, RLP encoding, 64-bit wrap-around of nonces and block numbers (except in `Gas` and `Ancestors.HashFn`).
- Code that this fork switches off by an unconditional panic: side chains, `SetHeadBeyondRoot`, `InsertReceiptChain`, `writeKnownBlock` and with it `reorg`, which nothing else calls.
- The pool's journal, event feeds, metrics, timers, lock scheduling, `Content`, `Stats` and other read-only views: none of them changes the indices or the ack state that the properties are about.
- Caches of headers, numbers and total difficulties, database batches and interrupted header imports; `HeaderChain.SetHead`.
- Indexer checkpoints and child indexers, and the contents the backend writes.
- Type checks and panics of the event feed; channels are identities and a send either succeeds or has to wait.
- In the pool, lists are held by their contents and each list operation goes through a list object; sharing of list objects between the pool's maps is not captured, nor the order of lookup and list updates within one locked operation.
- Strings of derivation paths are sequences of characters; invalid UTF-8 is not modelled.
- Node.Node.AddAck: does not re-add an unknown transaction to the queue (core/tx_pool.go:917-920), which is not part of the ack state; the pool's own `Add` is modelled in `TxPool`.
- TxPool.TxPool.Add: for a full pool it states what leaves and enters the lookup, not to which list the transactions behind a dropped pending one go; the agreement of all indices is stated.
- TxPool.TxPool.PromoteExecutables: for a list that names an account twice it states agreement and the frame, not the two promotions; the callers pass each account once.
- TxPool.TxPool.Reset: takes the transactions to reinject as given; finding them by walking two chains (core/tx_pool.go:1505-1562) is not modelled.
- TxPool.TxPool.RunReorg: what it states about the transaction to be acked next is for resets that reinject nothing; a head that extends the last one reinjects nothing.
- PricedList.TxPricedList.Removed: takes the number of stale entries as given and does not claim that the counter is exact, which it is not once a transaction came back to an entry counted as stale.
- PricedList.TxPricedList.Discard: without the condition on entries it does not promise that the slots asked for are freed; nor do `TxPool.TxPool.MakeRoom` and `TxPool.TxPool.Add`.
