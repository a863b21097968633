# Blockifier, modelled and proved

Blockifier executes Starknet transactions into a block. This project models the parts of it whose
correctness is hard to see from any one function, and proves what they are for:

* **Optimistic concurrency.** Workers take execution and validation tasks from a lock-free scheduler
  and run transactions against a multi-version state. The scheduler is a transition system in which every
  atomic load, fetch-operation or lock section is one step; runs interleave any number of workers in any
  order. Proved for every run: no assertion fires, active tasks are conserved, execution is exclusive, the
  indices are bounded, a worker leaves only when done, and the done marker is sound and stable. The methods of
  the scheduler are also written as the methods of an object, and each is proved to do what its steps do one
  after the other. The scheduler is then combined with the
  multi-version store and deterministic transactions: when the done marker is set, the outputs and the
  store are those of running the transactions one after the other, exactly when no abandoned write of a
  re-executed transaction shows through and no read that failed would now succeed. Both do happen: for each
  there is a run of two workers that sets the done marker and is not serialized. A condition on the
  transactions under which neither can happen is given.
* **Cached and transactional state.** The read/write caches, nested by begin, commit and abort, are proved
  to behave as a plain stack of maps for every sequence of operations: a read returns the last write that was
  not aborted, and else what was there before. The computed state changes are the exact difference of what the
  state and its parent show.
* **Bouncer and executor.** Residual accounting telescopes to a closed form of the accepted transactions,
  weights always fit in every component, order does not matter, state and bouncer stay in step over a block,
  and a block stops early only at a transaction that would fit an empty block and does not fit this one.
* **Fees.** Pre-validation, post-execution checks and revert are proved to keep the fee within the sender's
  bound, so that the panic before the fee transfer is unreachable; the fee is the smaller of cost and bound.
  Validation cannot move the sender's balance unless the sender is the fee token itself, so the state the fee
  is transferred from can pay it in every flow; with such a sender and a fee token that transfers whatever the
  balance covers, nothing fails once a transaction has run.
* **Self-contained algorithms.** Visited bytecode segments, the memoised gas-cost table, and the
  explicit-stack call iterator, each against a specification that does not mention its traversal.

One cell type stands for the four typed mappings of the state (storage, nonces, class hashes, compiled class
hashes). User code is represented by what it does to the state: an arbitrary deterministic program of reads and
writes in the concurrent part, an arbitrary sequence of operations elsewhere. Numbers are naturals; saturation
is modelled where the code saturates, 64-bit wrapping in the gas-cost table and of nonces, and no-overflow
conditions are preconditions where a product is unchecked.

## Findings

* crates/blockifier/src/concurrency/versioned_state_proxy.rs:120-141. Applying the writes of a re-executed
  transaction keeps cells that only its earlier execution wrote. There is a run in which such a cell shows
  after the done marker is set: `Anomalies.LeftoverBreaksSerializability`.
* crates/blockifier/src/state/cached_state.rs:169-172 and
  crates/blockifier/src/concurrency/versioned_state_proxy.rs:190-194. A read that fails is not recorded, so it
  is not validated. There is a run in which a transaction fails for want of a cell that an earlier
  transaction writes, and is never executed again: `Anomalies.FailedReadBreaksSerializability`. A chunk is
  serialized exactly when neither of the two happens: `Serializability.SerializableIff`.
* crates/blockifier/src/state/cached_state.rs:648-660. A write that a later stage of the same transaction
  cancels is still counted in the merged changes: `StateChanges.CancelledWriteIsCounted`; exactly which
  cells are counted is `StateChanges.MergedKeysAreTouched`.
* crates/blockifier/src/state/cached_state.rs:490-500. Compiled class hashes are not given initial values
  before subtraction, so a written one counts as changed even when it is not:
  `CachedState.WritesSameCompiledClassHash`; exactly which ones are reported is
  `CachedState.CachedState.GetActualStateChanges`.
* crates/blockifier/src/fee/fee_checks.rs:163-166. That validation cannot change the balance holds unless the
  sender is the fee token: `AccountTransaction.ValidationKeepsBalance`. A fee token that sends a transaction
  can make the fee transfer fail after a revert: `AccountTransaction.FeeTokenMaySpendTheFee`. Before anything
  runs, every charge is payable exactly when the sender is not the fee token or the bound is zero:
  `AccountTransaction.SenderDecidesSolvency`; after validation, exactly when the state it left covers the
  bound: `AccountTransaction.SolventAfterValidationIff`.
* crates/blockifier/src/transaction/account_transaction.rs:200-210. Pre-validation panics when the minimal gas
  exceeds both the sender's bound and 64 bits: `AccountTransaction.PerformPreValidationStage`; an instance is
  `AccountTransaction.MinimalGasMayPanic`.
* crates/blockifier/src/concurrency/scheduler.rs:112-124. The second read of the decrease counter in the done
  check is needed: `SchedulerRecheck.RecheckIsNeeded`.

## Files

| file | content |
|---|---|
| `Cells.dfy` | cells, values, readers |
| `Scheduler.dfy`, `SchedulerSafety.dfy`, `SchedulerTheorems.dfy`, `SchedulerRecheck.dfy` | the scheduler, its invariants, its theorems, and why the counter is read twice |
| `SchedulerObject.dfy` | the scheduler's methods, tied to its steps |
| `VersionedStorage.dfy`, `VersionedState.dfy` | the multi-version store |
| `Serializability.dfy` | sequential execution, and when a validated store agrees with it |
| `ParallelExecution.dfy`, `ParallelSafety.dfy` | workers, scheduler and store together |
| `Runs.dfy` | runs of any transition system |
| `ChunkRuns.dfy`, `Anomalies.dfy` | how to build a run, and two runs that are not serialized |
| `LayeredState.dfy`, `CachedState.dfy`, `StateChanges.dfy` | stacks of maps, the caches, state differences |
| `Bouncer.dfy`, `TransactionExecutor.dfy` | block resources and the sequential executor |
| `Fees.dfy`, `AccountTransaction.dfy` | fee arithmetic and the account-transaction pipeline |
| `VisitedSegments.dfy`, `GasCosts.dfy`, `CallTree.dfy` | self-contained algorithms |

`dafny verify dfyconfig.toml` checks everything.

## Model

| member | source | states |
|---|---|---|
| `SchedulerTheorems.NoStepPanics` | crates/blockifier/src/concurrency/scheduler.rs:77-176 | In every state of every run, whichever worker steps next does not panic: no underflow of the active-task counter, every status assertion holds. |
| `SchedulerTheorems.ActiveTasksAreConserved` | crates/blockifier/src/concurrency/scheduler.rs:126-129 | In every reachable state the active-task counter is the number of workers holding a task or a reservation. |
| `SchedulerTheorems.ExecutionIsExclusive` | crates/blockifier/src/concurrency/scheduler.rs:166-176 | No two workers execute the same index, and an index has status executing exactly when one worker does. |
| `SchedulerTheorems.AbortGetsItsExecution` | crates/blockifier/src/concurrency/scheduler.rs:97-109 | After a successful abort the worker always re-incarnates the same index; the path that would release the task twice is never taken. |
| `SchedulerTheorems.IndicesAreBounded` | crates/blockifier/src/concurrency/scheduler.rs:157-208 | Both shared indices stay at most the chunk size plus the number of workers minus one. |
| `SchedulerTheorems.DoneIsSoundAndStable` | crates/blockifier/src/concurrency/scheduler.rs:112-124 | Once the done marker is set, then and ever after every transaction is executed, nobody holds a task, the marker stays, and no step hands out or completes anything. |
| `SchedulerTheorems.DoneMeansValidated` | crates/blockifier/src/concurrency/scheduler.rs:77-109 | When done, every index has a validation that completed without abort and whose hand-out came after the last finished execution of any index up to it. |
| `SchedulerTheorems.OnlyDoneWorkersExit` | crates/blockifier/src/concurrency/scheduler.rs:45-72 | In every state of every run, a worker has left only if the done marker is set; finding both indices exhausted without it sends a worker back to ask again. |
| `SchedulerTheorems.InvHolds` | crates/blockifier/src/concurrency/scheduler.rs:49-208 | The conjunction of all invariants holds in every state of every run of any number of workers. |
| `SchedulerTheorems.InvStep` | crates/blockifier/src/concurrency/scheduler.rs:49-208 | Any step of any worker keeps the invariants. |
| `SchedulerTheorems.CoveredStep` | crates/blockifier/src/concurrency/scheduler.rs:178-194 | An executed index below the validation index is freshly validated or some worker still has its validation ahead; every step keeps this. |
| `SchedulerTheorems.AnsweredStep` | crates/blockifier/src/concurrency/scheduler.rs:85-109 | A handed-out validation is still held, or it ended as that worker's very next event. |
| `SchedulerRecheck.RecheckIsNeeded` | crates/blockifier/src/concurrency/scheduler.rs:112-124 | There is a run in which all other tests of the done check pass while a transaction was never handed out for validation: only the second read of the decrease counter prevents a wrong done marker. |
| `SchedulerObject.Scheduler.constructor` | crates/blockifier/src/concurrency/scheduler.rs:30-43 | Nothing executed, the validation index at the end of the chunk, every transaction ready, not done. |
| `SchedulerObject.Scheduler.CheckDone` | crates/blockifier/src/concurrency/scheduler.rs:112-124 | Sets the done marker exactly when both indices are exhausted and no task is active, and changes nothing else; so do the steps of the check. |
| `SchedulerObject.Scheduler.NextVersionToValidate` | crates/blockifier/src/concurrency/scheduler.rs:178-194 | Hands out the validation index exactly when it is below the end and that transaction is executed, with a task counted; the index advances only past transactions of the chunk. |
| `SchedulerObject.Scheduler.NextVersionToExecute` | crates/blockifier/src/concurrency/scheduler.rs:196-208 | Hands out the execution index exactly when it is below the end and that transaction is ready, which is then executing, with a task counted. |
| `SchedulerObject.Scheduler.NextTask` | crates/blockifier/src/concurrency/scheduler.rs:49-72 | Done exactly when the marker is set; otherwise validation is preferred where its index is lower, then execution, and without a task the worker stays. |
| `SchedulerObject.Scheduler.FinishExecution` | crates/blockifier/src/concurrency/scheduler.rs:77-83 | Marks the transaction executed, lowers the validation index to it if that is higher and then counts the decrease, and releases the task. |
| `SchedulerObject.Scheduler.TryValidationAbort` | crates/blockifier/src/concurrency/scheduler.rs:85-95 | Aborts exactly when the transaction is executed, and then marks it aborting. |
| `SchedulerObject.Scheduler.FinishValidation` | crates/blockifier/src/concurrency/scheduler.rs:97-109 | After an abort the transaction is ready again and, if the execution index has passed it, handed to the same worker to execute with its task kept; in every other case the task is released. |
| `SchedulerObject.OvertakenValidation` | crates/blockifier/src/concurrency/scheduler.rs:178-194 | When the validation index passed the end between the test and the fetch, the reservation is given back and nothing is handed out. |
| `SchedulerObject.OvertakenExecution` | crates/blockifier/src/concurrency/scheduler.rs:196-208 | The same for the execution index: the worker gives up for now and does not leave. |
| `SchedulerObject.DecreaseSpoilsCheck` | crates/blockifier/src/concurrency/scheduler.rs:112-124 | A decrease counted since the check began keeps the done marker unset. |
| `SchedulerSafety.QuietIsStable` | crates/blockifier/src/concurrency/scheduler.rs:49-72 | From a state with nothing left to do no step hands out a task or leaves that state. |
| `SchedulerSafety.IdleIsQuiet` | crates/blockifier/src/concurrency/scheduler.rs:112-124 | Exhausted indices and no active task imply that every transaction is executed and nobody holds a task. |
| `SchedulerSafety.NotLoweredStep` | crates/blockifier/src/concurrency/scheduler.rs:157-163 | After an exhausted validation index was observed, it still is, or the decrease counter has grown, or a worker is about to make it grow. |
| `SchedulerSafety.DoneStep` | crates/blockifier/src/concurrency/scheduler.rs:112-124 | Every step keeps what each position inside the done check has established. |
| `SchedulerSafety.OwnershipStep` | crates/blockifier/src/concurrency/scheduler.rs:135-176 | Every step keeps that each started and unexecuted index has exactly one owner whose position determines its status. |
| `SchedulerSafety.CountersStep` | crates/blockifier/src/concurrency/scheduler.rs:178-208 | Every step keeps the active-task count and the bounds on both indices, despite racing load and fetch-add. |
| `SchedulerSafety.StepStatusEffect` | crates/blockifier/src/concurrency/scheduler.rs:135-176 | A step changes a status only under its owner or from executed, and ownership is never lost. |
| `SchedulerSafety.StepHistoryEffect` | crates/blockifier/src/concurrency/scheduler.rs:157-194 | A step passes an index without handing it out, executes it, or disturbs its validation only in a way that leaves the validation pending or the index unexecuted. |
| `SchedulerSafety.StepDoneEffect` | crates/blockifier/src/concurrency/scheduler.rs:112-124 | The decrease counter never falls, a lowered validation index is followed by counting it, and only the last step of the done check sets the marker. |
| `VersionedStorage.LatestBelow` | crates/blockifier/src/concurrency/versioned_storage.rs:41-46 | There is no entry exactly when no lower index wrote. |
| `VersionedStorage.LatestBelowIsGreatest` | crates/blockifier/src/concurrency/versioned_storage.rs:41-46 | The entry found is that of the greatest writing index below the reader. |
| `VersionedStorage.VersionedStorage.Read` | crates/blockifier/src/concurrency/versioned_storage.rs:41-46 | Latest lower write, else the cached initial value, else nothing. |
| `VersionedStorage.VersionedStorage.Write` | crates/blockifier/src/concurrency/versioned_storage.rs:48-55 | Adds one entry of one key at one index and changes nothing else. |
| `VersionedStorage.VersionedStorage.SetInitialValue` | crates/blockifier/src/concurrency/versioned_storage.rs:57-59 | Sets one initial value and changes nothing else. |
| `VersionedStorage.VersionedStorage.GetWritesFromIndex` | crates/blockifier/src/concurrency/versioned_storage.rs:61-69 | For every key, exactly the latest write at or below the index, and no other key. |
| `VersionedStorage.CellsMatchHistory` | crates/blockifier/src/concurrency/versioned_storage.rs:48-59 | After any history the storage holds what each index last wrote to each key, and the initial values last set. |
| `VersionedStorage.LatestIsFolded` | crates/blockifier/src/concurrency/versioned_storage.rs:61-69 | After any history the latest writes below an index are the write maps of the lower indices laid over each other in order. |
| `VersionedStorage.ReadIsOverlay` | crates/blockifier/src/concurrency/versioned_storage.rs:41-46 | After any history a read is the fold of the lower write maps laid over the initial values. |
| `VersionedStorage.ReadableForever` | crates/blockifier/src/concurrency/versioned_storage.rs:41-59 | A key readable at an index stays readable there whatever operations follow. |
| `VersionedState.VersionedState.ProxyRead` | crates/blockifier/src/concurrency/versioned_state_proxy.rs:182-233 | A proxy read returns lower writes or the reader's value, leaves the key readable at that index with the same value, and changes no transaction's view. |
| `VersionedState.VersionedState.ValidateReads` | crates/blockifier/src/concurrency/versioned_state_proxy.rs:72-118 | Valid exactly when it is the first transaction or every recorded read is what the store holds below the index now. |
| `VersionedState.VersionedState.ApplyWrites` | crates/blockifier/src/concurrency/versioned_state_proxy.rs:120-141 | Every cell afterwards: written cells gain the entry at the index, all others, including the index's own earlier ones, stay. |
| `VersionedState.VersionedState.GetWrites` | crates/blockifier/src/concurrency/versioned_state_proxy.rs:45-53 | The returned writes laid over the reader are what the next transaction would see. |
| `VersionedState.VersionedState.CommitTo` | crates/blockifier/src/concurrency/versioned_state_proxy.rs:55-65 | The parent state then shows the latest committed writes and is otherwise unchanged; over an unchanged parent that is what the next transaction would see. |
| `Serializability.PathsAgree` | crates/blockifier/src/concurrency/worker_logic.rs:54-89 | On one state a deterministic transaction has only one sequence of reads. |
| `Serializability.OutputsAgree` | crates/blockifier/src/concurrency/worker_logic.rs:54-89 | Two executions whose answers, failed reads included, agree with one state have the same reads and writes. |
| `Serializability.SequentialIsUnique` | crates/blockifier/src/concurrency/worker_logic.rs:54-89 | The sequential result is determined by the transactions and the initial state. |
| `Serializability.SerializableIff` | crates/blockifier/src/concurrency/versioned_state_proxy.rs:45-141 | For a validated store over any reader: it agrees with the sequential execution at every index, and the outputs are sequential, if and only if no leftover cell differs from the value below it and no failed read would now succeed. |
| `Serializability.HarmlessMeansMatch` | crates/blockifier/src/concurrency/versioned_state_proxy.rs:72-141 | Without harmful leftovers the store below each index is the sequential state before that transaction. |
| `Serializability.AnswersByKind` | crates/blockifier/src/state/cached_state.rs:161-178 | All answers of an execution agree with a state exactly when the recorded ones do and every failed read fails there. |
| `Serializability.NoMissedReadMeansSequential` | crates/blockifier/src/concurrency/versioned_state_proxy.rs:72-118 | Over a matching store, validated reads are the sequential ones exactly when no read was missed. |
| `ParallelSafety.NoWorkerPanics` | crates/blockifier/src/concurrency/worker_logic.rs:34-89 | In every run of workers, scheduler and store no worker panics: outputs are there when validated and every recorded read is found in the store. |
| `ParallelSafety.ChunkInvHolds` | crates/blockifier/src/concurrency/worker_logic.rs:34-89 | The joint invariant of scheduler, store, outputs and workers holds in every state of every run. |
| `ParallelSafety.ExecutionInv` | crates/blockifier/src/concurrency/worker_logic.rs:54-89 | Reading through the proxy, applying writes and recording the output keep the joint invariant. |
| `ParallelSafety.ValidationInv` | crates/blockifier/src/concurrency/versioned_state_proxy.rs:72-118 | Loading an output and comparing its reads keep the joint invariant. |
| `ParallelSafety.SchedulerInv` | crates/blockifier/src/concurrency/scheduler.rs:49-208 | Scheduler steps keep the joint invariant. |
| `ParallelSafety.DoneIsValidated` | crates/blockifier/src/concurrency/scheduler.rs:112-124 | When done, every output is recorded, its writes are in the store and its reads agree with the store below its index. |
| `ParallelSafety.DoneIsSequential` | crates/blockifier/src/concurrency/worker_logic.rs:34-89 | For every run over any reader that sets the done marker: outputs and store are sequential if and only if there is neither a harmful leftover nor a missed read, and then the committed state is the sequential final state. |
| `ParallelSafety.FixedFootprintIsSequential` | crates/blockifier/src/concurrency/worker_logic.rs:54-89 | If the cells transactions write do not depend on the answers they get, and the reader answers for those cells, every run that sets the done marker is sequential. |
| `Anomalies.LeftoverBreaksSerializability` | crates/blockifier/src/concurrency/versioned_state_proxy.rs:120-141 | A run of two workers that sets the done marker with no missed read, and whose store shows an abandoned write. |
| `Anomalies.FailedReadBreaksSerializability` | crates/blockifier/src/concurrency/versioned_state_proxy.rs:183-197 | A run of two workers that sets the done marker with no leftover, and whose outputs are not sequential: a transaction failed for want of a cell an earlier one writes. |
| `ChunkRuns.TakesExecution` | crates/blockifier/src/concurrency/scheduler.rs:196-208 | From idle, with the execution index at or below the validation index, a worker reaches the execution of the next ready index. |
| `ChunkRuns.FinishesExecution` | crates/blockifier/src/concurrency/scheduler.rs:77-83 | Finishing an execution below the validation index marks it executed, lowers the validation index to it, counts the decrease and releases the task. |
| `ChunkRuns.TakesValidation` | crates/blockifier/src/concurrency/scheduler.rs:178-194 | From idle, with the validation index below the execution index, a worker is handed out the validation of the next executed index. |
| `ChunkRuns.PassesValidation` | crates/blockifier/src/concurrency/scheduler.rs:97-109 | A validation whose reads agree ends without abort and releases the task. |
| `ChunkRuns.FailsValidation` | crates/blockifier/src/concurrency/scheduler.rs:85-109 | A validation whose reads differ aborts, and the same worker executes the index again. |
| `ChunkRuns.SetsDone` | crates/blockifier/src/concurrency/scheduler.rs:112-124 | With exhausted indices and no active task a worker at the check of the validation index sets the done marker. |
| `LayeredState.CommitShowsChild` | crates/blockifier/src/state/cached_state.rs:545-551 | After a commit the parent shows what the child showed. |
| `LayeredState.BlockKeepsLower` | crates/blockifier/src/state/cached_state.rs:505-555 | Operations never change a layer below the ones they opened. |
| `LayeredState.AbortRestores` | crates/blockifier/src/state/cached_state.rs:553-554 | Aborting restores the stack exactly, whatever the transaction did, nested transactions included. |
| `LayeredState.NestedRunsLikeFlat` | crates/blockifier/src/state/cached_state.rs:505-555 | Operations inside a transactional state return what they return without it, and the stacks differ only by one merge. |
| `LayeredState.CommitIsTransparent` | crates/blockifier/src/state/cached_state.rs:545-551 | Begin, any operations, commit: same results and same stack as the operations alone. |
| `LayeredState.TransactionLayer` | crates/blockifier/src/state/cached_state.rs:505-555 | What a transactional state's parent shows, what aborting it restores and what committing it amounts to, together. |
| `LayeredState.ShowsAfterOp` | crates/blockifier/src/state/cached_state.rs:161-313 | What each operation shows, at and below the innermost layer, in terms of what was shown before it: a write shows its value and no other cell changes. |
| `LayeredState.ShowsLastWrite` | crates/blockifier/src/state/cached_state.rs:161-313 | After any operations a cell shows the last write of it that was not aborted, else what the layers still there showed before. |
| `LayeredState.GetReturnsLastWrite` | crates/blockifier/src/state/cached_state.rs:161-313 | So does every read among the operations. |
| `LayeredState.WriteStays` | crates/blockifier/src/state/cached_state.rs:161-313 | A written value is shown until the cell is written again or a layer is aborted. |
| `LayeredState.UntouchedShowsSame` | crates/blockifier/src/state/cached_state.rs:505-555 | Operations that never write a cell, at whatever depth, leave what the state shows of it. |
| `LayeredState.StaysReadable` | crates/blockifier/src/state/cached_state.rs:505-555 | A cell that can be read stays so, whatever is begun, written, committed or aborted. |
| `CachedState.CachedState.ReadAt` | crates/blockifier/src/state/cached_state.rs:161-251 | Reading through the caches at any depth returns what the plain stack of maps shows there and changes no layer's contents. |
| `CachedState.CachedState.Get` | crates/blockifier/src/state/cached_state.rs:161-251 | Returns what the state shows. |
| `CachedState.CachedState.Set` | crates/blockifier/src/state/cached_state.rs:252-308 | Afterwards the written cell shows the written value, every other cell what it showed, and the parent is untouched; all cached reads stay right. |
| `CachedState.CachedState.UpdateCache` | crates/blockifier/src/state/cached_state.rs:71-74 | The given writes show, everything else as before, the parent untouched. |
| `CachedState.CachedState.RemoveWrites` | crates/blockifier/src/transaction/account_transaction.rs:394-398 | Removes the given cells from the innermost writes and nothing else; all cached reads stay right. |
| `CachedState.CachedState.CreateTransactional` | crates/blockifier/src/state/cached_state.rs:50-52 | Opens an empty layer: every cell shows what it showed, and so does the parent. |
| `CachedState.CachedState.CommitTransactional` | crates/blockifier/src/state/cached_state.rs:545-551 | Merges the innermost layer into its parent: every cell shows what it showed; the parent's cached reads stay right. |
| `CachedState.CachedState.AbortTransactional` | crates/blockifier/src/state/cached_state.rs:553-554 | Drops the innermost layer: every cell shows what the parent showed. |
| `CachedState.CachedState.Perform` | crates/blockifier/src/state/cached_state.rs:161-313 | For every sequence of reads, writes, begins, commits and aborts at any depth, all results and the final state are those of the plain stack of maps; every read returns, and every cell ends as, its last write that was not aborted, else what was shown before. |
| `CachedState.LowerKeepsReads` | crates/blockifier/src/state/cached_state.rs:161-251 | Changing upper layers never invalidates a cached initial value below. |
| `CachedState.CachedState.UpdateInitialValuesOfWriteOnlyAccess` | crates/blockifier/src/state/cached_state.rs:94-130 | Succeeds exactly when every written storage, nonce and class-hash cell can be read below; then exactly those cells are added to the known ones. |
| `CachedState.CachedState.GetActualStateChanges` | crates/blockifier/src/state/cached_state.rs:57-69 | Exactly the storage, nonce and class-hash cells whose view differs from the parent's, with their current values; for compiled class hashes the written ones unless known to be unchanged; strict subtraction never panics. |
| `CachedState.WritesSameCompiledClassHash` | crates/blockifier/src/state/cached_state.rs:490-500 | A concrete state that reports a compiled class hash written with the value it had. |
| `StateChanges.Merge` | crates/blockifier/src/state/cached_state.rs:648-660 | The loop lays the changes over each other in order. |
| `StateChanges.MergeIsDiff` | crates/blockifier/src/state/cached_state.rs:648-660 | Merged changes of successive stages turn the first view into the last and contain every cell that differs. |
| `StateChanges.MergedKeysAreTouched` | crates/blockifier/src/state/cached_state.rs:648-660 | A cell is among the merged keys exactly when some stage changed it, cancelled writes included. |
| `StateChanges.CancelledWriteIsCounted` | crates/blockifier/src/state/cached_state.rs:648-660 | Two concrete stages whose merge counts a cell that ends as it began. |
| `StateChanges.OnchainLengthTelescopes` | crates/blockifier/src/state/cached_state.rs:589-628 | The on-chain length of a union is that of one part plus that of the difference; extending by the difference is extending by the whole. |
| `StateChanges.OneMoreCell` | crates/blockifier/src/fee/gas_usage.rs:19-36 | One more storage cell or compiled class hash adds two felts, a class hash one, a nonce none. |
| `StateChanges.SingleChange` | crates/blockifier/src/fee/gas_usage.rs:19-36 | The on-chain length of no change, and of a single storage, nonce, class-hash or compiled-class-hash change, its contract included. |
| `Bouncer.HasRoomInEveryComponent` | crates/blockifier/src/bouncer.rs:22-35 | There is room exactly when no component exceeds the capacity. |
| `Bouncer.HashCostsOfOne` | crates/blockifier/src/bouncer.rs:286-306 | Hashing one class weighs its resources, hashing none nothing. |
| `Bouncer.CasmHashResources` | crates/blockifier/src/bouncer.rs:286-306 | The sum over newly executed classes in any order; fails exactly when one of them cannot be read from the state of the transaction. |
| `Bouncer.Bouncer.GetTxWeights` | crates/blockifier/src/bouncer.rs:238-268 | The residual weight: own resources, plus what is new to the block of classes, entries and keys; fails exactly when a new class cannot be read. |
| `Bouncer.Bouncer.Update` | crates/blockifier/src/bouncer.rs:185-198 | Adds the weights and unites the sets. |
| `Bouncer.Bouncer.TryUpdate` | crates/blockifier/src/bouncer.rs:200-236 | An unreadable new class is an error; else too large exactly when some component of the residual weight alone exceeds the capacity that Keccak use selects, full exactly when none does and some component of the sum does. An accepted transaction updates everything, a rejected one nothing. |
| `Bouncer.VerdictInComponents` | crates/blockifier/src/bouncer.rs:200-236 | The four verdicts, each exactly when, in single components and the configured capacities. |
| `Bouncer.ResidualFields` | crates/blockifier/src/bouncer.rs:238-268 | Messages, events and on-chain data of the residual weight. |
| `Bouncer.ResidualSteps` | crates/blockifier/src/bouncer.rs:238-268 | Its steps: own steps and memory holes, ten per segment-arena use, hashing, and 32 * 24 per new entry. |
| `Bouncer.ResidualBuiltins` | crates/blockifier/src/bouncer.rs:238-268 | Its builtins: own and hashing uses, and 2 * 24 Pedersen hashes per new entry. |
| `Bouncer.UpdateTelescopes` | crates/blockifier/src/bouncer.rs:238-276 | Accepting one more transaction turns the closed form of a block into that of the longer block. |
| `Bouncer.ResidualAccountingTelescopes` | crates/blockifier/src/bouncer.rs:185-276 | After trying any transactions from an empty block, every weight is the closed form over the accepted ones: own weights summed, one hash per distinct class, one tree update per distinct entry, the on-chain length of the union of keys. |
| `Bouncer.BlockWeights` | crates/blockifier/src/bouncer.rs:185-276 | Every field of a block weight: messages, events and resources summed, one hash per distinct class, one tree update per distinct entry, the on-chain length of the union of keys. |
| `Bouncer.WeightsFit` | crates/blockifier/src/bouncer.rs:200-236 | No component of the accumulated weights ever exceeds the capacity selected by Keccak use. |
| `Bouncer.OrderDoesNotMatter` | crates/blockifier/src/bouncer.rs:185-276 | Two blocks that accepted the same transactions in different orders end in the same bouncer. |
| `Bouncer.HashCostsUnion` | crates/blockifier/src/bouncer.rs:286-306 | Hashing costs of disjoint class sets add up. |
| `Bouncer.ResidualOfResources` | crates/blockifier/src/bouncer.rs:238-268 | Adding the virtual-machine resources first and weighing them afterwards gives the residual weight. |
| `TransactionExecutor.TransactionExecutor.Execute` | crates/blockifier/src/blockifier/transaction_executor.rs:71-96 | A failed or rejected transaction changes neither state nor bouncer; an accepted one shows what its operations on the state itself would show, and updates the bouncer by exactly its difference. |
| `TransactionExecutor.TransactionExecutor.TransactionChanges` | crates/blockifier/src/state/cached_state.rs:57-69 | On a transaction's state: its exact difference, or failure exactly when a written cell cannot be read below. |
| `TransactionExecutor.TransactionExecutor.ExecuteTxsSequentially` | crates/blockifier/src/blockifier/transaction_executor.rs:133-147 | Results cover exactly the transactions before the first that did not fit, and state and bouncer are those after them. |
| `TransactionExecutor.OutcomesInComponents` | crates/blockifier/src/blockifier/transaction_executor.rs:71-96 | What each result means: failed, unreadable, too large in some component alone, too large only with the block, or executed with weights added. |
| `TransactionExecutor.StopsOnlyWhenFull` | crates/blockifier/src/blockifier/transaction_executor.rs:133-147 | If a block stops early, the next transaction succeeds, is readable, fits the selected capacity in every component, and together with the block does not. |
| `TransactionExecutor.OthersDoNotStop` | crates/blockifier/src/blockifier/transaction_executor.rs:133-147 | A transaction that fails, is unreadable or is too large on its own has that result, changes nothing and does not stop the block; one that fits is executed. |
| `TransactionExecutor.StateAndBouncerStayInStep` | crates/blockifier/src/blockifier/transaction_executor.rs:133-147 | At every point of a block no component exceeds the selected capacity, the bouncer is the closed form of the executed transactions, and every cell that differs from the starting view is recorded, with its contract. |
| `TransactionExecutor.RejectionChangesNothing` | crates/blockifier/src/blockifier/transaction_executor.rs:71-96 | A transaction that is not executed leaves state and bouncer as they were. |
| `TransactionExecutor.ExecutedKeepsInStep` | crates/blockifier/src/blockifier/transaction_executor.rs:71-96 | Executing one transaction keeps fit, closed form and recorded keys. |
| `Fees.DivCeil` | crates/blockifier/src/utils.rs:65-71 | The rounded-up quotient. |
| `Fees.CeilDivIsLeast` | crates/blockifier/src/utils.rs:65-71 | The rounded-up quotient is the least number whose multiple reaches the dividend. |
| `Fees.CostWithinDiscountedGas` | crates/blockifier/src/fee/gas_usage.rs:193-203 | The saturated cost of a gas vector is at most its discounted gas times the gas price. |
| `Fees.DiscountedGasIsLeast` | crates/blockifier/src/fee/gas_usage.rs:193-203 | The discounted gas is the least amount of gas whose price covers the cost. |
| `Fees.EnforcedIfCommitted` | crates/blockifier/src/transaction/objects.rs:91-100 | Fees are enforced exactly for a positive commitment; missing bounds are an error. |
| `Fees.CoversMeansReaches` | crates/blockifier/src/fee/fee_utils.rs:90-107 | The two balance words as one number reach the fee. |
| `Fees.BoundWithinCommitted` | crates/blockifier/src/fee/fee_checks.rs:57-83 | The bound at the current price is at most what the sender committed to. |
| `Fees.OverdraftMeansBoundReached` | crates/blockifier/src/fee/fee_checks.rs:87-125 | Comparing rounded gas amounts agrees with comparing cost and bound, both ways. |
| `Fees.RecommendedFeeIsTheSmaller` | crates/blockifier/src/fee/fee_checks.rs:183-223 | Every report recommends the smaller of cost and bound; it has no error exactly when the bounds are kept and the balance covers the cost. |
| `Fees.ReportInPrices` | crates/blockifier/src/fee/fee_checks.rs:183-223 | Every report in sums of gas times price: uncharged or uncommitted nothing is checked; an overdraft is charged the bound; else the balance decides. |
| `AccountTransaction.ReadBalance` | crates/blockifier/src/fee/fee_utils.rs:90-107 | The sender's two balance words, or nothing if one cannot be read. |
| `AccountTransaction.HandleNonce` | crates/blockifier/src/transaction/account_transaction.rs:233-258 | Accepted exactly when the account's nonce is the transaction's, or not beyond it if the check is not strict, and fits 64 bits; then the account's nonce is incremented, wrapping at 64 bits, else nothing changes. |
| `AccountTransaction.CheckFees` | crates/blockifier/src/transaction/account_transaction.rs:172-231 | Passes exactly when fees are not enforced, or the minimal fee is within bounds and the balance covers the committed fee; panics exactly when reporting the minimal gas does. |
| `AccountTransaction.FeeChecksInPrices` | crates/blockifier/src/transaction/account_transaction.rs:162-231 | Pre-validation passes exactly when the nonce is accepted and, if charged and committed, the minimal gas costs at most the bound, the price is accepted and the two balance words cover the commitment. |
| `AccountTransaction.PerformPreValidationStage` | crates/blockifier/src/transaction/account_transaction.rs:162-231 | Passes exactly when the nonce is accepted and, if fees are charged and enforced, the minimal fee and the price are within bounds and the balance covers the committed fee; panics exactly when the nonce is accepted, gas bounds are enforced and the minimal gas exceeds both the amount bound and 64 bits. |
| `AccountTransaction.MinimalGasMayPanic` | crates/blockifier/src/transaction/account_transaction.rs:200-210 | A concrete transaction whose minimal gas makes pre-validation panic. |
| `AccountTransaction.Changes` | crates/blockifier/src/state/cached_state.rs:57-69 | The exact difference to the parent; never fails over a total reader. |
| `AccountTransaction.Report` | crates/blockifier/src/fee/fee_checks.rs:183-223 | The report on the current state's balance; over a total reader it fails exactly when the bounds are missing. |
| `AccountTransaction.RunNonRevertible` | crates/blockifier/src/transaction/account_transaction.rs:416-477 | If it succeeds, the state, the charged changes and the fee are those of running validation and execution in the transaction's order; over a total reader it fails only for a failed part, missing bounds or a rejecting report. |
| `AccountTransaction.RunRevertible` | crates/blockifier/src/transaction/account_transaction.rs:479-598 | Validation is kept, execution exactly when it succeeded and the report has no error; the fee is the recommended one on the changes of all that ran; over a total reader it fails exactly when validation fails or the bounds are missing. |
| `AccountTransaction.ExecuteOrRevert` | crates/blockifier/src/transaction/account_transaction.rs:508-597 | The part of the previous row after validation, with failure leaving the validated state. |
| `AccountTransaction.KeepOrRevert` | crates/blockifier/src/transaction/account_transaction.rs:535-582 | Commits exactly when the post-execution report has no error, else restores the validated state. |
| `AccountTransaction.MergedDescribesBoth` | crates/blockifier/src/transaction/account_transaction.rs:538-548 | The merged changes of validation and execution lead from the parent's view to the final one and hold exactly the cells either changed. |
| `AccountTransaction.RevertibleFee` | crates/blockifier/src/transaction/account_transaction.rs:479-598 | The fee is the cost of what ran up to the bound; a kept transaction can pay, and so can a reverted one unless its sender is the fee token. |
| `AccountTransaction.NonRevertibleFee` | crates/blockifier/src/transaction/account_transaction.rs:416-477 | A standing transaction is charged its cost, within the bound, and can pay it. |
| `AccountTransaction.ChargeInPrices` | crates/blockifier/src/fee/fee_utils.rs:67-88 | The charge is the smaller of cost and bound, in ETH prices for a maximal fee and in STRK prices for gas bounds. |
| `AccountTransaction.UnchargedIsKept` | crates/blockifier/src/transaction/account_transaction.rs:416-598 | Without charging, a successful execution is kept, a failed one reverted, and the cost is reported. |
| `AccountTransaction.ValidationKeepsBalance` | crates/blockifier/src/fee/fee_checks.rs:163-166 | Whatever validation does, nested calls and deployments included, both balance words are unchanged unless the sender is the fee token. |
| `AccountTransaction.SolventIff` | crates/blockifier/src/transaction/account_transaction.rs:534-597 | Every execution from a validated state can be charged if and only if the balance there covers the bound at the current price. |
| `AccountTransaction.SolventAfterValidationIff` | crates/blockifier/src/transaction/account_transaction.rs:479-598 | After pre-validation, for any sender: every execution can be charged if and only if what validation left covers the bound; a sender other than the fee token always can. |
| `AccountTransaction.SenderDecidesSolvency` | crates/blockifier/src/fee/fee_checks.rs:163-166 | After pre-validation, whatever the code: every execution after validation can be charged if and only if the sender is not the fee token or the bound is zero. |
| `AccountTransaction.FeeTokenMaySpendTheFee` | crates/blockifier/src/transaction/account_transaction.rs:583-596 | A concrete fee token that sends a transaction, spends its balance in validation, and is charged on revert a fee that an honest transfer refuses. |
| `AccountTransaction.FeeIsBoundedAndAffordable` | crates/blockifier/src/transaction/account_transaction.rs:162-331 | In every flow the fee is within the sender's bound; unless a fee token is reverted as sender, the state the fee is transferred from can pay, and a token that pays what is covered transfers it. |
| `AccountTransaction.ConcurrentTransferSparesSequencer` | crates/blockifier/src/transaction/account_transaction.rs:369-400 | A concurrent transfer leaves the sequencer's balance as it was and every other cell as the plain transfer leaves it. |
| `AccountTransaction.TransferInCells` | crates/blockifier/src/transaction/account_transaction.rs:334-400 | In every cell: the sequencer balance words are hidden as zero and spared exactly when the block is concurrent and the sequencer is not the sender. |
| `AccountTransaction.PayableIsTransferred` | crates/blockifier/src/transaction/account_transaction.rs:334-400 | If the state can pay, a token that transfers what is covered transfers it, also when the sequencer's balance is hidden from it. |
| `AccountTransaction.Transfer` | crates/blockifier/src/transaction/account_transaction.rs:334-400 | Every cell afterwards is as the token's operations leave it, except the sequencer's two balance words when the block is concurrent and the sequencer is not the sender: they stay. It succeeds as the token does on what it sees. |
| `AccountTransaction.HandleFee` | crates/blockifier/src/transaction/account_transaction.rs:276-331 | Panics exactly when a positive charged fee exceeds the bound; finishes exactly when nothing is charged, or the fee is within the bound and the transfer succeeds; then every cell is as after the transfer, or unchanged if nothing is charged. |
| `AccountTransaction.ExecuteRaw` | crates/blockifier/src/transaction/account_transaction.rs:637-683 | The panic on the bound never happens, the other one exactly as in pre-validation. A transaction that ran has the outcome above; it finishes exactly when the transfer of a charged fee succeeds, with every cell as the transfer from there leaves it, the fee at most the commitment and only an invocation reverted; and always with a token that pays what is covered and another sender. Over a total reader a revertible transaction runs exactly when its version is allowed, pre-validation and validation succeed and the bounds are there. |
| `VisitedSegments.GetVisitedSegments` | crates/blockifier/src/execution/contract_class.rs:217-223 | For every tree and set of program counters: succeeds exactly when every visited inner segment had its start visited, then returns the starts of the visited leaves in ascending order; an error names a violating segment and the first counter visited in it. |
| `VisitedSegments.VisitTree` | crates/blockifier/src/execution/contract_class.rs:292-333 | The same for any subtree and offset, with exactly the counters beyond it left on the stack and the offset advanced by its length. |
| `VisitedSegments.VisitLeaf` | crates/blockifier/src/execution/contract_class.rs:299-310 | A leaf is reported exactly when it was visited, and exactly its counters are popped. |
| `VisitedSegments.VisitedLeavesAreUnique` | crates/blockifier/src/execution/contract_class.rs:288-291 | The promised list is determined by the tree and the counters. |
| `VisitedSegments.VisitedHasLeaves` | crates/blockifier/src/execution/contract_class.rs:311-330 | A subtree has visited leaves exactly when a counter lies in it. |
| `VisitedSegments.WellStructuredStep` | crates/blockifier/src/execution/contract_class.rs:311-330 | A node is well structured exactly when its earlier children are, the child is, and a visited child had its start visited. |
| `VisitedSegments.VisitedLeavesStep` | crates/blockifier/src/execution/contract_class.rs:311-330 | The visited leaves of a node are those of its children one after the other. |
| `GasCosts.RecursiveAdd` | crates/blockifier/src/versioned_constants.rs:535-593 | Succeeds exactly when the entry has a value, whatever was added before; errors as the entry does; entries once written never change; only needed entries are added; every entry is the value of its key. |
| `GasCosts.AddTerms` | crates/blockifier/src/versioned_constants.rs:558-581 | The loop over a combination computes its value or its first error. |
| `GasCosts.ParseGasCosts` | crates/blockifier/src/versioned_constants.rs:518-531 | In whatever order the table is listed: succeeds exactly when every key not ignored has a value, then holds exactly the keys these need with their values; else fails as the first failing key does. |
| `GasCosts.GasCostsAreUnique` | crates/blockifier/src/versioned_constants.rs:518-531 | The result does not depend on the order of the table. |
| `GasCosts.GasCostsSolve` | crates/blockifier/src/versioned_constants.rs:553-582 | Every cost meets its defining equation, modulo 2^64. |
| `GasCosts.SolutionIsUnique` | crates/blockifier/src/versioned_constants.rs:553-582 | Two solutions of the equations agree on every key they share. |
| `GasCosts.SolutionIsValue` | crates/blockifier/src/versioned_constants.rs:553-582 | A key of any solution has a value, namely its cost there. |
| `CallTree.CallInfoIter.constructor` | crates/blockifier/src/execution/call_info.rs:188-191 | A new iterator has the whole pre-order ahead. |
| `CallTree.CallInfoIter.Next` | crates/blockifier/src/execution/call_info.rs:236-246 | Yields the first of the calls ahead and leaves the others, in order; ends exactly when none is ahead. |
| `CallTree.PushedCallsComeInOrder` | crates/blockifier/src/execution/call_info.rs:239-245 | Calls pushed right to left come out left to right, each with its subtree. |
| `CallTree.PreorderSize` | crates/blockifier/src/execution/call_info.rs:236-246 | Each call of the tree is yielded once. |
| `CallTree.Summarize` | crates/blockifier/src/execution/call_info.rs:200-229 | Fails exactly when some call of the tree has no class hash, else equals the recursive summary, payload lengths in call order. |
| `CallTree.FoldedPreorder` | crates/blockifier/src/execution/call_info.rs:200-229 | Adding up the calls in pre-order gives the recursive summary. |
| `CallTree.SummaryMembers` | crates/blockifier/src/execution/call_info.rs:200-229 | The summary holds exactly the class hashes and storage entries of the calls in the tree. |
| `CallTree.SummaryCounts` | crates/blockifier/src/execution/call_info.rs:200-229 | One payload length per message of the tree, in pre-order, and every event counted once. |
| `CallTree.GetPayloadLengths` | crates/blockifier/src/execution/call_info.rs:193-198 | The payload lengths of the recursive summary. |
| `CallTree.SummedIsSummaryAll` | crates/blockifier/src/execution/call_info.rs:103-119 | Summing the summaries of several trees is adding up all their calls in order. |

## Left out

- Liveness of the scheduler: a worker may see no task forever without checking for done.
- The workers as objects: their methods are split into the steps of a transition system, because what is proved of them is about interleavings. The scheduler is both: as an object its methods are not interrupted, as a transition system they are.
- Weak memory, mutex poisoning and `usize` wrap-around: runs are sequentially consistent over naturals.
- `WorkerExecutor::validate` is unfinished in this version; the worker protocol for validation is taken from the scheduler's interface, aborting exactly when the reads differ.
- Contract classes, declared contracts and visited program counters in the cached and versioned states: `get_writes` drops declared contracts, and validation skips classes.
- The chunk executor `execute_chunk`, and completing the sequencer's balance at commit. Whether the fee token transfers an amount is an arbitrary function of the amount and of what it sees.
- The Cairo virtual machine, syscalls and hint processing: user code is an arbitrary program of reads and writes, and gas an arbitrary function of the charged changes. Of validate mode only its effect is modelled: a contract can call no other (crates/blockifier/src/execution/syscalls/mod.rs:165-170) and deploying refuses a deployed address (crates/blockifier/src/execution/execution_utils.rs:229-239), so validation writes the storage of the sender and of contracts it deploys.
- Unknown builtin names, which panic in the bouncer: builtins are an enumeration.
- L1 handlers, simulation flags and the validate-only entry point: they add easy cases.
- The fields of a receipt other than its fee and its gas: resources, data-availability gas and call information.
- Hashing, address derivation and balance keys: the two balance words of a sender are two abstract cells.
- `to_state_diff`, capacities at their numeric maximum, and error texts.
- Python bindings, storage backends and JSON parsing; the gas-cost table starts from parsed values.
- AccountTransaction.HandleNonce: does not model the panic of checked builds on the greatest nonce, because its increment wraps as in release builds.
- AccountTransaction.ExecuteRaw: does not model overflow of the unchecked products of bounds and prices, because they are preconditions.
- GasCosts.ParseGasCosts: does not model the panic of checked builds on overflow, because products and sums wrap as in release builds.
