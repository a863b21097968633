/** The optimistic-concurrency scheduler as a transition system.

    Every atomic load, fetch-operation or lock section of the scheduler is one step of one worker.
    A worker's position between two such steps is a `Pc`.  Steps of any number of workers interleave
    arbitrarily (sequential consistency).  A failing `assert!` or an out-of-range lock is the
    outcome `Panics`. */
module Scheduler {

  datatype Status = ReadyToExecute | Executing | Executed | Aborting

  /** Inside `next_version_to_validate` or `next_version_to_execute`: the next atomic operation is to load
      the index, reserve an active task, `fetch_add` the index, lock a status, or give the reservation back. */
  datatype IndexPc = Check | Reserve | Fetch | Lock(index: nat) | Unreserve

  /** Inside `check_done`: the next operation loads the decrease counter, the validation index, the
      execution index, the number of active tasks, the decrease counter again, or stores the marker. */
  datatype DonePc =
    | Counter
    | Validation(observed: nat)
    | Execution(observed: nat, iv: nat)
    | ActiveTasks(observed: nat)
    | Recheck(observed: nat)
    | Store

  /** Who called `check_done`, hence where it returns to. */
  datatype Caller = FromValidate | FromExecute

  /** Holding an execution task: run it and set the status, then `finish_execution`: load the validation
      index, `fetch_min` it, count the decrease, release the task. */
  datatype ExecutionPc = Running | LoadIndex | LowerIndex | CountDecrease | Release

  /** Holding a validation task: decide about aborting, then `finish_validation`: set the status to ready,
      load the execution index, `try_incarnate`, the release inside a failed `try_incarnate`, the release. */
  datatype ValidationPc = Deciding | SetReady | CheckIndex | Incarnate | FailedIncarnate | Leave

  datatype Pc =
    | Idle                                     // next_task: load done_marker
    | LoadValidation                           // next_task: load validation_index
    | LoadExecution(iv: nat)                   // next_task: load execution_index
    | ToValidate(at: IndexPc)
    | ToExecute(at: IndexPc)
    | CheckDone(caller: Caller, done: DonePc)
    | InExecution(tx: nat, exec: ExecutionPc)
    | InValidation(tx: nat, val: ValidationPc)
    | Exited                                   // left the worker loop

  /** The shared words; `chunk_size` is the number of statuses. */
  datatype Shared = Shared(
    executionIndex: nat,
    validationIndex: nat,
    decreaseCounter: nat,
    nActiveTasks: nat,
    statuses: seq<Status>,
    doneMarker: bool)
  {
    function ChunkSize(): nat { |statuses| }
  }

  /** What a worker holding a validation task decides. */
  datatype Choice = Keep | TryAbort

  /** History of hand-outs and completions; no step ever reads it. */
  datatype Event =
    | HandedOut(worker: nat, index: nat)   // a validation task was handed out
    | Completed(worker: nat, index: nat)   // a validation task ended without aborting
    | Aborted(worker: nat, index: nat)     // try_validation_abort succeeded
    | Finished(worker: nat, index: nat)    // set_executed_status

  datatype Note = Silent | Logs(event: Event)

  datatype Outcome = Panics | Moves(sh: Shared, pc: Pc, note: Note)

  function Min(a: nat, b: nat): nat { if a <= b then a else b }

  /** `safe_decrement_n_active_tasks`. */
  function Decrement(sh: Shared, pc: Pc): Outcome {
    if sh.nActiveTasks == 0 then Panics
    else Moves(sh.(nActiveTasks := sh.nActiveTasks - 1), pc, Silent)
  }

  function Increment(sh: Shared, pc: Pc): Outcome {
    Moves(sh.(nActiveTasks := sh.nActiveTasks + 1), pc, Silent)
  }

  function SetStatus(sh: Shared, i: nat, status: Status): Shared
    requires i < sh.ChunkSize()
  {
    sh.(statuses := sh.statuses[i := status])
  }

  /** `next_version_to_validate`. */
  function ToValidateStep(sh: Shared, at: IndexPc, w: nat): Outcome {
    match at
    case Check =>
      Moves(sh, if sh.validationIndex >= sh.ChunkSize() then CheckDone(FromValidate, Counter)
                else ToValidate(Reserve), Silent)
    case Reserve => Increment(sh, ToValidate(Fetch))
    case Fetch =>
      var i := sh.validationIndex;
      Moves(sh.(validationIndex := i + 1), ToValidate(if i < sh.ChunkSize() then Lock(i) else Unreserve), Silent)
    case Lock(i) =>
      if i >= sh.ChunkSize() then Panics
      else if sh.statuses[i] == Executed then Moves(sh, InValidation(i, Deciding), Logs(HandedOut(w, i)))
      else Moves(sh, ToValidate(Unreserve), Silent)
    case Unreserve => Decrement(sh, ToExecute(Check))
  }

  /** `next_version_to_execute`, with the `try_incarnate` it calls. */
  function ToExecuteStep(sh: Shared, at: IndexPc): Outcome {
    match at
    case Check =>
      Moves(sh, if sh.executionIndex >= sh.ChunkSize() then CheckDone(FromExecute, Counter)
                else ToExecute(Reserve), Silent)
    case Reserve => Increment(sh, ToExecute(Fetch))
    case Fetch =>
      var i := sh.executionIndex;
      Moves(sh.(executionIndex := i + 1), ToExecute(if i < sh.ChunkSize() then Lock(i) else Unreserve), Silent)
    case Lock(i) =>
      if i >= sh.ChunkSize() then Panics
      else if sh.statuses[i] == ReadyToExecute then Moves(SetStatus(sh, i, Executing), InExecution(i, Running), Silent)
      else Moves(sh, ToExecute(Unreserve), Silent)
    case Unreserve => Decrement(sh, Idle)
  }

  function Return(caller: Caller): Pc {
    match caller case FromValidate => ToExecute(Check) case FromExecute => Idle
  }

  /** `check_done`. */
  function CheckDoneStep(sh: Shared, k: Caller, done: DonePc): Outcome {
    match done
    case Counter => Moves(sh, CheckDone(k, Validation(sh.decreaseCounter)), Silent)
    case Validation(observed) => Moves(sh, CheckDone(k, Execution(observed, sh.validationIndex)), Silent)
    case Execution(observed, iv) =>
      Moves(sh, if Min(iv, sh.executionIndex) >= sh.ChunkSize() then CheckDone(k, ActiveTasks(observed))
                else Return(k), Silent)
    case ActiveTasks(observed) =>
      Moves(sh, if sh.nActiveTasks == 0 then CheckDone(k, Recheck(observed)) else Return(k), Silent)
    case Recheck(observed) =>
      Moves(sh, if observed == sh.decreaseCounter then CheckDone(k, Store) else Return(k), Silent)
    case Store => Moves(sh.(doneMarker := true), Return(k), Silent)
  }

  /** `finish_execution`; the transaction itself runs while the worker is at `Running`. */
  function InExecutionStep(sh: Shared, i: nat, exec: ExecutionPc, w: nat): Outcome {
    match exec
    case Running =>
      if i >= sh.ChunkSize() || sh.statuses[i] != Executing then Panics
      else Moves(SetStatus(sh, i, Executed), InExecution(i, LoadIndex), Logs(Finished(w, i)))
    case LoadIndex =>
      Moves(sh, InExecution(i, if sh.validationIndex > i then LowerIndex else Release), Silent)
    case LowerIndex =>
      var previous := sh.validationIndex;
      Moves(sh.(validationIndex := Min(previous, i)),
            InExecution(i, if i < previous then CountDecrease else Release), Silent)
    case CountDecrease =>
      Moves(sh.(decreaseCounter := sh.decreaseCounter + 1), InExecution(i, Release), Silent)
    case Release => Decrement(sh, Idle)
  }

  /** `try_validation_abort` and `finish_validation`. */
  function InValidationStep(sh: Shared, i: nat, val: ValidationPc, w: nat, choice: Choice): Outcome {
    match val
    case Deciding =>
      if choice == Keep then Moves(sh, InValidation(i, Leave), Logs(Completed(w, i)))
      else if i >= sh.ChunkSize() then Panics
      else if sh.statuses[i] == Executed then
        Moves(SetStatus(sh, i, Aborting), InValidation(i, SetReady), Logs(Aborted(w, i)))
      else Moves(sh, InValidation(i, Leave), Logs(Completed(w, i)))
    case SetReady =>
      if i >= sh.ChunkSize() || sh.statuses[i] != Aborting then Panics
      else Moves(SetStatus(sh, i, ReadyToExecute), InValidation(i, CheckIndex), Silent)
    case CheckIndex =>
      Moves(sh, InValidation(i, if sh.executionIndex > i then Incarnate else Leave), Silent)
    case Incarnate =>
      if i < sh.ChunkSize() && sh.statuses[i] == ReadyToExecute then
        Moves(SetStatus(sh, i, Executing), InExecution(i, Running), Silent)
      else Moves(sh, InValidation(i, FailedIncarnate), Silent)
    case FailedIncarnate => Decrement(sh, InValidation(i, Leave))
    case Leave => Decrement(sh, Idle)
  }

  /** One atomic operation of worker `w`. */
  function Step(sh: Shared, pc: Pc, w: nat, choice: Choice): Outcome {
    match pc
    case Idle => Moves(sh, if sh.doneMarker then Exited else LoadValidation, Silent)
    case LoadValidation => Moves(sh, LoadExecution(sh.validationIndex), Silent)
    case LoadExecution(iv) =>
      Moves(sh, if Min(iv, sh.executionIndex) >= sh.ChunkSize() then Idle
                else if iv < sh.executionIndex then ToValidate(Check)
                else ToExecute(Check), Silent)
    case ToValidate(at) => ToValidateStep(sh, at, w)
    case ToExecute(at) => ToExecuteStep(sh, at)
    case CheckDone(k, done) => CheckDoneStep(sh, k, done)
    case InExecution(i, exec) => InExecutionStep(sh, i, exec, w)
    case InValidation(i, val) => InValidationStep(sh, i, val, w, choice)
    case Exited => Moves(sh, Exited, Silent)
  }

  /** The whole system: shared words, one position per worker, history. */
  datatype System = System(sh: Shared, pcs: seq<Pc>, log: seq<Event>)

  predicate Init(s: System, chunkSize: nat, nWorkers: nat) {
    && s.sh.executionIndex == 0
    && s.sh.validationIndex == chunkSize
    && s.sh.decreaseCounter == 0
    && s.sh.nActiveTasks == 0
    && |s.sh.statuses| == chunkSize
    && (forall i | 0 <= i < chunkSize :: s.sh.statuses[i] == ReadyToExecute)
    && !s.sh.doneMarker
    && |s.pcs| == nWorkers
    && (forall u | 0 <= u < nWorkers :: s.pcs[u] == Idle)
    && s.log == []
  }

  function Append(log: seq<Event>, note: Note): seq<Event> {
    if note.Silent? then log else log + [note.event]
  }

  predicate StepsTo(s: System, w: nat, choice: Choice, s': System)
    requires w < |s.pcs|
  {
    var o := Step(s.sh, s.pcs[w], w, choice);
    o.Moves? && s' == System(o.sh, s.pcs[w := o.pc], Append(s.log, o.note))
  }

  /** A step taken by some worker. */
  datatype Move = Move(worker: nat, choice: Choice)

  ghost predicate IsRun(chunkSize: nat, nWorkers: nat, states: seq<System>, moves: seq<Move>) {
    && |states| == |moves| + 1
    && Init(states[0], chunkSize, nWorkers)
    && (forall k {:trigger moves[k]} | 0 <= k < |moves| ::
          moves[k].worker < |states[k].pcs| && StepsTo(states[k], moves[k].worker, moves[k].choice, states[k + 1]))
  }

  // ----------------------------------------------------------------------------------------------
  // Roles of positions

  /** The worker is counted by `n_active_tasks`. */
  predicate Active(pc: Pc) {
    match pc
    case ToValidate(at) => at.Fetch? || at.Lock? || at.Unreserve?
    case ToExecute(at) => at.Fetch? || at.Lock? || at.Unreserve?
    case InExecution(_, _) => true
    case InValidation(_, _) => true
    case _ => false
  }

  /** The worker holds a task, or an index it may still turn into one. */
  predicate HoldsTask(pc: Pc) {
    match pc
    case ToValidate(at) => at.Lock?
    case ToExecute(at) => at.Lock?
    case InExecution(_, _) => true
    case InValidation(_, _) => true
    case _ => false
  }

  predicate AboutToValidate(pc: Pc) { pc.ToValidate? && (pc.at.Reserve? || pc.at.Fetch?) }

  predicate AboutToExecute(pc: Pc) { pc.ToExecute? && (pc.at.Reserve? || pc.at.Fetch?) }

  function TxOf(pc: Pc): nat
    requires HoldsTask(pc)
  {
    if pc.ToValidate? || pc.ToExecute? then pc.at.index else pc.tx
  }

  /** The worker alone decides what the status of its index becomes next. */
  predicate IsOwner(pc: Pc) {
    || (pc.ToExecute? && pc.at.Lock?)
    || (pc.InExecution? && pc.exec.Running?)
    || (pc.InValidation? && (pc.val.SetReady? || pc.val.CheckIndex? || pc.val.Incarnate?))
  }

  predicate Owns(pc: Pc, i: nat) { IsOwner(pc) && TxOf(pc) == i }

  /** The status an owned index has. */
  function OwnedStatus(pc: Pc): Status {
    if pc.InExecution? then Executing
    else if pc.InValidation? && pc.val.SetReady? then Aborting
    else ReadyToExecute
  }
}
