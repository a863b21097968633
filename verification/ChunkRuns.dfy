/** Building runs of a chunk: what a worker does from one task to the next, while the others stand still. */
module ChunkRuns {
  import opened Cells
  import opened VersionedStorage
  import opened VersionedState
  import opened Serializability
  import opened Scheduler
  import opened ParallelExecution
  import R = Runs

  ghost function Starts(job: Job, nWorkers: nat): Chunk -> bool { c => InitialChunk(job, nWorkers, c) }

  ghost function Next(job: Job): (Chunk, nat, Chunk) -> bool {
    (c: Chunk, w: nat, c': Chunk) => IsWorker(c, w) && ChunkStep(job, c, w) == Goes(c')
  }

  /** The steps of the chunk never leave `q`. */
  ghost predicate Preserved(job: Job, q: Chunk -> bool) { R.Preserved(Next(job), q) }

  lemma RunToReachable(job: Job, nWorkers: nat, c: Chunk) returns (states: seq<Chunk>, workers: seq<nat>)
    requires R.Reachable(Starts(job, nWorkers), Next(job), c)
    ensures IsChunkRun(job, nWorkers, states, workers) && states[|workers|] == c
  {
    states, workers :| R.IsRunOf(Starts(job, nWorkers), Next(job), states, workers) && states[|workers|] == c;
    forall k | 0 <= k < |workers|
      ensures IsWorker(states[k], workers[k]) && ChunkStep(job, states[k], workers[k]) == Goes(states[k + 1])
    {
      assert Next(job)(states[k], workers[k], states[k + 1]);
    }
  }

  predicate IsWorker(c: Chunk, w: nat) { w < |c.sys.pcs| && w < |c.locals| }

  /** Worker `w` moves and the scheduler's words change. */
  function Put(c: Chunk, w: nat, sh: Shared, pc: Pc, l: Local, log: seq<Event>): Chunk
    requires IsWorker(c, w)
  {
    c.(sys := System(sh, c.sys.pcs[w := pc], log), locals := c.locals[w := l])
  }

  predicate Schedules(pc: Pc, l: Local) {
    && !(pc.InExecution? && pc.exec.Running? && !l.Recorded?)
    && !(pc.InValidation? && pc.val.Deciding? && !l.Judged?)
  }

  /** One scheduler step. */
  lemma Scheduled(
      job: Job, q: Chunk -> bool, c: Chunk, w: nat, sh: Shared, pc: Pc, l: Local, log: seq<Event>,
      sh': Shared, pc': Pc, note: Note)
    requires IsWorker(c, w) && Preserved(job, q) && q(Put(c, w, sh, pc, l, log)) && Schedules(pc, l)
    requires Step(sh, pc, w, ChoiceOf(l)) == Moves(sh', pc', note)
    ensures q(Put(c, w, sh', pc', FreshLocal(pc'), Append(log, note)))
  {
    var before, after := Put(c, w, sh, pc, l, log), Put(c, w, sh', pc', FreshLocal(pc'), Append(log, note));
    assert before.sys.pcs[w := pc'] == after.sys.pcs && before.locals[w := FreshLocal(pc')] == after.locals;
    assert Next(job)(before, w, after);
  }

  /** A step that changes only the store, the outputs and what the worker has in hand. */
  lemma Worked(job: Job, q: Chunk -> bool, c: Chunk, w: nat, c': Chunk)
    requires IsWorker(c, w) && Preserved(job, q) && q(c) && ChunkStep(job, c, w) == Goes(c')
    ensures q(c')
  {
    assert Next(job)(c, w, c');
  }

  lemma PutSelf(c: Chunk, w: nat)
    requires IsWorker(c, w)
    ensures Put(c, w, c.sys.sh, c.sys.pcs[w], c.locals[w], c.sys.log) == c
  {
    assert c.sys.pcs[w := c.sys.pcs[w]] == c.sys.pcs && c.locals[w := c.locals[w]] == c.locals;
  }

  predicate IsIdle(c: Chunk, w: nat) {
    IsWorker(c, w) && c.sys.pcs[w] == Idle && c.locals[w] == Nothing && !c.sys.sh.doneMarker
  }

  // ----------------------------------------------------------------------------------------------
  // Taking and finishing an execution

  function Taken(c: Chunk, w: nat): Chunk
    requires IsWorker(c, w) && c.sys.sh.executionIndex < c.sys.sh.ChunkSize()
  {
    var sh, i := c.sys.sh, c.sys.sh.executionIndex;
    Put(c, w, SetStatus(sh.(executionIndex := i + 1, nActiveTasks := sh.nActiveTasks + 1), i, Executing),
        InExecution(i, Running), Reading([]), c.sys.log)
  }

  lemma TakesExecution(job: Job, q: Chunk -> bool, c: Chunk, w: nat)
    requires Preserved(job, q) && q(c) && IsIdle(c, w)
    requires c.sys.sh.executionIndex < c.sys.sh.ChunkSize() && c.sys.sh.executionIndex <= c.sys.sh.validationIndex
    requires c.sys.sh.statuses[c.sys.sh.executionIndex] == ReadyToExecute
    ensures q(Taken(c, w))
  {
    var sh, log, i := c.sys.sh, c.sys.log, c.sys.sh.executionIndex;
    var reserved := sh.(nActiveTasks := sh.nActiveTasks + 1);
    var fetched := reserved.(executionIndex := i + 1);
    PutSelf(c, w);
    Scheduled(job, q, c, w, sh, Idle, Nothing, log, sh, LoadValidation, Silent);
    Scheduled(job, q, c, w, sh, LoadValidation, Nothing, log, sh, LoadExecution(sh.validationIndex), Silent);
    Scheduled(job, q, c, w, sh, LoadExecution(sh.validationIndex), Nothing, log, sh, ToExecute(Check), Silent);
    Scheduled(job, q, c, w, sh, ToExecute(Check), Nothing, log, sh, ToExecute(Reserve), Silent);
    Scheduled(job, q, c, w, sh, ToExecute(Reserve), Nothing, log, reserved, ToExecute(Fetch), Silent);
    Scheduled(job, q, c, w, reserved, ToExecute(Fetch), Nothing, log, fetched, ToExecute(Lock(i)), Silent);
    Scheduled(job, q, c, w, fetched, ToExecute(Lock(i)), Nothing, log,
              SetStatus(fetched, i, Executing), InExecution(i, Running), Silent);
  }

  function Finished(c: Chunk, w: nat): Chunk
    requires IsWorker(c, w) && c.sys.pcs[w].InExecution? && c.sys.pcs[w].tx < c.sys.sh.ChunkSize()
    requires c.sys.sh.nActiveTasks > 0
  {
    var sh, i := c.sys.sh, c.sys.pcs[w].tx;
    Put(c, w, SetStatus(sh, i, Executed).(validationIndex := i, decreaseCounter := sh.decreaseCounter + 1,
                                          nActiveTasks := sh.nActiveTasks - 1),
        Idle, Nothing, c.sys.log + [Event.Finished(w, i)])
  }

  lemma FinishesExecution(job: Job, q: Chunk -> bool, c: Chunk, w: nat, i: nat)
    requires Preserved(job, q) && q(c) && IsWorker(c, w) && c.sys.pcs[w] == InExecution(i, Running)
    requires c.locals[w] == Recorded && i < c.sys.sh.ChunkSize() && c.sys.sh.statuses[i] == Executing
    requires c.sys.sh.validationIndex > i && c.sys.sh.nActiveTasks > 0
    ensures q(Finished(c, w))
  {
    var sh, log := c.sys.sh, c.sys.log + [Event.Finished(w, i)];
    var executed := SetStatus(sh, i, Executed);
    var lowered := executed.(validationIndex := i);
    var counted := lowered.(decreaseCounter := sh.decreaseCounter + 1);
    PutSelf(c, w);
    Scheduled(job, q, c, w, sh, InExecution(i, Running), Recorded, c.sys.log,
              executed, InExecution(i, LoadIndex), Logs(Event.Finished(w, i)));
    Scheduled(job, q, c, w, executed, InExecution(i, LoadIndex), Nothing, log,
              executed, InExecution(i, LowerIndex), Silent);
    Scheduled(job, q, c, w, executed, InExecution(i, LowerIndex), Nothing, log,
              lowered, InExecution(i, CountDecrease), Silent);
    Scheduled(job, q, c, w, lowered, InExecution(i, CountDecrease), Nothing, log,
              counted, InExecution(i, Release), Silent);
    Scheduled(job, q, c, w, counted, InExecution(i, Release), Nothing, log,
              counted.(nActiveTasks := sh.nActiveTasks - 1), Idle, Silent);
  }

  // ----------------------------------------------------------------------------------------------
  // Executing

  /** The store after a read by transaction `i`: a fetched initial value is cached. */
  function StoreAfterRead(job: Job, s: Store, i: Index, x: Cell): Store {
    if s.ReadAt(i, x).None? && job.initial(x).Some? then s.SetInitial(x, job.initial(x).value) else s
  }

  predicate IsReading(job: Job, c: Chunk, w: nat, i: nat, t: Trace) {
    && IsWorker(c, w) && c.sys.pcs[w] == InExecution(i, Running) && c.locals[w] == Reading(t)
    && i < |job.progs| && i < |c.outputs|
  }

  lemma Asks(job: Job, q: Chunk -> bool, c: Chunk, w: nat, i: nat, t: Trace, x: Cell, t': Trace, c': Chunk)
    requires Preserved(job, q) && q(c) && IsReading(job, c, w, i, t) && job.progs[i](t) == Ask(x) && x !in ReadSet(t)
    requires t' == t + [Read(x, View(c.store, job.initial, i, x))]
    requires c' == Hold(c, w, Reading(t')).(store := StoreAfterRead(job, c.store, i, x))
    ensures q(c')
  {
    Worked(job, q, c, w, c');
  }

  /** The transaction ends: its writes go to the store and its output is recorded. */
  function Ended(job: Job, c: Chunk, w: nat, i: nat, t: Trace): Chunk
    requires IsReading(job, c, w, i, t) && job.progs[i](t).Halt?
  {
    var action := job.progs[i](t);
    var store := if action.succeeded then WriteAll(c.store, i, action.writes) else c.store;
    Hold(c, w, Recorded).(store := store, outputs := c.outputs[i := Some(Output(t, Effective(action)))])
  }

  lemma Ends(job: Job, q: Chunk -> bool, c: Chunk, w: nat, i: nat, t: Trace)
    requires Preserved(job, q) && q(c) && IsReading(job, c, w, i, t) && job.progs[i](t).Halt?
    ensures q(Ended(job, c, w, i, t))
  {
    var action, ended := job.progs[i](t), Ended(job, c, w, i, t);
    var applied := Hold(c, w, Applied(Output(t, Effective(action)))).(store := ended.store);
    Worked(job, q, c, w, applied);
    assert applied.locals[w := Recorded] == ended.locals;
    Worked(job, q, applied, w, ended);
  }

  // ----------------------------------------------------------------------------------------------
  // Taking, passing and failing a validation

  function HandedOutTo(c: Chunk, w: nat): Chunk
    requires IsWorker(c, w)
  {
    var sh, i := c.sys.sh, c.sys.sh.validationIndex;
    Put(c, w, sh.(validationIndex := i + 1, nActiveTasks := sh.nActiveTasks + 1), InValidation(i, Deciding), Nothing,
        c.sys.log + [HandedOut(w, i)])
  }

  function Parked(c: Chunk, w: nat): Chunk
    requires IsWorker(c, w)
  {
    Put(c, w, c.sys.sh, ToValidate(Check), Nothing, c.sys.log)
  }

  lemma Parks(job: Job, q: Chunk -> bool, c: Chunk, w: nat)
    requires Preserved(job, q) && q(c) && IsIdle(c, w)
    requires c.sys.sh.validationIndex < c.sys.sh.executionIndex && c.sys.sh.validationIndex < c.sys.sh.ChunkSize()
    ensures q(Parked(c, w))
  {
    var sh, log := c.sys.sh, c.sys.log;
    PutSelf(c, w);
    Scheduled(job, q, c, w, sh, Idle, Nothing, log, sh, LoadValidation, Silent);
    Scheduled(job, q, c, w, sh, LoadValidation, Nothing, log, sh, LoadExecution(sh.validationIndex), Silent);
    Scheduled(job, q, c, w, sh, LoadExecution(sh.validationIndex), Nothing, log, sh, ToValidate(Check), Silent);
  }

  lemma TakesValidation(job: Job, q: Chunk -> bool, c: Chunk, w: nat)
    requires Preserved(job, q) && q(c) && IsIdle(c, w)
    requires c.sys.sh.validationIndex < c.sys.sh.executionIndex && c.sys.sh.validationIndex < c.sys.sh.ChunkSize()
    requires c.sys.sh.statuses[c.sys.sh.validationIndex] == Executed
    ensures q(HandedOutTo(c, w))
  {
    var sh, log, i := c.sys.sh, c.sys.log, c.sys.sh.validationIndex;
    var reserved := sh.(nActiveTasks := sh.nActiveTasks + 1);
    var fetched := reserved.(validationIndex := i + 1);
    Parks(job, q, c, w);
    Scheduled(job, q, c, w, sh, ToValidate(Check), Nothing, log, sh, ToValidate(Reserve), Silent);
    Scheduled(job, q, c, w, sh, ToValidate(Reserve), Nothing, log, reserved, ToValidate(Fetch), Silent);
    Scheduled(job, q, c, w, reserved, ToValidate(Fetch), Nothing, log, fetched, ToValidate(Lock(i)), Silent);
    Scheduled(job, q, c, w, fetched, ToValidate(Lock(i)), Nothing, log,
              fetched, InValidation(i, Deciding), Logs(HandedOut(w, i)));
  }

  predicate IsValidating(c: Chunk, w: nat, i: nat) {
    && IsWorker(c, w) && c.sys.pcs[w] == InValidation(i, Deciding) && c.locals[w] == Nothing
    && i < |c.outputs| && c.outputs[i].Some?
  }

  /** The worker loads the output and compares its reads. */
  lemma Judges(job: Job, q: Chunk -> bool, c: Chunk, w: nat, i: nat)
    requires Preserved(job, q) && q(c) && IsValidating(c, w, i)
    requires i != 0 ==> Readable(c.store, i, ReadSet(c.outputs[i].value.trace))
    ensures q(Hold(c, w, Judged(i == 0 || Agrees(c.store, i, ReadSet(c.outputs[i].value.trace)))))
  {
    var readSet := ReadSet(c.outputs[i].value.trace);
    var loaded, judged := Hold(c, w, Fetched(readSet)), Hold(c, w, Judged(i == 0 || Agrees(c.store, i, readSet)));
    Worked(job, q, c, w, loaded);
    assert loaded.locals[w := judged.locals[w]] == judged.locals;
    Worked(job, q, loaded, w, judged);
  }

  function Completed(c: Chunk, w: nat, i: nat): Chunk
    requires IsWorker(c, w) && c.sys.sh.nActiveTasks > 0
  {
    Put(c, w, c.sys.sh.(nActiveTasks := c.sys.sh.nActiveTasks - 1), Idle, Nothing, c.sys.log + [Event.Completed(w, i)])
  }

  lemma PassesValidation(job: Job, q: Chunk -> bool, c: Chunk, w: nat, i: nat)
    requires Preserved(job, q) && q(c) && IsValidating(c, w, i) && c.sys.sh.nActiveTasks > 0
    requires i != 0 ==> Agrees(c.store, i, ReadSet(c.outputs[i].value.trace))
    ensures q(Completed(c, w, i))
  {
    Judges(job, q, c, w, i);
    var sh, log := c.sys.sh, c.sys.log + [Event.Completed(w, i)];
    var judged := Hold(c, w, Judged(true));
    PutSelf(judged, w);
    Scheduled(job, q, judged, w, sh, InValidation(i, Deciding), Judged(true), c.sys.log,
              sh, InValidation(i, Leave), Logs(Event.Completed(w, i)));
    Scheduled(job, q, judged, w, sh, InValidation(i, Leave), Nothing, log,
              sh.(nActiveTasks := sh.nActiveTasks - 1), Idle, Silent);
    assert judged.locals[w := Nothing] == c.locals[w := Nothing];
  }

  function Reincarnated(c: Chunk, w: nat, i: nat): Chunk
    requires IsWorker(c, w) && i < c.sys.sh.ChunkSize()
  {
    Put(c, w, SetStatus(c.sys.sh, i, Executing), InExecution(i, Running), Reading([]), c.sys.log + [Aborted(w, i)])
  }

  lemma FailsValidation(job: Job, q: Chunk -> bool, c: Chunk, w: nat, i: nat)
    requires Preserved(job, q) && q(c) && IsValidating(c, w, i) && i < c.sys.sh.ChunkSize() && i != 0
    requires c.sys.sh.statuses[i] == Executed && c.sys.sh.executionIndex > i
    requires Readable(c.store, i, ReadSet(c.outputs[i].value.trace))
    requires !Agrees(c.store, i, ReadSet(c.outputs[i].value.trace))
    ensures q(Reincarnated(c, w, i))
  {
    Judges(job, q, c, w, i);
    var sh, log := c.sys.sh, c.sys.log + [Aborted(w, i)];
    var aborting, ready := SetStatus(sh, i, Aborting), SetStatus(sh, i, ReadyToExecute);
    var judged := Hold(c, w, Judged(false));
    assert SetStatus(aborting, i, ReadyToExecute) == ready;
    assert SetStatus(ready, i, Executing) == SetStatus(sh, i, Executing);
    PutSelf(judged, w);
    Scheduled(job, q, judged, w, sh, InValidation(i, Deciding), Judged(false), c.sys.log,
              aborting, InValidation(i, SetReady), Logs(Aborted(w, i)));
    Scheduled(job, q, judged, w, aborting, InValidation(i, SetReady), Nothing, log,
              ready, InValidation(i, CheckIndex), Silent);
    Scheduled(job, q, judged, w, ready, InValidation(i, CheckIndex), Nothing, log,
              ready, InValidation(i, Incarnate), Silent);
    Scheduled(job, q, judged, w, ready, InValidation(i, Incarnate), Nothing, log,
              SetStatus(sh, i, Executing), InExecution(i, Running), Silent);
    assert judged.locals[w := Reading([])] == c.locals[w := Reading([])];
  }

  // ----------------------------------------------------------------------------------------------
  // Setting the done marker

  function Marked(c: Chunk, w: nat): Chunk
    requires IsWorker(c, w)
  {
    Put(c, w, c.sys.sh.(doneMarker := true), ToExecute(Check), Nothing, c.sys.log)
  }

  lemma SetsDone(job: Job, q: Chunk -> bool, c: Chunk, w: nat)
    requires Preserved(job, q) && q(c) && IsWorker(c, w) && c.sys.pcs[w] == ToValidate(Check) && c.locals[w] == Nothing
    requires c.sys.sh.validationIndex >= c.sys.sh.ChunkSize() && c.sys.sh.executionIndex >= c.sys.sh.ChunkSize()
    requires c.sys.sh.nActiveTasks == 0
    ensures q(Marked(c, w))
  {
    var sh, log, k := c.sys.sh, c.sys.log, c.sys.sh.decreaseCounter;
    var at := (done: DonePc) => CheckDone(FromValidate, done);
    PutSelf(c, w);
    Scheduled(job, q, c, w, sh, ToValidate(Check), Nothing, log, sh, at(Counter), Silent);
    Scheduled(job, q, c, w, sh, at(Counter), Nothing, log, sh, at(Validation(k)), Silent);
    Scheduled(job, q, c, w, sh, at(Validation(k)), Nothing, log, sh, at(Execution(k, sh.validationIndex)), Silent);
    Scheduled(job, q, c, w, sh, at(Execution(k, sh.validationIndex)), Nothing, log, sh, at(ActiveTasks(k)), Silent);
    Scheduled(job, q, c, w, sh, at(ActiveTasks(k)), Nothing, log, sh, at(Recheck(k)), Silent);
    Scheduled(job, q, c, w, sh, at(Recheck(k)), Nothing, log, sh, at(Store), Silent);
    Scheduled(job, q, c, w, sh, at(Store), Nothing, log, sh.(doneMarker := true), ToExecute(Check), Silent);
  }
}
