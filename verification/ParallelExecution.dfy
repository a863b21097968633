/** Workers executing a chunk: the scheduler together with the multi-version store.

    Executing a transaction is a sequence of proxy reads, then one locked `apply_writes`, then recording the
    output; only then does the worker call `finish_execution`.  Validating loads the recorded output,
    compares its reads with the store under the lock, and tries to abort exactly when they differ.  All
    these steps interleave with every other worker's. */
module ParallelExecution {
  import opened Cells
  import opened VersionedStorage
  import opened VersionedState
  import opened Serializability
  import opened Scheduler

  /** What a worker has in hand besides its scheduler position. */
  datatype Local =
    | Nothing
    | Reading(trace: Trace)      // executing: reads so far
    | Applied(output: Output)    // executing: writes are in the store
    | Recorded                   // executing: output recorded
    | Fetched(readSet: Values)   // validating: recorded reads loaded
    | Judged(valid: bool)        // validating: compared with the store

  datatype Chunk = Chunk(sys: System, store: Store, outputs: seq<Option<Output>>, locals: seq<Local>)

  /** The transactions of the chunk and the state it starts from. */
  datatype Job = Job(progs: seq<Program>, initial: Reader)

  ghost predicate InitialChunk(job: Job, nWorkers: nat, p: Chunk) {
    && Init(p.sys, |job.progs|, nWorkers)
    && p.store == Versions(map[], map[])
    && |p.outputs| == |job.progs| && (forall i | 0 <= i < |p.outputs| :: p.outputs[i].None?)
    && |p.locals| == nWorkers && (forall u | 0 <= u < nWorkers :: p.locals[u].Nothing?)
  }

  /** `Stuck` is a panic: a scheduler assertion, a missing output, or a read value missing in the store. */
  datatype Result = Stuck | Goes(next: Chunk)

  function Hold(p: Chunk, w: nat, l: Local): Chunk
    requires w < |p.locals|
  {
    p.(locals := p.locals[w := l])
  }

  /** One step of `execute_tx` for transaction `i`. */
  function ExecuteStep(job: Job, p: Chunk, w: nat, i: nat): Result
    requires w < |p.locals|
  {
    if i >= |job.progs| || i >= |p.outputs| then Stuck
    else
      match p.locals[w]
      case Reading(t) =>
        (match job.progs[i](t)
         case Ask(c) =>
           if c in ReadSet(t) then Goes(p)   // answered by the transaction's own cache
           else
             var r: Option<Felt> := p.store.ReadAt(i, c);
             if r.Some? then Goes(Hold(p, w, Reading(t + [Read(c, r)])))
             else
               var v := job.initial(c);
               var answered := Hold(p, w, Reading(t + [Read(c, v)]));
               Goes(if v.Some? then answered.(store := p.store.SetInitial(c, v.value)) else answered)
         case Halt(succeeded, writes) =>
           var done := Hold(p, w, Applied(Output(t, if succeeded then writes else map[])));
           Goes(if succeeded then done.(store := WriteAll(p.store, i, writes)) else done))
      case Applied(o) => Goes(Hold(p, w, Recorded).(outputs := p.outputs[i := Some(o)]))
      case _ => Stuck
  }

  /** One step of validating transaction `i`, up to the verdict. */
  function ValidateStep(p: Chunk, w: nat, i: nat): Result
    requires w < |p.locals|
  {
    match p.locals[w]
    case Nothing =>
      if i >= |p.outputs| || p.outputs[i].None? then Stuck
      else Goes(Hold(p, w, Fetched(ReadSet(p.outputs[i].value.trace))))
    case Fetched(readSet) =>
      if i != 0 && !Readable(p.store, i, readSet) then Stuck
      else Goes(Hold(p, w, Judged(i == 0 || Agrees(p.store, i, readSet))))
    case _ => Stuck
  }

  predicate Executes(p: Chunk, w: nat)
    requires w < |p.sys.pcs| && w < |p.locals|
  {
    p.sys.pcs[w].InExecution? && p.sys.pcs[w].exec.Running? && !p.locals[w].Recorded?
  }

  predicate Validates(p: Chunk, w: nat)
    requires w < |p.sys.pcs| && w < |p.locals|
  {
    p.sys.pcs[w].InValidation? && p.sys.pcs[w].val.Deciding? && !p.locals[w].Judged?
  }

  /** A worker aborts exactly when its verdict is negative. */
  function ChoiceOf(l: Local): Choice { if l == Judged(false) then TryAbort else Keep }

  function FreshLocal(pc: Pc): Local {
    if pc.InExecution? && pc.exec.Running? then Reading([]) else Nothing
  }

  /** One step of worker `w`. */
  function ChunkStep(job: Job, p: Chunk, w: nat): Result
    requires w < |p.sys.pcs| && w < |p.locals|
  {
    if Executes(p, w) then ExecuteStep(job, p, w, p.sys.pcs[w].tx)
    else if Validates(p, w) then ValidateStep(p, w, p.sys.pcs[w].tx)
    else
      var o := Step(p.sys.sh, p.sys.pcs[w], w, ChoiceOf(p.locals[w]));
      if o.Panics? then Stuck
      else
        Goes(Hold(p, w, FreshLocal(o.pc)).(sys := System(o.sh, p.sys.pcs[w := o.pc], Append(p.sys.log, o.note))))
  }

  /** A run: in each step some worker moves. */
  ghost predicate IsChunkRun(job: Job, nWorkers: nat, states: seq<Chunk>, workers: seq<nat>) {
    && |states| == |workers| + 1
    && InitialChunk(job, nWorkers, states[0])
    && (forall k {:trigger workers[k]} | 0 <= k < |workers| ::
          && workers[k] < |states[k].sys.pcs| && workers[k] < |states[k].locals|
          && ChunkStep(job, states[k], workers[k]) == Goes(states[k + 1]))
  }
}
