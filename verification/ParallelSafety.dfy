/** Every interleaving of the workers that ends with the done marker is a sequential execution. */
module ParallelSafety {
  import opened Cells
  import opened VersionedStorage
  import opened VersionedState
  import opened Serializability
  import opened Scheduler
  import opened SchedulerSafety
  import opened SchedulerTheorems
  import opened ParallelExecution

  // ----------------------------------------------------------------------------------------------
  // The store only changes at the index being executed

  predicate SameAt(cell: map<Index, Felt>, cell': map<Index, Felt>, j: Index) {
    (j in cell <==> j in cell') && (j in cell ==> cell[j] == cell'[j])
  }

  /** From `s` to `s'` cells changed at index `i` only, and nothing was removed. */
  ghost predicate GrowsAt(s: Store, s': Store, i: Index) {
    && s.initial.Keys <= s'.initial.Keys
    && (forall c :: s.CellOf(c).Keys <= s'.CellOf(c).Keys)
    && (forall c, j: Index | j != i :: SameAt(s.CellOf(c), s'.CellOf(c), j))
  }

  lemma {:induction false} GrowsAtKeepsBelow(s: Store, s': Store, i: Index, j: Index, c: Cell)
    requires GrowsAt(s, s', i) && j <= i
    ensures LatestBelow(s'.CellOf(c), j) == LatestBelow(s.CellOf(c), j)
  {
    if j > 0 {
      assert SameAt(s.CellOf(c), s'.CellOf(c), j - 1);
      GrowsAtKeepsBelow(s, s', i, j - 1, c);
    }
  }

  lemma GrowsAtKeepsReadable(s: Store, s': Store, i: Index, j: Index, readSet: Values)
    requires GrowsAt(s, s', i) && Readable(s, j, readSet)
    ensures Readable(s', j, readSet)
  {
    forall c | c in readSet ensures s'.ReadAt(j, c).Some? {
      assert s.ReadAt(j, c).Some?;
      assert forall m | m in s.CellOf(c) :: m in s'.CellOf(c);
    }
  }

  lemma GrowsAtKeepsCells(s: Store, s': Store, i: Index, j: Index, writes: Values)
    requires GrowsAt(s, s', i) && j != i && CellsHold(s, j, writes)
    ensures CellsHold(s', j, writes)
  {
    forall c | c in writes ensures j in s'.CellOf(c) && s'.CellOf(c)[j] == writes[c] {
      assert SameAt(s.CellOf(c), s'.CellOf(c), j);
    }
  }

  lemma WriteAllGrows(s: Store, i: Index, writes: Values)
    ensures GrowsAt(s, WriteAll(s, i, writes), i) && CellsHold(WriteAll(s, i, writes), i, writes)
  {
    forall c ensures WriteAll(s, i, writes).CellOf(c) == CellAfter(s, i, writes, c) {
      WriteAllCells(s, i, writes, c);
    }
  }

  // ----------------------------------------------------------------------------------------------
  // Invariant

  ghost predicate TraceOk(job: Job, s: Store, i: nat, t: Trace)
    requires i < |job.progs|
  {
    && IsPath(job.progs[i], t)
    && Readable(s, i, ReadSet(t))
    && (i == 0 ==> ReadsFrom(ReadSet(t), job.initial))
    && (forall k | 0 <= k < |t| && t[k].answer.None? :: job.initial(t[k].cell).None?)
  }

  predicate Runs(pc: Pc, i: nat) { pc == InExecution(i, Running) }

  ghost predicate OutputOk(job: Job, s: Store, i: nat, o: Output)
    requires i < |job.progs|
  {
    Produces(job.progs[i], o) && TraceOk(job, s, i, o.trace)
  }

  ghost predicate LocalOk(job: Job, p: Chunk, pc: Pc, l: Local)
    requires |p.outputs| == |job.progs|
  {
    var i := if pc.InExecution? || pc.InValidation? then pc.tx else 0;
    if pc.InExecution? && pc.exec.Running? then
      i < |job.progs| &&
      match l
      case Reading(t) => TraceOk(job, p.store, i, t)
      case Applied(o) => OutputOk(job, p.store, i, o) && CellsHold(p.store, i, o.writes)
      case Recorded => p.outputs[i].Some? && CellsHold(p.store, i, p.outputs[i].value.writes)
      case _ => false
    else if IsDeciding(pc) then
      i < |job.progs| && p.outputs[i].Some? &&
      match l
      case Nothing => true
      case Fetched(readSet) => Readable(p.store, i, readSet)
      case Judged(_) => true
      case _ => false
    else l.Nothing?
  }

  /** The recorded reads of `j` are what the store shows below `j` now. */
  ghost predicate ReadsAreCurrent(job: Job, p: Chunk, j: nat)
    requires j < |p.outputs|
  {
    p.outputs[j].Some? && ReadsFrom(ReadSet(p.outputs[j].value.trace), c => Below(p.store, job.initial, j, c))
  }

  /** The worker will still validate `j`, or lower the validation index to `j` or below. */
  predicate WillRevisit(p: Chunk, pc: Pc, l: Local, j: nat)
    requires j < |p.outputs|
  {
    || Pending(pc, j)
    || (pc.InExecution? && pc.tx <= j && pc.exec.Running?)
    || (pc == InValidation(j, Deciding) &&
        (|| l == Nothing
         || l == Judged(false)
         || (p.outputs[j].Some? && l == Fetched(ReadSet(p.outputs[j].value.trace)))))
  }

  ghost predicate Accounted(job: Job, p: Chunk, j: nat)
    requires j < |p.outputs| && j < p.sys.sh.ChunkSize() && |p.locals| == |p.sys.pcs|
  {
    || p.sys.sh.validationIndex <= j
    || p.sys.sh.statuses[j] != Executed
    || (exists u :: 0 <= u < |p.sys.pcs| && WillRevisit(p, p.sys.pcs[u], p.locals[u], j))
    || ReadsAreCurrent(job, p, j)
  }

  ghost predicate StoreOk(job: Job, p: Chunk)
    requires |p.outputs| == |job.progs| == p.sys.sh.ChunkSize()
  {
    && Faithful(p.store, job.initial)
    && (forall i | 0 <= i < |p.outputs| && p.outputs[i].Some? :: OutputOk(job, p.store, i, p.outputs[i].value))
    && (forall i | 0 <= i < |p.outputs| && p.sys.sh.statuses[i] == Executed ::
          p.outputs[i].Some? && CellsHold(p.store, i, p.outputs[i].value.writes))
  }

  ghost predicate Shapes(job: Job, p: Chunk) {
    |p.outputs| == |job.progs| == p.sys.sh.ChunkSize() && |p.locals| == |p.sys.pcs|
  }

  ghost predicate ChunkInv(job: Job, p: Chunk) {
    && Shapes(job, p)
    && Inv(p.sys)
    && StoreOk(job, p)
    && (forall u | 0 <= u < |p.sys.pcs| :: LocalOk(job, p, p.sys.pcs[u], p.locals[u]))
    && (forall j | 0 <= j < |p.outputs| :: Accounted(job, p, j))
  }

  // ----------------------------------------------------------------------------------------------
  // Steps of `execute_tx`

  /** What a step of executing `i` leaves alone. */
  ghost predicate ExecutionEffect(p: Chunk, p': Chunk, w: nat, i: nat) {
    && p'.sys == p.sys
    && |p'.outputs| == |p.outputs| && |p'.locals| == |p.locals|
    && GrowsAt(p.store, p'.store, i)
    && (forall j | 0 <= j < |p.outputs| && j != i :: p'.outputs[j] == p.outputs[j])
    && (forall u | 0 <= u < |p.locals| && u != w :: p'.locals[u] == p.locals[u])
    && (forall j | 0 <= j < |p.outputs| && p.outputs[j].Some? :: p'.outputs[j].Some?)
  }

  lemma OneExecutor(s: System, w: nat, u: nat, i: nat)
    requires Ownership(s) && w < |s.pcs| && u < |s.pcs| && Runs(s.pcs[w], i) && Runs(s.pcs[u], i)
    ensures u == w
  {
    assert Owns(s.pcs[w], i) && Owns(s.pcs[u], i);
  }

  lemma ExecutionKeepsOthers(job: Job, p: Chunk, p': Chunk, w: nat, i: nat, u: nat)
    requires Shapes(job, p) && Ownership(p.sys) && w < |p.sys.pcs| && Runs(p.sys.pcs[w], i)
    requires ExecutionEffect(p, p', w, i)
    requires u < |p.sys.pcs| && u != w && LocalOk(job, p, p.sys.pcs[u], p.locals[u])
    ensures LocalOk(job, p', p'.sys.pcs[u], p'.locals[u])
  {
    var pc, l := p.sys.pcs[u], p.locals[u];
    if pc.InExecution? && pc.exec.Running? {
      var j := pc.tx;
      if j == i { OneExecutor(p.sys, w, u, i); }
      match l {
        case Reading(t) => GrowsAtKeepsReadable(p.store, p'.store, i, j, ReadSet(t));
        case Applied(o) =>
          GrowsAtKeepsReadable(p.store, p'.store, i, j, ReadSet(o.trace));
          GrowsAtKeepsCells(p.store, p'.store, i, j, o.writes);
        case Recorded => GrowsAtKeepsCells(p.store, p'.store, i, j, p.outputs[j].value.writes);
        case _ =>
      }
    } else if IsDeciding(pc) && l.Fetched? {
      GrowsAtKeepsReadable(p.store, p'.store, i, pc.tx, l.readSet);
    }
  }

  lemma ExecutionKeepsAccounts(job: Job, p: Chunk, p': Chunk, w: nat, i: nat, j: nat)
    requires Shapes(job, p) && w < |p.sys.pcs| && Runs(p.sys.pcs[w], i)
    requires ExecutionEffect(p, p', w, i)
    requires j < |p.outputs| && Accounted(job, p, j)
    ensures Accounted(job, p', j)
  {
    if i <= j {
      assert WillRevisit(p', p'.sys.pcs[w], p'.locals[w], j);
    } else if u :| 0 <= u < |p.sys.pcs| && WillRevisit(p, p.sys.pcs[u], p.locals[u], j) {
      assert u != w;
      assert WillRevisit(p', p'.sys.pcs[u], p'.locals[u], j);
    } else if ReadsAreCurrent(job, p, j) {
      forall c ensures Below(p'.store, job.initial, j, c) == Below(p.store, job.initial, j, c) {
        GrowsAtKeepsBelow(p.store, p'.store, i, j, c);
      }
    }
  }

  lemma ExecutionKeepsStore(job: Job, p: Chunk, p': Chunk, w: nat, i: nat)
    requires Shapes(job, p) && Ownership(p.sys) && StoreOk(job, p) && w < |p.sys.pcs| && Runs(p.sys.pcs[w], i)
    requires ExecutionEffect(p, p', w, i)
    requires Faithful(p'.store, job.initial)
    requires i < |job.progs|
    requires p'.outputs[i] == p.outputs[i] || (p'.outputs[i].Some? && OutputOk(job, p.store, i, p'.outputs[i].value))
    ensures StoreOk(job, p')
  {
    assert WorkerOk(p.sys.sh, p.sys.pcs[w]);
    assert p.sys.sh.statuses[i] == Executing;
    forall j | 0 <= j < |p'.outputs| && p'.outputs[j].Some? ensures OutputOk(job, p'.store, j, p'.outputs[j].value) {
      GrowsAtKeepsReadable(p.store, p'.store, i, j, ReadSet(p'.outputs[j].value.trace));
    }
    forall j | 0 <= j < |p'.outputs| && p'.sys.sh.statuses[j] == Executed
      ensures p'.outputs[j].Some? && CellsHold(p'.store, j, p'.outputs[j].value.writes)
    {
      GrowsAtKeepsCells(p.store, p'.store, i, j, p.outputs[j].value.writes);
    }
  }

  /** Caching initial values leaves every cell alone. */
  lemma SameCellsGrow(s: Store, s': Store, i: Index)
    requires s'.writes == s.writes && s.initial.Keys <= s'.initial.Keys
    ensures GrowsAt(s, s', i)
  {
    assert forall c :: s'.CellOf(c) == s.CellOf(c);
  }

  lemma TraceExtends(job: Job, s: Store, i: nat, t: Trace, c: Cell, v: Option<Felt>)
    requires i < |job.progs| && TraceOk(job, s, i, t) && job.progs[i](t) == Ask(c) && c !in ReadSet(t)
    requires if v.Some? then s.ReadAt(i, c).Some? && (i == 0 ==> v == job.initial(c)) else job.initial(c).None?
    ensures TraceOk(job, s, i, t + [Read(c, v)])
  {
    var t' := t + [Read(c, v)];
    assert t'[..|t|] == t;
    assert ReadSet(t') == if v.Some? then ReadSet(t)[c := v.value] else ReadSet(t);
  }

  lemma ReadStep(job: Job, s: Store, i: nat, t: Trace, c: Cell, v: Option<Felt>, s': Store)
    requires i < |job.progs| && TraceOk(job, s, i, t) && job.progs[i](t) == Ask(c) && c !in ReadSet(t)
    requires Faithful(s, job.initial)
    requires var r: Option<Felt> := s.ReadAt(i, c);
      if r.Some? then v == r && s' == s
      else v == job.initial(c) && s' == if v.Some? then s.SetInitial(c, v.value) else s
    ensures GrowsAt(s, s', i) && Faithful(s', job.initial)
    ensures TraceOk(job, s', i, t + [Read(c, v)])
  {
    SameCellsGrow(s, s', i);
    GrowsAtKeepsReadable(s, s', i, i, ReadSet(t));
    TraceExtends(job, s', i, t, c, v);
  }

  lemma ExecuteStepOk(job: Job, p: Chunk, w: nat)
    requires Shapes(job, p) && StoreOk(job, p) && Ownership(p.sys)
    requires w < |p.sys.pcs| && Executes(p, w) && LocalOk(job, p, p.sys.pcs[w], p.locals[w])
    ensures var i := p.sys.pcs[w].tx; var o := ExecuteStep(job, p, w, i);
      && o.Goes? && i < |job.progs|
      && ExecutionEffect(p, o.next, w, i)
      && Faithful(o.next.store, job.initial)
      && (|| o.next.outputs[i] == p.outputs[i]
          || (o.next.outputs[i].Some? && OutputOk(job, p.store, i, o.next.outputs[i].value)))
      && LocalOk(job, o.next, o.next.sys.pcs[w], o.next.locals[w])
  {
    var i := p.sys.pcs[w].tx;
    match p.locals[w] {
      case Reading(t) =>
        match job.progs[i](t) {
          case Ask(c) =>
            if c !in ReadSet(t) {
              var r: Option<Felt> := p.store.ReadAt(i, c);
              var v := if r.Some? then r else job.initial(c);
              ReadStep(job, p.store, i, t, c, v, ExecuteStep(job, p, w, i).next.store);
            }
          case Halt(succeeded, writes) =>
            if succeeded {
              WriteAllGrows(p.store, i, writes);
              GrowsAtKeepsReadable(p.store, WriteAll(p.store, i, writes), i, i, ReadSet(t));
            }
        }
      case Applied(o) =>
      case _ =>
    }
  }

  lemma ExecutionInv(job: Job, p: Chunk, w: nat, p': Chunk)
    requires ChunkInv(job, p) && w < |p.sys.pcs| && Executes(p, w) && ChunkStep(job, p, w) == Goes(p')
    ensures ChunkInv(job, p')
  {
    var i := p.sys.pcs[w].tx;
    ExecuteStepOk(job, p, w);
    ExecutionKeepsStore(job, p, p', w, i);
    forall u | 0 <= u < |p'.sys.pcs| ensures LocalOk(job, p', p'.sys.pcs[u], p'.locals[u]) {
      if u != w { ExecutionKeepsOthers(job, p, p', w, i, u); }
    }
    forall j | 0 <= j < |p'.outputs| ensures Accounted(job, p', j) {
      ExecutionKeepsAccounts(job, p, p', w, i, j);
    }
  }

  // ----------------------------------------------------------------------------------------------
  // Steps of validation

  /** Passing validation with the reads recorded now means the reads are current. */
  lemma ValidMeansCurrent(job: Job, p: Chunk, j: nat)
    requires Shapes(job, p) && StoreOk(job, p) && j < |p.outputs| && p.outputs[j].Some?
    requires j == 0 || Agrees(p.store, j, ReadSet(p.outputs[j].value.trace))
    ensures ReadsAreCurrent(job, p, j)
  {
    var readSet := ReadSet(p.outputs[j].value.trace);
    assert OutputOk(job, p.store, j, p.outputs[j].value);
    forall c | c in readSet ensures Some(readSet[c]) == Below(p.store, job.initial, j, c) {
      BelowIsRead(p.store, job.initial, j, c);
      if j != 0 { assert p.store.ReadAt(j, c) == Some(readSet[c]); }
    }
  }

  lemma ValidationInv(job: Job, p: Chunk, w: nat, p': Chunk)
    requires ChunkInv(job, p) && w < |p.sys.pcs| && Validates(p, w) && ChunkStep(job, p, w) == Goes(p')
    ensures ChunkInv(job, p')
  {
    var i := p.sys.pcs[w].tx;
    assert LocalOk(job, p, p.sys.pcs[w], p.locals[w]);
    if p.locals[w].Nothing? { assert OutputOk(job, p.store, i, p.outputs[i].value); }
    forall u | 0 <= u < |p'.sys.pcs| ensures LocalOk(job, p', p'.sys.pcs[u], p'.locals[u]) {
      assert LocalOk(job, p, p.sys.pcs[u], p.locals[u]);
    }
    forall j | 0 <= j < |p'.outputs| ensures Accounted(job, p', j) {
      assert Accounted(job, p, j);
      if u :| 0 <= u < |p.sys.pcs| && WillRevisit(p, p.sys.pcs[u], p.locals[u], j) {
        if u != w || p'.locals[w] != Judged(true) {
          assert WillRevisit(p', p'.sys.pcs[u], p'.locals[u], j);
        } else {
          ValidMeansCurrent(job, p, j);
          assert ReadsAreCurrent(job, p', j);
        }
      } else if ReadsAreCurrent(job, p, j) {
        assert ReadsAreCurrent(job, p', j);
      }
    }
  }

  // ----------------------------------------------------------------------------------------------
  // Steps of the scheduler

  lemma SchedulerKeepsAccounts(job: Job, p: Chunk, w: nat, p': Chunk, j: nat)
    requires ChunkInv(job, p) && w < |p.sys.pcs| && !Executes(p, w) && !Validates(p, w)
    requires ChunkStep(job, p, w) == Goes(p') && Shapes(job, p')
    requires j < |p.outputs|
    ensures Accounted(job, p', j)
  {
    var o := Step(p.sys.sh, p.sys.pcs[w], w, ChoiceOf(p.locals[w]));
    ActiveHasTask(p.sys, w);
    StepHistoryEffect(p.sys.sh, p.sys.pcs[w], w, ChoiceOf(p.locals[w]), j);
    assert Accounted(job, p, j);
    assert WillRevisit(p', o.pc, FreshLocal(o.pc), j) ==> WillRevisit(p', p'.sys.pcs[w], p'.locals[w], j);
    if u :| 0 <= u < |p.sys.pcs| && WillRevisit(p, p.sys.pcs[u], p.locals[u], j) {
      if u != w {
        assert WillRevisit(p', p'.sys.pcs[u], p'.locals[u], j);
      } else {
        RevisitIsKept(p, w, p', j);
      }
    } else if ReadsAreCurrent(job, p, j) {
      assert ReadsAreCurrent(job, p', j);
    }
  }

  lemma RevisitIsKept(p: Chunk, w: nat, p': Chunk, j: nat)
    requires w < |p.sys.pcs| && w < |p.locals| && !Executes(p, w) && !Validates(p, w)
    requires j < |p.outputs| && j < p.sys.sh.ChunkSize() && WillRevisit(p, p.sys.pcs[w], p.locals[w], j)
    requires Ready(p.sys.sh, p.sys.pcs[w])
    requires var o := Step(p.sys.sh, p.sys.pcs[w], w, ChoiceOf(p.locals[w]));
      && o.Moves?
      && p' == Hold(p, w, FreshLocal(o.pc)).(sys := System(o.sh, p.sys.pcs[w := o.pc], Append(p.sys.log, o.note)))
    ensures j < |p'.sys.sh.statuses|
    ensures p'.sys.sh.validationIndex <= j || p'.sys.sh.statuses[j] != Executed
            || WillRevisit(p', p'.sys.pcs[w], p'.locals[w], j)
  {
    var pc := p.sys.pcs[w];
    StepHistoryEffect(p.sys.sh, pc, w, ChoiceOf(p.locals[w]), j);
    if Pending(pc, j) {
    } else if pc.InExecution? {
    } else {
      assert p.locals[w] == Judged(false);
    }
  }

  lemma SchedulerKeepsLocals(job: Job, p: Chunk, w: nat, p': Chunk, u: nat)
    requires ChunkInv(job, p) && w < |p.sys.pcs| && !Executes(p, w) && !Validates(p, w)
    requires ChunkStep(job, p, w) == Goes(p') && Shapes(job, p') && u < |p.sys.pcs|
    ensures LocalOk(job, p', p'.sys.pcs[u], p'.locals[u])
  {
    assert LocalOk(job, p, p.sys.pcs[u], p.locals[u]);
    if u == w {
      var pc' := p'.sys.pcs[w];
      ActiveHasTask(p.sys, w);
      StepOwnerEffect(p.sys.sh, p.sys.pcs[w], w, ChoiceOf(p.locals[w]));
      assert WorkerOk(p'.sys.sh, pc');
      if IsDeciding(pc') { OnlyExecutedIsHandedOut(p.sys.sh, p.sys.pcs[w], w, ChoiceOf(p.locals[w])); }
    }
  }

  lemma OnlyExecutedIsHandedOut(sh: Shared, pc: Pc, w: nat, choice: Choice)
    requires Step(sh, pc, w, choice).Moves? && IsDeciding(Step(sh, pc, w, choice).pc)
    ensures var i := Step(sh, pc, w, choice).pc.tx; i < |sh.statuses| && sh.statuses[i] == Executed
  {
  }

  lemma OnlyRunningBecomesExecuted(sh: Shared, pc: Pc, w: nat, choice: Choice, i: nat)
    requires Step(sh, pc, w, choice).Moves? && i < |sh.statuses| && i < |Step(sh, pc, w, choice).sh.statuses|
    requires Step(sh, pc, w, choice).sh.statuses[i] == Executed
    ensures sh.statuses[i] == Executed || Runs(pc, i)
  {
  }

  lemma SchedulerInv(job: Job, p: Chunk, w: nat, p': Chunk)
    requires ChunkInv(job, p) && w < |p.sys.pcs| && !Executes(p, w) && !Validates(p, w)
    requires ChunkStep(job, p, w) == Goes(p')
    ensures ChunkInv(job, p')
  {
    var choice := ChoiceOf(p.locals[w]);
    InvStep(p.sys, w, choice, p'.sys);
    forall i | 0 <= i < |p'.outputs| && p'.sys.sh.statuses[i] == Executed
      ensures p'.outputs[i].Some? && CellsHold(p'.store, i, p'.outputs[i].value.writes)
    {
      OnlyRunningBecomesExecuted(p.sys.sh, p.sys.pcs[w], w, choice, i);
      assert LocalOk(job, p, p.sys.pcs[w], p.locals[w]);
    }
    forall u | 0 <= u < |p'.sys.pcs| ensures LocalOk(job, p', p'.sys.pcs[u], p'.locals[u]) {
      SchedulerKeepsLocals(job, p, w, p', u);
    }
    forall j | 0 <= j < |p'.outputs| ensures Accounted(job, p', j) {
      SchedulerKeepsAccounts(job, p, w, p', j);
    }
  }

  // ----------------------------------------------------------------------------------------------
  // Every run

  lemma ChunkInvInit(job: Job, nWorkers: nat, p: Chunk)
    requires InitialChunk(job, nWorkers, p)
    ensures ChunkInv(job, p)
  {
    InvInit(p.sys, |job.progs|, nWorkers);
  }

  lemma ChunkInvStep(job: Job, p: Chunk, w: nat, p': Chunk)
    requires ChunkInv(job, p) && w < |p.sys.pcs| && ChunkStep(job, p, w) == Goes(p')
    ensures ChunkInv(job, p')
  {
    if Executes(p, w) { ExecutionInv(job, p, w, p'); }
    else if Validates(p, w) { ValidationInv(job, p, w, p'); }
    else { SchedulerInv(job, p, w, p'); }
  }

  lemma {:induction false} ChunkInvHolds(job: Job, nWorkers: nat, states: seq<Chunk>, workers: seq<nat>, k: nat)
    requires IsChunkRun(job, nWorkers, states, workers) && k < |states|
    ensures ChunkInv(job, states[k])
  {
    if k == 0 {
      ChunkInvInit(job, nWorkers, states[0]);
    } else {
      ChunkInvHolds(job, nWorkers, states, workers, k - 1);
      ChunkInvStep(job, states[k - 1], workers[k - 1], states[k]);
    }
  }

  /** No worker ever panics: neither in the scheduler, nor for a missing output, nor on a read value missing
      in the versioned storage. */
  lemma NoWorkerPanics(job: Job, nWorkers: nat, states: seq<Chunk>, workers: seq<nat>, k: nat, w: nat)
    requires IsChunkRun(job, nWorkers, states, workers) && k < |states|
    requires w < |states[k].sys.pcs| && w < |states[k].locals|
    ensures ChunkStep(job, states[k], w).Goes?
  {
    ChunkInvHolds(job, nWorkers, states, workers, k);
    var p := states[k];
    assert LocalOk(job, p, p.sys.pcs[w], p.locals[w]);
    if Executes(p, w) {
      ExecuteStepOk(job, p, w);
    } else if !Validates(p, w) {
      ActiveHasTask(p.sys, w);
      StepMoves(p.sys.sh, p.sys.pcs[w], w, ChoiceOf(p.locals[w]));
    }
  }

  function Unwrap<T>(options: seq<Option<T>>): seq<T>
    requires forall i | 0 <= i < |options| :: options[i].Some?
  {
    seq(|options|, i requires 0 <= i < |options| => options[i].value)
  }

  /** Once any worker has set the done marker, the recorded outputs are a validated store. */
  lemma DoneIsValidated(job: Job, nWorkers: nat, states: seq<Chunk>, workers: seq<nat>, k: nat)
    requires IsChunkRun(job, nWorkers, states, workers) && k < |states| && states[k].sys.sh.doneMarker
    ensures forall i | 0 <= i < |states[k].outputs| :: states[k].outputs[i].Some?
    ensures Validated(states[k].store, job.initial, job.progs, Unwrap(states[k].outputs))
    ensures Faithful(states[k].store, job.initial)
  {
    ChunkInvHolds(job, nWorkers, states, workers, k);
    var p := states[k];
    forall j | 0 <= j < |p.outputs|
      ensures p.outputs[j].Some? && OutputOk(job, p.store, j, p.outputs[j].value)
      ensures CellsHold(p.store, j, p.outputs[j].value.writes)
      ensures ReadsFrom(ReadSet(p.outputs[j].value.trace), c => Below(p.store, job.initial, j, c))
    {
      assert Accounted(job, p, j);
      assert forall u | 0 <= u < |p.sys.pcs| :: !HoldsTask(p.sys.pcs[u]);
    }
  }

  /** End to end, for every run of any number of workers over any chunk and any reader.  When the done marker is
      set, the recorded outputs are those of running the transactions one after the other, with the store
      agreeing at every index, if and only if no re-execution left a harmful cell behind and no failed read
      would now succeed; the committed writes laid over the initial state are then the sequential final state. */
  lemma DoneIsSequential(job: Job, nWorkers: nat, states: seq<Chunk>, workers: seq<nat>, k: nat)
    requires IsChunkRun(job, nWorkers, states, workers) && k < |states| && states[k].sys.sh.doneMarker
    ensures forall i | 0 <= i < |states[k].outputs| :: states[k].outputs[i].Some?
    ensures var s, outs := states[k].store, Unwrap(states[k].outputs);
      && (Clean(s, job.initial, outs) <==>
          IsSequential(job.progs, job.initial, outs) && forall j | 0 <= j <= |outs| :: Matches(s, job.initial, outs, j))
      && (Clean(s, job.initial, outs) ==>
            forall c :: View(s, job.initial, |outs|, c) == SeqValue(job.initial, outs, |outs|, c))
  {
    DoneIsValidated(job, nWorkers, states, workers, k);
    var p := states[k];
    var outs := Unwrap(p.outputs);
    SerializableIff(p.store, job.initial, job.progs, outs);
    if Clean(p.store, job.initial, outs) {
      forall c ensures View(p.store, job.initial, |outs|, c) == SeqValue(job.initial, outs, |outs|, c) {
        BelowIsRead(p.store, job.initial, |outs|, c);
        assert Matches(p.store, job.initial, outs, |outs|);
      }
    }
  }

  // ----------------------------------------------------------------------------------------------
  // Transactions whose written cells do not depend on what they read leave nothing behind

  /** Transaction `i` writes exactly the cells `keys[i]` whatever answers it gets; a failing one writes none. */
  ghost predicate FixedFootprint(job: Job, keys: seq<set<Cell>>) {
    && |keys| == |job.progs|
    && forall i, t | 0 <= i < |keys| && IsPath(job.progs[i], t) && job.progs[i](t).Halt? ::
         Effective(job.progs[i](t)).Keys == keys[i]
  }

  /** The reader answers for every cell that some transaction writes. */
  ghost predicate WritesReadable(job: Job, keys: seq<set<Cell>>) {
    forall i, c | 0 <= i < |keys| && c in keys[i] :: job.initial(c).Some?
  }

  predicate Holds(s: Store, c: Cell, i: Index) { i in s.CellOf(c) }

  ghost predicate CellsWithin(s: Store, keys: seq<set<Cell>>) {
    forall c: Cell, i: Index | Holds(s, c, i) :: i < |keys| && c in keys[i]
  }

  lemma CellsWithinStep(job: Job, p: Chunk, w: nat, p': Chunk, keys: seq<set<Cell>>)
    requires w < |p.sys.pcs| && w < |p.locals| && ChunkStep(job, p, w) == Goes(p')
    requires ChunkInv(job, p) && FixedFootprint(job, keys) && CellsWithin(p.store, keys)
    ensures CellsWithin(p'.store, keys)
  {
    if Executes(p, w) && p.locals[w].Reading? {
      var i, t := p.sys.pcs[w].tx, p.locals[w].trace;
      assert LocalOk(job, p, p.sys.pcs[w], p.locals[w]);
      var action := job.progs[i](t);
      if action.Halt? && action.succeeded {
        assert i < |keys| && Effective(action).Keys == keys[i];
        assert p'.store == WriteAll(p.store, i, action.writes);
        forall c: Cell, j: Index | Holds(p'.store, c, j) ensures j < |keys| && c in keys[j] {
          WriteAllCells(p.store, i, action.writes, c);
          assert (j == i && c in action.writes) || Holds(p.store, c, j);
        }
      } else {
        assert forall c: Cell, j: Index :: Holds(p'.store, c, j) == Holds(p.store, c, j);
      }
    }
  }

  lemma {:induction false} CellsWithinHolds(
      job: Job, nWorkers: nat, states: seq<Chunk>, workers: seq<nat>, k: nat, keys: seq<set<Cell>>)
    requires IsChunkRun(job, nWorkers, states, workers) && k < |states| && FixedFootprint(job, keys)
    ensures CellsWithin(states[k].store, keys)
  {
    if k > 0 {
      CellsWithinHolds(job, nWorkers, states, workers, k - 1, keys);
      ChunkInvHolds(job, nWorkers, states, workers, k - 1);
      CellsWithinStep(job, states[k - 1], workers[k - 1], states[k], keys);
    }
  }

  /** A cell the reader cannot answer for is in the store of no such chunk. */
  lemma UnreadableStaysBelow(s: Store, job: Job, keys: seq<set<Cell>>, j: Index, c: Cell)
    requires CellsWithin(s, keys) && WritesReadable(job, keys) && job.initial(c).None?
    ensures Below(s, job.initial, j, c).None?
  {
    forall i: Index | i < j ensures i !in s.CellOf(c) { assert !Holds(s, c, i); }
  }

  /** If no transaction's set of written cells depends on what it reads, and the reader answers for those cells,
      every run that sets the done marker is sequential, without further conditions. */
  lemma FixedFootprintIsSequential(
      job: Job, nWorkers: nat, states: seq<Chunk>, workers: seq<nat>, k: nat, keys: seq<set<Cell>>)
    requires IsChunkRun(job, nWorkers, states, workers) && k < |states| && states[k].sys.sh.doneMarker
    requires FixedFootprint(job, keys) && WritesReadable(job, keys)
    ensures forall i | 0 <= i < |states[k].outputs| :: states[k].outputs[i].Some?
    ensures var outs := Unwrap(states[k].outputs);
      && IsSequential(job.progs, job.initial, outs)
      && forall c :: View(states[k].store, job.initial, |outs|, c) == SeqValue(job.initial, outs, |outs|, c)
  {
    DoneIsSequential(job, nWorkers, states, workers, k);
    DoneIsValidated(job, nWorkers, states, workers, k);
    ChunkInvHolds(job, nWorkers, states, workers, k);
    CellsWithinHolds(job, nWorkers, states, workers, k, keys);
    var p := states[k];
    var outs := Unwrap(p.outputs);
    forall j | 0 <= j < |outs| ensures NoHarmfulLeftover(p.store, job.initial, outs[j], j) {
      assert Produces(job.progs[j], outs[j]);
      forall c | j in p.store.CellOf(c) ensures c in outs[j].writes { assert Holds(p.store, c, j); }
    }
    forall j | 0 <= j < |outs| ensures NoMissedRead(p.store, job.initial, outs[j], j) {
      assert OutputOk(job, p.store, j, p.outputs[j].value);
      forall m | 0 <= m < |outs[j].trace| && outs[j].trace[m].answer.None?
        ensures Below(p.store, job.initial, j, outs[j].trace[m].cell).None?
      {
        UnreadableStaysBelow(p.store, job, keys, j, outs[j].trace[m].cell);
      }
    }
  }
}
