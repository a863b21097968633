/** Safety of the scheduler over every run of any number of workers. */
module SchedulerSafety {
  import opened Scheduler

  // ----------------------------------------------------------------------------------------------
  // Invariant 1: every index below `execution_index` that is not executed has exactly one owner.

  ghost predicate HasOwner(pcs: seq<Pc>, i: nat) {
    exists u :: 0 <= u < |pcs| && Owns(pcs[u], i)
  }

  predicate WorkerOk(sh: Shared, pc: Pc) {
    && (HoldsTask(pc) ==> TxOf(pc) < sh.ChunkSize())
    && !(pc.InValidation? && pc.val.FailedIncarnate?)
    && (IsOwner(pc) ==> TxOf(pc) < sh.executionIndex && sh.statuses[TxOf(pc)] == OwnedStatus(pc))
  }

  ghost predicate Ownership(s: System) {
    && (forall u | 0 <= u < |s.pcs| :: WorkerOk(s.sh, s.pcs[u]))
    && (forall u, v, i: nat | 0 <= u < |s.pcs| && 0 <= v < |s.pcs| && Owns(s.pcs[u], i) && Owns(s.pcs[v], i) :: u == v)
    && (forall i | 0 <= i < s.sh.ChunkSize() ::
          if i >= s.sh.executionIndex then s.sh.statuses[i] == ReadyToExecute
          else s.sh.statuses[i] != Executed ==> HasOwner(s.pcs, i))
  }

  /** The stepping worker stays consistent, and it acquires an index only when nobody can own it. */
  predicate OwnerEffect(sh: Shared, pc: Pc, sh': Shared, pc': Pc) {
    && |sh'.statuses| == |sh.statuses|
    && sh'.executionIndex >= sh.executionIndex
    && WorkerOk(sh', pc')
    && (IsOwner(pc') ==>
          var i := TxOf(pc'); Owns(pc, i) || sh.statuses[i] == Executed || i >= sh.executionIndex)
  }

  /** The status of `i` changes only under its owner or from `Executed`, and ownership is not lost. */
  predicate StatusEffect(sh: Shared, pc: Pc, o: Outcome, i: nat)
    requires i < sh.ChunkSize()
  {
    && o.Moves?
    && |o.sh.statuses| == |sh.statuses|
    && (o.sh.statuses[i] != sh.statuses[i] ==> Owns(pc, i) || sh.statuses[i] == Executed)
    && (i < o.sh.executionIndex && o.sh.statuses[i] != Executed ==>
          Owns(o.pc, i) || (i < sh.executionIndex && sh.statuses[i] != Executed && !Owns(pc, i)))
  }

  // ----------------------------------------------------------------------------------------------
  // What one step may do to the counters and indices.

  function Bit(b: bool): nat { if b then 1 else 0 }

  predicate CountersEffect(sh: Shared, pc: Pc, sh': Shared, pc': Pc) {
    var n := sh.ChunkSize();
    && sh'.nActiveTasks + Bit(Active(pc)) == sh.nActiveTasks + Bit(Active(pc'))
    && (|| sh'.executionIndex + Bit(AboutToExecute(pc')) <= sh.executionIndex + Bit(AboutToExecute(pc))
        || (sh'.executionIndex == sh.executionIndex < n && !AboutToExecute(pc)))
    && (|| sh'.validationIndex + Bit(AboutToValidate(pc')) <= sh.validationIndex + Bit(AboutToValidate(pc))
        || (sh'.validationIndex == sh.validationIndex < n && !AboutToValidate(pc)))
  }

  /** The worker has lowered the validation index and not counted it yet. */
  predicate Counting(pc: Pc) { pc.InExecution? && pc.exec.CountDecrease? }

  predicate DoneEffect(sh: Shared, pc: Pc, sh': Shared, pc': Pc) {
    && sh'.decreaseCounter >= sh.decreaseCounter
    && (sh'.validationIndex < sh.validationIndex ==> Counting(pc'))
    && (Counting(pc) ==> sh'.decreaseCounter > sh.decreaseCounter)
    && (sh'.doneMarker ==> sh.doneMarker || (pc.CheckDone? && pc.done.Store?))
  }

  // ----------------------------------------------------------------------------------------------
  // What one step may do to the history.

  /** The event undoes the worth of an earlier validation of `j`. */
  predicate Disturbs(e: Event, j: nat) { (e.Finished? && e.index <= j) || (e.Aborted? && e.index == j) }

  /** The worker will still hand out, or lower the validation index to, an index no greater than `j`. */
  predicate Pending(pc: Pc, j: nat) {
    || pc == ToValidate(Lock(j))
    || (pc.InExecution? && pc.tx <= j && (pc.exec.LoadIndex? || pc.exec.LowerIndex?))
  }

  predicate IsDeciding(pc: Pc) { pc.InValidation? && pc.val.Deciding? }

  /** The step's effect on the validation of index `j`. */
  predicate HistoryEffect(sh: Shared, pc: Pc, w: nat, o: Outcome, j: nat)
    requires j < sh.ChunkSize()
  {
    && o.Moves?
    && |o.sh.statuses| == |sh.statuses|
    && (sh.validationIndex <= j < o.sh.validationIndex ==> Pending(o.pc, j))
    && (Pending(pc, j) ==>
          || Pending(o.pc, j) || o.sh.validationIndex <= j
          || o.sh.statuses[j] != Executed || o.note == Logs(HandedOut(w, j)))
    && (o.sh.statuses[j] == Executed ==> sh.statuses[j] == Executed || Pending(o.pc, j))
    && (o.note.Logs? && Disturbs(o.note.event, j) ==> Pending(o.pc, j) || o.sh.statuses[j] != Executed)
  }

  /** The step's effect on the history of worker `w`. */
  predicate NoteEffect(pc: Pc, w: nat, o: Outcome) {
    && o.Moves?
    && (o.note.Logs? ==> o.note.event.worker == w)
    && (o.note.Logs? && o.note.event.HandedOut? ==> o.pc == InValidation(o.note.event.index, Deciding))
    && (IsDeciding(pc) ==> o.note == Logs(Completed(w, pc.tx)) || o.note == Logs(Aborted(w, pc.tx)))
  }

  lemma StepHistoryEffect(sh: Shared, pc: Pc, w: nat, choice: Choice, j: nat)
    requires Ready(sh, pc) && j < sh.ChunkSize()
    ensures HistoryEffect(sh, pc, w, Step(sh, pc, w, choice), j)
  {
    if IsTask(pc) { TaskHistoryEffect(sh, pc, w, choice, j); }
  }

  lemma TaskHistoryEffect(sh: Shared, pc: Pc, w: nat, choice: Choice, j: nat)
    requires IsTask(pc) && Ready(sh, pc) && j < sh.ChunkSize()
    ensures HistoryEffect(sh, pc, w, Step(sh, pc, w, choice), j)
  {
  }

  lemma StepNoteEffect(sh: Shared, pc: Pc, w: nat, choice: Choice)
    requires Step(sh, pc, w, choice).Moves?
    ensures NoteEffect(pc, w, Step(sh, pc, w, choice))
  {
  }

  predicate Effect(sh: Shared, pc: Pc, o: Outcome) {
    && o.Moves?
    && OwnerEffect(sh, pc, o.sh, o.pc)
    && CountersEffect(sh, pc, o.sh, o.pc)
    && DoneEffect(sh, pc, o.sh, o.pc)
  }

  /** What a worker may rely on when it takes its next step. */
  predicate Ready(sh: Shared, pc: Pc) {
    && WorkerOk(sh, pc)
    && (Active(pc) ==> sh.nActiveTasks > 0)
    && (sh.executionIndex < sh.ChunkSize() ==> sh.statuses[sh.executionIndex] == ReadyToExecute)
    && (HoldsTask(pc) && TxOf(pc) >= sh.executionIndex ==> sh.statuses[TxOf(pc)] == ReadyToExecute)
  }

  lemma StepMoves(sh: Shared, pc: Pc, w: nat, choice: Choice)
    requires Ready(sh, pc)
    ensures Step(sh, pc, w, choice).Moves?
  {
  }

  predicate IsIndexing(pc: Pc) { pc.ToValidate? || pc.ToExecute? }

  predicate IsTask(pc: Pc) { pc.InValidation? || pc.InExecution? }

  lemma StepOwnerEffect(sh: Shared, pc: Pc, w: nat, choice: Choice)
    requires Ready(sh, pc) && Step(sh, pc, w, choice).Moves?
    ensures var o := Step(sh, pc, w, choice); OwnerEffect(sh, pc, o.sh, o.pc)
  {
    if IsTask(pc) {
      TaskOwnerEffect(sh, pc, w, choice);
    } else if IsIndexing(pc) {
      IndexOwnerEffect(sh, pc, w, choice);
    }
  }

  lemma TaskOwnerEffect(sh: Shared, pc: Pc, w: nat, choice: Choice)
    requires IsTask(pc) && Ready(sh, pc) && Step(sh, pc, w, choice).Moves?
    ensures var o := Step(sh, pc, w, choice); OwnerEffect(sh, pc, o.sh, o.pc)
  {
  }

  lemma IndexOwnerEffect(sh: Shared, pc: Pc, w: nat, choice: Choice)
    requires IsIndexing(pc) && Ready(sh, pc) && Step(sh, pc, w, choice).Moves?
    ensures var o := Step(sh, pc, w, choice); OwnerEffect(sh, pc, o.sh, o.pc)
  {
  }

  lemma StepCountersEffect(sh: Shared, pc: Pc, w: nat, choice: Choice)
    requires Ready(sh, pc) && Step(sh, pc, w, choice).Moves?
    ensures var o := Step(sh, pc, w, choice); CountersEffect(sh, pc, o.sh, o.pc)
  {
    if IsTask(pc) {
      TaskCountersEffect(sh, pc, w, choice);
    } else if IsIndexing(pc) {
      IndexCountersEffect(sh, pc, w, choice);
    }
  }

  lemma TaskCountersEffect(sh: Shared, pc: Pc, w: nat, choice: Choice)
    requires IsTask(pc) && Ready(sh, pc) && Step(sh, pc, w, choice).Moves?
    ensures var o := Step(sh, pc, w, choice); CountersEffect(sh, pc, o.sh, o.pc)
  {
  }

  lemma IndexCountersEffect(sh: Shared, pc: Pc, w: nat, choice: Choice)
    requires IsIndexing(pc) && Ready(sh, pc) && Step(sh, pc, w, choice).Moves?
    ensures var o := Step(sh, pc, w, choice); CountersEffect(sh, pc, o.sh, o.pc)
  {
  }

  lemma StepDoneEffect(sh: Shared, pc: Pc, w: nat, choice: Choice)
    requires Ready(sh, pc) && Step(sh, pc, w, choice).Moves?
    ensures var o := Step(sh, pc, w, choice); DoneEffect(sh, pc, o.sh, o.pc)
  {
  }

  lemma StepEffect(sh: Shared, pc: Pc, w: nat, choice: Choice)
    requires Ready(sh, pc)
    ensures Effect(sh, pc, Step(sh, pc, w, choice))
  {
    StepMoves(sh, pc, w, choice);
    StepOwnerEffect(sh, pc, w, choice);
    StepCountersEffect(sh, pc, w, choice);
    StepDoneEffect(sh, pc, w, choice);
  }

  lemma StepStatusEffect(sh: Shared, pc: Pc, w: nat, choice: Choice, i: nat)
    requires Ready(sh, pc) && i < sh.ChunkSize()
    ensures StatusEffect(sh, pc, Step(sh, pc, w, choice), i)
  {
  }

  lemma OwnershipStep(s: System, w: nat, choice: Choice, s': System)
    requires w < |s.pcs| && Ownership(s) && Ready(s.sh, s.pcs[w]) && StepsTo(s, w, choice, s')
    ensures Ownership(s')
  {
    var pc, pc' := s.pcs[w], s'.pcs[w];
    StepEffect(s.sh, pc, w, choice);
    forall i: nat | i < s.sh.ChunkSize() ensures StatusEffect(s.sh, pc, Step(s.sh, pc, w, choice), i) {
      StepStatusEffect(s.sh, pc, w, choice, i);
    }
    forall i | 0 <= i < s'.sh.ChunkSize()
      ensures if i >= s'.sh.executionIndex then s'.sh.statuses[i] == ReadyToExecute
              else s'.sh.statuses[i] != Executed ==> HasOwner(s'.pcs, i)
    {
      assert StatusEffect(s.sh, pc, Step(s.sh, pc, w, choice), i);
      if i >= s'.sh.executionIndex || s'.sh.statuses[i] == Executed {
      } else if Owns(pc', i) {
        assert Owns(s'.pcs[w], i);
      } else {
        var u :| 0 <= u < |s.pcs| && Owns(s.pcs[u], i);
        assert Owns(s'.pcs[u], i);
      }
    }
    OthersKeepOwnership(s, w, Step(s.sh, pc, w, choice));
  }

  /** Non-interference: no other worker notices the step. */
  lemma OthersKeepOwnership(s: System, w: nat, o: Outcome)
    requires w < |s.pcs| && Ownership(s) && o.Moves? && OwnerEffect(s.sh, s.pcs[w], o.sh, o.pc)
    requires forall i: nat | i < s.sh.ChunkSize() :: StatusEffect(s.sh, s.pcs[w], o, i)
    ensures forall u | 0 <= u < |s.pcs| && u != w :: WorkerOk(o.sh, s.pcs[u])
    ensures forall u, i: nat | 0 <= u < |s.pcs| && u != w && Owns(s.pcs[u], i) :: !Owns(o.pc, i)
  {
    forall u | 0 <= u < |s.pcs| && u != w ensures WorkerOk(o.sh, s.pcs[u]) {
      if IsOwner(s.pcs[u]) {
        assert Owns(s.pcs[u], TxOf(s.pcs[u]));
        assert StatusEffect(s.sh, s.pcs[w], o, TxOf(s.pcs[u]));
      }
    }
  }
  // ----------------------------------------------------------------------------------------------
  // Invariant 2: `n_active_tasks` counts the active workers.  Invariant 3: both indices are bounded.

  function Count(pcs: seq<Pc>, p: Pc -> bool): nat {
    if pcs == [] then 0 else Count(pcs[..|pcs| - 1], p) + Bit(p(pcs[|pcs| - 1]))
  }

  lemma {:induction false} CountUpdate(pcs: seq<Pc>, p: Pc -> bool, w: nat, pc: Pc)
    requires w < |pcs|
    ensures Count(pcs[w := pc], p) + Bit(p(pcs[w])) == Count(pcs, p) + Bit(p(pc))
  {
    var m := |pcs| - 1;
    if w == m {
      assert pcs[w := pc][..m] == pcs[..m];
    } else {
      assert pcs[w := pc][..m] == pcs[..m][w := pc];
      CountUpdate(pcs[..m], p, w, pc);
    }
  }

  lemma {:induction false} CountBounds(pcs: seq<Pc>, p: Pc -> bool)
    ensures Count(pcs, p) <= |pcs|
    ensures Count(pcs, p) == 0 <==> forall u | 0 <= u < |pcs| :: !p(pcs[u])
    ensures Count(pcs, p) == |pcs| ==> forall u | 0 <= u < |pcs| :: p(pcs[u])
  {
    if pcs != [] { CountBounds(pcs[..|pcs| - 1], p); }
  }

  ghost predicate Conservation(s: System) { s.sh.nActiveTasks == Count(s.pcs, Active) }

  /** The largest value either index can reach: every worker but one overshoots the last index. */
  function IndexLimit(chunkSize: nat, nWorkers: nat): nat {
    if nWorkers == 0 then chunkSize else chunkSize + nWorkers - 1
  }

  ghost predicate Bounded(s: System) {
    var limit := IndexLimit(s.sh.ChunkSize(), |s.pcs|);
    && s.sh.executionIndex + Count(s.pcs, AboutToExecute) <= limit
    && s.sh.validationIndex + Count(s.pcs, AboutToValidate) <= limit
  }

  lemma ActiveHasTask(s: System, w: nat)
    requires w < |s.pcs| && Ownership(s) && Conservation(s)
    ensures Ready(s.sh, s.pcs[w])
  {
    CountBounds(s.pcs, Active);
  }

  lemma CountersStep(s: System, w: nat, choice: Choice, s': System)
    requires w < |s.pcs| && Ready(s.sh, s.pcs[w]) && StepsTo(s, w, choice, s')
    requires Conservation(s) && Bounded(s)
    ensures Conservation(s') && Bounded(s')
  {
    var pc, pc' := s.pcs[w], s'.pcs[w];
    StepEffect(s.sh, pc, w, choice);
    CountUpdate(s.pcs, Active, w, pc');
    CountUpdate(s.pcs, AboutToExecute, w, pc');
    CountUpdate(s.pcs, AboutToValidate, w, pc');
    CountBounds(s'.pcs, AboutToExecute);
    CountBounds(s'.pcs, AboutToValidate);
  }

  // ----------------------------------------------------------------------------------------------
  // Invariant 4: once the marker is set, nothing is left to do.

  /** Both indices are exhausted, every transaction is executed and nobody holds a task. */
  ghost predicate Quiet(s: System) {
    && s.sh.validationIndex >= s.sh.ChunkSize()
    && s.sh.executionIndex >= s.sh.ChunkSize()
    && (forall i | 0 <= i < s.sh.ChunkSize() :: s.sh.statuses[i] == Executed)
    && (forall u | 0 <= u < |s.pcs| :: !HoldsTask(s.pcs[u]))
  }

  /** Since the counter had value `observed` and the validation index was exhausted, either it still is,
      or the counter has grown, or some worker is about to make it grow. */
  ghost predicate NotLowered(s: System, observed: nat) {
    || s.sh.validationIndex >= s.sh.ChunkSize()
    || s.sh.decreaseCounter > observed
    || exists v :: 0 <= v < |s.pcs| && Counting(s.pcs[v])
  }

  ghost predicate CheckingOk(s: System, pc: Pc) {
    pc.CheckDone? ==>
      match pc.done
      case Counter => true
      case Validation(observed) => observed <= s.sh.decreaseCounter
      case Execution(observed, iv) =>
        observed <= s.sh.decreaseCounter && (iv >= s.sh.ChunkSize() ==> NotLowered(s, observed))
      case ActiveTasks(observed) =>
        && observed <= s.sh.decreaseCounter
        && s.sh.executionIndex >= s.sh.ChunkSize()
        && NotLowered(s, observed)
      case Recheck(observed) =>
        observed <= s.sh.decreaseCounter && (s.sh.decreaseCounter == observed ==> Quiet(s))
      case Store => Quiet(s)
  }

  ghost predicate DoneOk(s: System) {
    && (forall u | 0 <= u < |s.pcs| :: CheckingOk(s, s.pcs[u]))
    && (s.sh.doneMarker ==> Quiet(s))
  }

  /** No step leaves a quiet state, and no step from one hands out a task. */
  lemma QuietIsStable(s: System, w: nat, choice: Choice, s': System)
    requires w < |s.pcs| && Quiet(s) && StepsTo(s, w, choice, s')
    ensures Quiet(s') && !HoldsTask(s'.pcs[w]) && s'.log == s.log
    ensures s.sh.doneMarker ==> s'.sh.doneMarker
  {
    assert !HoldsTask(s.pcs[w]);
  }

  /** With no active worker and both indices exhausted, the system is quiet. */
  lemma IdleIsQuiet(s: System)
    requires Ownership(s) && Conservation(s)
    requires s.sh.nActiveTasks == 0
    requires s.sh.validationIndex >= s.sh.ChunkSize() && s.sh.executionIndex >= s.sh.ChunkSize()
    ensures Quiet(s)
  {
    CountBounds(s.pcs, Active);
    forall i | 0 <= i < s.sh.ChunkSize() ensures s.sh.statuses[i] == Executed {
      if s.sh.statuses[i] != Executed {
        var u :| 0 <= u < |s.pcs| && Owns(s.pcs[u], i);
        assert Active(s.pcs[u]);
      }
    }
  }

  lemma NotLoweredStep(s: System, w: nat, choice: Choice, s': System, observed: nat)
    requires w < |s.pcs| && Ready(s.sh, s.pcs[w]) && StepsTo(s, w, choice, s')
    requires observed <= s.sh.decreaseCounter && NotLowered(s, observed)
    ensures NotLowered(s', observed)
  {
    StepEffect(s.sh, s.pcs[w], w, choice);
    if s.sh.validationIndex >= s.sh.ChunkSize() {
      assert s'.sh.validationIndex < s'.sh.ChunkSize() ==> Counting(s'.pcs[w]);
    } else if s.sh.decreaseCounter <= observed {
      var v :| 0 <= v < |s.pcs| && Counting(s.pcs[v]);
      assert v != w ==> Counting(s'.pcs[v]);
    }
  }

  lemma OthersKeepChecking(s: System, w: nat, choice: Choice, s': System, u: nat)
    requires w < |s.pcs| && Ready(s.sh, s.pcs[w]) && StepsTo(s, w, choice, s')
    requires u < |s.pcs| && u != w && CheckingOk(s, s.pcs[u])
    ensures CheckingOk(s', s'.pcs[u])
  {
    StepEffect(s.sh, s.pcs[w], w, choice);
    if s.pcs[u].CheckDone? {
      match s.pcs[u].done {
        case Execution(observed, iv) =>
          if iv >= s.sh.ChunkSize() { NotLoweredStep(s, w, choice, s', observed); }
        case ActiveTasks(observed) => NotLoweredStep(s, w, choice, s', observed);
        case Recheck(observed) =>
          if s'.sh.decreaseCounter == observed { QuietIsStable(s, w, choice, s'); }
        case Store => QuietIsStable(s, w, choice, s');
        case _ =>
      }
    }
  }

  /** With no active task, nobody is about to count a decrease. */
  lemma OwnActiveTasks(s: System, w: nat, choice: Choice, s': System, observed: nat)
    requires w < |s.pcs| && Ownership(s) && Conservation(s) && StepsTo(s, w, choice, s')
    requires s.pcs[w].CheckDone? && s.pcs[w].done == ActiveTasks(observed) && CheckingOk(s, s.pcs[w])
    ensures CheckingOk(s', s'.pcs[w])
  {
    if s.sh.nActiveTasks == 0 {
      CountBounds(s.pcs, Active);
      if s.sh.decreaseCounter == observed {
        assert forall v | 0 <= v < |s.pcs| :: !Counting(s.pcs[v]);
        IdleIsQuiet(s);
        QuietIsStable(s, w, choice, s');
      }
    }
  }

  lemma OwnExecution(s: System, w: nat, choice: Choice, s': System, observed: nat, iv: nat)
    requires w < |s.pcs| && Ready(s.sh, s.pcs[w]) && StepsTo(s, w, choice, s')
    requires s.pcs[w].CheckDone? && s.pcs[w].done == Execution(observed, iv) && CheckingOk(s, s.pcs[w])
    ensures CheckingOk(s', s'.pcs[w])
  {
    if iv >= s.sh.ChunkSize() { NotLoweredStep(s, w, choice, s', observed); }
  }

  lemma OwnRecheck(s: System, w: nat, choice: Choice, s': System, observed: nat)
    requires w < |s.pcs| && StepsTo(s, w, choice, s')
    requires s.pcs[w].CheckDone? && s.pcs[w].done == Recheck(observed) && CheckingOk(s, s.pcs[w])
    ensures CheckingOk(s', s'.pcs[w])
  {
    if s.sh.decreaseCounter == observed { QuietIsStable(s, w, choice, s'); }
  }

  /** `check_done` is entered at its first read. */
  lemma EntersAtCounter(sh: Shared, pc: Pc, w: nat, choice: Choice)
    requires !pc.CheckDone? && Step(sh, pc, w, choice).Moves?
    ensures var pc' := Step(sh, pc, w, choice).pc; pc'.CheckDone? ==> pc'.done.Counter?
  {
  }

  lemma OwnChecking(s: System, w: nat, choice: Choice, s': System)
    requires w < |s.pcs| && Ownership(s) && Conservation(s) && StepsTo(s, w, choice, s')
    requires CheckingOk(s, s.pcs[w])
    ensures CheckingOk(s', s'.pcs[w])
  {
    ActiveHasTask(s, w);
    match s.pcs[w] {
      case CheckDone(_, Execution(observed, iv)) => OwnExecution(s, w, choice, s', observed, iv);
      case CheckDone(_, ActiveTasks(observed)) => OwnActiveTasks(s, w, choice, s', observed);
      case CheckDone(_, Recheck(observed)) => OwnRecheck(s, w, choice, s', observed);
      case CheckDone(_, _) =>
      case _ => EntersAtCounter(s.sh, s.pcs[w], w, choice);
    }
  }

  /** A worker leaves its loop only when the marker is set, and the marker stays. */
  lemma StepExitEffect(sh: Shared, pc: Pc, w: nat, choice: Choice)
    requires Step(sh, pc, w, choice).Moves? && (pc.Exited? ==> sh.doneMarker)
    ensures var o := Step(sh, pc, w, choice); (o.pc.Exited? ==> o.sh.doneMarker) && (sh.doneMarker ==> o.sh.doneMarker)
  {
  }

  lemma DoneStep(s: System, w: nat, choice: Choice, s': System)
    requires w < |s.pcs| && Ownership(s) && Conservation(s) && StepsTo(s, w, choice, s')
    requires DoneOk(s)
    ensures DoneOk(s')
  {
    ActiveHasTask(s, w);
    forall u | 0 <= u < |s'.pcs| ensures CheckingOk(s', s'.pcs[u]) {
      if u == w { OwnChecking(s, w, choice, s'); } else { OthersKeepChecking(s, w, choice, s', u); }
    }
    StepEffect(s.sh, s.pcs[w], w, choice);
    if s'.sh.doneMarker { QuietIsStable(s, w, choice, s'); }
  }
}
