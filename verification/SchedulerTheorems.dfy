/** The history invariant, and what holds of every run of the scheduler. */
module SchedulerTheorems {
  import opened Scheduler
  import opened SchedulerSafety

  // ----------------------------------------------------------------------------------------------
  // Invariant 5: an executed index is freshly validated, or its validation is still due.

  /** A validation of `j` was handed out at position `p` of the history and nothing disturbed it since. */
  ghost predicate FreshAt(log: seq<Event>, j: nat, p: nat) {
    && p < |log| && log[p].HandedOut? && log[p].index == j
    && (forall q | p < q < |log| :: !Disturbs(log[q], j))
  }

  ghost predicate Covered(s: System, j: nat)
    requires j < s.sh.ChunkSize()
  {
    || s.sh.validationIndex <= j
    || s.sh.statuses[j] != Executed
    || (exists u :: 0 <= u < |s.pcs| && Pending(s.pcs[u], j))
    || (exists p :: FreshAt(s.log, j, p))
  }

  lemma CoveredStep(s: System, w: nat, choice: Choice, s': System, j: nat)
    requires w < |s.pcs| && Ready(s.sh, s.pcs[w]) && StepsTo(s, w, choice, s')
    requires j < s.sh.ChunkSize() && j < s'.sh.ChunkSize() && Covered(s, j)
    ensures Covered(s', j)
  {
    var o := Step(s.sh, s.pcs[w], w, choice);
    StepHistoryEffect(s.sh, s.pcs[w], w, choice, j);
    assert Pending(o.pc, j) ==> Pending(s'.pcs[w], j);
    if o.note == Logs(HandedOut(w, j)) {
      assert FreshAt(s'.log, j, |s.log|);
    } else if s.sh.validationIndex <= j || s.sh.statuses[j] != Executed {
    } else if u :| 0 <= u < |s.pcs| && Pending(s.pcs[u], j) {
      assert u != w ==> Pending(s'.pcs[u], j);
    } else {
      var p :| FreshAt(s.log, j, p);
      assert o.note.Silent? || !Disturbs(o.note.event, j) ==> FreshAt(s'.log, j, p);
    }
  }

  // ----------------------------------------------------------------------------------------------
  // Invariant 6: a handed-out validation is still held, or it ended as the worker's next event.

  ghost predicate NoEventOf(log: seq<Event>, w: nat, p: nat, r: nat) {
    forall q | p < q < r && q < |log| :: log[q].worker != w
  }

  predicate Ends(e: Event, w: nat, j: nat) { e == Completed(w, j) || e == Aborted(w, j) }

  ghost predicate Answered(s: System, p: nat)
    requires p < |s.log|
  {
    var w, j := s.log[p].worker, s.log[p].index;
    s.log[p].HandedOut? ==>
      || (w < |s.pcs| && s.pcs[w] == InValidation(j, Deciding) && NoEventOf(s.log, w, p, |s.log|))
      || exists r :: p < r < |s.log| && Ends(s.log[r], w, j) && NoEventOf(s.log, w, p, r)
  }

  lemma AnsweredStep(s: System, w: nat, choice: Choice, s': System, p: nat)
    requires w < |s.pcs| && StepsTo(s, w, choice, s')
    requires p < |s'.log| && (p < |s.log| ==> Answered(s, p))
    ensures Answered(s', p)
  {
    var o := Step(s.sh, s.pcs[w], w, choice);
    StepNoteEffect(s.sh, s.pcs[w], w, choice);
    if p < |s.log| && s.log[p].HandedOut? {
      var w', j := s.log[p].worker, s.log[p].index;
      if r :| p < r < |s.log| && Ends(s.log[r], w', j) && NoEventOf(s.log, w', p, r) {
        assert Ends(s'.log[r], w', j) && NoEventOf(s'.log, w', p, r);
      } else if w == w' {
        assert IsDeciding(s.pcs[w]);
        assert Ends(s'.log[|s.log|], w', j) && NoEventOf(s'.log, w', p, |s.log|);
      } else {
        assert NoEventOf(s'.log, w', p, |s'.log|);
      }
    }
  }

  // ----------------------------------------------------------------------------------------------
  // Every run

  ghost predicate Inv(s: System) {
    && Ownership(s) && Conservation(s) && Bounded(s) && DoneOk(s)
    && (forall u | 0 <= u < |s.pcs| && s.pcs[u].Exited? :: s.sh.doneMarker)
    && (forall j | 0 <= j < s.sh.ChunkSize() :: Covered(s, j))
    && (forall p | 0 <= p < |s.log| :: Answered(s, p))
  }

  lemma InvInit(s: System, chunkSize: nat, nWorkers: nat)
    requires Init(s, chunkSize, nWorkers)
    ensures Inv(s)
  {
    CountBounds(s.pcs, Active);
    CountBounds(s.pcs, AboutToExecute);
    CountBounds(s.pcs, AboutToValidate);
  }

  lemma InvStep(s: System, w: nat, choice: Choice, s': System)
    requires w < |s.pcs| && Inv(s) && StepsTo(s, w, choice, s')
    ensures Inv(s') && s'.sh.ChunkSize() == s.sh.ChunkSize() && |s'.pcs| == |s.pcs|
  {
    ActiveHasTask(s, w);
    StepEffect(s.sh, s.pcs[w], w, choice);
    OwnershipStep(s, w, choice, s');
    CountersStep(s, w, choice, s');
    DoneStep(s, w, choice, s');
    StepExitEffect(s.sh, s.pcs[w], w, choice);
    forall j | 0 <= j < s'.sh.ChunkSize() ensures Covered(s', j) { CoveredStep(s, w, choice, s', j); }
    forall p | 0 <= p < |s'.log| ensures Answered(s', p) { AnsweredStep(s, w, choice, s', p); }
  }

  lemma {:induction false} InvHolds(chunkSize: nat, nWorkers: nat, states: seq<System>, moves: seq<Move>, k: nat)
    requires IsRun(chunkSize, nWorkers, states, moves) && k < |states|
    ensures Inv(states[k]) && states[k].sh.ChunkSize() == chunkSize && |states[k].pcs| == nWorkers
  {
    if k == 0 {
      InvInit(states[0], chunkSize, nWorkers);
    } else {
      InvHolds(chunkSize, nWorkers, states, moves, k - 1);
      InvStep(states[k - 1], moves[k - 1].worker, moves[k - 1].choice, states[k]);
    }
  }

  /** No assertion of the scheduler fires in any run: whatever worker steps next, it does not panic.  In
      particular `n_active_tasks` never underflows and every status assertion holds. */
  lemma NoStepPanics(
      chunkSize: nat, nWorkers: nat, states: seq<System>, moves: seq<Move>, k: nat, w: nat, choice: Choice)
    requires IsRun(chunkSize, nWorkers, states, moves) && k < |states| && w < |states[k].pcs|
    ensures Step(states[k].sh, states[k].pcs[w], w, choice).Moves?
  {
    InvHolds(chunkSize, nWorkers, states, moves, k);
    ActiveHasTask(states[k], w);
    StepEffect(states[k].sh, states[k].pcs[w], w, choice);
  }

  /** In every reachable state `n_active_tasks` is the number of workers holding a task or reservation. */
  lemma ActiveTasksAreConserved(chunkSize: nat, nWorkers: nat, states: seq<System>, moves: seq<Move>, k: nat)
    requires IsRun(chunkSize, nWorkers, states, moves) && k < |states|
    ensures states[k].sh.nActiveTasks == Count(states[k].pcs, Active)
  {
    InvHolds(chunkSize, nWorkers, states, moves, k);
  }

  /** No two workers ever execute the same index, and an index is `Executing` exactly when one does. */
  lemma ExecutionIsExclusive(
      chunkSize: nat, nWorkers: nat, states: seq<System>, moves: seq<Move>, k: nat, i: nat)
    requires IsRun(chunkSize, nWorkers, states, moves) && k < |states| && i < chunkSize
    ensures var s := states[k];
      && |s.pcs| == nWorkers && |s.sh.statuses| == chunkSize
      && (forall u, v | 0 <= u < nWorkers && 0 <= v < nWorkers
            && s.pcs[u] == InExecution(i, Running) && s.pcs[v] == InExecution(i, Running) :: u == v)
      && (s.sh.statuses[i] == Executing <==> exists u :: 0 <= u < nWorkers && s.pcs[u] == InExecution(i, Running))
  {
    InvHolds(chunkSize, nWorkers, states, moves, k);
    var s := states[k];
    forall u | 0 <= u < nWorkers && s.pcs[u] == InExecution(i, Running)
      ensures Owns(s.pcs[u], i) && s.sh.statuses[i] == Executing
    {
      assert WorkerOk(s.sh, s.pcs[u]);
    }
    if s.sh.statuses[i] == Executing {
      var u :| 0 <= u < |s.pcs| && Owns(s.pcs[u], i);
      assert WorkerOk(s.sh, s.pcs[u]);
      assert s.pcs[u] == InExecution(i, Running);
    }
  }

  /** An aborted validation always gets its execution task back: from the moment the abort succeeded, each
      of the worker's next three steps, whenever it is taken, leads on to executing the same index; the path
      on which `finish_validation` would decrement `n_active_tasks` twice is never taken. */
  lemma AbortGetsItsExecution(
      chunkSize: nat, nWorkers: nat, states: seq<System>, moves: seq<Move>, k: nat)
    requires IsRun(chunkSize, nWorkers, states, moves) && k < |moves|
    requires states[k].pcs[moves[k].worker].InValidation?
    ensures var w := moves[k].worker; var pc, pc' := states[k].pcs[w], states[k + 1].pcs[w];
      && !pc.val.FailedIncarnate?
      && (pc.val.SetReady? ==> pc' == InValidation(pc.tx, CheckIndex))
      && (pc.val.CheckIndex? ==> pc' == InValidation(pc.tx, Incarnate))
      && (pc.val.Incarnate? ==> pc' == InExecution(pc.tx, Running))
  {
    InvHolds(chunkSize, nWorkers, states, moves, k);
    assert WorkerOk(states[k].sh, states[k].pcs[moves[k].worker]);
  }

  /** Both shared indices stay below the chunk size plus the number of workers. */
  lemma IndicesAreBounded(chunkSize: nat, nWorkers: nat, states: seq<System>, moves: seq<Move>, k: nat)
    requires IsRun(chunkSize, nWorkers, states, moves) && k < |states|
    ensures states[k].sh.executionIndex <= IndexLimit(chunkSize, nWorkers)
    ensures states[k].sh.validationIndex <= IndexLimit(chunkSize, nWorkers)
  {
    InvHolds(chunkSize, nWorkers, states, moves, k);
  }

  /** No worker leaves its loop before the done marker is set. */
  lemma OnlyDoneWorkersExit(
      chunkSize: nat, nWorkers: nat, states: seq<System>, moves: seq<Move>, k: nat, u: nat)
    requires IsRun(chunkSize, nWorkers, states, moves) && k < |states| && u < |states[k].pcs|
    requires states[k].pcs[u].Exited?
    ensures states[k].sh.doneMarker
  {
    InvHolds(chunkSize, nWorkers, states, moves, k);
  }

  lemma DoneIsQuiet(chunkSize: nat, nWorkers: nat, states: seq<System>, moves: seq<Move>, d: nat)
    requires IsRun(chunkSize, nWorkers, states, moves) && d < |states| && states[d].sh.doneMarker
    ensures Quiet(states[d])
  {
    InvHolds(chunkSize, nWorkers, states, moves, d);
  }

  lemma QuietStays(chunkSize: nat, nWorkers: nat, states: seq<System>, moves: seq<Move>, k: nat)
    requires IsRun(chunkSize, nWorkers, states, moves) && k < |moves| && Quiet(states[k]) && states[k].sh.doneMarker
    ensures Quiet(states[k + 1]) && states[k + 1].sh.doneMarker && states[k + 1].log == states[k].log
  {
    QuietIsStable(states[k], moves[k].worker, moves[k].choice, states[k + 1]);
  }

  /** Done is sound and stable: once the marker is set, at that moment and ever after every transaction is
      executed, nobody holds a task, and no step hands one out. */
  lemma {:induction false} DoneIsSoundAndStable(
      chunkSize: nat, nWorkers: nat, states: seq<System>, moves: seq<Move>, d: nat, k: nat)
    requires IsRun(chunkSize, nWorkers, states, moves) && d <= k < |states|
    requires states[d].sh.doneMarker
    ensures Quiet(states[k]) && states[k].sh.doneMarker && states[k].log == states[d].log
    decreases k
  {
    if d == k {
      DoneIsQuiet(chunkSize, nWorkers, states, moves, d);
    } else {
      DoneIsSoundAndStable(chunkSize, nWorkers, states, moves, d, k - 1);
      QuietStays(chunkSize, nWorkers, states, moves, k - 1);
    }
  }

  /** When the marker is set, every index `j` has a validation that was handed out at some position `p` of
      the history, that the same worker completed at `r` without aborting, and after whose hand-out no
      execution of any index up to `j` finished and no validation of `j` aborted. */
  lemma DoneMeansValidated(
      chunkSize: nat, nWorkers: nat, states: seq<System>, moves: seq<Move>, d: nat, j: nat)
    returns (p: nat, r: nat)
    requires IsRun(chunkSize, nWorkers, states, moves) && d < |states|
    requires states[d].sh.doneMarker && j < chunkSize
    ensures var log := states[d].log;
      && p < r < |log| && log[p].HandedOut? && log[p].index == j
      && log[r] == Completed(log[p].worker, j)
      && (forall q | p < q < r :: log[q].worker != log[p].worker)
      && (forall q | p < q < |log| :: !(log[q].Finished? && log[q].index <= j))
      && (forall q | p < q < |log| :: !(log[q].Aborted? && log[q].index == j))
  {
    InvHolds(chunkSize, nWorkers, states, moves, d);
    var s := states[d];
    assert Covered(s, j);
    assert forall u | 0 <= u < |s.pcs| :: !HoldsTask(s.pcs[u]) && !Pending(s.pcs[u], j);
    p :| FreshAt(s.log, j, p);
    assert Answered(s, p);
    var w := s.log[p].worker;
    r :| p < r < |s.log| && Ends(s.log[r], w, j) && NoEventOf(s.log, w, p, r);
    assert !Disturbs(s.log[r], j);
    forall q | p < q < |s.log|
      ensures !(s.log[q].Finished? && s.log[q].index <= j) && !(s.log[q].Aborted? && s.log[q].index == j)
    {
      assert !Disturbs(s.log[q], j);
    }
  }
}
