/** Why `check_done` reads the decrease counter twice: a run of two workers over one transaction. */
module SchedulerRecheck {
  import opened Scheduler
  import opened SchedulerSafety
  import opened Runs

  ghost function Starts(chunkSize: nat, nWorkers: nat): System -> bool { s => Init(s, chunkSize, nWorkers) }

  ghost function Next(): (System, Move, System) -> bool {
    (s: System, m: Move, s': System) => m.worker < |s.pcs| && StepsTo(s, m.worker, m.choice, s')
  }

  /** Two workers at `a` and `b` over a single transaction. */
  function Two(ie: nat, iv: nat, counter: nat, active: nat, status: Status, a: Pc, b: Pc, log: seq<Event>): System {
    System(Shared(ie, iv, counter, active, [status], false), [a, b], log)
  }

  lemma First(p: System -> bool, s: System, s': System)
    requires Preserved(Next(), p) && p(s) && |s.pcs| == |s'.pcs| == 2 && s'.pcs[1] == s.pcs[1]
    requires var o := Step(s.sh, s.pcs[0], 0, Keep);
      o.Moves? && o.sh == s'.sh && o.pc == s'.pcs[0] && s'.log == Append(s.log, o.note)
    ensures p(s')
  {
    assert s'.pcs == s.pcs[0 := s'.pcs[0]];
    assert Next()(s, Move(0, Keep), s');
  }

  lemma Second(p: System -> bool, s: System, s': System)
    requires Preserved(Next(), p) && p(s) && |s.pcs| == |s'.pcs| == 2 && s'.pcs[0] == s.pcs[0]
    requires var o := Step(s.sh, s.pcs[1], 1, Keep);
      o.Moves? && o.sh == s'.sh && o.pc == s'.pcs[1] && s'.log == Append(s.log, o.note)
    ensures p(s')
  {
    assert s'.pcs == s.pcs[1 := s'.pcs[1]];
    assert Next()(s, Move(1, Keep), s');
  }

  /** The first worker is about to take the transaction when the second one sees that there is work. */
  lemma BothSeeWork(p: System -> bool)
    requires Preserved(Next(), p) && p(Two(0, 1, 0, 0, ReadyToExecute, Idle, Idle, []))
    ensures p(Two(0, 1, 0, 1, ReadyToExecute, ToExecute(Fetch), ToExecute(Check), []))
  {
    var s0 := Two(0, 1, 0, 0, ReadyToExecute, Idle, Idle, []);
    var s1 := s0.(pcs := [LoadValidation, Idle]);
    var s2 := s0.(pcs := [LoadExecution(1), Idle]);
    var s3 := s0.(pcs := [ToExecute(Check), Idle]);
    var s4 := s0.(pcs := [ToExecute(Reserve), Idle]);
    var s5 := Two(0, 1, 0, 1, ReadyToExecute, ToExecute(Fetch), Idle, []);
    var s6 := s5.(pcs := [ToExecute(Fetch), LoadValidation]);
    var s7 := s5.(pcs := [ToExecute(Fetch), LoadExecution(1)]);
    var s8 := s5.(pcs := [ToExecute(Fetch), ToExecute(Check)]);
    First(p, s0, s1);
    First(p, s1, s2);
    First(p, s2, s3);
    First(p, s3, s4);
    First(p, s4, s5);
    Second(p, s5, s6);
    Second(p, s6, s7);
    Second(p, s7, s8);
  }

  /** The first worker executes the transaction and is about to lower the validation index. */
  lemma FirstExecutes(p: System -> bool)
    requires Preserved(Next(), p) && p(Two(0, 1, 0, 1, ReadyToExecute, ToExecute(Fetch), ToExecute(Check), []))
    ensures p(Two(1, 1, 0, 1, Executed, InExecution(0, LowerIndex), ToExecute(Check), [Finished(0, 0)]))
  {
    var b := ToExecute(Check);
    var s0 := Two(0, 1, 0, 1, ReadyToExecute, ToExecute(Fetch), b, []);
    var s1 := Two(1, 1, 0, 1, ReadyToExecute, ToExecute(Lock(0)), b, []);
    var s2 := Two(1, 1, 0, 1, Executing, InExecution(0, Running), b, []);
    var s3 := Two(1, 1, 0, 1, Executed, InExecution(0, LoadIndex), b, [Finished(0, 0)]);
    var s4 := Two(1, 1, 0, 1, Executed, InExecution(0, LowerIndex), b, [Finished(0, 0)]);
    First(p, s0, s1);
    First(p, s1, s2);
    First(p, s2, s3);
    First(p, s3, s4);
  }

  /** The second worker sees both indices exhausted, and no active task once the first one is through. */
  lemma SecondIsFooled(p: System -> bool)
    requires Preserved(Next(), p)
    requires p(Two(1, 1, 0, 1, Executed, InExecution(0, LowerIndex), ToExecute(Check), [Finished(0, 0)]))
    ensures p(Two(1, 0, 1, 0, Executed, Idle, CheckDone(FromExecute, Recheck(0)), [Finished(0, 0)]))
  {
    var a, b, log := InExecution(0, LowerIndex), CheckDone(FromExecute, ActiveTasks(0)), [Finished(0, 0)];
    var s0 := Two(1, 1, 0, 1, Executed, a, ToExecute(Check), log);
    var s1 := s0.(pcs := [a, CheckDone(FromExecute, Counter)]);
    var s2 := s0.(pcs := [a, CheckDone(FromExecute, Validation(0))]);
    var s3 := s0.(pcs := [a, CheckDone(FromExecute, Execution(0, 1))]);
    var s4 := s0.(pcs := [a, b]);
    var s5 := Two(1, 0, 0, 1, Executed, InExecution(0, CountDecrease), b, log);
    var s6 := Two(1, 0, 1, 1, Executed, InExecution(0, Release), b, log);
    var s7 := Two(1, 0, 1, 0, Executed, Idle, b, log);
    var s8 := Two(1, 0, 1, 0, Executed, Idle, CheckDone(FromExecute, Recheck(0)), log);
    Second(p, s0, s1);
    Second(p, s1, s2);
    Second(p, s2, s3);
    Second(p, s3, s4);
    First(p, s4, s5);
    First(p, s5, s6);
    First(p, s6, s7);
    Second(p, s7, s8);
  }

  /** There is a run in which `check_done` passes all its other tests while the transaction is still to be
      validated for the first time: only the second read of the decrease counter keeps the marker unset. */
  lemma RecheckIsNeeded() returns (states: seq<System>, moves: seq<Move>, s: System)
    ensures IsRun(1, 2, states, moves) && s == states[|moves|]
    ensures |s.pcs| == 2 && s.pcs[1] == CheckDone(FromExecute, Recheck(0))
    ensures !Quiet(s) && s.sh.validationIndex == 0 && s.sh.decreaseCounter != 0
    ensures forall e | e in s.log :: !e.HandedOut?
  {
    var p := ReachableStates(Starts(1, 2), Next());
    ReachableIsPreserved(Starts(1, 2), Next());
    StartIsReachable(Starts(1, 2), Next(), Two(0, 1, 0, 0, ReadyToExecute, Idle, Idle, []));
    BothSeeWork(p);
    FirstExecutes(p);
    SecondIsFooled(p);
    s := Two(1, 0, 1, 0, Executed, Idle, CheckDone(FromExecute, Recheck(0)), [Finished(0, 0)]);
    states, moves :| IsRunOf(Starts(1, 2), Next(), states, moves) && states[|moves|] == s;
    forall k | 0 <= k < |moves|
      ensures moves[k].worker < |states[k].pcs| && StepsTo(states[k], moves[k].worker, moves[k].choice, states[k + 1])
    {
      assert Next()(states[k], moves[k], states[k + 1]);
    }
  }
}
