/** The scheduler as the object it is in the program, used by one worker that nobody interrupts.

    Every method says what it does to the shared words, and that the worker's atomic steps, one after the other,
    do the same. */
module SchedulerObject {
  import opened Cells
  import opened Steps = Scheduler

  // ----------------------------------------------------------------------------------------------
  // Steps of one worker

  /** `n` steps of worker `w` from `sh` and `pc` lead to `sh'` and `pc'`, with these events. */
  ghost predicate Walks(
      w: nat, choice: Choice, n: nat, sh: Shared, pc: Pc, sh': Shared, pc': Pc, events: seq<Event>)
  {
    if n == 0 then sh' == sh && pc' == pc && events == []
    else
      var o := Step(sh, pc, w, choice);
      && o.Moves?
      && match o.note {
           case Silent => Walks(w, choice, n - 1, o.sh, o.pc, sh', pc', events)
           case Logs(e) => events != [] && events[0] == e && Walks(w, choice, n - 1, o.sh, o.pc, sh', pc', events[1..])
         }
  }

  ghost predicate Leads(w: nat, choice: Choice, sh: Shared, pc: Pc, sh': Shared, pc': Pc, events: seq<Event>) {
    exists n: nat :: Walks(w, choice, n, sh, pc, sh', pc', events)
  }

  lemma {:induction false} WalksOn(
      w: nat, choice: Choice, n: nat, m: nat, sh: Shared, pc: Pc, sh1: Shared, pc1: Pc, e1: seq<Event>,
      sh2: Shared, pc2: Pc, e2: seq<Event>)
    requires Walks(w, choice, n, sh, pc, sh1, pc1, e1) && Walks(w, choice, m, sh1, pc1, sh2, pc2, e2)
    ensures Walks(w, choice, n + m, sh, pc, sh2, pc2, e1 + e2)
    decreases n
  {
    if n == 0 {
      assert e1 + e2 == e2;
    } else {
      var o := Step(sh, pc, w, choice);
      match o.note {
        case Silent => WalksOn(w, choice, n - 1, m, o.sh, o.pc, sh1, pc1, e1, sh2, pc2, e2);
        case Logs(e) =>
          WalksOn(w, choice, n - 1, m, o.sh, o.pc, sh1, pc1, e1[1..], sh2, pc2, e2);
          assert (e1 + e2)[1..] == e1[1..] + e2;
      }
    }
  }

  lemma LeadsOn(
      w: nat, choice: Choice, sh: Shared, pc: Pc, sh1: Shared, pc1: Pc, e1: seq<Event>,
      sh2: Shared, pc2: Pc, e2: seq<Event>)
    requires Leads(w, choice, sh, pc, sh1, pc1, e1) && Leads(w, choice, sh1, pc1, sh2, pc2, e2)
    ensures Leads(w, choice, sh, pc, sh2, pc2, e1 + e2)
  {
    var n: nat :| Walks(w, choice, n, sh, pc, sh1, pc1, e1);
    var m: nat :| Walks(w, choice, m, sh1, pc1, sh2, pc2, e2);
    WalksOn(w, choice, n, m, sh, pc, sh1, pc1, e1, sh2, pc2, e2);
  }

  /** A silent walk, then another. */
  lemma Continues(
      w: nat, choice: Choice, sh: Shared, pc: Pc, sh1: Shared, pc1: Pc, sh2: Shared, pc2: Pc, e: seq<Event>)
    requires Leads(w, choice, sh, pc, sh1, pc1, []) && Leads(w, choice, sh1, pc1, sh2, pc2, e)
    ensures Leads(w, choice, sh, pc, sh2, pc2, e)
  {
    LeadsOn(w, choice, sh, pc, sh1, pc1, [], sh2, pc2, e);
    assert [] + e == e;
  }

  /** One more silent step. */
  lemma Silently(w: nat, choice: Choice, sh: Shared, pc: Pc, sh1: Shared, pc1: Pc, e: seq<Event>, sh2: Shared, pc2: Pc)
    requires Leads(w, choice, sh, pc, sh1, pc1, e) && Step(sh1, pc1, w, choice) == Moves(sh2, pc2, Silent)
    ensures Leads(w, choice, sh, pc, sh2, pc2, e)
  {
    assert Walks(w, choice, 0, sh2, pc2, sh2, pc2, []);
    assert Walks(w, choice, 1, sh1, pc1, sh2, pc2, []);
    LeadsOn(w, choice, sh, pc, sh1, pc1, e, sh2, pc2, []);
    assert e + [] == e;
  }

  /** One more step that leaves an event. */
  lemma Logging(
      w: nat, choice: Choice, sh: Shared, pc: Pc, sh1: Shared, pc1: Pc, e: seq<Event>, sh2: Shared, pc2: Pc,
      event: Event)
    requires Leads(w, choice, sh, pc, sh1, pc1, e) && Step(sh1, pc1, w, choice) == Moves(sh2, pc2, Logs(event))
    ensures Leads(w, choice, sh, pc, sh2, pc2, e + [event])
  {
    assert [event][1..] == [];
    assert Walks(w, choice, 0, sh2, pc2, sh2, pc2, []);
    assert Walks(w, choice, 1, sh1, pc1, sh2, pc2, [event]);
    LeadsOn(w, choice, sh, pc, sh1, pc1, e, sh2, pc2, [event]);
  }

  lemma Stays(w: nat, choice: Choice, sh: Shared, pc: Pc)
    ensures Leads(w, choice, sh, pc, sh, pc, [])
  {
    assert Walks(w, choice, 0, sh, pc, sh, pc, []);
  }

  // ----------------------------------------------------------------------------------------------
  // The object

  datatype Task = ExecutionTask(tx: nat) | ValidationTask(tx: nat) | NoTask | Done

  /** Where a worker is after it got the task. */
  function Position(task: Task): Pc {
    match task
    case ExecutionTask(i) => InExecution(i, Running)
    case ValidationTask(i) => InValidation(i, Deciding)
    case NoTask => Idle
    case Done => Exited
  }

  class Scheduler {
    var executionIndex: nat
    var validationIndex: nat
    var decreaseCounter: nat
    var nActiveTasks: nat
    var statuses: seq<Status>
    var doneMarker: bool

    ghost function Words(): Shared
      reads this
    {
      Shared(executionIndex, validationIndex, decreaseCounter, nActiveTasks, statuses, doneMarker)
    }

    constructor (chunkSize: nat)
      ensures Init(System(Words(), [], []), chunkSize, 0)
      ensures executionIndex == 0 && validationIndex == chunkSize == |statuses|
      ensures decreaseCounter == 0 && nActiveTasks == 0 && !doneMarker
      ensures forall i | 0 <= i < |statuses| :: statuses[i] == ReadyToExecute
    {
      executionIndex, validationIndex, decreaseCounter, nActiveTasks := 0, chunkSize, 0, 0;
      statuses := seq(chunkSize, _ => ReadyToExecute);
      doneMarker := false;
    }

    /** `check_done`; nobody else counts a decrease meanwhile. */
    method CheckDone(ghost w: nat, ghost caller: Caller)
      modifies `doneMarker
      ensures doneMarker <==>
        old(doneMarker) || (validationIndex >= |statuses| && executionIndex >= |statuses| && nActiveTasks == 0)
      ensures Leads(w, Keep, old(Words()), Pc.CheckDone(caller, Counter), Words(), Return(caller), [])
    {
      ghost var sh, at := Words(), (d: DonePc) => Pc.CheckDone(caller, d);
      ghost var start, k := at(Counter), decreaseCounter;
      Stays(w, Keep, sh, start);
      var observed := decreaseCounter;
      Silently(w, Keep, sh, start, sh, at(Counter), [], sh, at(Validation(k)));
      Silently(w, Keep, sh, start, sh, at(Validation(k)), [], sh, at(Execution(k, validationIndex)));
      var minimum := Min(validationIndex, executionIndex);
      if minimum < |statuses| {
        Silently(w, Keep, sh, start, sh, at(Execution(k, validationIndex)), [], sh, Return(caller));
        return;
      }
      Silently(w, Keep, sh, start, sh, at(Execution(k, validationIndex)), [], sh, at(ActiveTasks(k)));
      if nActiveTasks != 0 {
        Silently(w, Keep, sh, start, sh, at(ActiveTasks(k)), [], sh, Return(caller));
        return;
      }
      Silently(w, Keep, sh, start, sh, at(ActiveTasks(k)), [], sh, at(Recheck(k)));
      if observed == decreaseCounter {
        Silently(w, Keep, sh, start, sh, at(Recheck(k)), [], sh, at(Store));
        doneMarker := true;
        Silently(w, Keep, sh, start, sh, at(Store), [], Words(), Return(caller));
      }
    }

    /** `next_version_to_validate`. */
    method NextVersionToValidate(ghost w: nat) returns (r: Option<nat>)
      modifies `validationIndex, `nActiveTasks, `doneMarker
      ensures r.Some? <==> old(validationIndex) < |statuses| && statuses[old(validationIndex)] == Executed
      ensures r.Some? ==> r.value == old(validationIndex)
      ensures validationIndex == old(validationIndex) + if old(validationIndex) < |statuses| then 1 else 0
      ensures nActiveTasks == old(nActiveTasks) + if r.Some? then 1 else 0
      ensures old(validationIndex) < |statuses| ==> doneMarker == old(doneMarker)
      ensures Leads(w, Keep, old(Words()), ToValidate(Check), Words(),
                    if r.Some? then InValidation(r.value, Deciding) else ToExecute(Check),
                    if r.Some? then [HandedOut(w, r.value)] else [])
    {
      ghost var sh, start := Words(), ToValidate(Check);
      Stays(w, Keep, sh, start);
      if validationIndex >= |statuses| {
        Silently(w, Keep, sh, start, sh, start, [], sh, Pc.CheckDone(FromValidate, Counter));
        CheckDone(w, FromValidate);
        Continues(w, Keep, sh, start, sh, Pc.CheckDone(FromValidate, Counter), Words(), ToExecute(Check), []);
        return None;
      }
      Silently(w, Keep, sh, start, sh, start, [], sh, ToValidate(Reserve));
      nActiveTasks := nActiveTasks + 1;
      ghost var reserved := Words();
      Silently(w, Keep, sh, start, sh, ToValidate(Reserve), [], reserved, ToValidate(Fetch));
      var i := validationIndex;
      validationIndex := validationIndex + 1;
      ghost var fetched := Words();
      Silently(w, Keep, sh, start, reserved, ToValidate(Fetch), [], fetched, ToValidate(Lock(i)));
      if statuses[i] == Executed {
        Logging(w, Keep, sh, start, fetched, ToValidate(Lock(i)), [],
                fetched, InValidation(i, Deciding), HandedOut(w, i));
        assert [] + [HandedOut(w, i)] == [HandedOut(w, i)];
        return Some(i);
      }
      Silently(w, Keep, sh, start, fetched, ToValidate(Lock(i)), [], fetched, ToValidate(Unreserve));
      nActiveTasks := nActiveTasks - 1;
      Silently(w, Keep, sh, start, fetched, ToValidate(Unreserve), [], Words(), ToExecute(Check));
      r := None;
    }

    /** `next_version_to_execute`, with the `try_incarnate` it calls. */
    method NextVersionToExecute(ghost w: nat) returns (r: Option<nat>)
      modifies `executionIndex, `nActiveTasks, `statuses, `doneMarker
      ensures r.Some? <==> old(executionIndex) < |old(statuses)| && old(statuses)[old(executionIndex)] == ReadyToExecute
      ensures r.Some? ==> r.value == old(executionIndex)
      ensures statuses == if r.Some? then old(statuses)[r.value := Executing] else old(statuses)
      ensures executionIndex == old(executionIndex) + if old(executionIndex) < |old(statuses)| then 1 else 0
      ensures nActiveTasks == old(nActiveTasks) + if r.Some? then 1 else 0
      ensures old(executionIndex) < |statuses| ==> doneMarker == old(doneMarker)
      ensures Leads(w, Keep, old(Words()), ToExecute(Check), Words(),
                    if r.Some? then InExecution(r.value, Running) else Idle, [])
    {
      ghost var sh, start := Words(), ToExecute(Check);
      Stays(w, Keep, sh, start);
      if executionIndex >= |statuses| {
        Silently(w, Keep, sh, start, sh, start, [], sh, Pc.CheckDone(FromExecute, Counter));
        CheckDone(w, FromExecute);
        Continues(w, Keep, sh, start, sh, Pc.CheckDone(FromExecute, Counter), Words(), Idle, []);
        return None;
      }
      Silently(w, Keep, sh, start, sh, start, [], sh, ToExecute(Reserve));
      nActiveTasks := nActiveTasks + 1;
      ghost var reserved := Words();
      Silently(w, Keep, sh, start, sh, ToExecute(Reserve), [], reserved, ToExecute(Fetch));
      var i := executionIndex;
      executionIndex := executionIndex + 1;
      ghost var fetched := Words();
      Silently(w, Keep, sh, start, reserved, ToExecute(Fetch), [], fetched, ToExecute(Lock(i)));
      if statuses[i] == ReadyToExecute {
        statuses := statuses[i := Executing];
        Silently(w, Keep, sh, start, fetched, ToExecute(Lock(i)), [], Words(), InExecution(i, Running));
        return Some(i);
      }
      Silently(w, Keep, sh, start, fetched, ToExecute(Lock(i)), [], fetched, ToExecute(Unreserve));
      nActiveTasks := nActiveTasks - 1;
      Silently(w, Keep, sh, start, fetched, ToExecute(Unreserve), [], Words(), Idle);
      r := None;
    }

    /** `next_task`. */
    method NextTask(ghost w: nat) returns (task: Task)
      modifies this
      ensures task.Done? <==> old(doneMarker)
      ensures task.ValidationTask? ==>
        && task.tx == old(validationIndex) < old(executionIndex) && task.tx < |old(statuses)|
        && old(statuses)[task.tx] == Executed && statuses == old(statuses)
      ensures task.ExecutionTask? ==>
        && task.tx == old(executionIndex) < |old(statuses)|
        && old(statuses)[task.tx] == ReadyToExecute && statuses == old(statuses)[task.tx := Executing]
      ensures !old(doneMarker) ==>
        var iv, ie, st := old(validationIndex), old(executionIndex), old(statuses);
        && (task.ValidationTask? <==> iv < ie && iv < |st| && st[iv] == Executed)
        && (task.ExecutionTask? <==> !task.ValidationTask? && ie < |st| && st[ie] == ReadyToExecute)
      ensures nActiveTasks == old(nActiveTasks) + if task.ValidationTask? || task.ExecutionTask? then 1 else 0
      ensures old(validationIndex) >= |old(statuses)| && old(executionIndex) >= |old(statuses)| ==>
        Words() == old(Words()) && (task.Done? || task.NoTask?)
      ensures Leads(w, Keep, old(Words()), Idle, Words(), Position(task),
                    if task.ValidationTask? then [HandedOut(w, task.tx)] else [])
    {
      ghost var sh, iv := Words(), validationIndex;
      Stays(w, Keep, sh, Idle);
      if doneMarker {
        Silently(w, Keep, sh, Idle, sh, Idle, [], sh, Exited);
        return Done;
      }
      Silently(w, Keep, sh, Idle, sh, Idle, [], sh, LoadValidation);
      var indexToValidate := validationIndex;
      Silently(w, Keep, sh, Idle, sh, LoadValidation, [], sh, LoadExecution(iv));
      var indexToExecute := executionIndex;
      if Min(indexToValidate, indexToExecute) >= |statuses| {
        Silently(w, Keep, sh, Idle, sh, LoadExecution(iv), [], sh, Idle);
        return NoTask;
      }
      if indexToValidate < indexToExecute {
        Silently(w, Keep, sh, Idle, sh, LoadExecution(iv), [], sh, ToValidate(Check));
        var toValidate := NextVersionToValidate(w);
        if toValidate.Some? {
          Continues(w, Keep, sh, Idle, sh, ToValidate(Check), Words(), InValidation(toValidate.value, Deciding),
                    [HandedOut(w, toValidate.value)]);
          return ValidationTask(toValidate.value);
        }
        Continues(w, Keep, sh, Idle, sh, ToValidate(Check), Words(), ToExecute(Check), []);
      } else {
        Silently(w, Keep, sh, Idle, sh, LoadExecution(iv), [], sh, ToExecute(Check));
      }
      ghost var middle := Words();
      var toExecute := NextVersionToExecute(w);
      task := if toExecute.Some? then ExecutionTask(toExecute.value) else NoTask;
      Continues(w, Keep, sh, Idle, middle, ToExecute(Check), Words(), Position(task), []);
    }

    /** `finish_execution`. */
    method FinishExecution(ghost w: nat, i: nat)
      requires i < |statuses| && statuses[i] == Executing && nActiveTasks > 0
      modifies this
      ensures statuses == old(statuses)[i := Executed] && nActiveTasks == old(nActiveTasks) - 1
      ensures validationIndex == (if old(validationIndex) > i then i else old(validationIndex))
      ensures decreaseCounter == old(decreaseCounter) + if old(validationIndex) > i then 1 else 0
      ensures executionIndex == old(executionIndex) && doneMarker == old(doneMarker)
      ensures Leads(w, Keep, old(Words()), InExecution(i, Running), Words(), Idle, [Finished(w, i)])
    {
      ghost var sh, start, log := Words(), InExecution(i, Running), [Finished(w, i)];
      Stays(w, Keep, sh, start);
      statuses := statuses[i := Executed];
      ghost var executed := Words();
      Logging(w, Keep, sh, start, sh, start, [], executed, InExecution(i, LoadIndex), Finished(w, i));
      assert [] + [Finished(w, i)] == log;
      if validationIndex > i {
        Silently(w, Keep, sh, start, executed, InExecution(i, LoadIndex), log, executed, InExecution(i, LowerIndex));
        validationIndex := i;
        ghost var lowered := Words();
        Silently(w, Keep, sh, start, executed, InExecution(i, LowerIndex), log, lowered, InExecution(i, CountDecrease));
        decreaseCounter := decreaseCounter + 1;
        Silently(w, Keep, sh, start, lowered, InExecution(i, CountDecrease), log, Words(), InExecution(i, Release));
      } else {
        Silently(w, Keep, sh, start, executed, InExecution(i, LoadIndex), log, executed, InExecution(i, Release));
      }
      ghost var before := Words();
      nActiveTasks := nActiveTasks - 1;
      Silently(w, Keep, sh, start, before, InExecution(i, Release), log, Words(), Idle);
    }

    /** `try_validation_abort` by a worker that wants to abort. */
    method TryValidationAbort(ghost w: nat, i: nat) returns (aborted: bool)
      requires i < |statuses|
      modifies `statuses
      ensures aborted <==> old(statuses)[i] == Executed
      ensures statuses == if aborted then old(statuses)[i := Aborting] else old(statuses)
      ensures Leads(w, TryAbort, old(Words()), InValidation(i, Deciding), Words(),
                    InValidation(i, if aborted then SetReady else Leave),
                    [if aborted then Aborted(w, i) else Completed(w, i)])
    {
      ghost var sh, start := Words(), InValidation(i, Deciding);
      Stays(w, TryAbort, sh, start);
      aborted := statuses[i] == Executed;
      if aborted {
        statuses := statuses[i := Aborting];
        Logging(w, TryAbort, sh, start, sh, start, [], Words(), InValidation(i, SetReady), Aborted(w, i));
        assert [] + [Aborted(w, i)] == [Aborted(w, i)];
      } else {
        Logging(w, TryAbort, sh, start, sh, start, [], sh, InValidation(i, Leave), Completed(w, i));
        assert [] + [Completed(w, i)] == [Completed(w, i)];
      }
    }

    /** `finish_validation`. */
    method FinishValidation(ghost w: nat, i: nat, aborted: bool) returns (task: Task)
      requires nActiveTasks > 0 && i < |statuses| && (aborted ==> statuses[i] == Aborting)
      modifies `statuses, `nActiveTasks
      ensures task == if aborted && executionIndex > i then ExecutionTask(i) else NoTask
      ensures statuses ==
        if !aborted then old(statuses) else old(statuses)[i := if executionIndex > i then Executing else ReadyToExecute]
      ensures nActiveTasks == old(nActiveTasks) - if task.ExecutionTask? then 0 else 1
      ensures Leads(w, Keep, old(Words()), InValidation(i, if aborted then SetReady else Leave),
                    Words(), Position(task), [])
    {
      ghost var sh, start := Words(), InValidation(i, if aborted then SetReady else Leave);
      Stays(w, Keep, sh, start);
      if aborted {
        statuses := statuses[i := ReadyToExecute];
        ghost var ready := Words();
        Silently(w, Keep, sh, start, sh, start, [], ready, InValidation(i, CheckIndex));
        if executionIndex > i {
          Silently(w, Keep, sh, start, ready, InValidation(i, CheckIndex), [], ready, InValidation(i, Incarnate));
          statuses := statuses[i := Executing];
          Silently(w, Keep, sh, start, ready, InValidation(i, Incarnate), [], Words(), InExecution(i, Running));
          return ExecutionTask(i);
        }
        Silently(w, Keep, sh, start, ready, InValidation(i, CheckIndex), [], ready, InValidation(i, Leave));
      }
      ghost var before := Words();
      nActiveTasks := nActiveTasks - 1;
      Silently(w, Keep, sh, start, before, InValidation(i, Leave), [], Words(), Idle);
      task := NoTask;
    }
  }

  // ----------------------------------------------------------------------------------------------
  // What a worker does when others were faster

  /** The last index was taken between the check and the `fetch_add`: the reservation is given back, and the
      worker goes on to look for something to execute. */
  lemma OvertakenValidation(w: nat, sh: Shared)
    requires sh.validationIndex >= |sh.statuses| && sh.nActiveTasks > 0
    ensures Leads(w, Keep, sh, ToValidate(Fetch),
                  sh.(validationIndex := sh.validationIndex + 1, nActiveTasks := sh.nActiveTasks - 1),
                  ToExecute(Check), [])
  {
    var fetched := sh.(validationIndex := sh.validationIndex + 1);
    Stays(w, Keep, sh, ToValidate(Fetch));
    Silently(w, Keep, sh, ToValidate(Fetch), sh, ToValidate(Fetch), [], fetched, ToValidate(Unreserve));
    Silently(w, Keep, sh, ToValidate(Fetch), fetched, ToValidate(Unreserve), [],
             fetched.(nActiveTasks := sh.nActiveTasks - 1), ToExecute(Check));
  }

  /** The same for an execution; the worker is idle again. */
  lemma OvertakenExecution(w: nat, sh: Shared)
    requires sh.executionIndex >= |sh.statuses| && sh.nActiveTasks > 0
    ensures Leads(w, Keep, sh, ToExecute(Fetch),
                  sh.(executionIndex := sh.executionIndex + 1, nActiveTasks := sh.nActiveTasks - 1), Idle, [])
  {
    var fetched := sh.(executionIndex := sh.executionIndex + 1);
    Stays(w, Keep, sh, ToExecute(Fetch));
    Silently(w, Keep, sh, ToExecute(Fetch), sh, ToExecute(Fetch), [], fetched, ToExecute(Unreserve));
    Silently(w, Keep, sh, ToExecute(Fetch), fetched, ToExecute(Unreserve), [],
             fetched.(nActiveTasks := sh.nActiveTasks - 1), Idle);
  }

  /** A decrease was counted during the check: the marker is not set. */
  lemma DecreaseSpoilsCheck(w: nat, sh: Shared, caller: Caller, observed: nat)
    requires sh.decreaseCounter != observed
    ensures Leads(w, Keep, sh, CheckDone(caller, Recheck(observed)), sh,
                  if caller == FromValidate then ToExecute(Check) else Idle, [])
  {
    var start := CheckDone(caller, Recheck(observed));
    Stays(w, Keep, sh, start);
    Silently(w, Keep, sh, start, sh, start, [], sh, if caller == FromValidate then ToExecute(Check) else Idle);
  }

  /** Somebody else lowered the validation index as far: it is not counted again. */
  lemma AlreadyLowered(w: nat, sh: Shared, i: nat)
    requires sh.validationIndex <= i && sh.nActiveTasks > 0
    ensures Leads(w, Keep, sh, InExecution(i, LowerIndex), sh.(nActiveTasks := sh.nActiveTasks - 1), Idle, [])
  {
    var start := InExecution(i, LowerIndex);
    Stays(w, Keep, sh, start);
    Silently(w, Keep, sh, start, sh, start, [], sh, InExecution(i, Release));
    Silently(w, Keep, sh, start, sh, InExecution(i, Release), [], sh.(nActiveTasks := sh.nActiveTasks - 1), Idle);
  }

  /** If an aborted transaction could be taken by somebody else, its task would be released twice. */
  lemma FailedIncarnationReleasesTwice(w: nat, sh: Shared, i: nat)
    requires i < |sh.statuses| && sh.statuses[i] != ReadyToExecute && sh.nActiveTasks > 1
    ensures Leads(w, Keep, sh, InValidation(i, Incarnate), sh.(nActiveTasks := sh.nActiveTasks - 2), Idle, [])
  {
    var start, released := InValidation(i, Incarnate), sh.(nActiveTasks := sh.nActiveTasks - 1);
    Stays(w, Keep, sh, start);
    Silently(w, Keep, sh, start, sh, start, [], sh, InValidation(i, FailedIncarnate));
    Silently(w, Keep, sh, start, sh, InValidation(i, FailedIncarnate), [], released, InValidation(i, Leave));
    Silently(w, Keep, sh, start, released, InValidation(i, Leave), [], sh.(nActiveTasks := sh.nActiveTasks - 2), Idle);
  }

  /** A worker that keeps its validation, or cannot abort it, releases the task; the status stays. */
  lemma KeptValidation(w: nat, sh: Shared, i: nat)
    requires i < |sh.statuses| && sh.nActiveTasks > 0
    ensures Leads(w, Keep, sh, InValidation(i, Deciding),
                  sh.(nActiveTasks := sh.nActiveTasks - 1), Idle, [Completed(w, i)])
  {
    var start, log := InValidation(i, Deciding), [Completed(w, i)];
    Stays(w, Keep, sh, start);
    Logging(w, Keep, sh, start, sh, start, [], sh, InValidation(i, Leave), Completed(w, i));
    assert [] + [Completed(w, i)] == log;
    Silently(w, Keep, sh, start, sh, InValidation(i, Leave), log, sh.(nActiveTasks := sh.nActiveTasks - 1), Idle);
  }

  /** Assertions: each of them panics exactly when it does not hold. */
  lemma Assertions(w: nat, sh: Shared, i: nat)
    ensures Step(sh, InExecution(i, Running), w, Keep).Panics? <==> !(i < |sh.statuses| && sh.statuses[i] == Executing)
    ensures Step(sh, InValidation(i, SetReady), w, Keep).Panics? <==> !(i < |sh.statuses| && sh.statuses[i] == Aborting)
    ensures Step(sh, InExecution(i, Release), w, Keep).Panics? <==> sh.nActiveTasks == 0
    ensures Step(sh, InValidation(i, Leave), w, Keep).Panics? <==> sh.nActiveTasks == 0
    ensures Step(sh, InValidation(i, FailedIncarnate), w, Keep).Panics? <==> sh.nActiveTasks == 0
    ensures Step(sh, ToValidate(Unreserve), w, Keep).Panics? <==> sh.nActiveTasks == 0
    ensures Step(sh, ToExecute(Unreserve), w, Keep).Panics? <==> sh.nActiveTasks == 0
  {
  }
}
