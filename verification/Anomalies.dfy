/** Two runs of two workers that set the done marker although the chunk is not serialized: the two things that
    validation does not see do happen. */
module Anomalies {
  import opened Cells
  import opened VersionedStorage
  import opened VersionedState
  import opened Serializability
  import opened Scheduler
  import opened ParallelExecution
  import opened ChunkRuns
  import R = Runs
  import S = ParallelSafety

  /** Two workers over two transactions. */
  function Two(
      sh: Shared, a: Pc, la: Local, b: Pc, lb: Local, store: Store, outputs: seq<Option<Output>>, log: seq<Event>)
    : Chunk
  {
    Chunk(System(sh, [a, b], log), store, outputs, [la, lb])
  }

  function Words(ie: nat, iv: nat, counter: nat, active: nat, s0: Status, s1: Status): Shared {
    Shared(ie, iv, counter, active, [s0, s1], false)
  }

  const EMPTY: Store := Versions(map[], map[])

  function Start(): Chunk {
    Two(Words(0, 2, 0, 0, ReadyToExecute, ReadyToExecute), Idle, Nothing, Idle, Nothing, EMPTY, [None, None], [])
  }

  // ----------------------------------------------------------------------------------------------
  // What both runs have in common

  /** Each worker takes a transaction. */
  lemma BothTake(job: Job, q: Chunk -> bool)
    requires Preserved(job, q)
    requires q(Start())
    ensures q(Two(Words(2, 2, 0, 2, Executing, Executing), InExecution(0, Running), Reading([]),
                  InExecution(1, Running), Reading([]), EMPTY, [None, None], []))
  {
    var c0 := Start();
    var c1 := Two(Words(1, 2, 0, 1, Executing, ReadyToExecute), InExecution(0, Running), Reading([]), Idle, Nothing,
                  EMPTY, [None, None], []);
    TakesExecution(job, q, c0, 0);
    assert Taken(c0, 0) == c1;
    TakesExecution(job, q, c1, 1);
    assert Taken(c1, 1) == Two(Words(2, 2, 0, 2, Executing, Executing), InExecution(0, Running), Reading([]),
                               InExecution(1, Running), Reading([]), EMPTY, [None, None], []);
  }

  /** The second worker, done with transaction 1, finishes first; then the first one with transaction 0. */
  lemma SecondFinishes(job: Job, q: Chunk -> bool, store: Store, outputs: seq<Option<Output>>)
    requires Preserved(job, q)
    requires q(Two(Words(2, 2, 0, 2, Executing, Executing), InExecution(0, Running), Reading([]),
                   InExecution(1, Running), Recorded, store, outputs, []))
    ensures q(Two(Words(2, 1, 1, 1, Executing, Executed), InExecution(0, Running), Reading([]), Idle, Nothing,
                  store, outputs, [Event.Finished(1, 1)]))
  {
    var c := Two(Words(2, 2, 0, 2, Executing, Executing), InExecution(0, Running), Reading([]),
                 InExecution(1, Running), Recorded, store, outputs, []);
    FinishesExecution(job, q, c, 1, 1);
    assert ChunkRuns.Finished(c, 1) ==
           Two(Words(2, 1, 1, 1, Executing, Executed), InExecution(0, Running), Reading([]), Idle, Nothing,
               store, outputs, [Event.Finished(1, 1)]);
  }

  lemma FirstFinishes(job: Job, q: Chunk -> bool, store: Store, outputs: seq<Option<Output>>, log: seq<Event>)
    requires Preserved(job, q)
    requires q(Two(Words(2, 1, 1, 1, Executing, Executed), InExecution(0, Running), Recorded, Idle, Nothing,
                   store, outputs, log))
    ensures q(Two(Words(2, 0, 2, 0, Executed, Executed), Idle, Nothing, Idle, Nothing,
                  store, outputs, log + [Event.Finished(0, 0)]))
  {
    var c := Two(Words(2, 1, 1, 1, Executing, Executed), InExecution(0, Running), Recorded, Idle, Nothing,
                 store, outputs, log);
    FinishesExecution(job, q, c, 0, 0);
    assert ChunkRuns.Finished(c, 0) ==
           Two(Words(2, 0, 2, 0, Executed, Executed), Idle, Nothing, Idle, Nothing,
               store, outputs, log + [Event.Finished(0, 0)]);
  }

  /** The second worker sees that there is something to validate and stops there; the first one validates
      transaction 0 and is handed out transaction 1. */
  lemma FirstValidates(job: Job, q: Chunk -> bool, store: Store, outputs: seq<Option<Output>>, log: seq<Event>)
    returns (log': seq<Event>)
    requires Preserved(job, q) && |outputs| == 2 && outputs[0].Some?
    requires q(Two(Words(2, 0, 2, 0, Executed, Executed), Idle, Nothing, Idle, Nothing, store, outputs, log))
    ensures q(Two(Words(2, 2, 2, 1, Executed, Executed), InValidation(1, Deciding), Nothing, ToValidate(Check), Nothing,
                  store, outputs, log'))
  {
    var b := ToValidate(Check);
    var c0 := Two(Words(2, 0, 2, 0, Executed, Executed), Idle, Nothing, Idle, Nothing, store, outputs, log);
    var c1 := Two(Words(2, 0, 2, 0, Executed, Executed), Idle, Nothing, b, Nothing, store, outputs, log);
    Parks(job, q, c0, 1);
    assert Parked(c0, 1) == c1;
    var log2 := log + [HandedOut(0, 0)];
    var c2 := Two(Words(2, 1, 2, 1, Executed, Executed), InValidation(0, Deciding), Nothing, b, Nothing,
                  store, outputs, log2);
    TakesValidation(job, q, c1, 0);
    assert HandedOutTo(c1, 0) == c2;
    var log3 := log2 + [Event.Completed(0, 0)];
    var c3 := Two(Words(2, 1, 2, 0, Executed, Executed), Idle, Nothing, b, Nothing, store, outputs, log3);
    PassesValidation(job, q, c2, 0, 0);
    assert ChunkRuns.Completed(c2, 0, 0) == c3;
    log' := log3 + [HandedOut(0, 1)];
    TakesValidation(job, q, c3, 0);
    assert HandedOutTo(c3, 0) ==
           Two(Words(2, 2, 2, 1, Executed, Executed), InValidation(1, Deciding), Nothing, b, Nothing,
               store, outputs, log');
  }

  /** Transaction 1 passes validation and the second worker sets the done marker. */
  lemma LastValidation(
      job: Job, q: Chunk -> bool, counter: nat, store: Store, outputs: seq<Option<Output>>, log: seq<Event>)
    returns (c: Chunk)
    requires Preserved(job, q) && |outputs| == 2 && outputs[1].Some?
    requires Agrees(store, 1, ReadSet(outputs[1].value.trace))
    requires q(Two(Words(2, 2, counter, 1, Executed, Executed), InValidation(1, Deciding), Nothing,
                   ToValidate(Check), Nothing, store, outputs, log))
    ensures q(c) && c.sys.sh.doneMarker && c.store == store && c.outputs == outputs
  {
    var c0 := Two(Words(2, 2, counter, 1, Executed, Executed), InValidation(1, Deciding), Nothing,
                  ToValidate(Check), Nothing, store, outputs, log);
    var c1 := Two(Words(2, 2, counter, 0, Executed, Executed), Idle, Nothing, ToValidate(Check), Nothing,
                  store, outputs, log + [Event.Completed(0, 1)]);
    PassesValidation(job, q, c0, 0, 1);
    assert ChunkRuns.Completed(c0, 0, 1) == c1;
    SetsDone(job, q, c1, 1);
    c := Marked(c1, 1);
  }

  ghost function Reached(job: Job): Chunk -> bool { R.ReachableStates(Starts(job, 2), Next(job)) }

  lemma StartIsReached(job: Job)
    requires |job.progs| == 2
    ensures Preserved(job, Reached(job)) && Reached(job)(Start())
  {
    R.ReachableIsPreserved(Starts(job, 2), Next(job));
    assert InitialChunk(job, 2, Start());
    R.StartIsReachable(Starts(job, 2), Next(job), Start());
  }

  const X := Storage(0, 0)
  const K := Storage(0, 1)

  /** Transaction 0 writes `X`. */
  function WriteX(t: Trace): Action { Halt(true, map[X := 1]) }

  // ----------------------------------------------------------------------------------------------
  // A failed read is not validated

  /** Transaction 1 needs `X`, and fails without it. */
  function NeedX(t: Trace): Action {
    if t == [] then Ask(X) else if t[0].answer.None? then Halt(false, map[]) else Halt(true, map[K := 7])
  }

  function WithoutX(c: Cell): Option<Felt> { if c == X then None else Some(0) }

  const MISSED: Output := Output([Read(X, None)], map[])

  lemma ExecutesWithoutX(job: Job, q: Chunk -> bool)
    requires Preserved(job, q) && job == Job([WriteX, NeedX], WithoutX)
    requires q(Two(Words(2, 2, 0, 2, Executing, Executing), InExecution(0, Running), Reading([]),
                   InExecution(1, Running), Reading([]), EMPTY, [None, None], []))
    ensures q(Two(Words(2, 2, 0, 2, Executing, Executing), InExecution(0, Running), Reading([]),
                  InExecution(1, Running), Recorded, EMPTY, [None, Some(MISSED)], []))
  {
    var sh, a := Words(2, 2, 0, 2, Executing, Executing), InExecution(0, Running);
    var c0 := Two(sh, a, Reading([]), InExecution(1, Running), Reading([]), EMPTY, [None, None], []);
    var c1 := Two(sh, a, Reading([]), InExecution(1, Running), Reading([Read(X, None)]), EMPTY, [None, None], []);
    var c2 := Two(sh, a, Reading([]), InExecution(1, Running), Recorded, EMPTY, [None, Some(MISSED)], []);
    Asks(job, q, c0, 1, 1, [], X, [Read(X, None)], c1);
    Ends(job, q, c1, 1, 1, [Read(X, None)]);
    assert Ended(job, c1, 1, 1, [Read(X, None)]) == c2;
  }

  lemma WritesX(job: Job, q: Chunk -> bool, store: Store, out: Option<Output>, log: seq<Event>)
    requires Preserved(job, q) && |job.progs| == 2 && job.progs[0] == WriteX
    requires q(Two(Words(2, 1, 1, 1, Executing, Executed), InExecution(0, Running), Reading([]), Idle, Nothing,
                   store, [None, out], log))
    ensures q(Two(Words(2, 1, 1, 1, Executing, Executed), InExecution(0, Running), Recorded, Idle, Nothing,
                  WriteAll(store, 0, map[X := 1]), [Some(Output([], map[X := 1])), out], log))
  {
    var sh := Words(2, 1, 1, 1, Executing, Executed);
    var c := Two(sh, InExecution(0, Running), Reading([]), Idle, Nothing, store, [None, out], log);
    Ends(job, q, c, 0, 0, []);
    assert Ended(job, c, 0, 0, []) ==
           Two(sh, InExecution(0, Running), Recorded, Idle, Nothing, WriteAll(store, 0, map[X := 1]),
               [Some(Output([], map[X := 1])), out], log);
  }

  lemma MissedRun(job: Job, q: Chunk -> bool) returns (c: Chunk)
    requires Preserved(job, q) && job == Job([WriteX, NeedX], WithoutX)
    requires q(Start())
    ensures q(c) && c.sys.sh.doneMarker && c.store == WriteAll(EMPTY, 0, map[X := 1])
    ensures c.outputs == [Some(Output([], map[X := 1])), Some(MISSED)]
  {
    BothTake(job, q);
    ExecutesWithoutX(job, q);
    SecondFinishes(job, q, EMPTY, [None, Some(MISSED)]);
    WritesX(job, q, EMPTY, Some(MISSED), [Event.Finished(1, 1)]);
    var store, outputs := WriteAll(EMPTY, 0, map[X := 1]), [Some(Output([], map[X := 1])), Some(MISSED)];
    FirstFinishes(job, q, store, outputs, [Event.Finished(1, 1)]);
    var log := FirstValidates(job, q, store, outputs, [Event.Finished(1, 1)] + [Event.Finished(0, 0)]);
    assert ReadSet(MISSED.trace) == map[] by { assert MISSED.trace[..0] == []; }
    c := LastValidation(job, q, 2, store, outputs, log);
  }

  /** There is a run of two workers that sets the done marker without any leftover, and yet is not sequential:
      transaction 1 failed for want of a cell that transaction 0 wrote before it. */
  lemma FailedReadBreaksSerializability() returns (job: Job, states: seq<Chunk>, workers: seq<nat>, c: Chunk)
    ensures IsChunkRun(job, 2, states, workers) && c == states[|workers|] && c.sys.sh.doneMarker
    ensures |c.outputs| == 2 && c.outputs[0].Some? && c.outputs[1].Some?
    ensures var outs := S.Unwrap(c.outputs);
      && (forall j | 0 <= j < 2 :: NoHarmfulLeftover(c.store, job.initial, outs[j], j))
      && !NoMissedRead(c.store, job.initial, outs[1], 1)
      && !IsSequential(job.progs, job.initial, outs)
  {
    job := Job([WriteX, NeedX], WithoutX);
    StartIsReached(job);
    c := MissedRun(job, Reached(job));
    states, workers := RunToReachable(job, 2, c);
    MissedIsNotSequential(job, c.store, S.Unwrap(c.outputs));
  }

  lemma MissedIsNotSequential(job: Job, store: Store, outs: seq<Output>)
    requires job == Job([WriteX, NeedX], WithoutX) && store == WriteAll(EMPTY, 0, map[X := 1])
    requires outs == [Output([], map[X := 1]), MISSED]
    ensures forall j | 0 <= j < 2 :: NoHarmfulLeftover(store, job.initial, outs[j], j)
    ensures !NoMissedRead(store, job.initial, outs[1], 1) && !IsSequential(job.progs, job.initial, outs)
  {
    forall c ensures store.CellOf(c) == if c == X then map[0 := 1] else map[] {
      WriteAllCells(EMPTY, 0, map[X := 1], c);
    }
    assert MISSED.trace[0] == Read(X, None);
    assert Below(store, WithoutX, 1, X) == Some(1);
    assert SeqValue(WithoutX, outs, 1, X) == Some(1);
  }

  // ----------------------------------------------------------------------------------------------
  // A write of an earlier execution is not removed

  /** Transaction 1 writes `K` only if it reads 0. */
  function WriteKIfZero(t: Trace): Action {
    if t == [] then Ask(X) else if t[0].answer == Some(0) then Halt(true, map[K := 7]) else Halt(true, map[])
  }

  function AllZero(c: Cell): Option<Felt> { Some(0) }

  const ABANDONED: Output := Output([Read(X, Some(0))], map[K := 7])
  const KEPT: Output := Output([Read(X, Some(1))], map[])

  function StoreOne(): Store { WriteAll(EMPTY.SetInitial(X, 0), 1, map[K := 7]) }
  function StoreTwo(): Store { WriteAll(StoreOne(), 0, map[X := 1]) }
  function StoreThree(): Store { WriteAll(StoreTwo(), 1, map[]) }

  lemma StoreCells(c: Cell)
    ensures StoreTwo().CellOf(c) == if c == X then map[0 := 1] else if c == K then map[1 := 7] else map[]
    ensures StoreThree().CellOf(c) == StoreTwo().CellOf(c)
    ensures StoreTwo().initial == StoreThree().initial == map[X := 0]
  {
    WriteAllCells(EMPTY.SetInitial(X, 0), 1, map[K := 7], c);
    WriteAllCells(StoreOne(), 0, map[X := 1], c);
    WriteAllCells(StoreTwo(), 1, map[], c);
  }

  lemma ExecutesWithZero(job: Job, q: Chunk -> bool)
    requires Preserved(job, q) && job == Job([WriteX, WriteKIfZero], AllZero)
    requires q(Two(Words(2, 2, 0, 2, Executing, Executing), InExecution(0, Running), Reading([]),
                   InExecution(1, Running), Reading([]), EMPTY, [None, None], []))
    ensures q(Two(Words(2, 2, 0, 2, Executing, Executing), InExecution(0, Running), Reading([]),
                  InExecution(1, Running), Recorded, StoreOne(), [None, Some(ABANDONED)], []))
  {
    var sh, a, fetched := Words(2, 2, 0, 2, Executing, Executing), InExecution(0, Running), EMPTY.SetInitial(X, 0);
    var c0 := Two(sh, a, Reading([]), InExecution(1, Running), Reading([]), EMPTY, [None, None], []);
    var c1 := Two(sh, a, Reading([]), InExecution(1, Running), Reading([Read(X, Some(0))]), fetched, [None, None], []);
    var c2 := Two(sh, a, Reading([]), InExecution(1, Running), Recorded, StoreOne(), [None, Some(ABANDONED)], []);
    Asks(job, q, c0, 1, 1, [], X, [Read(X, Some(0))], c1);
    Ends(job, q, c1, 1, 1, [Read(X, Some(0))]);
    assert Ended(job, c1, 1, 1, [Read(X, Some(0))]) == c2;
  }

  /** Transaction 1 fails validation ... */
  lemma IsAborted(job: Job, q: Chunk -> bool, first: Option<Output>, log: seq<Event>)
    requires Preserved(job, q)
    requires q(Two(Words(2, 2, 2, 1, Executed, Executed), InValidation(1, Deciding), Nothing,
                   ToValidate(Check), Nothing, StoreTwo(), [first, Some(ABANDONED)], log))
    ensures q(Two(Words(2, 2, 2, 1, Executed, Executing), InExecution(1, Running), Reading([]),
                  ToValidate(Check), Nothing, StoreTwo(), [first, Some(ABANDONED)], log + [Aborted(0, 1)]))
  {
    var b := ToValidate(Check);
    var c0 := Two(Words(2, 2, 2, 1, Executed, Executed), InValidation(1, Deciding), Nothing, b, Nothing,
                  StoreTwo(), [first, Some(ABANDONED)], log);
    var c1 := Two(Words(2, 2, 2, 1, Executed, Executing), InExecution(1, Running), Reading([]), b, Nothing,
                  StoreTwo(), [first, Some(ABANDONED)], log + [Aborted(0, 1)]);
    StoreCells(X);
    assert StoreTwo().ReadAt(1, X) == Some(1);
    assert ReadSet(ABANDONED.trace) == map[X := 0] by { assert ABANDONED.trace[..0] == []; }
    FailsValidation(job, q, c0, 0, 1);
    assert Reincarnated(c0, 0, 1) == c1;
  }

  /** ... is executed again, and this time writes nothing. */
  lemma ExecutesAgain(job: Job, q: Chunk -> bool, first: Option<Output>, log: seq<Event>)
    requires Preserved(job, q) && job == Job([WriteX, WriteKIfZero], AllZero)
    requires q(Two(Words(2, 2, 2, 1, Executed, Executing), InExecution(1, Running), Reading([]),
                   ToValidate(Check), Nothing, StoreTwo(), [first, Some(ABANDONED)], log))
    ensures q(Two(Words(2, 2, 2, 1, Executed, Executing), InExecution(1, Running), Recorded, ToValidate(Check), Nothing,
                  StoreThree(), [first, Some(KEPT)], log))
  {
    var b, sh, outputs := ToValidate(Check), Words(2, 2, 2, 1, Executed, Executing), [first, Some(ABANDONED)];
    var c0 := Two(sh, InExecution(1, Running), Reading([]), b, Nothing, StoreTwo(), outputs, log);
    var c1 := Two(sh, InExecution(1, Running), Reading([Read(X, Some(1))]), b, Nothing, StoreTwo(), outputs, log);
    StoreCells(X);
    assert StoreTwo().ReadAt(1, X) == Some(1);
    Asks(job, q, c0, 0, 1, [], X, [Read(X, Some(1))], c1);
    Ends(job, q, c1, 0, 1, [Read(X, Some(1))]);
    assert Ended(job, c1, 0, 1, [Read(X, Some(1))]) ==
           Two(sh, InExecution(1, Running), Recorded, b, Nothing, StoreThree(), [first, Some(KEPT)], log);
  }

  lemma FinishesAgain(job: Job, q: Chunk -> bool, outputs: seq<Option<Output>>, log: seq<Event>)
    returns (log': seq<Event>)
    requires Preserved(job, q) && |outputs| == 2
    requires q(Two(Words(2, 2, 2, 1, Executed, Executing), InExecution(1, Running), Recorded,
                   ToValidate(Check), Nothing, StoreThree(), outputs, log))
    ensures q(Two(Words(2, 2, 3, 1, Executed, Executed), InValidation(1, Deciding), Nothing, ToValidate(Check), Nothing,
                  StoreThree(), outputs, log'))
  {
    var b := ToValidate(Check);
    var c0 := Two(Words(2, 2, 2, 1, Executed, Executing), InExecution(1, Running), Recorded, b, Nothing,
                  StoreThree(), outputs, log);
    var log1 := log + [Event.Finished(0, 1)];
    var c1 := Two(Words(2, 1, 3, 0, Executed, Executed), Idle, Nothing, b, Nothing, StoreThree(), outputs, log1);
    FinishesExecution(job, q, c0, 0, 1);
    assert ChunkRuns.Finished(c0, 0) == c1;
    log' := log1 + [HandedOut(0, 1)];
    TakesValidation(job, q, c1, 0);
    assert HandedOutTo(c1, 0) == Two(Words(2, 2, 3, 1, Executed, Executed), InValidation(1, Deciding), Nothing,
                                     b, Nothing, StoreThree(), outputs, log');
  }

  lemma LeftoverRun(job: Job, q: Chunk -> bool) returns (c: Chunk)
    requires Preserved(job, q) && job == Job([WriteX, WriteKIfZero], AllZero)
    requires q(Start())
    ensures q(c) && c.sys.sh.doneMarker && c.store == StoreThree()
    ensures c.outputs == [Some(Output([], map[X := 1])), Some(KEPT)]
  {
    BothTake(job, q);
    ExecutesWithZero(job, q);
    SecondFinishes(job, q, StoreOne(), [None, Some(ABANDONED)]);
    WritesX(job, q, StoreOne(), Some(ABANDONED), [Event.Finished(1, 1)]);
    var first := Some(Output([], map[X := 1]));
    var outputs := [first, Some(ABANDONED)];
    FirstFinishes(job, q, StoreTwo(), outputs, [Event.Finished(1, 1)]);
    var log := FirstValidates(job, q, StoreTwo(), outputs, [Event.Finished(1, 1)] + [Event.Finished(0, 0)]);
    IsAborted(job, q, first, log);
    ExecutesAgain(job, q, first, log + [Aborted(0, 1)]);
    var log' := FinishesAgain(job, q, [first, Some(KEPT)], log + [Aborted(0, 1)]);
    KeptAgrees();
    c := LastValidation(job, q, 3, StoreThree(), [first, Some(KEPT)], log');
  }

  lemma KeptAgrees()
    ensures Agrees(StoreThree(), 1, ReadSet(KEPT.trace))
  {
    StoreCells(X);
    assert StoreThree().ReadAt(1, X) == Some(1);
    assert ReadSet(KEPT.trace) == map[X := 1] by { assert KEPT.trace[..0] == []; }
  }

  /** There is a run of two workers that sets the done marker with every read answered, and yet the store is not
      the sequential one: transaction 1 first read 0 and wrote `K`, was executed again after transaction 0, read 1
      and wrote nothing, and the abandoned write still shows. */
  lemma LeftoverBreaksSerializability() returns (job: Job, states: seq<Chunk>, workers: seq<nat>, c: Chunk)
    ensures IsChunkRun(job, 2, states, workers) && c == states[|workers|] && c.sys.sh.doneMarker
    ensures |c.outputs| == 2 && c.outputs[0].Some? && c.outputs[1].Some?
    ensures var outs := S.Unwrap(c.outputs);
      && (forall j | 0 <= j < 2 :: NoMissedRead(c.store, job.initial, outs[j], j))
      && !NoHarmfulLeftover(c.store, job.initial, outs[1], 1)
      && !Matches(c.store, job.initial, outs, 2)
  {
    job := Job([WriteX, WriteKIfZero], AllZero);
    StartIsReached(job);
    c := LeftoverRun(job, Reached(job));
    states, workers := RunToReachable(job, 2, c);
    LeftoverShows(job, S.Unwrap(c.outputs));
  }

  lemma LeftoverShows(job: Job, outs: seq<Output>)
    requires job == Job([WriteX, WriteKIfZero], AllZero) && outs == [Output([], map[X := 1]), KEPT]
    ensures forall j | 0 <= j < 2 :: NoMissedRead(StoreThree(), job.initial, outs[j], j)
    ensures !NoHarmfulLeftover(StoreThree(), job.initial, outs[1], 1) && !Matches(StoreThree(), job.initial, outs, 2)
  {
    StoreCells(K);
    assert Below(StoreThree(), AllZero, 1, K) == Some(0) && Below(StoreThree(), AllZero, 2, K) == Some(7);
    assert SeqValue(AllZero, outs, 0, K) == Some(0);
    assert SeqValue(AllZero, outs, 1, K) == Some(0);
    assert SeqValue(AllZero, outs, 2, K) == Some(0);
  }
}
