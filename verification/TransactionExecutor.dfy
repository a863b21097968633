/** The sequential transaction executor: state and bouncer over a block. */
module TransactionExecutor {
  import opened Cells
  import opened LayeredState
  import opened StateChanges
  import B = Bouncer
  import C = CachedState

  /** What executing a transaction does: the operations it performs on its transactional state, however
      nested, and what it reports, or that it failed. */
  datatype TxRun = TxRun(ops: seq<Op>, info: Option<B.Tx>)

  ghost predicate WellFormed(tx: TxRun) { SelfContained(tx.ops) }

  datatype Outcome = Executed | ExecutionFailed | TooLarge | BlockFull | StateError

  function OutcomeOf(v: B.Verdict): Outcome {
    match v
    case Accepted => Executed
    case TooLarge => TooLarge
    case BlockFull => BlockFull
    case StateError => StateError
  }

  datatype Env = Env(reader: Reader, casm: B.CasmCost, config: B.Config)

  /** State and bouncer between two transactions. */
  datatype Exec = Exec(stack: seq<Values>, block: B.Block)

  // ----------------------------------------------------------------------------------------------
  // One transaction

  /** The stack after the transaction's operations, as if performed directly on it. */
  ghost function Effect(env: Env, stack: seq<Values>, tx: TxRun): (r: seq<Values>)
    requires |stack| >= 1 && WellFormed(tx)
    ensures |r| == |stack|
  {
    After(env.reader, stack, tx.ops)
  }

  /** The stack with the transaction's own transactional state on top. */
  ghost function Nested(env: Env, stack: seq<Values>, tx: TxRun): (r: seq<Values>)
    requires |stack| >= 1 && WellFormed(tx)
    ensures |r| == |stack| + 1
  {
    Effect(env, Apply(stack, Begin), tx)
  }

  /** What the transaction leaves written in its own transactional state. */
  ghost function WrittenBy(env: Env, stack: seq<Values>, tx: TxRun): Values
    requires |stack| >= 1 && WellFormed(tx)
  {
    Nested(env, stack, tx)[|stack|]
  }

  /** The reader cannot tell the initial value of a storage, nonce or class-hash cell that was written. */
  ghost predicate WritesUnreadable(env: Env, stack: seq<Values>, tx: TxRun)
    requires |stack| >= 1 && WellFormed(tx)
  {
    exists c :: c in C.Tracked(WrittenBy(env, stack, tx)) && Top(env.reader, stack, c).None?
  }

  /** One call of `execute`: a failed or rejected transaction changes neither state nor bouncer; an executed
      one changes both, the bouncer by exactly the transaction's difference in what the state shows. */
  ghost predicate ExecStep(env: Env, s: Exec, tx: TxRun, s': Exec, r: Outcome, changes: Values)
    requires |s.stack| >= 1 && WellFormed(tx)
  {
    var after := Effect(env, s.stack, tx);
    if tx.info.None? then s' == s && r == ExecutionFailed
    else if WritesUnreadable(env, s.stack, tx) then s' == s && r == StateError
    else
      && IsExactDiff(TopView(env.reader, s.stack), TopView(env.reader, after), changes)
      && var verdict := B.VerdictOf(env.config, s.block, env.casm, tx.info.value, KeysOf(changes));
         && r == OutcomeOf(verdict)
         && s' == if verdict == B.Accepted
                  then Exec(after, B.Updated(s.block, env.casm, tx.info.value, KeysOf(changes))) else s
  }

  /** What the transaction adds to the block's weights, given the cells it changed. */
  ghost function AddedWeight(env: Env, b: B.Block, tx: B.Tx, changes: Values): B.Weights {
    B.ResidualWeight(b, env.casm, tx, KeysOf(changes).Difference(b.keys))
  }

  ghost predicate ExceedsAlone(env: Env, b: B.Block, tx: B.Tx, changes: Values) {
    var w := AddedWeight(env, b, tx, changes);
    var capacity := if b.weights.builtinCount.keccak > 0 || w.builtinCount.keccak > 0
                    then env.config.maxCapacityWithKeccak else env.config.maxCapacity;
    exists k: B.Component :: B.At(w, k) > B.At(capacity, k)
  }

  ghost predicate ExceedsWithBlock(env: Env, b: B.Block, tx: B.Tx, changes: Values) {
    var w := AddedWeight(env, b, tx, changes);
    var capacity := if b.weights.builtinCount.keccak > 0 || w.builtinCount.keccak > 0
                    then env.config.maxCapacityWithKeccak else env.config.maxCapacity;
    exists k: B.Component :: B.At(b.weights, k) + B.At(w, k) > B.At(capacity, k)
  }

  /** A class that is new to the block cannot be read. */
  ghost predicate ClassUnreadable(b: B.Block, tx: B.Tx) {
    exists c :: c in tx.classes && c !in b.classes && c in tx.unreadable
  }

  /** What each result means. */
  lemma OutcomesInComponents(env: Env, s: Exec, tx: TxRun, s': Exec, r: Outcome, changes: Values)
    requires |s.stack| >= 1 && WellFormed(tx) && ExecStep(env, s, tx, s', r, changes)
    ensures r == ExecutionFailed <==> tx.info.None?
    ensures r == StateError <==>
      tx.info.Some? && (WritesUnreadable(env, s.stack, tx) || ClassUnreadable(s.block, tx.info.value))
    ensures r == TooLarge <==>
      r != ExecutionFailed && r != StateError && ExceedsAlone(env, s.block, tx.info.value, changes)
    ensures r == BlockFull <==>
      && r != ExecutionFailed && r != StateError && !ExceedsAlone(env, s.block, tx.info.value, changes)
      && ExceedsWithBlock(env, s.block, tx.info.value, changes)
    ensures r != ExecutionFailed && r != StateError ==>
      IsExactDiff(TopView(env.reader, s.stack), TopView(env.reader, Effect(env, s.stack, tx)), changes)
    ensures r != Executed ==> s' == s
    ensures r == Executed ==>
      s'.stack == Effect(env, s.stack, tx) && s'.block.keys == s.block.keys.Extend(KeysOf(changes))
    ensures r == Executed ==> forall k: B.Component ::
      B.At(s'.block.weights, k) == B.At(s.block.weights, k) + B.At(AddedWeight(env, s.block, tx.info.value, changes), k)
  {
    if tx.info.Some? && !WritesUnreadable(env, s.stack, tx) {
      VerdictsInComponents(env, s.block, tx.info.value, changes);
      B.UpdatedInComponents(s.block, env.casm, tx.info.value, KeysOf(changes));
    }
  }

  lemma VerdictsInComponents(env: Env, b: B.Block, tx: B.Tx, changes: Values)
    ensures var v := B.VerdictOf(env.config, b, env.casm, tx, KeysOf(changes));
      && (v == B.StateError <==> ClassUnreadable(b, tx))
      && (v == B.TooLarge <==> v != B.StateError && ExceedsAlone(env, b, tx, changes))
      && (v == B.BlockFull <==>
            v != B.StateError && !ExceedsAlone(env, b, tx, changes) && ExceedsWithBlock(env, b, tx, changes))
  {
    var w := AddedWeight(env, b, tx, changes);
    var capacity := if b.weights.builtinCount.keccak > 0 || w.builtinCount.keccak > 0
                    then env.config.maxCapacityWithKeccak else env.config.maxCapacity;
    B.VerdictInComponents(env.config, b, env.casm, tx, KeysOf(changes));
    assert ExceedsAlone(env, b, tx, changes) <==> exists k: B.Component :: B.At(w, k) > B.At(capacity, k);
  }

  class TransactionExecutor {
    const casm: B.CasmCost
    const state: C.CachedState
    const bouncer: B.Bouncer

    constructor (state: C.CachedState, casm: B.CasmCost, config: B.Config)
      ensures this.state == state && this.casm == casm && fresh(bouncer)
      ensures bouncer.config == config && bouncer.Value() == B.EmptyBlock()
    {
      this.state := state;
      this.casm := casm;
      this.bouncer := new B.Bouncer(config);
    }

    ghost function Environment(): Env { Env(state.reader, casm, bouncer.config) }

    ghost function Value(): Exec
      reads state, bouncer
    {
      Exec(state.Stack(), bouncer.Value())
    }

    method Execute(tx: TxRun) returns (r: Outcome, ghost changes: Values)
      requires state.Valid() && WellFormed(tx)
      modifies state`caches, bouncer
      ensures state.Valid()
      ensures ExecStep(Environment(), old(Value()), tx, Value(), r, changes)
      ensures r == ExecutionFailed <==> tx.info.None?
      ensures r != Executed ==>
        (forall c :: state.View(c) == old(state.View(c))) && bouncer.Value() == old(bouncer.Value())
      ensures r == Executed ==>
        forall c :: state.View(c) == Top(state.reader, After(state.reader, old(state.Stack()), tx.ops), c)
    {
      ghost var stack := state.Stack();
      changes := map[];
      TransactionLayer(state.reader, stack, tx.ops);
      SelfContainedAnywhere(tx.ops, |stack| + 1, 1);
      state.CreateTransactional();
      var _ := state.Perform(tx.ops);
      match tx.info {
        case None =>
          state.AbortTransactional();
          r := ExecutionFailed;
        case Some(info) =>
          var diff := TransactionChanges(tx, stack);
          if diff.None? {
            state.AbortTransactional();
            return StateError, changes;
          }
          changes := diff.value;
          var verdict := bouncer.TryUpdate(casm, info, KeysOf(diff.value));
          if verdict == B.Accepted {
            state.CommitTransactional();
          } else {
            state.AbortTransactional();
          }
          r := OutcomeOf(verdict);
      }
    }

    /** `get_actual_state_changes` on the transactional state: the transaction's difference. */
    method TransactionChanges(tx: TxRun, ghost stack: seq<Values>) returns (diff: Option<Values>)
      requires state.Valid() && WellFormed(tx) && |stack| >= 1 && state.Stack() == Nested(Environment(), stack, tx)
      modifies state`caches
      ensures state.Valid() && state.Stack() == old(state.Stack())
      ensures diff.None? <==> WritesUnreadable(Environment(), stack, tx)
      ensures diff.Some? ==>
        var env := Environment();
        IsExactDiff(TopView(env.reader, stack), TopView(env.reader, Effect(env, stack, tx)), diff.value)
    {
      TransactionLayer(state.reader, stack, tx.ops);
      diff := state.GetActualStateChanges();
    }

    /** Executes transactions until one does not fit into the block. */
    method ExecuteTxsSequentially(txs: seq<TxRun>)
      returns (results: seq<Outcome>, ghost states: seq<Exec>, ghost changes: seq<Values>)
      requires state.Valid() && forall tx | tx in txs :: WellFormed(tx)
      modifies state`caches, bouncer
      ensures state.Valid()
      ensures IsBlock(Environment(), txs, results, states, changes)
      ensures states[0] == old(Value()) && states[|results|] == Value()
    {
      results, states, changes := [], [Value()], [];
      var k := 0;
      while k < |txs|
        invariant 0 <= k == |results| <= |txs| && state.Valid()
        invariant IsPrefix(Environment(), txs, results, states, changes)
        invariant states[0] == old(Value()) && states[k] == Value()
      {
        var r, change := Execute(txs[k]);
        if r == BlockFull {
          assert ExecStep(Environment(), states[k], txs[k], states[k], BlockFull, change);
          break;
        }
        PrefixGrows(Environment(), txs, results, states, changes, Value(), r, change);
        results, states, changes := results + [r], states + [Value()], changes + [change];
        k := k + 1;
      }
    }
  }

  /** Everything before the stop: one result per transaction, none of them `BlockFull`. */
  ghost predicate IsPrefix(env: Env, txs: seq<TxRun>, results: seq<Outcome>, states: seq<Exec>, changes: seq<Values>) {
    && |results| <= |txs| && |states| == |results| + 1 && |changes| == |results|
    && (forall tx | tx in txs :: WellFormed(tx))
    && (forall k | 0 <= k < |states| :: |states[k].stack| >= 1)
    && (forall k | 0 <= k < |results| :: IsStep(env, txs, results, states, changes, k))
  }

  ghost predicate IsStep(
      env: Env, txs: seq<TxRun>, results: seq<Outcome>, states: seq<Exec>, changes: seq<Values>, k: nat)
    requires k < |results| <= |txs| && |states| == |results| + 1 && |changes| == |results|
    requires WellFormed(txs[k]) && |states[k].stack| >= 1
  {
    results[k] != BlockFull && ExecStep(env, states[k], txs[k], states[k + 1], results[k], changes[k])
  }

  lemma StepInLonger(
      env: Env, txs: seq<TxRun>, results: seq<Outcome>, states: seq<Exec>, changes: seq<Values>,
      s': Exec, r: Outcome, change: Values, k: nat)
    requires k < |results| < |txs| && |states| == |results| + 1 && |changes| == |results|
    requires WellFormed(txs[k]) && |states[k].stack| >= 1 && IsStep(env, txs, results, states, changes, k)
    ensures IsStep(env, txs, results + [r], states + [s'], changes + [change], k)
  {
    var results', states', changes' := results + [r], states + [s'], changes + [change];
    assert results'[k] == results[k] && changes'[k] == changes[k];
    assert states'[k] == states[k] && states'[k + 1] == states[k + 1];
  }

  lemma LastStep(
      env: Env, txs: seq<TxRun>, results: seq<Outcome>, states: seq<Exec>, changes: seq<Values>,
      s': Exec, r: Outcome, change: Values)
    requires |results| < |txs| && |states| == |results| + 1 && |changes| == |results| && r != BlockFull
    requires WellFormed(txs[|results|]) && |states[|results|].stack| >= 1
    requires ExecStep(env, states[|results|], txs[|results|], s', r, change)
    ensures IsStep(env, txs, results + [r], states + [s'], changes + [change], |results|)
  {
    var n := |results|;
    assert (results + [r])[n] == r && (changes + [change])[n] == change;
    assert (states + [s'])[n] == states[n] && (states + [s'])[n + 1] == s';
  }

  lemma StacksGrow(states: seq<Exec>, s': Exec)
    requires (forall k | 0 <= k < |states| :: |states[k].stack| >= 1) && |s'.stack| >= 1
    ensures forall k | 0 <= k < |states + [s']| :: |(states + [s'])[k].stack| >= 1
  {
  }

  lemma StepsGrow(
      env: Env, txs: seq<TxRun>, results: seq<Outcome>, states: seq<Exec>, changes: seq<Values>,
      s': Exec, r: Outcome, change: Values, k: nat)
    requires IsPrefix(env, txs, results, states, changes) && |results| < |txs| && |s'.stack| >= 1 && r != BlockFull
    requires ExecStep(env, states[|results|], txs[|results|], s', r, change) && k <= |results|
    requires WellFormed(txs[k]) && |(states + [s'])[k].stack| >= 1
    ensures IsStep(env, txs, results + [r], states + [s'], changes + [change], k)
  {
    if k < |results| {
      StepInLonger(env, txs, results, states, changes, s', r, change, k);
    } else {
      LastStep(env, txs, results, states, changes, s', r, change);
    }
  }

  lemma PrefixGrows(
      env: Env, txs: seq<TxRun>, results: seq<Outcome>, states: seq<Exec>, changes: seq<Values>,
      s': Exec, r: Outcome, change: Values)
    requires IsPrefix(env, txs, results, states, changes) && |results| < |txs| && |s'.stack| >= 1 && r != BlockFull
    requires ExecStep(env, states[|results|], txs[|results|], s', r, change)
    ensures IsPrefix(env, txs, results + [r], states + [s'], changes + [change])
  {
    var results', states', changes' := results + [r], states + [s'], changes + [change];
    StacksGrow(states, s');
    assert forall k | 0 <= k < |results'| :: txs[k] in txs;
    forall k | 0 <= k < |results'| ensures IsStep(env, txs, results', states', changes', k) {
      StepsGrow(env, txs, results, states, changes, s', r, change, k);
    }
  }

  /** The results cover exactly the transactions before the first one that did not fit. */
  ghost predicate IsBlock(env: Env, txs: seq<TxRun>, results: seq<Outcome>, states: seq<Exec>, changes: seq<Values>) {
    && IsPrefix(env, txs, results, states, changes)
    && (|results| < |txs| ==>
          var last := states[|results|];
          exists change :: ExecStep(env, last, txs[|results|], last, BlockFull, change))
  }

  /** Why a block stopped early: the next transaction runs, everything it needs can be read, its own weight fits
      an empty block in every component, and together with the block's weights it does not. */
  lemma StopsOnlyWhenFull(env: Env, txs: seq<TxRun>, results: seq<Outcome>, states: seq<Exec>, changes: seq<Values>)
    returns (change: Values)
    requires IsBlock(env, txs, results, states, changes) && |results| < |txs|
    ensures var tx, s := txs[|results|], states[|results|];
      && tx.info.Some? && !WritesUnreadable(env, s.stack, tx) && !ClassUnreadable(s.block, tx.info.value)
      && IsExactDiff(TopView(env.reader, s.stack), TopView(env.reader, Effect(env, s.stack, tx)), change)
      && !ExceedsAlone(env, s.block, tx.info.value, change)
      && ExceedsWithBlock(env, s.block, tx.info.value, change)
  {
    var tx, s := txs[|results|], states[|results|];
    change :| ExecStep(env, s, tx, s, BlockFull, change);
    OutcomesInComponents(env, s, tx, s, BlockFull, change);
  }

  /** The transaction's possible differences: only compiled class hashes written with their old value may or may
      not be among them. */
  ghost predicate IsChangeOf(env: Env, s: Exec, tx: TxRun, change: Values)
    requires |s.stack| >= 1 && WellFormed(tx)
  {
    IsExactDiff(TopView(env.reader, s.stack), TopView(env.reader, Effect(env, s.stack, tx)), change)
  }

  /** The step that decided transaction `k`, be it the stopping one. */
  lemma DecidingStep(
      env: Env, txs: seq<TxRun>, results: seq<Outcome>, states: seq<Exec>, changes: seq<Values>, k: nat)
    returns (s': Exec, r: Outcome, change: Values)
    requires IsBlock(env, txs, results, states, changes) && k <= |results| && k < |txs|
    ensures ExecStep(env, states[k], txs[k], s', r, change)
    ensures k < |results| ==> r == results[k] && s' == states[k + 1]
    ensures k == |results| ==> r == BlockFull
  {
    if k < |results| {
      assert IsStep(env, txs, results, states, changes, k);
      s', r, change := states[k + 1], results[k], changes[k];
    } else {
      s', r := states[k], BlockFull;
      change :| ExecStep(env, states[k], txs[k], states[k], BlockFull, change);
    }
  }

  /** Nothing else stops a block: a transaction that fails, that needs something unreadable, or that is too large
      on its own has a result and changes nothing, one that fits is executed, and the next one is tried. */
  lemma OthersDoNotStop(
      env: Env, txs: seq<TxRun>, results: seq<Outcome>, states: seq<Exec>, changes: seq<Values>, k: nat)
    requires IsBlock(env, txs, results, states, changes) && k <= |results| && k < |txs|
    ensures txs[k].info.None? ==> k < |results| && results[k] == ExecutionFailed && states[k + 1] == states[k]
    ensures && txs[k].info.Some?
            && (|| WritesUnreadable(env, states[k].stack, txs[k])
                || ClassUnreadable(states[k].block, txs[k].info.value)) ==>
      k < |results| && results[k] == StateError && states[k + 1] == states[k]
    ensures && txs[k].info.Some? && !WritesUnreadable(env, states[k].stack, txs[k])
            && !ClassUnreadable(states[k].block, txs[k].info.value)
            && (forall change | IsChangeOf(env, states[k], txs[k], change) ::
                  ExceedsAlone(env, states[k].block, txs[k].info.value, change)) ==>
      k < |results| && results[k] == TooLarge && states[k + 1] == states[k]
    ensures && txs[k].info.Some? && !WritesUnreadable(env, states[k].stack, txs[k])
            && !ClassUnreadable(states[k].block, txs[k].info.value)
            && (forall change | IsChangeOf(env, states[k], txs[k], change) ::
                  && !ExceedsAlone(env, states[k].block, txs[k].info.value, change)
                  && !ExceedsWithBlock(env, states[k].block, txs[k].info.value, change)) ==>
      k < |results| && results[k] == Executed && states[k + 1].stack == Effect(env, states[k].stack, txs[k])
  {
    var s', r, change := DecidingStep(env, txs, results, states, changes, k);
    OutcomesInComponents(env, states[k], txs[k], s', r, change);
    assert r != ExecutionFailed && r != StateError ==> IsChangeOf(env, states[k], txs[k], change);
  }

  // ----------------------------------------------------------------------------------------------
  // The whole block

  /** The accepted transactions among the first `k`, with the keys they changed. */
  ghost function Items(txs: seq<TxRun>, results: seq<Outcome>, changes: seq<Values>, k: nat): seq<B.Item>
    requires k <= |results| == |changes| <= |txs|
  {
    if k == 0 then []
    else if results[k - 1] == Executed && txs[k - 1].info.Some? then
      Items(txs, results, changes, k - 1) + [B.Item(txs[k - 1].info.value, KeysOf(changes[k - 1]))]
    else Items(txs, results, changes, k - 1)
  }

  /** The cell, and its contract, are among the recorded keys. */
  predicate Recorded(keys: Keys, c: Cell) {
    c in keys.cells && (!c.CompiledClassHash? ==> c.address in keys.modifiedContracts)
  }

  lemma KeysOfRecords(changes: Values, c: Cell)
    requires c in changes
    ensures Recorded(KeysOf(changes), c)
  {
  }

  /** The bouncer fits, is the closed form of `items`, and has recorded every cell that differs from `start`. */
  ghost predicate InStep(env: Env, start: seq<Values>, s: Exec, items: seq<B.Item>) {
    && B.Fits(env.config, s.block.weights)
    && B.IsBlockOf(s.block, env.casm, items)
    && forall c | Top(env.reader, s.stack, c) != Top(env.reader, start, c) :: Recorded(s.block.keys, c)
  }

  lemma ExecutedMeansAccepted(env: Env, s: Exec, tx: TxRun, s': Exec, change: Values)
    requires |s.stack| >= 1 && WellFormed(tx) && ExecStep(env, s, tx, s', Executed, change)
    ensures tx.info.Some?
    ensures B.VerdictOf(env.config, s.block, env.casm, tx.info.value, KeysOf(change)) == B.Accepted
    ensures s'.block == B.Updated(s.block, env.casm, tx.info.value, KeysOf(change))
    ensures s'.block.keys == s.block.keys.Extend(KeysOf(change))
    ensures IsDiff(TopView(env.reader, s.stack), TopView(env.reader, s'.stack), change)
  {
    var verdict := B.VerdictOf(env.config, s.block, env.casm, tx.info.value, KeysOf(change));
    assert OutcomeOf(verdict) == Executed;
  }

  lemma ExecutedKeepsInStep(
      env: Env, start: seq<Values>, s: Exec, items: seq<B.Item>, tx: TxRun, s': Exec, change: Values)
    requires |s.stack| >= 1 && WellFormed(tx) && ExecStep(env, s, tx, s', Executed, change)
    requires InStep(env, start, s, items)
    ensures tx.info.Some? && InStep(env, start, s', items + [B.Item(tx.info.value, KeysOf(change))])
  {
    ExecutedMeansAccepted(env, s, tx, s', change);
    B.AcceptedStep(env.config, env.casm, s.block, items, B.Item(tx.info.value, KeysOf(change)), s'.block);
    RecordedGrows(env, start, s, tx, s', change);
  }

  lemma RecordedGrows(env: Env, start: seq<Values>, s: Exec, tx: TxRun, s': Exec, change: Values)
    requires |s.stack| >= 1 && WellFormed(tx)
    requires IsDiff(TopView(env.reader, s.stack), TopView(env.reader, s'.stack), change)
    requires s'.block.keys == s.block.keys.Extend(KeysOf(change))
    requires forall c | Top(env.reader, s.stack, c) != Top(env.reader, start, c) :: Recorded(s.block.keys, c)
    ensures forall c | Top(env.reader, s'.stack, c) != Top(env.reader, start, c) :: Recorded(s'.block.keys, c)
  {
    forall c | Top(env.reader, s'.stack, c) != Top(env.reader, start, c) ensures Recorded(s'.block.keys, c) {
      if c in change { KeysOfRecords(change, c); } else { assert Recorded(s.block.keys, c); }
    }
  }

  lemma StepKeepsInStep(
      env: Env, txs: seq<TxRun>, results: seq<Outcome>, states: seq<Exec>, changes: seq<Values>, k: nat)
    requires IsPrefix(env, txs, results, states, changes) && k < |results|
    requires InStep(env, states[0].stack, states[k], Items(txs, results, changes, k))
    ensures InStep(env, states[0].stack, states[k + 1], Items(txs, results, changes, k + 1))
  {
    if results[k] == Executed {
      assert IsStep(env, txs, results, states, changes, k);
      var items := Items(txs, results, changes, k);
      ExecutedKeepsInStep(env, states[0].stack, states[k], items, txs[k], states[k + 1], changes[k]);
    } else {
      RejectionChangesNothing(env, txs, results, states, changes, k);
    }
  }

  /** State and bouncer stay in step over a block, at every point of it: the weights fit the capacity that
      Keccak use selects, the bouncer is the closed form of the executed transactions, and every cell that
      differs from the executor's starting view is among the recorded keys. */
  lemma {:induction false} StateAndBouncerStayInStep(
      env: Env, txs: seq<TxRun>, results: seq<Outcome>, states: seq<Exec>, changes: seq<Values>, k: nat)
    requires IsPrefix(env, txs, results, states, changes) && k < |states|
    requires states[0].block == B.EmptyBlock()
    ensures InStep(env, states[0].stack, states[k], Items(txs, results, changes, k))
    ensures var w := states[k].block.weights;
      forall comp: B.Component ::
        B.At(w, comp) <=
        B.At(if w.builtinCount.keccak > 0 then env.config.maxCapacityWithKeccak else env.config.maxCapacity, comp)
    ensures forall c | Top(env.reader, states[k].stack, c) != Top(env.reader, states[0].stack, c) ::
      c in states[k].block.keys.cells && (!c.CompiledClassHash? ==> c.address in states[k].block.keys.modifiedContracts)
  {
    if k == 0 {
      B.EmptyBlockIsClosedForm(env.config, env.casm);
    } else {
      StateAndBouncerStayInStep(env, txs, results, states, changes, k - 1);
      StepKeepsInStep(env, txs, results, states, changes, k - 1);
    }
    InStepInWords(env, states[0].stack, states[k], Items(txs, results, changes, k));
  }

  lemma InStepInWords(env: Env, start: seq<Values>, s: Exec, items: seq<B.Item>)
    requires InStep(env, start, s, items)
    ensures var w := s.block.weights;
      forall comp: B.Component ::
        B.At(w, comp) <=
        B.At(if w.builtinCount.keccak > 0 then env.config.maxCapacityWithKeccak else env.config.maxCapacity, comp)
    ensures forall c | Top(env.reader, s.stack, c) != Top(env.reader, start, c) ::
      c in s.block.keys.cells && (!c.CompiledClassHash? ==> c.address in s.block.keys.modifiedContracts)
  {
    B.FitsInEveryComponent(env.config, s.block.weights);
  }

  /** A transaction that is not executed changes neither what the state shows nor the bouncer. */
  lemma RejectionChangesNothing(
      env: Env, txs: seq<TxRun>, results: seq<Outcome>, states: seq<Exec>, changes: seq<Values>, k: nat)
    requires IsPrefix(env, txs, results, states, changes) && k < |results| && results[k] != Executed
    ensures states[k + 1] == states[k]
  {
    assert IsStep(env, txs, results, states, changes, k);
  }
}
