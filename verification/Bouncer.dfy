/** The bouncer: residual accounting of block resources. */
module Bouncer {
  import opened Cells
  import opened StateChanges

  // ----------------------------------------------------------------------------------------------
  // Resources and weights

  datatype Builtin = Bitwise | Ecdsa | EcOp | Keccak | Pedersen | Poseidon | RangeCheck | SegmentArena

  /** VM resources; a builtin without an entry has count zero. */
  datatype Resources = Resources(nSteps: nat, nMemoryHoles: nat, builtins: map<Builtin, nat>)
  {
    function Counter(b: Builtin): nat { if b in builtins then builtins[b] else 0 }

    function Plus(other: Resources): Resources {
      Resources(nSteps + other.nSteps, nMemoryHoles + other.nMemoryHoles,
                map b | b in builtins.Keys + other.builtins.Keys :: Counter(b) + other.Counter(b))
    }

    /** Memory holes count as steps; the segment arena is turned into steps by the OS. */
    function TotalSteps(): nat { nSteps + nMemoryHoles + N_STEPS_PER_SEGMENT_ARENA_BUILTIN * Counter(SegmentArena) }
  }

  const N_STEPS_PER_SEGMENT_ARENA_BUILTIN := 10

  const NO_RESOURCES := Resources(0, 0, map[])

  datatype BuiltinCount = BuiltinCount(
    bitwise: nat, ecdsa: nat, ecOp: nat, keccak: nat, pedersen: nat, poseidon: nat, rangeCheck: nat)

  datatype Weights = Weights(
    builtinCount: BuiltinCount, gas: nat, messageSegmentLength: nat, nEvents: nat, nSteps: nat, stateDiffSize: nat)

  datatype Component =
    | BitwiseCount | EcdsaCount | EcOpCount | KeccakCount | PedersenCount | PoseidonCount | RangeCheckCount
    | Gas | MessageSegmentLength | NEvents | NSteps | StateDiffSize

  function At(w: Weights, k: Component): nat {
    match k
    case BitwiseCount => w.builtinCount.bitwise
    case EcdsaCount => w.builtinCount.ecdsa
    case EcOpCount => w.builtinCount.ecOp
    case KeccakCount => w.builtinCount.keccak
    case PedersenCount => w.builtinCount.pedersen
    case PoseidonCount => w.builtinCount.poseidon
    case RangeCheckCount => w.builtinCount.rangeCheck
    case Gas => w.gas
    case MessageSegmentLength => w.messageSegmentLength
    case NEvents => w.nEvents
    case NSteps => w.nSteps
    case StateDiffSize => w.stateDiffSize
  }

  /** The weights with the given components. */
  function Build(f: Component -> nat): Weights {
    Weights(BuiltinCount(f(BitwiseCount), f(EcdsaCount), f(EcOpCount), f(KeccakCount), f(PedersenCount),
                         f(PoseidonCount), f(RangeCheckCount)),
            f(Gas), f(MessageSegmentLength), f(NEvents), f(NSteps), f(StateDiffSize))
  }

  lemma AtBuild(f: Component -> nat, k: Component)
    ensures At(Build(f), k) == f(k)
  {
  }

  lemma SameComponents(a: Weights, b: Weights)
    requires forall k: Component :: At(a, k) == At(b, k)
    ensures a == b
  {
    assert At(a, BitwiseCount) == At(b, BitwiseCount) && At(a, EcdsaCount) == At(b, EcdsaCount)
        && At(a, EcOpCount) == At(b, EcOpCount) && At(a, KeccakCount) == At(b, KeccakCount)
        && At(a, PedersenCount) == At(b, PedersenCount) && At(a, PoseidonCount) == At(b, PoseidonCount)
        && At(a, RangeCheckCount) == At(b, RangeCheckCount) && At(a, Gas) == At(b, Gas)
        && At(a, MessageSegmentLength) == At(b, MessageSegmentLength) && At(a, NEvents) == At(b, NEvents)
        && At(a, NSteps) == At(b, NSteps) && At(a, StateDiffSize) == At(b, StateDiffSize);
  }

  /** Component-wise addition. */
  function Plus(a: Weights, b: Weights): Weights { Build(k => At(a, k) + At(b, k)) }

  lemma AtPlus(a: Weights, b: Weights, k: Component)
    ensures At(Plus(a, b), k) == At(a, k) + At(b, k)
  {
    AtBuild(k' => At(a, k') + At(b, k'), k);
  }

  /** `checked_sub` succeeds in every component. */
  predicate HasRoom(capacity: Weights, w: Weights) {
    && w.builtinCount.bitwise <= capacity.builtinCount.bitwise
    && w.builtinCount.ecdsa <= capacity.builtinCount.ecdsa
    && w.builtinCount.ecOp <= capacity.builtinCount.ecOp
    && w.builtinCount.keccak <= capacity.builtinCount.keccak
    && w.builtinCount.pedersen <= capacity.builtinCount.pedersen
    && w.builtinCount.poseidon <= capacity.builtinCount.poseidon
    && w.builtinCount.rangeCheck <= capacity.builtinCount.rangeCheck
    && w.gas <= capacity.gas
    && w.messageSegmentLength <= capacity.messageSegmentLength
    && w.nEvents <= capacity.nEvents
    && w.nSteps <= capacity.nSteps
    && w.stateDiffSize <= capacity.stateDiffSize
  }

  /** There is room exactly when no component exceeds the capacity. */
  lemma HasRoomInEveryComponent(capacity: Weights, w: Weights)
    ensures HasRoom(capacity, w) <==> forall k: Component :: At(w, k) <= At(capacity, k)
  {
    if forall k: Component :: At(w, k) <= At(capacity, k) {
      assert At(w, BitwiseCount) <= At(capacity, BitwiseCount) && At(w, EcdsaCount) <= At(capacity, EcdsaCount)
          && At(w, EcOpCount) <= At(capacity, EcOpCount) && At(w, KeccakCount) <= At(capacity, KeccakCount)
          && At(w, PedersenCount) <= At(capacity, PedersenCount) && At(w, PoseidonCount) <= At(capacity, PoseidonCount)
          && At(w, RangeCheckCount) <= At(capacity, RangeCheckCount) && At(w, Gas) <= At(capacity, Gas)
          && At(w, MessageSegmentLength) <= At(capacity, MessageSegmentLength)
          && At(w, NEvents) <= At(capacity, NEvents) && At(w, NSteps) <= At(capacity, NSteps)
          && At(w, StateDiffSize) <= At(capacity, StateDiffSize);
    }
  }

  function Zero(): Weights { Build(k => 0) }

  /** What VM resources weigh: their total steps and prover builtins, the segment arena left out. */
  function VmWeight(r: Resources, k: Component): nat {
    match k
    case BitwiseCount => r.Counter(Bitwise)
    case EcdsaCount => r.Counter(Ecdsa)
    case EcOpCount => r.Counter(EcOp)
    case KeccakCount => r.Counter(Keccak)
    case PedersenCount => r.Counter(Pedersen)
    case PoseidonCount => r.Counter(Poseidon)
    case RangeCheckCount => r.Counter(RangeCheck)
    case NSteps => r.TotalSteps()
    case _ => 0
  }

  lemma CounterIsAdditive(a: Resources, b: Resources, x: Builtin)
    ensures a.Plus(b).Counter(x) == a.Counter(x) + b.Counter(x)
  {
  }

  lemma VmWeightIsAdditive(a: Resources, b: Resources, k: Component)
    ensures VmWeight(a.Plus(b), k) == VmWeight(a, k) + VmWeight(b, k)
  {
    forall x: Builtin ensures a.Plus(b).Counter(x) == a.Counter(x) + b.Counter(x) { CounterIsAdditive(a, b, x); }
  }

  /** A step or a memory hole weighs one step, a segment-arena use ten; every other builtin weighs one use of
      itself; nothing else weighs anything. */
  lemma WeightOfVmResources(steps: nat, holes: nat, b: Builtin, n: nat)
    ensures var w := Build(k => VmWeight(Resources(steps, holes, map[b := n]), k));
      && w.nSteps == steps + holes + (if b == SegmentArena then 10 * n else 0)
      && w.builtinCount == BuiltinCount(
           if b == Bitwise then n else 0, if b == Ecdsa then n else 0, if b == EcOp then n else 0,
           if b == Keccak then n else 0, if b == Pedersen then n else 0, if b == Poseidon then n else 0,
           if b == RangeCheck then n else 0)
      && w.gas == w.messageSegmentLength == w.nEvents == w.stateDiffSize == 0
  {
  }

  // ----------------------------------------------------------------------------------------------
  // One transaction

  type ClassId = Felt
  type StorageEntry = (Address, Felt)

  /** The resources of hashing a class; a class hash determines its class. */
  type CasmCost = ClassId -> Resources

  /** What the bouncer is told about a transaction, apart from the keys it changed; `unreadable` are the classes
      that cannot be read from the transaction's state. */
  datatype Tx = Tx(
    classes: set<ClassId>,
    unreadable: set<ClassId>,
    entries: set<StorageEntry>,
    vmResources: Resources,
    messageGas: nat,
    messageSegmentLength: nat,
    nEvents: nat)

  const TREE_HEIGHT_UPPER_BOUND := 24

  /** `get_particia_update_resources` for the given number of newly visited leaves. */
  function PatriciaResources(nLeaves: nat): Resources {
    var nUpdates := nLeaves * TREE_HEIGHT_UPPER_BOUND;
    Resources(32 * nUpdates, 0, map[Pedersen := 2 * nUpdates])
  }

  function HashCost(casm: CasmCost, c: ClassId, k: Component): nat {
    VmWeight(casm(c), k)
  }

  /** The weight of hashing every class of a set. */
  ghost function HashCosts(s: set<ClassId>, casm: CasmCost, k: Component): nat {
    if s == {} then 0
    else
      var c :| c in s;
      HashCost(casm, c, k) + HashCosts(s - {c}, casm, k)
  }

  lemma {:induction false} HashCostsAny(s: set<ClassId>, casm: CasmCost, k: Component, c: ClassId)
    requires c in s
    ensures HashCosts(s, casm, k) == HashCost(casm, c, k) + HashCosts(s - {c}, casm, k)
  {
    var d :| d in s && HashCosts(s, casm, k) == HashCost(casm, d, k) + HashCosts(s - {d}, casm, k);
    if c != d {
      HashCostsAny(s - {d}, casm, k, c);
      HashCostsAny(s - {c}, casm, k, d);
      assert s - {d} - {c} == s - {c} - {d};
    }
  }

  lemma {:induction false} HashCostsUnion(a: set<ClassId>, b: set<ClassId>, casm: CasmCost, k: Component)
    requires a !! b
    ensures HashCosts(a + b, casm, k) == HashCosts(a, casm, k) + HashCosts(b, casm, k)
    decreases |b|
  {
    if b == {} {
      assert a + b == a;
    } else {
      var c :| c in b;
      HashCostsAny(b, casm, k, c);
      HashCostsAny(a + b, casm, k, c);
      assert a + b - {c} == a + (b - {c});
      HashCostsUnion(a, b - {c}, casm, k);
    }
  }

  /** Hashing one class weighs its resources; none, nothing. */
  lemma HashCostsOfOne(casm: CasmCost, c: ClassId, k: Component)
    ensures HashCosts({}, casm, k) == 0 && HashCosts({c}, casm, k) == VmWeight(casm(c), k)
  {
    HashCostsAny({c}, casm, k, c);
    assert {c} - {c} == {};
  }

  /** `get_casm_hash_calculation_resources`: the sum over the newly executed classes, in any order. */
  method CasmHashResources(casm: CasmCost, block: set<ClassId>, tx: Tx) returns (r: Option<Resources>)
    ensures r.Some? <==> (tx.classes - block) !! tx.unreadable
    ensures r.Some? ==> forall k: Component :: VmWeight(r.value, k) == HashCosts(tx.classes - block, casm, k)
  {
    var sum := NO_RESOURCES;
    var new_ := tx.classes - block;
    var left := new_;
    while left != {}
      invariant left <= new_ && (new_ - left) !! tx.unreadable
      invariant forall k: Component :: VmWeight(sum, k) + HashCosts(left, casm, k) == HashCosts(new_, casm, k)
      decreases |left|
    {
      var c :| c in left;
      if c in tx.unreadable {
        return None;
      }
      forall k: Component
        ensures VmWeight(sum.Plus(casm(c)), k) + HashCosts(left - {c}, casm, k) == HashCosts(new_, casm, k)
      {
        VmWeightIsAdditive(sum, casm(c), k);
        HashCostsAny(left, casm, k, c);
      }
      sum := sum.Plus(casm(c));
      left := left - {c};
    }
    r := Some(sum);
  }

  // ----------------------------------------------------------------------------------------------
  // The bouncer as a value

  datatype Config = Config(maxCapacity: Weights, maxCapacityWithKeccak: Weights)

  datatype Block = Block(classes: set<ClassId>, entries: set<StorageEntry>, keys: Keys, weights: Weights)

  function EmptyBlock(): Block { Block({}, {}, NO_KEYS, Zero()) }

  /** The part of a transaction's weight that does not depend on the block. */
  function OwnWeight(tx: Tx, k: Component): nat {
    match k
    case Gas => tx.messageGas
    case MessageSegmentLength => tx.messageSegmentLength
    case NEvents => tx.nEvents
    case _ => VmWeight(tx.vmResources, k)
  }

  function TreeWeight(nLeaves: nat, k: Component): nat { VmWeight(PatriciaResources(nLeaves), k) }

  function DiffWeight(keys: Keys, k: Component): nat { if k == StateDiffSize then OnchainDataLength(keys) else 0 }

  /** What the transaction adds to the block's weights: its own weight, and only what is new to the block of
      hashed classes, visited entries and changed keys. */
  ghost function Residual(b: Block, casm: CasmCost, tx: Tx, residualKeys: Keys, k: Component): nat {
    OwnWeight(tx, k) + HashCosts(tx.classes - b.classes, casm, k)
    + TreeWeight(|tx.entries - b.entries|, k) + DiffWeight(residualKeys, k)
  }

  ghost function ResidualWeight(b: Block, casm: CasmCost, tx: Tx, residualKeys: Keys): Weights {
    Build(k => Residual(b, casm, tx, residualKeys, k))
  }

  lemma AtResidual(b: Block, casm: CasmCost, tx: Tx, residualKeys: Keys, k: Component)
    ensures At(ResidualWeight(b, casm, tx, residualKeys), k) == Residual(b, casm, tx, residualKeys, k)
  {
    AtBuild(k' => Residual(b, casm, tx, residualKeys, k'), k);
  }

  /** The residual weight, component by component: every newly visited entry weighs 32 * 24 steps and 2 * 24
      Pedersen hashes. */
  lemma ResidualFields(b: Block, casm: CasmCost, tx: Tx, residualKeys: Keys)
    ensures var w := ResidualWeight(b, casm, tx, residualKeys);
      && w.gas == tx.messageGas
      && w.messageSegmentLength == tx.messageSegmentLength
      && w.nEvents == tx.nEvents
      && w.stateDiffSize == OnchainDataLength(residualKeys)
  {
    var classes := tx.classes - b.classes;
    NothingToHash(classes, casm, Gas);
    NothingToHash(classes, casm, MessageSegmentLength);
    NothingToHash(classes, casm, NEvents);
    NothingToHash(classes, casm, StateDiffSize);
  }

  lemma ResidualSteps(b: Block, casm: CasmCost, tx: Tx, residualKeys: Keys)
    ensures var w, vm := ResidualWeight(b, casm, tx, residualKeys), tx.vmResources;
      w.nSteps == vm.nSteps + vm.nMemoryHoles + 10 * vm.Counter(SegmentArena)
                  + HashCosts(tx.classes - b.classes, casm, NSteps) + 768 * |tx.entries - b.entries|
  {
    AtResidual(b, casm, tx, residualKeys, NSteps);
  }

  lemma ResidualBuiltins(b: Block, casm: CasmCost, tx: Tx, residualKeys: Keys)
    ensures var vm, classes := tx.vmResources, tx.classes - b.classes;
      ResidualWeight(b, casm, tx, residualKeys).builtinCount == BuiltinCount(
        vm.Counter(Bitwise) + HashCosts(classes, casm, BitwiseCount),
        vm.Counter(Ecdsa) + HashCosts(classes, casm, EcdsaCount),
        vm.Counter(EcOp) + HashCosts(classes, casm, EcOpCount),
        vm.Counter(Keccak) + HashCosts(classes, casm, KeccakCount),
        vm.Counter(Pedersen) + HashCosts(classes, casm, PedersenCount) + 48 * |tx.entries - b.entries|,
        vm.Counter(Poseidon) + HashCosts(classes, casm, PoseidonCount),
        vm.Counter(RangeCheck) + HashCosts(classes, casm, RangeCheckCount))
  {
  }

  /** Hashing weighs nothing but steps and builtins. */
  lemma {:induction false} NothingToHash(s: set<ClassId>, casm: CasmCost, k: Component)
    requires k == Gas || k == MessageSegmentLength || k == NEvents || k == StateDiffSize
    ensures HashCosts(s, casm, k) == 0
  {
    if s != {} {
      var c :| c in s;
      HashCostsAny(s, casm, k, c);
      NothingToHash(s - {c}, casm, k);
    }
  }

  datatype Verdict = Accepted | TooLarge | BlockFull | StateError

  function Capacity(config: Config, usesKeccak: bool): Weights {
    if usesKeccak then config.maxCapacityWithKeccak else config.maxCapacity
  }

  predicate UsesKeccak(w: Weights) { w.builtinCount.keccak > 0 }

  /** The decision on a transaction with residual weight `w`. */
  function Decide(config: Config, b: Block, w: Weights): Verdict {
    var capacity := Capacity(config, UsesKeccak(b.weights) || UsesKeccak(w));
    if !HasRoom(capacity, w) then TooLarge
    else if !HasRoom(capacity, Plus(b.weights, w)) then BlockFull
    else Accepted
  }

  ghost function VerdictOf(config: Config, b: Block, casm: CasmCost, tx: Tx, keys: Keys): Verdict {
    if exists c :: c in tx.classes - b.classes && c in tx.unreadable then StateError
    else Decide(config, b, ResidualWeight(b, casm, tx, keys.Difference(b.keys)))
  }

  /** The verdict in words of single components: a class that cannot be read is an error; otherwise the
      transaction is too large when some component alone exceeds the capacity, and the block is full when none
      does but some component of the sum does.  Any use of Keccak, so far or by the transaction, selects the
      capacity with Keccak. */
  lemma VerdictInComponents(config: Config, b: Block, casm: CasmCost, tx: Tx, keys: Keys)
    ensures var v := VerdictOf(config, b, casm, tx, keys);
      var w := ResidualWeight(b, casm, tx, keys.Difference(b.keys));
      var capacity := if b.weights.builtinCount.keccak > 0 || w.builtinCount.keccak > 0
                      then config.maxCapacityWithKeccak else config.maxCapacity;
      && (v == StateError <==> exists c :: c in tx.classes && c !in b.classes && c in tx.unreadable)
      && (v == TooLarge <==> v != StateError && exists k: Component :: At(w, k) > At(capacity, k))
      && (v == BlockFull <==> && v != StateError && (forall k: Component :: At(w, k) <= At(capacity, k))
                              && exists k: Component :: At(b.weights, k) + At(w, k) > At(capacity, k))
      && (v == Accepted <==> v != StateError && forall k: Component :: At(b.weights, k) + At(w, k) <= At(capacity, k))
  {
    var w := ResidualWeight(b, casm, tx, keys.Difference(b.keys));
    var capacity := Capacity(config, UsesKeccak(b.weights) || UsesKeccak(w));
    HasRoomInEveryComponent(capacity, w);
    HasRoomInEveryComponent(capacity, Plus(b.weights, w));
    forall k: Component ensures At(Plus(b.weights, w), k) == At(b.weights, k) + At(w, k) { AtPlus(b.weights, w, k); }
    if exists c :: c in tx.classes && c !in b.classes && c in tx.unreadable {
      var c :| c in tx.classes && c !in b.classes && c in tx.unreadable;
      assert c in tx.classes - b.classes;
    }
  }

  ghost function Updated(b: Block, casm: CasmCost, tx: Tx, keys: Keys): Block {
    Block(b.classes + tx.classes, b.entries + tx.entries, b.keys.Extend(keys),
          Plus(b.weights, ResidualWeight(b, casm, tx, keys.Difference(b.keys))))
  }

  lemma UpdatedInComponents(b: Block, casm: CasmCost, tx: Tx, keys: Keys)
    ensures var b', w := Updated(b, casm, tx, keys), ResidualWeight(b, casm, tx, keys.Difference(b.keys));
      forall k: Component :: At(b'.weights, k) == At(b.weights, k) + At(w, k)
  {
    var w := ResidualWeight(b, casm, tx, keys.Difference(b.keys));
    forall k: Component ensures At(Plus(b.weights, w), k) == At(b.weights, k) + At(w, k) { AtPlus(b.weights, w, k); }
  }

  ghost function After(config: Config, b: Block, casm: CasmCost, tx: Tx, keys: Keys): Block {
    if VerdictOf(config, b, casm, tx, keys) == Accepted then Updated(b, casm, tx, keys) else b
  }

  /** Both together: the verdict, and what becomes of the block. */
  lemma TryInComponents(config: Config, b: Block, casm: CasmCost, tx: Tx, keys: Keys)
    ensures var v, b' := VerdictOf(config, b, casm, tx, keys), After(config, b, casm, tx, keys);
      var w := ResidualWeight(b, casm, tx, keys.Difference(b.keys));
      var capacity := if b.weights.builtinCount.keccak > 0 || w.builtinCount.keccak > 0
                      then config.maxCapacityWithKeccak else config.maxCapacity;
      && (v == StateError <==> exists c :: c in tx.classes && c !in b.classes && c in tx.unreadable)
      && (v == TooLarge <==> v != StateError && exists k: Component :: At(w, k) > At(capacity, k))
      && (v == BlockFull <==> && v != StateError && (forall k: Component :: At(w, k) <= At(capacity, k))
                              && exists k: Component :: At(b.weights, k) + At(w, k) > At(capacity, k))
      && (v != Accepted ==> b' == b)
      && (v == Accepted ==>
            && b'.classes == b.classes + tx.classes && b'.entries == b.entries + tx.entries
            && b'.keys.cells == b.keys.cells + keys.cells
            && b'.keys.modifiedContracts == b.keys.modifiedContracts + keys.modifiedContracts
            && forall k: Component :: At(b'.weights, k) == At(b.weights, k) + At(w, k))
  {
    VerdictInComponents(config, b, casm, tx, keys);
    UpdatedInComponents(b, casm, tx, keys);
  }

  lemma ExtendByResidue(block: Keys, keys: Keys)
    ensures block.Extend(keys.Difference(block)) == block.Extend(keys)
  {
  }

  // ----------------------------------------------------------------------------------------------
  // The bouncer as the source has it

  class Bouncer {
    var executedClassHashes: set<ClassId>
    var visitedStorageEntries: set<StorageEntry>
    var stateChangesKeys: Keys
    var accumulatedWeights: Weights
    const config: Config

    ghost function Value(): Block
      reads this
    {
      Block(executedClassHashes, visitedStorageEntries, stateChangesKeys, accumulatedWeights)
    }

    constructor (config: Config)
      ensures Value() == EmptyBlock() && this.config == config
    {
      this.config := config;
      executedClassHashes := {};
      visitedStorageEntries := {};
      stateChangesKeys := NO_KEYS;
      accumulatedWeights := Zero();
    }

    /** `get_tx_weights`, given the residual keys. */
    method GetTxWeights(casm: CasmCost, tx: Tx, residualKeys: Keys) returns (w: Option<Weights>)
      ensures w.Some? <==> (tx.classes - executedClassHashes) !! tx.unreadable
      ensures w.Some? ==> w.value == ResidualWeight(Value(), casm, tx, residualKeys)
    {
      var casmResources := CasmHashResources(casm, executedClassHashes, tx);
      if casmResources.None? {
        return None;
      }
      var patricia := PatriciaResources(|tx.entries - visitedStorageEntries|);
      var additional := casmResources.value.Plus(patricia);
      var vm := additional.Plus(tx.vmResources);
      var weights := Build(k => TxWeight(vm, tx, residualKeys, k));
      ResidualOfResources(Value(), casm, tx, residualKeys, casmResources.value, weights);
      w := Some(weights);
    }

    /** `_update`. */
    method Update(w: Weights, tx: Tx, residualKeys: Keys)
      modifies this
      ensures Value() == Block(old(executedClassHashes) + tx.classes, old(visitedStorageEntries) + tx.entries,
                               old(stateChangesKeys).Extend(residualKeys), Plus(old(accumulatedWeights), w))
    {
      accumulatedWeights := Plus(accumulatedWeights, w);
      visitedStorageEntries := visitedStorageEntries + tx.entries;
      executedClassHashes := executedClassHashes + tx.classes;
      stateChangesKeys := stateChangesKeys.Extend(residualKeys);
    }

    /** `try_update`: accepts the transaction and adds its residual weight, or leaves everything as it is. */
    method TryUpdate(casm: CasmCost, tx: Tx, keys: Keys) returns (verdict: Verdict)
      modifies this
      ensures verdict == VerdictOf(config, old(Value()), casm, tx, keys)
      ensures Value() == After(config, old(Value()), casm, tx, keys)
      ensures var b := old(Value());
        var w := ResidualWeight(b, casm, tx, keys.Difference(b.keys));
        var capacity := if b.weights.builtinCount.keccak > 0 || w.builtinCount.keccak > 0
                        then config.maxCapacityWithKeccak else config.maxCapacity;
        && (verdict == StateError <==> exists c :: c in tx.classes && c !in b.classes && c in tx.unreadable)
        && (verdict == TooLarge <==> verdict != StateError && exists k: Component :: At(w, k) > At(capacity, k))
        && (verdict == BlockFull <==>
              && verdict != StateError && (forall k: Component :: At(w, k) <= At(capacity, k))
              && exists k: Component :: At(b.weights, k) + At(w, k) > At(capacity, k))
        && (verdict != Accepted ==> Value() == b)
        && (verdict == Accepted ==>
              && executedClassHashes == b.classes + tx.classes && visitedStorageEntries == b.entries + tx.entries
              && stateChangesKeys.cells == b.keys.cells + keys.cells
              && stateChangesKeys.modifiedContracts == b.keys.modifiedContracts + keys.modifiedContracts
              && forall k: Component :: At(accumulatedWeights, k) == At(b.weights, k) + At(w, k))
    {
      TryInComponents(config, Value(), casm, tx, keys);
      var residualKeys := keys.Difference(stateChangesKeys);
      var weights := GetTxWeights(casm, tx, residualKeys);
      if weights.None? {
        return StateError;
      }
      var w := weights.value;
      assert VerdictOf(config, Value(), casm, tx, keys) == Decide(config, Value(), w);
      var maxCapacity := config.maxCapacity;
      if UsesKeccak(accumulatedWeights) || UsesKeccak(w) {
        maxCapacity := config.maxCapacityWithKeccak;
      }
      if !HasRoom(maxCapacity, w) {
        return TooLarge;
      }
      if !HasRoom(maxCapacity, Plus(accumulatedWeights, w)) {
        return BlockFull;
      }
      ExtendByResidue(stateChangesKeys, keys);
      Update(w, tx, residualKeys);
      verdict := Accepted;
    }
  }

  /** The components `get_tx_weights` assembles. */
  function TxWeight(vm: Resources, tx: Tx, residualKeys: Keys, k: Component): nat {
    match k
    case Gas => tx.messageGas
    case MessageSegmentLength => tx.messageSegmentLength
    case NEvents => tx.nEvents
    case StateDiffSize => OnchainDataLength(residualKeys)
    case _ => VmWeight(vm, k)
  }

  /** Summing the VM resources first and weighing them afterwards gives the residual weight. */
  lemma ResidualOfResources(b: Block, casm: CasmCost, tx: Tx, residualKeys: Keys, hashing: Resources, weights: Weights)
    requires forall k: Component :: VmWeight(hashing, k) == HashCosts(tx.classes - b.classes, casm, k)
    requires var vm := hashing.Plus(PatriciaResources(|tx.entries - b.entries|)).Plus(tx.vmResources);
      weights == Build(k => TxWeight(vm, tx, residualKeys, k))
    ensures weights == ResidualWeight(b, casm, tx, residualKeys)
  {
    var patricia := PatriciaResources(|tx.entries - b.entries|);
    var vm := hashing.Plus(patricia).Plus(tx.vmResources);
    forall k: Component ensures At(weights, k) == At(ResidualWeight(b, casm, tx, residualKeys), k) {
      AtResidual(b, casm, tx, residualKeys, k);
      AtBuild(k' => TxWeight(vm, tx, residualKeys, k'), k);
      VmWeightIsAdditive(hashing, patricia, k);
      VmWeightIsAdditive(hashing.Plus(patricia), tx.vmResources, k);
      assert VmWeight(hashing, k) == HashCosts(tx.classes - b.classes, casm, k);
    }
    SameComponents(weights, ResidualWeight(b, casm, tx, residualKeys));
  }

  // ----------------------------------------------------------------------------------------------
  // The whole block

  /** A transaction with the keys it changed. */
  datatype Item = Item(tx: Tx, keys: Keys)

  /** The bouncer after trying the transactions in order. */
  ghost function Tried(config: Config, casm: CasmCost, items: seq<Item>): Block {
    if items == [] then EmptyBlock()
    else
      var last := items[|items| - 1];
      After(config, Tried(config, casm, items[..|items| - 1]), casm, last.tx, last.keys)
  }

  /** The transactions that were accepted, in order. */
  ghost function AcceptedOf(config: Config, casm: CasmCost, items: seq<Item>): seq<Item> {
    if items == [] then []
    else
      var before, last := items[..|items| - 1], items[|items| - 1];
      var accepted := AcceptedOf(config, casm, before);
      if VerdictOf(config, Tried(config, casm, before), casm, last.tx, last.keys) == Accepted then accepted + [last]
      else accepted
  }

  function AllClasses(items: seq<Item>): set<ClassId> {
    if items == [] then {} else AllClasses(items[..|items| - 1]) + items[|items| - 1].tx.classes
  }

  function AllEntries(items: seq<Item>): set<StorageEntry> {
    if items == [] then {} else AllEntries(items[..|items| - 1]) + items[|items| - 1].tx.entries
  }

  function AllKeys(items: seq<Item>): Keys {
    if items == [] then NO_KEYS else AllKeys(items[..|items| - 1]).Extend(items[|items| - 1].keys)
  }

  function Sum(items: seq<Item>, f: Item -> nat): nat {
    if items == [] then 0 else Sum(items[..|items| - 1], f) + f(items[|items| - 1])
  }

  function SumOwn(items: seq<Item>, k: Component): nat { Sum(items, (it: Item) => OwnWeight(it.tx, k)) }

  /** The block's weight in closed form: the transactions' own weights, one hash per distinct class, one
      tree update per distinct visited entry, and the on-chain length of the union of changed keys. */
  ghost function ClosedForm(casm: CasmCost, items: seq<Item>, k: Component): nat {
    SumOwn(items, k) + HashCosts(AllClasses(items), casm, k)
    + TreeWeight(|AllEntries(items)|, k) + DiffWeight(AllKeys(items), k)
  }

  ghost predicate IsBlockOf(b: Block, casm: CasmCost, items: seq<Item>) {
    && b.classes == AllClasses(items) && b.entries == AllEntries(items) && b.keys == AllKeys(items)
    && forall k: Component :: At(b.weights, k) == ClosedForm(casm, items, k)
  }

  lemma TreeWeightIsAdditive(a: nat, b: nat, k: Component)
    ensures TreeWeight(a + b, k) == TreeWeight(a, k) + TreeWeight(b, k)
  {
  }

  lemma HashingTelescopes(items: seq<Item>, item: Item, casm: CasmCost, k: Component)
    ensures var before := AllClasses(items);
      HashCosts(AllClasses(items + [item]), casm, k)
      == HashCosts(before, casm, k) + HashCosts(item.tx.classes - before, casm, k)
  {
    assert (items + [item])[..|items|] == items;
    var before := AllClasses(items);
    assert AllClasses(items + [item]) == before + (item.tx.classes - before);
    HashCostsUnion(before, item.tx.classes - before, casm, k);
  }

  lemma TreeTelescopes(items: seq<Item>, item: Item, k: Component)
    ensures TreeWeight(|AllEntries(items + [item])|, k) ==
            TreeWeight(|AllEntries(items)|, k) + TreeWeight(|item.tx.entries - AllEntries(items)|, k)
  {
    assert (items + [item])[..|items|] == items;
    var before := AllEntries(items);
    assert AllEntries(items + [item]) == before + (item.tx.entries - before);
    TreeWeightIsAdditive(|before|, |item.tx.entries - before|, k);
  }

  lemma DiffTelescopes(items: seq<Item>, item: Item, k: Component)
    ensures DiffWeight(AllKeys(items + [item]), k) ==
            DiffWeight(AllKeys(items), k) + DiffWeight(item.keys.Difference(AllKeys(items)), k)
  {
    assert (items + [item])[..|items|] == items;
    OnchainLengthTelescopes(AllKeys(items), item.keys);
  }

  lemma SumOwnAppends(items: seq<Item>, item: Item, k: Component)
    ensures SumOwn(items + [item], k) == SumOwn(items, k) + OwnWeight(item.tx, k)
  {
    assert (items + [item])[..|items|] == items;
  }

  lemma ResidualTelescopes(casm: CasmCost, b: Block, items: seq<Item>, item: Item, k: Component)
    requires IsBlockOf(b, casm, items)
    ensures ClosedForm(casm, items + [item], k) ==
            At(b.weights, k) + Residual(b, casm, item.tx, item.keys.Difference(b.keys), k)
  {
    SumOwnAppends(items, item, k);
    HashingTelescopes(items, item, casm, k);
    TreeTelescopes(items, item, k);
    DiffTelescopes(items, item, k);
  }

  lemma UpdateTelescopesAt(casm: CasmCost, b: Block, items: seq<Item>, item: Item, k: Component)
    requires IsBlockOf(b, casm, items)
    ensures At(Plus(b.weights, ResidualWeight(b, casm, item.tx, item.keys.Difference(b.keys))), k)
            == ClosedForm(casm, items + [item], k)
  {
    AtPlus(b.weights, ResidualWeight(b, casm, item.tx, item.keys.Difference(b.keys)), k);
    AtResidual(b, casm, item.tx, item.keys.Difference(b.keys), k);
    ResidualTelescopes(casm, b, items, item, k);
  }

  lemma UnionsAppend(items: seq<Item>, item: Item)
    ensures AllClasses(items + [item]) == AllClasses(items) + item.tx.classes
    ensures AllEntries(items + [item]) == AllEntries(items) + item.tx.entries
    ensures AllKeys(items + [item]) == AllKeys(items).Extend(item.keys)
  {
    assert (items + [item])[..|items|] == items;
  }

  lemma UpdateTelescopes(casm: CasmCost, b: Block, items: seq<Item>, item: Item)
    requires IsBlockOf(b, casm, items)
    ensures IsBlockOf(Updated(b, casm, item.tx, item.keys), casm, items + [item])
  {
    UnionsAppend(items, item);
    var b', all := Updated(b, casm, item.tx, item.keys), items + [item];
    forall k: Component ensures At(b'.weights, k) == ClosedForm(casm, all, k) {
      UpdateTelescopesAt(casm, b, items, item, k);
    }
  }

  predicate Fits(config: Config, w: Weights) { HasRoom(Capacity(config, UsesKeccak(w)), w) }

  lemma EmptyBlockIsClosedForm(config: Config, casm: CasmCost)
    ensures IsBlockOf(EmptyBlock(), casm, []) && Fits(config, EmptyBlock().weights)
  {
    forall k: Component ensures At(Zero(), k) == ClosedForm(casm, [], k) { AtBuild(k' => 0, k); }
  }

  /** Residual accounting telescopes: after trying any transactions from an empty block, the bouncer is the
      closed form of the accepted ones; the rejected ones left no trace. */
  lemma {:induction false} ResidualAccountingTelescopes(config: Config, casm: CasmCost, items: seq<Item>)
    ensures IsBlockOf(Tried(config, casm, items), casm, AcceptedOf(config, casm, items))
  {
    if items == [] {
      EmptyBlockIsClosedForm(config, casm);
    } else {
      var before, last := items[..|items| - 1], items[|items| - 1];
      ResidualAccountingTelescopes(config, casm, before);
      UpdateTelescopes(casm, Tried(config, casm, before), AcceptedOf(config, casm, before), last);
    }
  }

  lemma AcceptanceKeepsFit(config: Config, b: Block, w: Weights)
    requires Fits(config, b.weights)
    ensures Decide(config, b, w) == Accepted ==> Fits(config, Plus(b.weights, w))
  {
    AtBuild(k => At(b.weights, k) + At(w, k), KeccakCount);
  }

  /** Accepting a transaction keeps the closed form and the fit. */
  lemma AcceptedStep(config: Config, casm: CasmCost, b: Block, items: seq<Item>, item: Item, b': Block)
    requires IsBlockOf(b, casm, items) && Fits(config, b.weights)
    requires VerdictOf(config, b, casm, item.tx, item.keys) == Accepted
    requires b' == Updated(b, casm, item.tx, item.keys)
    ensures IsBlockOf(b', casm, items + [item]) && Fits(config, b'.weights)
  {
    UpdateTelescopes(casm, b, items, item);
    AcceptanceKeepsFit(config, b, ResidualWeight(b, casm, item.tx, item.keys.Difference(b.keys)));
  }

  /** The accumulated weights always fit the capacity selected by whether Keccak was used. */
  lemma {:induction false} WeightsFit(config: Config, casm: CasmCost, items: seq<Item>)
    ensures Fits(config, Tried(config, casm, items).weights)
    ensures var w := Tried(config, casm, items).weights;
      forall k: Component ::
        At(w, k) <= At(if w.builtinCount.keccak > 0 then config.maxCapacityWithKeccak else config.maxCapacity, k)
  {
    if items == [] {
      EmptyBlockIsClosedForm(config, casm);
    } else {
      var before, last := items[..|items| - 1], items[|items| - 1];
      var b := Tried(config, casm, before);
      WeightsFit(config, casm, before);
      AcceptanceKeepsFit(config, b, ResidualWeight(b, casm, last.tx, last.keys.Difference(b.keys)));
    }
    FitsInEveryComponent(config, Tried(config, casm, items).weights);
  }

  lemma FitsInEveryComponent(config: Config, w: Weights)
    ensures Fits(config, w) <==> forall k: Component ::
      At(w, k) <= At(if w.builtinCount.keccak > 0 then config.maxCapacityWithKeccak else config.maxCapacity, k)
  {
    HasRoomInEveryComponent(Capacity(config, UsesKeccak(w)), w);
  }

  // ----------------------------------------------------------------------------------------------
  // The closed form, component by component

  lemma {:induction false} SumOfEqual(items: seq<Item>, f: Item -> nat, g: Item -> nat)
    requires forall it: Item :: f(it) == g(it)
    ensures Sum(items, f) == Sum(items, g)
  {
    if items != [] { SumOfEqual(items[..|items| - 1], f, g); }
  }

  ghost function BuiltinOfBlock(casm: CasmCost, items: seq<Item>, k: Component, x: Builtin): nat {
    Sum(items, (it: Item) => it.tx.vmResources.Counter(x)) + HashCosts(AllClasses(items), casm, k)
  }

  lemma BuiltinsOfBlock(b: Block, casm: CasmCost, items: seq<Item>, k: Component, x: Builtin)
    requires IsBlockOf(b, casm, items)
    requires forall r: Resources :: VmWeight(r, k) == r.Counter(x)
    requires k != Gas && k != MessageSegmentLength && k != NEvents && k != StateDiffSize
    ensures At(b.weights, k) == BuiltinOfBlock(casm, items, k, x) + (if x == Pedersen then 48 * |b.entries| else 0)
  {
    SumOfEqual(items, (it: Item) => OwnWeight(it.tx, k), (it: Item) => it.tx.vmResources.Counter(x));
  }

  /** What a block weighs: messages, events and VM resources add up over its transactions; every distinct class
      is hashed once, every distinct entry updates the tree once, and the on-chain data is that of the union of
      the changed keys. */
  lemma BlockWeights(b: Block, casm: CasmCost, items: seq<Item>)
    requires IsBlockOf(b, casm, items)
    ensures b.weights.gas == Sum(items, (it: Item) => it.tx.messageGas)
    ensures b.weights.messageSegmentLength == Sum(items, (it: Item) => it.tx.messageSegmentLength)
    ensures b.weights.nEvents == Sum(items, (it: Item) => it.tx.nEvents)
    ensures b.weights.stateDiffSize == OnchainDataLength(AllKeys(items))
    ensures b.weights.nSteps == Sum(items, (it: Item) => it.tx.vmResources.TotalSteps())
                                + HashCosts(AllClasses(items), casm, NSteps) + 768 * |AllEntries(items)|
    ensures b.weights.builtinCount == BuiltinCount(
              BuiltinOfBlock(casm, items, BitwiseCount, Bitwise),
              BuiltinOfBlock(casm, items, EcdsaCount, Ecdsa),
              BuiltinOfBlock(casm, items, EcOpCount, EcOp),
              BuiltinOfBlock(casm, items, KeccakCount, Keccak),
              BuiltinOfBlock(casm, items, PedersenCount, Pedersen) + 48 * |AllEntries(items)|,
              BuiltinOfBlock(casm, items, PoseidonCount, Poseidon),
              BuiltinOfBlock(casm, items, RangeCheckCount, RangeCheck))
  {
    MessagesOfBlock(b, casm, items);
    StepsOfBlock(b, casm, items);
    BuiltinsOfBlock(b, casm, items, BitwiseCount, Bitwise);
    BuiltinsOfBlock(b, casm, items, EcdsaCount, Ecdsa);
    BuiltinsOfBlock(b, casm, items, EcOpCount, EcOp);
    BuiltinsOfBlock(b, casm, items, KeccakCount, Keccak);
    BuiltinsOfBlock(b, casm, items, PedersenCount, Pedersen);
    BuiltinsOfBlock(b, casm, items, PoseidonCount, Poseidon);
    BuiltinsOfBlock(b, casm, items, RangeCheckCount, RangeCheck);
  }

  lemma StepsOfBlock(b: Block, casm: CasmCost, items: seq<Item>)
    requires IsBlockOf(b, casm, items)
    ensures b.weights.nSteps == Sum(items, (it: Item) => it.tx.vmResources.TotalSteps())
                                + HashCosts(AllClasses(items), casm, NSteps) + 768 * |AllEntries(items)|
  {
    SumOfEqual(items, (it: Item) => OwnWeight(it.tx, NSteps), (it: Item) => it.tx.vmResources.TotalSteps());
    assert At(b.weights, NSteps) == ClosedForm(casm, items, NSteps);
  }

  lemma MessagesOfBlock(b: Block, casm: CasmCost, items: seq<Item>)
    requires IsBlockOf(b, casm, items)
    ensures b.weights.gas == Sum(items, (it: Item) => it.tx.messageGas)
    ensures b.weights.messageSegmentLength == Sum(items, (it: Item) => it.tx.messageSegmentLength)
    ensures b.weights.nEvents == Sum(items, (it: Item) => it.tx.nEvents)
    ensures b.weights.stateDiffSize == OnchainDataLength(AllKeys(items))
  {
    NothingToHash(AllClasses(items), casm, Gas);
    NothingToHash(AllClasses(items), casm, MessageSegmentLength);
    NothingToHash(AllClasses(items), casm, NEvents);
    NothingToHash(AllClasses(items), casm, StateDiffSize);
    SumOfEqual(items, (it: Item) => OwnWeight(it.tx, Gas), (it: Item) => it.tx.messageGas);
    SumOfEqual(items, (it: Item) => OwnWeight(it.tx, MessageSegmentLength), (it: Item) => it.tx.messageSegmentLength);
    SumOfEqual(items, (it: Item) => OwnWeight(it.tx, NEvents), (it: Item) => it.tx.nEvents);
    NoOwnDiff(items);
    assert At(b.weights, Gas) == ClosedForm(casm, items, Gas);
    assert At(b.weights, MessageSegmentLength) == ClosedForm(casm, items, MessageSegmentLength);
    assert At(b.weights, NEvents) == ClosedForm(casm, items, NEvents);
    assert At(b.weights, StateDiffSize) == ClosedForm(casm, items, StateDiffSize);
  }

  lemma {:induction false} NoOwnDiff(items: seq<Item>)
    ensures SumOwn(items, StateDiffSize) == 0
  {
    if items != [] { NoOwnDiff(items[..|items| - 1]); }
  }

  // ----------------------------------------------------------------------------------------------
  // Order independence

  lemma {:induction false} SumSplits(a: seq<Item>, b: seq<Item>, f: Item -> nat)
    ensures Sum(a + b, f) == Sum(a, f) + Sum(b, f)
  {
    if b == [] {
      assert a + b == a;
    } else {
      assert (a + b)[..|a + b| - 1] == a + b[..|b| - 1];
      SumSplits(a, b[..|b| - 1], f);
    }
  }

  function Without(a: seq<Item>, i: nat): seq<Item>
    requires i < |a|
  {
    a[..i] + a[i + 1..]
  }

  lemma RemovesOne(a: seq<Item>, i: nat, f: Item -> nat)
    requires i < |a|
    ensures |Without(a, i)| == |a| - 1
    ensures Sum(a, f) == Sum(Without(a, i), f) + f(a[i])
    ensures multiset(Without(a, i)) == multiset(a) - multiset{a[i]}
  {
    var init := a[..i] + [a[i]];
    assert a == init + a[i + 1..];
    assert init[..i] == a[..i];
    SumSplits(init, a[i + 1..], f);
    SumSplits(a[..i], a[i + 1..], f);
    assert multiset(a) == multiset(init) + multiset(a[i + 1..]);
  }

  lemma {:induction false} SumPermutes(a: seq<Item>, b: seq<Item>, f: Item -> nat)
    requires multiset(a) == multiset(b)
    ensures Sum(a, f) == Sum(b, f)
    decreases |a|
  {
    assert |a| == |multiset(a)| == |multiset(b)| == |b|;
    if a != [] {
      assert a[0] in multiset(b);
      var i :| 0 <= i < |b| && b[i] == a[0];
      var restA, restB := Without(a, 0), Without(b, i);
      RemovesOne(a, 0, f);
      RemovesOne(b, i, f);
      SumPermutes(restA, restB, f);
    }
  }

  lemma {:induction false} UnionsByMembers(items: seq<Item>)
    ensures forall c :: c in AllClasses(items) <==> exists it :: it in items && c in it.tx.classes
    ensures forall e :: e in AllEntries(items) <==> exists it :: it in items && e in it.tx.entries
    ensures forall c :: c in AllKeys(items).cells <==> exists it :: it in items && c in it.keys.cells
    ensures forall a :: a in AllKeys(items).modifiedContracts <==>
      exists it :: it in items && a in it.keys.modifiedContracts
  {
    if items != [] {
      var before := items[..|items| - 1];
      UnionsByMembers(before);
      assert items == before + [items[|items| - 1]];
    }
  }

  lemma SameUnions(a: seq<Item>, b: seq<Item>)
    requires multiset(a) == multiset(b)
    ensures AllClasses(a) == AllClasses(b) && AllEntries(a) == AllEntries(b) && AllKeys(a) == AllKeys(b)
  {
    UnionsByMembers(a);
    UnionsByMembers(b);
    forall it: Item ensures it in a <==> it in b { assert it in a <==> it in multiset(a); }
    assert AllKeys(a).cells == AllKeys(b).cells && AllKeys(a).modifiedContracts == AllKeys(b).modifiedContracts;
  }

  /** The final bouncer does not depend on the order in which the same transactions were accepted. */
  lemma OrderDoesNotMatter(config: Config, casm: CasmCost, items: seq<Item>, items': seq<Item>)
    requires multiset(AcceptedOf(config, casm, items)) == multiset(AcceptedOf(config, casm, items'))
    ensures Tried(config, casm, items) == Tried(config, casm, items')
  {
    var a, b := AcceptedOf(config, casm, items), AcceptedOf(config, casm, items');
    ResidualAccountingTelescopes(config, casm, items);
    ResidualAccountingTelescopes(config, casm, items');
    SameUnions(a, b);
    var x, y := Tried(config, casm, items), Tried(config, casm, items');
    forall k: Component ensures At(x.weights, k) == At(y.weights, k) {
      SumPermutes(a, b, (it: Item) => OwnWeight(it.tx, k));
    }
    SameComponents(x.weights, y.weights);
  }
}
