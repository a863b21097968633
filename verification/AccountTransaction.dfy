/** The fee pipeline of an account transaction: pre-validation, validation, execution or revert, and the fee
    transfer.

    User code is represented by the operations it performs on the state it is given; gas is an arbitrary
    function of the state changes a receipt is computed from. */
module AccountTransaction {
  import opened Cells
  import opened Fees
  import opened LayeredState
  import opened StateChanges
  import C = CachedState

  /** The transaction and its block; `balanceKey` and `sequencerKey` are where the fee token keeps the balances of
      the sender and of the sequencer. */
  datatype Context = Context(
    info: TxInfo, prices: GasPrices, version: nat, nonce: Felt, sender: Address, feeToken: Address, balanceKey: Felt,
    concurrencyMode: bool, sequencer: Address, sequencerKey: Felt)
  {
    predicate IsV0() { version == 0 }
    function LowCell(): Cell { Storage(feeToken, balanceKey) }
    function HighCell(): Cell { Storage(feeToken, balanceKey + 1) }
    function SequencerCells(): set<Cell> { {Storage(feeToken, sequencerKey), Storage(feeToken, sequencerKey + 1)} }
  }

  datatype Kind = Declare | DeployAccount | Invoke

  /** What the code involved does: `deployed` are the contracts validation deploys, and `transferOk` tells
      whether the fee token, run on a state that shows the given values, transfers an amount. */
  datatype Code = Code(
    kind: Kind,
    validateOps: seq<Op>, validateOk: bool, deployed: set<Address>,
    executeOps: seq<Op>, executeOk: bool,
    transferOps: nat -> seq<Op>, transferOk: (Reader, nat) -> bool,
    minimalGas: GasVector,
    revertGas: Values -> GasVector,
    fullGas: Values -> GasVector)

  /** In validate mode a contract can call no other, so validation writes the storage of the sender and of
      contracts it deploys; the fee token is deployed already. */
  ghost predicate ValidatesOwnStorage(ctx: Context, code: Code) {
    && ctx.feeToken !in code.deployed
    && forall op | op in code.validateOps :: op.Set? && op.cell.Storage? ==>
         op.cell.address == ctx.sender || op.cell.address in code.deployed
  }

  ghost predicate CodeOk(ctx: Context, code: Code) {
    && SelfContained(code.validateOps) && SelfContained(code.executeOps)
    && (forall fee :: SelfContained(code.transferOps(fee)))
    && ValidatesOwnStorage(ctx, code)
    && GasFits(code.minimalGas, ctx.prices.Gas(FeeTypeOf(ctx.info)), ctx.prices.DataGas(FeeTypeOf(ctx.info)))
    && forall v :: FitsFor(ctx.info, ctx.prices, code.revertGas(v)) && FitsFor(ctx.info, ctx.prices, code.fullGas(v))
  }

  /** The sender's fee-token balance in a state. */
  function BalanceIn(reader: Reader, stack: seq<Values>, ctx: Context): Option<Balance> {
    var low, high := Top(reader, stack, ctx.LowCell()), Top(reader, stack, ctx.HighCell());
    if low.Some? && high.Some? then Some(Balance(low.value, high.value)) else None
  }

  predicate CanPay(reader: Reader, stack: seq<Values>, ctx: Context, fee: nat) {
    var b := BalanceIn(reader, stack, ctx);
    b.Some? && Covers(b.value, fee)
  }

  const U64_MAX: int := 0xFFFF_FFFF_FFFF_FFFF

  method ReadBalance(state: C.CachedState, ctx: Context) returns (b: Option<Balance>)
    requires state.Valid()
    modifies state`caches
    ensures state.Valid() && state.Stack() == old(state.Stack())
    ensures b == BalanceIn(state.reader, state.Stack(), ctx)
    ensures var low, high := state.View(Storage(ctx.feeToken, ctx.balanceKey)),
                             state.View(Storage(ctx.feeToken, ctx.balanceKey + 1));
      b == if low.Some? && high.Some? then Some(Balance(low.value, high.value)) else None
  {
    var low := state.Get(ctx.LowCell());
    if low.None? {
      return None;
    }
    var high := state.Get(ctx.HighCell());
    b := if high.None? then None else Some(Balance(low.value, high.value));
  }

  method Perform(state: C.CachedState, ops: seq<Op>)
    requires state.Valid() && SelfContained(ops)
    modifies state`caches
    ensures state.Valid() && state.Stack() == After(state.reader, old(state.Stack()), ops)
  {
    SelfContainedAnywhere(ops, |state.Stack()|, 1);
    var _ := state.Perform(ops);
  }

  // ----------------------------------------------------------------------------------------------
  // Pre-validation

  /** The account's nonce is the transaction's, or, if the check is not strict, not beyond it; and it can be
      converted. */
  predicate NonceAccepted(reader: Reader, stack: seq<Values>, ctx: Context, strict: bool) {
    ctx.IsV0() ||
    match Top(reader, stack, Nonce(ctx.sender))
    case None => false
    case Some(n) => (if strict then n == ctx.nonce else n <= ctx.nonce) && n as int <= U64_MAX
  }

  /** The next nonce; the 64-bit addition wraps. */
  function NextNonce(nonce: Felt): Felt { ((nonce as int + 1) % (U64_MAX + 1)) as Felt }

  function NonceBumped(reader: Reader, stack: seq<Values>, ctx: Context): (r: seq<Values>)
    requires |stack| >= 1
    ensures |r| == |stack|
  {
    var nonce := Top(reader, stack, Nonce(ctx.sender));
    if ctx.IsV0() || nonce.None? then stack else Apply(stack, Set(Nonce(ctx.sender), NextNonce(nonce.value)))
  }

  /** `handle_nonce`. */
  method HandleNonce(state: C.CachedState, ctx: Context, strict: bool) returns (ok: bool)
    requires state.Valid()
    modifies state`caches
    ensures state.Valid()
    ensures ok <==> NonceAccepted(state.reader, old(state.Stack()), ctx, strict)
    ensures state.Stack() == if ok then NonceBumped(state.reader, old(state.Stack()), ctx) else old(state.Stack())
    ensures var current := old(state.View(Nonce(ctx.sender)));
      ok <==>
        || ctx.version == 0
        || (&& current.Some? && current.value <= ctx.nonce && (strict ==> current.value == ctx.nonce)
            && current.value as int < 0x1_0000_0000_0000_0000)
    ensures forall c ::
      state.View(c) ==
        if ok && ctx.version != 0 && c == Nonce(ctx.sender)
        then var n := old(state.View(c)).value; Some(if n == 0xFFFF_FFFF_FFFF_FFFF then 0 else n + 1)
        else old(state.View(c))
  {
    if ctx.IsV0() {
      return true;
    }
    var nonce := state.Get(Nonce(ctx.sender));
    if nonce.None? {
      return false;
    }
    var valid := if strict then nonce.value == ctx.nonce else nonce.value <= ctx.nonce;
    if !valid || nonce.value as int > U64_MAX {
      return false;
    }
    state.Set(Nonce(ctx.sender), NextNonce(nonce.value));
    ok := true;
  }

  datatype BoundsCheck = Within | TooLow | ConversionFails

  /** `check_fee_bounds`; reporting an amount bound that is too low converts the minimal gas to 64 bits. */
  function CheckFeeBounds(ctx: Context, minimalGas: GasVector): BoundsCheck
    requires GasFits(minimalGas, ctx.prices.Gas(FeeTypeOf(ctx.info)), ctx.prices.DataGas(FeeTypeOf(ctx.info)))
  {
    match ctx.info
    case Current(None) => TooLow
    case Current(Some(b)) =>
      var gas := DiscountedGas(minimalGas, ctx.prices.strkL1, ctx.prices.strkL1Data);
      if b.maxAmount < gas then (if gas > U64_MAX then ConversionFails else TooLow)
      else if b.maxPrice < ctx.prices.strkL1 then TooLow
      else Within
    case Deprecated(maxFee) => if maxFee < CostOf(ctx.info, ctx.prices, minimalGas) then TooLow else Within
  }

  /** What pre-validation guarantees when fees are charged: the bounds are there, and when they are enforced the
      sender accepts the current gas price and could pay everything it committed to. */
  predicate Prepared(reader: Reader, stack: seq<Values>, ctx: Context, chargeFee: bool)
    requires BoundsFit(ctx.info)
  {
    chargeFee ==>
      && ctx.info != Current(None)
      && (EnforceFee(ctx.info) == Some(true) ==>
            PriceAccepted(ctx.info, ctx.prices) && CanPay(reader, stack, ctx, Committed(ctx.info).value))
  }

  ghost predicate PreValidates(
      reader: Reader, start: seq<Values>, ctx: Context, code: Code, chargeFee: bool, strict: bool)
    requires |start| >= 1 && BoundsFit(ctx.info) && CodeOk(ctx, code)
  {
    && NonceAccepted(reader, start, ctx, strict)
    && Prepared(reader, NonceBumped(reader, start, ctx), ctx, chargeFee)
    && (chargeFee && EnforceFee(ctx.info) == Some(true) ==> CheckFeeBounds(ctx, code.minimalGas) == Within)
  }

  /** Exactly when pre-validation panics: the minimal gas exceeds both the sender's bound and 64 bits. */
  ghost predicate PreValidationPanics(
      reader: Reader, start: seq<Values>, ctx: Context, code: Code, chargeFee: bool, strict: bool)
    requires |start| >= 1 && BoundsFit(ctx.info) && CodeOk(ctx, code)
  {
    && chargeFee && NonceAccepted(reader, start, ctx, strict) && EnforceFee(ctx.info) == Some(true)
    && ctx.info.Current? && ctx.info.l1Bounds.Some?
    && var gas := DiscountedGas(code.minimalGas, ctx.prices.strkL1, ctx.prices.strkL1Data);
       gas > ctx.info.l1Bounds.value.maxAmount && gas > U64_MAX
  }

  /** The fee checks in sums of gas times price: the minimal gas costs no more than the bound, the price is
      accepted, and the balance covers what the sender committed to. */
  lemma FeeChecksInPrices(reader: Reader, start: seq<Values>, ctx: Context, code: Code, strict: bool)
    requires |start| >= 1 && BoundsFit(ctx.info) && CodeOk(ctx, code)
    ensures PreValidates(reader, start, ctx, code, false, strict) <==> NonceAccepted(reader, start, ctx, strict)
    ensures PreValidates(reader, start, ctx, code, true, strict) <==>
      && NonceAccepted(reader, start, ctx, strict)
      && var low, high := Top(reader, start, Storage(ctx.feeToken, ctx.balanceKey)),
                          Top(reader, start, Storage(ctx.feeToken, ctx.balanceKey + 1));
         var gas, prices := code.minimalGas, ctx.prices;
         match ctx.info
         case Current(None) => false
         case Current(Some(b)) =>
           b.maxAmount > 0 && b.maxPrice > 0 ==>
             && gas.l1Gas * prices.strkL1 + gas.l1DataGas * prices.strkL1Data <= b.maxAmount * prices.strkL1
             && prices.strkL1 <= b.maxPrice
             && low.Some? && high.Some? && (high.value > 0 || low.value as int >= b.maxAmount * b.maxPrice)
         case Deprecated(maxFee) =>
           maxFee > 0 ==>
             && Saturate(gas.l1Gas * prices.ethL1 + gas.l1DataGas * prices.ethL1Data) <= maxFee
             && low.Some? && high.Some? && (high.value > 0 || low.value as int >= maxFee)
  {
    EnforcedIfCommitted(ctx.info);
    NonceKeepsBalance(reader, start, ctx);
    if ctx.info != Current(None) { MinimalGasWithinBounds(ctx, code); }
  }

  lemma MinimalGasWithinBounds(ctx: Context, code: Code)
    requires BoundsFit(ctx.info) && CodeOk(ctx, code) && ctx.info != Current(None)
    ensures EnforceFee(ctx.info) == Some(true) && CheckFeeBounds(ctx, code.minimalGas) == Within <==>
      match ctx.info
      case Current(Some(b)) =>
        && b.maxAmount > 0 && b.maxPrice > 0 && ctx.prices.strkL1 <= b.maxPrice
        && code.minimalGas.l1Gas * ctx.prices.strkL1 + code.minimalGas.l1DataGas * ctx.prices.strkL1Data
           <= b.maxAmount * ctx.prices.strkL1
      case Deprecated(maxFee) =>
        && maxFee > 0
        && Saturate(code.minimalGas.l1Gas * ctx.prices.ethL1 + code.minimalGas.l1DataGas * ctx.prices.ethL1Data)
           <= maxFee
  {
    EnforcedIfCommitted(ctx.info);
    match ctx.info {
      case Current(Some(b)) =>
        DiscountedGasIsLeast(code.minimalGas, ctx.prices.strkL1, ctx.prices.strkL1Data, b.maxAmount);
      case Deprecated(_) => SaturatesOnce(code.minimalGas, ctx.prices.ethL1, ctx.prices.ethL1Data);
    }
  }

  lemma NonceKeepsBalance(reader: Reader, start: seq<Values>, ctx: Context)
    requires |start| >= 1
    ensures BalanceIn(reader, NonceBumped(reader, start, ctx), ctx) == BalanceIn(reader, start, ctx)
  {
    var nonce := Top(reader, start, Nonce(ctx.sender));
    if !ctx.IsV0() && nonce.Some? {
      var op := Set(Nonce(ctx.sender), NextNonce(nonce.value));
      ShowsAfterOp(reader, start, op, ctx.LowCell(), 0);
      ShowsAfterOp(reader, start, op, ctx.HighCell(), 0);
    }
  }

  datatype Stage = Passed | Refused | Panics

  /** The fee checks of pre-validation: `check_fee_bounds` and `verify_can_pay_committed_bounds`. */
  method CheckFees(state: C.CachedState, ctx: Context, code: Code) returns (stage: Stage)
    requires state.Valid() && BoundsFit(ctx.info) && CodeOk(ctx, code)
    modifies state`caches
    ensures state.Valid() && state.Stack() == old(state.Stack())
    ensures stage.Passed? <==>
      && Prepared(state.reader, state.Stack(), ctx, true)
      && (EnforceFee(ctx.info) == Some(true) ==> CheckFeeBounds(ctx, code.minimalGas) == Within)
    ensures stage.Panics? <==>
      EnforceFee(ctx.info) == Some(true) && CheckFeeBounds(ctx, code.minimalGas) == ConversionFails
  {
    match EnforceFee(ctx.info) {
      case None => stage := Refused;
      case Some(false) => stage := Passed;
      case Some(true) =>
        match CheckFeeBounds(ctx, code.minimalGas) {
          case ConversionFails => return Panics;
          case TooLow => return Refused;
          case Within =>
        }
        var balance := ReadBalance(state, ctx);
        stage := if balance.Some? && Covers(balance.value, Committed(ctx.info).value) then Passed else Refused;
    }
  }

  method PerformPreValidationStage(state: C.CachedState, ctx: Context, code: Code, chargeFee: bool, strict: bool)
    returns (stage: Stage)
    requires state.Valid() && BoundsFit(ctx.info) && CodeOk(ctx, code)
    modifies state`caches
    ensures state.Valid() && |state.Stack()| == |old(state.Stack())|
    ensures stage.Passed? ==> state.Stack() == NonceBumped(state.reader, old(state.Stack()), ctx)
    ensures stage.Passed? <==> PreValidates(state.reader, old(state.Stack()), ctx, code, chargeFee, strict)
    ensures stage.Panics? <==> PreValidationPanics(state.reader, old(state.Stack()), ctx, code, chargeFee, strict)
    ensures stage.Passed? && chargeFee ==>
      match ctx.info
      case Current(None) => false
      case Current(Some(b)) =>
        b.maxAmount > 0 && b.maxPrice > 0 ==>
          && ctx.prices.strkL1 <= b.maxPrice
          && code.minimalGas.l1Gas * ctx.prices.strkL1 + code.minimalGas.l1DataGas * ctx.prices.strkL1Data
             <= b.maxAmount * ctx.prices.strkL1
      case Deprecated(maxFee) =>
        maxFee > 0 ==>
          Saturate(code.minimalGas.l1Gas * ctx.prices.ethL1 + code.minimalGas.l1DataGas * ctx.prices.ethL1Data)
          <= maxFee
  {
    var ok := HandleNonce(state, ctx, strict);
    if !ok {
      return Refused;
    }
    if !chargeFee {
      return Passed;
    }
    stage := CheckFees(state, ctx, code);
    if stage.Passed? {
      EnforcedIfCommitted(ctx.info);
      MinimalGasWithinBounds(ctx, code);
    }
  }

  /** A minimal gas of 2^64 against an amount bound of one. */
  lemma MinimalGasMayPanic() returns (reader: Reader, ctx: Context, code: Code)
    ensures BoundsFit(ctx.info) && CodeOk(ctx, code) && PreValidationPanics(reader, [map[]], ctx, code, true, true)
  {
    reader := _ => Some(0);
    ctx := Context(Current(Some(Bounds(1, 1))), GasPrices(1, 1, 1, 1), 3, 0, 1, 2, 0, false, 3, 10);
    code := Code(Invoke, [], true, {}, [], true, _ => [], (_, _) => true, GasVector(0x1_0000_0000_0000_0000, 0),
                 _ => GasVector(0, 0), _ => GasVector(0, 0));
    assert SelfContained([]);
    CeilDivZero(1);
  }

  // ----------------------------------------------------------------------------------------------
  // What running a transaction means

  datatype Final = Final(fee: nat, reverted: bool)

  /** The post-execution report of a transaction that left `ran` and consumed `gas`. */
  function ReportOn(reader: Reader, ran: seq<Values>, ctx: Context, gas: GasVector, chargeFee: bool)
    : Option<Fees.Report>
    requires BoundsFit(ctx.info) && FitsFor(ctx.info, ctx.prices, gas)
  {
    var receipt := ReceiptOf(ctx.info, ctx.prices, gas);
    if receipt.None? then None
    else PostExecutionReport(ctx.info, ctx.prices, receipt.value, BalanceIn(reader, ran, ctx), chargeFee)
  }

  predicate Rejected(reader: Reader, ran: seq<Values>, ctx: Context, gas: GasVector, chargeFee: bool)
    requires BoundsFit(ctx.info) && FitsFor(ctx.info, ctx.prices, gas)
  {
    var report := ReportOn(reader, ran, ctx, gas, chargeFee);
    report.Some? && report.value.error.Some?
  }

  ghost function Validated(reader: Reader, start: seq<Values>, code: Code): (r: seq<Values>)
    requires |start| >= 1 && SelfContained(code.validateOps)
    ensures |r| == |start|
  {
    After(reader, start, code.validateOps)
  }

  /** The state a revertible transaction is charged for: failed execution leaves what validation left. */
  ghost function Ran(reader: Reader, validated: seq<Values>, code: Code): (r: seq<Values>)
    requires |validated| >= 1 && SelfContained(code.executeOps)
    ensures |r| == |validated|
  {
    if code.executeOk then After(reader, validated, code.executeOps) else validated
  }

  function GasOf(code: Code, charged: Values): GasVector {
    if code.executeOk then code.fullGas(charged) else code.revertGas(charged)
  }

  /** The changes a revertible transaction is charged for: they lead from what its parent shows to what it ran
      to, and hold exactly the storage, nonce and class-hash cells that validation or execution changed. */
  ghost predicate IsChargedFor(reader: Reader, validated: seq<Values>, ran: seq<Values>, charged: Values)
    requires |validated| >= 1 && |ran| >= 1
  {
    && IsDiff(ParentView(reader, ran), TopView(reader, ran), charged)
    && forall c: Cell | !c.CompiledClassHash? :: c in charged <==>
         || TopView(reader, validated)(c) != ParentView(reader, validated)(c)
         || TopView(reader, ran)(c) != TopView(reader, validated)(c)
  }

  /** A revertible transaction is charged for all that changed between its parent state and the state it ran
      to; the execution is kept exactly when it succeeded and the report has no error. */
  ghost predicate ExecutionOutcome(
      reader: Reader, validated: seq<Values>, ctx: Context, code: Code, chargeFee: bool,
      charged: Values, final: Final, end: seq<Values>)
    requires |validated| >= 1 && BoundsFit(ctx.info) && CodeOk(ctx, code)
  {
    var ran := Ran(reader, validated, code);
    var report := ReportOn(reader, ran, ctx, GasOf(code, charged), chargeFee);
    && IsChargedFor(reader, validated, ran, charged)
    && report.Some?
    && final == Final(report.value.recommendedFee, !code.executeOk || report.value.error.Some?)
    && end == if final.reverted then validated else ran
  }

  ghost predicate RevertibleOutcome(
      reader: Reader, start: seq<Values>, ctx: Context, code: Code, chargeFee: bool,
      charged: Values, final: Final, end: seq<Values>)
    requires |start| >= 1 && BoundsFit(ctx.info) && CodeOk(ctx, code)
  {
    && code.validateOk
    && ExecutionOutcome(reader, Validated(reader, start, code), ctx, code, chargeFee, charged, final, end)
  }

  /** Deploying an account executes before it validates. */
  ghost function RanAll(reader: Reader, start: seq<Values>, code: Code): (r: seq<Values>)
    requires |start| >= 1 && SelfContained(code.validateOps) && SelfContained(code.executeOps)
    ensures |r| == |start|
  {
    if code.kind.DeployAccount?
    then After(reader, After(reader, start, code.executeOps), code.validateOps)
    else After(reader, After(reader, start, code.validateOps), code.executeOps)
  }

  /** A non-revertible transaction stands only if everything succeeded. */
  ghost predicate NonRevertibleOutcome(
      reader: Reader, start: seq<Values>, ctx: Context, code: Code, chargeFee: bool,
      charged: Values, final: Final, end: seq<Values>)
    requires |start| >= 1 && BoundsFit(ctx.info) && CodeOk(ctx, code)
  {
    var report := ReportOn(reader, end, ctx, code.fullGas(charged), chargeFee);
    && code.validateOk && code.executeOk
    && end == RanAll(reader, start, code)
    && IsExactDiff(ParentView(reader, end), TopView(reader, end), charged)
    && report.Some? && report.value.error.None?
    && final == Final(report.value.recommendedFee, false)
  }

  /** Everything can be read. */
  ghost predicate Total(reader: Reader) { forall c :: reader(c).Some? }

  lemma {:induction false} TotalShows(reader: Reader, stack: seq<Values>, d: nat, c: Cell)
    requires Total(reader) && d <= |stack|
    ensures Shown(reader, stack, d, c).Some?
  {
    if d > 0 { TotalShows(reader, stack, d - 1, c); }
  }

  lemma TotalShowsAll(reader: Reader, stack: seq<Values>)
    ensures Total(reader) ==> forall d: nat, c | d <= |stack| :: Shown(reader, stack, d, c).Some?
  {
    if Total(reader) {
      forall d: nat, c | d <= |stack| ensures Shown(reader, stack, d, c).Some? { TotalShows(reader, stack, d, c); }
    }
  }

  // ----------------------------------------------------------------------------------------------
  // Running a transaction

  /** The receipt and `PostExecutionReport::new` on the current state. */
  method Report(state: C.CachedState, ctx: Context, gas: GasVector, chargeFee: bool) returns (r: Option<Fees.Report>)
    requires state.Valid() && BoundsFit(ctx.info) && FitsFor(ctx.info, ctx.prices, gas)
    modifies state`caches
    ensures state.Valid() && state.Stack() == old(state.Stack())
    ensures r == ReportOn(state.reader, state.Stack(), ctx, gas, chargeFee)
    ensures Total(state.reader) ==> (r.None? <==> ctx.info == Current(None))
  {
    TotalShowsAll(state.reader, state.Stack());
    var receipt := ReceiptOf(ctx.info, ctx.prices, gas);
    if receipt.None? {
      return None;
    }
    var balance := ReadBalance(state, ctx);
    r := PostExecutionReport(ctx.info, ctx.prices, receipt.value, balance, chargeFee);
  }

  /** The changes of the topmost state relative to its parent. */
  method Changes(state: C.CachedState) returns (r: Option<Values>)
    requires state.Valid()
    modifies state`caches
    ensures state.Valid() && state.Stack() == old(state.Stack())
    ensures r.Some? ==>
      IsExactDiff(ParentView(state.reader, state.Stack()), TopView(state.reader, state.Stack()), r.value)
    ensures Total(state.reader) ==> r.Some?
  {
    TotalShowsAll(state.reader, state.Stack());
    r := state.GetActualStateChanges();
  }

  /** `run_non_revertible`: validation and execution on the state itself. */
  method RunNonRevertible(state: C.CachedState, ctx: Context, code: Code, chargeFee: bool)
    returns (r: Option<Final>, ghost charged: Values)
    requires state.Valid() && BoundsFit(ctx.info) && CodeOk(ctx, code)
    modifies state`caches
    ensures state.Valid() && |state.Stack()| == |old(state.Stack())|
    ensures r.Some? ==>
      NonRevertibleOutcome(state.reader, old(state.Stack()), ctx, code, chargeFee, charged, r.value, state.Stack())
    ensures r.None? && Total(state.reader) ==>
      || !code.validateOk || !code.executeOk || ctx.info == Current(None)
      || Rejected(state.reader, RanAll(state.reader, old(state.Stack()), code), ctx, code.fullGas(charged), chargeFee)
  {
    charged := map[];
    if code.kind.DeployAccount? {
      if !code.executeOk { return None, charged; }
      Perform(state, code.executeOps);
      if !code.validateOk { return None, charged; }
      Perform(state, code.validateOps);
    } else {
      if !code.validateOk { return None, charged; }
      Perform(state, code.validateOps);
      if !code.executeOk { return None, charged; }
      Perform(state, code.executeOps);
    }
    var changes := Changes(state);
    if changes.None? {
      return None, charged;
    }
    charged := changes.value;
    var report := Report(state, ctx, code.fullGas(changes.value), chargeFee);
    if report.None? || report.value.error.Some? {
      return None, charged;
    }
    r := Some(Final(report.value.recommendedFee, false));
  }

  /** `run_revertible`: if execution fails, or its cost cannot be charged, only validation is kept and the fee is
      the one the report recommends. */
  method RunRevertible(state: C.CachedState, ctx: Context, code: Code, chargeFee: bool)
    returns (r: Option<Final>, ghost charged: Values)
    requires state.Valid() && BoundsFit(ctx.info) && CodeOk(ctx, code)
    modifies state`caches
    ensures state.Valid() && |state.Stack()| == |old(state.Stack())|
    ensures r.Some? ==>
      RevertibleOutcome(state.reader, old(state.Stack()), ctx, code, chargeFee, charged, r.value, state.Stack())
    ensures Total(state.reader) ==> (r.None? <==> !code.validateOk || ctx.info == Current(None))
  {
    charged := map[];
    Perform(state, code.validateOps);
    if !code.validateOk {
      return None, charged;
    }
    var validateChanges := Changes(state);
    if validateChanges.None? {
      return None, charged;
    }
    r, charged := ExecuteOrRevert(state, ctx, code, chargeFee, validateChanges.value);
  }

  /** Execution in a transactional state of its own, committed upon success and aborted otherwise. */
  method ExecuteOrRevert(state: C.CachedState, ctx: Context, code: Code, chargeFee: bool, validateChanges: Values)
    returns (r: Option<Final>, ghost charged: Values)
    requires state.Valid() && BoundsFit(ctx.info) && CodeOk(ctx, code)
    requires IsExactDiff(ParentView(state.reader, state.Stack()), TopView(state.reader, state.Stack()), validateChanges)
    modifies state`caches
    ensures state.Valid() && |state.Stack()| == |old(state.Stack())|
    ensures r.None? ==> state.Stack() == old(state.Stack())
    ensures r.Some? ==>
      ExecutionOutcome(state.reader, old(state.Stack()), ctx, code, chargeFee, charged, r.value, state.Stack())
    ensures Total(state.reader) ==> (r.None? <==> ctx.info == Current(None))
  {
    ghost var validated := state.Stack();
    state.CreateTransactional();
    Perform(state, code.executeOps);
    if code.executeOk {
      r, charged := KeepOrRevert(state, ctx, code, chargeFee, validateChanges, validated);
    } else {
      charged := validateChanges;
      TransactionLayer(state.reader, validated, code.executeOps);
      state.AbortTransactional();
      var report := Report(state, ctx, code.revertGas(validateChanges), chargeFee);
      r := if report.None? then None else Some(Final(report.value.recommendedFee, true));
    }
  }

  /** The checks after a successful execution. */
  method KeepOrRevert(
      state: C.CachedState, ctx: Context, code: Code, chargeFee: bool, validateChanges: Values,
      ghost validated: seq<Values>)
    returns (r: Option<Final>, ghost charged: Values)
    requires state.Valid() && BoundsFit(ctx.info) && CodeOk(ctx, code) && code.executeOk && |validated| >= 1
    requires IsExactDiff(ParentView(state.reader, validated), TopView(state.reader, validated), validateChanges)
    requires state.Stack() == After(state.reader, Apply(validated, Begin), code.executeOps)
    modifies state`caches
    ensures state.Valid() && |state.Stack()| == |validated|
    ensures r.None? ==> state.Stack() == validated
    ensures r.Some? ==> ExecutionOutcome(state.reader, validated, ctx, code, chargeFee, charged, r.value, state.Stack())
    ensures Total(state.reader) ==> (r.None? <==> ctx.info == Current(None))
  {
    ghost var reader, executing := state.reader, state.Stack();
    TransactionLayer(reader, validated, code.executeOps);
    charged := map[];
    var executeChanges := Changes(state);
    if executeChanges.None? {
      state.AbortTransactional();
      return None, charged;
    }
    MergedDescribesBoth(reader, validated, executing, code.executeOps, validateChanges, executeChanges.value);
    var merged := Merge([validateChanges, executeChanges.value]);
    charged := merged;
    var report := Report(state, ctx, code.fullGas(merged), chargeFee);
    ghost var ran := After(reader, validated, code.executeOps);
    ReportOnSameBalance(reader, executing, ran, ctx, code.fullGas(merged), chargeFee);
    if report.None? || report.value.error.Some? {
      state.AbortTransactional();
      r := if report.None? then None else Some(Final(report.value.recommendedFee, true));
    } else {
      state.CommitTransactional();
      r := Some(Final(report.value.recommendedFee, false));
    }
  }

  lemma ReportOnSameBalance(
      reader: Reader, a: seq<Values>, b: seq<Values>, ctx: Context, gas: GasVector, chargeFee: bool)
    requires BoundsFit(ctx.info) && FitsFor(ctx.info, ctx.prices, gas)
    requires forall c :: Top(reader, a, c) == Top(reader, b, c)
    ensures ReportOn(reader, a, ctx, gas, chargeFee) == ReportOn(reader, b, ctx, gas, chargeFee)
  {
  }

  lemma ExecutionViews(reader: Reader, validated: seq<Values>, ops: seq<Op>)
    requires |validated| >= 1 && SelfContained(ops)
    ensures var executing, stack := After(reader, Apply(validated, Begin), ops), After(reader, validated, ops);
      && SameView(ParentView(reader, executing), TopView(reader, validated))
      && SameView(TopView(reader, executing), TopView(reader, stack))
      && SameView(ParentView(reader, validated), ParentView(reader, stack))
  {
    var m, stack := |validated| - 1, After(reader, validated, ops);
    TransactionLayer(reader, validated, ops);
    SelfContainedAnywhere(ops, m + 1, m + 1);
    BlockKeepsLower(reader, validated, ops, m + 1);
    forall c ensures Shown(reader, stack, m, c) == Shown(reader, validated, m, c) {
      ShownDependsOnPrefix(reader, stack, validated, m, c);
    }
  }

  /** The merged changes are what the transaction is charged for. */
  lemma MergedDescribesBoth(
      reader: Reader, validated: seq<Values>, executing: seq<Values>, ops: seq<Op>,
      validateChanges: Values, executeChanges: Values)
    requires |validated| >= 1 && SelfContained(ops) && executing == After(reader, Apply(validated, Begin), ops)
    requires IsExactDiff(ParentView(reader, validated), TopView(reader, validated), validateChanges)
    requires IsExactDiff(ParentView(reader, executing), TopView(reader, executing), executeChanges)
    ensures IsChargedFor(reader, validated, After(reader, validated, ops), MergeAll([validateChanges, executeChanges]))
  {
    var stack, merged := After(reader, validated, ops), MergeAll([validateChanges, executeChanges]);
    var before, middle, after := ParentView(reader, validated), TopView(reader, validated), TopView(reader, stack);
    ExecutionViews(reader, validated, ops);
    DiffOfSameViews(ParentView(reader, executing), TopView(reader, executing), middle, after, executeChanges);
    MergeTwo(before, middle, after, validateChanges, executeChanges);
    DiffOfSameViews(before, after, ParentView(reader, stack), after, merged);
  }

  // ----------------------------------------------------------------------------------------------
  // The fee

  /** The fee is within what the sender committed to. */
  predicate FeeInBounds(ctx: Context, fee: nat)
    requires BoundsFit(ctx.info)
  {
    Committed(ctx.info).Some? && fee <= Committed(ctx.info).value
  }

  function Smaller(a: nat, b: nat): nat { if a <= b then a else b }

  /** What the sender is charged for `gas`: nothing if fees are not enforced, else the cost up to the bound. */
  function ChargeFor(ctx: Context, gas: GasVector): nat
    requires BoundsFit(ctx.info) && ctx.info != Current(None)
  {
    if EnforceFee(ctx.info) == Some(true)
    then Smaller(CostOf(ctx.info, ctx.prices, gas), BoundAtCurrentPrice(ctx.info, ctx.prices)) else 0
  }

  lemma ChargeInBounds(ctx: Context, gas: GasVector)
    requires BoundsFit(ctx.info) && ctx.info != Current(None)
    requires EnforceFee(ctx.info) == Some(true) ==> PriceAccepted(ctx.info, ctx.prices)
    ensures FeeInBounds(ctx, ChargeFor(ctx, gas))
  {
    if EnforceFee(ctx.info) == Some(true) { BoundWithinCommitted(ctx.info, ctx.prices); }
  }

  /** The charge in prices: transactions with a maximal fee pay in the L1 token, others in the L2 token. */
  lemma ChargeInPrices(ctx: Context, gas: GasVector)
    requires BoundsFit(ctx.info) && ctx.info != Current(None)
    ensures ChargeFor(ctx, gas) ==
            match ctx.info
            case Deprecated(maxFee) =>
              var cost := gas.l1Gas * ctx.prices.ethL1 + gas.l1DataGas * ctx.prices.ethL1Data;
              if cost <= maxFee then cost else maxFee
            case Current(Some(b)) =>
              var cost := gas.l1Gas * ctx.prices.strkL1 + gas.l1DataGas * ctx.prices.strkL1Data;
              if b.maxAmount == 0 || b.maxPrice == 0 then 0
              else Saturate(if cost <= b.maxAmount * ctx.prices.strkL1 then cost else b.maxAmount * ctx.prices.strkL1)
  {
    EnforcedIfCommitted(ctx.info);
    SaturatesOnce(gas, ctx.prices.strkL1, ctx.prices.strkL1Data);
    SaturatesOnce(gas, ctx.prices.ethL1, ctx.prices.ethL1Data);
    assert 0 * ctx.prices.strkL1Data == 0;
  }

  /** Validation cannot move the sender's balance, unless the sender is the fee token itself. */
  lemma ValidationKeepsBalance(reader: Reader, start: seq<Values>, ctx: Context, code: Code)
    requires |start| >= 1 && CodeOk(ctx, code) && ctx.sender != ctx.feeToken
    ensures BalanceIn(reader, Validated(reader, start, code), ctx) == BalanceIn(reader, start, ctx)
  {
    UntouchedShowsSame(reader, start, code.validateOps, ctx.LowCell());
    UntouchedShowsSame(reader, start, code.validateOps, ctx.HighCell());
  }

  /** A revertible transaction is charged the cost of what it ran, up to the sender's bound.  If it is kept, or if
      the sender is not the fee token, the state can pay. */
  lemma RevertibleFee(
      reader: Reader, start: seq<Values>, ctx: Context, code: Code, charged: Values, final: Final, end: seq<Values>)
    requires |start| >= 1 && BoundsFit(ctx.info) && CodeOk(ctx, code)
    requires Prepared(reader, start, ctx, true)
    requires RevertibleOutcome(reader, start, ctx, code, true, charged, final, end)
    ensures final.fee == ChargeFor(ctx, GasOf(code, charged)) && FeeInBounds(ctx, final.fee)
    ensures final.fee > 0 && (!final.reverted || ctx.sender != ctx.feeToken) ==> CanPay(reader, end, ctx, final.fee)
  {
    var gas := GasOf(code, charged);
    ChargeInBounds(ctx, gas);
    if ctx.sender != ctx.feeToken { ValidationKeepsBalance(reader, start, ctx, code); }
    if EnforceFee(ctx.info) == Some(true) {
      var ran := Ran(reader, Validated(reader, start, code), code);
      RecommendedFeeIsTheSmaller(ctx.info, ctx.prices, gas, BalanceIn(reader, ran, ctx));
    }
  }

  /** A non-revertible transaction that stands is charged its cost, within the bound, and can pay. */
  lemma NonRevertibleFee(
      reader: Reader, start: seq<Values>, ctx: Context, code: Code, charged: Values, final: Final, end: seq<Values>)
    requires |start| >= 1 && BoundsFit(ctx.info) && CodeOk(ctx, code)
    requires Prepared(reader, start, ctx, true)
    requires NonRevertibleOutcome(reader, start, ctx, code, true, charged, final, end)
    ensures final.fee == ChargeFor(ctx, code.fullGas(charged)) && FeeInBounds(ctx, final.fee)
    ensures final.fee > 0 ==> CanPay(reader, end, ctx, final.fee)
  {
    var gas := code.fullGas(charged);
    ChargeInBounds(ctx, gas);
    if EnforceFee(ctx.info) == Some(true) {
      RecommendedFeeIsTheSmaller(ctx.info, ctx.prices, gas, BalanceIn(reader, end, ctx));
    }
  }

  // ----------------------------------------------------------------------------------------------
  // The fee token as a sender

  /** Whatever is executed from the validated state, the state it leaves can pay the fee. */
  ghost predicate Solvent(reader: Reader, validated: seq<Values>, ctx: Context)
    requires |validated| >= 1 && BoundsFit(ctx.info)
  {
    forall code, charged, final, end |
      CodeOk(ctx, code) && ExecutionOutcome(reader, validated, ctx, code, true, charged, final, end) && final.fee > 0 ::
      CanPay(reader, end, ctx, final.fee)
  }

  /** Gas whose charge is the sender's whole bound. */
  function GasAtBound(info: TxInfo): GasVector
    requires info != Current(None)
  {
    match info
    case Current(bounds) => GasVector(bounds.value.maxAmount, 0)
    case Deprecated(maxFee) => GasVector(maxFee, 0)
  }

  lemma AmountFits(amount: nat, price: nat)
    requires 0 < amount * price <= U128_MAX
    ensures amount <= U128_MAX
  {
    MulMono(1, price, amount);
    assert price * amount == amount * price;
  }

  lemma CostReachesFee(fee: nat, price: Price, dataPrice: Price)
    requires fee <= U128_MAX
    ensures SaturatedCost(GasVector(fee, 0), price, dataPrice) >= fee
  {
    MulMono(1, price, fee);
    assert price * fee == fee * price;
    assert 0 * dataPrice == 0;
  }

  lemma ChargeAtBound(ctx: Context)
    requires BoundsFit(ctx.info) && EnforceFee(ctx.info) == Some(true)
    ensures FitsFor(ctx.info, ctx.prices, GasAtBound(ctx.info))
    ensures ChargeFor(ctx, GasAtBound(ctx.info)) == BoundAtCurrentPrice(ctx.info, ctx.prices)
  {
    match ctx.info {
      case Current(Some(b)) =>
        AmountFits(b.maxAmount, b.maxPrice);
        CeilDivZero(ctx.prices.strkL1);
        assert 0 * ctx.prices.strkL1Data == 0;
      case Deprecated(maxFee) => CostReachesFee(maxFee, ctx.prices.ethL1, ctx.prices.ethL1Data);
    }
  }

  /** The changes of the topmost layer. */
  function ChangesOf(reader: Reader, stack: seq<Values>): Values
    requires |stack| >= 1
  {
    var top := stack[|stack| - 1];
    map c | c in top && (c.CompiledClassHash? || Shown(reader, stack, |stack| - 1, c) != Some(top[c])) :: top[c]
  }

  /** Validation that spends everything, which only the fee token itself can do. */
  function SpendsAll(ctx: Context): Code
    requires ctx.info != Current(None)
  {
    UsesUp(ctx).(validateOps := [Set(ctx.LowCell(), 0), Set(ctx.HighCell(), 0)])
  }

  /** Before anything runs: whatever the code, every execution after validation can be charged, if and only if the
      sender is not the fee token or the bound is zero. */
  lemma SenderDecidesSolvency(reader: Reader, start: seq<Values>, ctx: Context)
    requires |start| >= 1 && BoundsFit(ctx.info) && EnforceFee(ctx.info) == Some(true)
    requires Prepared(reader, start, ctx, true)
    ensures (forall code | CodeOk(ctx, code) :: Solvent(reader, Validated(reader, start, code), ctx)) <==>
            ctx.sender != ctx.feeToken || BoundAtCurrentPrice(ctx.info, ctx.prices) == 0
  {
    var bound := BoundAtCurrentPrice(ctx.info, ctx.prices);
    if ctx.sender != ctx.feeToken || bound == 0 {
      forall code | CodeOk(ctx, code) ensures Solvent(reader, Validated(reader, start, code), ctx) {
        SolventAfterValidationIff(reader, start, ctx, code);
      }
    } else {
      var low, high, code := ctx.LowCell(), ctx.HighCell(), SpendsAll(ctx);
      UsesUpOutcome(reader, start, ctx);
      TwoWrites(reader, start, low, 0, high, 0);
      assert CodeOk(ctx, code);
      var validated := Validated(reader, start, code);
      assert Top(reader, validated, low) == Some(0) && Top(reader, validated, high) == Some(0);
      SolventAfterValidationIff(reader, start, ctx, code);
    }
  }

  /** An execution that fails after using up the sender's bound. */
  function UsesUp(ctx: Context): Code
    requires ctx.info != Current(None)
  {
    var gas := GasAtBound(ctx.info);
    Code(Invoke, [], true, {}, [], false, _ => [], (_, _) => true, GasVector(0, 0), _ => gas, _ => gas)
  }

  lemma UsesUpOutcome(reader: Reader, validated: seq<Values>, ctx: Context)
    requires |validated| >= 1 && BoundsFit(ctx.info) && EnforceFee(ctx.info) == Some(true)
    requires BalanceIn(reader, validated, ctx).Some?
    ensures CodeOk(ctx, UsesUp(ctx))
    ensures ExecutionOutcome(reader, validated, ctx, UsesUp(ctx), true, ChangesOf(reader, validated),
                             Final(BoundAtCurrentPrice(ctx.info, ctx.prices), true), validated)
  {
    ChargeAtBound(ctx);
    assert SelfContained([]);
    assert 0 * ctx.prices.strkL1Data == 0 && 0 * ctx.prices.ethL1Data == 0;
    CeilDivZero(ctx.prices.strkL1);
    CeilDivZero(ctx.prices.ethL1);
    RecommendedFeeIsTheSmaller(ctx.info, ctx.prices, GasAtBound(ctx.info), BalanceIn(reader, validated, ctx));
  }

  /** After validation, every execution can be charged if and only if the balance covers the sender's bound at the
      current price; this can be checked before executing anything. */
  lemma SolventIff(reader: Reader, validated: seq<Values>, ctx: Context)
    requires |validated| >= 1 && BoundsFit(ctx.info) && EnforceFee(ctx.info) == Some(true)
    requires BalanceIn(reader, validated, ctx).Some?
    ensures var bound := BoundAtCurrentPrice(ctx.info, ctx.prices);
      Solvent(reader, validated, ctx) <==> bound == 0 || CanPay(reader, validated, ctx, bound)
  {
    var bound := BoundAtCurrentPrice(ctx.info, ctx.prices);
    UsesUpOutcome(reader, validated, ctx);
    if bound == 0 || CanPay(reader, validated, ctx, bound) {
      forall code, charged, final, end |
        CodeOk(ctx, code) && ExecutionOutcome(reader, validated, ctx, code, true, charged, final, end) && final.fee > 0
        ensures CanPay(reader, end, ctx, final.fee)
      {
        var ran := Ran(reader, validated, code);
        RecommendedFeeIsTheSmaller(ctx.info, ctx.prices, GasOf(code, charged), BalanceIn(reader, ran, ctx));
      }
    }
  }

  /** So, for any sender that passed pre-validation, the state validation leaves decides. */
  lemma SolventAfterValidationIff(reader: Reader, start: seq<Values>, ctx: Context, code: Code)
    requires |start| >= 1 && BoundsFit(ctx.info) && CodeOk(ctx, code) && EnforceFee(ctx.info) == Some(true)
    requires Prepared(reader, start, ctx, true)
    ensures var validated, bound := Validated(reader, start, code), BoundAtCurrentPrice(ctx.info, ctx.prices);
      && (Solvent(reader, validated, ctx) <==> bound == 0 || CanPay(reader, validated, ctx, bound))
      && (ctx.sender != ctx.feeToken ==> Solvent(reader, validated, ctx))
  {
    StaysReadable(reader, start, code.validateOps, ctx.LowCell());
    StaysReadable(reader, start, code.validateOps, ctx.HighCell());
    SolventIff(reader, Validated(reader, start, code), ctx);
    BoundWithinCommitted(ctx.info, ctx.prices);
    if ctx.sender != ctx.feeToken { ValidationKeepsBalance(reader, start, ctx, code); }
  }

  // ----------------------------------------------------------------------------------------------
  // The whole transaction

  /** Transfers of concurrently executed transactions leave the sequencer's balance to be completed later. */
  predicate TransfersConcurrently(ctx: Context) { ctx.concurrencyMode && ctx.sequencer != ctx.sender }

  /** What the fee token sees: in concurrency mode the sequencer's balance appears to be zero, so that it is not
      read. */
  function TransferView(reader: Reader, stack: seq<Values>, ctx: Context): Reader {
    if TransfersConcurrently(ctx)
    then c => if c in ctx.SequencerCells() then Some(0) else Top(reader, stack, c)
    else TopView(reader, stack)
  }

  /** The fee token, run on the given state, transfers the fee. */
  predicate TransferSucceeds(reader: Reader, stack: seq<Values>, ctx: Context, code: Code, fee: nat) {
    code.transferOk(TransferView(reader, stack, ctx), fee)
  }

  predicate PaysFrom(view: Reader, ctx: Context, fee: nat) {
    var low, high := view(ctx.LowCell()), view(ctx.HighCell());
    low.Some? && high.Some? && Covers(Balance(low.value, high.value), fee)
  }

  /** The fee token transfers any amount the sender's balance covers. */
  ghost predicate TokenPays(ctx: Context, code: Code) {
    forall view: Reader, fee: nat | PaysFrom(view, ctx, fee) :: code.transferOk(view, fee)
  }

  /** Different accounts have their balances at different keys. */
  predicate BalanceKeysDiffer(ctx: Context) {
    ctx.sender != ctx.sequencer ==> ctx.LowCell() !in ctx.SequencerCells() && ctx.HighCell() !in ctx.SequencerCells()
  }

  /** Hiding the sequencer's balance does not hide that the sender can pay. */
  lemma PayableIsTransferred(reader: Reader, stack: seq<Values>, ctx: Context, code: Code, fee: nat)
    requires CanPay(reader, stack, ctx, fee) && TokenPays(ctx, code) && BalanceKeysDiffer(ctx)
    ensures TransferSucceeds(reader, stack, ctx, code, fee)
  {
    assert PaysFrom(TransferView(reader, stack, ctx), ctx, fee);
  }

  /** The state after a transfer. */
  ghost function Transferred(reader: Reader, stack: seq<Values>, ctx: Context, ops: seq<Op>): (r: seq<Values>)
    requires |stack| >= 1 && SelfContained(ops)
    ensures |r| == |stack|
  {
    if TransfersConcurrently(ctx)
    then Apply(C.WithoutWrites(After(reader, Apply(stack, Begin), ops), ctx.SequencerCells()), Commit)
    else After(reader, stack, ops)
  }

  /** A concurrent transfer leaves the sequencer's balance as it was, and everything else as the plain transfer
      leaves it. */
  lemma ConcurrentTransferSparesSequencer(reader: Reader, stack: seq<Values>, ctx: Context, ops: seq<Op>, c: Cell)
    requires |stack| >= 1 && SelfContained(ops) && TransfersConcurrently(ctx)
    ensures Top(reader, Transferred(reader, stack, ctx, ops), c) ==
            if c in ctx.SequencerCells() then Top(reader, stack, c) else Top(reader, After(reader, stack, ops), c)
  {
    var n, nested := |stack|, After(reader, Apply(stack, Begin), ops);
    var spared := C.WithoutWrites(nested, ctx.SequencerCells());
    TransactionLayer(reader, stack, ops);
    CommitShowsChild(reader, spared, c);
    assert spared[..n] == nested[..n];
    ShownDependsOnPrefix(reader, spared, nested, n, c);
  }

  /** Which view the token gets, and what the transfer leaves, in every cell: the sequencer's two balance words
      are spared, and shown as zero, exactly when the block runs concurrently and the sequencer is not the sender. */
  lemma TransferInCells(reader: Reader, stack: seq<Values>, ctx: Context, ops: seq<Op>, c: Cell)
    requires |stack| >= 1 && SelfContained(ops)
    ensures var spared := ctx.concurrencyMode && ctx.sequencer != ctx.sender &&
        (c == Storage(ctx.feeToken, ctx.sequencerKey) || c == Storage(ctx.feeToken, ctx.sequencerKey + 1));
      && TransferView(reader, stack, ctx)(c) == (if spared then Some(0) else Top(reader, stack, c))
      && Top(reader, Transferred(reader, stack, ctx, ops), c) ==
           (if spared then Top(reader, stack, c) else Top(reader, After(reader, stack, ops), c))
  {
    if TransfersConcurrently(ctx) { ConcurrentTransferSparesSequencer(reader, stack, ctx, ops, c); }
  }

  /** `execute_fee_transfer` and `concurrency_execute_fee_transfer`. */
  method Transfer(state: C.CachedState, ctx: Context, code: Code, fee: nat) returns (ok: bool)
    requires state.Valid() && CodeOk(ctx, code)
    modifies state`caches
    ensures state.Valid() && state.Stack() == Transferred(state.reader, old(state.Stack()), ctx, code.transferOps(fee))
    ensures ok <==> TransferSucceeds(state.reader, old(state.Stack()), ctx, code, fee)
    ensures forall c ::
      state.View(c) ==
        if ctx.concurrencyMode && ctx.sequencer != ctx.sender &&
           (c == Storage(ctx.feeToken, ctx.sequencerKey) || c == Storage(ctx.feeToken, ctx.sequencerKey + 1))
        then old(state.View(c))
        else Top(state.reader, After(state.reader, old(state.Stack()), code.transferOps(fee)), c)
  {
    ghost var stack := state.Stack();
    ok := code.transferOk(TransferView(state.reader, C.WritesOf(state.caches), ctx), fee);
    if TransfersConcurrently(ctx) {
      state.CreateTransactional();
      Perform(state, code.transferOps(fee));
      state.RemoveWrites(ctx.SequencerCells());
      state.CommitTransactional();
    } else {
      Perform(state, code.transferOps(fee));
    }
    forall c { TransferInCells(state.reader, stack, ctx, code.transferOps(fee), c); }
  }

  datatype RawResult = BoundPanic | ConversionPanic | Failed | Done(fee: nat, reverted: bool)

  predicate Charges(final: Final, chargeFee: bool) { chargeFee && final.fee > 0 }

  /** `handle_fee`, with the panic of `assert_actual_fee_in_bounds` and the failure of the transfer. */
  method HandleFee(state: C.CachedState, ctx: Context, code: Code, final: Final, chargeFee: bool) returns (r: RawResult)
    requires state.Valid() && BoundsFit(ctx.info) && CodeOk(ctx, code)
    modifies state`caches
    ensures state.Valid() && |state.Stack()| == |old(state.Stack())|
    ensures r.BoundPanic? <==> Charges(final, chargeFee) && ctx.info != Current(None) && !FeeInBounds(ctx, final.fee)
    ensures r.Done? <==>
      Charges(final, chargeFee) ==>
        FeeInBounds(ctx, final.fee) && TransferSucceeds(state.reader, old(state.Stack()), ctx, code, final.fee)
    ensures r.Done? ==>
      && r == Done(final.fee, final.reverted)
      && state.Stack() == if Charges(final, chargeFee)
                          then Transferred(state.reader, old(state.Stack()), ctx, code.transferOps(final.fee))
                          else old(state.Stack())
    ensures !r.ConversionPanic?
    ensures r.Done? ==>
      forall c ::
        state.View(c) ==
          if !chargeFee || final.fee == 0 then old(state.View(c))
          else if ctx.concurrencyMode && ctx.sequencer != ctx.sender &&
                  (c == Storage(ctx.feeToken, ctx.sequencerKey) || c == Storage(ctx.feeToken, ctx.sequencerKey + 1))
          then old(state.View(c))
          else Top(state.reader, After(state.reader, old(state.Stack()), code.transferOps(final.fee)), c)
  {
    if !chargeFee || final.fee == 0 {
      return Done(final.fee, final.reverted);
    }
    match Committed(ctx.info) {
      case None => return Failed;
      case Some(bound) =>
        if final.fee > bound {
          return BoundPanic;
        }
    }
    var ok := Transfer(state, ctx, code, final.fee);
    r := if ok then Done(final.fee, final.reverted) else Failed;
  }

  predicate IsNonRevertible(ctx: Context, code: Code) { !code.kind.Invoke? || ctx.IsV0() }

  /** `verify_tx_version`. */
  predicate VersionAllowed(kind: Kind, version: nat) {
    match kind
    case Declare => version <= 3
    case DeployAccount => version == 1 || version == 3
    case Invoke => version == 0 || version == 1 || version == 3
  }

  /** Running the whole transaction from `start` ends in `ran`, before the fee transfer. */
  ghost predicate Outcome(
      reader: Reader, start: seq<Values>, ctx: Context, code: Code, chargeFee: bool,
      charged: Values, final: Final, ran: seq<Values>)
    requires |start| >= 1 && BoundsFit(ctx.info) && CodeOk(ctx, code)
  {
    var prepared := NonceBumped(reader, start, ctx);
    && VersionAllowed(code.kind, ctx.version)
    && PreValidates(reader, start, ctx, code, chargeFee, true)
    && if IsNonRevertible(ctx, code)
       then NonRevertibleOutcome(reader, prepared, ctx, code, chargeFee, charged, final, ran)
       else RevertibleOutcome(reader, prepared, ctx, code, chargeFee, charged, final, ran)
  }

  /** Which versions of which transactions are run at all, and which of those can be reverted. */
  lemma Versions(ctx: Context, code: Code)
    ensures VersionAllowed(code.kind, ctx.version) <==>
      match code.kind
      case Declare => ctx.version in {0, 1, 2, 3}
      case DeployAccount => ctx.version in {1, 3}
      case Invoke => ctx.version in {0, 1, 3}
    ensures IsNonRevertible(ctx, code) <==> code.kind == Declare || code.kind == DeployAccount || ctx.version == 0
  {
  }

  /** Without charging, nothing is checked after execution: a successful one is kept, and the cost is reported. */
  lemma UnchargedIsKept(
      reader: Reader, start: seq<Values>, ctx: Context, code: Code, charged: Values, final: Final, ran: seq<Values>)
    requires |start| >= 1 && BoundsFit(ctx.info) && CodeOk(ctx, code) && ctx.info != Current(None)
    requires Outcome(reader, start, ctx, code, false, charged, final, ran)
    ensures final.reverted <==> !code.executeOk
    ensures var prepared := NonceBumped(reader, start, ctx);
      ran == if code.executeOk then RanAll(reader, prepared, code) else Validated(reader, prepared, code)
    ensures var gas := if code.executeOk then code.fullGas(charged) else code.revertGas(charged);
      final.fee == if Committed(ctx.info).value == 0 then 0
                   else if ctx.info.Current? then
                     Saturate(gas.l1Gas * ctx.prices.strkL1 + gas.l1DataGas * ctx.prices.strkL1Data)
                   else Saturate(gas.l1Gas * ctx.prices.ethL1 + gas.l1DataGas * ctx.prices.ethL1Data)
  {
    var gas := if code.executeOk then code.fullGas(charged) else code.revertGas(charged);
    assert FitsFor(ctx.info, ctx.prices, gas);
    ReportInPrices(ctx.info, ctx.prices, gas, BalanceIn(reader, ran, ctx), false);
  }

  /** In every flow the fee is within the sender's bound, and the state it is transferred from can pay it unless the
      sender is the fee token; so a token that pays what is covered transfers it. */
  lemma FeeIsBoundedAndAffordable(
      reader: Reader, start: seq<Values>, ctx: Context, code: Code, charged: Values, final: Final, ran: seq<Values>)
    requires |start| >= 1 && BoundsFit(ctx.info) && CodeOk(ctx, code)
    requires Outcome(reader, start, ctx, code, true, charged, final, ran)
    ensures FeeInBounds(ctx, final.fee)
    ensures final.fee > 0 && (!final.reverted || ctx.sender != ctx.feeToken) ==>
      && CanPay(reader, ran, ctx, final.fee)
      && (TokenPays(ctx, code) && BalanceKeysDiffer(ctx) ==> TransferSucceeds(reader, ran, ctx, code, final.fee))
  {
    if IsNonRevertible(ctx, code) {
      NonRevertibleFee(reader, NonceBumped(reader, start, ctx), ctx, code, charged, final, ran);
    } else {
      RevertibleFee(reader, NonceBumped(reader, start, ctx), ctx, code, charged, final, ran);
    }
    if CanPay(reader, ran, ctx, final.fee) && TokenPays(ctx, code) && BalanceKeysDiffer(ctx) {
      PayableIsTransferred(reader, ran, ctx, code, final.fee);
    }
  }

  /** A fee token that is a sender itself, and spends its balance when it validates. */
  const SPENDER := Context(Deprecated(10), GasPrices(1, 1, 1, 1), 1, 0, 2, 2, 0, false, 3, 10)

  function TenInLow(c: Cell): Option<Felt> { if c == Storage(2, 0) then Some(10) else Some(0) }

  function Spending(): Code {
    var gas := GasVector(5, 0);
    var honest := (view: Reader, fee: nat) => PaysFrom(view, SPENDER, fee);
    Code(Invoke, [Set(Storage(2, 0), 0)], true, {}, [], false, _ => [], honest, gas, _ => gas, _ => gas)
  }

  lemma SpendingLeaves()
    ensures CodeOk(SPENDER, Spending())
    ensures Validated(TenInLow, [map[Nonce(2) := 1]], Spending()) == [map[Nonce(2) := 1, Storage(2, 0) := 0]]
    ensures BalanceIn(TenInLow, [map[Nonce(2) := 1]], SPENDER) == Some(Balance(10, 0))
    ensures BalanceIn(TenInLow, [map[Nonce(2) := 1, Storage(2, 0) := 0]], SPENDER) == Some(Balance(0, 0))
  {
    var before, after: seq<Values> := [map[Nonce(2) := 1]], [map[Nonce(2) := 1, Storage(2, 0) := 0]];
    var low, high := SPENDER.LowCell(), SPENDER.HighCell();
    OneWrite(TenInLow, before, low, 0);
    assert SelfContained([]);
    assert Shown(TenInLow, before, 0, low) == Some(10) && Shown(TenInLow, before, 0, high) == Some(0);
    assert Shown(TenInLow, after, 0, high) == Some(0);
  }

  /** A fee token that is the sender of a transaction may spend, in validation, what pre-validation saw: then a
      reverted transaction is charged more than the state covers, and an honest token refuses the transfer. */
  lemma FeeTokenMaySpendTheFee()
    returns (reader: Reader, ctx: Context, code: Code, charged: Values, final: Final, ran: seq<Values>)
    ensures BoundsFit(ctx.info) && CodeOk(ctx, code) && ctx.sender == ctx.feeToken
    ensures TokenPays(ctx, code) && BalanceKeysDiffer(ctx)
    ensures Outcome(reader, [map[]], ctx, code, true, charged, final, ran)
    ensures final.fee > 0 && !CanPay(reader, ran, ctx, final.fee)
    ensures !TransferSucceeds(reader, ran, ctx, code, final.fee)
  {
    reader, ctx, code := TenInLow, SPENDER, Spending();
    charged, final := map[Nonce(2) := 1, Storage(2, 0) := 0], Final(5, true);
    ran := [charged];
    SpendingLeaves();
    assert NonceBumped(reader, [map[]], ctx) == [map[Nonce(2) := 1]];
  }

  /** `execute_raw`.  The assertion that the fee is within the sender's bounds never fires.  With a token that pays
      what is covered, and a sender other than that token, nothing fails once the transaction has run; so a
      revertible transaction over a total reader finishes exactly when it passes pre-validation and validation. */
  method ExecuteRaw(state: C.CachedState, ctx: Context, code: Code, chargeFee: bool)
    returns (r: RawResult, ghost charged: Values, ghost final: Option<Final>, ghost ran: seq<Values>)
    requires state.Valid() && BoundsFit(ctx.info) && CodeOk(ctx, code)
    modifies state`caches
    ensures state.Valid() && |state.Stack()| == |old(state.Stack())|
    ensures !r.BoundPanic?
    ensures r.ConversionPanic? <==>
      && VersionAllowed(code.kind, ctx.version)
      && PreValidationPanics(state.reader, old(state.Stack()), ctx, code, chargeFee, true)
    ensures final.Some? ==>
      && |ran| == |old(state.Stack())|
      && Outcome(state.reader, old(state.Stack()), ctx, code, chargeFee, charged, final.value, ran)
      && (chargeFee ==> FeeInBounds(ctx, final.value.fee))
    ensures r.Done? <==>
      && final.Some?
      && (Charges(final.value, chargeFee) ==> TransferSucceeds(state.reader, ran, ctx, code, final.value.fee))
    ensures r.Done? ==>
      && r == Done(final.value.fee, final.value.reverted)
      && state.Stack() == if Charges(final.value, chargeFee)
                          then Transferred(state.reader, ran, ctx, code.transferOps(final.value.fee)) else ran
    ensures r.Done? ==>
      forall c ::
        state.View(c) ==
          if !chargeFee || r.fee == 0 then Top(state.reader, ran, c)
          else if ctx.concurrencyMode && ctx.sequencer != ctx.sender &&
                  (c == Storage(ctx.feeToken, ctx.sequencerKey) || c == Storage(ctx.feeToken, ctx.sequencerKey + 1))
          then Top(state.reader, ran, c)
          else Top(state.reader, After(state.reader, ran, code.transferOps(r.fee)), c)
    ensures r.Done? && chargeFee ==>
      match ctx.info
      case Current(None) => false
      case Current(Some(b)) => r.fee <= b.maxAmount * b.maxPrice
      case Deprecated(maxFee) => r.fee <= maxFee
    ensures r.Done? && r.reverted ==> code.kind == Invoke && ctx.version != 0
    ensures TokenPays(ctx, code) && BalanceKeysDiffer(ctx) && ctx.sender != ctx.feeToken ==> (r.Done? <==> final.Some?)
    ensures Total(state.reader) && code.kind == Invoke && ctx.version != 0 ==>
      (final.Some? <==>
       && (ctx.version == 1 || ctx.version == 3)
       && PreValidates(state.reader, old(state.Stack()), ctx, code, chargeFee, true)
       && code.validateOk && ctx.info != Current(None))
  {
    charged, final, ran := map[], None, [];
    ghost var start := state.Stack();
    if !VersionAllowed(code.kind, ctx.version) {
      return Failed, charged, final, ran;
    }
    // Nonce and fee checks come before any user code.
    var stage := PerformPreValidationStage(state, ctx, code, chargeFee, true);
    if !stage.Passed? {
      return if stage.Panics? then ConversionPanic else Failed, charged, final, ran;
    }
    var run: Option<Final>;
    if IsNonRevertible(ctx, code) {
      run, charged := RunNonRevertible(state, ctx, code, chargeFee);
    } else {
      run, charged := RunRevertible(state, ctx, code, chargeFee);
    }
    if run.None? {
      return Failed, charged, final, ran;
    }
    final, ran := run, state.Stack();
    if chargeFee {
      FeeIsBoundedAndAffordable(state.reader, start, ctx, code, charged, run.value, ran);
    }
    r := HandleFee(state, ctx, code, run.value, chargeFee);
  }
}
