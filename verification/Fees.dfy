/** Fee arithmetic and fee checks. */
module Fees {
  import opened Cells

  const U128_MAX: nat := 0xFFFF_FFFF_FFFF_FFFF_FFFF_FFFF_FFFF_FFFF

  type Price = p: nat | p > 0 witness 1

  datatype GasVector = GasVector(l1Gas: nat, l1DataGas: nat)

  datatype FeeType = Strk | Eth

  datatype GasPrices = GasPrices(ethL1: Price, strkL1: Price, ethL1Data: Price, strkL1Data: Price)
  {
    function Gas(t: FeeType): Price { if t.Strk? then strkL1 else ethL1 }
    function DataGas(t: FeeType): Price { if t.Strk? then strkL1Data else ethL1Data }
  }

  function Saturate(n: nat): nat { if n <= U128_MAX then n else U128_MAX }

  /** `saturated_cost`: each product and the sum saturate on their own. */
  function SaturatedCost(g: GasVector, gasPrice: Price, dataGasPrice: Price): nat {
    Saturate(Saturate(g.l1Gas * gasPrice) + Saturate(g.l1DataGas * dataGasPrice))
  }

  /** `u128_div_ceil`: the least multiple of `b` that reaches `a`. */
  method DivCeil(a: nat, b: Price) returns (result: nat)
    ensures result == CeilDiv(a, b)
  {
    result := a / b;
    if result * b < a {
      result := result + 1;
    }
    CeilDivIsLeast(a, b);
    CeilDivUnique(a, b, result);
  }

  function CeilDiv(a: nat, b: Price): nat { (a + b - 1) / b }

  lemma CeilDivIsLeast(a: nat, b: Price)
    ensures CeilDiv(a, b) * b >= a
    ensures forall n: nat | n * b >= a :: CeilDiv(a, b) <= n
  {
    var q, r := (a + b - 1) / b, (a + b - 1) % b;
    assert a + b - 1 == b * q + r;
    forall n: nat | n * b >= a ensures q <= n {
      if n < q {
        MulMono(n + 1, q, b);
      }
    }
  }

  lemma CeilDivUnique(a: nat, b: Price, n: nat)
    requires n * b >= a && (n == 0 || (n - 1) * b < a)
    ensures n == CeilDiv(a, b)
  {
    CeilDivIsLeast(a, b);
    var q := CeilDiv(a, b);
    if q < n { MulMono(q, n - 1, b); }
  }

  lemma CeilDivZero(b: Price)
    ensures CeilDiv(0, b) == 0
  {
    assert 0 * b == 0;
    CeilDivUnique(0, b, 0);
  }

  lemma MulMono(a: nat, b: nat, c: nat)
    requires a <= b
    ensures a * c <= b * c
  {
  }

  /** The unchecked product and sum of `compute_discounted_gas_from_gas_vector` fit 128 bits. */
  predicate GasFits(g: GasVector, gasPrice: Price, dataGasPrice: Price) {
    && g.l1DataGas * dataGasPrice <= U128_MAX
    && g.l1Gas + CeilDiv(g.l1DataGas * dataGasPrice, gasPrice) <= U128_MAX
  }

  /** `compute_discounted_gas_from_gas_vector`. */
  function DiscountedGas(g: GasVector, gasPrice: Price, dataGasPrice: Price): nat
    requires GasFits(g, gasPrice, dataGasPrice)
  {
    g.l1Gas + CeilDiv(g.l1DataGas * dataGasPrice, gasPrice)
  }

  /** The saturated cost of a gas vector is covered by paying the gas price for its discounted gas. */
  lemma CostWithinDiscountedGas(g: GasVector, gasPrice: Price, dataGasPrice: Price)
    requires GasFits(g, gasPrice, dataGasPrice)
    ensures SaturatedCost(g, gasPrice, dataGasPrice) <= DiscountedGas(g, gasPrice, dataGasPrice) * gasPrice
  {
    var ceil := CeilDiv(g.l1DataGas * dataGasPrice, gasPrice);
    CeilDivIsLeast(g.l1DataGas * dataGasPrice, gasPrice);
    assert (g.l1Gas + ceil) * gasPrice == g.l1Gas * gasPrice + ceil * gasPrice;
  }

  // ----------------------------------------------------------------------------------------------
  // Transactions

  datatype Bounds = Bounds(maxAmount: nat, maxPrice: nat)

  /** Version-3 transactions carry L1 gas bounds (which may be missing), older ones a maximal fee. */
  datatype TxInfo =
    | Current(l1Bounds: Option<Bounds>)
    | Deprecated(maxFee: nat)

  function FeeTypeOf(info: TxInfo): FeeType { if info.Current? then Strk else Eth }

  /** The unchecked product of the sender's bounds fits 128 bits, as a maximal fee does. */
  predicate BoundsFit(info: TxInfo) {
    match info
    case Current(None) => true
    case Current(Some(b)) => b.maxAmount * b.maxPrice <= U128_MAX
    case Deprecated(maxFee) => maxFee <= U128_MAX
  }

  /** The most the sender agreed to pay; nothing if the bounds are missing. */
  function Committed(info: TxInfo): Option<nat>
    requires BoundsFit(info)
  {
    match info
    case Current(None) => None
    case Current(Some(b)) => Some(b.maxAmount * b.maxPrice)
    case Deprecated(maxFee) => Some(maxFee)
  }

  /** `enforce_fee`; fails when the bounds are missing. */
  function EnforceFee(info: TxInfo): Option<bool>
    requires BoundsFit(info)
  {
    match info
    case Current(None) => None
    case Current(Some(b)) => Some(b.maxAmount * b.maxPrice > 0)
    case Deprecated(maxFee) => Some(maxFee != 0)
  }

  datatype Receipt = Receipt(fee: nat, gas: GasVector)

  function CostOf(info: TxInfo, prices: GasPrices, g: GasVector): nat {
    SaturatedCost(g, prices.Gas(FeeTypeOf(info)), prices.DataGas(FeeTypeOf(info)))
  }

  /** `from_params`: fee and gas come from the same gas vector. */
  function ReceiptOf(info: TxInfo, prices: GasPrices, g: GasVector): Option<Receipt>
    requires BoundsFit(info)
  {
    match EnforceFee(info)
    case None => None
    case Some(enforced) => Some(Receipt(if enforced then CostOf(info, prices, g) else 0, g))
  }

  datatype FeeCheckError = MaxL1GasAmountExceeded | MaxFeeExceeded | InsufficientFeeTokenBalance

  /** A balance is two words; a non-zero high word covers any 128-bit fee. */
  datatype Balance = Balance(low: Felt, high: Felt)

  predicate Covers(b: Balance, fee: nat) { b.high > 0 || b.low as int >= fee }

  /** The discounted gas of `g` fits 128 bits; after execution only gas bounds are checked against it. */
  predicate FitsFor(info: TxInfo, prices: GasPrices, g: GasVector) {
    info.Current? ==> GasFits(g, prices.strkL1, prices.strkL1Data)
  }

  /** `check_actual_cost_within_bounds`; missing bounds never reach it. */
  function CheckWithinBounds(info: TxInfo, prices: GasPrices, receipt: Receipt): Option<FeeCheckError>
    requires FitsFor(info, prices, receipt.gas) && info != Current(None)
  {
    match info
    case Current(bounds) =>
      if DiscountedGas(receipt.gas, prices.strkL1, prices.strkL1Data) > bounds.value.maxAmount
      then Some(MaxL1GasAmountExceeded) else None
    case Deprecated(maxFee) => if receipt.fee > maxFee then Some(MaxFeeExceeded) else None
  }

  datatype Report = Report(recommendedFee: nat, error: Option<FeeCheckError>)

  /** The sender's bound, gas bounds being valued at the current price. */
  function BoundAtCurrentPrice(info: TxInfo, prices: GasPrices): nat
    requires info != Current(None)
  {
    match info
    case Current(bounds) => SaturatedCost(GasVector(bounds.value.maxAmount, 0), prices.strkL1, prices.strkL1Data)
    case Deprecated(maxFee) => maxFee
  }

  /** `from_fee_check_error`: an overdraft is charged the bound, a fee the balance does not cover itself. */
  function ReportOf(info: TxInfo, prices: GasPrices, fee: nat, error: FeeCheckError): Report
    requires info != Current(None)
  {
    Report(if error.InsufficientFeeTokenBalance? then fee else BoundAtCurrentPrice(info, prices), Some(error))
  }

  /** `PostExecutionReport::new`, given the sender's balance if it can be read; fails when the bounds are
      missing, or when the bounds are kept and the balance cannot be read. */
  function PostExecutionReport(
      info: TxInfo, prices: GasPrices, receipt: Receipt, balance: Option<Balance>, chargeFee: bool): Option<Report>
    requires BoundsFit(info) && FitsFor(info, prices, receipt.gas)
  {
    if !chargeFee then Some(Report(receipt.fee, None))
    else
      match EnforceFee(info)
      case None => None
      case Some(false) => Some(Report(receipt.fee, None))
      case Some(true) =>
        var overdraft := CheckWithinBounds(info, prices, receipt);
        if overdraft.Some? then Some(ReportOf(info, prices, receipt.fee, overdraft.value))
        else if balance.None? then None
        else if !Covers(balance.value, receipt.fee) then
          Some(ReportOf(info, prices, receipt.fee, InsufficientFeeTokenBalance))
        else Some(Report(receipt.fee, None))
  }

  /** What pre-validation establishes about prices: the sender accepts the current price. */
  predicate PriceAccepted(info: TxInfo, prices: GasPrices) {
    info.Current? && info.l1Bounds.Some? ==> prices.strkL1 <= info.l1Bounds.value.maxPrice
  }

  /** The bound at the current price is within what the sender agreed to pay. */
  lemma BoundWithinCommitted(info: TxInfo, prices: GasPrices)
    requires BoundsFit(info) && PriceAccepted(info, prices) && info != Current(None)
    ensures BoundAtCurrentPrice(info, prices) <= Committed(info).value
  {
    if info.Current? {
      var b := info.l1Bounds.value;
      MulMono(prices.strkL1, b.maxPrice, b.maxAmount);
      assert b.maxAmount * prices.strkL1 == prices.strkL1 * b.maxAmount;
      assert b.maxAmount * b.maxPrice == b.maxPrice * b.maxAmount;
      assert 0 * prices.strkL1Data == 0;
    }
  }

  /** Rounding up adds less than one unit of gas. */
  lemma BelowRoundedGas(gas: nat, data: nat, price: Price, amount: nat)
    requires amount < gas + CeilDiv(data, price)
    ensures amount * price <= gas * price + data
  {
    var below := gas + CeilDiv(data, price) - 1;
    MulMono(amount, below, price);
    assert below * price == gas * price + (CeilDiv(data, price) - 1) * price;
    assert (CeilDiv(data, price) - 1) * price <= data by {
      assert price * CeilDiv(data, price) <= data + price - 1;
    }
  }

  /** Gas bounds are kept only if the bound covers the cost, and broken only if the cost reaches the bound: the
      check on the rounded gas amount agrees with comparing fees. */
  lemma OverdraftMeansBoundReached(b: Bounds, prices: GasPrices, g: GasVector)
    requires GasFits(g, prices.strkL1, prices.strkL1Data)
    ensures var cost := SaturatedCost(g, prices.strkL1, prices.strkL1Data);
      var bound := BoundAtCurrentPrice(Current(Some(b)), prices);
      if DiscountedGas(g, prices.strkL1, prices.strkL1Data) > b.maxAmount then bound <= cost else cost <= bound
  {
    var discounted := DiscountedGas(g, prices.strkL1, prices.strkL1Data);
    assert 0 * prices.strkL1Data == 0;
    if discounted > b.maxAmount {
      BelowRoundedGas(g.l1Gas, g.l1DataGas * prices.strkL1Data, prices.strkL1, b.maxAmount);
    } else {
      CostWithinDiscountedGas(g, prices.strkL1, prices.strkL1Data);
      MulMono(discounted, b.maxAmount, prices.strkL1);
    }
  }

  /** When fees are enforced, every report recommends the smaller of the cost and the bound; it has no error
      exactly when the bounds are kept and the balance covers the cost. */
  lemma RecommendedFeeIsTheSmaller(info: TxInfo, prices: GasPrices, g: GasVector, balance: Option<Balance>)
    requires BoundsFit(info) && FitsFor(info, prices, g) && EnforceFee(info) == Some(true)
    ensures var receipt := ReceiptOf(info, prices, g).value;
      var report := PostExecutionReport(info, prices, receipt, balance, true);
      var bound := BoundAtCurrentPrice(info, prices);
      report.Some? ==>
        && report.value.recommendedFee == (if receipt.fee <= bound then receipt.fee else bound)
        && (report.value.error.None? <==>
              && CheckWithinBounds(info, prices, receipt).None?
              && balance.Some? && Covers(balance.value, receipt.fee))
        && (report.value.error.None? ==> report.value.recommendedFee == receipt.fee)
  {
    if info.Current? { OverdraftMeansBoundReached(info.l1Bounds.value, prices, g); }
  }

  // ----------------------------------------------------------------------------------------------
  // The same in sums of gas times price

  /** Saturating the products on their own is saturating the sum. */
  lemma SaturatesOnce(g: GasVector, gasPrice: Price, dataGasPrice: Price)
    ensures SaturatedCost(g, gasPrice, dataGasPrice) ==
            if g.l1Gas * gasPrice + g.l1DataGas * dataGasPrice <= U128_MAX
            then g.l1Gas * gasPrice + g.l1DataGas * dataGasPrice else U128_MAX
  {
  }

  /** The discounted gas is the least amount of gas that pays for `g`. */
  lemma DiscountedGasIsLeast(g: GasVector, gasPrice: Price, dataGasPrice: Price, n: nat)
    requires GasFits(g, gasPrice, dataGasPrice)
    ensures DiscountedGas(g, gasPrice, dataGasPrice) <= n <==>
            g.l1Gas * gasPrice + g.l1DataGas * dataGasPrice <= n * gasPrice
  {
    var data := g.l1DataGas * dataGasPrice;
    CeilDivIsLeast(data, gasPrice);
    if g.l1Gas + CeilDiv(data, gasPrice) <= n {
      MulMono(g.l1Gas + CeilDiv(data, gasPrice), n, gasPrice);
      assert (g.l1Gas + CeilDiv(data, gasPrice)) * gasPrice == g.l1Gas * gasPrice + CeilDiv(data, gasPrice) * gasPrice;
    } else if g.l1Gas <= n {
      assert (n - g.l1Gas) * gasPrice == n * gasPrice - g.l1Gas * gasPrice;
    } else {
      MulMono(n + 1, g.l1Gas, gasPrice);
      assert (n + 1) * gasPrice == n * gasPrice + gasPrice;
    }
  }

  lemma PositiveProduct(a: nat, b: nat)
    ensures a * b > 0 <==> a > 0 && b > 0
  {
    if a > 0 && b > 0 { MulMono(1, a, b); }
  }

  /** Fees are enforced for any positive commitment; missing bounds are an error. */
  lemma EnforcedIfCommitted(info: TxInfo)
    requires BoundsFit(info)
    ensures EnforceFee(info) ==
            match info
            case Current(None) => None
            case Current(Some(b)) => Some(b.maxAmount > 0 && b.maxPrice > 0)
            case Deprecated(maxFee) => Some(maxFee > 0)
  {
    if info.Current? && info.l1Bounds.Some? {
      PositiveProduct(info.l1Bounds.value.maxAmount, info.l1Bounds.value.maxPrice);
    }
  }

  /** The two words together reach the fee. */
  lemma CoversMeansReaches(b: Balance, fee: nat)
    requires fee <= U128_MAX && b.low as int <= U128_MAX
    ensures Covers(b, fee) <==> b.high as int * (U128_MAX + 1) + b.low as int >= fee
  {
    if b.high > 0 { MulMono(1, b.high as nat, U128_MAX + 1); }
  }

  /** The sender's bound is reached: by the cost of the gas bound at the current price, or by the maximal fee. */
  ghost predicate Overdraws(info: TxInfo, prices: GasPrices, g: GasVector)
    requires info != Current(None)
  {
    match info
    case Current(Some(b)) => g.l1Gas * prices.strkL1 + g.l1DataGas * prices.strkL1Data > b.maxAmount * prices.strkL1
    case Deprecated(maxFee) => Saturate(g.l1Gas * prices.ethL1 + g.l1DataGas * prices.ethL1Data) > maxFee
  }

  /** Every report.  Without charging, or without a commitment, the receipt's fee is reported and nothing is
      checked.  Otherwise an overdraft is charged the bound, whatever the balance; else the balance decides. */
  lemma ReportInPrices(info: TxInfo, prices: GasPrices, g: GasVector, balance: Option<Balance>, chargeFee: bool)
    requires BoundsFit(info) && FitsFor(info, prices, g) && info != Current(None)
    ensures ReceiptOf(info, prices, g).Some?
    ensures var receipt := ReceiptOf(info, prices, g).value;
      var report := PostExecutionReport(info, prices, receipt, balance, chargeFee);
      var price := if info.Current? then prices.strkL1 else prices.ethL1;
      var dataPrice := if info.Current? then prices.strkL1Data else prices.ethL1Data;
      && receipt.gas == g
      && receipt.fee == (if Committed(info).value == 0 then 0 else Saturate(g.l1Gas * price + g.l1DataGas * dataPrice))
      && (!chargeFee || Committed(info).value == 0 ==> report == Some(Report(receipt.fee, None)))
      && (chargeFee && Committed(info).value > 0 ==>
            if Overdraws(info, prices, g) then
              report == match info
                        case Current(Some(b)) =>
                          Some(Report(Saturate(b.maxAmount * prices.strkL1), Some(MaxL1GasAmountExceeded)))
                        case Deprecated(maxFee) => Some(Report(maxFee, Some(MaxFeeExceeded)))
            else if balance.None? then report.None?
            else report == Some(Report(receipt.fee,
                   if balance.value.high == 0 && balance.value.low as int < receipt.fee
                   then Some(InsufficientFeeTokenBalance) else None)))
  {
    match info {
      case Current(Some(b)) =>
        SaturatesOnce(g, prices.strkL1, prices.strkL1Data);
        DiscountedGasIsLeast(g, prices.strkL1, prices.strkL1Data, b.maxAmount);
        assert 0 * prices.strkL1Data == 0;
      case Deprecated(_) =>
        SaturatesOnce(g, prices.ethL1, prices.ethL1Data);
    }
  }
}
