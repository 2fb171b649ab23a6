/** The fee checker of Cosmos transactions above height 0 (app/antedl/duallane/07_deduct_fee.go).
    Decimals are integers scaled by 10^18; coin amounts are never negative, as sdk.Coin has it. */
module FeeChecker {
  import opened GoInt
  import opened Options

  const MAX_INT64: int := 0x7fff_ffff_ffff_ffff
  const SCALE: nat := 1_000_000_000_000_000_000

  datatype Coin = Coin(denom: string, amount: nat)

  /** `minGasPrices` are the validator's own, by denomination. */
  datatype Ctx = Ctx(isCheckTx: bool, isReCheckTx: bool, minGasPrices: map<string, nat>)

  datatype Params = Params(denom: string, baseFee: nat, minGasPrice: nat)

  /** An extension option is a dynamic-fee option with its MaxPriorityPrice, or some other. */
  datatype FeeTx = FeeTx(fees: seq<Coin>, gas: uint64, options: seq<Option<int>>)

  datatype FeeResult = Charged(fee: nat, priority: int64) | Refused | Panicked

  /** Division of a big integer that is not negative, toward zero. */
  function Quo(a: nat, b: int): int
    requires b != 0
  {
    if b > 0 then a / b else -(a / -b)
  }

  /** Dividing by the scale cuts off the fraction of a decimal. */
  lemma Truncates(n: nat, fraction: nat)
    requires fraction < 1_000_000_000_000_000_000
    ensures (n * 1_000_000_000_000_000_000 + fraction) / SCALE == n
  {
  }

  // ---- Minimum gas prices -------------------------------------------------------------------------------

  function ValidatorMin(ctx: Ctx, denom: string): nat {
    if denom in ctx.minGasPrices then ctx.minGasPrices[denom] / SCALE else 0
  }

  /** The minimum prices that apply. */
  function Minimums(ctx: Ctx, params: Params): set<nat> {
    {params.baseFee, params.minGasPrice / SCALE}
    + if ctx.isCheckTx && !ctx.isReCheckTx then {ValidatorMin(ctx, params.denom)} else {}
  }

  /** getMinGasPricesAllowed: the largest of them. */
  method GetMinGasPricesAllowed(ctx: Ctx, params: Params) returns (m: nat)
    ensures m in Minimums(ctx, params) && forall x :: x in Minimums(ctx, params) ==> x <= m
  {
    m := params.baseFee;
    if ctx.isCheckTx {
      if !ctx.isReCheckTx {
        var validator := 0;
        if params.denom in ctx.minGasPrices { validator := ctx.minGasPrices[params.denom] / SCALE; }
        if m < validator { m := validator; }
      }
    }
    var global := params.minGasPrice / SCALE;
    if m < global { m := global; }
  }

  /** No applicable minimum is above the price. */
  predicate Suffices(ctx: Ctx, params: Params, price: int)
    ensures Suffices(ctx, params, price) ==> price >= 0
  {
    assert params.baseFee in Minimums(ctx, params);
    forall x :: x in Minimums(ctx, params) ==> x <= price
  }

  // ---- Priority ------------------------------------------------------------------------------------------

  function Capped(price: nat): int64 { if price > MAX_INT64 then MAX_INT64 else price }

  /** getTxPriority. A gas of zero divides by zero. */
  method GetTxPriority(amount: nat, gas: int64, minimum: nat) returns (r: FeeResult)
    ensures r == if gas == 0 then Panicked else if Quo(amount, gas) < minimum then Refused else Charged(amount, Capped(Quo(amount, gas)))
  {
    if gas == 0 { return Panicked; }
    var priority: int64 := MAX_INT64;
    var price := Quo(amount, gas);
    if price < minimum { return Refused; }
    if -0x8000_0000_0000_0000 <= price < 0x8000_0000_0000_0000 { priority := price; }
    return Charged(amount, priority);
  }

  // ---- The checker ---------------------------------------------------------------------------------------

  /** MaxPriorityPrice of the first dynamic-fee option. */
  function Tip(options: seq<Option<int>>): Option<int> {
    if options == [] then None else if options[0].Some? then options[0] else Tip(options[1..])
  }

  predicate Payable(params: Params, tx: FeeTx) {
    && |tx.fees| == 1 && tx.fees[0].denom == params.denom
    && (Tip(tx.options).Some? ==> Tip(tx.options).value >= 0)
  }

  /** EIP-1559: the tip on top of the base fee, but no more than the declared fee per gas. */
  function EffectivePrice(params: Params, fee: nat, gas: nat, tip: nat): nat
    requires gas > 0
  {
    if tip + params.baseFee < fee / gas then tip + params.baseFee else fee / gas
  }

  function EffectiveFee(params: Params, tx: FeeTx): nat
    requires Payable(params, tx) && tx.gas > 0
  {
    var fee := tx.fees[0].amount;
    if Tip(tx.options).None? then fee else EffectivePrice(params, fee, tx.gas, Tip(tx.options).value) * tx.gas
  }

  /** What the checker answers. A zero dynamic fee is dropped by sdk.NewCoins, and the lookup of the
      first coin panics. */
  ghost function Checked(ctx: Ctx, params: Params, tx: FeeTx): FeeResult {
    if !Payable(params, tx) then Refused
    else if tx.gas == 0 then Panicked
    else
      var fee := EffectiveFee(params, tx);
      if Tip(tx.options).Some? && fee == 0 then Panicked
      else
        var price := Quo(fee, Int64(tx.gas));
        if Suffices(ctx, params, price) then Charged(fee, Capped(price)) else Refused
  }

  method FindTip(options: seq<Option<int>>) returns (tip: Option<int>)
    ensures tip == Tip(options)
  {
    tip := None;
    for i := 0 to |options|
      invariant tip == None && Tip(options) == Tip(options[i..])
    {
      assert options[i..][1..] == options[i + 1..];
      if options[i].Some? {
        return options[i];
      }
    }
    assert options[|options|..] == [];
  }

  method EffectiveGasPrice(params: Params, fee: nat, gas: nat, tip: nat) returns (price: nat)
    requires gas > 0
    ensures price == EffectivePrice(params, fee, gas, tip)
  {
    price := fee / gas;
    if tip + params.baseFee < price { price := tip + params.baseFee; }
  }

  lemma SignedGas(gas: uint64)
    ensures Int64(gas) == if gas <= MAX_INT64 then gas else gas - 0x1_0000_0000_0000_0000
    ensures Int64(gas) == 0 <==> gas == 0
  {
  }

  /** CosmosTxFeeChecker */
  method CosmosTxFeeChecker(ctx: Ctx, params: Params, tx: FeeTx) returns (r: FeeResult)
    ensures r == Checked(ctx, params, tx)
  {
    hide Int64, Quo, Minimums, Tip, EffectivePrice;
    SignedGas(tx.gas);
    if |tx.fees| != 1 { return Refused; }
    if tx.fees[0].denom != params.denom { return Refused; }
    var fee := tx.fees[0].amount;
    var tip := FindTip(tx.options);
    if tip.Some? {
      if tip.value < 0 { return Refused; }
      if tx.gas == 0 { return Panicked; }
      var price := EffectiveGasPrice(params, fee, tx.gas, tip.value);
      fee := price * tx.gas;
      if fee == 0 { return Panicked; }
    }
    var minimum := GetMinGasPricesAllowed(ctx, params);
    if tx.gas > 0 {
      assert Suffices(ctx, params, Quo(fee, Int64(tx.gas))) <==> minimum <= Quo(fee, Int64(tx.gas));
    }
    r := GetTxPriority(fee, Int64(tx.gas), minimum);
  }

  // ---- What acceptance means ------------------------------------------------------------------------------

  lemma MulDivBelow(fee: nat, gas: nat)
    requires gas > 0
    ensures fee / gas * gas <= fee
  {
  }

  lemma MulMonotone(a: nat, b: nat, gas: nat)
    requires a <= b
    ensures a * gas <= b * gas
  {
  }

  /** A quotient reaches a minimum exactly when the dividend reaches the product. */
  lemma QuotientReaches(fee: nat, gas: nat, m: nat)
    requires gas > 0
    ensures m <= fee / gas <==> m * gas <= fee
  {
    MulDivBelow(fee, gas);
    if m <= fee / gas {
      MulMonotone(m, fee / gas, gas);
    } else {
      MulMonotone(fee / gas + 1, m, gas);
      assert (fee / gas + 1) * gas == fee / gas * gas + gas;
      assert fee == fee / gas * gas + fee % gas;
    }
  }

  lemma DivMul(price: nat, gas: nat)
    requires gas > 0
    ensures price * gas / gas == price
  {
    QuotientReaches(price * gas, gas, price);
    QuotientReaches(price * gas, gas, price + 1);
    assert (price + 1) * gas == price * gas + gas;
  }

  lemma EffectiveBelowDeclared(params: Params, tx: FeeTx)
    requires Payable(params, tx) && tx.gas > 0
    ensures EffectiveFee(params, tx) <= tx.fees[0].amount
  {
    hide Tip;
    var fee := tx.fees[0].amount;
    if Tip(tx.options).Some? {
      MulMonotone(EffectivePrice(params, fee, tx.gas, Tip(tx.options).value), fee / tx.gas, tx.gas);
      MulDivBelow(fee, tx.gas);
    }
  }

  /** The fee pays every applicable minimum price for all of the gas. */
  predicate PaysMinimums(ctx: Ctx, params: Params, fee: nat, gas: nat) {
    forall x :: x in Minimums(ctx, params) ==> x * gas <= fee
  }

  lemma SufficesPays(ctx: Ctx, params: Params, fee: nat, gas: nat)
    requires gas > 0
    ensures Suffices(ctx, params, fee / gas) <==> PaysMinimums(ctx, params, fee, gas)
  {
    hide Minimums;
    forall x | x in Minimums(ctx, params) ensures x <= fee / gas <==> x * gas <= fee { QuotientReaches(fee, gas, x); }
  }

  /** The price of a dynamic fee: the largest that neither the tip and the base fee together nor the declared
      fee exceed. */
  predicate IsDynamicPrice(params: Params, declared: nat, gas: nat, tip: int, price: nat) {
    && price <= tip + params.baseFee && price * gas <= declared
    && (price == tip + params.baseFee || (price + 1) * gas > declared)
  }

  lemma DynamicPrice(params: Params, fee: nat, gas: nat, tip: nat, m: nat)
    requires gas > 0
    ensures IsDynamicPrice(params, fee, gas, tip, EffectivePrice(params, fee, gas, tip))
    ensures m <= EffectivePrice(params, fee, gas, tip) <==> m <= tip + params.baseFee && m * gas <= fee
  {
    var price := EffectivePrice(params, fee, gas, tip);
    QuotientReaches(fee, gas, price);
    QuotientReaches(fee, gas, price + 1);
    QuotientReaches(fee, gas, m);
  }

  /** What is charged: all of the declared fee, or the dynamic price for all of the gas. Up to MaxInt64 gas the
      priority is the price, capped. */
  lemma ChargedFee(ctx: Ctx, params: Params, tx: FeeTx)
    requires Checked(ctx, params, tx).Charged?
    ensures var fee := Checked(ctx, params, tx).fee;
      && |tx.fees| == 1 && tx.gas > 0 && fee <= tx.fees[0].amount
      && (Tip(tx.options).None? ==> fee == tx.fees[0].amount)
      && (Tip(tx.options).Some? ==> exists price :: fee == price * tx.gas && IsDynamicPrice(params, tx.fees[0].amount, tx.gas, Tip(tx.options).value, price))
      && (tx.gas <= MAX_INT64 ==> Checked(ctx, params, tx).priority as int == if fee / tx.gas > MAX_INT64 then MAX_INT64 else fee / tx.gas)
  {
    hide Tip, EffectivePrice, Int64, Suffices, IsDynamicPrice;
    SignedGas(tx.gas);
    EffectiveBelowDeclared(params, tx);
    if Tip(tx.options).Some? { DynamicPrice(params, tx.fees[0].amount, tx.gas, Tip(tx.options).value, 0); }
  }

  /** Up to MaxInt64 gas, a transaction is accepted exactly when its single fee, in the right denomination, pays
      every minimum for all of the gas, and a dynamic fee has a tip that is not negative, reaches every minimum
      together with the base fee, and leaves a price above zero. */
  lemma AcceptedExactly(ctx: Ctx, params: Params, tx: FeeTx)
    requires 0 < tx.gas <= MAX_INT64
    ensures Checked(ctx, params, tx).Charged? <==>
      && |tx.fees| == 1 && tx.fees[0].denom == params.denom && PaysMinimums(ctx, params, tx.fees[0].amount, tx.gas)
      && (Tip(tx.options).Some? ==>
            var most := Tip(tx.options).value + params.baseFee;
            Tip(tx.options).value >= 0 && most > 0 && tx.gas <= tx.fees[0].amount && forall m :: m in Minimums(ctx, params) ==> m <= most)
  {
    hide Minimums, Tip, PaysMinimums, Int64, EffectivePrice;
    SignedGas(tx.gas);
    if Payable(params, tx) {
      var fee := tx.fees[0].amount;
      SufficesPays(ctx, params, fee, tx.gas);
      if Tip(tx.options).Some? { DynamicAccepted(ctx, params, tx); }
    }
  }

  lemma DynamicAccepted(ctx: Ctx, params: Params, tx: FeeTx)
    requires Payable(params, tx) && 0 < tx.gas && Tip(tx.options).Some?
    ensures var fee := EffectiveFee(params, tx);
      var most := Tip(tx.options).value + params.baseFee;
      && (fee > 0 <==> most > 0 && tx.gas <= tx.fees[0].amount)
      && (Suffices(ctx, params, fee / tx.gas) <==>
            PaysMinimums(ctx, params, tx.fees[0].amount, tx.gas) && forall m :: m in Minimums(ctx, params) ==> m <= most)
  {
    hide Minimums, Tip, EffectivePrice;
    var declared, tip := tx.fees[0].amount, Tip(tx.options).value;
    var price := EffectivePrice(params, declared, tx.gas, tip);
    DivMul(price, tx.gas);
    DynamicPrice(params, declared, tx.gas, tip, 1);
    forall m | m in Minimums(ctx, params) ensures m <= price <==> m <= tip + params.baseFee && m * tx.gas <= declared {
      DynamicPrice(params, declared, tx.gas, tip, m);
    }
  }

  /** The checker panics exactly on a payable transaction without gas, or with a dynamic price of zero. */
  lemma PanicsExactly(ctx: Ctx, params: Params, tx: FeeTx)
    ensures Checked(ctx, params, tx).Panicked? <==>
      && |tx.fees| == 1 && tx.fees[0].denom == params.denom
      && (Tip(tx.options).Some? ==> Tip(tx.options).value >= 0)
      && (tx.gas == 0 || (Tip(tx.options).Some? && (Tip(tx.options).value + params.baseFee == 0 || tx.fees[0].amount < tx.gas)))
  {
    hide Minimums, Tip, Int64, Suffices, EffectivePrice;
    SignedGas(tx.gas);
    if Payable(params, tx) && tx.gas > 0 && Tip(tx.options).Some? { DynamicAccepted(ctx, params, tx); }
  }

  /** Above MaxInt64 the gas turns negative: such a transaction is accepted only when every minimum is
      zero and the fee is below 2^64 - gas, and then with priority 0. */
  lemma LargeGas(ctx: Ctx, params: Params, tx: FeeTx)
    requires Payable(params, tx) && tx.gas > MAX_INT64 && (Tip(tx.options).Some? ==> EffectiveFee(params, tx) > 0)
    ensures var fee := EffectiveFee(params, tx);
      Checked(ctx, params, tx) ==
        if Minimums(ctx, params) == {0} && fee < 0x1_0000_0000_0000_0000 - tx.gas then Charged(fee, 0) else Refused
  {
    hide Tip, EffectiveFee, Int64;
    SignedGas(tx.gas);
    var fee, d := EffectiveFee(params, tx), 0x1_0000_0000_0000_0000 - tx.gas;
    assert Quo(fee, Int64(tx.gas)) == -(fee / d);
    ZeroQuotient(fee, d);
    assert params.baseFee in Minimums(ctx, params);
    hide Minimums;
    if Minimums(ctx, params) != {0} && fee / d == 0 {
      assert exists x :: x in Minimums(ctx, params) && x != 0;
    }
  }

  /** A gas limit of 2^63 with a fee of ten per gas is refused, although one per gas is all that is asked. */
  lemma LargeGasRefused()
    ensures var ctx, params, tx := Ctx(false, false, map[]), Params("wei", 1, 0), FeeTx([Coin("wei", 92233720368547758080)], 0x8000_0000_0000_0000, []);
      PaysMinimums(ctx, params, EffectiveFee(params, tx), tx.gas) && Checked(ctx, params, tx) == Refused
  {
    var ctx, params, tx := Ctx(false, false, map[]), Params("wei", 1, 0), FeeTx([Coin("wei", 92233720368547758080)], 0x8000_0000_0000_0000, []);
    LargeGas(ctx, params, tx);
    assert 1 in Minimums(ctx, params);
  }

  lemma ZeroQuotient(fee: nat, d: nat)
    requires d > 0
    ensures fee / d >= 0 && (fee / d == 0 <==> fee < d)
  {
  }

  /** What CheckTx accepts, ReCheckTx and delivery accept with the same fee and priority. */
  lemma CheckTxImpliesDelivery(ctx: Ctx, later: Ctx, params: Params, tx: FeeTx)
    requires ctx.isCheckTx && !ctx.isReCheckTx && (later.isReCheckTx || !later.isCheckTx)
    requires Checked(ctx, params, tx).Charged?
    ensures Checked(later, params, tx) == Checked(ctx, params, tx)
  {
    hide Tip, EffectiveFee, Int64, Quo;
    assert Minimums(later, params) <= Minimums(ctx, params);
    hide Minimums;
  }
}
