/** Gas metering and the minimum-fee policy (fees/policy.go). */
module Fees {
  import opened Arith
  import opened Types

  predicate Metered(env: Env, tx: Transaction) {
    !tx.coinbase && tx.ProtocolVersion() >= TX_VERSION_ASSET && env.profile.fee.enabled
  }

  function BaseGas(tx: Transaction, params: FeeParams): Option<u64> {
    match tx.Kind()
    case Transfer =>
      Some(if tx.EffectiveAssetId() == NATIVE_ASSET then params.baseGas(Transfer) else params.baseGasAssetTransfer)
    case StakeLock | StakeUnlock | AssetCreate | AssetMint | AssetBurn => Some(params.baseGas(tx.Kind()))
    case _ => None
  }

  /** The public key is not charged for, so signing does not change the gas. */
  function GasUsed(env: Env, tx: Transaction): Option<u64> {
    if !Metered(env, tx) then Some(0) else
    var params := env.profile.fee;
    var base :- BaseGas(tx, params);
    var size :- env.oracle.envelopeBytes(tx.(publicKey := ""));
    var unit := if params.bytesPerGas == 0 then 32 else params.bytesPerGas;
    var gas := base + size / unit + (if size % unit != 0 then 1 else 0);
    if gas > MAX_U64 || (params.maxGasPerTx > 0 && gas > params.maxGasPerTx) then None else Some(gas)
  }

  function MinimumFee(env: Env, tx: Transaction): Option<u64> {
    if !Metered(env, tx) then Some(0) else
    var gas :- GasUsed(env, tx);
    var fee := gas * env.profile.fee.minGasPrice;
    if fee > MAX_U64 then None
    else Some(if fee < env.profile.fee.minFee then env.profile.fee.minFee else fee)
  }

  predicate Acceptable(env: Env, tx: Transaction) {
    Metered(env, tx) ==>
      && GasUsed(env, tx).Some?
      && var minimum := MinimumFee(env, tx);
         minimum.Some? && tx.fee >= minimum.value
  }

  /** A metered transaction that passes the policy pays at least the configured floor. */
  lemma AcceptablePaysFloor(env: Env, tx: Transaction)
    requires Acceptable(env, tx) && Metered(env, tx)
    ensures tx.fee >= env.profile.fee.minFee
  {
  }

  function BytesPerGas(env: Env): nat {
    if env.profile.fee.bytesPerGas == 0 then 32 else env.profile.fee.bytesPerGas
  }

  /** Gas is the base amount plus the number of started units of the envelope's size. */
  lemma GasIsCeiling(env: Env, tx: Transaction)
    requires Metered(env, tx) && GasUsed(env, tx).Some?
    ensures
      var size := env.oracle.envelopeBytes(tx.(publicKey := ""));
      var base := BaseGas(tx, env.profile.fee);
      && size.Some? && base.Some?
      && var units := GasUsed(env, tx).value - base.value;
         size.value <= units * BytesPerGas(env) < size.value + BytesPerGas(env)
  {
    StartedUnits(env.oracle.envelopeBytes(tx.(publicKey := "")).value, BytesPerGas(env));
  }

  lemma StartedUnits(size: nat, unit: nat)
    requires unit > 0
    ensures
      var units := size / unit + (if size % unit != 0 then 1 else 0);
      size <= units * unit < size + unit
  {
    var q, rest := size / unit, size % unit;
    assert size == q * unit + rest;
    assert (q + 1) * unit == q * unit + unit;
  }

  /** `gas` is the base amount plus the started units of the size. */
  predicate IsGas(base: nat, size: nat, unit: nat, gas: nat) {
    gas >= base && size <= (gas - base) * unit < size + unit
  }

  lemma OneCeiling(base: nat, size: nat, unit: nat, gas: nat)
    requires unit > 0
    ensures IsGas(base, size, unit, gas) <==> gas == base + size / unit + (if size % unit != 0 then 1 else 0)
  {
    StartedUnits(size, unit);
    var units := size / unit + (if size % unit != 0 then 1 else 0);
    var other := gas - base;
    if other > units {
      Scaled(units + 1, other, unit);
      assert (units + 1) * unit == units * unit + unit;
    } else if 0 <= other < units {
      Scaled(other + 1, units, unit);
      assert (other + 1) * unit == other * unit + unit;
    }
  }

  lemma Scaled(x: nat, y: nat, k: nat)
    requires x <= y
    ensures x * k <= y * k
  {
  }

  /** The whole policy without its divisions and overflow checks: a metered transaction is acceptable
      exactly when it has an encoding and a base price and its fee is worth its gas, at least the floor,
      with the gas within the limits. */
  lemma AcceptableIff(env: Env, tx: Transaction)
    requires !tx.coinbase && tx.ProtocolVersion() >= TX_VERSION_ASSET && env.profile.fee.enabled
    ensures
      var p := env.profile.fee;
      var base, size := BaseGas(tx, p), env.oracle.envelopeBytes(tx.(publicKey := ""));
      Acceptable(env, tx) <==>
        && base.Some? && size.Some?
        && exists gas: nat :: IsGas(base.value, size.value, BytesPerGas(env), gas)
             && gas <= MAX_U64 && (p.maxGasPerTx > 0 ==> gas <= p.maxGasPerTx)
             && tx.fee >= p.minFee && tx.fee >= gas * p.minGasPrice
  {
    hide BaseGas, IsGas;
    var base, size := BaseGas(tx, env.profile.fee), env.oracle.envelopeBytes(tx.(publicKey := ""));
    if base.Some? && size.Some? {
      var unit := BytesPerGas(env);
      var gas := base.value + size.value / unit + (if size.value % unit != 0 then 1 else 0);
      OneCeiling(base.value, size.value, unit, gas);
      forall other: nat | IsGas(base.value, size.value, unit, other)
        ensures other == gas
      {
        OneCeiling(base.value, size.value, unit, other);
      }
    }
  }

  /** What each kind of transaction costs: its configured price and the started units of its size. A transfer of
      the native coin and one of an issued asset have prices of their own; other kinds have none. */
  lemma GasOfEachKind(env: Env, tx: Transaction, gas: u64)
    requires !tx.coinbase && tx.ProtocolVersion() >= TX_VERSION_ASSET && env.profile.fee.enabled
    requires GasUsed(env, tx) == Some(gas)
    ensures env.oracle.envelopeBytes(tx.(publicKey := "")).Some?
    ensures
      var p, size := env.profile.fee, env.oracle.envelopeBytes(tx.(publicKey := "")).value;
      && (tx.Kind() == Transfer && (tx.assetId == "" || tx.assetId == NATIVE_ASSET) ==>
            IsGas(p.baseGas(Transfer), size, BytesPerGas(env), gas))
      && (tx.Kind() == Transfer && tx.assetId != "" && tx.assetId != NATIVE_ASSET ==>
            IsGas(p.baseGasAssetTransfer, size, BytesPerGas(env), gas))
      && (tx.Kind() != Transfer ==> IsGas(p.baseGas(tx.Kind()), size, BytesPerGas(env), gas))
      && tx.Kind() in {Transfer, StakeLock, StakeUnlock, AssetCreate, AssetMint, AssetBurn}
      && (p.maxGasPerTx > 0 ==> gas <= p.maxGasPerTx)
  {
    var size := env.oracle.envelopeBytes(tx.(publicKey := "")).value;
    OneCeiling(BaseGas(tx, env.profile.fee).value, size, BytesPerGas(env), gas);
  }

  /** Coinbases, transactions before version 3, and networks without fees need no gas and no fee. */
  lemma UnmeteredIsFree(env: Env, tx: Transaction)
    requires tx.coinbase || tx.ProtocolVersion() < TX_VERSION_ASSET || !env.profile.fee.enabled
    ensures GasUsed(env, tx) == Some(0) && MinimumFee(env, tx) == Some(0) && Acceptable(env, tx)
  {
  }

  /** A transaction of the same kind with no larger envelope needs no more gas and no higher fee, so the
      fee that was enough for the larger one is enough for it. */
  lemma SmallerIsCheaper(env: Env, tx: Transaction, larger: Transaction)
    requires Metered(env, tx) && Metered(env, larger) && BaseGas(tx, env.profile.fee) == BaseGas(larger, env.profile.fee)
    requires
      var x, y := env.oracle.envelopeBytes(tx.(publicKey := "")), env.oracle.envelopeBytes(larger.(publicKey := ""));
      x.Some? && (y.Some? ==> x.value <= y.value)
    ensures GasUsed(env, larger).Some? ==> GasUsed(env, tx).Some? && GasUsed(env, tx).value <= GasUsed(env, larger).value
    ensures MinimumFee(env, larger).Some? ==>
              MinimumFee(env, tx).Some? && MinimumFee(env, tx).value <= MinimumFee(env, larger).value
    ensures Acceptable(env, larger) && tx.fee >= larger.fee ==> Acceptable(env, tx)
  {
    var x, y := env.oracle.envelopeBytes(tx.(publicKey := "")), env.oracle.envelopeBytes(larger.(publicKey := ""));
    if BaseGas(tx, env.profile.fee).Some? && y.Some? {
      MoreUnits(x.value, y.value, BytesPerGas(env));
      hide BaseGas;
      if GasUsed(env, larger).Some? {
        Scaled(GasUsed(env, tx).value, GasUsed(env, larger).value, env.profile.fee.minGasPrice);
      }
      hide GasUsed;
    }
  }

  lemma MoreUnits(x: nat, y: nat, unit: nat)
    requires x <= y && unit > 0
    ensures x / unit + (if x % unit != 0 then 1 else 0) <= y / unit + (if y % unit != 0 then 1 else 0)
  {
    var p, q := x / unit + (if x % unit != 0 then 1 else 0), y / unit + (if y % unit != 0 then 1 else 0);
    StartedUnits(x, unit);
    StartedUnits(y, unit);
    assert (q + 1) * unit == q * unit + unit;
    if q < p {
      Scaled(q + 1, p, unit);
    }
  }
}
