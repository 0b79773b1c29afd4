/** The ledger's transition functions (ledger/maturity.go, ledger/asset_execution.go).

    Balances, mature balances and nonces are multisets of addresses: multiplicity is the
    amount, cardinality the total. A result of `None` is an error and leaves no new state. */
module Ledgers {
  import opened Arith
  import opened Types
  import opened Assets
  import Fees
  import Staking

  datatype PendingCoinbase = PendingCoinbase(address: Address, amount: u64, height: u64)

  datatype Ledger = Ledger(
    known: set<Address>,              // addresses with an account entry, zero or not
    confirmed: multiset<Address>,
    mature: multiset<Address>,
    nonces: multiset<Address>,
    pending: seq<PendingCoinbase>,    // coinbases not yet mature, oldest first
    height: u64,
    stakes: Staking.Records,          // refreshed at `height`
    assets: AssetBook)

  const NEW_LEDGER: Ledger := Ledger({}, multiset{}, multiset{}, multiset{}, [], 0, map[], EMPTY_BOOK)

  // ---------------------------------------------------------------- coinbase maturity

  predicate Due(env: Env, c: PendingCoinbase, height: u64) {
    c.height + env.profile.coinbaseMaturity <= height
  }

  function MatureStep(env: Env, l: Ledger, c: PendingCoinbase, height: u64): Ledger {
    if Due(env, c, height) && l.mature[c.address] + c.amount <= MAX_U64
    then l.(mature := l.mature[c.address := l.mature[c.address] + c.amount], known := l.known + {c.address})
    else l.(pending := l.pending + [c])
  }

  /** Works through `credits`, crediting the due ones and collecting the rest. */
  function MatureRun(env: Env, l: Ledger, credits: seq<PendingCoinbase>, height: u64): Ledger {
    if credits == [] then l.(pending := [])
    else MatureStep(env, MatureRun(env, l, credits[..|credits| - 1], height), credits[|credits| - 1], height)
  }

  function MatureCoinbases(env: Env, l: Ledger, height: u64): Ledger {
    MatureRun(env, l, l.pending, height)
  }

  function ApplyCoinbase(env: Env, l: Ledger, tx: Transaction, height: u64): Option<Ledger> {
    var to := tx.recipient;
    if !tx.coinbase || !env.ValidAddress(to) || l.confirmed[to] + tx.amount > MAX_U64 then None else
    var assets :- if env.AssetModel() then l.assets.Credit(to, NATIVE_ASSET, tx.amount) else Some(l.assets);
    Some(l.(known := l.known + {to},
            confirmed := l.confirmed[to := l.confirmed[to] + tx.amount],
            pending := if tx.amount > 0 then l.pending + [PendingCoinbase(to, tx.amount, height)] else l.pending,
            assets := assets))
  }

  // ---------------------------------------------------------------- native coin movements

  ghost predicate SpendAllowed(l: Ledger, a: Address, n: u64) {
    n > 0 ==>
      && n <= l.confirmed[a]
      && Staking.Locked(l.stakes)[a] + n <= l.mature[a]
      && n <= l.assets.Balance(a, NATIVE_ASSET)
  }

  ghost function Spend(l: Ledger, a: Address, n: u64): Option<Ledger> {
    if !SpendAllowed(l, a, n) then None else
    var assets :- l.assets.Debit(a, NATIVE_ASSET, n);
    Some(l.(known := l.known + {a},
            confirmed := l.confirmed[a := l.confirmed[a] - n],
            mature := l.mature[a := l.mature[a] - n],
            assets := assets))
  }

  function Receive(l: Ledger, a: Address, n: u64): Option<Ledger> {
    if n == 0 then Some(l)
    else if l.confirmed[a] + n > MAX_U64 || l.mature[a] + n > MAX_U64 then None else
    var assets :- l.assets.Credit(a, NATIVE_ASSET, n);
    Some(l.(known := l.known + {a},
            confirmed := l.confirmed[a := l.confirmed[a] + n],
            mature := l.mature[a := l.mature[a] + n],
            assets := assets))
  }

  ghost function ChargeFee(l: Ledger, payer: Address, fee: u64): Option<Ledger> {
    if fee == 0 then Some(l) else
    var spent :- Spend(l, payer, fee);
    var assets :- spent.assets.Credit(FEE_COLLECTOR, NATIVE_ASSET, fee);
    Some(spent.(assets := assets))
  }

  function FeePool(l: Ledger): nat {
    l.assets.Balance(FEE_COLLECTOR, NATIVE_ASSET)
  }

  function SettleFees(env: Env, l: Ledger, miner: Address): Option<Ledger> {
    var fee := FeePool(l);
    if fee == 0 then Some(l)
    else if miner == "" || !env.ValidAddress(miner) || fee > MAX_U64 then None else
    var assets :- l.assets.Debit(FEE_COLLECTOR, NATIVE_ASSET, fee);
    Receive(l.(assets := assets), miner, fee)
  }

  // ---------------------------------------------------------------- validation

  /** types/transaction.go:194 */
  predicate EnvelopeValid(tx: Transaction) {
    && tx.ProtocolVersion() == TX_VERSION_ASSET
    && !tx.coinbase
    && tx.sender != ""
    && (match tx.Kind()
        case Transfer => tx.recipient != "" && tx.recipient != tx.sender && tx.amount > 0
        case AssetCreate =>
          && tx.recipient == ""
          && (tx.assetId != "" ==> tx.id != "")
          && tx.assetName != "" && tx.assetSymbol != "" && tx.assetDecimals <= 18
        case AssetMint => tx.recipient != "" && !IsNative(tx.assetId) && tx.assetId != "" && tx.amount > 0
        case AssetBurn => tx.recipient == tx.sender && tx.assetId != "" && !IsNative(tx.assetId) && tx.amount > 0
        case _ => false)
    && (tx.EffectiveFeePayer() != tx.sender ==> tx.feePayerKey != "" && tx.feePayerSignature != "")
  }

  /** types/transaction.go:370 */
  predicate FeePayerAuthorized(env: Env, tx: Transaction) {
    if tx.EffectiveFeePayer() == tx.sender then
      tx.feePayerKey == "" && tx.feePayerSignature == ""
    else
      && env.profile.paymasterEnabled
      && env.ValidAddress(tx.EffectiveFeePayer())
      && tx.feePayerKey != "" && tx.feePayerSignature != ""
      && env.oracle.sponsored(tx)
  }

  function DefinitionOf(tx: Transaction): Definition {
    Definition(DerivedId(tx.id), tx.assetName, tx.assetSymbol, tx.assetDecimals, Fungible, tx.sender,
               tx.assetMaxSupply, 0, tx.assetMintable, tx.assetBurnable, tx.assetPausable,
               tx.assetPermissioned, AssetStatus.Active)
  }

  /** Everything about a v3 transaction that does not depend on the ledger. */
  predicate WellSignedV3(env: Env, tx: Transaction) {
    && Fees.Acceptable(env, tx)
    && EnvelopeValid(tx)
    && (tx.Kind() == Transfer ==> tx.assetId != "")
    && env.ValidAddress(tx.sender)
    && (tx.Kind() == Transfer || tx.Kind() == AssetMint ==> env.ValidAddress(tx.recipient))
    && env.oracle.txId(tx) == Some(tx.id)
    && (tx.Kind() == AssetCreate ==> tx.assetId == DerivedId(tx.id))
    && env.oracle.signed(tx)
    && FeePayerAuthorized(env, tx)
  }

  ghost predicate NativeTransferFunded(l: Ledger, tx: Transaction) {
    var payer := tx.EffectiveFeePayer();
    var cost := if payer == tx.sender then tx.amount + tx.fee else tx.amount;
    && cost <= MAX_U64
    && SpendAllowed(l, tx.sender, cost)
    && (payer != tx.sender ==> SpendAllowed(l, payer, tx.fee))
    && tx.amount <= l.assets.Balance(tx.sender, NATIVE_ASSET)
  }

  predicate MovesNative(tx: Transaction) {
    tx.Kind() == Transfer && IsNative(tx.EffectiveAssetId())
  }

  predicate TokenExecutable(assets: AssetBook, tx: Transaction) {
    match tx.Kind()
    case Transfer => tx.amount <= assets.Balance(tx.sender, tx.assetId)
    case AssetCreate => tx.assetId !in assets.defs && ValidDefinition(DefinitionOf(tx))
    case AssetMint =>
      && tx.assetId in assets.defs
      && !IsNative(assets.defs[tx.assetId].id)
      && MayMint(assets.defs[tx.assetId], tx.sender, tx.amount)
      && assets.Balance(tx.recipient, tx.assetId) + tx.amount <= MAX_U64
    case AssetBurn =>
      && tx.assetId in assets.defs
      && !IsNative(assets.defs[tx.assetId].id)
      && MayBurn(assets.defs[tx.assetId], tx.amount)
      && tx.amount <= assets.Balance(tx.sender, tx.assetId)
    case _ => false
  }

  ghost predicate ExecutableV3(l: Ledger, tx: Transaction) {
    if MovesNative(tx) then NativeTransferFunded(l, tx)
    else TokenExecutable(l.assets, tx) && SpendAllowed(l, tx.EffectiveFeePayer(), tx.fee)
  }

  /** Everything about a v1/v2 transaction that does not depend on the ledger. */
  predicate WellSignedLegacy(env: Env, tx: Transaction) {
    && (match tx.Kind()
        case Transfer => tx.amount > 0 && tx.sender != tx.recipient && env.ValidAddress(tx.recipient)
        case StakeLock =>
          && tx.amount > 0 && tx.amount >= env.profile.staking.minStakeAmount
          && (tx.recipient == "" || tx.recipient == tx.sender)
          && (tx.stakeId == "" || tx.stakeId == tx.id)
        case StakeUnlock => tx.stakeId != ""
        case _ => false)
    && env.ValidAddress(tx.sender)
    && env.oracle.txId(tx) == Some(tx.id)
    && env.oracle.signed(tx)
  }

  ghost predicate ExecutableLegacy(env: Env, l: Ledger, tx: Transaction) {
    var locked := Staking.Locked(l.stakes)[tx.sender];
    match tx.Kind()
    case Transfer =>
      && tx.amount + tx.fee <= MAX_U64
      && tx.amount + tx.fee <= l.confirmed[tx.sender]
      && locked + tx.amount + tx.fee <= l.mature[tx.sender]
    case StakeLock =>
      && locked + tx.amount <= l.mature[tx.sender]
      && (env.profile.staking.maxActivePerAddress > 0 ==>
            Staking.ActiveCount(l.stakes, tx.sender) < env.profile.staking.maxActivePerAddress)
    case StakeUnlock =>
      && tx.stakeId in l.stakes
      && l.stakes[tx.stakeId].owner == tx.sender
      && l.stakes[tx.stakeId].status == Staking.Active
    case _ => false
  }

  predicate WellSigned(env: Env, tx: Transaction) {
    && TxVersionActive(tx.ProtocolVersion(), env.profile.txVersion)
    && if tx.ProtocolVersion() == TX_VERSION_ASSET then WellSignedV3(env, tx) else WellSignedLegacy(env, tx)
  }

  ghost predicate Executable(env: Env, l: Ledger, tx: Transaction) {
    if tx.ProtocolVersion() == TX_VERSION_ASSET then ExecutableV3(l, tx) else ExecutableLegacy(env, l, tx)
  }

  /** `ValidateTransaction`, for a transaction that is not a coinbase. */
  ghost predicate ValidTransaction(env: Env, l: Ledger, tx: Transaction) {
    && WellSigned(env, tx)
    && tx.nonce == l.nonces[tx.sender] + 1
    && Executable(env, l, tx)
  }

  // ---------------------------------------------------------------- execution

  function UseNonce(l: Ledger, tx: Transaction): Ledger {
    l.(nonces := l.nonces[tx.sender := tx.nonce], known := l.known + {tx.sender})
  }

  /** The token operation of a v3 transaction that does not move native coins. */
  function TokenEffect(assets: AssetBook, tx: Transaction): Option<AssetBook> {
    match tx.Kind()
    case Transfer => assets.Transfer(tx.assetId, tx.sender, tx.recipient, tx.amount)
    case AssetCreate => assets.Create(DefinitionOf(tx))
    case AssetMint => assets.Mint(tx.assetId, tx.sender, tx.recipient, tx.amount)
    case AssetBurn => assets.Burn(tx.assetId, tx.sender, tx.amount)
    case _ => None
  }

  /** What a v3 transaction does to the ledger before its nonce is used. */
  ghost function EffectV3(l: Ledger, tx: Transaction): Option<Ledger> {
    if MovesNative(tx) then
      var sent :- Spend(l, tx.sender, tx.amount);
      var charged :- ChargeFee(sent, tx.EffectiveFeePayer(), tx.fee);
      Receive(charged, tx.recipient, tx.amount)
    else
      var assets :- TokenEffect(l.assets, tx);
      ChargeFee(l.(assets := assets), tx.EffectiveFeePayer(), tx.fee)
  }

  /** The asset-book side of a pre-v3 transfer. */
  function LegacyBook(env: Env, assets: AssetBook, tx: Transaction): Option<AssetBook>
    requires tx.amount + tx.fee <= MAX_U64
  {
    if !env.AssetModel() then Some(assets) else
    var debited :- assets.Debit(tx.sender, NATIVE_ASSET, tx.amount + tx.fee);
    debited.Credit(tx.recipient, NATIVE_ASSET, tx.amount)
  }

  function LegacyTransfer(env: Env, l: Ledger, tx: Transaction): Option<Ledger> {
    var cost := tx.amount + tx.fee;
    if cost > MAX_U64 || cost > l.confirmed[tx.sender] || cost > l.mature[tx.sender]
       || l.confirmed[tx.recipient] + tx.amount > MAX_U64
       || l.mature[tx.recipient] + tx.amount > MAX_U64 then None else
    var credited :- LegacyBook(env, l.assets, tx);
    var paid := l.(known := l.known + {tx.sender, tx.recipient},
                   confirmed := l.confirmed[tx.sender := l.confirmed[tx.sender] - cost],
                   mature := l.mature[tx.sender := l.mature[tx.sender] - cost],
                   assets := credited);
    Some(paid.(confirmed := paid.confirmed[tx.recipient := paid.confirmed[tx.recipient] + tx.amount],
               mature := paid.mature[tx.recipient := paid.mature[tx.recipient] + tx.amount]))
  }

  function LegacyEffect(env: Env, l: Ledger, tx: Transaction, height: u64): Option<Ledger> {
    match tx.Kind()
    case Transfer => LegacyTransfer(env, l, tx)
    case StakeLock =>
      var stakes :- Staking.ApplyLock(env.profile.staking, l.stakes, tx, height);
      Some(l.(stakes := stakes))
    case StakeUnlock =>
      var stakes :- Staking.ApplyUnlock(env.profile.staking, l.stakes, tx, height);
      Some(l.(stakes := Staking.Refresh(stakes, l.height)))
    case _ => None
  }

  ghost function Effect(env: Env, l: Ledger, tx: Transaction, height: u64): Option<Ledger> {
    if tx.ProtocolVersion() == TX_VERSION_ASSET then EffectV3(l, tx) else LegacyEffect(env, l, tx, height)
  }

  ghost function ApplyTransaction(env: Env, l: Ledger, tx: Transaction, height: u64): Option<Ledger> {
    if !ValidTransaction(env, l, tx) then None else
    var after :- Effect(env, l, tx, height);
    Some(UseNonce(after, tx))
  }

  ghost function ApplyAny(env: Env, l: Ledger, tx: Transaction, height: u64): Option<Ledger> {
    if tx.coinbase then ApplyCoinbase(env, l, tx, height) else ApplyTransaction(env, l, tx, height)
  }

  ghost function ApplyAll(env: Env, l: Ledger, txs: seq<Transaction>, height: u64): Option<Ledger> {
    if txs == [] then Some(l) else
    var before :- ApplyAll(env, l, txs[..|txs| - 1], height);
    ApplyAny(env, before, txs[|txs| - 1], height)
  }

  // ---------------------------------------------------------------- blocks

  function CoinbaseCount(txs: seq<Transaction>): nat {
    if txs == [] then 0
    else CoinbaseCount(txs[..|txs| - 1]) + (if txs[|txs| - 1].coinbase then 1 else 0)
  }

  function OpenBlock(env: Env, l: Ledger, b: Block): Ledger {
    if b.height > 0 then MatureCoinbases(env, l, b.height - 1) else l
  }

  function CloseBlock(env: Env, l: Ledger, b: Block): Ledger {
    MatureCoinbases(env, l.(height := b.height, stakes := Staking.Refresh(l.stakes, b.height)), b.height)
  }

  function Settle(env: Env, l: Ledger, b: Block): Option<Ledger> {
    if env.AssetModel() then SettleFees(env, l, b.miner) else Some(l)
  }

  ghost function ApplyBlock(env: Env, l: Ledger, b: Block): Option<Ledger> {
    if CoinbaseCount(b.txs) > 1 then None else
    var applied :- ApplyAll(env, OpenBlock(env, l, b), b.txs, b.height);
    var settled :- Settle(env, applied, b);
    Some(CloseBlock(env, settled, b))
  }

  ghost function ApplyBlocks(env: Env, l: Ledger, blocks: seq<Block>): Option<Ledger> {
    if blocks == [] then Some(l) else
    var before :- ApplyBlocks(env, l, blocks[..|blocks| - 1]);
    ApplyBlock(env, before, blocks[|blocks| - 1])
  }

  ghost function Replay(env: Env, blocks: seq<Block>): Option<Ledger> {
    var l :- ApplyBlocks(env, NEW_LEDGER, blocks);
    Some(if blocks == [] then l else MatureCoinbases(env, l, blocks[|blocks| - 1].height))
  }
}
