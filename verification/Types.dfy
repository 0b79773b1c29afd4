/** Transactions, blocks, network profiles, and the oracle that stands for hashing,
    signature checks and encodings. */
module Types {
  import opened Arith
  import Text

  type Address = string
  type AssetId = string
  type StakeId = string
  type Hash = string

  const TX_VERSION_LEGACY: nat := 1
  const TX_VERSION_ASSET: nat := 3
  const MAX_TX_VERSION: nat := 3
  const BLOCK_VERSION_CANONICAL: nat := 2
  const MAX_BLOCK_VERSION: nat := 2

  const COINBASE_SENDER: Address := "COINBASE"
  const FEE_COLLECTOR: Address := "__INDOCHAIN_FEE_POOL__"
  const NATIVE_ASSET: AssetId := "dIDR"

  /** The `type` string of a transaction; `Untyped` is the empty string. */
  datatype TxKind =
    | Untyped | Transfer | Coinbase | StakeLock | StakeUnlock
    | AssetCreate | AssetMint | AssetBurn | Unsupported

  datatype Transaction = Transaction(
    version: nat,
    id: string,
    sender: Address,
    recipient: Address,
    amount: u64,
    fee: u64,
    nonce: u64,
    timestamp: int,
    signature: string,
    publicKey: string,
    coinbase: bool,
    rawKind: TxKind,
    stakeId: StakeId,
    assetId: AssetId,
    feePayer: Address,
    feePayerKey: string,
    feePayerSignature: string,
    assetName: string,
    assetSymbol: string,
    assetDecimals: nat,
    assetMaxSupply: u64,
    assetMintable: bool,
    assetBurnable: bool,
    assetPausable: bool,
    assetPermissioned: bool)
  {
    function ProtocolVersion(): nat {
      if version == 0 then TX_VERSION_LEGACY else version
    }

    function Kind(): TxKind {
      if rawKind != Untyped then rawKind
      else if coinbase then Coinbase
      else Transfer
    }

    function EffectiveAssetId(): AssetId {
      if assetId == "" then NATIVE_ASSET else assetId
    }

    function EffectiveFeePayer(): Address {
      if feePayer == "" then sender else feePayer
    }
  }

  datatype Block = Block(
    version: nat,
    height: u64,
    previousHash: Hash,
    timestamp: int,
    nonce: u64,
    difficulty: nat,
    miner: Address,
    txs: seq<Transaction>,
    merkleRoot: Hash,
    stateRoot: Hash,
    hash: Hash,
    genesisMarker: string)
  {
    function ProtocolVersion(): nat {
      if version == 0 then 1 else version
    }
  }

  datatype DifficultyParams = DifficultyParams(
    initial: nat,
    minimum: nat,
    maximum: nat,
    targetSeconds: int,
    window: nat,
    maxFutureDrift: int)

  datatype FeeParams = FeeParams(
    enabled: bool,
    minFee: u64,
    minGasPrice: u64,
    bytesPerGas: nat,
    maxGasPerTx: nat,
    baseGas: TxKind -> u64,        // one entry per transaction type
    baseGasAssetTransfer: u64)

  datatype StakingParams = StakingParams(
    enabled: bool,
    minStakeAmount: u64,
    unbondingPeriod: u64,
    maxActivePerAddress: int)

  datatype Profile = Profile(
    txVersion: nat,
    blockVersion: nat,
    coinbaseMaturity: u64,
    maxBlockBytes: nat,
    maxTxBytes: nat,
    maxTxCount: nat,
    maxGasPerBlock: u64,
    staking: StakingParams,
    fee: FeeParams,
    difficulty: DifficultyParams,
    blockSubsidy: u64,
    paymasterEnabled: bool,
    maxReorgDepth: nat,
    maxReorgFetch: nat)

  /** Hashes, signatures and encodings: arbitrary functions, so every theorem holds for
      whatever the cryptography computes. */
  datatype Oracle = Oracle(
    validAddress: Address -> bool,
    txId: Transaction -> Option<string>,
    signed: Transaction -> bool,        // public key owns the sender address and verifies
    sponsored: Transaction -> bool,     // sponsor key owns the fee payer address and verifies
    envelopeBytes: Transaction -> Option<nat>,
    txBytes: Transaction -> nat,
    blockBytes: Block -> nat,
    blockHash: Block -> Hash,
    merkleRoot: seq<Transaction> -> Hash,
    meetsTarget: (Hash, nat) -> bool)

  datatype Env = Env(profile: Profile, oracle: Oracle) {
    predicate AssetModel() {
      profile.txVersion >= TX_VERSION_ASSET
    }

    predicate ValidAddress(a: Address) {
      oracle.validAddress(a)
    }

    /** What consensus relies on about addresses: nobody can own the fee pool, and a valid
        address is not white space. The codec of `Addresses` guarantees both. */
    ghost predicate AddressesSound() {
      && !ValidAddress(FEE_COLLECTOR)
      && forall a :: ValidAddress(a) ==> !Text.Blank(a)
    }
  }

  /** types/transaction.go:281 */
  predicate TxVersionActive(version: nat, active: nat) {
    var v := if version == 0 then TX_VERSION_LEGACY else version;
    var a := if active == 0 then TX_VERSION_LEGACY else active;
    v <= MAX_TX_VERSION && v <= a
  }

  /** types/block.go:62 */
  predicate BlockVersionActive(version: nat, active: nat) {
    var v := if version == 0 then 1 else version;
    var a := if active == 0 then 1 else active;
    v <= MAX_BLOCK_VERSION && v == a
  }
}
