/** What transaction ids and block hashes are computed from (types/transaction.go, types/transaction_codec.go):
    which fields an id commits to depends on the transaction's version. */
module Preimages {
  import opened Arith
  import opened Types
  import opened Ledgers
  import opened Chains
  import Assets
  import ChainHistory
  import Fees
  import Merkle
  import Validation

  const TX_VERSION_CANONICAL: nat := 2

  datatype AssetFields = AssetFields(
    assetId: AssetId, feePayer: Address, name: string, symbol: string, decimals: nat, maxSupply: u64,
    mintable: bool, burnable: bool, pausable: bool, permissioned: bool)

  datatype Preimage =
    | Json(tx: Transaction)      // version 1: every field but the version, the id and the signature
    | Canonical(kind: TxKind, coinbase: bool, sender: Address, recipient: Address, amount: u64, fee: u64, nonce: u64,
                timestamp: int, publicKey: string, stakeId: StakeId, assetFields: Option<AssetFields>)

  /** The asset id an asset-creating transaction is to get is no part of its own preimage. */
  function SignedAsset(tx: Transaction): AssetFields {
    AssetFields(if tx.Kind() == AssetCreate then "" else tx.EffectiveAssetId(), tx.EffectiveFeePayer(), tx.assetName,
                tx.assetSymbol, tx.assetDecimals, tx.assetMaxSupply, tx.assetMintable, tx.assetBurnable,
                tx.assetPausable, tx.assetPermissioned)
  }

  function SignedStakeId(tx: Transaction): StakeId {
    if tx.Kind() == StakeLock then "" else tx.stakeId
  }

  function LegacyPreimage(tx: Transaction): (p: Preimage)
    ensures p.Json?
  {
    Json(tx.(version := 0, id := "", signature := "", stakeId := SignedStakeId(tx)))
  }

  function CanonicalPreimage(tx: Transaction): (p: Preimage)
    ensures p.Canonical? && (p.assetFields.Some? <==> tx.ProtocolVersion() == TX_VERSION_ASSET)
  {
    Canonical(tx.Kind(), tx.coinbase, tx.sender, tx.recipient, tx.amount, tx.fee, tx.nonce, tx.timestamp, tx.publicKey,
              SignedStakeId(tx), if tx.ProtocolVersion() == TX_VERSION_ASSET then Some(SignedAsset(tx)) else None)
  }

  function PreimageOf(tx: Transaction): Option<Preimage> {
    if tx.ProtocolVersion() == TX_VERSION_LEGACY then Some(LegacyPreimage(tx))
    else if tx.ProtocolVersion() == TX_VERSION_CANONICAL || tx.ProtocolVersion() == TX_VERSION_ASSET then
      Some(CanonicalPreimage(tx))
    else None
  }

  /** Equal ids have equal preimages: what a collision-free hash provides. */
  ghost predicate IdsName(env: Env) {
    forall t: Transaction, u: Transaction :: env.oracle.txId(t).Some? && env.oracle.txId(t) == env.oracle.txId(u) ==>
      PreimageOf(t).Some? && PreimageOf(t) == PreimageOf(u)
  }

  /** And ids are computed from nothing else. */
  ghost predicate IdsFollow(env: Env) {
    forall t: Transaction, u: Transaction :: PreimageOf(t) == PreimageOf(u) ==> env.oracle.txId(t) == env.oracle.txId(u)
  }

  /** Collision-free ids bind the sender and the nonce, which replay protection rests on. */
  lemma NamesBind(env: Env)
    requires IdsName(env)
    ensures ChainHistory.IdsBind(env)
  {
    forall t: Transaction, u: Transaction | env.oracle.txId(t).Some? && env.oracle.txId(t) == env.oracle.txId(u)
      ensures t.sender == u.sender && t.nonce == u.nonce
    {
      SamePreimage(t, u);
    }
  }

  /** The fields both forms commit to. */
  predicate SameFields(t: Transaction, u: Transaction) {
    && t.sender == u.sender && t.recipient == u.recipient && t.amount == u.amount && t.fee == u.fee && t.nonce == u.nonce
    && t.coinbase == u.coinbase && t.Kind() == u.Kind()
  }

  /** The terms an asset creation is signed with. */
  predicate SameTerms(t: Transaction, u: Transaction) {
    && t.assetName == u.assetName && t.assetSymbol == u.assetSymbol && t.assetDecimals == u.assetDecimals
    && t.assetMaxSupply == u.assetMaxSupply && t.assetMintable == u.assetMintable && t.assetBurnable == u.assetBurnable
    && t.assetPausable == u.assetPausable && t.assetPermissioned == u.assetPermissioned
  }

  lemma SameLegacy(t: Transaction, u: Transaction)
    requires LegacyPreimage(t) == LegacyPreimage(u)
    ensures SameFields(t, u) && t.assetId == u.assetId && t.feePayer == u.feePayer
    ensures t.timestamp == u.timestamp && t.publicKey == u.publicKey && (t.Kind() != StakeLock ==> t.stakeId == u.stakeId)
  {
    var x, y := LegacyPreimage(t).tx, LegacyPreimage(u).tx;
    assert x.rawKind == t.rawKind && y.rawKind == u.rawKind;
  }

  lemma SameCanonical(t: Transaction, u: Transaction)
    requires CanonicalPreimage(t) == CanonicalPreimage(u)
    ensures SameFields(t, u)
    ensures t.timestamp == u.timestamp && t.publicKey == u.publicKey && (t.Kind() != StakeLock ==> t.stakeId == u.stakeId)
    ensures t.ProtocolVersion() == TX_VERSION_ASSET ==>
              && t.EffectiveFeePayer() == u.EffectiveFeePayer()
              && (t.Kind() != AssetCreate ==> t.EffectiveAssetId() == u.EffectiveAssetId())
              && SameTerms(t, u)
  {
  }

  lemma SamePreimage(t: Transaction, u: Transaction)
    requires PreimageOf(t).Some? && PreimageOf(t) == PreimageOf(u)
    ensures SameFields(t, u) && t.ProtocolVersion() == u.ProtocolVersion()
    ensures t.timestamp == u.timestamp && t.publicKey == u.publicKey && (t.Kind() != StakeLock ==> t.stakeId == u.stakeId)
    ensures t.ProtocolVersion() == TX_VERSION_LEGACY ==> t.assetId == u.assetId && t.feePayer == u.feePayer
    ensures t.ProtocolVersion() == TX_VERSION_ASSET ==>
              && t.EffectiveFeePayer() == u.EffectiveFeePayer()
              && (t.Kind() != AssetCreate ==> t.EffectiveAssetId() == u.EffectiveAssetId())
              && SameTerms(t, u)
  {
    hide LegacyPreimage, CanonicalPreimage, SameFields;
    if t.ProtocolVersion() == TX_VERSION_LEGACY {
      SameLegacy(t, u);
    } else {
      SameCanonical(t, u);
    }
  }

  /** A transaction some of whose indexed fields its id leaves open: the asset or the fee payer of a version 2
      transaction, the asset of an asset-creating coinbase. */
  predicate Loose(tx: Transaction) {
    || (tx.ProtocolVersion() == TX_VERSION_CANONICAL
        && (tx.EffectiveAssetId() != NATIVE_ASSET || tx.EffectiveFeePayer() != tx.sender))
    || (tx.ProtocolVersion() == TX_VERSION_ASSET && tx.coinbase && tx.Kind() == AssetCreate
        && tx.EffectiveAssetId() != NATIVE_ASSET)
  }

  /** What block validation establishes about every transaction of a block. */
  predicate Committed(env: Env, tx: Transaction) {
    && env.oracle.txId(tx) == Some(tx.id)
    && (!tx.coinbase && tx.ProtocolVersion() == TX_VERSION_ASSET && tx.Kind() == AssetCreate ==>
          tx.assetId == Assets.DerivedId(tx.id))
  }

  /** Of two committed transactions with one id only loose ones can differ in asset or fee payer. */
  lemma SameIdSameFields(env: Env, t: Transaction, u: Transaction)
    requires IdsName(env) && Committed(env, t) && Committed(env, u) && t.id == u.id && !Loose(t) && !Loose(u)
    ensures t.sender == u.sender && t.recipient == u.recipient && t.amount == u.amount && t.fee == u.fee
    ensures t.EffectiveAssetId() == u.EffectiveAssetId() && t.EffectiveFeePayer() == u.EffectiveFeePayer()
  {
    SamePreimage(t, u);
    hide PreimageOf, Assets.DerivedId;
    Assets.DerivedIdIsIssued(t.id);
  }

  // ---------------------------------------------------------------- blocks

  /** Where the two chains have equal hashes at one height, the headers record the same parent, time and
      Merkle root. */
  ghost predicate HeadersBind(x: seq<Block>, y: seq<Block>) {
    forall i :: 0 <= i < |x| && i < |y| && x[i].hash == y[i].hash ==>
      x[i].previousHash == y[i].previousHash && x[i].timestamp == y[i].timestamp && x[i].merkleRoot == y[i].merkleRoot
  }

  function Ids(txs: seq<Transaction>): (ids: seq<string>)
    ensures |ids| == |txs| && forall i :: 0 <= i < |txs| ==> ids[i] == txs[i].id
  {
    seq(|txs|, i requires 0 <= i < |txs| => txs[i].id)
  }

  ghost predicate AllNamed(txs: seq<Transaction>) {
    forall i :: 0 <= i < |txs| ==> txs[i].id != ""
  }

  /** Merkle roots are those of the ids; the pairs in use do not collide, and no id is the hash of a pair. */
  ghost predicate RootsName(env: Env, h: Merkle.Hashing) {
    && Merkle.CollisionFree(h)
    && (forall txs :: AllNamed(txs) ==> env.oracle.merkleRoot(txs) == Merkle.Root(h.node, Ids(txs)))
    && (forall tx :: env.oracle.txId(tx).Some? ==> Merkle.Leaf(h, env.oracle.txId(tx).value))
  }

  /** The hash is in use for the Merkle roots of these blocks. */
  ghost predicate UsedFor(h: Merkle.Hashing, blocks: seq<Block>) {
    forall i :: 0 <= i < |blocks| ==> Merkle.Covers(h, Ids(blocks[i].txs))
  }

  lemma SameRootSameIds(env: Env, h: Merkle.Hashing, x: seq<Transaction>, y: seq<Transaction>)
    requires RootsName(env, h) && x != [] && y != [] && DistinctIds(x) && DistinctIds(y)
    requires Merkle.Covers(h, Ids(x)) && Merkle.Covers(h, Ids(y))
    requires (forall i :: 0 <= i < |x| ==> Committed(env, x[i])) && (forall i :: 0 <= i < |y| ==> Committed(env, y[i]))
    requires env.oracle.merkleRoot(x) == env.oracle.merkleRoot(y)
    ensures |x| == |y| && forall i :: 0 <= i < |x| ==> x[i].id == y[i].id
  {
    assert AllNamed(x) && AllNamed(y);
    hide Merkle.CollisionFree, Merkle.Leaf, Merkle.Root, Merkle.Covers, Assets.DerivedId;
    Merkle.RootBinds(h, Ids(x), Ids(y));
  }

  /** What is fixed about one accepted block. */
  ghost predicate Sealed(env: Env, b: Block) {
    && b.merkleRoot == env.oracle.merkleRoot(b.txs) && b.txs != [] && DistinctIds(b.txs)
    && forall i :: 0 <= i < |b.txs| ==> Committed(env, b.txs[i])
  }

  lemma AppliedCommitted(env: Env, l: Ledger, tx: Transaction, height: u64)
    requires ApplyTransaction(env, l, tx, height).Some? && !tx.coinbase
    ensures Committed(env, tx)
  {
    hide Executable, Effect, Fees.Acceptable, FeePayerAuthorized, UseNonce, Assets.DerivedId;
  }

  lemma {:induction false} AllCommitted(env: Env, l: Ledger, txs: seq<Transaction>, height: u64, i: nat)
    requires ApplyAll(env, l, txs, height).Some? && i < |txs| && !txs[i].coinbase
    ensures Committed(env, txs[i])
  {
    hide ApplyTransaction, ApplyCoinbase, Committed;
    var n := |txs| - 1;
    if i < n {
      AllCommitted(env, l, txs[..n], height, i);
    } else {
      AppliedCommitted(env, ApplyAll(env, l, txs[..n], height).value, txs[n], height);
    }
  }

  lemma BlockCommitted(rules: Rules, b: Block, prior: seq<Block>, i: nat)
    requires prior != [] && ValidBlock(rules, b, prior) && i < |b.txs|
    ensures Committed(rules.env, b.txs[i])
  {
    hide HeaderValid, ApplyAll, Replay, StateRootValid, Committed, CoinbaseCount, FeeTotal, Fees.Acceptable;
    if b.txs[i].coinbase {
      CoinbaseCommitted(rules.env, b, i);
    } else {
      AllCommitted(rules.env, Replay(rules.env, prior).value, b.txs, b.height, i);
    }
  }

  lemma CoinbaseCommitted(env: Env, b: Block, i: nat)
    requires TxListAllowed(env, b) && i < |b.txs| && b.txs[i].coinbase
    ensures Committed(env, b.txs[i])
  {
    assert TxAllowed(env, b.txs[i], i);
    hide CoinbaseCount, FeeTotal, Fees.Acceptable;
  }

  /** Every block of a valid chain above the genesis is sealed. */
  lemma ValidSealed(rules: Rules, blocks: seq<Block>, i: nat)
    requires rules.WellFormed() && ValidChain(rules, blocks) && 1 <= i < |blocks|
    ensures Sealed(rules.env, blocks[i])
  {
    HeightIsIndex(rules, blocks, i);
    assert ValidBlock(rules, blocks[i], blocks[..i]);
    hide ValidChain, StoredChain, Rules.WellFormed, Committed, Executes, DistinctIds;
    forall j | 0 <= j < |blocks[i].txs|
      ensures Committed(rules.env, blocks[i].txs[j])
    {
      BlockCommitted(rules, blocks[i], blocks[..i], j);
    }
    BlockIdsDiffer(rules, blocks, i);
  }

  lemma BlockIdsDiffer(rules: Rules, blocks: seq<Block>, i: nat)
    requires rules.WellFormed() && ValidChain(rules, blocks) && 1 <= i < |blocks|
    ensures DistinctIds(blocks[i].txs)
  {
    hide ValidChain, ValidNext, DistinctIds, Rules.WellFormed;
    Validation.ValidPrefix(rules, blocks, i + 1);
    assert blocks[..i + 1] == blocks[..i] + [blocks[i]];
    IncrementalValidation(rules, blocks[..i], blocks[i]);
  }
}
