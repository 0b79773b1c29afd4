/** What an address's coins, tokens and stakes go back to (ledger/maturity.go, ledger/asset_execution.go): over a
    whole replayed chain every balance is exactly what the transactions of its blocks say, and whoever it costs
    anything has signed. Everything here speaks of transactions' own fields and of what the oracle says about
    their signatures. */
module Accounts {
  import opened Arith
  import opened Types
  import opened Assets
  import opened Ledgers
  import opened LedgerInvariant
  import AssetSupply
  import ChainHistory
  import ChainSafety
  import Chains
  import Effects
  import Execution
  import Fees
  import Staking
  import Text

  // ---------------------------------------------------------------- consent

  /** `a` sent the transaction: it is signed for the sender, under its id. */
  predicate SignedBy(env: Env, tx: Transaction, a: Address) {
    !tx.coinbase && tx.sender == a && env.oracle.signed(tx) && env.oracle.txId(tx) == Some(tx.id)
  }

  /** `a` agreed to pay the fee of somebody else's transaction. */
  predicate SponsoredBy(env: Env, tx: Transaction, a: Address) {
    && !tx.coinbase && tx.ProtocolVersion() == TX_VERSION_ASSET && tx.sender != a && tx.EffectiveFeePayer() == a
    && env.profile.paymasterEnabled && env.oracle.sponsored(tx) && env.oracle.txId(tx) == Some(tx.id)
  }

  predicate AgreedTo(env: Env, tx: Transaction, a: Address) {
    SignedBy(env, tx, a) || SponsoredBy(env, tx, a)
  }

  /** Whose fee it is: the named payer's of a version 3 transaction, the sender's of an earlier transfer;
      earlier stake transactions cost none. */
  predicate PaysFee(tx: Transaction, a: Address) {
    && !tx.coinbase
    && if tx.ProtocolVersion() == TX_VERSION_ASSET then tx.EffectiveFeePayer() == a
       else tx.Kind() == Transfer && tx.sender == a
  }

  /** An applied transaction was signed, and by its fee payer where that is somebody else. */
  lemma AppliedIsAgreed(env: Env, l: Ledger, tx: Transaction, height: u64)
    requires ApplyTransaction(env, l, tx, height).Some? && !tx.coinbase
    ensures SignedBy(env, tx, tx.sender) && tx.nonce == l.nonces[tx.sender] + 1 && env.ValidAddress(tx.sender)
    ensures forall a :: PaysFee(tx, a) ==> AgreedTo(env, tx, a) && env.ValidAddress(a)
    ensures TxVersionActive(tx.ProtocolVersion(), env.profile.txVersion)
  {
    hide Executable, Effect, UseNonce, Fees.Acceptable, DerivedId;
  }

  // ---------------------------------------------------------------- coins

  /** A transfer of coins rather than of an issued asset. */
  predicate MovesCoins(tx: Transaction) {
    && !tx.coinbase && tx.Kind() == Transfer
    && (tx.ProtocolVersion() == TX_VERSION_ASSET ==> IsNative(tx.EffectiveAssetId()))
  }

  function CoinsIn(tx: Transaction, a: Address): nat {
    if tx.recipient == a && (tx.coinbase || MovesCoins(tx)) then tx.amount else 0
  }

  function CoinsOut(tx: Transaction, a: Address): nat {
    (if MovesCoins(tx) && tx.sender == a then tx.amount else 0) + (if PaysFee(tx, a) then tx.fee else 0)
  }

  /** Fees that go to the block's producer; earlier fees burn. */
  function PooledFee(tx: Transaction): nat {
    if !tx.coinbase && tx.ProtocolVersion() == TX_VERSION_ASSET then tx.fee else 0
  }

  lemma StepCoinsV3(env: Env, l: Ledger, tx: Transaction, a: Address)
    requires WellSignedV3(env, tx) && env.AddressesSound() && EffectV3(l, tx).Some? && l.assets.held.Keys == l.assets.defs.Keys
    ensures EffectV3(l, tx).value.confirmed[a] + CoinsOut(tx, a) == l.confirmed[a] + CoinsIn(tx, a)
    ensures EffectV3(l, tx).value.mature[a] + CoinsOut(tx, a) == l.mature[a] + CoinsIn(tx, a)
    ensures EffectV3(l, tx).value.stakes == l.stakes
  {
    SignedAddresses(env, tx);
    assert tx.ProtocolVersion() == TX_VERSION_ASSET && !tx.coinbase;
    assert MovesNative(tx) <==> MovesCoins(tx);
    hide WellSignedV3, EffectV3, IsNative, Env.AddressesSound, Effects.Pays, Effects.Coins, CoinsIn, CoinsOut;
    if MovesNative(tx) {
      Effects.NativeTransferPays(l, tx);
      TransferMoves(l, EffectV3(l, tx).value, tx, a);
    } else {
      Effects.TokenOperationPays(env, l, tx);
      OperationMoves(l, EffectV3(l, tx).value, tx, a);
    }
  }

  lemma TransferMoves(l: Ledger, after: Ledger, tx: Transaction, a: Address)
    requires MovesCoins(tx) && tx.ProtocolVersion() == TX_VERSION_ASSET && !tx.coinbase
    requires Effects.Pays(l, after, Effects.Coins(tx.recipient, tx.amount),
                          Effects.Coins(tx.sender, tx.amount) + Effects.Coins(tx.EffectiveFeePayer(), tx.fee), tx.fee)
    ensures after.confirmed[a] + CoinsOut(tx, a) == l.confirmed[a] + CoinsIn(tx, a)
    ensures after.mature[a] + CoinsOut(tx, a) == l.mature[a] + CoinsIn(tx, a)
    ensures after.stakes == l.stakes
  {
    hide MovesCoins, IsNative, FeePool, AssetBook.Native;
  }

  lemma OperationMoves(l: Ledger, after: Ledger, tx: Transaction, a: Address)
    requires !MovesCoins(tx) && tx.ProtocolVersion() == TX_VERSION_ASSET && !tx.coinbase
    requires Effects.Pays(l, after, multiset{}, Effects.Coins(tx.EffectiveFeePayer(), tx.fee), tx.fee)
    ensures after.confirmed[a] + CoinsOut(tx, a) == l.confirmed[a] + CoinsIn(tx, a)
    ensures after.mature[a] + CoinsOut(tx, a) == l.mature[a] + CoinsIn(tx, a)
    ensures after.stakes == l.stakes
  {
    hide MovesCoins, IsNative, FeePool, AssetBook.Native;
  }

  lemma StepCoinsLegacy(env: Env, l: Ledger, tx: Transaction, height: u64, a: Address)
    requires WellSignedLegacy(env, tx) && !tx.coinbase && tx.ProtocolVersion() != TX_VERSION_ASSET
    requires LegacyEffect(env, l, tx, height).Some?
    ensures LegacyEffect(env, l, tx, height).value.confirmed[a] + CoinsOut(tx, a) == l.confirmed[a] + CoinsIn(tx, a)
    ensures LegacyEffect(env, l, tx, height).value.mature[a] + CoinsOut(tx, a) == l.mature[a] + CoinsIn(tx, a)
  {
    hide LegacyBook, Staking.ApplyLock, Staking.ApplyUnlock, Staking.Refresh, IsNative;
  }

  lemma StepCoins(env: Env, l: Ledger, tx: Transaction, height: u64, a: Address)
    requires env.AddressesSound() && ApplyAny(env, l, tx, height).Some? && AssetSupply.IssuedMatch(l.assets)
    ensures ApplyAny(env, l, tx, height).value.confirmed[a] + CoinsOut(tx, a) == l.confirmed[a] + CoinsIn(tx, a)
  {
    hide WellSignedV3, WellSignedLegacy, Executable, EffectV3, LegacyEffect, CoinsIn, CoinsOut, Env.AddressesSound;
    if tx.coinbase {
      CoinbaseCoins(env, l, tx, height, a);
    } else if tx.ProtocolVersion() == TX_VERSION_ASSET {
      Effects.MatchedKeys(l.assets);
      StepCoinsV3(env, l, tx, a);
    } else {
      StepCoinsLegacy(env, l, tx, height, a);
    }
  }

  lemma CoinbaseCoins(env: Env, l: Ledger, tx: Transaction, height: u64, a: Address)
    requires ApplyCoinbase(env, l, tx, height).Some?
    ensures ApplyCoinbase(env, l, tx, height).value.confirmed[a] + CoinsOut(tx, a) == l.confirmed[a] + CoinsIn(tx, a)
  {
    hide IsNative, Text.Blank;
  }

  function AllCoinsIn(txs: seq<Transaction>, a: Address): nat {
    if txs == [] then 0 else AllCoinsIn(txs[..|txs| - 1], a) + CoinsIn(txs[|txs| - 1], a)
  }

  function AllCoinsOut(txs: seq<Transaction>, a: Address): nat {
    if txs == [] then 0 else AllCoinsOut(txs[..|txs| - 1], a) + CoinsOut(txs[|txs| - 1], a)
  }

  function AllPooledFees(txs: seq<Transaction>): nat {
    if txs == [] then 0 else AllPooledFees(txs[..|txs| - 1]) + PooledFee(txs[|txs| - 1])
  }

  lemma {:induction false} ListCoins(env: Env, l: Ledger, txs: seq<Transaction>, height: u64, a: Address)
    requires env.AddressesSound() && ApplyAll(env, l, txs, height).Some?
    requires Coherent(env, l) && AssetSupply.IssuedMatch(l.assets)
    ensures
      var after := ApplyAll(env, l, txs, height).value;
      && after.confirmed[a] + AllCoinsOut(txs, a) == l.confirmed[a] + AllCoinsIn(txs, a)
      && FeePool(after) == FeePool(l) + AllPooledFees(txs)
      && Coherent(env, after) && AssetSupply.IssuedMatch(after.assets)
  {
    hide ApplyAny, Coherent, AssetSupply.IssuedMatch, FeePool, CoinsIn, CoinsOut, Env.AddressesSound;
    if txs != [] {
      var n := |txs| - 1;
      ListCoins(env, l, txs[..n], height, a);
      var before := ApplyAll(env, l, txs[..n], height).value;
      StepCoins(env, before, txs[n], height, a);
      Execution.FeeReachesPool(env, before, txs[n], height);
      AssetSupply.ApplyAnyMatches(env, before, txs[n], height);
    }
  }

  lemma {:induction false} MatureRunKeepsConfirmed(env: Env, l: Ledger, credits: seq<PendingCoinbase>, height: u64)
    ensures MatureRun(env, l, credits, height).confirmed == l.confirmed
  {
    if credits != [] {
      MatureRunKeepsConfirmed(env, l, credits[..|credits| - 1], height);
    }
  }

  lemma OpenAndClose(env: Env, l: Ledger, b: Block)
    ensures OpenBlock(env, l, b).confirmed == l.confirmed && OpenBlock(env, l, b).assets == l.assets
    ensures OpenBlock(env, l, b).stakes == l.stakes
    ensures CloseBlock(env, l, b).confirmed == l.confirmed && CloseBlock(env, l, b).assets == l.assets
    ensures CloseBlock(env, l, b).stakes == Staking.Refresh(l.stakes, b.height)
  {
    hide MatureRun, Staking.Refresh;
    var closing := l.(height := b.height, stakes := Staking.Refresh(l.stakes, b.height));
    MatureRunKeepsConfirmed(env, closing, closing.pending, b.height);
    AssetSupply.MatureRunKeepsAssets(env, closing, closing.pending, b.height);
    ChainSafety.MatureRunKeepsStakes(env, closing, closing.pending, b.height);
    if b.height > 0 {
      MatureRunKeepsConfirmed(env, l, l.pending, b.height - 1);
      AssetSupply.MatureRunKeepsAssets(env, l, l.pending, b.height - 1);
      ChainSafety.MatureRunKeepsStakes(env, l, l.pending, b.height - 1);
    }
  }

  /** What the producer of a block is paid on top of its coinbase. */
  function Produced(env: Env, b: Block, a: Address): nat {
    if env.AssetModel() && b.miner == a then AllPooledFees(b.txs) else 0
  }

  lemma SettledCoins(env: Env, l: Ledger, b: Block, a: Address)
    requires Settle(env, l, b).Some? && env.AddressesSound()
    ensures Settle(env, l, b).value.confirmed[a] == l.confirmed[a] + (if env.AssetModel() && b.miner == a then FeePool(l) else 0)
    ensures forall id :: id != NATIVE_ASSET ==> Settle(env, l, b).value.assets.Balance(a, id) == l.assets.Balance(a, id)
  {
    hide SettleFees, FeePool, Env.AddressesSound;
    if env.AssetModel() {
      Effects.SettlementPays(env, l, b.miner);
    }
  }

  lemma BlockCoins(env: Env, l: Ledger, b: Block, a: Address)
    requires env.AddressesSound() && ApplyBlock(env, l, b).Some?
    requires Coherent(env, l) && AssetSupply.IssuedMatch(l.assets) && FeePool(l) == 0
    ensures ApplyBlock(env, l, b).value.confirmed[a] + AllCoinsOut(b.txs, a)
         == l.confirmed[a] + AllCoinsIn(b.txs, a) + Produced(env, b, a)
  {
    hide ApplyAll, Coherent, AssetSupply.IssuedMatch, Settle, OpenBlock, CloseBlock, CoinbaseCount, Env.AddressesSound, Supply,
         AllCoinsIn, AllCoinsOut;
    var ready := OpenBlock(env, l, b);
    OpenKeeps(env, l, b);
    OpenAndClose(env, l, b);
    ListCoins(env, ready, b.txs, b.height, a);
    var applied := ApplyAll(env, ready, b.txs, b.height).value;
    assert FeePool(ready) == FeePool(l);
    SettledCoins(env, applied, b, a);
    OpenAndClose(env, Settle(env, applied, b).value, b);
  }

  /** What the blocks pay to an address, and what its own transactions cost it. */
  function PaidTo(env: Env, blocks: seq<Block>, a: Address): nat {
    if blocks == [] then 0
    else
      var b := blocks[|blocks| - 1];
      PaidTo(env, blocks[..|blocks| - 1], a) + AllCoinsIn(b.txs, a) + Produced(env, b, a)
  }

  function PaidBy(blocks: seq<Block>, a: Address): nat {
    if blocks == [] then 0 else PaidBy(blocks[..|blocks| - 1], a) + AllCoinsOut(blocks[|blocks| - 1].txs, a)
  }

  lemma {:induction false} CoinsFromBlocks(env: Env, blocks: seq<Block>, a: Address)
    requires env.AddressesSound() && ApplyBlocks(env, NEW_LEDGER, blocks).Some?
    ensures ApplyBlocks(env, NEW_LEDGER, blocks).value.confirmed[a] + PaidBy(blocks, a) == PaidTo(env, blocks, a)
  {
    hide ApplyBlock, Coherent, AssetSupply.IssuedMatch, FeePool, Env.AddressesSound, AllCoinsIn, AllCoinsOut, Produced;
    if blocks != [] {
      var n := |blocks| - 1;
      CoinsFromBlocks(env, blocks[..n], a);
      ReachableCoherent(env, blocks[..n]);
      AssetSupply.ReachableMatches(env, blocks[..n]);
      BlockCoins(env, ApplyBlocks(env, NEW_LEDGER, blocks[..n]).value, blocks[n], a);
    }
  }

  /** The account statement: after any replayed chain an address owns the coinbases, transfers and block fees
      paid to it less what it transferred and paid in fees. */
  lemma AccountStatement(env: Env, blocks: seq<Block>, a: Address)
    requires blocks != [] && env.AddressesSound() && Replay(env, blocks).Some?
    ensures Replay(env, blocks).value.confirmed[a] == PaidTo(env, blocks, a) - PaidBy(blocks, a)
  {
    hide ApplyBlocks, Replay, PaidTo, PaidBy, Env.AddressesSound;
    ChainSafety.ReplayIsApplyBlocks(env, blocks);
    ChainSafety.ReplayRests(env, blocks);
    CoinsFromBlocks(env, blocks, a);
  }

  // ---------------------------------------------------------------- tokens

  /** A transfer of an issued asset. */
  predicate MovesToken(tx: Transaction, id: AssetId) {
    !tx.coinbase && tx.ProtocolVersion() == TX_VERSION_ASSET && tx.Kind() == Transfer && tx.assetId == id && !IsNative(id)
  }

  predicate Mints(tx: Transaction, id: AssetId) {
    !tx.coinbase && tx.ProtocolVersion() == TX_VERSION_ASSET && tx.Kind() == AssetMint && tx.assetId == id
  }

  predicate Burns(tx: Transaction, id: AssetId) {
    !tx.coinbase && tx.ProtocolVersion() == TX_VERSION_ASSET && tx.Kind() == AssetBurn && tx.assetId == id
  }

  function TokensIn(tx: Transaction, a: Address, id: AssetId): nat {
    if tx.recipient == a && (MovesToken(tx, id) || Mints(tx, id)) then tx.amount else 0
  }

  function TokensOut(tx: Transaction, a: Address, id: AssetId): nat {
    if tx.sender == a && (MovesToken(tx, id) || Burns(tx, id)) then tx.amount else 0
  }

  lemma StepTokenEffect(env: Env, b: AssetBook, tx: Transaction, a: Address, id: AssetId)
    requires WellSignedV3(env, tx) && !MovesNative(tx) && TokenEffect(b, tx).Some? && b.held.Keys == b.defs.Keys
    ensures TokenEffect(b, tx).value.Balance(a, id) + TokensOut(tx, a, id) == b.Balance(a, id) + TokensIn(tx, a, id)
  {
    assert tx.ProtocolVersion() == TX_VERSION_ASSET && !tx.coinbase;
    assert tx.Kind() == Transfer ==> tx.assetId != "" && !IsNative(tx.assetId);
    hide WellSignedV3, MovesNative, IsNative;
    match tx.Kind()
    case Transfer =>
      Effects.TransferMoves(b, tx.assetId, tx.sender, tx.recipient, tx.amount);
      hide AssetBook.Transfer, AssetBook.Balance;
    case AssetMint =>
      Effects.MintMoves(b, tx.assetId, tx.sender, tx.recipient, tx.amount);
      hide AssetBook.Mint, AssetBook.Balance;
    case AssetBurn =>
      Effects.BurnMoves(b, tx.assetId, tx.sender, tx.amount);
      hide AssetBook.Burn, AssetBook.Balance;
    case AssetCreate =>
      Effects.CreateMoves(b, DefinitionOf(tx));
      hide AssetBook.Create, AssetBook.Balance;
    case _ =>
  }

  lemma StepTokensV3(env: Env, l: Ledger, tx: Transaction, a: Address, id: AssetId)
    requires WellSignedV3(env, tx) && env.AddressesSound() && EffectV3(l, tx).Some? && l.assets.held.Keys == l.assets.defs.Keys
    requires id != NATIVE_ASSET
    ensures EffectV3(l, tx).value.assets.Balance(a, id) + TokensOut(tx, a, id) == l.assets.Balance(a, id) + TokensIn(tx, a, id)
  {
    SignedAddresses(env, tx);
    hide WellSignedV3, ChargeFee, Receive, Spend, TokenEffect, Env.AddressesSound, AssetBook.Balance, IsNative, TokensIn, TokensOut;
    if MovesNative(tx) {
      NoTokens(env, tx, a, id);
      Effects.NativeTransferPays(l, tx);
    } else {
      StepTokenEffect(env, l.assets, tx, a, id);
      var changed := l.(assets := TokenEffect(l.assets, tx).value);
      Effects.ChargePays(changed, tx.EffectiveFeePayer(), tx.fee);
    }
  }

  lemma NoTokens(env: Env, tx: Transaction, a: Address, id: AssetId)
    requires WellSignedV3(env, tx) && MovesNative(tx)
    ensures TokensIn(tx, a, id) == 0 && TokensOut(tx, a, id) == 0
  {
    hide IsNative, Fees.Acceptable, FeePayerAuthorized;
  }

  lemma StepTokensElse(env: Env, l: Ledger, tx: Transaction, height: u64, a: Address, id: AssetId)
    requires tx.coinbase || tx.ProtocolVersion() != TX_VERSION_ASSET
    requires ApplyAny(env, l, tx, height).Some? && id != NATIVE_ASSET
    ensures ApplyAny(env, l, tx, height).value.assets.Balance(a, id) + TokensOut(tx, a, id)
         == l.assets.Balance(a, id) + TokensIn(tx, a, id)
  {
    hide ValidTransaction, IsNative, Text.Blank, Staking.ApplyLock, Staking.ApplyUnlock, Staking.Refresh;
  }

  lemma StepTokens(env: Env, l: Ledger, tx: Transaction, height: u64, a: Address, id: AssetId)
    requires env.AddressesSound() && ApplyAny(env, l, tx, height).Some? && AssetSupply.IssuedMatch(l.assets) && id != NATIVE_ASSET
    ensures ApplyAny(env, l, tx, height).value.assets.Balance(a, id) + TokensOut(tx, a, id)
         == l.assets.Balance(a, id) + TokensIn(tx, a, id)
  {
    hide WellSignedV3, Executable, EffectV3, TokensIn, TokensOut, Env.AddressesSound;
    if tx.coinbase || tx.ProtocolVersion() != TX_VERSION_ASSET {
      StepTokensElse(env, l, tx, height, a, id);
    } else {
      Effects.MatchedKeys(l.assets);
      StepTokensV3(env, l, tx, a, id);
    }
  }

  function AllTokensIn(txs: seq<Transaction>, a: Address, id: AssetId): nat {
    if txs == [] then 0 else AllTokensIn(txs[..|txs| - 1], a, id) + TokensIn(txs[|txs| - 1], a, id)
  }

  function AllTokensOut(txs: seq<Transaction>, a: Address, id: AssetId): nat {
    if txs == [] then 0 else AllTokensOut(txs[..|txs| - 1], a, id) + TokensOut(txs[|txs| - 1], a, id)
  }

  lemma {:induction false} ListTokens(env: Env, l: Ledger, txs: seq<Transaction>, height: u64, a: Address, id: AssetId)
    requires env.AddressesSound() && ApplyAll(env, l, txs, height).Some? && AssetSupply.IssuedMatch(l.assets) && id != NATIVE_ASSET
    ensures
      var after := ApplyAll(env, l, txs, height).value;
      && after.assets.Balance(a, id) + AllTokensOut(txs, a, id) == l.assets.Balance(a, id) + AllTokensIn(txs, a, id)
      && AssetSupply.IssuedMatch(after.assets)
  {
    hide ApplyAny, AssetSupply.IssuedMatch, TokensIn, TokensOut, Env.AddressesSound, AssetBook.Balance;
    if txs != [] {
      var n := |txs| - 1;
      ListTokens(env, l, txs[..n], height, a, id);
      var before := ApplyAll(env, l, txs[..n], height).value;
      StepTokens(env, before, txs[n], height, a, id);
      AssetSupply.ApplyAnyMatches(env, before, txs[n], height);
    }
  }

  lemma BlockTokens(env: Env, l: Ledger, b: Block, a: Address, id: AssetId)
    requires env.AddressesSound() && ApplyBlock(env, l, b).Some? && AssetSupply.IssuedMatch(l.assets) && id != NATIVE_ASSET
    ensures ApplyBlock(env, l, b).value.assets.Balance(a, id) + AllTokensOut(b.txs, a, id)
         == l.assets.Balance(a, id) + AllTokensIn(b.txs, a, id)
  {
    hide ApplyAll, AssetSupply.IssuedMatch, Settle, OpenBlock, CloseBlock, CoinbaseCount, Env.AddressesSound, AllTokensIn,
         AllTokensOut, AssetBook.Balance;
    var ready := OpenBlock(env, l, b);
    OpenAndClose(env, l, b);
    ListTokens(env, ready, b.txs, b.height, a, id);
    var applied := ApplyAll(env, ready, b.txs, b.height).value;
    SettledCoins(env, applied, b, a);
    OpenAndClose(env, Settle(env, applied, b).value, b);
  }

  function TokensTo(blocks: seq<Block>, a: Address, id: AssetId): nat {
    if blocks == [] then 0 else TokensTo(blocks[..|blocks| - 1], a, id) + AllTokensIn(blocks[|blocks| - 1].txs, a, id)
  }

  function TokensBy(blocks: seq<Block>, a: Address, id: AssetId): nat {
    if blocks == [] then 0 else TokensBy(blocks[..|blocks| - 1], a, id) + AllTokensOut(blocks[|blocks| - 1].txs, a, id)
  }

  lemma {:induction false} TokensFromBlocks(env: Env, blocks: seq<Block>, a: Address, id: AssetId)
    requires env.AddressesSound() && ApplyBlocks(env, NEW_LEDGER, blocks).Some? && id != NATIVE_ASSET
    ensures ApplyBlocks(env, NEW_LEDGER, blocks).value.assets.Balance(a, id) + TokensBy(blocks, a, id) == TokensTo(blocks, a, id)
  {
    hide ApplyBlock, AssetSupply.IssuedMatch, Env.AddressesSound, AllTokensIn, AllTokensOut;
    if blocks != [] {
      var n := |blocks| - 1;
      TokensFromBlocks(env, blocks[..n], a, id);
      hide AssetBook.Balance;
      AssetSupply.ReachableMatches(env, blocks[..n]);
      BlockTokens(env, ApplyBlocks(env, NEW_LEDGER, blocks[..n]).value, blocks[n], a, id);
    }
  }

  /** The same for every issued asset: received and minted to it, less sent and burned by it. */
  lemma TokenStatement(env: Env, blocks: seq<Block>, a: Address, id: AssetId)
    requires blocks != [] && env.AddressesSound() && Replay(env, blocks).Some? && id != NATIVE_ASSET
    ensures Replay(env, blocks).value.assets.Balance(a, id) == TokensTo(blocks, a, id) - TokensBy(blocks, a, id)
  {
    hide ApplyBlocks, Replay, TokensTo, TokensBy, Env.AddressesSound, AssetBook.Balance;
    ChainSafety.ReplayIsApplyBlocks(env, blocks);
    ChainSafety.ReplayRests(env, blocks);
    TokensFromBlocks(env, blocks, a, id);
  }

  // ---------------------------------------------------------------- stakes

  /** The lock a record goes back to, and the unlock that started its release. */
  predicate LockedBy(env: Env, r: Staking.Stake, t: Transaction) {
    SignedBy(env, t, r.owner) && t.Kind() == StakeLock && t.id == r.id && t.amount == r.amount
  }

  predicate UnlockedBy(env: Env, r: Staking.Stake, t: Transaction) {
    SignedBy(env, t, r.owner) && t.Kind() == StakeUnlock && t.stakeId == r.id
  }

  /** Every record was locked by its owner, and is on its way out only if its owner unlocked it. */
  ghost predicate RecordAgreed(env: Env, r: Staking.Stake, txs: seq<Transaction>) {
    && (exists t :: t in txs && LockedBy(env, r, t))
    && (r.status != Staking.Active ==> exists t :: t in txs && UnlockedBy(env, r, t))
  }

  ghost predicate StakesAgreed(env: Env, stakes: Staking.Records, txs: seq<Transaction>) {
    forall id :: id in stakes ==> stakes[id].id == id && RecordAgreed(env, stakes[id], txs)
  }

  /** Nothing happened to `a`'s stake but the passing of time: no new record, and none that started to unlock. */
  ghost predicate StakeUntouched(x: Staking.Records, y: Staking.Records, a: Address) {
    forall id :: id in y && y[id].owner == a ==>
      && id in x && x[id].owner == a && x[id].amount == y[id].amount
      && (x[id].status == y[id].status || (x[id].status == Staking.Unlocking && y[id].status == Staking.Released))
  }

  lemma RefreshUntouched(x: Staking.Records, height: u64, a: Address)
    ensures StakeUntouched(x, Staking.Refresh(x, height), a)
  {
  }

  lemma UntouchedTwice(x: Staking.Records, y: Staking.Records, z: Staking.Records, a: Address)
    requires StakeUntouched(x, y, a) && StakeUntouched(y, z, a)
    ensures StakeUntouched(x, z, a)
  {
  }

  lemma RefreshAgreed(env: Env, x: Staking.Records, height: u64, txs: seq<Transaction>)
    requires StakesAgreed(env, x, txs)
    ensures StakesAgreed(env, Staking.Refresh(x, height), txs)
  {
    forall id | id in x
      ensures RecordAgreed(env, Staking.RefreshOne(x[id], height), txs)
    {
      SameRecordAgreed(env, x[id], Staking.RefreshOne(x[id], height), txs);
    }
  }

  lemma SameRecordAgreed(env: Env, r: Staking.Stake, s: Staking.Stake, txs: seq<Transaction>)
    requires RecordAgreed(env, r, txs) && r.id == s.id && r.owner == s.owner && r.amount == s.amount
    requires s.status != Staking.Active ==> r.status != Staking.Active
    ensures RecordAgreed(env, s, txs)
  {
    var t :| t in txs && LockedBy(env, r, t);
    assert LockedBy(env, s, t);
    if s.status != Staking.Active {
      var u :| u in txs && UnlockedBy(env, r, u);
      assert UnlockedBy(env, s, u);
    }
  }

  lemma MoreAgreed(env: Env, stakes: Staking.Records, txs: seq<Transaction>, more: seq<Transaction>)
    requires StakesAgreed(env, stakes, txs) && forall t :: t in txs ==> t in more
    ensures StakesAgreed(env, stakes, more)
  {
    hide LockedBy, UnlockedBy;
  }

  lemma OneSet(env: Env, stakes: Staking.Records, r: Staking.Stake, txs: seq<Transaction>)
    requires StakesAgreed(env, stakes, txs) && RecordAgreed(env, r, txs)
    ensures StakesAgreed(env, stakes[r.id := r], txs)
  {
    hide RecordAgreed;
  }

  lemma StepStakes(env: Env, l: Ledger, tx: Transaction, height: u64, txs: seq<Transaction>)
    requires ApplyTransaction(env, l, tx, height).Some? && !tx.coinbase && StakesAgreed(env, l.stakes, txs)
    ensures StakesAgreed(env, ApplyTransaction(env, l, tx, height).value.stakes, txs + [tx])
    ensures forall a :: a != tx.sender ==> StakeUntouched(l.stakes, ApplyTransaction(env, l, tx, height).value.stakes, a)
  {
    AppliedIsAgreed(env, l, tx, height);
    MoreAgreed(env, l.stakes, txs, txs + [tx]);
    assert tx in txs + [tx];
    hide StakesAgreed, WellSignedV3, ExecutableV3, ExecutableLegacy, EffectV3, LegacyTransfer, SignedBy;
    if tx.ProtocolVersion() == TX_VERSION_ASSET {
      Execution.EffectV3KeepsStakes(l, tx);
    } else if tx.Kind() == StakeLock {
      StepLock(env, l, tx, height, txs + [tx]);
    } else if tx.Kind() == StakeUnlock {
      StepUnlock(env, l, tx, height, txs + [tx]);
    } else {
      TransferKeepsStakes(env, l, tx);
    }
  }

  lemma TransferKeepsStakes(env: Env, l: Ledger, tx: Transaction)
    requires LegacyTransfer(env, l, tx).Some?
    ensures LegacyTransfer(env, l, tx).value.stakes == l.stakes
  {
    hide LegacyBook;
  }

  lemma StepLock(env: Env, l: Ledger, tx: Transaction, height: u64, txs: seq<Transaction>)
    requires WellSignedLegacy(env, tx) && tx.Kind() == StakeLock && LegacyEffect(env, l, tx, height).Some?
    requires SignedBy(env, tx, tx.sender) && tx in txs && StakesAgreed(env, l.stakes, txs)
    ensures StakesAgreed(env, LegacyEffect(env, l, tx, height).value.stakes, txs)
    ensures forall a :: a != tx.sender ==> StakeUntouched(l.stakes, LegacyEffect(env, l, tx, height).value.stakes, a)
  {
    hide StakesAgreed, Staking.ActiveCount;
    var r := Staking.Stake(tx.id, tx.sender, tx.amount, tx.id, height, "", 0, 0, Staking.Active);
    assert LegacyEffect(env, l, tx, height).value.stakes == l.stakes[tx.id := r];
    assert LockedBy(env, r, tx);
    OneSet(env, l.stakes, r, txs);
  }

  lemma StepUnlock(env: Env, l: Ledger, tx: Transaction, height: u64, txs: seq<Transaction>)
    requires tx.Kind() == StakeUnlock && LegacyEffect(env, l, tx, height).Some?
    requires SignedBy(env, tx, tx.sender) && tx in txs && StakesAgreed(env, l.stakes, txs)
    ensures StakesAgreed(env, LegacyEffect(env, l, tx, height).value.stakes, txs)
    ensures forall a :: a != tx.sender ==> StakeUntouched(l.stakes, LegacyEffect(env, l, tx, height).value.stakes, a)
  {
    var x := l.stakes;
    var y := Staking.ApplyUnlock(env.profile.staking, x, tx, height).value;
    var r := y[tx.stakeId];
    assert x[tx.stakeId].id == tx.stakeId && RecordAgreed(env, x[tx.stakeId], txs);
    assert y == x[r.id := r];
    assert UnlockedBy(env, r, tx);
    assert RecordAgreed(env, r, txs) by {
      var t :| t in txs && LockedBy(env, x[tx.stakeId], t);
      assert LockedBy(env, r, t);
    }
    hide RecordAgreed, StakesAgreed, SignedBy, Staking.Refresh;
    OneSet(env, x, r, txs);
    RefreshAgreed(env, y, l.height, txs);
    forall a | a != tx.sender
      ensures StakeUntouched(x, Staking.Refresh(y, l.height), a)
    {
      RefreshUntouched(y, l.height, a);
      UntouchedTwice(x, y, Staking.Refresh(y, l.height), a);
    }
  }

  predicate SendsNone(txs: seq<Transaction>, a: Address) {
    forall i :: 0 <= i < |txs| ==> txs[i].coinbase || txs[i].sender != a
  }

  lemma {:induction false} ListStakes(env: Env, l: Ledger, txs: seq<Transaction>, height: u64, prior: seq<Transaction>, a: Address)
    requires ApplyAll(env, l, txs, height).Some? && StakesAgreed(env, l.stakes, prior)
    ensures StakesAgreed(env, ApplyAll(env, l, txs, height).value.stakes, prior + txs)
    ensures SendsNone(txs, a) ==> StakeUntouched(l.stakes, ApplyAll(env, l, txs, height).value.stakes, a)
  {
    hide StakesAgreed, ApplyTransaction;
    if txs == [] {
      assert prior + txs == prior;
    } else {
      var n := |txs| - 1;
      ListStakes(env, l, txs[..n], height, prior, a);
      var before := ApplyAll(env, l, txs[..n], height).value;
      var after := ApplyAll(env, l, txs, height).value;
      assert prior + txs == prior + txs[..n] + [txs[n]];
      if txs[n].coinbase {
        assert after.stakes == before.stakes;
        MoreAgreed(env, after.stakes, prior + txs[..n], prior + txs);
      } else {
        StepStakes(env, before, txs[n], height, prior + txs[..n]);
        if SendsNone(txs, a) {
          UntouchedTwice(l.stakes, before.stakes, after.stakes, a);
        }
      }
    }
  }

  lemma BlockStakes(env: Env, l: Ledger, b: Block, prior: seq<Transaction>, a: Address)
    requires ApplyBlock(env, l, b).Some? && StakesAgreed(env, l.stakes, prior)
    ensures StakesAgreed(env, ApplyBlock(env, l, b).value.stakes, prior + b.txs)
    ensures SendsNone(b.txs, a) ==> StakeUntouched(l.stakes, ApplyBlock(env, l, b).value.stakes, a)
  {
    hide StakesAgreed, ApplyAll, Settle, OpenBlock, CloseBlock, CoinbaseCount, SendsNone, StakeUntouched, Staking.Refresh;
    OpenAndClose(env, l, b);
    var ready := OpenBlock(env, l, b);
    ListStakes(env, ready, b.txs, b.height, prior, a);
    var applied := ApplyAll(env, ready, b.txs, b.height).value;
    ChainSafety.SettleKeepsStakes(env, applied, b);
    OpenAndClose(env, Settle(env, applied, b).value, b);
    RefreshAgreed(env, applied.stakes, b.height, prior + b.txs);
    RefreshUntouched(applied.stakes, b.height, a);
    if SendsNone(b.txs, a) {
      UntouchedTwice(l.stakes, applied.stakes, Staking.Refresh(applied.stakes, b.height), a);
    }
  }

  lemma {:induction false} StakesFromBlocks(env: Env, blocks: seq<Block>)
    requires ApplyBlocks(env, NEW_LEDGER, blocks).Some?
    ensures StakesAgreed(env, ApplyBlocks(env, NEW_LEDGER, blocks).value.stakes, Chains.AllTxs(blocks))
  {
    hide ApplyBlock;
    if blocks != [] {
      var n := |blocks| - 1;
      StakesFromBlocks(env, blocks[..n]);
      hide StakesAgreed;
      BlockStakes(env, ApplyBlocks(env, NEW_LEDGER, blocks[..n]).value, blocks[n], Chains.AllTxs(blocks[..n]), "");
    }
  }

  /** Every stake record of a replayed chain goes back to a lock of that amount that its owner signed, and one
      that is unlocking or released to an unlock that its owner signed. */
  lemma StakeStatement(env: Env, blocks: seq<Block>, id: StakeId)
    requires blocks != [] && env.AddressesSound() && Replay(env, blocks).Some? && id in Replay(env, blocks).value.stakes
    ensures
      var r, txs := Replay(env, blocks).value.stakes[id], Chains.AllTxs(blocks);
      && r.id == id
      && (exists t :: t in txs && LockedBy(env, r, t))
      && (r.status != Staking.Active ==> exists t :: t in txs && UnlockedBy(env, r, t))
  {
    hide ApplyBlocks, Replay, LockedBy, UnlockedBy, Env.AddressesSound;
    ChainSafety.ReplayIsApplyBlocks(env, blocks);
    ChainSafety.ReplayRests(env, blocks);
    StakesFromBlocks(env, blocks);
  }

  // ---------------------------------------------------------------- nothing without consent

  lemma {:induction false} ListAgreed(env: Env, l: Ledger, txs: seq<Transaction>, height: u64, i: nat)
    requires ApplyAll(env, l, txs, height).Some? && i < |txs| && !txs[i].coinbase
    ensures SignedBy(env, txs[i], txs[i].sender)
    ensures forall a :: PaysFee(txs[i], a) ==> AgreedTo(env, txs[i], a)
  {
    hide ApplyTransaction, ApplyCoinbase, SignedBy, PaysFee, AgreedTo;
    var n := |txs| - 1;
    if i < n {
      ListAgreed(env, l, txs[..n], height, i);
    } else {
      AppliedIsAgreed(env, ApplyAll(env, l, txs[..n], height).value, txs[n], height);
    }
  }

  /** Nobody else can have anything done to `a`. */
  predicate AgreesToNone(env: Env, txs: seq<Transaction>, a: Address) {
    forall i :: 0 <= i < |txs| ==> !AgreedTo(env, txs[i], a)
  }

  lemma {:induction false} NoneIsFree(env: Env, txs: seq<Transaction>, a: Address, id: AssetId)
    requires forall i :: 0 <= i < |txs| ==> !PaysFee(txs[i], a)
    requires SendsNone(txs, a)
    ensures AllCoinsOut(txs, a) == 0 && AllTokensOut(txs, a, id) == 0 && ChainHistory.SentBy(txs, a) == []
  {
    hide IsNative;
    if txs != [] {
      NoneIsFree(env, txs[..|txs| - 1], a, id);
    }
  }

  /** `a` has at least as many coins and tokens, the same nonce, and untouched stake. */
  ghost predicate NoWorse(x: Ledger, y: Ledger, a: Address) {
    && x.confirmed[a] <= y.confirmed[a] && x.nonces[a] == y.nonces[a]
    && (forall id :: id != NATIVE_ASSET ==> x.assets.Balance(a, id) <= y.assets.Balance(a, id))
    && StakeUntouched(x.stakes, y.stakes, a)
  }

  lemma BlockNeedsConsent(env: Env, l: Ledger, b: Block, prior: seq<Transaction>, a: Address)
    requires env.AddressesSound() && ApplyBlock(env, l, b).Some? && AgreesToNone(env, b.txs, a)
    requires Coherent(env, l) && AssetSupply.IssuedMatch(l.assets) && FeePool(l) == 0
    requires StakesAgreed(env, l.stakes, prior)
    ensures NoWorse(l, ApplyBlock(env, l, b).value, a)
  {
    forall i | 0 <= i < |b.txs|
      ensures !PaysFee(b.txs[i], a) && (b.txs[i].coinbase || b.txs[i].sender != a)
    {
      if !b.txs[i].coinbase {
        ListAgreed(env, OpenBlock(env, l, b), b.txs, b.height, i);
      }
    }
    hide ApplyBlock, Coherent, AssetSupply.IssuedMatch, FeePool, Env.AddressesSound, AgreesToNone, AllCoinsOut, AllCoinsIn,
         AllTokensIn, AllTokensOut, PaysFee, StakesAgreed, StakeUntouched, AssetBook.Balance, Produced, ChainHistory.SentBy;
    NoneIsFree(env, b.txs, a, "");
    BlockCoins(env, l, b, a);
    ChainHistory.BlockCounts(env, l, b, a);
    BlockStakes(env, l, b, prior, a);
    forall id | id != NATIVE_ASSET
      ensures l.assets.Balance(a, id) <= ApplyBlock(env, l, b).value.assets.Balance(a, id)
    {
      NoneIsFree(env, b.txs, a, id);
      BlockTokens(env, l, b, a, id);
    }
  }

  /** From one replayed chain to the next block: an address loses coins or tokens, has its nonce used or its
      stake locked or unlocked only if the block holds a transaction it signed or whose fee it agreed to pay. */
  lemma NothingWithoutConsent(env: Env, blocks: seq<Block>, b: Block, a: Address)
    requires blocks != [] && env.AddressesSound()
    requires Replay(env, blocks).Some? && Replay(env, blocks + [b]).Some?
    ensures
      || NoWorse(Replay(env, blocks).value, Replay(env, blocks + [b]).value, a)
      || exists i :: 0 <= i < |b.txs| && AgreedTo(env, b.txs[i], a)
  {
    hide ApplyBlock, Replay, Env.AddressesSound, NoWorse, AgreedTo, Coherent, FeePool, AssetSupply.IssuedMatch, StakesAgreed;
    var longer := blocks + [b];
    assert longer[..|blocks|] == blocks;
    ChainSafety.ReplayIsApplyBlocks(env, blocks);
    ChainSafety.ReplayRests(env, blocks);
    ChainSafety.ReplayIsApplyBlocks(env, longer);
    ChainSafety.ReplayRests(env, longer);
    if AgreesToNone(env, b.txs, a) {
      ReachableCoherent(env, blocks);
      AssetSupply.ReachableMatches(env, blocks);
      StakesFromBlocks(env, blocks);
      BlockNeedsConsent(env, ApplyBlocks(env, NEW_LEDGER, blocks).value, b, Chains.AllTxs(blocks), a);
    }
  }

  lemma {:induction false} BlocksAgreed(env: Env, blocks: seq<Block>, i: nat, k: nat)
    requires ApplyBlocks(env, NEW_LEDGER, blocks).Some? && i < |blocks| && k < |blocks[i].txs| && !blocks[i].txs[k].coinbase
    ensures SignedBy(env, blocks[i].txs[k], blocks[i].txs[k].sender)
    ensures forall a :: PaysFee(blocks[i].txs[k], a) ==> AgreedTo(env, blocks[i].txs[k], a)
  {
    hide SignedBy, PaysFee, AgreedTo, ApplyAll;
    var n := |blocks| - 1;
    if i < n {
      BlocksAgreed(env, blocks[..n], i, k);
    } else {
      ListAgreed(env, OpenBlock(env, ApplyBlocks(env, NEW_LEDGER, blocks[..n]).value, blocks[n]), blocks[n].txs, blocks[n].height, k);
    }
  }

  /** And so every transaction a replayed chain holds, other than coinbases, is signed by its sender under its
      own id, and its fee is paid by somebody who agreed to it. */
  lemma ChainIsAgreed(env: Env, blocks: seq<Block>, i: nat, k: nat)
    requires blocks != [] && env.AddressesSound() && Replay(env, blocks).Some?
    requires i < |blocks| && k < |blocks[i].txs| && !blocks[i].txs[k].coinbase
    ensures SignedBy(env, blocks[i].txs[k], blocks[i].txs[k].sender)
    ensures forall a :: PaysFee(blocks[i].txs[k], a) ==> AgreedTo(env, blocks[i].txs[k], a)
  {
    hide ApplyBlocks, Replay, SignedBy, PaysFee, AgreedTo, Env.AddressesSound;
    ChainSafety.ReplayIsApplyBlocks(env, blocks);
    ChainSafety.ReplayRests(env, blocks);
    BlocksAgreed(env, blocks, i, k);
  }
}
