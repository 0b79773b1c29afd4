/** A transaction that validates against a ledger also executes on it: what validation checks and what the
    execution steps can still refuse, compared. And what a block's fees are worth to its producer. */
module Execution {
  import opened Arith
  import opened Types
  import opened Assets
  import opened Ledgers
  import opened LedgerInvariant
  import AssetSupply
  import Chains
  import ChainHistory
  import ChainSafety
  import Fees
  import Staking
  import Text

  /** No asset is frozen: nothing the chain executes sets that status. */
  ghost predicate NoneFrozen(b: AssetBook) {
    forall id :: id in b.defs ==> b.defs[id].status != Frozen
  }

  /** The ledgers a chain whose coins fit 64 bits can reach. */
  ghost predicate Sound(env: Env, l: Ledger) {
    Coherent(env, l) && AssetSupply.IssuedMatch(l.assets) && NoneFrozen(l.assets) && Supply(l) <= MAX_U64
  }

  // ---------------------------------------------------------------- v3 transactions

  /** Fees can be charged exactly when the payer has that much unlocked: the pool cannot overflow. */
  lemma ChargeIffUnlocked(env: Env, l: Ledger, payer: Address, fee: u64)
    requires Coherent(env, l) && env.AssetModel() && Supply(l) <= MAX_U64 && payer != FEE_COLLECTOR
    ensures ChargeFee(l, payer, fee).Some? <==> fee == 0 || Staking.Locked(l.stakes)[payer] + fee <= l.mature[payer]
  {
    SpendIffUnlocked(env, l, payer, fee);
    if fee > 0 && Spend(l, payer, fee).Some? {
      SpendKeeps(env, l, payer, fee);
      var spent := Spend(l, payer, fee).value;
      assert FeePool(spent) + fee <= MAX_U64 by {
        hide Coherent, Spend;
      }
      hide Coherent, Supply, Staking.Locked;
      PoolIsNamed();
      assert spent.assets.Credit(FEE_COLLECTOR, NATIVE_ASSET, fee).Some?;
    }
  }

  lemma PoolIsNamed()
    ensures !Text.Blank(FEE_COLLECTOR)
  {
    assert !Text.IsSpace(FEE_COLLECTOR[0]);
    assert Text.TrimLeft(FEE_COLLECTOR) == FEE_COLLECTOR;
  }

  lemma FundedMeans(l: Ledger, tx: Transaction)
    requires NativeTransferFunded(l, tx) && tx.amount > 0
    ensures
      var payer := tx.EffectiveFeePayer();
      var locked := Staking.Locked(l.stakes);
      && locked[tx.sender] + tx.amount + (if payer == tx.sender then tx.fee else 0) <= l.mature[tx.sender]
      && (payer != tx.sender && tx.fee > 0 ==> locked[payer] + tx.fee <= l.mature[payer])
  {
    hide Staking.Locked;
  }

  /** The sender's debit leaves room for the fee, whoever pays it. */
  lemma SentFirst(env: Env, l: Ledger, a: Address, n: u64, payer: Address, fee: u64)
    requires Coherent(env, l) && env.AssetModel() && a != FEE_COLLECTOR && n > 0
    requires Staking.Locked(l.stakes)[a] + n + (if payer == a then fee else 0) <= l.mature[a]
    requires payer != a && fee > 0 ==> Staking.Locked(l.stakes)[payer] + fee <= l.mature[payer]
    ensures Spend(l, a, n).Some?
    ensures
      var sent := Spend(l, a, n).value;
      && Coherent(env, sent) && Supply(sent) == Supply(l) - n
      && (fee == 0 || Staking.Locked(sent.stakes)[payer] + fee <= sent.mature[payer])
  {
    hide Coherent, Supply, Staking.Locked;
    SpendIffUnlocked(env, l, a, n);
    SpendKeeps(env, l, a, n);
  }

  lemma NativeTransferExecutes(env: Env, l: Ledger, tx: Transaction)
    requires Sound(env, l) && env.AssetModel() && env.AddressesSound() && WellSignedV3(env, tx)
    requires MovesNative(tx) && NativeTransferFunded(l, tx)
    ensures EffectV3(l, tx).Some?
  {
    SignedAddresses(env, tx);
    assert env.ValidAddress(tx.recipient) && tx.amount > 0;
    hide WellSignedV3, NativeTransferFunded, Coherent, Supply, ChargeFee, Receive, Staking.Locked, AssetSupply.IssuedMatch,
         NoneFrozen, MovesNative, Env.AddressesSound, Spend;
    FundedMeans(l, tx);
    SentFirst(env, l, tx.sender, tx.amount, tx.EffectiveFeePayer(), tx.fee);
    PaidAndReceived(env, Spend(l, tx.sender, tx.amount).value, tx);
  }

  /** The steps after the sender's debit. */
  lemma PaidAndReceived(env: Env, sent: Ledger, tx: Transaction)
    requires Coherent(env, sent) && env.AssetModel() && env.AddressesSound() && Supply(sent) + tx.amount <= MAX_U64
    requires tx.EffectiveFeePayer() != FEE_COLLECTOR && env.ValidAddress(tx.recipient)
    requires tx.fee == 0 ||
             Staking.Locked(sent.stakes)[tx.EffectiveFeePayer()] + tx.fee <= sent.mature[tx.EffectiveFeePayer()]
    ensures ChargeFee(sent, tx.EffectiveFeePayer(), tx.fee).Some?
    ensures Receive(ChargeFee(sent, tx.EffectiveFeePayer(), tx.fee).value, tx.recipient, tx.amount).Some?
  {
    hide Coherent, Supply, ChargeFee, Receive, Staking.Locked, Env.AddressesSound, FeePool;
    var payer := tx.EffectiveFeePayer();
    ChargeIffUnlocked(env, sent, payer, tx.fee);
    ChargeFeeKeeps(env, sent, payer, tx.fee);
    var charged := ChargeFee(sent, payer, tx.fee).value;
    RoomFor(charged, tx.recipient);
    ReceiveIffFits(env, charged, tx.recipient, tx.amount);
  }

  lemma RoomFor(l: Ledger, a: Address)
    ensures l.confirmed[a] <= Supply(l)
  {
    ChainSafety.OneAccountFits(l.confirmed, a);
  }

  /** A token operation that validation finds executable succeeds on the book. */
  lemma TokenOperationExecutes(env: Env, b: AssetBook, tx: Transaction)
    requires AssetSupply.IssuedMatch(b) && NoneFrozen(b) && env.AddressesSound()
    requires WellSignedV3(env, tx) && !MovesNative(tx) && TokenExecutable(b, tx)
    ensures TokenEffect(b, tx).Some?
  {
    match tx.Kind()
    case Transfer => TokenTransferExecutes(env, b, tx);
    case AssetCreate =>
      DerivedIdIsIssued(tx.id);
      hide IsNative, ValidDefinition, Text.Lower, Text.Trim, AssetSupply.IssuedMatch;
      assert Normal(DefinitionOf(tx)) == DefinitionOf(tx);
      assert DerivedId(tx.id)[0] == 'a';
    case AssetMint =>
      hide IsNative, Text.Blank, AssetSupply.IssuedMatch;
      AssetSupply.DefinedUnderItsId(b, tx.assetId);
    case AssetBurn =>
      hide IsNative, Text.Blank, AssetSupply.IssuedMatch;
      AssetSupply.DefinedUnderItsId(b, tx.assetId);
    case _ =>
  }

  lemma TokenTransferExecutes(env: Env, b: AssetBook, tx: Transaction)
    requires AssetSupply.IssuedMatch(b) && NoneFrozen(b)
    requires WellSignedV3(env, tx) && !MovesNative(tx) && tx.Kind() == Transfer && TokenExecutable(b, tx)
    ensures TokenEffect(b, tx).Some?
  {
    NativeIsNative();
    hide IsNative, AssetSupply.IssuedMatch, Fees.Acceptable, FeePayerAuthorized;
    assert tx.assetId in b.held;
    AssetSupply.DefinedUnderItsId(b, tx.assetId);
    AssetSupply.TransferNeverOverflows(b, tx.assetId, tx.sender, tx.recipient, tx.amount);
  }

  /** In a sound ledger every v3 transaction that validates executes. */
  lemma ValidV3Executes(env: Env, l: Ledger, tx: Transaction, height: u64)
    requires Sound(env, l) && env.AddressesSound() && tx.ProtocolVersion() == TX_VERSION_ASSET
    requires ValidTransaction(env, l, tx)
    ensures ApplyTransaction(env, l, tx, height).Some?
  {
    assert env.AssetModel();
    SignedAddresses(env, tx);
    hide AssetSupply.IssuedMatch, NoneFrozen, WellSignedV3, Coherent, NativeTransferFunded, TokenExecutable, EffectV3;
    if MovesNative(tx) {
      NativeTransferExecutes(env, l, tx);
    } else {
      TokenEffectThenFee(env, l, tx);
    }
  }

  lemma TokenEffectThenFee(env: Env, l: Ledger, tx: Transaction)
    requires Sound(env, l) && env.AssetModel() && env.AddressesSound() && WellSignedV3(env, tx)
    requires !MovesNative(tx) && ExecutableV3(l, tx)
    ensures EffectV3(l, tx).Some?
  {
    SignedAddresses(env, tx);
    var payer := tx.EffectiveFeePayer();
    assert tx.fee == 0 || Staking.Locked(l.stakes)[payer] + tx.fee <= l.mature[payer];
    TokenOperationExecutes(env, l.assets, tx);
    hide WellSignedV3, TokenExecutable, TokenEffect, AssetSupply.IssuedMatch, NoneFrozen, Staking.Locked, ChargeFee, MovesNative;
    assert NATIVE_ASSET in l.assets.held && NATIVE_ASSET in l.assets.defs;
    hide Coherent, Supply;
    TokenEffectKeepsNative(env, l, tx);
    var changed := l.(assets := TokenEffect(l.assets, tx).value);
    SwapAssets(env, l, TokenEffect(l.assets, tx).value);
    ChargeIffUnlocked(env, changed, payer, tx.fee);
  }

  // ---------------------------------------------------------------- earlier transactions

  /** What execution refuses though validation accepted it: only stake transactions can be hit. */
  predicate StakeObstacle(env: Env, l: Ledger, tx: Transaction, height: u64) {
    match tx.Kind()
    case StakeLock => !env.profile.staking.enabled || (if tx.stakeId == "" then tx.id else tx.stakeId) in l.stakes
    case StakeUnlock => !env.profile.staking.enabled || height + env.profile.staking.unbondingPeriod > MAX_U64
    case _ => false
  }

  lemma LegacyTransferExecutes(env: Env, l: Ledger, tx: Transaction)
    requires Coherent(env, l) && env.AddressesSound() && Supply(l) <= MAX_U64
    requires WellSignedLegacy(env, tx) && ExecutableLegacy(env, l, tx) && tx.Kind() == Transfer
    ensures LegacyTransfer(env, l, tx).Some?
  {
    MatureIsConfirmed(env, l);
    AssetSupply.TwoHoldersFit(l.confirmed, tx.sender, tx.recipient);
    hide Coherent, LegacyTransfer, Staking.Locked, Staking.ActiveCount;
    LegacyTransferDecidedByAccounts(env, l, tx);
  }

  /** In a ledger whose coins fit 64 bits a pre-v3 transaction that validates executes unless it is a
      stake transaction that meets one of the obstacles. */
  lemma ValidLegacyExecutesIff(env: Env, l: Ledger, tx: Transaction, height: u64)
    requires Coherent(env, l) && env.AddressesSound() && Supply(l) <= MAX_U64
    requires tx.ProtocolVersion() != TX_VERSION_ASSET && ValidTransaction(env, l, tx)
    ensures ApplyTransaction(env, l, tx, height).Some? <==> !StakeObstacle(env, l, tx, height)
  {
    hide Coherent, Supply, LegacyTransfer, Staking.Locked, Staking.ActiveCount, Staking.Refresh;
    if tx.Kind() == Transfer {
      LegacyTransferExecutes(env, l, tx);
    }
  }

  /** Validation against execution, for every transaction. */
  lemma ValidExecutesIff(env: Env, l: Ledger, tx: Transaction, height: u64)
    requires Sound(env, l) && env.AddressesSound() && ValidTransaction(env, l, tx)
    ensures ApplyTransaction(env, l, tx, height).Some? <==> !StakeObstacle(env, l, tx, height)
  {
    if tx.ProtocolVersion() == TX_VERSION_ASSET {
      assert tx.Kind() != StakeLock && tx.Kind() != StakeUnlock;
      hide Sound, ValidTransaction, ApplyTransaction;
      ValidV3Executes(env, l, tx, height);
    } else {
      hide ValidTransaction, ApplyTransaction, Coherent, AssetSupply.IssuedMatch, NoneFrozen;
      ValidLegacyExecutesIff(env, l, tx, height);
    }
  }

  // ---------------------------------------------------------------- reachable ledgers are sound

  lemma SameDefinitions(b: AssetBook, c: AssetBook)
    requires NoneFrozen(b) && c.defs == b.defs
    ensures NoneFrozen(c)
  {
  }

  lemma TokenEffectNeverFreezes(b: AssetBook, tx: Transaction)
    requires NoneFrozen(b) && TokenEffect(b, tx).Some?
    ensures NoneFrozen(TokenEffect(b, tx).value)
  {
    hide IsNative, ValidDefinition, DerivedId, Text.Blank;
  }

  lemma MovementsKeepDefinitions(l: Ledger, a: Address, n: u64)
    ensures Spend(l, a, n).Some? ==> Spend(l, a, n).value.assets.defs == l.assets.defs
    ensures Receive(l, a, n).Some? ==> Receive(l, a, n).value.assets.defs == l.assets.defs
    ensures ChargeFee(l, a, n).Some? ==> ChargeFee(l, a, n).value.assets.defs == l.assets.defs
  {
    hide SpendAllowed, Text.Blank;
  }

  lemma EffectV3NeverFreezes(l: Ledger, tx: Transaction)
    requires NoneFrozen(l.assets) && EffectV3(l, tx).Some?
    ensures NoneFrozen(EffectV3(l, tx).value.assets)
  {
    hide Spend, Receive, ChargeFee, TokenEffect, MovesNative, NoneFrozen;
    var payer := tx.EffectiveFeePayer();
    if MovesNative(tx) {
      MovementsKeepDefinitions(l, tx.sender, tx.amount);
      var sent := Spend(l, tx.sender, tx.amount).value;
      MovementsKeepDefinitions(sent, payer, tx.fee);
      var charged := ChargeFee(sent, payer, tx.fee).value;
      MovementsKeepDefinitions(charged, tx.recipient, tx.amount);
      SameDefinitions(l.assets, Receive(charged, tx.recipient, tx.amount).value.assets);
    } else {
      TokenEffectNeverFreezes(l.assets, tx);
      var changed := l.(assets := TokenEffect(l.assets, tx).value);
      MovementsKeepDefinitions(changed, payer, tx.fee);
      SameDefinitions(changed.assets, ChargeFee(changed, payer, tx.fee).value.assets);
    }
  }

  lemma ApplyAnyNeverFreezes(env: Env, l: Ledger, tx: Transaction, height: u64)
    requires NoneFrozen(l.assets) && ApplyAny(env, l, tx, height).Some?
    ensures NoneFrozen(ApplyAny(env, l, tx, height).value.assets)
  {
    hide NoneFrozen, ValidTransaction, EffectV3, Staking.ApplyLock, Staking.ApplyUnlock, Staking.Refresh, Text.Blank;
    if !tx.coinbase && tx.ProtocolVersion() == TX_VERSION_ASSET {
      EffectV3NeverFreezes(l, tx);
    } else {
      SameDefinitions(l.assets, ApplyAny(env, l, tx, height).value.assets);
    }
  }

  lemma {:induction false} ApplyAllNeverFreezes(env: Env, l: Ledger, txs: seq<Transaction>, height: u64)
    requires NoneFrozen(l.assets) && ApplyAll(env, l, txs, height).Some?
    ensures NoneFrozen(ApplyAll(env, l, txs, height).value.assets)
  {
    hide NoneFrozen, ApplyAny;
    if txs != [] {
      var n := |txs| - 1;
      ApplyAllNeverFreezes(env, l, txs[..n], height);
      ApplyAnyNeverFreezes(env, ApplyAll(env, l, txs[..n], height).value, txs[n], height);
    }
  }

  lemma SettleKeepsDefinitions(env: Env, l: Ledger, b: Block)
    ensures Settle(env, l, b).Some? ==> Settle(env, l, b).value.assets.defs == l.assets.defs
  {
    hide Receive;
    if FeePool(l) != 0 && FeePool(l) <= MAX_U64 {
      var drained := l.assets.Debit(FEE_COLLECTOR, NATIVE_ASSET, FeePool(l));
      if drained.Some? {
        MovementsKeepDefinitions(l.(assets := drained.value), b.miner, FeePool(l));
      }
    }
  }

  lemma ApplyBlockNeverFreezes(env: Env, l: Ledger, b: Block)
    requires NoneFrozen(l.assets) && ApplyBlock(env, l, b).Some?
    ensures NoneFrozen(ApplyBlock(env, l, b).value.assets)
  {
    hide NoneFrozen, ApplyAll, Settle, MatureRun, Staking.Refresh, CoinbaseCount;
    if b.height > 0 {
      AssetSupply.MatureRunKeepsAssets(env, l, l.pending, b.height - 1);
    }
    var ready := OpenBlock(env, l, b);
    ApplyAllNeverFreezes(env, ready, b.txs, b.height);
    var applied := ApplyAll(env, ready, b.txs, b.height).value;
    SettleKeepsDefinitions(env, applied, b);
    var settled := Settle(env, applied, b).value;
    SameDefinitions(applied.assets, settled.assets);
    var closing := settled.(height := b.height, stakes := Staking.Refresh(settled.stakes, b.height));
    AssetSupply.MatureRunKeepsAssets(env, closing, closing.pending, b.height);
  }

  lemma {:induction false} ReachableNeverFreezes(env: Env, blocks: seq<Block>)
    requires ApplyBlocks(env, NEW_LEDGER, blocks).Some?
    ensures NoneFrozen(ApplyBlocks(env, NEW_LEDGER, blocks).value.assets)
  {
    hide ApplyBlock;
    if blocks != [] {
      var n := |blocks| - 1;
      ReachableNeverFreezes(env, blocks[..n]);
      hide NoneFrozen;
      ApplyBlockNeverFreezes(env, ApplyBlocks(env, NEW_LEDGER, blocks[..n]).value, blocks[n]);
    }
  }

  /** The ledger of every replayed chain that issued at most 2^64 - 1 coins is sound. */
  lemma ReachableSound(env: Env, blocks: seq<Block>)
    requires blocks != [] && env.AddressesSound() && Replay(env, blocks).Some? && IssuedBy(blocks) <= MAX_U64
    ensures Sound(env, Replay(env, blocks).value)
  {
    hide Coherent, Supply, IssuedBy, AssetSupply.IssuedMatch, NoneFrozen, ApplyBlocks, Replay, FeePool, ChainSafety.NothingDue;
    ChainSafety.ReplayIsApplyBlocks(env, blocks);
    ChainSafety.ReplayRests(env, blocks);
    AssetSupply.ReachableMatches(env, blocks);
    ReachableNeverFreezes(env, blocks);
  }

  // ---------------------------------------------------------------- stake ids are never taken

  /** `t` could be the lock that made the record: signed under its id, by its owner, with a used nonce. */
  predicate MadeBy(env: Env, l: Ledger, id: StakeId, t: Transaction) {
    && id in l.stakes && !t.coinbase && env.oracle.txId(t) == Some(id)
    && t.sender == l.stakes[id].owner && t.nonce <= l.nonces[t.sender]
  }

  /** Every stake record goes back to a lock with its id; without staking there are none. */
  ghost predicate StakesNamed(env: Env, l: Ledger) {
    && (forall id :: id in l.stakes ==> exists t :: MadeBy(env, l, id, t))
    && (!env.profile.staking.enabled ==> l.stakes == map[])
  }

  /** The stakes only change in status, or by one new record of a lock; nonces only grow. */
  lemma NamedGrows(env: Env, l: Ledger, after: Ledger)
    requires StakesNamed(env, l)
    requires forall id :: id in after.stakes ==> id in l.stakes && after.stakes[id].owner == l.stakes[id].owner
    requires forall a :: l.nonces[a] <= after.nonces[a]
    ensures StakesNamed(env, after)
  {
    hide MadeBy;
    forall id | id in after.stakes
      ensures exists t :: MadeBy(env, after, id, t)
    {
      var t :| MadeBy(env, l, id, t);
      assert MadeBy(env, after, id, t) by {
        StillMade(env, l, after, id, t);
      }
    }
  }

  lemma StillMade(env: Env, l: Ledger, after: Ledger, id: StakeId, t: Transaction)
    requires MadeBy(env, l, id, t) && id in after.stakes && after.stakes[id].owner == l.stakes[id].owner
    requires l.nonces[t.sender] <= after.nonces[t.sender]
    ensures MadeBy(env, after, id, t)
  {
  }

  lemma MovementsKeepStakes(l: Ledger, a: Address, n: u64)
    ensures Spend(l, a, n).Some? ==> Spend(l, a, n).value.stakes == l.stakes
    ensures Receive(l, a, n).Some? ==> Receive(l, a, n).value.stakes == l.stakes
    ensures ChargeFee(l, a, n).Some? ==> ChargeFee(l, a, n).value.stakes == l.stakes
  {
    hide SpendAllowed, Text.Blank;
  }

  lemma EffectV3KeepsStakes(l: Ledger, tx: Transaction)
    requires EffectV3(l, tx).Some?
    ensures EffectV3(l, tx).value.stakes == l.stakes
  {
    hide Spend, Receive, ChargeFee, TokenEffect, MovesNative;
    var payer := tx.EffectiveFeePayer();
    if MovesNative(tx) {
      MovementsKeepStakes(l, tx.sender, tx.amount);
      var sent := Spend(l, tx.sender, tx.amount).value;
      MovementsKeepStakes(sent, payer, tx.fee);
      MovementsKeepStakes(ChargeFee(sent, payer, tx.fee).value, tx.recipient, tx.amount);
    } else {
      MovementsKeepStakes(l.(assets := TokenEffect(l.assets, tx).value), payer, tx.fee);
    }
  }

  lemma LegacyKeepsStakes(env: Env, l: Ledger, tx: Transaction, height: u64)
    requires LegacyEffect(env, l, tx, height).Some? && tx.Kind() != StakeLock
    ensures forall id :: id in LegacyEffect(env, l, tx, height).value.stakes ==>
              id in l.stakes && LegacyEffect(env, l, tx, height).value.stakes[id].owner == l.stakes[id].owner
  {
    hide LegacyBook;
  }

  lemma LockMakesRecord(env: Env, l: Ledger, tx: Transaction, height: u64)
    requires WellSignedLegacy(env, tx) && LegacyEffect(env, l, tx, height).Some? && tx.Kind() == StakeLock
    ensures env.profile.staking.enabled && env.oracle.txId(tx) == Some(tx.id)
    ensures
      var after := LegacyEffect(env, l, tx, height).value.stakes;
      && tx.id in after && after[tx.id].owner == tx.sender
      && forall id :: id in after && id != tx.id ==> id in l.stakes && after[id] == l.stakes[id]
  {
    hide Staking.ActiveCount;
  }

  lemma TransactionKeepsNamed(env: Env, l: Ledger, tx: Transaction, height: u64)
    requires StakesNamed(env, l) && !tx.coinbase && ApplyTransaction(env, l, tx, height).Some?
    ensures StakesNamed(env, ApplyTransaction(env, l, tx, height).value)
  {
    ChainHistory.TransactionCounts(env, l, tx, height);
    var after := ApplyTransaction(env, l, tx, height).value;
    assert forall a :: l.nonces[a] <= after.nonces[a];
    hide StakesNamed, Executable, EffectV3, LegacyEffect, WellSignedV3, WellSignedLegacy;
    if tx.ProtocolVersion() == TX_VERSION_ASSET {
      EffectV3KeepsStakes(l, tx);
      NamedGrows(env, l, after);
    } else if tx.Kind() != StakeLock {
      LegacyKeepsStakes(env, l, tx, height);
      NamedGrows(env, l, after);
    } else {
      LockMakesRecord(env, l, tx, height);
      NewRecordNamed(env, l, tx, after);
    }
  }

  lemma NewRecordNamed(env: Env, l: Ledger, tx: Transaction, after: Ledger)
    requires StakesNamed(env, l) && env.profile.staking.enabled && !tx.coinbase && env.oracle.txId(tx) == Some(tx.id)
    requires tx.id in after.stakes && after.stakes[tx.id].owner == tx.sender && after.nonces[tx.sender] == tx.nonce
    requires forall id :: id in after.stakes && id != tx.id ==> id in l.stakes && after.stakes[id] == l.stakes[id]
    requires forall a :: l.nonces[a] <= after.nonces[a]
    ensures StakesNamed(env, after)
  {
    assert MadeBy(env, after, tx.id, tx);
    hide MadeBy;
    forall id | id in after.stakes
      ensures exists t :: MadeBy(env, after, id, t)
    {
      if id != tx.id {
        var t :| MadeBy(env, l, id, t);
        StillMade(env, l, after, id, t);
      }
    }
  }

  lemma {:induction false} ApplyAllKeepsNamed(env: Env, l: Ledger, txs: seq<Transaction>, height: u64)
    requires StakesNamed(env, l) && ApplyAll(env, l, txs, height).Some?
    ensures StakesNamed(env, ApplyAll(env, l, txs, height).value)
  {
    hide StakesNamed, ApplyTransaction;
    if txs != [] {
      var n := |txs| - 1;
      ApplyAllKeepsNamed(env, l, txs[..n], height);
      var before := ApplyAll(env, l, txs[..n], height).value;
      if txs[n].coinbase {
        NamedGrows(env, before, ApplyCoinbase(env, before, txs[n], height).value);
      } else {
        TransactionKeepsNamed(env, before, txs[n], height);
      }
    }
  }

  lemma ApplyBlockKeepsNamed(env: Env, l: Ledger, b: Block)
    requires StakesNamed(env, l) && ApplyBlock(env, l, b).Some?
    ensures StakesNamed(env, ApplyBlock(env, l, b).value)
  {
    hide StakesNamed, ApplyAll, Settle, MatureRun, CoinbaseCount;
    if b.height > 0 {
      ChainSafety.MatureRunKeepsStakes(env, l, l.pending, b.height - 1);
      ChainHistory.MatureRunKeepsNonces(env, l, l.pending, b.height - 1);
    }
    var ready := OpenBlock(env, l, b);
    NamedGrows(env, l, ready);
    ApplyAllKeepsNamed(env, ready, b.txs, b.height);
    var applied := ApplyAll(env, ready, b.txs, b.height).value;
    ChainSafety.SettleKeepsStakes(env, applied, b);
    ChainHistory.SettleKeepsNonces(env, applied, b);
    var settled := Settle(env, applied, b).value;
    var closing := settled.(height := b.height, stakes := Staking.Refresh(settled.stakes, b.height));
    ChainSafety.MatureRunKeepsStakes(env, closing, closing.pending, b.height);
    ChainHistory.MatureRunKeepsNonces(env, closing, closing.pending, b.height);
    NamedGrows(env, applied, CloseBlock(env, settled, b));
  }

  lemma {:induction false} ReachableNamed(env: Env, blocks: seq<Block>)
    requires ApplyBlocks(env, NEW_LEDGER, blocks).Some?
    ensures StakesNamed(env, ApplyBlocks(env, NEW_LEDGER, blocks).value)
  {
    hide ApplyBlock;
    if blocks != [] {
      var n := |blocks| - 1;
      ReachableNamed(env, blocks[..n]);
      hide StakesNamed;
      ApplyBlockKeepsNamed(env, ApplyBlocks(env, NEW_LEDGER, blocks[..n]).value, blocks[n]);
    }
  }

  /** The record a lock would make never exists yet where its sender's nonce still counts. */
  lemma LockIdIsFree(env: Env, l: Ledger, tx: Transaction)
    requires StakesNamed(env, l) && ChainHistory.IdsBind(env) && !tx.coinbase
    requires env.oracle.txId(tx) == Some(tx.id) && tx.nonce == l.nonces[tx.sender] + 1
    ensures tx.id !in l.stakes
  {
    hide MadeBy, ChainHistory.IdsBind;
    if tx.id in l.stakes {
      var t :| MadeBy(env, l, tx.id, t);
      MakerUsedNonce(env, l, tx, t);
    }
  }

  lemma MakerUsedNonce(env: Env, l: Ledger, tx: Transaction, t: Transaction)
    requires MadeBy(env, l, tx.id, t) && ChainHistory.IdsBind(env) && !tx.coinbase && env.oracle.txId(tx) == Some(tx.id)
    ensures tx.nonce <= l.nonces[tx.sender]
  {
  }

  /** What of the obstacles is left in a reachable ledger: locking while staking is disabled, and a release
      height beyond 64 bits. */
  predicate Obstructed(env: Env, tx: Transaction, height: u64) {
    match tx.Kind()
    case StakeLock => !env.profile.staking.enabled
    case StakeUnlock => height + env.profile.staking.unbondingPeriod > MAX_U64
    case _ => false
  }

  lemma ObstacleIsObstructed(env: Env, l: Ledger, tx: Transaction, height: u64)
    requires StakesNamed(env, l) && ChainHistory.IdsBind(env) && !tx.coinbase && ValidTransaction(env, l, tx)
    ensures StakeObstacle(env, l, tx, height) <==> Obstructed(env, tx, height)
  {
    if tx.ProtocolVersion() != TX_VERSION_ASSET {
      assert env.oracle.txId(tx) == Some(tx.id);
      if tx.Kind() == StakeLock {
        LockIdIsFree(env, l, tx);
      }
      hide Staking.Locked, Staking.ActiveCount, ChainHistory.IdsBind;
    }
  }

  /** On the ledger of a replayed chain, and on it after any transactions of a next block, a transaction
      that validates executes if and only if it is not obstructed. */
  lemma ReachableExecutesIff(env: Env, blocks: seq<Block>, txs: seq<Transaction>, tx: Transaction, height: u64)
    requires blocks != [] && env.AddressesSound() && ChainHistory.IdsBind(env) && Replay(env, blocks).Some?
    requires ApplyAll(env, Replay(env, blocks).value, txs, height).Some? && !tx.coinbase
    requires IssuedBy(blocks) + Issued(txs) <= MAX_U64 && IssuedBy(blocks) <= MAX_U64
    requires ValidTransaction(env, ApplyAll(env, Replay(env, blocks).value, txs, height).value, tx)
    ensures ApplyTransaction(env, ApplyAll(env, Replay(env, blocks).value, txs, height).value, tx, height).Some?
            <==> !Obstructed(env, tx, height)
  {
    hide *;
    var l := Replay(env, blocks).value;
    ReachableSound(env, blocks);
    SupplyOfReplay(env, blocks);
    NamedReplay(env, blocks);
    SoundParts(env, l);
    ApplyAllKeeps(env, l, txs, height);
    ApplyAllKeepsNamed(env, l, txs, height);
    ApplyAllNeverFreezes(env, l, txs, height);
    AssetSupply.ApplyAllMatches(env, l, txs, height);
    var now := ApplyAll(env, l, txs, height).value;
    assert Sound(env, now) by {
      SoundFrom(env, now);
    }
    ValidExecutesIff(env, now, tx, height);
    ObstacleIsObstructed(env, now, tx, height);
  }

  lemma SoundParts(env: Env, l: Ledger)
    requires Sound(env, l)
    ensures Coherent(env, l) && AssetSupply.IssuedMatch(l.assets) && NoneFrozen(l.assets)
  {
  }

  lemma SoundFrom(env: Env, l: Ledger)
    requires Coherent(env, l) && AssetSupply.IssuedMatch(l.assets) && NoneFrozen(l.assets) && Supply(l) <= MAX_U64
    ensures Sound(env, l)
  {
  }

  lemma NamedReplay(env: Env, blocks: seq<Block>)
    requires blocks != [] && env.AddressesSound() && Replay(env, blocks).Some?
    ensures StakesNamed(env, Replay(env, blocks).value)
  {
    hide StakesNamed, ApplyBlocks, Replay;
    ChainSafety.ReplayIsApplyBlocks(env, blocks);
    ReachableNamed(env, blocks);
  }

  lemma SupplyOfReplay(env: Env, blocks: seq<Block>)
    requires blocks != [] && env.AddressesSound() && Replay(env, blocks).Some?
    ensures Supply(Replay(env, blocks).value) == IssuedBy(blocks)
  {
    hide ApplyBlocks, Replay, Coherent, Supply, IssuedBy, FeePool;
    ChainSafety.ReplayIsApplyBlocks(env, blocks);
    ChainSafety.ReplayRests(env, blocks);
  }

  // ---------------------------------------------------------------- what a block earns

  lemma FeeReachesPool(env: Env, l: Ledger, tx: Transaction, height: u64)
    requires Coherent(env, l) && env.AddressesSound() && ApplyAny(env, l, tx, height).Some?
    ensures FeePool(ApplyAny(env, l, tx, height).value)
              == FeePool(l) + (if !tx.coinbase && tx.ProtocolVersion() == TX_VERSION_ASSET then tx.fee else 0)
    ensures Coherent(env, ApplyAny(env, l, tx, height).value)
  {
    hide Coherent, Supply, FeePool, ApplyCoinbase, EffectV3, LegacyEffect, ExecutableV3, ExecutableLegacy, WellSignedV3, WellSignedLegacy;
    if tx.coinbase {
      CoinbaseKeeps(env, l, tx, height);
    } else if tx.ProtocolVersion() == TX_VERSION_ASSET {
      EffectV3Keeps(env, l, tx);
      UseNonceKeeps(env, EffectV3(l, tx).value, tx);
    } else {
      LegacyEffectKeeps(env, l, tx, height);
      UseNonceKeeps(env, LegacyEffect(env, l, tx, height).value, tx);
    }
  }

  function MeteredCount(env: Env, txs: seq<Transaction>): nat {
    if txs == [] then 0
    else MeteredCount(env, txs[..|txs| - 1]) + (if Fees.Metered(env, txs[|txs| - 1]) then 1 else 0)
  }

  lemma FeeCoversGas(env: Env, l: Ledger, tx: Transaction, height: u64)
    requires ApplyAny(env, l, tx, height).Some?
    ensures Fees.GasUsed(env, tx).Some?
    ensures var fee := if !tx.coinbase && tx.ProtocolVersion() == TX_VERSION_ASSET then tx.fee else 0;
      && fee >= Fees.GasUsed(env, tx).value * env.profile.fee.minGasPrice
      && (Fees.Metered(env, tx) ==> fee >= env.profile.fee.minFee)
  {
    hide Executable, Effect, ApplyCoinbase, EnvelopeValid, FeePayerAuthorized, Fees.BaseGas;
    if !Fees.Metered(env, tx) {
      assert Fees.GasUsed(env, tx) == Some(0);
    } else {
      assert tx.ProtocolVersion() == TX_VERSION_ASSET && Fees.Acceptable(env, tx);
      hide Fees.GasUsed;
    }
  }

  /** Whatever transactions a block carries, the fee pool it leaves for its producer is worth at least
      the gas they use at the configured price, and one minimum fee for each metered transaction. */
  lemma {:induction false} PoolCoversGas(env: Env, l: Ledger, txs: seq<Transaction>, height: u64)
    requires Coherent(env, l) && env.AddressesSound() && ApplyAll(env, l, txs, height).Some?
    ensures Coherent(env, ApplyAll(env, l, txs, height).value)
    ensures Chains.GasTotal(env, txs).Some?
    ensures
      var earned := FeePool(ApplyAll(env, l, txs, height).value) - FeePool(l);
      && earned >= Chains.GasTotal(env, txs).value * env.profile.fee.minGasPrice
      && earned >= MeteredCount(env, txs) * env.profile.fee.minFee
  {
    hide Coherent, FeePool, ApplyAny, Fees.GasUsed, Fees.Metered;
    if txs != [] {
      var n := |txs| - 1;
      PoolCoversGas(env, l, txs[..n], height);
      var before := ApplyAll(env, l, txs[..n], height).value;
      FeeReachesPool(env, before, txs[n], height);
      FeeCoversGas(env, before, txs[n], height);
      var price, floor := env.profile.fee.minGasPrice, env.profile.fee.minFee;
      var gas, more := Chains.GasTotal(env, txs[..n]).value, Fees.GasUsed(env, txs[n]).value;
      Distributes(gas, more, price);
      Distributes(MeteredCount(env, txs[..n]), 1, floor);
    }
  }

  lemma Distributes(x: nat, y: nat, z: nat)
    ensures (x + y) * z == x * z + y * z
  {
  }
}
