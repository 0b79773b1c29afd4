/** Exactly which transactions run (ledger/maturity.go, ledger/asset_execution.go): for every kind of transaction the
    conditions in terms of its fields, of what the oracle says about its signatures, and of what its parties own,
    in every ledger a chain within the 64-bit supply can reach. */
module Acceptance {
  import opened Arith
  import opened Types
  import opened Assets
  import opened Ledgers
  import opened LedgerInvariant
  import opened Accounts
  import AssetSupply
  import Balances
  import Effects
  import Execution
  import Fees
  import MatureLedgers
  import Staking
  import Text

  // ---------------------------------------------------------------- what an address may spend

  /** What balance details call spendable when nothing is pending. */
  ghost function Spendable(l: Ledger, a: Address): nat {
    Balances.DetailsOf(l, a, []).spendable
  }

  lemma SpendableIsUnlocked(l: Ledger, a: Address, n: nat)
    ensures n > 0 ==> (n <= Spendable(l, a) <==> Staking.Locked(l.stakes)[a] + n <= l.mature[a])
  {
    hide Staking.Locked, Staking.Tally;
  }

  /** The sender's next transaction of version 3, signed, with an acceptable fee that somebody agreed to pay. */
  predicate Presented(env: Env, l: Ledger, tx: Transaction) {
    && !tx.coinbase && tx.ProtocolVersion() == TX_VERSION_ASSET && env.profile.txVersion >= TX_VERSION_ASSET
    && env.ValidAddress(tx.sender) && SignedBy(env, tx, tx.sender) && tx.nonce == l.nonces[tx.sender] + 1
    && Fees.Acceptable(env, tx)
    && (if tx.EffectiveFeePayer() == tx.sender then tx.feePayerKey == "" && tx.feePayerSignature == ""
        else SponsoredBy(env, tx, tx.EffectiveFeePayer()) && env.ValidAddress(tx.EffectiveFeePayer())
             && tx.feePayerKey != "" && tx.feePayerSignature != "")
  }

  /** The fee, and what else of the payer's coins the transaction takes, are spendable. */
  ghost predicate Affordable(l: Ledger, tx: Transaction, coins: nat) {
    if tx.EffectiveFeePayer() == tx.sender then coins + tx.fee <= Spendable(l, tx.sender)
    else coins <= Spendable(l, tx.sender) && tx.fee <= Spendable(l, tx.EffectiveFeePayer())
  }

  lemma AllowedIffSpendable(env: Env, l: Ledger, a: Address, n: nat)
    requires Execution.Sound(env, l) && env.AssetModel() && a != FEE_COLLECTOR
    ensures n <= MAX_U64 && SpendAllowed(l, a, Cap(n)) <==> n <= Spendable(l, a)
    ensures n <= Spendable(l, a) ==> n <= l.assets.Balance(a, NATIVE_ASSET) && n <= l.confirmed[a]
  {
    SpendableIsUnlocked(l, a, n);
    Execution.RoomFor(l, a);
    MatureIsConfirmed(env, l);
    NativeAsConfirmed(env, l, a);
    if n <= MAX_U64 {
      hide Staking.Locked, Supply, Coherent, AssetSupply.IssuedMatch, Spendable;
    } else {
      hide Staking.Locked, Coherent, AssetSupply.IssuedMatch, Spendable;
    }
  }

  lemma NativeAsConfirmed(env: Env, l: Ledger, a: Address)
    requires Execution.Sound(env, l) && env.AssetModel() && a != FEE_COLLECTOR
    ensures l.assets.Balance(a, NATIVE_ASSET) == l.confirmed[a] && l.confirmed[a] <= MAX_U64
  {
    Execution.RoomFor(l, a);
  }

  lemma SoundParts(env: Env, l: Ledger)
    requires Execution.Sound(env, l)
    ensures Coherent(env, l) && AssetSupply.IssuedMatch(l.assets) && Execution.NoneFrozen(l.assets) && Supply(l) <= MAX_U64
  {
  }

  // ---------------------------------------------------------------- version 3

  /** What of a version 3 transaction does not depend on its kind. */
  lemma SignedIffPresented(env: Env, l: Ledger, tx: Transaction)
    requires env.AddressesSound() && tx.ProtocolVersion() == TX_VERSION_ASSET && !tx.coinbase
    ensures WellSigned(env, tx) && tx.nonce == l.nonces[tx.sender] + 1 <==>
              && Presented(env, l, tx) && EnvelopeValid(tx)
              && (tx.Kind() == Transfer ==> tx.assetId != "" && env.ValidAddress(tx.recipient))
              && (tx.Kind() == AssetMint ==> env.ValidAddress(tx.recipient))
              && (tx.Kind() == AssetCreate ==> tx.assetId == DerivedId(tx.id))
  {
    hide EnvelopeValid, Fees.Acceptable, DerivedId;
    assert env.ValidAddress(tx.sender) ==> tx.sender != "";
  }

  lemma RunsIffValid(env: Env, l: Ledger, tx: Transaction, height: u64)
    requires Execution.Sound(env, l) && env.AddressesSound() && tx.ProtocolVersion() == TX_VERSION_ASSET
    ensures ApplyTransaction(env, l, tx, height).Some? <==> ValidTransaction(env, l, tx)
  {
    hide Execution.Sound, ValidTransaction, Effect;
    if ValidTransaction(env, l, tx) {
      Execution.ValidV3Executes(env, l, tx, height);
    }
  }

  lemma FundedIffAffordable(env: Env, l: Ledger, tx: Transaction)
    requires Execution.Sound(env, l) && env.AssetModel() && tx.sender != FEE_COLLECTOR && tx.EffectiveFeePayer() != FEE_COLLECTOR
    ensures NativeTransferFunded(l, tx) <==> Affordable(l, tx, tx.amount)
    ensures SpendAllowed(l, tx.EffectiveFeePayer(), tx.fee) <==> tx.fee <= Spendable(l, tx.EffectiveFeePayer())
  {
    hide Execution.Sound, SpendAllowed, Spendable, AssetBook.Balance;
    AllowedIffSpendable(env, l, tx.sender, tx.amount + tx.fee);
    AllowedIffSpendable(env, l, tx.sender, tx.amount);
    AllowedIffSpendable(env, l, tx.EffectiveFeePayer(), tx.fee);
  }

  /** A transfer of coins runs exactly when it is the sender's signed next transaction to another valid address,
      its fee is acceptable and agreed to, and amount and fee are spendable. */
  lemma CoinTransferRunsIff(env: Env, l: Ledger, tx: Transaction, height: u64)
    requires Execution.Sound(env, l) && env.AddressesSound() && env.AssetModel()
    requires tx.ProtocolVersion() == TX_VERSION_ASSET && !tx.coinbase && tx.Kind() == Transfer && IsNative(tx.EffectiveAssetId())
    ensures ApplyTransaction(env, l, tx, height).Some? <==>
              && Presented(env, l, tx) && tx.assetId != ""
              && env.ValidAddress(tx.recipient) && tx.recipient != tx.sender && tx.amount > 0
              && Affordable(l, tx, tx.amount)
  {
    RunsIffValid(env, l, tx, height);
    SignedIffPresented(env, l, tx);
    assert MovesNative(tx) && (env.ValidAddress(tx.recipient) ==> tx.recipient != "");
    assert Presented(env, l, tx) ==> tx.sender != "" && tx.sender != FEE_COLLECTOR && tx.EffectiveFeePayer() != FEE_COLLECTOR;
    hide ApplyTransaction, Execution.Sound, WellSigned, Presented, NativeTransferFunded, Affordable, IsNative, Env.AddressesSound;
    if Presented(env, l, tx) {
      FundedIffAffordable(env, l, tx);
    }
  }

  /** And for a transaction its sender pays for: amount and fee together are at most what balance details call
      spendable. */
  lemma SpendableIsWhatRuns(env: Env, l: Ledger, tx: Transaction, height: u64)
    requires Execution.Sound(env, l) && env.AddressesSound() && env.AssetModel()
    requires tx.Kind() == Transfer && tx.EffectiveAssetId() == tx.assetId == NATIVE_ASSET && tx.EffectiveFeePayer() == tx.sender
    requires Presented(env, l, tx) && env.ValidAddress(tx.recipient) && tx.recipient != tx.sender && tx.amount > 0
    ensures ApplyTransaction(env, l, tx, height).Some? <==>
              tx.amount + tx.fee <= Balances.DetailsOf(l, tx.sender, []).spendable
  {
    NativeIsNative();
    hide ApplyTransaction, Execution.Sound, Env.AddressesSound;
    CoinTransferRunsIff(env, l, tx, height);
  }

  /** A token operation has its own conditions besides. */
  lemma TokenRunsIff(env: Env, l: Ledger, tx: Transaction, height: u64)
    requires Execution.Sound(env, l) && env.AddressesSound() && env.AssetModel()
    requires tx.ProtocolVersion() == TX_VERSION_ASSET && !tx.coinbase && !MovesNative(tx)
    ensures ApplyTransaction(env, l, tx, height).Some? <==>
              && Presented(env, l, tx) && EnvelopeValid(tx)
              && (tx.Kind() == Transfer ==> tx.assetId != "" && env.ValidAddress(tx.recipient))
              && (tx.Kind() == AssetMint ==> env.ValidAddress(tx.recipient))
              && (tx.Kind() == AssetCreate ==> tx.assetId == DerivedId(tx.id))
              && TokenExecutable(l.assets, tx)
              && tx.fee <= Spendable(l, tx.EffectiveFeePayer())
  {
    RunsIffValid(env, l, tx, height);
    SignedIffPresented(env, l, tx);
    assert Presented(env, l, tx) ==> tx.sender != FEE_COLLECTOR && tx.EffectiveFeePayer() != FEE_COLLECTOR;
    hide ApplyTransaction, Execution.Sound, WellSigned, Presented, TokenExecutable, EnvelopeValid, Env.AddressesSound, DerivedId,
         MovesNative, SpendAllowed;
    if Presented(env, l, tx) {
      FundedIffAffordable(env, l, tx);
    }
  }

  /** A transfer of an issued asset: what the sender holds covers the amount, what the payer may spend the fee. */
  lemma TokenTransferRunsIff(env: Env, l: Ledger, tx: Transaction, height: u64)
    requires Execution.Sound(env, l) && env.AddressesSound() && env.AssetModel()
    requires tx.ProtocolVersion() == TX_VERSION_ASSET && !tx.coinbase && tx.Kind() == Transfer && !IsNative(tx.EffectiveAssetId())
    ensures ApplyTransaction(env, l, tx, height).Some? <==>
              && Presented(env, l, tx) && tx.assetId != ""
              && env.ValidAddress(tx.recipient) && tx.recipient != tx.sender
              && 0 < tx.amount <= l.assets.Balance(tx.sender, tx.assetId)
              && tx.fee <= Spendable(l, tx.EffectiveFeePayer())
  {
    assert env.ValidAddress(tx.recipient) ==> tx.recipient != "";
    assert Presented(env, l, tx) ==> tx.sender != "";
    TokenRunsIff(env, l, tx, height);
    hide ApplyTransaction, Execution.Sound, Presented, Env.AddressesSound, IsNative, Spendable;
  }

  lemma MintDecided(b: AssetBook, tx: Transaction)
    requires AssetSupply.IssuedMatch(b) && Execution.NoneFrozen(b) && tx.Kind() == AssetMint && !IsNative(tx.assetId)
    ensures TokenExecutable(b, tx) <==>
              && tx.assetId in b.defs
              && var d := b.defs[tx.assetId];
                 && d.mintable && d.issuer == tx.sender
                 && d.totalSupply + tx.amount <= MAX_U64
                 && (d.maxSupply > 0 ==> d.totalSupply + tx.amount <= d.maxSupply)
  {
    if tx.assetId in b.defs {
      AssetSupply.DefinedUnderItsId(b, tx.assetId);
      HeldWithinSupply(b, tx.recipient, tx.assetId);
    }
    hide IsNative, AssetSupply.IssuedMatch;
  }

  /** A mint: by the issuer of a mintable asset, to a valid address, within the cap and 64 bits. */
  lemma MintRunsIff(env: Env, l: Ledger, tx: Transaction, height: u64)
    requires Execution.Sound(env, l) && env.AddressesSound() && env.AssetModel()
    requires tx.ProtocolVersion() == TX_VERSION_ASSET && !tx.coinbase && tx.Kind() == AssetMint
    ensures ApplyTransaction(env, l, tx, height).Some? <==>
              && Presented(env, l, tx) && env.ValidAddress(tx.recipient) && tx.amount > 0
              && tx.assetId in l.assets.defs && tx.assetId != "" && !IsNative(tx.assetId)
              && var d := l.assets.defs[tx.assetId];
                 && d.mintable && d.issuer == tx.sender
                 && d.totalSupply + tx.amount <= MAX_U64
                 && (d.maxSupply > 0 ==> d.totalSupply + tx.amount <= d.maxSupply)
                 && tx.fee <= Spendable(l, tx.EffectiveFeePayer())
  {
    SoundParts(env, l);
    TokenRunsIff(env, l, tx, height);
    assert env.ValidAddress(tx.recipient) ==> tx.recipient != "";
    assert Presented(env, l, tx) ==> tx.sender != "";
    if !IsNative(tx.assetId) {
      MintDecided(l.assets, tx);
    }
    hide ApplyTransaction, Execution.Sound, Presented, Env.AddressesSound, IsNative, Spendable, Coherent, Supply, TokenExecutable,
         AssetSupply.IssuedMatch, Execution.NoneFrozen;
  }

  lemma HeldWithinSupply(b: AssetBook, a: Address, id: AssetId)
    requires AssetSupply.IssuedMatch(b) && id in b.defs
    ensures !IsNative(id) ==> b.Balance(a, id) <= b.defs[id].totalSupply
  {
    if !IsNative(id) {
      NativeIsNative();
      AssetSupply.CirculationIsCapped(b, id);
      AssetSupply.HasSupply(b, id);
      AssetSupply.OneHolderFits(b.held[id], a);
    }
  }

  lemma BurnDecided(b: AssetBook, tx: Transaction)
    requires AssetSupply.IssuedMatch(b) && Execution.NoneFrozen(b) && tx.Kind() == AssetBurn && !IsNative(tx.assetId)
    ensures TokenExecutable(b, tx) <==>
              tx.assetId in b.defs && b.defs[tx.assetId].burnable && tx.amount <= b.Balance(tx.sender, tx.assetId)
  {
    if tx.assetId in b.defs {
      AssetSupply.DefinedUnderItsId(b, tx.assetId);
      HeldWithinSupply(b, tx.sender, tx.assetId);
    }
    hide IsNative, AssetSupply.IssuedMatch;
  }

  /** A burn: of a burnable asset, by somebody who holds that much. */
  lemma BurnRunsIff(env: Env, l: Ledger, tx: Transaction, height: u64)
    requires Execution.Sound(env, l) && env.AddressesSound() && env.AssetModel()
    requires tx.ProtocolVersion() == TX_VERSION_ASSET && !tx.coinbase && tx.Kind() == AssetBurn
    ensures ApplyTransaction(env, l, tx, height).Some? <==>
              && Presented(env, l, tx) && tx.recipient == tx.sender
              && tx.assetId in l.assets.defs && tx.assetId != "" && !IsNative(tx.assetId)
              && l.assets.defs[tx.assetId].burnable
              && 0 < tx.amount <= l.assets.Balance(tx.sender, tx.assetId)
              && tx.fee <= Spendable(l, tx.EffectiveFeePayer())
  {
    SoundParts(env, l);
    TokenRunsIff(env, l, tx, height);
    assert Presented(env, l, tx) ==> tx.sender != "";
    if !IsNative(tx.assetId) {
      BurnDecided(l.assets, tx);
    }
    hide ApplyTransaction, Execution.Sound, Presented, Env.AddressesSound, IsNative, Spendable, Coherent, Supply, TokenExecutable,
         AssetSupply.IssuedMatch, Execution.NoneFrozen;
  }

  lemma CreationDecided(b: AssetBook, tx: Transaction)
    requires tx.Kind() == AssetCreate && tx.assetId == DerivedId(tx.id) && !Text.Blank(tx.sender)
    ensures TokenExecutable(b, tx) <==>
              && tx.assetId !in b.defs
              && !Text.Blank(tx.assetName) && 1 <= |Text.Trim(tx.assetSymbol)| <= 16 && tx.assetDecimals <= 18
  {
    DerivedIsFine(tx.id);
    hide DerivedId, Text.Trim, Text.Lower;
  }

  /** A creation: under the derived id, which is still free, with a name, a short symbol and at most 18 decimals. */
  lemma CreateRunsIff(env: Env, l: Ledger, tx: Transaction, height: u64)
    requires Execution.Sound(env, l) && env.AddressesSound() && env.AssetModel()
    requires tx.ProtocolVersion() == TX_VERSION_ASSET && !tx.coinbase && tx.Kind() == AssetCreate
    ensures ApplyTransaction(env, l, tx, height).Some? <==>
              && Presented(env, l, tx) && tx.id != "" && tx.recipient == ""
              && tx.assetId == DerivedId(tx.id) && tx.assetId !in l.assets.defs
              && !Text.Blank(tx.assetName) && 1 <= |Text.Trim(tx.assetSymbol)| <= 16 && tx.assetDecimals <= 18
              && tx.fee <= Spendable(l, tx.EffectiveFeePayer())
  {
    TokenRunsIff(env, l, tx, height);
    DerivedIsFine(tx.id);
    NotBlank(tx.assetName);
    NotBlank(tx.assetSymbol);
    assert Presented(env, l, tx) ==> tx.sender != "" && !Text.Blank(tx.sender);
    if Presented(env, l, tx) && tx.assetId == DerivedId(tx.id) {
      CreationDecided(l.assets, tx);
    }
    hide ApplyTransaction, Execution.Sound, Presented, Env.AddressesSound, Spendable, DerivedId, Text.Trim, TokenExecutable;
  }

  lemma NotBlank(s: string)
    ensures Text.Trim(s) != "" ==> s != ""
  {
  }

  lemma DerivedIsFine(txId: string)
    ensures DerivedId(txId) != "" && Text.Trim(DerivedId(txId)) != ""
    ensures Text.Lower(DerivedId(txId)) != Text.Lower(NATIVE_ASSET)
  {
    var id := DerivedId(txId);
    assert id[0] == 'a' && NATIVE_ASSET[0] == 'd';
    assert Text.Lower(id)[0] == 'a' && Text.Lower(NATIVE_ASSET)[0] == 'd';
  }

  // ---------------------------------------------------------------- earlier versions

  /** The same of a transaction of version 1 or 2: its sender signed it, and nobody else can pay. */
  predicate PresentedEarlier(env: Env, l: Ledger, tx: Transaction) {
    && !tx.coinbase && (tx.ProtocolVersion() == 1 || (tx.ProtocolVersion() == 2 && env.profile.txVersion >= 2))
    && env.ValidAddress(tx.sender) && SignedBy(env, tx, tx.sender) && tx.nonce == l.nonces[tx.sender] + 1
  }

  /** What the fields of each kind have to say. */
  predicate EarlierFields(env: Env, tx: Transaction) {
    match tx.Kind()
    case Transfer => env.ValidAddress(tx.recipient) && tx.recipient != tx.sender && tx.amount > 0
    case StakeLock =>
      && (tx.recipient == "" || tx.recipient == tx.sender) && (tx.stakeId == "" || tx.stakeId == tx.id)
      && tx.amount > 0 && tx.amount >= env.profile.staking.minStakeAmount
    case StakeUnlock => tx.stakeId != ""
    case _ => false
  }

  lemma EarlierSigned(env: Env, l: Ledger, tx: Transaction)
    requires tx.ProtocolVersion() != TX_VERSION_ASSET && !tx.coinbase
    ensures WellSigned(env, tx) && tx.nonce == l.nonces[tx.sender] + 1 <==>
              PresentedEarlier(env, l, tx) && EarlierFields(env, tx)
  {
  }

  lemma EarlierRunsIff(env: Env, l: Ledger, tx: Transaction, height: u64)
    requires Execution.Sound(env, l) && env.AddressesSound() && tx.ProtocolVersion() != TX_VERSION_ASSET && !tx.coinbase
    ensures ApplyTransaction(env, l, tx, height).Some? <==>
              && PresentedEarlier(env, l, tx) && EarlierFields(env, tx)
              && ExecutableLegacy(env, l, tx) && !Execution.StakeObstacle(env, l, tx, height)
  {
    EarlierSigned(env, l, tx);
    hide Execution.Sound, WellSigned, PresentedEarlier, EarlierFields, ExecutableLegacy, Effect, Execution.StakeObstacle,
         Env.AddressesSound;
    if ValidTransaction(env, l, tx) {
      Execution.ValidExecutesIff(env, l, tx, height);
    }
  }

  /** A transfer of coins: amount and fee are spendable. */
  lemma EarlierTransferRunsIff(env: Env, l: Ledger, tx: Transaction, height: u64)
    requires Execution.Sound(env, l) && env.AddressesSound()
    requires tx.ProtocolVersion() != TX_VERSION_ASSET && !tx.coinbase && tx.Kind() == Transfer
    ensures ApplyTransaction(env, l, tx, height).Some? <==>
              && PresentedEarlier(env, l, tx)
              && env.ValidAddress(tx.recipient) && tx.recipient != tx.sender && tx.amount > 0
              && tx.amount + tx.fee <= Spendable(l, tx.sender)
  {
    EarlierRunsIff(env, l, tx, height);
    SpendableIsUnlocked(l, tx.sender, tx.amount + tx.fee);
    SoundParts(env, l);
    hide ApplyTransaction, Execution.Sound, Env.AddressesSound, Coherent, Supply, Spendable, Staking.Locked,
         AssetSupply.IssuedMatch, PresentedEarlier, Execution.NoneFrozen;
    MatureIsConfirmed(env, l);
    assert l.mature[tx.sender] <= l.confirmed[tx.sender] <= MAX_U64;
  }

  /** A lock: staking is on, the amount is at least the least stake and spendable, the number of active stakes is
      below its limit, and the stake's id, if given, is the transaction's, and is free. */
  lemma LockRunsIff(env: Env, l: Ledger, tx: Transaction, height: u64)
    requires Execution.Sound(env, l) && env.AddressesSound()
    requires tx.ProtocolVersion() != TX_VERSION_ASSET && !tx.coinbase && tx.Kind() == StakeLock
    ensures
      var p := env.profile.staking;
      ApplyTransaction(env, l, tx, height).Some? <==>
        && PresentedEarlier(env, l, tx) && p.enabled
        && (tx.recipient == "" || tx.recipient == tx.sender) && (tx.stakeId == "" || tx.stakeId == tx.id)
        && tx.id !in l.stakes
        && tx.amount > 0 && tx.amount >= p.minStakeAmount && tx.amount <= Spendable(l, tx.sender)
        && (p.maxActivePerAddress > 0 ==>
              |set id | id in l.stakes && l.stakes[id].owner == tx.sender && l.stakes[id].status == Staking.Active|
                < p.maxActivePerAddress)
  {
    EarlierRunsIff(env, l, tx, height);
    SpendableIsUnlocked(l, tx.sender, tx.amount);
    hide ApplyTransaction, Execution.Sound, Env.AddressesSound, Spendable, Staking.Locked, PresentedEarlier;
  }

  /** An unlock: of the sender's own active stake, with a release height that fits. */
  lemma UnlockRunsIff(env: Env, l: Ledger, tx: Transaction, height: u64)
    requires Execution.Sound(env, l) && env.AddressesSound()
    requires tx.ProtocolVersion() != TX_VERSION_ASSET && !tx.coinbase && tx.Kind() == StakeUnlock
    ensures
      var p := env.profile.staking;
      ApplyTransaction(env, l, tx, height).Some? <==>
        && PresentedEarlier(env, l, tx) && p.enabled
        && tx.stakeId != "" && tx.stakeId in l.stakes
        && l.stakes[tx.stakeId].owner == tx.sender && l.stakes[tx.stakeId].status == Staking.Active
        && height + p.unbondingPeriod <= MAX_U64
  {
    EarlierRunsIff(env, l, tx, height);
    hide ApplyTransaction, Execution.Sound, Env.AddressesSound, PresentedEarlier;
  }

  /** And no other kind of transaction runs. */
  lemma OtherKindsNeverRun(env: Env, l: Ledger, tx: Transaction, height: u64)
    requires !tx.coinbase && ApplyTransaction(env, l, tx, height).Some?
    ensures tx.ProtocolVersion() == TX_VERSION_ASSET ==> tx.Kind() in {Transfer, AssetCreate, AssetMint, AssetBurn}
    ensures tx.ProtocolVersion() != TX_VERSION_ASSET ==> tx.Kind() in {Transfer, StakeLock, StakeUnlock}
  {
    hide Executable, Effect, Fees.Acceptable, FeePayerAuthorized, DerivedId;
  }

  // ---------------------------------------------------------------- what pending transactions take away

  /** Where balance details foresee something else than what the transaction does to `a`: the fee of a pending
      asset operation is not held back; before version 3 the asset a transfer names does not matter, and its fee
      is its sender's whoever else it names. */
  predicate Misjudged(tx: Transaction, a: Address) {
    var pays := tx.EffectiveFeePayer() == a;
    if tx.ProtocolVersion() == TX_VERSION_ASSET then tx.Kind() != Transfer && pays && tx.fee > 0
    else
      && tx.Kind() == Transfer
      && ((!IsNative(tx.EffectiveAssetId()) && a in {tx.sender, tx.recipient}) || ((tx.sender == a) != pays && tx.fee > 0))
  }

  /** What of an address's coins is mature and not locked. */
  ghost function Free(l: Ledger, a: Address): int {
    (l.mature[a] as int) - Staking.Locked(l.stakes)[a]
  }

  /** What the details make of a pending transaction. */
  function Foreseen(tx: Transaction, a: Address): int {
    Balances.Incoming(tx, a) - Balances.Outgoing(tx, a) - Balances.Locking(tx, a)
  }

  lemma UnlockIsCurrent(env: Env, l: Ledger, tx: Transaction, height: u64)
    requires Staking.Current(l.stakes, l.height) && l.height < height
    requires Staking.ApplyUnlock(env.profile.staking, l.stakes, tx, height).Some?
    ensures
      var after := Staking.ApplyUnlock(env.profile.staking, l.stakes, tx, height).value;
      Staking.Refresh(after, l.height) == after && Staking.Locked(after) == Staking.Locked(l.stakes)
  {
    Staking.UnlockKeeps(env.profile.staking, l.stakes, tx, height);
    hide Staking.Locked;
    var after := Staking.ApplyUnlock(env.profile.staking, l.stakes, tx, height).value;
    forall id | id in after
      ensures Staking.Refresh(after, l.height)[id] == after[id]
    {
      assert id in l.stakes && Staking.Refresh(l.stakes, l.height)[id] == l.stakes[id];
    }
  }

  lemma FreeAfterStake(env: Env, l: Ledger, tx: Transaction, height: u64, a: Address)
    requires Staking.Current(l.stakes, l.height) && l.height < height
    requires tx.Kind() != Transfer && LegacyEffect(env, l, tx, height).Some?
    ensures Free(LegacyEffect(env, l, tx, height).value, a) == Free(l, a) - Balances.Locking(tx, a)
  {
    hide Staking.Locked, Staking.Current, Staking.Refresh, Staking.ApplyLock, Staking.ApplyUnlock;
    if tx.Kind() == StakeLock {
      Staking.LockAdds(env.profile.staking, l.stakes, tx, height);
    } else {
      UnlockIsCurrent(env, l, tx, height);
    }
  }

  lemma FreeAfterTransfer(env: Env, l: Ledger, tx: Transaction, height: u64, a: Address)
    requires WellSignedLegacy(env, tx) && tx.ProtocolVersion() != TX_VERSION_ASSET && !tx.coinbase && tx.Kind() == Transfer
    requires LegacyEffect(env, l, tx, height).Some?
    ensures Free(LegacyEffect(env, l, tx, height).value, a) == Free(l, a) + CoinsIn(tx, a) - CoinsOut(tx, a)
  {
    StepCoinsLegacy(env, l, tx, height, a);
    hide LegacyBook, Staking.Locked, WellSignedLegacy, CoinsIn, CoinsOut;
  }

  lemma FreeAfterV3(env: Env, l: Ledger, tx: Transaction, a: Address)
    requires WellSignedV3(env, tx) && env.AddressesSound() && EffectV3(l, tx).Some?
    requires l.assets.held.Keys == l.assets.defs.Keys
    ensures Free(EffectV3(l, tx).value, a) == Free(l, a) + CoinsIn(tx, a) - CoinsOut(tx, a)
  {
    hide WellSignedV3, EffectV3, CoinsIn, CoinsOut, Env.AddressesSound, Staking.Locked;
    StepCoinsV3(env, l, tx, a);
  }

  lemma ForeseenIffV3(env: Env, tx: Transaction, a: Address)
    requires WellSignedV3(env, tx)
    ensures Foreseen(tx, a) == CoinsIn(tx, a) - CoinsOut(tx, a) <==> !Misjudged(tx, a)
  {
    assert tx.ProtocolVersion() == TX_VERSION_ASSET && !tx.coinbase && tx.Kind() != StakeLock;
    hide WellSignedV3, IsNative;
  }

  lemma ForeseenIffTransfer(env: Env, tx: Transaction, a: Address)
    requires WellSignedLegacy(env, tx) && tx.ProtocolVersion() != TX_VERSION_ASSET && !tx.coinbase && tx.Kind() == Transfer
    ensures Foreseen(tx, a) == CoinsIn(tx, a) - CoinsOut(tx, a) <==> !Misjudged(tx, a)
  {
    assert tx.amount > 0 && tx.sender != tx.recipient;
    hide WellSignedLegacy, IsNative;
  }

  /** What a pending transaction does to what its parties may spend is what the details foresee, for everyone but
      those it misjudges. */
  lemma ForeseenIff(env: Env, l: Ledger, tx: Transaction, height: u64, a: Address)
    requires env.AddressesSound() && ApplyTransaction(env, l, tx, height).Some? && !tx.coinbase && l.height < height
    requires Coherent(env, l) && AssetSupply.IssuedMatch(l.assets)
    ensures Free(ApplyTransaction(env, l, tx, height).value, a) == Free(l, a) + Foreseen(tx, a) <==> !Misjudged(tx, a)
  {
    assert Staking.Current(l.stakes, l.height);
    hide WellSignedV3, WellSignedLegacy, Executable, EffectV3, LegacyEffect, Env.AddressesSound, Balances.Outgoing, CoinsIn,
         CoinsOut, Balances.Incoming, Staking.Locked, Staking.Current, Coherent, AssetSupply.IssuedMatch, IsNative;
    if tx.ProtocolVersion() == TX_VERSION_ASSET {
      Effects.MatchedKeys(l.assets);
      FreeAfterV3(env, l, tx, a);
      ForeseenIffV3(env, tx, a);
    } else if tx.Kind() == Transfer {
      FreeAfterTransfer(env, l, tx, height, a);
      ForeseenIffTransfer(env, tx, a);
    } else {
      FreeAfterStake(env, l, tx, height, a);
      NotForeseen(tx, a);
    }
  }

  lemma NotForeseen(tx: Transaction, a: Address)
    requires tx.Kind() != Transfer
    ensures Foreseen(tx, a) + Balances.Locking(tx, a) == 0
  {
  }

  lemma {:induction false} FreeAfterAll(env: Env, l: Ledger, pending: seq<Transaction>, height: u64, a: Address)
    requires env.AddressesSound() && ApplyAll(env, l, pending, height).Some? && l.height < height
    requires Coherent(env, l) && AssetSupply.IssuedMatch(l.assets)
    requires forall i :: 0 <= i < |pending| ==> !pending[i].coinbase && !Misjudged(pending[i], a)
    ensures
      var after := ApplyAll(env, l, pending, height).value;
      && Coherent(env, after) && AssetSupply.IssuedMatch(after.assets) && after.height == l.height
      && Free(after, a)
         == Free(l, a) - Balances.Sum(Balances.Outgoing, pending, a) - Balances.Sum(Balances.Locking, pending, a)
            + Balances.Sum(Balances.Incoming, pending, a)
  {
    hide ApplyTransaction, Env.AddressesSound, Balances.Outgoing, Balances.Incoming, Balances.Locking, Staking.Locked,
         Coherent, AssetSupply.IssuedMatch, Free, Misjudged;
    if pending != [] {
      var n := |pending| - 1;
      var tx := pending[n];
      assert !tx.coinbase && !Misjudged(tx, a);
      FreeAfterAll(env, l, pending[..n], height, a);
      var before := ApplyAll(env, l, pending[..n], height).value;
      ForeseenIff(env, before, tx, height, a);
      AssetSupply.ApplyAnyMatches(env, before, tx, height);
      ApplyTransactionKeeps(env, before, tx, height);
      MatureLedgers.ApplyAnyKeepsHeight(env, before, tx, height);
    }
  }

  lemma ShownSpendable(l: Ledger, pending: seq<Transaction>, a: Address)
    requires Balances.Sum(Balances.Outgoing, pending, a) + Balances.Sum(Balances.Locking, pending, a) <= Free(l, a)
    ensures Balances.DetailsOf(l, a, pending).spendable
         == Free(l, a) - Balances.Sum(Balances.Outgoing, pending, a) - Balances.Sum(Balances.Locking, pending, a)
  {
    hide Balances.Sum, Balances.Outgoing, Balances.Locking, Staking.Tally;
  }

  /** Balance details hold back exactly what pending transactions will take where they misjudge none: once these
      have run in a next block, what the address may spend is what the details showed, and what it received. */
  lemma PendingIsHeldBack(env: Env, l: Ledger, pending: seq<Transaction>, height: u64, a: Address)
    requires Execution.Sound(env, l) && env.AddressesSound() && ApplyAll(env, l, pending, height).Some? && l.height < height
    requires forall i :: 0 <= i < |pending| ==> !pending[i].coinbase && !Misjudged(pending[i], a)
    requires Balances.Sum(Balances.Outgoing, pending, a) + Balances.Sum(Balances.Locking, pending, a) <= Free(l, a)
    ensures Spendable(ApplyAll(env, l, pending, height).value, a)
         == Balances.DetailsOf(l, a, pending).spendable + Balances.Sum(Balances.Incoming, pending, a)
  {
    SoundParts(env, l);
    FreeAfterAll(env, l, pending, height, a);
    assert Balances.Sum(Balances.Outgoing, [], a) == 0 && Balances.Sum(Balances.Locking, [], a) == 0;
    assert Balances.Sum(Balances.Incoming, pending, a) >= 0;
    hide *;
    ShownSpendable(l, pending, a);
    ShownSpendable(ApplyAll(env, l, pending, height).value, [], a);
  }
}
