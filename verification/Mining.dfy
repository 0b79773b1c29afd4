/** Why a block can be built from transactions tried without its coinbase (chain/blockchain.go): what runs on
    the tip's ledger still runs when the coinbase goes first. */
module Mining {
  import opened Arith
  import opened Types
  import opened Assets
  import opened Ledgers
  import opened LedgerInvariant
  import opened Chains
  import AssetSupply
  import Effects
  import Execution
  import Staking
  import Text

  // ---------------------------------------------------------------- a coinbase goes first

  /** `m` is `l` with more confirmed coins and native asset balances of accounts, and otherwise the same
      to every transaction. */
  ghost predicate Richer(l: Ledger, m: Ledger) {
    && l.nonces == m.nonces && l.mature == m.mature && l.stakes == m.stakes && l.height == m.height
    && l.confirmed <= m.confirmed
    && l.assets.defs == m.assets.defs
    && (forall a, id :: id != NATIVE_ASSET ==> l.assets.Balance(a, id) == m.assets.Balance(a, id))
    && (forall a :: l.assets.Native()[a] <= m.assets.Native()[a])
  }

  /** Room in the supply, and everything else a reachable ledger satisfies. */
  ghost predicate Roomy(env: Env, l: Ledger) {
    Execution.Sound(env, l) && env.AddressesSound() && env.AssetModel()
  }

  lemma RicherSpends(l: Ledger, m: Ledger, a: Address, n: u64)
    requires Richer(l, m) && SpendAllowed(l, a, n) && NATIVE_ASSET in l.assets.held && NATIVE_ASSET in m.assets.held
    ensures SpendAllowed(m, a, n)
  {
    hide Staking.Locked;
    assert l.confirmed[a] <= m.confirmed[a];
    assert l.assets.Native()[a] <= m.assets.Native()[a];
  }

  lemma RicherLegacy(env: Env, l: Ledger, m: Ledger, tx: Transaction)
    requires Richer(l, m) && ExecutableLegacy(env, l, tx)
    ensures ExecutableLegacy(env, m, tx)
  {
    hide Staking.Locked, Staking.ActiveCount;
    assert l.confirmed[tx.sender] <= m.confirmed[tx.sender];
  }

  lemma RicherExecutable(env: Env, l: Ledger, m: Ledger, tx: Transaction)
    requires Roomy(env, l) && Roomy(env, m) && Richer(l, m) && WellSigned(env, tx) && Executable(env, l, tx)
    ensures Executable(env, m, tx)
  {
    hide Roomy, Richer, Coherent, ExecutableV3, ExecutableLegacy, WellSignedV3, WellSignedLegacy;
    NativeHeld(env, l);
    NativeHeld(env, m);
    if tx.ProtocolVersion() == TX_VERSION_ASSET {
      RicherV3(env, l, m, tx);
    } else {
      RicherLegacy(env, l, m, tx);
    }
  }

  lemma NativeHeld(env: Env, l: Ledger)
    requires Roomy(env, l)
    ensures NATIVE_ASSET in l.assets.held && l.assets.held.Keys == l.assets.defs.Keys && Coherent(env, l)
  {
  }

  lemma RicherV3(env: Env, l: Ledger, m: Ledger, tx: Transaction)
    requires Roomy(env, l) && Richer(l, m) && WellSignedV3(env, tx) && ExecutableV3(l, tx)
    requires NATIVE_ASSET in l.assets.held && NATIVE_ASSET in m.assets.held
    ensures ExecutableV3(m, tx)
  {
    if MovesNative(tx) {
      RicherNative(l, m, tx);
    } else {
      RicherOperation(env, l, m, tx);
    }
  }

  lemma RicherNative(l: Ledger, m: Ledger, tx: Transaction)
    requires Richer(l, m) && MovesNative(tx) && ExecutableV3(l, tx)
    requires NATIVE_ASSET in l.assets.held && NATIVE_ASSET in m.assets.held
    ensures ExecutableV3(m, tx)
  {
    hide Staking.Locked, IsNative, SpendAllowed;
    var payer := tx.EffectiveFeePayer();
    var cost := if payer == tx.sender then tx.amount + tx.fee else tx.amount;
    RicherSpends(l, m, tx.sender, cost);
    if payer != tx.sender {
      RicherSpends(l, m, payer, tx.fee);
    }
    assert l.assets.Native()[tx.sender] <= m.assets.Native()[tx.sender];
  }

  lemma RicherOperation(env: Env, l: Ledger, m: Ledger, tx: Transaction)
    requires Roomy(env, l) && Richer(l, m) && WellSignedV3(env, tx) && !MovesNative(tx) && ExecutableV3(l, tx)
    requires NATIVE_ASSET in l.assets.held && NATIVE_ASSET in m.assets.held
    ensures ExecutableV3(m, tx)
  {
    hide TokenExecutable, SpendAllowed, MovesNative, Coherent, AssetSupply.IssuedMatch, AssetBook.Balance;
    RicherSpends(l, m, tx.EffectiveFeePayer(), tx.fee);
    RicherToken(l.assets, m.assets, tx);
  }

  lemma RicherToken(b: AssetBook, c: AssetBook, tx: Transaction)
    requires AssetSupply.IssuedMatch(b) && b.defs == c.defs && EnvelopeValid(tx) && !MovesNative(tx)
    requires tx.Kind() == Transfer ==> tx.assetId != ""
    requires forall a, id :: id != NATIVE_ASSET ==> b.Balance(a, id) == c.Balance(a, id)
    requires TokenExecutable(b, tx)
    ensures TokenExecutable(c, tx)
  {
    NativeIsNative();
    hide IsNative, ValidDefinition, AssetSupply.SupplyMatches, AssetBook.Balance;
    assert tx.Kind() != AssetCreate ==> tx.assetId != NATIVE_ASSET;
  }

  // what one transaction does to both

  lemma PaysRicher(l: Ledger, m: Ledger, l2: Ledger, m2: Ledger, gain: multiset<Address>, loss: multiset<Address>, fee: nat)
    requires Richer(l, m) && Effects.Pays(l, l2, gain, loss, fee) && Effects.Pays(m, m2, gain, loss, fee)
    requires l2.assets.defs == m2.assets.defs
    requires forall a, id :: id != NATIVE_ASSET ==> l2.assets.Balance(a, id) == m2.assets.Balance(a, id)
    ensures Richer(l2, m2)
  {
    assert FeePool(l2) == l2.assets.Native()[FEE_COLLECTOR] && FeePool(m2) == m2.assets.Native()[FEE_COLLECTOR];
    assert FeePool(l) == l.assets.Native()[FEE_COLLECTOR] && FeePool(m) == m.assets.Native()[FEE_COLLECTOR];
    hide FeePool, AssetBook.Native, AssetBook.Balance;
    forall a
      ensures l2.mature[a] == m2.mature[a] && l2.confirmed[a] <= m2.confirmed[a]
      ensures l2.assets.Native()[a] <= m2.assets.Native()[a]
    {
      assert l.confirmed[a] <= m.confirmed[a] && l.mature[a] == m.mature[a];
    }
    assert l2.mature == m2.mature;
  }

  lemma NativeTransferRicher(l: Ledger, m: Ledger, tx: Transaction)
    requires Richer(l, m) && MovesNative(tx) && EffectV3(l, tx).Some? && EffectV3(m, tx).Some?
    requires tx.sender != FEE_COLLECTOR && tx.recipient != FEE_COLLECTOR && tx.EffectiveFeePayer() != FEE_COLLECTOR
    ensures Richer(EffectV3(l, tx).value, EffectV3(m, tx).value)
  {
    hide EffectV3, MovesNative, Effects.Pays, Effects.Coins, AssetBook.Balance, AssetBook.Native;
    Effects.NativeTransferPays(l, tx);
    Effects.NativeTransferPays(m, tx);
    PaysRicher(l, m, EffectV3(l, tx).value, EffectV3(m, tx).value, Effects.Coins(tx.recipient, tx.amount),
               Effects.Coins(tx.sender, tx.amount) + Effects.Coins(tx.EffectiveFeePayer(), tx.fee), tx.fee);
  }

  /** The token side of both books comes out alike. */
  lemma TokenSame(b: AssetBook, c: AssetBook, tx: Transaction)
    requires b.defs == c.defs && b.held.Keys == b.defs.Keys && c.held.Keys == c.defs.Keys
    requires forall a, id :: id != NATIVE_ASSET ==> b.Balance(a, id) == c.Balance(a, id)
    requires TokenEffect(b, tx).Some? && TokenEffect(c, tx).Some?
    ensures TokenEffect(b, tx).value.defs == TokenEffect(c, tx).value.defs
    ensures forall a, id :: id != NATIVE_ASSET ==> TokenEffect(b, tx).value.Balance(a, id) == TokenEffect(c, tx).value.Balance(a, id)
  {
    match tx.Kind()
    case Transfer =>
      Effects.TransferMoves(b, tx.assetId, tx.sender, tx.recipient, tx.amount);
      Effects.TransferMoves(c, tx.assetId, tx.sender, tx.recipient, tx.amount);
      hide AssetBook.Balance, AssetBook.Transfer;
    case AssetMint =>
      Effects.MintMoves(b, tx.assetId, tx.sender, tx.recipient, tx.amount);
      Effects.MintMoves(c, tx.assetId, tx.sender, tx.recipient, tx.amount);
      hide AssetBook.Balance, AssetBook.Mint;
    case AssetBurn =>
      Effects.BurnMoves(b, tx.assetId, tx.sender, tx.amount);
      Effects.BurnMoves(c, tx.assetId, tx.sender, tx.amount);
      hide AssetBook.Balance, AssetBook.Burn;
    case AssetCreate =>
      Effects.CreateMoves(b, DefinitionOf(tx));
      Effects.CreateMoves(c, DefinitionOf(tx));
      hide AssetBook.Balance, IsNative, ValidDefinition, DefinitionOf, Normal;
    case _ =>
  }

  lemma TokenRicher(env: Env, l: Ledger, m: Ledger, tx: Transaction)
    requires Richer(l, m) && !MovesNative(tx) && WellSignedV3(env, tx) && EffectV3(l, tx).Some? && EffectV3(m, tx).Some?
    requires l.assets.held.Keys == l.assets.defs.Keys && m.assets.held.Keys == m.assets.defs.Keys
    requires tx.EffectiveFeePayer() != FEE_COLLECTOR
    ensures Richer(EffectV3(l, tx).value, EffectV3(m, tx).value)
  {
    var payer := tx.EffectiveFeePayer();
    var x, y := l.(assets := TokenEffect(l.assets, tx).value), m.(assets := TokenEffect(m.assets, tx).value);
    assert EffectV3(l, tx) == ChargeFee(x, payer, tx.fee) && EffectV3(m, tx) == ChargeFee(y, payer, tx.fee);
    TokenSame(l.assets, m.assets, tx);
    hide EffectV3, ChargeFee, MovesNative, WellSignedV3, TokenEffect, Effects.Pays, Effects.Coins, AssetBook.Native,
         AssetBook.Balance;
    Effects.TokenOperationPays(env, l, tx);
    Effects.TokenOperationPays(env, m, tx);
    Effects.ChargePays(x, payer, tx.fee);
    Effects.ChargePays(y, payer, tx.fee);
    PaysRicher(l, m, EffectV3(l, tx).value, EffectV3(m, tx).value, multiset{}, Effects.Coins(payer, tx.fee), tx.fee);
  }

  lemma LegacyTransferRicher(env: Env, l: Ledger, m: Ledger, tx: Transaction)
    requires Roomy(env, l) && Roomy(env, m) && Richer(l, m)
    requires LegacyTransfer(env, l, tx).Some? && LegacyTransfer(env, m, tx).Some?
    requires tx.sender != tx.recipient && tx.sender != FEE_COLLECTOR && tx.recipient != FEE_COLLECTOR
    ensures Richer(LegacyTransfer(env, l, tx).value, LegacyTransfer(env, m, tx).value)
  {
    NativeHeld(env, l);
    NativeHeld(env, m);
    LegacyTransferMoves(env, l, tx);
    LegacyTransferMoves(env, m, tx);
    LegacyTransferOthers(env, l, tx);
    LegacyTransferOthers(env, m, tx);
    assert env.AssetModel();
    assert tx.amount + tx.fee <= l.assets.Native()[tx.sender] <= m.assets.Native()[tx.sender] by {
      NativeIsConfirmed(env, l, tx.sender);
    }
    hide Roomy, Coherent, LegacyTransfer, FeePool, AssetBook.Native, AssetBook.Balance, Moved;
    MovedMore(l.confirmed, m.confirmed, tx.sender, tx.recipient, tx.amount, tx.fee);
    MovedMore(l.assets.Native(), m.assets.Native(), tx.sender, tx.recipient, tx.amount, tx.fee);
  }

  lemma NativeIsConfirmed(env: Env, l: Ledger, a: Address)
    requires Roomy(env, l) && a != FEE_COLLECTOR
    ensures l.assets.Native()[a] == l.confirmed[a]
  {
  }

  lemma MovedMore(x: multiset<Address>, y: multiset<Address>, src: Address, dst: Address, n: nat, lost: nat)
    requires (forall a :: x[a] <= y[a]) && n + lost <= x[src] && src != dst
    ensures Moved(x, src, dst, n, lost) <= Moved(y, src, dst, n, lost)
    ensures forall a :: Moved(x, src, dst, n, lost)[a] <= Moved(y, src, dst, n, lost)[a]
  {
  }

  lemma LegacyTransferOthers(env: Env, l: Ledger, tx: Transaction)
    requires LegacyTransfer(env, l, tx).Some?
    ensures forall a, id :: id != NATIVE_ASSET ==>
              LegacyTransfer(env, l, tx).value.assets.Balance(a, id) == l.assets.Balance(a, id)
  {
    hide Text.Blank;
  }

  lemma StakeRicher(env: Env, l: Ledger, m: Ledger, tx: Transaction, height: u64)
    requires Richer(l, m) && tx.Kind() != Transfer
    requires LegacyEffect(env, l, tx, height).Some? && LegacyEffect(env, m, tx, height).Some?
    ensures Richer(LegacyEffect(env, l, tx, height).value, LegacyEffect(env, m, tx, height).value)
  {
    hide Staking.ApplyLock, Staking.ApplyUnlock, Staking.Refresh;
  }

  lemma NonceRicher(l: Ledger, m: Ledger, tx: Transaction)
    requires Richer(l, m)
    ensures Richer(UseNonce(l, tx), UseNonce(m, tx))
  {
  }

  lemma LegacyParties(env: Env, tx: Transaction)
    requires WellSignedLegacy(env, tx) && env.AddressesSound() && tx.Kind() == Transfer
    ensures tx.sender != tx.recipient && tx.sender != FEE_COLLECTOR && tx.recipient != FEE_COLLECTOR
  {
  }

  /** What executes on a ledger executes on a richer one, and keeps it richer. */
  lemma RicherApplies(env: Env, l: Ledger, m: Ledger, tx: Transaction, height: u64)
    requires Roomy(env, l) && Roomy(env, m) && Richer(l, m) && !tx.coinbase && ApplyTransaction(env, l, tx, height).Some?
    ensures ApplyTransaction(env, m, tx, height).Some?
    ensures Richer(ApplyTransaction(env, l, tx, height).value, ApplyTransaction(env, m, tx, height).value)
  {
    RicherRuns(env, l, m, tx, height);
    NativeHeld(env, l);
    NativeHeld(env, m);
    var x, y := Effect(env, l, tx, height).value, Effect(env, m, tx, height).value;
    assert env.AddressesSound() && WellSigned(env, tx);
    hide Roomy, Richer, Coherent, Executable, EffectV3, LegacyTransfer, WellSignedV3, WellSignedLegacy, MovesNative;
    if tx.ProtocolVersion() == TX_VERSION_ASSET {
      SignedAddresses(env, tx);
      if MovesNative(tx) {
        TransferKind(tx);
        NativeTransferRicher(l, m, tx);
      } else {
        TokenRicher(env, l, m, tx);
      }
    } else if tx.Kind() == Transfer {
      LegacyParties(env, tx);
      LegacyTransferRicher(env, l, m, tx);
    } else {
      StakeRicher(env, l, m, tx, height);
    }
    NonceRicher(x, y, tx);
  }

  lemma TransferKind(tx: Transaction)
    requires MovesNative(tx)
    ensures tx.Kind() == Transfer
  {
  }

  lemma RicherRuns(env: Env, l: Ledger, m: Ledger, tx: Transaction, height: u64)
    requires Roomy(env, l) && Roomy(env, m) && Richer(l, m) && !tx.coinbase && ApplyTransaction(env, l, tx, height).Some?
    ensures ApplyTransaction(env, m, tx, height).Some?
  {
    RicherExecutable(env, l, m, tx);
    assert ValidTransaction(env, l, tx) && ValidTransaction(env, m, tx);
    assert Execution.Sound(env, l) && Execution.Sound(env, m) && env.AddressesSound();
    assert Execution.StakeObstacle(env, l, tx, height) == Execution.StakeObstacle(env, m, tx, height);
    hide Roomy, Richer, Execution.Sound, ValidTransaction, ApplyTransaction, Execution.StakeObstacle;
    Execution.ValidExecutesIff(env, l, tx, height);
    Execution.ValidExecutesIff(env, m, tx, height);
  }

  lemma RoomyNext(env: Env, l: Ledger, tx: Transaction, height: u64)
    requires Roomy(env, l) && ApplyAny(env, l, tx, height).Some?
    requires tx.coinbase ==> Supply(l) + tx.amount <= MAX_U64
    ensures Roomy(env, ApplyAny(env, l, tx, height).value)
  {
    Execution.SoundParts(env, l);
    assert env.AddressesSound() && env.AssetModel() && Supply(l) <= MAX_U64;
    hide Roomy, Coherent, AssetSupply.IssuedMatch, Execution.NoneFrozen, Supply, ApplyTransaction, ApplyCoinbase;
    Execution.ApplyAnyNeverFreezes(env, l, tx, height);
    AssetSupply.ApplyAnyMatches(env, l, tx, height);
    if tx.coinbase {
      CoinbaseKeeps(env, l, tx, height);
    } else {
      ApplyTransactionKeeps(env, l, tx, height);
    }
    RoomyFrom(env, ApplyAny(env, l, tx, height).value);
  }

  lemma RoomyFrom(env: Env, l: Ledger)
    requires Coherent(env, l) && AssetSupply.IssuedMatch(l.assets) && Execution.NoneFrozen(l.assets) && Supply(l) <= MAX_U64
    requires env.AddressesSound() && env.AssetModel()
    ensures Roomy(env, l)
  {
  }

  predicate NoCoinbase(txs: seq<Transaction>) {
    forall i :: 0 <= i < |txs| ==> !txs[i].coinbase
  }

  /** A list that applies to a ledger applies to every richer one. */
  lemma {:induction false} RicherAppliesAll(env: Env, l: Ledger, m: Ledger, txs: seq<Transaction>, height: u64)
    requires Roomy(env, l) && Roomy(env, m) && Richer(l, m) && NoCoinbase(txs) && ApplyAll(env, l, txs, height).Some?
    ensures ApplyAll(env, m, txs, height).Some?
    ensures Richer(ApplyAll(env, l, txs, height).value, ApplyAll(env, m, txs, height).value)
    ensures Roomy(env, ApplyAll(env, l, txs, height).value) && Roomy(env, ApplyAll(env, m, txs, height).value)
  {
    hide Roomy, Richer, ApplyTransaction;
    if txs != [] {
      var n := |txs| - 1;
      RicherAppliesAll(env, l, m, txs[..n], height);
      var x, y := ApplyAll(env, l, txs[..n], height).value, ApplyAll(env, m, txs[..n], height).value;
      RicherApplies(env, x, y, txs[n], height);
      RoomyNext(env, x, txs[n], height);
      RoomyNext(env, y, txs[n], height);
    }
  }

  lemma CoinbaseOthers(env: Env, l: Ledger, coinbase: Transaction, height: u64)
    requires ApplyCoinbase(env, l, coinbase, height).Some?
    ensures forall a, id :: id != NATIVE_ASSET ==>
              ApplyCoinbase(env, l, coinbase, height).value.assets.Balance(a, id) == l.assets.Balance(a, id)
  {
    hide Text.Blank;
  }

  lemma CoinbaseRicher(env: Env, l: Ledger, coinbase: Transaction, height: u64)
    requires Roomy(env, l) && ApplyCoinbase(env, l, coinbase, height).Some?
    ensures Richer(l, ApplyCoinbase(env, l, coinbase, height).value)
  {
    hide ApplyCoinbase, Coherent, Execution.Sound, FeePool, AssetBook.Native, AssetBook.Balance;
    NativeHeld(env, l);
    ModelOn(env, l);
    CoinbaseShape(env, l, coinbase, height);
    CoinbaseOthers(env, l, coinbase, height);
  }

  lemma ModelOn(env: Env, l: Ledger)
    requires Roomy(env, l)
    ensures env.AssetModel() && env.AddressesSound()
  {
  }

  lemma {:induction false} CoinbaseInFront(env: Env, l: Ledger, coinbase: Transaction, txs: seq<Transaction>, height: u64)
    requires ApplyAny(env, l, coinbase, height).Some?
    ensures ApplyAll(env, l, [coinbase] + txs, height) == ApplyAll(env, ApplyAny(env, l, coinbase, height).value, txs, height)
  {
    hide ApplyAny;
    var all := [coinbase] + txs;
    if txs == [] {
      assert all == [coinbase] && all[..0] == [];
      assert ApplyAll(env, l, [], height) == Some(l);
    } else {
      var n := |txs| - 1;
      assert all[..n + 1] == [coinbase] + txs[..n];
      CoinbaseInFront(env, l, coinbase, txs[..n], height);
    }
  }

  /** What was tried without the coinbase still applies behind it. */
  lemma CoinbaseGoesFirst(env: Env, l: Ledger, coinbase: Transaction, txs: seq<Transaction>, height: u64)
    requires Roomy(env, l) && coinbase.coinbase && ApplyCoinbase(env, l, coinbase, height).Some?
    requires Supply(l) + coinbase.amount <= MAX_U64
    requires NoCoinbase(txs) && ApplyAll(env, l, txs, height).Some?
    ensures ApplyAll(env, l, [coinbase] + txs, height).Some?
  {
    hide Roomy, Richer, ApplyCoinbase, Supply, ApplyTransaction, NoCoinbase;
    CoinbaseRicher(env, l, coinbase, height);
    RoomyNext(env, l, coinbase, height);
    RicherAppliesAll(env, l, ApplyCoinbase(env, l, coinbase, height).value, txs, height);
    CoinbaseInFront(env, l, coinbase, txs, height);
  }

  lemma CoinbasePays(env: Env, l: Ledger, coinbase: Transaction, height: u64)
    requires Roomy(env, l) && coinbase.coinbase && Supply(l) + coinbase.amount <= MAX_U64
    ensures ApplyCoinbase(env, l, coinbase, height).Some? <==> env.ValidAddress(coinbase.recipient)
  {
    var to := coinbase.recipient;
    NativeHeld(env, l);
    Execution.RoomFor(l, to);
    if env.ValidAddress(to) {
      assert !Text.Blank(to) && to != FEE_COLLECTOR;
      assert l.assets.Native()[to] == l.confirmed[to];
      hide Text.Blank, Supply;
      assert NATIVE_ASSET in l.assets.defs;
    }
  }
}
