/** What every ledger step keeps: the three views of the native coin agree, locked stake stays
    covered by mature coins, issued supplies match their holders, and coins are conserved. */
module LedgerInvariant {
  import opened Arith
  import opened Types
  import opened Assets
  import Text
  import opened Ledgers
  import Staking

  /** Per address, the coinbase coins that are confirmed but not yet mature. */
  ghost function Owed(pending: seq<PendingCoinbase>): multiset<Address> {
    if pending == [] then multiset{}
    else
      var c := pending[|pending| - 1];
      Owed(pending[..|pending| - 1]) + multiset{}[c.address := c.amount]
  }

  /** Native asset balance = confirmed = mature + pending coinbases; the fee pool is apart. */
  ghost predicate ViewsAgree(env: Env, l: Ledger) {
    && l.confirmed == l.mature + Owed(l.pending)
    && l.confirmed[FEE_COLLECTOR] == 0
    && l.assets.Native() == (if env.AssetModel() then l.confirmed[FEE_COLLECTOR := FeePool(l)] else multiset{})
    && forall a :: l.confirmed[a] <= MAX_U64
  }

  /** Locked stake is never spent. */
  ghost predicate StakeCovered(l: Ledger) {
    Staking.Locked(l.stakes) <= l.mature
  }

  /** Account entries exist for every address that owns, is owed or has sent anything. */
  ghost predicate EntriesExist(l: Ledger) {
    && (forall a :: l.confirmed[a] > 0 || l.nonces[a] > 0 ==> a in l.known)
    && (forall a :: l.nonces[a] <= MAX_U64)
    && (forall c :: c in l.pending ==> c.address in l.known && c.amount > 0)
  }

  ghost predicate Coherent(env: Env, l: Ledger) {
    && ViewsAgree(env, l)
    && StakeCovered(l)
    && Staking.Current(l.stakes, l.height)
    && EntriesExist(l)
    && NATIVE_ASSET in l.assets.held && NATIVE_ASSET in l.assets.defs
    && FeePool(l) <= MAX_U64
  }

  /** All native coins: what accounts own plus fees waiting for the block producer. */
  ghost function Supply(l: Ledger): nat {
    |l.confirmed| + FeePool(l)
  }

  lemma SupplyIsNativeTotal(env: Env, l: Ledger)
    requires Coherent(env, l) && env.AssetModel()
    ensures Supply(l) == |l.assets.Native()|
  {
  }

  lemma NewLedgerCoherent(env: Env)
    ensures Coherent(env, NEW_LEDGER) && Supply(NEW_LEDGER) == 0
  {
    var nobody: multiset<Address> := multiset{};
    assert nobody[FEE_COLLECTOR := 0] == nobody;
    assert Staking.Locked(map[]) == multiset{};
  }

  // ---------------------------------------------------------------- native movements

  lemma SpendKeeps(env: Env, l: Ledger, a: Address, n: u64)
    requires Coherent(env, l) && env.AssetModel() && a != FEE_COLLECTOR
    requires Spend(l, a, n).Some?
    ensures
      var after := Spend(l, a, n).value;
      Coherent(env, after) && Supply(after) == Supply(l) - n && FeePool(after) == FeePool(l)
  {
    var after := Spend(l, a, n).value;
    assert after.confirmed == after.mature + Owed(l.pending);
    assert after.assets.Native() == after.confirmed[FEE_COLLECTOR := FeePool(l)];
  }

  lemma ReceiveKeeps(env: Env, l: Ledger, a: Address, n: u64)
    requires Coherent(env, l) && env.AssetModel() && a != FEE_COLLECTOR
    requires Receive(l, a, n).Some?
    ensures
      var after := Receive(l, a, n).value;
      Coherent(env, after) && Supply(after) == Supply(l) + n && FeePool(after) == FeePool(l)
  {
    hide Owed, Staking.Locked, Staking.Refresh;
    if n > 0 {
      var after := Receive(l, a, n).value;
      assert after.confirmed == after.mature + Owed(l.pending);
      assert after.assets.Native() == after.confirmed[FEE_COLLECTOR := FeePool(l)];
    }
  }

  lemma MatureIsConfirmed(env: Env, l: Ledger)
    requires Coherent(env, l)
    ensures forall a :: l.mature[a] <= l.confirmed[a] <= MAX_U64
  {
    assert forall a :: l.mature[a] + Owed(l.pending)[a] == l.confirmed[a];
  }

  /** With the views in agreement, the only thing that can stop a spend is locked or missing
      mature balance: the other three checks are implied. */
  lemma SpendIffUnlocked(env: Env, l: Ledger, a: Address, n: u64)
    requires Coherent(env, l) && env.AssetModel() && a != FEE_COLLECTOR
    ensures Spend(l, a, n).Some? <==> n == 0 || Staking.Locked(l.stakes)[a] + n <= l.mature[a]
  {
    assert l.assets.Native()[a] == l.confirmed[a];
  }

  lemma ReceiveIffFits(env: Env, l: Ledger, a: Address, n: u64)
    requires Coherent(env, l) && env.AssetModel() && env.AddressesSound() && env.ValidAddress(a)
    ensures Receive(l, a, n).Some? <==> l.confirmed[a] + n <= MAX_U64
  {
    assert l.assets.Native()[a] == l.confirmed[a];
    assert l.mature[a] <= l.confirmed[a];
  }

  lemma ChargeFeeKeeps(env: Env, l: Ledger, payer: Address, fee: u64)
    requires Coherent(env, l) && env.AssetModel() && payer != FEE_COLLECTOR
    requires ChargeFee(l, payer, fee).Some?
    ensures
      var after := ChargeFee(l, payer, fee).value;
      Coherent(env, after) && Supply(after) == Supply(l) && FeePool(after) == FeePool(l) + fee
  {
    if fee > 0 {
      SpendKeeps(env, l, payer, fee);
      CollectKeeps(env, Spend(l, payer, fee).value, fee);
    }
  }

  lemma CollectKeeps(env: Env, l: Ledger, fee: u64)
    requires Coherent(env, l) && env.AssetModel()
    requires l.assets.Credit(FEE_COLLECTOR, NATIVE_ASSET, fee).Some?
    ensures
      var after := l.(assets := l.assets.Credit(FEE_COLLECTOR, NATIVE_ASSET, fee).value);
      Coherent(env, after) && Supply(after) == Supply(l) + fee && FeePool(after) == FeePool(l) + fee
  {
    var after := l.(assets := l.assets.Credit(FEE_COLLECTOR, NATIVE_ASSET, fee).value);
    assert after.assets.Native() == after.confirmed[FEE_COLLECTOR := FeePool(after)];
  }

  /** Settlement empties the fee pool into the block producer's account. */
  lemma SettleFeesKeeps(env: Env, l: Ledger, miner: Address)
    requires Coherent(env, l) && env.AssetModel() && env.AddressesSound()
    requires SettleFees(env, l, miner).Some?
    ensures
      var after := SettleFees(env, l, miner).value;
      Coherent(env, after) && Supply(after) == Supply(l) && FeePool(after) == 0
  {
    var fee := FeePool(l);
    if fee > 0 {
      var drained := l.(assets := l.assets.Debit(FEE_COLLECTOR, NATIVE_ASSET, fee).value);
      assert drained.assets.Native() == drained.confirmed[FEE_COLLECTOR := 0];
      ReceiveKeeps(env, drained, miner, fee);
    }
  }

  /** Settlement can only fail when the producer's balance would not fit in 64 bits. */
  lemma SettleFeesIffFits(env: Env, l: Ledger, miner: Address)
    requires Coherent(env, l) && env.AssetModel() && env.AddressesSound() && env.ValidAddress(miner)
    ensures SettleFees(env, l, miner).Some? <==> l.confirmed[miner] + FeePool(l) <= MAX_U64
  {
    var fee := FeePool(l);
    if fee > 0 {
      var drained := l.(assets := l.assets.Debit(FEE_COLLECTOR, NATIVE_ASSET, fee).value);
      assert drained.assets.Native() == drained.confirmed[FEE_COLLECTOR := 0];
      ReceiveIffFits(env, drained, miner, fee);
    }
  }

  // ---------------------------------------------------------------- coinbases

  lemma CoinbaseKeeps(env: Env, l: Ledger, tx: Transaction, height: u64)
    requires Coherent(env, l) && env.AddressesSound()
    requires ApplyCoinbase(env, l, tx, height).Some?
    ensures
      var after := ApplyCoinbase(env, l, tx, height).value;
      Coherent(env, after) && Supply(after) == Supply(l) + tx.amount && FeePool(after) == FeePool(l)
  {
    CoinbaseKeepsViews(env, l, tx, height);
    CoinbaseKeepsEntries(env, l, tx, height);
  }

  lemma CoinbaseKeepsViews(env: Env, l: Ledger, tx: Transaction, height: u64)
    requires ViewsAgree(env, l) && NATIVE_ASSET in l.assets.held && env.AddressesSound()
    requires ApplyCoinbase(env, l, tx, height).Some?
    ensures
      var after := ApplyCoinbase(env, l, tx, height).value;
      ViewsAgree(env, after) && FeePool(after) == FeePool(l)
  {
    hide ApplyCoinbase, Owed;
    var to := tx.recipient;
    CoinbaseShape(env, l, tx, height);
    OwedAppend(l.pending, PendingCoinbase(to, tx.amount, height));
    PaidOnTop(l.confirmed, l.mature, Owed(l.pending), to, tx.amount);
    var after := ApplyCoinbase(env, l, tx, height).value;
    assert env.AssetModel() ==> after.assets.Native() == after.confirmed[FEE_COLLECTOR := FeePool(l)];
  }

  lemma CoinbaseShape(env: Env, l: Ledger, tx: Transaction, height: u64)
    requires ApplyCoinbase(env, l, tx, height).Some? && env.AddressesSound() && NATIVE_ASSET in l.assets.held
    ensures
      var after := ApplyCoinbase(env, l, tx, height).value;
      var to := tx.recipient;
      && to != FEE_COLLECTOR
      && after == l.(known := l.known + {to}, confirmed := l.confirmed[to := l.confirmed[to] + tx.amount],
                     pending := after.pending, assets := after.assets)
      && l.confirmed[to] + tx.amount <= MAX_U64
      && after.pending == (if tx.amount > 0 then l.pending + [PendingCoinbase(to, tx.amount, height)] else l.pending)
      && (env.AssetModel() ==> after.assets.Native() == l.assets.Native()[to := l.assets.Native()[to] + tx.amount])
      && (!env.AssetModel() ==> after.assets == l.assets)
      && FeePool(after) == FeePool(l) && NATIVE_ASSET in after.assets.held
      && after.assets.defs == l.assets.defs
  {
  }

  lemma PaidOnTop(total: multiset<Address>, x: multiset<Address>, y: multiset<Address>, a: Address, n: nat)
    requires total == x + y
    ensures total[a := total[a] + n] == x + (y + multiset{}[a := n])
    ensures n == 0 ==> total[a := total[a] + n] == total
  {
  }

  lemma CoinbaseKeepsEntries(env: Env, l: Ledger, tx: Transaction, height: u64)
    requires EntriesExist(l)
    requires ApplyCoinbase(env, l, tx, height).Some?
    ensures EntriesExist(ApplyCoinbase(env, l, tx, height).value)
  {
  }

  lemma OwedAppend(credits: seq<PendingCoinbase>, c: PendingCoinbase)
    ensures Owed(credits + [c]) == Owed(credits) + multiset{}[c.address := c.amount]
  {
    assert (credits + [c])[..|credits|] == credits;
  }

  /** The coinbases that are not yet due, in order. */
  function Immature(env: Env, credits: seq<PendingCoinbase>, height: u64): seq<PendingCoinbase> {
    if credits == [] then []
    else
      var c := credits[|credits| - 1];
      var before := Immature(env, credits[..|credits| - 1], height);
      if Due(env, c, height) then before else before + [c]
  }

  /** When nothing can overflow, a maturing pass keeps exactly the coinbases that are not due
      and moves the rest, coin for coin, into mature balances. */
  lemma {:induction false} MatureRunExact(env: Env, l: Ledger, credits: seq<PendingCoinbase>, height: u64)
    requires forall a :: l.mature[a] + Owed(credits)[a] <= MAX_U64
    requires forall c :: c in credits ==> c.address in l.known
    ensures
      var after := MatureRun(env, l, credits, height);
      && after == l.(mature := after.mature, pending := Immature(env, credits, height))
      && after.mature + Owed(after.pending) == l.mature + Owed(credits)
      && l.mature <= after.mature
  {
    if credits == [] {
    } else {
      var n := |credits| - 1;
      var c := credits[n];
      MatureRunExact(env, l, credits[..n], height);
      var before := MatureRun(env, l, credits[..n], height);
      assert (before.mature + Owed(before.pending))[c.address] == (l.mature + Owed(credits[..n]))[c.address];
      MatureStepExact(env, before, c, height);
    }
  }

  lemma MatureStepExact(env: Env, l: Ledger, c: PendingCoinbase, height: u64)
    requires l.mature[c.address] + c.amount <= MAX_U64 && c.address in l.known
    ensures
      var after := MatureStep(env, l, c, height);
      && after == l.(mature := after.mature, pending := if Due(env, c, height) then l.pending else l.pending + [c])
      && after.mature + Owed(after.pending) == l.mature + Owed(l.pending) + multiset{}[c.address := c.amount]
      && l.mature <= after.mature
  {
    assert l.known + {c.address} == l.known;
    OwedAppend(l.pending, c);
  }

  lemma MatureKeeps(env: Env, l: Ledger, height: u64)
    requires Coherent(env, l)
    ensures
      var after := MatureCoinbases(env, l, height);
      && Coherent(env, after) && Supply(after) == Supply(l) && FeePool(after) == FeePool(l)
      && after == l.(mature := after.mature, pending := Immature(env, l.pending, height))
  {
    hide MatureRun, Immature, Owed, Due;
    assert forall a :: l.mature[a] + Owed(l.pending)[a] == l.confirmed[a];
    MatureRunExact(env, l, l.pending, height);
    ImmatureMembers(env, l.pending, height);
  }

  lemma {:induction false} ImmatureMembers(env: Env, credits: seq<PendingCoinbase>, height: u64)
    ensures forall c :: c in Immature(env, credits, height) <==> c in credits && !Due(env, c, height)
  {
    if credits != [] {
      var n := |credits| - 1;
      ImmatureMembers(env, credits[..n], height);
      assert credits == credits[..n] + [credits[n]];
    }
  }

  // ---------------------------------------------------------------- transactions

  /** Fees of pre-v3 transfers are debited but credited to nobody inside the block. */
  function Burned(tx: Transaction): nat {
    if !tx.coinbase && tx.ProtocolVersion() != TX_VERSION_ASSET && tx.Kind() == Transfer then tx.fee else 0
  }

  lemma SwapAssets(env: Env, l: Ledger, assets: AssetBook)
    requires Coherent(env, l)
    requires assets.Native() == l.assets.Native() && NATIVE_ASSET in assets.held && NATIVE_ASSET in assets.defs
    ensures
      var after := l.(assets := assets);
      Coherent(env, after) && Supply(after) == Supply(l) && FeePool(after) == FeePool(l)
  {
  }

  /** Token operations of a well-formed v3 transaction never touch native balances. */
  lemma TokenEffectKeepsNative(env: Env, l: Ledger, tx: Transaction)
    requires WellSignedV3(env, tx) && !MovesNative(tx)
    requires NATIVE_ASSET in l.assets.held && NATIVE_ASSET in l.assets.defs
    requires TokenEffect(l.assets, tx).Some?
    ensures
      var assets := TokenEffect(l.assets, tx).value;
      assets.Native() == l.assets.Native() && NATIVE_ASSET in assets.held && NATIVE_ASSET in assets.defs
  {
    NativeIsNative();
    if tx.Kind() == AssetCreate {
      DerivedIdIsIssued(tx.id);
    }
  }

  lemma SignedAddresses(env: Env, tx: Transaction)
    requires WellSignedV3(env, tx) && env.AddressesSound()
    ensures tx.sender != FEE_COLLECTOR && tx.EffectiveFeePayer() != FEE_COLLECTOR
    ensures tx.Kind() == Transfer ==> tx.recipient != FEE_COLLECTOR && tx.recipient != tx.sender
  {
  }

  lemma EffectV3Keeps(env: Env, l: Ledger, tx: Transaction)
    requires Coherent(env, l) && env.AssetModel() && env.AddressesSound() && WellSignedV3(env, tx)
    requires EffectV3(l, tx).Some?
    ensures
      var after := EffectV3(l, tx).value;
      Coherent(env, after) && Supply(after) == Supply(l) && FeePool(after) == FeePool(l) + tx.fee
  {
    hide Supply, FeePool, Spend, ChargeFee, Receive, TokenEffect, WellSignedV3;
    SignedAddresses(env, tx);
    var payer := tx.EffectiveFeePayer();
    if MovesNative(tx) {
      SpendKeeps(env, l, tx.sender, tx.amount);
      var sent := Spend(l, tx.sender, tx.amount).value;
      ChargeFeeKeeps(env, sent, payer, tx.fee);
      ReceiveKeeps(env, ChargeFee(sent, payer, tx.fee).value, tx.recipient, tx.amount);
    } else {
      TokenEffectKeepsNative(env, l, tx);
      SwapAssets(env, l, TokenEffect(l.assets, tx).value);
      ChargeFeeKeeps(env, l.(assets := TokenEffect(l.assets, tx).value), payer, tx.fee);
    }
  }

  /** Moving coins from one address to another, `lost` of them vanishing on the way. */
  ghost function Moved(m: multiset<Address>, src: Address, dst: Address, n: nat, lost: nat): multiset<Address>
    requires n + lost <= m[src] && src != dst
  {
    m[src := m[src] - (n + lost)][dst := m[dst] + n]
  }

  lemma MovedOnTop(total: multiset<Address>, x: multiset<Address>, y: multiset<Address>,
                   src: Address, dst: Address, n: nat, lost: nat)
    requires total == x + y && n + lost <= x[src] && src != dst
    ensures Moved(total, src, dst, n, lost) == Moved(x, src, dst, n, lost) + y
    ensures |Moved(total, src, dst, n, lost)| == |total| - lost
  {
  }

  lemma LegacyTransferMoves(env: Env, l: Ledger, tx: Transaction)
    requires LegacyTransfer(env, l, tx).Some? && NATIVE_ASSET in l.assets.held
    requires tx.sender != tx.recipient && tx.sender != FEE_COLLECTOR && tx.recipient != FEE_COLLECTOR
    ensures
      var after := LegacyTransfer(env, l, tx).value;
      && l.confirmed[tx.recipient] + tx.amount <= MAX_U64
      && tx.amount + tx.fee <= l.mature[tx.sender] && tx.amount + tx.fee <= l.confirmed[tx.sender]
      && after.confirmed == Moved(l.confirmed, tx.sender, tx.recipient, tx.amount, tx.fee)
      && after.mature == Moved(l.mature, tx.sender, tx.recipient, tx.amount, tx.fee)
      && (env.AssetModel() ==>
            after.assets.Native() == Moved(l.assets.Native(), tx.sender, tx.recipient, tx.amount, tx.fee))
      && (!env.AssetModel() ==> after.assets == l.assets)
      && FeePool(after) == FeePool(l) && NATIVE_ASSET in after.assets.held
      && after.assets.defs == l.assets.defs
      && after == l.(known := l.known + {tx.sender, tx.recipient}, confirmed := after.confirmed,
                     mature := after.mature, assets := after.assets)
  {
    hide Text.Blank;
  }

  lemma LegacyTransferKeeps(env: Env, l: Ledger, tx: Transaction)
    requires Coherent(env, l) && LegacyTransfer(env, l, tx).Some?
    requires tx.sender != tx.recipient && tx.sender != FEE_COLLECTOR && tx.recipient != FEE_COLLECTOR
    requires Staking.Locked(l.stakes)[tx.sender] + tx.amount + tx.fee <= l.mature[tx.sender]
    ensures
      var after := LegacyTransfer(env, l, tx).value;
      Coherent(env, after) && Supply(after) == Supply(l) - tx.fee && FeePool(after) == FeePool(l)
  {
    hide LegacyTransfer, Staking.Locked, ViewsAgree, Owed, FeePool, AssetBook.Native;
    LegacyTransferMoves(env, l, tx);
    LegacyTransferKeepsViews(env, l, tx);
  }

  lemma LegacyTransferKeepsViews(env: Env, l: Ledger, tx: Transaction)
    requires ViewsAgree(env, l) && NATIVE_ASSET in l.assets.held && LegacyTransfer(env, l, tx).Some?
    requires tx.sender != tx.recipient && tx.sender != FEE_COLLECTOR && tx.recipient != FEE_COLLECTOR
    ensures
      var after := LegacyTransfer(env, l, tx).value;
      ViewsAgree(env, after) && |after.confirmed| == |l.confirmed| - tx.fee
  {
    hide LegacyTransfer, Owed, FeePool, AssetBook.Native;
    var after := LegacyTransfer(env, l, tx).value;
    LegacyTransferMoves(env, l, tx);
    MovedOnTop(l.confirmed, l.mature, Owed(l.pending), tx.sender, tx.recipient, tx.amount, tx.fee);
    assert env.AssetModel() ==> after.assets.Native() == after.confirmed[FEE_COLLECTOR := FeePool(l)];
  }

  /** With the views in agreement the asset-book writes of a pre-v3 transfer cannot fail after
      the accounts were written: only the account checks decide. */
  lemma LegacyTransferDecidedByAccounts(env: Env, l: Ledger, tx: Transaction)
    requires Coherent(env, l) && env.AddressesSound()
    requires env.ValidAddress(tx.sender) && env.ValidAddress(tx.recipient) && tx.sender != tx.recipient
    ensures LegacyTransfer(env, l, tx).Some? <==>
            && tx.amount + tx.fee <= MAX_U64
            && tx.amount + tx.fee <= l.mature[tx.sender]
            && l.confirmed[tx.recipient] + tx.amount <= MAX_U64
  {
    assert l.mature[tx.sender] <= l.confirmed[tx.sender];
    assert l.mature[tx.recipient] <= l.confirmed[tx.recipient];
    assert env.AssetModel() ==> l.assets.Native()[tx.sender] == l.confirmed[tx.sender];
    assert env.AssetModel() ==> l.assets.Native()[tx.recipient] == l.confirmed[tx.recipient];
  }

  lemma LegacyEffectKeeps(env: Env, l: Ledger, tx: Transaction, height: u64)
    requires Coherent(env, l) && env.AddressesSound()
    requires WellSignedLegacy(env, tx) && ExecutableLegacy(env, l, tx)
    requires LegacyEffect(env, l, tx, height).Some? && !tx.coinbase && tx.ProtocolVersion() != TX_VERSION_ASSET
    ensures
      var after := LegacyEffect(env, l, tx, height).value;
      Coherent(env, after) && Supply(after) == Supply(l) - Burned(tx) && FeePool(after) == FeePool(l)
  {
    if tx.Kind() == Transfer {
      LegacyTransferKeeps(env, l, tx);
    } else {
      StakeEffectKeeps(env, l, tx, height);
    }
  }

  lemma StakeEffectKeeps(env: Env, l: Ledger, tx: Transaction, height: u64)
    requires Coherent(env, l) && tx.Kind() != Transfer
    requires ExecutableLegacy(env, l, tx) && LegacyEffect(env, l, tx, height).Some?
    ensures
      var after := LegacyEffect(env, l, tx, height).value;
      Coherent(env, after) && Supply(after) == Supply(l) && FeePool(after) == FeePool(l)
  {
    hide Staking.Locked, Staking.ApplyLock, Staking.ApplyUnlock, Staking.ActiveCount, Staking.Refresh, Staking.Current;
    var params := env.profile.staking;
    if tx.Kind() == StakeLock {
      Staking.LockAdds(params, l.stakes, tx, height);
      Staking.LockIsCurrent(params, l.stakes, tx, height, l.height);
      SwapStakes(env, l, Staking.ApplyLock(params, l.stakes, tx, height).value);
    } else {
      var stakes := Staking.ApplyUnlock(params, l.stakes, tx, height).value;
      Staking.UnlockKeeps(params, l.stakes, tx, height);
      Staking.UnlockIsCurrent(params, l.stakes, tx, height, l.height);
      RefreshLocksLess(stakes, l.height);
      SwapStakes(env, l, Staking.Refresh(stakes, l.height));
    }
  }

  lemma SwapStakes(env: Env, l: Ledger, stakes: Staking.Records)
    requires Coherent(env, l) && Staking.Locked(stakes) <= l.mature && Staking.Current(stakes, l.height)
    ensures
      var after := l.(stakes := stakes);
      Coherent(env, after) && Supply(after) == Supply(l) && FeePool(after) == FeePool(l)
  {
    hide Staking.Locked, Staking.Current;
  }

  lemma AdvanceKeeps(env: Env, l: Ledger, height: u64)
    requires Coherent(env, l)
    ensures
      var after := l.(height := height, stakes := Staking.Refresh(l.stakes, height));
      Coherent(env, after) && Supply(after) == Supply(l) && FeePool(after) == FeePool(l)
  {
    RefreshLocksLess(l.stakes, height);
    assert Staking.Current(Staking.Refresh(l.stakes, height), height) by {
      Staking.RefreshIsCurrent(l.stakes, height);
    }
    hide Staking.Locked, Staking.Current, Staking.Refresh;
  }

  lemma RefreshLocksLess(stakes: Staking.Records, height: u64)
    ensures Staking.Locked(Staking.Refresh(stakes, height)) <= Staking.Locked(stakes)
  {
    Staking.RefreshReleases(stakes, height);
  }

  lemma UseNonceKeeps(env: Env, l: Ledger, tx: Transaction)
    requires Coherent(env, l)
    ensures Coherent(env, UseNonce(l, tx))
    ensures Supply(UseNonce(l, tx)) == Supply(l) && FeePool(UseNonce(l, tx)) == FeePool(l)
  {
  }

  lemma ApplyTransactionKeeps(env: Env, l: Ledger, tx: Transaction, height: u64)
    requires Coherent(env, l) && env.AddressesSound() && !tx.coinbase
    requires ApplyTransaction(env, l, tx, height).Some?
    ensures
      var after := ApplyTransaction(env, l, tx, height).value;
      Coherent(env, after) && Supply(after) == Supply(l) - Burned(tx)
  {
    if tx.ProtocolVersion() == TX_VERSION_ASSET {
      EffectV3Keeps(env, l, tx);
      UseNonceKeeps(env, EffectV3(l, tx).value, tx);
    } else {
      LegacyEffectKeeps(env, l, tx, height);
      UseNonceKeeps(env, LegacyEffect(env, l, tx, height).value, tx);
    }
  }

  // ---------------------------------------------------------------- blocks and runs

  /** Coins a list of transactions adds to the supply, less the fees it burns. */
  ghost function Issued(txs: seq<Transaction>): int {
    if txs == [] then 0
    else
      var tx := txs[|txs| - 1];
      Issued(txs[..|txs| - 1]) + (if tx.coinbase then tx.amount else 0) - Burned(tx)
  }

  lemma {:induction false} ApplyAllKeeps(env: Env, l: Ledger, txs: seq<Transaction>, height: u64)
    requires Coherent(env, l) && env.AddressesSound() && ApplyAll(env, l, txs, height).Some?
    ensures
      var after := ApplyAll(env, l, txs, height).value;
      Coherent(env, after) && Supply(after) == Supply(l) + Issued(txs)
  {
    if txs != [] {
      var n := |txs| - 1;
      ApplyAllKeeps(env, l, txs[..n], height);
      var before := ApplyAll(env, l, txs[..n], height).value;
      if txs[n].coinbase {
        CoinbaseKeeps(env, before, txs[n], height);
      } else {
        ApplyTransactionKeeps(env, before, txs[n], height);
      }
    }
  }

  lemma OpenKeeps(env: Env, l: Ledger, b: Block)
    requires Coherent(env, l)
    ensures Coherent(env, OpenBlock(env, l, b)) && Supply(OpenBlock(env, l, b)) == Supply(l)
  {
    hide Coherent, Supply, MatureCoinbases;
    if b.height > 0 {
      MatureKeeps(env, l, b.height - 1);
    }
  }

  lemma CloseKeeps(env: Env, l: Ledger, b: Block)
    requires Coherent(env, l)
    ensures
      var after := CloseBlock(env, l, b);
      && Coherent(env, after) && Supply(after) == Supply(l) && FeePool(after) == FeePool(l)
      && after.pending == Immature(env, l.pending, b.height) && after.height == b.height
  {
    hide Coherent, Supply, Staking.Refresh, MatureCoinbases;
    AdvanceKeeps(env, l, b.height);
    MatureKeeps(env, l.(height := b.height, stakes := Staking.Refresh(l.stakes, b.height)), b.height);
  }

  lemma SettleKeeps(env: Env, l: Ledger, b: Block)
    requires Coherent(env, l) && env.AddressesSound() && Settle(env, l, b).Some?
    ensures
      var after := Settle(env, l, b).value;
      Coherent(env, after) && Supply(after) == Supply(l) && FeePool(after) == 0
  {
    if env.AssetModel() {
      SettleFeesKeeps(env, l, b.miner);
    }
  }

  /** Every applied block keeps the ledger coherent, leaves the fee pool empty, and changes the
      supply by its coinbases less the fees burned by pre-v3 transfers. */
  lemma ApplyBlockKeeps(env: Env, l: Ledger, b: Block)
    requires Coherent(env, l) && env.AddressesSound() && ApplyBlock(env, l, b).Some?
    ensures
      var after := ApplyBlock(env, l, b).value;
      Coherent(env, after) && Supply(after) == Supply(l) + Issued(b.txs) && FeePool(after) == 0
  {
    hide Coherent, Supply, OpenBlock, CloseBlock, ApplyAll, Settle;
    var ready := OpenBlock(env, l, b);
    OpenKeeps(env, l, b);
    ApplyAllKeeps(env, ready, b.txs, b.height);
    var applied := ApplyAll(env, ready, b.txs, b.height).value;
    SettleKeeps(env, applied, b);
    CloseKeeps(env, Settle(env, applied, b).value, b);
  }

  ghost function IssuedBy(blocks: seq<Block>): int {
    if blocks == [] then 0 else IssuedBy(blocks[..|blocks| - 1]) + Issued(blocks[|blocks| - 1].txs)
  }

  /** Every reachable ledger is coherent, its fee pool is empty, and its supply is what the
      coinbases issued less what pre-v3 transfers burned. */
  lemma {:induction false} ReachableCoherent(env: Env, blocks: seq<Block>)
    requires env.AddressesSound() && ApplyBlocks(env, NEW_LEDGER, blocks).Some?
    ensures
      var l := ApplyBlocks(env, NEW_LEDGER, blocks).value;
      Coherent(env, l) && Supply(l) == IssuedBy(blocks) && FeePool(l) == 0
  {
    if blocks == [] {
      NewLedgerCoherent(env);
    } else {
      var n := |blocks| - 1;
      ReachableCoherent(env, blocks[..n]);
      ApplyBlockKeeps(env, ApplyBlocks(env, NEW_LEDGER, blocks[..n]).value, blocks[n]);
    }
  }
}
