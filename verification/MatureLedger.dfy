/** The ledger implementation (ledger/maturity.go, ledger/asset_execution.go): account, stake and
    coinbase state updated in place, with clones taken for rollback. Every method is proved
    against the transition functions of `Ledgers` through the abstraction `Abs()`. */
module MatureLedgers {
  import opened Arith
  import opened Types
  import opened Assets
  import opened Ledgers
  import LedgerInvariant
  import Staking
  import Text

  datatype MatureAccount = MatureAccount(confirmed: u64, mature: u64, nonce: u64)

  type Accounts = map<Address, MatureAccount>

  function AccountOf(accounts: Accounts, a: Address): MatureAccount {
    if a in accounts then accounts[a] else MatureAccount(0, 0, 0)
  }

  ghost predicate Tracks(accounts: Accounts, l: Ledger) {
    && accounts.Keys == l.known
    && forall a {:trigger AccountOf(accounts, a)} ::
         var acct := AccountOf(accounts, a);
         acct.confirmed == l.confirmed[a] && acct.mature == l.mature[a] && acct.nonce == l.nonces[a]
  }

  function WithAccount(l: Ledger, a: Address, acct: MatureAccount): Ledger {
    l.(known := l.known + {a}, confirmed := l.confirmed[a := acct.confirmed],
       mature := l.mature[a := acct.mature], nonces := l.nonces[a := acct.nonce])
  }

  lemma SetTracks(accounts: Accounts, l: Ledger, a: Address, acct: MatureAccount)
    requires Tracks(accounts, l)
    ensures Tracks(accounts[a := acct], WithAccount(l, a, acct))
  {
    var after := accounts[a := acct];
    forall x
      ensures var y := AccountOf(after, x); var m := WithAccount(l, a, acct);
        y.confirmed == m.confirmed[x] && y.mature == m.mature[x] && y.nonce == m.nonces[x]
    {
      assert AccountOf(after, x) == if x == a then acct else AccountOf(accounts, x);
    }
  }

  /** Capped sums of active and unlocking stake leave room for `n > 0` exactly when the true sums do. */
  lemma CappedLockCheck(active: nat, unlocking: nat, mature: u64, n: u64)
    requires n > 0
    ensures
      var locked := Add(Cap(active), Cap(unlocking));
      (locked.Some? && locked.value <= mature && n <= mature - locked.value) <==> active + unlocking + n <= mature
  {
  }

  method CopySlice(a: array<PendingCoinbase>, n: nat) returns (b: array<PendingCoinbase>)
    requires n <= a.Length
    ensures fresh(b) && b[..] == a[..n]
  {
    b := new PendingCoinbase[n];
    for i := 0 to n
      invariant b[..i] == a[..i]
    {
      b[i] := a[i];
    }
  }

  method Grown(a: array<PendingCoinbase>) returns (b: array<PendingCoinbase>)
    ensures fresh(b) && b.Length == 2 * a.Length + 1 && b[..a.Length] == a[..]
  {
    b := new PendingCoinbase[2 * a.Length + 1];
    for i := 0 to a.Length
      invariant b[..i] == a[..i]
    {
      b[i] := a[i];
    }
  }

  method TokenOperation(assets: AssetState, tx: Transaction) returns (ok: bool)
    requires assets.Valid()
    modifies assets
    ensures assets.Valid()
    ensures ok == TokenEffect(old(assets.Book()), tx).Some?
    ensures assets.Book() == if ok then TokenEffect(old(assets.Book()), tx).value else old(assets.Book())
  {
    hide AssetState.Valid, AssetBook.Transfer, AssetBook.Create, AssetBook.Mint, AssetBook.Burn, DefinitionOf;
    match tx.Kind()
    case Transfer => ok := assets.Transfer(tx.assetId, tx.sender, tx.recipient, tx.amount);
    case AssetCreate => ok := assets.Create(DefinitionOf(tx));
    case AssetMint => ok := assets.Mint(tx.assetId, tx.sender, tx.recipient, tx.amount);
    case AssetBurn => ok := assets.Burn(tx.assetId, tx.sender, tx.amount);
    case _ => ok := false;
  }

  /** When a failing pre-v3 transaction is sure to leave no trace. */
  ghost predicate LegacyAtomic(env: Env, l: Ledger) {
    env.AssetModel() ==> env.AddressesSound() && LedgerInvariant.Coherent(env, l)
  }

  lemma BookFollowsAccounts(env: Env, l: Ledger, tx: Transaction)
    requires LegacyAtomic(env, l) && WellSignedLegacy(env, tx) && tx.Kind() == Transfer
    requires tx.amount + tx.fee <= MAX_U64 && tx.amount + tx.fee <= l.mature[tx.sender]
    requires l.confirmed[tx.recipient] + tx.amount <= MAX_U64
    ensures LegacyBook(env, l.assets, tx).Some?
  {
    hide LedgerInvariant.Coherent;
    if env.AssetModel() {
      LedgerInvariant.LegacyTransferDecidedByAccounts(env, l, tx);
    }
  }

  lemma LegacyWrites(env: Env, l: Ledger, tx: Transaction, src: MatureAccount, dst: MatureAccount)
    requires LegacyTransfer(env, l, tx).Some? && tx.sender != tx.recipient
    requires src.confirmed == l.confirmed[tx.sender] - (tx.amount + tx.fee) && src.nonce == tx.nonce
    requires src.mature == l.mature[tx.sender] - (tx.amount + tx.fee)
    requires dst.confirmed == l.confirmed[tx.recipient] + tx.amount && dst.nonce == l.nonces[tx.recipient]
    requires dst.mature == l.mature[tx.recipient] + tx.amount
    ensures
      var after := LegacyTransfer(env, l, tx).value;
      UseNonce(after, tx)
        == WithAccount(WithAccount(l, tx.sender, src), tx.recipient, dst).(assets := after.assets)
  {
    hide LegacyBook;
    var after := LegacyTransfer(env, l, tx).value;
    var written := WithAccount(WithAccount(l, tx.sender, src), tx.recipient, dst);
    assert written.nonces == l.nonces[tx.sender := tx.nonce];
    assert written.known == after.known + {tx.sender};
  }

  /** Receiving a spent amount back restores every view. */
  lemma SpendIsUndone(l: Ledger, a: Address, n: u64)
    requires Spend(l, a, n).Some? && n > 0
    requires l.confirmed[a] <= MAX_U64 && l.mature[a] <= MAX_U64 && l.assets.Balance(a, NATIVE_ASSET) <= MAX_U64
    ensures !Text.Blank(a) && NATIVE_ASSET in l.assets.defs ==>
              Receive(Spend(l, a, n).value, a, n) == Some(l.(known := l.known + {a}))
  {
    hide Text.Blank, Staking.Locked;
    var spent := Spend(l, a, n).value;
    assert spent.confirmed[a := l.confirmed[a]] == l.confirmed;
    assert spent.mature[a := l.mature[a]] == l.mature;
    assert l.assets.held[NATIVE_ASSET][a := l.assets.held[NATIVE_ASSET][a] - n][a := l.assets.held[NATIVE_ASSET][a]]
        == l.assets.held[NATIVE_ASSET];
    if !Text.Blank(a) && NATIVE_ASSET in l.assets.defs {
      assert spent.assets.Credit(a, NATIVE_ASSET, n).value.held == l.assets.held;
    }
  }

  lemma PoolIsUndone(b: AssetBook, fee: u64)
    requires b.Debit(FEE_COLLECTOR, NATIVE_ASSET, fee).Some?
    requires b.Balance(FEE_COLLECTOR, NATIVE_ASSET) <= MAX_U64 && NATIVE_ASSET in b.defs
    ensures b.Debit(FEE_COLLECTOR, NATIVE_ASSET, fee).value.Credit(FEE_COLLECTOR, NATIVE_ASSET, fee) == Some(b)
  {
    assert !Text.IsSpace(FEE_COLLECTOR[0]);
    assert Text.TrimLeft(FEE_COLLECTOR) == FEE_COLLECTOR;
    assert !Text.Blank(FEE_COLLECTOR);
    hide Text.Blank;
    DebitIsUndone(b, FEE_COLLECTOR, NATIVE_ASSET, fee);
  }

  class MatureLedger {
    const env: Env
    var accounts: Accounts
    var coinbases: array<PendingCoinbase>
    var coinbaseCount: nat
    var currentHeight: u64
    var stakes: Staking.Records
    var assets: AssetState
    ghost var model: Ledger    // the specification state these fields represent

    ghost predicate Valid()
      reads this, assets, coinbases
    {
      && Core()
      && coinbaseCount <= coinbases.Length
      && model.pending == coinbases[..coinbaseCount]
    }

    /** Validity of everything but the coinbase slice. */
    ghost predicate Core()
      reads this, assets
    {
      && assets.Valid()
      && Tracks(accounts, model)
      && model.height == currentHeight
      && model.stakes == Staking.Refresh(stakes, currentHeight)
      && model.assets == assets.Book()
    }

    constructor With(env: Env, accounts: Accounts, slice: array<PendingCoinbase>, height: u64,
                     stakes: Staking.Records, assets: AssetState, ghost model: Ledger)
      requires assets.Valid() && Tracks(accounts, model) && model.pending == slice[..]
      requires model.height == height && model.stakes == Staking.Refresh(stakes, height)
      requires model.assets == assets.Book()
      ensures Valid() && this.model == model && this.env == env
      ensures this.assets == assets && coinbases == slice
    {
      this.env, this.accounts, this.currentHeight, this.stakes := env, accounts, height, stakes;
      this.coinbases, this.coinbaseCount, this.assets, this.model := slice, slice.Length, assets, model;
      new;
      assert slice[..] == slice[..slice.Length];
    }

    constructor (env: Env)
      ensures Valid() && model == NEW_LEDGER && this.env == env
      ensures fresh(assets) && fresh(coinbases)
    {
      this.env := env;
      accounts := map[];
      coinbases := new PendingCoinbase[0];
      coinbaseCount := 0;
      currentHeight := 0;
      stakes := map[];
      assets := new AssetState();
      model := NEW_LEDGER;
    }

    /** Shares nothing mutable with the original: accounts, stakes, the coinbase slice and the
        asset state are all copied. */
    method Clone() returns (c: MatureLedger)
      requires Valid()
      modifies `stakes
      ensures Valid()
      ensures fresh(c) && fresh(c.assets) && fresh(c.coinbases)
      ensures c.Valid() && c.model == model && c.env == env
    {
      hide Tracks, Staking.Refresh, AssetState.Valid;
      Staking.RefreshTwice(stakes, currentHeight, currentHeight);
      stakes := Staking.RefreshReleased(stakes, currentHeight);
      var slice := CopySlice(coinbases, coinbaseCount);
      var copied := assets.Clone();
      c := new MatureLedger.With(env, accounts, slice, currentHeight, stakes, copied, model);
    }

    /** `*l = *backup` */
    method RollBackTo(backup: MatureLedger)
      requires backup.Valid() && backup != this && backup.env == env
      modifies this
      ensures Valid() && model == backup.model
      ensures assets == backup.assets && coinbases == backup.coinbases
    {
      hide Tracks, Staking.Refresh, AssetState.Valid;
      accounts, coinbases, coinbaseCount := backup.accounts, backup.coinbases, backup.coinbaseCount;
      currentHeight, stakes, assets := backup.currentHeight, backup.stakes, backup.assets;
      model := backup.model;
    }

    method SetAccount(a: Address, acct: MatureAccount)
      requires Core()
      modifies `accounts, `model
      ensures Core() && model == WithAccount(old(model), a, acct)
    {
      hide Tracks, Staking.Refresh;
      SetTracks(accounts, model, a, acct);
      accounts, model := accounts[a := acct], WithAccount(model, a, acct);
    }

    /** One entry of the coinbase slice: credited when due, else written back at `kept`. */
    method VisitCoinbase(i: nat, kept: nat, height: u64) returns (next: nat)
      requires Core() && kept <= i < coinbases.Length
      modifies `accounts, `model, coinbases
      ensures Core() && kept <= next <= i + 1
      ensures coinbases[i + 1..] == old(coinbases[i + 1..])
      ensures model.(pending := coinbases[..next])
           == MatureStep(env, old(model.(pending := coinbases[..kept])), old(coinbases[i]), height)
    {
      hide Core;
      var credit := coinbases[i];
      var acct := AccountIn(credit.address);
      var maturityHeight := Add(credit.height, env.profile.coinbaseMaturity);
      var matured := Add(acct.mature, credit.amount);
      if maturityHeight.None? || height < maturityHeight.value || matured.None? {
        coinbases[kept] := credit;
        next := kept + 1;
        assert coinbases[..next] == old(coinbases[..kept]) + [credit];
      } else {
        SetSameCounts(model, credit.address);
        SetAccount(credit.address, acct.(mature := matured.value));
        next := kept;
      }
    }

    /** Compacts the coinbase slice in place while walking it: credits that stay are written
        back at the front, over entries already visited. */
    method MatureCoinbases(height: u64)
      requires Valid()
      modifies `accounts, `model, `coinbaseCount, coinbases
      ensures Valid() && model == Ledgers.MatureCoinbases(env, old(model), height)
    {
      hide MatureStep, Core;
      ghost var start := model;
      ghost var all := coinbases[..];
      var kept, i := 0, 0;
      assert all[..coinbaseCount] == start.pending;
      assert model.(pending := coinbases[..0]) == MatureRun(env, start, all[..0], height);
      while i < coinbaseCount
        invariant kept <= i <= coinbaseCount == old(coinbaseCount) <= coinbases.Length == |all|
        invariant Core() && coinbases[i..] == all[i..]
        invariant model.(pending := coinbases[..kept]) == MatureRun(env, start, all[..i], height)
      {
        assert coinbases[i] == coinbases[i..][0] && coinbases[i + 1..] == coinbases[i..][1..];
        RunUnfolds(env, start, all, i, height);
        kept := VisitCoinbase(i, kept, height);
        i := i + 1;
      }
      Truncate(kept);
    }

    method Truncate(kept: nat)
      requires Core() && kept <= coinbases.Length
      modifies `coinbaseCount, `model
      ensures Valid() && model == old(model).(pending := coinbases[..kept])
    {
      hide Staking.Refresh, AssetState.Valid;
      coinbaseCount := kept;
      model := model.(pending := coinbases[..kept]);
    }

    /** Appends to the slice, in place while it has room and in a larger copy otherwise. */
    method AppendCoinbase(credit: PendingCoinbase)
      requires Valid()
      modifies `coinbases, `coinbaseCount, `model, coinbases
      ensures Valid() && model == old(model).(pending := old(model).pending + [credit])
      ensures coinbases == old(coinbases) || fresh(coinbases)
    {
      hide Staking.Refresh, AssetState.Valid;
      if coinbaseCount == coinbases.Length {
        coinbases := Grown(coinbases);
      }
      coinbases[coinbaseCount] := credit;
      assert coinbases[..coinbaseCount + 1] == old(model).pending + [credit];
      coinbaseCount := coinbaseCount + 1;
      model := model.(pending := model.pending + [credit]);
    }

    method ApplyCoinbaseAtHeight(tx: Transaction, height: u64) returns (ok: bool)
      requires Valid()
      modifies `accounts, `coinbases, `coinbaseCount, `model, coinbases, assets
      ensures Valid() && (coinbases == old(coinbases) || fresh(coinbases))
      ensures ok == ApplyCoinbase(env, old(model), tx, height).Some?
      ensures model == if ok then ApplyCoinbase(env, old(model), tx, height).value else old(model)
    {
      hide Core, AssetBook.Credit;
      if !tx.coinbase || !env.ValidAddress(tx.recipient) {
        return false;
      }
      var acct := AccountIn(tx.recipient);
      var total := Add(acct.confirmed, tx.amount);
      if total.None? {
        return false;
      }
      if env.AssetModel() {
        var credited := CreditNative(tx.recipient, tx.amount);
        if !credited {
          return false;
        }
      }
      SetSameCounts(model, tx.recipient);
      SetAccount(tx.recipient, acct.(confirmed := total.value));
      if tx.amount > 0 {
        AppendCoinbase(PendingCoinbase(tx.recipient, tx.amount, height));
      }
      return true;
    }

    method CreditNative(a: Address, n: u64) returns (ok: bool)
      requires Valid()
      modifies `model, assets
      ensures Valid()
      ensures ok == old(model).assets.Credit(a, NATIVE_ASSET, n).Some?
      ensures model == if ok then old(model).(assets := old(model).assets.Credit(a, NATIVE_ASSET, n).value) else old(model)
    {
      hide Staking.Refresh, AssetState.Valid, AssetBook.Credit;
      ok := assets.Credit(a, NATIVE_ASSET, n);
      model := model.(assets := assets.Book());
    }

    method DebitNative(a: Address, n: u64) returns (ok: bool)
      requires Valid()
      modifies `model, assets
      ensures Valid()
      ensures ok == old(model).assets.Debit(a, NATIVE_ASSET, n).Some?
      ensures model == if ok then old(model).(assets := old(model).assets.Debit(a, NATIVE_ASSET, n).value) else old(model)
    {
      hide Staking.Refresh, AssetState.Valid, AssetBook.Debit;
      ok := assets.Debit(a, NATIVE_ASSET, n);
      model := model.(assets := assets.Book());
    }

    function NativeBalance(a: Address): (n: u64)
      requires Valid()
      reads this, assets, coinbases
      ensures n == model.assets.Balance(a, NATIVE_ASSET)
    {
      assets.Balance(a, NATIVE_ASSET)
    }

    method RefreshStakes()
      requires Valid()
      modifies `stakes
      ensures Valid() && stakes == model.stakes
    {
      hide Tracks, AssetState.Valid;
      Staking.RefreshTwice(stakes, currentHeight, currentHeight);
      stakes := Staking.RefreshReleased(stakes, currentHeight);
    }

    /** Refreshes the stake records, as every stake query does, and decides whether `n` more
        than the locked stake is mature. */
    method UnlockedCovers(a: Address, n: u64) returns (ok: bool)
      requires Valid() && n > 0
      modifies `stakes
      ensures Valid() && stakes == model.stakes
      ensures ok <==> Staking.Locked(model.stakes)[a] + n <= model.mature[a]
    {
      RefreshStakes();
      hide Core, Staking.Tally, Cap, Add, Staking.Refresh;
      var active, unlocking, _ := Staking.AddressSummary(stakes, a);
      var acct := AccountIn(a);
      var locked := Add(active, unlocking);
      CappedLockCheck(Staking.Tally(stakes, Staking.Active)[a], Staking.Tally(stakes, Staking.Unlocking)[a], acct.mature, n);
      ok := locked.Some? && locked.value <= acct.mature && n <= acct.mature - locked.value;
    }

    method ValidateNativeSpend(a: Address, n: u64) returns (ok: bool)
      requires Valid()
      modifies `stakes
      ensures Valid() && (ok <==> SpendAllowed(model, a, n))
    {
      hide Core, Staking.Locked;
      if n == 0 {
        return true;
      }
      var acct := AccountIn(a);
      if acct.confirmed < n || acct.mature < n {
        return false;
      }
      var unlocked := UnlockedCovers(a, n);
      return unlocked && n <= NativeBalance(a);
    }

    method SpendNative(a: Address, n: u64) returns (ok: bool)
      requires Valid()
      modifies `accounts, `stakes, `model, assets
      ensures Valid()
      ensures ok == Spend(old(model), a, n).Some?
      ensures model == if ok then Spend(old(model), a, n).value else old(model)
    {
      hide Core, Staking.Locked, AssetBook.Debit;
      ok := ValidateNativeSpend(a, n);
      if !ok {
        return;
      }
      var acct := AccountIn(a);
      var confirmed, mature := Sub(acct.confirmed, n), Sub(acct.mature, n);
      if confirmed.None? || mature.None? {
        return false;
      }
      ok := DebitNative(a, n);
      if ok {
        SetSameCounts(model, a);
        SetAccount(a, acct.(confirmed := confirmed.value, mature := mature.value));
      }
    }

    method ReceiveNative(a: Address, n: u64) returns (ok: bool)
      requires Valid()
      modifies `accounts, `model, assets
      ensures Valid()
      ensures ok == Receive(old(model), a, n).Some?
      ensures model == if ok then Receive(old(model), a, n).value else old(model)
    {
      hide Core, AssetBook.Credit;
      if n == 0 {
        return true;
      }
      var acct := AccountIn(a);
      var confirmed, mature := Add(acct.confirmed, n), Add(acct.mature, n);
      if confirmed.None? || mature.None? {
        return false;
      }
      ok := CreditNative(a, n);
      if ok {
        SetSameCounts(model, a);
        SetAccount(a, acct.(confirmed := confirmed.value, mature := mature.value));
      }
    }

    lemma Bounded(a: Address)
      requires Valid()
      ensures model.confirmed[a] <= MAX_U64 && model.mature[a] <= MAX_U64
      ensures model.assets.Balance(a, NATIVE_ASSET) <= MAX_U64 && NATIVE_ASSET in model.assets.defs
    {
      hide Staking.Refresh;
      var n := NativeBalance(a);
      var acct := AccountOf(accounts, a);
    }

    /** When the fee cannot be collected the payer gets it back: all that can remain of the attempt is an
        account entry. */
    method ChargeNativeFee(payer: Address, fee: u64) returns (ok: bool)
      requires Valid()
      modifies `accounts, `stakes, `model, assets
      ensures Valid()
      ensures ok == ChargeFee(old(model), payer, fee).Some?
      ensures ok ==> model == ChargeFee(old(model), payer, fee).value
      ensures !ok && !Text.Blank(payer) ==>
                model == old(model) || model == old(model).(known := old(model).known + {payer})
    {
      hide Core, Spend, AssetBook.Credit, Receive, Text.Blank;
      if fee == 0 {
        return true;
      }
      Bounded(payer);
      ok := SpendNative(payer, fee);
      if !ok {
        return;
      }
      ok := CreditNative(FEE_COLLECTOR, fee);
      if !ok {
        SpendIsUndone(old(model), payer, fee);
        var restored := ReceiveNative(payer, fee);
      }
    }

    method SettleFeesTo(miner: Address) returns (ok: bool)
      requires Valid()
      modifies `accounts, `model, assets
      ensures Valid()
      ensures ok == SettleFees(env, old(model), miner).Some?
      ensures model == if ok then SettleFees(env, old(model), miner).value else old(model)
    {
      hide Core, AssetBook.Credit, AssetBook.Debit, AssetBook.Balance, Receive;
      Bounded(FEE_COLLECTOR);
      var fee := NativeBalance(FEE_COLLECTOR);
      if fee == 0 {
        return true;
      }
      if miner == "" || !env.ValidAddress(miner) {
        return false;
      }
      ok := DebitNative(FEE_COLLECTOR, fee);
      if !ok {
        return;
      }
      ok := ReceiveNative(miner, fee);
      if !ok {
        PoolIsUndone(old(model).assets, fee);
        var restored := CreditNative(FEE_COLLECTOR, fee);
      }
    }

    method RunTokenOperation(tx: Transaction) returns (ok: bool)
      requires Valid()
      modifies `model, assets
      ensures Valid()
      ensures ok == TokenEffect(old(model).assets, tx).Some?
      ensures model == if ok then old(model).(assets := TokenEffect(old(model).assets, tx).value) else old(model)
    {
      hide Staking.Refresh, AssetState.Valid, TokenEffect;
      ok := TokenOperation(assets, tx);
      model := model.(assets := assets.Book());
    }

    method RunV3(tx: Transaction) returns (ok: bool)
      requires Valid()
      modifies `accounts, `stakes, `model, assets
      ensures Valid()
      ensures ok == EffectV3(old(model), tx).Some?
      ensures ok ==> model == EffectV3(old(model), tx).value
    {
      hide Core, Spend, ChargeFee, Receive, TokenEffect, IsNative;
      if MovesNative(tx) {
        ok := SpendNative(tx.sender, tx.amount);
        if !ok {
          return;
        }
        ok := ChargeNativeFee(tx.EffectiveFeePayer(), tx.fee);
        if !ok {
          return;
        }
        ok := ReceiveNative(tx.recipient, tx.amount);
      } else {
        ok := RunTokenOperation(tx);
        if !ok {
          return;
        }
        ok := ChargeNativeFee(tx.EffectiveFeePayer(), tx.fee);
      }
    }

    method UseSenderNonce(tx: Transaction)
      requires Valid()
      modifies `accounts, `model
      ensures Valid() && model == UseNonce(old(model), tx)
    {
      hide Core;
      var acct := AccountIn(tx.sender);
      SetSameCounts(model, tx.sender);
      SetAccount(tx.sender, acct.(nonce := tx.nonce));
    }

    /** Whatever step fails, the ledger comes back as it was before the transaction. */
    method ApplyAssetTransactionV3(tx: Transaction) returns (ok: bool)
      requires Valid()
      modifies this, assets, coinbases
      ensures Valid() && fresh({assets, coinbases} - old({assets, coinbases}))
      ensures ok == EffectV3(old(model), tx).Some?
      ensures model == if ok then UseNonce(EffectV3(old(model), tx).value, tx) else old(model)
    {
      hide Core, EffectV3;
      var backup := Clone();
      ok := RunV3(tx);
      if !ok {
        RollBackTo(backup);
        return;
      }
      UseSenderNonce(tx);
    }

    // -------------------------------------------------------------- validation

    method ValidateNativeTransfer(tx: Transaction) returns (ok: bool)
      requires Valid()
      modifies `stakes
      ensures Valid() && (ok <==> NativeTransferFunded(model, tx))
    {
      hide Core, SpendAllowed;
      var payer := tx.EffectiveFeePayer();
      var cost := tx.amount;
      if payer == tx.sender {
        var total := Add(tx.amount, tx.fee);
        if total.None? {
          return false;
        }
        cost := total.value;
      }
      ok := ValidateNativeSpend(tx.sender, cost);
      if ok && payer != tx.sender {
        ok := ValidateNativeSpend(payer, tx.fee);
      }
      ok := ok && tx.amount <= NativeBalance(tx.sender);
    }

    function TokenBalance(a: Address, id: AssetId): (n: u64)
      requires Valid()
      reads this, assets, coinbases
      ensures n == model.assets.Balance(a, id)
    {
      assets.Balance(a, id)
    }

    /** The token-side conditions of a v3 transaction that does not move native coins. */
    method ValidateTokenOperation(tx: Transaction) returns (ok: bool)
      requires Valid()
      ensures ok <==> TokenExecutable(model.assets, tx)
    {
      hide Tracks, Staking.Refresh, AssetState.Valid, IsNative, ValidDefinition, DefinitionOf;
      match tx.Kind()
      case Transfer =>
        return tx.amount <= TokenBalance(tx.sender, tx.assetId);
      case AssetCreate =>
        return assets.Definition(tx.assetId).None? && ValidDefinition(DefinitionOf(tx));
      case AssetMint =>
        var def := assets.Definition(tx.assetId);
        if def.None? || IsNative(def.value.id) || !MayMint(def.value, tx.sender, tx.amount) {
          return false;
        }
        return Add(TokenBalance(tx.recipient, tx.assetId), tx.amount).Some?;
      case AssetBurn =>
        var def := assets.Definition(tx.assetId);
        if def.None? || IsNative(def.value.id) || !MayBurn(def.value, tx.amount) {
          return false;
        }
        return tx.amount <= TokenBalance(tx.sender, tx.assetId);
      case _ =>
        return false;
    }

    method ValidateV3(tx: Transaction) returns (ok: bool)
      requires Valid()
      modifies `stakes
      ensures Valid() && (ok <==> ExecutableV3(model, tx))
    {
      hide Core, SpendAllowed, NativeTransferFunded, TokenExecutable, IsNative;
      if MovesNative(tx) {
        ok := ValidateNativeTransfer(tx);
      } else {
        ok := ValidateTokenOperation(tx);
        if ok {
          ok := ValidateNativeSpend(tx.EffectiveFeePayer(), tx.fee);
        }
      }
    }

    method ValidateLegacy(tx: Transaction) returns (ok: bool)
      requires Valid()
      requires tx.Kind() == Transfer || tx.Kind() == StakeLock ==> tx.amount > 0
      modifies `stakes
      ensures Valid() && (ok <==> ExecutableLegacy(env, model, tx))
    {
      hide Core, Staking.Locked, Staking.ActiveCount;
      match tx.Kind()
      case Transfer =>
        var acct := AccountIn(tx.sender);
        var cost := Add(tx.amount, tx.fee);
        if cost.None? || acct.confirmed < cost.value || acct.mature < cost.value {
          return false;
        }
        ok := UnlockedCovers(tx.sender, cost.value);
      case StakeLock =>
        ok := UnlockedCovers(tx.sender, tx.amount);
        var limit := env.profile.staking.maxActivePerAddress;
        ok := ok && !(limit > 0 && Staking.ActiveCount(stakes, tx.sender) >= limit);
      case StakeUnlock =>
        RefreshStakes();
        ok := tx.stakeId in stakes && stakes[tx.stakeId].owner == tx.sender
              && stakes[tx.stakeId].status == Staking.Active;
      case _ =>
        ok := false;
    }

    method ValidateTransaction(tx: Transaction) returns (ok: bool)
      requires Valid() && !tx.coinbase
      modifies `stakes
      ensures Valid() && (ok <==> ValidTransaction(env, model, tx))
    {
      hide Core, WellSignedV3, ExecutableV3, ExecutableLegacy;
      if !WellSigned(env, tx) {
        return false;
      }
      var acct := AccountIn(tx.sender);
      var expected := Add(acct.nonce, 1);
      if expected.None? || tx.nonce != expected.value {
        return false;
      }
      if tx.ProtocolVersion() == TX_VERSION_ASSET {
        ok := ValidateV3(tx);
      } else {
        ok := ValidateLegacy(tx);
      }
    }

    // -------------------------------------------------------------- execution

    /** Accounts are written before the asset book: a failure there would leave them changed, which
        cannot happen while the views of the native coin agree. */
    method ApplyLegacyTransfer(tx: Transaction) returns (ok: bool)
      requires Valid() && WellSignedLegacy(env, tx) && tx.Kind() == Transfer
      modifies `accounts, `model, assets
      ensures Valid()
      ensures ok == LegacyTransfer(env, old(model), tx).Some?
      ensures ok ==> model == UseNonce(LegacyTransfer(env, old(model), tx).value, tx)
      ensures !ok && LegacyAtomic(env, old(model)) ==> model == old(model)
    {
      hide Core, LegacyBook, LegacyAtomic;
      var src := AccountIn(tx.sender);
      var dst := AccountIn(tx.recipient);
      var cost := Add(tx.amount, tx.fee);
      if cost.None? {
        return false;
      }
      var confirmed, mature := Sub(src.confirmed, cost.value), Sub(src.mature, cost.value);
      var dstConfirmed, dstMature := Add(dst.confirmed, tx.amount), Add(dst.mature, tx.amount);
      if confirmed.None? || mature.None? || dstConfirmed.None? || dstMature.None? {
        return false;
      }
      if LegacyAtomic(env, model) {
        BookFollowsAccounts(env, model, tx);
      }
      src := MatureAccount(confirmed.value, mature.value, tx.nonce);
      dst := MatureAccount(dstConfirmed.value, dstMature.value, dst.nonce);
      SetAccount(tx.sender, src);
      SetAccount(tx.recipient, dst);
      ok := MoveLegacyBook(tx);
      if ok {
        LegacyWrites(env, old(model), tx, src, dst);
      }
    }

    method MoveLegacyBook(tx: Transaction) returns (ok: bool)
      requires Valid() && tx.amount + tx.fee <= MAX_U64
      modifies `model, assets
      ensures Valid()
      ensures ok == LegacyBook(env, old(model).assets, tx).Some?
      ensures ok ==> model == old(model).(assets := LegacyBook(env, old(model).assets, tx).value)
    {
      hide Core, AssetBook.Debit, AssetBook.Credit;
      if !env.AssetModel() {
        return true;
      }
      ok := DebitNative(tx.sender, tx.amount + tx.fee);
      if ok {
        ok := CreditNative(tx.recipient, tx.amount);
      }
    }

    method ApplyStakeTransaction(tx: Transaction, height: u64) returns (ok: bool)
      requires Valid() && (tx.Kind() == StakeLock || tx.Kind() == StakeUnlock) && stakes == model.stakes
      modifies `accounts, `model, `stakes
      ensures Valid()
      ensures ok == LegacyEffect(env, old(model), tx, height).Some?
      ensures model == if ok then UseNonce(LegacyEffect(env, old(model), tx, height).value, tx) else old(model)
    {
      hide Tracks, AssetState.Valid, Staking.ApplyLock, Staking.ApplyUnlock;
      var next := if tx.Kind() == StakeLock then Staking.ApplyLock(env.profile.staking, stakes, tx, height)
                  else Staking.ApplyUnlock(env.profile.staking, stakes, tx, height);
      if next.None? {
        return false;
      }
      if tx.Kind() == StakeLock {
        Staking.LockRefreshed(env.profile.staking, stakes, tx, height, currentHeight);
      }
      ReplaceStakes(next.value);
      UseSenderNonce(tx);
      return true;
    }

    method ReplaceStakes(records: Staking.Records)
      requires Valid()
      modifies `stakes, `model
      ensures Valid() && model == old(model).(stakes := Staking.Refresh(records, currentHeight))
    {
      hide Staking.Refresh, AssetState.Valid;
      stakes := records;
      model := model.(stakes := Staking.Refresh(records, currentHeight));
    }

    /** A failing transaction changes nothing, at whatever step it fails. */
    method ApplyTransactionAtHeight(tx: Transaction, height: u64) returns (ok: bool)
      requires Valid() && !tx.coinbase
      modifies this, assets, coinbases
      ensures Valid() && fresh({assets, coinbases} - old({assets, coinbases}))
      ensures ok == ApplyTransaction(env, old(model), tx, height).Some?
      ensures ok ==> model == ApplyTransaction(env, old(model), tx, height).value
      ensures !ok && (tx.ProtocolVersion() == TX_VERSION_ASSET || LegacyAtomic(env, old(model))) ==> model == old(model)
    {
      hide Core, EffectV3, LegacyTransfer, LegacyAtomic, ExecutableV3, ExecutableLegacy, WellSignedV3,
           Staking.ApplyLock, Staking.ApplyUnlock, Staking.Refresh;
      ok := ValidateTransaction(tx);
      if !ok {
        return;
      }
      if tx.ProtocolVersion() == TX_VERSION_ASSET {
        ok := ApplyAssetTransactionV3(tx);
      } else if tx.Kind() == Transfer {
        ok := ApplyLegacyTransfer(tx);
      } else {
        RefreshStakes();
        ok := ApplyStakeTransaction(tx, height);
      }
    }

    // -------------------------------------------------------------- blocks

    method AdvanceTo(height: u64)
      requires Valid()
      modifies `currentHeight, `model
      ensures Valid()
      ensures height >= old(model).height ==>
                model == old(model).(height := height, stakes := Staking.Refresh(old(model).stakes, height))
    {
      hide Staking.Refresh, AssetState.Valid;
      if height >= currentHeight {
        Staking.RefreshTwice(stakes, currentHeight, height);
      }
      currentHeight := height;
      model := model.(height := height, stakes := Staking.Refresh(stakes, height));
    }

    method RunTransactions(txs: seq<Transaction>, height: u64) returns (ok: bool)
      requires Valid()
      modifies this, assets, coinbases
      ensures Valid() && fresh({assets, coinbases} - old({assets, coinbases}))
      ensures ok == (CoinbaseCount(txs) <= 1 && ApplyAll(env, old(model), txs, height).Some?)
      ensures ok ==> model == ApplyAll(env, old(model), txs, height).value
    {
      hide ApplyTransaction, ApplyCoinbase, LegacyAtomic, Core;
      var coinbasesSeen, i := 0, 0;
      while i < |txs|
        invariant i <= |txs| && Valid() && fresh({assets, coinbases} - old({assets, coinbases}))
        invariant coinbasesSeen == CoinbaseCount(txs[..i]) <= 1
        invariant ApplyAll(env, old(model), txs[..i], height) == Some(model)
      {
        assert txs[..i + 1][..i] == txs[..i];
        PrefixDecides(env, old(model), txs, i + 1, height);
        if txs[i].coinbase {
          coinbasesSeen := coinbasesSeen + 1;
          if coinbasesSeen > 1 {
            return false;
          }
          ok := ApplyCoinbaseAtHeight(txs[i], height);
        } else {
          ok := ApplyTransactionAtHeight(txs[i], height);
        }
        if !ok {
          return false;
        }
        i := i + 1;
      }
      assert txs[..i] == txs;
      return true;
    }

    method ApplyBlockInPlace(b: Block) returns (ok: bool)
      requires Valid()
      modifies this, assets, coinbases
      ensures Valid() && fresh({assets, coinbases} - old({assets, coinbases}))
      ensures ok == ApplyBlock(env, old(model), b).Some?
      ensures ok && b.height >= old(model).height ==> model == ApplyBlock(env, old(model), b).value
    {
      hide Core, ApplyAll, SettleFees, MatureRun;
      if b.height > 0 {
        MatureCoinbases(b.height - 1);
      }
      OpenBlockKeepsHeight(env, old(model), b);
      ok := RunTransactions(b.txs, b.height);
      if !ok {
        return;
      }
      ApplyAllKeepsHeight(env, OpenBlock(env, old(model), b), b.txs, b.height);
      if env.AssetModel() {
        ghost var applied := model;
        ok := SettleFeesTo(b.miner);
        if !ok {
          return;
        }
        SettleKeepsHeight(env, applied, b);
      }
      AdvanceTo(b.height);
      MatureCoinbases(b.height);
    }

    /** With the asset model on, a rejected block leaves the ledger as it was. */
    method Apply(b: Block) returns (ok: bool)
      requires Valid()
      modifies this, assets, coinbases
      ensures Valid() && fresh({assets, coinbases} - old({assets, coinbases}))
      ensures ok == ApplyBlock(env, old(model), b).Some?
      ensures ok && b.height >= old(model).height ==> model == ApplyBlock(env, old(model), b).value
      ensures !ok && env.AssetModel() ==> model == old(model)
    {
      hide Core, ApplyBlock;
      if !env.AssetModel() {
        ok := ApplyBlockInPlace(b);
        return;
      }
      var backup := Clone();
      ok := ApplyBlockInPlace(b);
      if !ok {
        RollBackTo(backup);
      }
    }

    function Height(): (h: u64)
      requires Core()
      reads this, assets
      ensures h == model.height
    {
      currentHeight
    }

    method AccountIn(a: Address) returns (acct: MatureAccount)
      requires Core()
      ensures acct.confirmed == model.confirmed[a] && acct.mature == model.mature[a] && acct.nonce == model.nonces[a]
    {
      acct := AccountOf(accounts, a);
    }
  }

  /** Once a prefix is rejected, so is the whole list. */
  lemma {:induction false} PrefixDecides(env: Env, l: Ledger, txs: seq<Transaction>, k: nat, height: u64)
    requires k <= |txs|
    ensures ApplyAll(env, l, txs[..k], height).None? ==> ApplyAll(env, l, txs, height).None?
    ensures CoinbaseCount(txs[..k]) <= CoinbaseCount(txs)
  {
    hide ApplyAny;
    if k == |txs| {
      assert txs[..k] == txs;
    } else {
      var n := |txs| - 1;
      assert txs[..n][..k] == txs[..k];
      PrefixDecides(env, l, txs[..n], k, height);
    }
  }

  lemma {:induction false} MatureRunKeepsHeight(env: Env, l: Ledger, credits: seq<PendingCoinbase>, height: u64)
    ensures MatureRun(env, l, credits, height).height == l.height
  {
    if credits != [] {
      MatureRunKeepsHeight(env, l, credits[..|credits| - 1], height);
    }
  }

  lemma OpenBlockKeepsHeight(env: Env, l: Ledger, b: Block)
    ensures OpenBlock(env, l, b).height == l.height
  {
    hide MatureRun;
    if b.height > 0 {
      MatureRunKeepsHeight(env, l, l.pending, b.height - 1);
    }
  }

  lemma ApplyAnyKeepsHeight(env: Env, l: Ledger, tx: Transaction, height: u64)
    ensures ApplyAny(env, l, tx, height).Some? ==> ApplyAny(env, l, tx, height).value.height == l.height
  {
    hide ValidTransaction, LegacyBook, TokenEffect, SpendAllowed, AssetBook.Credit, AssetBook.Debit,
         Staking.ApplyLock, Staking.ApplyUnlock, Staking.Refresh;
  }

  lemma {:induction false} ApplyAllKeepsHeight(env: Env, l: Ledger, txs: seq<Transaction>, height: u64)
    ensures ApplyAll(env, l, txs, height).Some? ==> ApplyAll(env, l, txs, height).value.height == l.height
  {
    hide ApplyAny;
    if txs != [] {
      var n := |txs| - 1;
      ApplyAllKeepsHeight(env, l, txs[..n], height);
      if ApplyAll(env, l, txs[..n], height).Some? {
        ApplyAnyKeepsHeight(env, ApplyAll(env, l, txs[..n], height).value, txs[n], height);
      }
    }
  }

  lemma SettleKeepsHeight(env: Env, l: Ledger, b: Block)
    ensures Settle(env, l, b).Some? ==> Settle(env, l, b).value.height == l.height
  {
    hide AssetBook.Credit, AssetBook.Debit;
  }

  lemma SetSameCounts(l: Ledger, a: Address)
    ensures l.confirmed[a := l.confirmed[a]] == l.confirmed
    ensures l.mature[a := l.mature[a]] == l.mature
    ensures l.nonces[a := l.nonces[a]] == l.nonces
  {
  }

  lemma RunUnfolds(env: Env, l: Ledger, credits: seq<PendingCoinbase>, i: nat, height: u64)
    requires i < |credits|
    ensures MatureRun(env, l, credits[..i + 1], height)
         == MatureStep(env, MatureRun(env, l, credits[..i], height), credits[i], height)
  {
    assert credits[..i + 1][..i] == credits[..i];
  }

  // ---------------------------------------------------------------- replay

  predicate Rising(blocks: seq<Block>) {
    forall i :: 0 < i < |blocks| ==> blocks[i - 1].height <= blocks[i].height
  }

  lemma ApplyBlockSetsHeight(env: Env, l: Ledger, b: Block)
    ensures ApplyBlock(env, l, b).Some? ==> ApplyBlock(env, l, b).value.height == b.height
  {
    hide MatureRun, ApplyAll, Settle, OpenBlock;
    if ApplyBlock(env, l, b).Some? {
      var settled := Settle(env, ApplyAll(env, OpenBlock(env, l, b), b.txs, b.height).value, b).value;
      var closing := settled.(height := b.height, stakes := Staking.Refresh(settled.stakes, b.height));
      MatureRunKeepsHeight(env, closing, closing.pending, b.height);
    }
  }

  lemma {:induction false} BlockPrefixDecides(env: Env, l: Ledger, blocks: seq<Block>, k: nat)
    requires k <= |blocks| && ApplyBlocks(env, l, blocks[..k]).None?
    ensures ApplyBlocks(env, l, blocks).None?
  {
    hide ApplyBlock;
    if k == |blocks| {
      assert blocks[..k] == blocks;
    } else {
      var n := |blocks| - 1;
      assert blocks[..n][..k] == blocks[..k];
      BlockPrefixDecides(env, l, blocks[..n], k);
    }
  }

  /** Replays a chain from an empty ledger. */
  method ReplayMature(env: Env, blocks: seq<Block>) returns (ok: bool, l: MatureLedger)
    ensures fresh(l) && fresh(l.assets) && fresh(l.coinbases) && l.Valid() && l.env == env
    ensures Rising(blocks) ==> ok == Replay(env, blocks).Some?
    ensures Rising(blocks) && ok ==> l.model == Replay(env, blocks).value
  {
    hide ApplyBlock, MatureLedger.Core, Ledgers.MatureCoinbases;
    l := new MatureLedger(env);
    var i := 0;
    while i < |blocks|
      invariant i <= |blocks| && fresh(l) && fresh(l.assets) && fresh(l.coinbases) && l.Valid() && l.env == env
      invariant Rising(blocks) ==> ApplyBlocks(env, NEW_LEDGER, blocks[..i]) == Some(l.model)
      invariant Rising(blocks) && i > 0 ==> l.model.height == blocks[i - 1].height
      invariant i == 0 ==> l.model.height == 0
    {
      assert blocks[..i + 1][..i] == blocks[..i];
      ApplyBlockSetsHeight(env, l.model, blocks[i]);
      ok := l.Apply(blocks[i]);
      if !ok {
        if Rising(blocks) {
          BlockPrefixDecides(env, NEW_LEDGER, blocks, i + 1);
        }
        return;
      }
      i := i + 1;
    }
    assert blocks[..i] == blocks;
    if |blocks| > 0 {
      l.MatureCoinbases(blocks[|blocks| - 1].height);
    }
    ok := true;
  }
}
