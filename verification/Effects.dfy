/** Who gains and who loses by each operation: the change of every address's balance, stated apart from
    the order of checks and writes that brings it about. */
module Effects {
  import opened Arith
  import opened Types
  import opened Assets
  import opened Ledgers
  import AssetSupply
  import Staking
  import Text

  /** `n` coins of one address. */
  function Coins(a: Address, n: nat): multiset<Address> {
    multiset{}[a := n]
  }

  /** Every balance of every asset changes by exactly the given gain and loss. */
  ghost predicate Moves(before: AssetBook, after: AssetBook, gain: (Address, AssetId) -> nat, loss: (Address, AssetId) -> nat) {
    forall a, id :: after.Balance(a, id) == before.Balance(a, id) + gain(a, id) - loss(a, id)
  }

  function Only(id: AssetId, a: Address, n: nat): (Address, AssetId) -> nat {
    (b: Address, k: AssetId) => if k == id && b == a then n else 0
  }

  function Nothing(): (Address, AssetId) -> nat {
    (b: Address, k: AssetId) => 0
  }

  lemma TransferMoves(b: AssetBook, id: AssetId, src: Address, dst: Address, n: u64)
    requires b.Transfer(id, src, dst, n).Some?
    ensures
      var after := b.Transfer(id, src, dst, n).value;
      && Moves(b, after, Only(id, dst, n), Only(id, src, n))
      && n > 0 && b.Balance(src, id) >= n && after.defs == b.defs
  {
  }

  lemma MintMoves(b: AssetBook, id: AssetId, issuer: Address, to: Address, n: u64)
    requires b.Mint(id, issuer, to, n).Some?
    ensures
      var after := b.Mint(id, issuer, to, n).value;
      && Moves(b, after, Only(id, to, n), Nothing())
      && b.defs[id].issuer == issuer && b.defs[id].mintable
      && after.defs == b.defs[id := b.defs[id].(totalSupply := b.defs[id].totalSupply + n)]
      && (b.defs[id].maxSupply > 0 ==> after.defs[id].totalSupply <= b.defs[id].maxSupply)
  {
    hide Text.Blank;
  }

  lemma BurnMoves(b: AssetBook, id: AssetId, owner: Address, n: u64)
    requires b.Burn(id, owner, n).Some?
    ensures
      var after := b.Burn(id, owner, n).value;
      && Moves(b, after, Nothing(), Only(id, owner, n))
      && b.Balance(owner, id) >= n && b.defs[id].burnable
      && after.defs == b.defs[id := b.defs[id].(totalSupply := b.defs[id].totalSupply - n)]
  {
    hide Text.Blank;
  }

  lemma CreateMoves(b: AssetBook, def: Definition)
    requires b.Create(def).Some? && b.held.Keys == b.defs.Keys
    ensures Moves(b, b.Create(def).value, Nothing(), Nothing())
    ensures def.id !in b.defs && !IsNative(def.id)
    ensures b.Create(def).value.defs.Keys == b.defs.Keys + {def.id}
  {
    hide IsNative, ValidDefinition;
  }

  // ---------------------------------------------------------------- whole runs of asset operations

  /** What a successful operation gives an address, and what it takes from it. */
  function Gained(op: AssetSupply.AssetOp, a: Address, id: AssetId): nat {
    match op
    case CreateOp(_, _) => 0
    case MintOp(k, _, to, n) => if k == id && to == a then n else 0
    case BurnOp(_, _, _) => 0
    case TransferOp(k, _, dst, n) => if k == id && dst == a then n else 0
    case TokenTransferOp(k, _, dst, _, n, fee) =>
      (if k == id && dst == a then n else 0) + (if id == NATIVE_ASSET && a == FEE_COLLECTOR then fee else 0)
  }

  function Lost(op: AssetSupply.AssetOp, a: Address, id: AssetId): nat {
    match op
    case CreateOp(_, _) => 0
    case MintOp(_, _, _, _) => 0
    case BurnOp(k, owner, n) => if k == id && owner == a then n else 0
    case TransferOp(k, src, _, n) => if k == id && src == a then n else 0
    case TokenTransferOp(k, src, _, payer, n, fee) =>
      (if k == id && src == a then n else 0) + (if id == NATIVE_ASSET && a == payer then fee else 0)
  }

  /** The same over the operations of a run that succeeded when their turn came. */
  function NetOf(ops: seq<AssetSupply.AssetOp>, a: Address, id: AssetId): int {
    if ops == [] then 0
    else
      var n := |ops| - 1;
      var before := AssetSupply.Run(EMPTY_BOOK, ops[..n]);
      NetOf(ops[..n], a, id)
        + if AssetSupply.Attempt(before, ops[n]).Some? then Gained(ops[n], a, id) - Lost(ops[n], a, id) else 0
  }

  lemma ChargeFeeMoves(b: AssetBook, payer: Address, fee: u64, a: Address, id: AssetId)
    requires b.ChargeFee(payer, fee).Some?
    ensures b.ChargeFee(payer, fee).value.Balance(a, id) + (if id == NATIVE_ASSET && a == payer then fee else 0)
         == b.Balance(a, id) + (if id == NATIVE_ASSET && a == FEE_COLLECTOR then fee else 0)
  {
  }

  lemma AttemptMoves(b: AssetBook, op: AssetSupply.AssetOp, a: Address, id: AssetId)
    requires b.held.Keys == b.defs.Keys && AssetSupply.Attempt(b, op).Some?
    ensures AssetSupply.Attempt(b, op).value.Balance(a, id) + Lost(op, a, id) == b.Balance(a, id) + Gained(op, a, id)
  {
    hide AssetBook.Create, AssetBook.Mint, AssetBook.Burn, AssetBook.Transfer, AssetBook.ChargeFee, AssetBook.Balance, DerivedId;
    match op
    case CreateOp(txId, m) =>
      CreateMoves(b, m.(id := DerivedId(txId), kind := Fungible, totalSupply := 0, status := AssetStatus.Active));
    case MintOp(k, issuer, to, n) => MintMoves(b, k, issuer, to, n);
    case BurnOp(k, owner, n) => BurnMoves(b, k, owner, n);
    case TransferOp(k, src, dst, n) => TransferMoves(b, k, src, dst, n);
    case TokenTransferOp(k, src, dst, payer, n, fee) =>
      TransferMoves(b, k, src, dst, n);
      ChargeFeeMoves(b.Transfer(k, src, dst, n).value, payer, fee, a, id);
  }

  /** Over every run, an address's balance of an asset is exactly what the operations that succeeded gave
      it less what they took from it: nothing else ever moves, and a failed operation leaves no trace. */
  lemma {:induction false} EveryRunMoves(ops: seq<AssetSupply.AssetOp>, a: Address, id: AssetId)
    ensures AssetSupply.Run(EMPTY_BOOK, ops).Balance(a, id) == NetOf(ops, a, id)
  {
    hide AssetSupply.Attempt, Gained, Lost;
    if ops != [] {
      var n := |ops| - 1;
      EveryRunMoves(ops[..n], a, id);
      var before := AssetSupply.Run(EMPTY_BOOK, ops[..n]);
      if AssetSupply.Attempt(before, ops[n]).Some? {
        AssetSupply.EveryRunMatches(ops[..n]);
        MatchedKeys(before);
        AttemptMoves(before, ops[n], a, id);
      }
    }
  }

  lemma MatchedKeys(b: AssetBook)
    requires AssetSupply.IssuedMatch(b)
    ensures b.held.Keys == b.defs.Keys
  {
  }

  // ---------------------------------------------------------------- ledger accounts

  /** Confirmed, mature and native asset balances all change alike, and nothing else does. */
  ghost predicate Pays(before: Ledger, after: Ledger, gain: multiset<Address>, loss: multiset<Address>, fee: nat) {
    && (forall a :: after.confirmed[a] + loss[a] == before.confirmed[a] + gain[a])
    && (forall a :: after.mature[a] + loss[a] == before.mature[a] + gain[a])
    && (forall a :: a != FEE_COLLECTOR ==>
          after.assets.Native()[a] + loss[a] == before.assets.Native()[a] + gain[a])
    && FeePool(after) == FeePool(before) + fee
    && after.nonces == before.nonces && after.pending == before.pending && after.height == before.height
    && after.stakes == before.stakes
  }

  ghost predicate OtherAssetsSame(before: Ledger, after: Ledger) {
    && after.assets.defs == before.assets.defs
    && forall a, id :: id != NATIVE_ASSET ==> after.assets.Balance(a, id) == before.assets.Balance(a, id)
  }

  lemma SpendPays(l: Ledger, a: Address, n: u64)
    requires Spend(l, a, n).Some? && a != FEE_COLLECTOR
    ensures Pays(l, Spend(l, a, n).value, multiset{}, Coins(a, n), 0) && OtherAssetsSame(l, Spend(l, a, n).value)
  {
    hide Staking.Locked;
  }

  lemma ReceivePays(l: Ledger, a: Address, n: u64)
    requires Receive(l, a, n).Some? && a != FEE_COLLECTOR
    ensures Pays(l, Receive(l, a, n).value, Coins(a, n), multiset{}, 0) && OtherAssetsSame(l, Receive(l, a, n).value)
  {
    hide Text.Blank;
  }

  lemma ChargePays(l: Ledger, payer: Address, fee: u64)
    requires ChargeFee(l, payer, fee).Some? && payer != FEE_COLLECTOR
    ensures Pays(l, ChargeFee(l, payer, fee).value, multiset{}, Coins(payer, fee), fee)
    ensures OtherAssetsSame(l, ChargeFee(l, payer, fee).value)
  {
    hide Staking.Locked, Text.Blank, Spend;
    if fee > 0 {
      SpendPays(l, payer, fee);
    }
  }

  /** Payments made one after another add up. */
  lemma PaysBoth(x: Ledger, y: Ledger, z: Ledger, gain: multiset<Address>, loss: multiset<Address>, fee: nat,
                 more: multiset<Address>, less: multiset<Address>, extra: nat)
    requires Pays(x, y, gain, loss, fee) && Pays(y, z, more, less, extra)
    ensures Pays(x, z, gain + more, loss + less, fee + extra)
  {
    hide FeePool, AssetBook.Native;
  }

  lemma NoneChanged(l: Ledger, assets: AssetBook)
    requires assets.Native() == l.assets.Native()
    ensures Pays(l, l.(assets := assets), multiset{}, multiset{}, 0)
  {
  }

  /** A v3 transfer of the native coin: the recipient gains the amount, the sender loses it, whoever
      sponsors the fee loses the fee, and the fee pool gains it. */
  lemma NativeTransferPays(l: Ledger, tx: Transaction)
    requires MovesNative(tx) && EffectV3(l, tx).Some?
    requires tx.sender != FEE_COLLECTOR && tx.recipient != FEE_COLLECTOR && tx.EffectiveFeePayer() != FEE_COLLECTOR
    ensures
      var after := EffectV3(l, tx).value;
      && Pays(l, after, Coins(tx.recipient, tx.amount),
              Coins(tx.sender, tx.amount) + Coins(tx.EffectiveFeePayer(), tx.fee), tx.fee)
      && OtherAssetsSame(l, after)
  {
    hide Spend, ChargeFee, Receive, Pays, OtherAssetsSame, IsNative, Coins;
    var payer := tx.EffectiveFeePayer();
    var sent := Spend(l, tx.sender, tx.amount).value;
    var charged := ChargeFee(sent, payer, tx.fee).value;
    var after := Receive(charged, tx.recipient, tx.amount).value;
    SpendPays(l, tx.sender, tx.amount);
    ChargePays(sent, payer, tx.fee);
    ReceivePays(charged, tx.recipient, tx.amount);
    var paid, cost, received := Coins(tx.sender, tx.amount), Coins(payer, tx.fee), Coins(tx.recipient, tx.amount);
    var nobody: multiset<Address> := multiset{};
    PaysBoth(l, sent, charged, nobody, paid, 0, nobody, cost, tx.fee);
    assert nobody + nobody == nobody;
    PaysBoth(l, charged, after, nobody, paid + cost, tx.fee, received, nobody, 0);
    assert nobody + received == received && paid + cost + nobody == paid + cost;
    OtherAssetsStay(l, sent, charged, after);
  }

  lemma OtherAssetsStay(w: Ledger, x: Ledger, y: Ledger, z: Ledger)
    requires OtherAssetsSame(w, x) && OtherAssetsSame(x, y) && OtherAssetsSame(y, z)
    ensures OtherAssetsSame(w, z)
  {
  }

  /** Every other v3 transaction costs its sponsor the fee in native coins and nothing else. */
  lemma TokenOperationPays(env: Env, l: Ledger, tx: Transaction)
    requires !MovesNative(tx) && WellSignedV3(env, tx) && EffectV3(l, tx).Some? && l.assets.held.Keys == l.assets.defs.Keys
    requires tx.EffectiveFeePayer() != FEE_COLLECTOR
    ensures Pays(l, EffectV3(l, tx).value, multiset{}, Coins(tx.EffectiveFeePayer(), tx.fee), tx.fee)
  {
    hide ChargeFee, TokenEffect, IsNative, WellSignedV3, Pays, Coins, MovesNative;
    TokenKeepsNative(env, l.assets, tx);
    TokenFeePays(l, tx, TokenEffect(l.assets, tx).value);
  }

  lemma TokenFeePays(l: Ledger, tx: Transaction, assets: AssetBook)
    requires assets.Native() == l.assets.Native() && ChargeFee(l.(assets := assets), tx.EffectiveFeePayer(), tx.fee).Some?
    requires tx.EffectiveFeePayer() != FEE_COLLECTOR
    ensures Pays(l, ChargeFee(l.(assets := assets), tx.EffectiveFeePayer(), tx.fee).value,
                 multiset{}, Coins(tx.EffectiveFeePayer(), tx.fee), tx.fee)
  {
    hide ChargeFee, Pays, Coins;
    var payer := tx.EffectiveFeePayer();
    var changed := l.(assets := assets);
    var after := ChargeFee(changed, payer, tx.fee).value;
    NoneChanged(l, assets);
    ChargePays(changed, payer, tx.fee);
    var nobody: multiset<Address> := multiset{};
    PaysBoth(l, changed, after, nobody, nobody, 0, nobody, Coins(payer, tx.fee), tx.fee);
    assert nobody + nobody == nobody && nobody + Coins(payer, tx.fee) == Coins(payer, tx.fee);
  }

  lemma TokenKeepsNative(env: Env, b: AssetBook, tx: Transaction)
    requires !MovesNative(tx) && WellSignedV3(env, tx) && TokenEffect(b, tx).Some? && b.held.Keys == b.defs.Keys
    ensures TokenEffect(b, tx).value.Native() == b.Native()
  {
    NativeIsNative();
    if tx.Kind() == AssetCreate {
      DerivedIdIsIssued(tx.id);
    }
  }

  /** Settlement pays the block producer exactly what the pool held. */
  lemma SettlementPays(env: Env, l: Ledger, miner: Address)
    requires SettleFees(env, l, miner).Some? && env.AddressesSound()
    ensures
      var after := SettleFees(env, l, miner).value;
      && FeePool(after) == 0 && OtherAssetsSame(l, after)
      && (forall a :: after.confirmed[a] == l.confirmed[a] + Coins(miner, FeePool(l))[a])
      && (forall a :: after.mature[a] == l.mature[a] + Coins(miner, FeePool(l))[a])
  {
    hide Text.Blank, Receive;
    var fee := FeePool(l);
    if fee > 0 {
      var drained := l.(assets := l.assets.Debit(FEE_COLLECTOR, NATIVE_ASSET, fee).value);
      ReceivePays(drained, miner, fee);
    }
  }
}
