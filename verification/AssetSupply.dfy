/** Issued-asset supply: after any run of asset operations, and in every reachable ledger, each
    issued asset's balances sum to its recorded supply, which never exceeds its cap. */
module AssetSupply {
  import opened Arith
  import opened Types
  import opened Assets
  import opened Ledgers
  import Staking
  import Text

  ghost predicate SupplyMatches(b: AssetBook, id: AssetId)
    requires id in b.defs && id in b.held
  {
    var def := b.defs[id];
    && def.id == id && !IsNative(id) && ValidDefinition(def)
    && def.kind == Fungible && def.status != NoStatus
    && |b.held[id]| == def.totalSupply
  }

  ghost predicate IssuedMatch(b: AssetBook) {
    && b.held.Keys == b.defs.Keys
    && NATIVE_ASSET in b.defs && b.defs[NATIVE_ASSET] == NATIVE_DEFINITION
    && (forall id :: id in b.defs && id != NATIVE_ASSET ==> SupplyMatches(b, id))
    && (forall id, a :: id in b.held && |a| == 0 ==> b.held[id][a] == 0)
  }

  /** Only one asset changed, and it still matches. */
  lemma OneAssetChanged(b: AssetBook, c: AssetBook, id: AssetId)
    requires IssuedMatch(b)
    requires id in c.defs && id in c.held
    requires c.defs == b.defs[id := c.defs[id]] && c.held == b.held[id := c.held[id]]
    requires if id == NATIVE_ASSET then c.defs[id] == b.defs[id] else SupplyMatches(c, id)
    requires forall a: Address :: |a| == 0 ==> c.held[id][a] == 0
    ensures IssuedMatch(c)
  {
    hide IsNative, ValidDefinition;
    forall k | k in c.defs && k != NATIVE_ASSET
      ensures SupplyMatches(c, k)
    {
      if k != id {
        assert SupplyMatches(b, k);
      }
    }
  }

  lemma HasSupply(b: AssetBook, id: AssetId)
    requires IssuedMatch(b) && id in b.defs && id != NATIVE_ASSET
    ensures id in b.held && SupplyMatches(b, id)
  {
  }

  lemma DefinedUnderItsId(b: AssetBook, id: AssetId)
    requires IssuedMatch(b) && (id in b.held || id in b.defs)
    ensures id in b.held && id in b.defs && b.defs[id].id == id && |id| > 0
  {
    if id != NATIVE_ASSET {
      HasSupply(b, id);
      if |id| == 0 {
        BlankNames(id);
      }
    }
  }

  lemma AlreadyNormal(b: AssetBook, id: AssetId)
    requires IssuedMatch(b) && id in b.defs
    ensures Normal(b.defs[id]) == b.defs[id]
  {
    hide IsNative, ValidDefinition;
    if id != NATIVE_ASSET {
      HasSupply(b, id);
    }
  }

  lemma NativeIsDefined(b: AssetBook)
    requires IssuedMatch(b)
    ensures NATIVE_ASSET in b.defs && NATIVE_ASSET in b.held
  {
  }

  lemma OneHolderFits(m: multiset<Address>, a: Address)
    ensures m[a] <= |m|
  {
    assert |m[a := 0]| == |m| - m[a];
  }

  lemma CreateMatches(b: AssetBook, def: Definition)
    requires IssuedMatch(b) && def.totalSupply == 0 && b.Create(def).Some?
    ensures IssuedMatch(b.Create(def).value)
  {
    NativeIsNative();
    OneAssetChanged(b, b.Create(def).value, def.id);
  }

  /** Only an issued asset can be minted: the native definition is not mintable. */
  lemma MintMatches(b: AssetBook, id: AssetId, issuer: Address, to: Address, n: u64)
    requires IssuedMatch(b) && b.Mint(id, issuer, to, n).Some?
    ensures IssuedMatch(b.Mint(id, issuer, to, n).value)
  {
    if |to| == 0 {
      BlankNames(to);
    }
    hide Text.Blank, IsNative, Text.Trim, Text.Lower, SupplyMatches;
    assert id != NATIVE_ASSET;
    HasSupply(b, id);
    MintedSupply(b, id, issuer, to, n);
    OneAssetChanged(b, b.Mint(id, issuer, to, n).value, id);
  }

  lemma MintedSupply(b: AssetBook, id: AssetId, issuer: Address, to: Address, n: u64)
    requires b.Mint(id, issuer, to, n).Some? && id in b.held && SupplyMatches(b, id)
    ensures SupplyMatches(b.Mint(id, issuer, to, n).value, id)
  {
    hide Text.Blank, IsNative, Text.Trim, Text.Lower;
  }

  lemma BurnMatches(b: AssetBook, id: AssetId, owner: Address, n: u64)
    requires IssuedMatch(b) && b.Burn(id, owner, n).Some?
    ensures IssuedMatch(b.Burn(id, owner, n).value)
  {
    hide Text.Blank, IsNative, Text.Trim, Text.Lower;
    assert id != NATIVE_ASSET;
    HasSupply(b, id);
    OneAssetChanged(b, b.Burn(id, owner, n).value, id);
  }

  lemma TransferMatches(b: AssetBook, id: AssetId, src: Address, dst: Address, n: u64)
    requires IssuedMatch(b) && b.Transfer(id, src, dst, n).Some?
    ensures IssuedMatch(b.Transfer(id, src, dst, n).value)
  {
    hide IsNative, ValidDefinition;
    var c := b.Transfer(id, src, dst, n).value;
    assert c.held[id] == b.held[id][src := b.held[id][src] - n][dst := b.held[id][dst] + n];
    if id != NATIVE_ASSET {
      HasSupply(b, id);
    }
    OneAssetChanged(b, c, id);
  }

  /** Crediting or debiting native coins does not disturb any issued asset. */
  lemma NativeWriteMatches(b: AssetBook, a: Address, n: nat)
    requires IssuedMatch(b) && (|a| == 0 ==> n == 0)
    ensures IssuedMatch(b.SetBalance(a, NATIVE_ASSET, n))
  {
    hide IsNative, ValidDefinition;
    var c := b.SetBalance(a, NATIVE_ASSET, n);
    assert c.defs[NATIVE_ASSET := c.defs[NATIVE_ASSET]] == c.defs;
    OneAssetChanged(b, c, NATIVE_ASSET);
  }

  lemma BlankNames(a: Address)
    requires |a| == 0
    ensures Text.Blank(a)
  {
  }

  lemma NobodyNameless(b: AssetBook, id: AssetId, a: Address)
    requires IssuedMatch(b)
    ensures |a| == 0 ==> b.Balance(a, id) == 0
  {
  }

  lemma AddNativeMatches(b: AssetBook, a: Address, n: u64)
    requires IssuedMatch(b) && b.AddBalance(a, NATIVE_ASSET, n).Some? && |a| > 0
    ensures IssuedMatch(b.AddBalance(a, NATIVE_ASSET, n).value)
  {
    hide IssuedMatch;
    NativeWriteMatches(b, a, b.Balance(a, NATIVE_ASSET) + n);
  }

  lemma DebitMatches(b: AssetBook, a: Address, n: u64)
    requires IssuedMatch(b) && b.Debit(a, NATIVE_ASSET, n).Some?
    ensures IssuedMatch(b.Debit(a, NATIVE_ASSET, n).value)
  {
    NobodyNameless(b, NATIVE_ASSET, a);
    hide IssuedMatch;
    NativeWriteMatches(b, a, b.Balance(a, NATIVE_ASSET) - n);
  }

  lemma ChargeFeeMatches(b: AssetBook, payer: Address, fee: u64)
    requires IssuedMatch(b) && b.ChargeFee(payer, fee).Some?
    ensures IssuedMatch(b.ChargeFee(payer, fee).value)
  {
    hide IssuedMatch, AssetBook.Debit, AssetBook.AddBalance;
    if fee > 0 {
      DebitMatches(b, payer, fee);
      AddNativeMatches(b.Debit(payer, NATIVE_ASSET, fee).value, FEE_COLLECTOR, fee);
    }
  }

  // ---------------------------------------------------------------- runs of asset operations

  datatype AssetOp =
    | CreateOp(txId: string, metadata: Definition)
    | MintOp(id: AssetId, issuer: Address, to: Address, n: u64)
    | BurnOp(id: AssetId, owner: Address, n: u64)
    | TransferOp(id: AssetId, src: Address, dst: Address, n: u64)
    | TokenTransferOp(id: AssetId, src: Address, dst: Address, payer: Address, n: u64, fee: u64)

  /** `CreateFromTransactionID`: the id is derived, supply starts at zero. */
  function CreateFromTransaction(b: AssetBook, txId: string, metadata: Definition): Option<AssetBook> {
    b.Create(metadata.(id := DerivedId(txId), kind := Fungible, totalSupply := 0, status := AssetStatus.Active))
  }

  function Attempt(b: AssetBook, op: AssetOp): Option<AssetBook> {
    match op
    case CreateOp(txId, metadata) => CreateFromTransaction(b, txId, metadata)
    case MintOp(id, issuer, to, n) => b.Mint(id, issuer, to, n)
    case BurnOp(id, owner, n) => b.Burn(id, owner, n)
    case TransferOp(id, src, dst, n) => b.Transfer(id, src, dst, n)
    case TokenTransferOp(id, src, dst, payer, n, fee) => b.ExecuteTokenTransfer(id, src, dst, payer, n, fee)
  }

  /** A failed operation leaves the book as it was. */
  function Run(b: AssetBook, ops: seq<AssetOp>): AssetBook {
    if ops == [] then b
    else
      var before := Run(b, ops[..|ops| - 1]);
      var after := Attempt(before, ops[|ops| - 1]);
      if after.Some? then after.value else before
  }

  lemma AttemptMatches(b: AssetBook, op: AssetOp)
    requires IssuedMatch(b) && Attempt(b, op).Some?
    ensures IssuedMatch(Attempt(b, op).value)
  {
    hide IssuedMatch, AssetBook.Create, AssetBook.Mint, AssetBook.Burn, AssetBook.Transfer, AssetBook.ChargeFee, DerivedId;
    match op
    case CreateOp(txId, m) =>
      CreateMatches(b, m.(id := DerivedId(txId), kind := Fungible, totalSupply := 0, status := AssetStatus.Active));
    case MintOp(id, issuer, to, n) => MintMatches(b, id, issuer, to, n);
    case BurnOp(id, owner, n) => BurnMatches(b, id, owner, n);
    case TransferOp(id, src, dst, n) => TransferMatches(b, id, src, dst, n);
    case TokenTransferOp(id, src, dst, payer, n, fee) =>
      TransferMatches(b, id, src, dst, n);
      ChargeFeeMatches(b.Transfer(id, src, dst, n).value, payer, fee);
  }

  lemma {:induction false} EveryRunMatches(ops: seq<AssetOp>)
    ensures IssuedMatch(Run(EMPTY_BOOK, ops))
  {
    hide IssuedMatch, Attempt;
    if ops == [] {
      EmptyMatches();
    } else {
      EveryRunMatches(ops[..|ops| - 1]);
      var before := Run(EMPTY_BOOK, ops[..|ops| - 1]);
      if Attempt(before, ops[|ops| - 1]).Some? {
        AttemptMatches(before, ops[|ops| - 1]);
      }
    }
  }

  lemma EmptyMatches()
    ensures IssuedMatch(EMPTY_BOOK)
  {
  }

  /** The cap and the 64-bit range both hold for what is in circulation. */
  lemma CirculationIsCapped(b: AssetBook, id: AssetId)
    requires IssuedMatch(b) && id in b.defs && id != NATIVE_ASSET
    ensures |b.held[id]| == b.defs[id].totalSupply <= MAX_U64
    ensures b.defs[id].maxSupply > 0 ==> |b.held[id]| <= b.defs[id].maxSupply
  {
    HasSupply(b, id);
  }

  lemma TwoHoldersFit(m: multiset<Address>, x: Address, y: Address)
    requires x != y
    ensures m[x] + m[y] <= |m|
  {
    assert |m[x := 0][y := 0]| == |m| - m[x] - m[y];
  }

  /** The undo branch of `Transfer` is dead for issued assets: a funded transfer cannot overflow
      its recipient. */
  lemma TransferNeverOverflows(b: AssetBook, id: AssetId, src: Address, dst: Address, n: u64)
    requires IssuedMatch(b) && id in b.defs && id != NATIVE_ASSET
    ensures b.Transfer(id, src, dst, n).Some? <==>
            && n > 0 && src != "" && dst != "" && src != dst
            && b.defs[id].status != Frozen && n <= b.Balance(src, id)
  {
    HasSupply(b, id);
    if src != dst {
      TwoHoldersFit(b.held[id], src, dst);
    }
  }

  // ---------------------------------------------------------------- reachable ledgers

  lemma CreditMatches(b: AssetBook, a: Address, n: u64)
    requires IssuedMatch(b) && b.Credit(a, NATIVE_ASSET, n).Some?
    ensures IssuedMatch(b.Credit(a, NATIVE_ASSET, n).value)
  {
    hide IssuedMatch, AssetBook.AddBalance;
    if |a| == 0 {
      BlankNames(a);
    }
    hide Text.Blank;
    AddNativeMatches(b, a, n);
  }

  lemma ReceiveMatches(l: Ledger, a: Address, n: u64)
    requires IssuedMatch(l.assets) && Receive(l, a, n).Some?
    ensures IssuedMatch(Receive(l, a, n).value.assets)
  {
    hide IssuedMatch, AssetBook.Credit;
    if n > 0 {
      CreditMatches(l.assets, a, n);
    }
  }

  lemma LedgerFeeMatches(l: Ledger, payer: Address, fee: u64)
    requires IssuedMatch(l.assets) && ChargeFee(l, payer, fee).Some?
    ensures IssuedMatch(ChargeFee(l, payer, fee).value.assets)
  {
    hide IssuedMatch, AssetBook.Credit, AssetBook.Debit, SpendAllowed;
    if fee > 0 {
      DebitMatches(l.assets, payer, fee);
      CreditMatches(l.assets.Debit(payer, NATIVE_ASSET, fee).value, FEE_COLLECTOR, fee);
    }
  }

  lemma SettleMatches(env: Env, l: Ledger, miner: Address)
    requires IssuedMatch(l.assets) && SettleFees(env, l, miner).Some?
    ensures IssuedMatch(SettleFees(env, l, miner).value.assets)
  {
    hide IssuedMatch, AssetBook.Credit, AssetBook.Debit, Receive;
    var fee := FeePool(l);
    if fee != 0 {
      DebitMatches(l.assets, FEE_COLLECTOR, fee);
      ReceiveMatches(l.(assets := l.assets.Debit(FEE_COLLECTOR, NATIVE_ASSET, fee).value), miner, fee);
    }
  }

  lemma TokenEffectMatches(b: AssetBook, tx: Transaction)
    requires IssuedMatch(b) && TokenEffect(b, tx).Some?
    ensures IssuedMatch(TokenEffect(b, tx).value)
  {
    hide IssuedMatch, AssetBook.Transfer, AssetBook.Create, AssetBook.Mint, AssetBook.Burn;
    match tx.Kind()
    case Transfer => TransferMatches(b, tx.assetId, tx.sender, tx.recipient, tx.amount);
    case AssetCreate => CreateMatches(b, DefinitionOf(tx));
    case AssetMint => MintMatches(b, tx.assetId, tx.sender, tx.recipient, tx.amount);
    case AssetBurn => BurnMatches(b, tx.assetId, tx.sender, tx.amount);
    case _ =>
  }

  lemma EffectV3Matches(l: Ledger, tx: Transaction)
    requires IssuedMatch(l.assets) && EffectV3(l, tx).Some?
    ensures IssuedMatch(EffectV3(l, tx).value.assets)
  {
    hide IssuedMatch, TokenEffect, AssetBook.Debit, ChargeFee, Receive, SpendAllowed, MovesNative;
    var payer := tx.EffectiveFeePayer();
    if MovesNative(tx) {
      DebitMatches(l.assets, tx.sender, tx.amount);
      var sent := Spend(l, tx.sender, tx.amount).value;
      LedgerFeeMatches(sent, payer, tx.fee);
      ReceiveMatches(ChargeFee(sent, payer, tx.fee).value, tx.recipient, tx.amount);
    } else {
      TokenEffectMatches(l.assets, tx);
      LedgerFeeMatches(l.(assets := TokenEffect(l.assets, tx).value), payer, tx.fee);
    }
  }

  lemma LegacyMatches(env: Env, l: Ledger, tx: Transaction, height: u64)
    requires IssuedMatch(l.assets) && LegacyEffect(env, l, tx, height).Some?
    ensures IssuedMatch(LegacyEffect(env, l, tx, height).value.assets)
  {
    hide IssuedMatch, AssetBook.Credit, AssetBook.Debit, Staking.ApplyLock, Staking.ApplyUnlock, Staking.Refresh;
    if tx.Kind() == Transfer && env.AssetModel() {
      DebitMatches(l.assets, tx.sender, tx.amount + tx.fee);
      CreditMatches(l.assets.Debit(tx.sender, NATIVE_ASSET, tx.amount + tx.fee).value, tx.recipient, tx.amount);
    }
  }

  lemma ApplyAnyMatches(env: Env, l: Ledger, tx: Transaction, height: u64)
    requires IssuedMatch(l.assets) && ApplyAny(env, l, tx, height).Some?
    ensures IssuedMatch(ApplyAny(env, l, tx, height).value.assets)
  {
    hide IssuedMatch, AssetBook.Credit, EffectV3, LegacyEffect, ValidTransaction;
    if tx.coinbase {
      if env.AssetModel() {
        CreditMatches(l.assets, tx.recipient, tx.amount);
      }
    } else if tx.ProtocolVersion() == TX_VERSION_ASSET {
      EffectV3Matches(l, tx);
    } else {
      LegacyMatches(env, l, tx, height);
    }
  }

  lemma {:induction false} ApplyAllMatches(env: Env, l: Ledger, txs: seq<Transaction>, height: u64)
    requires IssuedMatch(l.assets) && ApplyAll(env, l, txs, height).Some?
    ensures IssuedMatch(ApplyAll(env, l, txs, height).value.assets)
  {
    hide IssuedMatch, ApplyAny;
    if txs != [] {
      var n := |txs| - 1;
      ApplyAllMatches(env, l, txs[..n], height);
      ApplyAnyMatches(env, ApplyAll(env, l, txs[..n], height).value, txs[n], height);
    }
  }

  lemma {:induction false} MatureRunKeepsAssets(env: Env, l: Ledger, credits: seq<PendingCoinbase>, height: u64)
    ensures MatureRun(env, l, credits, height).assets == l.assets
  {
    if credits != [] {
      MatureRunKeepsAssets(env, l, credits[..|credits| - 1], height);
    }
  }

  lemma ApplyBlockMatches(env: Env, l: Ledger, b: Block)
    requires IssuedMatch(l.assets) && ApplyBlock(env, l, b).Some?
    ensures IssuedMatch(ApplyBlock(env, l, b).value.assets)
  {
    hide IssuedMatch, ApplyAll, SettleFees, MatureRun, Staking.Refresh;
    if b.height > 0 {
      MatureRunKeepsAssets(env, l, l.pending, b.height - 1);
    }
    var ready := OpenBlock(env, l, b);
    ApplyAllMatches(env, ready, b.txs, b.height);
    var applied := ApplyAll(env, ready, b.txs, b.height).value;
    if env.AssetModel() {
      SettleMatches(env, applied, b.miner);
    }
    var settled := Settle(env, applied, b).value;
    var closing := settled.(height := b.height, stakes := Staking.Refresh(settled.stakes, b.height));
    MatureRunKeepsAssets(env, closing, closing.pending, b.height);
  }

  /** In every ledger the chain can reach, each issued asset's holders sum to its supply. */
  lemma {:induction false} ReachableMatches(env: Env, blocks: seq<Block>)
    requires ApplyBlocks(env, NEW_LEDGER, blocks).Some?
    ensures IssuedMatch(ApplyBlocks(env, NEW_LEDGER, blocks).value.assets)
  {
    hide IssuedMatch, ApplyBlock;
    if blocks == [] {
      EmptyMatches();
    } else {
      var n := |blocks| - 1;
      ReachableMatches(env, blocks[..n]);
      ApplyBlockMatches(env, ApplyBlocks(env, NEW_LEDGER, blocks[..n]).value, blocks[n]);
    }
  }
}
