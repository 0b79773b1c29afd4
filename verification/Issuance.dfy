/** What an issued asset goes back to (ledger/asset_execution.go, asset/state.go): the terms of every asset are
    those its creating transaction was signed with, and they govern every mint and burn of a chain. */
module Issuance {
  import opened Arith
  import opened Types
  import opened Assets
  import opened Ledgers
  import Accounts
  import AssetSupply
  import ChainSafety
  import Chains
  import Effects
  import Execution
  import Fees
  import Staking
  import Text

  /** The definition `tx` asks for, apart from what is in circulation. */
  predicate TermsOf(d: Definition, tx: Transaction) {
    && d.id == DerivedId(tx.id) && d.issuer == tx.sender
    && d.name == tx.assetName && d.symbol == tx.assetSymbol && d.decimals == tx.assetDecimals
    && d.maxSupply == tx.assetMaxSupply
    && d.mintable == tx.assetMintable && d.burnable == tx.assetBurnable
    && d.pausable == tx.assetPausable && d.permissioned == tx.assetPermissioned
    && d.kind == Fungible && d.status == Active
  }

  predicate Creates(tx: Transaction) {
    !tx.coinbase && tx.ProtocolVersion() == TX_VERSION_ASSET && tx.Kind() == AssetCreate
  }

  /** A derived id is the transaction's id behind a prefix, for ids that are lower-case hexadecimal, as all are:
      different transactions create different assets. */
  lemma DerivedFromHex(txId: string)
    requires txId != "" && forall i :: 0 <= i < |txId| ==> '0' <= txId[i] <= '9' || 'a' <= txId[i] <= 'f'
    ensures DerivedId(txId) == "asset:" + txId
  {
    assert Text.TrimLeft(txId) == txId;
    assert !Text.IsSpace(txId[|txId| - 1]);
    assert Text.Trim(txId) == txId;
    assert Text.Lower(txId) == txId;
  }

  // ---------------------------------------------------------------- one step

  lemma FeeKeepsBook(l: Ledger, payer: Address, fee: u64)
    requires ChargeFee(l, payer, fee).Some?
    ensures ChargeFee(l, payer, fee).value.assets.defs == l.assets.defs
  {
    Execution.MovementsKeepDefinitions(l, payer, fee);
  }

  lemma CreationMakes(b: AssetBook, tx: Transaction)
    requires Creates(tx) && TokenEffect(b, tx).Some? && b.held.Keys == b.defs.Keys
    ensures
      var id, made := DerivedId(tx.id), TokenEffect(b, tx).value;
      && id !in b.defs && id in made.defs && TermsOf(made.defs[id], tx) && made.defs[id].totalSupply == 0
      && made.defs == b.defs[id := made.defs[id]] && forall a :: made.Balance(a, id) == 0
  {
    hide DerivedId, IsNative, ValidDefinition;
  }

  /** A creation defines exactly one asset, under the id derived from its own, with the terms it names, nothing
      in circulation, and nothing held by anyone. */
  lemma CreationDefines(env: Env, l: Ledger, tx: Transaction, height: u64)
    requires Creates(tx) && ApplyTransaction(env, l, tx, height).Some? && AssetSupply.IssuedMatch(l.assets)
    ensures
      var before, after := l.assets.defs, ApplyTransaction(env, l, tx, height).value.assets.defs;
      var id := DerivedId(tx.id);
      && id == tx.assetId && id !in before && id in after
      && TermsOf(after[id], tx) && after[id].totalSupply == 0
      && after == before[id := after[id]]
    ensures forall a :: ApplyTransaction(env, l, tx, height).value.assets.Balance(a, DerivedId(tx.id)) == 0
  {
    DerivedIdIsIssued(tx.id);
    var id := DerivedId(tx.id);
    assert tx.assetId == id && !MovesNative(tx) by {
      CreationSigned(env, l, tx, height);
    }
    hide DerivedId, IsNative, ChargeFee, ValidTransaction, MovesNative, TermsOf, TokenEffect, AssetSupply.IssuedMatch,
         AssetBook.Balance;
    var made := TokenEffect(l.assets, tx).value;
    FeeKeepsBook(l.(assets := made), tx.EffectiveFeePayer(), tx.fee);
    Effects.MatchedKeys(l.assets);
    CreationMakes(l.assets, tx);
    forall a
      ensures EffectV3(l, tx).value.assets.Balance(a, id) == 0
    {
      FeeKeepsTokens(l.(assets := made), tx.EffectiveFeePayer(), tx.fee, a, id);
    }
  }

  lemma CreationSigned(env: Env, l: Ledger, tx: Transaction, height: u64)
    requires Creates(tx) && ApplyTransaction(env, l, tx, height).Some?
    ensures tx.assetId == DerivedId(tx.id) && !MovesNative(tx)
  {
    hide DerivedId, IsNative, Executable, EffectV3, Fees.Acceptable, FeePayerAuthorized;
  }

  lemma FeeKeepsTokens(l: Ledger, payer: Address, fee: u64, a: Address, id: AssetId)
    requires ChargeFee(l, payer, fee).Some? && id != NATIVE_ASSET
    ensures ChargeFee(l, payer, fee).value.assets.Balance(a, id) == l.assets.Balance(a, id)
  {
    hide SpendAllowed, Text.Blank;
  }

  /** The terms stay for good. */
  ghost predicate TermsKept(x: map<AssetId, Definition>, y: map<AssetId, Definition>) {
    x.Keys == y.Keys && forall id :: id in x ==> y[id].(totalSupply := x[id].totalSupply) == x[id]
  }

  function Circulating(defs: map<AssetId, Definition>, id: AssetId): nat {
    if id in defs then defs[id].totalSupply else 0
  }

  function Minted(tx: Transaction, id: AssetId): nat {
    if Accounts.Mints(tx, id) then tx.amount else 0
  }

  function Burned(tx: Transaction, id: AssetId): nat {
    if Accounts.Burns(tx, id) then tx.amount else 0
  }

  /** Only the issuer of a mintable asset mints it, and only a burnable one is burned. */
  ghost predicate Permitted(defs: map<AssetId, Definition>, tx: Transaction) {
    forall id :: (Accounts.Mints(tx, id) ==> id in defs && defs[id].mintable && defs[id].issuer == tx.sender)
      && (Accounts.Burns(tx, id) ==> id in defs && defs[id].burnable)
  }

  /** What a transaction makes of the definitions `x`. */
  ghost predicate Changes(x: map<AssetId, Definition>, y: map<AssetId, Definition>, tx: Transaction) {
    && (if Creates(tx) then
          var id := DerivedId(tx.id);
          id !in x && id in y && TermsOf(y[id], tx) && y == x[id := y[id]] && y[id].totalSupply == 0
        else TermsKept(x, y))
    && Permitted(y, tx)
    && forall id :: Circulating(y, id) + Burned(tx, id) == Circulating(x, id) + Minted(tx, id)
  }

  lemma SameChanges(x: map<AssetId, Definition>, tx: Transaction)
    requires tx.coinbase || tx.ProtocolVersion() != TX_VERSION_ASSET || tx.Kind() == Transfer
    ensures Changes(x, x, tx)
  {
  }

  lemma StepToken(b: AssetBook, tx: Transaction)
    requires !Creates(tx) && !tx.coinbase && tx.ProtocolVersion() == TX_VERSION_ASSET && TokenEffect(b, tx).Some?
    ensures Changes(b.defs, TokenEffect(b, tx).value.defs, tx)
  {
    match tx.Kind()
    case Transfer =>
      Effects.TransferMoves(b, tx.assetId, tx.sender, tx.recipient, tx.amount);
      hide AssetBook.Transfer, Changes;
      SameChanges(b.defs, tx);
    case AssetMint =>
      hide Changes;
      StepMint(b, tx);
    case AssetBurn =>
      hide Changes;
      StepBurn(b, tx);
    case _ =>
  }

  lemma StepMint(b: AssetBook, tx: Transaction)
    requires tx.Kind() == AssetMint && !tx.coinbase && tx.ProtocolVersion() == TX_VERSION_ASSET && TokenEffect(b, tx).Some?
    ensures Changes(b.defs, TokenEffect(b, tx).value.defs, tx)
  {
    Effects.MintMoves(b, tx.assetId, tx.sender, tx.recipient, tx.amount);
    assert tx.assetId in b.defs;
    hide AssetBook.Mint;
  }

  lemma StepBurn(b: AssetBook, tx: Transaction)
    requires tx.Kind() == AssetBurn && !tx.coinbase && tx.ProtocolVersion() == TX_VERSION_ASSET && TokenEffect(b, tx).Some?
    ensures Changes(b.defs, TokenEffect(b, tx).value.defs, tx)
  {
    Effects.BurnMoves(b, tx.assetId, tx.sender, tx.amount);
    assert tx.assetId in b.defs;
    hide AssetBook.Burn;
  }

  lemma StepV3(env: Env, l: Ledger, tx: Transaction)
    requires !Creates(tx) && WellSignedV3(env, tx) && EffectV3(l, tx).Some?
    ensures Changes(l.assets.defs, EffectV3(l, tx).value.assets.defs, tx)
  {
    assert tx.ProtocolVersion() == TX_VERSION_ASSET && !tx.coinbase;
    hide WellSignedV3, ChargeFee, Receive, Spend, TokenEffect, IsNative, Changes;
    var payer := tx.EffectiveFeePayer();
    if MovesNative(tx) {
      Execution.MovementsKeepDefinitions(l, tx.sender, tx.amount);
      var sent := Spend(l, tx.sender, tx.amount).value;
      Execution.MovementsKeepDefinitions(sent, payer, tx.fee);
      Execution.MovementsKeepDefinitions(ChargeFee(sent, payer, tx.fee).value, tx.recipient, tx.amount);
      SameChanges(l.assets.defs, tx);
    } else {
      StepToken(l.assets, tx);
      FeeKeepsBook(l.(assets := TokenEffect(l.assets, tx).value), payer, tx.fee);
    }
  }

  lemma StepElse(env: Env, l: Ledger, tx: Transaction, height: u64)
    requires tx.coinbase || tx.ProtocolVersion() != TX_VERSION_ASSET
    requires ApplyAny(env, l, tx, height).Some?
    ensures ApplyAny(env, l, tx, height).value.assets.defs == l.assets.defs
  {
    hide ValidTransaction, Text.Blank, Staking.ApplyLock, Staking.ApplyUnlock, Staking.Refresh;
  }

  lemma CreatedChanges(x: map<AssetId, Definition>, y: map<AssetId, Definition>, tx: Transaction)
    requires Creates(tx)
    requires var id := DerivedId(tx.id);
      id !in x && id in y && TermsOf(y[id], tx) && y == x[id := y[id]] && y[id].totalSupply == 0
    ensures Changes(x, y, tx)
  {
    hide DerivedId, TermsOf;
  }

  lemma Step(env: Env, l: Ledger, tx: Transaction, height: u64)
    requires ApplyAny(env, l, tx, height).Some? && AssetSupply.IssuedMatch(l.assets)
    ensures Changes(l.assets.defs, ApplyAny(env, l, tx, height).value.assets.defs, tx)
  {
    if tx.coinbase || tx.ProtocolVersion() != TX_VERSION_ASSET {
      hide ApplyAny, Changes;
      StepElse(env, l, tx, height);
      SameChanges(l.assets.defs, tx);
    } else if Creates(tx) {
      hide ApplyTransaction, DerivedId, TermsOf, AssetSupply.IssuedMatch, Changes;
      CreationDefines(env, l, tx, height);
      CreatedChanges(l.assets.defs, ApplyAny(env, l, tx, height).value.assets.defs, tx);
    } else {
      hide WellSignedV3, ExecutableV3, EffectV3, Changes, AssetSupply.IssuedMatch;
      StepV3(env, l, tx);
    }
  }

  // ---------------------------------------------------------------- whole chains

  predicate HasTerms(defs: map<AssetId, Definition>, id: AssetId, tx: Transaction) {
    Creates(tx) && id in defs && TermsOf(defs[id], tx)
  }

  /** Every asset has its creating transaction, every creation its asset, and every mint and burn was permitted. */
  ghost predicate Traced(defs: map<AssetId, Definition>, txs: seq<Transaction>) {
    && (forall id :: id in defs && id != NATIVE_ASSET ==> exists t :: t in txs && HasTerms(defs, id, t))
    && (forall t :: t in txs && Creates(t) ==> HasTerms(defs, DerivedId(t.id), t))
    && (forall t :: t in txs ==> Permitted(defs, t))
  }

  lemma KeptTraced(x: map<AssetId, Definition>, y: map<AssetId, Definition>, txs: seq<Transaction>, tx: Transaction)
    requires Traced(x, txs) && TermsKept(x, y) && Permitted(y, tx) && !Creates(tx)
    ensures Traced(y, txs + [tx])
  {
    hide DerivedId, Accounts.Mints, Accounts.Burns;
    forall id | id in y && id != NATIVE_ASSET
      ensures exists t :: t in txs + [tx] && HasTerms(y, id, t)
    {
      var t :| t in txs && HasTerms(x, id, t);
      assert t in txs + [tx] && HasTerms(y, id, t);
    }
    forall t | t in txs + [tx]
      ensures Permitted(y, t) && (Creates(t) ==> HasTerms(y, DerivedId(t.id), t))
    {
      if t in txs {
        assert Permitted(x, t);
        assert Creates(t) ==> HasTerms(x, DerivedId(t.id), t);
      }
    }
  }

  lemma CreatedTraced(x: map<AssetId, Definition>, y: map<AssetId, Definition>, txs: seq<Transaction>, tx: Transaction)
    requires Traced(x, txs) && Creates(tx) && Permitted(y, tx)
    requires DerivedId(tx.id) !in x && DerivedId(tx.id) in y && TermsOf(y[DerivedId(tx.id)], tx)
    requires y == x[DerivedId(tx.id) := y[DerivedId(tx.id)]]
    ensures Traced(y, txs + [tx])
  {
    hide DerivedId, TermsOf, Accounts.Mints, Accounts.Burns;
    var made := DerivedId(tx.id);
    assert tx in txs + [tx] && HasTerms(y, made, tx);
    forall id | id in y && id != NATIVE_ASSET
      ensures exists t :: t in txs + [tx] && HasTerms(y, id, t)
    {
      if id != made {
        var t :| t in txs && HasTerms(x, id, t);
        assert t in txs + [tx] && HasTerms(y, id, t);
      }
    }
    forall t | t in txs + [tx]
      ensures Permitted(y, t) && (Creates(t) ==> HasTerms(y, DerivedId(t.id), t))
    {
      if t in txs {
        assert Permitted(x, t);
        assert Creates(t) ==> HasTerms(x, DerivedId(t.id), t);
      }
    }
  }

  function AllMinted(txs: seq<Transaction>, id: AssetId): nat {
    if txs == [] then 0 else AllMinted(txs[..|txs| - 1], id) + Minted(txs[|txs| - 1], id)
  }

  function AllBurned(txs: seq<Transaction>, id: AssetId): nat {
    if txs == [] then 0 else AllBurned(txs[..|txs| - 1], id) + Burned(txs[|txs| - 1], id)
  }

  lemma {:induction false} SumsSplit(x: seq<Transaction>, y: seq<Transaction>, id: AssetId)
    ensures AllMinted(x + y, id) == AllMinted(x, id) + AllMinted(y, id)
    ensures AllBurned(x + y, id) == AllBurned(x, id) + AllBurned(y, id)
  {
    if y == [] {
      assert x + y == x;
    } else {
      SumsSplit(x, y[..|y| - 1], id);
      assert (x + y)[..|x + y| - 1] == x + y[..|y| - 1];
    }
  }

  /** `defs` is what `txs` have made of the assets. */
  ghost predicate Accounted(defs: map<AssetId, Definition>, txs: seq<Transaction>) {
    Traced(defs, txs) && forall id :: Circulating(defs, id) + AllBurned(txs, id) == AllMinted(txs, id)
  }

  lemma OneMore(txs: seq<Transaction>, tx: Transaction, id: AssetId)
    ensures AllMinted(txs + [tx], id) == AllMinted(txs, id) + Minted(tx, id)
    ensures AllBurned(txs + [tx], id) == AllBurned(txs, id) + Burned(tx, id)
  {
    assert (txs + [tx])[..|txs|] == txs;
  }

  lemma StepAccounted(env: Env, l: Ledger, tx: Transaction, height: u64, txs: seq<Transaction>)
    requires ApplyAny(env, l, tx, height).Some? && AssetSupply.IssuedMatch(l.assets) && Accounted(l.assets.defs, txs)
    ensures Accounted(ApplyAny(env, l, tx, height).value.assets.defs, txs + [tx])
  {
    hide ApplyAny, DerivedId, TermsOf, AssetSupply.IssuedMatch, Traced, TermsKept, Permitted, Circulating, Minted, Burned;
    Step(env, l, tx, height);
    var x, y := l.assets.defs, ApplyAny(env, l, tx, height).value.assets.defs;
    if Creates(tx) {
      CreatedTraced(x, y, txs, tx);
    } else {
      KeptTraced(x, y, txs, tx);
    }
    forall id
      ensures Circulating(y, id) + AllBurned(txs + [tx], id) == AllMinted(txs + [tx], id)
    {
      OneMore(txs, tx, id);
    }
  }

  lemma {:induction false} ListAccounted(env: Env, l: Ledger, txs: seq<Transaction>, height: u64, prior: seq<Transaction>)
    requires ApplyAll(env, l, txs, height).Some? && AssetSupply.IssuedMatch(l.assets) && Accounted(l.assets.defs, prior)
    ensures Accounted(ApplyAll(env, l, txs, height).value.assets.defs, prior + txs)
    ensures AssetSupply.IssuedMatch(ApplyAll(env, l, txs, height).value.assets)
  {
    hide ApplyAny, AssetSupply.IssuedMatch, Accounted;
    if txs == [] {
      assert prior + txs == prior;
    } else {
      var n := |txs| - 1;
      ListAccounted(env, l, txs[..n], height, prior);
      var before := ApplyAll(env, l, txs[..n], height).value;
      AssetSupply.ApplyAnyMatches(env, before, txs[n], height);
      StepAccounted(env, before, txs[n], height, prior + txs[..n]);
      assert prior + txs == prior + txs[..n] + [txs[n]];
    }
  }

  lemma BlockAccounted(env: Env, l: Ledger, b: Block, prior: seq<Transaction>)
    requires ApplyBlock(env, l, b).Some? && AssetSupply.IssuedMatch(l.assets) && Accounted(l.assets.defs, prior)
    ensures Accounted(ApplyBlock(env, l, b).value.assets.defs, prior + b.txs)
  {
    hide ApplyAll, AssetSupply.IssuedMatch, Accounted, Settle, OpenBlock, CloseBlock, CoinbaseCount, Staking.Refresh;
    Accounts.OpenAndClose(env, l, b);
    var ready := OpenBlock(env, l, b);
    ListAccounted(env, ready, b.txs, b.height, prior);
    var applied := ApplyAll(env, ready, b.txs, b.height).value;
    Execution.SettleKeepsDefinitions(env, applied, b);
    Accounts.OpenAndClose(env, Settle(env, applied, b).value, b);
  }

  lemma {:induction false} BlocksAccounted(env: Env, blocks: seq<Block>)
    requires ApplyBlocks(env, NEW_LEDGER, blocks).Some?
    ensures Accounted(ApplyBlocks(env, NEW_LEDGER, blocks).value.assets.defs, Chains.AllTxs(blocks))
  {
    hide ApplyBlock, DerivedId;
    if blocks != [] {
      var n := |blocks| - 1;
      BlocksAccounted(env, blocks[..n]);
      hide Accounted, AssetSupply.IssuedMatch;
      AssetSupply.ReachableMatches(env, blocks[..n]);
      BlockAccounted(env, ApplyBlocks(env, NEW_LEDGER, blocks[..n]).value, blocks[n], Chains.AllTxs(blocks[..n]));
    }
  }

  /** The history of an issued asset over a replayed chain: some transaction created it with the terms it has;
      what circulates is what was minted less what was burned, at most the cap that transaction named; nobody but
      its sender minted, and mints and burns happened only if it allowed them. */
  lemma AssetStatement(env: Env, blocks: seq<Block>, id: AssetId) returns (creation: Transaction)
    requires blocks != [] && env.AddressesSound() && Replay(env, blocks).Some?
    requires id in Replay(env, blocks).value.assets.defs && id != NATIVE_ASSET
    ensures
      var book, txs := Replay(env, blocks).value.assets, Chains.AllTxs(blocks);
      && creation in txs && Creates(creation) && TermsOf(book.defs[id], creation)
      && id in book.held && |book.held[id]| == AllMinted(txs, id) - AllBurned(txs, id)
      && (creation.assetMaxSupply > 0 ==> |book.held[id]| <= creation.assetMaxSupply)
      && (forall t :: t in txs && Accounts.Mints(t, id) ==> t.sender == creation.sender && creation.assetMintable)
      && (forall t :: t in txs && Accounts.Burns(t, id) ==> creation.assetBurnable)
  {
    hide ApplyBlocks, Replay, DerivedId, Env.AddressesSound, AllMinted, AllBurned, AssetSupply.IssuedMatch, Accounts.Mints,
         Accounts.Burns;
    ChainSafety.ReplayIsApplyBlocks(env, blocks);
    ChainSafety.ReplayRests(env, blocks);
    BlocksAccounted(env, blocks);
    AssetSupply.ReachableMatches(env, blocks);
    var book, txs := Replay(env, blocks).value.assets, Chains.AllTxs(blocks);
    creation :| creation in txs && HasTerms(book.defs, id, creation);
    AssetSupply.CirculationIsCapped(book, id);
    AssetSupply.HasSupply(book, id);
    assert Circulating(book.defs, id) + AllBurned(txs, id) == AllMinted(txs, id);
    forall t | t in txs
      ensures Permitted(book.defs, t)
    {
    }
  }

  /** Conversely every creation of a replayed chain has its asset, with its terms, for good. */
  lemma CreationStands(env: Env, blocks: seq<Block>, t: Transaction)
    requires blocks != [] && env.AddressesSound() && Replay(env, blocks).Some? && t in Chains.AllTxs(blocks) && Creates(t)
    ensures DerivedId(t.id) in Replay(env, blocks).value.assets.defs
    ensures TermsOf(Replay(env, blocks).value.assets.defs[DerivedId(t.id)], t)
  {
    hide ApplyBlocks, Replay, DerivedId, Env.AddressesSound, TermsOf;
    ChainSafety.ReplayIsApplyBlocks(env, blocks);
    ChainSafety.ReplayRests(env, blocks);
    BlocksAccounted(env, blocks);
  }
}
