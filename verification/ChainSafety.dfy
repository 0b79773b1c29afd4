/** Theorems about every stored chain: it replays, coins are conserved, and with the built-in
    zero subsidy nothing but coinbases can ever be mined. */
module ChainSafety {
  import opened Arith
  import opened Types
  import opened Ledgers
  import opened LedgerInvariant
  import opened Chains
  import Fees
  import MatureLedgers
  import Staking

  // ---------------------------------------------------------------- between blocks

  /** Nothing pending is due at the ledger's own height. */
  ghost predicate NothingDue(env: Env, l: Ledger) {
    forall c :: c in l.pending ==> !Due(env, c, l.height)
  }

  lemma {:induction false} MatureRunIdle(env: Env, l: Ledger, credits: seq<PendingCoinbase>, height: u64)
    requires forall i :: 0 <= i < |credits| ==> !Due(env, credits[i], height)
    ensures MatureRun(env, l, credits, height) == l.(pending := credits)
  {
    hide MatureStep, Due;
    if credits != [] {
      var n := |credits| - 1;
      MatureRunIdle(env, l, credits[..n], height);
      StepIdle(env, l.(pending := credits[..n]), credits[n], height);
      assert credits[..n] + [credits[n]] == credits;
    }
  }

  lemma StepIdle(env: Env, l: Ledger, c: PendingCoinbase, height: u64)
    requires !Due(env, c, height)
    ensures MatureStep(env, l, c, height) == l.(pending := l.pending + [c])
  {
  }

  /** The ledger between two blocks. */
  ghost predicate AtRest(env: Env, l: Ledger) {
    Coherent(env, l) && NothingDue(env, l) && FeePool(l) == 0
  }

  lemma RestIsMatured(env: Env, l: Ledger)
    requires NothingDue(env, l)
    ensures MatureCoinbases(env, l, l.height) == l
  {
    MatureRunIdle(env, l, l.pending, l.height);
  }

  lemma ApplyBlockRests(env: Env, l: Ledger, b: Block)
    requires Coherent(env, l) && env.AddressesSound() && ApplyBlock(env, l, b).Some?
    ensures
      var after := ApplyBlock(env, l, b).value;
      AtRest(env, after) && after.height == b.height && Supply(after) == Supply(l) + Issued(b.txs)
  {
    hide Coherent, Supply, OpenBlock, CloseBlock, ApplyAll, Settle, FeePool, Due, Immature;
    ApplyBlockKeeps(env, l, b);
    var ready := OpenBlock(env, l, b);
    OpenKeeps(env, l, b);
    ApplyAllKeeps(env, ready, b.txs, b.height);
    var applied := ApplyAll(env, ready, b.txs, b.height).value;
    SettleKeeps(env, applied, b);
    var settled := Settle(env, applied, b).value;
    CloseKeeps(env, settled, b);
    ImmatureMembers(env, settled.pending, b.height);
  }

  /** The ledger replayed from any block list is at rest at the height of its last block. */
  lemma ReplayRests(env: Env, blocks: seq<Block>)
    requires blocks != [] && env.AddressesSound() && ApplyBlocks(env, NEW_LEDGER, blocks).Some?
    ensures
      var l := ApplyBlocks(env, NEW_LEDGER, blocks).value;
      && AtRest(env, l) && l.height == blocks[|blocks| - 1].height && Supply(l) == IssuedBy(blocks)
      && Replay(env, blocks) == Some(l)
  {
    hide ApplyBlock, Coherent, Supply, FeePool, Due, MatureCoinbases;
    var n := |blocks| - 1;
    ReachableCoherent(env, blocks[..n]);
    ApplyBlockRests(env, ApplyBlocks(env, NEW_LEDGER, blocks[..n]).value, blocks[n]);
    RestIsMatured(env, ApplyBlocks(env, NEW_LEDGER, blocks).value);
  }

  lemma ReplayIsApplyBlocks(env: Env, blocks: seq<Block>)
    requires blocks != [] && env.AddressesSound()
    ensures Replay(env, blocks) == ApplyBlocks(env, NEW_LEDGER, blocks)
  {
    hide ApplyBlocks, MatureCoinbases;
    if ApplyBlocks(env, NEW_LEDGER, blocks).Some? {
      ReplayRests(env, blocks);
    }
  }

  /** Opening the next block matures nothing, so validation's transaction loop, which skips that
      pass, runs on the same ledger as execution. */
  lemma NextBlockOpensIdle(env: Env, l: Ledger, b: Block)
    requires NothingDue(env, l) && b.height == l.height + 1
    ensures OpenBlock(env, l, b) == l
  {
    hide MatureCoinbases, Due;
    RestIsMatured(env, l);
  }

  // ---------------------------------------------------------------- validation agrees with execution

  ghost function Tip(blocks: seq<Block>): Block
    requires blocks != []
  {
    blocks[|blocks| - 1]
  }

  /** A block accepted on a chain executes exactly when its producer's balance can take the fees:
      the transaction loop of validation has already decided everything else. */
  lemma AcceptedBlockExecutes(rules: Rules, b: Block, prior: seq<Block>)
    requires rules.WellFormed() && prior != [] && ValidBlock(rules, b, prior) && b.height == Tip(prior).height + 1
    ensures
      var before := Replay(rules.env, prior).value;
      var applied := ApplyAll(rules.env, before, b.txs, b.height).value;
      ApplyBlock(rules.env, before, b).Some? <==>
        (rules.env.AssetModel() ==> applied.confirmed[b.miner] + FeePool(applied) <= MAX_U64)
  {
    hide ApplyAll, ApplyBlocks, Coherent, Supply, FeePool, StateRootValid, CloseBlock, Due, CoinbaseCount, SettleFees,
         ResourcesAllowed, TxAllowed, Reward;
    var env := rules.env;
    ReplayIsApplyBlocks(env, prior);
    ReplayRests(env, prior);
    var before := Replay(env, prior).value;
    NextBlockOpensIdle(env, before, b);
    ApplyAllKeeps(env, before, b.txs, b.height);
    if env.AssetModel() {
      SettleFeesIffFits(env, ApplyAll(env, before, b.txs, b.height).value, b.miner);
    }
  }

  lemma OneAccountFits(m: multiset<Address>, a: Address)
    ensures m[a] <= |m|
  {
    assert |m[a := 0]| == |m| - m[a];
  }

  /** When the supply after the block fits in 64 bits, an accepted block always executes. */
  lemma AcceptedBlockExecutesWithinSupply(rules: Rules, b: Block, prior: seq<Block>)
    requires rules.WellFormed() && prior != [] && ValidBlock(rules, b, prior) && b.height == Tip(prior).height + 1
    requires rules.env.AssetModel() ==> IssuedBy(prior) + Issued(b.txs) <= MAX_U64
    ensures ApplyBlock(rules.env, Replay(rules.env, prior).value, b).Some?
  {
    hide ApplyAll, ApplyBlocks, Coherent, FeePool, HeaderValid, TxListAllowed, StateRootValid, ApplyBlock;
    var env := rules.env;
    AcceptedBlockExecutes(rules, b, prior);
    ReplayIsApplyBlocks(env, prior);
    ReplayRests(env, prior);
    var before := Replay(env, prior).value;
    ApplyAllKeeps(env, before, b.txs, b.height);
    OneAccountFits(ApplyAll(env, before, b.txs, b.height).value.confirmed, b.miner);
  }

  // ---------------------------------------------------------------- conservation

  ghost function BurnTotal(txs: seq<Transaction>): nat {
    if txs == [] then 0 else BurnTotal(txs[..|txs| - 1]) + Burned(txs[|txs| - 1])
  }

  lemma {:induction false} IssuedSplits(txs: seq<Transaction>, reward: nat)
    requires forall i :: 0 <= i < |txs| && txs[i].coinbase ==> txs[i].amount == reward
    ensures Issued(txs) == reward * CoinbaseCount(txs) - BurnTotal(txs)
  {
    if txs != [] {
      IssuedSplits(txs[..|txs| - 1], reward);
    }
  }

  lemma {:induction false} LegacyFeesBurn(env: Env, txs: seq<Transaction>)
    requires !env.AssetModel() && forall i :: 0 <= i < |txs| ==> TxVersionActive(txs[i].ProtocolVersion(), env.profile.txVersion)
    ensures BurnTotal(txs) == FeeTotal(env, txs)
  {
    if txs != [] {
      LegacyFeesBurn(env, txs[..|txs| - 1]);
    }
  }

  /** Coins one valid block adds: the subsidy less burned fees with the asset model; before it the
      fixed reward, because the coinbase hands the burned fees back to the producer. */
  function Minted(env: Env): nat {
    if env.AssetModel() then env.profile.blockSubsidy else INITIAL_BLOCK_REWARD
  }

  ghost function BurnedIn(env: Env, b: Block): nat {
    if env.AssetModel() then BurnTotal(b.txs) else 0
  }

  lemma ValidBlockIssues(env: Env, b: Block)
    requires TxListAllowed(env, b) && b.height > 0
    ensures Issued(b.txs) == Minted(env) - BurnedIn(env, b)
  {
    hide CoinbaseCount, FeeTotal;
    var reward := Reward(env, b.txs);
    IssuedSplits(b.txs, reward);
    assert reward * CoinbaseCount(b.txs) == reward;
    if !env.AssetModel() {
      LegacyFeesBurn(env, b.txs);
    }
  }

  ghost function BurnedBy(env: Env, blocks: seq<Block>): nat {
    if blocks == [] then 0 else BurnedBy(env, blocks[..|blocks| - 1]) + BurnedIn(env, blocks[|blocks| - 1])
  }

  lemma {:induction false} ChainIssues(rules: Rules, blocks: seq<Block>, n: nat)
    requires rules.WellFormed() && StoredChain(rules, blocks) && 1 <= n <= |blocks|
    ensures IssuedBy(blocks[..n])
         == Issued(blocks[0].txs) + Minted(rules.env) * (n - 1) - BurnedBy(rules.env, blocks[1..n])
  {
    hide StoredChain, Issued, Minted, BurnedIn;
    if n == 1 {
      assert blocks[..1][..0] == [] && blocks[1..1] == [];
    } else {
      ChainIssues(rules, blocks, n - 1);
      assert blocks[..n][..n - 1] == blocks[..n - 1] && blocks[1..n][..n - 2] == blocks[1..n - 1];
      BlockInChainIssues(rules, blocks, n - 1);
      assert Minted(rules.env) * (n - 1) == Minted(rules.env) * (n - 2) + Minted(rules.env);
    }
  }

  lemma BlockInChainIssues(rules: Rules, blocks: seq<Block>, i: nat)
    requires rules.WellFormed() && StoredChain(rules, blocks) && 1 <= i < |blocks|
    ensures Issued(blocks[i].txs) == Minted(rules.env) - BurnedIn(rules.env, blocks[i])
  {
    hide HeaderValid, Executes, DistinctIds, GenesisAccepted, TxListAllowed, Issued;
    assert ValidBlock(rules, blocks[i], blocks[..i]);
    HeightIsIndex(rules, blocks, i);
    ValidBlockIssues(rules.env, blocks[i]);
  }

  /** Conservation over a whole stored chain: what the genesis issued, plus one subsidy (or reward)
      per block, less the fees of pre-v3 transfers, is exactly what the accounts own; with the asset
      model that is also the native asset's total, and no fee is left in the pool. */
  lemma CoinsAreConserved(rules: Rules, blocks: seq<Block>)
    requires rules.WellFormed() && StoredChain(rules, blocks) && Replay(rules.env, blocks).Some?
    ensures
      var l := Replay(rules.env, blocks).value;
      && |l.confirmed| == Issued(blocks[0].txs) + Minted(rules.env) * (|blocks| - 1) - BurnedBy(rules.env, blocks[1..])
      && FeePool(l) == 0
      && (rules.env.AssetModel() ==> |l.assets.Native()| == |l.confirmed|)
  {
    hide ApplyBlocks, ValidBlock, ViewsAgree, StakeCovered, EntriesExist, Replay;
    ReplayIsApplyBlocks(rules.env, blocks);
    ReplayRests(rules.env, blocks);
    ChainIssues(rules, blocks, |blocks|);
    assert blocks[..|blocks|] == blocks && blocks[1..|blocks|] == blocks[1..];
    if rules.env.AssetModel() {
      SupplyIsNativeTotal(rules.env, Replay(rules.env, blocks).value);
    }
  }

  /** The closed formula "subsidy times height, less burned fees" holds exactly when the genesis
      issued nothing. */
  lemma FormulaIffGenesisIssuesNothing(rules: Rules, blocks: seq<Block>)
    requires rules.WellFormed() && StoredChain(rules, blocks) && Replay(rules.env, blocks).Some?
    ensures |Replay(rules.env, blocks).value.confirmed|
              == Minted(rules.env) * (|blocks| - 1) - BurnedBy(rules.env, blocks[1..])
            <==> Issued(blocks[0].txs) == 0
  {
    hide StoredChain, Replay;
    CoinsAreConserved(rules, blocks);
  }

  /** The genesis check compares header fields only, so a first block with a coinbase in it is
      accepted and its coins exist: an empty genesis has to be ensured by whoever supplies it. */
  lemma GenesisMayCarryCoins(rules: Rules, mint: Transaction)
    requires rules.WellFormed() && mint.coinbase && mint.amount == 7 && rules.env.ValidAddress(mint.recipient)
    ensures
      var blocks := [rules.genesis.(txs := [mint])];
      && ValidChain(rules, blocks)
      && Replay(rules.env, blocks).Some?
      && |Replay(rules.env, blocks).value.confirmed| == 7
  {
    var env := rules.env;
    var g := rules.genesis.(txs := [mint]);
    assert GenesisAccepted(rules, g);
    assert [g][1..] == [];
    assert ValidChain(rules, [g]);
    assert [g][..0] == [] && [mint][..0] == [];
    CoinbaseOnEmpty(env, g, mint);
    ReplayIsApplyBlocks(env, [g]);
    ReplayRests(env, [g]);
    assert Issued([mint]) == 7;
    assert IssuedBy([g]) == 7;
  }

  lemma CoinbaseOnEmpty(env: Env, g: Block, mint: Transaction)
    requires env.AddressesSound() && g.height == 0 && g.txs == [mint]
    requires mint.coinbase && mint.amount == 7 && env.ValidAddress(mint.recipient)
    ensures ApplyBlocks(env, NEW_LEDGER, [g]).Some?
  {
    hide Coherent, Immature, Owed;
    assert [g][..0] == [] && [mint][..0] == [];
    NewLedgerCoherent(env);
    assert ApplyAll(env, NEW_LEDGER, [], 0) == Some(NEW_LEDGER);
    assert ApplyCoinbase(env, NEW_LEDGER, mint, 0).Some?;
    assert ApplyAll(env, NEW_LEDGER, [mint], 0) == ApplyCoinbase(env, NEW_LEDGER, mint, 0);
    CoinbaseKeeps(env, NEW_LEDGER, mint, 0);
    assert CoinbaseCount([mint]) == 1;
    assert ApplyBlock(env, NEW_LEDGER, g).Some?;
  }

  lemma AppliedPrefix(env: Env, blocks: seq<Block>, b: Block)
    requires ApplyBlocks(env, NEW_LEDGER, blocks).Some?
    requires ApplyBlock(env, ApplyBlocks(env, NEW_LEDGER, blocks).value, b).Some?
    ensures ApplyBlocks(env, NEW_LEDGER, blocks + [b]).Some?
  {
    hide ApplyBlock;
    assert (blocks + [b])[..|blocks|] == blocks;
  }

  /** A stored chain always replays when its coins fit in 64 bits: every block executes, fee settlement
      included. */
  lemma StoredChainReplays(rules: Rules, blocks: seq<Block>)
    requires rules.WellFormed() && blocks != [] && StoredChain(rules, blocks)
    requires Replay(rules.env, [blocks[0]]).Some?
    requires rules.env.AssetModel() ==> Issued(blocks[0].txs) + Minted(rules.env) * (|blocks| - 1) <= MAX_U64
    ensures Replay(rules.env, blocks).Some?
  {
    hide *;
    var n := |blocks| - 1;
    if n == 0 {
      assert blocks == [blocks[0]];
    } else {
      var prior, b := blocks[..n], blocks[n];
      assert prior + [b] == blocks && blocks[..n + 1] == blocks;
      StoredChainStep(rules, blocks, n);
      ChainIssues(rules, blocks, n + 1);
      IssuedByLast(prior, b);
      ValidBlockReplaysNext(rules, b, prior);
    }
  }

  lemma IssuedByLast(prior: seq<Block>, b: Block)
    ensures IssuedBy(prior + [b]) == IssuedBy(prior) + Issued(b.txs)
  {
    hide Issued;
    assert (prior + [b])[..|prior|] == prior;
  }

  lemma ValidBlockReplaysNext(rules: Rules, b: Block, prior: seq<Block>)
    requires rules.WellFormed() && prior != [] && ValidBlock(rules, b, prior) && b.height == Tip(prior).height + 1
    requires rules.env.AssetModel() ==> IssuedBy(prior) + Issued(b.txs) <= MAX_U64
    ensures Replay(rules.env, prior + [b]).Some?
  {
    hide Replay, ApplyBlocks, ApplyBlock, HeaderValid, TxListAllowed, StateRootValid, IssuedBy, Issued;
    AcceptedBlockExecutesWithinSupply(rules, b, prior);
    ReplayIsApplyBlocks(rules.env, prior);
    AppliedPrefix(rules.env, prior, b);
    ReplayIsApplyBlocks(rules.env, prior + [b]);
  }

  /** The genesis every node builds locally issues nothing and replays. */
  lemma EmptyGenesisReplays(rules: Rules, g: Block)
    requires rules.WellFormed() && g.height == 0 && g.txs == []
    ensures Replay(rules.env, [g]).Some? && Issued(g.txs) == 0
  {
    hide Coherent, Immature, Owed, MatureRun, MatureCoinbases;
    assert [g][..0] == [];
    assert ApplyBlocks(rules.env, NEW_LEDGER, []) == Some(NEW_LEDGER);
    assert ApplyBlock(rules.env, NEW_LEDGER, g).Some?;
  }

  // ---------------------------------------------------------------- zero subsidy

  /** A ledger with no coins and no stakes. */
  ghost predicate Penniless(env: Env, l: Ledger) {
    Coherent(env, l) && Supply(l) == 0 && l.stakes == map[]
  }

  lemma NothingToSpend(env: Env, l: Ledger, a: Address)
    requires Penniless(env, l)
    ensures l.confirmed[a] == 0 && l.mature[a] == 0
  {
    OneAccountFits(l.confirmed, a);
    MatureIsConfirmed(env, l);
  }

  /** Every transaction other than a coinbase needs a fee, a stake or a balance. */
  lemma NothingExecutes(env: Env, l: Ledger, tx: Transaction)
    requires Penniless(env, l) && !tx.coinbase
    requires env.profile.fee.enabled && env.profile.fee.minFee >= 1
    ensures !ValidTransaction(env, l, tx)
  {
    if ValidTransaction(env, l, tx) {
      NothingToSpend(env, l, tx.sender);
      NothingToSpend(env, l, tx.EffectiveFeePayer());
      hide Coherent, Supply, Staking.Locked, Staking.ActiveCount;
      if tx.ProtocolVersion() == TX_VERSION_ASSET {
        Fees.AcceptablePaysFloor(env, tx);
        FeeStopsV3(env, l, tx);
      }
    }
  }

  lemma FeeStopsV3(env: Env, l: Ledger, tx: Transaction)
    requires tx.fee > 0 && l.confirmed[tx.sender] == 0 && l.confirmed[tx.EffectiveFeePayer()] == 0
    ensures !ExecutableV3(l, tx)
  {
    hide TokenExecutable, Staking.Locked;
  }

  lemma OnlyTheCoinbaseApplies(env: Env, l: Ledger, txs: seq<Transaction>, height: u64)
    requires Penniless(env, l) && env.AddressesSound()
    requires env.profile.fee.enabled && env.profile.fee.minFee >= 1
    requires ApplyAll(env, l, txs, height).Some?
    requires |txs| >= 1 && txs[0].coinbase && txs[0].amount == 0
    requires forall i :: 1 <= i < |txs| ==> !txs[i].coinbase
    ensures |txs| == 1
  {
    hide ApplyAny, Penniless;
    if |txs| > 1 {
      MatureLedgers.PrefixDecides(env, l, txs, 2, height);
      var one := [txs[0]];
      assert txs[..2][..1] == one && one[..0] == [];
      assert ApplyAll(env, l, [], height) == Some(l);
      assert ApplyAll(env, l, one, height) == ApplyAny(env, l, txs[0], height);
      NothingAfterTheCoinbase(env, l, txs[0], txs[1], height);
    }
  }

  lemma NothingAfterTheCoinbase(env: Env, l: Ledger, coinbase: Transaction, tx: Transaction, height: u64)
    requires Penniless(env, l) && env.AddressesSound() && coinbase.coinbase && coinbase.amount == 0 && !tx.coinbase
    requires env.profile.fee.enabled && env.profile.fee.minFee >= 1
    requires ApplyAny(env, l, coinbase, height).Some?
    ensures ApplyAny(env, ApplyAny(env, l, coinbase, height).value, tx, height).None?
  {
    var paid := ApplyCoinbase(env, l, coinbase, height).value;
    CoinbaseKeeps(env, l, coinbase, height);
    hide Coherent, Supply, ValidTransaction, Effect;
    assert paid.stakes == l.stakes;
    NothingExecutes(env, paid, tx);
  }

  lemma {:induction false} OneCoinbaseFirst(txs: seq<Transaction>)
    requires CoinbaseCount(txs) == 1
    requires forall i :: 0 <= i < |txs| && txs[i].coinbase ==> i == 0
    ensures |txs| >= 1 && txs[0].coinbase
  {
    var n := |txs| - 1;
    if n > 0 {
      OneCoinbaseFirst(txs[..n]);
    }
  }

  /** One coinbase of nothing, and nothing else. */
  predicate BareBlock(b: Block) {
    |b.txs| == 1 && b.txs[0].coinbase && b.txs[0].amount == 0
  }

  /** The settings of every built-in network: asset model, no subsidy, a fee floor. */
  predicate FeeOnly(env: Env) {
    env.AssetModel() && env.profile.blockSubsidy == 0 && env.profile.fee.enabled && env.profile.fee.minFee >= 1
  }

  lemma FeeOnlyBlockIsBare(rules: Rules, b: Block, prior: seq<Block>)
    requires rules.WellFormed() && FeeOnly(rules.env) && prior != [] && b.height > 0
    requires ValidBlock(rules, b, prior) && Penniless(rules.env, Replay(rules.env, prior).value)
    ensures BareBlock(b)
  {
    hide ApplyAll, Replay, Penniless, HeaderValid, StateRootValid, CoinbaseCount, FeeTotal;
    OneCoinbaseFirst(b.txs);
    OnlyTheCoinbaseApplies(rules.env, Replay(rules.env, prior).value, b.txs, b.height);
  }

  lemma BareBlockKeepsPenniless(env: Env, l: Ledger, b: Block)
    requires Penniless(env, l) && env.AddressesSound() && ApplyBlock(env, l, b).Some?
    requires BareBlock(b)
    ensures Penniless(env, ApplyBlock(env, l, b).value)
  {
    ApplyBlockKeeps(env, l, b);
    assert b.txs[..0] == [] && b.txs == [b.txs[0]];
    assert Issued(b.txs) == 0;
    hide Coherent, SettleFees, Staking.Refresh, MatureRun;
    NoStakesAppear(env, l, b);
  }

  lemma NoStakesAppear(env: Env, l: Ledger, b: Block)
    requires l.stakes == map[] && ApplyBlock(env, l, b).Some?
    requires |b.txs| == 1 && b.txs[0].coinbase
    ensures ApplyBlock(env, l, b).value.stakes == map[]
  {
    hide MatureRun, SettleFees, CoinbaseCount;
    if b.height > 0 {
      MatureRunKeepsStakes(env, l, l.pending, b.height - 1);
    }
    var ready := OpenBlock(env, l, b);
    assert b.txs[..0] == [] && ApplyAll(env, ready, [], b.height) == Some(ready);
    var applied := ApplyAll(env, ready, b.txs, b.height).value;
    assert Some(applied) == ApplyCoinbase(env, ready, b.txs[0], b.height);
    var settled := Settle(env, applied, b).value;
    assert settled.stakes == map[] by {
      SettleKeepsStakes(env, applied, b);
    }
    assert Staking.Refresh(map[], b.height) == map[];
    var closing := settled.(height := b.height, stakes := map[]);
    MatureRunKeepsStakes(env, closing, closing.pending, b.height);
  }

  lemma SettleKeepsStakes(env: Env, l: Ledger, b: Block)
    ensures Settle(env, l, b).Some? ==> Settle(env, l, b).value.stakes == l.stakes
  {
  }

  lemma {:induction false} MatureRunKeepsStakes(env: Env, l: Ledger, credits: seq<PendingCoinbase>, height: u64)
    ensures MatureRun(env, l, credits, height).stakes == l.stakes
  {
    if credits != [] {
      MatureRunKeepsStakes(env, l, credits[..|credits| - 1], height);
    }
  }

  ghost predicate AllBare(blocks: seq<Block>) {
    forall i :: 1 <= i < |blocks| ==> BareBlock(blocks[i])
  }

  /** A stored chain taken apart at its tip. */
  lemma ChainSplits(rules: Rules, blocks: seq<Block>)
    requires rules.WellFormed() && StoredChain(rules, blocks) && |blocks| > 1
    ensures
      var n := |blocks| - 1;
      && blocks == blocks[..n] + [blocks[n]] && blocks[..n][0] == blocks[0]
      && StoredChain(rules, blocks[..n])
      && ValidBlock(rules, blocks[n], blocks[..n])
      && blocks[n].height == Tip(blocks[..n]).height + 1
  {
    hide StoredChain, ValidBlock;
    var n := |blocks| - 1;
    assert blocks == blocks[..n] + [blocks[n]];
    StoredGrows(rules, blocks[..n], blocks[n]);
  }

  lemma {:induction false} FeeOnlyChainIsPenniless(rules: Rules, blocks: seq<Block>)
    requires rules.WellFormed() && FeeOnly(rules.env) && StoredChain(rules, blocks) && blocks[0].txs == []
    ensures Replay(rules.env, blocks).Some? && Penniless(rules.env, Replay(rules.env, blocks).value) && AllBare(blocks)
  {
    StoredChainStarts(rules, blocks);
    hide Replay, Penniless, StoredChain, FeeOnly, BareBlock, Rules.WellFormed, ValidBlock;
    if |blocks| == 1 {
      assert blocks == [blocks[0]];
      GenesisIsPenniless(rules, blocks[0]);
    } else {
      var n := |blocks| - 1;
      ChainSplits(rules, blocks);
      FeeOnlyChainIsPenniless(rules, blocks[..n]);
      FeeOnlyStep(rules, blocks[n], blocks[..n]);
    }
  }

  lemma StoredChainStarts(rules: Rules, blocks: seq<Block>)
    requires rules.WellFormed() && StoredChain(rules, blocks)
    ensures blocks != [] && blocks[0].height == 0
  {
  }

  lemma StoredChainStep(rules: Rules, blocks: seq<Block>, i: nat)
    requires rules.WellFormed() && StoredChain(rules, blocks) && 1 <= i < |blocks|
    ensures ValidBlock(rules, blocks[i], blocks[..i])
    ensures blocks[i].height == Tip(blocks[..i]).height + 1
  {
    hide ValidBlock, GenesisAccepted, DistinctIds;
    assert LinkedAt(blocks, i);
  }

  lemma FeeOnlyStep(rules: Rules, b: Block, prior: seq<Block>)
    requires rules.WellFormed() && FeeOnly(rules.env) && prior != [] && b.height == Tip(prior).height + 1
    requires ValidBlock(rules, b, prior)
    requires Replay(rules.env, prior).Some? && Penniless(rules.env, Replay(rules.env, prior).value)
    ensures BareBlock(b)
    ensures Replay(rules.env, prior + [b]).Some? && Penniless(rules.env, Replay(rules.env, prior + [b]).value)
  {
    hide Replay, Penniless, ApplyBlock, HeaderValid, TxListAllowed, StateRootValid;
    FeeOnlyBlockIsBare(rules, b, prior);
    BareChainReplays(rules, b, prior);
    BareBlockKeepsPenniless(rules.env, Replay(rules.env, prior).value, b);
    ReplayIsApplyBlocks(rules.env, prior);
    ReplayIsApplyBlocks(rules.env, prior + [b]);
    assert (prior + [b])[..|prior|] == prior;
  }

  lemma BareChainReplays(rules: Rules, b: Block, prior: seq<Block>)
    requires rules.WellFormed() && prior != [] && ValidBlock(rules, b, prior) && b.height == Tip(prior).height + 1
    requires Penniless(rules.env, Replay(rules.env, prior).value)
    requires BareBlock(b)
    ensures ApplyBlock(rules.env, Replay(rules.env, prior).value, b).Some?
  {
    hide HeaderValid, TxListAllowed, StateRootValid, ApplyBlock, ApplyBlocks, Coherent;
    ReplayIsApplyBlocks(rules.env, prior);
    ReplayRests(rules.env, prior);
    assert b.txs[..0] == [];
    AcceptedBlockExecutesWithinSupply(rules, b, prior);
  }

  lemma GenesisIsPenniless(rules: Rules, g: Block)
    requires rules.WellFormed() && g.height == 0 && g.txs == []
    ensures Replay(rules.env, [g]).Some? && Penniless(rules.env, Replay(rules.env, [g]).value)
  {
    hide Coherent, Immature, Owed, MatureRun;
    EmptyGenesisReplays(rules, g);
    ReplayRests(rules.env, [g]);
    assert [g][..0] == [];
    assert NEW_LEDGER.stakes == map[];
    assert Staking.Refresh(map[], 0) == map[];
    assert ApplyAll(rules.env, NEW_LEDGER, [], 0) == Some(NEW_LEDGER);
    var closing := NEW_LEDGER;
    MatureRunKeepsStakes(rules.env, closing, [], 0);
  }

  /** On every built-in network a stored chain over an empty genesis contains nothing but one
      zero-amount coinbase per block: no other transaction can ever be funded. */
  lemma FeeOnlyChainsAreBare(rules: Rules, blocks: seq<Block>)
    requires rules.WellFormed() && FeeOnly(rules.env) && StoredChain(rules, blocks) && blocks[0].txs == []
    ensures forall i :: 1 <= i < |blocks| ==> BareBlock(blocks[i])
  {
    hide Replay, Penniless, StoredChain;
    FeeOnlyChainIsPenniless(rules, blocks);
  }
}
