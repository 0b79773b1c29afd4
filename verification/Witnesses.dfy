/** Inputs on which the code departs from what is said about it. One profile is fixed, with the asset model,
    a subsidy of 10 and no staking; hashes, signatures, addresses and mined blocks are any that fit it. */
module Witnesses {
  import opened Arith
  import opened Types
  import opened Ledgers
  import opened LedgerInvariant
  import opened Chains
  import ChainHistory
  import ChainSafety
  import Difficulty
  import Execution
  import Explorer
  import ForkChoice
  import Locators
  import Merkle
  import Nodes
  import Preimages
  import SimpleLedgers
  import Staking
  import Text

  const SUBSIDY: u64 := 10
  const PROFILE: Profile :=
    Profile(3, 1, 0, 0, 0, 0, 0, StakingParams(false, 0, 0, 0), FeeParams(false, 0, 0, 0, 0, kind => 0, 0),
            DifficultyParams(0, 0, 0, 0, 0, 0), SUBSIDY, false, 0, 0)

  /** Rules with this profile, an ideal hash for ids, and a genesis that is not from the future. */
  ghost predicate Setting(rules: Rules) {
    && Nodes.Ready(rules) && rules.env.profile == PROFILE && Preimages.IdsName(rules.env) && Preimages.IdsFollow(rules.env)
    && rules.genesis.timestamp <= rules.now + 900 && rules.genesis.difficulty <= 4
  }

  /** `b` was mined on `parent`: everything of its header fits, its hash meets the target. */
  predicate Mined(rules: Rules, parent: Block, b: Block) {
    && b.ProtocolVersion() == 1 && parent.height < MAX_U64 && b.height == parent.height + 1
    && b.previousHash == parent.hash && b.timestamp == rules.genesis.timestamp && b.difficulty == 4
    && rules.env.ValidAddress(b.miner) && |b.txs| <= 2
    && b.hash == HashOf(rules.env, b) && b.merkleRoot == rules.env.oracle.merkleRoot(b.txs)
    && (forall i :: 0 <= i < |b.txs| ==> rules.env.oracle.txBytes(b.txs[i]) <= DEFAULT_MAX_TX_BYTES)
    && rules.env.oracle.blockBytes(b) <= DEFAULT_MAX_BLOCK_BYTES
    && rules.env.oracle.meetsTarget(b.hash, 4)
  }

  /** A coinbase paying the subsidy. */
  predicate Pays(env: Env, tx: Transaction, to: Address) {
    && tx.coinbase && tx.sender == COINBASE_SENDER && tx.recipient == to && tx.amount == SUBSIDY
    && TxVersionActive(tx.ProtocolVersion(), 3) && env.oracle.txId(tx) == Some(tx.id) && tx.id != ""
    && env.ValidAddress(to)
  }

  /** A block with nothing but the coinbase that pays `to`. */
  predicate PaysOnly(rules: Rules, b: Block, to: Address) {
    |b.txs| == 1 && Pays(rules.env, b.txs[0], to)
  }

  lemma SettingParts(rules: Rules)
    requires Setting(rules)
    ensures rules.WellFormed() && rules.env.AddressesSound() && rules.env.AssetModel() && Nodes.Ready(rules)
  {
  }

  // ---------------------------------------------------------------- mining

  /** A stored chain of mined blocks, with what the next block needs to know of it. */
  ghost predicate Grown(rules: Rules, blocks: seq<Block>) {
    && StoredChain(rules, blocks) && 1 <= |blocks| <= 8 && blocks[0] == rules.genesis
    && Replay(rules.env, blocks).Some? && IssuedBy(blocks) <= SUBSIDY * (|blocks| - 1)
    && (forall i :: 1 <= i < |blocks| ==> Mined(rules, blocks[i - 1], blocks[i]))
    && blocks[|blocks| - 1].height == |blocks| - 1
  }

  lemma GrownIsStored(rules: Rules, blocks: seq<Block>)
    requires Grown(rules, blocks)
    ensures StoredChain(rules, blocks) && Replay(rules.env, blocks).Some? && blocks != [] && blocks[0] == rules.genesis
  {
    hide StoredChain, Replay, IssuedBy, Mined;
  }

  lemma GenesisGrown(rules: Rules)
    requires Setting(rules)
    ensures Grown(rules, [rules.genesis])
  {
    SettingParts(rules);
    assert rules.genesis.txs == [] && rules.genesis.height == 0;
    assert IssuedBy([]) == 0;
    hide Replay, IssuedBy, Rules.WellFormed, Nodes.Ready, Setting, Env.AddressesSound;
    Nodes.GenesisStored(rules);
    ChainSafety.EmptyGenesisReplays(rules, rules.genesis);
    ChainSafety.IssuedByLast([], rules.genesis);
    assert [] + [rules.genesis] == [rules.genesis];
  }

  lemma {:induction false} NoGas(env: Env, txs: seq<Transaction>)
    requires env.profile == PROFILE
    ensures GasTotal(env, txs) == Some(0)
  {
    if txs != [] {
      NoGas(env, txs[..|txs| - 1]);
    }
  }

  lemma FourNext(blocks: seq<Block>)
    requires blocks != [] && blocks[|blocks| - 1].height < 8
    requires blocks[|blocks| - 1].height > 0 ==> blocks[|blocks| - 1].difficulty == 4
    ensures Difficulty.Next(blocks, PROFILE.difficulty) == 4
  {
  }

  lemma ResourcesFit(rules: Rules, parent: Block, b: Block)
    requires Mined(rules, parent, b) && rules.env.profile == PROFILE
    ensures ResourcesAllowed(rules.env, b)
  {
    hide HashOf, GasTotal;
    NoGas(rules.env, b.txs);
  }

  lemma HeaderFits(rules: Rules, prior: seq<Block>, b: Block)
    requires Setting(rules) && Grown(rules, prior) && Mined(rules, prior[|prior| - 1], b)
    ensures HeaderValid(rules, b, prior)
  {
    var tip := prior[|prior| - 1];
    TipOf(rules, prior);
    ResourcesFit(rules, tip, b);
    FourNext(prior);
    hide Replay, StoredChain, IssuedBy, Nodes.Ready, Preimages.IdsName, HashOf, Grown, Difficulty.Next, ResourcesAllowed;
  }

  lemma TipOf(rules: Rules, blocks: seq<Block>)
    requires Grown(rules, blocks)
    ensures blocks[|blocks| - 1].timestamp == rules.genesis.timestamp && blocks[|blocks| - 1].height == |blocks| - 1 < 8
    ensures |blocks| > 1 ==> blocks[|blocks| - 1].difficulty == 4
  {
    hide StoredChain, Replay, IssuedBy, HashOf;
    if |blocks| > 1 {
      assert Mined(rules, blocks[|blocks| - 2], blocks[|blocks| - 1]);
    }
  }

  /** A mined block whose transactions are allowed and apply extends the chain. */
  lemma Extends(rules: Rules, prior: seq<Block>, b: Block)
    requires Setting(rules) && Grown(rules, prior) && |prior| < 8 && Mined(rules, prior[|prior| - 1], b)
    requires TxListAllowed(rules.env, b) && ApplyAll(rules.env, Replay(rules.env, prior).value, b.txs, b.height).Some?
    requires 0 <= Issued(b.txs) <= SUBSIDY
    ensures Grown(rules, prior + [b])
  {
    SettingParts(rules);
    HeaderFits(rules, prior, b);
    hide Replay, ApplyAll, StoredChain, TxListAllowed, Rules.WellFormed, HeaderValid, IssuedBy, Issued, Setting, Nodes.Ready;
    assert b.ProtocolVersion() == 1;
    assert ValidNext(rules, b, prior);
    StoredGrows(rules, prior, b);
    ChainSafety.ValidBlockReplaysNext(rules, b, prior);
    ChainSafety.IssuedByLast(prior, b);
    GrownMore(rules, prior, b);
  }

  lemma GrownMore(rules: Rules, prior: seq<Block>, b: Block)
    requires Grown(rules, prior) && |prior| < 8 && Mined(rules, prior[|prior| - 1], b)
    requires StoredChain(rules, prior + [b]) && Replay(rules.env, prior + [b]).Some?
    requires IssuedBy(prior + [b]) <= SUBSIDY * |prior|
    ensures Grown(rules, prior + [b])
  {
    var blocks := prior + [b];
    assert b.height == |prior|;
    hide StoredChain, Replay, IssuedBy, Mined;
    forall i | 1 <= i < |blocks|
      ensures Mined(rules, blocks[i - 1], blocks[i])
    {
      if i < |prior| {
        assert Mined(rules, prior[i - 1], prior[i]);
      }
    }
  }

  lemma OneCoinbase(rules: Rules, b: Block, to: Address)
    requires rules.env.profile == PROFILE && PaysOnly(rules, b, to) && b.height > 0
    ensures TxListAllowed(rules.env, b) && Issued(b.txs) == SUBSIDY
  {
    var txs := b.txs;
    assert txs[..0] == [] && txs[|txs| - 1] == txs[0];
    assert CoinbaseCount([]) == 0 && FeeTotal(rules.env, []) == 0 && Issued([]) == 0;
    assert CoinbaseCount(txs) == 1 && FeeTotal(rules.env, txs) == 0 && Issued(txs) == SUBSIDY;
  }

  lemma CoinbaseApplies(rules: Rules, l: Ledger, tx: Transaction, to: Address, height: u64)
    requires Setting(rules) && Coherent(rules.env, l) && Pays(rules.env, tx, to) && l.confirmed[to] + SUBSIDY <= MAX_U64
    ensures ApplyCoinbase(rules.env, l, tx, height).Some?
    ensures ApplyAll(rules.env, l, [tx], height) == ApplyCoinbase(rules.env, l, tx, height)
  {
    SettingParts(rules);
    assert !Text.Blank(to) && to != FEE_COLLECTOR;
    assert [tx][..0] == [];
    assert ApplyAll(rules.env, l, [], height) == Some(l);
    assert l.assets.Native()[to] == l.confirmed[to];
    hide Text.Blank, Setting, Nodes.Ready;
  }

  /** Every chain grown here takes another mined block with nothing but its coinbase. */
  lemma CoinbaseExtends(rules: Rules, prior: seq<Block>, b: Block, to: Address)
    requires Setting(rules) && Grown(rules, prior) && |prior| < 8
    requires Mined(rules, prior[|prior| - 1], b) && PaysOnly(rules, b, to)
    ensures Grown(rules, prior + [b])
  {
    SettingParts(rules);
    GrownIsStored(rules, prior);
    SupplyFits(rules, prior, to);
    hide Replay, ApplyAll, StoredChain, TxListAllowed, Rules.WellFormed, IssuedBy, Issued, Coherent, ApplyCoinbase, Grown,
         Setting, Nodes.Ready, Pays;
    CoinbaseApplies(rules, Replay(rules.env, prior).value, b.txs[0], to, b.height);
    assert b.txs == [b.txs[0]];
    OneCoinbase(rules, b, to);
    Extends(rules, prior, b);
  }

  lemma SupplyFits(rules: Rules, blocks: seq<Block>, a: Address)
    requires Setting(rules) && Grown(rules, blocks)
    ensures Coherent(rules.env, Replay(rules.env, blocks).value)
    ensures Replay(rules.env, blocks).value.confirmed[a] <= SUBSIDY * 8
  {
    SettingParts(rules);
    hide Replay, StoredChain, IssuedBy, Coherent, Setting, Nodes.Ready, Mined, Rules.WellFormed, FeePool, ChainSafety.NothingDue;
    ChainSafety.ReplayIsApplyBlocks(rules.env, blocks);
    ChainSafety.ReplayRests(rules.env, blocks);
    ChainSafety.OneAccountFits(Replay(rules.env, blocks).value.confirmed, a);
  }

  lemma FirstGrown(rules: Rules, first: Block, to: Address)
    requires Setting(rules) && Mined(rules, rules.genesis, first) && PaysOnly(rules, first, to)
    ensures Grown(rules, [rules.genesis]) && Grown(rules, [rules.genesis, first])
  {
    hide Grown, Setting, Mined;
    GenesisGrown(rules);
    CoinbaseExtends(rules, [rules.genesis], first, to);
    assert [rules.genesis] + [first] == [rules.genesis, first];
  }

  lemma SecondGrown(rules: Rules, first: Block, second: Block, to: Address, next: Address)
    requires Setting(rules) && Mined(rules, rules.genesis, first) && PaysOnly(rules, first, to)
    requires Mined(rules, first, second) && PaysOnly(rules, second, next)
    ensures Grown(rules, [rules.genesis, first, second])
  {
    hide Grown, Setting, Mined;
    FirstGrown(rules, first, to);
    CoinbaseExtends(rules, [rules.genesis, first], second, next);
    assert [rules.genesis, first] + [second] == [rules.genesis, first, second];
  }

  lemma AllTxsOfTwo(b: Block, c: Block)
    ensures AllTxs([b]) == b.txs && AllTxs([b, c]) == b.txs + c.txs
  {
    AllTxsAppend([], b);
    AllTxsAppend([b], c);
    assert [] + [b] == [b] && [b] + [c] == [b, c] && AllTxs([]) == [];
  }

  // ---------------------------------------------------------------- coinbases with one id

  /** Two blocks with one and the same coinbase: each was accepted on the other and the chain replays, but
      whole-chain validation refuses it. */
  lemma StoredButNotValid(rules: Rules, first: Block, second: Block, to: Address)
    requires Setting(rules) && Mined(rules, rules.genesis, first) && PaysOnly(rules, first, to)
    requires Mined(rules, first, second) && second.txs == first.txs
    ensures
      var blocks := [rules.genesis, first, second];
      StoredChain(rules, blocks) && Replay(rules.env, blocks).Some? && !ValidChain(rules, blocks)
  {
    hide Grown, Setting, Mined, StoredChain, Replay;
    var blocks := [rules.genesis, first, second];
    SecondGrown(rules, first, second, to, to);
    GrownIsStored(rules, blocks);
    AllTxsOfTwo(first, second);
    assert blocks[1..] == [first, second];
    hide AllTxs;
    var txs := AllTxs(blocks[1..]);
    assert txs[0].id == txs[1].id;
  }

  // ---------------------------------------------------------------- plans that cannot be stored

  /** A peer that offers these blocks above the common genesis. */
  function Offering(genesis: Block, branch: seq<Block>): ForkChoice.Peer
    requires |branch| <= 7
  {
    ForkChoice.Peer(|branch|, [Locators.Entry(0, genesis.hash)],
                    (h: u64) => if 1 <= h <= |branch| then Some(branch[h - 1]) else None)
  }

  lemma {:induction false} OfferedWhole(genesis: Block, branch: seq<Block>, n: nat)
    requires |branch| <= 7 && 1 <= n <= |branch|
    ensures ForkChoice.Fetched(Offering(genesis, branch), 1, n) == Some(branch[..n])
  {
    if n == 1 {
      assert branch[..1] == [branch[0]];
    } else {
      OfferedWhole(genesis, branch, n - 1);
      assert branch[..n] == branch[..n - 1] + [branch[n - 1]];
    }
  }

  /** Mined blocks above a genesis: heights count up and difficulties are 4. */
  predicate OurBlocks(rules: Rules, blocks: seq<Block>) {
    && blocks != [] && blocks[0] == rules.genesis && rules.genesis.height == 0 && rules.genesis.difficulty <= 4
    && forall i :: 1 <= i < |blocks| ==> blocks[i].difficulty == 4 && blocks[i].height > 0
  }

  lemma GrownAreOurs(rules: Rules, blocks: seq<Block>)
    requires Setting(rules) && Grown(rules, blocks)
    ensures OurBlocks(rules, blocks)
  {
    assert rules.genesis.height == 0;
    hide StoredChain, Replay, IssuedBy, Nodes.Ready, HashOf;
    forall i | 1 <= i < |blocks|
      ensures blocks[i].difficulty == 4 && blocks[i].height > 0
    {
      assert Mined(rules, blocks[i - 1], blocks[i]);
    }
  }

  lemma {:induction false} FourEach(rules: Rules, blocks: seq<Block>)
    requires OurBlocks(rules, blocks)
    ensures Difficulty.TotalWork(blocks) == Difficulty.BlockWork(rules.genesis.difficulty) + 65536 * (|blocks| - 1)
  {
    if |blocks| > 1 {
      FourEach(rules, blocks[..|blocks| - 1]);
      assert Difficulty.Power16(4) == 65536;
    } else {
      assert blocks[..0] == [] && Difficulty.TotalWork([]) == 0;
    }
  }

  lemma SmallWork(d: nat)
    requires d <= 4
    ensures Difficulty.BlockWork(d) <= 65536
  {
    Difficulty.PowerGrows(d, 4);
    assert Difficulty.Power16(4) == 65536;
  }

  lemma {:induction false} GenesisHash(rules: Rules, blocks: seq<Block>)
    requires OurBlocks(rules, blocks)
    ensures Locators.HashAt(blocks, 0) == Some(rules.genesis.hash)
  {
    if |blocks| > 1 {
      GenesisHash(rules, blocks[..|blocks| - 1]);
    }
  }

  lemma MoreWork(rules: Rules, blocks: seq<Block>, theirs: seq<Block>)
    requires OurBlocks(rules, blocks) && OurBlocks(rules, theirs) && |blocks| < |theirs| <= 8
    ensures ForkChoice.Work(theirs) > ForkChoice.Work(blocks)
  {
    FourEach(rules, blocks);
    FourEach(rules, theirs);
    SmallWork(rules.genesis.difficulty);
    hide OurBlocks, Difficulty.TotalWork, Difficulty.BlockWork;
  }

  lemma CloseEnough(rules: Rules, blocks: seq<Block>, branch: seq<Block>)
    requires OurBlocks(rules, blocks) && rules.env.profile == PROFILE && |blocks| <= |branch| <= 7
    ensures Locators.FirstMatch(blocks, Offering(rules.genesis, branch).locator) == Some(Locators.Entry(0, rules.genesis.hash))
    ensures ForkChoice.InReach(rules, blocks, Offering(rules.genesis, branch), 64)
  {
    GenesisHash(rules, blocks);
    hide Locators.HashAt, OurBlocks;
  }

  /** A longer chain is worth switching to, whatever is below it. */
  lemma {:induction false} WorthSwitching(rules: Rules, blocks: seq<Block>, branch: seq<Block>)
    requires Setting(rules) && OurBlocks(rules, blocks) && OurBlocks(rules, [rules.genesis] + branch)
    requires |blocks| <= |branch| <= 7 && ValidChain(rules, [rules.genesis] + branch)
    ensures
      var peer := Offering(rules.genesis, branch);
      && Locators.FirstMatch(blocks, peer.locator) == Some(Locators.Entry(0, rules.genesis.hash))
      && peer.height == |branch| && ForkChoice.Fetched(peer, 1, |branch|) == Some(branch)
      && ForkChoice.ChainWith(blocks, 0, branch) == [rules.genesis] + branch
      && ForkChoice.WorthReorg(rules, blocks, peer, 64) && ForkChoice.WorthReorg(rules, blocks, peer, |blocks|)
  {
    var theirs := [rules.genesis] + branch;
    assert blocks[..1] == [rules.genesis] && rules.env.profile == PROFILE;
    hide ValidChain, ForkChoice.Fetched, ForkChoice.InReach, ForkChoice.Work, OurBlocks, Locators.FirstMatch, Setting;
    CloseEnough(rules, blocks, branch);
    OfferedWhole(rules.genesis, branch, |branch|);
    assert branch[..|branch|] == branch;
    MoreWork(rules, blocks, theirs);
    assert ForkChoice.ChainWith(blocks, 0, branch) == theirs;
    ForkChoice.WorthAtAnyDepth(rules, blocks, Offering(rules.genesis, branch), 64);
  }

  lemma FirstValid(rules: Rules, first: Block, to: Address)
    requires Setting(rules) && Mined(rules, rules.genesis, first) && PaysOnly(rules, first, to)
    ensures Grown(rules, [rules.genesis, first]) && ValidChain(rules, [rules.genesis, first])
    ensures OurBlocks(rules, [rules.genesis]) && OurBlocks(rules, [rules.genesis, first])
  {
    var blocks := [rules.genesis, first];
    assert DistinctIds(first.txs);
    hide StoredChain, Replay, IssuedBy, DistinctIds, AllTxs, Grown, Setting, Mined, PaysOnly;
    FirstGrown(rules, first, to);
    GrownIsStored(rules, blocks);
    GrownAreOurs(rules, [rules.genesis]);
    GrownAreOurs(rules, blocks);
    AllTxsOfTwo(first, first);
    assert blocks[1..] == [first];
  }

  lemma PairDistinct(x: seq<Transaction>, y: seq<Transaction>)
    requires |x| == 1 && |y| == 1 && x[0].id != "" && y[0].id != "" && x[0].id != y[0].id
    ensures DistinctIds(x + y)
  {
  }

  lemma SecondValid(rules: Rules, first: Block, second: Block, to: Address, next: Address)
    requires Setting(rules) && Mined(rules, rules.genesis, first) && PaysOnly(rules, first, to)
    requires Mined(rules, first, second) && PaysOnly(rules, second, next) && first.txs[0].id != second.txs[0].id
    ensures Grown(rules, [rules.genesis, first, second]) && ValidChain(rules, [rules.genesis, first, second])
    ensures OurBlocks(rules, [rules.genesis, first, second])
  {
    hide StoredChain, Replay, IssuedBy, DistinctIds, AllTxs, Grown, Setting, Mined;
    var blocks := [rules.genesis, first, second];
    PairDistinct(first.txs, second.txs);
    hide PaysOnly;
    SecondGrown(rules, first, second, to, next);
    GrownIsStored(rules, blocks);
    GrownAreOurs(rules, blocks);
    AllTxsOfTwo(first, second);
    assert blocks[1..] == [first, second];
  }

  /** A node that is behind: the peer's chain only adds a block to its own. The plan is to apply it, and
      the store refuses it, though it replays and its root is no obstacle. */
  lemma AllowedButNotAboveTip(rules: Rules, first: Block, to: Address)
    requires Setting(rules) && Mined(rules, rules.genesis, first) && PaysOnly(rules, first, to) && first.stateRoot == ""
    ensures
      var blocks, peer := [rules.genesis], Offering(rules.genesis, [first]);
      && StoredChain(rules, blocks)
      && ForkChoice.WorthReorg(rules, blocks, peer, 64) && ForkChoice.WorthReorg(rules, blocks, peer, |blocks|)
      && !ForkChoice.Storable(rules, blocks, peer)
      && Replay(rules.env, [rules.genesis, first]).Some? && Nodes.LegacyRootHolds(rules, [rules.genesis, first])
  {
    hide StoredChain, ValidChain, Replay, IssuedBy, ForkChoice.WorthReorg, ForkChoice.Fetched, Locators.FirstMatch, OurBlocks,
         Setting, Mined, Grown, PaysOnly, Nodes.StateOf, ForkChoice.ChainWith, Offering;
    var blocks := [rules.genesis];
    FirstGrown(rules, first, to);
    GrownIsStored(rules, blocks);
    GrownIsStored(rules, [rules.genesis, first]);
    FirstValid(rules, first, to);
    assert [rules.genesis] + [first] == [rules.genesis, first];
    WorthSwitching(rules, blocks, [first]);
  }

  /** A branch that validates, replays and has more work, but whose pre-canonical tip records a root that
      is no state's: validation ignores it and the store does not. */
  lemma AllowedButWrongRoot(rules: Rules, first: Block, second: Block, to: Address, next: Address)
    requires Setting(rules) && Mined(rules, rules.genesis, first) && PaysOnly(rules, first, to)
    requires Mined(rules, first, second) && PaysOnly(rules, second, next) && first.txs[0].id != second.txs[0].id
    requires second.stateRoot != "" && forall s :: rules.root(s) != second.stateRoot
    ensures
      var blocks, peer := [rules.genesis, first], Offering(rules.genesis, [first, second]);
      var whole := [rules.genesis, first, second];
      && StoredChain(rules, blocks) && ValidChain(rules, whole) && Replay(rules.env, whole).Some?
      && ForkChoice.WorthReorg(rules, blocks, peer, 64) && ForkChoice.WorthReorg(rules, blocks, peer, |blocks|)
      && !ForkChoice.Storable(rules, blocks, peer) && !Nodes.LegacyRootHolds(rules, whole)
  {
    assert second.ProtocolVersion() == 1;
    hide StoredChain, ValidChain, Replay, IssuedBy, ForkChoice.WorthReorg, ForkChoice.Fetched, Locators.FirstMatch, OurBlocks,
         Setting, Mined, Grown, PaysOnly, Nodes.StateOf, ForkChoice.ChainWith, Offering;
    var blocks, whole := [rules.genesis, first], [rules.genesis, first, second];
    FirstValid(rules, first, to);
    GrownIsStored(rules, blocks);
    SecondValid(rules, first, second, to, next);
    GrownIsStored(rules, whole);
    assert [rules.genesis] + [first, second] == whole;
    WorthSwitching(rules, blocks, [first, second]);
  }

  // ---------------------------------------------------------------- a burned fee

  /** `a` owns the first subsidy, all of it mature; nobody has staked anything, and `a` has sent nothing. */
  ghost predicate OwnsSubsidy(env: Env, l: Ledger, a: Address) {
    && Coherent(env, l) && Supply(l) == SUBSIDY && l.height == 1 && l.stakes == map[]
    && l.confirmed[a] == SUBSIDY && l.mature[a] == SUBSIDY && l.nonces[a] == 0
  }

  lemma AfterGenesis(rules: Rules)
    requires Setting(rules)
    ensures
      var l := Replay(rules.env, [rules.genesis]);
      && l.Some? && ChainSafety.AtRest(rules.env, l.value) && l.value.height == 0
      && ChainSafety.Penniless(rules.env, l.value)
  {
    SettingParts(rules);
    assert rules.genesis.txs == [] && rules.genesis.height == 0;
    hide Replay, Coherent, Supply, Rules.WellFormed, FeePool, ChainSafety.NothingDue, Setting, Nodes.Ready;
    ChainSafety.GenesisIsPenniless(rules, rules.genesis);
    ChainSafety.ReplayIsApplyBlocks(rules.env, [rules.genesis]);
    ChainSafety.ReplayRests(rules.env, [rules.genesis]);
  }

  /** The first block, step by step, on a ledger where nobody owns anything. */
  lemma FirstApplied(rules: Rules, l: Ledger, first: Block, to: Address)
    requires Setting(rules) && ChainSafety.AtRest(rules.env, l) && ChainSafety.Penniless(rules.env, l) && l.height == 0
    requires PaysOnly(rules, first, to) && first.height == 1
    ensures ApplyBlock(rules.env, l, first).Some?
    ensures
      var after := ApplyBlock(rules.env, l, first).value;
      && after.confirmed == l.confirmed[to := l.confirmed[to] + SUBSIDY]
      && after.pending == Immature(rules.env, l.pending + [PendingCoinbase(to, SUBSIDY, 1)], 1)
  {
    var env, tx := rules.env, first.txs[0];
    SettingParts(rules);
    ChainSafety.NothingToSpend(env, l, to);
    hide Coherent, Supply, MatureCoinbases, Immature, ApplyAll, ApplyCoinbase, ChainSafety.NothingDue, Env.AddressesSound,
         Setting, Nodes.Ready;
    ChainSafety.NextBlockOpensIdle(env, l, first);
    CoinbaseApplies(rules, l, tx, to, 1);
    assert first.txs == [tx] && first.txs[..0] == [] && CoinbaseCount([]) == 0;
    assert CoinbaseCount(first.txs) == 1;
    var paid := ApplyCoinbase(env, l, tx, 1).value;
    CoinbaseKeeps(env, l, tx, 1);
    CoherentHoldsNative(env, l);
    CoinbaseShape(env, l, tx, 1);
    var closing := paid.(height := 1, stakes := Staking.Refresh(paid.stakes, 1));
    AdvanceKeeps(env, paid, 1);
    MatureKeeps(env, closing, 1);
  }

  lemma CoherentHoldsNative(env: Env, l: Ledger)
    requires Coherent(env, l)
    ensures NATIVE_ASSET in l.assets.held
  {
  }

  lemma PendingIsConfirmed(env: Env, l: Ledger)
    requires Coherent(env, l) && l.pending != []
    ensures l.confirmed[l.pending[|l.pending| - 1].address] > 0
  {
    var c := l.pending[|l.pending| - 1];
    assert c in l.pending;
    assert Owed(l.pending)[c.address] >= c.amount;
    assert l.confirmed[c.address] == l.mature[c.address] + Owed(l.pending)[c.address];
  }

  lemma NothingPending(env: Env, l: Ledger)
    requires ChainSafety.Penniless(env, l)
    ensures l.pending == []
  {
    assert Coherent(env, l);
    hide Coherent, ChainSafety.Penniless;
    if l.pending != [] {
      ChainSafety.NothingToSpend(env, l, l.pending[|l.pending| - 1].address);
      PendingIsConfirmed(env, l);
    }
  }

  lemma AllMature(env: Env, l: Ledger)
    requires Coherent(env, l) && l.pending == []
    ensures l.mature == l.confirmed
  {
  }

  lemma NothingSent(env: Env, genesis: Block, first: Block, a: Address)
    requires genesis.txs == [] && |first.txs| == 1 && first.txs[0].coinbase
    requires ApplyBlocks(env, NEW_LEDGER, [genesis, first]).Some?
    ensures ApplyBlocks(env, NEW_LEDGER, [genesis, first]).value.nonces[a] == 0
  {
    hide ApplyBlocks;
    ChainHistory.NoncesCountUp(env, [genesis, first], a);
    AllTxsOfTwo(genesis, first);
    var txs := AllTxs([genesis, first]);
    assert txs == [first.txs[0]] && txs[..0] == [];
    assert ChainHistory.SentBy(txs, a) == [];
  }

  lemma RestIsCoherent(env: Env, l: Ledger)
    requires ChainSafety.AtRest(env, l)
    ensures Coherent(env, l)
  {
  }

  lemma PennilessParts(env: Env, l: Ledger)
    requires ChainSafety.AtRest(env, l) && ChainSafety.Penniless(env, l)
    ensures ChainSafety.NothingDue(env, l) && Coherent(env, l) && Supply(l) == 0 && l.stakes == map[]
  {
  }

  lemma NothingLeftPending(env: Env, c: PendingCoinbase)
    requires env.profile == PROFILE && c.height == 1
    ensures Immature(env, [] + [c], 1) == []
  {
    assert [] + [c] == [c] && [c][..0] == [];
  }

  lemma AfterFirst(rules: Rules, first: Block, to: Address)
    requires Setting(rules) && PaysOnly(rules, first, to) && first.height == 1
    ensures
      var l := Replay(rules.env, [rules.genesis, first]);
      l.Some? && OwnsSubsidy(rules.env, l.value, to)
  {
    var env := rules.env;
    SettingParts(rules);
    AfterGenesis(rules);
    var l := Replay(env, [rules.genesis]).value;
    assert env.profile == PROFILE && rules.genesis.txs == [];
    assert |first.txs| == 1 && first.txs[0].coinbase;
    hide Replay, Coherent, Supply, Rules.WellFormed, ChainSafety.AtRest, ChainSafety.Penniless, ApplyBlock, ApplyBlocks,
         Immature, Env.AddressesSound, Setting, Nodes.Ready, PaysOnly;
    NothingPending(env, l);
    PennilessParts(env, l);
    ChainSafety.NothingToSpend(env, l, to);
    assert [rules.genesis] + [first] == [rules.genesis, first];
    OneCoinbase(rules, first, to);
    FirstApplied(rules, l, first, to);
    NothingLeftPending(env, PendingCoinbase(to, SUBSIDY, 1));
    Nodes.NextReplay(rules, [rules.genesis], first);
    var after := ApplyBlock(env, l, first).value;
    ChainSafety.ApplyBlockRests(env, l, first);
    ChainSafety.NoStakesAppear(env, l, first);
    RestIsCoherent(env, after);
    AllMature(env, after);
    ChainSafety.ReplayIsApplyBlocks(env, [rules.genesis, first]);
    NothingSent(env, rules.genesis, first, to);
  }

  /** A version 1 transfer of one unit with a fee of one, the sender's first transaction. */
  predicate Payment(env: Env, tx: Transaction, src: Address, dst: Address) {
    && tx.ProtocolVersion() == 1 && !tx.coinbase && tx.Kind() == Transfer && tx.sender == src && tx.recipient == dst
    && tx.amount == 1 && tx.fee == 1 && tx.nonce == 1 && env.oracle.txId(tx) == Some(tx.id) && tx.id != ""
    && env.oracle.signed(tx) && env.ValidAddress(src) && env.ValidAddress(dst) && src != dst
  }

  lemma PaymentValid(env: Env, l: Ledger, tx: Transaction, src: Address, dst: Address)
    requires env.profile == PROFILE && Payment(env, tx, src, dst)
    requires Staking.Locked(l.stakes)[src] == 0 && l.confirmed[src] >= 2 && l.mature[src] >= 2 && l.nonces[src] == 0
    ensures ValidTransaction(env, l, tx)
  {
    hide Staking.Locked;
  }

  /** A coinbase for somebody else does not get in the way of a payment. */
  lemma PaymentExecutes(rules: Rules, l: Ledger, coinbase: Transaction, tx: Transaction, src: Address, dst: Address)
    requires Setting(rules) && OwnsSubsidy(rules.env, l, src) && Pays(rules.env, coinbase, dst)
    requires Payment(rules.env, tx, src, dst)
    ensures ApplyAll(rules.env, l, [coinbase, tx], 2).Some?
  {
    var env, txs := rules.env, [coinbase, tx];
    SettingParts(rules);
    assert env.profile == PROFILE;
    assert txs[..1] == [coinbase];
    assert Staking.Locked(map[]) == multiset{};
    assert Coherent(env, l) && Supply(l) == SUBSIDY;
    ChainSafety.OneAccountFits(l.confirmed, dst);
    hide Coherent, Env.AddressesSound, Staking.Locked, Setting, Nodes.Ready;
    CoinbaseApplies(rules, l, coinbase, dst, 2);
    CoinbaseKeeps(env, l, coinbase, 2);
    hide Supply;
    CoherentHoldsNative(env, l);
    CoinbaseShape(env, l, coinbase, 2);
    var paid := ApplyCoinbase(env, l, coinbase, 2).value;
    PaymentValid(env, paid, tx, src, dst);
    hide ValidTransaction, ApplyCoinbase, ApplyTransaction;
    Execution.ValidLegacyExecutesIff(env, paid, tx, 2);
  }

  lemma SpendingAllowed(rules: Rules, b: Block, src: Address, dst: Address)
    requires rules.env.profile == PROFILE && b.height > 0 && |b.txs| == 2
    requires Pays(rules.env, b.txs[0], dst) && Payment(rules.env, b.txs[1], src, dst)
    ensures TxListAllowed(rules.env, b) && Issued(b.txs) == SUBSIDY - 1 && ChainSafety.BurnTotal(b.txs) == 1
  {
    var env, txs := rules.env, b.txs;
    var one := [txs[0]];
    assert txs[..1] == one && one[..0] == [] && one[|one| - 1] == txs[0];
    assert CoinbaseCount([]) == 0 && FeeTotal(env, []) == 0 && Issued([]) == 0 && ChainSafety.BurnTotal([]) == 0;
    assert CoinbaseCount(one) == 1 && FeeTotal(env, one) == 0 && Issued(one) == SUBSIDY && ChainSafety.BurnTotal(one) == 0;
    assert CoinbaseCount(txs) == 1 && FeeTotal(env, txs) == 1;
    assert TxAllowed(env, txs[0], 0) && TxAllowed(env, txs[1], 1);
  }

  lemma SpendingIds(env: Env, first: Transaction, second: Transaction, tx: Transaction, src: Address, dst: Address)
    requires Preimages.IdsName(env) && Pays(env, first, src) && Pays(env, second, dst) && Payment(env, tx, src, dst)
    ensures DistinctIds([first] + [second, tx])
  {
    if first.id == second.id {
      Preimages.SamePreimage(first, second);
    }
    if first.id == tx.id {
      Preimages.SamePreimage(first, tx);
    }
    if second.id == tx.id {
      Preimages.SamePreimage(second, tx);
    }
    hide Preimages.IdsName;
  }

  lemma OneUnitBurned(rules: Rules, first: Block, spending: Block, src: Address, dst: Address)
    requires rules.env.profile == PROFILE && PaysOnly(rules, first, src) && first.height > 0
    requires spending.height > 0 && |spending.txs| == 2
    requires Pays(rules.env, spending.txs[0], dst) && Payment(rules.env, spending.txs[1], src, dst)
    ensures ChainSafety.BurnedBy(rules.env, [first, spending]) == 1
  {
    var env := rules.env;
    SpendingAllowed(rules, spending, src, dst);
    assert first.txs[..0] == [];
    assert ChainSafety.BurnTotal([]) == 0;
    assert ChainSafety.BurnTotal(first.txs) == 0;
    hide ChainSafety.BurnTotal;
    assert [first, spending][..1] == [first] && [first][..0] == [];
    assert ChainSafety.BurnedBy(env, []) == 0;
    assert ChainSafety.BurnedBy(env, [first]) == 0;
  }

  /** A valid chain on which one unit of fee was burned: the report says 20, the accounts own 19. */
  lemma ReportExceedsOwned(rules: Rules, first: Block, spending: Block, src: Address, dst: Address)
    requires Setting(rules) && Mined(rules, rules.genesis, first) && PaysOnly(rules, first, src)
    requires Mined(rules, first, spending) && |spending.txs| == 2
    requires Pays(rules.env, spending.txs[0], dst) && Payment(rules.env, spending.txs[1], src, dst)
    ensures
      var blocks := [rules.genesis, first, spending];
      && ValidChain(rules, blocks) && Replay(rules.env, blocks).Some?
      && SimpleLedgers.Reported(rules.env, blocks) == 20
      && |Replay(rules.env, blocks).value.confirmed| == 19
  {
    var env, blocks := rules.env, [rules.genesis, first, spending];
    SettingParts(rules);
    assert env.profile == PROFILE && Preimages.IdsName(env) && rules.genesis.txs == [] && rules.genesis.height == 0;
    assert first.height == 1 && spending.height == 2;
    assert Issued(rules.genesis.txs) == 0 && ChainSafety.Minted(env) == SUBSIDY;
    assert first.txs == [first.txs[0]] && spending.txs == [spending.txs[0], spending.txs[1]];
    SpendingIds(env, first.txs[0], spending.txs[0], spending.txs[1], src, dst);
    assert [rules.genesis, first] + [spending] == blocks && blocks[1..] == [first, spending];
    hide Grown, Replay, OwnsSubsidy, ApplyAll, TxListAllowed, StoredChain, DistinctIds, AllTxs, Issued, ChainSafety.BurnTotal,
         Rules.WellFormed, Setting, Nodes.Ready, Mined, Pays, Payment, Preimages.IdsName;
    FirstGrown(rules, first, src);
    AfterFirst(rules, first, src);
    SpendingAllowed(rules, spending, src, dst);
    PaymentExecutes(rules, Replay(env, [rules.genesis, first]).value, spending.txs[0], spending.txs[1], src, dst);
    Extends(rules, [rules.genesis, first], spending);
    GrownIsStored(rules, blocks);
    AllTxsOfTwo(first, spending);
    SimpleLedgers.ReportedAgainstOwned(rules, blocks);
    OneUnitBurned(rules, first, spending, src, dst);
  }

  // ---------------------------------------------------------------- a lock that only validates

  /** A version 1 lock of one unit, the sender's first transaction. */
  predicate FirstLock(env: Env, tx: Transaction, a: Address) {
    && tx.ProtocolVersion() == 1 && !tx.coinbase && tx.rawKind == StakeLock && tx.sender == a && tx.recipient == a
    && tx.amount == 1 && tx.nonce == 1 && (tx.stakeId == "" || tx.stakeId == tx.id)
    && env.oracle.txId(tx) == Some(tx.id) && env.oracle.signed(tx) && env.ValidAddress(a)
  }

  lemma LockValid(env: Env, l: Ledger, tx: Transaction, a: Address)
    requires env.profile == PROFILE && FirstLock(env, tx, a)
    requires Staking.Locked(l.stakes)[a] == 0 && l.mature[a] >= 1 && l.nonces[a] == 0
    ensures ValidTransaction(env, l, tx)
    ensures ApplyTransaction(env, l, tx, 2).None?
  {
    hide Staking.Locked, Staking.ActiveCount;
  }

  /** Staking is off, and nothing in validation looks at that: on the ledger of a stored chain a lock
      validates, and executing it fails. */
  lemma LockValidatesOnly(rules: Rules, first: Block, a: Address, tx: Transaction)
    requires Setting(rules) && Mined(rules, rules.genesis, first) && PaysOnly(rules, first, a) && FirstLock(rules.env, tx, a)
    ensures StoredChain(rules, [rules.genesis, first]) && Replay(rules.env, [rules.genesis, first]).Some?
    ensures
      var l := Replay(rules.env, [rules.genesis, first]).value;
      ValidTransaction(rules.env, l, tx) && ApplyTransaction(rules.env, l, tx, 2).None?
  {
    assert rules.env.profile == PROFILE && first.height == 1;
    assert Staking.Locked(map[]) == multiset{};
    hide Grown, Replay, StoredChain, Setting, Mined, PaysOnly, FirstLock, Coherent, Supply, ValidTransaction, ApplyTransaction,
         Staking.Locked;
    FirstGrown(rules, first, a);
    GrownIsStored(rules, [rules.genesis, first]);
    AfterFirst(rules, first, a);
    LockValid(rules.env, Replay(rules.env, [rules.genesis, first]).value, tx, a);
  }

  // ---------------------------------------------------------------- a stale index

  /** The same block with its coinbase's fee payer filled in. */
  function Copied(b: Block, payer: Address): Block
    requires |b.txs| == 1
  {
    b.(txs := [b.txs[0].(feePayer := payer)])
  }

  /** A block whose only transaction is a version 2 coinbase without a fee payer. */
  predicate OpenCoinbase(rules: Rules, b: Block, to: Address) {
    PaysOnly(rules, b, to) && b.txs[0].ProtocolVersion() == 2 && b.txs[0].feePayer == ""
  }

  /** The copy of the coinbase has the same id, so the copied block has the same hash and is as good. */
  lemma CopyIsMined(rules: Rules, h: Merkle.Hashing, b: Block, to: Address, payer: Address)
    requires Setting(rules) && Preimages.RootsName(rules.env, h) && Mined(rules, rules.genesis, b)
    requires OpenCoinbase(rules, b, to)
    requires rules.env.oracle.txBytes(Copied(b, payer).txs[0]) <= DEFAULT_MAX_TX_BYTES
    requires rules.env.oracle.blockBytes(Copied(b, payer)) <= DEFAULT_MAX_BLOCK_BYTES
    ensures Mined(rules, rules.genesis, Copied(b, payer)) && PaysOnly(rules, Copied(b, payer), to)
    ensures Copied(b, payer).hash == b.hash && Copied(b, payer).txs[0].id == b.txs[0].id
  {
    var copy := Copied(b, payer);
    var t, u := b.txs[0], copy.txs[0];
    assert Preimages.CanonicalPreimage(t) == Preimages.CanonicalPreimage(u);
    assert Preimages.PreimageOf(t) == Preimages.PreimageOf(u);
    assert rules.env.oracle.txId(u) == Some(u.id);
    assert Preimages.Ids(copy.txs) == Preimages.Ids(b.txs);
    assert rules.env.oracle.merkleRoot(copy.txs) == rules.env.oracle.merkleRoot(b.txs);
    hide Setting, Preimages.RootsName;
    assert copy.(txs := [], hash := "") == b.(txs := [], hash := "");
  }

  lemma HashesPresent(rules: Rules, blocks: seq<Block>)
    requires Setting(rules) && Grown(rules, blocks)
    ensures Explorer.Hashed(blocks)
  {
    assert forall b :: HashOf(rules.env, b) != "";
    assert rules.genesis.hash != "";
    hide StoredChain, Replay, IssuedBy, Nodes.Ready, HashOf;
    forall i | 0 <= i < |blocks|
      ensures blocks[i].hash != ""
    {
      if i > 0 {
        assert Mined(rules, blocks[i - 1], blocks[i]);
      }
    }
  }

  lemma ReadyForIndex(rules: Rules, blocks: seq<Block>)
    requires Setting(rules) && Grown(rules, blocks) && ValidChain(rules, blocks)
    ensures Explorer.Linear(blocks) && Explorer.Hashed(blocks) && |blocks| - 1 <= MAX_U64
    ensures Explorer.InPlace(Explorer.Contents(blocks)) && Explorer.UniqueIds(Explorer.Contents(blocks))
  {
    SettingParts(rules);
    HashesPresent(rules, blocks);
    hide StoredChain, ValidChain, Replay, IssuedBy, Mined, Setting, Nodes.Ready, Rules.WellFormed, Explorer.Linear, Explorer.Hashed,
         Explorer.UniqueIds, Explorer.Contents;
    Explorer.ValidIsLinear(rules, blocks);
    Explorer.LinearFromStore(blocks);
    Explorer.ValidUnique(rules, blocks, |blocks|);
    assert blocks[..|blocks|] == blocks;
  }

  lemma NotRestarted(genesis: Block, first: Block, copy: Block, second: Block)
    requires genesis.height == 0 && first.height == 1 && copy.height == 1 && second.height == 2 && first.hash == copy.hash
    ensures !Explorer.Restarts(Explorer.CursorOf(Explorer.Contents([genesis, first])), [genesis, copy, second])
  {
    assert Explorer.ContentOf(first).hash == first.hash;
    hide Explorer.ContentOf;
    assert Explorer.Contents([genesis, first])[1] == Explorer.ContentOf(first);
  }

  lemma CopyDiffers(rules: Rules, b: Block, to: Address, payer: Address, genesis: Block, second: Block)
    requires OpenCoinbase(rules, b, to) && payer != "" && payer != COINBASE_SENDER
    ensures !Explorer.UpToDate(Explorer.Contents([genesis, b]), [genesis, Copied(b, payer), second])
  {
    var x, y := Explorer.Contents([genesis, b]), Explorer.Contents([genesis, Copied(b, payer), second]);
    assert x[1].txs[0].feePayer == COINBASE_SENDER && y[1].txs[0].feePayer == payer;
    assert x[1..][0] == x[1] && y[1..2][0] == y[1];
  }

  /** The indexer has followed a chain to its tip. A peer offers a longer one, with a copy of that tip whose
      coinbase names a fee payer: the branch is worth it, can be stored, and hashes and header contents agree
      throughout. The next pass keeps the old entry. */
  lemma StaleIndex(rules: Rules, h: Merkle.Hashing, first: Block, second: Block, to: Address, next: Address, payer: Address)
    requires Setting(rules) && Preimages.RootsName(rules.env, h)
    requires Mined(rules, rules.genesis, first) && OpenCoinbase(rules, first, to)
    requires Mined(rules, first, second) && PaysOnly(rules, second, next) && second.stateRoot == ""
    requires first.txs[0].id != second.txs[0].id && payer != "" && payer != COINBASE_SENDER
    requires rules.env.oracle.txBytes(Copied(first, payer).txs[0]) <= DEFAULT_MAX_TX_BYTES
    requires rules.env.oracle.blockBytes(Copied(first, payer)) <= DEFAULT_MAX_BLOCK_BYTES
    ensures
      var copy := Copied(first, payer);
      var blocks, whole, peer := [rules.genesis, first], [rules.genesis, copy, second], Offering(rules.genesis, [copy, second]);
      && ValidChain(rules, blocks) && ValidChain(rules, whole) && Preimages.HeadersBind(blocks, whole)
      && ForkChoice.WorthReorg(rules, blocks, peer, |blocks|) && ForkChoice.Storable(rules, blocks, peer)
      && ForkChoice.ChainWith(blocks, 0, [copy, second]) == whole
      && Preimages.Loose(copy.txs[0])
      && Explorer.IndexOf(Explorer.ShownNext(Explorer.Contents(blocks), whole)) != Explorer.IndexOf(Explorer.Contents(whole))
  {
    var copy := Copied(first, payer);
    var blocks, whole := [rules.genesis, first], [rules.genesis, copy, second];
    SettingParts(rules);
    assert rules.genesis.height == 0 && first.height == 1 && second.height == 2 && copy.height == 1;
    CopyIsMined(rules, h, first, to, payer);
    CopyDiffers(rules, first, to, payer, rules.genesis, second);
    assert Preimages.Loose(copy.txs[0]) && PaysOnly(rules, first, to);
    assert Mined(rules, copy, second);
    assert copy.previousHash == first.previousHash && copy.timestamp == first.timestamp && copy.merkleRoot == first.merkleRoot;
    hide *;
    SameHeaders(rules.genesis, first, copy, second);
    FirstValid(rules, first, to);
    SecondValid(rules, copy, second, to, next);
    SwitchToCopy(rules, blocks, copy, second);
    NotRestarted(rules.genesis, first, copy, second);
    KeepsOldEntries(rules, blocks, whole);
  }

  lemma SwitchToCopy(rules: Rules, blocks: seq<Block>, copy: Block, second: Block)
    requires Setting(rules) && OurBlocks(rules, blocks) && OurBlocks(rules, [rules.genesis, copy, second]) && |blocks| == 2
    requires Grown(rules, [rules.genesis, copy, second]) && ValidChain(rules, [rules.genesis, copy, second])
    requires second.stateRoot == ""
    ensures
      var whole, peer := [rules.genesis, copy, second], Offering(rules.genesis, [copy, second]);
      && ForkChoice.WorthReorg(rules, blocks, peer, |blocks|) && ForkChoice.Storable(rules, blocks, peer)
      && ForkChoice.ChainWith(blocks, 0, [copy, second]) == whole
  {
    var whole := [rules.genesis, copy, second];
    assert blocks[0] == rules.genesis;
    hide *;
    GrownIsStored(rules, whole);
    assert [rules.genesis] + [copy, second] == whole;
    WorthSwitching(rules, blocks, [copy, second]);
    NoRootToHold(rules, whole);
    IsStorable(rules, blocks, Offering(rules.genesis, [copy, second]), [copy, second], whole);
  }

  lemma KeepsOldEntries(rules: Rules, blocks: seq<Block>, whole: seq<Block>)
    requires Setting(rules) && Grown(rules, blocks) && ValidChain(rules, blocks)
    requires Grown(rules, whole) && ValidChain(rules, whole)
    requires whole != [] && !Explorer.Restarts(Explorer.CursorOf(Explorer.Contents(blocks)), whole)
    requires !Explorer.UpToDate(Explorer.Contents(blocks), whole)
    ensures Explorer.IndexOf(Explorer.ShownNext(Explorer.Contents(blocks), whole)) != Explorer.IndexOf(Explorer.Contents(whole))
  {
    hide *;
    ReadyForIndex(rules, blocks);
    ReadyForIndex(rules, whole);
    Explorer.SyncedIff(Explorer.Contents(blocks), whole);
  }

  lemma SameHeaders(genesis: Block, first: Block, copy: Block, second: Block)
    requires copy.previousHash == first.previousHash && copy.timestamp == first.timestamp && copy.merkleRoot == first.merkleRoot
    ensures Preimages.HeadersBind([genesis, first], [genesis, copy, second])
  {
  }

  lemma NoRootToHold(rules: Rules, full: seq<Block>)
    requires full != [] && full[|full| - 1].stateRoot == ""
    ensures Nodes.LegacyRootHolds(rules, full)
  {
  }

  lemma IsStorable(rules: Rules, blocks: seq<Block>, peer: ForkChoice.Peer, branch: seq<Block>, whole: seq<Block>)
    requires ForkChoice.WorthReorg(rules, blocks, peer, |blocks|) && |blocks| > 1
    requires Locators.FirstMatch(blocks, peer.locator) == Some(Locators.Entry(0, blocks[0].hash))
    requires peer.height == |branch| && ForkChoice.Fetched(peer, 1, |branch|) == Some(branch)
    requires whole == ForkChoice.ChainWith(blocks, 0, branch) && Replay(rules.env, whole).Some?
    requires Nodes.LegacyRootHolds(rules, whole)
    ensures ForkChoice.Storable(rules, blocks, peer)
  {
    hide ForkChoice.WorthReorg, ForkChoice.Fetched, Locators.FirstMatch, Nodes.LegacyRootHolds, Replay, ForkChoice.ChainWith;
  }
}
