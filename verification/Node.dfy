/** The stored chain and its persisted state (chain/blockchain.go, storage/bbolt.go): blocks are
    added and branches replaced together with the snapshot of the resulting ledger. */
module Nodes {
  import opened Arith
  import opened Types
  import opened Ledgers
  import opened Chains
  import opened Snapshots
  import Assets
  import AssetSupply
  import Balances
  import ChainHistory
  import ChainSafety
  import LedgerInvariant
  import MatureLedgers
  import Staking
  import Validation

  /** What the store relies on: the asset model, a genesis without a state root, hashes that are
      never empty strings. */
  ghost predicate Ready(rules: Rules) {
    && rules.WellFormed() && rules.env.AssetModel()
    && rules.genesis.ProtocolVersion() != BLOCK_VERSION_CANONICAL && rules.genesis.stateRoot == ""
    && (forall s :: rules.root(s) != "")
    && (forall b :: HashOf(rules.env, b) != "")
  }

  /** The ledger of a stored chain. */
  ghost predicate StateOf(rules: Rules, s: Snapshot, blocks: seq<Block>) {
    Replay(rules.env, blocks).Some? && SnapshotOf(s, Replay(rules.env, blocks).value)
  }

  predicate SnapshotMatchesTip(s: Snapshot, root: Hash, tip: Block) {
    && s.height == tip.height
    && (tip.ProtocolVersion() == BLOCK_VERSION_CANONICAL ==> tip.stateRoot != "" && tip.stateRoot == root)
  }

  /** What the store checks before it writes a block and a snapshot together. */
  predicate CommitAllowed(tip: Block, b: Block, s: Snapshot, root: Hash) {
    && SnapshotValid(s) && root != "" && SnapshotMatchesTip(s, root, b)
    && b.height == tip.height + 1 && tip.hash != "" && b.previousHash == tip.hash
  }

  lemma StateIsUnique(rules: Rules, s: Snapshot, t: Snapshot, l: Ledger)
    requires rules.env.AssetModel() && SnapshotOf(s, l) && SnapshotOf(t, l)
    ensures s == t
  {
    hide SnapshotOf;
    Validation.RootInputsUnique(rules.env, s, t, l);
  }

  /** The state root of a canonical block is that of the ledger its execution gives. */
  lemma RootAfterBlock(rules: Rules, b: Block, before: Ledger, s: Snapshot)
    requires rules.env.AssetModel() && StateRootValid(rules, b, before) && ApplyBlock(rules.env, before, b).Some?
    requires SnapshotOf(s, ApplyBlock(rules.env, before, b).value)
    ensures b.ProtocolVersion() == BLOCK_VERSION_CANONICAL ==> b.stateRoot != "" && b.stateRoot == rules.root(s)
  {
    hide SnapshotOf, ApplyBlock;
    if b.ProtocolVersion() == BLOCK_VERSION_CANONICAL {
      var after := ApplyBlock(rules.env, before, b).value;
      var t :| RootInputs(rules.env, t, after) && rules.root(t) == b.stateRoot;
      StateIsUnique(rules, s, t, after);
    }
  }

  lemma NextReplay(rules: Rules, blocks: seq<Block>, b: Block)
    requires rules.WellFormed() && blocks != [] && Replay(rules.env, blocks).Some?
    ensures Replay(rules.env, blocks + [b]) == ApplyBlock(rules.env, Replay(rules.env, blocks).value, b)
  {
    hide Replay, ApplyBlock;
    ChainSafety.ReplayIsApplyBlocks(rules.env, blocks);
    ChainSafety.ReplayIsApplyBlocks(rules.env, blocks + [b]);
    assert (blocks + [b])[..|blocks|] == blocks;
  }

  lemma NextExecutes(rules: Rules, b: Block, prior: seq<Block>)
    requires prior != [] && ValidNext(rules, b, prior) && Replay(rules.env, prior).Some?
    ensures StateRootValid(rules, b, Replay(rules.env, prior).value)
    ensures b.height == prior[|prior| - 1].height + 1 && b.previousHash == prior[|prior| - 1].hash
    ensures b.ProtocolVersion() == BLOCK_VERSION_CANONICAL ==>
              ApplyBlock(rules.env, Replay(rules.env, prior).value, b).Some?
  {
    hide HeaderValid, TxListAllowed, Replay, ApplyBlock, ApplyAll, RootInputs;
  }

  /** The store never refuses a block that validation and execution accepted. */
  lemma CommitFollows(rules: Rules, blocks: seq<Block>, b: Block, s: Snapshot)
    requires Ready(rules) && StoredChain(rules, blocks + [b]) && StoredChain(rules, blocks) && ValidNext(rules, b, blocks)
    requires blocks != [] && Replay(rules.env, blocks).Some? && blocks[|blocks| - 1].hash != ""
    requires StateOf(rules, s, blocks + [b])
    ensures CommitAllowed(blocks[|blocks| - 1], b, s, rules.root(s))
  {
    hide StoredChain, ValidNext, Replay, SnapshotValid, SnapshotOf, Sound, ApplyBlock;
    NextExecutes(rules, b, blocks);
    NextReplay(rules, blocks, b);
    var after := Replay(rules.env, blocks + [b]).value;
    RootAfterBlock(rules, b, Replay(rules.env, blocks).value, s);
    ChainHistory.ReplaySound(rules, blocks + [b]);
    ExportIsValid(rules.env, s, after);
    SnapshotHeight(s, after);
  }

  lemma SnapshotHeight(s: Snapshot, l: Ledger)
    requires SnapshotOf(s, l)
    ensures s.height == l.height
  {
  }

  lemma TipHashed(rules: Rules, blocks: seq<Block>)
    requires Ready(rules) && StoredChain(rules, blocks)
    ensures blocks != [] && blocks[|blocks| - 1].hash != ""
  {
    hide TxListAllowed, Executes, ResourcesAllowed, HashOf;
    var n := |blocks| - 1;
    if n > 0 {
      assert ValidBlock(rules, blocks[n], blocks[..n]);
    }
  }

  /** What the store checks before it replaces the blocks from `from` on. */
  predicate ReplacementAllowed(blocks: seq<Block>, start: nat, branch: seq<Block>, s: Snapshot, root: Hash)
    requires 0 < start <= |blocks|
  {
    && branch != []
    && SnapshotValid(s) && root != "" && s.height == branch[|branch| - 1].height
    && (forall i :: 0 <= i < |branch| ==>
          branch[i].height == start + i && (branch[i].ProtocolVersion() == BLOCK_VERSION_CANONICAL ==> branch[i].stateRoot != ""))
    && SnapshotMatchesTip(s, root, branch[|branch| - 1])
    && blocks[start - 1].hash != "" && branch[0].previousHash == blocks[start - 1].hash
    && (branch[|branch| - 1].stateRoot != "" ==> branch[|branch| - 1].stateRoot == root)
    && start <= blocks[|blocks| - 1].height
  }

  /** A pre-canonical block's state root is no part of its hash and validation ignores it, but the
      store compares it. */
  ghost predicate LegacyRootHolds(rules: Rules, full: seq<Block>)
    requires full != []
  {
    var tip := full[|full| - 1];
    tip.ProtocolVersion() != BLOCK_VERSION_CANONICAL && tip.stateRoot != "" ==>
      exists s :: StateOf(rules, s, full) && rules.root(s) == tip.stateRoot
  }

  lemma BlockInChain(rules: Rules, full: seq<Block>, i: nat)
    requires rules.WellFormed() && StoredChain(rules, full) && 0 < i < |full|
    ensures full[i].height == i && full[i].previousHash == full[i - 1].hash
    ensures ValidNext(rules, full[i], full[..i])
    ensures full[i].ProtocolVersion() == BLOCK_VERSION_CANONICAL ==> full[i].stateRoot != ""
  {
    HeightIsIndex(rules, full, i);
    assert LinkedAt(full, i);
    assert ValidBlock(rules, full[i], full[..i]);
    hide HeaderValid, TxListAllowed, Replay, ApplyAll, RootInputs, ApplyBlock, Contiguous, StoredChain;
  }

  lemma StoredPrefix(rules: Rules, full: seq<Block>, n: nat)
    requires rules.WellFormed() && StoredChain(rules, full) && 0 < n <= |full|
    ensures StoredChain(rules, full[..n])
  {
    hide ValidBlock, GenesisAccepted, Rules.WellFormed, Linked;
    PrefixContiguous(rules, full, n);
    assert forall i :: 1 <= i < n ==> full[..n][i] == full[i] && full[..n][..i] == full[..i];
  }

  /** The root of the whole chain's state, as its canonical tip records it. */
  lemma TipRoot(rules: Rules, full: seq<Block>, s: Snapshot)
    requires Ready(rules) && StoredChain(rules, full) && |full| > 1 && StateOf(rules, s, full)
    ensures SnapshotMatchesTip(s, rules.root(s), full[|full| - 1]) && SnapshotValid(s)
  {
    hide StoredChain, Replay, SnapshotValid, SnapshotOf, Sound, ApplyBlock, Rules.WellFormed, ValidNext;
    var n := |full| - 1;
    var before := full[..n];
    BlockInChain(rules, full, n);
    StoredPrefix(rules, full, n);
    assert before + [full[n]] == full;
    PrefixReplays(rules, before, full[n]);
    TipHashed(rules, before);
    CommitFollows(rules, before, full[n], s);
  }

  lemma PrefixReplays(rules: Rules, before: seq<Block>, b: Block)
    requires rules.WellFormed() && before != [] && Replay(rules.env, before + [b]).Some?
    ensures Replay(rules.env, before).Some?
  {
    hide Replay, ApplyBlock;
    ChainSafety.ReplayIsApplyBlocks(rules.env, before);
    ChainSafety.ReplayIsApplyBlocks(rules.env, before + [b]);
    assert (before + [b])[..|before|] == before;
  }

  /** Of the store's checks on a branch that validates, only three can refuse it: an empty branch, a
      branch that replaces nothing, and a wrong root on a pre-canonical tip. */
  lemma ReplacementDecided(rules: Rules, blocks: seq<Block>, start: nat, branch: seq<Block>, s: Snapshot)
    requires Ready(rules) && StoredChain(rules, blocks) && 0 < start <= |blocks|
    requires StoredChain(rules, blocks[..start] + branch) && StateOf(rules, s, blocks[..start] + branch)
    ensures ReplacementAllowed(blocks, start, branch, s, rules.root(s)) <==>
            branch != [] && start < |blocks| && LegacyRootHolds(rules, blocks[..start] + branch)
  {
    hide StoredChain, Replay, SnapshotValid, SnapshotOf, SnapshotMatchesTip, Rules.WellFormed, ValidNext;
    var full := blocks[..start] + branch;
    var n := |full| - 1;
    TipHeight(rules, blocks);
    if branch != [] {
      assert full[n] == branch[|branch| - 1] && full[start] == branch[0] && full[start - 1] == blocks[start - 1];
      TipRoot(rules, full, s);
      BlockInChain(rules, full, n);
      BlockInChain(rules, full, start);
      StoredPrefix(rules, blocks, start);
      TipHashed(rules, blocks[..start]);
      MatchedTip(s, rules.root(s), full[n]);
      forall i | 0 <= i < |branch|
        ensures branch[i].height == start + i
        ensures branch[i].ProtocolVersion() == BLOCK_VERSION_CANONICAL ==> branch[i].stateRoot != ""
      {
        assert branch[i] == full[start + i];
        BlockInChain(rules, full, start + i);
      }
      LegacyRootOf(rules, full, s);
    }
  }

  lemma TipHeight(rules: Rules, blocks: seq<Block>)
    requires rules.WellFormed() && StoredChain(rules, blocks)
    ensures blocks != [] && blocks[|blocks| - 1].height == |blocks| - 1
  {
    hide ValidBlock;
    HeightIsIndex(rules, blocks, |blocks| - 1);
  }

  lemma MatchedTip(s: Snapshot, root: Hash, tip: Block)
    requires SnapshotMatchesTip(s, root, tip)
    ensures s.height == tip.height
    ensures tip.ProtocolVersion() == BLOCK_VERSION_CANONICAL ==> tip.stateRoot == root
  {
  }

  lemma LegacyRootOf(rules: Rules, full: seq<Block>, s: Snapshot)
    requires rules.env.AssetModel() && full != [] && StateOf(rules, s, full)
    ensures
      var tip := full[|full| - 1];
      LegacyRootHolds(rules, full) <==>
        (tip.ProtocolVersion() != BLOCK_VERSION_CANONICAL && tip.stateRoot != "" ==> rules.root(s) == tip.stateRoot)
  {
    hide Replay, SnapshotOf;
    forall t | StateOf(rules, t, full)
      ensures t == s
    {
      StateIsUnique(rules, s, t, Replay(rules.env, full).value);
    }
  }

  class Blockchain {
    const rules: Rules
    var blocks: seq<Block>
    var state: Snapshot
    var stateRoot: Hash

    /** The stored blocks validate one by one, and the persisted snapshot is exactly the export of
        the ledger they replay to. */
    ghost predicate Valid()
      reads this
    {
      && Ready(rules)
      && StoredChain(rules, blocks)
      && StateOf(rules, state, blocks)
      && stateRoot == rules.root(state)
    }

    constructor (rules: Rules)
      requires Ready(rules)
      ensures Valid() && this.rules == rules && blocks == [rules.genesis]
    {
      this.rules := rules;
      blocks := [rules.genesis];
      new;
      GenesisStored(rules);
      var ok, s := SnapshotForBlocks(blocks);
      state, stateRoot := s, rules.root(s);
    }

    method SnapshotForBlocks(full: seq<Block>) returns (ok: bool, s: Snapshot)
      requires Ready(rules) && StoredChain(rules, full)
      ensures ok <==> Replay(rules.env, full).Some?
      ensures ok ==> StateOf(rules, s, full)
    {
      ReadyParts(rules);
      Validation.StoredChainRises(rules, full);
      hide StoredChain, Replay, SnapshotOf, Ready, MatureLedgers.MatureLedger.Core, Rules.WellFormed, MatureLedgers.Rising;
      var l;
      ok, l := MatureLedgers.ReplayMature(rules.env, full);
      s := Snapshots.SnapshotForLedger(l);
    }

    /** The state after one more block: from the persisted snapshot when that is current, and from a
        replay of all blocks otherwise. */
    method StateAfter(b: Block) returns (ok: bool, next: Snapshot)
      requires Valid() && blocks != [] && ValidNext(rules, b, blocks)
      ensures ok <==> ApplyBlock(rules.env, Replay(rules.env, blocks).value, b).Some?
      ensures ok ==> CommitAllowed(blocks[|blocks| - 1], b, next, rules.root(next)) && StateOf(rules, next, blocks + [b])
    {
      hide ValidNext, StoredChain, Replay, SnapshotOf, Ready, Rules.WellFormed, ApplyBlock, SnapshotMatchesTip, Sound,
           CommitAllowed;
      ReadyParts(rules);
      TipHashed(rules, blocks);
      StoredGrows(rules, blocks, b);
      NextReplay(rules, blocks, b);
      NextExecutes(rules, b, blocks);
      ChainHistory.ReplaySound(rules, blocks);
      if SnapshotMatchesTip(state, stateRoot, blocks[|blocks| - 1]) {
        ok, next := SnapshotAfterBlock(rules.env, state, b, Replay(rules.env, blocks).value);
      } else {
        ok, next := SnapshotForBlocks(blocks + [b]);
      }
      if ok {
        CommitFollows(rules, blocks, b, next);
      }
    }

    /** Adds a block that validates on the tip, together with its state; the store's own checks never
        refuse what validation and execution accepted. */
    method AddBlock(b: Block) returns (ok: bool)
      requires Valid()
      modifies this
      ensures Valid()
      ensures ok <==> ValidNext(rules, b, old(blocks))
                      && ApplyBlock(rules.env, Replay(rules.env, old(blocks)).value, b).Some?
      ensures blocks == if ok then old(blocks) + [b] else old(blocks)
    {
      hide ValidNext, StoredChain, Replay, SnapshotOf, Ready, Rules.WellFormed, ApplyBlock, CommitAllowed, StateOf;
      ReadyParts(rules);
      TipHashed(rules, blocks);
      Validation.StoredChainRises(rules, blocks);
      var tip := blocks[|blocks| - 1];
      ok := Validation.ValidateNextBlock(rules, b, blocks);
      if !ok {
        return;
      }
      StoredGrows(rules, blocks, b);
      var next;
      ok, next := StateAfter(b);
      var root := rules.root(next);
      ok := ok && CommitAllowed(tip, b, next, root);
      if ok {
        blocks, state, stateRoot := blocks + [b], next, root;
      }
    }

    /** The persisted account record; zero when there is none. */
    method StateAccountOf(a: Address) returns (confirmed: u64, mature: u64)
      requires Valid()
      ensures
        var l := Replay(rules.env, blocks).value;
        confirmed == l.confirmed[a] && mature == l.mature[a]
    {
      hide StoredChain, Ready, Replay, Rules.WellFormed, LedgerInvariant.ViewsAgree, LedgerInvariant.StakeCovered,
           AssetSupply.IssuedMatch, Ascending, FeePool;
      ReadyParts(rules);
      ChainHistory.ReplaySound(rules, blocks);
      LedgerInvariant.MatureIsConfirmed(rules.env, Replay(rules.env, blocks).value);
      if e :| e in state.accounts && e.address == a {
        return e.confirmed, e.mature;
      }
      NoAccount(state, Replay(rules.env, blocks).value, a);
      return 0, 0;
    }

    /** Balance details without a replay: the account record and the owner's stake records. */
    method BalanceFromState(a: Address, pending: seq<Transaction>) returns (d: Balances.Details)
      requires Valid()
      ensures d == Balances.DetailsOf(Replay(rules.env, blocks).value, a, pending)
    {
      hide StoredChain, Ready, Replay, Rules.WellFormed, Balances.DetailsFrom, Staking.Refresh, SnapshotOf, Sound;
      ReadyParts(rules);
      ChainHistory.ReplaySound(rules, blocks);
      ghost var l := Replay(rules.env, blocks).value;
      var confirmed, mature := StateAccountOf(a);
      var stakes := set r | r in state.stakes && r.owner == a;
      OwnersStakes(rules.env, state, l, a, stakes);
      Balances.OwnersDetails(confirmed, mature, l.stakes, a, pending);
      d := Balances.BalanceDetailsFromState(a, confirmed, mature, stakes, pending, state.height,
                                            Balances.OwnedBy(l.stakes, a));
    }

    method BalanceByReplay(a: Address, pending: seq<Transaction>) returns (d: Balances.Details)
      requires Valid()
      ensures d == Balances.DetailsOf(Replay(rules.env, blocks).value, a, pending)
    {
      hide StoredChain, Ready, Replay, Rules.WellFormed, Balances.DetailsFrom, Staking.Refresh, SnapshotOf, Sound,
           MatureLedgers.MatureLedger.Core;
      ReadyParts(rules);
      TipHashed(rules, blocks);
      Validation.StoredChainRises(rules, blocks);
      ChainHistory.ReplaySound(rules, blocks);
      var ok, l := MatureLedgers.ReplayMature(rules.env, blocks);
      var acct := l.AccountIn(a);
      var stakes := StateStakes(l);
      AllStakes(rules.env, l.model, stakes);
      d := Balances.BalanceDetailsFromState(a, acct.confirmed, acct.mature, stakes, pending,
                                            blocks[|blocks| - 1].height, l.model.stakes);
    }

    /** The persisted state answers when it is current, a replay otherwise; the answers are the same. */
    method BalanceDetailsFor(a: Address, pending: seq<Transaction>) returns (d: Balances.Details)
      requires Valid()
      ensures d == Balances.DetailsOf(Replay(rules.env, blocks).value, a, pending)
    {
      hide StoredChain, Ready, StateOf, Balances.DetailsOf, SnapshotMatchesTip;
      TipHashed(rules, blocks);
      if SnapshotMatchesTip(state, stateRoot, blocks[|blocks| - 1]) {
        d := BalanceFromState(a, pending);
      } else {
        d := BalanceByReplay(a, pending);
      }
    }

    method BlocksBelow(height: nat) returns (prefix: seq<Block>)
      requires Valid() && height <= |blocks|
      ensures prefix == blocks[..height]
    {
      hide StoredChain, StateOf, Ready, Rules.WellFormed;
      ReadyParts(rules);
      prefix := [];
      for i := 0 to |blocks|
        invariant prefix == blocks[..if i <= height then i else height]
      {
        StoredHeight(rules, blocks, i);
        if blocks[i].height < height {
          prefix := prefix + [blocks[i]];
        }
      }
    }

    /** Replaces the blocks from `start` on by a branch that validates there. */
    method ReplaceFromHeight(start: nat, branch: seq<Block>) returns (ok: bool)
      requires Valid() && 0 < start <= |blocks| && StoredChain(rules, blocks[..start] + branch)
      modifies this
      ensures Valid()
      ensures
        var full := old(blocks)[..start] + branch;
        && (ok <==> branch != [] && start < |old(blocks)|
                    && Replay(rules.env, full).Some? && LegacyRootHolds(rules, full))
        && blocks == if ok then full else old(blocks)
    {
      hide StoredChain, Replay, SnapshotOf, Ready, Rules.WellFormed, ReplacementAllowed, LegacyRootHolds, StateOf;
      ReadyParts(rules);
      var prefix := BlocksBelow(start);
      var full := prefix + branch;
      var next;
      ok, next := SnapshotForBlocks(full);
      if !ok {
        return;
      }
      ReplacementDecided(rules, blocks, start, branch, next);
      var root := rules.root(next);
      ok := ReplacementAllowed(blocks, start, branch, next, root);
      if ok {
        blocks, state, stateRoot := full, next, root;
      }
    }
  }

  lemma NoAccount(s: Snapshot, l: Ledger, a: Address)
    requires SnapshotOf(s, l) && forall e :: e in s.accounts ==> e.address != a
    requires l.confirmed[a] <= MAX_U64 && l.mature[a] <= MAX_U64 && l.nonces[a] <= MAX_U64
    ensures a !in l.known
  {
    hide Assets.Exports;
    var e := StateAccount(a, l.confirmed[a], l.mature[a], l.nonces[a]);
    assert e in s.accounts <==> Describes(e, l);
  }

  lemma OwnersStakes(env: Env, s: Snapshot, l: Ledger, a: Address, stakes: set<Staking.Stake>)
    requires SnapshotOf(s, l) && Sound(env, l) && stakes == set r | r in s.stakes && r.owner == a
    ensures DistinctStakes(stakes) && StakesFrom(stakes, Balances.OwnedBy(l.stakes, a)) && s.height == l.height
    ensures Staking.Refresh(Balances.OwnedBy(l.stakes, a), l.height) == Balances.OwnedBy(l.stakes, a)
  {
    hide LedgerInvariant.ViewsAgree, LedgerInvariant.StakeCovered, LedgerInvariant.EntriesExist,
         AssetSupply.IssuedMatch, Assets.Exports, Describes, Staking.Refresh, Ascending;
    Balances.OwnersCurrent(l.stakes, a, l.height);
  }

  lemma AllStakes(env: Env, l: Ledger, stakes: set<Staking.Stake>)
    requires Sound(env, l) && forall r :: r in stakes <==> exists id :: id in l.stakes && l.stakes[id] == r
    ensures DistinctStakes(stakes) && StakesFrom(stakes, l.stakes)
    ensures Staking.Refresh(l.stakes, l.height) == l.stakes
  {
    hide LedgerInvariant.ViewsAgree, LedgerInvariant.StakeCovered, LedgerInvariant.EntriesExist,
         AssetSupply.IssuedMatch, Staking.Refresh, Ascending;
  }

  lemma StoredHeight(rules: Rules, blocks: seq<Block>, i: nat)
    requires rules.WellFormed() && StoredChain(rules, blocks) && i < |blocks|
    ensures blocks[i].height == i
  {
    hide ValidBlock;
    HeightIsIndex(rules, blocks, i);
  }

  lemma ReadyParts(rules: Rules)
    requires Ready(rules)
    ensures rules.WellFormed() && rules.env.AssetModel() && rules.env.AddressesSound()
  {
  }

  lemma GenesisStored(rules: Rules)
    requires Ready(rules)
    ensures StoredChain(rules, [rules.genesis]) && Replay(rules.env, [rules.genesis]).Some?
  {
    hide Replay;
    ChainSafety.EmptyGenesisReplays(rules, rules.genesis);
    assert GenesisAccepted(rules, rules.genesis);
  }
}
