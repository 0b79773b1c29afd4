/** What makes a block and a chain valid (chain/validation.go, chain/resources.go). */
module Chains {
  import opened Arith
  import opened Types
  import opened Ledgers
  import Difficulty
  import Fees
  import Snapshots

  const DEFAULT_MAX_TX_COUNT: nat := 2000
  const DEFAULT_MAX_TX_BYTES: nat := 131072
  const DEFAULT_MAX_BLOCK_BYTES: nat := 1048576
  const INITIAL_BLOCK_REWARD: u64 := 5000000000

  datatype Rules = Rules(
    env: Env,
    genesis: Block,                    // GenesisBlockForNetwork
    now: int,                          // the clock, fixed
    root: Snapshots.Snapshot -> Hash)  // state root of exported collections
  {
    ghost predicate WellFormed() {
      && env.AddressesSound()
      && genesis.height == 0 && genesis.txs == []
      && genesis.hash == HashOf(env, genesis)
    }
  }

  /** Header hashes cover neither the transactions themselves nor the stored hash. */
  function HashOf(env: Env, b: Block): Hash {
    env.oracle.blockHash(b.(txs := [], hash := ""))
  }

  predicate GenesisAccepted(rules: Rules, b: Block) {
    var g := rules.genesis;
    && b.hash == g.hash && b.height == g.height && b.previousHash == g.previousHash
    && b.timestamp == g.timestamp && b.merkleRoot == g.merkleRoot && b.genesisMarker == g.genesisMarker
    && b.hash == HashOf(rules.env, b)
  }

  predicate Linked(parent: Block, b: Block) {
    b.previousHash == parent.hash && b.height == parent.height + 1
  }

  predicate LinkedAt(blocks: seq<Block>, i: nat)
    requires 1 <= i < |blocks|
  {
    Linked(blocks[i - 1], blocks[i])
  }

  // ---------------------------------------------------------------- block rules

  function GasTotal(env: Env, txs: seq<Transaction>): Option<nat> {
    if txs == [] then Some(0) else
    var before :- GasTotal(env, txs[..|txs| - 1]);
    var gas :- Fees.GasUsed(env, txs[|txs| - 1]);
    Some(before + gas)
  }

  predicate TxSizeAllowed(env: Env, tx: Transaction) {
    env.oracle.txBytes(tx) <= (if env.profile.maxTxBytes == 0 then DEFAULT_MAX_TX_BYTES else env.profile.maxTxBytes)
  }

  predicate ResourcesAllowed(env: Env, b: Block) {
    var p := env.profile;
    && |b.txs| <= (if p.maxTxCount == 0 then DEFAULT_MAX_TX_COUNT else p.maxTxCount)
    && (forall i :: 0 <= i < |b.txs| ==> TxSizeAllowed(env, b.txs[i]))
    && GasTotal(env, b.txs).Some? && GasTotal(env, b.txs).value <= MAX_U64
    && (p.maxGasPerBlock > 0 ==> GasTotal(env, b.txs).value <= p.maxGasPerBlock)
    && env.oracle.blockBytes(b) <= (if p.maxBlockBytes == 0 then DEFAULT_MAX_BLOCK_BYTES else p.maxBlockBytes)
  }

  predicate TimestampAllowed(rules: Rules, b: Block, parent: Block) {
    var p := Difficulty.Normalize(rules.env.profile.difficulty);
    parent.timestamp <= b.timestamp <= rules.now + p.maxFutureDrift
  }

  predicate HeaderValid(rules: Rules, b: Block, prior: seq<Block>)
    requires prior != []
  {
    var env := rules.env;
    && BlockVersionActive(b.ProtocolVersion(), env.profile.blockVersion)
    && b.hash == HashOf(env, b)
    && b.merkleRoot == env.oracle.merkleRoot(b.txs)
    && ResourcesAllowed(env, b)
    && (b.height > 0 ==>
          && b.difficulty == Difficulty.Next(prior, env.profile.difficulty)
          && TimestampAllowed(rules, b, prior[|prior| - 1])
          && env.ValidAddress(b.miner)
          && env.oracle.meetsTarget(b.hash, b.difficulty))
  }

  predicate TxAllowed(env: Env, tx: Transaction, index: nat) {
    && TxVersionActive(tx.ProtocolVersion(), env.profile.txVersion)
    && if tx.coinbase then
         index == 0 && tx.sender == COINBASE_SENDER && env.oracle.txId(tx) == Some(tx.id)
       else
         && (tx.Kind() == Transfer || tx.Kind() == StakeLock ==> tx.amount > 0)
         && (tx.Kind() == Transfer ==> tx.sender != tx.recipient)
         && Fees.Acceptable(env, tx)
  }

  /** The fees a block collects: all of them with the asset model, transfers' fees before it. */
  function CountedFee(env: Env, tx: Transaction): u64 {
    if !tx.coinbase && (env.AssetModel() || tx.Kind() == Transfer) then tx.fee else 0
  }

  function FeeTotal(env: Env, txs: seq<Transaction>): nat {
    if txs == [] then 0 else FeeTotal(env, txs[..|txs| - 1]) + CountedFee(env, txs[|txs| - 1])
  }

  function Reward(env: Env, txs: seq<Transaction>): nat {
    if env.AssetModel() then env.profile.blockSubsidy else INITIAL_BLOCK_REWARD + FeeTotal(env, txs)
  }

  predicate TxListAllowed(env: Env, b: Block) {
    && (forall i :: 0 <= i < |b.txs| ==> TxAllowed(env, b.txs[i], i))
    && FeeTotal(env, b.txs) <= MAX_U64
    && (b.height > 0 ==>
          && CoinbaseCount(b.txs) == 1
          && Reward(env, b.txs) <= MAX_U64
          && forall i :: 0 <= i < |b.txs| && b.txs[i].coinbase ==> b.txs[i].amount == Reward(env, b.txs))
  }

  /** The collections the state root of `l` is computed from. */
  ghost predicate RootInputs(env: Env, s: Snapshots.Snapshot, l: Ledger) {
    if env.AssetModel() then Snapshots.SnapshotOf(s, l)
    else
      && s.definitions == {} && s.balances == {} && s.height == l.height && s.coinbases == l.pending
      && (forall e :: e in s.accounts <==> Snapshots.Describes(e, l))
      && (forall r :: r in s.stakes <==> exists id :: id in l.stakes && l.stakes[id] == r)
  }

  ghost predicate StateRootValid(rules: Rules, b: Block, before: Ledger) {
    b.ProtocolVersion() == BLOCK_VERSION_CANONICAL ==>
      && ApplyBlock(rules.env, before, b).Some?
      && b.stateRoot != ""
      && exists s :: RootInputs(rules.env, s, ApplyBlock(rules.env, before, b).value) && rules.root(s) == b.stateRoot
  }

  ghost predicate Executes(rules: Rules, b: Block, prior: seq<Block>) {
    var before := Replay(rules.env, prior);
    && before.Some?
    && ApplyAll(rules.env, before.value, b.txs, b.height).Some?
    && StateRootValid(rules, b, before.value)
  }

  /** `validateBlock` on top of `prior`. */
  ghost predicate ValidBlock(rules: Rules, b: Block, prior: seq<Block>)
    requires prior != []
  {
    HeaderValid(rules, b, prior) && TxListAllowed(rules.env, b) && Executes(rules, b, prior)
  }

  // ---------------------------------------------------------------- chain rules

  function AllTxs(blocks: seq<Block>): seq<Transaction> {
    if blocks == [] then [] else AllTxs(blocks[..|blocks| - 1]) + blocks[|blocks| - 1].txs
  }

  ghost predicate DistinctIds(txs: seq<Transaction>) {
    && (forall i :: 0 <= i < |txs| ==> txs[i].id != "")
    && (forall i, j :: 0 <= i < j < |txs| ==> txs[i].id != txs[j].id)
  }

  ghost predicate Contiguous(rules: Rules, blocks: seq<Block>) {
    && blocks != []
    && GenesisAccepted(rules, blocks[0])
    && forall i :: 1 <= i < |blocks| ==> LinkedAt(blocks, i)
  }

  /** A deterministic genesis and linked valid blocks: what storing one accepted block after another
      builds up. */
  ghost predicate StoredChain(rules: Rules, blocks: seq<Block>) {
    && Contiguous(rules, blocks)
    && forall i :: 1 <= i < |blocks| ==> ValidBlock(rules, blocks[i], blocks[..i])
  }

  /** `validateChain` asks in addition that no transaction id occurs twice after the genesis. */
  ghost predicate ValidChain(rules: Rules, blocks: seq<Block>) {
    StoredChain(rules, blocks) && DistinctIds(AllTxs(blocks[1..]))
  }

  /** `ValidateNextBlockWithNetwork` */
  ghost predicate ValidNext(rules: Rules, b: Block, blocks: seq<Block>)
    requires blocks != []
  {
    Linked(blocks[|blocks| - 1], b) && ValidBlock(rules, b, blocks)
  }

  lemma {:induction false} HeightIsIndex(rules: Rules, blocks: seq<Block>, i: nat)
    requires rules.WellFormed() && Contiguous(rules, blocks) && i < |blocks|
    ensures blocks[i].height == i
  {
    if i > 0 {
      HeightIsIndex(rules, blocks, i - 1);
      assert LinkedAt(blocks, i);
    }
  }

  lemma PrefixContiguous(rules: Rules, blocks: seq<Block>, n: nat)
    requires Contiguous(rules, blocks) && 0 < n <= |blocks|
    ensures Contiguous(rules, blocks[..n])
  {
    hide GenesisAccepted, Linked;
    forall i | 1 <= i < n
      ensures LinkedAt(blocks[..n], i)
    {
      assert LinkedAt(blocks, i);
    }
  }

  lemma {:induction false} AllTxsAppend(blocks: seq<Block>, b: Block)
    ensures AllTxs(blocks + [b]) == AllTxs(blocks) + b.txs
  {
    assert (blocks + [b])[..|blocks|] == blocks;
  }

  /** New ids for a block on top of a chain: present, distinct, and unused since the genesis. */
  ghost predicate FreshIds(b: Block, blocks: seq<Block>)
    requires blocks != []
  {
    && DistinctIds(b.txs)
    && forall i, j :: 0 <= i < |b.txs| && 0 <= j < |AllTxs(blocks[1..])| ==> b.txs[i].id != AllTxs(blocks[1..])[j].id
  }

  lemma DistinctConcat(x: seq<Transaction>, y: seq<Transaction>)
    ensures DistinctIds(x + y) <==>
            && DistinctIds(x) && DistinctIds(y)
            && forall i, j :: 0 <= i < |y| && 0 <= j < |x| ==> y[i].id != x[j].id
  {
    var z := x + y;
    if DistinctIds(z) {
      assert forall i :: 0 <= i < |x| ==> z[i] == x[i];
      assert forall i :: 0 <= i < |y| ==> z[|x| + i] == y[i];
    }
  }

  /** A stored chain grows by exactly the blocks incremental validation accepts. */
  lemma StoredGrows(rules: Rules, blocks: seq<Block>, b: Block)
    requires rules.WellFormed() && blocks != []
    ensures StoredChain(rules, blocks + [b]) <==> StoredChain(rules, blocks) && ValidNext(rules, b, blocks)
  {
    hide ValidBlock, GenesisAccepted, Linked;
    var longer := blocks + [b];
    var n := |blocks|;
    assert forall i {:trigger longer[i]} :: 0 <= i < n ==> longer[i] == blocks[i];
    assert forall i {:trigger longer[..i]} :: 0 <= i <= n ==> longer[..i] == blocks[..i];
    if StoredChain(rules, longer) {
      assert LinkedAt(longer, n) && ValidBlock(rules, longer[n], longer[..n]);
      forall i {:trigger blocks[i]} | 1 <= i < n
        ensures LinkedAt(blocks, i) && ValidBlock(rules, blocks[i], blocks[..i])
      {
        assert LinkedAt(longer, i) && ValidBlock(rules, longer[i], longer[..i]);
      }
    } else if StoredChain(rules, blocks) && ValidNext(rules, b, blocks) {
      forall i | 1 <= i < |longer|
        ensures LinkedAt(longer, i) && ValidBlock(rules, longer[i], longer[..i])
      {
        if i < n {
          assert LinkedAt(blocks, i) && ValidBlock(rules, blocks[i], blocks[..i]);
        }
      }
    }
  }

  /** Whole-chain validation is incremental validation plus fresh transaction ids. */
  lemma IncrementalValidation(rules: Rules, blocks: seq<Block>, b: Block)
    requires rules.WellFormed() && blocks != []
    ensures ValidChain(rules, blocks + [b]) <==>
            ValidChain(rules, blocks) && ValidNext(rules, b, blocks) && FreshIds(b, blocks)
  {
    hide StoredChain, ValidNext, DistinctIds;
    StoredGrows(rules, blocks, b);
    assert (blocks + [b])[1..] == blocks[1..] + [b];
    AllTxsAppend(blocks[1..], b);
    DistinctConcat(AllTxs(blocks[1..]), b.txs);
  }
}
