/** What every block of a stored chain looks like (chain/validation.go, chain/resources.go), in its own fields, the
    network's parameters and what the oracle computes. */
module Consensus {
  import opened Arith
  import opened Types
  import opened Ledgers
  import opened Chains
  import Accounts
  import Difficulty
  import Fees
  import Validation

  function OrDefault(n: nat, default: nat): nat {
    if n == 0 then default else n
  }

  /** The first block is the network's genesis in everything its hash covers but difficulty, nonce and miner, and
      has the genesis' hash as its own. */
  lemma GenesisLooks(rules: Rules, blocks: seq<Block>)
    requires rules.WellFormed() && StoredChain(rules, blocks)
    ensures
      var b, g := blocks[0], rules.genesis;
      && b.height == 0 && b.hash == g.hash && b.previousHash == g.previousHash && b.timestamp == g.timestamp
      && b.merkleRoot == g.merkleRoot && b.genesisMarker == g.genesisMarker
      && rules.env.oracle.blockHash(b.(txs := [], hash := "")) == b.hash
  {
    hide ValidBlock, LinkedAt;
  }

  /** Every later block names its parent, is the next in height and not earlier in time, has the difficulty that
      follows from the blocks before it, a hash of its own header that meets it, the Merkle root of its
      transactions, a valid miner and the network's version. */
  lemma HeaderLooks(rules: Rules, blocks: seq<Block>, i: nat)
    requires rules.WellFormed() && StoredChain(rules, blocks) && 0 < i < |blocks|
    ensures
      var b, parent, p, o := blocks[i], blocks[i - 1], rules.env.profile, rules.env.oracle;
      && b.height == i && b.previousHash == parent.hash
      && parent.timestamp <= b.timestamp <= rules.now + Difficulty.Normalize(p.difficulty).maxFutureDrift
      && b.difficulty == Difficulty.Next(blocks[..i], p.difficulty)
      && b.hash == o.blockHash(b.(txs := [], hash := "")) && o.meetsTarget(b.hash, b.difficulty)
      && b.merkleRoot == o.merkleRoot(b.txs)
      && o.validAddress(b.miner)
      && OrDefault(b.version, 1) == OrDefault(p.blockVersion, 1) <= MAX_BLOCK_VERSION
  {
    HeightIsIndex(rules, blocks, i);
    assert LinkedAt(blocks, i) && ValidBlock(rules, blocks[i], blocks[..i]);
    hide StoredChain, TxListAllowed, Executes, ResourcesAllowed, Contiguous, Difficulty.Next, Difficulty.Normalize,
         Rules.WellFormed;
  }

  /** It is within the network's limits. */
  lemma SizeLooks(rules: Rules, blocks: seq<Block>, i: nat)
    requires rules.WellFormed() && StoredChain(rules, blocks) && 0 < i < |blocks|
    ensures
      var b, p, o := blocks[i], rules.env.profile, rules.env.oracle;
      && |b.txs| <= OrDefault(p.maxTxCount, 2000)
      && (forall k :: 0 <= k < |b.txs| ==> o.txBytes(b.txs[k]) <= OrDefault(p.maxTxBytes, 131072))
      && o.blockBytes(b) <= OrDefault(p.maxBlockBytes, 1048576)
      && GasTotal(rules.env, b.txs).Some?
      && (p.maxGasPerBlock > 0 ==> GasTotal(rules.env, b.txs).value <= p.maxGasPerBlock)
  {
    assert ValidBlock(rules, blocks[i], blocks[..i]);
    hide StoredChain, TxListAllowed, Executes, GasTotal, Rules.WellFormed;
    assert ResourcesAllowed(rules.env, blocks[i]);
    forall k | 0 <= k < |blocks[i].txs|
      ensures rules.env.oracle.txBytes(blocks[i].txs[k]) <= OrDefault(rules.env.profile.maxTxBytes, 131072)
    {
      assert TxSizeAllowed(rules.env, blocks[i].txs[k]);
    }
  }

  /** What the producer may pay itself: the subsidy, and before the asset model the old reward with the fees of
      the block's transfers. */
  function FeesOfTransfers(txs: seq<Transaction>): nat {
    if txs == [] then 0
    else FeesOfTransfers(txs[..|txs| - 1])
         + (if !txs[|txs| - 1].coinbase && txs[|txs| - 1].Kind() == Transfer then txs[|txs| - 1].fee else 0)
  }

  lemma {:induction false} FeesBefore(env: Env, txs: seq<Transaction>)
    requires !env.AssetModel()
    ensures FeeTotal(env, txs) == FeesOfTransfers(txs)
  {
    if txs != [] {
      FeesBefore(env, txs[..|txs| - 1]);
    }
  }

  lemma {:induction false} OneInFront(env: Env, txs: seq<Transaction>)
    requires forall k :: 0 <= k < |txs| ==> TxAllowed(env, txs[k], k)
    ensures CoinbaseCount(txs) == 1 ==> txs != [] && txs[0].coinbase
    ensures forall k :: 1 <= k < |txs| ==> !txs[k].coinbase
  {
    Validation.AtMostOneCoinbase(env, txs);
    forall k | 1 <= k < |txs|
      ensures !txs[k].coinbase
    {
      assert TxAllowed(env, txs[k], k);
    }
    hide TxAllowed;
    if txs == [] {
      assert CoinbaseCount(txs) == 0;
    }
  }

  /** Its first transaction, and no other, is a coinbase: of the right sender, under its own id, over exactly what
      the producer may pay itself, to a valid address. */
  lemma CoinbaseLooks(rules: Rules, blocks: seq<Block>, i: nat)
    requires rules.WellFormed() && StoredChain(rules, blocks) && 0 < i < |blocks|
    ensures
      var b, p, o := blocks[i], rules.env.profile, rules.env.oracle;
      && b.txs != [] && b.txs[0].coinbase && (forall k :: 1 <= k < |b.txs| ==> !b.txs[k].coinbase)
      && b.txs[0].sender == "COINBASE" && o.txId(b.txs[0]) == Some(b.txs[0].id)
      && (p.txVersion >= 3 ==> b.txs[0].amount == p.blockSubsidy)
      && (p.txVersion < 3 ==> b.txs[0].amount == 5000000000 + FeesOfTransfers(b.txs))
  {
    HeightIsIndex(rules, blocks, i);
    assert ValidBlock(rules, blocks[i], blocks[..i]);
    hide StoredChain, HeaderValid, Executes, Rules.WellFormed, GasTotal, Fees.Acceptable;
    var env, b := rules.env, blocks[i];
    OneInFront(env, b.txs);
    assert TxAllowed(env, b.txs[0], 0);
    if !env.AssetModel() {
      FeesBefore(env, b.txs);
    }
  }

  /** Its other transactions have an active version, move something, are not sent to their sender, and pay enough. */
  lemma TransactionsLook(rules: Rules, blocks: seq<Block>, i: nat, k: nat)
    requires rules.WellFormed() && StoredChain(rules, blocks) && 0 < i < |blocks| && 0 < k < |blocks[i].txs|
    ensures
      var tx := blocks[i].txs[k];
      && OrDefault(tx.version, 1) <= OrDefault(rules.env.profile.txVersion, 1) && OrDefault(tx.version, 1) <= 3
      && (tx.Kind() == Transfer ==> tx.amount > 0 && tx.sender != tx.recipient)
      && (tx.Kind() == StakeLock ==> tx.amount > 0)
      && Fees.Acceptable(rules.env, tx)
      && Accounts.SignedBy(rules.env, tx, tx.sender) && (forall a :: Accounts.PaysFee(tx, a) ==> Accounts.AgreedTo(rules.env, tx, a))
  {
    CoinbaseLooks(rules, blocks, i);
    assert ValidBlock(rules, blocks[i], blocks[..i]);
    hide StoredChain, HeaderValid, Rules.WellFormed, GasTotal, Fees.Acceptable, ApplyAll, Replay, StateRootValid,
         Accounts.SignedBy, Accounts.PaysFee, Accounts.AgreedTo, CoinbaseCount, FeeTotal;
    assert TxAllowed(rules.env, blocks[i].txs[k], k);
    Accounts.ListAgreed(rules.env, Replay(rules.env, blocks[..i]).value, blocks[i].txs, blocks[i].height, k);
  }
}
