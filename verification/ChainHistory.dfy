/** What a replayed ledger remembers of its chain: exactly which coinbases are still immature,
    and exactly which nonces each sender has used. */
module ChainHistory {
  import opened Arith
  import opened Types
  import opened Ledgers
  import opened LedgerInvariant
  import opened Chains
  import ChainSafety
  import Difficulty
  import MatureLedgers
  import Staking
  import Assets
  import AssetSupply
  import Fees
  import Snapshots
  import Text

  // ---------------------------------------------------------------- coinbase maturity

  /** The non-zero coinbases of a transaction list paid at `height`. */
  function CreditsOf(txs: seq<Transaction>, height: u64): seq<PendingCoinbase> {
    if txs == [] then []
    else
      var tx := txs[|txs| - 1];
      CreditsOf(txs[..|txs| - 1], height)
        + (if tx.coinbase && tx.amount > 0 then [PendingCoinbase(tx.recipient, tx.amount, height)] else [])
  }

  function Credits(blocks: seq<Block>): seq<PendingCoinbase> {
    if blocks == [] then []
    else Credits(blocks[..|blocks| - 1]) + CreditsOf(blocks[|blocks| - 1].txs, blocks[|blocks| - 1].height)
  }

  lemma {:induction false} ImmatureConcat(env: Env, x: seq<PendingCoinbase>, y: seq<PendingCoinbase>, height: u64)
    ensures Immature(env, x + y, height) == Immature(env, x, height) + Immature(env, y, height)
  {
    if y == [] {
      assert x + y == x;
    } else {
      var n := |y| - 1;
      assert (x + y)[..|x + y| - 1] == x + y[..n];
      ImmatureConcat(env, x, y[..n], height);
    }
  }

  /** Maturing at one height and then at a later one is maturing at the later one. */
  lemma {:induction false} ImmatureTwice(env: Env, x: seq<PendingCoinbase>, early: u64, late: u64)
    requires early <= late
    ensures Immature(env, Immature(env, x, early), late) == Immature(env, x, late)
  {
    if x != [] {
      var n := |x| - 1;
      ImmatureTwice(env, x[..n], early, late);
      var before := Immature(env, x[..n], early);
      if !Due(env, x[n], early) {
        assert (before + [x[n]])[..|before|] == before;
      }
    }
  }

  lemma EffectKeepsPending(env: Env, l: Ledger, tx: Transaction, height: u64)
    ensures ApplyTransaction(env, l, tx, height).Some? ==>
              ApplyTransaction(env, l, tx, height).value.pending == l.pending
  {
    hide ValidTransaction, EffectV3, LegacyEffect;
    EffectV3KeepsPending(l, tx);
    LegacyKeepsPending(env, l, tx, height);
  }

  lemma EffectV3KeepsPending(l: Ledger, tx: Transaction)
    ensures EffectV3(l, tx).Some? ==> EffectV3(l, tx).value.pending == l.pending
  {
    hide TokenEffect, SpendAllowed, Assets.AssetBook.Credit, Assets.AssetBook.Debit, MovesNative;
  }

  lemma LegacyKeepsPending(env: Env, l: Ledger, tx: Transaction, height: u64)
    ensures LegacyEffect(env, l, tx, height).Some? ==> LegacyEffect(env, l, tx, height).value.pending == l.pending
  {
    hide LegacyBook, Staking.ApplyLock, Staking.ApplyUnlock, Staking.Refresh;
  }

  lemma {:induction false} ApplyAllPending(env: Env, l: Ledger, txs: seq<Transaction>, height: u64)
    requires ApplyAll(env, l, txs, height).Some?
    ensures ApplyAll(env, l, txs, height).value.pending == l.pending + CreditsOf(txs, height)
  {
    hide ApplyTransaction;
    if txs != [] {
      var n := |txs| - 1;
      ApplyAllPending(env, l, txs[..n], height);
      EffectKeepsPending(env, ApplyAll(env, l, txs[..n], height).value, txs[n], height);
    }
  }

  lemma SettleKeepsPending(env: Env, l: Ledger, b: Block)
    ensures Settle(env, l, b).Some? ==> Settle(env, l, b).value.pending == l.pending
  {
  }

  lemma BlockPending(env: Env, l: Ledger, b: Block)
    requires Coherent(env, l) && env.AddressesSound() && ApplyBlock(env, l, b).Some?
    ensures
      var ready := if b.height > 0 then Immature(env, l.pending, b.height - 1) else l.pending;
      ApplyBlock(env, l, b).value.pending == Immature(env, ready + CreditsOf(b.txs, b.height), b.height)
  {
    hide Coherent, Supply, CloseBlock, ApplyAll, Settle, FeePool, Immature, MatureCoinbases;
    if b.height > 0 {
      MatureKeeps(env, l, b.height - 1);
    }
    var ready := OpenBlock(env, l, b);
    OpenKeeps(env, l, b);
    ApplyAllKeeps(env, ready, b.txs, b.height);
    ApplyAllPending(env, ready, b.txs, b.height);
    var applied := ApplyAll(env, ready, b.txs, b.height).value;
    SettleKeeps(env, applied, b);
    SettleKeepsPending(env, applied, b);
    CloseKeeps(env, Settle(env, applied, b).value, b);
  }

  /** Heights grow by one from the genesis. */
  ghost predicate Counted(blocks: seq<Block>) {
    blocks != [] ==>
      var n := |blocks| - 1;
      if n == 0 then blocks[n].height == 0 else blocks[n].height == blocks[n - 1].height + 1 && Counted(blocks[..n])
  }

  lemma CreditsMature(env: Env, earlier: seq<PendingCoinbase>, added: seq<PendingCoinbase>, height: u64)
    requires height > 0
    ensures Immature(env, Immature(env, Immature(env, earlier, height - 1), height - 1) + added, height)
         == Immature(env, earlier + added, height)
  {
    hide Immature;
    ImmatureTwice(env, earlier, height - 1, height - 1);
    ImmatureConcat(env, Immature(env, earlier, height - 1), added, height);
    ImmatureTwice(env, earlier, height - 1, height);
    ImmatureConcat(env, earlier, added, height);
  }

  lemma {:induction false} PendingOfBlocks(env: Env, blocks: seq<Block>)
    requires env.AddressesSound() && blocks != [] && Counted(blocks)
    requires ApplyBlocks(env, NEW_LEDGER, blocks).Some?
    ensures ApplyBlocks(env, NEW_LEDGER, blocks).value.pending
         == Immature(env, Credits(blocks), blocks[|blocks| - 1].height)
  {
    hide ApplyBlock, Coherent, Supply, FeePool, Immature, CreditsOf;
    var n := |blocks| - 1;
    var b := blocks[n];
    ReachableCoherent(env, blocks[..n]);
    BlockPending(env, ApplyBlocks(env, NEW_LEDGER, blocks[..n]).value, b);
    if n == 0 {
      assert blocks[..n] == [];
      assert [] + CreditsOf(b.txs, 0) == CreditsOf(b.txs, 0);
    } else {
      PendingOfBlocks(env, blocks[..n]);
      CreditsMature(env, Credits(blocks[..n]), CreditsOf(b.txs, b.height), b.height);
    }
  }

  lemma {:induction false} ChainCounted(rules: Rules, blocks: seq<Block>)
    requires rules.WellFormed() && Contiguous(rules, blocks)
    ensures Counted(blocks)
  {
    hide GenesisAccepted;
    var n := |blocks| - 1;
    if n == 0 {
      HeightIsIndex(rules, blocks, 0);
    } else {
      assert LinkedAt(blocks, n);
      PrefixContiguous(rules, blocks, n);
      ChainCounted(rules, blocks[..n]);
    }
  }

  /** After the block at height H the pending list is exactly the non-zero coinbases, in chain
      order, paid at heights c with c + maturity > H; everything else an account owns is mature. */
  lemma ExactMaturity(rules: Rules, blocks: seq<Block>)
    requires rules.WellFormed() && StoredChain(rules, blocks) && Replay(rules.env, blocks).Some?
    ensures
      var l := Replay(rules.env, blocks).value;
      var tip := blocks[|blocks| - 1].height;
      && l.pending == Immature(rules.env, Credits(blocks), tip)
      && (forall c :: c in l.pending <==>
            c in Credits(blocks) && c.height + rules.env.profile.coinbaseMaturity > tip)
      && l.mature + Owed(l.pending) == l.confirmed
  {
    ChainCounted(rules, blocks);
    hide StoredChain, Counted, ApplyBlocks, Replay, Immature, Owed, Credits, Rules.WellFormed;
    var env := rules.env;
    SoundAddresses(rules);
    ChainSafety.ReplayIsApplyBlocks(env, blocks);
    ChainSafety.ReplayRests(env, blocks);
    PendingOfBlocks(env, blocks);
    ImmatureMembers(env, Credits(blocks), blocks[|blocks| - 1].height);
  }

  lemma SoundAddresses(rules: Rules)
    requires rules.WellFormed()
    ensures rules.env.AddressesSound()
  {
  }

  // ---------------------------------------------------------------- persisted state

  lemma {:induction false} CreditsOfOne(env: Env, l: Ledger, txs: seq<Transaction>, height: u64)
    requires ApplyAll(env, l, txs, height).Some? && CoinbaseCount(txs) <= 1 && env.AddressesSound()
    ensures |CreditsOf(txs, height)| <= CoinbaseCount(txs)
    ensures Snapshots.Ascending(CreditsOf(txs, height), height + 1)
    ensures forall i :: 0 <= i < |CreditsOf(txs, height)| ==> CreditsOf(txs, height)[i].height == height
  {
    hide ApplyTransaction;
    if txs != [] {
      var n := |txs| - 1;
      CreditsOfOne(env, l, txs[..n], height);
      if txs[n].coinbase {
        CoinbaseNamed(env, ApplyAll(env, l, txs[..n], height).value, txs[n], height);
      }
    }
  }

  lemma CoinbaseNamed(env: Env, l: Ledger, tx: Transaction, height: u64)
    requires ApplyCoinbase(env, l, tx, height).Some? && env.AddressesSound()
    ensures tx.recipient != ""
  {
    assert Text.Blank("");
  }

  lemma {:induction false} AscendingAppend(x: seq<PendingCoinbase>, y: seq<PendingCoinbase>, height: nat, limit: nat)
    requires Snapshots.Ascending(x, height) && Snapshots.Ascending(y, limit) && height <= limit
    requires forall i :: 0 <= i < |y| ==> y[i].height >= height
    ensures Snapshots.Ascending(x + y, limit)
  {
    if y == [] {
      assert x + y == x;
    } else {
      var n := |y| - 1;
      assert (x + y)[..|x + y| - 1] == x + y[..n];
      AscendingAppend(x, y[..n], height, y[n].height);
    }
  }

  lemma {:induction false} CreditsAscend(env: Env, blocks: seq<Block>)
    requires env.AddressesSound() && blocks != [] && Counted(blocks) && ApplyBlocks(env, NEW_LEDGER, blocks).Some?
    ensures Snapshots.Ascending(Credits(blocks), blocks[|blocks| - 1].height + 1)
  {
    hide ApplyAll, CreditsOf, Snapshots.Ascending, Settle, CloseBlock, CoinbaseCount;
    var n := |blocks| - 1;
    var b := blocks[n];
    var before := ApplyBlocks(env, NEW_LEDGER, blocks[..n]).value;
    CreditsOfOne(env, OpenBlock(env, before, b), b.txs, b.height);
    if n == 0 {
      assert blocks[..n] == [];
      assert Credits(blocks) == CreditsOf(b.txs, b.height);
    } else {
      CreditsAscend(env, blocks[..n]);
      AscendingAppend(Credits(blocks[..n]), CreditsOf(b.txs, b.height), b.height, b.height + 1);
    }
  }

  lemma {:induction false} ImmatureAscends(env: Env, credits: seq<PendingCoinbase>, height: u64, limit: nat, above: nat)
    requires Snapshots.Ascending(credits, limit) && limit <= above
    ensures Snapshots.Ascending(Immature(env, credits, height), above)
  {
    if credits != [] {
      var n := |credits| - 1;
      ImmatureAscends(env, credits[..n], height, credits[n].height, credits[n].height);
      ImmatureAscends(env, credits[..n], height, credits[n].height, above);
      var before := Immature(env, credits[..n], height);
      assert (before + [credits[n]])[..|before|] == before;
    }
  }

  lemma PendingAscends(env: Env, blocks: seq<Block>)
    requires env.AddressesSound() && blocks != [] && Counted(blocks) && ApplyBlocks(env, NEW_LEDGER, blocks).Some?
    ensures Snapshots.Ascending(ApplyBlocks(env, NEW_LEDGER, blocks).value.pending, blocks[|blocks| - 1].height + 1)
  {
    hide Counted, ApplyBlocks, Immature, Credits, Snapshots.Ascending, Env.AddressesSound;
    PendingOfBlocks(env, blocks);
    CreditsAscend(env, blocks);
    var tip: int := blocks[|blocks| - 1].height;
    ImmatureAscends(env, Credits(blocks), tip, tip + 1, tip + 1);
  }

  lemma SoundParts(env: Env, l: Ledger)
    requires env.AssetModel() && ChainSafety.AtRest(env, l) && AssetSupply.IssuedMatch(l.assets)
    requires Snapshots.Ascending(l.pending, l.height + 1)
    ensures Snapshots.Sound(env, l)
  {
    hide Coherent, FeePool, AssetSupply.IssuedMatch, Snapshots.Ascending;
  }

  /** The ledger replayed from a stored chain is one whose snapshot is accepted and rebuilds it. */
  lemma ReplaySound(rules: Rules, blocks: seq<Block>)
    requires rules.WellFormed() && StoredChain(rules, blocks) && Replay(rules.env, blocks).Some? && rules.env.AssetModel()
    ensures Snapshots.Sound(rules.env, Replay(rules.env, blocks).value)
    ensures Replay(rules.env, blocks).value.height == blocks[|blocks| - 1].height
  {
    ChainCounted(rules, blocks);
    SoundAddresses(rules);
    hide *;
    var env := rules.env;
    ChainSafety.ReplayIsApplyBlocks(env, blocks);
    ChainSafety.ReplayRests(env, blocks);
    AssetSupply.ReachableMatches(env, blocks);
    PendingAscends(env, blocks);
    SoundParts(env, Replay(env, blocks).value);
  }

  /** While the transactions of block h run, mature balances contain exactly the coinbases paid at
      heights c with c + maturity <= h - 1: neither the block's own coinbase nor one maturing at h. */
  lemma MaturityDuringBlock(rules: Rules, b: Block, prior: seq<Block>, k: nat)
    requires rules.WellFormed() && StoredChain(rules, prior) && ValidNext(rules, b, prior) && k <= |b.txs|
    ensures
      var before := Replay(rules.env, prior).value;
      var mid := ApplyAll(rules.env, before, b.txs[..k], b.height);
      && mid.Some?
      && mid.value.pending == Immature(rules.env, Credits(prior), b.height - 1) + CreditsOf(b.txs[..k], b.height)
      && mid.value.mature + Owed(mid.value.pending) == mid.value.confirmed
  {
    ChainSafety.StoredChainStarts(rules, prior);
    BlockRuns(rules, b, prior);
    SoundAddresses(rules);
    hide StoredChain, ApplyBlocks, ApplyAll, Replay, Immature, Owed, Credits, CreditsOf, Rules.WellFormed, ValidNext, Coherent,
         ChainSafety.AtRest, Supply, IssuedBy, FeePool, Env.AddressesSound;
    var env := rules.env;
    ExactMaturity(rules, prior);
    ChainSafety.ReplayIsApplyBlocks(env, prior);
    ChainSafety.ReplayRests(env, prior);
    RunsSoFar(env, Replay(env, prior).value, b.txs, k, b.height);
  }

  lemma BlockRuns(rules: Rules, b: Block, prior: seq<Block>)
    requires prior != [] && ValidNext(rules, b, prior)
    ensures Replay(rules.env, prior).Some?
    ensures ApplyAll(rules.env, Replay(rules.env, prior).value, b.txs, b.height).Some?
    ensures b.height == prior[|prior| - 1].height + 1
  {
    hide HeaderValid, TxListAllowed, StateRootValid, Replay, ApplyAll;
  }

  lemma RunsSoFar(env: Env, l: Ledger, txs: seq<Transaction>, k: nat, height: u64)
    requires ChainSafety.AtRest(env, l) && env.AddressesSound() && ApplyAll(env, l, txs, height).Some? && k <= |txs|
    ensures
      var mid := ApplyAll(env, l, txs[..k], height);
      && mid.Some? && mid.value.pending == l.pending + CreditsOf(txs[..k], height)
      && mid.value.mature + Owed(mid.value.pending) == mid.value.confirmed
  {
    hide ApplyAll, CreditsOf, Owed, StakeCovered, EntriesExist, FeePool, Supply, Staking.Current;
    MatureLedgers.PrefixDecides(env, l, txs, k, height);
    ApplyAllKeeps(env, l, txs[..k], height);
    ApplyAllPending(env, l, txs[..k], height);
  }

  // ---------------------------------------------------------------- nonces

  /** The nonces of the transactions an address sent, in order; coinbases have none. */
  function SentBy(txs: seq<Transaction>, a: Address): seq<nat> {
    if txs == [] then []
    else
      var tx := txs[|txs| - 1];
      SentBy(txs[..|txs| - 1], a) + (if !tx.coinbase && tx.sender == a then [tx.nonce] else [])
  }

  /** [from + 1, ..., from + n] */
  function UpFrom(start: nat, n: nat): seq<nat> {
    seq(n, i => start + 1 + i)
  }

  lemma TransactionCounts(env: Env, l: Ledger, tx: Transaction, height: u64)
    requires ApplyTransaction(env, l, tx, height).Some?
    ensures tx.nonce == l.nonces[tx.sender] + 1
    ensures ApplyTransaction(env, l, tx, height).value.nonces == l.nonces[tx.sender := tx.nonce]
  {
    hide Executable, WellSigned, LegacyBook, TokenEffect, SpendAllowed, Assets.AssetBook.Credit, Assets.AssetBook.Debit,
         Staking.ApplyLock, Staking.ApplyUnlock, Staking.Refresh;
  }

  lemma {:induction false} ApplyAllCounts(env: Env, l: Ledger, txs: seq<Transaction>, height: u64, a: Address)
    requires ApplyAll(env, l, txs, height).Some?
    ensures
      var after := ApplyAll(env, l, txs, height).value;
      && after.nonces[a] == l.nonces[a] + |SentBy(txs, a)|
      && SentBy(txs, a) == UpFrom(l.nonces[a], |SentBy(txs, a)|)
  {
    hide ApplyTransaction;
    if txs != [] {
      var n := |txs| - 1;
      ApplyAllCounts(env, l, txs[..n], height, a);
      var before := ApplyAll(env, l, txs[..n], height).value;
      if !txs[n].coinbase {
        TransactionCounts(env, before, txs[n], height);
      }
    }
  }

  lemma {:induction false} MatureRunKeepsNonces(env: Env, l: Ledger, credits: seq<PendingCoinbase>, height: u64)
    ensures MatureRun(env, l, credits, height).nonces == l.nonces
  {
    if credits != [] {
      MatureRunKeepsNonces(env, l, credits[..|credits| - 1], height);
    }
  }

  lemma BlockCounts(env: Env, l: Ledger, b: Block, a: Address)
    requires ApplyBlock(env, l, b).Some?
    ensures
      var after := ApplyBlock(env, l, b).value;
      && after.nonces[a] == l.nonces[a] + |SentBy(b.txs, a)|
      && SentBy(b.txs, a) == UpFrom(l.nonces[a], |SentBy(b.txs, a)|)
  {
    hide MatureRun, ApplyAll, SettleFees, SentBy, UpFrom, Staking.Refresh;
    if b.height > 0 {
      MatureRunKeepsNonces(env, l, l.pending, b.height - 1);
    }
    var ready := OpenBlock(env, l, b);
    ApplyAllCounts(env, ready, b.txs, b.height, a);
    var applied := ApplyAll(env, ready, b.txs, b.height).value;
    SettleKeepsNonces(env, applied, b);
    var settled := Settle(env, applied, b).value;
    var closing := settled.(height := b.height, stakes := Staking.Refresh(settled.stakes, b.height));
    MatureRunKeepsNonces(env, closing, closing.pending, b.height);
  }

  lemma SettleKeepsNonces(env: Env, l: Ledger, b: Block)
    ensures Settle(env, l, b).Some? ==> Settle(env, l, b).value.nonces == l.nonces
  {
  }

  lemma {:induction false} SentByConcat(x: seq<Transaction>, y: seq<Transaction>, a: Address)
    ensures SentBy(x + y, a) == SentBy(x, a) + SentBy(y, a)
  {
    if y == [] {
      assert x + y == x;
    } else {
      var n := |y| - 1;
      assert (x + y)[..|x + y| - 1] == x + y[..n];
      SentByConcat(x, y[..n], a);
    }
  }

  /** In any replayable block list each sender's transactions carry exactly the nonces 1..k, in
      chain order, and the ledger's nonce is k. */
  lemma {:induction false} NoncesCountUp(env: Env, blocks: seq<Block>, a: Address)
    requires ApplyBlocks(env, NEW_LEDGER, blocks).Some?
    ensures
      var k := ApplyBlocks(env, NEW_LEDGER, blocks).value.nonces[a];
      SentBy(AllTxs(blocks), a) == UpFrom(0, k)
  {
    hide ApplyBlock;
    if blocks != [] {
      var n := |blocks| - 1;
      NoncesCountUp(env, blocks[..n], a);
      var before := ApplyBlocks(env, NEW_LEDGER, blocks[..n]).value;
      BlockCounts(env, before, blocks[n], a);
      SentByConcat(AllTxs(blocks[..n]), blocks[n].txs, a);
    }
  }

  /** Transaction ids bind the sender and the nonce. */
  ghost predicate IdsBind(env: Env) {
    forall t: Transaction, u: Transaction :: !t.coinbase && !u.coinbase && env.oracle.txId(t).Some? && env.oracle.txId(t) == env.oracle.txId(u)
              ==> t.sender == u.sender && t.nonce == u.nonce
  }

  /** Positions of a sender's transactions map in order into `SentBy`. */
  lemma {:induction false} SentPosition(txs: seq<Transaction>, i: nat)
    requires i < |txs| && !txs[i].coinbase
    ensures
      var a := txs[i].sender;
      var p := |SentBy(txs[..i], a)|;
      p < |SentBy(txs, a)| && SentBy(txs, a)[p] == txs[i].nonce
  {
    var n := |txs| - 1;
    if i < n {
      SentPosition(txs[..n], i);
      assert txs[..n][..i] == txs[..i];
    }
  }

  lemma {:induction false} SentPrefixGrows(txs: seq<Transaction>, i: nat, j: nat)
    requires i < j <= |txs| && !txs[i].coinbase
    ensures |SentBy(txs[..i], txs[i].sender)| < |SentBy(txs[..j], txs[i].sender)|
    decreases j
  {
    assert txs[..j][..j - 1] == txs[..j - 1];
    if i < j - 1 {
      SentPrefixGrows(txs, i, j - 1);
    }
  }

  lemma TransactionSigned(env: Env, l: Ledger, tx: Transaction, height: u64)
    requires ApplyTransaction(env, l, tx, height).Some?
    ensures env.oracle.txId(tx) == Some(tx.id)
  {
    hide Executable, Effect, Fees.Acceptable, EnvelopeValid, FeePayerAuthorized, UseNonce;
  }

  lemma {:induction false} AllSigned(env: Env, l: Ledger, txs: seq<Transaction>, height: u64, i: nat)
    requires ApplyAll(env, l, txs, height).Some? && i < |txs| && !txs[i].coinbase
    ensures env.oracle.txId(txs[i]) == Some(txs[i].id)
  {
    hide ApplyTransaction, ApplyCoinbase;
    var n := |txs| - 1;
    if i < n {
      AllSigned(env, l, txs[..n], height, i);
    } else {
      TransactionSigned(env, ApplyAll(env, l, txs[..n], height).value, txs[n], height);
    }
  }

  lemma {:induction false} ChainSigned(env: Env, blocks: seq<Block>, i: nat)
    requires ApplyBlocks(env, NEW_LEDGER, blocks).Some? && i < |AllTxs(blocks)| && !AllTxs(blocks)[i].coinbase
    ensures env.oracle.txId(AllTxs(blocks)[i]) == Some(AllTxs(blocks)[i].id)
  {
    hide ApplyAll;
    var n := |blocks| - 1;
    var earlier := |AllTxs(blocks[..n])|;
    if i < earlier {
      ChainSigned(env, blocks[..n], i);
    } else {
      var before := ApplyBlocks(env, NEW_LEDGER, blocks[..n]).value;
      AllSigned(env, OpenBlock(env, before, blocks[n]), blocks[n].txs, blocks[n].height, i - earlier);
    }
  }

  /** Replay protection: in a replayable chain no two transactions other than coinbases share an
      id, so only coinbase ids depend on validation's duplicate check. */
  lemma NoTransactionTwice(env: Env, blocks: seq<Block>, i: nat, j: nat)
    requires IdsBind(env) && ApplyBlocks(env, NEW_LEDGER, blocks).Some?
    requires i < j < |AllTxs(blocks)| && !AllTxs(blocks)[i].coinbase && !AllTxs(blocks)[j].coinbase
    ensures AllTxs(blocks)[i].id != AllTxs(blocks)[j].id
  {
    var txs := AllTxs(blocks);
    ChainSigned(env, blocks, i);
    ChainSigned(env, blocks, j);
    hide ApplyBlocks, AllTxs;
    if txs[i].sender == txs[j].sender {
      var a := txs[i].sender;
      NoncesCountUp(env, blocks, a);
      SentPosition(txs, i);
      SentPosition(txs, j);
      SentPrefixGrows(txs, i, j);
      assert SentBy(txs, a)[|SentBy(txs[..i], a)|] < SentBy(txs, a)[|SentBy(txs[..j], a)|];
    }
  }

  lemma {:induction false} AllTxsFront(blocks: seq<Block>)
    requires blocks != []
    ensures AllTxs(blocks) == blocks[0].txs + AllTxs(blocks[1..])
  {
    hide AllTxs;
    var n := |blocks| - 1;
    NoTxs();
    if n == 0 {
      assert blocks == [] + [blocks[0]] && blocks[1..] == [];
      AllTxsAppend([], blocks[0]);
    } else {
      var front, last := blocks[..n], blocks[n];
      assert blocks == front + [last] && blocks[1..] == front[1..] + [last] && front[0] == blocks[0];
      AllTxsFront(front);
      AllTxsAppend(front, last);
      AllTxsAppend(front[1..], last);
      Regroup(front[0].txs, AllTxs(front[1..]), last.txs);
    }
  }

  lemma Regroup(x: seq<Transaction>, y: seq<Transaction>, z: seq<Transaction>)
    ensures (x + y) + z == x + (y + z)
  {
  }

  lemma NoTxs()
    ensures AllTxs([]) == []
  {
  }

  /** Ids are present, and no coinbase shares one with another transaction. */
  ghost predicate CoinbaseIdsDiffer(txs: seq<Transaction>) {
    && (forall i :: 0 <= i < |txs| ==> txs[i].id != "")
    && forall i, j :: 0 <= i < j < |txs| && (txs[i].coinbase || txs[j].coinbase) ==> txs[i].id != txs[j].id
  }

  lemma ReplayedIds(env: Env, blocks: seq<Block>)
    requires IdsBind(env) && blocks != [] && ApplyBlocks(env, NEW_LEDGER, blocks).Some?
    ensures DistinctIds(AllTxs(blocks[1..])) <==> CoinbaseIdsDiffer(AllTxs(blocks[1..]))
  {
    hide ApplyBlocks, AllTxs, IdsBind;
    AllTxsFront(blocks);
    var txs := AllTxs(blocks[1..]);
    var k := |blocks[0].txs|;
    forall i, j | 0 <= i < j < |txs| && !txs[i].coinbase && !txs[j].coinbase
      ensures txs[i].id != txs[j].id
    {
      NoTransactionTwice(env, blocks, k + i, k + j);
    }
  }

  /** Of validation's whole-chain duplicate check, only the part about coinbases says anything that
      replaying does not already guarantee. */
  lemma OnlyCoinbaseIdsMatter(rules: Rules, blocks: seq<Block>)
    requires rules.WellFormed() && IdsBind(rules.env)
    requires StoredChain(rules, blocks) && Replay(rules.env, blocks).Some?
    ensures ValidChain(rules, blocks) <==> CoinbaseIdsDiffer(AllTxs(blocks[1..]))
  {
    ChainSafety.StoredChainStarts(rules, blocks);
    hide *;
    SoundAddresses(rules);
    ChainSafety.ReplayIsApplyBlocks(rules.env, blocks);
    ReplayedIds(rules.env, blocks);
    ValidIffDistinct(rules, blocks);
  }

  lemma ValidIffDistinct(rules: Rules, blocks: seq<Block>)
    requires StoredChain(rules, blocks) && blocks != []
    ensures ValidChain(rules, blocks) <==> DistinctIds(AllTxs(blocks[1..]))
  {
    hide StoredChain, DistinctIds, AllTxs;
  }

  // ---------------------------------------------------------------- headers

  /** Along a stored chain time never runs backwards and never past the allowed drift, and after the
      first blocks every difficulty is the initial one or in the configured range. */
  lemma {:induction false} HeadersHold(rules: Rules, blocks: seq<Block>, i: nat, j: nat)
    requires rules.WellFormed() && StoredChain(rules, blocks) && i <= j < |blocks|
    ensures blocks[i].timestamp <= blocks[j].timestamp
    ensures
      var p := Difficulty.Normalize(rules.env.profile.difficulty);
      j > 0 ==>
        && blocks[j].timestamp <= rules.now + p.maxFutureDrift
        && (blocks[j].difficulty == p.initial || p.minimum <= blocks[j].difficulty <= p.maximum)
        && rules.env.oracle.meetsTarget(blocks[j].hash, blocks[j].difficulty)
    decreases j
  {
    if j > 0 {
      HeaderAt(rules, blocks, j);
      hide StoredChain, Rules.WellFormed, Difficulty.Normalize;
      if i < j {
        HeadersHold(rules, blocks, i, j - 1);
      }
    }
  }

  lemma HeaderAt(rules: Rules, blocks: seq<Block>, j: nat)
    requires rules.WellFormed() && StoredChain(rules, blocks) && 0 < j < |blocks|
    ensures
      var p := Difficulty.Normalize(rules.env.profile.difficulty);
      && blocks[j - 1].timestamp <= blocks[j].timestamp <= rules.now + p.maxFutureDrift
      && (blocks[j].difficulty == p.initial || p.minimum <= blocks[j].difficulty <= p.maximum)
      && rules.env.oracle.meetsTarget(blocks[j].hash, blocks[j].difficulty)
  {
    HeightIsIndex(rules, blocks, j);
    assert ValidBlock(rules, blocks[j], blocks[..j]);
    hide StoredChain, TxListAllowed, Executes, ResourcesAllowed, Contiguous, Difficulty.FirstAt, Difficulty.Retarget;
  }
}
