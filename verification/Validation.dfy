/** The validation loops (chain/validation.go, chain/resources.go), proved against the predicates
    of `Chains`. */
module Validation {
  import opened Arith
  import opened Types
  import opened Ledgers
  import opened Chains
  import opened MatureLedgers
  import Assets
  import ChainSafety
  import Difficulty
  import Fees
  import Snapshots

  // ---------------------------------------------------------------- resources

  lemma {:induction false} GasPrefix(env: Env, txs: seq<Transaction>, k: nat)
    requires k <= |txs| && GasTotal(env, txs).Some?
    ensures GasTotal(env, txs[..k]).Some? && GasTotal(env, txs[..k]).value <= GasTotal(env, txs).value
  {
    hide Fees.GasUsed;
    if k == |txs| {
      assert txs[..k] == txs;
    } else {
      assert txs[..|txs| - 1][..k] == txs[..k];
      GasPrefix(env, txs[..|txs| - 1], k);
    }
  }

  lemma GasStep(env: Env, txs: seq<Transaction>, i: nat)
    requires i < |txs|
    ensures
      var before, gas := GasTotal(env, txs[..i]), Fees.GasUsed(env, txs[i]);
      GasTotal(env, txs[..i + 1])
        == if before.Some? && gas.Some? then Some(before.value + gas.value) else None
  {
    hide Fees.GasUsed;
    assert txs[..i + 1][..i] == txs[..i];
  }

  method ValidateResources(env: Env, b: Block) returns (ok: bool)
    ensures ok <==> ResourcesAllowed(env, b)
  {
    hide Fees.GasUsed, GasTotal, TxSizeAllowed;
    var p := env.profile;
    if |b.txs| > (if p.maxTxCount == 0 then DEFAULT_MAX_TX_COUNT else p.maxTxCount) {
      return false;
    }
    EmptyTotals(env, b.txs);
    var total: u64 := 0;
    for i := 0 to |b.txs|
      invariant GasTotal(env, b.txs[..i]) == Some(total as nat)
      invariant forall j :: 0 <= j < i ==> TxSizeAllowed(env, b.txs[j])
    {
      GasStep(env, b.txs, i);
      if GasTotal(env, b.txs).Some? {
        GasPrefix(env, b.txs, i + 1);
      }
      var gas := Fees.GasUsed(env, b.txs[i]);
      if !TxSizeAllowed(env, b.txs[i]) || gas.None? || MAX_U64 - total < gas.value {
        return false;
      }
      total := total + gas.value;
    }
    assert b.txs[..|b.txs|] == b.txs;
    if p.maxGasPerBlock > 0 && total > p.maxGasPerBlock {
      return false;
    }
    return env.oracle.blockBytes(b) <= (if p.maxBlockBytes == 0 then DEFAULT_MAX_BLOCK_BYTES else p.maxBlockBytes);
  }

  lemma EmptyTotals(env: Env, txs: seq<Transaction>)
    ensures GasTotal(env, txs[..0]) == Some(0) && FeeTotal(env, txs[..0]) == 0 && CoinbaseCount(txs[..0]) == 0
  {
    assert txs[..0] == [];
  }

  method ValidateHeader(rules: Rules, b: Block, prior: seq<Block>) returns (ok: bool)
    requires prior != []
    ensures ok <==> HeaderValid(rules, b, prior)
  {
    hide ResourcesAllowed, HashOf, Difficulty.Next, TimestampAllowed;
    var env := rules.env;
    if !BlockVersionActive(b.ProtocolVersion(), env.profile.blockVersion) || b.hash != HashOf(env, b)
       || b.merkleRoot != env.oracle.merkleRoot(b.txs) {
      return false;
    }
    ok := ValidateResources(env, b);
    if ok && b.height > 0 {
      ok := b.difficulty == Difficulty.Next(prior, env.profile.difficulty)
            && TimestampAllowed(rules, b, prior[|prior| - 1])
            && env.ValidAddress(b.miner)
            && env.oracle.meetsTarget(b.hash, b.difficulty);
    }
  }

  // ---------------------------------------------------------------- the transaction list

  lemma {:induction false} FeePrefix(env: Env, txs: seq<Transaction>, k: nat)
    requires k <= |txs|
    ensures FeeTotal(env, txs[..k]) <= FeeTotal(env, txs)
  {
    if k == |txs| {
      assert txs[..k] == txs;
    } else {
      assert txs[..|txs| - 1][..k] == txs[..k];
      FeePrefix(env, txs[..|txs| - 1], k);
    }
  }

  lemma ListStep(env: Env, txs: seq<Transaction>, i: nat)
    requires i < |txs|
    ensures FeeTotal(env, txs[..i + 1]) == FeeTotal(env, txs[..i]) + CountedFee(env, txs[i])
    ensures CoinbaseCount(txs[..i + 1]) == CoinbaseCount(txs[..i]) + (if txs[i].coinbase then 1 else 0)
  {
    assert txs[..i + 1][..i] == txs[..i];
  }

  /** One pass over the list counts coinbases and adds up fees, a second compares the reward. */
  method ValidateTxList(env: Env, b: Block) returns (ok: bool)
    ensures ok <==> TxListAllowed(env, b)
  {
    hide TxAllowed, CountedFee, FeeTotal, CoinbaseCount;
    var coinbases: nat := 0;
    var fees: u64 := 0;
    EmptyTotals(env, b.txs);
    for i := 0 to |b.txs|
      invariant coinbases == CoinbaseCount(b.txs[..i]) && fees == FeeTotal(env, b.txs[..i])
      invariant forall j :: 0 <= j < i ==> TxAllowed(env, b.txs[j], j)
    {
      ListStep(env, b.txs, i);
      FeePrefix(env, b.txs, i + 1);
      var tx := b.txs[i];
      if !TxAllowed(env, tx, i) {
        return false;
      }
      if tx.coinbase {
        coinbases := coinbases + 1;
      }
      var next := Add(fees, CountedFee(env, tx));
      if next.None? {
        return false;
      }
      fees := next.value;
    }
    assert b.txs[..|b.txs|] == b.txs;
    if b.height > 0 {
      if coinbases != 1 {
        return false;
      }
      var want := if env.AssetModel() then Some(env.profile.blockSubsidy) else Add(INITIAL_BLOCK_REWARD, fees);
      if want.None? {
        return false;
      }
      for i := 0 to |b.txs|
        invariant forall j :: 0 <= j < i && b.txs[j].coinbase ==> b.txs[j].amount == want.value
      {
        if b.txs[i].coinbase && b.txs[i].amount != want.value {
          return false;
        }
      }
    }
    return true;
  }

  lemma {:induction false} AtMostOneCoinbase(env: Env, txs: seq<Transaction>)
    requires forall i :: 0 <= i < |txs| ==> TxAllowed(env, txs[i], i)
    ensures CoinbaseCount(txs) <= 1
    ensures |txs| > 0 && !txs[0].coinbase ==> CoinbaseCount(txs) == 0
  {
    hide Fees.Acceptable, TxVersionActive;
    if txs != [] {
      AtMostOneCoinbase(env, txs[..|txs| - 1]);
    }
  }

  // ---------------------------------------------------------------- the state root

  method ExportForRoot(l: MatureLedger) returns (s: Snapshots.Snapshot)
    requires l.Valid()
    modifies l`stakes
    ensures l.Valid() && RootInputs(l.env, s, l.model)
  {
    hide MatureLedger.Core, Snapshots.Describes, Assets.IsEntry;
    if l.env.AssetModel() {
      s := Snapshots.SnapshotForLedger(l);
    } else {
      var accounts := Snapshots.StateAccounts(l);
      var stakes := Snapshots.StateStakes(l);
      s := Snapshots.Snapshot(l.Height(), accounts, stakes, l.coinbases[..l.coinbaseCount], {}, {});
    }
  }

  lemma OneExport(b: Assets.AssetBook, s: Snapshots.Snapshot, t: Snapshots.Snapshot)
    requires Assets.Exports(b, s.definitions, s.balances) && Assets.Exports(b, t.definitions, t.balances)
    ensures s.definitions == t.definitions && s.balances == t.balances
  {
    hide Assets.IsEntry;
  }

  /** A ledger has one export, so its state root is a function of it. */
  lemma RootInputsUnique(env: Env, s: Snapshots.Snapshot, t: Snapshots.Snapshot, l: Ledger)
    requires RootInputs(env, s, l) && RootInputs(env, t, l)
    ensures s == t
  {
    hide Assets.IsEntry, Assets.Exports, Snapshots.Describes;
    if env.AssetModel() {
      OneExport(l.assets, s, t);
    }
    assert s.accounts == t.accounts;
    assert s.stakes == t.stakes;
  }

  method ValidateStateRoot(rules: Rules, b: Block, candidate: MatureLedger) returns (ok: bool)
    requires candidate.Valid() && candidate.env == rules.env && b.height >= candidate.model.height
    modifies candidate, candidate.assets, candidate.coinbases
    ensures ok <==> StateRootValid(rules, b, old(candidate.model))
  {
    hide MatureLedger.Core, ApplyBlock, RootInputs;
    if b.ProtocolVersion() != BLOCK_VERSION_CANONICAL {
      return true;
    }
    ok := candidate.Apply(b);
    if !ok || b.stateRoot == "" {
      return false;
    }
    var s := ExportForRoot(candidate);
    forall t | RootInputs(rules.env, t, candidate.model)
      ensures t == s
    {
      RootInputsUnique(rules.env, s, t, candidate.model);
    }
    return rules.root(s) == b.stateRoot;
  }

  // ---------------------------------------------------------------- blocks and chains

  /** Runs the block's transactions on the ledger replayed from `prior`, then the whole block on a
      copy of it for the state root. */
  method ValidateExecution(rules: Rules, b: Block, prior: seq<Block>) returns (ok: bool)
    requires prior != [] && Rising(prior) && b.height >= prior[|prior| - 1].height && rules.env.AddressesSound()
    requires CoinbaseCount(b.txs) <= 1
    ensures ok <==> Executes(rules, b, prior)
  {
    hide MatureLedger.Core, ApplyAll, StateRootValid, ApplyBlocks, CoinbaseCount, Replay;
    var l;
    ok, l := ReplayMature(rules.env, prior);
    if !ok {
      return;
    }
    ReplayedHeight(rules.env, prior);
    var before := l.Clone();
    ok := l.RunTransactions(b.txs, b.height);
    if ok {
      ok := ValidateStateRoot(rules, b, before);
    }
  }

  lemma ReplayedHeight(env: Env, blocks: seq<Block>)
    requires blocks != [] && env.AddressesSound() && Replay(env, blocks).Some?
    ensures Replay(env, blocks).value.height == blocks[|blocks| - 1].height
  {
    hide ApplyBlocks, Replay;
    ChainSafety.ReplayIsApplyBlocks(env, blocks);
    ChainSafety.ReplayRests(env, blocks);
  }

  method ValidateBlock(rules: Rules, b: Block, prior: seq<Block>) returns (ok: bool)
    requires prior != [] && Rising(prior) && b.height >= prior[|prior| - 1].height && rules.env.AddressesSound()
    ensures ok <==> ValidBlock(rules, b, prior)
  {
    hide HeaderValid, TxAllowed, Executes, FeeTotal, CoinbaseCount;
    ok := ValidateHeader(rules, b, prior);
    if !ok {
      return;
    }
    ok := ValidateTxList(rules.env, b);
    if ok {
      AtMostOneCoinbase(rules.env, b.txs);
      ok := ValidateExecution(rules, b, prior);
    }
  }

  method ValidateNextBlock(rules: Rules, b: Block, prior: seq<Block>) returns (ok: bool)
    requires prior != [] && Rising(prior) && rules.env.AddressesSound()
    ensures ok <==> ValidNext(rules, b, prior)
  {
    hide ValidBlock;
    var tip := prior[|prior| - 1];
    var expected := Add(tip.height, 1);
    if expected.None? || b.height != expected.value || b.previousHash != tip.hash {
      return false;
    }
    ok := ValidateBlock(rules, b, prior);
  }

  ghost predicate Recorded(seen: set<string>, txs: seq<Transaction>) {
    forall id :: id in seen <==> exists i :: 0 <= i < |txs| && txs[i].id == id
  }

  lemma RecordedAppend(seen: set<string>, txs: seq<Transaction>, tx: Transaction)
    requires Recorded(seen, txs)
    ensures Recorded(seen + {tx.id}, txs + [tx])
    ensures DistinctIds(txs + [tx]) <==> DistinctIds(txs) && tx.id != "" && tx.id !in seen
  {
    var more := txs + [tx];
    assert more[|txs|] == tx && forall i :: 0 <= i < |txs| ==> more[i] == txs[i];
    if DistinctIds(more) {
      assert DistinctIds(txs);
    }
  }

  lemma DistinctPrefix(x: seq<Transaction>, y: seq<Transaction>)
    requires DistinctIds(x + y)
    ensures DistinctIds(x)
  {
    DistinctConcat(x, y);
  }

  /** Adds a block's ids to the ids seen so far. */
  method RecordIds(seen: set<string>, txs: seq<Transaction>, ghost earlier: seq<Transaction>)
      returns (ok: bool, all: set<string>)
    requires Recorded(seen, earlier) && DistinctIds(earlier)
    ensures ok <==> DistinctIds(earlier + txs)
    ensures ok ==> Recorded(all, earlier + txs)
  {
    hide Recorded, DistinctIds;
    all := seen;
    assert earlier + txs[..0] == earlier;
    for i := 0 to |txs|
      invariant Recorded(all, earlier + txs[..i]) && DistinctIds(earlier + txs[..i])
    {
      RecordedAppend(all, earlier + txs[..i], txs[i]);
      assert earlier + txs[..i + 1] == earlier + txs[..i] + [txs[i]];
      if |txs[i].id| == 0 || txs[i].id in all {
        assert earlier + txs == (earlier + txs[..i + 1]) + txs[i + 1..];
        if DistinctIds(earlier + txs) {
          DistinctPrefix(earlier + txs[..i + 1], txs[i + 1..]);
        }
        return false, all;
      }
      all := all + {txs[i].id};
    }
    assert txs[..|txs|] == txs;
    return true, all;
  }

  lemma {:induction false} ValidPrefix(rules: Rules, blocks: seq<Block>, n: nat)
    requires rules.WellFormed() && ValidChain(rules, blocks) && 1 <= n <= |blocks|
    ensures ValidChain(rules, blocks[..n])
  {
    hide ValidChain, Rules.WellFormed;
    if n == |blocks| {
      assert blocks[..n] == blocks;
    } else {
      var last := |blocks| - 1;
      assert blocks == blocks[..last] + [blocks[last]] && blocks[..last][..n] == blocks[..n];
      IncrementalValidation(rules, blocks[..last], blocks[last]);
      ValidPrefix(rules, blocks[..|blocks| - 1], n);
    }
  }

  lemma StoredChainRises(rules: Rules, blocks: seq<Block>)
    requires rules.WellFormed() && StoredChain(rules, blocks)
    ensures Rising(blocks)
  {
    hide ValidBlock, DistinctIds, GenesisAccepted;
    forall i | 0 < i < |blocks|
      ensures blocks[i - 1].height <= blocks[i].height
    {
      HeightIsIndex(rules, blocks, i - 1);
      HeightIsIndex(rules, blocks, i);
    }
  }

  lemma GenesisAlone(rules: Rules, g: Block)
    ensures ValidChain(rules, [g]) <==> GenesisAccepted(rules, g)
  {
    hide GenesisAccepted;
    assert [g][1..] == [];
  }

  /** The whole-chain loop: linked, valid on the blocks before it, and new transaction ids. */
  method ValidateChain(rules: Rules, blocks: seq<Block>) returns (ok: bool)
    requires rules.WellFormed()
    ensures ok <==> ValidChain(rules, blocks)
  {
    hide ValidChain, ValidNext, GenesisAccepted, DistinctIds, Rules.WellFormed, Recorded;
    if blocks == [] {
      NoEmptyChain(rules);
      return false;
    }
    GenesisAlone(rules, blocks[0]);
    assert blocks[..1] == [blocks[0]] && blocks[..1][1..] == [];
    if !GenesisAccepted(rules, blocks[0]) {
      if ValidChain(rules, blocks) {
        ValidPrefix(rules, blocks, 1);
      }
      return false;
    }
    var seen: set<string> := {};
    var prior := [blocks[0]];
    var i := 1;
    NothingRecorded();
    while i < |blocks|
      invariant 1 <= i <= |blocks| && prior == blocks[..i]
      invariant ValidChain(rules, prior)
      invariant Recorded(seen, AllTxs(prior[1..])) && DistinctIds(AllTxs(prior[1..]))
    {
      if ValidChain(rules, blocks) {
        ValidPrefix(rules, blocks, i + 1);
      }
      assert blocks[..i + 1] == prior + [blocks[i]];
      ok, seen := ValidateOneMore(rules, blocks[i], prior, seen);
      if !ok {
        return;
      }
      prior := prior + [blocks[i]];
      i := i + 1;
    }
    assert blocks[..i] == blocks;
    return true;
  }

  lemma NoEmptyChain(rules: Rules)
    ensures !ValidChain(rules, [])
  {
  }

  lemma NothingRecorded()
    ensures Recorded({}, AllTxs([])) && DistinctIds(AllTxs([]))
  {
  }

  method ValidateOneMore(rules: Rules, b: Block, prior: seq<Block>, seen: set<string>) returns (ok: bool, all: set<string>)
    requires rules.WellFormed() && prior != [] && ValidChain(rules, prior)
    requires Recorded(seen, AllTxs(prior[1..])) && DistinctIds(AllTxs(prior[1..]))
    ensures ok <==> ValidChain(rules, prior + [b])
    ensures ok ==> Recorded(all, AllTxs((prior + [b])[1..])) && DistinctIds(AllTxs((prior + [b])[1..]))
  {
    hide StoredChain, ValidNext, DistinctIds, Recorded, AllTxs;
    StoredChainRises(rules, prior);
    IncrementalValidation(rules, prior, b);
    hide ValidChain;
    AllTxsAppend(prior[1..], b);
    assert (prior + [b])[1..] == prior[1..] + [b];
    DistinctConcat(AllTxs(prior[1..]), b.txs);
    all := seen;
    ok := ValidateNextBlock(rules, b, prior);
    if ok {
      ok, all := RecordIds(seen, b.txs, AllTxs(prior[1..]));
    }
  }
}
