/** Block templates (chain/blockchain.go): selected transactions are tried one after the other on the tip's
    ledger, and a coinbase goes in front of those that run. */
module Templates {
  import opened Arith
  import opened Types
  import opened Ledgers
  import opened LedgerInvariant
  import opened Chains
  import opened MatureLedgers
  import ChainSafety
  import Difficulty
  import Execution
  import Fees
  import Mining
  import Nodes
  import Preimages
  import Recovery
  import Selection
  import Staking
  import Validation

  // ---------------------------------------------------------------- filling a template

  /** The count limit is looked at after a transaction was kept, and without the coinbase. */
  predicate Full(env: Env, kept: seq<Transaction>) {
    0 < env.profile.maxTxCount <= |kept|
  }

  ghost predicate Runs(env: Env, l: Ledger, kept: seq<Transaction>, tx: Transaction, height: u64) {
    TxSizeAllowed(env, tx) && ApplyAll(env, l, kept + [tx], height).Some?
  }

  /** The transactions a template takes: each one that is small enough and runs behind those before it,
      until the template is full. */
  ghost function Kept(env: Env, l: Ledger, txs: seq<Transaction>, height: u64): seq<Transaction> {
    if txs == [] then [] else
    var kept, tx := Kept(env, l, txs[..|txs| - 1], height), txs[|txs| - 1];
    if Full(env, kept) || !Runs(env, l, kept, tx, height) then kept else kept + [tx]
  }

  function NewCoinbase(env: Env, miner: Address, reward: u64, height: u64): Transaction {
    Transaction(env.profile.txVersion, "", COINBASE_SENDER, miner, reward, 0, 0, height, "", "", true, Untyped, "", "", "",
                "", "", "", "", 0, 0, false, false, false, false)
  }

  function CoinbaseFor(env: Env, miner: Address, kept: seq<Transaction>, height: u64): Option<Transaction> {
    if FeeTotal(env, kept) > MAX_U64 || Reward(env, kept) > MAX_U64 then None else
    var tx := NewCoinbase(env, miner, Reward(env, kept), height);
    var id :- env.oracle.txId(tx);
    Some(tx.(id := id))
  }

  function TipOf(blocks: seq<Block>): Block
    requires blocks != []
  {
    blocks[|blocks| - 1]
  }

  /** The block before its state root is known. */
  function Draft(rules: Rules, blocks: seq<Block>, miner: Address, txs: seq<Transaction>): Block
    requires blocks != [] && TipOf(blocks).height < MAX_U64
  {
    var version := rules.env.profile.blockVersion;
    Block(if version == 1 then 0 else version, TipOf(blocks).height + 1, TipOf(blocks).hash, rules.now, 0,
          Difficulty.Next(blocks, rules.env.profile.difficulty), miner, txs, rules.env.oracle.merkleRoot(txs), "", "", "")
  }

  /** Executing a canonical block gives its state root. */
  ghost predicate Rooted(rules: Rules, l: Ledger, b: Block) {
    && ApplyBlock(rules.env, l, b).Some?
    && exists s :: RootInputs(rules.env, s, ApplyBlock(rules.env, l, b).value) && rules.root(s) == b.stateRoot
  }

  /** `b` is the template for this miner and selection on top of `blocks`. */
  ghost predicate IsTemplate(rules: Rules, blocks: seq<Block>, miner: Address, selected: seq<Transaction>, b: Block)
    requires blocks != []
  {
    && Replay(rules.env, blocks).Some? && TipOf(blocks).height < MAX_U64
    && var l, height := Replay(rules.env, blocks).value, TipOf(blocks).height + 1;
       var kept := Kept(rules.env, l, selected, height);
       var coinbase := CoinbaseFor(rules.env, miner, kept, height);
       && coinbase.Some?
       && b == Draft(rules, blocks, miner, [coinbase.value] + kept).(stateRoot := b.stateRoot)
       && (if b.ProtocolVersion() == BLOCK_VERSION_CANONICAL then Rooted(rules, l, b) else b.stateRoot == "")
  }

  /** The template with a nonce for which its hash meets the target. */
  predicate IsMined(rules: Rules, template: Block, mined: Block) {
    && mined == template.(nonce := mined.nonce, hash := mined.hash)
    && mined.hash == HashOf(rules.env, mined)
    && rules.env.oracle.meetsTarget(mined.hash, mined.difficulty)
  }

  // ---------------------------------------------------------------- what is kept

  lemma {:induction false} KeptRuns(env: Env, l: Ledger, txs: seq<Transaction>, height: u64)
    ensures ApplyAll(env, l, Kept(env, l, txs, height), height).Some?
  {
    hide ApplyAny;
    if txs != [] {
      KeptRuns(env, l, txs[..|txs| - 1], height);
    }
  }

  /** Keeping more of a list only appends, and nothing once the template is full. */
  lemma {:induction false} KeptGrows(env: Env, l: Ledger, txs: seq<Transaction>, height: u64, i: nat)
    requires i <= |txs|
    ensures Kept(env, l, txs[..i], height) <= Kept(env, l, txs, height)
    ensures Full(env, Kept(env, l, txs[..i], height)) ==> Kept(env, l, txs[..i], height) == Kept(env, l, txs, height)
  {
    hide Runs;
    if i < |txs| {
      var n := |txs| - 1;
      assert txs[..n][..i] == txs[..i];
      KeptGrows(env, l, txs[..n], height, i);
    } else {
      assert txs[..i] == txs;
    }
  }

  /** A selection that is small enough in each transaction and in number, and runs as a whole, is kept whole. */
  lemma {:induction false} KeptWhole(env: Env, l: Ledger, txs: seq<Transaction>, height: u64)
    requires ApplyAll(env, l, txs, height).Some?
    requires env.profile.maxTxCount > 0 ==> |txs| <= env.profile.maxTxCount
    requires forall i :: 0 <= i < |txs| ==>
               env.oracle.txBytes(txs[i]) <= (if env.profile.maxTxBytes == 0 then 131072 else env.profile.maxTxBytes)
    ensures Kept(env, l, txs, height) == txs
  {
    if txs != [] {
      var n := |txs| - 1;
      FrontRuns(env, l, txs, height);
      assert TxSizeAllowed(env, txs[n]);
      hide ApplyAll, TxSizeAllowed, Kept;
      KeptWhole(env, l, txs[..n], height);
      KeptOneMore(env, l, txs, height);
    } else {
      hide ApplyAll;
    }
  }

  lemma FrontRuns(env: Env, l: Ledger, txs: seq<Transaction>, height: u64)
    requires txs != [] && ApplyAll(env, l, txs, height).Some?
    ensures ApplyAll(env, l, txs[..|txs| - 1], height).Some?
  {
    hide ApplyAny;
  }

  lemma KeptOneMore(env: Env, l: Ledger, txs: seq<Transaction>, height: u64)
    requires txs != [] && Kept(env, l, txs[..|txs| - 1], height) == txs[..|txs| - 1]
    requires !Full(env, txs[..|txs| - 1]) && TxSizeAllowed(env, txs[|txs| - 1]) && ApplyAll(env, l, txs, height).Some?
    ensures Kept(env, l, txs, height) == txs
  {
    var front, tx := txs[..|txs| - 1], txs[|txs| - 1];
    assert txs == front + [tx];
    hide ApplyAll, TxSizeAllowed, Full, Kept;
    KeptUnfolds(env, l, txs, height);
    assert Runs(env, l, front, tx, height);
  }

  lemma KeptUnfolds(env: Env, l: Ledger, txs: seq<Transaction>, height: u64)
    requires txs != []
    ensures
      var kept, tx := Kept(env, l, txs[..|txs| - 1], height), txs[|txs| - 1];
      Kept(env, l, txs, height) == if Full(env, kept) || !Runs(env, l, kept, tx, height) then kept else kept + [tx]
  {
    hide Full, Runs, ApplyAll;
  }

  predicate Small(env: Env, txs: seq<Transaction>) {
    forall i :: 0 <= i < |txs| ==> TxSizeAllowed(env, txs[i])
  }

  /** Nothing is kept that was not selected, nothing too large, and at most as many as the limit says. */
  lemma {:induction false} KeptShape(env: Env, l: Ledger, txs: seq<Transaction>, height: u64)
    ensures
      var kept := Kept(env, l, txs, height);
      && Small(env, kept) && (Mining.NoCoinbase(txs) ==> Mining.NoCoinbase(kept))
      && (env.profile.maxTxCount > 0 ==> |kept| <= env.profile.maxTxCount)
      && multiset(kept) <= multiset(txs)
  {
    hide ApplyAll, TxSizeAllowed;
    if txs != [] {
      hide Kept;
      var n := |txs| - 1;
      KeptShape(env, l, txs[..n], height);
      KeptUnfolds(env, l, txs, height);
      OneMoreOf(Kept(env, l, txs[..n], height), txs);
    }
  }

  lemma OneMoreOf(kept: seq<Transaction>, txs: seq<Transaction>)
    requires txs != [] && multiset(kept) <= multiset(txs[..|txs| - 1])
    ensures multiset(kept) <= multiset(txs) && multiset(kept + [txs[|txs| - 1]]) <= multiset(txs)
  {
    assert txs == txs[..|txs| - 1] + [txs[|txs| - 1]];
  }

  /** The template pays its miner and nobody else, and carries selected transactions only. */
  lemma MinerIsPaid(rules: Rules, blocks: seq<Block>, miner: Address, selected: seq<Transaction>, b: Block)
    requires blocks != [] && IsTemplate(rules, blocks, miner, selected, b) && Mining.NoCoinbase(selected)
    ensures b.miner == miner && b.txs != []
    ensures
      var coinbase, p := b.txs[0], rules.env.profile;
      && coinbase.coinbase && coinbase.recipient == miner && coinbase.fee == 0
      && coinbase.amount == (if p.txVersion >= TX_VERSION_ASSET then p.blockSubsidy else 5000000000 + FeeTotal(rules.env, b.txs[1..]))
      && (forall k :: 1 <= k < |b.txs| ==> !b.txs[k].coinbase)
      && multiset(b.txs[1..]) <= multiset(selected)
  {
    hide Replay, Kept, FeeTotal, Rooted, Difficulty.Next, Small;
    var l, height := Replay(rules.env, blocks).value, TipOf(blocks).height + 1;
    var kept := Kept(rules.env, l, selected, height);
    assert b.txs[1..] == kept;
    KeptShape(rules.env, l, selected, height);
    assert forall k :: 1 <= k < |b.txs| ==> b.txs[k] == kept[k - 1];
  }

  /** Gas of what is kept is at most that of the selection. */
  lemma {:induction false} KeptGas(env: Env, l: Ledger, txs: seq<Transaction>, height: u64)
    requires GasTotal(env, txs).Some?
    ensures GasTotal(env, Kept(env, l, txs, height)).Some?
    ensures GasTotal(env, Kept(env, l, txs, height)).value <= GasTotal(env, txs).value
  {
    hide Runs, Fees.GasUsed;
    if txs != [] {
      var kept, tx := Kept(env, l, txs[..|txs| - 1], height), txs[|txs| - 1];
      KeptGas(env, l, txs[..|txs| - 1], height);
      assert (kept + [tx])[..|kept|] == kept;
    }
  }

  lemma {:induction false} SelectedGas(env: Env, picks: seq<Selection.Candidate>)
    requires forall i :: 0 <= i < |picks| ==> Metered(env, picks[i])
    ensures GasTotal(env, Selection.Txs(picks)) == Some(Selection.Gas(picks))
  {
    hide Fees.GasUsed;
    if picks != [] {
      var n := |picks| - 1;
      SelectedGas(env, picks[..n]);
      assert Selection.Txs(picks)[..n] == Selection.Txs(picks[..n]);
      assert Metered(env, picks[n]);
    }
  }

  predicate Metered(env: Env, c: Selection.Candidate) {
    Fees.GasUsed(env, c.tx) == Some(c.gas)
  }

  // ---------------------------------------------------------------- the transaction list

  lemma {:induction false} CoinbaseAddsNothing(env: Env, coinbase: Transaction, kept: seq<Transaction>)
    requires coinbase.coinbase && Mining.NoCoinbase(kept)
    ensures FeeTotal(env, [coinbase] + kept) == FeeTotal(env, kept)
    ensures GasTotal(env, [coinbase] + kept) == GasTotal(env, kept)
    ensures CoinbaseCount([coinbase] + kept) == 1
  {
    hide Fees.GasUsed;
    var all := [coinbase] + kept;
    if kept == [] {
      assert all == [coinbase] && all[..0] == [];
      assert Fees.GasUsed(env, coinbase) == Some(0) by {
        CoinbaseIsFree(env, coinbase);
      }
      assert FeeTotal(env, []) == 0 && GasTotal(env, []) == Some(0) && CoinbaseCount([]) == 0;
    } else {
      var n := |kept| - 1;
      assert all[..n + 1] == [coinbase] + kept[..n];
      CoinbaseAddsNothing(env, coinbase, kept[..n]);
    }
  }

  lemma CoinbaseIsFree(env: Env, coinbase: Transaction)
    requires coinbase.coinbase
    ensures Fees.GasUsed(env, coinbase) == Some(0)
  {
  }

  lemma SignedIsAllowed(env: Env, tx: Transaction, index: nat)
    requires WellSigned(env, tx) && !tx.coinbase
    ensures TxAllowed(env, tx, index)
  {
    hide Fees.GasUsed, Fees.MinimumFee, FeePayerAuthorized;
  }

  lemma {:induction false} AppliedIsSigned(env: Env, l: Ledger, txs: seq<Transaction>, height: u64, i: nat)
    requires ApplyAll(env, l, txs, height).Some? && i < |txs| && !txs[i].coinbase
    ensures WellSigned(env, txs[i])
  {
    hide WellSigned, ApplyCoinbase, Executable, Effect, UseNonce;
    if i < |txs| - 1 {
      AppliedIsSigned(env, l, txs[..|txs| - 1], height, i);
    }
  }

  /** The coinbase's id does not depend on itself. */
  lemma CoinbaseNamed(env: Env, miner: Address, kept: seq<Transaction>, height: u64)
    requires Preimages.IdsFollow(env) && CoinbaseFor(env, miner, kept, height).Some?
    ensures
      var tx := CoinbaseFor(env, miner, kept, height).value;
      && env.oracle.txId(tx) == Some(tx.id) && tx.coinbase && tx.sender == COINBASE_SENDER && tx.recipient == miner
      && tx.amount == Reward(env, kept) && tx.version == env.profile.txVersion && FeeTotal(env, kept) <= MAX_U64
  {
    hide FeeTotal;
    var tx, again := NewCoinbase(env, miner, Reward(env, kept), height), CoinbaseFor(env, miner, kept, height).value;
    assert Preimages.PreimageOf(tx) == Preimages.PreimageOf(again);
  }

  lemma CoinbaseAllowed(env: Env, tx: Transaction)
    requires tx.coinbase && tx.sender == COINBASE_SENDER && env.oracle.txId(tx) == Some(tx.id) && tx.version == env.profile.txVersion
    ensures TxAllowed(env, tx, 0) <==> env.profile.txVersion <= MAX_TX_VERSION
  {
  }

  lemma KeptAllowed(env: Env, l: Ledger, kept: seq<Transaction>, height: u64, i: nat)
    requires Mining.NoCoinbase(kept) && ApplyAll(env, l, kept, height).Some? && i < |kept|
    ensures TxAllowed(env, kept[i], i + 1) && !kept[i].coinbase
  {
    hide ApplyAll, TxAllowed, WellSigned;
    AppliedIsSigned(env, l, kept, height, i);
    SignedIsAllowed(env, kept[i], i + 1);
  }

  lemma ListFromParts(env: Env, b: Block, coinbase: Transaction, kept: seq<Transaction>)
    requires b.txs == [coinbase] + kept && b.height > 0 && coinbase.coinbase
    requires forall i :: 0 <= i < |kept| ==> TxAllowed(env, kept[i], i + 1) && !kept[i].coinbase
    requires CoinbaseCount(b.txs) == 1 && FeeTotal(env, b.txs) <= MAX_U64
    requires Reward(env, b.txs) <= MAX_U64 && coinbase.amount == Reward(env, b.txs)
    ensures TxListAllowed(env, b) <==> TxAllowed(env, coinbase, 0)
  {
    hide FeeTotal, CoinbaseCount, TxAllowed, Reward;
    assert b.txs[0] == coinbase;
    assert forall i :: 1 <= i < |b.txs| ==> b.txs[i] == kept[i - 1];
  }

  lemma CoinbasePaidRight(env: Env, miner: Address, kept: seq<Transaction>, height: u64)
    requires Preimages.IdsFollow(env) && CoinbaseFor(env, miner, kept, height).Some? && Mining.NoCoinbase(kept)
    ensures
      var coinbase := CoinbaseFor(env, miner, kept, height).value;
      var txs := [coinbase] + kept;
      && CoinbaseCount(txs) == 1 && FeeTotal(env, txs) <= MAX_U64 && Reward(env, txs) == coinbase.amount
      && coinbase.coinbase && (TxAllowed(env, coinbase, 0) <==> env.profile.txVersion <= MAX_TX_VERSION)
  {
    var coinbase := CoinbaseFor(env, miner, kept, height).value;
    CoinbaseNamed(env, miner, kept, height);
    hide Preimages.IdsFollow, CoinbaseFor, FeeTotal, CoinbaseCount, TxAllowed, Mining.NoCoinbase;
    CoinbaseAddsNothing(env, coinbase, kept);
    CoinbaseAllowed(env, coinbase);
  }

  /** The list is allowed exactly when the network's transaction version exists. */
  lemma ListAllowed(env: Env, l: Ledger, b: Block, miner: Address, kept: seq<Transaction>)
    requires Preimages.IdsFollow(env) && Mining.NoCoinbase(kept) && ApplyAll(env, l, kept, b.height).Some?
    requires CoinbaseFor(env, miner, kept, b.height).Some? && b.txs == [CoinbaseFor(env, miner, kept, b.height).value] + kept
    requires b.height > 0
    ensures TxListAllowed(env, b) <==> env.profile.txVersion <= MAX_TX_VERSION
  {
    hide Preimages.IdsFollow, CoinbaseFor, FeeTotal, CoinbaseCount, TxAllowed, ApplyAll, Reward, Mining.NoCoinbase, TxListAllowed;
    CoinbasePaidRight(env, miner, kept, b.height);
    forall i | 0 <= i < |kept|
      ensures TxAllowed(env, kept[i], i + 1) && !kept[i].coinbase
    {
      KeptAllowed(env, l, kept, b.height, i);
    }
    ListFromParts(env, b, CoinbaseFor(env, miner, kept, b.height).value, kept);
  }

  // ---------------------------------------------------------------- resources

  /** The limits a template can miss: it counts transactions without the coinbase, it does not measure the
      coinbase or the block, and without a gas limit it does not add gas up. */
  predicate WithinLimits(env: Env, b: Block) {
    var p := env.profile;
    && |b.txs| <= (if p.maxTxCount == 0 then DEFAULT_MAX_TX_COUNT else p.maxTxCount)
    && (b.txs != [] ==> TxSizeAllowed(env, b.txs[0]))
    && (p.maxGasPerBlock == 0 ==> GasTotal(env, b.txs).Some? && GasTotal(env, b.txs).value <= MAX_U64)
    && env.oracle.blockBytes(b) <= (if p.maxBlockBytes == 0 then DEFAULT_MAX_BLOCK_BYTES else p.maxBlockBytes)
  }

  lemma ResourcesDecided(env: Env, b: Block, coinbase: Transaction, kept: seq<Transaction>)
    requires b.txs == [coinbase] + kept && coinbase.coinbase && Mining.NoCoinbase(kept) && Small(env, kept)
    requires GasTotal(env, kept).Some?
    requires env.profile.maxGasPerBlock > 0 ==> GasTotal(env, kept).value <= env.profile.maxGasPerBlock
    ensures ResourcesAllowed(env, b) <==> WithinLimits(env, b)
  {
    CoinbaseAddsNothing(env, coinbase, kept);
    hide GasTotal, TxSizeAllowed, Mining.NoCoinbase;
    assert forall i :: 1 <= i < |b.txs| ==> b.txs[i] == kept[i - 1];
    assert b.txs[0] == coinbase;
  }

  // ---------------------------------------------------------------- execution

  lemma SameExecution(env: Env, l: Ledger, b: Block, c: Block)
    requires b.height == c.height && b.txs == c.txs && b.miner == c.miner
    ensures ApplyBlock(env, l, b) == ApplyBlock(env, l, c)
  {
    hide ApplyAll, CoinbaseCount, MatureCoinbases, SettleFees, Staking.Refresh;
  }

  /** A mined template runs exactly when its miner can be paid. */
  lemma MinedExecutes(rules: Rules, blocks: seq<Block>, coinbase: Transaction, kept: seq<Transaction>, height: u64)
    requires blocks != [] && rules.env.AddressesSound() && rules.env.AssetModel() && Replay(rules.env, blocks).Some?
    requires IssuedBy(blocks) + coinbase.amount <= MAX_U64 && coinbase.coinbase && Mining.NoCoinbase(kept)
    requires ApplyAll(rules.env, Replay(rules.env, blocks).value, kept, height).Some?
    ensures ApplyAll(rules.env, Replay(rules.env, blocks).value, [coinbase] + kept, height).Some? <==>
            rules.env.ValidAddress(coinbase.recipient)
  {
    var env := rules.env;
    hide Replay, ApplyAll, IssuedBy, ApplyCoinbase, Mining.Roomy, Execution.Sound, Supply, Env.AddressesSound;
    Execution.ReachableSound(env, blocks);
    ChainSafety.ReplayIsApplyBlocks(env, blocks);
    ChainSafety.ReplayRests(env, blocks);
    var l := Replay(env, blocks).value;
    ReachableRoomy(env, l);
    Mining.CoinbasePays(env, l, coinbase, height);
    if env.ValidAddress(coinbase.recipient) {
      Mining.CoinbaseGoesFirst(env, l, coinbase, kept, height);
    } else if ApplyAll(env, l, [coinbase] + kept, height).Some? {
      FirstRuns(env, l, coinbase, kept, height);
    }
  }

  lemma ReachableRoomy(env: Env, l: Ledger)
    requires Execution.Sound(env, l) && env.AddressesSound() && env.AssetModel()
    ensures Mining.Roomy(env, l)
  {
  }

  lemma {:induction false} FirstRuns(env: Env, l: Ledger, first: Transaction, rest: seq<Transaction>, height: u64)
    requires ApplyAll(env, l, [first] + rest, height).Some?
    ensures ApplyAny(env, l, first, height).Some?
  {
    hide ApplyAny;
    var all := [first] + rest;
    if rest == [] {
      assert all == [first] && all[..0] == [];
      assert ApplyAll(env, l, [], height) == Some(l);
    } else {
      assert all[..|rest|] == [first] + rest[..|rest| - 1];
      FirstRuns(env, l, first, rest[..|rest| - 1], height);
    }
  }

  // ---------------------------------------------------------------- a mined template on the chain

  /** What is left to go wrong with a mined template. */
  predicate Fits(rules: Rules, blocks: seq<Block>, b: Block)
    requires blocks != []
  {
    && rules.env.ValidAddress(b.miner) && TipOf(blocks).timestamp <= rules.now
    && rules.env.profile.txVersion <= MAX_TX_VERSION && rules.env.profile.blockVersion <= MAX_BLOCK_VERSION
    && WithinLimits(rules.env, b)
  }

  /** Its transactions are bounded as a selection under the gas limit is. */
  predicate GasKept(env: Env, txs: seq<Transaction>) {
    && GasTotal(env, txs).Some?
    && (env.profile.maxGasPerBlock > 0 ==> GasTotal(env, txs).value <= env.profile.maxGasPerBlock)
  }

  lemma HeaderDecided(rules: Rules, blocks: seq<Block>, miner: Address, txs: seq<Transaction>, template: Block, mined: Block)
    requires blocks != [] && TipOf(blocks).height < MAX_U64
    requires template == Draft(rules, blocks, miner, txs).(stateRoot := template.stateRoot) && IsMined(rules, template, mined)
    ensures Linked(TipOf(blocks), mined)
    ensures HeaderValid(rules, mined, blocks) <==>
              && ResourcesAllowed(rules.env, mined) && rules.env.ValidAddress(miner) && TipOf(blocks).timestamp <= rules.now
              && rules.env.profile.blockVersion <= MAX_BLOCK_VERSION
  {
    hide ResourcesAllowed, HashOf, Difficulty.Next;
  }

  lemma RootDecided(rules: Rules, l: Ledger, template: Block, mined: Block)
    requires forall s :: rules.root(s) != ""
    requires template.ProtocolVersion() == BLOCK_VERSION_CANONICAL ==> Rooted(rules, l, template)
    requires IsMined(rules, template, mined)
    ensures StateRootValid(rules, mined, l)
  {
    hide ApplyBlock, RootInputs, HashOf;
    SameExecution(rules.env, l, template, mined);
  }

  /** A mined template is a valid next block if and only if it fits: everything else was settled when it
      was built. */
  lemma MinedIffFits(rules: Rules, blocks: seq<Block>, miner: Address, selected: seq<Transaction>, template: Block, mined: Block)
    requires Nodes.Ready(rules) && Preimages.IdsFollow(rules.env) && blocks != []
    requires IssuedBy(blocks) + rules.env.profile.blockSubsidy <= MAX_U64
    requires Mining.NoCoinbase(selected) && GasKept(rules.env, selected)
    requires IsTemplate(rules, blocks, miner, selected, template) && IsMined(rules, template, mined)
    ensures ValidNext(rules, mined, blocks) <==> Fits(rules, blocks, mined)
  {
    var env := rules.env;
    var l, height := Replay(env, blocks).value, TipOf(blocks).height + 1;
    var kept := Kept(env, l, selected, height);
    var coinbase := CoinbaseFor(env, miner, kept, height).value;
    assert rules.WellFormed() && env.AddressesSound() && env.AssetModel() && forall s :: rules.root(s) != "";
    HeaderDecided(rules, blocks, miner, [coinbase] + kept, template, mined);
    RootDecided(rules, l, template, mined);
    hide Nodes.Ready, Replay, IssuedBy, Rules.WellFormed, Env.AddressesSound, HeaderValid, TxListAllowed, WithinLimits,
         ResourcesAllowed, StateRootValid, Kept, CoinbaseFor, ApplyAll, HashOf, Difficulty.Next, GasTotal,
         Preimages.IdsFollow, Mining.NoCoinbase, Small, Linked;
    KeptRuns(env, l, selected, height);
    KeptShape(env, l, selected, height);
    KeptGas(env, l, selected, height);
    CoinbaseNamed(env, miner, kept, height);
    assert coinbase.amount == env.profile.blockSubsidy;
    assert mined.txs == [coinbase] + kept && mined.height == height && mined.miner == miner;
    ListAllowed(env, l, mined, miner, kept);
    ResourcesDecided(env, mined, coinbase, kept);
    MinedExecutes(rules, blocks, coinbase, kept, height);
  }

  /** And a valid one is stored: nothing can stop its execution. */
  lemma FittingIsStored(rules: Rules, blocks: seq<Block>, b: Block)
    requires Nodes.Ready(rules) && blocks != [] && ValidNext(rules, b, blocks)
    requires IssuedBy(blocks) + rules.env.profile.blockSubsidy <= MAX_U64
    ensures ApplyBlock(rules.env, Replay(rules.env, blocks).value, b).Some?
  {
    assert rules.WellFormed() && rules.env.AssetModel() && b.height == TipOf(blocks).height + 1 && TxListAllowed(rules.env, b);
    hide Nodes.Ready, Rules.WellFormed, ValidBlock, TxListAllowed, IssuedBy, Replay, ApplyBlock, ChainSafety.BurnedIn;
    ChainSafety.ValidBlockIssues(rules.env, b);
    assert ValidBlock(rules, b, blocks);
    ChainSafety.AcceptedBlockExecutesWithinSupply(rules, b, blocks);
  }

  /** The count limit is exceeded exactly by a full template. */
  lemma CountExceededIffFull(rules: Rules, blocks: seq<Block>, miner: Address, selected: seq<Transaction>, template: Block)
    requires blocks != [] && IsTemplate(rules, blocks, miner, selected, template) && rules.env.profile.maxTxCount > 0
    ensures |template.txs| > rules.env.profile.maxTxCount <==>
            Full(rules.env, Kept(rules.env, Replay(rules.env, blocks).value, selected, TipOf(blocks).height + 1))
  {
    KeptShape(rules.env, Replay(rules.env, blocks).value, selected, TipOf(blocks).height + 1);
    hide Kept, Replay, CoinbaseFor, Rooted, HashOf, Difficulty.Next;
  }

  /** With room for one transaction, no block that takes a pending transaction can ever be mined: the template
      takes it and the coinbase. */
  lemma OneIsOneTooMany(rules: Rules, blocks: seq<Block>, miner: Address, tx: Transaction, template: Block, mined: Block)
    requires blocks != [] && rules.env.profile.maxTxCount == 1 && Replay(rules.env, blocks).Some? && TipOf(blocks).height < MAX_U64
    requires TxSizeAllowed(rules.env, tx)
    requires ApplyTransaction(rules.env, Replay(rules.env, blocks).value, tx, TipOf(blocks).height + 1).Some? && !tx.coinbase
    requires IsTemplate(rules, blocks, miner, [tx], template) && IsMined(rules, template, mined)
    ensures mined.txs[1..] == [tx] && !ValidNext(rules, mined, blocks)
  {
    var l, height := Replay(rules.env, blocks).value, TipOf(blocks).height + 1;
    hide Replay, ApplyTransaction, CoinbaseFor, Rooted, HashOf, Difficulty.Next, TxSizeAllowed, Executes, TxListAllowed;
    assert [tx][..0] == [] && [] + [tx] == [tx];
    assert ApplyAll(rules.env, l, [], height) == Some(l);
    assert Kept(rules.env, l, [], height) == [];
    assert Kept(rules.env, l, [tx], height) == [tx];
  }

  // ---------------------------------------------------------------- building one

  /** What selection under the network's gas limit returns. */
  ghost predicate Chosen(env: Env, pending: seq<Transaction>, nextNonce: map<Address, u64>, queues: Selection.Queues,
                         picks: seq<Selection.Candidate>) {
    && Selection.AllSelectable(env, pending)
    && Selection.QueuesFor(env, pending, nextNonce, queues)
    && Selection.Greedy(queues, env.profile.maxGasPerBlock, picks)
  }

  lemma PickedFromList(env: Env, pending: seq<Transaction>, nextNonce: map<Address, u64>, queues: Selection.Queues,
                       picks: seq<Selection.Candidate>, i: nat)
    requires Chosen(env, pending, nextNonce, queues, picks) && i < |picks|
    ensures !picks[i].tx.coinbase && Metered(env, picks[i])
  {
    hide Fees.GasUsed, Selection.QueuesFor, Selection.Greedy, Fees.Acceptable, EnvelopeValid, FeePayerAuthorized;
    Selection.PickedNext(env, pending, nextNonce, queues, env.profile.maxGasPerBlock, picks, i);
    assert Selection.Selectable(env, picks[i].tx);
  }

  /** A selection holds no coinbase and keeps the gas limit. */
  lemma ChosenIsBounded(env: Env, pending: seq<Transaction>, nextNonce: map<Address, u64>, queues: Selection.Queues,
                        picks: seq<Selection.Candidate>)
    requires Chosen(env, pending, nextNonce, queues, picks)
    ensures Mining.NoCoinbase(Selection.Txs(picks)) && GasKept(env, Selection.Txs(picks))
  {
    var maxGas := env.profile.maxGasPerBlock;
    assert Selection.Greedy(queues, maxGas, picks);
    hide Chosen, Metered, Selection.Greedy, Selection.Gas, GasTotal;
    forall i | 0 <= i < |picks|
      ensures !picks[i].tx.coinbase && Metered(env, picks[i])
    {
      PickedFromList(env, pending, nextNonce, queues, picks, i);
    }
    SelectedGas(env, picks);
    if maxGas > 0 {
      Selection.GasBound(queues, maxGas, picks);
    }
  }

  ghost predicate NoncesLeft(l: Ledger, pending: seq<Transaction>) {
    forall i :: 0 <= i < |pending| && !pending[i].coinbase ==> l.nonces[pending[i].sender] < MAX_U64
  }

  lemma OneMoreSender(env: Env, l: Ledger, pending: seq<Transaction>, i: nat, known: map<Address, u64>, more: map<Address, u64>)
    requires i < |pending| && Recovery.NextNonces(env, l, pending[..i], known)
    requires forall a :: a in known ==> a in more && more[a] == known[a]
    requires !pending[i].coinbase ==> pending[i].sender in more && more[pending[i].sender] == l.nonces[pending[i].sender] + 1
    ensures Recovery.NextNonces(env, l, pending[..i + 1], more)
  {
    assert pending[..i + 1][..i] == pending[..i];
    hide Selection.CandidateOf;
  }

  lemma NoPending(env: Env, l: Ledger)
    ensures Recovery.NextNonces(env, l, [], map[])
  {
  }

  /** The next nonce of every sender of a pending transaction, or nothing when one has used them up. */
  method NextNonces(l: MatureLedger, pending: seq<Transaction>) returns (ok: bool, nextNonce: map<Address, u64>)
    requires l.Valid()
    ensures ok <==> NoncesLeft(l.model, pending)
    ensures ok ==> Recovery.NextNonces(l.env, l.model, pending, nextNonce)
  {
    hide MatureLedger.Core, Recovery.NextNonces;
    NoPending(l.env, l.model);
    nextNonce := map[];
    assert pending[..0] == [];
    for i := 0 to |pending|
      invariant forall j :: 0 <= j < i && !pending[j].coinbase ==> l.model.nonces[pending[j].sender] < MAX_U64
      invariant Recovery.NextNonces(l.env, l.model, pending[..i], nextNonce)
      invariant forall a :: a in nextNonce ==> nextNonce[a] == l.model.nonces[a] + 1
    {
      var a := pending[i].sender;
      ghost var known := nextNonce;
      if !pending[i].coinbase && a !in nextNonce {
        var acct := l.AccountIn(a);
        if acct.nonce == MAX_U64 {
          return false, nextNonce;
        }
        nextNonce := nextNonce[a := acct.nonce + 1];
      }
      OneMoreSender(l.env, l.model, pending, i, known, nextNonce);
    }
    assert pending[..|pending|] == pending;
    ok := true;
  }

  lemma KeptStep(env: Env, l: Ledger, before: Ledger, selected: seq<Transaction>, height: u64, i: nat)
    requires i < |selected| && !selected[i].coinbase
    requires ApplyAll(env, l, Kept(env, l, selected[..i], height), height) == Some(before)
    ensures
      var kept, tx := Kept(env, l, selected[..i], height), selected[i];
      && ApplyAll(env, l, kept + [tx], height) == ApplyTransaction(env, before, tx, height)
      && FeeTotal(env, kept + [tx]) == FeeTotal(env, kept) + CountedFee(env, tx)
      && Kept(env, l, selected[..i + 1], height)
         == (if Full(env, kept) || !TxSizeAllowed(env, tx) || ApplyTransaction(env, before, tx, height).None? then kept else kept + [tx])
  {
    var kept, tx := Kept(env, l, selected[..i], height), selected[i];
    assert (kept + [tx])[..|kept|] == kept;
    assert selected[..i + 1][..i] == selected[..i];
    hide ApplyTransaction, ApplyCoinbase, TxSizeAllowed, CountedFee;
  }

  lemma {:induction false} FeesGrow(env: Env, txs: seq<Transaction>, i: nat)
    requires i <= |txs|
    ensures FeeTotal(env, txs[..i]) <= FeeTotal(env, txs)
  {
    if i < |txs| {
      var n := |txs| - 1;
      assert txs[..n][..i] == txs[..i];
      FeesGrow(env, txs[..n], i);
    } else {
      assert txs[..i] == txs;
    }
  }

  lemma FeesOverflow(env: Env, l: Ledger, selected: seq<Transaction>, height: u64, i: nat)
    requires i <= |selected| && FeeTotal(env, Kept(env, l, selected[..i], height)) > MAX_U64
    ensures FeeTotal(env, Kept(env, l, selected, height)) > MAX_U64
  {
    hide Kept, FeeTotal;
    var some, all := Kept(env, l, selected[..i], height), Kept(env, l, selected, height);
    KeptGrows(env, l, selected, height, i);
    assert some == all[..|some|];
    FeesGrow(env, all, |some|);
  }

  /** Tries the selected transactions one after the other on the working ledger. */
  method Fill(work: MatureLedger, selected: seq<Transaction>, height: u64)
      returns (ok: bool, kept: seq<Transaction>, fees: u64)
    requires work.Valid() && Coherent(work.env, work.model) && work.env.AddressesSound() && Mining.NoCoinbase(selected)
    modifies work, work.assets, work.coinbases
    ensures ok <==> FeeTotal(work.env, Kept(work.env, old(work.model), selected, height)) <= MAX_U64
    ensures ok ==> kept == Kept(work.env, old(work.model), selected, height) && fees == FeeTotal(work.env, kept)
    ensures ok ==> work.Valid() && Some(work.model) == ApplyAll(work.env, old(work.model), kept, height)
  {
    hide MatureLedger.Core, Coherent, ApplyTransaction, Kept, FeeTotal, CountedFee, TxSizeAllowed, LegacyAtomic;
    ghost var env, start := work.env, work.model;
    NothingKept(env, start, height);
    ok, kept, fees := true, [], 0;
    var i := 0;
    while i < |selected| && !Full(work.env, kept)
      invariant i <= |selected| && work.Valid() && work.env == env && Coherent(env, work.model)
      invariant fresh({work.assets, work.coinbases} - old({work.assets, work.coinbases}))
      invariant kept == Kept(env, start, selected[..i], height) && fees == FeeTotal(env, kept)
      invariant ApplyAll(env, start, kept, height) == Some(work.model)
    {
      var tx := selected[i];
      assert !tx.coinbase;
      KeptStep(env, start, work.model, selected, height, i);
      Recovery.CoherentIsAtomic(env, work.model);
      i := i + 1;
      if !TxSizeAllowed(work.env, tx) {
        continue;
      }
      ghost var before := work.model;
      var applied := work.ApplyTransactionAtHeight(tx, height);
      if !applied {
        continue;
      }
      ApplyTransactionKeeps(env, before, tx, height);
      kept := kept + [tx];
      var total := Add(fees, CountedFee(work.env, tx));
      if total.None? {
        FeesOverflow(env, start, selected, height, i);
        ok := false;
        return;
      }
      fees := total.value;
    }
    KeptGrows(env, start, selected, height, i);
    assert selected[..|selected|] == selected;
  }

  lemma NothingKept(env: Env, l: Ledger, height: u64)
    ensures Kept(env, l, [], height) == [] && FeeTotal(env, []) == 0 && ApplyAll(env, l, [], height) == Some(l)
    ensures forall txs: seq<Transaction> :: txs[..0] == []
  {
  }

  lemma NoOtherTemplate(rules: Rules, blocks: seq<Block>, miner: Address, selected: seq<Transaction>, draft: Block, t: Block)
    requires blocks != [] && IsTemplate(rules, blocks, miner, selected, t)
    requires
      var l, height := Replay(rules.env, blocks).value, TipOf(blocks).height + 1;
      var kept := Kept(rules.env, l, selected, height);
      draft == Draft(rules, blocks, miner, [CoinbaseFor(rules.env, miner, kept, height).value] + kept)
    requires draft.ProtocolVersion() == BLOCK_VERSION_CANONICAL
    ensures ApplyBlock(rules.env, Replay(rules.env, blocks).value, draft).Some?
  {
    hide Replay, Kept, CoinbaseFor, ApplyBlock, RootInputs, Difficulty.Next;
    SameExecution(rules.env, Replay(rules.env, blocks).value, t, draft);
  }

  /** Puts the coinbase in front of what was kept, and the root of the executed draft into a canonical one. */
  method Assemble(rules: Rules, blocks: seq<Block>, l: MatureLedger, miner: Address, ghost selected: seq<Transaction>,
                  kept: seq<Transaction>, fees: u64)
      returns (b: Option<Block>)
    requires blocks != [] && TipOf(blocks).height < MAX_U64 && l.Valid() && l.env == rules.env
    requires Replay(rules.env, blocks) == Some(l.model) && l.model.height == TipOf(blocks).height
    requires kept == Kept(rules.env, l.model, selected, TipOf(blocks).height + 1) && fees == FeeTotal(rules.env, kept)
    modifies l`stakes
    ensures b.Some? ==> IsTemplate(rules, blocks, miner, selected, b.value)
    ensures b.None? ==> forall t :: !IsTemplate(rules, blocks, miner, selected, t)
  {
    hide MatureLedger.Core, Replay, Kept, ApplyBlock, RootInputs, Difficulty.Next, FeeTotal;
    var env := rules.env;
    var height := TipOf(blocks).height + 1;
    b := None;
    var reward := if env.AssetModel() then Some(env.profile.blockSubsidy) else Add(INITIAL_BLOCK_REWARD, fees);
    if reward.None? {
      return;
    }
    var coinbase := NewCoinbase(env, miner, reward.value, height);
    var id := env.oracle.txId(coinbase);
    if id.None? {
      return;
    }
    coinbase := coinbase.(id := id.value);
    assert CoinbaseFor(env, miner, kept, height) == Some(coinbase);
    hide NewCoinbase, CoinbaseFor;
    var draft := Draft(rules, blocks, miner, [coinbase] + kept);
    if draft.ProtocolVersion() != BLOCK_VERSION_CANONICAL {
      b := Some(draft);
      return;
    }
    ghost var before := l.model;
    var candidate := l.Clone();
    var ok := candidate.Apply(draft);
    if ok {
      var s := Validation.ExportForRoot(candidate);
      SameExecution(env, before, draft, draft.(stateRoot := rules.root(s)));
      b := Some(draft.(stateRoot := rules.root(s)));
    } else {
      forall t
        ensures !IsTemplate(rules, blocks, miner, selected, t)
      {
        if IsTemplate(rules, blocks, miner, selected, t) {
          NoOtherTemplate(rules, blocks, miner, selected, draft, t);
        }
      }
    }
  }

  /** What selection returned for the pool on this ledger. */
  ghost predicate IsChoice(env: Env, l: Ledger, pending: seq<Transaction>, choice: Choice) {
    var maxGas := env.profile.maxGasPerBlock;
    && Recovery.NextNonces(env, l, pending, choice.nextNonce)
    && Chosen(env, pending, choice.nextNonce, choice.queues, choice.picks)
    && Selection.Exhausted(Selection.After(choice.queues, choice.picks), Selection.Gas(choice.picks), maxGas)
  }

  datatype Choice = Choice(nextNonce: map<Address, u64>, queues: Selection.Queues, picks: seq<Selection.Candidate>)
  {
    function Txs(): seq<Transaction> {
      Selection.Txs(picks)
    }
  }

  /** The template, or that there is none. */
  ghost predicate Decides(rules: Rules, blocks: seq<Block>, miner: Address, selected: seq<Transaction>, b: Option<Block>)
    requires blocks != []
  {
    match b
    case Some(template) => IsTemplate(rules, blocks, miner, selected, template)
    case None => forall t :: !IsTemplate(rules, blocks, miner, selected, t)
  }

  /** A block mined from the pool is accepted and stored if and only if it fits: the miner's address is valid,
      the clock is not behind the tip, the network's versions exist, and the limits the template does not
      look at hold. */
  lemma MinedFromPool(rules: Rules, blocks: seq<Block>, miner: Address, pending: seq<Transaction>, choice: Choice,
                      template: Block, mined: Block)
    requires Nodes.Ready(rules) && Preimages.IdsFollow(rules.env) && blocks != []
    requires IssuedBy(blocks) + rules.env.profile.blockSubsidy <= MAX_U64
    requires Replay(rules.env, blocks).Some? && IsChoice(rules.env, Replay(rules.env, blocks).value, pending, choice)
    requires IsTemplate(rules, blocks, miner, choice.Txs(), template) && IsMined(rules, template, mined)
    ensures Fits(rules, blocks, mined) <==>
            ValidNext(rules, mined, blocks) && ApplyBlock(rules.env, Replay(rules.env, blocks).value, mined).Some?
  {
    assert Chosen(rules.env, pending, choice.nextNonce, choice.queues, choice.picks);
    hide *;
    ChosenIsBounded(rules.env, pending, choice.nextNonce, choice.queues, choice.picks);
    assert choice.Txs() == Selection.Txs(choice.picks) by {
      TxsOf(choice);
    }
    MinedIffFits(rules, blocks, miner, choice.Txs(), template, mined);
    if ValidNext(rules, mined, blocks) {
      FittingIsStored(rules, blocks, mined);
    }
  }

  lemma TxsOf(choice: Choice)
    ensures choice.Txs() == Selection.Txs(choice.picks)
  {
  }

  method Choose(l: MatureLedger, pending: seq<Transaction>)
      returns (ok: bool, selected: seq<Transaction>, ghost choice: Choice)
    requires l.Valid()
    ensures ok <==> NoncesLeft(l.model, pending) && Selection.AllSelectable(l.env, pending)
    ensures ok ==> IsChoice(l.env, l.model, pending, choice) && selected == choice.Txs()
    ensures ok ==> Mining.NoCoinbase(selected) && GasKept(l.env, selected)
  {
    hide MatureLedger.Core, NoncesLeft, Selection.AllSelectable, Selection.QueuesFor, Selection.Greedy, Selection.Exhausted,
         Selection.Gas, Recovery.NextNonces, GasKept, Mining.NoCoinbase;
    selected, choice := [], Choice(map[], map[], []);
    var next;
    ok, next := NextNonces(l, pending);
    if ok {
      ghost var queues, picks;
      ok, selected, queues, picks := Selection.SelectWithNonces(l.env, pending, l.env.profile.maxGasPerBlock, next);
      if ok {
        choice := Choice(next, queues, picks);
        ChosenIsBounded(l.env, pending, next, queues, picks);
      }
    }
  }

  /** A template for `miner` from the pending transactions, on the stored chain. It is refused when there is
      no next height, when a sender's nonces are used up, when selection refuses the pool, and when the
      selection admits no template: its fees or the reward overflow, or the draft does not execute. */
  method BuildTemplate(chain: Nodes.Blockchain, miner: Address, pending: seq<Transaction>)
      returns (b: Option<Block>, ghost choice: Choice)
    requires chain.Valid()
    ensures chain.blocks != []
    ensures
      var env, l := chain.rules.env, Replay(chain.rules.env, chain.blocks).value;
      if TipOf(chain.blocks).height == MAX_U64 || !NoncesLeft(l, pending) || !Selection.AllSelectable(env, pending) then b.None?
      else IsChoice(env, l, pending, choice) && Decides(chain.rules, chain.blocks, miner, choice.Txs(), b)
  {
    var rules, blocks := chain.rules, chain.blocks;
    ChainParts(chain);
    assert 0 <= TipOf(blocks).height <= MAX_U64;
    hide *;
    b, choice := None, Choice(map[], map[], []);
    var replayed, l := ReplayMature(rules.env, blocks);
    if TipOf(blocks).height == MAX_U64 {
      return;
    }
    var ok, selected;
    ok, selected, choice := Choose(l, pending);
    if ok {
      b := FromSelection(rules, blocks, l, miner, selected);
    }
  }

  method FromSelection(rules: Rules, blocks: seq<Block>, l: MatureLedger, miner: Address, selected: seq<Transaction>)
      returns (b: Option<Block>)
    requires blocks != [] && TipOf(blocks).height < MAX_U64 && l.Valid() && l.env == rules.env && rules.env.AddressesSound()
    requires Replay(rules.env, blocks) == Some(l.model) && l.model.height == TipOf(blocks).height && Coherent(rules.env, l.model)
    requires Mining.NoCoinbase(selected)
    modifies l`stakes
    ensures Decides(rules, blocks, miner, selected, b)
  {
    hide MatureLedger.Core, Replay, Coherent, Kept, FeeTotal, ApplyAll, IsTemplate, Mining.NoCoinbase, Env.AddressesSound;
    ghost var start := l.model;
    var work := l.Clone();
    var ok, kept, fees := Fill(work, selected, TipOf(blocks).height + 1);
    if ok {
      b := Assemble(rules, blocks, l, miner, selected, kept, fees);
    } else {
      b := None;
      NoTemplate(rules, blocks, miner, selected);
    }
  }

  lemma ChainParts(chain: Nodes.Blockchain)
    requires chain.Valid()
    ensures
      var rules, blocks := chain.rules, chain.blocks;
      && blocks != [] && rules.env.AddressesSound() && Rising(blocks) && Replay(rules.env, blocks).Some?
      && Replay(rules.env, blocks).value.height == TipOf(blocks).height
      && Coherent(rules.env, Replay(rules.env, blocks).value)
  {
    hide StoredChain, Replay, Coherent, Nodes.Ready, Rules.WellFormed, Rising;
    var rules, blocks := chain.rules, chain.blocks;
    Nodes.ReadyParts(rules);
    Nodes.TipHashed(rules, blocks);
    Validation.StoredChainRises(rules, blocks);
    Validation.ReplayedHeight(rules.env, blocks);
    ReplayCoherent(rules.env, blocks);
  }

  lemma NoTemplate(rules: Rules, blocks: seq<Block>, miner: Address, selected: seq<Transaction>)
    requires blocks != [] && Replay(rules.env, blocks).Some? && TipOf(blocks).height < MAX_U64
    requires FeeTotal(rules.env, Kept(rules.env, Replay(rules.env, blocks).value, selected, TipOf(blocks).height + 1)) > MAX_U64
    ensures forall t :: !IsTemplate(rules, blocks, miner, selected, t)
  {
    hide Replay, Kept, FeeTotal, Rooted, Difficulty.Next;
  }

  lemma ReplayCoherent(env: Env, blocks: seq<Block>)
    requires blocks != [] && env.AddressesSound() && Replay(env, blocks).Some?
    ensures Coherent(env, Replay(env, blocks).value)
  {
    hide ApplyBlocks, Replay, Coherent, Env.AddressesSound;
    ChainSafety.ReplayIsApplyBlocks(env, blocks);
    ReachableCoherent(env, blocks);
    ChainSafety.ReplayRests(env, blocks);
  }
}
