/** The simple ledger and the reported supply (ledger/ledger.go): one balance and one nonce per address,
    no maturity, no stakes, no assets. The mature ledger accepts a subset of what it accepts. */
module SimpleLedgers {
  import opened Arith
  import opened Types
  import opened Ledgers
  import opened LedgerInvariant
  import opened Chains
  import Assets
  import ChainSafety
  import Staking

  datatype Account = Account(balance: u64, nonce: u64)

  datatype Simple = Simple(balances: multiset<Address>, nonces: multiset<Address>)

  const NEW_SIMPLE: Simple := Simple(multiset{}, multiset{})

  // ---------------------------------------------------------------- specification

  function PayCoinbase(env: Env, s: Simple, tx: Transaction): Option<Simple> {
    var to := tx.recipient;
    if !tx.coinbase || !env.ValidAddress(to) || s.balances[to] + tx.amount > MAX_U64 then None
    else Some(s.(balances := s.balances[to := s.balances[to] + tx.amount]))
  }

  predicate Plausible(env: Env, tx: Transaction) {
    && TxVersionActive(tx.ProtocolVersion(), env.profile.txVersion)
    && (tx.Kind() == Transfer || tx.Kind() == StakeLock ==> tx.amount > 0)
    && (tx.Kind() == Transfer ==> tx.sender != tx.recipient && env.ValidAddress(tx.recipient))
    && (tx.Kind() == StakeLock ==> tx.recipient == "" || tx.recipient == tx.sender)
    && (tx.Kind() == StakeLock ==> tx.stakeId == "" || tx.stakeId == tx.id)
    && env.ValidAddress(tx.sender)
    && env.oracle.txId(tx) == Some(tx.id)
    && env.oracle.signed(tx)
  }

  predicate Acceptable(env: Env, s: Simple, tx: Transaction) {
    && Plausible(env, tx)
    && tx.nonce == s.nonces[tx.sender] + 1
    && (tx.Kind() == Transfer ==> tx.amount + tx.fee <= MAX_U64 && tx.amount + tx.fee <= s.balances[tx.sender])
    && (tx.Kind() == StakeLock ==> tx.amount <= s.balances[tx.sender])
  }

  function Execute(env: Env, s: Simple, tx: Transaction): Option<Simple> {
    if !Acceptable(env, s, tx) then None
    else if tx.Kind() != Transfer then Some(s.(nonces := s.nonces[tx.sender := tx.nonce]))
    else if s.balances[tx.recipient] + tx.amount > MAX_U64 then None
    else
      var paid := s.balances[tx.sender := s.balances[tx.sender] - (tx.amount + tx.fee)];
      Some(Simple(paid[tx.recipient := paid[tx.recipient] + tx.amount], s.nonces[tx.sender := tx.nonce]))
  }

  function ExecuteAny(env: Env, s: Simple, tx: Transaction): Option<Simple> {
    if tx.coinbase then PayCoinbase(env, s, tx) else Execute(env, s, tx)
  }

  function ExecuteAll(env: Env, s: Simple, txs: seq<Transaction>): Option<Simple> {
    if txs == [] then Some(s)
    else
      var before :- ExecuteAll(env, s, txs[..|txs| - 1]);
      ExecuteAny(env, before, txs[|txs| - 1])
  }

  function ExecuteBlock(env: Env, s: Simple, b: Block): Option<Simple> {
    if CoinbaseCount(b.txs) > 1 then None else ExecuteAll(env, s, b.txs)
  }

  function ExecuteBlocks(env: Env, s: Simple, blocks: seq<Block>): Option<Simple> {
    if blocks == [] then Some(s)
    else
      var before :- ExecuteBlocks(env, s, blocks[..|blocks| - 1]);
      ExecuteBlock(env, before, blocks[|blocks| - 1])
  }

  // ---------------------------------------------------------------- implementation

  function AccountOf(accounts: map<Address, Account>, a: Address): Account {
    if a in accounts then accounts[a] else Account(0, 0)
  }

  ghost predicate Shows(accounts: map<Address, Account>, s: Simple) {
    forall a {:trigger AccountOf(accounts, a)} ::
      AccountOf(accounts, a).balance == s.balances[a] && AccountOf(accounts, a).nonce == s.nonces[a]
  }

  lemma SetShows(accounts: map<Address, Account>, s: Simple, a: Address, acct: Account)
    requires Shows(accounts, s)
    ensures Shows(accounts[a := acct], Simple(s.balances[a := acct.balance], s.nonces[a := acct.nonce]))
  {
    var after := accounts[a := acct];
    forall x {:trigger AccountOf(after, x)}
      ensures AccountOf(after, x).balance == s.balances[a := acct.balance][x]
      ensures AccountOf(after, x).nonce == s.nonces[a := acct.nonce][x]
    {
      assert AccountOf(after, x) == if x == a then acct else AccountOf(accounts, x);
    }
  }

  class SimpleLedger {
    const env: Env
    var accounts: map<Address, Account>
    ghost var model: Simple

    ghost predicate Valid()
      reads this
    {
      Shows(accounts, model)
    }

    constructor (env: Env)
      ensures Valid() && model == NEW_SIMPLE && this.env == env
    {
      this.env, accounts, model := env, map[], NEW_SIMPLE;
    }

    method Put(a: Address, acct: Account)
      requires Valid()
      modifies this
      ensures Valid()
      ensures model == Simple(old(model).balances[a := acct.balance], old(model).nonces[a := acct.nonce])
    {
      SetShows(accounts, model, a, acct);
      accounts, model := accounts[a := acct], Simple(model.balances[a := acct.balance], model.nonces[a := acct.nonce]);
    }

    method ApplyCoinbase(tx: Transaction) returns (ok: bool)
      requires Valid()
      modifies this
      ensures Valid() && ok == PayCoinbase(env, old(model), tx).Some?
      ensures model == if ok then PayCoinbase(env, old(model), tx).value else old(model)
    {
      if !tx.coinbase || !env.ValidAddress(tx.recipient) {
        return false;
      }
      var acct := AccountOf(accounts, tx.recipient);
      var balance := Add(acct.balance, tx.amount);
      if balance.None? {
        return false;
      }
      Put(tx.recipient, acct.(balance := balance.value));
      assert model.nonces == old(model).nonces;
      return true;
    }

    /** Of a coinbase only the version is checked. */
    method ValidateTransaction(tx: Transaction) returns (ok: bool)
      requires Valid()
      ensures ok <==>
              if tx.coinbase then TxVersionActive(tx.ProtocolVersion(), env.profile.txVersion)
              else Acceptable(env, model, tx)
    {
      if !TxVersionActive(tx.ProtocolVersion(), env.profile.txVersion) {
        return false;
      }
      if tx.coinbase {
        return true;
      }
      hide Plausible;
      if !Plausible(env, tx) {
        return false;
      }
      var account := AccountOf(accounts, tx.sender);
      var expected := Add(account.nonce, 1);
      if expected.None? || tx.nonce != expected.value {
        return false;
      }
      if tx.Kind() == Transfer {
        var cost := Add(tx.amount, tx.fee);
        if cost.None? || account.balance < cost.value {
          return false;
        }
      }
      return !(tx.Kind() == StakeLock && account.balance < tx.amount);
    }

    method ApplyTransaction(tx: Transaction) returns (ok: bool)
      requires Valid() && !tx.coinbase
      modifies this
      ensures Valid() && ok == Execute(env, old(model), tx).Some?
      ensures model == if ok then Execute(env, old(model), tx).value else old(model)
    {
      ok := ValidateTransaction(tx);
      if !ok {
        return;
      }
      var src := AccountOf(accounts, tx.sender);
      if tx.Kind() == Transfer {
        var dst := AccountOf(accounts, tx.recipient);
        var received := Add(dst.balance, tx.amount);
        if received.None? {
          return false;
        }
        Put(tx.sender, Account(src.balance - (tx.amount + tx.fee), tx.nonce));
        Put(tx.recipient, dst.(balance := received.value));
        assert model.nonces == old(model).nonces[tx.sender := tx.nonce];
      } else {
        Put(tx.sender, src.(nonce := tx.nonce));
        assert model.balances == old(model).balances;
      }
    }

    method ApplyBlock(b: Block) returns (ok: bool)
      requires Valid()
      modifies this
      ensures Valid() && ok == ExecuteBlock(env, old(model), b).Some?
      ensures ok ==> model == ExecuteBlock(env, old(model), b).value
    {
      hide Execute, PayCoinbase;
      var coinbases: nat := 0;
      for i := 0 to |b.txs|
        invariant Valid() && coinbases == CoinbaseCount(b.txs[..i]) <= 1
        invariant ExecuteAll(env, old(model), b.txs[..i]) == Some(model)
      {
        assert b.txs[..i + 1][..i] == b.txs[..i];
        PrefixDecides(env, old(model), b.txs, i + 1);
        if b.txs[i].coinbase {
          coinbases := coinbases + 1;
          if coinbases > 1 {
            return false;
          }
          ok := ApplyCoinbase(b.txs[i]);
        } else {
          ok := ApplyTransaction(b.txs[i]);
        }
        if !ok {
          return;
        }
      }
      assert b.txs[..|b.txs|] == b.txs;
      ok := true;
    }
  }

  lemma {:induction false} PrefixDecides(env: Env, s: Simple, txs: seq<Transaction>, k: nat)
    requires k <= |txs|
    ensures ExecuteAll(env, s, txs[..k]).None? ==> ExecuteAll(env, s, txs).None?
    ensures CoinbaseCount(txs[..k]) <= CoinbaseCount(txs)
  {
    hide ExecuteAny;
    if k == |txs| {
      assert txs[..k] == txs;
    } else {
      assert txs[..|txs| - 1][..k] == txs[..k];
      PrefixDecides(env, s, txs[..|txs| - 1], k);
    }
  }

  // ---------------------------------------------------------------- the mature ledger is stricter

  /** The simple view of a ledger. */
  ghost function View(l: Ledger): Simple {
    Simple(l.confirmed, l.nonces)
  }

  /** For a pre-v3 transfer the mature ledger asks exactly one thing more: that the cost is covered by
      mature coins not locked in stakes. */
  lemma TransferNeedsMaturity(env: Env, l: Ledger, tx: Transaction)
    requires Coherent(env, l) && !tx.coinbase && tx.ProtocolVersion() != TX_VERSION_ASSET && tx.Kind() == Transfer
    ensures ValidTransaction(env, l, tx) <==>
            && Acceptable(env, View(l), tx)
            && Staking.Locked(l.stakes)[tx.sender] + tx.amount + tx.fee <= l.mature[tx.sender]
  {
    MatureIsConfirmed(env, l);
    hide Coherent, Staking.Locked;
  }

  lemma LegacyIsStricter(env: Env, l: Ledger, tx: Transaction)
    requires Coherent(env, l) && !tx.coinbase && tx.ProtocolVersion() != TX_VERSION_ASSET && ValidTransaction(env, l, tx)
    ensures Acceptable(env, View(l), tx)
  {
    MatureIsConfirmed(env, l);
    hide Coherent, Staking.Locked, Staking.ActiveCount;
  }

  /** Whatever pre-v3 transaction the mature ledger executes, the simple one executes too, with the same
      confirmed balances and nonces. */
  lemma TransactionSimulated(env: Env, l: Ledger, tx: Transaction, height: u64)
    requires Coherent(env, l) && !tx.coinbase && tx.ProtocolVersion() != TX_VERSION_ASSET
    requires ApplyTransaction(env, l, tx, height).Some?
    ensures Execute(env, View(l), tx) == Some(View(ApplyTransaction(env, l, tx, height).value))
  {
    LegacyIsStricter(env, l, tx);
    hide Acceptable, Coherent, ValidTransaction, LegacyBook, Staking.ApplyLock, Staking.ApplyUnlock, Staking.Refresh;
  }

  lemma CoinbaseSimulated(env: Env, l: Ledger, tx: Transaction, height: u64)
    requires ApplyCoinbase(env, l, tx, height).Some?
    ensures PayCoinbase(env, View(l), tx) == Some(View(ApplyCoinbase(env, l, tx, height).value))
  {
    hide Assets.AssetBook.Credit;
  }

  lemma {:induction false} ListSimulated(env: Env, l: Ledger, txs: seq<Transaction>, height: u64)
    requires !env.AssetModel() && env.AddressesSound() && Coherent(env, l) && ApplyAll(env, l, txs, height).Some?
    ensures ExecuteAll(env, View(l), txs) == Some(View(ApplyAll(env, l, txs, height).value))
  {
    hide ApplyTransaction, ApplyCoinbase, Execute, PayCoinbase, Coherent, Supply;
    if txs != [] {
      var n := |txs| - 1;
      ListSimulated(env, l, txs[..n], height);
      ApplyAllKeeps(env, l, txs[..n], height);
      var before := ApplyAll(env, l, txs[..n], height).value;
      if txs[n].coinbase {
        CoinbaseSimulated(env, before, txs[n], height);
      } else {
        LegacyOnly(env, before, txs[n], height);
        TransactionSimulated(env, before, txs[n], height);
      }
    }
  }

  lemma LegacyOnly(env: Env, l: Ledger, tx: Transaction, height: u64)
    requires !env.AssetModel() && ApplyTransaction(env, l, tx, height).Some?
    ensures tx.ProtocolVersion() != TX_VERSION_ASSET
  {
    hide Executable, Effect, WellSignedV3, WellSignedLegacy;
  }

  lemma {:induction false} MaturingIsInvisible(env: Env, l: Ledger, credits: seq<PendingCoinbase>, height: u64)
    ensures View(MatureRun(env, l, credits, height)) == View(l)
  {
    if credits != [] {
      MaturingIsInvisible(env, l, credits[..|credits| - 1], height);
    }
  }

  lemma BlockSimulated(env: Env, l: Ledger, b: Block)
    requires !env.AssetModel() && env.AddressesSound() && Coherent(env, l) && ApplyBlock(env, l, b).Some?
    ensures ExecuteBlock(env, View(l), b) == Some(View(ApplyBlock(env, l, b).value))
  {
    hide Coherent, Supply, ApplyAll, ExecuteAll, MatureRun, Staking.Refresh;
    if b.height > 0 {
      MaturingIsInvisible(env, l, l.pending, b.height - 1);
    }
    var ready := OpenBlock(env, l, b);
    OpenKeeps(env, l, b);
    ListSimulated(env, ready, b.txs, b.height);
    var applied := ApplyAll(env, ready, b.txs, b.height).value;
    var closing := applied.(height := b.height, stakes := Staking.Refresh(applied.stakes, b.height));
    MaturingIsInvisible(env, closing, closing.pending, b.height);
  }

  /** Before the asset model, every chain the mature ledger replays the simple ledger replays too, to the
      same confirmed balances and nonces. */
  lemma {:induction false} ReplaySimulated(env: Env, blocks: seq<Block>)
    requires !env.AssetModel() && env.AddressesSound() && ApplyBlocks(env, NEW_LEDGER, blocks).Some?
    ensures ExecuteBlocks(env, NEW_SIMPLE, blocks) == Some(View(ApplyBlocks(env, NEW_LEDGER, blocks).value))
  {
    hide ApplyBlock, ExecuteBlock, Coherent, Supply, FeePool;
    if blocks != [] {
      var n := |blocks| - 1;
      ReplaySimulated(env, blocks[..n]);
      ReachableCoherent(env, blocks[..n]);
      BlockSimulated(env, ApplyBlocks(env, NEW_LEDGER, blocks[..n]).value, blocks[n]);
    }
  }

  // ---------------------------------------------------------------- the reported supply

  function ReportedOf(env: Env, tx: Transaction): nat {
    if !tx.coinbase then 0 else if env.AssetModel() then tx.amount else INITIAL_BLOCK_REWARD
  }

  function ReportedIn(env: Env, txs: seq<Transaction>): nat {
    if txs == [] then 0 else ReportedIn(env, txs[..|txs| - 1]) + ReportedOf(env, txs[|txs| - 1])
  }

  function Reported(env: Env, blocks: seq<Block>): nat {
    if blocks == [] then 0
    else
      var b := blocks[|blocks| - 1];
      Reported(env, blocks[..|blocks| - 1]) + (if b.height == 0 then 0 else ReportedIn(env, b.txs))
  }

  lemma CapAdds(x: nat, n: u64)
    ensures AddCap(Cap(x), n) == Cap(x + n)
  {
  }

  method TotalSupply(env: Env, blocks: seq<Block>) returns (total: u64)
    ensures total == Cap(Reported(env, blocks))
  {
    hide Cap, AddCap;
    total := Cap(0);
    for i := 0 to |blocks|
      invariant total == Cap(Reported(env, blocks[..i]))
    {
      assert blocks[..i + 1][..i] == blocks[..i];
      if blocks[i].height == 0 {
        continue;
      }
      var txs := blocks[i].txs;
      ghost var before := Reported(env, blocks[..i]);
      assert txs[..0] == [];
      for j := 0 to |txs|
        invariant total == Cap(before + ReportedIn(env, txs[..j]))
      {
        assert txs[..j + 1][..j] == txs[..j];
        if txs[j].coinbase {
          var n := if env.AssetModel() then txs[j].amount else INITIAL_BLOCK_REWARD;
          CapAdds(before + ReportedIn(env, txs[..j]), n);
          total := AddCap(total, n);
        }
      }
      assert txs[..|txs|] == txs;
    }
    assert blocks[..|blocks|] == blocks;
  }

  lemma {:induction false} ReportedPerCoinbase(env: Env, txs: seq<Transaction>, reward: nat)
    requires env.AssetModel() ==> forall i :: 0 <= i < |txs| && txs[i].coinbase ==> txs[i].amount == reward
    ensures ReportedIn(env, txs) == (if env.AssetModel() then reward else INITIAL_BLOCK_REWARD) * CoinbaseCount(txs)
  {
    if txs != [] {
      ReportedPerCoinbase(env, txs[..|txs| - 1], reward);
    }
  }

  lemma ReportedPerBlock(env: Env, b: Block)
    requires TxListAllowed(env, b) && b.height > 0
    ensures ReportedIn(env, b.txs) == ChainSafety.Minted(env)
  {
    hide CoinbaseCount, FeeTotal, TxAllowed;
    ReportedPerCoinbase(env, b.txs, Reward(env, b.txs));
  }

  lemma {:induction false} ReportedIsMinted(rules: Rules, blocks: seq<Block>, n: nat)
    requires rules.WellFormed() && StoredChain(rules, blocks) && 1 <= n <= |blocks|
    ensures Reported(rules.env, blocks[..n]) == ChainSafety.Minted(rules.env) * (n - 1)
  {
    hide StoredChain, ReportedIn, ChainSafety.Minted, Rules.WellFormed, TxListAllowed;
    assert blocks[..n][..n - 1] == blocks[..n - 1];
    if n == 1 {
      ChainSafety.StoredChainStarts(rules, blocks);
    } else {
      ReportedIsMinted(rules, blocks, n - 1);
      BlockListed(rules, blocks, n - 1);
      ReportedPerBlock(rules.env, blocks[n - 1]);
      assert ChainSafety.Minted(rules.env) * (n - 1)
          == ChainSafety.Minted(rules.env) * (n - 2) + ChainSafety.Minted(rules.env);
    }
  }

  lemma BlockListed(rules: Rules, blocks: seq<Block>, i: nat)
    requires rules.WellFormed() && StoredChain(rules, blocks) && 1 <= i < |blocks|
    ensures blocks[i].height == i && TxListAllowed(rules.env, blocks[i])
  {
    HeightIsIndex(rules, blocks, i);
    assert ValidBlock(rules, blocks[i], blocks[..i]);
    hide TxListAllowed, HeaderValid, Executes, Contiguous;
  }

  /** The reported supply is one subsidy (or reward) per block; what the accounts own is that, plus what
      the genesis issued, less the burned pre-v3 fees, which the report does not take off. */
  lemma ReportedAgainstOwned(rules: Rules, blocks: seq<Block>)
    requires rules.WellFormed() && StoredChain(rules, blocks) && Replay(rules.env, blocks).Some? && blocks != []
    ensures Reported(rules.env, blocks) == ChainSafety.Minted(rules.env) * (|blocks| - 1)
    ensures |Replay(rules.env, blocks).value.confirmed|
              == Reported(rules.env, blocks) + Issued(blocks[0].txs) - ChainSafety.BurnedBy(rules.env, blocks[1..])
  {
    hide *;
    ReportedIsMinted(rules, blocks, |blocks|);
    ChainSafety.CoinsAreConserved(rules, blocks);
    assert blocks[..|blocks|] == blocks;
  }
}
