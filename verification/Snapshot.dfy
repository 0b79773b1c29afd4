/** Snapshots (state/snapshot.go and the export and rebuild code of ledger/maturity.go): a ledger
    rebuilt from its own export is the same ledger, so executing further blocks on it gives the
    same results. Exported lists are sets: their order comes from map iteration. */
module Snapshots {
  import opened Arith
  import opened Types
  import opened Assets
  import opened Ledgers
  import opened MatureLedgers
  import AssetSupply
  import LedgerInvariant
  import Staking
  import Text

  datatype StateAccount = StateAccount(address: Address, confirmed: u64, mature: u64, nonce: u64)

  datatype Snapshot = Snapshot(
    height: u64,
    accounts: set<StateAccount>,
    stakes: set<Staking.Stake>,
    coinbases: seq<PendingCoinbase>,
    definitions: set<Definition>,
    balances: set<BalanceEntry>)

  ghost predicate Describes(e: StateAccount, l: Ledger) {
    e.address in l.known && e.confirmed == l.confirmed[e.address]
      && e.mature == l.mature[e.address] && e.nonce == l.nonces[e.address]
  }

  /** `s` is what the export functions produce for `l`, with the asset model on. */
  ghost predicate SnapshotOf(s: Snapshot, l: Ledger) {
    && s.height == l.height
    && s.coinbases == l.pending
    && (forall e :: e in s.accounts <==> Describes(e, l))
    && (forall r :: r in s.stakes <==> exists id :: id in l.stakes && l.stakes[id] == r)
    && Exports(l.assets, s.definitions, s.balances)
  }

  // ---------------------------------------------------------------- export

  method StateAccounts(l: MatureLedger) returns (out: set<StateAccount>)
    requires l.Valid()
    ensures forall e :: e in out <==> Describes(e, l.model)
  {
    out := {};
    var todo := l.accounts.Keys;
    while todo != {}
      invariant todo <= l.accounts.Keys
      invariant forall e :: e in out <==> e.address !in todo && Describes(e, l.model)
      decreases |todo|
    {
      var a :| a in todo;
      var acct := AccountOf(l.accounts, a);
      var entry := StateAccount(a, acct.confirmed, acct.mature, acct.nonce);
      out := out + {entry};
      todo := todo - {a};
    }
  }

  method StateStakes(l: MatureLedger) returns (out: set<Staking.Stake>)
    requires l.Valid()
    modifies l`stakes
    ensures l.Valid()
    ensures forall r :: r in out <==> exists id :: id in l.model.stakes && l.model.stakes[id] == r
  {
    l.RefreshStakes();
    out := {};
    var todo := l.stakes.Keys;
    while todo != {}
      invariant todo <= l.stakes.Keys
      invariant forall r :: r in out <==> exists id :: id in l.stakes && id !in todo && l.stakes[id] == r
      decreases |todo|
    {
      var id :| id in todo;
      out := out + {l.stakes[id]};
      todo := todo - {id};
    }
  }

  method SnapshotForLedger(l: MatureLedger) returns (s: Snapshot)
    requires l.Valid() && l.env.AssetModel()
    modifies l`stakes
    ensures l.Valid() && SnapshotOf(s, l.model)
  {
    hide MatureLedger.Core, Describes;
    var accounts := StateAccounts(l);
    var stakes := StateStakes(l);
    var definitions, balances := ExportAssets(l);
    s := Snapshot(l.Height(), accounts, stakes, l.coinbases[..l.coinbaseCount], definitions, balances);
  }

  method ExportAssets(l: MatureLedger) returns (definitions: set<Definition>, balances: set<BalanceEntry>)
    requires l.Valid()
    ensures Exports(l.model.assets, definitions, balances)
  {
    hide Staking.Refresh, Tracks, Represents, IsEntry;
    definitions := l.assets.Definitions();
    balances := l.assets.BalanceEntries();
  }

  // ---------------------------------------------------------------- rebuild

  predicate DistinctAccounts(accounts: set<StateAccount>) {
    forall x, y :: x in accounts && y in accounts && x.address == y.address ==> x == y
  }

  predicate DistinctStakes(stakes: set<Staking.Stake>) {
    forall x, y :: x in stakes && y in stakes && x.id == y.id ==> x == y
  }

  /** Two entries for one key are never listed. */
  predicate NoDuplicates(s: Snapshot) {
    DistinctAccounts(s.accounts) && DistinctStakes(s.stakes) && DistinctIds(s.definitions) && DistinctEntries(s.balances)
  }

  /** Pending coinbases at ascending heights below `limit`, each worth something to someone. */
  predicate Ascending(credits: seq<PendingCoinbase>, limit: nat) {
    credits == [] ||
      var c := credits[|credits| - 1];
      c.height < limit && c.amount > 0 && c.address != "" && Ascending(credits[..|credits| - 1], c.height)
  }

  predicate CoinbasesValid(credits: seq<PendingCoinbase>, height: u64) {
    && (forall i :: 0 <= i < |credits| ==>
          credits[i].address != "" && credits[i].amount > 0 && credits[i].height <= height)
    && (forall i, j :: 0 <= i < j < |credits| ==>
          credits[i].height != credits[j].height || credits[i].address != credits[j].address)
  }

  predicate DefinitionValid(d: Definition) {
    if IsNative(d.id) then d.id == NATIVE_ASSET && d.symbol == NATIVE_ASSET && d.decimals == NATIVE_DECIMALS
    else ValidDefinition(d)
  }

  predicate EntryValid(definitions: set<Definition>, e: BalanceEntry) {
    e.address != "" && e.assetId != "" && e.amount > 0 && exists d :: d in definitions && d.id == e.assetId
  }

  /** The account's confirmed balance is its listed native balance. */
  predicate NativeListed(balances: set<BalanceEntry>, e: StateAccount) {
    if e.confirmed > 0 then BalanceEntry(e.address, NATIVE_ASSET, e.confirmed) in balances
    else forall x :: x in balances ==> x.address != e.address || !IsNative(x.assetId)
  }

  /** `Snapshot.Validate`, apart from the root it recomputes. */
  predicate SnapshotValid(s: Snapshot) {
    && NoDuplicates(s)
    && CoinbasesValid(s.coinbases, s.height)
    && (forall d :: d in s.definitions ==> DefinitionValid(d))
    && (s.definitions != {} ==> exists d :: d in s.definitions && IsNative(d.id))
    && (forall e :: e in s.balances ==> EntryValid(s.definitions, e))
    && (s.definitions != {} ==> forall e :: e in s.accounts ==> NativeListed(s.balances, e))
  }

  ghost predicate AccountsFrom(listed: set<StateAccount>, accounts: Accounts) {
    && (forall e :: e in listed ==>
          e.address in accounts && accounts[e.address] == MatureAccount(e.confirmed, e.mature, e.nonce))
    && (forall a :: a in accounts ==> exists e :: e in listed && e.address == a)
  }

  method LoadAccounts(listed: set<StateAccount>) returns (accounts: Accounts)
    requires DistinctAccounts(listed)
    ensures AccountsFrom(listed, accounts)
  {
    accounts := map[];
    var todo := listed;
    while todo != {}
      invariant todo <= listed && AccountsFrom(listed - todo, accounts)
      decreases |todo|
    {
      var e :| e in todo;
      ghost var done := listed - todo;
      accounts := accounts[e.address := MatureAccount(e.confirmed, e.mature, e.nonce)];
      todo := todo - {e};
      assert listed - todo == done + {e};
    }
    assert listed - todo == listed;
  }

  ghost predicate StakesFrom(listed: set<Staking.Stake>, records: Staking.Records) {
    && (forall r :: r in listed ==> r.id in records && records[r.id] == r)
    && (forall id :: id in records ==> exists r :: r in listed && r.id == id)
  }

  method LoadStakes(listed: set<Staking.Stake>) returns (records: Staking.Records)
    requires DistinctStakes(listed)
    ensures StakesFrom(listed, records)
  {
    records := map[];
    var todo := listed;
    while todo != {}
      invariant todo <= listed && StakesFrom(listed - todo, records)
      decreases |todo|
    {
      var r :| r in todo;
      ghost var done := listed - todo;
      records := records[r.id := r];
      todo := todo - {r};
      assert listed - todo == done + {r};
    }
    assert listed - todo == listed;
  }

  ghost function Counts(m: map<Address, u64>): (r: multiset<Address>)
    ensures forall a :: r[a] == if a in m then m[a] else 0
  {
    if m == map[] then multiset{}
    else
      var a :| a in m;
      Counts(m - {a})[a := m[a]]
  }

  /** The specification state of freshly loaded accounts, stakes and assets. */
  ghost function Loaded(accounts: Accounts, records: Staking.Records, pending: seq<PendingCoinbase>,
                        height: u64, assets: AssetBook): Ledger
  {
    Ledger(accounts.Keys,
           Counts(map a | a in accounts :: accounts[a].confirmed),
           Counts(map a | a in accounts :: accounts[a].mature),
           Counts(map a | a in accounts :: accounts[a].nonce),
           pending, height, Staking.Refresh(records, height), assets)
  }

  lemma LoadedTracks(accounts: Accounts, records: Staking.Records, pending: seq<PendingCoinbase>,
                     height: u64, assets: AssetBook)
    ensures Tracks(accounts, Loaded(accounts, records, pending, height, assets))
  {
    hide Staking.Refresh;
  }

  /** The balance the loaded account asks for, where `Credit` accepts the address. */
  ghost function Synced(l: Ledger, a: Address): nat {
    var current := l.assets.Balance(a, NATIVE_ASSET);
    if a in l.known && (current > l.confirmed[a] || !Text.Blank(a)) then l.confirmed[a] else current
  }

  ghost predicate SyncedFrom(before: Ledger, after: Ledger) {
    && after == before.(assets := after.assets)
    && after.assets.defs == before.assets.defs
    && NATIVE_ASSET in after.assets.held && NATIVE_ASSET in before.assets.held
    && (forall id :: id != NATIVE_ASSET ==>
          (id in after.assets.held <==> id in before.assets.held)
          && (id in after.assets.held ==> after.assets.held[id] == before.assets.held[id]))
    && (forall a :: after.assets.Balance(a, NATIVE_ASSET) == Synced(before, a))
  }

  method SyncOne(l: MatureLedger, a: Address)
    requires l.Valid()
    modifies l`model, l.assets
    ensures l.Valid() && l.assets == old(l.assets)
    ensures l.model == old(l.model).(assets := l.model.assets)
    ensures
      var before, after := old(l.model).assets, l.model.assets;
      var target := if before.Balance(a, NATIVE_ASSET) > old(l.model).confirmed[a] || !Text.Blank(a)
                    then old(l.model).confirmed[a] else before.Balance(a, NATIVE_ASSET);
      NATIVE_ASSET in before.held && after == before.SetBalance(a, NATIVE_ASSET, target)
  {
    NativeIsHeld(l);
    hide MatureLedger.Core;
    var acct := l.AccountIn(a);
    var current := l.NativeBalance(a);
    SetSameBalance(l.model.assets, a, NATIVE_ASSET);
    NativeMoves(l.model.assets, a);
    hide Text.Blank, AssetBook.Credit, AssetBook.Debit;
    if current < acct.confirmed {
      var credited := l.CreditNative(a, acct.confirmed - current);
    } else if current > acct.confirmed {
      var debited := l.DebitNative(a, current - acct.confirmed);
    }
  }

  lemma NativeMoves(b: AssetBook, a: Address)
    requires NATIVE_ASSET in b.held && NATIVE_ASSET in b.defs
    ensures forall n: u64 :: b.Balance(a, NATIVE_ASSET) + n <= MAX_U64 ==>
              b.Credit(a, NATIVE_ASSET, n)
                == if Text.Blank(a) then None else Some(b.SetBalance(a, NATIVE_ASSET, b.Balance(a, NATIVE_ASSET) + n))
    ensures forall n: u64 :: n <= b.Balance(a, NATIVE_ASSET) ==>
              b.Debit(a, NATIVE_ASSET, n) == Some(b.SetBalance(a, NATIVE_ASSET, b.Balance(a, NATIVE_ASSET) - n))
  {
    hide Text.Blank;
  }

  lemma NativeIsHeld(l: MatureLedger)
    requires l.Valid()
    ensures NATIVE_ASSET in l.model.assets.held && NATIVE_ASSET in l.model.assets.defs
  {
  }

  /** Makes every account's native asset balance equal its confirmed balance. */
  method SyncNativeAssetsFromAccounts(l: MatureLedger)
    requires l.Valid()
    modifies l`model, l.assets
    ensures l.Valid() && l.assets == old(l.assets)
    ensures SyncedFrom(old(l.model), l.model)
  {
    hide MatureLedger.Core, Text.Blank;
    NativeIsHeld(l);
    var todo := l.accounts.Keys;
    KnownAccounts(l);
    ghost var start := l.model;
    while todo != {}
      invariant l.Valid() && l.assets == old(l.assets) && todo <= l.accounts.Keys == start.known
      invariant l.model == start.(assets := l.model.assets)
      invariant l.model.assets.defs == start.assets.defs && NATIVE_ASSET in l.model.assets.held
      invariant forall id :: id != NATIVE_ASSET ==>
                  (id in l.model.assets.held <==> id in start.assets.held)
                  && (id in l.model.assets.held ==> l.model.assets.held[id] == start.assets.held[id])
      invariant forall a :: l.model.assets.Balance(a, NATIVE_ASSET)
                         == if a in todo then start.assets.Balance(a, NATIVE_ASSET) else Synced(start, a)
      decreases |todo|
    {
      var a :| a in todo;
      SyncOne(l, a);
      todo := todo - {a};
    }
  }

  lemma KnownAccounts(l: MatureLedger)
    requires l.Valid()
    ensures l.accounts.Keys == l.model.known
  {
  }

  ghost predicate LoadedFrom(s: Snapshot, m: Ledger) {
    && m.height == s.height && m.pending == s.coinbases
    && (forall e :: e in s.accounts ==> Describes(e, m))
    && (forall a :: a in m.known ==> exists e :: e in s.accounts && e.address == a)
    && (forall a :: a !in m.known ==> m.confirmed[a] == 0 && m.mature[a] == 0 && m.nonces[a] == 0)
    && (exists records :: StakesFrom(s.stakes, records) && m.stakes == Staking.Refresh(records, s.height))
    && m.assets.held.Keys == m.assets.defs.Keys
    && DefinesExactly(m.assets.defs, s.definitions)
    && HoldsExactly(m.assets, s.balances)
  }

  /** Whether the asset part of a snapshot is accepted. */
  ghost predicate Importable(s: Snapshot) {
    && (forall d :: d in s.definitions ==> Restorable(d))
    && (forall e :: e in s.balances ==> Restored(s.definitions, e))
  }

  lemma LoadedIsLoadedFrom(s: Snapshot, accounts: Accounts, records: Staking.Records, assets: AssetBook)
    requires AccountsFrom(s.accounts, accounts) && StakesFrom(s.stakes, records)
    requires assets.held.Keys == assets.defs.Keys
    requires DefinesExactly(assets.defs, s.definitions) && HoldsExactly(assets, s.balances)
    ensures LoadedFrom(s, Loaded(accounts, records, s.coinbases, s.height, assets))
  {
    hide Staking.Refresh, DefinesExactly, HoldsExactly;
    var m := Loaded(accounts, records, s.coinbases, s.height, assets);
    assert m.stakes == Staking.Refresh(records, s.height);
  }

  method SliceOf(credits: seq<PendingCoinbase>) returns (slice: array<PendingCoinbase>)
    ensures fresh(slice) && slice[..] == credits
  {
    slice := new PendingCoinbase[|credits|];
    for i := 0 to |credits|
      invariant slice[..i] == credits[..i]
    {
      slice[i] := credits[i];
    }
    assert credits[..|credits|] == credits;
  }

  method NewMatureFromStateWithAssets(env: Env, s: Snapshot) returns (ok: bool, l: MatureLedger)
    requires NoDuplicates(s)
    ensures fresh(l) && fresh(l.assets) && fresh(l.coinbases) && l.Valid() && l.env == env
    ensures ok <==> Importable(s)
    ensures ok ==> exists loaded :: LoadedFrom(s, loaded) && SyncedFrom(loaded, l.model)
  {
    hide DefinesExactly, HoldsExactly, Restorable, Restored, LoadedFrom, SyncedFrom, DistinctStakes, DistinctAccounts;
    l := new MatureLedger(env);
    var assets := new AssetState();
    ok := assets.Restore(s.definitions, s.balances);
    if ok {
      l := Assemble(env, s, assets);
    }
  }

  method Assemble(env: Env, s: Snapshot, assets: AssetState) returns (l: MatureLedger)
    requires NoDuplicates(s) && assets.Valid()
    requires DefinesExactly(assets.assets, s.definitions) && HoldsExactly(assets.Book(), s.balances)
    modifies assets
    ensures fresh(l) && l.assets == assets && fresh(l.coinbases) && l.Valid() && l.env == env
    ensures exists loaded :: LoadedFrom(s, loaded) && SyncedFrom(loaded, l.model)
  {
    hide AccountsFrom, StakesFrom, DefinesExactly, HoldsExactly, LoadedFrom, Loaded, Tracks, SyncedFrom, AssetState.Valid,
         Staking.Refresh, NoDuplicates, DistinctIds, DistinctEntries;
    var accounts, records := LoadLists(s);
    var slice := SliceOf(s.coinbases);
    BookKeys(assets);
    ghost var loaded := Loaded(accounts, records, s.coinbases, s.height, assets.Book());
    LoadedTracks(accounts, records, s.coinbases, s.height, assets.Book());
    LoadedIsLoadedFrom(s, accounts, records, assets.Book());
    LoadedFields(accounts, records, s.coinbases, s.height, assets.Book());
    l := new MatureLedger.With(env, accounts, slice, s.height, records, assets, loaded);
    SyncNativeAssetsFromAccounts(l);
  }

  method LoadLists(s: Snapshot) returns (accounts: Accounts, records: Staking.Records)
    requires NoDuplicates(s)
    ensures AccountsFrom(s.accounts, accounts) && StakesFrom(s.stakes, records)
  {
    hide AccountsFrom, StakesFrom;
    accounts := LoadAccounts(s.accounts);
    records := LoadStakes(s.stakes);
  }

  lemma LoadedFields(accounts: Accounts, records: Staking.Records, pending: seq<PendingCoinbase>, height: u64, assets: AssetBook)
    ensures
      var m := Loaded(accounts, records, pending, height, assets);
      && m.pending == pending && m.height == height && m.assets == assets
      && m.stakes == Staking.Refresh(records, height)
  {
    hide Staking.Refresh;
  }

  lemma BookKeys(assets: AssetState)
    requires assets.Valid()
    ensures assets.held.Keys == assets.assets.Keys
  {
  }

  // ---------------------------------------------------------------- the round trip

  /** A reachable ledger exports a snapshot without duplicates that is accepted on the way back. */
  lemma ExportIsImportable(env: Env, s: Snapshot, l: Ledger)
    requires SnapshotOf(s, l) && LedgerInvariant.Coherent(env, l) && AssetSupply.IssuedMatch(l.assets)
    requires BalancesFit(l.assets)
    ensures NoDuplicates(s) && Importable(s)
  {
    hide LedgerInvariant.Coherent, AssetSupply.IssuedMatch, Restorable, Restored;
    ExportHasNoDuplicates(env, s, l);
    forall d | d in s.definitions
      ensures Restorable(d)
    {
      var id :| id in l.assets.defs && l.assets.defs[id] == d;
      DefinitionRestorable(l.assets, id);
    }
    forall e | e in s.balances
      ensures Restored(s.definitions, e)
    {
      EntryRestorable(l.assets, s.definitions, s.balances, e);
    }
  }

  lemma ExportHasNoDuplicates(env: Env, s: Snapshot, l: Ledger)
    requires SnapshotOf(s, l) && LedgerInvariant.Coherent(env, l) && AssetSupply.IssuedMatch(l.assets)
    ensures NoDuplicates(s)
  {
    hide LedgerInvariant.ViewsAgree, LedgerInvariant.StakeCovered, LedgerInvariant.EntriesExist,
         AssetSupply.IssuedMatch, Staking.Refresh;
    assert DistinctStakes(s.stakes);
    assert DistinctAccounts(s.accounts);
    forall x, y | x in s.definitions && y in s.definitions && x.id == y.id
      ensures x == y
    {
      var i :| i in l.assets.defs && l.assets.defs[i] == x;
      var j :| j in l.assets.defs && l.assets.defs[j] == y;
      AssetSupply.DefinedUnderItsId(l.assets, i);
      AssetSupply.DefinedUnderItsId(l.assets, j);
    }
  }

  lemma DefinitionRestorable(b: AssetBook, id: AssetId)
    requires AssetSupply.IssuedMatch(b) && id in b.defs
    ensures Restorable(b.defs[id])
  {
    NativeIsNative();
    hide IsNative, ValidDefinition;
    if id != NATIVE_ASSET {
      AssetSupply.HasSupply(b, id);
      AssetSupply.DefinedUnderItsId(b, id);
      assert Normal(b.defs[id]) == b.defs[id];
    }
  }

  lemma EntryRestorable(b: AssetBook, definitions: set<Definition>, entries: set<BalanceEntry>, e: BalanceEntry)
    requires Exports(b, definitions, entries) && e in entries
    requires AssetSupply.IssuedMatch(b) && BalancesFit(b)
    ensures Restored(definitions, e)
  {
    assert IsEntry(b, e);
    AssetSupply.NobodyNameless(b, e.assetId, e.address);
    AssetSupply.DefinedUnderItsId(b, e.assetId);
    hide AssetSupply.IssuedMatch;
    assert b.defs[e.assetId] in definitions;
  }

  ghost predicate BalancesFit(b: AssetBook) {
    forall a, id :: b.Balance(a, id) <= MAX_U64
  }

  /** What every ledger at a block boundary satisfies; see `LedgerInvariant.ReachableCoherent` and
      `AssetSupply.ReachableMatches`. */
  ghost predicate Sound(env: Env, l: Ledger) {
    && env.AssetModel()
    && LedgerInvariant.Coherent(env, l)
    && AssetSupply.IssuedMatch(l.assets)
    && FeePool(l) == 0
    && Ascending(l.pending, l.height + 1)
  }

  lemma {:induction false} AscendingIsValid(credits: seq<PendingCoinbase>, limit: nat, height: u64)
    requires Ascending(credits, limit) && limit <= height + 1
    ensures CoinbasesValid(credits, height)
    ensures forall i :: 0 <= i < |credits| ==> credits[i].height < limit
  {
    if credits != [] {
      var n := |credits| - 1;
      AscendingIsValid(credits[..n], credits[n].height, height);
      assert forall i :: 0 <= i < n ==> credits[i] == credits[..n][i];
    }
  }

  lemma ExportedDefinitionsValid(s: Snapshot, b: AssetBook)
    requires Exports(b, s.definitions, s.balances) && AssetSupply.IssuedMatch(b)
    ensures forall d :: d in s.definitions ==> DefinitionValid(d)
    ensures exists d :: d in s.definitions && IsNative(d.id)
  {
    NativeIsNative();
    AssetSupply.NativeIsDefined(b);
    assert NATIVE_DEFINITION in s.definitions;
    hide IsNative, ValidDefinition;
    forall d | d in s.definitions
      ensures DefinitionValid(d)
    {
      var id :| id in b.defs && b.defs[id] == d;
      DefinitionRestorable(b, id);
      AssetSupply.AlreadyNormal(b, id);
    }
  }

  lemma ExportedEntriesValid(env: Env, s: Snapshot, l: Ledger)
    requires SnapshotOf(s, l) && Sound(env, l)
    ensures forall e :: e in s.balances ==> EntryValid(s.definitions, e)
  {
    hide LedgerInvariant.Coherent;
    forall e | e in s.balances
      ensures EntryValid(s.definitions, e)
    {
      assert IsEntry(l.assets, e);
      AssetSupply.NobodyNameless(l.assets, e.assetId, e.address);
      AssetSupply.DefinedUnderItsId(l.assets, e.assetId);
      hide AssetSupply.IssuedMatch;
      assert l.assets.defs[e.assetId] in s.definitions;
    }
  }

  lemma NativeEntriesOnly(b: AssetBook, e: BalanceEntry)
    requires AssetSupply.IssuedMatch(b) && IsEntry(b, e) && IsNative(e.assetId)
    ensures e.assetId == NATIVE_ASSET
  {
    hide IsNative;
    if e.assetId != NATIVE_ASSET {
      AssetSupply.DefinedUnderItsId(b, e.assetId);
      AssetSupply.HasSupply(b, e.assetId);
      DefinitionRestorable(b, e.assetId);
    }
  }

  lemma ExportedNativeListed(env: Env, s: Snapshot, l: Ledger, e: StateAccount)
    requires SnapshotOf(s, l) && Sound(env, l) && e in s.accounts
    ensures NativeListed(s.balances, e)
  {
    assert Describes(e, l);
    assert l.assets.Native()[e.address] == l.confirmed[FEE_COLLECTOR := 0][e.address];
    hide LedgerInvariant.Coherent, IsNative, AssetSupply.IssuedMatch;
    var entry := BalanceEntry(e.address, NATIVE_ASSET, e.confirmed);
    assert e.confirmed > 0 ==> IsEntry(l.assets, entry);
    forall x | x in s.balances && x.address == e.address && IsNative(x.assetId)
      ensures e.confirmed > 0
    {
      assert IsEntry(l.assets, x);
      NativeEntriesOnly(l.assets, x);
    }
  }

  lemma ValidIsRestorable(d: Definition)
    requires DefinitionValid(d)
    ensures Restorable(d)
  {
    NativeIsNative();
    hide Text.Lower;
  }

  /** A snapshot that passes validation can be loaded: no key is listed twice, and no definition or entry is
      refused. */
  lemma ValidIsImportable(s: Snapshot)
    requires SnapshotValid(s) && forall e :: e in s.balances ==> e.amount <= MAX_U64
    ensures NoDuplicates(s) && Importable(s)
  {
    hide DefinitionValid, Restorable, NoDuplicates;
    forall d | d in s.definitions
      ensures Restorable(d)
    {
      ValidIsRestorable(d);
    }
  }

  /** And once its balances are loaded, every account's native balance is the confirmed one it lists. */
  lemma ValidBooksAgree(s: Snapshot, book: AssetBook, e: StateAccount)
    requires SnapshotValid(s) && s.definitions != {} && HoldsExactly(book, s.balances) && e in s.accounts
    ensures book.Balance(e.address, NATIVE_ASSET) == e.confirmed
  {
    NativeIsNative();
    hide DefinitionValid, NoDuplicates, CoinbasesValid, EntryValid, IsNative;
    assert NativeListed(s.balances, e);
    var listed := BalanceEntry(e.address, NATIVE_ASSET, e.confirmed);
    var held := BalanceEntry(e.address, NATIVE_ASSET, book.Balance(e.address, NATIVE_ASSET));
    assert IsEntry(book, listed) <==> listed in s.balances;
    assert IsEntry(book, held) <==> held in s.balances;
  }

  /** A reachable ledger's export passes the snapshot's own validation, which cross-checks confirmed
      balances against native asset balances. */
  lemma ExportIsValid(env: Env, s: Snapshot, l: Ledger)
    requires SnapshotOf(s, l) && Sound(env, l)
    ensures SnapshotValid(s)
  {
    hide LedgerInvariant.Coherent, AssetSupply.IssuedMatch, DefinitionValid, EntryValid, NativeListed, NoDuplicates,
         CoinbasesValid, IsNative, Exports, Describes;
    ExportHasNoDuplicates(env, s, l);
    AscendingIsValid(l.pending, l.height + 1, l.height);
    ExportedDefinitionsValid(s, l.assets);
    ExportedEntriesValid(env, s, l);
    forall e | e in s.accounts
      ensures NativeListed(s.balances, e)
    {
      ExportedNativeListed(env, s, l, e);
    }
  }

  lemma SoundBalancesFit(env: Env, l: Ledger)
    requires Sound(env, l)
    ensures BalancesFit(l.assets)
  {
    hide IsNative, ValidDefinition;
    forall a, id
      ensures l.assets.Balance(a, id) <= MAX_U64
    {
      if id in l.assets.held {
        AssetSupply.OneHolderFits(l.assets.held[id], a);
        if id == NATIVE_ASSET {
          assert l.assets.Native()[a] == l.confirmed[FEE_COLLECTOR := 0][a];
        } else {
          AssetSupply.HasSupply(l.assets, id);
        }
      }
    }
  }

  lemma SameAccounts(env: Env, s: Snapshot, l: Ledger, m: Ledger)
    requires SnapshotOf(s, l) && LedgerInvariant.Coherent(env, l) && LoadedFrom(s, m)
    ensures m.known == l.known && m.confirmed == l.confirmed && m.mature == l.mature && m.nonces == l.nonces
  {
    hide LedgerInvariant.StakeCovered, Exports, DefinesExactly, HoldsExactly, StakesFrom, LedgerInvariant.Owed;
    LedgerInvariant.MatureIsConfirmed(env, l);
    forall a | a in l.known
      ensures a in m.known && m.confirmed[a] == l.confirmed[a] && m.mature[a] == l.mature[a] && m.nonces[a] == l.nonces[a]
    {
      var e := StateAccount(a, l.confirmed[a], l.mature[a], l.nonces[a]);
      assert Describes(e, l);
      assert e in s.accounts && Describes(e, m);
    }
    forall a | a in m.known
      ensures a in l.known
    {
      var e :| e in s.accounts && e.address == a;
      assert Describes(e, l);
    }
    assert m.known == l.known;
    forall a
      ensures m.confirmed[a] == l.confirmed[a] && m.mature[a] == l.mature[a] && m.nonces[a] == l.nonces[a]
    {
      assert a !in l.known ==> l.confirmed[a] == 0 && l.nonces[a] == 0;
    }
  }

  lemma SameStakes(s: Snapshot, l: Ledger, m: Ledger)
    requires SnapshotOf(s, l) && Staking.Current(l.stakes, l.height) && LoadedFrom(s, m)
    ensures m.stakes == l.stakes
  {
    hide Exports, DefinesExactly, HoldsExactly, Describes;
    var records :| StakesFrom(s.stakes, records) && m.stakes == Staking.Refresh(records, s.height);
    hide Staking.Refresh;
    forall id | id in records
      ensures id in l.stakes && records[id] == l.stakes[id]
    {
      var r :| r in s.stakes && r.id == id;
    }
    forall id | id in l.stakes
      ensures id in records
    {
      assert l.stakes[id] in s.stakes;
    }
    assert records == l.stakes;
  }

  lemma DefinitionComesBack(s: Snapshot, b: AssetBook, defs: map<AssetId, Definition>, id: AssetId)
    requires Exports(b, s.definitions, s.balances) && AssetSupply.IssuedMatch(b)
    requires DefinesExactly(defs, s.definitions) && id in b.defs
    ensures id in defs && defs[id] == b.defs[id]
  {
    hide IsNative, ValidDefinition, AssetSupply.IssuedMatch, IsEntry;
    AssetSupply.DefinedUnderItsId(b, id);
    AssetSupply.AlreadyNormal(b, id);
    hide Normal;
    assert b.defs[id] in s.definitions;
  }

  lemma NoOtherDefinition(s: Snapshot, b: AssetBook, defs: map<AssetId, Definition>, id: AssetId)
    requires Exports(b, s.definitions, s.balances) && AssetSupply.IssuedMatch(b)
    requires DefinesExactly(defs, s.definitions) && id in defs
    ensures id in b.defs
  {
    hide IsNative, ValidDefinition, AssetSupply.IssuedMatch, IsEntry, Normal;
    if d :| d in s.definitions && d.id == id {
      var i :| i in b.defs && b.defs[i] == d;
      AssetSupply.DefinedUnderItsId(b, i);
    } else {
      AssetSupply.NativeIsDefined(b);
    }
  }

  lemma SameDefinitions(s: Snapshot, l: Ledger, m: Ledger)
    requires Exports(l.assets, s.definitions, s.balances) && AssetSupply.IssuedMatch(l.assets)
    requires DefinesExactly(m.assets.defs, s.definitions)
    ensures m.assets.defs == l.assets.defs
  {
    hide AssetSupply.IssuedMatch, Exports, DefinesExactly;
    forall id | id in l.assets.defs
      ensures id in m.assets.defs && m.assets.defs[id] == l.assets.defs[id]
    {
      DefinitionComesBack(s, l.assets, m.assets.defs, id);
    }
    forall id | id in m.assets.defs
      ensures id in l.assets.defs
    {
      NoOtherDefinition(s, l.assets, m.assets.defs, id);
    }
  }

  lemma SameBalances(s: Snapshot, l: Ledger, m: Ledger)
    requires Exports(l.assets, s.definitions, s.balances) && HoldsExactly(m.assets, s.balances)
    ensures forall a, id :: m.assets.Balance(a, id) == l.assets.Balance(a, id)
  {
    forall a, id
      ensures m.assets.Balance(a, id) == l.assets.Balance(a, id)
    {
      var x := BalanceEntry(a, id, m.assets.Balance(a, id));
      var y := BalanceEntry(a, id, l.assets.Balance(a, id));
      assert IsEntry(m.assets, x) <==> IsEntry(l.assets, x);
      assert IsEntry(m.assets, y) <==> IsEntry(l.assets, y);
    }
  }

  lemma SameHolders(x: AssetBook, y: AssetBook)
    requires x.defs == y.defs && x.held.Keys == x.defs.Keys && y.held.Keys == y.defs.Keys
    requires forall a, id :: x.Balance(a, id) == y.Balance(a, id)
    ensures x == y
  {
    forall id | id in x.held
      ensures x.held[id] == y.held[id]
    {
      forall a
        ensures x.held[id][a] == y.held[id][a]
      {
        assert x.Balance(a, id) == y.Balance(a, id);
      }
    }
  }

  /** Loading a ledger's own export reproduces the ledger, and the final synchronisation of the
      native asset with the accounts then has nothing to do. */
  lemma RebuildIsIdentity(env: Env, s: Snapshot, l: Ledger, loaded: Ledger, after: Ledger)
    requires SnapshotOf(s, l) && Sound(env, l)
    requires LoadedFrom(s, loaded) && SyncedFrom(loaded, after)
    ensures loaded == l && after == l
  {
    hide Describes, StakesFrom, Staking.Refresh, LedgerInvariant.Owed, AssetSupply.SupplyMatches;
    SameAccounts(env, s, l, loaded);
    SameStakes(s, l, loaded);
    SameDefinitions(s, l, loaded);
    SameBalances(s, l, loaded);
    SameHolders(loaded.assets, l.assets);
    SyncIsIdle(env, l, after);
  }

  lemma SyncIsIdle(env: Env, l: Ledger, after: Ledger)
    requires Sound(env, l) && SyncedFrom(l, after)
    ensures after == l
  {
    hide Text.Blank, LedgerInvariant.StakeCovered, LedgerInvariant.EntriesExist, LedgerInvariant.Owed, AssetSupply.SupplyMatches;
    forall a
      ensures after.assets.Balance(a, NATIVE_ASSET) == l.assets.Balance(a, NATIVE_ASSET)
    {
      assert l.assets.Native()[a] == l.confirmed[FEE_COLLECTOR := 0][a];
    }
    assert after.assets.held[NATIVE_ASSET] == l.assets.held[NATIVE_ASSET] by {
      forall a
        ensures after.assets.held[NATIVE_ASSET][a] == l.assets.held[NATIVE_ASSET][a]
      {
        assert after.assets.Balance(a, NATIVE_ASSET) == l.assets.Balance(a, NATIVE_ASSET);
      }
    }
    assert after.assets.held == l.assets.held;
  }

  /** One block on top of a snapshot: the result, and the failure, are those of the ledger the
      snapshot was taken from. */
  method SnapshotAfterBlock(env: Env, s: Snapshot, b: Block, ghost l: Ledger) returns (ok: bool, t: Snapshot)
    requires SnapshotOf(s, l) && Sound(env, l)
    ensures ok <==> b.height == l.height + 1 && ApplyBlock(env, l, b).Some?
    ensures ok ==> SnapshotOf(t, ApplyBlock(env, l, b).value)
  {
    hide ApplyBlock, Sound, MatureLedger.Core, Describes, Exports, SnapshotValid;
    t := s;
    ExportIsValid(env, s, l);
    if !SnapshotValid(s) || b.height != s.height + 1 {
      return false, t;
    }
    var rebuilt := Rebuild(env, s, l);
    SoundHasAssetModel(env, l);
    hide SnapshotOf;
    ok := rebuilt.Apply(b);
    if ok {
      t := SnapshotForLedger(rebuilt);
    }
  }

  lemma SoundHasAssetModel(env: Env, l: Ledger)
    requires Sound(env, l)
    ensures env.AssetModel()
  {
  }

  /** A snapshot of a sound ledger is always accepted, and what it rebuilds is that ledger. */
  method Rebuild(env: Env, s: Snapshot, ghost l: Ledger) returns (rebuilt: MatureLedger)
    requires SnapshotOf(s, l) && Sound(env, l)
    ensures fresh(rebuilt) && fresh(rebuilt.assets) && fresh(rebuilt.coinbases) && rebuilt.Valid()
    ensures rebuilt.env == env && rebuilt.model == l
  {
    SoundBalancesFit(env, l);
    ExportIsImportable(env, s, l);
    hide Importable, NoDuplicates, LoadedFrom, SyncedFrom, Sound, SnapshotOf;
    var ok;
    ok, rebuilt := NewMatureFromStateWithAssets(env, s);
    ghost var loaded :| LoadedFrom(s, loaded) && SyncedFrom(loaded, rebuilt.model);
    RebuildIsIdentity(env, s, l, loaded, rebuilt.model);
  }
}
