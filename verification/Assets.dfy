/** Asset definitions and balances (asset/model.go, asset/state.go).

    `AssetBook` is the specification: a definition and the multiset of holders per asset, where
    the multiplicity of an address is its balance, so `|held[id]|` is the total in circulation.
    `AssetState` is the implementation: two nested maps updated in place, with undo writes. */
module Assets {
  import opened Arith
  import opened Types
  import Text

  datatype AssetKind = NoKind | Fungible | OtherKind
  datatype AssetStatus = NoStatus | Active | Frozen | OtherStatus

  datatype Definition = Definition(
    id: AssetId,
    name: string,
    symbol: string,
    decimals: nat,
    kind: AssetKind,
    issuer: Address,
    maxSupply: u64,
    totalSupply: u64,
    mintable: bool,
    burnable: bool,
    pausable: bool,
    permissioned: bool,
    status: AssetStatus)

  const NATIVE_DECIMALS: nat := 8
  const NATIVE_DEFINITION: Definition :=
    Definition(NATIVE_ASSET, NATIVE_ASSET, NATIVE_ASSET, NATIVE_DECIMALS, Fungible, "protocol",
               0, 0, false, false, false, false, Active)

  datatype BalanceEntry = BalanceEntry(address: Address, assetId: AssetId, amount: nat)

  predicate IsNative(id: AssetId) {
    Text.Lower(Text.Trim(id)) == Text.Lower(NATIVE_ASSET)
  }

  function DerivedId(txId: string): AssetId {
    "asset:" + Text.Lower(Text.Trim(txId))
  }

  predicate ValidDefinition(d: Definition) {
    && Text.Trim(d.id) != "" && Text.Lower(d.id) != Text.Lower(NATIVE_ASSET)
    && Text.Trim(d.name) != ""
    && 1 <= |Text.Trim(d.symbol)| <= 16
    && d.decimals <= 18
    && d.kind != OtherKind
    && Text.Trim(d.issuer) != ""
    && (d.maxSupply > 0 ==> d.totalSupply <= d.maxSupply)
    && d.status != OtherStatus
  }

  lemma NativeIsNative()
    ensures IsNative(NATIVE_ASSET)
  {
    assert Text.TrimLeft(NATIVE_ASSET) == NATIVE_ASSET;
    assert Text.TrimRight(NATIVE_ASSET) == NATIVE_ASSET;
  }

  /** Case and surrounding space do not hide the native asset, and other names are not taken for it. */
  lemma NativeNames()
    ensures IsNative("DIDR") && IsNative("didr") && IsNative(" dIDR ") && !IsNative("asset:1") && !IsNative("")
  {
    assert Text.TrimLeft("DIDR") == "DIDR" && Text.TrimRight("DIDR") == "DIDR";
    assert Text.TrimLeft("didr") == "didr" && Text.TrimRight("didr") == "didr";
    assert Text.TrimLeft(" dIDR ") == "dIDR " by {
      assert " dIDR "[1..] == "dIDR ";
    }
    assert Text.TrimRight("dIDR ") == "dIDR" by {
      assert "dIDR "[..4] == "dIDR";
      assert Text.TrimRight("dIDR") == "dIDR";
    }
    assert Text.TrimLeft("asset:1") == "asset:1" && Text.TrimRight("asset:1") == "asset:1";
    assert Text.Lower("asset:1")[0] == 'a' && Text.Lower(NATIVE_ASSET)[0] == 'd';
    assert |Text.Lower("")| == 0 && |Text.Lower(NATIVE_ASSET)| == 4;
  }

  /** No transaction can derive the id of the native asset. */
  lemma DerivedIdIsIssued(txId: string)
    ensures !IsNative(DerivedId(txId)) && DerivedId(txId) != NATIVE_ASSET
  {
    var id := DerivedId(txId);
    assert id[0] == 'a' && NATIVE_ASSET[0] == 'd';
    assert Text.TrimLeft(id) == id;
    var t := Text.Trim(id);
    assert |t| > 0 && t[0] == id[0];
    assert Text.Lower(t)[0] == 'a';
    assert Text.Lower(NATIVE_ASSET)[0] == 'd';
  }

  // ---------------------------------------------------------------- specification

  predicate MayMint(d: Definition, issuer: Address, n: u64) {
    && d.mintable && d.issuer == issuer && d.status != Frozen
    && d.totalSupply + n <= MAX_U64
    && (d.maxSupply > 0 ==> d.totalSupply + n <= d.maxSupply)
  }

  predicate MayBurn(d: Definition, n: u64) {
    d.burnable && d.status != Frozen && n <= d.totalSupply
  }

  datatype AssetBook = AssetBook(defs: map<AssetId, Definition>, held: map<AssetId, multiset<Address>>) {
    ghost predicate WellFormed() {
      && held.Keys == defs.Keys
      && NATIVE_ASSET in defs
      && forall id, a :: id in held ==> held[id][a] <= MAX_U64
    }

    function Balance(a: Address, id: AssetId): nat {
      if id in held then held[id][a] else 0
    }

    function Native(): multiset<Address> {
      if NATIVE_ASSET in held then held[NATIVE_ASSET] else multiset{}
    }

    function SetBalance(a: Address, id: AssetId, n: nat): AssetBook
      requires id in held
    {
      this.(held := held[id := held[id][a := n]])
    }

    function SetSupply(id: AssetId, n: u64): AssetBook
      requires id in defs
    {
      this.(defs := defs[id := defs[id].(totalSupply := n)])
    }

    function Credit(a: Address, id: AssetId, n: u64): Option<AssetBook> {
      if Text.Blank(a) || id !in defs then None else AddBalance(a, id, n)
    }

    function AddBalance(a: Address, id: AssetId, n: u64): Option<AssetBook> {
      if id !in held || Balance(a, id) + n > MAX_U64 then None
      else Some(SetBalance(a, id, Balance(a, id) + n))
    }

    function Debit(a: Address, id: AssetId, n: u64): Option<AssetBook> {
      if id !in held || Balance(a, id) < n then None
      else Some(SetBalance(a, id, Balance(a, id) - n))
    }

    function Create(def: Definition): Option<AssetBook> {
      var d := Normal(def);
      if def.id == "" || IsNative(def.id) || !ValidDefinition(d) || def.id in defs then None
      else Some(AssetBook(defs[def.id := d], held[def.id := multiset{}]))
    }

    function Mint(id: AssetId, issuer: Address, to: Address, n: u64): Option<AssetBook> {
      if Text.Blank(to) || n == 0 || id !in defs || !MayMint(defs[id], issuer, n) then None else
      var b :- AddBalance(to, id, n);
      Some(b.SetSupply(id, defs[id].totalSupply + n))
    }

    function Burn(id: AssetId, owner: Address, n: u64): Option<AssetBook> {
      if Text.Blank(owner) || n == 0 || id !in defs || !MayBurn(defs[id], n) then None else
      var b :- Debit(owner, id, n);
      Some(b.SetSupply(id, defs[id].totalSupply - n))
    }

    function Transfer(id: AssetId, src: Address, dst: Address, n: u64): Option<AssetBook> {
      if n == 0 || src == "" || dst == "" || src == dst || id !in defs || defs[id].status == Frozen then None else
      var b :- Debit(src, id, n);
      b.AddBalance(dst, id, n)
    }

    function ChargeFee(payer: Address, fee: u64): Option<AssetBook> {
      if fee == 0 then Some(this)
      else if payer == "" then None else
      var b :- Debit(payer, NATIVE_ASSET, fee);
      b.AddBalance(FEE_COLLECTOR, NATIVE_ASSET, fee)
    }

    function ExecuteTokenTransfer(id: AssetId, src: Address, dst: Address, payer: Address, n: u64, fee: u64): Option<AssetBook> {
      var b :- Transfer(id, src, dst, n);
      b.ChargeFee(payer, fee)
    }
  }

  const EMPTY_BOOK: AssetBook := AssetBook(map[NATIVE_ASSET := NATIVE_DEFINITION], map[NATIVE_ASSET := multiset{}])

  // ---------------------------------------------------------------- export and restore

  ghost predicate IsEntry(b: AssetBook, e: BalanceEntry) {
    e.amount > 0 && e.amount == b.Balance(e.address, e.assetId)
  }

  /** The exported collections: every definition under its id, every non-zero balance. */
  ghost predicate Exports(b: AssetBook, definitions: set<Definition>, entries: set<BalanceEntry>) {
    && (forall d :: d in definitions <==> exists id :: id in b.defs && b.defs[id] == d)
    && (forall e :: e in entries <==> IsEntry(b, e))
  }

  function Normal(d: Definition): Definition {
    d.(kind := if d.kind == NoKind then Fungible else d.kind,
       status := if d.status == NoStatus then Active else d.status)
  }

  /** A definition `Restore` accepts into a new state. */
  predicate Restorable(d: Definition) {
    if IsNative(d.id) then d.id == NATIVE_ASSET && d.symbol == NATIVE_ASSET && d.decimals == NATIVE_DECIMALS
    else d.id != "" && ValidDefinition(Normal(d))
  }

  predicate EntryAcceptable(defs: map<AssetId, Definition>, e: BalanceEntry) {
    e.address != "" && e.assetId != "" && 0 < e.amount <= MAX_U64 && e.assetId in defs
  }

  predicate DistinctIds(definitions: set<Definition>) {
    forall x, y :: x in definitions && y in definitions && x.id == y.id ==> x == y
  }

  predicate DistinctEntries(entries: set<BalanceEntry>) {
    forall x, y :: x in entries && y in entries && x.address == y.address && x.assetId == y.assetId ==> x == y
  }

  /** The definitions a new state holds after restoring `definitions`. */
  ghost predicate DefinesExactly(defs: map<AssetId, Definition>, definitions: set<Definition>) {
    && NATIVE_ASSET in defs
    && (forall d :: d in definitions ==>
          d.id in defs && defs[d.id] == if d.id == NATIVE_ASSET then d else Normal(d))
    && (forall id :: id in defs ==>
          (exists d :: d in definitions && d.id == id) || (id == NATIVE_ASSET && defs[id] == NATIVE_DEFINITION))
  }

  ghost predicate HoldsExactly(b: AssetBook, entries: set<BalanceEntry>) {
    forall e :: IsEntry(b, e) <==> e in entries
  }

  predicate Restored(definitions: set<Definition>, e: BalanceEntry) {
    && e.address != "" && e.assetId != "" && 0 < e.amount <= MAX_U64
    && (e.assetId == NATIVE_ASSET || exists d :: d in definitions && d.id == e.assetId)
  }

  lemma RestoredIsDefined(defs: map<AssetId, Definition>, definitions: set<Definition>)
    requires DefinesExactly(defs, definitions)
    ensures forall e :: Restored(definitions, e) <==> EntryAcceptable(defs, e)
  {
    hide Normal;
  }

  lemma DefinesAnother(defs: map<AssetId, Definition>, definitions: set<Definition>, todo: set<Definition>, d: Definition)
    requires DefinesExactly(defs, definitions - todo) && DistinctIds(definitions)
    requires todo <= definitions && d in todo
    ensures IsNative(d.id) || d.id !in defs
    ensures
      var stored := if d.id == NATIVE_ASSET then d else Normal(d);
      DefinesExactly(defs[d.id := stored], definitions - (todo - {d}))
  {
    NativeIsNative();
    hide Normal, IsNative;
    var stored := if d.id == NATIVE_ASSET then d else Normal(d);
    var after := defs[d.id := stored];
    forall x | x in definitions - (todo - {d})
      ensures x.id in after && after[x.id] == if x.id == NATIVE_ASSET then x else Normal(x)
    {
      assert x == d || x in definitions - todo;
    }
    forall id | id in after
      ensures (exists x :: x in definitions - (todo - {d}) && x.id == id) || (id == NATIVE_ASSET && after[id] == NATIVE_DEFINITION)
    {
      if id == d.id {
        assert d in definitions - (todo - {d});
      } else if exists x :: x in definitions - todo && x.id == id {
        var x :| x in definitions - todo && x.id == id;
        assert x in definitions - (todo - {d});
      }
    }
  }

  lemma EntryIsFree(b: AssetBook, entries: set<BalanceEntry>, todo: set<BalanceEntry>, e: BalanceEntry)
    requires HoldsExactly(b, entries - todo) && DistinctEntries(entries) && todo <= entries && e in todo
    ensures b.Balance(e.address, e.assetId) == 0
  {
    var before := BalanceEntry(e.address, e.assetId, b.Balance(e.address, e.assetId));
    assert IsEntry(b, before) ==> before in entries - todo;
  }

  lemma HoldsAnother(b: AssetBook, entries: set<BalanceEntry>, todo: set<BalanceEntry>, e: BalanceEntry)
    requires HoldsExactly(b, entries - todo) && DistinctEntries(entries)
    requires todo <= entries && e in todo && e.amount > 0 && e.assetId in b.held
    ensures HoldsExactly(b.SetBalance(e.address, e.assetId, e.amount), entries - (todo - {e}))
  {
    EntryIsFree(b, entries, todo, e);
    var after := b.SetBalance(e.address, e.assetId, e.amount);
    forall x
      ensures IsEntry(after, x) <==> x in entries - (todo - {e})
    {
      assert IsEntry(b, x) <==> x in entries - todo;
      if x.address == e.address && x.assetId == e.assetId {
        assert x in entries ==> x == e;
        assert IsEntry(after, x) <==> x == e;
      } else {
        assert after.Balance(x.address, x.assetId) == b.Balance(x.address, x.assetId);
      }
    }
  }

  // ---------------------------------------------------------------- nested balance maps

  type Balances = map<Address, map<AssetId, u64>>

  function Stored(balances: Balances, a: Address, id: AssetId): u64 {
    if a in balances && id in balances[a] then balances[a][id] else 0
  }

  /** The maps store exactly the book's balances; explicit zeros and empty inner maps leave no trace. */
  ghost predicate Represents(balances: Balances, book: AssetBook) {
    && book.held.Keys == book.defs.Keys
    && NATIVE_ASSET in book.defs
    && forall a, id :: Stored(balances, a, id) == book.Balance(a, id)
  }

  lemma RepresentsKeys(balances: Balances, book: AssetBook)
    requires Represents(balances, book)
    ensures book.held.Keys == book.defs.Keys
  {
  }

  lemma WriteRepresents(balances: Balances, book: AssetBook, a: Address, id: AssetId, n: u64)
    requires Represents(balances, book) && id in book.held
    ensures
      var inner := if a in balances then balances[a] else map[];
      Represents(balances[a := inner[id := n]], book.SetBalance(a, id, n))
  {
    var inner := if a in balances then balances[a] else map[];
    var after := balances[a := inner[id := n]];
    forall x, k
      ensures Stored(after, x, k) == book.SetBalance(a, id, n).Balance(x, k)
    {
      assert Stored(balances, x, k) == book.Balance(x, k);
    }
  }

  lemma CreateRepresents(balances: Balances, book: AssetBook, d: Definition)
    requires Represents(balances, book) && d.id !in book.defs
    ensures Represents(balances, AssetBook(book.defs[d.id := d], book.held[d.id := multiset{}]))
  {
    var after := AssetBook(book.defs[d.id := d], book.held[d.id := multiset{}]);
    forall x, k
      ensures Stored(balances, x, k) == after.Balance(x, k)
    {
      assert Stored(balances, x, k) == book.Balance(x, k);
    }
  }

  lemma SupplyRepresents(balances: Balances, book: AssetBook, id: AssetId, n: u64)
    requires Represents(balances, book) && id in book.defs
    ensures Represents(balances, book.SetSupply(id, n))
  {
    forall x, k
      ensures Stored(balances, x, k) == book.SetSupply(id, n).Balance(x, k)
    {
      assert Stored(balances, x, k) == book.Balance(x, k);
    }
  }

  method EntriesOf(a: Address, row: map<AssetId, u64>) returns (out: set<BalanceEntry>)
    ensures forall e :: e in out <==>
        e.address == a && e.amount > 0 && e.assetId in row && row[e.assetId] == e.amount
  {
    out := {};
    var todo := row.Keys;
    while todo != {}
      invariant todo <= row.Keys
      invariant forall e :: e in out <==>
          e.address == a && e.amount > 0 && e.assetId in row && e.assetId !in todo && row[e.assetId] == e.amount
      decreases |todo|
    {
      var id :| id in todo;
      if row[id] != 0 {
        out := out + {BalanceEntry(a, id, row[id])};
      }
      todo := todo - {id};
    }
  }

  // ---------------------------------------------------------------- implementation

  class AssetState {
    var assets: map<AssetId, Definition>
    var balances: Balances
    ghost var held: map<AssetId, multiset<Address>>

    ghost predicate Valid()
      reads this
    {
      Represents(balances, Book())
    }

    ghost function Book(): AssetBook
      reads this
    {
      AssetBook(assets, held)
    }

    constructor ()
      ensures Valid() && Book() == EMPTY_BOOK
    {
      assets := map[NATIVE_ASSET := NATIVE_DEFINITION];
      balances := map[];
      held := map[NATIVE_ASSET := multiset{}];
    }

    function Balance(a: Address, id: AssetId): (n: u64)
      requires Valid()
      reads this
      ensures n == Book().Balance(a, id)
    {
      Stored(balances, a, id)
    }

    function Definition(id: AssetId): Option<Definition>
      reads this
    {
      if id in assets then Some(assets[id]) else None
    }

    method Write(a: Address, id: AssetId, n: u64)
      requires Valid() && id in assets
      modifies `balances, `held
      ensures Valid() && Book() == old(Book()).SetBalance(a, id, n)
    {
      WriteRepresents(balances, Book(), a, id, n);
      var inner := if a in balances then balances[a] else map[];
      balances := balances[a := inner[id := n]];
      held := held[id := held[id][a := n]];
    }

    method AddBalance(a: Address, id: AssetId, n: u64) returns (ok: bool)
      requires Valid() && id in assets
      modifies `balances, `held
      ensures Valid()
      ensures ok == old(Book()).AddBalance(a, id, n).Some?
      ensures Book() == if ok then old(Book()).AddBalance(a, id, n).value else old(Book())
    {
      if n == 0 {
        SetSameBalance(Book(), a, id);
        return true;
      }
      var next := Add(Balance(a, id), n);
      if next.None? {
        return false;
      }
      Write(a, id, next.value);
      return true;
    }

    method SubtractBalance(a: Address, id: AssetId, n: u64) returns (ok: bool)
      requires Valid() && id in assets
      modifies `balances, `held
      ensures Valid()
      ensures ok == old(Book()).Debit(a, id, n).Some?
      ensures Book() == if ok then old(Book()).Debit(a, id, n).value else old(Book())
    {
      if n == 0 {
        SetSameBalance(Book(), a, id);
        return true;
      }
      if a !in balances {
        return false;
      }
      var next := Sub(Balance(a, id), n);
      if next.None? {
        return false;
      }
      Write(a, id, next.value);
      return true;
    }

    method Credit(a: Address, id: AssetId, n: u64) returns (ok: bool)
      requires Valid()
      modifies this
      ensures Valid() && assets == old(assets)
      ensures ok == old(Book()).Credit(a, id, n).Some?
      ensures Book() == if ok then old(Book()).Credit(a, id, n).value else old(Book())
    {
      if Text.Blank(a) || id !in assets {
        return false;
      }
      ok := AddBalance(a, id, n);
    }

    method Debit(a: Address, id: AssetId, n: u64) returns (ok: bool)
      requires Valid()
      modifies this
      ensures Valid() && assets == old(assets)
      ensures ok == old(Book()).Debit(a, id, n).Some?
      ensures Book() == if ok then old(Book()).Debit(a, id, n).value else old(Book())
    {
      if id !in assets {
        return false;
      }
      ok := SubtractBalance(a, id, n);
    }

    /** A deep copy: later writes to either state are invisible to the other. */
    method Clone() returns (c: AssetState)
      requires Valid()
      ensures fresh(c) && c.Valid() && c.Book() == Book()
    {
      c := new AssetState();
      c.assets := assets;
      c.balances := balances;
      c.held := held;
    }

    method Issue(d: Definition)
      requires Valid() && d.id !in assets
      modifies `assets, `held
      ensures Valid() && Book() == AssetBook(old(assets)[d.id := d], old(held)[d.id := multiset{}])
    {
      CreateRepresents(balances, Book(), d);
      assets := assets[d.id := d];
      held := held[d.id := multiset{}];
    }

    method Definitions() returns (out: set<Definition>)
      requires Valid()
      ensures forall d :: d in out <==> exists id :: id in assets && assets[id] == d
    {
      out := {};
      var todo := assets.Keys;
      while todo != {}
        invariant todo <= assets.Keys
        invariant forall d :: d in out <==> exists id :: id in assets && id !in todo && assets[id] == d
        decreases |todo|
      {
        var id :| id in todo;
        out := out + {assets[id]};
        todo := todo - {id};
      }
    }

    /** Zero balances are not exported. */
    method BalanceEntries() returns (out: set<BalanceEntry>)
      requires Valid()
      ensures forall e :: e in out <==> IsEntry(Book(), e)
    {
      out := {};
      var todo := balances.Keys;
      while todo != {}
        invariant todo <= balances.Keys
        invariant forall e :: e in out <==>
            e.amount > 0 && e.address !in todo && e.amount == Stored(balances, e.address, e.assetId)
        decreases |todo|
      {
        var a :| a in todo;
        var row := EntriesOf(a, balances[a]);
        out := out + row;
        todo := todo - {a};
      }
      assert forall e: BalanceEntry :: Stored(balances, e.address, e.assetId) == Book().Balance(e.address, e.assetId);
    }

    method ReplaceNative(d: Definition)
      requires Valid()
      modifies `assets
      ensures Valid() && Book() == AssetBook(old(assets)[NATIVE_ASSET := d], old(held))
    {
      assets := assets[NATIVE_ASSET := d];
    }

    method RestoreDefinition(d: Definition) returns (ok: bool)
      requires Valid() && (IsNative(d.id) || d.id !in assets)
      modifies this
      ensures Valid() && ok == Restorable(d)
      ensures ok ==> assets == old(assets)[d.id := if d.id == NATIVE_ASSET then d else Normal(d)]
      ensures ok ==> held == if d.id == NATIVE_ASSET then old(held) else old(held)[d.id := multiset{}]
    {
      hide Represents, ValidDefinition;
      NativeIsNative();
      hide IsNative;
      if IsNative(d.id) {
        if d.id != NATIVE_ASSET || d.symbol != NATIVE_ASSET || d.decimals != NATIVE_DECIMALS {
          return false;
        }
        ReplaceNative(d);
        return true;
      }
      ok := Create(d);
    }

    method RestoreDefinitions(definitions: set<Definition>) returns (ok: bool)
      requires Valid() && Book() == EMPTY_BOOK && DistinctIds(definitions)
      modifies this
      ensures Valid() && (ok <==> forall d :: d in definitions ==> Restorable(d))
      ensures ok ==> DefinesExactly(assets, definitions) && forall id :: id in held ==> held[id] == multiset{}
    {
      hide Represents, Restorable;
      var todo := definitions;
      while todo != {}
        invariant Valid() && todo <= definitions
        invariant forall d :: d in definitions - todo ==> Restorable(d)
        invariant DefinesExactly(assets, definitions - todo)
        invariant forall id :: id in held ==> held[id] == multiset{}
        decreases |todo|
      {
        var d :| d in todo;
        DefinesAnother(assets, definitions, todo, d);
        ok := RestoreDefinition(d);
        if !ok {
          return;
        }
        todo := todo - {d};
      }
      assert definitions - todo == definitions;
      ok := true;
    }

    method RestoreEntry(e: BalanceEntry) returns (ok: bool)
      requires Valid()
      modifies `balances, `held
      ensures Valid()
      ensures old(Book()).Balance(e.address, e.assetId) == 0 ==>
                && (ok <==> EntryAcceptable(assets, e))
                && (ok ==> e.assetId in old(held) && Book() == old(Book()).SetBalance(e.address, e.assetId, e.amount))
    {
      RepresentsKeys(balances, Book());
      hide Represents;
      if e.address == "" || e.assetId == "" || e.amount == 0 || e.amount > MAX_U64 || e.assetId !in assets {
        return false;
      }
      ok := AddBalance(e.address, e.assetId, e.amount);
    }

    method RestoreEntries(entries: set<BalanceEntry>) returns (ok: bool)
      requires Valid() && DistinctEntries(entries) && forall id :: id in held ==> held[id] == multiset{}
      modifies `balances, `held
      ensures Valid() && (ok <==> forall e :: e in entries ==> EntryAcceptable(assets, e))
      ensures ok ==> HoldsExactly(Book(), entries)
    {
      var todo := entries;
      assert HoldsExactly(Book(), entries - todo);
      hide Represents, HoldsExactly, DistinctEntries, EntryAcceptable;
      while todo != {}
        invariant Valid() && todo <= entries
        invariant forall e :: e in entries - todo ==> EntryAcceptable(assets, e)
        invariant HoldsExactly(Book(), entries - todo)
        decreases |todo|
      {
        var e :| e in todo;
        EntryIsFree(Book(), entries, todo, e);
        ghost var before := Book();
        ok := RestoreEntry(e);
        if !ok {
          return;
        }
        HoldsAnother(before, entries, todo, e);
        todo := todo - {e};
      }
      assert entries - todo == entries;
      ok := true;
    }

    /** Restores exported collections into a new state. */
    method Restore(definitions: set<Definition>, entries: set<BalanceEntry>) returns (ok: bool)
      requires Valid() && Book() == EMPTY_BOOK && DistinctIds(definitions) && DistinctEntries(entries)
      modifies this
      ensures Valid()
      ensures ok ==> DefinesExactly(assets, definitions) && HoldsExactly(Book(), entries)
      ensures ok <==> && (forall d :: d in definitions ==> Restorable(d))
                      && (forall e :: e in entries ==> Restored(definitions, e))
    {
      hide Represents, Restorable, HoldsExactly;
      ok := RestoreDefinitions(definitions);
      if ok {
        RestoredIsDefined(assets, definitions);
        hide DefinesExactly;
        ok := RestoreEntries(entries);
      }
    }

    method SetSupply(id: AssetId, supply: u64)
      requires Valid() && id in assets
      modifies `assets
      ensures Valid() && Book() == old(Book()).SetSupply(id, supply)
    {
      SupplyRepresents(balances, Book(), id, supply);
      assets := assets[id := assets[id].(totalSupply := supply)];
    }

    method Create(def: Definition) returns (ok: bool)
      requires Valid()
      modifies this
      ensures Valid() && balances == old(balances)
      ensures ok == old(Book()).Create(def).Some?
      ensures Book() == if ok then old(Book()).Create(def).value else old(Book())
    {
      hide Represents;
      if def.id == "" || IsNative(def.id) {
        return false;
      }
      var d := def;
      if d.kind == NoKind {
        d := d.(kind := Fungible);
      }
      if d.status == NoStatus {
        d := d.(status := Active);
      }
      if !ValidDefinition(d) || d.id in assets {
        return false;
      }
      Issue(d);
      return true;
    }

    method Mint(id: AssetId, issuer: Address, to: Address, n: u64) returns (ok: bool)
      requires Valid()
      modifies this
      ensures Valid()
      ensures ok == old(Book()).Mint(id, issuer, to, n).Some?
      ensures Book() == if ok then old(Book()).Mint(id, issuer, to, n).value else old(Book())
    {
      hide Represents, AssetBook.SetSupply;
      if Text.Blank(to) || n == 0 || id !in assets {
        return false;
      }
      var def := assets[id];
      if !def.mintable || def.issuer != issuer || def.status == Frozen {
        return false;
      }
      var newSupply := Add(def.totalSupply, n);
      if newSupply.None? || (def.maxSupply > 0 && newSupply.value > def.maxSupply) {
        return false;
      }
      assert MayMint(def, issuer, n);
      ok := AddBalance(to, id, n);
      if !ok {
        return;
      }
      SetSupply(id, newSupply.value);
    }

    method Burn(id: AssetId, owner: Address, n: u64) returns (ok: bool)
      requires Valid()
      modifies this
      ensures Valid()
      ensures ok == old(Book()).Burn(id, owner, n).Some?
      ensures Book() == if ok then old(Book()).Burn(id, owner, n).value else old(Book())
    {
      hide Represents;
      if Text.Blank(owner) || n == 0 || id !in assets {
        return false;
      }
      var def := assets[id];
      if !def.burnable || def.status == Frozen {
        return false;
      }
      var newSupply := Sub(def.totalSupply, n);
      if newSupply.None? {
        return false;
      }
      assert MayBurn(def, n);
      ok := SubtractBalance(owner, id, n);
      if !ok {
        return;
      }
      SetSupply(id, newSupply.value);
    }

    /** A failed recipient update gives the sender back what was taken. */
    method Transfer(id: AssetId, src: Address, dst: Address, n: u64) returns (ok: bool)
      requires Valid()
      modifies this
      ensures Valid() && assets == old(assets)
      ensures ok == old(Book()).Transfer(id, src, dst, n).Some?
      ensures Book() == if ok then old(Book()).Transfer(id, src, dst, n).value else old(Book())
    {
      if n == 0 || src == "" || dst == "" || src == dst || id !in assets || assets[id].status == Frozen {
        return false;
      }
      ok := SubtractBalance(src, id, n);
      if !ok {
        return;
      }
      ok := AddBalance(dst, id, n);
      if !ok {
        DebitIsUndone(old(Book()), src, id, n);
        var restored := AddBalance(src, id, n);
      }
    }

    method ChargeFee(payer: Address, fee: u64) returns (ok: bool)
      requires Valid()
      modifies this
      ensures Valid() && assets == old(assets)
      ensures ok == old(Book()).ChargeFee(payer, fee).Some?
      ensures Book() == if ok then old(Book()).ChargeFee(payer, fee).value else old(Book())
    {
      if fee == 0 {
        return true;
      }
      if payer == "" {
        return false;
      }
      ok := SubtractBalance(payer, NATIVE_ASSET, fee);
      if !ok {
        return;
      }
      ok := AddBalance(FEE_COLLECTOR, NATIVE_ASSET, fee);
      if !ok {
        DebitIsUndone(old(Book()), payer, NATIVE_ASSET, fee);
        var restored := AddBalance(payer, NATIVE_ASSET, fee);
      }
    }

    /** When the fee cannot be charged the tokens travel back by a second transfer. */
    method ExecuteTokenTransfer(id: AssetId, src: Address, dst: Address, payer: Address, n: u64, fee: u64) returns (ok: bool)
      requires Valid()
      modifies this
      ensures Valid() && assets == old(assets)
      ensures ok == old(Book()).ExecuteTokenTransfer(id, src, dst, payer, n, fee).Some?
      ensures Book() == if ok then old(Book()).ExecuteTokenTransfer(id, src, dst, payer, n, fee).value else old(Book())
    {
      ok := Transfer(id, src, dst, n);
      if !ok {
        return;
      }
      ok := ChargeFee(payer, fee);
      if !ok {
        ReverseTransfer(old(Book()), id, src, dst, n);
        var restored := Transfer(id, dst, src, n);
      }
    }
  }

  lemma SetSameBalance(b: AssetBook, a: Address, id: AssetId)
    requires id in b.held
    ensures b.SetBalance(a, id, b.Balance(a, id)) == b
  {
    assert b.held[id][a := b.held[id][a]] == b.held[id];
    assert b.held[id := b.held[id]] == b.held;
  }

  lemma DebitIsUndone(b: AssetBook, a: Address, id: AssetId, n: u64)
    requires b.Debit(a, id, n).Some? && b.Balance(a, id) <= MAX_U64
    ensures b.Debit(a, id, n).value.AddBalance(a, id, n) == Some(b)
  {
    var c := b.Debit(a, id, n).value.SetBalance(a, id, b.Balance(a, id));
    assert c.held[id] == b.held[id];
    assert c.held == b.held;
  }

  /** A completed transfer can always be taken back, and taking it back restores every balance. */
  lemma ReverseTransfer(b: AssetBook, id: AssetId, src: Address, dst: Address, n: u64)
    requires b.Transfer(id, src, dst, n).Some?
    requires id in b.held && b.held[id][src] <= MAX_U64
    ensures b.Transfer(id, src, dst, n).value.Transfer(id, dst, src, n) == Some(b)
  {
    hide Text.Blank;
    var c := b.Transfer(id, src, dst, n).value;
    var d := c.Debit(dst, id, n).value.AddBalance(src, id, n).value;
    assert d.held[id] == b.held[id];
    assert d.held == b.held;
  }
}
