/** The explorer's index (rpc/explorer_indexer.go): four buckets and a cursor that follow the canonical
    chain block by block, through extensions and reorganisations. A database transaction is one atomic
    step; bucket keys are tuples of their parts. */
module Explorer {
  import opened Arith
  import opened Types
  import opened Chains
  import Assets
  import Merkle
  import Preimages
  import Text
  import Validation

  // ---------------------------------------------------------------- what is indexed of a block

  datatype TxView = TxView(
    id: string, sender: Address, recipient: Address, feePayer: Address, assetId: AssetId, amount: u64, fee: u64)

  datatype Content = Content(height: u64, hash: Hash, previousHash: Hash, timestamp: int, txs: seq<TxView>)

  function ViewOf(tx: Transaction): TxView {
    TxView(tx.id, tx.sender, tx.recipient, tx.EffectiveFeePayer(), tx.EffectiveAssetId(), tx.amount, tx.fee)
  }

  function ContentOf(b: Block): Content {
    Content(b.height, b.hash, b.previousHash, b.timestamp, seq(|b.txs|, i requires 0 <= i < |b.txs| => ViewOf(b.txs[i])))
  }

  datatype IndexedBlock = IndexedBlock(hash: Hash, previousHash: Hash, timestamp: int, txCount: nat)
  datatype IndexedTx = IndexedTx(view: TxView, blockHeight: u64, blockHash: Hash, index: nat)
  datatype Role = From | To | FeePayer
  datatype HistoryKey = HistoryKey(address: Address, height: u64, txId: string, role: Role)
  datatype History = History(txId: string, blockHeight: u64, blockHash: Hash, role: Role,
                             counterparty: Address, assetId: AssetId, amount: u64, fee: u64)
  datatype AssetKey = AssetKey(assetId: AssetId, height: u64, txId: string)
  datatype AssetEvent = AssetEvent(blockHash: Hash, sender: Address, recipient: Address, amount: u64, fee: u64)

  datatype Index = Index(
    blocks: map<u64, IndexedBlock>,
    txs: map<string, IndexedTx>,
    addresses: map<HistoryKey, History>,
    assets: map<AssetKey, AssetEvent>)

  const EMPTY_INDEX: Index := Index(map[], map[], map[], map[])

  // ---------------------------------------------------------------- indexing

  function Event(c: Content, tx: TxView, role: Role): History {
    History(tx.id, c.height, c.hash, role, if role == To then tx.sender else tx.recipient, tx.assetId, tx.amount, tx.fee)
  }

  /** Whose history an event belongs to. */
  function Party(tx: TxView, role: Role): Address {
    match role
    case From => tx.sender
    case To => tx.recipient
    case FeePayer => tx.feePayer
  }

  /** Which events a transaction has: one per party, whatever roles that party plays. */
  predicate HasEvent(tx: TxView, role: Role) {
    match role
    case From => tx.sender != ""
    case To => tx.recipient != "" && tx.recipient != tx.sender
    case FeePayer => tx.feePayer != "" && tx.feePayer != tx.sender && tx.feePayer != tx.recipient
  }

  function PutEvent(ix: Index, c: Content, tx: TxView, role: Role): Index {
    if !HasEvent(tx, role) then ix
    else ix.(addresses := ix.addresses[HistoryKey(Party(tx, role), c.height, tx.id, role) := Event(c, tx, role)])
  }

  function IndexTx(ix: Index, c: Content, i: nat): Index
    requires i < |c.txs|
  {
    var tx := c.txs[i];
    var listed := ix.(txs := ix.txs[tx.id := IndexedTx(tx, c.height, c.hash, i)]);
    var told := PutEvent(PutEvent(PutEvent(listed, c, tx, From), c, tx, To), c, tx, FeePayer);
    if tx.assetId == "" || Assets.IsNative(tx.assetId) then told
    else told.(assets := told.assets[AssetKey(tx.assetId, c.height, tx.id)
                                       := AssetEvent(c.hash, tx.sender, tx.recipient, tx.amount, tx.fee)])
  }

  function IndexTxs(ix: Index, c: Content, n: nat): Index
    requires n <= |c.txs|
  {
    if n == 0 then ix.(blocks := ix.blocks[c.height := IndexedBlock(c.hash, c.previousHash, c.timestamp, |c.txs|)])
    else IndexTx(IndexTxs(ix, c, n - 1), c, n - 1)
  }

  /** The index of a chain built from nothing; the genesis is never indexed. */
  function IndexOf(contents: seq<Content>): Index {
    if |contents| <= 1 then EMPTY_INDEX
    else
      var n := |contents| - 1;
      IndexTxs(IndexOf(contents[..n]), contents[n], |contents[n].txs|)
  }

  function Contents(blocks: seq<Block>): seq<Content> {
    seq(|blocks|, i requires 0 <= i < |blocks| => ContentOf(blocks[i]))
  }

  method IndexBlock(ix: Index, b: Block) returns (out: Index)
    ensures out == IndexTxs(ix, ContentOf(b), |b.txs|)
  {
    hide IndexTx;
    ghost var c := ContentOf(b);
    out := ix.(blocks := ix.blocks[b.height := IndexedBlock(b.hash, b.previousHash, b.timestamp, |b.txs|)]);
    for i := 0 to |b.txs|
      invariant out == IndexTxs(ix, c, i)
    {
      out := IndexOne(out, b, i);
    }
  }

  method IndexOne(ix: Index, b: Block, i: nat) returns (out: Index)
    requires i < |b.txs|
    ensures out == IndexTx(ix, ContentOf(b), i)
  {
    hide Assets.IsNative;
    var tx := b.txs[i];
    var payer, assetId := tx.EffectiveFeePayer(), tx.EffectiveAssetId();
    out := ix.(txs := ix.txs[tx.id := IndexedTx(ViewOf(tx), b.height, b.hash, i)]);
    if tx.sender != "" {
      out := out.(addresses := out.addresses[HistoryKey(tx.sender, b.height, tx.id, From)
        := History(tx.id, b.height, b.hash, From, tx.recipient, assetId, tx.amount, tx.fee)]);
    }
    if tx.recipient != "" && tx.recipient != tx.sender {
      out := out.(addresses := out.addresses[HistoryKey(tx.recipient, b.height, tx.id, To)
        := History(tx.id, b.height, b.hash, To, tx.sender, assetId, tx.amount, tx.fee)]);
    }
    if payer != "" && payer != tx.sender && payer != tx.recipient {
      out := out.(addresses := out.addresses[HistoryKey(payer, b.height, tx.id, FeePayer)
        := History(tx.id, b.height, b.hash, FeePayer, tx.recipient, assetId, tx.amount, tx.fee)]);
    }
    if assetId != "" && !Assets.IsNative(assetId) {
      out := out.(assets := out.assets[AssetKey(assetId, b.height, tx.id)
        := AssetEvent(b.hash, tx.sender, tx.recipient, tx.amount, tx.fee)]);
    }
  }

  // ---------------------------------------------------------------- the indexer

  /** Heights count up from 0 and every block names its parent. */
  ghost predicate Linear(blocks: seq<Block>) {
    && (forall i {:trigger blocks[i]} :: 0 <= i < |blocks| ==> blocks[i].height == i)
    && (forall i :: 1 <= i < |blocks| ==> LinkedAt(blocks, i))
  }

  lemma ContiguousIsLinear(rules: Rules, blocks: seq<Block>)
    requires rules.WellFormed() && Contiguous(rules, blocks)
    ensures Linear(blocks)
  {
    hide GenesisAccepted, Linked;
    forall i {:trigger blocks[i]} | 0 <= i < |blocks|
      ensures blocks[i].height == i
    {
      HeightIsIndex(rules, blocks, i);
    }
  }

  /** What the store hands out: one block for a height, sorted by height, none without a hash. */
  ghost predicate FromStore(blocks: seq<Block>) {
    && (forall i, j :: 0 <= i < j < |blocks| ==> blocks[i].height < blocks[j].height)
    && (forall i :: 0 <= i < |blocks| ==> blocks[i].hash != "")
  }

  datatype Cursor = Cursor(height: nat, hash: Hash)

  method FindBlockByHeight(blocks: seq<Block>, height: nat) returns (found: Option<Block>)
    ensures found.None? ==> forall i :: 0 <= i < |blocks| ==> blocks[i].height != height
    ensures found.Some? ==> exists i :: 0 <= i < |blocks| && blocks[i].height == height && found.value == blocks[i]
  {
    for i := 0 to |blocks|
      invariant forall j :: 0 <= j < i ==> blocks[j].height != height
    {
      if blocks[i].height == height {
        return Some(blocks[i]);
      }
    }
    return None;
  }

  /** Whether the pass starts over: there is no cursor, or its block is no longer the chain's. */
  ghost predicate Restarts(cursor: Option<Cursor>, blocks: seq<Block>)
    requires blocks != []
  {
    || cursor.None?
    || cursor.value.height > blocks[|blocks| - 1].height
    || exists i :: 0 <= i < |blocks| && blocks[i].height == cursor.value.height && blocks[i].hash != cursor.value.hash
  }

  /** The height above which the pass indexes. */
  ghost function Base(cursor: Option<Cursor>, blocks: seq<Block>): nat
    requires blocks != []
  {
    if Restarts(cursor, blocks) then 0 else cursor.value.height
  }

  /** Every block above `h` is linked to the one listed before it. */
  ghost predicate LinksAbove(blocks: seq<Block>, h: nat) {
    forall i :: 0 <= i < |blocks| && blocks[i].height > h ==> i > 0 && Linked(blocks[i - 1], blocks[i])
  }

  /** The blocks above `h`. */
  function Above(blocks: seq<Block>, h: nat): seq<Block> {
    if blocks == [] then []
    else
      var n := |blocks| - 1;
      Above(blocks[..n], h) + (if blocks[n].height > h then [blocks[n]] else [])
  }

  /** Above the genesis, which is not indexed, contents stand at their heights and have hashes. */
  ghost predicate InPlace(shown: seq<Content>) {
    forall i :: 1 <= i < |shown| ==> shown[i].height == i && shown[i].hash != ""
  }

  function CursorOf(shown: seq<Content>): Option<Cursor> {
    if |shown| <= 1 then None else Some(Cursor(|shown| - 1, shown[|shown| - 1].hash))
  }

  /** What is indexed after an accepted pass. */
  ghost function ShownNext(shown: seq<Content>, blocks: seq<Block>): seq<Content>
    requires blocks != []
  {
    if Restarts(CursorOf(shown), blocks) then [ContentOf(blocks[0])] + Contents(Above(blocks, 0))
    else shown + Contents(Above(blocks, |shown| - 1))
  }

  class ExplorerIndexer {
    var index: Index
    var cursor: Option<Cursor>
    ghost var shown: seq<Content>   // the contents the index was made of

    ghost predicate Valid()
      reads this
    {
      index == IndexOf(shown) && InPlace(shown) && cursor == CursorOf(shown)
    }

    constructor ()
      ensures Valid() && shown == []
      ensures index == EMPTY_INDEX && cursor == None
    {
      index, cursor, shown := EMPTY_INDEX, None, [];
    }

    /** Whether the cursor's block is no longer canonical. */
    method MustRebuild(blocks: seq<Block>) returns (rebuild: bool)
      requires Valid() && FromStore(blocks) && blocks != []
      ensures cursor.None? || rebuild <==> Restarts(cursor, blocks)
      ensures cursor.None? ==> !rebuild
    {
      hide IndexOf;
      rebuild := false;
      if cursor.Some? && cursor.value.hash != "" {
        var b := FindBlockByHeight(blocks, cursor.value.height);
        rebuild := b.Some? && b.value.hash != cursor.value.hash;
      }
      var height := if cursor.Some? then cursor.value.height else 0;
      if height > blocks[|blocks| - 1].height {
        rebuild := true;
      }
    }

    /** One pass of the indexer over the stored blocks: accepted exactly when the blocks above its starting
        point are linked, and a refused pass leaves no trace. Over a chain with distinct ids it leaves the
        chain's index if and only if it started over or what had been indexed is still what the chain holds. */
    method Sync(blocks: seq<Block>) returns (ok: bool)
      requires Valid() && FromStore(blocks)
      modifies this
      ensures Valid()
      ensures ok <==> blocks != [] && LinksAbove(blocks, Base(old(cursor), blocks))
      ensures !ok ==> index == old(index) && cursor == old(cursor) && shown == old(shown)
      ensures ok ==> shown == ShownNext(old(shown), blocks)
      ensures ok && Linear(blocks) && Hashed(blocks) && |blocks| - 1 <= MAX_U64 && UniqueIds(Contents(blocks)) ==>
        (index == IndexOf(Contents(blocks)) <==> Restarts(old(cursor), blocks) || UpToDate(old(shown), blocks))
    {
      hide IndexOf, IndexTxs, Contents, FromStore, LinksAbove, Restarts, Above, InPlace, Linear, Hashed, UniqueIds, UpToDate;
      ghost var before := shown;
      if blocks == [] {
        return false;
      }
      var rebuild := MustRebuild(blocks);
      var cur := if rebuild || cursor.None? then Cursor(0, "") else cursor.value;
      var work, last := index, cursor;
      if rebuild || cur.hash == "" {
        work, last := EMPTY_INDEX, None;
      }
      ghost var start := if Restarts(cursor, blocks) then [ContentOf(blocks[0])] else shown;
      Starting(shown, blocks);
      ok, work, last := IndexFrom(blocks, cur, start, work, last);
      if !ok {
        return;
      }
      index, cursor, shown := work, last, start + Contents(Above(blocks, cur.height));
      if Linear(blocks) && Hashed(blocks) && |blocks| - 1 <= MAX_U64 && UniqueIds(Contents(blocks)) {
        SyncedIff(before, blocks);
      }
    }
  }

  lemma Starting(shown: seq<Content>, blocks: seq<Block>)
    requires InPlace(shown) && blocks != []
    ensures
      var restarts := Restarts(CursorOf(shown), blocks);
      var start := if restarts then [ContentOf(blocks[0])] else shown;
      && InPlace(start) && |start| == (if restarts then 0 else CursorOf(shown).value.height) + 1
      && (restarts ==> IndexOf(start) == EMPTY_INDEX && CursorOf(start) == None)
      && (!restarts ==> CursorOf(shown).Some? && CursorOf(shown).value.hash != "")
  {
    hide IndexTxs;
  }

  /** Indexes the blocks above `cur`, checking each one's parent. */
  method IndexFrom(blocks: seq<Block>, cur: Cursor, ghost start: seq<Content>, work0: Index, last0: Option<Cursor>)
      returns (ok: bool, work: Index, last: Option<Cursor>)
    requires FromStore(blocks) && InPlace(start) && |start| == cur.height + 1
    requires work0 == IndexOf(start) && last0 == CursorOf(start)
    ensures ok <==> LinksAbove(blocks, cur.height)
    ensures ok ==>
              var done := start + Contents(Above(blocks, cur.height));
              InPlace(done) && work == IndexOf(done) && last == CursorOf(done)
  {
    hide *;
    work, last := work0, last0;
    var height: nat := cur.height;
    ghost var done := start;
    NothingAbove(blocks, cur.height);
    for i := 0 to |blocks|
      invariant LinksAbove(blocks[..i], cur.height)
      invariant done == start + Contents(Above(blocks[..i], cur.height))
      invariant InPlace(done) && work == IndexOf(done) && last == CursorOf(done) && |done| == height + 1
      invariant height >= cur.height
      invariant i > 0 && blocks[i - 1].height > cur.height ==> height == blocks[i - 1].height
      invariant i == 0 || blocks[i - 1].height <= cur.height ==> height == cur.height
    {
      var b := blocks[i];
      OneMoreAbove(blocks, cur.height, i);
      if b.height <= height {
        if i > 0 {
          Rises(blocks, i - 1, i);
        }
        continue;
      }
      if b.height > 0 {
        var p := FindBlockByHeight(blocks, b.height - 1);
        OnlyParent(blocks, i, p);
        if p.None? || p.value.hash != b.previousHash {
          LinksBelow(blocks, cur.height, i + 1);
          return false, work, last;
        }
      }
      NextHeight(blocks, i, cur.height, height);
      IndexedOneMore(done, b);
      work := IndexBlock(work, b);
      height, last := b.height, Some(Cursor(b.height, b.hash));
      done := done + [ContentOf(b)];
    }
    ok := true;
    assert blocks[..|blocks|] == blocks;
  }

  lemma NothingAbove(blocks: seq<Block>, h: nat)
    ensures Contents(Above(blocks[..0], h)) == [] && LinksAbove(blocks[..0], h)
  {
    assert blocks[..0] == [];
  }

  lemma OneMoreAbove(blocks: seq<Block>, h: nat, i: nat)
    requires i < |blocks|
    ensures Contents(Above(blocks[..i + 1], h))
         == Contents(Above(blocks[..i], h)) + (if blocks[i].height > h then [ContentOf(blocks[i])] else [])
    ensures LinksAbove(blocks[..i + 1], h) <==>
              LinksAbove(blocks[..i], h) && (blocks[i].height > h ==> i > 0 && Linked(blocks[i - 1], blocks[i]))
  {
    hide Linked;
    assert blocks[..i + 1][..i] == blocks[..i];
    assert forall j :: 0 <= j <= i ==> blocks[..i + 1][j] == blocks[j];
    assert forall j :: 0 <= j < i ==> blocks[..i][j] == blocks[j];
  }

  lemma LinksBelow(blocks: seq<Block>, h: nat, n: nat)
    requires n <= |blocks|
    ensures LinksAbove(blocks, h) ==> LinksAbove(blocks[..n], h)
  {
    hide Linked;
    assert forall j :: 0 <= j < n ==> blocks[..n][j] == blocks[j];
  }

  lemma Rises(blocks: seq<Block>, i: nat, j: nat)
    requires FromStore(blocks) && i < j < |blocks|
    ensures blocks[i].height < blocks[j].height
  {
  }

  lemma ParentIsBefore(blocks: seq<Block>, i: nat, j: nat)
    requires FromStore(blocks) && i < |blocks| && j < |blocks| && blocks[j].height == blocks[i].height - 1
    ensures j == i - 1
  {
    hide FromStore;
    if j > i {
      Rises(blocks, i, j);
    } else if j < i - 1 {
      Rises(blocks, j, i - 1);
      Rises(blocks, i - 1, i);
    }
  }

  lemma NextHeight(blocks: seq<Block>, i: nat, h: nat, height: nat)
    requires FromStore(blocks) && i < |blocks| && blocks[i].height > height >= h
    requires i > 0 && Linked(blocks[i - 1], blocks[i])
    requires if blocks[i - 1].height > h then height == blocks[i - 1].height else height == h
    ensures blocks[i].height == height + 1 && blocks[i].hash != ""
  {
  }

  /** The only block one below another is the one listed before it. */
  lemma OnlyParent(blocks: seq<Block>, i: nat, p: Option<Block>)
    requires FromStore(blocks) && i < |blocks| && blocks[i].height > 0
    requires p.None? ==> forall j :: 0 <= j < |blocks| ==> blocks[j].height != blocks[i].height - 1
    requires p.Some? ==> exists j :: 0 <= j < |blocks| && blocks[j].height == blocks[i].height - 1 && p.value == blocks[j]
    ensures p.Some? && p.value.hash == blocks[i].previousHash <==> i > 0 && Linked(blocks[i - 1], blocks[i])
  {
    if p.Some? {
      var j :| 0 <= j < |blocks| && blocks[j].height == blocks[i].height - 1 && p.value == blocks[j];
      ParentIsBefore(blocks, i, j);
    }
  }

  lemma IndexedOneMore(done: seq<Content>, b: Block)
    requires done != [] && InPlace(done)
    ensures IndexOf(done + [ContentOf(b)]) == IndexTxs(IndexOf(done), ContentOf(b), |b.txs|)
    ensures b.height == |done| && b.hash != "" ==>
              InPlace(done + [ContentOf(b)]) && CursorOf(done + [ContentOf(b)]) == Some(Cursor(b.height, b.hash))
  {
    hide IndexTxs;
    assert (done + [ContentOf(b)])[..|done|] == done;
  }

  // ---------------------------------------------------------------- what the index determines

  /** Every entry of the transaction bucket stands for a transaction of the contents. */
  ghost predicate Traceable(ix: Index, shown: seq<Content>) {
    forall id :: id in ix.txs ==>
      var e := ix.txs[id];
      && 1 <= e.blockHeight < |shown| && e.index < |shown[e.blockHeight].txs|
      && e.view == shown[e.blockHeight].txs[e.index]
  }

  ghost predicate BlocksListed(ix: Index, shown: seq<Content>) {
    forall h: u64 :: (h in ix.blocks <==> 1 <= h < |shown|)
      && (h in ix.blocks ==>
            ix.blocks[h] == IndexedBlock(shown[h].hash, shown[h].previousHash, shown[h].timestamp, |shown[h].txs|))
  }

  /** No two indexed transactions share an id. */
  ghost predicate UniqueIds(shown: seq<Content>) {
    forall i, k, j, m ::
      (1 <= i < |shown| && 0 <= k < |shown[i].txs| && 1 <= j < |shown| && 0 <= m < |shown[j].txs|
       && shown[i].txs[k].id == shown[j].txs[m].id) ==> i == j && k == m
  }

  /** Every transaction of the contents has its own entry. */
  ghost predicate AllListed(ix: Index, shown: seq<Content>, n: nat, last: nat)
    requires n <= |shown|
  {
    forall i, k :: 1 <= i < n && 0 <= k < |shown[i].txs| && (i < n - 1 || k < last) ==>
      shown[i].txs[k].id in ix.txs
      && ix.txs[shown[i].txs[k].id] == IndexedTx(shown[i].txs[k], shown[i].height, shown[i].hash, k)
  }

  lemma IndexTxEffect(ix: Index, c: Content, i: nat)
    requires i < |c.txs|
    ensures IndexTx(ix, c, i).blocks == ix.blocks
    ensures IndexTx(ix, c, i).txs == ix.txs[c.txs[i].id := IndexedTx(c.txs[i], c.height, c.hash, i)]
  {
    hide Assets.IsNative;
  }

  lemma {:induction false} IndexTxsBlocks(ix: Index, c: Content, n: nat)
    requires n <= |c.txs|
    ensures IndexTxs(ix, c, n).blocks
         == ix.blocks[c.height := IndexedBlock(c.hash, c.previousHash, c.timestamp, |c.txs|)]
  {
    hide IndexTx;
    if n > 0 {
      IndexTxsBlocks(ix, c, n - 1);
      IndexTxEffect(IndexTxs(ix, c, n - 1), c, n - 1);
    }
  }

  lemma {:induction false} IndexListsBlocks(shown: seq<Content>)
    requires InPlace(shown)
    ensures BlocksListed(IndexOf(shown), shown)
  {
    hide IndexTxs;
    if |shown| > 1 {
      var n := |shown| - 1;
      IndexListsBlocks(shown[..n]);
      IndexTxsBlocks(IndexOf(shown[..n]), shown[n], |shown[n].txs|);
    }
  }

  lemma {:induction false} TxsTraceable(ix: Index, shown: seq<Content>, n: nat)
    requires |shown| > 1 && InPlace(shown) && Traceable(ix, shown) && n <= |shown[|shown| - 1].txs|
    ensures Traceable(IndexTxs(ix, shown[|shown| - 1], n), shown)
  {
    hide IndexTx;
    var c := shown[|shown| - 1];
    if n > 0 {
      TxsTraceable(ix, shown, n - 1);
      IndexTxEffect(IndexTxs(ix, c, n - 1), c, n - 1);
    }
  }

  lemma {:induction false} IndexTraceable(shown: seq<Content>)
    requires InPlace(shown)
    ensures Traceable(IndexOf(shown), shown)
  {
    hide IndexTxs;
    if |shown| > 1 {
      var n := |shown| - 1;
      IndexTraceable(shown[..n]);
      assert Traceable(IndexOf(shown[..n]), shown);
      TxsTraceable(IndexOf(shown[..n]), shown, |shown[n].txs|);
    }
  }

  lemma {:induction false} TxsListed(ix: Index, shown: seq<Content>, k: nat)
    requires |shown| > 1 && UniqueIds(shown) && k <= |shown[|shown| - 1].txs| && AllListed(ix, shown, |shown|, 0)
    ensures AllListed(IndexTxs(ix, shown[|shown| - 1], k), shown, |shown|, k)
  {
    hide IndexTx;
    var c := shown[|shown| - 1];
    if k > 0 {
      TxsListed(ix, shown, k - 1);
      IndexTxEffect(IndexTxs(ix, c, k - 1), c, k - 1);
    }
  }

  lemma {:induction false} IndexListsAll(shown: seq<Content>, n: nat)
    requires UniqueIds(shown) && 1 <= n <= |shown|
    ensures n > 1 ==> AllListed(IndexOf(shown[..n]), shown, n, |shown[n - 1].txs|)
  {
    hide IndexTxs;
    if n > 1 {
      IndexListsAll(shown, n - 1);
      assert shown[..n][..n - 1] == shown[..n - 1];
      UniquePrefix(shown, n);
      TxsListed(IndexOf(shown[..n - 1]), shown[..n], |shown[n - 1].txs|);
    }
  }

  lemma UniquePrefix(shown: seq<Content>, n: nat)
    requires UniqueIds(shown) && n <= |shown|
    ensures UniqueIds(shown[..n])
  {
  }

  lemma {:induction false} SameIndexSameBlocks(x: seq<Content>, y: seq<Content>)
    requires InPlace(x) && InPlace(y) && x != [] && y != [] && IndexOf(x) == IndexOf(y)
    requires |x| - 1 <= MAX_U64 && |y| - 1 <= MAX_U64
    ensures |x| == |y|
    ensures forall i :: 1 <= i < |x| ==>
              x[i].hash == y[i].hash && x[i].previousHash == y[i].previousHash && x[i].timestamp == y[i].timestamp
              && |x[i].txs| == |y[i].txs|
  {
    IndexListsBlocks(x);
    IndexListsBlocks(y);
    hide IndexOf, InPlace;
    var ix := IndexOf(x);
    var m, n := Cap(|x|), Cap(|y|);
    assert m in ix.blocks <==> 1 <= m < |y|;
    assert n in ix.blocks <==> 1 <= n < |x|;
    forall i | 1 <= i < |x|
      ensures x[i].hash == y[i].hash && x[i].previousHash == y[i].previousHash && x[i].timestamp == y[i].timestamp
              && |x[i].txs| == |y[i].txs|
    {
      var h: u64 := i;
      assert h in ix.blocks;
    }
  }

  /** Contents in place with distinct ids can be read back from their index: another list has the same
      index only if it has the same contents above the genesis. */
  lemma {:induction false} IndexDetermines(x: seq<Content>, y: seq<Content>)
    requires InPlace(x) && InPlace(y) && x != [] && y != [] && |x| - 1 <= MAX_U64 && |y| - 1 <= MAX_U64
    requires UniqueIds(y) && IndexOf(x) == IndexOf(y)
    ensures x[1..] == y[1..]
  {
    SameIndexSameBlocks(x, y);
    IndexTraceable(x);
    IndexListsAll(y, |y|);
    assert y[..|y|] == y;
    hide IndexOf, UniqueIds;
    forall i | 1 <= i < |x|
      ensures x[i] == y[i]
    {
      forall k | 0 <= k < |x[i].txs|
        ensures x[i].txs[k] == y[i].txs[k]
      {
        var id := y[i].txs[k].id;
        assert id in IndexOf(y).txs && IndexOf(y).txs[id] == IndexedTx(y[i].txs[k], y[i].height, y[i].hash, k);
      }
      assert x[i].txs == y[i].txs;
    }
  }

  lemma {:induction false} IndexIgnoresGenesis(x: seq<Content>, y: seq<Content>)
    requires x != [] && y != [] && x[1..] == y[1..]
    ensures IndexOf(x) == IndexOf(y)
    decreases |x|
  {
    hide IndexTxs;
    assert |x| == |y|;
    if |x| > 1 {
      var n := |x| - 1;
      assert x[..n][1..] == x[1..][..n - 1] && y[..n][1..] == y[1..][..n - 1];
      assert x[n] == x[1..][n - 1] && y[n] == y[1..][n - 1];
      IndexIgnoresGenesis(x[..n], y[..n]);
    }
  }

  // ---------------------------------------------------------------- when a pass leaves the chain's index

  lemma LinearLinks(blocks: seq<Block>, h: nat)
    requires Linear(blocks)
    ensures LinksAbove(blocks, h)
  {
    forall i | 0 <= i < |blocks| && blocks[i].height > h
      ensures i > 0 && Linked(blocks[i - 1], blocks[i])
    {
      assert LinkedAt(blocks, i);
    }
  }

  lemma {:induction false} AboveLinear(blocks: seq<Block>, h: nat, n: nat)
    requires Linear(blocks) && n <= |blocks|
    ensures Above(blocks[..n], h) == if n <= h + 1 then [] else blocks[h + 1..n]
  {
    hide LinkedAt;
    if n > 0 {
      assert blocks[..n][..n - 1] == blocks[..n - 1];
      AboveLinear(blocks, h, n - 1);
    }
  }

  ghost predicate Hashed(blocks: seq<Block>) {
    forall i :: 0 <= i < |blocks| ==> blocks[i].hash != ""
  }

  lemma LinearFromStore(blocks: seq<Block>)
    requires Linear(blocks) && Hashed(blocks)
    ensures FromStore(blocks) && InPlace(Contents(blocks))
  {
    hide LinkedAt;
  }

  /** What a pass over a chain makes the index of: all of it, or what was there already and the rest. */
  lemma ShownOverLinear(shown: seq<Content>, blocks: seq<Block>)
    requires InPlace(shown) && Linear(blocks) && blocks != []
    ensures Restarts(CursorOf(shown), blocks) ==> ShownNext(shown, blocks) == Contents(blocks)
    ensures !Restarts(CursorOf(shown), blocks) ==>
              && 1 < |shown| <= |blocks| && shown[|shown| - 1].hash == blocks[|shown| - 1].hash
              && ShownNext(shown, blocks) == shown + Contents(blocks)[|shown|..]
  {
    hide LinkedAt, ContentOf, Above, Contents;
    assert blocks[..|blocks|] == blocks;
    if Restarts(CursorOf(shown), blocks) {
      AboveLinear(blocks, 0, |blocks|);
      ContentsSplit(blocks, 1);
      OneContent(blocks);
      assert |blocks| == 1 ==> blocks[1..] == [];
    } else {
      AboveLinear(blocks, |shown| - 1, |blocks|);
      assert blocks[|shown| - 1].height == |shown| - 1;
      ContentsSplit(blocks, |shown|);
      assert |shown| == |blocks| ==> blocks[|shown|..] == [];
    }
  }

  lemma OneContent(blocks: seq<Block>)
    requires blocks != []
    ensures Contents(blocks[..1]) == [ContentOf(blocks[0])]
  {
    hide ContentOf;
  }

  lemma ContentsSplit(blocks: seq<Block>, n: nat)
    requires n <= |blocks|
    ensures Contents(blocks) == Contents(blocks[..n]) + Contents(blocks[n..])
    ensures Contents(blocks)[n..] == Contents(blocks[n..]) && |Contents(blocks)| == |blocks|
    ensures n == |blocks| ==> Contents(blocks[n..]) == []
  {
    hide ContentOf;
  }

  /** The indexed part of what is shown agrees with the chain as far as it goes. */
  ghost predicate UpToDate(shown: seq<Content>, blocks: seq<Block>) {
    1 <= |shown| <= |blocks| && shown[1..] == Contents(blocks)[1..|shown|]
  }

  /** A pass over a chain with distinct ids leaves exactly the chain's index if and only if it started over
      or what had been indexed is still what the chain's blocks contain. Equal hashes are not asked for. */
  lemma SyncedIff(shown: seq<Content>, blocks: seq<Block>)
    requires InPlace(shown) && Linear(blocks) && Hashed(blocks) && blocks != [] && |blocks| - 1 <= MAX_U64
    requires UniqueIds(Contents(blocks))
    ensures IndexOf(ShownNext(shown, blocks)) == IndexOf(Contents(blocks)) <==>
              Restarts(CursorOf(shown), blocks) || UpToDate(shown, blocks)
  {
    hide IndexOf, UniqueIds, Restarts, ShownNext, LinkedAt;
    ShownOverLinear(shown, blocks);
    LinearFromStore(blocks);
    hide Linear, Hashed;
    var all := Contents(blocks);
    if !Restarts(CursorOf(shown), blocks) {
      var next := shown + all[|shown|..];
      assert next[1..] == shown[1..] + all[|shown|..];
      assert all[1..] == all[1..|shown|] + all[|shown|..];
      assert next[1..][..|shown| - 1] == shown[1..] && all[1..][..|shown| - 1] == all[1..|shown|];
      if UpToDate(shown, blocks) {
        IndexIgnoresGenesis(next, all);
      } else if IndexOf(next) == IndexOf(all) {
        hide Contents, InPlace;
        NextInPlace(shown, all);
        IndexDetermines(next, all);
      }
    }
  }

  lemma NextInPlace(shown: seq<Content>, all: seq<Content>)
    requires InPlace(shown) && InPlace(all) && 1 < |shown| <= |all|
    ensures InPlace(shown + all[|shown|..])
  {
  }

  // ---------------------------------------------------------------- what equal hashes give

  /** No transaction above the genesis is loose. */
  ghost predicate Tight(blocks: seq<Block>) {
    forall i, j :: 1 <= i < |blocks| && 0 <= j < |blocks[i].txs| ==> !Preimages.Loose(blocks[i].txs[j])
  }

  /** Two accepted blocks with the same header contents have the same indexed content, unless a transaction
      is loose. */
  lemma SameHeaderSameContent(env: Env, hashing: Merkle.Hashing, b: Block, c: Block)
    requires Preimages.IdsName(env) && Preimages.RootsName(env, hashing)
    requires Preimages.Sealed(env, b) && Preimages.Sealed(env, c)
    requires b.height == c.height && b.hash == c.hash && b.previousHash == c.previousHash
    requires b.timestamp == c.timestamp && b.merkleRoot == c.merkleRoot && Preimages.UsedFor(hashing, [b, c])
    requires (forall j :: 0 <= j < |b.txs| ==> !Preimages.Loose(b.txs[j]))
          && (forall j :: 0 <= j < |c.txs| ==> !Preimages.Loose(c.txs[j]))
    ensures ContentOf(b) == ContentOf(c)
  {
    hide Preimages.IdsName, Preimages.RootsName, Preimages.Committed, Preimages.Loose, DistinctIds, Merkle.Covers;
    assert [b, c][0] == b && [b, c][1] == c;
    Preimages.SameRootSameIds(env, hashing, b.txs, c.txs);
    forall j | 0 <= j < |b.txs|
      ensures ViewOf(b.txs[j]) == ViewOf(c.txs[j])
    {
      Preimages.SameIdSameFields(env, b.txs[j], c.txs[j]);
    }
    assert ContentOf(b).txs == ContentOf(c).txs;
  }

  /** Two valid chains with the same block hash at one height have the same indexed content up to there,
      unless a transaction is loose. */
  lemma {:induction false} SameHashSamePrefix(rules: Rules, hashing: Merkle.Hashing, x: seq<Block>, y: seq<Block>, h: nat, i: nat)
    requires rules.WellFormed() && Preimages.IdsName(rules.env) && Preimages.RootsName(rules.env, hashing)
    requires ValidChain(rules, x) && ValidChain(rules, y) && Preimages.HeadersBind(x, y) && Tight(x) && Tight(y)
    requires Preimages.UsedFor(hashing, x) && Preimages.UsedFor(hashing, y)
    requires 1 <= i <= h < |x| && h < |y| && x[h].hash == y[h].hash
    ensures x[i].hash == y[i].hash && ContentOf(x[i]) == ContentOf(y[i])
    decreases h
  {
    hide *;
    ChainBlock(rules, x, h);
    ChainBlock(rules, y, h);
    SameHeader(x, y, h);
    if i == h {
      TightBlocks(hashing, x, y, h);
      SameHeaderSameContent(rules.env, hashing, x[h], y[h]);
    } else {
      SameHashSamePrefix(rules, hashing, x, y, h - 1, i);
    }
  }

  lemma SameHeader(x: seq<Block>, y: seq<Block>, h: nat)
    requires Preimages.HeadersBind(x, y) && h < |x| && h < |y| && x[h].hash == y[h].hash
    ensures x[h].previousHash == y[h].previousHash && x[h].timestamp == y[h].timestamp && x[h].merkleRoot == y[h].merkleRoot
  {
  }

  lemma TightBlocks(hashing: Merkle.Hashing, x: seq<Block>, y: seq<Block>, h: nat)
    requires Tight(x) && Tight(y) && Preimages.UsedFor(hashing, x) && Preimages.UsedFor(hashing, y) && 1 <= h < |x| && h < |y|
    ensures Preimages.UsedFor(hashing, [x[h], y[h]])
    ensures forall j :: 0 <= j < |x[h].txs| ==> !Preimages.Loose(x[h].txs[j])
    ensures forall j :: 0 <= j < |y[h].txs| ==> !Preimages.Loose(y[h].txs[j])
  {
    hide Preimages.Loose, Merkle.Covers;
  }

  lemma ChainBlock(rules: Rules, blocks: seq<Block>, h: nat)
    requires rules.WellFormed() && ValidChain(rules, blocks) && 1 <= h < |blocks|
    ensures Preimages.Sealed(rules.env, blocks[h])
    ensures blocks[h].height == h && blocks[h].previousHash == blocks[h - 1].hash
  {
    Preimages.ValidSealed(rules, blocks, h);
    ValidIsLinear(rules, blocks);
    hide ValidChain, Preimages.Sealed, Rules.WellFormed;
    assert LinkedAt(blocks, h);
  }

  lemma {:induction false} EarlierListed(blocks: seq<Block>, i: nat, k: nat) returns (p: nat)
    requires 1 <= i < |blocks| && k < |blocks[i].txs|
    ensures p < |AllTxs(blocks[1..])| && AllTxs(blocks[1..])[p] == blocks[i].txs[k]
    decreases |blocks|
  {
    var n := |blocks| - 1;
    var tail := blocks[1..];
    assert tail[..n - 1] == blocks[..n][1..] && tail[n - 1] == blocks[n];
    if i == n {
      p := |AllTxs(tail[..n - 1])| + k;
    } else {
      p := EarlierListed(blocks[..n], i, k);
    }
  }

  predicate HasId(txs: seq<Transaction>, id: string) {
    exists m :: 0 <= m < |txs| && txs[m].id == id
  }

  /** No id of block `n` occurs between the genesis and it. */
  ghost predicate NewAt(blocks: seq<Block>, n: nat)
    requires n < |blocks|
  {
    forall i, k :: 1 <= i < n && 0 <= k < |blocks[i].txs| ==> !HasId(blocks[n].txs, blocks[i].txs[k].id)
  }

  lemma {:induction false} ValidUnique(rules: Rules, blocks: seq<Block>, n: nat)
    requires rules.WellFormed() && ValidChain(rules, blocks) && 1 <= n <= |blocks|
    ensures UniqueIds(Contents(blocks[..n]))
  {
    if n > 1 {
      hide ValidChain, Rules.WellFormed, UniqueIds, NewAt, DistinctIds, Contents, FreshIds;
      ValidUnique(rules, blocks, n - 1);
      NewIds(rules, blocks, n - 1);
      FreshMeansNew(blocks, n - 1);
      UniqueGrows(blocks, n);
    }
  }

  lemma FreshMeansNew(blocks: seq<Block>, n: nat)
    requires 1 <= n < |blocks| && FreshIds(blocks[n], blocks[..n])
    ensures NewAt(blocks, n) && DistinctIds(blocks[n].txs)
  {
    hide AllTxs, DistinctIds;
    forall i, k | 1 <= i < n && 0 <= k < |blocks[i].txs|
      ensures !HasId(blocks[n].txs, blocks[i].txs[k].id)
    {
      var p := EarlierListed(blocks[..n], i, k);
      assert AllTxs(blocks[..n][1..])[p].id == blocks[i].txs[k].id;
    }
  }

  lemma NewIds(rules: Rules, blocks: seq<Block>, n: nat)
    requires rules.WellFormed() && ValidChain(rules, blocks) && 1 <= n < |blocks|
    ensures FreshIds(blocks[n], blocks[..n])
  {
    hide ValidChain, ValidNext, DistinctIds, Rules.WellFormed, FreshIds;
    Validation.ValidPrefix(rules, blocks, n + 1);
    assert blocks[..n + 1] == blocks[..n] + [blocks[n]];
    IncrementalValidation(rules, blocks[..n], blocks[n]);
  }

  lemma UniqueGrows(blocks: seq<Block>, n: nat)
    requires 1 < n <= |blocks| && UniqueIds(Contents(blocks[..n - 1]))
    requires NewAt(blocks, n - 1) && DistinctIds(blocks[n - 1].txs)
    ensures UniqueIds(Contents(blocks[..n]))
  {
    var all := Contents(blocks[..n]);
    assert forall i :: 0 <= i < n - 1 ==> all[i] == Contents(blocks[..n - 1])[i];
    assert forall i, k :: 0 <= i < n && 0 <= k < |all[i].txs| ==> all[i].txs[k].id == blocks[i].txs[k].id;
    hide Contents, ContentOf, ViewOf;
  }

  // ---------------------------------------------------------------- runs of passes

  /** A chain the indexer can meet: valid, under the store's hashes, and without loose transactions. */
  ghost predicate Followed(rules: Rules, hashing: Merkle.Hashing, blocks: seq<Block>) {
    ValidChain(rules, blocks) && Hashed(blocks) && Tight(blocks) && Preimages.UsedFor(hashing, blocks)
  }

  /** What is indexed after passes over these chains, one after the other. */
  ghost function ShownAfter(chains: seq<seq<Block>>): seq<Content>
    requires forall i :: 0 <= i < |chains| ==> chains[i] != []
  {
    if chains == [] then []
    else ShownNext(ShownAfter(chains[..|chains| - 1]), chains[|chains| - 1])
  }

  lemma FollowedParts(rules: Rules, hashing: Merkle.Hashing, blocks: seq<Block>)
    requires rules.WellFormed() && Followed(rules, hashing, blocks)
    ensures blocks != [] && Linear(blocks) && |blocks| - 1 <= MAX_U64 && FromStore(blocks)
    ensures InPlace(Contents(blocks)) && UniqueIds(Contents(blocks))
  {
    hide ValidBlock, DistinctIds, Rules.WellFormed, Contents, UniqueIds, FromStore, Tight;
    assert blocks != [];
    ValidIsLinear(rules, blocks);
    assert blocks[|blocks| - 1].height == |blocks| - 1;
    ValidUnique(rules, blocks, |blocks|);
    assert blocks[..|blocks|] == blocks;
    hide ValidChain, Linear;
    LinearFromStore(blocks);
  }

  /** From one chain to the next the index follows. */
  lemma PassFollows(rules: Rules, hashing: Merkle.Hashing, shown: seq<Content>, x: seq<Block>, y: seq<Block>)
    requires rules.WellFormed() && Preimages.IdsName(rules.env) && Preimages.RootsName(rules.env, hashing)
    requires Followed(rules, hashing, x) && Followed(rules, hashing, y) && Preimages.HeadersBind(x, y)
    requires InPlace(shown) && |shown| == |x| && UpToDate(shown, x) && y != []
    ensures
      var next := ShownNext(shown, y);
      InPlace(next) && |next| == |y| && UpToDate(next, y)
  {
    hide *;
    FollowedParts(rules, hashing, x);
    FollowedParts(rules, hashing, y);
    ShownOverLinear(shown, y);
    if Restarts(CursorOf(shown), y) {
      WholeUpToDate(y);
    } else {
      LastShown(shown, x);
      SameTip(rules, hashing, shown, x, y);
      ExtendedUpToDate(shown, x, y);
      WholeUpToDate(y);
      NextInPlace(shown, Contents(y));
    }
  }

  lemma WholeUpToDate(blocks: seq<Block>)
    requires blocks != []
    ensures UpToDate(Contents(blocks), blocks) && |Contents(blocks)| == |blocks|
  {
    hide ContentOf;
  }

  lemma LastShown(shown: seq<Content>, x: seq<Block>)
    requires UpToDate(shown, x) && |shown| == |x| > 1
    ensures shown[|shown| - 1] == ContentOf(x[|x| - 1])
  {
    hide ContentOf;
    var h := |shown| - 1;
    assert shown[h] == shown[1..][h - 1] == Contents(x)[1..|shown|][h - 1];
  }

  lemma ExtendedUpToDate(shown: seq<Content>, x: seq<Block>, y: seq<Block>)
    requires UpToDate(shown, x) && 1 < |shown| == |x| <= |y|
    requires forall i :: 1 <= i < |shown| ==> ContentOf(x[i]) == ContentOf(y[i])
    ensures UpToDate(shown + Contents(y)[|shown|..], y) && |shown + Contents(y)[|shown|..]| == |y|
  {
    hide ContentOf;
    forall i | 1 <= i < |shown|
      ensures shown[i] == ContentOf(y[i])
    {
      assert shown[i] == shown[1..][i - 1] == Contents(x)[1..|shown|][i - 1];
    }
    var next := shown + Contents(y)[|shown|..];
    assert next[1..] == Contents(y)[1..|next|];
  }

  lemma SameTip(rules: Rules, hashing: Merkle.Hashing, shown: seq<Content>, x: seq<Block>, y: seq<Block>)
    requires rules.WellFormed() && Preimages.IdsName(rules.env) && Preimages.RootsName(rules.env, hashing)
    requires Followed(rules, hashing, x) && Followed(rules, hashing, y) && Preimages.HeadersBind(x, y)
    requires 1 < |shown| == |x| <= |y| && shown[|shown| - 1] == ContentOf(x[|x| - 1])
    requires shown[|shown| - 1].hash == y[|shown| - 1].hash
    ensures forall i :: 1 <= i < |shown| ==> ContentOf(x[i]) == ContentOf(y[i])
  {
    hide Preimages.IdsName, Preimages.RootsName, Preimages.HeadersBind, Rules.WellFormed, ValidChain, Tight, Hashed;
    assert x[|x| - 1].hash == y[|x| - 1].hash;
    hide ContentOf;
    forall i | 1 <= i < |shown|
      ensures ContentOf(x[i]) == ContentOf(y[i])
    {
      SameHashSamePrefix(rules, hashing, x, y, |x| - 1, i);
    }
  }

  ghost predicate AllFollowed(rules: Rules, hashing: Merkle.Hashing, chains: seq<seq<Block>>) {
    && (forall i :: 0 <= i < |chains| ==> chains[i] != [] && Followed(rules, hashing, chains[i]))
    && (forall i :: 1 <= i < |chains| ==> Preimages.HeadersBind(chains[i - 1], chains[i]))
  }

  /** Through any sequence of extensions and reorganisations the index stays that of the chain built from
      nothing, as long as no transaction is loose. */
  lemma {:induction false} PassesFollow(rules: Rules, hashing: Merkle.Hashing, chains: seq<seq<Block>>)
    requires rules.WellFormed() && Preimages.IdsName(rules.env) && Preimages.RootsName(rules.env, hashing)
    requires chains != [] && AllFollowed(rules, hashing, chains)
    ensures
      var shown, last := ShownAfter(chains), chains[|chains| - 1];
      && InPlace(shown) && |shown| == |last| && UpToDate(shown, last)
      && IndexOf(shown) == IndexOf(Contents(last))
  {
    hide Preimages.IdsName, Preimages.RootsName, Preimages.HeadersBind, Rules.WellFormed, Followed, UpToDate, IndexOf,
         InPlace, ShownNext, Contents;
    var n := |chains| - 1;
    assert ShownAfter(chains) == ShownNext(ShownAfter(chains[..n]), chains[n]);
    if n == 0 {
      assert chains[..0] == [] && ShownAfter(chains[..0]) == [];
      FirstPass(rules, hashing, chains[0]);
    } else {
      PassesFollow(rules, hashing, chains[..n]);
      PassFollows(rules, hashing, ShownAfter(chains[..n]), chains[n - 1], chains[n]);
    }
    UpToDateIndex(ShownAfter(chains), chains[n]);
  }

  lemma FirstPass(rules: Rules, hashing: Merkle.Hashing, blocks: seq<Block>)
    requires rules.WellFormed() && Followed(rules, hashing, blocks) && blocks != []
    ensures InPlace(ShownNext([], blocks)) && |ShownNext([], blocks)| == |blocks| && UpToDate(ShownNext([], blocks), blocks)
  {
    hide *;
    FollowedParts(rules, hashing, blocks);
    NothingShown(blocks);
    ShownOverLinear([], blocks);
    WholeUpToDate(blocks);
  }

  lemma NothingShown(blocks: seq<Block>)
    requires blocks != []
    ensures InPlace([]) && Restarts(CursorOf([]), blocks)
  {
  }

  lemma UpToDateIndex(shown: seq<Content>, blocks: seq<Block>)
    requires UpToDate(shown, blocks) && |shown| == |blocks|
    ensures IndexOf(shown) == IndexOf(Contents(blocks))
  {
    hide IndexOf, ContentOf;
    assert Contents(blocks)[1..|shown|] == Contents(blocks)[1..];
    IndexIgnoresGenesis(shown, Contents(blocks));
  }

  // ---------------------------------------------------------------- who has a history

  /** `a` is a party of the transaction. */
  predicate Concerns(tx: TxView, a: Address) {
    a != "" && (a == tx.sender || a == tx.recipient || a == tx.feePayer)
  }

  ghost predicate HasEntry(ix: Index, a: Address, h: u64, id: string) {
    exists role :: HistoryKey(a, h, id, role) in ix.addresses
  }

  /** What an entry says of a transaction: its role for the address, the other party, and what was moved. */
  predicate Tells(e: History, key: HistoryKey, c: Content, tx: TxView) {
    && key.height == c.height && key.txId == tx.id && key.role == e.role
    && e.txId == tx.id && e.blockHeight == c.height && e.blockHash == c.hash
    && e.assetId == tx.assetId && e.amount == tx.amount && e.fee == tx.fee
    && match e.role
       case From => key.address == tx.sender && e.counterparty == tx.recipient
       case To => key.address == tx.recipient && e.counterparty == tx.sender
       case FeePayer => key.address == tx.feePayer && e.counterparty == tx.recipient
  }

  lemma PutTold(ix: Index, c: Content, tx: TxView, role: Role, key: HistoryKey)
    ensures
      var after := PutEvent(ix, c, tx, role);
      && (key in after.addresses <==>
            key in ix.addresses || (HasEvent(tx, role) && key == HistoryKey(Party(tx, role), c.height, tx.id, role)))
      && (key in after.addresses ==>
            (key in ix.addresses && after.addresses[key] == ix.addresses[key]) || Tells(after.addresses[key], key, c, tx))
  {
  }

  lemma IndexTxTold(ix: Index, c: Content, i: nat, key: HistoryKey)
    requires i < |c.txs|
    ensures
      var after := IndexTx(ix, c, i);
      && (key in after.addresses <==>
            key in ix.addresses
            || (HasEvent(c.txs[i], key.role) && key == HistoryKey(Party(c.txs[i], key.role), c.height, c.txs[i].id, key.role)))
      && (key in after.addresses ==>
            (key in ix.addresses && after.addresses[key] == ix.addresses[key]) || Tells(after.addresses[key], key, c, c.txs[i]))
  {
    hide Assets.IsNative, PutEvent, HasEvent, Party, Tells;
    var tx := c.txs[i];
    var listed := ix.(txs := ix.txs[tx.id := IndexedTx(tx, c.height, c.hash, i)]);
    PutTold(listed, c, tx, From, key);
    PutTold(PutEvent(listed, c, tx, From), c, tx, To, key);
    PutTold(PutEvent(PutEvent(listed, c, tx, From), c, tx, To), c, tx, FeePayer, key);
    match key.role
    case From =>
    case To =>
    case FeePayer =>
  }

  lemma EntryForParties(tx: TxView, a: Address)
    ensures Concerns(tx, a) <==> exists role :: HasEvent(tx, role) && Party(tx, role) == a
  {
    assert HasEvent(tx, From) && Party(tx, From) == a ==> exists role :: HasEvent(tx, role) && Party(tx, role) == a;
    assert HasEvent(tx, To) && Party(tx, To) == a ==> exists role :: HasEvent(tx, role) && Party(tx, role) == a;
    assert HasEvent(tx, FeePayer) && Party(tx, FeePayer) == a ==> exists role :: HasEvent(tx, role) && Party(tx, role) == a;
  }

  lemma IndexTxEntry(ix: Index, c: Content, i: nat, a: Address, h: u64, id: string)
    requires i < |c.txs|
    ensures HasEntry(IndexTx(ix, c, i), a, h, id) <==>
              HasEntry(ix, a, h, id) || (h == c.height && id == c.txs[i].id && Concerns(c.txs[i], a))
  {
    EntryForParties(c.txs[i], a);
    hide HasEvent, Party, Concerns, Tells, IndexTx;
    forall role
      ensures HistoryKey(a, h, id, role) in IndexTx(ix, c, i).addresses <==>
                HistoryKey(a, h, id, role) in ix.addresses
                || (HasEvent(c.txs[i], role) && Party(c.txs[i], role) == a && h == c.height && id == c.txs[i].id)
    {
      IndexTxTold(ix, c, i, HistoryKey(a, h, id, role));
    }
  }

  /** One of the first `n` transactions of the block concerns `a` under this id. */
  predicate Involves(c: Content, n: nat, a: Address, id: string)
    requires n <= |c.txs|
  {
    exists k :: 0 <= k < n && c.txs[k].id == id && Concerns(c.txs[k], a)
  }

  lemma {:induction false} IndexTxsEntry(ix: Index, c: Content, n: nat, a: Address, h: u64, id: string)
    requires n <= |c.txs|
    ensures HasEntry(IndexTxs(ix, c, n), a, h, id) <==> HasEntry(ix, a, h, id) || (h == c.height && Involves(c, n, a, id))
  {
    hide IndexTx, Concerns;
    if n == 0 {
      SameHistory(ix, IndexTxs(ix, c, 0), a, h, id);
    } else {
      IndexTxsEntry(ix, c, n - 1, a, h, id);
      IndexTxEntry(IndexTxs(ix, c, n - 1), c, n - 1, a, h, id);
    }
  }

  lemma SameHistory(x: Index, y: Index, a: Address, h: u64, id: string)
    requires x.addresses == y.addresses
    ensures HasEntry(x, a, h, id) <==> HasEntry(y, a, h, id)
  {
  }

  /** An address has an entry for a transaction at a height if and only if that transaction is in a block of that
      height above the genesis and the address is its sender, recipient or fee payer. */
  lemma {:induction false} HistoryIffParty(contents: seq<Content>, a: Address, h: u64, id: string)
    ensures HasEntry(IndexOf(contents), a, h, id) <==>
              exists i :: 1 <= i < |contents| && contents[i].height == h && Involves(contents[i], |contents[i].txs|, a, id)
  {
    hide IndexTxs, Involves;
    if |contents| > 1 {
      var n := |contents| - 1;
      HistoryIffParty(contents[..n], a, h, id);
      IndexTxsEntry(IndexOf(contents[..n]), contents[n], |contents[n].txs|, a, h, id);
    }
  }

  /** For a block as it stands: sender, recipient and whoever pays the fee. */
  lemma BlockInvolves(b: Block, a: Address, id: string)
    ensures Involves(ContentOf(b), |b.txs|, a, id) <==>
              && a != ""
              && (exists k :: 0 <= k < |b.txs| && b.txs[k].id == id
                    && (b.txs[k].sender == a || b.txs[k].recipient == a
                        || (if b.txs[k].feePayer == "" then b.txs[k].sender else b.txs[k].feePayer) == a))
  {
    var c := ContentOf(b);
    assert forall k :: 0 <= k < |b.txs| ==> c.txs[k] == ViewOf(b.txs[k]);
  }

  ghost predicate ToldBy(ix: Index, contents: seq<Content>) {
    forall key :: key in ix.addresses ==>
      exists i, k :: 1 <= i < |contents| && 0 <= k < |contents[i].txs| && Tells(ix.addresses[key], key, contents[i], contents[i].txs[k])
  }

  lemma {:induction false} TxsToldBy(ix: Index, contents: seq<Content>, n: nat)
    requires |contents| > 1 && ToldBy(ix, contents) && n <= |contents[|contents| - 1].txs|
    ensures ToldBy(IndexTxs(ix, contents[|contents| - 1], n), contents)
  {
    hide IndexTx, Tells, HasEvent, Party;
    var last := |contents| - 1;
    var c := contents[last];
    if n > 0 {
      TxsToldBy(ix, contents, n - 1);
      var before := IndexTxs(ix, c, n - 1);
      var after := IndexTx(before, c, n - 1);
      forall key | key in after.addresses
        ensures exists i, k :: 1 <= i < |contents| && 0 <= k < |contents[i].txs|
                  && Tells(after.addresses[key], key, contents[i], contents[i].txs[k])
      {
        IndexTxTold(before, c, n - 1, key);
        if !(key in before.addresses && after.addresses[key] == before.addresses[key]) {
          assert Tells(after.addresses[key], key, contents[last], contents[last].txs[n - 1]);
        }
      }
    }
  }

  /** And every entry tells of such a transaction: role, other party, asset, amount and fee are its own. */
  lemma {:induction false} HistoryIsTrue(contents: seq<Content>)
    ensures ToldBy(IndexOf(contents), contents)
  {
    hide IndexTxs, Tells;
    if |contents| > 1 {
      var n := |contents| - 1;
      HistoryIsTrue(contents[..n]);
      var before := IndexOf(contents[..n]);
      forall key | key in before.addresses
        ensures exists i, k :: 1 <= i < |contents| && 0 <= k < |contents[i].txs|
                  && Tells(before.addresses[key], key, contents[i], contents[i].txs[k])
      {
        var i, k :| 1 <= i < n && 0 <= k < |contents[..n][i].txs| && Tells(before.addresses[key], key, contents[..n][i], contents[..n][i].txs[k]);
        assert contents[i] == contents[..n][i];
      }
      TxsToldBy(before, contents, |contents[n].txs|);
    }
  }

  /** What an entry says of a transaction of a block. */
  predicate TellsOf(e: History, key: HistoryKey, b: Block, tx: Transaction) {
    && key.height == e.blockHeight == b.height && e.blockHash == b.hash && key.txId == e.txId == tx.id && key.role == e.role
    && e.amount == tx.amount && e.fee == tx.fee
    && e.assetId == (if tx.assetId == "" then NATIVE_ASSET else tx.assetId)
    && (e.role == From ==> key.address == tx.sender && e.counterparty == tx.recipient)
    && (e.role == To ==> key.address == tx.recipient && e.counterparty == tx.sender)
    && (e.role == FeePayer ==> key.address == (if tx.feePayer == "" then tx.sender else tx.feePayer) && e.counterparty == tx.recipient)
  }

  /** So every entry of a chain's index tells of a transaction in one of its blocks. */
  lemma HistoryOfBlocks(blocks: seq<Block>, key: HistoryKey) returns (i: nat, k: nat)
    requires key in IndexOf(Contents(blocks)).addresses
    ensures 1 <= i < |blocks| && k < |blocks[i].txs|
    ensures TellsOf(IndexOf(Contents(blocks)).addresses[key], key, blocks[i], blocks[i].txs[k])
  {
    HistoryIsTrue(Contents(blocks));
    hide IndexOf;
    var contents := Contents(blocks);
    i, k :| 1 <= i < |contents| && 0 <= k < |contents[i].txs|
            && Tells(IndexOf(contents).addresses[key], key, contents[i], contents[i].txs[k]);
    assert contents[i] == ContentOf(blocks[i]) && contents[i].txs[k] == ViewOf(blocks[i].txs[k]);
  }

  ghost predicate MovesAsset(c: Content, n: nat, assetId: AssetId, id: string)
    requires n <= |c.txs|
  {
    exists k :: 0 <= k < n && c.txs[k].id == id && c.txs[k].assetId == assetId
  }

  lemma IndexTxAsset(ix: Index, c: Content, i: nat, key: AssetKey)
    requires i < |c.txs|
    ensures key in IndexTx(ix, c, i).assets <==>
              key in ix.assets || (key == AssetKey(c.txs[i].assetId, c.height, c.txs[i].id)
                                   && c.txs[i].assetId != "" && !Assets.IsNative(c.txs[i].assetId))
  {
    hide Assets.IsNative, HasEvent;
  }

  lemma {:induction false} IndexTxsAsset(ix: Index, c: Content, n: nat, assetId: AssetId, h: u64, id: string)
    requires n <= |c.txs|
    ensures AssetKey(assetId, h, id) in IndexTxs(ix, c, n).assets <==>
              AssetKey(assetId, h, id) in ix.assets
              || (h == c.height && assetId != "" && !Assets.IsNative(assetId) && MovesAsset(c, n, assetId, id))
  {
    hide IndexTx, Assets.IsNative;
    if n > 0 {
      IndexTxsAsset(ix, c, n - 1, assetId, h, id);
      IndexTxAsset(IndexTxs(ix, c, n - 1), c, n - 1, AssetKey(assetId, h, id));
    }
  }

  /** An issued asset has an event for exactly the transactions that name it; the native coin has none. */
  lemma {:induction false} AssetEventIffNamed(contents: seq<Content>, assetId: AssetId, h: u64, id: string)
    ensures AssetKey(assetId, h, id) in IndexOf(contents).assets <==>
              && assetId != "" && !Assets.IsNative(assetId)
              && exists i :: 1 <= i < |contents| && contents[i].height == h && MovesAsset(contents[i], |contents[i].txs|, assetId, id)
  {
    hide IndexTxs, MovesAsset, Assets.IsNative;
    if |contents| > 1 {
      var n := |contents| - 1;
      AssetEventIffNamed(contents[..n], assetId, h, id);
      IndexTxsAsset(IndexOf(contents[..n]), contents[n], |contents[n].txs|, assetId, h, id);
    }
  }

  // ---------------------------------------------------------------- address history

  /** A history entry repeats its key. */
  ghost predicate Consistent(ix: Index) {
    forall k :: k in ix.addresses ==>
      ix.addresses[k].txId == k.txId && ix.addresses[k].blockHeight == k.height && ix.addresses[k].role == k.role
  }

  lemma PutConsistent(ix: Index, c: Content, tx: TxView, role: Role)
    requires Consistent(ix)
    ensures Consistent(PutEvent(ix, c, tx, role))
  {
  }

  lemma SameAddresses(x: Index, y: Index)
    requires x.addresses == y.addresses
    ensures Consistent(x) <==> Consistent(y)
    ensures OneRole(x) <==> OneRole(y)
    ensures forall c, n :: FreeFrom(x, c, n) <==> FreeFrom(y, c, n)
  {
  }

  lemma TxConsistent(ix: Index, c: Content, i: nat)
    requires i < |c.txs| && Consistent(ix)
    ensures Consistent(IndexTx(ix, c, i))
  {
    hide Assets.IsNative, PutEvent, Consistent, OneRole, FreeFrom;
    var tx := c.txs[i];
    var listed := ix.(txs := ix.txs[tx.id := IndexedTx(tx, c.height, c.hash, i)]);
    SameAddresses(ix, listed);
    var sent := PutEvent(listed, c, tx, From);
    var told := PutEvent(sent, c, tx, To);
    PutConsistent(listed, c, tx, From);
    PutConsistent(sent, c, tx, To);
    PutConsistent(told, c, tx, FeePayer);
    SameAddresses(PutEvent(told, c, tx, FeePayer), IndexTx(ix, c, i));
  }

  lemma {:induction false} IndexTxsConsistent(ix: Index, c: Content, n: nat)
    requires n <= |c.txs| && Consistent(ix)
    ensures Consistent(IndexTxs(ix, c, n))
  {
    hide IndexTx, Consistent, OneRole, FreeFrom;
    if n > 0 {
      IndexTxsConsistent(ix, c, n - 1);
      TxConsistent(IndexTxs(ix, c, n - 1), c, n - 1);
    } else {
      SameAddresses(ix, IndexTxs(ix, c, 0));
    }
  }

  lemma {:induction false} IndexOfConsistent(contents: seq<Content>)
    ensures Consistent(IndexOf(contents))
  {
    hide IndexTxs, Consistent;
    if |contents| > 1 {
      var n := |contents| - 1;
      IndexOfConsistent(contents[..n]);
      IndexTxsConsistent(IndexOf(contents[..n]), contents[n], |contents[n].txs|);
    } else {
      EmptyConsistent();
    }
  }

  lemma EmptyConsistent()
    ensures Consistent(EMPTY_INDEX)
  {
  }

  /** No two transactions of one block share an id. */
  ghost predicate DistinctViews(c: Content) {
    forall i, j :: 0 <= i < j < |c.txs| ==> c.txs[i].id != c.txs[j].id
  }

  /** An address has at most one entry per transaction. */
  ghost predicate OneRole(ix: Index) {
    forall k, m :: k in ix.addresses && m in ix.addresses && k.address == m.address && k.height == m.height && k.txId == m.txId
      ==> k == m
  }

  /** Nothing of the given height with an id from index `n` on is in the index yet. */
  ghost predicate FreeFrom(ix: Index, c: Content, n: nat) {
    forall k :: k in ix.addresses ==> k.height <= c.height && (k.height == c.height ==> forall j :: n <= j < |c.txs| ==> k.txId != c.txs[j].id)
  }

  /** Keys an event can add. */
  predicate Adds(c: Content, tx: TxView, k: HistoryKey) {
    k.height == c.height && k.txId == tx.id && HasEvent(tx, k.role) && k.address == Party(tx, k.role)
  }

  lemma PutKeys(ix: Index, c: Content, tx: TxView, role: Role)
    ensures forall k :: k in PutEvent(ix, c, tx, role).addresses ==> k in ix.addresses || Adds(c, tx, k)
  {
  }

  lemma TxKeys(ix: Index, c: Content, i: nat)
    requires i < |c.txs|
    ensures forall k :: k in IndexTx(ix, c, i).addresses ==> k in ix.addresses || Adds(c, c.txs[i], k)
  {
    hide Assets.IsNative, PutEvent, Adds;
    var tx := c.txs[i];
    var listed := ix.(txs := ix.txs[tx.id := IndexedTx(tx, c.height, c.hash, i)]);
    var sent := PutEvent(listed, c, tx, From);
    PutKeys(listed, c, tx, From);
    PutKeys(sent, c, tx, To);
    PutKeys(PutEvent(sent, c, tx, To), c, tx, FeePayer);
  }

  lemma AddsNew(ix: Index, c: Content, i: nat)
    requires i < |c.txs| && FreeFrom(ix, c, i)
    ensures forall k, m :: k in ix.addresses && Adds(c, c.txs[i], m) ==> k.height != m.height || k.txId != m.txId
  {
  }

  lemma StaysFree(ix: Index, c: Content, i: nat)
    requires i < |c.txs| && DistinctViews(c) && FreeFrom(ix, c, i)
    ensures FreeFrom(IndexTx(ix, c, i), c, i + 1)
  {
    TxKeys(ix, c, i);
    hide IndexTx;
  }

  lemma OneMoreTx(ix: Index, c: Content, i: nat)
    requires i < |c.txs| && DistinctViews(c) && OneRole(ix) && FreeFrom(ix, c, i)
    ensures OneRole(IndexTx(ix, c, i)) && FreeFrom(IndexTx(ix, c, i), c, i + 1)
  {
    hide IndexTx, FreeFrom, DistinctViews;
    TxKeys(ix, c, i);
    StaysFree(ix, c, i);
    AddsNew(ix, c, i);
    var after := IndexTx(ix, c, i);
    forall k, m | k in after.addresses && m in after.addresses && k.address == m.address && k.height == m.height && k.txId == m.txId
      ensures k == m
    {
      assert (k in ix.addresses && m in ix.addresses) || (Adds(c, c.txs[i], k) && Adds(c, c.txs[i], m));
    }
  }

  lemma {:induction false} IndexTxsOneRole(ix: Index, c: Content, n: nat)
    requires n <= |c.txs| && DistinctViews(c) && OneRole(ix) && FreeFrom(ix, c, 0)
    ensures OneRole(IndexTxs(ix, c, n)) && FreeFrom(IndexTxs(ix, c, n), c, n)
  {
    hide OneRole, FreeFrom, IndexTx, DistinctViews, Consistent;
    if n > 0 {
      IndexTxsOneRole(ix, c, n - 1);
      OneMoreTx(IndexTxs(ix, c, n - 1), c, n - 1);
    } else {
      SameAddresses(ix, IndexTxs(ix, c, 0));
    }
  }

  ghost predicate Climbing(contents: seq<Content>) {
    forall i, j :: 0 <= i < j < |contents| ==> contents[i].height < contents[j].height
  }

  /** Over a chain without repeated ids inside a block, an address never has two entries for one
      transaction: paying oneself's fee or sending to oneself is one event. */
  lemma {:induction false} IndexOfOneRole(contents: seq<Content>)
    requires Climbing(contents) && forall i :: 1 <= i < |contents| ==> DistinctViews(contents[i])
    ensures OneRole(IndexOf(contents))
    ensures forall k :: k in IndexOf(contents).addresses ==>
              contents != [] && k.height <= contents[|contents| - 1].height
  {
    hide IndexTxs, OneRole, DistinctViews;
    if |contents| > 1 {
      var n := |contents| - 1;
      IndexOfOneRole(contents[..n]);
      assert contents[n - 1].height < contents[n].height;
      IndexTxsOneRole(IndexOf(contents[..n]), contents[n], |contents[n].txs|);
    } else {
      EmptyOneRole();
    }
  }

  lemma ViewsDiffer(b: Block)
    requires DistinctIds(b.txs)
    ensures DistinctViews(ContentOf(b))
  {
  }

  /** What the history of a valid chain satisfies, and paging relies on. */
  lemma HistoryHasNoRepeats(rules: Rules, blocks: seq<Block>)
    requires rules.WellFormed() && ValidChain(rules, blocks)
    ensures Consistent(IndexOf(Contents(blocks))) && OneRole(IndexOf(Contents(blocks)))
  {
    IndexOfConsistent(Contents(blocks));
    hide IndexOf, Consistent, OneRole, DistinctViews, ContentOf, DistinctIds, StoredChain, Rules.WellFormed;
    ValidIsLinear(rules, blocks);
    forall i | 1 <= i < |blocks|
      ensures DistinctViews(Contents(blocks)[i])
    {
      Preimages.BlockIdsDiffer(rules, blocks, i);
      ViewsDiffer(blocks[i]);
    }
    ContentsClimb(blocks);
    IndexOfOneRole(Contents(blocks));
  }

  lemma ValidIsLinear(rules: Rules, blocks: seq<Block>)
    requires rules.WellFormed() && ValidChain(rules, blocks)
    ensures Linear(blocks)
  {
    hide ValidBlock, DistinctIds, Contiguous, Rules.WellFormed, Linear;
    ContiguousIsLinear(rules, blocks);
  }

  lemma ContentsClimb(blocks: seq<Block>)
    requires Linear(blocks)
    ensures Climbing(Contents(blocks))
  {
    hide LinkedAt;
    assert forall i :: 0 <= i < |blocks| ==> Contents(blocks)[i].height == i;
  }

  lemma EmptyOneRole()
    ensures OneRole(EMPTY_INDEX)
  {
  }

  /** Higher blocks first, larger ids first within a block. */
  predicate Newer(a: History, b: History) {
    a.blockHeight > b.blockHeight || (a.blockHeight == b.blockHeight && Text.Less(b.txId, a.txId))
  }

  /** The keys of `left`, each once. */
  ghost predicate Enumerates(left: set<HistoryKey>, keys: seq<HistoryKey>) {
    && (forall k :: k in keys <==> k in left)
    && (forall i, j :: 0 <= i < j < |keys| ==> keys[i] != keys[j])
  }

  ghost predicate NewestFirst(ix: Index, keys: seq<HistoryKey>) {
    forall i, j :: 0 <= i < j < |keys| && keys[i] in ix.addresses && keys[j] in ix.addresses ==>
      !Newer(ix.addresses[keys[j]], ix.addresses[keys[i]])
  }

  ghost predicate Listed(ix: Index, left: set<HistoryKey>, keys: seq<HistoryKey>) {
    left <= ix.addresses.Keys && Enumerates(left, keys) && NewestFirst(ix, keys)
  }

  lemma {:induction false} EnumeratesAll(left: set<HistoryKey>, keys: seq<HistoryKey>)
    requires Enumerates(left, keys)
    ensures |keys| == |left|
  {
    if keys == [] {
      assert left == {};
    } else {
      assert keys[0] in keys && keys == [keys[0]] + keys[1..];
      EnumeratesTail(left, keys);
      EnumeratesAll(left - {keys[0]}, keys[1..]);
    }
  }

  lemma EnumeratesTail(left: set<HistoryKey>, keys: seq<HistoryKey>)
    requires Enumerates(left, keys) && keys != []
    ensures Enumerates(left - {keys[0]}, keys[1..])
  {
    assert keys == [keys[0]] + keys[1..];
    forall k
      ensures k in keys[1..] <==> k in left - {keys[0]}
    {
      if k in keys[1..] {
        var i :| 0 <= i < |keys[1..]| && keys[1..][i] == k;
        assert keys[i + 1] == k && keys[0] != keys[i + 1];
      }
    }
  }

  function KeysOf(ix: Index, a: Address): set<HistoryKey> {
    set k | k in ix.addresses && k.address == a
  }

  lemma SameMoment(ix: Index, a: Address, k: HistoryKey, m: HistoryKey)
    requires Consistent(ix) && OneRole(ix) && k in KeysOf(ix, a) && m in KeysOf(ix, a)
    requires !Newer(ix.addresses[k], ix.addresses[m]) && !Newer(ix.addresses[m], ix.addresses[k])
    ensures k == m
  {
    Text.LessIsStrictTotalOrder(k.txId, m.txId);
    hide Text.Less;
  }

  lemma SameNewest(ix: Index, a: Address, left: set<HistoryKey>, x: seq<HistoryKey>, y: seq<HistoryKey>)
    requires Consistent(ix) && OneRole(ix) && left <= KeysOf(ix, a) && Listed(ix, left, x) && Listed(ix, left, y)
    requires x != [] && y != []
    ensures x[0] == y[0]
  {
    hide Consistent, OneRole, Newer;
    assert x[0] in x && y[0] in y;
    var j :| 0 <= j < |y| && y[j] == x[0];
    var i :| 0 <= i < |x| && x[i] == y[0];
    NotNewerItself(ix.addresses[x[0]]);
    SameMoment(ix, a, x[0], y[0]);
  }

  /** There is only one newest-first listing, so pages taken at different times agree. */
  lemma {:induction false} ListingIsUnique(ix: Index, a: Address, left: set<HistoryKey>, x: seq<HistoryKey>, y: seq<HistoryKey>)
    requires Consistent(ix) && OneRole(ix) && left <= KeysOf(ix, a) && Listed(ix, left, x) && Listed(ix, left, y)
    ensures x == y
    decreases |x|
  {
    hide Consistent, OneRole, NewestFirst, KeysOf;
    EnumeratesAll(left, x);
    EnumeratesAll(left, y);
    if x != [] {
      SameNewest(ix, a, left, x, y);
      ListedTail(ix, left, x);
      ListedTail(ix, left, y);
      hide Listed;
      ListingIsUnique(ix, a, left - {x[0]}, x[1..], y[1..]);
      assert x == [x[0]] + x[1..] && y == [y[0]] + y[1..];
    }
  }

  lemma NotNewerItself(e: History)
    ensures !Newer(e, e)
  {
    Text.LessIsStrictTotalOrder(e.txId, e.txId);
  }

  lemma ListedTail(ix: Index, left: set<HistoryKey>, keys: seq<HistoryKey>)
    requires Listed(ix, left, keys) && keys != []
    ensures Listed(ix, left - {keys[0]}, keys[1..])
  {
    EnumeratesTail(left, keys);
    hide Newer, Enumerates;
  }

  method InsertNewest(ix: Index, ghost left: set<HistoryKey>, keys: seq<HistoryKey>, k: HistoryKey) returns (more: seq<HistoryKey>)
    requires Listed(ix, left, keys) && k in ix.addresses && k !in left
    ensures Listed(ix, left + {k}, more)
  {
    hide Newer;
    var i: int := |keys|;
    AllKnown(ix, left, keys);
    while i > 0 && Newer(ix.addresses[k], ix.addresses[keys[i - 1]])
      invariant 0 <= i <= |keys|
      invariant forall j :: i <= j < |keys| ==> Newer(ix.addresses[k], ix.addresses[keys[j]])
    {
      i := i - 1;
    }
    more := keys[..i] + [k] + keys[i..];
    InsertedListed(ix, left, keys, k, i);
  }

  lemma AllKnown(ix: Index, left: set<HistoryKey>, keys: seq<HistoryKey>)
    requires Listed(ix, left, keys)
    ensures forall i :: 0 <= i < |keys| ==> keys[i] in ix.addresses
  {
    hide Newer;
    assert forall i :: 0 <= i < |keys| ==> keys[i] in keys;
  }

  lemma NewerOrder(a: History, b: History, c: History)
    ensures !Newer(b, a) && !Newer(c, b) ==> !Newer(c, a)
    ensures Newer(a, b) ==> !Newer(b, a)
  {
    Text.LessIsStrictTotalOrder(a.txId, b.txId);
    Text.LessIsStrictTotalOrder(b.txId, c.txId);
    Text.LessIsStrictTotalOrder(a.txId, c.txId);
    hide Text.Less;
    if Text.Less(b.txId, a.txId) && Text.Less(a.txId, c.txId) {
      Text.LessTransitive(b.txId, a.txId, c.txId);
    }
    if Text.Less(a.txId, c.txId) && Text.Less(c.txId, b.txId) {
      Text.LessTransitive(a.txId, c.txId, b.txId);
    }
  }

  lemma InsertedEnumerates(left: set<HistoryKey>, keys: seq<HistoryKey>, k: HistoryKey, i: nat)
    requires Enumerates(left, keys) && k !in left && i <= |keys|
    ensures Enumerates(left + {k}, keys[..i] + [k] + keys[i..])
  {
    var more := keys[..i] + [k] + keys[i..];
    assert keys == keys[..i] + keys[i..];
    assert forall x :: x in more <==> x in keys || x == k;
    assert forall j :: 0 <= j < |keys| ==> keys[j] in keys;
  }

  lemma InsertedListed(ix: Index, left: set<HistoryKey>, keys: seq<HistoryKey>, k: HistoryKey, i: nat)
    requires Listed(ix, left, keys) && k in ix.addresses && k !in left && i <= |keys|
    requires forall j :: 0 <= j < |keys| ==> keys[j] in ix.addresses
    requires forall j :: i <= j < |keys| ==> Newer(ix.addresses[k], ix.addresses[keys[j]])
    requires i > 0 ==> !Newer(ix.addresses[k], ix.addresses[keys[i - 1]])
    ensures Listed(ix, left + {k}, keys[..i] + [k] + keys[i..])
  {
    hide Newer;
    InsertedEnumerates(left, keys, k, i);
    hide Enumerates;
    forall j | 0 <= j < |keys|
      ensures j < i ==> !Newer(ix.addresses[k], ix.addresses[keys[j]])
      ensures j >= i ==> !Newer(ix.addresses[keys[j]], ix.addresses[k])
    {
      if j < i - 1 {
        NewerOrder(ix.addresses[keys[j]], ix.addresses[keys[i - 1]], ix.addresses[k]);
      }
      NewerOrder(ix.addresses[k], ix.addresses[keys[j]], ix.addresses[k]);
    }
  }

  /** A slice of the listing: empty beyond the end, shorter at the end. */
  function Page(keys: seq<HistoryKey>, offset: nat, limit: nat): seq<HistoryKey> {
    var start := Min(offset, |keys|);
    keys[start..Min(start + limit, |keys|)]
  }

  /** The page at `offset` of the newest-first listing of an address's entries. */
  ghost predicate IsPage(ix: Index, a: Address, offset: nat, limit: nat, page: seq<History>) {
    exists keys :: Listed(ix, KeysOf(ix, a), keys) && Shows(ix, Page(keys, offset, limit), page)
  }

  ghost predicate Shows(ix: Index, keys: seq<HistoryKey>, page: seq<History>) {
    |page| == |keys| && forall i :: 0 <= i < |keys| ==> keys[i] in ix.addresses && page[i] == ix.addresses[keys[i]]
  }

  /** One page of an address's history: all matching entries are collected, in any order, sorted and
      sliced. */
  method AddressHistory(ix: Index, a: Address, limit: nat, offset: nat) returns (page: seq<History>, total: nat)
    ensures IsPage(ix, a, offset, limit, page) && total == |KeysOf(ix, a)|
  {
    hide Newer, NewestFirst, Enumerates;
    var keys: seq<HistoryKey> := [];
    var todo := KeysOf(ix, a);
    ghost var done: set<HistoryKey> := {};
    NothingListed(ix);
    while todo != {}
      invariant todo <= KeysOf(ix, a) && done == KeysOf(ix, a) - todo
      invariant Listed(ix, done, keys)
      decreases |todo|
    {
      var k :| k in todo;
      todo := todo - {k};
      keys := InsertNewest(ix, done, keys, k);
      done := done + {k};
    }
    assert done == KeysOf(ix, a);
    AllKnown(ix, done, keys);
    EnumeratesAll(done, keys);
    total := |keys|;
    var start := if offset > total then total else offset;
    var end := if start + limit > total then total else start + limit;
    var slice := keys[start..end];
    assert slice == Page(keys, offset, limit);
    page := seq(|slice|, i requires 0 <= i < |slice| => ix.addresses[slice[i]]);
  }

  lemma NothingListed(ix: Index)
    ensures Listed(ix, {}, [])
  {
  }

  /** A page goes down in height, and down in id within a height. */
  lemma PageGoesDown(ix: Index, a: Address, offset: nat, limit: nat, page: seq<History>, i: nat, j: nat)
    requires IsPage(ix, a, offset, limit, page) && i < j < |page|
    ensures page[i].blockHeight >= page[j].blockHeight
    ensures page[i].blockHeight == page[j].blockHeight ==> !Text.Less(page[i].txId, page[j].txId)
  {
    hide Text.Less;
    var keys :| Listed(ix, KeysOf(ix, a), keys) && Shows(ix, Page(keys, offset, limit), page);
    var shown := Page(keys, offset, limit);
    var start := Min(offset, |keys|);
    assert shown[i] == keys[start + i] && shown[j] == keys[start + j];
    assert !Newer(ix.addresses[keys[start + j]], ix.addresses[keys[start + i]]);
  }

  /** Pages 0, 1, ..., n - 1 of the given size. */
  function Pages(keys: seq<HistoryKey>, limit: nat, n: nat): seq<HistoryKey> {
    if n == 0 then [] else Pages(keys, limit, n - 1) + Page(keys, (n - 1) * limit, limit)
  }

  /** Concatenated pages are the listing from its start, so enough of them give every event exactly
      once, newest first. */
  lemma {:induction false} PagesAreThePrefix(keys: seq<HistoryKey>, limit: nat, n: nat)
    ensures Pages(keys, limit, n) == keys[..Min(n * limit, |keys|)]
  {
    if n > 0 {
      PagesAreThePrefix(keys, limit, n - 1);
      assert n * limit == (n - 1) * limit + limit;
    }
  }

  lemma EnoughPages(keys: seq<HistoryKey>, limit: nat, n: nat)
    requires n * limit >= |keys|
    ensures Pages(keys, limit, n) == keys
  {
    PagesAreThePrefix(keys, limit, n);
  }

  function Concat(pages: seq<seq<History>>): seq<History> {
    if pages == [] then [] else Concat(pages[..|pages| - 1]) + pages[|pages| - 1]
  }

  /** Every returned page is a page of the one listing. */
  lemma PageOfListing(ix: Index, a: Address, keys: seq<HistoryKey>, offset: nat, limit: nat, page: seq<History>)
    requires Consistent(ix) && OneRole(ix) && Listed(ix, KeysOf(ix, a), keys) && IsPage(ix, a, offset, limit, page)
    ensures Shows(ix, Page(keys, offset, limit), page)
  {
    hide Consistent, OneRole, Listed, Shows, Page;
    var other :| Listed(ix, KeysOf(ix, a), other) && Shows(ix, Page(other, offset, limit), page);
    ListingIsUnique(ix, a, KeysOf(ix, a), keys, other);
  }

  lemma ShowsBoth(ix: Index, x: seq<HistoryKey>, y: seq<HistoryKey>, p: seq<History>, q: seq<History>)
    requires Shows(ix, x, p) && Shows(ix, y, q)
    ensures Shows(ix, x + y, p + q)
  {
  }

  lemma {:induction false} PagesShow(ix: Index, a: Address, keys: seq<HistoryKey>, limit: nat, pages: seq<seq<History>>)
    requires Consistent(ix) && OneRole(ix) && Listed(ix, KeysOf(ix, a), keys)
    requires forall k :: 0 <= k < |pages| ==> IsPage(ix, a, k * limit, limit, pages[k])
    ensures Shows(ix, Pages(keys, limit, |pages|), Concat(pages))
  {
    hide Consistent, OneRole, Listed, IsPage, Page;
    if pages != [] {
      var n := |pages| - 1;
      hide Shows;
      PagesShow(ix, a, keys, limit, pages[..n]);
      PageOfListing(ix, a, keys, n * limit, limit, pages[n]);
      ShowsBoth(ix, Pages(keys, limit, n), Page(keys, n * limit, limit), Concat(pages[..n]), pages[n]);
    }
  }

  /** Pages fetched one after another, each from a listing of its own, put together give every entry of
      the address exactly once, newest first. */
  lemma PagesCoverHistory(ix: Index, a: Address, limit: nat, pages: seq<seq<History>>)
    requires Consistent(ix) && OneRole(ix) && pages != [] && |pages| * limit >= |KeysOf(ix, a)|
    requires forall k :: 0 <= k < |pages| ==> IsPage(ix, a, k * limit, limit, pages[k])
    ensures exists keys :: Listed(ix, KeysOf(ix, a), keys) && Shows(ix, keys, Concat(pages))
  {
    assert IsPage(ix, a, 0 * limit, limit, pages[0]);
    var keys :| Listed(ix, KeysOf(ix, a), keys) && Shows(ix, Page(keys, 0 * limit, limit), pages[0]);
    EnumeratesAll(KeysOf(ix, a), keys);
    hide Consistent, OneRole, Listed, IsPage, Page, Shows;
    PagesShow(ix, a, keys, limit, pages);
    EnoughPages(keys, limit, |pages|);
  }
}
