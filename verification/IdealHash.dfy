/** One oracle with collision-free hashes: packing a list of fields into one string loses nothing. It shows
    that the hypotheses about hashes, and the inputs of `Witnesses`, occur together. */
module IdealHash {
  import opened Arith
  import opened Types
  import opened Chains
  import Amounts
  import Merkle
  import Preimages
  import Text
  import Witnesses

  function Unary(n: nat): (s: string)
    ensures |s| == n && forall i :: 0 <= i < n ==> s[i] == '0'
  {
    seq(n, _ => '0')
  }

  /** Every field after its length and a mark. */
  function Pack(fields: seq<string>): string {
    if fields == [] then ""
    else Unary(|fields[0]|) + "1" + fields[0] + Pack(fields[1..])
  }

  lemma FirstMark(m: nat, n: nat, x: string, y: string)
    requires Unary(m) + "1" + x == Unary(n) + "1" + y
    ensures m == n && x == y
  {
    var s, t := Unary(m) + "1" + x, Unary(n) + "1" + y;
    assert s[m] == '1' && t[n] == '1';
    assert forall i :: 0 <= i < m ==> s[i] == '0';
    assert forall i :: 0 <= i < n ==> t[i] == '0';
    assert s[m + 1..] == x && t[n + 1..] == y;
  }

  lemma {:induction false} PackTells(x: seq<string>, y: seq<string>)
    requires Pack(x) == Pack(y)
    ensures x == y
  {
    if x != [] && y != [] {
      var p, q := x[0] + Pack(x[1..]), y[0] + Pack(y[1..]);
      assert Pack(x) == Unary(|x[0]|) + "1" + p && Pack(y) == Unary(|y[0]|) + "1" + q;
      FirstMark(|x[0]|, |y[0]|, p, q);
      assert p[..|x[0]|] == x[0] && q[..|y[0]|] == y[0];
      assert p[|x[0]|..] == Pack(x[1..]) && q[|y[0]|..] == Pack(y[1..]);
      PackTells(x[1..], y[1..]);
      assert x == [x[0]] + x[1..] && y == [y[0]] + y[1..];
    }
  }

  // ---------------------------------------------------------------- fields as strings

  function Flag(b: bool): string {
    if b then "1" else "0"
  }

  function Number(n: nat): string {
    Amounts.Shown(n)
  }

  lemma NumberTells(m: nat, n: nat)
    requires Number(m) == Number(n)
    ensures m == n
  {
    assert Amounts.ValueOf(Number(m)) == m && Amounts.ValueOf(Number(n)) == n;
  }

  function Signed(i: int): string {
    if i < 0 then "-" + Number(-i) else "+" + Number(i)
  }

  lemma SignedTells(i: int, j: int)
    requires Signed(i) == Signed(j)
    ensures i == j
  {
    assert Signed(i)[0] == Signed(j)[0];
    assert Signed(i)[1..] == Signed(j)[1..];
    if i < 0 {
      NumberTells(-i, -j);
    } else {
      NumberTells(i, j);
    }
  }

  function KindMark(k: TxKind): string {
    match k
    case Untyped => ""
    case Transfer => "t"
    case Coinbase => "c"
    case StakeLock => "l"
    case StakeUnlock => "u"
    case AssetCreate => "a"
    case AssetMint => "m"
    case AssetBurn => "b"
    case Unsupported => "x"
  }

  lemma KindTells(k: TxKind, m: TxKind)
    requires KindMark(k) == KindMark(m)
    ensures k == m
  {
  }

  /** What a transaction moves, by whom and when. */
  function MoveFields(tx: Transaction): seq<string> {
    [tx.sender, tx.recipient, Number(tx.amount), Number(tx.fee), Number(tx.nonce), Signed(tx.timestamp), Flag(tx.coinbase),
     KindMark(tx.rawKind), Number(tx.version), tx.id, tx.signature, tx.publicKey, tx.stakeId]
  }

  function TokenFields(tx: Transaction): seq<string> {
    [tx.assetId, tx.feePayer, tx.feePayerKey, tx.feePayerSignature, tx.assetName, tx.assetSymbol, Number(tx.assetDecimals),
     Number(tx.assetMaxSupply), Flag(tx.assetMintable), Flag(tx.assetBurnable), Flag(tx.assetPausable),
     Flag(tx.assetPermissioned)]
  }

  lemma MoveTells(t: Transaction, u: Transaction)
    requires MoveFields(t) == MoveFields(u)
    ensures t.sender == u.sender && t.recipient == u.recipient && t.amount == u.amount && t.fee == u.fee && t.nonce == u.nonce
    ensures t.timestamp == u.timestamp && t.coinbase == u.coinbase && t.rawKind == u.rawKind && t.version == u.version
    ensures t.id == u.id && t.signature == u.signature && t.publicKey == u.publicKey && t.stakeId == u.stakeId
  {
    hide Number, Signed, Flag, KindMark;
    var x, y := MoveFields(t), MoveFields(u);
    assert x[0] == y[0] && x[1] == y[1] && x[2] == y[2] && x[3] == y[3] && x[4] == y[4] && x[5] == y[5] && x[6] == y[6];
    assert x[7] == y[7] && x[8] == y[8] && x[9] == y[9] && x[10] == y[10] && x[11] == y[11] && x[12] == y[12];
    NumberTells(t.amount, u.amount);
    NumberTells(t.fee, u.fee);
    NumberTells(t.nonce, u.nonce);
    NumberTells(t.version, u.version);
    SignedTells(t.timestamp, u.timestamp);
    KindTells(t.rawKind, u.rawKind);
    FlagTells(t.coinbase, u.coinbase);
  }

  lemma FlagTells(b: bool, c: bool)
    requires Flag(b) == Flag(c)
    ensures b == c
  {
    assert Flag(b)[0] == Flag(c)[0];
  }

  lemma TokenTells(t: Transaction, u: Transaction)
    requires TokenFields(t) == TokenFields(u)
    ensures t.assetId == u.assetId && t.feePayer == u.feePayer && t.feePayerKey == u.feePayerKey
    ensures t.feePayerSignature == u.feePayerSignature && t.assetName == u.assetName && t.assetSymbol == u.assetSymbol
    ensures t.assetDecimals == u.assetDecimals && t.assetMaxSupply == u.assetMaxSupply && t.assetMintable == u.assetMintable
    ensures t.assetBurnable == u.assetBurnable && t.assetPausable == u.assetPausable
    ensures t.assetPermissioned == u.assetPermissioned
  {
    hide Number, Flag;
    var x, y := TokenFields(t), TokenFields(u);
    assert x[0] == y[0] && x[1] == y[1] && x[2] == y[2] && x[3] == y[3] && x[4] == y[4] && x[5] == y[5] && x[6] == y[6];
    assert x[7] == y[7] && x[8] == y[8] && x[9] == y[9] && x[10] == y[10] && x[11] == y[11];
    NumberTells(t.assetDecimals, u.assetDecimals);
    NumberTells(t.assetMaxSupply, u.assetMaxSupply);
    FlagTells(t.assetMintable, u.assetMintable);
    FlagTells(t.assetBurnable, u.assetBurnable);
    FlagTells(t.assetPausable, u.assetPausable);
    FlagTells(t.assetPermissioned, u.assetPermissioned);
  }

  function AssetStrings(a: Preimages.AssetFields): seq<string> {
    [a.assetId, a.feePayer, a.name, a.symbol, Number(a.decimals), Number(a.maxSupply), Flag(a.mintable), Flag(a.burnable),
     Flag(a.pausable), Flag(a.permissioned)]
  }

  lemma AssetTells(a: Preimages.AssetFields, b: Preimages.AssetFields)
    requires AssetStrings(a) == AssetStrings(b)
    ensures a == b
  {
    hide Number, Flag;
    var x, y := AssetStrings(a), AssetStrings(b);
    assert x[0] == y[0] && x[1] == y[1] && x[2] == y[2] && x[3] == y[3] && x[4] == y[4];
    assert x[5] == y[5] && x[6] == y[6] && x[7] == y[7] && x[8] == y[8] && x[9] == y[9];
    NumberTells(a.decimals, b.decimals);
    NumberTells(a.maxSupply, b.maxSupply);
    FlagTells(a.mintable, b.mintable);
    FlagTells(a.burnable, b.burnable);
    FlagTells(a.pausable, b.pausable);
    FlagTells(a.permissioned, b.permissioned);
  }

  function BodyFields(p: Preimages.Preimage): seq<string>
    requires p.Canonical?
  {
    [KindMark(p.kind), Flag(p.coinbase), p.sender, p.recipient, Number(p.amount), Number(p.fee), Number(p.nonce),
     Signed(p.timestamp), p.publicKey, p.stakeId]
  }

  lemma BodyTells(p: Preimages.Preimage, q: Preimages.Preimage)
    requires p.Canonical? && q.Canonical? && BodyFields(p) == BodyFields(q)
    ensures p == q.(assetFields := p.assetFields)
  {
    hide Number, Signed, Flag, KindMark;
    var x, y := BodyFields(p), BodyFields(q);
    assert x[0] == y[0] && x[1] == y[1] && x[2] == y[2] && x[3] == y[3] && x[4] == y[4];
    assert x[5] == y[5] && x[6] == y[6] && x[7] == y[7] && x[8] == y[8] && x[9] == y[9];
    KindTells(p.kind, q.kind);
    FlagTells(p.coinbase, q.coinbase);
    NumberTells(p.amount, q.amount);
    NumberTells(p.fee, q.fee);
    NumberTells(p.nonce, q.nonce);
    SignedTells(p.timestamp, q.timestamp);
  }

  function PreimageFields(p: Preimages.Preimage): seq<string> {
    match p
    case Json(tx) => MoveFields(tx) + TokenFields(tx)
    case Canonical(_, _, _, _, _, _, _, _, _, _, a) =>
      BodyFields(p) + (match a case Some(f) => AssetStrings(f) case None => [])
  }

  lemma PreimageTells(p: Preimages.Preimage, q: Preimages.Preimage)
    requires PreimageFields(p) == PreimageFields(q)
    ensures p == q
  {
    hide MoveFields, TokenFields, BodyFields, AssetStrings;
    FieldCounts(p);
    FieldCounts(q);
    var x, y := PreimageFields(p), PreimageFields(q);
    if p.Json? {
      assert x[..13] == MoveFields(p.tx) && y[..13] == MoveFields(q.tx);
      assert x[13..] == TokenFields(p.tx) && y[13..] == TokenFields(q.tx);
      MoveTells(p.tx, q.tx);
      TokenTells(p.tx, q.tx);
    } else {
      assert x[..10] == BodyFields(p) && y[..10] == BodyFields(q);
      BodyTells(p, q);
      if p.assetFields.Some? {
        assert x[10..] == AssetStrings(p.assetFields.value) && y[10..] == AssetStrings(q.assetFields.value);
        AssetTells(p.assetFields.value, q.assetFields.value);
      }
    }
  }

  /** The number of fields tells the forms apart: 25, 20 and 10. */
  lemma FieldCounts(p: Preimages.Preimage)
    ensures p.Json? ==> |MoveFields(p.tx)| == 13 && |TokenFields(p.tx)| == 12 && |PreimageFields(p)| == 25
    ensures p.Canonical? ==> |BodyFields(p)| == 10
    ensures p.Canonical? && p.assetFields.Some? ==> |AssetStrings(p.assetFields.value)| == 10 && |PreimageFields(p)| == 20
    ensures p.Canonical? && p.assetFields.None? ==> |PreimageFields(p)| == 10
  {
  }

  // ---------------------------------------------------------------- the oracle

  function IdOf(tx: Transaction): Option<string> {
    var p := Preimages.PreimageOf(tx);
    if p.None? then None else Some("t" + Pack(PreimageFields(p.value)))
  }

  function PairHash(a: string, b: string): string {
    "n" + Pack([a, b])
  }

  const NODE: Merkle.Node := (a, b) => PairHash(a, b)

  /** Pre-canonical headers; four zeros are all the work there is. */
  function HeaderHash(b: Block): Hash {
    "0000" + Pack([Number(b.height), b.previousHash, Signed(b.timestamp), Number(b.nonce), Number(b.difficulty), b.miner,
                   b.merkleRoot, b.genesisMarker])
  }

  predicate Target(h: Hash, d: nat) {
    d <= |h| && forall i :: 0 <= i < d ==> h[i] == '0'
  }

  function RootOf(txs: seq<Transaction>): Hash {
    Merkle.Root(NODE, Preimages.Ids(txs))
  }

  const ORACLE: Oracle :=
    Oracle(a => a == "alice" || a == "bob", (tx: Transaction) => IdOf(tx), tx => true, tx => true, tx => None, tx => 0, b => 0,
           (b: Block) => HeaderHash(b), (txs: seq<Transaction>) => RootOf(txs), (h: Hash, d: nat) => Target(h, d))

  const ENV: Env := Env(Witnesses.PROFILE, ORACLE)

  function Sealed(b: Block): Block {
    b.(hash := HashOf(ENV, b))
  }

  const GENESIS: Block := Sealed(Block(1, 0, "", 0, 0, 0, "", [], RootOf([]), "", "", ""))
  const RULES: Rules := Rules(ENV, GENESIS, 0, s => "r")

  lemma IdsTell()
    ensures Preimages.IdsName(ENV) && Preimages.IdsFollow(ENV)
  {
    hide Preimages.PreimageOf, PreimageFields, Pack;
    forall t: Transaction, u: Transaction | IdOf(t).Some? && IdOf(t) == IdOf(u)
      ensures Preimages.PreimageOf(t).Some? && Preimages.PreimageOf(t) == Preimages.PreimageOf(u)
    {
      var p, q := Preimages.PreimageOf(t).value, Preimages.PreimageOf(u).value;
      assert ("t" + Pack(PreimageFields(p)))[1..] == Pack(PreimageFields(p));
      assert ("t" + Pack(PreimageFields(q)))[1..] == Pack(PreimageFields(q));
      PackTells(PreimageFields(p), PreimageFields(q));
      PreimageTells(p, q);
    }
  }

  lemma PairsTell(a: string, b: string, c: string, d: string)
    requires PairHash(a, b) == PairHash(c, d)
    ensures a == c && b == d
  {
    hide Pack;
    assert PairHash(a, b)[1..] == Pack([a, b]) && PairHash(c, d)[1..] == Pack([c, d]);
    PackTells([a, b], [c, d]);
    assert [a, b][0] == [c, d][0] && [a, b][1] == [c, d][1];
  }

  lemma RootsTell(used: set<Merkle.Pair>)
    ensures Preimages.RootsName(ENV, Merkle.Hashing(NODE, used))
  {
    hide Merkle.Root, Pack, PreimageFields, Preimages.PreimageOf;
    var h := Merkle.Hashing(NODE, used);
    forall p, q | p in used && q in used && p.Hash(NODE) == q.Hash(NODE)
      ensures p == q
    {
      PairsTell(p.left, p.right, q.left, q.right);
    }
    forall tx | IdOf(tx).Some?
      ensures Merkle.Leaf(h, IdOf(tx).value)
    {
      assert forall p :: p in used ==> p.Hash(NODE)[0] == 'n' && IdOf(tx).value[0] == 't';
    }
  }

  /** Equal block hashes have equal header contents. */
  lemma HeadersTell(b: Block, c: Block)
    requires HashOf(ENV, b) == HashOf(ENV, c)
    ensures b.height == c.height && b.previousHash == c.previousHash && b.timestamp == c.timestamp
    ensures b.merkleRoot == c.merkleRoot
  {
    hide Pack, Number, Signed;
    var x := [Number(b.height), b.previousHash, Signed(b.timestamp), Number(b.nonce), Number(b.difficulty), b.miner,
              b.merkleRoot, b.genesisMarker];
    var y := [Number(c.height), c.previousHash, Signed(c.timestamp), Number(c.nonce), Number(c.difficulty), c.miner,
              c.merkleRoot, c.genesisMarker];
    assert HashOf(ENV, b) == "0000" + Pack(x) && HashOf(ENV, c) == "0000" + Pack(y);
    assert ("0000" + Pack(x))[4..] == Pack(x) && ("0000" + Pack(y))[4..] == Pack(y);
    PackTells(x, y);
    assert x[0] == y[0] && x[1] == y[1] && x[2] == y[2] && x[6] == y[6];
    NumberTells(b.height, c.height);
    SignedTells(b.timestamp, c.timestamp);
  }

  lemma MeetsTarget(b: Block)
    ensures Target(HashOf(ENV, b), 4) && HashOf(ENV, b) != ""
  {
    hide Pack, Number, Signed;
    var h := HashOf(ENV, b);
    assert h[0] == '0' && h[1] == '0' && h[2] == '0' && h[3] == '0';
  }

  /** The setting of `Witnesses` occurs with hashes that tell everything apart. */
  lemma SettingHolds(used: set<Merkle.Pair>)
    ensures Witnesses.Setting(RULES) && Preimages.RootsName(ENV, Merkle.Hashing(NODE, used))
  {
    IdsTell();
    RootsTell(used);
    assert Text.TrimLeft("alice") == "alice" && Text.TrimLeft("bob") == "bob";
    hide Preimages.IdsName, Preimages.IdsFollow, Preimages.RootsName, Merkle.Root, HeaderHash;
    forall b
      ensures HashOf(ENV, b) != ""
    {
      MeetsTarget(b);
    }
    assert GENESIS.hash == HashOf(ENV, GENESIS);
  }

  // ---------------------------------------------------------------- inputs

  /** The transaction under its id. */
  function Named(tx: Transaction): Transaction {
    tx.(id := if IdOf(tx).Some? then IdOf(tx).value else "")
  }

  lemma NamedHasId(tx: Transaction)
    requires 1 <= tx.ProtocolVersion() <= 3
    ensures IdOf(Named(tx)) == Some(Named(tx).id) && Named(tx).id != ""
    ensures Named(tx) == tx.(id := Named(tx).id)
  {
    PreimageIgnoresId(tx, Named(tx).id);
    assert Named(tx) == tx.(id := Named(tx).id);
    hide Pack, PreimageFields, Preimages.PreimageOf;
  }

  lemma PreimageIgnoresId(tx: Transaction, id: string)
    ensures Preimages.PreimageOf(tx.(id := id)) == Preimages.PreimageOf(tx)
    ensures 1 <= tx.ProtocolVersion() <= 3 ==> Preimages.PreimageOf(tx).Some?
  {
  }

  function Coinbase(to: Address): Transaction {
    Named(Transaction(2, "", COINBASE_SENDER, to, Witnesses.SUBSIDY, 0, 0, 0, "", "", true, TxKind.Coinbase,
                      "", "", "", "", "", "", "", 0, 0, false, false, false, false))
  }

  const PAYMENT: Transaction :=
    Named(Transaction(1, "", "alice", "bob", 1, 1, 1, 0, "", "", false, Transfer,
                      "", "", "", "", "", "", "", 0, 0, false, false, false, false))
  const LOCK: Transaction :=
    Named(Transaction(1, "", "alice", "alice", 1, 0, 1, 0, "", "", false, StakeLock,
                      "", "", "", "", "", "", "", 0, 0, false, false, false, false))

  function MinedOn(parent: Block, txs: seq<Transaction>, stateRoot: Hash): Block
    requires parent.height < MAX_U64
  {
    Sealed(Block(1, parent.height + 1, parent.hash, 0, 0, 4, "alice", txs, RootOf(txs), stateRoot, "", ""))
  }

  lemma MinedOnIsMined(parent: Block, txs: seq<Transaction>, stateRoot: Hash)
    requires parent.height < MAX_U64 && |txs| <= 2
    ensures Witnesses.Mined(RULES, parent, MinedOn(parent, txs, stateRoot))
    ensures MinedOn(parent, txs, stateRoot).txs == txs && MinedOn(parent, txs, stateRoot).stateRoot == stateRoot
  {
    var b := MinedOn(parent, txs, stateRoot);
    MeetsTarget(b);
    hide HeaderHash, Merkle.Root, Target;
    assert b.hash == HashOf(ENV, b);
  }

  lemma CoinbasePays(to: Address)
    requires to == "alice" || to == "bob"
    ensures Witnesses.Pays(ENV, Coinbase(to), to) && Coinbase(to).ProtocolVersion() == 2 && Coinbase(to).feePayer == ""
  {
    NamedHasId(Transaction(2, "", COINBASE_SENDER, to, Witnesses.SUBSIDY, 0, 0, 0, "", "", true, TxKind.Coinbase,
                           "", "", "", "", "", "", "", 0, 0, false, false, false, false));
    hide IdOf;
  }

  /** Every input that `Witnesses` asks for occurs, all over one genesis. */
  lemma InputsOccur()
    ensures
      var first := MinedOn(GENESIS, [Coinbase("alice")], "");
      var second := MinedOn(first, [Coinbase("bob")], "");
      && Witnesses.Mined(RULES, GENESIS, first) && Witnesses.OpenCoinbase(RULES, first, "alice") && first.stateRoot == ""
      && Witnesses.Mined(RULES, first, second) && Witnesses.PaysOnly(RULES, second, "bob") && second.stateRoot == ""
      && first.txs[0].id != second.txs[0].id
      && Witnesses.Mined(RULES, first, MinedOn(first, first.txs, ""))
      && Witnesses.Mined(RULES, first, MinedOn(first, second.txs, "x")) && (forall s :: RULES.root(s) != "x")
      && Witnesses.Mined(RULES, first, MinedOn(first, [Coinbase("bob"), PAYMENT], ""))
      && Witnesses.Payment(ENV, PAYMENT, "alice", "bob") && Witnesses.FirstLock(ENV, LOCK, "alice")
  {
    var first := MinedOn(GENESIS, [Coinbase("alice")], "");
    MinedOnIsMined(GENESIS, [Coinbase("alice")], "");
    MinedOnIsMined(first, [Coinbase("bob")], "");
    MinedOnIsMined(first, [Coinbase("alice")], "");
    MinedOnIsMined(first, [Coinbase("bob")], "x");
    MinedOnIsMined(first, [Coinbase("bob"), PAYMENT], "");
    CoinbasePays("alice");
    CoinbasePays("bob");
    IdsTell();
    TransfersOccur();
    hide MinedOn, Coinbase, Witnesses.Mined, Witnesses.Payment, Witnesses.FirstLock;
    if Coinbase("alice").id == Coinbase("bob").id {
      Preimages.SamePreimage(Coinbase("alice"), Coinbase("bob"));
    }
  }

  lemma TransfersOccur()
    ensures Witnesses.Payment(ENV, PAYMENT, "alice", "bob") && Witnesses.FirstLock(ENV, LOCK, "alice")
  {
    NamedHasId(Transaction(1, "", "alice", "bob", 1, 1, 1, 0, "", "", false, Transfer,
                           "", "", "", "", "", "", "", 0, 0, false, false, false, false));
    NamedHasId(Transaction(1, "", "alice", "alice", 1, 0, 1, 0, "", "", false, StakeLock,
                           "", "", "", "", "", "", "", 0, 0, false, false, false, false));
    hide IdOf;
  }
}
