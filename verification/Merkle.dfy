/** The Merkle root of a block's transaction ids (types/block.go): pairs are hashed level by level, and an
    odd last entry is paired with itself. */
module Merkle {
  /** The hash of two joined entries. */
  type Node = (string, string) -> string

  datatype Pair = Pair(left: string, right: string) {
    function Hash(node: Node): string {
      node(left, right)
    }
  }

  function PairAt(level: seq<string>, k: nat): Pair
    requires 2 * k < |level|
  {
    Pair(level[2 * k], if 2 * k + 1 < |level| then level[2 * k + 1] else level[2 * k])
  }

  /** The entry at position `k` of the next level. */
  function Paired(node: Node, level: seq<string>, k: nat): string
    requires 2 * k < |level|
  {
    PairAt(level, k).Hash(node)
  }

  function Next(node: Node, level: seq<string>): (next: seq<string>)
    ensures |next| == (|level| + 1) / 2
    ensures forall k :: 0 <= k < |next| ==> next[k] == Paired(node, level, k)
  {
    seq((|level| + 1) / 2, k requires 0 <= k < (|level| + 1) / 2 => Paired(node, level, k))
  }

  function Root(node: Node, ids: seq<string>): string
    decreases |ids|
  {
    if |ids| == 0 then node("", "")
    else if |ids| == 1 then ids[0]
    else Root(node, Next(node, ids))
  }

  method CalculateMerkleRoot(node: Node, ids: seq<string>) returns (root: string)
    ensures root == Root(node, ids)
  {
    if |ids| == 0 {
      return node("", "");
    }
    var level := ids;
    while |level| > 1
      invariant |level| > 0 && Root(node, level) == Root(node, ids)
      decreases |level|
    {
      var next: seq<string> := [];
      var i := 0;
      while i < |level|
        invariant i == 2 * |next| && |next| <= (|level| + 1) / 2
        invariant forall k :: 0 <= k < |next| ==> next[k] == Paired(node, level, k)
      {
        var left := level[i];
        var right := if i + 1 < |level| then level[i + 1] else left;
        next := next + [node(left, right)];
        i := i + 2;
      }
      assert next == Next(node, level);
      level := next;
    }
    root := level[0];
  }

  // ---------------------------------------------------------------- what a root determines

  /** The pairs that are hashed for one root. */
  ghost function Hashed(node: Node, level: seq<string>): set<Pair>
    decreases |level|
  {
    if |level| <= 1 then {}
    else (set k | 0 <= k < (|level| + 1) / 2 :: PairAt(level, k)) + Hashed(node, Next(node, level))
  }

  /** A hash, and the pairs it is ever applied to. */
  datatype Hashing = Hashing(node: Node, used: set<Pair>)

  /** None of the pairs in use collide. */
  ghost predicate CollisionFree(h: Hashing) {
    forall p, q :: p in h.used && q in h.used && p.Hash(h.node) == q.Hash(h.node) ==> p == q
  }

  /** Not the hash of any of them, as transaction ids are not. */
  ghost predicate Leaf(h: Hashing, s: string) {
    forall p :: p in h.used ==> p.Hash(h.node) != s
  }

  ghost predicate Covers(h: Hashing, level: seq<string>) {
    Hashed(h.node, level) <= h.used
  }

  ghost predicate Distinct(ids: seq<string>) {
    forall i, j :: 0 <= i < j < |ids| ==> ids[i] != ids[j]
  }

  /** `k` hashes above a leaf, going down to the left. */
  ghost predicate Deep(h: Hashing, s: string, k: nat)
    decreases k
  {
    if k == 0 then Leaf(h, s) else exists p :: p in h.used && p.Hash(h.node) == s && Deep(h, p.left, k - 1)
  }

  ghost predicate AllDeep(h: Hashing, level: seq<string>, k: nat) {
    forall i :: 0 <= i < |level| ==> Deep(h, level[i], k)
  }

  lemma {:induction false} OneDepth(h: Hashing, s: string, j: nat, k: nat)
    requires CollisionFree(h) && Deep(h, s, j) && Deep(h, s, k)
    ensures j == k
    decreases j
  {
    if j > 0 && k > 0 {
      var p :| p in h.used && p.Hash(h.node) == s && Deep(h, p.left, j - 1);
      var q :| q in h.used && q.Hash(h.node) == s && Deep(h, q.left, k - 1);
      OneDepth(h, p.left, j - 1, k - 1);
    }
  }

  lemma PairsInUse(h: Hashing, level: seq<string>)
    requires Covers(h, level) && |level| > 1
    ensures Covers(h, Next(h.node, level))
    ensures forall k :: 0 <= k < |Next(h.node, level)| ==> PairAt(level, k) in h.used
  {
    forall k | 0 <= k < |Next(h.node, level)|
      ensures PairAt(level, k) in h.used
    {
      assert PairAt(level, k) in Hashed(h.node, level);
    }
  }

  lemma NextDeep(h: Hashing, level: seq<string>, k: nat)
    requires AllDeep(h, level, k) && Covers(h, level) && |level| > 1
    ensures AllDeep(h, Next(h.node, level), k + 1) && Covers(h, Next(h.node, level))
  {
    PairsInUse(h, level);
    var next := Next(h.node, level);
    forall i | 0 <= i < |next|
      ensures Deep(h, next[i], k + 1)
    {
      assert next[i] == Paired(h.node, level, i) && Deep(h, level[2 * i], k);
      assert PairAt(level, i) in h.used && PairAt(level, i).left == level[2 * i];
    }
  }

  /** The root of more than one entry lies deeper than the entries. */
  lemma {:induction false} RootDeeper(h: Hashing, level: seq<string>, k: nat) returns (depth: nat)
    requires AllDeep(h, level, k) && Covers(h, level) && level != []
    ensures Deep(h, Root(h.node, level), depth) && depth >= k && (|level| > 1 ==> depth > k)
    decreases |level|
  {
    if |level| == 1 {
      depth := k;
    } else {
      NextDeep(h, level, k);
      depth := RootDeeper(h, Next(h.node, level), k + 1);
    }
  }

  lemma NextDistinct(h: Hashing, level: seq<string>)
    requires CollisionFree(h) && Covers(h, level) && |level| > 1 && Distinct(level)
    ensures Distinct(Next(h.node, level))
  {
    PairsInUse(h, level);
    var next := Next(h.node, level);
    forall i, j | 0 <= i < j < |next|
      ensures next[i] != next[j]
    {
      assert level[2 * i] != level[2 * j];
      assert next[i] == Paired(h.node, level, i) && next[j] == Paired(h.node, level, j);
      assert PairAt(level, i) != PairAt(level, j);
    }
  }

  ghost predicate SamePairs(x: seq<string>, y: seq<string>) {
    && (|x| + 1) / 2 == (|y| + 1) / 2
    && forall k :: 0 <= k < (|x| + 1) / 2 ==> PairAt(x, k) == PairAt(y, k)
  }

  lemma SameEntry(x: seq<string>, y: seq<string>, k: nat)
    requires SamePairs(x, y) && 2 * k < |x|
    ensures 2 * k < |y| && x[2 * k] == y[2 * k]
    ensures 2 * k + 1 < |x| && 2 * k + 1 < |y| ==> x[2 * k + 1] == y[2 * k + 1]
    ensures 2 * k + 1 < |x| && 2 * k + 1 >= |y| ==> x[2 * k + 1] == x[2 * k]
    ensures 2 * k + 1 >= |x| && 2 * k + 1 < |y| ==> y[2 * k + 1] == y[2 * k]
  {
    assert PairAt(x, k) == PairAt(y, k);
  }

  lemma PairsMakeList(x: seq<string>, y: seq<string>)
    requires SamePairs(x, y) && Distinct(x) && Distinct(y) && x != []
    ensures x == y
  {
    var last := (|x| - 1) / 2;
    SameEntry(x, y, last);
    assert |x| == |y|;
    forall i | 0 <= i < |x|
      ensures x[i] == y[i]
    {
      var k := i / 2;
      SameEntry(x, y, k);
      assert i == 2 * k || i == 2 * k + 1;
    }
  }

  lemma NextBindsAt(h: Hashing, x: seq<string>, y: seq<string>, k: nat)
    requires CollisionFree(h) && Covers(h, x) && Covers(h, y) && |x| > 1 && |y| > 1
    requires Next(h.node, x) == Next(h.node, y) && k < |Next(h.node, x)|
    ensures PairAt(x, k) == PairAt(y, k)
  {
    PairsInUse(h, x);
    PairsInUse(h, y);
    hide PairAt, Covers;
    assert Paired(h.node, x, k) == Next(h.node, x)[k] == Next(h.node, y)[k] == Paired(h.node, y, k);
  }

  lemma NextBinds(h: Hashing, x: seq<string>, y: seq<string>)
    requires CollisionFree(h) && Covers(h, x) && Covers(h, y) && |x| > 1 && |y| > 1
    requires Distinct(x) && Distinct(y) && Next(h.node, x) == Next(h.node, y)
    ensures x == y
  {
    hide PairAt, Covers, CollisionFree, Distinct, Next;
    forall k | 0 <= k < (|x| + 1) / 2
      ensures PairAt(x, k) == PairAt(y, k)
    {
      NextBindsAt(h, x, y, k);
    }
    PairsMakeList(x, y);
  }

  /** A single entry is no root of more than one entry of its depth. */
  lemma OneIsOne(h: Hashing, x: seq<string>, y: seq<string>, k: nat)
    requires CollisionFree(h) && Covers(h, y) && |x| == 1 && y != []
    requires AllDeep(h, x, k) && AllDeep(h, y, k) && Root(h.node, x) == Root(h.node, y)
    ensures x == y
  {
    hide Covers, CollisionFree, Next;
    var depth := RootDeeper(h, y, k);
    assert Deep(h, x[0], k);
    OneDepth(h, x[0], k, depth);
  }

  /** Lists of the same depth with one root are the same list. */
  lemma {:induction false} RootBindsAt(h: Hashing, x: seq<string>, y: seq<string>, k: nat)
    requires CollisionFree(h) && Covers(h, x) && Covers(h, y) && x != [] && y != [] && Distinct(x) && Distinct(y)
    requires AllDeep(h, x, k) && AllDeep(h, y, k) && Root(h.node, x) == Root(h.node, y)
    ensures x == y
    decreases |x| + |y|
  {
    hide Covers, CollisionFree, Distinct, AllDeep, Next;
    if |x| == 1 {
      OneIsOne(h, x, y, k);
    } else if |y| == 1 {
      OneIsOne(h, y, x, k);
    } else {
      NextDeep(h, x, k);
      NextDeep(h, y, k);
      NextDistinct(h, x);
      NextDistinct(h, y);
      RootBindsAt(h, Next(h.node, x), Next(h.node, y), k + 1);
      NextBinds(h, x, y);
    }
  }

  /** As long as the pairs hashed for them do not collide, two roots are equal only for equal lists of
      distinct ids, the length included. */
  lemma RootBinds(h: Hashing, x: seq<string>, y: seq<string>)
    requires CollisionFree(h) && Covers(h, x) && Covers(h, y) && x != [] && y != [] && Distinct(x) && Distinct(y)
    requires (forall i :: 0 <= i < |x| ==> Leaf(h, x[i])) && (forall i :: 0 <= i < |y| ==> Leaf(h, y[i]))
    ensures Root(h.node, x) == Root(h.node, y) <==> x == y
  {
    if Root(h.node, x) == Root(h.node, y) {
      RootBindsAt(h, x, y, 0);
    }
  }

  /** Without distinctness it does not hold: repeating the last of an odd number of ids keeps the root. */
  lemma RepeatedLast(node: Node, ids: seq<string>)
    requires |ids| % 2 == 1 && |ids| > 1
    ensures Root(node, ids + [ids[|ids| - 1]]) == Root(node, ids)
  {
    var more := ids + [ids[|ids| - 1]];
    assert (|more| + 1) / 2 == (|ids| + 1) / 2;
    forall k | 0 <= 2 * k < |ids|
      ensures PairAt(more, k) == PairAt(ids, k)
    {
      assert more[2 * k] == ids[2 * k];
    }
    hide PairAt;
    assert Next(node, more) == Next(node, ids);
  }
}
