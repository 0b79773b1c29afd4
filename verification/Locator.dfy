/** Block locators and common ancestors (chain/locator.go). */
module Locators {
  import opened Arith
  import opened Types
  import opened Chains

  datatype Entry = Entry(height: u64, hash: Hash)

  /** The hash stored for a height: the last block of that height wins. */
  function HashAt(blocks: seq<Block>, height: nat): Option<Hash> {
    if blocks == [] then None
    else if blocks[|blocks| - 1].height == height then Some(blocks[|blocks| - 1].hash)
    else HashAt(blocks[..|blocks| - 1], height)
  }

  method IndexByHeight(blocks: seq<Block>) returns (byHeight: map<u64, Hash>)
    ensures forall h: u64 :: HashAt(blocks, h) == if h in byHeight then Some(byHeight[h]) else None
  {
    byHeight := map[];
    for i := 0 to |blocks|
      invariant forall h: u64 :: HashAt(blocks[..i], h) == if h in byHeight then Some(byHeight[h]) else None
    {
      assert blocks[..i + 1][..i] == blocks[..i];
      byHeight := byHeight[blocks[i].height := blocks[i].hash];
    }
    assert blocks[..|blocks|] == blocks;
  }

  // ---------------------------------------------------------------- which heights

  /** n - step, n - 2 step, n - 4 step, ... while positive, then 0. */
  function Doubling(n: nat, step: nat): seq<nat>
    requires 1 <= step <= n
    decreases n - step
  {
    var h := n - step;
    [h] + (if h == 0 then [] else if h <= step then [0] else Doubling(n, 2 * step))
  }

  /** n, n - 1, n - 2, n - 4, n - 8, ..., 0 */
  function Heights(n: nat): seq<nat> {
    [n] + if n == 0 then [] else if n == 1 then [0] else [n - 1] + Doubling(n, 2)
  }

  function Listed(blocks: seq<Block>, heights: seq<nat>): seq<Entry>
    requires forall i :: 0 <= i < |heights| ==> heights[i] <= MAX_U64
  {
    if heights == [] then []
    else
      var h := heights[|heights| - 1];
      var before := Listed(blocks, heights[..|heights| - 1]);
      match HashAt(blocks, h)
      case None => before
      case Some(hash) => before + [Entry(h, hash)]
  }

  function Power2(k: nat): (p: nat)
    ensures p >= 1
  {
    if k == 0 then 1 else 2 * Power2(k - 1)
  }

  function Log2(n: nat): nat
    requires n >= 1
  {
    if n == 1 then 0 else 1 + Log2(n / 2)
  }

  /** Every height of the back-off but the last is n less a power of two times `step`. */
  lemma {:induction false} DoublingShape(n: nat, step: nat, k: nat)
    requires 1 <= step <= n && k < |Doubling(n, step)|
    ensures
      var d := Doubling(n, step);
      && d[|d| - 1] == 0
      && (k < |d| - 1 ==> d[k] == n - step * Power2(k) && d[k] > d[k + 1])
    decreases n - step
  {
    PowerStep(step, k);
    hide Power2;
    if n - step > step {
      DoublingShape(n, 2 * step, if k == 0 then 0 else k - 1);
      assert Doubling(n, 2 * step)[0] == n - 2 * step;
    }
  }

  lemma PowerStep(step: nat, k: nat)
    ensures step * Power2(0) == step
    ensures k > 0 ==> step * Power2(k) == (2 * step) * Power2(k - 1)
  {
  }

  lemma {:induction false} DoublingLength(n: nat, step: nat)
    requires 1 <= step <= n
    ensures |Doubling(n, step)| <= Log2(n / step) + 2
    decreases n - step
  {
    if n - step > step {
      DoublingLength(n, 2 * step);
      HalfQuotient(n, step);
    }
  }

  lemma HalfQuotient(n: nat, step: nat)
    requires 1 <= step && 2 * step <= n
    ensures n / (2 * step) == (n / step) / 2
    ensures n / step >= 2
  {
    var q := n / step;
    var r := n % step;
    assert n == step * q + r;
    MulOrder(step, q, 1);
    var h := q / 2;
    var rest := n - (2 * step) * h;
    assert step * q == step * (2 * h) + step * (q % 2);
    assert (2 * step) * h == step * (2 * h);
    assert q % 2 == 0 || q % 2 == 1;
    assert 0 <= rest < 2 * step;
    Quotient(n, 2 * step, h, rest);
  }

  lemma Quotient(n: nat, d: nat, q: nat, r: nat)
    requires d > 0 && n == d * q + r && r < d
    ensures n / d == q
  {
    var p := n / d;
    assert n == d * p + n % d;
    MulOrder(d, p + 1, q);
    MulOrder(d, q + 1, p);
  }

  lemma MulOrder(d: nat, x: nat, y: nat)
    ensures x <= y ==> d * x <= d * y
  {
  }

  /** On a chain of tip height n the locator heights are n, n-1, n-2, n-4, n-8, ... and finally 0,
      strictly descending; there are at most floor(log2 n) + 3 of them. */
  lemma HeightsShape(n: nat, k: nat)
    requires k < |Heights(n)|
    ensures
      var hs := Heights(n);
      && hs[0] == n && hs[|hs| - 1] == 0
      && (0 < k < |hs| - 1 ==> hs[k] == n - Power2(k - 1))
      && (k < |hs| - 1 ==> hs[k] > hs[k + 1])
      && (n >= 1 ==> |hs| <= Log2(n) + 3)
  {
    if n >= 2 {
      var d := Doubling(n, 2);
      DoublingShape(n, 2, if k < 2 then 0 else k - 2);
      DoublingLength(n, 2);
      assert d[0] == n - 2;
      if 2 <= k < |Heights(n)| - 1 {
        assert 2 * Power2(k - 2) == Power2(k - 1);
      }
      assert Power2(0) == 1;
    }
  }

  lemma HeightsFit(n: u64)
    ensures forall i :: 0 <= i < |Heights(n)| ==> 0 <= Heights(n)[i] <= n
  {
    forall i | 0 <= i < |Heights(n)|
      ensures 0 <= Heights(n)[i] <= n
    {
      HeightsShape(n, i);
    }
  }

  // ---------------------------------------------------------------- building

  lemma {:induction false} HeightsDescend(n: nat, i: nat, j: nat)
    requires i < j < |Heights(n)|
    ensures Heights(n)[i] > Heights(n)[j]
    decreases j
  {
    HeightsShape(n, j - 1);
    if i < j - 1 {
      HeightsDescend(n, i, j - 1);
    }
  }

  lemma {:induction false} DoublingNext(n: nat, step: nat, k: nat)
    requires 1 <= step <= n && k < |Doubling(n, step)|
    ensures
      var d := Doubling(n, step);
      && (d[k] == 0 <==> k == |d| - 1)
      && (d[k] > 0 ==> d[k + 1] == if d[k] <= step * Power2(k) then 0 else d[k] - step * Power2(k))
    decreases n - step
  {
    PowerStep(step, k);
    hide Power2;
    if n - step > step && k > 0 {
      DoublingNext(n, 2 * step, k - 1);
    }
  }

  /** How the loop gets from one height to the next. */
  lemma HeightsNext(n: nat, k: nat)
    requires k < |Heights(n)|
    ensures
      var hs := Heights(n);
      && (hs[k] == 0 <==> k == |hs| - 1)
      && (hs[k] > 0 && k < 2 ==> hs[k + 1] == hs[k] - 1)
      && (hs[k] > 0 && k >= 2 ==> hs[k + 1] == if hs[k] <= Power2(k - 1) then 0 else hs[k] - Power2(k - 1))
  {
    if n >= 2 && k >= 2 {
      DoublingNext(n, 2, k - 2);
      assert 2 * Power2(k - 2) == Power2(k - 1);
    }
  }

  lemma StepFits(n: u64, k: nat)
    requires 2 <= k < |Heights(n)| && Heights(n)[k] > 0
    ensures Power2(k - 1) < n
  {
    HeightsShape(n, k);
    HeightsNext(n, k);
  }

  /** The heights visited so far that the chain has a block for. */
  ghost predicate Visited(seen: set<u64>, blocks: seq<Block>, heights: seq<nat>) {
    forall h: u64 :: h in seen <==> HashAt(blocks, h).Some? && exists i :: 0 <= i < |heights| && heights[i] == h
  }

  lemma VisitOne(seen: set<u64>, blocks: seq<Block>, n: u64, k: nat)
    requires k < |Heights(n)| && 0 <= Heights(n)[k] <= MAX_U64 && Visited(seen, blocks, Heights(n)[..k])
    ensures
      var h: u64 := Heights(n)[k];
      h !in seen && Visited(if HashAt(blocks, h).Some? then seen + {h} else seen, blocks, Heights(n)[..k + 1])
  {
    hide Heights, HashAt;
    var hs := Heights(n);
    forall i | 0 <= i < k
      ensures hs[i] != hs[k]
    {
      HeightsDescend(n, i, k);
    }
    assert hs[..k + 1] == hs[..k] + [hs[k]];
    assert hs[..k + 1][k] == hs[k];
    assert forall i :: 0 <= i < k ==> hs[..k + 1][i] == hs[..k][i];
  }

  lemma ListOne(blocks: seq<Block>, n: u64, k: nat)
    requires k < |Heights(n)|
    requires forall i :: 0 <= i < |Heights(n)| ==> 0 <= Heights(n)[i] <= MAX_U64
    ensures
      var h := Heights(n)[k];
      var before := Listed(blocks, Heights(n)[..k]);
      Listed(blocks, Heights(n)[..k + 1])
        == if HashAt(blocks, h).Some? then before + [Entry(h, HashAt(blocks, h).value)] else before
  {
    hide Heights, HashAt;
    assert Heights(n)[..k + 1][..k] == Heights(n)[..k];
  }

  /** An entry for each back-off height the chain has a block for. */
  ghost function LocatorOf(blocks: seq<Block>): seq<Entry> {
    if blocks == [] then []
    else
      var n := blocks[|blocks| - 1].height;
      HeightsFit(n);
      Listed(blocks, Heights(n))
  }

  /** The back-off loop; the doubling of the 64-bit step may wrap, but only after its last use. */
  method BuildBlockLocator(blocks: seq<Block>) returns (locator: seq<Entry>)
    ensures locator == LocatorOf(blocks)
  {
    hide Heights, HashAt, Visited, Power2;
    locator := [];
    if blocks == [] {
      return;
    }
    var byHeight := IndexByHeight(blocks);
    ghost var n := blocks[|blocks| - 1].height;
    ghost var k := 0;
    HeightsFit(n);
    FirstVisit(blocks, n);
    var height, seen: set<u64> := blocks[|blocks| - 1].height, {};
    var step, linearSteps := 2, 2;
    while true
      invariant k < |Heights(n)| && height == Heights(n)[k]
      invariant locator == Listed(blocks, Heights(n)[..k]) && Visited(seen, blocks, Heights(n)[..k])
      invariant linearSteps == if k < 2 then 2 - k else 0
      invariant k <= 2 ==> step == 2
      invariant k >= 2 && height > 0 ==> step == Power2(k - 1)
      decreases |Heights(n)| - k
    {
      VisitOne(seen, blocks, n, k);
      ListOne(blocks, n, k);
      HeightsNext(n, k);
      if height in byHeight && height !in seen {
        locator := locator + [Entry(height, byHeight[height])];
        seen := seen + {height};
      }
      if height == 0 {
        break;
      }
      k := k + 1;
      if linearSteps > 0 {
        height := height - 1;
        linearSteps := linearSteps - 1;
        SecondPower();
        continue;
      }
      StepFits(n, k - 1);
      height := if height <= step then 0 else height - step;
      step := 2 * step % 0x1_0000_0000_0000_0000;
      NextStep(n, k);
    }
    HeightsNext(n, k);
    assert Heights(n)[..k + 1] == Heights(n);
    LowestVisited(seen, blocks, n, k);
    // the final re-check for the genesis entry never finds it missing
    assert 0 in byHeight ==> 0 in seen;
  }

  lemma FirstVisit(blocks: seq<Block>, n: u64)
    ensures |Heights(n)| > 0 && Heights(n)[0] == n
    ensures Visited({}, blocks, Heights(n)[..0])
    ensures Heights(n)[..0] == []
  {
  }

  lemma LowestVisited(seen: set<u64>, blocks: seq<Block>, n: u64, k: nat)
    requires k < |Heights(n)| && Heights(n)[k] == 0 && Visited(seen, blocks, Heights(n)[..k + 1])
    ensures 0 in seen <==> HashAt(blocks, 0).Some?
  {
    hide Heights, HashAt;
    assert Heights(n)[..k + 1][k] == 0;
  }

  lemma SecondPower()
    ensures Power2(1) == 2
  {
    assert Power2(0) == 1;
  }

  lemma NextStep(n: u64, k: nat)
    requires 3 <= k < |Heights(n)| && Power2(k - 2) < n
    ensures Heights(n)[k] > 0 ==> 2 * Power2(k - 2) % 0x1_0000_0000_0000_0000 == Power2(k - 1)
  {
    if Heights(n)[k] > 0 {
      StepFits(n, k);
    }
  }

  // ---------------------------------------------------------------- the common ancestor

  function FirstMatch(blocks: seq<Block>, locator: seq<Entry>): Option<Entry> {
    if locator == [] then None
    else if HashAt(blocks, locator[0].height) == Some(locator[0].hash) then Some(locator[0])
    else FirstMatch(blocks, locator[1..])
  }

  method FindCommonAncestor(blocks: seq<Block>, locator: seq<Entry>) returns (found: Option<Entry>)
    ensures found == FirstMatch(blocks, locator)
    ensures found.Some? ==> found.value in locator
  {
    hide HashAt;
    var byHeight := IndexByHeight(blocks);
    var i := 0;
    while i < |locator|
      invariant i <= |locator| && FirstMatch(blocks, locator) == FirstMatch(blocks, locator[i..])
    {
      var entry := locator[i];
      if entry.height in byHeight && byHeight[entry.height] == entry.hash {
        return Some(entry);
      }
      i := i + 1;
    }
    return None;
  }

  lemma {:induction false} FirstMatchAt(blocks: seq<Block>, locator: seq<Entry>, k: nat)
    requires k < |locator| && HashAt(blocks, locator[k].height) == Some(locator[k].hash)
    requires forall i :: 0 <= i < k ==> HashAt(blocks, locator[i].height) != Some(locator[i].hash)
    ensures FirstMatch(blocks, locator) == Some(locator[k])
  {
    if k > 0 {
      assert forall i :: 0 <= i < k - 1 ==> locator[1..][i] == locator[i + 1];
      FirstMatchAt(blocks, locator[1..], k - 1);
    }
  }

  lemma {:induction false} MatchesStored(blocks: seq<Block>, locator: seq<Entry>)
    requires FirstMatch(blocks, locator).Some?
    ensures
      var e := FirstMatch(blocks, locator).value;
      e in locator && HashAt(blocks, e.height) == Some(e.hash)
  {
    if HashAt(blocks, locator[0].height) != Some(locator[0].hash) {
      MatchesStored(blocks, locator[1..]);
    }
  }

  lemma {:induction false} HashAtChain(rules: Rules, blocks: seq<Block>, n: nat, height: nat)
    requires rules.WellFormed() && Contiguous(rules, blocks) && n <= |blocks|
    ensures HashAt(blocks[..n], height) == if height < n then Some(blocks[height].hash) else None
  {
    hide GenesisAccepted, Linked;
    if n > 0 {
      HeightIsIndex(rules, blocks, n - 1);
      assert blocks[..n][..n - 1] == blocks[..n - 1];
      HashAtChain(rules, blocks, n - 1, height);
    }
  }

  lemma StoredHash(rules: Rules, blocks: seq<Block>, height: nat)
    requires rules.WellFormed() && Contiguous(rules, blocks)
    ensures HashAt(blocks, height) == if height < |blocks| then Some(blocks[height].hash) else None
  {
    HashAtChain(rules, blocks, |blocks|, height);
    assert blocks[..|blocks|] == blocks;
  }

  lemma {:induction false} ListedOnChain(rules: Rules, blocks: seq<Block>, heights: seq<nat>)
    requires rules.WellFormed() && Contiguous(rules, blocks)
    requires forall i :: 0 <= i < |heights| ==> heights[i] < |blocks| && heights[i] <= MAX_U64
    ensures |Listed(blocks, heights)| == |heights|
    ensures forall i :: 0 <= i < |heights| ==> Listed(blocks, heights)[i] == Entry(heights[i], blocks[heights[i]].hash)
  {
    hide Contiguous, HashAt, Rules.WellFormed;
    if heights != [] {
      var n := |heights| - 1;
      ListedOnChain(rules, blocks, heights[..n]);
      StoredHash(rules, blocks, heights[n]);
    }
  }

  /** Where the two chains have equal hashes at one height, the blocks name the same parent. */
  ghost predicate HashesBind(mine: seq<Block>, theirs: seq<Block>) {
    forall i :: 0 <= i < |mine| && i < |theirs| && mine[i].hash == theirs[i].hash ==>
      mine[i].previousHash == theirs[i].previousHash
  }

  /** Chains that agree at one height agree at every lower one. */
  lemma {:induction false} AgreementGoesDown(rules: Rules, mine: seq<Block>, theirs: seq<Block>, high: nat, low: nat)
    requires Contiguous(rules, mine) && Contiguous(rules, theirs) && HashesBind(mine, theirs)
    requires low <= high < |mine| && high < |theirs| && mine[high].hash == theirs[high].hash
    ensures mine[low].hash == theirs[low].hash
    decreases high
  {
    hide GenesisAccepted;
    if low < high {
      assert LinkedAt(mine, high) && LinkedAt(theirs, high);
      AgreementGoesDown(rules, mine, theirs, high - 1, low);
    }
  }

  /** `f` is the height of the last block two chains have in common. */
  ghost predicate LastCommon(mine: seq<Block>, theirs: seq<Block>, f: nat) {
    && f < |mine| && f < |theirs| && mine[f].hash == theirs[f].hash
    && (f + 1 < |mine| && f + 1 < |theirs| ==> mine[f + 1].hash != theirs[f + 1].hash)
  }

  lemma {:induction false} DoublingCloses(n: nat, step: nat, f: nat) returns (k: nat)
    requires 1 <= step <= n && f < n && 2 * (n - f) > step
    ensures
      var d := Doubling(n, step);
      k < |d| && d[k] <= f && n - d[k] < 2 * (n - f) && forall i :: 0 <= i < k ==> d[i] > f
    decreases n - step
  {
    if n - step <= f {
      k := 0;
    } else if n - step <= step {
      k := 1;
    } else {
      k := DoublingCloses(n, 2 * step, f);
      k := k + 1;
    }
  }

  /** The first locator height at or below `f` is less than twice as far from the tip. */
  lemma HeightsClose(n: nat, f: nat) returns (k: nat)
    requires f < n
    ensures
      var hs := Heights(n);
      k < |hs| && hs[k] <= f && n - hs[k] < 2 * (n - f) && forall i :: 0 <= i < k ==> hs[i] > f
  {
    if f == n - 1 {
      k := 1;
    } else {
      k := DoublingCloses(n, 2, f);
      k := k + 2;
    }
  }

  lemma OnlyCommonMatches(rules: Rules, mine: seq<Block>, theirs: seq<Block>, f: nat, h: nat)
    requires rules.WellFormed() && StoredChain(rules, mine) && StoredChain(rules, theirs) && HashesBind(mine, theirs)
    requires LastCommon(mine, theirs, f) && h < |theirs|
    ensures HashAt(mine, h) == Some(theirs[h].hash) <==> h <= f
  {
    hide StoredChain, Contiguous, HashAt, HashesBind, Rules.WellFormed;
    HeadersOf(rules, mine);
    HeadersOf(rules, theirs);
    StoredHash(rules, mine, h);
    if h <= f {
      AgreementGoesDown(rules, mine, theirs, f, h);
    } else if h < |mine| && mine[h].hash == theirs[h].hash {
      AgreementGoesDown(rules, mine, theirs, h, f + 1);
    }
  }

  lemma LocatorOnChain(rules: Rules, blocks: seq<Block>)
    requires rules.WellFormed() && Contiguous(rules, blocks)
    ensures
      var hs := Heights(|blocks| - 1);
      && |LocatorOf(blocks)| == |hs|
      && forall i :: 0 <= i < |hs| ==>
           hs[i] < |blocks| && hs[i] <= MAX_U64 && LocatorOf(blocks)[i] == Entry(hs[i], blocks[hs[i]].hash)
  {
    hide GenesisAccepted, Heights, Listed;
    var n := |blocks| - 1;
    HeightIsIndex(rules, blocks, n);
    HeightsFit(n);
    ListedOnChain(rules, blocks, Heights(n));
  }

  lemma HeadersOf(rules: Rules, blocks: seq<Block>)
    requires rules.WellFormed() && StoredChain(rules, blocks)
    ensures blocks != [] && Contiguous(rules, blocks) && |blocks| - 1 <= MAX_U64
  {
    hide ValidBlock;
    HeightIsIndex(rules, blocks, |blocks| - 1);
  }

  /** With a peer's locator the search finds a common block no deeper than twice the fork: if the
      chains part after height f below the peer's tip n, the result a has n-f <= n-a < 2(n-f). */
  lemma AncestorBound(rules: Rules, mine: seq<Block>, theirs: seq<Block>, f: nat) returns (a: Entry)
    requires rules.WellFormed() && StoredChain(rules, mine) && StoredChain(rules, theirs) && HashesBind(mine, theirs)
    requires LastCommon(mine, theirs, f) && f < |theirs| - 1
    ensures FirstMatch(mine, LocatorOf(theirs)) == Some(a)
    ensures a.height <= f && a.hash == theirs[a.height].hash
    ensures var n := |theirs| - 1; n - f <= n - a.height < 2 * (n - f)
  {
    hide *;
    HeadersOf(rules, theirs);
    var n := |theirs| - 1;
    var hs := Heights(n);
    LocatorOnChain(rules, theirs);
    var k := HeightsClose(n, f);
    forall i | 0 <= i < |hs|
      ensures HashAt(mine, hs[i]) == Some(theirs[hs[i]].hash) <==> hs[i] <= f
    {
      OnlyCommonMatches(rules, mine, theirs, f, hs[i]);
    }
    FirstMatchAt(mine, LocatorOf(theirs), k);
    a := LocatorOf(theirs)[k];
  }

  lemma SameBlock(rules: Rules, mine: seq<Block>, e: Entry)
    requires rules.WellFormed() && StoredChain(rules, mine) && HashAt(mine, e.height) == Some(e.hash)
    ensures e.height < |mine| && mine[e.height].hash == e.hash
  {
    hide StoredChain, Contiguous, HashAt, Rules.WellFormed;
    HeadersOf(rules, mine);
    StoredHash(rules, mine, e.height);
  }
}
