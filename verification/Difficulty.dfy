/** Difficulty retargeting and block work (chain/pow.go, chain/locator.go). */
module Difficulty {
  import opened Arith
  import opened Types

  const UINT32: nat := 0x1_0000_0000

  function Normalize(p: DifficultyParams): (r: DifficultyParams)
    ensures 1 <= r.minimum <= r.maximum && r.window > 0 && r.targetSeconds > 0 && r.maxFutureDrift > 0
  {
    var initial := if p.initial == 0 then 4 else p.initial;
    var minimum := if p.minimum == 0 then 1 else p.minimum;
    var maximum := if p.maximum == 0 then initial else p.maximum;
    DifficultyParams(
      initial,
      minimum,
      if maximum < minimum then minimum else maximum,
      if p.targetSeconds <= 0 then 10 else p.targetSeconds,
      if p.window == 0 then 10 else p.window,
      if p.maxFutureDrift <= 0 then 900 else p.maxFutureDrift)
  }

  function Clamp(d: nat, p: DifficultyParams): nat {
    if d < p.minimum then p.minimum else if d > p.maximum then p.maximum else d
  }

  /** The first block of the given height, by a scan from the start. */
  function FirstAt(blocks: seq<Block>, height: nat): Option<Block> {
    if blocks == [] then None
    else if blocks[0].height == height then Some(blocks[0])
    else FirstAt(blocks[1..], height)
  }

  /** Difficulties are 32-bit: raising the largest one wraps to zero before it is clamped. */
  function Retarget(tip: Block, first: Block, p: DifficultyParams): nat {
    var actual := tip.timestamp - first.timestamp;
    var expected := p.targetSeconds * (p.window - 1);
    if actual <= 0 || actual < expected / 2 then (tip.difficulty + 1) % UINT32
    else if actual > expected * 2 && tip.difficulty > 0 then tip.difficulty - 1
    else tip.difficulty
  }

  function Next(blocks: seq<Block>, params: DifficultyParams): nat {
    var p := Normalize(params);
    if blocks == [] then p.initial else
    var tip := blocks[|blocks| - 1];
    if tip.height == 0 || tip.difficulty == 0 then p.initial
    else if tip.height < p.window || tip.height % p.window != 0 then Clamp(tip.difficulty, p)
    else
      match FirstAt(blocks, tip.height - p.window + 1)
      case None => Clamp(tip.difficulty, p)
      case Some(first) => Clamp(Retarget(tip, first, p), p)
  }

  /** Away from the first block, the expected difficulty is within the configured range and moves
      by at most one step from a tip that is itself in range. */
  lemma NextIsGradual(blocks: seq<Block>, params: DifficultyParams)
    requires blocks != []
    requires var tip := blocks[|blocks| - 1]; tip.height > 0 && 0 < tip.difficulty < UINT32 - 1
    ensures
      var p := Normalize(params);
      var tip := blocks[|blocks| - 1];
      var d := Next(blocks, params);
      && p.minimum <= d <= p.maximum
      && (p.minimum <= tip.difficulty <= p.maximum ==> tip.difficulty - 1 <= d <= tip.difficulty + 1)
  {
    var p := Normalize(params);
    var tip := blocks[|blocks| - 1];
    if tip.height >= p.window && tip.height % p.window == 0 {
      var first := FirstAt(blocks, tip.height - p.window + 1);
      if first.Some? {
        assert Retarget(tip, first.value, p) <= tip.difficulty + 1;
      }
    }
  }

  /** Blocks that took longer never make the next difficulty higher. */
  lemma SlowerIsNotHarder(tip: Block, first: Block, slower: Block, p: DifficultyParams)
    requires slower.difficulty == tip.difficulty < UINT32 - 1 && slower.timestamp >= tip.timestamp
    requires p.targetSeconds > 0 && p.window > 0 && p.minimum <= p.maximum
    ensures Clamp(Retarget(slower, first, p), p) <= Clamp(Retarget(tip, first, p), p)
  {
    var expected := Expected(p);
    RetargetBy(tip, first, p, expected);
    RetargetBy(slower, first, p, expected);
    hide Retarget, Expected;
  }

  ghost function Expected(p: DifficultyParams): int {
    p.targetSeconds * (p.window - 1)
  }

  /** The step as a function of two time spans, without a product. */
  lemma RetargetBy(tip: Block, first: Block, p: DifficultyParams, expected: int)
    requires p.targetSeconds > 0 && p.window > 0 && expected == Expected(p)
    ensures expected >= 0
    ensures
      var actual := tip.timestamp - first.timestamp;
      Retarget(tip, first, p) ==
        (if actual <= 0 || actual < expected / 2 then (tip.difficulty + 1) % UINT32
         else if actual > expected * 2 && tip.difficulty > 0 then tip.difficulty - 1
         else tip.difficulty)
  {
    NotNegative(p.targetSeconds, p.window - 1);
  }

  lemma NotNegative(x: int, y: nat)
    requires x > 0
    ensures x * y >= 0
  {
  }

  /** Parameters that are configured are used as they are; each missing one has its default. */
  lemma ParametersUsed(p: DifficultyParams)
    ensures p.initial > 0 && p.minimum > 0 && p.maximum >= p.minimum && p.targetSeconds > 0 && p.window > 0 && p.maxFutureDrift > 0
            ==> Normalize(p) == p
    ensures Normalize(DifficultyParams(0, 0, 0, 0, 0, 0)) == DifficultyParams(4, 1, 4, 10, 10, 900)
    ensures p.maximum == 0 ==> Normalize(p).maximum >= Normalize(p).initial || Normalize(p).maximum == Normalize(p).minimum
    ensures p.initial > 0 ==> Normalize(p).initial == p.initial
    ensures p.minimum > 0 ==> Normalize(p).minimum == p.minimum
    ensures p.targetSeconds > 0 ==> Normalize(p).targetSeconds == p.targetSeconds
    ensures p.window > 0 ==> Normalize(p).window == p.window
    ensures p.maxFutureDrift > 0 ==> Normalize(p).maxFutureDrift == p.maxFutureDrift
  {
  }

  /** Heights count up from 0. */
  ghost predicate Numbered(blocks: seq<Block>) {
    forall i {:trigger blocks[i]} :: 0 <= i < |blocks| ==> blocks[i].height == i
  }

  lemma {:induction false} FoundAt(blocks: seq<Block>, start: nat, height: nat)
    requires (forall i {:trigger blocks[i]} :: 0 <= i < |blocks| ==> blocks[i].height == start + i)
    requires start <= height < start + |blocks|
    ensures FirstAt(blocks, height) == Some(blocks[height - start])
  {
    if blocks[0].height != height {
      FoundAt(blocks[1..], start + 1, height);
    }
  }

  /** The rule of retargeting. At every positive height that is a multiple of the window the difficulty goes up
      by one when the last window took less than half the expected time, or no time at all; down by one when it
      took more than twice that; and otherwise, or at the end of the range, it stays. */
  lemma RetargetRule(blocks: seq<Block>, params: DifficultyParams)
    requires Numbered(blocks) && |blocks| > 1 && (|blocks| - 1) % Normalize(params).window == 0
    requires
      var p, d := Normalize(params), blocks[|blocks| - 1].difficulty;
      p.minimum <= d <= p.maximum && d < UINT32 - 1
    ensures
      var p, n, tip := Normalize(params), |blocks| - 1, blocks[|blocks| - 1];
      && p.window <= n
      && var elapsed := tip.timestamp - blocks[n - p.window + 1].timestamp;
         var expected := p.targetSeconds * (p.window - 1);
         && (Next(blocks, params) == tip.difficulty + 1 <==>
               tip.difficulty < p.maximum && (elapsed <= 0 || elapsed < expected / 2))
         && (Next(blocks, params) == tip.difficulty - 1 <==>
               tip.difficulty > p.minimum && elapsed > 2 * expected)
         && tip.difficulty - 1 <= Next(blocks, params) <= tip.difficulty + 1
  {
    var p, n := Normalize(params), |blocks| - 1;
    MultipleIsLarge(n, p.window);
    FoundAt(blocks, 0, n - p.window + 1);
    assert p.targetSeconds * (p.window - 1) >= 0;
  }

  /** The largest 32-bit difficulty cannot be raised: it wraps, and the least of the range comes out. */
  lemma LargestWraps(blocks: seq<Block>, params: DifficultyParams)
    requires Numbered(blocks) && |blocks| > 1 && (|blocks| - 1) % Normalize(params).window == 0
    requires blocks[|blocks| - 1].difficulty == UINT32 - 1
    requires
      var p, n := Normalize(params), |blocks| - 1;
      p.window <= n ==> blocks[n].timestamp <= blocks[n - p.window + 1].timestamp
    ensures Next(blocks, params) == Normalize(params).minimum
  {
    var p, n := Normalize(params), |blocks| - 1;
    MultipleIsLarge(n, p.window);
    FoundAt(blocks, 0, n - p.window + 1);
  }

  lemma MultipleIsLarge(n: nat, k: nat)
    requires k > 0 && n > 0 && n % k == 0
    ensures k <= n
  {
  }

  /** At all other heights it is the tip's, brought into the range; above the genesis it is the initial one. */
  lemma BetweenRetargets(blocks: seq<Block>, params: DifficultyParams)
    requires Numbered(blocks) && blocks != []
    ensures |blocks| == 1 || blocks[|blocks| - 1].difficulty == 0 ==> Next(blocks, params) == Normalize(params).initial
    ensures |blocks| > 1 && (|blocks| - 1) % Normalize(params).window != 0 && blocks[|blocks| - 1].difficulty > 0 ==>
              var p, d := Normalize(params), blocks[|blocks| - 1].difficulty;
              && (d < p.minimum ==> Next(blocks, params) == p.minimum)
              && (d > p.maximum ==> Next(blocks, params) == p.maximum)
              && (p.minimum <= d <= p.maximum ==> Next(blocks, params) == d)
  {
  }

  // ---------------------------------------------------------------- work

  function Power16(n: nat): (p: nat)
    ensures p >= 1
  {
    if n == 0 then 1 else 16 * Power16(n - 1)
  }

  function BlockWork(difficulty: nat): (w: u64)
    ensures w >= 1
  {
    if difficulty >= 16 then MAX_U64 else Cap(Power16(difficulty))
  }

  /** One step of difficulty is sixteen times the work, from 1 at difficulty 0 up to the largest 64-bit number
      from 16 on. */
  lemma WorkOfDifficulty(d: nat)
    ensures BlockWork(0) == 1
    ensures d < 15 ==> BlockWork(d + 1) == 16 * BlockWork(d)
    ensures d >= 16 ==> BlockWork(d) == MAX_U64
  {
    if d < 15 {
      PowerUpTo(d + 1);
    }
  }

  lemma {:induction false} PowerUpTo(d: nat)
    requires d <= 15
    ensures Power16(d) <= Power16(15) <= 0x1000_0000_0000_0000
  {
    PowerGrows(d, 15);
    assert Power16(4) == 0x1_0000;
    assert Power16(8) == 0x1_0000_0000;
    assert Power16(12) == 0x1_0000_0000_0000;
    assert Power16(15) == 0x1000_0000_0000_0000;
  }

  ghost function TotalWork(blocks: seq<Block>): nat {
    if blocks == [] then 0 else TotalWork(blocks[..|blocks| - 1]) + BlockWork(blocks[|blocks| - 1].difficulty)
  }

  /** The multiplication loop, with its overflow guard. */
  method CalculateBlockWork(difficulty: nat) returns (work: u64)
    ensures work == BlockWork(difficulty)
  {
    if difficulty == 0 {
      return 1;
    }
    if difficulty >= 16 {
      return MAX_U64;
    }
    work := 1;
    for i := 0 to difficulty
      invariant work == Power16(i)
    {
      if work > MAX_U64 / 16 {
        PowerGrows(i + 1, difficulty);
        assert Power16(i + 1) == 16 * work;
        return MAX_U64;
      }
      work := work * 16;
    }
  }

  lemma {:induction false} PowerGrows(i: nat, j: nat)
    requires i <= j
    ensures Power16(i) <= Power16(j)
    decreases j
  {
    if i < j {
      PowerGrows(i, j - 1);
    }
  }

  lemma {:induction false} WorkOfPrefix(blocks: seq<Block>, i: nat)
    requires i <= |blocks|
    ensures TotalWork(blocks[..i]) <= TotalWork(blocks)
  {
    if i < |blocks| {
      assert blocks[..|blocks| - 1][..i] == blocks[..i];
      WorkOfPrefix(blocks[..|blocks| - 1], i);
    } else {
      assert blocks[..i] == blocks;
    }
  }

  /** Cumulative work is the true total, saturated at 2^64 - 1. */
  method CalculateCumulativeWork(blocks: seq<Block>) returns (work: u64)
    ensures work == Cap(TotalWork(blocks))
  {
    work := 0;
    for i := 0 to |blocks|
      invariant work == TotalWork(blocks[..i])
    {
      assert blocks[..i + 1][..i] == blocks[..i];
      var blockWork := CalculateBlockWork(blocks[i].difficulty);
      if MAX_U64 - work < blockWork {
        WorkOfPrefix(blocks, i + 1);
        return MAX_U64;
      }
      work := work + blockWork;
    }
    assert blocks[..|blocks|] == blocks;
  }
}
