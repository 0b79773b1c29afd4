/** Work-based fork choice (p2p/reorg.go): when a peer's branch replaces the local one, and why the
    canonical chain never comes back to a chain it has left. Peer replies are arbitrary inputs. */
module ForkChoice {
  import opened Arith
  import opened Types
  import opened Chains
  import opened Locators
  import opened Nodes
  import Difficulty
  import Ledgers
  import Validation

  const DEFAULT_MAX_REORG_DEPTH: nat := 64
  const DEFAULT_MAX_REORG_FETCH: nat := 512
  const UINT64: nat := 0x1_0000_0000_0000_0000

  /** A peer's status height, its locator and its answers to block requests. */
  datatype Peer = Peer(height: u64, locator: seq<Entry>, block: u64 -> Option<Block>)

  datatype Decision =
    | DepthExceedsMax | FetchExceedsMax | TieSameWork | LocalAhead | BranchInvalid | ApplyHigherWork

  datatype Plan = Plan(ancestor: nat, branch: seq<Block>, localWork: u64, peerWork: u64, decision: Decision)

  function DepthLimit(profile: Profile, asked: nat): nat {
    if asked > 0 then asked
    else if profile.maxReorgDepth > 0 then profile.maxReorgDepth
    else DEFAULT_MAX_REORG_DEPTH
  }

  function FetchLimit(profile: Profile): nat {
    if profile.maxReorgFetch == 0 then DEFAULT_MAX_REORG_FETCH else profile.maxReorgFetch
  }

  /** Saturated cumulative work. */
  ghost function Work(blocks: seq<Block>): u64 {
    Cap(Difficulty.TotalWork(blocks))
  }

  /** The peer's blocks from one height up to another. */
  function Fetched(peer: Peer, start: nat, end: u64): Option<seq<Block>>
    decreases end + 1 - start
  {
    if end < start then Some([])
    else if end == start then
      var b :- peer.block(start);
      Some([b])
    else
      var before :- Fetched(peer, start, end - 1);
      var b :- peer.block(end);
      Some(before + [b])
  }

  /** The length of the peer's branch, as the implementation's 64-bit subtraction computes it. */
  function BranchDepth(peer: Peer, ancestor: nat): nat {
    (peer.height - ancestor) % UINT64
  }

  ghost function ChainWith(blocks: seq<Block>, ancestor: nat, branch: seq<Block>): seq<Block>
    requires ancestor < |blocks|
  {
    blocks[..ancestor + 1] + branch
  }

  /** The block the search finds, when it is close enough to both tips. */
  ghost predicate InReach(rules: Rules, blocks: seq<Block>, peer: Peer, limit: nat) {
    var found := FirstMatch(blocks, peer.locator);
    && found.Some? && found.value.height < |blocks|
    && |blocks| - 1 - found.value.height <= limit
    && BranchDepth(peer, found.value.height) <= FetchLimit(rules.env.profile)
  }

  /** Exactly when a peer's branch is to replace the local one: it leaves the local chain at most
      `limit` blocks down, can be fetched, has strictly more work, and validates from the genesis. */
  ghost predicate WorthReorg(rules: Rules, blocks: seq<Block>, peer: Peer, limit: nat) {
    && InReach(rules, blocks, peer, limit)
    && var ancestor := FirstMatch(blocks, peer.locator).value.height;
       var branch := Fetched(peer, ancestor + 1, peer.height);
       && branch.Some?
       && Work(ChainWith(blocks, ancestor, branch.value)) > Work(blocks)
       && ValidChain(rules, ChainWith(blocks, ancestor, branch.value))
  }

  ghost predicate CommonAt(blocks: seq<Block>, locator: seq<Entry>, height: nat)
    requires height < |blocks|
  {
    var found := FirstMatch(blocks, locator);
    found.Some? && found.value.height == height && found.value.hash == blocks[height].hash
  }

  /** The reason a plan gives is true of the two chains. */
  ghost predicate Justified(rules: Rules, blocks: seq<Block>, peer: Peer, limit: nat, plan: Plan) {
    && plan.ancestor < |blocks|
    && CommonAt(blocks, peer.locator, plan.ancestor)
    && var depth := |blocks| - 1 - plan.ancestor;
       var theirs := ChainWith(blocks, plan.ancestor, plan.branch);
       match plan.decision
       case DepthExceedsMax => depth > limit
       case FetchExceedsMax => depth <= limit && BranchDepth(peer, plan.ancestor) > FetchLimit(rules.env.profile)
       case _ =>
         && depth <= limit && BranchDepth(peer, plan.ancestor) <= FetchLimit(rules.env.profile)
         && Fetched(peer, plan.ancestor + 1, peer.height) == Some(plan.branch)
         && plan.localWork == Work(blocks) && plan.peerWork == Work(theirs)
         && (plan.decision == TieSameWork <==> Work(theirs) == Work(blocks))
         && (plan.decision == LocalAhead <==> Work(theirs) < Work(blocks))
         && (plan.decision == ApplyHigherWork <==> Work(theirs) > Work(blocks) && ValidChain(rules, theirs))
  }

  method FetchBranch(peer: Peer, start: nat) returns (branch: Option<seq<Block>>)
    ensures branch == Fetched(peer, start, peer.height)
  {
    var blocks: seq<Block> := [];
    var h := start;
    while h <= peer.height
      invariant start <= h && (h <= peer.height + 1 || h == start)
      invariant h > start ==> Fetched(peer, start, h - 1) == Some(blocks)
      invariant h == start ==> blocks == []
      decreases peer.height + 1 - h
    {
      var b := peer.block(h);
      if b.None? {
        FetchStops(peer, start, h, peer.height);
        return None;
      }
      assert h == start ==> blocks + [b.value] == [b.value];
      blocks := blocks + [b.value];
      h := h + 1;
    }
    return Some(blocks);
  }

  lemma {:induction false} FetchStops(peer: Peer, start: nat, h: nat, end: u64)
    requires start <= h <= end && peer.block(h).None?
    ensures Fetched(peer, start, end).None?
    decreases end
  {
    if h < end {
      FetchStops(peer, start, h, end - 1);
    }
  }

  method BuildReorgPlan(node: Blockchain, peer: Peer, asked: nat) returns (plan: Option<Plan>)
    requires node.Valid()
    ensures plan.Some? ==>
              Justified(node.rules, node.blocks, peer, DepthLimit(node.rules.env.profile, asked), plan.value)
    ensures (plan.Some? && plan.value.decision == ApplyHigherWork) <==>
            WorthReorg(node.rules, node.blocks, peer, DepthLimit(node.rules.env.profile, asked))
  {
    hide HashAt, Fetched, ValidChain, StateOf, Ready, StoredChain, FirstMatch, Difficulty.TotalWork, Cap, BranchDepth,
         FetchLimit, DepthLimit;
    ReadyParts(node.rules);
    var found := FindCommonAncestor(node.blocks, peer.locator);
    if found.None? {
      return None;
    }
    AncestorStored(node.rules, node.blocks, peer.locator);
    var ancestor: nat := found.value.height;
    var profile := node.rules.env.profile;
    var tip := node.blocks[|node.blocks| - 1];
    if tip.height - ancestor > DepthLimit(profile, asked) {
      return Some(Plan(ancestor, [], 0, 0, DepthExceedsMax));
    }
    if BranchDepth(peer, ancestor) > FetchLimit(profile) {
      return Some(Plan(ancestor, [], 0, 0, FetchExceedsMax));
    }
    var branch := FetchBranch(peer, ancestor + 1);
    if branch.None? {
      return None;
    }
    var full := node.blocks[..ancestor + 1] + branch.value;
    var localWork := Difficulty.CalculateCumulativeWork(node.blocks);
    var peerWork := Difficulty.CalculateCumulativeWork(full);
    var decision := TieSameWork;
    if peerWork < localWork {
      decision := LocalAhead;
    } else if peerWork > localWork {
      var ok := Validation.ValidateChain(node.rules, full);
      decision := if ok then ApplyHigherWork else BranchInvalid;
    }
    return Some(Plan(ancestor, branch.value, localWork, peerWork, decision));
  }

  lemma AncestorStored(rules: Rules, blocks: seq<Block>, locator: seq<Entry>)
    requires rules.WellFormed() && StoredChain(rules, blocks) && FirstMatch(blocks, locator).Some?
    ensures blocks != [] && FirstMatch(blocks, locator).value.height < |blocks|
    ensures FirstMatch(blocks, locator).value.hash == blocks[FirstMatch(blocks, locator).value.height].hash
    ensures blocks[|blocks| - 1].height == |blocks| - 1
  {
    hide StoredChain, Rules.WellFormed, HashAt;
    MatchesStored(blocks, locator);
    SameBlock(rules, blocks, FirstMatch(blocks, locator).value);
    TipHeight(rules, blocks);
  }

  // ---------------------------------------------------------------- honest peers

  /** The peer reports the chain it has: its tip, its locator, its blocks. */
  ghost predicate Honest(peer: Peer, theirs: seq<Block>) {
    && theirs != [] && peer.height == |theirs| - 1 && peer.locator == LocatorOf(theirs)
    && forall h: u64 :: h < |theirs| ==> peer.block(h) == Some(theirs[h])
  }

  lemma {:induction false} HonestBlocks(peer: Peer, theirs: seq<Block>, start: nat, end: u64)
    requires Honest(peer, theirs) && start <= end < |theirs|
    ensures Fetched(peer, start, end) == Some(theirs[start..end + 1])
    decreases end
  {
    if start < end {
      HonestBlocks(peer, theirs, start, end - 1);
      assert theirs[start..end + 1] == theirs[start..end] + [theirs[end]];
    } else {
      assert theirs[start..end + 1] == [theirs[end]];
    }
  }

  /** Chains that share everything up to `f` and nothing above. */
  ghost predicate PartAt(mine: seq<Block>, theirs: seq<Block>, f: nat) {
    && f < |mine| && f < |theirs| && mine[..f + 1] == theirs[..f + 1]
    && (f + 1 < |mine| && f + 1 < |theirs| ==> mine[f + 1].hash != theirs[f + 1].hash)
  }

  lemma HonestReply(rules: Rules, mine: seq<Block>, theirs: seq<Block>, peer: Peer, f: nat) returns (a: Entry)
    requires rules.WellFormed() && StoredChain(rules, mine) && StoredChain(rules, theirs) && HashesBind(mine, theirs)
    requires Honest(peer, theirs) && PartAt(mine, theirs, f) && f < |theirs| - 1
    ensures FirstMatch(mine, peer.locator) == Some(a) && a.height <= f && |theirs| - 1 - a.height < 2 * (|theirs| - 1 - f)
    ensures Fetched(peer, a.height + 1, peer.height) == Some(theirs[a.height + 1..])
    ensures ChainWith(mine, a.height, theirs[a.height + 1..]) == theirs
  {
    hide StoredChain, Rules.WellFormed, HashesBind, FirstMatch, LocatorOf, Fetched;
    assert mine[f] == mine[..f + 1][f] == theirs[..f + 1][f] == theirs[f];
    a := AncestorBound(rules, mine, theirs, f);
    HonestBlocks(peer, theirs, a.height + 1, peer.height);
    assert theirs[a.height + 1..peer.height + 1] == theirs[a.height + 1..];
    assert mine[..a.height + 1] == mine[..f + 1][..a.height + 1] == theirs[..f + 1][..a.height + 1] == theirs[..a.height + 1];
  }

  lemma ShortBranch(peer: Peer, a: nat)
    requires a <= peer.height
    ensures BranchDepth(peer, a) == peer.height - a
  {
  }

  /** An honest peer with a valid chain of more work is followed whenever twice its branch, and its branch
      together with ours, stay within the limits, configured or default. */
  lemma HonestPeerIsFollowed(rules: Rules, mine: seq<Block>, theirs: seq<Block>, peer: Peer, f: nat, asked: nat)
    requires rules.WellFormed() && StoredChain(rules, mine) && ValidChain(rules, theirs) && HashesBind(mine, theirs)
    requires Honest(peer, theirs) && PartAt(mine, theirs, f) && f < |theirs| - 1
    requires Cap(Difficulty.TotalWork(theirs)) > Cap(Difficulty.TotalWork(mine))
    requires
      var p, ours, branch := rules.env.profile, |mine| - 1 - f, |theirs| - 1 - f;
      && ours + branch <= (if asked > 0 then asked else if p.maxReorgDepth > 0 then p.maxReorgDepth else 64)
      && 2 * branch <= (if p.maxReorgFetch > 0 then p.maxReorgFetch else 512)
    ensures WorthReorg(rules, mine, peer, DepthLimit(rules.env.profile, asked))
  {
    assert StoredChain(rules, theirs) && Work(theirs) > Work(mine);
    Parted(mine, theirs, f);
    assert peer.height == |theirs| - 1;
    LimitsUsed(rules.env.profile, asked);
    hide *;
    var a := HonestReply(rules, mine, theirs, peer, f);
    ShortBranch(peer, a.height);
    WorthFrom(rules, mine, theirs, peer, a, DepthLimit(rules.env.profile, asked));
  }

  /** The limits asked for, configured, or taken by default. */
  lemma LimitsUsed(p: Profile, asked: nat)
    ensures DepthLimit(p, asked) == (if asked > 0 then asked else if p.maxReorgDepth > 0 then p.maxReorgDepth else 64)
    ensures FetchLimit(p) == (if p.maxReorgFetch > 0 then p.maxReorgFetch else 512)
  {
  }

  lemma WorthFrom(rules: Rules, mine: seq<Block>, theirs: seq<Block>, peer: Peer, a: Entry, limit: nat)
    requires FirstMatch(mine, peer.locator) == Some(a) && a.height < |mine| && |mine| - 1 - a.height <= limit
    requires a.height < |theirs| && BranchDepth(peer, a.height) <= FetchLimit(rules.env.profile)
    requires Fetched(peer, a.height + 1, peer.height) == Some(theirs[a.height + 1..])
    requires ChainWith(mine, a.height, theirs[a.height + 1..]) == theirs
    requires Work(theirs) > Work(mine) && ValidChain(rules, theirs)
    ensures WorthReorg(rules, mine, peer, limit)
  {
    hide ValidChain, FirstMatch, Fetched, ChainWith, Work, BranchDepth;
  }

  lemma Parted(mine: seq<Block>, theirs: seq<Block>, f: nat)
    requires PartAt(mine, theirs, f)
    ensures f < |mine| && f < |theirs|
  {
  }

  // ---------------------------------------------------------------- applying a plan

  /** One accepted reorganisation: a common prefix is kept, at most `limit` blocks (and at least one)
      are disconnected, and the new chain validates and has more work. */
  ghost predicate Reorged(rules: Rules, before: seq<Block>, after: seq<Block>, ancestor: nat, limit: nat) {
    && ancestor + 1 < |before| && |before| - 1 - ancestor <= limit
    && ancestor + 1 < |after| && after[..ancestor + 1] == before[..ancestor + 1]
    && ValidChain(rules, after)
    && Work(after) > Work(before)
  }

  /** What can still stop a planned reorganisation when it is stored. */
  ghost predicate Storable(rules: Rules, blocks: seq<Block>, peer: Peer)
    requires WorthReorg(rules, blocks, peer, |blocks|)
  {
    var ancestor := FirstMatch(blocks, peer.locator).value.height;
    var full := ChainWith(blocks, ancestor, Fetched(peer, ancestor + 1, peer.height).value);
    && ancestor + 1 < |blocks|
    && Ledgers.Replay(rules.env, full).Some?
    && LegacyRootHolds(rules, full)
  }

  lemma WorthAtAnyDepth(rules: Rules, blocks: seq<Block>, peer: Peer, limit: nat)
    requires WorthReorg(rules, blocks, peer, limit)
    ensures WorthReorg(rules, blocks, peer, |blocks|)
  {
    hide FirstMatch, Fetched, ValidChain;
  }

  lemma MoreWorkIsMoreBlocks(blocks: seq<Block>, ancestor: nat, branch: seq<Block>)
    requires ancestor < |blocks| && Work(ChainWith(blocks, ancestor, branch)) > Work(blocks)
    ensures branch != []
  {
    if branch == [] {
      assert ChainWith(blocks, ancestor, branch) == blocks[..ancestor + 1];
      Difficulty.WorkOfPrefix(blocks, ancestor + 1);
    }
  }

  /** Replaces the local branch when the plan allows it. After the replacement the whole chain is
      validated once more, which cannot fail. The transactions of the replaced blocks come back. */
  method ApplyReorg(node: Blockchain, peer: Peer, asked: nat, yes: bool)
      returns (applied: bool, disconnected: seq<Block>)
    requires node.Valid()
    modifies node
    ensures node.Valid()
    ensures !applied ==> node.blocks == old(node.blocks)
    ensures applied <==>
            && yes && WorthReorg(node.rules, old(node.blocks), peer, DepthLimit(node.rules.env.profile, asked))
            && WorthReorg(node.rules, old(node.blocks), peer, |old(node.blocks)|)
            && Storable(node.rules, old(node.blocks), peer)
    ensures applied ==>
              exists ancestor ::
                && Reorged(node.rules, old(node.blocks), node.blocks, ancestor, DepthLimit(node.rules.env.profile, asked))
                && disconnected == old(node.blocks)[ancestor + 1..]
  {
    hide FirstMatch, Fetched, ValidChain, StateOf, Ready, StoredChain, LegacyRootHolds, Work, Ledgers.Replay, InReach;
    disconnected := [];
    if !yes {
      return false, [];
    }
    ReadyParts(node.rules);
    var plan := BuildReorgPlan(node, peer, asked);
    if plan.None? || plan.value.decision != ApplyHigherWork {
      return false, [];
    }
    ghost var limit := DepthLimit(node.rules.env.profile, asked);
    WorthAtAnyDepth(node.rules, node.blocks, peer, limit);
    var ancestor, branch := plan.value.ancestor, plan.value.branch;
    PlanParts(node.rules, node.blocks, peer, limit, ancestor, branch);
    disconnected := node.blocks[ancestor + 1..];
    ghost var before := node.blocks;
    applied := node.ReplaceFromHeight(ancestor + 1, branch);
    if applied {
      var valid := Validation.ValidateChain(node.rules, node.blocks);
      assert valid && Reorged(node.rules, before, node.blocks, ancestor, limit);
    }
  }

  lemma PlanParts(rules: Rules, blocks: seq<Block>, peer: Peer, limit: nat, ancestor: nat, branch: seq<Block>)
    requires WorthReorg(rules, blocks, peer, limit)
    requires FirstMatch(blocks, peer.locator).value.height == ancestor
    requires Fetched(peer, ancestor + 1, peer.height) == Some(branch)
    ensures ancestor < |blocks| && |blocks| - 1 - ancestor <= limit && branch != []
    ensures StoredChain(rules, blocks[..ancestor + 1] + branch)
    ensures ValidChain(rules, blocks[..ancestor + 1] + branch)
    ensures Work(blocks[..ancestor + 1] + branch) > Work(blocks)
  {
    hide FirstMatch, Fetched, StoredChain;
    MoreWorkIsMoreBlocks(blocks, ancestor, branch);
  }

  /** A canonical tip always replays: its validation has executed it. */
  lemma CanonicalTipReplays(rules: Rules, full: seq<Block>)
    requires rules.WellFormed() && StoredChain(rules, full) && |full| > 1
    requires full[|full| - 1].ProtocolVersion() == BLOCK_VERSION_CANONICAL
    ensures Ledgers.Replay(rules.env, full).Some?
  {
    hide StoredChain, Rules.WellFormed, Ledgers.Replay, Ledgers.ApplyBlock, ValidNext;
    var n := |full| - 1;
    BlockInChain(rules, full, n);
    assert full[..n] + [full[n]] == full;
    PriorReplays(rules, full[n], full[..n]);
    NextExecutes(rules, full[n], full[..n]);
    NextReplay(rules, full[..n], full[n]);
  }

  lemma PriorReplays(rules: Rules, b: Block, prior: seq<Block>)
    requires prior != [] && ValidNext(rules, b, prior)
    ensures Ledgers.Replay(rules.env, prior).Some?
  {
    hide HeaderValid, TxListAllowed, Ledgers.Replay, Ledgers.ApplyAll, StateRootValid;
  }

  // ---------------------------------------------------------------- progress

  /** Saturated work first, then length. */
  ghost predicate Outranks(y: seq<Block>, x: seq<Block>) {
    Work(y) > Work(x) || (Work(y) == Work(x) && |y| > |x|)
  }

  ghost predicate Extended(rules: Rules, before: seq<Block>, after: seq<Block>) {
    && before != [] && |after| == |before| + 1 && after[..|before|] == before
    && ValidNext(rules, after[|before|], before)
  }

  /** One accepted block or one reorganisation, each atomic. */
  ghost predicate Step(rules: Rules, limit: nat, before: seq<Block>, after: seq<Block>) {
    Extended(rules, before, after) || exists ancestor :: Reorged(rules, before, after, ancestor, limit)
  }

  ghost predicate Run(rules: Rules, limit: nat, run: seq<seq<Block>>) {
    && run != [] && StoredChain(rules, run[0])
    && forall i :: 0 <= i < |run| - 1 ==> Step(rules, limit, run[i], run[i + 1])
  }

  lemma StepRaises(rules: Rules, limit: nat, before: seq<Block>, after: seq<Block>)
    requires Step(rules, limit, before, after)
    ensures Outranks(after, before)
  {
    hide ValidNext, ValidChain;
    if Extended(rules, before, after) {
      assert Difficulty.TotalWork(after)
          == Difficulty.TotalWork(before) + Difficulty.BlockWork(after[|before|].difficulty);
    }
  }

  lemma StepStored(rules: Rules, limit: nat, before: seq<Block>, after: seq<Block>)
    requires rules.WellFormed() && StoredChain(rules, before) && Step(rules, limit, before, after)
    ensures StoredChain(rules, after)
  {
    hide ValidNext, StoredChain, Work, Rules.WellFormed;
    if Extended(rules, before, after) {
      assert after == before + [after[|before|]];
      StoredGrows(rules, before, after[|before|]);
    }
  }

  /** Over any run the rank strictly rises, so no canonical chain is ever visited twice; and every
      chain on the way validates block by block. */
  lemma {:induction false} NeverRevisited(rules: Rules, limit: nat, run: seq<seq<Block>>, i: nat, j: nat)
    requires rules.WellFormed() && Run(rules, limit, run) && i < j < |run|
    ensures Outranks(run[j], run[i]) && run[i] != run[j]
    decreases j
  {
    hide Step, Work, StoredChain;
    assert Step(rules, limit, run[j - 1], run[j - 1 + 1]);
    StepRaises(rules, limit, run[j - 1], run[j]);
    if i < j - 1 {
      NeverRevisited(rules, limit, run, i, j - 1);
    }
  }

  lemma {:induction false} RunStored(rules: Rules, limit: nat, run: seq<seq<Block>>, i: nat)
    requires rules.WellFormed() && Run(rules, limit, run) && i < |run|
    ensures StoredChain(rules, run[i])
  {
    hide Step, StoredChain, Rules.WellFormed;
    if i > 0 {
      RunStored(rules, limit, run, i - 1);
      assert Step(rules, limit, run[i - 1], run[i - 1 + 1]);
      StepStored(rules, limit, run[i - 1], run[i]);
    }
  }

  /** Once cumulative work has saturated, no branch can displace the chain any more. */
  lemma SaturatedNeverReorgs(rules: Rules, before: seq<Block>, after: seq<Block>, ancestor: nat, limit: nat)
    requires Difficulty.TotalWork(before) >= MAX_U64
    ensures !Reorged(rules, before, after, ancestor, limit)
  {
    hide ValidChain;
  }
}
