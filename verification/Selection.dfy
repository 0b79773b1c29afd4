/** Block-space selection (mempool/selection.go): a greedy scheduler over the senders' next ready
    transactions. Go's map iteration order and its unstable sort are arbitrary choices here. */
module Selection {
  import opened Arith
  import opened Types
  import Fees
  import Ledgers
  import Text

  datatype Candidate = Candidate(tx: Transaction, gas: u64)

  type Queues = map<Address, seq<Candidate>>

  // ---------------------------------------------------------------- priority

  /** More fee per gas by cross multiplication, then more fee, then less gas. */
  predicate Better(a: Candidate, b: Candidate) {
    var left, right := a.tx.fee * b.gas, b.tx.fee * a.gas;
    if left != right then left > right
    else if a.tx.fee != b.tx.fee then a.tx.fee > b.tx.fee
    else a.gas < b.gas
  }

  predicate Tied(a: Candidate, b: Candidate) {
    a.tx.fee == b.tx.fee && a.gas == b.gas
  }

  predicate HigherPriority(a: Candidate, b: Candidate) {
    Better(a, b) || (Tied(a, b) && Text.Less(a.tx.id, b.tx.id))
  }

  /** Whether `c`, the head of another sender, displaces the best head found so far. */
  predicate Displaces(c: Candidate, best: Candidate) {
    || HigherPriority(c, best)
    || (Tied(c, best) && (Text.Less(c.tx.sender, best.tx.sender)
                          || (c.tx.sender == best.tx.sender && Text.Less(c.tx.id, best.tx.id))))
  }

  /** Exactly one of better, worse and tied holds, gas 0 included. */
  lemma PriorityIsTotal(a: Candidate, b: Candidate)
    ensures !(Better(a, b) && Better(b, a))
    ensures Tied(a, b) <==> !Better(a, b) && !Better(b, a)
  {
  }

  /** At least as much fee per unit of gas; at the same rate, as much fee; and at the same fee, no more gas. */
  predicate NoCheaper(c: Transaction, gas: nat, h: Transaction, other: nat) {
    && c.fee * other >= h.fee * gas
    && (c.fee * other == h.fee * gas ==> c.fee >= h.fee && (c.fee == h.fee ==> gas <= other))
  }

  lemma NotBetter(c: Candidate, h: Candidate)
    requires !Better(h, c)
    ensures NoCheaper(c.tx, c.gas, h.tx, h.gas)
  {
  }

  lemma ScaleBoth(x: nat, y: nat, k: nat)
    requires k > 0
    ensures x * k >= y * k <==> x >= y
    ensures x * k == y * k <==> x == y
  {
  }

  /** Chaining two cross-multiplied comparisons over a middle with positive gas. */
  lemma RatiosChain(af: nat, ag: nat, bf: nat, bg: nat, cf: nat, cg: nat)
    requires bg > 0 && af * bg >= bf * ag && bf * cg >= cf * bg
    ensures af * cg >= cf * ag
    ensures af * cg == cf * ag ==> (af * bg == bf * ag || cg == 0) && (bf * cg == cf * bg || ag == 0)
  {
    var x, y, z, w := af * bg, bf * ag, bf * cg, cf * bg;
    assert x * cg == (af * cg) * bg && w * ag == (cf * ag) * bg;
    assert y * cg == z * ag;
    ScaleBoth(af * cg, cf * ag, bg);
    assert x * cg >= y * cg;
    assert z * ag >= w * ag;
    if cg > 0 { ScaleBoth(x, y, cg); }
    if ag > 0 { ScaleBoth(z, w, ag); }
  }

  lemma PriorityIsTransitive(a: Candidate, b: Candidate, c: Candidate)
    requires Better(a, b) && Better(b, c)
    ensures Better(a, c)
  {
    if b.gas > 0 {
      RatiosChain(a.tx.fee, a.gas, b.tx.fee, b.gas, c.tx.fee, c.gas);
    }
  }

  // ---------------------------------------------------------------- grouping

  /** What makes the whole selection fail when a listed transaction lacks it. */
  predicate Selectable(env: Env, tx: Transaction) {
    && TxVersionActive(tx.ProtocolVersion(), env.profile.txVersion)
    && Fees.Acceptable(env, tx)
    && (tx.ProtocolVersion() == TX_VERSION_ASSET ==> Ledgers.EnvelopeValid(tx) && Ledgers.FeePayerAuthorized(env, tx))
    && Fees.GasUsed(env, tx).Some?
  }

  predicate AllSelectable(env: Env, txs: seq<Transaction>) {
    forall i :: 0 <= i < |txs| && !txs[i].coinbase ==> Selectable(env, txs[i])
  }

  function CandidateOf(env: Env, tx: Transaction): Candidate {
    var gas := Fees.GasUsed(env, tx);
    Candidate(tx, if gas.Some? then gas.value else 0)
  }

  /** A sender's candidates, in the order listed. */
  function Candidates(env: Env, txs: seq<Transaction>, a: Address): seq<Candidate> {
    if txs == [] then []
    else
      var tx := txs[|txs| - 1];
      Candidates(env, txs[..|txs| - 1], a)
        + (if !tx.coinbase && tx.sender == a then [CandidateOf(env, tx)] else [])
  }

  method GroupBySender(env: Env, txs: seq<Transaction>) returns (ok: bool, groups: Queues)
    ensures ok <==> AllSelectable(env, txs)
    ensures ok ==> forall a :: (a in groups <==> Candidates(env, txs, a) != [])
                               && (a in groups ==> groups[a] == Candidates(env, txs, a))
  {
    hide Selectable, Fees.GasUsed;
    groups := map[];
    for i := 0 to |txs|
      invariant AllSelectable(env, txs[..i])
      invariant forall a :: (a in groups <==> Candidates(env, txs[..i], a) != [])
                            && (a in groups ==> groups[a] == Candidates(env, txs[..i], a))
    {
      assert txs[..i + 1][..i] == txs[..i];
      var tx := txs[i];
      if tx.coinbase {
        continue;
      }
      if !Selectable(env, tx) {
        return false, groups;
      }
      var list := if tx.sender in groups then groups[tx.sender] else [];
      groups := groups[tx.sender := list + [CandidateOf(env, tx)]];
    }
    assert txs[..|txs|] == txs;
    ok := true;
  }

  lemma {:induction false} CandidatesListed(env: Env, txs: seq<Transaction>, a: Address, i: nat)
    requires i < |Candidates(env, txs, a)|
    ensures
      var c := Candidates(env, txs, a)[i];
      c.tx in txs && !c.tx.coinbase && c.tx.sender == a && c == CandidateOf(env, c.tx)
  {
    hide Fees.GasUsed;
    var n := |txs| - 1;
    var before := Candidates(env, txs[..n], a);
    if i < |before| {
      CandidatesListed(env, txs[..n], a, i);
    }
  }

  // ---------------------------------------------------------------- ready queues

  predicate Earlier(a: Candidate, b: Candidate) {
    a.tx.nonce < b.tx.nonce || (a.tx.nonce == b.tx.nonce && Text.Less(a.tx.id, b.tx.id))
  }

  ghost predicate Sorted(list: seq<Candidate>) {
    forall i, j :: 0 <= i < j < |list| ==> !Earlier(list[j], list[i])
  }

  lemma EarlierIsTransitive(a: Candidate, b: Candidate, c: Candidate)
    ensures !Earlier(b, a) && !Earlier(c, b) ==> !Earlier(c, a)
  {
    hide Text.Less;
    Text.LessIsStrictTotalOrder(a.tx.id, b.tx.id);
    Text.LessIsStrictTotalOrder(b.tx.id, c.tx.id);
    Text.LessIsStrictTotalOrder(a.tx.id, c.tx.id);
    if Text.Less(a.tx.id, b.tx.id) && Text.Less(b.tx.id, c.tx.id) {
      Text.LessTransitive(a.tx.id, b.tx.id, c.tx.id);
    }
    if Text.Less(c.tx.id, a.tx.id) && Text.Less(a.tx.id, b.tx.id) {
      Text.LessTransitive(c.tx.id, a.tx.id, b.tx.id);
    }
  }

  method InsertSorted(list: seq<Candidate>, c: Candidate) returns (more: seq<Candidate>)
    requires Sorted(list)
    ensures Sorted(more) && multiset(more) == multiset(list) + multiset{c}
  {
    hide Earlier;
    var i: int := |list|;
    while i > 0 && Earlier(c, list[i - 1])
      invariant 0 <= i <= |list| && forall k :: i <= k < |list| ==> Earlier(c, list[k])
    {
      i := i - 1;
    }
    more := list[..i] + [c] + list[i..];
    assert list == list[..i] + list[i..];
    InsertedSorted(list, c, i);
  }

  lemma InsertedSorted(list: seq<Candidate>, c: Candidate, i: nat)
    requires Sorted(list) && i <= |list|
    requires forall k :: i <= k < |list| ==> Earlier(c, list[k])
    requires i > 0 ==> !Earlier(c, list[i - 1])
    ensures Sorted(list[..i] + [c] + list[i..])
  {
    hide Earlier;
    forall k | 0 <= k < |list|
      ensures k < i ==> !Earlier(c, list[k])
      ensures k >= i ==> !Earlier(list[k], c)
    {
      if k < i - 1 {
        EarlierIsTransitive(list[k], list[i - 1], c);
      }
      NotBothEarlier(c, list[k]);
    }
  }

  lemma NotBothEarlier(a: Candidate, b: Candidate)
    ensures !(Earlier(a, b) && Earlier(b, a))
  {
    Text.LessIsStrictTotalOrder(a.tx.id, b.tx.id);
    hide Text.Less;
  }

  /** Sorts by nonce and then by id; entries with both equal may come out in any order. */
  method SortByNonce(list: seq<Candidate>) returns (sorted: seq<Candidate>)
    ensures Sorted(sorted) && multiset(sorted) == multiset(list)
  {
    sorted := [];
    for i := 0 to |list|
      invariant Sorted(sorted) && multiset(sorted) == multiset(list[..i])
    {
      assert list[..i + 1] == list[..i] + [list[i]];
      sorted := InsertSorted(sorted, list[i]);
    }
    assert list[..|list|] == list;
  }

  /** One candidate per nonce from `start` on, without a gap and as far as the list goes, each with
      the least id of its nonce. */
  ghost predicate IsReady(list: seq<Candidate>, start: nat, ready: seq<Candidate>) {
    && (forall i :: 0 <= i < |ready| ==> ready[i] in list && ready[i].tx.nonce == start + i)
    && (forall i, c :: 0 <= i < |ready| && c in list && c.tx.nonce == start + i ==> !Text.Less(c.tx.id, ready[i].tx.id))
    && (forall c :: c in list ==> c.tx.nonce != start + |ready|)
  }

  method ReadyPrefix(sorted: seq<Candidate>, start: u64) returns (ready: seq<Candidate>)
    requires Sorted(sorted)
    ensures IsReady(sorted, start, ready)
  {
    hide Text.Less;
    ready := [];
    var expected: int := start;
    var i := 0;
    while i < |sorted|
      invariant i <= |sorted| && expected == start + |ready| <= MAX_U64
      invariant forall k :: 0 <= k < |ready| ==> ready[k] in sorted[..i] && ready[k].tx.nonce == start + k
      invariant forall k, c :: 0 <= k < |ready| && c in sorted && c.tx.nonce == start + k ==> !Text.Less(c.tx.id, ready[k].tx.id)
      invariant forall c :: c in sorted[..i] ==> c.tx.nonce < expected
    {
      var c := sorted[i];
      assert sorted[..i + 1] == sorted[..i] + [c];
      FromHereOn(sorted, i);
      if c.tx.nonce < expected {
        i := i + 1;
        continue;
      }
      if c.tx.nonce != expected {
        return;
      }
      ready := ready + [c];
      if expected == MAX_U64 {
        return;
      }
      expected := expected + 1;
      i := i + 1;
    }
    assert sorted[..i] == sorted;
  }

  lemma FromHereOn(sorted: seq<Candidate>, i: nat)
    requires Sorted(sorted) && i < |sorted|
    ensures forall c :: c in sorted ==> c in sorted[..i] || NotEarlier(c, sorted[i])
  {
    assert sorted == sorted[..i] + sorted[i..];
    forall c | c in sorted[i..]
      ensures NotEarlier(c, sorted[i])
    {
      var k :| 0 <= k < |sorted[i..]| && sorted[i..][k] == c;
      Text.LessIsStrictTotalOrder(c.tx.id, c.tx.id);
      hide Text.Less;
    }
  }

  predicate NotEarlier(c: Candidate, d: Candidate) {
    c.tx.nonce >= d.tx.nonce && (c.tx.nonce == d.tx.nonce ==> !Text.Less(c.tx.id, d.tx.id))
  }

  // ---------------------------------------------------------------- the greedy run

  predicate Fits(c: Candidate, used: nat, maxGas: u64) {
    maxGas > 0 ==> c.gas <= maxGas && used + c.gas <= maxGas
  }

  /** Every queue holds its own sender's candidates. */
  ghost predicate OwnQueues(queues: Queues) {
    forall a :: a in queues ==> forall i :: 0 <= i < |queues[a]| ==> queues[a][i].tx.sender == a
  }

  /** `a`'s head competes for the space that is left. */
  predicate Competes(queues: Queues, a: Address, used: nat, maxGas: u64) {
    a in queues && queues[a] != [] && Fits(queues[a][0], used, maxGas)
  }

  /** The heads that compete for the space that is left, one for each sender at most. */
  ghost function Heads(queues: Queues, used: nat, maxGas: u64): set<Candidate> {
    set a | a in queues && Competes(queues, a, used, maxGas) :: queues[a][0]
  }

  /** An order in which the scan may come across these heads. */
  ghost predicate Visits(order: seq<Candidate>, heads: set<Candidate>) {
    && (forall c :: c in order <==> c in heads)
    && (forall i, j :: 0 <= i < j < |order| ==> order[i] != order[j])
  }

  /** What is best after visiting these heads one after the other. */
  function Scan(order: seq<Candidate>): Option<Candidate> {
    if order == [] then None
    else
      var best, c := Scan(order[..|order| - 1]), order[|order| - 1];
      if best.Some? && !Displaces(c, best.value) then best else Some(c)
  }

  /** `c` is what the scan returns for some visiting order. */
  ghost predicate IsPick(queues: Queues, used: nat, maxGas: u64, c: Candidate) {
    && Competes(queues, c.tx.sender, used, maxGas) && queues[c.tx.sender][0] == c
    && exists order :: Visits(order, Heads(queues, used, maxGas)) && Scan(order) == Some(c)
  }

  function Advance(queues: Queues, a: Address): Queues {
    if a in queues && queues[a] != [] then queues[a := queues[a][1..]] else queues
  }

  function After(queues: Queues, picks: seq<Candidate>): Queues {
    if picks == [] then queues
    else Advance(After(queues, picks[..|picks| - 1]), picks[|picks| - 1].tx.sender)
  }

  function Gas(picks: seq<Candidate>): nat {
    if picks == [] then 0 else Gas(picks[..|picks| - 1]) + picks[|picks| - 1].gas
  }

  ghost predicate Greedy(queues: Queues, maxGas: u64, picks: seq<Candidate>) {
    picks == [] ||
      var n := |picks| - 1;
      Greedy(queues, maxGas, picks[..n]) && IsPick(After(queues, picks[..n]), Gas(picks[..n]), maxGas, picks[n])
  }

  /** No head fits any more. */
  ghost predicate Exhausted(queues: Queues, used: nat, maxGas: u64) {
    forall a :: !Competes(queues, a, used, maxGas)
  }

  function Txs(picks: seq<Candidate>): seq<Transaction> {
    seq(|picks|, i requires 0 <= i < |picks| => picks[i].tx)
  }

  // ---------------------------------------------------------------- one scan

  /** Better, or tied and from the smaller sender: a strict total order on heads of different senders. */
  predicate Ahead(c: Candidate, d: Candidate) {
    Better(c, d) || (Tied(c, d) && Text.Less(c.tx.sender, d.tx.sender))
  }

  ghost predicate OfDifferentSenders(heads: set<Candidate>) {
    forall c, d :: c in heads && d in heads && c.tx.sender == d.tx.sender ==> c == d
  }

  /** A head that no other one displaces. */
  ghost predicate Undisplaced(heads: set<Candidate>, h: Candidate) {
    h in heads && forall d :: d in heads && d != h ==> !Displaces(d, h)
  }

  ghost predicate Decided(heads: set<Candidate>) {
    exists h :: Undisplaced(heads, h)
  }

  lemma AheadIsTransitive(a: Candidate, b: Candidate, c: Candidate)
    requires Ahead(a, b) && Ahead(b, c)
    ensures Ahead(a, c)
  {
    if Better(a, b) && Better(b, c) {
      PriorityIsTransitive(a, b, c);
    } else if Tied(a, b) && Tied(b, c) {
      Text.LessTransitive(a.tx.sender, b.tx.sender, c.tx.sender);
    }
    hide Text.Less;
  }

  /** Between heads of different senders one displaces the other; both do exactly when they tie in fee
      and gas and the smaller sender has the larger id. */
  lemma DisplacesBothWays(c: Candidate, d: Candidate)
    requires c.tx.sender != d.tx.sender
    ensures Displaces(c, d) || Displaces(d, c)
    ensures Ahead(c, d) || Ahead(d, c)
    ensures Ahead(c, d) ==> Displaces(c, d) && (Displaces(d, c) <==> Tied(c, d) && Text.Less(d.tx.id, c.tx.id))
  {
    Text.LessIsStrictTotalOrder(c.tx.sender, d.tx.sender);
    Text.LessIsStrictTotalOrder(c.tx.id, d.tx.id);
    PriorityIsTotal(c, d);
    hide Text.Less, Better;
  }

  /** An undisplaced head is the one ahead of all others, and none that ties with it has a smaller id. */
  lemma UndisplacedIsAhead(heads: set<Candidate>, h: Candidate)
    requires OfDifferentSenders(heads)
    ensures Undisplaced(heads, h) <==>
              && h in heads
              && forall d :: d in heads && d != h ==> Ahead(h, d) && !(Tied(h, d) && Text.Less(d.tx.id, h.tx.id))
  {
    forall d | h in heads && d in heads && d != h
      ensures !Displaces(d, h) <==> Ahead(h, d) && !(Tied(h, d) && Text.Less(d.tx.id, h.tx.id))
    {
      DisplacesBothWays(h, d);
      DisplacesBothWays(d, h);
    }
    hide Displaces, Ahead, Tied, Text.Less;
  }

  /** One comparison of the scan: the survivor is never worse than the head it was compared with. */
  lemma ScanStep(c: Candidate, best: Candidate, seen: Candidate)
    requires !Better(seen, best)
    ensures Displaces(c, best) ==> !Better(seen, c) && !Better(best, c)
    ensures !Displaces(c, best) ==> !Better(c, best)
  {
    hide Text.Less;
    if Displaces(c, best) && Better(seen, c) {
      if Better(c, best) {
        PriorityIsTransitive(seen, c, best);
      }
    }
    PriorityIsTotal(c, best);
  }

  /** A scan returns one of the visited heads, and none of them is better. */
  lemma {:induction false} ScanIsBest(order: seq<Candidate>)
    ensures Scan(order).None? <==> order == []
    ensures Scan(order).Some? ==> Scan(order).value in order && forall d :: d in order ==> !Better(d, Scan(order).value)
  {
    if order != [] {
      var n := |order| - 1;
      var before, c := order[..n], order[n];
      ScanIsBest(before);
      PriorityIsTotal(c, c);
      hide Better, Displaces;
      assert forall d :: d in order ==> d in before || d == c;
      if before != [] {
        var best := Scan(before).value;
        assert order[..n] == before;
        ScanStep(c, best, best);
        forall d | d in before
          ensures Displaces(c, best) ==> !Better(d, c)
        {
          ScanStep(c, best, d);
        }
      }
    }
  }

  /** No competing head is better than the pick. */
  lemma PickIsBest(queues: Queues, used: nat, maxGas: u64, c: Candidate, a: Address)
    requires IsPick(queues, used, maxGas, c) && Competes(queues, a, used, maxGas)
    ensures !Better(queues[a][0], c)
  {
    hide Better, Scan;
    var heads := Heads(queues, used, maxGas);
    var order :| Visits(order, heads) && Scan(order) == Some(c);
    ScanIsBest(order);
    assert queues[a][0] in heads;
  }

  /** An undisplaced head wins every scan. */
  lemma {:induction false} UndisplacedWins(order: seq<Candidate>, h: Candidate)
    requires forall d :: d in order && d != h ==> Displaces(h, d) && !Displaces(d, h)
    ensures h in order ==> Scan(order) == Some(h)
  {
    hide Displaces;
    if order != [] {
      var n := |order| - 1;
      var before := order[..n];
      assert order == before + [order[n]];
      UndisplacedWins(before, h);
      if Scan(before).Some? {
        ScanIsBest(before);
      }
    }
  }

  lemma {:induction false} SomeOrder(heads: set<Candidate>) returns (order: seq<Candidate>)
    ensures Visits(order, heads)
    decreases |heads|
  {
    order := [];
    if heads != {} {
      var c :| c in heads;
      order := SomeOrder(heads - {c});
      order := order + [c];
    }
  }

  /** Appending a head that displaces all others makes it the winner. */
  lemma LastWins(order: seq<Candidate>, c: Candidate)
    requires forall d :: d in order ==> Displaces(c, d)
    ensures Scan(order + [c]) == Some(c)
  {
    hide Displaces, Better;
    ScanIsBest(order);
    assert (order + [c])[..|order|] == order;
  }

  lemma {:induction false} SomeLeader(heads: set<Candidate>) returns (s: Candidate)
    requires heads != {} && OfDifferentSenders(heads)
    ensures s in heads && forall d :: d in heads && d != s ==> Ahead(s, d)
    decreases |heads|
  {
    hide Ahead;
    s :| s in heads;
    var rest := heads - {s};
    if rest != {} {
      var r := SomeLeader(rest);
      DisplacesBothWays(s, r);
      if Ahead(r, s) {
        s := r;
      } else {
        forall d | d in rest && d != r
          ensures Ahead(s, d)
        {
          AheadIsTransitive(s, r, d);
        }
      }
    }
  }

  /** Without an undisplaced head, the least sender among the best wins when it is visited last, and so
      does a head with a smaller id that ties with it. */
  lemma TwoOutcomes(heads: set<Candidate>) returns (o1: seq<Candidate>, o2: seq<Candidate>)
    requires heads != {} && OfDifferentSenders(heads) && !Decided(heads)
    ensures Visits(o1, heads) && Visits(o2, heads)
    ensures Scan(o1).Some? && Scan(o2).Some? && Scan(o1) != Scan(o2)
  {
    hide Ahead, Displaces, Scan;
    var s := SomeLeader(heads);
    assert !Undisplaced(heads, s);
    var d :| d in heads && d != s && Displaces(d, s);
    forall x | x in heads && x != s
      ensures Displaces(s, x)
    {
      DisplacesBothWays(s, x);
    }
    hide Undisplaced, Decided, OfDifferentSenders;
    var others := SomeOrder(heads - {s});
    LastWins(others, s);
    VisitsMore(others, heads, s);
    o1 := others + [s];
    var rest := SomeOrder(heads - {s, d});
    LastWins(rest, s);
    VisitsMore(rest, heads - {d}, s);
    VisitsMore(rest + [s], heads, d);
    o2 := rest + [s] + [d];
    ScanAppends(rest + [s], d);
  }

  lemma VisitsMore(order: seq<Candidate>, heads: set<Candidate>, c: Candidate)
    requires c in heads && Visits(order, heads - {c})
    ensures Visits(order + [c], heads)
  {
    var more := order + [c];
    assert more[|order|] == c && forall i :: 0 <= i < |order| ==> more[i] == order[i] && order[i] in order;
    assert forall d :: d in more <==> d in order || d == c;
  }

  lemma ScanAppends(order: seq<Candidate>, c: Candidate)
    ensures Scan(order + [c]) ==
            if Scan(order).Some? && !Displaces(c, Scan(order).value) then Scan(order) else Some(c)
  {
    hide Displaces;
    assert (order + [c])[..|order|] == order;
  }

  lemma HeadsAreOwn(queues: Queues, used: nat, maxGas: u64)
    requires OwnQueues(queues)
    ensures OfDifferentSenders(Heads(queues, used, maxGas))
    ensures forall c :: c in Heads(queues, used, maxGas) <==>
                          Competes(queues, c.tx.sender, used, maxGas) && queues[c.tx.sender][0] == c
    ensures Heads(queues, used, maxGas) == {} <==> Exhausted(queues, used, maxGas)
  {
    hide Fits;
    var heads := Heads(queues, used, maxGas);
    forall a | Competes(queues, a, used, maxGas)
      ensures queues[a][0] in heads && queues[a][0].tx.sender == a
    {
    }
    forall c | c in heads
      ensures Competes(queues, c.tx.sender, used, maxGas) && queues[c.tx.sender][0] == c
    {
      var a :| a in queues && Competes(queues, a, used, maxGas) && c == queues[a][0];
    }
  }

  lemma OrderPicks(queues: Queues, used: nat, maxGas: u64, order: seq<Candidate>)
    requires OwnQueues(queues) && Visits(order, Heads(queues, used, maxGas)) && Scan(order).Some?
    ensures IsPick(queues, used, maxGas, Scan(order).value)
  {
    hide Better, Scan, Fits;
    ScanIsBest(order);
    HeadsAreOwn(queues, used, maxGas);
  }

  /** The pick is the same for every visiting order if and only if some competing head is displaced by
      no other. */
  lemma PickIsUnique(queues: Queues, used: nat, maxGas: u64)
    requires OwnQueues(queues) && !Exhausted(queues, used, maxGas)
    ensures
      (forall c, d :: IsPick(queues, used, maxGas, c) && IsPick(queues, used, maxGas, d) ==> c == d)
      <==> Decided(Heads(queues, used, maxGas))
  {
    var heads := Heads(queues, used, maxGas);
    HeadsAreOwn(queues, used, maxGas);
    if h :| Undisplaced(heads, h) {
      forall c | IsPick(queues, used, maxGas, c)
        ensures c == h
      {
        OnlyPick(queues, used, maxGas, h, c);
      }
    } else {
      hide Visits, Scan, Heads, IsPick, Exhausted, OwnQueues;
      var o1, o2 := TwoOutcomes(heads);
      OrderPicks(queues, used, maxGas, o1);
      OrderPicks(queues, used, maxGas, o2);
    }
  }

  lemma OnlyPick(queues: Queues, used: nat, maxGas: u64, h: Candidate, c: Candidate)
    requires OwnQueues(queues) && Undisplaced(Heads(queues, used, maxGas), h) && IsPick(queues, used, maxGas, c)
    ensures c == h
  {
    hide Displaces, Scan, Fits;
    var heads := Heads(queues, used, maxGas);
    HeadsAreOwn(queues, used, maxGas);
    var order :| Visits(order, heads) && Scan(order) == Some(c);
    forall d | d in order && d != h
      ensures Displaces(h, d)
    {
      DisplacesBothWays(h, d);
    }
    UndisplacedWins(order, h);
  }

  lemma VisitedAll(queues: Queues, used: nat, maxGas: u64, order: seq<Candidate>)
    requires OwnQueues(queues)
    requires forall c :: c in order ==> Competes(queues, c.tx.sender, used, maxGas) && queues[c.tx.sender][0] == c
    requires forall a :: a in queues && Competes(queues, a, used, maxGas) ==> queues[a][0] in order
    requires forall i, j :: 0 <= i < j < |order| ==> order[i] != order[j]
    ensures Visits(order, Heads(queues, used, maxGas))
    ensures Scan(order).None? <==> Exhausted(queues, used, maxGas)
  {
    hide Better, Displaces, Fits;
    HeadsAreOwn(queues, used, maxGas);
    ScanIsBest(order);
  }

  /** The best head by a scan over the senders in any order. */
  method ScanHeads(queues: Queues, used: nat, maxGas: u64) returns (best: Option<Candidate>)
    requires OwnQueues(queues)
    ensures best.None? <==> Exhausted(queues, used, maxGas)
    ensures best.Some? ==> IsPick(queues, used, maxGas, best.value)
  {
    hide Displaces, Fits, Better, IsPick, Visits, Heads, Exhausted;
    best := None;
    ghost var order: seq<Candidate> := [];
    var todo := queues.Keys;
    while todo != {}
      invariant todo <= queues.Keys && best == Scan(order)
      invariant forall c :: c in order ==>
          c.tx.sender !in todo && Competes(queues, c.tx.sender, used, maxGas) && queues[c.tx.sender][0] == c
      invariant forall a :: a in queues && a !in todo && Competes(queues, a, used, maxGas) ==> queues[a][0] in order
      invariant forall i, j :: 0 <= i < j < |order| ==> order[i] != order[j]
      decreases |todo|
    {
      var a :| a in todo;
      todo := todo - {a};
      if |queues[a]| == 0 {
        continue;
      }
      var c := queues[a][0];
      if !Fits(c, used, maxGas) {
        continue;
      }
      ScanAppends(order, c);
      order := order + [c];
      if best.None? || Displaces(c, best.value) {
        best := Some(c);
      }
    }
    VisitedAll(queues, used, maxGas, order);
    if best.Some? {
      OrderPicks(queues, used, maxGas, order);
    }
  }

  // ---------------------------------------------------------------- selection

  function Lowest(list: seq<Candidate>): u64
    requires list != []
  {
    var n := |list| - 1;
    if n == 0 then list[n].tx.nonce
    else
      var before := Lowest(list[..n]);
      if list[n].tx.nonce < before then list[n].tx.nonce else before
  }

  /** The first nonce of `a` that may be selected: the chain's next one where known, else the lowest
      pending one. */
  function StartOf(env: Env, txs: seq<Transaction>, nextNonce: map<Address, u64>, a: Address): u64
    requires Candidates(env, txs, a) != []
  {
    if a in nextNonce then nextNonce[a] else Lowest(Candidates(env, txs, a))
  }

  ghost predicate QueuesFor(env: Env, txs: seq<Transaction>, nextNonce: map<Address, u64>, queues: Queues) {
    forall a ::
      && (a in queues <==> Candidates(env, txs, a) != [])
      && (a in queues ==> IsReady(Candidates(env, txs, a), StartOf(env, txs, nextNonce, a), queues[a]))
  }

  lemma {:induction false} LowestIsLeast(list: seq<Candidate>) returns (k: nat)
    requires list != []
    ensures k < |list| && list[k].tx.nonce == Lowest(list)
    ensures forall i :: 0 <= i < |list| ==> Lowest(list) <= list[i].tx.nonce
  {
    k := |list| - 1;
    if k > 0 {
      var before := list[..k];
      var least := LowestIsLeast(before);
      assert forall i :: 0 <= i < |before| ==> list[i] == before[i];
      if list[k].tx.nonce >= Lowest(before) {
        k := least;
      }
    }
  }

  lemma FirstIsLowest(list: seq<Candidate>, sorted: seq<Candidate>)
    requires list != [] && Sorted(sorted) && multiset(sorted) == multiset(list)
    ensures sorted != [] && sorted[0].tx.nonce == Lowest(list)
  {
    SameMembers(list, sorted);
    var least := LowestIsLeast(list);
    hide Lowest, Text.Less;
    assert list[least] in sorted;
    var k :| 0 <= k < |sorted| && sorted[k] == list[least];
    assert k > 0 ==> !Earlier(sorted[k], sorted[0]);
    assert sorted[0] in list;
  }

  lemma SameMembers(list: seq<Candidate>, sorted: seq<Candidate>)
    requires multiset(sorted) == multiset(list)
    ensures forall c :: c in list <==> c in sorted
  {
    forall c
      ensures c in list <==> c in sorted
    {
      assert c in multiset(list) <==> c in multiset(sorted);
    }
  }

  method ReadyQueue(list: seq<Candidate>, start: Option<u64>) returns (ready: seq<Candidate>)
    requires list != []
    ensures IsReady(list, if start.Some? then start.value else Lowest(list), ready)
  {
    hide Sorted, Text.Less, Lowest;
    var sorted := SortByNonce(list);
    FirstIsLowest(list, sorted);
    SameMembers(list, sorted);
    ready := ReadyPrefix(sorted, if start.Some? then start.value else sorted[0].tx.nonce);
  }

  /** Reduces every sender's list to its gap-free run of nonces. */
  method ReadyQueues(env: Env, txs: seq<Transaction>, groups: Queues, nextNonce: map<Address, u64>) returns (queues: Queues)
    requires forall a :: (a in groups <==> Candidates(env, txs, a) != [])
                         && (a in groups ==> groups[a] == Candidates(env, txs, a))
    ensures QueuesFor(env, txs, nextNonce, queues)
  {
    hide IsReady, Candidates, Lowest;
    queues := groups;
    var todo := groups.Keys;
    while todo != {}
      invariant todo <= groups.Keys == queues.Keys
      invariant forall a :: a in todo ==> queues[a] == groups[a]
      invariant forall a :: a in queues && a !in todo ==>
          IsReady(Candidates(env, txs, a), StartOf(env, txs, nextNonce, a), queues[a])
      decreases |todo|
    {
      var a :| a in todo;
      var ready := ReadyQueue(queues[a], if a in nextNonce then Some(nextNonce[a]) else None);
      queues := queues[a := ready];
      todo := todo - {a};
    }
  }

  lemma ReadyAreOwn(env: Env, txs: seq<Transaction>, nextNonce: map<Address, u64>, queues: Queues)
    requires QueuesFor(env, txs, nextNonce, queues)
    ensures OwnQueues(queues)
  {
    hide Candidates, StartOf, Text.Less;
    forall a, i | a in queues && 0 <= i < |queues[a]|
      ensures queues[a][i].tx.sender == a
    {
      QueuedIsListed(env, txs, nextNonce, queues, a, i);
    }
  }

  lemma QueuedIsListed(env: Env, txs: seq<Transaction>, nextNonce: map<Address, u64>, queues: Queues, a: Address, i: nat)
    requires QueuesFor(env, txs, nextNonce, queues) && a in queues && i < |queues[a]|
    ensures queues[a][i].tx in txs && queues[a][i].tx.sender == a && !queues[a][i].tx.coinbase
    ensures queues[a][i] == CandidateOf(env, queues[a][i].tx)
    ensures queues[a][i].tx.nonce == StartOf(env, txs, nextNonce, a) + i
  {
    hide Candidates, StartOf, Text.Less;
    var list := Candidates(env, txs, a);
    assert queues[a][i] in list;
    var k :| 0 <= k < |list| && list[k] == queues[a][i];
    CandidatesListed(env, txs, a, k);
  }

  lemma {:induction false} AfterIsOwn(queues: Queues, picks: seq<Candidate>)
    requires OwnQueues(queues)
    ensures OwnQueues(After(queues, picks)) && After(queues, picks).Keys == queues.Keys
  {
    if picks != [] {
      AfterIsOwn(queues, picks[..|picks| - 1]);
    }
  }

  lemma WrappedGas(queues: Queues, used: u64, gas: nat, maxGas: u64)
    requires used == gas || maxGas == 0
    ensures Exhausted(queues, used, maxGas) <==> Exhausted(queues, gas, maxGas)
    ensures forall c :: IsPick(queues, used, maxGas, c) <==> IsPick(queues, gas, maxGas, c)
  {
    assert forall c :: Fits(c, used, maxGas) <==> Fits(c, gas, maxGas);
    hide Fits, Scan, Visits;
    assert forall a :: Competes(queues, a, used, maxGas) <==> Competes(queues, a, gas, maxGas);
    hide Competes;
    assert Heads(queues, used, maxGas) == Heads(queues, gas, maxGas);
  }

  /** The selection. The running gas total wraps at 2^64, but only when there is no limit to compare
      it with. */
  method SelectWithNonces(env: Env, txs: seq<Transaction>, maxGas: u64, nextNonce: map<Address, u64>)
      returns (ok: bool, out: seq<Transaction>, ghost start: Queues, ghost picks: seq<Candidate>)
    ensures ok <==> AllSelectable(env, txs)
    ensures ok ==>
      && QueuesFor(env, txs, nextNonce, start)
      && Greedy(start, maxGas, picks) && Exhausted(After(start, picks), Gas(picks), maxGas)
      && out == Txs(picks)
  {
    hide AllSelectable, IsPick, Exhausted, QueuesFor, Fits, Candidates, OwnQueues;
    out, start, picks := [], map[], [];
    var groups;
    ok, groups := GroupBySender(env, txs);
    if !ok {
      return;
    }
    var queues := ReadyQueues(env, txs, groups, nextNonce);
    start := queues;
    ReadyAreOwn(env, txs, nextNonce, start);
    var used: u64 := 0;
    while true
      invariant Greedy(start, maxGas, picks) && queues == After(start, picks) && out == Txs(picks)
      invariant used == Gas(picks) || maxGas == 0
      invariant OwnQueues(queues) && queues.Keys == start.Keys
      decreases Left(queues)
    {
      var best := ScanHeads(queues, used, maxGas);
      WrappedGas(queues, used, Gas(picks), maxGas);
      if best.None? {
        break;
      }
      var c := best.value;
      PickAdvances(queues, used, maxGas, c);
      out := out + [c.tx];
      assert (picks + [c])[..|picks|] == picks;
      picks := picks + [c];
      used := (used + c.gas) % 0x1_0000_0000_0000_0000;
      queues := Advance(queues, c.tx.sender);
      AfterIsOwn(start, picks);
    }
  }

  /** How many candidates are still queued. */
  ghost function Left(queues: Queues): nat {
    if queues == map[] then 0
    else
      var a :| a in queues;
      |queues[a]| + Left(queues - {a})
  }

  lemma {:induction false} LeftPick(queues: Queues, a: Address)
    requires a in queues
    ensures Left(queues) == |queues[a]| + Left(queues - {a})
  {
    var b :| b in queues && Left(queues) == |queues[b]| + Left(queues - {b});
    if b != a {
      assert queues - {b} - {a} == queues - {a} - {b};
      LeftPick(queues - {b}, a);
      LeftPick(queues - {a}, b);
    }
  }

  lemma PickAdvances(queues: Queues, used: nat, maxGas: u64, c: Candidate)
    requires IsPick(queues, used, maxGas, c)
    ensures Left(Advance(queues, c.tx.sender)) < Left(queues)
    ensures maxGas > 0 ==> used + c.gas <= maxGas
  {
    var a := c.tx.sender;
    var after := queues[a := queues[a][1..]];
    assert after - {a} == queues - {a};
    LeftPick(queues, a);
    LeftPick(after, a);
  }

  // ---------------------------------------------------------------- what every selection satisfies

  function PicksOf(picks: seq<Candidate>, a: Address): seq<Candidate> {
    if picks == [] then []
    else
      var c := picks[|picks| - 1];
      PicksOf(picks[..|picks| - 1], a) + (if c.tx.sender == a then [c] else [])
  }

  /** A sender's picks are the front of its queue, in order; the rest is what is left of it. */
  lemma {:induction false} PicksInOrder(queues: Queues, maxGas: u64, picks: seq<Candidate>, a: Address)
    requires Greedy(queues, maxGas, picks)
    ensures a !in queues ==> PicksOf(picks, a) == [] && a !in After(queues, picks)
    ensures a in queues ==>
              var k := |PicksOf(picks, a)|;
              && k <= |queues[a]| && PicksOf(picks, a) == queues[a][..k]
              && a in After(queues, picks) && After(queues, picks)[a] == queues[a][k..]
  {
    hide Fits, Heads, Scan, Visits;
    if picks != [] {
      PicksInOrder(queues, maxGas, picks[..|picks| - 1], a);
    }
  }

  /** For every sender the selected nonces run up from its start nonce without a gap or a repeat. */
  lemma SelectedNonces(env: Env, txs: seq<Transaction>, nextNonce: map<Address, u64>, queues: Queues,
                       maxGas: u64, picks: seq<Candidate>, a: Address, j: nat)
    requires QueuesFor(env, txs, nextNonce, queues) && Greedy(queues, maxGas, picks) && j < |PicksOf(picks, a)|
    ensures Candidates(env, txs, a) != []
    ensures PicksOf(picks, a)[j].tx.nonce == StartOf(env, txs, nextNonce, a) + j
  {
    hide Candidates, StartOf, IsReady, Greedy;
    PicksInOrder(queues, maxGas, picks, a);
    QueuedIsListed(env, txs, nextNonce, queues, a, j);
  }

  /** The gas limit is kept, whatever the order of picks. */
  lemma GasBound(queues: Queues, maxGas: u64, picks: seq<Candidate>)
    requires Greedy(queues, maxGas, picks) && maxGas > 0
    ensures Gas(picks) <= maxGas
  {
    hide Heads, Scan, Visits;
  }

  lemma {:induction false} PickAt(queues: Queues, maxGas: u64, picks: seq<Candidate>, i: nat)
    requires Greedy(queues, maxGas, picks) && i < |picks|
    ensures Greedy(queues, maxGas, picks[..i])
    ensures IsPick(After(queues, picks[..i]), Gas(picks[..i]), maxGas, picks[i])
  {
    hide IsPick;
    var n := |picks| - 1;
    if i < n {
      PickAt(queues, maxGas, picks[..n], i);
      assert picks[..n][..i] == picks[..i];
    }
  }

  lemma {:induction false} PicksOfGrows(picks: seq<Candidate>, i: nat, j: nat)
    requires i < j <= |picks|
    ensures |PicksOf(picks[..i], picks[i].tx.sender)| < |PicksOf(picks[..j], picks[i].tx.sender)|
    decreases j
  {
    assert picks[..j][..j - 1] == picks[..j - 1];
    if i < j - 1 {
      PicksOfGrows(picks, i, j - 1);
    }
  }

  /** The i-th pick is its sender's next transaction: listed, and with the next nonce. */
  lemma PickedNext(env: Env, txs: seq<Transaction>, nextNonce: map<Address, u64>, queues: Queues,
                   maxGas: u64, picks: seq<Candidate>, i: nat)
    requires QueuesFor(env, txs, nextNonce, queues) && Greedy(queues, maxGas, picks) && i < |picks|
    ensures
      var a := picks[i].tx.sender;
      && picks[i].tx in txs && !picks[i].tx.coinbase && Candidates(env, txs, a) != []
      && picks[i] == CandidateOf(env, picks[i].tx)
      && picks[i].tx.nonce == StartOf(env, txs, nextNonce, a) + |PicksOf(picks[..i], a)|
  {
    PickAt(queues, maxGas, picks, i);
    hide Candidates, StartOf, IsReady, Greedy, Heads, Scan, Visits, Fits, After;
    var a := picks[i].tx.sender;
    var k := |PicksOf(picks[..i], a)|;
    PicksInOrder(queues, maxGas, picks[..i], a);
    assert queues[a][k..][0] == queues[a][k];
    QueuedIsListed(env, txs, nextNonce, queues, a, k);
  }

  lemma PickIsMetered(env: Env, txs: seq<Transaction>, nextNonce: map<Address, u64>, queues: Queues,
                      maxGas: u64, picks: seq<Candidate>, i: nat)
    requires AllSelectable(env, txs) && QueuesFor(env, txs, nextNonce, queues) && Greedy(queues, maxGas, picks) && i < |picks|
    ensures Fees.GasUsed(env, picks[i].tx) == Some(picks[i].gas)
  {
    hide Fees.GasUsed, QueuesFor, Greedy, Fees.Acceptable;
    PickedNext(env, txs, nextNonce, queues, maxGas, picks, i);
    assert Selectable(env, picks[i].tx);
  }

  lemma HeadIsMetered(env: Env, txs: seq<Transaction>, nextNonce: map<Address, u64>, queues: Queues, a: Address, k: nat)
    requires AllSelectable(env, txs) && QueuesFor(env, txs, nextNonce, queues) && a in queues && k < |queues[a]|
    ensures Fees.GasUsed(env, queues[a][k].tx) == Some(queues[a][k].gas)
  {
    hide Fees.GasUsed, QueuesFor, Fees.Acceptable;
    QueuedIsListed(env, txs, nextNonce, queues, a, k);
    assert Selectable(env, queues[a][k].tx);
  }

  /** Whoever is picked is no cheaper than any head it competes with, by fee and gas alone. */
  lemma DearestHeadFirst(env: Env, txs: seq<Transaction>, nextNonce: map<Address, u64>, queues: Queues,
                         maxGas: u64, picks: seq<Candidate>, i: nat, a: Address)
    requires AllSelectable(env, txs) && QueuesFor(env, txs, nextNonce, queues) && Greedy(queues, maxGas, picks) && i < |picks|
    requires Competes(After(queues, picks[..i]), a, Gas(picks[..i]), maxGas)
    ensures
      var c, h := picks[i].tx, After(queues, picks[..i])[a][0].tx;
      && Fees.GasUsed(env, c).Some? && Fees.GasUsed(env, h).Some?
      && NoCheaper(c, Fees.GasUsed(env, c).value, h, Fees.GasUsed(env, h).value)
  {
    PickAt(queues, maxGas, picks, i);
    hide Fees.GasUsed, QueuesFor, Greedy, AllSelectable, IsPick, Competes, Better, NoCheaper;
    var left := After(queues, picks[..i]);
    PickIsMetered(env, txs, nextNonce, queues, maxGas, picks, i);
    HeadsOf(queues, maxGas, picks, i, a);
    var k := |PicksOf(picks[..i], a)|;
    HeadIsMetered(env, txs, nextNonce, queues, a, k);
    PickIsBest(left, Gas(picks[..i]), maxGas, picks[i], a);
    NotBetter(picks[i], left[a][0]);
  }

  lemma HeadsOf(queues: Queues, maxGas: u64, picks: seq<Candidate>, i: nat, a: Address)
    requires Greedy(queues, maxGas, picks) && i <= |picks| && Greedy(queues, maxGas, picks[..i])
    requires Competes(After(queues, picks[..i]), a, Gas(picks[..i]), maxGas)
    ensures
      var k := |PicksOf(picks[..i], a)|;
      a in After(queues, picks[..i]) && a in queues && k < |queues[a]| && After(queues, picks[..i])[a] == queues[a][k..]
  {
    hide Greedy, Fits;
    PicksInOrder(queues, maxGas, picks[..i], a);
  }

  lemma {:induction false} GasOnlyGrows(picks: seq<Candidate>, i: nat)
    requires i <= |picks|
    ensures Gas(picks[..i]) <= Gas(picks)
  {
    if i < |picks| {
      var n := |picks| - 1;
      assert picks[..n][..i] == picks[..i];
      GasOnlyGrows(picks[..n], i);
    } else {
      assert picks[..i] == picks;
    }
  }

  lemma {:induction false} NoneBetween(picks: seq<Candidate>, i: nat, j: nat, a: Address)
    requires i <= j <= |picks| && forall k :: i <= k < j ==> picks[k].tx.sender != a
    ensures PicksOf(picks[..j], a) == PicksOf(picks[..i], a)
    decreases j
  {
    if i < j {
      assert picks[..j][..j - 1] == picks[..j - 1];
      NoneBetween(picks, i, j - 1, a);
    }
  }

  /** A pick whose sender was not picked in the meantime was a competing head before already. */
  lemma WaitedAsHead(queues: Queues, maxGas: u64, picks: seq<Candidate>, i: nat, j: nat)
    requires Greedy(queues, maxGas, picks) && i < j < |picks|
    requires forall k :: i <= k < j ==> picks[k].tx.sender != picks[j].tx.sender
    ensures
      var a := picks[j].tx.sender;
      Competes(After(queues, picks[..i]), a, Gas(picks[..i]), maxGas) && After(queues, picks[..i])[a][0] == picks[j]
  {
    var a := picks[j].tx.sender;
    PickAt(queues, maxGas, picks, j);
    PickAt(queues, maxGas, picks, i);
    assert Competes(After(queues, picks[..j]), a, Gas(picks[..j]), maxGas) && After(queues, picks[..j])[a][0] == picks[j];
    hide Greedy, IsPick, After, PicksOf;
    NoneBetween(picks, i, j, a);
    PicksInOrder(queues, maxGas, picks[..i], a);
    PicksInOrder(queues, maxGas, picks[..j], a);
    assert picks[..j][..i] == picks[..i];
    GasOnlyGrows(picks[..j], i);
  }

  /** In the output a transaction comes behind another sender's cheaper one only if an earlier nonce of its own
      sender held it back: of two with nothing of the later one's sender from the first to the second, the first
      is no cheaper. */
  lemma DearerFirst(env: Env, txs: seq<Transaction>, nextNonce: map<Address, u64>, queues: Queues,
                    maxGas: u64, picks: seq<Candidate>, i: nat, j: nat)
    requires AllSelectable(env, txs) && QueuesFor(env, txs, nextNonce, queues) && Greedy(queues, maxGas, picks)
    requires i < j < |picks| && forall k :: i <= k < j ==> picks[k].tx.sender != picks[j].tx.sender
    ensures
      var c, h := Txs(picks)[i], Txs(picks)[j];
      && Fees.GasUsed(env, c).Some? && Fees.GasUsed(env, h).Some?
      && NoCheaper(c, Fees.GasUsed(env, c).value, h, Fees.GasUsed(env, h).value)
  {
    hide Fees.GasUsed, QueuesFor, Greedy, AllSelectable, NoCheaper, Competes, After, Gas;
    WaitedAsHead(queues, maxGas, picks, i, j);
    DearestHeadFirst(env, txs, nextNonce, queues, maxGas, picks, i, picks[j].tx.sender);
  }

  /** The selection ends only when every sender's next transaction would exceed the gas limit, and without a limit
      only when all queues are empty. */
  lemma SelectionIsFull(queues: Queues, maxGas: u64, picks: seq<Candidate>, a: Address)
    requires Greedy(queues, maxGas, picks) && Exhausted(After(queues, picks), Gas(picks), maxGas) && a in queues
    ensures |PicksOf(picks, a)| <= |queues[a]|
    ensures |PicksOf(picks, a)| < |queues[a]| ==>
              maxGas > 0 && Gas(picks) + queues[a][|PicksOf(picks, a)|].gas > maxGas
  {
    PicksInOrder(queues, maxGas, picks, a);
    hide Greedy, PicksOf, After, Gas;
    assert !Competes(After(queues, picks), a, Gas(picks), maxGas);
  }

  /** What is selected pays an acceptable fee, has an active version, and of version 3 a sound envelope and an
      authorised fee payer. */
  lemma SelectedIsFit(env: Env, txs: seq<Transaction>, nextNonce: map<Address, u64>, queues: Queues,
                      maxGas: u64, picks: seq<Candidate>, i: nat)
    requires AllSelectable(env, txs) && QueuesFor(env, txs, nextNonce, queues) && Greedy(queues, maxGas, picks) && i < |picks|
    ensures
      var tx := Txs(picks)[i];
      && Fees.Acceptable(env, tx) && TxVersionActive(tx.ProtocolVersion(), env.profile.txVersion)
      && (tx.ProtocolVersion() == TX_VERSION_ASSET ==> Ledgers.EnvelopeValid(tx))
      && (tx.ProtocolVersion() == TX_VERSION_ASSET && tx.EffectiveFeePayer() != tx.sender ==>
            env.oracle.sponsored(tx) && env.profile.paymasterEnabled)
  {
    hide Fees.GasUsed, QueuesFor, Greedy, Fees.Acceptable, Ledgers.EnvelopeValid;
    PickedNext(env, txs, nextNonce, queues, maxGas, picks, i);
    assert Selectable(env, picks[i].tx);
  }

  lemma PicksDiffer(env: Env, txs: seq<Transaction>, nextNonce: map<Address, u64>, queues: Queues,
                    maxGas: u64, picks: seq<Candidate>, i: nat, j: nat)
    requires QueuesFor(env, txs, nextNonce, queues) && Greedy(queues, maxGas, picks) && i < j < |picks|
    ensures picks[i].tx.sender != picks[j].tx.sender || picks[i].tx.nonce < picks[j].tx.nonce
  {
    hide QueuesFor, Greedy, StartOf, Candidates;
    PickedNext(env, txs, nextNonce, queues, maxGas, picks, i);
    PickedNext(env, txs, nextNonce, queues, maxGas, picks, j);
    PicksOfGrows(picks, i, j);
  }

  lemma {:induction false} DistinctMembers(s: seq<Transaction>, t: seq<Transaction>)
    requires forall i, j :: 0 <= i < j < |s| ==> s[i] != s[j]
    requires forall i :: 0 <= i < |s| ==> s[i] in t
    ensures multiset(s) <= multiset(t)
  {
    if s != [] {
      var n := |s| - 1;
      assert s == s[..n] + [s[n]];
      DistinctMembers(s[..n], t);
      assert s[n] !in s[..n] && s[n] in multiset(t);
    }
  }

  /** Nothing is selected twice or invented: the output is a sub-multiset of the input. */
  lemma SelectedFromInput(env: Env, txs: seq<Transaction>, nextNonce: map<Address, u64>, queues: Queues,
                          maxGas: u64, picks: seq<Candidate>)
    requires QueuesFor(env, txs, nextNonce, queues) && Greedy(queues, maxGas, picks)
    ensures multiset(Txs(picks)) <= multiset(txs)
  {
    hide QueuesFor, Greedy, StartOf, Candidates;
    forall i | 0 <= i < |picks|
      ensures Txs(picks)[i] in txs
    {
      PickedNext(env, txs, nextNonce, queues, maxGas, picks, i);
    }
    forall i, j | 0 <= i < j < |picks|
      ensures Txs(picks)[i] != Txs(picks)[j]
    {
      PicksDiffer(env, txs, nextNonce, queues, maxGas, picks, i, j);
    }
    DistinctMembers(Txs(picks), txs);
  }

  // ---------------------------------------------------------------- when selection is deterministic

  /** A whole run of the selection loop, for some visiting orders. */
  ghost predicate Complete(queues: Queues, maxGas: u64, picks: seq<Candidate>) {
    Greedy(queues, maxGas, picks) && Exhausted(After(queues, picks), Gas(picks), maxGas)
  }

  /** The heads that compete for the i-th pick. */
  ghost function HeadsAt(queues: Queues, maxGas: u64, picks: seq<Candidate>, i: nat): set<Candidate>
    requires i <= |picks|
  {
    Heads(After(queues, picks[..i]), Gas(picks[..i]), maxGas)
  }

  ghost predicate DecidedThroughout(queues: Queues, maxGas: u64, picks: seq<Candidate>) {
    forall i :: 0 <= i < |picks| ==> Decided(HeadsAt(queues, maxGas, picks, i))
  }

  /** Every run so far goes on to a whole one. */
  lemma {:induction false} GoesOn(queues: Queues, maxGas: u64, picks: seq<Candidate>) returns (whole: seq<Candidate>)
    requires OwnQueues(queues) && Greedy(queues, maxGas, picks)
    ensures Complete(queues, maxGas, whole) && picks <= whole
    decreases Left(After(queues, picks))
  {
    hide Greedy, OwnQueues, Exhausted, IsPick, Left, Heads, After, Scan, Visits;
    var now, used := After(queues, picks), Gas(picks);
    whole := picks;
    AfterIsOwn(queues, picks);
    if !Exhausted(now, used, maxGas) {
      HeadsAreOwn(now, used, maxGas);
      var order := SomeOrder(Heads(now, used, maxGas));
      NonEmptyOrder(order, Heads(now, used, maxGas));
      OrderPicks(now, used, maxGas, order);
      var c := Scan(order).value;
      PickAdvances(now, used, maxGas, c);
      OneMorePick(queues, maxGas, picks, c);
      whole := GoesOn(queues, maxGas, picks + [c]);
    }
  }

  lemma NonEmptyOrder(order: seq<Candidate>, heads: set<Candidate>)
    requires Visits(order, heads) && heads != {}
    ensures Scan(order).Some?
  {
    var c :| c in heads;
    assert c in order;
    hide Better, Displaces;
    ScanIsBest(order);
  }

  lemma OneMorePick(queues: Queues, maxGas: u64, picks: seq<Candidate>, c: Candidate)
    requires Greedy(queues, maxGas, picks) && IsPick(After(queues, picks), Gas(picks), maxGas, c)
    ensures Greedy(queues, maxGas, picks + [c])
    ensures After(queues, picks + [c]) == Advance(After(queues, picks), c.tx.sender)
  {
    hide IsPick, Advance;
    assert (picks + [c])[..|picks|] == picks;
  }

  lemma {:induction false} SameRunSoFar(queues: Queues, maxGas: u64, p: seq<Candidate>, q: seq<Candidate>, i: nat)
    requires OwnQueues(queues) && Greedy(queues, maxGas, p) && Greedy(queues, maxGas, q)
    requires DecidedThroughout(queues, maxGas, p) && i <= |p| && i <= |q|
    ensures p[..i] == q[..i]
  {
    hide Greedy, IsPick, OwnQueues, Exhausted, Heads, After, Decided;
    if i > 0 {
      SameRunSoFar(queues, maxGas, p, q, i - 1);
      PickAt(queues, maxGas, p, i - 1);
      PickAt(queues, maxGas, q, i - 1);
      AfterIsOwn(queues, p[..i - 1]);
      PickMeansMore(After(queues, p[..i - 1]), Gas(p[..i - 1]), maxGas, p[i - 1]);
      PickIsUnique(After(queues, p[..i - 1]), Gas(p[..i - 1]), maxGas);
      assert Decided(HeadsAt(queues, maxGas, p, i - 1));
      assert p[..i] == p[..i - 1] + [p[i - 1]] && q[..i] == q[..i - 1] + [q[i - 1]];
    }
  }

  lemma PickMeansMore(queues: Queues, used: nat, maxGas: u64, c: Candidate)
    requires IsPick(queues, used, maxGas, c)
    ensures !Exhausted(queues, used, maxGas)
  {
    hide Fits;
  }

  lemma DecidedRunIsOnly(queues: Queues, maxGas: u64, p: seq<Candidate>, q: seq<Candidate>)
    requires OwnQueues(queues) && Complete(queues, maxGas, p) && Complete(queues, maxGas, q)
    requires DecidedThroughout(queues, maxGas, p)
    ensures p == q
  {
    hide Greedy, DecidedThroughout, Exhausted, IsPick, OwnQueues;
    var n := if |p| <= |q| then |p| else |q|;
    SameRunSoFar(queues, maxGas, p, q, n);
    assert p[..|p|] == p && q[..|q|] == q;
    if n < |q| {
      PickAt(queues, maxGas, q, n);
      PickMeansMore(After(queues, q[..n]), Gas(q[..n]), maxGas, q[n]);
    } else if n < |p| {
      PickAt(queues, maxGas, p, n);
      PickMeansMore(After(queues, p[..n]), Gas(p[..n]), maxGas, p[n]);
    }
  }

  /** Where a step of a run is not decided, another run selects a different transaction at that step. */
  lemma OtherRun(queues: Queues, maxGas: u64, p: seq<Candidate>, i: nat) returns (q: seq<Candidate>)
    requires OwnQueues(queues) && Complete(queues, maxGas, p) && i < |p|
    requires !Decided(HeadsAt(queues, maxGas, p, i))
    ensures Complete(queues, maxGas, q)
    ensures |q| > i && q[..i] == p[..i] && q[i].tx != p[i].tx
  {
    hide Greedy, Exhausted, OwnQueues, Heads, After, Decided, Scan, Visits, Fits;
    var now, used := After(queues, p[..i]), Gas(p[..i]);
    PickAt(queues, maxGas, p, i);
    AfterIsOwn(queues, p[..i]);
    PickMeansMore(now, used, maxGas, p[i]);
    PickIsUnique(now, used, maxGas);
    var c, d :| IsPick(now, used, maxGas, c) && IsPick(now, used, maxGas, d) && c != d;
    var other := if c == p[i] then d else c;
    assert other.tx.sender != p[i].tx.sender;
    hide IsPick;
    OneMorePick(queues, maxGas, p[..i], other);
    q := GoesOn(queues, maxGas, p[..i] + [other]);
    assert q[..i + 1] == p[..i] + [other];
    assert q[..i] == q[..i + 1][..i];
    assert q[i] == q[..i + 1][i];
  }

  /** Selection gives one output for every map iteration order if and only if at every step of a run
      some competing head is displaced by no other. */
  lemma SelectionIsUnique(queues: Queues, maxGas: u64, p: seq<Candidate>)
    requires OwnQueues(queues) && Complete(queues, maxGas, p)
    ensures
      (forall q :: Complete(queues, maxGas, q) ==> Txs(q) == Txs(p)) <==> DecidedThroughout(queues, maxGas, p)
  {
    hide Complete, OwnQueues, HeadsAt, Decided;
    if DecidedThroughout(queues, maxGas, p) {
      forall q | Complete(queues, maxGas, q)
        ensures Txs(q) == Txs(p)
      {
        DecidedRunIsOnly(queues, maxGas, p, q);
      }
    } else {
      var i :| 0 <= i < |p| && !Decided(HeadsAt(queues, maxGas, p, i));
      var q := OtherRun(queues, maxGas, p, i);
      assert Txs(q)[i] != Txs(p)[i];
    }
  }

  /** Two listed transactions of different senders with equal fee and gas, the smaller sender's with the
      larger id: each comes first in some output. */
  lemma EitherComesFirst(env: Env, t: Transaction, u: Transaction, maxGas: u64)
      returns (queues: Queues, p: seq<Candidate>, q: seq<Candidate>)
    requires Selectable(env, t) && Selectable(env, u) && !t.coinbase && !u.coinbase
    requires t.fee == u.fee && CandidateOf(env, t).gas == CandidateOf(env, u).gas
    requires Text.Less(t.sender, u.sender) && Text.Less(u.id, t.id)
    requires Fits(CandidateOf(env, t), 0, maxGas)
    ensures AllSelectable(env, [t, u]) && QueuesFor(env, [t, u], map[], queues)
    ensures Complete(queues, maxGas, p) && Txs(p) != [] && Txs(p)[0] == t
    ensures Complete(queues, maxGas, q) && Txs(q) != [] && Txs(q)[0] == u
  {
    var c, d := CandidateOf(env, t), CandidateOf(env, u);
    Text.LessIsStrictTotalOrder(t.sender, u.sender);
    hide Fees.GasUsed, Text.Less, Selectable, Complete, IsPick, OwnQueues, QueuesFor, Better;
    assert Displaces(c, d) && Displaces(d, c) && Fits(d, 0, maxGas);
    hide Displaces, Fits, Tied;
    queues := map[t.sender := [c], u.sender := [d]];
    QueuesForPair(env, t, u, queues);
    EitherIsPick(queues, maxGas, c, d);
    p := FirstOf(queues, maxGas, c);
    q := FirstOf(queues, maxGas, d);
  }

  lemma FirstOf(queues: Queues, maxGas: u64, c: Candidate) returns (p: seq<Candidate>)
    requires OwnQueues(queues) && IsPick(queues, 0, maxGas, c)
    ensures Complete(queues, maxGas, p) && p != [] && p[0] == c
  {
    hide IsPick, OwnQueues, Complete, Left, Advance;
    OneMorePick(queues, maxGas, [], c);
    assert [] + [c] == [c];
    p := GoesOn(queues, maxGas, [c]);
  }

  /** Of two heads that displace each other, the one visited last wins. */
  lemma OrderMatters(c: Candidate, d: Candidate)
    requires Displaces(c, d) && Displaces(d, c)
    ensures Scan([c, d]) == Some(d) && Scan([d, c]) == Some(c)
  {
    hide Displaces;
    ScanAppends([], c);
    ScanAppends([], d);
    assert [] + [c] == [c] && [] + [d] == [d];
    ScanAppends([c], d);
    ScanAppends([d], c);
    assert [c] + [d] == [c, d] && [d] + [c] == [d, c];
  }

  lemma EitherIsPick(queues: Queues, maxGas: u64, c: Candidate, d: Candidate)
    requires c.tx.sender != d.tx.sender && queues == map[c.tx.sender := [c], d.tx.sender := [d]]
    requires Fits(c, 0, maxGas) && Fits(d, 0, maxGas) && Displaces(c, d) && Displaces(d, c)
    ensures OwnQueues(queues) && IsPick(queues, 0, maxGas, c) && IsPick(queues, 0, maxGas, d)
  {
    hide Fits, Displaces, Scan;
    HeadsAreOwn(queues, 0, maxGas);
    assert Heads(queues, 0, maxGas) == {c, d} by {
      assert Competes(queues, c.tx.sender, 0, maxGas) && Competes(queues, d.tx.sender, 0, maxGas);
    }
    OrderMatters(c, d);
    assert Visits([c, d], {c, d}) && Visits([d, c], {c, d});
  }

  lemma ReadyAlone(c: Candidate)
    ensures IsReady([c], Lowest([c]), [c])
  {
    Text.LessIsStrictTotalOrder(c.tx.id, c.tx.id);
    hide Text.Less;
  }

  lemma QueuesForPair(env: Env, t: Transaction, u: Transaction, queues: Queues)
    requires !t.coinbase && !u.coinbase && t.sender != u.sender
    requires queues == map[t.sender := [CandidateOf(env, t)], u.sender := [CandidateOf(env, u)]]
    ensures QueuesFor(env, [t, u], map[], queues)
  {
    hide CandidateOf, Fees.GasUsed, IsReady, Lowest;
    ReadyAlone(CandidateOf(env, t));
    ReadyAlone(CandidateOf(env, u));
    forall a
      ensures Candidates(env, [t, u], a) ==
              if a == t.sender then [CandidateOf(env, t)] else if a == u.sender then [CandidateOf(env, u)] else []
    {
      assert [t, u][..1] == [t] && [t][..0] == [];
      assert Candidates(env, [], a) == [];
      assert Candidates(env, [t], a) == if a == t.sender then [CandidateOf(env, t)] else [];
    }
  }

  /** Whatever the profile and the limit, there are transactions with two different selections. */
  lemma TwoSelections(env: Env, maxGas: u64)
      returns (txs: seq<Transaction>, queues: Queues, p: seq<Candidate>, q: seq<Candidate>)
    ensures AllSelectable(env, txs) && QueuesFor(env, txs, map[], queues)
    ensures Complete(queues, maxGas, p) && Complete(queues, maxGas, q) && Txs(p) != Txs(q)
  {
    var t := Transaction(1, "t2", "alice", "carol", 1, 1, 1, 0, "", "", false, Transfer, "", "", "", "", "",
                         "", "", 0, 0, false, false, false, false);
    var u := t.(id := "t1", sender := "bob");
    assert Text.Less("alice", "bob") && Text.Less("t1", "t2") by {
      assert "t1"[1..] == "1" && "t2"[1..] == "2";
    }
    hide Text.Less, Complete, QueuesFor, AllSelectable;
    txs := [t, u];
    queues, p, q := EitherComesFirst(env, t, u, maxGas);
  }
}
