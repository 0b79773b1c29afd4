/** The mempool's entrance and its nonce-free selection (mempool/admission.go). */
module Admission {
  import opened Arith
  import opened Types
  import opened Selection
  import Fees
  import Recovery
  import Text

  // ---------------------------------------------------------------- admission

  ghost function GasSum(env: Env, txs: seq<Transaction>): nat {
    if txs == [] then 0 else GasSum(env, txs[..|txs| - 1]) + CandidateOf(env, txs[|txs| - 1]).gas
  }

  /** A pool as admission keeps it: every entry admissible, no id and no sender's nonce twice, and count
      and gas within the limits. */
  ghost predicate PoolSound(env: Env, pool: seq<Transaction>) {
    && (forall i :: 0 <= i < |pool| ==> Recovery.Readmissible(env, pool[i]))
    && Unrepeated(pool)
    && (env.profile.maxTxCount > 0 ==> |pool| <= env.profile.maxTxCount)
    && GasSum(env, pool) <= MAX_U64
    && (env.profile.maxGasPerBlock > 0 ==> GasSum(env, pool) <= env.profile.maxGasPerBlock)
  }

  ghost predicate Unrepeated(pool: seq<Transaction>) {
    forall i, j :: 0 <= i < j < |pool| ==> Apart(pool[i], pool[j])
  }

  predicate Apart(a: Transaction, b: Transaction) {
    a.id != b.id && (a.sender != b.sender || a.nonce != b.nonce)
  }

  /** Exactly when a transaction may join a pool. */
  ghost predicate MayJoin(env: Env, pool: seq<Transaction>, tx: Transaction) {
    && Recovery.Readmissible(env, tx)
    && (forall i :: 0 <= i < |pool| ==> Apart(pool[i], tx))
    && (env.profile.maxTxCount > 0 ==> |pool| < env.profile.maxTxCount)
    && GasSum(env, pool) + CandidateOf(env, tx).gas <= MAX_U64
    && (env.profile.maxGasPerBlock > 0 ==> GasSum(env, pool) + CandidateOf(env, tx).gas <= env.profile.maxGasPerBlock)
  }

  lemma {:induction false} GasSumGrows(env: Env, txs: seq<Transaction>, k: nat)
    requires k <= |txs|
    ensures GasSum(env, txs[..k]) <= GasSum(env, txs)
  {
    hide CandidateOf;
    if k < |txs| {
      assert txs[..|txs| - 1][..k] == txs[..k];
      GasSumGrows(env, txs[..|txs| - 1], k);
    } else {
      assert txs[..k] == txs;
    }
  }

  method NoClash(pool: seq<Transaction>, tx: Transaction) returns (ok: bool)
    ensures ok <==> forall i :: 0 <= i < |pool| ==> Apart(pool[i], tx)
  {
    hide Apart;
    for i := 0 to |pool|
      invariant forall k :: 0 <= k < i ==> Apart(pool[k], tx)
    {
      if !Apart(pool[i], tx) {
        return false;
      }
    }
    return true;
  }

  method TotalGas(env: Env, pool: seq<Transaction>) returns (total: Option<u64>)
    ensures total == if GasSum(env, pool) <= MAX_U64 then Some(GasSum(env, pool)) else None
  {
    hide CandidateOf;
    var sum: u64 := 0;
    assert pool[..0] == [];
    for i := 0 to |pool|
      invariant sum == GasSum(env, pool[..i])
    {
      assert pool[..i + 1][..i] == pool[..i];
      GasSumGrows(env, pool, i + 1);
      var gas := CandidateOf(env, pool[i]).gas;
      if MAX_U64 - sum < gas {
        return None;
      }
      sum := sum + gas;
    }
    assert pool[..|pool|] == pool;
    return Some(sum);
  }

  lemma Joined(env: Env, pool: seq<Transaction>, tx: Transaction)
    requires PoolSound(env, pool) && MayJoin(env, pool, tx)
    ensures PoolSound(env, pool + [tx])
  {
    hide Recovery.Readmissible, CandidateOf, Apart;
    assert (pool + [tx])[..|pool|] == pool;
  }

  /** Admission keeps the pool sound and takes exactly what may join. */
  method Admit(env: Env, pool: seq<Transaction>, tx: Transaction) returns (ok: bool, after: seq<Transaction>)
    requires PoolSound(env, pool)
    ensures ok <==> MayJoin(env, pool, tx)
    ensures after == if ok then pool + [tx] else pool
    ensures PoolSound(env, after)
  {
    hide Recovery.Readmissible, CandidateOf, Apart, Unrepeated, GasSum;
    after := pool;
    if !Recovery.Readmissible(env, tx) {
      return false, pool;
    }
    var apart := NoClash(pool, tx);
    if !apart || (env.profile.maxTxCount > 0 && |pool| >= env.profile.maxTxCount) {
      return false, pool;
    }
    var gas := CandidateOf(env, tx).gas;
    var total := TotalGas(env, pool);
    if total.None? || MAX_U64 - total.value < gas
       || (env.profile.maxGasPerBlock > 0 && total.value + gas > env.profile.maxGasPerBlock) {
      return false, pool;
    }
    Joined(env, pool, tx);
    return true, pool + [tx];
  }

  // ---------------------------------------------------------------- selection by priority alone

  function Listed(env: Env, txs: seq<Transaction>): seq<Candidate> {
    if txs == [] then []
    else
      var tx := txs[|txs| - 1];
      Listed(env, txs[..|txs| - 1]) + (if tx.coinbase then [] else [CandidateOf(env, tx)])
  }

  ghost predicate ByPriority(list: seq<Candidate>) {
    forall i, j :: 0 <= i < j < |list| ==> !HigherPriority(list[j], list[i])
  }

  /** Takes every candidate that still fits, in the order given. */
  function Filled(list: seq<Candidate>, maxGas: u64): seq<Candidate> {
    if list == [] then []
    else
      var before := Filled(list[..|list| - 1], maxGas);
      var c := list[|list| - 1];
      if Fits(c, Gas(before), maxGas) then before + [c] else before
  }

  lemma PriorityOrder(a: Candidate, b: Candidate, c: Candidate)
    ensures !HigherPriority(b, a) && !HigherPriority(c, b) ==> !HigherPriority(c, a)
    ensures HigherPriority(a, b) ==> !HigherPriority(b, a)
  {
    Recovery.LessChains(a.tx.id, b.tx.id, c.tx.id);
    PriorityIsTotal(a, b);
    PriorityIsTotal(b, c);
    PriorityIsTotal(a, c);
    hide Text.Less, Better;
    if Better(c, a) && Better(a, b) {
      PriorityIsTransitive(c, a, b);
    }
    if Better(b, c) && Better(c, a) {
      PriorityIsTransitive(b, c, a);
    }
    TiedAlike(a, b, c);
    TiedAlike(b, c, a);
    TiedAlike(a, c, b);
  }

  /** Tied candidates compare alike with everything else. */
  lemma TiedAlike(a: Candidate, b: Candidate, c: Candidate)
    ensures Tied(a, b) ==> (Better(a, c) <==> Better(b, c)) && (Better(c, a) <==> Better(c, b))
  {
  }

  method InsertByPriority(list: seq<Candidate>, c: Candidate) returns (more: seq<Candidate>)
    requires ByPriority(list)
    ensures ByPriority(more) && multiset(more) == multiset(list) + multiset{c}
  {
    hide HigherPriority;
    var i: int := |list|;
    while i > 0 && HigherPriority(c, list[i - 1])
      invariant 0 <= i <= |list| && forall k :: i <= k < |list| ==> HigherPriority(c, list[k])
    {
      i := i - 1;
    }
    more := list[..i] + [c] + list[i..];
    assert list == list[..i] + list[i..];
    forall k | 0 <= k < |list|
      ensures k < i ==> !HigherPriority(c, list[k])
      ensures k >= i ==> !HigherPriority(list[k], c)
    {
      if k < i - 1 {
        PriorityOrder(list[k], list[i - 1], c);
      }
      PriorityOrder(c, list[k], c);
    }
  }

  method SortByPriority(list: seq<Candidate>) returns (sorted: seq<Candidate>)
    ensures ByPriority(sorted) && multiset(sorted) == multiset(list)
  {
    hide HigherPriority;
    sorted := [];
    for i := 0 to |list|
      invariant ByPriority(sorted) && multiset(sorted) == multiset(list[..i])
    {
      assert list[..i + 1] == list[..i] + [list[i]];
      sorted := InsertByPriority(sorted, list[i]);
    }
    assert list[..|list|] == list;
  }

  /** The outcome of selecting from `txs`, for some order of entries the priority leaves open. */
  ghost predicate Selected(env: Env, txs: seq<Transaction>, maxGas: u64, out: seq<Transaction>) {
    exists sorted :: ByPriority(sorted) && multiset(sorted) == multiset(Listed(env, txs)) && out == Txs(Filled(sorted, maxGas))
  }

  method Collect(env: Env, txs: seq<Transaction>) returns (ok: bool, candidates: seq<Candidate>)
    ensures ok <==> forall i :: 0 <= i < |txs| && !txs[i].coinbase ==> Recovery.Readmissible(env, txs[i])
    ensures ok ==> candidates == Listed(env, txs)
  {
    hide Recovery.Readmissible, CandidateOf;
    candidates := [];
    for i := 0 to |txs|
      invariant candidates == Listed(env, txs[..i])
      invariant forall k :: 0 <= k < i && !txs[k].coinbase ==> Recovery.Readmissible(env, txs[k])
    {
      assert txs[..i + 1][..i] == txs[..i];
      if txs[i].coinbase {
        continue;
      }
      if !Recovery.Readmissible(env, txs[i]) {
        return false, [];
      }
      candidates := candidates + [CandidateOf(env, txs[i])];
    }
    assert txs[..|txs|] == txs;
    ok := true;
  }

  lemma FilledNext(sorted: seq<Candidate>, maxGas: u64, i: nat)
    requires i < |sorted|
    ensures
      var before, c := Filled(sorted[..i], maxGas), sorted[i];
      && Filled(sorted[..i + 1], maxGas) == (if Fits(c, Gas(before), maxGas) then before + [c] else before)
      && Gas(before + [c]) == Gas(before) + c.gas
      && Txs(before + [c]) == Txs(before) + [c.tx]
  {
    hide Fits;
    assert sorted[..i + 1][..i] == sorted[..i];
    var before := Filled(sorted[..i], maxGas);
    assert (before + [sorted[i]])[..|before|] == before;
  }

  method Fill(sorted: seq<Candidate>, maxGas: u64) returns (out: seq<Transaction>)
    ensures out == Txs(Filled(sorted, maxGas))
  {
    assert sorted[..0] == [] && Txs([]) == [];
    out := [];
    var used: u64 := 0;
    for i := 0 to |sorted|
      invariant out == Txs(Filled(sorted[..i], maxGas))
      invariant used == Gas(Filled(sorted[..i], maxGas)) || maxGas == 0
    {
      hide Fits, Filled, Gas, Txs;
      FilledNext(sorted, maxGas, i);
      var c := sorted[i];
      UsedOrUnlimited(c, used, Gas(Filled(sorted[..i], maxGas)), maxGas);
      if !Fits(c, used, maxGas) {
        continue;
      }
      used := (used + c.gas) % 0x1_0000_0000_0000_0000;
      out := out + [c.tx];
    }
    assert sorted[..|sorted|] == sorted;
  }

  /** Sorts the admissible transactions by priority and takes what fits. */
  method Select(env: Env, txs: seq<Transaction>, maxGas: u64) returns (ok: bool, out: seq<Transaction>)
    ensures ok <==> forall i :: 0 <= i < |txs| && !txs[i].coinbase ==> Recovery.Readmissible(env, txs[i])
    ensures ok ==> Selected(env, txs, maxGas, out)
  {
    hide Recovery.Readmissible, ByPriority, Listed, Filled, Txs;
    var candidates;
    ok, candidates := Collect(env, txs);
    out := [];
    if ok {
      var sorted := SortByPriority(candidates);
      out := Fill(sorted, maxGas);
    }
  }

  lemma UsedOrUnlimited(c: Candidate, used: u64, gas: nat, maxGas: u64)
    requires used == gas || maxGas == 0
    ensures Fits(c, used, maxGas) <==> Fits(c, gas, maxGas)
    ensures Fits(c, gas, maxGas) && maxGas > 0 ==> used + c.gas <= MAX_U64
  {
  }

  lemma {:induction false} FilledFits(list: seq<Candidate>, maxGas: u64)
    ensures maxGas > 0 ==> Gas(Filled(list, maxGas)) <= maxGas
    ensures multiset(Filled(list, maxGas)) <= multiset(list)
  {
    if list != [] {
      var n := |list| - 1;
      assert list == list[..n] + [list[n]];
      FilledFits(list[..n], maxGas);
      var before := Filled(list[..n], maxGas);
      assert (before + [list[n]])[..|before|] == before;
    }
  }

  /** What is left out would not fit any more at the end: used gas only grows. */
  lemma {:induction false} NothingMoreFits(list: seq<Candidate>, maxGas: u64, i: nat)
    requires i < |list|
    ensures list[i] in Filled(list, maxGas) || !Fits(list[i], Gas(Filled(list, maxGas)), maxGas)
    decreases |list|
  {
    var n := |list| - 1;
    var before := Filled(list[..n], maxGas);
    assert (before + [list[n]])[..|before|] == before;
    if i < n {
      NothingMoreFits(list[..n], maxGas, i);
    }
  }

  lemma {:induction false} FilledStays(list: seq<Candidate>, maxGas: u64)
    requires ByPriority(list)
    ensures ByPriority(Filled(list, maxGas)) && forall c :: c in Filled(list, maxGas) ==> c in list
  {
    hide HigherPriority, Fits;
    if list != [] {
      FilledStays(list[..|list| - 1], maxGas);
      var before, c := Filled(list[..|list| - 1], maxGas), list[|list| - 1];
      forall i | 0 <= i < |before|
        ensures !HigherPriority(c, before[i])
      {
        assert before[i] in list[..|list| - 1];
        var k :| 0 <= k < |list| - 1 && list[k] == before[i];
      }
    }
  }

  lemma {:induction false} ListedMetered(env: Env, txs: seq<Transaction>, c: Candidate)
    requires forall i :: 0 <= i < |txs| && !txs[i].coinbase ==> Recovery.Readmissible(env, txs[i])
    requires c in Listed(env, txs)
    ensures Fees.GasUsed(env, c.tx) == Some(c.gas)
  {
    hide Fees.GasUsed, Fees.Acceptable;
    var n := |txs| - 1;
    if c in Listed(env, txs[..n]) {
      ListedMetered(env, txs[..n], c);
    } else {
      assert Recovery.Readmissible(env, txs[n]);
    }
  }

  /** What is selected comes in the order of fee per gas, then fee, then gas, then id. */
  lemma SelectedDearerFirst(env: Env, txs: seq<Transaction>, maxGas: u64, out: seq<Transaction>, i: nat, j: nat)
    requires forall k :: 0 <= k < |txs| && !txs[k].coinbase ==> Recovery.Readmissible(env, txs[k])
    requires Selected(env, txs, maxGas, out) && i < j < |out|
    ensures Fees.GasUsed(env, out[i]).Some? && Fees.GasUsed(env, out[j]).Some?
    ensures NoCheaper(out[i], Fees.GasUsed(env, out[i]).value, out[j], Fees.GasUsed(env, out[j]).value)
    ensures out[i].fee == out[j].fee && Fees.GasUsed(env, out[i]) == Fees.GasUsed(env, out[j]) ==> !Text.Less(out[j].id, out[i].id)
  {
    hide Fees.GasUsed, Recovery.Readmissible, Text.Less, Better, NoCheaper, ByPriority, Listed;
    var sorted :| ByPriority(sorted) && multiset(sorted) == multiset(Listed(env, txs)) && out == Txs(Filled(sorted, maxGas));
    FilledStays(sorted, maxGas);
    var list := Filled(sorted, maxGas);
    forall c | c in list
      ensures Fees.GasUsed(env, c.tx) == Some(c.gas)
    {
      assert c in multiset(sorted) && c in multiset(Listed(env, txs));
      ListedMetered(env, txs, c);
    }
    assert list[i] in list && list[j] in list;
    NotHigher(list, i, j);
    NotBetter(list[i], list[j]);
  }

  lemma NotHigher(list: seq<Candidate>, i: nat, j: nat)
    requires ByPriority(list) && i < j < |list|
    ensures !Better(list[j], list[i])
    ensures list[i].tx.fee == list[j].tx.fee && list[i].gas == list[j].gas ==> !Text.Less(list[j].tx.id, list[i].tx.id)
  {
    hide Better, Text.Less;
  }

  /** In figures: without a limit all is taken, and under one whatever is left out would exceed it. */
  lemma LeftOutExceeds(list: seq<Candidate>, maxGas: u64, i: nat)
    requires i < |list|
    ensures list[i] in Filled(list, maxGas) || (maxGas > 0 && Gas(Filled(list, maxGas)) + list[i].gas > maxGas)
  {
    NothingMoreFits(list, maxGas, i);
  }

  ghost predicate DistinctNames(list: seq<Candidate>) {
    forall i, j :: 0 <= i < j < |list| ==> list[i].tx.id != list[j].tx.id
  }

  lemma SameRank(a: Candidate, b: Candidate)
    requires !HigherPriority(a, b) && !HigherPriority(b, a)
    ensures a.tx.id == b.tx.id
  {
    PriorityIsTotal(a, b);
    Text.LessIsStrictTotalOrder(a.tx.id, b.tx.id);
  }

  lemma SamePlace(x: seq<Candidate>, y: seq<Candidate>)
    requires ByPriority(x) && ByPriority(y) && multiset(x) == multiset(y) && x != [] && DistinctNames(x)
    ensures y != [] && x[0] == y[0]
  {
    assert x[0] in multiset(y) && |multiset(x)| == |x| && |multiset(y)| == |y|;
    var j :| 0 <= j < |y| && y[j] == x[0];
    assert y[0] in multiset(x);
    var i :| 0 <= i < |x| && x[i] == y[0];
    PriorityOrder(x[0], x[0], x[0]);
    hide HigherPriority;
    assert !HigherPriority(x[i], x[0]) && !HigherPriority(y[j], y[0]);
    SameRank(x[0], y[0]);
  }

  lemma Tails(x: seq<Candidate>)
    requires x != [] && ByPriority(x) && DistinctNames(x)
    ensures ByPriority(x[1..]) && DistinctNames(x[1..])
  {
    hide HigherPriority;
  }

  lemma SameTails(x: seq<Candidate>, y: seq<Candidate>)
    requires x != [] && y != [] && x[0] == y[0] && multiset(x) == multiset(y)
    ensures multiset(x[1..]) == multiset(y[1..])
  {
    assert x == [x[0]] + x[1..] && y == [y[0]] + y[1..];
    assert multiset(x[1..]) == multiset(x) - multiset{x[0]} && multiset(y[1..]) == multiset(y) - multiset{y[0]};
  }

  /** Sorted by priority, a list without repeated ids has only one order. */
  lemma {:induction false} OneOrder(x: seq<Candidate>, y: seq<Candidate>)
    requires ByPriority(x) && ByPriority(y) && multiset(x) == multiset(y) && DistinctNames(x)
    ensures x == y
  {
    SameNames(x, y);
    hide ByPriority, DistinctNames;
    if x == [] {
      assert |multiset(x)| == |x| && |multiset(y)| == |y|;
    } else {
      SamePlace(x, y);
      Tails(x);
      Tails(y);
      SameTails(x, y);
      OneOrder(x[1..], y[1..]);
      assert x == [x[0]] + x[1..] && y == [y[0]] + y[1..];
    }
  }

  lemma {:induction false} ListedNames(env: Env, txs: seq<Transaction>)
    requires forall i, j :: 0 <= i < j < |txs| ==> txs[i].id != txs[j].id
    ensures DistinctNames(Listed(env, txs))
    ensures forall i :: 0 <= i < |Listed(env, txs)| ==> exists k :: 0 <= k < |txs| && txs[k].id == Listed(env, txs)[i].tx.id
  {
    hide Fees.GasUsed;
    if txs != [] {
      var n := |txs| - 1;
      ListedNames(env, txs[..n]);
      assert forall k :: 0 <= k < n ==> txs[k] == txs[..n][k];
    }
  }

  lemma SameNames(x: seq<Candidate>, y: seq<Candidate>)
    requires multiset(x) == multiset(y) && DistinctNames(x)
    ensures DistinctNames(y)
  {
    forall i, j | 0 <= i < j < |y|
      ensures y[i].tx.id != y[j].tx.id
    {
      if y[i].tx.id == y[j].tx.id {
        TwiceIn(y, i, j);
        assert y[i] in multiset(x) && y[j] in multiset(x);
        var a :| 0 <= a < |x| && x[a] == y[i];
        var b :| 0 <= b < |x| && x[b] == y[j];
        assert a == b;
        OnceIn(x, a);
      }
    }
  }

  lemma TwiceIn(y: seq<Candidate>, i: nat, j: nat)
    requires i < j < |y|
    ensures y[i] == y[j] ==> multiset(y)[y[i]] >= 2
  {
    assert y == y[..j] + [y[j]] + y[j + 1..];
    assert y[i] in y[..j];
  }

  lemma OnceIn(x: seq<Candidate>, a: nat)
    requires DistinctNames(x) && a < |x|
    ensures multiset(x)[x[a]] == 1
  {
    assert x == x[..a] + [x[a]] + x[a + 1..];
    assert x[a] !in x[..a] && x[a] !in x[a + 1..];
  }

  /** Selection by priority is what it is said to be: for transactions with distinct ids the result does
      not depend on the order they are listed in, nor on how the sort treats equals. */
  lemma SelectIsDeterministic(env: Env, txs: seq<Transaction>, again: seq<Transaction>, maxGas: u64,
                              out: seq<Transaction>, other: seq<Transaction>)
    requires forall i, j :: 0 <= i < j < |txs| ==> txs[i].id != txs[j].id
    requires multiset(Listed(env, txs)) == multiset(Listed(env, again))
    requires Selected(env, txs, maxGas, out) && Selected(env, again, maxGas, other)
    ensures out == other
  {
    hide ByPriority, DistinctNames, Listed;
    ListedNames(env, txs);
    var x :| ByPriority(x) && multiset(x) == multiset(Listed(env, txs)) && out == Txs(Filled(x, maxGas));
    var y :| ByPriority(y) && multiset(y) == multiset(Listed(env, again)) && other == Txs(Filled(y, maxGas));
    SameNames(Listed(env, txs), x);
    OneOrder(x, y);
  }
}
