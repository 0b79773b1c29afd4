/** The transaction pool after a reorganisation (p2p/reorg.go, mempool/admission.go): pending and
    orphaned transactions are replayed on the new chain's ledger, and what applies is kept. */
module Recovery {
  import opened Arith
  import opened Types
  import opened Ledgers
  import opened MatureLedgers
  import opened Chains
  import ChainHistory
  import Fees
  import ForkChoice
  import LedgerInvariant
  import Nodes
  import Selection
  import Snapshots
  import Text
  import Validation

  // ---------------------------------------------------------------- the order of revalidation

  /** By sender, then nonce, then id. */
  predicate Before(a: Transaction, b: Transaction) {
    if a.sender != b.sender then Text.Less(a.sender, b.sender)
    else if a.nonce != b.nonce then a.nonce < b.nonce
    else Text.Less(a.id, b.id)
  }

  function InsertStable(list: seq<Transaction>, tx: Transaction): seq<Transaction> {
    if list == [] || !Before(tx, list[|list| - 1]) then list + [tx]
    else InsertStable(list[..|list| - 1], tx) + [list[|list| - 1]]
  }

  /** The stable sort: equal entries keep their order. */
  function StableSort(txs: seq<Transaction>): seq<Transaction> {
    if txs == [] then [] else InsertStable(StableSort(txs[..|txs| - 1]), txs[|txs| - 1])
  }

  lemma {:induction false} InsertKeeps(list: seq<Transaction>, tx: Transaction)
    ensures multiset(InsertStable(list, tx)) == multiset(list) + multiset{tx}
    ensures |InsertStable(list, tx)| == |list| + 1
  {
    hide Before;
    if list != [] {
      var n := |list| - 1;
      assert list == list[..n] + [list[n]];
      InsertKeeps(list[..n], tx);
    }
  }

  lemma {:induction false} SortKeeps(txs: seq<Transaction>)
    ensures multiset(StableSort(txs)) == multiset(txs) && |StableSort(txs)| == |txs|
  {
    hide InsertStable;
    if txs != [] {
      var n := |txs| - 1;
      assert txs == txs[..n] + [txs[n]];
      SortKeeps(txs[..n]);
      InsertKeeps(StableSort(txs[..n]), txs[n]);
    }
  }

  ghost predicate InOrder(txs: seq<Transaction>) {
    forall i, j :: 0 <= i < j < |txs| ==> !Before(txs[j], txs[i])
  }

  lemma BeforeIsTransitive(a: Transaction, b: Transaction, c: Transaction)
    ensures !Before(b, a) && !Before(c, b) ==> !Before(c, a)
    ensures Before(a, b) ==> !Before(b, a)
  {
    LessChains(a.sender, b.sender, c.sender);
    LessChains(a.id, b.id, c.id);
    hide Text.Less;
  }

  lemma LessChains(a: string, b: string, c: string)
    ensures !Text.Less(b, a) && !Text.Less(c, b) ==> !Text.Less(c, a)
    ensures Text.Less(a, b) ==> !Text.Less(b, a)
    ensures a != b ==> Text.Less(a, b) || Text.Less(b, a)
    ensures b != c ==> Text.Less(b, c) || Text.Less(c, b)
    ensures a != c ==> Text.Less(a, c) || Text.Less(c, a)
    ensures !Text.Less(a, a)
    ensures Text.Less(a, b) && Text.Less(b, c) ==> Text.Less(a, c)
    ensures Text.Less(b, c) ==> !Text.Less(c, b)
    ensures Text.Less(a, c) ==> !Text.Less(c, a)
  {
    Text.LessIsStrictTotalOrder(a, b);
    Text.LessIsStrictTotalOrder(b, c);
    Text.LessIsStrictTotalOrder(a, c);
    Text.LessIsStrictTotalOrder(a, a);
    hide Text.Less;
    if Text.Less(a, b) && Text.Less(b, c) {
      Text.LessTransitive(a, b, c);
    }
    if Text.Less(c, a) && Text.Less(a, b) {
      Text.LessTransitive(c, a, b);
    }
  }

  lemma {:induction false} InsertInOrder(list: seq<Transaction>, tx: Transaction)
    requires InOrder(list)
    ensures InOrder(InsertStable(list, tx))
  {
    hide Before;
    var n := |list| - 1;
    if list == [] || !Before(tx, list[n]) {
      forall i | 0 <= i < |list|
        ensures !Before(tx, list[i])
      {
        if i < n {
          BeforeIsTransitive(list[i], list[n], tx);
        }
      }
    } else {
      InsertInOrder(list[..n], tx);
      var front := InsertStable(list[..n], tx);
      InsertKeeps(list[..n], tx);
      forall i | 0 <= i < |front|
        ensures !Before(list[n], front[i])
      {
        assert front[i] in multiset(front);
        if front[i] == tx {
          BeforeIsTransitive(tx, list[n], tx);
        } else {
          assert front[i] in list[..n];
        }
      }
    }
  }

  lemma {:induction false} SortIsInOrder(txs: seq<Transaction>)
    ensures InOrder(StableSort(txs))
  {
    if txs != [] {
      SortIsInOrder(txs[..|txs| - 1]);
      InsertInOrder(StableSort(txs[..|txs| - 1]), txs[|txs| - 1]);
    }
  }

  /** The entries that neither come before nor after `x`. */
  function Level(txs: seq<Transaction>, x: Transaction): seq<Transaction> {
    if txs == [] then []
    else
      var tx := txs[|txs| - 1];
      Level(txs[..|txs| - 1], x) + (if !Before(tx, x) && !Before(x, tx) then [tx] else [])
  }

  lemma {:induction false} InsertIsStable(list: seq<Transaction>, tx: Transaction, x: Transaction)
    ensures Level(InsertStable(list, tx), x) == Level(list + [tx], x)
  {
    hide Before;
    assert (list + [tx])[..|list|] == list;
    if list != [] {
      var n := |list| - 1;
      if Before(tx, list[n]) {
        InsertIsStable(list[..n], tx, x);
        var front := InsertStable(list[..n], tx);
        assert (front + [list[n]])[..|front|] == front;
        assert (list[..n] + [tx])[..n] == list[..n];
        NotLevelBoth(tx, list[n], x);
      }
    }
  }

  lemma NotLevelBoth(a: Transaction, b: Transaction, x: Transaction)
    requires Before(a, b)
    ensures Before(a, x) || Before(x, a) || Before(b, x) || Before(x, b)
  {
    BeforeIsTransitive(a, x, b);
    BeforeIsTransitive(b, x, a);
    hide Before;
  }

  lemma {:induction false} SortIsStable(txs: seq<Transaction>, x: Transaction)
    ensures Level(StableSort(txs), x) == Level(txs, x)
  {
    hide Before;
    if txs != [] {
      var n := |txs| - 1;
      var sorted := StableSort(txs[..n]);
      SortIsStable(txs[..n], x);
      InsertIsStable(sorted, txs[n], x);
      assert (sorted + [txs[n]])[..|sorted|] == sorted;
    }
  }

  /** Sorting what is in order already changes nothing. */
  lemma {:induction false} SortOfSorted(txs: seq<Transaction>)
    requires InOrder(txs)
    ensures StableSort(txs) == txs
  {
    hide Before;
    if txs != [] {
      var n := |txs| - 1;
      SortOfSorted(txs[..n]);
      assert txs == txs[..n] + [txs[n]];
    }
  }

  method SortStable(txs: seq<Transaction>) returns (ordered: seq<Transaction>)
    ensures ordered == StableSort(txs)
  {
    hide Before;
    ordered := [];
    for i := 0 to |txs|
      invariant ordered == StableSort(txs[..i])
    {
      assert txs[..i + 1][..i] == txs[..i];
      ordered := Insert(ordered, txs[i]);
    }
    assert txs[..|txs|] == txs;
  }

  method Insert(list: seq<Transaction>, tx: Transaction) returns (more: seq<Transaction>)
    ensures more == InsertStable(list, tx)
  {
    hide Before;
    var i: int := |list|;
    assert list[..i] == list;
    while i > 0 && Before(tx, list[i - 1])
      invariant 0 <= i <= |list|
      invariant InsertStable(list, tx) == InsertStable(list[..i], tx) + list[i..]
    {
      assert list[..i][..i - 1] == list[..i - 1];
      i := i - 1;
    }
    more := list[..i] + [tx] + list[i..];
  }

  // ---------------------------------------------------------------- revalidation

  /** `ValidateForRevalidation` */
  predicate Readmissible(env: Env, tx: Transaction) {
    !tx.coinbase && tx.id != "" && tx.sender != "" && Selection.Selectable(env, tx)
  }

  datatype Outcome = Outcome(
    kept: seq<Transaction>,
    ledger: Ledger,              // the working ledger, with everything kept applied
    invalid: nat,
    confirmed: nat,
    duplicate: nat)

  predicate Holds(txs: seq<Transaction>, id: string) {
    exists i :: 0 <= i < |txs| && txs[i].id == id
  }

  ghost function Admit(env: Env, confirmed: set<string>, r: Outcome, tx: Transaction): Outcome {
    if tx.coinbase then r.(invalid := r.invalid + 1)
    else if tx.id in confirmed then r.(confirmed := r.confirmed + 1)
    else if Holds(r.kept, tx.id) then r.(duplicate := r.duplicate + 1)
    else if !Readmissible(env, tx) || (env.profile.maxTxCount > 0 && |r.kept| >= env.profile.maxTxCount)
         || ApplyTransaction(env, r.ledger, tx, r.ledger.height).None?
    then r.(invalid := r.invalid + 1)
    else r.(kept := r.kept + [tx], ledger := ApplyTransaction(env, r.ledger, tx, r.ledger.height).value)
  }

  ghost function Revalidate(env: Env, l: Ledger, confirmed: set<string>, ordered: seq<Transaction>): Outcome {
    if ordered == [] then Outcome([], l, 0, 0, 0)
    else Admit(env, confirmed, Revalidate(env, l, confirmed, ordered[..|ordered| - 1]), ordered[|ordered| - 1])
  }

  ghost predicate DistinctNames(txs: seq<Transaction>) {
    forall i, j :: 0 <= i < j < |txs| ==> txs[i].id != txs[j].id
  }

  /** What is known about a list of transactions that were applied one after another. */
  ghost predicate Applied(env: Env, l: Ledger, txs: seq<Transaction>, after: Ledger) {
    && ApplyAll(env, l, txs, l.height) == Some(after)
    && (forall i :: 0 <= i < |txs| ==> !txs[i].coinbase)
  }

  lemma AppliedMore(env: Env, l: Ledger, txs: seq<Transaction>, after: Ledger, tx: Transaction)
    requires Applied(env, l, txs, after) && !tx.coinbase && ApplyTransaction(env, after, tx, after.height).Some?
    ensures Applied(env, l, txs + [tx], ApplyTransaction(env, after, tx, after.height).value)
  {
    hide ApplyTransaction;
    ApplyAllKeepsHeight(env, l, txs, l.height);
    assert (txs + [tx])[..|txs|] == txs;
  }

  /** Soundness of revalidation: what is kept applies, in its order, to the ledger it was checked
      against; it holds no coinbase, no confirmed and no repeated id, within the count limit; and every
      transaction is either kept or counted once as dropped. */
  lemma {:induction false} RevalidationIsSound(env: Env, l: Ledger, confirmed: set<string>, ordered: seq<Transaction>)
    ensures
      var r := Revalidate(env, l, confirmed, ordered);
      && Applied(env, l, r.kept, r.ledger)
      && DistinctNames(r.kept)
      && (forall i :: 0 <= i < |r.kept| ==> Readmissible(env, r.kept[i]) && r.kept[i].id !in confirmed)
      && (env.profile.maxTxCount > 0 ==> |r.kept| <= env.profile.maxTxCount)
      && |r.kept| + r.invalid + r.confirmed + r.duplicate == |ordered|
  {
    hide ApplyTransaction, Selection.Selectable;
    if ordered != [] {
      var n := |ordered| - 1;
      RevalidationIsSound(env, l, confirmed, ordered[..n]);
      var r := Revalidate(env, l, confirmed, ordered[..n]);
      if Admit(env, confirmed, r, ordered[n]).kept != r.kept {
        AppliedMore(env, l, r.kept, r.ledger, ordered[n]);
      }
    }
  }

  /** The kept transactions are among the listed ones, in the same relative order. */
  lemma {:induction false} KeptInOrder(env: Env, l: Ledger, confirmed: set<string>, ordered: seq<Transaction>)
    requires InOrder(ordered)
    ensures InOrder(Revalidate(env, l, confirmed, ordered).kept)
    ensures forall tx :: tx in Revalidate(env, l, confirmed, ordered).kept ==> tx in ordered
  {
    hide ApplyTransaction, Selection.Selectable, Before;
    if ordered != [] {
      var n := |ordered| - 1;
      KeptInOrder(env, l, confirmed, ordered[..n]);
      var kept := Revalidate(env, l, confirmed, ordered[..n]).kept;
      forall i | 0 <= i < |kept|
        ensures !Before(ordered[n], kept[i])
      {
        assert kept[i] in ordered[..n];
      }
    }
  }

  /** A list that applies, without repeats, confirmed ids or inadmissible entries, is kept whole. */
  lemma {:induction false} KeepsWhatApplies(env: Env, l: Ledger, confirmed: set<string>, txs: seq<Transaction>, after: Ledger)
    requires Applied(env, l, txs, after) && DistinctNames(txs)
    requires forall i :: 0 <= i < |txs| ==> Readmissible(env, txs[i]) && txs[i].id !in confirmed
    requires env.profile.maxTxCount > 0 ==> |txs| <= env.profile.maxTxCount
    ensures Revalidate(env, l, confirmed, txs) == Outcome(txs, after, 0, 0, 0)
  {
    hide ApplyTransaction, Selection.Selectable;
    if txs != [] {
      var n := |txs| - 1;
      var before := ApplyAll(env, l, txs[..n], l.height).value;
      ApplyAllKeepsHeight(env, l, txs[..n], l.height);
      KeepsWhatApplies(env, l, confirmed, txs[..n], before);
      assert txs == txs[..n] + [txs[n]];
    }
  }

  /** Idempotence: revalidating what was kept, on the same ledger, keeps all of it in the same order. */
  lemma RevalidationIsIdempotent(env: Env, l: Ledger, confirmed: set<string>, txs: seq<Transaction>)
    ensures
      var kept := Revalidate(env, l, confirmed, StableSort(txs)).kept;
      var again := Revalidate(env, l, confirmed, StableSort(kept));
      again.kept == kept && again.invalid == again.confirmed == again.duplicate == 0
  {
    hide Revalidate, StableSort, Applied, DistinctNames, Readmissible, InOrder;
    var r := Revalidate(env, l, confirmed, StableSort(txs));
    SortIsInOrder(txs);
    RevalidationIsSound(env, l, confirmed, StableSort(txs));
    KeptInOrder(env, l, confirmed, StableSort(txs));
    SortOfSorted(r.kept);
    KeepsWhatApplies(env, l, confirmed, r.kept, r.ledger);
  }

  /** Sorted by sender and, for one sender, by nonce, without two alike. */
  ghost predicate StrictlySorted(txs: seq<Transaction>) {
    forall i, j :: 0 <= i < j < |txs| ==>
      Text.Less(txs[i].sender, txs[j].sender) || (txs[i].sender == txs[j].sender && txs[i].nonce < txs[j].nonce)
  }

  lemma StrictIsBefore(txs: seq<Transaction>, i: nat, j: nat)
    requires StrictlySorted(txs) && i < j < |txs|
    ensures Before(txs[i], txs[j]) && !Before(txs[j], txs[i])
  {
    LessChains(txs[i].sender, txs[j].sender, txs[j].sender);
    hide Text.Less;
  }

  lemma SortedHeads(x: seq<Transaction>, y: seq<Transaction>)
    requires InOrder(x) && StrictlySorted(y) && multiset(x) == multiset(y) && y != []
    ensures x != [] && x[0] == y[0]
  {
    assert |multiset(x)| == |x| && |multiset(y)| == |y|;
    hide Before, StrictlySorted;
    assert y[0] in multiset(x) && x[0] in multiset(y);
    var k :| 0 <= k < |x| && x[k] == y[0];
    var m :| 0 <= m < |y| && y[m] == x[0];
    if m > 0 {
      StrictIsBefore(y, 0, m);
    }
  }

  lemma TailsSorted(x: seq<Transaction>, y: seq<Transaction>)
    requires InOrder(x) && StrictlySorted(y) && multiset(x) == multiset(y) && x != [] && y != [] && x[0] == y[0]
    ensures InOrder(x[1..]) && StrictlySorted(y[1..]) && multiset(x[1..]) == multiset(y[1..])
  {
    hide Before, Text.Less;
    assert x == [x[0]] + x[1..] && y == [y[0]] + y[1..];
    assert multiset(x[1..]) == multiset(x) - multiset{x[0]} && multiset(y[1..]) == multiset(y) - multiset{y[0]};
  }

  lemma {:induction false} OnlySorted(x: seq<Transaction>, y: seq<Transaction>)
    requires InOrder(x) && StrictlySorted(y) && multiset(x) == multiset(y)
    ensures x == y
  {
    hide InOrder, StrictlySorted;
    if y == [] {
      assert |multiset(x)| == |x|;
    } else {
      SortedHeads(x, y);
      TailsSorted(x, y);
      OnlySorted(x[1..], y[1..]);
      assert x == [x[0]] + x[1..] && y == [y[0]] + y[1..];
    }
  }

  /** Whatever applies under an id may be kept. */
  lemma {:induction false} AppliedIsReadmissible(env: Env, l: Ledger, txs: seq<Transaction>, after: Ledger, i: nat)
    requires Applied(env, l, txs, after) && i < |txs| && txs[i].id != "" && env.AddressesSound()
    ensures Readmissible(env, txs[i])
  {
    hide ApplyTransaction, Selection.Selectable;
    var n := |txs| - 1;
    var before := ApplyAll(env, l, txs[..n], l.height).value;
    ApplyAllKeepsHeight(env, l, txs[..n], l.height);
    if i < n {
      AppliedIsReadmissible(env, l, txs[..n], before, i);
    } else {
      OneIsReadmissible(env, before, txs[n]);
    }
  }

  lemma OneIsReadmissible(env: Env, l: Ledger, tx: Transaction)
    requires ApplyTransaction(env, l, tx, l.height).Some? && !tx.coinbase && tx.id != "" && env.AddressesSound()
    ensures Readmissible(env, tx)
  {
    AppliedIsSelectable(env, l, tx);
    assert env.ValidAddress(tx.sender);
    hide ApplyTransaction, Selection.Selectable;
  }

  /** Listed in whatever order, transactions that apply sender by sender in the order of their nonces are all
      kept, and in that order. */
  lemma RunsAreKept(env: Env, l: Ledger, confirmed: set<string>, txs: seq<Transaction>, runs: seq<Transaction>, after: Ledger)
    requires multiset(txs) == multiset(runs) && StrictlySorted(runs) && env.AddressesSound()
    requires Applied(env, l, runs, after) && DistinctNames(runs)
    requires forall i :: 0 <= i < |runs| ==> runs[i].id != "" && runs[i].id !in confirmed
    requires env.profile.maxTxCount > 0 ==> |runs| <= env.profile.maxTxCount
    ensures Revalidate(env, l, confirmed, StableSort(txs)) == Outcome(runs, after, 0, 0, 0)
  {
    hide StableSort, InOrder, StrictlySorted, Revalidate, Applied, DistinctNames, Readmissible;
    SortIsInOrder(txs);
    SortKeeps(txs);
    OnlySorted(StableSort(txs), runs);
    forall i | 0 <= i < |runs|
      ensures Readmissible(env, runs[i])
    {
      AppliedIsReadmissible(env, l, runs, after, i);
    }
    KeepsWhatApplies(env, l, confirmed, runs, after);
  }

  /** Among others, one sender's run is kept whole when it applies behind what was kept before it. */
  lemma {:induction false} RunIsKept(env: Env, l: Ledger, confirmed: set<string>, front: seq<Transaction>, run: seq<Transaction>)
    requires
      var r := Revalidate(env, l, confirmed, front);
      && ApplyAll(env, r.ledger, run, r.ledger.height).Some? && DistinctNames(r.kept + run)
      && (env.profile.maxTxCount > 0 ==> |r.kept| + |run| <= env.profile.maxTxCount)
    requires forall i :: 0 <= i < |run| ==> run[i].id != "" && run[i].id !in confirmed && !run[i].coinbase
    requires env.AddressesSound()
    ensures
      var r, s := Revalidate(env, l, confirmed, front), Revalidate(env, l, confirmed, front + run);
      s.kept == r.kept + run && Some(s.ledger) == ApplyAll(env, r.ledger, run, r.ledger.height)
  {
    hide ApplyTransaction, Readmissible, Holds, DistinctNames, Admit;
    var r := Revalidate(env, l, confirmed, front);
    if run == [] {
      assert front + run == front && r.kept + run == r.kept;
    } else {
      var n := |run| - 1;
      assert r.kept + run == r.kept + run[..n] + [run[n]];
      DistinctFront(r.kept + run[..n], run[n]);
      RunIsKept(env, l, confirmed, front, run[..n]);
      assert (front + run)[..|front| + n] == front + run[..n];
      ApplyAllKeepsHeight(env, r.ledger, run[..n], r.ledger.height);
      var s := Revalidate(env, l, confirmed, front + run[..n]);
      OneIsReadmissible(env, s.ledger, run[n]);
      assert ApplyTransaction(env, s.ledger, run[n], s.ledger.height).Some?;
      AdmitsOne(env, confirmed, s, run[n]);
      assert (front + run)[|front| + n] == run[n];
    }
  }

  lemma AdmitsOne(env: Env, confirmed: set<string>, r: Outcome, tx: Transaction)
    requires !tx.coinbase && tx.id !in confirmed && !Holds(r.kept, tx.id) && Readmissible(env, tx)
    requires env.profile.maxTxCount > 0 ==> |r.kept| < env.profile.maxTxCount
    requires ApplyTransaction(env, r.ledger, tx, r.ledger.height).Some?
    ensures
      var s := Admit(env, confirmed, r, tx);
      s.kept == r.kept + [tx] && Some(s.ledger) == ApplyTransaction(env, r.ledger, tx, r.ledger.height)
  {
    hide ApplyTransaction, Readmissible, Holds;
  }

  lemma DistinctFront(txs: seq<Transaction>, tx: Transaction)
    requires DistinctNames(txs + [tx])
    ensures DistinctNames(txs) && !Holds(txs, tx.id)
  {
    var all := txs + [tx];
    assert all[|txs|] == tx && forall i :: 0 <= i < |txs| ==> all[i] == txs[i];
  }

  /** What comes later never takes back what was kept. */
  lemma {:induction false} KeptStays(env: Env, l: Ledger, confirmed: set<string>, ordered: seq<Transaction>, i: nat)
    requires i <= |ordered|
    ensures Revalidate(env, l, confirmed, ordered[..i]).kept <= Revalidate(env, l, confirmed, ordered).kept
  {
    hide ApplyTransaction, Readmissible;
    if i < |ordered| {
      var n := |ordered| - 1;
      assert ordered[..n][..i] == ordered[..i];
      KeptStays(env, l, confirmed, ordered[..n], i);
    } else {
      assert ordered[..i] == ordered;
    }
  }

  /** Whatever is not kept had a reason: a coinbase, a confirmed or repeated id, an inadmissible transaction, a
      full pool, or a ledger that refused it behind those kept before it. */
  lemma DroppedForAReason(env: Env, l: Ledger, confirmed: set<string>, ordered: seq<Transaction>, i: nat)
    requires i < |ordered|
    ensures
      var r, tx := Revalidate(env, l, confirmed, ordered[..i]), ordered[i];
      || tx in Revalidate(env, l, confirmed, ordered).kept
      || tx.coinbase || tx.id in confirmed || Holds(r.kept, tx.id) || !Readmissible(env, tx)
      || 0 < env.profile.maxTxCount <= |r.kept|
      || ApplyTransaction(env, r.ledger, tx, r.ledger.height).None?
  {
    hide ApplyTransaction, Readmissible, Holds;
    KeptStays(env, l, confirmed, ordered, i + 1);
    assert ordered[..i + 1][..i] == ordered[..i];
    var r := Revalidate(env, l, confirmed, ordered[..i + 1]);
    if r.kept != Revalidate(env, l, confirmed, ordered[..i]).kept {
      assert r.kept[|r.kept| - 1] == ordered[i];
      assert Revalidate(env, l, confirmed, ordered).kept[|r.kept| - 1] == ordered[i];
    }
  }

  lemma AppliedCoherent(env: Env, l: Ledger, txs: seq<Transaction>, after: Ledger)
    requires Applied(env, l, txs, after) && LedgerInvariant.Coherent(env, l) && env.AddressesSound()
    ensures LedgerInvariant.Coherent(env, after) && after.height == l.height
  {
    hide LedgerInvariant.Coherent, LedgerInvariant.Supply;
    LedgerInvariant.ApplyAllKeeps(env, l, txs, l.height);
    ApplyAllKeepsHeight(env, l, txs, l.height);
  }

  lemma CoherentIsAtomic(env: Env, l: Ledger)
    requires LedgerInvariant.Coherent(env, l) && env.AddressesSound()
    ensures LegacyAtomic(env, l)
  {
    hide LedgerInvariant.Coherent;
  }

  method HoldsId(txs: seq<Transaction>, id: string) returns (found: bool)
    ensures found <==> Holds(txs, id)
  {
    for i := 0 to |txs|
      invariant forall k :: 0 <= k < i ==> txs[k].id != id
    {
      if txs[i].id == id {
        return true;
      }
    }
    return false;
  }

  /** Tries one transaction on the working ledger; a failed attempt leaves no trace there. */
  method TryApply(work: MatureLedger, tx: Transaction) returns (ok: bool)
    requires work.Valid() && !tx.coinbase && LedgerInvariant.Coherent(work.env, work.model) && work.env.AddressesSound()
    modifies work, work.assets, work.coinbases
    ensures work.Valid() && fresh({work.assets, work.coinbases} - old({work.assets, work.coinbases}))
    ensures ok == ApplyTransaction(work.env, old(work.model), tx, old(work.model).height).Some?
    ensures work.model == if ok then ApplyTransaction(work.env, old(work.model), tx, old(work.model).height).value
                          else old(work.model)
  {
    hide LedgerInvariant.Coherent, MatureLedger.Core, ApplyTransaction, LegacyAtomic;
    CoherentIsAtomic(work.env, work.model);
    ok := work.ApplyTransactionAtHeight(tx, work.Height());
  }

  lemma NothingRevalidated(env: Env, l: Ledger, confirmed: set<string>)
    ensures Revalidate(env, l, confirmed, []) == Outcome([], l, 0, 0, 0)
  {
  }

  lemma RevalidateOneMore(env: Env, l: Ledger, confirmed: set<string>, ordered: seq<Transaction>, i: nat)
    requires i < |ordered| && LedgerInvariant.Coherent(env, l) && env.AddressesSound()
    ensures
      var r := Revalidate(env, l, confirmed, ordered[..i + 1]);
      && r == Admit(env, confirmed, Revalidate(env, l, confirmed, ordered[..i]), ordered[i])
      && LedgerInvariant.Coherent(env, r.ledger)
  {
    hide Admit, Applied, LedgerInvariant.Coherent;
    assert ordered[..i + 1][..i] == ordered[..i];
    RevalidationIsSound(env, l, confirmed, ordered[..i + 1]);
    var r := Revalidate(env, l, confirmed, ordered[..i + 1]);
    AppliedCoherent(env, l, r.kept, r.ledger);
  }

  method RevalidateTransactions(l: MatureLedger, txs: seq<Transaction>, confirmed: set<string>)
      returns (kept: seq<Transaction>, invalid: nat, already: nat, duplicate: nat, ghost after: Ledger)
    requires l.Valid() && LedgerInvariant.Coherent(l.env, l.model) && l.env.AddressesSound()
    modifies l`stakes
    ensures l.Valid() && l.model == old(l.model)
    ensures Outcome(kept, after, invalid, already, duplicate)
         == Revalidate(l.env, l.model, confirmed, StableSort(txs))
  {
    hide LedgerInvariant.Coherent, MatureLedger.Core, ApplyTransaction, Selection.Selectable, Holds, StableSort, Applied, Revalidate;
    var env := l.env;
    NothingRevalidated(env, l.model, confirmed);
    var work := l.Clone();
    kept, invalid, already, duplicate := [], 0, 0, 0;
    var ordered := SortStable(txs);
    assert ordered[..0] == [];
    var i := 0;
    while i < |ordered|
      invariant i <= |ordered|
      invariant fresh(work) && fresh(work.assets) && fresh(work.coinbases) && work.Valid() && work.env == env
      invariant l.Valid() && l.model == old(l.model)
      invariant Outcome(kept, work.model, invalid, already, duplicate)
             == Revalidate(env, l.model, confirmed, ordered[..i])
      invariant LedgerInvariant.Coherent(env, work.model)
    {
      RevalidateOneMore(env, l.model, confirmed, ordered, i);
      var tx := ordered[i];
      i := i + 1;
      if tx.coinbase {
        invalid := invalid + 1;
        continue;
      }
      if tx.id in confirmed {
        already := already + 1;
        continue;
      }
      var repeated := HoldsId(kept, tx.id);
      if repeated {
        duplicate := duplicate + 1;
        continue;
      }
      if !Readmissible(env, tx) || (env.profile.maxTxCount > 0 && |kept| >= env.profile.maxTxCount) {
        invalid := invalid + 1;
        continue;
      }
      var ok := TryApply(work, tx);
      if !ok {
        invalid := invalid + 1;
        continue;
      }
      kept := kept + [tx];
    }
    assert ordered[..i] == ordered;
    after := work.model;
  }

  // ---------------------------------------------------------------- after a reorganisation

  /** An applied transaction always qualifies for selection. */
  lemma AppliedIsSelectable(env: Env, l: Ledger, tx: Transaction)
    requires ApplyTransaction(env, l, tx, l.height).Some? && !tx.coinbase
    ensures Selection.Selectable(env, tx)
  {
    hide Executable, Effect, EnvelopeValid, FeePayerAuthorized, Fees.MinimumFee, UseNonce;
  }

  /** Candidates carry the nonces of the sender's transactions, in order. */
  lemma {:induction false} CandidateNonces(env: Env, txs: seq<Transaction>, a: Address)
    ensures
      var c, s := Selection.Candidates(env, txs, a), ChainHistory.SentBy(txs, a);
      |c| == |s| && forall i :: 0 <= i < |c| ==> c[i].tx.nonce == s[i]
  {
    hide Fees.GasUsed;
    if txs != [] {
      CandidateNonces(env, txs[..|txs| - 1], a);
    }
  }

  /** The next nonce of everyone who has a transaction in the list. */
  ghost predicate NextNonces(env: Env, l: Ledger, txs: seq<Transaction>, nextNonce: map<Address, u64>) {
    forall a :: Selection.Candidates(env, txs, a) != [] ==> a in nextNonce && nextNonce[a] == l.nonces[a] + 1
  }

  lemma OneOfEach(list: seq<Selection.Candidate>, start: nat, ready: seq<Selection.Candidate>)
    requires Selection.IsReady(list, start, ready)
    requires forall i :: 0 <= i < |list| ==> list[i].tx.nonce == start + i
    ensures ready == list
  {
    hide Text.Less;
    if |ready| > 0 {
      assert ready[|ready| - 1] in list;
      var k :| 0 <= k < |list| && list[k] == ready[|ready| - 1];
    }
    assert |ready| <= |list|;
    forall i | 0 <= i < |ready|
      ensures ready[i] == list[i]
    {
      assert ready[i] in list;
      var k :| 0 <= k < |list| && list[k] == ready[i];
    }
    if list != [] {
      var k := if |ready| < |list| then |ready| else |list| - 1;
      assert list[k] in list;
    }
  }

  /** Every transaction that was applied reaches its sender's ready queue: no nonce gap and no repeat
      can hold one back. */
  lemma EverythingIsReady(env: Env, l: Ledger, txs: seq<Transaction>, after: Ledger,
                          nextNonce: map<Address, u64>, queues: Selection.Queues, a: Address)
    requires Applied(env, l, txs, after) && NextNonces(env, l, txs, nextNonce)
    requires Selection.QueuesFor(env, txs, nextNonce, queues) && a in queues
    ensures queues[a] == Selection.Candidates(env, txs, a)
    ensures queues[a] != [] && queues[a][0].tx.nonce == l.nonces[a] + 1
  {
    ChainHistory.ApplyAllCounts(env, l, txs, l.height, a);
    CandidateNonces(env, txs, a);
    hide ApplyAll, Selection.Candidates, Selection.Lowest, Selection.IsReady;
    OneOfEach(Selection.Candidates(env, txs, a), l.nonces[a] + 1, queues[a]);
  }

  /** The only transactions the final selection leaves out are behind one that does not fit the gas
      limit; without a limit it leaves out none. */
  lemma DroppedOnlyForGas(env: Env, l: Ledger, txs: seq<Transaction>, after: Ledger, nextNonce: map<Address, u64>,
                          queues: Selection.Queues, maxGas: u64, picks: seq<Selection.Candidate>, a: Address)
    requires Applied(env, l, txs, after) && NextNonces(env, l, txs, nextNonce)
    requires Selection.QueuesFor(env, txs, nextNonce, queues) && Selection.Greedy(queues, maxGas, picks)
    requires Selection.Exhausted(Selection.After(queues, picks), Selection.Gas(picks), maxGas)
    ensures
      var all, picked := Selection.Candidates(env, txs, a), Selection.PicksOf(picks, a);
      && picked <= all
      && (picked != all ==> maxGas > 0 && Selection.Gas(picks) + all[|picked|].gas > maxGas)
  {
    Selection.PicksInOrder(queues, maxGas, picks, a);
    hide Applied, Selection.Candidates, Selection.Greedy, Selection.IsReady, Selection.PicksOf, NextNonces, Selection.StartOf;
    if a in queues {
      EverythingIsReady(env, l, txs, after, nextNonce, queues, a);
      var rest := Selection.After(queues, picks)[a];
      assert !Selection.Competes(Selection.After(queues, picks), a, Selection.Gas(picks), maxGas);
      if rest != [] {
        assert rest[0] == queues[a][|Selection.PicksOf(picks, a)|];
      }
    }
  }

  lemma {:induction false} SentByPicks(picks: seq<Selection.Candidate>, a: Address)
    requires forall i :: 0 <= i < |picks| ==> !picks[i].tx.coinbase
    ensures
      var s, p := ChainHistory.SentBy(Selection.Txs(picks), a), Selection.PicksOf(picks, a);
      |s| == |p| && forall i :: 0 <= i < |s| ==> s[i] == p[i].tx.nonce
  {
    if picks != [] {
      var n := |picks| - 1;
      SentByPicks(picks[..n], a);
      assert Selection.Txs(picks)[..n] == Selection.Txs(picks[..n]);
    }
  }

  /** In the saved pool each sender's nonces run on from the ledger's nonce without a gap. */
  lemma PoolNonces(env: Env, l: Ledger, txs: seq<Transaction>, nextNonce: map<Address, u64>,
                   queues: Selection.Queues, maxGas: u64, picks: seq<Selection.Candidate>, a: Address)
    requires NextNonces(env, l, txs, nextNonce)
    requires Selection.QueuesFor(env, txs, nextNonce, queues) && Selection.Greedy(queues, maxGas, picks)
    ensures
      var sent := ChainHistory.SentBy(Selection.Txs(picks), a);
      sent == ChainHistory.UpFrom(l.nonces[a], |sent|)
  {
    hide Selection.QueuesFor, Selection.Greedy, Selection.Candidates, Selection.PicksOf, Selection.Lowest,
         ChainHistory.SentBy;
    forall i | 0 <= i < |picks|
      ensures !picks[i].tx.coinbase
    {
      Selection.PickedNext(env, txs, nextNonce, queues, maxGas, picks, i);
    }
    SentByPicks(picks, a);
    var p := Selection.PicksOf(picks, a);
    forall j | 0 <= j < |p|
      ensures p[j].tx.nonce == l.nonces[a] + 1 + j
    {
      Selection.SelectedNonces(env, txs, nextNonce, queues, maxGas, picks, a, j);
    }
  }

  /** Names stay distinct and unconfirmed, and no coinbase appears, when a selection is made. */
  lemma PoolIsClean(env: Env, txs: seq<Transaction>, nextNonce: map<Address, u64>, queues: Selection.Queues,
                    maxGas: u64, picks: seq<Selection.Candidate>, confirmed: set<string>)
    requires DistinctNames(txs) && forall i :: 0 <= i < |txs| ==> txs[i].id !in confirmed
    requires Selection.QueuesFor(env, txs, nextNonce, queues) && Selection.Greedy(queues, maxGas, picks)
    ensures
      var pool := Selection.Txs(picks);
      DistinctNames(pool) && forall i :: 0 <= i < |pool| ==> pool[i].id !in confirmed && !pool[i].coinbase
  {
    hide Selection.QueuesFor, Selection.Greedy, Selection.StartOf, Selection.Candidates, Selection.PicksOf;
    var pool := Selection.Txs(picks);
    forall i | 0 <= i < |picks|
      ensures pool[i] in txs && pool[i].id !in confirmed && !pool[i].coinbase
    {
      Selection.PickedNext(env, txs, nextNonce, queues, maxGas, picks, i);
    }
    forall i, j | 0 <= i < j < |picks|
      ensures pool[i].id != pool[j].id
    {
      Selection.PicksDiffer(env, txs, nextNonce, queues, maxGas, picks, i, j);
      var x :| 0 <= x < |txs| && txs[x] == pool[i];
      var y :| 0 <= y < |txs| && txs[y] == pool[j];
    }
  }

  /** Transactions of replaced blocks, filed under their ids. */
  ghost predicate Filed(orphans: map<string, Transaction>) {
    forall id :: id in orphans ==> orphans[id].id == id && !orphans[id].coinbase
  }

  ghost predicate Mentions(txs: seq<Transaction>, id: string) {
    exists i :: 0 <= i < |txs| && !txs[i].coinbase && txs[i].id == id
  }

  lemma MentionsAppend(txs: seq<Transaction>, tx: Transaction)
    ensures forall id :: Mentions(txs + [tx], id) <==> Mentions(txs, id) || (!tx.coinbase && tx.id == id)
  {
    var more := txs + [tx];
    assert more[|txs|] == tx && forall i :: 0 <= i < |txs| ==> more[i] == txs[i];
  }

  method CollectOrphans(disconnected: seq<Block>) returns (orphans: map<string, Transaction>)
    ensures Filed(orphans)
    ensures forall id :: id in orphans <==> Mentions(AllTxs(disconnected), id)
    ensures forall id :: id in orphans ==> orphans[id] in AllTxs(disconnected)
  {
    hide Mentions;
    orphans := map[];
    NothingMentioned();
    for i := 0 to |disconnected|
      invariant Filed(orphans)
      invariant forall id :: id in orphans <==> Mentions(AllTxs(disconnected[..i]), id)
      invariant forall id :: id in orphans ==> orphans[id] in AllTxs(disconnected[..i])
    {
      var txs := disconnected[i].txs;
      ghost var before := AllTxs(disconnected[..i]);
      assert disconnected[..i + 1][..i] == disconnected[..i];
      assert before + txs[..0] == before;
      for j := 0 to |txs|
        invariant Filed(orphans)
        invariant forall id :: id in orphans <==> Mentions(before + txs[..j], id)
        invariant forall id :: id in orphans ==> orphans[id] in before + txs[..j]
      {
        assert before + txs[..j + 1] == before + txs[..j] + [txs[j]];
        MentionsAppend(before + txs[..j], txs[j]);
        if !txs[j].coinbase {
          orphans := orphans[txs[j].id := txs[j]];
        }
      }
      assert txs[..|txs|] == txs;
    }
    assert disconnected[..|disconnected|] == disconnected;
  }

  lemma NothingMentioned()
    ensures forall id :: !Mentions(AllTxs([]), id)
  {
  }

  method ConfirmedIds(blocks: seq<Block>) returns (ids: set<string>)
    ensures forall id :: id in ids <==> Mentions(AllTxs(blocks), id)
  {
    var filed := CollectOrphans(blocks);
    ids := filed.Keys;
  }

  method DropConfirmed(orphans: map<string, Transaction>, confirmed: set<string>)
      returns (rest: map<string, Transaction>, dropped: nat)
    requires Filed(orphans)
    ensures Filed(rest) && rest.Keys == orphans.Keys - confirmed
    ensures forall id :: id in rest ==> rest[id] == orphans[id]
    ensures |rest| + dropped == |orphans|
  {
    hide Filed;
    rest, dropped := orphans, 0;
    var todo := orphans.Keys;
    while todo != {}
      invariant todo <= orphans.Keys && rest.Keys == orphans.Keys - (confirmed - todo)
      invariant Filed(rest) && |rest| + dropped == |orphans|
      invariant forall id :: id in rest ==> rest[id] == orphans[id]
      decreases |todo|
    {
      var id :| id in todo;
      DropStep(orphans.Keys, confirmed, todo, id);
      todo := todo - {id};
      if id in confirmed {
        WithoutFiled(rest, id);
        rest, dropped := Without(rest, id), dropped + 1;
      }
    }
  }

  lemma DropStep(all: set<string>, confirmed: set<string>, todo: set<string>, id: string)
    requires id in todo && todo <= all
    ensures all - (confirmed - (todo - {id}))
         == if id in confirmed then all - (confirmed - todo) - {id} else all - (confirmed - todo)
    ensures id in all - (confirmed - todo)
  {
  }

  lemma WithoutFiled(m: map<string, Transaction>, id: string)
    requires Filed(m) && id in m
    ensures Filed(Without(m, id))
  {
  }

  function Without(m: map<string, Transaction>, id: string): (r: map<string, Transaction>)
    requires id in m
    ensures r.Keys == m.Keys - {id} && |r| == |m| - 1
    ensures forall k :: k in r ==> r[k] == m[k]
  {
    var r := m - {id};
    assert m == r[id := m[id]];
    r
  }

  /** A copy of the ledger with the kept transactions applied again: none of them fails. */
  method ApplyKept(l: MatureLedger, kept: seq<Transaction>, ghost after: Ledger) returns (work: MatureLedger)
    requires l.Valid() && LedgerInvariant.Coherent(l.env, l.model) && l.env.AddressesSound()
    requires Applied(l.env, l.model, kept, after)
    modifies l`stakes
    ensures l.Valid() && l.model == old(l.model)
    ensures fresh(work) && fresh(work.assets) && fresh(work.coinbases) && work.Valid() && work.env == l.env
    ensures work.model == after
  {
    hide LedgerInvariant.Coherent, MatureLedger.Core, ApplyTransaction, ApplyAll, Applied;
    var env := l.env;
    work := l.Clone();
    AppliedNone(env, l.model, kept, after);
    for i := 0 to |kept|
      invariant fresh(work) && fresh(work.assets) && fresh(work.coinbases) && work.Valid() && work.env == env
      invariant l.Valid() && l.model == old(l.model)
      invariant Applied(env, l.model, kept[..i], work.model)
    {
      AppliedCoherent(env, l.model, kept[..i], work.model);
      AppliedNext(env, l.model, kept, after, i, work.model);
      var ok := TryApply(work, kept[i]);
    }
    assert kept[..|kept|] == kept;
    SameResult(env, l.model, kept, after, work.model);
  }

  lemma AppliedNone(env: Env, l: Ledger, txs: seq<Transaction>, after: Ledger)
    ensures Applied(env, l, txs[..0], l)
  {
    assert txs[..0] == [];
  }

  lemma SameResult(env: Env, l: Ledger, txs: seq<Transaction>, x: Ledger, y: Ledger)
    requires Applied(env, l, txs, x) && Applied(env, l, txs, y)
    ensures x == y
  {
    hide ApplyAll;
  }

  lemma AppliedNext(env: Env, l: Ledger, txs: seq<Transaction>, after: Ledger, i: nat, mid: Ledger)
    requires Applied(env, l, txs, after) && i < |txs| && Applied(env, l, txs[..i], mid)
    ensures !txs[i].coinbase && ApplyTransaction(env, mid, txs[i], mid.height).Some?
    ensures Applied(env, l, txs[..i + 1], ApplyTransaction(env, mid, txs[i], mid.height).value)
  {
    hide ApplyTransaction;
    ApplyAllKeepsHeight(env, l, txs[..i], l.height);
    PrefixDecides(env, l, txs, i + 1, l.height);
    assert txs[..i + 1][..i] == txs[..i];
  }

  /** `tx` does not apply behind the first `i` of `all`. */
  ghost predicate RefusedAt(env: Env, l: Ledger, all: seq<Transaction>, i: nat, tx: Transaction) {
    && i <= |all| && ApplyAll(env, l, all[..i], l.height).Some?
    && ApplyTransaction(env, ApplyAll(env, l, all[..i], l.height).value, tx, l.height).None?
  }

  /** `tx` was tried behind the first `start` or more of `all`, and refused. */
  ghost predicate Refused(env: Env, l: Ledger, all: seq<Transaction>, start: nat, tx: Transaction) {
    exists i :: start <= i <= |all| && RefusedAt(env, l, all, i, tx)
  }

  lemma RefusedNow(env: Env, l: Ledger, all: seq<Transaction>, start: nat, now: Ledger, tx: Transaction)
    requires Applied(env, l, all, now) && start <= |all| && ApplyTransaction(env, now, tx, now.height).None?
    ensures Refused(env, l, all, start, tx)
  {
    hide ApplyTransaction;
    ApplyAllKeepsHeight(env, l, all, l.height);
    assert all[..|all|] == all;
    assert RefusedAt(env, l, all, |all|, tx);
  }

  lemma RefusedStill(env: Env, l: Ledger, all: seq<Transaction>, more: seq<Transaction>, start: nat, tx: Transaction)
    requires Refused(env, l, all, start, tx) && all <= more
    ensures Refused(env, l, more, start, tx)
  {
    hide ApplyAll, ApplyTransaction;
    var i :| start <= i <= |all| && RefusedAt(env, l, all, i, tx);
    assert more[..i] == all[..i];
    assert RefusedAt(env, l, more, i, tx);
  }

  /** Which orphans are back: `all` is `kept` followed by orphans, and every orphan is in it, has an id that is in
      `kept`, or was refused. */
  ghost predicate Retried(env: Env, l: Ledger, orphans: map<string, Transaction>, kept: seq<Transaction>,
                          all: seq<Transaction>, refused: set<string>) {
    && kept <= all
    && (forall k :: |kept| <= k < |all| ==> all[k].id in orphans && all[k] == orphans[all[k].id])
    && (forall id :: id in orphans ==> (id in refused <==> !Holds(all, id)))
    && (forall id :: id in refused ==> id in orphans && Refused(env, l, all, |kept|, orphans[id]))
  }

  lemma NothingTried(env: Env, l: Ledger, kept: seq<Transaction>)
    ensures Retried(env, l, map[], kept, kept, {})
  {
  }

  lemma TriedRepeated(env: Env, l: Ledger, orphans: map<string, Transaction>, kept: seq<Transaction>, all: seq<Transaction>,
                      refused: set<string>, id: string, tx: Transaction)
    requires Retried(env, l, orphans, kept, all, refused) && id !in orphans && Holds(all, id)
    ensures Retried(env, l, orphans[id := tx], kept, all, refused)
  {
    hide Refused, Holds;
  }

  lemma TriedRefused(env: Env, l: Ledger, orphans: map<string, Transaction>, kept: seq<Transaction>, all: seq<Transaction>,
                     refused: set<string>, id: string, tx: Transaction)
    requires Retried(env, l, orphans, kept, all, refused) && id !in orphans && !Holds(all, id)
    requires Refused(env, l, all, |kept|, tx)
    ensures Retried(env, l, orphans[id := tx], kept, all, refused + {id})
  {
    hide Refused, Holds;
  }

  lemma TriedRequeued(env: Env, l: Ledger, orphans: map<string, Transaction>, kept: seq<Transaction>, all: seq<Transaction>,
                      refused: set<string>, id: string, tx: Transaction)
    requires Retried(env, l, orphans, kept, all, refused) && id !in orphans && tx.id == id
    ensures Retried(env, l, orphans[id := tx], kept, all + [tx], refused)
  {
    HoldsAppend(all, tx);
    hide Refused, Holds;
    forall k | k in refused
      ensures Refused(env, l, all + [tx], |kept|, orphans[k])
    {
      RefusedStill(env, l, all, all + [tx], |kept|, orphans[k]);
    }
  }

  datatype Attempt = Requeued | Repeated | Rejected

  /** One orphan behind what is there already. */
  method TryOrphan(work: MatureLedger, all: seq<Transaction>, tx: Transaction, ghost l: Ledger, ghost kept: seq<Transaction>,
                   ghost tried: map<string, Transaction>, ghost refused: set<string>)
      returns (outcome: Attempt)
    requires work.Valid() && LedgerInvariant.Coherent(work.env, l) && work.env.AddressesSound() && !tx.coinbase
    requires Applied(work.env, l, all, work.model) && DistinctNames(all)
    requires Retried(work.env, l, tried, kept, all, refused) && tx.id !in tried
    modifies work, work.assets, work.coinbases
    ensures work.Valid() && fresh({work.assets, work.coinbases} - old({work.assets, work.coinbases}))
    ensures
      var more := if outcome == Requeued then all + [tx] else all;
      && Applied(work.env, l, more, work.model) && DistinctNames(more)
      && Retried(work.env, l, tried[tx.id := tx], kept, more, if outcome == Rejected then refused + {tx.id} else refused)
  {
    hide LedgerInvariant.Coherent, MatureLedger.Core, ApplyTransaction, Applied, Retried, Refused, Holds, DistinctNames,
         Env.AddressesSound;
    var repeated := HoldsId(all, tx.id);
    if repeated {
      TriedRepeated(work.env, l, tried, kept, all, refused, tx.id, tx);
      return Repeated;
    }
    AppliedCoherent(work.env, l, all, work.model);
    ghost var before := work.model;
    var ok := TryApply(work, tx);
    if ok {
      AppliedMore(work.env, l, all, before, tx);
      NewName(all, tx);
      TriedRequeued(work.env, l, tried, kept, all, refused, tx.id, tx);
      return Requeued;
    }
    BehindKept(work.env, l, tried, kept, all, refused);
    RefusedNow(work.env, l, all, |kept|, before, tx);
    TriedRefused(work.env, l, tried, kept, all, refused, tx.id, tx);
    return Rejected;
  }

  lemma NewName(txs: seq<Transaction>, tx: Transaction)
    requires DistinctNames(txs) && !Holds(txs, tx.id)
    ensures DistinctNames(txs + [tx])
  {
  }

  lemma BehindKept(env: Env, l: Ledger, orphans: map<string, Transaction>, kept: seq<Transaction>, all: seq<Transaction>,
                   refused: set<string>)
    requires Retried(env, l, orphans, kept, all, refused)
    ensures |kept| <= |all|
  {
  }

  lemma NoneConfirmed(all: seq<Transaction>, kept: seq<Transaction>, orphans: map<string, Transaction>, confirmed: set<string>,
                      env: Env, l: Ledger, refused: set<string>)
    requires Retried(env, l, orphans, kept, all, refused) && orphans.Keys !! confirmed
    requires forall i :: 0 <= i < |kept| ==> kept[i].id !in confirmed
    ensures forall i :: 0 <= i < |all| ==> all[i].id !in confirmed
  {
    hide Refused, Holds;
    forall i | 0 <= i < |all|
      ensures all[i].id !in confirmed
    {
      if i < |kept| {
        assert all[i] == kept[i];
      }
    }
  }

  lemma TakenOut(orphans: map<string, Transaction>, todo: set<string>, id: string)
    requires id in todo && todo <= orphans.Keys && Filed(orphans)
    ensures orphans[id].id == id && !orphans[id].coinbase
    ensures |todo - {id}| == |todo| - 1 && id !in orphans - todo
    ensures (orphans - todo)[id := orphans[id]] == orphans - (todo - {id})
  {
  }

  /** Tries the orphans in whatever order they come: each one is put behind what is there already, is a repeat of
      a pending transaction, or is refused by the ledger at that point. */
  method RequeueOrphans(work: MatureLedger, orphans: map<string, Transaction>, kept: seq<Transaction>,
                        confirmed: set<string>, ghost l: Ledger)
      returns (all: seq<Transaction>, requeued: nat, invalid: nat, duplicate: nat, ghost refused: set<string>)
    requires work.Valid() && LedgerInvariant.Coherent(work.env, l) && work.env.AddressesSound()
    requires Filed(orphans) && orphans.Keys !! confirmed
    requires Applied(work.env, l, kept, work.model) && DistinctNames(kept)
    requires forall i :: 0 <= i < |kept| ==> kept[i].id !in confirmed
    modifies work, work.assets, work.coinbases
    ensures work.Valid() && Applied(work.env, l, all, work.model) && DistinctNames(all)
    ensures forall i :: 0 <= i < |all| ==> all[i].id !in confirmed
    ensures |all| == |kept| + requeued && requeued + invalid + duplicate == |orphans|
    ensures Retried(work.env, l, orphans, kept, all, refused) && invalid == |refused|
  {
    hide *;
    all, requeued, invalid, duplicate, refused := kept, 0, 0, 0, {};
    var todo := orphans.Keys;
    assert orphans - todo == map[];
    NothingTried(work.env, l, kept);
    while todo != {}
      invariant todo <= orphans.Keys && work.Valid()
      invariant fresh({work.assets, work.coinbases} - old({work.assets, work.coinbases}))
      invariant Applied(work.env, l, all, work.model) && DistinctNames(all)
      invariant |all| == |kept| + requeued && requeued + invalid + duplicate + |todo| == |orphans|
      invariant refused !! todo && invalid == |refused|
      invariant Retried(work.env, l, orphans - todo, kept, all, refused)
      decreases |todo|
    {
      var id :| id in todo;
      var tx := orphans[id];
      TakenOut(orphans, todo, id);
      var outcome := TryOrphan(work, all, tx, l, kept, orphans - todo, refused);
      todo := todo - {id};
      match outcome
      case Requeued => all, requeued := all + [tx], requeued + 1;
      case Repeated => duplicate := duplicate + 1;
      case Rejected => invalid, refused := invalid + 1, refused + {id};
    }
    assert orphans - todo == orphans;
    NoneConfirmed(all, kept, orphans, confirmed, work.env, l, refused);
  }

  lemma {:induction false} AllSelectable(env: Env, l: Ledger, txs: seq<Transaction>, after: Ledger)
    requires Applied(env, l, txs, after)
    ensures Selection.AllSelectable(env, txs)
  {
    hide ApplyTransaction, Selection.Selectable;
    if txs != [] {
      var n := |txs| - 1;
      var before := ApplyAll(env, l, txs[..n], l.height).value;
      ApplyAllKeepsHeight(env, l, txs[..n], l.height);
      AllSelectable(env, l, txs[..n], before);
      AppliedIsSelectable(env, before, txs[n]);
      assert forall i :: 0 <= i < n ==> txs[i] == txs[..n][i];
    }
  }

  ghost predicate KnowsNonces(l: Ledger, txs: seq<Transaction>, nextNonce: map<Address, u64>) {
    && (forall i :: 0 <= i < |txs| && l.nonces[txs[i].sender] < MAX_U64 ==> txs[i].sender in nextNonce)
    && (forall a :: a in nextNonce ==> nextNonce[a] == l.nonces[a] + 1)
  }

  method NextNoncesOf(l: MatureLedger, txs: seq<Transaction>) returns (nextNonce: map<Address, u64>)
    requires l.Valid()
    ensures KnowsNonces(l.model, txs, nextNonce)
  {
    hide MatureLedger.Core;
    nextNonce := map[];
    for i := 0 to |txs|
      invariant KnowsNonces(l.model, txs[..i], nextNonce)
    {
      assert txs[..i + 1] == txs[..i] + [txs[i]];
      var a := txs[i].sender;
      if a in nextNonce {
        continue;
      }
      var acct := l.AccountIn(a);
      if acct.nonce == MAX_U64 {
        continue;
      }
      nextNonce := nextNonce[a := acct.nonce + 1];
    }
    assert txs[..|txs|] == txs;
  }

  /** Nobody whose nonce is used up has an applied transaction, so every sender's next nonce is known. */
  lemma KnownIsComplete(env: Env, l: Ledger, txs: seq<Transaction>, after: Ledger, nextNonce: map<Address, u64>)
    requires Applied(env, l, txs, after) && KnowsNonces(l, txs, nextNonce)
    ensures NextNonces(env, l, txs, nextNonce)
  {
    hide Applied;
    forall a | Selection.Candidates(env, txs, a) != []
      ensures a in nextNonce && nextNonce[a] == l.nonces[a] + 1
    {
      SenderIsKnown(env, l, txs, after, nextNonce, a);
    }
  }

  lemma SenderIsKnown(env: Env, l: Ledger, txs: seq<Transaction>, after: Ledger, nextNonce: map<Address, u64>, a: Address)
    requires Applied(env, l, txs, after) && KnowsNonces(l, txs, nextNonce) && Selection.Candidates(env, txs, a) != []
    ensures a in nextNonce && nextNonce[a] == l.nonces[a] + 1
  {
    ChainHistory.ApplyAllCounts(env, l, txs, l.height, a);
    CandidateNonces(env, txs, a);
    Selection.CandidatesListed(env, txs, a, 0);
    hide ApplyAll, Selection.Candidates, ChainHistory.SentBy, Selection.CandidateOf;
    var c := Selection.Candidates(env, txs, a)[0];
    assert c.tx.nonce == l.nonces[a] + 1;
    var i :| 0 <= i < |txs| && txs[i] == c.tx;
  }

  /** Loading and saving drop later entries with an id already seen. */
  function Unique(txs: seq<Transaction>): seq<Transaction> {
    if txs == [] then []
    else
      var n := |txs| - 1;
      var before := Unique(txs[..n]);
      if txs[n].id != "" && Holds(before, txs[n].id) then before else before + [txs[n]]
  }

  lemma {:induction false} UniqueOfDistinct(txs: seq<Transaction>)
    requires DistinctNames(txs)
    ensures Unique(txs) == txs
  {
    if txs != [] {
      var n := |txs| - 1;
      UniqueOfDistinct(txs[..n]);
      assert txs == txs[..n] + [txs[n]];
    }
  }

  method UniqueTransactions(txs: seq<Transaction>) returns (out: seq<Transaction>)
    ensures out == Unique(txs)
  {
    hide Holds;
    out := [];
    var seen: set<string> := {};
    NothingHeld();
    for i := 0 to |txs|
      invariant out == Unique(txs[..i])
      invariant forall id :: id != "" ==> (id in seen <==> Holds(out, id))
    {
      assert txs[..i + 1][..i] == txs[..i];
      HoldsAppend(out, txs[i]);
      if |txs[i].id| == 0 {
        out := out + [txs[i]];
        continue;
      }
      if txs[i].id in seen {
        continue;
      }
      seen := seen + {txs[i].id};
      out := out + [txs[i]];
    }
    assert txs[..|txs|] == txs;
  }

  lemma NothingHeld()
    ensures forall id :: !Holds([], id)
  {
  }

  lemma HoldsAppend(txs: seq<Transaction>, tx: Transaction)
    ensures forall id :: Holds(txs + [tx], id) <==> Holds(txs, id) || tx.id == id
  {
    var more := txs + [tx];
    assert more[|txs|] == tx && forall i :: 0 <= i < |txs| ==> more[i] == txs[i];
  }

  datatype Recovered = Recovered(pool: seq<Transaction>, requeued: nat, invalid: nat, already: nat, duplicate: nat) {
    function Dropped(): nat {
      invalid + already + duplicate
    }
  }

  /** A pool that is ready to be mined on `l`: nothing confirmed, repeated or minted, and every sender's
      nonces run on from the ledger's. */
  ghost predicate PoolReady(l: Ledger, confirmed: set<string>, pool: seq<Transaction>) {
    && DistinctNames(pool)
    && (forall i :: 0 <= i < |pool| ==> pool[i].id !in confirmed && !pool[i].coinbase)
    && forall a :: ChainHistory.SentBy(pool, a) == ChainHistory.UpFrom(l.nonces[a], |ChainHistory.SentBy(pool, a)|)
  }

  /** Of the transactions that apply, the pool leaves out only those behind one the gas limit excludes. */
  ghost predicate OnlyGasDrops(env: Env, all: seq<Transaction>, picks: seq<Selection.Candidate>, maxGas: u64) {
    forall a ::
      var listed, picked := Selection.Candidates(env, all, a), Selection.PicksOf(picks, a);
      && picked <= listed
      && (picked != listed ==> maxGas > 0 && Selection.Gas(picks) + listed[|picked|].gas > maxGas)
  }

  lemma SelectionRecovers(env: Env, l: Ledger, all: seq<Transaction>, after: Ledger, nextNonce: map<Address, u64>,
                          queues: Selection.Queues, maxGas: u64, picks: seq<Selection.Candidate>, confirmed: set<string>)
    requires Applied(env, l, all, after) && NextNonces(env, l, all, nextNonce)
    requires DistinctNames(all) && forall i :: 0 <= i < |all| ==> all[i].id !in confirmed
    requires Selection.QueuesFor(env, all, nextNonce, queues) && Selection.Greedy(queues, maxGas, picks)
    requires Selection.Exhausted(Selection.After(queues, picks), Selection.Gas(picks), maxGas)
    ensures PoolReady(l, confirmed, Selection.Txs(picks)) && OnlyGasDrops(env, all, picks, maxGas)
    ensures |picks| <= |all|
  {
    hide Applied, NextNonces, DistinctNames, Selection.QueuesFor, Selection.Greedy, Selection.Exhausted, Selection.Candidates,
         Selection.PicksOf, ChainHistory.SentBy, ChainHistory.UpFrom;
    PoolIsClean(env, all, nextNonce, queues, maxGas, picks, confirmed);
    forall a
      ensures
        var sent := ChainHistory.SentBy(Selection.Txs(picks), a);
        sent == ChainHistory.UpFrom(l.nonces[a], |sent|)
    {
      PoolNonces(env, l, all, nextNonce, queues, maxGas, picks, a);
    }
    forall a
      ensures
        var listed, picked := Selection.Candidates(env, all, a), Selection.PicksOf(picks, a);
        && picked <= listed
        && (picked != listed ==> maxGas > 0 && Selection.Gas(picks) + listed[|picked|].gas > maxGas)
    {
      DroppedOnlyForGas(env, l, all, after, nextNonce, queues, maxGas, picks, a);
    }
    Selection.SelectedFromInput(env, all, nextNonce, queues, maxGas, picks);
    NoMoreThan(Selection.Txs(picks), all);
  }

  lemma NoMoreThan(s: seq<Transaction>, t: seq<Transaction>)
    requires multiset(s) <= multiset(t)
    ensures |s| <= |t|
  {
    assert multiset(t) == multiset(s) + (multiset(t) - multiset(s));
    assert |multiset(s)| == |s| && |multiset(t)| == |t|;
  }

  lemma RestIs(orphans: map<string, Transaction>, confirmed: set<string>, rest: map<string, Transaction>)
    requires rest.Keys == orphans.Keys - confirmed && forall id :: id in rest ==> rest[id] == orphans[id]
    ensures rest == orphans - confirmed && rest.Keys !! confirmed
  {
  }

  /** What was pending, revalidated, and the orphans behind it. */
  method Collected(l: MatureLedger, confirmed: set<string>, orphans: map<string, Transaction>, pending: seq<Transaction>)
      returns (all: seq<Transaction>, dropped: Recovered, ghost after: Ledger, ghost refused: set<string>)
    requires l.Valid() && LedgerInvariant.Coherent(l.env, l.model) && l.env.AddressesSound() && Filed(orphans)
    modifies l`stakes
    ensures l.Valid() && l.model == old(l.model)
    ensures |all| + dropped.Dropped() == |orphans| + |pending|
    ensures Applied(l.env, l.model, all, after) && DistinctNames(all) && forall i :: 0 <= i < |all| ==> all[i].id !in confirmed
    ensures Retried(l.env, l.model, orphans - confirmed, Revalidate(l.env, l.model, confirmed, StableSort(pending)).kept,
                    all, refused)
  {
    hide *;
    var rest, already := DropConfirmed(orphans, confirmed);
    var kept, invalid, alreadyPending, duplicate, keptAfter := RevalidateTransactions(l, pending, confirmed);
    RevalidationIsSound(l.env, l.model, confirmed, StableSort(pending));
    SortKeeps(pending);
    var work := ApplyKept(l, kept, keptAfter);
    RestIs(orphans, confirmed, rest);
    var requeued, failed, repeated;
    all, requeued, failed, repeated, refused := RequeueOrphans(work, rest, kept, confirmed, l.model);
    after := work.model;
    dropped := Recovered([], requeued, invalid + failed, already + alreadyPending, duplicate + repeated);
    AllDropped(dropped);
  }

  lemma AllDropped(r: Recovered)
    ensures r.Dropped() == r.invalid + r.already + r.duplicate
  {
  }

  /** Rebuilds the pool on the new chain's ledger from what was pending and what was disconnected. For
      every orphan order it never fails, every distinct orphan and every pending transaction is
      accounted for exactly once, and what is saved is ready to be mined. */
  method RecoverPool(l: MatureLedger, confirmed: set<string>, orphans: map<string, Transaction>, pending: seq<Transaction>)
      returns (ok: bool, r: Recovered, ghost all: seq<Transaction>, ghost after: Ledger,
               ghost picks: seq<Selection.Candidate>, ghost refused: set<string>)
    requires l.Valid() && LedgerInvariant.Coherent(l.env, l.model) && l.env.AddressesSound() && Filed(orphans)
    modifies l`stakes
    ensures l.Valid() && l.model == old(l.model) && ok
    ensures |r.pool| + r.Dropped() == |orphans| + |pending|
    ensures PoolReady(l.model, confirmed, r.pool)
    ensures Applied(l.env, l.model, all, after) && DistinctNames(all) && r.pool == Selection.Txs(picks)
    ensures OnlyGasDrops(l.env, all, picks, l.env.profile.maxGasPerBlock)
    ensures Retried(l.env, l.model, orphans - confirmed, Revalidate(l.env, l.model, confirmed, StableSort(pending)).kept,
                    all, refused)
  {
    hide LedgerInvariant.Coherent, MatureLedger.Core, Applied, DistinctNames, Revalidate, StableSort, PoolReady, OnlyGasDrops,
         Filed, NextNonces, KnowsNonces, Selection.AllSelectable, Selection.QueuesFor, Selection.Greedy, Selection.Exhausted,
         Unique, Readmissible, Retried, Env.AddressesSound;
    var env := l.env;
    var full, dropped;
    full, dropped, after, refused := Collected(l, confirmed, orphans, pending);
    all := full;
    var nextNonce := NextNoncesOf(l, full);
    AllSelectable(env, l.model, full, after);
    KnownIsComplete(env, l.model, full, after, nextNonce);
    var selected;
    ghost var queues;
    ok, selected, queues, picks := Selection.SelectWithNonces(env, full, env.profile.maxGasPerBlock, nextNonce);
    SelectionRecovers(env, l.model, full, after, nextNonce, queues, env.profile.maxGasPerBlock, picks, confirmed);
    var saved := UniqueTransactions(selected);
    ReadyIsUnique(l.model, confirmed, selected);
    r := dropped.(pool := saved, invalid := dropped.invalid + (|full| - |selected|));
  }

  lemma ReadyIsUnique(l: Ledger, confirmed: set<string>, pool: seq<Transaction>)
    requires PoolReady(l, confirmed, pool)
    ensures Unique(pool) == pool
  {
    UniqueOfDistinct(pool);
  }

  /** The pool is a selection, under the block's gas limit alone, from transactions that apply in order on
      the new chain's ledger. */
  ghost predicate MadeFrom(env: Env, l: Ledger, all: seq<Transaction>, after: Ledger, picks: seq<Selection.Candidate>,
                           pool: seq<Transaction>) {
    && Applied(env, l, all, after) && DistinctNames(all) && pool == Selection.Txs(picks)
    && OnlyGasDrops(env, all, picks, env.profile.maxGasPerBlock)
  }

  /** The disconnected transactions that are no coinbases, one for each id. */
  ghost predicate OrphansOf(orphans: map<string, Transaction>, lost: seq<Transaction>) {
    && Filed(orphans) && (forall id :: id in orphans <==> Mentions(lost, id))
    && (forall id :: id in orphans ==> orphans[id] in lost)
  }

  /** How the pool came about: pending transactions first, as revalidation keeps them, then every disconnected
      transaction that is not confirmed on the new chain, unless it repeats one or was tried and refused. */
  ghost predicate Rebuilt(rules: Rules, before: seq<Block>, blocks: seq<Block>, ancestor: nat, limit: nat,
                          pending: seq<Transaction>, confirmed: set<string>, orphans: map<string, Transaction>,
                          all: seq<Transaction>, after: Ledger, picks: seq<Selection.Candidate>, refused: set<string>,
                          pool: seq<Transaction>) {
    && ForkChoice.Reorged(rules, before, blocks, ancestor, limit)
    && (forall id :: id in confirmed <==> Mentions(AllTxs(blocks), id))
    && OrphansOf(orphans, AllTxs(before[ancestor + 1..]))
    && Replay(rules.env, blocks).Some?
    && var l := Replay(rules.env, blocks).value;
       && MadeFrom(rules.env, l, all, after, picks, pool)
       && Retried(rules.env, l, orphans - confirmed, Revalidate(rules.env, l, confirmed, StableSort(pending)).kept, all, refused)
  }

  /** The whole of a reorganisation: fork choice, the replaced chain, and the pool rebuilt on its ledger.
      Every distinct id among the disconnected transactions, and every pending transaction, is in the new
      pool or counted as dropped. */
  method Reorganise(node: Nodes.Blockchain, peer: ForkChoice.Peer, asked: nat, yes: bool, pending: seq<Transaction>)
      returns (applied: bool, r: Recovered, orphaned: nat)
    requires node.Valid()
    modifies node
    ensures node.Valid()
    ensures !applied ==> node.blocks == old(node.blocks)
    ensures applied ==>
              exists ancestor, confirmed, lost: set<string> ::
                && ForkChoice.Reorged(node.rules, old(node.blocks), node.blocks, ancestor,
                                      ForkChoice.DepthLimit(node.rules.env.profile, asked))
                && (forall id :: id in confirmed <==> Mentions(AllTxs(node.blocks), id))
                && (forall id :: id in lost <==> Mentions(AllTxs(old(node.blocks)[ancestor + 1..]), id))
                && orphaned == |lost|
                && PoolReady(Replay(node.rules.env, node.blocks).value, confirmed, r.pool)
    ensures applied ==>
              exists all, after, picks ::
                MadeFrom(node.rules.env, Replay(node.rules.env, node.blocks).value, all, after, picks, r.pool)
    ensures applied ==> |r.pool| + r.Dropped() == orphaned + |pending|
    ensures applied ==>
              exists ancestor, confirmed, orphans, all, after, picks, refused ::
                Rebuilt(node.rules, old(node.blocks), node.blocks, ancestor, ForkChoice.DepthLimit(node.rules.env.profile, asked),
                        pending, confirmed, orphans, all, after, picks, refused, r.pool)
  {
    hide StoredChain, ValidChain, ForkChoice.Work, Retried, Revalidate, StableSort, ForkChoice.WorthReorg, ForkChoice.Storable, ForkChoice.DepthLimit, Mentions,
         PoolReady, Replay, Nodes.Ready, MatureLedger.Core, LedgerInvariant.Coherent, Applied, DistinctNames, OnlyGasDrops,
         Snapshots.SnapshotOf, Rising, Filed;
    r, orphaned := Recovered([], 0, 0, 0, 0), 0;
    var disconnected;
    ghost var before, limit := node.blocks, ForkChoice.DepthLimit(node.rules.env.profile, asked);
    applied, disconnected := ForkChoice.ApplyReorg(node, peer, asked, yes);
    if !applied {
      return;
    }
    ghost var ancestor: nat :| ForkChoice.Reorged(node.rules, before, node.blocks, ancestor, limit) && disconnected == before[ancestor + 1..];
    var l := ReplayNode(node);
    var confirmed := ConfirmedIds(node.blocks);
    var orphans := CollectOrphans(disconnected);
    orphaned := |orphans|;
    ghost var all, after, picks, refused;
    var ok;
    ok, r, all, after, picks, refused := RecoverPool(l, confirmed, orphans, pending);
    ghost var lost := orphans.Keys;
    assert |lost| == |orphans|;
    assert MadeFrom(node.rules.env, Replay(node.rules.env, node.blocks).value, all, after, picks, r.pool);
    assert Rebuilt(node.rules, before, node.blocks, ancestor, limit, pending, confirmed, orphans, all, after, picks, refused, r.pool);
  }

  method ReplayNode(node: Nodes.Blockchain) returns (l: MatureLedger)
    requires node.Valid()
    ensures fresh(l) && fresh(l.assets) && fresh(l.coinbases) && l.Valid() && l.env == node.rules.env
    ensures Some(l.model) == Replay(node.rules.env, node.blocks)
    ensures LedgerInvariant.Coherent(l.env, l.model) && l.env.AddressesSound()
  {
    hide StoredChain, Replay, MatureLedger.Core, LedgerInvariant.Coherent, Snapshots.SnapshotOf, Rising, Rules.WellFormed,
         Nodes.Ready;
    Nodes.ReadyParts(node.rules);
    Validation.StoredChainRises(node.rules, node.blocks);
    ChainHistory.ReplaySound(node.rules, node.blocks);
    var ok;
    ok, l := ReplayMature(node.rules.env, node.blocks);
  }
}
