/** Balance details of an address (ledger/maturity.go, staking/staking.go): computed from account and
    stake records plus pending transactions, whether these come from a replay or from storage. */
module Balances {
  import opened Arith
  import opened Types
  import opened Ledgers
  import opened Staking
  import Assets
  import LedgerInvariant
  import Snapshots

  datatype Details = Details(
    confirmed: nat,
    mature: nat,
    immature: nat,
    spendable: nat,
    pendingOutgoing: u64,
    pendingIncoming: u64,
    active: u64,
    unlocking: u64,
    released: u64,
    pendingStakeLock: u64)

  // ---------------------------------------------------------------- pending transactions

  function Outgoing(tx: Transaction, a: Address): nat {
    if tx.coinbase || tx.Kind() != Transfer then 0
    else
      (if Assets.IsNative(tx.EffectiveAssetId()) && tx.sender == a then tx.amount else 0)
        + (if tx.EffectiveFeePayer() == a then tx.fee else 0)
  }

  function Incoming(tx: Transaction, a: Address): nat {
    if !tx.coinbase && tx.Kind() == Transfer && Assets.IsNative(tx.EffectiveAssetId()) && tx.recipient == a
    then tx.amount else 0
  }

  function Locking(tx: Transaction, a: Address): nat {
    if tx.Kind() == StakeLock && tx.sender == a then tx.amount else 0
  }

  ghost function Sum(f: (Transaction, Address) -> nat, pending: seq<Transaction>, a: Address): nat {
    if pending == [] then 0
    else Sum(f, pending[..|pending| - 1], a) + f(pending[|pending| - 1], a)
  }

  lemma CapAdds(x: nat, n: u64)
    ensures AddCap(Cap(x), n) == Cap(x + n)
  {
  }

  lemma SumNext(f: (Transaction, Address) -> nat, pending: seq<Transaction>, i: nat, a: Address)
    requires i < |pending|
    ensures Sum(f, pending[..i + 1], a) == Sum(f, pending[..i], a) + f(pending[i], a)
  {
    assert pending[..i + 1][..i] == pending[..i];
  }

  lemma TransferParts(tx: Transaction, a: Address)
    ensures
      var counts, native := !tx.coinbase && tx.Kind() == Transfer, Assets.IsNative(tx.EffectiveAssetId());
      && Incoming(tx, a) == (if counts && native && tx.recipient == a then tx.amount else 0)
      && Outgoing(tx, a) == (if counts && native && tx.sender == a then tx.amount else 0)
                            + (if counts && tx.EffectiveFeePayer() == a then tx.fee else 0)
  {
    hide Assets.IsNative;
  }

  method PendingTransfers(pending: seq<Transaction>, a: Address) returns (outgoing: u64, incoming: u64)
    ensures outgoing == Cap(Sum(Outgoing, pending, a)) && incoming == Cap(Sum(Incoming, pending, a))
  {
    outgoing, incoming := Cap(0), Cap(0);
    assert Sum(Outgoing, pending[..0], a) == 0 && Sum(Incoming, pending[..0], a) == 0;
    hide *;
    for i := 0 to |pending|
      invariant outgoing == Cap(Sum(Outgoing, pending[..i], a))
      invariant incoming == Cap(Sum(Incoming, pending[..i], a))
    {
      SumNext(Outgoing, pending, i, a);
      SumNext(Incoming, pending, i, a);
      var tx := pending[i];
      TransferParts(tx, a);
      ghost var sent, received := Sum(Outgoing, pending[..i], a), Sum(Incoming, pending[..i], a);
      if !tx.coinbase && tx.Kind() == Transfer {
        if Assets.IsNative(tx.EffectiveAssetId()) {
          if tx.sender == a {
            CapAdds(sent, tx.amount);
            outgoing, sent := AddCap(outgoing, tx.amount), sent + tx.amount;
          }
          if tx.recipient == a {
            CapAdds(received, tx.amount);
            incoming := AddCap(incoming, tx.amount);
          }
        }
        if tx.EffectiveFeePayer() == a {
          CapAdds(sent, tx.fee);
          outgoing := AddCap(outgoing, tx.fee);
        }
      }
    }
    assert pending[..|pending|] == pending;
  }

  method PendingLocks(pending: seq<Transaction>, a: Address) returns (total: u64)
    ensures total == Cap(Sum(Locking, pending, a))
  {
    hide AddCap, Cap;
    total := Cap(0);
    for i := 0 to |pending|
      invariant total == Cap(Sum(Locking, pending[..i], a))
    {
      assert pending[..i + 1][..i] == pending[..i];
      var tx := pending[i];
      if tx.Kind() == StakeLock && tx.sender == a {
        CapAdds(Sum(Locking, pending[..i], a), tx.amount);
        total := AddCap(total, tx.amount);
      }
    }
    assert pending[..|pending|] == pending;
  }

  // ---------------------------------------------------------------- details

  /** What may be spent is the mature balance less every locked, locking and leaving coin, and the
      saturating sums of the implementation never distort it. */
  ghost function DetailsFrom(confirmed: nat, mature: nat, records: Records, a: Address, pending: seq<Transaction>): Details {
    var busy := Locked(records)[a] + Sum(Locking, pending, a) + Sum(Outgoing, pending, a);
    Details(
      confirmed, mature,
      if confirmed > mature then confirmed - mature else 0,
      if mature > busy then mature - busy else 0,
      Cap(Sum(Outgoing, pending, a)),
      Cap(Sum(Incoming, pending, a)),
      Cap(Tally(records, Active)[a]),
      Cap(Tally(records, Unlocking)[a]),
      Cap(Tally(records, Released)[a]),
      Cap(Sum(Locking, pending, a)))
  }

  ghost function DetailsOf(l: Ledger, a: Address, pending: seq<Transaction>): Details {
    DetailsFrom(l.confirmed[a], l.mature[a], l.stakes, a, pending)
  }

  lemma SaturationIsHarmless(w: nat, x: nat, y: nat, z: nat, mature: u64)
    ensures
      var locked := AddCap(AddCap(Cap(w), Cap(x)), AddCap(Cap(y), Cap(z)));
      var busy := w + x + y + z;
      (if mature > locked then mature - locked else 0) == (if mature > busy then mature - busy else 0)
  {
  }

  method BalanceDetailsFromState(a: Address, confirmed: u64, mature: u64, stakes: set<Stake>,
                                 pending: seq<Transaction>, height: u64, ghost records: Records) returns (d: Details)
    requires Snapshots.DistinctStakes(stakes) && Snapshots.StakesFrom(stakes, records)
    ensures d == DetailsFrom(confirmed, mature, Refresh(records, height), a, pending)
  {
    hide Refresh, AddCap, Cap, Outgoing, Incoming, Locking, Sum;
    var loaded := Snapshots.LoadStakes(stakes);
    SameRecords(stakes, records, loaded);
    hide Snapshots.StakesFrom, Snapshots.DistinctStakes;
    var outgoing, incoming := PendingTransfers(pending, a);
    var current := RefreshReleased(loaded, height);
    var active, unlocking, released := AddressSummary(current, a);
    var locking := PendingLocks(pending, a);
    var locked := AddCap(AddCap(active, unlocking), AddCap(locking, outgoing));
    SaturationIsHarmless(Tally(current, Active)[a], Tally(current, Unlocking)[a],
                         Sum(Locking, pending, a), Sum(Outgoing, pending, a), mature);
    d := Details(
      confirmed, mature,
      if confirmed > mature then confirmed - mature else 0,
      if mature > locked then mature - locked else 0,
      outgoing, incoming, active, unlocking, released, locking);
  }

  lemma SameRecords(stakes: set<Stake>, x: Records, y: Records)
    requires Snapshots.StakesFrom(stakes, x) && Snapshots.StakesFrom(stakes, y)
    ensures x == y
  {
    forall id | id in x
      ensures id in y && x[id] == y[id]
    {
      var r :| r in stakes && r.id == id;
    }
    forall id | id in y
      ensures id in x
    {
      var r :| r in stakes && r.id == id;
    }
  }

  // ---------------------------------------------------------------- the owner index

  function OwnedBy(records: Records, a: Address): Records {
    map id | id in records && records[id].owner == a :: records[id]
  }

  lemma OwnedWithout(records: Records, id: StakeId, a: Address)
    requires id in records
    ensures records[id].owner == a ==> id in OwnedBy(records, a) && OwnedBy(records, a)[id] == records[id]
    ensures records[id].owner == a ==> OwnedBy(records, a) - {id} == OwnedBy(records - {id}, a)
    ensures records[id].owner != a ==> OwnedBy(records, a) == OwnedBy(records - {id}, a)
  {
  }

  lemma ShareOf(r: Stake, status: StakeStatus, a: Address)
    ensures r.owner != a ==> Share(r, status)[a] == 0
  {
  }

  /** An owner's totals need only that owner's records. */
  lemma {:induction false} OwnersTally(records: Records, status: StakeStatus, a: Address)
    ensures Tally(OwnedBy(records, a), status)[a] == Tally(records, status)[a]
  {
    if records == map[] {
      assert OwnedBy(records, a) == records;
    } else {
      hide Tally, OwnedBy, Share;
      var id :| id in records;
      OwnersTally(records - {id}, status, a);
      TallyPick(records, status, id);
      OwnedWithout(records, id, a);
      ShareOf(records[id], status, a);
      if records[id].owner == a {
        TallyPick(OwnedBy(records, a), status, id);
      }
    }
  }

  lemma OwnersDetails(confirmed: nat, mature: nat, records: Records, a: Address, pending: seq<Transaction>)
    ensures DetailsFrom(confirmed, mature, OwnedBy(records, a), a, pending)
         == DetailsFrom(confirmed, mature, records, a, pending)
  {
    hide OwnedBy;
    OwnersTally(records, Active, a);
    OwnersTally(records, Unlocking, a);
    OwnersTally(records, Released, a);
  }

  lemma OwnersCurrent(records: Records, a: Address, height: u64)
    requires Current(records, height)
    ensures Refresh(OwnedBy(records, a), height) == OwnedBy(records, a)
  {
    assert forall id :: id in records ==> Refresh(records, height)[id] == records[id];
  }

  // ---------------------------------------------------------------- what the details say

  /** The confirmed balance is what is mature and what coinbases still owe the address, and of the mature part,
      with nothing pending, what is not spendable is staked. */
  lemma DetailsAddUp(env: Env, l: Ledger, a: Address)
    requires LedgerInvariant.Coherent(env, l)
    ensures
      var d := DetailsOf(l, a, []);
      && d.confirmed == d.mature + d.immature && d.immature == LedgerInvariant.Owed(l.pending)[a]
      && d.mature == d.spendable + d.active + d.unlocking
      && d.pendingOutgoing == d.pendingIncoming == d.pendingStakeLock == 0
  {
    hide Tally, LedgerInvariant.Owed;
    var locked := Tally(l.stakes, Active) + Tally(l.stakes, Unlocking);
    assert locked[a] <= l.mature[a] <= l.confirmed[a] <= MAX_U64;
  }

  lemma ShareOfStatus(r: Stake, status: StakeStatus)
    ensures forall a :: Share(r, status)[a] == if r.status == status && r.owner == a then r.amount else 0
  {
  }

  lemma LockMoves(params: StakingParams, records: Records, tx: Transaction, height: u64, a: Address, status: StakeStatus)
    requires ApplyLock(params, records, tx, height).Some?
    ensures Tally(ApplyLock(params, records, tx, height).value, status)[a]
         == Tally(records, status)[a] + (if status == Active && a == tx.sender then tx.amount else 0)
  {
    hide ActiveCount, Tally, Share;
    var id := if tx.stakeId == "" then tx.id else tx.stakeId;
    var after := ApplyLock(params, records, tx, height).value;
    assert records - {id} == records && after == records[id := after[id]];
    TallySet(records, status, id, after[id]);
    ShareOfStatus(after[id], status);
  }

  lemma UnlockMoves(params: StakingParams, records: Records, tx: Transaction, height: u64, a: Address, status: StakeStatus)
    requires ApplyUnlock(params, records, tx, height).Some?
    ensures
      var amount := if a == tx.sender then records[tx.stakeId].amount else 0;
      Tally(ApplyUnlock(params, records, tx, height).value, status)[a] + (if status == Active then amount else 0)
        == Tally(records, status)[a] + (if status == Unlocking then amount else 0)
  {
    hide Tally, Share;
    var id := tx.stakeId;
    var after := ApplyUnlock(params, records, tx, height).value;
    TallySet(records, status, id, after[id]);
    TallyPick(records, status, id);
    ShareOfStatus(after[id], status);
    ShareOfStatus(records[id], status);
  }

  lemma TallyAt(records: Records, status: StakeStatus, id: StakeId, a: Address)
    requires id in records
    ensures Tally(records, status)[a] == Tally(records - {id}, status)[a] + Share(records[id], status)[a]
  {
    hide Tally, Share;
    TallyPick(records, status, id);
  }

  lemma ReleaseOne(r: Stake, height: u64, a: Address)
    ensures
      var s := RefreshOne(r, height);
      && Share(s, Active)[a] == Share(r, Active)[a]
      && Share(s, Unlocking)[a] + Share(s, Released)[a] == Share(r, Unlocking)[a] + Share(r, Released)[a]
      && Share(s, Unlocking)[a] <= Share(r, Unlocking)[a]
  {
  }

  lemma RefreshWithout(records: Records, height: u64, id: StakeId)
    requires id in records
    ensures id in Refresh(records, height) && Refresh(records, height)[id] == RefreshOne(records[id], height)
    ensures Refresh(records, height) - {id} == Refresh(records - {id}, height)
  {
  }

  lemma {:induction false} ReleaseMoves(records: Records, height: u64, a: Address)
    ensures
      var after := Refresh(records, height);
      && Tally(after, Active)[a] == Tally(records, Active)[a]
      && Tally(after, Unlocking)[a] + Tally(after, Released)[a] == Tally(records, Unlocking)[a] + Tally(records, Released)[a]
      && Tally(after, Unlocking)[a] <= Tally(records, Unlocking)[a]
  {
    if records == map[] {
      assert Refresh(records, height) == records;
    } else {
      hide *;
      var id :| id in records;
      var after := Refresh(records, height);
      ReleaseMoves(records - {id}, height, a);
      RefreshWithout(records, height, id);
      ReleaseOne(records[id], height, a);
      TallyAt(records, Active, id, a);
      TallyAt(records, Unlocking, id, a);
      TallyAt(records, Released, id, a);
      TallyAt(after, Active, id, a);
      TallyAt(after, Unlocking, id, a);
      TallyAt(after, Released, id, a);
    }
  }

  /** Nothing saturates in the stakes of `a`. */
  ghost predicate Fit(records: Records, a: Address) {
    forall status :: Tally(records, status)[a] <= MAX_U64
  }

  /** A lock shows as active stake of its sender. */
  lemma LockShows(params: StakingParams, records: Records, tx: Transaction, height: u64, a: Address, confirmed: nat, mature: nat)
    requires ApplyLock(params, records, tx, height).Some?
    requires Fit(records, a) && Fit(ApplyLock(params, records, tx, height).value, a)
    ensures
      var d := DetailsFrom(confirmed, mature, records, a, []);
      var e := DetailsFrom(confirmed, mature, ApplyLock(params, records, tx, height).value, a, []);
      && e.active == d.active + (if a == tx.sender then tx.amount else 0)
      && e.unlocking == d.unlocking && e.released == d.released
  {
    hide ApplyLock, Tally, Sum;
    LockMoves(params, records, tx, height, a, Active);
    LockMoves(params, records, tx, height, a, Unlocking);
    LockMoves(params, records, tx, height, a, Released);
  }

  /** An unlock moves the amount from active to unlocking. */
  lemma UnlockShows(params: StakingParams, records: Records, tx: Transaction, height: u64, a: Address, confirmed: nat, mature: nat)
    requires ApplyUnlock(params, records, tx, height).Some?
    requires Fit(records, a) && Fit(ApplyUnlock(params, records, tx, height).value, a)
    ensures
      var d := DetailsFrom(confirmed, mature, records, a, []);
      var e := DetailsFrom(confirmed, mature, ApplyUnlock(params, records, tx, height).value, a, []);
      var amount := if a == tx.sender then records[tx.stakeId].amount else 0;
      && e.active + amount == d.active && e.unlocking == d.unlocking + amount && e.released == d.released
      && e.spendable == d.spendable
  {
    assert tx.stakeId in records;
    UnlockKeeps(params, records, tx, height);
    hide ApplyUnlock, Tally, Sum;
    UnlockMoves(params, records, tx, height, a, Active);
    UnlockMoves(params, records, tx, height, a, Unlocking);
    UnlockMoves(params, records, tx, height, a, Released);
  }

  /** The passing of height moves from unlocking to released what is due, and nothing else. */
  lemma ReleaseShows(records: Records, height: u64, a: Address, confirmed: nat, mature: nat)
    requires Fit(records, a) && Fit(Refresh(records, height), a)
    ensures
      var d := DetailsFrom(confirmed, mature, records, a, []);
      var e := DetailsFrom(confirmed, mature, Refresh(records, height), a, []);
      && e.active == d.active && e.unlocking <= d.unlocking && e.unlocking + e.released == d.unlocking + d.released
  {
    hide Refresh, Tally, Sum;
    ReleaseMoves(records, height, a);
  }
}
