/** Stake records (staking/staking.go): a record is Active, then Unlocking, then Released once
    its release height is reached. Records are refreshed lazily, on every query. */
module Staking {
  import opened Arith
  import opened Types

  datatype StakeStatus = Active | Unlocking | Released

  datatype Stake = Stake(
    id: StakeId,
    owner: Address,
    amount: u64,
    lockTx: string,
    lockHeight: u64,
    unlockTx: string,
    unlockHeight: u64,
    releaseHeight: u64,
    status: StakeStatus)

  type Records = map<StakeId, Stake>

  function RefreshOne(r: Stake, height: u64): Stake {
    if r.status == Unlocking && height >= r.releaseHeight then r.(status := Released) else r
  }

  function Refresh(records: Records, height: u64): Records {
    map id | id in records :: RefreshOne(records[id], height)
  }

  function ActiveCount(records: Records, a: Address): nat {
    |set id | id in records && records[id].owner == a && records[id].status == Active|
  }

  function ApplyLock(params: StakingParams, records: Records, tx: Transaction, height: u64): Option<Records> {
    var id := if tx.stakeId == "" then tx.id else tx.stakeId;
    if !params.enabled || tx.amount < params.minStakeAmount || id in records
       || (params.maxActivePerAddress > 0 && ActiveCount(records, tx.sender) >= params.maxActivePerAddress)
    then None
    else Some(records[id := Stake(id, tx.sender, tx.amount, tx.id, height, "", 0, 0, Active)])
  }

  function ApplyUnlock(params: StakingParams, records: Records, tx: Transaction, height: u64): Option<Records> {
    if !params.enabled || tx.stakeId !in records then None else
    var r := records[tx.stakeId];
    if r.owner != tx.sender || r.status != Active then None else
    var release :- Add(height, params.unbondingPeriod);
    Some(records[tx.stakeId :=
           r.(status := Unlocking, unlockTx := tx.id, unlockHeight := height, releaseHeight := release)])
  }

  // ---------------------------------------------------------------- totals per owner

  function Share(r: Stake, status: StakeStatus): multiset<Address> {
    if r.status == status then multiset{}[r.owner := r.amount] else multiset{}
  }

  /** Per address, the sum of its records in one status. */
  ghost function Tally(records: Records, status: StakeStatus): multiset<Address> {
    if records == map[] then multiset{}
    else
      var id :| id in records;
      Tally(records - {id}, status) + Share(records[id], status)
  }

  /** What an address may not spend: its active and unlocking stake. */
  ghost function Locked(records: Records): multiset<Address> {
    Tally(records, Active) + Tally(records, Unlocking)
  }

  lemma SumsCommute(x: multiset<Address>, y: multiset<Address>, z: multiset<Address>)
    ensures x + y + z == x + z + y
  {
  }

  lemma {:induction false} TallyPick(records: Records, status: StakeStatus, id: StakeId)
    requires id in records
    ensures Tally(records, status) == Tally(records - {id}, status) + Share(records[id], status)
  {
    var k :| k in records && Tally(records, status) == Tally(records - {k}, status) + Share(records[k], status);
    if k != id {
      var both := records - {id, k};
      assert records - {k} - {id} == both && records - {id} - {k} == both;
      TallyPick(records - {k}, status, id);
      TallyPick(records - {id}, status, k);
      SumsCommute(Tally(both, status), Share(records[id], status), Share(records[k], status));
    }
  }

  lemma TallySet(records: Records, status: StakeStatus, id: StakeId, r: Stake)
    ensures Tally(records[id := r], status) == Tally(records - {id}, status) + Share(r, status)
  {
    TallyPick(records[id := r], status, id);
    assert records[id := r] - {id} == records - {id};
  }

  /** Locking adds exactly the locked amount, to the sender only. */
  lemma LockAdds(params: StakingParams, records: Records, tx: Transaction, height: u64)
    requires ApplyLock(params, records, tx, height).Some?
    ensures Locked(ApplyLock(params, records, tx, height).value)
         == Locked(records) + multiset{}[tx.sender := tx.amount]
  {
    var id := if tx.stakeId == "" then tx.id else tx.stakeId;
    NewRecordAdds(records, id, Stake(id, tx.sender, tx.amount, tx.id, height, "", 0, 0, Active));
  }

  lemma NewRecordAdds(records: Records, id: StakeId, r: Stake)
    requires id !in records && r.status == Active
    ensures Locked(records[id := r]) == Locked(records) + multiset{}[r.owner := r.amount]
  {
    assert records - {id} == records;
    TallySet(records, Active, id, r);
    TallySet(records, Unlocking, id, r);
    SumsCommute(Tally(records, Active), Share(r, Active), Tally(records, Unlocking));
  }

  /** Unlocking moves a record between the two locked statuses, so the locked total stays. */
  lemma UnlockKeeps(params: StakingParams, records: Records, tx: Transaction, height: u64)
    requires ApplyUnlock(params, records, tx, height).Some?
    ensures Locked(ApplyUnlock(params, records, tx, height).value) == Locked(records)
  {
    var id := tx.stakeId;
    var after := ApplyUnlock(params, records, tx, height).value;
    TallySet(records, Active, id, after[id]);
    TallySet(records, Unlocking, id, after[id]);
    TallyPick(records, Active, id);
    TallyPick(records, Unlocking, id);
  }

  /** Time only ever releases stake. */
  lemma {:induction false} RefreshReleases(records: Records, height: u64)
    ensures Tally(Refresh(records, height), Active) == Tally(records, Active)
    ensures Tally(Refresh(records, height), Unlocking) <= Tally(records, Unlocking)
  {
    if records != map[] {
      var id :| id in records;
      var rest := records - {id};
      RefreshReleases(rest, height);
      assert Refresh(records, height) - {id} == Refresh(rest, height);
      TallyPick(records, Active, id);
      TallyPick(records, Unlocking, id);
      TallyPick(Refresh(records, height), Active, id);
      TallyPick(Refresh(records, height), Unlocking, id);
    } else {
      assert Refresh(records, height) == records;
    }
  }

  lemma RefreshTwice(records: Records, early: u64, late: u64)
    requires early <= late
    ensures Refresh(Refresh(records, early), late) == Refresh(records, late)
  {
  }

  /** A new lock is active, so refreshing right after it changes nothing. */
  lemma LockRefreshed(params: StakingParams, records: Records, tx: Transaction, height: u64, now: u64)
    requires Refresh(records, now) == records && ApplyLock(params, records, tx, height).Some?
    ensures Refresh(ApplyLock(params, records, tx, height).value, now) == ApplyLock(params, records, tx, height).value
  {
    hide ActiveCount;
    var after := ApplyLock(params, records, tx, height).value;
    forall id | id in after
      ensures RefreshOne(after[id], now) == after[id]
    {
      if id in records && after[id] == records[id] {
        assert Refresh(records, now)[id] == records[id];
      }
    }
  }

  /** A stake whose unlocking starts at height h is released exactly from h + unbonding period on, and
      until then counts against its owner. */
  lemma ReleasedExactly(params: StakingParams, records: Records, tx: Transaction, height: u64, now: u64)
    requires ApplyUnlock(params, records, tx, height).Some?
    ensures
      var later := Refresh(ApplyUnlock(params, records, tx, height).value, now);
      && tx.stakeId in later && later[tx.stakeId].owner == tx.sender
      && later[tx.stakeId].amount == records[tx.stakeId].amount
      && (later[tx.stakeId].status == Released <==> now >= height + params.unbondingPeriod)
      && (later[tx.stakeId].status == Unlocking <==> now < height + params.unbondingPeriod)
  {
  }

  function Stage(r: Stake): nat {
    match r.status
    case Active => 0
    case Unlocking => 1
    case Released => 2
  }

  /** Stakes only ever move forward: active, unlocking, released; amount and owner never change. */
  ghost predicate MovesForward(before: Records, after: Records) {
    forall id :: id in before ==>
      && id in after && after[id].owner == before[id].owner && after[id].amount == before[id].amount
      && Stage(before[id]) <= Stage(after[id])
  }

  lemma StakesMoveForward(params: StakingParams, records: Records, tx: Transaction, height: u64, now: u64)
    ensures ApplyLock(params, records, tx, height).Some? ==>
              MovesForward(records, ApplyLock(params, records, tx, height).value)
    ensures ApplyUnlock(params, records, tx, height).Some? ==>
              MovesForward(records, ApplyUnlock(params, records, tx, height).value)
    ensures MovesForward(records, Refresh(records, now))
  {
    hide ActiveCount;
  }

  /** Records filed under their own id and refreshed at `height`. */
  ghost predicate Current(records: Records, height: u64) {
    && Refresh(records, height) == records
    && forall id :: id in records ==> records[id].id == id
  }

  lemma RefreshIsCurrent(records: Records, height: u64)
    requires forall id :: id in records ==> records[id].id == id
    ensures Current(Refresh(records, height), height)
  {
    RefreshTwice(records, height, height);
  }

  lemma LockIsCurrent(params: StakingParams, records: Records, tx: Transaction, height: u64, now: u64)
    requires Current(records, now) && ApplyLock(params, records, tx, height).Some?
    ensures Current(ApplyLock(params, records, tx, height).value, now)
  {
    LockRefreshed(params, records, tx, height, now);
    hide ActiveCount, Refresh;
  }

  lemma UnlockIsCurrent(params: StakingParams, records: Records, tx: Transaction, height: u64, now: u64)
    requires Current(records, now) && ApplyUnlock(params, records, tx, height).Some?
    ensures Current(Refresh(ApplyUnlock(params, records, tx, height).value, now), now)
  {
    RefreshIsCurrent(ApplyUnlock(params, records, tx, height).value, now);
  }

  // ---------------------------------------------------------------- the loops

  method RefreshReleased(records: Records, height: u64) returns (out: Records)
    ensures out == Refresh(records, height)
  {
    out := records;
    var todo := records.Keys;
    while todo != {}
      invariant todo <= records.Keys == out.Keys
      invariant forall id :: id in records ==>
          out[id] == if id in todo then records[id] else RefreshOne(records[id], height)
      decreases |todo|
    {
      var id :| id in todo;
      if out[id].status == Unlocking && height >= out[id].releaseHeight {
        out := out[id := out[id].(status := Released)];
      }
      todo := todo - {id};
    }
  }

  /** The saturating sums come out as the capped true totals, in whatever order records are visited. */
  method AddressSummary(records: Records, a: Address) returns (active: u64, unlocking: u64, released: u64)
    ensures active == Cap(Tally(records, Active)[a])
    ensures unlocking == Cap(Tally(records, Unlocking)[a])
    ensures released == Cap(Tally(records, Released)[a])
  {
    active, unlocking, released := 0, 0, 0;
    var todo := records.Keys;
    ghost var seen: Records := map[];
    assert Tally(map[], Active) == Tally(map[], Unlocking) == Tally(map[], Released) == multiset{};
    assert Cap(0) == 0;
    hide *;
    while todo != {}
      invariant todo <= records.Keys && seen == records - todo
      invariant active == Cap(Tally(seen, Active)[a])
      invariant unlocking == Cap(Tally(seen, Unlocking)[a])
      invariant released == Cap(Tally(seen, Released)[a])
      decreases |todo|
    {
      var id :| id in todo;
      var r := records[id];
      TallyVisit(seen, Active, id, r, a);
      TallyVisit(seen, Unlocking, id, r, a);
      TallyVisit(seen, Released, id, r, a);
      active := Count(active, r, Active, a);
      unlocking := Count(unlocking, r, Unlocking, a);
      released := Count(released, r, Released, a);
      SeenOneMore(records, todo, id);
      seen := seen[id := r];
      todo := todo - {id};
    }
    assert seen == records;
  }

  lemma SeenOneMore(records: Records, todo: set<StakeId>, id: StakeId)
    requires id in todo && todo <= records.Keys
    ensures (records - todo)[id := records[id]] == records - (todo - {id}) && id !in records - todo
  {
  }

  function Count(total: u64, r: Stake, status: StakeStatus, a: Address): u64 {
    if r.owner == a && r.status == status then AddCap(total, r.amount) else total
  }

  lemma TallyVisit(seen: Records, status: StakeStatus, id: StakeId, r: Stake, a: Address)
    requires id !in seen
    ensures Cap(Tally(seen[id := r], status)[a])
         == Count(Cap(Tally(seen, status)[a]), r, status, a)
  {
    assert seen - {id} == seen;
    TallySet(seen, status, id, r);
  }
}
