# IndoChain: a verified model

IndoChain is an account-model blockchain written in Go. This project models its consensus core and the
services around it in Dafny and proves what they promise. Paths below are those of the repository.

## What is modelled

- **Ledger** (`Ledger.dfy`, `MatureLedger.dfy`). `Ledgers` is the specification: a ledger is a value whose
  balances, mature balances and nonces are multisets of addresses, so an amount is a multiplicity and a
  total is a cardinality. `MatureLedgers.MatureLedger` is the implementation: accounts, stakes, the
  coinbase slice compacted in place and the asset state are updated step by step, clones are taken and
  rolled back to, and every method is proved against the specification.
- **Assets and stakes** (`Assets.dfy`, `AssetSupply.dfy`, `Staking.dfy`). The nested balance maps with their
  undo writes, export and restore, supply over every run of operations; stake records that go from active
  to unlocking to released by height.
- **Invariants** (`LedgerInvariant.dfy`, `Effects.dfy`, `Execution.dfy`). Native balance = confirmed = mature +
  pending coinbases for every address, locked stake covered by mature coins, fee pool apart, coins conserved;
  who gains and who loses, by operation and over whole runs; and when a transaction that validates executes.
- **Statements** (`Accounts.dfy`, `Issuance.dfy`, `Acceptance.dfy`). What a balance, a stake and an asset go back
  to over a whole chain: signed transactions and nothing else. And for every kind of transaction the exact
  conditions on its fields, its signatures and what its parties own under which it runs.
- **The simple ledger** (`SimpleLedger.dfy`). One balance and one nonce per address: the mature ledger is
  shown to be stricter, and the reported supply is compared with what accounts own.
- **Snapshots and balances** (`Snapshot.dfy`, `Balances.dfy`). Export, validation, rebuild: a ledger rebuilt
  from its own export is the same ledger. Balance details from stored records equal those from a replay.
- **Chains** (`Chain.dfy`, `Validation.dfy`, `Difficulty.dfy`, `ChainSafety.dfy`, `ChainHistory.dfy`). Block and
  chain validity, the validation loops, agreement of validation with execution, conservation over whole
  chains, exact coinbase maturity, replay protection. `Consensus.dfy` says what every stored block looks like.
- **Node and fork choice** (`Node.dfy`, `ForkChoice.dfy`, `Locator.dfy`). The stored chain with its snapshot,
  block locators, reorganisation plans from arbitrary peer replies, and progress over every run.
- **Mempool** (`Admission.dfy`, `Selection.dfy`, `Recovery.dfy`). Admission, greedy selection under a gas limit
  for every map iteration order, revalidation, and recovery after a reorganisation.
- **Block templates** (`Mining.dfy`, `Templates.dfy`). What is built from the pool for mining, and exactly when
  the mined block is accepted.
- **Ids and roots** (`Preimages.dfy`, `Merkle.dfy`). Which fields a transaction id commits to, and what equal
  Merkle roots say about two blocks.
- **Explorer index** (`Explorer.dfy`). Incremental indexing with a cursor, exactly when it equals a rebuild; paging.
- **Witnesses** (`Witnesses.dfy`, `IdealHash.dfy`). Chains on which the code departs from what is said about it,
  for any hashes that fit them, and one set of hashes, telling everything apart, for which they all occur.
- **Codecs** (`Base58.dfy`, `Addresses.dfy`, `Amount.dfy`). Base58, Base58Check, addresses, decimal amounts.

`Arith.dfy`, `Text.dfy`, `Types.dfy` and `Fees.dfy` hold bounded arithmetic, string helpers, transactions,
blocks and profiles, and the fee policy.

## How to read it

An operation that can return an error gives `None` (or `ok == false`); error texts have no counterpart.
`u64` is the integers from 0 to 2^64 - 1, and every operation that checks, wraps or saturates does so
explicitly. Map iteration is an arbitrary choice of the next key. The clock is a fixed parameter.

Hashes, signatures, transaction ids, encodings and state roots are arbitrary functions (`Types.Oracle`,
`Chains.Rules.root`, `Base58.Checksum`, `Addresses.KeyHash`), so theorems hold whatever they compute. Where
a theorem needs more, it says so in a named hypothesis: `Chains.Rules.WellFormed` (a genesis without
transactions whose hash is its own, and `Env.AddressesSound`, which `Addresses.AddressesAreSound` derives
from the address codec), `Locators.HashesBind` (where two chains have equal hashes at one height, those
blocks name the same parent), `Preimages.HeadersBind` (they also record the same time and Merkle root),
`Preimages.IdsName` and `Preimages.IdsFollow` (ids are equal exactly for equal preimages; `ChainHistory.IdsBind`,
equal sender and nonce, follows by `Preimages.NamesBind`), `Preimages.RootsName` (no two pairs hashed for the
Merkle roots at hand collide), `Nodes.Ready` (asset model on, no empty hash strings). None of them says that a
hash covers a field that the code leaves out of it; `IdealHash.SettingHolds` shows that they can hold together.

## Where the code differs from what is said about it

- Selection is described as deterministic (mempool/selection.go:12). It is so if and only if, at every
  step, some competing head is displaced by no other (`Selection.SelectionIsUnique`). A head can be
  displaced by one that ties with it in fee and gas and has a smaller sender or a smaller id; when the two
  orders disagree the visiting order can decide, and for every profile there is an input with two outputs
  (`Selection.TwoSelections`).
- The genesis check compares header fields only (chain/validation.go:41-52): a first block that carries a
  coinbase passes it, and its coins exist (`ChainSafety.GenesisMayCarryCoins`). The closed supply formula
  holds exactly when block 0 issued nothing (`ChainSafety.FormulaIffGenesisIssuesNothing`).
- Adding blocks one by one does not check transaction ids across blocks, whole-chain validation does
  (chain/validation.go:75-83). The difference is exactly the ids of coinbases
  (`ChainHistory.OnlyCoinbaseIdsMatter`); `Witnesses.StoredButNotValid` is such a chain.
- A plan that disconnects no block is allowed but cannot be stored, because the store refuses a replacement
  above the tip (storage/bbolt.go:420-422); see `Nodes.ReplacementDecided` and
  `Witnesses.AllowedButNotAboveTip`.
- A block's state root is checked by the store on a pre-canonical replacement tip, though validation
  ignores it there (storage/bbolt.go:416-418); see `Nodes.ReplacementDecided` and
  `Witnesses.AllowedButWrongRoot`.
- The reported total supply adds up coinbases and does not take off burned pre-v3 fees
  (ledger/ledger.go:203-222); see `SimpleLedgers.ReportedAgainstOwned` and `Witnesses.ReportExceedsOwned`.
- The explorer recognises its block by the hash (rpc/explorer_indexer.go:281-285), but the id of a version 2
  transaction covers neither its asset nor its fee payer (types/transaction_codec.go:44-61), nor that of an
  asset-creating version 3 coinbase its asset, and the index shows both. After a reorganisation that brings a
  block of the same hash with another fee payer the index stays as it was (`Witnesses.StaleIndex`). It is the
  chain's index if and only if the pass started over or the indexed contents are unchanged
  (`Explorer.SyncedIff`), which they are whenever no transaction is `Preimages.Loose` (`Explorer.PassesFollow`).
- Validation does not look at whether staking is enabled (ledger/maturity.go:434-554), execution does
  (staking/staking.go:77-80), and one built-in profile disables it (config/config.go:490-491): a stake lock
  can validate and not execute (`Witnesses.LockValidatesOnly`). In reachable ledgers this and an overflowing
  release height are the only such cases (`Execution.ReachableExecutesIff`).
- A template counts its transactions without the coinbase (chain/blockchain.go:434, chain/resources.go:41), and
  it measures neither the coinbase nor the block: one that filled up, or came out too large, is mined in vain.
  It also takes the clock as it is, though the tip may be ahead of it. A block mined from the pool is accepted
  if and only if none of this happens (`Templates.MinedFromPool`, `Templates.CountExceededIffFull`,
  `Templates.OneIsOneTooMany`).
- Balance details foresee of pending transactions only transfers and locks, and trust the asset and the fee
  payer that a transfer names (ledger/maturity.go:588-608). The fee of a pending mint, burn or creation is not
  held back, and before version 3 neither name matters to execution. What is shown as spendable is exact if and
  only if no such transaction concerns the address (`Acceptance.ForeseenIff`, `Acceptance.PendingIsHeldBack`).
- The difficulty 2^32 - 1 wraps when it should rise, and the least of the range comes out (chain/pow.go:91-95);
  below it the rule is exact (`Difficulty.RetargetRule`, `Difficulty.LargestWraps`).
- With 20 to 63 decimals the scale has wrapped (amount/amount.go:37-40). Decimals with a non-zero whole
  part are then misread whenever their value at the wrapped scale fits 64 bits, and only they
  (`Amounts.ReadIffUnits`, `Amounts.TwentyWrap`). From 64 decimals on the scale is 0 and is divided by
  (`Amounts.ScaleVanishes`). Asset definitions allow at most 18.

## Model

| member | source | states |
|---|---|---|
| Assets.DerivedIdIsIssued | deskachain/node/internal/asset/model.go:71-77 | no id derived from a transaction is the native asset's, whatever its case or spacing |
| Assets.AssetState.constructor | deskachain/node/internal/asset/state.go:33-48 | a new state holds the native definition only, and no balance |
| Assets.AssetState.AddBalance | deskachain/node/internal/asset/state.go:314-329 | the nested balance maps change as the book says, or not at all on an unknown asset or overflow |
| Assets.AssetState.SubtractBalance | deskachain/node/internal/asset/state.go:331-346 | one holder loses the amount, or nothing changes when the balance is short |
| Assets.AssetState.Credit | deskachain/node/internal/asset/state.go:109-117 | crediting a named holder of a defined asset; refused for a blank address |
| Assets.AssetState.Debit | deskachain/node/internal/asset/state.go:119-124 | debiting a holder; refused when the balance is short |
| Assets.AssetState.Clone | deskachain/node/internal/asset/state.go:126-138 | the copy is a new object showing the same book; the balance maps themselves are immutable values here, so that they are not shared holds by construction |
| Assets.AssetState.Create | deskachain/node/internal/asset/state.go:153-174 | a new definition under its own id, refused for native, invalid or existing ids |
| Assets.AssetState.Mint | deskachain/node/internal/asset/state.go:197-230 | minted units go to the recipient and to the supply together; any failure leaves the book as it was |
| Assets.AssetState.Burn | deskachain/node/internal/asset/state.go:232-259 | burned units leave the owner and the supply together; any failure leaves the book as it was |
| Assets.AssetState.Transfer | deskachain/node/internal/asset/state.go:261-284 | a failing transfer, recipient overflow included, restores the sender |
| Assets.AssetState.ChargeFee | deskachain/node/internal/asset/state.go:286-301 | the fee moves from payer to fee pool; a failure after the debit undoes it |
| Assets.AssetState.ExecuteTokenTransfer | deskachain/node/internal/asset/state.go:303-312 | a token transfer whose fee cannot be paid is taken back: every balance is restored |
| Assets.AssetState.Definitions | deskachain/node/internal/asset/state.go:54-61 | the listed definitions are exactly the stored ones |
| Assets.AssetState.BalanceEntries | deskachain/node/internal/asset/state.go:63-80 | the listed entries are exactly the non-zero balances |
| Assets.AssetState.Restore | deskachain/node/internal/asset/state.go:82-107 | a new state accepts a list exactly when every definition and entry is acceptable, and then defines and holds exactly what was listed |
| Assets.DebitIsUndone | deskachain/node/internal/asset/state.go:331-346 | crediting a debited amount back restores the book exactly |
| Assets.ReverseTransfer | deskachain/node/internal/asset/state.go:303-312 | every completed transfer can be reversed, and reversing it restores the book exactly |
| Effects.AttemptMoves | deskachain/node/internal/asset/state.go:153-346 | each successful operation changes every balance of every asset by exactly its listed gain and loss |
| Effects.EveryRunMoves | deskachain/node/internal/asset/state.go:153-346 | over every run, a balance is exactly what the successful operations gave its owner less what they took; failed ones leave no trace |
| AssetSupply.CreateMatches | deskachain/node/internal/asset/state.go:153-174 | creation keeps every issued supply equal to its holders' total |
| AssetSupply.MintMatches | deskachain/node/internal/asset/state.go:197-230 | minting keeps it |
| AssetSupply.BurnMatches | deskachain/node/internal/asset/state.go:232-259 | burning keeps it |
| AssetSupply.TransferMatches | deskachain/node/internal/asset/state.go:261-284 | transferring keeps it |
| AssetSupply.ChargeFeeMatches | deskachain/node/internal/asset/state.go:286-301 | charging a fee keeps it |
| AssetSupply.EveryRunMatches | deskachain/node/internal/asset/state.go:176-346 | over every run of create, mint, burn, transfer and token transfer, each issued asset's balances sum to its total supply |
| AssetSupply.CirculationIsCapped | deskachain/node/internal/asset/state.go:197-230 | over every run, what circulates of a capped asset never exceeds the cap |
| AssetSupply.TransferNeverOverflows | deskachain/node/internal/asset/state.go:261-284 | with supplies matched the recipient of an issued-asset transfer cannot overflow, so that rollback is dead code |
| AssetSupply.ApplyBlockMatches | deskachain/node/internal/ledger/maturity.go:310-339 | every applied block keeps issued supplies equal to their holders' totals |
| AssetSupply.ReachableMatches | deskachain/node/internal/ledger/maturity.go:128-139 | in every ledger a chain can reach, issued supplies equal their holders' totals |
| Staking.LockAdds | deskachain/node/internal/staking/staking.go:77-103 | a lock adds exactly its amount to what its sender may not spend, and nothing to anyone else's |
| Staking.UnlockKeeps | deskachain/node/internal/staking/staking.go:105-129 | starting to unlock changes nobody's locked total |
| Staking.RefreshReleases | deskachain/node/internal/staking/staking.go:135-142 | the passing of height only ever releases stake |
| Staking.RefreshReleased | deskachain/node/internal/staking/staking.go:135-142 | the in-place loop releases exactly the unlocking records that are due |
| Staking.AddressSummary | deskachain/node/internal/staking/staking.go:159-175 | the saturating sums are the true totals capped at 2^64-1, in any visiting order |
| MatureLedgers.MatureLedger.constructor | deskachain/node/internal/ledger/maturity.go:61-73 | a new ledger is empty |
| MatureLedgers.MatureLedger.Clone | deskachain/node/internal/ledger/maturity.go:277-296 | a new object with the same state whose coinbase array and asset state are new too; accounts and stakes are immutable maps here, so for them it holds by construction |
| MatureLedgers.MatureLedger.RollBackTo | deskachain/node/internal/ledger/maturity.go:298-308 | assigning the backup restores its whole state |
| MatureLedgers.MatureLedger.VisitCoinbase | deskachain/node/internal/ledger/maturity.go:643-664 | one step of the in-place filter: credit or write back at the front |
| MatureLedgers.MatureLedger.MatureCoinbases | deskachain/node/internal/ledger/maturity.go:643-664 | compacting the slice in place credits exactly the due coinbases and keeps the rest in order |
| MatureLedgers.MatureLedger.AppendCoinbase | deskachain/node/internal/ledger/maturity.go:341-364 | appending keeps the pending list whether the slice grows in place or is copied |
| MatureLedgers.MatureLedger.ApplyCoinbaseAtHeight | deskachain/node/internal/ledger/maturity.go:341-364 | pays the recipient, or changes nothing when it fails |
| MatureLedgers.MatureLedger.ValidateNativeSpend | deskachain/node/internal/ledger/asset_execution.go:179-202 | accepts exactly when confirmed, unlocked mature and asset balances all cover the amount |
| MatureLedgers.MatureLedger.SpendNative | deskachain/node/internal/ledger/asset_execution.go:204-224 | takes the amount from all three views, or changes nothing |
| MatureLedgers.MatureLedger.ReceiveNative | deskachain/node/internal/ledger/asset_execution.go:226-246 | adds the amount to all three views, or changes nothing |
| MatureLedgers.MatureLedger.ChargeNativeFee | deskachain/node/internal/ledger/asset_execution.go:248-264 | moves the fee from the payer to the fee pool; if it cannot be collected, a named payer has it back in all three views |
| MatureLedgers.MatureLedger.SettleFeesTo | deskachain/node/internal/ledger/asset_execution.go:266-283 | moves the whole fee pool to the block producer, or leaves everything, the refilled pool included, as it was |
| MatureLedgers.MatureLedger.ApplyAssetTransactionV3 | deskachain/node/internal/ledger/asset_execution.go:289-348 | whatever step fails, the ledger comes back exactly as before the transaction |
| MatureLedgers.MatureLedger.ValidateNativeTransfer | deskachain/node/internal/ledger/asset_execution.go:14-177 | a native transfer is accepted exactly when sender and sponsor can pay amount and fee |
| MatureLedgers.MatureLedger.ValidateTokenOperation | deskachain/node/internal/ledger/asset_execution.go:14-177 | decides the token-side conditions of create, mint, burn and transfer |
| MatureLedgers.MatureLedger.ValidateV3 | deskachain/node/internal/ledger/asset_execution.go:14-177 | decides executability of a v3 transaction on the current state |
| MatureLedgers.MatureLedger.ValidateTransaction | deskachain/node/internal/ledger/maturity.go:434-554 | accepts exactly the valid transactions and changes nothing but lazy stake refresh |
| MatureLedgers.MatureLedger.ApplyLegacyTransfer | deskachain/node/internal/ledger/maturity.go:377-415 | the accounts are written before the asset book; with coherent views a failure still leaves no trace |
| MatureLedgers.MatureLedger.ApplyStakeTransaction | deskachain/node/internal/ledger/maturity.go:416-432 | lock or unlock and nonce together, or no change |
| MatureLedgers.MatureLedger.ApplyTransactionAtHeight | deskachain/node/internal/ledger/maturity.go:370-432 | succeeds exactly when the specification does; a failing transaction changes nothing at any step |
| MatureLedgers.MatureLedger.RunTransactions | deskachain/node/internal/ledger/maturity.go:310-339 | the transaction loop with its coinbase count is the specification's fold |
| MatureLedgers.MatureLedger.ApplyBlockInPlace | deskachain/node/internal/ledger/maturity.go:310-339 | mature, run, settle, advance, mature, in that order |
| MatureLedgers.MatureLedger.Apply | deskachain/node/internal/ledger/maturity.go:298-308 | succeeds exactly when the block applies; with the asset model a rejected block leaves the ledger unchanged |
| MatureLedgers.ReplayMature | deskachain/node/internal/ledger/maturity.go:128-139 | replaying a list of blocks of non-decreasing height gives the specified ledger or the same failure |
| MatureLedgers.CappedLockCheck | deskachain/node/internal/ledger/asset_execution.go:190-197 | saturated stake sums leave room for an amount exactly when the true sums do |
| MatureLedgers.PrefixDecides | deskachain/node/internal/ledger/maturity.go:318-328 | a transaction list with a failing prefix fails |
| Effects.SpendPays | deskachain/node/internal/ledger/asset_execution.go:204-224 | spending lowers one account's three views alike and nothing else |
| Effects.ReceivePays | deskachain/node/internal/ledger/asset_execution.go:226-246 | receiving raises one account's three views alike and nothing else |
| Effects.ChargePays | deskachain/node/internal/ledger/asset_execution.go:248-264 | charging lowers the payer's three views and raises the fee pool by the same amount |
| Effects.NativeTransferPays | deskachain/node/internal/ledger/asset_execution.go:293-302 | recipient gains the amount, sender loses it, the sponsor loses the fee, the pool gains it, nobody else is touched |
| Effects.TokenOperationPays | deskachain/node/internal/ledger/asset_execution.go:303-340 | every other v3 transaction costs its sponsor the fee in native coins and nothing else |
| Effects.SettlementPays | deskachain/node/internal/ledger/asset_execution.go:266-283 | the block producer gains exactly the pool, which is then empty |
| LedgerInvariant.SpendKeeps | deskachain/node/internal/ledger/asset_execution.go:204-224 | spending keeps native balance = confirmed = mature + pending coinbases for everyone |
| LedgerInvariant.ReceiveKeeps | deskachain/node/internal/ledger/asset_execution.go:226-246 | receiving keeps it |
| LedgerInvariant.ChargeFeeKeeps | deskachain/node/internal/ledger/asset_execution.go:248-264 | charging a fee keeps it and conserves coins plus fee pool |
| LedgerInvariant.SpendIffUnlocked | deskachain/node/internal/ledger/asset_execution.go:179-202 | with the views agreeing only locked or missing mature balance can stop a spend |
| LedgerInvariant.ReceiveIffFits | deskachain/node/internal/ledger/asset_execution.go:226-246 | only a balance over 2^64-1 can stop a receipt |
| LedgerInvariant.SettleFeesKeeps | deskachain/node/internal/ledger/asset_execution.go:266-283 | settlement empties the pool and conserves coins |
| LedgerInvariant.SettleFeesIffFits | deskachain/node/internal/ledger/asset_execution.go:266-283 | settlement fails exactly when the producer's balance would not fit 64 bits |
| LedgerInvariant.CoinbaseKeeps | deskachain/node/internal/ledger/maturity.go:341-364 | a coinbase keeps the views agreeing and adds exactly its amount |
| LedgerInvariant.CoinbaseShape | deskachain/node/internal/ledger/maturity.go:341-364 | a coinbase credits one account and appends at most one pending credit |
| LedgerInvariant.MatureRunExact | deskachain/node/internal/ledger/maturity.go:643-664 | when nothing can overflow, a maturing pass keeps exactly the undue coinbases and moves the rest coin for coin |
| LedgerInvariant.MatureKeeps | deskachain/node/internal/ledger/maturity.go:643-664 | in a coherent ledger the overflow branch of the maturing pass is never taken |
| LedgerInvariant.ImmatureMembers | deskachain/node/internal/ledger/maturity.go:643-664 | what stays pending is exactly what is not yet due |
| LedgerInvariant.EffectV3Keeps | deskachain/node/internal/ledger/asset_execution.go:289-348 | a v3 transaction keeps all invariants and conserves coins plus fee pool |
| LedgerInvariant.LegacyTransferMoves | deskachain/node/internal/ledger/maturity.go:377-415 | a pre-v3 transfer moves the amount in all views and burns the fee |
| LedgerInvariant.LegacyTransferKeeps | deskachain/node/internal/ledger/maturity.go:377-415 | a pre-v3 transfer keeps all invariants and lowers the supply by its fee |
| LedgerInvariant.LegacyTransferDecidedByAccounts | deskachain/node/internal/ledger/maturity.go:377-415 | the asset-book writes after the account writes cannot fail: only the account checks decide |
| LedgerInvariant.StakeEffectKeeps | deskachain/node/internal/ledger/maturity.go:416-427 | locking and unlocking never let locked stake exceed mature coins |
| LedgerInvariant.ApplyTransactionKeeps | deskachain/node/internal/ledger/maturity.go:370-432 | every transaction keeps the three views, stake cover and conservation |
| LedgerInvariant.ApplyAllKeeps | deskachain/node/internal/ledger/maturity.go:318-328 | every transaction list keeps them |
| LedgerInvariant.ApplyBlockKeeps | deskachain/node/internal/ledger/maturity.go:310-339 | every block keeps them, empties the fee pool, and changes the supply by coinbases less burned fees |
| LedgerInvariant.ReachableCoherent | deskachain/node/internal/ledger/maturity.go:128-139 | every reachable ledger satisfies them: views agree, locked stake is covered by mature coins, fee pool zero |
| Snapshots.StateAccounts | deskachain/node/internal/ledger/maturity.go:182-193 | the export lists exactly the ledger's accounts |
| Snapshots.StateStakes | deskachain/node/internal/ledger/maturity.go:195-197 | the export lists exactly the refreshed stakes |
| Snapshots.SnapshotForLedger | deskachain/node/internal/state/snapshot.go:34-60 | the snapshot is the ledger's exact export |
| Snapshots.NewMatureFromStateWithAssets | deskachain/node/internal/ledger/maturity.go:106-122 | a ledger loaded from listed state holds exactly what was listed, then synchronised |
| Snapshots.SyncNativeAssetsFromAccounts | deskachain/node/internal/ledger/asset_execution.go:350-360 | every account's native balance becomes its confirmed balance; other assets stay |
| Snapshots.ExportIsImportable | deskachain/node/internal/ledger/maturity.go:75-122 | a reachable ledger's export is accepted on the way back |
| Snapshots.ExportIsValid | deskachain/node/internal/state/snapshot.go:152-265 | it also passes the snapshot's own validation, cross-check of confirmed and native balances included |
| Snapshots.RebuildIsIdentity | deskachain/node/internal/ledger/maturity.go:75-122 | loading a ledger's own export gives the same ledger |
| Snapshots.SyncIsIdle | deskachain/node/internal/ledger/asset_execution.go:350-360 | on such an export the synchronisation does nothing |
| Snapshots.Rebuild | deskachain/node/internal/state/snapshot.go:70-98 | rebuilding from a sound ledger's snapshot never fails and gives that ledger |
| Snapshots.SnapshotAfterBlock | deskachain/node/internal/state/snapshot.go:70-98 | one more block on a snapshot: same result, same failure, as on the ledger it came from |
| Difficulty.NextIsGradual | deskachain/node/internal/chain/pow.go:60-99 | the expected difficulty stays in range and moves by at most one step |
| Difficulty.CalculateBlockWork | deskachain/node/internal/chain/locator.go:70-85 | 16^difficulty, saturated |
| Difficulty.CalculateCumulativeWork | deskachain/node/internal/chain/locator.go:87-97 | the true total work, saturated at 2^64-1 |
| Chains.HeightIsIndex | deskachain/node/internal/chain/validation.go:56-68 | in an accepted chain a block's height is its position |
| Chains.StoredGrows | deskachain/node/internal/chain/validation.go:105-117 | a stored chain grows by exactly the blocks incremental validation accepts |
| Chains.IncrementalValidation | deskachain/node/internal/chain/validation.go:37-117 | whole-chain validation of one more block is incremental validation plus fresh transaction ids, both directions |
| Validation.ValidateResources | deskachain/node/internal/chain/resources.go:36-75 | the gas loop with its overflow guard decides the resource limits |
| Validation.ValidateHeader | deskachain/node/internal/chain/validation.go:135-162 | decides version, hash, Merkle root, resources, difficulty, timestamp, producer and proof of work |
| Validation.ValidateTxList | deskachain/node/internal/chain/validation.go:163-225 | one pass for coinbases and fees and one for the reward decide the transaction list |
| Validation.ValidateStateRoot | deskachain/node/internal/chain/validation.go:246-261 | the root check decides exactly whether the block executes to its recorded root |
| Validation.RootInputsUnique | deskachain/node/internal/state/snapshot.go:34-60 | a ledger has only one export, so its root is a function of it |
| Validation.ValidateExecution | deskachain/node/internal/chain/validation.go:226-261 | the transaction loop on the replayed ledger plus the root check decide execution |
| Validation.ValidateBlock | deskachain/node/internal/chain/validation.go:135-263 | accepts exactly the valid blocks |
| Validation.ValidateNextBlock | deskachain/node/internal/chain/validation.go:105-117 | accepts exactly the blocks that extend the tip |
| Validation.ValidateChain | deskachain/node/internal/chain/validation.go:37-91 | the loop over prior blocks and seen ids accepts exactly the valid chains |
| Validation.ValidPrefix | deskachain/node/internal/chain/validation.go:37-91 | every prefix of a valid chain is valid |
| ChainSafety.ReplayRests | deskachain/node/internal/ledger/maturity.go:128-139 | after a replay nothing is due, the pool is empty, and the supply is what was issued |
| ChainSafety.NextBlockOpensIdle | deskachain/node/internal/ledger/maturity.go:310-317 | the maturing pass that opens the next block does nothing, so validation may skip it |
| ChainSafety.AcceptedBlockExecutes | deskachain/node/internal/chain/validation.go:226-261 | an accepted block executes exactly when its producer can hold the settled fees |
| ChainSafety.AcceptedBlockExecutesWithinSupply | deskachain/node/internal/chain/validation.go:226-261 | when the supply fits 64 bits every accepted block executes |
| ChainSafety.StoredChainReplays | deskachain/node/internal/chain/blockchain.go:339-372 | every stored chain whose coins fit 64 bits replays, settlement included |
| ChainSafety.ValidBlockIssues | deskachain/node/internal/chain/validation.go:163-225 | a valid block adds the subsidy (or fixed reward) less burned pre-v3 fees |
| ChainSafety.CoinsAreConserved | deskachain/node/internal/ledger/maturity.go:128-139 | over a whole chain: genesis issue + subsidy per block - burned fees = sum of confirmed balances = native total, pool zero |
| ChainSafety.FormulaIffGenesisIssuesNothing | deskachain/node/internal/ledger/ledger.go:203-222 | the closed supply formula holds exactly when block 0 issued nothing |
| ChainSafety.GenesisMayCarryCoins | deskachain/node/internal/chain/validation.go:41-52 | the genesis check ignores block 0's transactions: a first block carrying coins is accepted |
| ChainSafety.FeeOnlyChainsAreBare | deskachain/node/internal/chain/validation.go:163-225 | with zero subsidy and a fee floor a valid chain over an empty genesis holds nothing but zero coinbases |
| ChainHistory.ImmatureTwice | deskachain/node/internal/ledger/maturity.go:643-664 | maturing at two rising heights is maturing at the later one |
| ChainHistory.PendingOfBlocks | deskachain/node/internal/ledger/maturity.go:310-364 | the pending list is a function of the chain's coinbases and the tip height |
| ChainHistory.ExactMaturity | deskachain/node/internal/ledger/maturity.go:643-664 | after height H exactly the non-zero coinbases with c + maturity > H are pending, in chain order |
| ChainHistory.MaturityDuringBlock | deskachain/node/internal/chain/validation.go:226-244 | transactions of block h see only credits with c + maturity <= h - 1 |
| ChainHistory.NoncesCountUp | deskachain/node/internal/ledger/maturity.go:501-508 | each sender's transactions carry exactly the nonces 1..k in chain order |
| ChainHistory.NoTransactionTwice | deskachain/node/internal/ledger/asset_execution.go:64-71 | no two non-coinbase transactions of a replayable chain share an id |
| ChainHistory.OnlyCoinbaseIdsMatter | deskachain/node/internal/chain/validation.go:75-83 | the duplicate check adds only the distinctness of coinbase ids to what replay guarantees, both directions |
| ChainHistory.ReplaySound | deskachain/node/internal/state/snapshot.go:62-68 | a replayed ledger always gives an acceptable snapshot |
| Locators.HeightsShape | deskachain/node/internal/chain/locator.go:14-55 | locator heights are n, n-1, n-2, n-4, n-8, ..., 0, strictly descending, at most floor(log2 n)+3 of them |
| Locators.BuildBlockLocator | deskachain/node/internal/chain/locator.go:14-55 | the loop visits exactly those heights, and the doubling step wraps only after its last use |
| Locators.LocatorOnChain | deskachain/node/internal/chain/locator.go:14-55 | on a contiguous chain every back-off height is listed with its block's hash |
| Locators.FindCommonAncestor | deskachain/node/internal/chain/locator.go:57-68 | finds the first entry the chain agrees with, if any |
| Locators.AgreementGoesDown | deskachain/node/internal/chain/locator.go:57-68 | chains that agree at one height agree at every lower one, where equal hashes at one height name one parent |
| Locators.AncestorBound | deskachain/node/internal/chain/locator.go:14-68 | if the chains part after height f below tip n, the ancestor a found satisfies n-f <= n-a < 2(n-f) |
| Balances.PendingTransfers | deskachain/node/internal/ledger/maturity.go:588-608 | saturating loops give the capped true totals of pending native transfers and fees |
| Balances.PendingLocks | deskachain/node/internal/staking/staking.go:204-212 | the capped true total of pending locks |
| Balances.SaturationIsHarmless | deskachain/node/internal/ledger/maturity.go:612-620 | saturating the locked total never changes the spendable balance |
| Balances.BalanceDetailsFromState | deskachain/node/internal/ledger/maturity.go:575-641 | spendable = mature less locked, locking and leaving coins, floored at 0, in true sums |
| Balances.OwnersTally | deskachain/node/internal/storage/bbolt.go:837-867 | an owner's totals need only that owner's records |
| Nodes.CommitFollows | deskachain/node/internal/storage/bbolt.go:158-221 | the store's own checks never refuse what validation and execution accepted |
| Nodes.RootAfterBlock | deskachain/node/internal/chain/validation.go:246-261 | a canonical block records the root of the ledger it executes to |
| Nodes.ReplacementDecided | deskachain/node/internal/storage/bbolt.go:364-498 | of the store's checks on a valid branch only an empty branch, one replacing nothing, or a wrong root on a pre-canonical tip can fail |
| Nodes.Blockchain.constructor | deskachain/node/internal/chain/blockchain.go:33-75 | a new node stores the genesis and its ledger's snapshot |
| Nodes.Blockchain.SnapshotForBlocks | deskachain/node/internal/state/snapshot.go:62-68 | the snapshot of the replayed ledger, or the replay's failure |
| Nodes.Blockchain.StateAfter | deskachain/node/internal/chain/blockchain.go:352-365 | the persisted snapshot and a full replay give the same next state |
| Nodes.Blockchain.AddBlock | deskachain/node/internal/chain/blockchain.go:339-372 | adds exactly the blocks that validate and execute; block and snapshot change together or not at all |
| Nodes.Blockchain.ReplaceFromHeight | deskachain/node/internal/chain/blockchain.go:125-152 | keeps the prefix, installs the branch and its snapshot together, or changes nothing |
| Nodes.Blockchain.StateAccountOf | deskachain/node/internal/storage/bbolt.go:659-689 | the persisted account is the replayed one |
| Nodes.Blockchain.BalanceFromState | deskachain/node/internal/chain/blockchain.go:264-289 | balance details from persisted state are those of the replayed ledger |
| Nodes.Blockchain.BalanceByReplay | deskachain/node/internal/ledger/maturity.go:145-155 | balance details by replay |
| Nodes.Blockchain.BalanceDetailsFor | deskachain/node/internal/chain/blockchain.go:258-297 | either path, the same answer |
| ForkChoice.FetchBranch | deskachain/node/internal/p2p/reorg.go:169-184 | fetches the peer's blocks above the ancestor, or fails at the first missing one |
| ForkChoice.BuildReorgPlan | deskachain/node/internal/p2p/reorg.go:78-211 | allows a reorganisation exactly when the branch is within depth and fetch limits, has strictly more work and validates; every other verdict's reason is true |
| ForkChoice.ApplyReorg | deskachain/node/internal/p2p/reorg.go:225-274 | applies exactly the allowed and storable plans, keeps the prefix, disconnects at most maxDepth blocks; the second validation cannot fail; otherwise the chain is unchanged |
| ForkChoice.CanonicalTipReplays | deskachain/node/internal/p2p/reorg.go:262-274 | a chain with a canonical tip always replays |
| ForkChoice.StepRaises | deskachain/node/internal/chain/locator.go:87-97 | every accepted block and every reorganisation raises (saturated work, length) |
| ForkChoice.NeverRevisited | deskachain/node/internal/p2p/reorg.go:151-210 | over any run the rank strictly rises, so no canonical chain is ever visited twice |
| ForkChoice.RunStored | deskachain/node/internal/p2p/reorg.go:262-274 | every chain on the way validates block by block |
| ForkChoice.SaturatedNeverReorgs | deskachain/node/internal/chain/locator.go:87-97 | once work has saturated no branch displaces the chain |
| Selection.PriorityIsTotal | deskachain/node/internal/mempool/selection.go:106-131 | exactly one of better, worse and tied in fee and gas, gas 0 included |
| Selection.PriorityIsTransitive | deskachain/node/internal/mempool/selection.go:106-124 | the cross-multiplied order is transitive, gas 0 included |
| Selection.GroupBySender | deskachain/node/internal/mempool/selection.go:21-45 | fails exactly when a listed transaction does not qualify; keeps list order per sender |
| Selection.SortByNonce | deskachain/node/internal/mempool/selection.go:47-53 | sorted by nonce and id, a permutation |
| Selection.ReadyPrefix | deskachain/node/internal/mempool/selection.go:58-73 | one candidate per nonce from the start, no gap, as far as the list goes, least id first |
| Selection.ScanHeads | deskachain/node/internal/mempool/selection.go:81-95 | the pick is what the scan of some visiting order of the fitting heads returns, and none is returned exactly when none fits |
| Selection.PickIsBest | deskachain/node/internal/mempool/selection.go:84-95 | whatever the order, no fitting head is better than the pick |
| Selection.SelectWithNonces | deskachain/node/internal/mempool/selection.go:16-104 | a run of scan picks from the ready queues, for some visiting orders, that ends exactly when no head fits |
| Selection.PicksInOrder | deskachain/node/internal/mempool/selection.go:99-101 | each sender's picks are the front of its queue |
| Selection.SelectedNonces | deskachain/node/internal/mempool/selection.go:58-73 | each sender's selected nonces run up from its start nonce without gap or repeat |
| Selection.GasBound | deskachain/node/internal/mempool/selection.go:89-91 | total gas stays within the limit |
| Selection.SelectedFromInput | deskachain/node/internal/mempool/selection.go:16-104 | the output is a sub-multiset of the input |
| Selection.DisplacesBothWays | deskachain/node/internal/mempool/selection.go:92-94 | of two heads of different senders one displaces the other, and both do exactly when they tie in fee and gas and the smaller sender has the larger id |
| Selection.UndisplacedIsAhead | deskachain/node/internal/mempool/selection.go:92-94 | a head nobody displaces is one that is better than, or tied and of a smaller sender than, every other, with no smaller id among the tied |
| Selection.PickIsUnique | deskachain/node/internal/mempool/selection.go:81-95 | one scan returns the same head for every visiting order if and only if some competing head is displaced by no other |
| Selection.SelectionIsUnique | deskachain/node/internal/mempool/selection.go:76-103 | the whole selection gives one output for every map iteration order if and only if every step of a run has such a head |
| Selection.EitherComesFirst | deskachain/node/internal/mempool/selection.go:16-104 | two selectable transactions that tie, the smaller sender's with the larger id: each comes first in some output |
| Selection.TwoSelections | deskachain/node/internal/mempool/selection.go:12-104 | for every profile and gas limit there is a concrete input with two different outputs |
| Recovery.SortIsInOrder | deskachain/node/internal/p2p/reorg.go:394-403 | the sort orders by sender, nonce, id |
| Recovery.SortIsStable | deskachain/node/internal/p2p/reorg.go:394-403 | and keeps the order of equal entries |
| Recovery.SortStable | deskachain/node/internal/p2p/reorg.go:394-403 | the stable sort |
| Recovery.RevalidationIsSound | deskachain/node/internal/p2p/reorg.go:389-439 | what is kept applies in its order; no coinbase, confirmed or repeated id; every transaction is kept or counted dropped once |
| Recovery.RevalidationIsIdempotent | deskachain/node/internal/p2p/reorg.go:389-439 | revalidating what was kept keeps all of it in the same order |
| Recovery.TryApply | deskachain/node/internal/ledger/maturity.go:366-368 | a failed attempt leaves the working ledger unchanged |
| Recovery.RevalidateTransactions | deskachain/node/internal/p2p/reorg.go:389-439 | the loop computes the specified outcome and leaves the ledger it was given unchanged |
| Recovery.CollectOrphans | deskachain/node/internal/p2p/reorg.go:254-261 | the non-coinbase transactions of the replaced blocks, by id, each of them one of these blocks' |
| Recovery.ConfirmedIds | deskachain/node/internal/p2p/reorg.go:377-387 | the non-coinbase ids of the new chain |
| Recovery.DropConfirmed | deskachain/node/internal/p2p/reorg.go:280-286 | removes and counts the orphans that are confirmed |
| Recovery.ApplyKept | deskachain/node/internal/p2p/reorg.go:293-296 | re-applying the kept transactions never fails |
| Recovery.RequeueOrphans | deskachain/node/internal/p2p/reorg.go:301-314 | for every orphan order: what was kept comes first, then orphans; an orphan is in the list, repeats an id in it, or was refused by the ledger behind some front of the list that contains what was kept, and the refused ones are those counted invalid |
| Recovery.NextNoncesOf | deskachain/node/internal/p2p/reorg.go:315-325 | the ledger's next nonce of every sender whose nonce is not used up |
| Recovery.AppliedIsSelectable | deskachain/node/internal/mempool/selection.go:21-45 | every applied transaction qualifies for selection, so selection after recovery cannot fail |
| Recovery.EverythingIsReady | deskachain/node/internal/mempool/selection.go:47-74 | every applied transaction reaches its sender's ready queue |
| Recovery.DroppedOnlyForGas | deskachain/node/internal/p2p/reorg.go:326-334 | a sender's picks are a front of its transactions, and the first one left out would exceed the gas limit; without a limit none is |
| Recovery.PoolNonces | deskachain/node/internal/p2p/reorg.go:326-335 | in the saved pool each sender's nonces run on from the ledger's |
| Recovery.PoolIsClean | deskachain/node/internal/p2p/reorg.go:326-335 | the saved pool has no coinbase, confirmed or repeated id |
| Recovery.UniqueTransactions | deskachain/node/internal/mempool/mempool.go:111-126 | keeps the first entry of each id |
| Recovery.UniqueOfDistinct | deskachain/node/internal/mempool/mempool.go:111-126 | saving a pool without repeats drops nothing |
| Recovery.RecoverPool | deskachain/node/internal/p2p/reorg.go:275-343 | distinct orphans + loaded pending = pool + dropped, the pool is ready to be mined, and selection never fails; it is chosen from the revalidated pending list followed by the unconfirmed orphans, every one of them there unless it repeats an id or the ledger refused it |
| Recovery.Reorganise | deskachain/node/internal/p2p/reorg.go:225-344 | fork choice, storage and pool recovery together: the chain is replaced or kept; the pool is ready on the new ledger, chosen from the revalidated pending list and the unconfirmed transactions of the disconnected blocks, of which only repeated ids and those the ledger refused are missing; only the gas limit thins it out, and everything is in it or counted as dropped |
| Merkle.CalculateMerkleRoot | deskachain/node/internal/types/block.go:100-125 | the level-by-level loop computes the recursive root, an odd last entry paired with itself |
| Merkle.RootBinds | deskachain/node/internal/types/block.go:111-123 | as long as the pairs hashed for them do not collide, two roots over distinct ids are equal if and only if the lists are, lengths included |
| Merkle.RepeatedLast | deskachain/node/internal/types/block.go:115-119 | without distinct ids that fails: repeating the last of an odd number of entries keeps the root, for every hash |
| Preimages.SamePreimage | deskachain/node/internal/types/transaction.go:301-359 | transactions with one id preimage agree in version, kind, time, key, parties, amount, fee and nonce, but for locks in stake id, and for version 3 in the terms of a created asset; in asset and fee payer only for version 1, and for version 3 unless an asset is created |
| Preimages.SameIdSameFields | deskachain/node/internal/types/transaction_codec.go:44-127 | of two accepted transactions with one id only loose ones can differ in asset or fee payer: a version 2 id covers neither |
| Preimages.NamesBind | deskachain/node/internal/types/transaction.go:301-318 | ids of collision-free preimages bind sender and nonce, which replay protection rests on |
| Preimages.SameRootSameIds | deskachain/node/internal/types/block.go:100-125 | blocks with equal Merkle roots and distinct ids list the same ids in the same order |
| Preimages.ValidSealed | deskachain/node/internal/chain/validation.go:135-245 | in every block of a valid chain the Merkle root is that of its transactions, their ids are distinct, and each is the hash of its preimage |
| Explorer.IndexBlock | deskachain/node/internal/rpc/explorer_indexer.go:162-210 | the bucket writes of one block are the specified index step |
| Explorer.SyncedIff | deskachain/node/internal/rpc/explorer_indexer.go:280-321 | a pass over a chain with distinct ids leaves exactly the chain's index if and only if it started over or what had been indexed up to the cursor is still what the chain's blocks contain |
| Explorer.IndexDetermines | deskachain/node/internal/rpc/explorer_indexer.go:162-210 | the blocks' contents can be read back from the index, so two indexes agree only where the contents do |
| Explorer.SameHeaderSameContent | deskachain/node/internal/rpc/explorer_indexer.go:162-210 | two accepted blocks with equal headers have the same indexed content, unless a transaction is loose: of version 2 with an asset id or fee payer, or an asset-creating version 3 coinbase |
| Explorer.SameHashSamePrefix | deskachain/node/internal/rpc/explorer_indexer.go:280-288 | two valid chains without loose transactions and with equal hashes at the cursor's height have the same indexed content up to there |
| Explorer.PassFollows | deskachain/node/internal/rpc/explorer_indexer.go:251-321 | from a chain to any extension or reorganisation of it without loose transactions one pass leaves the index of the new chain |
| Explorer.PassesFollow | deskachain/node/internal/rpc/explorer_indexer.go:251-321 | and so over any sequence of such chains: after the last pass the index is that of the last chain built from nothing |
| Explorer.LinearLinks | deskachain/node/internal/rpc/explorer_indexer.go:300-309 | a pass over a chain whose blocks name their parents is never refused |
| Explorer.ExplorerIndexer.constructor | deskachain/node/internal/rpc/explorer_indexer.go:94-115 | a new index is empty |
| Explorer.ExplorerIndexer.MustRebuild | deskachain/node/internal/rpc/explorer_indexer.go:280-288 | with a cursor, rebuilds exactly when its height is above the chain or the block there has another hash |
| Explorer.IndexFrom | deskachain/node/internal/rpc/explorer_indexer.go:294-321 | indexes exactly the blocks above the cursor, and stops exactly when one does not name the block below it |
| Explorer.ExplorerIndexer.Sync | deskachain/node/internal/rpc/explorer_indexer.go:251-321 | for whatever the store lists: accepted exactly when the blocks above the starting point are linked; a refused pass changes nothing; over a chain with distinct ids the index is then the chain's if and only if the pass started over or what had been indexed is still what the chain's blocks contain |
| Explorer.IndexOfOneRole | deskachain/node/internal/rpc/explorer_indexer.go:179-197 | an address never has two entries for one transaction |
| Explorer.HistoryHasNoRepeats | deskachain/node/internal/rpc/explorer_indexer.go:162-210 | the index of a valid chain has consistent entries and one per address and transaction |
| Explorer.ListingIsUnique | deskachain/node/internal/rpc/explorer_indexer.go:568-573 | there is one newest-first listing, so pages taken separately agree |
| Explorer.AddressHistory | deskachain/node/internal/rpc/explorer_indexer.go:545-583 | a page is the right slice of the newest-first listing of all matching entries |
| Explorer.PagesAreThePrefix | deskachain/node/internal/rpc/explorer_indexer.go:574-582 | concatenated pages are the listing from its start |
| Explorer.EnoughPages | deskachain/node/internal/rpc/explorer_indexer.go:574-582 | enough pages give every event exactly once |
| Base58.RebaseRoundTrip | deskachain/node/internal/address/base58.go:14-63 | re-basing digits with their leading zeros to another base and back is the identity |
| Base58.AlphabetIsDistinct | deskachain/node/internal/address/base58.go:10 | no character stands for two digits |
| Base58.Base58Encode | deskachain/node/internal/address/base58.go:14-36 | division loop, zero loop and in-place reversal give the specified encoding |
| Base58.Base58Decode | deskachain/node/internal/address/base58.go:38-63 | the multiplication loop gives the specified decoding or refuses a foreign character |
| Base58.DecodeEncoded | deskachain/node/internal/address/base58.go:14-63 | decoding undoes encoding on all byte strings |
| Base58.EncodeDecoded | deskachain/node/internal/address/base58.go:14-63 | encoding undoes decoding on exactly the strings over the alphabet |
| Base58.CheckEncode | deskachain/node/internal/address/base58.go:65-70 | payload and checksum encoded |
| Base58.CheckDecode | deskachain/node/internal/address/base58.go:72-87 | payload of a string whose checksum holds |
| Base58.CheckedExactly | deskachain/node/internal/address/base58.go:65-87 | a string decodes to a payload exactly when it is that payload's encoding; only the empty payload does not come back |
| Addresses.NeverLegacy | deskachain/node/internal/address/address.go:61-74 | an encoded address with non-zero version byte never reads as a legacy one |
| Addresses.DecodeEncodedAddress | deskachain/node/internal/address/address.go:21-54 | decoding undoes encoding and refuses the address under another version byte |
| Addresses.DecodesExactly | deskachain/node/internal/address/address.go:29-54 | which strings are addresses of a network, both directions |
| Addresses.AddressesAreSound | deskachain/node/internal/address/address.go:29-59 | the fee pool's name is never an address and no address is blank, on every network |
| Amounts.UnitsPerWhole | deskachain/node/internal/amount/amount.go:37-40 | the loop gives the power of ten modulo 2^64 |
| Amounts.ScaleVanishes | deskachain/node/internal/amount/amount.go:37-41 | that is 0, and then divided by, exactly from 64 decimals on |
| Amounts.TwentyWrap | deskachain/node/internal/amount/amount.go:17-66 | with 20 decimals the text 1 is read as 7766279631452241920 units, though its value does not fit 64 bits |
| Amounts.ReadIffUnits | deskachain/node/internal/amount/amount.go:17-66 | an amount is read as its decimal value if and only if there are at most 19 decimals, or the text is no decimal, or its whole part is 0, or the value at the wrapped scale does not fit |
| Amounts.ParseUnits | deskachain/node/internal/amount/amount.go:17-66 | below 64 decimals: accepts exactly the decimals whose value at the machine's scale is from 1 to 2^64-1, and yields it; up to 19 decimals that is the exact value |
| Amounts.FormatUnits | deskachain/node/internal/amount/amount.go:73-85 | renders quotient and padded remainder at the machine's scale with trailing zeros and point dropped; exact up to 19 decimals |
| Amounts.ParseFormatted | deskachain/node/internal/amount/amount.go:17-85 | parsing what was rendered gives the units back, for all units > 0 and every number of decimals below 64, the wrapped scale included |
| Amounts.RenderedIffFormatted | deskachain/node/internal/amount/amount.go:73-85 | units are rendered as the decimal they are if and only if there are at most 19 decimals or they are below the wrapped scale |
| Fees.GasIsCeiling | deskachain/node/internal/fees/policy.go:27-65 | gas is the base amount plus the number of started units of the envelope's size |
| Fees.AcceptableIff | deskachain/node/internal/fees/policy.go:27-120 | the whole policy without divisions or overflow checks: a metered transaction passes exactly when its fee is worth its gas and the floor, the gas being base plus started units within the limits |
| Fees.SmallerIsCheaper | deskachain/node/internal/fees/policy.go:27-120 | of two transactions with one base price the one with the smaller envelope needs no more gas and no higher fee, and passes whenever it pays as much as the other that passed |
| Difficulty.SlowerIsNotHarder | deskachain/node/internal/chain/pow.go:60-99 | blocks that took longer never raise the next difficulty |
| Staking.ReleasedExactly | deskachain/node/internal/staking/staking.go:105-142 | a stake whose unlocking starts at h is released exactly from h + unbonding period on, and locked until then |
| Staking.StakesMoveForward | deskachain/node/internal/staking/staking.go:77-142 | stakes only move from active to unlocking to released; owner and amount never change |
| ChainHistory.HeadersHold | deskachain/node/internal/chain/validation.go:148-162 | along a chain time never runs backwards nor past the drift, and difficulties stay in range |
| Explorer.PageOfListing | deskachain/node/internal/rpc/explorer_indexer.go:545-583 | every returned page is a page of the one listing |
| Explorer.PagesCoverHistory | deskachain/node/internal/rpc/explorer_indexer.go:545-583 | pages fetched one after another give every entry of the address exactly once, newest first |
| Admission.TotalGas | deskachain/node/internal/mempool/admission.go:77-91 | the gas loop gives the true total or refuses on overflow |
| Admission.Admit | deskachain/node/internal/mempool/admission.go:54-96 | takes exactly what may join and keeps the pool sound: admissible, no id or sender nonce twice, count and gas within limits |
| Admission.Select | deskachain/node/internal/mempool/admission.go:101-146 | fails exactly when a listed transaction is inadmissible; otherwise sorts by priority and takes what fits |
| Admission.PriorityOrder | deskachain/node/internal/mempool/admission.go:120-135 | the sort's comparison is a strict weak order |
| Admission.FilledFits | deskachain/node/internal/mempool/admission.go:136-145 | the selected gas stays within the limit and nothing is invented |
| Admission.NothingMoreFits | deskachain/node/internal/mempool/admission.go:136-145 | what is left out would not fit at the end either |
| Admission.SelectIsDeterministic | deskachain/node/internal/mempool/admission.go:98-146 | for distinct ids the result depends neither on list order nor on how the sort treats equals |
| SimpleLedgers.SimpleLedger.constructor | deskachain/node/internal/ledger/ledger.go:22-24 | a new simple ledger is empty |
| SimpleLedgers.SimpleLedger.ApplyCoinbase | deskachain/node/internal/ledger/ledger.go:72-87 | pays the recipient, or changes nothing |
| SimpleLedgers.SimpleLedger.ValidateTransaction | deskachain/node/internal/ledger/ledger.go:120-189 | accepts exactly the acceptable transactions, and every coinbase of an active version |
| SimpleLedgers.SimpleLedger.ApplyTransaction | deskachain/node/internal/ledger/ledger.go:89-118 | moves balance and nonce, or changes nothing |
| SimpleLedgers.SimpleLedger.ApplyBlock | deskachain/node/internal/ledger/ledger.go:52-70 | the transaction loop with at most one coinbase |
| SimpleLedgers.TransferNeedsMaturity | deskachain/node/internal/ledger/maturity.go:509-552 | for a pre-v3 transfer the mature ledger asks exactly one thing more: mature coins that are not locked |
| SimpleLedgers.TransactionSimulated | deskachain/node/internal/ledger/ledger.go:89-118 | what the mature ledger executes before v3 the simple one executes too, to the same balances and nonces |
| SimpleLedgers.ReplaySimulated | deskachain/node/internal/ledger/ledger.go:26-34 | before the asset model every chain the mature ledger replays the simple one replays, to the same balances and nonces |
| SimpleLedgers.TotalSupply | deskachain/node/internal/ledger/ledger.go:203-222 | the saturating loop gives the capped true total of the report |
| SimpleLedgers.ReportedAgainstOwned | deskachain/node/internal/ledger/ledger.go:203-222 | the report is one subsidy per block; accounts own that plus the genesis issue less burned pre-v3 fees |
| Execution.ChargeIffUnlocked | deskachain/node/internal/ledger/asset_execution.go:248-264 | a fee can be charged exactly when the payer has it unlocked: the pool never overflows |
| Execution.ValidV3Executes | deskachain/node/internal/ledger/asset_execution.go:13-340 | in a sound ledger every v3 transaction that validates executes |
| Execution.ValidLegacyExecutesIff | deskachain/node/internal/ledger/maturity.go:377-573 | on any sound ledger a pre-v3 transaction that validates executes if and only if it is no stake transaction with staking disabled, the stake id taken, or the release height overflowing |
| Execution.ValidExecutesIff | deskachain/node/internal/ledger/maturity.go:370-573 | the two together: exactly those stake obstacles separate validation from execution |
| Execution.ReachableSound | deskachain/node/internal/ledger/maturity.go:128-139 | the ledger of every replayed chain that issued at most 2^64-1 coins is sound: coherent, supplies matched, nothing frozen |
| Execution.PoolCoversGas | deskachain/node/internal/ledger/asset_execution.go:266-283 | the fee pool a block leaves for its producer is worth at least its gas at the configured price, and one minimum fee for each metered transaction |
| Execution.LockIdIsFree | deskachain/node/internal/staking/staking.go:77-103 | where a lock's nonce still counts its id is no record's yet: the duplicate-id refusal is dead code |
| Execution.ReachableNamed | deskachain/node/internal/staking/staking.go:77-103 | in every reachable ledger each stake record goes back to a lock with its id by its owner; with staking disabled there are none |
| Execution.ReachableExecutesIff | deskachain/node/internal/ledger/maturity.go:370-573 | on the ledger of a replayed chain, and after any transactions of a next block, a transaction that validates executes if and only if it is no lock while staking is disabled and no unlock whose release height overflows |
| Mining.RicherApplies | deskachain/node/internal/ledger/maturity.go:370-432 | a transaction that runs runs on a ledger with more confirmed coins too, and leaves it richer |
| Mining.RicherAppliesAll | deskachain/node/internal/ledger/maturity.go:318-328 | and so does every list |
| Mining.CoinbaseGoesFirst | deskachain/node/internal/chain/blockchain.go:419-453 | what was tried on the tip's ledger without the coinbase still runs behind it |
| Mining.CoinbasePays | deskachain/node/internal/ledger/maturity.go:341-364 | within the supply limit a coinbase can be paid exactly when its recipient is a valid address |
| Templates.Fill | deskachain/node/internal/chain/blockchain.go:417-437 | the trial loop keeps each selected transaction that is small enough and runs behind those kept, until the template is full; it fails exactly when the kept fees overflow |
| Templates.NextNonces | deskachain/node/internal/chain/blockchain.go:399-412 | the next nonce of every pending sender, or a failure exactly when one has used them up |
| Templates.Choose | deskachain/node/internal/chain/blockchain.go:399-416 | fails exactly on a used-up nonce or an unselectable pool; otherwise a complete greedy selection under the network's gas limit |
| Templates.Assemble | deskachain/node/internal/chain/blockchain.go:438-466 | the coinbase in front of what was kept, and the root of the executed draft in a canonical block; a failure means no template exists |
| Templates.BuildTemplate | deskachain/node/internal/chain/blockchain.go:382-467 | on the stored chain: a selection and its template, or a failure for one of the listed reasons |
| Templates.KeptShape | deskachain/node/internal/chain/blockchain.go:417-437 | nothing too large, nothing unselected, and at most as many as the count limit says are kept |
| Templates.MinedIffFits | deskachain/node/internal/chain/blockchain.go:382-467 | while the supply fits 64 bits a mined template is a valid next block if and only if the miner's address is valid, the clock is not behind the tip, the versions exist, and count, coinbase size, block size and unlimited gas fit |
| Templates.MinedFromPool | deskachain/node/internal/chain/blockchain.go:382-467 | the same from any pool, while the supply fits 64 bits: a block mined from it validates and executes if and only if it fits |
| Templates.CountExceededIffFull | deskachain/node/internal/chain/blockchain.go:434-436 | the count limit is exceeded if and only if the template filled up to it |
| Templates.OneIsOneTooMany | deskachain/node/internal/chain/resources.go:39-45 | with a limit of one no block with a pending transaction can be mined: the template takes it and the coinbase |
| IdealHash.IdsTell | deskachain/node/internal/types/transaction.go:301-359 | packing the preimage fields into one string gives ids that are equal exactly for equal preimages |
| IdealHash.SettingHolds | deskachain/node/internal/chain/validation.go:41-52 | the setting of the witnesses occurs, with hashes that tell preimages, pairs and headers apart |
| IdealHash.HeadersTell | deskachain/node/internal/types/block.go:79-98 | equal block hashes there mean equal height, parent, time and Merkle root |
| IdealHash.InputsOccur | deskachain/node/internal/chain/validation.go:135-245 | every input the witnesses ask for occurs there, all over one genesis |
| Witnesses.StoredButNotValid | deskachain/node/internal/chain/validation.go:75-83 | two blocks with one coinbase id: stored one after the other, replayed, and refused by whole-chain validation |
| Witnesses.AllowedButNotAboveTip | deskachain/node/internal/storage/bbolt.go:420-422 | a node that is behind: the plan is to apply the peer's longer chain, which cannot be stored |
| Witnesses.AllowedButWrongRoot | deskachain/node/internal/storage/bbolt.go:416-418 | a branch with more work that validates and replays, refused for the root on its pre-canonical tip |
| Witnesses.LockValidatesOnly | deskachain/node/internal/staking/staking.go:77-80 | staking disabled: on the ledger of a stored chain a stake lock validates and cannot be executed |
| Witnesses.StaleIndex | deskachain/node/internal/rpc/explorer_indexer.go:280-288 | a longer branch with the same block hash, whose coinbase copy names a fee payer: valid, worth the reorganisation, storable, and the next pass leaves an index that is not the new chain's |
| Witnesses.ReportExceedsOwned | deskachain/node/internal/ledger/ledger.go:203-222 | a valid chain with one burned unit of fee: the report says 20, the accounts own 19 |
| Accounts.AppliedIsAgreed | deskachain/node/internal/ledger/asset_execution.go:14-71 | whatever is applied carries its sender's signature under its own id and the sender's next nonce; whoever pays its fee is the sender or a sponsor who signed for it on a network with sponsors |
| Accounts.AccountStatement | deskachain/node/internal/ledger/maturity.go:128-139 | over every replayed chain an address owns exactly the coinbases, transfers and block fees paid to it less what it transferred and paid in fees |
| Accounts.TokenStatement | deskachain/node/internal/ledger/maturity.go:128-139 | the same of every issued asset: received and minted to it less sent and burned by it |
| Accounts.StakeStatement | deskachain/node/internal/staking/staking.go:77-142 | every stake record goes back to a lock of its amount signed by its owner, and an unlocking or released one to an unlock signed by its owner |
| Accounts.NothingWithoutConsent | deskachain/node/internal/ledger/maturity.go:310-339 | from a replayed chain to its next block an address loses coins or tokens, has its nonce used or its stake locked or unlocked only if the block holds a transaction it signed or whose fee it signed for |
| Accounts.ChainIsAgreed | deskachain/node/internal/ledger/maturity.go:434-554 | every transaction of a replayed chain but the coinbases is signed by its sender, and its fee payer agreed |
| Issuance.DerivedFromHex | deskachain/node/internal/asset/model.go:71-73 | a hexadecimal id is used as it is, so different creations name different assets |
| Issuance.CreationDefines | deskachain/node/internal/ledger/asset_execution.go:309-321 | a creation adds exactly one definition, under the id derived from its own, with its sender as issuer and its name, symbol, decimals, cap and four flags, supply 0, held by nobody |
| Issuance.AssetStatement | deskachain/node/internal/asset/state.go:176-259 | over every replayed chain: some transaction created the asset on the terms it has; what circulates is what was minted less what was burned, at most the cap that transaction named; only its sender minted, and mints and burns happened only if it allowed them |
| Issuance.CreationStands | deskachain/node/internal/asset/state.go:153-190 | and every creation of the chain still has its asset, on its terms |
| Acceptance.CoinTransferRunsIff | deskachain/node/internal/ledger/asset_execution.go:14-177 | in a sound ledger a v3 coin transfer runs if and only if it is its sender's signed next transaction to another valid address, its fee is acceptable and agreed to, and amount and fee are within the spendable balances |
| Acceptance.SpendableIsWhatRuns | deskachain/node/internal/ledger/maturity.go:575-641 | for a self-paid transfer: amount and fee together are at most the spendable amount of the balance details |
| Acceptance.TokenTransferRunsIff | deskachain/node/internal/ledger/asset_execution.go:14-177 | the same of a transfer of an issued asset: what the sender holds covers the amount, what the payer may spend the fee |
| Acceptance.MintRunsIff | deskachain/node/internal/ledger/asset_execution.go:14-177 | of a mint: by the issuer of a mintable asset, within cap and 64 bits |
| Acceptance.BurnRunsIff | deskachain/node/internal/ledger/asset_execution.go:14-177 | of a burn: of a burnable asset by a holder of that much |
| Acceptance.CreateRunsIff | deskachain/node/internal/ledger/asset_execution.go:14-177 | of a creation: under the derived id, still free, with a name, a symbol of 1 to 16 characters and at most 18 decimals |
| Acceptance.EarlierTransferRunsIff | deskachain/node/internal/ledger/maturity.go:377-552 | of a pre-v3 transfer: amount plus fee are spendable |
| Acceptance.LockRunsIff | deskachain/node/internal/ledger/maturity.go:416-573 | of a stake lock: staking is on, the least stake is met and spendable, the count of active stakes below its limit, the id free |
| Acceptance.UnlockRunsIff | deskachain/node/internal/ledger/maturity.go:416-573 | of an unlock: the sender's own active stake, and the release height fits |
| Acceptance.OtherKindsNeverRun | deskachain/node/internal/ledger/maturity.go:434-475 | no other kind runs: stakes only before v3, assets only from v3 on |
| Acceptance.ForeseenIff | deskachain/node/internal/ledger/maturity.go:588-608 | what a pending transaction does to what an address may spend is what the details foresee if and only if it is no fee-paying asset operation of that address and no pre-v3 transfer that names another asset or fee payer to its profit or cost |
| Acceptance.PendingIsHeldBack | deskachain/node/internal/ledger/maturity.go:575-641 | where that holds of all that is pending: after it has run, the spendable amount is what the details showed plus what came in |
| Consensus.GenesisLooks | deskachain/node/internal/chain/validation.go:41-55 | the first block of a stored chain agrees with the network's genesis in height, hash, parent, time, root and marker, and its hash is its own |
| Consensus.HeaderLooks | deskachain/node/internal/chain/validation.go:135-162 | every later block names its parent, has the next height, a time between its parent's and the drift past the clock, the difficulty due, its own hash meeting it, the root of its transactions, a valid miner and the network's version |
| Consensus.SizeLooks | deskachain/node/internal/chain/resources.go:36-75 | it is within the limits on count, transaction size, block size and gas, configured or default |
| Consensus.CoinbaseLooks | deskachain/node/internal/chain/validation.go:163-225 | its first transaction and no other is a coinbase, of the right sender, under its own id, over exactly the subsidy, or before v3 the fixed reward and the fees of transfers |
| Consensus.TransactionsLook | deskachain/node/internal/chain/validation.go:186-205 | its other transactions have an active version, move something, are not sent to their sender, pay an acceptable fee, and are signed and paid for by those who agreed |
| Selection.DearestHeadFirst | deskachain/node/internal/mempool/selection.go:81-124 | in figures: a pick's fee times a competing head's gas is at least that head's fee times the pick's gas; on a tie its fee is no lower; on equal fees its gas no higher |
| Selection.DearerFirst | deskachain/node/internal/mempool/selection.go:81-124 | in the output a transaction stands behind another sender's cheaper one only if an earlier nonce of its own sender held it back |
| Selection.SelectionIsFull | deskachain/node/internal/mempool/selection.go:84-103 | it ends only when every sender's next transaction would exceed the gas limit, and without a limit when all queues are empty |
| Selection.SelectedIsFit | deskachain/node/internal/mempool/selection.go:21-45 | what is selected pays an acceptable fee, has an active version, and of v3 a sound envelope and a fee payer who signed |
| Admission.SelectedDearerFirst | deskachain/node/internal/mempool/admission.go:120-145 | in figures: the output is in falling order of fee per gas, then fee, then rising gas, then id |
| Admission.LeftOutExceeds | deskachain/node/internal/mempool/admission.go:136-145 | without a limit everything is taken; under one, whatever is left out would exceed it |
| Text.LessAtFirstDifference | deskachain/node/internal/p2p/reorg.go:394-403 | strings are ordered by their first differing character, a prefix first |
| Difficulty.ParametersUsed | deskachain/node/internal/chain/pow.go:105-129 | configured parameters are used as they are, missing ones have the defaults: 4, 1, the initial difficulty as the largest, 10, 10 and 900 |
| Difficulty.RetargetRule | deskachain/node/internal/chain/pow.go:60-99 | at a positive height that is a multiple of the window, for any tip difficulty within the range: one more if and only if there is room and the window took no time or less than half the expected, one less if and only if there is room and it took more than twice the expected, else the same |
| Difficulty.LargestWraps | deskachain/node/internal/chain/pow.go:91-98 | the exception: the largest 32-bit difficulty wraps when raised, and the least of the range comes out |
| Difficulty.BetweenRetargets | deskachain/node/internal/chain/pow.go:60-76 | at other heights it is the tip's brought into the range, and above the genesis the initial one |
| Difficulty.WorkOfDifficulty | deskachain/node/internal/chain/locator.go:70-85 | a step of difficulty is sixteen times the work, from 1 at 0 up to the saturated value from 16 on |
| Fees.GasOfEachKind | deskachain/node/internal/fees/policy.go:27-65 | what each kind costs in terms of the configured prices, the native and the issued-asset transfer apart, plus the started units of its size; within the limit of a transaction |
| Fees.UnmeteredIsFree | deskachain/node/internal/fees/policy.go:27-34 | coinbases, transactions before v3, and networks without fees need no gas and no fee |
| Recovery.RunsAreKept | deskachain/node/internal/p2p/reorg.go:389-439 | listed in whatever order, transactions that apply sender by sender in the order of their nonces are all kept, in that order |
| Recovery.RunIsKept | deskachain/node/internal/p2p/reorg.go:389-439 | among others, one sender's run is kept whole when it applies behind what was kept before it |
| Recovery.KeptStays | deskachain/node/internal/p2p/reorg.go:389-439 | what comes later in the order never takes back what was kept |
| Recovery.DroppedForAReason | deskachain/node/internal/p2p/reorg.go:404-438 | whatever is not kept is a coinbase, confirmed, repeated, inadmissible, behind a full pool, or refused by the ledger after those kept before it |
| Recovery.TryOrphan | deskachain/node/internal/p2p/reorg.go:301-314 | one orphan: applied and appended, counted as repeated, or refused by the ledger as it stands |
| Explorer.HistoryIffParty | deskachain/node/internal/rpc/explorer_indexer.go:173-197 | an address has an entry for a transaction at a height if and only if the transaction is in an indexed block of that height and the address is its sender, recipient or fee payer |
| Explorer.BlockInvolves | deskachain/node/internal/types/transaction.go:263-268 | where the fee payer is the sender when none is named |
| Explorer.HistoryIsTrue | deskachain/node/internal/rpc/explorer_indexer.go:179-197 | every entry tells of such a transaction: role, other party, asset, amount and fee are the transaction's |
| Explorer.AssetEventIffNamed | deskachain/node/internal/rpc/explorer_indexer.go:198-207 | an issued asset has an event for exactly the transactions that name it, the native coin none |
| Explorer.PageGoesDown | deskachain/node/internal/rpc/explorer_indexer.go:568-573 | a page falls in height, and in id within a height |
| ForkChoice.HonestPeerIsFollowed | deskachain/node/internal/p2p/reorg.go:78-211 | a peer serving a valid chain of more work is followed whenever twice its branch, and its branch with ours, are within the limits: the locator never finds an ancestor too low for that |
| Snapshots.ValidIsImportable | deskachain/node/internal/state/snapshot.go:152-265 | a snapshot that passes validation can be loaded: nothing is listed twice, no definition or entry is refused |
| Snapshots.ValidBooksAgree | deskachain/node/internal/state/snapshot.go:152-265 | and every listed account's native balance is then its confirmed one |
| Templates.KeptWhole | deskachain/node/internal/chain/blockchain.go:417-437 | a selection that is small enough in each transaction and in number, and runs as a whole, is kept whole |
| Assets.NativeNames | deskachain/node/internal/asset/model.go:75-77 | case and surrounding space do not hide the native asset, and other names are not taken for it |
| Balances.DetailsAddUp | deskachain/node/internal/ledger/maturity.go:612-640 | in a coherent ledger confirmed = mature + immature, immature is what coinbases still owe the address, and with nothing pending mature = spendable + active + unlocking stake |
| Balances.LockShows | deskachain/node/internal/staking/staking.go:77-103 | a lock shows as active stake of its sender, and changes nothing else of what is shown as staked |
| Balances.UnlockShows | deskachain/node/internal/staking/staking.go:105-129 | an unlock moves its amount from active to unlocking, and nothing becomes spendable |
| Balances.ReleaseShows | deskachain/node/internal/staking/staking.go:135-175 | the passing of height only moves stake from unlocking to released |
| Explorer.HistoryOfBlocks | deskachain/node/internal/rpc/explorer_indexer.go:162-197 | every entry of a chain's index tells of a transaction of one of its blocks: height, hash, id, role, both parties, asset, amount and fee are that transaction's |
| Templates.MinerIsPaid | deskachain/node/internal/chain/blockchain.go:438-466 | the template's coinbase pays its miner exactly the reward, and all else in it was selected |

## Left out

- Error texts and error identities: every failure is one value.
- Networking, HTTP, the command line, file and database I/O: peer replies are arbitrary inputs, a database transaction is one atomic step, and a transaction pool file is a list.
- Cryptography and JSON sizes: arbitrary functions; nothing is proved about SHA-256, RIPEMD-160 or the signature schemes.
- The `Matured` flag of a coinbase credit: no code sets it, so the model has no such field.
- Order of exported accounts, stakes, definitions and balances: exported lists are sets, because their order comes from map iteration.
- String comparisons treat a string as its characters: Unicode white space and multi-byte characters are not modelled.
- The simple ledger on v3 transactions: it follows one fixed profile, and what it does with token operations is not what any ledger of the asset model does; it is compared with the mature ledger on pre-v3 transactions.
- The proof-of-work search: a mined block is the template with any nonce that meets the target. Cancelling it, its nonce limit and its progress reports are left out.
- Templates on networks without the asset model: built, but whether they are accepted is stated with the asset model on, which the store relies on.
- The fork status report.
- Asset event pages of the explorer: the same algorithm as address history, on another bucket.
- The explorer's metrics, peer reputation, faucet, service agent and job status: counters and clamps.
- The network-specific fallback of 128 for the reorganisation depth: every built-in profile configures its depth, and otherwise the model uses 64.
- MatureLedgers.MatureLedger.ApplyTransactionAtHeight: not stated for coinbase transactions, which every caller filters out first.
- MatureLedgers.MatureLedger.ApplyLegacyTransfer: a failure is shown to leave no trace only while the three views of the native coin agree (or without the asset model), which every reachable ledger satisfies.
- MatureLedgers.MatureLedger.Apply: the new state is not described when a block lies below the ledger's height, where lazily released stakes would stay released; no caller does this.
- MatureLedgers.ReplayMature: for the same reason stated for blocks of non-decreasing height.
- Validation.ValidateBlock: assumes what both callers have just checked, that heights do not fall along the prior blocks and up to the block.
- Validation.ValidateNextBlock: assumes that heights do not fall along the stored blocks, which every stored chain satisfies.
- Validation.ValidateStateRoot: assumes that the block does not lie below the candidate ledger's height; its caller hands it the ledger replayed from the blocks before it.
- Snapshots.SnapshotAfterBlock: stated for snapshots exported from a reachable ledger with the asset model on; the state root recomputed by the snapshot's validation is left out, because the root is an arbitrary function of the collections stored with them. Without the asset model rebuilt ledgers are not modelled.
- Nodes.Blockchain.ReplaceFromHeight: stated for branches that validate on the kept prefix, as its caller has just established.
- Nodes.Blockchain.AddBlock: the persisted snapshot is always the one of the stored chain, because both are written in one transaction; a damaged store is not modelled.
- ForkChoice.FetchBranch: heights are not wrapped, so a peer claiming height 2^64 - 1 within the fetch limit, on which the source's counter would start again at 0, ends here.
- Difficulty.RetargetRule: time spans are unbounded; that the expected one, target times window, could wrap at 64 bits for an absurd configuration is not modelled.
- Admission.Admit: stated for pools that admission itself has built up.
- Merkle.CalculateMerkleRoot: takes the list of ids; hashing a transaction that carries no id in place is left out, and no accepted block holds one.
- Explorer.ExplorerIndexer.Sync: stated for what the store lists, one block for a height, none without a hash. Bucket keys are tuples; that an address containing the separator character could share a key prefix with another is not modelled, and such addresses do not validate.
- Balances.BalanceDetailsFromState: the coinbase maturity and height copied into the result are left out.
- Amounts.ParseUnits: not stated from 64 decimals on, where the source divides by zero once the text has passed its first checks; asset definitions allow at most 18.
- Amounts.FormatUnits: likewise.
- Assets.AssetState.Restore: stated for a new state and for lists without repeats, which is what exports produce; the source also takes repeated entries and adds them up.
- Snapshots.NewMatureFromStateWithAssets: for the same reason stated for collections without repeats.
- Snapshots.Rebuild: stated for exports of sound ledgers with the asset model on.
- Validation.ValidateExecution: assumes, as ValidateBlock does, that heights do not fall along the prior blocks.
- Locators.AgreementGoesDown: needs that blocks with equal hashes at one height of the two chains name one parent, which the hash function has to provide.
- Locators.AncestorBound: likewise.
- SimpleLedgers.SimpleLedger.ApplyTransaction: not stated for coinbase transactions, which its only caller filters out first.
