# Verified models of the Nebula Nomad contract modules

The contract is a set of modules over a key-value store with a ledger clock that never goes backwards.
Nine of them are modelled here, each in the same three layers:

- `*Model.dfy`: the stored state as a value and every operation as a function on it, error paths included;
- `*Proofs.dfy`, `*Runs.dfy`, `*Sweeps.dfy`, `*Proposals.dfy`, `*History.dfy`: the properties, most of them about every
  run of calls, and `*Exact.dfy`, `AccessMeaning.dfy`: exactly when each call succeeds and what it computes;
- `*Contract.dfy`: a class with the stored fields, whose methods do what the source does step by step (loops,
  early returns, several storage writes) and are proved to compute exactly the functions of the model.

`Host.dfy` holds what the modules share (addresses, symbols, machine-integer bounds, saturation, truncating
division), `Arith.dfy` and `Sums.dfy` a few facts about products, quotients, remainders and sums over maps, and
`PruneRing.dfy` the bounded round-robin scan of one cache namespace.

A call that returns an error leaves the state as it was, as the ledger host rolls it back. The crate is built with
overflow checks, so plain arithmetic that overflows aborts the call; this is a `HostPanic`, `ArithmeticOverflow` or
`None` outcome in the models. Machine integers are unbounded integers with the source's bounds, saturation and
truncation written out.

## What the code does and its documentation does not say

- **Prices close to 2^127.** `deviation_bps` saturates, so a print far below such an average can be accepted and,
  repeated after the cooldown, rejected; `SaturatedRepeatRejected` is such a run. `SafeAlong` walks the averaging step
  and asks the guard at the last average whose gap saturates and the first whose gap does not. It holds exactly when
  every average the repeated print leads through accepts it (`SafeAlongExactly`), and exactly when a run of as many
  repetitions as the initial gap accepts them all (`RepeatsAcceptedExactly`); the average then reaches the print
  (`RepeatedPrintConverges`). `SafeToRepeat` needs no walk and suffices for every smoothing
  (`SafeToRepeatIsSafeAlong`); below saturation acceptance alone does (`UnsaturatedIsSafe`).
- **Averaging.** The comment on `ema_step` says its division floors; it truncates toward zero, and so does the model.
- **A full namespace.** The documentation speaks of 100 live keys. A new key is refused exactly when 100 keys are
  indexed and none of the next 20 from the prune cursor is dead (`FullExactly`); a dead key further on does not help,
  as the run of `FullWithDeadKey` shows.
- **The prune cursor.** It resumes at the first unexamined key exactly when the scan did not wrap, or the number of
  removed keys in front of that key is a multiple of what is left (`CursorExactness`). Progress does not depend on it.
- **Delegated roles.** A direct grant, even an expired one, decides alone and hides a live delegation
  (`ExpiredGrantHidesDelegation`). A role is held by record or delegation exactly where no dead record stands beside a
  live delegation (`EitherCountsExactly`), at all ledgers exactly when no delegation outlives a record of its holder
  (`EitherAlwaysCountsExactly`), and after every run that never granted the role to its holder with an expiry
  (`NoExpiryNoHiding`).
- **Event IDs.** They strictly increase exactly when every timestamp leaves room for its records before the next
  timestamp used and no ID but the last reaches the u64 bound (`IdsIncreaseExactly`); a run of a million and one
  records in one second collides with the next second (`TooManyRecordsCollide`). Burst IDs are consecutive exactly while they fit.
- **Listing slots.** The counter equals the number of active offers throughout a run exactly when no seller's active
  offers ever exceed the u32 range (`SlotsExactExactly`); automatic listing counts slots but is not capped by them,
  so a run can part the two (`SlotsPart`).
- **Browsing.** A page limit of zero returns the cursor it was given, and only then (`PageMoves`).
- **The reward calendar.** Its comment says that no two adjacent days repeat a kind; they do exactly on days that
  leave remainder 5 modulo 6 (`AdjacentKinds`).
- **The exporter.** `i128::MIN` cannot be printed, because its negation overflows; the compressed format has no
  last-updated field.
- **Audit queries.** The limit bounds the entries examined from the oldest retained one, not the matches returned.

## Model

| member | source | states |
|---|---|---|
| PruneRing.SweepEffect | src/cache_ttl_manager.rs:361-425 | a prune call removes only dead indexed keys, each once, at most a batch of them, and keeps all others in order |
| PruneRing.IdleSweepAdvances | src/cache_ttl_manager.rs:361-425 | a call that removes nothing examined its whole window and moves the cursor just past it |
| PruneRing.WindowIsSearched | src/cache_ttl_manager.rs:367-387 | a dead key inside the window is never missed |
| PruneRing.RemovedExactly | src/cache_ttl_manager.rs:361-387 | a call removes the first dead keys among the next min(len, 4 * batch), in the order met, as many as its batch of at most 50 allows |
| PruneRing.SweepsProgress | src/cache_ttl_manager.rs:361-425 | if any indexed key is dead, any number of calls whose windows together cover the index removes something, wherever the cursor stands |
| PruneRing.CallsPerRound | src/cache_ttl_manager.rs:52-63 | it is the least number of calls whose windows cover the index, ceil(len / min(len, 4 * batch)) |
| PruneRing.SweepsClear | src/cache_ttl_manager.rs:361-425 | one such round per dead key leaves exactly the live keys, in order |
| PruneRing.FullBatchIsExhaustive | src/cache_ttl_manager.rs:348-425 | a batch of 50 removes min(dead, 50) of at most 100 keys, and fewer than 50 removals leave only live keys |
| PruneRing.CursorExactness | src/cache_ttl_manager.rs:389-408 | the cursor points at the first unexamined key if and only if the scan did not wrap or the removals in front of it are a multiple of the remaining length |
| CacheProofs.PruneEffect | src/cache_ttl_manager.rs:361-461 | a prune deletes the values and flags of exactly the removed keys, and touches no other namespace's index |
| CacheProofs.PruneInvisible | src/cache_ttl_manager.rs:361-461 | no reader, now or later, is served anything different because of a prune |
| CacheProofs.PruneKeepsValid | src/cache_ttl_manager.rs:361-425 | every index stays duplicate-free, at most 100 long and equal to the set of stored keys |
| CacheProofs.StepAgrees | src/cache_ttl_manager.rs:169-350 | every call keeps the index invariant and the agreement with a cache that never prunes |
| CacheProofs.RunAgrees | src/cache_ttl_manager.rs:169-461 | the invariant and the agreement hold after every run under non-decreasing time |
| CacheProofs.CacheMatchesReference | src/cache_ttl_manager.rs:169-254 | after every run a read answers Ok(v) exactly when the reference serves v (last accepted write, not invalidated since, age at most its TTL), and not-found exactly for keys that are not indexed |
| CacheProofs.DeadExactly | src/cache_ttl_manager.rs:446-461 | what is prunable is exactly what is indexed and no longer served |
| CacheProofs.DeadForEver | src/cache_ttl_manager.rs:446-461 | a prunable key is never served again |
| CacheProofs.ReadExactly | src/cache_ttl_manager.rs:220-254 | exactly when a read succeeds, expires or finds nothing, and the one flag it raises |
| CacheSweeps.PruningClears | src/cache_ttl_manager.rs:361-425 | on the stored cache, at a fixed time, one round of calls removes something if anything is dead, and one round per dead key leaves nothing prunable |
| CacheSweeps.ClearStaleIsExhaustive | src/cache_ttl_manager.rs:344-350 | clearing removes min(dead, 50) entries, and fewer than 50 means that nothing prunable is left |
| CacheSweeps.AutoPruneFindsNothing | src/cache_ttl_manager.rs:182-191 | the prune before a refused write finds nothing if and only if the next 20 keys from the cursor are live |
| CacheSweeps.FullExactly | src/cache_ttl_manager.rs:165-191 | a write fails as full if and only if its key is new, 100 keys are indexed and none of the next 20 is dead |
| CacheSweeps.AcceptedExactly | src/cache_ttl_manager.rs:169-205 | a write is accepted if and only if its TTL is positive and its key is indexed, or there is room, or one of the next 20 keys is dead; it is invalid if and only if the TTL is zero |
| CacheSweeps.WrittenIsServed | src/cache_ttl_manager.rs:169-254 | after every run such a write, also to a key already cached, is served back from then on until its TTL has passed, and not after |
| CacheSweeps.FullWithDeadKey | src/cache_ttl_manager.rs:165-191 | a run of 100 writes after which a write is refused as full although an indexed key is dead |
| CacheContract.TtlCache.CacheWithTtl | src/cache_ttl_manager.rs:169-217 | outcome and whole new storage of a write, including the automatic prune of a full namespace |
| CacheContract.TtlCache.GetCachedWithTtl | src/cache_ttl_manager.rs:220-254 | outcome of a read and the stale flag it raises on an expired entry |
| CacheContract.TtlCache.IsCacheValid | src/cache_ttl_manager.rs:257-276 | true exactly when a read would serve a value |
| CacheContract.TtlCache.InvalidateCacheEntry | src/cache_ttl_manager.rs:303-312 | only the stale flag of the slot is raised |
| CacheContract.TtlCache.InvalidateNamespace | src/cache_ttl_manager.rs:319-342 | every indexed entry of the namespace is deleted with its index and cursor, and counted; no other namespace changes |
| CacheContract.TtlCache.ClearStaleEntries | src/cache_ttl_manager.rs:348-350 | a prune with the largest batch |
| CacheContract.TtlCache.PruneExpiredEntries | src/cache_ttl_manager.rs:361-425 | the loops over the index compute the ring sweep: removed keys, storage, index and cursor |
| CacheContract.TtlCache.RemoveDeadKeys | src/cache_ttl_manager.rs:376-387 | the scan stops at its window or its limit, and deletes exactly the dead keys it met |
| CacheContract.TtlCache.ShrinkIndex | src/cache_ttl_manager.rs:389-417 | index and cursor after a scan; an emptied namespace loses both |
| CacheContract.TtlCache.RemoveEntry | src/cache_ttl_manager.rs:435-442 | value and flag of one slot go, nothing else |
| PricingProofs.EmaStepBetween | src/dynamic_pricing.rs:227-242 | a step lands between the old average and the print, moves if they differ, by at most the smoothing share or one unit, and never below 1 |
| PricingProofs.EmaStepCloser | src/dynamic_pricing.rs:227-242 | the gap to the print strictly shrinks |
| PricingProofs.EmaReachesPrint | src/dynamic_pricing.rs:221-242 | a repeated print is reached after at most as many steps as the initial gap |
| PricingExact.EmaStepExactly | src/dynamic_pricing.rs:227-242 | a step moves the average toward the print by exactly max(1, min(gap * smoothing, i128::MAX) / 10000) |
| PricingExact.EmaDecays | src/dynamic_pricing.rs:227-242 | after n repetitions the gap is gap * (1 - smoothing / 10000)^n, up to 10000 / smoothing either way |
| PricingExact.SaturationEnds | src/dynamic_pricing.rs:227-242 | ten thousand repetitions bring every pair of prices out of saturation |
| PricingExact.EmaReachesSoon | src/dynamic_pricing.rs:221-242 | once the decayed gap is at most k, k + 10000 / smoothing + 1 further repetitions reach the print |
| PricingProofs.DeviationShrinks | src/dynamic_pricing.rs:245-256 | below saturation an average closer to the print deviates no more from it |
| PricingProofs.SafeAlongExactly | src/dynamic_pricing.rs:227-256 | the guard accepts a print at every average its repetition leads through if and only if it does so at the last saturated and the first unsaturated one |
| PricingProofs.SafeToRepeatExactly | src/dynamic_pricing.rs:245-256 | three evaluations of the guard decide whether every average whatsoever between the present one and a print accepts it |
| PricingProofs.SafeToRepeatIsSafeAlong | src/dynamic_pricing.rs:227-256 | the test without a walk suffices, whatever the smoothing |
| PricingProofs.UnsaturatedIsSafe | src/dynamic_pricing.rs:245-256 | below saturation an accepted print is safe to repeat |
| PricingProofs.RepeatStaysAcceptable | src/dynamic_pricing.rs:427-450 | a print safe along the way is accepted, accepted again after it moved the average, and stays safe |
| PricingRuns.SaturatedRepeatRejected | src/dynamic_pricing.rs:427-450 | a run of init, seed and the same print twice, each after the cooldown, in which the second is rejected |
| PricingProofs.EwmaBetween | src/dynamic_pricing.rs:260-268 | volatility moves strictly toward the sample and never past it |
| PricingExact.EwmaStepExactly | src/dynamic_pricing.rs:260-268 | volatility moves toward the sample by exactly max(1, distance * smoothing / 10000) |
| PricingProofs.BandBetween | src/dynamic_pricing.rs:285-302 | the band lies between base and maximum, is non-decreasing in volatility and meets both ends |
| PricingExact.BandExactly | src/dynamic_pricing.rs:285-302 | above its base the band is the largest whole part of the headroom that the volatility calls for |
| PricingProofs.PublishedInBand | src/dynamic_pricing.rs:595-616 | the published price lies in a non-empty band around the average and is at least 1 |
| PricingProofs.NudgeDirection | src/dynamic_pricing.rs:595-616 | no nudge publishes the average itself; otherwise the price leans the way of the bounded nudge |
| PricingExact.PublishedExactly | src/dynamic_pricing.rs:595-616 | the published price is the average moved by exactly the share of the nudge, capped by its limit and by the band |
| PricingProofs.StepGrowth | src/dynamic_pricing.rs:427-450 | an accepted print raises the average by at most (maxDeviation + 1) * smoothing / 10^8 of it, plus one |
| PricingRuns.StepOk | src/dynamic_pricing.rs:389-474 | every call keeps prices positive, update times in the past, the configuration valid and the history bounded and in band |
| PricingRuns.RunOk | src/dynamic_pricing.rs:307-555 | the invariant holds after every run |
| PricingRuns.ReachablePriceInBand | src/dynamic_pricing.rs:356-616 | in every reachable state every published price is at least 1 and in the band around its average |
| PricingRuns.CallOnResource | src/dynamic_pricing.rs:389-534 | one call folds a print after its cooldown, counts a rejection, moves the nudge, or leaves the resource alone |
| PricingExact.PrintExactly | src/dynamic_pricing.rs:389-474 | exactly when a print is taken, and every field of its resource afterwards: seeded, folded in or only counted |
| PricingExact.ReportExactly | src/dynamic_pricing.rs:482-534 | exactly when a supply/demand report is taken, and the clamped nudge of ten basis points per thousandth off balance |
| PricingExact.ConfigExactly | src/dynamic_pricing.rs:307-374 | the limits of every parameter decide exactly when a configuration is taken, and the default |
| PricingExact.HistoryIsLatest | src/dynamic_pricing.rs:543-555 | after every run the history is the last 24 points recorded, the latest folded print last |
| PricingRuns.RejectedPrintHarmless | src/dynamic_pricing.rs:431-441 | of a rejected print exactly the two rejection fields of its resource change: no price, history, time or configuration |
| PricingRuns.VolatilityCapped | src/dynamic_pricing.rs:389-474 | after every run from a new engine without a change of configuration, volatility is at most the deviation cap |
| PricingRuns.CompoundBound | src/dynamic_pricing.rs:389-474 | with prices at most i128::MAX / 10000, n accepted prints leave the average at most (s0 + n) * (1 + r)^n |
| PricingRuns.CooldownsPassed | src/dynamic_pricing.rs:424-448 | n accepted prints of any size advance the update time by at least n cooldowns |
| PricingRuns.AcceptedAtMostElapsed | src/dynamic_pricing.rs:424-448 | for a positive cooldown n is at most elapsed time / cooldown |
| PricingRuns.RepeatsFollow | src/dynamic_pricing.rs:389-474 | repetitions after each cooldown are all accepted if and only if the averages they meet accept them, and the average then follows the averaging step |
| PricingRuns.RepeatedPrintConverges | src/dynamic_pricing.rs:389-474 | a print safe along the way is accepted every time it is repeated and the average reaches it |
| PricingRuns.RepeatsAcceptedExactly | src/dynamic_pricing.rs:389-474 | as many repetitions as the initial gap are all accepted if and only if the print is safe along the way |
| PricingExact.RepeatsDecay | src/dynamic_pricing.rs:389-474 | over runs a safe print, repeated after each cooldown, is approached at exactly the geometric pace |
| PricingContract.PricingEngine.InitPricingConfig | src/dynamic_pricing.rs:307-324 | first configuration, or the error and no change |
| PricingContract.PricingEngine.SetPricingConfig | src/dynamic_pricing.rs:327-346 | admin check, validation, and the new configuration only |
| PricingContract.PricingEngine.ObservePrice | src/dynamic_pricing.rs:389-474 | seed, cooldown, rejection or averaging, with the whole new engine state |
| PricingContract.PricingEngine.PushHistory | src/dynamic_pricing.rs:543-555 | the newest 24 points, oldest dropped first |
| PricingContract.PricingEngine.ObserveSupplyDemand | src/dynamic_pricing.rs:482-534 | the clamped nudge of one resource, or the error and no change |
| AccessRuns.ApplyListed | src/access_control.rs:374-388 | every call keeps each role that is held or delegated in the list of known roles |
| AccessRuns.ReachableListed | src/access_control.rs:374-388 | so in every reachable state every held role is listed |
| AccessRuns.HolderListed | src/access_control.rs:424-447 | whoever holds a role, directly or by delegation, holds a listed one |
| AccessRuns.ListedSuffice | src/access_control.rs:643-676 | asking the listed roles gives the same answer as asking all roles whatsoever |
| AccessRuns.EffectMeans | src/access_control.rs:1139-1167 | for each operation, who holds which role, which permissions exist, who is admin and what is configured afterwards, and that nothing else changed |
| AccessRuns.GrantMeans | src/access_control.rs:489-525 | a grant gives the role to exactly the named addresses until it expires |
| AccessRuns.ExpiredGrantHidesDelegation | src/access_control.rs:424-447 | a run after which a live delegation does not count because of an expired grant |
| AccessRuns.EitherCountsExactly | src/access_control.rs:424-447 | at one ledger a role is held by live record or live delegation if and only if no dead record stands beside a live delegation |
| AccessRuns.EitherAlwaysCountsExactly | src/access_control.rs:424-447 | so at all ledgers if and only if no delegation outlives a record of its holder |
| AccessRuns.NoExpiryNoHiding | src/access_control.rs:424-447 | so after every run without a successful single, batch or executed grant of the role to its holder that carried an expiry |
| AccessMeaning.SucceedsExactly | src/access_control.rs:489-1380 | the exact conditions under which each of the seventeen calls succeeds; a failing call changes nothing |
| AccessMeaning.CallMeans | src/access_control.rs:489-1380 | after each call other than an execution, exactly the holders, permissions, links, admin, emergency and multi-sig settings it names have changed |
| AccessMeaning.EmergencyIsLatest | src/access_control.rs:1246-1263 | in every run emergency mode is off until the latest accepted switch says otherwise |
| AccessMeaning.ParentInherited | src/access_control.rs:1217-1243 | a linked role permits exactly its own actions and those of the first five roles on its parent's chain |
| AccessMeaning.HolderInherits | src/access_control.rs:457-472 | so its holders may do what that chain permits |
| AccessContract.ChainEnded | src/access_control.rs:457-472 | beyond the end of a parent chain no ancestor grants anything |
| AccessProposals.StepMatches | src/access_control.rs:944-1180 | every call keeps each proposal record in step with the history of successful calls |
| AccessProposals.RecordMatchesHistory | src/access_control.rs:944-1210 | in every run a proposal's operation, proposer, count, approvals, times and executed flag are those of its history |
| AccessProposals.ApproverWasSigner | src/access_control.rs:1023-1097 | everyone counted created or approved the proposal while being a signer |
| AccessProposals.ExecutionNeedsQuorumAndTimelock | src/access_control.rs:1106-1180 | an execution is the first, has the then-required number of distinct approvers and comes no earlier than creation plus the timelock at creation |
| AccessProposals.AtMostOneExecution | src/access_control.rs:1106-1210 | no run executes a proposal twice, and its count is the number of distinct approvers |
| AccessProposals.ExecutesExactly | src/access_control.rs:1106-1138 | an execution succeeds if and only if its history has a creation, no execution, the required approvals and the elapsed timelock |
| AccessProposals.ApprovesExactly | src/access_control.rs:1023-1097 | an approval succeeds if and only if a signer who has not approved the proposal gives it before the execution |
| AccessProposals.ExecutionPerforms | src/access_control.rs:1106-1180 | in every run an execution performs the operation of the creating call: the named holder, permission, admin or configuration changes and nothing else |
| AccessContract.AccessControl.HoldsRole | src/access_control.rs:424-447 | direct record first, delegation otherwise, both by expiry |
| AccessContract.AccessControl.RolePermits | src/access_control.rs:457-472 | the walk finds a permission if and only if one of the first six roles on the chain, cycles allowed, has it |
| AccessContract.AccessControl.CheckPermission | src/access_control.rs:643-676 | succeeds if and only if any role at all, listed or not, gives access, or an emergency role does in emergency mode |
| AccessContract.AccessControl.HoldsEmergencyRole | src/access_control.rs:650-659 | true exactly when some listed emergency role is held |
| AccessContract.AccessControl.FindSigner | src/access_control.rs:968-976 | true exactly when the address is a signer |
| AccessContract.AccessControl.RegisterKnownRole | src/access_control.rs:374-388 | the list gains the role unless it is there |
| AccessContract.AccessControl.InitRoles | src/access_control.rs:817-842 | the admin, the three listed roles and the membership of the admin, once |
| AccessContract.AccessControl.GrantRoleTo | src/access_control.rs:489-525 | whole new state of a grant, or the error and no change |
| AccessContract.AccessControl.GrantRoleBatch | src/access_control.rs:578-618 | the loop grants each named address, or nobody |
| AccessContract.AccessControl.RevokeRoleFrom | src/access_control.rs:540-563 | one membership record goes, or the error |
| AccessContract.AccessControl.TransferAdminTo | src/access_control.rs:767-797 | revoke, grant and new admin as one change |
| AccessContract.AccessControl.SetRoleParent | src/access_control.rs:1217-1243 | the parent link and the two listed roles |
| AccessContract.AccessControl.DelegateRole | src/access_control.rs:1302-1335 | only a holder delegates, and only until a later ledger |
| AccessContract.AccessControl.InitMultisig | src/access_control.rs:896-935 | validated signers, threshold and timelock |
| AccessContract.AccessControl.CreateProposal | src/access_control.rs:944-1012 | the next ID, the proposer's approval and the execution time, or the error and no change |
| AccessContract.AccessControl.ApproveProposal | src/access_control.rs:1023-1097 | one more distinct approval, or the error and no change |
| AccessContract.AccessControl.ExecuteProposal | src/access_control.rs:1106-1180 | all guards in order, then the executed mark and the operation's effect |
| AccessContract.AccessControl.PerformOperation | src/access_control.rs:1139-1167 | the effect of each operation, leaving all proposals alone |
| LeaderboardModel.InsertPoint | src/achievements.rs:1899-1914 | the first position whose points the newcomer reaches |
| LeaderboardProofs.MergedList | src/achievements.rs:1882-1914 | remove and insert keep one sorted entry per player: the newcomer's new one and everyone else's |
| LeaderboardProofs.RankedCut | src/achievements.rs:1916-1928 | whoever truncation drops has no more points than anyone kept |
| LeaderboardProofs.NewcomerNotOvertaken | src/achievements.rs:1874-1928 | an unlisted player never has more points than a newcomer who is kept, because points never decrease |
| LeaderboardProofs.NewcomerLeadsTies | src/achievements.rs:1899-1914 | everyone ahead of the latest unlock has strictly more points |
| LeaderboardProofs.UnlockOk | src/achievements.rs:1780-1928 | an unlock keeps the board sorted, ranked 1..n, one current entry per player, min(players, 100) long, with nobody unlisted ahead of anybody listed |
| LeaderboardProofs.RunOk | src/achievements.rs:1780-1928 | so after every run, and every player's tier counts add up to count and points |
| LeaderboardProofs.EveryoneListed | src/achievements.rs:1874-1928 | while there are at most 100 scorers, exactly the scorers are listed |
| LeaderboardHistory.StatsOfHistory | src/achievements.rs:1780-1829 | after every run a player's count, points, tier, secret and meta counters and completion are those of everything they unlocked |
| LeaderboardHistory.EntriesShowHistory | src/achievements.rs:1780-1928 | and their leaderboard entry shows that number and those points |
| LeaderboardContract.Achievements.TryUnlock | src/achievements.rs:1750-1776 | statistics then board, or nothing where the host aborts |
| LeaderboardContract.Achievements.IncrementPlayerStats | src/achievements.rs:1780-1829 | counters, points and completion of one player; fails exactly on overflow |
| LeaderboardContract.Achievements.RecordLeaderboardEntry | src/achievements.rs:1874-1928 | the loops remove, insert, cut at 100 and number |
| LeaderboardContract.Achievements.WithoutPlayer | src/achievements.rs:1882-1889 | all other players' entries, in order |
| LeaderboardContract.Achievements.InsertSorted | src/achievements.rs:1899-1914 | the loop inserts once, before the first entry with no more points |
| DexProofs.EscrowConserves | src/dex_integration.rs:226-269 | listing moves units into escrow and keeps the total of every resource |
| DexProofs.BuyConserves | src/dex_integration.rs:290-341 | so does a full or partial purchase |
| DexProofs.SellConserves | src/dex_integration.rs:361-417 | so does a sale into an order |
| DexProofs.CancelConserves | src/dex_integration.rs:502-535 | so does a cancellation |
| DexProofs.StepConserves | src/dex_integration.rs:170-535 | so does every call, successful or not |
| DexProofs.RunConserves | src/dex_integration.rs:170-535 | over every run, balances plus active offers of every resource are unchanged and offer IDs stay dense |
| DexProofs.BuyMoves | src/dex_integration.rs:290-341 | exactly the bought units move from the offer to the buyer; no other balance or offer changes |
| DexProofs.SellMoves | src/dex_integration.rs:361-417 | exactly the sold units move from seller to trader and off the order; nothing else changes |
| DexProofs.ListCancelRoundTrip | src/dex_integration.rs:170-188 | cancelling a listing always works and restores every balance, slot count and other offer |
| DexExact.ListExactly | src/dex_integration.rs:170-269 | a listing succeeds if and only if price and amount are positive, the seller has the amount, at most four slots are taken and an ID is left |
| DexExact.AutoListExactly | src/resource_minter.rs:852-902 | an automatic listing succeeds if and only if the price is positive, there is a balance and an ID is left |
| DexExact.BuyExactly | src/dex_integration.rs:290-341 | a purchase, whole or partial, succeeds if and only if the offer is active and not the buyer's own, the amount is in it, and price, cost and credit are within their limits |
| DexExact.SellExactly | src/dex_integration.rs:361-417 | the same for a sale into an order, which also needs the seller's units |
| DexExact.CancelExactly | src/dex_integration.rs:502-535 | a cancellation succeeds if and only if the offer is the owner's, active, and its units fit back |
| DexExact.ListMoves | src/dex_integration.rs:226-269 | a listing, of the amount given or of the whole balance, moves exactly that into a new offer under the next ID and opens one slot |
| DexExact.CancelMoves | src/dex_integration.rs:502-535 | a cancellation closes exactly its offer, returns what is left of it and frees one slot |
| DexExact.BuySlots | src/dex_integration.rs:319-326 | a purchase frees the slot exactly when it uses the offer up |
| DexExact.BuyComposes | src/dex_integration.rs:290-341 | buying in two parts succeeds whenever buying at once does, and leaves the same exchange |
| DexExact.SellComposes | src/dex_integration.rs:361-417 | so does selling into an order in two parts |
| DexExact.BuyThenCancel | src/dex_integration.rs:290-535 | after a partial purchase a cancellation returns exactly what was not sold |
| DexProofs.CloseSlots | src/dex_integration.rs:216-222 | closing an offer releases exactly its slot, and the decrement never meets zero |
| DexProofs.StepSlots | src/dex_integration.rs:191-222 | a call keeps a seller's counter exact if and only if the active offers fit a u32 |
| DexProofs.SlotsExactExactly | src/dex_integration.rs:191-222 | over whole runs, counters equal active offers throughout if and only if these fit a u32 throughout |
| DexProofs.SlotsPart | src/dex_integration.rs:191-222 | a run of 2^32 automatic listings on a new exchange that leaves the counter one short of the active offers |
| DexProofs.CappedSellerHoldsFive | src/dex_integration.rs:191-196 | a seller who never lists automatically never has more than five active offers |
| DexProofs.OffersInExact | src/dex_integration.rs:452-478 | a range of the book holds exactly its active matching offers, once each in ID order |
| DexProofs.PageMoves | src/dex_integration.rs:452-478 | the cursor stands still if and only if the limit is zero and offers are left |
| DexProofs.BrowseIsComplete | src/dex_integration.rs:452-478 | following the cursor with any positive limit ends and returns every active matching offer once, in ID order |
| DexExact.BrowseExactly | src/dex_integration.rs:452-478 | following the cursor returns exactly the active offers of the resource asked for, or all active offers, once each in ID order |
| DexExact.PageExactly | src/dex_integration.rs:452-478 | a page holds the matches up to its end, and ends early only when it is full (at most 50) or has examined 200 IDs |
| DexContract.Exchange.ListResource | src/dex_integration.rs:170-188 | slot check, escrow and new offer, or the error and no change |
| DexContract.Exchange.AutoListOnDex | src/resource_minter.rs:852-902 | the whole balance is listed, without the slot check |
| DexContract.Exchange.EscrowAndList | src/dex_integration.rs:226-269 | balance, offer, counter and slot after a listing |
| DexContract.Exchange.BuyOffer | src/dex_integration.rs:290-341 | guards in order, then offer, slot and buyer's balance, with the fill reported |
| DexContract.Exchange.SellToOrder | src/dex_integration.rs:361-417 | guards in order, then both balances and the order, with the fill reported |
| DexContract.Exchange.FillLimitOrder | src/trading.rs:276-303 | the order shrinks by the fill and goes when it is used up |
| DexContract.Exchange.CancelListing | src/dex_integration.rs:502-535 | offer closed, slot released, units returned |
| DexContract.Exchange.GetOpenOffers | src/dex_integration.rs:452-478 | the loop returns the page and next cursor of the specification |
| DexContract.Exchange.CreditResourceBalance | src/resource_minter.rs:685-698 | credit exactly when it fits a u32, otherwise no change |
| DexContract.Exchange.ReleaseListingSlot | src/dex_integration.rs:216-222 | the saturating decrement of one seller's counter |
| AuditProofs.PruneEndIsLongest | src/audit_logger.rs:241-278 | exactly the longest policy-violating prefix within the limit is pruned |
| AuditProofs.PruneUpToSplit | src/audit_logger.rs:241-278 | two prunes at one time do what one with both limits does |
| AuditProofs.PruneSplit | src/audit_logger.rs:241-278 | prune(a) then prune(b) is prune(a + b) while a + b is at most 100 |
| AuditProofs.PruneExactly | src/audit_logger.rs:241-278 | a prune removes exactly the entries among the oldest min(limit, 100) that are over capacity or older than the maximum age |
| AuditProofs.RecordExactly | src/audit_logger.rs:92-133 | a log call records exactly its entry and removes exactly the outdated ones among the four oldest |
| AuditProofs.PolicyExactly | src/audit_logger.rs:196-233 | exactly when a policy is taken, what it changes, and the default of thirty days and 256 entries |
| AuditProofs.StepRetains | src/audit_logger.rs:92-278 | every call keeps the log a contiguous, unmodified, time-ordered suffix of all that was recorded |
| AuditProofs.RunRetains | src/audit_logger.rs:92-278 | so after every run: exactly the entries [oldest, count) |
| AuditProofs.PruneIsExhaustive | src/audit_logger.rs:241-278 | a prune that stops before its limit leaves no entry the policy forbids |
| AuditProofs.QueryExact | src/audit_logger.rs:135-171 | a query returns exactly the matching recorded entries of its span, in ID order |
| AuditProofs.RecordKeepsItsEntry | src/audit_logger.rs:92-133 | the entry just logged is never pruned by its own call |
| AuditProofs.RecordDrains | src/audit_logger.rs:92-133 | each log call takes three entries off a backlog |
| AuditProofs.BacklogDrains | src/audit_logger.rs:92-278 | under a fixed policy n log calls take 3n entries off a backlog and no call adds to it |
| AuditProofs.BacklogGone | src/audit_logger.rs:92-133 | after ceil(k / 3) log calls a log k over capacity is within it, and stays there |
| AuditContract.AuditLogger.LogAuditEvent | src/audit_logger.rs:92-133 | the entry, the counter and the automatic prune, or an overflow and no change |
| AuditContract.AuditLogger.SetAuditRetention | src/audit_logger.rs:210-233 | a valid policy from the admin, or the error |
| AuditContract.AuditLogger.PruneAuditLogs | src/audit_logger.rs:241-278 | the loop deletes exactly the specified prefix and counts it |
| AuditContract.AuditLogger.QueryAuditLogs | src/audit_logger.rs:135-171 | the loop returns the filtered span |
| EventProofs.BurstIsSingles | src/event_framework.rs:307-346 | a burst within the size limit leaves the records, indices, IDs and counters of single emissions, and fails for the same reason |
| EventProofs.BurstIdsConsecutive | src/event_framework.rs:299-306 | record i of a burst has the first ID plus i if and only if that fits a u64 |
| EventProofs.StepHolds | src/event_framework.rs:209-346 | every call only extends the log, with dense indices and IDs numbered within their timestamp |
| EventProofs.RunHolds | src/event_framework.rs:209-346 | after every run records are exactly 1..index and well numbered |
| EventProofs.IncreasingExactly | src/event_framework.rs:246-271 | IDs of a well-numbered log strictly increase if and only if every record leaves room for the next |
| EventProofs.IdsIncreaseExactly | src/event_framework.rs:209-271 | the same for the log of every run |
| EventProofs.MillionPerTimestampIncreases | src/event_framework.rs:246-271 | at most a million records per timestamp and no saturation suffice |
| EventProofs.TooManyRecordsCollide | src/event_framework.rs:246-297 | a run of 1,000,001 emissions in any second and one in the next, whose last two records share an ID |
| EventProofs.NewestFirstPrefix | src/event_framework.rs:348-373 | a backward scan stopped early holds the newest matches |
| EventProofs.QueryIsFilteredLog | src/event_framework.rs:348-373 | a query is the reversed log, filtered |
| EventHistory.LogIsEmitted | src/event_framework.rs:246-346 | after every run the records hold, in order, exactly the type, payload, version, caller and time of what the calls emitted |
| EventHistory.QueryExactly | src/event_framework.rs:348-373 | after every run a query returns the newest emitted contents of its type, or of all, at most min(limit, 100) |
| EventContract.EventFramework.ReserveSlots | src/event_framework.rs:209-221 | consecutive slots, the sequence restarting with the timestamp |
| EventContract.EventFramework.StoreEvent | src/event_framework.rs:246-271 | one record with its saturated ID |
| EventContract.EventFramework.EmitStandardEvent | src/event_framework.rs:273-297 | new record and counters, or the error and no change |
| EventContract.EventFramework.EmitStandardEventBurst | src/event_framework.rs:307-346 | the loop stores all payloads, or the error and no change |
| EventContract.EventFramework.QueryRecentEvents | src/event_framework.rs:348-373 | the newest matches, at most min(limit, 100) |
| DailyProofs.RewardBounds | src/daily_rewards.rs:204-236 | every calendar reward lies between its base amount and four times it |
| DailyProofs.BonusExactly | src/daily_rewards.rs:204-212 | no bonus at streak 1, 500 basis points more per day, and the maximum of 30000 exactly from streak 61 on |
| DailyProofs.RewardExactly | src/daily_rewards.rs:162-244 | kind, base (500 on day 28, 200 on days 7, 14 and 21, else 50), bonus and amount of every calendar day at every streak |
| DailyProofs.AdjacentKinds | src/daily_rewards.rs:166-187 | adjacent kinds repeat if and only if day % 6 is 5; rare kinds fall exactly on milestones |
| DailyProofs.RunGrows | src/daily_rewards.rs:331-400 | the streak is the consecutive run ending with the last claim |
| DailyProofs.LongestGrows | src/daily_rewards.rs:331-400 | the longest streak is the longest run anywhere in the history |
| DailyProofs.WorthBounds | src/daily_rewards.rs:204-236 | a history is worth between its base amounts and four times them |
| DailyProofs.NextClaim | src/daily_rewards.rs:331-400 | the incremental update of a record describes the history with the new day |
| DailyProofs.ClaimExtends | src/daily_rewards.rs:331-459 | a claim grants the reward written out from the claim days, and extends the history by today |
| DailyProofs.ClaimExactly | src/daily_rewards.rs:331-400 | a claim succeeds if and only if the player has a profile, has not claimed today and nothing overflows |
| DailyProofs.ClaimPays | src/daily_rewards.rs:401-430 | the claimer's essence grows by the reward, and no other player changes |
| DailyProofs.LoginIdempotent | src/player_profile.rs:457-484 | copying a login again, or an earlier day, changes nothing |
| DailyProofs.PreviewOfHistory | src/daily_rewards.rs:303-323 | the preview is the next reward of the claim days, or refused on a day already claimed |
| DailyProofs.RecordDescribesHistory | src/daily_rewards.rs:331-430 | in every run last day, streak, longest, claims, cycles, lifetime value and the profile's copy are functions of the claim days |
| DailyProofs.LifetimeBounds | src/daily_rewards.rs:331-430 | lifetime value is the sum of granted rewards, between base sum and four times it |
| DailyProofs.PreviewIsNextReward | src/daily_rewards.rs:303-323 | for a player with a profile the preview is the next granted reward, or the reason for refusal |
| DailyProofs.ClaimTotals | src/daily_rewards.rs:401-430 | a claim keeps the global totals equal to the sums over players |
| DailyProofs.RunTotals | src/daily_rewards.rs:401-430 | so after every run, up to the totals' own saturation |
| DailyProofs.CurrentStreakIsRun | src/daily_rewards.rs:275-289 | after every run the streak read back is the length of the run of claim days that ends today or yesterday, and zero if there is none |
| DailyContract.DailyRewards.GetStreak | src/daily_rewards.rs:275-289 | that length, for whatever claim days the stored record describes |
| DailyContract.DailyRewards.PreviewDailyReward | src/daily_rewards.rs:303-323 | the reward or error of the specification |
| DailyContract.DailyRewards.GetRewardCalendar | src/daily_rewards.rs:249-258 | the loop lists exactly the 28 rewards at a streak |
| DailyContract.DailyRewards.ClaimDailyReward | src/daily_rewards.rs:331-459 | record, profile, payout and totals, or the error and no change |
| DailyContract.DailyRewards.CountClaim | src/daily_rewards.rs:401-430 | the saturating global counters |
| DailyContract.DailyRewards.RecordLogin | src/player_profile.rs:457-484 | the profile's copy of the streak, ignoring a day already seen |
| ExportProofs.DecimalRoundTrip | src/data_exporter.rs:130-179 | a numeral is read back as its number |
| ExportProofs.SignedRoundTrip | src/data_exporter.rs:151-158 | so is a signed one, which has a sign exactly when it is negative |
| ExportProofs.PayloadRoundTrip | src/data_exporter.rs:181-216 | reading a payload gives back its fields, in both formats |
| ExportProofs.PayloadDetermines | src/data_exporter.rs:181-216 | equal payloads have the same format and the same fields |
| ExportContract.BuffersSuffice | src/data_exporter.rs:130-161 | 20 and 39 digits hold every u64 and u128 |
| ExportContract.FillDigits | src/data_exporter.rs:139-143 | the first loop leaves the reversed numeral in the buffer without overrunning it |
| ExportContract.EmptyDigits | src/data_exporter.rs:145-148 | the second loop writes the buffer out from its end |
| ExportContract.AppendU64 | src/data_exporter.rs:130-149 | appends the decimal numeral of any u64 |
| ExportContract.AppendU128 | src/data_exporter.rs:160-179 | appends the decimal numeral of any u128 |
| ExportContract.AppendI128 | src/data_exporter.rs:151-158 | appends the signed numeral of any i128 but the least, which aborts |
| ExportContract.BuildPayload | src/data_exporter.rs:181-216 | the payload, a missing profile, or the abort |

## Left out

- Ledger host details: authorisation is a caller argument, time and ledger number are arguments; events published, gas, rent, archival and storage tiers are not modelled.
- `src/reentrancy_guard.rs` and the guarded wrappers around the exchange calls.
- The harvest leg of `harvest_and_list`, `list_at_market` and the trade-history records of fills.
- `get_remaining_ttl`, `configure_ttl`, `detect_stale_data` and the cache statistics.
- The scarcity direction of the supply/demand nudge: comment and formula differ, and only the clamped value is modelled.
- The one-line admin setters of access control (permissions, emergency mode and roles, revoking a delegation, role templates): steps of the modelled runs, but not methods of the class.
- The achievement catalogue, eligibility, badges, notifications, meta-achievement recursion and `query_progress`.
- Migration of legacy counters and schemas in `src/event_framework.rs`: runs start from a seeded counter.
- The export registry and the batch cursor of export sessions.
- LeaderboardContract.Achievements.TryUnlock: models the statistics and the leaderboard of an unlock; the badge, the notification and the meta-achievements of the cited lines are left out.
- PricingRuns.CompoundBound: covers prices up to i128::MAX / 10000, beyond which the deviation guard saturates.
- Other contract modules, the frontend, the mobile application and the SDK.
