# Covenant verification

A Dafny model of the covenant contracts and proofs about every run of them. A covenant lets two
parties put liquidity into a pool together: a *holder* owns the agreement, a *liquid pooler* (on
Astroport, or on Osmosis behind a remote proxy account) owns the position, a *clock* drives both
with ticks, and splitters, forwarders and routers move the money.

Check the whole project with `dafny verify dfyconfig.toml`.

## Layout

| file | contents |
|---|---|
| `Base.dfy`, `Decimals.dfy` | shared values; `Uint128` and `Decimal` arithmetic as floors with a range check |
| `Splits.dfy` | split configurations and the transfers they produce |
| `Distribution.dfy` | the holder's table of splits, distributions and the ragequit penalty |
| `Fifo.dfy` | the stored queue: two reversed maps and a counter, refining a sequence |
| `Clock.dfy`, `ClockRuns.dfy`, `ClockLists.dfy` | the clock's messages; fairness and membership over its runs; what happens to its lists |
| `Holder.dfy`, `HolderRuns.dfy`, `HolderLaws.dfy` | the two-party holder, one method per message; its runs; what it accepts, asks, deposits and refunds |
| `Entitlements.dfy` | who is paid what by a distribution, address by address |
| `OsmoPooler.dfy`, `PoolerLaws.dfy` | the Osmosis pooler, one method per message; exactly what leads to each of its requests, reports and states |
| `Covenant.dfy`, `CovenantRuns.dfy` | holder, Osmosis pooler and clock as one system with requests in flight |
| `OwnExits.dfy` | when a settled withdrawal is sure to have had an exit of its own, and what a settlement carries |
| `Settlement.dfy`, `PendingShares.dfy` | when a pending withdrawal can still be settled; that it redeems what the holder asked for |
| `Astroport.dfy`, `Telescoping.dfy`, `PositionExits.dfy` | Astroport's amounts; the division of the LP position over every run; exactly when an exit happens |
| `RemoteSplitter.dfy`, `IbcForwarder.dfy`, `IbcFees.dfy` | multi-send splits, the interchain account lifecycle, the fee reserve |

## How the model reads

Contracts that save storage items step by step are classes with those items as fields and one method
per message. Each method's contract says: on success the new view of the fields and the messages sent
are what the transition function `Handle` gives, on an error `Handle` gives the same error and nothing
has changed. Runs are sequences of messages folded through `Handle`, and the theorems are about runs.
What the chain answers while a message is handled (balances, whether an expiration has passed, whether
an address is a contract, whether the fee query works) is a parameter of the message, so every theorem
holds for every answer.

In the joint system (`Covenant`) one transaction is one step, the messages between the contracts
included, and a failure anywhere undoes the step. Requests through polytone are kept in a multiset that
never shrinks: any of them may be answered late, any number of times, or never. A run is *legitimate*
when nobody forges the contracts' own messages, the note answers only requests that were sent, and
nobody else puts the holder into, or takes it out of, the clock.

A `Decimal` is its number of 10^-18 atomics. A `BTreeMap` of receivers is the sequence of its entries
in iteration order with distinct keys.

## What turned out not to hold

For each of these the code is modelled as it is, and the exact condition is proved: an if-and-only-if
over all inputs or all runs, with a failing input where the condition does not show one by itself.

- Enqueueing breaks the queue's index exactly when the element is already queued
  (`Fifo.FIFOQueue.Enqueue`); so the clock's index survives instantiation exactly when the initial queue
  has no duplicates (`Clock.Contract.Instantiate`), and `ManageWhitelist` exactly when the result has none
  (`Clock.Contract.MigrateManageWhitelist`, `ClockRuns.AddAllDistinctIff`).
- `SplitConfig::validate` looks at two receivers only. A validated split can pay out more than came in,
  exactly when some further receiver has a share (`Splits.ValidatedOverpaysIff`,
  `Splits.ThirdReceiverOverpays`). In the holder this concerns side-based and emergency payouts only: no
  funds are ever overpaid exactly when the withdrawal is share-based or every split it is paid by, after the
  penalty, shares out at most the whole (`HolderRuns.DistributionConservesIff`).
- The ragequit penalty keeps a split's total exactly when the two routers differ or the penalty is zero
  (`Distribution.PenaltyKeepsTotalIff`); `Distribution.SharedRouterInflates` is a validated split whose
  total grows.
- Instantiation checks the penalty against the parties' allocations and never against the splits
  (`CovenantRuns.UnfitPenaltyIsAccepted`). A ragequit whose penalty does not fit some split can never be
  settled. Once the pooler distributes, the holder's lock is held for ever exactly when the penalty does not
  fit (`CovenantRuns.LockedForeverIff`); `CovenantRuns.ArrivalCompletesIff` says exactly when a distribution
  goes through.
- A ragequit asks for `allocation - penalty`, which the pooler accepts exactly when it is not zero
  (`HolderRuns.FractionRange`); instantiation accepts a penalty as large as the allocation
  (`HolderRuns.FullPenaltyIsAccepted`).
- A withdrawal request overwrites the pooler's state whatever it is. A tick misses the proxy's address
  exactly when a withdrawal is pending and no proxy is known (`CovenantRuns.ProxyAvailability`). Such a
  withdrawal never gets a proxy exactly when the proxy had not been asked for before it; a proxy that was
  asked for can still arrive (`CovenantRuns.StrandedIff`). The committee withdrawing right after
  instantiation is such a withdrawal (`CovenantRuns.EmergencyStrands`).
- These are the only ways to get stuck: in every reachable state some run settles the lock that is held exactly
  when somebody still owns a part of the position, a ragequit's penalty fits, and the pooler is not stranded
  (`Settlement.SettleableIff`).
- While an exit request is unanswered, every further tick sends it again
  (`CovenantRuns.EveryTickExitsAgain`).
- A withdrawal can be settled by the answer to somebody else's exit. Every settlement is preceded, since its
  lock was taken, by an exit of its own or by the fallback to the party denominations exactly when no exit
  was in flight at that point, or the lock cannot be settled at all (`OwnExits.OwnExitIff`,
  `OwnExits.ForeignAnswerSettles`). So after the first exit of a covenant no later withdrawal is sure of its
  own (`OwnExits.NoLaterOwnExit`), with a run from instantiation in `OwnExits.SecondClaimHasNoOwnExit`.
- An exit that fails on the remote chain is settled as if it had been paid: its answer names the LP tokens
  handed back, the pooler distributes two zero coins, and the claimer's position is gone
  (`OwnExits.FailedExitSettlesForNothing`). A distribution carries at least what the answer names of the party
  denominations (`OwnExits.CommitCarries`), and can carry nothing exactly when it names none
  (`OwnExits.EmptyHandedIff`).
- The two poolers redeem the same number of LP tokens, except that Astroport's computation errors
  exactly when less than everything is asked for and the balance does not fit into 18 decimals
  (`Astroport.PoolersComputeSameFloor`).
- A forwarder reports a deposit address exactly in the created state, unless an acknowledgement for
  somebody else's port arrives (`IbcForwarder.ConsistentStepIff`).
- With one host address for both parties, which instantiation accepts (`HolderRuns.SharedHostIsAccepted`),
  the second of them can never exit: until the covenant is over, some run still pays somebody exactly when
  the first party owns a part of the position or the hosts differ (`HolderRuns.PayoutReachableIff`,
  `HolderRuns.ClaimPossibleIff`).

Where the code and its documentation disagree the model follows the code: the holder's README says a
ragequit makes both parties receive half of the underlying tokens and that the covenant no longer expires,
while the code applies the penalty to the agreed splits and lets a tick expire the covenant while a ragequit is in
flight; the comment on `FIFOQueue::remove` says that an absent element is not an error, while it is one.
The branch of `try_claim` that completes a covenant for a party without allocation is unreachable, because
`authorize_sender` rejects such a party first; it is not modelled.

## Model

| member | source | states |
|---|---|---|
| Fifo.ReversableMap.Reverse | packages/cw-fifo/src/reversable_map.rs:23-27 | the reversed map shares the same two namespaces with their roles exchanged |
| Fifo.ReversableMap.Remove | packages/cw-fifo/src/reversable_map.rs:38-43 | removes the key and its value's entry; an absent key is an error that changes nothing |
| Fifo.ReversableMap.Save | packages/cw-fifo/src/reversable_map.rs:45-57 | the old value of the key is cleaned up, an old key of the value is not |
| Fifo.FIFOQueue.Enqueue | packages/cw-fifo/src/lib.rs:53-57 | appends to the sequence behind the maps; keys stay below the counter; an intact index stays intact exactly when the element was absent; the counter overflow aborts |
| Fifo.FIFOQueue.Dequeue | packages/cw-fifo/src/lib.rs:61-74 | pops the front of the sequence, or nothing from an empty queue, even with a broken index; an intact index stays intact |
| Fifo.FIFOQueue.Remove | packages/cw-fifo/src/lib.rs:76-78 | order-preserving deletion; an error exactly when the element is absent |
| Fifo.FIFOQueue.Has | packages/cw-fifo/src/lib.rs:81-83 | membership in the sequence |
| Fifo.LeastKey | packages/cw-fifo/src/lib.rs:62-69 | the first entry of an ascending range is the one with the smallest key |
| Fifo.InOrderRemoveLeast | packages/cw-fifo/src/lib.rs:61-74 | the entry with the smallest key is the head of the sequence in key order, and removing it leaves the rest, even with a broken index |
| Fifo.InOrderRemove | packages/cw-fifo/src/reversable_map.rs:38-43 | with mutually inverse maps, removing one key deletes exactly its value from the sequence |
| Fifo.WithoutAt | packages/cw-fifo/src/lib.rs:76-78 | in a duplicate-free sequence deletion cuts out one position and keeps the order |
| Fifo.InOrderNoDuplicates | packages/cw-fifo/src/reversable_map.rs:45-57 | mutually inverse maps hold no element twice |
| Fifo.EnqueueKeepsInverseIff | packages/cw-fifo/src/lib.rs:53-57 | saving under a fresh key keeps the maps mutually inverse exactly when the element was absent |
| Fifo.DuplicatesBreakTheIndex | packages/cw-fifo/src/reversable_map.rs:45-57 | no reverse map is an inverse once an element is queued twice |
| Clock.SwapRemove | contracts/clock/src/contract.rs:198-214 | `swap_remove` takes out exactly one occurrence, moves the last element into its place and leaves the others where they are |
| Clock.Contract.Instantiate | contracts/clock/src/contract.rs:21-60 | fails exactly for an address the chain does not accept (or a counter overflow); the initial queue is stored in order; the index is intact exactly when it names nobody twice; the gas limit is the requested one brought within the limits, or the default |
| Clock.Contract.ExecuteTick | contracts/clock/src/contract.rs:75-97 | rotates the queue and dispatches its head, even with a broken index; paused is an error; an intact index stays intact |
| Clock.Contract.ExecuteEnqueue | contracts/clock/src/contract.rs:98-119 | appends a whitelisted contract that is not queued, an error otherwise; the index stays intact |
| Clock.Contract.ExecuteDequeue | contracts/clock/src/contract.rs:120-125 | deletes the sender in place, an error when absent or paused |
| Clock.Contract.MigratePause | contracts/clock/src/contract.rs:169-184 | pausing twice or resuming twice is an error |
| Clock.Contract.MigrateTickMaxGas | contracts/clock/src/contract.rs:185-197 | zero is an error; otherwise the nearest allowed limit is stored |
| Clock.Contract.MigrateManageWhitelist | contracts/clock/src/contract.rs:198-234 | both loops, undone as a whole on an error; the index is intact exactly when the resulting queue has no duplicates |
| ClockRuns.AddAllDistinctIff | contracts/clock/src/contract.rs:216-231 | the addition loop keeps the queue duplicate-free exactly when nobody to be added is queued but not listed |
| ClockRuns.OtherMessagesKeepPlace | contracts/clock/src/contract.rs:98-125 | no message but a tick moves a queued address back or lets anybody in ahead of it |
| ClockRuns.DispatchedBefore | contracts/clock/src/contract.rs:75-125 | in every run that does not remove an address before its first dispatch, whoever is dispatched before it stood ahead of it, and is dispatched once |
| ClockRuns.Fairness | contracts/clock/src/contract.rs:75-125 | in every run, an address at position p that nobody removes before its first dispatch is among the first p + 1 dispatches, with nobody dispatched twice before it |
| ClockRuns.CallIsRun | contracts/clock/src/contract.rs:151-164 | a tick with receivers calling back, nested at will, and with failing receivers whose effects are undone, has the effect of a plain run of the committed messages |
| ClockRuns.CallsAreRun | contracts/clock/src/contract.rs:151-164 | the same for sequences of calls |
| ClockRuns.FairnessOfCalls | contracts/clock/src/contract.rs:75-125 | fairness with receivers that call back into the clock, dequeueing themselves included, and receivers that fail |
| ClockRuns.TicksRotate | contracts/clock/src/contract.rs:75-97 | k ticks alone dispatch the first k addresses in order and move them to the back |
| ClockRuns.RoundRobin | contracts/clock/src/contract.rs:75-97 | a full round dispatches every address once and restores the order |
| ClockRuns.MembersStep | contracts/clock/src/contract.rs:98-125 | each message keeps queued addresses distinct, and whitelisted or initially queued |
| ClockRuns.Membership | contracts/clock/src/contract.rs:39-55 | in every run without a double enqueue each queued address is whitelisted or was in the initial queue |
| ClockRuns.UnmentionedKeepsMembership | contracts/clock/src/contract.rs:75-125 | a message that does not mention an address neither queues nor dequeues it |
| ClockRuns.TickCallEffects | contracts/clock/src/contract.rs:151-164 | a failing receiver costs only its own effects; a succeeding one adds what it calls, in order |
| ClockLists.RemoveAllCounts | contracts/clock/src/contract.rs:205-213 | for any whitelist, each removal takes one occurrence of the address while there is one |
| ClockLists.RemoveAllQueue | contracts/clock/src/contract.rs:205-213 | whoever is listed and removed leaves the queue; everybody else stays |
| ClockLists.AddAllAppends | contracts/clock/src/contract.rs:216-231 | the same new addresses, each once, are appended to whitelist and queue, and counted |
| ClockLists.ManageCounts | contracts/clock/src/contract.rs:198-234 | how often each address is listed afterwards, for any whitelist |
| ClockLists.ManageLists | contracts/clock/src/contract.rs:198-234 | for a duplicate-free whitelist, listed afterwards are exactly those added, or listed before and not removed |
| ClockLists.ManageQueues | contracts/clock/src/contract.rs:198-234 | exactly who is queued afterwards |
| ClockLists.ManageAcceptedIff | contracts/clock/src/contract.rs:198-234 | exactly when the message is accepted |
| ClockLists.OutStaysOut | contracts/clock/src/contract.rs:98-125 | over any run in which nobody adds it, an address neither listed nor queued can neither enqueue nor be dispatched |
| ClockLists.RemovedStaysOut | contracts/clock/src/contract.rs:198-234 | removing a listed address is final until somebody adds it again, over any run |
| ClockLists.ReceiverAcceptedIff | contracts/clock/src/contract.rs:75-125 | exactly when a tick, an enqueue and a dequeue are accepted |
| ClockLists.LeavesAndReturns | contracts/clock/src/contract.rs:98-125 | a listed contract that leaves the queue may come back, once, at its end |
| ClockLists.PausedDispatchesNothing | contracts/clock/src/contract.rs:68-73 | over any run without resuming, a paused clock dispatches nothing and only ManageWhitelist changes a list |
| ClockLists.PauseRoundTrip | contracts/clock/src/contract.rs:169-184 | resuming undoes pausing |
| Decimals.CheckedMultiplyRatio | packages/covenant-utils/src/split.rs:101-108 | fails exactly when the exact result leaves `Uint128`; otherwise it is the unique floor |
| Splits.ValidateShares | packages/covenant-utils/src/split.rs:66-81 | succeeds exactly when the shares sum to one and every address is valid |
| Splits.HeadIsTheFloor | packages/covenant-utils/src/split.rs:83-127 | a receiver's transfer is the floor of its share, and a zero share sends none |
| Splits.EntitlementBounds | packages/covenant-utils/src/split.rs:83-127 | for any shares within one, rounding loses less than one unit per paid receiver |
| Splits.SplitConservation | packages/covenant-utils/src/split.rs:66-127 | a validated split never fails, pays at most the amount, and leaves at most n - 1 units for n non-zero shares |
| Splits.TransferFailsIff | packages/covenant-utils/src/split.rs:109-113 | a split fails exactly when some entitlement leaves `Uint128` |
| Splits.PaidUnlessItFails | packages/covenant-utils/src/split.rs:83-127 | whatever the shares, a split that does not fail pays everybody the floor of its share and nobody else |
| Splits.PaidIsTheFloor | packages/covenant-utils/src/split.rs:83-127 | every receiver gets exactly the floor of its share and nobody else is paid |
| Splits.SingleReceiver | packages/covenant-utils/src/split.rs:83-127 | with a filter address there is exactly one transfer of the full amount when it is a receiver, and none otherwise |
| Splits.OverpaysExactlyAboveOne | packages/covenant-utils/src/split.rs:83-127 | no amount is overpaid exactly when all shares together are within one |
| Splits.ValidatedOverpaysIff | packages/covenant-utils/src/split.rs:46-63 | a split validated for two parties never overpays exactly when every further receiver has no share |
| Splits.ThirdReceiverOverpays | packages/covenant-utils/src/split.rs:46-63 | a concrete validated split that pays three units for two |
| Splits.RemapKeepsValidation | packages/covenant-utils/src/split.rs:15-44 | remapping to two routers keeps both shares, and keeps being validated in both directions |
| Splits.RemapToOneRouter | packages/covenant-utils/src/split.rs:15-44 | with one router for both the second receiver's share stays |
| Splits.RemapSplits | packages/covenant-utils/src/split.rs:143-161 | succeeds exactly when every split remaps; keeps the denominations and remaps each of them |
| Distribution.CoinConserves | contracts/two-party-pol-holder/src/msg.rs:160-179 | one coin, shared out, pays its own denomination only and loses only the dust |
| Distribution.SharedDistributionConserves | contracts/two-party-pol-holder/src/msg.rs:160-179 | a shared distribution pays at most what came in of each denomination, up to the dust, and nothing without an explicit split |
| Distribution.SharedDistributionIff | packages/covenant-utils/src/split.rs:83-127 | no funds are ever overpaid exactly when every explicit split shares out at most the whole |
| Distribution.SingleReceiverGetsAll | contracts/two-party-pol-holder/src/msg.rs:132-158 | one router receives every covered denomination in full and nobody else is paid |
| Distribution.PenalizeSplit | contracts/two-party-pol-holder/src/msg.rs:188-225 | the penalty within one split, with the error of the first check that fails |
| Distribution.ApplyPenalty | contracts/two-party-pol-holder/src/msg.rs:181-256 | the loop over the table, in any order, moves the penalty in each split independently, or fails as a whole with the error of some explicit split, or of the fallback split when all explicit ones pass |
| Distribution.MovePenaltyKeepsSplit | contracts/two-party-pol-holder/src/msg.rs:200-246 | between two routers, exactly the penalty moves; keys, total and all other shares stay |
| Distribution.MovePenaltyShares | contracts/two-party-pol-holder/src/msg.rs:200-216 | who holds what after the penalty, for any two routers |
| Distribution.PenalizedMoves | contracts/two-party-pol-holder/src/msg.rs:181-256 | the penalty reaches every explicit split in which the party holds something, and the fallback split |
| Distribution.PenaltyKeepsTotalIff | contracts/two-party-pol-holder/src/msg.rs:181-256 | the total survives exactly when the routers differ or nothing is moved |
| Distribution.SharedRouterInflates | contracts/two-party-pol-holder/src/msg.rs:192-216 | a concrete validated split for one shared router whose total grows by the penalty |
| Distribution.PenalizedIffFits | contracts/two-party-pol-holder/src/msg.rs:181-256 | for any two routers the penalty can be applied exactly when it fits every split |
| Distribution.PenaltyKeepsKeys | contracts/two-party-pol-holder/src/msg.rs:206-216 | for any two routers, equal ones included, a penalty keeps the receivers |
| Distribution.PenalizeExplicitKeeps | contracts/two-party-pol-holder/src/msg.rs:188-225 | one explicit split can be penalized exactly when the penalty fits it, and is left alone when the party holds nothing |
| Distribution.PenaltyPreservesSplits | contracts/two-party-pol-holder/src/msg.rs:181-256 | succeeds exactly when the penalty fits every split; keeps denominations, receivers and totals, leaves zero shares alone, and a following distribution still never overpays |
| Entitlements.SharedPaysEntitled | contracts/two-party-pol-holder/src/msg.rs:160-179 | a shared distribution sends every address exactly the floors of its shares, coin by coin, and nobody else anything |
| Entitlements.EffectiveSharesAgreed | contracts/two-party-pol-holder/src/contract.rs:244-255 | a distribution is paid by the agreed shares, moved by the penalty after a ragequit |
| Entitlements.PayoutsAreDue | contracts/two-party-pol-holder/src/contract.rs:229-373 | every payout of every committed distribution in every reachable state, address by address and denomination by denomination |
| Entitlements.RouterGetsAgreedShare | contracts/two-party-pol-holder/src/contract.rs:350-373 | a side-based or emergency payout gives each router the floor of its agreed share |
| Holder.Contract.Claim | contracts/two-party-pol-holder/src/contract.rs:166-208 | all checks in order; takes the lock for the party and asks for its allocation, or for everything in a side covenant |
| Holder.Contract.EmergencyWithdraw | contracts/two-party-pol-holder/src/contract.rs:210-227 | only the committee, only without a lock; asks for everything |
| Holder.Contract.Distribute | contracts/two-party-pol-holder/src/contract.rs:229-301 | settles the pending withdrawal; the emergency branch leaves the lock; an error changes nothing |
| Holder.Contract.WithdrawFailed | contracts/two-party-pol-holder/src/contract.rs:305-313 | only the pooler; releases the lock |
| Holder.Contract.SettleShareBased | contracts/two-party-pol-holder/src/contract.rs:316-347 | the claimer is paid and zeroed; the counterparty inherits everything, or the covenant completes and leaves the clock |
| Holder.Contract.SettleSideBased | contracts/two-party-pol-holder/src/contract.rs:350-373 | both are paid by the splits and zeroed; the covenant completes and leaves the clock |
| Holder.Contract.Tick | contracts/two-party-pol-holder/src/contract.rs:375-499 | deposits, expiration and refunds by state, for the clock only |
| Holder.Contract.RequestRagequit | contracts/two-party-pol-holder/src/contract.rs:501-550 | all checks in order; takes the ragequit lock and asks for the allocation less the penalty |
| HolderRuns.InstantiateIsFresh | contracts/two-party-pol-holder/src/contract.rs:35-117 | what an accepted instantiation guarantees: allocations sum to one, the penalty is within both, stored splits give the routers the whole |
| HolderRuns.StoredBack | contracts/two-party-pol-holder/src/msg.rs:267-275 | updated parties are stored back as the same two parties, whichever was the claimer |
| HolderRuns.DistributeSettles | contracts/two-party-pol-holder/src/contract.rs:229-373 | what any committed distribution leaves behind: the claimer's allocation zero, the counterparty's inherited one, lock, phase, and the clock left exactly when nobody owns anything |
| HolderRuns.StepKeepsInv | contracts/two-party-pol-holder/src/contract.rs:166-579 | every message keeps the invariant of allocations, lock, phase and stored terms |
| HolderRuns.RunKeepsInv | contracts/two-party-pol-holder/src/contract.rs:166-579 | so does every run |
| HolderRuns.AllocationInvariant | contracts/two-party-pol-holder/src/contract.rs:166-373 | in every run from instantiation the allocations sum to one, or both are zero and the covenant is complete; before and during the lockup and while a ragequit is pending they are the agreed ones |
| HolderRuns.ProgressOrder | contracts/two-party-pol-holder/src/contract.rs:229-579 | no message of any run goes back in the order of the phases; Complete is final |
| HolderRuns.DistributionSettlesClaimer | contracts/two-party-pol-holder/src/contract.rs:229-373 | each committed non-emergency distribution lowers the number of parties with an allocation, to none in a side covenant, and unlocks |
| HolderRuns.BoundedPayouts | contracts/two-party-pol-holder/src/contract.rs:229-373 | in every run at most one distribution per remaining position, and one in a side covenant |
| HolderRuns.PaidAtMostOnce | contracts/two-party-pol-holder/src/msg.rs:339-360 | with different hosts nobody is paid twice in any run |
| HolderRuns.SharedHostPaysOneParty | contracts/two-party-pol-holder/src/msg.rs:339-360 | with one host for both, nothing is paid any more once the first party is settled |
| HolderRuns.ClaimPossibleIff | contracts/two-party-pol-holder/src/contract.rs:166-208 | when claims are open, somebody can claim exactly when the first party owns a part or the hosts differ |
| HolderRuns.PayoutReachableIff | contracts/two-party-pol-holder/src/msg.rs:339-360 | until the covenant is over, some run still pays a party exactly under that condition |
| HolderRuns.SharedHostIsAccepted | contracts/two-party-pol-holder/src/msg.rs:277-295 | a concrete instantiation with one host is accepted, and a run of it leaves the second party with everything and nobody able to claim |
| HolderRuns.FractionRange | contracts/two-party-pol-holder/src/contract.rs:199-205 | in every run from instantiation a claim's fraction is accepted by the pooler; a ragequit never underflows, asks for the agreed allocation less the penalty, and is accepted exactly when the penalty is below the allocation |
| HolderRuns.FullPenaltyIsAccepted | contracts/two-party-pol-holder/src/msg.rs:482-502 | a concrete instantiation whose penalty equals the allocations is accepted, and a ragequit of either party then asks for nothing |
| HolderRuns.DistributeCommitsIff | contracts/two-party-pol-holder/src/contract.rs:229-301 | in every reachable state the pooler's distribution commits exactly when a withdrawal is pending and a ragequit's penalty fits the splits |
| HolderRuns.ShareDistributionConserves | contracts/two-party-pol-holder/src/contract.rs:316-347 | a share-based distribution hands the claimer's router, and nobody else, everything it received of each denomination with a split, whatever the routers and further receivers |
| HolderRuns.DistributionConservesIff | contracts/two-party-pol-holder/src/contract.rs:229-373 | in every reachable state no distribution ever overpays any funds exactly when it is share-based or no split it pays by shares out more than the whole |
| HolderRuns.DistributionConserves | contracts/two-party-pol-holder/src/contract.rs:229-373 | that condition holds with different routers and agreed splits within the whole, so nothing is overpaid |
| HolderLaws.InstantiateIff | contracts/two-party-pol-holder/src/contract.rs:35-117 | exactly when an instantiation is accepted |
| HolderLaws.InstantiateStores | contracts/two-party-pol-holder/src/contract.rs:75-112 | it stores the agreed terms and exactly the explicit splits that validate |
| HolderLaws.AcceptedIff | contracts/two-party-pol-holder/src/contract.rs:166-227 | exactly who may claim, ragequit, withdraw in an emergency and report a failure, and when |
| HolderLaws.TickAcceptedIff | contracts/two-party-pol-holder/src/contract.rs:375-482 | exactly which ticks fail |
| HolderLaws.LockTaken | contracts/two-party-pol-holder/src/contract.rs:166-227 | which message takes which lock, for whom |
| HolderLaws.EmergencyByCommittee | contracts/two-party-pol-holder/src/contract.rs:210-227 | in every run an emergency lock was taken by the committee |
| HolderLaws.AskedExactly | contracts/two-party-pol-holder/src/contract.rs:199-205 | what each accepted message asks of the pooler: allocation, allocation less penalty, everything, or nothing |
| HolderLaws.DepositsIff | contracts/two-party-pol-holder/src/contract.rs:439-482 | exactly which tick deposits, and that it deposits the whole balances of the agreed denominations and nothing else |
| HolderLaws.RefundsGoHome | contracts/two-party-pol-holder/src/contract.rs:393-437 | a completed covenant returns each party's whole balance to its own router and pays nobody else |
| HolderLaws.PhaseMovesIff | contracts/two-party-pol-holder/src/contract.rs:229-579 | in every reachable state, exactly which message enters which phase |
| HolderLaws.RagequitRecordedIff | contracts/two-party-pol-holder/src/contract.rs:552-579 | the ragequit terms change only when a ragequit is settled, which records who quit and what came |
| HolderLaws.StoredPlaces | contracts/two-party-pol-holder/src/msg.rs:267-275 | what a settlement stores; the parties swap places exactly for equal controllers when the second one is paid |
| HolderLaws.PartiesKeepPlaces | contracts/two-party-pol-holder/src/msg.rs:267-275 | with different controllers the parties keep their places in every run |
| OsmoPooler.Contract.ResetBalances | contracts/osmo-liquid-pooler/src/msg.rs:191-197 | clears exactly the two party denominations and the LP denomination |
| OsmoPooler.Contract.CachedFunds | contracts/osmo-liquid-pooler/src/msg.rs:160-174 | the cached party balances, in order |
| OsmoPooler.Contract.Withdraw | contracts/osmo-liquid-pooler/src/contract.rs:129-166 | the holder only, for a fraction in (0, 1]; overrides any state and clears the cache |
| OsmoPooler.Contract.TryWithdraw | contracts/osmo-liquid-pooler/src/contract.rs:173-283 | exits the share of the LP balance, or falls back to the party denominations, or reports failure |
| OsmoPooler.Contract.Tick | contracts/osmo-liquid-pooler/src/contract.rs:286-326 | the six states, for the clock only |
| OsmoPooler.Contract.TryDistribute | contracts/osmo-liquid-pooler/src/contract.rs:328-513 | distributes when both coins are home, and asks for exactly the missing ones otherwise |
| OsmoPooler.Contract.SyncBalances | contracts/osmo-liquid-pooler/src/contract.rs:515-535 | clears the cache and queries the balances; an error without a proxy |
| OsmoPooler.Contract.SendFunds | contracts/osmo-liquid-pooler/src/contract.rs:606-662 | sends both balances to the proxy once both suffice |
| OsmoPooler.Contract.HandlePolytoneCallback | contracts/osmo-liquid-pooler/src/polytone_handlers.rs:41-242 | every kind of callback, in every state, from the note only |
| OsmoPooler.Contract.StoreRefunds | contracts/osmo-liquid-pooler/src/polytone_handlers.rs:145-190 | the loop over refund attributes keeps the last one |
| OsmoPooler.Contract.StoreBalances | contracts/osmo-liquid-pooler/src/polytone_handlers.rs:244-286 | the loop over balance answers; one unreadable answer stores none |
| PoolerLaws.CreatesProxyIff | contracts/osmo-liquid-pooler/src/contract.rs:545-567 | exactly which messages ask for the proxy |
| PoolerLaws.QueriesIff | contracts/osmo-liquid-pooler/src/contract.rs:286-326 | exactly which messages ask for the balances |
| PoolerLaws.ProvidesIff | contracts/osmo-liquid-pooler/src/contract.rs:664-703 | exactly which messages provide liquidity, and that it is the cached party balances |
| PoolerLaws.AsksHomeIff | contracts/osmo-liquid-pooler/src/contract.rs:394-513 | exactly which messages ask coins home, and which coins |
| PoolerLaws.HomecomingCompletes | contracts/osmo-liquid-pooler/src/contract.rs:328-393 | once what was asked for is home the next tick distributes it |
| PoolerLaws.FundsIff | contracts/osmo-liquid-pooler/src/contract.rs:606-662 | exactly which coins are sent to the proxy, to which address, by which messages |
| PoolerLaws.DistributesIff | contracts/osmo-liquid-pooler/src/contract.rs:369-393 | exactly which messages distribute, and what |
| PoolerLaws.ReportsFailureIff | contracts/osmo-liquid-pooler/src/contract.rs:202-221 | exactly which messages report a failed withdrawal |
| PoolerLaws.PhaseMovesIff | contracts/osmo-liquid-pooler/src/contract.rs:286-393 | exactly which message enters which state |
| PoolerLaws.PendingIff | contracts/osmo-liquid-pooler/src/contract.rs:129-166 | exactly when a withdrawal of a given share is pending after a message |
| PoolerLaws.DistributingIff | contracts/osmo-liquid-pooler/src/polytone_handlers.rs:145-190 | coins are waited for from the last refunds of an answered exit or from the fallback |
| PoolerLaws.FallbackNamesBalances | contracts/osmo-liquid-pooler/src/contract.rs:173-200 | the fallback goes on with exactly the cached positive party balances |
| PoolerLaws.WithdrawnIsFirst | contracts/osmo-liquid-pooler/src/contract.rs:343-366 | what is waited for of a denomination is the first coin that names it |
| PoolerLaws.CacheAfter | contracts/osmo-liquid-pooler/src/msg.rs:191-197 | exactly which messages clear the cache, and what they leave |
| PoolerLaws.AbsorbIff | contracts/osmo-liquid-pooler/src/polytone_handlers.rs:244-286 | an answer with an unreadable entry is refused; otherwise the last report of each denomination counts |
| PoolerLaws.ProxySetIff | contracts/osmo-liquid-pooler/src/polytone_handlers.rs:118-143 | exactly when the proxy's address is set |
| PoolerLaws.TickAcceptedIff | contracts/osmo-liquid-pooler/src/contract.rs:286-326 | exactly which ticks fail |
| PoolerLaws.CallbackAcceptedIff | contracts/osmo-liquid-pooler/src/polytone_handlers.rs:41-116 | exactly which callbacks are accepted; failed and fatal ones change nothing |
| Covenant.InitialInv | contracts/two-party-pol-holder/src/contract.rs:35-117 | the freshly wired system meets the joint invariant |
| Covenant.DistributeStep | contracts/two-party-pol-holder/src/contract.rs:229-373 | within a transaction, a distribution leaves the clock exactly when nobody is left to pay, and aborts when it cannot |
| Covenant.OtherHolderStep | contracts/two-party-pol-holder/src/contract.rs:189-227 | within a transaction, a claim, ragequit or emergency withdrawal starts without a lock and ends with the pooler withdrawing |
| CovenantRuns.ReportingPoolerStep | contracts/osmo-liquid-pooler/src/contract.rs:369-393 | the pooler reports a failure, releasing the lock, or distributes out of Distributing into Active |
| CovenantRuns.QuietPoolerStaysPending | contracts/osmo-liquid-pooler/src/polytone_handlers.rs:145-224 | the pooler leaves the withdrawal states only together with a report to the holder |
| CovenantRuns.PoolerKeepsProxy | contracts/osmo-liquid-pooler/src/polytone_handlers.rs:118-190 | every pooler transaction keeps the proxy known wherever it is needed |
| CovenantRuns.PoolerStepKeepsInv | contracts/osmo-liquid-pooler/src/contract.rs:286-513 | every pooler transaction keeps the joint invariant |
| CovenantRuns.HolderStepKeepsInv | contracts/two-party-pol-holder/src/contract.rs:166-227 | every holder transaction keeps the joint invariant |
| CovenantRuns.StepKeepsInv | contracts/osmo-liquid-pooler/src/contract.rs:129-513 | every legitimate transaction keeps the joint invariant |
| CovenantRuns.RunKeepsInv | contracts/osmo-liquid-pooler/src/contract.rs:129-513 | so does every legitimate run |
| CovenantRuns.LockProtocol | contracts/osmo-liquid-pooler/src/contract.rs:129-221 | in every reachable joint state, with late and repeated callbacks, a pending claim or ragequit, and the committee's withdrawal while anybody owns a part, is being worked on by the pooler |
| CovenantRuns.ProxyAvailability | contracts/osmo-liquid-pooler/src/contract.rs:515-535 | the proxy is known whenever a balance is cached, a query or exit may be answered, or the pooler is past creation; a tick misses it exactly for a withdrawal requested before it exists |
| CovenantRuns.CommitSettles | contracts/osmo-liquid-pooler/src/contract.rs:369-393 | a distribution commits only while a withdrawal is pending, settles a position and ends the claim |
| CovenantRuns.DistributeNeedsPosition | contracts/two-party-pol-holder/src/contract.rs:257-269 | even under the emergency lock, which stays, a second full payout is impossible: the holder cannot leave the clock twice |
| CovenantRuns.CommitsBounded | contracts/two-party-pol-holder/src/contract.rs:229-373 | in every run at most one committed distribution per remaining position, emergency withdrawals included |
| CovenantRuns.AtMostTwoDistributions | contracts/two-party-pol-holder/src/contract.rs:229-373 | at most two distributions ever commit |
| CovenantRuns.ArrivalCompletesIff | contracts/osmo-liquid-pooler/src/contract.rs:328-393 | the tick that finds the coins home completes the withdrawal exactly when one is pending, the penalty fits, and a last exit can leave a running clock |
| CovenantRuns.AnsweredExitGetsStuck | contracts/osmo-liquid-pooler/src/polytone_handlers.rs:145-190 | an answered exit of a ragequit whose penalty does not fit enters the stuck state |
| CovenantRuns.UnfitPenaltyIsAccepted | contracts/two-party-pol-holder/src/msg.rs:482-502 | a concrete instantiation with such a penalty is accepted |
| CovenantRuns.StuckStep | contracts/two-party-pol-holder/src/contract.rs:272-286 | no legitimate transaction leaves the stuck state |
| CovenantRuns.UnfitPenaltyLocksForever | contracts/two-party-pol-holder/src/contract.rs:272-286 | no legitimate run ever releases that lock |
| CovenantRuns.ArrivalSettles | contracts/osmo-liquid-pooler/src/contract.rs:328-393 | with the clock resumed, the arrival of the coins settles every lock that can be settled |
| CovenantRuns.LockedForeverIff | contracts/two-party-pol-holder/src/contract.rs:229-286 | a ragequit under distribution is locked over all legitimate runs exactly when its penalty does not fit |
| CovenantRuns.WithdrawBeforeProxyStrands | contracts/osmo-liquid-pooler/src/contract.rs:129-166 | any withdrawal before the proxy was asked for strands the pooler |
| CovenantRuns.StrandedPoolerIsDeaf | contracts/osmo-liquid-pooler/src/contract.rs:515-535 | every message to a stranded pooler fails |
| CovenantRuns.StrandedForever | contracts/osmo-liquid-pooler/src/contract.rs:286-326 | in every legitimate run a stranded withdrawal stays pending |
| CovenantRuns.StrandedIff | contracts/osmo-liquid-pooler/src/polytone_handlers.rs:118-143 | a pending withdrawal without a proxy never gets one, over all legitimate runs, exactly when the proxy was not asked for |
| CovenantRuns.EmergencyStrands | contracts/two-party-pol-holder/src/contract.rs:210-227 | the committee withdrawing right after instantiation strands the covenant for ever |
| CovenantRuns.TickSendsExitIff | contracts/osmo-liquid-pooler/src/contract.rs:223-283 | a tick sends an exit exactly when the cache is complete and LP tokens remain, and then stays in the same state |
| CovenantRuns.EveryTickExitsAgain | contracts/osmo-liquid-pooler/src/contract.rs:223-283 | n ticks without an answer put n exits of the full share in flight |
| OwnExits.RunStaysUnanswerable | contracts/osmo-liquid-pooler/src/polytone_handlers.rs:145-224 | without an exit in flight only redeeming leads to a distribution, over every legitimate run |
| OwnExits.ForeignAnswerSettles | contracts/osmo-liquid-pooler/src/polytone_handlers.rs:145-190 | with any exit in flight, one late answer, naming any coins, and one tick settle the lock without redeeming anything for it |
| OwnExits.CommitCarries | contracts/osmo-liquid-pooler/src/contract.rs:328-393 | a committed distribution carries at least what the answer named of each party denomination |
| OwnExits.EmptyHandedIff | contracts/osmo-liquid-pooler/src/contract.rs:328-393 | a settlement can carry nothing exactly when it can be settled and the answer names no positive amount of either party denomination |
| OwnExits.FailedExitSettlesForNothing | contracts/outpost-osmo-liquid-pooler/src/contract.rs:349-381 | the answer of a failed exit, which names the LP tokens handed back, settles the withdrawal with two zero coins, and the position is gone |
| OwnExits.OnlySettleable | contracts/two-party-pol-holder/src/contract.rs:229-301 | a lock held at a settlement could be settled all along |
| OwnExits.OwnExitIff | contracts/osmo-liquid-pooler/src/contract.rs:173-283 | over all legitimate runs, a settlement is preceded by an own exit or fallback since its lock was taken exactly when no exit was in flight then, or the lock cannot be settled |
| OwnExits.NoLaterOwnExit | contracts/osmo-liquid-pooler/src/contract.rs:223-283 | after the first exit request no later withdrawal that can be settled is sure of an exit of its own |
| OwnExits.SecondClaimHasNoOwnExit | contracts/osmo-liquid-pooler/src/polytone_handlers.rs:145-190 | a run from instantiation to a second claim without that certainty |
| Settlement.RunKeepsInformed | contracts/osmo-liquid-pooler/src/polytone_handlers.rs:244-286 | in every legitimate run cached balances were asked for and a pending share lies in (0, 1] |
| Settlement.FromCreation | contracts/osmo-liquid-pooler/src/polytone_handlers.rs:118-143 | a withdrawal whose proxy was asked for can still be settled: creation, query, exit, arrival |
| Settlement.StrandedNeverSettles | contracts/osmo-liquid-pooler/src/contract.rs:286-326 | no legitimate run settles a stranded withdrawal |
| Settlement.SettleableIff | contracts/osmo-liquid-pooler/src/contract.rs:173-393 | in every reachable state some run settles the lock that is held exactly when somebody owns a part, the penalty fits and the pooler is not stranded |
| PendingShares.RequestStands | contracts/two-party-pol-holder/src/contract.rs:189-227 | within one transaction the lock is taken and the pooler told the fraction it stands for |
| PendingShares.PendingShareIsAsked | contracts/osmo-liquid-pooler/src/contract.rs:139-152 | in every reachable joint state with a lock held, the pending share is what the lock stands for: everything, the allocation, or the allocation less the penalty |
| PendingShares.ExitsAskWhatTheLockStandsFor | contracts/osmo-liquid-pooler/src/contract.rs:223-283 | every exit sent in a run while the lock is held asks for the floor of that fraction of the cached LP balance |
| Astroport.GetPoolAssetAmounts | contracts/astroport-liquid-pooler/src/contract.rs:515-538 | the pool's last listed balances, or an error unless both are positive |
| Astroport.PoolBalanceIsLast | contracts/astroport-liquid-pooler/src/contract.rs:515-538 | the pool's balance of a denomination is that of its last entry |
| Astroport.OtherSideIff | contracts/astroport-liquid-pooler/src/contract.rs:335-356 | the other side's amount is computed exactly when neither ratio nor product leaves the range |
| Astroport.OtherSideBounds | contracts/astroport-liquid-pooler/src/contract.rs:335-356 | two truncations stay at or below the exact ratio amount and less than 1 + x / 10^18 below it |
| Astroport.DoubleSidedBounds | contracts/astroport-liquid-pooler/src/contract.rs:327-356 | both amounts are within the pooler's balances, one is used in full, the other is the pool-ratio amount up to that bound |
| Astroport.DoubleSidedIff | contracts/astroport-liquid-pooler/src/contract.rs:327-356 | exactly when the computation of a double-sided deposit aborts; the inverse product never does |
| Astroport.PoolersComputeSameFloor | contracts/astroport-liquid-pooler/src/contract.rs:172-178 | both poolers compute the floor of balance times fraction; exactly when the Astroport one errors; less than everything is redeemed for less than one |
| Telescoping.ExitShape | contracts/astroport-liquid-pooler/src/contract.rs:117-216 | a claim or ragequit transaction is a whole exit, with lock, redemption and settlement, or nothing |
| Telescoping.LeavesOnce | contracts/two-party-pol-holder/src/msg.rs:419-423 | a distribution that commits settles a position, and the holder leaves the clock exactly when nobody owns anything, so never twice |
| Telescoping.FirstExitKeepsInv | contracts/two-party-pol-holder/src/contract.rs:316-347 | the first exit leaves the counterparty with everything that remains |
| Telescoping.SecondExitKeepsInv | contracts/two-party-pol-holder/src/contract.rs:316-347 | the second exit takes all of it |
| Telescoping.EmergencyShape | contracts/two-party-pol-holder/src/contract.rs:210-269 | the committee's transaction redeems everything left, settles a position, and keeps the lock |
| Telescoping.EmergencyKeepsInv | contracts/two-party-pol-holder/src/contract.rs:257-269 | the committee's exit takes everything left, and no exit follows under the lock that stays |
| Telescoping.RunKeepsInv | contracts/two-party-pol-holder/src/contract.rs:166-347 | every run keeps the account of redeemed and remaining LP tokens |
| Telescoping.FirstExitBound | contracts/astroport-liquid-pooler/src/contract.rs:172-178 | the first exit takes less than everything for a fraction below one, and leaves at least the counterparty's share plus the penalty |
| Telescoping.LpTelescopes | contracts/two-party-pol-holder/src/contract.rs:199-202 | in every run of a share covenant, the committee included: at most two exits; redeemed and remaining LP tokens make up the position, the first exit redeems the floor of its fraction (or is the committee's and redeems all), and the second exactly the rest, after a ragequit at least the counterparty's share plus the penalty |
| PositionExits.WithdrawIff | contracts/astroport-liquid-pooler/src/contract.rs:117-216 | exactly when a withdrawal goes through, and what it redeems |
| PositionExits.ClaimExitsIff | contracts/two-party-pol-holder/src/contract.rs:166-208 | in every reachable state with claims open, a claim becomes an exit of the floor of its fraction exactly when that is redeemable and a last exit finds the clock running |
| PositionExits.RagequitExitsIff | contracts/two-party-pol-holder/src/contract.rs:501-550 | the same for an accepted ragequit, with the penalty below the allocation and fitting the splits |
| PositionExits.CommitteeExitsIff | contracts/two-party-pol-holder/src/contract.rs:210-227 | exactly when the committee's withdrawal goes through; it redeems everything and ends the covenant |
| PositionExits.TwoClaimsRedeemAll | contracts/two-party-pol-holder/src/contract.rs:316-347 | a run from instantiation whose two claims redeem the whole position |
| RemoteSplitter.LeftoverIsDust | contracts/remote-chain-splitter/src/contract.rs:272-282 | the leftover is less than one unit per receiver |
| RemoteSplitter.AllocatedWithin | contracts/remote-chain-splitter/src/contract.rs:241-278 | the allocated total never exceeds the amount, so the leftover never underflows |
| RemoteSplitter.SplitFunds | contracts/remote-chain-splitter/src/contract.rs:234-294 | for a validated split it succeeds exactly when every forwarder is ready; never an empty list, one output per receiver, each its floor, the leftover, less than one unit per receiver, to the first, summing exactly to the input |
| IbcForwarder.Contract.ExecuteTick | contracts/ibc-forwarder/src/contract.rs:188-301 | registers the account, or forwards with it once the next contract is ready |
| IbcForwarder.Contract.SudoOpenAck | packages/covenant-utils/src/ica.rs:93-121 | stores the account under the acknowledged port and advances the state, or rejects an unreadable version |
| IbcForwarder.Contract.SudoTimeout | packages/covenant-utils/src/ica.rs:46-58 | resets the state and forgets every account |
| IbcForwarder.ConsistentStepIff | packages/covenant-utils/src/ica.rs:46-121 | a message keeps state and account in correspondence exactly unless it acknowledges somebody else's port while there is no own account |
| IbcForwarder.Lifecycle | contracts/ibc-forwarder/src/contract.rs:309-325 | for every interleaving a deposit address is reported exactly in the created state, a tick there forwards from it, and the branch without an account is never taken |
| IbcForwarder.TickIff | contracts/ibc-forwarder/src/contract.rs:188-301 | exactly which ticks succeed: a registration before the account exists, afterwards a transfer over its own connection |
| IbcForwarder.StartsOver | packages/covenant-utils/src/ica.rs:46-121 | from any state a timeout, a registration and an acknowledgement lead to forwarding from the new account |
| IbcForwarder.AckStores | contracts/ibc-forwarder/src/state.rs:44-58 | an acknowledgement stores exactly its account under its port and touches no other; errors and responses change nothing |
| IbcFees.FlattenIbcFee | packages/covenant-utils/src/neutron.rs:151-167 | the sum over all three fee lists, or an abort when it leaves the range |
| IbcFees.TransferMessages | packages/covenant-utils/src/lib.rs:237-323 | one routed transfer per coin with the reserve held back from untrn; aborts exactly when the total fee, or with untrn listed the reserve, leaves the range |
| IbcFees.ReserveKept | packages/covenant-utils/src/lib.rs:254-271 | exactly the untrn coins above the reserve are sent, each less the reserve |
| IbcFees.SingleNtrn | packages/covenant-utils/src/lib.rs:254-271 | with one untrn coin listed it is sent, less a full fee for every coin and one more, if and only if it is above that |
| IbcFees.TotalFeeIsWhole | packages/covenant-utils/src/neutron.rs:151-167 | the total fee adds up every coin of the three lists |
| IbcFees.FeesCovered | packages/covenant-utils/src/lib.rs:237-323 | if untrn is sent, it and the fees of all transfers leave at least one further full fee, for any coin list |
| IbcFees.OthersSentInFull | packages/covenant-utils/src/lib.rs:252-319 | every other coin is sent in full exactly once, in order; every transfer takes the channel, receiver and forwarding configured for its denomination |

## Left out

- Telescoping.LpTelescopes: assumes that no LP tokens are added between the exits (a balance that grows would make the second exit redeem more), and that nobody but the holder puts it into or takes it out of the clock.
- Telescoping.ExitShape: the coins the Astroport pool returns are arbitrary inputs; only the redeemed LP tokens are computed.
- HolderRuns.BoundedPayouts: counts the distributions made on behalf of a party; emergency payouts are bounded in `CovenantRuns.CommitsBounded`, where the clock is part of the system.
- HolderRuns.DistributionConserves: for side-based and emergency payouts it assumes different routers and agreed splits within the whole; the exact condition, for any routers and receivers, is `HolderRuns.DistributionConservesIff`. Share-based payouts need neither.
- ClockRuns.Fairness: assumes that no address to be whitelisted is queued without being listed, which the clock does not check; `ClockRuns.AddAllDistinctIff` shows the assumption is exact for one message.
- CovenantRuns.LockProtocol: assumes that nobody but the holder puts it into or takes it out of the clock; the admin could do so by a migration. The initial clock names nobody twice, and for the clock's queue as a sequence the results hold in every run; the stored index follows it as long as no address is enqueued twice (`ClockRuns.AddAllDistinctIff`).
- IbcForwarder.Lifecycle: assumes acknowledgements on the contract's own port; `IbcForwarder.ConsistentStepIff` gives the exact condition.
- Holder.Contract.Distribute: the two error kinds of `apply_penalty` appear as one error of the holder.
- Holder.Contract.Tick: whether an expiration has passed is an input; the deposit's total amounts are the queried balances.
- Three covenant orchestrators (swap, single-party, two-party): address computation and message assembly.
- Migrations other than the clock's: admin overwrites, several of them unvalidated.
- `DistributeFallbackSplit` of the holder, and the fallback paths of forwarder, splitter and poolers: they move coins outside the covenant's denominations.
- `query_queue` and all other queries but `DepositAddress`; JSON, protobuf and bech32 encoding; response attributes and memos.
- The order of a `BTreeMap`'s keys: entries are taken in a given order, and the theorems hold for every order.
- Comparing incompatible expirations, address validation and contract lookups: flags on the message.
- Single-sided liquidity, slippage and pool ratio checks, and the record of provided liquidity of the Astroport pooler; the osmosis outpost's pool computations.
- Acceptance of a transaction by contracts outside the model (bank, note, Neutron's transfer module) is a flag; their insides are not modelled.
- The other contracts (stride liquid staker, native splitter, interchain router, native router, single-party and swap holders): the same patterns with less state.
