# Quicksilver in Dafny

A model of the core of Quicksilver, a liquid staking chain built on the Cosmos SDK, and
proofs of what that core keeps.

Users deposit native tokens of a remote zone and receive qAssets. The deposit is spread over
validators by an intent, carried to the zone's delegation accounts by interchain messages and
delegated there; redemptions go the other way. Epoch clocks, interchain queries and a
waitgroup of rewards withdrawals drive the bookkeeping, and an airdrop pays users for a list
of actions.

| file | models |
|---|---|
| `Dec.dfy`, `Words.dfy`, `Sums.dfy`, `Order.dfy` | the SDK's 18-decimal numbers, fixed-width integers, sums and stable sorts |
| `Coins.dfy`, `Allocations.dfy` | allocation lists, changed in place |
| `Intent.dfy`, `Plans.dfy`, `PlanShares.dfy` | intent deltas and delegation plans, in total and per validator |
| `Shift.dfy`, `Sweep.dfy`, `Pour.dfy`, `Rows.dfy`, `Redemption.dfy` | choosing what to undelegate for a redemption |
| `Accounts.dfy`, `Pipeline.dfy`, `Stakes.dfy` | delegation accounts, and deposits, plans and acknowledgements as a state machine |
| `Waitgroup.dfy` | the rewards withdrawal waitgroup over a run of callbacks |
| `QAsset.dfy`, `Gains.dfy` | minting, redeeming, the redemption rate and the split of rewards |
| `Epochs.dfy`, `Queries.dfy` | epoch clocks and the emission of interchain queries |
| `Airdrop.dfy`, `AirdropRuns.dfy` | airdrop claims, their caps and funds over every run, and genesis |
| `Varint.dfy`, `ClaimCodec.dfy`, `ClaimUnknown.dfy`, `ClaimWire.dfy`, `ClaimStore.dfy` | the wire form of claim records, and their store |

The pattern is the same everywhere. Functions on values say what the code computes, lemmas say
what that means, and classes, arrays and loops in the form of the Go code are proved to compute
those functions. `dafny verify dfyconfig.toml` checks the project.

Where iteration order is random (Go maps), the order is a parameter and the theorems hold for
all of them. Block times, heights, the answers of remote chains, and the outcome of bank,
governance, bonding and Osmosis checks are inputs.

## Where the code falls short of a property

Each of these is a lemma with a failing input or family, next to a lemma with the exact condition
under which the property does hold.

- `SatisfyRequestsForBins` recurses for ever exactly when the requests over the delta validators
  exceed what is delegated to them; otherwise it recurses at most once.
- `RedemptionTargets.Add` changes a copy of a target that is there already, so it adds the amount
  exactly when the pair is new or the amount is zero. Choosing targets only ever adds new pairs.
- A new epoch counts its withdrawals right exactly when no earlier withdrawal is still
  unacknowledged. From every other epoch end there is a run that requests the distribution while a
  query is still outstanding (`Waitgroup.LeftoverDistributesEarly`).
- The distribution of rewards is requested exactly by the acknowledgement of a packet whose
  messages are all that is outstanding. An epoch whose last outstanding item is an answer without
  rewards therefore settles without a request, unless a packet of the performance account is
  acknowledged after that.
- Rounding lets a deposit of k coins gain exactly when k * m reaches 10^18. Here m is the largest
  multiple of g that is not above half the rate, and g is the greatest common divisor of 10^18 and
  the rate counted in units of 10^-18. For a single coin that is exactly from a rate of 2 * 10^18 on.
- Rounding lets redemptions exceed the backing exactly from a supply of 2 * 10^18 units on.
- A claim record with a maximum below 2^63 keeps its cap exactly when what is claimed already plus
  what is open fits its maximum (`AirdropRuns.CapExactlyWhenPotentialFits`). Three things break it:
  a genesis with completed claims; weights that are negative or sum to more than one over the
  handled actions, such as 2 and -1, which the check of a drop accepts because it looks at the sum
  of all weights only; and a maximum from 2^63 on, which is read as a negative number. A drop
  keeps the caps of all fresh records with maxima below 2^63 exactly when no weight of a handled
  action is negative and these sum to at most one (`AirdropRuns.CapsExactlyWhenSafe`).
- A deposit passes an airdrop tier exactly when, a unit added, it exceeds the tier's percentage of
  the base value, so one that is short by less than a unit passes. A base value from 2^63 on is read
  as negative, and then every deposit passes every tier (`Airdrop.DepositPassesExactly`, `Airdrop.ShortDepositPasses`).
- Genesis starts a zone with less than its maximum allocations exactly when these add up to 2^64 or
  more.
- The comment on `MakeRequest` (x/interchainquery/keeper/keeper.go:144) says that a re-request
  triggers an existing query immediately. The code resets `LastHeight`, which the emission test
  does not look at, so the model follows the code: a re-requested query is emitted in the next
  block exactly when it was due there anyway (`Queries.ReRequestExactly`). A periodic query keeps
  its schedule (`Queries.PeriodicSchedule`), and a single query that was emitted stays silent
  (`Queries.SilentOnceEmitted`).
- A plan by user intent with weights that sum to one plans less than the deposit, all of it or more
  than it exactly as the sum of what the roundings leave out is positive, zero or negative
  (`Plans.UserPlanInFull`). The check of the message only bounds weights from above, so negative
  weights are let in, and with weights 1, 1, -1/2, -1/2 two units are planned for a deposit of one.
  Making coins of the shares panics exactly when one of them comes to minus one unit or less.
  Without negative weights the whole deposit is planned exactly when every share is a whole number
  of units.
- A plan by global intent always sums to the deposit if it comes out. It panics exactly when there
  is no intent or no positive total, or when the positive deltas do not cover the deposit and a
  share of the rest is negative or the shares exceed it; weights in [0,1] rule that last case out
  (`Plans.PlanIsExact`).

## Model

| member | source | states |
|---|---|---|
| `StableSort.TwoPassesSortLexicographically` | x/interchainstaking/types/delegation.go:225-232 | Sorting by address and then stably by amount gives the lexicographic order (amount, address) of the same elements, for any list |
| `StableSort.SortIgnoresArrangement` | x/interchainstaking/types/delegation.go:217-232 | Two arrangements of one list with distinct addresses sort to the same list, in both sort orders |
| `Coins.WithdrawSplits` | x/interchainstaking/types/delegation.go:243-259 | Taking coins denomination by denomination: what is left plus what was wanted is what was there plus the shortfall, and there is a shortfall only where nothing is left |
| `Allocations.AllocatedHeld` | x/interchainstaking/types/delegation.go:198-206 | Allocating adds the coins to that address and changes no other |
| `Allocations.AllocatedSum` | x/interchainstaking/types/delegation.go:198-206 | Allocating raises the sum of each denomination and the total by exactly the coins |
| `Allocations.AllocatedDistinct` | x/interchainstaking/types/delegation.go:198-206 | A list with one entry per address keeps one entry per address |
| `Allocations.SubtractedHeld` | x/interchainstaking/types/delegation.go:243-259 | Sub moves exactly the part that was there, returns the rest, touches nobody else and lowers the sum by what it moved |
| `Allocations.SumIgnoresArrangement` | x/interchainstaking/types/delegation.go:261-284 | Sums do not depend on the order of the list |
| `Allocations.Book.Allocate` | x/interchainstaking/types/delegation.go:198-206 | The loop over the list leaves the specified list |
| `Allocations.Book.Get` | x/interchainstaking/types/delegation.go:208-215 | Returns the first entry of the address, or none |
| `Allocations.Book.Sub` | x/interchainstaking/types/delegation.go:243-259 | Leaves the specified list and returns the specified shortfall |
| `Allocations.Book.WithdrawEach` | x/interchainstaking/types/delegation.go:246-255 | The loop over the wanted coins computes the specified split |
| `Allocations.Book.SumOf` | x/interchainstaking/types/delegation.go:261-267 | The loop computes the sum of a denomination |
| `Allocations.Book.SortByAddress` | x/interchainstaking/types/delegation.go:217-223 | Leaves the same entries in ascending order of address |
| `Allocations.Book.SortByAmount` | x/interchainstaking/types/delegation.go:225-232 | Leaves the same entries in ascending order of (amount, address) |
| `Intent.DeltaNearExact` | x/interchainstaking/types/delegation.go:311-322 | Every delta is within 1 + total/10^18 of the exact rational weight * total - current |
| `Intent.DeltasCoverIntent` | x/interchainstaking/types/delegation.go:311-326 | Each validator of the intent has exactly one delta and nobody else has one |
| `Intent.KeysIgnoreOrder` | x/interchainstaking/types/delegation.go:124-134 | Any two orders of ranging over the intent map give the same sorted keys |
| `Intent.DeltasDeterministic` | x/interchainstaking/types/delegation.go:311-326 | The deltas depend only on the contents of the bins and of the intent, not on list order or map iteration |
| `Plans.PlanIsExact` | x/interchainstaking/types/delegation.go:333-370 | A coin of another denomination, and only that, is the error. For all weights: every plan that comes out sums to exactly the deposited coin with one entry per validator; it comes out if and only if there is an intent, the new total is positive, and the positive deltas cover the coin or the shares of the rest stay non-negative and within it, which weights in [0,1] always meet; otherwise the call panics |
| `Plans.PlanFollowsDeltas` | x/interchainstaking/types/delegation.go:342-355 | While positive deltas cover the coin, nobody gets more than its positive delta and all but one validator get nothing or their whole delta |
| `Plans.PlanDeterministic` | x/interchainstaking/types/delegation.go:333-370 | The plan is the same for every arrangement of the bins and every iteration order of the intent |
| `Plans.FillConserves` | x/interchainstaking/types/delegation.go:342-355 | The first loop neither creates nor loses coins, and what it leaves is the coin less the positive deltas, or nothing |
| `Plans.SpreadConserves` | x/interchainstaking/types/delegation.go:357-363 | For all weights the proportional loop loses nothing, and it ends with a remainder that is not negative if and only if no share is negative and they stay within what is left |
| `Plans.CorrectIsExact` | x/interchainstaking/types/delegation.go:365-368 | Giving the remainder to the last delta makes the sum exact, and comes out if and only if the sum is not above the coin and there is a delta, or nothing to correct |
| `PlanShares.FillExactly` | x/interchainstaking/types/delegation.go:342-355 | The first loop gives each validator its positive delta as far as the coin reaches after the deltas before it |
| `PlanShares.SpreadExactly` | x/interchainstaking/types/delegation.go:357-363 | The second loop gives each validator its weight's share of what those before it leave, and nobody else anything |
| `PlanShares.CorrectExactly` | x/interchainstaking/types/delegation.go:365-368 | The correction gives all that is missing to the last delta and changes nobody else |
| `PlanShares.DeltasSorted` | x/interchainstaking/types/delegation.go:300-326 | The deltas are in ascending order of (delta, address), and the last one is larger than every other |
| `PlanShares.PlanExactly` | x/interchainstaking/types/delegation.go:333-370 | What each validator gets: while positive deltas cover the coin, its delta as far as the coin reaches in ascending order of (delta, address); otherwise its whole positive delta and its share of the rest in turn, and the largest in (delta, address) all that is then missing |
| `Plans.UserPlanDust` | x/interchainstaking/types/delegation.go:184-191 | What the roundings of a user plan leave out is less than one unit per validator in absolute value; without negative weights it is not negative, and nothing exactly when all shares are whole |
| `Plans.UserPlanSum` | x/interchainstaking/types/delegation.go:184-191 | For weights of any sign: a plan comes out if and only if no share comes to minus one unit or less, has one entry per validator and allocates the coin's weighted share less the sum of the roundings |
| `Plans.UserPlanExactly` | x/interchainstaking/types/delegation.go:184-191 | It allocates that share to the last unit if and only if the roundings cancel, which without negative weights is if and only if the share of every validator is a whole number of units |
| `Plans.UserPlanInFull` | x/interchainstaking/types/delegation.go:184-191 | With weights of any sign that sum to one, part of the deposit, all of it or more than it is planned as the sum of the roundings is positive, zero or negative; without negative weights all of it if and only if all shares are whole |
| `Plans.HalvesPlanNothing` | x/interchainstaking/types/delegation.go:184-191 | One unit under two halves: nothing of the deposit is planned |
| `Plans.NegativeWeightHidesDust` | x/interchainstaking/types/msgs.go:133-167 | Weights 1, 1/2, -1/2 on one unit, which the message check accepts: all of the deposit is planned although two shares are not whole |
| `Plans.PlanExceedsDeposit` | x/interchainstaking/types/msgs.go:133-167 | Weights 1, 1, -1/2, -1/2 on one unit, which the message check accepts: two units are planned |
| `Plans.UserPlanAdmitsShares` | x/interchainstaking/types/delegation.go:184-191 | The plan that the deposit handler takes is the shares of the intent, unless one of them is negative |
| `PlanShares.UserPlanExactlyFor` | x/interchainstaking/types/delegation.go:184-191 | In a plan by user intent every validator of the intent gets exactly its own share, and nobody else anything |
| `Plans.DetermineIntentDelta` | x/interchainstaking/types/delegation.go:311-326 | The loop over the sorted keys computes the specified sorted deltas |
| `Plans.FillDeltas` | x/interchainstaking/types/delegation.go:342-355 | The first loop computes the specified allocations and remainder |
| `Plans.SpreadByWeight` | x/interchainstaking/types/delegation.go:357-363 | The second loop computes the specified allocations and remainder |
| `Plans.CorrectRemainder` | x/interchainstaking/types/delegation.go:365-368 | The rounding correction computes the specified plan or panics where it does |
| `Plans.DelegationPlanFromGlobalIntent` | x/interchainstaking/types/delegation.go:333-370 | The method computes the specified plan, including the wrong denomination error and the panic |
| `Plans.DelegationPlanFromUserIntent` | x/interchainstaking/types/delegation.go:184-191 | One share per validator in order, each the weighted amount rounded toward zero, for weights of any sign |
| `Plans.AdmitShares` | x/interchainstaking/keeper/delegation.go:179-187 | Making coins of the shares panics if and only if one of them is negative, and gives the specified plan otherwise |
| `Shift.MoveLaw` | x/interchainstaking/keeper/zones.go:372-377 | One move between two requests takes at most what is asked and gives the other exactly that |
| `Shift.DrainLaw` | x/interchainstaking/keeper/zones.go:368-383 | Draining into one validator keeps all sums, raises only that validator, and leaves surplus only when every later request is empty |
| `Shift.DrainOrder` | x/interchainstaking/keeper/zones.go:368-383 | Requests are drained from the back: one is touched only once nothing is asked after it |
| `Shift.ShiftLaw` | x/interchainstaking/keeper/zones.go:365-388 | The whole double loop keeps the total, raises an over-delegated validator by at most the surplus it uses up, raises nobody else, and goes as far as it can |
| `Shift.ShiftOrder` | x/interchainstaking/keeper/zones.go:365-388 | The whole double loop takes from the back and gives to the front: a validator is raised only while something is asked after it and lowered only once nothing is |
| `Rows.ShiftIsFill` | x/interchainstaking/keeper/zones.go:365-388 | The double loop comes to filling the validators from the most over-delegated one on with all that is asked, each up to its own request and its surplus |
| `Sweep.SweepLaw` | x/interchainstaking/keeper/zones.go:393-410 | One pass keeps the sums and everything outside the deltas, and leaves every delta from the second on within its capacity |
| `Sweep.SecondSweepEnds` | x/interchainstaking/keeper/zones.go:393-410 | A second pass never overflows when the requests fit in total |
| `Sweep.TooMuchNeverSettles` | x/interchainstaking/keeper/zones.go:393-410 | When the requests exceed the capacity in total, no number of recursions ends |
| `Sweep.SettlesExactlyWhenFitting` | x/interchainstaking/keeper/zones.go:393-410 | The recursion ends if and only if the requests over the deltas fit their capacity in total, and then after at most one recursive call |
| `Sweep.SatisfiedLaw` | x/interchainstaking/keeper/zones.go:393-410 | The result fits every delta, keeps the total and changes no other request |
| `Rows.SweepRunsOver` | x/interchainstaking/keeper/zones.go:393-410 | One pass comes to letting what exceeds a delta's capacity run over into the next one, and from the last into the first |
| `Rows.SatisfiedRunsRound` | x/interchainstaking/keeper/zones.go:393-410 | The whole recursion comes to letting requests run over from delta to delta, once round |
| `Pour.FrontFirstIsFill` | x/interchainstaking/keeper/zones.go:365-388 | A row in which no bucket overflows and one stays short only if all after it are empty is the filling from the front: there is one such row |
| `Pour.RunOverLaw` | x/interchainstaking/keeper/zones.go:393-410 | Running over loses nothing and leaves every bucket within its capacity |
| `Redemption.BinsHoldDelegations` | x/interchainstaking/keeper/delegation.go:244-256 | The bins hold for each validator exactly what the delegation records hold, one bin per account |
| `Redemption.BinsHoldAccounts` | x/interchainstaking/keeper/delegation.go:244-256 | The bin of an account holds for each validator exactly what that account has delegated to it |
| `Redemption.AddTargetExactly` | x/interchainstaking/keeper/zones.go:355-363 | Adding keeps one target per (delegator, validator), and raises the sum by the amount if and only if the pair is new or the amount is zero |
| `Redemption.AddLosesRepeatedPair` | x/interchainstaking/keeper/zones.go:355-363 | Adding to a pair that is there already loses the amount |
| `Redemption.RequestLaw` | x/interchainstaking/keeper/zones.go:423-451 | The inner loop serves a request in full from the validator's records, or fails exactly when the request exceeds them |
| `Redemption.CollectLaw` | x/interchainstaking/keeper/zones.go:421-455 | Choosing targets fails if and only if some request exceeds what is delegated to its validator; otherwise targets sum to the requests, are unique per pair and are backed by records |
| `Redemption.TakeInOrder` | x/interchainstaking/keeper/zones.go:436-446 | The inner loop takes all of a request from its validator, and touches a delegation only once those before it are taken whole |
| `Redemption.CollectInOrder` | x/interchainstaking/keeper/zones.go:421-455 | The targets take from each validator exactly what is requested of it, and from its delegations in order |
| `Redemption.AdjustedLaw` | x/interchainstaking/keeper/zones.go:365-410 | After shifting and fitting, every delta is asked what filling from the front and running over gives, and what the filling gives where that fits already; every request of a delta validator fits its delegation, the total is unchanged and other validators are untouched |
| `Redemption.TargetsLaw` | x/interchainstaking/keeper/zones.go:412-456 | The exact condition for the whole choice to succeed, and sum, uniqueness and backing of its result; each validator gives exactly what it is asked after shifting and fitting, its smallest delegations first and whole |
| `Redemption.RedemptionSucceeds` | x/interchainstaking/keeper/zones.go:412-456 | From records and intent: requests for intent validators that fit in total always get targets that sum to the request, are unique, never exceed a record, take from each validator what shifting and fitting asks of it and its smallest delegations first; for any weights |
| `RedemptionLoops.ServeDelta` | x/interchainstaking/keeper/zones.go:368-383 | The inner loop over requests and deltas, in place, computes the specified requests and surplus |
| `RedemptionLoops.ShiftRequests` | x/interchainstaking/keeper/zones.go:365-388 | The outer loop, in place, computes the specified requests and deltas |
| `RedemptionLoops.SatisfyRequestsForBins` | x/interchainstaking/keeper/zones.go:393-410 | The loop with its recursive call computes the specified requests; its termination measure shows that it recurses at most once |
| `RedemptionLoops.ApplyDeltasToIntent` | x/interchainstaking/keeper/zones.go:365-388 | Shifting followed by fitting, in place, leaves the specified requests |
| `RedemptionLoops.GetDelegationBinsMap` | x/interchainstaking/keeper/delegation.go:244-256 | The two loops build the specified bins |
| `RedemptionLoops.AddRedemptionTarget` | x/interchainstaking/keeper/zones.go:355-363 | The loop appends the target unless the pair is there already, as specified |
| `RedemptionLoops.TakeTokens` | x/interchainstaking/keeper/zones.go:436-446 | The loop over candidate delegations computes the specified targets and rest |
| `RedemptionLoops.CollectTargets` | x/interchainstaking/keeper/zones.go:421-455 | The loop over requests computes the specified targets or the error |
| `RedemptionLoops.GetRedemptionTargets` | x/interchainstaking/keeper/zones.go:412-456 | The whole call, on in-place requests and deltas, computes the specified targets or the error |
| `Accounts.ChooseLaw` | x/interchainstaking/types/delegation.go:86-117 | The chosen delegation account exists and is the smallest bin, or already holds the validator without being much fuller than the smallest |
| `Accounts.ThresholdLaw` | x/interchainstaking/types/delegation.go:72-77 | At most 33 percent of the bins are under the threshold, and more than that are not above it |
| `Accounts.ChooseExactly` | x/interchainstaking/types/delegation.go:86-117 | Which account is chosen, in ascending order of (sum, address): the first that holds the validator under the threshold or holds nothing; without such the first that holds the validator, unless the smallest bin holds less than a third of it; without such the smallest |
| `Accounts.AssignKeepsAccounts` | x/interchainstaking/types/delegation.go:86-117 | Assigning keeps the set of accounts and one bin per account |
| `Accounts.AssignHeld` | x/interchainstaking/types/delegation.go:86-117 | Assigning adds the amount to what the chosen account holds of the validator, and changes nothing else |
| `Accounts.FindAccountForDelegation` | x/interchainstaking/types/delegation.go:86-117 | The method picks the specified account and leaves the specified bins |
| `Accounts.ChooseAccount` | x/interchainstaking/types/delegation.go:90-116 | The two loops pick the specified account |
| `Pipeline.AssignAllLaw` | x/interchainstaking/keeper/delegation.go:179-188 | Allotting a plan: sends and stored plans grow by the same amounts per account, together by exactly the plan |
| `Pipeline.TransferLaw` | x/interchainstaking/keeper/receipt.go:135-147 | The transfer of a send plan: one send per account that matches the stored plans of the deposit, for the sum of the send plan |
| `Pipeline.ConsumedLaw` | x/interchainstaking/keeper/ibc_packet_handlers.go:357-385 | Consuming the plans of a deposit and account makes messages of that account, to each validator for exactly what the plans hold for it; it takes their sum to zero and leaves the sums of all other deposits and accounts |
| `Pipeline.RepeatDelegatesNothing` | x/interchainstaking/keeper/ibc_packet_handlers.go:357-385 | A repeated acknowledgement of the same send finds no plans and delegates nothing |
| `Pipeline.AddRecordLaw` | x/interchainstaking/keeper/ibc_packet_handlers.go:720-740 | Updating a delegation record keeps one record per pair and raises its validator and the total by the amount |
| `Pipeline.SendMatchesPlans` | x/interchainstaking/keeper/ibc_packet_handlers.go:357-385 | In every reachable state every send of every packet in flight carries exactly the sum of the plans stored for its deposit and account |
| `Pipeline.HandleLaw` | x/interchainstaking/keeper/ibc_packet_handlers.go:81-209 | Handling one message keeps the invariant and the ledger |
| `Pipeline.AckLaw` | x/interchainstaking/keeper/ibc_packet_handlers.go:81-209 | Acknowledging a whole packet keeps the invariant and the ledger |
| `Pipeline.DepositLaw` | x/interchainstaking/keeper/receipt.go:22-99 | A deposit keeps the invariant and raises the ledger by what was planned; a repeated or unplannable one changes nothing |
| `Pipeline.RunConserves` | x/interchainstaking/keeper/callbacks.go:252-262 | Over every run of deposits and acknowledgements in any order, all that was planned is in a send, in a delegation message or in a record |
| `Pipeline.GlobalDepositPlannedInFull` | x/interchainstaking/keeper/delegation.go:150-192 | A first deposit under a global intent is planned to the last unit if its shares fit, which weights in [0,1] always do, and not at all otherwise |
| `Pipeline.UserDepositPlannedInFull` | x/interchainstaking/keeper/delegation.go:150-192 | A first deposit under a depositor's own intent with weights of any sign that sum to one is planned in part, in full or beyond as the sum of the roundings is positive, zero or negative; without negative weights in full if and only if all shares are whole |
| `Stakes.AckKeepsStake` | x/interchainstaking/keeper/ibc_packet_handlers.go:81-209 | An acknowledgement keeps, for every validator and every account, stored plans plus delegations in flight plus records |
| `Stakes.DepositedStake` | x/interchainstaking/keeper/receipt.go:135-147 | A deposit raises that sum for each validator by what its plan holds for it, at the account it is assigned to |
| `Stakes.GlobalDepositPlans` | x/interchainstaking/keeper/delegation.go:150-192 | A first deposit under the global intent plans for each validator its part by delta and weight, and for the largest in (delta, address) what is missing besides |
| `Stakes.UserDepositPlans` | x/interchainstaking/keeper/delegation.go:150-192 | A first deposit under a depositor's own intent plans for each validator its share, or nothing at all where the handler panics |
| `Stakes.RunKeepsStakes` | x/interchainstaking/keeper/callbacks.go:252-262 | Over every run in any order, for every validator, at one account or all: stored plans, delegations in flight and records grow by exactly what the deposits plan for it |
| `Stakes.QuietRunIsDelegated` | x/interchainstaking/keeper/ibc_packet_handlers.go:562-581 | Once nothing is in flight, the records hold exactly what was planned, in total, for every validator and for every pair of account and validator, and no plan amount is left |
| `PipelineKeeper.PutPlan` | x/interchainstaking/keeper/delegation_plan.go:108-114 | Writing a plan replaces the plan of the same key or adds it |
| `PipelineKeeper.PutRecord` | x/interchainstaking/keeper/ibc_packet_handlers.go:720-740 | The loop raises the record of the pair or adds one |
| `PipelineKeeper.BuildTransfers` | x/interchainstaking/keeper/receipt.go:135-147 | The loop builds one transfer per entry of the send plan |
| `PipelineKeeper.BuildDelegations` | x/interchainstaking/keeper/delegation.go:135-147 | The loop builds one message per positive allocation, as specified |
| `PipelineKeeper.GatherPlans` | x/interchainstaking/keeper/delegation_plan.go:93-105 | The iteration gathers the plans of a deposit and account |
| `PipelineKeeper.DropPlans` | x/interchainstaking/keeper/ibc_packet_handlers.go:373-377 | The loop removes exactly those plans |
| `PipelineKeeper.Keeper.DelegationPlan` | x/interchainstaking/keeper/delegation.go:158-174 | The plan for a deposit, by user or global intent |
| `PipelineKeeper.Keeper.AllotPlan` | x/interchainstaking/keeper/delegation.go:179-191 | The loop over the plan leaves the specified send plan and plan store |
| `PipelineKeeper.Keeper.TransferToDelegate` | x/interchainstaking/keeper/receipt.go:135-147 | Sends the sorted send plan as one packet |
| `PipelineKeeper.Keeper.HandleReceiptTransaction` | x/interchainstaking/keeper/receipt.go:22-99 | Leaves the specified state; the receipt check of the caller (callbacks.go:255-259) guards against repetition |
| `PipelineKeeper.Keeper.HandleSendToDelegate` | x/interchainstaking/keeper/ibc_packet_handlers.go:357-385 | Leaves the specified state |
| `PipelineKeeper.Keeper.HandleDelegate` | x/interchainstaking/keeper/ibc_packet_handlers.go:562-581 | Leaves the specified state |
| `PipelineKeeper.Keeper.HandleAcknowledgement` | x/interchainstaking/keeper/ibc_packet_handlers.go:81-209 | The loop over the messages of a packet leaves the specified state |
| `Waitgroup.AnswerKeepsCount` | x/interchainstaking/keeper/callbacks.go:116-139 | An answer to a rewards query keeps the counter equal to what is outstanding |
| `Waitgroup.AnswerSends` | x/interchainstaking/keeper/delegation.go:194-233 | An answer takes its own query and sends as many messages of that account as it names rewards, and none of any other |
| `Waitgroup.FirstKeepsCount` | x/interchainstaking/keeper/ibc_packet_handlers.go:742-791 | One acknowledged message takes itself off what is outstanding, nothing for the performance account, and requests a distribution exactly when the counter is then zero |
| `Waitgroup.AckKeepsCount` | x/interchainstaking/keeper/ibc_packet_handlers.go:81-209 | An acknowledged packet takes exactly its messages off what is outstanding, and requests a distribution if and only if it has messages and nothing is left |
| `Waitgroup.AckTakes` | x/interchainstaking/keeper/ibc_packet_handlers.go:81-209 | An acknowledgement takes the messages of its packet, account by account, and leaves the queries |
| `Waitgroup.PerformanceKeepsCount` | x/participationrewards/keeper/rewards_validatorSelection.go:221-236 | Withdrawals for the performance account, any number in one packet, are outside the counter |
| `Waitgroup.EpochEndCounts` | x/interchainstaking/keeper/hooks.go:43-89 | The epoch end starts with a right counter if and only if no withdrawal is unacknowledged (modulo 2^32) |
| `Waitgroup.LeftoverDistributesEarly` | x/interchainstaking/keeper/hooks.go:43-46 | From every epoch end with a withdrawal left over, a run that requests the distribution while a query is outstanding |
| `Waitgroup.StepRequestsExactly` | x/interchainstaking/keeper/ibc_packet_handlers.go:742-791 | While the counter is right and does not wrap, a step requests the distribution if and only if it acknowledges a packet with messages that are all that is outstanding before it |
| `Waitgroup.LastStepDecides` | x/interchainstaking/keeper/callbacks.go:116-139 | The step that settles the last outstanding item requests the distribution if it is an acknowledgement; the only other such step is an answer without rewards, which does not |
| `Waitgroup.SafeExactlyWhenClean` | x/interchainstaking/keeper/hooks.go:43-89 | Over every run, epoch ends included: the counter is what is outstanding at every point and a distribution is requested only when that is nothing, if and only if every epoch end comes with no withdrawal unacknowledged |
| `Waitgroup.RunRequestsExactly` | x/interchainstaking/keeper/ibc_packet_handlers.go:742-791 | Such a run requests the distribution if and only if one of its acknowledgements is of a packet that is all that is outstanding at that point |
| `Waitgroup.EpochIsSafe` | x/interchainstaking/keeper/hooks.go:43-89 | The same from every epoch end without unacknowledged withdrawals |
| `Waitgroup.NeverUnderflows` | x/interchainstaking/keeper/ibc_packet_handlers.go:742-791 | No decrement meets a counter of zero |
| `Waitgroup.LastAnswerEmptyNoDistribution` | x/interchainstaking/keeper/callbacks.go:116-139 | A run in which withdrawals are made and everything is answered, and no distribution is requested |
| `Waitgroup.WithdrawalMsgs` | x/interchainstaking/keeper/delegation.go:194-233 | The loop makes one message per delegation with rewards |
| `Waitgroup.ZoneCounter.AfterEpochEnd` | x/interchainstaking/keeper/hooks.go:43-89 | The loop over the accounts leaves the specified counter and queries |
| `Waitgroup.ZoneCounter.RewardsCallback` | x/interchainstaking/keeper/callbacks.go:116-139 | Leaves the specified counter, queries and packets |
| `Waitgroup.ZoneCounter.HandleAcknowledgement` | x/interchainstaking/keeper/ibc_packet_handlers.go:81-209 | The loop over a packet's messages leaves the specified state |
| `QAsset.MintNear` | x/interchainstaking/keeper/receipt.go:109-133 | Two-sided bounds of the worth of the minted units against the deposit |
| `QAsset.PayoutBounds` | x/interchainstaking/keeper/msg_server.go:81-88 | The payout is at most the worth of the units at either rate, and less than a unit below their worth at one of them |
| `QAsset.PayoutIgnoresRise` | x/interchainstaking/keeper/msg_server.go:81-88 | Units redeemed after a rise of the rate are paid as if it had not risen, and after a fall as if it had always been so |
| `QAsset.NoGain` | x/interchainstaking/keeper/msg_server.go:81-90 | Minting any list of coins and redeeming all of it, while the minting rate is the current one or once it is the last one and whatever the other rate is, never pays more than was deposited, while rate * coins < 2 * 10^18 |
| `QAsset.NoGainByUpdate` | x/interchainstaking/keeper/ibc_packet_handlers.go:864-874 | A deposit made before a rate update gains nothing by the update, whatever backing and supply are |
| `QAsset.GainAbove` | x/interchainstaking/keeper/receipt.go:109-133 | For every rate from 2 * 10^18 on, a deposit that gains |
| `QAsset.NoGainExactlyBelowBound` | x/interchainstaking/keeper/msg_server.go:81-90 | No deposit ever gains, in its epoch or the next, if and only if the rate is below 2 * 10^18 |
| `QAsset.SmallLoss` | x/interchainstaking/keeper/msg_server.go:81-90 | A redemption at the rate of the deposit, current or last, loses less than the rate plus two units for every rate below 10^18, with a general bound for all rates |
| `Gains.MintExact` | x/interchainstaking/keeper/receipt.go:115-118 | A deposit mints y units if and only if it is short of their worth by at most half a unit of the quotient, for every rate and y |
| `Gains.SurplusAtMostBest` | x/interchainstaking/keeper/receipt.go:115-118 | No coin is minted to more than its worth plus the best surplus: the largest multiple, in units of 10^-18, of the common divisor of the scaled rate and 10^18 that is not above half the rate |
| `Gains.BestIsReached` | x/interchainstaking/keeper/receipt.go:115-118 | Some coin reaches it, for every rate |
| `Gains.NoGainExactly` | x/interchainstaking/keeper/msg_server.go:81-90 | A deposit of k coins can never gain, in its epoch or the next and whatever the other rate, if and only if k times the best surplus of one coin is below one unit |
| `Gains.TwoCoinsGain` | x/interchainstaking/keeper/msg_server.go:81-90 | At a rate of 10^18 no number of coins gains, and at the next rate above two coins do |
| `QAsset.RatioNear` | x/interchainstaking/keeper/ibc_packet_handlers.go:876-890 | The rate is native tokens plus rewards over the supply to within half a unit of the last decimal, and one without a supply |
| `QAsset.RedemptionsSolvent` | x/interchainstaking/keeper/ibc_packet_handlers.go:864-890 | After a rate update, redeeming the supply in any pieces pays at most the delegated amount plus rewards, for supplies below 2 * 10^18 |
| `QAsset.BackingIsPaid` | x/interchainstaking/keeper/ibc_packet_handlers.go:864-890 | At a rate that has not risen, redeeming the whole supply pays the delegated amount plus rewards but for two units |
| `QAsset.InsolventAbove` | x/interchainstaking/keeper/ibc_packet_handlers.go:876-890 | For every supply from 2 * 10^18 on, a backing that redemptions exceed |
| `QAsset.SolventExactlyBelowBound` | x/interchainstaking/keeper/ibc_packet_handlers.go:864-890 | Redemptions stay within every backing if and only if the supply is below 2 * 10^18 |
| `QAsset.PortionIsFloor` | x/interchainstaking/keeper/ibc_packet_handlers.go:892-917 | The portion of each account is the integer quotient, below 2 * 10^18 accounts |
| `QAsset.FeeFits` | x/interchainstaking/keeper/ibc_packet_handlers.go:806-815 | The fee is the commission's part of the amount rounded down, and within it |
| `QAsset.MintQAsset` | x/interchainstaking/keeper/receipt.go:109-133 | A zero rate is an error, a coin that comes out negative panics, exactly then, and otherwise the specified sum is minted; at a positive rate always |
| `QAsset.PrepareRewardsDistribution` | x/interchainstaking/keeper/ibc_packet_handlers.go:892-917 | One equal send per account, and rewards = sends + dust with dust below the number of accounts |
| `QAsset.DistributeRewards` | x/interchainstaking/keeper/ibc_packet_handlers.go:806-855 | In every denomination, sends and fee transfers add up to the whole withdrawal balance |
| `Epochs.TickLaw` | x/epochs/keeper/abci.go:14-73 | One block keeps an epoch on its grid and extends its hook history by the right hooks |
| `Epochs.RunOnGrid` | x/epochs/keeper/abci.go:14-73 | Over every run of blocks with non-decreasing times: the start is StartTime + (n-1) * Duration, never in the future, and the hooks were Start 1, End 1, Start 2, .., Start n |
| `Epochs.TickExactly` | x/epochs/keeper/abci.go:16-73 | A block changes a clock if and only if it is the first from the start time on, or past start time + n * duration; only then the start height becomes that of the block, and the settings never change |
| `Epochs.StartsOnTime` | x/epochs/keeper/abci.go:16-73 | Over every run a clock has started if and only if there was a block at or after its start time |
| `Epochs.BacklogClears` | x/epochs/keeper/abci.go:14-73 | A backlog of k epochs at one time takes exactly k blocks |
| `Epochs.ClocksIndependent` | x/epochs/keeper/abci.go:14-60 | Each clock runs and calls its hooks as if it were alone |
| `Epochs.EveryClockOnGrid` | x/epochs/keeper/abci.go:14-73 | The grid and the hook order for every clock of a genesis store, over every run |
| `Epochs.TickEpoch` | x/epochs/keeper/abci.go:16-58 | One turn computes the specified epoch and hook calls |
| `Epochs.EpochKeeper.BeginBlocker` | x/epochs/keeper/abci.go:14-60 | The loop leaves the specified clocks and appends the specified calls |
| `Queries.PeriodicSchedule` | x/interchainquery/keeper/abci.go:23-45 | A stored periodic query is emitted at exactly its due height and every period after, whatever is requested or answered in between |
| `Queries.ReRequestExactly` | x/interchainquery/keeper/keeper.go:113-147 | A re-requested query is emitted in the next end block if and only if it was due there anyway, which is what happens without the re-request |
| `Queries.ReRequestStaysSilent` | x/interchainquery/keeper/keeper.go:113-147 | A re-requested query with period 5 that is not emitted in the next block |
| `Queries.NewQuerySchedule` | x/interchainquery/keeper/keeper.go:113-147 | A new periodic query is emitted from its first block on, every period |
| `Queries.SilentOnceEmitted` | x/interchainquery/keeper/abci.go:23-45 | An emitted query without a positive period stays silent while it is stored |
| `Queries.SingleEmission` | x/interchainquery/keeper/abci.go:23-45 | A query without a positive period is emitted exactly once while it is stored |
| `Queries.AnsweredSingleQueryIsGone` | x/interchainquery/keeper/msg_server.go:26-95 | The answer removes a single query, and a new request is emitted again |
| `Queries.AnswerExactly` | x/interchainquery/keeper/msg_server.go:26-95 | An answer that is unknown, repeated at the same height or rejected changes nothing; any other deletes a single query unless its callback asked again, stamps any other, stores the requests of the callback and leaves the rest |
| `Queries.SecondAnswerIgnored` | x/interchainquery/keeper/msg_server.go:36-43 | A second answer in the same block changes nothing, unless the query was requested again in between |
| `Queries.QueryKeeper.Ask` | x/interchainquery/keeper/keeper.go:113-147 | A request stores the query and changes no due height, period or emission of any stored query; a new one is due at once |
| `Queries.QueryKeeper.Response` | x/interchainquery/keeper/msg_server.go:26-95 | Leaves the specified store, nested requests included |
| `Queries.QueryKeeper.EndBlocker` | x/interchainquery/keeper/abci.go:23-45 | Emits exactly the due queries, once each, and stamps them |
| `Airdrop.LowerTiersVerify` | x/airdrop/keeper/claim_handler.go:126-157 | A deposit that passes a tier passes every lower tier, for every 64-bit base value |
| `Airdrop.DepositPassesExactly` | x/airdrop/keeper/claim_handler.go:126-157 | A deposit passes a tier if and only if, a unit added, it exceeds 5, 10, 15, 22 or 30 percent of the base value; base values from 2^63 on let everything pass |
| `Airdrop.ShortDepositPasses` | x/airdrop/keeper/claim_handler.go:126-157 | No deposit at all passes the first tier of a base value of 19 |
| `Airdrop.ShareIsFloor` | x/airdrop/keeper/claim_record.go:148-150 | A share is the weight's part of the maximum allocation rounded down |
| `Airdrop.ClaimableWithinShare` | x/airdrop/keeper/claim_record.go:122-164 | For every drop a claim is of an action of the drop, fits 64 bits and never brings more than the action's share, or for a negative share its 64-bit reading; until the decay starts it brings exactly that |
| `Airdrop.ClaimableDecays` | x/airdrop/keeper/claim_record.go:157-163 | During the decay a claim brings the share times the part of the decay time that is left, rounded down, with two-sided bounds, and nothing at the end of it |
| `Airdrop.ClaimableNeverRises` | x/airdrop/keeper/claim_record.go:122-164 | Waiting never brings more |
| `Airdrop.ClaimableExactly` | x/airdrop/keeper/claim_record.go:122-164 | There is an amount if and only if the action is in bounds and open, the drop has not expired and the share fits an int64 |
| `Airdrop.OpenWithinMax` | x/airdrop/keeper/claim_record.go:122-164 | With no negative weight and weights of handled actions of at most one in total, all open shares together fit every maximum below 2^63 |
| `Airdrop.TiersLaw` | x/airdrop/keeper/claim_handler.go:375-442 | For every drop the tier loop pays the growth of the completed sum modulo 2^64 and completes every tier it passes |
| `Airdrop.ClaimLaw` | x/airdrop/keeper/claim_handler.go:346-442 | For every drop a claim pays the growth of the completed sum modulo 2^64, completes its action, changes nothing else of the record and keeps the tiers closed |
| `Airdrop.ClaimGrows` | x/airdrop/keeper/claim_handler.go:346-442 | While no open share is negative, a claim never raises what the record can reach and, while the open shares fit 64 bits, pays exactly the growth |
| `Airdrop.ClaimKeepsReach` | x/airdrop/keeper/claim_handler.go:346-442 | A claim succeeds only for an action in reach, and every action in reach afterwards was in reach before |
| `Airdrop.ClaimExactly` | x/airdrop/keeper/claim_handler.go:28-62 | A claim succeeds if and only if its action is in reach and verified and the drop has not expired; it then completes the action, and for a tier the open tiers below it, at the block's time and for what each of them was worth by itself |
| `Airdrop.CompletedTiersVerify` | x/airdrop/keeper/claim_handler.go:28-62 | For every drop, every tier that a claim completes would have been verified by itself |
| `AirdropRuns.PotentialNeverRises` | x/airdrop/keeper/claim_handler.go:346-373 | While no open share is negative, the claimed sum stays over every run of claims within what the record could reach at the start |
| `AirdropRuns.CapNeedsPotential` | x/airdrop/keeper/invariants.go:26-48 | For every drop and every maximum: a record whose open shares do not fit has a run of claims that breaks its cap |
| `AirdropRuns.CapExactlyWhenPotentialFits` | x/airdrop/keeper/invariants.go:26-48 | For every drop and every maximum below 2^63 the cap invariant holds over every run of claims if and only if claimed plus open shares fit the maximum allocation |
| `AirdropRuns.FreshRecordCapped` | x/airdrop/keeper/invariants.go:26-48 | A record without completed actions and with a maximum below 2^63 keeps the cap over every run, for drops without negative weights of at most one in total |
| `AirdropRuns.CapsExactlyWhenSafe` | x/airdrop/keeper/invariants.go:26-48 | A drop with weights whose whole part fits an int64 keeps the cap of every fresh record with a maximum below 2^63 if and only if no weight of a handled action is negative and these sum to at most one |
| `AirdropRuns.NegativeWeightBreaksCap` | x/airdrop/types/airdrop.go:49-60 | Weights 2, -1, which sum to one as the drop check asks: a fresh record with a cap that a run of claims breaks |
| `AirdropRuns.WideMaximumBreaksCap` | x/airdrop/keeper/claim_record.go:122-164 | A maximum from 2^63 on is read as negative: every record with an open weight below one whose share is at least one unit has its cap broken by a run of claims |
| `AirdropRuns.CompletedAtGenesisBreaksCap` | x/airdrop/keeper/invariants.go:26-48 | A genesis record with completed claims for which the cap is broken later |
| `AirdropRuns.ClaimedWithinMax` | x/airdrop/keeper/invariants.go:26-48 | In every state of the invariant a zone's claims are within its maximum allocations |
| `AirdropRuns.PermittedClaimIsCovered` | x/airdrop/keeper/claim_handler.go:444-460 | Every claim a record permits is covered by its zone's account |
| `AirdropRuns.ClaimKeepsInv` | x/airdrop/keeper/claim_record.go:196-226 | A claim keeps the caps, the closed tiers and the balance of every zone |
| `AirdropRuns.ClaimPaysWhatIsPermitted` | x/airdrop/keeper/claim_record.go:196-226 | A claim in an active zone is refused only by the claim itself, never for lack of funds |
| `AirdropRuns.ClaimPaysExactly` | x/airdrop/keeper/claim_record.go:196-226 | A claim is paid if and only if its zone drop is active, there is a record, and the action is in its reach and verified; the zone's account falls and the record grows by the payment, nothing else changes, and without a payment nothing does |
| `AirdropRuns.RunKeepsInv` | x/airdrop/keeper/claim_record.go:196-226 | The same over every run of claims |
| `AirdropRuns.PutRecordLaw` | x/airdrop/keeper/claim_record.go:30-42 | Storing a claim record replaces the one of its zone and address and leaves all others |
| `AirdropRuns.GenesisFundsZones` | x/airdrop/genesis.go:18-62 | A genesis of fresh records with maxima below 2^63 that does not panic establishes the invariant if and only if no handled weight is negative, they sum to at most one per drop, and no zone's sum of maximum allocations reaches 2^64 |
| `AirdropRuns.GenesisExactly` | x/airdrop/genesis.go:14-62 | Genesis goes through if and only if the module account covers the 64-bit sum of the maximum allocations and the allocations of all drops, and every drop has records and their 64-bit sum; it then stores exactly the given drops |
| `AirdropRuns.GenesisState` | x/airdrop/genesis.go:18-62 | For every list of drops, a genesis that does not panic stores the records as given and funds each zone with its sum modulo 2^64 |
| `AirdropRuns.GenesisCanWrap` | x/airdrop/genesis.go:18-62 | A genesis that passes every check and breaks the invariant |
| `AirdropKeeper.VerifyDeposits` | x/airdrop/keeper/claim_handler.go:126-157 | The loop over receipts decides the specified threshold test |
| `AirdropKeeper.ClaimTiers` | x/airdrop/keeper/claim_handler.go:397-418 | The tier loop computes the specified amount and record |
| `AirdropKeeper.Keeper.InitGenesisState` | x/airdrop/genesis.go:18-62 | Leaves the specified state or reports the panic |
| `AirdropKeeper.Keeper.FundZones` | x/airdrop/genesis.go:34-62 | The loop over zone drops leaves the specified drops and funds |
| `AirdropKeeper.Keeper.ClaimAction` | x/airdrop/keeper/claim_record.go:196-226 | Leaves the specified state and returns the specified result, errors included |
| `ClaimStore.StoreRoundTrip` | x/airdrop/keeper/claim_record.go:12-42 | A claim record comes out of the store as it went in, whatever order its map was written in, and one with an address is found again |
| `Varint.SovIsLength` | x/airdrop/types/airdrop.pb.go:605-607 | A varint takes exactly sov(v) bytes, for every v |
| `Varint.ReadBitsLaw` | x/airdrop/types/airdrop.pb.go:872-886 | The shift loop, with its bitwise or and its overflow checks, reads a varint back into an accumulator of any width |
| `Varint.ReadVarintLaw` | x/airdrop/types/airdrop.pb.go:872-886 | A 64-bit varint decodes to the value it encodes, and the cursor ends behind it |
| `Varint.ReadsFit` | x/airdrop/types/airdrop.pb.go:872-886 | On any bytes the accumulators stay within 64 and 32 bits |
| `Varint.EncodeVarint` | x/airdrop/types/airdrop.pb.go:513-523 | Writes exactly the varint just below the offset and nothing else of the buffer |
| `Varint.DecodeVarint` | x/airdrop/types/airdrop.pb.go:872-886 | The loop computes the specified reading or error |
| `ClaimCodec.SizeIsExact` | x/airdrop/types/airdrop.pb.go:555-603 | Size is the exact number of bytes of the wire form |
| `ClaimCodec.ActionRoundTrip` | x/airdrop/types/airdrop.pb.go:1134-1235 | A completed action decodes to itself |
| `ClaimCodec.EntryRoundTrip` | x/airdrop/types/airdrop.pb.go:992-1073 | A map entry decodes to its key, negative keys included, and its value, nil included |
| `ClaimCodec.MapRoundTrip` | x/airdrop/types/airdrop.pb.go:960-1074 | The entries of the map are all stored, whatever order they were written in |
| `ClaimCodec.DecodeMerges` | x/airdrop/types/airdrop.pb.go:867-1133 | Decoding the wire form into any record adds it to that record: omitted fields keep their value, map entries are merged |
| `ClaimCodec.RecordRoundTrip` | x/airdrop/types/airdrop.pb.go:867-1133 | Unmarshal(Marshal(r)) = r for every record and every iteration order of its map |
| `ClaimCodec.DecodedRecordRoundTrips` | x/airdrop/types/airdrop.pb.go:867-1133 | Any bytes that decode, canonical or not, give a record within Go's types that survives being written and read again |
| `ClaimUnknown.SkipsField` | x/airdrop/types/airdrop.pb.go:1236-1313 | Every well-formed field of any wire type, nested groups included, is passed over exactly to its end |
| `ClaimUnknown.UnknownFieldsPass` | x/airdrop/types/airdrop.pb.go:1117-1133 | Wherever the decoder stands at well-formed fields with new numbers, it goes on behind them with the same record |
| `ClaimUnknown.UnknownFieldsIgnored` | x/airdrop/types/airdrop.pb.go:867-1133 | A record decodes to itself whatever well-formed fields with new numbers stand before, between and after its own |
| `ClaimUnknown.MalformedFieldFails` | x/airdrop/types/airdrop.pb.go:867-1133 | A field number of zero, a known field of another wire type and an end of no group are the respective errors |
| `ClaimUnknown.OverlongFieldFails` | x/airdrop/types/airdrop.pb.go:867-1133 | A string or map entry that claims to be longer than the data is an error |
| `ClaimWire.SizeIgnoresOrder` | x/airdrop/types/airdrop.pb.go:555-590 | The map order of Size does not matter to the map order of Marshal |
| `ClaimWire.Size` | x/airdrop/types/airdrop.pb.go:555-590 | The loop computes the exact length of the wire form |
| `ClaimWire.MarshalAction` | x/airdrop/types/airdrop.pb.go:492-511 | Fills the buffer from `end` downwards with exactly the wire form, and fails exactly when the time cannot be encoded |
| `ClaimWire.MarshalEntries` | x/airdrop/types/airdrop.pb.go:436-459 | The range loop fills the buffer downwards with exactly the entries, and fails exactly when some time cannot be encoded |
| `ClaimWire.MarshalToSizedBuffer` | x/airdrop/types/airdrop.pb.go:421-475 | Fills the end of the buffer with exactly the wire form and returns its length |
| `ClaimWire.Marshal` | x/airdrop/types/airdrop.pb.go:406-415 | Returns exactly the wire form in a buffer of the predicted size, or fails exactly when a time cannot be encoded; the result decodes to the record |
| `ClaimWire.Skip` | x/airdrop/types/airdrop.pb.go:1236-1313 | skipAirdrop: the loop with its group depth computes the specified end or error |
| `ClaimWire.UnmarshalAction` | x/airdrop/types/airdrop.pb.go:1134-1235 | The loop computes the specified action or error |
| `ClaimWire.UnmarshalEntry` | x/airdrop/types/airdrop.pb.go:992-1072 | The loop over one entry computes the specified key and value or error |
| `ClaimWire.Unmarshal` | x/airdrop/types/airdrop.pb.go:867-1133 | On any bytes the loop ends and computes the specified record or error; on the wire form of a record that is the record (`ClaimCodec.RecordRoundTrip`) |

## Left out

- Queries.AnsweredSingleQueryIsGone: is about queries with a negative period, which is what the answer deletes; the nested requests of the callback are arbitrary.
- ClaimWire.Unmarshal: returns the record or the error; the fields that the Go receiver already received when an error occurs are not modelled.
- ClaimWire.Marshal: what the buffer holds when a time cannot be encoded is not modelled, since the caller gets no bytes then.
- Waitgroup.ZoneCounter.RewardsCallback: an answer is to a query that is still stored, which the query module sees to (`Queries.AnsweredSingleQueryIsGone`); an answer delivered twice is not modelled.
- Accounts.ThresholdLaw: the threshold index int(0.33 * n) is modelled as 33 * n / 100, which floating point meets for every realistic number of accounts.
- RedemptionLoops.GetRedemptionTargets: asks for requests that fit the delta validators in total, because the call does not end otherwise (`Sweep.SettlesExactlyWhenFitting`); a validator address that does not decode from bech32 is not modelled.
- Allocations.Book: a Go slice of pointers is one object here, so lists that share entries after a copy of the slice are not modelled.
- AirdropRuns.CapsExactlyWhenSafe: is about weights below 2^63; a claim of an action with a larger weight panics for every positive maximum. The times of the drop are as its ValidateBasic asks.
- AirdropRuns.CapExactlyWhenPotentialFits: is about maxima below 2^63; for larger ones `CapNeedsPotential` gives one direction and `WideMaximumBreaksCap` a failing family.
- ClaimStore.StoreRoundTrip: is about records without nil entries in their map; Go reads a nil entry as a completed action, while the model of the store drops it.
- Integer overflow of the SDK's 256-bit integers and decimals, which panics.
- The rest of RequestRedemption: withdrawal records, the burn of qAssets, and that ordering the intent changes the stored aggregate intent through a shared pointer.
- Unbonding, redelegation, tokenized shares and the life cycle of withdrawal records.
- Deposits of tokenized shares (DelegationPlanFromCoins) and plans with several denominations; the pipeline plans the base denomination.
- The delegation of rewards that come back to a delegation account (x/interchainstaking/keeper/ibc_packet_handlers.go:343-355), which makes a plan of its own outside any deposit.
- Updates that set a delegation record to the amount a remote chain reports (x/interchainstaking/keeper/callbacks.go:159-203); the pipeline only knows additions.
- That claims are paid from zone accounts which the list of module account permissions (app/app.go:186-201) does not name; the bank is a map of balances here.
- Failed sends, packet timeouts, closed channels and the errors of SubmitTx.
- Verification of light client headers and Merkle proofs in callbacks.
- The cache of query datapoints, time-to-live of queries, and the panics of registering callbacks.
- The checks behind airdrop actions other than deposits (bonding, intent, governance, Osmosis pools), which enter as a boolean.
- EndZoneDrop and the return of unclaimed tokens.
- The codec of time stamps is a parameter that is assumed to decode what it encodes; generated codecs of other messages follow the same scheme and are not modelled.
- The epochs of `AfterEpochEnd` other than the withdrawal of rewards, and the participation rewards and mint modules.
- Genesis export, queries of the API, the command line and telemetry, which would only add easy members.
