# Verified model of the flash-loan arbitrage pipeline

The pipeline finds arbitrage rings over live pools, prices them, packs the best ones into one
transaction, has it signed, and executes it on chain under a flash loan. This project models five
parts of it and proves what they promise, alone and where they meet.

**The executor contract.** `ExecutorModel` is `BaseArbExecutor` as a state machine over one world:
a token ledger, the contract's storage, and the log of committed operations. Adapters, tokens, the
pool and every caller are arbitrary code, given as finite trees of actions that may call back into
any entry point of the contract, or ask its public getters; a failed call is undone whole.
`BaseArbExecutor` is the contract in its own form, a class whose methods set and clear fields and
loop over legs and candidates; each method is proved to agree with the state machine. The results
are about every run: who can move the contract (`ExecutorAuthority`), what re-entrant code cannot
change (`ExecutorSafety`), with which error it refuses (`ExecutorRefusals`), what the contract
keeps custody of (`ExecutorCustody`, `ExecutorSpending`), when an operation commits and what it
then earns (`ExecutorRuns`, `ExecutorLiveness`), how the fallback menu behaves (`ExecutorFallback`,
`ExecutorMenu`, `ExecutorSelection`), and the invariant of all histories (`ExecutorHistory`).
`SwapAdapters` models the two adapters. `PlanExecution` runs a planned candidate on chain and says
when legs chain exactly, `RouteExecution` says the same of a whole `start`, `ScriptedMarkets`
builds for any payable list of deliveries a market that makes them, and `Witnesses` holds two
concrete operations at which a property ends.

A chain is *honest* when its tokens follow `TokenLedger` and its pool lends exactly the amount,
calls back once and pulls exactly amount and premium. Statements about storage, locks and
commitments hold without that; statements about balances assume it unless they say "any pool" or
"any kind". Adapters are never assumed honest, except where a statement says which outputs they
deliver.

Under both locks every entry point that can change anything reverts, but the public getters still
answer. Storage is therefore frozen against all outside code, while *independence* of storage holds
exactly between two storages that give the same answers to what that code asks
(`IndistinguishableExactly`); statements that compare two storages carry this as a hypothesis.

**The packed batch format.** Python writes and reads it, Rust writes and validates it, the contract
reads it. `PackedFormat` defines the format once; each implementation is modelled with its own
loops and proved against it, and `PackedAgreement` ties them together. `PackedLayout` says what the
format is, byte by byte and in numbers, `PackedPositions` where each implementation puts and finds
every field of its own request, and `PackedErrors` what a wrong byte string is refused for.

**Transaction encoding.** `Rlp` is the recursive length prefix of Appendix B of the Ethereum Yellow
Paper, as the planner writes it and a strict decoder reads it. `TransactionSize` proves the size
estimate for the transactions of EIP-1559 ("Specification" section). `SignerPolicy` is the gateway
that admits requests and compares the signed fields with them.

**The ring search.** `PoolGraph` is the mutable two-way index and the bounded enumeration,
`RingDedup` the rotation dedup and the statement about both: every directed ring once.

**The planner.** `RouteQuoting` compares hop-by-hop with size-by-size quoting, `BatchPlanner` and
`BatchFinalizer` group and trim, and `PlannedBatch` follows the plan to the chain: a committed plan
earns at least the cost it was priced with plus the net profit it reported. `SeenLogs` is the
bounded memory of handled events.

## What the code does where its documentation says otherwise, and where a promise fails

- The block gate is `block.number > targetBlock` (contracts/src/BaseArbExecutor.sol:157): "no later
  than", while README.md:36 says "exact". The model follows the code.
- The clean-intermediates check skips the asset (contracts/src/BaseArbExecutor.sol:414, 424). A
  route may pass the asset midway, and that leg then spends the contract's whole asset balance.
  `MidwayTakesTheSpare` is an accepted, clean route that commits although its third leg spends 15 where
  the second delivered 10. `ChainsExactly` gives the exact condition, which can be read off before the
  call: every leg spends exactly what the leg before delivered if and only if the route passes the
  asset nowhere midway or the contract held none of the asset before the loan.
- Python's encoder compares the two tokens of a leg as text, but reads hexadecimal with white space
  allowed: one token can pass as two (`SpacedTwinIsPacked`). `TokensDifferExactly` gives the exact
  condition: the leg means two different tokens if and only if the two texts still differ once white
  space is dropped and letters are lowered. All three decoders accept equal tokens; the contract's
  validation refuses them later.
- A pool that trades a token for itself can hide a ring (`SelfTradeHidesRing`);
  `RingsReportedExactly` states when a ring is reported, and `EveryRingOnce` that this is always so
  without such pools. `PoolMetadata.create` does not exclude them.
- The gateway admits calldata with white space in it, and can then never find it repeated in a
  signed payload (`SpacedRequestIsUnanswerable`; `AnswerableExactly` says exactly when an admitted
  request can be answered). It fails closed.
- The gateway's own comparison accepts integers with leading zeros (`ZeroNoncePassesTwice`).
- A token that treats the largest allowance as unlimited (contracts/src/mocks.sol:30) keeps the pool's
  allowance if exactly that amount was owed. A committed operation leaves the pool an allowance of its
  asset if and only if it owed 2^256 - 1 of such a token (`StartLeavesAllowanceExactly`,
  `PackedLeavesAllowanceExactly`), and `LargestLoanLeavesAllowance` is a run that does. Over every run no
  other allowance is outstanding between transactions (`NoAllowanceOutstanding`).
- The packed integer writers agree on every width the format uses; in no bytes at all, Python writes
  zero and Rust refuses it (`UintBytesAgree`).
- When a longer menu cannot be simulated or measured, the finalizer stops there and does not try
  the shorter menus that might pay (`EligibleExactly`).

## Model

| member | source | states |
|---|---|---|
| `ExecutorHistory.RunInvariant` | contracts/src/BaseArbExecutor.sol:94-283 | over every run of transactions, with any nesting of re-entrant calls by anyone: between transactions all locks and active fields are clear, logged commitments are pairwise distinct and are exactly the used ones, and with honest tokens and pool nobody but the pool holds an allowance of the contract and holdings plus owner sweeps never shrink |
| `ExecutorHistory.InvariantAct` | contracts/src/BaseArbExecutor.sol:94-283 | one action by any caller, including any tree of nested calls, keeps that invariant |
| `ExecutorHistory.DeployedAtRest` | contracts/src/BaseArbExecutor.sol:118-123 | a fresh deployment satisfies the invariant |
| `ExecutorHistory.OnlySweepsLower` | contracts/src/BaseArbExecutor.sol:154-283 | in every reachable state, a committed transaction that sweeps none of a token does not lower the contract's balance of it |
| `ExecutorHistory.NoAllowanceOutstanding` | contracts/src/BaseArbExecutor.sol:530-537 | over every run, between transactions the contract has no allowance outstanding, except the largest one to the pool, for a token that never uses it up and whose last logged operation owed exactly 2^256 - 1 |
| `ExecutorRuns.StartLeavesAllowanceExactly` | contracts/src/BaseArbExecutor.sol:248-258 | a committed start leaves the pool an allowance of its asset if and only if amount and premium make exactly 2^256 - 1 and the token never uses that allowance up |
| `ExecutorRuns.PackedLeavesAllowanceExactly` | contracts/src/BaseArbExecutor.sol:312-320 | the same for a committed startPacked |
| `Witnesses.LargestLoanLeavesAllowance` | contracts/src/mocks.sol:26-34 | a run that reaches the exception: the owner borrows 2^256 - 1 at no premium, commits, and the pool keeps the largest allowance |
| `ExecutorHistory.NoBatchCommitsTwice` | contracts/src/BaseArbExecutor.sol:189-203 | two log entries never stand for the same decoded batch, because the packed form is canonical |
| `ExecutorHistory.NoRouteCommitsTwice` | contracts/src/BaseArbExecutor.sol:154-164 | two log entries never stand for routes equal in every committed field and leg |
| `ExecutorHistory.NoCallbackAtRest` | contracts/src/BaseArbExecutor.sol:226-244 | outside an operation a flash-loan callback always reverts, whoever sends it and whatever it carries |
| `ExecutorHistory.SweepInvariant` | contracts/src/BaseArbExecutor.sol:281-283 | a sweep keeps the invariant, with any token |
| `ExecutorHistory.SweepExactly` | contracts/src/BaseArbExecutor.sol:281-283 | a sweep of an honest token to anybody else moves exactly the amount out of the balance and into the sweep record, so that the two together stay exactly as they were, and touches no other token, allowance, setting or log entry |
| `ExecutorRuns.PoolStaysAtRest` | contracts/src/BaseArbExecutor.sol:530-537 | a pool allowance that outlives its operation is explained by the log |
| `ExecutorRuns.StartInvariant` | contracts/src/BaseArbExecutor.sol:154-178 | a committed start keeps the invariant, with any pool and any adapters |
| `ExecutorRuns.StartPackedInvariant` | contracts/src/BaseArbExecutor.sol:185-224 | the same for startPacked |
| `ExecutorRuns.StartLeavesStore` | contracts/src/BaseArbExecutor.sol:154-178 | with any pool: a committed start leaves in storage one more used commitment and nothing else changed, sweeps nothing, and adds one log entry with the route's hash, asset and amount and the asset's real gain, at least minProfit |
| `ExecutorRuns.StartPackedLeavesStore` | contracts/src/BaseArbExecutor.sol:185-224 | the same for startPacked, with the hash of the bytes themselves as the commitment |
| `ExecutorHistory.LateStartChangesNothing` | contracts/src/BaseArbExecutor.sol:157 | in every run, a start in a transaction past the route's own block or deadline changes nothing, whatever the pool does |
| `ExecutorHistory.LateStartPackedChangesNothing` | contracts/src/BaseArbExecutor.sol:190 | the same for startPacked, by the block and deadline that the bytes carry |
| `ExecutorSafety.LockedCall` | contracts/src/BaseArbExecutor.sol:94-154 | while both locks are held every entry point that can change anything reverts for every outside caller: owner, pending owner, pool, adapter or token |
| `ExecutorSafety.LockedTree` | contracts/src/BaseArbExecutor.sol:94-116 | under both locks no finite tree of outside calls changes any storage field or the log, and it does the same to the ledger over any two storages that answer alike what the tree asks the public getters |
| `ExecutorSafety.IndistinguishableExactly` | contracts/src/BaseArbExecutor.sol:58-74 | two storages behave alike under all outside code if and only if they agree on everything the public getters show: owner, successor, allow-lists, used commitments and the pause |
| `ExecutorSafety.LegsFreezeStorage` | contracts/src/BaseArbExecutor.sol:322-350 | from the first leg to the last no storage field changes, whatever the adapters ask; and two storages that answer alike what they ask give the same outcome |
| `ExecutorSafety.AttemptFreezesStorage` | contracts/src/BaseArbExecutor.sol:262-279 | the same for one packed attempt |
| `ExecutorSafety.OperationTree` | contracts/src/BaseArbExecutor.sol:111-116 | whatever a pool does during an operation, the commitment, the pre-loan balance, the allow-lists, the owner and the log stay as they were; only the callback's own report changes |
| `ExecutorSafety.CallbackKeepsOperation` | contracts/src/BaseArbExecutor.sol:226-260 | a callback changes nothing in storage but premium and selection |
| `ExecutorSafety.CallbackNeedsPool` | contracts/src/BaseArbExecutor.sol:230-232 | in any world a callback gets through only from the pool, for a loan initiated by the contract, and not inside another callback; who is refused with which error |
| `ExecutorSafety.CallbackReportsPremium` | contracts/src/BaseArbExecutor.sol:248-309 | a callback that goes through leaves exactly the charged premium in storage |
| `ExecutorSafety.PoolKeepsOperation` | contracts/src/BaseArbExecutor.sol:172-212 | the pool call as a whole cannot exchange the operation it belongs to |
| `ExecutorSafety.CallbackRunsStartedRoute` | contracts/src/BaseArbExecutor.sol:240-245 | the callback of a started route runs that very route, whatever params the pool passes |
| `ExecutorSafety.CallbackRunsStartedBatch` | contracts/src/BaseArbExecutor.sol:293-298 | the callback of a started batch decodes the very bytes that were started, and is not past its block or deadline |
| `ExecutorSelection.CommitsFromMenu` | contracts/src/BaseArbExecutor.sol:185-224 | with any pool: a committed startPacked logs a candidate of its own batch, by place and id, and the asset grew by at least that candidate's minimum profit; without a successful callback nothing commits |
| `ExecutorSelection.TreeSelects` | contracts/src/BaseArbExecutor.sol:299-311 | whatever the pool does meanwhile, re-entrant or not, the reported selection is none or a candidate of the started menu with its own id, place and minimum profit |
| `ExecutorAuthority.StrangersChangeNothing` | contracts/src/BaseArbExecutor.sol:94-283 | between operations no finite tree of calls without a message from the owner or the pending owner changes storage, log or sweeps |
| `ExecutorAuthority.ChangeNeedsMaster` | contracts/src/BaseArbExecutor.sol:94-283 | over every run: a transaction that logs an operation, sweeps or moves a setting carries a message from one of the two |
| `ExecutorAuthority.StrangerCallFails` | contracts/src/BaseArbExecutor.sol:94-109 | at rest every entry point that can change anything refuses everybody else |
| `ExecutorAuthority.OwnerSets` | contracts/src/BaseArbExecutor.sol:125-138 | a setting changes as asked, alone, exactly for the owner of an idle contract |
| `ExecutorAuthority.OwnershipHandover` | contracts/src/BaseArbExecutor.sol:140-152 | ownership moves in two steps, to the named non-zero successor only |
| `ExecutorAuthority.SettingsNeedSetter` | contracts/src/BaseArbExecutor.sol:125-152 | over every run: owner, successor, allow-lists and pause move only in a transaction that carries one of the five messages that set them; no operation, callback or sweep moves them |
| `ExecutorAuthority.NoSettingAct` | contracts/src/BaseArbExecutor.sol:125-283 | one action without such a message leaves the settings as they are, with any nesting and any operations committed on the way |
| `ExecutorAuthority.StartAdmitsExactly` | contracts/src/BaseArbExecutor.sol:154-162 | start reaches the loan exactly for the owner of an unpaused, unlocked contract and a fresh, correctly hashed, unused, accepted route on clean intermediates |
| `ExecutorAuthority.StartPackedAdmitsExactly` | contracts/src/BaseArbExecutor.sol:185-197 | startPacked reaches the loan exactly for the owner and for bytes that encode a well-formed, fresh, accepted, clean batch not used before |
| `Commitment.LegsHashInjective` | contracts/src/BaseArbExecutor.sol:508-528 | the fold over the legs determines the whole list and its length |
| `Commitment.LegsHashAppends` | contracts/src/BaseArbExecutor.sol:508-516 | one more leg is hashed behind the hash of all legs before it, from the zero word on, with its data hashed once |
| `Commitment.RouteDigestBinds` | contracts/src/BaseArbExecutor.sol:508-528 | equal route hashes come from routes equal in every committed field and leg |
| `Commitment.HashRoute` | contracts/src/BaseArbExecutor.sol:508-528 | the contract's hashing loop computes the recursive digest |
| `Commitment.PlannerRouteHash` | python/src/arb_bot/execution.py:358-390 | the planner's loop over textual legs raises exactly where an address does not read as twenty bytes or a number does not fit its ABI type, and otherwise gives the hash that the contract computes for the route those texts mean |
| `Commitment.HashableExactly` | python/src/arb_bot/execution.py:371-388 | the numbers behind that: 256-bit amounts, 64-bit block and deadline, none negative |
| `Commitment.AddressReadsExactly` | python/src/arb_bot/execution.py:376-378 | an address text reads as an address exactly when it spells its twenty bytes in digits of either case, with or without a prefix of either case |
| `ExecutorValidation.RouteErrorExact` | contracts/src/BaseArbExecutor.sol:352-378 | route validation passes exactly the allow-listed, chained, closed routes of at least two legs |
| `ExecutorValidation.BatchErrorExact` | contracts/src/BaseArbExecutor.sol:380-409 | packed validation passes exactly the batches all of whose candidates are allow-listed, chained, closed and identified |
| `ExecutorValidation.CandidateErrorExact` | contracts/src/BaseArbExecutor.sol:386-403 | the same for one candidate |
| `ExecutorValidation.CleanExact` | contracts/src/BaseArbExecutor.sol:411-418 | the clean-intermediates loop passes exactly when every interior token other than the asset has a zero balance |
| `ExecutorValidation.FirstDirtyCandidateExact` | contracts/src/BaseArbExecutor.sol:420-429 | the same for every candidate of a menu |
| `ExecutorRefusals.LegRefusals` | contracts/src/BaseArbExecutor.sol:406-409 | a leg is unauthorized exactly when its adapter or a token is not allowed, whatever else is wrong with it, and invalid exactly when all are allowed and it trades a token for itself |
| `ExecutorRefusals.RouteRefusals` | contracts/src/BaseArbExecutor.sol:352-378 | which error a bad route gets: missing parts before the asset, the asset before the ends, every leg before the first gap between legs |
| `ExecutorRefusals.CandidateRefusals` | contracts/src/BaseArbExecutor.sol:386-403 | which error a bad candidate gets; the limits on legs in numbers |
| `ExecutorRefusals.BatchRefusals` | contracts/src/BaseArbExecutor.sol:380-404 | which error a bad batch gets; of several bad candidates the first decides; the limit on candidates in numbers |
| `ExecutorRefusals.FirstDirtyDecides` | contracts/src/BaseArbExecutor.sol:411-418 | the reported dirty token is the first interior one that is not the asset and not empty, with its balance |
| `ExecutorRefusals.StartRefusals` | contracts/src/BaseArbExecutor.sol:154-162 | why start refuses: sender, lock, pause, active operation, staleness, hash, reuse, route, dirty balance, each only once all before it pass |
| `ExecutorRefusals.StartPackedRefusals` | contracts/src/BaseArbExecutor.sol:185-195 | why startPacked refuses; unlike in start a used commitment is noticed last |
| `ExecutorRefusals.ClosingRefusals` | contracts/src/BaseArbExecutor.sol:167-220 | with any pool, an operation that began ends with the pool's failure, for want of a selected candidate, for overflow or for want of profit over the balance before the loan, and otherwise commits |
| `ExecutorRefusals.AttemptNeeds` | contracts/src/BaseArbExecutor.sol:262-271 | an attempt gets through only from the contract to itself, within a packed operation, on two to four legs from the asset back to it, and reports its closing balance |
| `ExecutorRefusals.LegFailures` | contracts/src/BaseArbExecutor.sol:322-335 | with tokens and adapters of any kind a leg fails exactly for no input, with one of its calls, or because what arrived is below the minimum or not what the adapter reported; the error names the leg |
| `ExecutorRefusals.ApprovalNeedsTrue` | contracts/src/BaseArbExecutor.sol:530-537 | with tokens of any kind an approval needs a true answer to the clearing call and, unless the amount is zero, to the setting one, made in the world the first one left |
| `ExecutorRefusals.SweepNeedsTrue` | contracts/src/BaseArbExecutor.sol:281-283 | with tokens of any kind a sweep succeeds exactly for the owner of an idle contract whose token moves the amount and does not revert or answer false |
| `ExecutorRefusals.RouteCallbackRefusals` | contracts/src/BaseArbExecutor.sol:240-255 | why the callback of a route refuses, up to the three ways in which the balance after the legs can miss |
| `ExecutorRefusals.PackedCallbackRefusals` | contracts/src/BaseArbExecutor.sol:293-315 | why the packed callback refuses; a menu in which no attempt succeeds is refused as such, whatever the attempts failed with |
| `ExecutorRefusals.SetterRefusals` | contracts/src/BaseArbExecutor.sol:94-152 | a setter refuses a stranger before it looks at the locks, acceptance looks at the locks first; the zero successor is refused |
| `ExecutorRefusals.GettersFollow` | contracts/src/BaseArbExecutor.sol:58-152 | the public getters answer what was set last |
| `ExecutorRefusals.CommitmentGetsUsed` | contracts/src/BaseArbExecutor.sol:159-194 | a commitment counts as used from its committed operation on, and not before |
| `ExecutorRefusals.SweepSucceedsExactly` | contracts/src/BaseArbExecutor.sol:281-283 | with honest tokens a sweep succeeds exactly for the owner of an idle contract that holds the amount |
| `ExecutorRefusals.FreshContract` | contracts/src/BaseArbExecutor.sol:118-123 | a fresh deployment is at rest, paused and obeys its deployer alone; even unpaused it refuses every operation until tokens are allowed |
| `ExecutorCustody.LockedTreeKept` | contracts/src/BaseArbExecutor.sol:322-350 | honest tokens, locked contract: arbitrary outside code raises no allowance of the contract and spends only tokens somebody may spend |
| `ExecutorCustody.HonestForceApprove` | contracts/src/BaseArbExecutor.sol:530-537 | after forceApprove the allowance is exactly the amount, whatever it was, and no other allowance or balance of the contract moved |
| `ExecutorCustody.LegKeeps` | contracts/src/BaseArbExecutor.sol:322-335 | one leg lowers no token but its tokenIn and leaves no spender |
| `ExecutorSpending.TreeWithin` | contracts/src/BaseArbExecutor.sol:322-350 | with honest tokens, what any tree of re-entrant calls takes of a token is covered by the adapter's allowance that it used up |
| `ExecutorSpending.LegCostsAtMostInput` | contracts/src/BaseArbExecutor.sol:322-335 | one leg with any adapter, the pool included, and any input, the largest word included, costs at most its input of tokenIn, brings at least minOut of tokenOut and exactly what the adapter reported, and leaves the adapter no allowance |
| `ExecutorCustody.LegsKeep` | contracts/src/BaseArbExecutor.sol:322-350 | a chain of legs lowers only the tokens it takes in, and leaves no spender |
| `ExecutorCustody.AcceptedLegsKeep` | contracts/src/BaseArbExecutor.sol:322-418 | on clean intermediates an accepted chain lowers no token but the asset |
| `ExecutorRuns.CallbackSettles` | contracts/src/BaseArbExecutor.sol:226-260 | a finished callback holds pre-loan balance, debt and promised profit, has lowered no other token, and has approved the pool for exactly the debt |
| `ExecutorRuns.FlashLoanRepaid` | contracts/src/BaseArbExecutor.sol:154-178 | an honest loan that goes through leaves pre-loan balance plus promised profit, lowers no other token, and uses the pool's allowance up |
| `ExecutorRuns.StartGains` | contracts/src/BaseArbExecutor.sol:165-177 | a committed start lowers no balance and raises the asset by at least minProfit |
| `ExecutorRuns.StartPackedGains` | contracts/src/BaseArbExecutor.sol:198-223 | a committed startPacked lowers no balance; the pool keeps no allowance unless 2^256 - 1 was owed of a token with unlimited allowances |
| `ExecutorLiveness.LoanIffCallback` | contracts/src/BaseArbExecutor.sol:226-260 | an honest, funded loan goes through exactly when its callback does: the pull cannot fail |
| `ExecutorLiveness.StartCommitsIffCallback` | contracts/src/BaseArbExecutor.sol:154-178 | start commits exactly when it passes its checks, the pool can lend and the callback goes through; the late profit check never fires; the log entry states the commitment, the premium and the exact gain |
| `ExecutorLiveness.PackedCommitsIffAttempt` | contracts/src/BaseArbExecutor.sol:185-224 | startPacked commits exactly when some candidate's attempt succeeds in the funded world; the effect is that of the least such candidate, paid back, with at least its minProfit on top |
| `ExecutorLiveness.CallbackIffAttempt` | contracts/src/BaseArbExecutor.sol:293-320 | the packed callback succeeds exactly when some attempt does |
| `ExecutorLiveness.AttemptEarns` | contracts/src/BaseArbExecutor.sol:262-279 | a successful attempt ends with at least premium and minProfit more than it began with |
| `ExecutorFallback.SelectsFirstSuccess` | contracts/src/BaseArbExecutor.sol:300-316 | the menu loop selects the least index whose attempt succeeds in the world before any attempt, and fails exactly when all do |
| `ExecutorFallback.TryIgnoresStorage` | contracts/src/BaseArbExecutor.sol:300-316 | which candidate is selected, and what it does to the ledger, is the same from any two storages that answer alike what the adapters ask |
| `ExecutorFallback.AloneSelectsSame` | contracts/src/BaseArbExecutor.sol:300-316 | the selected candidate alone does to the ledger what the whole menu did, from any storage that answers alike what the adapters ask |
| `ExecutorMenu.MenuEqualsAlone` | contracts/src/BaseArbExecutor.sol:262-320 | whole operation: final balances and allowances equal those of the one-candidate menu holding the selected candidate, for adapters that do not ask which of the two batches was used |
| `BaseArbExecutorContract.Deploy` | contracts/src/BaseArbExecutor.sol:118-123 | deployment is refused for the zero pool address, and otherwise leaves the paused, empty storage with the deployer as owner |
| `BaseArbExecutorContract.BaseArbExecutor.MessageCall` | contracts/src/BaseArbExecutor.sol:125-283 | every entry point agrees with the state machine, and a reverted call leaves the whole state untouched |
| `BaseArbExecutorContract.BaseArbExecutor.CallSetAdapter` | contracts/src/BaseArbExecutor.sol:125-128 | agrees with the state machine |
| `BaseArbExecutorContract.BaseArbExecutor.CallSetToken` | contracts/src/BaseArbExecutor.sol:130-133 | agrees with the state machine |
| `BaseArbExecutorContract.BaseArbExecutor.CallSetPaused` | contracts/src/BaseArbExecutor.sol:135-138 | agrees with the state machine |
| `BaseArbExecutorContract.BaseArbExecutor.CallTransferOwnership` | contracts/src/BaseArbExecutor.sol:140-144 | agrees with the state machine |
| `BaseArbExecutorContract.BaseArbExecutor.CallAcceptOwnership` | contracts/src/BaseArbExecutor.sol:146-152 | agrees with the state machine |
| `BaseArbExecutorContract.BaseArbExecutor.CallSweep` | contracts/src/BaseArbExecutor.sol:281-283 | agrees with the state machine |
| `BaseArbExecutorContract.BaseArbExecutor.CallStart` | contracts/src/BaseArbExecutor.sol:154-178 | the field-by-field body reaches the state machine's world, or reverts with its error |
| `BaseArbExecutorContract.BaseArbExecutor.CallStartPacked` | contracts/src/BaseArbExecutor.sol:185-224 | the same for startPacked, decoding with the moving-offset decoder |
| `BaseArbExecutorContract.BaseArbExecutor.CallExecuteOperation` | contracts/src/BaseArbExecutor.sol:226-260 | the same for the callback |
| `BaseArbExecutorContract.BaseArbExecutor.CallAttempt` | contracts/src/BaseArbExecutor.sol:262-279 | the same for one attempt |
| `BaseArbExecutorContract.BaseArbExecutor.TryMenu` | contracts/src/BaseArbExecutor.sol:300-316 | the loop with a rollback per candidate is the specified first success |
| `BaseArbExecutorContract.BaseArbExecutor.ExecutePackedCallback` | contracts/src/BaseArbExecutor.sol:293-320 | the packed half of the callback |
| `BaseArbExecutorContract.BaseArbExecutor.ExecuteRouteCallback` | contracts/src/BaseArbExecutor.sol:240-257 | the route half of the callback |
| `BaseArbExecutorContract.BaseArbExecutor.ExecuteAllLegs` | contracts/src/BaseArbExecutor.sol:322-350 | the leg loop is the specified chain of legs |
| `BaseArbExecutorContract.BaseArbExecutor.ForceApproveCall` | contracts/src/BaseArbExecutor.sol:530-537 | clear, then set unless zero |
| `BaseArbExecutorContract.BaseArbExecutor.ValidateRoute` | contracts/src/BaseArbExecutor.sol:352-378 | the validation loops report the specified first error |
| `BaseArbExecutorContract.BaseArbExecutor.ValidatePacked` | contracts/src/BaseArbExecutor.sol:380-404 | the same for a packed batch |
| `BaseArbExecutorContract.BaseArbExecutor.RequireCleanIntermediates` | contracts/src/BaseArbExecutor.sol:411-418 | the loop reports the first dirty interior token |
| `BaseArbExecutorContract.BaseArbExecutor.RequireCleanPackedIntermediates` | contracts/src/BaseArbExecutor.sol:420-429 | the same over all candidates |
| `BaseArbExecutorContract.BaseArbExecutor.FlashLoanSimple` | contracts/src/mocks.sol:48-55 | an honest pool lends, calls back once, and pulls amount and premium |
| `BaseArbExecutorContract.BaseArbExecutor.TransactAll` | contracts/src/BaseArbExecutor.sol:94-283 | a sequence of transactions, each rolled back whole when it fails, is the specified run |
| `TokenLedger.TransferEffect` | contracts/src/mocks.sol:19-24 | a transfer moves exactly the amount between exactly two holders and touches no allowance |
| `TokenLedger.TransferFromEffect` | contracts/src/mocks.sol:26-34 | a pull also uses up its allowance, unless that is the largest word and never used up |
| `TokenLedger.RefusesExactly` | contracts/src/mocks.sol:10-34 | on any ledger, forged ones included, a transfer, a pull and a mint are refused exactly for want of balance or allowance or for overflow |
| `TokenLedger.TransferConserves` | contracts/src/mocks.sol:19-24 | a transfer leaves what all accounts of a token hold together exactly as it was, for every token |
| `TokenLedger.TransferFromConserves` | contracts/src/mocks.sol:26-34 | so does a pull |
| `TokenLedger.MintConserves` | contracts/src/mocks.sol:10-12 | minting raises the recorded supply and what all accounts hold together both by exactly the amount, and of no other token |
| `TokenLedger.TransferSucceeds` | contracts/src/mocks.sol:19-24 | under conservation a transfer fails only for want of balance, so no addition overflows |
| `TokenLedger.TransferFromSucceeds` | contracts/src/mocks.sol:26-34 | under conservation a pull fails only for want of allowance or balance |
| `PlanExecution.PlanCandidate` | python/src/arb_bot/execution.py:513-552 | a candidate is planned exactly when every hop has an adapter and the profit after the premium is positive; leg i has the adapter and data of hop i, the tokens i and i + 1 of the cycle and quote i as its minimum, and minProfit is that profit |
| `PlanExecution.ExactLeg` | contracts/src/BaseArbExecutor.sol:337-350 | with an exact-input adapter a leg takes exactly what the leg before delivered plus the rest that is computed for its token, passes exactly when the delivery meets the quote, and moves the holding on |
| `PlanExecution.ChainsExactly` | contracts/src/BaseArbExecutor.sol:337-350 | for every closed chained route on clean intermediates that goes through: every leg after the first spends exactly the delivery of the leg before if and only if no interior tokenOut is the asset or the contract held none of the asset before the loan |
| `PlanExecution.ReachHolds` | contracts/src/BaseArbExecutor.sol:337-350 | every leg that a run reaches, on any closed walk, takes exactly the delivery of the leg before plus the rest of its token: the spare asset at the first pass, nothing elsewhere |
| `Witnesses.MidwayTakesTheSpare` | contracts/src/BaseArbExecutor.sol:411-418 | an accepted route asset, X, asset, Y, asset on clean intermediates, with 5 of the asset held before a loan of 10, that commits and whose third leg spends 15 where the second delivered 10 |
| `PlanExecution.AttemptExactly` | contracts/src/BaseArbExecutor.sol:262-279 | an attempt with exact-input adapters, whatever route, succeeds exactly when every leg has something to spend, every quote is met and the last delivery with what is left of the spare asset covers balance, premium and profit; it ends with exactly that |
| `RouteExecution.StartCommitsExactly` | contracts/src/BaseArbExecutor.sol:154-178 | an admitted, funded start with exact-input adapters commits exactly under the same condition on deliveries, for every accepted route |
| `ScriptedMarkets.ScriptDelivers` | contracts/src/BaseArbExecutor.sol:337-350 | every list of deliveries that a venue can pay is made by some market of granted actions, so the hypothesis of exact deliveries is never empty |
| `PlanExecution.PlannedAttempt` | contracts/src/BaseArbExecutor.sol:262-350 | a planned candidate that passes the asset nowhere midway, or is run with no asset held before the loan, succeeds exactly when every leg delivers at least its quote and no interior delivery is zero, and then gains exactly premium plus minProfit plus the last leg's surplus |
| `PlanExecution.QuotedDeliveryGainsPlannedProfit` | python/src/arb_bot/execution.py:531-552 | delivering exactly the quotes gains exactly min_profit over the premium |
| `PlanExecution.OneUnitLessReverts` | contracts/src/BaseArbExecutor.sol:334-349 | one unit less than the quote on any one leg makes the attempt revert, on any route and with any balance |
| `SwapAdapters.AdapterKeepsItsWord` | contracts/src/adapters/UniswapV3Adapter.sol:48-94 | whatever the router does, an adapter answers exactly the recipient's gain, at least the minimum, takes no more than amountIn and leaves no router approval |
| `SwapAdapters.AdapterIsOutsideCode` | contracts/src/adapters/AerodromeAdapter.sol:37-58 | an adapter swap is one of the behaviours that the executor model grants to outside code |
| `SwapAdapters.ObedientRouterDelivers` | contracts/src/adapters/AerodromeAdapter.sol:37-58 | in front of any of the three routers, if it does what its call's arguments say, the adapter swaps exactly this leg, exactly when the router's output reaches the minimum |
| `SwapAdapters.AerodromeAsksExactly` | contracts/src/adapters/AerodromeAdapter.sol:46-53 | the data decode exactly for one flag, and the router is asked for one hop from tokenIn to tokenOut with that flag over the adapter's own factory, the amount, the minimum and the recipient, by the block's own time |
| `SwapAdapters.UniswapAsksExactly` | contracts/src/adapters/UniswapV3Adapter.sol:57-86 | the data decode exactly for a fee below 2^24 and a price limit below 2^160, and either router is asked for tokenIn, tokenOut, this fee and limit, the amount, the minimum, the recipient and, where it has one, the deadline |
| `SwapAdapters.OnlyExecutorSwaps` | contracts/src/adapters/UniswapV3Adapter.sol:56-57 | anybody but the executor is refused, and so are data that do not decode |
| `PackedFormat.ParseEncode` | python/src/arb_bot/packed_batch.py:67-155 | parsing an encoded well-formed batch gives it back, with nothing left |
| `PackedFormat.EncodeParse` | contracts/src/BaseArbExecutor.sol:431-468 | accepted bytes are the encoding of the batch they parse to, which is well-formed |
| `PackedFormat.AcceptedExactlyEncodings` | contracts/src/BaseArbExecutor.sol:431-468 | the accepted byte strings are exactly the encodings of well-formed batches, one string a batch |
| `PackedFormat.DecodingInjective` | contracts/src/BaseArbExecutor.sol:431-468 | two accepted strings with one reading are equal |
| `PackedFormat.EncodedLength` | python/src/arb_bot/packed_batch.py:67-97 | the length is 70 + sum(65 + sum(94 + data length)), between 323 and 69134 bytes |
| `PackedLayout.LaidOutExactly` | python/src/arb_bot/packed_batch.py:67-97 | the format by position, in literals: byte 0 is 1, byte 1 the count 1 to 8, then asset, amount, block and deadline at 2, 22, 54 and 62, candidates from 70 on with 2 to 4 legs behind 65 fixed bytes, legs with at most 2048 bytes behind 94; a string is laid out so exactly if it is the encoding of that well-formed batch |
| `PackedPositions.PythonWritesExactly` | python/src/arb_bot/packed_batch.py:67-97 | Python's encoder gives a string exactly if every field of the batch stands in it at its position and width, and raises exactly if there is no such string |
| `PackedPositions.RustWritesExactly` | rust-executor/src/packed.rs:97-130 | the same for Rust's encoder and the texts of its request |
| `PackedPositions.ContractReadsExactly` | contracts/src/BaseArbExecutor.sol:431-468 | the contract reads a batch from a string exactly if its fields stand there; the validator accepts exactly the strings that are laid out as some batch |
| `PackedPositions.PythonReadsPositions` | python/src/arb_bot/packed_batch.py:107-155 | Python's decoder hands back, field by field, what stands at these positions |
| `PackedPositions.LimitsAttained` | python/src/arb_bot/packed_batch.py:7-10 | eight candidates of four legs with 2048 bytes of data each are packed and read, in 69134 bytes |
| `PackedErrors.PrefixIsTruncated` | python/src/arb_bot/packed_batch.py:100-155 | every proper prefix of an accepted string is refused as truncated |
| `PackedErrors.ExtensionIsTrailing` | python/src/arb_bot/packed_batch.py:150-155 | bytes behind an accepted string are refused as trailing |
| `PackedErrors.HeaderErrors` | python/src/arb_bot/packed_batch.py:107-120 | which of truncated, unsupported version and candidate count the header decides, whatever follows |
| `PackedErrors.LegCountRefused` | python/src/arb_bot/packed_batch.py:120-155 | a candidate of less than 2 or more than 4 legs is refused for that |
| `PackedErrors.LegDataRefused` | python/src/arb_bot/packed_batch.py:120-155 | a leg with more than 2048 bytes of data is refused for that |
| `PackedErrors.RefusedAlike` | rust-executor/src/packed.rs:132-159 | Rust refuses a string shorter than a header at once and every other one for the reason Python gives; the contract refuses the same strings |
| `PythonPacked.EncodePackedBatch` | python/src/arb_bot/packed_batch.py:67-97 | the appending loops give the specified encoding, and raise exactly for the specified batches |
| `PythonPacked.DecodePackedBatch` | python/src/arb_bot/packed_batch.py:107-155 | the moving-offset loops give the specified reading or the first error |
| `HexText.ToHexAt` | python/src/arb_bot/packed_batch.py:117 | every byte is written as its two digits, the high one first |
| `HexText.DigitsAndSpaces` | python/src/arb_bot/packed_batch.py:16 | which characters are digits, and which may stand between two bytes |
| `HexText.DecodeStrictExactly` | rust-executor/src/packed.rs:45 | strict decoding reads a text as bytes exactly when the text spells them in digits of either case |
| `PythonRoundTrip.DecodeEncode` | python/src/arb_bot/packed_batch.py:67-155 | decoding what was encoded gives the canonical spelling of the same batch |
| `PythonRoundTrip.RoundTripExactlyCanonical` | python/src/arb_bot/packed_batch.py:67-155 | decode(encode(b)) == b exactly for batches whose hexadecimal fields are spelled canonically |
| `PythonRoundTrip.EncodeDecode` | python/src/arb_bot/packed_batch.py:67-155 | encode(decode(raw)) == raw exactly when every leg has distinct tokens; otherwise the encoder refuses |
| `PythonRoundTrip.SpacedTwinIsPacked` | python/src/arb_bot/packed_batch.py:13-87 | the encoder's token comparison is textual: a spelling with white space lets one token pass as two |
| `PythonRoundTrip.TokensDifferExactly` | python/src/arb_bot/packed_batch.py:13-87 | an encodable leg means two different tokens if and only if its two texts differ after dropping white space and lowering letters |
| `RustPacked.MultiplyAdd` | rust-executor/src/packed.rs:72-88 | one digit of the in-place conversion: old value times ten plus the digit equals carry and new bytes, with the carry at most 9 |
| `RustPacked.DecimalToBeBytes` | rust-executor/src/packed.rs:72-88 | gives the minimal big-endian bytes of the decimal value, exactly when it is below 256^n and n is not zero |
| `RustPacked.HexToBeBytes` | rust-executor/src/packed.rs:52-64 | hexadecimal digits of either parity spell their value |
| `RustPacked.ParseUint` | rust-executor/src/packed.rs:52-70 | n bytes of the numeral's value, or an error |
| `RustPacked.ParsedUintRange` | rust-executor/src/packed.rs:52-70 | parse_uint succeeds exactly for numerals whose value is below 256^n, and for none in no bytes |
| `RustEncoder.EncodeBatch` | rust-executor/src/packed.rs:97-130 | the appending loops give the specified encoding, and fail exactly for the specified requests |
| `RustEncoder.MeaningWellFormed` | rust-executor/src/packed.rs:97-130 | a request that encodes means a well-formed batch |
| `RustEncoder.ValidateBatchBytes` | rust-executor/src/packed.rs:132-159 | the moving-offset validator accepts exactly what the format accepts |
| `SolidityDecoder.DecodePacked` | contracts/src/BaseArbExecutor.sol:431-468 | the offset-advancing decoder returns the parsed batch or the error |
| `PackedAgreement.DecodersAgree` | contracts/src/BaseArbExecutor.sol:431-506 | Python decoder, Rust validator and Solidity decoder accept the same byte strings, and Python and Solidity read the same batch from each |
| `PackedAgreement.RustEncodesValid` | rust-executor/src/packed.rs:97-159 | what Rust encodes passes Rust's validator and is read by the contract as what was meant |
| `PackedAgreement.PythonEncodesValid` | python/src/arb_bot/packed_batch.py:67-97 | what Python encodes is read by the contract as what was meant |
| `PackedAgreement.EncodersAgree` | rust-executor/src/packed.rs:97-130 | a Python and a Rust encoding are equal exactly when the requests mean the same batch |
| `PackedAgreement.UintBytesAgree` | python/src/arb_bot/packed_batch.py:22-25 | parse_uint and _u give the same bytes for the same number exactly unless zero is asked for in no bytes |
| `Rlp.DecodeEncode` | python/src/arb_bot/execution.py:255-275 | every encodable item is read back, whatever bytes follow it |
| `Rlp.EncodeDecode` | python/src/arb_bot/execution.py:255-275 | what the strict decoder accepts is exactly the encoding of what it reads: nothing has two spellings |
| `Rlp.PrefixFree` | python/src/arb_bot/execution.py:255-275 | no encoding is a proper prefix of another, and equal encodings come from equal items |
| `Rlp.StringByLength` | python/src/arb_bot/execution.py:261-268 | strings by the three cases of Appendix B in numbers: a lone byte below 128, up to 55 bytes, and longer ones behind their length in the fewest bytes |
| `Rlp.ListByLength` | python/src/arb_bot/execution.py:269-274 | the two cases of a list |
| `Rlp.ItemsInOrder` | python/src/arb_bot/execution.py:270 | the body of a list is the encodings of its items one after the other |
| `Rlp.IntByWidth` | python/src/arb_bot/execution.py:249-257 | a number is the string of its big-endian bytes with none to spare, and zero the empty string |
| `Rlp.IntBytesSpell` | python/src/arb_bot/execution.py:249-252 | the bytes of an integer read back as it, without a leading zero |
| `Rlp.IntBytesAreFewest` | python/src/arb_bot/execution.py:249-252 | and are the fewest that can |
| `Rlp.MinimalIsIntBytes` | signer-gateway/src/signer_gateway/policy.py:228-229 | bytes without a leading zero are those of the number they spell |
| `TransactionSize.EstimateIsUpperBound` | python/src/arb_bot/execution.py:278-305 | for every parity in {0,1} and r, s below 2^256 the serialized size is at most the estimate, and equals it exactly when both scalars fill 32 bytes |
| `TransactionSize.EstimateIsAttained` | python/src/arb_bot/execution.py:289-305 | the estimate is the size on the wire under parity 1 and two scalars 2^256 - 1 |
| `TransactionSize.WireFields` | python/src/arb_bot/execution.py:289-302 | the twelve fields behind the type byte, in the order of EIP-1559 |
| `TransactionSize.EstimateNeverShrinks` | python/src/arb_bot/execution.py:278-305 | the estimate never shrinks as nonce, either fee, gas limit or calldata length grows, over all length-header boundaries |
| `TransactionSize.LoneByteCalldataDiffers` | python/src/arb_bot/execution.py:264-265 | for calldata of one and the same length 1 the estimate does depend on the byte |
| `SignerPolicy.PassesExactly` | signer-gateway/src/signer_gateway/policy.py:232-254 | the byte strings that pass are exactly the type-2 encodings of twelve fields that read as the request with an empty access list |
| `SignerPolicy.ShapeFaults` | signer-gateway/src/signer_gateway/policy.py:232-240 | what is reported for a payload of the wrong shape: type before encoding, before the number of fields, before the access list |
| `SignerPolicy.FieldFaults` | signer-gateway/src/signer_gateway/policy.py:241-254 | which changed field is reported: the first in the order of the normalised request |
| `SignerPolicy.FieldReadings` | signer-gateway/src/signer_gateway/policy.py:228-241 | empty fields of either kind read as zero or no bytes, only the empty string as no recipient, and a list that holds something does not read |
| `SignerPolicy.TypedPayloadPassesExactly` | signer-gateway/src/signer_gateway/policy.py:232-254 | a payload of typed fields passes exactly when every field repeats the normalised request and the access list is empty |
| `SignerPolicy.PassingIsCanonicalExactly` | signer-gateway/src/signer_gateway/policy.py:228-254 | a passing payload is the canonical serialization of some transaction exactly when no number has a leading zero and no list stands for bytes |
| `SignerPolicy.ZeroNoncePassesTwice` | signer-gateway/src/signer_gateway/policy.py:228-229 | the gateway alone does not ask for that: a zero nonce spelled as one zero byte passes too |
| `SignerPolicy.AdmitsExactly` | signer-gateway/src/signer_gateway/policy.py:116-169 | which requests are admitted, and that the normalised request repeats them |
| `SignerPolicy.RefusalsInOrder` | signer-gateway/src/signer_gateway/policy.py:116-169 | why a request is refused: identity, then quantities, then calldata, then caps, then target and selector, then route id and asset |
| `SignerPolicy.SignedExecutionObeysPolicy` | signer-gateway/src/signer_gateway/policy.py:116-254 | what leaves the gateway for an admitted request has, in its own bytes, the policy's chain, executor, caps, zero value and one of the two selectors |
| `SignerPolicy.AnswerableExactly` | signer-gateway/src/signer_gateway/policy.py:52-169 | an admitted request can be answered by some payload exactly when its calldata is plain hexadecimal after lowering |
| `SignerPolicy.SpacedRequestIsUnanswerable` | signer-gateway/src/signer_gateway/policy.py:52-169 | under every policy that allows execution: a request whose calldata is the selector and two spaces is admitted, and no payload answers it |
| `PoolGraph.LivePoolGraph.Register` | python/src/arb_bot/event_graph.py:71-79 | whatever was registered or replaced before, both tokens' index entries stay exactly the registered pools that trade them |
| `PoolGraph.LatestIsLast` | python/src/arb_bot/event_graph.py:71-79 | the entry of an address is the last pool registered under it |
| `PoolGraph.LivePoolGraph.PoolsForToken` | python/src/arb_bot/event_graph.py:92-95 | exactly the registered pools that trade the token, ascending; no lookup misses |
| `PoolGraph.LivePoolGraph.AffectedSubgraph` | python/src/arb_bot/event_graph.py:109-129 | exactly the pools that share a token with the changed pool |
| `PoolGraph.LivePoolGraph.CyclesForAffected` | python/src/arb_bot/event_graph.py:139-183 | the nested loops return each described walk that starts in the affected set once, and nothing else; no pool lookup misses |
| `RingDedup.CanonicalExactly` | python/src/arb_bot/route_engine.py:200-204 | two rings share the least rotation exactly when one is a rotation of the other |
| `RingDedup.DedupCycles` | python/src/arb_bot/route_engine.py:189-209 | the loop over a seen set keeps the first cycle of every rotation class |
| `RingDedup.KeptCovers` | python/src/arb_bot/route_engine.py:189-209 | one cycle a class, and every class of the input |
| `RingDedup.RingsToEvaluate` | python/src/arb_bot/route_engine.py:488-500 | enumeration followed by dedup reports rings of registered pools through the affected set, each once, exactly those that can be entered at an affected pool |
| `RingDedup.RingsReportedExactly` | python/src/arb_bot/event_graph.py:139-183 | the same for any list the search may return |
| `RingDedup.RingFoundExactly` | python/src/arb_bot/event_graph.py:139-183 | a ring is found at some entry exactly when the hop back to an affected pool is not over a pool that trades a token for itself |
| `RingDedup.EveryRingOnce` | python/src/arb_bot/event_graph.py:139-183 | with two different tokens in every pool, every ring through the affected set is reported exactly once |
| `RingDedup.DirectionsKeptApart` | python/src/arb_bot/route_engine.py:189-209 | a ring and its reverse are both reported, in two places |
| `RingDedup.SelfTradeHidesRing` | python/src/arb_bot/event_graph.py:26-48 | a registry with a pool of one token on which a ring is not reported |
| `RouteQuoting.ChainLinksExactly` | python/src/arb_bot/route_engine.py:136-153 | a chain is exactly one quote a hop, each the answer to the output of the one before |
| `RouteQuoting.EchoesExactly` | python/src/arb_bot/route_engine.py:136-153 | quotes echo along a route exactly when every hop it reaches answers for the amount it was asked |
| `RouteQuoting.QuoteCycle` | python/src/arb_bot/route_engine.py:136-153 | size by size: the chained quotes, or failure where a hop fails or does not echo its amount |
| `RouteQuoting.BatchedQuotes` | python/src/arb_bot/route_engine.py:244-291 | hop by hop with survivors: the table holds exactly the sizes that quote through, each with its output and quotes |
| `RouteQuoting.ParallelQuotes` | python/src/arb_bot/route_engine.py:293-317 | the same table from size-by-size quoting |
| `RouteQuoting.SameTableExactly` | python/src/arb_bot/route_engine.py:244-317 | the two tables are equal exactly when every route that quotes through echoes its amounts, as the adapters do |
| `RouteQuoting.PickBest` | python/src/arb_bot/route_engine.py:348-359 | the largest profit, and the smallest size on ties |
| `RouteQuoting.BestIsUnique` | python/src/arb_bot/route_engine.py:348-359 | largest profit and smallest size on ties name one size |
| `RouteQuoting.BestEarnsMost` | python/src/arb_bot/route_engine.py:348-359 | read off the linked quotes: output less size is larger at the best size than at any other that quotes through, or equal at larger sizes only |
| `RouteQuoting.OptimizeSize` | python/src/arb_bot/route_engine.py:338-390 | the chosen size is the best of the grid and the refinement; the requote repeats its quotes; nothing is chosen exactly when no grid size quotes through |
| `RouteQuoting.SameCoarseChoice` | python/src/arb_bot/route_engine.py:348-369 | both ways choose the same coarse size, and refinement never earns less |
| `BatchPlanner.CompatibleGroups` | python/src/arb_bot/batch_execution.py:51-67 | the dictionary, the sorts and the ranking give the specified groups |
| `BatchPlanner.GroupsAreKeys` | python/src/arb_bot/batch_execution.py:51-67 | every group is all eligible positive rows of one exact (asset, amount, block, deadline), as often as given |
| `BatchPlanner.GroupedExactly` | python/src/arb_bot/batch_execution.py:54-59 | a row is in some group exactly if it is submission-eligible, has a packed candidate and a positive net profit |
| `BatchPlanner.SameGroupExactly` | python/src/arb_bot/batch_execution.py:60-61 | two grouped rows share a group exactly if asset, amount, target block and deadline are equal |
| `BatchPlanner.GroupBestFirst` | python/src/arb_bot/batch_execution.py:62-63 | within a group a larger net profit comes first, and a smaller route id on ties |
| `BatchPlanner.GroupsBestFirst` | python/src/arb_bot/batch_execution.py:64-67 | groups come in the same order of their first rows |
| `BatchPlanner.RowInOneGroup` | python/src/arb_bot/batch_execution.py:51-67 | every such row is in exactly one group |
| `StableSort.SortByIsSort` | python/src/arb_bot/batch_execution.py:62-66 | sorting orders and keeps every element as often as it was there |
| `StableSort.SortByIsStable` | python/src/arb_bot/batch_execution.py:62-66 | elements of equal rank come out in the order in which they went in |
| `BatchFinalizer.Finalize` | python/src/arb_bot/batch_execution.py:74-140 | the shrinking loop returns the specified plan and ends |
| `BatchFinalizer.EligibleExactly` | python/src/arb_bot/batch_execution.py:79-140 | a plan is eligible exactly when some menu pays for every candidate and every longer one was measured and fell short; it is that longest paying prefix, with its cost and net |
| `BatchFinalizer.PlanOutcome` | python/src/arb_bot/batch_execution.py:79-140 | every outcome of the loop: an eligible plan names the dropped rows, last first; one that nothing pays for drops all; one that could not be measured keeps the longest such menu, says why, and forgets what it dropped |
| `BatchFinalizer.JudgesExactly` | python/src/arb_bot/batch_execution.py:123-136 | a round ends with a paying menu exactly when every min_profit exceeds that exact menu's cost |
| `BatchFinalizer.TopMenuUsable` | python/src/arb_bot/batch_execution.py:75-79 | the menu is at most eight usable rows of one group |
| `BatchFinalizer.TopMenuIsFront` | python/src/arb_bot/batch_execution.py:75-79 | the menu is the front of the first group, cut at max(1, min(limit, 8)) |
| `BatchFinalizer.TopMenuLeadsWithBest` | python/src/arb_bot/batch_execution.py:62-79 | its first row has the largest net profit of all usable rows, and the smallest id on ties |
| `BatchFinalizer.GasUsedIsLargest` | python/src/arb_bot/batch_execution.py:114-117 | the gas that is charged is the larger of the figures that were measured |
| `PlannedBatch.MenuSharesHeader` | python/src/arb_bot/batch_execution.py:88-95 | every candidate of the menu was priced for the batch's own header |
| `PlannedBatch.EligiblePlanEarns` | python/src/arb_bot/batch_execution.py:74-140 | whichever candidate executes, a committed eligible plan leaves the contract at least its gas cost plus its reported net richer |
| `PlannedBatch.EnumeratedCyclesAreRings` | python/src/arb_bot/event_graph.py:139-183 | enumerated cycles pass the asset nowhere in between |
| `PlannedBatch.PremiumIsNearest` | python/src/arb_bot/execution.py:618 | the premium is the exact share to the nearest unit, halves up, in planner and pool alike |
| `PlannedBatch.CandidateIsPlanned` | python/src/arb_bot/execution.py:513-619 | what packed_candidate_dict builds from the chain of quotes for the batch amount over an enumerated cycle, with the loan's own premium, promises exactly the route's output less loan and premium over the chained quotes, exactly when no quote is zero; leg i is hop i with quote i |
| `PlannedBatch.PlannedMenuCommits` | contracts/src/BaseArbExecutor.sol:185-224 | a menu with a planned candidate whose adapters deliver its quotes commits, whatever the other candidates do, if the candidate passes the asset nowhere midway or none was held |
| `SeenLogs.SeenLogs.InsertIfNew` | rust-executor/src/main.rs:109-121 | over any insertion sequence set and queue hold the same distinct keys, the last min(capacity, n) accepted; new exactly when not among them |
| `SeenLogs.SeenLogs.Evict` | rust-executor/src/main.rs:115-119 | the eviction loop keeps the last capacity keys |
| `SeenLogs.AcceptedAgainExactly` | rust-executor/src/main.rs:109-121 | a key is accepted again exactly when it is not among the last capacity accepted |

## Left out

- HTTP handlers, databases, WebSocket loops, RPC clients, Multicall transport: their answers (quotes, simulation, gas figures, fee conversion) are parameters. A Multicall request that fails as a whole is not modelled.
- Sender recovery, key handling, the signer's IPC, file permissions and bearer tokens: operating-system and library behaviour. `SignerPolicy.Verify` is the field comparison that precedes recovery.
- The gateway's review of deployment transactions, and the text rules of addresses and quantities: an address or quantity is the outcome of parsing its text.
- keccak256 and sha256: a digest is a free constructor, injective and never the zero word; it never equals a number.
- ABI encoding of a route: an injective constructor; other bytes handed to the route callback do not decode.
- EVM gas, out-of-gas, the 63/64 rule, calldata length limits: which call runs out of gas is not decided by the contract.
- Events of the administrative calls.
- Failing or lying `balanceOf` views: a balance is read from the ledger, which a dishonest token may have forged before.
- Tokens without return data and contracts without code: a token call answers a boolean or reverts.
- Integers are unbounded; the contract's checked arithmetic is written out as an error wherever a sum can pass 2^256 - 1, and field widths are those of the packed format.
- Outside code is a finite tree per (ledger, call) that branches on the contract's public getters. What `routeHash` and `packedHash` answer depends on their arguments alone, so they are not questions of the tree; gas left, code size and time are not asked either.
- Aave's own accounting: the pool lends from the balance at its address and collects there.
- DEX pricing inside routers: a router is arbitrary code.
- Python's ValueError messages and Rust's error strings: an encoder's failure is one outcome, a decoder's is the first error it meets.
- Python's integer and hexadecimal parsers accept some spellings (underscores, signs, white space) that are modelled only where the packed format and calldata read hexadecimal text.
- Failing fee queries and conversions, and a menu that the packed encoder refuses: the finalizer raises, which is not modelled.
- Malformed pool and token addresses, on which the graph raises first: addresses are taken as normalised.
- The text branches of the RLP encoder: items are integers, byte strings and lists, which is all the size estimate passes.
- Size grids and their refinement: any grid and any refinement function; that a refined size lies in [lo, hi) of its neighbours is not stated.
- RiskGate scoring, router helpers, metrics, percentiles, deployment scripts, timeouts and semaphores: settled by reading one branch or one loop.
- The key text of a chain log: SeenLogs works on any keys.
