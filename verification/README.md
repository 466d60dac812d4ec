# public-pool: a verified model of the pool's money, wire and job handling

A Dafny 4.11 model of the parts of the public-pool Bitcoin mining pool in which an
error costs money or work. `dafny verify dfyconfig.toml` checks all of it.

**The payout ledger.** `ShareRollup`, `RollupRuns` and `PplnsWindow` follow accepted
shares into batches and the window a payout is computed from. `Sorting`,
`LargestRemainder`, `PayoutDistribution`, `PayoutResult` and `PayoutComputation` split a
reward into whole satoshis and fit it into a coinbase; `OutputCap` limits the outputs;
`PayoutRules` says what these stages decide in the rows' and entries' own fields;
`PayoutLedger` and `PayoutService` store snapshots and commit them to balances;
`WindowPayout` joins the two ends, from shares to credit, and `SnapshotCoinbase` says what
the coinbase of a stored snapshot pays. `ShareQueue` is the queue in front of the share
table.

**The wire layer.** `Bytes` and `Words` hold integers as octets. `Sv2Frame` and
`Sv2Connection` are the framing of sections 3.2 and 4.6 of the Stratum V2 specification
with the nonce counter of section 5.1 of the Noise Protocol Framework; `BinaryCodec` and
`Sv2Buffers` its data types (section 3.1), `Sv2Messages` three Job Declaration messages;
`Sv2Pieces` and `Sv2Layout` state their octets without the codec and its constants;
`DatumFrame` and `DatumChannel` the DATUM channel.

**Block assembly.** `MerklePath`, `CoinbaseBytes`, `HexText`, `CoinbaseOutputs`,
`OutputCodec`, `CoinbaseHeight` and `MiningJob` relate the fast header of a share to the block it
completes, and `CoinbaseLayout` says where the parts of a coinbase stand.
`DeclaredTransactions`, `JobDeclaration` and `JobDeclarationService` are the Job Declaration
flow (section 6) as a state machine, and `JobDeclarationAnswers` says what its answers mean.

**Allocators.** `ExtranonceManager`, `SubmissionDedup` and `ShareText`. `Sequences` and `Tallies` hold
what several modules say about lists and grouped sums.

Code that changes objects step by step is a class whose methods are proved equal to
steps of a pure specification; the theorems are about that specification, over every
input or every run. Hashes, the AEAD, address scripts, decoding of raw transactions,
string collation and clocks are parameters, constrained only by their laws.

## What the proofs found

Each of these is a property that does not hold of the code as it stands; a lemma gives
the exact condition under which it does, and another a concrete failing input.

- A snapshot overwrites balances with those it computed when it was created. If another
  block was finalised in between, credit is lost or paid twice:
  `PayoutLedger.FinalizationKeepsLedgerIffFresh`, `PayoutLedger.TwoSnapshotsLoseCredit`,
  `PayoutLedger.StaleSnapshotLosesCredit`.
- A fee above 100 percent distributes more than the coinbase:
  `PayoutResult.DistributedWithinCoinbase`, `PayoutResult.FeeAboveCoinbase`.
- When the fee address is itself a pending miner row it gets two entries, and storing the
  snapshot violates the unique index: `PayoutResult.OneEntryPerAddressIff`,
  `PayoutResult.PendingFeeAddressTwice`.
- The output cap leaves the removed satoshis unpaid when no kept entry has work, as with a
  fee of its own address and a cap of one. The job then adds them to output 0, so the fee
  address is paid the whole coinbase while the ledger still owes it to the miners:
  `OutputCap.LimitConserves`, `OutputCap.CapWithoutWorkers`, `OutputCap.CapExample`,
  `SnapshotCoinbase.PaysAsRecordedIff`, `SnapshotCoinbase.FeeTakesCoinbase`.
- A share row that becomes visible at or below the last rolled-up index is never counted:
  `RollupRuns.ArrivalKeepsIff`, `RollupRuns.LateShareIsLost`, `RollupRuns.LateShareExample`.
- The header hashed for a V1 share is the block's header only if the extranonce text
  decodes to 12 octets; the submit message checks the length of the text, not that it is
  hexadecimal: `CoinbaseBytes.FilledIsSerialization`, `MiningJob.OtherSizesNeedCollision`,
  `MiningJob.UndecodableExtranonce`, `MiningJob.UndecodableExample`.
- The height check on a declared coinbase head reads past the end of a short input script,
  so a job can be declared whose every solution is refused for its height:
  `CoinbaseHeight.AcceptedHeadFinishesIff`, `CoinbaseHeight.ShortScriptPasses`,
  `JobDeclaration.HeightRejectedIff`. It also skips the flag octet behind a witness marker:
  `CoinbaseHeight.MarkedPrefixCheckDecides`, `CoinbaseHeight.OddFlagPasses`,
  `JobDeclaration.OddFlagNeverSubmits`.
- Between the start of a V1 connection and its subscription a share for another
  connection's job can be accepted; the replayed template then forgets it:
  `SubmissionDedup.SecondCreditIff`, `SubmissionDedup.EarlyShareTwice`.
- V1 shares are told apart by the texts of their fields, not by what these decode to, so one
  header can be credited twice: `ShareText.SameHeaderIff`, `ShareText.CreditedHeadersDiffer`,
  `ShareText.OneHeaderTwice`.

The validators drop zero outputs from the submitted side only, so they would reject a list
with a zero payout; no list the pool builds for a positive value has one:
`SnapshotCoinbase.IncludedArePaid`, `SnapshotCoinbase.SnapshotCoinbasePassesIff`, `CoinbaseOutputs.FallbackPassesIff`.

## Model

| member | source | states |
|---|---|---|
| LargestRemainder.AllocationIsExact | src/ORM/payout-snapshot/payout-distribution.ts:334-370 | with the total equal to the sum of the positive weights, the allocations add up to the amount exactly, for every list of distinct targets |
| LargestRemainder.AllocationStaysInQuota | src/ORM/payout-snapshot/payout-distribution.ts:334-370 | the quota rule: a positive target receives the floor of its exact quota or one more |
| LargestRemainder.AllocationIsMonotone | src/ORM/payout-snapshot/payout-distribution.ts:334-370 | a larger weight never receives less than a smaller one |
| LargestRemainder.ExtraGoesByRank | src/ORM/payout-snapshot/payout-distribution.ts:358-367 | who receives the extra satoshi: largest fraction first, then weight, then address order |
| LargestRemainder.ResidualFits | src/ORM/payout-snapshot/payout-distribution.ts:360-367 | one pass of +1 is always enough, and it reaches only quotas that are not whole |
| LargestRemainder.OnlyPositiveReceive | src/ORM/payout-snapshot/payout-distribution.ts:345-346 | a target without positive weight is not in the result |
| LargestRemainder.AllocationIsApportionment | src/ORM/payout-snapshot/payout-distribution.ts:334-370 | the ranked, sorted algorithm meets a definition that mentions neither ranks nor sorting |
| LargestRemainder.ApportionmentIsUnique | src/ORM/payout-snapshot/payout-distribution.ts:334-370 | that definition leaves a single allocation when address order separates the targets |
| LargestRemainder.FloorQuotas | src/ORM/payout-snapshot/payout-distribution.ts:344-358 | the flooring loop computes every whole quota and the list of fractions |
| LargestRemainder.HandOutResidual | src/ORM/payout-snapshot/payout-distribution.ts:360-367 | the residual loop gives one extra satoshi each, in ranked order, until the residual is spent |
| LargestRemainder.AllocateIntegerSats | src/ORM/payout-snapshot/payout-distribution.ts:334-370 | the loops together compute the specified allocation |
| Sorting.SortSorts | src/ORM/payout-snapshot/payout-distribution.ts:358-358 | the stable sort behind every ranking orders by all keys |
| Sorting.SortKeepsBag | src/ORM/payout-snapshot/payout-distribution.ts:358-358 | sorting loses and repeats nothing |
| PayoutDistribution.PlannedFacts | src/ORM/payout-snapshot/payout-distribution.ts:244-301 | planned payouts are non-negative and never exceed the miner reward |
| PayoutDistribution.CoveredIsPaidInFull | src/ORM/payout-snapshot/payout-distribution.ts:268-290 | a reward that covers all debts leaves nobody owed, and pays a row without work exactly its debt |
| PayoutRules.SurplusByWork | src/ORM/payout-snapshot/payout-distribution.ts:268-290 | beyond the debts, a reward is shared among exactly the owed rows with work, each by its part of their work to less than a satoshi |
| PayoutDistribution.ShortIsShared | src/ORM/payout-snapshot/payout-distribution.ts:292-300 | a short reward is paid out entirely, in proportion to what is owed within one satoshi, never beyond the debt |
| PayoutDistribution.NothingOwedPaysWork | src/ORM/payout-snapshot/payout-distribution.ts:253-266 | with nothing owed the reward follows the work within one satoshi |
| PayoutDistribution.RankingFacts | src/ORM/payout-snapshot/payout-distribution.ts:167-169 | ranking for outputs reorders the rows, losing none, best first |
| PayoutRules.RankingOrder | src/ORM/payout-snapshot/payout-distribution.ts:167-169 | of two ranked rows the earlier is included, or both are alike; then it is paid no less; then it is owed no less; then its address does not come later: stated on the rows' own fields |
| PayoutDistribution.FitWithinBudget | src/ORM/payout-snapshot/payout-distribution.ts:171-180 | the rows taken fit the weight budget together |
| PayoutDistribution.FitIsGreedy | src/ORM/payout-snapshot/payout-distribution.ts:171-180 | a row is taken if and only if it fits beside those taken before it |
| PayoutDistribution.FitRowsFacts | src/ORM/payout-snapshot/payout-distribution.ts:162-186 | fitting keeps every row balanced, pays left-out rows nothing and never raises the total |
| PayoutDistribution.BonusFacts | src/ORM/payout-snapshot/payout-distribution.ts:303-332 | what unfit rows leave goes to included working rows alone, all of it, if there is one |
| PayoutRules.BonusByWork | src/ORM/payout-snapshot/payout-distribution.ts:303-332 | what the outputs leave is shared among exactly the paid rows with work, each by its part of their work to less than a satoshi |
| PayoutDistribution.RedistributedFacts | src/ORM/payout-snapshot/payout-distribution.ts:303-332 | redistribution only raises payouts, keeps rows balanced and brings the total to the reward exactly when a working row is included |
| PayoutResult.TotalWorkIsRowWork | src/ORM/payout-snapshot/payout-distribution.ts:95-116 | the total of the credited work equals the work of the rows, so the allocator's premise on its total holds |
| PayoutResult.EntriesConserve | src/ORM/payout-snapshot/payout-distribution.ts:113-242 | for every entry of every distribution: payout + balance after = credit + balance before; pending entries are paid nothing |
| PayoutResult.EntryTotals | src/ORM/payout-snapshot/payout-distribution.ts:188-242 | the reported total is what the entries pay; credits add up to reward plus fee; balances shift by the difference |
| PayoutResult.DistributedWithinCoinbase | src/ORM/payout-snapshot/payout-distribution.ts:81-242 | distributed + unallocated = coinbase value; distributed stays within it if and only if the fee does, which holds for every fee up to 100 percent |
| PayoutResult.FeeAboveCoinbase | src/ORM/payout-snapshot/payout-distribution.ts:87-93 | a concrete fee of 200 percent that distributes more than the coinbase |
| PayoutRules.FeeIs | src/ORM/payout-snapshot/payout-distribution.ts:85-93 | the fee is the whole satoshis in the configured percentage of the coinbase, or nothing where that is below the minimum or no address is set |
| PayoutRules.FeeStands | src/ORM/payout-snapshot/payout-distribution.ts:372-383 | a fee is one entry's on top of what that address is paid as a miner, or the first entry's of its own |
| PayoutResult.WorkingRowPaysAll | src/ORM/payout-snapshot/payout-distribution.ts:162-242 | once a miner with work is included, the whole coinbase is paid and the sum of balances does not move |
| PayoutResult.OutputsWithinBudget | src/ORM/payout-snapshot/payout-distribution.ts:162-180 | with any miner included, base, commitment, fee and all outputs stay within the budget less the margin |
| PayoutResult.IncludedIffItFits | src/ORM/payout-snapshot/payout-distribution.ts:162-186 | an eligible row is left out if and only if it did not fit after the rows ranked before it |
| PayoutRules.LeftOutOnlyByWeight | src/ORM/payout-snapshot/payout-distribution.ts:162-186 | only a row paid something that works or reaches the minimum gets an output, and it goes without only where rows paid no less have used the weight: base 328, commitment 188, margin 200, default budget 50000 |
| PayoutResult.OneEntryPerAddressIff | src/ORM/payout-snapshot/payout-distribution.ts:372-383 | entries have distinct addresses if and only if no fee is paid, or its address has neither a balance nor credit for work of its own, or that address fits into the coinbase as a miner after the rows ranked before it |
| PayoutResult.FeeApartOneEntryPerAddress | src/ORM/payout-snapshot/payout-distribution.ts:372-383 | on the input itself: a fee address in neither the work nor the balance table gives distinct entries |
| PayoutResult.PendingFeeAddressTwice | src/ORM/payout-snapshot/payout-distribution.ts:372-383 | a concrete input whose fee address is a pending row and gets two entries |
| PayoutResult.OneOutputPerAddress | src/ORM/payout-snapshot/payout-distribution.ts:226-231 | coinbase outputs always have distinct addresses |
| PayoutResult.EntriesOpenWithBalances | src/ORM/payout-snapshot/payout-distribution.ts:106-160 | every entry opens with the stored balance of its address, unless the fee address is pending |
| PayoutResult.EntriesPayNonNegative | src/ORM/payout-snapshot/payout-distribution.ts:81-242 | no entry is ever paid a negative amount, and every included entry at least one satoshi |
| PayoutRules.MinerEntriesAre | src/ORM/payout-snapshot/payout-distribution.ts:204-225 | an address has an entry if and only if its row is paid or keeps a balance, and the entry is that row |
| PayoutRules.MinerEntriesOrder | src/ORM/payout-snapshot/payout-distribution.ts:211-225 | entries stand with the paid ones first, then by payout, by target and by address |
| PayoutRules.ResultIs | src/ORM/payout-snapshot/payout-distribution.ts:81-242 | the result counts each named address once, lists the included entries in rank order, and leaves unallocated what these do not take; without work or coinbase it distributes nothing |
| PayoutComputation.SumWorkByAddress | src/ORM/payout-snapshot/payout-distribution.ts:95-104 | the in-place map of work per address equals the specified table |
| PayoutComputation.Computation.AllocatePayoutTargets | src/ORM/payout-snapshot/payout-distribution.ts:244-301 | the three branches of the row-updating loop compute the planned payouts |
| PayoutComputation.Computation.FitOutputs | src/ORM/payout-snapshot/payout-distribution.ts:162-186 | ranking, the loop over the used weight and the take-back loop compute the fitted rows |
| PayoutComputation.Computation.RedistributeUnfitMinerPayouts | src/ORM/payout-snapshot/payout-distribution.ts:303-332 | the in-place bonus loop computes the redistributed rows |
| PayoutComputation.BuildPayoutDistribution | src/ORM/payout-snapshot/payout-distribution.ts:81-242 | the whole imperative pipeline returns exactly the specified distribution |
| OutputCap.CappedAt | src/ORM/payout-snapshot/payout-snapshot.service.ts:692-722 | exactly the included entries behind the cap are demoted, their payout moved to the balance |
| OutputCap.LimitConserves | src/ORM/payout-snapshot/payout-snapshot.service.ts:692-748 | the cap keeps all entries and credits, leaves min(included, cap) outputs, and leaves the paid total unchanged if and only if a kept entry has work or nothing was removed |
| OutputCap.LimitBalances | src/ORM/payout-snapshot/payout-snapshot.service.ts:692-748 | every entry stays balanced; demoted entries are paid nothing, kept ones no less than before |
| OutputCap.RemovedByWork | src/ORM/payout-snapshot/payout-snapshot.service.ts:715-748 | what the cap removes is shared among the kept entries with work, each by its part of their work to less than a satoshi |
| OutputCap.CapWithoutWorkers | src/ORM/payout-snapshot/payout-snapshot.service.ts:692-721 | with a fee address of its own and a cap of one output only the fee is paid, whoever the miners are; before the cap, once a working miner was included, it was the whole coinbase |
| OutputCap.OnlyMinerIncludedIff | src/ORM/payout-snapshot/payout-distribution.ts:162-186 | a miner alone is paid in the coinbase if and only if its output fits the budget |
| OutputCap.CapExample | src/ORM/payout-snapshot/payout-snapshot.service.ts:692-721 | one miner, a ten percent fee, a cap of one: 10,000 of 100,000 satoshis stay paid |
| OutputCap.LimitCoinbaseOutputs | src/ORM/payout-snapshot/payout-snapshot.service.ts:692-748 | the two mutating loops compute the specified cap |
| PayoutLedger.FinalizationDrift | src/ORM/payout-snapshot/payout-snapshot.service.ts:292-367 | one finalisation moves an address off the ledger identity exactly by the gap between assumed and standing opening balance |
| PayoutLedger.FinalizationKeepsLedgerIffFresh | src/ORM/payout-snapshot/payout-snapshot.service.ts:228-385 | a finalisation keeps balance + paid = credits for every address if and only if the snapshot opened with the balances that stand now |
| PayoutLedger.TwoSnapshotsLoseCredit | src/ORM/payout-snapshot/payout-snapshot.service.ts:78-385 | from empty tables: two snapshots created one after the other and both finalised break the ledger identity, for every such pool with a fee and a cap of one |
| PayoutLedger.StaleSnapshotLosesCredit | src/ORM/payout-snapshot/payout-snapshot.service.ts:78-385 | such a run in numbers: one miner, ten percent fee |
| PayoutLedger.OpenBalancesAreRead | src/ORM/payout-snapshot/payout-snapshot.service.ts:543-553 | the non-zero balances read for a snapshot determine every address's standing balance |
| PayoutLedger.CreatedSnapshotIsFresh | src/ORM/payout-snapshot/payout-snapshot.service.ts:78-208 | a snapshot that can be stored is balanced, has one entry an address, and opens with the balances that stand |
| PayoutLedger.CreationMeans | src/ORM/payout-snapshot/payout-snapshot.service.ts:95-125 | a request some snapshot was taken for, with the same height, value and window end, changes nothing; any other with work, a value, an included entry and distinct addresses is stored with those three and its entries |
| PayoutLedger.TakenOnce | src/ORM/payout-snapshot/payout-snapshot.service.ts:95-102 | over every run no two snapshots were taken for one height, value and window end |
| PayoutLedger.SnapshotPaysWholeCoinbase | src/ORM/payout-snapshot/payout-snapshot.service.ts:110-128 | a stored snapshot respects the output cap, and with a kept working entry pays the whole coinbase with no net change of balances |
| PayoutLedger.RunsAreOk | src/ORM/payout-snapshot/payout-snapshot.service.ts:78-385 | every run of creations and finalisations keeps the tables well formed |
| PayoutLedger.LedgerHoldsOverRuns | src/ORM/payout-snapshot/payout-snapshot.service.ts:228-375 | over every run in which no finalisation falls between a snapshot's creation and its own, each address has balance + paid = the credits of its finalised snapshots, and heights are finalised at most once |
| PayoutLedger.FinalizedHeightIsClosed | src/ORM/payout-snapshot/payout-snapshot.service.ts:259-272 | a height with history is never finalised again, by any snapshot |
| PayoutLedger.FinalizationWrites | src/ORM/payout-snapshot/payout-snapshot.service.ts:292-367 | a finalisation sets each entry's balance, adds its payout to the address's total if it was included, and writes one history row for it |
| PayoutLedger.FinalizationLeavesOthers | src/ORM/payout-snapshot/payout-snapshot.service.ts:292-367 | an address without an entry keeps its balance, its total and its history |
| PayoutLedger.FinalizationRefused | src/ORM/payout-snapshot/payout-snapshot.service.ts:248-290 | which of the two refusals is answered, and that both leave the tables alone |
| PayoutService.PayoutSnapshotService.GetOpenBalances | src/ORM/payout-snapshot/payout-snapshot.service.ts:543-553 | the query lists exactly the non-zero balances |
| PayoutService.PayoutSnapshotService.InsertSnapshot | src/ORM/_migrations/PayoutSnapshots1780969800000.ts:67-70 | a repeated address violates the unique index and leaves the tables as they were |
| PayoutService.PayoutSnapshotService.CreateSnapshotForTemplate | src/ORM/payout-snapshot/payout-snapshot.service.ts:78-208 | a template that asks for no snapshot changes nothing; otherwise reuse, empty windows and insertion take the table step the ledger theorem is about |
| PayoutService.PayoutSnapshotService.FinalizeSnapshotForBlock | src/ORM/payout-snapshot/payout-snapshot.service.ts:228-385 | only an enabled pool, the right mode, an accepted block and a snapshot id reach the tables, and then the loop takes exactly the finalisation step |
| ShareRollup.RowsSumUp | src/ORM/share-accounting/share-accounting.service.ts:300-336 | a batch's grouped rows sum to its totals, address by address, with one row a group |
| ShareRollup.BoundedIsStablePrefix | src/ORM/share-accounting/share-accounting.service.ts:203-245 | the chosen shares are the oldest waiting ones without a gap, at most the batch limit, none younger than the lag |
| ShareRollup.BoundedIsLongest | src/ORM/share-accounting/share-accounting.service.ts:203-245 | of the waiting shares either as many are chosen as the limit allows, or all of them, or the next one is too young |
| ShareRollup.RowsByGroup | src/ORM/share-accounting/share-accounting.service.ts:300-336 | each group has one row, holding the difficulty of exactly its own counting shares in the range |
| ShareRollup.ChosenRange | src/ORM/share-accounting/share-accounting.service.ts:226-249 | a chosen index range holds no waiting share but the chosen ones and leaves none behind |
| RollupRuns.CoveredOnce | src/ORM/share-accounting/share-accounting.service.ts:195-298 | no share index lies in two batches |
| RollupRuns.BegunRange | src/ORM/share-accounting/share-accounting.service.ts:195-249 | a begun range starts at the first waiting share, holds only old enough ones, and either holds exactly as many as the limit or is followed by one too young or none; if nothing begins, the first waiting share is too young or there is none |
| RollupRuns.ArrivalKeepsIff | src/ORM/share-accounting/share-accounting.service.ts:180-347 | what the rollup at hand commits after an arrival is exact if and only if the arrival was not late, at every stage of a rollup |
| RollupRuns.StepKeeps | src/ORM/share-accounting/share-accounting.service.ts:180-347 | every rollup step, aborted or not, keeps ranges disjoint and increasing, batches exact and old enough, and no counting share uncovered |
| RollupRuns.PunctualRunIsExact | src/ORM/share-accounting/share-accounting.service.ts:180-347 | the same over every interleaving of arrivals and rollup steps without a late share |
| RollupRuns.FreshRunIsExact | src/ORM/share-accounting/share-accounting.service.ts:180-347 | the same from empty tables |
| RollupRuns.BatchesConserve | src/ORM/share-accounting/share-accounting.service.ts:251-298 | the batches' counts and difficulties add up to all counting shares up to the last end index |
| RollupRuns.LateShareIsLost | src/ORM/share-accounting/share-accounting.service.ts:195-213 | a share that appears at or below the last end index is missing from the batches in every later state |
| RollupRuns.LateShareExample | src/ORM/share-accounting/share-accounting.service.ts:195-213 | a concrete run: two visible shares, a batch count of one |
| PplnsWindow.WindowIsShortest | src/ORM/payout-snapshot/payout-snapshot.service.ts:474-505 | the selected batches are the shortest newest-first run reaching the target, or all |
| PplnsWindow.FilterSelectsWindow | src/ORM/payout-snapshot/payout-snapshot.service.ts:513-531 | the filter on end indices picks exactly the window's batches |
| PplnsWindow.WindowIsShares | src/ORM/payout-snapshot/payout-snapshot.service.ts:465-541 | window total = difficulty of all shares between its bounds; each address once, with exactly its own shares' difficulty; all addresses together give the window total |
| WindowPayout.TableOfWork | src/ORM/payout-snapshot/payout-distribution.ts:95-116 | the distribution's table holds every named address with its whole work, and together all named work |
| WindowPayout.WorkIsOwnShares | src/ORM/payout-snapshot/payout-snapshot.service.ts:465-541 | the distribution weighs each address by the difficulty of its own shares in the window, and all of them by the window's total |
| WindowPayout.FairInQuota | src/ORM/payout-snapshot/payout-distribution.ts:127-134 | a row's credit is its quota of the miner reward by work, to less than a satoshi |
| WindowPayout.CreditFollowsShares | src/ORM/payout-snapshot/payout-snapshot.service.ts:78-119 | end to end: every working entry of a snapshot but the fee's is credited its quota of the reward by its own shares in the rolled-up window, to less than a satoshi |
| WindowPayout.WindowOfRequest | src/ORM/payout-snapshot/payout-snapshot.service.ts:78-119 | a template asks for its own height and value and the end of its window, and only with payouts enabled, a value, a network difficulty and work |
| WindowPayout.WindowGrows | src/ORM/payout-snapshot/payout-snapshot.service.ts:210-217 | the window opens with one network difficulty and gains one for every block paid for until it is as long as configured |
| WindowPayout.FinalizationPaysForOne | src/ORM/payout-snapshot/payout-snapshot.service.ts:219-226 | a finalisation raises the number of blocks paid for by exactly one |
| SnapshotCoinbase.IncludedArePaid | src/ORM/payout-snapshot/payout-snapshot.service.ts:692-748 | every included entry of a snapshot is paid at least one satoshi, before and after the cap |
| SnapshotCoinbase.RanksFollowOrder | src/ORM/payout-snapshot/payout-snapshot.service.ts:612-622 | reading the entries back by rank gives them in the order of the distribution |
| SnapshotCoinbase.PaysAsRecordedIff | src/ORM/payout-snapshot/payout-snapshot.service.ts:634-640 | the coinbase built from a snapshot pays every address what the snapshot records if and only if it records the whole coinbase as paid |
| SnapshotCoinbase.WorkerSnapshotPaysAsRecorded | src/ORM/payout-snapshot/payout-snapshot.service.ts:634-640 | so it does, output by output, for every snapshot with a working miner among its outputs |
| SnapshotCoinbase.FeeTakesCoinbase | src/models/MiningJob.ts:181-203 | with a fee of its own address and a cap of one output the fee address is paid the whole coinbase, while the snapshot records only the fee |
| SnapshotCoinbase.SnapshotCoinbasePassesIff | src/services/template-provider.service.ts:255-313 | the coinbase of any snapshot that can be stored passes both validators if and only if no paid address has a script that looks like a commitment |
| ShareQueue.StepKeeps | src/ORM/share-accounting/share-accounting.service.ts:142-167 | accepted = settled, in flight, pending, in order; at most one flush; no timer beside a flush; pending shares always have one or the other |
| ShareQueue.OfferMeans | src/ORM/share-accounting/share-accounting.service.ts:142-155 | a share is refused exactly when the queue is full, and starts a flush exactly when it fills a batch with none under way |
| ShareQueue.AfterFlush | src/ORM/share-accounting/share-accounting.service.ts:697-723 | after a flush what waits is flushed at once if it fills a batch, and otherwise on the timer; the timer flushes what waits |
| ShareQueue.FreshRunKeeps | src/ORM/share-accounting/share-accounting.service.ts:685-733 | the same over every interleaving of records, timers, insert completions, callbacks and explicit flushes |
| ShareQueue.SettledInOrder | src/ORM/share-accounting/share-accounting.service.ts:726-733 | every promise settles at most once, in the order of acceptance |
| ShareQueue.EverythingSettles | src/ORM/share-accounting/share-accounting.service.ts:697-733 | from every reachable state the owed steps come to rest with every accepted share settled |
| ShareQueue.ShareAccounting.RecordAcceptedShare | src/ORM/share-accounting/share-accounting.service.ts:142-155 | a full queue refuses the share; otherwise it is queued and flush or timer started as specified |
| ShareQueue.ShareAccounting.BeginFlush | src/ORM/share-accounting/share-accounting.service.ts:697-712 | the splice of the oldest shares into one flush |
| ShareQueue.ShareAccounting.FinishInsert | src/ORM/share-accounting/share-accounting.service.ts:726-733 | all promises of the batch settle, in order |
| ShareQueue.ShareAccounting.RunFinally | src/ORM/share-accounting/share-accounting.service.ts:712-723 | the completion callback hands over to the next flush or timer |
| Sv2Frame.HeaderRoundTrip | src/models/sv2/sv2-frame.ts:25-49 | decoding undoes encoding of every header |
| Sv2Frame.HeaderIsCanonical | src/models/sv2/sv2-frame.ts:25-49 | every six octets are the encoding of what they decode to |
| Sv2Frame.LengthsInvert | src/models/sv2/sv2-frame.ts:61-88 | the two length functions are inverse, and the second fails exactly off the image of the first |
| Sv2Frame.SealedLength | src/models/sv2/sv2-frame.ts:208-231 | a sealed payload has exactly the predicted length |
| Sv2Pieces.PieceAt | src/models/sv2/sv2-frame.ts:208-231 | the k-th sealed piece stands behind k pieces of 65535 octets, is sealed under the k-th counter value, and is itself 65535 octets or the last |
| Sv2Pieces.FewestPieces | src/models/sv2/sv2-frame.ts:57-70 | no split of the payload into pieces sealed within 65535 octets each takes fewer pieces or octets |
| Sv2Pieces.CountersUsed | src/models/sv2/sv2-frame.ts:61-73 | a payload uses one counter value for every started 65519 octets |
| Sv2Pieces.HeaderOctets | src/models/sv2/sv2-frame.ts:25-49 | where the fields of a header stand in its six octets |
| Sv2Frame.OpenUndoesSeal | src/models/sv2/sv2-frame.ts:174-188 | opening chunk by chunk undoes sealing chunk by chunk under stepping nonces |
| Sv2Frame.DrainSplits | src/models/sv2/sv2-frame.ts:130-172 | parsing early changes nothing of what is parsed later, header decrypted ahead of its payload included |
| Sv2Frame.FeedingInPieces | src/models/sv2/sv2-frame.ts:130-172 | feeding in pieces is feeding at once, errors included |
| Sv2Frame.FeedingStops | src/models/sv2/sv2-frame.ts:130-172 | with a bad frame in the stream, the pieces before the one that fails return exactly the frames their octets hold, and from that piece on the octets no longer parse |
| Sv2Frame.FrameSizes | src/models/sv2/sv2-frame.ts:61-73 | header and payload take exactly their computed wire sizes |
| Sv2Frame.StreamRoundTrip | src/models/sv2/sv2-frame.ts:130-231 | for all frames and all cuts of their stream the reader returns exactly those frames, ends empty and with the writer's counter |
| Sv2Frame.PartialStream | src/models/sv2/sv2-frame.ts:130-172 | while part of a stream has arrived, however cut, exactly the frames whose last octet has arrived are returned, and no error |
| Sv2Connection.CipherState.EncryptWithAd | src/models/sv2/sv2-noise.ts:117-133 | sealing uses the current nonce and advances it by one, or fails at the limit |
| Sv2Connection.CipherState.DecryptWithAd | src/models/sv2/sv2-noise.ts:135-156 | opening uses the current nonce and advances it only on success |
| Sv2Connection.FrameWriter.WriteFrame | src/models/sv2/sv2-frame.ts:208-231 | the chunk loop writes the specified octets and moves the counter by their seals |
| Sv2Connection.FrameReader.Feed | src/models/sv2/sv2-frame.ts:130-172 | the buffer-and-state loop returns what the specified reader returns, and terminates |
| Sv2Connection.FrameReader.DecryptPayloadChunks | src/models/sv2/sv2-frame.ts:174-188 | the chunk loop opens the payload, or fails with the counter where it stopped |
| BinaryCodec.DecodeUndoesEncode | src/models/sv2/sv2-binary-codec.ts:28-143 | every unsigned integer, U256, octet string and sequence of section 3.1 survives encoding, nested sequences included, and nothing behind it is read; BOOL, OPTION and F32 are not among the kinds |
| BinaryCodec.EncodeUndoesDecode | src/models/sv2/sv2-binary-codec.ts:28-143 | whatever decodes is the encoding of its value |
| BinaryCodec.MessageRoundTrip | src/models/sv2/sv2-binary-codec.ts:155-301 | the same for every list of fields |
| BinaryCodec.EncodingIsInjective | src/models/sv2/sv2-binary-codec.ts:155-301 | two messages of one layout never share an encoding |
| BinaryCodec.TypeLayout | src/models/sv2/sv2-binary-codec.ts:193-296 | the octets of every modelled type: integers and lengths least significant first, in the width of their kind |
| Sv2Buffers.BufferWriter.EnsureCapacity | src/models/sv2/sv2-binary-codec.ts:163-171 | doubling terminates and keeps the written octets |
| Sv2Buffers.BufferWriter.Write | src/models/sv2/sv2-binary-codec.ts:178-296 | writing appends exactly the encoding of the value, and fails exactly on wrong lengths and counts and on 16- and 64-bit integers out of range |
| Sv2Buffers.BufferReader.Read | src/models/sv2/sv2-binary-codec.ts:20-143 | reading consumes exactly one encoding, or fails without passing the end |
| Sv2Messages.SerializeDeclareMiningJob | src/models/sv2/sv2-jdp-messages.ts:65-75 | the writes, in order, produce the wire form, and throw if and only if a length is over its limit |
| Sv2Messages.DeserializeDeclareMiningJob | src/models/sv2/sv2-jdp-messages.ts:77-87 | the reads, in their own order, build the record or fail |
| Sv2Messages.DeclareMiningJobReadsBack | src/models/sv2/sv2-jdp-messages.ts:65-87 | deserialize(serialize(m) + rest) is m with rest unread, for every message within the limits |
| Sv2Layout.DeclareMiningJobLayout | src/models/sv2/sv2-jdp-messages.ts:65-75 | the seven fields behind each other in the octets of the message, stated without the codec |
| Sv2Messages.SerializeProvideMissingTransactionsSuccess | src/models/sv2/sv2-jdp-messages.ts:162-167 | the writes produce the wire form, and throw if and only if a length is over its limit |
| Sv2Messages.DeserializeProvideMissingTransactionsSuccess | src/models/sv2/sv2-jdp-messages.ts:169-174 | the reads build the record or fail |
| Sv2Messages.ProvideMissingTransactionsSuccessReadsBack | src/models/sv2/sv2-jdp-messages.ts:162-174 | deserialize(serialize(m) + rest) is m with rest unread |
| Sv2Layout.ProvideMissingTransactionsSuccessLayout | src/models/sv2/sv2-jdp-messages.ts:162-167 | the request, the count, and each transaction behind its length in three octets |
| Sv2Messages.SerializeSetCustomMiningJob | src/models/sv2/sv2-jdp-messages.ts:227-243 | thirteen writes in order produce the wire form, and throw if and only if a length is over its limit |
| Sv2Messages.DeserializeSetCustomMiningJob | src/models/sv2/sv2-jdp-messages.ts:245-261 | thirteen reads in their own order build the record or fail |
| Sv2Messages.SetCustomMiningJobReadsBack | src/models/sv2/sv2-jdp-messages.ts:227-261 | deserialize(serialize(m) + rest) is m with rest unread |
| Sv2Layout.CustomJobLayout | src/models/sv2/sv2-jdp-messages.ts:227-235 | the seven fields of the template part in the octets of the message |
| Sv2Layout.CustomCoinbaseLayout | src/models/sv2/sv2-jdp-messages.ts:236-243 | the six fields of the coinbase part in the octets behind them |
| DatumFrame.HeaderRoundTrip | src/models/datum/datum-codec.ts:145-175 | decoding undoes encoding for every header and key |
| DatumFrame.HeaderOctets | src/models/datum/datum-codec.ts:145-160 | length, reserved bits, flags and command in the four octets of a header without a key |
| DatumFrame.KeyTurnsBits | src/models/datum/datum-codec.ts:157-158 | a key turns exactly the bits of a header at which it has a one |
| DatumFrame.DatumHeaderXorFeedback | src/models/datum/datum-codec.ts:177-193 | the assignments of the key schedule compute the function the other theorems speak of |
| DatumFrame.KeyTurnsPerEncrypted | src/models/datum/datum-codec.ts:195-236 | over a stream the key turns once for each frame on the encrypted channel and for no other |
| DatumFrame.DrainSplits | src/models/datum/datum-codec.ts:204-229 | parsing early changes nothing |
| DatumFrame.FeedingInPieces | src/models/datum/datum-codec.ts:204-229 | feeding in pieces is feeding at once |
| DatumFrame.StreamRoundTrip | src/models/datum/datum-codec.ts:195-236 | a reader with the sender's key recovers every frame under any chunking, its rolling key in step |
| DatumFrame.DatumFrameReader.Feed | src/models/datum/datum-codec.ts:204-229 | the buffer loop returns what the specified reader returns |
| DatumChannel.IncrementCounts | src/models/datum/datum-crypto.ts:202-210 | the limb-wise carry counts modulo the nonce space |
| DatumChannel.IncrementNonce | src/models/datum/datum-crypto.ts:202-210 | the in-place carry loop computes that increment |
| DatumChannel.NonceSteps | src/models/datum/datum-crypto.ts:157-179 | stepping the nonce once per frame gives (initial + k) mod 2^192 |
| DatumChannel.ChannelRoundTrip | src/models/datum/datum-crypto.ts:147-179 | for every list of messages and every chunking the receiver gets one frame a message and opens each to its body, the k-th under nonce (initial + k) mod 2^192 |
| DatumChannel.DatumCryptoSession.EncryptChannelFrame | src/models/datum/datum-crypto.ts:157-179 | one frame under the current nonce and header key, both advanced |
| DatumChannel.DatumCryptoSession.DecryptChannelPayload | src/models/datum/datum-crypto.ts:147-155 | opens under the receive nonce and advances it |
| MerklePath.PathYieldsRoot | src/services/template-provider.service.ts:422-446 | for every transaction list, coinbase hash and placeholder, folding the hash along the path gives the root of the full tree |
| MerklePath.NextLevelAt | src/services/template-provider.service.ts:435-440 | each node is the hash of two neighbours, a last odd one with itself |
| MerklePath.RootIsNode | src/services/template-provider.service.ts:422-446 | the root is the node at the top of the tree defined by positions |
| MerklePath.PathAt | src/services/template-provider.service.ts:422-446 | the k-th path entry is the node beside the leftmost one at height k |
| MerklePath.PathIgnoresPlaceholder | src/services/template-provider.service.ts:422-427 | the path does not depend on the placeholder |
| MerklePath.FoldBinds | src/models/MiningJob.ts:165-178 | two coinbase hashes with one path and one root exhibit a collision |
| MerklePath.HashLevel | src/services/template-provider.service.ts:435-440 | the pairing loop computes the next level, its last odd node doubled |
| MerklePath.BuildCoinbaseMerklePath | src/services/template-provider.service.ts:422-446 | the level loop computes the path of the tree |
| MerklePath.ComparePaths | src/services/template-provider.service.ts:395-413 | acceptance is equality; a rejection names the length or the first difference |
| MerklePath.CheckCoinbaseMerklePath | src/services/template-provider.service.ts:395-413 | an accepted path leads every coinbase to the root of the block it completes |
| MerklePath.ComputeMerkleRoot | src/services/custom-work.service.ts:102-112 | the buffer loop of a custom-job share computes the fold |
| MerklePath.CalculateMerkleRootHash | src/models/MiningJob.ts:165-178 | the self-overwriting buffer loop computes the same fold |
| MerklePath.FoldShareMerkleRoot | src/models/StratumV2Client.ts:640-646 | the reused buffer loop of an extended share computes the same fold |
| CoinbaseBytes.VarIntPrefixFree | src/services/custom-work.service.ts:125-148 | no variable-length integer's encoding begins another's |
| CoinbaseBytes.FirstOccurrence | src/models/MiningJob.ts:81-87 | the first textual occurrence of the script is the script, for every height and output list |
| CoinbaseBytes.IndexOf | src/models/MiningJob.ts:87-87 | the text search returns the first occurrence |
| CoinbaseBytes.SplitCoinbase | src/models/MiningJob.ts:68-92 | the hex split cuts the serialized coinbase right before and right after its extranonce |
| CoinbaseBytes.FilledIsSerialization | src/models/MiningJob.ts:109-114 | the joined halves are the serialization of the completed coinbase if and only if the extranonce has 12 octets |
| CoinbaseBytes.PatchCoinbasePrefixVarint | src/utils/coinbase-prefix.utils.ts:3-19 | the copy with one overwritten octet, and its unchanged cases |
| CoinbaseBytes.ExtendedIsSerialization | src/models/StratumV2Client.ts:1168-1171 | an extended channel's bytes are the completed coinbase's serialization if and only if the script length fits one octet (at most 0xfc) |
| CoinbaseBytes.EncodeBitcoinVarInt | src/services/custom-work.service.ts:125-148 | the four size classes encode the specified integer |
| CoinbaseLayout.VarIntLayout | src/services/custom-work.service.ts:125-148 | the tag octet and the octets behind it in the four size classes |
| CoinbaseLayout.TransactionLayout | src/services/custom-work.service.ts:40-70 | every field of a coinbase transaction at its place in the octets |
| CoinbaseLayout.JobCoinbaseLayout | src/models/MiningJob.ts:54-95 | the pool's own coinbase: the height behind its length, then the pool's name, then zeros up to 35 octets, the last twelve for the extranonce |
| CoinbaseLayout.OutputLayout | src/services/sv2-job-declaration-registry.service.ts:114-132 | one output: its value in eight octets, the length of its script, the script |
| CoinbaseLayout.OutputsLayout | src/services/sv2-job-declaration-registry.service.ts:114-132 | the outputs stand one behind the other after their count |
| CoinbaseBytes.BuildSv2CoinbaseSplit | src/services/custom-work.service.ts:40-70 | the halves of a custom job |
| CoinbaseBytes.CustomIsSerialization | src/services/custom-work.service.ts:40-78 | a custom job around an extranonce is the serialization of its coinbase if and only if the extranonce has the announced size |
| MiningJob.HeaderBinds | src/models/MiningJob.ts:123-131 | the 80 header octets determine every field |
| MiningJob.CompleteHoldsShare | src/models/MiningJob.ts:109-132 | in the 80 octets of a share's header stand the template's version with the mask's bits turned, its previous hash and bits, and the submission's time and nonce, each at its own place |
| MiningJob.UpdatedHoldsSolution | src/models/MiningJob.ts:134-162 | the block of a solution carries the same, the template's other transactions in their order, and the coinbase with the extranonce in its place |
| MiningJob.BuildHeader | src/services/custom-work.service.ts:114-123 | the field-by-field writes produce the 80 octets |
| MiningJob.HeadersAgree | src/models/MiningJob.ts:109-162 | the header a share is judged by equals the header of the completed block for every template, mask, nonce, time and 12-octet extranonce |
| MiningJob.OtherSizesNeedCollision | src/models/MiningJob.ts:109-162 | at any other size the two headers can only agree through a hash collision |
| HexText.DecodeJoin | src/models/MiningJob.ts:109-153 | hexadecimal text of whole octets decodes to them whatever follows |
| HexText.DecodesFullyIff | src/models/MiningJob.ts:109-114 | decoding stops at the first bad pair: a text of even length yields all its octets if and only if every character is a digit |
| MiningJob.UndecodableExtranonce | src/models/MiningJob.ts:109-153 | a 16-character extranonce2 completes the coinbase if and only if all its characters are hexadecimal digits |
| MiningJob.UndecodableExample | src/models/MiningJob.ts:109-153 | sixteen letters z decode to nothing, and the hashed bytes are not the coinbase |
| MiningJob.HeaderCommitsToBlock | src/models/MiningJob.ts:134-162 | with true branches both headers commit to the completed block's own Merkle root |
| MiningJob.Job.constructor | src/models/MiningJob.ts:40-95 | the job's stored halves belong to its coinbase, built from the payout list and the commitment |
| MiningJob.Job.BuildHeaderBuffer | src/models/MiningJob.ts:109-132 | returns the fast header's octets |
| MiningJob.Job.CopyAndUpdateBlock | src/models/MiningJob.ts:134-162 | returns the updated block, its script rebuilt through hex text |
| CoinbaseOutputs.OutputsSumToReward | src/models/MiningJob.ts:181-203 | every non-empty list pays exactly the reward |
| CoinbaseOutputs.OutputAt | src/models/MiningJob.ts:191-203 | each recipient's script and amount in place, the leftover on output 0 alone |
| CoinbaseOutputs.AmountIs | src/models/MiningJob.ts:191-200 | an output's amount is the payout's own, or else the whole satoshis in its percentage |
| CoinbaseOutputs.CommitmentIff | src/services/template-provider.service.ts:586-591 | an output is a witness commitment if and only if its script is 38 octets beginning 6a 24 aa 21 a9 ed |
| CoinbaseOutputs.PaidAsListedIff | src/models/MiningJob.ts:191-203 | everybody is paid exactly the listed amount if and only if the amounts make up the reward |
| CoinbaseOutputs.HundredPercent | src/models/MiningJob.ts:191-203 | percentages adding up to 100 leave fewer satoshis than recipients and nobody a negative amount |
| CoinbaseOutputs.OwnCoinbasePasses | src/services/template-provider.service.ts:255-313 | the pool's own coinbase validates if and only if no payout is zero and no recipient script looks like a commitment |
| CoinbaseOutputs.FallbackPassesIff | src/models/StratumV2Client.ts:1435-1441 | the coinbase of a template without payouts, one address taking it all, validates if and only if the coinbase value is positive and the script no commitment |
| CoinbaseOutputs.AcceptedSpendsReward | src/services/template-provider.service.ts:281-313 | an accepted coinbase spends the coinbase value, plus only what it attaches to commitment outputs |
| CoinbaseOutputs.CreateCoinbaseTransaction | src/models/MiningJob.ts:181-203 | the job's loop and its correction of output 0 build the specified list |
| CoinbaseOutputs.BuildCoinbasePayoutOutputs | src/services/template-provider.service.ts:227-253 | the validator's loop builds the same list |
| CoinbaseOutputs.BuildExpectedPayoutOutputs | src/models/StratumV2Client.ts:1475-1499 | the connection's loop builds the same list for every non-negative value |
| CoinbaseOutputs.ValidateCoinbaseTransactionPayoutOutputs | src/services/template-provider.service.ts:255-313 | valid if and only if the list is not empty and the compared outputs are the payout list |
| CoinbaseOutputs.ValidateCoinbasePayoutOutputs | src/models/StratumV2Client.ts:1443-1473 | the connection's validator decides the same question |
| DeclaredTransactions.LookupFinds | src/services/template-provider.service.ts:675-696 | a lookup finds a transaction exactly when one is listed under the hash in either byte order |
| DeclaredTransactions.CheckDeclaredHashes | src/services/template-provider.service.ts:176-203 | duplicates are found exactly up to byte order, and the reported positions are exactly the unknown ones, in order |
| DeclaredTransactions.CheckProvided | src/services/template-provider.service.ts:327-358 | count, decoding and matching decide the transactions sent later |
| DeclaredTransactions.DeclaredResolve | src/services/template-provider.service.ts:646-673 | every declared hash resolves to a transaction listed under it |
| DeclaredTransactions.DeclaredBuilds | src/services/template-provider.service.ts:514-532 | the block lists one transaction per declared hash, in order, all different |
| DeclaredTransactions.ListDeclared | src/services/template-provider.service.ts:526-532 | the block loop returns that list or the not-found error |
| OutputCodec.ScriptsRoundTrip | src/services/sv2-job-declaration-registry.service.ts:114-132 | reading a serialized output list gives its scripts back |
| OutputCodec.ExtractOutputScripts | src/services/sv2-job-declaration-registry.service.ts:114-132 | the cursor loop reads exactly the specified scripts, or fails |
| OutputCodec.CoinbaseIncludesRequiredOutputs | src/services/sv2-job-declaration-registry.service.ts:101-112 | the search decides whether every required script occurs |
| OutputCodec.TokenAsksForItsScripts | src/services/sv2-job-declaration-registry.service.ts:101-132 | for a token the pool issued, a declared coinbase qualifies if and only if it contains each of its scripts, none empty |
| OutputCodec.RequiredMeans | src/services/sv2-job-declaration-registry.service.ts:101-112 | no list asks for nothing, an unreadable one is an error, any other asks for each of its scripts, none of them empty |
| CoinbaseHeight.StartFinds | src/services/template-provider.service.ts:593-618 | in every head of a one-input transaction that reaches its script, with a witness marker or without, the script's start is found |
| CoinbaseHeight.HeadCheckDecides | src/services/template-provider.service.ts:315-325 | for every such transaction and every cut: the check on a head looks for the height where the script starts, in the script or in what follows it; of a head that ends earlier, at its own start |
| CoinbaseHeight.PrefixCheckDecides | src/services/template-provider.service.ts:315-325 | the same for a coinbase serialized without its witness |
| CoinbaseHeight.MarkedPrefixCheckDecides | src/services/template-provider.service.ts:593-618 | the same for a coinbase serialized with a witness marker, whatever its flag octet |
| CoinbaseHeight.AcceptedHeadFinishesIff | src/services/template-provider.service.ts:211-225 | a finished coinbase whose head was accepted passes if and only if its script is long enough to hold the height |
| CoinbaseHeight.ShortScriptPasses | src/services/template-provider.service.ts:315-325 | a concrete two-octet script whose sequence number completes the height: the head passes, the finished coinbase fails |
| CoinbaseHeight.OddFlagPasses | src/services/template-provider.service.ts:599-601 | a head with flag 2, which is no transaction, passes the check |
| CoinbaseHeight.OwnHeadPasses | src/services/template-provider.service.ts:315-325 | the head of every pool job passes |
| JobDeclaration.StepKeeps | src/services/sv2-job-declaration.service.ts:252-406 | every handler step keeps all pending, in-flight and declared jobs buildable |
| JobDeclaration.DeclaredJobBuilds | src/services/template-provider.service.ts:514-532 | a declared job's block: coinbase around the extranonce, then its transactions in declared order |
| JobDeclarationAnswers.DeclareSucceedsIff | src/services/sv2-job-declaration.service.ts:252-308 | a declaration succeeds at once exactly when it fits the latest template, that lists every hash, and the token is known, unexpired and satisfied by the coinbase; and what is declared then |
| JobDeclarationAnswers.DeclareAsksIff | src/services/sv2-job-declaration.service.ts:263-281 | it asks for transactions exactly when it fits and the template does not list them all, and for exactly those |
| JobDeclarationAnswers.DeclareErrors | src/services/sv2-job-declaration.service.ts:252-308 | which error is answered when several hold |
| JobDeclarationAnswers.ProvideBegins | src/services/sv2-job-declaration.service.ts:310-326 | provided transactions are fine exactly when they are as many as asked for and each decodes to the hash declared at its position |
| JobDeclarationAnswers.ProvideSucceedsIff | src/services/sv2-job-declaration.service.ts:323-358 | such a declaration succeeds exactly when the transactions are fine, the mempool takes them and the token still allows it |
| JobDeclarationAnswers.PushSubmitsIff | src/services/sv2-job-declaration.service.ts:360-402 | a solution is submitted exactly when it is new and its coinbase decodes to one input that starts with the height; and where each field of the block comes from |
| JobDeclarationAnswers.PushRemembers | src/services/sv2-job-declaration.service.ts:360-402 | solutions are remembered when they are submitted, and only then |
| JobDeclaration.PushNeverStuck | src/services/sv2-job-declaration.service.ts:360-398 | a solution never fails for a missing transaction or template |
| JobDeclaration.PushStays | src/services/sv2-job-declaration.service.ts:360-398 | until the next job is declared or solution submitted, a solution gets the same answer and block, whatever templates come and are evicted meanwhile |
| JobDeclaration.HeightRejectedIff | src/services/sv2-job-declaration.service.ts:396-406 | a solution is refused for its height if and only if the coinbase, marked or not, does not start with it; once the declared head reaches the script, if and only if the script is too short for it |
| JobDeclaration.OddFlagNeverSubmits | src/services/sv2-job-declaration.service.ts:360-406 | no solution to a job declared with another flag than 1 behind a zero marker is ever submitted |
| JobDeclaration.DeclarationNeedsToken | src/services/sv2-job-declaration-registry.service.ts:45-74 | a job is declared only under an unexpired issued token and with that token's outputs, and is then buildable |
| JobDeclaration.RunNeverStuck | src/services/sv2-job-declaration.service.ts:252-406 | over every run, with any interleaving around the mempool wait, declared-transaction-not-found is unreachable |
| JobDeclaration.FreshStartNeverStuck | src/services/sv2-job-declaration.service.ts:252-406 | the same from an empty service |
| JobDeclaration.EachSolutionOnce | src/services/sv2-job-declaration.service.ts:368-402 | no solution is submitted twice on a connection |
| JobDeclarationService.TemplateProvider.Cleanup | src/services/template-provider.service.ts:748-758 | expired templates go, and the latest id with its own template |
| JobDeclarationService.TemplateProvider.UpsertTemplate | src/services/template-provider.service.ts:115-142 | a new template becomes the latest; one that does not decode is not stored |
| JobDeclarationService.TemplateProvider.ValidateDeclaredWtxids | src/services/template-provider.service.ts:154-204 | the error or the positions to ask for, in the order of the checks |
| JobDeclarationService.TokenRegistry.AllocateToken | src/services/sv2-job-declaration-registry.service.ts:32-43 | a fresh token after the sweep |
| JobDeclarationService.TokenRegistry.Declare | src/services/sv2-job-declaration-registry.service.ts:45-74 | token, outputs and registration as specified |
| JobDeclarationService.DeclarationConnection.HandleDeclareMiningJob | src/services/sv2-job-declaration.service.ts:252-308 | one declare step of the state machine |
| JobDeclarationService.DeclarationConnection.BeginProvideMissing | src/services/sv2-job-declaration.service.ts:310-326 | the step up to the mempool wait |
| JobDeclarationService.DeclarationConnection.EndProvideMissing | src/services/sv2-job-declaration.service.ts:327-358 | the step after it, on the declaration captured before |
| JobDeclarationService.DeclarationConnection.HandlePushSolution | src/services/sv2-job-declaration.service.ts:360-402 | one push step: outcome and submitted set |
| JobDeclarationService.BuildBlockFromSolution | src/services/template-provider.service.ts:514-549 | the block or what stands in its way |
| ExtranonceManager.ScanIsFirstFree | src/models/sv2/sv2-extranonce-manager.ts:57-66 | the scan stops at the first free prefix after the last one given, wrapping past 0 |
| ExtranonceManager.RunKeeps | src/models/sv2/sv2-extranonce-manager.ts:45-93 | over every run of allocations and releases the used set is the range of an injective owner map within 1..maxPrefix |
| ExtranonceManager.RefusedIffFull | src/models/sv2/sv2-extranonce-manager.ts:57-70 | allocation fails if and only if the channel has no prefix and as many channels are live as there are prefixes |
| ExtranonceManager.LivePrefixesDiffer | src/models/sv2/sv2-extranonce-manager.ts:100-116 | live channels have different prefix octets |
| ExtranonceManager.AllocateMeans | src/models/sv2/sv2-extranonce-manager.ts:45-79 | a channel keeps its prefix; a new one gets the first free prefix from where the last scan ended, which begins again at 1 |
| ExtranonceManager.Sv2ExtranonceManager.constructor | src/models/sv2/sv2-extranonce-manager.ts:22-31 | range and start for sizes 2 to 4 |
| ExtranonceManager.Sv2ExtranonceManager.FindFree | src/models/sv2/sv2-extranonce-manager.ts:57-66 | the bounded loop is that scan |
| ExtranonceManager.Sv2ExtranonceManager.Allocate | src/models/sv2/sv2-extranonce-manager.ts:45-79 | the new state, the prefix octets, and when it is exhausted |
| ExtranonceManager.Sv2ExtranonceManager.Release | src/models/sv2/sv2-extranonce-manager.ts:84-90 | the prefix returns to the pool, others keep theirs |
| ExtranonceManager.Sv2ExtranonceManager.PrefixToBuffer | src/models/sv2/sv2-extranonce-manager.ts:100-116 | the octet loop writes big-endian |
| SubmissionDedup.IdTextBinds | src/services/stratum-v1-jobs.service.ts:219-224 | different counters give different id texts |
| SubmissionDedup.KeyBinds | src/models/StratumV1Client.ts:727-733 | two submissions without colons in their fields have one key only if all five fields are equal |
| SubmissionDedup.SubmissionsStandAlone | src/models/StratumV1Client.ts:694-746 | a submission for a live job is a duplicate from then on, changes no other submission's answer, and is credited exactly when it is new and meets the target |
| SubmissionDedup.TemplateKeepsRecent | src/services/stratum-v1-jobs.service.ts:154-179 | a clearing template leaves no job or block; any other leaves those of the last five minutes |
| SubmissionDedup.ForgottenIff | src/models/StratumV1Client.ts:507-536 | a remembered key is forgotten exactly by a clearing template that reaches a subscribed client, or by subscribing behind one |
| SubmissionDedup.JobOfKey | src/models/StratumV1Client.ts:727-733 | a key text determines its job id |
| SubmissionDedup.SubmitKeeps | src/models/StratumV1Client.ts:694-746 | an accepted submission's key was never credited before |
| SubmissionDedup.StepKeeps | src/models/StratumV1Client.ts:507-746 | every template, job, expiry and submission keeps the bookkeeping, and so does every subscription that forgets no live credited key |
| SubmissionDedup.NoKeyTwice | src/models/StratumV1Client.ts:507-746 | over every run without such a subscription no key is credited twice |
| SubmissionDedup.SecondCreditIff | src/models/StratumV1Client.ts:507-536 | for every connection about to subscribe, after any run: some continuation credits a key twice if and only if the replayed template clears and a credited share's job is still in the table |
| SubmissionDedup.QuietStartIsSafe | src/models/StratumV1Client.ts:507-536 | no key is credited twice on a connection that submits nothing before its subscription, whatever templates and jobs arrive in between |
| SubmissionDedup.EarlyShareTwice | src/models/StratumV1Client.ts:507-536 | a concrete run from a fresh service in which a share sent before the subscription is credited twice |
| SubmissionDedup.StratumV1Client.BeginInitStratum | src/models/StratumV1Client.ts:507-509 | submissions are accepted from here on |
| SubmissionDedup.StratumV1Client.SubscribeToTemplates | src/models/StratumV1Client.ts:526-531 | the replayed template empties the hashes if it clears |
| SubmissionDedup.StratumV1Jobs.PublishTemplate | src/services/stratum-v1-jobs.service.ts:133-179 | a new block empties both tables; other templates drop what is five minutes old |
| SubmissionDedup.StratumV1Jobs.RegisterJob | src/services/stratum-v1-jobs.service.ts:210-213 | a job under the next id |
| SubmissionDedup.StratumV1Client.HandleMiningSubmission | src/models/StratumV1Client.ts:694-746 | the answer, the remembered key and the credit of one submission |
| ShareText.SameHeaderIff | src/models/StratumV1Client.ts:727-765 | two submissions of one job have the same header if and only if mask, nonce, time and extranonce decode to the same; a third case exhibits a hash collision |
| ShareText.ParseHexIs | src/models/StratumV1Client.ts:727-752 | what the text of a number is worth: spaces, a sign, a prefix, digits by their places, and anything behind them |
| ShareText.CanonicalBinds | src/models/StratumV1Client.ts:727-752 | between texts of fixed width in lower case, decoding to the same means being the same text |
| ShareText.CreditedHeadersDiffer | src/models/StratumV1Client.ts:507-765 | over every run with safe replays, two shares of one job credited from such texts have different headers, short of a collision |
| ShareText.OneHeaderTwice | src/models/StratumV1Client.ts:727-765 | a concrete run in which one header is credited twice, the extranonce in the other case and the nonce with a leading zero |

## Left out

- PayoutResult.Distribute: weights and percentages are exact reals; the double rounding of the original is not modelled.
- PayoutLedger.TakenOnce: creations follow one another; two at once, each of which may find no earlier snapshot, are left out.
- PayoutRules.LeftOutOnlyByWeight: the weight of an output by the type of its address is a parameter.
- PayoutLedger.FinalizationWrites: a history row's percentage, balance before and row type and a balance row's time of the last share, which nothing modelled reads, are left out.
- PayoutLedger.LedgerHoldsOverRuns: assumes no finalisation between a snapshot's creation and its own, since the property is false otherwise (see above).
- PayoutComputation.BuildPayoutDistribution: the share-count and payout-weight columns of an entry, which nothing later reads, are left out.
- ShareRollup.RowsSumUp: the columns of a batch and its rows that hold first and last times and the best submission are left out; difficulties are exact reals.
- RollupRuns.FreshRunIsExact: rows are never deleted from the share table in the model, and the advisory lock is the phase of the one rollup in progress.
- PplnsWindow.WindowIsShares: assumes credited difficulties are not negative.
- ShareQueue.EverythingSettles: time is not modelled; the timer and the database answer whenever they do.
- Sv2Connection.FrameReader.Feed: the handshake is left out; both sides start with one key and a zero counter, and the AEAD is any that opens what it sealed and adds 16 octets.
- Sv2Buffers.BufferWriter.Write: boolean, optional and 32-bit float fields and UTF-8 decoding are left out.
- Sv2Messages.SetCustomMiningJobReadsBack: the other Job Declaration messages are codecs of the same kind.
- DatumChannel.ChannelRoundTrip: libsodium's box is any that opens what it sealed and adds 16 octets; the handshake, which derives the keys and initial nonces, is left out.
- MerklePath.PathYieldsRoot: the branches of a V1 job come from merkle-lib, which is not part of this model; they enter the header theorems as a premise.
- MiningJob.HeadersAgree: parsing a clone of the coinbase is taken to give it back; numbers outside 32 bits, on which both paths throw, are excluded by type; the height's script number is any of at most five octets.
- MiningJob.BuildHeader: a version is its 32-bit two's complement; a JavaScript number of 2^31 or more, which the original refuses to write as a signed word, is not represented.
- CoinbaseOutputs.CreateCoinbaseTransaction: address-to-script conversion is one function; unknown address types, which one side turns into an empty script and the other rejects, are not told apart.
- ShareText.SameHeaderIff: numbers are exact, while parseInt rounds masks of 2^53 and more; a nonce or time outside 32 bits, on which writing the header throws, has no header here.
- DeclaredTransactions.LookupFinds: hashes are octets; the template's hash texts are taken to be well-formed hexadecimal.
- JobDeclaration.RunNeverStuck: one connection with the shared provider and registry; token bytes are supplied by the environment; the mempool's answer is a boolean; saving the block and finalising the snapshot after a submission are not part of this machine.
- JobDeclarationService.DeclarationConnection.HandlePushSolution: submitting the block to the node, saving it and finalising its snapshot are left out; the outcome carries the block.
- WindowPayout.CreditFollowsShares: leaves out the fee's own address, whose entry may carry the fee on top.
- ExtranonceManager.Sv2ExtranonceManager.constructor: prefix sizes other than 2 to 4 are left out; the pool only uses 4.
- SubmissionDedup.NoKeyTwice: Stratum V2 channels are left out; they forget their keys after 10000, so the property does not hold there.
- Difficulty arithmetic, variable difficulty and hash-rate estimates: floating point by design.
- Sockets, TLS, Redis, ZMQ, RPC, HTTP, controllers, notifications, dashboards, summary caches: plumbing and display.
- Template distribution and the DATUM mining commands: codecs of the same kind as those modelled.
