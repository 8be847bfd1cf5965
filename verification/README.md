# OpenHamster, verified

A Dafny model of the parts of OpenHamster whose correctness depends on text, runs or loops, and
proofs of what these parts promise. Code that changes things step by step is a method or a class
here, with the loops and branches of the source, and is proved equal to a function; the theorems
are about those functions, over all inputs or all runs.

`dafny verify dfyconfig.toml` checks everything.

| files | what they model |
|---|---|
| `JsonText`, `JsonRecovery` | recovery of a JSON payload from a language model's reply: cutting a balanced object or array out of chatter, and escaping quotes left raw inside strings, against a printer for RFC 8259 texts |
| `OhlcvCache` | the price cache that extends its range at the head and the tail, and its agreement with the source it speeds up |
| `SettingsLayers`, `SettingsPrecedence` | merging of configuration layers, the map that says which layer each value came from, and which source wins |
| `Governance`, `ProposalTable`, `ProposalLifecycle`, `ProposalOutcomes`, `ProposalPruning`, `ProposalSync`, `ProposalStore`, `Ranking` | the life of a strategy proposal: the governance decision, the batch loop, drawdown pause and rollback, recovery, promotion over a mock, archiving, pruning, and whole synchronisations of them |
| `PaperPool` | which proposals the paper slots hold |
| `PaperLedger`, `PaperLedgerTheorems`, `PaperLedgerOutcomes` | the paper books of a slot: orders, position and net asset value in up to two databases |
| `PipelineStatus` | the stored run status: stage durations and consecutive failures |
| `TradeExtraction`, `Backtester` | accounting identities of the two backtest engines |
| `WalkForward` | month arithmetic and the rolling window loop |
| `StrategyAdapter`, `ChannelBreakout`, `MeanReversion` | bar-by-bar signals against vectorised ones |

## Where a promise does not hold

Some properties one would expect of the code are false. The code is modelled as it is; each time a
lemma gives the failing case and another the exact condition.

- Raw quotes can make the extraction end early, late or never: it is exact if and only if the value's
  own quotes and brackets, read in order, balance (`JsonRecovery.ExtractExact`). It fails for every
  value without escaped quotes and with an odd number of quotes
  (`JsonRecovery.OddQuotesAreNotExtracted`, `JsonRecovery.LoneQuoteIsNotExtracted`).
- The repair escapes inner quotes correctly if and only if no raw quote is followed, after spaces, by
  `,` `}` `]` or `:`; the same condition read the other way is the failing case
  (`JsonRecovery.RepairExact`).
- The source map keeps naming a value that a higher layer has replaced
  (`SettingsLayers.SourceMapCanBeStale`, `SettingsLayers.Provenance`).
- "Mock" is listed among the reasons that block a promotion but is never consulted
  (`Governance.PromotesIffUnblocked`). So a batch of mixed sources can leave two active strategies
  (`ProposalLifecycle.MixedBatchLeavesTwoActive`): there is at most one after a batch if and only if
  the first proposal it promotes is not a mock that a later one, passing its gates and scoring no
  lower, overtakes (`ProposalLifecycle.BatchKeepsOneActiveIff`). The batches the agents return are
  never mixed.
- A pause for drawdown need not last. The next synchronisation brings the paused strategy back if and
  only if it is no refresh, some proposal is still open once those out of scope are archived, the
  strategy is no mock, and it is the one promoted last. Once back, a strategy whose pause is its
  latest decision is shielded from every later drawdown; one whose pause is dated before its latest
  decision, as by the health check that ends the synchronisation promoting it, steps down again at the
  next drawdown that reaches the threshold (`ProposalLifecycle.PauseIsUndoneIff`, with a case where
  it stays paused in `ProposalLifecycle.PauseOutOfScopeStays`).
- A candidate promoted over a mock can lose its place in the same synchronisation: beyond the rollback
  threshold the final health check restores the archived strategy promoted last, which is the mock it
  has just replaced (`ProposalOutcomes.PromotionOverMockRollsBack`).
- A proposal can sit in two paper slots after the configured number of slots was lowered
  (`PaperPool.LoweredCountLeavesTwo`, `PaperPool.NoProposalInTwoSlotsIff`), and only then
  (`PaperPool.GrowingPoolKeepsOnePlace`).
- A purchase that costs all the cash or more is booked anyway, and a stored cash of zero is read back
  as the initial capital (`PaperLedgerTheorems.BooksStayTrueIffFunded`,
  `PaperLedgerTheorems.UnaffordableLotCreatesCash`). When that happens is
  `PaperLedgerTheorems.PurchaseIsFundedIff`; after a fall in price it can with a position held
  (`PaperLedgerTheorems.FallenPriceIsNotFunded`, on a run of three cycles in
  `PaperLedgerTheorems.FallenPriceIsReached`). A bootstrap trade or a second snapshot on a slot
  that has traded resets its cash (`PaperLedgerTheorems.BootstrapKeepsTrueIff`,
  `PaperLedgerTheorems.SecondSnapshotKeepsTrueIff`).
- A synchronisation that finds a run open carries that run's time into its stage durations. The first
  one on a fresh database always finds the start-up stage open
  (`PipelineStatus.FirstSyncCountsStartup`, `PipelineStatus.StageDurationsAreExactIff`).
- A synchronisation that raises after its success write restarts the count of consecutive failures
  at one (`PipelineStatus.LateRaiseRestartsCount`, `PipelineStatus.FailuresAreTrailingIff`).
- Walk-forward test periods can overlap although the step equals the test length, from a start day
  beyond the 28th (`WalkForward.MonthEndTestsOverlap`, `WalkForward.RecordedOverlapIff`).
- The ATR stop is set from the close it is compared with, so with sensible parameters it never fires
  (`ChannelBreakout.StopNeverFires`, `ChannelBreakout.StopsChangeIffInverted`).
- The backtester's cash can go negative with a commission rate above one
  (`Backtester.CashNeverNegativeIff`).
- Signal crossovers count twice the closed trades (plus one if a position is open) only for a
  long-only series that starts flat (`TradeExtraction.LongOnlyCrossoversIffStartsFlat`).

## Model

| member | source | states |
|---|---|---|
| JsonRecovery.ExtractBalancedJson | src/openhamster/llm.py:127-165 | the two loops return the piece from the first bracket to the one that balances it, or nothing |
| JsonRecovery.FindOpener | src/openhamster/llm.py:131-141 | the first loop stops at the first `{` or `[` |
| JsonRecovery.ScanBalanced | src/openhamster/llm.py:143-165 | the second loop, with its depth, string and escape flags, cuts the balanced piece |
| JsonRecovery.ExtractExact | src/openhamster/llm.py:127-165 | for every printed object or array, raw quotes included, any prefix without an opening bracket and any suffix: extraction returns exactly its print if and only if the value's own quotes, escaped quotes and brackets, read in order from its first bracket, never close it early and leave it open, outside of strings, before its last |
| JsonRecovery.PairedBalances | src/openhamster/llm.py:143-165 | nested values, brackets in strings, escapes and raw-quoted words of plain text balance |
| JsonRecovery.OddQuotesAreNotExtracted | src/openhamster/llm.py:143-165 | a value without escaped quotes and with an odd number of quotes is never extracted exactly |
| JsonRecovery.LoneQuoteIsNotExtracted | src/openhamster/llm.py:143-165 | such a value: the array of the string that is one raw quote |
| JsonRecovery.ExtractValid | src/openhamster/llm.py:127-165 | the same for every valid JSON object or array |
| JsonRecovery.ExtractIdempotent | src/openhamster/llm.py:127-165 | for every text: what is extracted starts at the text's first bracket, and extracting from it gives it back |
| JsonRecovery.NothingToExtract | src/openhamster/llm.py:131-141 | nothing is extracted from a text without `{` and `[` |
| JsonRecovery.NextSignificantChar | src/openhamster/llm.py:216-220 | the first character from a position on that is not a space |
| JsonRecovery.SpacesAre | src/openhamster/llm.py:216-220 | the 29 characters that count as spaces |
| JsonRecovery.SafeBodyIffScanned | src/openhamster/llm.py:199-206 | the scanner leaves no quote of a string body raw by mistake exactly when, for every raw quote, the first later unit that is not a plain space is not a plain `,` `}` `]` or `:` |
| JsonRecovery.RepairUnescapedInnerQuotes | src/openhamster/llm.py:168-213 | the scanner loop computes the repaired text |
| JsonRecovery.RepairExact | src/openhamster/llm.py:168-213 | a value printed with raw inner quotes is repaired to its correctly escaped print if and only if no raw quote is followed, after spaces, by a delimiter |
| JsonRecovery.RepairKeepsValidJson | src/openhamster/llm.py:168-213 | every valid JSON text, with any whitespace, is left unchanged |
| JsonRecovery.RepairIdempotent | src/openhamster/llm.py:168-213 | repairing any text twice is repairing it once |
| JsonRecovery.RepairOnlyEscapesQuotes | src/openhamster/llm.py:168-213 | on any text the output differs only by backslashes inserted before quotes |
| JsonRecovery.RecoverExact | src/openhamster/llm.py:105-109 | extraction then repair brings an object or array back out of chatter, correctly escaped, if and only if its quotes and brackets balance and no raw quote is followed by a delimiter |
| OhlcvCache.Cache.GetRange | src/openhamster/data/cache.py:52-68 | a date is in the result exactly when it is cached for the symbol and lies within the range, both ends included, and its bar is the cached one |
| OhlcvCache.Cache.GetDateBounds | src/openhamster/data/cache.py:86-100 | the least and greatest cached date, or nothing |
| OhlcvCache.Cache.Upsert | src/openhamster/data/cache.py:102-134 | new rows are added and replace those of the same date; other symbols are untouched |
| OhlcvCache.Cache.FetchOrLoad | src/openhamster/data/cache.py:136-190 | the branches on the bounds leave exactly the rows of the specification and return its slice; other symbols are untouched |
| OhlcvCache.FetchKeepsFaithful | src/openhamster/data/cache.py:136-190 | a request, loads failing or not, keeps the cached rows equal to the source's rows between the cached bounds, and loses none |
| OhlcvCache.CacheAgreesWithSource | src/openhamster/data/cache.py:136-190 | the same after any sequence of requests on a fresh cache: no holes, no wrong rows |
| OhlcvCache.FetchReturnsAllButToleratedGap | src/openhamster/data/cache.py:136-190 | when loads succeed a request returns exactly the source rows of its range outside a tolerated gap |
| OhlcvCache.AtMostThreeDaysMissing | src/openhamster/data/cache.py:143-190 | at most three calendar days are missing at the head and three at the tail |
| OhlcvCache.NoCachedDateIsReloaded | src/openhamster/data/cache.py:164-189 | the loader is only asked about dates outside the cached bounds |
| OhlcvCache.RequestLoads | src/openhamster/data/cache.py:143-189 | date by date: a request on an empty cache loads its whole range, any other the missing head and the missing tail, each only if it is longer than three days |
| SettingsLayers.DeepMerge | src/openhamster/config/settings.py:217-225 | the recursive loop computes the merge |
| SettingsLayers.MergeLeaf | src/openhamster/config/settings.py:217-225 | a path's value after a merge: the override's if it has one, gone if the override speaks about the path otherwise, else the base's |
| SettingsLayers.FlattenIsLeaves | src/openhamster/config/settings.py:228-236 | the flattened keys are the dotted names of the leaves and no others |
| SettingsLayers.SetPathIsMerge | src/openhamster/config/settings.py:239-246 | setting a dotted path is merging a layer with one value |
| SettingsLayers.LoadAppSettings | src/openhamster/config/settings.py:268-303 | defaults, base file, local file, environment files and environment give the merge of their layers in this order, and its source map |
| SettingsLayers.LoadTrees | src/openhamster/config/settings.py:272-286 | the three trees and their source map |
| SettingsLayers.OverlayFile | src/openhamster/config/settings.py:288-296 | the loop over the environment files adds one layer for each mapped variable |
| SettingsLayers.OverlayEnvironment | src/openhamster/config/settings.py:298-303 | the loop over the environment adds one layer for each variable that is set |
| SettingsLayers.MergedLeaves | src/openhamster/config/settings.py:217-225 | a path has a merged value exactly when a layer defines it and no higher one speaks about it, and it is that layer's value |
| SettingsLayers.SourceMapNamesHighest | src/openhamster/config/settings.py:273-303 | the source map names the highest layer defining a path |
| SettingsLayers.Provenance | src/openhamster/config/settings.py:268-303 | every merged value equals the value in the layer the source map names, which is the highest one defining the path; and which entries of the source map still have a value |
| SettingsLayers.SourceMapCanBeStale | src/openhamster/config/settings.py:273-283 | a layer that replaces a dictionary by a value leaves stale entries in the source map |
| SettingsPrecedence.EnvironmentComesFirst | src/openhamster/config/settings.py:298-303 | with paths that do not lead through each other: a variable set in the process environment gives its value at its path, whatever the files and trees hold, and is named `env` |
| SettingsPrecedence.FilesComeSecond | src/openhamster/config/settings.py:288-296 | otherwise the last pair of the environment files with its name does, named `env_file` |
| SettingsPrecedence.TreesComeLast | src/openhamster/config/settings.py:272-286 | a path apart from those of all set variables has its value from the local, the base or the default tree, in that order, and the source map names that tree |
| SettingsPrecedence.DottedJoins | src/openhamster/config/settings.py:231 | the names of the source map are the keys of the path joined by dots |
| Governance.MarketProfile | src/openhamster/market_profile.py:41-105 | the numbers of the two profiles, the Hong Kong ones for any other market; thresholds are ordered and the cooldown is four or five days |
| Governance.CooldownCountsDown | src/openhamster/api/services.py:4176-4182 | the cooldown starts at its full length and loses one day with every calendar day, down to zero |
| Governance.PromotesIffUnblocked | src/openhamster/api/services.py:4225-4349 | a proposal is promoted exactly when its bottom line passed and its promotion list holds nothing but, possibly, the mock reason |
| Governance.RealProposalPromotesIffUnblocked | src/openhamster/api/services.py:4225-4349 | a proposal that is no mock and whose bottom line passed is promoted exactly when the list is empty |
| Governance.CandidateIffSoftlyBlocked | src/openhamster/api/services.py:4326-4339 | a proposal may stay a candidate exactly when its candidate list holds at most the two soft knowledge reasons |
| Governance.ScoreIsMonotone | src/openhamster/api/services.py:4225-4349 | raising the score, all else fixed, never moves the action down the order reject, keep, promote |
| Governance.SecondPromotionIff | src/openhamster/api/services.py:4250-4324 | right after a promotion another proposal is promoted exactly when it passes its gates and replaces a mock, itself not one, that it scores no lower than |
| Governance.KnowledgeReasonsListed | src/openhamster/api/services.py:4291-4298 | a knowledge reason is in both lists exactly when the assessment gives it |
| Governance.PromotedIff | src/openhamster/api/services.py:4250-4324 | a proposal becomes active exactly when it passes its gates and there is no active strategy, or it beats it by the margin after the cooldown, or it is no mock and scores no lower than an active mock |
| Governance.CandidateIff | src/openhamster/api/services.py:4326-4349 | one that is not promoted stays a candidate exactly when its bottom line passed or its backtest failed softly, it reaches the lower threshold, is no mock, and knowledge holds at most the two soft reasons against it; all others are rejected |
| Governance.StandingReasonsAre | src/openhamster/api/services.py:4269-4283 | when each of the reasons from scores, cooldown and macro status is listed |
| Governance.PromotionReasonsAre | src/openhamster/api/services.py:4284-4298 | when each of the other promotion reasons is |
| Governance.BacktestReasonsAre | src/openhamster/api/services.py:4284-4290 | a failed backtest lists its own reasons in order, or one in their place |
| Governance.CandidateReasonsAre | src/openhamster/api/services.py:4269-4276 | when each of the candidate reasons is listed |
| Governance.NothingListedIff | src/openhamster/api/services.py:4268-4298 | nothing is listed against a promotion exactly when the proposal is no mock and, its bottom line apart, would be promoted |
| Governance.PhaseIs | src/openhamster/api/services.py:4341-4358 | the lifecycle phase each decision leaves |
| ProposalTable.UniqueActive | src/openhamster/api/services.py:7183-7194 | when at most one proposal is active the query finds that one |
| ProposalOutcomes.ActiveIsPromotedLast | src/openhamster/api/services.py:7183-7194 | whatever the table holds, the strategy taken as active is the active row promoted last |
| ProposalTable.ArchivingKeepsInvariant | src/openhamster/api/services.py:6254-6302 | archiving keeps at most one active, and leaves the active one alone if it does not qualify |
| ProposalStore.Store.ArchiveMatching | src/openhamster/api/services.py:6254-6302 | the archive loop archives exactly the rows that qualify |
| ProposalStore.Store.RecoverActiveStrategy | src/openhamster/api/services.py:7370-7401 | the non-mock proposal promoted last becomes active again, if there is one |
| ProposalOutcomes.RecoveryTakesPromotedLast | src/openhamster/api/services.py:7370-7401 | recovery makes active again the non-mock row promoted last, then created last, keeps its time of promotion, and touches no other row |
| ProposalOutcomes.NothingToRecoverIff | src/openhamster/api/services.py:7370-7381 | it finds nothing exactly when no row but a mock has been promoted |
| ProposalStore.Store.EvaluateActiveStrategyHealth | src/openhamster/api/services.py:5764-5889 | pause or rollback of the active strategy by its drawdown, with the decision recorded |
| ProposalOutcomes.RollbackRestoresStable | src/openhamster/api/services.py:5803-5864 | from the rollback threshold on, with some archived row promoted before: exactly one row is active after the check, the one of these promoted last, as promoted now; the old active row is a candidate with the rollback as its latest decision unless that is dated earlier; every other row is unchanged |
| ProposalOutcomes.PauseStepsDown | src/openhamster/api/services.py:5797-5889 | from the pause threshold on, otherwise: the active row steps down with a pause, and no other row changes |
| ProposalOutcomes.HealthyStays | src/openhamster/api/services.py:5797-5801 | below it, or after a pause or rollback, nothing changes |
| ProposalStore.Store.PromoteExistingOverMock | src/openhamster/api/services.py:5909-5998 | the best ready candidate replaces a mock active strategy, which is archived |
| ProposalOutcomes.BestReadyTakesOver | src/openhamster/api/services.py:5909-5998 | if any real, ready candidate of its symbol and market reaches the threshold and its score, the best of them takes the place of an active strategy that did not come from the real model, which is archived; both rows field by field, every other unchanged |
| ProposalOutcomes.NobodyTakesOver | src/openhamster/api/services.py:5915-5937 | otherwise nothing changes |
| ProposalStore.Store.MaterializeProposals | src/openhamster/api/services.py:6002-6241 | the batch loop with its running context adds the decided rows and archives the strategy replaced |
| ProposalOutcomes.BlueprintGivesRow | src/openhamster/api/services.py:6022-6140 | every blueprint gives the row its decision asks for, field by field, judged against the previous strategy or the one promoted before it in the batch |
| ProposalOutcomes.BatchArchivesPrevious | src/openhamster/api/services.py:6218-6239 | the previous strategy is archived exactly when some blueprint may take its place; no other old row changes |
| ProposalOutcomes.LastBatchSeesTheOthers | src/openhamster/api/services.py:6616-6647 | the symbols are researched in order, each against the strategy that the ones before it leave active |
| ProposalStore.Store.ArchiveAgedCandidates | src/openhamster/api/services.py:6360-6370 | aged candidates are archived, the others listed in row order |
| ProposalStore.Store.ArchiveOverflow | src/openhamster/api/services.py:6372-6382 | exactly the unprotected rows behind the limit are archived |
| ProposalStore.Store.PruneStrategyProposals | src/openhamster/api/services.py:6317-6400 | the three loops and the sort archive exactly the rows the specification says |
| ProposalPruning.PrunesExactly | src/openhamster/api/services.py:6317-6400 | row by row: pruning archives exactly the rejected rows older than the retention, and of the unprotected candidates of the scope those too old and those with the limit of kept candidates in front by score, age and place |
| ProposalStore.Store.SettleActive | src/openhamster/api/services.py:6535-6565 | refresh, recovery or health check settle the active strategy before research |
| ProposalOutcomes.OutOfScopeIsArchived | src/openhamster/api/services.py:6522-6528 | candidates and rejected rows of another symbol or market than the active strategy, or the first symbol, are archived and nothing else |
| ProposalOutcomes.RefreshArchivesTheRest | src/openhamster/api/services.py:6535-6539 | a refresh archives every row but the active one |
| ProposalOutcomes.NoActiveIsRecovered | src/openhamster/api/services.py:6540-6545 | without an active strategy, once a row is open: recovery, or else every row archived |
| ProposalOutcomes.ActiveIsChecked | src/openhamster/api/services.py:6546-6565 | an active strategy is checked against its drawdown before the research |
| ProposalStore.Store.SyncAgentState | src/openhamster/api/services.py:6403-6803 | the database steps of a synchronisation, in its order |
| ProposalSync.SyncAddsRows | src/openhamster/api/services.py:6616-6647 | a completed synchronisation adds one row for every blueprint and removes none |
| ProposalSync.SyncActsOnDrawdown | src/openhamster/api/services.py:6803 | the strategy it leaves active shows a drawdown below the pause threshold, or a pause or rollback as its latest decision, or was restored just now |
| ProposalSync.SyncLeavesNobodyReady | src/openhamster/api/services.py:6742-6749 | while that drawdown is below the threshold no ready candidate outscores the strategy left active, unless it came from the real model |
| ProposalSync.SyncRespectsLimit | src/openhamster/api/services.py:6736-6741 | at most the retention limit of unprotected candidates of the pruned symbol is left, and one more only if the last drawdown reaches the pause threshold |
| ProposalSync.SyncRetainsNoOldRejected | src/openhamster/api/services.py:6329-6343 | no rejected row outlives its retention |
| ProposalOutcomes.PromotionOverMockRollsBack | src/openhamster/api/services.py:6742-6803 | a candidate promoted over a mock by a synchronisation that ends beyond the rollback threshold is rolled back to the mock at once |
| ProposalLifecycle.BatchPromotesExactly | src/openhamster/api/services.py:6002-6241 | a batch, of whatever sources, promotes the first blueprint governance promotes, a second one only to overtake a mock, and never a third |
| ProposalLifecycle.BatchKeepsOneActiveIff | src/openhamster/api/services.py:6002-6241 | for every table with at most one active strategy and every batch: there is at most one afterwards if and only if no mock promoted first is overtaken |
| ProposalLifecycle.MaterializeKeepsInvariant | src/openhamster/api/services.py:6002-6241 | a batch of one source kind keeps at most one active |
| ProposalLifecycle.HealthKeepsInvariant | src/openhamster/api/services.py:5764-5905 | pause and rollback keep at most one active |
| ProposalLifecycle.PromoteOverMockKeepsInvariant | src/openhamster/api/services.py:5909-5998 | so does the promotion over a mock |
| ProposalLifecycle.SettledKeepsInvariant | src/openhamster/api/services.py:6535-6565 | so does settling, and the strategy it names is the active one |
| ProposalLifecycle.MixedBatchLeavesTwoActive | src/openhamster/api/services.py:6218-6239 | a batch with a mock followed by a better proposal of another source would leave two active strategies |
| ProposalLifecycle.PauseIsUndoneIff | src/openhamster/api/services.py:5797-5848 | the next synchronisation brings a paused strategy back if and only if it is no refresh, something is still open in its scope, the strategy is no mock and the one promoted last; once back, a health check leaves it alone if and only if its pause is not dated before its latest decision or the drawdown is below the threshold |
| ProposalLifecycle.HealthTouchesIff | src/openhamster/api/services.py:5797-5801 | a health check changes nothing exactly when the latest decision already is a pause or rollback, or the drawdown is below the pause threshold |
| ProposalLifecycle.PauseOutOfScopeStays | src/openhamster/api/services.py:6522-6545 | a lone paused strategy out of the next scope is archived, not recovered |
| ProposalPruning.PruneKeepsProtected | src/openhamster/api/services.py:6357-6382 | candidates in a protected phase and active strategies are never archived |
| ProposalPruning.PruneRespectsLimit | src/openhamster/api/services.py:6372-6382 | at most the retention limit of unprotected candidates is left |
| ProposalPruning.OverflowRanksBelowKept | src/openhamster/api/services.py:6372-6382 | a candidate archived for overflow is sorted behind every one of the top, all of which are kept |
| ProposalPruning.PruneIsIdempotent | src/openhamster/api/services.py:6317-6400 | pruning again at the same time archives nothing |
| ProposalPruning.PruneKeepsInvariant | src/openhamster/api/services.py:6317-6400 | pruning keeps at most one active, and the same one |
| ProposalPruning.OverflowIsTail | src/openhamster/api/services.py:6372-6382 | the rows that overflow are the unprotected ones behind the limit in the sorted list |
| ProposalSync.SyncKeepsInvariant | src/openhamster/api/services.py:6403-6803 | a completed synchronisation keeps at most one active, which has been promoted |
| ProposalSync.NeverTwoActive | src/openhamster/api/services.py:6403-6803 | after any run of completed synchronisations from an empty table at most one proposal is active, and it has a promotion time |
| Ranking.SortSorts | src/openhamster/api/services.py:6372 | the stable descending sort lists every row once, in order |
| Ranking.PositionIsRank | src/openhamster/api/services.py:6372-6374 | a row's place in the sorted list is the number of rows sorted in front of it |
| PaperPool.Pool.ListPaperSlots | src/openhamster/api/services.py:7216-7242 | missing slots are created, existing ones left alone |
| PaperPool.Pool.AssignPaperPoolSlots | src/openhamster/api/services.py:7245-7284 | every field of every slot after an assignment |
| PaperPool.OccupantOf | src/openhamster/api/services.py:7251-7260 | who sits in a slot depends only on the proposals; the primary slot holds the active one |
| PaperPool.SlotHoldsKthBest | src/openhamster/api/services.py:7262-7282 | candidate slot k holds exactly the k-th best eligible proposal by the sort key |
| PaperPool.SlotGoesTo | src/openhamster/api/services.py:7113-7137 | the same in the fields of the rows: slot k holds row i exactly when the row is open, no mock, not the active one, admitted by its backtest and listed against by nothing, and k - 1 such rows go first by replaceability, score, age and place |
| PaperPool.AssignedSlotRecords | src/openhamster/api/services.py:7252-7282 | kind, status, rank, reason and times of a configured slot after an assignment; the time of assignment is that of the first proposal it ever held |
| PaperPool.SlotsBeyondStay | src/openhamster/api/services.py:7245-7284 | slots beyond the configured count are neither added nor changed |
| PaperPool.SeededSlotRecords | src/openhamster/api/services.py:7222-7238 | a slot added when the pool is listed is idle but for the primary one with an active strategy |
| PaperPool.NoProposalInTwoSlotsIff | src/openhamster/api/services.py:7245-7284 | after an assignment no two slots hold the same proposal if and only if no slot beyond the configured count holds one that a configured slot gets, and no two slots beyond it hold the same |
| PaperPool.OccupantsDiffer | src/openhamster/api/services.py:7262-7282 | among the configured slots no proposal sits in two |
| PaperPool.LoweredCountLeavesTwo | src/openhamster/api/services.py:7216-7284 | after the count is lowered from two to one, the slot that fell away and the primary slot both hold the strategy promoted since |
| PaperPool.GrowingPoolKeepsOnePlace | src/openhamster/api/services.py:7216-7284 | over any run of assignments from an empty pool whose count never falls, no proposal sits in two slots |
| PaperPool.OccupiedSlotsFormPrefix | src/openhamster/api/services.py:7266-7282 | the occupied candidate slots come first |
| PaperPool.LeftOutRanksBehind | src/openhamster/api/services.py:7262-7267 | an eligible proposal left out is sorted behind every one in a slot |
| PaperLedger.LatestBuy | src/openhamster/api/services.py:2289-2296 | the latest purchase among the newest orders, or none there |
| PaperLedgerOutcomes.FirstFilledIsRead | src/openhamster/api/services.py:1506-1560 | orders, rows and position are each read from the first database that has any |
| PaperLedgerOutcomes.LatestRowIs | src/openhamster/api/services.py:1513-1524 | the latest row is that of the greatest day, of those the one written last |
| PaperLedger.SlotLedger.InitializeSnapshot | src/openhamster/api/services.py:1822-1879 | the first call writes the initial row to every database, later ones nothing |
| PaperLedgerOutcomes.SnapshotWrites | src/openhamster/api/services.py:1822-1879 | what the first call appends to every database, and that later calls and all other columns change nothing |
| PaperLedger.SlotLedger.AppendNavRows | src/openhamster/api/services.py:1912-1947 | every database gets the row unless it repeats its latest one |
| PaperLedger.SlotLedger.WriteTrade | src/openhamster/api/services.py:2410-2442 | every database gets the order, the new position and the row |
| PaperLedger.SlotLedger.ChooseTarget | src/openhamster/api/services.py:2280-2303 | the target quantity after the holding-period guard |
| PaperLedgerOutcomes.SellSellsEverything | src/openhamster/api/services.py:2166-2168 | in an open cycle on well-kept books SELL, or a price of zero or less, leaves no share, one sale of the whole position and the closing row it implies in every database, unless the latest purchase among the newest 200 orders is within the holding period; then nothing is sold |
| PaperLedgerOutcomes.SellLeavesNothing | src/openhamster/api/services.py:2166-2168 | with every purchase past the holding period no share is left to read |
| PaperLedgerOutcomes.HoldOrdersNothing | src/openhamster/api/services.py:2169-2171 | HOLD orders nothing and revalues the position |
| PaperLedgerOutcomes.BuyTakesMostLots | src/openhamster/api/services.py:2173-2180 | BUY takes the position to one lot, or to the most lots that cost at most the fraction of the equity read, held between 5 and 50 percent; only a sale this asks for can be held back |
| PaperLedger.SlotLedger.TradePosition | src/openhamster/api/services.py:2376-2442 | the open-market cycle |
| PaperLedger.SlotLedger.MarkPosition | src/openhamster/api/services.py:2305-2374 | the closed-market cycle |
| PaperLedgerOutcomes.ClosedMarketOnlyMarks | src/openhamster/api/services.py:2305-2374 | with the market closed no order and no position changes, and which row is written |
| PaperLedgerOutcomes.NoPriceWritesNothing | src/openhamster/api/services.py:2247-2264 | without a price nothing is written to the books |
| PaperLedger.SlotLedger.ExecuteCycle | src/openhamster/api/services.py:2229-2442 | a whole cycle: snapshot, missing prices, reading back, open or closed market |
| PaperLedger.SlotLedger.BootstrapTrade | src/openhamster/api/services.py:2582-2627 | the bootstrap trade from the initial capital |
| PaperLedgerOutcomes.BootstrapBuysMostLots | src/openhamster/api/services.py:2582-2627 | the bootstrap trade buys the lots of the initial capital, whatever the books hold; every row it writes |
| PaperLedgerTheorems.SnapshotOpensBooks | src/openhamster/api/services.py:1834-1851 | the snapshot opens true books in every database |
| PaperLedgerTheorems.RunKeepsStoresEqual | src/openhamster/api/services.py:2229-2442 | over any run of cycles both databases hold the same rows in order of time |
| PaperLedgerTheorems.TargetIsLots | src/openhamster/api/services.py:2157-2180 | the target is a non-negative whole number of lots |
| PaperLedgerTheorems.CycleKeepsTrueIffFunded | src/openhamster/api/services.py:2376-2442 | a cycle keeps the books true, the stored cash positive included, if and only if what it buys costs less than the cash held |
| PaperLedgerTheorems.BooksStayTrueIffFunded | src/openhamster/api/services.py:2229-2442 | over any run of open, closed and priceless cycles: replaying the orders gives the stored cash and quantity, the stored cash stays positive, equity is cash plus quantity times the last price, and quantity is whole lots, after every cycle, if and only if every purchase cost less than the cash held |
| PaperLedgerTheorems.PurchaseIsFundedIff | src/openhamster/api/services.py:2173-2180 | a purchase is funded exactly when the lots sized from the equity at the last price cost, at the new price, less than cash and shares are worth at the new price |
| PaperLedgerTheorems.FlatPurchaseIsFundedIffLotAffordable | src/openhamster/api/services.py:2173-2180 | without a position: exactly when one lot costs less than the cash |
| PaperLedgerTheorems.RisenPriceIsFunded | src/openhamster/api/services.py:2173-2180 | with a position: always while the price is not below the last one |
| PaperLedgerTheorems.FallenPriceIsNotFunded | src/openhamster/api/services.py:2173-2180 | a position and a fall in price for which the purchase costs five times the cash |
| PaperLedgerTheorems.FallenPriceIsReached | src/openhamster/api/services.py:2229-2442 | a run that reaches it from the snapshot: buy, hold at a higher price, buy again after the fall |
| PaperLedgerTheorems.UnaffordableLotCreatesCash | src/openhamster/api/services.py:2383 | a lot dearer than the cash is booked, and the next cycle reads the initial capital as cash |
| PaperLedgerTheorems.BootstrapKeepsTrueIff | src/openhamster/api/services.py:2585-2623 | a bootstrap trade keeps the books true exactly on an untouched slot that can afford it |
| PaperLedgerTheorems.SecondSnapshotKeepsTrueIff | src/openhamster/api/services.py:1831-1847 | a second proposal's snapshot keeps the books true exactly when the first left them as at the start |
| PaperLedgerTheorems.UnseenPurchaseIsOld | src/openhamster/api/services.py:2289-2303 | a purchase older than all orders searched is already past the holding period |
| PaperLedgerTheorems.HoldingPeriodRespected | src/openhamster/api/services.py:2287-2303 | over any run with a clock that does not go back, no sale is recorded less than the holding period after the latest earlier purchase |
| PipelineStatus.StatusStore.SetStatus | src/openhamster/api/services.py:862-940 | the fields of the stored status after a write |
| PipelineStatus.StatusStore.SetStage | src/openhamster/api/services.py:943-962 | a stage write |
| PipelineStatus.StatusStore.EnsureBaseline | src/openhamster/api/services.py:831-859 | the start-up stage is written when nothing is stored, and nothing otherwise |
| PipelineStatus.StatusStore.Sync | src/openhamster/api/services.py:6408-6871 | the status writes of one synchronisation, for each way it can end |
| PipelineStatus.SyncRecords | src/openhamster/api/services.py:6806-6871 | for each way a synchronisation ends: state, times of last run, success and failure, failure count, duration in whole milliseconds and degradation it leaves |
| PipelineStatus.UnderwayRecords | src/openhamster/api/services.py:6408-6430 | while it runs: the stage and time of its last write; what earlier synchronisations left stays |
| PipelineStatus.StageWriteRecords | src/openhamster/api/services.py:887-905 | a stage write charges the time since the stored stage began to that stage and to no other |
| PipelineStatus.ClosingCredits | src/openhamster/api/services.py:896-898 | the first closing write charges the last stage likewise |
| PipelineStatus.OpeningRecords | src/openhamster/api/services.py:882-883 | a write that opens a run clears the durations of the last one |
| PipelineStatus.BaselineIsWrittenOnce | src/openhamster/api/services.py:831-859 | the start-up stage is written exactly when nothing has been written before |
| PipelineStatus.RunningWriteAccounts | src/openhamster/api/services.py:887-905 | a write while running, for any stage name and clock, keeps the account of the run's time up to exactly the time it drops |
| PipelineStatus.StageDurationsAddUp | src/openhamster/api/services.py:882-905 | while a synchronisation runs, whatever status it found and stages re-entered or not, the durations sum to stage start minus run start plus the time carried in, short of less than a millisecond for each stage write and of nothing on a clock of whole milliseconds |
| PipelineStatus.StageDurationsAreExactIff | src/openhamster/api/services.py:882-905 | on such a clock they sum to stage start minus run start exactly when no run was open, or one with nothing recorded whose stage began at the same instant |
| PipelineStatus.FirstSyncCountsStartup | src/openhamster/api/services.py:831-905 | the first synchronisation on a fresh database counts the time since start-up |
| PipelineStatus.ClosingAddsLastStage | src/openhamster/api/services.py:896-898 | the closing write adds the time since the stage began, never less than zero, and nothing when dated before a millisecond has passed |
| PipelineStatus.KilledRunCarriesOver | src/openhamster/api/services.py:882-895 | a synchronisation after a killed one continues its account |
| PipelineStatus.FailuresAreTrailingIff | src/openhamster/api/services.py:6857-6871 | from any status without failures, the stored count is the number of failed synchronisations since the last that succeeded, exactly when none of them raised after its success write with an earlier failure among them |
| PipelineStatus.LateRaiseRestartsCount | src/openhamster/api/services.py:6806-6871 | a synchronisation that raises after its success write leaves the count at one |
| TradeExtraction.ExtractTrades | src/openhamster/backtest/backtest_engine.py:538-574 | the loop extracts the trades of the specification |
| TradeExtraction.TradesAreStretches | src/openhamster/backtest/backtest_engine.py:538-574 | the trades are exactly the maximal stretches of equal signals, flat ones aside, that are over at some bar, each once and in order, entered and left at the closes of its first bar and of the bar after it |
| TradeExtraction.TradesExplainPnl | src/openhamster/backtest/backtest_engine.py:466-573 | the profits of the trades plus the mark of an open position equal the sum over bars of previous signal times price change |
| TradeExtraction.CrossoversCountTrades | src/openhamster/backtest/backtest_engine.py:124-135 | for every series of -1, 0 and 1: crossovers, flips and an initial position against closed and open trades |
| TradeExtraction.LongOnlyCrossoversIffStartsFlat | src/openhamster/backtest/backtest_engine.py:124-135 | for 0/1 signals crossovers are twice the closed trades plus one if still open, exactly when the series starts at 0 |
| Backtester.Engine.ExecuteTrade | src/openhamster/backtest/backtester.py:189-232 | the new cash, position and trade list after a signal |
| Backtester.BuySpendsTheCash | src/openhamster/backtest/backtester.py:201-217 | a BUY without a position buys the most whole shares the cash pays for, commission included, if any |
| Backtester.SellClosesThePosition | src/openhamster/backtest/backtester.py:219-232 | a SELL sells the whole position; nothing else does anything |
| Backtester.Engine.Run | src/openhamster/backtest/backtester.py:91-159 | the state after the last bar and the equity curve |
| Backtester.EquityCurveAt | src/openhamster/backtest/backtester.py:151-159 | the curve at a bar is cash plus shares at that bar's price, after its trade |
| Backtester.CashNeverNegativeIff | src/openhamster/backtest/backtester.py:206-223 | cash and position stay non-negative on every price and signal series exactly when the commission rate is at most one or there is no capital |
| Backtester.TradesAlternate | src/openhamster/backtest/backtester.py:201-232 | trades strictly alternate, and every sell closes the whole buy before it |
| Backtester.EquityIsExplained | src/openhamster/backtest/backtester.py:97-159 | final equity is initial capital plus held shares times price changes minus commission on every trade |
| WalkForward.AddMonthsIsExact | src/openhamster/backtest/walk_forward.py:198-204 | month addition gives a valid date, exactly that many months on, with the day cut to the month's length |
| WalkForward.AddMonthsIsAdditiveIff | src/openhamster/backtest/walk_forward.py:198-204 | adding in two steps is adding at once exactly when the month passed through does not cut the day further |
| WalkForward.Run | src/openhamster/backtest/walk_forward.py:91-165 | the loop ends, and records the windows of the specification |
| WalkForward.WalkGoesOn | src/openhamster/backtest/walk_forward.py:91-165 | the first window whose test runs past the end ends the walk; a window without parameters moves it to the start of its test period, any other a step on; only windows that succeed are recorded |
| WalkForward.MonthLengths | src/openhamster/backtest/walk_forward.py:198-204 | the lengths of the months |
| WalkForward.WindowsAreOrdered | src/openhamster/backtest/walk_forward.py:91-98 | every window has training start before training end, which is the test start, before test end, not after the end |
| WalkForward.SteadyWalk | src/openhamster/backtest/walk_forward.py:91-161 | from a start day of at most 28 and with searches that succeed, window k starts k steps on, and the first window that does not fit ends the run |
| WalkForward.RecordedOverlapIff | src/openhamster/backtest/walk_forward.py:91-165 | when the step covers the test, two recorded test periods overlap exactly when one window directly follows the other, step equals test, and the step lands in a month too short for the day |
| WalkForward.EarlyDaysNeverOverlap | src/openhamster/backtest/walk_forward.py:91-165 | from a start day of at most 28 they never overlap |
| WalkForward.RecordedPairOverlapsIff | src/openhamster/backtest/walk_forward.py:91-165 | for any train, test and step length and any outcomes, two recorded test periods overlap exactly when the windows start less than the test length apart, or exactly that with the later start day too short |
| WalkForward.StepOverlapsIff | src/openhamster/backtest/walk_forward.py:94-161 | a window and the one a step later overlap exactly when the step is shorter than the test, or equal to it and cut short |
| WalkForward.MonthEndTestsOverlap | src/openhamster/backtest/walk_forward.py:198-204 | an overlap from 31 January with step equal to test |
| StrategyAdapter.Adapter.GenerateSignal | src/openhamster/strategy/factory.py:58-67 | the sign of the last vectorised value, or hold |
| StrategyAdapter.Adapter.GenerateSignals | src/openhamster/strategy/base_strategy.py:55-72 | the bar-by-bar series, with the position reset |
| StrategyAdapter.StreamIsSign | src/openhamster/strategy/factory.py:58-67 | each bar of the stream has the sign of the last value the strategy gives up to it |
| StrategyAdapter.StreamAgreesIffCausal | src/openhamster/strategy/base_strategy.py:55-72 | the bar-by-bar series is the vectorised one on all data exactly when the strategy never looks ahead |
| ChannelBreakout.GenerateSignals | src/openhamster/strategy/channel_breakout.py:38-95 | the masks and the stop loop give the series of the specification |
| ChannelBreakout.ApplyStops | src/openhamster/strategy/channel_breakout.py:75-93 | the stop loop, overwriting the signals in place |
| ChannelBreakout.LongIffAboveEveryHigh | src/openhamster/strategy/channel_breakout.py:52-72 | a bar is long before stops exactly when a full window precedes it and it closes above all its highs and not below all its lows |
| ChannelBreakout.AtrIsMeanRange | src/openhamster/strategy/channel_breakout.py:58-61 | the ATR is the mean of the true ranges of its window, each the greatest of the spread and the two distances from the last close |
| ChannelBreakout.SignalFollowsPrevious | src/openhamster/strategy/channel_breakout.py:75-93 | each signal from the one before: long exactly on a breakout, unless stops are on, the bar before is long and the stop is inverted |
| ChannelBreakout.StopsChangeIffInverted | src/openhamster/strategy/channel_breakout.py:75-93 | the stop loop changes anything exactly when some long bar after a long bar has a negative multiple of the ATR |
| ChannelBreakout.StopNeverFires | src/openhamster/strategy/channel_breakout.py:88-93 | with a non-negative multiple the stop switch makes no difference |
| ChannelBreakout.StreamIsVectorised | src/openhamster/strategy/channel_breakout.py:38-95 | asked bar by bar on every prefix, the strategy gives the series of one vectorised call, stop loop included |
| MeanReversion.GenerateSignals | src/openhamster/strategy/mean_reversion.py:41-75 | the three masks give the series of the specification |
| MeanReversion.SignalFollowsZScore | src/openhamster/strategy/mean_reversion.py:61-73 | the signal as a function of the z-score itself, for thresholds of any sign |
| MeanReversion.SignalFollowsCloses | src/openhamster/strategy/mean_reversion.py:53-73 | the signal from the closes alone: with their mean, sample deviation and z-score given by the sums that define them |
| MeanReversion.NoZScoreIff | src/openhamster/strategy/mean_reversion.py:53-59 | a bar has no z-score, and is flat, exactly before a full window, for a window of one and for equal prices |
| MeanReversion.StreamIsVectorised | src/openhamster/strategy/mean_reversion.py:41-75 | asked bar by bar on every prefix, the strategy gives the series of one vectorised call |

## Left out

- HTTP providers, SQLAlchemy and SQLite mechanics, FastAPI routes, the watchdog, the Vue front end and the prompts: input, output and wiring.
- What a language model answers, hashes, audit payloads and summaries: only the fields that decisions read are kept. Scores, drawdowns, backtest gates, knowledge assessments and quality reports are inputs.
- `json.loads`, the splitting at Markdown fences and the trailing-comma expression of `parse_json_payload`: library behaviour.
- Floating-point rounding: prices and cash are exact reals or integers in units of 1/10000, scores are integers in tenths. Sharpe ratio, annualised returns and turnover are not modelled.
- The price source and the cache's loader are fixed over time, and calls to the cache are sequential.
- Configuration: the coercion of environment strings, reading of the files and validation of the merged tree; keys with dots; the content of the variable table, which is a parameter. The trees are values, so sharing between the merged tree and its inputs is not captured.
- A synchronisation that raises halfway, in the proposal lifecycle: the handler at src/openhamster/api/services.py:6857-6892 commits what was done. The status writes do cover it.
- Rows the database orders equally: the earliest row is taken, and of decisions with equal times the one recorded last, where the source leaves the choice to the database or to random identifiers. No invariant depends on it; where it matters, as for a pause dated at the instant of the decision before it, the source may go either way.
- That all blueprints of a batch share a source kind is a premise; it follows from src/openhamster/api/services.py:3930-3980 and 3774-3783.
- The paper ledger models one symbol and one proposal per slot with lots of 100. The average cost, US lots of one share, symbol switches, the market calendar (a parameter) and the audit rows are not part of this model; orders are taken in the order they were written.
- `last_executed_at` of the paper slots, and the counts a pruning reports.
- The status message, the trigger, the next expected run and the progress fields of the pipeline status.
- `Backtester` with a risk manager: it unpacks a pair where `RiskManager.evaluate` returns one signal (src/openhamster/backtest/backtester.py:141).
- Percentage returns, trading costs and dates of extracted trades.
- The range limits of time stamps, and times of day, in the walk-forward calendar; the aggregation of its results.
- Price series with missing values, strategies that stream by themselves, and the other strategies.
