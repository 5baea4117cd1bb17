# Paper-grading verification

A Dafny model of the parts of the paper-grading repository that hold real algorithms or real state:

- **Sharding of the test suite** (`Shard*.dfy`, `CiTestShard.dfy`): files are placed, dearest first, on
  the lightest shard. The bounds compare the result with every other way of splitting the files.
- **Agreement arithmetic** (`PowerSums.dfy`, `Kappa*.dfy`, `GradeScale.dfy`, `EvaluationReport.dfy`):
  quadratic weighted kappa from histograms, half-up rounding, grades, the confusion matrix, and the
  report in which all of them describe one pairing.
- **Sampling and accounting** (`Apportionment.dfy`, `Partitions.dfy`, `StratifiedSample.dfy`,
  `AsapSummary.dfy`, `LabeledDataset.dfy`): largest-remainder seats over strata, and tallies that add up.
- **Rubric graph guards** (`RubricGraph.dfy`, `LineageGuard.dfy`, `PublishGuard.dfy`,
  `PublishedGraph.dfy`, `FrozenVersion.dfy`, `RubricRuns.dfy`, `Lifecycle.dfy`): the database is a map from ids to
  rows, a flush is an overlay with deleted, touched and relationship-changed rows and an operation
  key. Two listeners accept or refuse it. `RubricStore` is the database under any run of flushes.
- **Budgeted evaluation loop and release gate** (`AssistantEval.dfy`, `ReleaseGate.dfy`,
  `HoldoutManifest.dfy`): retries under a money and a waiting budget; candidate, approval, final record
  and regression comparison bound by hashes.
- **Ordinal backfill** (`WorkQueueOrdinals.dfy`): the two SQL forms of one migration.

`Ordering.dfy` (stable insertion sort, filters, permutations), `Sums.dfy` and `Wrappers.dfy` serve all
of them.

Loops and mutable state of the source are methods and classes whose `ensures` tie them to a
specification function; the laws are lemmas about that function. Numbers are exact: Python floats and
decimals become reals, timestamps integers. `evaluation_sha256` is an injective function; that an approval binds one
candidate and a hash one record follows from that assumption at once. A scored paper, a model call and a drawn sample are inputs that may be anything.

## What turned out not to hold

Each of these has a concrete input and the exact condition under which the code does what it promises.

- **A published rubric need not be frozen.** The provenance test reads new and stored compilations
  only, so a flush that moves a stored compilation to a published rubric without provenance passes
  (`RubricRuns.AdoptionBreaksFrozen`). Published means frozen is kept exactly when each such rubric
  gets, with some moved compilation, the sign-off of its own publication date and a version
  (`FrozenVersion.PublishedMeansFrozenIff`); without such a flush it always is.
- **The incremental lineage check can refuse a valid flush**: it also checks source rules that are
  being deleted but are still attached (`LineageGuard.DeletedAttachmentIsRefused`,
  `LineageGuard.IncrementalIsExact`).
- **Enough files do not mean no empty shard.** Files of cost zero all go to the same lightest shard, so
  a shard can stay empty although there are more files than shards; the message of `main` speaks of too
  few files (`CiTestShard.EnoughFilesAndEmptyShard`, `CiTestShard.MainAcceptsIff`).
- **Kappa 1 does not always mean agreement.** A range of at most one rating returns early, and with
  Python's negative indexing two ratings one range length apart share a cell
  (`KappaLoop.OutOfRangeCanLookPerfect`). `KappaLoop.PerfectIff` says for all arguments when the result
  is 1, `KappaLoop.HiddenDisagreementIff` when it hides disagreement. The docstring's "equal to chance
  is 0" fails for two raters who always give one rating (`Kappa.NoCovarianceAndOne`) and holds exactly
  when disagreement is possible at all (`Kappa.ZeroIff`).
- **The sum in `summarize`'s docstring needs distinct records**: n, missing and not run add up to the
  essays of a manifest without repeated ids exactly when no essay is recorded twice
  (`AsapSummary.RecordedTwice`, `AsapSummary.NothingLost`).
- **A passed gate can be refused by its own comparison**, exactly when `gating_eligible` is truthy but
  not `True` (`ReleaseGate.TruthyPassesAndIsRefused`, `ReleaseGate.SelfConsistent`).
- **`blocked_rate` is approved but never compared** (`ReleaseGate.BlockedRateRises`): after every passed
  gate it may rise to anything (`ReleaseGate.BlockedRateMayRise`).
- **A negative kappa, which the metric allows, can never pass** (`KappaLoop.OppositeIsMinusOne`,
  `ReleaseGate.NegativeKappaNeverPasses`), because no limit may be negative; `ReleaseGate.CanPassIff`
  says exactly which candidates can.
- **A prediction is not always compared with its own row's human total**: when two rows share a sample
  id, the last one's counts (`LabeledDataset.SharedKeyTakesLaterTruth`). It is, throughout, exactly when
  rows of the table that share a sample id agree on that total (`LabeledDataset.OwnRowIff`).
- **The merged cost of retries is not always exact**, although the docstring of `_with_all_attempts`
  calls it so: it is less when one attempt reports more cached than prompt tokens and another fewer
  (`AssistantEval.MergedCostCanBeLess`), and exact in all other cases, or when cached tokens are not
  cheaper (`AssistantEval.ReportedAtMostSpent`, `AssistantEval.CostConserved`).

## Model

| member | source | states |
|---|---|---|
| LineageGuard.IncrementalIsSound | backend/app/db/models.py:1029-1214 | if the stored graph satisfies the three lineage rules and the change-triggered checks accept a flush, the whole resulting graph satisfies them |
| LineageGuard.IncrementalIsExact | backend/app/db/models.py:1072-1214 | accepted exactly when the whole result satisfies the rules and no checked, deleted but still attached source rule breaks them |
| LineageGuard.IncrementalIsWholeGraph | backend/app/db/models.py:1072-1214 | with no deleted source rule attached to a live rule, the incremental check equals re-checking everything |
| LineageGuard.DeletedAttachmentIsRefused | backend/app/db/models.py:1115-1121 | a concrete flush with a valid result that is refused |
| LineageGuard.ValidateAtomicRuleLineage | backend/app/db/models.py:1072-1214 | the listener, over new and dirty objects in any order and with repetitions, accepts exactly the flushes the specification accepts |
| PublishGuard.ProtectPublishedRubricGraph | backend/app/db/models.py:1640-1694 | the listener with its `transitions` built in the first loop accepts exactly the flushes of the guard, whatever the order of the candidates |
| PublishedGraph.PublishedIsImmutable | backend/app/db/models.py:1675-1690 | after publication no accepted flush adds, removes, moves or edits a row or association of the graph, and it stays published |
| PublishedGraph.TransitionIsClean | backend/app/db/models.py:1217-1260 | a status change is the one of the operation key, members and associations stay, and every row of the graph keeps all columns but those of the operation, named one by one |
| PublishedGraph.AllowedColumnsMeaning | backend/app/db/models.py:1250-1260 | the columns an operation may write, by the columns it must leave |
| PublishedGraph.UpdatesKeepGraph | backend/app/db/models.py:1463-1470 | if every change touching a graph is a permitted column update, its members and associations are the same before and after, including those that could move in |
| PublishedGraph.JoinsAgree | backend/app/db/models.py:1291-1425 | where the foreign keys hold, following objects and joining tables find the same rubric |
| PublishedGraph.AssociationWithinGraph | backend/app/db/models.py:1042-1046 | by lineage an association never crosses two rubrics' graphs |
| PublishedGraph.LineageMeaning | backend/app/db/models.py:1029-1069 | the lineage rules column by column, where the foreign keys hold |
| PublishedGraph.RuleWithinGraph | backend/app/db/models.py:1029-1039 | by lineage a rule and its criterion lie in one rubric's graph |
| PublishedGraph.LinkWithinGraph | backend/app/db/models.py:1049-1069 | by lineage a link and its template item lie in one rubric's graph and come from one compilation |
| FrozenVersion.PublishedMeansFrozenIff | backend/app/db/models.py:1439-1453 | published means frozen survives a flush exactly when every adopted rubric gets, with a moved compilation, the sign-off of its publication date and a version; always without adoption |
| FrozenVersion.AdoptedFrozenIff | backend/app/api/actions.py:71-86 | an adopted rubric has a frozen version exactly when a moved stored compilation carries that sign-off and keeps a version |
| FrozenVersion.AdoptionMovesCompilation | backend/app/db/models.py:1439-1453 | a flush adopts exactly when it re-parents a stored compilation to a published rubric whose provenance the test does not see |
| FrozenVersion.PublishFreezes | backend/app/db/models.py:1473-1526 | the publish path leaves a version that `is_frozen_version` accepts |
| FrozenVersion.PublishSignsOne | backend/app/db/models.py:1473-1526 | publishing signs one compilation, by a known user and after its creation, and changes no other compilation of the rubric |
| FrozenVersion.ImportFreezes | backend/app/db/models.py:1537-1637 | the atomic-import path leaves a frozen version too |
| FrozenVersion.ImportIsWhole | backend/app/db/models.py:1537-1637 | every row of an imported graph is new, it has one compilation, and a batch of the flush pins its version |
| FrozenVersion.NewRubricStarts | backend/app/db/models.py:1654-1663 | a new rubric with provenance starts as a draft, or published and frozen |
| FrozenVersion.FrozenPersists | backend/app/db/models.py:1686-1690 | a frozen version stays frozen |
| FrozenVersion.ResolverReturnsFrozen | backend/app/api/actions.py:89-130 | what the resolver returns is a frozen version of that rubric, the requested one if any; no version only if the rubric has none |
| FrozenVersion.ReaderMatchesGuard | backend/app/api/actions.py:71-86 | a version is frozen exactly when the publication check would pass its sign-off, but for the reviewer's account, the creation date and an empty hash |
| FrozenVersion.ResolverCases | backend/app/api/actions.py:89-130 | what the resolver answers for every request and every number of frozen versions, several included |
| FrozenVersion.ResolverFindsFrozen | backend/app/api/actions.py:110-121 | for a published rubric with one compilation the resolver finds the frozen version unasked |
| RubricRuns.RubricStore.FlushSession | backend/app/db/models.py:1072-1694 | the database takes a flush both listeners accept and its constraints allow, stays unchanged otherwise, and keeps the invariant |
| RubricRuns.RubricStore.constructor | backend/app/db/models.py:1072-1694 | the empty database satisfies the invariant |
| RubricRuns.PublishedForGood | backend/app/db/models.py:1640-1694 | over any run, the graph of a published rubric is the same in every later state |
| RubricRuns.StatusMoves | backend/app/db/models.py:1217-1222 | over any run, status moves only draft to review, review to draft, review to published, each under its key and cleanly |
| RubricRuns.RunPublishedMeansFrozen | backend/app/api/actions.py:71-86 | in every state of a run without adoptions published means frozen |
| RubricRuns.ReachableResolves | backend/app/api/actions.py:110-121 | from the empty database, in every state of a run without adoptions, the resolver finds the frozen version of a published rubric with one compilation |
| RubricRuns.RunStaysSound | backend/app/db/models.py:1029-1214 | every reachable state satisfies the lineage rules and the constraints |
| RubricRuns.AdoptionBreaksFrozen | backend/app/db/models.py:1448-1453 | a concrete accepted flush after which a published rubric with provenance has no frozen version |
| Lifecycle.StatusFlushTaken | backend/app/db/models.py:1217-1222 | a flush that only changes a status is taken exactly for draft to review as a submission and review to draft as a return, and the database then holds the new status |
| Lifecycle.PublishFlushTaken | backend/app/db/models.py:1473-1526 | a flush that only publishes is taken exactly from review, as a publication, with a complete new sign-off, and the database then holds it |
| Lifecycle.EditsPassIff | backend/app/db/models.py:1675-1690 | a flush that changes no status passes exactly when nothing it edits belongs, before or after, to a published rubric with a compilation |
| Lifecycle.ImportTakenIff | backend/app/db/models.py:1537-1663 | a flush that adds one rubric with its graph is taken exactly when its rows fit constraints and lineage and the rubric has no compilation, or is a draft, or is published with one compilation, one version, one date, known users, one digest and pinned batches |
| ShardBounds.LongestFirstBound | scripts/ci_test_shard.py:60-63 | 3·total·L <= (4·total-1)·M for the heaviest load M of any other assignment |
| ShardBounds.LongestFirstBoundIsReached | scripts/ci_test_shard.py:60-63 | the factor cannot be improved for two shards: 7 against 6 |
| ShardBounds.ListBound | scripts/ci_test_shard.py:61-63 | total·L <= sum of costs + (total-1)·dearest, for files in any order |
| ShardBounds.Spread | scripts/ci_test_shard.py:61-63 | at every moment two loads differ by at most the dearest file placed |
| ShardBounds.NoShardEmpty | scripts/ci_test_shard.py:114-118 | every shard is used exactly when enough files cost something, or one too few with a free file to spare |
| CiTestShard.Partition | scripts/ci_test_shard.py:52-64 | the whole function: error for fewer than one shard, else the specified shards |
| CiTestShard.PartitionIsLongestFirst | scripts/ci_test_shard.py:52-64 | the returned shards on files and weights alone: a file costs its recorded weight, or the mean of the two middle recorded ones, or 1; files go dearest first, then by name, to the first lightest shard; shards are sorted |
| CiTestShard.CostsAreFileCosts | scripts/ci_test_shard.py:55-57 | what a file costs, counted on the recorded weights below and above |
| CiTestShard.PlaceAll | scripts/ci_test_shard.py:58-63 | the loop builds the shards of the greedy assignment |
| CiTestShard.PlaceNext | scripts/ci_test_shard.py:61-63 | one round, in place: the file goes to the lightest shard of lowest index; `loads` and `shards` stay exact |
| CiTestShard.PlaceIsGreedy | scripts/ci_test_shard.py:61-63 | in the assignment so computed, each file went to a shard no other was lighter than |
| CiTestShard.PartitionBound | scripts/ci_test_shard.py:52-64 | the 4/3 bound for the returned shards against any list of shards holding the same files |
| CiTestShard.PartitionFourThirds | scripts/ci_test_shard.py:52-64 | in the files' own costs: every returned shard is within 4/3 - 1/(3·total) of some shard of any other split |
| CiTestShard.PartitionListBound | scripts/ci_test_shard.py:52-64 | total·L <= sum of costs + (total-1)·dearest for the returned shards |
| CiTestShard.PartitionSpread | scripts/ci_test_shard.py:52-64 | no two returned shards differ by more than the dearest file |
| CiTestShard.EveryFileOnce | scripts/ci_test_shard.py:52-64 | the shards together hold exactly the given files, with multiplicity |
| CiTestShard.ShardsAreSorted | scripts/ci_test_shard.py:64 | each returned shard is sorted by name |
| CiTestShard.OrderIndependent | scripts/ci_test_shard.py:55-64 | any permutation of the files gives identical shards, median fallback included |
| Ordering.TextLeqIsPrecedes | scripts/ci_test_shard.py:60-64 | strings are ordered by the first place where they differ, a prefix first |
| CiTestShard.MedianIsMiddle | scripts/ci_test_shard.py:56 | half of the known weights lie on either side of the fallback |
| CiTestShard.ShardLoadsAreCosts | scripts/ci_test_shard.py:59-63 | `loads[i]` is the cost of what is on shard i, and the heaviest shard is the makespan |
| CiTestShard.MainAcceptsIff | scripts/ci_test_shard.py:111-120 | exactly when the listing succeeds instead of reporting an empty shard |
| CiTestShard.ListingsHoldEveryFile | scripts/ci_test_shard.py:114-119 | the listings of shards 1 to total together hold every file once, and shard 1 lists the dearest file |
| CiTestShard.FreeFilesLeaveShardEmpty | scripts/ci_test_shard.py:114-118 | any number of free files on several shards leaves one empty |
| CiTestShard.EnoughFilesAndEmptyShard | scripts/ci_test_shard.py:114-118 | three free files on two shards: an empty shard all the same |
| Kappa.Range | backend/app/eval/metrics.py:123-125 | the value is in [-1, 1] for all samples |
| Kappa.OneIff | backend/app/eval/metrics.py:123-125 | 1 exactly for pointwise equal ratings |
| Kappa.ZeroIff | backend/app/eval/metrics.py:123-125 | 0 exactly when disagreement was possible and the covariance is 0 |
| Kappa.NoCovarianceAndOne | backend/app/eval/metrics.py:123-125 | two raters always giving one rating: covariance 0 and value 1 |
| Kappa.MinusOneIff | backend/app/eval/metrics.py:150-161 | -1 exactly when the ratings are mirrored about one common mean |
| Kappa.Meaning | backend/app/eval/metrics.py:150-161 | value times pairwise squared disagreement is twice n·sum(ab) - sum(a)·sum(b) |
| Kappa.Symmetric | backend/app/eval/metrics.py:123-161 | swapping the raters changes nothing |
| Kappa.NumeratorIsPaired | backend/app/eval/metrics.py:153-157 | the numerator over histogram cells is the sum of squared differences of the pairs |
| Kappa.DenominatorIsCrossed | backend/app/eval/metrics.py:153-158 | the denominator over histogram cells is the sum over all cross pairs |
| Kappa.LoopsGiveValue | backend/app/eval/metrics.py:150-161 | the quotient of the two loops, early return included, is the value on the samples |
| KappaLoop.QuadraticWeightedKappa | backend/app/eval/metrics.py:123-161 | the whole function: length error, empty lists, rounding of the ratings, default range, early return, indexing error, and the value |
| KappaLoop.KappaCases | backend/app/eval/metrics.py:126-161 | every outcome: unequal lengths, empty lists, a degenerate range, a rating that cannot index, and the value |
| KappaLoop.RoundIsNearestEven | backend/app/eval/metrics.py:131-132 | rounding goes to the nearest integer, from halfway to the even one |
| KappaLoop.IndexMeaning | backend/app/eval/metrics.py:145-148 | a list of length num takes indices from -num to num - 1, negative ones from its end |
| KappaLoop.RoundingFixesIntegers | backend/app/eval/metrics.py:131-132 | rounding leaves integer ratings alone |
| KappaLoop.CountRatings | backend/app/eval/metrics.py:142-148 | the loop fills matrix and histograms with the pair and rating counts, with Python's negative indexing, and fails exactly where it would raise |
| KappaLoop.WeighCounts | backend/app/eval/metrics.py:150-158 | the double loop computes the two specified sums |
| KappaLoop.ResultInRange | backend/app/eval/metrics.py:123-125 | whatever the arguments, a returned value is in [-1, 1] |
| KappaLoop.OppositeIsMinusOne | backend/app/eval/metrics.py:123-161 | the ratings 0, 1 against 1, 0 give -1 |
| KappaLoop.RangeDropsOut | backend/app/eval/metrics.py:133-148 | with all ratings in the range the range does not matter |
| KappaLoop.OwnRange | backend/app/eval/metrics.py:133-136 | without a range the result is the value on the ratings |
| KappaLoop.PerfectIff | backend/app/eval/metrics.py:137-161 | for all non-empty lists and range arguments, the result is 1 exactly when the range has at most one rating, or all ratings can be indexed and every pair is equal or one range length apart |
| KappaLoop.HiddenDisagreementIff | backend/app/eval/metrics.py:133-161 | a result of 1 hides disagreement exactly when the lists differ and the range is degenerate, or all ratings can be indexed and every differing pair is one range length apart |
| KappaLoop.PerfectInRange | backend/app/eval/metrics.py:123-161 | with all ratings in the range, 1 exactly for equal lists |
| KappaLoop.OutOfRangeCanLookPerfect | backend/app/eval/metrics.py:137-148 | witnesses of both: an early return and a wrap-around, each with different lists and result 1 |
| PowerSums.CovarianceIdentity | backend/app/eval/metrics.py:150-161 | chance disagreement less observed disagreement is twice the covariance |
| PowerSums.OppositeIdentity | backend/app/eval/metrics.py:150-161 | 2·denominator - numerator is a sum of squares, which bounds the value from below |
| PowerSums.CrossedZero | backend/app/eval/metrics.py:159-160 | the denominator is never negative, and zero exactly when all ratings are one value |
| EvaluationReport.MaeAtMostRmse | backend/app/eval/metrics.py:164-177 | mae <= rmse |
| EvaluationReport.GradeConfusion | backend/app/eval/metrics.py:180-189 | each cell counts its grade pairs |
| EvaluationReport.ConfusionAccounts | backend/app/eval/metrics.py:180-219 | the matrix sums to n, has the grade histograms as marginals, and its diagonal bands are the agreement counts |
| EvaluationReport.AgreeingEverywhere | backend/app/eval/metrics.py:192-219 | exact agreements are at most the adjacent ones, and are all pairs exactly for equal grades |
| EvaluationReport.RatesAndKappa | backend/app/eval/metrics.py:192-219 | rates lie in order in [0, 1], kappa in [-1, 1], and kappa is 1 exactly when exact agreement is 1 |
| EvaluationReport.OnePairing | backend/app/eval/runner.py:82-115 | the report's grades are those of the paired totals although normalised twice, every prediction is paired or unmatched, and all rates describe that pairing |
| EvaluationReport.ReportCompares | backend/app/eval/runner.py:82-115 | on predictions and truths alone: the report is about the predictions with a truth, in order, lists the keys of the others, normalises and grades each total and that of the last truth under its key, and has exact agreement 1 exactly when these grades are equal |
| EvaluationReport.ReportCounts | backend/app/eval/runner.py:105-112 | the rates count close grades, mae sums absolute and rmse squared differences of the report's totals |
| EvaluationReport.OneMatrix | backend/app/eval/runner.py:99-115 | the confusion matrix of the report holds the counts kappa weighs, sums to n, has the grade histograms as marginals, and its diagonal bands over n are the two agreement rates |
| EvaluationReport.OneError | backend/app/eval/runner.py:85-106 | the report's mae is at most its rmse, both over the normalised totals of the pairing |
| GradeScale.HalfUpNearest | backend/app/eval/metrics.py:72 | rounding is to the nearest, ties away from zero |
| GradeScale.NormalizeLaws | backend/app/eval/metrics.py:65-72 | normalising is monotone and idempotent |
| GradeScale.QuantumIsPowerOfTen | backend/app/eval/metrics.py:71 | the quantum is 1 for no digits and a tenth for each further digit |
| GradeScale.NormalizeMeaning | backend/app/eval/metrics.py:65-72 | a normalised total is the nearest multiple of the quantum, from halfway the one away from zero; it is the total itself without digits, and an error for another mode |
| GradeScale.OrdinalMeaning | backend/app/eval/metrics.py:74-82 | the grade is the first band that the normalised total, or its percentage of the total score, reaches, counted from the worst, and 0 if none is |
| GradeScale.OrdinalLaws | backend/app/eval/metrics.py:74-82 | grades are monotone, in range, and unchanged by normalising first |
| Apportionment.Optimal | backend/app/eval/asap.py:92-98 | the seats minimise the total distance to the quotas over all integer allocations of the same size |
| Apportionment.Feasible | backend/app/eval/asap.py:92-98 | seats sum to the size, each is its quota rounded down, or up if fractional, and never exceeds its stratum |
| Apportionment.LargestRemaindersFirst | backend/app/eval/asap.py:97-98 | the extra seats go by the fraction of the quota, among equal ones to the earlier stratum |
| Apportionment.QuotasSumToSize | backend/app/eval/asap.py:94 | the quotas add up to the size |
| Apportionment.MissingSeats | backend/app/eval/asap.py:95-96 | the remainder lies between 0 and the number of strata |
| Apportionment.AllocationIsSeated | backend/app/eval/asap.py:97-98 | the extra seats go to the strata above one cut of the fractions, as many as are missing |
| StratifiedSample.StratifiedSample | backend/app/eval/asap.py:82-104 | refused exactly for a size out of range; else that many rows in id order, none excluded; for every score and prompt, counted on these fields, the quota rounded down or one more if fractional, the extra by largest fraction, then score, then prompt |
| StratifiedSample.GroupRows | backend/app/eval/asap.py:86-89 | the grouping loop yields the strata of the rows not excluded |
| StratifiedSample.Apportion | backend/app/eval/asap.py:95-98 | the counting loop gives the specified seats |
| StratifiedSample.DrawAll | backend/app/eval/asap.py:100-103 | the drawing loop takes from each stratum its seats |
| StratifiedSample.SampleIsDistinct | backend/app/eval/asap.py:82-104 | with distinct ids in the table the sample has distinct ids, none excluded |
| Partitions.ClassesAddUp | backend/app/eval/asap.py:86-90 | grouping by any key loses and duplicates nothing |
| AsapSummary.Summarize | backend/app/eval/asap.py:238-274 | the classification loop: scored, missing and not-run essays |
| AsapSummary.SummaryMeaning | backend/app/eval/asap.py:238-274 | on samples and essays alone: which samples are scored, missing or without effect, which essays are not run, and what a scored entry holds |
| AsapSummary.NothingLost | backend/app/eval/asap.py:229-236 | n + missing + not run is the number of manifest ids exactly when no essay is recorded twice, each repetition adding one; and those ids are as many as the listed essays exactly when none is listed twice |
| AsapSummary.RecordedTwice | backend/app/eval/asap.py:238-281 | one essay recorded twice: the numbers add up to 2 for a manifest of 1 |
| AsapSummary.TablesAddUp | backend/app/eval/asap.py:256-272 | per-score counts and each group field add up to n |
| AsapSummary.TablesCount | backend/app/eval/asap.py:256-272 | each count of the score and group tables is the number of entries with that score or field value, a missing one read as NA |
| AsapSummary.ConfusionAddsUp | backend/app/eval/asap.py:251-255 | the confusion table adds up to n with the score counts as marginals, and its diagonal bands are the exact and adjacent counts |
| AsapSummary.SummaryRates | backend/app/eval/asap.py:282-285 | exact and adjacent are ordered shares, kappa over 1 to 6 is in [-1, 1], and both are 1 exactly when every essay got its score |
| AsapSummary.RoundedLaws | backend/app/eval/asap.py:225-226 | rounding totals to scores is monotone, in range, and fixes scores |
| AsapSummary.RoundedIsNearest | backend/app/eval/asap.py:225-226 | a total is rounded to the nearest integer, from halfway the even one, and moved into 1 to 6 |
| LabeledDataset.BuildLabeledEval | backend/app/eval/labeled_dataset.py:75-164 | refused exactly for an empty table; else the loop's lists in terms of the table: samples, predictions, errors with identity and cause, and per-sample records; predictions + errors = rows, completed = predicted + blocked; exact review, blocked and evidence counts |
| LabeledDataset.RowMeaning | backend/app/eval/labeled_dataset.py:85-164 | sample, prediction, record and error of a row, field by field in terms of the row |
| LabeledDataset.InvalidIsFalse | backend/app/eval/runner.py:33-45 | the invalid items are the places that hold the decision false |
| LabeledDataset.EveryRowAccounted | backend/app/eval/labeled_dataset.py:150-175 | every prediction is paired, with the last sample under its key; own-row comparison throughout exactly when samples under one key agree on the human total |
| LabeledDataset.OwnRowIff | backend/app/eval/labeled_dataset.py:84-175 | with a new paper per ingestion, own-row comparison throughout exactly when rows of the table that share a sample id agree on the human total; so always without sample ids |
| EvaluationReport.LastTruth | backend/app/eval/runner.py:82 | the truth under a key is the last sample with that key |
| LabeledDataset.SharedKeyTakesLaterTruth | backend/app/eval/labeled_dataset.py:150-171 | one file listed twice, two papers under one sample id: the first is compared with the second total |
| AssistantEval.RunEval | backend/app/eval/assistant_eval.py:541-573 | the nested loops return the specified results, skips, stop reason, money and waiting |
| AssistantEval.RunItem | backend/app/eval/assistant_eval.py:559-571 | the retry loop of one item |
| AssistantEval.NothingLost | backend/app/eval/assistant_eval.py:552-573 | results + skipped = items, tries between 1 and retries + 1, complete unless stopped |
| AssistantEval.ExitLaw | backend/app/eval/assistant_eval.py:554-573 | a run stops at the waiting cap exactly when its last item ended rate-limited with retries and money left and no room for a wait, at the budget exactly when items are left and the money is spent, and else has run every item; no earlier item ended so |
| AssistantEval.WaitCapped | backend/app/eval/assistant_eval.py:567-571 | the waiting never exceeds its cap |
| AssistantEval.WaitedIsRetries | backend/app/eval/assistant_eval.py:567-571 | the time a run waits is the wait times the number of retries |
| AssistantEval.BudgetRespected | backend/app/eval/assistant_eval.py:555-566 | money spent is the sum of all attempts, and each starts below the budget |
| AssistantEval.OvershootBelowOneAttempt | backend/app/eval/assistant_eval.py:555-566 | a run exceeds its budget by less than the cost of its very last attempt |
| AssistantEval.RetriesAreJustified | backend/app/eval/assistant_eval.py:560-571 | retried only after a rate limit; left rate-limited only when retries, money or waiting ran out |
| AssistantEval.ResultsAreLastAttempts | backend/app/eval/assistant_eval.py:528-573 | results are for a prefix of the items in order, each with its last verdict, all earlier ones rate-limited |
| AssistantEval.ResultAddsUp | backend/app/eval/assistant_eval.py:528-538 | a result carries the tokens of all its attempts, and its cost is what these cost with the cached ones capped at the prompt |
| AssistantEval.CachedSuperadditive | backend/app/eval/assistant_eval.py:135-139 | capping cached tokens per attempt never gives more than capping their sum, with the exact cases of equality |
| AssistantEval.ReportedAtMostSpent | backend/app/eval/assistant_eval.py:528-538 | the reported cost of merged attempts is at most what they cost, equal exactly in the stated cases |
| AssistantEval.MergedCostCanBeLess | backend/app/eval/assistant_eval.py:528-538 | two attempts on different sides of the cap: the merged cost is less than what they cost |
| AssistantEval.CostConserved | backend/app/eval/assistant_eval.py:559-572 | the reported costs of a run add up to at most the money that drove its budget, equal exactly when cached tokens are not cheaper or each item's attempts fall on one side of the cap |
| ReleaseGate.Finalize | backend/app/eval/gating.py:621-683 | the function step by step: its lists, the edited copy with its final hash, and the refusal of forbidden keys |
| ReleaseGate.FinalisedIff | backend/app/eval/gating.py:621-683 | a candidate is finalised exactly under the conditions listed one by one: schemas, hash, binding, approver, four confirmations, eight metrics, eight limits, seven tolerances, anchors, no forbidden key |
| ReleaseGate.FailedPrivacy | backend/app/eval/gating.py:631-642 | lists exactly the privacy requirements not confirmed with the value true |
| ReleaseGate.CollectThresholdIssues | backend/app/eval/gating.py:897-937 | the threshold loop collects the specified issues, or fails on a wrong key set or limit |
| ReleaseGate.PassedIff | backend/app/eval/gating.py:667-678 | passed exactly when eligible and all eight limits are met |
| ReleaseGate.PassedIffEightLimits | backend/app/eval/gating.py:897-937 | passed exactly when eligible with the eight named metrics on the right side of their limits |
| ReleaseGate.VerdictLists | backend/app/eval/gating.py:657-683 | the status word, the list of unmet limits each with its kind, once and nothing else, and which fields of the candidate are written |
| ReleaseGate.CanPassIff | backend/app/eval/gating.py:621-683 | some approval lets a candidate pass exactly when it is sealed, eligible, has its anchors object, no forbidden key, all eight metrics and no negative agreement metric |
| ReleaseGate.NegativeKappaNeverPasses | backend/app/eval/gating.py:897-937 | a sealed, eligible candidate with kappa -1 that no approval lets pass, while with kappa 0 one does |
| ReleaseGate.FinalisedWasReviewed | backend/app/eval/gating.py:629-665 | a finalised record has its whole privacy review, a named approver, the candidate's metrics as baseline, a valid final hash, and no forbidden key anywhere |
| ReleaseGate.PassedHasMetrics | backend/app/eval/gating.py:897-937 | a passed record has all eight metrics, within limits, equal to its baseline |
| ReleaseGate.SelfConsistent | backend/app/eval/gating.py:763-801 | no regression against its own candidate exactly when eligibility is the value true |
| ReleaseGate.RegressionFreeIff | backend/app/eval/gating.py:719-801 | a candidate is free of regression against a passed record exactly when its hash is valid, its eligibility true, the seven named metrics within tolerance and the ten identities kept |
| ReleaseGate.ComparisonLists | backend/app/eval/gating.py:719-801 | what the comparison answers otherwise: which error, or every changed identity, incomplete and regressed metric, once and nothing else |
| ReleaseGate.TruthyPassesAndIsRefused | backend/app/eval/gating.py:667-774 | a candidate with truthy eligibility that some approval passes and whose own comparison reports an issue |
| ReleaseGate.ApprovalBindsCandidate | backend/app/eval/gating.py:624-628 | by the injective hash, one approval finalises one candidate |
| ReleaseGate.SealBindsRecord | backend/app/eval/gating.py:1048-1060 | by the injective hash, equal valid final hashes mean equal records |
| ReleaseGate.DriftBounded | backend/app/eval/gating.py:719-801 | along any chain of regression-clean passed gates each compared metric drifts at most by the sum of tolerances, and the identity is kept |
| ReleaseGate.KappaFloor | backend/app/eval/gating.py:719-760 | kappa never falls below the last approved minimum nor below the first value less all allowed drops |
| ReleaseGate.BlockedRateMayRise | backend/app/eval/gating.py:730-742 | a candidate differing only in any higher `blocked_rate` can be approved, passes and shows no regression |
| ReleaseGate.BlockedRateRises | backend/app/eval/gating.py:730-742 | a passed candidate and one with blocked rate 1 instead of 0 that passes after it without a regression |
| HoldoutManifest.BuildHoldoutManifest | backend/app/eval/gating.py:102-226 | accepted exactly for a dataset id and version, an existing directory, and complete rows (filename, inside the directory, supported suffix, existing file, truth) with distinct filenames and sample ids that list every paper; then the sorted manifest |
| HoldoutManifest.AcceptableMeaning | backend/app/eval/gating.py:126-194 | which rows are accepted, field by field |
| HoldoutManifest.ManifestForgetsOrder | backend/app/eval/gating.py:121-226 | any permutation of acceptable rows gives the same manifest |
| HoldoutManifest.ManifestPairsUp | backend/app/eval/gating.py:195-198 | papers and truths end up in the same order, one pair per row, each id once |
| HoldoutManifest.ManifestMeaning | backend/app/eval/gating.py:153-196 | every row's paper and truth stand at one place of the manifest with its hash, length, suffix and scores, in ascending order of ids |
| WorkQueueOrdinals.FormsAgree | alembic/versions/0035_unified_work_queue.py:86-106 | ROW_NUMBER less one and the count of smaller rows are the same number |
| WorkQueueOrdinals.OrdinalsFollowOrder | alembic/versions/0035_unified_work_queue.py:86-106 | within a job ordinals order rows as (created_at, id) does, without ties |
| WorkQueueOrdinals.OrdinalsAreContiguous | alembic/versions/0035_unified_work_queue.py:86-106 | within a job of n rows the ordinals are exactly 0 to n-1 |
| WorkQueueOrdinals.RankIsPlace | alembic/versions/0035_unified_work_queue.py:86-106 | the k-th row of a job in order has rank k in both forms |
| WorkQueueOrdinals.BatchScoringItems.BackfillOrdinals | alembic/versions/0035_unified_work_queue.py:86-106 | in either dialect every row afterwards is the same but for its ordinal, the number of rows of its job created earlier, or at the same time with a smaller id |

## Left out

- Floating point and decimal precision, and `round` for display: all numbers are exact, so near-ties that rounding would decide are not modelled.
- The ORM's identity map, attribute histories, loading and autoflush: a session is its overlay; ids are assigned before the flush and unique across tables, object collections are the foreign-key columns read backwards.
- User foreign keys and the cascade of a version hash: the overlay holds the final values, and a user id that a guard does not look up is free.
- Writes that bypass the session, and CHECK constraints of the schema: only foreign keys and uniqueness are assumed.
- StratifiedSample.DrawAll: which members `random.sample` draws is left open, so the dependence on the seed is not modelled.
- StratifiedSample.GroupRows: the dictionary keeps keys in order of first appearance; values of a row other than id, score and prompt are not modelled.
- LabeledDataset.BuildLabeledEval: ingestion and scoring are an outcome per row, a run's identity projection is a copied text that never fails, and the lookups of rubric, policy and version before the loop are not modelled.
- The assistant evaluation's `summarize`, `not_measured` and `estimate`: sums, flags and percentiles over results already accounted for.
- `_per_criterion_errors`, group biases and means of the reports: each is one average over a list already accounted for.
- AssistantEval.RunEval: a model call is an arbitrary function of item and attempt, the pauses between items are not modelled, costs are not rounded.
- ReleaseGate.Finalize: building a candidate from git and files and the regression record are not modelled; texts arrive stripped, a blank one as missing, the nested keys of a record as one set, and fields of a wrong JSON type do not occur.
- HoldoutManifest.BuildHoldoutManifest: resolving a path and walking the directory are inputs; the hashes of the manifest are functions of its fields.
- WorkQueueOrdinals.BatchScoringItems.BackfillOrdinals: the columns `source_key`, `owner_id` and `heartbeat_at` are plain copies; ids and times compare as the program's strings and numbers, without collations.
- CiTestShard.Partition: discovery of test files, reading and recording of weights, and the command line are not modelled beyond the checks of the listing.
- The text judges of the assistant evaluation (regular expressions), document and spreadsheet reading, routes, authentication, deployment and the remaining migrations: plumbing, or decided by one read.
