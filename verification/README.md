# A verified model of ORAG's protocols and evaluation mathematics

ORAG is a retrieval-augmented-generation service. This project models the parts of it that
carry promises of their own, in Dafny, and proves those promises for all inputs, all runs and all fault schedules:

- **Activation** and **Ingestion**: the store / prepare / commit / finalize protocol that makes a document visible in
  several indexes at once, with every call free to fail, and the job record that reports it.
- **JsonGrammar** and **JsonExtract**: the scanner that cuts a JSON object out of a model's answer, against the grammar
  of RFC 8259, sections 2 to 7.
- **Kappa**, **KappaLaws**, **Ranks**, **RankExtremes**, **Retrieval**, **Diversity**, **GainDominance**,
  **DiversityBounds**, **Statistics**, **Bootstrap**, **Paired**, **Percentiles**, **Pairwise**: the evaluation
  mathematics and the pairwise judge.
- **Uploads**, **ApiKeys**, **ApiKeyService**, **ApiKeySecrets**, **AuditLog**, **PolicyVersions**: stores whose promises
  span whole runs of calls, some of them interleaved.
- **WorkerPool**: the benchmark's dispatcher, workers and channels as interleaved steps.
- **Raptor**, **Targets**: the summary tree, and a configuration list with its printed form.

Code that changes state is a class or a method with loops, proved against a function or relation on values; the lemmas
are about those. `Arith`, `Reals`, `Sorting`, `Collections`, `Text`, `Splitting`, `Decimal`, `Discounts` and `Wrappers`
hold what the modules share.

## What turned out different from the intent

Each of these has a concrete input, and a theorem that says when the promise does hold.

- A rollback can be recorded as a succeeded job, because `errors.As` looks inside the joined abort errors. It happens
  exactly when an error of the rollback carries a cleanup warning (`AcceptedExactlyWhen`); `RolledBackJobSucceeds` is
  one such ingestion from beginning to end. No participant of this repository builds a cleanup warning itself, so only
  a foreign participant triggers it.
- alpha-nDCG is not bounded by 1: a result can unite two references (`ScoreCanExceedOne`), a reference can be matched
  twice (`RepeatedReferenceExceedsOne`), and references that overlap spoil the greedy ideal (`OverlapExceedsOne`). It is
  at most 1 when any two references carry the same labels or none in common and no label set is ranked more often than
  there are references for it (`FlatReferencesBoundTheScore`); the three inputs show that neither half can go. For all
  discounts at once the bound holds exactly when the ideal is ahead at every depth (`BoundedExactlyWhenDominated`).
- The ideal depends on Go's map order (`IdealDependsOnCandidateOrder`). It does not for references that overlap fully or
  not at all (`FlatIdealIgnoresOrder`), nor when ties are always between equal label sets (`AlikeTiesFixTheIdeal`).
- The Wilson interval ignores the weights that the reported value uses and may miss it (`WilsonMayMissWeightedValue`);
  it contains the value exactly under `IntervalContainsValueExactlyWhen`, and always for equal weights.
- Two audit events with equal time and ID keep a cursor from ever moving on (`EqualKeysRepeatForever`); a cursor
  round-trips exactly when the ID is nonempty and free of white space (`CursorRoundTrip`).
- A new upload session is covered by its file exactly when it was not created with a positive byte count
  (`CreationCoversExactlyWhen`); a canceled ID can be created again (`CanceledReopensExactlyWhen`); completing a session
  does not look at its declared size, only reading does (`ReadSucceedsExactlyWhen`).
- Aggregated pairwise outputs repeat the first output's reasons (`FirstReasonsAreRepeated`, exactly when it gave any:
  `UsageOfAggregate`). The first cost would be counted twice as well, but nothing sets a pairwise cost yet, so that is
  latent. Token usage is right.
- The version conflict check ignores the tenant, so one tenant's policy name shuts another tenant out
  (`SecondTenantIsShutOut`); a write succeeds exactly under `WriteSucceedsExactlyWhen`.
- A NUL in a tenant name can make the target parser drop a different target (`NulsLoseATarget`); the round trip holds
  exactly under `RoundTripExactlyWhen`.

## Model

| member | source | states |
|---|---|---|
| Activation.CompositeIndexer.Store | internal/kb/composite.go:51-102 | every run, under every fault schedule, makes exactly the calls of one possible outcome, gets the answers the environment gives, and reports that outcome; after a rollback each index shows what it showed before, when aborts undo and failed stores have no effect |
| Activation.RunPhases | internal/kb/composite.go:76-92 | store, prepare and commit each go over the whole list before the next starts, and stop at the first error |
| Activation.Stage | internal/kb/composite.go:76-93 | an error after staging begins aborts the stored prefix and reports the joined errors |
| Activation.AbortActivation | internal/kb/composite.go:104-110 | aborts run last stored first, all of them even when some fail, and no error is lost |
| Activation.FinalizeAll | internal/kb/composite.go:94-101 | every participant is finalized once in order and all failures are joined |
| Activation.Indexer.Perform | internal/kb/composite.go:10-16 | any of the five calls may fail and leave any content; the journal records it |
| Activation.CommitsComeAfterPreparation | internal/kb/composite.go:77-92 | no commit starts before every participant is stored and prepared, whatever the outcome |
| Activation.CommittedMeansAll | internal/kb/composite.go:83-101 | committed means each participant commits once without error, is finalized exactly once and is never aborted |
| Activation.RolledBackMeansNone | internal/kb/composite.go:76-110 | rolled back means nobody is finalized and exactly the successfully stored participants are aborted, once each, in reverse order |
| Activation.ReportDecides | internal/kb/composite.go:94-110 | no error exactly when all committed and finalized; a rollback always reports an error |
| Activation.JoinAllKeepsWarnings | internal/kb/composite.go:104-110 | collecting abort errors neither loses nor invents an error or a cleanup warning |
| Ingestion.Service.Ingest | internal/ingest/service.go:95-223 | the indexer is called exactly when every earlier stage worked; the first stage error, or the indexer's answer, decides between a failed and a succeeded job, and both the returned and the stored record are given in full for every answer of the job store |
| Ingestion.Service.Fail | internal/ingest/service.go:126-134 | a failure is recorded with its message and returned |
| Ingestion.AcceptedExactlyWhen | internal/ingest/service.go:198-204 | the job succeeds if and only if all was committed, or a rollback error has a cleanup warning inside |
| Ingestion.FirstWarningIsLeftmost | internal/ingest/service.go:198-204 | the warning bound by `errors.As`, which the job records, is the leftmost one in the error tree |
| Ingestion.RollbackCanLookAccepted | internal/ingest/service.go:198-216 | in an environment where one commit answers with a cleanup warning two participants always end rolled back and accepted |
| Ingestion.RolledBackJobSucceeds | internal/ingest/service.go:95-223 | that run end to end: the job succeeds, with the warning as its error, although no index holds the document |
| JsonExtract.ExtractJSONObject | internal/eval/llm_judge.go:412-457 | the scan returns the object that starts at the first brace and ends where that brace closes, or the error that fits |
| JsonExtract.ExtractsIsFunctional | internal/eval/llm_judge.go:412-457 | that promise determines the answer |
| JsonExtract.NeutralValue | internal/eval/llm_judge.go:423-446 | every JSON value, at every depth, leaves the scanner state as it found it and never goes below |
| JsonExtract.ObjectCloses | internal/eval/llm_judge.go:423-446 | an object text closes exactly at its end, whatever follows |
| JsonExtract.ExtractsEveryObject | internal/eval/llm_judge.go:412-457 | every JSON object behind brace-free prose is cut out whole if and only if its tail is white space with at most one code fence closed by backticks; any other tail is refused as trailing content |
| JsonExtract.TrailingProseIsRefused | internal/eval/llm_judge.go:449-451 | an object followed by any character that is neither white space nor a backtick is refused |
| JsonExtract.NothingToExtractExactlyWhen | internal/eval/llm_judge.go:412-421 | the empty-response and the no-object error, each exactly for its texts |
| JsonExtract.RejectsTruncatedObject | internal/eval/llm_judge.go:412-457 | no proper prefix of an object is accepted |
| JsonExtract.ExtractionIsIdempotent | internal/eval/llm_judge.go:412-457 | extracting again from what was extracted changes nothing |
| Kappa.CohenKappa | internal/eval/calibration.go:355-382 | the counting loops compute kappa from observed agreement and label frequencies |
| Kappa.KappaBounds | internal/eval/calibration.go:355-382 | kappa lies in [-1, 1] |
| Kappa.ChanceAtMostHalf | internal/eval/calibration.go:367-377 | twice the expected agreement is at most one plus the observed |
| Kappa.CertainChanceMeansAgreement | internal/eval/calibration.go:375-380 | expected agreement 1 forces observed agreement 1, so that fallback is never taken |
| Kappa.KappaOneMeansAgreement | internal/eval/calibration.go:355-382 | kappa is 1 exactly when the raters agree on every item |
| Kappa.KappaSymmetric | internal/eval/calibration.go:355-382 | exchanging the raters changes nothing |
| KappaLaws.KappaBalance | internal/eval/calibration.go:355-382 | with n items, A agreements and C equal pairs of labels, kappa times (n^2 - C) is nA - C, and 1 when C is n^2 |
| KappaLaws.KappaSign | internal/eval/calibration.go:355-382 | kappa is 0 exactly when nA = C and positive exactly when nA > C |
| KappaLaws.KappaMinusOneExactlyWhen | internal/eval/calibration.go:355-382 | kappa is -1 exactly for raters who never agree while half of all pairs of their labels are equal |
| KappaLaws.EqualPairsArePairs | internal/eval/calibration.go:371-374 | the sum over label counts counts the equal pairs (human label, judge label) |
| KappaLaws.AgreementsAreItems | internal/eval/calibration.go:361-367 | agreements are the items with equal labels |
| Ranks.ComputeRanks | internal/eval/calibration.go:310-335 | sorting and filling runs of ties gives every value the average of the positions its equals occupy |
| Ranks.RanksSum | internal/eval/calibration.go:310-335 | the ranks sum to n(n+1)/2 whatever ties |
| Ranks.RanksKeepOrder | internal/eval/calibration.go:310-335 | larger values get larger ranks, equal values equal ranks |
| Ranks.RanksCommuteWithPermutations | internal/eval/calibration.go:310-335 | permuting the values permutes the ranks |
| Ranks.RanksSeeOnlyOrder | internal/eval/calibration.go:310-335 | any strictly increasing transform leaves the ranks alone |
| Ranks.ComputeSpearman | internal/eval/calibration.go:303-308 | the program's rank correlation is Pearson's on the ranks |
| Ranks.SpearmanBounds | internal/eval/calibration.go:303-308 | the rank correlation lies in [-1, 1] |
| Ranks.SpearmanSymmetric | internal/eval/calibration.go:303-308 | it is symmetric |
| Ranks.SpearmanInvariant | internal/eval/calibration.go:303-308 | it is invariant under order-preserving changes of either list |
| RankExtremes.SpearmanOneExactlyWhen | internal/eval/calibration.go:303-353 | it is 1 exactly when both lists order the items alike and are not constant |
| RankExtremes.SpearmanMinusOneExactlyWhen | internal/eval/calibration.go:303-353 | it is -1 exactly when they order the items in opposite ways and are not constant |
| RankExtremes.OpposedExactlyWhen | internal/eval/calibration.go:310-335 | orders are opposite exactly when each rank of one list is n + 1 minus the other's |
| RankExtremes.ReversalNegates | internal/eval/calibration.go:303-353 | reversing the order of one list negates it |
| RankExtremes.RootIsZeroExactlyWhen | internal/eval/calibration.go:348-351 | the fallback to 0 is taken exactly when one of the lists is constant |
| RankExtremes.SpearmanWithoutTies | internal/eval/calibration.go:303-353 | without ties it is 1 - 6 D / (n(n^2 - 1)), D the sum of squared rank differences |
| Ranks.ComputePearson | internal/eval/calibration.go:337-353 | the accumulation loops compute the correlation, 0 when a list is constant |
| Ranks.PearsonBounds | internal/eval/calibration.go:337-353 | by Cauchy-Schwarz the correlation lies in [-1, 1] |
| Ranks.CauchySchwarz | internal/eval/calibration.go:337-353 | the square of the cross sum is at most the product of the square sums |
| Ranks.ComputeMean | internal/eval/calibration.go:384-393 | the loop computes the mean, 0 of nothing |
| Diversity.GreedyIdealAlphaDCG | internal/eval/diversity.go:155-185 | the fused loop returns the discounted gain of a greedy ranking: each pick is unused and beats every unused candidate |
| Diversity.GainsNeverIncrease | internal/eval/diversity.go:155-185 | gains picked at successive ranks never increase |
| Diversity.GreedyUsesEveryLabel | internal/eval/diversity.go:155-185 | the ideal stops early only when every labelled candidate was used |
| Diversity.ComputeAlphaDCG | internal/eval/diversity.go:138-153 | the loop computes the discounted gain of a ranking |
| Diversity.AlphaGain | internal/eval/diversity.go:187-193 | the loop over a label set computes its gain after what was seen, in any visiting order |
| Diversity.GainDiminishes | internal/eval/diversity.go:187-193 | the longer the history, the smaller the gain |
| Diversity.DiversityLabelsByRef | internal/eval/diversity.go:68-92 | the maps group the annotated labels by reference and collect them all |
| Diversity.ScoreDiversity | internal/eval/diversity.go:29-66 | the score relates the ranking to a greedy ranking of the references, each once, in some map order |
| Diversity.CoverageIsProportion | internal/eval/diversity.go:29-66 | aspect coverage lies in [0, 1] and is 1 exactly when every label was retrieved |
| Diversity.LabelsExactlyWhen | internal/eval/diversity.go:68-136 | a result carries a label exactly when an annotation with that aspect, or else subquestion, names it by chunk, document or source |
| Diversity.CoveredExactlyWhen | internal/eval/diversity.go:38-46 | coverage counts the labels that annotations give to the ranked results |
| Diversity.AllExactlyWhen | internal/eval/diversity.go:68-92 | it is measured against the labels some conceivable result could carry |
| DiversityBounds.IdealDependsOnCandidateOrder | internal/eval/diversity.go:49-52 | two orders of the same three candidates give different ideals |
| DiversityBounds.FlatIdealIgnoresOrder | internal/eval/diversity.go:155-185 | candidates that are pairwise equal or disjoint have one ideal, in every order and under every discount |
| DiversityBounds.AlikeTiesFixTheIdeal | internal/eval/diversity.go:155-185 | when ties are between equal label sets every order gives the same ideal ranking |
| DiversityBounds.GreedyIsBest | internal/eval/diversity.go:155-185 | of all selections from candidates that are pairwise equal or disjoint the greedy one has gained most at every depth |
| DiversityBounds.FlatIdealIsGreatest | internal/eval/diversity.go:138-185 | no ranking that uses each such candidate at most once gains more than the greedy ideal |
| DiversityBounds.FlatReferencesBoundTheScore | internal/eval/diversity.go:29-66 | alpha-nDCG lies in [0, 1] when references are pairwise equal or disjoint and each labelled result has a reference of its own |
| GainDominance.BoundedExactlyWhenDominated | internal/eval/diversity.go:138-153 | one ranking gains at most as much as another under every discount if and only if it never leads at any depth |
| GainDominance.MoveToEnd | internal/eval/diversity.go:138-153 | the undiscounted gain of a ranking does not depend on its order |
| DiversityBounds.ScoreCanExceedOne | internal/eval/diversity.go:123-136 | a result that unites two disjoint references scores 2 |
| DiversityBounds.RepeatedReferenceExceedsOne | internal/eval/diversity.go:29-66 | two results that match the only reference score more than 1 |
| DiversityBounds.OverlapExceedsOne | internal/eval/diversity.go:155-185 | two results with a reference each score more than 1 when a third reference overlaps both |
| Retrieval.RetrievalMetrics | internal/eval/retrieval_metrics.go:9-67 | the loop computes recall, MRR, MAP and nDCG from the ranks of first hits |
| Retrieval.IdealRetrievalDCG | internal/eval/retrieval_metrics.go:69-79 | the ideal sums the first discounts, 1 instead of 0 |
| Retrieval.IdealIsPositive | internal/eval/retrieval_metrics.go:69-79 | the guard against zero never fires for a run with hits |
| Retrieval.DiscountedAtMostFirst | internal/eval/retrieval_metrics.go:9-79 | a decreasing discount over h distinct ranks is at most its first h terms |
| Retrieval.MetricsAreProportions | internal/eval/retrieval_metrics.go:9-67 | all four metrics lie in [0, 1] for any repeats and cutoff, and MAP never exceeds recall |
| Retrieval.NdcgOneMeansPerfect | internal/eval/retrieval_metrics.go:9-67 | nDCG is 1 exactly when the first ranks are all hits |
| Retrieval.MetricsByDefinition | internal/eval/retrieval_metrics.go:9-67 | recall, reciprocal rank, average precision and coverage are what their definitions over the results up to the cutoff say, repeats counted once |
| Retrieval.MapOneMeansPerfect | internal/eval/retrieval_metrics.go:9-67 | average precision is 1 exactly when every relevant document is met in the first places |
| Retrieval.PromotionNeverHurts | internal/eval/retrieval_metrics.go:9-67 | moving an unseen relevant document one place above an irrelevant one lowers no metric |
| Statistics.SummarizeMetric | internal/eval/statistics.go:36-69 | the summary's value, sample counts and interval |
| Statistics.ValueBetween | internal/eval/metrics.go:173-178 | the value lies between the extreme observations |
| Statistics.ValueBalances | internal/eval/metrics.go:173-178 | the value is the one point at which the weighted observations balance, weights that are not positive counting as 1 |
| Statistics.EffectiveSamplesBounds | internal/eval/metrics.go:288-299 | the effective sample count lies in [1, n] and is n exactly when all weights are equal |
| Statistics.WilsonBrackets | internal/eval/statistics.go:89-98 | the interval brackets the success rate and both clamps are redundant, for every positive z |
| Statistics.IntervalIsSound | internal/eval/statistics.go:55-69 | low is at most high; scores of 0 and 1 are bracketed in [0, 1], others stay between the extremes, for every random stream |
| Statistics.WilsonMayMissWeightedValue | internal/eval/statistics.go:64-67 | an interval that does not contain the weighted value it accompanies |
| Statistics.IntervalContainsValueExactlyWhen | internal/eval/statistics.go:64-98 | the interval of scores of 0 and 1 contains the weighted value v if and only if n(v - p)^2 is at most z^2 v(1 - v), p the success rate |
| Statistics.EqualWeightsAreContained | internal/eval/statistics.go:64-98 | with equal weights the interval always contains the value |
| Statistics.AddItem | internal/eval/service.go:380-386 | one item updates the three maps, metrics visited in any order |
| Statistics.AggregateRun | internal/eval/service.go:380-412 | the run's incremental aggregates equal the summary value of the recorded observations, for exactly the metrics that were observed |
| Bootstrap.BootstrapBetween | internal/eval/statistics.go:100-126 | a percentile interval is ordered and stays between any bounds on the resampled statistic |
| Bootstrap.BoundsByCounting | internal/eval/statistics.go:100-126 | of the 2000 resamples the low bound is the 50th smallest and the high bound the 1951st |
| Paired.SummarizePairedMetric | internal/eval/paired_comparison.go:80-110 | delta, interval and decision of the compared pairs |
| Paired.BootstrapPairedDelta | internal/eval/paired_comparison.go:112-131 | the resampling loop computes the paired bootstrap interval |
| Paired.DeltaIsMeanDifference | internal/eval/paired_comparison.go:80-110 | the difference of the weighted means is the weighted mean of the differences |
| Paired.IntervalBetween | internal/eval/paired_comparison.go:112-131 | for every random stream the interval lies between the least and greatest per-pair difference |
| Paired.DecisionExactlyWhen | internal/eval/paired_comparison.go:80-110 | improved exactly when the candidate does worse in fewer than 50 of the 2000 resamples, regressed exactly when in more than 1950 |
| Paired.NowhereWorseImproves | internal/eval/paired_comparison.go:80-110 | two or more pairs, none worse: always improved |
| Paired.EverywhereWorseRegresses | internal/eval/paired_comparison.go:80-110 | two or more pairs, all worse: always regressed |
| Paired.ConstantShift | internal/eval/paired_comparison.go:80-131 | a constant shift c gives the interval [c, c] |
| Paired.ExchangeMirrors | internal/eval/paired_comparison.go:80-131 | exchanging the sides mirrors the interval end for end, and a regression becomes an improvement |
| Percentiles.PercentileMilliseconds | benchmark.go:250-261 | the nearest-rank index returns the least value that covers the share, also for shares of 0 and less |
| Percentiles.PercentilesIncrease | internal/benchmark/report.go:86 | p95 is never below p50, as report validation demands |
| Percentiles.WeightedP95 | internal/eval/metrics.go:190-217 | the least observed value whose cumulative weight reaches 95%, and 0 without positive weight |
| Percentiles.TotalIsPositiveWeight | internal/eval/metrics.go:190-205 | only positive weights count, each in full |
| Pairwise.AggregatePairwiseOutputs | internal/eval/llm_judge.go:495-534 | no output gives the zero output, one is returned as it is, more are aggregated by plurality |
| Pairwise.MajorityWinner | internal/eval/llm_judge.go:611-621 | visiting the vote map in any order finds the plurality, ties by name |
| Pairwise.AggregateUnique | internal/eval/llm_judge.go:495-534 | map iteration order cannot change the aggregate |
| Pairwise.StableMeansStrictMajority | internal/eval/llm_judge.go:495-534 | stable with winner w exactly when w holds a strict majority of all outputs; nobody else then holds half |
| Pairwise.PreferenceFollowsWinner | internal/eval/llm_judge.go:595-609 | a stable verdict never prefers the other side; from 0.25 on it prefers its winner and from 0.75 on much |
| Pairwise.StrengthIsBalance | internal/eval/llm_judge.go:565-593 | the average strength balances the preferences of the stable outputs |
| Pairwise.UnanimousVerdict | internal/eval/llm_judge.go:495-534 | outputs that all agree are reported as they are, with that preference's strength |
| Pairwise.VotesAreOutputs | internal/eval/llm_judge.go:611-621 | votes are the stable outputs with that winner |
| Pairwise.VerdictIgnoresOrder | internal/eval/llm_judge.go:495-534 | permuting the outputs changes neither winner, stability, counts nor strength |
| Pairwise.MirroredAggregate | internal/eval/llm_judge.go:495-561 | mirroring A and B in every output mirrors the winner and keeps stability |
| Pairwise.MirrorCommutesWithAggregation | internal/eval/llm_judge.go:495-561 | the mirror of an aggregate is the aggregate of the mirrors, strength and preference included |
| Pairwise.ComparePairSymmetric | internal/eval/llm_judge.go:125-153 | with order swap, comparing (B, A) has the stability and the mirrored stable winner of (A, B) |
| Pairwise.ComparePairStableExactlyWhen | internal/eval/llm_judge.go:125-153 | an order-swapped comparison is stable exactly when both orders see a tie or the same answer ahead, and what it reports |
| Pairwise.EveryModelRepeats | internal/eval/llm_judge.go:78-96 | every model compares once for each repeat |
| Pairwise.CompareSymmetric | internal/eval/llm_judge.go:78-96 | the same for the whole comparison over any ensemble and repeats |
| Pairwise.UsageOfAggregate | internal/eval/llm_judge.go:502-512 | tokens add up; reasons are each output's once exactly when the first output gave none; cost is the total exactly when the first was free |
| Pairwise.FirstReasonsAreRepeated | internal/eval/llm_judge.go:502-512 | two agreeing outputs with a reason each report the first reason twice |
| Pairwise.JudgeCallLimiter.Take | internal/eval/llm_judge.go:828-837 | calls are granted while the budget lasts and never beyond |
| Pairwise.CallChat | internal/eval/llm_judge.go:744-781 | every attempt is paid for; the outcome and the number of attempts are those the replies, the pauses and the retry, circuit and budget limits dictate |
| Uploads.MemoryUploadStore.CreateUpload | internal/ingest/uploads.go:64-87 | the session and its empty file appear, or nothing but what the failing file call left |
| Uploads.MemoryUploadStore.AppendUpload | internal/ingest/uploads.go:99-137 | each refusal, replay, write fault and success changes exactly the state given for it |
| Uploads.MemoryUploadStore.ReadUpload | internal/ingest/uploads.go:139-160 | returns the whole file of an open session that received its declared size and whose file has exactly the received length |
| Uploads.MemoryUploadStore.CompleteUpload | internal/ingest/uploads.go:162-176 | completes any session that is not canceled, whatever it has received |
| Uploads.MemoryUploadStore.CancelUpload | internal/ingest/uploads.go:178-189 | marks the session canceled and removes its file |
| Uploads.AppendAnswers | internal/ingest/uploads.go:99-137 | each refusal of an append exactly under its condition, and acknowledgement exactly when none applies and the whole chunk reached the file |
| Uploads.NotFoundExactlyWhen | internal/ingest/uploads.go:99-189 | missing, canceled and other tenants' sessions are not found and stay untouched |
| Uploads.EveryRunKeeps | internal/ingest/uploads.go:64-189 | in every run the acknowledged chunks are a prefix of the file and the counter counts them |
| Uploads.FileCoversReceived | internal/ingest/uploads.go:99-137 | for sessions not created above zero the file is never shorter than the claimed bytes, and those never exceed a positive declared size |
| Uploads.ReadSucceedsExactlyWhen | internal/ingest/uploads.go:139-160 | a read succeeds if and only if the session is open, its declared size was acknowledged and no failed write left anything else; it returns the concatenation of the acknowledged chunks |
| Uploads.ReplayChangesNothing | internal/ingest/uploads.go:99-137 | replaying an acknowledged nonempty chunk, now or later, changes nothing |
| Uploads.SessionsOnlyAdvance | internal/ingest/uploads.go:64-189 | until an ID is created again its counter only grows and canceled stays canceled |
| Uploads.CanceledIsTerminal | internal/ingest/uploads.go:99-189 | no call brings a canceled session back unless its ID is created again |
| Uploads.CanceledReopensExactlyWhen | internal/ingest/uploads.go:64-87 | creating a canceled ID again works exactly when its file is gone and the file system plays along |
| Uploads.CreationCoversExactlyWhen | internal/ingest/uploads.go:64-87 | in every run a new session is covered by its file if and only if it was not created with a positive byte count |
| ApiKeys.MemoryAPIKeyRepository.CreateAPIKey | internal/auth/api_key_memory.go:19-24 | stores the key under its ID |
| ApiKeys.MemoryAPIKeyRepository.GetAPIKeyByID | internal/auth/api_key_memory.go:39-44 | finds the stored key or nothing |
| ApiKeys.MemoryAPIKeyRepository.RevokeAPIKey | internal/auth/api_key_memory.go:46-58 | revokes once; a second revocation keeps the first time |
| ApiKeys.MemoryAPIKeyRepository.RotateAPIKey | internal/auth/api_key_memory.go:60-76 | revokes the source and stores the replacement together, or changes nothing |
| ApiKeys.MemoryAPIKeyRepository.TouchAPIKeyLastUsed | internal/auth/api_key_memory.go:78-90 | stamps the key only when its last stamp is old enough |
| ApiKeys.NothingIsUndone | internal/auth/api_key_memory.go:19-90 | over every run no key is lost, no identity changes and no revocation time changes |
| ApiKeys.EveryRunIsChained | internal/auth/api_key_memory.go:60-76 | every reachable repository consists of disjoint rotation chains |
| ApiKeys.OnlyTheTipLives | internal/auth/api_key_memory.go:60-76 | only the tip of a chain can be unrevoked; tenant, project, role and expiry are constant along it |
| ApiKeys.ChainsAreSimple | internal/auth/api_key_memory.go:60-76 | no key occurs twice in a chain |
| ApiKeys.ChainsDoNotBranch | internal/auth/api_key_memory.go:60-76 | two lineages that share a key are nested |
| ApiKeys.SuccessorCheckIsRedundant | internal/auth/api_key_memory.go:66-72 | an unrevoked key never has a successor, so the scan for one never refuses |
| ApiKeys.LastUsedTimesAreSpaced | internal/auth/api_key_memory.go:78-90 | successive stored last-used times are at least the interval apart |
| ApiKeyService.SecretNamesItsKey | internal/auth/api_key.go:250-272 | a secret parses to its key exactly when the ID is issuable and the material decodes |
| ApiKeyService.SecretOpensItsKey | internal/auth/api_key.go:196-221 | a key opens for its secret exactly while neither revoked nor expired |
| ApiKeyService.RetiredKeysStayShut | internal/auth/api_key.go:196-221 | once rotated or revoked, no secret authenticates as that key again in any later state |
| ApiKeyService.RotatedOutNeverAuthenticates | internal/auth/api_key.go:77-115 | a key with a successor is shut in every reachable repository |
| ApiKeySecrets.AcceptedExactlyWhen | internal/auth/api_key.go:196-221 | the full condition under which an arbitrary secret is accepted |
| ApiKeySecrets.AnswerExactlyWhen | internal/auth/api_key.go:196-221 | each refusal and the principal, by what the secret presents |
| ApiKeySecrets.WrongSecretIsRefused | internal/auth/api_key.go:205-207 | no secret but the one a key was hashed from authenticates as it |
| ApiKeySecrets.AuthenticatesExactlyWhen | internal/auth/api_key.go:77-221 | in every run a secret authenticates as a key exactly when it is the one returned by the Create or Rotate that wrote the key, and the key is unrevoked, unexpired and fit for use |
| ApiKeyService.APIKeyService.Create | internal/auth/api_key.go:135-179 | a created key opens at once for the returned secret; refusals change nothing |
| ApiKeyService.APIKeyService.Rotate | internal/auth/api_key.go:77-115 | succeeds exactly for a live key of the tenant without successor, shuts it and writes a replacement with the same tenant, project, role and expiry |
| ApiKeyService.APIKeyService.Authenticate | internal/auth/api_key.go:196-221 | the principal of an open key, the fitting refusal otherwise |
| ApiKeyService.APIKeyService.TouchLastUsed | internal/auth/api_key.go:223-242 | the throttle map never exceeds its cap and throttled keys are not written |
| AuditLog.MemoryAuditRepository.Record | internal/audit/repository_memory.go:35-55 | appends the event, filling in a missing ID or time |
| AuditLog.MemoryAuditRepository.Get | internal/audit/repository_memory.go:57-66 | the latest event under an ID |
| AuditLog.MemoryAuditRepository.ListEvents | internal/audit/repository_memory.go:68-166 | sorting and scanning with the start flag lists the page after the cursor |
| AuditLog.ScanPage | internal/audit/repository_memory.go:119-155 | the scan collects the first matching events behind the cursor's event |
| AuditLog.CursorRoundTrip | internal/audit/repository_memory.go:82-98 | a cursor leads back to its event exactly when the ID is nonempty and free of white space |
| AuditLog.CursorParsesExactlyWhen | internal/audit/repository_memory.go:82-98 | which texts scan as a cursor, and of which event key |
| AuditLog.ForeignCursorAnswers | internal/audit/repository_memory.go:82-130 | a text that is no cursor is refused; a cursor whose event is not in the log lists nothing |
| AuditLog.NextPageResumes | internal/audit/repository_memory.go:100-165 | a full page's cursor resumes exactly behind its last event |
| AuditLog.FollowCollects | internal/audit/repository_memory.go:68-165 | following cursors from any point collects what is left, once and in order, in finitely many pages |
| AuditLog.PagesAreFull | internal/audit/repository_memory.go:68-165 | every page but the last is full |
| AuditLog.PagesAreTheLog | internal/audit/repository_memory.go:100-165 | from the empty cursor the pages concatenate to exactly the matching events, newest first |
| AuditLog.PagesNewestFirst | internal/audit/repository_memory.go:68-165 | together the pages list the events that pass every named field once, by time and then ID, newest first, 50 a page by default |
| AuditLog.RecordingAheadChangesNothing | internal/audit/repository_memory.go:35-165 | whatever is recorded ahead of the cursors, between any two page reads, all remaining pages are those of the log as it was |
| AuditLog.EqualKeysRepeatForever | internal/audit/repository_memory.go:122-130 | in every log with two events of one key, the later matching, the cursor naming that key never moves on at one event a page |
| PolicyVersions.VersionsAreGapless | internal/evaluationpolicy/service.go:50-76 | under every interleaving of reads and writes the versions of each tenant, project and name are exactly 1 to n, each once |
| PolicyVersions.PoliciesAreImmutable | internal/evaluationpolicy/memory.go:19-29 | stored policies never change |
| PolicyVersions.OneTenantPerName | internal/evaluationpolicy/memory.go:19-29 | the conflict check ignores the tenant: one tenant's name shuts out every other tenant of the same project ID |
| PolicyVersions.WriteSucceedsExactlyWhen | internal/evaluationpolicy/memory.go:19-29 | in every interleaved run a write succeeds if and only if no other tenant owns the name in that project and nobody took the version since it was read |
| PolicyVersions.SecondTenantIsShutOut | internal/evaluationpolicy/memory.go:19-29 | two tenants, one project ID and one name: the second tenant's first policy is refused |
| PolicyVersions.NextVersion | internal/evaluationpolicy/service.go:64-76 | one more than the greatest stored version, or 1 |
| PolicyVersions.MemoryRepository.Create | internal/evaluationpolicy/memory.go:19-29 | stores the policy or refuses the conflict, changing nothing else |
| PolicyVersions.MemoryRepository.List | internal/evaluationpolicy/memory.go:41-57 | exactly the policies of a tenant's project |
| PolicyVersions.CreatePolicy | internal/evaluationpolicy/service.go:28-62 | in every reachable repository a lone client with valid input succeeds if and only if no other tenant owns the name, and then stores the next version |
| WorkerPool.StepKeepsInv | benchmark.go:200-248 | every step keeps each dispatched index in exactly one place |
| WorkerPool.RunKeepsInv | benchmark.go:200-248 | so does every interleaved run |
| WorkerPool.ResultSendsNeverBlock | benchmark.go:200-248 | the result channel always has room |
| WorkerPool.DispatchedExactlyOnce | benchmark.go:200-248 | each dispatched index is processed exactly once |
| WorkerPool.NoDeadlock | benchmark.go:200-248 | until the call returns some step is possible, cancelled or not |
| WorkerPool.StepsMakeProgress | benchmark.go:200-248 | a measure decreases with every step of the pool |
| WorkerPool.RunsAreBounded | benchmark.go:200-248 | no run exceeds a bound given by the job and worker counts |
| WorkerPool.ReturnedRuns | benchmark.go:200-248 | an uncancelled run finishes if and only if no query fails, a finished run has collected every index exactly once, and no run leaves a worker behind |
| Raptor.ChunkGroups | internal/ingest/raptor.go:90-100 | the slicing loop cuts a level into its groups |
| Raptor.GroupsPartition | internal/ingest/raptor.go:90-100 | groups are nonempty, within the branch factor, full except the last, concatenate to their level, and are as many as a ceiling division says |
| Raptor.BuildLevel | internal/ingest/raptor.go:41-71 | one level's nodes up to the first failing call |
| Raptor.Build | internal/ingest/raptor.go:25-73 | the level loop computes the summaries of all levels, with defaulted and clamped options |
| Raptor.LevelCoversExactlyWhen | internal/ingest/raptor.go:37-72 | the child lists of a level, joined, are the joined IDs of the previous level in order, if and only if no summary failed or was blank |
| Raptor.ChildIDsReadBack | internal/ingest/raptor.go:102-108 | comma-free IDs can be read back from their joined text |
| Raptor.LevelShrinks | internal/ingest/raptor.go:37-72 | level sizes are repeated ceiling divisions that strictly shrink |
| Raptor.NodeIDsAreDistinct | internal/ingest/raptor.go:110-112 | node IDs of a tree are pairwise distinct, whatever fails |
| Raptor.BuildIsItsLevels | internal/ingest/raptor.go:37-73 | the returned summaries are the levels one after the other |
| Raptor.NodesExactly | internal/ingest/raptor.go:37-72 | a level has one node for each group whose summary has text: that text, the level, the group's IDs |
| Raptor.FailureCutsShort | internal/ingest/raptor.go:41-73 | a failing call leaves the beginning of the tree that would have been built, and nothing is missing from a complete one |
| Raptor.OneRootExactlyWhen | internal/ingest/raptor.go:37-72 | the tree ends in a single root if and only if the chunks number at most the branch factor to the power of the levels |
| Targets.ParseTargets | internal/config/config.go:875-904 | the parsing loop yields the entries with each key once, or the first error |
| Targets.FormatTargets | internal/config/config.go:906-918 | the printing loop joins the entries of the nonempty targets |
| Targets.RoundTripExactlyWhen | internal/config/config.go:875-918 | parsing the printed list gives it back without later duplicates, if and only if every target is trimmed, nonempty, free of commas and colons and keys tell the targets apart |
| Targets.NulFreeRoundTrip | internal/config/config.go:875-918 | in particular for NUL-free targets |
| Targets.ReparseIsStable | internal/config/config.go:875-918 | printing and re-parsing any successful parse gives the same list |
| Targets.FirstOfKeysExactlyWhen | internal/config/config.go:897-901 | removing by key removes exactly the repeats if and only if no two targets share a key |
| Targets.ParsedTargetsArePrintable | internal/config/config.go:880-903 | every parsed target is trimmed, nonempty and free of commas and colons, and keys are distinct |
| Targets.ParsesExactlyWhen | internal/config/config.go:875-904 | a text parses exactly when it is blank or each comma-separated part has one colon between two names; otherwise the first bad part decides the error |
| Targets.PrintingSkipsEmpty | internal/config/config.go:906-918 | printing skips exactly the targets that are empty on both sides |
| Targets.NulsLoseATarget | internal/config/config.go:897-901 | two different targets with a NUL share a key and one is lost |

## Left out

- Floating point is modelled by exact reals: no rounding, NaN or infinity. A square root is a nonnegative number whose
  square is given; `1 / log2(rank + 1)` is any positive strictly decreasing discount; the Wilson constant is any
  positive number.
- `math/rand` is an arbitrary stream of valid draws, which includes every seeded one.
- Clocks, generated IDs and secret material are parameters; lemmas about runs assume generated IDs are fresh.
- Hashing, HMAC and base64 are function parameters; lemmas about wrong secrets assume that the hash is injective.
- Text is a sequence of Unicode scalar values; invalid UTF-8 is not modelled.
- Integers are unbounded: overflow of 64-bit sizes, offsets and times is not modelled.
- Locks are taken as given: each method of a locked store is one step. Interleaving is modelled where a service reads and
  writes in separate steps (policy versions, rotations, usage stamps) and in the worker pool.
- Uploads: paths are pairs of tenant and upload ID; cleaning of path separators is not modelled.
- The delete and graph methods of the composite indexer.
- Ingestion stages before the indexer are reduced to their error or success; of the warnings joined into the job's
  error text only the indexer's cleanup warning is modelled.
- The aggregation of absolute judge scores (`aggregateJudgeOutputs`) and the text joined from raw responses.
- Which metrics are eligible, which pairs are compared, and the thresholds of `Freeze` and `RecordEvidence`.
- Policy and key listings promise their contents, not their order; `ListAPIKeys` is left out.
- Repository errors inside the API-key service: the in-memory repository has none.
- Raptor: prompts and the cleaning of summaries are one function from a group to a summary or a failure.
- HTTP, SQL, vector stores, model providers, the command line and the console.
- AuditLog.PagesAreTheLog: assumes distinct (time, ID) pairs and IDs free of white space, without which it is false
  (`EqualKeysRepeatForever`, `CursorRoundTrip`).
- Statistics.AggregateRun: assumes positive item weights, which the run's own weight function guarantees, and leaves out
  the token and cost totals and the entries of the metrics map that repeat the answer score under other names.
- DiversityBounds.FlatReferencesBoundTheScore: gives a sufficient condition only. Whether some ranking of overlapping
  references beats the greedy one is a coverage problem without a simple test; `BoundedExactlyWhenDominated` is exact
  for all discounts together.
- DiversityBounds.FlatIdealIgnoresOrder: sufficient only, for the same reason; so is `AlikeTiesFixTheIdeal`.
- Percentiles.PercentileMilliseconds: assumes a share of at most 1; above it the source indexes out of range.
