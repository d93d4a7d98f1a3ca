# Statistics and probing of a DNS monitor

This project models the backend of a DNS monitor: the store that keeps probe rounds and the statistics drawn from
them, the scheduler and its workers, and the trusted evidence other servers are compared with. Every module is a
Dafny model of one part, with the properties that part is meant to have.

**The statistics store.** A formal round covers the time from its finish to its `coveredUntil`; saving a round clips
it and its predecessor, retention deletes rounds. `Timeline` and `Arrivals` prove that coverage never overlaps in any
run, and exactly when the incremental repair agrees with "sort, then clip". `Evidence` and `Database` define the sums,
verdicts and dates as recomputations and prove that every transaction keeps the materialised columns equal to them.
`TransactionMeaning` says column by column what each transaction leaves, and `Store` carries the transactions out step by
step, in batches where the program does. `Evaluation`, `CurrentEvaluation` and `History` compute a window's statistics in
three ways and prove that they agree; `WindowMeaning` proves that these sums count stored results and milliseconds. `Rating`
turns them into percentages, a P95 and a score, and `Reports` carries the results over to every reachable database.
`Snapshots` proves that the evaluation captured with a round depends on nothing that finishes later. `StatusHistory`,
`WalkResults` and `SummaryCache` cover the status strip, the paged export and the summary cache under concurrent writers.

**The monitor.** `RefreshBatch` is the scheduler's bookkeeping, one method per critical section, and `BatchMeaning` what
each of them does to servers, queue and batch. `SlotGate` and `Collections` are the slots and the shared reference
collections; `Probing` lets any number of workers interleave over them and proves mutual exclusion, no lost wakeup, no
deadlock and the pause between collections. `LookupCache` is the cache of trusted lookups.

**Trusted evidence.** `TrustedPool` and `TrustProtocol` are the pool and the epochs that keep revoked evidence out of
it, and `PoolMeaning` what each transaction does to its rows; `Ranking` and `Eviction` are the ordered deletion both limits
use. `ReferenceWindow` compares pruning with reading, and `PruningOverTime` compares whole runs with their prunings and
without. `Comparison` is the verdict on a target's answers, and `PooledReferences` what the pool makes of it.
`RequestedRecords` follows CNAME chains, `ProbedAnswers` carries its records on to the verdict, and `Stamp` relates the
three parsers of DNS stamps.

Conventions: a table is a sequence of rows ordered by id or a map; a SQL statement is a function on tables or a loop
over them, and a transaction commits one new database value. Times are integers in milliseconds, latencies and ratios
are reals. Clocks, query results and the iteration order of maps are parameters or nondeterministic choices. A run is a
sequence of steps, in any order; a step that is not possible changes nothing.

Three properties hold under a condition, and each is stated with its exact one. The timeline follows "sort, then clip"
after an insertion exactly when no round of the server finished at the same time (`InsertionExactIffNoTie`), and does
not depend on the order of saving exactly when no tie of a server is followed by a later finish of it
(`ArrivalOrderIrrelevantIff`; `TiesMakeOrderMatter` shows an input). Pruning the trusted pool is invisible to a later
read exactly when that read looks no further back than the pruning did, if nothing is saved in between
(`PruningIsInvisibleIff`). Saves in between add two conditions, each exact for its own statement: an upsert shows the
pruning when a pruned row would have refused the record (`StoringStaysThinIff`, `StoreShowsIff`), and a limit shows it
when it would have dropped a row that is left while keeping a pruned one (`CuttingStaysThinIff`, `CutShowsIff`, and
`SavingStaysThinIff` for both limits of a save). `BackdatedSaveShows` and `LimitMakesPruningShow` are such runs. Over
all runs in which neither happens the condition on the read is again exact (`PruningsAreInvisibleIff`), and a run that
passes no limit and saves in order is one of them (`PruningsAreInvisibleWithRoom`).

`dafny verify dfyconfig.toml` checks the project.

## Model

| member | source | states |
|---|---|---|
| Timeline.QueryMinFinished | internal/store/store.go:277-284 | the loop over the table finds the least finish time of the server's formal rounds at or after the given one, or none |
| Timeline.QueryLastIndex | internal/store/store.go:295 | the loop finds the last formal round by (finish, id) that finished no later than the given time, or none |
| Timeline.InsertionKeepsConsistent | internal/store/store.go:276-298 | clipping the new interval and re-clipping its predecessor keeps every interval inside [finish, deadline] and all intervals of a server disjoint, in any finish order and with any ties |
| Timeline.DeletionKeepsConsistent | internal/store/store.go:588-601 | deleting any set of rounds keeps the timeline consistent |
| Arrivals.CoverageNeverOverlaps | internal/store/store.go:276-298 | after any run of saves and deletions two formal rounds of one server never cover the same time, and none covers past its own deadline |
| Timeline.InsertionExactIffNoTie | internal/store/store.go:276-298 | on a timeline where every round covers until the next finish or its deadline, an insertion keeps that formula if and only if no formal round of the server finished at the same time |
| Timeline.TieLosesCoverage | internal/store/store.go:278-298 | after an insertion with a tie, the new round and every round it ties with cover nothing |
| Arrivals.TiesMakeOrderMatter | internal/store/store.go:278-298 | three concrete rounds, two of them tied and one later, whose coverage depends on the order they are saved in |
| Timeline.AuxiliaryKeepsExact | internal/store/store.go:246-248 | an auxiliary round never alters the formal timeline |
| Timeline.ExactMeansDistinct | internal/store/store.go:276-298 | the exact formula can only hold when the finish times of a server are distinct |
| Timeline.OldestFirstKeepsExact | internal/store/store.go:588-601 | deleting all rounds that finished before a cutoff keeps the exact formula for the rest |
| Timeline.DroppingOneExactIff | internal/store/store.go:1014-1016 | dropping one middle round without re-extending its predecessor keeps the exact formula if and only if there is no predecessor or it was due by then |
| Arrivals.PlayIsExact | internal/store/store.go:276-298 | saving any sequence of probes with distinct finish times per server gives the exact timeline |
| Arrivals.PlaySettles | internal/store/store.go:276-298 | as long as no tie of a server is followed by a later finish of it, each round ends up covering nothing if it ties and else until the next finish or its deadline, whatever the order |
| Arrivals.ArrivalOrderIrrelevantIff | internal/store/store.go:276-298 | every arrival order of the same probes gives the same coverage if and only if no two formal rounds of a server tie while a third one of that server finishes later |
| Arrivals.ArrivalOrderIrrelevant | internal/store/store.go:276-298 | in particular the order is irrelevant for distinct finish times per server |
| Arrivals.SortThenClip | internal/store/store.go:276-298 | the incremental repair refines "sort by finish time, then clip at the next finish or the deadline" |
| Evidence.PrunedIsFresh | internal/store/store.go:549-576 | after pruning, the least timestamp left in the evidence is 0 or not before the cutoff, so the row is not selected again |
| Evidence.FreshKeepsEverything | internal/store/store.go:550-569 | pruning evidence that is all inside the retention window changes nothing |
| Evidence.SkippedIsFresh | internal/store/store.go:518 | a row the indexed query skips has no positive timestamp older than the cutoff, so only fresh evidence if all its timestamps are positive |
| Evidence.OldestIsLeast | internal/store/store.go:958-973 | the indexed column holds the least positive timestamp found anywhere in the evidence, or 0 if there is none |
| Evidence.BucketMeaning | internal/store/store.go:266 | a latency is counted under its whole milliseconds, rounded up, and under 3600000 from an hour on |
| Database.SavingKeepsInvariant | internal/store/store.go:248-344 | after a committed round every materialised sum, verdict and evidence date equals its recomputation |
| Database.OverridingKeepsInvariant | internal/store/store.go:373-388 | so it does after a manual verdict or its withdrawal |
| Database.LastVerdictWins | internal/store/store.go:373-388 | a second verdict on the same subject leaves the database as if the first had never been given |
| Database.CurrentVerdictIsStable | internal/store/store.go:373-388 | re-applying the verdict in force changes nothing |
| Database.OverrideThenAutoRestores | internal/store/store.go:373-388 | a manual verdict followed by "auto" gives what no verdict would have given; the very same database when there was none before |
| Database.DroppingKeepsInvariant | internal/store/store.go:588-601 | deleting rounds with their results keeps every materialised column right |
| Database.DeletingServerKeepsInvariant | internal/store/store.go:185-196 | deleting a server with everything recorded for it keeps every materialised column right |
| Database.PruningKeepsInvariant | internal/store/store.go:549-580 | one batch of evidence pruning keeps every materialised column right |
| Database.TrimmingKeepsInvariant | internal/store/store.go:629-637 | deleting the expired results of one round and rebuilding or removing the round keeps every materialised column right |
| Database.CleanedUpIsFresh | internal/store/store.go:508-645 | what retention leaves has no round, result or positive evidence timestamp older than the cutoff, and its sums still match |
| Database.MigrationEstablishesInvariant | internal/store/migration.go:21-36 | whatever codes the first schema held, the rewritten columns agree with the current policy; without an override nothing stays convicted |
| Database.ApplyKeepsInvariant | internal/store/store.go:161-393 | every committed transaction keeps the invariant |
| Database.EveryRunIsRecomputable | internal/store/store.go:248-393 | in every reachable database a round's sums, histogram and worst verdict equal the fold over its results under the verdicts in force |
| TransactionMeaning.AcceptableMeaning | internal/store/store.go:248-251 | a report is accepted exactly for a known server with 0 < started <= finished < next due and finite latencies |
| TransactionMeaning.SavedMeaning | internal/store/store.go:276-328 | a committed save keeps all old results and appends one row for each new one, with the server, subject, detected code, policy, flags, latency and evidence reported, the round's finish for a missing timestamp, and the effective code 2 or 4 under a manual verdict, 0 for code 4 under an old policy and else as detected; the new round bears the report's times and the worst of these codes, and of the old rounds only the end of coverage may change |
| TransactionMeaning.OverrideAllowedMeaning | internal/store/store.go:346-366 | a manual verdict needs a domain, a type and a known server, and cannot call a trusted server polluted |
| TransactionMeaning.OverriddenMeaning | internal/store/store.go:373-388 | it is remembered or withdrawn, sets the effective code of every stored result on its subject to 2, 4 or what was detected, and so the worst code of their rounds; every other column stays |
| TransactionMeaning.ServerDeletedMeaning | internal/store/store.go:185-196 | what goes with a server is exactly its rounds, results and manual verdicts |
| TransactionMeaning.DroppedMeaning | internal/store/store.go:588-601 | what goes with rounds is exactly their results |
| TransactionMeaning.TrimmedMeaning | internal/store/store.go:629-637 | trimming takes away a round's results older than the cutoff, removes the round with the last of them and otherwise changes only its sums |
| TransactionMeaning.PrunedMeaning | internal/store/store.go:549-576 | only a row whose oldest timestamp is positive and before the cutoff is touched; of its evidence exactly the references collected since that had no records or still have one survive, in order, each with its timestamp and exactly its records observed since, in order |
| TransactionMeaning.CleanedUpMeaning | internal/store/store.go:508-645 | after the whole cleanup a round is left exactly if it finished since the cutoff and had no result or still has one; its results since the cutoff are left; and of these everything but old evidence |
| TransactionMeaning.MigratedMeaning | internal/store/migration.go:21-36 | old code 1 becomes 2, 2 becomes 4 and any other 0; the effective code is 2 or 4 under a manual verdict and never an old automatic 4; each round bears the worst of its rows |
| Store.SumReport | internal/store/store.go:257-275 | the loop over a report gives the sums and histogram that a recomputation from the stored rows would give |
| Store.InsertResults | internal/store/store.go:299-326 | inserts one row per result in order, tracks the worst effective verdict, and fails exactly when a latency is not a finite number |
| Store.InsertRound | internal/store/store.go:276-298 | the queries and updates of the round rows amount to the specified insertion |
| Store.Store.SaveRound | internal/store/store.go:248-344 | commits exactly the specified database, and for a formal round the evaluation captured with it, and bumps the version; or rejects the report, also when the evaluation fails, and changes nothing; says exactly when |
| Store.CaptureSnapshot | internal/store/status_history.go:15-43 | inside the transaction, captures the evaluation at the round's finish, with the quality shown for a trusted server, or fails exactly when the thresholds are invalid |
| Store.Store.SaveOverride | internal/store/store.go:346-393 | the same for a manual verdict, refused for an empty subject, an unknown server, or convicting a trusted server |
| Store.Store.DeleteServer | internal/store/store.go:185-196 | deletes the server with everything recorded for it, or reports that there is none |
| Store.Store.Migrate | internal/store/migration.go:8-59 | refuses newer schemas, rewrites the first one, and leaves a database that satisfies the invariant |
| Store.Store.PruneReferences | internal/store/store.go:512-587 | the loop of batches of 250 ends with every result pruned |
| Store.Store.DropExpired | internal/store/store.go:588-601 | the loop of batches of 1000 ends with exactly the expired rounds and their results gone |
| Store.Store.TrimPartlyExpired | internal/store/store.go:602-645 | the loop of batches of 100 ends with every partly expired round rebuilt from what is left, or gone when nothing is |
| Store.Store.TrimRounds | internal/store/store.go:629-638 | the inner loop rebuilds every round of a batch and drops the snapshots of those that go |
| Store.Store.Cleanup | internal/store/store.go:508-669 | the three phases together: which rounds, results, snapshots and evidence survive, with the invariant kept |
| Evaluation.CoverageSplits | internal/store/store.go:774-775 | covered and available time of a span are the sums over its two parts |
| Evaluation.CoverageFits | internal/store/store.go:774 | on every consistent timeline covered time never exceeds the span |
| Evaluation.AvailabilityFits | internal/store/store.go:775 | available time lies between 0 and the covered time |
| Evaluation.CountsSplit | internal/store/store.go:770-776 | counts, latency sums, worst verdict and histogram of a range of finish times are those of its two parts together |
| Evaluation.HistogramMatchesCount | internal/store/store.go:797 | a window's histogram has exactly one entry per counted latency |
| Evaluation.Summarize | internal/store/store.go:769-811 | the scan of every round that touches the window gives the sums over all of the server's rounds |
| Evaluation.OnlyOnePredecessorReaches | internal/store/current.go:46-53 | because of the timeline, no round before the window other than its single predecessor reaches into it |
| Evaluation.CurrentSums | internal/store/current.go:48-82 | the query over the window's rounds and one predecessor gives the same sums as the scan of all rounds |
| Evaluation.ReceivedFits | internal/store/current.go:130-132 | no more results are received than sampled in a window |
| Evaluation.WindowIsMeaningful | internal/store/store.go:769-776 | covered time fits the window and available time the covered time, without any clamp |
| WindowMeaning.CoveredIsMoments | internal/store/store.go:774 | covered time is the number of milliseconds of the span that some formal round of the server covers |
| WindowMeaning.OneRoundAvailability | internal/store/store.go:775 | for one round, available time times its results is the time it covers times the results received |
| WindowMeaning.FlawlessIsAvailable | internal/store/store.go:775 | if every round that covers part of the span received all its results, all covered time is available |
| WindowMeaning.SilentIsUnavailable | internal/store/store.go:775 | if none of them received any, none is |
| WindowMeaning.RoundCountsResults | internal/store/store.go:257-275 | the materialised counts of a round are the numbers of its stored results, of those received, successful and timed |
| WindowMeaning.WindowCountsResults | internal/store/store.go:770-773 | the counts of a window are the numbers of stored results of the server's formal rounds that finished in it; the latency sum is theirs and the worst code one of theirs |
| WindowMeaning.AvailableIsUptime | internal/store/store.go:775 | available time is, added over the rounds, the time covered times the stored results received over the stored results |
| WindowMeaning.ReachableSumsMean | internal/store/store.go:746-800 | all of this in every reachable database, for every server and span |
| CurrentEvaluation.QueryWorstSeverity | internal/store/current.go:109-112 | the loop finds the worst severity among the results of a round that take part |
| CurrentEvaluation.QualityMeaning | internal/store/current.go:102-126 | what each quality says about the answers of the latest round: unknown outranks matched and clean, and other record types only count through a verdict |
| CurrentEvaluation.GradeMeaning | internal/store/current.go:134-151 | each grade if and only if its condition; a pending grade if and only if it comes with a reason |
| CurrentEvaluation.ValidMeaning | internal/store/current.go:39-41 | when there is an evaluation: a positive time, window and sample threshold, and a coverage threshold within the window |
| CurrentEvaluation.LatestDecides | internal/store/current.go:87-126 | a server is down exactly when its last formal round had results and no success; the quality is that round's if it finished in the window, 1 for a trusted server and 0 otherwise |
| CurrentEvaluation.ReportMeaning | internal/store/current.go:42-151 | over the last windowMinutes minutes: which grade is unavailable, which quality is shown, availability as available over covered time or, before any coverage, as received over all results, success rate and coverage likewise, and the score as their weighted sum unless the server is unavailable or polluted |
| CurrentEvaluation.EvaluateCurrent | internal/store/current.go:33-153 | the whole evaluation, refused exactly for an invalid time or thresholds, is the report for the window's sums and percentile, the latest round's quality and the latest formal round on record |
| CurrentEvaluation.ReportFits | internal/store/current.go:127-134 | percentages are percentages and the score is at most 100 times the weights, also before anything is covered |
| CurrentEvaluation.LaterRoundLeaksIff | internal/store/current.go:46-61 | asked for any moment, the sums change with a round that finishes later if and only if the round it follows had been cut short before that moment |
| Snapshots.SnapshotIsFinal | internal/store/status_history.go:12-39 | whatever reports that finish later are saved after a round, of any server, the evaluation captured with it is the one the same moment would still give: sums, percentile, quality and grade |
| Snapshots.LateSaveSeesNoFuture | internal/store/status_history.go:12-39 | a round saved late, with rounds that finish later already stored, captures what it would have captured before them |
| Snapshots.SnapshotIsTimeless | internal/store/status_history.go:12-39 | the report at a round's finish is the same whether nothing later is stored or any reports that finish later are saved before it and after it, on every database that satisfies the invariant, with tied finish times or without |
| Snapshots.CapturingKeepsAttached | internal/store/status_history.go:40-42 | a new snapshot never overwrites an older one although round ids are reused, and every snapshot belongs to a stored formal round that finished when it was taken |
| Snapshots.LiveStaysAttached | internal/store/store.go:73-77 | deleting rounds deletes their snapshots and leaves the others attached |
| Snapshots.CapturedMeaning | internal/store/status_history.go:12-43 | a formal round adds one snapshot, of its server at its finish, with quality 2 for a trusted server and the report's otherwise; an auxiliary round adds none |
| Snapshots.LiveMeaning | internal/store/status_history.go:40-42 | a snapshot lives exactly as long as its round |
| History.PointsTile | internal/store/store.go:859-866 | the points tile the window and number between 1 and 1000 |
| History.StepMeaning | internal/store/store.go:859-865 | a point is as long as requested, five minutes by default, unless that takes more than 1000 points; then as short as 1000 points allow |
| History.DivisionPicksPoint | internal/store/store.go:884-887 | the division-based index picks the one point whose range contains the finish time |
| History.SpreadCoverage | internal/store/store.go:904-923 | the inner loop adds to every point exactly the part of the round's coverage inside it |
| History.AddRound | internal/store/store.go:883-924 | one round is added to its points and to the total |
| History.FirstQuery | internal/store/store.go:871-924 | the first pass leaves in every point the sums over its own span, without histograms |
| History.PlaceHistogram | internal/store/store.go:930-943 | a round's histogram goes to the point that counts it, and to the total |
| History.SecondQuery | internal/store/store.go:930-943 | the second pass completes the histograms of the points and the total |
| History.Chart | internal/store/store.go:847-955 | every point equals the reference sums over its own span, and the total those over the window, which are also the summary's |
| History.ChartConserves | internal/store/store.go:866-943 | summed over its points the chart gives exactly its totals |
| History.PointFitsItsLength | internal/store/store.go:913-923 | no point covers more than its own length, and its histogram has one entry per counted latency |
| Rating.SortedKeys | internal/store/store.go:702-706 | the keys of a histogram in strictly ascending order |
| Rating.RankedKey | internal/store/store.go:702-715 | the loop over the sorted keys stops at the entry of rank ceil(0.95 n) of the histogram listed in ascending order |
| Rating.Percentile | internal/store/store.go:700-716 | the reported percentile of any histogram, 0 for an empty one |
| Rating.ListedOnce | internal/store/store.go:702-715 | a histogram has only one ascending listing, so its percentile is well defined |
| Rating.P95OfSamples | internal/store/store.go:702-715 | for rounded-up latencies it is the rounded-up sample of rank ceil(0.95 n) and exceeds that clamped sample by less than 1 ms |
| Rating.P95IsRank | internal/store/store.go:702-715 | at least 95 percent of the entries of a histogram are at most the percentile, and fewer than 95 percent are below it |
| Rating.PercentagesMean | internal/store/store.go:689-724 | availability is 100 times available over covered time, coverage and success rate likewise; the latency score falls in a straight line from 100 at 200 ms to 0 at 2000 ms |
| Rating.GradesMean | internal/store/store.go:725-744 | each grade by the worst code, the thresholds and the weighted score: F for 4, E for 3, pending before the thresholds, then A from 95, B from 85, C from 70 and D below |
| Rating.PercentagesFit | internal/store/store.go:689-724 | for meaningful sums every percentage lies in 0..100 and the coverage clamp never acts |
| Rating.ScoreFits | internal/store/store.go:725-729 | the score lies between 0 and 100 times the sum of the weights |
| Rating.MetricsFit | internal/store/store.go:689-744 | both, for every window of every consistent timeline |
| Reports.ReachableIsSane | internal/store/store.go:248-669 | every reachable table of rounds meets what the statistics rely on |
| Reports.SummaryFits | internal/store/store.go:816-817 | in every reachable database the summary's figures of a server, trusted or not, are within their bounds |
| Reports.ChartFits | internal/store/store.go:951-954 | so are the figures of every point of the chart, over the point's own length |
| Reports.TrustRestoresScore | internal/store/trust.go:11-20 | trusting a server removes any convicting grade and restores the score its sums deserve; nothing changes for a server that was not convicted |
| Reports.SummaryMeaning | internal/store/store.go:725-744 | the summary grades a server F for code 4 and E for 3 unless it is trusted, and otherwise only from 10 results and 30 minutes of coverage on; its availability and success rate are those shares of the covered time and of the results |
| Reports.WindowBuckets | internal/store/store.go:797-808 | a window's histogram holds the buckets of exactly the latencies of the successful results counted in it |
| Reports.WindowP95 | internal/store/store.go:700-716 | in every reachable database the percentile reported for a window is the rounded-up latency of the result ranked ceil(0.95 n) among those counted |
| StatusHistory.BucketsTile | internal/store/status_history.go:55-67 | the buckets tile the range and number at most 48, 56 or 60 |
| StatusHistory.BucketsMean | internal/store/status_history.go:55-67 | at most 48 buckets up to a day, 56 up to a week and 60 beyond, each as short as that allows |
| StatusHistory.WorstColourMeaning | internal/store/status_history.go:95-100 | a bucket's quality is the furthest from the best in matched, clean, unknown, suspicious, polluted; its grade in A, B, C, D, pending, E, F, unavailable |
| StatusHistory.ExactlyOneBucket | internal/store/status_history.go:74-76 | every snapshot in the range belongs to exactly one bucket, the one the division picks |
| StatusHistory.ColoursAreWorst | internal/store/status_history.go:95-100 | a bucket's colours are the worst statuses of its members, and occur among them |
| StatusHistory.CountSnapshots | internal/store/status_history.go:81-101 | after the loop every bucket describes exactly the snapshots of its time range |
| StatusHistory.LatestBetween | internal/store/status_history.go:120-122 | the last snapshot by (timestamp, round) in a time range |
| StatusHistory.LatestOf | internal/store/status_history.go:108-119 | the time-range lookup of a bucket finds a snapshot exactly when the bucket counted one, and it is the bucket's latest |
| StatusHistory.Lookups | internal/store/status_history.go:107-131 | the lookups fill in the latest snapshot of every bucket and change nothing else |
| StatusHistory.Strip | internal/store/status_history.go:51-136 | the whole strip, refused exactly for an invalid range |
| WalkResults.QueryPage | internal/store/store.go:466-491 | a page is the first 200 matching rows below the cursor, in descending order |
| WalkResults.MaxId | internal/store/store.go:461-464 | the snapshot id is the highest id in the table at the start |
| WalkResults.SnapshotSettles | internal/store/store.go:461-467 | because new ids exceed every id ever issued, no row up to the snapshot id appears later |
| WalkResults.Walk | internal/store/store.go:460-504 | with arbitrary writes between pages the walk ends, visits in descending order and at most once only wanted rows that existed at the start, and every one that is still there; exactly those that existed at the start when rows are only inserted |
| WalkResults.InsertsDoNotDisturb | internal/store/store.go:460-504 | when rows are only inserted meanwhile, what is visited is exactly the wanted rows that existed at the start |
| WalkResults.WalkMeaning | internal/store/store.go:460-504 | what is visited is exactly the rows since the given time of the given server, or of all for 0, by time and then id, newest first |
| SummaryCache.StepKeepsInvariant | internal/store/store.go:746-755 | under any interleaving of commits, version bumps and reads, what a query saw includes every write settled when its version was noted |
| SummaryCache.HitIsFresh | internal/store/store.go:752-755 | a cache hit is under five seconds old, for the same duration, and every query behind it ran after each write whose bump finished before the call |
| SummaryCache.UnsettledWriteMayBeMissed | internal/store/store.go:340-342 | a write that has committed but not bumped the version may be missing from a hit |
| Ranking.FirstRowsAreFirst | internal/store/references.go:57-62 | keeping the first n rows of an ordered query keeps n if there are that many, each ahead of every row dropped |
| Ranking.FirstRowsOfSubset | internal/store/references.go:57-62 | on fewer rows the same limit keeps every row it kept, and it keeps no other if and only if it had dropped none of those rows or kept only those |
| TrustedPool.TrustedStore.SaveTrustedObservation | internal/store/references.go:19-66 | the transaction stores the records of a probe whose source is unchanged, trims the subject and the pool, and otherwise changes nothing |
| TrustedPool.TrustedStore.SaveServer | internal/store/migration.go:46-52 | an update of trust, enablement or address empties the server's share of the pool and raises its epoch; any other update does neither |
| PoolMeaning.EditMeaning | internal/store/migration.go:46-52 | an edited server has exactly the new address, enablement and trust; if one of them changed its epoch rises by one and its rows leave the pool, and otherwise neither |
| PoolMeaning.StoringMeaning | internal/store/references.go:39-56 | each key then holds the latest of its old row and of the records for it; a record's row bears its TTL and time and expires with it, within 30 days |
| PoolMeaning.TrimmingKeepsLatest | internal/store/references.go:57-65 | a limit keeps at most that many rows and drops one only when so many are kept, none of them observed before it |
| PoolMeaning.ObservedMeaning | internal/store/references.go:19-65 | the whole transaction: it passes exactly for a live, enabled, trusted server at the address and epoch probed, stores the records, and cuts the subject to 256 and the pool to 16384 rows |
| Eviction.TrimmingEvictsOldest | internal/store/references.go:57-62 | trimming keeps at most the limit, drops only when it is reached, and drops the least recently observed |
| TrustProtocol.StepKeepsInvariant | internal/store/references.go:29-38 | every step of editing, deleting, probing, saving and pruning keeps the protocol's invariant |
| TrustProtocol.PoolNeverHoldsRevokedEvidence | internal/store/references.go:19-66 | in every run a pooled observation belongs to a trusted, enabled server at the same address, its probe began after the last change of any of these, and the pool is within both limits |
| TrustProtocol.AcceptedIffUntouched | internal/store/references.go:29-38 | a save is accepted if and only if the server was trusted and enabled when the probe began and nothing that matters to trust has changed since |
| ReferenceWindow.PrunableIffNotReference | internal/store/references.go:83-87 | pruning removes exactly the rows that are no reference now |
| ReferenceWindow.PruningIsInvisibleIff | internal/store/references.go:112-116 | with nothing saved in between, a later read under any history setting returns what it would have without pruning, whatever the pool held, if and only if it looks no further back than the pruning did |
| ReferenceWindow.PruningIsInvisible | internal/store/references.go:112-116 | with nothing saved in between, in particular under any setting not larger, for any rows |
| ReferenceWindow.LongerHistoryMayMissPruned | internal/store/references.go:112-116 | pruned under one hour of history, a read under two hours misses a row at once, but none an hour later |
| PruningOverTime.UpsertStaysThinIff | internal/store/references.go:44-52 | one upsert keeps the pruned pool equal to the unpruned one less rows that were to be pruned, if and only if no pruned row would have refused the record as observed earlier |
| PruningOverTime.StoringStaysThinIff | internal/store/references.go:39-56 | so do the upserts of a whole probe, whose records bear one time, if and only if none of them is so refused |
| PruningOverTime.CuttingStaysThinIff | internal/store/references.go:57-62 | one limit keeps them so if and only if, in the unpruned pool, it drops none of the rows left or keeps only those; in any case the pruned pool keeps every row of its own that the other one keeps |
| PruningOverTime.SavingStaysThinIff | internal/store/references.go:39-65 | a whole save without backdated records keeps them so if and only if its two limits together are fair: the one on the pool keeps only rows that are left, or drops none of them after a fair one on the subject |
| Ranking.TwoCuts | internal/store/references.go:57-62 | two such limits in a row, the first on part of the table: on fewer rows they keep nothing new if and only if the second keeps only those rows, or drops none of them after a first one that kept nothing new either |
| PruningOverTime.RunStaysRelated | internal/monitor/monitor.go:202-205 | over any smooth run of edits, deletions, probes, saves and prunings, the run with its prunings and the run without them have the same servers and probes in flight, and pools that differ only by rows that were to be pruned |
| PruningOverTime.PruningsAreInvisibleIff | internal/store/references.go:73-90 | over all smooth runs with given prunings, a later read returns what it would without any of them if and only if it looks no further back than each of them |
| PruningOverTime.PruningsAreInvisibleWithRoom | internal/store/references.go:44-62 | in particular over every run in which no save, without pruning, passes a limit or brings a record observed before the row it would replace |
| PruningOverTime.CutShowsIff | internal/store/references.go:57-62 | a limit applied to a pool just pruned gives different references to some read that looks no further back, if and only if it would have dropped a row the pruning left while keeping one it dropped |
| PruningOverTime.StoreShowsIff | internal/store/references.go:44-52 | so does a record stored, if and only if the pruned row would have refused it and its own expiry lies after the pruning |
| PruningOverTime.LimitMakesPruningShow | internal/store/references.go:57-59 | a run: 255 expired rows and one live row of a subject are pruned, one more record is saved, and the live row is read only because of the pruning |
| PruningOverTime.BackdatedSaveShows | internal/store/references.go:49-52 | a run: a record observed before a pruned row is read only because of the pruning |
| ReferenceWindow.SavedRecordIsWellFormed | internal/store/references.go:44-52 | the expiry stored for a record lies between its observation and both its TTL and the retention bound |
| ReferenceWindow.ReferencesMean | internal/store/references.go:73-82 | a row is read exactly if its server is trusted, enabled and at the row's address, and it was observed in the last 30 days and is unexpired or inside the history window of at most 720 hours |
| PooledReferences.QueryAgreesWithComparison | internal/monitor/comparison.go:79-87 | for stored rows observed by now and history up to 720 hours, the SQL filter and the comparison's own test agree on the row |
| PooledReferences.HasUsableReference | internal/monitor/references.go:158-170 | the loops over references and records find a record that counts exactly when a usable reference has one |
| PooledReferences.KnownIffRead | internal/monitor/comparison.go:19-33 | an address is known to the comparison exactly when the query returned a row with it |
| PooledReferences.PoolIsUsable | internal/monitor/references.go:32-35 | the search says yes exactly when the query returned a row |
| PooledReferences.PoolDecides | internal/monitor/comparison.go:34-58 | what the pool says of parsed answers: unknown exactly without a row, clean or matched exactly when every address is in a row read, polluted exactly when one shares its first two octets with none |
| Comparison.Eligible | internal/monitor/comparison.go:23-32 | the loop over the records of one reference collects exactly the addresses that count, those still fresh, and their prefixes |
| Comparison.Collect | internal/monitor/comparison.go:19-33 | the loop over the references collects the pool they amount to |
| Comparison.CompareAt | internal/monitor/comparison.go:9-66 | each verdict if and only if its condition on the answers and on the records that still count: no evidence or an unparsed answer first, an outsider first, all fresh, or all known |
| Comparison.JudgeAnswers | internal/monitor/comparison.go:37-58 | the loop over the answers ends with the verdict of the scan that stops at the first answer it cannot parse and at the first foreign one |
| Comparison.VerdictMeaning | internal/monitor/comparison.go:37-65 | each verdict if and only if its condition on the answers and the pool |
| Comparison.KnownMeaning | internal/monitor/comparison.go:79-87 | an address is known exactly when a usable reference has a record of it observed by now that still runs or was observed in the last hours, and known fresh exactly when one still runs |
| Comparison.BackedAnswersAreClean | internal/monitor/comparison.go:37-58 | the verdict is clean or matched exactly when every answer has such a record, matched exactly when every answer has one that still runs |
| Comparison.OrderIrrelevantIffNotMixed | internal/monitor/comparison.go:38-57 | for arbitrary answers the verdict depends on their order if and only if one is foreign and another cannot be parsed |
| Comparison.MoreReferencesEnlarge | internal/monitor/comparison.go:19-33 | further references only add to the pool |
| Comparison.MoreEvidenceNeverWorsens | internal/monitor/comparison.go:19-57 | once there is any evidence, further references never make the verdict worse |
| RequestedRecords.FindAlias | internal/monitor/probe.go:291-306 | the loop finds the unique alias of an owner with the least TTL of its CNAME records, or none, and fails for conflicting or unusable ones |
| RequestedRecords.CollectValues | internal/monitor/probe.go:314-330 | the map holds every requested value of the owner with the least TTL of its duplicates and the path |
| RequestedRecords.SortRecords | internal/monitor/probe.go:331-336 | one record per value, sorted |
| RequestedRecords.Requested | internal/monitor/probe.go:282-339 | the result is the sorted, duplicate-free records at the end of the CNAME chain, each with the least TTL along the chain and its duplicates, capped at 86400; nothing for cycles, conflicts, or 32 or more aliases |
| RequestedRecords.CompleteExtends | internal/monitor/probe.go:286-313 | every chain from the query name is a prefix of the complete one, so the end of the chain is unique |
| RequestedRecords.CompleteHasNoCycle | internal/monitor/probe.go:287-290 | a complete chain never visits a name twice |
| RequestedRecords.OrderOfAnswersIrrelevant | internal/monitor/probe.go:282-339 | the result does not depend on the order or repetition of the answers |
| RequestedRecords.OwnRecords | internal/monitor/probe.go:307-336 | without an alias the result is the name's own values of the type, each with its least TTL, at most a day |
| RequestedRecords.AliasedRecords | internal/monitor/probe.go:286-336 | with one alias it is those of the name it leads to, kept no longer than the alias |
| RequestedRecords.ConflictingAliases | internal/monitor/probe.go:287-306 | two aliases that disagree, or an alias to the name itself, give nothing |
| ProbedAnswers.Unique | internal/monitor/probe.go:236-248 | the array is compacted in place to the text without adjacent repetitions |
| ProbedAnswers.AnswersAreValues | internal/monitor/probe.go:180-184 | sorting and compacting the values of extracted records changes nothing |
| ProbedAnswers.ExtractedParses | internal/monitor/probe.go:314-322 | every record extracted for type A parses as an address |
| ProbedAnswers.ProbedIsNeverMixed | internal/monitor/comparison.go:38-57 | so a probed result never holds an answer that cannot be parsed, and its verdict is the same for every order of its answers |
| ProbedAnswers.SameRecordsSameVerdict | internal/monitor/probe.go:179-184 | responses with the same records, in any order and with any repetitions, get the same verdict |
| Stamp.ReadLp | internal/monitor/validate.go:209-221 | the validator's cursor reads a length-prefixed field exactly when it lies within the buffer |
| Stamp.SkipHashes | internal/monitor/validate.go:272-290 | the loop over the certificate hashes ends and accepts exactly lists of empty entries |
| Stamp.SkipBootstraps | internal/monitor/validate.go:302-326 | the loop over the bootstrap entries ends and accepts exactly nothing or one list of empty entries to the end |
| Stamp.ValidateStamp | internal/monitor/validate.go:197-328 | the validator accepts what the one-expression parser accepts, with the same fields |
| Stamp.WellFormedIsAccepted | internal/monitor/validate.go:197-328 | round trip: the encoding of acceptable fields is accepted and gives those fields back |
| Stamp.AcceptedIffWellFormed | internal/monitor/validate.go:197-328 | a byte string is accepted with some fields if and only if it is an encoding of them |
| Stamp.LayoutMeaning | internal/monitor/validate.go:197-328 | where every field of an accepted stamp lies, byte by byte: lengths, a 32-byte key, lists of empty entries, a path that starts with a slash, and nothing after the end |
| Stamp.CommandAddress | internal/monitor/ipv4.go:40-101 | the second parser never gives up on an accepted stamp of protocol 0, 2, 3 or 4, uses the very fields the validator saw, and its loop ends |
| Stamp.CommandMeaning | internal/monitor/ipv4.go:40-101 | by the first byte: 0 gives a UDP address, 2 an HTTPS host and path, 3 a TLS host, 4 a QUIC host, and 1 is left as it is |
| Stamp.ReadUnchecked | internal/monitor/endpoint.go:28-34 | the unchecked read stays in bounds wherever a checked read would succeed, with the same result |
| Stamp.DnscryptKey | internal/monitor/endpoint.go:21-35 | the third parser stays in bounds on every accepted DNSCrypt stamp and finds the validator's endpoint, key and provider |
| Stamp.OnlyDnscryptReachesCanonicaliser | internal/monitor/endpoint.go:20-26 | an accepted stamp is left untranslated if and only if it is a DNSCrypt one |
| RefreshBatch.Members | internal/monitor/refresh.go:30-35 | the loop makes every enabled server a waiting member |
| RefreshBatch.Monitor.Queue | internal/monitor/monitor.go:60-88 | accepts a manual request or refuses it with the first reason that applies |
| RefreshBatch.Monitor.QueueAll | internal/monitor/refresh.go:12-48 | starts a batch over the enabled servers, or returns the one that is pending |
| RefreshBatch.Monitor.CancelBatch | internal/monitor/refresh.go:87-93 | ends a pending batch with the given reason |
| RefreshBatch.Monitor.DropInvalid | internal/monitor/refresh.go:59-65 | the deleting loop leaves the members still enabled and counts the others, in whatever order the map is visited |
| RefreshBatch.Monitor.UpdateBatch | internal/monitor/refresh.go:55-71 | drops members no longer enabled, then ends an empty batch or cancels a paused one |
| RefreshBatch.Monitor.ReadAgain | internal/monitor/monitor.go:167-197 | the same together with the queue of manual requests |
| RefreshBatch.Monitor.CompleteBatch | internal/monitor/refresh.go:73-85 | counts a report for this batch from a started member, and no other |
| RefreshBatch.Monitor.Complete | internal/monitor/monitor.go:273-277 | a round reports and frees its server |
| RefreshBatch.Monitor.Dispatch | internal/monitor/monitor.go:214-260 | the loop over sorted candidates starts rounds until the configured number is in flight, tagging batch members |
| RefreshBatch.Monitor.Stop | internal/monitor/monitor.go:267-272 | shutdown cancels the batch |
| RefreshBatch.RunKeepsInv | internal/monitor/refresh.go:12-93 | every interleaving of the critical sections keeps the invariant of the batch |
| RefreshBatch.EveryRunAddsUp | internal/monitor/refresh.go:12-93 | in every reachable state a pending batch satisfies Completed + members left in the batch = Total with members left, any other batch is empty, and each started member has one live round tagged with this batch |
| RefreshBatch.EarlierRoundNeverCounts | internal/monitor/refresh.go:73-76 | a round under way when a batch is requested never counts for it, whatever happens before it reports |
| RefreshBatch.EachMemberCountsOnce | internal/monitor/refresh.go:59-84 | while a batch lasts its members only leave, and the completed count grows by exactly as many; only a pause or shutdown drops members uncounted |
| RefreshBatch.StepsLowerRank | internal/monitor/monitor.go:221-246 | every dispatch, completion or removal that touches the batch lowers twice its waiting plus its started members |
| RefreshBatch.RunTouchesBounded | internal/monitor/monitor.go:221-246 | in every run without a new request at most twice as many steps touch the batch as it has members, and after that many it is empty |
| RefreshBatch.DispatchProgresses | internal/monitor/monitor.go:219-246 | with room for a round and a waiting member among the sorted candidates, dispatch starts a member or serves a queued request before it |
| RefreshBatch.PendingBatchMovesOn | internal/monitor/monitor.go:214-260 | a pending batch with no round under way has a member started, or a queued request served before it; a member for certain when nothing is queued; or loses a member that is no longer a candidate |
| RefreshBatch.DispatchStartsPrefix | internal/monitor/monitor.go:232-238 | dispatch starts every wanted server of a prefix of the candidates, stops early only for want of capacity, and never exceeds the configured number |
| RefreshBatch.UrgentFirst | internal/monitor/monitor.go:219-231 | no server is started while a strictly more urgent one that could be is left waiting |
| BatchMeaning.RequestMeaning | internal/monitor/refresh.go:24-37 | a new request makes exactly the enabled servers waiting members; while a batch is pending a request changes nothing |
| BatchMeaning.DispatchMeaning | internal/monitor/monitor.go:233-260 | every server started is an enabled candidate that was queued, a waiting member, or without a deadline or past it; every such candidate is in flight afterwards unless the concurrency is reached; those started leave the queue and are marked in the batch, and nothing else changes |
| BatchMeaning.FirstComesFirst | internal/monitor/monitor.go:219-240 | of two candidates, asked for before not asked for and then by deadline, the second is not started without the first |
| BatchMeaning.ReadMeaning | internal/monitor/refresh.go:55-71 | servers no longer candidates leave the queue and the batch, each counting as completed; the batch ends when none is left or when paused, with the reason shown |
| BatchMeaning.ReportMeaning | internal/monitor/refresh.go:73-85 | a report frees its server, and counts exactly for a started member of the pending batch: the member leaves, and the batch ends with the last one |
| BatchMeaning.StopMeaning | internal/monitor/refresh.go:87-93 | shutdown ends a pending batch and silences the rounds under way |
| SlotGate.Gate.TryAcquire | internal/monitor/monitor.go:393-407 | one turn of the acquiring loop: refused while paused, admitted below the configured concurrency on a free server, otherwise parked on the current channel; the active count stays the number of busy servers |
| SlotGate.Gate.Signal | internal/monitor/monitor.go:107 | every channel a waiter may have parked on is closed, and no other |
| SlotGate.Gate.Release | internal/monitor/monitor.go:415-421 | gives the slot back and signals |
| SlotGate.Gate.Configure | internal/monitor/monitor.go:197-201 | changes the concurrency and signals |
| SlotGate.AttemptMeaning | internal/monitor/monitor.go:393-407 | refused exactly while paused; admitted exactly when a slot is free and the server holds none; otherwise parked on the current channel, with nothing changed |
| SlotGate.SlotComesBack | internal/monitor/monitor.go:393-421 | giving a slot back undoes taking it but for a new channel, and it can be taken again |
| Collections.Collector.Enter | internal/monitor/references.go:40-78 | join the running collection, make do within the pause, or lead a new one; and the new state of the table |
| Collections.Collector.End | internal/monitor/references.go:120-138 | closes a collection, keeps its error for later callers, and sets when the next may start |
| Collections.Collector.Forget | internal/monitor/refresh.go:41-43 | a refresh lifts every pause |
| Collections.Forgive | internal/monitor/refresh.go:41-43 | the loop resets every entry, in whatever order the map is visited |
| Collections.Collector.Prune | internal/monitor/monitor.go:192-196 | drops the entries of domains no longer configured, unless collected just now |
| Collections.Used | internal/monitor/monitor.go:192-196 | the deleting loop keeps exactly the other entries |
| Collections.EnteringKeepsInv | internal/monitor/references.go:45-76 | starting a collection keeps the pause after the previous one |
| Collections.ClosingKeepsInv | internal/monitor/references.go:120-138 | ending one remembers when it ended, unless it is excused |
| Collections.ForgettingKeepsInv | internal/monitor/refresh.go:38-43 | a refresh keeps the record of pauses right |
| Collections.PruningKeepsInv | internal/monitor/monitor.go:192-196 | so does pruning |
| Collections.NobodyIsToldOfInterruptions | internal/monitor/references.go:69-73 | a caller told to make do within the pause is never handed the error of an interrupted collection |
| Collections.EnterMeaning | internal/monitor/references.go:40-78 | a caller joins a collection at work, makes do if the same sources were asked too recently, and otherwise leads under a new channel |
| Collections.PauseIsExact | internal/monitor/references.go:69-138 | the same sources are asked again exactly 30 seconds after a collection that ran to its end, and at once after an interruption or a refresh or if the sources differ |
| Collections.NextCallerJoins | internal/monitor/references.go:45-78 | whoever comes while one collects joins that one |
| Probing.RunKeepsInv | internal/monitor/monitor.go:393-421 | every interleaving of workers, configuration changes, refreshes and cancellation keeps the invariant of slots and collections |
| Probing.SlotsAreSound | internal/monitor/monitor.go:393-421 | in every reachable state the active count is the number of busy servers and of workers holding a slot, no two workers probe one server, and nobody asleep on the current channel could be let in (no lost wakeup) |
| Probing.NeverPastConcurrency | internal/monitor/monitor.go:400-405 | no step that takes a slot leaves more taken than configured |
| Probing.OneCollectorPerKey | internal/monitor/references.go:45-76 | in every reachable state no two workers collect references for the same domain and type |
| Probing.CollectionsAreSpaced | internal/monitor/references.go:69-76 | over every run, a collection from the same sources starts no sooner than 30 s after the last one ended, unless that one was interrupted or a refresh or pruning came between |
| Probing.LeaderIsOpen | internal/monitor/references.go:129-137 | a collector always finds its own channel in the table when it ends |
| Probing.UnblockedMoves | internal/monitor/references.go:60-67 | every worker that is not waiting for another can take its own next step |
| Probing.NobodySleeps | internal/monitor/monitor.go:393-413 | with no slot held, whoever sleeps in the acquiring loop has been woken |
| Probing.NextMissesNothing | internal/monitor/references.go:50-67 | no step of any worker leaves another waiting for references it could read |
| Probing.NoLostReferences | internal/monitor/references.go:50-67 | in every reachable state a worker that awaits references on the current channel has none to read, unless a trusted probe has just saved one and has yet to release its slot |
| Probing.NoDeadlock | internal/monitor/references.go:25-141 | no reachable state is stuck: unless some worker is inside a probe, some worker can move |
| LookupCache.Measure | internal/monitor/monitor.go:517-529 | the scan finds the total size and an oldest entry, in whatever order the map is visited |
| LookupCache.Evict | internal/monitor/monitor.go:516-534 | the eviction loop ends within 512 entries and 8 MiB, evicts the oldest first and no more than it must |
| LookupCache.CacheGet | internal/monitor/monitor.go:425-438 | a hit exactly when the entry is successful, young enough and none of its records has expired |
| LookupCache.HitMeaning | internal/monitor/monitor.go:425-438 | which results count: a success with records, none expired, looked up less than the configured seconds ago |
| LookupCache.ConfigurationMeaning | internal/monitor/monitor.go:176-191 | reading the configuration keeps exactly the results still asked for, up to the configured age |
| LookupCache.OfferMeaning | internal/monitor/monitor.go:502-514 | a result enters exactly if its source is as it was and nothing was refreshed since its probe began |
| LookupCache.TotalOfOneMore | internal/monitor/monitor.go:517-529 | an entry weighs its texts, 128 for each record, and 256 |
| LookupCache.RunKeepsInv | internal/monitor/monitor.go:500-535 | every interleaving of probes, refreshes and configuration reads keeps the invariant of the cache |
| LookupCache.OnlyThisGeneration | internal/monitor/refresh.go:38-40 | in every reachable state the cache is within its bounds and each entry comes from a probe begun since the last refresh |
| LookupCache.StragglerIsNotCached | internal/monitor/monitor.go:502-514 | a probe under way when a refresh is requested never enters the cache, however late it ends |

## Left out

- Saving the configuration: the thresholds and weights in force are a field of the store that nothing here changes.
- Deletions in Cleanup from the audit history and from the trusted pool, and the vacuum and checkpoint statements: single statements on tables nothing else here reads. The pool's own retention is `ReferenceWindow`.
- Subjects and names are taken as normalised; trimming and case folding of text are not modelled.
- Floating-point rounding: sums, ratios and the rank 0.95 n are exact; Go's infinite and missing latencies are one value that encoding refuses.
- 64-bit overflow of counters and times.
- SQLite itself: isolation, write-ahead log and constraint failures. A transaction either commits its whole effect or none.
- The history chart reads rounds in table order, not by finish time; the sums do not depend on it.
- The status strip counts snapshots row by row where SQL groups them first.
- The summary list: the order of servers, the last probe and the failure count, which are single queries.
- Errors raised by the callback of the export, and decoding of stored JSON.
- Stamp.ValidateStamp: syntax of host names, ports and IPv4 addresses is a parameter, because it belongs to the URL and IP libraries; base64 decoding comes before.
- Stamp.CommandAddress: gives the parts of the address; joining and escaping them is left to the URL library.
- Stamp.DnscryptKey: normalising the port and the letter case of the canonical key is not modelled.
- Rating.Percentile: the average latency beside it is a plain quotient and is not modelled.
- TrustedPool.TrustedStore.SaveTrustedObservation: only type A observations are pooled, so keys leave the type out.
- PruningOverTime.RunStaysRelated: smooth runs only, which is exact for each save but not for a run: pools that came to differ agree again once the row in question is replaced, evicted or dropped with its server.
- Parsing of addresses and answer text: record extraction starts from normalised text, and the comparison from its parsed form; that normalised addresses parse is a premise of `ProbedAnswers`.
- Probing.NoLostReferences: which settings a saved observation serves, and when observations age, is free at each step; nothing is said about how long a waiting worker waits.
- The list of sources a collector visits, and the fingerprint, are free; only equality of fingerprints matters.
- RefreshBatch.Monitor.Dispatch: the candidates come sorted; the sort itself is the library's, and `UrgentFirst` takes the order as given.
- Deadlines and backoff (nextDelay) with their random jitter, and the deadline of a new server.
- Running the query tool, its output format, HTTP, sessions, import and export of servers, configuration checks, logging and start-up.
- The bounded output buffer of the query tool.
