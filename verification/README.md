# Verified model of anomalyd

`anomalyd` watches metrics and logs on its own: it mines log lines into templates, keeps metric and
log series in ring buffers, scores the newest complete bucket of every series against a seasonal
baseline, and keeps findings open for as long as a series misbehaves. This project models the parts
of it that keep state, carry exact arithmetic, or read and write a format, and proves what they
promise. `dafny verify dfyconfig.toml` checks everything.

The files follow the program.

- **Template miner.** `Templates` is generalisation on token lists. `Clusters` is the doubly linked
  list, `Forest` the prefix trees, `Drain` the class `Miner` over both, `MinerRuns` whole runs and
  snapshots. `Aliases` and `TemplateGc` are its users in the server: the alias cache, and the sweep
  of template metadata as a state machine whose steps are critical sections. `Keywords` is the level
  that the words of a template suggest.
- **Series.** `Buckets` is what a series means: an unbounded map of buckets. `Rings` is the ring
  buffer, proved to show the last buckets of that map. `StoreCap` is the sharded store under
  concurrent calls.
- **Scorer.** `Medians` is the median and how little it can be moved. `Scorer` holds the reference,
  which follows the Python job on an unbounded map, and the scorer on the ring with its loops, its
  in-place sorting and its cache. `ScoreLaws` says what a score is without the functions that compute it.
- **Findings.** `Findings` and `Absence` are the two machines that every series runs, as functions of
  its history. `Evaluation` is the class that runs them on a ring. `SeenRing` is the lock-free ring of
  buckets that remote write reached, one atomic access at a time. `Recency` is how old the data of a
  firing series can get, and `SeriesRun` runs one metric series from its samples to that. `Agreement` is when
  the table of active findings agrees with the flags of the series, `Lifecycle` the server that keeps both
  over deliveries, evaluations, garbage collection and restarts; `EvaluationLink` gathers the events of
  its series. `FirstFinding` and `SharedKey` are runs that show where promises end.
- **Remote write.** `Varint` and `RemoteWrite` are the hand-written protobuf encoder and decoder.
- **Agent.** `Lines` cuts lines from read chunks and rejoins what a container runtime split;
  `Backlog` counts lines from reading to acknowledgement.
- **JSON fields.** `Json` is concrete syntax trees and what a document says, `Extractor` the one-pass
  scanner, `ExtractorProofs` the theorem that connects them.

`Options`, `Numbers` and `Sequences` hold what several files share.

Conventions. Floats are reals and a missing value is `None`, never NaN; a quotient by a zero scale is
a value of its own. Times and buckets are unbounded integers. A Go string is a `string` whose
characters stand for bytes. Where a loop in Go updates variables there is a method with a loop; what
it computes is a function, and the lemmas are about that function. Ghost fields and ghost results
remember what the proofs speak of (messages, samples, histories) and nothing computes with them.

Some promises turned out to hold only under a condition, which is then stated and proved, with an
input that shows where it ends:

- The bucket ring of remote write is exact for an evaluation while no request, answered or not, has a
  sample 64 or more buckets past the data clock that the evaluation loaded (`SeenRing.SeenWhenCalm`);
  a running and an answered request just there lose a bucket (`SeenRing.SeenCanBeLost`,
  `SeenRing.SeenCanBeLostToAnswered`).
- Active findings agree with the flags of their series after an evaluation exactly if nothing goes
  wrong with any key (`Agreement.GoesWrong`). Garbage collection drops a metric series under a firing
  finding exactly if its data is more than a ring old, its missing and new buckets are fewer than
  three (`Recency.LosesExactly`) and its absence finding does not fire (`Agreement.Loses`). Restarts
  forget the missing ones: with r restarts since the series was scored it is kept while 2r + 3 buckets
  fit the ring, and not beyond (`SeriesRun.RunKeepsFiring`, `FirstFinding.SilenceLosesIt`).
- A metric series that is labelled like a log series shares its key and its entry in the table, and one
  can overwrite the finding of the other (`SharedKey.SharedKeyGoesWrong`).
- A second `Add` is without effect unless the first created a template from mostly parameters
  (`MinerRuns.AddTwice`).
- Firing and resolving are exact for a positive `--for` (`Findings.NeedMustBePositive`).
- The extractor finds every wanted path that does not start with a dot
  (`ExtractorProofs.LeadingDotIsLost`).

One place where code and documentation differ: the comment of the scorer speaks of a port of
`score_series`, which raises an error when the scale is zero, while the Go code divides by zero and
gets an infinite or undefined score. The model follows the Go code there. That is exactly when they
differ, and with positive floors, as the server sets them by default, the scale is never zero
(`Scorer.FiniteExactly`).

## Model

| member | source | states |
|---|---|---|
| Templates.SeqDistance | anomalyd/internal/drain/drain.go:168-181 | the loop computes the similarity and the number of parameters |
| Templates.SimIs | anomalyd/internal/drain/drain.go:168-181 | the similarity times the length is the number of positions at which the message repeats a word of the template; parameters are counted apart |
| Templates.LggPositions | anomalyd/internal/drain/drain.go:93-98 | a template is the least general generalisation of its messages if and only if it has their length, keeps a token where all of them have it and is a parameter everywhere else |
| Templates.GeneraliseKeepsLgg | anomalyd/internal/drain/drain.go:93-98 | merging one more message into the least general generalisation of some messages gives that of all of them |
| Templates.LggUnique | anomalyd/internal/drain/drain.go:93-98 | no two different templates are least general for the same messages |
| Templates.GeneraliseSettles | anomalyd/internal/drain/drain.go:93-102 | a template that took in a message covers it and all it covered before, and taking it in again changes nothing |
| Templates.GeneraliseCounts | anomalyd/internal/drain/drain.go:168-181 | taking in a message keeps its similarity and can only raise the number of parameters, so the tie-break keeps the template |
| Forest.Child | anomalyd/internal/drain/drain.go:213-242 | a word without a child gets one of its own exactly if it has no digit and there is room for one more besides the parameter child (or is the parameter mark itself), else the parameter child; a search of the word takes it; the fan-out cap holds, no child hangs under a word with a digit, and at the cap there is a parameter child |
| Forest.GrowFanOut | anomalyd/internal/drain/drain.go:231-241 | a node that fills up always has a parameter child, which is why the default branch never finds it missing |
| Forest.Insert | anomalyd/internal/drain/drain.go:185-211 | a cluster goes into the one leaf that a search of its own tokens reaches, under its token length, at the end of that leaf; no other leaf changes |
| Forest.WalkLen | anomalyd/internal/drain/drain.go:139-153 | a search never leaves the subtree of its token length |
| Forest.WalkDepth | anomalyd/internal/drain/drain.go:139-153 | a search looks at one word for each level, down to the depth limit or the last word but one, and takes the child of that word wherever there is one |
| Forest.LeafAlike | anomalyd/internal/drain/drain.go:139-153 | in any forest that insertions built, messages of one length lead to the same leaf or nowhere if they differ only in words with a digit and in words that a search does not look at |
| Drain.BestWins | anomalyd/internal/drain/drain.go:154-161 | the chosen cluster beats all before it and no later one beats it, by similarity, then parameters, then order |
| Drain.WinnerIsBest | anomalyd/internal/drain/drain.go:154-161 | a cluster that beats all others that way is the one chosen |
| Drain.ChosenIsNearest | anomalyd/internal/drain/drain.go:154-165 | a cluster is chosen exactly if it reaches the threshold, none of its leaf has more in common with the message, of those with as much none has more parameters, and it is the first such |
| Drain.ChooseNone | anomalyd/internal/drain/drain.go:162-165 | nothing is chosen exactly when every cluster of the leaf is below the threshold |
| Drain.LookupAfterMerge | anomalyd/internal/drain/drain.go:81-102 | after a message was merged into the template that its search found, the search finds the same one, at or above the threshold |
| Drain.LookupAfterCreate | anomalyd/internal/drain/drain.go:82-91 | after a template was created a search of its message, or of one that differs only in words with a digit or not looked at and had no template before, finds it exactly if it is near enough to that |
| Drain.MergeTokens | anomalyd/internal/drain/drain.go:92-98 | the token loop computes the generalisation, and reports a change exactly when a token changed |
| Drain.LeavesAfterInsert | anomalyd/internal/drain/drain.go:208-211 | each cluster still sits exactly once in its own leaf, under its token length, after an insertion |
| Drain.LeavesAfterRemove | anomalyd/internal/drain/drain.go:289-295 | and after a removal |
| Drain.Miner.constructor | anomalyd/internal/drain/drain.go:55-64 | a new miner meets the whole invariant: list, forest, id map and history agree |
| Drain.Miner.Unlink | anomalyd/internal/drain/drain.go:268-282 | takes one cluster out of the list and keeps the rest in order, prev and next staying inverse |
| Drain.Miner.Touch | anomalyd/internal/drain/drain.go:253-266 | moves a cluster to the front of the list, the others keeping their order |
| Drain.Miner.List | anomalyd/internal/drain/drain.go:70-75 | the list visits every cluster of the id map exactly once |
| Drain.Miner.Search | anomalyd/internal/drain/drain.go:134-166 | the loop computes the lookup that the stability lemmas are about |
| Drain.Miner.EvictOne | anomalyd/internal/drain/drain.go:286-296 | drops exactly the least recently touched cluster, from list, id map and leaf |
| Drain.Miner.Evict | anomalyd/internal/drain/drain.go:284-298 | keeps the MaxClusters most recently touched clusters, in order, and counts the victims |
| Drain.Miner.Add | anomalyd/internal/drain/drain.go:81-102 | keeps the invariant; creates exactly when the search found nothing; the returned cluster is live and first in the list, the victims are the last of it; otherwise one template takes in the message and moves to the front; a search of the message finds the result afterwards if it is near enough |
| Drain.Miner.Hit | anomalyd/internal/drain/drain.go:105-112 | counts n for a live id and moves it to the front, or changes nothing |
| Drain.Miner.Restore | anomalyd/internal/drain/drain.go:115-123 | re-inserts a template under an id that is not live, keeping the invariant and nextID at least as large |
| MinerRuns.CutKeepsRecent | anomalyd/internal/drain/drain.go:284-298 | cutting the list to the cap after every touch leaves the cap most recently touched ids |
| MinerRuns.RecentOrder | anomalyd/internal/drain/drain.go:253-266 | that list is ordered by last touch |
| MinerRuns.RecentSet | anomalyd/internal/drain/drain.go:253-266 | and holds every touched id once |
| MinerRuns.StepAdd | anomalyd/internal/drain/drain.go:81-102 | an Add touches the template that a search of the message finds before it, or else a new id; it leaves miner and log in agreement |
| MinerRuns.StepHit | anomalyd/internal/drain/drain.go:105-112 | a Hit touches its template exactly when that is live |
| MinerRuns.Run | anomalyd/internal/drain/drain.go:81-112 | after any run of Add and Hit the live templates are the cap most recently touched ones, each the least general generalisation of exactly the messages added to it, its size the sum of its weights; a Hit touched its id exactly when it was live at that time, an Add a live template that was then near enough or one with a larger id than all before |
| MinerRuns.AddTwice | anomalyd/internal/drain/drain.go:81-102 | a second Add of the same message returns the same template unchanged exactly when the first one did not create it or the message is near enough to itself (always so unless it consists mostly of parameters); otherwise it creates another one |
| MinerRuns.AddAlike | anomalyd/internal/drain/drain.go:81-102 | two messages that differ only in words with a digit, or in words not looked at, end up in one template, their least general generalisation, exactly when they have enough in common, so long as no template was near enough to either |
| MinerRuns.Copy | anomalyd/internal/server/state.go:95-100 | a snapshot lists every template once, most recently used first, with its id, tokens and size |
| MinerRuns.RestoreAll | anomalyd/internal/server/state.go:167-177 | restoring the snapshot oldest first into a new miner rebuilds the same ids, tokens, sizes and order, and later ids are new |
| Aliases.Service.Mine | anomalyd/internal/server/ingest.go:399-402 | a message mined from anywhere keeps every alias sound |
| Aliases.Service.GlobalTemplate | anomalyd/internal/server/ingest.go:385-403 | whether an alias answered or the miner, the template is live, covers the text position by position, and counts the lines |
| Aliases.AfterMerge | anomalyd/internal/server/ingest.go:396-400 | aliases stay sound when a template generalises |
| Aliases.AfterCreate | anomalyd/internal/server/ingest.go:396-400 | and when one is created and others are evicted, because ids are new |
| TemplateGc.StepKeepsInv | anomalyd/internal/server/eval.go:485-509 | every critical section of pushes, raw lines and the sweep keeps the invariant |
| TemplateGc.RunKeepsMetadata | anomalyd/internal/server/eval.go:485-509 | over any interleaving the sweep never deletes the metadata of a live template |
| TemplateGc.DeadStaysDead | anomalyd/internal/drain/drain.go:84-86 | ids are never reused: a template that is gone does not come back |
| TemplateGc.MetadataGoes | anomalyd/internal/server/eval.go:498-508 | nothing but the sweep deletes metadata, and never that of a live template, of a novelty candidate or of one that the scan saw |
| TemplateGc.SweepCollects | anomalyd/internal/server/eval.go:490-508 | one whole sweep does delete the metadata of a dead template that is no novelty candidate |
| TemplateGc.ScanAloneIsNotEnough | anomalyd/internal/server/eval.go:488-497 | without candidates taken before the scan, the metadata of a template created meanwhile would be lost |
| Keywords.KeywordLevelFalls | anomalyd/internal/logparse/severity.go:25-65 | replacing words of a template by parameters never raises its keyword level |
| Keywords.GeneraliseKeepsLevel | anomalyd/internal/server/ingest.go:415-417 | so the level inferred for a template only falls as it generalises |
| Keywords.RunKept | anomalyd/internal/logparse/severity.go:124-131 | a phrase found in the generalised template was in the one before |
| Keywords.TokenIs | anomalyd/internal/logparse/severity.go:25-65 | a token says what its parts say: the highest level of its words but keys and those after non-, and all words in lower case with masks between; any part of a path or URL says nothing |
| Keywords.HasParts | anomalyd/internal/logparse/severity.go:31-55 | and every token comes apart into masks, words and gaps |
| Keywords.InferredFrom | anomalyd/internal/logparse/severity.go:59-64 | a level is inferred exactly if some token says so or a phrase of that level occurs in the words of the template |
| Keywords.HasRunIs | anomalyd/internal/logparse/severity.go:124-131 | a phrase occurs exactly if its words stand next to each other somewhere |
| Buckets.ClosedMean | anomalyd/internal/series/store.go:94-127 | after any run a closed bucket of a Mean series is the mean of the samples that came while it was open or among the last eight closed, else the first later one, else missing |
| Buckets.OldMeanFixed | anomalyd/internal/series/store.go:122-125 | an older Mean bucket that has a value never changes again |
| Buckets.ClosedSum | anomalyd/internal/series/store.go:94-127 | a closed bucket of a Sum series is the total of all its samples |
| Buckets.OrderIrrelevant | anomalyd/internal/series/store.go:54-56 | two arrival orders of the same samples leave equal values, for Mean when all came in time |
| Buckets.SamplesPermuted | anomalyd/internal/series/store.go:93-127 | permuting the events permutes the samples of every bucket |
| Rings.SlotsDiffer | anomalyd/internal/series/store.go:90 | buckets less than a ring apart never share a slot |
| Rings.SlotHit | anomalyd/internal/series/store.go:144-146 | one round of gap filling reaches every slot |
| Rings.Series.constructor | anomalyd/internal/series/store.go:73-80 | a new ring shows an empty book |
| Rings.Series.At | anomalyd/internal/series/store.go:86-91 | the final value of a bucket in the ring, nothing for open, unknown or lost ones |
| Rings.Series.Advance | anomalyd/internal/series/store.go:130-148 | closing buckets in the ring does what closing them in the unbounded book does, gaps and late counts included |
| Rings.Series.Add | anomalyd/internal/series/store.go:94-127 | a sample does to the ring what it does to the unbounded book: open, new, late, too old or negative bucket |
| Rings.Series.FillGap | anomalyd/internal/series/store.go:144-146 | the gap loop of at most one round fills every bucket of the gap that the ring still holds |
| Rings.Series.ClearCounts | anomalyd/internal/series/store.go:137-139 | the late counts of skipped buckets become zero, the others stay |
| Rings.Replay | anomalyd/internal/series/store.go:94-148 | after any run of samples and closings the ring shows the last n buckets of the book of that run |
| StoreCap.StepKeepsInv | anomalyd/internal/series/store.go:189-229 | every step of concurrent updates and deletes keeps the count of held, inserted and pending series |
| StoreCap.RunBounds | anomalyd/internal/series/store.go:189-229 | the store never holds more than maxSeries + 63 series, and the counter is exact when no call is in progress |
| StoreCap.SerialBound | anomalyd/internal/series/store.go:189-229 | calls that do not overlap never exceed maxSeries |
| StoreCap.BoundIsReached | anomalyd/internal/series/store.go:195-204 | whatever the cap, 64 calls at once can overshoot it by 63 |
| StoreCap.UpdateOutcome | anomalyd/internal/series/store.go:189-207 | in any run, whatever others do while an update holds the shard of its key: if the key is there its callback runs on it and it does not give up, and one that gives up leaves the key out |
| StoreCap.GivesUpExactly | anomalyd/internal/series/store.go:194-198 | a call gives up exactly if its key is absent and the counter at the cap when it looks; so only while the store holds the cap, but for removals not yet counted |
| StoreCap.DroppedIs | anomalyd/internal/series/store.go:195-197 | the dropped counter is the number of calls that gave up |
| StoreCap.DeleteSweepsAll | anomalyd/internal/series/store.go:272-283 | whatever others do meanwhile, a Delete that finishes has taken what it selects out of every one of the 64 shards |
| StoreCap.NoDeadlock | anomalyd/internal/series/store.go:189-283 | in any state that a run reaches, each goroutine can go on but for one that waits for a shard, and that shard is held by one that can |
| Medians.SortedUnique | anomalyd/internal/detect/seasonal.go:140 | there is one sorted order of given values |
| Medians.MedianByCounting | anomalyd/internal/detect/seasonal.go:138-146 | twice the median is the sum of a lower and an upper middle value, told by how many values are less and greater; of an odd number both are the same |
| Medians.MiddlesUnique | anomalyd/internal/detect/seasonal.go:138-146 | and there is only one of each, so this determines the median |
| Medians.MedianPermuted | anomalyd/internal/detect/seasonal.go:138-146 | the median does not depend on the order of the values |
| Medians.OrderStatistic | anomalyd/internal/detect/seasonal.go:138-146 | if more than k values lie in an interval, the k-th smallest is not above it and the k-th largest not below |
| Medians.MedianRobust | anomalyd/internal/detect/seasonal.go:138-146 | replacing fewer than half of the values by anything leaves the median between the smallest and largest kept one |
| Medians.MadRobust | anomalyd/internal/detect/seasonal.go:131-135 | and the median absolute deviation at most the range of the kept ones |
| Medians.MadBetween | anomalyd/internal/detect/seasonal.go:131-135 | if more than half of the values are at least lo and at most hi away from the median, so is the deviation |
| Medians.DistancesPermuted | anomalyd/internal/detect/seasonal.go:132-135 | sorting in place before taking distances changes only their order |
| Scorer.SortedMedian | anomalyd/internal/detect/seasonal.go:139-146 | sorts and takes the middle or the mean of the middle pair |
| Scorer.Deviation | anomalyd/internal/detect/seasonal.go:131-135 | the in-place steps compute the median absolute deviation of the residuals as they were |
| Scorer.Expected | anomalyd/internal/detect/seasonal.go:59-70 | the loop computes the seasonal-naive median of the reference on what the ring shows |
| Scorer.ExpectedNow | anomalyd/internal/detect/seasonal.go:72-85 | the baseline of the reference, with its cold start and its refusal |
| Scorer.ResidualScale | anomalyd/internal/detect/seasonal.go:111-136 | the robust scale of the reference over the last season, refused below ten residuals |
| Scorer.Score | anomalyd/internal/detect/seasonal.go:50-108 | the loops on the ring compute the score with a reusable scale, and leave the scale that this score leaves |
| Scorer.RefusedExactly | anomalyd/internal/detect/seasonal.go:50-130 | a bucket is refused exactly when it has no value, there is nothing to compare it with, or there is neither a fitting scale nor ten residuals |
| Scorer.ScoreFresh | poc/ml/prom_anomaly_job.py:58-96 | without a fitting scale the score is that of the reference, with the wider scale for count data |
| Scorer.ScoreIsReference | anomalyd/internal/detect/seasonal.go:87-107 | in any case it is that of the reference with the scale used: the remembered one if it fits, else its own |
| Scorer.FiniteExactly | anomalyd/internal/detect/seasonal.go:100-107 | a score is a finite number exactly when its scale is not zero, hence always with a positive absolute floor; elsewhere the Python job raises |
| Scorer.ScoreReused | anomalyd/internal/detect/seasonal.go:87-90 | with a fitting scale it differs from the reference in the scale alone, and is given even where the reference has too few residuals |
| Scorer.ScoreLocal | poc/ml/prom_anomaly_job.py:58-96 | the reference reads no bucket more than (seasons + 1) seasons back, whatever its parameters, if the lookback is no longer than that |
| Scorer.RingHoldsReads | anomalyd/internal/server/server.go:165-167 | a ring of (Seasons+1)*Season+2 slots holds all of them for bucket head - 1 |
| Scorer.ScoreNewest | poc/ml/prom_anomaly_job.py:58-96 | scoring bucket head - 1 from such a ring returns or refuses what the reference does on the unbounded buckets |
| Scorer.ScoreRun | poc/ml/prom_anomaly_job.py:58-96 | the same after any run of samples and closings on a new series, without cache or Poisson scale |
| Scorer.OneSlotFewer | anomalyd/internal/server/server.go:165-167 | for every season of at least ten buckets (below which nothing is scored) and every positive number of seasons there is a run after which the reference and the full ring score the newest closed bucket, and a ring of one slot fewer refuses it |
| Scorer.ScaleRobust | anomalyd/internal/detect/seasonal.go:100 | the scale is at least the floors, and at most 1.4826 times the range of any majority of the residuals or the floors |
| Scorer.ScoredNeeds | anomalyd/internal/detect/seasonal.go:114-130 | a reference score needs a season of ten buckets, a value now and one late enough in the last season and among the known ones |
| Scorer.ScoredRests | anomalyd/internal/detect/seasonal.go:87-98 | a score rests on a scale that fits, which stays remembered, or on ten residuals, whose robust scale is remembered |
| ScoreLaws.ExpectedMeans | anomalyd/internal/detect/seasonal.go:64-75 | the expected value of a bucket is the mean of the two middle ones of the known values one to seasons seasons before it, and there is one exactly if one of those is known |
| ScoreLaws.BaselineMeans | anomalyd/internal/detect/seasonal.go:77-90 | without one the newest bucket is compared with the middle of the known values of the lookback, of which there must be three |
| ScoreLaws.RefusedMeans | anomalyd/internal/detect/seasonal.go:50-130 | no score exactly when the bucket is unknown; or no season before it is known and fewer than three buckets of the lookback are; or no scale fits and fewer than ten buckets of the last season are known and have something to be compared with |
| ScoreLaws.ScoreMeans | anomalyd/internal/detect/seasonal.go:100-107 | the score times the scale is the distance from the expected value, the band lies threshold scales to either side of it, and the value is out of the band exactly when the score is beyond the threshold |
| ScoreLaws.ScaleMeans | anomalyd/internal/detect/seasonal.go:100-103 | the scale is the largest of the robust scale used, the floors and, for count data, the root of the expected count, that being at least one |
| ScoreLaws.RobustScaleMeans | anomalyd/internal/detect/seasonal.go:111-136 | the robust scale is 1.4826 times how far the residuals of the last season are from their median |
| ScoreLaws.ScaleExpires | anomalyd/internal/detect/seasonal.go:92-99 | a remembered scale serves the buckets of its mode up to ScaleEvery - 1 after its own; the next one that is scored, or one of the other mode, replaces it |
| Evaluation.SeriesInfo.TrackAbsent | anomalyd/internal/server/eval.go:203-228 | one bucket moves the absence machine by the step that the absence lemmas are about |
| Evaluation.SeriesInfo.ScoreBucket | anomalyd/internal/server/eval.go:154-193 | one bucket is scored by the scorer with the remembered scale; no score moves the band machine as a refused bucket, a score as one that is anomalous or not by direction and minimum volume; the last result and the scale are those of this score; events carry score and bucket |
| Evaluation.SeriesInfo.EvalBucket | anomalyd/internal/server/eval.go:150-194 | one bucket: absence is tracked with the result before this bucket, then the bucket is scored |
| Evaluation.SeriesInfo.EvalSeries | anomalyd/internal/server/eval.go:145-196 | one evaluation: the new buckets, at most the last three, in order; state and events are those of both machines on what the scorer makes of each bucket, the scale and last result passing from one to the next; every band event is of one of these buckets and, but for a resolve, has its result, and an absence finding fires with the last result before it |
| Evaluation.ScaleAtIs | anomalyd/internal/detect/seasonal.go:87-98 | the scale a bucket is scored with is its own robust scale, or one of the same mode and fewer than ScaleEvery buckets old: that of an earlier bucket of this evaluation or the one remembered before it |
| Evaluation.OutcomesAreJudged | anomalyd/internal/server/eval.go:154-168 | what a bucket comes to is the anomaly test on the reference score with that scale |
| Evaluation.OutcomesMean | anomalyd/internal/server/eval.go:230-241 | a bucket is refused exactly if it gets no score, and anomalous exactly if its value is at least threshold scales above the expected one, or as far below, in a direction that counts for the series, and one of the two reaches the minimum volume |
| Evaluation.EvaluationFiresExactly | anomalyd/internal/server/eval.go:154-185 | after any history an evaluation fires at a bucket exactly when the series is not firing and the last ForBuckets evaluated buckets are anomalous by the reference score with the scales they are scored with, reused or not |
| Evaluation.JudgedByReference | anomalyd/internal/server/eval.go:154-168 | while no scale is reused that is the reference score itself |
| Evaluation.NewestClosed | anomalyd/internal/server/state.go:225-235 | the backward loop finds the newest closed bucket with a value, not before any bucket that ever had one, or the one just before the ring |
| SeriesRun.StaysBacked | anomalyd/internal/server/ingest.go:144-167 | values are no newer than the newest data on record, but for the bucket that was open at the last restart, and no bucket loses its value, whatever samples and closings come |
| SeriesRun.RestartBacks | anomalyd/internal/server/state.go:223-235 | a restart takes no older bucket than any with a value for the newest data |
| SeriesRun.EvaluationIsTruthful | anomalyd/internal/server/eval.go:145-167 | the scored buckets of an evaluation are less than a ring past the newest data on record, for any ring and any reuse of scales, which garbage collection relies on |
| SeriesRun.RunIsLife | anomalyd/internal/server/eval.go:130-167 | over any samples, evaluations and restarts of a metric series, with the outcomes that its ring and scale give and the newest data that a restart finds, its state is that of a plausible life |
| SeriesRun.RunKeepsFiring | anomalyd/internal/server/eval.go:510-515 | so no run loses a firing metric series to garbage collection while 2r + 3 buckets fit the ring, r being the restarts since it was last scored |
| SeriesRun.RunOutcomes | anomalyd/internal/server/eval.go:145-168 | that is what every bucket of every evaluation comes to, after any samples, evaluations and restarts |
| SeriesRun.ScaleComesFrom | anomalyd/internal/detect/seasonal.go:87-98 | over any run the remembered scale is the robust scale for its bucket on the values of the evaluation that scored it |
| FirstFinding.RiseOutcomes | anomalyd/internal/detect/seasonal.go:50-108 | of a series that was level for its history and rises, a first evaluation finds the last bucket anomalous and no other, whatever scale it reuses |
| FirstFinding.JumpOutcomes | anomalyd/internal/detect/seasonal.go:50-108 | whatever value comes after a level history, a first evaluation finds the last bucket anomalous exactly if that value is out of the band, and no other bucket |
| FirstFinding.DropOutcomes | anomalyd/internal/server/eval.go:230-241 | so a drop of a series for which drops count is found like a rise |
| FirstFinding.RiseFires | anomalyd/internal/server/eval.go:145-185 | for every ring and settings with which a series can be scored, a run of samples after which it is firing |
| FirstFinding.SilenceLosesIt | anomalyd/internal/server/eval.go:510-515 | after that run and n restarts every two silent buckets the series is dropped under its firing finding exactly if 2n + 3 exceeds the ring, so the bound is tight on real runs |
| EvaluationLink.MetricEventsGathered | anomalyd/internal/server/eval.go:114-136 | the events of evaluating the metric series one after the other, in any order, are those that the agreement theorem takes |
| EvaluationLink.LogEventsGathered | anomalyd/internal/server/eval.go:114-136 | and those of the log series |
| Findings.EventGrammar | anomalyd/internal/server/eval.go:182-193 | the band events of a series read (Fire Update* Resolve)*, open exactly while it is firing |
| Findings.FiresExactly | anomalyd/internal/server/eval.go:182-185 | a series fires exactly when it is not firing and the last ForBuckets evaluated buckets were all scored and anomalous |
| Findings.ResolvesExactly | anomalyd/internal/server/eval.go:155-162 | a firing series resolves exactly at the third refused bucket in a row or at the second normal one with no anomalous one between, and updates exactly at anomalous ones |
| Findings.Counters | anomalyd/internal/server/eval.go:155-175 | pending, missing and, while firing, normal are functions of the history alone |
| Findings.NeedMustBePositive | anomalyd/internal/server/eval.go:182-185 | with ForBuckets at zero or below a normal bucket fires, and a firing series may resolve at its first normal bucket after that |
| Findings.EvaluatedInOrder | anomalyd/internal/server/eval.go:147-150 | whatever the clocks do, buckets are evaluated in increasing order, so at most once |
| Findings.EvaluatedExactly | anomalyd/internal/server/eval.go:147-150 | a bucket is evaluated exactly when it is new and the first evaluation to reach it was at most three past it |
| Absence.AbsenceFiresExactly | anomalyd/internal/server/eval.go:217-226 | an absence finding fires exactly when none is firing or expired and the series has by now missed AbsentBuckets buckets that others reached, with no own data between, and its expected value matters |
| Absence.AbsenceResolvesExactly | anomalyd/internal/server/eval.go:204-216 | it resolves exactly at own data, or when AbsentTTL has passed since the first missed bucket |
| Absence.QuietAfterExpiry | anomalyd/internal/server/eval.go:211-217 | after expiry nothing happens until data returns |
| Absence.AbsenceGrammar | anomalyd/internal/server/eval.go:203-228 | its events alternate between Fire and Resolve |
| SeenRing.StepKeepsInv | anomalyd/internal/server/ingest.go:192-202 | every atomic access of every request keeps the ring invariant |
| SeenRing.SeenExactly | anomalyd/internal/server/ingest.go:192-204 | a bucket counts as seen exactly when its marking is done and no later bucket of its slot was marked |
| SeenRing.RingReach | anomalyd/internal/server/server.go:152 | one round of the ring from the oldest bucket of an evaluation ends 64 buckets past the data clock |
| SeenRing.SeenWhenEvaluated | anomalyd/internal/server/eval.go:203-217 | seen is exact for every bucket an evaluation can look at while nothing was marked 64 or more buckets past its data clock |
| SeenRing.AheadIsUnanswered | anomalyd/internal/server/ingest.go:180-187 | only a running or malformed request can have marked past the data clock |
| SeenRing.SeenWhenCalm | anomalyd/internal/server/eval.go:98-104 | so for the data clock that an evaluation loaded, however long ago, seen is exact while no request so far, answered or not, has a sample 64 or more buckets past it |
| SeenRing.SeenWhileClockStands | anomalyd/internal/server/ingest.go:175-187 | and while the clock has not moved since, only running and malformed requests matter |
| SeenRing.StepCarries | anomalyd/internal/server/ingest.go:151-187 | every atomic access keeps the relation of requests, marked buckets and clock to the samples brought so far |
| SeenRing.Answers | anomalyd/internal/server/ingest.go:151-189 | a request that is not yet answered can go on, and it is answered well exactly if it was not malformed |
| SeenRing.LandedIsDelivered | anomalyd/internal/server/ingest.go:151-166 | over any run, marked buckets are buckets of samples, and every positive bucket of a sample is marked unless its request is marking it just now |
| SeenRing.SeenIsDelivered | anomalyd/internal/server/ingest.go:151-204 | so, while no sample is 64 or more buckets past the data clock an evaluation loaded, a bucket that it can look at counts as seen only if a request brought a sample in it, and does once such a request has marked it; with all requests answered, exactly then |
| SeenRing.SeenCanBeLost | anomalyd/internal/server/ingest.go:158-165 | with a running request just 64 buckets ahead a bucket with data can count as unseen |
| SeenRing.SeenCanBeLostToAnswered | anomalyd/internal/server/eval.go:98-104 | and with an answered one that moved the clock after the evaluation loaded it |
| Recency.LosesExactly | anomalyd/internal/server/eval.go:147-163 | a metric series is still firing after an evaluation with its data more than a ring old exactly if before it it was firing, its data was that old, and its missing buckets and the new ones are fewer than three |
| Recency.LifeOnTrail | anomalyd/internal/server/eval.go:145-167 | in every plausible life a firing series was last evaluated at most two buckets past its last scored one, for this life and each restart since |
| Recency.FiringIsKept | anomalyd/internal/server/eval.go:510-515 | so no plausible life loses a firing metric series to garbage collection while 2r + 3 buckets fit the ring; SeriesRun.RunKeepsFiring says it of runs |
| Recency.StaysFiring | anomalyd/internal/server/state.go:297-302 | the missing count is not saved, so a silent series stays firing over restarts every two buckets |
| Recency.RestartsLoseASeries | anomalyd/internal/server/eval.go:510-515 | after n of them and two more silent buckets it is dropped under its firing finding exactly if 2n + 3 exceeds the ring |
| Agreement.ApplyAt | anomalyd/internal/server/eval.go:243-265 | in whatever order the workers of different series deliver, the events of one series leave the entry of its key alone or determine it |
| Agreement.SeriesAfter | anomalyd/internal/server/eval.go:133-139 | after one evaluation and its garbage collection the table agrees with the flags on a key exactly if its metric series is not lost and no events of one series overwrote the finding of the other; decided from the state and outcomes before |
| Agreement.AbsenceAfterAll | anomalyd/internal/server/eval.go:510-516 | absence findings always agree: garbage collection spares their series |
| Agreement.CollectedExactly | anomalyd/internal/server/eval.go:510-521 | garbage collection keeps a metric series exactly if its data is at most a ring old or its absence finding fires, a log series exactly if its data is at most a season old or it fires, and changes none that it keeps |
| Agreement.EvaluationExactly | anomalyd/internal/server/eval.go:98-143 | so table and flags agree after an evaluation from an agreeing state if and only if nothing goes wrong with any key |
| Lifecycle.Server.Apply | anomalyd/internal/server/eval.go:243-265 | the loop over events computes the table that the agreement lemmas are about |
| Lifecycle.Server.EvalNovelty | anomalyd/internal/server/eval.go:376-441 | findings without a series come and go without touching the others |
| Lifecycle.Server.DeliverMetric | anomalyd/internal/server/ingest.go:144-167 | a sample for a new or known metric series keeps the agreement, whether or not a log series has the same key |
| Lifecycle.Server.DeliverLog | anomalyd/internal/server/ingest.go:466-476 | a log line for a new or known log series keeps it too |
| Lifecycle.Server.Evaluate | anomalyd/internal/server/eval.go:98-143 | an evaluation keeps the agreement if and only if nothing goes wrong with any key; without shared keys, if and only if no firing metric series is lost; and none is while 2r + 3 buckets fit the ring for every firing one |
| Lifecycle.Server.Restart | anomalyd/internal/server/state.go:223-310 | after a restart table and flags agree again, even if they did not before: exactly the findings whose series were restored are active |
| Lifecycle.Rebuild | anomalyd/internal/server/state.go:223-310 | the loop over saved findings rebuilds flags and table from them alone; newest data is the newest closed value of a metric series and the head of a log series |
| Lifecycle.RestoreKeepsGood | anomalyd/internal/server/state.go:264-310 | restored flags and table agree for any subset of restored series |
| Lifecycle.RestoreSince | anomalyd/internal/server/state.go:290-296 | a series that a restart marks as gone is so since the bucket that its saved finding gives |
| SharedKey.SharedKeyGoesWrong | anomalyd/internal/server/eval.go:114-137 | for all settings and rings with which series can be scored, a run of samples in which a metric and a log series with one key both fire, by what the scorer makes of them, and the finding of the metric series is lost |
| SharedKey.BothFiringGoesWrong | anomalyd/internal/server/eval.go:114-137 | two series with one key that both end up firing never agree with the table |
| SharedKey.ResolvingGoesWrong | anomalyd/internal/server/eval.go:114-137 | nor does the table agree with a firing metric series when the log series of the same key resolves |
| Varint.UvarintPut | anomalyd/internal/promrw/promrw.go:183-186 | a varint is read back with its length, whatever follows |
| Varint.PutIs | anomalyd/internal/promrw/promrw.go:251-255 | what is written is one varint, and the value of its groups of seven bits, lowest first, is the number |
| Varint.UvarintIs64 | anomalyd/internal/promrw/promrw.go:183-186 | a buffer gives a number exactly if it starts with a varint of at most ten bytes whose value fits 64 bits, and then that value |
| Varint.AppendUvarint | anomalyd/internal/promrw/promrw.go:251-255 | the write loop appends the minimal varint |
| Varint.ReadUvarint | anomalyd/internal/promrw/promrw.go:183-186 | the read loop computes the value and length, or reports a short or oversized varint |
| RemoteWrite.RequestRoundTrip | anomalyd/internal/promrw/promrw.go:230-249 | decoding what Encode builds gives the same series, labels, sample bits and signed timestamps |
| RemoteWrite.ReencodeRoundTrip | anomalyd/internal/promrw/promrw.go:52-80 | anything that decodes survives encoding and decoding again, up to the size limit of a request |
| RemoteWrite.ForeignFieldIgnored | anomalyd/internal/promrw/promrw.go:52-181 | a field that a message does not know, by number or wire type, changes nothing when put between two others: for requests, series, labels and samples |
| RemoteWrite.RequestPrefix | anomalyd/internal/promrw/promrw.go:52-80 | decoding a request in two parts is decoding it whole |
| RemoteWrite.WireFormat | anomalyd/internal/promrw/promrw.go:230-255 | the tag bytes of labels, samples and series are those of prometheus.WriteRequest, and a timestamp is the varint of its value modulo 2^64 |
| RemoteWrite.FixedLast | anomalyd/internal/promrw/promrw.go:238 | the 64 bits of a value are stored lowest byte first |
| RemoteWrite.SkipIs | anomalyd/internal/promrw/promrw.go:196-222 | how much of each wire type is skipped, and that cut or unknown ones are errors |
| RemoteWrite.Decode | anomalyd/internal/promrw/promrw.go:52-80 | the loop delivers the series of the grammar and its error, and ends within the buffer |
| RemoteWrite.DecodeSeries | anomalyd/internal/promrw/promrw.go:82-119 | the same for a series |
| RemoteWrite.DecodeLabel | anomalyd/internal/promrw/promrw.go:121-149 | the same for a label |
| RemoteWrite.DecodeSample | anomalyd/internal/promrw/promrw.go:151-181 | the same for a sample |
| RemoteWrite.Encode | anomalyd/internal/promrw/promrw.go:230-249 | the loops build the bytes of the request |
| RemoteWrite.EncodeSeries | anomalyd/internal/promrw/promrw.go:232-245 | the same for one series |
| RemoteWrite.AppendBytes | anomalyd/internal/promrw/promrw.go:251-255 | appends tag, length and content |
| Lines.Extend | anomalyd/internal/agent/agent.go:263-271 | bytes without a newline extend the unfinished line and finish none |
| Lines.Finish | anomalyd/internal/agent/agent.go:272-279 | bytes up to a newline finish one line |
| Lines.TailFile.Line | anomalyd/internal/agent/agent.go:294-322 | one line is trimmed, unwrapped and joined by the step that the stream lemmas are about |
| Lines.CriUnwraps | anomalyd/internal/logparse/container.go:31-70 | a line of containerd or CRI-O as it is written, with stamp, stream, tag and text, is the envelope of that text, stream and P or F, with either setting that reads such lines |
| Lines.CriOnly | anomalyd/internal/logparse/container.go:45-70 | and nothing else is such a line |
| Lines.DockerUnwraps | anomalyd/internal/logparse/container.go:72-84 | in the lines of Docker a text with a final newline is a full line without it, any other text a chunk; without the two fields or with another stream there is no envelope |
| Lines.FedBounded | anomalyd/internal/agent/agent.go:257-317 | what waits for the rest of its line stays within 1 MiB, whatever is read |
| Lines.TailFile.Feed | anomalyd/internal/agent/agent.go:257-281 | the chunk loop hands on every line that a newline ends, and one that grows above 1 MiB, and keeps the rest |
| Lines.FedIs | anomalyd/internal/agent/agent.go:257-281 | while no line is above 1 MiB, feeding a chunk to the state of some bytes gives the state of all of them |
| Lines.ChunksIrrelevant | anomalyd/internal/agent/agent.go:248-291 | so after any chunks the messages mined are those of the lines of the whole stream, however reads cut it |
| Lines.ReadAll | anomalyd/internal/agent/agent.go:248-291 | the same for the loop over reads |
| Lines.StreamsSeparate | anomalyd/internal/agent/agent.go:300-317 | the messages rebuilt for one stream depend only on the envelopes of that stream |
| Lines.PlainMessages | anomalyd/internal/agent/agent.go:294-305 | the messages without a stream are the lines that are no envelopes, without carriage returns at the end, but empty ones, whatever envelopes come between |
| Lines.TextsAreGroups | anomalyd/internal/agent/agent.go:306-317 | while no joined line reaches 1 MiB they are exactly the groups of partial chunks closed by a full one |
| Lines.SameEnvelopesSameMessages | anomalyd/internal/logparse/container.go:31-43 | two inputs with the same stdout envelopes give the same stdout messages, whatever stderr or plain lines come between |
| Backlog.Agent.Merge | anomalyd/internal/agent/agent.go:355-370 | adds what one read collected, per key and bucket, and nothing else |
| Backlog.Agent.Take | anomalyd/internal/agent/agent.go:375-378 | a push takes all counts |
| Backlog.Agent.Succeed | anomalyd/internal/agent/agent.go:405-408 | taken counts become acknowledged |
| Backlog.Agent.Fail | anomalyd/internal/agent/agent.go:409-430 | a failed push drops no key that is in the backlog, adds none once MaxBacklog are held, drops exactly the rest, and loses only their lines |
| Backlog.Agent.Push | anomalyd/internal/agent/agent.go:374-431 | one push with its answer keeps every mined line accounted for |
| Backlog.BalancedMerge | anomalyd/internal/agent/agent.go:355-370 | lines mined stay acknowledged, in flight, in the backlog or lost, per key and bucket, when a read is merged |
| Backlog.BalancedFail | anomalyd/internal/agent/agent.go:409-430 | and when a failed push is put back |
| Backlog.MergeInto | anomalyd/internal/agent/agent.go:359-368 | the loop over keys in any order |
| Backlog.PutBack | anomalyd/internal/agent/agent.go:412-429 | the loop over taken keys in any order |
| Backlog.StepsNest | anomalyd/internal/server/ingest.go:342-349 | a positive agent step is accepted exactly when every line falls into the server bucket of its agent bucket |
| Extractor.Extractor.Extract | anomalyd/internal/logparse/logparse.go:24-37 | computes the scan that the extraction theorem is about; on every text it terminates within bounds |
| Extractor.OnlyObjects | anomalyd/internal/logparse/logparse.go:24-37 | a line taken for an object starts, after white space, with an opening brace and has a closing one after it; of a line that starts otherwise no value is found |
| Extractor.Extractor.Object | anomalyd/internal/logparse/logparse.go:40-96 | the member loop, with its commas, failures and nested objects |
| Extractor.Extractor.ValueAt | anomalyd/internal/logparse/logparse.go:72-93 | strings decoded, wanted objects entered, all else skipped and kept as written |
| Extractor.Extractor.Descend | anomalyd/internal/logparse/logparse.go:107-114 | whether some wanted path lies below the current one |
| Extractor.Extractor.Set | anomalyd/internal/logparse/logparse.go:98-104 | sets all wanted paths that are the current one |
| Extractor.Extractor.Str | anomalyd/internal/logparse/logparse.go:124-146 | scans a string and its escapes |
| Extractor.Extractor.SkipValue | anomalyd/internal/logparse/logparse.go:149-185 | skips a value by counting brackets |
| ExtractorProofs.StringIs | anomalyd/internal/logparse/logparse.go:124-146 | the string scan of a rendered string gives its meaning and its end |
| ExtractorProofs.ValueEnds | anomalyd/internal/logparse/logparse.go:149-185 | skipping ends exactly at the end of a rendered value |
| ExtractorProofs.MembersScanned | anomalyd/internal/logparse/logparse.go:40-96 | scanning a rendered object ends at its end and sets what its tree says |
| ExtractorProofs.FillIs | anomalyd/internal/logparse/logparse.go:98-114 | looking only into objects with wanted paths below finds what the whole document says |
| ExtractorProofs.ExtractFinds | anomalyd/internal/logparse/logparse.go:24-96 | for every well-formed object and wanted paths without a leading dot, extraction succeeds and gives each path the last value in document order whose joined keys are that path |
| ExtractorProofs.LeadingDotIsLost | anomalyd/internal/logparse/logparse.go:67-71 | no wanted path that starts with a dot is found below an empty key, whatever key it names and whatever else is wanted |

## Left out

- Links in memory: clusters and tree nodes are values in maps under their ids, and `prev`, `next` and
  `leaf` are ids, so that updates in place become updates of those maps; sharing of token slices
  between clusters and callers is not modelled.
- Drain.Miner.Restore: not for an id that is already live, because the server never does that (it folds
  such templates with Add); the old cluster would stay in its leaf.
- The pool of miners, its overflow key, and the folding of restored services into it.
- The token masker: tokens are given.
- Rounding of float32 and float64, and overflow of 64-bit buckets and times, other than the 32-bit
  sample counts and the 64-bit values of the wire format.
- The sort of the scorer: a recursive insertion sort stands for the library's, since only the sorted
  order matters. The reused scratch slices are lists of their own.
- The square root of the Poisson scale: any function.
- Scorer.ScoreReused: a reused scale is an approximation that the program makes on purpose; how far it
  is from a fresh one is not bounded.
- Scoring of buckets older than head - 1: the ring no longer holds all of their oldest reads.
- Evaluation across workers: the events of an evaluation may come in any order across series; that a
  series is evaluated under its shard lock is assumed.
- Lifecycle.Server.Evaluate: takes outcomes and events as given; Evaluation.SeriesInfo.EvalSeries says
  what they are for one series, SeriesRun that they are possible over runs of it, and EvaluationLink that
  the events of all are what is taken. Series objects in a store are not modelled together.
- Lifecycle.Server.DeliverMetric: series whose own key starts with the prefix of absence findings are
  kept apart from those findings by requirement, because only a label name with that prefix gives one.
- Lifecycle.Server.Restart: keeps the record of the last scored bucket only if the newest closed value is
  not before it; SeriesRun.RunIsLife says so of every run of one series.
- Lifecycle.Server.EvalNovelty: when novelty and signature findings fire is a parameter; only that
  their keys are apart from those of series matters here.
- Shards of the store in snapshots, capacities that changed, and label derivation on restore: the set
  of restored series is a parameter.
- Alert text, labels, annotations, severities and the posts to Alertmanager.
- The order of resolved findings and their cap of 500.
- RemoteWrite.Decode: the callback never fails; an error of the callback would only end the loop
  earlier. Snappy, gzip, gob, HTTP and the size checks before decoding are not modelled.
- Time and buckets of the seen ring: durations are whole seconds.
- File handling of the agent: rotation, truncation and removal reset the state of a file, as a new
  one starts.
- Templates and services of an agent's push: the payload itself, its sorting and its compression.
- Extraction: the decoding of escapes is a parameter that succeeds on the strings of a well-formed
  text; level words and the field names of the agent are not modelled.
- Keywords: the word and phrase tables and lower-casing are parameters; phrases consist of non-empty
  words.
- Agent registry, synthetic generator, cost model, Drain3 exporter and dashboards.
