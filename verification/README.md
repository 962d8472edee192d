# Kerno verification model

Kerno turns kernel events into bounded aggregates, evaluates them with fixed rules,
predicts failures and, if configured, asks a language model about the findings. This
project models the stateful cores of that pipeline in Dafny and proves what they promise.
Run `dafny verify dfyconfig.toml` to check everything.

Modules follow the pipeline. The kernel pairs starts with stops in a bounded hash map
(`Pairing`, `PairingHooks`). The collectors keep mutable entry objects in an LRU of linked
elements and a map (`Lru`, with its run theory in `Recency` and `LruModel`), each with a
log2 histogram (`Histogram`, theory in `HistogramModel`, `Percentiles`). `Aggregation` says
what such a collector still knows about its event log, `Tracking` carries that over to entry
objects on the heap, and `SyscallCollector` and `SchedCollector` are the collectors.
`Signals` is what one window hands on. `Rules` evaluates it into `Findings`, with
whole-report theorems in `RuleProperties`, `RuleLevels`, `RuleFindings` and
`RuleMonotone`; `SnapshotCut` says what the cut of a snapshot hides from them, and
`Pipeline` follows a finding back to the event log. `Prediction` extrapolates trends with
the least squares of `Regression` and the cut-offs of `Eta`; `TrendLines` says on the
snapshots what it predicts. `FindingsKey`, `AnalysisCache`, `Analyzer` and `RateLimit`
stand in front of the language model. `PodPath`, `PodIndex` and `PodKeys` (over `Strings`)
attribute cgroup paths to pods. `CgroupWalk` selects memory-limited cgroups, `Inotify`
decodes file events. `Sorting` is stable sorting by a strict weak order, `Options` an
option type.

Where the source updates objects in place the model is a class whose methods are proved
against functions on values; loops stay loops. A mutex makes each method one atomic step.
Two methods of the source hold none throughout: calls of `Analyze` are taken one at a time,
and what overlapping calls do is stated step by step (`Analyzer.ApartIff`); a scheduler
snapshot is taken with no event recorded meanwhile.

Clocks, the outcome of a provider call, ring-buffer reservations and file contents are
parameters. float64 is exact `real`; the token bucket and all durations are integers, as in
the source. Of the unsigned arithmetic the wrap of the histogram's `sum`, of the kernel's
time differences and of the uint64 to int64 duration conversion is modelled; counts are
taken to stay below 2^64.

Where comments in the repository and its code differ, the model follows the code:

- `internal/ai/ratelimit.go:26` promises at most perMinute calls per minute. A full bucket
  plus refill allows up to twice that; `RateLimit.MinuteIsCappedIff` says, for every state
  of the bucket, exactly which minutes keep the promise, and `RateLimit.NewLimiterExceeds`
  that every setting breaks it.
- `internal/collector/aggregator/histogram.go:24-27` speaks of about 50% relative error. In
  the top bucket the estimate is the maximum and can be off by nearly 100%;
  `HistogramModel.HalfErrorFails` shows such samples, `HistogramModel.HalfErrorIff` says
  exactly when the claim holds.
- `internal/collector/cgroup_memory.go:205-207` skips a parent if a child also has a limit;
  the code looks at every visible descendant.
- `internal/doctor/rules.go:294-299` says the worst pair drives severity and headline. The
  severity comes from all hot pairs and the headline from the first; they agree on ordered
  snapshots, and `RuleProperties.ReportExceedsIff` says exactly when.
- Comments write `>` for several limits where the code has `>=` (`rules.go:181`, `:507`,
  `:594`).
- The snapshot is cut to 64 rows by latency before any rule filters it, so a rule can miss
  tracked keys; `SnapshotCut` says exactly when, and gives event logs on which
  it does.
- The slope per second in `internal/doctor/predict.go:159-161` assumes that every snapshot
  carries the signal; `Prediction.RateRightIff` says when it is right.

## Model

| member | source | states |
|---|---|---|
| Lru.LRU.constructor | internal/collector/aggregator/lru.go:32-41 | an empty cache; a capacity of zero or less becomes one |
| Lru.LRU.Get | internal/collector/aggregator/lru.go:45-57 | answers from the contents and makes a found key the newest; list, map and contents stay in bijection |
| Lru.LRU.Put | internal/collector/aggregator/lru.go:61-85 | overwrites and moves a known key, else evicts the oldest when full and inserts in front; every other entry keeps its value and order |
| Lru.LRU.MoveToFront | internal/collector/aggregator/lru.go:45-85 | the element is first, appears once, the others keep their order |
| Lru.LRU.EvictOldest | internal/collector/aggregator/lru.go:74-82 | exactly the last element leaves list and map, and is counted |
| Lru.LRU.Len | internal/collector/aggregator/lru.go:88-92 | the number of entries, at most the capacity |
| Lru.LRU.Range | internal/collector/aggregator/lru.go:109-118 | visits entries newest first, and stops after the first one refused |
| LruModel.RunContents | internal/collector/aggregator/lru.go:45-85 | after any Get/Put run the contents are the first cap distinct keys by last touch, each with the value last Put for it |
| LruModel.InsertsAccounted | internal/collector/aggregator/lru.go:61-105 | fresh inserts = entries present + evictions counted; never more than cap entries |
| LruModel.AccessKeys | internal/collector/syscall.go:123-139 | under Get-then-Put-on-miss use the keys are the cap most recent distinct keys |
| LruModel.SmallerCapKeepsPrefix | internal/collector/aggregator/lru.go:45-85 | inclusion: the keys of a smaller cache are the newest keys of a larger one fed the same accesses |
| Histogram.Histogram.Record | internal/collector/aggregator/histogram.go:43-65 | the object is the summary of its samples plus this one, zero counted as one |
| Histogram.Histogram.Percentile | internal/collector/aggregator/histogram.go:109-135 | the scan computes the percentile estimate of all samples recorded; PercentileAccuracy says how near that is |
| Histogram.Histogram.Reset | internal/collector/aggregator/histogram.go:158-167 | whatever the state was, the summary of no samples |
| Histogram.Histogram.Merge | internal/collector/aggregator/histogram.go:171-193 | the summary of both sample lists, also when merged with itself |
| Histogram.Histogram.Snapshot | internal/collector/aggregator/histogram.go:197-201 | a fresh object with the same samples, which later writes to the source cannot reach |
| HistogramModel.BucketOfValue | internal/collector/aggregator/histogram.go:47-53 | bit length minus one is the one bucket whose power-of-two range holds the value |
| HistogramModel.WrappedTotalIsModular | internal/collector/aggregator/histogram.go:57 | the wrapping sum is the true total modulo 2^64 |
| HistogramModel.MergeIsUnion | internal/collector/aggregator/histogram.go:171-193 | combining two summaries gives the summary of the concatenated samples |
| HistogramModel.OrderIrrelevant | internal/collector/aggregator/histogram.go:43-65 | two recording orders of the same multiset give the same histogram |
| HistogramModel.PercentileAccuracy | internal/collector/aggregator/histogram.go:109-156 | the estimate lies in the power-of-two bucket of the exact sample of rank ceil(count·p/100), is off by at most half the bucket's width, and so half the exact value, below the top bucket, and is always less than twice it |
| HistogramModel.HalfErrorIff | internal/collector/aggregator/histogram.go:24-27 | the error is at most half the exact sample if and only if that sample is below 2^63 or the maximum is at most one and a half times it |
| HistogramModel.HalfErrorFails | internal/collector/aggregator/histogram.go:142-145 | of the samples 2^63 and 2^64-1 the median is estimated as the second, off by 2^63-1 |
| HistogramModel.RankExists | internal/collector/aggregator/histogram.go:122-125 | each rank from 1 to count has one and only one sample value |
| HistogramModel.PercentileInRange | internal/collector/aggregator/histogram.go:105-119 | for every p, also outside 0..100, the estimate is between minimum and maximum |
| HistogramModel.PercentileMonotone | internal/collector/aggregator/histogram.go:109-156 | a higher percentile is never estimated lower |
| HistogramModel.ScanNeverFallsThrough | internal/collector/aggregator/histogram.go:127-134 | the scan always stops at the bucket where the cumulative count first reaches the rank; the last return is dead |
| Percentiles.HistogramPercentiles | internal/collector/syscall.go:179-186 | the reported percentiles are those of the samples, as int64 durations |
| Percentiles.DurationWraps | internal/collector/syscall.go:179-186 | a uint64 is reported as the one int64 that equals it modulo 2^64 |
| Percentiles.PercentilesOrdered | internal/collector/syscall.go:179-186 | below 2^63 ns: 0 < p50 <= p95 <= p99 <= max |
| Aggregation.TrackedContents | internal/collector/syscall.go:123-139 | after any log the tracked keys are the cap most recent, and each holds exactly its events since its last insertion |
| Aggregation.Conservation | internal/collector/syscall.go:123-139 | events held plus events gone with evicted entries are, as multisets with their keys, the log |
| Aggregation.FewKeysKeepEverything | internal/collector/syscall.go:123-139 | with at most cap distinct keys the state is the full per-key aggregation |
| Tracking.TracksStep | internal/collector/syscall.go:123-139 | looking an entry object up, inserting a new one on a miss and letting it absorb the event is one step of bounded aggregation |
| Tracking.HistoryTracks | internal/collector/syscall.go:123-139 | after any history the LRU of entry objects stands for the bounded aggregation of the log |
| SyscallCollector.SyscallCollector.constructor | internal/collector/syscall.go:62-70 | an empty log and an empty cache |
| SyscallCollector.ErrorReturns | internal/bpf/syscalls.go:51-56 | what counts as an error is a return value from -4095 to -1, seen as a uint32 |
| SyscallCollector.SyscallCollector.Record | internal/collector/syscall.go:123-139 | one more event in the log, with the invariant that ties heap, counters and histograms to the log |
| SyscallCollector.SyscallCollector.Rows | internal/collector/syscall.go:142-160 | count, errors and percentiles of each tracked key are those of its events since insertion |
| SyscallCollector.SyscallCollector.Snapshot | internal/collector/syscall.go:142-175 | all tracked rows ranked by P99 then count and only then cut to 64; the total counts the whole log |
| SyscallCollector.CutKeepsWorst | internal/collector/syscall.go:160-172 | a row is dropped only if 64 are kept; its P99 is no higher than that of any kept one, and if equal its count is no higher |
| SchedCollector.SchedCollector.Record | internal/collector/sched.go:117-131 | one more event, in the global histogram and in the entry of its key |
| SchedCollector.SchedCollector.Snapshot | internal/collector/sched.go:134-178 | global percentiles of all delays ever recorded, and the 16 worst tracked keys, in descending order of their P99 as uint64 |
| SchedCollector.CutKeepsWorst | internal/collector/sched.go:149-165 | a key is dropped only if 16 are kept, and its P99 is no higher than that of any kept one |
| SchedCollector.SchedCollector.Candidates | internal/collector/sched.go:138-165 | rank, count and percentiles of each tracked key are those of its events since insertion |
| SchedCollector.GlobalIsMergeOfKeys | internal/collector/sched.go:117-131 | the global histogram is the merge of all per-key ones and of what went away with evicted keys |
| SchedCollector.GlobalIsMergeWithoutEvictions | internal/collector/sched.go:117-131 | without evictions the per-key histograms alone merge into the global one |
| PairingHooks.SyscallLatency.SysEnter | internal/bpf/c/syscall_latency.c:20-28 | the map holds what the pairing machine holds after this begin |
| PairingHooks.SyscallLatency.SysExit | internal/bpf/c/syscall_latency.c:30-61 | emits exactly what the pairing machine reports for this end, and takes the begin out in every case |
| PairingHooks.SchedDelay.SchedWakeup | internal/bpf/c/sched_delay.c:26-37 | the same machine keyed by woken pid |
| PairingHooks.SchedDelay.SchedSwitch | internal/bpf/c/sched_delay.c:39-71 | an end of the pid that is switched in |
| PairingHooks.DiskIo.BlockRqIssue | internal/bpf/c/disk_io.c:23-37 | a begin under the sector number; sector zero is skipped |
| PairingHooks.DiskIo.BlockRqComplete | internal/bpf/c/disk_io.c:39-81 | an end of that sector, without a minimum latency |
| PairingHooks.MapsFit | internal/bpf/c/headers/kerno.h:22 | none of the three maps ever holds more than 8192 begins |
| Pairing.ReportMeaning | internal/bpf/c/syscall_latency.c:20-61 | in every interleaving a hook reports exactly when it is an end with ring-buffer room whose key has an open, accepted begin at least the minimum earlier, and it reports that difference |
| Pairing.MapMeaning | internal/bpf/c/syscall_latency.c:20-61 | the map holds the time of exactly the open accepted begins |
| Pairing.LatestBeginIsLatest | internal/bpf/c/syscall_latency.c:20-61 | "open begin" means the latest one with no hook of that key since, and none is open only if each has been ended |
| Pairing.MapStaysSmall | internal/bpf/c/headers/kerno.h:22 | never more entries than the limit |
| Pairing.LatencyIsElapsed | internal/bpf/c/syscall_latency.c:39 | with a clock that never goes back the wrapping difference is the elapsed time |
| Pairing.BeginUsedOnce | internal/bpf/c/syscall_latency.c:35-40 | two reports never rest on the same begin |
| Pairing.BoundedMapIsSubmap | internal/bpf/c/headers/kerno.h:22 | the bounded map agrees with the unbounded one wherever it has a key |
| Pairing.BoundOnlyLoses | internal/bpf/c/headers/kerno.h:22 | the bounded run's reports are a subsequence of the unbounded run's |
| Pairing.BoundLosesNothing | internal/bpf/c/headers/kerno.h:22 | both runs are equal while the unbounded map fits |
| RateLimit.RateLimitedProvider.constructor | internal/ai/ratelimit.go:27-37 | a full bucket per minute; ten tokens when none are given |
| RateLimit.RateLimitedProvider.Allow | internal/ai/ratelimit.go:51-80 | refill, then take a token if there is one, granted exactly then; the tokens stay between zero and the maximum |
| RateLimit.CallsGood | internal/ai/ratelimit.go:51-80 | in every run 0 <= tokens <= maxTokens |
| RateLimit.RefillCredit | internal/ai/ratelimit.go:56-70 | a refill never creates credit, and leaves less than one token being earned |
| RateLimit.WindowBound | internal/ai/ratelimit.go:51-80 | a window of length w grants fewer than maxTokens + 1 + maxTokens·w/interval calls |
| RateLimit.AtMostTwicePerInterval | internal/ai/ratelimit.go:51-80 | at most 2·maxTokens in any closed interval |
| RateLimit.Progress | internal/ai/ratelimit.go:51-80 | after a refusal, once one token's time has passed and another call is made, some call since has been granted |
| RateLimit.MinuteIsCappedIff | internal/ai/ratelimit.go:26 | whatever the bucket, also long idle, a minute keeps "at most perMinute calls" if and only if the bucket holds next to no credit when it begins, or is full then and cannot earn another token in it, or earns more than one token an instant and every first refill cuts off the fraction the last token needs |
| RateLimit.MinuteIsCappedInPractice | internal/ai/ratelimit.go:26 | for at most one token a nanosecond: if and only if it begins with no token and less than a second one under way, or with one token at the instant of a refill, or with perMinute 1 on a bucket that is full again |
| RateLimit.NewLimiterExceeds | internal/ai/ratelimit.go:26-37 | every setting has a minute and calls in it that break the promise |
| FindingsKey.FindingsFingerprint | internal/ai/analyzer.go:151-168 | the loops build rule and severity pairs joined by bars, "healthy" for none |
| FindingsKey.FingerprintInjective | internal/ai/analyzer.go:151-168 | over clean rule names the key determines the sequence of rules and severities, its order and emptiness included |
| FindingsKey.SingleRecoveredIff | internal/ai/analyzer.go:151-168 | the key of one finding leads back to it alone if and only if its rule name contains no severity between a colon and a bar |
| FindingsKey.NoColonIsClean | internal/ai/analyzer.go:151-168 | a name without a colon is clean |
| AnalysisCache.Cache.Get | internal/ai/cache.go:37-48 | answers as an ideal TTL map that never throws anything out |
| AnalysisCache.Cache.Set | internal/ai/cache.go:52-64 | the ideal map gets the entry; above 100 entries exactly the unexpired ones remain |
| AnalysisCache.Cache.EvictExpired | internal/ai/cache.go:67-74 | exactly the expired entries leave |
| Analyzer.DefaultAnalyzer.Analyze | internal/ai/analyzer.go:53-105 | the provider is called exactly when no unexpired success for the key exists; a success is remembered, a failure is not; calls for one key stay more than ttl apart |
| Analyzer.MissKeepsSpacing | internal/ai/analyzer.go:53-105 | a success after a miss keeps all successes for a key more than ttl apart |
| Analyzer.HitIsForSameFindings | internal/ai/analyzer.go:56-66 | with clean rule names a cached answer is the answer to these very findings |
| Analyzer.ApartIff | internal/ai/analyzer.go:53-105 | when the steps of several calls on the same cache interleave, two successes for one key are more than ttl apart if and only if the later call asked after the earlier one had stored its answer |
| Analyzer.OverlapIsLegal | internal/ai/analyzer.go:53-105 | two calls may both miss and both reach the provider at the same instant |
| PodPath.IsUIDLikeLoop | internal/adapter/kubernetes.go:408-418 | true exactly for 32 or more hex digits, dashes and underscores |
| PodPath.ExtractPodUID | internal/adapter/kubernetes.go:377-404 | never returns anything but a UID or nothing |
| PodPath.PlainRoundTrip | internal/adapter/kubernetes.go:377-404 | undoes the /pod<uid>/ form for every UID, prefix without an earlier marker and suffix |
| PodPath.SliceRoundTrip | internal/adapter/kubernetes.go:377-404 | undoes the -pod<uid_with_underscores>.slice form |
| PodIndex.KubernetesAdapter.AddPod | internal/adapter/kubernetes.go:214-231 | both indexes gain exactly the keys of the pod; KeysComeAndGo says which those are |
| PodIndex.KubernetesAdapter.RemovePod | internal/adapter/kubernetes.go:235-250 | both indexes lose exactly those keys |
| PodIndex.KubernetesAdapter.IndexContainerID | internal/adapter/kubernetes.go:255-264 | adds the full ID and, if long enough, its 12-character form |
| PodIndex.KubernetesAdapter.UnindexContainerID | internal/adapter/kubernetes.go:268-277 | removes the same keys |
| PodKeys.StripLeavesId | internal/adapter/kubernetes.go:281-286 | of runtime//id the ID is left, for every runtime and every ID without a slash; a reference without // is unchanged |
| PodKeys.KeysComeAndGo | internal/adapter/kubernetes.go:214-277 | for the container IDs behind its references: after a pod is added its UID, the UID with underscores, each ID and each ID of twelve or more characters cut to twelve lead to it, and no other key is touched; after it is removed none of them leads anywhere |
| PodKeys.FoundByContainer | internal/adapter/kubernetes.go:255-277 | a pod with a container runtime//id is found by that ID and its first twelve characters, and no longer once it is removed |
| PodKeys.HashIsCutOff | internal/adapter/kubernetes.go:422-428 | of deployment-hash the deployment is left; a name without a dash, or with nothing before it, is unchanged |
| PodKeys.InfoIsOfPod | internal/adapter/kubernetes.go:288-308 | name, namespace, node and UID are the pod's; the deployment is that of its first ReplicaSet, or without one its app label |
| PodIndex.KubernetesAdapter.LookupByPath | internal/adapter/kubernetes.go:328-341 | nothing for a path without a UID, else the pod indexed under it; PathsResolve says that this is the live pod |
| PodIndex.AddedAgrees | internal/adapter/kubernetes.go:214-231 | adding a new pod keeps the indexes those of the live pods |
| PodIndex.RemovedAgreesIff | internal/adapter/kubernetes.go:235-250 | removing a pod does so if and only if it shares no key with another live pod |
| PodIndex.IndexesAreRebuilt | internal/adapter/kubernetes.go:145-166 | whenever adds, updates and deletes are truthful and the live pods have hex-and-dash UIDs and distinct 12-character container IDs, both indexes are those rebuilt from the live pods, with no stale key |
| PodIndex.DeliveredIsSession | internal/adapter/kubernetes.go:145-166 | with such identifiers no pod that changes or goes away shares a key with another |
| PodIndex.SessionAgrees | internal/adapter/kubernetes.go:145-166 | more generally, after any session in which pods that change or go away share no key with others the indexes are those of the live pods |
| PodIndex.SameAsRebuilt | internal/adapter/kubernetes.go:145-166 | and, if no live pods share a key, equal to the indexes built by adding the live pods one by one |
| PodIndex.SameInAnyOrder | internal/adapter/kubernetes.go:145-166 | in whatever order they are added |
| PodIndex.RebuiltAgrees | internal/adapter/kubernetes.go:214-231 | adding the live pods one by one gives the indexes of the live pods |
| PodIndex.AgreesUnique | internal/adapter/kubernetes.go:214-277 | without shared keys the live pods determine both indexes |
| PodIndex.WellFormedPodsShareNothing | internal/adapter/kubernetes.go:214-277 | distinct hex-and-dash UIDs and distinct 12-character container IDs exclude shared keys |
| PodIndex.PathsResolve | internal/adapter/kubernetes.go:328-341 | after any session either path of a live pod resolves to that pod |
| Eta.EtaDuration | internal/doctor/eta.go:15-26 | an ETA exists exactly from one nanosecond to seven days, and is the time truncated to nanoseconds |
| Eta.EtaIff | internal/doctor/eta.go:15-26 | for every remainder and rate: e is the ETA if and only if 0 < e <= 7 days and at that rate e nanoseconds use up no more than the remainder and e + 1 more than it; with nothing left or no growth there is none |
| Regression.Average | internal/doctor/predict.go:293-302 | the loop computes the mean, zero for nothing |
| Regression.LinearSlope | internal/doctor/predict.go:305-326 | the slope from the four sums, zero below two values; the zero-denominator branch is dead |
| Regression.SpreadPositive | internal/doctor/predict.go:320-323 | the denominator is n²(n²-1)/12, positive from two values on |
| Regression.LeastSquares | internal/doctor/predict.go:305-326 | no line has smaller squared residuals than the one with this slope and its intercept, and no other line as small ones |
| Regression.SlopeOfLine | internal/doctor/predict.go:305-326 | values on a line have exactly its slope |
| Regression.SlopeAtMost | internal/doctor/predict.go:305-326 | the slope never exceeds the steepest step, so a series that never rises has a slope of at most zero |
| Regression.SlopeAtLeast | internal/doctor/predict.go:305-326 | nor falls short of the flattest step |
| Regression.AffineSlope | internal/doctor/predict.go:305-326 | rescaling the values rescales the slope |
| Prediction.Gather | internal/doctor/predict.go:134-139 | the values of the snapshots that carry the signal, oldest first |
| Prediction.PredictFDExhaustion | internal/doctor/predict.go:83-130 | remaining descriptors over the mean of the positive rates; the test for a non-positive mean is dead |
| Prediction.PredictTrend | internal/doctor/predict.go:133-185 | disk, scheduler and TCP predictors: a rising series below its critical value, with a meaningful ETA |
| Prediction.SortPredictions | internal/doctor/predict.go:363-369 | the swap loops leave the array stably sorted by time to impact |
| Prediction.Predict | internal/doctor/predict.go:56-80 | fewer than two snapshots predict nothing; otherwise the four predictors' findings, sorted; DiskLine, SchedLine, TcpLine and DescriptorsRunOut say on the snapshots what those are |
| Prediction.ReportOrdered | internal/doctor/predict.go:56-80 | the report is a stable permutation, times to impact ascending, each prediction is in (0, 7 days], is what its signal's predictor found, and there are at most four |
| Prediction.ExactLine | internal/doctor/predict.go:133-185 | complete, evenly spaced data on a rising line is predicted if and only if the line crosses within the window, and following it for the ETA ends at the threshold to within a nanosecond |
| Prediction.ExhaustionIff | internal/doctor/predict.go:83-130 | descriptor exhaustion is predicted if and only if two snapshots show growth, the latest has data and what is left goes within the window at the mean rate; the ETA is that time to within a nanosecond |
| TrendLines.LateLine | internal/doctor/predict.go:133-285 | a signal on a line from some snapshot on is predicted after e nanoseconds if and only if its line reaches the critical value then at the rate that the source sees |
| TrendLines.DiskLine | internal/doctor/predict.go:133-185 | that for the sync P99 of disks and 200 ms, on the fields of the snapshots; snapshots without syncs do not count |
| TrendLines.SchedLine | internal/doctor/predict.go:188-237 | that for the run-queue P99 and 20 ms |
| TrendLines.TcpLine | internal/doctor/predict.go:240-289 | that for the TCP retransmit rate and 2%; rates of zero count |
| TrendLines.DescriptorsRunOut | internal/doctor/predict.go:83-130 | exhaustion is predicted after e nanoseconds if and only if two snapshots show growth and the average of the positive growth rates uses up what is left of 65536 then, at least one descriptor |
| Prediction.RateOfRegular | internal/doctor/predict.go:159-161 | with snapshots missing, the rate is the true one times a factor that depends only on which are missing |
| Prediction.RateRightIff | internal/doctor/predict.go:159-161 | so it is right if and only if that factor is one |
| Prediction.LateIsTooSlow | internal/doctor/predict.go:159-161 | a signal absent from the first snapshots is taken to change too slowly, by (present-1)/(all-1) |
| Prediction.LateExample | internal/doctor/predict.go:188-213 | a run-queue delay that grows by 1 ms/s and is missing from the first of three snapshots is taken to grow by half as much |
| Findings.OutranksIsOrder | internal/doctor/finding.go:196-218 | the three-level comparator is a strict weak order |
| Findings.RankFindings | internal/doctor/finding.go:196-218 | a stable sorted permutation, in place |
| Findings.RankingUnique | internal/doctor/finding.go:196-218 | and the only one |
| Findings.RankedPair | internal/doctor/finding.go:194-218 | higher severity first, then shorter ETA, ETA before none, then greater value / threshold, zero where there is no threshold |
| Findings.TopIsWorst | internal/doctor/finding.go:196-218 | the headline has the highest severity of all findings |
| Findings.CountBySeverity | internal/doctor/finding.go:170-182 | counts each severity, and the counts add up |
| Findings.HasCritical | internal/doctor/finding.go:185-192 | true exactly when the worst finding is critical |
| Rules.EvalOOMKillOccurred | internal/doctor/rules.go:109-136 | one critical finding per victim, in order, none if nothing was counted |
| Rules.EvalSyscallLatencyHigh | internal/doctor/rules.go:300-373 | at most one finding, named after the first hot entry, critical if any hot entry is |
| Rules.EvalSyscallErrorRate | internal/doctor/rules.go:433-502 | at most one finding, about the first entry with the highest rate, critical exactly when that rate is at least 10% |
| Rules.ForemostIsMaximum | internal/doctor/rules.go:467-473 | the headline entry fails at least as often as any other |
| Rules.EvalMemoryLimitPressure | internal/doctor/rules.go:509-589 | per container, in order: severity, threshold and ETA |
| Rules.EvalMemoryHighThrottling | internal/doctor/rules.go:596-635 | per container throttled at least once a second, in order |
| Rules.Evaluate | internal/doctor/rules.go:19-41 | everything the rules find, or the healthy finding, stably ranked; ReportIff and ReportSize say on the signals what that is |
| RuleFindings.ReportIff | internal/doctor/rules.go:19-683 | a finding is in the report if and only if the signals warrant it, all of it: rule, severity, value, threshold, process and ETA, each rule stated on the signals with its constants; fd_leak, oom_imminent and memory_limit_pressure have the ETA at which 65536 - net delta, the available memory and limit - current are gone |
| RuleFindings.ReportSize | internal/doctor/rules.go:19-635 | one finding for each rule that is met, one for each OOM victim and for each container under pressure or throttled, or the healthy one alone |
| RuleProperties.HealthyExactlyWhenAlone | internal/doctor/rules.go:34-37 | a report says healthy_system if and only if no rule found anything, and then nothing else; no report is empty |
| RuleProperties.ReportExceedsIff | internal/doctor/rules.go:300-373 | every finding of a report reaches its threshold if and only if the first hot syscall entry is critical whenever one is |
| RuleProperties.HeadlineIsWorst | internal/doctor/rules.go:329-339 | on a snapshot ordered by P99 the finding is about the worst non-blocking entry, exists if and only if that reaches the warning level and is critical if and only if it reaches the critical one |
| RuleProperties.CutMattersIff | internal/collector/syscall.go:166-172 | the cut to 64 rows leaves the latency finding unchanged if and only if a hot entry was kept or there is none at all |
| SnapshotCut.LatencyCutIff | internal/collector/syscall.go:159-169 | that is, if and only if fewer than 64 rows stand before the first hot one or none is hot; those rows are of blocking calls that take at least as long |
| SnapshotCut.LatencyHidden | internal/doctor/rules.go:308-324 | for every warning level there is a log of 65 events, one slow call and then 64 blocking ones of different commands, whose snapshot makes the latency rule silent although a tracked key is slow |
| SnapshotCut.ErrorRateCutIff | internal/doctor/rules.go:433-502 | the cut leaves the error-rate finding unchanged if and only if the entry that fails most was kept or none fails |
| SnapshotCut.ErrorsHidden | internal/doctor/rules.go:433-502 | there is such a log for the error-rate rule: one failing call and then 64 slower ones that do not fail |
| SnapshotCut.SnapshotOfEvents | internal/collector/syscall.go:142-175 | the snapshot after events of different keys, no more than the LRU holds: one row each, of its one event |
| RuleProperties.ReportKeyInjective | internal/ai/analyzer.go:151-168 | two reports with the same cache key list the same rules and severities in the same order |
| RuleLevels.HeadlineIff | internal/doctor/rules.go:19-635 | a report's headline is critical if and only if some signal meets a critical condition, stated on the signals alone, and the report is the healthy finding if and only if none is even noticed |
| RuleLevels.ContainersShow | internal/doctor/rules.go:509-635 | a rule applied container by container alarms if and only if it does for some container |
| RuleMonotone.AlarmsMonotone | internal/doctor/rules.go:45-635 | signals that are nowhere better meet every condition that the better ones met, entries and containers matched in any order |
| RuleMonotone.EvaluateMonotone | internal/doctor/rules.go:19-41 | with the same thresholds, signals that are nowhere better never give a milder headline |
| Pipeline.FindingsReachThresholds | internal/collector/syscall.go:142-175 | because the collector ranks before it cuts, on its snapshots every finding of a report reaches its threshold, and the latency finding is about the worst non-blocking row, exists if and only if that reaches the warning level and is critical if and only if it reaches the critical one |
| Pipeline.FindingIsReal | internal/doctor/rules.go:300-373 | a latency finding on a snapshot is about a tracked non-blocking key, and its value is below twice the exact 99th percentile of that key's calls since it was inserted, and (under 2^63 ns) at least half of it |
| Pipeline.SlowKeyIsReported | internal/doctor/rules.go:300-373 | a key whose exact 99th percentile is at least twice the warning level is not passed over if its row made the cut |
| Pipeline.RowOrigin | internal/collector/syscall.go:142-175 | each row of a snapshot is that of a tracked key and its events since insertion |
| CgroupWalk.WalkCgroups | internal/collector/cgroup_memory.go:203-273 | the recursion computes the specified walk; a child that cannot be read costs only its own entries |
| CgroupWalk.FoundIsInnermost | internal/collector/cgroup_memory.go:203-273 | found are exactly the limited cgroups visible within depth 8 that have no visible limited descendant, with their limits |
| CgroupWalk.FoundOnce | internal/collector/cgroup_memory.go:203-273 | no path is returned twice |
| CgroupWalk.ReportedOnceOnEachBranch | internal/collector/cgroup_memory.go:205-207 | every visible limited cgroup is reported or has a reported descendant, and no reported one lies above another |
| Inotify.DecodeInotifyBatch | internal/cli/audit.go:239-270 | the offset loop reports the events of the decoded records, stays within the buffer and ends |
| Inotify.FindZero | internal/cli/audit.go:272-279 | the first NUL, or -1 |
| Inotify.DecodeUndoesEncode | internal/cli/audit.go:239-270 | decoding any records followed by any cut-off rest gives back both |
| Inotify.EncodeUndoesDecode | internal/cli/audit.go:239-270 | on arbitrary bytes, encoding what was decoded and adding the rest gives the bytes back, and the rest is cut off |
| Inotify.ReportsWhatWasWritten | internal/cli/audit.go:239-270 | events with NUL-padded names are reported in order, with watch path, name, mask and cookie |

## Left out

- The TCP collector: a third use of the LRU, the histogram and the aggregation theory; its snapshot is an input of the rules here.
- Goroutines, channels, tickers, eBPF loading and ring buffers: steps are atomic, a reservation may fail at will.
- Overflow of counters (a uint64, or the uint32 of a connection) and rounding of float64.
- The library's doubly linked list: `Lru.LRU` keeps a sequence of element objects that the map shares with it.
- The histogram's bucket array: Go copies it as a value, so it is a sequence held in a field.
- The library sorts: `sort.Slice` may return any ordered permutation, `sort.SliceStable` the stable one; neither algorithm is modelled.
- Prediction.PredictTrend: one method for the three predictors that differ in signal and critical value only.
- Confidence of predictions: it needs a square root.
- Rules: titles, causes, evidence and fixes of findings.
- Saturation of time differences beyond 292 years in `Prediction.Span`.
- Analyzer.DefaultAnalyzer.Analyze: overlapping calls, which only the step model beside it covers.
- Analyzer: prompts, parsing of answers and the provider's own failures; the outcome is a parameter.
- SchedCollector.SchedCollector.Snapshot: events recorded while it ranks, which the source lets in after giving up its mutex.
- PodIndex.IndexesAreRebuilt: deletions missed between two informer sessions, which leave stale keys by design.
- PodPath.ExtractPodUID: which UID is returned; the two round-trip lemmas say that for the paths that occur.
- PodPath: paths in which a marker occurs before the pod's own, where the code takes the first.
- Disk latency of requests on different devices with the same sector number, which share one map key.
- CgroupWalk: growth rates between polls and the other files of a cgroup.
- Inotify: joining name and path, the operation name and the time stamp.
- Command line, rendering, metrics, configuration and chaos scenarios.
