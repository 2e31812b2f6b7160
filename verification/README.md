# A verified model of LambdaBench's driver

LambdaBench measures AWS Lambda cold and warm starts. Its driver is a protocol run against a service that may
answer anything: a call can succeed, fail, land on a cold or a warm sandbox, return a stale configuration, or never
be answered because a sibling cell failed and the caller was dropped at that await. This project models the driver
with the service as an adversary and proves what survives every run.

`dafny verify dfyconfig.toml` checks everything.

## Modules

| module | models |
|---|---|
| `Evidence` | what a cell's history shows by itself: which replies count, and why an attempt ends |
| `RunLoop` | one cell: four nested retry levels, rows and cycle number that survive a failed attempt, the version guard |
| `Service` | the adversary a cell talks to, its call history, and the guard as an automaton over that history |
| `Pool` | all cells together as a state machine: interleaving, fail-fast drop, drain queue, results file |
| `Recorder`, `Planner` | the results writer; planned and recorded invocations and the run's status |
| `ControlPlane` | `$LATEST` as a history of configurations; bump, settle, publish |
| `Versions` | from the publishes of a function to the histories of its cell |
| `Schedule`, `Timing` | the longest-first order, what it costs on a pool of slots, and timed runs of the pool |
| `RateLimiter` | slot reservation under the lock |
| `SiteNames`, `SiteAssets` | manifest names and texts; upload, record, go live, prune |
| `ProbeLedger` | the scaling probe's creations and their clean-up |
| `Padding` | the chunked SplitMix64 writer against its closed form |
| `Stats` | median, nearest-rank percentile, samples and aggregates |
| `Report`, `ReportRoundTrip` | the REPORT-line expressions with a backtracking matcher, and a printer they invert |
| `CpuLine` | the host-CPU line, logged and read back |
| `Readings` | from the text of a log tail to a written row |
| `Config` | cells, iteration counts, function names, artifact labels, size lookups |
| `Payload`, `GroupBy` | the seeded JSON batch and the Go and Python handlers that group it |
| `Ring` | the cache scenario's retained ring |
| `Text`, `Wrappers` | numerals and lists; results and outcomes |

How things are stated:

- A call of the service is a method that picks its answer freely and appends it to a history. `Outcome` has a third
  case, `Cancelled`, for a caller dropped at that await; every method that awaits passes it up at once.
- A claim about a cell is a claim about its history. A `Window` is the stretch of history one recorded cycle rests
  on, and `AllRows` is what the windows of a cell say its rows must be.
- `Pool` lets each cell do any event that its guard allows and that the service can answer with. `RunCell`'s contract
  makes its histories such events, those of cancelled cells included (`Pool.HistoryIsLegal`, `Pool.CancelledIsDrop`),
  and a finished or failed cell leaves in the file what `RunCell` guarantees.
- Stored text, times and 64-bit words are exact: strings are sequences of characters, times are whole nanoseconds,
  words are integers below 2^64 with their wrap-around written out. Milliseconds are exact reals.

Where code and its documentation differ, the code is modelled:

- The rate limiter is documented to keep to `max_tps` requests per second. The interval is truncated to whole
  nanoseconds, so at 12 TPS a second can hold 13 starts (`RateLimiter.CeilingKeptExactly`, `ConfiguredRates`).
- The payload builder is documented to stop when the closed array reaches the size. It tests before the closing
  bracket is added, so it writes one entry more than needed exactly when some number of entries closes to the very
  size asked for (`Payload.ShortestExactly`, `OneEntryTooMany`).
- The probe's clean-up is documented to leave nothing behind. That holds if and only if no create call fails after
  taking effect (`ProbeLedger.RunSynthetic`, `LeavesFunctionBehind`).

## Model

| member | source | states |
|---|---|---|
| `RunLoop.RunCell` | bencher/src/run.rs:250-303 | Whatever the service answers, a cell that returns success has handed the writer exactly the rows of cycles 0 to cold-1, each resting on its own stretch of the call history since the cell began; a cell that fails leaves the written lines as they were or adds the first rows of its own whole clean record, and never counts; at most cold+2 cycle calls are paid for; the history is uncut, with every reply read from its own log tail, or cut off at one await with exactly what the guard held there leaked; it fails only when the write fails or after three cycle calls, one after the other, each failed for a reason its history shows |
| `RunLoop.WrittenCell` | bencher/src/run.rs:250-332 | Row i of cycle c of a written cell stands at place c(1+warm)+i, has idx i and the cycle's nonce, carries an init or restore marker (a restore on SnapStart) exactly when i is 0, and its report is the one in reply i of that cycle in the history, which has status 200, no function error and, for the Smithy scenarios, a 2xx statusCode in its payload; its host CPU is the one of the cycle's extra invoke if that too went through so and landed warm, and none otherwise |
| `RunLoop.CleanExactly` | bencher/src/run.rs:737-804 | A reply counts exactly when its status is 200, it has no function error, its tail has a report and, for the two Smithy scenarios, its payload has a 2xx statusCode |
| `RunLoop.CpuExactly` | bencher/src/run.rs:611-638 | The extra invoke counts as recycled exactly when it went through and its report has a marker, and reports a CPU exactly when it went through without one and its tail has a CPU line |
| `RunLoop.CycleHistory` | bencher/src/run.rs:437-609 | Behind each cycle of a written cell lie, back to back, its own force (on SnapStart the publish of its own version), its invokes and the extra one, all on that target |
| `RunLoop.CyclesApart` | bencher/src/run.rs:311-332 | Different cycles of a written cell have different nonces, and every invoke of a later cycle came after every invoke of an earlier one |
| `RunLoop.MissingCpu` | bencher/src/run.rs:334-376 | A cycle written without a host CPU had its extra invoke land cold or follows a row of the same cell that has one, across retries and resumed attempts |
| `RunLoop.CellCost` | bencher/src/run.rs:173-231 | A cell costs at most 24(cold+2) cold-forces and (cold+2)(4(6+warm)+1) invokes on the plain path, and 4(cold+2) publishes and deletes on SnapStart, never the product of the retry levels |
| `RunLoop.RunCycles` | bencher/src/run.rs:305-332 | Resumes at the cycle it is given; success means all cycles are kept; on an error the rows and windows kept are a prefix-preserving extension of what was there, and its last call failed for a reason its history shows |
| `RunLoop.RunNextCycle` | bencher/src/run.rs:318-330 | One more cycle is kept with its rows, or rows and cycle number stay as they were; on an error the cycle failed, or its extra invoke reported no CPU, did not land cold, and no kept cycle has a CPU |
| `RunLoop.RunOneCycle` | bencher/src/run.rs:383-408 | Re-runs a recycled cycle at most 4 times; what it returns is one unbroken stretch: opening, one cold and `warm` warm invokes, the host-CPU invoke; it fails only after a failed attempt or four that lost their sandbox |
| `RunLoop.TryOneCycle` | bencher/src/run.rs:422-435 | Either path of an attempt leaves the version guard idle and costs at most one attempt's calls |
| `RunLoop.TryOneLatestCycle` | bencher/src/run.rs:437-465 | The rows of a completed attempt are the replies that follow its own last cold-force back to back; an error has a failed call, a bad reply or six warm forces behind it |
| `RunLoop.ForceColdInvoke` | bencher/src/run.rs:682-730 | Success ends with a fresh nonce's force directly followed by an invoke whose report has a cold marker; at most 6 of each; it fails only on a failed call or a bad reply, or after six rounds of force, warm invoke and back-off |
| `RunLoop.CollectWarmInvokes` | bencher/src/run.rs:640-680 | All replies are clean and unmarked and the rows match them one for one with idx 1 to warm, or the first cold one stops the cycle with its index; it fails only on a failed call or a bad reply |
| `RunLoop.ReportHostCpu` | bencher/src/run.rs:611-638 | One extra invoke on the same target; its failure is kept as an outcome and only a cancellation loses the cycle |
| `RunLoop.ApplyHostCpu` | bencher/src/run.rs:334-376 | Stamps every row of the cycle with a reported CPU; without one, keeps the cycle exactly when the extra invoke was recycled or the cell has reported a CPU before |
| `RunLoop.TryOneSnapstartCycle` | bencher/src/run.rs:508-546 | The guard is idle at every exit; the version joins the drain queue exactly when the attempt is cancelled while the guard is armed |
| `RunLoop.RunSnapstartInvokes` | bencher/src/run.rs:548-609 | All invokes go to the published version and the first one must carry a restore; a reply that went through and restored is never refused |
| `RunLoop.EndSnapstartCycle` | bencher/src/run.rs:534-546 | A cycle that was not cancelled starts one inline delete; if it is cancelled during it, the still armed guard queues the version as well |
| `RunLoop.VersionGuard.Drop` | bencher/src/run.rs:493-506 | An armed guard queues its version, a disarmed one does nothing |
| `RunLoop.CpuSeen` | bencher/src/run.rs:320-330 | A host CPU is present in the kept rows exactly when some kept cycle reported one |
| `RunLoop.RowsOfCycle` | bencher/src/run.rs:311-332 | The rows of cycle c directly follow those of all cycles before it |
| `Pool.EveryVersionReclaimed` | bencher/src/run.rs:88-165 | In every run of the pool, under any interleaving and any fail-fast drop: a version handed back has had one or two deletes started when the run returns, exactly one unless its cell was dropped, two only as one inline and one drained; no other version is touched |
| `Pool.InvAlways` | bencher/src/run.rs:88-136 | At every reachable state guards, drain queue, row counter and file agree with the cells' histories |
| `Pool.RecordedExactlyWhenOk` | bencher/src/run.rs:88-165 | A returned run has recorded all planned rows exactly when no cell failed; the file is one whole block per finished cell, resting on that cell's own history, followed after a failure by at most the first rows of the failed cell's own clean record |
| `Pool.PoolBound` | bencher/src/run.rs:88-94 | Never more cells in flight than the pool allows, and cells start in the order given |
| `Pool.AccountedNext` | bencher/src/run.rs:467-546 | One more event keeps each version in exactly one place: untouched, under its guard, being deleted, deleted, leaked, or deleted inline and leaked |
| `Pool.FailKeeps` | bencher/src/run.rs:88-136 | Dropping all cells in flight queues each armed version once and leaves every guard idle |
| `Pool.DropOk` | bencher/src/run.rs:493-506 | A dropped cell has no armed guard left |
| `Pool.LeaksCounted` | bencher/src/run.rs:138-165 | The drop queues for each cell exactly what its guard held |
| `Pool.HistoryIsLegal` | bencher/src/run.rs:467-546 | Every history a cell leaves without being cancelled is, event by event, something its pool cell may do |
| `Pool.CancelledIsDrop` | bencher/src/run.rs:493-546 | Every history a cancelled cell leaves is legal up to the await it was dropped at and then, without the event cut off there, exactly what the pool's drop makes of the running cell, with the same versions queued |
| `Recorder.ResultsWriter.WriteCell` | bencher/src/record.rs:128-155 | A returned cell lies contiguously before the flush mark and is counted whole; a failed one is not counted and leaves a prefix of its lines |
| `Planner.TallyBuckets` | bencher/src/main.rs:335-352 | Each bucket counts exactly the cells that resolved to its counts |
| `Planner.SumBuckets` | bencher/src/main.rs:344-352 | The bucket tallies sum to the invocations of the cells of the run |
| `Planner.StatusTellsCompleteness` | bencher/src/main.rs:389-404 | At the end of any run the status is ok exactly when recorded equals planned and failed exactly when it is smaller |
| `Planner.StatusOfRun` | bencher/src/main.rs:335-404 | The same although the tally is made in matrix order and the cells run longest first |
| `ControlPlane.AcceptedIsOurs` | bencher/src/aws/lambda.rs:603-659 | With a pre-read revision that was still current at the update, a later read that passes the readiness test sees this very update, settled |
| `ControlPlane.SettledPreReadIsGood` | bencher/src/aws/lambda.rs:432-478 | A pre-read that saw the last update settled was still current at the new update and lets no later read pass before it |
| `ControlPlane.NeverStaleExactly` | bencher/src/aws/lambda.rs:446-478 | However the service goes on after a pre-read, the next update's poll cannot accept a stale state, if and only if the last update has settled and nothing since the pre-read passes the test; a settled pre-read of the last update meets that |
| `ControlPlane.StaleAcceptWithoutRevision` | bencher/src/aws/lambda.rs:603-612 | Without the revision test there is a history in which a poll accepts the previous update |
| `ControlPlane.StaleAcceptAfterStalePreRead` | bencher/src/aws/lambda.rs:446-478 | With it, two bumps are enough: the first fails after its update registered, the second reads a configuration from before it and then accepts the first one's update for its own |
| `ControlPlane.WaitReady` | bencher/src/aws/lambda.rs:603-659 | Success means the last configuration read passes the test; polling registers no update; it gives up only when a read fails, brings no configuration or a failed update, or after 600 reads that left it open |
| `ControlPlane.WaitVersionActive` | bencher/src/aws/lambda.rs:519-567 | All polls are of the version asked for, and all but the last showed it pending; success means the last one found it active with its snapshot, an error that it failed, is active without its snapshot, the call failed, or 600 polls are used up |
| `ControlPlane.BumpColdNonce` | bencher/src/aws/lambda.rs:432-478 | Success puts the nonce, and nothing else, into the environment that was read; the update polled for has settled whenever the pre-read was current, which it is after every settled update; whatever fails, the rest of the environment is untouched and no other nonce comes into use |
| `ControlPlane.BumpAndPublishMany` | bencher/src/aws/lambda.rs:414-517 | Over any number of bumps and publishes under distinct new nonces, whatever fails in between: every variable but the nonce keeps its deployed value in the whole history; version numbers handed back are new, strictly increasing, and each version carries the deployed environment with its own nonce; while all succeed every update has settled; each number handed back was found active with its snapshot by a poll made after that version existed |
| `ControlPlane.DeployedExactly` | bencher/src/aws/lambda.rs:432-478 | Environments that agree as deployed have the same variables with the same values, COLD_NONCE apart |
| `Versions.HandedOnce` | bencher/src/aws/lambda.rs:480-517 | In any history whose versions are those handed back by bumps and publishes of one function, whatever fails in between, each version is handed back once |
| `ControlPlane.PublishColdVersion` | bencher/src/aws/lambda.rs:480-517 | A version handed back is new and carries the deployed environment with the unused nonce; no other nonce comes into use, and a function that was settled is settled again; it has been polled after its publish, pending until the last poll found it active with its snapshot |
| `ControlPlane.BumpSettled` | bencher/src/aws/lambda.rs:446-478 | From the histories before and after the update: the poll saw this update settle when the pre-read was current or the function was settled before |
| `ControlPlane.Monotone` | bencher/src/aws/lambda.rs:585-601 | Revisions and updates never go back, equal updates have equal environments, and a later update has a later revision |
| `ControlPlane.SettledStays` | bencher/src/aws/lambda.rs:603-659 | A settled configuration stays the last one until the next update |
| `SiteAssets.PublishAll` | deploy/run-benchmark.sh:209-227 | After any number of publishes, each of which may stop after any single put or delete and each with its own `keep` of at least k: every asset of a live page and of the newest k manifests is present, and each live page's references are in a recorded manifest |
| `SiteAssets.Publish` | deploy/run-benchmark.sh:209-227 | The same after one publish; wherever it stops, only pages the build lacks, assets it does not list and manifests that keep-1 others followed are gone; if it gets through, the live pages are exactly the build's, and from `keep` manifests on exactly `keep` of them are left and no asset that neither they nor the build list |
| `SiteAssets.Site.Upload` | deploy/run-benchmark.sh:209-212 | Adds some of the build's assets, all of them on success, and deletes nothing |
| `SiteAssets.Site.Record` | deploy/site-assets.py:87-93 | Writes a manifest that reads back as exactly the build's assets and is the newest, or nothing; refuses an empty build |
| `SiteAssets.Site.GoLive` | deploy/run-benchmark.sh:218-221 | Changes pages only, never assets or manifests; wherever it stops, no page the build has is lost and each page is as it was or the build's; on success exactly the build's pages are left |
| `SiteAssets.Site.DeleteKeys` | deploy/site-assets.py:61-73 | Deletes the given keys in batches; an error leaves a part of them deleted and nothing else |
| `SiteAssets.Site.Prune` | deploy/site-assets.py:96-113 | Deletes nothing before `keep` manifests exist, and otherwise only unreferenced assets and expired manifests; on success the newest `keep` manifests are left, and an asset is left exactly when the build or one of them lists it |
| `SiteAssets.PruneLeaves` | deploy/site-assets.py:96-113 | The same of the set that pruning removes, for any bucket |
| `SiteAssets.PruneKeeps` | deploy/site-assets.py:16-19 | Any part of a pruning leaves the bucket sound, for any number of builds up to `keep`, once the live pages are those of the newest recorded build |
| `SiteAssets.PruneSettles` | deploy/site-assets.py:16-19 | After a pruning that got through, the kept manifests are exactly those left and none of them names a missing asset |
| `SiteAssets.LostBeyondKeep` | deploy/site-assets.py:111-112 | Why no more than `keep` builds are promised: an interrupted pruning can leave an older manifest whose asset is gone, and only beyond the newest `keep` |
| `SiteAssets.SliceIsRecent` | deploy/site-assets.py:105 | In name order the last `keep` names are exactly the manifests with fewer than `keep` later ones |
| `SiteAssets.RankAfterPrune` | deploy/site-assets.py:105-112 | Removing expired manifests moves no kept one and makes no expired one recent |
| `SiteAssets.PutManifestKeeps` | deploy/site-assets.py:87-93 | A manifest that sorts after all others pushes each of them one place down and keeps the bucket sound |
| `SiteAssets.PutAssetKeeps` | deploy/run-benchmark.sh:209-212 | Uploading one asset keeps the bucket sound |
| `SiteAssets.PutPageKeeps` | deploy/run-benchmark.sh:218-221 | Writing a page whose references are present and recorded keeps the bucket sound |
| `SiteAssets.DropPageKeeps` | deploy/run-benchmark.sh:218-221 | Deleting a page keeps the bucket sound |
| `SiteAssets.KeySpaces` | deploy/site-assets.py:37-41 | No key is in both sync passes, neither owns a manifest, and outside `_deploys/` they own every key |
| `SiteNames.StampOrder` | deploy/site-assets.py:89 | Name order of the fixed-width stamps is time order |
| `SiteNames.ManifestOrder` | deploy/site-assets.py:89-90 | Manifests of later builds sort later, and only they do |
| `SiteNames.ManifestRoundTrip` | deploy/site-assets.py:91-109 | Reading a manifest gives back the keys that were written |
| `SiteNames.FixedOrder` | deploy/site-assets.py:89 | Fixed-width numerals are ordered and equal as the numbers are |
| `Schedule.GrahamLongestFirst` | bencher/src/run.rs:27-53 | Longest first on p slots that take the next cell as soon as one frees, the run ends within 4/3 - 1/(3p) of any schedule of the same cells |
| `Schedule.GrahamAnyOrder` | bencher/src/run.rs:88-94 | In any order it ends within 2 - 1/p of any schedule |
| `Schedule.LastFinisherBound` | bencher/src/run.rs:88-94 | p times the makespan is at most the total plus p-1 times the last finisher |
| `Schedule.LongJobsPackWell` | bencher/src/run.rs:27-33 | A job longer than a third of another schedule's makespan finishes within that makespan |
| `Schedule.SortIsStable` | bencher/src/run.rs:29-33 | The order is a permutation, longest first, that keeps the order of equal estimates |
| `Schedule.StableSortUnique` | bencher/src/run.rs:29-33 | It is the only sequence with these properties |
| `Schedule.RunOrderBound` | bencher/src/run.rs:27-94 | The cells' own order meets the 4/3 bound whenever they take as long as estimated |
| `Schedule.LowMemoryBatchFirst` | bencher/src/run.rs:27-55 | In a full run no other cell from 128 MB on starts before a batch cell on at most 512 MB; only a SnapStart cell may start before a starved Python one |
| `Schedule.LessMemoryLonger` | bencher/src/run.rs:35-55 | With the same counts less memory never shortens an estimate; above a full CPU memory makes no difference, and below it the invokes take inversely as long |
| `Timing.RunIsGreedy` | bencher/src/run.rs:88-94 | Every timed run in which a cell starts as soon as a slot is free, and time passes only when none is or no cell is left, is a greedy schedule, and its clock ends at the last finisher |
| `Timing.PoolInTime` | bencher/src/run.rs:88-94 | A run of the pool and a timed run that have started and ended cells in the same order are at the same cell with the same number in flight, and the pool may start its next cell exactly when the timed run has a slot free |
| `Timing.TimedRunBound` | bencher/src/run.rs:27-94 | So a timed run of the cells' own order ends within 4/3 - 1/(3p) of any schedule, when they take as long as estimated |
| `Timing.FreeSlot` | bencher/src/run.rs:88-94 | A slot is free exactly when fewer cells are in flight than the pool allows |
| `Padding.WriteIncompressible` | bencher/src/probe/synthetic.rs:207-239 | Writes exactly the closed-form stream of the asked length, however the chunks fall; a failing sink has a prefix of it |
| `Padding.FillChunk` | bencher/src/probe/synthetic.rs:224-233 | A chunk holds the next 131072 words of the stream and the state stands after them |
| `Padding.NextWord` | bencher/src/probe/synthetic.rs:226-231 | One step of wrapping arithmetic yields the next state and word of the closed form |
| `Padding.MixIsBijective` | bencher/src/probe/synthetic.rs:227-230 | The mixer is a bijection on 64-bit words, with its inverse given |
| `Padding.FoldUndone` | bencher/src/probe/synthetic.rs:228-230 | Xor with a right shift of at least a third of the width is undone on both sides |
| `Padding.SameState` | bencher/src/probe/synthetic.rs:220-227 | Because the step is odd, equal states are a whole period of 2^64 steps apart |
| `Padding.WordsDiffer` | bencher/src/probe/synthetic.rs:207-217 | No two words of one period are equal |
| `Padding.NoAlignedRepeat` | bencher/src/probe/synthetic.rs:207-217 | No two aligned 8-byte words of a padding are equal |
| `Padding.ShorterIsPrefix` | bencher/src/probe/synthetic.rs:207-239 | A shorter padding is a prefix of a longer one |
| `RateLimiter.Limiter.PerSecond` | bencher/src/aws/rate_limiter.rs:24-30 | The interval is a second divided by max_tps, truncated, and the first slot is now |
| `RateLimiter.Limiter.Acquire` | bencher/src/aws/rate_limiter.rs:32-43 | The slot is the later of the caller's arrival and the next free slot, and all slots so far are one reservation run |
| `RateLimiter.SlotsAreSchedule` | bencher/src/aws/rate_limiter.rs:32-43 | Slots are never before the arrival and consecutive ones at least the interval apart |
| `RateLimiter.SlotsAreEarliest` | bencher/src/aws/rate_limiter.rs:32-43 | Among all such schedules in lock order, every single slot is the earliest possible |
| `RateLimiter.SlotsApart` | bencher/src/aws/rate_limiter.rs:32-43 | Any two slots are at least one interval per acquirer apart |
| `RateLimiter.WindowBound` | bencher/src/aws/rate_limiter.rs:22-43 | A half-open window of W ns holds at most ceil(W/d) slots |
| `RateLimiter.CeilingKeptExactly` | bencher/src/aws/rate_limiter.rs:1-30 | `max_tps` starts in any second are kept by every run if and only if `max_tps` divides a second into whole nanoseconds |
| `RateLimiter.BurstOverflows` | bencher/src/aws/rate_limiter.rs:24-30 | Otherwise max_tps+1 acquirers at once all start within one second |
| `RateLimiter.ConfiguredRates` | bencher/src/aws.rs:54-67 | 8 per second at 8 TPS; 13 and never more at 12 TPS, and 13 does happen |
| `Stats.OrderDoesNotMatter` | bencher/src/probe/sample.rs:245-254 | Order statistics depend only on the multiset of samples |
| `Stats.Median` | bencher/src/probe/sample.rs:318-330 | Sorts in place and returns the mean of the two central ranks |
| `Stats.Percentile` | bencher/src/probe/sample.rs:245-254 | Sorts in place and returns the nearest rank |
| `Stats.PercentileIsSmallest` | bencher/src/probe/sample.rs:245-254 | The percentile is a sample with at least q of the samples at or below it, and no smaller value has that |
| `Stats.MedianSplits` | bencher/src/probe/sample.rs:318-330 | At least half of the samples lie on each side of the median |
| `Stats.MedianMoves` | bencher/src/probe/sample.rs:318-330 | Shifting all samples shifts the median, and negating them negates it, which between the two central ranks only their mean does |
| `Stats.RanksMonotone` | bencher/src/probe/sample.rs:162-182 | Lowering samples one by one lowers every order statistic |
| `Stats.PercentilesOrdered` | bencher/src/probe/sample.rs:232-240 | min <= p50 <= p90 <= p99 <= max for every sample count |
| `Stats.WarmRttBounded` | bencher/src/probe/sample.rs:162-182 | 0 <= warm_rtt <= w_warm, although the two medians may come from different invokes |
| `Stats.TakeSample` | bencher/src/probe/sample.rs:104-192 | Fails exactly when no cold start could be forced or one of the warm invokes failed or landed cold; otherwise the cold terms are those of the first invoke with an init duration, the round trip is the median of what each warm invoke's wall time has over its handler duration (0 if nothing), w_warm the median of the wall times, and w_cold = init + cold_duration + warm_rtt + residual |
| `Stats.ForceCold` | bencher/src/probe/sample.rs:112-152 | Succeeds exactly when one of the first six tries reports an init duration and none before it failed; a restore does not count |
| `Stats.Aggregate` | bencher/src/probe/sample.rs:60-87 | Every field is the median or the spread of its own term over the samples |
| `Stats.AggregateFields` | bencher/src/probe/sample.rs:60-87 | The same in the samples' own fields, column by column |
| `Stats.SampleCallerWarm` | bencher/src/probe/sample.rs:215-243 | Spread and percentiles are those of the samples as taken, although each call sorts them again |
| `Stats.AggregateConsistent` | bencher/src/probe/sample.rs:60-87 | Each aggregated median lies within its spread, and the round trip still does not exceed the caller's wait, although the medians may come from different samples |
| `Stats.Spread` | bencher/src/probe/sample.rs:53-58 | The least and the greatest sample |
| `ReportRoundTrip.LineRoundTrip` | bencher/src/parse.rs:92-162 | Parsing a printed REPORT line gives back every field, for any values, any order of real and billed markers and any trailing fields without a marker word |
| `ReportRoundTrip.ColdExactly` | bencher/src/parse.rs:30-37 | The line reads as cold exactly when an unbilled marker was printed |
| `ReportRoundTrip.TailRoundTrip` | bencher/src/parse.rs:90-100 | In a whole log tail the last REPORT line wins and is read back exactly: with either line ending and any lines without the prefix behind it, or as the last line without an ending |
| `ReportRoundTrip.NoReportLine` | bencher/src/parse.rs:90-100 | A tail without a REPORT line is an error |
| `CpuLine.CpuRoundTrip` | bencher/src/parse.rs:165-176 | In a whole log tail the last CPU that is logged is read back without the white space around it, behind any prefix of its line and whether or not that is the last line and has an ending |
| `CpuLine.NoCpuLine` | bencher/src/parse.rs:165-176 | A tail whose lines have no marker, or nothing but white space behind it, reads as no CPU |
| `Readings.TailMakesColdReply` | bencher/src/run.rs:552-609 | A reply with such a tail is clean and carries exactly the printed fields, and passes as the cell's cold start if and only if an unbilled marker was printed, a restore on SnapStart |
| `Readings.WrittenReport` | bencher/src/run.rs:611-680 | In a cell that was not cancelled, every row of its record carries what the parser reads from the log tail of that row's own invoke, and a host CPU only as read from the tail of the cycle's extra invoke |
| `ReportRoundTrip.MarkerRecovered` | bencher/src/parse.rs:59-88 | The first unbilled marker of a kind is found behind any number of billed ones and other fields |
| `ReportRoundTrip.LastWins` | bencher/src/parse.rs:92-100 | The last line with the REPORT prefix is chosen |
| `ReportRoundTrip.ParsePrintedDecimal` | bencher/src/parse.rs:102-120 | Printed decimals parse to their exact value |
| `ReportRoundTrip.WholeNumbers` | bencher/src/parse.rs:102-120 | Printed whole numbers parse to their value below 2^63 and are refused from there on |
| `Report.MarkerHit` | bencher/src/parse.rs:59-88 | A match of a marker pattern covers at least its word and always captures its number |
| `Config.NameRoundTrip` | bencher/src/config.rs:721-744 | A decoder recovers every valid cell from its function name, for any non-negative memory |
| `Config.LabelRoundTrip` | bencher/src/config.rs:852-887 | A decoder recovers every reachable artifact key from its label |
| `Config.NamesDistinct` | bencher/src/config.rs:721-744 | No two valid cells share a function name |
| `Config.UniqueArtifacts` | bencher/src/config.rs:1051-1061 | The distinct keys of the cells, each once, in the order of their first cell |
| `Config.NothingOverwritten` | bencher/src/deploy.rs:100-107 | A table filled by label from duplicate-free keys with distinct labels has one entry per key, holding that key's build |
| `Config.EveryCellFindsItsArtifact` | bencher/src/deploy.rs:109-117 | Building once per unique key, every later lookup by a cell's label finds the build of that cell's own key |
| `Config.SharedExactly` | bencher/src/config.rs:800-816 | Two valid cells share a label exactly when they have the same language, scenario, opt level and jitter and, for Rust, Go and Python's authz bundle, the same architecture |
| `Config.SizesFromArtifacts` | bencher/src/deploy.rs:26-53 | Fails exactly when some cell's label is missing, and otherwise maps each function name to the sizes under that cell's label |
| `Config.FairCounts` | bencher/src/config.rs:693-719 | A smoke run treats all cells alike; jitter pairs and both their scenarios are sampled alike; SnapStart takes the same warm invokes and never more cold cycles than the same cell without it, at most 10 |
| `Config.FullInvocations` | bencher/src/config.rs:405-436 | A full run plans 2550 invokes for a light cell or a jitter pair's, 7505 for the other heavy scenarios, 3015 for batch, fewer for starved Python, and a fifth of the light cold starts on SnapStart |
| `ProbeLedger.RunSynthetic` | bencher/src/probe/synthetic.rs:294-364 | However a scaling probe ends, the deletes started are exactly the creations it was told of, each once; what exists undeleted is exactly what landed although its create call failed; it fails only if some step was not answered with success |
| `ProbeLedger.LeavesFunctionBehind` | bencher/src/probe/synthetic.rs:367-421 | Such a run: the first create call takes effect and fails, and its function is never deleted |
| `ProbeLedger.RunSyntheticImage` | bencher/src/probe/image.rs:150-168 | The image part settles its own functions and tags whatever fails |
| `ProbeLedger.RetryCreateRolePropagation` | bencher/src/aws/lambda.rs:892-949 | At most 30 create calls; it succeeds, and the creation is acknowledged, exactly when one of the first 30 calls succeeds with only role refusals before it |
| `ProbeLedger.NamesApart` | bencher/src/config.rs:152-154 | Different families or sizes have different function names, and none is the name of a cell's function |
| `ProbeLedger.TagsApart` | bencher/src/probe/image.rs:278-307 | Within a run, different sizes have different image tags |
| `ProbeLedger.CreateFunctionFromZip` | bencher/src/aws/lambda.rs:167-223 | Hands back function and staged zip, or has started one delete for each of them that exists |
| `ProbeLedger.CreateFunctionFromImage` | bencher/src/aws/lambda.rs:225-300 | Hands back the function, or has started its delete |
| `ProbeLedger.SampleAll` | bencher/src/probe/synthetic.rs:367-421 | At any failure the ledger holds exactly the creations without a delete; on success the samples are the full grid of families and sizes in order |
| `ProbeLedger.TeardownSynthetic` | bencher/src/probe/synthetic.rs:452-468 | One function delete and one zip delete per ledger entry |
| `ProbeLedger.BuildAndPushImage` | bencher/src/probe/image.rs:262-343 | A pushed tag is in the ledger even if reading its size fails |
| `ProbeLedger.SampleAllImages` | bencher/src/probe/image.rs:345-426 | At any failure the two ledgers hold exactly the creations without a delete; on success they hold one tag and two functions per size |
| `ProbeLedger.TeardownSyntheticImages` | bencher/src/probe/image.rs:455-478 | One delete per function and per tag |
| `Payload.BuildJsonArray` | bencher/src/aws/s3.rs:322-340 | The payload is the array of the first n entries, n the least count whose unclosed text has min_bytes; that is also the least closed array of that size if and only if no number of entries closes to exactly min_bytes |
| `Payload.ShortestExactly` | bencher/src/aws/s3.rs:322-340 | The exact condition, in the entries and the size alone |
| `Payload.OneEntryTooMany` | bencher/src/aws/s3.rs:312-340 | For every cardinality there is a size for which one batch record would do and two are written |
| `Payload.ArrayRoundTrip` | bencher/src/aws/s3.rs:322-340 | For any entries that are complete JSON strings or objects, with whatever escapes and nesting, reading the array gives back exactly the entries |
| `Payload.BatchEntryReads` | bencher/src/aws/s3.rs:312-320 | Each rendered record is one array element and reads back as its key and value |
| `Payload.GenerateBatchPayload` | bencher/src/aws/s3.rs:306-320 | The batch decodes to the first n records and n is the least count that reaches min_bytes |
| `Payload.LetterEntryReads` | bencher/src/aws/s3.rs:275-304 | Every entry of the letter-count document is one JSON string, and its ASCII check always passes |
| `Payload.LettersDiffer` | bencher/src/aws/s3.rs:280-292 | No two entries are the same text, and their three leading words repeat exactly every 512 entries |
| `Payload.GenerateLetterCountPayload` | bencher/src/aws/s3.rs:275-304 | The document decodes to its first n entries, n the least count that reaches min_bytes |
| `GroupBy.ProcessBatch` | scenarios/go/batch/main.go:87-118 | Every key once, with the count and the 64-bit sum of the records that have it, and the 64-bit total |
| `GroupBy.Handle` | scenarios/python/batch/handler.py:52-85 | An error at the first malformed record exactly when there is one; otherwise every key once with its count and the sum of its integers and floats, in the order keys first appear; in the items' own numbers, the total is their sum and each group's sum and count are those of the items with its key |
| `GroupBy.GroupsAddUp` | scenarios/go/batch/main.go:92-117 | In any answer the counts add up to the records and the sums to the total, wrapping in Go and exact in Python |
| `GroupBy.SumsLawful` | scenarios/go/batch/main.go:101-103 | Both languages' additions can be regrouped and reordered, so the totals law applies to both |
| `GroupBy.GoSumsWrap` | scenarios/go/batch/main.go:101-103 | Go's sums are the exact ones wrapped once at the end |
| `GroupBy.HandlersAgree` | scenarios/python/batch/handler.py:52-85 | On integer records Go and Python agree on records, groups and counts, and on every sum that stays within 64 bits |
| `GroupBy.SeededGroups` | bencher/src/aws/s3.rs:306-320 | The first n seeded records have min(n, cardinality) keys |
| `GroupBy.SeedThenGroup` | bencher/src/aws/s3.rs:306-340 | For every size and cardinality, seeding, decoding and grouping succeed in Go and in Python: the payload decodes to the first n seeded records, n the least count that reaches the size, and both answers have n records and min(n, cardinality) groups; Python's total is the sum of i mod 997 + 1 over i < n, and while that is below 2^63 Go's is the same and all group sums agree |
| `GroupBy.SeededAnswer` | scenarios/go/batch/main.go:87-118 | In either language, any answer for n records with the keys of the first n seeded ones has n records and min(n, cardinality) groups |
| `GroupBy.AccumulateStep` | scenarios/go/batch/main.go:94-104 | Adding one record to its accumulator keeps every accumulator equal to the filtered fold |
| `Ring.State.ChurnAndScan` | scenarios/go/cache/main.go:72-87 | After every call the ring is full, the cursor is calls*churn mod entries, each slot holds the very buffer that the last write to land on it allocated, and the checksum is their scan |
| `Ring.ScanIsEveryTenth` | scenarios/go/cache/main.go:80-87 | The checksum is the sum of the first bytes of the slots whose number ends in 0 |
| `Ring.FirstBuffersGone` | scenarios/go/cache/main.go:57-87 | None of the first buffers is in the ring exactly when the writes have gone round it |
| `Ring.BuffersDiffer` | scenarios/go/cache/main.go:72-87 | From then on no buffer is in two slots, and all were allocated within the last round of writes |
| `Ring.SteadyContents` | scenarios/python/cache/handler.py:47-60 | When churn divides the ring, the first bytes and the checksum are the same after every call from the first full round on |
| `Ring.SteadyFromFifthCall` | scenarios/python/cache/handler.py:32-36 | With the handlers' constants the checksum is constant from the fifth call on |

## Left out

Assumptions of the model:

- Nonces are distinct: a counter stands for version-4 UUIDs.
- `Service.Possible`: a function's version numbers are never handed back twice. `Versions.HandedOnce` derives that from
  what `ControlPlane.BumpAndPublishMany` promises of successive publishes.
- The version guard's promise starts when a version is handed back. A version whose activation wait fails, or whose
  publish is cancelled, is outside it, in the code as in `Pool`.
- `ControlPlane` assumes fresh revision ids, reads that never go back, and one writer per function. Revision ids
  are numbered in order of creation. A configuration that is returned carries its revision id and its variables; the
  code reads a missing id as "no revision test" (`StaleAcceptWithoutRevision` shows what that admits) and missing
  variables as none.
- `SiteAssets` assumes that the clock of successive publishes advances, that asset names contain no line breaks,
  that a page loads only assets of its own build, and one publish at a time, between the years 1000
  and 9999.
- `Schedule` and `Timing` compare with any assignment of the same durations to the slots; real durations need not
  match the estimates, and `RunOrderBound` says what holds if they do.
- A wake-up of the rate limiter may be late, never early; the slots are what is bounded.
- A pool size of 0 means no limit, as in the stream combinator the driver uses, which is not part of this model.

Not modelled:

- Floating-point rounding: durations, samples and estimates are exact reals.
- `Stats.Median`: sorting in place is shown against a sorted sequence; the library sort itself is an insertion sort
  here.
- `SiteAssets.Sorted`: Python's `sorted` is a selection sort here; only its result matters.
- `Payload.ArrayRoundTrip`: the reader finds where strings and objects end, in an array without white space; it does
  not judge what is inside an object. Bare numbers are not entries.
- `ReportRoundTrip.TailRoundTrip`: a tail that ends in the REPORT line and a bare carriage return.
- `GroupBy.Handle`: Python's floats are exact reals.
- `GroupBy.ProcessBatch`: the record counter's 64-bit width, which no slice length can exceed.
- `RunLoop.RunCell`: sizes, timestamps and artifact data of a row, which are copied from fixed inputs.
- `Recorder.ResultsWriter.WriteCell`: compression; a line is one element.
- `ProbeLedger.BuildAndPushImage`: the local build directory and `crane`; either is a step that may fail.
- A process killed outright, in which no clean-up runs.
- Real AWS calls, credentials, IAM, DynamoDB, KMS, bucket provisioning, `teardown` and `doctor`: thin wrappers.
- Artifact building, subprocess output, log text and error wording; the site's pages, charts and statistics library;
  the CDK stacks.
- Properties of the fixed matrix that listing its cells settles.
