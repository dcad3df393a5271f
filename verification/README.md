# Verified model of the GitLab exporter's stateful parts

This Dafny project models the parts of a Prometheus exporter for GitLab that hold state, run
concurrently or do arithmetic, and proves what they promise.

- **Rate limiter.** `RateLimiter.dfy` is the header-aware limiter as an object, with a ghost history of
  the updates it has seen; `ConcurrentClients.dfy` is any number of goroutines sharing it, one memory
  access per step; `Spreading.dfy` follows one client through a window that is nearly exhausted.
  The Retry-After branch is the delay-seconds form of section 10.2.3 of RFC 9110.
- **Pagination and discovery.** `Pagination.dfy` chases next pages and feeds the limiter;
  `Discovery.dfy` merges explicit names with wildcard listings.
- **Merge requests.** `MergeRequests.dfy` is the aggregation pass, its accumulators and the collector
  object; `Histogram.dfy` groups and buckets observations; `Gauges.dfy` and `Tally.dfy` cover counting
  maps and the gauges emitted by ranging over them; `HistogramTheorems.dfy` and
  `MergeRequestTheorems.dfy` hold what follows, `PublishedSeries.dfy` reads every published series back
  from the fields of the listed merge requests, `Decimal.dfy` has the digit readers, and `Snapshot.dfy` the
  race between cycles, scrapes and project updates under the read-write mutex.
- **Reviews, jobs, pipelines.** `CodeReview.dfy`, `Jobs.dfy` and `Pipelines.dfy` are the other
  collectors whose metrics must agree with each other, over the labelled vectors of `Metrics.dfy`.
- **Scheduler.** `Scheduler.dfy` is the exporter's life cycle as a machine: main goroutine, WaitGroup,
  cancellation, one goroutine and one ticker per task. `Registration.dfy` is the scheduler object and
  the table that fills it. `TaskQueue.dfy` is the bounded lossy queue, with the panics of its tasks.

## Conventions

Time is an integer number of nanoseconds from one non-decreasing clock; every clock reading, network
reply, cancellation and scheduling choice is a parameter or a step label, so each theorem is about all
of them. A listing is the sequence of replies that arrive; nothing relates two of them. Durations and
other float64 values are exact integers or reals. A Go map iteration is an arbitrary duplicate-free
order of the keys (`RangeOrder`), chosen anew by every loop. Where code changes fields, the model is a
class whose methods are tied to functions of the old state or to the steps of a machine; concurrency is
a machine with explicit steps, and a run is a sequence of step labels (`Enabled`, `Apply`, `Runs`,
`After`). What such functions and steps mean is then stated from raw inputs: header values, fields of
listed merge requests, recorded jobs, step labels.

Some facts worth knowing about the code itself came out of the proofs:

- A repeated bucket bound is counted once per repetition, so the emitted histograms are cumulative for
  all observations exactly when the configured list has no repetition
  (`HistogramTheorems.CumulativeIffDistinct`, and `RepeatedBoundOverflows` for an instance).
- A Retry-After above 9223372036 seconds overflows time.Duration and sets a different deadline
  (`RateLimiting.RetryAfterHonoured`, and `RetryAfterWraps` for an instance).
- A paginated listing that ends has fetched some page twice exactly when the server gave a page two
  different next pages (`Pagination.EachPageOnceIffSteady`); such a page can be listed twice
  (`PageFetchedTwice`).
- The doc comment of Task.Run says that it waits for the interval between invocations. The code uses a
  ticker, so the execution after a late one can start at any smaller distance
  (`Scheduling.IntervalNotKept`); `TaskPacing` and `WindowPacing` state the bounds that do hold. The
  model lets a tick be delivered at any time once it is due, so they hold for eager and lazy timers alike.

## Model

| member | source | states |
|---|---|---|
| `Prelude.Wrap64` | internal/gitlab/ratelimiter.go:100 | two's-complement wrap-around of an int64: within range, congruent to the exact number modulo 2^64, and equal to it when that fits |
| `RateLimiting.CeilDivBounds` | internal/gitlab/ratelimiter.go:143 | the ceiling division: the least whole number of nanoseconds whose multiple covers the span, positive and at most the span |
| `RateLimiting.BackoffIsGreatest` | internal/gitlab/ratelimiter.go:97-153 | after any history of updates backoffUntil is the greatest of the deadlines that each update derives from its own headers and clock readings |
| `RateLimiting.BackoffIgnoresOrder` | internal/gitlab/ratelimiter.go:101-145 | reordering the same updates leaves the same back-off |
| `RateLimiting.BackoffNeverDecreases` | internal/gitlab/ratelimiter.go:101-145 | backoffUntil never moves to an earlier instant |
| `RateLimiting.RaiseAdjusts` | internal/gitlab/ratelimiter.go:97-153 | what one update does to the back-off, told from the header values: Retry-After moves it, an unknown count, a missing reset or a count of at least 10 leaves it, an exhausted window moves it to the reset, a nearly exhausted one by one share of the rest |
| `RateLimiting.AdjustsDetermines` | internal/gitlab/ratelimiter.go:97-153 | those values and the clock leave room for one new back-off only |
| `RateLimiting.PrintedHeadersReport` | internal/gitlab/ratelimiter.go:110-130 | a server that prints the remaining count and the reset epoch in decimal is understood exactly when the count fits an int64 and the epoch what time.Unix can represent |
| `RateLimiting.NearExhaustionDeadline` | internal/gitlab/ratelimiter.go:139-153 | the near-exhaustion deadline is after the second clock reading, passes the reset by at most the gap between the readings, and its delay is the least of which remaining + 1 fill the rest of the window |
| `RateLimiting.RetryAfterHonoured` | internal/gitlab/ratelimiter.go:98-107 | a Retry-After of n seconds sets the deadline n seconds ahead exactly when n is at most 9223372036; beyond that the duration wraps |
| `RateLimiting.PrintedRetryAfter` | internal/gitlab/ratelimiter.go:98-99 | a printed positive int64 is read back as the Retry-After delay |
| `RateLimiting.DateIsNoDelay` | internal/gitlab/ratelimiter.go:98-99 | a Retry-After in the HTTP-date form is no delay, so the count and reset are looked at |
| `RateLimiting.RetryAfterWraps` | internal/gitlab/ratelimiter.go:100 | a Retry-After of 9223372037 seconds sets a deadline more than 9223372036 seconds in the past |
| `RateLimiting.RateLimiter.constructor` | internal/gitlab/ratelimiter.go:50-54 | a new limiter has no back-off and an unknown (-1) remaining count |
| `RateLimiting.RateLimiter.UpdateFromHeaders` | internal/gitlab/ratelimiter.go:93-154 | one update extends the explained history, adjusts backoffUntil as the header values ask and records count and reset, whatever the header strings are |
| `RateLimiting.RateLimiter.UpdateFromSignals` | internal/gitlab/ratelimiter.go:97-153 | the branches over the parsed headers: which of them move the back-off and to where, which leave it alone, and what is recorded |
| `RateLimiting.RateLimiter.Wait` | internal/gitlab/ratelimiter.go:60-83 | never lets a request past before the back-off it read, adds no delay when there is none, and fails exactly when the sleep is interrupted or the token bucket fails |
| `ConcurrentClients.StepConsistent` | internal/gitlab/ratelimiter.go:61-153 | every step of every client keeps backoffUntil equal to what the completed updates explain, and never lowers it |
| `ConcurrentClients.RunConsistent` | internal/gitlab/ratelimiter.go:61-153 | the same for every interleaving of any number of clients |
| `ConcurrentClients.OnlyOvertakenPassEarly` | internal/gitlab/ratelimiter.go:61-75 | while the back-off stands at d, the clients that get past it before d are distinct and all held an older copy at the start; later readers never do |
| `ConcurrentClients.UpdateHoldsBackEveryoneElse` | internal/gitlab/ratelimiter.go:61-153 | after an update raises the deadline, the waits that get past it early number at most the clients that had already copied the old one |
| `ConcurrentClients.ArmsForCopy` | internal/gitlab/ratelimiter.go:66-72 | a client that arms its timer before the copied back-off wakes at exactly that instant, otherwise at once |
| `ConcurrentClients.NobodyOversleeps` | internal/gitlab/ratelimiter.go:61-153 | in every reachable state no client sleeps past the back-off in force |
| `ConcurrentClients.AllReadersMayPassEarly` | internal/gitlab/ratelimiter.go:61-153 | the bound is met for every n and every update that asks for a back-off: a run from the start reaches it with n readers, all of which then pass before the new deadline |
| `Spreading.OneMoreShare` | internal/gitlab/ratelimiter.go:143 | the arithmetic of one further share of the window |
| `Spreading.RequestsAreSpread` | internal/gitlab/ratelimiter.go:60-153 | with r < 10 requests left and U of the window to go, the k-th later request (k at most r + 1) leaves no earlier than k U / (r + 1) after the response, whatever delays are added |
| `Spreading.AtMostRemainingBeforeReset` | internal/gitlab/ratelimiter.go:132-153 | so at most r requests are sent before the window resets |
| `Spreading.TakeTurn` | internal/gitlab/ratelimiter.go:60-154 | one wait, request and update on the limiter object: sent no earlier than the back-off, history extended by the response |
| `Spreading.PacedIsSpread` | internal/gitlab/ratelimiter.go:60-153 | any client that keeps to the back-off after such an update and is counted down by its responses is spread over the window |
| `Spreading.TakeTurns` | internal/gitlab/ratelimiter.go:60-154 | a client looping over the limiter object keeps to the back-off that its own responses set, and every response reaches the limiter |
| `Spreading.ThrottledClient` | internal/gitlab/ratelimiter.go:60-154 | end to end on the limiter object: every later request of a throttled client waits for its share of the window |
| `Pagination.FetchedIff` | internal/gitlab/rest.go:19-31 | the loop receives exactly the replies up to the first that names no next page |
| `Pagination.GrowingPagesDistinct` | internal/gitlab/rest.go:19-31 | pages that grow along the chain are each fetched once |
| `Pagination.EachPageOnceIffSteady` | internal/gitlab/rest.go:19-31 | a listing that ends has fetched each page once exactly when no page was answered with two different next pages |
| `Pagination.PageFetchedTwice` | internal/gitlab/rest.go:19-66 | a server that changes its mind makes the loop fetch pages 1, 2, 1 and list page 1 twice |
| `Pagination.GrowingPagesStop` | internal/gitlab/rest.go:19-31 | if the pages named along the way grow up to a bound, the loop stops within that many fetches |
| `Pagination.FetchPage` | internal/gitlab/rest.go:46-66 | the closure: waits for the limiter before it sends; a refused or failed fetch adds nothing and leaves the limiter alone, one that succeeds feeds it and is appended |
| `Pagination.ListAll` | internal/gitlab/rest.go:19-69 | against any sequence of replies: the pages asked for, the items in order (on error those of the earlier pages), an error exactly when the last reply failed and completion exactly when all are pages and the last names no further one, requests kept to the back-off, and a limiter that has seen exactly the headers that arrived |
| `Pagination.ThrottledListing` | internal/gitlab/rest.go:19-69 | a listing over a nearly exhausted limiter whose responses count down spreads its requests over the window, a failing one included, and sends at most r before the reset |
| `Discovery.DedupeCharacterised` | internal/exporter/exporter.go:188-216 | a list consists of the first occurrences of the input, in order and once each, exactly when it is the deduplicated input |
| `Discovery.DedupeExtends` | internal/exporter/exporter.go:210-216 | more input at the end only extends the result |
| `Discovery.ExpandWildcard` | internal/exporter/exporter.go:203-221 | the page loop of one wildcard over whatever replies arrive: follows the named pages, and a failed one ends it and keeps what was found |
| `Discovery.DiscoverProjects` | internal/exporter/exporter.go:184-229 | returns the first occurrences of explicit names followed by wildcard listings, or an error exactly when there are none |
| `Discovery.DiscoveryIsFirstOccurrence` | internal/exporter/exporter.go:184-229 | for every configuration and reply the projects are distinct first occurrences, and further wildcards only add to the end |
| `Decimal.ReadChanges` | internal/collector/merge_requests.go:248-255 | the digit loop computes the number spelled by the digits of the string |
| `Decimal.ReadInvertsPrint` | internal/collector/merge_requests.go:248-255 | reading inverts decimal printing, with or without a trailing plus sign |
| `Decimal.ReadIsDigitSubsequence` | internal/collector/merge_requests.go:251-255 | of an arbitrary string exactly the digit subsequence without leading zeros is kept |
| `Decimal.AtoiInvertsPrint` | internal/gitlab/ratelimiter.go:99-126 | integer parsing inverts printing exactly for numbers that fit an int64 |
| `Decimal.AtoiInvertsSigned` | internal/gitlab/ratelimiter.go:99-126 | signed spellings are read back exactly as far as an int64 reaches on either side |
| `Decimal.AtoiAccepts` | internal/gitlab/ratelimiter.go:99-126 | a string is read exactly when it has a digit, nothing but digits after an optional sign, and fits |
| `Histograms.GroupByPair` | internal/collector/merge_requests.go:366-379 | groups hold the values of their label pair in order, and the labels last seen with it |
| `Histograms.CountValue` | internal/collector/merge_requests.go:389-393 | one value adds to each bound as often as the bound is listed |
| `Histograms.CountGroup` | internal/collector/merge_requests.go:382-398 | the sum, and for each bound (occurrences of the bound) times (values up to it) |
| `Histograms.EmitHistograms` | internal/collector/merge_requests.go:364-406 | one histogram per observed pair in the map's iteration order, skipping label-count mismatches |
| `HistogramTheorems.GroupsPartition` | internal/collector/merge_requests.go:369-385 | in every map order the emitted counts add up to the number of observations and the sums to their total |
| `HistogramTheorems.NoDuplicateHistograms` | internal/collector/merge_requests.go:381-404 | in every map order the emitted label sets are pairwise distinct |
| `HistogramTheorems.EmittedMatch` | internal/collector/merge_requests.go:400-404 | exactly the visited pairs whose last labels match the descriptor's number of labels are sent |
| `HistogramTheorems.LastLabels` | internal/collector/merge_requests.go:374-379 | a pair is sent with the labels of its last observation |
| `HistogramTheorems.HistogramDescribes` | internal/collector/merge_requests.go:381-398 | a histogram counts and sums exactly the observations with its labels, and bucket b holds (occurrences of b) times (those of them at most b) |
| `HistogramTheorems.HistogramsAdd` | internal/collector/merge_requests.go:364-406 | histograms of concatenated observations are the sums of the histograms |
| `HistogramTheorems.HistogramsIgnoreOrder` | internal/collector/merge_requests.go:364-406 | reordering the observations changes no histogram |
| `HistogramTheorems.DistinctBoundsCumulate` | internal/collector/merge_requests.go:386-398 | with distinct bounds each bucket is the number of values up to its bound, so buckets grow with the bound and stay within the count |
| `HistogramTheorems.CumulativeIffDistinct` | internal/collector/merge_requests.go:383-393 | buckets are cumulative for all observations exactly when no bound is configured twice |
| `HistogramTheorems.RepeatedBoundOverflows` | internal/collector/merge_requests.go:383-393 | with the bounds 1 and 1 a single observation of 1 gives a bucket of 2 under a count of 1 |
| `Gauges.AppendCounts` | internal/collector/merge_requests.go:339-344 | ranging over a counting map emits each key once with its count, in some order |
| `Gauges.GaugesConserve` | internal/collector/merge_requests.go:329-344 | in every map order a project's gauges add up to what was counted for it |
| `Gauges.GaugesRead` | internal/collector/merge_requests.go:329-344 | every label tuple reads as the number of times it was counted |
| `Gauges.GaugesPresent` | internal/collector/merge_requests.go:329-344 | a label tuple is emitted exactly when it was counted at least once |
| `Gauges.NoDuplicateSeries` | internal/collector/merge_requests.go:329-344 | with distinct projects no two gauges carry the same labels, in every map order |
| `MergeRequests.RecordDurations` | internal/collector/merge_requests.go:264-296 | the state switch feeds time-to-merge and open duration as each series is defined |
| `MergeRequests.RecordReviews` | internal/collector/merge_requests.go:298-325 | review estimates and cycles are recorded as each series is defined |
| `MergeRequests.RecordAll` | internal/collector/merge_requests.go:228-326 | one pass over a project's merge requests extends all six series and leaves both counting maps exact |
| `MergeRequests.AppendStatus` | internal/collector/merge_requests.go:329-336 | the nested range loops emit every (branch, state) pair once with its count |
| `MergeRequests.CollectProject` | internal/collector/merge_requests.go:228-344 | one project extends every series and appends its status and throughput gauges |
| `MergeRequests.MergeRequestsCollector.SetProjects` | internal/collector/merge_requests.go:143-147 | replaces the tracked projects and nothing else |
| `MergeRequests.MergeRequestsCollector.Run` | internal/collector/merge_requests.go:193-361 | a cycle publishes the complete result over its projects, or nothing when the context was found cancelled |
| `MergeRequests.MergeRequestsCollector.Collect` | internal/collector/merge_requests.go:164-190 | a scrape sends each series, with the configured bounds or else the defaults, and the gauges, of the published observations |
| `PublishedSeries.EntryAt` | internal/collector/merge_requests.go:209-228 | the entries are the listed merge requests, one reply after another, each under its project |
| `PublishedSeries.ChangesPublished` | internal/collector/merge_requests.go:248-260 | the changes series lists the merge requests with a non-empty count, in order, with the number it spells |
| `PublishedSeries.NotesPublished` | internal/collector/merge_requests.go:242-245 | the notes series lists every merge request with its number of notes |
| `PublishedSeries.MergeTimesPublished` | internal/collector/merge_requests.go:264-275 | the time-to-merge series lists the merged ones with known dates, with the seconds between these |
| `PublishedSeries.OpenTimesPublished` | internal/collector/merge_requests.go:264-296 | the open-duration series lists those with known dates, with the seconds to merge, closing or now by state |
| `PublishedSeries.ReviewTimesPublished` | internal/collector/merge_requests.go:298-316 | an estimate times notes + 1 is the time to the merge, else the closing, else now |
| `PublishedSeries.CyclesPublished` | internal/collector/merge_requests.go:318-325 | the review-cycle series lists those with notes, each with half the number rounded up |
| `PublishedSeries.StatusPublished` | internal/collector/merge_requests.go:236-336 | a status gauge reads as the number of the project's merge requests with that branch and state |
| `PublishedSeries.ErrorsPublished` | internal/collector/merge_requests.go:209-352 | the error counter is the number of listings that failed |
| `PublishedSeries.HistogramsPublished` | internal/collector/merge_requests.go:364-406 | the histograms sent for a series describe the observations with their labels, and every observation has one |
| `PublishedSeries.BoundsUsed` | internal/collector/merge_requests.go:164-180 | durations are bucketed by the configured bounds and counts by the default ones |
| `MergeRequestTheorems.MergedWithinOpen` | internal/collector/merge_requests.go:174-398 | every time-to-merge histogram has an open-duration histogram with the same labels and a count and buckets at least as large |
| `MergeRequestTheorems.TailDominance` | internal/collector/merge_requests.go:175-406 | for well-formed merge requests and distinct bounds, no bound is exceeded by more first-review estimates than open durations, as read off the emitted histograms |
| `MergeRequestTheorems.TailsOrderedIffCovered` | internal/collector/merge_requests.go:264-316 | a single merge request keeps the two tails in order exactly when it has no estimate or was open at least that long |
| `MergeRequestTheorems.StatusConserves` | internal/collector/merge_requests.go:236-336 | a project's status gauges add up to the merge requests listed for it |
| `MergeRequestTheorems.ThroughputIsMergedStatus` | internal/collector/merge_requests.go:228-344 | a branch's throughput equals its merged status count and is emitted exactly when that is positive |
| `MergeRequestTheorems.ReviewSeriesNest` | internal/collector/merge_requests.go:174-398 | for every label pair each emitted first-review histogram has a review-cycle histogram with the same labels and at least its count, and that one a note-count histogram |
| `MergeRequestTheorems.ReviewsPerProject` | internal/collector/merge_requests.go:242-325 | per project first-review estimates are no more than review cycles, these no more than note counts, which number the merge requests listed |
| `MergeRequestTheorems.CyclesAreHalvedNotes` | internal/collector/merge_requests.go:242-325 | the published review cycles are the positive note counts, in order and under the same labels, each halved and rounded up |
| `MergeRequestTheorems.ScrapeHasNoDuplicates` | internal/collector/merge_requests.go:328-399 | in every scrape of every cycle over distinct projects no descriptor carries the same labels twice |
| `MergeRequestTheorems.DiscoveredScrapeHasNoDuplicates` | internal/exporter/exporter.go:112-229 | with the discovered projects there are no duplicate series, whatever was configured and replied |
| `SnapshotIsolation.StepInv` | internal/collector/merge_requests.go:143-352 | every step of every goroutine under the read-write mutex keeps the publication invariant |
| `SnapshotIsolation.EveryScrapeIsOneRun` | internal/collector/merge_requests.go:143-352 | over every interleaving each publication is the whole result of one uncancelled cycle over the project list in force when it began, and each scrape shows exactly the publication made last before it, or the initial value |
| `SnapshotIsolation.EveryResultCanBeShown` | internal/collector/merge_requests.go:143-352 | every result of every cycle can be published and then scraped |
| `CodeReview.RecordOpened` | internal/collector/code_review.go:181-209 | pending reviews, requests per reviewer and turnaround estimates of the open listing |
| `CodeReview.RecordMerged` | internal/collector/code_review.go:222-249 | approvals per merger and further requests and estimates of the merged listing |
| `CodeReview.CodeReviewCollector.Run` | internal/collector/code_review.go:135-285 | publishes the tallies of all projects, an empty value when the feature is missing, nothing when cancelled |
| `CodeReview.CodeReviewCollector.Collect` | internal/collector/code_review.go:113-132 | a scrape sends the turnaround histograms and every gauge of the published tallies |
| `CodeReview.ReviewerTalliesConserve` | internal/collector/code_review.go:181-267 | per project requests sum to the assignments over the fetched listings, approvals to merged ones with a merger, and pending reviews stay within the requests |
| `CodeReview.PendingOrError` | internal/collector/code_review.go:174-254 | whatever fails, each project has a pending gauge counting its open merge requests with reviewers, unless its open listing failed; there are no others, and gauges and errors together cover the projects |
| `CodeReview.ReviewersRead` | internal/collector/code_review.go:187-267 | a reviewer's gauges read as how often the fetched listings assign them, and how many they merged |
| `CodeReview.ReviewErrors` | internal/collector/code_review.go:174-225 | the error counter is the number of projects one of whose listings failed |
| `CodeReview.TurnaroundPublished` | internal/collector/code_review.go:192-243 | the turnaround series lists the reviews that can be estimated, in order, under the first reviewer, and the estimate times notes + 1 is the time to the merge, or to now for open ones |
| `CodeReview.ReviewScrapeHasNoDuplicates` | internal/collector/code_review.go:113-267 | over distinct projects no approval, request, pending or turnaround series carries the same labels twice |
| `Metrics.MetricsAgree` | internal/collector/jobs.go:174-185 | run count is the number of records; duration histograms over all further labels, and the queue histogram, count and sum the positive times and never exceed it |
| `Jobs.JobsCollector.RecordJob` | internal/collector/jobs.go:162-195 | one record updates all five metrics so that they keep agreeing with the whole history |
| `Jobs.JobMetricsAgree` | internal/collector/jobs.go:162-195 | in every reachable state the run count, the counts and sums of the duration and queue histograms, and the statuses of a job are those of its recorded jobs |
| `Jobs.JobHistogramAgrees` | internal/collector/jobs.go:177-179 | each single duration histogram counts and sums the run times recorded under exactly its labels |
| `Jobs.RunnerTypes` | internal/collector/jobs.go:199-211 | which jobs have which runner type |
| `Jobs.ArtifactSizeIsLast` | internal/collector/jobs.go:187-194 | the artifact gauge holds the total of the last record with a positive one |
| `Jobs.ArtifactTotals` | internal/collector/jobs.go:188-191 | the total of one size is that size, and lists add up |
| `Jobs.SumSizes` | internal/collector/jobs.go:188-191 | the artifact loop sums the sizes |
| `Pipelines.PipelinesCollector.RecordPipeline` | internal/collector/pipelines.go:225-256 | one record updates counters, histograms, status and the coverage, id and creation gauges under the derived kind |
| `Pipelines.PipelinesCollector.RecordChild` | internal/collector/pipelines.go:273-309 | one bridge records its child pipeline and status, with times only when the full child could be fetched |
| `Pipelines.PipelinesCollector.CollectChildPipelines` | internal/collector/pipelines.go:260-311 | every bridge is visited once in order and leaves its metrics and status, a failed listing records nothing |
| `Pipelines.PipelineMetricsAgree` | internal/collector/pipelines.go:225-327 | in every reachable state run counts, counts and sums of the histograms, and statuses are those of the recorded pipelines, and every label set carries the kind derived from its source |
| `Pipelines.PipelineHistogramAgrees` | internal/collector/pipelines.go:234-236 | each single duration histogram counts and sums the durations recorded under exactly its labels |
| `Pipelines.PipelineKinds` | internal/collector/pipelines.go:314-327 | which sources have which kind |
| `Pipelines.GaugesHoldLast` | internal/collector/pipelines.go:244-256 | the id, coverage and creation gauges hold what the last pipeline recorded under their ref and kind had, where it is known |
| `Pipelines.ChildMetricsAgree` | internal/collector/pipelines.go:273-309 | the same agreement for child pipelines with the visited bridges, whose times are zero when they could not be fetched |
| `Scheduling.StepInv` | internal/scheduler/scheduler.go:35-57 | every step keeps the WaitGroup equal to the live goroutines, executions in sequence and tickers on time |
| `Scheduling.RunInv` | internal/scheduler/scheduler.go:35-57 | the same over every interleaving with one Start |
| `Scheduling.ShutdownSafety` | internal/exporter/exporter.go:163-177 | once Stop has returned every task has executed, none is executing and none ever will again, so the store is closed with no live task |
| `Scheduling.ShutdownIsReached` | internal/exporter/exporter.go:145-177 | with positive intervals, and unless the server failed to start, from every reachable state some run goes on to the closing of the store |
| `Scheduling.TaskPacing` | internal/scheduler/task.go:34-64 | executions of a task never overlap, and at most one plus the elapsed whole intervals since the ticker's creation have started |
| `Scheduling.WindowPacing` | internal/scheduler/task.go:34-52 | in every span of every run the executions of a task that start number at most three more than the whole intervals in the span |
| `Scheduling.IntervalNotKept` | internal/scheduler/task.go:32-52 | no interval keeps the documented wait between invocations: for each one and every gap below it some run starts two consecutive executions that far apart |
| `Scheduling.CrashesIffSomeIntervalNotPositive` | internal/scheduler/task.go:40 | some run dies creating a ticker exactly when some interval is not positive |
| `Registration.IntervalOf` | internal/exporter/exporter.go:347-350 | a scheduled interval is always positive |
| `Registration.Scheduler.AddTask` | internal/scheduler/scheduler.go:29-31 | appends the task |
| `Registration.Scheduler.Start` | internal/scheduler/scheduler.go:35-47 | counts and spawns every task: a run of the machine to the end of the loop |
| `Registration.RegisterCollectors` | internal/exporter/exporter.go:332-359 | registers and schedules exactly the enabled collectors, in table order |
| `Registration.TasksRegister` | internal/exporter/exporter.go:332-359 | the tasks are the enabled table entries, in order, each with its name and its configured seconds, or half a minute when these are not positive |
| `Registration.RegisteredTasksNeverCrash` | internal/exporter/exporter.go:347-353 | whatever the configuration, no run of the registered tasks dies creating a ticker |
| `TaskQueue.Capacity` | internal/scheduler/queue.go:18-21 | a buffer size of at least 1 is kept and any other gives 64 |
| `TaskQueue.QueueProtocol` | internal/scheduler/queue.go:18-58 | in every reachable state, whatever panics, the process lives, executed, running and buffered tasks are the accepted ones in order, the buffer is within capacity, and submissions are accepted or dropped |
| `TaskQueue.ReachableQueue` | internal/scheduler/queue.go:18-58 | the same from a new queue of any requested size |
| `TaskQueue.DropsOnlyWhenFull` | internal/scheduler/queue.go:30-36 | a step drops a task exactly when it submits one to a full buffer |
| `TaskQueue.PanicCrashesIffNotDeferred` | internal/scheduler/queue.go:48-55 | a panicking task ends the process exactly when no recovery is deferred |
| `TaskQueue.PanicsAreHarmless` | internal/scheduler/queue.go:48-55 | turning every panic into a return gives a run that accepts, drops and executes the same tasks in the same order |
| `TaskQueue.TaskQueue.Enqueue` | internal/scheduler/queue.go:30-37 | one submission, accepted or dropped as the machine does |
| `TaskQueue.TaskQueue.Serve` | internal/scheduler/queue.go:47-56 | one task: received, called under the deferred recovery while others submit, and no panic gets out |
| `TaskQueue.TaskQueue.TakeTurn` | internal/scheduler/queue.go:40-58 | a turn executes exactly the first waiting task, if there is one, and buffers what is submitted as far as it fits |
| `TaskQueue.TaskQueue.Start` | internal/scheduler/queue.go:40-58 | the consumer's loop is the machine run that serves a task in every turn that finds one, submissions and panics included; tasks buffered at the start are executed first, in order, one a turn |

## Left out

- Token bucket of golang.org/x/time/rate: its wait is an arbitrary extra delay or a failure.
- Float64 rounding, saturation of time differences beyond 292 years and overflow of time.Time when a duration is added: arithmetic is exact; only the Duration product of Retry-After and of the configured intervals and the seconds of time.Unix wrap.
- ConcurrentClients: back-off is stated for clients that call Wait; collectors that use the raw REST client bypass the limiter.
- Spreading: covers responses that reach UpdateFromHeaders; a paginated listing returns on an error before it looks at the headers.
- Pagination.ListAll: one listing has the limiter to itself; listings that share it are runs of `ConcurrentClients`.
- GetProject and the other single fetches of rest.go, which feed the limiter even when they fail.
- Discovery.DiscoverProjects: the replies to each wildcard are a listing that has come to its end, without which the source does not return; every reply without an error is taken to carry a response, as the source does when it reads NextPage.
- Scrape durations, log lines and operational gauges.
- Jobs and Pipelines: the loops over projects and listings around recordJob and recordPipeline.
- Scheduling: panics inside a task's function, which end the process; fairness of the select between a tick and a cancelled context.
- TaskQueue: tasks are identified by numbers; a task that ends its goroutine with runtime.Goexit.
- Configuration loading, HTTP server, webhook, stores, tier detection, GraphQL, and the remaining collectors, which copy replies through.
