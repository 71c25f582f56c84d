# A verified model of the metric store and the replay engine

This project models two parts of elastic/apm-perf in Dafny and proves what they promise.

**The in-memory metric store** (`cmd/otelinmemexporter`) takes delta metrics, matches every data point
against a list of aggregation configs and updates one slot per config key and group in place. Queries are
answered from the slots alone. The model proves that the slots always equal a naive recomputation over
everything that was added, that configs do not interfere, that the indexes find exactly what a scan of the
config list finds, exactly when nothing is indexed out of range, and what a percentile answer means on the
merged histogram. It also says by position which incoming points are recorded, under which attributes they are
looked up, and what each kind of answer then is.

**The paced replay engine** (`loadgen/eventhandler`) loads ND-JSON lines into batches, sends them in chunks
paced by a burst limiter and rewrites IDs, names and timestamps on the way. The model proves exact delivery,
the discipline of bursts under any pattern of failures, retries and interleavings, closed forms for waits and
requests, how far the counter gets, round trips, and, over the bodies of all accepted requests of a pass, that
the rewriting keeps the trace graph and translates times.

| file | models |
|---|---|
| `Basics.dfy` | shared types, wrapping 64-bit arithmetic |
| `Quantile.dfy` | the percentile query on buckets |
| `Histogram.dfy` | histogram data points, their in-place merge and bucket extraction |
| `Aggregation.dfy` | config validation, the two indexes, attribute lookup and matching |
| `Slots.dfy` | slot updates and queries as functions, and the naive recomputation |
| `Recording.dfy` | incoming metrics, and which of their points are recorded |
| `Answers.dfy` | what an answer is, from the recorded points at their positions |
| `StoredHistograms.dfy` | what stored histograms and percentile answers mean |
| `Grouping.dfy` | adding up the groups of a sum |
| `Store.dfy` | the store as a class over slot objects |
| `Events.dfy` | lines, events, batches, and what parsing finds in a line |
| `Replay.dfy` | the senders as classes over an environment oracle, writing every chunk and sending it, and the functions they are proved against |
| `Pacing.dfy` | delivery, bursts, counting and the reduced counter |
| `Senders.dfy` | interleavings of senders that share a limiter |
| `Loader.dfy` | the collector and the loading loop |
| `RoundTrip.dfy` | load then replay |
| `Timestamps.dfy` | the earliest time and the rewriting of times |
| `Bits.dfy` | rotations of 64-bit words, and the place in the word that a rotation brings down |
| `Randomize.dfy` | the hexadecimal cipher and the name randomizer |
| `Json.dfy` | JSON trees with ordered fields, their tokens and reading them back |
| `Writer.dfy` | the event writer over a token buffer and a scratch buffer |
| `Rewriting.dfy` | what the event writer keeps |
| `Output.dfy` | what the accepted requests of a pass hold: loading, sending and rewriting together |

## How to read it

The imperative code (loops over arrays, slot objects, the counter of a sender, the buffers of the writer) is
imperative here and each method is proved against a function; the main results are lemmas about those
functions. Floats are reals plus NaN and infinities, uint64 counts are bounded naturals with the wrap-around
written out, and a property that an overflow would break has the total count below 2^64 as its condition.
The limiter, closing the writer and the transport are an oracle that says for every call whether it succeeds;
`WaitN` grants exactly the burst or fails. The random words and times that passes draw are functions of how many
were drawn before. What JSON and time parsing find in a line is a parameter.

Histogram points may have any shape. A merge or a percentile query that would index out of range is excluded by
the precondition of its method, and only that: `Fits` and `InRange` are the tests that the indexing makes. What
`Add`, `Get` and `GetAll` require, `Survives` and `Answerable`, is shown to be equivalent to a condition on the
incoming points (`SurvivesExactly` with `MergesFitExactly`, `ReadableExactly`).

The library sort is a parameter, `Sorter`: a function of which only is known that it orders buckets by their bounds,
as `slices.SortFunc` is deterministic but not stable. When the last point of a percentile's group has distinct
bounds the answer is the same for every sort (`SortDoesNotMatter`).

The parts of the replay engine meet in `Handler.SendBatches`: it draws one context (random bits, base time) for the
whole pass, writes every chunk with a new event writer and sends what was written, and its contract says which
bodies were accepted. The lemmas of `Output.dfy` and `RoundTrip.dfy` are about these bodies, and
`Output.LoadAndSend` states them of a handler that was made from loaded files.

What a store records and answers is stated twice: by the functions that follow the program's loops, and by position,
without them (`RecordedExactly`, `LookupOrder`, `AnswerIs`). `Add`, `Get` and `GetAll` promise both.

Where the code and its comments differ, the model follows the code:

- `Reset` deletes the number slots only; histogram history is never cut. It empties the store exactly when no
  histogram point matched before (`ResetEmptiesExactly`, `ResetKeepsHistograms`).
- A Max slot starts at 0: it is the maximum of the values exactly when one of them is not negative (`MaximumExactly`,
  `NegativeMaximum`). A Rate slot keeps the first start time recorded, not the lowest (`FirstStartIsFirst`).
- The span of a rate is taken as a signed 64-bit duration; a longer one counts as negative, and a rate over one too far
  negative is not 0 (`RateIsTotalOverSpan`).
- A merge keeps the higher timestamp. A merged point without a minimum or maximum counts as 0 for it.
- A slot is created before the aggregation type is looked at. A percentile config that matches a number point
  therefore reports a group with value 0, and a histogram slot hides the number slot of its group
  (`NumberAnswerShowsExactly`, `HistogramHidesNumber`).
- A histogram point without buckets is stored; a percentile query on it, or a merge into it of a point with
  buckets, is out of range (`BucketlessPoint`).
- When the counts stored in a slot come to a multiple of 2^64, the next point replaces them. A slot is always the
  merge, in 64-bit arithmetic, of the points since the last replacement (`FoldIsStretchMerge`). These are all points
  since the last change of bounds exactly when no running count of theirs comes to a multiple of 2^64, and none of
  them is lost from the count exactly when they count less than 2^64 (`FoldIsSuffixMerge`, `WrappedCountForgets`).
- After a failed pass the loop starts again at the first event of the first batch, where it is said to restart where
  it left off. It does exactly as long as no pass but the last stopped partway (`RestartsWhereLeftExactly`); otherwise
  it may deliver one event again and again and another never (`RefusedPassesRepeat`). Only the counter is kept, and
  it is not reduced (`CounterLaw`, `RefusedPassesCount`).
- A batch without events sends nothing, not even its metadata (`ReplayWritesInput`).
- IDs that are not strings, and the empty ID, are all rewritten to the empty string, so they are no longer told
  apart (`IdsCollapseExactly`).
- Only IDs under four keys of an event are rewritten. An ID anywhere else, such as that of a span link, keeps its
  value, and matches the rewritten ID that it refers to exactly when that is in lower case and the random bits that it
  meets are 0 (`LinkedIdMatchesExactly`).

## Model

| member | source | states |
|---|---|---|
| Quantile.SortByUpperBound | cmd/otelinmemexporter/histogram.go:71-74 | in place, the buckets end in the order of their bounds, none is lost or added, and the same buckets always end in the same order |
| Quantile.SortedUnique | cmd/otelinmemexporter/histogram.go:71-74 | with distinct bounds any sorting algorithm gives the same buckets |
| Quantile.DeltaExplicitBucketsQuantile | cmd/otelinmemexporter/histogram.go:60-125 | the in-place computation returns the specified value, the special values included, and only permutes the buckets |
| Quantile.EqualBoundsShowOrder | cmd/otelinmemexporter/histogram.go:42-46 | with two equal bounds the order in which the buckets are listed shows: the insertion sort that the library uses for so few is stable, and the answers are 6 and 2 |
| Quantile.IndexOfRank | cmd/otelinmemexporter/histogram.go:96-101 | the search always finds a bucket, the first whose running count reaches the rank |
| Quantile.SpecialCases | cmd/otelinmemexporter/histogram.go:60-90 | NaN for NaN, for fewer than two buckets, without a +Inf bucket and without observations; -Inf below 0 and +Inf above 1 |
| Quantile.ReachedBucketIsNotEmpty | cmd/otelinmemexporter/histogram.go:110-124 | the division is never by zero and the subtraction gives the previous running count, also under overflow |
| Quantile.QuantileIsLeast | cmd/otelinmemexporter/histogram.go:42-125 | the answer is the least point from the first to the last finite bound where the interpolated cumulative count reaches q times the observations |
| Quantile.QuantileMonotone | cmd/otelinmemexporter/histogram.go:60-125 | a higher quantile is never smaller, for any total whose 64-bit value is not 0 |
| Quantile.QuantileWithinBounds | cmd/otelinmemexporter/histogram.go:80-124 | NaN exactly when the 64-bit total is 0, otherwise between the first and last finite bound, also under overflow |
| Quantile.QuantileIgnoresOrder | cmd/otelinmemexporter/histogram.go:45-46 | with distinct bounds neither the order in which the buckets are listed nor the sort matters |
| Quantile.QuantileIgnoresScale | cmd/otelinmemexporter/histogram.go:94-124 | multiplying all counts by a factor changes no quantile |
| Quantile.MergedQuantileBetween | cmd/otelinmemexporter/histogram.go:60-184 | a quantile of merged buckets lies between the quantiles of the parts |
| Histogram.Float64SliceEqual | cmd/otelinmemexporter/histogram.go:127-137 | true exactly for equal slices |
| Histogram.ExplicitBucketsFromHistogramDataPoint | cmd/otelinmemexporter/histogram.go:24-40 | in a fresh array, one bucket per bound with its count and one for +Inf with the last count, for every point that does not lead out of range |
| Histogram.AddBucketCounts | cmd/otelinmemexporter/histogram.go:181-184 | adds the counts bucket by bucket, in place, with wrap-around |
| Histogram.AddHistogramDataPoint | cmd/otelinmemexporter/histogram.go:152-194 | updates the stored point in place: skip, replace or merge |
| Histogram.MergedPercentileBetween | cmd/otelinmemexporter/histogram.go:164-184 | every percentile of two merged points lies between the percentiles of the two, and the merge is consistent |
| Histogram.MergesFitExactly | cmd/otelinmemexporter/histogram.go:181-184 | the merges of a stream stay in range exactly when no point has more buckets than the point its stretch starts with |
| Histogram.SlotInRangeExactly | cmd/otelinmemexporter/histogram.go:22-40 | reading the buckets of a slot stays in range exactly when the point that its last stretch starts with has a count, and one for every bound |
| Histogram.BucketlessPoint | cmd/otelinmemexporter/histogram.go:22-40 | a point with observations and no buckets is stored, cannot be read by a percentile and cannot take a merge of buckets |
| Histogram.FoldedSlotIsConsistent | cmd/otelinmemexporter/histogram.go:170-184 | as long as the merges stay in range the count stays the bucket total in 64-bit arithmetic |
| Histogram.FoldIsStretchMerge | cmd/otelinmemexporter/histogram.go:152-194 | a slot is always one declarative merge, in 64-bit arithmetic, of the points since it was last replaced |
| Histogram.StretchIsSuffixExactly | cmd/otelinmemexporter/histogram.go:152-162 | the points since the last replacement are all points since the last change of bounds exactly when none of these found the stored count at 0 |
| Histogram.FoldIsSuffixMerge | cmd/otelinmemexporter/histogram.go:152-194 | the slot is then the 64-bit merge of all points since the last change of bounds; none of them is lost from its count exactly when they count less than 2^64 |
| Histogram.WrappedCountForgets | cmd/otelinmemexporter/histogram.go:158-170 | a stream where it is not: two points of 2^63 observations are replaced by the third |
| Aggregation.SameSizeSubmap | cmd/otelinmemexporter/store.go:496-505 | equal size and inclusion mean equal label maps |
| Aggregation.CheckDuplicateIsCompatible | cmd/otelinmemexporter/store.go:491-518 | the pair check accepts exactly pairs that do not share name and labels, or are different percentiles |
| Aggregation.ValidListExtends | cmd/otelinmemexporter/store.go:465-485 | a valid list stays valid exactly when the next config raises no error |
| Aggregation.ValidateAndGroup | cmd/otelinmemexporter/store.go:462-489 | accepts exactly valid lists, with indexes that agree with the list; otherwise the first error of the first bad config |
| Aggregation.ErrorIs | cmd/otelinmemexporter/store.go:462-518 | which error a config raises: its own faults first, then a key in use, then the first accepted config with the same name and labels, by whether the types differ |
| Aggregation.FindDuplicate | cmd/otelinmemexporter/store.go:476-482 | the first duplicate error among the configs of the same name |
| Aggregation.VerdictIgnoresOrder | cmd/otelinmemexporter/store.go:462-489 | the verdict does not depend on list order |
| Aggregation.FastRejectIsSound | cmd/otelinmemexporter/store.go:137-154 | the label-count reject never drops a matching config |
| Aggregation.ScanByName | cmd/otelinmemexporter/store.go:433-443 | scanning the configs of one name finds what a scan of all finds, in list order |
| Aggregation.LookupOrder | cmd/otelinmemexporter/store.go:531-539 | an attribute is that of the first entry with the key in the data point, whatever the resource holds, else of the first in the resource, and unset exactly when neither has the key |
| Aggregation.MatchesByPosition | cmd/otelinmemexporter/store.go:137-154 | a config matches exactly when every label has the wanted text in that order of lookup |
| Aggregation.GroupByPosition | cmd/otelinmemexporter/store.go:453 | the group is the text of the attribute that the config groups by, in that order of lookup, and empty if there is none |
| Aggregation.FilterConfigs | cmd/otelinmemexporter/store.go:429-444 | the indexed lookup returns exactly what a plain scan of the list returns: the configs of the metric's name whose labels all have the wanted value, looked up by position |
| Slots.NaiveAppends | cmd/otelinmemexporter/store.go:326-351 | sum, maximum, first start and latest time of a stream follow from those of the stream before |
| Slots.HighestIsMaximum | cmd/otelinmemexporter/store.go:326-330 | a maximum is the maximum of the values and 0 |
| Slots.MaximumExactly | cmd/otelinmemexporter/store.go:326-330 | it is the maximum of the values alone exactly when one of them is not negative |
| Slots.NegativeMaximum | cmd/otelinmemexporter/store.go:326-330 | the maximum of the single value -5 is reported as 0 |
| Slots.FirstStartIsFirst | cmd/otelinmemexporter/store.go:334-348 | the start of a rate is that of the first point with a value and a start |
| Slots.RateIsTotalOverSpan | cmd/otelinmemexporter/store.go:364-374 | a rate is the total per second from first start to latest time, and 0 for a span that is not positive, exactly when the span fits a signed 64-bit duration or the total is 0 |
| Slots.UpdateFollowsNaive | cmd/otelinmemexporter/store.go:321-359 | one slot update is one step of the naive recomputation |
| Slots.TouchedOnce | cmd/otelinmemexporter/store.go:321-360 | a point updates the slot of each matching config once |
| Slots.OthersUntouched | cmd/otelinmemexporter/store.go:446-460 | slots of other keys and groups keep their contents |
| Slots.SlotsAreNaive | cmd/otelinmemexporter/store.go:179-427 | after any run every slot of a configured key equals the naive recomputation, and exists only if a point was recorded |
| Slots.AnswerIsNaive | cmd/otelinmemexporter/store.go:201-264 | after any run the answer for a key can be computed exactly when the recomputation from the points alone can, and then equals it; number history is cut at the last reset |
| Slots.ConfigsDoNotInterfere | cmd/otelinmemexporter/store.go:309-414 | the answers for a key equal those of a store with that key's config only |
| Slots.SurvivesExactly | cmd/otelinmemexporter/store.go:392-411 | a run stays in range exactly when for every merging config and group the merges of the matching points do |
| Slots.WellFormedSurvives | cmd/otelinmemexporter/histogram.go:22-23 | points with one bucket more than bounds never lead out of range, whatever their counts |
| Slots.ResetEmptiesExactly | cmd/otelinmemexporter/store.go:256-264 | a reset leaves an empty store exactly when no histogram point matched any config before it |
| Slots.ResetKeepsHistograms | cmd/otelinmemexporter/store.go:256-264 | one histogram point and a reset: the sum is still reported |
| Slots.NumberAnswerShowsExactly | cmd/otelinmemexporter/store.go:246-251 | the number answer of a group is reported exactly when the group has no histogram point, or the two values agree |
| Slots.HistogramHidesNumber | cmd/otelinmemexporter/store.go:246-251 | a last value of 5 is reported as 0 after a histogram point of the same name |
| Slots.SortDoesNotMatter | cmd/otelinmemexporter/store.go:416-420 | with distinct bounds in the last point of every group the answer is the same for every sort |
| StoredHistograms.SlotIsSuffixMerge | cmd/otelinmemexporter/store.go:392-414 | a stored sum or percentile histogram is the 64-bit merge of the points since it was last replaced; these are all since the last change of bounds exactly when no running count comes to a multiple of 2^64, and none is lost from the count exactly when they count less than 2^64 |
| StoredHistograms.ReadableExactly | cmd/otelinmemexporter/store.go:416-420 | a percentile query stays in range exactly when the last stretch of every group starts with a point that has a count, and one for every bound |
| StoredHistograms.PercentileAnswerIsLeast | cmd/otelinmemexporter/store.go:416-420 | the answer of a percentile config p is the least point from the first bound on with at least p percent of the stored count at or below it, buckets being spread evenly between their bounds; the count is that of the points since the slot was last replaced, and earlier points may be of any shape and count |
| Recording.RecordedExactly | cmd/otelinmemexporter/store.go:266-307 | the recorded points of a batch are, in order and each once, those of gauges and of sums and histograms that are not cumulative, without histogram points that count nothing, under their metric's name, their own attributes and their resource's |
| Answers.NumbersAt | cmd/otelinmemexporter/store.go:309-362 | a group's number points are, in order, all after the last reset whose config and group match |
| Answers.HistsAt | cmd/otelinmemexporter/store.go:383-414 | a group's histogram points are, in order, all whose config and group match |
| Answers.NumberAnswerIs | cmd/otelinmemexporter/store.go:364-381 | what a group of number points reports: the last value, the maximum with 0, the total, the total per second from the first start to the latest time as a signed 64-bit span, and 0 for any other type |
| Answers.AnswerIs | cmd/otelinmemexporter/store.go:230-254 | an answer has one value for every group with points, from its histogram points if it has any and else from its number points; with no points it is a single 0 |
| Answers.OneSumPoint | cmd/otelinmemexporter/store.go:282-290 | one point of a delta sum, integer or float, is reported; of a cumulative sum, 0 |
| Grouping.GroupsAddUp | cmd/otelinmemexporter/store.go:331-332 | the totals of the groups add up to the total of the matching points |
| Grouping.GroupingConservesTotals | cmd/apmbench/main.go:46-53 | adding up the groups of a number sum gives the answer of the same config without grouping |
| Store.MergeNumber | cmd/otelinmemexporter/store.go:323-359 | updates a number slot in place by aggregation type |
| Store.GetHistAggByType | cmd/otelinmemexporter/store.go:416-427 | the value of a histogram slot by aggregation type; for a percentile p of a point with increasing bounds, the least point with at least p percent of its count at or below it |
| Store.UnnamedPointsDoNothing | cmd/otelinmemexporter/store.go:266-276 | the fast fail on unknown metric names skips points that change nothing |
| Store.Store.constructor | cmd/otelinmemexporter/store.go:158-168 | an empty store that satisfies the invariant |
| Store.NewStore | cmd/otelinmemexporter/store.go:158-168 | a store for exactly the valid config lists |
| Store.Store.NumberMergeTo | cmd/otelinmemexporter/store.go:446-460 | finds or creates the slot object of a config and of the group that the attributes give; every slot keeps its own object |
| Store.Store.HistMergeTo | cmd/otelinmemexporter/store.go:446-460 | the same for histogram slots |
| Store.Store.ApplyNumber | cmd/otelinmemexporter/store.go:321-359 | updates one number slot and leaves all others as they were |
| Store.Store.ApplyHist | cmd/otelinmemexporter/store.go:400-411 | updates one histogram slot and leaves all others as they were, for every merge that stays in range |
| Store.Store.MergeNumberDataPoints | cmd/otelinmemexporter/store.go:309-362 | records every point of a number metric; the slots stay what the log leads to |
| Store.Store.MergeHistogramDataPoints | cmd/otelinmemexporter/store.go:383-414 | records every non-empty point of a histogram metric, of any shape, if the merges stay in range |
| Store.Store.AddMetric | cmd/otelinmemexporter/store.go:266-307 | dispatches by metric type: exactly the points of the metric that are not cumulative and count something are recorded, in order and each once |
| Store.Store.Add | cmd/otelinmemexporter/store.go:179-195 | records, in order and each once, exactly the points that are not cumulative and count something, for every batch whose merges stay in range |
| Store.Store.Reset | cmd/otelinmemexporter/store.go:256-264 | deletes number slots, keeps histogram slots |
| Store.Store.Get | cmd/otelinmemexporter/store.go:230-254 | the recomputed answer for a configured key, spelled out on the recorded points; an error for any other key |
| Store.Store.GetAll | cmd/otelinmemexporter/store.go:201-224 | the recomputed answer for every configured key and no other, as Get gives it |
| Replay.Handler.WriteChunk | loadgen/eventhandler/handler.go:337-348 | a chunk is written with a new event writer |
| Replay.Handler.SendChunk | loadgen/eventhandler/handler.go:316-366 | one turn of the chunk loop: the request holds what the writer wrote for the chunk |
| Replay.Handler.SendBatch | loadgen/eventhandler/handler.go:306-368 | the chunk loop terminates, does what the batch function says and sends the bodies of its chunks |
| Replay.Handler.SendBatchesFrom | loadgen/eventhandler/handler.go:290-304 | one pass, ended by the first failure, all its bodies written with the handler's earliest time, the current time and one draw of random bits |
| Replay.Handler.SendBatches | loadgen/eventhandler/handler.go:282-288 | one pass with a counter of its own and a context of the handler's earliest time, the current time and one draw of random bits; returns the number of events accepted |
| Replay.Handler.SendBatchesInLoop | loadgen/eventhandler/handler.go:249-280 | passes with the counter kept, reduced after successful passes only, each with the time and the random bits drawn at its start; the error says whether the context was done or a pass failed |
| Pacing.BatchDelivery | loadgen/eventhandler/handler.go:313-367 | a batch delivers a prefix of its events under its metadata, all of them exactly on success |
| Pacing.PassDelivery | loadgen/eventhandler/handler.go:298-303 | a pass delivers a prefix of the flattened events as long as the counter's increase, all of them exactly on success |
| Pacing.LoopDelivery | loadgen/eventhandler/handler.go:259-279 | every pass made delivers a prefix from the first event on, all of it exactly if it succeeds; the loop stops early only after a failure when it does not run forever |
| Pacing.RestartsWhereLeftExactly | loadgen/eventhandler/handler.go:257-272 | each pass starts where the ones before left off exactly when no pass but the last stopped partway; then the events are delivered over and over again in order |
| Pacing.RefusedPassesRepeat | loadgen/eventhandler/handler.go:257-272 | with a transport that refuses every second request one event is delivered in every pass and the other never |
| Pacing.LoopPhase | loadgen/eventhandler/handler.go:318-335 | under any failures and retries tokens are asked for whole bursts between bursts, each burst starts right after its own grant, and no request crosses a burst |
| Pacing.DisciplinedIsCovered | loadgen/eventhandler/handler.go:318-364 | a disciplined trace has a token for every accepted event and for the rest of its burst |
| Pacing.AckedWithinTokens | loadgen/eventhandler/handler.go:249-368 | at every moment of a sender accepted events are at most the tokens granted |
| Pacing.PassWaits | loadgen/eventhandler/handler.go:316-365 | however a pass ends, from counter s0 to s1 it is granted tokens ceil(s1/b) - ceil(s0/b) times, and once more exactly if it failed right after a grant |
| Pacing.LoopWaits | loadgen/eventhandler/handler.go:249-368 | a whole run with N events accepted is granted tokens ceil((s0+N)/b) - ceil(s0/b) times, plus once for every grant that no accepted request followed |
| Pacing.BatchRequests | loadgen/eventhandler/handler.go:316-365 | however a batch ends, n > 0 events accepted from phase r took ceil((r+n)/b) requests, and none took none |
| Pacing.ReductionIsInvisible | loadgen/eventhandler/handler.go:273-277 | the loop behaves like one whose counter is never reduced |
| Pacing.CounterLaw | loadgen/eventhandler/handler.go:266-277 | the counter is what the last successful pass left of its burst plus the events accepted by the failed passes since |
| Pacing.CounterStaysSmallExactly | loadgen/eventhandler/handler.go:273-277 | the counter is below the burst exactly when that sum is, and never beyond the burst plus one pass per failure since the last success |
| Pacing.RefusedPassesCount | loadgen/eventhandler/handler.go:266-272 | with a transport that refuses every second request the counter grows without bound |
| Senders.SendersAddUp | loadgen/eventhandler/handler.go:57-60 | counting an interleaving sender by sender counts all of it |
| Senders.SharedLimiterHolds | loadgen/eventhandler/handler.go:57-60 | for any interleaving of senders on one limiter accepted events are at most the tokens granted |
| Loader.Process | loadgen/eventhandler/apm-collector.go:40-69 | the time of a line is 1000 ns for each microsecond of a number that is not negative, the first format that parses a text, and otherwise unset; the split into seconds loses nothing |
| Loader.TimeOfField | loadgen/eventhandler/apm-collector.go:48-64 | the same, as the only time that a timestamp field has |
| Loader.LoadFile | loadgen/eventhandler/handler.go:206-237 | the loop over the lines of a file, with the current batch and the running minimum |
| Loader.New | loadgen/eventhandler/handler.go:199-244 | all files, and an error when there is nothing to replay |
| Loader.LoadSucceedsExactly | loadgen/eventhandler/handler.go:210-241 | loading succeeds exactly when no line is RUM metadata, no event precedes its file's metadata and there is some metadata |
| Loader.LoadErrorIs | loadgen/eventhandler/handler.go:210-241 | a failed load stops at the first line, in the order of files and lines, that is RUM metadata or precedes its file's metadata, and says which; without such a line there is no metadata |
| RoundTrip.LoadKeepsLines | loadgen/eventhandler/handler.go:208-237 | the batches hold every non-empty line in order |
| RoundTrip.PassUnlimited | loadgen/eventhandler/handler.go:316-317 | without a limit each batch with events is one request |
| RoundTrip.ReplayWritesInput | loadgen/eventhandler/apm-writer.go:44-52 | without limit and with all flags off the accepted bodies are the non-empty input lines, byte by byte, exactly when every batch has events |
| RoundTrip.PassFuses | loadgen/eventhandler/handler.go:316-365 | the requests of a pass fuse to what the batches fuse to, whatever the limit |
| RoundTrip.ReplayReloads | loadgen/eventhandler/handler.go:206-237 | with all flags off, loading the accepted bodies gives one batch per request; fusing gives the loaded batches back exactly when all have events and neighbours differ in metadata |
| Timestamps.LoadFindsEarliest | loadgen/eventhandler/handler.go:229-234 | the minimum is the earliest time over all events of all files, or unset if there is none |
| Timestamps.LatestIsTranslation | loadgen/eventhandler/apm-writer.go:152-163 | the earliest maps to the base, none before it, differences exact exactly within a 64-bit duration |
| Timestamps.SevenIsTranslation | loadgen/eventhandler/apm-writer.go:143-150 | differences within one microsecond, exact for whole microseconds |
| Randomize.RandomizeTraceID | loadgen/eventhandler/handler.go:386-422 | appends the cipher text, or nothing for text that is not hexadecimal |
| Randomize.CipherTwice | loadgen/eventhandler/handler.go:400-420 | the result is hexadecimal and applying it twice gives the lower-case ID |
| Randomize.CipherMeetsBits | loadgen/eventhandler/handler.go:123-135 | digit i of the result is the lower-case digit whose value is that of digit i of the ID XOR-ed with the four bits of the random word at place (64 - 4i) mod 64 |
| Randomize.HexDigitsAre | loadgen/eventhandler/handler.go:386-399 | the bytes taken for digits are '0'-'9', 'a'-'f' and 'A'-'F' with their values |
| Randomize.CipherInjective | loadgen/eventhandler/handler.go:123-135 | hexadecimal IDs are rewritten alike exactly when they are the same up to case |
| Randomize.CipherKeepsPrefixes | loadgen/eventhandler/handler.go:399-420 | prefixes are rewritten to prefixes |
| Bits.KeyPeriod | loadgen/eventhandler/handler.go:411-412 | the key stream has period 16 |
| Randomize.CipherPeriod | loadgen/eventhandler/handler.go:411-412 | equal digits 16 places apart are rewritten alike |
| Randomize.RandomizeASCII | loadgen/eventhandler/handler.go:441-462 | appends the randomized text |
| Randomize.RandomTextKeepsCategory | loadgen/eventhandler/handler.go:439-462 | letters stay letters of the same case, digits stay digits, and every other byte is copied |
| Randomize.RandomTextMeetsBits | loadgen/eventhandler/handler.go:441-462 | which letter or digit: byte i is picked by the five bits of the random word at place (64 - 5k) mod 64, where k bytes between '0' and 'z' came before |
| Json.ReadsBack | loadgen/eventhandler/handler.go:370-384 | reading the tokens of a tree gives the tree and leaves what follows |
| Json.TokensInjective | loadgen/eventhandler/handler.go:370-384 | different trees have different tokens |
| Writer.EventWriter.WriteAlong | loadgen/eventhandler/apm-writer.go:106-129 | the nested rewriting of context.service.target.name; the scratch buffer is empty again after each |
| Writer.EventWriter.WriteField | loadgen/eventhandler/apm-writer.go:57-134 | writes the new value of one field with an empty scratch buffer before and after |
| Writer.EventWriter.WriteBody | loadgen/eventhandler/handler.go:370-384 | writes the object of an event field by field, with commas between |
| Writer.EventWriter.WriteEvent | loadgen/eventhandler/apm-writer.go:53-138 | writes one line that reads back as the rewritten tree, and leaves both buffers empty |
| Writer.EventWriter.RandomizeASCIIField | loadgen/eventhandler/handler.go:424-437 | randomizes the value at a path if there is one, and otherwise leaves the line as it is |
| Writer.EventWriter.WriteAPMEvents | loadgen/eventhandler/apm-writer.go:18-141 | one line for the metadata and one per event, copied or rewritten, both buffers empty before every event |
| Rewriting.AlongTouchesOnlyThePath | loadgen/eventhandler/apm-writer.go:101-129 | only nodes at the path change; objects on the way keep their keys in order |
| Rewriting.RewritingKeepsTheRest | loadgen/eventhandler/apm-writer.go:53-137 | an event keeps its type and keys in order, and every field that is not targeted |
| Rewriting.NoEventFlagsIsIdentity | loadgen/eventhandler/apm-writer.go:19-52 | with all event-level flags off events are written as they were |
| Rewriting.SameAfterIffSameBefore | loadgen/eventhandler/apm-writer.go:72-80 | ID values are rewritten alike exactly when their canonical forms agree |
| Rewriting.TraceGraphKept | loadgen/eventhandler/handler.go:128-136 | two string IDs under the four keys of any events are equal in the written lines exactly when they were before, up to the case of hexadecimal IDs, if the lines share the random bits |
| Rewriting.IdsCollapseExactly | loadgen/eventhandler/apm-writer.go:72-77 | exactly which different ID values are rewritten alike: those without a text, and hexadecimal texts that differ in case |
| Rewriting.LinkedIdMatchesExactly | loadgen/eventhandler/handler.go:128-136 | an ID in any other place keeps its value, and matches the rewritten ID exactly when that is in lower case and the random bits that it meets are 0 |
| Rewriting.TargetedFields | loadgen/eventhandler/apm-writer.go:72-99 | in the written line, hexadecimal IDs become their cipher text, and names of spans and of transactions and types of transactions their randomized form, each under its own flag |
| Rewriting.TargetedContext | loadgen/eventhandler/apm-writer.go:101-129 | and in a context the values under service, target and name, and nothing off that path |
| Rewriting.MetadataKeepsTheRest | loadgen/eventhandler/apm-writer.go:28-45 | the metadata changes only in metadata.service.name and metadata.service.node.configured_name, each of which becomes its randomized form exactly under its flag |
| Output.PassWritesLoaded | loadgen/eventhandler/handler.go:290-368 | load, then one pass under any flags: the accepted bodies hold, in order and under their own rewritten metadata, the rewritten forms of a prefix of the loaded events, of all exactly on success |
| Output.DeliveredIdsKept | loadgen/eventhandler/handler.go:128-136 | any two string IDs delivered under the four rewritten keys in a pass are equal exactly when they were equal in the loaded lines, up to the case of hexadecimal IDs |
| Output.DeliveredTimesMoved | loadgen/eventhandler/handler.go:111-120 | any two times delivered in a pass are as far apart as the times of the loaded lines and not before the base time, with the minimum that loading found |
| Output.PassIsReplay | loadgen/eventhandler/handler.go:290-368 | all of this together, for any pass over what was loaded |
| Output.PassesAreReplays | loadgen/eventhandler/handler.go:249-280 | and for every pass of a loop, each with a context of its own |
| Output.LoadAndSend | loadgen/eventhandler/handler.go:167-304 | a handler made from loaded files sends such a pass: its context holds the earliest time loaded and the time and random bits drawn at its start |

## Left out

- Rounding of floats, NaN and -Inf as bucket bounds, and NaN as a configured percentile.
- Exemplars, attributes and flags of stored histogram points, log output and error texts; no query shows them.
- What a store holds after an index out of range; the preconditions of the methods say exactly when there is none.
- The store's lock: every public method runs under it, so the model's calls are one at a time.
- The two-level maps from key to group to slot are one map from (key, group) pairs; the code never keeps an empty inner map. The two loops that build an answer are two maps joined, the histogram one taking precedence.
- HTTP, zlib, file globbing, line splitting and its limits; files are lists of lines.
- JSON and time parsing as text, dotted object types, and lines with several top-level keys.
- Writer.EventWriter.WriteAlong: takes objects on the path; what the JSON library iterates in any other value is not part of this model.
- Writer.EventWriter.WriteField: takes a context that is an object along the path when target names are rewritten, for the same reason.
- Writer.EventWriter.WriteBody: takes an event whose value is an object, for the same reason.
- Writer.EventWriter.WriteEvent: the same.
- Writer.EventWriter.WriteAPMEvents: takes batches of such events if anything is rewritten, for the same reason.
- The text of escaped strings and keys and of formatted times; tokens carry the values.
- Names that are not valid UTF-8; in valid text every byte outside ASCII is copied.
- Overflow of the counter of events sent, a 64-bit integer that the code guards by its reduction.
- Replay.Handler.SendBatchesInLoop: the number of passes begun before the context is done is a parameter, since the loop itself may run forever; every finite part of an infinite run is covered.
- An error of the JSON library while a metadata line is rewritten counts as a failure to close the writer; the text that such a call would leave behind is not modelled.
- Parsing of event rates, response logging, the telemetry generators and the other commands: plumbing.
