# Verified model of the PrismGateway core

PrismGateway is a multi-tenant gateway in front of LLM providers. This project models its algorithms and
protocols in Dafny and proves what they promise over every input, every interleaving or every schedule.
`dafny verify dfyconfig.toml` checks all of it.

| part | files |
|---|---|
| Circuit breaker shared through Redis | `Breaker.dfy`, `BreakerRuns.dfy`, `BreakerWindow.dfy` |
| k-means for anchor suggestion | `KMeans.dfy`, `KMeansCluster.dfy` |
| Stream writers (Anthropic, Responses, Gemini) | `SseFraming.dfy`, `SseStandard.dfy`, `SseAgreement.dfy`, `StreamWriters.dfy`, `AnthropicWriter.dfy`, `ResponsesWriter.dfy`, `GeminiWriter.dfy`, `WriterAgreement.dfy` |
| Merge patch and config diff | `JsonMerge.dfy`, `JsonDiff.dfy` |
| Versioned config and tenant cache | `ConfigStore.dfy`, `TenantCache.dfy` |
| Candidate narrowing and fallback loop, alone and against the breaker | `FallbackLoop.dfy`, `GatewayRuns.dfy` |
| Threshold sweep, effective cost, limiter, benchmark round | `Calibration.dfy`, `Monetization.dfy`, `RateLimiter.dfy`, `BenchmarkRunner.dfy` |

## How the model is built

Objects and scripts that update state in place are classes and methods; each is tied by its postcondition to a
step function on values, and the theorems about runs are lemmas over sequences of such steps. Concurrency is a
state machine whose events interleave freely: Allow and Report steps with outstanding tickets, handlers between
their read and their write, resolves between their lookup, their database read and their Set, goroutines between
channel operations. `GatewayRuns` puts the fallback loop and the breaker together: requests work through the traces of
their loops, and what they report to the breaker follows from those.

Assumptions: floating point is `real`; each Redis script is one atomic step; time is one non-decreasing clock (whole
seconds for the breaker, where a key lives until its expiry second); random draws are parameters in their range;
decoding one JSON payload is an arbitrary function; writes to the client succeed; the config store is a versioned
register that rejects a write whose version is not current and otherwise stores it under the next version.

## Where the code and its promises part

- `mergeMapsPublic` is documented as RFC 7396. It keeps nulls inside an object that it inserts where the target has
  none; `JsonMerge.MergeExactly` gives the exact condition under which it does follow the standard.
- A probe that reports after its epoch has ended is taken off the new epoch's counter, so the limit on concurrent
  probes can be exceeded; `BreakerRuns.OverrunExactly` says exactly when.
- `breaker.go:16` asks callers to report every probe. The streaming path does not on two exits
  (`FallbackLoop.LoopPairing`, `FallbackLoop.UnreportedProbe`), and a lone probe lost that way blocks its provider
  (`GatewayRuns.StreamingExitBlocks`); without streaming that cannot happen (`GatewayRuns.NeverStuck`).
- While half-open any success counts towards closing, also one admitted before the breaker opened;
  `BreakerRuns.PlainCloseExactly` says exactly when no probe is needed at all.
- A window shorter than one bucket covers no bucket, so such a breaker never trips (`BreakerWindow.TripExactly`).
- k-means can stop before its first update and return a clustering that leaves items nearer to another cluster.
  `KMeansCluster.Run` says for which items and draws, and `KMeansCluster.ZeroDraw` is an input. It takes draws of
  exactly zero: a fact under the assumption of arbitrary draws, since the code seeds its generator with a constant
  (anchor_suggest_handler.go:228).
- A second [DONE], or text after [DONE], continues an Anthropic or Responses stream after its terminal event; the
  terminal event itself is never repeated (`AnthropicWriter.MessageExactly`, `AnthropicWriter.SecondDone`,
  `ResponsesWriter.ResponseExactly`, `ResponsesWriter.TextAfterDone`).
- A resolve that straddles an invalidation caches the old tenant config again (`TenantCache.OldReadExactly`,
  `TenantCache.StraddleReturnsOld`).
- A provider model id stays in the request when the next candidate has none (`FallbackLoop.OwnIDExactly`,
  `FallbackLoop.ForeignID`).
- The writers cut events at LF LF and take one payload each; `SseAgreement.StandardExactly` relates that to section
  9.2.6 of the WHATWG HTML Standard for events with any number of data lines (`SseAgreement.TwoDataLines` is one on
  which they differ).

One boundary belongs to a function and not to the gateway: `computeMonetization` charges nothing to an identity without
a request, even if its rows carry spend (`Monetization.ConservationExactly`). The gateway's own rows come from
`COUNT(*)` per group (backend/internal/storage/postgres.go:1231, 1281 and 1422), so each has at least one request and
`Monetization.NothingDropped` applies.

## Model

| member | source | states |
|---|---|---|
| `Breaker.Circuit.constructor` | backend/internal/circuitbreaker/lua.go:75-76 | A provider without keys: no state field (so closed), no buckets |
| `Breaker.Circuit.Allow` | backend/internal/circuitbreaker/lua.go:11-40 | The gate script run command by command leaves the hash and gives the answer of the atomic step `AllowStep`; the window is not touched |
| `Breaker.Circuit.Report` | backend/internal/circuitbreaker/lua.go:61-131 | The report script run command by command leaves the store and gives the transition of the atomic step `ReportStep` |
| `Breaker.Circuit.SumWindow` | backend/internal/circuitbreaker/lua.go:109-118 | The bucket loop adds up the live `ok` and `fail` counts of the newest window/bucket-size buckets |
| `BreakerRuns.StepKeepsAccounts` | backend/internal/circuitbreaker/lua.go:20-105 | Every Allow and every Report, late ones included, keeps the probe accounts: in half-open the counter is the epoch's outstanding probes minus the stale probe reports of the epoch, and not above the limit |
| `BreakerRuns.ProbeAccounting` | backend/internal/circuitbreaker/lua.go:20-105 | The probe accounts hold in every state of every interleaving |
| `BreakerRuns.DebtConstant` | backend/internal/circuitbreaker/lua.go:78-81 | While an epoch lasts, stale reports plus earlier probes still out stay constant: each stale report spends one leftover probe |
| `BreakerRuns.ProbeBound` | backend/internal/circuitbreaker/lua.go:31-36 | Probes really in flight exceed the limit by at most the probes left over when the epoch began; with none left over the limit is real |
| `BreakerRuns.OverrunWitness` | backend/internal/circuitbreaker/lua.go:78-81 | From any epoch start with enough leftover probes and more successes needed to close, a run that exceeds the limit within the epoch |
| `BreakerRuns.OverrunExactly` | backend/internal/circuitbreaker/lua.go:78-105 | From an epoch start, for every limit, some run exceeds the limit within the epoch if and only if enough earlier probes are still out (one, and one more for each step a negative limit lies below zero) and that many successes do not close the breaker |
| `BreakerRuns.LeftoverProbeReachable` | backend/internal/circuitbreaker/lua.go:100-104 | A run from the empty store to an epoch start with a leftover probe: a late failure reopens the breaker while a probe is out |
| `BreakerRuns.LegalTransitions` | backend/internal/circuitbreaker/lua.go:20-131 | The only phase changes are closed to open, open to half-open, half-open to open and half-open to closed, each with its trigger |
| `BreakerRuns.CooldownHolds` | backend/internal/circuitbreaker/lua.go:20-23 | After opening at t the breaker stays open, keeps its deadline and denies every Allow before t + cooldown, whatever is reported meanwhile |
| `BreakerRuns.DeadlineExactly` | backend/internal/circuitbreaker/lua.go:100-131 | In every open state of every run the deadline is the time of the step that last opened the breaker plus the cooldown, whatever was reported since and however late |
| `BreakerRuns.ReopensExactly` | backend/internal/circuitbreaker/lua.go:20-37 | An Allow on an open breaker before that deadline is denied and changes nothing; the first one at or after it makes the breaker half-open and, with a positive limit, is granted as a probe |
| `BreakerRuns.HalfOpenHistory` | backend/internal/circuitbreaker/lua.go:92-105 | In every half-open state the success field counts the success reports since the last entry into half-open, fewer than needed to close, and no failure was reported since |
| `BreakerRuns.CloseNeedsSuccesses` | backend/internal/circuitbreaker/lua.go:92-98 | Every close is preceded, since the last entry into half-open, by exactly the configured number of success reports (at least one) and no failure report |
| `BreakerRuns.CloseWithoutProbeReport` | backend/internal/circuitbreaker/lua.go:92-98 | A run from the empty store in which the breaker closes while its probe is unreported |
| `BreakerRuns.PlainCloseExactly` | backend/internal/circuitbreaker/lua.go:92-98 | From an epoch start the breaker can close without any probe report if and only if at least as many requests admitted while it was closed are still out as successes are needed |
| `BreakerRuns.PlainSpent` | backend/internal/circuitbreaker/lua.go:92-99 | While only such requests report, the success field gains exactly what they lose |
| `BreakerRuns.UnreportedProbesBlock` | backend/internal/circuitbreaker/lua.go:31-37 | With a full counter and no outstanding request ever reporting, every later event is a denied Allow and the store never changes |
| `BreakerRuns.BlockedExactly` | backend/internal/circuitbreaker/lua.go:15-105 | With a positive limit, and only a given set of tickets ever reporting, some run grants a request if and only if the breaker is not half-open with a full counter and none of those tickets out |
| `BreakerRuns.LoneProbeBlocks` | backend/internal/circuitbreaker/breaker.go:15-17 | With one probe allowed, a probe that opens the epoch with nothing else out and is never reported blocks the provider for good |
| `BreakerWindow.BucketsExact` | backend/internal/circuitbreaker/lua.go:83-89 | In every state of every run each bucket key holds the exact number of ok and fail reports of its time slice, and expires window + bucket size after the last of them |
| `BreakerWindow.NotExpired` | backend/internal/circuitbreaker/redis_breaker.go:142-146 | A bucket inside the window is alive at the time it is read |
| `BreakerWindow.TotalsExact` | backend/internal/circuitbreaker/lua.go:109-118 | The totals of the n newest buckets are the exact numbers of reports since the start of the oldest of them |
| `BreakerWindow.TripExactly` | backend/internal/circuitbreaker/lua.go:107-128 | A closed breaker opens on a report if and only if it is a failure, the window holds a bucket, and the exact counts meet the minimum and the threshold |
| `KMeans.SameVec` | backend/internal/httpapi/anchor_suggest_handler.go:177-184 | Squared distance is zero exactly for equal vectors, and symmetric |
| `KMeans.SpreadAroundMean` | backend/internal/httpapi/anchor_suggest_handler.go:187-203 | Sum of squared distances to v = sum to the mean + count times the squared distance of mean and v |
| `KMeans.MeanIsBest` | backend/internal/httpapi/anchor_suggest_handler.go:300-321 | The mean costs no more than any other centre |
| `KMeans.CostByCluster` | backend/internal/httpapi/anchor_suggest_handler.go:280-294 | Adding up item by item and cluster by cluster gives the same cost |
| `KMeans.AssignmentStep` | backend/internal/httpapi/anchor_suggest_handler.go:280-294 | A nearest-centroid assignment costs no more than any other assignment to the same centroids |
| `KMeans.UpdateStep` | backend/internal/httpapi/anchor_suggest_handler.go:300-321 | Replacing centroids by means, keeping those of empty clusters, never raises the cost |
| `KMeans.MembersPartition` | backend/internal/httpapi/anchor_suggest_handler.go:325-330 | The members of the clusters together are the items, each exactly once |
| `KMeansCluster.EuclidSq` | backend/internal/httpapi/anchor_suggest_handler.go:177-184 | The loop computes the squared distance |
| `KMeansCluster.MinDist` | backend/internal/httpapi/anchor_suggest_handler.go:242-248 | The least squared distance to the chosen centroids, zero exactly for an item that is one of them |
| `KMeansCluster.Distances` | backend/internal/httpapi/anchor_suggest_handler.go:239-250 | All least distances and their sum, which is zero exactly when every item is a chosen centroid |
| `KMeansCluster.Pick` | backend/internal/httpapi/anchor_suggest_handler.go:258-267 | The index whose cumulative distance first reaches draw times total; a non-zero draw picks an item away from all centroids, a zero draw picks the first item |
| `KMeansCluster.InitCentroids` | backend/internal/httpapi/anchor_suggest_handler.go:230-272 | k initial centroids: the given item first, every later one drawn by squared distance to those before it (the first item when all coincide with them); with a non-zero draw none repeats an earlier one unless all items do, with a zero draw it is the first item |
| `KMeansCluster.NextCentroid` | backend/internal/httpapi/anchor_suggest_handler.go:238-271 | The item at the first index where the running sum of least squared distances reaches draw times total, or the first item when the total is zero |
| `KMeansCluster.NearestCentroid` | backend/internal/httpapi/anchor_suggest_handler.go:282-289 | A nearest centroid, the lowest-numbered one on ties |
| `KMeansCluster.Assign` | backend/internal/httpapi/anchor_suggest_handler.go:280-294 | In place: every item to the lowest-numbered of its nearest centroids; `changed` exactly when some assignment changed |
| `KMeansCluster.Accumulate` | backend/internal/httpapi/anchor_suggest_handler.go:301-313 | Per-cluster sums in every dimension and member counts |
| `KMeansCluster.Recompute` | backend/internal/httpapi/anchor_suggest_handler.go:300-321 | In place: means for non-empty clusters, empty ones keep their centroid |
| `KMeansCluster.Lloyd` | backend/internal/httpapi/anchor_suggest_handler.go:274-322 | The result of Lloyd's iteration: from all items in the first cluster, each iteration assigns to the lowest-numbered nearest centroid and recentres, until nothing changes or 100 updates are made; it costs no more than any assignment to the initial centroids, and makes no update from coinciding ones |
| `KMeansCluster.ComputeCentroid` | backend/internal/httpapi/anchor_suggest_handler.go:187-203 | The element-wise mean |
| `KMeansCluster.NearestToCentroid` | backend/internal/httpapi/anchor_suggest_handler.go:206-217 | The text of the earliest member at least distance from the centroid |
| `KMeansCluster.Collect` | backend/internal/httpapi/anchor_suggest_handler.go:325-330 | Member lists per cluster, in item order |
| `KMeansCluster.BuildCluster` | backend/internal/httpapi/anchor_suggest_handler.go:333-343 | Members with their mean, or the prior centroid when empty |
| `KMeansCluster.BuildResults` | backend/internal/httpapi/anchor_suggest_handler.go:324-346 | All clusters with their members and recomputed centres |
| `KMeansCluster.SettledAtOnce` | backend/internal/httpapi/anchor_suggest_handler.go:296-298 | When the first assignment changes nothing, items are nearest to their cluster's mean if and only if there is one cluster or the first centroid is the mean of all items |
| `KMeansCluster.SettledTooEarly` | backend/internal/httpapi/anchor_suggest_handler.go:258-267 | On two items, the assignment and centroids after a zero draw are settled, and the returned centres leave an item nearer to the other one |
| `KMeansCluster.LaterDraw` | backend/internal/httpapi/anchor_suggest_handler.go:258-267 | With any non-zero later draw a loop that settles at once has all items at the first centroid, which is their mean |
| `KMeansCluster.GoodStart` | backend/internal/httpapi/anchor_suggest_handler.go:230-272 | From a good start a loop that settles at once has one cluster or the mean of all items as its first centroid |
| `KMeansCluster.BadStart` | backend/internal/httpapi/anchor_suggest_handler.go:230-272 | From a bad start all initial centroids are one item that is not the mean |
| `KMeansCluster.ZeroDraw` | backend/internal/httpapi/anchor_suggest_handler.go:222-347 | The procedure on two items at 0 and 10, two clusters and a draw of zero leaves an item nearer to the other cluster |
| `KMeansCluster.Run` | backend/internal/httpapi/anchor_suggest_handler.go:222-347 | Seeding by squared distance, Lloyd's iteration, recentred results; members partition the items; the result costs no more than any assignment to the initial centroids; a settled loop leaves every item nearest to its own mean if and only if k is 1, or some later draw is not zero, or the first centroid is not the first item, or the first item is the mean of all; no items or k <= 0 gives no clusters |
| `SseFraming.IndexBlank` | backend/internal/httpapi/anthropic_messages_sse_sink.go:70-73 | Position of the first blank line, or negative when there is none |
| `SseFraming.SplitExactly` | backend/internal/httpapi/anthropic_messages_sse_sink.go:66-81 | A framing of a byte stream (each event up to the first blank line after its start, no blank line left over) is unique, and one-shot splitting finds it |
| `SseFraming.SplitAppend` | backend/internal/httpapi/anthropic_messages_sse_sink.go:66-81 | Splitting a + b gives the events of a, then those of a's leftover followed by b |
| `SseFraming.FeedIsSplit` | backend/internal/httpapi/anthropic_messages_sse_sink.go:66-81 | Any sequence of Write calls leaves the state and buffer of one split over buffer and bytes together |
| `SseFraming.ChunkingIndependence` | backend/internal/httpapi/anthropic_messages_sse_sink.go:66-81 | Two ways of cutting the same bytes into Write calls give the same state, output and leftover buffer |
| `SseFraming.EncodeRoundTrip` | backend/internal/httpapi/anthropic_messages_sse_sink.go:84-92 | Framing and stripping an encoded stream gives back its payloads with nothing left over |
| `SseFraming.EncodeFrames` | backend/internal/httpapi/anthropic_messages_sse_sink.go:66-81 | Each data line of an encoded stream is one event, with nothing left over |
| `SseFraming.PayloadExactly` | backend/internal/httpapi/anthropic_messages_sse_sink.go:84-86 | A data line gives back its payload if and only if the payload is not empty and does not end in white space |
| `SseFraming.PayloadIs` | backend/internal/httpapi/anthropic_messages_sse_sink.go:84-86 | The payload of any event is what is left without the white space at both ends and then without a leading data field name |
| `SseStandard.StandardData` | backend/internal/httpapi/anthropic_messages_sse_sink.go:66-86 | Section 9.2.6 of the WHATWG HTML Standard reads a stream of events with any number of data lines as their values joined by line feeds |
| `SseAgreement.EventExactly` | backend/internal/httpapi/anthropic_messages_sse_sink.go:84-86 | The payload the gateway takes from one event is the data of the standard if and only if the event has one data line, not empty and not ending in white space |
| `SseStandard.EncodeIsStream` | backend/internal/httpapi/anthropic_messages_sse_sink.go:66-86 | An encoded stream is such a stream, with one data line per event |
| `SseAgreement.StandardExactly` | backend/internal/httpapi/anthropic_messages_sse_sink.go:66-86 | On such streams the gateway reads what the standard reads if and only if every event has one data line, not empty and not ending in white space |
| `SseAgreement.TwoDataLines` | backend/internal/httpapi/anthropic_messages_sse_sink.go:84-86 | An event with two data lines, on which gateway and standard differ |
| `StreamWriters.StreamFrames` | backend/internal/httpapi/anthropic_messages_sse_sink.go:84-108 | An encoded stream ending in [DONE] reaches a writer as its chunks and one end |
| `StreamWriters.ClassifyExactly` | backend/internal/httpapi/anthropic_messages_sse_sink.go:88-108 | An event is the end exactly when its payload is the sentinel, a chunk exactly when the decoder accepts any other payload, and otherwise nothing |
| `AnthropicWriter.Writer.constructor` | backend/internal/httpapi/anthropic_messages_sse_sink.go:46-52 | A fresh writer: empty buffer, nothing emitted |
| `AnthropicWriter.Writer.Write` | backend/internal/httpapi/anthropic_messages_sse_sink.go:66-81 | Appends, then translates every complete event: state and buffer are those of feeding one more chunk |
| `AnthropicWriter.Writer.WriteAll` | backend/internal/httpapi/anthropic_messages_sse_sink.go:66-81 | Any sequence of Write calls on one writer leaves the state, output and buffer of feeding its chunks in order |
| `AnthropicWriter.Writer.HandleSSEEvent` | backend/internal/httpapi/anthropic_messages_sse_sink.go:84-123 | One event is one step of the translation; the buffer is untouched |
| `AnthropicWriter.Writer.EmitDone` | backend/internal/httpapi/anthropic_messages_sse_sink.go:170-212 | The closing events, preceded by the opening ones if none was emitted |
| `AnthropicWriter.Writer.EmitMessageStop` | backend/internal/httpapi/anthropic_messages_sse_sink.go:214-221 | message_stop unless already emitted |
| `AnthropicWriter.Writer.WriteDone` | backend/internal/httpapi/anthropic_messages_sse_sink.go:248-250 | WriteDone emits message_stop unless already emitted |
| `AnthropicWriter.StopOnce` | backend/internal/httpapi/anthropic_messages_sse_sink.go:214-221 | For any input message_stop appears once if some [DONE] or WriteDone arrived and never otherwise |
| `AnthropicWriter.DeltasAreTexts` | backend/internal/httpapi/anthropic_messages_sse_sink.go:110-123 | For any input the deltas are the chunk texts, one each and in order, and the accumulated text is their concatenation |
| `AnthropicWriter.EmitsExactly` | backend/internal/httpapi/anthropic_messages_sse_sink.go:84-221 | For any input each frame adds exactly its own events, said by what has arrived before it: opening events at the first chunk or [DONE], a delta per chunk, closing events with the estimate of the text so far at each [DONE], message_stop at the first end |
| `AnthropicWriter.MessageExactly` | backend/internal/httpapi/anthropic_messages_sse_sink.go:84-221 | The output is one complete message in event order, with output tokens the text bytes over 4 rounded up, if and only if chunks are followed by one [DONE] and then at most WriteDone calls |
| `AnthropicWriter.SecondDone` | backend/internal/httpapi/anthropic_messages_sse_sink.go:170-221 | Two [DONE] in a row, after which the output is no message any more |
| `AnthropicWriter.FoldIsRun` | backend/internal/httpapi/anthropic_messages_sse_sink.go:66-123 | Translating events one by one is running their frames |
| `ResponsesWriter.Writer.constructor` | backend/internal/httpapi/responses_api_sse_sink.go:42-48 | A fresh writer: empty buffer, nothing emitted |
| `ResponsesWriter.Writer.Write` | backend/internal/httpapi/responses_api_sse_sink.go:71-86 | State and buffer are those of feeding one more chunk |
| `ResponsesWriter.Writer.WriteAll` | backend/internal/httpapi/responses_api_sse_sink.go:71-86 | Any sequence of Write calls on one writer leaves the state, output and buffer of feeding its chunks in order |
| `ResponsesWriter.Writer.HandleSSEEvent` | backend/internal/httpapi/responses_api_sse_sink.go:89-125 | One event is one step of the translation |
| `ResponsesWriter.Writer.EmitDone` | backend/internal/httpapi/responses_api_sse_sink.go:160-183 | The done text and completion, preceded by the opening events if none was emitted |
| `ResponsesWriter.Writer.EmitCompleted` | backend/internal/httpapi/responses_api_sse_sink.go:185-193 | response.completed unless already emitted |
| `ResponsesWriter.Writer.WriteDone` | backend/internal/httpapi/responses_api_sse_sink.go:220-222 | WriteDone emits response.completed unless already emitted |
| `ResponsesWriter.EveryInput` | backend/internal/httpapi/responses_api_sse_sink.go:89-193 | For any input the deltas are the chunk texts in order, every done text is the concatenation of the deltas before it, and response.completed appears once if the stream was ended and never otherwise |
| `ResponsesWriter.EmitsExactly` | backend/internal/httpapi/responses_api_sse_sink.go:89-193 | For any input each frame adds exactly its own events: opening events at the first chunk or [DONE], a delta per chunk, the whole text so far at each [DONE], response.completed at the first end |
| `ResponsesWriter.ResponseExactly` | backend/internal/httpapi/responses_api_sse_sink.go:89-193 | The output is one whole response in event order if and only if chunks are followed by one [DONE] and then at most WriteDone calls |
| `ResponsesWriter.TextAfterDone` | backend/internal/httpapi/responses_api_sse_sink.go:89-193 | Text after [DONE], after which the output is no response any more |
| `ResponsesWriter.FoldIsRun` | backend/internal/httpapi/responses_api_sse_sink.go:71-125 | Translating events one by one is running their frames |
| `GeminiWriter.Writer.constructor` | backend/internal/httpapi/gemini_generate_content_sse_sink.go:39-44 | A fresh writer: empty buffer, nothing emitted |
| `GeminiWriter.Writer.Write` | backend/internal/httpapi/gemini_generate_content_sse_sink.go:58-72 | State and buffer are those of feeding one more chunk |
| `GeminiWriter.Writer.WriteAll` | backend/internal/httpapi/gemini_generate_content_sse_sink.go:58-72 | Any sequence of Write calls on one writer leaves the state, output and buffer of feeding its chunks in order |
| `GeminiWriter.Writer.HandleSSEEvent` | backend/internal/httpapi/gemini_generate_content_sse_sink.go:75-109 | One event is one step of the translation, usage included |
| `GeminiWriter.Writer.EmitFinalChunk` | backend/internal/httpapi/gemini_generate_content_sse_sink.go:129-160 | Final chunk with the recorded usage and the [DONE] line, unless already emitted |
| `GeminiWriter.Writer.WriteDone` | backend/internal/httpapi/gemini_generate_content_sse_sink.go:187-189 | WriteDone closes the stream unless already closed |
| `GeminiWriter.OpenStream` | backend/internal/httpapi/gemini_generate_content_sse_sink.go:75-109 | Before any end: one delta chunk per text, and the usage of the last usage-bearing chunk |
| `GeminiWriter.ClosedStream` | backend/internal/httpapi/gemini_generate_content_sse_sink.go:129-160 | For any ended input: the final chunk and [DONE] line appear exactly once, at the first end, with the last usage before it; deltas on both sides are the chunk texts in order |
| `GeminiWriter.FoldIsRun` | backend/internal/httpapi/gemini_generate_content_sse_sink.go:58-109 | Translating events one by one is running their frames |
| `WriterAgreement.SameTexts` | backend/internal/httpapi/gemini_generate_content_sse_sink.go:104-109 | For any input all three writers deliver the same delta texts in the same order |
| `WriterAgreement.EncodedStreams` | backend/internal/httpapi/anthropic_messages_sse_sink.go:66-221 | An encoded stream, cut differently for each writer, comes out as one complete message, one whole response and one closed Gemini stream over the same texts, the last with the last usage of the stream, all with empty buffers |
| `JsonMerge.MergeMaps` | backend/internal/httpapi/admin_global_config_handler.go:643-662 | The loop over the patch, in any key order, computes the recursive merge |
| `JsonMerge.MergeExactly` | backend/internal/httpapi/admin_global_config_handler.go:641-662 | The merge equals MergePatch of section 2 of RFC 7396 if and only if no object inserted where the target has none holds a null at any depth through objects |
| `JsonMerge.InsertExactly` | backend/internal/httpapi/admin_global_config_handler.go:653-659 | The standard inserts an object unchanged exactly when it is null-free |
| `JsonMerge.NestedNullKept` | backend/internal/httpapi/admin_global_config_handler.go:653-659 | A patch with a nested null that the merge keeps as it is and the standard strips |
| `JsonMerge.SelfMergeExactly` | backend/internal/httpapi/admin_global_config_handler.go:643-662 | Merging an object into itself changes nothing exactly when it is null-free |
| `JsonMerge.IdempotentExactly` | backend/internal/httpapi/admin_global_config_handler.go:643-662 | Applying a patch twice equals applying it once if and only if the same condition holds |
| `JsonMerge.MergeFrame` | backend/internal/httpapi/admin_global_config_handler.go:643-662 | Every path the patch does not name keeps its value, or its absence |
| `JsonMerge.MergePlaces` | backend/internal/httpapi/admin_global_config_handler.go:648-660 | Where the patch has a value and the two are not both objects, the result reads as the patch there and at every path below, nested nulls included; a null leaves nothing |
| `JsonMerge.MergeMeets` | backend/internal/httpapi/admin_global_config_handler.go:653-657 | Where both are objects the result has the merge of the two |
| `JsonDiff.ChangedFieldPaths` | backend/internal/httpapi/admin_config_handlers.go:557-581 | The recursion lists every changed path exactly once, rendered with dots after the prefix, and nothing else |
| `JsonDiff.ListedExactly` | backend/internal/httpapi/admin_config_handlers.go:557-581 | The list is empty if and only if the objects are equal up to null members; its strings are exactly the rendered changed paths, and the same for the swapped arguments |
| `JsonDiff.ChangedExactly` | backend/internal/httpapi/admin_config_handlers.go:568-579 | A path is reported if and only if everything above it is an object on both sides and the values there differ (absent reads as null) without both being objects |
| `JsonDiff.ChangedSymmetric` | backend/internal/httpapi/admin_config_handlers.go:559-581 | The set of changed paths does not depend on which side is before |
| `JsonDiff.NoChangeExactly` | backend/internal/httpapi/admin_config_handlers.go:559-581 | Nothing is reported if and only if the two objects are equal up to null members at positions reached through objects |
| `JsonDiff.DiffOfMerge` | backend/internal/httpapi/admin_config_handlers.go:559-581 | The diff between a config and its patched form names only paths the patch touches |
| `JsonDiff.RenderInjective` | backend/internal/httpapi/admin_config_handlers.go:569-574 | With dot-free keys a rendered string determines its path |
| `ConfigStore.FindModel` | backend/internal/httpapi/admin_global_config_handler.go:375-382 | Index of the first model of that name, or -1 |
| `ConfigStore.RemoveModel` | backend/internal/httpapi/admin_global_config_handler.go:894-900 | The list without the named model |
| `ConfigStore.ValidateNames` | backend/internal/httpapi/admin_global_config_handler.go:565-575 | Accepts exactly the lists with non-empty, distinct names |
| `ConfigStore.IndexOf` | backend/internal/httpapi/admin_global_config_handler.go:375-382 | First index of a name, or the length when there is none |
| `ConfigStore.WithoutKeeps` | backend/internal/httpapi/admin_global_config_handler.go:894-900 | A model is kept exactly when it was there under another name |
| `ConfigStore.EditExactly` | backend/internal/httpapi/admin_global_config_handler.go:376-403 | An edit is accepted with a result if and only if that is what the operation makes of the config: the settings stripped, and the model appended last, replaced in place by its merge, or taken out with the others in order; for a put, the submitted config with distinct non-empty names |
| `ConfigStore.PreparedExactly` | backend/internal/httpapi/admin_global_config_handler.go:347-373 | A handler gets to its write if and only if the named version is the one read (0 for an absent config, none for a put), no tenant uses the model it deletes and the edit of the config read (YAML if absent) is accepted |
| `ConfigStore.WriteExactly` | backend/internal/httpapi/admin_global_config_handler.go:420-424 | A write is accepted if and only if the version it names is current; it is then stored under the next version, otherwise nothing changes |
| `ConfigStore.EditEffect` | backend/internal/httpapi/admin_global_config_handler.go:388-403 | A create, patch or delete changes the model it names and no other; the named one is then the created one, the merged one, or gone |
| `ConfigStore.EditKeepsUnique` | backend/internal/httpapi/admin_global_config_handler.go:744-749 | No edit makes two models share a name |
| `ConfigStore.NoLostUpdate` | backend/internal/httpapi/admin_global_config_handler.go:347-420 | Over every interleaving of create, patch, delete and put, each committed config is what that operation makes of its immediate predecessor, settings and model order included |
| `ConfigStore.CommitExactly` | backend/internal/httpapi/admin_global_config_handler.go:368-420 | The write of a create, patch or delete is accepted if and only if nobody commits between its read and its write; it is then the next commit, and otherwise the store does not change |
| `ConfigStore.NamesStayUnique` | backend/internal/httpapi/admin_global_config_handler.go:718-792 | Names stay unique in every committed config if they were at the start |
| `TenantCache.Cache.constructor` | backend/internal/config/tenant_cache.go:22-27 | An empty cache with the given time to live |
| `TenantCache.Cache.Get` | backend/internal/config/tenant_cache.go:31-46 | A hit is exactly a live entry (no older than the time to live), with its config and version |
| `TenantCache.Cache.Set` | backend/internal/config/tenant_cache.go:49-58 | The fill of the protocol: the tenant finds the new entry until it expires, other tenants what they found before |
| `TenantCache.Cache.Invalidate` | backend/internal/config/tenant_cache.go:61-66 | The removal of the protocol: the tenant finds nothing, other tenants what they found before |
| `TenantCache.Cache.Clear` | backend/internal/config/tenant_cache.go:69-74 | No tenant finds anything |
| `TenantCache.BoundedStaleness` | backend/internal/config/config.go:1100-1144 | Over every interleaving of lookups, database reads, fills, writes and invalidations of any tenants on any number of pods, a hit at t returns a config of its tenant that was stored at some time in [t - ttl - d, t], with d the longest gap between a database read and its Set |
| `TenantCache.HitExactly` | backend/internal/config/tenant_cache.go:31-66 | In every run a lookup hits if and only if the last step that touched the place of the tenant in that pod was a fill no longer than the time to live ago; it returns the version that fill had read |
| `TenantCache.ReadYourWrites` | backend/internal/httpapi/admin_config_handlers.go:134-158 | When one pod serves a tenant, after a write whose invalidation no resolve straddles, every later resolve that returns a stored config returns that write or a later one |
| `TenantCache.OldReadExactly` | backend/internal/config/config.go:1100-1144 | On one pod, a resolve after the invalidation can return a config older than the write if and only if a resolve that read the database before the write is still out as the invalidation runs; with a time to live that is not negative the same holds of lookups that start after the invalidation and hit the cache |
| `TenantCache.StraddleReturnsOld` | backend/internal/config/config.go:1115-1131 | A straddling resolve puts the old config back, and the next lookup on its pod returns it |
| `TenantCache.StraddleReachable` | backend/internal/config/config.go:1115-1131 | A run that reaches such a straddle |
| `FallbackLoop.RunHooks` | backend/internal/httpapi/orchestrator_run.go:516-626 | The hook loop gives the candidate list left by the hooks, or a rejection |
| `FallbackLoop.RejectedExactly` | backend/internal/httpapi/orchestrator_run.go:516-622 | The request is rejected if and only if some hook blocks, fails, or asks for a PII reroute that is not configured or names an unknown model |
| `FallbackLoop.HooksPII` | backend/internal/httpapi/orchestrator_run.go:607-623 | If the request goes on after an AllowPII anywhere among the hooks, the candidates are the PII model alone |
| `FallbackLoop.HooksNoPII` | backend/internal/httpapi/orchestrator_run.go:516-626 | Without an AllowPII the hooks leave the routed candidates |
| `FallbackLoop.DegradeFilter` | backend/internal/httpapi/orchestrator_run.go:642-659 | The filter loop computes the degraded list |
| `FallbackLoop.DegradeExactly` | backend/internal/httpapi/orchestrator_run.go:642-659 | Exactly the candidates in the group remain if there are any, else the list is unchanged |
| `FallbackLoop.DegradeOrder` | backend/internal/httpapi/orchestrator_run.go:642-659 | Degrading keeps the order |
| `FallbackLoop.PIISticks` | backend/internal/httpapi/orchestrator_run.go:607-659 | The degrade filter cannot undo a PII reroute |
| `FallbackLoop.Attempt` | backend/internal/httpapi/orchestrator_run.go:826-1153 | One iteration makes exactly the breaker and upstream calls of the specification and returns exactly when it says |
| `FallbackLoop.Attempts` | backend/internal/httpapi/orchestrator_run.go:824-1153 | The loop's trace is the specified one, calls only planned candidates at growing places below the limit, and leaves no granted Allow unmatched unless streaming skips the report |
| `FallbackLoop.LoopPairing` | backend/internal/httpapi/orchestrator_run.go:902-1153 | Each granted Allow is followed by its call and each call by its one Report with the same key, probe flag and outcome, except, with streaming, exactly the calls that ended unsupported or in an error that is no breaker failure |
| `FallbackLoop.TracePaired` | backend/internal/httpapi/orchestrator_run.go:902-1153 | The same per action, from any attempt on: no stray report, no granted Allow without a call, no call without its report but on the two exits |
| `FallbackLoop.UnreportedProbe` | backend/internal/httpapi/orchestrator_run.go:934-941 | A streamed request to a provider without streaming takes a probe and never reports it |
| `FallbackLoop.ReportFor` | backend/internal/httpapi/orchestrator_run.go:931-1014 | No report exactly on those two streaming exits; otherwise the outcome the breaker should hear |
| `FallbackLoop.LastCallDecides` | backend/internal/httpapi/orchestrator_run.go:936-1153 | The loop goes on to another call only after a retryable error, or an unsupported call without streaming |
| `FallbackLoop.CallsPick` | backend/internal/httpapi/orchestrator_run.go:824-826 | The models called are places of the candidate list, strictly increasing and no more than the limit |
| `FallbackLoop.CalledExactly` | backend/internal/httpapi/orchestrator_run.go:824-913 | A candidate below the limit is called if and only if it is usable, the breaker admits it, and every earlier one was unknown, without a provider, denied, or answered with a timeout, a 429, a 5xx, a network or unknown error, or unsupported without streaming |
| `FallbackLoop.TriedExactly` | backend/internal/httpapi/orchestrator_run.go:675-682 | The same under the fallback setting of the tenant: only the first candidate without fallback, the first max_attempts with a positive maximum, otherwise all |
| `FallbackLoop.AskedExactly` | backend/internal/httpapi/orchestrator_run.go:902-913 | The breaker is asked for each usable candidate the loop gets to, in order, under provider:tenant, and nothing else is asked |
| `FallbackLoop.Narrowing` | backend/internal/httpapi/orchestrator_run.go:642-826 | Without a PII reroute the models called are, in order, at most limit of the routed candidates, all in the degrade group whenever some routed candidate is |
| `FallbackLoop.OwnIDExactly` | backend/internal/httpapi/orchestrator_run.go:878-882 | A request carries its candidate's own provider model id if and only if the candidate has one or no earlier candidate set one |
| `FallbackLoop.CarriedExactly` | backend/internal/httpapi/orchestrator_run.go:878-882 | The id a request carries is that of the last candidate so far that set one |
| `FallbackLoop.ForeignID` | backend/internal/httpapi/orchestrator_run.go:878-882 | After a timeout of the first candidate the request for the second, which has no id, carries the first one's |
| `FallbackLoop.Orchestrate` | backend/internal/httpapi/orchestrator_run.go:516-1153 | Hooks, budget, degrade filter, limit, semantic cache and loop together: no call after a rejection, a budget block or a cache hit, otherwise the loop; after an AllowPII every upstream call is to the PII model; without fallback at most one call, with a positive attempt setting at most that many |
| `GatewayRuns.AlwaysHeld` | backend/internal/httpapi/orchestrator_run.go:902-1153 | With any number of requests running their loops against the breaker, tickets are held apart, and a request between its grant and its report holds an outstanding one with its probe flag |
| `GatewayRuns.ReportsFindTickets` | backend/internal/httpapi/orchestrator_run.go:902-1153 | Whenever a request is about to report, it holds an outstanding ticket with the probe flag it passes |
| `GatewayRuns.AlwaysNoLeak` | backend/internal/httpapi/orchestrator_run.go:1016-1153 | Without streaming every outstanding ticket is held by a request that still reports it |
| `GatewayRuns.NeverStuck` | backend/internal/circuitbreaker/breaker.go:15-17 | Without streaming, once all requests are done no ticket is out and a breaker with a positive probe limit admits the next request unless its cooldown runs |
| `GatewayRuns.LostProbesBlock` | backend/internal/httpapi/orchestrator_run.go:934-947 | Once the counter is full and no request in progress will report, no request is ever granted again, whatever arrives |
| `GatewayRuns.StreamingExitBlocks` | backend/internal/httpapi/orchestrator_run.go:934-947 | A streaming request that holds the only ticket out, fills the counter and ends on an unreported exit blocks the provider: no request is granted after it |
| `GatewayRuns.LoneStreamReachable` | backend/internal/httpapi/orchestrator_run.go:934-941 | A run from the empty gateway that reaches such a request |
| `Calibration.Partition` | backend/internal/httpapi/anchor_calibrate_handler.go:173-176 | True positives, false positives and false negatives add up to the items |
| `Calibration.CountsExactly` | backend/internal/httpapi/anchor_calibrate_handler.go:183-193 | The counts are the numbers of items matched with the right route, matched with a wrong one, and not matched |
| `Calibration.FiguresExactly` | backend/internal/httpapi/anchor_calibrate_handler.go:194-201 | Precision is the share of correct matches among all matches, 1 without any; recall their share among correct matches and unmatched items, 0 without any |
| `Calibration.F1Closed` | backend/internal/httpapi/anchor_calibrate_handler.go:194-205 | F1 is 2 TP / (n + TP) |
| `Calibration.TPAntitone` | backend/internal/httpapi/anchor_calibrate_handler.go:183-193 | True positives cannot rise with the threshold |
| `Calibration.F1Antitone` | backend/internal/httpapi/anchor_calibrate_handler.go:180-209 | F1 cannot rise with the threshold, and stays the same exactly while no true positive is lost |
| `Calibration.Confusion` | backend/internal/httpapi/anchor_calibrate_handler.go:182-193 | The inner loop counts the confusion matrix |
| `Calibration.SweepThresholds` | backend/internal/httpapi/anchor_calibrate_handler.go:177-214 | The sweep returns the largest of 0.00 to 1.00 that keeps as many correct matches as threshold 0, with its precision and recall as shares of counted items and F1 as 2 TP / (n + TP) |
| `Monetization.IndexByName` | backend/internal/httpapi/effective_cost.go:45-48 | The config map, a later entry of a name winning |
| `Monetization.ByNameHas` | backend/internal/httpapi/effective_cost.go:45-48 | A model is configured if and only if some entry has its name |
| `Monetization.ByNameLast` | backend/internal/httpapi/effective_cost.go:45-48 | The config of a model is the last entry of its name |
| `Monetization.RowExactly` | backend/internal/httpapi/effective_cost.go:56-72 | A row costs its spend plus, for a used model with infrastructure cost, that cost times its share of the requests; its price times 100 is its cost times 100 plus markup |
| `Monetization.SingleRow` | backend/internal/httpapi/effective_cost.go:53-73 | A breakdown of one row has that row's requests, cost and price |
| `Monetization.UniformMarkup` | backend/internal/httpapi/effective_cost.go:71-72 | With one markup for all models in it, a breakdown is priced at its cost plus that markup |
| `Monetization.RowCharge` | backend/internal/httpapi/effective_cost.go:57-69 | Effective cost and markup of one row, a missing config counting as zero |
| `Monetization.Accumulate` | backend/internal/httpapi/effective_cost.go:50-73 | Totals of requests, cost and price over the breakdown |
| `Monetization.ComputeMonetization` | backend/internal/httpapi/effective_cost.go:36-94 | All seven figures of the breakdown, zero when it is empty or has no requests |
| `Monetization.CostByModel` | backend/internal/httpapi/effective_cost.go:53-73 | Total cost is total spend plus each model's per-request rate times its requests |
| `Monetization.AllocatedIsInfra` | backend/internal/httpapi/effective_cost.go:61-67 | When request counts add up to the tenant's, each used model's monthly infrastructure cost is allocated exactly |
| `Monetization.ChargedIsTotal` | backend/internal/httpapi/effective_cost.go:75-77 | The charges of the identities plus what is dropped for identities without requests are the total cost of all rows |
| `Monetization.Conservation` | backend/internal/httpapi/effective_cost.go:36-94 | Charges plus what is dropped for request-less identities are exactly total spend plus the monthly infrastructure cost of each used model |
| `Monetization.NothingDropped` | backend/internal/httpapi/effective_cost.go:75-77 | Nothing is dropped when every identity has requests |
| `Monetization.DroppedExactly` | backend/internal/httpapi/effective_cost.go:75-77 | With non-negative spend and requests nothing is dropped if and only if no identity has spend without a request |
| `Monetization.ConservationExactly` | backend/internal/httpapi/effective_cost.go:36-94 | With non-negative spend and requests the charges alone are total spend plus infrastructure cost if and only if no identity has spend without a request |
| `Monetization.SpendWithoutRequest` | backend/internal/httpapi/effective_cost.go:75-77 | One identity with spend and no request, for which the charges fall short |
| `Monetization.Additive` | backend/internal/httpapi/effective_cost.go:36-94 | Requests, cost, price and margin add up over concatenated breakdowns that have requests |
| `Monetization.FiguresAgree` | backend/internal/httpapi/effective_cost.go:79-93 | Averages times requests are the totals, margin is price minus cost, and margin share times price is the margin |
| `Monetization.MarginBounds` | backend/internal/httpapi/effective_cost.go:79-83 | With non-negative spend, requests and markup the margin is non-negative and its share is in [0, 1) |
| `RateLimiter.Limiter.constructor` | backend/internal/httpapi/admin_pii_connection.go:25-27 | A limiter that has seen no call |
| `RateLimiter.Limiter.Allow` | backend/internal/httpapi/admin_pii_connection.go:30-49 | The answer and the rewritten list of the tenant, with no other tenant touched |
| `RateLimiter.LogIsExact` | backend/internal/httpapi/admin_pii_connection.go:36-42 | Whatever the limiter dropped no longer matters: stored list and accepted history have the same entries younger than a minute |
| `RateLimiter.RefusedExactly` | backend/internal/httpapi/admin_pii_connection.go:43-46 | A call is refused if and only if five calls of the tenant were accepted in the minute before it |
| `RateLimiter.MinuteBound` | backend/internal/httpapi/admin_pii_connection.go:14-17 | No minute (x - 60 s, x], wherever it lies, holds more than five accepted calls of a tenant |
| `RateLimiter.LogIsShort` | backend/internal/httpapi/admin_pii_connection.go:43-48 | A stored list never exceeds five entries |
| `RateLimiter.TenantsIndependent` | backend/internal/httpapi/admin_pii_connection.go:35-48 | A tenant's list and accepted calls are those of a run of its own calls alone |
| `BenchmarkRunner.StepValid` | backend/internal/benchmarking/runner.go:53-68 | Every step of every goroutine keeps the channel and worker accounts |
| `BenchmarkRunner.ConcurrencyBound` | backend/internal/benchmarking/runner.go:45-63 | On every schedule at most max_concurrency benchmarks, or 2 if that is not positive, are in flight |
| `BenchmarkRunner.PeakReached` | backend/internal/benchmarking/runner.go:53-63 | Every number of benchmarks up to that bound and the number of models is in flight on some schedule |
| `BenchmarkRunner.Progress` | backend/internal/benchmarking/runner.go:53-68 | Until the round has returned some goroutine can move |
| `BenchmarkRunner.ReturnsAfterExactly` | backend/internal/benchmarking/runner.go:36-71 | No schedule is longer than seven steps per model, and it has returned exactly when it has that length |
| `BenchmarkRunner.BenchmarkedOnce` | backend/internal/benchmarking/runner.go:65-68 | When the round returns every eligible model has been benchmarked exactly once, all goroutines are gone and both channels are empty |

## Left out

- Redis errors, timeouts, fail-open handling, a disabled breaker and unknown text in the state field: calls into a service with no algorithmic content.
- Several providers or tenants in one breaker run: keys are disjoint, so a run of one key is the general case.
- Breaker windows of negative length and a bucket size of zero, on which the caller divides by zero.
- GatewayRuns.LostProbesBlock: one direction; which requests in progress free the counter depends on the outcomes in their traces. `BreakerRuns.BlockedExactly` has both directions for outcomes left open.
- KMeansCluster.Run: embeddings of different lengths are not covered, because the code indexes them by the first item's dimension.
- SseAgreement.StandardExactly: streams with other fields, comments, CR line ends or events without a data line are read by the standard's rules here, but not compared with the gateway.
- SseFraming.EncodeRoundTrip: white space is the ASCII set only, not the Unicode spaces that Go's TrimSpace also strips.
- Failing downstream writes, flushing, headers and the fixed fields and JSON text of emitted events.
- ConfigStore.NoLostUpdate: the global merge-patch, apply-version and rollback paths are not part of it; their checks live in the storage layer, which is not part of this model. Deleting from an empty model list, which makes Go panic on a negative capacity, is a failed edit here.
- TenantCache.ReadYourWrites: resolves that fall back to the YAML config (dynamic config off, database error, no row) are events of the runs but not covered by it; a stored config that does not parse is left out.
- FallbackLoop.Attempt: request rewriting by hooks, token caps, timeouts, budget reservations and the router's scoring are left out.
- FallbackLoop.Orchestrate: how the budget decides and how the semantic cache finds a response are left out; their answers are parameters.
- Circuit-breaker answers inside `FallbackLoop` are arbitrary, so its results hold for every breaker; `GatewayRuns` ties them to the modelled one, for the requests on one key.
- Monetization: integer overflow and rounding.
- BenchmarkRunner.BenchmarkedOnce: which models are eligible and what one benchmark measures are left out; a panic inside a benchmark is not modelled.
- Authentication, encryption, PII and injection hooks, catalog, reporting and health handlers, storage, provider adapters and the frontend: plumbing that would only add easy members.
