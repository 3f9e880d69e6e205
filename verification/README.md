# Verified model of the nano-rs runtime core

nano-rs runs JavaScript handlers of several tenants in V8 isolates behind one HTTP server. Under the V8
glue sit small state machines, shared structures and printers; this project models them in Dafny and
proves what they promise, on every input and over every run.

- **Timers** (`TimerQueues`, `TimerSelections`, `IntervalProperties`, `TimeoutProperties`, `TimerRuns`,
  `TimerTimes`, `Timers`). The two thread-local queues of setTimeout and setInterval. A callback is an arbitrary list of
  set, clear and wait commands with a flag telling whether the call returned a value, so it may re-enter
  the queue that is being pumped. The class `TimerThread` has the fields and loops of the source; its
  methods are proved equal to functions on values, and the properties are proved of those.
- **WebSocket relay** (`WsRelay`). Worker, pump thread, relay loop and socket as one step machine with two
  bounded channels and all the early exits of the loop.
- **Printers and their readers**: Base64 (`Base64`), JSON escaping and the request serializer (`Escaping`,
  `Json`, `Headers`, `HeaderTexts`, `V8Bridge`), Prometheus labels (`Labels`), configuration templates (`Template`, `Variables`), query
  strings (`QueryText`, `QueryWeights`, `SearchParams`). The readers are independent definitions; the round trips say
  exactly for which inputs printing loses nothing.
- **Metrics** (`Ranks`, `Histograms`, `Tenants`, `MetricVecs`, `MetricProgress`). Histograms against the rank function, and the
  double-checked insertion of the label-indexed metrics under every interleaving of threads.
- **Coordination**: request drain (`Drain`), tenant batching (`BatchSpec`, `Batches`), code cache
  (`CodeCache`), configuration watcher (`Watcher`).
- **Configuration to tables** (`Hostnames`, `Routing`). Hostname rule, duplicate check, registry, router.
- `Wrappers` and `MapOrders` hold shared small definitions.

Strings are sequences of characters, hash maps are walked in an arbitrary order given as a parameter,
clocks count nanoseconds and never go back, and concurrent steps are sequentially consistent. Fields such
as `log`, `sent`, `removed` or `written` are histories that the source does not have.

## Where code and expectation differ

The model follows the code; these are the places where that matters.

- `clearInterval` of an id that is handed out only afterwards stays recorded until the next pump ends and
  drops that new interval after its first call (`TimerRuns.StaleClearDropsInterval`); what decides is stated
  exactly by `IntervalProperties.PumpRequeuesExactly`.
- A setTimeout callback is queued again exactly when its call returns no value
  (`TimeoutProperties.PumpRequeuesExactly`): the comment names termination, but a thrown exception takes the
  same path, and a callback that clears its own timeout and then fails stays queued
  (`TimeoutProperties.ClearedAndFailedStays`).
- setTimeout ids come from 99 numbers. No `clearTimeout` removes more than one entry exactly when no two
  queued timeouts were registered a multiple of 99 apart (`TimeoutProperties.ClearRemovesOneExactly`). Two
  alive are enough to break this (`TimerRuns.TwoAliveShareAnId`), more than 99 alive always do
  (`TimerRuns.ClearRemovesTwo`).
- `await_complete` can return true while requests are active all along, exactly when the counter had reached
  zero some time before (`Drain.TrueWithoutDrainExactly`, `Drain.SecondRequestIsNotWaitedFor`): permits are given back and pile up.
- A batch that fills up is removed by `flush_batch`, which returns its size only; no caller receives its
  requests. The model keeps them in the history `left`.
- The age assertion of a drain fails exactly when some pending batch is older than twice the maximum wait,
  its age taken modulo 2^32 ms (`BatchSpec.DrainPanicsExactly`); a drain 2^32 ms late neither fails nor
  returns the batch (`BatchSpec.LateAndMuchLater`). No run fails exactly when operations come at most
  max_batch_wait_ms + 1 ms after the last drain, or batches hold one request
  (`BatchSpec.PunctualityExactly`).
- JSON text is emitted without escapes for control characters other than line feed, carriage return and tab;
  it is not JSON exactly when such a character occurs (`V8Bridge.RequestRoundTrip`).
- `to_string` does not escape `&`, `=` or `%`, although `from_query` decodes percent signs: the value `%25`
  reads back as `%` (`QueryWeights.PercentIsLost`). Nothing is lost exactly when no key holds `&` or `=`, no
  value holds `&`, and decoding changes neither (`QueryWeights.RoundTripExactly`).
- The default of `${VAR:-default}` is used when the variable is unset, not when it is empty.
- A write between the two reads of the code cache can leave old code under the new time stamp
  (`CodeCache.DisturbedStampGoesStale`). What counts is the stamp: on every run all stamps are right, that is
  a file whose time stamp is read still has the content that was read, exactly when the run never gets to
  where a call can return code the file never had during it (`CodeCache.StampsRightExactly`).
- The target of the 99th percentile is rounded down, so the bound returned can lie below most observations:
  below the only one, or below one of two (`Histograms.P99OfOneMisses`, `Histograms.P99OfTwoMisses`). At
  least 99 of 100 lie at or below it exactly when the count is a multiple of 100 or no bucket line shows the
  rounded target (`Histograms.P99CoversExactly`).
- The tenant's durations are recorded in seconds, in a histogram whose bounds are milliseconds: the
  percentile is 1 exactly when enough requests took up to a whole second (`Tenants.ReportsOneExactly`), and
  it is the one of the durations exactly when enough took up to 1 ms or too few up to 1000 s
  (`Tenants.P99InMillisecondsExactly`; `Tenants.HalfASecondReportsOne` is a case where it is not).
- The tenant's total of CPU seconds is exact only when every request took whole seconds
  (`Tenants.CpuSecondsExactly`).
- The watcher's stored modification time is that of the read which last changed the checksum, not of the
  last read (`Watcher.TimeOfLastChange`).

## Model

| member | source | states |
|---|---|---|
| TimerSelections.DrainTally | src/runtime/apis.rs:62-74 | draining loses and duplicates no entry |
| TimerSelections.DrainMembers | src/runtime/apis.rs:62-74 | the drained entries are exactly the due ones, the others stay |
| TimerSelections.DrainKeepsOrder | src/runtime/apis.rs:62-74 | both halves of the in-place drain keep the queue's order |
| TimerSelections.RemovalMembers | src/runtime/apis.rs:3205-3207 | `retain` removes exactly the entries with the id |
| IntervalProperties.ScriptKeepsInv | src/runtime/apis.rs:3155-3233 | set and clear commands from anywhere, also in mid-pump, keep the interval invariant: entries match their registration, none is queued or drained twice, the record of clears is exact, no cleared one is queued |
| IntervalProperties.PumpKeepsInv | src/runtime/apis.rs:59-90 | a pump keeps that invariant whatever its callbacks do, so no interval cleared since its registration is queued after it |
| IntervalProperties.PumpCallsExactlyTheDue | src/runtime/apis.rs:59-90 | one pump calls each entry due at its start once, in queue order, and nothing registered during the pump |
| IntervalProperties.PumpRequeuesExactly | src/runtime/apis.rs:76-89 | a due interval is queued again, once, if and only if its id was not passed to clearInterval since the previous pump ended; one not due stays if and only if not cleared since it was set |
| TimeoutProperties.ScriptKeepsInv | src/runtime/apis.rs:3113-3209 | set and clear commands keep every timeout in exactly one of queued, in flight, called with success, removed |
| TimeoutProperties.PumpCallsTheDueAndKeepsTheFailed | src/runtime/apis.rs:104-130 | a pump calls each due entry once in order and nothing else; an entry whose call returned nothing is queued afterwards |
| TimeoutProperties.PumpRequeuesExactly | src/runtime/apis.rs:104-130 | after a pump a due timeout is queued if and only if its call returned no value, one that was not due if and only if no callback cleared its id; either at most once |
| TimeoutProperties.ClearedAndFailedStays | src/runtime/apis.rs:120-129 | a due timeout that clears itself and fails is queued again |
| TimeoutProperties.SharedId | src/runtime/apis.rs:3138-3143 | two timeouts have the same id exactly when their registrations are a multiple of 99 apart |
| TimeoutProperties.ClearRemovesOneExactly | src/runtime/apis.rs:3197-3209 | no clearTimeout removes more than one entry if and only if no two queued timeouts were registered a multiple of 99 apart |
| TimeoutProperties.ClearRemovesAtMostOne | src/runtime/apis.rs:3197-3209 | in particular, while the oldest queued one is among the last 99 registrations |
| TimeoutProperties.MoreThanIdsCollide | src/runtime/apis.rs:3138-3143 | with more timeouts queued than ids some clearTimeout removes two or more |
| TimerRuns.RunKeepsInv | src/runtime/apis.rs:59-137 | both invariants hold after every run of scripts, pumps and request starts |
| TimerRuns.TimeoutFates | src/runtime/apis.rs:104-137 | over every run each registration is queued, called once with success, or removed, exactly one of the three; no call starts before 1000000 ns for each millisecond of its delay have passed |
| TimerRuns.IntervalDiscipline | src/runtime/apis.rs:59-98 | over every run calls of one interval are at least its period apart, 1000000 ns for each millisecond, and no cleared interval is queued |
| TimerRuns.IntervalIdsShared | src/runtime/apis.rs:3178-3182 | after every run two queued intervals share an id if and only if they were registered a multiple of 2^32 apart |
| TimerRuns.IntervalIdsDiffer | src/runtime/apis.rs:3178-3182 | in particular an id names one queued interval while at most 2^32 were set in a request |
| TimerRuns.StaleClearDropsInterval | src/runtime/apis.rs:3212-3233 | a clear recorded before its id is handed out drops the new interval after one call |
| TimerRuns.ClearRemovesTwo | src/runtime/apis.rs:3197-3209 | on every run with more than 99 timeouts alive one clearTimeout removes two or more |
| TimerRuns.TwoAliveShareAnId | src/runtime/apis.rs:3138-3143 | one timeout that stays, 98 that are set and cleared and one more: two are alive and both have the first id |
| TimerTimes.TimeoutIsSet | src/runtime/apis.rs:3135-3149 | a registration comes last in the queue with the next id and is drained by a pump at p if and only if its delay has passed |
| TimerTimes.TimeoutDueExactly | src/runtime/apis.rs:107-119 | on every run a queued timeout is drained at p if and only if its delay has passed since it was set |
| TimerTimes.IntervalIsSet | src/runtime/apis.rs:3178-3191 | a registration comes last in the queue with the next id and is drained at p if and only if its period has passed |
| TimerTimes.IntervalIsCleared | src/runtime/apis.rs:3212-3233 | the id leaves the queue, nothing else does, and it is remembered |
| TimerTimes.IntervalDueExactly | src/runtime/apis.rs:62-85 | on every run a queued interval is drained at p if and only if its period has passed since it was set or its last call returned |
| TimerTimes.IntervalCallTimes | src/runtime/apis.rs:76-87 | one call starts after its lag, runs all its commands and comes back, unless cleared, last in the queue, due its period after the return |
| TimerTimes.PumpCallTimes | src/runtime/apis.rs:121-128 | the k-th timeout of a pump is called when the callbacks before it have returned |
| TimerTimes.PumpsPass | src/runtime/apis.rs:59-130 | in both pumps the time of all callbacks passes and everything they set is registered |
| TimerTimes.FailedComeLast | src/runtime/apis.rs:120-129 | entries whose calls returned no value come last in the queue, in their order |
| TimerTimes.PumpForgetsClears | src/runtime/apis.rs:89 | no clear is remembered after a pump |
| TimerTimes.RequestStartsClean | src/runtime/apis.rs:94-137 | after a request boundary both queues are empty, no clear is remembered, and the next ids are 1 and 100 |
| Timers.TimerThread.SetTimeoutCallback | src/runtime/apis.rs:3113-3152 | registers with the next of the ids 1 to 99 and the deadline now + delay; the whole new state |
| Timers.TimerThread.SetIntervalCallback | src/runtime/apis.rs:3155-3194 | registers with the next id modulo 2^32; the whole new state |
| Timers.TimerThread.ClearTimeoutCallback | src/runtime/apis.rs:3197-3209 | removes the entries with the id; the whole new state |
| Timers.TimerThread.ClearIntervalCallback | src/runtime/apis.rs:3212-3233 | removes the entries with the id and records it once; the whole new state |
| Timers.TimerThread.DrainDueIntervals | src/runtime/apis.rs:62-74 | the index loop with `remove(i)` computes the partition into due and later entries |
| Timers.TimerThread.FirePendingIntervals | src/runtime/apis.rs:59-90 | drain, call and re-insert as the pump of the specification, which the lemmas above are about |
| Timers.TimerThread.DrainDueTimeouts | src/runtime/apis.rs:107-119 | the same for timeouts |
| Timers.TimerThread.FirePendingTimeouts | src/runtime/apis.rs:104-130 | drain, call, re-queue the failed ones as the pump of the specification |
| Timers.TimerThread.ClearPendingIntervals | src/runtime/apis.rs:94-98 | empties the queue and the record and restarts ids at 100 |
| Timers.TimerThread.ClearPendingTimeouts | src/runtime/apis.rs:133-137 | empties the queue and restarts ids at 1 |
| Timers.TimerThread.BeginRequest | src/worker/pool.rs:543-544 | both queues start over when a request begins |
| WsRelay.OutboundDelivery | src/http/router.rs:1162-1241 | in every interleaving the messages written are the conversions, in order, of a prefix of what the worker sent; at most 128+1+128 lie between the two; if the outbound side closed, all were written |
| WsRelay.InboundDelivery | src/http/router.rs:1182-1239 | what the worker takes is a gap-free prefix of the Text, Binary and Close frames received, none above 32 MiB |
| WsRelay.RefusalReason | src/http/router.rs:1190-1230 | the frame that ended the relay is the only one not passed on; it was too large exactly when the relay gave up for size |
| WsRelay.RefusedExactly | src/http/router.rs:1187-1221 | in every interleaving the relay gives up for size, for backpressure, or for a gone worker, if and only if a frame above 32 MiB, a legal data frame with 128 messages waiting for a receiving worker, or a legal data frame for a worker that dropped its receiver arrived |
| WsRelay.RefusalCode | src/http/router.rs:1193-1218 | size goes with code 1009, backpressure with 1008 |
| WsRelay.RefusalEnds | src/http/router.rs:1192-1220 | a refusal ends the relay with its close frame, code and text, or without if that write fails |
| WsRelay.EndsExactly | src/http/router.rs:1225-1238 | on every run the relay has ended because the socket ended, the socket failed, a write failed or the outbound side closed if and only if that happened |
| WsRelay.FinishedForGood | src/http/router.rs:1180-1241 | once the relay has finished it takes, writes and receives nothing any more |
| WsRelay.PumpGivesUp | src/http/router.rs:1169-1175 | then the pump thread with a message in hand ends, and the worker cannot send |
| WsRelay.NothingElseIsRuledOut | src/http/router.rs:1180-1238 | which events can come in which state of the relay |
| WsRelay.Echo | src/http/router.rs:1162-1241 | a text of legal size that the worker sends back is written as it came, in some run |
| WsRelay.BoundIsReached | src/http/router.rs:1111-1112 | 257 messages can lie between the worker and the relay |
| WsRelay.NeverStuck | src/http/router.rs:1169-1175 | once the worker has stopped sending, some draining step is always possible: the bounded channels do not block each other |
| WsRelay.DrainingAdvances | src/http/router.rs:1167-1241 | every draining step lowers a measure or ends the relay |
| WsRelay.DrainingFinishes | src/http/router.rs:1167-1241 | every schedule of draining steps is bounded and ends with every message sent written |
| WsRelay.ConversionsRoundTrip | src/http/router.rs:1244-1274 | Text, Binary and Close survive both conversions; only Ping and Pong are dropped |
| WsRelay.KindsAreKept | src/http/router.rs:1259-1274 | what the worker sends arrives as the same kind with the same content, a raw frame as a close |
| Base64.Base64Encode | src/http/v8_bridge.rs:156-191 | the chunk loop and the remainder compute the encoding the round trips are about |
| Base64.WordSextets | src/http/v8_bridge.rs:165-169 | the four table indices are the 6-bit groups of three bytes |
| Base64.DecodeEncode | src/http/v8_bridge.rs:156-191 | decoding (section 4 of RFC 4648) returns the input, for every byte string |
| Base64.EncodeDecode | src/runtime/request.rs:308-312 | every text the decoder accepts is the encoding of what it decodes to |
| Base64.EncodeInjective | src/http/v8_bridge.rs:156-191 | different bytes print differently |
| Base64.EncodeShape | src/http/v8_bridge.rs:159-191 | length is 4*((n+2)/3), the reserved capacity; symbols first, padding only at the end |
| Escaping.ChainIsOnePass | src/http/v8_bridge.rs:145-151 | successive whole-string replaces equal a one-pass escape when no replacement text is touched by a later rule |
| Json.EscapeIsOnePass | src/http/v8_bridge.rs:145-151 | the five replaces are that one-pass escape |
| Json.CharsRoundTrip | src/http/v8_bridge.rs:145-151 | JSON unescaping (section 7 of RFC 8259) inverts it exactly on strings without other control characters, and rejects the rest |
| Json.RoundTrip | src/http/v8_bridge.rs:39-81 | a JSON reader accepts a printed value exactly when its strings are such, and returns it |
| V8Bridge.SerializeRequestToJson | src/http/v8_bridge.rs:39-81 | the pushes with the `first` flag, under any header order, print one JSON value |
| V8Bridge.RequestRoundTrip | src/http/v8_bridge.rs:39-81 | reading the text recovers method, URL, all header pairs and the body bytes, exactly when no other control character occurs |
| V8Bridge.PairsAreTheHeaders | src/http/headers.rs:182-195 | in any map order the pairs have distinct names, no more and no less than the headers, and carry the first cookie or all values with a comma and a space between them |
| HeaderTexts.ValuesAreRecovered | src/http/headers.rs:182-195 | values without commas are recovered from that text by splitting at the commas |
| Headers.NanoHeaders.Set | src/http/headers.rs:134-138 | one value under the lower-case name, the others unchanged |
| Headers.NanoHeaders.Append | src/http/headers.rs:151-156 | one more value under the lower-case name, last |
| Headers.NanoHeaders.Delete | src/http/headers.rs:167-169 | removes the lower-case name only |
| Headers.NanoHeaders.Get | src/http/headers.rs:80-91 | the first cookie, or all values with a comma and a space between them |
| Labels.FormatLabels | src/metrics/exporter.rs:276-298 | the comma loop prints the zipped pairs |
| Labels.EscapeIsOnePass | src/metrics/exporter.rs:289-292 | the three replaces are a one-pass escape |
| Labels.BucketLabels | src/metrics/exporter.rs:225-242 | splicing before the closing brace prints the labels with `le` appended, also when there are none |
| Labels.LabelsRoundTrip | src/metrics/exporter.rs:276-298 | a reader of the text exposition format recovers the pairs if and only if the names are label names, whatever the values |
| Labels.SeriesDiffer | src/metrics/exporter.rs:276-298 | distinct value vectors never print the same series |
| Template.SubstituteEnvVars | src/config/loader.rs:132-155 | the loop over the shared stream computes the expander the grammar results are about |
| Template.ParseVarRef | src/config/loader.rs:160-207 | returns the reference at the head of the stream and leaves exactly the rest unread, or the error |
| Template.GrammarExpands | src/config/loader.rs:132-207 | a text of literals and references expands to the literals and the looked-up, default or empty values in order; values are not expanded again |
| Template.ExpandedIsGrammar | src/config/loader.rs:132-207 | every text that expands is such a text |
| Template.SucceedsOnGrammar | src/config/loader.rs:132-207 | an error occurs exactly when some `${` is malformed in the grammar |
| Variables.PlainReference | src/config/loader.rs:143-150 | anywhere in a text `${name}` is the variable if set, nothing otherwise, and what follows is expanded on its own |
| Variables.ReferenceWithDefault | src/config/loader.rs:143-150 | anywhere in a text `${name:-d}` is the variable if set, even to nothing, and `d` otherwise |
| Variables.TextAlone | src/config/loader.rs:149-151 | a text without references stays as it is |
| Variables.MistakesExactly | src/config/loader.rs:160-207 | the four mistakes after `${` each give their own error |
| QueryText.RoundTrip | src/http/url.rs:154-169 | parsing what was printed gives the same parameters with the order of values, under any map order |
| QueryWeights.RoundTripExactly | src/http/url.rs:262-270 | this holds if and only if no key holds `&` or `=`, no value holds `&` and decoding changes no key and no value, for every decoding that shortens what it changes |
| QueryWeights.ParsedWeight | src/http/url.rs:154-169 | parsing never adds weight, and text that keeps its whole weight reads as clean parameters |
| QueryWeights.PercentIsLost | src/http/url.rs:154-169 | the printed value `%25` reads back as `%` |
| QueryWeights.BarePiecesAreIgnored | src/http/url.rs:157-158 | pieces without `=` change nothing |
| QueryWeights.PairAndBareWord | src/http/url.rs:154-169 | `key=value&word` is the one decoded pair, a bare word is nothing |
| QueryText.RoundTripWithoutPercent | src/http/url.rs:262-270 | without percent signs the condition on `&` and `=` alone decides, for every decoding that leaves such texts alone |
| SearchParams.NanoUrlSearchParams.FromQuery | src/http/url.rs:154-169 | the parse loop computes the parser of the round trip; no key has an empty value list |
| SearchParams.NanoUrlSearchParams.Set | src/http/url.rs:224-227 | one value under the key; reachable maps keep no empty list |
| SearchParams.NanoUrlSearchParams.Append | src/http/url.rs:237-242 | one more value, last |
| SearchParams.NanoUrlSearchParams.Delete | src/http/url.rs:251-253 | removes the key |
| SearchParams.NanoUrlSearchParams.ToString | src/http/url.rs:262-270 | prints the parameters, and parsing gives them back when keys and values allow |
| Ranks.CumulativeIsRank | src/metrics/exporter.rs:219-222 | a running total of bucket counts is the number of observations at or below the bound |
| Ranks.RankCounts | src/metrics/types.rs:198 | a rank is how many observations are at most the limit |
| Ranks.ObserveCounts | src/metrics/types.rs:195-211 | the additions of one observation turn the numbers of the observations so far into those with it, modulo 2^64 |
| Ranks.ScaledSumClose | src/metrics/types.rs:204-206 | truncation loses less than one unit an observation and never adds |
| Histograms.Histogram.Observe | src/metrics/types.rs:195-211 | buckets, sum and count are those of the observations made, modulo 2^64; the whole new state |
| Histograms.Histogram.BucketLines | src/metrics/exporter.rs:219-222 | every `_bucket` line is the rank of its bound, the lines do not decrease, the one for infinity equals `_count` |
| Histograms.Histogram.ReportedSum | src/metrics/types.rs:218-229 | below the true sum by less than n/1000 |
| Histograms.Histogram.DurationP99 | src/metrics/tenant.rs:259-278 | the least bound whose rank reaches 99 % of the count, rounded down; 0 without observations |
| Histograms.P99Covers | src/metrics/tenant.rs:259-278 | that bound covers 99 % of the count rounded down and is least among the bounds; it is one of them when they end with infinity |
| Histograms.P99CoversExactly | src/metrics/tenant.rs:259-278 | at least 99 of 100 observations lie at or below it if and only if the count is a multiple of 100 or no bucket line shows the rounded target |
| Histograms.P99OfOneMisses | src/metrics/tenant.rs:265 | of one slow request none lies at or below the percentile |
| Histograms.P99OfTwoMisses | src/metrics/tenant.rs:265 | of one fast and one slow request one does |
| Tenants.TenantMetrics.RecordRequest | src/metrics/tenant.rs:165-199 | result counters, CPU seconds and memory peak are those of the requests recorded so far with this one, the counters modulo 2^64, and the histograms observe its duration and CPU time in seconds and its memory in bytes |
| Tenants.CountsAreOfResults | src/metrics/tenant.rs:173-178 | each result counter is how many requests had that result |
| Tenants.ResultsAddUp | src/metrics/tenant.rs:172-178 | every request is counted under exactly one result |
| Tenants.CpuSecondsExactly | src/metrics/tenant.rs:180-182 | the total of CPU seconds never exceeds the CPU time and equals it if and only if each request took whole seconds |
| Tenants.PeakIsMost | src/metrics/tenant.rs:189-198 | the peak is the most that any request took |
| Tenants.TenantMetrics.RequestDurationP99 | src/metrics/tenant.rs:259-278 | the percentile of the durations recorded so far |
| Tenants.RecordedRank | src/metrics/tenant.rs:185 | a bound counts the durations up to a thousand times as many milliseconds |
| Tenants.ReportsOneExactly | src/metrics/tenant.rs:259-278 | the percentile is 1 if and only if enough requests took up to 1000 ms |
| Tenants.P99InMillisecondsExactly | src/metrics/tenant.rs:185 | it is the percentile of the durations in milliseconds if and only if enough took up to 1 ms or too few up to 1000000 ms |
| Tenants.HalfASecondReportsOne | src/metrics/tenant.rs:185 | two requests of 500 ms: the percentile is 1, in milliseconds it is 500 |
| Histograms.RequestBucketsAscend | src/metrics/mod.rs:45-56 | the duration buckets ascend and end with infinity |
| MetricVecs.RunLocks | src/metrics/types.rs:277-293 | in every interleaving the write lock excludes every other holder, and an entry being updated exists |
| MetricVecs.RunConserves | src/metrics/types.rs:277-293 | at every moment each stored number plus the atomic additions still owed by running calls equals the total of the calls begun, modulo 2^64 |
| MetricVecs.NoLostUpdate | src/metrics/types.rs:384-402 | when all calls returned, each counter, bucket, sum and count equals the total of its calls |
| MetricVecs.NeverDeadlocked | src/metrics/types.rs:277-293 | on every run, unless all threads are idle, some thread can take its next step |
| MetricProgress.EveryCallReturns | src/metrics/types.rs:277-293 | an idle thread can record any request at any time, and all calls return in a bounded number of steps |
| MetricVecs.RequestsMatchDurations | src/metrics/collector.rs:93-104 | at quiescence requests_total summed over the statuses of a hostname equals its duration count |
| Drain.CounterIsLiveHandles | src/app/drain.rs:98-110 | the counter is the number of live handles in every interleaving and never underflows |
| Drain.NoLostWakeUp | src/app/drain.rs:31-69 | after some request ran, at zero, a waiter can acquire a permit, or one is about to be added or given back |
| Drain.CheckDecides | src/app/drain.rs:52-54 | with nothing active await_complete returns true at once, otherwise it waits |
| Drain.WaiterMoves | src/app/drain.rs:56-68 | a waiter returns true only with a permit, which it gives back, and false only by timing out |
| Drain.TrueWithoutDrainExactly | src/app/drain.rs:50-69 | a true without a drain during the call is possible exactly when the counter had gone to zero before |
| Drain.SecondRequestIsNotWaitedFor | src/app/drain.rs:50-69 | one request comes and goes, a second stays: a waiter that comes then can return true while it runs |
| BatchSpec.Accounting | src/control_plane.rs:548-633 | over every run each accepted request is, once and in arrival order, in a batch of its own tenant that left or pending; full batches have the maximum size, all others 1 to max-1 |
| BatchSpec.Latency | src/control_plane.rs:586-617 | with operations at most a gap after the last drain, the gap up to max_batch_wait_ms + 1 ms, the age assertion never fails and no batch waits max_batch_wait_ms and the gap: twice max_batch_wait_ms for a gap of that length |
| BatchSpec.PunctualityExactly | src/control_plane.rs:593-597 | no run with operations at most a gap after the last drain fails if and only if the gap is at most max_batch_wait_ms + 1 ms or the maximum size is 1 |
| BatchSpec.DrainPanicsExactly | src/control_plane.rs:591-597 | after every run a drain fails if and only if some pending batch is older than twice max_batch_wait_ms, not counting multiples of 2^32 ms |
| BatchSpec.LateDrainPanics | src/control_plane.rs:591-597 | in particular whenever it finds a batch that old and younger than 2^32 ms |
| BatchSpec.LateAndMuchLater | src/control_plane.rs:591-597 | a run that fails, and one whose drain 2^32 ms late neither fails nor returns the batch |
| BatchSpec.DrainTakesExactly | src/control_plane.rs:600-602 | after every run a drain that does not fail takes out exactly the batches that have waited max_batch_wait_ms, up to 2^32 ms |
| BatchSpec.AgesCountFromFirst | src/control_plane.rs:554-557 | after every run the age of a batch counts from the submission of its first request |
| Batches.BatchQueue.AddToBatch | src/control_plane.rs:548-575 | appends to the tenant's batch, flushes it at the maximum and only then; the size assertion never fails |
| Batches.BatchQueue.FlushBatch | src/control_plane.rs:577-584 | removes the tenant's batch and tells its size |
| Batches.BatchQueue.DrainReadyBatches | src/control_plane.rs:586-617 | panics on an overdue batch; otherwise returns each batch that has waited long enough once, with all its requests, at least one, and leaves the others as they are |
| Batches.BatchQueue.DrainAllBatches | src/control_plane.rs:619-633 | returns every pending batch with its first arrival and leaves none |
| CodeCache.StepKeepsInv | src/data_plane.rs:66-110 | one step of any caller, if not a wrong stamp, keeps cache, disk and calls in progress consistent |
| CodeCache.CacheAgreesWithDisk | src/data_plane.rs:66-110 | under concurrent callers, if no stamp was wrong, an entry whose time stamp the disk shows has the content on disk, each call returns a content the file had during it, and with fresh clock readings every entry maps its time stamp to that version's content |
| CodeCache.UndisturbedIsRight | src/data_plane.rs:86-91 | if no write falls between a content read and the time stamp read after it, no stamp is wrong |
| CodeCache.StampsRightExactly | src/data_plane.rs:66-110 | on every run no stamp was wrong if and only if at no moment right stamps alone can lead to a call that returns code the file never had during it |
| CodeCache.StampAgreesExactly | src/data_plane.rs:66-110 | the caller's next call, with no write in between, returns the code just cached; the file had it during that call if and only if it still had the content read when its time stamp was read |
| CodeCache.DisturbedStampGoesStale | src/data_plane.rs:86-91 | a write between the two reads makes a later call return code the file did not have during it |
| Watcher.ConfigWatcher.constructor | src/config/watcher.rs:57-78 | starts from one look at the file |
| Watcher.ConfigWatcher.CheckNow | src/config/watcher.rs:145-203 | the new state and the event of one poll |
| Watcher.EventsFollowTheFile | src/config/watcher.rs:145-203 | over any file history Created and Deleted strictly alternate, Modified comes only between them, and a reader of the events knows whether the file is there |
| Watcher.StoredIsLatestRead | src/config/watcher.rs:145-203 | the stored checksum is the one read last, none if the file was absent since; a poll that reads leaves its checksum stored |
| Watcher.ModifiedExactly | src/config/watcher.rs:183-194 | Modified is reported if and only if the file was there, was read, and its checksum is not the one known |
| Watcher.SilenceMeansUnchanged | src/config/watcher.rs:145-203 | while polls report nothing, everything read has one checksum: no change is missed |
| Watcher.TimeOfLastChange | src/config/watcher.rs:145-203 | the stored modification time is that of the last look that changed the checksum |
| Hostnames.IsValidHostname | src/config/mod.rs:488-521 | the early-exit scan accepts exactly the names of at most 253 bytes that fit RFC 1123 character by character: letters of both cases, digits, hyphens and dots only, and every label of letters and digits |
| Hostnames.LongestIsValid | src/config/mod.rs:493-495 | a name of 253 bytes can be valid |
| Hostnames.LabelsAreTheName | src/config/mod.rs:497-519 | the checks on the split labels equal a condition on single characters, their neighbours and runs of 64 |
| Routing.CollectKeepsTheLast | src/app/registry.rs:37-44 | a collected map holds exactly the keys given, each with its last value |
| Routing.EntriesAndRepeats | src/app/registry.rs:37-44 | entries plus repeated keys are the pairs given; nothing is lost if and only if the keys are distinct |
| Routing.CheckDuplicates | src/config/mod.rs:446-457 | the set loop reports each application whose lower-case name came before, as written, in order |
| Routing.OneErrorPerLostRoute | src/config/mod.rs:446-457 | as many duplicate errors as routes that would be lost; none if and only if the lower-case names are pairwise distinct |
| Routing.DuplicateNames | src/config/mod.rs:446-457 | the k-th duplicate error shows the hostname of the k-th repeating application, as written |
| Routing.RepeatsAreLater | src/config/mod.rs:448-450 | an application repeats if and only if an earlier one has the same lower-case name |
| Routing.ValidateNanoConfig | src/config/mod.rs:432-485 | the whole list of errors in order |
| Routing.ValidExactly | src/config/mod.rs:432-485 | accepted if and only if there are 1 to 1000 applications, distinct in lower case, each fine with a valid hostname, and the server has port and host |
| Routing.ReportedExactly | src/config/mod.rs:435-480 | each error about the number of applications, the port or the host is reported if and only if its cause is there |
| Routing.AppReportedExactly | src/config/mod.rs:459-470 | an error about a hostname is reported if and only if that application has it, with its place and name |
| Routing.VirtualHostRouter.Register | src/http/router.rs:475-483 | maps the lower-case name to the target, replacing an earlier one |
| Routing.BuildRouter | src/http/server.rs:607-766 | the router the server starts with holds the route table of the configuration and resolves every host by it |
| Routing.ValidConfigLosesNothing | src/http/router.rs:512-515 | after validation the registry has one entry per application and returns it; every casing of a hostname resolves to its application, every other host to the default |

## Left out

- V8 bindings, promises, crypto, Buffer, URL and Headers objects: foreign calls; a timer callback is a list of commands and a flag, and the function handle is the registration number.
- Arguments of the timer callbacks that are not functions or numbers, and the truncation of ids and delays to machine integers.
- Overflow of deadlines (`Instant` plus a 64-bit number of milliseconds): deadlines are unbounded.
- HTTP server, listeners, admin interface, logging, command line and file access: input and output.
- serialize_response_to_json: the same printer over a status number, a status text, headers and body, so the same proof again.
- Base64.Base64Encode: shifts and masks of the 24-bit word are written as division and remainder by powers of two.
- Json.RoundTrip: the reader takes one `\u` escape as one UTF-16 unit and does not join surrogate pairs, which the printer never emits; numbers and arrays, which it never emits either, are not read.
- Headers.NanoHeaders.Set: lower-casing is any function; `from_axum_headers` and `to_axum_headers` convert library types and are not modelled.
- QueryText.RoundTrip: percent-decoding with lossy UTF-8 is a parameter; QueryWeights.RoundTripExactly asks of it only that it shortens every text it changes, as it does: each escape has three characters and gives at most one.
- Labels.BucketLabels: `{:.3}` formatting of a bound is a text of digits, dot and sign, or `+Inf` (`Labels.BoundPlain` shows that it needs no escaping).
- Template.SubstituteEnvVars: the environment is a map that does not change during one expansion.
- Histograms.Histogram.Observe: values are nonnegative reals within 64 bits after scaling; rounding of doubles and NaN are not modelled.
- Tenants.TenantMetrics.RecordRequest: one thread records at a time, so the compare-and-exchange of the peak always succeeds; `update_memory` and the other gauges are not modelled.
- MetricVecs.NoLostUpdate: sequentially consistent steps; the relaxed memory orderings, the gauges and the errors_total vector (the same code under another name) are not modelled.
- Drain.NoLostWakeUp: the fairness of the semaphore, real timeouts and `await_complete_polling` are not modelled.
- BatchSpec.Accounting: a request is its hostname and a number; requests of a batch that filled up go to no caller, so they are followed in a history.
- CodeCache.CacheAgreesWithDisk: every write of a file gets a time stamp that it never had and that no clock reading of the cache has used for it; without that a stamp says nothing.
- Watcher.SilenceMeansUnchanged: speaks of checksums; SHA-256 is a parameter, so equal contents follow where it is injective. Poll intervals are not modelled.
- Routing.ValidConfigLosesNothing: Unicode lower-casing, the field checks of one application and the choice of its handler are parameters; the second copy of validation in `src/config/app.rs` and registration from slivers are not modelled.
- WsRelay.OutboundDelivery: UTF-8 text is its bytes; the handshake before the relay and the sockets themselves are not modelled.
- Worker pools, the work queue and the virtual file system: not part of this model.
