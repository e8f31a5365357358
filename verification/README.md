# llmux: a verified model of its stateful core

llmux is an LLM gateway written in Go. This project models, in Dafny 4.11, the eight parts of it that keep state
over whole runs, and proves what they promise for every input and every run:

| file | component | main results |
|---|---|---|
| `Utf8.dfy`, `StreamReader.dfy` | the stream reader and its mid-stream recovery | exactly-once delivery over every sequence of `Recv` and `Close`; which chunks of which body are handed on, and in what they may differ; exactly when a `Recv` answers with a chunk, the end or an error; the capped buffer is the longest fitting suffix; recovery is bounded |
| `Ledger.dfy`, `Retry.dfy` | the loops that open streams and run requests | every request start has its end, every permit its release, the plugin context one return; from the picks alone, which deployments get requests and which switches are reported |
| `FailureWindow.dfy` | failure counting, in memory and in Redis | both equal a count over the event log; the exact conditions under which both start a cooldown alike |
| `MemoryCache.dfy` | the expiring cache | two maps and a heap with outdated entries follow one plain map; eviction is exact; what a run may lose |
| `DualCache.dfy` | the two-tier cache | bounded staleness over every run on any number of instances; what a call gave is given again, whatever is requested in between |
| `ClientSwap.dfy` | the hot-swappable client | at every interleaving of atomic steps a client is closed at most once, and exactly once when idle; the exact condition under which a swap is safe for its holders |
| `RoundRobin.dfy`, `Averages.dfy`, `Routing.dfy` | routing | fairness under races; choice by intervals whose lengths follow weight, success rate and latency; every statistic as a function of the reports; over the whole life of a router exactly the deployments whose failures call for it are cooling down, none of the three routers picks one, and round-robin picks follow their tickets |
| `TeamSync.dfy` | team and organization sync from token claims | convergence and idempotence for every configuration; at every point of any run each user has the teams of their last list and the organizations they ever asked for |

## How it is modelled

Objects that the source updates in place are classes with the source's fields; their loops carry invariants, and their
contracts tie the new state to a specification: a log, a plain map, a text, a function of the old content. Lock-free
code (`ClientSwap.dfy`, `RoundRobin.dfy`) is a state machine with one step per atomic operation, and theorems hold for
every schedule. Inputs that come from outside are parameters: parsed stream lines, what an attempt meets upstream, the
clock in nanoseconds (seconds for the Redis scripts, which get seconds), random draws. Latencies, rates and weights
are reals.

Ghost state says what cannot be read off the fields: the log of reports to the router, semaphore and plugin pool; the
text handed to the caller; the remote tier's history; what every `Set` stored.

## Where the source does not keep a promise

Each of these is proved with a concrete case and, where the promise holds under a condition, with the condition.

- **A held client can be closed.** `Swap` documents that the old client is closed once its users release it. `acquire`
  loads the pointer and adds its reference in two steps, and `release` drops its reference and reads `closing` in two,
  so a client can be closed while held (`HeldClientCanBeClosed`). A swap is safe for the client it replaces exactly
  when no acquire stands between its two steps and, while there are holders, no release stands between its two and no
  close is under way (`SwapSafeIff`).
- **Local and Redis mode differ on wrapped errors.** In memory the status is found through wrapping, for Redis only in
  an error that is not wrapped, and Redis starts no cooldown shorter than a second (`WrappedErrorsDiffer`). `AgreeIff`
  says on which failures of a history they agree, `AgreeOnAllIff` for which configurations and errors they always do.
  Redis never cools down where local mode does not.
- **A complete stream can end in an error.** `Recv` documents end of stream once the stream is complete. A recovery that
  replays the text to its end counts as one that failed, so a stream that broke after its last piece ends in an error
  although all of it was delivered (`CompleteButFailed`). An open reader answers end of stream exactly under the
  condition `EndsHere` on its state before the call (`StreamReader.Recv`).
- **A late clean-up can drop a fresh value.** `Get` reads under one lock and removes an expired key under another; a
  `Set` between the two is undone (`FreshValueLost`), and nothing else is ever lost (`Cache.GetFinish`). What a `Get`
  returns is sound all the same (`Cache.GetInterrupted`).
- **A switch can go unreported.** `executeWithRetry` switches deployments before it waits, so a switch is not reported
  exactly when the context ends in the wait right after it (`ExecuteWithRetry`, `SwitchUnreported`). The other two loops
  report all.
- **Colons in user IDs merge rows.** Membership rows are keyed by user ID, colon, team ID. Adding one user to a team can
  overwrite a row of another (`ColonTakesRow`, `ColonMergesRows`); a sync leaves the others alone exactly when no key it
  adds is taken (`SyncKeepsOthersIff`), which user IDs without colons ensure (`SyncKeepsOthers`). An organization row is
  never overwritten, so there the user who comes second stays out (`ColonBlocksOrganization`), exactly if the key is
  another's (`OrganizationsAfterIff`).
- **A throttled key can go missing while it is fresh.** `GetMulti` throttles queries on the assumption that what it
  fetched is local. A value that came from the local tier may expire there while the throttle still holds, so it is not
  given again although it was given less than `LocalTTL` before and the remote tier has it (`HitCanLapse`). It is given
  again exactly if its entry lasts, or the remote tier has it and may be asked (`AskHitAgain`); what was fetched, with
  room for it and not too large, always is (`AskAgain`).
- **A negative latency buffer panics.** No configuration check excludes one. The latency router then draws an index from
  an empty list, exactly if every deployment it may choose from has a positive latency (`NearEmptyIff`,
  `PickByLatency`).

## Model

| member | source | states |
|---|---|---|
| `Utf8.TrimLeadingRunes` | stream.go:575-589 | for any bytes: exactly the first runes are gone, a malformed byte counting as one, everything exactly if there were no more, and the count returned is what could not be cut |
| `Utf8.WidthSplits` | stream.go:575-589 | in a valid text the cut falls between two characters, with the expected number of runes before it |
| `Utf8.CappedSuffixIsLongest` | stream.go:81-108 | the capped suffix of a text is the longest suffix that is valid text by section 4 of RFC 3629 and fits in the cap |
| `Utf8.CapAppend` | stream.go:81-108 | capping piece by piece gives what capping the whole text gives, however the text was split |
| `Utf8.CutToCap` | stream.go:81-108 | the byte loop that moves to the next character start finds, for any bytes, the longest suffix that fits in the cap and is valid, and for valid text the capped suffix |
| `Streams.SkipAligns` | stream.go:219-229 | skipping delivered runes from a replayed piece keeps runes consumed plus runes to skip equal to runes delivered, and what is delivered a prefix of the text |
| `Streams.DoneMeansComplete` | stream.go:199-205 | reaching the end marker of a replay means that everything has been delivered, whatever was left to skip |
| `Streams.HeardAll` | stream.go:190-247 | with nothing to skip, reading lines hands on exactly their chunks, unchanged and in order, those without content too |
| `Streams.PassedOverIff` | stream.go:219-229 | a chunk is passed over exactly if runes are still to be skipped before it and it has no more than those, no role and no tool call |
| `Streams.CaughtUpHandsAll` | stream.go:219-229 | once as many runes as are to be skipped have passed, every further chunk is handed on as it came |
| `Streams.CarriersHeard` | stream.go:219-229 | skipping loses no chunk with a role or a tool call, and nothing of one but first-choice content |
| `Streams.HeardInOrder` | stream.go:219-229 | what is handed on are chunks that came, in order, the same but for first-choice content |
| `Streams.SaidHeard` | stream.go:219-229 | the first-choice content handed on is the content that came, without the runes to skip |
| `Streams.HeardIsLawful` | stream.go:190-247 | all of that of one body |
| `Streams.StreamReader.constructor` | stream.go:111-148 | a new reader holds the open request, its permit and the plugin context, and is exact if all bodies replay the text |
| `Streams.StreamReader.AppendAccumulated` | stream.go:81-108 | for any bytes the rune count grows by that of the piece, and the buffer by the piece, cut to its longest valid suffix that fits where it exceeds the cap; after valid pieces the buffer is the capped suffix of everything delivered |
| `Streams.StreamReader.EndRequest` | stream.go:520-532 | the open request and its permit are ended, and ended once however often it is called |
| `Streams.StreamReader.FinalizeStream` | stream.go:334-347 | the plugin context is returned, once |
| `Streams.StreamReader.CloseLocked` | stream.go:547-553 | closed means that request and permit have ended |
| `Streams.StreamReader.Finish` | stream.go:556-573 | finalised and closed with balanced accounts |
| `Streams.StreamReader.CanRecover` | stream.go:357-370 | recovery is allowed only in a mode with it and with retries left, refused only without one of these or after cancellation, and stays refused |
| `Streams.StreamReader.SkipDelivered` | stream.go:219-229 | what is left of a replayed chunk goes on where delivery stopped, and which chunk is dropped; `PassedOverIff` and `HeardIsLawful` say what that comes to |
| `Streams.StreamReader.ScanBody` | stream.go:190-248 | finds a chunk, the end marker or the end of the body exactly as `ScanOf` of the lines says, and a chunk extends what was delivered by its content; `ScanFinds` and `ScanEnds` relate that to all lines read |
| `Streams.ScanFinds` | stream.go:190-247 | a scan that finds a chunk has read on to just behind it, and that chunk is all that is handed on |
| `Streams.ScanEnds` | stream.go:190-205 | a scan that finds none has read on to the end marker or the end, and nothing was to be handed on |
| `Streams.StreamReader.SendAgain` | stream.go:411-492 | a recovery that fails at any stage leaves nothing open; one that starts holds request and permit of the new deployment |
| `Streams.StreamReader.WindBack` | stream.go:373-385 | the old request is ended first, the retry is counted, and in retry mode all delivered runes are to be skipped |
| `Streams.StreamReader.TryRecover` | stream.go:373-496 | one recovery uses up one retry, keeps accounts and texts, and goes on exactly after what was delivered; a chunk comes of it only if some body met brings one, and without cancellation whenever one does |
| `Streams.StreamReader.RecoverOrFail` | stream.go:250-288 | recoveries repeat until one yields a chunk or recovery is refused; then the reader is closed with an error, never with end of stream; ends for all finite bodies |
| `Streams.StreamReader.Recv` | stream.go:178-293 | end of stream exactly if the reader is closed, the scan meets the end marker first, or the body ends unbroken after a marker was seen; without cancellation a chunk exactly if the scan finds one or, where the stream does not end, a recovery left brings one; the chunk is the one the scan finds, or the first of the first recovery that brings one; it extends what was delivered; anything else closes the reader with balanced accounts |
| `Streams.StreamReader.EndOrRecover` | stream.go:250-292 | after a scan without a chunk: end of stream exactly at the marker or an unbroken end after one, else recovery |
| `Streams.CompleteButFailed` | stream.go:174-293 | a reader that delivers all of the text, meets a replay that ends regularly, and still answers with an error |
| `Streams.StreamReader.Close` | stream.go:500-509 | closes with balanced accounts and changes nothing that was delivered |
| `Streams.StreamReader.Run` | stream.go:178-573 | over every sequence of calls: the chunks returned are, body by body, exactly those of the first body and of each later one that brings any; of each body all chunks of the lines read if nothing is to be skipped, as it is not outside retry mode, and else those chunks in order but for first-choice content, none with a role or a tool call missing, and the content without the runes delivered before; every body but the last is read up to its end marker or end, the last too if the stream ended. In an exact reader what was returned is a prefix of the text, all of it if the first reply that is no chunk is end of stream; a closed reader has ended its requests, released its permits and returned the context once; at most `maxRetries` recoveries, each with at most one request |
| `Ledger.BalancedPrefixes` | client.go:411-569 | in a log whose account is balanced, every earlier moment was balanced too: no second start before an end, no end without a start or for another deployment |
| `RetryLoops.AttemptStream` | client.go:457-569 | an attempt leaves request and permit in use exactly when it passes, and nothing open otherwise; it passes exactly if its request goes out and is answered below 400; it ends the loop exactly without a price, without a request to send, or on a 4xx that is not retryable |
| `RetryLoops.NoPass` | client.go:411-569 | a loop that ends at an attempt, by exhaustion, cancellation or a final failure, could not have succeeded at any |
| `RetryLoops.StandsOnPick` | client.go:427-455 | with fallback a loop stands on the latest choice of the router, without on the first |
| `RetryLoops.RunsOnPick` | client.go:427-455 | an attempt runs on what the router named for it, or without fallback on what it named first |
| `RetryLoops.CompletesOnPick` | client.go:1220-1241 | with fallback a completion is on the deployment the router named last, without, or if none was named, on the first |
| `RetryLoops.ErrorGoesOnIff` | client.go:506-553 | after an error answer a loop goes on exactly if the error is retryable or, when opening a stream, the status is 500 or more |
| `RetryLoops.Route` | client.go:427-455 | the deployment of an attempt, and a switch to be reported exactly when it is another than before |
| `RetryLoops.Conclude` | client.go:1142-1147 | a pending switch is reported once, with the outcome of its attempt |
| `RetryLoops.OpenBody` | client.go:411-569 | the loop over the attempts: an open body exactly if some attempt passes in time, on the deployment of that attempt; the log holds a request for each reached attempt that sends one, to its deployment, and one fallback report for each whose deployment is another than the one before, with whether it passed, in order and no others |
| `RetryLoops.ChatCompletionStream` | client.go:352-576 | a reader is returned exactly if some attempt within `RetryCount` + 1 passes before a wait is cancelled or an attempt fails for good, and reads the body of that attempt on its deployment; from picks and configuration alone, which attempts are reached, where their requests go and which switches are reported with which outcome; the plugin context returned here without a reader and not otherwise; a reader is ready, with its request and permit in use |
| `RetryLoops.ServeStream` | client.go:352-576 | from opening to closing, whatever is called in between, all accounts balance, the context is returned once, the router sees at most 2 * `RetryCount` + 1 requests, and if every body of every attempt replays one text the caller gets a prefix of it, and all of it before a regular end |
| `RetryLoops.ExecuteOnce` | client.go:1247-1328 | nothing stays open on any path; it succeeds exactly if its request goes out, is answered below 400 and parses; it ends the loop exactly without a price or on an error answer that is not retryable |
| `RetryLoops.Embedding` | client.go:580-699 | succeeds exactly if the caller is not rate-limited and some attempt passes before a cancelled wait or a final failure; from picks and configuration alone, where requests go and which switches are reported with which outcome; nothing stays open, at most `RetryCount` + 1 requests |
| `RetryLoops.ExecuteWithRetry` | client.go:1171-1245 | completes exactly if some attempt passes before a cancelled wait or a final failure, is cancelled exactly at a cancelled wait that all attempts before failed up to; from picks and configuration alone, where requests go and which switches are reported with which outcome; nothing stays open; a switch goes unreported exactly if there is such a wait and the attempt before it switched |
| `RetryLoops.SwitchUnreported` | client.go:1171-1245 | a call with one failed attempt, a switch and a cancelled wait, whose switch is not reported |
| `FailureWindow.FailureRing.RecordWindow` | routers/base.go:684-700 | one more report in the log; the ring keeps, per slot, the counts of the latest minute seen there |
| `FailureWindow.FailureRing.WindowTotals` | routers/base.go:702-716 | exactly the successes and failures of the log whose minute is one of the last five, although slots are reused and reset late |
| `FailureWindow.SingleTripsIff` | routers/base.go:526-530 | by rate a single deployment is cooled down exactly if there are enough requests and none of them succeeded |
| `FailureWindow.SuccessSpares` | routers/base.go:526-530 | a single deployment with a success in its window is not cooled down by rate |
| `FailureWindow.LocalStats.ShouldCooldown` | routers/base.go:521-536 | the rule over the log: enough requests and too high a rate, or for a single deployment enough requests and all failed |
| `FailureWindow.LocalStats.ReportSuccess` | routers/base.go:384-406 | one more success in the log |
| `FailureWindow.LocalStats.ReportFailure` | routers/base.go:448-517 | a cooldown starts exactly on an immediate status, found through wrapping, or when the rule over the log, with this failure, says so; then it ends one period from now |
| `FailureWindow.LocalWindows.RecordSuccess` | routers/base.go:384-406 | one more success in the log of that deployment and no other, whose window is made on first use; cooldowns stay |
| `FailureWindow.LocalWindows.RecordFailure` | routers/base.go:448-517 | one more failure in that log; a cooldown starts exactly if the error or the log of that deployment says so, and then ends one period from now |
| `FailureWindow.RedisStats.WindowSize` | routers/redis_stats_store.go:524-529 | a positive window for every configuration |
| `FailureWindow.RedisStats.BucketSeconds` | routers/redis_stats_store.go:531-536 | a positive bucket size for every configuration |
| `FailureWindow.AliveInWindow` | routers/redis_stats_store.go:538-541 | a key of a bucket still in the window has not expired, for every window and bucket size |
| `FailureWindow.GetIsCount` | routers/redis_scripts.go:147-166 | the value read for a bucket in the window is the count of the log |
| `FailureWindow.RedisStats.RecordSuccess` | routers/redis_scripts.go:47-78 | one more success in the log, and all bucket keys still stand for it |
| `FailureWindow.RedisStats.Totals` | routers/redis_scripts.go:147-166 | the totals of the script are exact counts over the log for every window and bucket size |
| `FailureWindow.RedisStats.RecordFailure` | routers/redis_scripts.go:126-200 | a cooldown starts exactly for a period of a second or more and an immediate status of an error that is not wrapped, or by the rule over the log; it is set to end one period from now |
| `FailureWindow.AgreeIff` | routers/redis_stats_store.go:324-362 | on every failure of every history local and Redis mode agree exactly under a condition on period, error and rule, always for periods of a second or more and errors not wrapped; Redis never starts one where local mode does not |
| `FailureWindow.AgreeOnAllIff` | routers/redis_stats_store.go:324-362 | for a configuration and an error, the modes agree on every history that ends in it if and only if a condition on the two alone holds; where it fails a history is constructed |
| `FailureWindow.WrappedErrorsDiffer` | routers/redis_stats_store.go:324-362 | a wrapped 401 starts a cooldown locally and none in Redis |
| `FailureWindow.DecideAlike` | routers/base.go:448-536 | both implementations, fed the same history under a clock that does not run back, make the decisions `AgreeIff` compares, and the same ones throughout with a period of a second or more and no wrapped error |
| `MemoryCache.RootIsMin` | caches/memory/memory.go:52-80 | the root of an ordered heap expires first |
| `MemoryCache.SiftUp` | caches/memory/memory.go:52-80 | restores the order after a push, keeping the entries |
| `MemoryCache.SiftDown` | caches/memory/memory.go:52-80 | restores the order after the root was replaced, keeping the entries |
| `MemoryCache.HeapPush` | caches/memory/memory.go:62-70 | ordered, with one entry more |
| `MemoryCache.HeapPop` | caches/memory/memory.go:72-80 | ordered, without the root |
| `MemoryCache.Cache.constructor` | caches/memory/memory.go:101-132 | empty, valid, with the defaults for limits that are not positive |
| `MemoryCache.Cache.EvictExpired` | caches/memory/memory.go:147-171 | removes every expired key and no other, despite outdated heap entries |
| `MemoryCache.Cache.EvictIfNeeded` | caches/memory/memory.go:174-196 | at capacity removes exactly one key, one that expires first |
| `MemoryCache.Cache.Set` | caches/memory/memory.go:228-266 | the key gets value and expiration, the size stays within its limit, at capacity exactly one key goes and it expires first; an oversized value changes nothing |
| `MemoryCache.Cache.Delete` | caches/memory/memory.go:269-276 | removes the key and no other |
| `MemoryCache.Cache.GetRead` | caches/memory/memory.go:199-207 | the entry under the first lock, which some `Set` of the key stored |
| `MemoryCache.Cache.GetFinish` | caches/memory/memory.go:209-225 | returns the entry read exactly if it has not expired; otherwise removes the key, whatever it holds by now; a value that has not expired is lost exactly when the entry read had expired and the key has been stored again since |
| `MemoryCache.Cache.Get` | caches/memory/memory.go:199-225 | without interference: the value exactly if the key is there and has not expired, which is then what the plain map has; no unexpired key is lost |
| `MemoryCache.Cache.GetMulti` | caches/memory/memory.go:289-311 | exactly the asked keys that are there and have not expired, with their values |
| `MemoryCache.Cache.Flush` | caches/memory/memory.go:352-360 | empty |
| `MemoryCache.Cache.Run` | caches/memory/memory.go:147-276 | every sequence of locked sections keeps maps, heap, size and the plain map in agreement; with room for every entry and no late clean-up, no entry of the plain map that has not expired is missing afterwards |
| `MemoryCache.Cache.GetInterrupted` | caches/memory/memory.go:199-225 | with anything happening between the two locks, a returned value was stored by a `Set` of that key and had not expired when judged |
| `MemoryCache.FreshValueLost` | caches/memory/memory.go:209-218 | the second section can remove a value stored after the first, although it has not expired |
| `DualCache.Dual.constructor` | caches/dual/dual.go:52-72 | a new instance is fresh exactly if the entries its local tier brings along are, in particular with none; the default time to live for one that is not positive |
| `DualCache.Dual.Get` | caches/dual/dual.go:75-99 | the local value if it has not expired, else the remote one, which is then local for `LocalTTL` unless oversized; it was the remote value less than `LocalTTL` ago; other entries that have not expired stay, but for one that gives way at capacity |
| `DualCache.Dual.Set` | caches/dual/dual.go:102-123 | the remote tier holds the value for its time to live, the local one for `LocalTTL` unless it is oversized; other local entries stay, but for one that gives way at capacity; still fresh |
| `DualCache.Dual.Delete` | caches/dual/dual.go:134-140 | the key is in neither tier, everything else is as it was |
| `DualCache.Dual.SetPipeline` | caches/dual/dual.go:143-165 | the remote tier holds the last entry of the batch for each key, for its time to live or the default, and is otherwise unchanged; the local tier holds, for `LocalTTL`, the last entry for each key that is not oversized, unless it gave way at capacity, and is otherwise unchanged; it stays fresh even where it kept an earlier entry than the last |
| `DualCache.Dual.GetMulti` | caches/dual/dual.go:168-229 | exactly the keys that are local, or remote and not throttled, with the local value or else the remote one; every value was the remote value less than `LocalTTL` ago; what was fetched is local afterwards for `LocalTTL`, unless oversized or pushed out by a later one at capacity, and other entries stay; exactly the keys asked for get `now` as access time, the others keep theirs but for old ones that are forgotten |
| `DualCache.Dual.AskHitAgain` | caches/dual/dual.go:168-257 | a key given from the local tier is given again exactly if its entry lasts, or the remote tier has it and the key is not throttled |
| `DualCache.Dual.HitCanLapse` | caches/dual/dual.go:168-257 | a state in which a value is given and, less than `LocalTTL` later, neither local nor to be asked for |
| `DualCache.Dual.FilterThrottledKeys` | caches/dual/dual.go:232-247 | exactly the keys not asked for within the throttle time |
| `DualCache.Dual.CleanupThrottleMap` | caches/dual/dual.go:250-257 | forgets exactly the access times older than twice the throttle time, without changing what is throttled now or later |
| `DualCache.Dual.Cleanup` | caches/memory/memory.go:135-171 | a turn of the local clean-up loop removes what has expired and keeps the instance fresh |
| `DualCache.HitIsRecent` | caches/dual/dual.go:75-85 | a local hit was the remote value less than `LocalTTL` ago |
| `DualCache.Cluster.Perform` | caches/dual/dual.go:75-229 | a request on one instance keeps every instance fresh, and with room keeps every local entry that it neither deletes nor replaces |
| `DualCache.Cluster.Run` | caches/dual/dual.go:75-229 | over every run of requests on any instances, every value returned at t was the remote value of its key at some instant in (t - `LocalTTL`, t] |
| `DualCache.Cluster.AskAgain` | caches/dual/dual.go:168-229 | two calls on one instance with any requests on any instances between: with room for all of them, what the first gave is given again as long as the entry it came from lasts, which is `LocalTTL` for a fetched value that is not oversized, unless it was deleted there; the same value unless another was stored there; throttled or not |
| `ClientSwap.StepIsGood` | internal/api/client_swap.go:26-82 | every atomic step of acquire, release, swap and close keeps the balance of one reference: references are holders, at most one close, and whoever must close is still on its way |
| `ClientSwap.RunKeepsInv` | internal/api/client_swap.go:26-82 | every schedule of any number of callers keeps it for all references |
| `ClientSwap.ClosedExactlyOnce` | internal/api/client_swap.go:26-82 | in every reachable state `Close` ran at most once per client and only after a swap or close; with no operation in flight a client that was replaced or closed and has no holder has been closed exactly once |
| `ClientSwap.CloseTakesEffect` | internal/api/client_swap.go:43-67 | whatever comes before and after, a swap or close makes the client that is current when it begins closing and, once no operation is in flight and nobody holds it, closed exactly once |
| `ClientSwap.GuardedForever` | internal/api/client_swap.go:26-82 | on a guarded client that was replaced `Close` never runs while somebody holds it, whatever follows |
| `ClientSwap.Unguarded` | internal/api/client_swap.go:26-42 | from any state that is not guarded some continuation runs `Close` on a held client |
| `ClientSwap.SwapSafeIff` | internal/api/client_swap.go:100-104 | a swap keeps its promise to all later holders exactly when, at that moment, no acquire stands between its two steps and, while there are holders, no release does and no close has been decided |
| `ClientSwap.HeldClientCanBeClosed` | internal/api/client_swap.go:26-42 | a schedule of one acquire and one swap in which `Close` runs on a held client |
| `RoundRobin.PublishKeeps` | routers/round_robin.go:112-124 | creating or finding a counter at any moment leaves one counter per model and all holders with it |
| `RoundRobin.TakeKeeps` | routers/round_robin.go:96-110 | taking a ticket gives the number of tickets taken before, modulo 2^64 |
| `RoundRobin.RacersShareCounter` | routers/round_robin.go:112-124 | all calls that hold a counter for a model hold the published one, and it counts the tickets |
| `RoundRobin.InTurnIsFair` | routers/round_robin.go:96-110 | tickets in turn give each index its exact share |
| `RoundRobin.FairUnderRaces` | routers/round_robin.go:58-124 | under every interleaving, up to 2^64 tickets and with all callers choosing from one list, each deployment of the list was returned the floor or the ceiling of an equal share |
| `RoundRobin.NextIndexTakes` | routers/round_robin.go:96-110 | an uninterrupted call gets the number of tickets taken before, modulo 2^64 and the length of the list |
| `Routing.Filter` | routers/base.go:538-552 | exactly the deployments that meet a criterion, in order; health, default provider and limits are such criteria |
| `Routing.FilterByTags` | routers/base.go:554-590 | those with a requested tag, failing that those tagged as default, failing that none; without requested tags the defaults or all |
| `Routing.FilterByDefaultProvider` | routers/base.go:592-610 | those of the default provider, or all if it is unset or has none; never empty from something |
| `Routing.PoolSuits` | routers/base.go:538-590 | a deployment is in the pool exactly when it is healthy and has a requested tag, or has the default tag and no healthy one has a requested tag; the error names the first filter that left none |
| `Routing.AdmittedSuits` | routers/base.go:538-634 | the same, for a request with a token estimate only below the token and request limits of the deployment |
| `Routing.Shuffle` | routers/latency.go:113-116 | in place, what the draws make of the list |
| `Routing.ShuffledSame` | routers/latency.go:113-116 | a shuffle keeps the candidates |
| `Routing.SortStable` | routers/latency.go:118-121 | in place, the stable sort of the list |
| `Routing.SortedIsStable` | routers/latency.go:118-121 | ordered by latency, and candidates of equal latency keep their order |
| `Routing.SortedSame` | routers/latency.go:118-121 | sorting keeps the candidates |
| `Routing.CalculateAverageLatency` | routers/base.go:790-799 | the mean: times the length it is the sum; zero for no history |
| `Routing.LatencyMeans` | routers/latency.go:86-109 | a latency is never negative, zero exactly if nothing but zeros was measured, the moving average of the requested kind where there is one, and else within any bounds of the recorded values |
| `Routing.WithinBuffer` | routers/latency.go:130-139 | the candidates up to the threshold, in order |
| `Routing.NearEmptyIff` | routers/latency.go:130-139 | with a positive lowest latency no candidate is up to the threshold exactly if the buffer is negative |
| `Routing.NearMeans` | routers/latency.go:130-139 | the candidates chosen from are exactly those within (1 + buffer) times the lowest latency |
| `Routing.HasCustomWeights` | routers/latency.go:141-147 | whether some candidate has a positive weight |
| `Routing.Weigh` | routers/latency.go:149-173 | the weight of each candidate, and their total; what a weight is, say the next four |
| `Routing.IntervalLength` | routers/latency.go:149-173 | the length of a candidate's interval, times its latency or one if that is not positive, is the square of its success rate, times its custom weight if any candidate has one |
| `Routing.FasterIsLonger` | routers/latency.go:149-173 | with equal rates and weights lengths are inversely proportional to latencies, so the faster candidate's is at least as long |
| `Routing.LongerByRate` | routers/latency.go:149-173 | with equal latencies and weights lengths go as the squares of the success rates |
| `Routing.LongerByWeight` | routers/latency.go:149-173 | with equal latencies and rates lengths go as the custom weights |
| `Routing.WeightSign` | routers/latency.go:149-173 | a weight is never negative, and zero exactly for a success rate of zero or a custom weight of zero |
| `Routing.ByTarget` | routers/latency.go:175-184 | the running sum stops at the candidate whose half-open interval, as long as its weight, holds the target, and only that one's does |
| `Routing.ChooseByWeight` | routers/latency.go:141-187 | picks by interval if the total is positive, by index otherwise |
| `Routing.WeightDecides` | routers/latency.go:141-187 | a candidate is picked exactly when the drawn fraction of the total is in its interval; none without weight while the total is positive; the total is positive once any weight is |
| `Routing.ChoiceIsNear` | routers/latency.go:123-139 | the pick is within (1 + buffer) times the latency of every candidate if the lowest is positive |
| `Routing.PickByLatency` | routers/latency.go:80-187 | shuffle, sort, threshold and weights together, for any buffer: it panics exactly with a negative buffer and only positive latencies; otherwise the pick is a candidate and within (1 + buffer) times the latency of every other one if all are positive |
| `Routing.FindEligible` | routers/tpmrpm.go:73-110 | exactly the deployments that one more request keeps below their limits, whatever the shuffle |
| `Routing.LowestUsage` | routers/tpmrpm.go:73-149 | fails exactly when every deployment would exceed its token limit, with 100 tokens for no estimate, or reach its request limit; the pick does neither, shares its ID with a preferred deployment and has the fewest tokens of all preferred ones |
| `Routing.HistoryIsTail` | routers/base.go:765-775 | appending to the latest values, as many as fit, gives the latest values |
| `Routing.Router.ReportSuccess` | routers/base.go:384-441 | the whole new entry and log of the deployment; no cooldown changes, and each entry still has the cooldown its window goes by; with a smoothing factor of at most 1 success rates stay between 0 and 1 |
| `Routing.Router.ReportFailure` | routers/base.go:448-517 | a cooldown starts exactly if the error or the log of the deployment, with this failure, says so; the whole new entry; no cooldown moves back; other deployments unchanged |
| `Routing.SmoothBetween` | routers/base.go:419-439 | a moving average stays within any bounds of its old value and the new sample |
| `Averages.BlendSnoc` | routers/base.go:419-439 | a moving average is the weighted sum of all samples and where it began, with the smoothing factor on the newest and (1 - factor) times the next one's on each before |
| `Averages.AveragedSnoc` | routers/base.go:411-439 | the same of an average that begins with its first sample other than zero |
| `Routing.MeasuredSuccess` | routers/base.go:384-441 | after a success histories, averages, success rate, usage and last request time are what all reports about the deployment make them |
| `Routing.MeasuredFailure` | routers/base.go:448-517 | the same after a failure: a 504 counts as 1000 seconds in the latency history, and an immediate cooldown leaves the rate alone |
| `Routing.UsedMore` | routers/base.go:777-788 | another success in the minute adds its tokens and one request |
| `Routing.UsedAnew` | routers/base.go:777-788 | a success in another minute starts the usage anew |
| `Routing.Router.PickLatency` | routers/latency.go:53-188 | the error of the filters, or the weighted choice among the favoured deployments they admit, within the buffer of every one of them, or the panic of a negative buffer where all of those have a positive latency |
| `Routing.Router.PickRoundRobin` | routers/round_robin.go:58-89 | the error of the filters, or the admitted deployment that the number of tickets taken so far names, and one more ticket taken |
| `Routing.Router.PickUsage` | routers/tpmrpm.go:55-149 | the error of the filters or of the limits, or an eligible deployment that shares its ID with a preferred one and has the fewest tokens of all preferred ones |
| `Routing.AnswerIsHealthy` | routers/base.go:538-552 | whichever router answered, the deployment is one of the list and not cooling down |
| `Routing.Router.Run` | routers/base.go:384-552 | over the whole life of a router: at every operation exactly the deployments with an earlier failure that started a cooldown not yet over, by its status or by the failure rate in the reports about that deployment, are cooling down; counts, histories, averages, rates and usage are those of the reports, the usage being tokens and number of the latest successes in one minute; every pick is answered from the others as its router promises, a round-robin pick with the deployment that the number of earlier round-robin picks names; cooldowns never move back |
| `Routing.UntilIff` | routers/base.go:448-552 | the end of the latest cooldown is past exactly when all cooldowns of the deployment are over |
| `Routing.CooledNotPicked` | routers/base.go:448-552 | a deployment whose failure started a cooldown is not picked by any router up to the end of the period |
| `Routing.RefusedOnlyIfAllCool` | routers/base.go:538-552 | without tags or an estimate the latency and round-robin routers refuse, other than by the panic, only if every deployment is cooling down from such a failure |
| `TeamSync.MemoryStore.CreateTeamMembership` | internal/auth/memory.go:581-586 | the row stands under the key of its IDs |
| `TeamSync.MemoryStore.DeleteTeamMembership` | internal/auth/memory.go:597-602 | the row under that key is gone, others stay |
| `TeamSync.MemoryStore.ListUserTeamMemberships` | internal/auth/memory.go:624-635 | rows for exactly the teams of the user |
| `TeamSync.MemoryStore.GetOrganizationMembership` | internal/auth/memory.go:643-651 | the row under the key of the two IDs, if there is one |
| `TeamSync.MemoryStore.CreateOrganizationMembership` | internal/auth/memory.go:653-658 | the row stands under the key of its IDs |
| `TeamSync.InTeam` | internal/auth/memory.go:567-569 | a user is in a team exactly when a row of theirs stands under the key of the two |
| `TeamSync.InOrganization` | internal/auth/memory.go:639-641 | the same of organizations |
| `TeamSync.KeysApart` | internal/auth/memory.go:567-569 | user IDs without colons never share a key, whatever the team IDs |
| `TeamSync.ColonTakesRow` | internal/auth/user_team_sync.go:249-285 | every sync of user `a` to team `b:c` overwrites the row of user `a:b` in team `c` |
| `TeamSync.ColonMergesRows` | internal/auth/user_team_sync.go:97-132 | such a sync, carried out on a store |
| `TeamSync.UserTeamSyncer.EnsureUser` | internal/auth/user_team_sync.go:135-179 | the stored user, or a new one with the default role and organization, or none exactly if missing and not to be created |
| `TeamSync.UserTeamSyncer.SyncUserRole` | internal/auth/user_team_sync.go:193-222 | the user has the new role; updated exactly if it differed |
| `TeamSync.UserTeamSyncer.EnsureTeam` | internal/auth/user_team_sync.go:314-344 | fails exactly if missing and not to be created; creates only what is missing |
| `TeamSync.UserTeamSyncer.AddToTeams` | internal/auth/user_team_sync.go:249-285 | new rows for exactly the listed teams the user was not in that exist or may be created, with what is reported as added, created and failed |
| `TeamSync.UserTeamSyncer.RemoveFromTeams` | internal/auth/user_team_sync.go:287-310 | the rows of exactly the unlisted teams are gone, each reported once |
| `TeamSync.UserTeamSyncer.SyncTeamMemberships` | internal/auth/user_team_sync.go:225-311 | both together, against the content before |
| `TeamSync.UserTeamSyncer.SyncOrganization` | internal/auth/user_team_sync.go:126-129 | no organization row is lost or changed, and the only new one is for an organization ID that is given and not empty |
| `TeamSync.UserTeamSyncer.SyncOrganizationMembership` | internal/auth/user_team_sync.go:346-385 | a new row exactly if none stands under the key |
| `TeamSync.OrganizationsAfterIff` | internal/auth/user_team_sync.go:346-385 | the user is in the organizations before and in the one asked for, exactly if its key is not the key of another user's row |
| `TeamSync.ColonBlocksOrganization` | internal/auth/user_team_sync.go:346-385 | user `a` asks for organization `b:c` in vain while user `a:b` is in `c` |
| `TeamSync.OthersOrganizations` | internal/auth/user_team_sync.go:346-385 | everyone else is in the organizations they were in, whatever the IDs look like |
| `TeamSync.UserTeamSyncer.SyncUserTeams` | internal/auth/user_team_sync.go:97-132 | one sync takes the store from one content to the next as `Synced` says, in users, teams, team rows and organization rows, for every configuration and request, including disabled, user missing, no teams listed and no organization |
| `TeamSync.TeamsAfter` | internal/auth/user_team_sync.go:249-310 | the teams of the user are those before, plus the added, minus the removed, whatever the IDs look like |
| `TeamSync.SyncSettles` | internal/auth/user_team_sync.go:225-311 | for every configuration, which teams the user is in afterwards |
| `TeamSync.SyncedUser` | internal/auth/user_team_sync.go:135-222 | a new user is active, with the e-mail address of the token, its role before the configured default before `internal_user`, and its organization before the configured one; a known user changes in the role alone, exactly if roles are synced and the token names another; nobody else changes |
| `TeamSync.NewRowsAreMembers` | internal/auth/user_team_sync.go:262-267 | every membership a sync adds, of a team or an organization, has role `member` and nothing spent |
| `TeamSync.SyncConverges` | internal/auth/user_team_sync.go:225-311 | with creation and removal on, exactly the listed ones |
| `TeamSync.SyncKeepsOthersIff` | internal/auth/user_team_sync.go:249-285 | everyone else keeps their rows exactly when no key to be added is taken |
| `TeamSync.SyncKeepsOthers` | internal/auth/user_team_sync.go:97-132 | user IDs without colons ensure that |
| `TeamSync.SyncIsIdempotent` | internal/auth/user_team_sync.go:97-385 | the same sync again leaves the whole store as it is and reports nothing added, removed, created or updated, for every configuration |
| `TeamSync.UserTeamSyncer.SyncAll` | internal/auth/user_team_sync.go:97-132 | requests one after another are a run |
| `TeamSync.LastListWins` | internal/auth/user_team_sync.go:97-311 | at every point of any run over any users, with creation and removal on and no colons in user IDs, each user is in exactly the teams of the last list they came with |
| `TeamSync.OrganizationsAccumulate` | internal/auth/user_team_sync.go:97-385 | at every point of any run over any users without colons in their IDs, each user is in exactly the organizations they were in at the start or asked for since |

## Left out

- HTTP, provider adapters, line scanning, JSON, tokenizers and pricing: parsed lines and the outcome of each stage are inputs.
- Streams served by a plugin channel, and plugin hooks on chunks: hooks are the identity.
- `ReportSuccess` and `ReportFailure` calls of the reader and the loops, metrics, time to first token, log lines.
- `retryBackoff` and the back-off in the reader: only whether the context ends during a wait matters here.
- Overlapping `Recv` and `Close`: the reader gives up its lock while it recovers, so the claims are about calls one after another.
- Exactly-once delivery is about first-choice content; a recovered attempt may deliver a role or tool call again.
- Which error a failed call returns, beyond what decides whether the loops go on.
- The Redis round-robin store, the Redis and Postgres clients, tenant scopes, `SetCooldown`, adding or removing a deployment during a run.
- Whether a deployment is the only one of its model, and the key of the current minute, are inputs of a report; the usage of the current minute may be stale when read, because it is reset only by the next success.
- Routing.MeasuredSuccess: the two smoothed latencies are weighted sums for smoothing factors up to 1; with a larger one an average can come out as zero, and the source then begins it anew with the next sample.
- Routing.LowestUsage: token and request counts are natural numbers, so the sentinel for no candidate yet is never a count.
- Floating-point rounding, overflow of 64-bit times and counters other than the round-robin ticket, quality of random numbers.
- The shuffle, cost, least-busy and tag routers: simpler uses of the same filters.
- The memory cache's hit counters, the index field of heap entries and the clean-up goroutine's timing; `SetLocalOnly` and a dual cache without a remote tier.
- Remote failures in the dual cache: operations on the remote tier succeed.
- Time stamps of users and teams, budgets of memberships, and store errors in the team sync; failed teams stand for their warning texts.
- FailureWindow.RedisStats.RecordSuccess: models the bucket keys, which decide cooldowns; the latency and first-token lists, the counters hash and the usage hash of the same script are other keys that no decision here reads.
- FailureWindow.RedisStats.RecordFailure: models the bucket and cooldown keys; the counters hash and the penalty latency of a timeout are other keys of the same script that no decision here reads.
