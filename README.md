# worker-bunch, modelled in Dafny

worker-bunch is a service that runs a bunch of worker threads and feeds them
triggers: MQTT messages, cron strings, timers and astral (sun position) times.
This project models the sequential logic between the threads, sockets and
libraries, and proves what that logic promises. The modules follow the
program's files:

- `Dispatching` (dispatcher.dfy) is the `Dispatcher`. It holds the exact-topic
  and wildcard-prefix subscription tables and one notification bucket per
  listener, where the last payload per identity wins. It also holds the cron
  subscriptions and the minute watermark that gates them.
- `Notifications` (notification.dfy) covers `Notification` identity, the
  bucket semantics, and decoding paho messages. UTF-8 is written out in `Utf8`
  (utf8.dfy).
- `Workers` (worker.dfy) is the `Worker` lifecycle: setup once, stop and
  proceed, the pending set, the drain-then-work loop of `run`, and `run_single`.
- `MqttProxies` (mqtt_proxy.dfy) is the outbound queue of `MqttProxy`. It
  buffers messages and flushes them in order, and it has defined behaviour
  when no client is configured.
- `Astral` (astral.dfy) covers astral key parsing and validity, rounding to
  the minute and the hour, and the per-hour cache of `AstralTimesManager`.
- `DatabaseWorkers` (database_worker.dfy) covers step preparation: it
  normalises steps, merges replacements, replaces every pattern, strips,
  aggregates setup errors, filters last wills and gates `_work`.
- `ServiceLogging`, `WorkerFactory` and `ServiceConfigurator` cover log-level
  parsing and log names, class-path aliases and worker creation, and the
  extended configuration schema and config-file permission test.
- `Wrappers`, `Dicts`, `PyStrings` and `Json` are the Python values these
  modules need:
  - `Option`, `Result` and `Outcome`;
  - insertion-ordered dicts;
  - `strip`, `lower`, `replace`, `split`, `join` and `int()`;
  - JSON values.

Modelling conventions:

- **Dicts** are association lists. `Put` keeps a key's position and appends a
  new key. `{**a, **b}` is `Merge`.
- **Sets of notifications** are maps from identity (type, topic) to the stored
  notification.
- **Listeners** are ids.
- **Time** is integer wall-clock microseconds.
- **Exceptions** are `Outcome`/`Result` values.
- **Threads** are only modelled at the points where the source checks for
  them. A worker's run loop consumes a schedule of passes, and a database worker
  is found closing from a given step on. Sections the source holds a lock for
  are atomic methods.
- **Trace logs record calls into code the model cannot see**:
  - each `add_notifications` call the dispatcher makes;
  - the client calls of the proxy;
  - the commits and rollbacks of a database worker;
  - the hook calls of a worker.

Where the code and its documentation differ, the model follows the code. Two
places in the code look unintended. They are listed under Findings, and the
model proves the intended behaviour for both. The predefined astro twilights
carry a depression of 12 degrees and the nautical ones 18
(worker_bunch/astral_times/astral_times_manager.py:198-201). Astronomy names
these the other way round, but the model keeps the code's values.

## Model

| member | source | states |
|---|---|---|
| Dispatching.WildcardIff | worker_bunch/dispatcher.py:88-97 | a topic is filed as a wildcard exactly when it ends in `#` and its `#`-stripped pattern is non-empty; a bare `#` is exact |
| Dispatching.WildcardPatternIsPrefix | worker_bunch/dispatcher.py:88-93 | the search pattern of a wildcard not starting with `#` is the topic without its trailing `#`s |
| Dispatching.MatchTopics | worker_bunch/dispatcher.py:83-86 | the topics of a table, one per entry, in table order |
| Dispatching.TopicListDistinct | worker_bunch/dispatcher.py:83-86 | the listed topics are pairwise distinct for well-formed tables |
| Dispatching.IndexOfTopic | worker_bunch/dispatcher.py:101-103 | the `next(...)` search gives the first index holding the topic, or -1 when none does |
| Dispatching.RegisterKeepsTables | worker_bunch/dispatcher.py:95-109 | registering a topic keeps the exact table keyed by its non-wildcard topics and the wildcard table distinct with the right patterns |
| Dispatching.RegisterAllKeepsTables | worker_bunch/dispatcher.py:119-120 | the registration loop keeps the tables well formed |
| Dispatching.TopicListed | worker_bunch/dispatcher.py:83-86 | a topic is listed exactly when the table of its kind holds it |
| Dispatching.RegisterTopicList | worker_bunch/dispatcher.py:95-109 | registering a listed topic leaves the topic list unchanged; a new wildcard is appended to the wildcard part, a new exact topic to the end |
| Dispatching.RegisterRoutes | worker_bunch/dispatcher.py:95-109 | after registering, the listener is routed every message its subscription covers (the exact topic, or any topic starting with the pattern) |
| Dispatching.RegisterKeepsOtherRoutes | worker_bunch/dispatcher.py:95-109 | registering for one listener changes no routing for any other listener |
| Dispatching.WildcardListenersIff | worker_bunch/dispatcher.py:196-198 | a listener is reached through the wildcards exactly when one of its wildcard entries' patterns is a prefix of the topic |
| Dispatching.StoreTo | worker_bunch/dispatcher.py:201-202 | storing for a listener set adds the notification to each of their buckets (creating missing ones) and leaves every other bucket alone |
| Dispatching.StoredIsStoreTo | worker_bunch/dispatcher.py:201-202 | any pointwise store of the notification for the set equals StoreTo, so the iteration order of the set does not matter |
| Dispatching.ReachedIff | worker_bunch/dispatcher.py:188-203 | a pipeline is ticked exactly when some pushed notification is routed to its listener |
| Dispatching.PushKeepsLatest | worker_bunch/dispatcher.py:188-203 | after a push, each routed listener's bucket holds the last notification of each identity routed to it |
| Dispatching.PushStep | worker_bunch/dispatcher.py:188-203 | one more message stores its notification for, and ticks, exactly the listeners it is routed to |
| Dispatching.PushSkipsUnreached | worker_bunch/dispatcher.py:188-203 | a listener no message is routed to keeps its bucket |
| Dispatching.PushHoldsOnlyRouted | worker_bunch/dispatcher.py:188-203 | a bucket only holds identities that were routed to its listener or that it held before |
| Dispatching.Flush | worker_bunch/dispatcher.py:220-224 | a flush hands over the bucket exactly when it exists and is non-empty, then leaves it empty, and no other bucket changes |
| Dispatching.FlushTwice | worker_bunch/dispatcher.py:220-224 | a second flush with nothing stored in between hands nothing over |
| Dispatching.FlushLosesNothing | worker_bunch/dispatcher.py:220-224 | what a flush hands over is exactly what the bucket held |
| Dispatching.CronSubscribeKeepsFirstTopic | worker_bunch/dispatcher.py:134-139 | the first subscription for a cron string fixes its topic; later ones only add their listener, and other cron strings are untouched |
| Dispatching.CronSecondSubscriberGetsFirstTopic | worker_bunch/dispatcher.py:134-139 | two listeners of one cron string share one entry with the first topic |
| Dispatching.MinuteOf | worker_bunch/dispatcher.py:168 | truncation to the minute gives the whole minute containing the time |
| Dispatching.WatermarkGate | worker_bunch/dispatcher.py:168-170 | with a whole-minute watermark, crons run again exactly from the next minute on |
| Dispatching.CronStageBuckets | worker_bunch/dispatcher.py:172-179 | every collected listener has a non-empty staged bucket, and no bucket of another listener changes |
| Dispatching.CronStageDue | worker_bunch/dispatcher.py:172-179 | a listener is collected exactly when it subscribed to a cron that `has_been` since the watermark, and then holds that cron's notification |
| Dispatching.Cleared | worker_bunch/dispatcher.py:181-182 | after the flush loop, the flushed listeners' buckets are empty and the others unchanged |
| Dispatching.ListenersOf | worker_bunch/dispatcher.py:181-182 | the listeners of a delivery log are exactly those named in one of its entries |
| Dispatching.SendDone | worker_bunch/dispatcher.py:181-182 | once every collected listener is flushed, each has received its staged bucket once and been cleared |
| Dispatching.DecodedPrefix | worker_bunch/dispatcher.py:188-190 | the notifications of the messages before the first that fails to decode |
| Dispatching.DecodedPrefixUnique | worker_bunch/dispatcher.py:188-190 | that prefix is the only sequence that decodes the messages up to the first failure |
| Dispatching.GuardAsWrittenNeverFires | worker_bunch/dispatcher.py:113-115 | the guard as written never refuses: a listener object is never a key of the id-keyed dict |
| Dispatching.RegisterEnrolledUnchanged | worker_bunch/dispatcher.py:95-109 | registering a listener already in the topic's entry leaves both tables as they were |
| Dispatching.RegisterEnrolls | worker_bunch/dispatcher.py:95-109 | after registering, the listener is in the topic's entry, and every listener that was in an entry still is |
| Dispatching.IndexOfTopicIs | worker_bunch/dispatcher.py:98 | `next(...)` finds the first entry holding the topic |
| Dispatching.RegisterAllEnrolls | worker_bunch/dispatcher.py:119-120 | after the loop the listener is in the entry of every topic it listed |
| Dispatching.RegisterAllEnrolledUnchanged | worker_bunch/dispatcher.py:119-120 | the loop over topics the listener is already in changes nothing |
| Dispatching.RegisterAllIdempotent | worker_bunch/dispatcher.py:119-120 | registering the same listener and topics twice gives the tables of registering once |
| Dispatching.SecondSubscribeGoesThrough | worker_bunch/dispatcher.py:111-120 | as written, a second subscription of the same listener passes and registers its topics; with the same topics and debounce time the ids, the max debounce time and the tables stay as the first call left them |
| Dispatching.Dispatcher.constructor | worker_bunch/dispatcher.py:47-66 | empty tables and buckets, no shutdown, the watermark at the creation time |
| Dispatching.Dispatcher.Close | worker_bunch/dispatcher.py:69-70 | the shutdown flag is raised |
| Dispatching.Dispatcher.GetMqttTopics | worker_bunch/dispatcher.py:83-86 | wildcard topics first, then exact topics, each table in order, with no topic twice |
| Dispatching.Dispatcher.FindWildcard | worker_bunch/dispatcher.py:101-103 | the loop finds the first wildcard entry holding the topic, or -1 |
| Dispatching.Dispatcher.RegisterMqttTopic | worker_bunch/dispatcher.py:95-109 | the tables become those of Register, whose properties the lemmas above state |
| Dispatching.Dispatcher.SubscribeMqttTopics | worker_bunch/dispatcher.py:111-120 | an already subscribed listener is refused with nothing changed; otherwise it is recorded, the largest debounce time so far is kept, and every topic is registered |
| Dispatching.Dispatcher.RegisterMqttTopics | worker_bunch/dispatcher.py:119-120 | every topic is registered in turn, keeping the tables well formed |
| Dispatching.Dispatcher.SubscribeCron | worker_bunch/dispatcher.py:134-139 | the cron subscriptions become those of CronSubscribe |
| Dispatching.Dispatcher.StoreNotification | worker_bunch/dispatcher.py:209-214 | the listener's bucket is created when missing and the notification replaces one of the same identity |
| Dispatching.Dispatcher.SendNotifications | worker_bunch/dispatcher.py:220-224 | `add_notifications` is called with the bucket's contents only when it is non-empty, and the bucket is then empty |
| Dispatching.Dispatcher.DebounceElapsed | worker_bunch/dispatcher.py:216-218 | a ticked pipeline firing flushes that listener; an unticked one changes nothing |
| Dispatching.Dispatcher.TimerClosure | worker_bunch/dispatcher.py:150-156 | a TIMER notification is stored for the listener and then flushed to it |
| Dispatching.Dispatcher.MatchListeners | worker_bunch/dispatcher.py:192-198 | the listener set of a message is the exact match's listeners and those of every covering wildcard |
| Dispatching.Dispatcher.StoreAndTick | worker_bunch/dispatcher.py:200-203 | the notification is stored for each listener and each pipeline is ticked |
| Dispatching.Dispatcher.StoreFor | worker_bunch/dispatcher.py:176-178 | the cron notification is stored for each listener of the entry |
| Dispatching.Dispatcher.PushMqttMessages | worker_bunch/dispatcher.py:184-203 | after close nothing changes; otherwise each decoded message is routed, stored and ticked, and the first undecodable message raises |
| Dispatching.Dispatcher.TriggerTimers | worker_bunch/dispatcher.py:161-182 | after close, or within the watermark's minute, nothing changes; otherwise the due crons are staged, the watermark becomes the current minute, and each staged listener receives its bucket once and is cleared |
| Dispatching.Dispatcher.StageCrons | worker_bunch/dispatcher.py:172-179 | the staging loop gives the buckets and listener set of CronStage |
| Dispatching.Dispatcher.SendAll | worker_bunch/dispatcher.py:181-182 | each collected listener receives its staged bucket once, and all of them are cleared |
| Notifications.SameIgnoresPayload | worker_bunch/notification.py:30-33 | two notifications are equal exactly when type and topic are, whatever the payloads |
| Notifications.SameNotificationsHashAlike | worker_bunch/notification.py:27-28 | equal notifications hash alike |
| Notifications.Union | worker_bunch/worker/worker.py:129-131 | `\|=` keeps every present element and adds those of a new identity |
| Notifications.Add | test/test_notification.py:40-69 | a bucket add stores the notification under its identity, replacing the older one |
| Notifications.AddSameIdentity | test/test_notification.py:40-69 | adding a present identity keeps the length and holds the new payload |
| Notifications.AddNewIdentity | test/test_notification.py:40-69 | adding a new identity grows the bucket by one |
| Notifications.BucketStoresLatest | test/test_notification.py:40-69 | the test's sequence of adds leaves two entries with the newer payload, and clear empties the bucket |
| Notifications.Clear | test/test_notification.py:40-69 | a cleared bucket is empty |
| Notifications.EnsureString | worker_bunch/notification.py:36-40 | a string comes back unchanged; bytes decode exactly when they are valid UTF-8, to the text they encode |
| Notifications.CreateFromMqtt | worker_bunch/notification.py:42-49 | an MQTT_MESSAGE notification of the decoded topic and payload, failing exactly when one does not decode |
| Notifications.StrAndBytesGiveSameNotification | worker_bunch/notification.py:42-49 | a message with string fields and the same message as UTF-8 bytes give the same notification |
| Utf8.DecodeEncode | worker_bunch/notification.py:36-40 | decoding the UTF-8 encoding of a text gives the text |
| Utf8.EncodeDecode | worker_bunch/notification.py:36-40 | bytes that decode are the encoding of what they decode to |
| Workers.CollectLists | worker_bunch/worker/worker.py:133-137 | collecting the listed notifications gives back the pending set |
| Workers.ListsNonEmpty | worker_bunch/worker/worker.py:133-141 | the list is empty exactly when the pending set is |
| Workers.CountAppend | worker_bunch/worker/worker.py:143-154 | counting calls in a trace adds up over concatenation |
| Workers.LoopAppends | worker_bunch/worker/worker.py:143-152 | the `while proceed()` loop only appends to the trace, never calls `_final_work`, and logs one exception exactly when the run fails |
| Workers.RunFinalWorkOnce | worker_bunch/worker/worker.py:143-154 | `run` calls `_final_work` exactly once on every way out, as its last call, and not while it loops |
| Workers.RunLogsOnlyFailures | worker_bunch/worker/worker.py:143-154 | `run` logs one exception when it fails and none when it shuts down or keeps looping |
| Workers.WorkShutdownEndsRun | worker_bunch/worker/worker.py:143-154 | a ShutdownException out of `_work` ends `run` as a shutdown with nothing logged, `_final_work` right after the work |
| Workers.RunSingleEnds | worker_bunch/worker/worker.py:156-166 | `run_single` finishes normally exactly when `_work` is not called or returns; shuts down exactly when closing or `_work` raises ShutdownException; fails, logging once, exactly when `_work` raises anything else |
| Workers.RunEnds | worker_bunch/worker/worker.py:143-154 | `run` ends by shutdown, by an exception, or is still looping |
| Workers.StoppedWorkerExits | worker_bunch/worker/worker.py:91-102 | a worker stopped in some pass has left its loop by the next `proceed` |
| Workers.LoopWorksNonEmpty | worker_bunch/worker/worker.py:168-172 | every `_work` call in a run gets a non-empty batch |
| Workers.RunSingleAtMostOnce | worker_bunch/worker/worker.py:156-166 | `run_single` calls `_final_work` once, last; a closing worker does no pass, otherwise at most one pass and nothing left pending |
| Workers.Worker.constructor | worker_bunch/worker/worker.py:33-47 | not set up, not closing, no settings, nothing pending |
| Workers.Worker.Setup | worker_bunch/worker/worker.py:55-64 | a second setup raises RuntimeError and changes nothing; the first sets the flag, the data dir, the settings (`{}` when falsy) and the proxy |
| Workers.Worker.Stop | worker_bunch/worker/worker.py:91-96 | the worker is closing |
| Workers.Worker.Proceed | worker_bunch/worker/worker.py:98-102 | passes exactly when not closing, else raises ShutdownException |
| Workers.Worker.AddNotifications | worker_bunch/worker/worker.py:129-131 | pending becomes the old pending united with the argument |
| Workers.Worker.ShouldHandlePendingNotifications | worker_bunch/worker/worker.py:139-141 | true exactly when something is pending |
| Workers.Worker.GetAndResetNotifications | worker_bunch/worker/worker.py:133-137 | returns exactly the pending elements, each once, and leaves pending empty |
| Workers.Worker.Work | worker_bunch/worker/worker.py:174-177 | records the `_work` call with its batch, and raises exactly what the hook raises (a ShutdownException from a `proceed` inside it, or any other exception) |
| Workers.Worker.CallFinalWork | worker_bunch/worker/worker.py:179-186 | records the `_final_work` call |
| Workers.Worker.LogException | worker_bunch/worker/worker.py:151-152 | records the logged exception |
| Workers.Worker.ProcessNotifications | worker_bunch/worker/worker.py:168-172 | `_work` runs only when something is pending, with all of it; pending is then empty, and what `_work` raises is passed on |
| Workers.Worker.SleepThrough | worker_bunch/worker/worker.py:112-113 | notifications arriving while asleep join the pending set, and a stop marks the worker closing |
| Workers.Worker.Run | worker_bunch/worker/worker.py:143-154 | the run follows RunSpec: a ShutdownException, from `proceed` or out of `_work`, ends it silently as a shutdown, any other exception is logged, and `_final_work` follows on every way out |
| Workers.Worker.RunSingle | worker_bunch/worker/worker.py:156-166 | the single run follows RunSingleSpec, with the same two `except` clauses as `run` |
| MqttProxies.SendsInOrder | worker_bunch/mqtt/mqtt_proxy.py:69-80 | publishing sends one client publish per queued message, in queue order |
| MqttProxies.SendsConcat | worker_bunch/mqtt/mqtt_proxy.py:69-80 | the sends of two queues in a row are the sends of the first then the second |
| MqttProxies.MqttProxy.constructor | worker_bunch/mqtt/mqtt_proxy.py:16-21 | an empty queue and no client calls |
| MqttProxies.MqttProxy.Publish | worker_bunch/mqtt/mqtt_proxy.py:69-80 | with a client, every queued message is sent in order and the queue is empty; without one nothing happens |
| MqttProxies.MqttProxy.Close | worker_bunch/mqtt/mqtt_proxy.py:23-25 | pending messages are published, then the client is dropped |
| MqttProxies.MqttProxy.ConnectClient | worker_bunch/mqtt/mqtt_proxy.py:27-30 | connects only when there is a client |
| MqttProxies.MqttProxy.IsConnected | worker_bunch/mqtt/mqtt_proxy.py:32-37 | true without a client, otherwise the client's answer |
| MqttProxies.MqttProxy.SetLastWillOf | worker_bunch/mqtt/mqtt_proxy.py:39-45 | raises exactly without a client; forwards only when topic and last will are truthy |
| MqttProxies.MqttProxy.Subscribe | worker_bunch/mqtt/mqtt_proxy.py:47-53 | an empty list does nothing; a non-empty one raises exactly without a client and is forwarded otherwise |
| MqttProxies.MqttProxy.GetMessages | worker_bunch/mqtt/mqtt_proxy.py:55-60 | the received messages, or none without a client |
| MqttProxies.MqttProxy.Queue | worker_bunch/mqtt/mqtt_proxy.py:62-67 | raises exactly without a client, leaving the queue; otherwise appends exactly one message at the end |
| Astral.ChainedComparison | worker_bunch/astral_times/astral_times_manager.py:45 | `1 > d < 18` holds exactly when d < 1 |
| Astral.AsWrittenAcceptsDepression22 | worker_bunch/astral_times/astral_times_manager.py:44-46 | a dawn at depression 22 passes the check as written, but not the intended one |
| Astral.IsValidMeans | worker_bunch/astral_times/astral_times_manager.py:29-48 | valid needs exactly one mode; a predefined time is valid; a dawn or dusk is valid exactly when its depression is from 1 to 18; validity implies the check as written |
| Astral.FindValue | worker_bunch/astral_times/astral_times_manager.py:143-145 | the enum search finds each astral time by its value |
| Astral.ParseValue | worker_bunch/astral_times/astral_times_manager.py:143-145 | each predefined value parses to its predefined result |
| Astral.ParseNormalises | worker_bunch/astral_times/astral_times_manager.py:142 | parsing a key is parsing it stripped and lower-cased |
| Astral.ParsedIsValid | worker_bunch/astral_times/astral_times_manager.py:139-160 | whatever parses is valid, under both the intended check and the one as written |
| Astral.ValidKeyIffParses | worker_bunch/astral_times/astral_times_manager.py:130-136 | a key is valid exactly when it parses |
| Astral.ParseTwilightKey | worker_bunch/astral_times/astral_times_manager.py:147-160 | `dawn`/`dusk` plus digits parses exactly when the number is from 1 to 18, to a dawn or dusk at that depression |
| Astral.ParseDawnDusk | worker_bunch/astral_times/astral_times_manager.py:147-158 | every depression from 1 to 18 parses back from its key |
| Astral.ParseBareDawn | worker_bunch/astral_times/astral_times_manager.py:147-160 | "dawn" alone raises ValueError |
| Astral.ParseSeparatorRefused | worker_bunch/astral_times/astral_times_manager.py:147-160 | "dawn", U+001C, "5" raises ValueError: `int()` skips only ASCII white space, not the separators U+001C to U+001F that `strip()` removes |
| Astral.ParseNumberExamples | worker_bunch/astral_times/astral_times_manager.py:147-160 | "dawn22" and "dawn0" raise; "dusk02" is a dusk at depression 2 |
| Astral.ParsePaddedName | worker_bunch/astral_times/astral_times_manager.py:142-145 | a predefined name in any letter case with white space around it parses to that time |
| Astral.ParsePadded | worker_bunch/astral_times/astral_times_manager.py:142-145 | "  Sunrise " parses to sunrise |
| Astral.RoundToMinuteBounds | worker_bunch/astral_times/astral_times_manager.py:163-167 | the result is a whole minute within 30 seconds of the input (down by less than 30 s, up by at most 30 s) |
| Astral.RoundToMinuteIdempotent | worker_bunch/astral_times/astral_times_manager.py:163-167 | rounding twice is rounding once |
| Astral.HalfMinuteRoundsUp | worker_bunch/astral_times/astral_times_manager.py:163-167 | half a minute rounds up |
| Astral.RoundToMinuteShift | worker_bunch/astral_times/astral_times_manager.py:163-167 | rounding commutes with shifting by whole minutes |
| Astral.RoundingExamples | test/astral_times/test_astral_time_manager.py:18-32 | the test's times round as expected, :30 up and across midnight |
| Astral.RoundToHourBounds | worker_bunch/astral_times/astral_times_manager.py:170-173 | a whole hour, the hour of the time rounded to the minute |
| Astral.RoundToHourOfHour | worker_bunch/astral_times/astral_times_manager.py:170-173 | a whole hour rounds to itself |
| Astral.RoundToHourIdempotent | worker_bunch/astral_times/astral_times_manager.py:170-173 | rounding to the hour twice is rounding once |
| Astral.HourOfMinuteSameDay | worker_bunch/astral_times/astral_times_manager.py:84-86 | a whole minute's hour lies on the same date |
| Astral.Recipe | worker_bunch/astral_times/astral_times_manager.py:182-212 | a dawn or dusk key asks for dawn or dusk at its own depression |
| Astral.CalcAstralTimeByDate | worker_bunch/astral_times/astral_times_manager.py:176-220 | the calculation depends on the pivot only through its date and gives whole minutes |
| Astral.AstralTimesManager.constructor | worker_bunch/astral_times/astral_times_manager.py:61-72 | an empty cache kept for the hour of the creation time |
| Astral.AstralTimesManager.ResetCache | worker_bunch/astral_times/astral_times_manager.py:80-82 | the cache is emptied and kept for the given time's hour |
| Astral.AstralTimesManager.GetOrCalc | worker_bunch/astral_times/astral_times_manager.py:84-96 | the cache is emptied when the pivot's hour differs; a cached time answers; without an observer a miss raises ConfigException; an unparsable key raises ValueError; otherwise the calculated time is stored under the raw key; a cached answer always equals the calculation |
| Astral.AstralTimesManager.LookupByDate | worker_bunch/astral_times/astral_times_manager.py:84-96 | a key's answer depends on the pivot only through its date |
| Astral.AstralTimesManager.Hits | worker_bunch/astral_times/astral_times_manager.py:98-104 | whether the key's time is the pivot rounded to the minute, as the uncached calculation says; it fails only for a missing observer or an unparsable key; the cache is then kept for the pivot's hour and is the old cache (or an empty one after an hour change), with the key's calculated time added exactly when it was calculated |
| DatabaseWorkers.Prepares | worker_bunch/database/database_worker.py:66-69 | one prepared step per configured step |
| DatabaseWorkers.PreparesAt | worker_bunch/database/database_worker.py:66-69 | step i is prepared on its own configuration and index |
| DatabaseWorkers.PrepareNormalises | worker_bunch/database/database_worker.py:158-161 | a "none" or empty output type becomes None, retain becomes a bool, and the other fields stay |
| DatabaseWorkers.StatementIssues | worker_bunch/database/database_worker.py:168-186 | preparing the statement only reports script and empty-statement issues |
| DatabaseWorkers.PrepareTopicIssue | worker_bunch/database/database_worker.py:163-164 | a missing topic is reported exactly when the step has no topic but a last will or an output |
| DatabaseWorkers.PrepareStatementStripped | worker_bunch/database/database_worker.py:180-186 | a prepared statement is stripped, with an issue exactly when it is empty |
| DatabaseWorkers.StatementFirst | worker_bunch/database/database_worker.py:169-183 | a step's own statement wins over its script file and gets the merged replacements, then is stripped |
| DatabaseWorkers.ReplaceAllAppend | worker_bunch/database/database_worker.py:180-181 | replacing with a + b is replacing with a, then with b |
| DatabaseWorkers.ReplaceAllSingle | worker_bunch/database/database_worker.py:180-181 | one pattern replaces every occurrence: split at it and joined with the replacement |
| DatabaseWorkers.MergedReplacement | worker_bunch/database/database_worker.py:179 | the step's map overrides the worker's map key by key, keeping the worker's order and appending new keys |
| DatabaseWorkers.SetupFoldAll | worker_bunch/database/database_worker.py:56-72 | without a crash every step is kept as prepared, and issues were pushed exactly when some step had one |
| DatabaseWorkers.SetupPreparesAll | worker_bunch/database/database_worker.py:56-72 | setup prepares every step even after an error, and raises ConfigException exactly when some step pushed an error |
| DatabaseWorkers.SetupPassRunnable | worker_bunch/database/database_worker.py:56-72 | a passing setup leaves every publishing step with a topic |
| DatabaseWorkers.SetupCrashes | worker_bunch/database/database_worker.py:66-69 | once a Python error escapes, no later step is prepared |
| DatabaseWorkers.WillsAppend | worker_bunch/database/database_worker.py:80-83 | the last wills of two step lists in a row concatenate |
| DatabaseWorkers.WillsMembers | worker_bunch/database/database_worker.py:80-83 | a message is a last will exactly when some step with a topic and a last will gives it |
| DatabaseWorkers.WillOwner | worker_bunch/database/database_worker.py:80-83 | each last will names the step that gives it |
| DatabaseWorkers.WillKept | worker_bunch/database/database_worker.py:80-83 | every step's last will is among the last wills |
| DatabaseWorkers.WillCallsInOrder | worker_bunch/database/database_worker.py:80-83 | one set-last-will call per message, in step order |
| DatabaseWorkers.WillProgressDone | worker_bunch/database/database_worker.py:80-83 | the set-last-will loop has registered every last will, or none when there is no client |
| DatabaseWorkers.QueueProgressDone | worker_bunch/database/database_worker.py:126-129 | the final-work loop has queued every last will, or none when there is no client |
| DatabaseWorkers.RowJson | worker_bunch/database/database_worker.py:131-136 | the row dict holds each column with its JSON value, in order |
| DatabaseWorkers.FormatIntParses | worker_bunch/database/database_worker.py:138-147 | `str` of an integer reads back as that integer |
| DatabaseWorkers.Runs | worker_bunch/database/database_worker.py:95-121 | one step run per step |
| DatabaseWorkers.RunsMatch | worker_bunch/database/database_worker.py:95-121 | each step run is that step's own run |
| DatabaseWorkers.WorkFoldFails | worker_bunch/database/database_worker.py:95-121 | once a step raises, no later step runs |
| DatabaseWorkers.StepRunPass | worker_bunch/database/database_worker.py:98-113 | a step run that passes ran before closing and made one commit or rollback |
| DatabaseWorkers.RunsCallOnce | worker_bunch/database/database_worker.py:98-113 | this holds for every step run |
| DatabaseWorkers.WorkPrefixPass | worker_bunch/database/database_worker.py:95-121 | after k passing runs, the log holds their k database calls in order |
| DatabaseWorkers.WorkPassRunsAll | worker_bunch/database/database_worker.py:88-124 | a `_work` that does not raise ran every step: one commit or rollback each, a rollback exactly after a database error |
| DatabaseWorkers.WorkStopped | worker_bunch/database/database_worker.py:95-98 | a worker found closing before its last step raises |
| DatabaseWorkers.FieldsOf | worker_bunch/database/database_worker.py:20-31 | the fields of each step, one per step |
| DatabaseWorkers.Step.constructor | worker_bunch/database/database_worker.py:155-156 | `Step(**config_step)` takes the configured fields |
| DatabaseWorkers.DatabaseWorker.constructor | worker_bunch/database/database_worker.py:38-45 | no steps, replacements or logged issues |
| DatabaseWorkers.DatabaseWorker.LoadStatement | worker_bunch/database/database_worker.py:169-177 | a step without a statement reads its script file; a missing file is reported and stops, an unreadable one is reported, a missing path raises |
| DatabaseWorkers.DatabaseWorker.ApplyReplacements | worker_bunch/database/database_worker.py:180-181 | every pattern is replaced, in the merged map's order |
| DatabaseWorkers.DatabaseWorker.PrepareStepStatement | worker_bunch/database/database_worker.py:168-186 | the statement and issues become those of PrepareStatementSpec, whose properties the lemmas above state |
| DatabaseWorkers.DatabaseWorker.PrepareStep | worker_bunch/database/database_worker.py:158-166 | the step and issues become those of PrepareSpec |
| DatabaseWorkers.DatabaseWorker.AddStep | worker_bunch/database/database_worker.py:66-69 | one new step is created, appended and prepared |
| DatabaseWorkers.DatabaseWorker.Setup | worker_bunch/database/database_worker.py:47-72 | the steps, the logged issues and the outcome are those of SetupSpec |
| DatabaseWorkers.DatabaseWorker.PrepareSteps | worker_bunch/database/database_worker.py:66-69 | the loop keeps each prepared step until an error escapes |
| DatabaseWorkers.DatabaseWorker.PrepareNext | worker_bunch/database/database_worker.py:66-69 | one iteration of that loop |
| DatabaseWorkers.DatabaseWorker.RegisterWill | worker_bunch/database/database_worker.py:80-83 | registers a step's last will; raises exactly when it has one and there is no client |
| DatabaseWorkers.DatabaseWorker.SetLastWill | worker_bunch/database/database_worker.py:80-83 | registers the last will of exactly the steps with a topic and a last will, in step order; raises exactly when there is one and no client |
| DatabaseWorkers.DatabaseWorker.RegisterNext | worker_bunch/database/database_worker.py:80-83 | one iteration of that loop |
| DatabaseWorkers.DatabaseWorker.QueueWill | worker_bunch/database/database_worker.py:126-129 | queues a step's last will; raises exactly when it has one and there is no client |
| DatabaseWorkers.DatabaseWorker.FinalWork | worker_bunch/database/database_worker.py:126-129 | queues the last will of exactly the steps with a topic and a last will, in step order; raises exactly when there is one and no client |
| DatabaseWorkers.DatabaseWorker.QueueNext | worker_bunch/database/database_worker.py:126-129 | one iteration of that loop |
| DatabaseWorkers.DatabaseWorker.RunStep | worker_bunch/database/database_worker.py:95-121 | one step: raise when closing; a database error rolls back; a publishing step queues its row (json or scalar), and a missing output raises; otherwise commit |
| DatabaseWorkers.DatabaseWorker.Work | worker_bunch/database/database_worker.py:88-124 | nothing without a CRON or SINGLE_STARTED notification; otherwise the queued messages, the database log and the outcome are those of WorkSpec |
| DatabaseWorkers.DatabaseWorker.RunSteps | worker_bunch/database/database_worker.py:95-121 | the step loop gives WorkFold of the step runs |
| DatabaseWorkers.DatabaseWorker.RunNext | worker_bunch/database/database_worker.py:95-121 | one iteration of that loop |
| ServiceLogging.ParseLogLevel | worker_bunch/service_logging.py:103-119 | a falsy value (0 included) is INFO; an integer is kept; a text is one of the four levels, INFO exactly when its stripped lower form is none of debug, warning, error |
| ServiceLogging.LevelNamesParse | worker_bunch/service_logging.py:107-115 | each of debug, info, warning, error reads as its level |
| ServiceLogging.ParsePaddedLevelName | worker_bunch/service_logging.py:107-115 | a level name in any letter case, padded with white space, reads as its level |
| ServiceLogging.ParseWarningPadded | worker_bunch/service_logging.py:107-115 | " WARNING " is the warning level |
| ServiceLogging.GetLogName | worker_bunch/service_logging.py:122-133 | an empty instance name, or one equal to the class name ignoring case, gives the class name |
| ServiceLogging.LogNameRecoversInstance | worker_bunch/service_logging.py:122-133 | the bracketed part is the lower-cased instance name exactly when it is non-empty and differs from the lower-cased class name |
| ServiceLogging.LogNameIgnoresCase | worker_bunch/service_logging.py:122-149 | both log names ignore the instance name's letter case |
| ServiceLogging.GetFullLogName | worker_bunch/service_logging.py:136-149 | an empty instance name gives the full class path |
| ServiceLogging.FullLogNameExtends | worker_bunch/service_logging.py:136-149 | the full log name is the module path before the short one, except exactly for an instance named like the full class path |
| WorkerFactory.SliceTo | worker_bunch/worker/worker_factory.py:26-28 | Python slicing up to an index, negative indices counting from the end |
| WorkerFactory.ResolveImportSplits | worker_bunch/worker/worker_factory.py:25-29 | with a '.', the class is the part after the last '.' and the module the part before it |
| WorkerFactory.ResolveImportJoined | worker_bunch/worker/worker_factory.py:25-29 | module + "." + class splits back into the two |
| WorkerFactory.ResolveImportUndotted | worker_bunch/worker/worker_factory.py:25-29 | without a '.', the class is the whole path and the module `path[0:-1]` |
| WorkerFactory.AliasedOthers | worker_bunch/worker/worker_factory.py:47-49 | a class path that is no alias is kept |
| WorkerFactory.PredefinedResolve | worker_bunch/worker/worker_factory.py:9-12 | the two predefined aliases resolve to their worker classes |
| WorkerFactory.CreateWorker | worker_bunch/worker/worker_factory.py:32-40 | creation succeeds exactly when the resolved class is a worker class, with the given name; otherwise it fails naming the class path |
| WorkerFactory.CreateWorkers | worker_bunch/worker/worker_factory.py:43-53 | the loop gives CreateWorkersSpec |
| WorkerFactory.AddWorker | worker_bunch/worker/worker_factory.py:46-53 | one iteration: the alias is resolved, and an entry with a name and a class path gets its worker |
| WorkerFactory.CreateWorkersStep | worker_bunch/worker/worker_factory.py:46-53 | one more entry is one more step of the loop |
| WorkerFactory.CreateWorkersStaysFailed | worker_bunch/worker/worker_factory.py:46-53 | a failed creation ends the loop |
| WorkerFactory.NextWorkersMeans | worker_bunch/worker/worker_factory.py:46-53 | one entry succeeds exactly when it is skipped or its class is a worker class; a kept entry is stored under its name |
| WorkerFactory.CreateWorkersFails | worker_bunch/worker/worker_factory.py:43-53 | creation succeeds exactly when every kept entry resolves to a worker class |
| WorkerFactory.CreateWorkersPasses | worker_bunch/worker/worker_factory.py:43-53 | if every kept entry resolves, creation succeeds |
| WorkerFactory.CreateWorkersFailsAt | worker_bunch/worker/worker_factory.py:43-53 | one kept entry that does not resolve makes creation fail |
| WorkerFactory.CreateWorkersOnlyConfigured | worker_bunch/worker/worker_factory.py:43-53 | no worker is created under a name that is not configured |
| WorkerFactory.CreateWorkersKeyed | worker_bunch/worker/worker_factory.py:43-53 | each configured name maps to its worker when kept, and to nothing when skipped |
| WorkerFactory.CreateWorkersKeyedAt | worker_bunch/worker/worker_factory.py:43-53 | for one configured entry: a passing run maps its name to the worker created from its resolved class path when the entry is kept, and to nothing when it is skipped |
| WorkerFactory.NextWorkersGet | worker_bunch/worker/worker_factory.py:45-53 | one more configured entry changes only the lookup of its own name, and only when the entry is kept |
| WorkerFactory.ExtractWorkersSettingsDeclarations | worker_bunch/worker/worker_factory.py:56-63 | exactly the input's names, in order, each with its worker's schema and required flag |
| ServiceConfigurator.NameArray | worker_bunch/service_configurator.py:100-101 | the required list as a JSON array of the names, in order |
| ServiceConfigurator.WorkerSettingsSchema | worker_bunch/service_configurator.py:103 | an object schema with the entries as properties, the required names, and additionalProperties false |
| ServiceConfigurator.ExtendedSchema | worker_bunch/service_configurator.py:86-104 | fails exactly when the base has no "properties" object; otherwise the base with only "properties"."worker_settings" put |
| ServiceConfigurator.CreateExtendedJsonSchema | worker_bunch/service_configurator.py:86-104 | the loop collects the entries and required names of ExtendedSchema |
| ServiceConfigurator.GenerateConfigFileJsonSchema | worker_bunch/service_configurator.py:146-151 | no declarations give the base unchanged; otherwise the extended schema |
| ServiceConfigurator.ExtendedSchemaChangesOnlyWorkerSettings | worker_bunch/service_configurator.py:87-103 | every other key of the schema and of its properties is as in the base |
| ServiceConfigurator.SettingsEntriesUnknown | worker_bunch/service_configurator.py:97-99 | an undeclared name has no settings entry |
| ServiceConfigurator.SettingsEntriesGet | worker_bunch/service_configurator.py:97-99 | a declared name has an entry exactly when its schema is truthy, and the entry is that schema |
| ServiceConfigurator.SettingsEntriesDistinct | worker_bunch/service_configurator.py:97-99 | the entries have distinct names |
| ServiceConfigurator.RequiredPrefix | worker_bunch/service_configurator.py:100-101 | the names required by a prefix of the declarations come first |
| ServiceConfigurator.RequiredNameAt | worker_bunch/service_configurator.py:100-101 | every declaration with a schema and required set is in the list |
| ServiceConfigurator.RequiredNameFrom | worker_bunch/service_configurator.py:100-101 | everything in the list is such a declaration |
| ServiceConfigurator.RequiredInOrder | worker_bunch/service_configurator.py:100-101 | the list keeps declaration order |
| ServiceConfigurator.PermissionBits | worker_bunch/service_configurator.py:140 | the permission bits are below 0o1000 |
| ServiceConfigurator.OctalDigits | worker_bunch/service_configurator.py:141-142 | `oct` gives at least one digit |
| ServiceConfigurator.OctalRoundTrip | worker_bunch/service_configurator.py:141-142 | the octal digits read back as the number |
| ServiceConfigurator.OctalSixHundred | worker_bunch/service_configurator.py:141 | the digits are "600" exactly for 0o600 |
| ServiceConfigurator.CheckConfigFileAccess | worker_bunch/service_configurator.py:136-143 | passes exactly for a file whose permission bits are 0o600; a missing file fails as not found, other bits name them in octal |

## Left out

- The rx debounce pipeline, the observers and disposables, and the sleep in
  `close` are timing and concurrency (worker_bunch/dispatcher.py:72-81,
  122-132, 205-207). A tick marks the listener in `ticked`, and
  `DebounceElapsed` is the pipeline firing.
- `schedule` jobs and `schedule.run_pending` are foreign libraries, and so is
  `pycron.has_been`. The timer job is `TimerClosure`, and `has_been` is the
  function parameter `hasBeen`.
- The sun calculation in the astral library is float numerics in a foreign
  library: it is the function parameter `sun`. `get_astral_time`,
  `get_astral_times` and `get_location` are not part of this model.
- `TimeUtils.now()` and every clock become parameters: `now`, `pivot`, the
  creation time.
- File and OS access are I/O. The model takes their results as parameters:
  - `os.path.isfile` and `os.stat` become `isFile` and `stMode`;
  - script-file reading becomes a `FileLoad`.
- YAML and jsonschema loading, the locale and the data directory of
  service_configurator.py are file I/O. The base schema constant is a parameter.
- The SQL cursor, psycopg and the paho client are network and database I/O.
  A statement's first row, or a database error, is a `Fetch` parameter; a
  query that returns no row is not modelled. Client calls are logged values.
- `json.dumps` while publishing is serialisation: a dict payload stays a
  value.
- Logging output and the timing log in `_work` have no effect on state.
  `ServiceLogging.configure` is logging setup.
- Thread interleavings are modelled only at two points: the pass schedule of
  `run`, and the step at which a database worker is found closing.
- Notifications.NotificationType: holds SINGLE_STARTED, the member that
  worker_bunch/database/database_worker.py:89 and worker_bunch/runner.py:116
  use. The enum of worker_bunch/notification.py:7-10 lacks it: it has only
  CRON, TIMER and MQTT_MESSAGE. Against that file, a database worker's
  `_work` without a CRON notification evaluates `NT.SINGLE_STARTED` and
  raises AttributeError. The model's `DatabaseWorker.Work` instead returns
  with nothing done when there is neither a CRON nor a SINGLE_STARTED
  notification.
- Astral.CalcAstralTime: checks the corrected depression range of
  `IsValid`, where `calc_astral_time` calls the `is_valid` of
  worker_bunch/astral_times/astral_times_manager.py:45 as written. A direct
  call with a dawn at depression 22 is refused in the model but not in the
  source. Through `GetOrCalc` the two agree, because every parse result
  passes both checks (`ParsedIsValid`).
- Workers.Worker.Run: the schedule is finite, so a run that has not stopped
  by its end shows as `StillRunning`. An endless run is left out because
  Dafny only reasons about finite sequences.
- Python set iteration order is left out. A listener set is a Dafny `set`,
  and the lemmas show the order does not matter for the buckets.
- Floats: the debounce time is a `real`, and depressions are integers, the
  only values parsing produces.
- `lower()` is modelled for ASCII letters only, because Dafny strings have no
  Unicode case tables. `strip()` removes exactly the characters
  `str.isspace()` accepts (`PyStrings.IsSpace`), Unicode white space included.
- PyStrings.ParseInt: reads ASCII digits only. Python's `int()` also
  accepts the other Unicode decimal digits (a dawn key written with an
  Arabic-Indic five is a dawn at depression 5), which the model refuses,
  because Dafny strings have no Unicode digit tables. Around the digits it
  skips what `str.isspace()` accepts except U+001C to U+001F
  (`PyStrings.IsIntSpace`), as `int()` does.
- DatabaseWorkers.DatabaseWorker.LoadStatement: reads the script file through
  `DatabaseUtils.load_script_file`, which
  worker_bunch/database/database_worker.py:175 calls and
  test/database/test_database_utils.py:32 uses. The
  worker_bunch/database/database_utils.py of this model defines only
  `load_as_single_command` (line 7). Against that file, a step without a
  statement whose script file exists raises AttributeError, which the
  `except IOError` of line 176 does not catch, so `setup` fails. The model
  instead takes the file's text from its `FileLoad` parameter and goes on.
- The cron and connection-key settings of the database worker, and every
  `subscribe_notifications`, only wire a worker to the dispatcher through
  calls modelled above.
- `retain` is passed on as its truthiness. A missing retain stays missing
  only in the proxy's own calls.
- `create_worker` imports and constructs a class, which is reflection. The
  classes `_check_class` accepts are the parameter `workerClasses`.
- `parse_log_level` of Python values other than a missing value, an integer
  or a string is left out. A missing instance name in the log-name functions
  is the empty string, which the source treats alike.
- `deepcopy` of the base schema: values have no aliasing, so the base is never
  changed.
- `st_mode & 0o777` is written `stMode % 512`, which is the same for the
  non-negative modes that `stat` returns.
- The repeated comparison in `get_log_name` (worker_bunch/service_logging.py:129)
  is harmless and modelled as written.

## Findings

| source | as written | input that shows it | evidently intended | confidence | as-written member | corrected member |
|---|---|---|---|---|---|---|
| worker_bunch/astral_times/astral_times_manager.py:45 | `1 > self.depression < 18` is read as `1 > d and d < 18`, so only depressions below 1 are refused | a dawn with depression 22 passes `is_valid` | a depression from 1 to 18, the range `parse_astral_time_key` admits | not executed | Astral.AsWrittenAcceptsDepression22 | Astral.IsValidMeans |
| worker_bunch/dispatcher.py:113-115 | the duplicate-subscription guard looks up the listener object in `_observer_listener`, whose keys are `id(listener)` | subscribing the same listener twice: the second call goes through and creates a second observer | refuse a listener that is already subscribed | not executed | Dispatching.SecondSubscribeGoesThrough | Dispatching.Dispatcher.SubscribeMqttTopics |
