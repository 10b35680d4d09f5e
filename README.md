# sensors_analytics output: a Dafny model

A model of the Logstash output plugin `sensors_analytics`
(`lib/logstash/outputs/sensors_analytics.rb`), with proofs about it.

The plugin keeps one `BufferItem` per configured url. Each buffer has its own
ring of urls, rotated so that buffer *i* starts at url *i*, and its own per-url
send counters.

`multi_receive` handles each event of a batch:
- It parses the event's message as JSON.
- It derives a tag, either from the `hash_filed` fields or from the host and
  file/path of a filebeat or file input.
- It adds the `lib` and `project` fields.
- It picks a buffer with `tag.hash % @url.length`.
- It records the last offset seen per filebeat file.
- An event that raises anywhere in this is counted as a parse error.

`flush` posts a batch to the first usable url of its buffer's ring:
- A url that rejects the batch is disabled. It is skipped for 3 seconds.
- When every url of the ring is disabled, the buffer sleeps 5 seconds and
  scans again.
- When a send is accepted, the batch size is credited to that url.

`report` adds the buffers' counters up per url and in total. It moves the report
clock, and it lists and empties the filebeat status table.

The model is split into these modules:
- `UrlRing`: the ring as values. It covers `init_url_list`, the scan and sleep
  of `obtain_url`, and `disable_url`.
- `Delivery`: the retry loop of `flush` as a function of the ring, the clock and
  the send outcomes, with its properties.
- `Routing`: what happens to one event. It covers `buffer_index`,
  `concat_tag_from_hash_filed`, `filebeat_input?` (the predicate `IsFilebeat`),
  the tag fallback, `lib_detail` and the added fields.
- `Counters`: batch accounting, and the sums `report` computes.
- `StatusTables`: `@recent_filebeat_status` as an insertion-ordered hash.
- `Buffers`: the `BufferItem` class. Its methods update the ring and the counters
  in place, and each is proved against the functions above.
- `Plugin`: the `SensorsAnalytics` class. It covers `register`, `multi_receive`,
  `collect_filebeat_status`, `format_filebeat_report_and_clean` and `report`.
- `RestoredFlag`: the flush loop with `obtain_url` as evidently meant at line
  314, and the proof that the code as written behaves the same.

The model follows the code, not any summary of it:
- `report` computes the total send count by adding up the per-url sums. No
  running total is kept anywhere.
- A JSON message that is not an object is a parse error. So is a batch received
  when no urls are configured, because `% 0` raises.
- On the cooldown path, `obtain_url` writes `:ok`, not `:ok?` (line 314). The
  usable flag therefore stays false. `UrlEntry.revived` models the stray key.
- `ReviveActsAsRestore` proves that the next scan of the ring picks the same
  entry either way.
- `SlipIsHarmless` proves more: a flush as written and a flush as meant send
  to the same positions at the same times. They also leave rings that agree
  from the last send on, so the same holds for every later flush of the
  buffer, as long as the clock does not go back. For that reason the slip is
  not reported as a defect.

Interfaces with the outside world become parameters:
- The clock is an explicit `now`. One `sleep 5` advances it by exactly 5, and
  sends take no time.
- `outcomes[k]` is what the k-th `do_send` returns.
- `parse` is the JSON library.
- `tagHash` is Ruby's `String#hash`, and `nil` has a hash too.

## Model

| member | source | states |
|---|---|---|
| UrlRing.RingIndexStep | lib/logstash/outputs/sensors_analytics.rb:301 | one step of `(index + 1) % urls.length` moves to the next position, wrapping to 0 after the last |
| UrlRing.RingIndexReturns | lib/logstash/outputs/sensors_analytics.rb:301-302 | the walk from `start_index` is back at `start_index` after exactly `urls.length` steps and not before |
| UrlRing.RotationAt | lib/logstash/outputs/sensors_analytics.rb:294-302 | the k-th url appended is element k of the urls rotated to start at `start_index` |
| UrlRing.InitialRingIsRotation | lib/logstash/outputs/sensors_analytics.rb:292-304 | the ring is the configured list rotated to start at `start_index`: same urls with the same multiplicities, first entry `urls[start_index]`, every entry usable |
| UrlRing.RotatedIsConfigured | lib/logstash/outputs/sensors_analytics.rb:236-239 | every url of a rotated ring is a configured url, so it has a counter |
| UrlRing.FirstEligibleFrom | lib/logstash/outputs/sensors_analytics.rb:311-317 | the scan returns a usable entry with no usable entry before it, or none when no entry from the start position is usable |
| UrlRing.Obtain | lib/logstash/outputs/sensors_analytics.rb:309-321 | obtain_url ends, and returns the first entry usable at the time of its last scan, which follows a whole number of 5-second sleeps |
| UrlRing.ObtainSleepsOnlyWhenAllDown | lib/logstash/outputs/sensors_analytics.rb:310-320 | every scan before the last found no usable entry, so the loop sleeps only while the whole ring is down |
| UrlRing.ObtainSleepsAtMostOnce | lib/logstash/outputs/sensors_analytics.rb:313-319 | when every failure is in the past, one 5-second sleep outlasts the 3-second cooldown, so obtain_url sleeps at most once |
| UrlRing.Revive | lib/logstash/outputs/sensors_analytics.rb:313-315 | choosing an entry through the cooldown writes the stray `:ok` key only; no usable flag, failure time or url of the ring changes |
| UrlRing.Disable | lib/logstash/outputs/sensors_analytics.rb:325-328 | the entry becomes unusable with the failure time `now`; no other entry and no url changes |
| UrlRing.SameEligibilitySameScan | lib/logstash/outputs/sensors_analytics.rb:311-317 | the scan depends only on which entries are usable |
| UrlRing.ReviveActsAsRestore | lib/logstash/outputs/sensors_analytics.rb:313-315 | the next scan of the ring as obtain_url left it, at the same time or later, picks the same entry whether `:ok` or `:ok?` was written |
| UrlRing.Eligible | lib/logstash/outputs/sensors_analytics.rb:312-313 | (definition) an entry is usable when its flag is set or more than 3 seconds have passed since its failure |
| UrlRing.InitialRing | lib/logstash/outputs/sensors_analytics.rb:292-304 | (definition) entry k holds url `(start + k) % n` of the configuration, usable, stamped with now; its properties are in InitialRingIsRotation |
| Delivery.Start | lib/logstash/outputs/sensors_analytics.rb:277 | flush's first obtain_url gives a position of the ring, chosen no earlier than the flush began, with the ring's urls unchanged |
| Delivery.Next | lib/logstash/outputs/sensors_analytics.rb:280-283 | a failed send (disable, then obtain again) keeps the ring's urls and order, and the clock does not go back |
| Delivery.Advance | lib/logstash/outputs/sensors_analytics.rb:279-285 | after any number of failed sends the cursor is still on a position of the same ring, at a time no earlier than the start |
| Delivery.PositionsAt | lib/logstash/outputs/sensors_analytics.rb:279-285 | send j goes to the position the cursor stands on after j failures |
| Delivery.FirstSuccess | lib/logstash/outputs/sensors_analytics.rb:279 | the first send that succeeds; every earlier send failed |
| Delivery.Retry | lib/logstash/outputs/sensors_analytics.rb:277-285 | the loop makes one send per outcome up to the first success, each to a position of the ring |
| Delivery.RetryEnd | lib/logstash/outputs/sensors_analytics.rb:279-286 | the last position tried, and the time it was chosen, are where the cursor stands after the failures |
| Delivery.RetryStopsAtFirstSuccess | lib/logstash/outputs/sensors_analytics.rb:279-285 | exactly one send per outcome up to and including the first success, each chosen no earlier than the flush began; the ring keeps its urls and order |
| Delivery.NextEntry | lib/logstash/outputs/sensors_analytics.rb:282-283 | one failed send disables the position sent to, stamped with the send's time; other entries keep their flag and failure time |
| Delivery.AdvanceEntry | lib/logstash/outputs/sensors_analytics.rb:279-285 | after k failed sends an entry is unusable exactly when it was before or was sent to; entries sent to carry a failure time from this run; the others keep theirs |
| Delivery.AdvanceMarksFailures | lib/logstash/outputs/sensors_analytics.rb:279-285 | the same for every entry of the ring at once |
| Delivery.RetryMarksFailures | lib/logstash/outputs/sensors_analytics.rb:279-285 | flush disables every url whose send failed, and only those; an entry never sent to is unchanged |
| Delivery.SingleUrlAdvance | lib/logstash/outputs/sensors_analytics.rb:318-319 | on a one-url ring, each failure is followed by exactly one 5-second sleep before the url is chosen again |
| Delivery.SingleUrlRetry | lib/logstash/outputs/sensors_analytics.rb:277-285 | a single url that fails n times and then accepts gets n + 1 sends, the last one 5n seconds after the start |
| Delivery.FailoverToNextUrl | lib/logstash/outputs/sensors_analytics.rb:277-285 | when the first url rejects and the second accepts, the batch goes to the second at once, with no sleep |
| Routing.IsFilebeat | lib/logstash/outputs/sensors_analytics.rb:159-165 | (definition) an event is a filebeat event when `[agent][type]` or `[@metadata][beat]` is "filebeat" |
| Routing.LibDetail | lib/logstash/outputs/sensors_analytics.rb:93-104 | (definition) "host##file" for filebeat events, "host##path" when both are set, otherwise the empty string |
| Routing.BufferIndex | lib/logstash/outputs/sensors_analytics.rb:140-142 | with urls configured, the index is a valid buffer (Ruby's `%` is never negative for a positive divisor); with none it raises |
| Routing.ConcatTag | lib/logstash/outputs/sensors_analytics.rb:146-155 | the tag is nil exactly when `hash_filed` is unset or empty |
| Routing.ConcatFieldsAppend | lib/logstash/outputs/sensors_analytics.rb:149-151 | the tag is the fields' texts appended in configured order |
| Routing.ConcatFieldsAgree | lib/logstash/outputs/sensors_analytics.rb:146-155 | the tag depends only on the `hash_filed` fields |
| Routing.DeriveTag | lib/logstash/outputs/sensors_analytics.rb:88-106 | the `hash_filed` tag wins; without it, filebeat events use host name + file path, and file inputs use host + path; otherwise the tag is nil |
| Routing.Enrich | lib/logstash/outputs/sensors_analytics.rb:108-115 | the record gains `lib` (with `$lib_detail`), and `project` when configured; every other field is kept |
| Routing.Process | lib/logstash/outputs/sensors_analytics.rb:86-122 | an event is a parse error exactly when its message does not parse to a JSON object or no url is configured; otherwise it goes to a valid buffer with the `lib` field set |
| Routing.SameHashFieldsSameBuffer | lib/logstash/outputs/sensors_analytics.rb:117-118 | events that agree on the `hash_filed` fields go to the same buffer |
| Routing.StatusUpdate | lib/logstash/outputs/sensors_analytics.rb:89-95 | the status is recorded exactly for parsed filebeat events with status reporting on, with the event's `[log][offset]` |
| Counters.EveryEventCountedOnce | lib/logstash/outputs/sensors_analytics.rb:85-122 | parse errors plus the records handed to the buffers make up the whole batch |
| Counters.Credit | lib/logstash/outputs/sensors_analytics.rb:286 | the url's counter grows by n (a missing counter counts 0), every other counter stays, and the url becomes a key |
| Counters.UrlSums | lib/logstash/outputs/sensors_analytics.rb:194-204 | the per-url totals are keyed by exactly the configured urls |
| Counters.Dedup | lib/logstash/outputs/sensors_analytics.rb:194-197 | the sum hash's keys are the configured urls, each once |
| Counters.ReportTotalIsAllSends | lib/logstash/outputs/sensors_analytics.rb:199-209 | the total of the per-url sums is every send of every buffer |
| Counters.CreditRaisesSum | lib/logstash/outputs/sensors_analytics.rb:286 | crediting n to one url raises the buffer's sum by exactly n |
| Counters.CreditRaisesAllSends | lib/logstash/outputs/sensors_analytics.rb:286 | a flush of n events raises every-send-of-every-buffer, and with it the next report's total, by exactly n |
| StatusTables.Collect | lib/logstash/outputs/sensors_analytics.rb:169-178 | the file now holds (now, offset); a new file is appended to the order, a known one keeps its place; no other entry changes |
| StatusTables.CollectAll | lib/logstash/outputs/sensors_analytics.rb:169-178 | any run of updates keeps each file once in the order, with exactly the map's keys |
| StatusTables.CollectAllKeepsLatest | lib/logstash/outputs/sensors_analytics.rb:169-178 | after a run of updates, each file holds the offset of its last update; files not updated are as before |
| StatusTables.CollectAllKeepsOrder | lib/logstash/outputs/sensors_analytics.rb:169-178 | files already in the table keep their places; new files come after them |
| StatusTables.Entries | lib/logstash/outputs/sensors_analytics.rb:184-186 | the listing has one line per file, in insertion order, each with that file's status |
| Buffers.ScanRing | lib/logstash/outputs/sensors_analytics.rb:311-317 | the `each` loop returns the first usable entry, or none when no entry is usable |
| Buffers.PostsAt | lib/logstash/outputs/sensors_analytics.rb:279 | send j posts the whole form data to the url of the entry the cursor stands on after j failures |
| Buffers.FlushPostsTried | lib/logstash/outputs/sensors_analytics.rb:279-285 | flush posts the batch once per send, in order, to the url of each position it tried |
| Buffers.BufferItem.constructor | lib/logstash/outputs/sensors_analytics.rb:232-248 | a zero counter per configured url, the rotated ring, an empty queue |
| Buffers.BufferItem.InitUrlList | lib/logstash/outputs/sensors_analytics.rb:292-304 | the loop builds exactly the rotated ring of fresh entries, and ends |
| Buffers.BufferItem.ObtainUrl | lib/logstash/outputs/sensors_analytics.rb:309-321 | the returned entry is the first one usable at the time of the final scan; the ring changes only by the stray `:ok` key |
| Buffers.BufferItem.DisableUrl | lib/logstash/outputs/sensors_analytics.rb:325-328 | the entry is disabled in place, with its failure time set to now |
| Buffers.BufferItem.BufferReceive | lib/logstash/outputs/sensors_analytics.rb:118 | the record is appended to the buffer's queue |
| Buffers.BufferItem.SendUntilAccepted | lib/logstash/outputs/sensors_analytics.rb:277-285 | the `until` loop leaves the ring and makes the sends exactly as `Retry` says, and returns the position that accepted |
| Buffers.BufferItem.Flush | lib/logstash/outputs/sensors_analytics.rb:269-287 | flush leaves the ring as `Retry` says, posts `{data_list, gzip: 1}` once per send, and credits the batch size to the url that accepted it; the other counters are unchanged |
| Plugin.BatchIsAccountedFor | lib/logstash/outputs/sensors_analytics.rb:85-122 | every event of a batch is either a parse error or a record in exactly one configured buffer |
| Plugin.OutcomesAt | lib/logstash/outputs/sensors_analytics.rb:85-123 | the k-th outcome of a batch is what its k-th event comes to |
| Plugin.BatchStep | lib/logstash/outputs/sensors_analytics.rb:85-123 | one more event adds its parse error or its record, and its status update |
| Plugin.ZeroSums | lib/logstash/outputs/sensors_analytics.rb:194-197 | a zero sum for each configured url |
| Plugin.AddCounts | lib/logstash/outputs/sensors_analytics.rb:199-204 | each url's sum grows by the buffer's counter for it; no other sum changes |
| Plugin.SumCounts | lib/logstash/outputs/sensors_analytics.rb:206-209 | the total is the sum of the per-url sums |
| Plugin.UrlSumsStep | lib/logstash/outputs/sensors_analytics.rb:199-204 | adding one more buffer's hash extends the per-url totals by its counters |
| Plugin.SensorsAnalytics.Register | lib/logstash/outputs/sensors_analytics.rb:39-78 | the configuration is stored as given; one distinct buffer per url, buffer j rotated to start at url j, zero counters, report clock at now, empty status table |
| Plugin.SensorsAnalytics.CollectFilebeatStatus | lib/logstash/outputs/sensors_analytics.rb:169-178 | the table changes as `Collect` says |
| Plugin.SensorsAnalytics.PrepareRecord | lib/logstash/outputs/sensors_analytics.rb:86-117 | the begin block gives `Process`'s outcome and records the filebeat status exactly when `StatusUpdate` says, even when the record then raises |
| Plugin.SensorsAnalytics.ReceiveOne | lib/logstash/outputs/sensors_analytics.rb:86-122 | the event goes into one buffer's queue, or the parse error counter goes up by one; no other queue changes |
| Plugin.SensorsAnalytics.ReceiveNext | lib/logstash/outputs/sensors_analytics.rb:85-123 | one more turn of `events.each` extends the counters, queues and table by that event |
| Plugin.SensorsAnalytics.ReceiveEach | lib/logstash/outputs/sensors_analytics.rb:85-123 | after the loop, parse errors, each buffer's new records (in batch order) and the status table are those of the whole batch |
| Plugin.SensorsAnalytics.MultiReceive | lib/logstash/outputs/sensors_analytics.rb:82-124 | an empty batch changes nothing; otherwise the receive count grows by the batch size and every event is routed as `Outcomes` says |
| Plugin.SensorsAnalytics.FormatFilebeatReportAndClean | lib/logstash/outputs/sensors_analytics.rb:182-189 | the report lists the table's entries in insertion order, and the table is then empty |
| Plugin.SensorsAnalytics.SumBufferCounts | lib/logstash/outputs/sensors_analytics.rb:199-204 | the per-url sums are each url's counter added over all buffers |
| Plugin.SensorsAnalytics.AggregateSendCounts | lib/logstash/outputs/sensors_analytics.rb:193-209 | the sum hash has exactly the configured urls as keys; the total is every send of every buffer |
| Plugin.SensorsAnalytics.StampReport | lib/logstash/outputs/sensors_analytics.rb:212-213 | the report count and time now describe this report |
| Plugin.SensorsAnalytics.Report | lib/logstash/outputs/sensors_analytics.rb:193-221 | the log carries the per-url sums, the total, the sends and seconds since the last report, and the receive and error counts; the clock moves to now; with status reporting on, the table is listed and emptied |
| RestoredFlag.RestoredStart | lib/logstash/outputs/sensors_analytics.rb:313-315 | flush's first obtain_url as meant: the entry taken gets its usable flag back |
| RestoredFlag.RestoredRetry | lib/logstash/outputs/sensors_analytics.rb:277-285 | the retry loop with obtain_url as meant: one send per outcome up to the first success |
| RestoredFlag.AgreeSameObtain | lib/logstash/outputs/sensors_analytics.rb:309-321 | on rings that agree, obtain_url takes the same entry after the same sleeps |
| RestoredFlag.AgreeDisable | lib/logstash/outputs/sensors_analytics.rb:325-328 | disable_url keeps two rings in agreement |
| RestoredFlag.AgreePick | lib/logstash/outputs/sensors_analytics.rb:313-315 | taking a usable entry, as written (flag left) and as meant (flag set), gives rings that agree from that time on |
| RestoredFlag.AgreeNext | lib/logstash/outputs/sensors_analytics.rb:280-283 | one failed send, as written and as meant, keeps the cursors on the same position at the same time |
| RestoredFlag.AgreeAdvance | lib/logstash/outputs/sensors_analytics.rb:279-285 | after any number of failed sends, both loops have sent to the same positions at the same times |
| RestoredFlag.SlipIsHarmless | lib/logstash/outputs/sensors_analytics.rb:314 | a flush as written and a flush as meant try the same positions at the same times, and leave rings that agree for the next flush |

## Left out

- HTTP: `do_send` and the HTTP client are not modelled. Each send's result is a parameter (`outcomes`).
- `user_agent` and the client configuration in `register` are not modelled.
- Encoding: the JSON encoding of the batch, its gzip compression and its Base64 encoding are not modelled. The form data carries the batch itself.
- Stud::Buffer is not modelled: its queue limits, its flush triggers, its timer thread and the `final` flag of `flush`. `buffer_receive` only appends to the buffer's queue. `Flush` is given its batch.
- `close` is not modelled, nor the report thread's `sleep 60` loop. Both are thread and shutdown control.
- Logging is not modelled (`@logger`, and the warn lines inside the retry loop). The report is returned as a value.
- Report: the speed is a float quotient and is not computed. The log carries its numerator (`sentSinceLast`) and its denominator (`elapsed`).
- Time: the clock is whole seconds. `Time.now - fail_time > 3` is compared on integers, not on floats.
- Buffers.BufferItem.ObtainUrl: the clock advances only through the 5-second sleeps. Time passing inside a scan, or during a send, is not modelled.
- Buffers.BufferItem.Flush: requires that some send eventually succeeds. A run where every send fails never returns in the source, and that run is not modelled.
- Buffers.BufferItem.SendUntilAccepted: requires that some send eventually succeeds, for the same reason as `Flush`.
- Status hashes: in the source, `collect_filebeat_status` updates a status hash in place. The model treats status hashes as values. No other reference to a status hash escapes, so nothing observes the difference.
- Status reporting off: the source leaves `@recent_filebeat_status` nil when status reporting is off. The model keeps an empty table, and no code path reads or writes it then.
- Event fields: they are seen through `event.get` as text. Non-string field values appear as their `to_s`.
- Ruby's `String#hash` is seeded per process. The model takes it as the fixed function `tagHash`.
