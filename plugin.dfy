/**
 * The output plugin itself: one BufferItem per configured url, the counters
 * multi_receive keeps, the recent filebeat status table, and the report that
 * adds the buffers' send counters up. The methods follow the source's loops
 * and are proved against the functions of Routing, Counters and StatusTables.
 */
module Plugin {
  import opened Common
  import opened UrlRing
  import opened Delivery
  import opened Routing
  import opened Counters
  import opened StatusTables
  import opened Buffers

  /** What each event of a batch comes to, in batch order. */
  function Outcomes(events: seq<Event>, cfg: Config, parse: string -> Option<Json>, hash: Option<string> -> int): (os: seq<Outcome>)
    ensures |os| == |events|
  {
    if events == [] then []
    else Outcomes(events[..|events| - 1], cfg, parse, hash) + [Process(events[|events| - 1], cfg, parse, hash)]
  }

  /** The (lib_detail, offset) pairs a batch records in the status table, in batch order. */
  function StatusUpdates(events: seq<Event>, cfg: Config, parse: string -> Option<Json>): seq<(string, Option<string>)>
  {
    if events == [] then []
    else
      StatusUpdates(events[..|events| - 1], cfg, parse) +
      match StatusUpdate(events[|events| - 1], cfg, parse)
      case None => []
      case Some(u) => [u]
  }

  /**
   * multi_receive accounts for every event of a batch exactly once: each is
   * either a parse error or handed to exactly one of the configured buffers.
   */
  lemma BatchIsAccountedFor(events: seq<Event>, cfg: Config, parse: string -> Option<Json>, hash: Option<string> -> int)
    ensures Errors(Outcomes(events, cfg, parse, hash)) + RoutedCount(Outcomes(events, cfg, parse, hash), cfg.urlCount) == |events|
  {
    var os := Outcomes(events, cfg, parse, hash);
    forall k | 0 <= k < |os| && os[k].Buffered?
      ensures os[k].index < cfg.urlCount
    {
      OutcomesAt(events, cfg, parse, hash, k);
    }
    EveryEventCountedOnce(os, cfg.urlCount);
  }

  /** The k-th outcome of a batch is what its k-th event comes to. */
  lemma {:induction false} OutcomesAt(events: seq<Event>, cfg: Config, parse: string -> Option<Json>, hash: Option<string> -> int, k: nat)
    requires k < |events|
    ensures Outcomes(events, cfg, parse, hash)[k] == Process(events[k], cfg, parse, hash)
    decreases |events|
  {
    if k < |events| - 1 {
      OutcomesAt(events[..|events| - 1], cfg, parse, hash, k);
    }
  }

  /** What one more event adds to the batch's outcomes and to the status table. */
  lemma BatchStep(events: seq<Event>, k: nat, cfg: Config, parse: string -> Option<Json>, hash: Option<string> -> int,
                  t: StatusTable, now: int)
    requires k < |events| && WellFormed(t)
    ensures var os := Outcomes(events[..k], cfg, parse, hash);
      var o := Process(events[k], cfg, parse, hash);
      && Errors(Outcomes(events[..k + 1], cfg, parse, hash)) == Errors(os) + (if o.ParseError? then 1 else 0)
      && (forall j: nat :: RoutedTo(Outcomes(events[..k + 1], cfg, parse, hash), j)
            == RoutedTo(os, j) + (if o.Buffered? && o.index == j then [o.record] else []))
    ensures var before := CollectAll(t, StatusUpdates(events[..k], cfg, parse), now);
      CollectAll(t, StatusUpdates(events[..k + 1], cfg, parse), now) ==
        match StatusUpdate(events[k], cfg, parse)
        case None => before
        case Some(u) => Collect(before, u.0, u.1, now)
  {
    var os := Outcomes(events[..k], cfg, parse, hash);
    var o := Process(events[k], cfg, parse, hash);
    var us := StatusUpdates(events[..k], cfg, parse);
    assert events[..k + 1][..k] == events[..k];
    assert Outcomes(events[..k + 1], cfg, parse, hash) == os + [o];
    assert (os + [o])[..|os|] == os;
    match StatusUpdate(events[k], cfg, parse)
    case None =>
      assert StatusUpdates(events[..k + 1], cfg, parse) == us;
    case Some(u) =>
      assert StatusUpdates(events[..k + 1], cfg, parse) == us + [u];
      assert (us + [u])[..|us|] == us;
  }

  lemma AppendAssoc<T>(a: seq<T>, b: seq<T>, c: seq<T>)
    ensures (a + b) + c == a + (b + c)
  {
  }

  /** The first loop of report: a zero counter per url. */
  method ZeroSums(keys: seq<string>) returns (sums: map<string, nat>)
    ensures sums == map u | u in keys :: 0
  {
    sums := map[];
    for k := 0 to |keys|
      invariant sums == map u | u in keys[..k] :: 0
    {
      assert keys[..k + 1] == keys[..k] + [keys[k]];
      sums := sums[keys[k] := 0];
    }
    assert keys[..|keys|] == keys;
  }

  /**
   * The inner loop of report: `url_send_count_sum[url] += count` for each url
   * of one buffer's hash. The source walks the buffer's own hash; the loop here
   * walks `keys`, the configured urls. The two are the same walk because every
   * buffer's hash has exactly the configured urls as keys (BufferItem.Valid),
   * and the order does not change a sum.
   */
  method AddCounts(sums: map<string, nat>, count: map<string, nat>, keys: seq<string>) returns (r: map<string, nat>)
    requires Distinct(keys) && forall u :: u in keys ==> u in sums
    ensures r == map u | u in sums :: sums[u] + (if u in keys then Count(count, u) else 0)
  {
    r := sums;
    for k := 0 to |keys|
      invariant r.Keys == sums.Keys
      invariant forall u :: u in r ==> r[u] == sums[u] + (if u in keys[..k] then Count(count, u) else 0)
    {
      var url := keys[k];
      assert keys[..k + 1] == keys[..k] + [url];
      assert url !in keys[..k];
      r := r[url := r[url] + Count(count, url)];
    }
    assert keys[..|keys|] == keys;
  }

  /** The last loop of report: `total_send_count += count` over the per-url sums. */
  method SumCounts(keys: seq<string>, sums: map<string, nat>) returns (total: nat)
    requires forall u :: u in keys ==> u in sums
    ensures total == SumKeys(keys, sums)
  {
    total := 0;
    for k := 0 to |keys|
      invariant total == SumKeys(keys[..k], sums)
    {
      assert keys[..k + 1][..k] == keys[..k];
      total := total + sums[keys[k]];
    }
    assert keys[..|keys|] == keys;
  }

  /** Adding one more buffer's hash to the per-url sums. */
  lemma UrlSumsStep(counts: seq<map<string, nat>>, keys: seq<string>, b: nat)
    requires b < |counts|
    ensures UrlSums(counts[..b + 1], keys) ==
      map u | u in UrlSums(counts[..b], keys) :: UrlSums(counts[..b], keys)[u] + (if u in keys then Count(counts[b], u) else 0)
  {
    assert counts[..b + 1][..b] == counts[..b];
  }

  /** The lines of the report. The speed it logs is the quotient of `sentSinceLast` and `elapsed`. */
  datatype ReportLog = ReportLog(
    sentSinceLast: int,
    elapsed: int,
    receiveCount: nat,
    sendCount: nat,
    parseErrorCount: nat,
    urlSendCount: map<string, nat>,
    filebeatStatus: seq<(string, FilebeatStatus)>)

  /** The `url_send_count` hashes of the given buffers, in order. */
  ghost function CountsOf(items: seq<BufferItem>): (r: seq<map<string, nat>>)
    reads items
    ensures |r| == |items| && forall j :: 0 <= j < |items| ==> r[j] == items[j].urlSendCount
  {
    if items == [] then [] else CountsOf(items[..|items| - 1]) + [items[|items| - 1].urlSendCount]
  }

  /** The records queued in the given buffers, in order. */
  ghost function ReceivedOf(items: seq<BufferItem>): (r: seq<seq<Record>>)
    reads items
    ensures |r| == |items| && forall j :: 0 <= j < |items| ==> r[j] == items[j].received
  {
    if items == [] then [] else ReceivedOf(items[..|items| - 1]) + [items[|items| - 1].received]
  }

  class SensorsAnalytics {
    /** `@url`, `@project`, `@hash_filed`, `@enable_filebeat_status_report`. */
    const urls: seq<string>
    const project: Option<string>
    const hashFiled: Option<seq<string>>
    const enableFilebeatStatusReport: bool
    /** The keys of report's `url_send_count_sum`, in the order the hash iterates them. */
    const urlKeys: seq<string>
    /** Ruby's `hash` of a tag (nil has one too), and the JSON library's parser. */
    const tagHash: Option<string> -> int
    const parse: string -> Option<Json>
    /** `@buffer_items`: buffer j rotates the urls to start at url j. */
    const bufferItems: seq<BufferItem>

    var receiveCount: nat
    var parseErrorCount: nat
    var lastReportTime: int
    var lastReportCount: nat
    /** `@recent_filebeat_status`. */
    var recentFilebeatStatus: StatusTable

    /** The configuration multi_receive reads. */
    function Cfg(): Config
    {
      Config(|urls|, project, hashFiled, enableFilebeatStatusReport)
    }

    /** One valid buffer per url, each its own object, and a well-formed status table. */
    ghost predicate Valid()
      reads this, bufferItems
    {
      BuffersValid() && WellFormed(recentFilebeatStatus)
    }

    /** Buffer j is its own object, valid, and rotates the urls to start at url j. */
    ghost predicate BuffersValid()
      reads bufferItems
    {
      && |bufferItems| == |urls|
      && urlKeys == Dedup(urls)
      && (forall j, k :: 0 <= j < k < |bufferItems| ==> bufferItems[j] != bufferItems[k])
      && (forall j :: 0 <= j < |bufferItems| ==>
            bufferItems[j].Valid() && bufferItems[j].urls == urls && bufferItems[j].start == j)
    }

    /** The buffers' `url_send_count` hashes, in buffer order. */
    ghost function Counts(): seq<map<string, nat>>
      reads bufferItems
    {
      CountsOf(bufferItems)
    }

    /** register: a buffer per url, zero counters, the report clock started, an empty status table. */
    constructor Register(urls: seq<string>, project: Option<string>, hashFiled: Option<seq<string>>,
                         enableFilebeatStatusReport: bool, tagHash: Option<string> -> int,
                         parse: string -> Option<Json>, now: int)
      ensures Valid()
      ensures this.urls == urls && |bufferItems| == |urls|
      ensures this.project == project && this.hashFiled == hashFiled
      ensures this.enableFilebeatStatusReport == enableFilebeatStatusReport
      ensures this.tagHash == tagHash && this.parse == parse
      ensures forall j :: 0 <= j < |bufferItems| ==>
        && bufferItems[j].urlList == InitialRing(urls, j, now)
        && bufferItems[j].urlSendCount == (map u | u in urls :: 0)
        && bufferItems[j].received == []
      ensures receiveCount == 0 && parseErrorCount == 0
      ensures lastReportTime == now && lastReportCount == 0
      ensures recentFilebeatStatus == EmptyTable
    {
      var items: seq<BufferItem> := [];
      for i := 0 to |urls|
        invariant |items| == i
        invariant forall j, k :: 0 <= j < k < i ==> items[j] != items[k]
        invariant forall j :: 0 <= j < i ==>
          && items[j].Valid() && items[j].urls == urls && items[j].start == j
          && items[j].urlList == InitialRing(urls, j, now)
          && items[j].urlSendCount == (map u | u in urls :: 0)
          && items[j].received == []
      {
        var item := new BufferItem(urls, i, now);
        items := items + [item];
      }
      this.urls := urls;
      this.project := project;
      this.hashFiled := hashFiled;
      this.enableFilebeatStatusReport := enableFilebeatStatusReport;
      this.urlKeys := Dedup(urls);
      this.tagHash := tagHash;
      this.parse := parse;
      bufferItems := items;
      receiveCount := 0;
      parseErrorCount := 0;
      lastReportTime := now;
      lastReportCount := 0;
      recentFilebeatStatus := EmptyTable;
    }

    /** collect_filebeat_status. */
    method CollectFilebeatStatus(libDetail: string, offset: Option<string>, now: int)
      requires WellFormed(recentFilebeatStatus)
      modifies this`recentFilebeatStatus
      ensures recentFilebeatStatus == Collect(old(recentFilebeatStatus), libDetail, offset, now)
    {
      var t := recentFilebeatStatus;
      if libDetail !in t.entries {
        recentFilebeatStatus := StatusTable(t.order + [libDetail], t.entries[libDetail := FilebeatStatus(now, offset)]);
      } else {
        var status := t.entries[libDetail];
        status := status.(offset := offset);
        status := status.(receiveTime := now);
        recentFilebeatStatus := StatusTable(t.order, t.entries[libDetail := status]);
      }
    }

    /**
     * The begin block of multi_receive for one event, up to the choice of
     * buffer: parse the message, derive the tag and lib_detail, record the
     * filebeat status, add the `lib` and `project` fields and pick the buffer.
     * Anything that raises comes back as a parse error.
     */
    method PrepareRecord(e: Event, now: int) returns (o: Outcome)
      requires WellFormed(recentFilebeatStatus)
      modifies this`recentFilebeatStatus
      ensures o == Process(e, Cfg(), parse, tagHash)
      ensures recentFilebeatStatus ==
        match StatusUpdate(e, Cfg(), parse)
        case None => old(recentFilebeatStatus)
        case Some(u) => Collect(old(recentFilebeatStatus), u.0, u.1, now)
    {
      var message := Get(e, "message");
      var parsed := if message.Some? then parse(message.value) else None;
      if parsed.None? {
        return ParseError;
      }
      var record := parsed.value;
      var tag := ConcatTag(hashFiled, e);
      var libDetail: string;
      if IsFilebeat(e) {
        var host, file, offset := Get(e, "[host][name]"), Get(e, "[log][file][path]"), Get(e, "[log][offset]");
        libDetail := ToS(host) + "##" + ToS(file);
        if tag.None? {
          tag := Some(ToS(host) + ToS(file));
        }
        if enableFilebeatStatusReport {
          CollectFilebeatStatus(libDetail, offset, now);
        }
      } else {
        var host, path := Get(e, "host"), Get(e, "path");
        if host.Some? && path.Some? {
          libDetail := ToS(host) + "##" + ToS(path);
          if tag.None? {
            tag := Some(ToS(host) + ToS(path));
          }
        } else {
          libDetail := "";
        }
      }
      assert tag == DeriveTag(e, hashFiled) && libDetail == LibDetail(e);
      if !record.JObj? {
        // `record["lib"] = ...` raises on anything but a hash
        return ParseError;
      }
      var fields := Enrich(record.fields, libDetail, project);
      var index := BufferIndex(tagHash(tag), |urls|);
      if index.None? {
        // `tag.hash % 0` raises ZeroDivisionError
        return ParseError;
      }
      return Buffered(index.value, fields);
    }

    /** One event of multi_receive: it is buffered, or the rescue clause counts it as a parse error. */
    method ReceiveOne(e: Event, now: int) returns (o: Outcome)
      requires Valid()
      modifies this`parseErrorCount, this`recentFilebeatStatus, bufferItems`received
      ensures Valid()
      ensures o == Process(e, Cfg(), parse, tagHash)
      ensures parseErrorCount == old(parseErrorCount) + (if o.ParseError? then 1 else 0)
      ensures forall j :: 0 <= j < |bufferItems| ==>
        bufferItems[j].received == old(bufferItems[j].received) + (if o.Buffered? && o.index == j then [o.record] else [])
      ensures recentFilebeatStatus ==
        match StatusUpdate(e, Cfg(), parse)
        case None => old(recentFilebeatStatus)
        case Some(u) => Collect(old(recentFilebeatStatus), u.0, u.1, now)
    {
      o := PrepareRecord(e, now);
      if o.ParseError? {
        parseErrorCount := parseErrorCount + 1;
      } else {
        bufferItems[o.index].BufferReceive(o.record);
      }
    }

    /**
     * One turn of multi_receive's `events.each`: what the events before
     * event k came to, extended by event k.
     */
    method ReceiveNext(events: seq<Event>, k: nat, now: int,
                       ghost errors0: nat, ghost received0: seq<seq<Record>>, ghost table0: StatusTable)
      requires Valid() && k < |events| && |received0| == |bufferItems| && WellFormed(table0)
      requires parseErrorCount == errors0 + Errors(Outcomes(events[..k], Cfg(), parse, tagHash))
      requires forall j :: 0 <= j < |bufferItems| ==>
        bufferItems[j].received == received0[j] + RoutedTo(Outcomes(events[..k], Cfg(), parse, tagHash), j)
      requires recentFilebeatStatus == CollectAll(table0, StatusUpdates(events[..k], Cfg(), parse), now)
      modifies this`parseErrorCount, this`recentFilebeatStatus, bufferItems`received
      ensures Valid()
      ensures parseErrorCount == errors0 + Errors(Outcomes(events[..k + 1], Cfg(), parse, tagHash))
      ensures forall j :: 0 <= j < |bufferItems| ==>
        bufferItems[j].received == received0[j] + RoutedTo(Outcomes(events[..k + 1], Cfg(), parse, tagHash), j)
      ensures recentFilebeatStatus == CollectAll(table0, StatusUpdates(events[..k + 1], Cfg(), parse), now)
    {
      BatchStep(events, k, Cfg(), parse, tagHash, table0, now);
      var o := ReceiveOne(events[k], now);
      forall j | 0 <= j < |bufferItems|
        ensures bufferItems[j].received == received0[j] + RoutedTo(Outcomes(events[..k + 1], Cfg(), parse, tagHash), j)
      {
        AppendAssoc(received0[j], RoutedTo(Outcomes(events[..k], Cfg(), parse, tagHash), j),
                    if o.Buffered? && o.index == j then [o.record] else []);
      }
    }

    /**
     * multi_receive's `events.each`: route each event in turn. Every event ends
     * up as a parse error or as one record in one buffer, in batch order;
     * filebeat events update the status table.
     */
    method ReceiveEach(events: seq<Event>, now: int)
      requires Valid()
      modifies this`parseErrorCount, this`recentFilebeatStatus, bufferItems`received
      ensures Valid()
      ensures parseErrorCount == old(parseErrorCount) + Errors(Outcomes(events, Cfg(), parse, tagHash))
      ensures forall j :: 0 <= j < |bufferItems| ==>
        bufferItems[j].received == old(bufferItems[j].received) + RoutedTo(Outcomes(events, Cfg(), parse, tagHash), j)
      ensures recentFilebeatStatus == CollectAll(old(recentFilebeatStatus), StatusUpdates(events, Cfg(), parse), now)
    {
      ghost var received0 := ReceivedOf(bufferItems);
      assert events[..0] == [];
      for k := 0 to |events|
        invariant Valid()
        invariant parseErrorCount == old(parseErrorCount) + Errors(Outcomes(events[..k], Cfg(), parse, tagHash))
        invariant forall j :: 0 <= j < |bufferItems| ==>
          bufferItems[j].received == received0[j] + RoutedTo(Outcomes(events[..k], Cfg(), parse, tagHash), j)
        invariant recentFilebeatStatus == CollectAll(old(recentFilebeatStatus), StatusUpdates(events[..k], Cfg(), parse), now)
      {
        ReceiveNext(events, k, now, old(parseErrorCount), received0, old(recentFilebeatStatus));
      }
      assert events[..|events|] == events;
    }

    /** multi_receive: an empty batch is ignored; otherwise count it as received, then route each event. */
    method MultiReceive(events: seq<Event>, now: int)
      requires Valid()
      modifies this`receiveCount, this`parseErrorCount, this`recentFilebeatStatus, bufferItems`received
      ensures Valid()
      ensures receiveCount == old(receiveCount) + |events|
      ensures parseErrorCount == old(parseErrorCount) + Errors(Outcomes(events, Cfg(), parse, tagHash))
      ensures forall j :: 0 <= j < |bufferItems| ==>
        bufferItems[j].received == old(bufferItems[j].received) + RoutedTo(Outcomes(events, Cfg(), parse, tagHash), j)
      ensures recentFilebeatStatus == CollectAll(old(recentFilebeatStatus), StatusUpdates(events, Cfg(), parse), now)
    {
      if events == [] {
        return;
      }
      receiveCount := receiveCount + |events|;
      ReceiveEach(events, now);
    }

    /** format_filebeat_report_and_clean: list the table's entries in iteration order, then empty it. */
    method FormatFilebeatReportAndClean() returns (lines: seq<(string, FilebeatStatus)>)
      requires WellFormed(recentFilebeatStatus)
      modifies this`recentFilebeatStatus
      ensures lines == Entries(old(recentFilebeatStatus))
      ensures recentFilebeatStatus == EmptyTable
    {
      var t := recentFilebeatStatus;
      lines := [];
      for k := 0 to |t.order|
        invariant lines == Entries(t)[..k]
      {
        assert t.order[k] in t.entries;
        lines := lines + [(t.order[k], t.entries[t.order[k]])];
      }
      recentFilebeatStatus := EmptyTable;
    }

    /**
     * The counting part of report: `url_send_count_sum` adds each url's
     * counter up over the buffers, and `total_send_count` adds those sums up,
     * which is every send of every buffer.
     */
    method AggregateSendCounts() returns (sums: map<string, nat>, total: nat)
      requires Valid()
      ensures forall u :: u in sums <==> u in urls
      ensures sums == UrlSums(Counts(), urlKeys)
      ensures total == AllSends(Counts(), urlKeys)
    {
      sums := SumBufferCounts();
      total := SumCounts(urlKeys, sums);
      ReportTotalIsAllSends(Counts(), urlKeys);
    }

    /** The per-url loop of report: add each buffer's counters into the sums, buffer by buffer. */
    method SumBufferCounts() returns (sums: map<string, nat>)
      requires Valid()
      ensures sums == UrlSums(Counts(), urlKeys)
    {
      ghost var counts := Counts();
      sums := ZeroSums(urlKeys);
      assert counts[..0] == [];
      for b := 0 to |bufferItems|
        invariant sums == UrlSums(counts[..b], urlKeys)
      {
        UrlSumsStep(counts, urlKeys, b);
        sums := AddCounts(sums, bufferItems[b].urlSendCount, urlKeys);
      }
      assert counts[..|bufferItems|] == counts;
    }

    /** The end of report: `@last_report_count` and `@last_report_time` now describe this report. */
    method StampReport(total: nat, now: int)
      requires Valid()
      modifies this`lastReportCount, this`lastReportTime
      ensures Valid()
      ensures lastReportCount == total && lastReportTime == now
    {
      lastReportCount := total;
      lastReportTime := now;
    }

    /**
     * report: the send counters added up, what was sent since the last report
     * and how long ago that was; the report clock moves to now, and with status
     * reporting on, the status table is listed and emptied.
     */
    method Report(now: int) returns (log: ReportLog)
      requires Valid()
      modifies this`lastReportCount, this`lastReportTime, this`recentFilebeatStatus
      ensures Valid()
      ensures log.urlSendCount == UrlSums(old(Counts()), urlKeys)
      ensures log.sendCount == AllSends(old(Counts()), urlKeys)
      ensures log.sentSinceLast == log.sendCount - old(lastReportCount)
      ensures log.elapsed == now - old(lastReportTime)
      ensures log.receiveCount == receiveCount && log.parseErrorCount == parseErrorCount
      ensures lastReportCount == log.sendCount && lastReportTime == now
      ensures enableFilebeatStatusReport ==>
        log.filebeatStatus == Entries(old(recentFilebeatStatus)) && recentFilebeatStatus == EmptyTable
      ensures !enableFilebeatStatusReport ==>
        log.filebeatStatus == [] && recentFilebeatStatus == old(recentFilebeatStatus)
    {
      var sums, total := AggregateSendCounts();
      var sentSinceLast := total - lastReportCount;
      var elapsed := now - lastReportTime;
      StampReport(total, now);
      var status: seq<(string, FilebeatStatus)> := [];
      if enableFilebeatStatusReport {
        status := FormatFilebeatReportAndClean();
      }
      log := ReportLog(sentSinceLast, elapsed, receiveCount, total, parseErrorCount, sums, status);
    }
  }
}
