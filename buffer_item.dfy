/**
 * BufferItem: one buffer of the plugin with its own ring of urls and its own
 * per-url send counters. The methods follow the source's loops and updates in
 * place and are proved against the functions of UrlRing and Delivery.
 */
module Buffers {
  import opened Common
  import opened UrlRing
  import opened Delivery
  import opened Counters

  /**
   * The form body flush posts on every attempt: the whole batch (its JSON,
   * gzip and Base64 encoding are not modelled) and the literal `"gzip" => 1`.
   */
  datatype FormData = FormData(dataList: seq<Record>, gzip: int)

  /** One pass of obtain_url's `@url_list.each`: the first entry usable at `now`, if there is one. */
  method ScanRing(ring: seq<UrlEntry>, now: int) returns (r: Option<nat>)
    ensures r.Some? ==> r.value < |ring| && Eligible(ring[r.value], now)
    ensures r.Some? ==> forall j :: 0 <= j < r.value ==> !Eligible(ring[j], now)
    ensures r.None? ==> forall j :: 0 <= j < |ring| ==> !Eligible(ring[j], now)
    ensures r == FirstEligible(ring, now)
  {
    var k := 0;
    while k < |ring|
      invariant 0 <= k <= |ring|
      invariant forall j :: 0 <= j < k ==> !Eligible(ring[j], now)
    {
      if Eligible(ring[k], now) {
        return Some(k);
      }
      k := k + 1;
    }
    return None;
  }

  /**
   * The (url, form data) pair of each of the first k sends from cursor c: the
   * url of the entry the cursor stands on before that send.
   */
  function Posts(c: Cursor, k: nat, form: FormData): (r: seq<(string, FormData)>)
    requires c.index < |c.ring|
    ensures |r| == k
  {
    if k == 0 then []
    else
      var a := Advance(c, k - 1);
      Posts(c, k - 1, form) + [(a.ring[a.index].url, form)]
  }

  /** Send j goes to the url of the entry the cursor stands on after j failures. */
  lemma PostsLast(c: Cursor, j: nat, form: FormData)
    requires c.index < |c.ring|
    ensures Posts(c, j + 1, form)[j] == (c.ring[Advance(c, j).index].url, form)
  {
    var a := Advance(c, j);
    assert Posts(c, j + 1, form) == Posts(c, j, form) + [(a.ring[a.index].url, form)];
    SameUrl(a.ring, c.ring, a.index);
  }

  /** Sending once more leaves the earlier sends as they were. */
  lemma PostsPrefix(c: Cursor, k: nat, form: FormData, j: nat)
    requires c.index < |c.ring| && j < k
    ensures Posts(c, k + 1, form)[j] == Posts(c, k, form)[j]
  {
  }

  /** Send j posts the whole batch to the url of the entry the cursor stands on after j failures. */
  lemma PostsAt(c: Cursor, k: nat, form: FormData, j: nat)
    requires c.index < |c.ring| && j < k
    ensures Posts(c, k, form)[j] == (c.ring[Advance(c, j).index].url, form)
  {
    PostsLast(c, j, form);
    var m := j + 1;
    while m < k
      invariant j < m <= k
      invariant Posts(c, m, form)[j] == (c.ring[Advance(c, j).index].url, form)
    {
      PostsPrefix(c, m, form, j);
      m := m + 1;
    }
  }

  /** flush posts the batch once per send, in order, to the url of each position it tried. */
  lemma FlushPostsTried(ring: seq<UrlEntry>, now: int, outcomes: seq<bool>, form: FormData, j: nat)
    requires |ring| > 0 && true in outcomes
    requires j < |Retry(ring, now, outcomes).tried|
    ensures var d := Retry(ring, now, outcomes);
      Posts(Start(ring, now), |d.tried|, form)[j] == (ring[d.tried[j]].url, form)
  {
    var c := Start(ring, now);
    var n := FirstSuccess(outcomes) + 1;
    RetryTried(ring, now, outcomes);
    PostsAt(c, n, form, j);
    PositionsAt(c, n, j);
    SameUrl(c.ring, ring, Positions(c, n)[j]);
  }

  /** The positions flush tries are those of the cursor, one per outcome up to the first success. */
  lemma RetryTried(ring: seq<UrlEntry>, now: int, outcomes: seq<bool>)
    requires |ring| > 0 && true in outcomes
    ensures Retry(ring, now, outcomes).tried == Positions(Start(ring, now), FirstSuccess(outcomes) + 1)
  {
    var c := Start(ring, now);
    var n := FirstSuccess(outcomes);
    assert Retry(ring, now, outcomes) == Run(Advance(c, n).ring, Positions(c, n + 1), Times(c, n + 1));
  }

  /** Rings with the same urls in the same order hold the same url at each position. */
  lemma SameUrl(a: seq<UrlEntry>, b: seq<UrlEntry>, i: nat)
    requires Urls(a) == Urls(b) && i < |a|
    ensures a[i].url == b[i].url
  {
    assert Urls(a)[i] == Urls(b)[i];
  }

  class BufferItem {
    /** The configured urls and this buffer's index among them (its place in the rotation). */
    ghost const urls: seq<string>
    ghost const start: nat
    /** The urls of the ring, in ring order: the configured urls rotated to start at `start`. */
    ghost const ringUrls: seq<string>

    /** `@url_list`: the ring of url entries. */
    var urlList: seq<UrlEntry>
    /** `@url_send_count`: records delivered, per url. */
    var urlSendCount: map<string, nat>
    /** The records handed to `buffer_receive`, in order (Stud::Buffer's queue and flush triggers are not modelled). */
    var received: seq<Record>

    /** The ring keeps the rotation it was built with, and every url of the ring has a counter. */
    ghost predicate Valid()
      reads this`urlList, this`urlSendCount
    {
      && start < |urls|
      && ringUrls == urls[start..] + urls[..start]
      && Urls(urlList) == ringUrls
      && urlSendCount.Keys == set u | u in urls
    }

    /** BufferItem.new: a zero counter per url, and the ring rotated to start at url `index`. */
    constructor (urls: seq<string>, index: nat, now: int)
      requires index < |urls|
      ensures Valid() && this.urls == urls && start == index
      ensures urlList == InitialRing(urls, index, now)
      ensures urlSendCount == map u | u in urls :: 0
      ensures received == []
    {
      this.urls := urls;
      start := index;
      ringUrls := urls[index..] + urls[..index];
      received := [];
      var counts: map<string, nat> := map[];
      for k := 0 to |urls|
        invariant counts == map u | u in urls[..k] :: 0
      {
        assert urls[..k + 1] == urls[..k] + [urls[k]];
        counts := counts[urls[k] := 0];
      }
      assert urls[..|urls|] == urls;
      urlSendCount := counts;
      urlList := [];
      new;
      InitUrlList(urls, index, now);
      InitialRingIsRotation(urls, index, now);
    }

    /** init_url_list: append one fresh entry per url, walking the list from `startIndex` until it comes back round. */
    method InitUrlList(urls: seq<string>, startIndex: nat, now: int)
      requires startIndex < |urls|
      modifies this`urlList
      ensures urlList == InitialRing(urls, startIndex, now)
    {
      var n := |urls|;
      urlList := [];
      var index := startIndex;
      while true
        invariant |urlList| < n
        invariant index == RingIndex(startIndex, |urlList|, n)
        invariant urlList == InitialRing(urls, startIndex, now)[..|urlList|]
        decreases n - |urlList|
      {
        urlList := urlList + [FreshEntry(urls[index], now)];
        RingIndexStep(startIndex, |urlList| - 1, n);
        if index + 1 < n {
          ModBelow(index + 1, n);
        } else {
          ModWrap(index + 1, n);
        }
        index := (index + 1) % n;
        RingIndexReturns(startIndex, |urlList|, n);
        if index == startIndex {
          break;
        }
      }
      assert urlList == InitialRing(urls, startIndex, now);
    }

    /**
     * obtain_url: scan the ring for the first usable entry, sleeping between
     * scans while there is none. It returns the first entry usable at the time
     * of the final scan, and it leaves the usable flag as it was (the `:ok`
     * key it sets is not the `:ok?` flag).
     */
    method ObtainUrl(now: int) returns (i: nat, t: int)
      requires Valid()
      modifies this`urlList
      ensures Valid()
      ensures i == Obtain(old(urlList), now).index && t == Obtain(old(urlList), now).time
      ensures i < |urlList| && Eligible(old(urlList)[i], t)
      ensures forall j :: 0 <= j < i ==> !Eligible(old(urlList)[j], t)
      ensures urlList == Revive(old(urlList), i)
      ensures urlList[i].ok == old(urlList)[i].ok
    {
      t := now;
      var found := ScanRing(urlList, t);
      while found.None?
        invariant urlList == old(urlList)
        invariant found == FirstEligible(urlList, t)
        invariant Obtain(urlList, t).index == Obtain(urlList, now).index
        invariant Obtain(urlList, t).time == Obtain(urlList, now).time
        decreases urlList[0].failTime + Cooldown - t
      {
        t := t + Backoff;  // sleep 5
        found := ScanRing(urlList, t);
      }
      i := found.value;
      if !urlList[i].ok {
        urlList := urlList[i := urlList[i].(revived := true)];  // url_item[:ok] = true
      }
    }

    /** disable_url: the entry becomes unusable, stamped with the failure time. */
    method DisableUrl(i: nat, now: int)
      requires Valid() && i < |urlList|
      modifies this`urlList
      ensures Valid()
      ensures urlList == Disable(old(urlList), i, now)
    {
      urlList := urlList[i := urlList[i].(ok := false, failTime := now)];
    }

    /** buffer_receive: the record joins this buffer's queue. */
    method BufferReceive(record: Record)
      modifies this`received
      ensures received == old(received) + [record]
    {
      received := received + [record];
    }

    /**
     * The `until do_send(...)` loop of flush: send the form data to the url
     * obtained, and on each failure disable that url and obtain another, until
     * a send succeeds. It returns the position that accepted, the time it was
     * chosen and every send made. `outcomes[k]` is what the k-th do_send returns.
     */
    method SendUntilAccepted(formData: FormData, now: int, outcomes: seq<bool>) returns (i: nat, t: int, sent: seq<(string, FormData)>)
      requires Valid()
      requires true in outcomes
      modifies this`urlList
      ensures Valid()
      ensures var d := Retry(old(urlList), now, outcomes);
        && urlList == d.ring
        && i == d.tried[|d.tried| - 1] && i < |urlList|
        && t == d.times[|d.times| - 1]
        && sent == Posts(Start(old(urlList), now), |d.tried|, formData)
    {
      ghost var ring0 := urlList;
      ghost var c0 := Start(ring0, now);
      ghost var n := FirstSuccess(outcomes);
      i, t := ObtainUrl(now);
      var attempt := 0;
      sent := [(urlList[i].url, formData)];
      while !outcomes[attempt]
        invariant Valid()
        invariant attempt <= n
        invariant Cursor(urlList, i, t) == Advance(c0, attempt)
        invariant sent == Posts(c0, attempt + 1, formData)
        decreases n - attempt
      {
        BeforeFirstSuccess(outcomes, attempt);
        DisableUrl(i, t);
        i, t := ObtainUrl(t);
        AdvanceStep(c0, attempt);
        sent := sent + [(urlList[i].url, formData)];  // do_send(form_data, url_item[:url])
        attempt := attempt + 1;
      }
      assert attempt == n;
      RetryEnd(ring0, now, outcomes);
    }

    /**
     * flush: post the whole batch until some url accepts it (SendUntilAccepted),
     * then credit the batch size to the url that accepted it.
     */
    method Flush(events: seq<Record>, now: int, outcomes: seq<bool>) returns (sent: seq<(string, FormData)>, t: int)
      requires Valid()
      requires true in outcomes
      modifies this`urlList, this`urlSendCount
      ensures Valid()
      ensures var d := Retry(old(urlList), now, outcomes);
        && urlList == d.ring
        && t == d.times[|d.times| - 1]
        && sent == Posts(Start(old(urlList), now), |d.tried|, FormData(events, 1))
        && urlSendCount == Credit(old(urlSendCount), old(urlList)[d.tried[|d.tried| - 1]].url, |events|)
    {
      ghost var ring0 := urlList;
      var formData := FormData(events, 1);
      var i: nat;
      i, t, sent := SendUntilAccepted(formData, now, outcomes);
      var url := urlList[i].url;
      SameUrl(urlList, ring0, i);
      assert url == ringUrls[i];
      RotatedIsConfigured(urls, start, i);
      ghost var keys0 := urlSendCount.Keys;
      urlSendCount := Credit(urlSendCount, url, |events|);  // @url_send_count[url] += events.length
      assert urlSendCount.Keys == keys0;
    }
  }
}
