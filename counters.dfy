/**
 * The plugin's counters as sums: where a batch of events goes (a buffer or the
 * parse-error counter), and the per-url and total send counts that report adds
 * up over all buffers.
 */
module Counters {
  import opened Common
  import opened Routing

  /** Events of the batch counted as parse errors. */
  function Errors(os: seq<Outcome>): nat
  {
    if os == [] then 0
    else Errors(os[..|os| - 1]) + (if os[|os| - 1].ParseError? then 1 else 0)
  }

  /** Records of the batch handed to buffer j, in batch order. */
  function RoutedTo(os: seq<Outcome>, j: nat): seq<Record>
  {
    if os == [] then []
    else
      var last := os[|os| - 1];
      RoutedTo(os[..|os| - 1], j) + (if last.Buffered? && last.index == j then [last.record] else [])
  }

  /** Records of the batch handed to buffers 0 .. n-1 together. */
  function RoutedCount(os: seq<Outcome>, n: nat): nat
  {
    if n == 0 then 0 else RoutedCount(os, n - 1) + |RoutedTo(os, n - 1)|
  }

  lemma {:induction false} RoutedCountStep(os: seq<Outcome>, o: Outcome, n: nat)
    ensures RoutedCount(os + [o], n) == RoutedCount(os, n) + (if o.Buffered? && o.index < n then 1 else 0)
  {
    if n > 0 {
      RoutedCountStep(os, o, n - 1);
      assert (os + [o])[..|os + [o]| - 1] == os;
    }
  }

  /**
   * multi_receive accounts for every event exactly once: with all buffer
   * indices below n, the parse errors plus the records handed to the n buffers
   * make up the whole batch.
   */
  lemma {:induction false} EveryEventCountedOnce(os: seq<Outcome>, n: nat)
    requires forall k :: 0 <= k < |os| && os[k].Buffered? ==> os[k].index < n
    ensures Errors(os) + RoutedCount(os, n) == |os|
    decreases |os|
  {
    if os == [] {
      RoutedCountEmpty(n);
    } else {
      var init := os[..|os| - 1];
      assert os == init + [os[|os| - 1]];
      EveryEventCountedOnce(init, n);
      RoutedCountStep(init, os[|os| - 1], n);
    }
  }

  lemma {:induction false} RoutedCountEmpty(n: nat)
    ensures RoutedCount([], n) == 0
  {
    if n > 0 {
      RoutedCountEmpty(n - 1);
    }
  }

  /** No two positions of s hold the same value. */
  predicate Distinct(s: seq<string>)
  {
    forall i, j :: 0 <= i < j < |s| ==> s[i] != s[j]
  }

  /**
   * The keys of a Ruby hash filled from `urls`, in iteration (insertion)
   * order: each url once, at its first occurrence.
   */
  function Dedup(urls: seq<string>): (r: seq<string>)
    ensures Distinct(r)
    ensures forall u :: u in r <==> u in urls
  {
    if urls == [] then []
    else
      var r := Dedup(urls[..|urls| - 1]);
      assert forall u :: u in urls <==> u in urls[..|urls| - 1] || u == urls[|urls| - 1];
      if urls[|urls| - 1] in r then r else r + [urls[|urls| - 1]]
  }

  /** A counter read from a count hash; a missing key counts 0. */
  function Count(m: map<string, nat>, u: string): nat
  {
    if u in m then m[u] else 0
  }

  /** `url_send_count_sum[url]`: url's count added up over the buffers' count hashes. */
  function UrlTotal(counts: seq<map<string, nat>>, u: string): nat
  {
    if counts == [] then 0
    else UrlTotal(counts[..|counts| - 1], u) + Count(counts[|counts| - 1], u)
  }

  /** The counters of m added up over the given keys. */
  function SumKeys(keys: seq<string>, m: map<string, nat>): nat
  {
    if keys == [] then 0
    else SumKeys(keys[..|keys| - 1], m) + Count(m, keys[|keys| - 1])
  }

  /** Every send of every buffer: each buffer's counters summed over the keys, then over the buffers. */
  function AllSends(counts: seq<map<string, nat>>, keys: seq<string>): nat
  {
    if counts == [] then 0
    else AllSends(counts[..|counts| - 1], keys) + SumKeys(keys, counts[|counts| - 1])
  }

  /** The per-url totals report builds, keyed by the configured urls. */
  function UrlSums(counts: seq<map<string, nat>>, keys: seq<string>): (r: map<string, nat>)
    ensures forall u :: u in r <==> u in keys
  {
    map u | u in keys :: UrlTotal(counts, u)
  }

  /** Summing over keys is linear: a hash that is pointwise the sum of two others sums to their sums. */
  lemma {:induction false} SumKeysAdd(keys: seq<string>, a: map<string, nat>, b: map<string, nat>, c: map<string, nat>)
    requires forall u :: u in keys ==> Count(c, u) == Count(a, u) + Count(b, u)
    ensures SumKeys(keys, c) == SumKeys(keys, a) + SumKeys(keys, b)
    decreases |keys|
  {
    if keys != [] {
      SumKeysAdd(keys[..|keys| - 1], a, b, c);
    }
  }

  /** A hash whose counters over the keys are all zero sums to zero. */
  lemma {:induction false} SumKeysZero(keys: seq<string>, m: map<string, nat>)
    requires forall u :: u in keys ==> Count(m, u) == 0
    ensures SumKeys(keys, m) == 0
    decreases |keys|
  {
    if keys != [] {
      SumKeysZero(keys[..|keys| - 1], m);
    }
  }

  /**
   * report's total: adding up the per-url totals gives every send of every
   * buffer, so `total_send_count` is the sum of all the buffers' counters.
   */
  lemma {:induction false} ReportTotalIsAllSends(counts: seq<map<string, nat>>, keys: seq<string>)
    ensures SumKeys(keys, UrlSums(counts, keys)) == AllSends(counts, keys)
    decreases |counts|
  {
    if counts == [] {
      SumKeysZero(keys, UrlSums(counts, keys));
    } else {
      var init, last := counts[..|counts| - 1], counts[|counts| - 1];
      ReportTotalIsAllSends(init, keys);
      SumKeysAdd(keys, UrlSums(init, keys), last, UrlSums(counts, keys));
    }
  }

  /** A hash that agrees with another on the keys sums the same. */
  lemma {:induction false} SumKeysAgree(keys: seq<string>, a: map<string, nat>, b: map<string, nat>)
    requires forall u :: u in keys ==> Count(a, u) == Count(b, u)
    ensures SumKeys(keys, a) == SumKeys(keys, b)
    decreases |keys|
  {
    if keys != [] {
      SumKeysAgree(keys[..|keys| - 1], a, b);
    }
  }

  /** `@url_send_count[url] += n`. */
  function Credit(m: map<string, nat>, u: string, n: nat): (r: map<string, nat>)
    ensures r.Keys == m.Keys + {u}
    ensures Count(r, u) == Count(m, u) + n
    ensures forall v :: v != u ==> Count(r, v) == Count(m, v)
  {
    m[u := Count(m, u) + n]
  }

  /** Crediting n sends to one url of distinct keys raises the hash's sum by exactly n. */
  lemma {:induction false} CreditRaisesSum(keys: seq<string>, m: map<string, nat>, u: string, n: nat)
    requires Distinct(keys) && u in keys
    ensures SumKeys(keys, Credit(m, u, n)) == SumKeys(keys, m) + n
    decreases |keys|
  {
    var m' := Credit(m, u, n);
    var init := keys[..|keys| - 1];
    if keys[|keys| - 1] == u {
      assert u !in init;
      SumKeysAgree(init, m', m);
    } else {
      CreditRaisesSum(init, m, u, n);
    }
  }

  /**
   * Counter conservation: a flush of n events that credits its url in one
   * buffer's count hash raises every-send-of-every-buffer, and with it the
   * next report's total, by exactly n.
   */
  lemma {:induction false} CreditRaisesAllSends(counts: seq<map<string, nat>>, keys: seq<string>, b: nat, u: string, n: nat)
    requires Distinct(keys) && u in keys && b < |counts|
    ensures AllSends(counts[b := Credit(counts[b], u, n)], keys) == AllSends(counts, keys) + n
    decreases |counts|
  {
    var credited := counts[b := Credit(counts[b], u, n)];
    var init := counts[..|counts| - 1];
    assert credited[..|counts| - 1] == if b == |counts| - 1 then init else init[b := Credit(counts[b], u, n)];
    if b == |counts| - 1 {
      CreditRaisesSum(keys, counts[b], u, n);
    } else {
      CreditRaisesAllSends(init, keys, b, u, n);
    }
  }
}
