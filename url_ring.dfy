/**
 * The ring of delivery urls that each BufferItem keeps: the configured urls
 * rotated so that buffer i starts at url i, each entry with a usable flag and
 * the time of its last failure. These are the value-level definitions that
 * the BufferItem methods are proved against.
 */
module UrlRing {
  import opened Common

  /** Seconds a failed url is skipped (`Time.now - fail_time > 3`). */
  const Cooldown: int := 3

  /** Seconds slept when no url of the ring is usable (`sleep 5`). */
  const Backoff: int := 5

  /**
   * One entry of `@url_list`: `:url`, `:ok?`, `:fail_time`, and `revived`,
   * the stray `:ok` key that obtain_url writes (never read by anything).
   */
  datatype UrlEntry = UrlEntry(url: string, ok: bool, failTime: int, revived: bool)

  /** Whether obtain_url accepts the entry at time `now`. */
  predicate Eligible(e: UrlEntry, now: int)
  {
    e.ok || now - e.failTime > Cooldown
  }

  /** The urls of a ring, in ring order. */
  function Urls(ring: seq<UrlEntry>): seq<string>
  {
    seq(|ring|, k requires 0 <= k < |ring| => ring[k].url)
  }

  /** Position in `urls` of the k-th entry of the ring that starts at `start`. */
  function RingIndex(start: nat, k: nat, n: nat): nat
    requires n > 0
  {
    (start + k) % n
  }

  /** The entry init_url_list appends for `url`. */
  function FreshEntry(url: string, now: int): UrlEntry
  {
    UrlEntry(url, true, now, false)
  }

  /** The ring init_url_list builds for the buffer with index `start`. */
  function InitialRing(urls: seq<string>, start: nat, now: int): seq<UrlEntry>
    requires start < |urls|
  {
    seq(|urls|, k requires 0 <= k < |urls| => FreshEntry(urls[RingIndex(start, k, |urls|)], now))
  }

  lemma ModBelow(a: int, n: int)
    requires 0 <= a < n
    ensures a % n == a
  {
  }

  lemma ModWrap(a: int, n: int)
    requires 0 < n <= a < 2 * n
    ensures a % n == a - n
  {
  }

  /** One step along the ring from position k: the next position, wrapping to 0 after the last. */
  lemma {:induction false} RingIndexStep(start: nat, k: nat, n: nat)
    requires start < n && k < n
    ensures RingIndex(start, k + 1, n) == if RingIndex(start, k, n) + 1 < n then RingIndex(start, k, n) + 1 else 0
  {
    if start + k + 1 < n {
      ModBelow(start + k, n);
      ModBelow(start + k + 1, n);
    } else if start + k + 1 == n {
      ModBelow(start + k, n);
      ModWrap(start + k + 1, n);
    } else {
      ModWrap(start + k, n);
      ModWrap(start + k + 1, n);
    }
  }

  /** Walking a ring of n entries from `start` comes back to `start` after exactly n steps and not before. */
  lemma {:induction false} RingIndexReturns(start: nat, k: nat, n: nat)
    requires start < n && 0 < k <= n
    ensures RingIndex(start, k, n) == start <==> k == n
  {
    if start + k < n {
      ModBelow(start + k, n);
    } else {
      ModWrap(start + k, n);
    }
  }

  /** The k-th entry of the rotation is the k-th element of `urls[start..] + urls[..start]`. */
  lemma RotationAt(urls: seq<string>, start: nat, k: nat)
    requires start < |urls| && k < |urls|
    ensures urls[RingIndex(start, k, |urls|)] == (urls[start..] + urls[..start])[k]
  {
    var n := |urls|;
    if start + k < n {
      ModBelow(start + k, n);
    } else {
      ModWrap(start + k, n);
    }
  }

  /** Every url of the rotation is a configured url. */
  lemma RotatedIsConfigured(urls: seq<string>, start: nat, k: nat)
    requires start < |urls| && k < |urls|
    ensures (urls[start..] + urls[..start])[k] in urls
  {
    if k < |urls| - start {
      assert (urls[start..] + urls[..start])[k] == urls[start + k];
    } else {
      assert (urls[start..] + urls[..start])[k] == urls[k - (|urls| - start)];
    }
  }

  /**
   * init_url_list: the ring is the configured list rotated to start at url
   * `start`, so it holds every url exactly as often as the configuration does,
   * begins with `urls[start]`, and every entry starts usable.
   */
  lemma {:induction false} InitialRingIsRotation(urls: seq<string>, start: nat, now: int)
    requires start < |urls|
    ensures Urls(InitialRing(urls, start, now)) == urls[start..] + urls[..start]
    ensures multiset(Urls(InitialRing(urls, start, now))) == multiset(urls)
    ensures InitialRing(urls, start, now)[0].url == urls[start]
    ensures forall k :: 0 <= k < |urls| ==> InitialRing(urls, start, now)[k].ok
  {
    var ring := InitialRing(urls, start, now);
    var rotated := urls[start..] + urls[..start];
    forall k | 0 <= k < |urls|
      ensures Urls(ring)[k] == rotated[k]
    {
      RotationAt(urls, start, k);
    }
    assert Urls(ring) == rotated;
    assert urls == urls[..start] + urls[start..];
    ModBelow(start, |urls|);
  }

  /** The first entry at or after position i that is usable at `now`. */
  function FirstEligibleFrom(ring: seq<UrlEntry>, now: int, i: nat): (r: Option<nat>)
    requires i <= |ring|
    ensures r.Some? ==> i <= r.value < |ring| && Eligible(ring[r.value], now)
    ensures r.Some? ==> forall j :: i <= j < r.value ==> !Eligible(ring[j], now)
    ensures r.None? ==> forall j :: i <= j < |ring| ==> !Eligible(ring[j], now)
    decreases |ring| - i
  {
    if i == |ring| then None
    else if Eligible(ring[i], now) then Some(i)
    else FirstEligibleFrom(ring, now, i + 1)
  }

  /** One scan of obtain_url's `@url_list.each`: the first usable entry in ring order, if any. */
  function FirstEligible(ring: seq<UrlEntry>, now: int): Option<nat>
  {
    FirstEligibleFrom(ring, now, 0)
  }

  /** What obtain_url returns: the chosen entry, the time of the scan that chose it, and the sleeps before it. */
  datatype Pick = Pick(index: nat, time: int, sleeps: nat)

  /** The time of the scan that follows k sleeps. */
  function ScanTime(now: int, k: nat): int
  {
    now + Backoff * k
  }

  /**
   * obtain_url: scan the ring; if no entry is usable, sleep and scan again.
   * It always ends, since the first entry's cooldown runs out; the entry it
   * returns is the first one usable at the time of the final scan.
   */
  function Obtain(ring: seq<UrlEntry>, now: int): (p: Pick)
    requires |ring| > 0
    ensures p.index < |ring| && Eligible(ring[p.index], p.time)
    ensures forall j :: 0 <= j < p.index ==> !Eligible(ring[j], p.time)
    ensures p.time == ScanTime(now, p.sleeps)
    decreases ring[0].failTime + Cooldown - now
  {
    match FirstEligible(ring, now)
    case Some(i) => Pick(i, now, 0)
    case None =>
      var p := Obtain(ring, now + Backoff);
      Pick(p.index, p.time, p.sleeps + 1)
  }

  /** obtain_url sleeps only while the whole ring is unusable: every scan before the last found nothing. */
  lemma {:induction false} ObtainSleepsOnlyWhenAllDown(ring: seq<UrlEntry>, now: int, k: nat)
    requires |ring| > 0
    requires k < Obtain(ring, now).sleeps
    ensures FirstEligible(ring, ScanTime(now, k)) == None
    decreases ring[0].failTime + Cooldown - now
  {
    if k > 0 {
      ObtainSleepsOnlyWhenAllDown(ring, now + Backoff, k - 1);
      assert ScanTime(now + Backoff, k - 1) == ScanTime(now, k);
    }
  }

  /** When every failure happened before `now`, obtain_url sleeps at most once: after 5 seconds every cooldown of 3 has run out. */
  lemma ObtainSleepsAtMostOnce(ring: seq<UrlEntry>, now: int)
    requires |ring| > 0
    requires forall j :: 0 <= j < |ring| ==> ring[j].failTime <= now
    ensures Obtain(ring, now).sleeps <= 1
  {
    if FirstEligible(ring, now).None? {
      assert Eligible(ring[0], now + Backoff);
    }
  }

  /**
   * What obtain_url leaves in the ring after choosing entry i: when the entry
   * was reached through the cooldown test, it writes `:ok` (not `:ok?`), so
   * the usable flag stays false and only the stray key changes.
   */
  function Revive(ring: seq<UrlEntry>, i: nat): (r: seq<UrlEntry>)
    requires i < |ring|
    ensures |r| == |ring| && Urls(r) == Urls(ring)
    ensures forall j :: 0 <= j < |ring| ==> r[j].ok == ring[j].ok && r[j].failTime == ring[j].failTime
    ensures forall j :: 0 <= j < |ring| && j != i ==> r[j] == ring[j]
  {
    if ring[i].ok then ring else ring[i := ring[i].(revived := true)]
  }

  /** disable_url: entry i becomes unusable, stamped with the failure time; nothing else changes. */
  function Disable(ring: seq<UrlEntry>, i: nat, now: int): (r: seq<UrlEntry>)
    requires i < |ring|
    ensures |r| == |ring| && Urls(r) == Urls(ring)
    ensures !r[i].ok && r[i].failTime == now
    ensures forall j :: 0 <= j < |ring| && j != i ==> r[j] == ring[j]
  {
    ring[i := ring[i].(ok := false, failTime := now)]
  }

  /** What obtain_url evidently meant at line 314: set the usable flag back. */
  function Restore(ring: seq<UrlEntry>, i: nat): seq<UrlEntry>
    requires i < |ring|
  {
    ring[i := ring[i].(ok := true)]
  }

  /** Two rings whose entries are usable at the same times give the same scan result. */
  lemma {:induction false} SameEligibilitySameScan(r1: seq<UrlEntry>, r2: seq<UrlEntry>, now: int, i: nat)
    requires |r1| == |r2| && i <= |r1|
    requires forall j :: i <= j < |r1| ==> (Eligible(r1[j], now) <==> Eligible(r2[j], now))
    ensures FirstEligibleFrom(r1, now, i) == FirstEligibleFrom(r2, now, i)
    decreases |r1| - i
  {
    if i < |r1| {
      SameEligibilitySameScan(r1, r2, now, i + 1);
    }
  }

  /**
   * The `:ok` typo is harmless while the clock does not go back: once obtain_url
   * has returned entry i at time t, every later scan picks the same entry
   * whether or not the usable flag was set back, because a cooldown that has
   * run out stays run out.
   */
  lemma {:induction false} ReviveActsAsRestore(ring: seq<UrlEntry>, i: nat, t: int, later: int)
    requires i < |ring| && Eligible(ring[i], t) && t <= later
    ensures FirstEligible(Revive(ring, i), later) == FirstEligible(Restore(ring, i), later)
  {
    var r1, r2 := Revive(ring, i), Restore(ring, i);
    forall j | 0 <= j < |ring|
      ensures Eligible(r1[j], later) <==> Eligible(r2[j], later)
    {
    }
    SameEligibilitySameScan(r1, r2, later, 0);
  }
}
