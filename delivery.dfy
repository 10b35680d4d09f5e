/**
 * The retry loop of BufferItem#flush as a function of the ring, the clock and
 * the outcomes of the sends: the reference definition that the Flush method is
 * proved against, with the properties of the loop proved about it.
 */
module Delivery {
  import opened Common
  import opened UrlRing

  /** Where the loop stands before a send: the ring, the position about to be sent to, and when it was chosen. */
  datatype Cursor = Cursor(ring: seq<UrlEntry>, index: nat, time: int)

  /** The cursor flush starts from: the position its first obtain_url picks. */
  function Start(ring: seq<UrlEntry>, now: int): (c: Cursor)
    requires |ring| > 0
    ensures c.index < |c.ring| && |c.ring| == |ring| && Urls(c.ring) == Urls(ring)
    ensures c.time >= now
  {
    var p := Obtain(ring, now);
    Cursor(Revive(ring, p.index), p.index, p.time)
  }

  /** One failed send: disable_url on the position, then obtain_url from that moment on. */
  function Next(c: Cursor): (n: Cursor)
    requires c.index < |c.ring|
    ensures |n.ring| == |c.ring| && n.index < |n.ring| && Urls(n.ring) == Urls(c.ring)
    ensures n.time >= c.time
  {
    var failed := Disable(c.ring, c.index, c.time);
    var p := Obtain(failed, c.time);
    Cursor(Revive(failed, p.index), p.index, p.time)
  }

  /** The cursor after k failed sends. */
  function Advance(c: Cursor, k: nat): (a: Cursor)
    requires c.index < |c.ring|
    ensures |a.ring| == |c.ring| && a.index < |a.ring| && Urls(a.ring) == Urls(c.ring)
    ensures a.time >= c.time
  {
    if k == 0 then c else Next(Advance(c, k - 1))
  }

  /** The positions of the first k sends: the first is where the cursor starts, the last where it stands after k - 1 failures. */
  function Positions(c: Cursor, k: nat): (r: seq<nat>)
    requires c.index < |c.ring|
    ensures |r| == k
    ensures forall j :: 0 <= j < k ==> r[j] < |c.ring|
    ensures k > 0 ==> r[0] == c.index && r[k - 1] == Advance(c, k - 1).index
  {
    if k == 0 then [] else Positions(c, k - 1) + [Advance(c, k - 1).index]
  }

  /** The times at which the positions of the first k sends were chosen: none before the cursor's, the last the cursor's after k - 1 failures. */
  function Times(c: Cursor, k: nat): (r: seq<int>)
    requires c.index < |c.ring|
    ensures |r| == k
    ensures forall j :: 0 <= j < k ==> r[j] >= c.time
    ensures k > 0 ==> r[k - 1] == Advance(c, k - 1).time
  {
    if k == 0 then [] else Times(c, k - 1) + [Advance(c, k - 1).time]
  }

  /** The j-th position sent to is where the cursor stands after j failures. */
  lemma PositionsAt(c: Cursor, k: nat, j: nat)
    requires c.index < |c.ring| && j < k
    ensures Positions(c, k)[j] == Advance(c, j).index
  {
    PositionsLast(c, j);
    var m := j + 1;
    while m < k
      invariant j < m <= k
      invariant Positions(c, m)[j] == Advance(c, j).index
    {
      PositionsPrefix(c, m, j);
      m := m + 1;
    }
  }

  /** One more send leaves the earlier positions as they were. */
  lemma PositionsPrefix(c: Cursor, k: nat, j: nat)
    requires c.index < |c.ring| && j < k
    ensures Positions(c, k + 1)[j] == Positions(c, k)[j]
  {
  }

  /** The (j+1)-th send goes where the cursor stands after j failures. */
  lemma PositionsLast(c: Cursor, j: nat)
    requires c.index < |c.ring|
    ensures Positions(c, j + 1)[j] == Advance(c, j).index
  {
  }

  /** One more send: one more position. */
  lemma PositionsStep(c: Cursor, k: nat)
    requires c.index < |c.ring|
    ensures Positions(c, k + 1) == Positions(c, k) + [Advance(c, k).index]
  {
  }

  /** One more send: one more time. */
  lemma TimesStep(c: Cursor, k: nat)
    requires c.index < |c.ring|
    ensures Times(c, k + 1) == Times(c, k) + [Advance(c, k).time]
  {
  }

  /** One more failed send: one more step of the cursor. */
  lemma AdvanceStep(c: Cursor, k: nat)
    requires c.index < |c.ring|
    ensures Advance(c, k + 1) == Next(Advance(c, k))
  {
  }

  /** The number of the first send that succeeds; `outcomes[k]` is what the k-th do_send returns. */
  function FirstSuccess(outcomes: seq<bool>): (n: nat)
    requires true in outcomes
    ensures n < |outcomes| && outcomes[n]
    ensures forall j :: 0 <= j < n ==> !outcomes[j]
    decreases |outcomes|
  {
    if outcomes[0] then 0
    else
      assert outcomes == [outcomes[0]] + outcomes[1..];
      1 + FirstSuccess(outcomes[1..])
  }

  /** A send that fails before the first success is not the last one. */
  lemma BeforeFirstSuccess(outcomes: seq<bool>, a: nat)
    requires true in outcomes && a <= FirstSuccess(outcomes) && !outcomes[a]
    ensures a < FirstSuccess(outcomes)
  {
  }

  /**
   * A run of the retry loop: the ring afterwards, the ring position each send
   * went to, in order, and the time at which that position was chosen.
   */
  datatype Run = Run(ring: seq<UrlEntry>, tried: seq<nat>, times: seq<int>)

  /** The ring positions whose sends failed: all sends but the last. */
  function Failed(d: Run): seq<nat>
    requires |d.tried| > 0
  {
    d.tried[..|d.tried| - 1]
  }

  /**
   * flush from its first obtain_url to the send that succeeds: `until
   * do_send(...)` sends to the chosen position, and on failure disables it
   * and obtains another.
   */
  function Retry(ring: seq<UrlEntry>, now: int, outcomes: seq<bool>): (d: Run)
    requires |ring| > 0 && true in outcomes
    ensures |d.tried| == |d.times| == FirstSuccess(outcomes) + 1 && |d.ring| == |ring|
    ensures forall k :: 0 <= k < |d.tried| ==> d.tried[k] < |ring|
  {
    var c := Start(ring, now);
    var n := FirstSuccess(outcomes);
    Run(Advance(c, n).ring, Positions(c, n + 1), Times(c, n + 1))
  }

  /** The loop ends where the cursor stands after the failures: that is the last position sent to, and the ring it leaves. */
  lemma RetryEnd(ring: seq<UrlEntry>, now: int, outcomes: seq<bool>)
    requires |ring| > 0 && true in outcomes
    ensures var c := Start(ring, now);
      var a := Advance(c, FirstSuccess(outcomes));
      var d := Retry(ring, now, outcomes);
      && d.ring == a.ring
      && d.tried[|d.tried| - 1] == a.index
      && d.times[|d.times| - 1] == a.time
  {
    var c := Start(ring, now);
    var n := FirstSuccess(outcomes);
    PositionsStep(c, n);
    TimesStep(c, n);
  }

  /**
   * Retry until success: the loop makes exactly one send per outcome up to and
   * including the first success, each to a position of the ring chosen no
   * earlier than the flush began, and leaves the ring's urls and their order
   * as they were.
   */
  lemma RetryStopsAtFirstSuccess(ring: seq<UrlEntry>, now: int, outcomes: seq<bool>)
    requires |ring| > 0 && true in outcomes
    ensures var d := Retry(ring, now, outcomes);
      && |d.tried| == |d.times| > 0
      && outcomes[|d.tried| - 1]
      && (forall k :: 0 <= k < |d.tried| - 1 ==> !outcomes[k])
      && (forall k :: 0 <= k < |d.tried| ==> d.tried[k] < |ring| && d.times[k] >= now)
      && Urls(d.ring) == Urls(ring)
  {
  }

  /** What one failed send does to entry j: the entry sent to is disabled at the send's time, the others keep their flags. */
  lemma NextEntry(c: Cursor, j: nat)
    requires c.index < |c.ring| && j < |c.ring|
    ensures Next(c).ring[j].ok == (j != c.index && c.ring[j].ok)
    ensures Next(c).ring[j].failTime == if j == c.index then c.time else c.ring[j].failTime
    ensures j != c.index && j != Next(c).index ==> Next(c).ring[j] == c.ring[j]
  {
  }

  /**
   * What the failed sends so far (positions p, cursor now at a) did to entry j:
   * it is unusable exactly when it was before or was sent to; if it was sent to
   * it carries a failure time from this run, otherwise its old failure time;
   * and if it was neither sent to nor just chosen, it is untouched.
   */
  ghost predicate EntryMarked(c: Cursor, a: Cursor, p: seq<nat>, j: nat)
    requires j < |c.ring| && j < |a.ring|
  {
    && (a.ring[j].ok <==> c.ring[j].ok && j !in p)
    && (j in p ==> a.ring[j].failTime >= c.time)
    && (j !in p ==> a.ring[j].failTime == c.ring[j].failTime)
    && (j !in p && j != a.index ==> a.ring[j] == c.ring[j])
  }

  /** After k failed sends, entry j is marked as the failed positions say. */
  lemma AdvanceEntry(c: Cursor, k: nat, j: nat)
    requires c.index < |c.ring| && j < |c.ring|
    ensures EntryMarked(c, Advance(c, k), Positions(c, k), j)
  {
    var m := 0;
    assert Advance(c, 0) == c && Positions(c, 0) == [];
    while m < k
      invariant m <= k
      invariant EntryMarked(c, Advance(c, m), Positions(c, m), j)
    {
      MarkedAdvance(c, m, j);
      m := m + 1;
    }
  }

  /** Entry j stays marked across one more failed send. */
  lemma MarkedAdvance(c: Cursor, m: nat, j: nat)
    requires c.index < |c.ring| && j < |c.ring|
    requires EntryMarked(c, Advance(c, m), Positions(c, m), j)
    ensures EntryMarked(c, Advance(c, m + 1), Positions(c, m + 1), j)
  {
    AdvanceStep(c, m);
    PositionsStep(c, m);
    MarkedStep(c, Advance(c, m), Positions(c, m), j);
  }

  /** One more failed send keeps entry j marked, with the position sent to added to the failed ones. */
  lemma MarkedStep(c: Cursor, a: Cursor, p: seq<nat>, j: nat)
    requires j < |c.ring| && a.index < |a.ring| && |a.ring| == |c.ring| && a.time >= c.time
    requires EntryMarked(c, a, p, j)
    ensures EntryMarked(c, Next(a), p + [a.index], j)
  {
    assert j in p + [a.index] <==> j in p || j == a.index;
    NextEntry(a, j);
  }

  /** The same, for every entry of the ring. */
  lemma AdvanceMarksFailures(c: Cursor, k: nat)
    requires c.index < |c.ring|
    ensures var a := Advance(c, k);
      var p := Positions(c, k);
      && (forall j :: 0 <= j < |c.ring| ==> (a.ring[j].ok <==> c.ring[j].ok && j !in p))
      && (forall j :: 0 <= j < |c.ring| && j in p ==> a.ring[j].failTime >= c.time)
      && (forall j :: 0 <= j < |c.ring| && j !in p ==> a.ring[j].failTime == c.ring[j].failTime)
      && (forall j :: 0 <= j < |c.ring| && j !in p && j != a.index ==> a.ring[j] == c.ring[j])
  {
    forall j | 0 <= j < |c.ring|
      ensures EntryMarked(c, Advance(c, k), Positions(c, k), j)
    {
      AdvanceEntry(c, k, j);
    }
  }

  /**
   * flush disables every url whose send failed, and only those: afterwards an
   * entry is unusable exactly when it was before or a send to it failed, the
   * failed ones carry a failure time from this flush, and an entry never sent
   * to is unchanged.
   */
  lemma RetryMarksFailures(ring: seq<UrlEntry>, now: int, outcomes: seq<bool>)
    requires |ring| > 0 && true in outcomes
    ensures var d := Retry(ring, now, outcomes);
      && (forall j :: 0 <= j < |ring| ==> (d.ring[j].ok <==> ring[j].ok && j !in Failed(d)))
      && (forall j :: 0 <= j < |ring| && j in Failed(d) ==> d.ring[j].failTime >= now)
      && (forall j :: 0 <= j < |ring| && j !in Failed(d) ==> d.ring[j].failTime == ring[j].failTime)
      && (forall j :: 0 <= j < |ring| && j !in d.tried ==> d.ring[j] == ring[j])
  {
    var c := Start(ring, now);
    var n := FirstSuccess(outcomes);
    var d := Retry(ring, now, outcomes);
    AdvanceMarksFailures(c, n);
    assert d.tried == Positions(c, n) + [Advance(c, n).index];
    assert Failed(d) == Positions(c, n);
  }

  /** Send outcomes of an endpoint that fails n times and then accepts. */
  function FailsThenAccepts(n: nat): (r: seq<bool>)
    ensures |r| == n + 1 && r[n] && true in r
    ensures forall k :: 0 <= k < n ==> !r[k]
  {
    seq(n, _ => false) + [true]
  }

  /** On a single-url ring every failed send is followed by exactly one sleep before the url is chosen again. */
  lemma {:induction false} SingleUrlAdvance(c: Cursor, k: nat)
    requires |c.ring| == 1 && c.index == 0
    ensures Advance(c, k).index == 0 && Advance(c, k).time == c.time + Backoff * k
  {
    if k > 0 {
      SingleUrlAdvance(c, k - 1);
      var a' := Advance(c, k - 1);
      var failed := Disable(a'.ring, 0, a'.time);
      assert FirstEligible(failed, a'.time) == None;
      assert FirstEligible(failed, a'.time + Backoff) == Some(0);
      assert Obtain(failed, a'.time + Backoff) == Pick(0, a'.time + Backoff, 0);
    }
  }

  /**
   * A single url that fails n times and then accepts, starting usable: flush
   * makes exactly n + 1 sends and sleeps once between consecutive sends (three
   * failures give four sends).
   */
  lemma SingleUrlRetry(e: UrlEntry, now: int, n: nat)
    requires Eligible(e, now)
    ensures var d := Retry([e], now, FailsThenAccepts(n));
      |d.tried| == n + 1 && d.times[n] == now + Backoff * n
  {
    assert FirstEligible([e], now) == Some(0);
    var c := Start([e], now);
    assert c.index == 0 && c.time == now;
    assert FirstSuccess(FailsThenAccepts(n)) == n;
    SingleUrlAdvance(c, n);
  }

  /** Failover: when the first url rejects and the next accepts, the batch goes to the next url at once, with no sleep. */
  lemma FailoverToNextUrl(ring: seq<UrlEntry>, now: int)
    requires |ring| >= 2 && ring[0].ok && ring[1].ok
    ensures Retry(ring, now, [false, true]).tried == [0, 1]
    ensures Retry(ring, now, [false, true]).times == [now, now]
  {
    assert FirstEligible(ring, now) == Some(0);
    var c := Start(ring, now);
    assert c.index == 0 && c.time == now;
    var failed := Disable(c.ring, 0, now);
    assert FirstEligible(failed, now) == Some(1);
    assert Advance(c, 1) == Next(c);
    assert FirstSuccess([false, true]) == 1;
  }
}
