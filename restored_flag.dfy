/**
 * obtain_url as it is evidently meant at line 314: when it takes an entry
 * through the cooldown it sets the usable flag back (`:ok?`), where the code
 * writes the stray `:ok` key. The flush loop built on that reading is defined
 * here beside the one built on the code, and the two are proved to send to the
 * same positions at the same times, flush after flush.
 */
module RestoredFlag {
  import opened Common
  import opened UrlRing
  import opened Delivery

  /** flush's first obtain_url, setting the flag back on the entry it takes. */
  function RestoredStart(ring: seq<UrlEntry>, now: int): (c: Cursor)
    requires |ring| > 0
    ensures c.index < |c.ring| && |c.ring| == |ring|
  {
    var p := Obtain(ring, now);
    Cursor(Restore(ring, p.index), p.index, p.time)
  }

  /** One failed send: disable_url, then obtain_url setting the flag back. */
  function RestoredNext(c: Cursor): (n: Cursor)
    requires c.index < |c.ring|
    ensures n.index < |n.ring| && |n.ring| == |c.ring|
  {
    var failed := Disable(c.ring, c.index, c.time);
    var p := Obtain(failed, c.time);
    Cursor(Restore(failed, p.index), p.index, p.time)
  }

  /** The cursor after k failed sends. */
  function RestoredAdvance(c: Cursor, k: nat): (a: Cursor)
    requires c.index < |c.ring|
    ensures a.index < |a.ring| && |a.ring| == |c.ring|
  {
    if k == 0 then c else RestoredNext(RestoredAdvance(c, k - 1))
  }

  /** The positions of the first k sends. */
  function RestoredPositions(c: Cursor, k: nat): (r: seq<nat>)
    requires c.index < |c.ring|
    ensures |r| == k
  {
    if k == 0 then [] else RestoredPositions(c, k - 1) + [RestoredAdvance(c, k - 1).index]
  }

  /** The times at which the positions of the first k sends were chosen. */
  function RestoredTimes(c: Cursor, k: nat): (r: seq<int>)
    requires c.index < |c.ring|
    ensures |r| == k
  {
    if k == 0 then [] else RestoredTimes(c, k - 1) + [RestoredAdvance(c, k - 1).time]
  }

  /** The retry loop of flush with the flag set back. */
  function RestoredRetry(ring: seq<UrlEntry>, now: int, outcomes: seq<bool>): (d: Run)
    requires |ring| > 0 && true in outcomes
    ensures |d.tried| == |d.times| == FirstSuccess(outcomes) + 1 && |d.ring| == |ring|
  {
    var c := RestoredStart(ring, now);
    var n := FirstSuccess(outcomes);
    Run(RestoredAdvance(c, n).ring, RestoredPositions(c, n + 1), RestoredTimes(c, n + 1))
  }

  /**
   * The ring as written, `w`, against the ring as meant, `r`, from time `t`
   * on: the same urls and failure times, and wherever the usable flags differ,
   * the code left the flag false on an entry whose cooldown had run out by `t`.
   */
  ghost predicate Agree(w: seq<UrlEntry>, r: seq<UrlEntry>, t: int)
  {
    && |w| == |r|
    && forall j :: 0 <= j < |w| ==>
         && w[j].url == r[j].url && w[j].failTime == r[j].failTime
         && (w[j].ok == r[j].ok || (!w[j].ok && r[j].ok && t - w[j].failTime > Cooldown))
  }

  /** Two cursors on the same position, chosen at the same time, on rings that agree from that time on. */
  ghost predicate AgreeAt(a: Cursor, b: Cursor)
  {
    a.index == b.index && a.time == b.time && Agree(a.ring, b.ring, a.time)
  }

  /** From time t on, rings that agree are usable at the same times, so every scan picks the same entry. */
  lemma AgreeSameScan(w: seq<UrlEntry>, r: seq<UrlEntry>, t: int, now: int)
    requires Agree(w, r, t) && t <= now
    ensures FirstEligible(w, now) == FirstEligible(r, now)
  {
    forall j | 0 <= j < |w|
      ensures Eligible(w[j], now) <==> Eligible(r[j], now)
    {
    }
    SameEligibilitySameScan(w, r, now, 0);
  }

  /** From time t on, obtain_url on rings that agree takes the same entry after the same sleeps. */
  lemma {:induction false} AgreeSameObtain(w: seq<UrlEntry>, r: seq<UrlEntry>, t: int, now: int)
    requires |w| > 0 && Agree(w, r, t) && t <= now
    ensures Obtain(w, now) == Obtain(r, now)
    decreases w[0].failTime + Cooldown - now
  {
    AgreeSameScan(w, r, t, now);
    if FirstEligible(w, now).None? {
      AgreeSameObtain(w, r, t, now + Backoff);
    }
  }

  /** disable_url on the same entry at the same time keeps two rings in agreement. */
  lemma AgreeDisable(w: seq<UrlEntry>, r: seq<UrlEntry>, t: int, i: nat, now: int)
    requires Agree(w, r, t) && i < |w|
    ensures Agree(Disable(w, i, now), Disable(r, i, now), t)
  {
  }

  /**
   * Taking entry i at time `now`, where it is usable: as written the flag
   * stays, as meant it is set back, and the rings agree from `now` on.
   */
  lemma AgreePick(w: seq<UrlEntry>, r: seq<UrlEntry>, t: int, i: nat, now: int)
    requires Agree(w, r, t) && t <= now && i < |w| && Eligible(w[i], now)
    ensures Agree(Revive(w, i), Restore(r, i), now)
  {
    var w', r' := Revive(w, i), Restore(r, i);
    forall j | 0 <= j < |w|
      ensures w'[j].url == r'[j].url && w'[j].failTime == r'[j].failTime
      ensures w'[j].ok == r'[j].ok || (!w'[j].ok && r'[j].ok && now - w'[j].failTime > Cooldown)
    {
    }
  }

  /** flush's first obtain_url, as written and as meant, from rings that agree. */
  lemma AgreeStart(w: seq<UrlEntry>, r: seq<UrlEntry>, t: int, now: int)
    requires |w| > 0 && Agree(w, r, t) && t <= now
    ensures AgreeAt(Start(w, now), RestoredStart(r, now))
  {
    AgreeSameObtain(w, r, t, now);
    var p := Obtain(w, now);
    AgreePick(w, r, t, p.index, p.time);
  }

  /** One failed send, as written and as meant, from cursors that agree. */
  lemma AgreeNext(a: Cursor, b: Cursor)
    requires a.index < |a.ring| && AgreeAt(a, b)
    ensures AgreeAt(Next(a), RestoredNext(b))
  {
    var fw := Disable(a.ring, a.index, a.time);
    var fr := Disable(b.ring, b.index, b.time);
    AgreeDisable(a.ring, b.ring, a.time, a.index, a.time);
    AgreeSameObtain(fw, fr, a.time, a.time);
    var p := Obtain(fw, a.time);
    AgreePick(fw, fr, a.time, p.index, p.time);
  }

  /** One more failed send, as meant: one more step, one more position, one more time. */
  lemma RestoredStep(c: Cursor, k: nat)
    requires c.index < |c.ring|
    ensures RestoredAdvance(c, k + 1) == RestoredNext(RestoredAdvance(c, k))
    ensures RestoredPositions(c, k + 1) == RestoredPositions(c, k) + [RestoredAdvance(c, k).index]
    ensures RestoredTimes(c, k + 1) == RestoredTimes(c, k) + [RestoredAdvance(c, k).time]
  {
  }

  /** After k failed sends the cursors still agree, and the sends so far went to the same positions at the same times. */
  lemma AgreeAdvance(a: Cursor, b: Cursor, k: nat)
    requires a.index < |a.ring| && AgreeAt(a, b)
    ensures AgreeAt(Advance(a, k), RestoredAdvance(b, k))
    ensures Positions(a, k) == RestoredPositions(b, k) && Times(a, k) == RestoredTimes(b, k)
  {
    var m := 0;
    assert Advance(a, 0) == a && RestoredAdvance(b, 0) == b;
    assert Positions(a, 0) == [] == RestoredPositions(b, 0);
    assert Times(a, 0) == [] == RestoredTimes(b, 0);
    while m < k
      invariant m <= k
      invariant AgreeAt(Advance(a, m), RestoredAdvance(b, m))
      invariant Positions(a, m) == RestoredPositions(b, m) && Times(a, m) == RestoredTimes(b, m)
    {
      AgreeNext(Advance(a, m), RestoredAdvance(b, m));
      AdvanceStep(a, m);
      PositionsStep(a, m);
      TimesStep(a, m);
      RestoredStep(b, m);
      m := m + 1;
    }
  }

  /**
   * The slip at line 314 is harmless. From rings that agree (a ring agrees
   * with itself, as every buffer's ring does when it is built), a flush as
   * written and a flush as meant send to the same positions at the same
   * times, and leave rings that agree from the time of the last send on. As
   * the next flush of the buffer starts no earlier than that, the same holds
   * for it, and for every flush after it.
   */
  lemma SlipIsHarmless(w: seq<UrlEntry>, r: seq<UrlEntry>, t: int, now: int, outcomes: seq<bool>)
    requires |w| > 0 && true in outcomes && Agree(w, r, t) && t <= now
    ensures var d := Retry(w, now, outcomes);
      var e := RestoredRetry(r, now, outcomes);
      && d.tried == e.tried && d.times == e.times
      && Agree(d.ring, e.ring, d.times[|d.times| - 1])
  {
    var a, b := Start(w, now), RestoredStart(r, now);
    var n := FirstSuccess(outcomes);
    AgreeStart(w, r, t, now);
    AgreeAdvance(a, b, n);
    PositionsStep(a, n);
    TimesStep(a, n);
    RestoredStep(b, n);
  }

  /** Every ring agrees with itself, at any time: where the model starts, the code and its intent coincide. */
  lemma AgreeWithItself(ring: seq<UrlEntry>, t: int)
    ensures Agree(ring, ring, t)
  {
  }
}
