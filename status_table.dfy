/**
 * `@recent_filebeat_status`: a Ruby hash from lib_detail (host and file of a
 * filebeat input) to the time and offset of the last event seen from it.
 * A Ruby hash iterates in insertion order, and the report lists the entries in
 * that order, so the table keeps its key order next to the map.
 */
module StatusTables {
  import opened Common

  /** `{:receive_time => ..., :offset => ...}`. */
  datatype FilebeatStatus = FilebeatStatus(receiveTime: int, offset: Option<string>)

  /** The hash's keys in insertion order, and its entries. */
  datatype StatusTable = StatusTable(order: seq<string>, entries: map<string, FilebeatStatus>)

  /** `{}`. */
  const EmptyTable: StatusTable := StatusTable([], map[])

  /** Each key once in the order, and exactly the keys of the map. */
  ghost predicate WellFormed(t: StatusTable)
  {
    && (forall i, j :: 0 <= i < j < |t.order| ==> t.order[i] != t.order[j])
    && (forall k :: k in t.entries <==> k in t.order)
  }

  /**
   * collect_filebeat_status: a new key gets a fresh status at the end of the
   * order; a known key has its status updated in place and keeps its position.
   * Either way the key's status is now (receive time, offset); no other entry changes.
   */
  function Collect(t: StatusTable, lib: string, offset: Option<string>, now: int): (r: StatusTable)
    requires WellFormed(t)
    ensures WellFormed(r)
    ensures lib in r.entries && r.entries[lib] == FilebeatStatus(now, offset)
    ensures forall k :: k in r.entries <==> k in t.entries || k == lib
    ensures forall k :: k in t.entries && k != lib ==> r.entries[k] == t.entries[k]
    ensures |r.order| >= |t.order| && r.order[..|t.order|] == t.order
    ensures lib in t.entries <==> |r.order| == |t.order|
  {
    if lib in t.entries then
      StatusTable(t.order, t.entries[lib := t.entries[lib].(offset := offset, receiveTime := now)])
    else
      StatusTable(t.order + [lib], t.entries[lib := FilebeatStatus(now, offset)])
  }

  /** Collecting a sequence of (lib_detail, offset) updates, in order, all at time `now`. */
  function CollectAll(t: StatusTable, updates: seq<(string, Option<string>)>, now: int): (r: StatusTable)
    requires WellFormed(t)
    ensures WellFormed(r)
  {
    if updates == [] then t
    else
      var last := updates[|updates| - 1];
      Collect(CollectAll(t, updates[..|updates| - 1], now), last.0, last.1, now)
  }

  /** The offset of the last update for `lib`, if there is one. */
  function LatestOffset(updates: seq<(string, Option<string>)>, lib: string): Option<Option<string>>
  {
    if updates == [] then None
    else if updates[|updates| - 1].0 == lib then Some(updates[|updates| - 1].1)
    else LatestOffset(updates[..|updates| - 1], lib)
  }

  /**
   * The table keeps the most recent status per file: after a run of updates,
   * a key that was updated holds the offset of its last update; any other key
   * is present exactly when it was before, with the status it had.
   */
  lemma {:induction false} CollectAllKeepsLatest(t: StatusTable, updates: seq<(string, Option<string>)>, now: int, lib: string)
    requires WellFormed(t)
    ensures var r := CollectAll(t, updates, now);
      && (LatestOffset(updates, lib).Some? ==> lib in r.entries && r.entries[lib] == FilebeatStatus(now, LatestOffset(updates, lib).value))
      && (LatestOffset(updates, lib).None? ==> (lib in r.entries <==> lib in t.entries))
      && (LatestOffset(updates, lib).None? && lib in t.entries ==> r.entries[lib] == t.entries[lib])
    decreases |updates|
  {
    if updates != [] {
      var init, last := updates[..|updates| - 1], updates[|updates| - 1];
      CollectAllKeepsLatest(t, init, now, lib);
      var mid := CollectAll(t, init, now);
      assert CollectAll(t, updates, now) == Collect(mid, last.0, last.1, now);
      if last.0 != lib {
        assert LatestOffset(updates, lib) == LatestOffset(init, lib);
      }
    }
  }

  /** Entries already in the table keep their place at the head of the order; new files are appended. */
  lemma CollectAllKeepsOrder(t: StatusTable, updates: seq<(string, Option<string>)>, now: int)
    requires WellFormed(t)
    ensures var r := CollectAll(t, updates, now);
      |r.order| >= |t.order| && r.order[..|t.order|] == t.order
  {
    assert updates[..0] == [];
    var m := 0;
    while m < |updates|
      invariant m <= |updates|
      invariant var r := CollectAll(t, updates[..m], now);
        |r.order| >= |t.order| && r.order[..|t.order|] == t.order
    {
      var r := CollectAll(t, updates[..m], now);
      CollectAllStep(t, updates, m, now);
      PrefixOfPrefix(CollectAll(t, updates[..m + 1], now).order, r.order, t.order);
      m := m + 1;
    }
    assert updates[..|updates|] == updates;
  }

  /** Collecting one more update of the run. */
  lemma CollectAllStep(t: StatusTable, updates: seq<(string, Option<string>)>, m: nat, now: int)
    requires WellFormed(t) && m < |updates|
    ensures CollectAll(t, updates[..m + 1], now)
      == Collect(CollectAll(t, updates[..m], now), updates[m].0, updates[m].1, now)
  {
    assert updates[..m + 1][..m] == updates[..m];
  }

  /** A prefix of a prefix is a prefix. */
  lemma PrefixOfPrefix(a: seq<string>, b: seq<string>, c: seq<string>)
    requires |c| <= |b| <= |a| && a[..|b|] == b && b[..|c|] == c
    ensures a[..|c|] == c
  {
    assert a[..|c|] == a[..|b|][..|c|];
  }

  /** The table's entries in iteration order, as format_filebeat_report_and_clean lists them. */
  function Entries(t: StatusTable): (r: seq<(string, FilebeatStatus)>)
    requires WellFormed(t)
    ensures |r| == |t.order| == |t.entries|
    ensures forall k :: 0 <= k < |r| ==> r[k].0 == t.order[k] && r[k].1 == t.entries[t.order[k]]
  {
    OrderSize(t.order, t.entries);
    seq(|t.order|, k requires 0 <= k < |t.order| => (t.order[k], t.entries[t.order[k]]))
  }

  /** A list of distinct keys that are exactly the map's keys is as long as the map. */
  lemma {:induction false} OrderSize(order: seq<string>, m: map<string, FilebeatStatus>)
    requires forall i, j :: 0 <= i < j < |order| ==> order[i] != order[j]
    requires forall k :: k in m <==> k in order
    ensures |order| == |m|
    decreases |order|
  {
    if order == [] {
      assert m.Keys == {};
    } else {
      var last := order[|order| - 1];
      var init := order[..|order| - 1];
      assert last !in init;
      var m' := map k | k in m && k != last :: m[k];
      assert forall k :: k in m' <==> k in init;
      OrderSize(init, m');
      assert m.Keys == m'.Keys + {last};
    }
  }
}
