/**
  The storage side of delivery: rows are keyed by (node, window start, cgroup) and
  of several rows with one key the table keeps one with the greatest window end.
  Batches may arrive any number of times and in any order.
 */
module Storage {
  import opened Rollup
  import opened Aggregator

  datatype StoredRow = StoredRow(node: string, windowStart: nat, windowEnd: nat, cgroup: nat, stats: Stats)

  datatype Key = Key(node: string, windowStart: nat, cgroup: nat)

  function KeyOf(r: StoredRow): Key { Key(r.node, r.windowStart, r.cgroup) }

  function Denormalize(b: Batch, r: Row): StoredRow {
    StoredRow(b.node, b.windowStart, b.windowEnd, r.cgroup, r.stats)
  }

  function RowsOfBatch(b: Batch): (rs: seq<StoredRow>)
    ensures |rs| == |b.rows|
    ensures forall i | 0 <= i < |rs| :: rs[i] == Denormalize(b, b.rows[i])
  {
    seq(|b.rows|, i requires 0 <= i < |b.rows| => Denormalize(b, b.rows[i]))
  }

  function AllRows(bs: seq<Batch>): seq<StoredRow> {
    if bs == [] then [] else AllRows(bs[..|bs| - 1]) + RowsOfBatch(bs[|bs| - 1])
  }

  /** `table` is a fully merged table of the inserted rows. */
  ghost predicate Merged(inserted: seq<StoredRow>, table: map<Key, StoredRow>) {
    && (forall r | r in inserted :: KeyOf(r) in table && r.windowEnd <= table[KeyOf(r)].windowEnd)
    && (forall k | k in table :: table[k] in inserted && KeyOf(table[k]) == k)
  }

  /** Whatever was inserted, there is such a table. */
  lemma {:induction false} SomeTable(inserted: seq<StoredRow>) returns (table: map<Key, StoredRow>)
    ensures Merged(inserted, table)
  {
    if inserted == [] {
      table := map[];
    } else {
      var n := |inserted| - 1;
      var r := inserted[n];
      var older := SomeTable(inserted[..n]);
      assert inserted == inserted[..n] + [r];
      if KeyOf(r) in older && r.windowEnd < older[KeyOf(r)].windowEnd {
        table := older;
      } else {
        table := older[KeyOf(r) := r];
      }
    }
  }

  // ---- keys identify rows -------------------------------------------------

  ghost predicate DistinctKeys(rs: seq<StoredRow>) {
    forall i, j | 0 <= i < j < |rs| :: KeyOf(rs[i]) != KeyOf(rs[j])
  }

  ghost predicate ShareCgroup(v: seq<Event>, w: seq<Event>) {
    exists c :: c in Fold(v) && c in Fold(w)
  }

  /** Two batches of one node whose windows were opened at equal clock readings and saw a common cgroup. */
  ghost predicate Clash(h: History, i: nat, j: nat)
    requires Dated(h) && Faithful(h) && i < |h.emitted| && j < |h.emitted|
  {
    assert DatedAt(h, i) && DatedAt(h, j);
    && h.emitted[i].node == h.emitted[j].node
    && h.readings[h.openedAt[i]] == h.readings[h.openedAt[j]]
    && ShareCgroup(h.windows[i], h.windows[j])
  }

  ghost predicate NoClash(h: History)
    requires Dated(h) && Faithful(h)
  {
    forall i, j | 0 <= i < j < |h.emitted| :: !Clash(h, i, j)
  }

  /** The history without its last batch. */
  ghost function Earlier(h: History): History
    requires |h.windows| == |h.emitted| == |h.openedAt| > 0
  {
    var n := |h.emitted| - 1;
    h.(windows := h.windows[..n], emitted := h.emitted[..n], openedAt := h.openedAt[..n])
  }

  lemma EarlierIsHistory(h: History)
    requires Dated(h) && Faithful(h) && h.emitted != []
    ensures Dated(Earlier(h)) && Faithful(Earlier(h))
  {
    var n := |h.emitted| - 1;
    forall i | 0 <= i < n ensures DatedAt(Earlier(h), i) && ListedAt(h.windows[..n], h.emitted[..n], i) {
      assert DatedAt(h, i) && ListedAt(h.windows, h.emitted, i);
    }
    forall i, j | 0 <= i < j < n ensures OpenedBefore(h.openedAt[..n], i, j) {
      assert OpenedBefore(h.openedAt, i, j);
    }
  }

  lemma EarlierClash(h: History)
    requires Dated(h) && Faithful(h) && h.emitted != []
    requires Dated(Earlier(h)) && Faithful(Earlier(h))
    ensures var n := |h.emitted| - 1;
            NoClash(h) <==> NoClash(Earlier(h)) && forall i | 0 <= i < n :: !Clash(h, i, n)
  {
    var n := |h.emitted| - 1;
    forall i, j | 0 <= i < j < n ensures Clash(h, i, j) <==> Clash(Earlier(h), i, j) {
    }
  }

  lemma RowListed(b: Batch, m: Buffer, r: StoredRow)
    requires Lists(b.rows, m) && r in RowsOfBatch(b)
    ensures r.node == b.node && r.windowStart == b.windowStart && r.cgroup in m
  {
  }

  lemma CgroupHasRow(b: Batch, m: Buffer, c: nat) returns (r: StoredRow)
    requires Lists(b.rows, m) && c in m
    ensures r in RowsOfBatch(b) && KeyOf(r) == Key(b.node, b.windowStart, c)
  {
    var i :| 0 <= i < |b.rows| && b.rows[i].cgroup == c;
    r := RowsOfBatch(b)[i];
  }

  /** Rows of two batches share a key exactly when the batches clash. */
  lemma KeysMeetIffClash(h: History, i: nat, j: nat)
    requires Dated(h) && Faithful(h) && i < |h.emitted| && j < |h.emitted|
    ensures Clash(h, i, j) <==>
            exists a, b :: a in RowsOfBatch(h.emitted[i]) && b in RowsOfBatch(h.emitted[j]) && KeyOf(a) == KeyOf(b)
  {
    assert ListedAt(h.windows, h.emitted, i) && ListedAt(h.windows, h.emitted, j);
    assert DatedAt(h, i) && DatedAt(h, j);
    var v, w := Fold(h.windows[i]), Fold(h.windows[j]);
    if Clash(h, i, j) {
      var c :| c in v && c in w;
      var a := CgroupHasRow(h.emitted[i], v, c);
      var b := CgroupHasRow(h.emitted[j], w, c);
    }
    forall a, b | a in RowsOfBatch(h.emitted[i]) && b in RowsOfBatch(h.emitted[j]) && KeyOf(a) == KeyOf(b)
      ensures Clash(h, i, j)
    {
      RowListed(h.emitted[i], v, a);
      RowListed(h.emitted[j], w, b);
    }
  }

  ghost predicate Apart(rs: seq<StoredRow>, ts: seq<StoredRow>) {
    forall a, b | a in rs && b in ts :: KeyOf(a) != KeyOf(b)
  }

  lemma DistinctConcat(rs: seq<StoredRow>, ts: seq<StoredRow>)
    ensures DistinctKeys(rs + ts) <==> DistinctKeys(rs) && DistinctKeys(ts) && Apart(rs, ts)
  {
    var all := rs + ts;
    if DistinctKeys(all) {
      forall i, j | 0 <= i < j < |rs| ensures KeyOf(rs[i]) != KeyOf(rs[j]) {
        assert KeyOf(all[i]) != KeyOf(all[j]);
      }
      forall i, j | 0 <= i < j < |ts| ensures KeyOf(ts[i]) != KeyOf(ts[j]) {
        assert KeyOf(all[|rs| + i]) != KeyOf(all[|rs| + j]);
      }
      forall a, b | a in rs && b in ts ensures KeyOf(a) != KeyOf(b) {
        var i :| 0 <= i < |rs| && rs[i] == a;
        var j :| 0 <= j < |ts| && ts[j] == b;
        assert KeyOf(all[i]) != KeyOf(all[|rs| + j]);
      }
    }
    if DistinctKeys(rs) && DistinctKeys(ts) && Apart(rs, ts) {
      forall i, j | 0 <= i < j < |all| ensures KeyOf(all[i]) != KeyOf(all[j]) {
        if i < |rs| <= j {
          assert all[i] in rs && all[j] in ts;
        }
      }
    }
  }

  lemma ApartFromLast(h: History)
    requires Dated(h) && Faithful(h) && h.emitted != []
    ensures var n := |h.emitted| - 1;
            Apart(AllRows(h.emitted[..n]), RowsOfBatch(h.emitted[n])) <==> forall i | 0 <= i < n :: !Clash(h, i, n)
  {
    var n := |h.emitted| - 1;
    var older, last := AllRows(h.emitted[..n]), RowsOfBatch(h.emitted[n]);
    forall i | 0 <= i < n && Clash(h, i, n) ensures !Apart(older, last) {
      KeysMeetIffClash(h, i, n);
      var a, b :| a in RowsOfBatch(h.emitted[i]) && b in last && KeyOf(a) == KeyOf(b);
      assert h.emitted[..n][i] in h.emitted[..n];
      RowOfSomeBatch(h.emitted[..n], a);
    }
    forall a, b | a in older && b in last && KeyOf(a) == KeyOf(b) ensures exists i | 0 <= i < n :: Clash(h, i, n) {
      RowOfSomeBatch(h.emitted[..n], a);
      var i :| 0 <= i < n && a in RowsOfBatch(h.emitted[i]);
      KeysMeetIffClash(h, i, n);
    }
  }

  /**
    When keys identify rows, exactly: no two windows of a node that were opened at
    equal clock readings saw the same cgroup.
   */
  lemma {:induction false} KeysAreUniqueIff(h: History)
    requires Dated(h) && Faithful(h)
    ensures DistinctKeys(AllRows(h.emitted)) <==> NoClash(h)
    decreases |h.emitted|
  {
    if h.emitted == [] {
    } else {
      var n := |h.emitted| - 1;
      EarlierIsHistory(h);
      KeysAreUniqueIff(Earlier(h));
      EarlierClash(h);
      ApartFromLast(h);
      assert ListedAt(h.windows, h.emitted, n);
      DistinctConcat(AllRows(h.emitted[..n]), RowsOfBatch(h.emitted[n]));
    }
  }

  /** With every clock reading later than the one before, no two rows of a node share a key. */
  lemma KeysAreUnique(h: History)
    requires Dated(h) && Faithful(h) && Advancing(h.readings)
    ensures DistinctKeys(AllRows(h.emitted))
  {
    forall i, j | 0 <= i < j < |h.emitted| ensures !Clash(h, i, j) {
      assert DatedAt(h, i) && DatedAt(h, j) && OpenedBefore(h.openedAt, i, j);
      assert Later(h.readings, h.openedAt[i], h.openedAt[j]);
    }
    KeysAreUniqueIff(h);
  }

  lemma SameKeySameRow(rs: seq<StoredRow>, a: StoredRow, b: StoredRow)
    requires DistinctKeys(rs) && a in rs && b in rs && KeyOf(a) == KeyOf(b)
    ensures a == b
  {
    var i :| 0 <= i < |rs| && rs[i] == a;
    var j :| 0 <= j < |rs| && rs[j] == b;
  }

  // ---- replays do not matter ----------------------------------------------

  lemma {:induction false} RowOfSomeBatch(bs: seq<Batch>, r: StoredRow)
    ensures r in AllRows(bs) <==> exists b | b in bs :: r in RowsOfBatch(b)
  {
    if bs == [] {
    } else {
      var n := |bs| - 1;
      RowOfSomeBatch(bs[..n], r);
      assert bs == bs[..n] + [bs[n]];
    }
  }

  /** Deliveries are whole batches, each emitted one at least once. */
  ghost predicate Replays(delivered: seq<Batch>, emitted: seq<Batch>) {
    (forall b :: b in delivered <==> b in emitted)
  }

  lemma SameRowsInserted(delivered: seq<Batch>, emitted: seq<Batch>, r: StoredRow)
    requires Replays(delivered, emitted)
    ensures r in AllRows(delivered) <==> r in AllRows(emitted)
  {
    RowOfSomeBatch(delivered, r);
    RowOfSomeBatch(emitted, r);
  }

  /** The table one gets from delivering everything exactly once. */
  ghost predicate Holds(table: map<Key, StoredRow>, rs: seq<StoredRow>) {
    && (forall r | r in rs :: KeyOf(r) in table && table[KeyOf(r)] == r)
    && (forall k | k in table :: table[k] in rs && KeyOf(table[k]) == k)
  }

  /**
    Exactly-once rows from at-least-once delivery: however often and in whatever
    order whole batches are replayed, the merged table holds exactly the rows that
    were emitted, each once.
   */
  lemma ExactlyOnceRows(h: History, delivered: seq<Batch>, table: map<Key, StoredRow>)
    requires Faithful(h) && Dated(h) && Advancing(h.readings) && Replays(delivered, h.emitted)
    requires Merged(AllRows(delivered), table)
    ensures Holds(table, AllRows(h.emitted))
  {
    var rows := AllRows(h.emitted);
    KeysAreUnique(h);
    forall r | r in rows ensures KeyOf(r) in table && table[KeyOf(r)] == r {
      SameRowsInserted(delivered, h.emitted, r);
      SameRowsInserted(delivered, h.emitted, table[KeyOf(r)]);
      SameKeySameRow(rows, table[KeyOf(r)], r);
    }
    forall k | k in table ensures table[k] in rows && KeyOf(table[k]) == k {
      SameRowsInserted(delivered, h.emitted, table[k]);
    }
  }

  // ---- and neither do they for sums ---------------------------------------

  function CpuOf(r: StoredRow, c: nat): nat { if r.cgroup == c then r.stats.cpuUsec else 0 }

  function ToSet(rs: seq<StoredRow>): set<StoredRow> { set r | r in rs }

  /** The CPU of a cgroup over a set of rows. */
  ghost function SumSet(s: set<StoredRow>, c: nat): nat {
    if s == {} then 0 else var r :| r in s; CpuOf(r, c) + SumSet(s - {r}, c)
  }

  lemma {:induction false} SumSetRemove(s: set<StoredRow>, r: StoredRow, c: nat)
    requires r in s
    ensures SumSet(s, c) == CpuOf(r, c) + SumSet(s - {r}, c)
    decreases s
  {
    var x :| x in s && SumSet(s, c) == CpuOf(x, c) + SumSet(s - {x}, c);
    if x == r {
    } else {
      SumSetRemove(s - {x}, r, c);
      assert s - {x} - {r} == s - {r} - {x};
      SumSetRemove(s - {r}, x, c);
    }
  }

  function SumSeq(rs: seq<StoredRow>, c: nat): nat {
    if rs == [] then 0 else SumSeq(rs[..|rs| - 1], c) + CpuOf(rs[|rs| - 1], c)
  }

  lemma {:induction false} SumSeqIsSumSet(rs: seq<StoredRow>, c: nat)
    requires DistinctKeys(rs)
    ensures SumSeq(rs, c) == SumSet(ToSet(rs), c)
  {
    if rs != [] {
      var n := |rs| - 1;
      var all, some := ToSet(rs), ToSet(rs[..n]);
      SumSeqIsSumSet(rs[..n], c);
      assert rs == rs[..n] + [rs[n]];
      assert all == some + {rs[n]};
      assert rs[n] !in some;
      SumSetRemove(all, rs[n], c);
      assert all - {rs[n]} == some;
    } else {
      assert ToSet(rs) == {};
    }
  }

  lemma {:induction false} SumSeqConcat(a: seq<StoredRow>, b: seq<StoredRow>, c: nat)
    ensures SumSeq(a + b, c) == SumSeq(a, c) + SumSeq(b, c)
    decreases |b|
  {
    if b == [] {
      assert a + b == a;
    } else {
      SumSeqConcat(a, b[..|b| - 1], c);
      assert (a + b)[..|a + b| - 1] == a + b[..|b| - 1];
    }
  }

  lemma {:induction false} SumOfRows(b: Batch, k: nat, c: nat)
    requires k <= |b.rows|
    ensures SumSeq(RowsOfBatch(b)[..k], c) == RowCpu(b.rows[..k], c)
  {
    if k == 0 {
    } else {
      SumOfRows(b, k - 1, c);
      assert RowsOfBatch(b)[..k][..k - 1] == RowsOfBatch(b)[..k - 1] && b.rows[..k][..k - 1] == b.rows[..k - 1];
    }
  }

  lemma {:induction false} SumOfBatches(bs: seq<Batch>, c: nat)
    ensures SumSeq(AllRows(bs), c) == EmittedCpu(bs, c)
  {
    if bs == [] {
    } else {
      var b := bs[|bs| - 1];
      SumOfBatches(bs[..|bs| - 1], c);
      SumSeqConcat(AllRows(bs[..|bs| - 1]), RowsOfBatch(b), c);
      SumOfRows(b, |b.rows|, c);
      assert RowsOfBatch(b)[..|b.rows|] == RowsOfBatch(b) && b.rows[..|b.rows|] == b.rows;
    }
  }

  /**
    Exactly-once totals: summing a cgroup's CPU over the merged table gives what the
    agent emitted for it, independently of replays; below saturation that is the CPU
    of all events in the closed windows.
   */
  lemma ExactlyOnceTotals(h: History, delivered: seq<Batch>, table: map<Key, StoredRow>, c: nat)
    requires Faithful(h) && Dated(h) && Advancing(h.readings) && Replays(delivered, h.emitted)
    requires Merged(AllRows(delivered), table)
    ensures SumSet(table.Values, c) == EmittedCpu(h.emitted, c)
    ensures Unsaturated(h.windows, c) ==> SumSet(table.Values, c) == CpuSum(Concat(h.windows), c)
  {
    ExactlyOnceRows(h, delivered, table);
    KeysAreUnique(h);
    var rows := AllRows(h.emitted);
    assert table.Values == ToSet(rows) by {
      forall r | r in rows ensures r in table.Values { assert table[KeyOf(r)] == r; }
    }
    SumSeqIsSumSet(rows, c);
    SumOfBatches(h.emitted, c);
    if Unsaturated(h.windows, c) {
      EmittedTotals(h.windows, h.emitted, c);
    }
  }

  // ---- when the clock does not advance ------------------------------------

  function KeysOf(rs: seq<StoredRow>): set<Key> { set r | r in rs :: KeyOf(r) }

  lemma {:induction false} CountKeys(rs: seq<StoredRow>)
    ensures |KeysOf(rs)| <= |rs|
    ensures |KeysOf(rs)| == |rs| <==> DistinctKeys(rs)
  {
    if rs == [] {
    } else {
      var n := |rs| - 1;
      var k, some := KeyOf(rs[n]), KeysOf(rs[..n]);
      CountKeys(rs[..n]);
      assert rs == rs[..n] + [rs[n]];
      DistinctConcat(rs[..n], [rs[n]]);
      assert KeysOf(rs) == some + {k};
      assert k in some <==> !Apart(rs[..n], [rs[n]]);
    }
  }

  /**
    When the table loses no row, exactly, whatever the clock did and however batches
    were replayed: it has as many rows as were emitted if and only if no two windows
    of a node opened at equal clock readings saw the same cgroup.
   */
  lemma NoRowLostIff(h: History, delivered: seq<Batch>, table: map<Key, StoredRow>)
    requires Faithful(h) && Dated(h) && Replays(delivered, h.emitted)
    requires Merged(AllRows(delivered), table)
    ensures |table| <= |AllRows(h.emitted)|
    ensures |table| == |AllRows(h.emitted)| <==> NoClash(h)
  {
    var rows := AllRows(h.emitted);
    forall r ensures r in AllRows(delivered) <==> r in rows {
      SameRowsInserted(delivered, h.emitted, r);
    }
    assert table.Keys == KeysOf(rows) by {
      forall k | k in table ensures k in KeysOf(rows) { assert table[k] in rows; }
    }
    CountKeys(rows);
    KeysAreUniqueIff(h);
  }

  lemma FoldOfOne(e: Event)
    requires !e.Unknown?
    ensures Fold([e]) == Ingest(map[], e) && |Fold([e])| == 1 && e.cgroup in Fold([e])
  {
    assert [e][..0] == [];
    assert Fold([e]).Keys == {e.cgroup};
  }

  /** A window with one event, flushed. */
  method OneEventWindow(agg: Aggregator, e: Event, node: string, now: nat)
    requires agg.Valid() && agg.maxKeys > 1 && agg.h.window == [] && !e.Unknown?
    modifies agg
    ensures agg.Valid() && agg.h.window == []
    ensures agg.h.windows == old(agg.h.windows) + [[e]] && agg.h.readings == old(agg.h.readings) + [now]
    ensures agg.h.openedAt == old(agg.h.openedAt) + [|old(agg.h.readings)| - 1]
    ensures |agg.h.emitted| == |old(agg.h.emitted)| + 1 && agg.h.emitted[..|old(agg.h.emitted)|] == old(agg.h.emitted)
    ensures agg.h.emitted[|old(agg.h.emitted)|].node == node
  {
    FoldOfOne(e);
    var none := agg.OnEvent(e, node, now);
    var batch := agg.Flush(node, now);
  }

  lemma StalledClash(h: History, e: Event)
    requires Dated(h) && Faithful(h) && !e.Unknown? && |h.emitted| == 2 && h.windows == [[e], [e]]
    requires h.openedAt == [0, 1] && |h.readings| == 3
    requires h.readings[0] == h.readings[1] && h.emitted[0].node == h.emitted[1].node
    ensures Clash(h, 0, 1)
  {
    FoldOfOne(e);
  }

  /**
    The clock that stands still: two windows flushed at one reading, each with the
    same cgroup. Whatever the table keeps, it keeps fewer rows than were emitted.
   */
  method StalledClockLosesRow(node: string, e: Event, now: nat) returns (agg: Aggregator)
    requires !e.Unknown?
    ensures fresh(agg) && agg.Valid() && agg.h.readings == [now, now, now] && agg.h.windows == [[e], [e]]
    ensures forall table | Merged(AllRows(agg.h.emitted), table) :: |table| < |AllRows(agg.h.emitted)|
  {
    agg := new Aggregator(2, now);
    OneEventWindow(agg, e, node, now);
    OneEventWindow(agg, e, node, now);
    StalledClash(agg.h, e);
    forall table | Merged(AllRows(agg.h.emitted), table) ensures |table| < |AllRows(agg.h.emitted)| {
      NoRowLostIff(agg.h, agg.h.emitted, table);
    }
  }
}
