/**
  The double-buffered aggregator. Its buffers must equal a plain fold over the
  events of the open window; what it emitted must equal the folds over the closed
  ones. The ghost history keeps the windows so that whole runs can be judged.
 */
module Aggregator {
  import opened Options
  import opened Rollup

  datatype Row = Row(cgroup: nat, stats: Stats)

  datatype Batch = Batch(windowStart: nat, windowEnd: nat, node: string, rows: seq<Row>)

  /** `rows` lists the buffer, each cgroup once, in some order. */
  ghost predicate Lists(rows: seq<Row>, m: Buffer) {
    && (forall i, j | 0 <= i < j < |rows| :: rows[i].cgroup != rows[j].cgroup)
    && (forall i | 0 <= i < |rows| :: rows[i].cgroup in m && rows[i].stats == m[rows[i].cgroup])
    && (forall c | c in m :: exists i | 0 <= i < |rows| :: rows[i].cgroup == c)
  }

  /**
    The closed windows with the batches emitted for them, the open window, the clock
    readings that opened and closed windows, and for each batch the index of the
    reading that opened its window.
   */
  datatype History = History(windows: seq<seq<Event>>, emitted: seq<Batch>, window: seq<Event>, readings: seq<nat>,
                             openedAt: seq<nat>)

  /** Batch `i` spans one clock reading and the next. */
  ghost predicate DatedAt(h: History, i: nat)
    requires i < |h.emitted| == |h.openedAt|
  {
    && h.openedAt[i] + 1 < |h.readings|
    && h.emitted[i].windowStart == h.readings[h.openedAt[i]] && h.emitted[i].windowEnd == h.readings[h.openedAt[i] + 1]
  }

  predicate OpenedBefore(openedAt: seq<nat>, i: nat, j: nat)
    requires i < |openedAt| && j < |openedAt|
  {
    openedAt[i] < openedAt[j]
  }

  /** Every batch spans two consecutive clock readings, and no two batches the same ones. */
  ghost predicate Dated(h: History) {
    && |h.openedAt| == |h.emitted| && h.readings != []
    && (forall i | 0 <= i < |h.emitted| :: DatedAt(h, i))
    && (forall i, j | 0 <= i < j < |h.openedAt| :: OpenedBefore(h.openedAt, i, j))
  }

  predicate Later(readings: seq<nat>, i: nat, j: nat)
    requires i < |readings| && j < |readings|
  {
    readings[i] < readings[j]
  }

  /** Every clock reading is later than all before it. */
  ghost predicate Advancing(readings: seq<nat>) {
    forall i, j | 0 <= i < j < |readings| :: Later(readings, i, j)
  }

  /** A later reading keeps the readings advancing. */
  lemma AdvancingNext(readings: seq<nat>, now: nat)
    requires Advancing(readings) && readings != [] && readings[|readings| - 1] < now
    ensures Advancing(readings + [now])
  {
    var all, n := readings + [now], |readings| - 1;
    forall i, j | 0 <= i < j < |all| ensures Later(all, i, j) {
      if j <= n {
        assert Later(readings, i, j);
      } else if i < n {
        assert Later(readings, i, n);
      }
    }
  }

  /** Batch `i` lists the fold of window `i`. */
  ghost predicate ListedAt(ws: seq<seq<Event>>, bs: seq<Batch>, i: nat)
    requires i < |ws| == |bs|
  {
    Lists(bs[i].rows, Fold(ws[i]))
  }

  ghost predicate AllListed(ws: seq<seq<Event>>, bs: seq<Batch>) {
    |ws| == |bs| && forall i | 0 <= i < |bs| :: ListedAt(ws, bs, i)
  }

  ghost predicate Faithful(h: History) {
    AllListed(h.windows, h.emitted)
  }

  function Concat(ws: seq<seq<Event>>): seq<Event> {
    if ws == [] then [] else Concat(ws[..|ws| - 1]) + ws[|ws| - 1]
  }

  /** Every event seen, in order. */
  function Seen(h: History): seq<Event> { Concat(h.windows) + h.window }

  /** One more event in the open window. */
  function Observed(h: History, e: Event): History { h.(window := h.window + [e]) }

  /** The open window closed at clock reading `now`, with its batch. */
  ghost function Closed(h: History, b: Batch, now: nat): History
    requires h.readings != []
  {
    History(h.windows + [h.window], h.emitted + [b], [], h.readings + [now], h.openedAt + [|h.readings| - 1])
  }

  /** An empty window closed at clock reading `now`. */
  ghost function Skipped(h: History, now: nat): History { h.(readings := h.readings + [now]) }

  lemma ObservedDated(h: History, e: Event)
    requires Dated(h)
    ensures Dated(Observed(h, e))
  {
    forall i | 0 <= i < |h.emitted| ensures DatedAt(Observed(h, e), i) {
      assert DatedAt(h, i);
    }
  }

  lemma SkippedDated(h: History, now: nat)
    requires Dated(h)
    ensures Dated(Skipped(h, now))
  {
    forall i | 0 <= i < |h.emitted| ensures DatedAt(Skipped(h, now), i) {
      assert DatedAt(h, i);
    }
  }

  lemma ClosedDated(h: History, b: Batch, now: nat)
    requires Dated(h) && b.windowStart == h.readings[|h.readings| - 1] && b.windowEnd == now
    ensures Dated(Closed(h, b, now))
  {
    var h', n := Closed(h, b, now), |h.emitted|;
    forall i | 0 <= i < |h'.emitted| ensures DatedAt(h', i) {
      if i < n { assert DatedAt(h, i); }
    }
    forall i, j | 0 <= i < j < |h'.openedAt| ensures OpenedBefore(h'.openedAt, i, j) {
      assert DatedAt(h, i);
      if j < n { assert OpenedBefore(h.openedAt, i, j); }
    }
  }

  lemma WindowClosed(h: History, b: Batch, now: nat)
    requires Faithful(h) && h.readings != [] && Lists(b.rows, Fold(h.window))
    ensures Faithful(Closed(h, b, now)) && Seen(Closed(h, b, now)) == Seen(h)
  {
    var h' := Closed(h, b, now);
    forall i | 0 <= i < |h'.emitted| ensures ListedAt(h'.windows, h'.emitted, i) {
      if i < |h.emitted| { assert ListedAt(h.windows, h.emitted, i); }
    }
    assert h'.windows[..|h.windows|] == h.windows;
  }

  class Aggregator {
    var windowStart: nat
    var buffers: seq<Buffer>
    var active: nat
    const maxKeys: nat
    ghost var h: History

    /** The inactive buffer is empty and the active one is the fold of the open window. */
    ghost predicate Inv()
      reads this
    {
      && |buffers| == 2 && active < 2
      && buffers[1 - active] == map[]
      && buffers[active] == Fold(h.window)
      && Faithful(h)
      && Dated(h) && windowStart == h.readings[|h.readings| - 1]
    }

    /** The invariant between calls: the active buffer is below the key limit. */
    ghost predicate Valid()
      reads this
    {
      Inv() && |buffers[active]| < maxKeys
    }

    constructor (maxKeys: nat, now: nat)
      requires maxKeys >= 1
      ensures Valid() && h == History([], [], [], [now], []) && windowStart == now && this.maxKeys == maxKeys
    {
      this.maxKeys := maxKeys;
      windowStart, buffers, active := now, [map[], map[]], 0;
      h := History([], [], [], [now], []);
    }

    /**
      Closes the window: the batch lists the fold of the window, starts where the
      previous flush ended, and ends now. An empty window yields no batch.
     */
    method Flush(node: string, now: nat) returns (batch: Option<Batch>)
      requires Inv() && maxKeys >= 1
      modifies this
      ensures Valid() && windowStart == now
      ensures Seen(h) == old(Seen(h))
      ensures batch.None? <==> old(Fold(h.window)) == map[]
      ensures batch.None? ==> h == Skipped(old(h), now)
      ensures batch.Some? ==>
                && batch.value == Batch(old(windowStart), now, node, batch.value.rows)
                && Lists(batch.value.rows, Fold(old(h.window)))
                && h == Closed(old(h), batch.value, now)
    {
      var idx, start := active, windowStart;
      windowStart := now;
      if buffers[idx] == map[] {
        SkippedDated(h, now);
        h := Skipped(h, now);
        return None;
      }
      active := 1 - active;
      var rows := ListRows(buffers[idx]);
      buffers := buffers[idx := map[]];
      var b := Batch(start, now, node, rows);
      WindowClosed(h, b, now);
      ClosedDated(h, b, now);
      h := Closed(h, b, now);
      return Some(b);
    }

    method TryEarlyFlush(node: string, now: nat) returns (batch: Option<Batch>)
      requires Inv() && maxKeys >= 1
      modifies this
      ensures Valid() && Seen(h) == old(Seen(h))
      ensures batch.Some? <==> |old(buffers[active])| >= maxKeys
      ensures batch.Some? ==> h == Closed(old(h), batch.value, now)
      ensures batch.None? ==> h == old(h)
      ensures windowStart == (if batch.Some? then now else old(windowStart))
    {
      if |buffers[active]| >= maxKeys {
        batch := Flush(node, now);
      } else {
        batch := None;
      }
    }

    /**
      One event: it is added to the open window, and the window is closed at once
      if the buffer reaches the key limit. Nothing is ever dropped.
     */
    method OnEvent(e: Event, node: string, now: nat) returns (batch: Option<Batch>)
      requires Valid()
      modifies this
      ensures Valid() && Seen(h) == old(Seen(h)) + [e]
      ensures batch.Some? ==> h == Closed(Observed(old(h), e), batch.value, now)
      ensures batch.None? ==> h == Observed(old(h), e)
      ensures batch.Some? <==> |Ingest(Fold(old(h.window)), e)| >= maxKeys
      ensures windowStart == (if batch.Some? then now else old(windowStart))
    {
      if !e.Unknown? {
        var m := buffers[active];
        buffers := buffers[active := m[e.cgroup := Update(Entry(m, e.cgroup), e)]];
      }
      ObservedDated(h, e);
      h := Observed(h, e);
      assert h.window[..|h.window| - 1] == old(h.window);
      batch := TryEarlyFlush(node, now);
    }
  }

  method ListRows(m: Buffer) returns (rows: seq<Row>)
    ensures Lists(rows, m)
  {
    rows := [];
    var todo := m.Keys;
    while todo != {}
      invariant todo <= m.Keys
      invariant forall i, j | 0 <= i < j < |rows| :: rows[i].cgroup != rows[j].cgroup
      invariant forall i | 0 <= i < |rows| ::
                  rows[i].cgroup in m && rows[i].cgroup !in todo && rows[i].stats == m[rows[i].cgroup]
      invariant forall c | c in m :: c in todo || exists i | 0 <= i < |rows| :: rows[i].cgroup == c
      decreases todo
    {
      var c :| c in todo;
      ghost var before := rows;
      rows := rows + [Row(c, m[c])];
      todo := todo - {c};
      assert rows[|before|].cgroup == c;
      assert forall i | 0 <= i < |before| :: rows[i] == before[i];
    }
  }

  // ---- totals over whole runs ---------------------------------------------

  function RowExecs(rows: seq<Row>, c: nat): nat {
    if rows == [] then 0
    else RowExecs(rows[..|rows| - 1], c) + var r := rows[|rows| - 1]; if r.cgroup == c then r.stats.execCount else 0
  }

  function RowSamples(rows: seq<Row>, c: nat): nat {
    if rows == [] then 0
    else RowSamples(rows[..|rows| - 1], c) + var r := rows[|rows| - 1]; if r.cgroup == c then r.stats.sampleCount else 0
  }

  function RowCpu(rows: seq<Row>, c: nat): nat {
    if rows == [] then 0
    else RowCpu(rows[..|rows| - 1], c) + var r := rows[|rows| - 1]; if r.cgroup == c then r.stats.cpuUsec else 0
  }

  /** The totals of a listing in which `c` occurs at most once. */
  lemma {:induction false} RowsOf(rows: seq<Row>, m: Buffer, c: nat)
    requires forall i, j | 0 <= i < j < |rows| :: rows[i].cgroup != rows[j].cgroup
    requires forall i | 0 <= i < |rows| :: rows[i].cgroup in m && rows[i].stats == m[rows[i].cgroup]
    ensures var there := exists i | 0 <= i < |rows| :: rows[i].cgroup == c;
            && RowExecs(rows, c) == (if there then m[c].execCount else 0)
            && RowSamples(rows, c) == (if there then m[c].sampleCount else 0)
            && RowCpu(rows, c) == (if there then m[c].cpuUsec else 0)
  {
    if rows == [] {
    } else {
      var n := |rows| - 1;
      RowsOf(rows[..n], m, c);
      if i :| 0 <= i < n && rows[i].cgroup == c {
        assert rows[..n][i].cgroup == c;
      }
    }
  }

  lemma ListedTotals(rows: seq<Row>, m: Buffer, c: nat)
    requires Lists(rows, m)
    ensures RowExecs(rows, c) == Entry(m, c).execCount
    ensures RowSamples(rows, c) == Entry(m, c).sampleCount
    ensures RowCpu(rows, c) == Entry(m, c).cpuUsec
  {
    RowsOf(rows, m, c);
  }

  function EmittedExecs(bs: seq<Batch>, c: nat): nat {
    if bs == [] then 0 else EmittedExecs(bs[..|bs| - 1], c) + RowExecs(bs[|bs| - 1].rows, c)
  }

  function EmittedSamples(bs: seq<Batch>, c: nat): nat {
    if bs == [] then 0 else EmittedSamples(bs[..|bs| - 1], c) + RowSamples(bs[|bs| - 1].rows, c)
  }

  function EmittedCpu(bs: seq<Batch>, c: nat): nat {
    if bs == [] then 0 else EmittedCpu(bs[..|bs| - 1], c) + RowCpu(bs[|bs| - 1].rows, c)
  }

  /** No counter of the cgroup reaches its width within one window. */
  ghost predicate Unsaturated(ws: seq<seq<Event>>, c: nat) {
    forall i | 0 <= i < |ws| :: UnsaturatedAt(ws, c, i)
  }

  predicate UnsaturatedAt(ws: seq<seq<Event>>, c: nat, i: nat)
    requires i < |ws|
  {
    Execs(ws[i], c) <= U32_MAX && Samples(ws[i], c) <= U32_MAX && CpuSum(ws[i], c) <= U64_MAX
  }

  lemma {:induction false} SumsConcat(a: seq<Event>, b: seq<Event>, c: nat)
    ensures Execs(a + b, c) == Execs(a, c) + Execs(b, c)
    ensures Samples(a + b, c) == Samples(a, c) + Samples(b, c)
    ensures CpuSum(a + b, c) == CpuSum(a, c) + CpuSum(b, c)
    decreases |b|
  {
    if b == [] {
      assert a + b == a;
    } else {
      var n := |b| - 1;
      SumsConcat(a, b[..n], c);
      assert (a + b)[..|a + b| - 1] == a + b[..n] && (a + b)[|a + b| - 1] == b[n];
    }
  }

  lemma WindowTotals(w: seq<Event>, rows: seq<Row>, c: nat)
    requires Lists(rows, Fold(w)) && Execs(w, c) <= U32_MAX && Samples(w, c) <= U32_MAX && CpuSum(w, c) <= U64_MAX
    ensures RowExecs(rows, c) == Execs(w, c) && RowSamples(rows, c) == Samples(w, c) && RowCpu(rows, c) == CpuSum(w, c)
  {
    ListedTotals(rows, Fold(w), c);
    FoldCounts(w, c);
  }

  lemma EarlierWindows(ws: seq<seq<Event>>, bs: seq<Batch>, c: nat)
    requires ws != [] && AllListed(ws, bs) && Unsaturated(ws, c)
    ensures AllListed(ws[..|ws| - 1], bs[..|bs| - 1]) && Unsaturated(ws[..|ws| - 1], c)
  {
    var n := |ws| - 1;
    forall i | 0 <= i < n ensures ListedAt(ws[..n], bs[..n], i) && UnsaturatedAt(ws[..n], c, i) {
      assert ListedAt(ws, bs, i) && UnsaturatedAt(ws, c, i);
    }
  }

  lemma {:induction false} EmittedTotals(ws: seq<seq<Event>>, bs: seq<Batch>, c: nat)
    requires AllListed(ws, bs) && Unsaturated(ws, c)
    ensures EmittedExecs(bs, c) == Execs(Concat(ws), c)
    ensures EmittedSamples(bs, c) == Samples(Concat(ws), c)
    ensures EmittedCpu(bs, c) == CpuSum(Concat(ws), c)
    decreases |ws|
  {
    if ws == [] {
    } else {
      var n := |ws| - 1;
      EarlierWindows(ws, bs, c);
      EmittedTotals(ws[..n], bs[..n], c);
      assert ListedAt(ws, bs, n) && UnsaturatedAt(ws, c, n);
      WindowTotals(ws[n], bs[n].rows, c);
      SumsConcat(Concat(ws[..n]), ws[n], c);
    }
  }

  /**
    The double buffer refines one event log: in every reachable history, what was
    emitted for a cgroup plus what is in the active buffer equals what the events
    seen so far add up to, as long as no window saturates a counter.
   */
  lemma TotalsMatchEvents(h: History, c: nat)
    requires Faithful(h) && Unsaturated(h.windows + [h.window], c)
    ensures var open := Entry(Fold(h.window), c);
            && EmittedExecs(h.emitted, c) + open.execCount == Execs(Seen(h), c)
            && EmittedSamples(h.emitted, c) + open.sampleCount == Samples(Seen(h), c)
            && EmittedCpu(h.emitted, c) + open.cpuUsec == CpuSum(Seen(h), c)
  {
    var ws := h.windows + [h.window];
    assert UnsaturatedAt(ws, c, |h.windows|);
    forall i | 0 <= i < |h.windows| ensures UnsaturatedAt(h.windows, c, i) {
      assert UnsaturatedAt(ws, c, i);
    }
    EmittedTotals(h.windows, h.emitted, c);
    FoldCounts(h.window, c);
    SumsConcat(Concat(h.windows), h.window, c);
  }
}
