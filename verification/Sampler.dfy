/**
  CPU sampling: a cgroup's cumulative counter is turned into deltas against a
  baseline that is pruned when the cgroup disappears. What is billed must be the
  growth of the counter within each stretch of ticks in which the cgroup was
  present, and nothing for the gaps.

  A predicate compared with `true` is handled by the verifier as one fact, not as its
  conjuncts.
 */
module Sampler {
  import opened Options
  import opened Rollup
  import opened Aggregator

  /** What one tick read of a cgroup; a failed file read is None. */
  datatype Reading = Reading(cgroup: nat, memoryBytes: Option<nat>, cpuUsec: Option<nat>, labels: Labels)

  /** What the sampler observed, in order: who was present at a tick, then the counters read. */
  datatype Note = Present(live: set<nat>) | Read(cgroup: nat, usec: nat) | Primed(cgroup: nat, usec: nat)

  /** The counters read of a cgroup, split into stretches without an absence; the last one is the current one. */
  function Stretches(notes: seq<Note>, c: nat): (ss: seq<seq<nat>>)
    ensures ss != []
  {
    if notes == [] then [[]] else Noted(Stretches(notes[..|notes| - 1], c), notes[|notes| - 1], c)
  }

  /** An absence ends the current stretch, a reading extends it, priming starts a new one. */
  function Noted(ss: seq<seq<nat>>, note: Note, c: nat): (r: seq<seq<nat>>)
    requires ss != []
    ensures r != []
  {
    match note
    case Present(live) => if c in live then ss else ss + [[]]
    case Read(k, usec) => if k == c then Extend(ss, usec) else ss
    case Primed(k, usec) => if k == c then Extend(ss + [[]], usec) else ss
  }

  function Extend(ss: seq<seq<nat>>, usec: nat): (r: seq<seq<nat>>)
    requires ss != []
    ensures |r| == |ss| && r[|ss| - 1] == ss[|ss| - 1] + [usec]
  {
    ss[..|ss| - 1] + [ss[|ss| - 1] + [usec]]
  }

  function Current(notes: seq<Note>, c: nat): seq<nat> {
    var ss := Stretches(notes, c); ss[|ss| - 1]
  }

  function Rise(last: nat, usec: nat): nat { if usec > last then usec - last else 0 }

  /** The sum of the positive increments between successive readings. */
  function Growth(s: seq<nat>): nat {
    if |s| < 2 then 0 else Growth(s[..|s| - 1]) + Rise(s[|s| - 2], s[|s| - 1])
  }

  function Billed(ss: seq<seq<nat>>): nat {
    if ss == [] then 0 else Billed(ss[..|ss| - 1]) + Growth(ss[|ss| - 1])
  }

  /** For a counter that never decreases the growth of a stretch is its last reading minus its first. */
  lemma {:induction false} GrowthTelescopes(s: seq<nat>)
    requires NeverDecreases(s)
    ensures Growth(s) == Span(s)
  {
    if |s| < 2 {
    } else {
      GrowthTelescopes(s[..|s| - 1]);
    }
  }

  function Fall(last: nat, usec: nat): nat { if usec < last then last - usec else 0 }

  /** The sum of the decrements between successive readings. */
  function Falls(s: seq<nat>): nat {
    if |s| < 2 then 0 else Falls(s[..|s| - 1]) + Fall(s[|s| - 2], s[|s| - 1])
  }

  function AllFalls(ss: seq<seq<nat>>): nat {
    if ss == [] then 0 else AllFalls(ss[..|ss| - 1]) + Falls(ss[|ss| - 1])
  }

  lemma {:induction false} GrowthIgnoresFalls(s: seq<nat>)
    ensures Growth(s) == Span(s) + Falls(s)
  {
    if |s| >= 2 {
      GrowthIgnoresFalls(s[..|s| - 1]);
    }
  }

  /** Whatever the counter does, the bill is last minus first, stretch by stretch, with every fall made good. */
  lemma {:induction false} BillIgnoresFalls(ss: seq<seq<nat>>)
    ensures Billed(ss) == Spans(ss) + AllFalls(ss)
  {
    if ss != [] {
      GrowthIgnoresFalls(ss[|ss| - 1]);
      BillIgnoresFalls(ss[..|ss| - 1]);
    }
  }

  ghost predicate NeverDecreases(s: seq<nat>) {
    forall i, j | 0 <= i < j < |s| :: s[i] <= s[j]
  }

  function Span(s: seq<nat>): int {
    if s == [] then 0 else s[|s| - 1] as int - s[0] as int
  }

  function Spans(ss: seq<seq<nat>>): int {
    if ss == [] then 0 else Spans(ss[..|ss| - 1]) + Span(ss[|ss| - 1])
  }

  /** So the bill of such a counter is, stretch by stretch, last minus first: no gap is billed. */
  lemma {:induction false} BillIsSpans(ss: seq<seq<nat>>)
    requires forall s | s in ss :: NeverDecreases(s)
    ensures Billed(ss) == Spans(ss)
  {
    if ss == [] {
    } else {
      assert ss[|ss| - 1] in ss;
      GrowthTelescopes(ss[|ss| - 1]);
      BillIsSpans(ss[..|ss| - 1]);
    }
  }

  /** The baseline of a cgroup is the last reading of its current stretch. */
  ghost predicate Tracked(baseline: map<nat, nat>, notes: seq<Note>, c: nat) {
    var s := Current(notes, c);
    if s == [] then c !in baseline else c in baseline && baseline[c] == s[|s| - 1]
  }

  ghost predicate Tracks(baseline: map<nat, nat>, notes: seq<Note>) {
    forall c :: Tracked(baseline, notes, c)
  }

  /** Every CPU event so far adds up to the bill. */
  ghost predicate Balanced(events: seq<Event>, notes: seq<Note>) {
    forall c :: BalancedFor(events, notes, c)
  }

  ghost predicate BalancedFor(events: seq<Event>, notes: seq<Note>, c: nat) {
    CpuSum(events, c) == Billed(Stretches(notes, c))
  }

  lemma BilledExtend(ss: seq<seq<nat>>, usec: nat)
    requires ss != []
    ensures var s := ss[|ss| - 1];
            Billed(Extend(ss, usec)) == Billed(ss) + if s == [] then 0 else Rise(s[|s| - 1], usec)
  {
    var n, s := |ss| - 1, ss[|ss| - 1];
    assert Extend(ss, usec)[..n] == ss[..n];
    assert (s + [usec])[..|s|] == s;
  }

  lemma BilledGap(ss: seq<seq<nat>>)
    ensures Billed(ss + [[]]) == Billed(ss)
  {
    assert (ss + [[]])[..|ss|] == ss;
  }

  lemma NoteAdded(notes: seq<Note>, note: Note, c: nat)
    ensures Stretches(notes + [note], c) == Noted(Stretches(notes, c), note, c)
  {
    assert (notes + [note])[..|notes|] == notes;
  }

  lemma NothingNoted()
    ensures Tracks(map[], []) && Balanced([], [])
  {
    forall c ensures BalancedFor([], [], c) {
      BilledGap([]);
      assert [] + [[]] == Stretches([], c);
    }
    forall c ensures Tracked(map[], [], c) { assert Stretches([], c) == [[]]; }
  }

  lemma PruneTracks(baseline: map<nat, nat>, notes: seq<Note>, live: set<nat>, events: seq<Event>)
    requires Tracks(baseline, notes) && Balanced(events, notes)
    ensures var kept := map c | c in baseline && c in live :: baseline[c];
            Tracks(kept, notes + [Present(live)]) && Balanced(events, notes + [Present(live)])
  {
    var kept, notes' := map c | c in baseline && c in live :: baseline[c], notes + [Present(live)];
    forall c ensures Tracked(kept, notes', c) && BalancedFor(events, notes', c) {
      NoteAdded(notes, Present(live), c);
      BilledGap(Stretches(notes, c));
      assert Tracked(baseline, notes, c) && BalancedFor(events, notes, c);
    }
  }

  lemma PrimeTracks(baseline: map<nat, nat>, notes: seq<Note>, k: nat, usec: nat, events: seq<Event>)
    requires Tracks(baseline, notes) && Balanced(events, notes)
    ensures Tracks(baseline[k := usec], notes + [Primed(k, usec)]) && Balanced(events, notes + [Primed(k, usec)])
  {
    var baseline', notes' := baseline[k := usec], notes + [Primed(k, usec)];
    forall c ensures Tracked(baseline', notes', c) && BalancedFor(events, notes', c) {
      NoteAdded(notes, Primed(k, usec), c);
      BilledGap(Stretches(notes, c));
      BilledExtend(Stretches(notes, c) + [[]], usec);
      assert Tracked(baseline, notes, c) && BalancedFor(events, notes, c);
    }
  }

  /** A reading of a tracked cgroup is billed by one event; the first of a stretch by none. */
  lemma ReadTracks(baseline: map<nat, nat>, notes: seq<Note>, k: nat, usec: nat, events: seq<Event>, labels: Labels)
    requires Tracks(baseline, notes) && Balanced(events, notes)
    ensures var notes' := notes + [Read(k, usec)];
            && Tracks(baseline[k := usec], notes')
            && Balanced(if k in baseline then events + [Cpu(k, Rise(baseline[k], usec), labels)] else events, notes')
  {
    var baseline', notes' := baseline[k := usec], notes + [Read(k, usec)];
    var events' := if k in baseline then events + [Cpu(k, Rise(baseline[k], usec), labels)] else events;
    forall c ensures Tracked(baseline', notes', c) && BalancedFor(events', notes', c) {
      NoteAdded(notes, Read(k, usec), c);
      BilledExtend(Stretches(notes, c), usec);
      assert k in baseline ==> events'[..|events|] == events;
      assert Tracked(baseline, notes, c) && BalancedFor(events, notes, c);
    }
  }

  /** Events of other kinds do not touch the bill. */
  lemma OtherEventBalanced(events: seq<Event>, notes: seq<Note>, e: Event)
    requires Balanced(events, notes) && !e.Cpu?
    ensures Balanced(events + [e], notes)
  {
    forall c ensures BalancedFor(events + [e], notes, c) {
      assert (events + [e])[..|events|] == events;
      assert BalancedFor(events, notes, c);
    }
  }

  ghost predicate Emits(before: seq<Batch>, batches: seq<Batch>, after: seq<Batch>) {
    (after == before + batches) == true
  }

  lemma EmitsTwice(a: seq<Batch>, b: seq<Batch>, c: seq<Batch>, d: seq<Batch>, e: seq<Batch>)
    requires Emits(a, b, c) && Emits(c, d, e)
    ensures Emits(a, b + d, e)
  {
  }

  /** The clock readings so far advance, and the last one is before `t`. */
  ghost predicate Before(h: History, t: nat) {
    h.readings != [] && Advancing(h.readings) && h.readings[|h.readings| - 1] < t
  }

  /** A clock whose every reading is later than all before it. */
  ghost predicate Rising(clock: nat -> nat) {
    forall i: nat, j: nat | i < j :: clock(i) < clock(j)
  }

  /** There are such clocks, from any time on. */
  lemma SomeClockRises(start: nat)
    ensures exists clock: nat -> nat :: Rising(clock) && start < clock(0)
  {
    var clock := (n: nat) => start + 1 + n;
    assert Rising(clock) && start < clock(0);
  }

  /**
    Readings are only added, and a rising clock that is ahead of the history at reading
    `from` is ahead of the later one at reading `to`.
   */
  ghost predicate OnTime(clock: nat -> nat, h: History, from: nat, h': History, to: nat) {
    (h.readings <= h'.readings && (Rising(clock) && Before(h, clock(from)) ==> Before(h', clock(to)))) == true
  }

  lemma OnTimeTwice(clock: nat -> nat, h: History, i: nat, h': History, j: nat, h'': History, k: nat)
    requires OnTime(clock, h, i, h', j) && OnTime(clock, h', j, h'', k)
    ensures OnTime(clock, h, i, h'', k)
  {
  }

  /** Closing the window, or finding it empty, takes one reading. */
  lemma FlushOnTime(clock: nat -> nat, h: History, i: nat, h': History, batch: Option<Batch>)
    requires h.readings != []
    requires h' == if batch.Some? then Closed(h, batch.value, clock(i)) else Skipped(h, clock(i))
    ensures OnTime(clock, h, i, h', i + 1)
  {
    if Rising(clock) && Before(h, clock(i)) {
      AdvancingNext(h.readings, clock(i));
    }
  }

  /** An event with its possible early flush takes one reading. */
  lemma EventOnTime(clock: nat -> nat, h: History, e: Event, i: nat, h': History, batch: Option<Batch>)
    requires h.readings != []
    requires h' == if batch.Some? then Closed(Observed(h, e), batch.value, clock(i)) else Observed(h, e)
    ensures OnTime(clock, h, i, h', i + 1)
  {
    if batch.Some? {
      FlushOnTime(clock, Observed(h, e), i, h', batch);
    } else {
      assert Rising(clock) ==> clock(i) < clock(i + 1);
    }
  }

  // ---- what a tick feeds --------------------------------------------------

  /** The baseline after a reading, and after several. */
  function Rebased(baseline: map<nat, nat>, r: Reading): map<nat, nat> {
    if r.cpuUsec.Some? then baseline[r.cgroup := r.cpuUsec.value] else baseline
  }

  function RebasedAll(baseline: map<nat, nat>, rs: seq<Reading>): map<nat, nat> {
    if rs == [] then baseline else Rebased(RebasedAll(baseline, rs[..|rs| - 1]), rs[|rs| - 1])
  }

  function MemoryEvents(r: Reading): seq<Event> {
    if r.memoryBytes.Some? then [Memory(r.cgroup, r.memoryBytes.value, r.labels)] else []
  }

  /** A CPU reading is an event only if there is a baseline for it. */
  function CpuEvents(baseline: map<nat, nat>, r: Reading): seq<Event> {
    if r.cpuUsec.Some? && r.cgroup in baseline then
      [Cpu(r.cgroup, Rise(baseline[r.cgroup], r.cpuUsec.value), r.labels)]
    else []
  }

  function ReadingEvents(baseline: map<nat, nat>, r: Reading): seq<Event> {
    MemoryEvents(r) + CpuEvents(baseline, r)
  }

  function FedEvents(baseline: map<nat, nat>, rs: seq<Reading>): seq<Event> {
    if rs == [] then []
    else
      var n := |rs| - 1;
      FedEvents(baseline, rs[..n]) + ReadingEvents(RebasedAll(baseline, rs[..n]), rs[n])
  }

  function Pruned(baseline: map<nat, nat>, live: set<nat>): map<nat, nat> {
    map c | c in baseline && c in live :: baseline[c]
  }

  function Cgroups(rs: seq<Reading>): set<nat> { set r | r in rs :: r.cgroup }

  /** What a tick with these results feeds to the aggregator; a failed tick feeds nothing. */
  function TickEvents(baseline: map<nat, nat>, results: Option<seq<Reading>>): seq<Event> {
    if results.None? then [] else FedEvents(Pruned(baseline, Cgroups(results.value)), results.value)
  }

  function TickBaseline(baseline: map<nat, nat>, results: Option<seq<Reading>>): map<nat, nat> {
    if results.None? then baseline else RebasedAll(Pruned(baseline, Cgroups(results.value)), results.value)
  }

  function TickNotes(results: Option<seq<Reading>>): seq<Note> {
    if results.None? then [] else [Present(Cgroups(results.value))] + CpuNotes(results.value)
  }

  /** How many clock readings a tick can take. */
  function TickReadings(results: Option<seq<Reading>>): nat {
    if results.None? then 0 else 2 * |results.value|
  }

  // ---- the sampler --------------------------------------------------------

  /** A sampler and its aggregator at some moment, as values. */
  datatype Moment = Moment(baseline: map<nat, nat>, notes: seq<Note>, h: History, seen: seq<Event>)

  /** The first `i` readings have been fed. */
  ghost predicate Fed(clock: nat -> nat, from: nat, m: Moment, m': Moment, early: seq<Batch>, rs: seq<Reading>, i: nat)
    requires i <= |rs|
  {
    (&& Emits(m.h.emitted, early, m'.h.emitted) && OnTime(clock, m.h, from, m'.h, from + 2 * i)
     && m'.notes == m.notes + CpuNotes(rs[..i])
     && m'.baseline == RebasedAll(m.baseline, rs[..i])
     && m'.seen == m.seen + FedEvents(m.baseline, rs[..i])) == true
  }

  lemma NothingFed(clock: nat -> nat, from: nat, m: Moment, rs: seq<Reading>)
    ensures Fed(clock, from, m, m, [], rs, 0)
  {
  }

  /** One reading more. */
  ghost predicate FedOne(clock: nat -> nat, from: nat, m: Moment, m': Moment, early: seq<Batch>, r: Reading) {
    (&& Emits(m.h.emitted, early, m'.h.emitted) && OnTime(clock, m.h, from, m'.h, from + 2)
     && m'.notes == m.notes + CpuNote(r)
     && m'.baseline == Rebased(m.baseline, r)
     && m'.seen == m.seen + ReadingEvents(m.baseline, r)) == true
  }

  lemma FedNext(clock: nat -> nat, from: nat, m: Moment, m': Moment, m'': Moment, early: seq<Batch>,
                batches: seq<Batch>, rs: seq<Reading>, i: nat)
    requires i < |rs| && Fed(clock, from, m, m', early, rs, i) && FedOne(clock, from + 2 * i, m', m'', batches, rs[i])
    ensures Fed(clock, from, m, m'', early + batches, rs, i + 1)
  {
    EmitsTwice(m.h.emitted, early, m'.h.emitted, batches, m''.h.emitted);
    OnTimeTwice(clock, m.h, from, m'.h, from + 2 * i, m''.h, from + 2 * i + 2);
    FedPrefix(m.baseline, rs, i);
    Grouped(m.notes, CpuNotes(rs[..i]), CpuNote(rs[i]));
    Grouped(m.seen, FedEvents(m.baseline, rs[..i]), ReadingEvents(m'.baseline, rs[i]));
  }

  lemma Grouped<T>(a: seq<T>, b: seq<T>, c: seq<T>)
    ensures a + b + c == a + (b + c)
  {
  }

  lemma FedPrefix(baseline: map<nat, nat>, rs: seq<Reading>, i: nat)
    requires i < |rs|
    ensures CpuNotes(rs[..i + 1]) == CpuNotes(rs[..i]) + CpuNote(rs[i])
    ensures RebasedAll(baseline, rs[..i + 1]) == Rebased(RebasedAll(baseline, rs[..i]), rs[i])
    ensures FedEvents(baseline, rs[..i + 1]) ==
            FedEvents(baseline, rs[..i]) + ReadingEvents(RebasedAll(baseline, rs[..i]), rs[i])
  {
    assert rs[..i + 1][..i] == rs[..i];
  }

  /** A tick is the pruning and then all of its readings. */
  lemma TickFed(clock: nat -> nat, from: nat, m: Moment, pruned: Moment, m': Moment, early: seq<Batch>,
                rs: seq<Reading>)
    requires pruned == Moment(Pruned(m.baseline, Cgroups(rs)), m.notes + [Present(Cgroups(rs))], m.h, m.seen)
    requires Fed(clock, from, pruned, m', early, rs, |rs|)
    ensures Ticked(clock, from, m, m', early, Some(rs))
  {
    assert rs[..|rs|] == rs;
    Grouped(m.notes, [Present(Cgroups(rs))], CpuNotes(rs));
  }

  /** What a tick has done. */
  ghost predicate Ticked(clock: nat -> nat, from: nat, m: Moment, m': Moment, early: seq<Batch>,
                         results: Option<seq<Reading>>) {
    (&& Emits(m.h.emitted, early, m'.h.emitted)
     && OnTime(clock, m.h, from, m'.h, from + TickReadings(results))
     && m'.notes == m.notes + TickNotes(results)
     && m'.baseline == TickBaseline(m.baseline, results)
     && m'.seen == m.seen + TickEvents(m.baseline, results)) == true
  }

  class Sampler {
    var baseline: map<nat, nat>
    ghost var notes: seq<Note>

    ghost predicate Valid(agg: Aggregator)
      reads this, agg
    {
      Tracks(baseline, notes) && Balanced(Seen(agg.h), notes)
    }

    /** Both at once, as one fact. */
    ghost predicate Sound(agg: Aggregator)
      reads this, agg
    {
      (agg.Valid() && Valid(agg)) == true
    }

    constructor ()
      ensures baseline == map[] && notes == []
      ensures Tracks(baseline, notes) && Balanced([], notes)
    {
      baseline, notes := map[], [];
      NothingNoted();
    }

    /** Startup: every counter that could be read becomes a baseline; nothing is billed. */
    method Prime(readings: seq<(nat, nat)>, agg: Aggregator)
      requires Valid(agg)
      modifies this
      ensures Valid(agg)
      ensures notes == old(notes) + PrimeNotes(readings) && baseline == PrimedAll(old(baseline), readings)
    {
      for i := 0 to |readings|
        invariant Valid(agg)
        invariant notes == old(notes) + PrimeNotes(readings[..i])
        invariant baseline == PrimedAll(old(baseline), readings[..i])
      {
        assert readings[..i + 1][..i] == readings[..i];
        var (cgroup, usec) := readings[i];
        PrimeTracks(baseline, notes, cgroup, usec, Seen(agg.h));
        baseline, notes := baseline[cgroup := usec], notes + [Primed(cgroup, usec)];
      }
      assert readings[..|readings|] == readings;
    }

    /** Delta against the baseline, or None when the reading only primes it. */
    method CpuDelta(cgroup: nat, current: nat) returns (delta: Option<nat>)
      modifies this`baseline
      ensures baseline == old(baseline)[cgroup := current]
      ensures delta == if cgroup in old(baseline) then Some(Rise(old(baseline)[cgroup], current)) else None
      ensures delta.Some? ==> delta.value == Max(current, old(baseline)[cgroup]) - old(baseline)[cgroup]
    {
      if cgroup in baseline {
        var last := baseline[cgroup];
        delta := Some(if current >= last then current - last else 0);
      } else {
        delta := None;
      }
      baseline := baseline[cgroup := current];
    }

    ghost function Now(agg: Aggregator): Moment
      reads this, agg
    {
      Moment(baseline, notes, agg.h, Seen(agg.h))
    }

    /**
      One tick: baselines of missing cgroups are forgotten, and the memory sample and
      the CPU delta of each reading are fed. Whatever was read, failed or missing, the
      CPU events fed so far add up to the growth of each cgroup's counter over its
      stretches. A failed tick changes nothing. `clock`, from reading `from` on, gives
      the wall clock that early flushes take.
     */
    method Tick(results: Option<seq<Reading>>, agg: Aggregator, node: string, clock: nat -> nat, from: nat)
      returns (early: seq<Batch>)
      requires Sound(agg)
      modifies this, agg
      ensures Sound(agg)
      ensures Ticked(clock, from, old(Now(agg)), Now(agg), early, results)
      ensures results.None? ==> Now(agg) == old(Now(agg))
    {
      early := [];
      if results.None? {
        return;
      }
      Prune(set r | r in results.value :: r.cgroup, agg);
      ghost var pruned := Now(agg);
      early := Feed(results.value, agg, node, clock, from);
      TickFed(clock, from, old(Now(agg)), pruned, Now(agg), early, results.value);
    }

    /** Baselines of cgroups missing from the results are forgotten. */
    method Prune(live: set<nat>, agg: Aggregator)
      requires Sound(agg)
      modifies this
      ensures Sound(agg) && notes == old(notes) + [Present(live)] && baseline == Pruned(old(baseline), live)
    {
      PruneTracks(baseline, notes, live, Seen(agg.h));
      baseline, notes := map c | c in baseline && c in live :: baseline[c], notes + [Present(live)];
    }

    method Feed(readings: seq<Reading>, agg: Aggregator, node: string, clock: nat -> nat, from: nat)
      returns (early: seq<Batch>)
      requires Sound(agg)
      modifies this, agg
      ensures Sound(agg) && Fed(clock, from, old(Now(agg)), Now(agg), early, readings, |readings|)
    {
      early := [];
      NothingFed(clock, from, Now(agg), readings);
      for i := 0 to |readings|
        invariant Sound(agg) && Fed(clock, from, old(Now(agg)), Now(agg), early, readings, i)
      {
        ghost var was := Now(agg);
        var batches := OneReading(readings[i], agg, node, clock, from + 2 * i);
        FedNext(clock, from, old(Now(agg)), was, Now(agg), early, batches, readings, i);
        early := early + batches;
      }
    }

    /** The memory sample of a reading, then its CPU delta. */
    method OneReading(r: Reading, agg: Aggregator, node: string, clock: nat -> nat, from: nat)
      returns (early: seq<Batch>)
      requires Sound(agg)
      modifies this, agg
      ensures Sound(agg) && FedOne(clock, from, old(Now(agg)), Now(agg), early, r)
    {
      early := OneMemory(r, agg, node, clock, from);
      ghost var h := agg.h;
      var more := OneCpu(r, agg, node, clock, from + 1);
      EmitsTwice(old(agg.h.emitted), early, h.emitted, more, agg.h.emitted);
      OnTimeTwice(clock, old(agg.h), from, h, from + 1, agg.h, from + 2);
      early := early + more;
    }

    method OneMemory(r: Reading, agg: Aggregator, node: string, clock: nat -> nat,
                     from: nat) returns (early: seq<Batch>)
      requires Sound(agg)
      modifies this, agg
      ensures Sound(agg) && notes == old(notes) && baseline == old(baseline)
      ensures Emits(old(agg.h.emitted), early, agg.h.emitted) && OnTime(clock, old(agg.h), from, agg.h, from + 1)
      ensures Seen(agg.h) == old(Seen(agg.h)) + MemoryEvents(r)
    {
      early := [];
      if r.memoryBytes.Some? {
        ghost var before := Seen(agg.h);
        var e := Memory(r.cgroup, r.memoryBytes.value, r.labels);
        early := OneEvent(e, agg, node, clock, from);
        OtherEventBalanced(before, notes, e);
      } else {
        assert Rising(clock) ==> clock(from) < clock(from + 1);
      }
    }

    method OneCpu(r: Reading, agg: Aggregator, node: string, clock: nat -> nat, from: nat) returns (early: seq<Batch>)
      requires Sound(agg)
      modifies this, agg
      ensures Sound(agg) && notes == old(notes) + CpuNote(r) && baseline == Rebased(old(baseline), r)
      ensures Emits(old(agg.h.emitted), early, agg.h.emitted) && OnTime(clock, old(agg.h), from, agg.h, from + 1)
      ensures Seen(agg.h) == old(Seen(agg.h)) + CpuEvents(old(baseline), r)
    {
      early := [];
      assert Rising(clock) ==> clock(from) < clock(from + 1);
      if r.cpuUsec.Some? {
        ReadTracks(baseline, notes, r.cgroup, r.cpuUsec.value, Seen(agg.h), r.labels);
        var delta := CpuDelta(r.cgroup, r.cpuUsec.value);
        notes := notes + [Read(r.cgroup, r.cpuUsec.value)];
        if delta.Some? {
          early := OneEvent(Cpu(r.cgroup, delta.value, r.labels), agg, node, clock, from);
        }
      }
    }

    method OneEvent(e: Event, agg: Aggregator, node: string, clock: nat -> nat, from: nat) returns (early: seq<Batch>)
      requires agg.Valid()
      modifies agg
      ensures agg.Valid() && Seen(agg.h) == old(Seen(agg.h)) + [e]
      ensures Emits(old(agg.h.emitted), early, agg.h.emitted) && OnTime(clock, old(agg.h), from, agg.h, from + 1)
    {
      ghost var was := agg.h;
      var b := agg.OnEvent(e, node, clock(from));
      early := if b.Some? then [b.value] else [];
      EventOnTime(clock, was, e, from, agg.h, b);
    }
  }

  function CpuNote(r: Reading): seq<Note> {
    if r.cpuUsec.Some? then [Read(r.cgroup, r.cpuUsec.value)] else []
  }

  function PrimedAll(baseline: map<nat, nat>, rs: seq<(nat, nat)>): map<nat, nat> {
    if rs == [] then baseline else PrimedAll(baseline, rs[..|rs| - 1])[rs[|rs| - 1].0 := rs[|rs| - 1].1]
  }

  function PrimeNotes(rs: seq<(nat, nat)>): seq<Note> {
    if rs == [] then [] else PrimeNotes(rs[..|rs| - 1]) + [Primed(rs[|rs| - 1].0, rs[|rs| - 1].1)]
  }

  function CpuNotes(rs: seq<Reading>): seq<Note> {
    if rs == [] then [] else CpuNotes(rs[..|rs| - 1]) + CpuNote(rs[|rs| - 1])
  }

  /**
    CPU conservation from counter to rows: what was emitted for a cgroup plus what
    is in the active buffer is the growth of its counter over its stretches.
   */
  lemma CpuConserved(h: History, notes: seq<Note>, c: nat)
    requires Faithful(h) && Unsaturated(h.windows + [h.window], c) && Balanced(Seen(h), notes)
    ensures EmittedCpu(h.emitted, c) + Entry(Fold(h.window), c).cpuUsec == Billed(Stretches(notes, c))
  {
    TotalsMatchEvents(h, c);
    assert BalancedFor(Seen(h), notes, c);
  }
}
