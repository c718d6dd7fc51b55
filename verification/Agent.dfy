/**
  The agent's main loop: kernel events go to the aggregator as they come, and at the
  end of every window the sampler ticks and the window is flushed. What the loop
  emits, replayed in any way into the table, adds up to what the counters did.

  A predicate compared with `true` is handled by the verifier as one fact, not as its
  conjuncts.
 */
module Agent {
  import opened Options
  import opened Rollup
  import opened Aggregator
  import opened Sampler
  import opened Stimuli
  import opened Storage

  /** The end of a window closes it at the reading after those of the tick. */
  ghost predicate EndCloses(clock: nat -> nat, from: nat, h: History, s: Stimulus) {
    (s.WindowEnd? ==>
       && Fold(h.window) == map[] && h.readings != []
       && h.readings[|h.readings| - 1] == clock(from + TickReadings(s.results))) == true
  }

  /** One stimulus handled, with the clock from reading `from` on. */
  ghost predicate Handled(clock: nat -> nat, from: nat, m: Moment, m': Moment, s: Stimulus) {
    (OnTime(clock, m.h, from, m'.h, from + ReadingsBy(s)) && Took(m, m', s) && EndCloses(clock, from, m'.h, s)) == true
  }

  /** What one stimulus adds to what was noted and seen. */
  ghost predicate Took(m: Moment, m': Moment, s: Stimulus) {
    (&& m'.notes == m.notes + NotesBy(s) && m'.baseline == BaselineBy(m.baseline, s)
     && m'.seen == m.seen + EventsBy(m.baseline, s)) == true
  }

  /** The clock reading that closes the window at stimulus `i`. */
  function EndReading(clock: nat -> nat, ss: seq<Stimulus>, i: nat): nat
    requires i < |ss| && ss[i].WindowEnd?
  {
    clock(AllReadings(ss[..i]) + TickReadings(ss[i].results))
  }

  /** Every end of a window closed it, and after the last one nothing is open. */
  ghost predicate EndsClosed(clock: nat -> nat, h: History, ss: seq<Stimulus>, k: nat)
    requires k <= |ss|
  {
    (&& (forall i | 0 <= i < k && ss[i].WindowEnd? :: EndReading(clock, ss, i) in h.readings)
     && (k > 0 && ss[k - 1].WindowEnd? ==> Fold(h.window) == map[])) == true
  }

  /** The first `k` stimuli handled, with the readings up to `to`. */
  ghost predicate Ran(clock: nat -> nat, m: Moment, m': Moment, to: nat, ss: seq<Stimulus>, k: nat)
    requires k <= |ss|
  {
    (OnTime(clock, m.h, 0, m'.h, to) && TookAll(m, m', ss, k)) == true
  }

  ghost predicate TookAll(m: Moment, m': Moment, ss: seq<Stimulus>, k: nat)
    requires k <= |ss|
  {
    (&& m'.notes == m.notes + AllNotes(ss[..k]) && m'.baseline == AllBaseline(m.baseline, ss[..k])
     && m'.seen == m.seen + AllEvents(m.baseline, ss[..k])) == true
  }

  lemma NothingRan(clock: nat -> nat, m: Moment, ss: seq<Stimulus>)
    ensures Reached(clock, m, m, 0, ss, 0)
  {
  }

  lemma RanNext(clock: nat -> nat, m: Moment, m': Moment, m'': Moment, from: nat, ss: seq<Stimulus>, k: nat)
    requires k < |ss| && Ran(clock, m, m', from, ss, k) && Handled(clock, from, m', m'', ss[k])
    ensures Ran(clock, m, m'', from + ReadingsBy(ss[k]), ss, k + 1)
  {
    OnTimeTwice(clock, m.h, 0, m'.h, from, m''.h, from + ReadingsBy(ss[k]));
    TookNext(m, m', m'', ss, k);
  }

  lemma TookNext(m: Moment, m': Moment, m'': Moment, ss: seq<Stimulus>, k: nat)
    requires k < |ss| && TookAll(m, m', ss, k) && Took(m', m'', ss[k])
    ensures TookAll(m, m'', ss, k + 1)
  {
    AllPrefix(m.baseline, ss, k);
    Grouped(m.notes, AllNotes(ss[..k]), NotesBy(ss[k]));
    Grouped(m.seen, AllEvents(m.baseline, ss[..k]), EventsBy(m'.baseline, ss[k]));
  }

  lemma OneMoreClosed(clock: nat -> nat, h: History, h': History, ss: seq<Stimulus>, k: nat)
    requires k < |ss| && EndsClosed(clock, h, ss, k) && h.readings <= h'.readings
    requires EndCloses(clock, AllReadings(ss[..k]), h', ss[k])
    ensures EndsClosed(clock, h', ss, k + 1)
  {
    forall i | 0 <= i <= k && ss[i].WindowEnd? ensures EndReading(clock, ss, i) in h'.readings {
      if i < k {
        assert EndReading(clock, ss, i) in h.readings;
      }
    }
  }

  lemma HandledCloses(clock: nat -> nat, from: nat, m: Moment, m': Moment, s: Stimulus)
    requires Handled(clock, from, m, m', s)
    ensures m.h.readings <= m'.h.readings && EndCloses(clock, from, m'.h, s)
  {
  }

  /** The loop has handled the first `k` stimuli, with as many readings as they take. */
  ghost predicate Reached(clock: nat -> nat, m: Moment, m': Moment, to: nat, ss: seq<Stimulus>, k: nat)
    requires k <= |ss|
  {
    (Ran(clock, m, m', to, ss, k) && EndsClosed(clock, m'.h, ss, k) && to == AllReadings(ss[..k])) == true
  }

  lemma ReachedAll(clock: nat -> nat, m: Moment, m': Moment, to: nat, ss: seq<Stimulus>)
    requires Reached(clock, m, m', to, ss, |ss|)
    ensures to == AllReadings(ss)
  {
    assert ss[..|ss|] == ss;
  }

  lemma ReachedNext(clock: nat -> nat, m: Moment, m': Moment, m'': Moment, from: nat, ss: seq<Stimulus>, k: nat)
    requires k < |ss| && Reached(clock, m, m', from, ss, k) && Handled(clock, from, m', m'', ss[k])
    ensures Reached(clock, m, m'', from + ReadingsBy(ss[k]), ss, k + 1)
  {
    RanNext(clock, m, m', m'', from, ss, k);
    HandledCloses(clock, from, m', m'', ss[k]);
    OneMoreClosed(clock, m'.h, m''.h, ss, k);
    ReadingsPrefix(ss, k);
  }

  // ---- the loop -----------------------------------------------------------

  /** The sampler's tick, then the flush of the window; both may emit. */
  method SampleAndFlush(sampler: Sampler, agg: Aggregator, results: Option<seq<Reading>>, node: string,
                        clock: nat -> nat, from: nat)
    requires sampler.Sound(agg)
    modifies sampler, agg
    ensures sampler.Sound(agg)
    ensures Handled(clock, from, old(sampler.Now(agg)), sampler.Now(agg), WindowEnd(results))
  {
    var early := sampler.Tick(results, agg, node, clock, from);
    ghost var was := sampler.Now(agg);
    var batch := agg.Flush(node, clock(from + TickReadings(results)));
    WindowHandled(clock, from, old(sampler.Now(agg)), was, sampler.Now(agg), early, results, batch);
  }

  lemma WindowHandled(clock: nat -> nat, from: nat, m: Moment, m': Moment, m'': Moment, early: seq<Batch>,
                      results: Option<seq<Reading>>, batch: Option<Batch>)
    requires Ticked(clock, from, m, m', early, results) && m'.h.readings != []
    requires m''.notes == m'.notes && m''.baseline == m'.baseline && m''.seen == m'.seen
    requires var now := clock(from + TickReadings(results));
             m''.h == if batch.Some? then Closed(m'.h, batch.value, now) else Skipped(m'.h, now)
    requires batch.None? ==> Fold(m'.h.window) == map[]
    ensures Handled(clock, from, m, m'', WindowEnd(results))
  {
    var n := from + TickReadings(results);
    FlushOnTime(clock, m'.h, n, m''.h, batch);
    OnTimeTwice(clock, m.h, from, m'.h, n, m''.h, n + 1);
    FlushCloses(clock, from, m'.h, m''.h, results, batch);
    TickTook(clock, from, m, m', m'', early, results);
  }

  lemma TickTook(clock: nat -> nat, from: nat, m: Moment, m': Moment, m'': Moment, early: seq<Batch>,
                 results: Option<seq<Reading>>)
    requires Ticked(clock, from, m, m', early, results)
    requires m''.notes == m'.notes && m''.baseline == m'.baseline && m''.seen == m'.seen
    ensures Took(m, m'', WindowEnd(results))
  {
  }

  lemma FlushCloses(clock: nat -> nat, from: nat, h: History, h': History, results: Option<seq<Reading>>,
                    batch: Option<Batch>)
    requires h.readings != []
    requires var now := clock(from + TickReadings(results));
             h' == if batch.Some? then Closed(h, batch.value, now) else Skipped(h, now)
    requires batch.None? ==> Fold(h.window) == map[]
    ensures EndCloses(clock, from, h', WindowEnd(results))
  {
    assert Fold([]) == map[];
  }

  method OnKernelEvent(sampler: Sampler, agg: Aggregator, e: Event, node: string, clock: nat -> nat, from: nat)
    requires sampler.Sound(agg) && !e.Cpu?
    modifies agg
    ensures sampler.Sound(agg)
    ensures Handled(clock, from, old(sampler.Now(agg)), sampler.Now(agg), Kernel(e))
  {
    ghost var was := agg.h;
    var batch := agg.OnEvent(e, node, clock(from));
    OtherEventBalanced(Seen(was), sampler.notes, e);
    EventOnTime(clock, was, e, from, agg.h, batch);
  }

  method Handle(sampler: Sampler, agg: Aggregator, stimulus: Stimulus, node: string, clock: nat -> nat, from: nat)
    requires sampler.Sound(agg) && FromKernel(stimulus)
    modifies sampler, agg
    ensures sampler.Sound(agg)
    ensures Handled(clock, from, old(sampler.Now(agg)), sampler.Now(agg), stimulus)
  {
    match stimulus
    case Kernel(e) => OnKernelEvent(sampler, agg, e, node, clock, from);
    case WindowEnd(results) => SampleAndFlush(sampler, agg, results, node, clock, from);
  }

  /** Startup: an empty aggregator, and a baseline for every counter that could be read. */
  method Startup(maxKeys: nat, start: nat, primed: seq<(nat, nat)>) returns (sampler: Sampler, agg: Aggregator)
    requires maxKeys >= 1
    ensures fresh(sampler) && fresh(agg) && sampler.Sound(agg)
    ensures sampler.Now(agg) == Started(start, primed)
  {
    agg := new Aggregator(maxKeys, start);
    sampler := new Sampler();
    assert Seen(agg.h) == [];
    sampler.Prime(primed, agg);
  }

  function Started(start: nat, primed: seq<(nat, nat)>): Moment {
    Moment(PrimedAll(map[], primed), PrimeNotes(primed), History([], [], [], [start], []), [])
  }

  /** One turn of the loop. */
  method HandleNext(sampler: Sampler, agg: Aggregator, node: string, stimuli: seq<Stimulus>, k: nat,
                    clock: nat -> nat, from: nat, ghost first: Moment)
    returns (to: nat)
    requires k < |stimuli| && FromKernel(stimuli[k])
    requires sampler.Sound(agg) && Reached(clock, first, sampler.Now(agg), from, stimuli, k)
    modifies sampler, agg
    ensures sampler.Sound(agg) && Reached(clock, first, sampler.Now(agg), to, stimuli, k + 1)
  {
    ghost var was := sampler.Now(agg);
    Handle(sampler, agg, stimuli[k], node, clock, from);
    ReachedNext(clock, first, was, sampler.Now(agg), from, stimuli, k);
    to := from + ReadingsBy(stimuli[k]);
  }

  /** Every run of the loop: what was seen and noted is what the stimuli amount to, and the sampler's account holds. */
  method MainLoop(sampler: Sampler, agg: Aggregator, node: string, stimuli: seq<Stimulus>, clock: nat -> nat)
    requires sampler.Sound(agg) && forall i | 0 <= i < |stimuli| :: FromKernel(stimuli[i])
    modifies sampler, agg
    ensures sampler.Sound(agg)
    ensures Reached(clock, old(sampler.Now(agg)), sampler.Now(agg), AllReadings(stimuli), stimuli, |stimuli|)
  {
    ghost var first := sampler.Now(agg);
    NothingRan(clock, first, stimuli);
    var from: nat := 0;
    for i := 0 to |stimuli|
      invariant sampler.Sound(agg) && Reached(clock, first, sampler.Now(agg), from, stimuli, i)
    {
      from := HandleNext(sampler, agg, node, stimuli, i, clock, from, first);
    }
    ReachedAll(clock, first, sampler.Now(agg), from, stimuli);
  }

  /** What the table must hold of a cgroup: with the open window, the growth of its counter while it was present. */
  ghost predicate Accounted(h: History, notes: seq<Note>, table: map<Key, StoredRow>, c: nat) {
    SumSet(table.Values, c) + Entry(Fold(h.window), c).cpuUsec == Billed(Stretches(notes, c))
  }

  /** A table that merged the emitted batches, each delivered at least once. */
  ghost predicate Delivered(h: History, table: map<Key, StoredRow>) {
    exists delivered :: Replays(delivered, h.emitted) && Merged(AllRows(delivered), table)
  }

  /** Every such table accounts for every cgroup whose sums did not saturate. */
  ghost predicate AllAccounted(h: History, notes: seq<Note>) {
    forall table, c | Delivered(h, table) && Unsaturated(h.windows + [h.window], c) :: Accounted(h, notes, table, c)
  }

  /** The same with nothing left in the open window. */
  ghost predicate TablesAlone(h: History, notes: seq<Note>) {
    forall table, c | Delivered(h, table) && Unsaturated(h.windows + [h.window], c) ::
      SumSet(table.Values, c) == Billed(Stretches(notes, c))
  }

  lemma TablesAccount(h: History, notes: seq<Note>)
    requires Faithful(h) && Dated(h) && Advancing(h.readings) && Balanced(Seen(h), notes)
    ensures AllAccounted(h, notes)
  {
    forall table, c | Delivered(h, table) && Unsaturated(h.windows + [h.window], c)
      ensures Accounted(h, notes, table, c)
    {
      var delivered :| Replays(delivered, h.emitted) && Merged(AllRows(delivered), table);
      TableAccountsForCpu(h, notes, delivered, table, c);
    }
  }

  lemma LastClosed(clock: nat -> nat, h: History, notes: seq<Note>, ss: seq<Stimulus>)
    requires EndsClosed(clock, h, ss, |ss|) && AllAccounted(h, notes)
    ensures ss != [] && ss[|ss| - 1].WindowEnd? ==> TablesAlone(h, notes)
  {
    if ss != [] && ss[|ss| - 1].WindowEnd? {
      forall table, c | Delivered(h, table) && Unsaturated(h.windows + [h.window], c)
        ensures SumSet(table.Values, c) == Billed(Stretches(notes, c))
      {
        assert Accounted(h, notes, table, c);
      }
    }
  }

  // ---- what the rows tell -------------------------------------------------

  /** The events of a cgroup, window by window. */
  function OwnInWindows(ws: seq<seq<Event>>, c: nat): seq<Event> {
    if ws == [] then [] else OwnInWindows(ws[..|ws| - 1], c) + Of(ws[|ws| - 1], c)
  }

  lemma {:induction false} OwnInConcat(ws: seq<seq<Event>>, c: nat)
    ensures OwnInWindows(ws, c) == Of(Concat(ws), c)
  {
    if ws != [] {
      OwnInConcat(ws[..|ws| - 1], c);
      OfConcat(Concat(ws[..|ws| - 1]), ws[|ws| - 1], c);
    }
  }

  /** The windows cut the course of each cgroup, as it is on its own, into consecutive parts. */
  ghost predicate CutsCourses(h: History, primed: seq<(nat, nat)>, ss: seq<Stimulus>) {
    forall c :: OwnInWindows(h.windows, c) + Of(h.window, c) == OwnRun(LastPrimed(primed, c), ss, c).events
  }

  /** Each row sums up the cgroup's part of its window, and each cgroup with a part has a row. */
  ghost predicate RowsTellAt(window: seq<Event>, rows: seq<Row>) {
    && (forall i | 0 <= i < |rows| :: SumsUp(rows[i].stats, Of(window, rows[i].cgroup), rows[i].cgroup))
    && (forall c | Of(window, c) != [] :: exists i | 0 <= i < |rows| :: rows[i].cgroup == c)
  }

  ghost predicate RowsTell(h: History) {
    && |h.windows| == |h.emitted|
    && forall i | 0 <= i < |h.emitted| :: RowsTellAt(h.windows[i], h.emitted[i].rows)
  }

  lemma ListedTell(window: seq<Event>, rows: seq<Row>)
    requires Lists(rows, Fold(window))
    ensures RowsTellAt(window, rows)
  {
    forall i | 0 <= i < |rows| ensures SumsUp(rows[i].stats, Of(window, rows[i].cgroup), rows[i].cgroup) {
      OwnStats(window, rows[i].cgroup);
    }
    forall c | Of(window, c) != [] ensures exists i | 0 <= i < |rows| :: rows[i].cgroup == c {
      OwnStats(window, c);
    }
  }

  lemma FaithfulTells(h: History)
    requires Faithful(h)
    ensures RowsTell(h)
  {
    forall i | 0 <= i < |h.emitted| ensures RowsTellAt(h.windows[i], h.emitted[i].rows) {
      assert ListedAt(h.windows, h.emitted, i);
      ListedTell(h.windows[i], h.emitted[i].rows);
    }
  }

  lemma CoursesCut(h: History, primed: seq<(nat, nat)>, ss: seq<Stimulus>)
    requires Seen(h) == AllEvents(PrimedAll(map[], primed), ss)
    ensures CutsCourses(h, primed, ss)
  {
    forall c ensures OwnInWindows(h.windows, c) + Of(h.window, c) == OwnRun(LastPrimed(primed, c), ss, c).events {
      OwnInConcat(h.windows, c);
      OfConcat(Concat(h.windows), h.window, c);
      OwnEvents(PrimedAll(map[], primed), ss, c);
      PrimedOwn(primed, c);
    }
  }

  /**
    The agent from startup on: the events of each cgroup are those of an agent that
    watches nothing else, the windows cut them into parts, and each emitted row sums up
    its part. In every run with an advancing clock every emitted row has a key of its
    own, and every table that its batches end up in, replayed in any way, accounts for
    what the counters did. After a run that ends with a window, as both shutdown signals
    make it, the table alone does.
   */
  method RunAgent(maxKeys: nat, start: nat, primed: seq<(nat, nat)>, node: string, stimuli: seq<Stimulus>,
                  clock: nat -> nat)
    returns (sampler: Sampler, agg: Aggregator)
    requires maxKeys >= 1 && forall i | 0 <= i < |stimuli| :: FromKernel(stimuli[i])
    ensures fresh(sampler) && fresh(agg) && sampler.Sound(agg)
    ensures sampler.notes == PrimeNotes(primed) + AllNotes(stimuli)
    ensures Seen(agg.h) == AllEvents(PrimedAll(map[], primed), stimuli)
    ensures CutsCourses(agg.h, primed, stimuli) && RowsTell(agg.h)
    ensures Rising(clock) && start < clock(0) ==> DistinctKeys(AllRows(agg.h.emitted))
    ensures Rising(clock) && start < clock(0) ==>
              AllAccounted(agg.h, sampler.notes)
    ensures EndsClosed(clock, agg.h, stimuli, |stimuli|)
    ensures Rising(clock) && start < clock(0) && stimuli != [] && stimuli[|stimuli| - 1].WindowEnd? ==>
              TablesAlone(agg.h, sampler.notes)
  {
    sampler, agg := Startup(maxKeys, start, primed);
    MainLoop(sampler, agg, node, stimuli, clock);
    RanFromStart(clock, start, primed, sampler.Now(agg), stimuli);
    CoursesCut(agg.h, primed, stimuli);
    FaithfulTells(agg.h);
    if Rising(clock) && start < clock(0) {
      KeysAreUnique(agg.h);
      TablesAccount(agg.h, sampler.notes);
      LastClosed(clock, agg.h, sampler.notes, stimuli);
    }
  }

  lemma RanFromStart(clock: nat -> nat, start: nat, primed: seq<(nat, nat)>, m: Moment, ss: seq<Stimulus>)
    requires Reached(clock, Started(start, primed), m, AllReadings(ss), ss, |ss|)
    ensures m.notes == PrimeNotes(primed) + AllNotes(ss) && m.seen == AllEvents(PrimedAll(map[], primed), ss)
    ensures Rising(clock) && start < clock(0) ==> Advancing(m.h.readings)
    ensures EndsClosed(clock, m.h, ss, |ss|)
  {
    assert ss[..|ss|] == ss;
  }

  /**
    From counters to the table: however the emitted batches are replayed, the CPU the
    table holds for a cgroup plus what is in the open window is the growth of the
    cgroup's counter over its stretches of presence.
   */
  lemma TableAccountsForCpu(h: History, notes: seq<Note>, delivered: seq<Batch>, table: map<Key, StoredRow>, c: nat)
    requires Faithful(h) && Dated(h) && Advancing(h.readings) && Balanced(Seen(h), notes)
    requires Unsaturated(h.windows + [h.window], c)
    requires Replays(delivered, h.emitted) && Merged(AllRows(delivered), table)
    ensures Accounted(h, notes, table, c)
  {
    ExactlyOnceTotals(h, delivered, table, c);
    CpuConserved(h, notes, c);
  }
}
