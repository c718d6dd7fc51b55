/**
  What wakes the agent's loop and what it amounts to: events, baselines, notes and clock
  readings; and the same for one cgroup on its own. Cgroups do not influence each other:
  the events of one are those of an agent that watches nothing else.
 */
module Stimuli {
  import opened Options
  import opened Rollup
  import opened Sampler

  /** What wakes the loop: an event of the kernel, or the end of a window with what the sampler could read. */
  datatype Stimulus = Kernel(event: Event) | WindowEnd(results: Option<seq<Reading>>)

  /** The kernel reports processes and memory; CPU comes from the sampler alone. */
  predicate FromKernel(s: Stimulus) { s.Kernel? ==> !s.event.Cpu? }

  // ---- what a stimulus amounts to -----------------------------------------

  function EventsBy(baseline: map<nat, nat>, s: Stimulus): seq<Event> {
    if s.Kernel? then [s.event] else TickEvents(baseline, s.results)
  }

  function BaselineBy(baseline: map<nat, nat>, s: Stimulus): map<nat, nat> {
    if s.Kernel? then baseline else TickBaseline(baseline, s.results)
  }

  function NotesBy(s: Stimulus): seq<Note> {
    if s.Kernel? then [] else TickNotes(s.results)
  }

  /** How many clock readings handling it can take. */
  function ReadingsBy(s: Stimulus): nat {
    if s.Kernel? then 1 else TickReadings(s.results) + 1
  }

  function AllBaseline(baseline: map<nat, nat>, ss: seq<Stimulus>): map<nat, nat> {
    if ss == [] then baseline else BaselineBy(AllBaseline(baseline, ss[..|ss| - 1]), ss[|ss| - 1])
  }

  function AllEvents(baseline: map<nat, nat>, ss: seq<Stimulus>): seq<Event> {
    if ss == [] then []
    else
      var n := |ss| - 1;
      AllEvents(baseline, ss[..n]) + EventsBy(AllBaseline(baseline, ss[..n]), ss[n])
  }

  function AllNotes(ss: seq<Stimulus>): seq<Note> {
    if ss == [] then [] else AllNotes(ss[..|ss| - 1]) + NotesBy(ss[|ss| - 1])
  }

  function AllReadings(ss: seq<Stimulus>): nat {
    if ss == [] then 0 else AllReadings(ss[..|ss| - 1]) + ReadingsBy(ss[|ss| - 1])
  }

  lemma ReadingsPrefix(ss: seq<Stimulus>, k: nat)
    requires k < |ss|
    ensures AllReadings(ss[..k + 1]) == AllReadings(ss[..k]) + ReadingsBy(ss[k])
  {
    assert ss[..k + 1][..k] == ss[..k];
  }

  lemma AllPrefix(baseline: map<nat, nat>, ss: seq<Stimulus>, k: nat)
    requires k < |ss|
    ensures AllNotes(ss[..k + 1]) == AllNotes(ss[..k]) + NotesBy(ss[k])
    ensures AllBaseline(baseline, ss[..k + 1]) == BaselineBy(AllBaseline(baseline, ss[..k]), ss[k])
    ensures AllEvents(baseline, ss[..k + 1]) ==
            AllEvents(baseline, ss[..k]) + EventsBy(AllBaseline(baseline, ss[..k]), ss[k])
  {
    assert ss[..k + 1][..k] == ss[..k];
  }

  // ---- one cgroup on its own ----------------------------------------------

  /** What is known of one cgroup: its counter as last read, if it has not been missing since, and its events. */
  datatype Own = Own(last: Option<nat>, events: seq<Event>)

  /** The memory that was read is a sample, labelled as the reading is. */
  function OwnSample(r: Reading): seq<Event> {
    if r.memoryBytes.None? then [] else [Memory(r.cgroup, r.memoryBytes.value, r.labels)]
  }

  /** The counter's increase over its last value is charged, a decrease as nothing, and a first value not at all. */
  function OwnCharge(last: Option<nat>, r: Reading): seq<Event> {
    if r.cpuUsec.None? || last.None? then []
    else
      var now := r.cpuUsec.value;
      [Cpu(r.cgroup, if now >= last.value then now - last.value else 0, r.labels)]
  }

  function OwnReading(o: Own, r: Reading): Own {
    Own(if r.cpuUsec.Some? then r.cpuUsec else o.last, o.events + OwnSample(r) + OwnCharge(o.last, r))
  }

  function OwnReadings(o: Own, rs: seq<Reading>, c: nat): Own {
    if rs == [] then o
    else
      var before, r := OwnReadings(o, rs[..|rs| - 1], c), rs[|rs| - 1];
      if r.cgroup == c then OwnReading(before, r) else before
  }

  /** A tick that does not mention the cgroup makes its last value unknown; a failed tick changes nothing. */
  function OwnStimulus(o: Own, s: Stimulus, c: nat): Own {
    match s
    case Kernel(e) => if About(e, c) then Own(o.last, o.events + [e]) else o
    case WindowEnd(results) =>
      if results.None? then o
      else if exists r :: r in results.value && r.cgroup == c then OwnReadings(o, results.value, c)
      else Own(None, o.events)
  }

  function OwnRun(first: Option<nat>, ss: seq<Stimulus>, c: nat): Own {
    if ss == [] then Own(first, []) else OwnStimulus(OwnRun(first, ss[..|ss| - 1], c), ss[|ss| - 1], c)
  }

  function LookUp(baseline: map<nat, nat>, c: nat): Option<nat> {
    if c in baseline then Some(baseline[c]) else None
  }

  lemma ReadingOwn(baseline: map<nat, nat>, r: Reading, c: nat, es: seq<Event>)
    ensures var o := Own(LookUp(baseline, c), es);
            Own(LookUp(Rebased(baseline, r), c), es + Of(ReadingEvents(baseline, r), c)) ==
            if r.cgroup == c then OwnReading(o, r) else o
  {
    var sample, charge := MemoryEvents(r), CpuEvents(baseline, r);
    OfConcat(sample, charge, c);
    SampleOwn(r, c);
    ChargeOwn(baseline, r, c);
    Joined(es, Of(sample, c), Of(charge, c));
    assert r.cgroup != c ==> es + ([] + []) == es;
  }

  lemma SampleOwn(r: Reading, c: nat)
    ensures Of(MemoryEvents(r), c) == if r.cgroup == c then OwnSample(r) else []
  {
    OfOne(MemoryEvents(r), c);
  }

  lemma ChargeOwn(baseline: map<nat, nat>, r: Reading, c: nat)
    ensures Of(CpuEvents(baseline, r), c) == if r.cgroup == c then OwnCharge(LookUp(baseline, c), r) else []
  {
    OfOne(CpuEvents(baseline, r), c);
  }

  lemma Joined(a: seq<Event>, b: seq<Event>, c: seq<Event>)
    ensures a + (b + c) == a + b + c && a + [] == a
  {
  }

  lemma OfOne(es: seq<Event>, c: nat)
    requires |es| <= 1
    ensures Of(es, c) == if es != [] && About(es[0], c) then es else []
  {
  }

  lemma {:induction false} ReadingsOwn(baseline: map<nat, nat>, rs: seq<Reading>, c: nat, es: seq<Event>)
    ensures OwnReadings(Own(LookUp(baseline, c), es), rs, c) ==
            Own(LookUp(RebasedAll(baseline, rs), c), es + Of(FedEvents(baseline, rs), c))
  {
    if rs == [] {
      assert es + [] == es;
    } else {
      var n := |rs| - 1;
      var base, fed := RebasedAll(baseline, rs[..n]), FedEvents(baseline, rs[..n]);
      ReadingsOwn(baseline, rs[..n], c, es);
      ReadingOwn(base, rs[n], c, es + Of(fed, c));
      OfConcat(fed, ReadingEvents(base, rs[n]), c);
      Joined(es, Of(fed, c), Of(ReadingEvents(base, rs[n]), c));
    }
  }

  /** Readings of other cgroups. */
  lemma {:induction false} NotMentioned(rs: seq<Reading>, c: nat, o: Own)
    requires forall r | r in rs :: r.cgroup != c
    ensures OwnReadings(o, rs, c) == o
  {
    if rs != [] {
      NotMentioned(rs[..|rs| - 1], c, o);
    }
  }

  lemma StimulusOwn(baseline: map<nat, nat>, s: Stimulus, c: nat, es: seq<Event>)
    ensures OwnStimulus(Own(LookUp(baseline, c), es), s, c) ==
            Own(LookUp(BaselineBy(baseline, s), c), es + Of(EventsBy(baseline, s), c))
  {
    assert es + [] == es;
    match s
    case Kernel(e) => OfOne([e], c);
    case WindowEnd(results) =>
      if results.Some? {
        var rs := results.value;
        ReadingsOwn(Pruned(baseline, Cgroups(rs)), rs, c, es);
        if !exists r :: r in rs && r.cgroup == c {
          NotMentioned(rs, c, Own(None, es));
        }
      }
  }

  /**
    No cgroup influences another: of all events of a run, those of a cgroup are, in
    order, the kernel's events about it and what its own readings amount to.
   */
  lemma {:induction false} OwnEvents(baseline: map<nat, nat>, ss: seq<Stimulus>, c: nat)
    ensures OwnRun(LookUp(baseline, c), ss, c) ==
            Own(LookUp(AllBaseline(baseline, ss), c), Of(AllEvents(baseline, ss), c))
  {
    if ss != [] {
      var n := |ss| - 1;
      OwnEvents(baseline, ss[..n], c);
      StimulusOwn(AllBaseline(baseline, ss[..n]), ss[n], c, Of(AllEvents(baseline, ss[..n]), c));
      OfConcat(AllEvents(baseline, ss[..n]), EventsBy(AllBaseline(baseline, ss[..n]), ss[n]), c);
    }
  }

  /** The last value that priming read, if any. */
  function LastPrimed(primed: seq<(nat, nat)>, c: nat): Option<nat> {
    if primed == [] then None
    else if primed[|primed| - 1].0 == c then Some(primed[|primed| - 1].1)
    else LastPrimed(primed[..|primed| - 1], c)
  }

  lemma {:induction false} PrimedOwn(primed: seq<(nat, nat)>, c: nat)
    ensures LookUp(PrimedAll(map[], primed), c) == LastPrimed(primed, c)
  {
    if primed != [] {
      PrimedOwn(primed[..|primed| - 1], c);
    }
  }
}
