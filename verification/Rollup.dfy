/**
  What the aggregator must compute: the roll-up of a window of events per cgroup,
  first as the step-by-step fold that the code performs, then by what each field
  means in terms of the events, saturation included.
 */
module Rollup {
  const U32_MAX := 0xFFFF_FFFF
  const U64_MAX := 0xFFFF_FFFF_FFFF_FFFF

  type Labels = string

  datatype Stats = Stats(execCount: nat, sampleCount: nat, memoryMax: nat, memoryLast: nat, cpuUsec: nat,
                         labels: Labels)

  /** Labels are what the attribution cache says at the time of the event. */
  datatype Event =
    | Exec(cgroup: nat, labels: Labels)
    | Memory(cgroup: nat, bytes: nat, labels: Labels)
    | Cpu(cgroup: nat, deltaUsec: nat, labels: Labels)
    | Unknown

  type Buffer = map<nat, Stats>

  const FRESH := Stats(0, 0, 0, 0, 0, "")

  function Min(a: nat, b: nat): nat { if a <= b then a else b }
  function Max(a: nat, b: nat): nat { if a >= b then a else b }

  function SaturatingAdd(a: nat, b: nat, max: nat): nat { Min(a + b, max) }

  function Update(s: Stats, e: Event): Stats {
    match e
    case Exec(_, labels) => s.(execCount := SaturatingAdd(s.execCount, 1, U32_MAX), labels := labels)
    case Memory(_, bytes, labels) =>
      s.(sampleCount := SaturatingAdd(s.sampleCount, 1, U32_MAX), memoryLast := bytes,
         memoryMax := if bytes > s.memoryMax then bytes else s.memoryMax, labels := labels)
    case Cpu(_, delta, labels) => s.(cpuUsec := SaturatingAdd(s.cpuUsec, delta, U64_MAX), labels := labels)
    case Unknown => s
  }

  function Entry(m: Buffer, c: nat): Stats { if c in m then m[c] else FRESH }

  function Ingest(m: Buffer, e: Event): Buffer {
    if e.Unknown? then m else m[e.cgroup := Update(Entry(m, e.cgroup), e)]
  }

  function Fold(es: seq<Event>): Buffer {
    if es == [] then map[] else Ingest(Fold(es[..|es| - 1]), es[|es| - 1])
  }

  // ---- what the fields mean -----------------------------------------------

  predicate About(e: Event, c: nat) { !e.Unknown? && e.cgroup == c }

  function Execs(es: seq<Event>, c: nat): nat {
    if es == [] then 0
    else Execs(es[..|es| - 1], c) + var e := es[|es| - 1]; if e.Exec? && e.cgroup == c then 1 else 0
  }

  function Samples(es: seq<Event>, c: nat): nat {
    if es == [] then 0
    else Samples(es[..|es| - 1], c) + var e := es[|es| - 1]; if e.Memory? && e.cgroup == c then 1 else 0
  }

  function CpuSum(es: seq<Event>, c: nat): nat {
    if es == [] then 0
    else CpuSum(es[..|es| - 1], c) + var e := es[|es| - 1]; if e.Cpu? && e.cgroup == c then e.deltaUsec else 0
  }

  predicate SampleOf(e: Event, c: nat) { e.Memory? && e.cgroup == c }

  /** `k` is the last memory sample of the cgroup. */
  ghost predicate LastSample(es: seq<Event>, c: nat, k: int) {
    0 <= k < |es| && SampleOf(es[k], c) && forall j | k < j < |es| :: !SampleOf(es[j], c)
  }

  /** `k` is the last event of the cgroup. */
  ghost predicate LastEvent(es: seq<Event>, c: nat, k: int) {
    0 <= k < |es| && About(es[k], c) && forall j | k < j < |es| :: !About(es[j], c)
  }

  ghost predicate CountsMean(s: Stats, es: seq<Event>, c: nat) {
    && s.execCount == Min(Execs(es, c), U32_MAX)
    && s.sampleCount == Min(Samples(es, c), U32_MAX)
    && s.cpuUsec == Min(CpuSum(es, c), U64_MAX)
  }

  ghost predicate MaxMeans(s: Stats, es: seq<Event>, c: nat) {
    && (forall i | 0 <= i < |es| && SampleOf(es[i], c) :: es[i].bytes <= s.memoryMax)
    && (s.memoryMax == 0 || exists i | 0 <= i < |es| :: SampleOf(es[i], c) && es[i].bytes == s.memoryMax)
  }

  ghost predicate LastMeans(s: Stats, es: seq<Event>, c: nat) {
    && (forall k | LastSample(es, c, k) :: s.memoryLast == es[k].bytes)
    && (forall k | LastEvent(es, c, k) :: s.labels == es[k].labels)
  }

  lemma {:induction false} KeysAreCgroups(es: seq<Event>, c: nat)
    ensures c in Fold(es) <==> exists i | 0 <= i < |es| :: About(es[i], c)
  {
    if es == [] {
    } else {
      var n := |es| - 1;
      KeysAreCgroups(es[..n], c);
      if c in Fold(es[..n]) {
        var i :| 0 <= i < n && About(es[..n][i], c);
        assert About(es[i], c);
      }
      if i :| 0 <= i < n && About(es[i], c) {
        assert About(es[..n][i], c);
      }
    }
  }

  lemma {:induction false} FoldCounts(es: seq<Event>, c: nat)
    ensures CountsMean(Entry(Fold(es), c), es, c)
  {
    if es == [] {
    } else {
      FoldCounts(es[..|es| - 1], c);
    }
  }

  lemma {:induction false} FoldMax(es: seq<Event>, c: nat)
    ensures MaxMeans(Entry(Fold(es), c), es, c)
  {
    if es == [] {
    } else {
      var n := |es| - 1;
      var s, s' := Entry(Fold(es[..n]), c), Entry(Fold(es), c);
      FoldMax(es[..n], c);
      forall i | 0 <= i < |es| && SampleOf(es[i], c) ensures es[i].bytes <= s'.memoryMax {
        assert i < n ==> es[..n][i] == es[i];
      }
      if s'.memoryMax == s.memoryMax && s.memoryMax != 0 {
        var i :| 0 <= i < n && SampleOf(es[..n][i], c) && es[..n][i].bytes == s.memoryMax;
        assert SampleOf(es[i], c) && es[i].bytes == s'.memoryMax;
      } else if s'.memoryMax != 0 {
        assert SampleOf(es[n], c) && es[n].bytes == s'.memoryMax;
      }
    }
  }

  /** Without a sample there is no last value. */
  lemma {:induction false} FoldUnsampled(es: seq<Event>, c: nat)
    requires Samples(es, c) == 0
    ensures Entry(Fold(es), c).memoryLast == 0
  {
    if es == [] {
    } else {
      FoldUnsampled(es[..|es| - 1], c);
    }
  }

  lemma {:induction false} FoldLast(es: seq<Event>, c: nat)
    ensures LastMeans(Entry(Fold(es), c), es, c)
  {
    if es == [] {
    } else {
      var n := |es| - 1;
      FoldLast(es[..n], c);
      forall k | LastSample(es, c, k) ensures Entry(Fold(es), c).memoryLast == es[k].bytes {
        if k < n { assert !SampleOf(es[n], c) && LastSample(es[..n], c, k); }
      }
      forall k | LastEvent(es, c, k) ensures Entry(Fold(es), c).labels == es[k].labels {
        if k < n { assert !About(es[n], c) && LastEvent(es[..n], c, k); }
      }
    }
  }

  /**
    The stats of a cgroup in terms of the events of the window: counts and CPU are
    the true totals capped at the counter's width, the maximum is over the samples
    and is attained, the last value and the labels are those of the last event
    that carries them, and a cgroup has stats exactly if it has events.
   */
  lemma FoldMeans(es: seq<Event>, c: nat)
    ensures var s := Entry(Fold(es), c); CountsMean(s, es, c) && MaxMeans(s, es, c) && LastMeans(s, es, c)
    ensures Samples(es, c) == 0 ==> Entry(Fold(es), c).memoryLast == 0
    ensures c in Fold(es) <==> exists i | 0 <= i < |es| :: About(es[i], c)
  {
    FoldCounts(es, c);
    FoldMax(es, c);
    FoldLast(es, c);
    KeysAreCgroups(es, c);
    if Samples(es, c) == 0 {
      FoldUnsampled(es, c);
    }
  }

  // ---- one cgroup on its own ----------------------------------------------

  /** The events about a cgroup, in order. */
  function Of(es: seq<Event>, c: nat): seq<Event> {
    if es == [] then []
    else Of(es[..|es| - 1], c) + var e := es[|es| - 1]; if About(e, c) then [e] else []
  }

  lemma {:induction false} OfConcat(a: seq<Event>, b: seq<Event>, c: nat)
    ensures Of(a + b, c) == Of(a, c) + Of(b, c)
    decreases |b|
  {
    if b == [] {
      assert a + b == a;
    } else {
      OfConcat(a, b[..|b| - 1], c);
      assert (a + b)[..|a + b| - 1] == a + b[..|b| - 1];
    }
  }

  lemma OfSnoc(es: seq<Event>, e: Event, c: nat)
    ensures Of(es + [e], c) == if About(e, c) then Of(es, c) + [e] else Of(es, c)
  {
    assert (es + [e])[..|es|] == es;
    assert Of(es, c) + [] == Of(es, c);
  }

  lemma FoldSnoc(es: seq<Event>, e: Event)
    ensures Fold(es + [e]) == Ingest(Fold(es), e)
  {
    assert (es + [e])[..|es|] == es;
  }

  /** The stats of a cgroup, if it has any. */
  function Found(m: Buffer, c: nat): seq<Stats> { if c in m then [m[c]] else [] }

  lemma IngestFound(m: Buffer, m': Buffer, e: Event, c: nat)
    ensures !About(e, c) ==> Found(Ingest(m, e), c) == Found(m, c)
    ensures About(e, c) && Found(m, c) == Found(m', c) ==> Found(Ingest(m, e), c) == Found(Ingest(m', e), c)
  {
    assert Found(m, c) == Found(m', c) ==> Entry(m, c) == Entry(m', c) by {
      if Found(m, c) == Found(m', c) && c in m {
        assert Found(m, c)[0] == m[c] && Found(m', c)[0] == m'[c];
      }
    }
  }

  /** Other cgroups leave no trace in the stats of this one. */
  lemma {:induction false} FoldOfOwn(es: seq<Event>, c: nat)
    ensures Found(Fold(es), c) == Found(Fold(Of(es, c)), c)
  {
    if es == [] {
    } else {
      var before, e := es[..|es| - 1], es[|es| - 1];
      assert es == before + [e];
      FoldOfOwn(before, c);
      OfSnoc(before, e, c);
      FoldSnoc(before, e);
      FoldSnoc(Of(before, c), e);
      IngestFound(Fold(before), Fold(Of(before, c)), e, c);
    }
  }

  /** Stats that sum up these events, all of them about the cgroup. */
  ghost predicate SumsUp(s: Stats, es: seq<Event>, c: nat) {
    && es != [] && CountsMean(s, es, c) && MaxMeans(s, es, c) && LastMeans(s, es, c)
    && (Samples(es, c) == 0 ==> s.memoryLast == 0)
  }

  lemma {:induction false} OwnEventsOnly(es: seq<Event>, c: nat)
    ensures forall e | e in Of(es, c) :: About(e, c)
    ensures Of(es, c) == [] <==> c !in Fold(es)
  {
    if es != [] {
      OwnEventsOnly(es[..|es| - 1], c);
    }
  }

  /** The stats of a cgroup sum up its own events, and it has stats exactly if it has events. */
  lemma OwnStats(es: seq<Event>, c: nat)
    ensures c in Fold(es) <==> Of(es, c) != []
    ensures c in Fold(es) ==> SumsUp(Fold(es)[c], Of(es, c), c)
  {
    OwnEventsOnly(es, c);
    FoldOfOwn(es, c);
    FoldMeans(Of(es, c), c);
    if c in Fold(es) {
      assert Found(Fold(es), c)[0] == Fold(es)[c];
      assert Found(Fold(Of(es, c)), c) != [];
      assert Found(Fold(Of(es, c)), c)[0] == Fold(Of(es, c))[c];
    }
  }
}
