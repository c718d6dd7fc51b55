/** The gateway-health circuit breaker: a state and a wrapping u8 failure counter. */
module Circuit {
  datatype CircuitState = Closed | HalfOpen | Open

  const OPEN_THRESHOLD := 3

  datatype Breaker = Breaker(state: CircuitState, failures: nat)

  predicate Valid(b: Breaker) { b.failures < 256 }

  function Initial(): Breaker { Breaker(Closed, 0) }

  function AfterSuccess(b: Breaker): Breaker { Breaker(Closed, 0) }

  /** `fetch_add` wraps, the comparison saturates. */
  function AfterFailure(b: Breaker): Breaker
    requires Valid(b)
  {
    var run := if b.failures == 255 then 255 else b.failures + 1;
    Breaker(if run >= OPEN_THRESHOLD && b.state != Open then Open else b.state, (b.failures + 1) % 256)
  }

  function AfterTryHalfOpen(b: Breaker): Breaker {
    if b.state == Open then b.(state := HalfOpen) else b
  }

  // ---- runs of atomic operations ------------------------------------------

  datatype Event = Success | Failure | Probe

  /** The number of failures after the last success. */
  function FailuresSince(es: seq<Event>): nat {
    if es == [] then 0
    else
      var n := |es| - 1;
      match es[n]
      case Success => 0
      case Failure => FailuresSince(es[..n]) + 1
      case Probe => FailuresSince(es[..n])
  }

  function Apply(b: Breaker, e: Event): Breaker
    requires Valid(b)
  {
    match e
    case Success => AfterSuccess(b)
    case Failure => AfterFailure(b)
    case Probe => AfterTryHalfOpen(b)
  }

  function RunAtomic(es: seq<Event>): (b: Breaker)
    ensures Valid(b)
  {
    if es == [] then Initial() else Apply(RunAtomic(es[..|es| - 1]), es[|es| - 1])
  }

  lemma WrapStep(n: nat)
    ensures (n % 256 + 1) % 256 == (n + 1) % 256
    ensures n % 256 == 0 <==> n == 256 * (n / 256)
  {
  }

  /**
    With atomic operations the circuit is closed exactly when fewer than three
    failures were recorded since the last success, although the counter wraps.
   */
  lemma {:induction false} ClosedIffFewFailures(es: seq<Event>)
    ensures RunAtomic(es).state == Closed <==> FailuresSince(es) < 3
    ensures RunAtomic(es).failures == FailuresSince(es) % 256
  {
    if es == [] {
    } else {
      var before := es[..|es| - 1];
      ClosedIffFewFailures(before);
      WrapStep(FailuresSince(before));
    }
  }

  /** A failure re-opens a half-open circuit exactly when the wrapped counter stood at two or more. */
  lemma ReopensIff(es: seq<Event>)
    requires RunAtomic(es).state == HalfOpen
    ensures RunAtomic(es + [Failure]).state == Open <==> FailuresSince(es) % 256 >= 2
  {
    ClosedIffFewFailures(es);
    assert (es + [Failure])[..|es|] == es;
  }

  function Failures(n: nat): seq<Event> { seq(n, _ => Failure) }

  lemma {:induction false} ManyFailures(n: nat)
    ensures FailuresSince(Failures(n)) == n
    ensures n >= 3 ==> RunAtomic(Failures(n)).state == Open
  {
    if n == 0 {
    } else {
      ManyFailures(n - 1);
      ClosedIffFewFailures(Failures(n - 1));
      assert Failures(n)[..n - 1] == Failures(n - 1);
    }
  }

  /** The wrapped counter: after 256 failures and a probe, one more failure leaves the circuit half-open. */
  lemma WrappedStaysHalfOpen()
    ensures var es := Failures(256) + [Probe];
            RunAtomic(es).state == HalfOpen && RunAtomic(es + [Failure]).state == HalfOpen
  {
    var es := Failures(256) + [Probe];
    ManyFailures(256);
    assert es[..256] == Failures(256);
    ReopensIff(es);
    ClosedIffFewFailures(es + [Failure]);
    assert (es + [Failure])[..|es|] == es;
  }

  /**
    The two atomics, as the retry worker and the drainer use them, with the ghost
    record of everything that was reported to them.
   */
  class Cell {
    var state: CircuitState
    var failures: nat
    ghost var es: seq<Event>

    ghost predicate Consistent()
      reads this
    {
      Breaker(state, failures) == RunAtomic(es)
    }

    constructor ()
      ensures Consistent() && es == []
    {
      state, failures, es := Closed, 0, [];
    }

    /** A success closes the circuit, whatever happened before. */
    method RecordPostSuccess()
      requires Consistent()
      modifies this
      ensures Consistent() && es == old(es) + [Success]
      ensures state == Closed && FailuresSince(es) == 0
    {
      failures := 0;
      if state != Closed {
        state := Closed;
      }
      assert (es + [Success])[..|es|] == es;
      es := es + [Success];
    }

    /**
      A failure opens the circuit if it is the third in a row; a half-open circuit
      re-opens unless the counter, which wraps, stood below two.
     */
    method RecordPostFailure()
      requires Consistent()
      modifies this
      ensures Consistent() && es == old(es) + [Failure]
      ensures state == Closed <==> FailuresSince(es) < 3
      ensures old(state) != HalfOpen && FailuresSince(es) >= 3 ==> state == Open
      ensures old(state) == HalfOpen ==> (state == Open <==> FailuresSince(old(es)) % 256 >= 2)
    {
      ClosedIffFewFailures(es);
      ClosedIffFewFailures(es + [Failure]);
      assert (es + [Failure])[..|es|] == es;
      var prev := failures;
      failures := (failures + 1) % 256;
      if (if prev == 255 then 255 else prev + 1) >= OPEN_THRESHOLD && state != Open {
        state := Open;
      }
      es := es + [Failure];
    }

    /** A probe half-opens an open circuit and touches no other. */
    method TryHalfOpen()
      requires Consistent()
      modifies this
      ensures Consistent() && es == old(es) + [Probe]
      ensures state == HalfOpen <==> FailuresSince(es) >= 3
    {
      ClosedIffFewFailures(es);
      assert (es + [Probe])[..|es|] == es;
      if state == Open {
        state := HalfOpen;
      }
      es := es + [Probe];
    }
  }

  // ---- the drainer's load and store apart ---------------------------------

  /** As above, but the drainer's check and its store are separate, with other events in between. */
  datatype SplitEvent = Post(ok: bool) | Load | Store

  /** `sawOpen` is what the drainer loaded; `stored` says it stored since the last success. */
  datatype Split = Split(breaker: Breaker, sawOpen: bool, failures: nat, stored: bool)

  function ApplySplit(s: Split, e: SplitEvent): (s': Split)
    requires Valid(s.breaker)
    ensures Valid(s'.breaker)
  {
    match e
    case Post(ok) =>
      if ok then Split(AfterSuccess(s.breaker), s.sawOpen, 0, false)
      else Split(AfterFailure(s.breaker), s.sawOpen, s.failures + 1, s.stored)
    case Load => s.(sawOpen := s.breaker.state == Open)
    case Store =>
      if s.sawOpen then s.(breaker := s.breaker.(state := HalfOpen), sawOpen := false, stored := true) else s
  }

  function RunSplit(es: seq<SplitEvent>): (s: Split)
    ensures Valid(s.breaker)
  {
    if es == [] then Split(Initial(), false, 0, false)
    else ApplySplit(RunSplit(es[..|es| - 1]), es[|es| - 1])
  }

  ghost predicate SplitInv(s: Split) {
    && Valid(s.breaker)
    && (s.breaker.state == Open ==> s.failures >= 3)
    && (s.breaker.state == Closed <==> s.failures < 3 && !s.stored)
    && s.breaker.failures == s.failures % 256
  }

  lemma SplitStep(s: Split, e: SplitEvent)
    requires SplitInv(s)
    ensures SplitInv(ApplySplit(s, e))
  {
    WrapStep(s.failures);
  }

  /**
    With the load and the store apart an open circuit still means at least three
    failures since the last success; the circuit is closed exactly when there
    were fewer and the drainer has not stored since that success.
   */
  lemma {:induction false} OpenMeansFailures(es: seq<SplitEvent>)
    ensures var s := RunSplit(es);
            && (s.breaker.state == Open ==> s.failures >= 3)
            && (s.breaker.state == Closed <==> s.failures < 3 && !s.stored)
            && s.breaker.failures == s.failures % 256
  {
    if es == [] {
    } else {
      var before := es[..|es| - 1];
      OpenMeansFailures(before);
      SplitStep(RunSplit(before), es[|es| - 1]);
    }
  }

  /** The load at `k` is the drainer's last act. */
  ghost predicate LastLoad(es: seq<SplitEvent>, k: int) {
    0 <= k < |es| && es[k].Load? && forall j | k < j < |es| :: es[j].Post?
  }

  lemma LastLoadSnoc(es: seq<SplitEvent>, e: SplitEvent, k: int)
    ensures e.Post? ==> (LastLoad(es + [e], k) <==> LastLoad(es, k))
    ensures e.Load? ==> (LastLoad(es + [e], k) <==> k == |es|)
    ensures e.Store? ==> !LastLoad(es + [e], k)
  {
    var all := es + [e];
    assert all[|es|] == e;
    assert forall j | 0 <= j < |es| :: all[j] == es[j];
    if LastLoad(all, k) && k < |es| {
      assert all[|es|].Post?;
    }
  }

  /** What the drainer believes is what the circuit was at its last load, unless it has stored since. */
  lemma {:induction false} SawOpenIff(es: seq<SplitEvent>)
    ensures RunSplit(es).sawOpen <==>
            exists k :: LastLoad(es, k) && RunSplit(es[..k]).breaker.state == Open
  {
    if es == [] {
    } else {
      var n := |es| - 1;
      var before, e := es[..n], es[n];
      assert es == before + [e];
      SawOpenIff(before);
      forall k ensures 0 <= k <= n ==> es[..k] == before[..k] {
      }
      forall k { LastLoadSnoc(before, e, k); }
      assert before[..n] == before;
      if e.Load? && RunSplit(es).sawOpen {
        assert LastLoad(es, n) && RunSplit(es[..n]).breaker.state == Open;
      }
      if e.Post? && RunSplit(es).sawOpen {
        var k :| LastLoad(before, k) && RunSplit(before[..k]).breaker.state == Open;
        assert LastLoad(es, k) && RunSplit(es[..k]).breaker.state == Open;
      }
    }
  }

  /** A store half-opens the circuit exactly if the matching load found it open; otherwise it changes nothing. */
  lemma StoreNeedsOpenLoad(es: seq<SplitEvent>)
    ensures var s, s' := RunSplit(es), RunSplit(es + [Store]);
            if exists k :: LastLoad(es, k) && RunSplit(es[..k]).breaker.state == Open
            then s'.breaker == Breaker(HalfOpen, s.breaker.failures) else s'.breaker == s.breaker
  {
    SawOpenIff(es);
    assert (es + [Store])[..|es|] == es;
  }

  /** The stale store: a success between load and store leaves the circuit half-open with no failure recorded. */
  lemma StaleProbe()
    ensures var es := [Post(false), Post(false), Post(false), Load, Post(true), Store];
            RunSplit(es).breaker == Breaker(HalfOpen, 0)
  {
    var es := [Post(false), Post(false), Post(false), Load, Post(true), Store];
    assert es[..5] == [Post(false), Post(false), Post(false), Load, Post(true)];
    assert es[..5][..4] == [Post(false), Post(false), Post(false), Load];
    assert es[..5][..4][..3] == [Post(false), Post(false), Post(false)];
    assert es[..5][..4][..3][..2] == [Post(false), Post(false)];
    assert es[..5][..4][..3][..2][..1] == [Post(false)];
    assert RunSplit([]) == Split(Initial(), false, 0, false);
    assert RunSplit([Post(false)]) == Split(Breaker(Closed, 1), false, 1, false);
    assert RunSplit([Post(false), Post(false)]) == Split(Breaker(Closed, 2), false, 2, false);
    assert RunSplit([Post(false), Post(false), Post(false)]) == Split(Breaker(Open, 3), false, 3, false);
  }
}
