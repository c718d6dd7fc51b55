/**
  The delivery pipeline as a step relation: the emitter with its overflow routing,
  the write-ahead log's writer thread, the replay drainer and the retry worker,
  taking steps in any order. A batch is a number, in order of arrival; the log
  is the spool machine. Scheduling, timers and gateway answers are the choice of
  the next step.

  A predicate compared with `true` is handled by the verifier as one fact, not as its
  conjuncts.
 */
module Pipeline {
  import opened Options
  import Gateway
  import Spool

  const RETRY_QUEUE_CAPACITY := 60
  const APPEND_CHANNEL_CAPACITY := 256

  type Batch = nat
  type Entry = Spool.Entry<Batch>

  /** Where the emitter is with the batch it is routing. */
  datatype Emitter = Ready | Spilling(batch: Batch) | LastResort(batch: Batch) | Resending(batch: Batch)

  /** The drainer between its peek, its send and its commit. */
  datatype Drainer = Idle | Holding(entry: Entry) | Committing(entry: Entry)

  /** What the worker makes of a post. */
  datatype Outcome = Success | Retryable | NonRetryable

  /** By the status of the response; a post without one can be tried again. */
  function OutcomeOf(status: Option<nat>): Outcome {
    if status.None? then Retryable
    else if 200 <= status.value < 300 then Success
    else if status.value == 429 || 500 <= status.value < 600 then Retryable
    else NonRetryable
  }

  /** How a batch left the retry queue: to the worker, or thrown away. */
  datatype Exit = Taken(batch: Batch) | Dropped(batch: Batch)

  datatype State = State(
    arrived: nat,                    // batches 0, 1, ... have been handed to the emitter
    emitter: Emitter,
    retry: seq<Batch>,               // the in-memory retry queue
    hand: Option<Batch>,             // the batch the retry worker is posting
    channel: seq<Batch>,             // the append channel to the writer thread
    writer: Option<Batch>,           // the batch the writer thread is appending
    wal: Spool.State<Batch>,
    drainer: Drainer,
    acked: seq<Batch>,
    discarded: seq<Batch>,           // rejected by the gateway as non-retryable
    droppedOldest: seq<Batch>,
    droppedNew: seq<Batch>,
    appendLost: seq<Batch>,          // the append failed
    direct: seq<Batch>,              // history: entered the retry queue straight from the emitter
    sent: seq<Entry>,                // history: entered the retry queue from the log
    entered: seq<Batch>,             // history: all that entered the retry queue
    exits: seq<Exit>)                // history: all that left it

  datatype Act =
    | Arrive | Spill(available: bool) | DropOldest(locked: bool) | Resend
    | WriterTake | WriterOp(op: Spool.Op<Batch>) | WriterWrite | WriterFail
    | DrainCollect | DrainPeek | DrainSend | DrainCommit
    | WorkerTake | WorkerPost(status: Option<nat>)

  /** Startup with a log that recovery found; its batches, numbered from zero, count as arrived. */
  function Start(wal: Spool.State<Batch>): State {
    State(|wal.log|, Ready, [], None, [], None, wal, Idle, [], [], [], [], [], [], [], [], [])
  }

  predicate Can(s: State, a: Act) {
    match a
    case Arrive => s.emitter.Ready?
    case Spill(_) => s.emitter.Spilling?
    case DropOldest(_) => s.emitter.LastResort?
    case Resend => s.emitter.Resending?
    case WriterTake => s.writer.None? && s.channel != []
    case WriterOp(op) => (op.Evict? || op.Rotate? || op.Close? || op.Sync?) && Spool.Enabled(s.wal, op)
    case WriterWrite => s.writer.Some? && Spool.Enabled(s.wal, Spool.Write(s.writer.value))
    case WriterFail => s.writer.Some?
    case DrainCollect => s.drainer.Idle? && Spool.Enabled(s.wal, Spool.Collect)
    case DrainPeek => s.drainer.Idle? && Spool.Enabled(s.wal, Spool.Peek)
    case DrainSend => s.drainer.Holding?
    case DrainCommit => s.drainer.Committing? && Spool.Enabled(s.wal, Spool.Commit)
    case WorkerTake => s.hand.None? && s.retry != []
    case WorkerPost(_) => s.hand.Some?
  }

  function Apply(s: State, a: Act): State
    requires Can(s, a)
  {
    match a
    case Arrive =>
      var b := s.arrived;
      if |s.retry| < RETRY_QUEUE_CAPACITY then
        s.(arrived := b + 1, retry := s.retry + [b], direct := s.direct + [b], entered := s.entered + [b])
      else s.(arrived := b + 1, emitter := Spilling(b))
    case Spill(available) =>
      var b := s.emitter.batch;
      if available && |s.channel| < APPEND_CHANNEL_CAPACITY then s.(channel := s.channel + [b], emitter := Ready)
      else s.(emitter := LastResort(b))
    case DropOldest(locked) =>
      var b := s.emitter.batch;
      if locked then s.(droppedNew := s.droppedNew + [b], emitter := Ready)
      else if s.retry == [] then s.(emitter := Resending(b))
      else s.(retry := s.retry[1..], droppedOldest := s.droppedOldest + [s.retry[0]],
              exits := s.exits + [Dropped(s.retry[0])], emitter := Resending(b))
    case Resend =>
      var b := s.emitter.batch;
      if |s.retry| < RETRY_QUEUE_CAPACITY then
        s.(retry := s.retry + [b], direct := s.direct + [b], entered := s.entered + [b], emitter := Ready)
      else s.(droppedNew := s.droppedNew + [b], emitter := Ready)
    case WriterTake => s.(writer := Some(s.channel[0]), channel := s.channel[1..])
    case WriterOp(op) => s.(wal := Spool.Step(s.wal, op))
    case WriterWrite => s.(wal := Spool.Step(s.wal, Spool.Write(s.writer.value)), writer := None)
    case WriterFail => s.(appendLost := s.appendLost + [s.writer.value], writer := None)
    case DrainCollect => s.(wal := Spool.Step(s.wal, Spool.Collect))
    case DrainPeek =>
      s.(wal := Spool.Step(s.wal, Spool.Peek), drainer := Holding(s.wal.segs[0].entries[s.wal.read]))
    case DrainSend =>
      var e := s.drainer.entry;
      if |s.retry| < RETRY_QUEUE_CAPACITY then
        s.(retry := s.retry + [e.item], sent := s.sent + [e], entered := s.entered + [e.item], drainer := Committing(e))
      else s.(drainer := Idle)
    case DrainCommit => s.(wal := Spool.Step(s.wal, Spool.Commit), drainer := Idle)
    case WorkerTake =>
      s.(hand := Some(s.retry[0]), retry := s.retry[1..], exits := s.exits + [Taken(s.retry[0])])
    case WorkerPost(status) => Posted(s, OutcomeOf(status))
  }

  /** The worker keeps a batch in hand until it is accepted or rejected. */
  function Posted(s: State, outcome: Outcome): State
    requires s.hand.Some?
  {
    if outcome.Retryable? then s
    else if outcome.Success? then s.(acked := s.acked + [s.hand.value], hand := None)
    else s.(discarded := s.discarded + [s.hand.value], hand := None)
  }

  // ---- conservation -------------------------------------------------------

  function One(x: Batch, b: Batch): nat { if x == b then 1 else 0 }

  /** How often `b` occurs in `xs`. */
  function Count(xs: seq<Batch>, b: Batch): nat {
    if xs == [] then 0 else Count(xs[..|xs| - 1], b) + One(xs[|xs| - 1], b)
  }

  function Held(o: Option<Batch>, b: Batch): nat { if o.Some? then One(o.value, b) else 0 }

  function Routing(e: Emitter, b: Batch): nat { if e.Ready? then 0 else One(e.batch, b) }

  lemma CountSnoc(xs: seq<Batch>, x: Batch, b: Batch)
    ensures Count(xs + [x], b) == Count(xs, b) + One(x, b)
  {
    assert (xs + [x])[..|xs|] == xs;
  }

  lemma {:induction false} CountTail(xs: seq<Batch>, b: Batch)
    requires xs != []
    ensures Count(xs, b) == One(xs[0], b) + Count(xs[1..], b)
  {
    var n := |xs| - 1;
    if n == 0 {
    } else {
      CountTail(xs[..n], b);
      assert xs[1..][..n - 1] == xs[..n][1..];
    }
  }

  lemma {:induction false} CountIn(xs: seq<Batch>, b: Batch)
    ensures Count(xs, b) > 0 <==> b in xs
  {
    if xs == [] {
    } else {
      var n := |xs| - 1;
      CountIn(xs[..n], b);
      assert xs == xs[..n] + [xs[n]];
    }
  }

  function Batches(es: seq<Entry>): (bs: seq<Batch>)
    ensures |bs| == |es|
    ensures forall i | 0 <= i < |es| :: bs[i] == es[i].item
  {
    seq(|es|, i requires 0 <= i < |es| => es[i].item)
  }

  lemma BatchesSnoc(es: seq<Entry>, e: Entry, b: Batch)
    ensures Count(Batches(es + [e]), b) == Count(Batches(es), b) + One(e.item, b)
  {
    assert Batches(es + [e]) == Batches(es) + [e.item];
    CountSnoc(Batches(es), e.item, b);
  }

  /** How often `b` is found at the first place where arriving batches stay. */
  function Upstream(s: State, b: Batch): nat {
    Routing(s.emitter, b) + Count(s.channel, b) + Held(s.writer, b) + Count(s.direct, b) + Count(s.wal.log, b)
    + Count(s.appendLost, b) + Count(s.droppedNew, b)
  }

  /** How often `b` is found at the places that the retry queue leads to. */
  function Downstream(s: State, b: Batch): nat {
    Count(s.retry, b) + Held(s.hand, b) + Count(s.acked, b) + Count(s.discarded, b) + Count(s.droppedOldest, b)
  }

  /**
    Conservation of a batch: if it has arrived it is at exactly one place upstream,
    once, and it is downstream as often as it entered the retry queue.
   */
  ghost predicate Conserved(s: State, b: Batch) {
    && Upstream(s, b) == (if b < s.arrived then 1 else 0)
    && Downstream(s, b) == Count(s.direct, b) + Count(Batches(s.sent), b)
  }

  predicate Bounded(s: State) {
    |s.retry| <= RETRY_QUEUE_CAPACITY && |s.channel| <= APPEND_CHANNEL_CAPACITY
  }

  lemma ArriveConserves(s: State, b: Batch)
    requires Can(s, Arrive) && Conserved(s, b)
    ensures Conserved(Apply(s, Arrive), b)
  {
    var s' := Apply(s, Arrive);
    if |s.retry| < RETRY_QUEUE_CAPACITY {
      DirectUp(s, s', s.arrived, b);
      RetryDown(s, s', s.arrived, b);
      CountSnoc(s.direct, s.arrived, b);
    } else {
      assert Downstream(s', b) == Downstream(s, b);
    }
  }

  /** Only places in front of the retry queue changed, and there nothing was made or lost. */
  lemma MovedUpstream(s: State, s': State, b: Batch)
    requires Conserved(s, b)
    requires s' == s.(emitter := s'.emitter, channel := s'.channel, writer := s'.writer, wal := s'.wal,
                      appendLost := s'.appendLost, droppedNew := s'.droppedNew)
    requires Upstream(s', b) == Upstream(s, b)
    ensures Conserved(s', b)
  {
  }

  lemma SpillConserves(s: State, available: bool, b: Batch)
    requires Can(s, Spill(available)) && Conserved(s, b)
    ensures Conserved(Apply(s, Spill(available)), b)
  {
    CountSnoc(s.channel, s.emitter.batch, b);
    MovedUpstream(s, Apply(s, Spill(available)), b);
  }

  lemma DropOldestConserves(s: State, locked: bool, b: Batch)
    requires Can(s, DropOldest(locked)) && Conserved(s, b)
    ensures Conserved(Apply(s, DropOldest(locked)), b)
  {
    var s' := Apply(s, DropOldest(locked));
    if locked {
      CountSnoc(s.droppedNew, s.emitter.batch, b);
      MovedUpstream(s, s', b);
    } else if s.retry == [] {
      MovedUpstream(s, s', b);
    } else {
      MovedUpstream(s, s.(emitter := s'.emitter), b);
      ThrowConserves(s.(emitter := s'.emitter), s', b);
    }
  }

  lemma ThrowConserves(s: State, s': State, b: Batch)
    requires Conserved(s, b) && s.retry != []
    requires s' == s.(retry := s.retry[1..], droppedOldest := s.droppedOldest + [s.retry[0]],
                      exits := s.exits + [Dropped(s.retry[0])])
    ensures Conserved(s', b)
  {
    CountTail(s.retry, b);
    CountSnoc(s.droppedOldest, s.retry[0], b);
    MovedDownstream(s, s', b);
  }

  /** The emitter hands a batch to the retry queue. */
  lemma DirectUp(s: State, s': State, x: Batch, b: Batch)
    requires s'.direct == s.direct + [x] && s'.emitter.Ready? && s'.channel == s.channel && s'.writer == s.writer
    requires s'.wal == s.wal && s'.appendLost == s.appendLost && s'.droppedNew == s.droppedNew
    ensures Upstream(s', b) == Upstream(s, b) - Routing(s.emitter, b) + One(x, b)
  {
    CountSnoc(s.direct, x, b);
  }

  /** The retry queue gains a batch. */
  lemma RetryDown(s: State, s': State, x: Batch, b: Batch)
    requires s'.retry == s.retry + [x] && s'.hand == s.hand && s'.acked == s.acked
    requires s'.discarded == s.discarded && s'.droppedOldest == s.droppedOldest
    ensures Downstream(s', b) == Downstream(s, b) + One(x, b)
  {
    CountSnoc(s.retry, x, b);
  }

  lemma ResendConserves(s: State, b: Batch)
    requires Can(s, Resend) && Conserved(s, b)
    ensures Conserved(Apply(s, Resend), b)
  {
    var x, s' := s.emitter.batch, Apply(s, Resend);
    if |s.retry| < RETRY_QUEUE_CAPACITY {
      DirectUp(s, s', x, b);
      RetryDown(s, s', x, b);
      CountSnoc(s.direct, x, b);
    } else {
      CountSnoc(s.droppedNew, x, b);
    }
  }

  lemma WriterConserves(s: State, a: Act, b: Batch)
    requires Can(s, a) && Conserved(s, b) && (a.WriterTake? || a.WriterWrite? || a.WriterFail?)
    ensures Conserved(Apply(s, a), b)
  {
    if a.WriterTake? {
      CountTail(s.channel, b);
    } else if a.WriterWrite? {
      CountSnoc(s.wal.log, s.writer.value, b);
    } else {
      CountSnoc(s.appendLost, s.writer.value, b);
    }
    MovedUpstream(s, Apply(s, a), b);
  }

  lemma SendConserves(s: State, b: Batch)
    requires Can(s, DrainSend) && Conserved(s, b)
    ensures Conserved(Apply(s, DrainSend), b)
  {
    if |s.retry| < RETRY_QUEUE_CAPACITY {
      RetryDown(s, Apply(s, DrainSend), s.drainer.entry.item, b);
      BatchesSnoc(s.sent, s.drainer.entry, b);
    }
  }

  /** The steps that touch neither the queues nor the history of the log. */
  predicate Silent(a: Act) {
    a.WriterOp? || a.DrainCollect? || a.DrainPeek? || a.DrainCommit?
  }

  lemma SilentConserves(s: State, a: Act, b: Batch)
    requires Can(s, a) && Conserved(s, b) && Silent(a)
    ensures Conserved(Apply(s, a), b)
  {
    var s' := Apply(s, a);
    assert s'.wal.log == s.wal.log;
    assert s' == s.(wal := s'.wal, drainer := s'.drainer);
  }

  /** Only the retry queue's side changed, and there nothing was made or lost. */
  lemma MovedDownstream(s: State, s': State, b: Batch)
    requires Conserved(s, b)
    requires s' == s.(retry := s'.retry, hand := s'.hand, acked := s'.acked, discarded := s'.discarded,
                      droppedOldest := s'.droppedOldest, exits := s'.exits)
    requires Downstream(s', b) == Downstream(s, b)
    ensures Conserved(s', b)
  {
  }

  lemma TakeConserves(s: State, b: Batch)
    requires Can(s, WorkerTake) && Conserved(s, b)
    ensures Conserved(Apply(s, WorkerTake), b)
  {
    CountTail(s.retry, b);
    MovedDownstream(s, Apply(s, WorkerTake), b);
  }

  lemma PostConserves(s: State, outcome: Outcome, b: Batch)
    requires s.hand.Some? && Conserved(s, b)
    ensures Conserved(Posted(s, outcome), b)
  {
    if outcome.Success? {
      CountSnoc(s.acked, s.hand.value, b);
      MovedDownstream(s, Posted(s, outcome), b);
    } else if outcome.NonRetryable? {
      CountSnoc(s.discarded, s.hand.value, b);
      MovedDownstream(s, Posted(s, outcome), b);
    }
  }

  /** Every step moves each batch from one place to another and neither makes nor loses one. */
  lemma KeepsConserved(s: State, a: Act, b: Batch)
    requires Can(s, a) && Conserved(s, b)
    ensures Conserved(Apply(s, a), b)
  {
    match a
    case Arrive => ArriveConserves(s, b);
    case Spill(available) => SpillConserves(s, available, b);
    case DropOldest(locked) => DropOldestConserves(s, locked, b);
    case Resend => ResendConserves(s, b);
    case DrainSend => SendConserves(s, b);
    case WorkerTake => TakeConserves(s, b);
    case WorkerPost(status) => PostConserves(s, OutcomeOf(status), b);
    case _ =>
      if Silent(a) {
        SilentConserves(s, a, b);
      } else {
        WriterConserves(s, a, b);
      }
  }

  // ---- the drainer against the log ----------------------------------------

  /** The entries handed to the retry queue, then those that are or may still be, in the order of handing. */
  ghost function Course(s: State): seq<Entry> {
    var queue := Spool.Backlog(s.wal);
    match s.drainer
    case Idle => s.sent + queue
    case Holding(e) => s.sent + (if s.wal.peeked then queue else [e] + queue)
    case Committing(_) => (if s.wal.peeked && s.sent != [] then s.sent[..|s.sent| - 1] else s.sent) + queue
  }

  /** The drainer knows which entry it is at, and never goes back. */
  ghost predicate InOrder(s: State) {
    && Spool.Tagged(s.wal.log, Course(s))
    && (s.drainer.Holding? ==> Spool.PendingOn(s.wal, s.drainer.entry))
    && (s.drainer.Committing? ==>
          s.sent != [] && s.sent[|s.sent| - 1] == s.drainer.entry && Spool.PendingOn(s.wal, s.drainer.entry))
    && (forall e | e in s.wal.committed :: e in s.sent)
  }

  lemma TaggedWithout(log: seq<Batch>, a: seq<Entry>, gone: seq<Entry>, b: seq<Entry>)
    requires Spool.Tagged(log, a + (gone + b))
    ensures Spool.Tagged(log, a + b)
  {
    Spool.AscendingWithout(a, gone, b);
    assert forall e | e in a + b :: e in a + (gone + b);
  }

  /** Removing the queue's front but for its first entry. */
  lemma TaggedButHead(log: seq<Batch>, a: seq<Entry>, gone: seq<Entry>, b: seq<Entry>, e: Entry)
    requires Spool.Tagged(log, a + (gone + b)) && gone != [] && gone[0] == e
    ensures Spool.Tagged(log, (a + [e]) + b)
  {
    assert a + (gone + b) == (a + [e]) + (gone[1..] + b);
    TaggedWithout(log, a + [e], gone[1..], b);
  }

  /** What the drainer had handed on before the entry it is at. */
  ghost function HandedBefore(s: State): seq<Entry> {
    if s.drainer.Committing? && s.sent != [] then s.sent[..|s.sent| - 1] else s.sent
  }

  lemma PendingCourse(s: State)
    requires InOrder(s) && !s.drainer.Idle?
    ensures s.wal.peeked ==> Course(s) == HandedBefore(s) + Spool.Backlog(s.wal)
    ensures !s.wal.peeked ==> Course(s) == (HandedBefore(s) + [s.drainer.entry]) + Spool.Backlog(s.wal)
  {
  }

  lemma EvictedCourse(s: State)
    requires InOrder(s) && Can(s, WriterOp(Spool.Evict)) && !s.drainer.Idle?
    ensures var s' := Apply(s, WriterOp(Spool.Evict));
            Course(s') == (HandedBefore(s) + [s.drainer.entry]) + Spool.Backlog(s'.wal)
  {
    var left := Spool.Backlog(Apply(s, WriterOp(Spool.Evict)).wal);
    if s.drainer.Holding? {
      assert (s.sent + [s.drainer.entry]) + left == s.sent + ([s.drainer.entry] + left);
    } else {
      assert HandedBefore(s) + [s.drainer.entry] == s.sent;
    }
  }

  lemma EvictedWhilePending(s: State)
    requires Spool.Inv(s.wal) && InOrder(s) && Can(s, WriterOp(Spool.Evict)) && !s.drainer.Idle? && s.wal.peeked
    ensures Spool.Tagged(s.wal.log, Course(Apply(s, WriterOp(Spool.Evict))))
  {
    PendingCourse(s);
    EvictedCourse(s);
    Spool.EvictQueue(s.wal);
    Spool.FrontQueue(s.wal);
    TaggedButHead(s.wal.log, HandedBefore(s), Spool.Drop(s.wal.segs[0].entries, s.wal.read),
                  Spool.Backlog(Spool.Step(s.wal, Spool.Evict)), s.drainer.entry);
  }

  /** What was handed on, and the entry in hand. */
  ghost function Passed(s: State): seq<Entry> {
    if s.drainer.Holding? then s.sent + [s.drainer.entry] else s.sent
  }

  lemma LostCourse(s: State)
    requires s.drainer.Idle? || !s.wal.peeked
    ensures Course(s) == Passed(s) + Spool.Backlog(s.wal)
  {
  }

  lemma EvictedWhileLost(s: State)
    requires Spool.Inv(s.wal) && InOrder(s) && Can(s, WriterOp(Spool.Evict)) && (s.drainer.Idle? || !s.wal.peeked)
    ensures Spool.Tagged(s.wal.log, Course(Apply(s, WriterOp(Spool.Evict))))
  {
    var s' := Apply(s, WriterOp(Spool.Evict));
    LostCourse(s);
    LostCourse(s');
    Spool.EvictQueue(s.wal);
    TaggedWithout(s.wal.log, Passed(s), Spool.Drop(s.wal.segs[0].entries, s.wal.read), Spool.Backlog(s'.wal));
  }

  /** An eviction may take the entry the drainer is at; that entry then stays in the course on its own. */
  lemma EvictInOrder(s: State)
    requires Spool.Inv(s.wal) && InOrder(s) && Can(s, WriterOp(Spool.Evict))
    ensures InOrder(Apply(s, WriterOp(Spool.Evict)))
  {
    if s.drainer.Idle? || !s.wal.peeked {
      EvictedWhileLost(s);
    } else {
      EvictedWhilePending(s);
    }
    if !s.drainer.Idle? {
      Spool.PendingStep(s.wal, s.drainer.entry, Spool.Evict);
    }
  }

  lemma WriteInOrder(s: State)
    requires Spool.Inv(s.wal) && InOrder(s) && Can(s, WriterWrite)
    ensures InOrder(Apply(s, WriterWrite))
  {
    var s', b := Apply(s, WriterWrite), s.writer.value;
    Spool.WriteQueue(s.wal, b);
    Spool.TaggedExtend(s.wal.log, Course(s), [b]);
    assert Spool.Fresh(|s.wal.log|, [b]) == [Spool.Entry(|s.wal.log|, b)];
    assert Course(s') == Course(s) + [Spool.Entry(|s.wal.log|, b)];
    if !s.drainer.Idle? {
      Spool.PendingStep(s.wal, s.drainer.entry, Spool.Write(b));
    }
  }

  /** Steps that the queue of the log does not see. */
  lemma InvisibleInOrder(s: State, a: Act)
    requires Spool.Inv(s.wal) && InOrder(s) && Can(s, a)
    requires (a.WriterOp? && Spool.Invisible(a.op)) || a.DrainCollect?
    ensures InOrder(Apply(s, a))
  {
    var op := if a.WriterOp? then a.op else Spool.Collect;
    Spool.InvisibleStep(s.wal, op);
    if !s.drainer.Idle? {
      Spool.PendingStep(s.wal, s.drainer.entry, op);
    }
  }

  lemma PeekInOrder(s: State)
    requires Spool.Inv(s.wal) && InOrder(s) && Can(s, DrainPeek)
    ensures InOrder(Apply(s, DrainPeek))
  {
    Spool.InvisibleStep(s.wal, Spool.Peek);
    Spool.FrontQueue(s.wal);
  }

  lemma SendInOrder(s: State)
    requires Spool.Inv(s.wal) && InOrder(s) && Can(s, DrainSend)
    ensures InOrder(Apply(s, DrainSend))
  {
    var s', e, queue := Apply(s, DrainSend), s.drainer.entry, Spool.Backlog(s.wal);
    if s'.drainer.Committing? {
      NextMoves(s.sent, e, queue);
    } else if !s.wal.peeked {
      TaggedWithout(s.wal.log, s.sent, [e], queue);
    }
  }

  lemma CommitInOrder(s: State)
    requires Spool.Inv(s.wal) && InOrder(s) && Can(s, DrainCommit)
    ensures InOrder(Apply(s, DrainCommit))
  {
    var s', e := Apply(s, DrainCommit), s.drainer.entry;
    if s.wal.peeked {
      Spool.CommitQueue(s.wal);
      Spool.FrontQueue(s.wal);
      LastMoves(s.sent, e, Spool.Backlog(s'.wal));
    }
  }

  lemma NextMoves(xs: seq<Entry>, e: Entry, ys: seq<Entry>)
    ensures (xs + [e])[..|xs|] == xs && xs + ([e] + ys) == (xs + [e]) + ys
  {
  }

  lemma LastMoves(xs: seq<Entry>, e: Entry, ys: seq<Entry>)
    requires xs != [] && xs[|xs| - 1] == e
    ensures xs[..|xs| - 1] + ([e] + ys) == xs + ys
  {
  }

  lemma KeepsInOrder(s: State, a: Act)
    requires Spool.Inv(s.wal) && InOrder(s) && Can(s, a)
    ensures InOrder(Apply(s, a))
  {
    match a
    case WriterOp(op) => if op.Evict? { EvictInOrder(s); } else { InvisibleInOrder(s, a); }
    case DrainCollect => InvisibleInOrder(s, a);
    case WriterWrite => WriteInOrder(s);
    case DrainPeek => PeekInOrder(s);
    case DrainSend => SendInOrder(s);
    case DrainCommit => CommitInOrder(s);
    case _ =>
      var s' := Apply(s, a);
      assert s'.wal == s.wal && s'.drainer == s.drainer && s'.sent == s.sent;
  }

  // ---- first in, first out --------------------------------------------------

  function ExitBatches(xs: seq<Exit>): (bs: seq<Batch>)
    ensures |bs| == |xs|
    ensures forall i | 0 <= i < |xs| :: bs[i] == xs[i].batch
  {
    seq(|xs|, i requires 0 <= i < |xs| => xs[i].batch)
  }

  /** Those that went to the worker, and those that were thrown away. */
  function TakenBy(xs: seq<Exit>): seq<Batch> {
    if xs == [] then []
    else TakenBy(xs[..|xs| - 1]) + var x := xs[|xs| - 1]; if x.Taken? then [x.batch] else []
  }

  function DroppedBy(xs: seq<Exit>): seq<Batch> {
    if xs == [] then []
    else DroppedBy(xs[..|xs| - 1]) + var x := xs[|xs| - 1]; if x.Dropped? then [x.batch] else []
  }

  /** `xs` is `a` and `b` merged, each in its own order. */
  ghost predicate Shuffle(xs: seq<Batch>, a: seq<Batch>, b: seq<Batch>)
    decreases |xs|
  {
    if xs == [] then a == [] && b == []
    else
      var n, x := |xs| - 1, xs[|xs| - 1];
      || (a != [] && a[|a| - 1] == x && Shuffle(xs[..n], a[..|a| - 1], b))
      || (b != [] && b[|b| - 1] == x && Shuffle(xs[..n], a, b[..|b| - 1]))
  }

  lemma ShuffleSnoc(xs: seq<Batch>, a: seq<Batch>, b: seq<Batch>, x: Batch)
    requires Shuffle(xs, a, b)
    ensures Shuffle(xs + [x], a + [x], b) && Shuffle(xs + [x], a, b + [x])
  {
    assert (xs + [x])[..|xs|] == xs && (a + [x])[..|a|] == a && (b + [x])[..|b|] == b;
  }

  lemma ExitSnoc(xs: seq<Exit>, x: Exit)
    ensures ExitBatches(xs + [x]) == ExitBatches(xs) + [x.batch]
    ensures TakenBy(xs + [x]) == TakenBy(xs) + (if x.Taken? then [x.batch] else [])
    ensures DroppedBy(xs + [x]) == DroppedBy(xs) + (if x.Dropped? then [x.batch] else [])
  {
    assert (xs + [x])[..|xs|] == xs;
  }

  function Hold(o: Option<Batch>): seq<Batch> { if o.Some? then [o.value] else [] }

  /** What entered is what left, in the order of entering, and then what is still queued. */
  ghost predicate QueueOrder(entered: seq<Batch>, exits: seq<Exit>, retry: seq<Batch>) {
    (entered == ExitBatches(exits) + retry) == true
  }

  /** What entered came from the emitter and from the log, each in its order. */
  ghost predicate EntryOrder(entered: seq<Batch>, direct: seq<Batch>, sent: seq<Entry>) {
    Shuffle(entered, direct, Batches(sent)) == true
  }

  /** What the worker took is what it has acknowledged or rejected, each in its order, and then its hand. */
  ghost predicate WorkOrder(taken: seq<Batch>, hand: Option<Batch>, acked: seq<Batch>, discarded: seq<Batch>) {
    (exists done :: taken == done + Hold(hand) && Shuffle(done, acked, discarded)) == true
  }

  /**
    The retry queue is first in, first out: whatever left it, to the worker or thrown
    away, left in the order of entering.
   */
  ghost predicate FirstInFirstOut(s: State) {
    && QueueOrder(s.entered, s.exits, s.retry) && EntryOrder(s.entered, s.direct, s.sent)
    && DroppedBy(s.exits) == s.droppedOldest
    && WorkOrder(TakenBy(s.exits), s.hand, s.acked, s.discarded)
  }

  lemma OneEnters(entered: seq<Batch>, exits: seq<Exit>, retry: seq<Batch>, b: Batch)
    requires QueueOrder(entered, exits, retry)
    ensures QueueOrder(entered + [b], exits, retry + [b])
  {
  }

  lemma OneLeaves(entered: seq<Batch>, exits: seq<Exit>, retry: seq<Batch>, x: Exit)
    requires QueueOrder(entered, exits, retry) && retry != [] && x.batch == retry[0]
    ensures QueueOrder(entered, exits + [x], retry[1..])
  {
    ExitSnoc(exits, x);
  }

  lemma OneDirect(entered: seq<Batch>, direct: seq<Batch>, sent: seq<Entry>, b: Batch)
    requires EntryOrder(entered, direct, sent)
    ensures EntryOrder(entered + [b], direct + [b], sent)
  {
    ShuffleSnoc(entered, direct, Batches(sent), b);
  }

  lemma OneSent(entered: seq<Batch>, direct: seq<Batch>, sent: seq<Entry>, e: Entry)
    requires EntryOrder(entered, direct, sent)
    ensures EntryOrder(entered + [e.item], direct, sent + [e])
  {
    ShuffleSnoc(entered, direct, Batches(sent), e.item);
    assert Batches(sent + [e]) == Batches(sent) + [e.item];
  }

  lemma OneTaken(taken: seq<Batch>, acked: seq<Batch>, discarded: seq<Batch>, b: Batch)
    requires WorkOrder(taken, None, acked, discarded)
    ensures WorkOrder(taken + [b], Some(b), acked, discarded)
  {
    var done :| taken == done + Hold(None) && Shuffle(done, acked, discarded);
    assert taken + [b] == done + Hold(Some(b));
  }

  lemma OneAnswered(taken: seq<Batch>, b: Batch, acked: seq<Batch>, discarded: seq<Batch>)
    requires WorkOrder(taken, Some(b), acked, discarded)
    ensures WorkOrder(taken, None, acked + [b], discarded) && WorkOrder(taken, None, acked, discarded + [b])
  {
    var done :| taken == done + Hold(Some(b)) && Shuffle(done, acked, discarded);
    ShuffleSnoc(done, acked, discarded, b);
    assert taken == done + [b] + Hold(None);
  }

  /** Batch `b` enters the retry queue at the back. */
  lemma DirectInOrder(s: State, s': State, b: Batch)
    requires FirstInFirstOut(s)
    requires s' == s.(arrived := s'.arrived, emitter := s'.emitter, retry := s.retry + [b], direct := s.direct + [b],
                      entered := s.entered + [b])
    ensures FirstInFirstOut(s')
  {
    OneEnters(s.entered, s.exits, s.retry, b);
    OneDirect(s.entered, s.direct, s.sent, b);
  }

  lemma SentQueued(s: State, s': State, e: Entry)
    requires FirstInFirstOut(s)
    requires s' == s.(drainer := s'.drainer, retry := s.retry + [e.item], sent := s.sent + [e],
                      entered := s.entered + [e.item])
    ensures FirstInFirstOut(s')
  {
    OneEnters(s.entered, s.exits, s.retry, e.item);
    OneSent(s.entered, s.direct, s.sent, e);
  }

  lemma DropInOrder(s: State, s': State)
    requires FirstInFirstOut(s) && s.retry != []
    requires s' == s.(emitter := s'.emitter, retry := s.retry[1..], exits := s.exits + [Dropped(s.retry[0])],
                      droppedOldest := s.droppedOldest + [s.retry[0]])
    ensures FirstInFirstOut(s')
  {
    OneLeaves(s.entered, s.exits, s.retry, Dropped(s.retry[0]));
    ExitSnoc(s.exits, Dropped(s.retry[0]));
    assert TakenBy(s.exits) + [] == TakenBy(s.exits);
  }

  lemma TakeInOrder(s: State)
    requires FirstInFirstOut(s) && Can(s, WorkerTake)
    ensures FirstInFirstOut(Apply(s, WorkerTake))
  {
    OneLeaves(s.entered, s.exits, s.retry, Taken(s.retry[0]));
    ExitSnoc(s.exits, Taken(s.retry[0]));
    assert DroppedBy(s.exits) + [] == DroppedBy(s.exits);
    OneTaken(TakenBy(s.exits), s.acked, s.discarded, s.retry[0]);
  }

  lemma PostInOrder(s: State, outcome: Outcome)
    requires FirstInFirstOut(s) && s.hand.Some?
    ensures FirstInFirstOut(Posted(s, outcome))
  {
    OneAnswered(TakenBy(s.exits), s.hand.value, s.acked, s.discarded);
  }

  lemma KeepsFirstInFirstOut(s: State, a: Act)
    requires FirstInFirstOut(s) && Can(s, a)
    ensures FirstInFirstOut(Apply(s, a))
  {
    var s' := Apply(s, a);
    match a
    case Arrive => if s'.emitter.Ready? { DirectInOrder(s, s', s.arrived); }
    case Resend => if s'.retry != s.retry { DirectInOrder(s, s', s.emitter.batch); }
    case DrainSend => if s'.drainer.Committing? { SentQueued(s, s', s.drainer.entry); }
    case DropOldest(locked) => if !locked && s.retry != [] { DropInOrder(s, s'); }
    case WorkerTake => TakeInOrder(s);
    case WorkerPost(status) => PostInOrder(s, OutcomeOf(status));
    case _ =>
  }

  // ---- the order of arrival -------------------------------------------------

  predicate LessAt(bs: seq<Batch>, i: nat, j: nat)
    requires i < |bs| && j < |bs|
  {
    bs[i] < bs[j]
  }

  ghost predicate Rises(bs: seq<Batch>) {
    forall i, j | 0 <= i < j < |bs| :: LessAt(bs, i, j)
  }

  /** Earlier arrivals come first, and all of them before number `n`. */
  ghost predicate RisesTo(bs: seq<Batch>, n: nat) {
    Rises(bs) && forall b | b in bs :: b < n
  }

  lemma RisesSnoc(bs: seq<Batch>, n: nat, b: Batch, m: nat)
    requires RisesTo(bs, n) && n <= b < m
    ensures RisesTo(bs + [b], m)
  {
    forall i, j | 0 <= i < j < |bs + [b]| ensures LessAt(bs + [b], i, j) {
      if j < |bs| {
        assert LessAt(bs, i, j);
      } else {
        assert bs[i] in bs;
      }
    }
  }

  /** The batches that the emitter is done with have lower numbers than this. */
  function Routed(s: State): nat {
    if s.emitter.Ready? then s.arrived else s.emitter.batch
  }

  /** All that entered the append channel, as far as it was not lost: the log, the writer's hand and the channel. */
  function Spilled(s: State): seq<Batch> { s.wal.log + Hold(s.writer) + s.channel }

  /** The log and what is on its way there are in the order of arrival, and so is what took the direct way. */
  ghost predicate ArrivalOrder(s: State) {
    && (!s.emitter.Ready? ==> s.arrived == s.emitter.batch + 1)
    && RisesTo(Spilled(s), Routed(s)) && RisesTo(s.direct, Routed(s))
  }

  lemma RisesWithout(a: seq<Batch>, b: Batch, c: seq<Batch>, n: nat)
    requires RisesTo(a + [b] + c, n)
    ensures RisesTo(a + [] + c, n)
  {
    var long, short := a + [b] + c, a + [] + c;
    forall i, j | 0 <= i < j < |short| ensures LessAt(short, i, j) {
      assert LessAt(long, if i < |a| then i else i + 1, if j < |a| then j else j + 1);
    }
    assert forall x | x in short :: x in long;
  }

  lemma SpilledSnoc(a: seq<Batch>, channel: seq<Batch>, b: Batch)
    ensures a + (channel + [b]) == (a + channel) + [b]
  {
  }

  lemma FirstOfChannel(log: seq<Batch>, channel: seq<Batch>)
    requires channel != []
    ensures log + [channel[0]] + channel[1..] == log + [] + channel
  {
  }

  lemma KeepsArrivalOrder(s: State, a: Act)
    requires ArrivalOrder(s) && Can(s, a)
    ensures ArrivalOrder(Apply(s, a))
  {
    var s' := Apply(s, a);
    match a
    case Arrive =>
      RisesSnoc(s.direct, s.arrived, s.arrived, s.arrived + 1);
    case Spill(_) =>
      RisesSnoc(Spilled(s), Routed(s), s.emitter.batch, s.arrived);
      SpilledSnoc(s.wal.log + Hold(s.writer), s.channel, s.emitter.batch);
    case Resend =>
      RisesSnoc(s.direct, Routed(s), s.emitter.batch, s.arrived);
    case WriterTake =>
      FirstOfChannel(s.wal.log, s.channel);
    case WriterWrite =>
      assert s'.wal.log + Hold(s'.writer) == s.wal.log + Hold(s.writer);
    case WriterFail =>
      RisesWithout(s.wal.log, s.writer.value, s.channel, Routed(s));
    case _ =>
      assert s'.wal.log == s.wal.log;
  }

  // ---- why a batch goes where it goes ---------------------------------------

  /** Every turn a batch can take away from the direct way, with its exact reason. */
  lemma RoutedBecause(s: State, a: Act)
    requires Bounded(s) && Can(s, a)
    ensures var s' := Apply(s, a);
            && (s'.emitter.Spilling? && !s.emitter.Spilling? <==> a.Arrive? && |s.retry| == 60)
            && (s'.emitter.LastResort? && !s.emitter.LastResort? <==>
                a.Spill? && (!a.available || |s.channel| == 256))
            && (s'.droppedNew != s.droppedNew <==> a == DropOldest(true) || (a.Resend? && |s.retry| == 60))
            && (s'.droppedOldest != s.droppedOldest <==> a == DropOldest(false) && s.retry != [])
            && (s'.appendLost != s.appendLost <==> a.WriterFail?)
            && (s'.sent != s.sent <==> a.DrainSend? && |s.retry| < 60)
            && (s'.acked != s.acked <==> a.WorkerPost? && a.status.Some? && 200 <= a.status.value <= 299)
            && (s'.discarded != s.discarded <==>
                && a.WorkerPost? && a.status.Some? && !(200 <= a.status.value <= 299)
                && a.status.value != 429 && !(500 <= a.status.value <= 599))
  {
  }

  /** What the worker takes, and what is thrown away, is the earliest batch that entered and has not left. */
  lemma EarliestLeaves(s: State, a: Act)
    requires FirstInFirstOut(s) && Can(s, a) && s.retry != [] && (a.WorkerTake? || a == DropOldest(false))
    ensures |s.exits| < |s.entered|
    ensures a.WorkerTake? ==> Apply(s, a).hand == Some(s.entered[|s.exits|])
    ensures a.DropOldest? ==> Apply(s, a).droppedOldest == s.droppedOldest + [s.entered[|s.exits|]]
  {
    assert s.entered[|s.exits|] == s.retry[0];
  }

  // ---- every run ----------------------------------------------------------

  ghost predicate Inv(s: State) {
    && Bounded(s) && FirstInFirstOut(s) && ArrivalOrder(s)
    && Spool.Inv(s.wal) && Spool.Delivery(s.wal)
    && (forall b :: Conserved(s, b))
    && InOrder(s)
  }

  lemma KeepsWal(s: State, a: Act)
    requires Spool.Inv(s.wal) && Spool.Delivery(s.wal) && Can(s, a)
    ensures Spool.Inv(Apply(s, a).wal) && Spool.Delivery(Apply(s, a).wal)
  {
    match a
    case WriterOp(op) => WalStep(s.wal, op);
    case WriterWrite => WalStep(s.wal, Spool.Write(s.writer.value));
    case DrainCollect => WalStep(s.wal, Spool.Collect);
    case DrainPeek => WalStep(s.wal, Spool.Peek);
    case DrainCommit => WalStep(s.wal, Spool.Commit);
    case _ =>
  }

  lemma WalStep(wal: Spool.State<Batch>, op: Spool.Op<Batch>)
    requires Spool.Inv(wal) && Spool.Delivery(wal) && Spool.Enabled(wal, op) && !op.Crash?
    ensures Spool.Inv(Spool.Step(wal, op)) && Spool.Delivery(Spool.Step(wal, op))
  {
    Spool.StepKeepsInv(wal, op);
    Spool.StepKeepsDelivery(wal, op);
  }

  lemma KeepsBounded(s: State, a: Act)
    requires Bounded(s) && Can(s, a)
    ensures Bounded(Apply(s, a))
  {
  }

  lemma StepKeepsInv(s: State, a: Act)
    requires Inv(s) && Can(s, a)
    ensures Inv(Apply(s, a))
  {
    KeepsBounded(s, a);
    KeepsFirstInFirstOut(s, a);
    KeepsArrivalOrder(s, a);
    KeepsWal(s, a);
    KeepsInOrder(s, a);
    forall b ensures Conserved(Apply(s, a), b) {
      KeepsConserved(s, a, b);
    }
  }

  predicate Legal(s: State, acts: seq<Act>)
    decreases |acts|
  {
    acts == [] || (Can(s, acts[0]) && Legal(Apply(s, acts[0]), acts[1..]))
  }

  function Run(s: State, acts: seq<Act>): State
    requires Legal(s, acts)
    decreases |acts|
  {
    if acts == [] then s else Run(Apply(s, acts[0]), acts[1..])
  }

  lemma {:induction false} RunKeepsInv(s: State, acts: seq<Act>)
    requires Inv(s) && Legal(s, acts)
    ensures Inv(Run(s, acts))
    decreases |acts|
  {
    if acts == [] {
    } else {
      StepKeepsInv(s, acts[0]);
      RunKeepsInv(Apply(s, acts[0]), acts[1..]);
    }
  }

  /** A log as recovery leaves it: everything in it is still to be delivered. */
  ghost predicate Undelivered(wal: Spool.State<Batch>) {
    && Spool.Inv(wal) && Spool.Delivery(wal)
    && wal.committed == [] && wal.evicted == [] && wal.read == 0 && !wal.peeked
    && wal.log == seq(|wal.log|, i => i)
  }

  lemma GrowsUndelivered(wal: Spool.State<Batch>, op: Spool.Op<Batch>)
    requires Undelivered(wal) && Spool.Enabled(wal, op)
    requires op.Rotate? || op.Close? || op.Sync? || op == Spool.Write(|wal.log|)
    ensures Undelivered(Spool.Step(wal, op))
  {
    WalStep(wal, op);
  }

  /** There are such logs of every length. */
  lemma {:induction false} SomeUndelivered(n: nat) returns (wal: Spool.State<Batch>)
    ensures Undelivered(wal) && |Spool.Backlog(wal)| == |wal.log| == n && wal.open && wal.segs != []
  {
    if n == 0 {
      Spool.InitialInv<Batch>();
      var empty := Spool.Initial<Batch>();
      assert Undelivered(empty);
      GrowsUndelivered(empty, Spool.Rotate(0));
      Spool.RotateQueue(empty, 0);
      wal := Spool.Step(empty, Spool.Rotate(0));
    } else {
      var less := SomeUndelivered(n - 1);
      GrowsUndelivered(less, Spool.Write(|less.log|));
      Spool.WriteQueue(less, |less.log|);
      wal := Spool.Step(less, Spool.Write(|less.log|));
    }
  }

  lemma {:induction false} CountNumbered(n: nat, b: Batch)
    ensures Count(seq(n, i => i), b) == if b < n then 1 else 0
  {
    if n == 0 {
    } else {
      CountNumbered(n - 1, b);
      assert seq(n, i => i)[..n - 1] == seq(n - 1, i => i);
    }
  }

  lemma StartInOrder(wal: Spool.State<Batch>)
    requires Undelivered(wal)
    ensures FirstInFirstOut(Start(wal)) && ArrivalOrder(Start(wal))
  {
    assert Spilled(Start(wal)) == wal.log;
    assert Batches([]) == [];
    assert [] == [] + Hold(None) && Shuffle([], [], []);
  }

  lemma StartInv(wal: Spool.State<Batch>)
    requires Undelivered(wal)
    ensures Inv(Start(wal))
  {
    assert Batches([]) == [];
    assert Course(Start(wal)) == Spool.Backlog(wal) == Spool.Flatten(wal.segs);
    StartInOrder(wal);
    forall b ensures Conserved(Start(wal), b) {
      CountNumbered(|wal.log|, b);
    }
  }

  // ---- what follows for a batch -------------------------------------------

  /** Every place a batch can be at, or the named way it was lost. */
  ghost predicate Located(s: State, b: Batch) {
    || (!s.emitter.Ready? && s.emitter.batch == b)
    || b in s.retry || s.hand == Some(b) || b in s.channel || s.writer == Some(b)
    || b in Batches(Spool.Backlog(s.wal))
    || b in s.acked || b in s.discarded
    || b in Batches(s.wal.evicted) || b in s.appendLost || b in s.droppedOldest || b in s.droppedNew
  }

  lemma DownstreamLocated(s: State, b: Batch)
    requires Downstream(s, b) > 0
    ensures Located(s, b)
  {
    CountIn(s.retry, b);
    CountIn(s.acked, b);
    CountIn(s.discarded, b);
    CountIn(s.droppedOldest, b);
  }

  /** A batch in the log's history was handed on, evicted, or is still queued. */
  lemma LoggedLocated(s: State, b: Batch)
    requires Inv(s) && b in s.wal.log
    ensures Located(s, b)
  {
    var t :| 0 <= t < |s.wal.log| && s.wal.log[t] == b;
    assert Spool.Accounted(s.wal, t);
    var e := Spool.Entry(t, b);
    if e in s.wal.committed {
      assert e in s.sent;
      SentIsDownstream(s, e);
      DownstreamLocated(s, b);
    } else if e in s.wal.evicted {
      var i :| 0 <= i < |s.wal.evicted| && s.wal.evicted[i] == e;
      assert Batches(s.wal.evicted)[i] == b;
    } else {
      var queue := Spool.Backlog(s.wal);
      var i :| 0 <= i < |queue| && queue[i] == e;
      assert Batches(queue)[i] == b;
    }
  }

  lemma SentIsDownstream(s: State, e: Entry)
    requires Conserved(s, e.item) && e in s.sent
    ensures Downstream(s, e.item) > 0
  {
    var i :| 0 <= i < |s.sent| && s.sent[i] == e;
    assert Batches(s.sent)[i] == e.item;
    CountIn(Batches(s.sent), e.item);
  }

  /**
    Pipeline conservation over every run, whatever backlog it starts with: each batch
    that arrived, or was found in the log, is in the
    emitter's or writer's or worker's hand, the retry queue, the append channel or
    the log's queue, or was acknowledged or rejected, or was lost at a named site;
    and the queues never exceed their capacities.
   */
  lemma EveryBatchIsLocated(wal: Spool.State<Batch>, acts: seq<Act>, b: Batch)
    requires Undelivered(wal) && Legal(Start(wal), acts) && b < Run(Start(wal), acts).arrived
    ensures Located(Run(Start(wal), acts), b) && Bounded(Run(Start(wal), acts))
  {
    StartInv(wal);
    RunKeepsInv(Start(wal), acts);
    var s := Run(Start(wal), acts);
    assert Conserved(s, b);
    CountIn(s.channel, b);
    CountIn(s.appendLost, b);
    CountIn(s.droppedNew, b);
    CountIn(s.wal.log, b);
    if Count(s.wal.log, b) > 0 {
      LoggedLocated(s, b);
    } else if Count(s.direct, b) > 0 {
      DownstreamLocated(s, b);
    }
  }

  /** A part of a history in order holds no element more often than the history. */
  lemma {:induction false} PartCounts(log: seq<Batch>, es: seq<Entry>, b: Batch)
    requires Spool.Tagged(log, es)
    ensures Count(Batches(es), b) <= Count(log, b)
    decreases |es|
  {
    if es == [] {
    } else {
      var n := |es| - 1;
      var t := es[n].tag;
      Spool.TaggedButLast(log, es);
      PartCounts(log[..t], es[..n], b);
      assert es == es[..n] + [es[n]];
      BatchesSnoc(es[..n], es[n], b);
      CountPrefix(log, t + 1, b);
      assert log[..t + 1] == log[..t] + [log[t]];
      CountSnoc(log[..t], log[t], b);
    }
  }

  lemma {:induction false} CountPrefix(xs: seq<Batch>, n: nat, b: Batch)
    requires n <= |xs|
    ensures Count(xs[..n], b) <= Count(xs, b)
  {
    if n < |xs| {
      CountPrefix(xs[..|xs| - 1], n, b);
      assert xs[..|xs| - 1][..n] == xs[..n];
    } else {
      assert xs[..n] == xs;
    }
  }

  lemma SentInOrder(s: State)
    requires InOrder(s)
    ensures Spool.Tagged(s.wal.log, s.sent)
  {
    var queue := Spool.Backlog(s.wal);
    if s.drainer.Committing? && s.wal.peeked {
      var before, e := s.sent[..|s.sent| - 1], s.drainer.entry;
      assert queue == [e] + queue[1..];
      assert before + queue == s.sent + queue[1..];
      Spool.TaggedSplit(s.wal.log, s.sent, queue[1..]);
    } else if s.drainer.Holding? && !s.wal.peeked {
      Spool.TaggedSplit(s.wal.log, s.sent, [s.drainer.entry] + queue);
    } else {
      Spool.TaggedSplit(s.wal.log, s.sent, queue);
    }
  }

  /**
    Without crashes the pipeline never duplicates: in every run each batch enters
    the retry queue at most once, whether straight from the emitter or through
    the log, so it is acknowledged at most once; and the log is replayed in the
    order in which it was written.
   */
  lemma NoBatchTwice(wal: Spool.State<Batch>, acts: seq<Act>, b: Batch)
    requires Undelivered(wal) && Legal(Start(wal), acts)
    ensures Downstream(Run(Start(wal), acts), b) <= 1
    ensures Spool.Ascending(Run(Start(wal), acts).sent)
  {
    StartInv(wal);
    RunKeepsInv(Start(wal), acts);
    var s := Run(Start(wal), acts);
    assert Conserved(s, b);
    SentInOrder(s);
    PartCounts(s.wal.log, s.sent, b);
  }

  /**
    Order over every run: the retry queue is first in, first out, and the log is in the
    order of arrival.
   */
  lemma RunsInOrder(wal: Spool.State<Batch>, acts: seq<Act>)
    requires Undelivered(wal) && Legal(Start(wal), acts)
    ensures FirstInFirstOut(Run(Start(wal), acts)) && ArrivalOrder(Run(Start(wal), acts))
  {
    StartInv(wal);
    RunKeepsInv(Start(wal), acts);
  }

  /** A batch is spilled only if 60 batches are queued when it arrives, and otherwise queued behind them. */
  lemma SpillsOnlyWhenFull(wal: Spool.State<Batch>, acts: seq<Act>)
    requires Undelivered(wal) && Legal(Start(wal), acts) && Can(Run(Start(wal), acts), Arrive)
    ensures var s := Run(Start(wal), acts);
            var s' := Apply(s, Arrive);
            if |s.retry| == 60 then s'.emitter == Spilling(s.arrived) else s'.retry == s.retry + [s.arrived]
  {
    StartInv(wal);
    RunKeepsInv(Start(wal), acts);
  }

  // ---- nothing is lost ------------------------------------------------------

  /** Nothing goes wrong in this step: the log takes what is spilled, keeps it, and no post is rejected. */
  predicate Smooth(s: State, a: Act) {
    && (a.Spill? ==> a.available && |s.channel| < APPEND_CHANNEL_CAPACITY)
    && !a.WriterFail? && a != WriterOp(Spool.Evict)
    && (a.WorkerPost? ==> !OutcomeOf(a.status).NonRetryable?)
  }

  predicate AllSmooth(s: State, acts: seq<Act>)
    requires Legal(s, acts)
    decreases |acts|
  {
    acts == [] || (Smooth(s, acts[0]) && AllSmooth(Apply(s, acts[0]), acts[1..]))
  }

  predicate NothingLost(s: State) {
    && (s.emitter.Ready? || s.emitter.Spilling?)
    && s.droppedOldest == [] && s.droppedNew == [] && s.appendLost == [] && s.discarded == [] && s.wal.evicted == []
  }

  lemma {:induction false} SmoothLosesNothing(s: State, acts: seq<Act>)
    requires NothingLost(s) && Legal(s, acts) && AllSmooth(s, acts)
    ensures NothingLost(Run(s, acts))
    decreases |acts|
  {
    if acts == [] {
    } else {
      SmoothLosesNothing(Apply(s, acts[0]), acts[1..]);
    }
  }

  /** Nothing is on its way. */
  ghost predicate AtRest(s: State) {
    s.emitter.Ready? && s.retry == [] && s.hand.None? && s.channel == [] && s.writer.None? && Spool.Backlog(s.wal) == []
  }

  /**
    The spillway loses nothing: in every run in which the log takes what is spilled and
    evicts nothing, and the gateway rejects nothing, each batch is on its way or
    acknowledged; with nothing on its way all are acknowledged.
   */
  lemma ZeroLoss(wal: Spool.State<Batch>, acts: seq<Act>, b: Batch)
    requires Undelivered(wal) && Legal(Start(wal), acts) && AllSmooth(Start(wal), acts)
    requires b < Run(Start(wal), acts).arrived
    ensures var s := Run(Start(wal), acts);
            && NothingLost(s) && Located(s, b)
            && (AtRest(s) ==> b in s.acked)
  {
    SmoothLosesNothing(Start(wal), acts);
    EveryBatchIsLocated(wal, acts, b);
    assert Batches([]) == [];
  }

  // ---- the gateway's answers ------------------------------------------------

  /** The version that the agent writes into its batches. */
  const SCHEMA_VERSION: nat := 4

  /** How the worker takes each answer of the gateway: it gives a batch up exactly if its schema is unsupported. */
  lemma AnswerMeans<R>(g: Gateway.State<R>, schema: nat, rows: seq<R>)
    ensures var outcome := OutcomeOf(Some(Gateway.Status(Gateway.Respond(g, schema, rows))));
            && (outcome.NonRetryable? <==> schema !in {2, 3, 4})
            && (outcome.Success? <==>
                && schema in {2, 3, 4} && g.healthy
                && (rows == [] || (!g.closed && Gateway.Fits(g, rows))))
  {
  }

  /** A post that got no response, or the gateway's answer to a batch of the agent. */
  ghost predicate FromGateway(status: Option<nat>) {
    status.Some? ==>
      exists g: Gateway.State<nat>, rows :: status.value == Gateway.Status(Gateway.Respond(g, SCHEMA_VERSION, rows))
  }

  ghost predicate AllFromGateway(acts: seq<Act>) {
    forall i | 0 <= i < |acts| && acts[i].WorkerPost? :: FromGateway(acts[i].status)
  }

  /** So no batch is ever given up in a run against the gateway, whatever its database and its channel do. */
  lemma {:induction false} NeverDiscarded(s: State, acts: seq<Act>)
    requires Legal(s, acts) && AllFromGateway(acts)
    ensures Run(s, acts).discarded == s.discarded
    decreases |acts|
  {
    if acts == [] {
    } else {
      var a := acts[0];
      if a.WorkerPost? && a.status.Some? {
        var g: Gateway.State<nat>, rows :| a.status.value == Gateway.Status(Gateway.Respond(g, SCHEMA_VERSION, rows));
        AnswerMeans(g, SCHEMA_VERSION, rows);
      }
      assert forall i | 0 <= i < |acts| - 1 :: acts[1..][i] == acts[i + 1];
      NeverDiscarded(Apply(s, a), acts[1..]);
    }
  }
}
