/**
  Gateway ingest: concurrent requests reserve room for all their rows in a bounded
  channel before sending any, and one writer takes rows out in batches. Requests
  and the writer interleave freely, one channel operation at a time.
 */
module Gateway {
  const MIN_SCHEMA_VERSION: nat := 2
  const MAX_SCHEMA_VERSION: nat := 4

  datatype Response = BadSchema | Unhealthy | Empty | Full | Closed | Accepted

  /** A request, the answer decided when it reserved, and how many of its rows it has sent. */
  datatype Request<R> = Request(rows: seq<R>, response: Response, sent: nat)

  /** A batch the writer is done with: acknowledged by the database, or dropped after the last retry. */
  datatype Batch<R> = Batch(rows: seq<R>, inserted: bool)

  /** Rows in the channel carry the number of the request that sent them; `log` is all that was ever sent. */
  datatype State<R> = State(
    capacity: nat,
    batchMax: nat,
    closed: bool,
    healthy: bool,
    requests: seq<Request<R>>,
    log: seq<(nat, R)>,
    queue: seq<(nat, R)>,
    hand: seq<(nat, R)>,
    done: seq<Batch<(nat, R)>>)

  datatype Op<R> =
    | Submit(schema: nat, rows: seq<R>)
    | Send(id: nat)
    | Take(count: nat)
    | Settle(inserted: bool)
    | InsertFailed
    | CloseChannel

  function Initial<R>(capacity: nat, batchMax: nat, healthy: bool): State<R> {
    State(capacity, batchMax, false, healthy, [], [], [], [], [])
  }

  function Unsent<R>(q: Request<R>): nat {
    if q.response.Accepted? && q.sent < |q.rows| then |q.rows| - q.sent else 0
  }

  /** Slots held by permits that have not been used yet. */
  function Reserved<R>(qs: seq<Request<R>>): nat {
    if qs == [] then 0 else Reserved(qs[..|qs| - 1]) + Unsent(qs[|qs| - 1])
  }

  /** Room for the rows beside what is queued and promised. */
  predicate Fits<R>(s: State<R>, rows: seq<R>) {
    |s.queue| + Reserved(s.requests) + |rows| <= s.capacity
  }

  /** The answer to a request, and whether it may send; each answer has its exact condition. */
  function Respond<R>(s: State<R>, schema: nat, rows: seq<R>): (r: Response)
    ensures r.BadSchema? <==> schema !in {2, 3, 4}
    ensures r.Unhealthy? <==> schema in {2, 3, 4} && !s.healthy
    ensures r.Empty? <==> schema in {2, 3, 4} && s.healthy && |rows| == 0
    ensures r.Closed? <==> schema in {2, 3, 4} && s.healthy && |rows| >= 1 && s.closed
    ensures r.Full? <==> schema in {2, 3, 4} && s.healthy && |rows| >= 1 && !s.closed && !Fits(s, rows)
    ensures r.Accepted? <==> schema in {2, 3, 4} && s.healthy && |rows| >= 1 && !s.closed && Fits(s, rows)
  {
    if schema < MIN_SCHEMA_VERSION || schema > MAX_SCHEMA_VERSION then BadSchema
    else if !s.healthy then Unhealthy
    else if rows == [] then Empty
    else if s.closed then Closed
    else if s.capacity - |s.queue| - Reserved(s.requests) < |rows| then Full
    else Accepted
  }

  /** The HTTP status of an answer. */
  function Status(r: Response): nat {
    match r
    case BadSchema => 400
    case Unhealthy => 503
    case Empty => 200
    case Full => 503
    case Closed => 503
    case Accepted => 200
  }

  predicate Enabled<R>(s: State<R>, op: Op<R>) {
    match op
    case Submit(_, _) => true
    case Send(id) => id < |s.requests| && Unsent(s.requests[id]) > 0
    case Take(count) => 1 <= count <= |s.queue| && |s.hand| + count <= s.batchMax && !s.closed
    case Settle(_) => s.hand != [] && !s.closed
    case InsertFailed => s.hand != [] && !s.closed
    case CloseChannel => true
  }

  function Step<R>(s: State<R>, op: Op<R>): State<R>
    requires Enabled(s, op)
  {
    match op
    case Submit(schema, rows) => s.(requests := s.requests + [Request(rows, Respond(s, schema, rows), 0)])
    case Send(id) =>
      var q := s.requests[id];
      s.(requests := s.requests[id := q.(sent := q.sent + 1)],
         log := s.log + [(id, q.rows[q.sent])],
         queue := s.queue + [(id, q.rows[q.sent])])
    case Take(count) => s.(hand := s.hand + s.queue[..count], queue := s.queue[count..])
    case Settle(inserted) => s.(done := s.done + [Batch(s.hand, inserted)], hand := [], healthy := inserted)
    case InsertFailed => s.(healthy := false)
    case CloseChannel => s.(closed := true)
  }

  /** The batches handed to the database, one after the other. */
  function Flat<R>(bs: seq<Batch<R>>): seq<R> {
    if bs == [] then [] else Flat(bs[..|bs| - 1]) + bs[|bs| - 1].rows
  }

  /** The rows in a log that came from one request, in order. */
  function From<R>(log: seq<(nat, R)>, id: nat): seq<R> {
    if log == [] then []
    else
      var last := log[|log| - 1];
      From(log[..|log| - 1], id) + if last.0 == id then [last.1] else []
  }

  /** What a request has contributed so far: the rows it has sent, none unless it was accepted. */
  ghost predicate Contributed<R>(s: State<R>, id: nat) {
    if id >= |s.requests| then From(s.log, id) == []
    else
      var q := s.requests[id];
      if q.response.Accepted? then q.sent <= |q.rows| && From(s.log, id) == q.rows[..q.sent]
      else q.sent == 0 && From(s.log, id) == []
  }

  ghost predicate AllContributed<R>(s: State<R>) {
    forall id :: Contributed(s, id)
  }

  ghost predicate Bounded<R>(bs: seq<Batch<R>>, batchMax: nat) {
    forall b | b in bs :: 1 <= |b.rows| <= batchMax
  }

  function Granted<R>(q: Request<R>): nat { if q.response.Accepted? then |q.rows| else 0 }

  function GrantedTotal<R>(qs: seq<Request<R>>): nat {
    if qs == [] then 0 else GrantedTotal(qs[..|qs| - 1]) + Granted(qs[|qs| - 1])
  }

  ghost predicate Inv<R>(s: State<R>) {
    && |s.queue| + Reserved(s.requests) <= s.capacity
    && Flat(s.done) + s.hand + s.queue == s.log
    && Bounded(s.done, s.batchMax) && |s.hand| <= s.batchMax
    && AllContributed(s)
    && GrantedTotal(s.requests) == |s.log| + Reserved(s.requests)
  }

  lemma UpdatedInit<A>(xs: seq<A>, i: nat, x: A)
    requires i < |xs| - 1
    ensures var n := |xs| - 1; xs[i := x][..n] == xs[..n][i := x] && xs[i := x][n] == xs[n]
  {
  }

  lemma UpdatedLast<A>(xs: seq<A>, x: A)
    requires xs != []
    ensures var n := |xs| - 1; xs[n := x][..n] == xs[..n] && xs[n := x][n] == x
  {
  }

  lemma {:induction false} SentOne<R>(qs: seq<Request<R>>, id: nat)
    requires id < |qs| && Unsent(qs[id]) > 0
    ensures var qs' := qs[id := qs[id].(sent := qs[id].sent + 1)];
            Reserved(qs') + 1 == Reserved(qs) && GrantedTotal(qs') == GrantedTotal(qs)
  {
    var n, q' := |qs| - 1, qs[id].(sent := qs[id].sent + 1);
    if id < n {
      UpdatedInit(qs, id, q');
      SentOne(qs[..n], id);
    } else {
      UpdatedLast(qs, q');
    }
  }

  lemma {:induction false} SubmitKeeps<R>(s: State<R>, schema: nat, rows: seq<R>)
    requires Inv(s)
    ensures Inv(Step(s, Submit(schema, rows)))
  {
    var s' := Step(s, Submit(schema, rows));
    assert s'.requests[..|s.requests|] == s.requests;
    forall id ensures Contributed(s', id) {
      assert Contributed(s, id);
    }
  }

  lemma SendContributes<R>(s: State<R>, id: nat)
    requires AllContributed(s) && Enabled(s, Send(id))
    ensures AllContributed(Step(s, Send(id)))
  {
    var s', q := Step(s, Send(id)), s.requests[id];
    assert s'.log[..|s.log|] == s.log;
    forall k ensures Contributed(s', k) {
      assert Contributed(s, k);
      if k == id {
        assert q.rows[..q.sent] + [q.rows[q.sent]] == q.rows[..q.sent + 1];
      }
    }
  }

  lemma {:induction false} SendKeeps<R>(s: State<R>, id: nat)
    requires Inv(s) && Enabled(s, Send(id))
    ensures Inv(Step(s, Send(id)))
  {
    SentOne(s.requests, id);
    SendContributes(s, id);
    assert AllContributed(Step(s, Send(id)));
  }

  lemma TakeKeeps<R>(s: State<R>, count: nat)
    requires Inv(s) && Enabled(s, Take(count))
    ensures Inv(Step(s, Take(count)))
  {
    var s' := Step(s, Take(count));
    SplitMiddle(Flat(s.done), s.hand, s.queue, count);
    ContributedKept(s, s');
  }

  lemma SplitMiddle<A>(a: seq<A>, b: seq<A>, c: seq<A>, n: nat)
    requires n <= |c|
    ensures a + (b + c[..n]) + c[n..] == a + b + c
  {
  }

  /** Contributions are a matter of the requests and the log alone. */
  lemma ContributedKept<R>(s: State<R>, s': State<R>)
    requires AllContributed(s) && s'.requests == s.requests && s'.log == s.log
    ensures AllContributed(s')
  {
    forall id ensures Contributed(s', id) {
      assert Contributed(s, id);
    }
  }

  lemma SettleKeeps<R>(s: State<R>, inserted: bool)
    requires Inv(s) && Enabled(s, Settle(inserted))
    ensures Inv(Step(s, Settle(inserted)))
  {
    var s' := Step(s, Settle(inserted));
    FlatSnoc(s.done, Batch(s.hand, inserted));
    ContributedKept(s, s');
  }

  lemma FlatSnoc<R>(bs: seq<Batch<R>>, b: Batch<R>)
    ensures Flat(bs + [b]) == Flat(bs) + b.rows && Flat(bs + [b]) + [] == Flat(bs) + b.rows
  {
    assert (bs + [b])[..|bs|] == bs;
  }

  lemma FlagsKeep<R>(s: State<R>, closed: bool, healthy: bool)
    requires Inv(s)
    ensures Inv(s.(closed := closed, healthy := healthy))
  {
    ContributedKept(s, s.(closed := closed, healthy := healthy));
  }

  lemma StepKeepsInv<R>(s: State<R>, op: Op<R>)
    requires Inv(s) && Enabled(s, op)
    ensures Inv(Step(s, op))
  {
    match op
    case Submit(schema, rows) => SubmitKeeps(s, schema, rows);
    case Send(id) => SendKeeps(s, id);
    case Take(count) => TakeKeeps(s, count);
    case Settle(inserted) => SettleKeeps(s, inserted);
    case InsertFailed => FlagsKeep(s, s.closed, false);
    case CloseChannel => FlagsKeep(s, true, s.healthy);
  }

  ghost predicate CanRun<R>(s: State<R>, ops: seq<Op<R>>)
    decreases |ops|
  {
    ops != [] ==> Enabled(s, ops[0]) && CanRun(Step(s, ops[0]), ops[1..])
  }

  ghost function Run<R>(s: State<R>, ops: seq<Op<R>>): State<R>
    requires CanRun(s, ops)
    decreases |ops|
  {
    if ops == [] then s else Run(Step(s, ops[0]), ops[1..])
  }

  /**
    Every interleaving: the channel never holds or promises more than its
    capacity, every batch is non-empty and bounded, batches and channel are the
    rows in the order they were sent, and a request contributes its rows in order
    or nothing at all.
   */
  lemma {:induction false} RunKeepsInv<R>(s: State<R>, ops: seq<Op<R>>)
    requires Inv(s) && CanRun(s, ops)
    ensures Inv(Run(s, ops))
    decreases |ops|
  {
    if ops == [] {
    } else {
      StepKeepsInv(s, ops[0]);
      RunKeepsInv(Step(s, ops[0]), ops[1..]);
    }
  }

  lemma InitialInv<R>(capacity: nat, batchMax: nat, healthy: bool)
    ensures Inv(Initial<R>(capacity, batchMax, healthy))
  {
    var s := Initial<R>(capacity, batchMax, healthy);
    forall id ensures Contributed(s, id) {
    }
  }

  function RowCount<R>(bs: seq<Batch<R>>, inserted: bool): nat {
    if bs == [] then 0
    else RowCount(bs[..|bs| - 1], inserted) + if bs[|bs| - 1].inserted == inserted then |bs[|bs| - 1].rows| else 0
  }

  lemma {:induction false} FlatCounts<R>(bs: seq<Batch<R>>)
    ensures |Flat(bs)| == RowCount(bs, true) + RowCount(bs, false)
  {
    if bs == [] {
    } else {
      FlatCounts(bs[..|bs| - 1]);
    }
  }

  /** Row conservation after any run from a fresh gateway. */
  lemma RowsConserved<R>(capacity: nat, batchMax: nat, healthy: bool, ops: seq<Op<R>>)
    requires CanRun(Initial(capacity, batchMax, healthy), ops)
    ensures var s := Run(Initial(capacity, batchMax, healthy), ops);
            && GrantedTotal(s.requests) ==
               RowCount(s.done, true) + RowCount(s.done, false) + |s.hand| + |s.queue| + Reserved(s.requests)
            && |s.queue| + Reserved(s.requests) <= capacity
  {
    InitialInv<R>(capacity, batchMax, healthy);
    RunKeepsInv(Initial(capacity, batchMax, healthy), ops);
    ConfigKept(Initial(capacity, batchMax, healthy), ops);
    FlatCounts(Run(Initial(capacity, batchMax, healthy), ops).done);
  }

  lemma {:induction false} ConfigKept<R>(s: State<R>, ops: seq<Op<R>>)
    requires CanRun(s, ops)
    ensures Run(s, ops).capacity == s.capacity && Run(s, ops).batchMax == s.batchMax
    decreases |ops|
  {
    if ops == [] {
    } else {
      ConfigKept(Step(s, ops[0]), ops[1..]);
    }
  }

  /** All or nothing: a request with no rows left to send has contributed all of them, or was refused and has none. */
  lemma AllOrNothing<R>(s: State<R>, id: nat)
    requires Inv(s) && id < |s.requests| && Unsent(s.requests[id]) == 0
    ensures From(s.log, id) == if s.requests[id].response.Accepted? then s.requests[id].rows else []
  {
    var q := s.requests[id];
    assert Contributed(s, id);
    WholePrefix(q.rows);
  }

  /** Every accepted request can always finish: its next send needs no room beyond what it reserved. */
  lemma SendNeverBlocks<R>(s: State<R>, id: nat)
    requires Inv(s) && id < |s.requests| && s.requests[id].response.Accepted?
    ensures From(s.log, id) != s.requests[id].rows ==> Enabled(s, Send(id)) && |s.queue| < s.capacity
  {
    var q := s.requests[id];
    assert Contributed(s, id);
    if From(s.log, id) != q.rows {
      WholePrefix(q.rows);
      ReservedCovers(s.requests, id);
    }
  }

  lemma WholePrefix<R>(rows: seq<R>)
    ensures rows[..|rows|] == rows
  {
  }

  lemma {:induction false} ReservedCovers<R>(qs: seq<Request<R>>, id: nat)
    requires id < |qs|
    ensures Unsent(qs[id]) <= Reserved(qs)
  {
    if id == |qs| - 1 {
    } else {
      ReservedCovers(qs[..|qs| - 1], id);
    }
  }

  /** The request handler of request `id`, or the writer task. */
  datatype Actor = Handler(id: nat) | Writer

  predicate Foreign<R(==)>(op: Op<R>, who: Actor) {
    match who
    case Handler(id) => op != Send(id)
    case Writer => op.Submit? || op.Send?
  }

  /** Moves of everyone but `who`; those that cannot happen are skipped. */
  function Others<R(==)>(s: State<R>, ops: seq<Op<R>>, who: Actor): State<R>
    decreases |ops|
  {
    if ops == [] then s
    else Others(if Enabled(s, ops[0]) && Foreign(ops[0], who) then Step(s, ops[0]) else s, ops[1..], who)
  }

  /** What is left alone: a handler's own request, or all that the writer holds. */
  ghost predicate LeftAlone<R>(s: State<R>, s': State<R>, who: Actor) {
    match who
    case Handler(id) => id < |s.requests| ==> id < |s'.requests| && s'.requests[id] == s.requests[id]
    case Writer => s'.hand == s.hand && s'.done == s.done && s'.healthy == s.healthy && s'.closed == s.closed
                   && |s'.queue| >= |s.queue|
  }

  lemma {:induction false} OthersKeep<R>(s: State<R>, ops: seq<Op<R>>, who: Actor)
    requires Inv(s)
    ensures var s' := Others(s, ops, who);
            Inv(s') && LeftAlone(s, s', who) && s'.capacity == s.capacity && s'.batchMax == s.batchMax
    decreases |ops|
  {
    if ops == [] {
    } else {
      if Enabled(s, ops[0]) && Foreign(ops[0], who) {
        StepKeepsInv(s, ops[0]);
        OthersKeep(Step(s, ops[0]), ops[1..], who);
      } else {
        OthersKeep(s, ops[1..], who);
      }
    }
  }

  lemma SentNext<R>(s: State<R>, id: nat)
    requires Inv(s) && Enabled(s, Send(id))
    ensures var s' := Step(s, Send(id)); var q := s.requests[id];
            Inv(s') && id < |s'.requests| && s'.requests[id] == q.(sent := q.sent + 1)
  {
    SendKeeps(s, id);
  }
}
