/**
  The gateway's two loops over the shared channel: the request handler that sends
  what it reserved, and the writer task that coalesces rows and inserts them with
  retries. Each takes, as `others`, what the rest of the gateway does before each of
  its own operations completes.

  A predicate compared with `true` is handled by the verifier as one fact, not as its
  conjuncts.
 */
module GatewayServer {
  import opened Options
  import opened Gateway

  const MAX_INSERT_RETRIES: nat := 5
  const INITIAL_BACKOFF_MS: nat := 100
  const MAX_BACKOFF_MS: nat := 2000

  /** The base waits between attempts; the cap is never reached within the retry budget. */
  const WAITS: seq<nat> := [100, 200, 400, 800]

  ghost predicate AllFailed(outcomes: nat -> bool, n: int) { forall i | 0 <= i < n :: !outcomes(i) }

  /** The first `n` waits. */
  ghost predicate Waited(waits: seq<nat>, n: int) { 0 <= n <= |WAITS| && waits == WAITS[..n] }

  lemma WaitedOnce(waits: seq<nat>, n: nat, wait: nat)
    requires Waited(waits, n) && n < |WAITS| && wait == WAITS[n]
    ensures Waited(waits + [wait], n + 1)
  {
  }

  function Min(a: nat, b: nat): nat { if a < b then a else b }

  ghost predicate Prefix<T>(a: seq<T>, b: seq<T>) {
    |a| <= |b| && a == b[..|a|]
  }

  lemma PrefixTrans<T>(a: seq<T>, b: seq<T>, c: seq<T>)
    requires Prefix(a, b) && Prefix(b, c)
    ensures Prefix(a, c)
  {
  }

  /** When the channel and the writer's hand are empty, everything sent was handed over, in order. */
  lemma AllHandedOver<R>(s: State<R>)
    requires Inv(s) && s.hand == [] && s.queue == []
    ensures Flat(s.done) == s.log
  {
  }

  class Server<R(==)> {
    var s: State<R>

    constructor (capacity: nat, batchMax: nat, healthy: bool)
      ensures Inv(s) && s == Initial(capacity, batchMax, healthy)
    {
      s := Initial(capacity, batchMax, healthy);
      InitialInv<R>(capacity, batchMax, healthy);
    }

    /**
      One request, with whatever the writer and other requests do before each of
      its sends: all of its rows enter the channel in order, or none do, and no
      send has to wait.
     */
    method IngestInner(schema: nat, rows: seq<R>, others: nat -> seq<Op<R>>) returns (response: Response, id: nat)
      requires Inv(s)
      modifies this
      ensures response == Respond(old(s), schema, rows) && id == |old(s.requests)|
      ensures Inv(s) && id < |s.requests|
      ensures s.requests[id] == Request(rows, response, if response.Accepted? then |rows| else 0)
      ensures From(s.log, id) == if response.Accepted? then rows else []
      ensures !response.Accepted? ==> s.log == old(s.log) && s.queue == old(s.queue)
      ensures From(s.log, id) == if Status(response) == 200 then rows else []
    {
      id, response := |s.requests|, Respond(s, schema, rows);
      SubmitKeeps(s, schema, rows);
      s := Step(s, Submit(schema, rows));
      if response.Accepted? {
        for i := 0 to |rows|
          invariant Inv(s) && id < |s.requests|
          invariant s.requests[id] == Request(rows, response, i)
        {
          OthersKeep(s, others(i), Handler(id));
          s := Others(s, others(i), Handler(id));
          SentNext(s, id);
          s := Step(s, Send(id));
        }
      }
      AllOrNothing(s, id);
    }

    /**
      Receives up to `room` rows. What `others` do happens before the call returns,
      so an empty channel means that every sender is gone and the answer is zero.
     */
    method RecvMany(room: nat, granted: nat, others: seq<Op<R>>) returns (n: nat)
      requires Sound(s) && 1 <= room && |s.hand| + room <= s.batchMax
      modifies this
      ensures Sound(s) && Config(s) == old(Config(s)) && s.healthy == old(s.healthy)
      ensures s.done == old(s.done) && n <= room && |s.hand| == |old(s.hand)| + n
      ensures Prefix(old(s.hand), s.hand)
      ensures n == 0 ==> s.queue == []
      ensures others == [] ==> |s.queue| == |old(s.queue)| - n
    {
      OthersKeep(s, others, Writer);
      s := Others(s, others, Writer);
      n := Min(room, Min(|s.queue|, if granted == 0 then 1 else granted));
      if n > 0 {
        TakeKeeps(s, n);
        s := Step(s, Take(n));
      }
    }

    /**
      Collects one batch: at least one row, at most `batchMax`, in channel order.
      None exactly when the channel has run dry for good. `linger(i)` is whether
      the timer fires before pass i; a batch is short only if the channel was empty
      or the timer fired at the pass that ended it.
     */
    method FillBatch(linger: nat -> bool, granted: nat -> nat, others: nat -> seq<Op<R>>)
      returns (some: bool, pass: nat)
      requires Sound(s) && s.hand == [] && s.batchMax >= 1
      modifies this
      ensures Sound(s) && Config(s) == old(Config(s)) && s.healthy == old(s.healthy)
      ensures s.done == old(s.done) && 0 <= |s.hand| <= s.batchMax
      ensures if some then s.hand != [] else s.hand == [] && s.queue == []
      ensures forall i | 0 <= i < pass :: !linger(i)
      ensures some && |s.hand| < s.batchMax ==> s.queue == [] || linger(pass)
    {
      pass := 0;
      var first := RecvMany(1, 1, others(0));
      if first == 0 {
        return false, pass;
      }
      while |s.hand| < s.batchMax
        invariant Sound(s) && Config(s) == old(Config(s)) && s.healthy == old(s.healthy)
        invariant s.done == old(s.done) && 1 <= |s.hand| <= s.batchMax
        invariant forall i | 0 <= i < pass :: !linger(i)
        decreases s.batchMax - |s.hand|
      {
        if linger(pass) {
          break;
        }
        var n := RecvMany(s.batchMax - |s.hand|, granted(pass), others(pass + 1));
        if n == 0 {
          break;
        }
        pass := pass + 1;
      }
      return true, pass;
    }

    /** One insert attempt; the batch is settled when it succeeds or was the last. */
    method Attempt(ok: bool, last: bool, others: seq<Op<R>>)
      requires Sound(s) && s.hand != []
      modifies this
      ensures Sound(s) && Config(s) == old(Config(s)) && s.healthy == ok
      ensures if ok || last then s.hand == [] && s.done == old(s.done) + [Batch(old(s.hand), ok)]
              else s.hand == old(s.hand) && s.done == old(s.done)
      ensures others == [] ==> s.queue == old(s.queue)
    {
      OthersKeep(s, others, Writer);
      s := Others(s, others, Writer);
      if ok {
        SettleKeeps(s, true);
        s := Step(s, Settle(true));
      } else {
        StepKeepsInv(s, InsertFailed);
        s := Step(s, InsertFailed);
        if last {
          SettleKeeps(s, false);
          s := Step(s, Settle(false));
        }
      }
    }

    /**
      Inserts the batch in hand, at most five times. The batch ends up recorded
      exactly once, as inserted if an attempt succeeded and dropped otherwise, and
      the health flag is the outcome of the last attempt.
     */
    method FlushWithRetry(outcomes: nat -> bool, others: nat -> seq<Op<R>>) returns (attempts: nat, waits: seq<nat>)
      requires Sound(s) && s.hand != []
      modifies this
      ensures Sound(s) && Config(s) == old(Config(s))
      ensures 1 <= attempts <= 5
      ensures AllFailed(outcomes, attempts - 1)
      ensures attempts < 5 ==> outcomes(attempts - 1)
      ensures s.hand == [] && s.done == old(s.done) + [Batch(old(s.hand), outcomes(attempts - 1))]
      ensures s.healthy == outcomes(attempts - 1)
      ensures Waited(waits, attempts - 1)
      ensures (forall i :: others(i) == []) ==> s.queue == old(s.queue)
    {
      var backoff := INITIAL_BACKOFF_MS;
      waits := [];
      for attempt := 0 to MAX_INSERT_RETRIES
        invariant Sound(s) && Config(s) == old(Config(s))
        invariant s.hand == old(s.hand) && s.done == old(s.done)
        invariant AllFailed(outcomes, attempt) && attempt < MAX_INSERT_RETRIES
        invariant Waited(waits, attempt)
        invariant attempt < |WAITS| ==> backoff == WAITS[attempt]
        invariant (forall i :: others(i) == []) ==> s.queue == old(s.queue)
      {
        attempts := attempt + 1;
        Attempt(outcomes(attempt), attempt + 1 >= MAX_INSERT_RETRIES, others(attempt));
        if outcomes(attempt) || attempt + 1 >= MAX_INSERT_RETRIES {
          return;
        }
        WaitedOnce(waits, attempt, backoff);
        waits := waits + [backoff];
        backoff := Min(backoff * 2, MAX_BACKOFF_MS);
      }
    }

    /** Flushes whatever is left once every sender is gone. */
    method DrainFinal(granted: nat -> nat, outcomes: nat -> nat -> bool)
      requires Sound(s) && s.hand == [] && s.batchMax >= 1
      modifies this
      ensures Sound(s) && Config(s) == old(Config(s)) && s.hand == [] && s.queue == []
      ensures Flat(s.done) == s.log && Prefix(old(s.done), s.done)
      ensures old(s.queue) == [] ==> s.done == old(s.done)
    {
      var pass := 0;
      while true
        invariant Sound(s) && Config(s) == old(Config(s))
        invariant |s.hand| < s.batchMax && Prefix(old(s.done), s.done)
        invariant old(s.queue) == [] ==> s.queue == [] && s.hand == [] && s.done == old(s.done)
        decreases |s.queue|
      {
        var n := RecvMany(s.batchMax - |s.hand|, granted(pass), []);
        if n == 0 {
          break;
        }
        if |s.hand| >= s.batchMax {
          ghost var before := s.done;
          var _, _ := FlushWithRetry(outcomes(pass), Nobody);
          PrefixTrans(old(s.done), before, s.done);
        }
        pass := pass + 1;
      }
      if s.hand != [] {
        ghost var before := s.done;
        var _, _ := FlushWithRetry(outcomes(pass), Nobody);
        PrefixTrans(old(s.done), before, s.done);
      }
      AllHandedOver(s);
    }

    /**
      The writer task over any number of rounds, each of which settles one batch. Once
      the channel runs dry every row sent is in a batch, in order, and the final drain
      adds nothing.
     */
    method WriterLoop(rounds: seq<Round<R>>) returns (finished: bool)
      requires Sound(s) && s.hand == [] && s.batchMax >= 1
      modifies this
      ensures Sound(s) && Config(s) == old(Config(s)) && s.hand == []
      ensures Prefix(old(s.done), s.done) && |s.done| <= |old(s.done)| + |rounds|
      ensures finished ==> Flat(s.done) == s.log && s.queue == []
      ensures !finished ==> |s.done| == |old(s.done)| + |rounds|
    {
      for i := 0 to |rounds|
        invariant Sound(s) && Config(s) == old(Config(s)) && s.hand == []
        invariant Prefix(old(s.done), s.done) && |s.done| == |old(s.done)| + i
      {
        var r := rounds[i];
        var some, _ := FillBatch(r.linger, r.granted, r.arriving);
        if !some {
          DrainFinal(r.granted, _ => r.outcomes);
          return true;
        }
        ghost var before := s.done;
        var _, _ := FlushWithRetry(r.outcomes, r.meanwhile);
        PrefixTrans(old(s.done), before, s.done);
      }
      return false;
    }
  }

  /** What the world does during one round of the writer: timers, wake-ups, other actors and insert results. */
  datatype Round<!R> = Round(
    linger: nat -> bool,
    granted: nat -> nat,
    arriving: nat -> seq<Op<R>>,
    outcomes: nat -> bool,
    meanwhile: nat -> seq<Op<R>>)

  function Nobody<R>(i: nat): seq<Op<R>> { [] }

  /** The invariant, with the writer alive. */
  ghost predicate Sound<R>(s: State<R>) {
    (Inv(s) && !s.closed) == true
  }

  function Config<R>(s: State<R>): (nat, nat) { (s.capacity, s.batchMax) }
}
