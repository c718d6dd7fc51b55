/**
  What a sync is worth: an entry that was once on the medium is never lost again but
  to the size cap, over every run of the spool machine, with crashes at any step.
 */
module Durability {
  import opened Spool

  /** Committed, evicted by the cap, or still to be delivered from the medium. */
  ghost predicate Safe<T>(s: State<T>, e: Entry<T>) {
    e in s.committed || e in s.evicted || e in DurableBacklog(s)
  }

  /** What is safe will not be missed: it was handed on, it was evicted, or it is queued. */
  lemma SafeIsKept<T>(s: State<T>, e: Entry<T>)
    requires Inv(s) && Safe(s, e)
    ensures e in s.committed || e in s.evicted || e in Backlog(s)
  {
    DurableSplit(s);
    DropConcat(Durable(s), Unsynced(s), s.read);
  }

  /** When everything is synced the whole queue is safe. */
  lemma SyncedIsSafe<T>(s: State<T>, e: Entry<T>)
    requires Inv(s) && AllSynced(s) && (e in Backlog(s) || e in s.committed || e in s.evicted)
    ensures Safe(s, e)
  {
    DurableSplit(s);
    assert Durable(s) + [] == Durable(s);
  }

  lemma DropKeeps<A>(xs: seq<A>, ys: seq<A>, n: nat, x: A)
    requires x in Drop(xs, n)
    ensures x in Drop(xs + ys, n)
  {
    var i :| 0 <= i < |Drop(xs, n)| && Drop(xs, n)[i] == x;
    assert Drop(xs + ys, n)[i] == x;
  }

  lemma DropLess<A>(xs: seq<A>, n: nat, x: A)
    requires x in Drop(xs, n)
    ensures x in xs
  {
  }

  /** A write adds to the unsynced end only. */
  lemma WriteDurable<T>(s: State<T>, item: T)
    requires Inv(s) && Enabled(s, Write(item))
    ensures Durable(Step(s, Write(item))) == Durable(s)
  {
    var s' := Step(s, Write(item));
    assert SyncedAt(s.segs, s.open, |s.segs| - 1);
    assert Older(s') == Older(s);
  }

  /** Segments that are all synced are all durable. */
  lemma AllDurable<T>(s: State<T>)
    requires s.segs != [] ==> Back(s).synced == |Back(s).entries|
    ensures Durable(s) == Flatten(s.segs)
  {
    if s.segs != [] {
      FlattenSplit(s);
      assert Take(Back(s).entries, Back(s).synced) == Back(s).entries;
    }
  }

  /** Syncing steps make everything durable. */
  lemma SyncDurable<T>(s: State<T>, op: Op<T>)
    requires Inv(s) && Enabled(s, op) && (op.Sync? || op.Close? || op.Rotate?)
    ensures Durable(Step(s, op)) == Durable(s) + Unsynced(s)
  {
    DurableSplit(s);
    AllDurable(Step(s, op));
    if op.Rotate? {
      RotateQueue(s, op.id);
    } else {
      FlattenSynced(s);
    }
  }

  /** The front segment of several is durable, and so is what a collected segment held. */
  lemma FrontDurable<T>(s: State<T>)
    requires Inv(s) && s.segs != [] && (|s.segs| > 1 || !s.open)
    ensures Durable(s) == s.segs[0].entries + Durable(s.(segs := s.segs[1..]))
  {
    if |s.segs| > 1 {
      var rest := s.(segs := s.segs[1..]);
      assert Older(s) == [s.segs[0]] + Older(rest);
      assert Flatten(Older(s)) == s.segs[0].entries + Flatten(Older(rest)) by {
        assert Older(s)[1..] == Older(rest);
      }
    } else {
      assert SyncedAt(s.segs, s.open, 0);
      assert Older(s) == [] && Durable(s.(segs := s.segs[1..])) == [];
    }
  }

  /** The crash keeps what was durable, in front of what else it may leave. */
  lemma CrashDurable<T>(s: State<T>, op: Op<T>)
    requires Inv(s) && Enabled(s, op) && op.Crash?
    ensures Durable(s) <= Durable(Step(s, op))
  {
    var s' := Step(s, op);
    if s.segs != [] {
      assert SyncedAt(s.segs, s.open, |s.segs| - 1);
      if op.keepBack {
        assert Older(s') == Older(s);
      } else {
        assert s'.segs == Older(s) && Durable(s) == Flatten(Older(s));
        if s'.segs != [] {
          FlattenSplit(s');
          assert SyncedAt(s.segs, s.open, |s'.segs| - 1);
        }
      }
    }
  }

  lemma InEither<A>(a: seq<A>, b: seq<A>, n: nat, x: A)
    requires n <= |a| && x in Drop(a + b, n)
    ensures x in Drop(a, n) || x in b
  {
    DropConcat(a, b, n);
  }

  lemma InNext<A>(xs: seq<A>, n: nat, x: A)
    requires x in Drop(xs, n)
    ensures n < |xs| && (x == xs[n] || x in Drop(xs, n + 1))
  {
    assert n < |xs| && xs[n..] == [xs[n]] + xs[n + 1..];
  }

  /** What is durable depends on the segments alone. */
  lemma SameDurable<T>(s: State<T>, s': State<T>)
    requires s.segs == s'.segs
    ensures Durable(s) == Durable(s')
  {
  }

  lemma PopIsSafe<T>(s: State<T>, op: Op<T>, e: Entry<T>)
    requires Inv(s) && Enabled(s, op) && (op.Evict? || op.Collect?) && e in DurableBacklog(s)
    ensures Safe(Step(s, op), e)
  {
    var front, rest := s.segs[0].entries, Durable(s.(segs := s.segs[1..]));
    FrontDurable(s);
    InEither(front, rest, s.read, e);
    SameDurable(Step(s, op), s.(segs := s.segs[1..]));
    if e in rest {
      WholeDrop(rest);
    }
  }

  lemma WholeDrop<A>(xs: seq<A>)
    ensures Drop(xs, 0) == xs
  {
  }

  /** The next entry to commit, if it is durable at all, is the next durable one. */
  lemma NextDurable<T>(s: State<T>)
    requires Inv(s) && s.peeked && s.read < |Durable(s)|
    ensures Durable(s)[s.read] == s.segs[0].entries[s.read]
  {
    DurableSplit(s);
    FlattenSplit(s);
    SameAt(Durable(s), Unsynced(s), s.segs[0].entries, Flatten(s.segs[1..]), s.read);
  }

  lemma SameAt<A>(a: seq<A>, b: seq<A>, c: seq<A>, d: seq<A>, n: nat)
    requires a + b == c + d && n < |a| && n < |c|
    ensures a[n] == c[n]
  {
    assert (a + b)[n] == (c + d)[n];
  }

  lemma CommitIsSafe<T>(s: State<T>, e: Entry<T>)
    requires Inv(s) && s.peeked && Enabled(s, Commit) && e in DurableBacklog(s)
    ensures Safe(Step(s, Commit), e)
  {
    InNext(Durable(s), s.read, e);
    NextDurable(s);
    SameDurable(s, Step(s, Commit));
  }

  lemma WriteIsSafe<T>(s: State<T>, item: T, e: Entry<T>)
    requires Inv(s) && Enabled(s, Write(item)) && e in DurableBacklog(s)
    ensures e in DurableBacklog(Step(s, Write(item)))
  {
    WriteDurable(s, item);
  }

  lemma SyncIsSafe<T>(s: State<T>, op: Op<T>, e: Entry<T>)
    requires Inv(s) && Enabled(s, op) && (op.Sync? || op.Close? || op.Rotate?) && e in DurableBacklog(s)
    ensures e in DurableBacklog(Step(s, op))
  {
    SyncDurable(s, op);
    DropKeeps(Durable(s), Unsynced(s), s.read, e);
  }

  lemma CrashIsSafe<T>(s: State<T>, op: Op<T>, e: Entry<T>)
    requires Inv(s) && Enabled(s, op) && op.Crash? && e in DurableBacklog(s)
    ensures e in DurableBacklog(Step(s, op))
  {
    CrashDurable(s, op);
    DropLess(Durable(s), s.read, e);
    WholeDrop(Durable(Step(s, op)));
  }

  /** No step, not even a crash, takes a safe entry away. */
  lemma SafeStep<T>(s: State<T>, op: Op<T>, e: Entry<T>)
    requires Inv(s) && Enabled(s, op) && Safe(s, e)
    ensures Safe(Step(s, op), e)
  {
    if e in DurableBacklog(s) {
      match op
      case Write(item) => WriteIsSafe(s, item, e);
      case Evict => PopIsSafe(s, op, e);
      case Collect => PopIsSafe(s, op, e);
      case Peek => SameDurable(s, Step(s, op));
      case Commit => if s.peeked { CommitIsSafe(s, e); }
      case Crash(_, _, _) => CrashIsSafe(s, op, e);
      case _ => SyncIsSafe(s, op, e);
    } else {
      HistoryGrows(s, op, e);
    }
  }

  lemma HistoryGrows<T>(s: State<T>, op: Op<T>, e: Entry<T>)
    requires Enabled(s, op) && (e in s.committed || e in s.evicted)
    ensures e in Step(s, op).committed || e in Step(s, op).evicted
  {
  }

  /** Once on the medium, never lost but to the cap: in every run, whatever crashes it has. */
  lemma {:induction false} SafeRun<T>(s: State<T>, ops: seq<Op<T>>, e: Entry<T>)
    requires Inv(s) && Legal(s, ops) && Safe(s, e)
    ensures Inv(Run(s, ops)) && Safe(Run(s, ops), e)
    decreases |ops|
  {
    if ops == [] {
    } else {
      StepKeepsInv(s, ops[0]);
      SafeStep(s, ops[0], e);
      SafeRun(Step(s, ops[0]), ops[1..], e);
    }
  }

  // ---- what a writer turn adds --------------------------------------------

  /** Every entry from history position `from` on is queued or was evicted. */
  ghost predicate KeptSince<T>(s: State<T>, from: nat) {
    forall t | from <= t < |s.log| :: KeptAt(s, t)
  }

  ghost predicate KeptAt<T>(s: State<T>, t: nat)
    requires t < |s.log|
  {
    Entry(t, s.log[t]) in s.evicted || Entry(t, s.log[t]) in Backlog(s)
  }

  lemma KeptSinceStep<T>(s: State<T>, op: Op<T>, from: nat)
    requires Inv(s) && Enabled(s, op) && WriterOp(op) && KeptSince(s, from)
    ensures KeptSince(Step(s, op), from)
  {
    QueueStep(s, op);
    forall t | from <= t < |Step(s, op).log| ensures KeptAt(Step(s, op), t) {
      if t < |s.log| {
        assert KeptAt(s, t);
      }
    }
  }

  lemma {:induction false} KeptSinceRun<T>(s: State<T>, ops: seq<Op<T>>, from: nat)
    requires Inv(s) && Legal(s, ops) && WriterOps(ops) && KeptSince(s, from)
    ensures Inv(Run(s, ops)) && KeptSince(Run(s, ops), from)
    decreases |ops|
  {
    if ops == [] {
    } else {
      assert forall i | 0 <= i < |ops[1..]| :: ops[1..][i] == ops[i + 1];
      StepKeepsInv(s, ops[0]);
      KeptSinceStep(s, ops[0], from);
      KeptSinceRun(Step(s, ops[0]), ops[1..], from);
    }
  }

  /** What the writer added by the time everything is synced is safe. */
  lemma WrittenIsSafe<T>(s: State<T>, ops: seq<Op<T>>, t: nat)
    requires Inv(s) && Legal(s, ops) && WriterOps(ops) && AllSynced(Run(s, ops)) && |s.log| <= t < |Run(s, ops).log|
    ensures Safe(Run(s, ops), Entry(t, Run(s, ops).log[t]))
  {
    KeptSinceRun(s, ops, |s.log|);
    assert KeptAt(Run(s, ops), t);
    SyncedIsSafe(Run(s, ops), Entry(t, Run(s, ops).log[t]));
  }

  lemma AllWrittenSafe<T>(s: State<T>, ops: seq<Op<T>>, s': State<T>, written: seq<T>)
    requires Inv(s) && Reaches(s, ops, s') && WriterOps(ops) && AllSynced(s') && s'.log == s.log + written
    ensures forall e | e in Fresh(|s.log|, written) :: Safe(s', e)
  {
    forall e | e in Fresh(|s.log|, written) ensures Safe(s', e) {
      FreshIsLogged(s.log, written, e);
      WrittenIsSafe(s, ops, e.tag);
    }
  }

  lemma FreshIsLogged<T>(log: seq<T>, written: seq<T>, e: Entry<T>)
    requires e in Fresh(|log|, written)
    ensures |log| <= e.tag < |log + written| && e == Entry(e.tag, (log + written)[e.tag])
  {
  }
}
