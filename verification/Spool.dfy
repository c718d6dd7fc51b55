/**
  The log as a state machine over its elementary disk effects, without bytes:
  segments of entries, a read cursor in the front segment, and the one-bit
  `peeked` marker that stands for the bare `pending_advance` offset.

  Each entry carries a tag, its position in the history of writes, so that a run
  can be judged against the history: what was delivered, in which order, what
  was lost and where. A step is a single effect (one eviction, one rotation, one
  frame write, ...), so a crash may fall between any two of them.
 */
module Spool {

  datatype Entry<T> = Entry(tag: nat, item: T)

  /** A segment file; the first `synced` entries are known to be on the medium. */
  datatype Segment<T> = Segment(id: nat, entries: seq<Entry<T>>, synced: nat)

  datatype State<T> = State(
    log: seq<T>,                 // every element ever written; entry tag -> element
    segs: seq<Segment<T>>,       // live segments, oldest first
    open: bool,                  // the back segment accepts writes
    read: nat,                   // entries of the front segment already committed
    peeked: bool,                // an advance past the next entry is pending
    committed: seq<Entry<T>>,    // history: entries popped by commit
    evicted: seq<Entry<T>>,      // history: uncommitted entries removed by the cap
    torn: seq<Entry<T>>,         // history: unsynced entries that a crash took away
    dropped: nat                 // the dropped-batches counter of this process
  )

  datatype Op<T> =
    | Evict                      // drop the front segment at the size cap
    | Rotate(id: nat)            // sync and retire the back segment, start a new one
    | Close                      // a failed rotation: synced and retired, nothing new
    | Write(item: T)             // append one entry to the back segment
    | Sync                       // fdatasync of the back segment
    | Collect                    // delete the fully consumed front segment
    | Peek                       // look at the next entry
    | Commit                     // advance past the entry last looked at
    | Crash(keepBack: bool, extra: seq<T>, synced: nat)  // crash, then recovery

  function Initial<T>(): State<T> {
    State([], [], false, 0, false, [], [], [], 0)
  }

  function Take<A>(xs: seq<A>, n: nat): seq<A> { if n <= |xs| then xs[..n] else xs }

  function Drop<A>(xs: seq<A>, n: nat): seq<A> { if n <= |xs| then xs[n..] else [] }

  /** `xs` is what is left of `ys` after removing a prefix. */
  ghost predicate SuffixOf<A>(xs: seq<A>, ys: seq<A>) {
    |xs| <= |ys| && xs == ys[|ys| - |xs|..]
  }

  lemma SuffixTransitive<A>(xs: seq<A>, ys: seq<A>, zs: seq<A>)
    requires SuffixOf(xs, ys) && SuffixOf(ys, zs)
    ensures SuffixOf(xs, zs)
  {
  }

  function Min(a: nat, b: nat): nat { if a <= b then a else b }

  function Flatten<T>(segs: seq<Segment<T>>): seq<Entry<T>> {
    if segs == [] then [] else segs[0].entries + Flatten(segs[1..])
  }

  /** The entries still to be delivered, in order: the abstract queue. */
  function Backlog<T>(s: State<T>): seq<Entry<T>> {
    Drop(Flatten(s.segs), s.read)
  }

  predicate CursorOk<T>(s: State<T>) {
    && s.read <= (if s.segs == [] then 0 else |s.segs[0].entries|)
    && (s.peeked ==> s.segs != [] && s.read < |s.segs[0].entries|)
  }

  function Back<T>(s: State<T>): Segment<T>
    requires s.segs != []
  {
    s.segs[|s.segs| - 1]
  }

  function Older<T>(s: State<T>): seq<Segment<T>>
    requires s.segs != []
  {
    s.segs[..|s.segs| - 1]
  }

  /** The segments once the data of the back one is on the medium. */
  function SyncedSegs<T>(s: State<T>): seq<Segment<T>> {
    if s.segs == [] then [] else Older(s) + [Back(s).(synced := |Back(s).entries|)]
  }

  function Fresh<T>(from: nat, items: seq<T>): (es: seq<Entry<T>>)
    ensures |es| == |items|
    ensures forall i | 0 <= i < |es| :: es[i] == Entry(from + i, items[i])
  {
    seq(|items|, i requires 0 <= i < |items| => Entry(from + i, items[i]))
  }

  predicate Enabled<T>(s: State<T>, op: Op<T>) {
    match op
    case Evict => |s.segs| > 1
    case Rotate(id) => forall i | 0 <= i < |s.segs| :: s.segs[i].id < id
    case Close => true
    case Write(_) => s.open && s.segs != []
    case Sync => true
    case Collect => s.segs != [] && s.read == |s.segs[0].entries| && !(s.open && |s.segs| == 1)
    case Peek => s.segs != [] && s.read < |s.segs[0].entries|
    case Commit => s.peeked ==> s.segs != [] && s.read < |s.segs[0].entries|
    // The crash leaves at least the synced entries of the back segment; anything it
    // leaves beyond them (resurrected or garbage) shows up as `extra`. A segment of
    // which nothing was synced may lose its header and be dropped by recovery.
    case Crash(keepBack, extra, synced) =>
      && (s.segs == [] ==> extra == [])
      && (s.segs != [] ==> if keepBack then Back(s).synced <= synced <= Back(s).synced + |extra|
                           else Back(s).synced == 0 && extra == [])
  }

  function Step<T>(s: State<T>, op: Op<T>): State<T>
    requires Enabled(s, op)
  {
    match op
    case Evict =>
      s.(segs := s.segs[1..], read := 0, peeked := false,
         evicted := s.evicted + Drop(s.segs[0].entries, s.read), dropped := s.dropped + |s.segs[0].entries|)
    case Rotate(id) =>
      s.(segs := SyncedSegs(s) + [Segment(id, [], 0)], open := true)
    case Close =>
      s.(segs := SyncedSegs(s), open := false)
    case Write(item) =>
      s.(segs := Older(s) + [Back(s).(entries := Back(s).entries + [Entry(|s.log|, item)])], log := s.log + [item])
    case Sync =>
      s.(segs := SyncedSegs(s))
    case Collect =>
      s.(segs := s.segs[1..], read := 0, peeked := false)
    case Peek =>
      s.(peeked := true)
    case Commit =>
      if s.peeked then
        s.(read := s.read + 1, peeked := false, committed := s.committed + [s.segs[0].entries[s.read]])
      else s
    case Crash(keepBack, extra, synced) =>
      if s.segs == [] then s.(open := false, read := 0, peeked := false, dropped := 0)
      else
        var torn := s.torn + Drop(Back(s).entries, Back(s).synced);
        if keepBack then
          var b := Segment(Back(s).id, Take(Back(s).entries, Back(s).synced) + Fresh(|s.log|, extra), synced);
          s.(segs := Older(s) + [b], open := true, read := 0, peeked := false, torn := torn,
             log := s.log + extra, dropped := 0)
        else
          s.(segs := Older(s), open := |s.segs| > 1, read := 0, peeked := false, torn := torn, dropped := 0)
  }

  // ---- the state invariant ------------------------------------------------

  predicate TagBelow<T>(es: seq<Entry<T>>, i: nat, j: nat)
    requires i < |es| && j < |es|
  {
    es[i].tag < es[j].tag
  }

  ghost predicate Ascending<T>(es: seq<Entry<T>>) {
    forall i, j | 0 <= i < j < |es| :: TagBelow(es, i, j)
  }

  /** The entry holds the element its tag names. */
  ghost predicate NamedBy<T>(e: Entry<T>, log: seq<T>) {
    e.tag < |log| && e.item == log[e.tag]
  }

  ghost predicate FromLog<T>(log: seq<T>, es: seq<Entry<T>>) {
    forall e | e in es :: NamedBy(e, log)
  }

  /** Entries in history order, each holding the element its tag names. */
  ghost predicate Tagged<T>(log: seq<T>, es: seq<Entry<T>>) {
    Ascending(es) && FromLog(log, es)
  }

  predicate IdBelow<T>(segs: seq<Segment<T>>, i: nat, j: nat)
    requires i < |segs| && j < |segs|
  {
    segs[i].id < segs[j].id
  }

  ghost predicate IdsAscend<T>(segs: seq<Segment<T>>) {
    forall i, j | 0 <= i < j < |segs| :: IdBelow(segs, i, j)
  }

  /** Only the segment open for writes may hold unsynced entries. */
  predicate SyncedAt<T>(segs: seq<Segment<T>>, open: bool, i: nat)
    requires i < |segs|
  {
    && segs[i].synced <= |segs[i].entries|
    && (i < |segs| - 1 || !open ==> segs[i].synced == |segs[i].entries|)
  }

  predicate SyncedOk<T>(s: State<T>) {
    forall i | 0 <= i < |s.segs| :: SyncedAt(s.segs, s.open, i)
  }

  /** What has been read of the front segment. */
  function ReadPart<T>(s: State<T>): seq<Entry<T>> {
    if s.segs == [] then [] else Take(s.segs[0].entries, s.read)
  }

  ghost predicate Accounted<T>(s: State<T>, t: nat)
    requires t < |s.log|
  {
    var e := Entry(t, s.log[t]);
    e in s.committed || e in s.evicted || e in s.torn || e in Backlog(s)
  }

  ghost predicate Inv<T>(s: State<T>) {
    && CursorOk(s)
    && SyncedOk(s)
    && (s.open ==> s.segs != [])
    && IdsAscend(s.segs)
    && Tagged(s.log, Flatten(s.segs))
    && (forall e | e in ReadPart(s) :: e in s.committed)
    && (forall t | 0 <= t < |s.log| :: Accounted(s, t))
  }

  // ---- every step against a FIFO queue ------------------------------------

  lemma FlattenBack<T>(segs: seq<Segment<T>>, b: Segment<T>)
    ensures Flatten(segs + [b]) == Flatten(segs) + b.entries
  {
    if segs == [] {
      assert Flatten([b]) == b.entries + Flatten<T>([]);
      assert segs + [b] == [b];
    } else {
      FlattenBack(segs[1..], b);
      assert (segs + [b])[1..] == segs[1..] + [b];
    }
  }

  lemma FlattenSplit<T>(s: State<T>)
    requires s.segs != []
    ensures Flatten(s.segs) == Flatten(Older(s)) + Back(s).entries
    ensures Flatten(s.segs) == s.segs[0].entries + Flatten(s.segs[1..])
  {
    FlattenBack(Older(s), Back(s));
    assert s.segs == Older(s) + [Back(s)];
  }

  /** Syncing changes no entry. */
  lemma FlattenSynced<T>(s: State<T>)
    ensures Flatten(SyncedSegs(s)) == Flatten(s.segs)
  {
    if s.segs != [] {
      FlattenSplit(s);
      FlattenBack(Older(s), Back(s).(synced := |Back(s).entries|));
    }
  }

  lemma FrontQueue<T>(s: State<T>)
    requires s.segs != [] && CursorOk(s)
    ensures Backlog(s) == Drop(s.segs[0].entries, s.read) + Flatten(s.segs[1..])
    ensures s.read < |s.segs[0].entries| ==> Backlog(s) != [] && Backlog(s)[0] == s.segs[0].entries[s.read]
  {
    FlattenSplit(s);
  }

  lemma WriteQueue<T>(s: State<T>, item: T)
    requires CursorOk(s) && Enabled(s, Write(item))
    ensures Flatten(Step(s, Write(item)).segs) == Flatten(s.segs) + [Entry(|s.log|, item)]
    ensures Backlog(Step(s, Write(item))) == Backlog(s) + [Entry(|s.log|, item)]
  {
    FlattenSplit(s);
    FlattenBack(Older(s), Back(s).(entries := Back(s).entries + [Entry(|s.log|, item)]));
    FrontQueue(s);
  }

  lemma RotateQueue<T>(s: State<T>, id: nat)
    requires Enabled(s, Rotate(id))
    ensures Flatten(Step(s, Rotate(id)).segs) == Flatten(s.segs)
  {
    FlattenSynced(s);
    FlattenBack(SyncedSegs(s), Segment(id, [], 0));
  }

  lemma EvictQueue<T>(s: State<T>)
    requires CursorOk(s) && Enabled(s, Evict)
    ensures Backlog(s) == Drop(s.segs[0].entries, s.read) + Backlog(Step(s, Evict))
    ensures SuffixOf(Backlog(Step(s, Evict)), Backlog(s))
  {
    FrontQueue(s);
  }

  lemma CommitQueue<T>(s: State<T>)
    requires CursorOk(s) && s.peeked
    ensures Backlog(s) == [s.segs[0].entries[s.read]] + Backlog(Step(s, Commit))
  {
    FrontQueue(s);
    var es := Flatten(s.segs);
    assert s.read < |es| && es[s.read..] == [es[s.read]] + es[s.read + 1..];
  }

  /** The steps that leave the queue alone. */
  predicate Invisible<T>(op: Op<T>) {
    op.Rotate? || op.Close? || op.Sync? || op.Collect? || op.Peek?
  }

  lemma InvisibleStep<T>(s: State<T>, op: Op<T>)
    requires Enabled(s, op) && CursorOk(s) && Invisible(op)
    ensures Backlog(Step(s, op)) == Backlog(s)
    ensures Step(s, op).log == s.log && Step(s, op).committed == s.committed
    ensures Step(s, op).evicted == s.evicted && Step(s, op).torn == s.torn
  {
    match op
    case Rotate(id) => RotateQueue(s, id);
    case Close => FlattenSynced(s);
    case Sync => FlattenSynced(s);
    case Collect => FrontQueue(s);
    case _ =>
  }

  /**
    What each step does to the queue of undelivered entries: a write pushes at
    the back, an eviction removes a prefix, a commit pops the head if one is
    pending, and everything else but a crash leaves the queue alone.
   */
  lemma QueueStep<T>(s: State<T>, op: Op<T>)
    requires Enabled(s, op) && CursorOk(s) && !op.Crash?
    ensures op.Write? ==> Backlog(Step(s, op)) == Backlog(s) + [Entry(|s.log|, op.item)]
    ensures op.Evict? ==> Backlog(s) == Drop(s.segs[0].entries, s.read) + Backlog(Step(s, op))
    ensures op.Commit? && s.peeked ==> Backlog(s) == [s.segs[0].entries[s.read]] + Backlog(Step(s, op))
    ensures op.Commit? && !s.peeked ==> Step(s, op) == s
    ensures Invisible(op) ==> Backlog(Step(s, op)) == Backlog(s)
  {
    match op
    case Evict => EvictQueue(s);
    case Write(item) => WriteQueue(s, item);
    case Commit => if s.peeked { CommitQueue(s); }
    case _ => InvisibleStep(s, op);
  }

  // ---- every step keeps the invariant -------------------------------------

  lemma KeepsSynced<T>(s: State<T>, op: Op<T>)
    requires Inv(s) && Enabled(s, op)
    ensures SyncedOk(Step(s, op))
  {
    var s' := Step(s, op);
    forall i | 0 <= i < |s'.segs| ensures SyncedAt(s'.segs, s'.open, i) {
      if op.Evict? || op.Collect? {
        assert SyncedAt(s.segs, s.open, i + 1);
      } else if i < |s.segs| {
        assert SyncedAt(s.segs, s.open, i);
      }
    }
  }

  lemma KeepsIds<T>(s: State<T>, op: Op<T>)
    requires Inv(s) && Enabled(s, op)
    ensures IdsAscend(Step(s, op).segs)
  {
    var s' := Step(s, op);
    forall i, j | 0 <= i < j < |s'.segs| ensures IdBelow(s'.segs, i, j) {
      if op.Evict? || op.Collect? {
        assert IdBelow(s.segs, i + 1, j + 1);
      } else if j < |s.segs| {
        assert IdBelow(s.segs, i, j);
        assert s'.segs[i].id == s.segs[i].id && s'.segs[j].id == s.segs[j].id;
      } else {
        assert s'.segs[i].id == s.segs[i].id;
      }
    }
  }

  lemma TaggedSplit<T>(log: seq<T>, a: seq<Entry<T>>, b: seq<Entry<T>>)
    requires Tagged(log, a + b)
    ensures Tagged(log, a) && Tagged(log, b)
  {
    AscendingParts(a, b);
    assert forall e | e in a :: e in a + b;
    assert forall e | e in b :: e in a + b;
  }

  lemma AscendingParts<T>(a: seq<Entry<T>>, b: seq<Entry<T>>)
    requires Ascending(a + b)
    ensures Ascending(a) && Ascending(b)
  {
    forall i, j | 0 <= i < j < |a| ensures TagBelow(a, i, j) {
      assert TagBelow(a + b, i, j);
    }
    forall i, j | 0 <= i < j < |b| ensures TagBelow(b, i, j) {
      assert TagBelow(a + b, |a| + i, |a| + j);
    }
  }

  /** All but the last entry come from the history before the last one. */
  lemma TaggedButLast<T>(log: seq<T>, es: seq<Entry<T>>)
    requires es != [] && Tagged(log, es)
    ensures NamedBy(es[|es| - 1], log) && Tagged(log[..es[|es| - 1].tag], es[..|es| - 1])
  {
    var n := |es| - 1;
    assert es[n] in es && NamedBy(es[n], log);
    assert es[..n] + [es[n]] == es;
    AscendingParts(es[..n], [es[n]]);
    forall e | e in es[..n] ensures NamedBy(e, log[..es[n].tag]) {
      var i :| 0 <= i < n && es[i] == e;
      assert e in es && NamedBy(e, log) && TagBelow(es, i, n);
    }
  }

  lemma TaggedExtend<T>(log: seq<T>, es: seq<Entry<T>>, items: seq<T>)
    requires Tagged(log, es)
    ensures Tagged(log + items, es + Fresh(|log|, items))
  {
    forall e | e in es ensures NamedBy(e, log + items) {
      assert NamedBy(e, log);
    }
    AscendingExtend(es, Fresh(|log|, items), |log|);
  }

  lemma AscendingExtend<T>(a: seq<Entry<T>>, b: seq<Entry<T>>, bound: nat)
    requires Ascending(a) && Ascending(b)
    requires (forall e | e in a :: e.tag < bound) && forall e | e in b :: bound <= e.tag
    ensures Ascending(a + b)
  {
    forall i, j | 0 <= i < j < |a + b| ensures TagBelow(a + b, i, j) {
      if j < |a| {
        assert TagBelow(a, i, j);
      } else if i < |a| {
        assert a[i] in a && b[j - |a|] in b;
      } else {
        assert TagBelow(b, i - |a|, j - |a|);
      }
    }
  }

  /** The entries known to be on the medium: all but the unsynced end of the back segment. */
  function Durable<T>(s: State<T>): seq<Entry<T>> {
    if s.segs == [] then [] else Flatten(Older(s)) + Take(Back(s).entries, Back(s).synced)
  }

  /** The unsynced end of the back segment. */
  function Unsynced<T>(s: State<T>): seq<Entry<T>> {
    if s.segs == [] then [] else Drop(Back(s).entries, Back(s).synced)
  }

  lemma DurableSplit<T>(s: State<T>)
    requires SyncedOk(s)
    ensures Flatten(s.segs) == Durable(s) + Unsynced(s)
  {
    if s.segs != [] {
      FlattenSplit(s);
      assert SyncedAt(s.segs, s.open, |s.segs| - 1);
      assert Back(s).entries == Take(Back(s).entries, Back(s).synced) + Unsynced(s);
    }
  }

  /** After a crash and recovery the live entries are the durable ones followed by whatever else was found. */
  lemma CrashFlatten<T>(s: State<T>, op: Op<T>)
    requires op.Crash? && Enabled(s, op) && SyncedOk(s)
    ensures Flatten(Step(s, op).segs) == Durable(s) + Fresh(|s.log|, op.extra)
  {
    if s.segs != [] {
      var kept, found := Take(Back(s).entries, Back(s).synced), Fresh(|s.log|, op.extra);
      if op.keepBack {
        FlattenBack(Older(s), Segment(Back(s).id, kept + found, op.synced));
        assert Flatten(Older(s)) + (kept + found) == Durable(s) + found;
      } else {
        assert SyncedAt(s.segs, s.open, |s.segs| - 1);
        assert Durable(s) + found == Flatten(Older(s));
      }
    }
  }

  lemma KeepsEntries<T>(s: State<T>, op: Op<T>)
    requires Inv(s) && Enabled(s, op)
    ensures Tagged(Step(s, op).log, Flatten(Step(s, op).segs))
  {
    match op
    case Evict => FlattenSplit(s); TaggedSplit(s.log, s.segs[0].entries, Flatten(s.segs[1..]));
    case Collect => FlattenSplit(s); TaggedSplit(s.log, s.segs[0].entries, Flatten(s.segs[1..]));
    case Rotate(id) => RotateQueue(s, id);
    case Close => FlattenSynced(s);
    case Sync => FlattenSynced(s);
    case Write(item) =>
      WriteQueue(s, item);
      TaggedExtend(s.log, Flatten(s.segs), [item]);
      assert Fresh(|s.log|, [item]) == [Entry(|s.log|, item)];
    case Peek =>
    case Commit =>
    case Crash(_, extra, _) =>
      CrashFlatten(s, op);
      DurableSplit(s);
      TaggedSplit(s.log, Durable(s), Unsynced(s));
      TaggedExtend(s.log, Durable(s), extra);
  }

  lemma KeepsCommitted<T>(s: State<T>, op: Op<T>)
    requires Inv(s) && Enabled(s, op)
    ensures forall e | e in ReadPart(Step(s, op)) :: e in Step(s, op).committed
  {
    var s' := Step(s, op);
    if op.Commit? && s.peeked {
      assert ReadPart(s') == ReadPart(s) + [s.segs[0].entries[s.read]];
    } else if op.Evict? || op.Collect? || op.Crash? {
      assert ReadPart(s') == [];
    } else {
      assert ReadPart(s') == ReadPart(s);
    }
  }

  lemma CrashAccounted<T>(s: State<T>, op: Op<T>, t: nat)
    requires Inv(s) && Enabled(s, op) && op.Crash? && t < |Step(s, op).log|
    ensures Accounted(Step(s, op), t)
  {
    var s' := Step(s, op);
    CrashFlatten(s, op);
    DurableSplit(s);
    if t < |s.log| {
      assert Accounted(s, t);
    } else {
      assert Entry(t, s'.log[t]) == Fresh(|s.log|, op.extra)[t - |s.log|];
    }
  }

  lemma WriteAccounted<T>(s: State<T>, item: T, t: nat)
    requires Inv(s) && Enabled(s, Write(item)) && t <= |s.log|
    ensures Accounted(Step(s, Write(item)), t)
  {
    WriteQueue(s, item);
    if t < |s.log| {
      assert Accounted(s, t);
    }
  }

  /** Entries that leave the queue are committed or evicted. */
  lemma PopAccounted<T>(s: State<T>, op: Op<T>, t: nat)
    requires Inv(s) && Enabled(s, op) && (op.Evict? || (op.Commit? && s.peeked)) && t < |s.log|
    ensures Accounted(Step(s, op), t)
  {
    if op.Evict? {
      EvictQueue(s);
    } else {
      CommitQueue(s);
    }
    assert Accounted(s, t);
  }

  lemma KeepsAccounted<T>(s: State<T>, op: Op<T>, t: nat)
    requires Inv(s) && Enabled(s, op) && t < |Step(s, op).log|
    ensures Accounted(Step(s, op), t)
  {
    match op
    case Crash(_, _, _) => CrashAccounted(s, op, t);
    case Write(item) => WriteAccounted(s, item, t);
    case Evict => PopAccounted(s, op, t);
    case Commit =>
      assert Accounted(s, t);
      if s.peeked { PopAccounted(s, op, t); }
    case _ =>
      InvisibleStep(s, op);
      assert Accounted(s, t);
  }

  /** Every step, a crash at any moment included, keeps the state invariant. */
  lemma StepKeepsInv<T>(s: State<T>, op: Op<T>)
    requires Inv(s) && Enabled(s, op)
    ensures Inv(Step(s, op))
  {
    KeepsSynced(s, op);
    KeepsIds(s, op);
    KeepsEntries(s, op);
    KeepsCommitted(s, op);
    forall t | 0 <= t < |Step(s, op).log| ensures Accounted(Step(s, op), t) {
      KeepsAccounted(s, op, t);
    }
  }

  // ---- whole runs ---------------------------------------------------------

  predicate Legal<T>(s: State<T>, ops: seq<Op<T>>)
    decreases |ops|
  {
    ops == [] || (Enabled(s, ops[0]) && Legal(Step(s, ops[0]), ops[1..]))
  }

  function Run<T>(s: State<T>, ops: seq<Op<T>>): State<T>
    requires Legal(s, ops)
    decreases |ops|
  {
    if ops == [] then s else Run(Step(s, ops[0]), ops[1..])
  }

  lemma FirstOfConcat<A>(a: seq<A>, b: seq<A>)
    requires a != []
    ensures (a + b)[0] == a[0] && (a + b)[1..] == a[1..] + b
  {
  }

  lemma {:induction false} RunConcat<T>(s: State<T>, a: seq<Op<T>>, b: seq<Op<T>>)
    requires Legal(s, a) && Legal(Run(s, a), b)
    ensures Legal(s, a + b) && Run(s, a + b) == Run(Run(s, a), b)
    decreases |a|
  {
    if a == [] {
      assert a + b == b;
    } else {
      FirstOfConcat(a, b);
      RunConcat(Step(s, a[0]), a[1..], b);
    }
  }

  /** A run can be cut anywhere. */
  lemma {:induction false} RunSplit<T>(s: State<T>, a: seq<Op<T>>, b: seq<Op<T>>)
    requires Legal(s, a + b)
    ensures Legal(s, a) && Legal(Run(s, a), b) && Run(s, a + b) == Run(Run(s, a), b)
    decreases |a|
  {
    if a == [] {
      assert a + b == b;
    } else {
      assert (a + b)[0] == a[0] && (a + b)[1..] == a[1..] + b;
      RunSplit(Step(s, a[0]), a[1..], b);
    }
  }

  lemma RunOne<T>(s: State<T>, op: Op<T>)
    requires Enabled(s, op)
    ensures Legal(s, [op]) && Run(s, [op]) == Step(s, op)
  {
    assert [op][1..] == [];
  }

  /** `ops` leads from `s` to `s'`. */
  ghost predicate Reaches<T>(s: State<T>, ops: seq<Op<T>>, s': State<T>) {
    Legal(s, ops) && Run(s, ops) == s'
  }

  lemma ReachesStep<T>(s: State<T>, ops: seq<Op<T>>, s': State<T>, op: Op<T>)
    requires Reaches(s, ops, s') && Enabled(s', op)
    ensures Reaches(s, ops + [op], Step(s', op))
  {
    RunOne(s', op);
    RunConcat(s, ops, [op]);
  }

  lemma {:induction false} RunKeepsInv<T>(s: State<T>, ops: seq<Op<T>>)
    requires Inv(s) && Legal(s, ops)
    ensures Inv(Run(s, ops))
    decreases |ops|
  {
    if ops == [] {
    } else {
      StepKeepsInv(s, ops[0]);
      RunKeepsInv(Step(s, ops[0]), ops[1..]);
    }
  }

  lemma InitialInv<T>()
    ensures Inv(Initial<T>()) && Delivery(Initial<T>())
  {
    var s := Initial<T>();
    assert s.committed + Backlog(s) == [];
    assert Fresh(0, s.log) == [];
  }

  predicate CrashFree<T>(ops: seq<Op<T>>) {
    forall i | 0 <= i < |ops| :: !ops[i].Crash?
  }

  /**
    Delivery without crashes: the committed entries followed by the queue are in
    history order without repetition, and the history is exactly partitioned into
    what was committed, what an eviction took uncommitted, and the queue. The
    dropped-batches counter also counts entries that were committed before their
    segment was evicted, so it only bounds the loss.
   */
  ghost predicate Delivery<T>(s: State<T>) {
    && s.torn == []
    && |s.evicted| <= s.dropped
    && Ascending(s.committed + Backlog(s))
    && multiset(s.committed) + multiset(s.evicted) + multiset(Backlog(s)) == multiset(Fresh(0, s.log))
  }

  lemma InFresh<T>(e: Entry<T>, log: seq<T>)
    requires e in multiset(Fresh(0, log))
    ensures e.tag < |log|
  {
    assert e in Fresh(0, log);
  }

  lemma WriteKeepsDelivery<T>(s: State<T>, item: T)
    requires Inv(s) && Delivery(s) && Enabled(s, Write(item))
    ensures Delivery(Step(s, Write(item)))
  {
    WriteQueue(s, item);
    var s', e := Step(s, Write(item)), Entry(|s.log|, item);
    var before := s.committed + Backlog(s);
    assert s'.committed + Backlog(s') == before + [e];
    forall x | x in before ensures x.tag < |s.log| {
      assert x in multiset(s.committed) + multiset(Backlog(s));
      InFresh(x, s.log);
    }
    AscendingExtend(before, [e], |s.log|);
    assert Fresh(0, s'.log) == Fresh(0, s.log) + [e];
  }

  /** Removing a stretch from the middle keeps the order. */
  lemma AscendingWithout<T>(c: seq<Entry<T>>, gone: seq<Entry<T>>, b: seq<Entry<T>>)
    requires Ascending(c + (gone + b))
    ensures Ascending(c + b)
  {
    var whole := c + (gone + b);
    forall i, j | 0 <= i < j < |c + b| ensures TagBelow(c + b, i, j) {
      var i' := if i < |c| then i else i + |gone|;
      var j' := if j < |c| then j else j + |gone|;
      assert TagBelow(whole, i', j');
    }
  }

  lemma EvictKeepsDelivery<T>(s: State<T>)
    requires Inv(s) && Delivery(s) && Enabled(s, Evict)
    ensures Delivery(Step(s, Evict))
  {
    QueueStep(s, Evict);
    AscendingWithout(s.committed, Drop(s.segs[0].entries, s.read), Backlog(Step(s, Evict)));
  }

  lemma CommitKeepsDelivery<T>(s: State<T>)
    requires Inv(s) && Delivery(s) && s.peeked
    ensures Delivery(Step(s, Commit))
  {
    CommitQueue(s);
    var s' := Step(s, Commit);
    assert s'.committed + Backlog(s') == s.committed + Backlog(s);
  }

  lemma StepKeepsDelivery<T>(s: State<T>, op: Op<T>)
    requires Inv(s) && Delivery(s) && Enabled(s, op) && !op.Crash?
    ensures Delivery(Step(s, op))
  {
    match op
    case Write(item) => WriteKeepsDelivery(s, item);
    case Evict => EvictKeepsDelivery(s);
    case Commit => if s.peeked { CommitKeepsDelivery(s); }
    case _ => InvisibleStep(s, op);
  }

  /**
    In every crash-free run, over every interleaving of appends, evictions and
    the separate peek and commit steps, committed entries are an in-order,
    duplicate-free subsequence of the history, and every entry they skip was
    still uncommitted in a segment that the cap evicted, or is still queued.
   */
  lemma {:induction false} CrashFreeDelivery<T>(s: State<T>, ops: seq<Op<T>>)
    requires Inv(s) && Delivery(s) && Legal(s, ops) && CrashFree(ops)
    ensures Inv(Run(s, ops)) && Delivery(Run(s, ops))
    decreases |ops|
  {
    if ops == [] {
    } else {
      StepKeepsInv(s, ops[0]);
      StepKeepsDelivery(s, ops[0]);
      CrashFreeDelivery(Step(s, ops[0]), ops[1..]);
    }
  }

  // ---- peek, then commit, with the writer in between ----------------------

  /** What the writer thread does while the drainer is sending. */
  predicate WriterOp<T>(op: Op<T>) {
    op.Evict? || op.Rotate? || op.Close? || op.Write? || op.Sync?
  }

  predicate WriterOps<T>(ops: seq<Op<T>>) {
    forall i | 0 <= i < |ops| :: WriterOp(ops[i])
  }

  predicate NoEviction<T>(ops: seq<Op<T>>) {
    forall i | 0 <= i < |ops| :: !ops[i].Evict?
  }

  /** `e` was peeked and is still the head of the queue with its advance pending, or was evicted. */
  ghost predicate PendingOn<T>(s: State<T>, e: Entry<T>) {
    if s.peeked then Backlog(s) != [] && Backlog(s)[0] == e else e in s.evicted
  }

  lemma PendingStep<T>(s: State<T>, e: Entry<T>, op: Op<T>)
    requires Inv(s) && Enabled(s, op) && WriterOp(op) && PendingOn(s, e)
    ensures PendingOn(Step(s, op), e) && Step(s, op).committed == s.committed
    ensures Step(s, op).peeked <==> s.peeked && !op.Evict?
  {
    QueueStep(s, op);
    if s.peeked {
      FrontQueue(s);
    }
  }

  lemma {:induction false} PendingNamesHead<T>(s: State<T>, e: Entry<T>, ops: seq<Op<T>>)
    requires Inv(s) && Legal(s, ops) && WriterOps(ops) && PendingOn(s, e)
    ensures var s' := Run(s, ops);
            Inv(s') && s'.committed == s.committed && PendingOn(s', e) && (s'.peeked <==> s.peeked && NoEviction(ops))
    decreases |ops|
  {
    if ops == [] {
    } else {
      assert WriterOp(ops[0]);
      StepKeepsInv(s, ops[0]);
      PendingStep(s, e, ops[0]);
      assert WriterOps(ops[1..]);
      PendingNamesHead(Step(s, ops[0]), e, ops[1..]);
      assert NoEviction(ops) <==> !ops[0].Evict? && NoEviction(ops[1..]) by {
        assert ops == [ops[0]] + ops[1..];
      }
    }
  }

  /**
    The pending advance carries no segment number, yet a commit never misses:
    after a peek of the head `e` and any writer activity, the commit pops exactly
    `e`, or does nothing; it does nothing exactly when the writer evicted a
    segment in between, and then `e` is among the evicted entries.
   */
  lemma CommitTakesPeeked<T>(s: State<T>, between: seq<Op<T>>)
    requires Inv(s) && Enabled(s, Peek) && Legal(Step(s, Peek), between) && WriterOps(between)
    ensures Backlog(s) != []
    ensures Enabled(Run(Step(s, Peek), between), Commit)
    ensures var e := Backlog(s)[0];
            var s1 := Run(Step(s, Peek), between);
            var s2 := Step(s1, Commit);
            && (s1.peeked <==> NoEviction(between))
            && (s1.peeked ==> s2.committed == s.committed + [e] && Backlog(s1) == [e] + Backlog(s2))
            && (!s1.peeked ==> s2 == s1 && e in s2.evicted)
  {
    StepKeepsInv(s, Peek);
    FrontQueue(s);
    PendingNamesHead(Step(s, Peek), Backlog(s)[0], between);
    var s1 := Run(Step(s, Peek), between);
    if s1.peeked {
      CommitQueue(s1);
    }
  }

  // ---- the drainer never goes back ------------------------------------------

  lemma BacklogAscends<T>(s: State<T>)
    requires Inv(s)
    ensures Ascending(Backlog(s))
  {
    var es := Flatten(s.segs);
    if s.read <= |es| {
      assert es[..s.read] + es[s.read..] == es;
      AscendingParts(es[..s.read], es[s.read..]);
    }
  }

  /** All that is queued comes after `e`. */
  ghost predicate Past<T>(s: State<T>, e: Entry<T>) {
    forall x | x in Backlog(s) :: e.tag < x.tag
  }

  lemma HeadIsLeast<T>(es: seq<Entry<T>>)
    requires es != [] && Ascending(es)
    ensures forall x | x in es[1..] :: es[0].tag < x.tag
  {
    forall x | x in es[1..] ensures es[0].tag < x.tag {
      var i :| 1 <= i < |es| && es[i] == x;
      assert TagBelow(es, 0, i);
    }
  }

  lemma QueuedIsNamed<T>(s: State<T>, e: Entry<T>)
    requires Inv(s) && e in Backlog(s)
    ensures NamedBy(e, s.log)
  {
    assert e in Flatten(s.segs);
  }

  lemma PastStep<T>(s: State<T>, e: Entry<T>, op: Op<T>)
    requires Inv(s) && Enabled(s, op) && WriterOp(op) && PendingOn(s, e) && e.tag < |s.log|
    requires s.peeked || Past(s, e)
    ensures Step(s, op).peeked || Past(Step(s, op), e)
  {
    QueueStep(s, op);
    if op.Evict? && s.peeked {
      BacklogAscends(s);
      HeadIsLeast(Backlog(s));
      FrontQueue(s);
      EvictQueue(s);
      BehindHead(Backlog(s), Drop(s.segs[0].entries, s.read), Backlog(Step(s, op)));
    }
  }

  lemma BehindHead<A>(xs: seq<A>, a: seq<A>, b: seq<A>)
    requires xs == a + b && a != []
    ensures forall x | x in b :: x in xs[1..]
  {
    forall x | x in b ensures x in xs[1..] {
      var i :| 0 <= i < |b| && b[i] == x;
      assert xs[1..][|a| - 1 + i] == x;
    }
  }

  /** While the writer acts, the entry peeked stays the next one to commit, or all that is left comes after it. */
  lemma {:induction false} PastRun<T>(s: State<T>, e: Entry<T>, ops: seq<Op<T>>)
    requires Inv(s) && Legal(s, ops) && WriterOps(ops) && PendingOn(s, e) && e.tag < |s.log|
    requires s.peeked || Past(s, e)
    ensures Run(s, ops).peeked || Past(Run(s, ops), e)
    decreases |ops|
  {
    if ops == [] {
    } else {
      assert forall i | 0 <= i < |ops[1..]| :: ops[1..][i] == ops[i + 1];
      StepKeepsInv(s, ops[0]);
      PendingStep(s, e, ops[0]);
      PastStep(s, e, ops[0]);
      LogGrows(s, ops[0]);
      PastRun(Step(s, ops[0]), e, ops[1..]);
    }
  }

  lemma LogGrows<T>(s: State<T>, op: Op<T>)
    requires Enabled(s, op)
    ensures |s.log| <= |Step(s, op).log|
  {
  }

  /** After the commit everything left comes after the entry that was peeked. */
  lemma CommitPast<T>(s: State<T>, e: Entry<T>)
    requires Inv(s) && PendingOn(s, e) && (s.peeked || Past(s, e)) && Enabled(s, Commit)
    ensures Past(Step(s, Commit), e)
  {
    if s.peeked {
      BacklogAscends(s);
      HeadIsLeast(Backlog(s));
      CommitQueue(s);
    }
  }


  // ---- crashes ------------------------------------------------------------

  predicate AllSynced<T>(s: State<T>) {
    Unsynced(s) == []
  }

  /** A step of the writer leaves at most one entry more off the medium, and that is one it wrote. */
  lemma UnsyncedStep<T>(s: State<T>, op: Op<T>)
    requires Inv(s) && Enabled(s, op) && WriterOp(op)
    ensures |Unsynced(Step(s, op))| + |s.log| <= |Unsynced(s)| + |Step(s, op).log|
    ensures Step(s, op).torn == s.torn
  {
    if s.segs != [] {
      assert SyncedAt(s.segs, s.open, |s.segs| - 1);
    }
  }

  lemma {:induction false} UnsyncedRun<T>(s: State<T>, ops: seq<Op<T>>)
    requires Inv(s) && Legal(s, ops) && WriterOps(ops)
    ensures |Unsynced(Run(s, ops))| + |s.log| <= |Unsynced(s)| + |Run(s, ops).log|
    ensures Run(s, ops).torn == s.torn
    decreases |ops|
  {
    if ops == [] {
    } else {
      UnsyncedStep(s, ops[0]);
      StepKeepsInv(s, ops[0]);
      assert forall i | 0 <= i < |ops| - 1 :: ops[1..][i] == ops[i + 1];
      UnsyncedRun(Step(s, ops[0]), ops[1..]);
    }
  }

  /** A crash takes at most what is not on the medium. */
  lemma CrashTakes<T>(s: State<T>, op: Op<T>)
    requires Enabled(s, op) && op.Crash?
    ensures |Step(s, op).torn| <= |s.torn| + |Unsynced(s)|
  {
  }

  /** The counter of dropped batches counts every evicted entry, and beyond those only entries already committed. */
  predicate DroppedOk<T>(s: State<T>) {
    |s.evicted| <= s.dropped && s.dropped + s.read <= |s.evicted| + |s.committed|
  }

  lemma {:induction false} DroppedCounts<T>(s: State<T>, ops: seq<Op<T>>)
    requires Inv(s) && DroppedOk(s) && Legal(s, ops) && CrashFree(ops)
    ensures DroppedOk(Run(s, ops))
    decreases |ops|
  {
    if ops == [] {
    } else {
      StepKeepsInv(s, ops[0]);
      assert forall i | 0 <= i < |ops| - 1 :: ops[1..][i] == ops[i + 1];
      DroppedCounts(Step(s, ops[0]), ops[1..]);
    }
  }

  /** The committed entries that a crash makes pending again. */
  function Replayed<T>(s: State<T>): seq<Entry<T>> {
    Take(Durable(s), s.read)
  }

  /** The undelivered entries that are on the medium. */
  function DurableBacklog<T>(s: State<T>): seq<Entry<T>> {
    Drop(Durable(s), s.read)
  }

  lemma ReplayedWasCommitted<T>(s: State<T>)
    requires Inv(s)
    ensures forall e | e in Replayed(s) :: e in s.committed && e in ReadPart(s)
  {
    DurableSplit(s);
    if s.segs != [] {
      FlattenSplit(s);
      PrefixOfPart(Durable(s), Unsynced(s), s.segs[0].entries, Flatten(s.segs[1..]), s.read);
    }
  }

  /** Cutting two halves of the same sequence at a point inside the first part of one of them. */
  lemma PrefixOfPart<A>(a: seq<A>, b: seq<A>, c: seq<A>, d: seq<A>, n: nat)
    requires a + b == c + d && n <= |c|
    ensures forall x | x in Take(a, n) :: x in Take(c, n)
  {
    forall x | x in Take(a, n) ensures x in Take(c, n) {
      var i :| 0 <= i < |Take(a, n)| && Take(a, n)[i] == x;
      assert (a + b)[i] == a[i] && (c + d)[i] == c[i];
    }
  }

  lemma DropConcat<A>(a: seq<A>, b: seq<A>, n: nat)
    ensures Drop(a + b, n) == Drop(a, n) + Drop(b, if n <= |a| then 0 else n - |a|)
    ensures a == Take(a, n) + Drop(a, n)
  {
  }

  /** The undelivered entries that are not on the medium. */
  function UnsyncedBacklog<T>(s: State<T>): seq<Entry<T>> {
    Drop(Unsynced(s), if s.read <= |Durable(s)| then 0 else s.read - |Durable(s)|)
  }

  /**
    Crash at any reachable moment: the recovered queue is the synced undelivered
    entries in order, preceded only by already committed entries of the front
    segment and followed only by what the crash left beyond the synced data.
    What it lacks of the queue is an unsynced end, which is empty when everything
    was synced.
   */
  lemma CrashRecovers<T>(s: State<T>, op: Op<T>)
    requires Inv(s) && op.Crash? && Enabled(s, op)
    ensures Backlog(Step(s, op)) == Replayed(s) + DurableBacklog(s) + Fresh(|s.log|, op.extra)
    ensures forall e | e in Replayed(s) :: e in s.committed && e in ReadPart(s)
    ensures Backlog(s) == DurableBacklog(s) + UnsyncedBacklog(s)
    ensures AllSynced(s) ==> DurableBacklog(s) == Backlog(s) && Step(s, op).torn == s.torn
  {
    ReplayedWasCommitted(s);
    DurableSplit(s);
    DropConcat(Durable(s), Unsynced(s), s.read);
    CrashFlatten(s, op);
  }

  /** Every crash of the run strikes when everything written has been synced. */
  predicate CrashesWhenSynced<T>(s: State<T>, ops: seq<Op<T>>)
    requires Legal(s, ops)
    decreases |ops|
  {
    ops == [] || ((ops[0].Crash? ==> AllSynced(s)) && CrashesWhenSynced(Step(s, ops[0]), ops[1..]))
  }

  ghost predicate KeptOrEvicted<T>(s: State<T>, t: nat)
    requires t < |s.log|
  {
    var e := Entry(t, s.log[t]);
    e in s.committed || e in s.evicted || e in Backlog(s)
  }

  lemma SyncedStepTearsNothing<T>(s: State<T>, op: Op<T>)
    requires Inv(s) && Enabled(s, op) && (op.Crash? ==> AllSynced(s))
    ensures Step(s, op).torn == s.torn
  {
  }

  /**
    At-least-once over whole runs: if crashes strike only while everything is
    synced, then however many there are, each element ever written was committed,
    or evicted at the cap, or is still queued.
   */
  lemma {:induction false} NothingLostButEvicted<T>(s: State<T>, ops: seq<Op<T>>)
    requires Inv(s) && s.torn == [] && Legal(s, ops) && CrashesWhenSynced(s, ops)
    ensures var s' := Run(s, ops);
            Inv(s') && s'.torn == [] && forall t | 0 <= t < |s'.log| :: KeptOrEvicted(s', t)
    decreases |ops|
  {
    if ops == [] {
      forall t | 0 <= t < |s.log| ensures KeptOrEvicted(s, t) {
        assert Accounted(s, t);
      }
    } else {
      StepKeepsInv(s, ops[0]);
      SyncedStepTearsNothing(s, ops[0]);
      NothingLostButEvicted(Step(s, ops[0]), ops[1..]);
    }
  }
}
