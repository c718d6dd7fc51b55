/**
  The replay drainer against the writer thread, on the store object: peek, send
  and commit are separate critical sections, and any number of writer turns may
  fall between them.

  A predicate compared with `true` is handled by the verifier as one fact, not as its
  conjuncts.
 */
module WalRuns {
  import opened Codec
  import opened Options
  import opened Layout
  import opened StoreState
  import opened WalStore
  import opened CrashRecovery
  import WalWriter
  import Spool

  /**
    Whatever sequence of calls led to it, a store that never crashed has delivered
    in order and without repetition, and everything ever written is committed,
    evicted uncommitted, or still queued.
   */
  lemma DeliveredInOrder(crc: Checksum, c: Store, m: Model)
    requires Sound(crc, c, m) && Spool.CrashFree(m.trace)
    ensures Spool.Delivery(m.spool)
  {
    Spool.InitialInv<Frame>();
    Spool.CrashFreeDelivery(Spool.Initial(), m.trace);
  }

  /** A store whose crashes all found everything synced has lost nothing but what the cap evicted. */
  lemma LostOnlyToTheCap(crc: Checksum, c: Store, m: Model)
    requires Sound(crc, c, m) && Spool.CrashesWhenSynced(Spool.Initial(), m.trace)
    ensures forall t | 0 <= t < |m.spool.log| :: Spool.KeptOrEvicted(m.spool, t)
  {
    Spool.InitialInv<Frame>();
    Spool.NothingLostButEvicted(Spool.Initial(), m.trace);
  }

  // ---- stretches without a crash ------------------------------------------

  /** From `m` to `m'` there was no crash. */
  ghost predicate NoCrash(m: Model, m': Model) {
    (m.trace <= m'.trace && Spool.CrashFree(Since(m, m'))) == true
  }

  lemma NoCrashTwice(m: Model, m': Model, m'': Model)
    requires NoCrash(m, m') && NoCrash(m', m'')
    ensures NoCrash(m, m'')
  {
    assert Since(m, m'') == Since(m, m') + Since(m', m'');
  }

  lemma WriterNoCrash(m: Model, m': Model)
    requires OnlyWriter(m, m')
    ensures NoCrash(m, m')
  {
  }

  lemma DrainerNoCrash(m: Model, m': Model)
    requires OnlyDrainer(m, m')
    ensures NoCrash(m, m')
  {
  }

  lemma CommitNoCrash(m: Model, m': Model, ops: seq<Op>)
    requires m'.trace == m.trace + ops && (ops == [] || ops == [Spool.Commit])
    ensures NoCrash(m, m')
  {
    assert Since(m, m') == ops;
  }

  lemma StaysCrashFree(m: Model, m': Model)
    requires NoCrash(m, m') && Spool.CrashFree(m.trace)
    ensures Spool.CrashFree(m'.trace)
  {
    assert m'.trace == m.trace + Since(m, m');
  }

  /** Any number of writer turns. */
  method WriterTurns(w: WalInner, turns: seq<seq<WalWriter.Request>>, fsyncFrames: nat)
    requires w.Valid() && fsyncFrames >= 1
    requires forall i | 0 <= i < |turns| :: turns[i] != [] && WalWriter.AllAcceptable(turns[i])
    modifies w
    ensures w.Valid() && OnlyWriter(old(w.model), w.model)
    ensures turns != [] || Quiet(old(w.st), old(w.model)) ==> Quiet(w.st, w.model)
    ensures TurnsStayWithin(w.cfg, old(w.st), w.st, turns)
    ensures Numbered(old(w.st), old(w.model), w.st, w.model, RequestCount(turns))
  {
    WriterNoStep(w.model, w.model);
    for i := 0 to |turns|
      invariant w.Valid() && OnlyWriter(old(w.model), w.model)
      invariant Counted(turns, i, old(w.st), old(w.model), w.st, w.model)
      invariant TurnsStayWithin(w.cfg, old(w.st), w.st, turns)
      invariant i > 0 || Quiet(old(w.st), old(w.model)) ==> Quiet(w.st, w.model)
    {
      ghost var before, was := w.model, w.st;
      ghost var written := WalWriter.GroupCommit(w, turns[i], fsyncFrames);
      WriterChain(old(w.model), before, w.model);
      TurnsNext(w.cfg, old(w.st), was, w.st, turns, i);
      CountedNext(turns, i, old(w.st), old(w.model), was, before, w.st, w.model);
    }
    CountedAll(turns, old(w.st), old(w.model), w.st, w.model);
  }

  /** The batch numbers of the first `i` turns. */
  ghost predicate Counted(turns: seq<seq<WalWriter.Request>>, i: nat, c: Store, m: Model, c': Store, m': Model)
    requires i <= |turns|
  {
    Numbered(c, m, c', m', RequestCount(turns[..i])) == true
  }

  lemma CountedNext(turns: seq<seq<WalWriter.Request>>, i: nat,
                    c: Store, m: Model, c': Store, m': Model, c'': Store, m'': Model)
    requires i < |turns| && Counted(turns, i, c, m, c', m') && Numbered(c', m', c'', m'', |turns[i]|)
    ensures Counted(turns, i + 1, c, m, c'', m'')
  {
    assert turns[..i + 1][..i] == turns[..i];
    NumberedTwice(c, m, c', m', c'', m'', RequestCount(turns[..i]), |turns[i]|);
  }

  lemma CountedAll(turns: seq<seq<WalWriter.Request>>, c: Store, m: Model, c': Store, m': Model)
    requires Counted(turns, |turns|, c, m, c', m')
    ensures Numbered(c, m, c', m', RequestCount(turns))
  {
    assert turns[..|turns|] == turns;
  }

  function RequestCount(turns: seq<seq<WalWriter.Request>>): nat {
    if turns == [] then 0 else RequestCount(turns[..|turns| - 1]) + |turns[|turns| - 1]|
  }

  ghost predicate AdmitsTurns(cfg: Config, bound: nat, turns: seq<seq<WalWriter.Request>>) {
    forall i | 0 <= i < |turns| :: WalWriter.AdmitsAll(cfg, bound, turns[i])
  }

  /** The disk stays within any bound that admits all of the frames written. */
  ghost predicate TurnsStayWithin(cfg: Config, c: Store, c': Store, turns: seq<seq<WalWriter.Request>>) {
    forall bound: nat | DiskWithin(cfg, c, bound) && AdmitsTurns(cfg, bound, turns) :: DiskWithin(cfg, c', bound)
  }

  lemma TurnsNext(cfg: Config, c: Store, c': Store, c'': Store, turns: seq<seq<WalWriter.Request>>, i: nat)
    requires i < |turns| && TurnsStayWithin(cfg, c, c', turns) && WalWriter.TurnStaysWithin(cfg, c', c'', turns[i])
    ensures TurnsStayWithin(cfg, c, c'', turns)
  {
    forall bound: nat | DiskWithin(cfg, c, bound) && AdmitsTurns(cfg, bound, turns)
      ensures DiskWithin(cfg, c'', bound)
    {
      assert DiskWithin(cfg, c', bound);
    }
  }

  lemma ReplayStays(cfg: Config, c: Store, c1: Store, c2: Store, c3: Store,
                    first: seq<seq<WalWriter.Request>>, second: seq<seq<WalWriter.Request>>)
    requires Shrinks(cfg, c, c1) && TurnsStayWithin(cfg, c1, c2, first) && TurnsStayWithin(cfg, c2, c3, second)
    ensures TurnsStayWithin(cfg, c, c3, first + second)
  {
    forall bound: nat | DiskWithin(cfg, c, bound) && AdmitsTurns(cfg, bound, first + second)
      ensures DiskWithin(cfg, c3, bound)
    {
      assert forall i | 0 <= i < |first| :: (first + second)[i] == first[i];
      assert forall i | 0 <= i < |second| :: (first + second)[|first| + i] == second[i];
      assert AdmitsTurns(cfg, bound, first) && AdmitsTurns(cfg, bound, second);
      assert DiskWithin(cfg, c1, bound) && DiskWithin(cfg, c2, bound);
    }
  }

  datatype ReplayOutcome = Sent(frame: Frame) | Empty | NoCapacity

  /**
    One replay: peek, try to send, commit, with writer turns before the send and
    before the commit. What is sent is the head of the queue at the peek. The
    commit pops exactly that entry, or, if the cap evicted it in the meantime,
    nothing; it never pops anything else. Without a send nothing is popped.
   */
  method ReplayOne(w: WalInner, hasRoom: bool, errorAt: Option<nat>, interrupts: nat,
                   beforeSend: seq<seq<WalWriter.Request>>, beforeCommit: seq<seq<WalWriter.Request>>, fsyncFrames: nat)
    returns (r: ReplayOutcome)
    requires w.Valid() && fsyncFrames >= 1
    requires forall i | 0 <= i < |beforeSend| :: beforeSend[i] != [] && WalWriter.AllAcceptable(beforeSend[i])
    requires forall i | 0 <= i < |beforeCommit| :: beforeCommit[i] != [] && WalWriter.AllAcceptable(beforeCommit[i])
    modifies w
    ensures w.Valid()
    ensures r.Sent? ==>
              && old(w.Backlog()) != [] && r.frame == old(w.Backlog())[0].item
              && var e := old(w.Backlog())[0];
              || w.model.spool.committed == old(w.model.spool.committed) + [e]
              || (w.model.spool.committed == old(w.model.spool.committed) && e in w.model.spool.evicted)
    ensures r.Sent? ==> Spool.Past(w.model.spool, old(w.Backlog())[0])
    ensures !r.Sent? ==> w.model.spool.committed == old(w.model.spool.committed)
    ensures r.NoCapacity? ==> !hasRoom
    ensures r.Empty? && errorAt == None ==> old(w.Queue()) == [] && w.Queue() == []
    ensures TurnsStayWithin(w.cfg, old(w.st), w.st, beforeSend + beforeCommit)
    ensures NoCrash(old(w.model), w.model) && (Quiet(old(w.st), old(w.model)) ==> Quiet(w.st, w.model))
  {
    ghost var was, start := w.st, w.model;
    var peeked := w.PeekNext(errorAt, interrupts);
    ghost var m1, st1 := w.model, w.st;
    DrainerCommitsNothing(w.crc, was, start, st1, m1);
    DrainerNoCrash(start, m1);
    if !peeked.Found? {
      ReplayStays(w.cfg, was, st1, st1, st1, beforeSend, beforeCommit);
      return Empty;
    }
    WriterTurns(w, beforeSend, fsyncFrames);
    ghost var m2, st2 := w.model, w.st;
    WriterNoCrash(m1, m2);
    NoCrashTwice(start, m1, m2);
    if !hasRoom {
      ReplayStays(w.cfg, was, st1, st2, st2, beforeSend, beforeCommit);
      PendingThrough(w.crc, st1, m1, w.st, w.model);
      return NoCapacity;
    }
    WriterTurns(w, beforeCommit, fsyncFrames);
    WriterChain(m1, m2, w.model);
    ghost var m3 := w.model;
    WriterNoCrash(m1, m3);
    NoCrashTwice(start, m1, m3);
    ReplayStays(w.cfg, was, st1, st2, w.st, beforeSend, beforeCommit);
    PendingThrough(w.crc, st1, m1, w.st, w.model);
    if w.model.spool.peeked {
      Spool.CommitQueue(w.model.spool);
    }
    Spool.CommitPast(w.model.spool, Spool.Backlog(m1.spool)[0]);
    w.CommitPending();
    CommitNoCrash(m3, w.model, if m3.spool.peeked then [Spool.Commit] else []);
    NoCrashTwice(start, m3, w.model);
    return Sent(peeked.frame);
  }

  /** One round of the drainer: what the writer does meanwhile, and whether the retry queue has room. */
  datatype Round = Round(
    hasRoom: bool,
    errorAt: Option<nat>,
    beforeSend: seq<seq<WalWriter.Request>>,
    beforeCommit: seq<seq<WalWriter.Request>>)

  ghost predicate AcceptableTurns(turns: seq<seq<WalWriter.Request>>) {
    forall i | 0 <= i < |turns| :: turns[i] != [] && WalWriter.AllAcceptable(turns[i])
  }

  ghost predicate AcceptableRound(r: Round) {
    AcceptableTurns(r.beforeSend) && AcceptableTurns(r.beforeCommit)
  }

  /** The chosen entries. */
  function Chosen(es: seq<Spool.Entry<Frame>>, flags: seq<bool>): seq<Spool.Entry<Frame>>
    requires |es| == |flags|
  {
    if es == [] then []
    else
      var n := |es| - 1;
      Chosen(es[..n], flags[..n]) + if flags[n] then [es[n]] else []
  }

  /**
    What a drainer has handed on since `s`: entries in log order. Those marked were
    committed, in that order; the others were evicted by the cap while being sent.
   */
  ghost predicate HandedOn(s: Spool.State<Frame>, s': Spool.State<Frame>, es: seq<Spool.Entry<Frame>>,
                           popped: seq<bool>)
    requires |es| == |popped|
  {
    (&& Spool.Ascending(es)
     && s'.committed == s.committed + Chosen(es, popped)
     && forall i | 0 <= i < |es| :: popped[i] || es[i] in s'.evicted) == true
  }

  /** And all that is queued comes after them. */
  ghost predicate MovedPast(s: Spool.State<Frame>, es: seq<Spool.Entry<Frame>>) {
    es != [] ==> Spool.Past(s, es[|es| - 1])
  }

  lemma HandedNoMore(s: Spool.State<Frame>, s': Spool.State<Frame>, s'': Spool.State<Frame>,
                     es: seq<Spool.Entry<Frame>>, popped: seq<bool>)
    requires |es| == |popped| && HandedOn(s, s', es, popped) && s''.committed == s'.committed
    requires forall x | x in s'.evicted :: x in s''.evicted
    ensures HandedOn(s, s'', es, popped)
  {
  }

  lemma HandedOnMore(s: Spool.State<Frame>, s': Spool.State<Frame>, s'': Spool.State<Frame>,
                     es: seq<Spool.Entry<Frame>>, popped: seq<bool>, e: Spool.Entry<Frame>)
    requires |es| == |popped| && HandedOn(s, s', es, popped) && MovedPast(s', es)
    requires SentHead(s', s'', e) && forall x | x in s'.evicted :: x in s''.evicted
    ensures HandedOn(s, s'', es + [e], popped + [s''.committed != s'.committed]) && MovedPast(s'', es + [e])
  {
    var pops := s''.committed != s'.committed;
    ChosenMore(es, popped, e, pops);
    AscendingMore(es, s', e);
    assert s.committed + (Chosen(es, popped) + if pops then [e] else []) ==
           s.committed + Chosen(es, popped) + if pops then [e] else [];
  }

  lemma ChosenMore(es: seq<Spool.Entry<Frame>>, flags: seq<bool>, e: Spool.Entry<Frame>, flag: bool)
    requires |es| == |flags|
    ensures Chosen(es + [e], flags + [flag]) == Chosen(es, flags) + if flag then [e] else []
  {
    assert (es + [e])[..|es|] == es && (flags + [flag])[..|flags|] == flags;
  }

  lemma AscendingMore(es: seq<Spool.Entry<Frame>>, s: Spool.State<Frame>, e: Spool.Entry<Frame>)
    requires Spool.Ascending(es) && MovedPast(s, es) && e in Spool.Backlog(s)
    ensures Spool.Ascending(es + [e])
  {
    forall x | x in es ensures x.tag < e.tag {
      AscendingLast(es, x);
    }
    Spool.AscendingExtend(es, [e], e.tag);
  }

  lemma AscendingLast(es: seq<Spool.Entry<Frame>>, x: Spool.Entry<Frame>)
    requires Spool.Ascending(es) && x in es
    ensures x.tag <= es[|es| - 1].tag
  {
    var i :| 0 <= i < |es| && es[i] == x;
    if i < |es| - 1 {
      assert Spool.TagBelow(es, i, |es| - 1);
    }
  }

  /** Evictions are not undone. */
  lemma {:induction false} EvictedStays(s: Spool.State<Frame>, ops: seq<Op>)
    requires Spool.Legal(s, ops)
    ensures forall x | x in s.evicted :: x in Spool.Run(s, ops).evicted
    decreases |ops|
  {
    if ops == [] {
    } else {
      EvictedStays(Spool.Step(s, ops[0]), ops[1..]);
    }
  }

  lemma EvictedThrough(crc: Checksum, c: Store, m: Model, c': Store, m': Model)
    requires Sound(crc, c, m) && Sound(crc, c', m') && NoCrash(m, m')
    ensures forall x | x in m.spool.evicted :: x in m'.spool.evicted
  {
    StepsBetween(crc, c, m, c', m');
    EvictedStays(m.spool, Since(m, m'));
  }

  /** What a drainer has done since the store was `c0` and its model `m0`. */
  ghost predicate Drained(c0: Store, m0: Model, c: Store, m: Model, handed: seq<Spool.Entry<Frame>>, popped: seq<bool>)
    requires |handed| == |popped|
  {
    (&& NoCrash(m0, m) && HandedOn(m0.spool, m.spool, handed, popped)
     && (Quiet(c0, m0) ==> Quiet(c, m))) == true
  }

  lemma NothingDrained(c: Store, m: Model)
    ensures Drained(c, m, c, m, [], [])
  {
    CommitNoCrash(m, m, []);
  }

  /** One replay, seen from the start of the drain. */
  lemma DrainedMore(c0: Store, m0: Model, c: Store, m: Model, c': Store, m': Model,
                    handed: seq<Spool.Entry<Frame>>, popped: seq<bool>, e: Spool.Entry<Frame>)
    requires |handed| == |popped| && Drained(c0, m0, c, m, handed, popped) && MovedPast(m.spool, handed)
    requires NoCrash(m, m') && (Quiet(c, m) ==> Quiet(c', m'))
    requires SentHead(m.spool, m'.spool, e) && forall x | x in m.spool.evicted :: x in m'.spool.evicted
    ensures Drained(c0, m0, c', m', handed + [e], popped + [m'.spool.committed != m.spool.committed])
    ensures MovedPast(m'.spool, handed + [e])
  {
    NoCrashTwice(m0, m, m');
    HandedOnMore(m0.spool, m.spool, m'.spool, handed, popped, e);
  }

  lemma DrainedNoMore(c0: Store, m0: Model, c: Store, m: Model, c': Store, m': Model,
                      handed: seq<Spool.Entry<Frame>>, popped: seq<bool>)
    requires |handed| == |popped| && Drained(c0, m0, c, m, handed, popped)
    requires NoCrash(m, m') && (Quiet(c, m) ==> Quiet(c', m'))
    requires m'.spool.committed == m.spool.committed && forall x | x in m.spool.evicted :: x in m'.spool.evicted
    ensures Drained(c0, m0, c', m', handed, popped)
  {
    NoCrashTwice(m0, m, m');
    HandedNoMore(m0.spool, m.spool, m'.spool, handed, popped);
  }

  /** The head of the queue was sent: it was committed, or the cap took it; all that is left comes after it. */
  ghost predicate SentHead(s: Spool.State<Frame>, s': Spool.State<Frame>, e: Spool.Entry<Frame>) {
    (&& e in Spool.Backlog(s) && Spool.Past(s', e)
     && (s'.committed == s.committed + [e] || (s'.committed == s.committed && e in s'.evicted))) == true
  }

  /** A replay with the arguments of a round. */
  method ReplayRound(w: WalInner, r: Round, interrupts: nat, fsyncFrames: nat)
    returns (outcome: ReplayOutcome, ghost head: Spool.Entry<Frame>)
    requires w.Valid() && fsyncFrames >= 1 && AcceptableTurns(r.beforeSend) && AcceptableTurns(r.beforeCommit)
    modifies w
    ensures w.Valid() && NoCrash(old(w.model), w.model) && (Quiet(old(w.st), old(w.model)) ==> Quiet(w.st, w.model))
    ensures outcome.Sent? ==> outcome.frame == head.item && SentHead(old(w.model.spool), w.model.spool, head)
    ensures !outcome.Sent? ==> w.model.spool.committed == old(w.model.spool.committed)
    ensures outcome.Empty? && r.errorAt == None ==> old(w.Queue()) == [] && w.Queue() == []
    ensures outcome.NoCapacity? ==> !r.hasRoom
    ensures forall x | x in old(w.model.spool.evicted) :: x in w.model.spool.evicted
  {
    ghost var m, c, queue := w.model, w.st, w.Backlog();
    head := if queue != [] then queue[0] else Spool.Entry(0, Frame(0, []));
    outcome := ReplayOne(w, r.hasRoom, r.errorAt, interrupts, r.beforeSend, r.beforeCommit, fsyncFrames);
    EvictedThrough(w.crc, c, m, w.st, w.model);
  }

  lemma ItemsSnoc(es: seq<Spool.Entry<Frame>>, e: Spool.Entry<Frame>)
    ensures Items(es + [e]) == Items(es) + [e.item]
  {
    ItemsConcat(es, [e]);
  }

  /** One round: nothing is handed on, or the head of the queue is. */
  method DrainOnce(w: WalInner, r: Round, interrupts: nat, fsyncFrames: nat,
                   ghost c0: Store, ghost m0: Model, ghost handed: seq<Spool.Entry<Frame>>, ghost popped: seq<bool>)
    returns (outcome: ReplayOutcome, ghost handed': seq<Spool.Entry<Frame>>, ghost popped': seq<bool>)
    requires w.Valid() && |handed| == |popped|
    requires Drained(c0, m0, w.st, w.model, handed, popped) && MovedPast(w.model.spool, handed)
    requires fsyncFrames >= 1 && AcceptableTurns(r.beforeSend) && AcceptableTurns(r.beforeCommit)
    modifies w
    ensures w.Valid() && |handed'| == |popped'| && Drained(c0, m0, w.st, w.model, handed', popped')
    ensures if outcome.Sent?
            then |handed'| == |handed| + 1 && Items(handed') == Items(handed) + [outcome.frame]
                 && MovedPast(w.model.spool, handed')
            else handed' == handed && popped' == popped
    ensures outcome.Empty? && r.errorAt == None ==> old(w.Queue()) == [] && w.Queue() == []
    ensures outcome.NoCapacity? ==> !r.hasRoom
  {
    ghost var m, c := w.model, w.st;
    ghost var head;
    outcome, head := ReplayRound(w, r, interrupts, fsyncFrames);
    handed', popped' := handed, popped;
    if outcome.Sent? {
      DrainedMore(c0, m0, c, m, w.st, w.model, handed, popped, head);
      ItemsSnoc(handed, head);
      handed', popped' := handed + [head], popped + [w.model.spool.committed != m.spool.committed];
    } else {
      DrainedNoMore(c0, m0, c, m, w.st, w.model, handed, popped);
    }
  }

  /**
    The drainer's inner loop: replays until the queue is empty or the retry queue is
    full. What it sent are the entries it handed on, in log order; each was committed
    in that order, or evicted by the cap meanwhile. It stops early only in a round that
    finds no room, meets a read error, or finds the queue empty. On a store that never
    crashed delivery stays in order, without repetition, skipping only what the cap evicted.
   */
  method Drain(w: WalInner, rounds: seq<Round>, interrupts: nat, fsyncFrames: nat)
    returns (sent: seq<Frame>, ghost handed: seq<Spool.Entry<Frame>>, ghost popped: seq<bool>)
    requires w.Valid() && fsyncFrames >= 1 && forall i | 0 <= i < |rounds| :: AcceptableRound(rounds[i])
    modifies w
    ensures sent == Items(handed) && |handed| == |popped| <= |rounds|
    ensures w.Valid() && NoCrash(old(w.model), w.model)
    ensures HandedOn(old(w.model.spool), w.model.spool, handed, popped)
    ensures Quiet(old(w.st), old(w.model)) ==> Quiet(w.st, w.model)
    ensures |sent| < |rounds| ==> !rounds[|sent|].hasRoom || rounds[|sent|].errorAt.Some? || w.Queue() == []
    ensures sent == [] && rounds != [] && rounds[0].hasRoom && rounds[0].errorAt == None ==> old(w.Queue()) == []
    ensures Spool.CrashFree(old(w.model.trace)) ==> Spool.Delivery(w.model.spool)
  {
    sent, handed, popped := [], [], [];
    NothingDrained(w.st, w.model);
    for i := 0 to |rounds|
      invariant sent == Items(handed) && |handed| == |popped| == i
      invariant w.Valid() && Drained(old(w.st), old(w.model), w.st, w.model, handed, popped)
      invariant MovedPast(w.model.spool, handed)
      invariant i == 0 ==> w.Backlog() == old(w.Backlog())
    {
      var outcome;
      assert AcceptableRound(rounds[i]);
      outcome, handed, popped :=
        DrainOnce(w, rounds[i], interrupts, fsyncFrames, old(w.st), old(w.model), handed, popped);
      if !outcome.Sent? {
        break;
      }
      sent := sent + [outcome.frame];
    }
    if Spool.CrashFree(old(w.model.trace)) {
      StaysCrashFree(old(w.model), w.model);
      DeliveredInOrder(w.crc, w.st, w.model);
    }
  }

  lemma PendingThrough(crc: Checksum, c: Store, m: Model, c': Store, m': Model)
    requires Sound(crc, c, m) && Sound(crc, c', m') && OnlyWriter(m, m')
    requires m.spool.peeked && Spool.Backlog(m.spool) != []
    ensures var e := Spool.Backlog(m.spool)[0];
            && m'.spool.committed == m.spool.committed && Spool.PendingOn(m'.spool, e)
            && (m'.spool.peeked || Spool.Past(m'.spool, e)) && Spool.Enabled(m'.spool, Spool.Commit)
  {
    var e := Spool.Backlog(m.spool)[0];
    StepsBetween(crc, c, m, c', m');
    Spool.PendingNamesHead(m.spool, e, Since(m, m'));
    Spool.QueuedIsNamed(m.spool, e);
    Spool.PastRun(m.spool, e, Since(m, m'));
  }

  lemma DrainerCommitsNothing(crc: Checksum, c: Store, m: Model, c': Store, m': Model)
    requires Sound(crc, c, m) && Sound(crc, c', m') && OnlyDrainer(m, m')
    ensures m'.spool.committed == m.spool.committed
  {
    StepsBetween(crc, c, m, c', m');
    LookingCommitsNothing(m.spool, Since(m, m'));
  }

  lemma {:induction false} LookingCommitsNothing(s: Spool.State<Frame>, ops: seq<Op>)
    requires Spool.Legal(s, ops) && forall i | 0 <= i < |ops| :: ops[i].Peek? || ops[i].Collect?
    ensures Spool.Run(s, ops).committed == s.committed
    decreases |ops|
  {
    if ops == [] {
    } else {
      assert forall i | 0 <= i < |ops[1..]| :: ops[1..][i] == ops[i + 1];
      LookingCommitsNothing(Spool.Step(s, ops[0]), ops[1..]);
    }
  }

  // ---- where the code falls short -----------------------------------------

  /** The writer's append on a store of at most one segment, where the cap evicts nothing. */
  method AppendToFew(w: WalInner, payload: seq<Byte>, fault: Fault) returns (ok: bool)
    requires w.Valid() && |w.st.segments| <= 1 && ReadableLength(|payload|) && FaultFits(fault, FrameLen(|payload|))
    modifies w
    ensures w.Valid() && Appended(w.cfg, old(w.st), w.st, FrameLen(|payload|), fault, ok)
    ensures w.Queue() == old(w.Queue()) + if ok then [Frame(old(w.st.nextBatchSeq), payload)] else []
  {
    ghost var kept;
    ok, kept := w.AppendOne(payload, fault);
  }

  /** A store with one segment, filled by one frame. */
  ghost predicate Full(w: WalInner, payload: seq<Byte>)
    reads w
  {
    && w.Valid() && w.Queue() == [Frame(0, payload)] && |w.st.segments| == 1
    && w.cfg.segmentBytes == SEGMENT_HEADER_LEN + FrameLen(|payload|) == w.st.totalBytes
    && w.st.active.Some? && w.st.active.value.offset == w.cfg.segmentBytes
  }

  method FullSegment(crc: Checksum, payload: seq<Byte>, maxBytes: nat) returns (w: WalInner)
    requires ReadableLength(|payload|)
    ensures fresh(w) && Full(w, payload) && w.cfg.maxBytes == maxBytes
  {
    w := new WalInner.Empty(crc, Config(maxBytes, SEGMENT_HEADER_LEN + FrameLen(|payload|)));
    assert w.Queue() == [];
    var ok := AppendToFew(w, payload, NoFault);
  }

  /**
    The blind spot of the backlog check: when the second append finds its segment full
    and the rotation fails, no segment is active, and the check says there is nothing
    to replay although the queue is not empty; the drainer then leaves the frames alone
    until an append succeeds.
   */
  method FailedRotationHidesBacklog(crc: Checksum, payload: seq<Byte>) returns (w: WalInner)
    requires ReadableLength(|payload|)
    ensures fresh(w) && w.Valid() && w.Queue() == [Frame(0, payload)] && !w.HasBacklog()
    ensures w.cfg.segmentBytes <= w.cfg.maxBytes
  {
    w := FullSegment(crc, payload, 2 * (SEGMENT_HEADER_LEN + FrameLen(|payload|)));
    var ok := AppendToFew(w, payload, DirectoryFails);
  }

  /**
    The cap is not a hard limit: with one segment left, which may be the whole cap,
    nothing is dropped, and the next frame starts another segment.
   */
  method CapIsExceeded(crc: Checksum, payload: seq<Byte>) returns (w: WalInner)
    requires ReadableLength(|payload|)
    ensures fresh(w) && w.Valid() && w.cfg.segmentBytes <= w.cfg.maxBytes
    ensures w.st.totalBytes == 2 * w.cfg.maxBytes > w.cfg.maxBytes
  {
    w := FullSegment(crc, payload, SEGMENT_HEADER_LEN + FrameLen(|payload|));
    var ok := AppendToFew(w, payload, NoFault);
  }
}
