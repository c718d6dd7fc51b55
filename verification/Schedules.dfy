/**
  Every schedule of the store: writer turns, looks and commits of the drainer, and
  crashes with restarts, between turns or in the middle of one. What a completed turn
  wrote is never lost but to the size cap.

  A predicate compared with `true` is handled by the verifier as one fact, not as its
  conjuncts.
 */
module Schedules {
  import opened Codec
  import opened Options
  import opened Layout
  import opened StoreState
  import opened Packing
  import opened WalStore
  import opened CrashRecovery
  import opened WalRuns
  import opened Durability
  import WalWriter
  import Spool

  type Entry = Spool.Entry<Frame>

  /**
    What can happen to the store between two releases of its lock: a writer turn, a
    look of the drainer, a commit, or a crash with a restart. A crash in a turn strikes
    after some of its appends, and maybe after a failing write whose torn bytes were not
    cut yet.
   */
  datatype Act =
    | Turn(requests: seq<WalWriter.Request>)
    | Look(errorAt: Option<nat>)
    | Commit
    | Restart(crash: Crash)
    | CrashInTurn(done: seq<WalWriter.Request>, torn: Option<WalWriter.Request>, crash: Crash)

  /**
    What a crash does to the files: it leaves any files that the synced data allows, or
    it cuts every file at some length and leaves nothing else in place of the rest.
   */
  datatype Crash = Leaves(disk: Disk) | Cuts(length: nat -> nat)

  function DiskAfter(crash: Crash, disk: Disk): Disk {
    match crash
    case Leaves(left) => left
    case Cuts(length) => map id | id in disk :: CutTo(disk[id], length(id))
  }

  /** The file cut at `n`, but not below what is on the medium. */
  function CutTo(file: File, n: nat): File {
    if file.synced > |file.bytes| then file
    else
      var k := if n < file.synced then file.synced else if n > |file.bytes| then |file.bytes| else n;
      File(file.bytes[..k], k)
  }

  /** Every cut is a crash that a store can have, and leaves a prefix of every file. */
  lemma CutsArePossible(crc: Checksum, c: Store, m: Model, crash: Crash)
    requires Sound(crc, c, m) && crash.Cuts?
    ensures Crashed(c.disk, DiskAfter(crash, c.disk)) && LeavesPrefixes(c.disk, DiskAfter(crash, c.disk))
  {
    forall id | id in c.disk ensures CrashedFile(c.disk[id], DiskAfter(crash, c.disk)[id]) {
      if IsLive(m.spool.segs, id) {
        var i :| 0 <= i < |m.spool.segs| && m.spool.segs[i].id == id;
        assert Stored(crc, c.disk, m.spool.segs, m.spool.open, m.junk, i);
      }
    }
  }

  ghost predicate AcceptableAct(a: Act) {
    match a
    case Turn(requests) => requests != [] && WalWriter.AllAcceptable(requests)
    case CrashInTurn(done, torn, _) =>
      WalWriter.AllAcceptable(done) && (torn.Some? ==> WalWriter.Acceptable(torn.value))
    case _ => true
  }

  predicate Crashes(a: Act) { a.Restart? || a.CrashInTurn? }

  /** The requests whose turn an act completes. */
  function Completed(a: Act): seq<WalWriter.Request> {
    if a.Turn? then a.requests else []
  }

  /** The requests that an act deals with, whether their turn completes or not. */
  function Attempted(a: Act): seq<WalWriter.Request> {
    match a
    case Turn(requests) => requests
    case CrashInTurn(done, torn, _) => done + if torn.Some? then [torn.value] else []
    case _ => []
  }

  /** If it crashes, it cuts files and leaves nothing else in place of the rest. */
  predicate CutsOnly(a: Act) { Crashes(a) ==> a.crash.Cuts? }

  // ---- what an act keeps ----------------------------------------------------

  /** The steps from one model to the other continue its history. */
  ghost predicate Continues(m: Model, m': Model) {
    m.trace <= m'.trace && m.spool.log <= m'.spool.log
  }

  /** A safe entry stays safe through whatever the store went through. */
  lemma SafeThrough(crc: Checksum, c: Store, m: Model, c': Store, m': Model, e: Entry)
    requires Sound(crc, c, m) && Sound(crc, c', m') && m.trace <= m'.trace && Safe(m.spool, e)
    ensures Safe(m'.spool, e)
  {
    StepsBetween(crc, c, m, c', m');
    SafeRun(m.spool, Since(m, m'), e);
  }

  ghost predicate AllSafe(s: Spool.State<Frame>, es: seq<Entry>) {
    forall e | e in es :: Safe(s, e)
  }

  /** What a completed turn wrote is safe. */
  lemma TurnIsSafe(crc: Checksum, c: Store, m: Model, c': Store, m': Model, written: seq<Frame>)
    requires Sound(crc, c, m) && Sound(crc, c', m') && OnlyWriter(m, m') && Spool.AllSynced(m'.spool)
    requires m'.spool.log == m.spool.log + written
    ensures AllSafe(m'.spool, Spool.Fresh(|m.spool.log|, written))
  {
    StepsBetween(crc, c, m, c', m');
    AllWrittenSafe(m.spool, Since(m, m'), m'.spool, written);
  }

  /**
    The store in the course of a schedule: `turns` are the entries of the completed
    turns, in the order written, and all of them are safe.
   */
  ghost predicate OnSchedule(w: WalInner, turns: seq<Entry>)
    reads w
  {
    (w.Valid() && AllSafe(w.model.spool, turns) && Spool.Tagged(w.model.spool.log, turns)) == true
  }

  lemma TaggedLater(log: seq<Frame>, log': seq<Frame>, es: seq<Entry>)
    requires Spool.Tagged(log, es) && log <= log'
    ensures Spool.Tagged(log', es)
  {
    forall e | e in es ensures Spool.NamedBy(e, log') {
      assert Spool.NamedBy(e, log);
    }
  }

  /** Old turns through any act. */
  lemma TurnsKept(crc: Checksum, c: Store, m: Model, c': Store, m': Model, turns: seq<Entry>)
    requires Sound(crc, c, m) && Sound(crc, c', m') && Continues(m, m')
    requires AllSafe(m.spool, turns) && Spool.Tagged(m.spool.log, turns)
    ensures AllSafe(m'.spool, turns) && Spool.Tagged(m'.spool.log, turns)
  {
    forall e | e in turns ensures Safe(m'.spool, e) {
      SafeThrough(crc, c, m, c', m', e);
    }
    TaggedLater(m.spool.log, m'.spool.log, turns);
  }

  // ---- the acts -------------------------------------------------------------

  method DoTurn(w: WalInner, requests: seq<WalWriter.Request>, fsyncFrames: nat, ghost turns: seq<Entry>)
    returns (ghost written: seq<Frame>)
    requires OnSchedule(w, turns) && fsyncFrames >= 1 && AcceptableAct(Turn(requests))
    modifies w
    ensures OnSchedule(w, turns + Spool.Fresh(|old(w.model.spool.log)|, written))
    ensures WalWriter.WrittenOf(requests, WalWriter.Payloads(written))
    ensures NoCrash(old(w.model), w.model) && Quiet(w.st, w.model)
    ensures Numbered(old(w.st), old(w.model), w.st, w.model, |requests|)
    ensures Spares(w.cfg, old(w.st), old(w.model), w.st, w.model, WalWriter.SizeOf(requests))
    ensures WalWriter.FaultFree(requests) ==> w.model.loose == old(w.model.loose)
  {
    ghost var c, m := w.st, w.model;
    written := WalWriter.GroupCommit(w, requests, fsyncFrames);
    WriterNoCrash(m, w.model);
    TurnIsSafe(w.crc, c, m, w.st, w.model, written);
    TurnsKept(w.crc, c, m, w.st, w.model, turns);
    Spool.TaggedExtend(m.spool.log, turns, written);
  }

  method DoDrainerStep(w: WalInner, act: Act, interrupts: nat, ghost turns: seq<Entry>)
    requires OnSchedule(w, turns) && (act.Look? || act.Commit?)
    modifies w
    ensures OnSchedule(w, turns) && NoCrash(old(w.model), w.model) && w.model.loose == old(w.model.loose)
    ensures Quiet(old(w.st), old(w.model)) ==> Quiet(w.st, w.model)
    ensures Numbered(old(w.st), old(w.model), w.st, w.model, 0) && NotEvicted(old(w.st), old(w.model), w.st, w.model, 0)
  {
    ghost var c, m := w.st, w.model;
    if act.Look? {
      var r := w.PeekNext(act.errorAt, interrupts);
      DrainerNoCrash(m, w.model);
    } else {
      w.CommitPending();
      CommitNoCrash(m, w.model, if m.spool.peeked then [Spool.Commit] else []);
    }
    TurnsKept(w.crc, c, m, w.st, w.model, turns);
  }

  /** The log grew by at most `n` bytes, and the cap took nothing. */
  ghost predicate NotEvicted(c: Store, m: Model, c': Store, m': Model, n: nat) {
    c'.totalBytes <= c.totalBytes + n && m'.spool.evicted == m.spool.evicted
  }

  lemma NoJunk(crc: Checksum)
    ensures TornFrame(crc, [])
  {
    TornPart(crc, Frame(0, [0]), 0);
  }

  /**
    A crash between turns. One that the store cannot have had (it does not leave what is
    on the medium) does not happen; a cut always can.
   */
  method DoRestart(w: WalInner, crash: Crash, interrupts: nat, ghost turns: seq<Entry>) returns (w': WalInner)
    requires OnSchedule(w, turns)
    ensures (w' == w || fresh(w')) && w'.cfg == w.cfg && OnSchedule(w', turns) && Continues(w.model, w'.model)
    ensures Crashed(w.st.disk, DiskAfter(crash, w.st.disk)) || crash.Cuts? ==> fresh(w')
    ensures Quiet(w.st, w.model) || crash.Cuts? ==> Numbered(w.st, w.model, w'.st, w'.model, 0)
    ensures Quiet(w.st, w.model) ==> Quiet(w'.st, w'.model) && NotEvicted(w.st, w.model, w'.st, w'.model, 0)
    ensures Crashed(w.st.disk, DiskAfter(crash, w.st.disk)) && Quiet(w.st, w.model) ==>
              w'.model.spool.log == w.model.spool.log && w'.Backlog() == Spool.Replayed(w.model.spool) + w.Backlog()
  {
    w' := w;
    var disk := DiskAfter(crash, w.st.disk);
    NoJunk(w.crc);
    if crash.Cuts? {
      CutsArePossible(w.crc, w.st, w.model, crash);
    }
    if Crashed(w.st.disk, disk) {
      ghost var op;
      w', op := Reopen(w, disk, interrupts);
      CrashContinues(w.model, op, w'.model);
      TurnsKept(w.crc, w.st, w.model, w'.st, w'.model, turns);
    }
  }

  lemma CrashContinues(m: Model, op: Op, m': Model)
    requires op.Crash? && Spool.Enabled(m.spool, op)
    requires m'.spool == Spool.Step(m.spool, op) && m'.trace == m.trace + [op]
    ensures Continues(m, m')
    ensures op.extra == [] ==> m'.spool.log == m.spool.log && Spool.Fresh(|m.spool.log|, op.extra) == []
    ensures m'.spool.evicted == m.spool.evicted
  {
  }

  /**
    A crash in the middle of a turn: what completed turns wrote is still there, and of
    what this turn wrote it takes no more frames than the group limit lets be unsynced.
   */
  method DoCrashInTurn(w: WalInner, act: Act, interrupts: nat, fsyncFrames: nat, ghost turns: seq<Entry>)
    returns (w': WalInner)
    requires OnSchedule(w, turns) && fsyncFrames >= 1 && act.CrashInTurn? && AcceptableAct(act)
    modifies w
    ensures (w' == w || fresh(w')) && w'.cfg == w.cfg && OnSchedule(w', turns)
    ensures act.crash.Cuts? ==> Numbered(old(w.st), old(w.model), w'.st, w'.model, |Attempted(act)|)
    ensures Quiet(old(w.st), old(w.model)) ==>
              |w'.model.spool.torn| <= |old(w.model.spool.torn)| + Max(fsyncFrames, 2)
  {
    ghost var c, m := w.st, w.model;
    ghost var written;
    var unsynced;
    unsynced, written := WalWriter.AppendAll(w, act.done, fsyncFrames);
    TurnsKept(w.crc, c, m, w.st, w.model, turns);
    ghost var c1, m1 := w.st, w.model;
    w' := Cut(w, act.torn, act.crash, interrupts, turns);
    TakenFromTurn(c, m, m1, w'.model, unsynced);
    if act.crash.Cuts? {
      NumberedTwice(c, m, c1, m1, w'.st, w'.model, |act.done|, if act.torn.Some? then 1 else 0);
    }
  }

  lemma TakenFromTurn(c: Store, m: Model, m1: Model, m': Model, unsynced: nat)
    requires Exposes(m, m1, unsynced) && TakesAtMost(m1, m', 1)
    ensures Quiet(c, m) ==> |m'.spool.torn| <= |m.spool.torn| + unsynced + 1
  {
  }

  /** What a crash has taken is what was not on the medium, and at most `n` entries more. */
  ghost predicate TakesAtMost(m: Model, m': Model, n: nat) {
    (|m'.spool.torn| <= |m.spool.torn| + |Spool.Unsynced(m.spool)| + n) == true
  }

  lemma TakesLater(m: Model, m': Model, m'': Model, n: nat)
    requires Exposes(m, m', n) && TakesAtMost(m', m'', 0)
    ensures TakesAtMost(m, m'', n)
  {
  }

  /** A last append of the turn, if any, whose failure has not been repaired. */
  method AppendUnrepaired(w: WalInner, torn: Option<WalWriter.Request>) returns (ok: bool)
    requires w.Valid() && (torn.Some? ==> WalWriter.Acceptable(torn.value))
    modifies w
    ensures w.Inv() && (ok ==> w.Valid()) && Continues(old(w.model), w.model) && TornFrame(w.crc, w.model.junk)
    ensures Numbered(old(w.st), old(w.model), w.st, w.model, if torn.Some? then 1 else 0)
    ensures Exposes(old(w.model), w.model, 1)
  {
    ok := true;
    NoJunk(w.crc);
    if torn.Some? {
      ghost var kept;
      ghost var c, m := w.st, w.model;
      ok, kept := w.Append(torn.value.payload, torn.value.fault);
      WriterExposes(w.crc, c, m, w.st, w.model, 1);
    }
  }

  method Cut(w: WalInner, torn: Option<WalWriter.Request>, crash: Crash, interrupts: nat, ghost turns: seq<Entry>)
    returns (w': WalInner)
    requires OnSchedule(w, turns) && (torn.Some? ==> WalWriter.Acceptable(torn.value))
    modifies w
    ensures (w' == w || fresh(w')) && w'.cfg == w.cfg && OnSchedule(w', turns)
    ensures crash.Cuts? ==> Numbered(old(w.st), old(w.model), w'.st, w'.model, if torn.Some? then 1 else 0)
    ensures TakesAtMost(old(w.model), w'.model, 1)
  {
    ghost var c, m := w.st, w.model;
    var ok := AppendUnrepaired(w, torn);
    ghost var c1, m1 := w.st, w.model;
    w' := CrashNow(w, ok, crash, interrupts);
    TurnsKept(w.crc, c, m, w'.st, w'.model, turns);
    TakesLater(m, m1, w'.model, 1);
    if crash.Cuts? {
      NumberedTwice(c, m, c1, m1, w'.st, w'.model, if torn.Some? then 1 else 0, 0);
    }
  }

  /** The crash itself; one that cannot happen does not, and the turn goes on. */
  method CrashNow(w: WalInner, ok: bool, crash: Crash, interrupts: nat) returns (w': WalInner)
    requires w.Inv() && (ok ==> w.Valid()) && TornFrame(w.crc, w.model.junk)
    modifies w
    ensures (w' == w || fresh(w')) && w'.cfg == w.cfg && w'.crc == w.crc
    ensures w'.Valid() && Continues(old(w.model), w'.model)
    ensures crash.Cuts? ==> Numbered(old(w.st), old(w.model), w'.st, w'.model, 0)
    ensures TakesAtMost(old(w.model), w'.model, 0)
  {
    w' := w;
    var disk := DiskAfter(crash, w.st.disk);
    if crash.Cuts? {
      CutsArePossible(w.crc, w.st, w.model, crash);
    }
    if Crashed(w.st.disk, disk) {
      ghost var op, dead := Spool.Sync, w.model;
      w', op := Reopen(w, disk, interrupts);
      CrashContinues(dead, op, w'.model);
      Spool.CrashTakes(dead.spool, op);
    } else if !ok {
      w.RecoverActiveAfterError();
    }
  }

  /** If what the act writes fits under the cap, the cap takes nothing. */
  ghost predicate SparesAct(cfg: Config, c: Store, m: Model, c': Store, m': Model, a: Act) {
    (c.totalBytes + WalWriter.SizeOf(Completed(a)) <= cfg.maxBytes ==>
       NotEvicted(c, m, c', m', WalWriter.SizeOf(Completed(a)))) == true
  }

  method DoAct(w: WalInner, act: Act, interrupts: nat, fsyncFrames: nat, ghost turns: seq<Entry>)
    returns (w': WalInner, ghost written: seq<Entry>)
    requires OnSchedule(w, turns) && fsyncFrames >= 1 && AcceptableAct(act)
    modifies w
    ensures (w' == w || fresh(w')) && w'.cfg == w.cfg && OnSchedule(w', turns + written)
    ensures WalWriter.WrittenOf(Completed(act), WalWriter.Payloads(Items(written)))
    ensures !Crashes(act) ==> NoCrash(old(w.model), w'.model)
    ensures !Crashes(act) && WalWriter.FaultFree(Completed(act)) ==> w'.model.loose == old(w.model.loose)
    ensures CutsOnly(act) || (!act.CrashInTurn? && Quiet(old(w.st), old(w.model))) ==>
              Numbered(old(w.st), old(w.model), w'.st, w'.model, |Attempted(act)|)
    ensures !act.CrashInTurn? && Quiet(old(w.st), old(w.model)) ==>
              Quiet(w'.st, w'.model) && SparesAct(w'.cfg, old(w.st), old(w.model), w'.st, w'.model, act)
  {
    written, w' := [], w;
    assert turns + [] == turns;
    match act
    case Turn(requests) =>
      ghost var frames := DoTurn(w, requests, fsyncFrames, turns);
      written := Spool.Fresh(|old(w.model.spool.log)|, frames);
      assert Items(written) == frames;
    case Restart(crash) => w' := DoRestart(w, crash, interrupts, turns);
    case CrashInTurn(_, _, _) => w' := DoCrashInTurn(w, act, interrupts, fsyncFrames, turns);
    case _ => DoDrainerStep(w, act, interrupts, turns);
  }

  // ---- all of them ----------------------------------------------------------

  /** The requests of all completed turns. */
  function RequestsBy(acts: seq<Act>): seq<WalWriter.Request> {
    if acts == [] then [] else RequestsBy(acts[..|acts| - 1]) + Completed(acts[|acts| - 1])
  }

  /** How many requests there were, completed or not. */
  function AttemptsOf(acts: seq<Act>): nat {
    if acts == [] then 0 else AttemptsOf(acts[..|acts| - 1]) + |Attempted(acts[|acts| - 1])|
  }

  predicate NoCrashes(acts: seq<Act>) { forall i | 0 <= i < |acts| :: !Crashes(acts[i]) }

  predicate NoCrashInTurn(acts: seq<Act>) { forall i | 0 <= i < |acts| :: !acts[i].CrashInTurn? }

  predicate OnlyCuts(acts: seq<Act>) { forall i | 0 <= i < |acts| :: CutsOnly(acts[i]) }

  /** Crashes fall between turns, or they only cut files. */
  predicate Orderly(acts: seq<Act>) { NoCrashInTurn(acts) || OnlyCuts(acts) }

  /** What holds of the store after the first `k` acts, depending on what they were. */
  ghost predicate Done(cfg: Config, acts: seq<Act>, k: nat, c: Store, m: Model, turns: seq<Entry>)
    requires k <= |acts|
  {
    var upto := acts[..k];
    (&& WalWriter.WrittenOf(RequestsBy(upto), WalWriter.Payloads(Items(turns)))
     && (NoCrashes(upto) ==> Spool.CrashFree(m.trace))
     && (NoCrashes(upto) && WalWriter.FaultFree(RequestsBy(upto)) ==> m.loose == {})
     && (NoCrashInTurn(upto) ==> Quiet(c, m))
     && (Orderly(upto) && AttemptsOf(upto) < 0x1_0000_0000_0000_0000 ==>
           m.ordered && c.nextBatchSeq <= AttemptsOf(upto))
     && (NoCrashInTurn(upto) && WalWriter.SizeOf(RequestsBy(upto)) <= cfg.maxBytes ==>
           c.totalBytes <= WalWriter.SizeOf(RequestsBy(upto)) && m.spool.evicted == [])) == true
  }

  lemma NothingDone(cfg: Config, acts: seq<Act>, c: Store, m: Model)
    requires Quiet(c, m) && m.ordered && c.nextBatchSeq == 0 && c.totalBytes == 0 && m.trace == []
    requires m.spool.evicted == [] && m.loose == {}
    ensures Done(cfg, acts, 0, c, m, [])
  {
    assert acts[..0] == [];
  }

  lemma PrefixFacts(acts: seq<Act>, k: nat)
    requires k < |acts|
    ensures RequestsBy(acts[..k + 1]) == RequestsBy(acts[..k]) + Completed(acts[k])
    ensures AttemptsOf(acts[..k + 1]) == AttemptsOf(acts[..k]) + |Attempted(acts[k])|
    ensures NoCrashes(acts[..k + 1]) ==> NoCrashes(acts[..k]) && !Crashes(acts[k])
    ensures NoCrashInTurn(acts[..k + 1]) ==> NoCrashInTurn(acts[..k]) && !acts[k].CrashInTurn?
    ensures OnlyCuts(acts[..k + 1]) ==> OnlyCuts(acts[..k]) && CutsOnly(acts[k])
  {
    var upto := acts[..k + 1];
    assert upto[..k] == acts[..k] && upto[k] == acts[k];
    assert forall i | 0 <= i < k :: acts[..k][i] == upto[i];
  }

  lemma DoneNext(cfg: Config, acts: seq<Act>, k: nat, c: Store, m: Model, c': Store, m': Model, turns: seq<Entry>,
                 written: seq<Entry>)
    requires k < |acts| && Done(cfg, acts, k, c, m, turns)
    requires WalWriter.WrittenOf(Completed(acts[k]), WalWriter.Payloads(Items(written)))
    requires !Crashes(acts[k]) ==> NoCrash(m, m')
    requires !Crashes(acts[k]) && WalWriter.FaultFree(Completed(acts[k])) ==> m'.loose == m.loose
    requires CutsOnly(acts[k]) || (!acts[k].CrashInTurn? && Quiet(c, m)) ==>
               Numbered(c, m, c', m', |Attempted(acts[k])|)
    requires !acts[k].CrashInTurn? && Quiet(c, m) ==> Quiet(c', m') && SparesAct(cfg, c, m, c', m', acts[k])
    ensures Done(cfg, acts, k + 1, c', m', turns + written)
  {
    var before, now := RequestsBy(acts[..k]), Completed(acts[k]);
    PrefixFacts(acts, k);
    PayloadsConcat(turns, written);
    WalWriter.WrittenOfConcat(before, WalWriter.Payloads(Items(turns)), now, WalWriter.Payloads(Items(written)));
    WalWriter.SizeOfConcat(before, now);
    FaultFreeParts(before, now);
    if NoCrashes(acts[..k + 1]) {
      StaysCrashFree(m, m');
    }
  }

  lemma FaultFreeParts(rs: seq<WalWriter.Request>, rs': seq<WalWriter.Request>)
    ensures WalWriter.FaultFree(rs + rs') ==> WalWriter.FaultFree(rs) && WalWriter.FaultFree(rs')
  {
    if WalWriter.FaultFree(rs + rs') {
      assert forall i | 0 <= i < |rs| :: rs[i] == (rs + rs')[i];
      assert forall i | 0 <= i < |rs'| :: rs'[i] == (rs + rs')[|rs| + i];
    }
  }

  lemma PayloadsConcat(a: seq<Entry>, b: seq<Entry>)
    ensures WalWriter.Payloads(Items(a + b)) == WalWriter.Payloads(Items(a)) + WalWriter.Payloads(Items(b))
  {
    ItemsConcat(a, b);
  }

  /** Committed, evicted by the cap, or queued. */
  ghost predicate Accounted(s: Spool.State<Frame>, e: Entry) {
    e in s.committed || e in s.evicted || e in Spool.Backlog(s)
  }

  /**
    At least once, over every schedule of writer turns, looks, commits, and crashes with
    restarts at any point. The completed turns wrote what they were asked to, in order,
    leaving out only requests whose own append met a fault; and every frame they wrote
    has been committed, was evicted by the cap, or is queued. The cap takes nothing if
    all that was asked for fits under it and crashes fall between turns. Without crashes
    delivery is also in order and without repetition, and without faults no segment but
    the back one could have taken the frame that followed it. Short of 2^64 requests the batch
    numbers of the live frames rise, across restarts too, and the next one is above
    them, unless a crash in a turn left anything but prefixes of the files.
   */
  method RunSchedule(crc: Checksum, cfg: Config, acts: seq<Act>, interrupts: nat, fsyncFrames: nat)
    returns (w: WalInner, ghost turns: seq<Entry>)
    requires fsyncFrames >= 1 && forall i | 0 <= i < |acts| :: AcceptableAct(acts[i])
    ensures fresh(w) && w.Valid()
    ensures WalWriter.WrittenOf(RequestsBy(acts), WalWriter.Payloads(Items(turns)))
    ensures WalWriter.FaultFree(RequestsBy(acts)) ==>
              WalWriter.Payloads(Items(turns)) == WalWriter.Asked(RequestsBy(acts))
    ensures Spool.Tagged(w.model.spool.log, turns) && forall e | e in turns :: Accounted(w.model.spool, e)
    ensures NoCrashInTurn(acts) && WalWriter.SizeOf(RequestsBy(acts)) <= cfg.maxBytes ==>
              w.model.spool.evicted == [] && forall e | e in turns :: e in w.model.spool.committed || e in w.Backlog()
    ensures NoCrashes(acts) ==> Spool.Delivery(w.model.spool)
    ensures NoCrashes(acts) && WalWriter.FaultFree(RequestsBy(acts)) ==> WellPacked(cfg.segmentBytes, w.st, w.model)
    ensures NoCrashInTurn(acts) ==> Quiet(w.st, w.model)
    ensures Orderly(acts) && AttemptsOf(acts) < 0x1_0000_0000_0000_0000 ==>
              LiveBatchesAscend(w.model.spool, w.st.nextBatchSeq)
  {
    w := new WalInner.Empty(crc, cfg);
    turns := [];
    InactiveIsQuiet(crc, w.st, w.model);
    NothingDone(cfg, acts, w.st, w.model);
    for i := 0 to |acts|
      invariant fresh(w) && w.cfg == cfg && ScheduledTo(w, acts, i, turns)
    {
      w, turns := DoNext(w, acts, i, interrupts, fsyncFrames, turns);
    }
    ScheduleEnds(w.crc, cfg, w.st, w.model, acts, turns);
  }

  ghost predicate ScheduledTo(w: WalInner, acts: seq<Act>, k: nat, turns: seq<Entry>)
    requires k <= |acts|
    reads w
  {
    (OnSchedule(w, turns) && Done(w.cfg, acts, k, w.st, w.model, turns)) == true
  }

  method DoNext(w: WalInner, acts: seq<Act>, k: nat, interrupts: nat, fsyncFrames: nat, ghost turns: seq<Entry>)
    returns (w': WalInner, ghost turns': seq<Entry>)
    requires k < |acts| && ScheduledTo(w, acts, k, turns) && fsyncFrames >= 1 && AcceptableAct(acts[k])
    modifies w
    ensures (w' == w || fresh(w')) && w'.cfg == w.cfg && ScheduledTo(w', acts, k + 1, turns')
  {
    ghost var c, m := w.st, w.model;
    ghost var written;
    w', written := DoAct(w, acts[k], interrupts, fsyncFrames, turns);
    DoneNext(w'.cfg, acts, k, c, m, w'.st, w'.model, turns, written);
    turns' := turns + written;
  }

  lemma ScheduleEnds(crc: Checksum, cfg: Config, c: Store, m: Model, acts: seq<Act>, turns: seq<Entry>)
    requires Sound(crc, c, m) && AllSafe(m.spool, turns) && Done(cfg, acts, |acts|, c, m, turns)
    requires Packed(crc, cfg.segmentBytes, m)
    ensures WalWriter.WrittenOf(RequestsBy(acts), WalWriter.Payloads(Items(turns)))
    ensures WalWriter.FaultFree(RequestsBy(acts)) ==>
              WalWriter.Payloads(Items(turns)) == WalWriter.Asked(RequestsBy(acts))
    ensures forall e | e in turns :: Accounted(m.spool, e)
    ensures NoCrashInTurn(acts) && WalWriter.SizeOf(RequestsBy(acts)) <= cfg.maxBytes ==> m.spool.evicted == []
    ensures NoCrashes(acts) ==> Spool.Delivery(m.spool)
    ensures NoCrashes(acts) && WalWriter.FaultFree(RequestsBy(acts)) ==> WellPacked(cfg.segmentBytes, c, m)
    ensures NoCrashInTurn(acts) ==> Quiet(c, m)
    ensures Orderly(acts) && AttemptsOf(acts) < 0x1_0000_0000_0000_0000 ==> m.ordered
  {
    assert acts[..|acts|] == acts;
    if WalWriter.FaultFree(RequestsBy(acts)) {
      WalWriter.FaultFreeWritten(RequestsBy(acts), WalWriter.Payloads(Items(turns)));
    }
    forall e | e in turns ensures Accounted(m.spool, e) {
      SafeIsKept(m.spool, e);
    }
    if NoCrashes(acts) {
      DeliveredInOrder(crc, c, m);
      if WalWriter.FaultFree(RequestsBy(acts)) {
        NothingExempt(crc, cfg.segmentBytes, c, m);
      }
    }
  }
}
