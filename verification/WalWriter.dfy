/**
  The writer thread's group commit: one lock hold appends everything queued and syncs it.

  A predicate compared with `true` is handled by the verifier as one fact, not as its
  conjuncts.
 */
module WalWriter {
  import opened Codec
  import opened Layout
  import opened StoreState
  import opened WalStore
  import Spool

  /** A queued payload, with the I/O fault its append meets and whether the sync interval has elapsed by then. */
  datatype Request = Request(payload: seq<Byte>, fault: Fault, intervalElapsed: bool)

  ghost predicate Acceptable(r: Request) {
    ReadableLength(|r.payload|) && FaultFits(r.fault, FrameLen(|r.payload|))
  }

  lemma SuffixExtends<A>(xs: seq<A>, ys: seq<A>, kept: seq<A>, more: seq<A>)
    requires Spool.SuffixOf(kept, xs) && Spool.SuffixOf(xs, ys)
    ensures Spool.SuffixOf(kept + more, ys + more)
  {
  }

  function Asked(rs: seq<Request>): (ps: seq<seq<Byte>>)
    ensures |ps| == |rs|
  {
    seq(|rs|, i requires 0 <= i < |rs| => rs[i].payload)
  }

  function Payloads(fs: seq<Frame>): (ps: seq<seq<Byte>>)
    ensures |ps| == |fs|
  {
    seq(|fs|, i requires 0 <= i < |fs| => fs[i].payload)
  }

  predicate FaultFree(rs: seq<Request>) {
    forall i | 0 <= i < |rs| :: rs[i].fault.NoFault?
  }

  ghost predicate AllAcceptable(rs: seq<Request>) {
    forall i | 0 <= i < |rs| :: Acceptable(rs[i])
  }

  /** `ps` are the payloads of `rs` in order, but for some whose append met a fault. */
  ghost predicate WrittenOf(rs: seq<Request>, ps: seq<seq<Byte>>)
    decreases |rs|
  {
    if rs == [] then ps == []
    else
      var n, r, m := |rs| - 1, rs[|rs| - 1], |ps| - 1;
      || (ps != [] && ps[m] == r.payload && WrittenOf(rs[..n], ps[..m]))
      || (!r.fault.NoFault? && WrittenOf(rs[..n], ps))
  }

  lemma {:induction false} FaultFreeWritten(rs: seq<Request>, ps: seq<seq<Byte>>)
    requires FaultFree(rs) && WrittenOf(rs, ps)
    ensures ps == Asked(rs)
  {
    if rs == [] {
    } else {
      var n := |rs| - 1;
      FaultFreeWritten(rs[..n], ps[..|ps| - 1]);
      assert Asked(rs) == Asked(rs[..n]) + [rs[n].payload];
    }
  }

  lemma {:induction false} WrittenOfConcat(rs: seq<Request>, ps: seq<seq<Byte>>, rs': seq<Request>, ps': seq<seq<Byte>>)
    requires WrittenOf(rs, ps) && WrittenOf(rs', ps')
    ensures WrittenOf(rs + rs', ps + ps')
    decreases |rs'|
  {
    if rs' == [] {
      assert rs + rs' == rs && ps + ps' == ps;
    } else {
      var n, m := |rs'| - 1, |ps'| - 1;
      assert (rs + rs')[..|rs + rs'| - 1] == rs + rs'[..n];
      if ps' != [] && ps'[m] == rs'[n].payload && WrittenOf(rs'[..n], ps'[..m]) {
        WrittenOfConcat(rs, ps, rs'[..n], ps'[..m]);
        assert (ps + ps')[..|ps + ps'| - 1] == ps + ps'[..m];
      } else {
        WrittenOfConcat(rs, ps, rs'[..n], ps');
      }
    }
  }

  lemma {:induction false} SizeOfConcat(rs: seq<Request>, rs': seq<Request>)
    ensures SizeOf(rs + rs') == SizeOf(rs) + SizeOf(rs')
    decreases |rs'|
  {
    if rs' == [] {
      assert rs + rs' == rs;
    } else {
      SizeOfConcat(rs, rs'[..|rs'| - 1]);
      assert (rs + rs')[..|rs + rs'| - 1] == rs + rs'[..|rs'| - 1];
    }
  }

  /** One request more is written, or left out because of its fault. */
  ghost predicate OneMore(r: Request, written: seq<Frame>, written': seq<Frame>) {
    || Payloads(written') == Payloads(written) + [r.payload]
    || (!r.fault.NoFault? && written' == written)
  }

  /** The first `k` requests have been dealt with. */
  ghost predicate AskedSoFar(batch: seq<Request>, k: nat, written: seq<Frame>)
    requires k <= |batch|
  {
    WrittenOf(batch[..k], Payloads(written)) == true
  }

  lemma NothingAsked(batch: seq<Request>)
    ensures AskedSoFar(batch, 0, [])
  {
    assert batch[..0] == [];
  }

  lemma NextAsked(batch: seq<Request>, k: nat, written: seq<Frame>, written': seq<Frame>)
    requires k < |batch| && AskedSoFar(batch, k, written) && OneMore(batch[k], written, written')
    ensures AskedSoFar(batch, k + 1, written')
  {
    assert batch[..k + 1][..k] == batch[..k];
    assert (Payloads(written) + [batch[k].payload])[..|written|] == Payloads(written);
  }

  lemma AllAsked(batch: seq<Request>, written: seq<Frame>)
    requires AskedSoFar(batch, |batch|, written)
    ensures WrittenOf(batch, Payloads(written)) && (FaultFree(batch) ==> Payloads(written) == Asked(batch))
  {
    assert batch[..|batch|] == batch;
    if FaultFree(batch) {
      FaultFreeWritten(batch, Payloads(written));
    }
  }

  /** What the requests can add to the log. */
  function SizeOf(rs: seq<Request>): nat {
    if rs == [] then 0 else SizeOf(rs[..|rs| - 1]) + FullSize(|rs[|rs| - 1].payload|)
  }

  /** The first `k` requests evict nothing if they fit under the cap. */
  ghost predicate SparesSoFar(cfg: Config, c: Store, m: Model, c': Store, m': Model, batch: seq<Request>, k: nat)
    requires k <= |batch|
  {
    Spares(cfg, c, m, c', m', SizeOf(batch[..k])) == true
  }

  lemma SparesAtFirst(cfg: Config, c: Store, m: Model, batch: seq<Request>)
    ensures SparesSoFar(cfg, c, m, c, m, batch, 0)
  {
  }

  lemma SparesNext(cfg: Config, c: Store, m: Model, c': Store, m': Model, c'': Store, m'': Model,
                   batch: seq<Request>, k: nat)
    requires k < |batch| && SparesSoFar(cfg, c, m, c', m', batch, k)
    requires Spares(cfg, c', m', c'', m'', FullSize(|batch[k].payload|))
    ensures SparesSoFar(cfg, c, m, c'', m'', batch, k + 1)
  {
    assert batch[..k + 1][..k] == batch[..k];
    SparesTwice(cfg, c, m, c', m', c'', m'', SizeOf(batch[..k]), FullSize(|batch[k].payload|));
  }

  /** A sync changes nothing in this. */
  lemma SparesSync(cfg: Config, c: Store, m: Model, c': Store, m': Model, c'': Store, m'': Model,
                   batch: seq<Request>, k: nat)
    requires k <= |batch| && SparesSoFar(cfg, c, m, c', m', batch, k) && NothingEvicted(c', m', c'', m'', 0)
    ensures SparesSoFar(cfg, c, m, c'', m'', batch, k)
  {
    SparesTwice(cfg, c, m, c', m', c'', m'', SizeOf(batch[..k]), 0);
  }

  lemma SparesAll(cfg: Config, c: Store, m: Model, c': Store, m': Model, batch: seq<Request>)
    requires SparesSoFar(cfg, c, m, c', m', batch, |batch|)
    ensures Spares(cfg, c, m, c', m', SizeOf(batch))
  {
    assert batch[..|batch|] == batch;
  }

  /** A queue that lost nothing is the whole of it. */
  lemma WholeQueue(m: Model, m': Model, written: seq<Frame>, c: Store, c': Store, n: nat)
    requires Spool.SuffixOf(Items(Spool.Backlog(m'.spool)), Items(Spool.Backlog(m.spool)) + written)
    requires m'.spool.log == m.spool.log + written && NothingEvicted(c, m, c', m', n)
    ensures Items(Spool.Backlog(m'.spool)) == Items(Spool.Backlog(m.spool)) + written
  {
  }

  /**
    One turn of the writer loop over everything queued. When the lock is released
    everything that was written has been synced, whatever writes failed; the queue
    is what it was plus the frames written, in order, less a prefix that the cap
    evicted; and every payload was written but those whose append met a fault.
   */
  method GroupCommit(w: WalInner, batch: seq<Request>, fsyncFrames: nat) returns (ghost written: seq<Frame>)
    requires w.Valid() && fsyncFrames >= 1 && batch != [] && AllAcceptable(batch)
    modifies w
    ensures w.Valid() && OnlyWriter(old(w.model), w.model)
    ensures Quiet(w.st, w.model)
    ensures Spool.SuffixOf(w.Queue(), old(w.Queue()) + written)
    ensures w.model.spool.log == old(w.model.spool.log) + written
    ensures WrittenOf(batch, Payloads(written)) && (FaultFree(batch) ==> Payloads(written) == Asked(batch))
    ensures TurnStaysWithin(w.cfg, old(w.st), w.st, batch)
    ensures Numbered(old(w.st), old(w.model), w.st, w.model, |batch|)
    ensures Spares(w.cfg, old(w.st), old(w.model), w.st, w.model, SizeOf(batch))
    ensures FaultFree(batch) ==> w.model.loose == old(w.model.loose)
    ensures old(w.st.totalBytes) + SizeOf(batch) <= w.cfg.maxBytes ==> w.Queue() == old(w.Queue()) + written
  {
    var sinceSync;
    sinceSync, written := AppendAll(w, batch, fsyncFrames);
    if sinceSync > 0 {
      ghost var c, m := w.st, w.model;
      SyncNext(w, old(w.model), written);
      SparesTwice(w.cfg, old(w.st), old(w.model), c, m, w.st, w.model, SizeOf(batch), 0);
    }
    if old(w.st.totalBytes) + SizeOf(batch) <= w.cfg.maxBytes {
      WholeQueue(old(w.model), w.model, written, old(w.st), w.st, SizeOf(batch));
    }
  }

  /**
    The appends of a turn, with the syncs that the group limits ask for. At most the last
    `sinceSync` frames are not on the medium yet, and they are fewer than the limit, but
    that the first payload of a turn is not counted against it.
   */
  method AppendAll(w: WalInner, batch: seq<Request>, fsyncFrames: nat)
    returns (sinceSync: nat, ghost written: seq<Frame>)
    requires w.Valid() && fsyncFrames >= 1 && AllAcceptable(batch)
    modifies w
    ensures InTurn(w, old(w.model), written)
    ensures batch != [] && sinceSync == 0 ==> Quiet(w.st, w.model)
    ensures WrittenOf(batch, Payloads(written)) && (FaultFree(batch) ==> Payloads(written) == Asked(batch))
    ensures TurnStaysWithin(w.cfg, old(w.st), w.st, batch)
    ensures Numbered(old(w.st), old(w.model), w.st, w.model, |batch|)
    ensures Spares(w.cfg, old(w.st), old(w.model), w.st, w.model, SizeOf(batch))
    ensures FaultFree(batch) ==> w.model.loose == old(w.model.loose)
    ensures Exposes(old(w.model), w.model, sinceSync) && (sinceSync < fsyncFrames || sinceSync <= 1)
  {
    written, sinceSync := [], 0;
    ghost var c, m := w.st, w.model;
    TurnStarts(w);
    NothingSoFar(w.cfg, c, m, batch, fsyncFrames);
    for k := 0 to |batch|
      invariant InTurn(w, m, written) && SoFar(w.cfg, c, m, w.st, w.model, batch, k, written, sinceSync, fsyncFrames)
    {
      sinceSync, written := AppendAndSync(w, batch, k, c, m, written, sinceSync, fsyncFrames);
    }
    AllSoFar(w.cfg, c, m, w.st, w.model, batch, written, sinceSync, fsyncFrames);
  }

  lemma NothingSoFar(cfg: Config, c: Store, m: Model, batch: seq<Request>, fsyncFrames: nat)
    ensures SoFar(cfg, c, m, c, m, batch, 0, [], 0, fsyncFrames)
  {
    NothingAsked(batch);
    SparesAtFirst(cfg, c, m, batch);
  }

  lemma AllSoFar(cfg: Config, c: Store, m: Model, c': Store, m': Model, batch: seq<Request>, written: seq<Frame>,
                 sinceSync: nat, fsyncFrames: nat)
    requires SoFar(cfg, c, m, c', m', batch, |batch|, written, sinceSync, fsyncFrames)
    ensures batch != [] && sinceSync == 0 ==> Quiet(c', m')
    ensures WrittenOf(batch, Payloads(written)) && (FaultFree(batch) ==> Payloads(written) == Asked(batch))
    ensures TurnStaysWithin(cfg, c, c', batch) && Numbered(c, m, c', m', |batch|)
    ensures Spares(cfg, c, m, c', m', SizeOf(batch))
    ensures FaultFree(batch) ==> m'.loose == m.loose
    ensures Exposes(m, m', sinceSync) && (sinceSync < fsyncFrames || sinceSync <= 1)
  {
    AllAsked(batch, written);
    SparesAll(cfg, c, m, c', m', batch);
  }

  /** What holds after the first `k` appends of a turn that started with `c` and `m`. */
  ghost predicate SoFar(cfg: Config, c: Store, m: Model, c': Store, m': Model, batch: seq<Request>, k: nat,
                        written: seq<Frame>, sinceSync: nat, fsyncFrames: nat)
    requires k <= |batch|
  {
    (&& (k > 0 && sinceSync == 0 ==> Quiet(c', m')) && Carried(cfg, c, m, c', m', batch, k, written)
     && Paced(m, m', k, sinceSync, fsyncFrames)) == true
  }

  /** One append, and the sync if a group limit asks for it. */
  method AppendAndSync(w: WalInner, batch: seq<Request>, k: nat, ghost c: Store, ghost m: Model,
                       ghost written: seq<Frame>, sinceSync: nat, fsyncFrames: nat)
    returns (sinceSync': nat, ghost written': seq<Frame>)
    requires k < |batch| && AllAcceptable(batch) && InTurn(w, m, written)
    requires SoFar(w.cfg, c, m, w.st, w.model, batch, k, written, sinceSync, fsyncFrames)
    modifies w
    ensures InTurn(w, m, written')
    ensures SoFar(w.cfg, c, m, w.st, w.model, batch, k + 1, written', sinceSync', fsyncFrames)
    ensures k > 0 && batch[k].intervalElapsed ==> sinceSync' == 0
  {
    ghost var c1, m1 := w.st, w.model;
    written' := AppendNext(w, batch[k], m, written);
    ghost var c2, m2 := w.st, w.model;
    sinceSync' := sinceSync + 1;
    // The payload that started the turn is not checked against the group limits.
    if k > 0 && (sinceSync' >= fsyncFrames || batch[k].intervalElapsed) {
      SyncNext(w, m, written');
      sinceSync' := 0;
      SyncSoFar(w.cfg, c, m, c1, m1, c2, m2, w.st, w.model, batch, k, written, written', sinceSync, fsyncFrames);
    } else {
      AppendSoFar(w.cfg, c, m, c1, m1, c2, m2, batch, k, written, written', sinceSync, fsyncFrames);
    }
  }

  /** What an append does. */
  ghost predicate OneAppended(cfg: Config, c: Store, m: Model, c': Store, m': Model, r: Request,
                              written: seq<Frame>, written': seq<Frame>) {
    (&& OneMore(r, written, written') && StaysWithin(cfg, c, c', FrameLen(|r.payload|)) && Numbered(c, m, c', m', 1)
     && Spares(cfg, c, m, c', m', FullSize(|r.payload|)) && Exposes(m, m', 1)
     && (r.fault.NoFault? ==> m'.loose == m.loose)) == true
  }

  lemma AppendSoFar(cfg: Config, c: Store, m: Model, c1: Store, m1: Model, c2: Store, m2: Model, batch: seq<Request>,
                    k: nat, written: seq<Frame>, written': seq<Frame>, sinceSync: nat, fsyncFrames: nat)
    requires k < |batch| && SoFar(cfg, c, m, c1, m1, batch, k, written, sinceSync, fsyncFrames)
    requires OneAppended(cfg, c1, m1, c2, m2, batch[k], written, written')
    requires k == 0 || sinceSync + 1 < fsyncFrames
    ensures SoFar(cfg, c, m, c2, m2, batch, k + 1, written', sinceSync + 1, fsyncFrames)
  {
    AppendCarries(cfg, c, m, c1, m1, c2, m2, batch, k, written, written');
    PacedNext(m, m1, m2, k, sinceSync, fsyncFrames);
    PacedOn(m, m2, k, sinceSync + 1, fsyncFrames);
  }

  /** What the pace of syncs does not matter for. */
  ghost predicate Carried(cfg: Config, c: Store, m: Model, c': Store, m': Model, batch: seq<Request>, k: nat,
                          written: seq<Frame>)
    requires k <= |batch|
  {
    (&& AskedSoFar(batch, k, written) && TurnStaysWithin(cfg, c, c', batch) && Numbered(c, m, c', m', k)
     && SparesSoFar(cfg, c, m, c', m', batch, k) && StaysPacked(m, m', batch)) == true
  }

  lemma AppendCarries(cfg: Config, c: Store, m: Model, c1: Store, m1: Model, c2: Store, m2: Model,
                      batch: seq<Request>, k: nat, written: seq<Frame>, written': seq<Frame>)
    requires k < |batch| && Carried(cfg, c, m, c1, m1, batch, k, written)
    requires OneAppended(cfg, c1, m1, c2, m2, batch[k], written, written')
    ensures Carried(cfg, c, m, c2, m2, batch, k + 1, written')
  {
    NextAsked(batch, k, written, written');
    TurnNext(cfg, c, c1, c2, batch, k);
    NumberedTwice(c, m, c1, m1, c2, m2, k, 1);
    SparesNext(cfg, c, m, c1, m1, c2, m2, batch, k);
  }

  lemma SyncCarries(cfg: Config, c: Store, m: Model, c1: Store, m1: Model, c2: Store, m2: Model,
                    batch: seq<Request>, k: nat, written: seq<Frame>)
    requires k <= |batch| && Carried(cfg, c, m, c1, m1, batch, k, written)
    requires c2 == c1.(disk := c2.disk) && m2.ordered == m1.ordered && m2.loose == m1.loose
    requires NothingEvicted(c1, m1, c2, m2, 0)
    ensures Carried(cfg, c, m, c2, m2, batch, k, written)
  {
    SparesSync(cfg, c, m, c1, m1, c2, m2, batch, k);
  }

  lemma SyncSoFar(cfg: Config, c: Store, m: Model, c1: Store, m1: Model, c2: Store, m2: Model, c3: Store, m3: Model,
                  batch: seq<Request>, k: nat, written: seq<Frame>, written': seq<Frame>, sinceSync: nat,
                  fsyncFrames: nat)
    requires k < |batch| && SoFar(cfg, c, m, c1, m1, batch, k, written, sinceSync, fsyncFrames)
    requires OneAppended(cfg, c1, m1, c2, m2, batch[k], written, written')
    requires c3 == c2.(disk := c3.disk) && m3.ordered == m2.ordered && m3.loose == m2.loose
    requires NothingEvicted(c2, m2, c3, m3, 0) && Quiet(c3, m3) && m3.spool.torn == m2.spool.torn
    ensures SoFar(cfg, c, m, c3, m3, batch, k + 1, written', 0, fsyncFrames)
  {
    AppendCarries(cfg, c, m, c1, m1, c2, m2, batch, k, written, written');
    SyncCarries(cfg, c, m, c2, m2, c3, m3, batch, k + 1, written');
    PacedNext(m, m1, m2, k, sinceSync, fsyncFrames);
    PacedSync(m, m2, m3, c3, k, sinceSync + 1, fsyncFrames);
  }

  /** Without faults no segment becomes exempt from packing. */
  ghost predicate StaysPacked(m: Model, m': Model, batch: seq<Request>) {
    (FaultFree(batch) ==> m'.loose == m.loose) == true
  }

  /** After `k` appends the last `sinceSync` of them may be off the medium, fewer than the limit or just the first. */
  ghost predicate Paced(m: Model, m': Model, k: nat, sinceSync: nat, fsyncFrames: nat) {
    (Exposes(m, m', sinceSync) && sinceSync <= k && (sinceSync < fsyncFrames || sinceSync <= 1)) == true
  }

  /** One more append, before the limit is looked at. */
  lemma PacedNext(m: Model, m': Model, m'': Model, k: nat, sinceSync: nat, fsyncFrames: nat)
    requires Paced(m, m', k, sinceSync, fsyncFrames) && Exposes(m', m'', 1)
    ensures Exposes(m, m'', sinceSync + 1) && sinceSync <= k
  {
    ExposesTwice(m, m', m'', sinceSync, 1);
  }

  lemma PacedOn(m: Model, m': Model, k: nat, sinceSync: nat, fsyncFrames: nat)
    requires Exposes(m, m', sinceSync) && sinceSync <= k + 1 && (k == 0 || sinceSync < fsyncFrames)
    ensures Paced(m, m', k + 1, sinceSync, fsyncFrames)
  {
  }

  lemma PacedSync(m: Model, m': Model, m'': Model, c'': Store, k: nat, sinceSync: nat, fsyncFrames: nat)
    requires Exposes(m, m', sinceSync) && Quiet(c'', m'') && m''.spool.torn == m'.spool.torn
    ensures Paced(m, m'', k + 1, 0, fsyncFrames)
  {
    QuietExposes(m, m', m'', sinceSync, c'');
  }

  /** A bound that admits every request of a turn. */
  ghost predicate AdmitsAll(cfg: Config, bound: nat, rs: seq<Request>) {
    forall i | 0 <= i < |rs| :: Admits(cfg, bound, FrameLen(|rs[i].payload|))
  }

  ghost predicate TurnStaysWithin(cfg: Config, c: Store, c': Store, rs: seq<Request>) {
    forall bound: nat | DiskWithin(cfg, c, bound) && AdmitsAll(cfg, bound, rs) :: DiskWithin(cfg, c', bound)
  }

  lemma TurnNext(cfg: Config, c: Store, c': Store, c'': Store, rs: seq<Request>, k: nat)
    requires k < |rs| && TurnStaysWithin(cfg, c, c', rs) && StaysWithin(cfg, c', c'', FrameLen(|rs[k].payload|))
    ensures TurnStaysWithin(cfg, c, c'', rs)
  {
    forall bound: nat | DiskWithin(cfg, c, bound) && AdmitsAll(cfg, bound, rs) ensures DiskWithin(cfg, c'', bound) {
      assert DiskWithin(cfg, c', bound);
    }
  }

  /**
    Within a turn: the store is sound, only the writer has acted, the log has grown by
    `written`, and the queue is what is left of the old one with those frames.
   */
  ghost predicate InTurn(w: WalInner, start: Model, written: seq<Frame>)
    reads w
  {
    (&& w.Valid() && OnlyWriter(start, w.model) && w.model.spool.log == start.spool.log + written
     && Spool.SuffixOf(w.Queue(), Items(Spool.Backlog(start.spool)) + written)) == true
  }

  lemma TurnStarts(w: WalInner)
    requires w.Valid()
    ensures InTurn(w, w.model, [])
  {
    WriterNoStep(w.model, w.model);
    assert Items(Spool.Backlog(w.model.spool)) + [] == w.Queue();
  }

  method AppendNext(w: WalInner, r: Request, ghost start: Model, ghost written: seq<Frame>)
    returns (ghost written': seq<Frame>)
    requires Acceptable(r) && InTurn(w, start, written)
    modifies w
    ensures InTurn(w, start, written')
    ensures OneAppended(w.cfg, old(w.st), old(w.model), w.st, w.model, r, written, written')
  {
    ghost var c, before, was, f := w.st, w.model, w.Queue(), Frame(w.st.nextBatchSeq, r.payload);
    var ok;
    ghost var kept;
    ok, kept := w.AppendOne(r.payload, r.fault);
    WriterChain(start, before, w.model);
    written' := written + More(f, ok);
    LogExtends(start.spool.log, before.spool.log, w.model.spool.log, written, f, ok);
    QueueExtends(Items(Spool.Backlog(start.spool)), written, was, kept, w.Queue(), f, ok);
    WriterExposes(w.crc, c, before, w.st, w.model, 1);
    AppendTaken(w.cfg, c, before, w.st, w.model, r, written, f, ok);
  }

  lemma AppendTaken(cfg: Config, c: Store, m: Model, c': Store, m': Model, r: Request, written: seq<Frame>, f: Frame,
                    ok: bool)
    requires f.payload == r.payload && Exposes(m, m', 1) && Numbered(c, m, c', m', 1)
    requires StaysWithin(cfg, c, c', FrameLen(|r.payload|))
    requires NeedsNoEviction(cfg, c, FrameLen(|r.payload|)) ==> NothingEvicted(c, m, c', m', FullSize(|r.payload|))
    requires Appended(cfg, c, c', FrameLen(|r.payload|), r.fault, ok)
    requires Rotated(cfg, c, m, c', m', FrameLen(|r.payload|), r.fault, ok)
    ensures OneAppended(cfg, c, m, c', m', r, written, written + More(f, ok))
  {
    RequestTaken(r, written, f, ok);
  }

  function More(f: Frame, ok: bool): seq<Frame> { if ok then [f] else [] }

  lemma LogExtends(start: seq<Frame>, log: seq<Frame>, log': seq<Frame>, written: seq<Frame>, f: Frame, ok: bool)
    requires log == start + written && log' == log + if ok then [f] else []
    ensures log' == start + (written + More(f, ok))
  {
  }

  lemma RequestTaken(r: Request, written: seq<Frame>, f: Frame, ok: bool)
    requires f.payload == r.payload && (r.fault.NoFault? ==> ok)
    ensures OneMore(r, written, written + More(f, ok))
  {
    assert ok ==> Payloads(written + [f]) == Payloads(written) + [f.payload];
    assert written + [] == written;
  }

  lemma QueueExtends(queue: seq<Frame>, written: seq<Frame>, was: seq<Frame>, kept: seq<Frame>, now: seq<Frame>,
                     f: Frame, ok: bool)
    requires Spool.SuffixOf(was, queue + written) && Spool.SuffixOf(kept, was)
    requires now == if ok then kept + [f] else kept
    ensures Spool.SuffixOf(now, queue + (written + More(f, ok)))
  {
    var more := More(f, ok);
    SuffixExtends(was, queue + written, kept, more);
    assert queue + written + more == queue + (written + more) && kept + more == now;
  }

  method SyncNext(w: WalInner, ghost start: Model, ghost written: seq<Frame>)
    requires InTurn(w, start, written)
    modifies w
    ensures InTurn(w, start, written) && w.st == old(w.st).(disk := w.st.disk)
    ensures w.model.ordered == old(w.model.ordered) && NothingEvicted(old(w.st), old(w.model), w.st, w.model, 0)
    ensures Quiet(w.st, w.model) && w.model.loose == old(w.model.loose)
    ensures w.model.spool.torn == old(w.model.spool.torn)
  {
    ghost var c, before := w.st, w.model;
    w.SyncActive();
    WriterChain(start, before, w.model);
    WriterExposes(w.crc, c, before, w.st, w.model, 0);
  }
}
