/**
  A crash of the store followed by recovery is the crash step of the spool
  machine. A crash keeps at least the synced bytes of every file; what it leaves
  in the place of unsynced bytes is arbitrary.

  A predicate compared with `true` is handled by the verifier as one fact, not as its
  conjuncts.
 */
module CrashRecovery {
  import opened Codec
  import opened Options
  import opened Layout
  import opened StoreState
  import opened Recovery
  import opened WalStore
  import opened Packing
  import Spool

  /** `after` is what a crash may leave of `before`. */
  predicate CrashedFile(before: File, after: File) {
    && before.synced <= after.synced <= |after.bytes| <= |before.bytes|
    && after.bytes[..before.synced] == before.bytes[..before.synced]
  }

  predicate Crashed(before: Disk, after: Disk) {
    && after.Keys == before.Keys
    && forall id | id in before :: CrashedFile(before[id], after[id])
  }

  // ---- what becomes of a segment's file -----------------------------------

  /** A settled file survives unchanged. */
  lemma SettledSurvives(crc: Checksum, before: File, after: File, seg: Spool.Segment<Frame>)
    requires FileHolds(crc, before, seg, []) && Settled(before) && CrashedFile(before, after)
    ensures after == before && KeptFrames(crc, after.bytes) == Items(seg.entries)
    ensures KeptLength(crc, after.bytes) == |after.bytes|
  {
    assert after.bytes == before.bytes;
    ScanEncoded(crc, Items(seg.entries), []);
    assert Items(seg.entries) + [] == Items(seg.entries);
  }

  /** The synced entries of a file that was being written survive as its first frames. */
  lemma SyncedSurvive(crc: Checksum, before: File, after: File, seg: Spool.Segment<Frame>, junk: seq<Byte>)
    requires FileHolds(crc, before, seg, junk) && CrashedFile(before, after) && seg.synced > 0
    ensures ValidHeader(after.bytes)
    ensures Items(seg.entries)[..seg.synced] <= KeptFrames(crc, after.bytes)
  {
    var fs, k := Items(seg.entries), seg.synced;
    var n, part := FrameOffset(crc, fs, k), EncodeFrames(crc, fs[..k]);
    assert fs == fs[..k] + fs[k..];
    EncodeConcat(crc, fs[..k], fs[k..]);
    assert after.bytes[..n] == after.bytes[..before.synced][..n];
    assert before.bytes[..n] == before.bytes[..before.synced][..n];
    assert after.bytes[..16] == after.bytes[..n][..16] == before.bytes[..16];
    SameHeader(before.bytes, after.bytes);
    assert before.bytes[16..n] == before.bytes[16..][..n - 16] == part;
    assert after.bytes[16..n] == after.bytes[..n][16..] == before.bytes[16..n];
    assert after.bytes[16..] == part + after.bytes[n..];
    ScanEncoded(crc, fs[..k], after.bytes[n..]);
  }

  /** The file of a surviving segment, cut by recovery, holds exactly the frames the walk found. */
  lemma CutHolds(crc: Checksum, after: File, seg: Spool.Segment<Frame>)
    requires ValidHeader(after.bytes) && KeptFrames(crc, after.bytes) == Items(seg.entries)
    requires after.synced <= |after.bytes| && seg.synced <= |seg.entries|
    requires seg.synced > 0 ==> FrameOffset(crc, Items(seg.entries), seg.synced) <= after.synced
    ensures FileHolds(crc, Truncate(after, KeptLength(crc, after.bytes)), seg, [])
    ensures Describes(crc, MetaOf(crc, seg.id, after.bytes), seg)
  {
    var n := KeptLength(crc, after.bytes);
    var cut := after.bytes[..n];
    assert cut[..16] == after.bytes[..16];
    SameHeader(after.bytes, cut);
    assert cut[16..] == after.bytes[16..n] == EncodeFrames(crc, Items(seg.entries)) + [];
    ScanSound(crc, after.bytes[16..]);
    OffsetWithin(crc, Items(seg.entries), seg.synced);
  }

  // ---- the crash step -----------------------------------------------------

  /** The crash step that matches what the crash left of the back segment's file. */
  ghost function CrashOp(crc: Checksum, s: Spool.State<Frame>, d: Disk): Op
    requires s.segs != [] ==> Spool.Back(s).id in d
  {
    if s.segs == [] then Spool.Crash(true, [], 0)
    else
      var b := Spool.Back(s);
      var bytes := d[b.id].bytes;
      if ValidHeader(bytes) then Spool.Crash(true, Spool.Drop(KeptFrames(crc, bytes), b.synced), b.synced)
      else Spool.Crash(false, [], 0)
  }

  lemma ItemsOfRecovered(es: seq<Spool.Entry<Frame>>, k: nat, from: nat, kept: seq<Frame>)
    requires k <= |es| && Items(es)[..k] <= kept
    ensures Items(Spool.Take(es, k) + Spool.Fresh(from, Spool.Drop(kept, k))) == kept
  {
    var a, b := Spool.Take(es, k), Spool.Fresh(from, Spool.Drop(kept, k));
    ItemsConcat(a, b);
    assert Items(a) == kept[..k] && Items(b) == kept[k..];
  }

  lemma BackKnown(crc: Checksum, c: Store, m: Model, d: Disk)
    requires Sound(crc, c, m) && Crashed(c.disk, d) && m.spool.segs != []
    ensures var b := Spool.Back(m.spool);
            && b.id in c.disk && b.id in d && CrashedFile(c.disk[b.id], d[b.id])
            && FileHolds(crc, c.disk[b.id], b, m.junk)
            && (!m.spool.open ==> Settled(c.disk[b.id]) && m.junk == [])
  {
    assert Stored(crc, c.disk, m.spool.segs, m.spool.open, m.junk, |m.spool.segs| - 1);
  }

  /** What the walk finds in the back segment's file starts with its synced entries. */
  lemma BackRecovered(crc: Checksum, c: Store, m: Model, d: Disk)
    requires Sound(crc, c, m) && Crashed(c.disk, d) && m.spool.segs != []
    ensures var b := Spool.Back(m.spool);
            && b.id in d && b.synced <= |b.entries|
            && (!m.spool.open || b.synced > 0 ==> ValidHeader(d[b.id].bytes))
            && (ValidHeader(d[b.id].bytes) ==> Items(b.entries)[..b.synced] <= KeptFrames(crc, d[b.id].bytes))
  {
    BackKnown(crc, c, m, d);
    var b := Spool.Back(m.spool);
    if !m.spool.open {
      SettledSurvives(crc, c.disk[b.id], d[b.id], b);
      assert Items(b.entries)[..b.synced] <= Items(b.entries);
    } else if b.synced > 0 {
      SyncedSurvive(crc, c.disk[b.id], d[b.id], b, m.junk);
    }
  }

  lemma CrashEnabled(crc: Checksum, c: Store, m: Model, d: Disk)
    requires Sound(crc, c, m) && Crashed(c.disk, d)
    ensures m.spool.segs != [] ==> Spool.Back(m.spool).id in d
    ensures Spool.Enabled(m.spool, CrashOp(crc, m.spool, d))
  {
    if m.spool.segs != [] {
      BackRecovered(crc, c, m, d);
    }
  }

  ghost function Recovered(crc: Checksum, s: Spool.State<Frame>, d: Disk): Spool.State<Frame>
    requires s.segs != [] ==> Spool.Back(s).id in d
    requires Spool.Enabled(s, CrashOp(crc, s, d))
  {
    Spool.Step(s, CrashOp(crc, s, d))
  }

  /** The file of `seg` after the crash carries exactly the entries of `seg`. */
  ghost predicate Carries(crc: Checksum, d: Disk, seg: Spool.Segment<Frame>) {
    && seg.id in d && ValidHeader(d[seg.id].bytes) && d[seg.id].synced <= |d[seg.id].bytes|
    && KeptFrames(crc, d[seg.id].bytes) == Items(seg.entries)
    && seg.synced <= |seg.entries|
    && (seg.synced > 0 ==> FrameOffset(crc, Items(seg.entries), seg.synced) <= d[seg.id].synced)
  }

  lemma OlderCarried(crc: Checksum, c: Store, m: Model, d: Disk, i: nat)
    requires Sound(crc, c, m) && Crashed(c.disk, d) && i < |m.spool.segs| - 1
    ensures Carries(crc, d, m.spool.segs[i])
    ensures Settled(d[m.spool.segs[i].id])
    ensures KeptLength(crc, d[m.spool.segs[i].id].bytes) == |d[m.spool.segs[i].id].bytes|
  {
    assert Stored(crc, c.disk, m.spool.segs, m.spool.open, m.junk, i);
    SettledSurvives(crc, c.disk[m.spool.segs[i].id], d[m.spool.segs[i].id], m.spool.segs[i]);
  }

  lemma BackCarried(crc: Checksum, c: Store, m: Model, d: Disk)
    requires Sound(crc, c, m) && Crashed(c.disk, d) && m.spool.segs != []
    requires Spool.Back(m.spool).id in d && ValidHeader(d[Spool.Back(m.spool).id].bytes)
    ensures var b := Spool.Back(m.spool);
            var kept := KeptFrames(crc, d[b.id].bytes);
            Carries(crc, d, Spool.Segment(b.id, Spool.Take(b.entries, b.synced)
                                                + Spool.Fresh(|m.spool.log|, Spool.Drop(kept, b.synced)), b.synced))
  {
    BackKnown(crc, c, m, d);
    BackRecovered(crc, c, m, d);
    var b := Spool.Back(m.spool);
    var kept := KeptFrames(crc, d[b.id].bytes);
    ItemsOfRecovered(b.entries, b.synced, |m.spool.log|, kept);
    assert kept[..b.synced] == Items(b.entries)[..b.synced];
  }

  /** Every segment that the crash step keeps is carried by its file. */
  lemma RecoveredCarried(crc: Checksum, c: Store, m: Model, d: Disk, i: nat)
    requires Sound(crc, c, m) && Crashed(c.disk, d)
    requires m.spool.segs != [] ==> Spool.Back(m.spool).id in d
    requires Spool.Enabled(m.spool, CrashOp(crc, m.spool, d)) && i < |Recovered(crc, m.spool, d).segs|
    ensures var s' := Recovered(crc, m.spool, d);
            && Carries(crc, d, s'.segs[i])
            && (i < |s'.segs| - 1 ==>
                  var file := d[s'.segs[i].id]; Settled(file) && KeptLength(crc, file.bytes) == |file.bytes|)
  {
    if i < |m.spool.segs| - 1 {
      OlderCarried(crc, c, m, d, i);
    } else {
      BackCarried(crc, c, m, d);
    }
  }

  /** A leftover of a failed rotation is too short to survive. */
  lemma HeaderMeansLive(crc: Checksum, c: Store, m: Model, d: Disk, id: nat)
    requires Sound(crc, c, m) && Crashed(c.disk, d) && id in d && ValidHeader(d[id].bytes)
    ensures IsLive(m.spool.segs, id)
  {
    assert CrashedFile(c.disk[id], d[id]);
  }

  /** The crash step keeps a segment whose file still has its header. */
  lemma LiveIsKept(crc: Checksum, s: Spool.State<Frame>, d: Disk, id: nat)
    requires s.segs != [] ==> Spool.Back(s).id in d
    requires Spool.Enabled(s, CrashOp(crc, s, d))
    requires IsLive(s.segs, id) && id in d && ValidHeader(d[id].bytes)
    ensures IsLive(Recovered(crc, s, d).segs, id)
  {
    var i :| 0 <= i < |s.segs| && s.segs[i].id == id;
    assert Recovered(crc, s, d).segs[i].id == id;
  }

  /** Exactly the files of those segments survive recovery. */
  lemma SurvivorsAreRecovered(crc: Checksum, c: Store, m: Model, d: Disk, id: nat)
    requires Sound(crc, c, m) && Crashed(c.disk, d)
    requires m.spool.segs != [] ==> Spool.Back(m.spool).id in d
    requires Spool.Enabled(m.spool, CrashOp(crc, m.spool, d))
    ensures id in d && ValidHeader(d[id].bytes) <==> IsLive(Recovered(crc, m.spool, d).segs, id)
  {
    var s' := Recovered(crc, m.spool, d);
    if IsLive(s'.segs, id) {
      var i :| 0 <= i < |s'.segs| && s'.segs[i].id == id;
      RecoveredCarried(crc, c, m, d, i);
    }
    if id in d && ValidHeader(d[id].bytes) {
      HeaderMeansLive(crc, c, m, d, id);
      LiveIsKept(crc, m.spool, d, id);
    }
  }

  ghost function Ids(segs: seq<Spool.Segment<Frame>>): (ids: seq<nat>)
    ensures |ids| == |segs| && forall i | 0 <= i < |ids| :: ids[i] == segs[i].id
  {
    seq(|segs|, i requires 0 <= i < |segs| => segs[i].id)
  }

  lemma IdsRise(segs: seq<Spool.Segment<Frame>>)
    requires Spool.IdsAscend(segs)
    ensures Rising(Ids(segs)) && forall id :: id in Ids(segs) <==> IsLive(segs, id)
  {
    forall i, j | 0 <= i < j < |segs| ensures LessAt(Ids(segs), i, j) {
      assert Spool.IdBelow(segs, i, j);
    }
  }

  lemma SurvivorList(crc: Checksum, c: Store, m: Model, d: Disk, ids: seq<nat>)
    requires Sound(crc, c, m) && Crashed(c.disk, d) && Lists(ids, d)
    requires m.spool.segs != [] ==> Spool.Back(m.spool).id in d
    requires Spool.Enabled(m.spool, CrashOp(crc, m.spool, d))
    ensures Survivors(d, ids) == Ids(Recovered(crc, m.spool, d).segs)
  {
    var segs := Recovered(crc, m.spool, d).segs;
    Spool.StepKeepsInv(m.spool, CrashOp(crc, m.spool, d));
    IdsRise(segs);
    SurvivorsAre(d, ids);
    forall id ensures id in Survivors(d, ids) <==> id in Ids(segs) {
      SurvivorsAreRecovered(crc, c, m, d, id);
    }
    RisingIsUnique(Survivors(d, ids), Ids(segs));
  }

  // ---- the recovered store ------------------------------------------------

  /** The rebuilt files and metadata represent segments that their files carry. */
  lemma RebuiltRepresents(crc: Checksum, d: Disk, ids: seq<nat>, st: Store, segs: seq<Spool.Segment<Frame>>, open: bool)
    requires Lists(ids, d) && Rebuilt(crc, d, ids, st) && Survivors(d, ids) == Ids(segs)
    requires AllCarried(crc, d, segs) && (segs != [] ==> open)
    ensures Represents(crc, st.disk, segs, open, []) && DescribesAll(crc, st.segments, segs)
  {
    SurvivorsAre(d, ids);
    forall i | 0 <= i < |segs|
      ensures Stored(crc, st.disk, segs, open, [], i)
      ensures |st.segments| == |segs| && DescribedAt(crc, st.segments, segs, i)
    {
      assert CarriedAt(crc, d, segs, i);
      CutHolds(crc, d[segs[i].id], segs[i]);
    }
  }

  ghost predicate CarriedAt(crc: Checksum, d: Disk, segs: seq<Spool.Segment<Frame>>, i: nat)
    requires i < |segs|
  {
    && Carries(crc, d, segs[i])
    && (i < |segs| - 1 ==> Settled(d[segs[i].id]) && KeptLength(crc, d[segs[i].id].bytes) == |d[segs[i].id].bytes|)
  }

  ghost predicate AllCarried(crc: Checksum, d: Disk, segs: seq<Spool.Segment<Frame>>) {
    forall i | 0 <= i < |segs| :: CarriedAt(crc, d, segs, i)
  }

  lemma RecoveredAllCarried(crc: Checksum, c: Store, m: Model, d: Disk)
    requires Sound(crc, c, m) && Crashed(c.disk, d)
    requires m.spool.segs != [] ==> Spool.Back(m.spool).id in d
    requires Spool.Enabled(m.spool, CrashOp(crc, m.spool, d))
    ensures AllCarried(crc, d, Recovered(crc, m.spool, d).segs)
  {
    var segs := Recovered(crc, m.spool, d).segs;
    forall i | 0 <= i < |segs| ensures CarriedAt(crc, d, segs, i) {
      RecoveredCarried(crc, c, m, d, i);
    }
  }

  /** Recovery rebuilds the segment numbers: all files belong to segments, and the next number is above them. */
  lemma RebuiltNames(crc: Checksum, d: Disk, ids: seq<nat>, st: Store, segs: seq<Spool.Segment<Frame>>)
    requires Lists(ids, d) && Rebuilt(crc, d, ids, st) && Survivors(d, ids) == Ids(segs)
    ensures Below(st.disk, st.nextSeq) && OrphansShort(st.disk, segs)
  {
    forall id | id in st.disk ensures id < st.nextSeq {
      LastIsGreatest(ids, id);
    }
    forall id | id in st.disk ensures IsLive(segs, id) {
      SurvivorIff(d, ids, id);
      var i :| 0 <= i < |segs| && Ids(segs)[i] == id;
    }
  }

  lemma RebuiltCursor(crc: Checksum, d: Disk, ids: seq<nat>, st: Store, m: Model)
    requires Lists(ids, d) && Rebuilt(crc, d, ids, st) && Survivors(d, ids) == Ids(m.spool.segs)
    requires AtStart(m.spool) && m.junk == []
    ensures CursorOk(crc, st, m.spool) && ActiveOk(st, m)
    ensures st.totalBytes == Total(st.segments) && st.droppedBatches == m.spool.dropped
  {
    SurvivorsAre(d, ids);
    if m.spool.segs != [] {
      OffsetZero(crc, Items(m.spool.segs[0].entries));
    }
  }

  predicate AtStart(s: Spool.State<Frame>) {
    s.read == 0 && !s.peeked && s.dropped == 0 && (s.open <==> s.segs != [])
  }

  /** What recovery rebuilds from files that carry the segments of a spool state is a sound store for it. */
  lemma RebuiltSound(crc: Checksum, d: Disk, ids: seq<nat>, st: Store, m: Model)
    requires Lists(ids, d) && Rebuilt(crc, d, ids, st) && Survivors(d, ids) == Ids(m.spool.segs)
    requires AllCarried(crc, d, m.spool.segs) && AtStart(m.spool) && m.junk == []
    requires Spool.Inv(m.spool) && Spool.Reaches(Spool.Initial(), m.trace, m.spool) && OrderOk(st, m)
    ensures Sound(crc, st, m)
  {
    RebuiltRepresents(crc, d, ids, st, m.spool.segs, m.spool.open);
    RebuiltNames(crc, d, ids, st, m.spool.segs);
    RebuiltCursor(crc, d, ids, st, m);
  }

  /** The model of the recovered store: one crash step further, without torn bytes. */
  ghost function RecoveredModel(crc: Checksum, m: Model, d: Disk, st: Store): Model
    requires m.spool.segs != [] ==> Spool.Back(m.spool).id in d
    requires Spool.Enabled(m.spool, CrashOp(crc, m.spool, d))
  {
    var m' := After(m, CrashOp(crc, m.spool, d));
    m'.(junk := [], ordered := LiveBatchesAscend(m'.spool, st.nextBatchSeq), loose := OlderIds(m'.spool.segs))
  }

  /**
    A crash at any moment, torn bytes included, followed by recovery is one crash
    step of the spool machine, and leaves a store that satisfies its invariant.
   */
  lemma RecoveredSound(crc: Checksum, c: Store, m: Model, d: Disk, ids: seq<nat>, st: Store)
    requires Sound(crc, c, m) && Crashed(c.disk, d) && Lists(ids, d) && Rebuilt(crc, d, ids, st)
    ensures m.spool.segs != [] ==> Spool.Back(m.spool).id in d
    ensures Spool.Enabled(m.spool, CrashOp(crc, m.spool, d))
    ensures Sound(crc, st, RecoveredModel(crc, m, d, st))
  {
    CrashEnabled(crc, c, m, d);
    var m' := RecoveredModel(crc, m, d, st);
    SurvivorList(crc, c, m, d, ids);
    RecoveredAllCarried(crc, c, m, d);
    OpenAfterCrash(m.spool, CrashOp(crc, m.spool, d));
    StepSound(m, CrashOp(crc, m.spool, d));
    RebuiltSound(crc, d, ids, st, m');
  }

  lemma OpenAfterCrash(s: Spool.State<Frame>, op: Op)
    requires op.Crash? && Spool.Enabled(s, op)
    ensures AtStart(Spool.Step(s, op))
  {
  }

  // ---- batch numbers across a restart -------------------------------------

  lemma {:induction false} KeptAreLive(crc: Checksum, d: Disk, segs: seq<Spool.Segment<Frame>>)
    requires AllCarried(crc, d, segs)
    ensures AllValid(d, Ids(segs)) && AllKept(crc, d, Ids(segs)) == Items(Spool.Flatten(segs))
  {
    CarriedAreValid(crc, d, segs);
    if segs == [] {
    } else {
      var n := |segs| - 1;
      OlderAllCarried(crc, d, segs);
      KeptAreLive(crc, d, segs[..n]);
      assert Ids(segs)[..n] == Ids(segs[..n]);
      ItemsBack(segs);
      assert CarriedAt(crc, d, segs, n);
    }
  }

  lemma ItemsBack(segs: seq<Spool.Segment<Frame>>)
    requires segs != []
    ensures var n := |segs| - 1;
            Items(Spool.Flatten(segs)) == Items(Spool.Flatten(segs[..n])) + Items(segs[n].entries)
  {
    var n := |segs| - 1;
    assert segs == segs[..n] + [segs[n]];
    Spool.FlattenBack(segs[..n], segs[n]);
    ItemsConcat(Spool.Flatten(segs[..n]), segs[n].entries);
  }

  lemma CarriedAreValid(crc: Checksum, d: Disk, segs: seq<Spool.Segment<Frame>>)
    requires AllCarried(crc, d, segs)
    ensures AllValid(d, Ids(segs))
  {
    forall id | id in Ids(segs) ensures id in d && ValidHeader(d[id].bytes) {
      var i :| 0 <= i < |segs| && Ids(segs)[i] == id;
      assert CarriedAt(crc, d, segs, i);
    }
  }

  lemma OlderAllCarried(crc: Checksum, d: Disk, segs: seq<Spool.Segment<Frame>>)
    requires segs != [] && AllCarried(crc, d, segs)
    ensures AllCarried(crc, d, segs[..|segs| - 1])
  {
    var older := segs[..|segs| - 1];
    forall i | 0 <= i < |older| ensures CarriedAt(crc, d, older, i) {
      assert CarriedAt(crc, d, segs, i);
    }
  }

  /** Short of wrap-around the rebuilt batch counter is above every frame. */
  lemma {:induction false} NextBatchAbove(next: U64, fs: seq<Frame>)
    requires forall f | f in fs :: f.batchSeq + 1 < 0x1_0000_0000_0000_0000
    ensures NextBatchAfter(next, fs) >= next
    ensures forall f | f in fs :: f.batchSeq < NextBatchAfter(next, fs)
    decreases |fs|
  {
    if fs == [] {
    } else {
      NextBatchAbove(NextBatch(next, fs[0]), fs[1..]);
      assert forall i | 1 <= i < |fs| :: fs[i] == fs[1..][i - 1];
    }
  }

  /**
    Batch numbers keep increasing across a restart: if they were in order and the
    crash left a prefix of every file, with the torn write a strict prefix of a
    frame, then they are in order after recovery, the next one is above them, and not
    above where it was.
   */
  lemma RestartKeepsOrder(crc: Checksum, c: Store, m: Model, d: Disk, ids: seq<nat>, st: Store)
    requires Sound(crc, c, m) && Crashed(c.disk, d) && Lists(ids, d) && Rebuilt(crc, d, ids, st)
    requires LeavesPrefixes(c.disk, d) && TornFrame(crc, m.junk)
    ensures m.spool.segs != [] ==> Spool.Back(m.spool).id in d
    ensures Spool.Enabled(m.spool, CrashOp(crc, m.spool, d))
    ensures Numbered(c, m, st, RecoveredModel(crc, m, d, st), 0)
  {
    CrashEnabled(crc, c, m, d);
    var torn, k :| Readable(torn) && 0 <= k < FrameLen(|torn.payload|) && m.junk == EncodeFrame(crc, torn)[..k];
    if m.spool.segs != [] {
      TornBackIsPrefix(crc, c, m, d, torn, k);
    }
    LiveIsPrefix(crc, c, m, d);
    RebuiltNextBatch(crc, c, m, d, ids, st);
    if m.ordered {
      PrefixNumbers(Items(Spool.Flatten(Recovered(crc, m.spool, d).segs)), Items(Spool.Flatten(m.spool.segs)),
                    c.nextBatchSeq);
    }
  }

  /** The crash left a prefix of every file. */
  ghost predicate LeavesPrefixes(before: Disk, after: Disk) {
    forall id | id in after :: id in before && after[id].bytes <= before[id].bytes
  }

  /** The rebuilt batch counter is computed from the recovered live frames. */
  lemma RebuiltNextBatch(crc: Checksum, c: Store, m: Model, d: Disk, ids: seq<nat>, st: Store)
    requires Sound(crc, c, m) && Crashed(c.disk, d) && Lists(ids, d) && Rebuilt(crc, d, ids, st)
    requires m.spool.segs != [] ==> Spool.Back(m.spool).id in d
    requires Spool.Enabled(m.spool, CrashOp(crc, m.spool, d))
    ensures st.nextBatchSeq == NextBatchAfter(0, Items(Spool.Flatten(Recovered(crc, m.spool, d).segs)))
  {
    RecoveredAllCarried(crc, c, m, d);
    KeptAreLive(crc, d, Recovered(crc, m.spool, d).segs);
    SurvivorList(crc, c, m, d, ids);
  }

  lemma OrderOfPrefix(a: seq<Frame>, b: seq<Frame>, next: U64)
    requires a <= b && BatchesAscend(b, next)
    ensures BatchesAscend(a, NextBatchAfter(0, a))
  {
    assert b == a + b[|a|..];
    BatchesOfParts(a, b[|a|..], next);
    NextBatchAbove(0, a);
  }

  /** The walk finds only entries of the segment, from its first one on. */
  lemma TornBackIsPrefix(crc: Checksum, c: Store, m: Model, d: Disk, torn: Frame, k: nat)
    requires Sound(crc, c, m) && Crashed(c.disk, d) && m.spool.segs != []
    requires forall id | id in d :: d[id].bytes <= c.disk[id].bytes
    requires Readable(torn) && k < FrameLen(|torn.payload|) && m.junk == EncodeFrame(crc, torn)[..k]
    ensures var b := Spool.Back(m.spool);
            b.id in d && (ValidHeader(d[b.id].bytes) ==> KeptFrames(crc, d[b.id].bytes) <= Items(b.entries))
  {
    BackKnown(crc, c, m, d);
    var b := Spool.Back(m.spool);
    if ValidHeader(d[b.id].bytes) {
      TornFileIsPrefix(crc, c.disk[b.id], b, m.junk, d[b.id].bytes, torn, k);
    }
  }

  lemma TornFileIsPrefix(crc: Checksum, file: File, seg: Spool.Segment<Frame>, junk: seq<Byte>, bytes: seq<Byte>,
                         torn: Frame, k: nat)
    requires FileHolds(crc, file, seg, junk) && bytes <= file.bytes && ValidHeader(bytes)
    requires Readable(torn) && k < FrameLen(|torn.payload|) && junk == EncodeFrame(crc, torn)[..k]
    ensures KeptFrames(crc, bytes) <= Items(seg.entries)
  {
    var fs, n := Items(seg.entries), |bytes| - SEGMENT_HEADER_LEN;
    assert bytes[16..] == file.bytes[16..][..n];
    TornBodyIsPrefix(crc, fs, torn, k, n);
  }

  lemma CutBehind<T>(a: seq<T>, b: seq<T>, k: nat, n: nat)
    requires k <= |b| && |a| <= n <= |a| + k
    ensures (a + b[..k])[..n] == a + b[..n - |a|]
  {
  }

  lemma TornBodyIsPrefix(crc: Checksum, fs: seq<Frame>, torn: Frame, k: nat, n: nat)
    requires AllReadable(fs) && Readable(torn) && k < FrameLen(|torn.payload|) && n <= |EncodeFrames(crc, fs)| + k
    ensures Scan(crc, (EncodeFrames(crc, fs) + EncodeFrame(crc, torn)[..k])[..n]) <= fs
  {
    var body, junk := EncodeFrames(crc, fs), EncodeFrame(crc, torn)[..k];
    if n <= |body| {
      assert (body + junk)[..n] == body[..n];
      ScanOfPrefix(crc, fs, n);
    } else {
      CutBehind(body, EncodeFrame(crc, torn), k, n);
      ScanTorn(crc, fs, torn, n - |body|);
    }
  }

  lemma LiveIsPrefix(crc: Checksum, c: Store, m: Model, d: Disk)
    requires Sound(crc, c, m) && Crashed(c.disk, d)
    requires m.spool.segs != [] ==> Spool.Back(m.spool).id in d
    requires Spool.Enabled(m.spool, CrashOp(crc, m.spool, d))
    requires m.spool.segs != [] ==>
               var b := Spool.Back(m.spool);
               ValidHeader(d[b.id].bytes) ==> KeptFrames(crc, d[b.id].bytes) <= Items(b.entries)
    ensures Items(Spool.Flatten(Recovered(crc, m.spool, d).segs)) <= Items(Spool.Flatten(m.spool.segs))
  {
    var s, s' := m.spool, Recovered(crc, m.spool, d);
    if s.segs != [] {
      var older, b := Items(Spool.Flatten(Spool.Older(s))), Spool.Back(s);
      Spool.FlattenSplit(s);
      ItemsConcat(Spool.Flatten(Spool.Older(s)), b.entries);
      if ValidHeader(d[b.id].bytes) {
        BackCarried(crc, c, m, d);
        var b' := Spool.Back(s');
        RecoveredItems(s, s', b');
        PrefixBehind(older, Items(b'.entries), Items(b.entries));
      }
    }
  }

  lemma RecoveredItems(s: Spool.State<Frame>, s': Spool.State<Frame>, b: Spool.Segment<Frame>)
    requires s.segs != [] && s'.segs == Spool.Older(s) + [b]
    ensures Items(Spool.Flatten(s'.segs)) == Items(Spool.Flatten(Spool.Older(s))) + Items(b.entries)
  {
    Spool.FlattenBack(Spool.Older(s), b);
    ItemsConcat(Spool.Flatten(Spool.Older(s)), b.entries);
  }

  lemma PrefixBehind<A>(a: seq<A>, b: seq<A>, c: seq<A>)
    requires b <= c
    ensures a + b <= a + c
  {
  }

  // ---- a crash when everything is on the medium ---------------------------

  /** A crash of a quiet store brings back all of the back segment and nothing else. */
  lemma QuietBackSurvives(crc: Checksum, c: Store, m: Model, d: Disk)
    requires Sound(crc, c, m) && m.junk == [] && Quiet(c, m) && Crashed(c.disk, d) && m.spool.segs != []
    ensures var b := Spool.Back(m.spool);
            && b.id in c.disk && b.id in d && d[b.id] == c.disk[b.id] && Settled(d[b.id]) && ValidHeader(d[b.id].bytes)
            && KeptFrames(crc, d[b.id].bytes) == Items(b.entries) && KeptLength(crc, d[b.id].bytes) == |d[b.id].bytes|
            && b.synced == |b.entries|
  {
    BackKnown(crc, c, m, d);
    var b := Spool.Back(m.spool);
    SettledSurvives(crc, c.disk[b.id], d[b.id], b);
    assert Spool.SyncedAt(m.spool.segs, m.spool.open, |m.spool.segs| - 1);
  }

  lemma QuietCrashOp(crc: Checksum, c: Store, m: Model, d: Disk)
    requires Sound(crc, c, m) && m.junk == [] && Quiet(c, m) && Crashed(c.disk, d)
    ensures m.spool.segs != [] ==> Spool.Back(m.spool).id in d
    ensures Spool.Enabled(m.spool, CrashOp(crc, m.spool, d)) && CrashOp(crc, m.spool, d).extra == []
    ensures Spool.AllSynced(Recovered(crc, m.spool, d))
  {
    CrashEnabled(crc, c, m, d);
    if m.spool.segs != [] {
      QuietBackSurvives(crc, c, m, d);
      var b, s' := Spool.Back(m.spool), Recovered(crc, m.spool, d);
      assert CrashOp(crc, m.spool, d) == Spool.Crash(true, [], b.synced);
      assert Spool.Fresh(|m.spool.log|, CrashOp(crc, m.spool, d).extra) == [];
      assert Spool.Back(s').entries == b.entries && Spool.Back(s').synced == |b.entries|;
    }
  }

  /** And the recovered store is quiet again. */
  lemma QuietAfterCrash(crc: Checksum, c: Store, m: Model, d: Disk, ids: seq<nat>, st: Store)
    requires Sound(crc, c, m) && m.junk == [] && Quiet(c, m) && Crashed(c.disk, d)
    requires Lists(ids, d) && Rebuilt(crc, d, ids, st)
    ensures m.spool.segs != [] ==> Spool.Back(m.spool).id in d
    ensures Spool.Enabled(m.spool, CrashOp(crc, m.spool, d)) && CrashOp(crc, m.spool, d).extra == []
    ensures Quiet(st, RecoveredModel(crc, m, d, st))
  {
    QuietCrashOp(crc, c, m, d);
    if m.spool.segs != [] {
      QuietBackSurvives(crc, c, m, d);
      var b := Spool.Back(m.spool);
      assert Spool.Back(Recovered(crc, m.spool, d)).id == b.id;
      assert st.disk == Healed(crc, d);
      assert Truncate(d[b.id], |d[b.id].bytes|) == d[b.id];
    }
  }

  lemma {:induction false} NextBatchAtMost(next: U64, fs: seq<Frame>, bound: nat)
    requires next <= bound && forall f | f in fs :: f.batchSeq < bound
    ensures NextBatchAfter(next, fs) <= bound
    decreases |fs|
  {
    if fs == [] {
    } else {
      assert fs[0] in fs;
      NextBatchAtMost(NextBatch(next, fs[0]), fs[1..], bound);
    }
  }

  /** After a crash of a quiet store batch numbers go on above the live frames, and not above where they were. */
  lemma QuietKeepsOrder(crc: Checksum, c: Store, m: Model, d: Disk, ids: seq<nat>, st: Store)
    requires Sound(crc, c, m) && m.junk == [] && Quiet(c, m) && m.ordered && Crashed(c.disk, d)
    requires Lists(ids, d) && Rebuilt(crc, d, ids, st)
    ensures m.spool.segs != [] ==> Spool.Back(m.spool).id in d
    ensures Spool.Enabled(m.spool, CrashOp(crc, m.spool, d))
    ensures RecoveredModel(crc, m, d, st).ordered && st.nextBatchSeq <= c.nextBatchSeq
  {
    QuietCrashOp(crc, c, m, d);
    if m.spool.segs != [] {
      QuietBackSurvives(crc, c, m, d);
    }
    LiveIsPrefix(crc, c, m, d);
    RebuiltNextBatch(crc, c, m, d, ids, st);
    var live, all := Items(Spool.Flatten(Recovered(crc, m.spool, d).segs)), Items(Spool.Flatten(m.spool.segs));
    PrefixNumbers(live, all, c.nextBatchSeq);
  }

  lemma PrefixNumbers(live: seq<Frame>, all: seq<Frame>, next: U64)
    requires live <= all && BatchesAscend(all, next)
    ensures BatchesAscend(live, NextBatchAfter(0, live)) && NextBatchAfter(0, live) <= next
  {
    OrderOfPrefix(live, all, next);
    assert forall f | f in live :: f in all;
    NextBatchAtMost(0, live, next);
  }

  /** All segments are back as they were. */
  lemma QuietSegments(crc: Checksum, c: Store, m: Model, d: Disk)
    requires Sound(crc, c, m) && m.junk == [] && Quiet(c, m) && Crashed(c.disk, d)
    ensures m.spool.segs != [] ==> Spool.Back(m.spool).id in d
    ensures Spool.Enabled(m.spool, CrashOp(crc, m.spool, d))
    ensures Recovered(crc, m.spool, d).segs == m.spool.segs
  {
    QuietCrashOp(crc, c, m, d);
    if m.spool.segs != [] {
      QuietBackSurvives(crc, c, m, d);
      var b := Spool.Back(m.spool);
      assert CrashOp(crc, m.spool, d) == Spool.Crash(true, [], b.synced);
      SameBack(m.spool, b.synced);
    }
  }

  lemma SameBack(s: Spool.State<Frame>, synced: nat)
    requires s.segs != [] && synced == Spool.Back(s).synced == |Spool.Back(s).entries|
    requires Spool.Enabled(s, Spool.Crash(true, [], synced))
    ensures Spool.Step(s, Spool.Crash(true, [], synced)).segs == s.segs
  {
    var b := Spool.Back(s);
    assert Spool.Fresh<Frame>(|s.log|, []) == [];
    assert Spool.Take(b.entries, synced) + [] == b.entries;
  }

  lemma DescribedAlike(crc: Checksum, metas: seq<SegmentMeta>, metas': seq<SegmentMeta>,
                       segs: seq<Spool.Segment<Frame>>)
    requires DescribesAll(crc, metas, segs) && DescribesAll(crc, metas', segs)
    ensures metas == metas'
  {
    forall i | 0 <= i < |segs| ensures metas[i] == metas'[i] {
      assert DescribedAt(crc, metas, segs, i) && DescribedAt(crc, metas', segs, i);
    }
  }

  /** After a crash of a quiet store the log is as large as before. */
  lemma QuietKeepsSize(crc: Checksum, c: Store, m: Model, d: Disk, ids: seq<nat>, st: Store)
    requires Sound(crc, c, m) && m.junk == [] && Quiet(c, m) && Crashed(c.disk, d)
    requires Lists(ids, d) && Rebuilt(crc, d, ids, st)
    ensures st.totalBytes == c.totalBytes
  {
    QuietSegments(crc, c, m, d);
    RecoveredSound(crc, c, m, d, ids, st);
    DescribedAlike(crc, c.segments, st.segments, m.spool.segs);
  }

  /** A crash of a quiet store, all in all. */
  lemma QuietRestart(crc: Checksum, c: Store, m: Model, d: Disk, ids: seq<nat>, st: Store)
    requires Sound(crc, c, m) && m.junk == [] && Quiet(c, m) && Crashed(c.disk, d)
    requires Lists(ids, d) && Rebuilt(crc, d, ids, st)
    ensures m.spool.segs != [] ==> Spool.Back(m.spool).id in d
    ensures Spool.Enabled(m.spool, CrashOp(crc, m.spool, d)) && CrashOp(crc, m.spool, d).extra == []
    ensures var m' := RecoveredModel(crc, m, d, st); Quiet(st, m') && Numbered(c, m, st, m', 0)
    ensures st.totalBytes == c.totalBytes
  {
    QuietAfterCrash(crc, c, m, d, ids, st);
    QuietKeepsSize(crc, c, m, d, ids, st);
    if m.ordered {
      QuietKeepsOrder(crc, c, m, d, ids, st);
    }
  }

  /**
    What is more about a restart: a store with everything on the medium comes back as
    large as it was, with nothing added and everything on the medium; and its batch
    numbers stay in order then, and whenever the crash left prefixes of the files.
   */
  ghost predicate Restarted(crc: Checksum, c: Store, m: Model, d: Disk, c': Store, m': Model, op: Op)
    requires op.Crash?
  {
    (&& (m.junk == [] && Quiet(c, m) ==>
           op.extra == [] && Quiet(c', m') && Numbered(c, m, c', m', 0) && c'.totalBytes == c.totalBytes)
     && (LeavesPrefixes(c.disk, d) && TornFrame(crc, m.junk) ==> Numbered(c, m, c', m', 0))) == true
  }

  lemma RestartFacts(crc: Checksum, c: Store, m: Model, d: Disk, ids: seq<nat>, st: Store)
    requires Sound(crc, c, m) && Crashed(c.disk, d) && Lists(ids, d) && Rebuilt(crc, d, ids, st)
    ensures m.spool.segs != [] ==> Spool.Back(m.spool).id in d
    ensures Spool.Enabled(m.spool, CrashOp(crc, m.spool, d))
    ensures Restarted(crc, c, m, d, st, RecoveredModel(crc, m, d, st), CrashOp(crc, m.spool, d))
  {
    CrashEnabled(crc, c, m, d);
    if m.junk == [] && Quiet(c, m) {
      QuietRestart(crc, c, m, d, ids, st);
    }
    if LeavesPrefixes(c.disk, d) && TornFrame(crc, m.junk) {
      RestartKeepsOrder(crc, c, m, d, ids, st);
    }
  }

  // ---- the store object ---------------------------------------------------

  /**
    The queue after a crash: the committed entries of the uncollected front segment, then
    every synced undelivered entry, then what the crash left of the rest.
   */
  ghost predicate QueueBack(s: Spool.State<Frame>, s': Spool.State<Frame>, op: Op)
    requires op.Crash?
  {
    && Spool.Backlog(s') == Spool.Replayed(s) + Spool.DurableBacklog(s) + Spool.Fresh(|s.log|, op.extra)
    && (forall e | e in Spool.Replayed(s) :: e in s.committed)
    && Spool.Backlog(s) == Spool.DurableBacklog(s) + Spool.UnsyncedBacklog(s)
    && (Spool.AllSynced(s) ==> Spool.DurableBacklog(s) == Spool.Backlog(s))
  }

  lemma CrashedPlausible(before: Disk, after: Disk)
    requires Crashed(before, after)
    ensures Plausible(after)
  {
    forall id | id in after ensures after[id].synced <= |after[id].bytes| {
      assert CrashedFile(before[id], after[id]);
    }
  }

  lemma Reopened(crc: Checksum, cfg: Config, c: Store, m: Model, d: Disk, ids: seq<nat>, st: Store)
    requires Sound(crc, c, m) && Crashed(c.disk, d) && Lists(ids, d) && Rebuilt(crc, d, ids, st)
    ensures m.spool.segs != [] ==> Spool.Back(m.spool).id in d
    ensures Spool.Enabled(m.spool, CrashOp(crc, m.spool, d))
    ensures var op, m' := CrashOp(crc, m.spool, d), RecoveredModel(crc, m, d, st);
            && Sound(crc, st, m') && m'.junk == [] && Packed(crc, cfg.segmentBytes, m')
            && m'.spool == Spool.Step(m.spool, op) && m'.trace == m.trace + [op]
            && QueueBack(m.spool, m'.spool, op) && Restarted(crc, c, m, d, st, m', op)
  {
    RecoveredSound(crc, c, m, d, ids, st);
    Spool.CrashRecovers(m.spool, CrashOp(crc, m.spool, d));
    OlderExempt(crc, cfg.segmentBytes, RecoveredModel(crc, m, d, st));
    RestartFacts(crc, c, m, d, ids, st);
  }

  /**
    Crash and restart of the store object: whatever the moment of the crash, the
    new object is sound and its queue holds every synced undelivered frame in
    order, preceded only by frames already committed and followed only by what
    the crash left beyond the synced data. Nothing undelivered is missing if the
    crash found everything synced; a quiet store comes back as it was, and quiet.
   */
  method Reopen(dead: WalInner, disk: Disk, interrupts: nat) returns (w: WalInner, ghost op: Op)
    requires dead.Inv() && Crashed(dead.st.disk, disk)
    ensures fresh(w) && w.crc == dead.crc && w.cfg == dead.cfg && w.Valid()
    ensures op.Crash? && Spool.Enabled(dead.model.spool, op)
    ensures w.model.spool == Spool.Step(dead.model.spool, op) && w.model.trace == dead.model.trace + [op]
    ensures QueueBack(dead.model.spool, w.model.spool, op)
    ensures Restarted(dead.crc, dead.st, dead.model, disk, w.st, w.model, op)
  {
    ghost var c, m := dead.st, dead.model;
    CrashedPlausible(c.disk, disk);
    var st;
    ghost var ids;
    st, ids := Recover(dead.crc, disk, interrupts);
    Reopened(dead.crc, dead.cfg, c, m, disk, ids, st);
    op := CrashOp(dead.crc, m.spool, disk);
    ghost var m' := RecoveredModel(dead.crc, m, disk, st);
    w := new WalInner.FromRecovered(dead.crc, dead.cfg, st, m');
  }
}
