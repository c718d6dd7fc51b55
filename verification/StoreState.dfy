/**
  The fields of the write-ahead log store, the invariant that ties them and the
  files on disk to the spool machine, and one lemma per elementary effect saying
  that the effect keeps the invariant.

  A predicate compared with `true` is handled by the verifier as one fact, not as its
  conjuncts.
 */
module StoreState {
  import opened Codec
  import opened Options
  import opened Layout
  import Spool

  type Op = Spool.Op<Frame>

  datatype ActiveSegment = ActiveSegment(seqNo: nat, offset: nat)

  datatype Store = Store(
    disk: Disk,
    segments: seq<SegmentMeta>,
    active: Option<ActiveSegment>,
    totalBytes: nat,
    nextSeq: nat,
    nextBatchSeq: U64,
    readSeq: nat,
    readOffset: nat,
    pendingAdvance: Option<nat>,
    droppedBatches: nat)

  /**
    What the store stands for: the spool state, the steps that led to it from an
    empty log, the torn bytes that a failed write left in the active segment,
    whether the live batch numbers are known to be in order (the counter has not
    wrapped, and no crash made up frames), and the segments that were not retired for
    a frame that was then written.
   */
  datatype Model = Model(spool: Spool.State<Frame>, trace: seq<Op>, junk: seq<Byte>, ordered: bool, loose: set<nat>)

  ghost function After(m: Model, op: Op): Model
    requires Spool.Enabled(m.spool, op)
  {
    m.(spool := Spool.Step(m.spool, op), trace := m.trace + [op])
  }

  ghost predicate IsLive(segs: seq<Spool.Segment<Frame>>, id: nat) {
    exists i | 0 <= i < |segs| :: segs[i].id == id
  }

  /** Files of no live segment are the leftovers of failed rotations, too short to have a header. */
  ghost predicate OrphansShort(disk: Disk, segs: seq<Spool.Segment<Frame>>) {
    forall k | k in disk :: IsLive(segs, k) || Stub(disk[k])
  }

  predicate Stub(file: File) {
    file.synced <= |file.bytes| < SEGMENT_HEADER_LEN
  }

  /** The number of the next segment is above that of every file. */
  ghost predicate Below(disk: Disk, next: nat) {
    forall k | k in disk :: k < next
  }

  /** Batch numbers of the live frames strictly increase and lie below the next one. */
  predicate BatchBelow(fs: seq<Frame>, i: nat, j: nat)
    requires i < |fs| && j < |fs|
  {
    fs[i].batchSeq < fs[j].batchSeq
  }

  ghost predicate BatchesAscend(fs: seq<Frame>, next: nat) {
    && (forall i, j | 0 <= i < j < |fs| :: BatchBelow(fs, i, j))
    && (forall f | f in fs :: f.batchSeq < next)
  }

  ghost predicate OrderOk(c: Store, m: Model) {
    m.ordered ==> LiveBatchesAscend(m.spool, c.nextBatchSeq) == true
  }

  ghost predicate LiveBatchesAscend(s: Spool.State<Frame>, next: nat) {
    BatchesAscend(Items(Spool.Flatten(s.segs)), next)
  }

  ghost predicate ActiveOk(c: Store, m: Model) {
    && (c.active.Some? <==> m.spool.open)
    && (c.active.Some? ==>
          && c.segments != []
          && var back := c.segments[|c.segments| - 1]; c.active.value == ActiveSegment(back.seqNo, back.bytes))
    && (c.active.None? ==> m.junk == [])
  }

  /** The cursor is past `read` frames of the front segment, and a pending advance is past one more. */
  ghost predicate CursorInFront(crc: Checksum, c: Store, fs: seq<Frame>, read: nat) {
    && read <= |fs|
    && c.readOffset == FrameOffset(crc, fs, read)
    && (c.pendingAdvance.Some? ==> read < |fs| && c.pendingAdvance.value == FrameOffset(crc, fs, read + 1))
  }

  /** The cursor sits on a frame boundary of the front segment, or names no live segment. */
  ghost predicate CursorOk(crc: Checksum, c: Store, s: Spool.State<Frame>) {
    && (c.pendingAdvance.Some? <==> s.peeked)
    && (s.segs == [] ==> c.readSeq <= c.nextSeq && (c.readSeq == c.nextSeq ==> c.readOffset == SEGMENT_HEADER_LEN))
    && (s.segs != [] ==>
          if c.readSeq == s.segs[0].id then CursorInFront(crc, c, Items(s.segs[0].entries), s.read)
          else c.readSeq < s.segs[0].id && s.read == 0 && c.pendingAdvance.None?)
  }

  ghost predicate Good(crc: Checksum, c: Store, m: Model) {
    && Spool.Inv(m.spool)
    && Spool.Reaches(Spool.Initial(), m.trace, m.spool)
    && Represents(crc, c.disk, m.spool.segs, m.spool.open, m.junk)
    && DescribesAll(crc, c.segments, m.spool.segs)
    && c.totalBytes == Total(c.segments)
    && c.droppedBatches == m.spool.dropped
    && Below(c.disk, c.nextSeq)
    && OrphansShort(c.disk, m.spool.segs)
    && ActiveOk(c, m)
    && CursorOk(crc, c, m.spool)
    && OrderOk(c, m)
  }

  /** `Good` as a single fact: the comparison keeps the verifier from taking it apart at every call. */
  ghost predicate Sound(crc: Checksum, c: Store, m: Model) {
    Good(crc, c, m) == true
  }

  lemma StepSound(m: Model, op: Op)
    requires Spool.Inv(m.spool) && Spool.Reaches(Spool.Initial(), m.trace, m.spool) && Spool.Enabled(m.spool, op)
    ensures Spool.Inv(After(m, op).spool) && Spool.Reaches(Spool.Initial(), After(m, op).trace, After(m, op).spool)
  {
    Spool.StepKeepsInv(m.spool, op);
    Spool.ReachesStep(Spool.Initial(), m.trace, m.spool, op);
  }

  // ---- names --------------------------------------------------------------

  lemma LiveAfterDrop(segs: seq<Spool.Segment<Frame>>, id: nat)
    requires segs != [] && id != segs[0].id
    ensures IsLive(segs, id) <==> IsLive(segs[1..], id)
  {
    if IsLive(segs, id) {
      var i :| 0 <= i < |segs| && segs[i].id == id;
      assert segs[1..][i - 1].id == id;
    }
    if IsLive(segs[1..], id) {
      var i :| 0 <= i < |segs[1..]| && segs[1..][i].id == id;
      assert segs[i + 1].id == id;
    }
  }

  /** Live segments are told by their numbers alone. */
  lemma SameIdsLive(segs: seq<Spool.Segment<Frame>>, segs': seq<Spool.Segment<Frame>>, disk: Disk)
    requires |segs| <= |segs'| && forall i | 0 <= i < |segs| :: segs'[i].id == segs[i].id
    requires OrphansShort(disk, segs)
    ensures OrphansShort(disk, segs')
  {
    forall k | k in disk ensures IsLive(segs', k) || Stub(disk[k]) {
      if IsLive(segs, k) {
        var i :| 0 <= i < |segs| && segs[i].id == k;
        assert segs'[i].id == k;
      }
    }
  }

  lemma DropFrontNames(disk: Disk, segs: seq<Spool.Segment<Frame>>)
    requires segs != [] && OrphansShort(disk, segs)
    ensures OrphansShort(disk - {segs[0].id}, segs[1..])
  {
    forall k | k in disk - {segs[0].id}
      ensures IsLive(segs[1..], k) || Stub(disk[k])
    {
      LiveAfterDrop(segs, k);
    }
  }

  lemma LiveIdsBelow(crc: Checksum, c: Store, m: Model)
    requires Sound(crc, c, m)
    ensures forall i | 0 <= i < |m.spool.segs| :: m.spool.segs[i].id < c.nextSeq
  {
    forall i | 0 <= i < |m.spool.segs| ensures m.spool.segs[i].id < c.nextSeq {
      assert Stored(crc, c.disk, m.spool.segs, m.spool.open, m.junk, i);
    }
  }

  // ---- removing the front segment -----------------------------------------

  /** The front segment is gone: by the cap, or because it was consumed. */
  lemma FrontGone(crc: Checksum, c: Store, m: Model, c': Store, op: Op)
    requires Sound(crc, c, m) && Spool.Enabled(m.spool, op) && (op.Evict? || op.Collect?)
    requires c.segments != []
    requires c'.segments == c.segments[1..] && c'.disk == c.disk - {c.segments[0].seqNo}
    requires c'.totalBytes == c.totalBytes - c.segments[0].bytes
    requires c'.droppedBatches == c.droppedBatches + (if op.Evict? then c.segments[0].frames else 0)
    requires c'.active == c.active && c'.nextSeq == c.nextSeq && c'.nextBatchSeq == c.nextBatchSeq
    requires if c.readSeq == c.segments[0].seqNo && |c.segments| > 1
             then c'.readSeq == c.segments[1].seqNo && c'.readOffset == SEGMENT_HEADER_LEN && c'.pendingAdvance == None
             else c'.readSeq == c.readSeq && c'.readOffset == c.readOffset
                  && c'.pendingAdvance == if op.Evict? then c.pendingAdvance else None
    ensures Sound(crc, c', After(m, op))
  {
    var segs := m.spool.segs;
    assert DescribedAt(crc, c.segments, segs, 0);
    StepSound(m, op);
    DropFront(crc, c.disk, segs, m.spool.open, m.junk);
    DropFrontMeta(crc, c.segments, segs);
    DropFrontNames(c.disk, segs);
    LiveIdsBelow(crc, c, m);
    if |segs| > 1 {
      assert DescribedAt(crc, c.segments, segs, 1);
      assert Spool.IdBelow(segs, 0, 1);
      OffsetZero(crc, Items(segs[1].entries));
    }
    DroppedOrder(c, m, c', op);
  }

  lemma OrderOfSuffix(a: seq<Spool.Entry<Frame>>, b: seq<Spool.Entry<Frame>>, next: nat)
    requires BatchesAscend(Items(a + b), next)
    ensures BatchesAscend(Items(b), next)
  {
    ItemsConcat(a, b);
    BatchesOfParts(Items(a), Items(b), next);
  }

  lemma BatchesOfParts(a: seq<Frame>, b: seq<Frame>, next: nat)
    requires BatchesAscend(a + b, next)
    ensures BatchesAscend(a, next) && BatchesAscend(b, next)
  {
    forall i, j | 0 <= i < j < |a| ensures BatchBelow(a, i, j) {
      assert BatchBelow(a + b, i, j);
    }
    forall i, j | 0 <= i < j < |b| ensures BatchBelow(b, i, j) {
      assert BatchBelow(a + b, |a| + i, |a| + j);
    }
    assert forall f | f in a :: f in a + b;
    assert forall f | f in b :: f in a + b;
  }

  // ---- when everything is on the medium -----------------------------------

  /** Every entry is synced, and the last byte of the back segment's file is on the medium. */
  ghost predicate Quiet(c: Store, m: Model) {
    && Spool.AllSynced(m.spool)
    && (m.spool.segs != [] ==> Spool.Back(m.spool).id in c.disk && Settled(c.disk[Spool.Back(m.spool).id]))
  }

  /** Without an active segment nothing can be unsynced. */
  lemma InactiveIsQuiet(crc: Checksum, c: Store, m: Model)
    requires Sound(crc, c, m) && c.active.None?
    ensures Quiet(c, m)
  {
    if m.spool.segs != [] {
      var n := |m.spool.segs| - 1;
      assert Spool.SyncedAt(m.spool.segs, m.spool.open, n);
      assert Stored(crc, c.disk, m.spool.segs, m.spool.open, m.junk, n);
    }
  }

  lemma SyncedIsQuiet(crc: Checksum, c: Store, m: Model)
    requires Sound(crc, c, m) && c.active.Some? && Spool.AllSynced(m.spool)
    requires c.active.value.seqNo in c.disk && Settled(c.disk[c.active.value.seqNo])
    ensures Quiet(c, m)
  {
    ActiveIsBack(crc, c, m);
  }

  /** Deleting the front segment leaves the others as quiet as they were. */
  lemma CollectIsQuiet(crc: Checksum, c: Store, m: Model, c': Store, m': Model)
    requires Sound(crc, c, m) && Quiet(c, m) && Spool.Enabled(m.spool, Spool.Collect)
    requires m'.spool == Spool.Step(m.spool, Spool.Collect) && c'.disk == c.disk - {m.spool.segs[0].id}
    ensures Quiet(c', m')
  {
    if m'.spool.segs != [] {
      FrontIsLowest(m.spool.segs, |m.spool.segs| - 1);
      assert Spool.Back(m'.spool) == Spool.Back(m.spool);
    }
  }

  // ---- the active segment -------------------------------------------------

  lemma OrphansReplaceBack(disk: Disk, segs: seq<Spool.Segment<Frame>>, b: Spool.Segment<Frame>, file: File)
    requires segs != [] && OrphansShort(disk, segs) && b.id == segs[|segs| - 1].id
    ensures OrphansShort(disk[b.id := file], segs[..|segs| - 1] + [b])
  {
    var segs' := segs[..|segs| - 1] + [b];
    SameIdsLive(segs, segs', disk);
    assert segs'[|segs| - 1].id == b.id;
  }

  /** The file, metadata and entries of the back segment changed, and nothing else. */
  lemma BackChanged(crc: Checksum, c: Store, m: Model, b: Spool.Segment<Frame>, file: File, meta: SegmentMeta,
                    open: bool, junk: seq<Byte>)
    requires Sound(crc, c, m) && m.spool.segs != []
    requires b.id == m.spool.segs[|m.spool.segs| - 1].id
    requires FileHolds(crc, file, b, if open then junk else []) && (!open ==> Settled(file)) && Describes(crc, meta, b)
    ensures var n := |m.spool.segs| - 1;
            var segs, disk := m.spool.segs[..n] + [b], c.disk[b.id := file];
            && Represents(crc, disk, segs, open, junk)
            && |c.segments| == n + 1 && DescribesAll(crc, c.segments[..n] + [meta], segs)
            && Below(disk, c.nextSeq) && OrphansShort(disk, segs)
  {
    var segs := m.spool.segs;
    ReplaceBack(crc, c.disk, segs, m.spool.open, m.junk, b, file, open, junk);
    ReplaceBackMeta(crc, c.segments, segs, meta, b);
    OrphansReplaceBack(c.disk, segs, b, file);
    LiveIdsBelow(crc, c, m);
  }

  /** Only the file of the back segment changed. */
  lemma BackFileChanged(crc: Checksum, c: Store, m: Model, file: File, junk: seq<Byte>)
    requires Sound(crc, c, m) && m.spool.segs != [] && m.spool.open
    requires FileHolds(crc, file, Spool.Back(m.spool), junk)
    ensures var disk := c.disk[Spool.Back(m.spool).id := file];
            && Represents(crc, disk, m.spool.segs, true, junk)
            && Below(disk, c.nextSeq) && OrphansShort(disk, m.spool.segs)
  {
    var n := |m.spool.segs| - 1;
    assert DescribedAt(crc, c.segments, m.spool.segs, n);
    BackChanged(crc, c, m, Spool.Back(m.spool), file, c.segments[n], true, junk);
    assert m.spool.segs[..n] + [Spool.Back(m.spool)] == m.spool.segs;
  }

  /** The back segment as the metadata, the active record and its file see it. */
  lemma ActiveIsBack(crc: Checksum, c: Store, m: Model)
    requires Sound(crc, c, m) && c.active.Some?
    ensures m.spool.open && |c.segments| == |m.spool.segs| > 0
    ensures var b := m.spool.segs[|m.spool.segs| - 1];
            && Describes(crc, c.segments[|c.segments| - 1], b)
            && c.active.value == ActiveSegment(b.id, |SegmentBytes(crc, Items(b.entries))|)
            && b.id in c.disk && FileHolds(crc, c.disk[b.id], b, m.junk)
  {
    var n := |m.spool.segs| - 1;
    assert DescribedAt(crc, c.segments, m.spool.segs, n);
    assert Stored(crc, c.disk, m.spool.segs, m.spool.open, m.junk, n);
  }

  /** The active segment has a file, at least as long as the active offset. */
  lemma ActiveFile(crc: Checksum, c: Store, m: Model)
    requires Sound(crc, c, m) && c.active.Some?
    ensures m.spool.open && m.spool.segs != [] && c.segments != []
    ensures c.active.value.seqNo in c.disk && c.active.value.offset <= |c.disk[c.active.value.seqNo].bytes|
    ensures SEGMENT_HEADER_LEN <= c.active.value.offset == c.segments[|c.segments| - 1].bytes
  {
    ActiveIsBack(crc, c, m);
  }

  lemma ButLastAndLast<A>(xs: seq<A>)
    requires xs != []
    ensures xs[..|xs| - 1] + [xs[|xs| - 1]] == xs
  {
  }

  lemma SyncedStored(crc: Checksum, c: Store, m: Model, c': Store, op: Op)
    requires Sound(crc, c, m) && c.active.Some? && m.junk == []
    requires op == Spool.Sync || op == Spool.Close
    requires DataSynced(c, c') && c'.segments == c.segments && c'.nextSeq == c.nextSeq
    ensures var s' := Spool.Step(m.spool, op);
            && Represents(crc, c'.disk, s'.segs, s'.open, []) && DescribesAll(crc, c'.segments, s'.segs)
            && Below(c'.disk, c'.nextSeq) && OrphansShort(c'.disk, s'.segs)
  {
    ActiveIsBack(crc, c, m);
    var n := |m.spool.segs| - 1;
    var b := m.spool.segs[n];
    SyncFile(crc, c.disk[b.id], b, []);
    BackChanged(crc, c, m, b.(synced := |b.entries|), c'.disk[b.id], c.segments[n], op.Sync?, []);
    ButLastAndLast(c.segments);
  }

  /** fdatasync of the active segment. */
  predicate DataSynced(c: Store, c': Store)
    requires c.active.Some?
  {
    var id := c.active.value.seqNo;
    id in c.disk && c'.disk == c.disk[id := c.disk[id].(synced := |c.disk[id].bytes|)]
  }

  /** The active segment was synced, and is either kept (`Sync`) or retired (`Close`). */
  lemma ActiveSynced(crc: Checksum, c: Store, m: Model, c': Store, op: Op)
    requires Sound(crc, c, m) && c.active.Some? && m.junk == []
    requires op == Spool.Sync || op == Spool.Close
    requires DataSynced(c, c') && c' == c.(disk := c'.disk, active := if op.Sync? then c.active else None)
    ensures Sound(crc, c', After(m, op))
  {
    SyncedStored(crc, c, m, c', op);
    StepSound(m, op);
    SyncedOrder(c, m, c', op);
    SyncedCursor(crc, c, m, c', op);
  }

  lemma SyncedCursor(crc: Checksum, c: Store, m: Model, c': Store, op: Op)
    requires CursorOk(crc, c, m.spool) && (op == Spool.Sync || op == Spool.Close)
    requires c' == c.(disk := c'.disk, active := c'.active)
    ensures CursorOk(crc, c', Spool.Step(m.spool, op))
  {
  }

  lemma SyncedOrder(c: Store, m: Model, c': Store, op: Op)
    requires OrderOk(c, m) && c'.nextBatchSeq == c.nextBatchSeq && (op.Sync? || op.Close?)
    ensures OrderOk(c', After(m, op))
  {
    Spool.FlattenSynced(m.spool);
  }

  lemma RotatedOrder(c: Store, m: Model, c': Store, id: nat)
    requires OrderOk(c, m) && c'.nextBatchSeq == c.nextBatchSeq && Spool.Enabled(m.spool, Spool.Rotate(id))
    ensures OrderOk(c', After(m, Spool.Rotate(id)))
  {
    Spool.RotateQueue(m.spool, id);
  }

  lemma WrittenOrder(c: Store, m: Model, c': Store, f: Frame, ordered: bool)
    requires OrderOk(c, m) && Spool.Inv(m.spool)
    requires Spool.Enabled(m.spool, Spool.Write(f)) && f.batchSeq == c.nextBatchSeq
    requires ordered ==> m.ordered && c'.nextBatchSeq == c.nextBatchSeq + 1
    ensures OrderOk(c', After(m, Spool.Write(f)).(ordered := ordered))
  {
    if ordered {
      Spool.WriteQueue(m.spool, f);
      OrderExtended(Spool.Flatten(m.spool.segs), Spool.Entry(|m.spool.log|, f), c'.nextBatchSeq);
    }
  }

  lemma DroppedOrder(c: Store, m: Model, c': Store, op: Op)
    requires OrderOk(c, m) && c'.nextBatchSeq == c.nextBatchSeq && m.spool.segs != []
    requires Spool.Enabled(m.spool, op) && (op.Evict? || op.Collect?)
    ensures OrderOk(c', After(m, op))
  {
    if m.ordered {
      Spool.FlattenSplit(m.spool);
      OrderOfSuffix(m.spool.segs[0].entries, Spool.Flatten(m.spool.segs[1..]), c.nextBatchSeq);
    }
  }

  /** A segment number was used up without a segment to show for it. */
  lemma NumberSkipped(crc: Checksum, c: Store, m: Model, c': Store)
    requires Sound(crc, c, m)
    requires c' == c.(nextSeq := c.nextSeq + 1)
    ensures Sound(crc, c', m)
  {
  }

  /** A failed header write left a file without a complete header. */
  lemma OrphanLeft(crc: Checksum, c: Store, m: Model, c': Store, file: File)
    requires Sound(crc, c, m) && Stub(file)
    requires c' == c.(nextSeq := c.nextSeq + 1, disk := c.disk[c.nextSeq := file])
    ensures Sound(crc, c', m)
  {
    LiveIdsBelow(crc, c, m);
    ForeignFile(crc, c.disk, m.spool.segs, m.spool.open, m.junk, c.nextSeq, file);
  }

  lemma SettledSegs(s: Spool.State<Frame>)
    requires Spool.SyncedOk(s) && !s.open
    ensures Spool.SyncedSegs(s) == s.segs
  {
    if s.segs != [] {
      assert Spool.SyncedAt(s.segs, s.open, |s.segs| - 1);
    }
  }

  /** The metadata and the file of a segment holding just its header. */
  lemma HeaderOnly(crc: Checksum, id: nat)
    ensures var b := Spool.Segment<Frame>.Segment(id, [], 0);
            && FileHolds(crc, File(SegmentHeader(), 0), b, [])
            && Describes(crc, SegmentMeta(id, SEGMENT_HEADER_LEN, 0), b)
  {
    assert Items([]) == [];
    HeaderIsValid([]);
    assert SegmentHeader() + [] == SegmentHeader();
    assert SegmentBytes(crc, []) == SegmentHeader();
  }

  lemma SegmentStored(crc: Checksum, c: Store, m: Model, c': Store)
    requires Sound(crc, c, m) && c.active.None? && SegmentAdded(c, c')
    ensures Spool.Enabled(m.spool, Spool.Rotate(c.nextSeq))
    ensures var s' := Spool.Step(m.spool, Spool.Rotate(c.nextSeq));
            && s'.segs == m.spool.segs + [Spool.Segment(c.nextSeq, [], 0)]
            && Represents(crc, c'.disk, s'.segs, true, []) && DescribesAll(crc, c'.segments, s'.segs)
            && Below(c'.disk, c'.nextSeq) && OrphansShort(c'.disk, s'.segs)
            && c'.totalBytes == Total(c'.segments)
  {
    var s, id := m.spool, c.nextSeq;
    var b: Spool.Segment<Frame> := Spool.Segment(id, [], 0);
    LiveIdsBelow(crc, c, m);
    SettledSegs(s);
    HeaderOnly(crc, id);
    PushBack(crc, c.disk, s.segs, b, File(SegmentHeader(), 0));
    PushBackMeta(crc, c.segments, s.segs, SegmentMeta(id, SEGMENT_HEADER_LEN, 0), b);
    TotalAppend(c.segments, SegmentMeta(id, SEGMENT_HEADER_LEN, 0));
    OrphansPush(c.disk, s.segs, b, File(SegmentHeader(), 0));
  }

  /** The effect of starting a segment. */
  predicate SegmentAdded(c: Store, c': Store) {
    c' == c.(nextSeq := c.nextSeq + 1,
             disk := c.disk[c.nextSeq := File(SegmentHeader(), 0)],
             segments := c.segments + [SegmentMeta(c.nextSeq, SEGMENT_HEADER_LEN, 0)],
             totalBytes := c.totalBytes + SEGMENT_HEADER_LEN,
             active := Some(ActiveSegment(c.nextSeq, SEGMENT_HEADER_LEN)))
  }

  lemma StartedCursor(crc: Checksum, c: Store, s: Spool.State<Frame>, c': Store, s': Spool.State<Frame>)
    requires CursorOk(crc, c, s) && SegmentAdded(c, c') && Spool.CursorOk(s)
    requires s' == s.(segs := s.segs + [Spool.Segment(c.nextSeq, [], 0)], open := true)
    ensures CursorOk(crc, c', s')
  {
    OffsetZero(crc, Items([]));
  }

  /** A new segment holding just its header becomes the active one. */
  lemma SegmentStarted(crc: Checksum, c: Store, m: Model, c': Store)
    requires Sound(crc, c, m) && c.active.None? && SegmentAdded(c, c')
    ensures Spool.Enabled(m.spool, Spool.Rotate(c.nextSeq))
    ensures Sound(crc, c', After(m, Spool.Rotate(c.nextSeq)))
  {
    SegmentStored(crc, c, m, c');
    StepSound(m, Spool.Rotate(c.nextSeq));
    RotatedOrder(c, m, c', c.nextSeq);
    StartedCursor(crc, c, m.spool, c', Spool.Step(m.spool, Spool.Rotate(c.nextSeq)));
  }

  lemma OrphansPush(disk: Disk, segs: seq<Spool.Segment<Frame>>, b: Spool.Segment<Frame>, file: File)
    requires OrphansShort(disk, segs)
    ensures OrphansShort(disk[b.id := file], segs + [b])
  {
    SameIdsLive(segs, segs + [b], disk);
    assert (segs + [b])[|segs|].id == b.id;
  }

  // ---- writing frames -----------------------------------------------------

  /** The cursor is not affected by a frame added behind it. */
  lemma CursorKept(crc: Checksum, c: Store, s: Spool.State<Frame>, f: Frame)
    requires CursorOk(crc, c, s) && s.segs != [] && s.open
    ensures CursorOk(crc, c, Spool.Step(s, Spool.Write(f)))
  {
    var es, e := s.segs[0].entries, Spool.Entry(|s.log|, f);
    if |s.segs| == 1 && c.readSeq == s.segs[0].id {
      ItemsConcat(es, [e]);
      OffsetUnaffected(crc, Items(es), Items([e]), s.read);
      if c.pendingAdvance.Some? {
        OffsetUnaffected(crc, Items(es), Items([e]), s.read + 1);
      }
    }
  }

  lemma OrderExtended(es: seq<Spool.Entry<Frame>>, e: Spool.Entry<Frame>, next: nat)
    requires BatchesAscend(Items(es), e.item.batchSeq) && e.item.batchSeq < next
    ensures BatchesAscend(Items(es + [e]), next)
  {
    ItemsConcat(es, [e]);
    var fs := Items(es);
    forall i, j | 0 <= i < j < |fs + [e.item]| ensures BatchBelow(fs + [e.item], i, j) {
      if j < |fs| {
        assert BatchBelow(fs, i, j);
      } else {
        assert fs[i] in fs;
      }
    }
    assert Items([e]) == [e.item];
  }

  /** The back segment with one more frame, as file and metadata. */
  lemma BackExtended(crc: Checksum, file: File, meta: SegmentMeta, b: Spool.Segment<Frame>, e: Spool.Entry<Frame>)
    requires FileHolds(crc, file, b, []) && Describes(crc, meta, b) && Readable(e.item)
    ensures var b' := b.(entries := b.entries + [e]);
            && FileHolds(crc, file.(bytes := file.bytes + EncodeFrame(crc, e.item)), b', [])
            && Describes(crc, meta.(bytes := meta.bytes + FrameLen(|e.item.payload|), frames := meta.frames + 1), b')
  {
    WriteFile(crc, file, b, e);
    ItemsConcat(b.entries, [e]);
    assert Items([e]) == [e.item];
    EncodeSnoc(crc, Items(b.entries), e.item);
  }

  lemma TotalReplaceBack(metas: seq<SegmentMeta>, m: SegmentMeta)
    requires metas != []
    ensures var n := |metas| - 1; Total(metas[..n] + [m]) == Total(metas) - metas[n].bytes + m.bytes
  {
    var n := |metas| - 1;
    ButLastAndLast(metas);
    TotalAppend(metas[..n], metas[n]);
    TotalAppend(metas[..n], m);
  }

  function OneFrameMore(meta: SegmentMeta, size: nat): SegmentMeta {
    meta.(bytes := meta.bytes + size, frames := meta.frames + 1)
  }

  /** The effect of a frame write on the disk, the metadata, the active record and the byte count. */
  ghost predicate FrameAdded(crc: Checksum, c: Store, c': Store, f: Frame)
    requires c.active.Some?
  {
    var id, n, size := c.active.value.seqNo, |c.segments| - 1, FrameLen(|f.payload|);
    && id in c.disk && c.segments != []
    && c'.disk == c.disk[id := c.disk[id].(bytes := c.disk[id].bytes + EncodeFrame(crc, f))]
    && c'.segments == c.segments[..n] + [OneFrameMore(c.segments[n], size)]
    && c'.active == Some(c.active.value.(offset := c.active.value.offset + size))
    && c'.totalBytes == c.totalBytes + size
  }

  lemma FrameStored(crc: Checksum, c: Store, m: Model, c': Store, f: Frame)
    requires Sound(crc, c, m) && c.active.Some? && m.junk == [] && Readable(f) && FrameAdded(crc, c, c', f)
    requires c'.nextSeq == c.nextSeq
    ensures Spool.Enabled(m.spool, Spool.Write(f))
    ensures var s' := Spool.Step(m.spool, Spool.Write(f));
            && Represents(crc, c'.disk, s'.segs, true, []) && DescribesAll(crc, c'.segments, s'.segs)
            && Below(c'.disk, c'.nextSeq) && OrphansShort(c'.disk, s'.segs)
            && c'.totalBytes == Total(c'.segments) && ActiveOk(c', m)
  {
    ActiveIsBack(crc, c, m);
    var n := |m.spool.segs| - 1;
    var b, e := m.spool.segs[n], Spool.Entry(|m.spool.log|, f);
    BackExtended(crc, c.disk[b.id], c.segments[n], b, e);
    BackChanged(crc, c, m, b.(entries := b.entries + [e]), c'.disk[b.id], c'.segments[n], true, []);
    TotalReplaceBack(c.segments, c'.segments[n]);
  }

  /** A complete frame, carrying the next batch number, was written to the active segment. */
  lemma FrameWritten(crc: Checksum, c: Store, m: Model, c': Store, f: Frame, ordered: bool)
    requires Sound(crc, c, m) && c.active.Some? && m.junk == [] && Readable(f) && f.batchSeq == c.nextBatchSeq
    requires FrameAdded(crc, c, c', f)
    requires c'.nextSeq == c.nextSeq && c'.readSeq == c.readSeq && c'.readOffset == c.readOffset
    requires c'.pendingAdvance == c.pendingAdvance && c'.droppedBatches == c.droppedBatches
    requires ordered ==> m.ordered && c'.nextBatchSeq == c.nextBatchSeq + 1
    ensures Spool.Enabled(m.spool, Spool.Write(f))
    ensures Sound(crc, c', After(m, Spool.Write(f)).(ordered := ordered))
  {
    FrameStored(crc, c, m, c', f);
    StepSound(m, Spool.Write(f));
    CursorKept(crc, c, m.spool, f);
    WrittenOrder(c, m, c', f, ordered);
  }

  /** A write failed part-way: torn bytes follow the last frame of the active segment. */
  lemma FrameTorn(crc: Checksum, c: Store, m: Model, c': Store, torn: seq<Byte>, ordered: bool)
    requires Sound(crc, c, m) && c.active.Some? && m.junk == []
    requires c.active.value.seqNo in c.disk
    requires var id := c.active.value.seqNo;
             c'.disk == c.disk[id := c.disk[id].(bytes := c.disk[id].bytes + torn)]
    requires c' == c.(disk := c'.disk, nextBatchSeq := c'.nextBatchSeq)
    requires ordered ==> m.ordered && c'.nextBatchSeq == c.nextBatchSeq + 1
    ensures Sound(crc, c', m.(junk := torn, ordered := ordered))
  {
    ActiveIsBack(crc, c, m);
    TearFile(crc, c.disk[c.active.value.seqNo], Spool.Back(m.spool), torn);
    BackFileChanged(crc, c, m, c'.disk[c.active.value.seqNo], torn);
  }

  /** Truncation to the last good frame boundary removes the torn bytes. */
  lemma ActiveRepaired(crc: Checksum, c: Store, m: Model, c': Store)
    requires Sound(crc, c, m) && c.active.Some?
    requires var a := c.active.value;
             && a.seqNo in c.disk && a.offset <= |c.disk[a.seqNo].bytes|
             && c'.disk == c.disk[a.seqNo := Truncate(c.disk[a.seqNo], a.offset)]
    requires c' == c.(disk := c'.disk)
    ensures Sound(crc, c', m.(junk := []))
  {
    ActiveIsBack(crc, c, m);
    var b := Spool.Back(m.spool);
    CutFile(crc, c.disk[b.id], b, m.junk);
    BackFileChanged(crc, c, m, c'.disk[b.id], []);
  }

  // ---- the read cursor ----------------------------------------------------

  /** A cursor that names no live segment moves to the start of the front segment. */
  lemma CursorResynced(crc: Checksum, c: Store, m: Model, c': Store)
    requires Sound(crc, c, m) && c.segments != [] && c.readSeq != c.segments[0].seqNo
    requires c' == c.(readSeq := c.segments[0].seqNo, readOffset := SEGMENT_HEADER_LEN)
    ensures Sound(crc, c', m)
  {
    assert DescribedAt(crc, c.segments, m.spool.segs, 0);
    OffsetZero(crc, Items(m.spool.segs[0].entries));
  }

  /** What a read at the cursor finds: the next frame, or the end of the segment when all of it was read. */
  lemma ReadAtCursor(crc: Checksum, c: Store, m: Model)
    requires Sound(crc, c, m) && m.junk == [] && c.segments != [] && c.readSeq == c.segments[0].seqNo
    ensures m.spool.segs != [] && c.readSeq == m.spool.segs[0].id && c.readSeq in c.disk
    ensures c.readOffset <= |c.disk[c.readSeq].bytes|
    ensures var es, read := m.spool.segs[0].entries, m.spool.read;
            var found := ParseFrame(crc, c.disk[c.readSeq].bytes[c.readOffset..]);
            && read <= |es|
            && (read < |es| ==>
                  && found == Parsed(es[read].item)
                  && FrameOffset(crc, Items(es), read + 1) == c.readOffset + FrameLen(|es[read].item.payload|))
            && (read == |es| ==> found == End && c.readOffset == c.segments[0].bytes)
  {
    var s := m.spool;
    assert DescribedAt(crc, c.segments, s.segs, 0);
    assert Stored(crc, c.disk, s.segs, s.open, m.junk, 0);
    ReadHeld(crc, c.disk[c.readSeq], s.segs[0], s.read);
  }

  lemma FrontIsLowest(segs: seq<Spool.Segment<Frame>>, i: nat)
    requires Spool.IdsAscend(segs) && 0 < i < |segs|
    ensures segs[0].id < segs[i].id
  {
    assert Spool.IdBelow(segs, 0, i);
  }

  /** A cursor that names a live segment names the front one. */
  lemma LiveCursorIsFront(crc: Checksum, c: Store, m: Model, i: nat)
    requires Sound(crc, c, m) && i < |c.segments| && c.readSeq == c.segments[i].seqNo
    ensures c.readSeq == c.segments[0].seqNo
  {
    assert DescribedAt(crc, c.segments, m.spool.segs, 0) && DescribedAt(crc, c.segments, m.spool.segs, i);
    if i > 0 {
      FrontIsLowest(m.spool.segs, i);
    }
  }

  /** When the front segment has been read to its end: nothing is left if it is the active one, else it can go. */
  lemma FrontConsumed(crc: Checksum, c: Store, m: Model)
    requires Sound(crc, c, m) && m.junk == [] && c.segments != [] && c.readSeq == c.segments[0].seqNo
    requires m.spool.segs != [] && m.spool.read == |m.spool.segs[0].entries|
    ensures c.active.Some? && c.active.value.seqNo == c.readSeq ==>
              Spool.Backlog(m.spool) == [] && c.readOffset == c.active.value.offset
    ensures !(c.active.Some? && c.active.value.seqNo == c.readSeq) ==> Spool.Enabled(m.spool, Spool.Collect)
  {
    ReadAtCursor(crc, c, m);
    Spool.FrontQueue(m.spool);
    if c.active.Some? {
      ActiveIsBack(crc, c, m);
      if |m.spool.segs| > 1 {
        FrontIsLowest(m.spool.segs, |m.spool.segs| - 1);
      }
      assert |m.spool.segs| == 1 ==> m.spool.segs[1..] == [];
    }
  }

  /** A frame was found at the cursor: the advance past it becomes pending. */
  lemma FrameFound(crc: Checksum, c: Store, m: Model, c': Store)
    requires Sound(crc, c, m) && c.segments != [] && c.readSeq == c.segments[0].seqNo
    requires Spool.Enabled(m.spool, Spool.Peek)
    requires c' == c.(pendingAdvance := Some(FrameOffset(crc, Items(m.spool.segs[0].entries), m.spool.read + 1)))
    ensures Sound(crc, c', After(m, Spool.Peek))
  {
    assert DescribedAt(crc, c.segments, m.spool.segs, 0);
    StepSound(m, Spool.Peek);
  }

  /** The pending advance is taken. */
  lemma AdvanceTaken(crc: Checksum, c: Store, m: Model, c': Store)
    requires Sound(crc, c, m) && c.pendingAdvance.Some?
    requires c' == c.(readOffset := c.pendingAdvance.value, pendingAdvance := None)
    ensures Spool.Enabled(m.spool, Spool.Commit)
    ensures Sound(crc, c', After(m, Spool.Commit))
  {
    StepSound(m, Spool.Commit);
  }
}
