/**
  The write-ahead log store as an object. Every method states its effect on the
  queue of undelivered frames; the ghost model records the elementary steps that
  it performed on the spool machine, so that whatever holds of every run of that
  machine holds of the store after every sequence of calls.

  A predicate compared with `true` is handled by the verifier as one fact, not as its
  conjuncts.
 */
module WalStore {
  import opened Codec
  import opened Options
  import opened Layout
  import opened StoreState
  import opened Packing
  import SegmentReader
  import Spool

  datatype Config = Config(maxBytes: nat, segmentBytes: nat)

  /** Where an append meets an I/O error; `written` is how many bytes of the failing write got through. */
  datatype Fault =
    | NoFault
    | DirectoryFails
    | OpenFails
    | HeaderFails(written: nat)
    | FrameFails(written: nat)

  predicate FaultFits(fault: Fault, frameSize: nat) {
    && (fault.HeaderFails? ==> fault.written < SEGMENT_HEADER_LEN)
    && (fault.FrameFails? ==> fault.written < frameSize)
  }

  datatype PeekResult = Found(frame: Frame) | Nothing | IoError

  predicate SegmentsWithin(metas: seq<SegmentMeta>, bound: nat) {
    forall i | 0 <= i < |metas| :: metas[i].bytes <= bound
  }

  function Max(a: nat, b: nat): nat { if a >= b then a else b }

  /** The steps recorded in `m'` beyond those of `m`. */
  ghost function Since(m: Model, m': Model): seq<Op> {
    Spool.Drop(m'.trace, |m.trace|)
  }

  /** From `m` to `m'` only the writer's kind of steps were taken. */
  ghost predicate OnlyWriter(m: Model, m': Model) {
    m.trace <= m'.trace && Spool.WriterOps(Since(m, m'))
  }

  lemma WriterStep(m: Model, m': Model, m'': Model, op: Op)
    requires OnlyWriter(m, m') && Spool.WriterOp(op) && m''.trace == m'.trace + [op]
    ensures OnlyWriter(m, m'')
  {
    assert Since(m, m'') == Since(m, m') + [op];
  }

  /** A frame write, seen by the model: the queue gains the frame and only the writer has acted. */
  lemma FrameEffect(crc: Checksum, c: Store, m: Model, c': Store, f: Frame, ordered: bool)
    requires Sound(crc, c, m) && c.active.Some? && m.junk == [] && Readable(f) && f.batchSeq == c.nextBatchSeq
    requires FrameAdded(crc, c, c', f)
    requires c'.nextSeq == c.nextSeq && c'.readSeq == c.readSeq && c'.readOffset == c.readOffset
    requires c'.pendingAdvance == c.pendingAdvance && c'.droppedBatches == c.droppedBatches
    requires ordered ==> m.ordered && c'.nextBatchSeq == c.nextBatchSeq + 1
    ensures Spool.Enabled(m.spool, Spool.Write(f))
    ensures var m' := After(m, Spool.Write(f)).(ordered := ordered);
            && Sound(crc, c', m') && OnlyWriter(m, m') && m'.spool.log == m.spool.log + [f]
            && Spool.Backlog(m'.spool) == Spool.Backlog(m.spool) + [Spool.Entry(|m.spool.log|, f)]
  {
    FrameWritten(crc, c, m, c', f, ordered);
    Spool.WriteQueue(m.spool, f);
    WriterNoStep(m, m);
    WriterStep(m, m, After(m, Spool.Write(f)).(ordered := ordered), Spool.Write(f));
  }

  /** The store with one more frame in the active segment, its file and all the counts. */
  function Extended(c: Store, bytes: seq<Byte>, size: nat): Store
    requires c.active.Some? && c.segments != [] && c.active.value.seqNo in c.disk
  {
    var a, n := c.active.value, |c.segments| - 1;
    c.(nextBatchSeq := (c.nextBatchSeq + 1) % 0x1_0000_0000_0000_0000,
       disk := c.disk[a.seqNo := c.disk[a.seqNo].(bytes := c.disk[a.seqNo].bytes + bytes)],
       active := Some(a.(offset := a.offset + size)),
       segments := c.segments[..n] + [OneFrameMore(c.segments[n], size)],
       totalBytes := c.totalBytes + size)
  }

  /** Whether the live batch numbers are still known to be in order after one more was used. */
  ghost function StillOrdered(c: Store, m: Model): bool {
    m.ordered && c.nextBatchSeq + 1 < 0x1_0000_0000_0000_0000
  }

  /** All that a frame write does, to the store and to the model. */
  lemma ExtendedByFrame(crc: Checksum, c: Store, m: Model, f: Frame)
    requires Sound(crc, c, m) && c.active.Some? && m.junk == [] && Readable(f) && f.batchSeq == c.nextBatchSeq
    requires c.segments != [] && c.active.value.seqNo in c.disk
    ensures Spool.Enabled(m.spool, Spool.Write(f))
    ensures var c' := Extended(c, EncodeFrame(crc, f), FrameLen(|f.payload|));
            var m' := After(m, Spool.Write(f)).(ordered := StillOrdered(c, m));
            && Sound(crc, c', m') && OnlyWriter(m, m') && m'.spool.log == m.spool.log + [f]
            && Spool.Backlog(m'.spool) == Spool.Backlog(m.spool) + [Spool.Entry(|m.spool.log|, f)]
            && NothingEvicted(c, m, c', m', FrameLen(|f.payload|))
            && BackGrew(c, c', FrameLen(|f.payload|)) && Numbered(c, m, c', m', 1)
  {
    var c' := Extended(c, EncodeFrame(crc, f), FrameLen(|f.payload|));
    ExtendedAdds(crc, c, f);
    FrameEffect(crc, c, m, c', f, StillOrdered(c, m));
    var m' := After(m, Spool.Write(f)).(ordered := StillOrdered(c, m));
    OneQueued(c, m, c', m', f);
    NumberedByFrame(c, m, c', m');
  }

  lemma ExtendedAdds(crc: Checksum, c: Store, f: Frame)
    requires c.active.Some? && c.segments != [] && c.active.value.seqNo in c.disk && f.batchSeq == c.nextBatchSeq
    ensures var c' := Extended(c, EncodeFrame(crc, f), FrameLen(|f.payload|));
            FrameAdded(crc, c, c', f) && BackGrew(c, c', FrameLen(|f.payload|))
  {
  }

  lemma OneQueued(c: Store, m: Model, c': Store, m': Model, f: Frame)
    requires m'.spool.log == m.spool.log + [f] && c'.totalBytes == c.totalBytes + FrameLen(|f.payload|)
    requires Spool.Backlog(m'.spool) == Spool.Backlog(m.spool) + [Spool.Entry(|m.spool.log|, f)]
    requires m'.spool.evicted == m.spool.evicted
    ensures NothingEvicted(c, m, c', m', FrameLen(|f.payload|))
  {
  }

  lemma NumberedByFrame(c: Store, m: Model, c': Store, m': Model)
    requires m'.ordered == StillOrdered(c, m) && c'.nextBatchSeq == (c.nextBatchSeq + 1) % 0x1_0000_0000_0000_0000
    ensures Numbered(c, m, c', m', 1)
  {
  }

  lemma WriterNoStep(m: Model, m': Model)
    requires m'.trace == m.trace
    ensures OnlyWriter(m, m')
  {
  }

  /** A new segment is due: none is active, or the active one holds frames and cannot take this one. */
  predicate NeedsRotate(cfg: Config, c: Store, frameSize: nat) {
    match c.active
    case None => true
    case Some(a) => a.offset > SEGMENT_HEADER_LEN && a.offset + frameSize > cfg.segmentBytes
  }

  /** Faults that a rotation meets. */
  predicate FailsRotation(fault: Fault) { !fault.NoFault? && !fault.FrameFails? }

  /** Room for a frame, made by a rotation exactly if one is due; a failed rotation leaves no segment active. */
  ghost predicate RoomMade(cfg: Config, c: Store, c': Store, frameSize: nat, fault: Fault, ok: bool) {
    RoomMadeExactly(cfg, c, c', frameSize, fault, ok) == true
  }

  ghost predicate RoomMadeExactly(cfg: Config, c: Store, c': Store, frameSize: nat, fault: Fault, ok: bool) {
    && (ok <==> !(NeedsRotate(cfg, c, frameSize) && FailsRotation(fault)))
    && (!ok ==> c'.active.None?)
    && (ok && NeedsRotate(cfg, c, frameSize) ==>
          && c'.active.Some? && c'.active.value.offset == SEGMENT_HEADER_LEN
          && c'.segments == c.segments + [SegmentMeta(c'.active.value.seqNo, SEGMENT_HEADER_LEN, 0)]
          && c'.totalBytes == c.totalBytes + SEGMENT_HEADER_LEN)
    && (ok && !NeedsRotate(cfg, c, frameSize) ==> c'.active == c.active)
    && (!ok || !NeedsRotate(cfg, c, frameSize) ==> c'.segments == c.segments && c'.totalBytes == c.totalBytes)
  }

  // ---- what the cap keeps --------------------------------------------------

  /** The longest run of newest segments that fits with the frame, or the newest segment alone. */
  function LongestFit(metas: seq<SegmentMeta>, maxBytes: nat, incoming: nat): seq<SegmentMeta>
    decreases |metas|
  {
    if |metas| <= 1 || Total(metas) + incoming <= maxBytes then metas
    else LongestFit(metas[1..], maxBytes, incoming)
  }

  /** It is a suffix that fits or cannot be shortened, and no longer suffix fits. */
  lemma {:induction false} LongestFitMeans(metas: seq<SegmentMeta>, maxBytes: nat, incoming: nat)
    ensures var fit := LongestFit(metas, maxBytes, incoming);
            && Spool.SuffixOf(fit, metas) && (metas != [] ==> fit != [])
            && (Total(fit) + incoming <= maxBytes || |fit| <= 1)
            && forall k | 0 <= k < |metas| - |fit| :: Total(metas[k..]) + incoming > maxBytes
    decreases |metas|
  {
    if |metas| <= 1 || Total(metas) + incoming <= maxBytes {
    } else {
      var fit := LongestFit(metas, maxBytes, incoming);
      LongestFitMeans(metas[1..], maxBytes, incoming);
      forall k | 0 <= k < |metas| - |fit| ensures Total(metas[k..]) + incoming > maxBytes {
        if k == 0 {
          assert metas[0..] == metas;
        } else {
          assert metas[k..] == metas[1..][k - 1..];
        }
      }
    }
  }

  function Fit(cfg: Config, c: Store, frameSize: nat): seq<SegmentMeta> {
    LongestFit(c.segments, cfg.maxBytes, frameSize)
  }

  /** A frame that needs no eviction: it fits, or there is at most one segment. */
  predicate NeedsNoEviction(cfg: Config, c: Store, frameSize: nat) {
    |c.segments| <= 1 || c.totalBytes + frameSize <= cfg.maxBytes
  }

  /** The header that a rotation adds. */
  function RotationSize(cfg: Config, c: Store, frameSize: nat): nat {
    if NeedsRotate(cfg, c, frameSize) then SEGMENT_HEADER_LEN else 0
  }

  /** The size of the log after a successful append, which exceeds the cap exactly if this does. */
  function SizeAfter(cfg: Config, c: Store, frameSize: nat): nat {
    Total(Fit(cfg, c, frameSize)) + RotationSize(cfg, c, frameSize) + frameSize
  }

  /** Room for a frame after cap enforcement. */
  ghost predicate CapRoom(cfg: Config, c: Store, c': Store, frameSize: nat, fault: Fault, ok: bool) {
    CapRoomExactly(cfg, c, c', frameSize, fault, ok) == true
  }

  ghost predicate CapRoomExactly(cfg: Config, c: Store, c': Store, frameSize: nat, fault: Fault, ok: bool) {
    var rotates := NeedsRotate(cfg, c, frameSize);
    && (ok <==> !(rotates && FailsRotation(fault)))
    && (!ok ==> c'.active.None? && c'.segments == Fit(cfg, c, frameSize))
    && (ok ==>
          && c'.active.Some?
          && c'.active.value.offset == (if rotates then SEGMENT_HEADER_LEN else c.active.value.offset)
          && |c'.segments| == |Fit(cfg, c, frameSize)| + (if rotates then 1 else 0)
          && c'.totalBytes == Total(Fit(cfg, c, frameSize)) + RotationSize(cfg, c, frameSize))
  }

  /** What an append does to the segments. */
  ghost predicate Appended(cfg: Config, c: Store, c': Store, frameSize: nat, fault: Fault, ok: bool) {
    AppendedExactly(cfg, c, c', frameSize, fault, ok) == true
  }

  ghost predicate AppendedExactly(cfg: Config, c: Store, c': Store, frameSize: nat, fault: Fault, ok: bool) {
    var rotates := NeedsRotate(cfg, c, frameSize);
    && (ok <==> !fault.FrameFails? && !(rotates && FailsRotation(fault)))
    && (!ok && !fault.FrameFails? ==> c'.active.None? && c'.segments == Fit(cfg, c, frameSize))
    && (ok ==>
          && c'.active.Some?
          && c'.active.value.offset == (if rotates then SEGMENT_HEADER_LEN else c.active.value.offset) + frameSize
          && |c'.segments| == |Fit(cfg, c, frameSize)| + (if rotates then 1 else 0)
          && c'.totalBytes == SizeAfter(cfg, c, frameSize))
  }

  /** The cap holds after an append exactly if what is kept, the header and the frame are within it. */
  lemma CapHoldsIff(cfg: Config, c: Store, c': Store, size: nat, fault: Fault)
    requires Appended(cfg, c, c', size, fault, true)
    ensures c'.totalBytes <= cfg.maxBytes <==>
            Total(Fit(cfg, c, size)) + size <= cfg.maxBytes - RotationSize(cfg, c, size)
    ensures c'.totalBytes <= cfg.maxBytes + SEGMENT_HEADER_LEN || |Fit(cfg, c, size)| <= 1
  {
    LongestFitMeans(c.segments, cfg.maxBytes, size);
  }

  lemma CapRoomFrom(cfg: Config, c: Store, c1: Store, c': Store, size: nat, fault: Fault, ok: bool)
    requires RoomMade(cfg, c1, c', size, fault, ok) && c1.active == c.active
    requires c1.segments == Fit(cfg, c, size) && c1.totalBytes == Total(c1.segments)
    ensures CapRoom(cfg, c, c', size, fault, ok)
  {
  }

  lemma AtMostHeader(cfg: Config, c: Store, c': Store, size: nat, fault: Fault, ok: bool)
    requires RoomMade(cfg, c, c', size, fault, ok)
    ensures AtMostHeaderAdded(c, c')
  {
  }

  lemma RoomBounded(cfg: Config, c: Store, c1: Store, c': Store, size: nat, fault: Fault, ok: bool)
    requires RoomMade(cfg, c1, c', size, fault, ok) && c1.active == c.active && Spool.SuffixOf(c1.segments, c.segments)
    requires c1.segments == Fit(cfg, c, size) && c1.totalBytes == Total(c1.segments)
    ensures CapRoom(cfg, c, c', size, fault, ok) && CapBoundBefore(cfg, c.segments, c')
    ensures c'.totalBytes <= c1.totalBytes + SEGMENT_HEADER_LEN
  {
    CapRoomFrom(cfg, c, c1, c', size, fault, ok);
    AtMostHeader(cfg, c1, c', size, fault, ok);
    LongestFitMeans(c.segments, cfg.maxBytes, size);
    BoundWithHeader(cfg, c.segments, c1, c', size);
  }

  /** Making room shortens the queue by what the cap evicts, and by nothing if it evicts nothing. */
  lemma QueueTrimmed(cfg: Config, c: Store, m: Model, c1: Store, m1: Model, c': Store, m': Model, size: nat)
    requires Spool.SuffixOf(Spool.Backlog(m1.spool), Spool.Backlog(m.spool)) && m1.spool.log == m.spool.log
    requires NeedsNoEviction(cfg, c, size) ==> c1 == c && m1 == m
    requires m'.spool.log == m1.spool.log && m'.spool.evicted == m1.spool.evicted
    requires Spool.Backlog(m'.spool) == Spool.Backlog(m1.spool) && c'.totalBytes <= c1.totalBytes + SEGMENT_HEADER_LEN
    ensures Spool.SuffixOf(Items(Spool.Backlog(m'.spool)), Items(Spool.Backlog(m.spool)))
    ensures NeedsNoEviction(cfg, c, size) ==>
              && Items(Spool.Backlog(m'.spool)) == Items(Spool.Backlog(m.spool))
              && NothingEvicted(c, m, c', m', SEGMENT_HEADER_LEN)
  {
    SuffixItems(Spool.Backlog(m'.spool), Spool.Backlog(m.spool));
  }

  lemma AppendRefused(cfg: Config, c: Store, c': Store, size: nat, fault: Fault)
    requires CapRoom(cfg, c, c', size, fault, false)
    ensures Appended(cfg, c, c', size, fault, false)
  {
  }

  /** One frame of this size more, in as many segments. */
  predicate Grew(c: Store, c': Store, size: nat) {
    && c.active.Some? && c'.active == Some(c.active.value.(offset := c.active.value.offset + size))
    && c'.totalBytes == c.totalBytes + size && |c'.segments| == |c.segments|
  }

  lemma AppendEnded(cfg: Config, c: Store, roomy: Store, c': Store, size: nat, fault: Fault, ok: bool)
    requires CapRoom(cfg, c, roomy, size, fault, true) && (ok <==> !fault.FrameFails?)
    requires ok ==> Grew(roomy, c', size)
    ensures Appended(cfg, c, c', size, fault, ok)
  {
  }

  /** Nothing is evicted if `n` more bytes fit under the cap. */
  ghost predicate Spares(cfg: Config, c: Store, m: Model, c': Store, m': Model, n: nat) {
    (c.totalBytes + n <= cfg.maxBytes ==> NothingEvicted(c, m, c', m', n)) == true
  }

  lemma SparesTwice(cfg: Config, c: Store, m: Model, c': Store, m': Model, c'': Store, m'': Model, n: nat, k: nat)
    requires Spares(cfg, c, m, c', m', n) && Spares(cfg, c', m', c'', m'', k)
    ensures Spares(cfg, c, m, c'', m'', n + k)
  {
    if c.totalBytes + n + k <= cfg.maxBytes {
      NothingEvictedTwice(c, m, c', m', c'', m'', n, k);
    }
  }

  /** Bytes that a failed write can leave: a strict prefix of a frame. */
  ghost predicate TornFrame(crc: Checksum, junk: seq<Byte>) {
    exists f, k :: Readable(f) && 0 <= k < FrameLen(|f.payload|) && junk == EncodeFrame(crc, f)[..k]
  }

  lemma TornPart(crc: Checksum, f: Frame, k: nat)
    requires Readable(f) && k < FrameLen(|f.payload|)
    ensures TornFrame(crc, EncodeFrame(crc, f)[..k]) && TornFrame(crc, [])
  {
    assert EncodeFrame(crc, f)[..0] == [];
  }

  // ---- when nothing is evicted ----------------------------------------------

  /** What a payload can add to the log: a segment header and its frame. */
  function FullSize(payloadLen: nat): nat { SEGMENT_HEADER_LEN + FrameLen(payloadLen) }

  /** The log grew by at most `n` bytes, and the queue lost nothing. */
  ghost predicate NothingEvicted(c: Store, m: Model, c': Store, m': Model, n: nat) {
    (&& c'.totalBytes <= c.totalBytes + n && m'.spool.evicted == m.spool.evicted
     && |Spool.Backlog(m'.spool)| + |m.spool.log| == |Spool.Backlog(m.spool)| + |m'.spool.log|) == true
  }

  lemma NothingEvictedTwice(c: Store, m: Model, c': Store, m': Model, c'': Store, m'': Model, n: nat, k: nat)
    requires NothingEvicted(c, m, c', m', n) && NothingEvicted(c', m', c'', m'', k)
    ensures NothingEvicted(c, m, c'', m'', n + k)
  {
  }

  // ---- batch numbers --------------------------------------------------------

  /** Short of a wrap, at most `n` batch numbers were used and those of the live frames stay in order. */
  ghost predicate Numbered(c: Store, m: Model, c': Store, m': Model, n: nat) {
    (m.ordered && c.nextBatchSeq + n < 0x1_0000_0000_0000_0000 ==>
       m'.ordered && c'.nextBatchSeq <= c.nextBatchSeq + n) == true
  }

  lemma NumberedTwice(c: Store, m: Model, c': Store, m': Model, c'': Store, m'': Model, n: nat, k: nat)
    requires Numbered(c, m, c', m', n) && Numbered(c', m', c'', m'', k)
    ensures Numbered(c, m, c'', m'', n + k)
  {
  }

  /** What cap enforcement may have done: whole segments and a prefix of the queue are gone. */
  ghost predicate Trimmed(cfg: Config, incoming: nat, c: Store, m: Model, c': Store, m': Model) {
    (&& Fit(cfg, c', incoming) == Fit(cfg, c, incoming)
     && m'.junk == m.junk && m'.ordered == m.ordered && m'.loose == m.loose && OnlyWriter(m, m')
     && Spool.SuffixOf(Spool.Backlog(m'.spool), Spool.Backlog(m.spool)) && Spool.SuffixOf(c'.segments, c.segments)
     && c'.active == c.active && c'.nextBatchSeq == c.nextBatchSeq && m'.spool.log == m.spool.log
     && (c'.segments == c.segments ==> c' == c && m' == m)) == true
  }

  lemma Untrimmed(cfg: Config, incoming: nat, c: Store, m: Model)
    ensures Trimmed(cfg, incoming, c, m, c, m)
  {
    WriterNoStep(m, m);
  }

  lemma TrimmedMore(cfg: Config, incoming: nat, c: Store, m: Model, c': Store, m': Model, c'': Store, m'': Model)
    requires Trimmed(cfg, incoming, c, m, c', m') && |c'.segments| > 1 && Total(c'.segments) + incoming > cfg.maxBytes
    requires c''.segments == c'.segments[1..]
    requires m''.trace == m'.trace + [Spool.Evict] && m''.junk == m'.junk && m''.ordered == m'.ordered
    requires m''.loose == m'.loose
    requires Spool.SuffixOf(Spool.Backlog(m''.spool), Spool.Backlog(m'.spool))
    requires c''.active == c'.active && c''.nextBatchSeq == c'.nextBatchSeq && m''.spool.log == m'.spool.log
    ensures Trimmed(cfg, incoming, c, m, c'', m'')
  {
    WriterStep(m, m', m'', Spool.Evict);
    Spool.SuffixTransitive(Spool.Backlog(m''.spool), Spool.Backlog(m'.spool), Spool.Backlog(m.spool));
    Spool.SuffixTransitive(c''.segments, c'.segments, c.segments);
  }

  /** The number of the active segment, if there is one. */
  function ActiveIds(c: Store): set<nat> { if c.active.Some? then {c.active.value.seqNo} else {} }

  /** Which segments are exempt from packing says nothing about the store. */
  lemma SoundLoose(crc: Checksum, c: Store, m: Model, loose: set<nat>)
    requires Sound(crc, c, m)
    ensures Sound(crc, c, m.(loose := loose))
  {
  }

  lemma RetiredPacked(crc: Checksum, cfg: Config, c: Store, m: Model, c': Store)
    requires Sound(crc, c, m) && Packed(crc, cfg.segmentBytes, m) && c.active.Some?
    requires Sound(crc, c', After(m, Spool.Close))
    ensures var m' := After(m, Spool.Close).(loose := m.loose + {c.active.value.seqNo});
            Sound(crc, c', m') && Packed(crc, cfg.segmentBytes, m')
  {
    var loosened := m.(loose := m.loose + {c.active.value.seqNo});
    Loosened(crc, cfg.segmentBytes, m, loosened);
    ActiveIsBack(crc, c, m);
    PackedStep(crc, cfg.segmentBytes, loosened, Spool.Close);
    SoundLoose(crc, c', After(m, Spool.Close), loosened.loose);
  }

  /** Without an active segment the back one is exempt from packing, so another can be started. */
  lemma StartedPacked(crc: Checksum, cfg: Config, c: Store, m: Model, id: nat)
    requires Sound(crc, c, m) && Packed(crc, cfg.segmentBytes, m) && c.active.None?
    requires Spool.Enabled(m.spool, Spool.Rotate(id))
    ensures Packed(crc, cfg.segmentBytes, After(m, Spool.Rotate(id)))
  {
    PackedStep(crc, cfg.segmentBytes, m, Spool.Rotate(id));
  }

  /** The segment behind the one that was active has a later number. */
  lemma NewIsLater(crc: Checksum, c: Store, m: Model, c': Store, m': Model)
    requires Sound(crc, c, m) && c.active.Some? && Sound(crc, c', m') && c'.active.Some?
    requires c'.segments == c.segments + [SegmentMeta(c'.active.value.seqNo, SEGMENT_HEADER_LEN, 0)]
    ensures c.segments != []
    ensures var last := c.segments[|c.segments| - 1];
            last.seqNo == c.active.value.seqNo < c'.active.value.seqNo && last.bytes == c.active.value.offset
  {
    ActiveIsBack(crc, c, m);
    var n := |c.segments| - 1;
    assert DescribedAt(crc, c'.segments, m'.spool.segs, n) && DescribedAt(crc, c'.segments, m'.spool.segs, n + 1);
    assert Spool.IdBelow(m'.spool.segs, n, n + 1);
  }

  /** The last two segments: one that holds frames and cannot take this one, and a new one. */
  predicate RotatedFrom(cfg: Config, c: Store, retired: ActiveSegment, frameSize: nat) {
    && |c.segments| >= 2 && c.active.Some? && c.active.value.offset == SEGMENT_HEADER_LEN
    && c.segments[|c.segments| - 1] == SegmentMeta(c.active.value.seqNo, SEGMENT_HEADER_LEN, 0)
    && c.segments[|c.segments| - 2].seqNo == retired.seqNo < c.active.value.seqNo
    && c.segments[|c.segments| - 2].bytes == retired.offset > SEGMENT_HEADER_LEN
    && retired.offset + frameSize > cfg.segmentBytes
  }

  /** Whether the active segment, if there is one, takes a frame of this size. */
  predicate Takes(cfg: Config, c: Store, frameSize: nat) {
    c.active.Some? &&
    (c.active.value.offset + frameSize <= cfg.segmentBytes || c.active.value.offset == SEGMENT_HEADER_LEN)
  }

  /** The active segment stays if it takes the frame; otherwise it is retired, exempt from packing for now. */
  ghost predicate Settles(cfg: Config, c: Store, m: Model, c': Store, m': Model, frameSize: nat, ok: bool) {
    (&& (Takes(cfg, c, frameSize) ==> ok && c'.active == c.active && m'.loose == m.loose)
     && (!Takes(cfg, c, frameSize) ==> m'.loose == m.loose + ActiveIds(c))
     && (ok && c.active.Some? && !Takes(cfg, c, frameSize) ==>
           RotatedFrom(cfg, c', c.active.value, frameSize))) == true
  }

  lemma SettlesFrom(cfg: Config, c: Store, m: Model, c1: Store, m1: Model, c': Store, m': Model, size: nat, ok: bool)
    requires Settles(cfg, c1, m1, c', m', size, ok) && c1.active == c.active && m1.loose == m.loose
    ensures Settles(cfg, c, m, c', m', size, ok)
  {
  }

  /** The segment that a frame of this size makes the store retire. */
  function Retired(cfg: Config, c: Store, frameSize: nat): Option<ActiveSegment> {
    if Takes(cfg, c, frameSize) then None else c.active
  }

  /** The back segment gained a frame. */
  ghost predicate BackGained(s: Spool.State<Frame>, s': Spool.State<Frame>, f: Frame) {
    (&& s.segs != [] && s'.segs != []
     && Spool.Back(s').entries == Spool.Back(s).entries + [Spool.Entry(|s.log|, f)]) == true
  }

  lemma FramePacked(crc: Checksum, cfg: Config, m: Model, f: Frame, ordered: bool)
    requires Packed(crc, cfg.segmentBytes, m) && Spool.Enabled(m.spool, Spool.Write(f))
    ensures var m' := After(m, Spool.Write(f)).(ordered := ordered);
            Packed(crc, cfg.segmentBytes, m') && BackGained(m.spool, m'.spool, f)
  {
    PackedStep(crc, cfg.segmentBytes, m, Spool.Write(f));
  }

  /** After a rotation and the frame it was for, the retired segment is packed. */
  lemma RotationPaid(crc: Checksum, cfg: Config, roomy: Store, before: Model, c: Store, m: Model, loose: set<nat>,
                     retired: ActiveSegment, f: Frame)
    requires Sound(crc, roomy, before) && RotatedFrom(cfg, roomy, retired, FrameLen(|f.payload|))
    requires Sound(crc, c, m) && Packed(crc, cfg.segmentBytes, m) && m.loose == loose + {retired.seqNo}
    requires BackGrew(roomy, c, FrameLen(|f.payload|)) && BackGained(before.spool, m.spool, f)
    ensures Sound(crc, c, m.(loose := loose)) && Packed(crc, cfg.segmentBytes, m.(loose := loose))
  {
    assert DescribedAt(crc, roomy.segments, before.spool.segs, |roomy.segments| - 1);
    Tightened(crc, cfg.segmentBytes, c, m, loose, retired.seqNo, f);
    SoundLoose(crc, c, m, loose);
  }

  /** Exemption from packing says nothing else. */
  lemma LooseAside(cfg: Config, c: Store, m: Model, c': Store, m': Model, loose: set<nat>, n: nat)
    ensures OnlyWriter(m, m') ==> OnlyWriter(m, m'.(loose := loose))
    ensures Numbered(c, m, c', m', 1) ==> Numbered(c, m, c', m'.(loose := loose), 1)
    ensures NothingEvicted(c, m, c', m', n) ==> NothingEvicted(c, m, c', m'.(loose := loose), n)
  {
  }

  /**
    When an append starts a segment: the active one stays active if it takes the frame,
    whatever fails, and otherwise, if the append succeeds, a new one is started, and the
    old one is packed. A segment is exempt from packing only if the append that was to
    retire it failed.
   */
  ghost predicate Rotated(cfg: Config, c: Store, m: Model, c': Store, m': Model, frameSize: nat, fault: Fault,
                          ok: bool) {
    (&& (Takes(cfg, c, frameSize) ==>
           && (ok <==> !fault.FrameFails?)
           && c'.active.Some? && c'.active.value.seqNo == c.active.value.seqNo)
     && (ok && c.active.Some? && !Takes(cfg, c, frameSize) ==>
           c'.active.Some? && c.active.value.seqNo < c'.active.value.seqNo)
     && (ok || Takes(cfg, c, frameSize) ==> m'.loose == m.loose)
     && m'.loose <= m.loose + ActiveIds(c)) == true
  }

  class WalInner {
    const crc: Checksum
    const cfg: Config
    var st: Store
    ghost var model: Model

    ghost predicate Inv()
      reads this
    {
      Sound(crc, st, model) && Packed(crc, cfg.segmentBytes, model)
    }

    /** The invariant between calls: no torn bytes are left in the active segment. */
    ghost predicate Valid()
      reads this
    {
      Inv() && model.junk == []
    }

    ghost function Backlog(): seq<Spool.Entry<Frame>>
      reads this
    {
      Spool.Backlog(model.spool)
    }

    /** The undelivered frames, in order. */
    ghost function Queue(): seq<Frame>
      reads this
    {
      Items(Backlog())
    }

    constructor Empty(crc: Checksum, cfg: Config)
      ensures this.crc == crc && this.cfg == cfg
      ensures Valid() && model == Model(Spool.Initial(), [], [], true, {})
      ensures st == Store(map[], [], None, 0, 0, 0, 0, SEGMENT_HEADER_LEN, None, 0)
    {
      this.crc, this.cfg := crc, cfg;
      st := Store(map[], [], None, 0, 0, 0, 0, SEGMENT_HEADER_LEN, None, 0);
      model := Model(Spool.Initial(), [], [], true, {});
      Spool.InitialInv<Frame>();
    }

    /** The store installed by recovery. */
    constructor FromRecovered(crc: Checksum, cfg: Config, st: Store, ghost model: Model)
      requires Sound(crc, st, model) && model.junk == [] && Packed(crc, cfg.segmentBytes, model)
      ensures this.crc == crc && this.cfg == cfg && this.st == st && this.model == model
      ensures Valid()
    {
      this.crc, this.cfg, this.st, this.model := crc, cfg, st, model;
    }

    // ---- the size cap -----------------------------------------------------

    method DropOldest()
      requires Inv() && |st.segments| > 1
      modifies this
      ensures Inv()
      ensures Spool.Enabled(old(model.spool), Spool.Evict) && model == After(old(model), Spool.Evict)
      ensures Spool.SuffixOf(Backlog(), old(Backlog()))
      ensures st.segments == old(st.segments)[1..]
      ensures st.active == old(st.active) && st.nextBatchSeq == old(st.nextBatchSeq)
    {
      ghost var was := st;
      assert DescribedAt(crc, st.segments, model.spool.segs, 0);
      var victim := st.segments[0];
      st := st.(segments := st.segments[1..],
                totalBytes := st.totalBytes - victim.bytes,
                droppedBatches := st.droppedBatches + victim.frames,
                disk := st.disk - {victim.seqNo});
      if st.readSeq == victim.seqNo {
        st := st.(readSeq := st.segments[0].seqNo, readOffset := SEGMENT_HEADER_LEN, pendingAdvance := None);
      }
      FrontGone(crc, was, model, st, Spool.Evict);
      Spool.EvictQueue(model.spool);
      PackedStep(crc, cfg.segmentBytes, model, Spool.Evict);
      model := After(model, Spool.Evict);
    }

    /**
      Drops oldest segments only while `incoming` does not fit and more than one is
      left: what stays is the longest run of segments that fits. The queue loses a prefix.
     */
    method EnforceCap(incoming: nat)
      requires Inv()
      modifies this
      ensures Inv() && model.junk == old(model.junk) && model.ordered == old(model.ordered)
      ensures model.loose == old(model.loose)
      ensures st.segments == Fit(cfg, old(st), incoming) && st.totalBytes == Total(st.segments)
      ensures NeedsNoEviction(cfg, old(st), incoming) ==> st == old(st) && model == old(model)
      ensures OnlyWriter(old(model), model) && model.spool.log == old(model.spool.log)
      ensures Spool.SuffixOf(Backlog(), old(Backlog())) && Spool.SuffixOf(st.segments, old(st.segments))
      ensures st.active == old(st.active) && st.nextBatchSeq == old(st.nextBatchSeq)
    {
      Untrimmed(cfg, incoming, st, model);
      while st.totalBytes + incoming > cfg.maxBytes && |st.segments| > 1
        invariant Inv() && Trimmed(cfg, incoming, old(st), old(model), st, model)
        decreases |st.segments|
      {
        ghost var before, was := model, st;
        DropOldest();
        TrimmedMore(cfg, incoming, old(st), old(model), was, before, st, model);
      }
    }

    // ---- the active segment -----------------------------------------------

    /** `fdatasync` of the active segment, if there is one. */
    method SyncActive()
      requires Valid()
      modifies this
      ensures Valid() && model.ordered == old(model.ordered) && model.loose == old(model.loose)
      ensures OnlyWriter(old(model), model) && Backlog() == old(Backlog())
      ensures model.spool.log == old(model.spool.log) && model.spool.evicted == old(model.spool.evicted)
      ensures Quiet(st, model)
      ensures st == old(st).(disk := st.disk)
    {
      WriterNoStep(model, model);
      if st.active.Some? {
        ghost var was, before := st, model;
        ActiveFile(crc, st, model);
        var id := st.active.value.seqNo;
        st := st.(disk := st.disk[id := st.disk[id].(synced := |st.disk[id].bytes|)]);
        ActiveSynced(crc, was, model, st, Spool.Sync);
        Spool.InvisibleStep(model.spool, Spool.Sync);
        PackedStep(crc, cfg.segmentBytes, model, Spool.Sync);
        model := After(model, Spool.Sync);
        WriterStep(before, before, model, Spool.Sync);
        SyncedIsQuiet(crc, st, model);
      } else {
        InactiveIsQuiet(crc, st, model);
      }
    }

    /** Before a rotation the active segment, if any, is synced and given up; for now it is exempt from packing. */
    method RetireActive()
      requires Valid()
      modifies this
      ensures Valid() && model.ordered == old(model.ordered)
      ensures model.loose == old(model.loose + ActiveIds(st))
      ensures OnlyWriter(old(model), model) && Backlog() == old(Backlog())
      ensures model.spool.log == old(model.spool.log) && model.spool.evicted == old(model.spool.evicted)
      ensures st == old(st).(disk := st.disk, active := None)
    {
      WriterNoStep(model, model);
      if st.active.Some? {
        ghost var was, before := st, model;
        ActiveFile(crc, st, model);
        var id := st.active.value.seqNo;
        st := st.(disk := st.disk[id := st.disk[id].(synced := |st.disk[id].bytes|)], active := None);
        ActiveSynced(crc, was, model, st, Spool.Close);
        Spool.InvisibleStep(model.spool, Spool.Close);
        RetiredPacked(crc, cfg, was, before, st);
        model := After(model, Spool.Close).(loose := model.loose + {id});
        WriterStep(before, before, model, Spool.Close);
      }
    }

    /** Starts a new segment; a failure leaves no segment active, and the queue as it was. */
    method Rotate(fault: Fault) returns (ok: bool)
      requires Valid() && FaultFits(fault, 1 + if fault.FrameFails? then fault.written else 0)
      modifies this
      ensures Valid() && model.ordered == old(model.ordered) && st.nextBatchSeq == old(st.nextBatchSeq)
      ensures model.loose == old(model.loose + ActiveIds(st))
      ensures OnlyWriter(old(model), model) && Backlog() == old(Backlog())
      ensures model.spool.log == old(model.spool.log) && model.spool.evicted == old(model.spool.evicted)
      ensures ok <==> fault.NoFault? || fault.FrameFails?
      ensures !ok ==> st.active.None? && st.segments == old(st.segments) && st.totalBytes == old(st.totalBytes)
      ensures ok ==> && st.active.Some? && st.active.value.offset == SEGMENT_HEADER_LEN
                     && st.segments == old(st.segments) + [SegmentMeta(st.active.value.seqNo, SEGMENT_HEADER_LEN, 0)]
                     && st.totalBytes == old(st.totalBytes) + SEGMENT_HEADER_LEN
    {
      RetireActive();
      if fault.DirectoryFails? {
        return false;
      }
      if fault.OpenFails? {
        SkipNumber();
        return false;
      }
      if fault.HeaderFails? {
        LeaveOrphan(fault.written);
        return false;
      }
      ghost var before := model;
      StartSegment();
      WriterChain(old(model), before, model);
      return true;
    }

    /** The file of the next segment could not be opened: its number is used up. */
    method SkipNumber()
      requires Valid()
      modifies this
      ensures Valid() && model == old(model) && st == old(st).(nextSeq := old(st.nextSeq) + 1)
    {
      ghost var was := st;
      st := st.(nextSeq := st.nextSeq + 1);
      NumberSkipped(crc, was, model, st);
    }

    /** The header of the next segment was only partly written: its file stays behind, in no list. */
    method LeaveOrphan(written: nat)
      requires Valid() && written < SEGMENT_HEADER_LEN
      modifies this
      ensures Valid() && model == old(model)
      ensures st == old(st).(nextSeq := old(st.nextSeq) + 1, disk := st.disk)
    {
      ghost var was := st;
      var seqNo := st.nextSeq;
      st := st.(nextSeq := seqNo + 1, disk := st.disk[seqNo := File(SegmentHeader()[..written], 0)]);
      OrphanLeft(crc, was, model, st, st.disk[seqNo]);
    }

    /** Creates the next segment file, holding just its header, and makes it the active one. */
    method StartSegment()
      requires Valid() && st.active.None?
      modifies this
      ensures Valid() && model.ordered == old(model.ordered) && st.nextBatchSeq == old(st.nextBatchSeq)
      ensures model.loose == old(model.loose)
      ensures OnlyWriter(old(model), model) && Backlog() == old(Backlog())
      ensures model.spool.log == old(model.spool.log) && model.spool.evicted == old(model.spool.evicted)
      ensures st.active == Some(ActiveSegment(old(st.nextSeq), SEGMENT_HEADER_LEN))
      ensures st.segments == old(st.segments) + [SegmentMeta(old(st.nextSeq), SEGMENT_HEADER_LEN, 0)]
      ensures st.totalBytes == old(st.totalBytes) + SEGMENT_HEADER_LEN
    {
      ghost var was, before := st, model;
      var seqNo := st.nextSeq;
      st := st.(nextSeq := st.nextSeq + 1,
                disk := st.disk[seqNo := File(SegmentHeader(), 0)],
                segments := st.segments + [SegmentMeta(seqNo, SEGMENT_HEADER_LEN, 0)],
                totalBytes := st.totalBytes + SEGMENT_HEADER_LEN,
                active := Some(ActiveSegment(seqNo, SEGMENT_HEADER_LEN)));
      SegmentStarted(crc, was, model, st);
      Spool.InvisibleStep(model.spool, Spool.Rotate(seqNo));
      StartedPacked(crc, cfg, was, before, seqNo);
      model := After(model, Spool.Rotate(seqNo));
      WriterNoStep(before, before);
      WriterStep(before, before, model, Spool.Rotate(seqNo));
    }

    /** Rotates unless the active segment can take the frame; a segment without frames takes any frame. */
    method EnsureActiveWithRoom(frameSize: nat, fault: Fault) returns (ok: bool)
      requires Valid() && FaultFits(fault, frameSize)
      modifies this
      ensures Valid() && model.ordered == old(model.ordered) && st.nextBatchSeq == old(st.nextBatchSeq)
      ensures OnlyWriter(old(model), model) && Backlog() == old(Backlog())
      ensures model.spool.log == old(model.spool.log) && model.spool.evicted == old(model.spool.evicted)
      ensures ok ==> st.active.Some? && RoomFor(cfg, st.active.value.offset, frameSize)
      ensures RoomMade(cfg, old(st), st, frameSize, fault, ok)
      ensures old(st.active).Some? && old(st.active.value.offset) + frameSize <= cfg.segmentBytes ==>
                ok && st == old(st) && model == old(model)
      ensures Takes(cfg, old(st), frameSize) ==> ok && st == old(st) && model == old(model)
      ensures Settles(cfg, old(st), old(model), st, model, frameSize, ok)
    {
      WriterNoStep(model, model);
      ok := true;
      if NeedsRotate(cfg, st, frameSize) {
        ghost var c, m := st, model;
        ok := Rotate(fault);
        if ok && c.active.Some? {
          NewIsLater(crc, c, m, st, model);
        }
      } else {
        ActiveFile(crc, st, model);
      }
    }

    // ---- append -----------------------------------------------------------

    /** A frame write that fails after `written` bytes: the batch number is used up, the queue is as it was. */
    method WriteTorn(payload: seq<Byte>, written: nat)
      requires Valid() && st.active.Some? && written < FrameLen(|payload|)
      modifies this
      ensures Inv()
      ensures Numbered(old(st), old(model), st, model, 1)
      ensures OnlyWriter(old(model), model) && Backlog() == old(Backlog())
      ensures model.spool == old(model.spool) && model.loose == old(model.loose)
      ensures model.junk == EncodeFrame(crc, Frame(old(st.nextBatchSeq), payload))[..written]
      ensures st == old(st).(disk := st.disk, nextBatchSeq := st.nextBatchSeq)
    {
      ghost var was := st;
      ActiveFile(crc, st, model);
      WriterNoStep(model, model);
      var id, torn := st.active.value.seqNo, EncodeFrame(crc, Frame(st.nextBatchSeq, payload))[..written];
      ghost var ordered := model.ordered && st.nextBatchSeq + 1 < 0x1_0000_0000_0000_0000;
      st := st.(nextBatchSeq := (st.nextBatchSeq + 1) % 0x1_0000_0000_0000_0000,
                disk := st.disk[id := st.disk[id].(bytes := st.disk[id].bytes + torn)]);
      FrameTorn(crc, was, model, st, torn, ordered);
      model := model.(junk := torn, ordered := ordered);
    }

    /** A frame write that succeeds: the queue gains the frame. */
    method WriteFrame(payload: seq<Byte>)
      requires Valid() && st.active.Some? && ReadableLength(|payload|)
      modifies this
      ensures Valid()
      ensures Numbered(old(st), old(model), st, model, 1)
      ensures OnlyWriter(old(model), model)
      ensures Backlog() == old(Backlog()) + [Spool.Entry(|old(model.spool.log)|, Frame(old(st.nextBatchSeq), payload))]
      ensures BackGrew(old(st), st, FrameLen(|payload|)) && model.loose == old(model.loose)
      ensures BackGained(old(model.spool), model.spool, Frame(old(st.nextBatchSeq), payload))
      ensures NothingEvicted(old(st), old(model), st, model, FrameLen(|payload|))
      ensures model.spool.log == old(model.spool.log) + [Frame(old(st.nextBatchSeq), payload)]
    {
      ActiveFile(crc, st, model);
      var frame := Frame(st.nextBatchSeq, payload);
      ExtendedByFrame(crc, st, model, frame);
      ghost var ordered := StillOrdered(st, model);
      FramePacked(crc, cfg, model, frame, ordered);
      st := Extended(st, EncodeFrame(crc, frame), FrameLen(|payload|));
      model := After(model, Spool.Write(frame)).(ordered := ordered);
    }

    /** The write as the caller sees it; `before` are the segments before room was made. */
    method WriteBounded(payload: seq<Byte>, ghost before: seq<SegmentMeta>)
      requires Valid() && st.active.Some? && ReadableLength(|payload|)
      requires CapBoundBefore(cfg, before, st) && RoomFor(cfg, st.active.value.offset, FrameLen(|payload|))
      modifies this
      ensures Valid()
      ensures Numbered(old(st), old(model), st, model, 1)
      ensures OnlyWriter(old(model), model)
      ensures Queue() == old(Queue()) + [Frame(old(st.nextBatchSeq), payload)]
      ensures CapBound(cfg, before, st, FrameLen(|payload|))
      ensures NothingEvicted(old(st), old(model), st, model, FrameLen(|payload|))
      ensures st.totalBytes == old(st.totalBytes) + FrameLen(|payload|) && |st.segments| == |old(st.segments)|
      ensures BackGrew(old(st), st, FrameLen(|payload|)) && model.loose == old(model.loose)
      ensures BackGained(old(model.spool), model.spool, Frame(old(st.nextBatchSeq), payload))
      ensures model.spool.log == old(model.spool.log) + [Frame(old(st.nextBatchSeq), payload)]
      ensures st.active == Some(old(st.active.value).(offset := old(st.active.value.offset) + FrameLen(|payload|)))
    {
      ghost var was, frame := st, Frame(st.nextBatchSeq, payload);
      ActiveFile(crc, st, model);
      WriteFrame(payload);
      ItemsConcat(old(Backlog()), [Spool.Entry(|old(model.spool.log)|, frame)]);
      BoundWithFrame(cfg, before, was, st, FrameLen(|payload|));
    }

    /** Cap enforcement, then rotation if needed. */
    method MakeRoom(size: nat, fault: Fault) returns (ok: bool)
      requires Valid() && FaultFits(fault, size)
      modifies this
      ensures Valid() && model.ordered == old(model.ordered) && st.nextBatchSeq == old(st.nextBatchSeq)
      ensures OnlyWriter(old(model), model) && Spool.SuffixOf(Queue(), old(Queue()))
      ensures ok ==> st.active.Some? && RoomFor(cfg, st.active.value.offset, size)
      ensures CapBoundBefore(cfg, old(st.segments), st)
      ensures model.spool.log == old(model.spool.log) && CapRoom(cfg, old(st), st, size, fault, ok)
      ensures Settles(cfg, old(st), old(model), st, model, size, ok)
      ensures NeedsNoEviction(cfg, old(st), size) ==>
                Queue() == old(Queue()) && NothingEvicted(old(st), old(model), st, model, SEGMENT_HEADER_LEN)
    {
      EnforceCap(size);
      ghost var m1, s1 := model, st;
      ok := EnsureActiveWithRoom(size, fault);
      WriterChain(old(model), m1, model);
      SettlesFrom(cfg, old(st), old(model), s1, m1, st, model, size, ok);
      RoomBounded(cfg, old(st), s1, st, size, fault, ok);
      QueueTrimmed(cfg, old(st), old(model), s1, m1, st, model, size);
    }

    /**
      Appends one payload: the queue loses at most a prefix to the cap, and nothing if
      the frame fits, and gains the frame at its back; a failed append only loses the
      prefix. The log is then as large as what the cap keeps, a header if a segment was
      started, and the frame.
     */
    method Append(payload: seq<Byte>, fault: Fault) returns (ok: bool, ghost kept: seq<Frame>)
      requires Valid() && ReadableLength(|payload|) && FaultFits(fault, FrameLen(|payload|))
      modifies this
      ensures Inv() && (ok ==> Valid()) && Appended(cfg, old(st), st, FrameLen(|payload|), fault, ok)
      ensures Numbered(old(st), old(model), st, model, 1)
      ensures OnlyWriter(old(model), model)
      ensures Spool.SuffixOf(kept, old(Queue()))
      ensures Queue() == if ok then kept + [Frame(old(st.nextBatchSeq), payload)] else kept
      ensures ok ==> (st.totalBytes <= cfg.maxBytes <==> SizeAfter(cfg, old(st), FrameLen(|payload|)) <= cfg.maxBytes)
      ensures ok ==> CapBound(cfg, old(st.segments), st, FrameLen(|payload|))
      ensures !ok ==> CapBoundBefore(cfg, old(st.segments), st)
      ensures model.spool.log == old(model.spool.log) + if ok then [Frame(old(st.nextBatchSeq), payload)] else []
      ensures NeedsNoEviction(cfg, old(st), FrameLen(|payload|)) ==>
                kept == old(Queue()) && NothingEvicted(old(st), old(model), st, model, FullSize(|payload|))
      ensures TornFrame(crc, model.junk)
      ensures Rotated(cfg, old(st), old(model), st, model, FrameLen(|payload|), fault, ok)
    {
      TornPart(crc, Frame(st.nextBatchSeq, payload), 0);
      var room := MakeRoom(FrameLen(|payload|), fault);
      kept := Queue();
      if !room {
        AppendRefused(cfg, old(st), st, FrameLen(|payload|), fault);
        return false, kept;
      }
      ghost var before, roomy := model, st;
      ok := WriteAndSettle(payload, fault, old(st.segments), old(model.loose),
                           Retired(cfg, old(st), FrameLen(|payload|)));
      WriterChain(old(model), before, model);
      AppendEnded(cfg, old(st), roomy, st, FrameLen(|payload|), fault, ok);
      if NeedsNoEviction(cfg, old(st), FrameLen(|payload|)) {
        NothingEvictedTwice(old(st), old(model), roomy, before, st, model, SEGMENT_HEADER_LEN, FrameLen(|payload|));
      }
    }

    /** The frame write; after a rotation that pays for it: the segment `retired` is packed from then on. */
    method WriteAndSettle(payload: seq<Byte>, fault: Fault, ghost before: seq<SegmentMeta>, ghost loose: set<nat>,
                          ghost retired: Option<ActiveSegment>)
      returns (ok: bool)
      requires Valid() && st.active.Some? && ReadableLength(|payload|) && FaultFits(fault, FrameLen(|payload|))
      requires CapBoundBefore(cfg, before, st) && RoomFor(cfg, st.active.value.offset, FrameLen(|payload|))
      requires retired.Some? ==> RotatedFrom(cfg, st, retired.value, FrameLen(|payload|))
      requires model.loose == loose + if retired.Some? then {retired.value.seqNo} else {}
      modifies this
      ensures Inv() && (ok ==> Valid()) && (ok <==> !fault.FrameFails?)
      ensures Numbered(old(st), old(model), st, model, 1)
      ensures OnlyWriter(old(model), model)
      ensures Queue() == if ok then old(Queue()) + [Frame(old(st.nextBatchSeq), payload)] else old(Queue())
      ensures model.spool.log == old(model.spool.log) + if ok then [Frame(old(st.nextBatchSeq), payload)] else []
      ensures if ok then CapBound(cfg, before, st, FrameLen(|payload|)) else CapBoundBefore(cfg, before, st)
      ensures ok ==> Grew(old(st), st, FrameLen(|payload|))
      ensures if ok then model.loose == loose else model.loose == old(model.loose) && st.active == old(st.active)
      ensures NothingEvicted(old(st), old(model), st, model, FrameLen(|payload|)) && TornFrame(crc, model.junk)
    {
      ghost var roomy, was := st, model;
      ok := WriteOrTear(payload, fault, before);
      if ok && retired.Some? {
        RotationPaid(crc, cfg, roomy, was, st, model, loose, retired.value, Frame(roomy.nextBatchSeq, payload));
        LooseAside(cfg, roomy, was, st, model, loose, FrameLen(|payload|));
        model := model.(loose := loose);
      }
    }

    /** The frame write into a segment with room, which may fail; `before` are the segments before room was made. */
    method WriteOrTear(payload: seq<Byte>, fault: Fault, ghost before: seq<SegmentMeta>) returns (ok: bool)
      requires Valid() && st.active.Some? && ReadableLength(|payload|) && FaultFits(fault, FrameLen(|payload|))
      requires CapBoundBefore(cfg, before, st) && RoomFor(cfg, st.active.value.offset, FrameLen(|payload|))
      modifies this
      ensures Inv() && (ok ==> Valid()) && (ok <==> !fault.FrameFails?)
      ensures Numbered(old(st), old(model), st, model, 1)
      ensures OnlyWriter(old(model), model)
      ensures Queue() == if ok then old(Queue()) + [Frame(old(st.nextBatchSeq), payload)] else old(Queue())
      ensures model.spool.log == old(model.spool.log) + if ok then [Frame(old(st.nextBatchSeq), payload)] else []
      ensures if ok then CapBound(cfg, before, st, FrameLen(|payload|)) else CapBoundBefore(cfg, before, st)
      ensures ok ==> Grew(old(st), st, FrameLen(|payload|)) && BackGrew(old(st), st, FrameLen(|payload|))
      ensures ok ==> BackGained(old(model.spool), model.spool, Frame(old(st.nextBatchSeq), payload))
      ensures model.loose == old(model.loose) && (!ok ==> st.active == old(st.active))
      ensures NothingEvicted(old(st), old(model), st, model, FrameLen(|payload|)) && TornFrame(crc, model.junk)
    {
      TornPart(crc, Frame(st.nextBatchSeq, payload), if fault.FrameFails? then fault.written else 0);
      if fault.FrameFails? {
        WriteTorn(payload, fault.written);
        return false;
      }
      WriteBounded(payload, before);
      return true;
    }

    /** After a failed append the active segment is cut back to its last good frame boundary. */
    method RecoverActiveAfterError()
      requires Inv()
      modifies this
      ensures Valid() && model == old(model).(junk := []) && Backlog() == old(Backlog())
      ensures st == old(st).(disk := st.disk)
    {
      if st.active.Some? {
        ghost var was := st;
        ActiveFile(crc, st, model);
        var a := st.active.value;
        st := st.(disk := st.disk[a.seqNo := Truncate(st.disk[a.seqNo], a.offset)]);
        ActiveRepaired(crc, was, model, st);
        model := model.(junk := []);
      }
    }

    /** The writer's append: a failure is repaired at once, and the payload is dropped. */
    method AppendOne(payload: seq<Byte>, fault: Fault) returns (ok: bool, ghost kept: seq<Frame>)
      requires Valid() && ReadableLength(|payload|) && FaultFits(fault, FrameLen(|payload|))
      modifies this
      ensures Valid() && Appended(cfg, old(st), st, FrameLen(|payload|), fault, ok)
      ensures OnlyWriter(old(model), model) && Numbered(old(st), old(model), st, model, 1)
      ensures Spool.SuffixOf(kept, old(Queue()))
      ensures Queue() == if ok then kept + [Frame(old(st.nextBatchSeq), payload)] else kept
      ensures StaysWithin(cfg, old(st), st, FrameLen(|payload|))
      ensures model.spool.log == old(model.spool.log) + if ok then [Frame(old(st.nextBatchSeq), payload)] else []
      ensures NeedsNoEviction(cfg, old(st), FrameLen(|payload|)) ==>
                kept == old(Queue()) && NothingEvicted(old(st), old(model), st, model, FullSize(|payload|))
      ensures Rotated(cfg, old(st), old(model), st, model, FrameLen(|payload|), fault, ok)
    {
      ok, kept := Append(payload, fault);
      BoundsStay(cfg, old(st), st, FrameLen(|payload|));
      if !ok {
        RecoverActiveAfterError();
      }
    }

    // ---- replay -----------------------------------------------------------

    /**
      Deletes the segment under the cursor, which was read to its end, and moves the
      cursor to the front; without such a segment only the cursor moves. Invisible to
      the queue either way.
     */
    method GcFrontConsumed()
      requires Valid() && (CursorLive(st) ==> Spool.Enabled(model.spool, Spool.Collect))
      modifies this
      ensures Valid() && Backlog() == old(Backlog()) && st.active == old(st.active)
      ensures st.nextBatchSeq == old(st.nextBatchSeq) && st.totalBytes <= old(st.totalBytes)
      ensures st.segments != [] ==> st.readSeq == st.segments[0].seqNo
      ensures old(CursorLive(st)) ==>
                model == After(old(model), Spool.Collect) && |st.segments| == |old(st.segments)| - 1
      ensures !old(CursorLive(st)) ==> model == old(model) && st.segments == old(st.segments)
      ensures Shrinks(cfg, old(st), st) && (Quiet(old(st), old(model)) ==> Quiet(st, model))
    {
      ghost var was := st;
      var pos := Position(st.readSeq);
      if pos < |st.segments| {
        LiveCursorIsFront(crc, st, model, pos);
        CollectFront(pos);
      } else {
        if st.segments != [] {
          st := st.(readSeq := st.segments[0].seqNo, readOffset := SEGMENT_HEADER_LEN);
        }
        CursorMoved(crc, was, model, st);
        st := st.(pendingAdvance := None);
      }
    }

    method CollectFront(pos: nat)
      requires Valid() && CursorLive(st) && Spool.Enabled(model.spool, Spool.Collect)
      requires pos < |st.segments| && st.segments[pos].seqNo == st.readSeq
      requires forall i | 0 <= i < pos :: st.segments[i].seqNo != st.readSeq
      modifies this
      ensures Valid() && Backlog() == old(Backlog()) && st.active == old(st.active)
      ensures st.nextBatchSeq == old(st.nextBatchSeq) && st.totalBytes <= old(st.totalBytes)
      ensures st.segments != [] ==> st.readSeq == st.segments[0].seqNo
      ensures model == After(old(model), Spool.Collect) && |st.segments| == |old(st.segments)| - 1
      ensures Shrinks(cfg, old(st), st) && (Quiet(old(st), old(model)) ==> Quiet(st, model))
    {
      ghost var was, before := st, model;
      assert DescribedAt(crc, st.segments, model.spool.segs, 0);
      var meta := st.segments[pos];
      st := st.(segments := st.segments[..pos] + st.segments[pos + 1..],
                totalBytes := st.totalBytes - meta.bytes,
                disk := st.disk - {meta.seqNo});
      if st.segments != [] {
        st := st.(readSeq := st.segments[0].seqNo, readOffset := SEGMENT_HEADER_LEN);
      }
      st := st.(pendingAdvance := None);
      assert st.segments == was.segments[1..];
      FewerShrinks(cfg, was, st);
      FrontGone(crc, was, model, st, Spool.Collect);
      Spool.InvisibleStep(model.spool, Spool.Collect);
      PackedStep(crc, cfg.segmentBytes, model, Spool.Collect);
      model := After(model, Spool.Collect);
      if Quiet(was, before) {
        CollectIsQuiet(crc, was, before, st, model);
      }
    }

    /** The first position of a segment number, or the number of segments. */
    method Position(seqNo: nat) returns (pos: nat)
      ensures pos <= |st.segments|
      ensures pos < |st.segments| ==> st.segments[pos].seqNo == seqNo
      ensures forall i | 0 <= i < pos :: st.segments[i].seqNo != seqNo
    {
      pos := 0;
      while pos < |st.segments| && st.segments[pos].seqNo != seqNo
        invariant pos <= |st.segments|
        invariant forall i | 0 <= i < pos :: st.segments[i].seqNo != seqNo
      {
        pos := pos + 1;
      }
    }

    /**
      Looks at the next undelivered frame. The queue is unchanged whatever the
      outcome; the loop ends because every pass that does not return deletes a
      segment. `errorAt` makes the read of that pass fail.
     */
    method PeekNext(errorAt: Option<nat>, interrupts: nat) returns (r: PeekResult)
      requires Valid()
      modifies this
      ensures Valid() && model.ordered == old(model.ordered) && Backlog() == old(Backlog())
      ensures model.loose == old(model.loose)
      ensures OnlyDrainer(old(model), model) && model.spool.log == old(model.spool.log)
      ensures Numbered(old(st), old(model), st, model, 0) && NothingEvicted(old(st), old(model), st, model, 0)
      ensures errorAt == None ==> !r.IoError?
      ensures r.Found? ==> Queue() != [] && r.frame == Queue()[0] && model.spool.peeked
      ensures r.Nothing? ==> Queue() == []
      ensures r.Nothing? ==> !HasBacklog()
      ensures st.active == old(st.active) && Shrinks(cfg, old(st), st)
      ensures (Quiet(old(st), old(model)) ==> Quiet(st, model))
    {
      var passes := 0;
      NothingLooked(cfg, st, model);
      while true
        invariant Valid() && Looked(cfg, old(st), old(model), st, model)
        decreases |st.segments|
      {
        ghost var c, m := st, model;
        var outcome := PeekPass(errorAt == Some(passes), interrupts);
        LookedTwice(cfg, old(st), old(model), c, m, st, model);
        if outcome.Some? {
          return outcome.value;
        }
        passes := passes + 1;
      }
    }

    /** One pass: an answer, or the front segment is deleted because it was read to its end. */
    method PeekPass(fails: bool, interrupts: nat) returns (r: Option<PeekResult>)
      requires Valid()
      modifies this
      ensures Valid() && Looked(cfg, old(st), old(model), st, model)
      ensures r.None? ==> |st.segments| < |old(st.segments)|
      ensures r == Some(IoError) ==> fails
      ensures r.Some? && r.value.Found? ==> Queue() != [] && r.value.frame == Queue()[0] && model.spool.peeked
      ensures r == Some(Nothing) ==> Queue() == [] && !HasBacklog()
    {
      NothingLooked(cfg, st, model);
      if st.segments == [] {
        NothingStored(crc, st, model);
        return Some(Nothing);
      }
      Resync();
      LookedOn(cfg, old(st), old(model), old(st), old(model), st, model);
      if fails {
        return Some(IoError);
      }
      ghost var c, m := st, model;
      r := FrontPass(interrupts);
      LookedTwice(cfg, old(st), old(model), c, m, st, model);
    }

    /** The pass with the cursor in the front segment. */
    method FrontPass(interrupts: nat) returns (r: Option<PeekResult>)
      requires Valid() && st.segments != [] && st.readSeq == st.segments[0].seqNo
      modifies this
      ensures Valid() && Looked(cfg, old(st), old(model), st, model)
      ensures r.None? ==> |st.segments| < |old(st.segments)|
      ensures r != Some(IoError)
      ensures r.Some? && r.value.Found? ==> Queue() != [] && r.value.frame == Queue()[0] && model.spool.peeked
      ensures r == Some(Nothing) ==> Queue() == [] && !HasBacklog()
    {
      NothingLooked(cfg, st, model);
      ghost var c, m := st, model;
      var found, next := ReadNext(interrupts);
      if found.Parsed? {
        MarkPending(next, found.frame);
        LookedMore(cfg, c, m, c, m, st, model, Spool.Peek);
        return Some(Found(found.frame));
      }
      FrontConsumed(crc, st, model);
      if st.active.Some? && st.active.value.seqNo == st.readSeq {
        return Some(Nothing);
      }
      GcFrontConsumed();
      LookedMore(cfg, c, m, c, m, st, model, Spool.Collect);
      return None;
    }

    /** Reads at the cursor: the next frame of the front segment, or none when it was read to its end. */
    method ReadNext(interrupts: nat) returns (found: Parsed, next: nat)
      requires Valid() && st.segments != [] && st.readSeq == st.segments[0].seqNo
      ensures model.spool.segs != [] && model.spool.read <= |model.spool.segs[0].entries|
      ensures found.Parsed? <==> Spool.Enabled(model.spool, Spool.Peek)
      ensures found.Parsed? ==>
                && found.frame == model.spool.segs[0].entries[model.spool.read].item
                && next == FrameOffset(crc, Items(model.spool.segs[0].entries), model.spool.read + 1)
    {
      ReadAtCursor(crc, st, model);
      found, next := SegmentReader.ReadFrameAt(crc, st.disk[st.readSeq].bytes, st.readOffset, interrupts);
    }

    /** Remembers the end of the frame found at the cursor. */
    method MarkPending(next: nat, ghost frame: Frame)
      requires Valid() && st.segments != [] && st.readSeq == st.segments[0].seqNo
      requires Spool.Enabled(model.spool, Spool.Peek) && frame == model.spool.segs[0].entries[model.spool.read].item
      requires next == FrameOffset(crc, Items(model.spool.segs[0].entries), model.spool.read + 1)
      modifies this
      ensures Valid() && model == After(old(model), Spool.Peek) && Backlog() == old(Backlog())
      ensures Queue() != [] && frame == Queue()[0] && st.active == old(st.active)
      ensures st.segments == old(st.segments) && st.totalBytes == old(st.totalBytes) && st.disk == old(st.disk)
      ensures st.nextBatchSeq == old(st.nextBatchSeq)
    {
      ghost var was := st;
      st := st.(pendingAdvance := Some(next));
      FrameFound(crc, was, model, st);
      Spool.FrontQueue(model.spool);
      PackedStep(crc, cfg.segmentBytes, model, Spool.Peek);
      model := After(model, Spool.Peek);
    }

    /** Moves a cursor whose segment is gone to the front segment. */
    method Resync()
      requires Valid() && st.segments != []
      modifies this
      ensures Valid() && model == old(model) && st.readSeq == st.segments[0].seqNo
      ensures st.segments == old(st.segments) && st.active == old(st.active) && st.totalBytes == old(st.totalBytes)
      ensures st.disk == old(st.disk) && st.nextBatchSeq == old(st.nextBatchSeq)
    {
      var pos := Position(st.readSeq);
      if pos == |st.segments| {
        ghost var was := st;
        st := st.(readSeq := st.segments[0].seqNo, readOffset := SEGMENT_HEADER_LEN);
        CursorResynced(crc, was, model, st);
      } else {
        LiveCursorIsFront(crc, st, model, pos);
      }
    }

    /** Advances past the frame last peeked: the queue loses its head, or nothing if no advance is pending. */
    method CommitPending()
      requires Valid()
      modifies this
      ensures Valid() && model.ordered == old(model.ordered) && model.loose == old(model.loose)
      ensures Spool.Enabled(old(model.spool), Spool.Commit) && model.spool == Spool.Step(old(model.spool), Spool.Commit)
      ensures model.trace == old(model.trace) + if old(model.spool.peeked) then [Spool.Commit] else []
      ensures old(model.spool.peeked) ==> |old(Queue())| > 0 && Queue() == old(Queue())[1..]
      ensures !old(model.spool.peeked) ==> Queue() == old(Queue())
      ensures st.active == old(st.active) && st.segments == old(st.segments) && st.totalBytes == old(st.totalBytes)
      ensures Quiet(old(st), old(model)) ==> Quiet(st, model)
      ensures Numbered(old(st), old(model), st, model, 0)
    {
      if st.pendingAdvance.Some? {
        ghost var was := st;
        st := st.(readOffset := st.pendingAdvance.value, pendingAdvance := None);
        CommitEffect(crc, was, model, st);
        PackedStep(crc, cfg.segmentBytes, model, Spool.Commit);
        model := After(model, Spool.Commit);
      }
    }

    /**
      The in-memory check for undelivered frames. It is sound whenever a segment
      is active; without one it says no whatever older segments hold.
     */
    predicate HasBacklog()
      reads this
    {
      st.active.Some? && Behind(st, st.active.value)
    }

    /** With frames to deliver, the check says so exactly when a segment is active. */
    lemma BacklogCheckSound()
      requires Valid()
      ensures !HasBacklog() && st.active.Some? ==> Queue() == []
      ensures Queue() != [] ==> (HasBacklog() <==> st.active.Some?)
    {
      if st.active.Some? && !HasBacklog() {
        CaughtUp(crc, st, model);
      }
    }
  }

  /** A commit, seen by the model: the queue loses its head, and files are not touched. */
  lemma CommitEffect(crc: Checksum, c: Store, m: Model, c': Store)
    requires Sound(crc, c, m) && m.junk == [] && c.pendingAdvance.Some?
    requires c' == c.(readOffset := c.pendingAdvance.value, pendingAdvance := None)
    ensures m.spool.peeked && Spool.Enabled(m.spool, Spool.Commit) && Sound(crc, c', After(m, Spool.Commit))
    ensures var q, q' := Items(Spool.Backlog(m.spool)), Items(Spool.Backlog(Spool.Step(m.spool, Spool.Commit)));
            |q| > 0 && q' == q[1..]
    ensures Quiet(c, m) ==> Quiet(c', After(m, Spool.Commit))
  {
    AdvanceTaken(crc, c, m, c');
    Spool.CommitQueue(m.spool);
    HeadAndRest(Spool.Backlog(m.spool), Spool.Backlog(Spool.Step(m.spool, Spool.Commit)));
  }

  lemma HeadAndRest(es: seq<Spool.Entry<Frame>>, rest: seq<Spool.Entry<Frame>>)
    requires es != [] && es == [es[0]] + rest
    ensures |Items(es)| > 0 && Items(rest) == Items(es)[1..]
  {
    ItemsConcat([es[0]], rest);
  }

  /** The cursor names the front segment. */
  predicate CursorLive(c: Store) {
    c.segments != [] && c.readSeq == c.segments[0].seqNo
  }

  /** A cursor that names no live segment may move to the front; nothing is pending then. */
  lemma CursorMoved(crc: Checksum, c: Store, m: Model, c': Store)
    requires Sound(crc, c, m) && !CursorLive(c)
    requires c' == if c.segments == [] then c else c.(readSeq := c.segments[0].seqNo, readOffset := SEGMENT_HEADER_LEN)
    ensures Sound(crc, c', m) && c'.pendingAdvance.None?
  {
    if c.segments != [] {
      assert DescribedAt(crc, c.segments, m.spool.segs, 0);
      CursorResynced(crc, c, m, c');
    }
  }

  /** The cursor is before the write position of the active segment. */
  predicate Behind(c: Store, a: ActiveSegment) {
    c.readSeq != a.seqNo || c.readOffset < a.offset
  }

  lemma CaughtUp(crc: Checksum, c: Store, m: Model)
    requires Sound(crc, c, m) && m.junk == [] && c.active.Some? && !Behind(c, c.active.value)
    ensures Spool.Backlog(m.spool) == []
  {
    ActiveIsBack(crc, c, m);
    LiveCursorIsFront(crc, c, m, |c.segments| - 1);
    ReadAtCursor(crc, c, m);
    var es := m.spool.segs[0].entries;
    assert DescribedAt(crc, c.segments, m.spool.segs, 0);
    if |m.spool.segs| > 1 {
      FrontIsLowest(m.spool.segs, |m.spool.segs| - 1);
    }
    FrontConsumed(crc, c, m);
  }

  lemma NothingStored(crc: Checksum, c: Store, m: Model)
    requires Sound(crc, c, m) && c.segments == []
    ensures Spool.Backlog(m.spool) == [] && c.active.None?
  {
  }

  /** From `m` to `m'` only peeks and deletions of consumed segments were taken. */
  ghost predicate OnlyDrainer(m: Model, m': Model) {
    && m.trace <= m'.trace
    && forall i | 0 <= i < |Since(m, m')| :: Since(m, m')[i].Peek? || Since(m, m')[i].Collect?
  }

  /** What looking for the next frame may have done; the queue does not see it. */
  ghost predicate Looked(cfg: Config, c: Store, m: Model, c': Store, m': Model) {
    (&& m'.ordered == m.ordered && m'.loose == m.loose
     && Spool.Backlog(m'.spool) == Spool.Backlog(m.spool) && OnlyDrainer(m, m')
     && m'.spool.log == m.spool.log && c'.nextBatchSeq == c.nextBatchSeq && NothingEvicted(c, m, c', m', 0)
     && c'.active == c.active && Shrinks(cfg, c, c') && (Quiet(c, m) ==> Quiet(c', m'))) == true
  }

  lemma NothingLooked(cfg: Config, c: Store, m: Model)
    ensures Looked(cfg, c, m, c, m)
  {
    DrainerNoStep(m);
  }

  /** The cursor moved. */
  lemma LookedOn(cfg: Config, c: Store, m: Model, c': Store, m': Model, c'': Store, m'': Model)
    requires Looked(cfg, c, m, c', m') && m'' == m' && c''.active == c'.active && c''.disk == c'.disk
    requires c''.nextBatchSeq == c'.nextBatchSeq
    requires c''.segments == c'.segments && c''.totalBytes == c'.totalBytes
    ensures Looked(cfg, c, m, c'', m'')
  {
  }

  lemma LookedTwice(cfg: Config, c: Store, m: Model, c': Store, m': Model, c'': Store, m'': Model)
    requires Looked(cfg, c, m, c', m') && Looked(cfg, c', m', c'', m'')
    ensures Looked(cfg, c, m, c'', m'')
  {
    assert Since(m, m'') == Since(m, m') + Since(m', m'');
  }

  /** One more step of the drainer. */
  lemma LookedMore(cfg: Config, c: Store, m: Model, c': Store, m': Model, c'': Store, m'': Model, op: Op)
    requires Looked(cfg, c, m, c', m') && (op.Peek? || op.Collect?)
    requires Spool.Enabled(m'.spool, op) && m'' == After(m', op)
    requires Spool.Backlog(m''.spool) == Spool.Backlog(m'.spool) && c''.active == c'.active
    requires c''.nextBatchSeq == c'.nextBatchSeq && c''.totalBytes <= c'.totalBytes
    requires Shrinks(cfg, c', c'') && (Quiet(c', m') ==> Quiet(c'', m''))
    ensures Looked(cfg, c, m, c'', m'')
  {
    DrainerStep(m, m', m'', op);
  }

  lemma DrainerStep(m: Model, m': Model, m'': Model, op: Op)
    requires OnlyDrainer(m, m') && (op.Peek? || op.Collect?) && m''.trace == m'.trace + [op]
    ensures OnlyDrainer(m, m'')
  {
    assert Since(m, m'') == Since(m, m') + [op];
  }

  lemma DrainerNoStep(m: Model)
    ensures OnlyDrainer(m, m)
  {
  }

  predicate RoomFor(cfg: Config, offset: nat, frameSize: nat) {
    offset == SEGMENT_HEADER_LEN || offset + frameSize <= cfg.segmentBytes
  }

  /**
    The real bound on the disk: if no segment was larger than `bound`, which is at
    least the segment size and a lone frame of this size, then none is afterwards,
    and the total stays within the cap or that bound, plus a header and the frame.
   */
  ghost predicate CapBound(cfg: Config, before: seq<SegmentMeta>, c: Store, frameSize: nat) {
    forall bound: nat |
      SegmentsWithin(before, bound) && bound >= Max(cfg.segmentBytes, SEGMENT_HEADER_LEN + frameSize) ::
      && SegmentsWithin(c.segments, bound)
      && c.totalBytes <= Max(cfg.maxBytes, bound) + SEGMENT_HEADER_LEN + frameSize
  }

  /** The bound as a state invariant: no segment above it, and the total within the cap or the bound, plus the bound. */
  ghost predicate DiskWithin(cfg: Config, c: Store, bound: nat) {
    SegmentsWithin(c.segments, bound) && c.totalBytes <= Max(cfg.maxBytes, bound) + bound
  }

  /** A bound that admits frames of this size: a full segment, or a header and one frame. */
  predicate Admits(cfg: Config, bound: nat, frameSize: nat) {
    cfg.segmentBytes <= bound && SEGMENT_HEADER_LEN + frameSize <= bound
  }

  ghost predicate StaysWithin(cfg: Config, c: Store, c': Store, frameSize: nat) {
    forall bound: nat | DiskWithin(cfg, c, bound) && Admits(cfg, bound, frameSize) :: DiskWithin(cfg, c', bound)
  }

  ghost predicate Shrinks(cfg: Config, c: Store, c': Store) {
    forall bound: nat | DiskWithin(cfg, c, bound) :: DiskWithin(cfg, c', bound)
  }

  lemma BoundsStay(cfg: Config, c: Store, c': Store, size: nat)
    requires CapBound(cfg, c.segments, c', size) || CapBoundBefore(cfg, c.segments, c')
    ensures StaysWithin(cfg, c, c', size)
  {
  }

  lemma FewerShrinks(cfg: Config, c: Store, c': Store)
    requires c.segments != [] && c'.segments == c.segments[1..] && c'.totalBytes <= c.totalBytes
    ensures Shrinks(cfg, c, c')
  {
    forall bound: nat | DiskWithin(cfg, c, bound) ensures DiskWithin(cfg, c', bound) {
      assert forall i | 0 <= i < |c'.segments| :: c'.segments[i] == c.segments[i + 1];
    }
  }

  /** The same before the frame is written. */
  ghost predicate CapBoundBefore(cfg: Config, before: seq<SegmentMeta>, c: Store) {
    forall bound: nat | SegmentsWithin(before, bound) && bound >= SEGMENT_HEADER_LEN ::
      SegmentsWithin(c.segments, bound) && c.totalBytes <= Max(cfg.maxBytes, bound) + SEGMENT_HEADER_LEN
  }

  /** The store after cap enforcement, with at most a header added. */
  ghost predicate AtMostHeaderAdded(c: Store, c': Store) {
    || (c'.segments == c.segments && c'.totalBytes == c.totalBytes)
    || (exists id :: c'.segments == c.segments + [SegmentMeta(id, SEGMENT_HEADER_LEN, 0)]
                     && c'.totalBytes == c.totalBytes + SEGMENT_HEADER_LEN)
  }

  lemma BoundWithHeader(cfg: Config, before: seq<SegmentMeta>, c: Store, c': Store, frameSize: nat)
    requires c.totalBytes == Total(c.segments) && Spool.SuffixOf(c.segments, before)
    requires c.totalBytes + frameSize <= cfg.maxBytes || |c.segments| <= 1
    requires AtMostHeaderAdded(c, c')
    ensures CapBoundBefore(cfg, before, c')
    ensures c'.totalBytes + frameSize <= cfg.maxBytes + SEGMENT_HEADER_LEN || |c'.segments| <= 2
  {
    forall bound: nat | SegmentsWithin(before, bound)
      ensures SegmentsWithin(c.segments, bound)
      ensures c.totalBytes <= Max(cfg.maxBytes, bound)
    {
      assert forall i | 0 <= i < |c.segments| :: c.segments[i] == before[|before| - |c.segments| + i];
      if |c.segments| == 1 {
        assert c.segments[1..] == [];
      }
    }
  }

  /** The last segment and the total grew by `size` bytes. */
  predicate BackGrew(c: Store, c': Store, size: nat) {
    && c.segments != [] && c.active.Some?
    && c'.active == Some(c.active.value.(offset := c.active.value.offset + size))
    && var n := |c.segments| - 1;
    && |c'.segments| == n + 1
    && (forall i | 0 <= i < n :: c'.segments[i] == c.segments[i])
    && c'.segments[n].bytes == c.segments[n].bytes + size
    && c'.totalBytes == c.totalBytes + size
  }

  lemma BoundWithFrame(cfg: Config, before: seq<SegmentMeta>, c: Store, c': Store, size: nat)
    requires CapBoundBefore(cfg, before, c) && BackGrew(c, c', size)
    requires RoomFor(cfg, c.segments[|c.segments| - 1].bytes, size)
    ensures CapBound(cfg, before, c', size)
  {
    forall bound: nat | SegmentsWithin(before, bound) && bound >= Max(cfg.segmentBytes, SEGMENT_HEADER_LEN + size)
      ensures SegmentsWithin(c'.segments, bound)
    {
      assert SegmentsWithin(c.segments, bound);
    }
  }

  lemma SuffixItems(xs: seq<Spool.Entry<Frame>>, ys: seq<Spool.Entry<Frame>>)
    requires Spool.SuffixOf(xs, ys)
    ensures Spool.SuffixOf(Items(xs), Items(ys))
  {
  }

  lemma WriterChain(m: Model, m': Model, m'': Model)
    requires OnlyWriter(m, m') && OnlyWriter(m', m'')
    ensures OnlyWriter(m, m'')
  {
    assert Since(m, m'') == Since(m, m') + Since(m', m'');
  }

  /** The recorded steps between two models of one store are a run from one state to the other. */
  lemma StepsBetween(crc: Checksum, c: Store, m: Model, c': Store, m': Model)
    requires Sound(crc, c, m) && Sound(crc, c', m') && m.trace <= m'.trace
    ensures Spool.Reaches(m.spool, Since(m, m'), m'.spool)
  {
    assert m'.trace == m.trace + Since(m, m');
    Spool.RunSplit(Spool.Initial(), m.trace, Since(m, m'));
  }

  /** How many entries are not on the medium, and that none was torn. */
  ghost predicate Exposes(m: Model, m': Model, n: nat) {
    (|Spool.Unsynced(m'.spool)| <= |Spool.Unsynced(m.spool)| + n && m'.spool.torn == m.spool.torn) == true
  }

  /** The writer leaves no more off the medium than it wrote. */
  lemma WriterExposes(crc: Checksum, c: Store, m: Model, c': Store, m': Model, n: nat)
    requires Sound(crc, c, m) && Sound(crc, c', m') && OnlyWriter(m, m') && |m'.spool.log| <= |m.spool.log| + n
    ensures Exposes(m, m', n)
  {
    StepsBetween(crc, c, m, c', m');
    Spool.UnsyncedRun(m.spool, Since(m, m'));
  }

  lemma ExposesTwice(m: Model, m': Model, m'': Model, n: nat, k: nat)
    requires Exposes(m, m', n) && Exposes(m', m'', k)
    ensures Exposes(m, m'', n + k)
  {
  }

  /** With everything on the medium nothing is exposed. */
  lemma QuietExposes(m: Model, m': Model, m'': Model, n: nat, c'': Store)
    requires Exposes(m, m', n) && Quiet(c'', m'') && m''.spool.torn == m'.spool.torn
    ensures Exposes(m, m'', 0)
  {
  }
}
