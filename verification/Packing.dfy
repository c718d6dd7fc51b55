/**
  How well segments are filled: a segment that was retired by a successful rotation
  could not have taken the frame that followed it. The segments exempt from this are
  the model's `loose` ones: retired by an append that then failed, or by an earlier
  process.

  A predicate compared with `true` is handled by the verifier as one fact, not as its
  conjuncts.
 */
module Packing {
  import opened Codec
  import opened Layout
  import opened StoreState
  import Spool

  type Segment = Spool.Segment<Frame>

  /** Segment `i` holds frames, and the first frame of the next one did not fit behind them. */
  ghost predicate Tight(crc: Checksum, segmentBytes: nat, segs: seq<Segment>, i: nat)
    requires i + 1 < |segs|
  {
    && segs[i].entries != [] && segs[i + 1].entries != []
    && |SegmentBytes(crc, Items(segs[i].entries))| + FrameLen(|segs[i + 1].entries[0].item.payload|) > segmentBytes
  }

  ghost predicate PackedAt(crc: Checksum, segmentBytes: nat, segs: seq<Segment>, loose: set<nat>, i: nat)
    requires i + 1 < |segs|
  {
    segs[i].id in loose || Tight(crc, segmentBytes, segs, i)
  }

  /** Every segment but the back one is tight or exempt; without an active segment the back one is exempt too. */
  ghost predicate AllPacked(crc: Checksum, segmentBytes: nat, segs: seq<Segment>, open: bool, loose: set<nat>) {
    && (!open && segs != [] ==> segs[|segs| - 1].id in loose)
    && forall i | 0 <= i < |segs| - 1 :: PackedAt(crc, segmentBytes, segs, loose, i)
  }

  ghost predicate Packed(crc: Checksum, segmentBytes: nat, m: Model) {
    AllPacked(crc, segmentBytes, m.spool.segs, m.spool.open, m.loose) == true
  }

  /** More segments may be exempt. */
  lemma Loosened(crc: Checksum, segmentBytes: nat, m: Model, m': Model)
    requires Packed(crc, segmentBytes, m) && m.loose <= m'.loose
    requires m'.spool.segs == m.spool.segs && m'.spool.open == m.spool.open
    ensures Packed(crc, segmentBytes, m')
  {
    var segs := m.spool.segs;
    forall i | 0 <= i < |segs| - 1 ensures PackedAt(crc, segmentBytes, segs, m'.loose, i) {
      assert PackedAt(crc, segmentBytes, segs, m.loose, i);
    }
  }

  lemma FrontDropped(crc: Checksum, segmentBytes: nat, segs: seq<Segment>, open: bool, loose: set<nat>)
    requires segs != [] && AllPacked(crc, segmentBytes, segs, open, loose)
    ensures AllPacked(crc, segmentBytes, segs[1..], open, loose)
  {
    forall i | 0 <= i < |segs[1..]| - 1 ensures PackedAt(crc, segmentBytes, segs[1..], loose, i) {
      assert PackedAt(crc, segmentBytes, segs, loose, i + 1);
    }
  }

  /** Segments with the same names and entries. */
  ghost predicate SameEntries(segs: seq<Segment>, segs': seq<Segment>) {
    |segs'| == |segs| && forall i | 0 <= i < |segs| :: segs'[i].id == segs[i].id && segs'[i].entries == segs[i].entries
  }

  lemma SamePacked(crc: Checksum, segmentBytes: nat, segs: seq<Segment>, segs': seq<Segment>, open: bool, open': bool,
                   loose: set<nat>)
    requires AllPacked(crc, segmentBytes, segs, open, loose) && SameEntries(segs, segs')
    requires !open' && segs != [] ==> segs[|segs| - 1].id in loose
    ensures AllPacked(crc, segmentBytes, segs', open', loose)
  {
    forall i | 0 <= i < |segs'| - 1 ensures PackedAt(crc, segmentBytes, segs', loose, i) {
      assert PackedAt(crc, segmentBytes, segs, loose, i);
    }
  }

  lemma BackPushed(crc: Checksum, segmentBytes: nat, segs: seq<Segment>, open: bool, loose: set<nat>, b: Segment)
    requires AllPacked(crc, segmentBytes, segs, open, loose)
    requires segs != [] ==> segs[|segs| - 1].id in loose
    ensures AllPacked(crc, segmentBytes, segs + [b], true, loose)
  {
    forall i | 0 <= i < |segs| ensures PackedAt(crc, segmentBytes, segs + [b], loose, i) {
      if i < |segs| - 1 {
        assert PackedAt(crc, segmentBytes, segs, loose, i);
      }
    }
  }

  lemma BackExtended(crc: Checksum, segmentBytes: nat, segs: seq<Segment>, open: bool, loose: set<nat>, b: Segment)
    requires segs != [] && AllPacked(crc, segmentBytes, segs, open, loose) && b.id == segs[|segs| - 1].id
    requires segs[|segs| - 1].entries <= b.entries
    ensures AllPacked(crc, segmentBytes, segs[..|segs| - 1] + [b], open, loose)
  {
    var segs' := segs[..|segs| - 1] + [b];
    forall i | 0 <= i < |segs'| - 1 ensures PackedAt(crc, segmentBytes, segs', loose, i) {
      assert PackedAt(crc, segmentBytes, segs, loose, i);
    }
  }

  /** The steps of the store keep segments packed; one that retires the back segment finds it exempt. */
  lemma PackedStep(crc: Checksum, segmentBytes: nat, m: Model, op: Op)
    requires Packed(crc, segmentBytes, m) && Spool.Enabled(m.spool, op) && !op.Crash?
    requires (op.Rotate? || op.Close?) && m.spool.segs != [] ==> Spool.Back(m.spool).id in m.loose
    ensures Packed(crc, segmentBytes, After(m, op))
  {
    var s := m.spool;
    match op
    case Evict => FrontDropped(crc, segmentBytes, s.segs, s.open, m.loose);
    case Collect => FrontDropped(crc, segmentBytes, s.segs, s.open, m.loose);
    case Rotate(id) =>
      SamePacked(crc, segmentBytes, s.segs, Spool.SyncedSegs(s), s.open, s.open, m.loose);
      BackPushed(crc, segmentBytes, Spool.SyncedSegs(s), s.open, m.loose, Spool.Segment(id, [], 0));
    case Close => SamePacked(crc, segmentBytes, s.segs, Spool.SyncedSegs(s), s.open, false, m.loose);
    case Sync => SamePacked(crc, segmentBytes, s.segs, Spool.SyncedSegs(s), s.open, s.open, m.loose);
    case Write(f) =>
      var b := Spool.Back(s);
      BackExtended(crc, segmentBytes, s.segs, s.open, m.loose,
                   b.(entries := b.entries + [Spool.Entry(|s.log|, f)]));
    case _ =>
  }

  /** The numbers of all segments but the back one. */
  ghost function OlderIds(segs: seq<Segment>): set<nat> {
    set i | 0 <= i < |segs| - 1 :: segs[i].id
  }

  /** A store that recovery has just built. */
  lemma OlderExempt(crc: Checksum, segmentBytes: nat, m: Model)
    requires m.loose == OlderIds(m.spool.segs) && (m.spool.segs != [] ==> m.spool.open)
    ensures Packed(crc, segmentBytes, m)
  {
    var segs := m.spool.segs;
    forall i | 0 <= i < |segs| - 1 ensures PackedAt(crc, segmentBytes, segs, m.loose, i) {
      assert segs[i].id in m.loose;
    }
  }

  /** The segment before the back one is not exempt any more once the frame it could not take is written. */
  lemma Tightened(crc: Checksum, segmentBytes: nat, c: Store, m: Model, loose: set<nat>, id: nat, f: Frame)
    requires Sound(crc, c, m) && Packed(crc, segmentBytes, m) && m.loose <= loose + {id}
    requires c.active.Some? && |c.segments| >= 2 && c.segments[|c.segments| - 2].seqNo == id
    requires c.segments[|c.segments| - 2].bytes > SEGMENT_HEADER_LEN
    requires c.segments[|c.segments| - 2].bytes + FrameLen(|f.payload|) > segmentBytes
    requires m.spool.segs != [] && Spool.Back(m.spool).entries != [] && Spool.Back(m.spool).entries[0].item == f
    ensures Packed(crc, segmentBytes, m.(loose := loose))
  {
    var segs, n := m.spool.segs, |m.spool.segs| - 2;
    assert DescribedAt(crc, c.segments, segs, n);
    forall i | 0 <= i < |segs| - 1 ensures PackedAt(crc, segmentBytes, segs, loose, i) {
      assert PackedAt(crc, segmentBytes, segs, m.loose, i);
      if i < n {
        assert Spool.IdBelow(segs, i, n);
      }
    }
    ActiveIsBack(crc, c, m);
  }

  /** In the terms of the store: its segments with nothing exempt. */
  lemma TightMeans(crc: Checksum, segmentBytes: nat, c: Store, m: Model, i: nat)
    requires Sound(crc, c, m) && Packed(crc, segmentBytes, m) && i + 1 < |c.segments| && c.segments[i].seqNo !in m.loose
    ensures |m.spool.segs| == |c.segments| && m.spool.segs[i + 1].entries != []
    ensures c.segments[i].bytes + FrameLen(|m.spool.segs[i + 1].entries[0].item.payload|) > segmentBytes
    ensures c.segments[i].frames >= 1
  {
    assert DescribedAt(crc, c.segments, m.spool.segs, i);
    assert PackedAt(crc, segmentBytes, m.spool.segs, m.loose, i);
  }

  /** The first frame of segment `i + 1` would not have fit into segment `i`. */
  ghost predicate FilledAt(segmentBytes: nat, c: Store, segs: seq<Segment>, i: nat)
    requires i + 1 < |c.segments| == |segs|
  {
    segs[i + 1].entries != [] && c.segments[i].bytes + FrameLen(|segs[i + 1].entries[0].item.payload|) > segmentBytes
  }

  /** No segment but the back one could have taken the frame that followed it. */
  ghost predicate WellPacked(segmentBytes: nat, c: Store, m: Model) {
    && |m.spool.segs| == |c.segments|
    && forall i | 0 <= i < |c.segments| - 1 :: FilledAt(segmentBytes, c, m.spool.segs, i)
  }

  lemma NothingExempt(crc: Checksum, segmentBytes: nat, c: Store, m: Model)
    requires Sound(crc, c, m) && Packed(crc, segmentBytes, m) && m.loose == {}
    ensures WellPacked(segmentBytes, c, m)
  {
    forall i | 0 <= i < |c.segments| - 1 ensures FilledAt(segmentBytes, c, m.spool.segs, i) {
      TightMeans(crc, segmentBytes, c, m, i);
    }
  }
}
