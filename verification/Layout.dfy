/**
  How the segment files on disk represent the segments of the spool: the file of
  a segment is its header followed by the encoding of its entries, and the bytes
  known to be on the medium cover its synced entries.
 */
module Layout {
  import opened Codec
  import Spool

  /** A file: its content, and how much of it has reached the medium. */
  datatype File = File(bytes: seq<Byte>, synced: nat)
  type Disk = map<nat, File>

  datatype SegmentMeta = SegmentMeta(seqNo: nat, bytes: nat, frames: nat)

  function Items(es: seq<Spool.Entry<Frame>>): (fs: seq<Frame>)
    ensures |fs| == |es|
    ensures forall i | 0 <= i < |es| :: fs[i] == es[i].item
  {
    seq(|es|, i requires 0 <= i < |es| => es[i].item)
  }

  lemma ItemsConcat(a: seq<Spool.Entry<Frame>>, b: seq<Spool.Entry<Frame>>)
    ensures Items(a + b) == Items(a) + Items(b)
  {
  }

  function Total(metas: seq<SegmentMeta>): nat {
    if metas == [] then 0 else metas[0].bytes + Total(metas[1..])
  }

  lemma TotalAppend(metas: seq<SegmentMeta>, m: SegmentMeta)
    ensures Total(metas + [m]) == Total(metas) + m.bytes
  {
    if metas == [] {
      assert metas + [m] == [m];
    } else {
      assert (metas + [m])[1..] == metas[1..] + [m];
      TotalAppend(metas[1..], m);
    }
  }

  /** `file` holds a header the reader accepts, the entries of `seg`, then `junk`. */
  ghost predicate FileHolds(crc: Checksum, file: File, seg: Spool.Segment<Frame>, junk: seq<Byte>) {
    && ValidHeader(file.bytes)
    && file.bytes[SEGMENT_HEADER_LEN..] == EncodeFrames(crc, Items(seg.entries)) + junk
    && AllReadable(Items(seg.entries))
    && file.synced <= |file.bytes|
    && seg.synced <= |seg.entries|
    && (seg.synced > 0 ==> FrameOffset(crc, Items(seg.entries), seg.synced) <= file.synced)
  }

  ghost predicate Describes(crc: Checksum, meta: SegmentMeta, seg: Spool.Segment<Frame>) {
    && meta.seqNo == seg.id
    && meta.bytes == |SegmentBytes(crc, Items(seg.entries))|
    && meta.frames == |seg.entries|
  }

  /** A segment that is not being written is entirely on the medium. */
  ghost predicate Settled(file: File) {
    file.synced == |file.bytes|
  }

  /** Segment `i` is stored; `junk` follows the last entry of the segment open for writes. */
  ghost predicate Stored(crc: Checksum, disk: Disk, segs: seq<Spool.Segment<Frame>>, open: bool, junk: seq<Byte>,
                         i: nat)
    requires i < |segs|
  {
    && segs[i].id in disk
    && FileHolds(crc, disk[segs[i].id], segs[i], if open && i == |segs| - 1 then junk else [])
    && (!(open && i == |segs| - 1) ==> Settled(disk[segs[i].id]))
  }

  ghost predicate Represents(crc: Checksum, disk: Disk, segs: seq<Spool.Segment<Frame>>, open: bool, junk: seq<Byte>) {
    forall i | 0 <= i < |segs| :: Stored(crc, disk, segs, open, junk, i)
  }

  ghost predicate DescribedAt(crc: Checksum, metas: seq<SegmentMeta>, segs: seq<Spool.Segment<Frame>>, i: nat)
    requires i < |segs| == |metas|
  {
    Describes(crc, metas[i], segs[i])
  }

  ghost predicate DescribesAll(crc: Checksum, metas: seq<SegmentMeta>, segs: seq<Spool.Segment<Frame>>) {
    && |metas| == |segs|
    && forall i | 0 <= i < |segs| :: DescribedAt(crc, metas, segs, i)
  }

  /** Deleting the front segment's file leaves the others as they are. */
  lemma DropFront(crc: Checksum, disk: Disk, segs: seq<Spool.Segment<Frame>>, open: bool, junk: seq<Byte>)
    requires segs != [] && Represents(crc, disk, segs, open, junk) && Spool.IdsAscend(segs)
    ensures Represents(crc, disk - {segs[0].id}, segs[1..], open, junk)
  {
    forall i | 0 <= i < |segs[1..]| ensures Stored(crc, disk - {segs[0].id}, segs[1..], open, junk, i) {
      assert Stored(crc, disk, segs, open, junk, i + 1);
      assert segs[1..][i] == segs[i + 1] && Spool.IdBelow(segs, 0, i + 1);
    }
  }

  lemma DropFrontMeta(crc: Checksum, metas: seq<SegmentMeta>, segs: seq<Spool.Segment<Frame>>)
    requires segs != [] && DescribesAll(crc, metas, segs)
    ensures DescribesAll(crc, metas[1..], segs[1..])
  {
    forall i | 0 <= i < |segs[1..]| ensures DescribedAt(crc, metas[1..], segs[1..], i) {
      assert DescribedAt(crc, metas, segs, i + 1);
    }
  }

  /** Changing the file of the back segment leaves the others as they are. */
  lemma ReplaceBack(crc: Checksum, disk: Disk, segs: seq<Spool.Segment<Frame>>, open: bool, junk: seq<Byte>,
                    b: Spool.Segment<Frame>, file: File, open': bool, junk': seq<Byte>)
    requires segs != [] && Represents(crc, disk, segs, open, junk) && Spool.IdsAscend(segs)
    requires b.id == segs[|segs| - 1].id
    requires FileHolds(crc, file, b, if open' then junk' else []) && (!open' ==> Settled(file))
    ensures Represents(crc, disk[b.id := file], segs[..|segs| - 1] + [b], open', junk')
  {
    var segs', disk' := segs[..|segs| - 1] + [b], disk[b.id := file];
    forall i | 0 <= i < |segs'| ensures Stored(crc, disk', segs', open', junk', i) {
      if i < |segs| - 1 {
        assert Stored(crc, disk, segs, open, junk, i);
        assert segs'[i] == segs[i] && Spool.IdBelow(segs, i, |segs| - 1);
      } else {
        assert segs'[i] == b;
      }
    }
  }

  lemma ReplaceBackMeta(crc: Checksum, metas: seq<SegmentMeta>, segs: seq<Spool.Segment<Frame>>,
                        m: SegmentMeta, b: Spool.Segment<Frame>)
    requires segs != [] && DescribesAll(crc, metas, segs) && Describes(crc, m, b)
    ensures DescribesAll(crc, metas[..|metas| - 1] + [m], segs[..|segs| - 1] + [b])
  {
    var metas', segs' := metas[..|metas| - 1] + [m], segs[..|segs| - 1] + [b];
    forall i | 0 <= i < |segs'| ensures DescribedAt(crc, metas', segs', i) {
      if i < |segs| - 1 {
        assert DescribedAt(crc, metas, segs, i);
      }
    }
  }

  /** A new segment whose number is above all others leaves the settled ones as they are. */
  lemma PushBack(crc: Checksum, disk: Disk, segs: seq<Spool.Segment<Frame>>, b: Spool.Segment<Frame>, file: File)
    requires Represents(crc, disk, segs, false, [])
    requires forall i | 0 <= i < |segs| :: segs[i].id < b.id
    requires FileHolds(crc, file, b, [])
    ensures Represents(crc, disk[b.id := file], segs + [b], true, [])
  {
    var segs', disk' := segs + [b], disk[b.id := file];
    forall i | 0 <= i < |segs'| ensures Stored(crc, disk', segs', true, [], i) {
      if i < |segs| {
        assert Stored(crc, disk, segs, false, [], i);
        assert segs'[i] == segs[i];
      } else {
        assert segs'[i] == b;
      }
    }
  }

  lemma PushBackMeta(crc: Checksum, metas: seq<SegmentMeta>, segs: seq<Spool.Segment<Frame>>,
                     m: SegmentMeta, b: Spool.Segment<Frame>)
    requires DescribesAll(crc, metas, segs) && Describes(crc, m, b)
    ensures DescribesAll(crc, metas + [m], segs + [b])
  {
    forall i | 0 <= i < |segs + [b]| ensures DescribedAt(crc, metas + [m], segs + [b], i) {
      if i < |segs| {
        assert DescribedAt(crc, metas, segs, i);
      }
    }
  }

  /** Adding a file that belongs to no segment changes nothing. */
  lemma ForeignFile(crc: Checksum, disk: Disk, segs: seq<Spool.Segment<Frame>>, open: bool, junk: seq<Byte>, id: nat,
                    file: File)
    requires Represents(crc, disk, segs, open, junk)
    requires forall i | 0 <= i < |segs| :: segs[i].id != id
    ensures Represents(crc, disk[id := file], segs, open, junk)
  {
    var disk' := disk[id := file];
    forall i | 0 <= i < |segs| ensures Stored(crc, disk', segs, open, junk, i) {
      assert Stored(crc, disk, segs, open, junk, i);
    }
  }

  /** The effect of `fdatasync` on the file of a segment. */
  lemma SyncFile(crc: Checksum, file: File, seg: Spool.Segment<Frame>, junk: seq<Byte>)
    requires FileHolds(crc, file, seg, junk)
    ensures FileHolds(crc, file.(synced := |file.bytes|), seg.(synced := |seg.entries|), junk)
  {
    ReadAtEnd(crc, Items(seg.entries));
    assert |file.bytes| == |SegmentBytes(crc, Items(seg.entries))| + |junk|;
  }

  lemma {:induction false} EncodeSnoc(crc: Checksum, fs: seq<Frame>, f: Frame)
    ensures SegmentBytes(crc, fs + [f]) == SegmentBytes(crc, fs) + EncodeFrame(crc, f)
    ensures |SegmentBytes(crc, fs + [f])| == |SegmentBytes(crc, fs)| + FrameLen(|f.payload|)
  {
    EncodeConcat(crc, fs, [f]);
    EncodeSingle(crc, f);
    ConcatAssociates(SegmentHeader(), EncodeFrames(crc, fs), EncodeFrame(crc, f));
  }

  lemma OffsetUnaffected(crc: Checksum, fs: seq<Frame>, more: seq<Frame>, k: nat)
    requires k <= |fs|
    ensures FrameOffset(crc, fs + more, k) == FrameOffset(crc, fs, k)
  {
    assert (fs + more)[..k] == fs[..k];
  }

  lemma {:induction false} EncodeSnocFrames(crc: Checksum, fs: seq<Frame>, f: Frame)
    ensures EncodeFrames(crc, fs + [f]) == EncodeFrames(crc, fs) + EncodeFrame(crc, f)
  {
    EncodeConcat(crc, fs, [f]);
    EncodeSingle(crc, f);
  }

  /** Bytes added behind a header and a body. */
  lemma BytesAdded(bytes: seq<Byte>, body: seq<Byte>, more: seq<Byte>)
    requires ValidHeader(bytes) && bytes[SEGMENT_HEADER_LEN..] == body
    ensures ValidHeader(bytes + more) && (bytes + more)[SEGMENT_HEADER_LEN..] == body + more
  {
    assert (bytes + more)[..SEGMENT_HEADER_LEN] == bytes[..SEGMENT_HEADER_LEN];
    SameHeader(bytes, bytes + more);
  }

  /** Appending an encoded frame to the file of a segment appends the entry to the segment. */
  lemma WriteFile(crc: Checksum, file: File, seg: Spool.Segment<Frame>, e: Spool.Entry<Frame>)
    requires FileHolds(crc, file, seg, []) && Readable(e.item)
    ensures FileHolds(crc, file.(bytes := file.bytes + EncodeFrame(crc, e.item)),
                      seg.(entries := seg.entries + [e]), [])
  {
    var fs := Items(seg.entries);
    ItemsConcat(seg.entries, [e]);
    assert Items([e]) == [e.item];
    EncodeSnocFrames(crc, fs, e.item);
    BytesAdded(file.bytes, EncodeFrames(crc, fs), EncodeFrame(crc, e.item));
    OffsetUnaffected(crc, fs, [e.item], seg.synced);
    assert AllReadable(fs + [e.item]);
  }

  lemma OffsetZero(crc: Checksum, fs: seq<Frame>)
    ensures FrameOffset(crc, fs, 0) == SEGMENT_HEADER_LEN
  {
    assert fs[..0] == [];
  }

  lemma {:induction false} OffsetWithin(crc: Checksum, fs: seq<Frame>, k: nat)
    requires k <= |fs|
    ensures FrameOffset(crc, fs, k) <= |SegmentBytes(crc, fs)|
  {
    assert fs == fs[..k] + fs[k..];
    EncodeConcat(crc, fs[..k], fs[k..]);
  }

  /** A partial write behind the entries. */
  lemma TearFile(crc: Checksum, file: File, seg: Spool.Segment<Frame>, torn: seq<Byte>)
    requires FileHolds(crc, file, seg, [])
    ensures FileHolds(crc, file.(bytes := file.bytes + torn), seg, torn)
  {
    BytesAdded(file.bytes, EncodeFrames(crc, Items(seg.entries)), torn);
  }

  function Truncate(file: File, len: nat): File
    requires len <= |file.bytes|
  {
    File(file.bytes[..len], Spool.Min(file.synced, len))
  }

  /** Cutting a file to the length of its segment removes what follows the entries. */
  lemma CutFile(crc: Checksum, file: File, seg: Spool.Segment<Frame>, junk: seq<Byte>)
    requires FileHolds(crc, file, seg, junk)
    ensures |SegmentBytes(crc, Items(seg.entries))| <= |file.bytes|
    ensures FileHolds(crc, Truncate(file, |SegmentBytes(crc, Items(seg.entries))|), seg, [])
  {
    var body := EncodeFrames(crc, Items(seg.entries));
    var cut := file.bytes[..SEGMENT_HEADER_LEN + |body|];
    assert |file.bytes| == SEGMENT_HEADER_LEN + |body + junk|;
    assert cut[..SEGMENT_HEADER_LEN] == file.bytes[..SEGMENT_HEADER_LEN];
    SameHeader(file.bytes, cut);
    assert cut[SEGMENT_HEADER_LEN..] == (body + junk)[..|body|] == body + [];
    OffsetWithin(crc, Items(seg.entries), seg.synced);
  }

  /** Reading the file of a segment at the offset of its frame `k`, or at its end. */
  lemma ReadHeld(crc: Checksum, file: File, seg: Spool.Segment<Frame>, k: nat)
    requires FileHolds(crc, file, seg, []) && k <= |seg.entries|
    ensures var fs, at := Items(seg.entries), FrameOffset(crc, Items(seg.entries), k);
            && at <= |file.bytes|
            && (k < |fs| ==> && ParseFrame(crc, file.bytes[at..]) == Parsed(fs[k])
                             && FrameOffset(crc, fs, k + 1) == at + FrameLen(|fs[k].payload|))
            && (k == |fs| ==> ParseFrame(crc, file.bytes[at..]) == End && at == |SegmentBytes(crc, fs)|)
  {
    var fs, at := Items(seg.entries), FrameOffset(crc, Items(seg.entries), k);
    var body := EncodeFrames(crc, fs);
    OffsetWithin(crc, fs, k);
    assert |file.bytes| == SEGMENT_HEADER_LEN + |body|;
    assert file.bytes[at..] == file.bytes[SEGMENT_HEADER_LEN..][at - SEGMENT_HEADER_LEN..];
    assert file.bytes[at..] == body[at - SEGMENT_HEADER_LEN..];
    if k < |fs| {
      ReadAtIndex(crc, fs, k);
    } else {
      ReadAtEnd(crc, fs);
    }
  }
}
