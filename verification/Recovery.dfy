/**
  Recovery at startup: every segment file is checked and walked, torn or corrupt
  tails are cut, files without a valid header are deleted, and the cursors are
  rebuilt from what survives. All of this is about arbitrary files; what recovery
  makes of the files a crash leaves behind is in `CrashRecovery`.

  A predicate compared with `true` is handled by the verifier as one fact, not as its
  conjuncts.
 */
module Recovery {
  import opened Codec
  import opened Options
  import opened Layout
  import opened StoreState
  import SegmentReader
  import Spool

  // ---- one file -----------------------------------------------------------

  /** The frames recovery keeps of a file with a valid header. */
  function KeptFrames(crc: Checksum, bytes: seq<Byte>): seq<Frame>
    requires |bytes| >= SEGMENT_HEADER_LEN
  {
    Scan(crc, bytes[SEGMENT_HEADER_LEN..])
  }

  /** The length recovery cuts the file to. */
  function KeptLength(crc: Checksum, bytes: seq<Byte>): (n: nat)
    requires |bytes| >= SEGMENT_HEADER_LEN
    ensures SEGMENT_HEADER_LEN <= n <= |bytes|
    ensures bytes[SEGMENT_HEADER_LEN..n] == EncodeFrames(crc, KeptFrames(crc, bytes))
  {
    ScanSound(crc, bytes[SEGMENT_HEADER_LEN..]);
    SEGMENT_HEADER_LEN + |EncodeFrames(crc, KeptFrames(crc, bytes))|
  }

  function NextBatch(next: U64, f: Frame): U64 {
    var n: U64 := (f.batchSeq + 1) % 0x1_0000_0000_0000_0000;
    if n >= next then n else next
  }

  function NextBatchAfter(next: U64, fs: seq<Frame>): U64
    decreases |fs|
  {
    if fs == [] then next else NextBatchAfter(NextBatch(next, fs[0]), fs[1..])
  }

  lemma WalkStep(crc: Checksum, file: seq<Byte>, offset: nat, f: Frame)
    requires offset <= |file| && SegmentReader.ParseAt(crc, file, offset) == Parsed(f)
    ensures var after := offset + FrameLen(|f.payload|);
            after <= |file| && Scan(crc, file[offset..]) == [f] + Scan(crc, file[after..])
  {
    ParseSound(crc, file[offset..]);
    assert file[offset..][FrameLen(|f.payload|)..] == file[offset + FrameLen(|f.payload|)..];
  }

  lemma WalkedLength(crc: Checksum, walked: seq<Frame>, f: Frame)
    ensures |EncodeFrames(crc, walked + [f])| == |EncodeFrames(crc, walked)| + FrameLen(|f.payload|)
  {
    EncodeConcat(crc, walked, [f]);
    EncodeSingle(crc, f);
  }

  /** The walk has found `walked` and stands at `offset`. */
  ghost predicate Walking(crc: Checksum, file: seq<Byte>, next: U64, walked: seq<Frame>, offset: nat,
                          nextBatchSeq: U64) {
    WalkedTo(crc, file, next, walked, offset, nextBatchSeq) == true
  }

  ghost predicate WalkedTo(crc: Checksum, file: seq<Byte>, next: U64, walked: seq<Frame>, offset: nat,
                           nextBatchSeq: U64) {
    && SEGMENT_HEADER_LEN <= offset <= |file|
    && offset == SEGMENT_HEADER_LEN + |EncodeFrames(crc, walked)|
    && KeptFrames(crc, file) == walked + Scan(crc, file[offset..])
    && nextBatchSeq == NextBatchAfter(next, walked)
  }

  lemma {:induction false} NextBatchSnoc(next: U64, fs: seq<Frame>, f: Frame)
    ensures NextBatchAfter(next, fs + [f]) == NextBatch(NextBatchAfter(next, fs), f)
    decreases |fs|
  {
    if fs == [] {
      assert fs + [f] == [f] && [f][1..] == [];
    } else {
      NextBatchSnoc(NextBatch(next, fs[0]), fs[1..], f);
      assert (fs + [f])[1..] == fs[1..] + [f];
    }
  }

  lemma Regroup<A>(all: seq<A>, front: seq<A>, x: A, rest: seq<A>, rest': seq<A>)
    requires all == front + rest && rest == [x] + rest'
    ensures all == front + [x] + rest'
  {
  }

  lemma WalkAdvances(crc: Checksum, file: seq<Byte>, next: U64, walked: seq<Frame>, offset: nat, nb: U64, f: Frame)
    requires Walking(crc, file, next, walked, offset, nb) && SegmentReader.ParseAt(crc, file, offset) == Parsed(f)
    ensures Walking(crc, file, next, walked + [f], offset + FrameLen(|f.payload|), NextBatch(nb, f))
  {
    WalkStep(crc, file, offset, f);
    WalkedLength(crc, walked, f);
    NextBatchSnoc(next, walked, f);
    var after := offset + FrameLen(|f.payload|);
    Regroup(KeptFrames(crc, file), walked, f, Scan(crc, file[offset..]), Scan(crc, file[after..]));
  }

  lemma WalkStarts(crc: Checksum, file: seq<Byte>, next: U64)
    requires |file| >= SEGMENT_HEADER_LEN
    ensures Walking(crc, file, next, [], SEGMENT_HEADER_LEN, next)
  {
  }

  lemma WalkEnds(crc: Checksum, file: seq<Byte>, next: U64, walked: seq<Frame>, offset: nat, nb: U64)
    requires Walking(crc, file, next, walked, offset, nb) && !SegmentReader.ParseAt(crc, file, offset).Parsed?
    ensures walked == KeptFrames(crc, file) && offset == KeptLength(crc, file)
    ensures nb == NextBatchAfter(next, KeptFrames(crc, file))
  {
    assert Scan(crc, file[offset..]) == [];
  }

  /** The frame walk of recovery, as the loop that reads frame after frame. */
  method WalkFrames(crc: Checksum, file: seq<Byte>, next: U64, interrupts: nat)
    returns (offset: nat, frames: nat, nextBatchSeq: U64)
    requires |file| >= SEGMENT_HEADER_LEN
    ensures offset == KeptLength(crc, file) && frames == |KeptFrames(crc, file)|
    ensures nextBatchSeq == NextBatchAfter(next, KeptFrames(crc, file))
  {
    offset, frames, nextBatchSeq := SEGMENT_HEADER_LEN, 0, next;
    ghost var walked: seq<Frame> := [];
    WalkStarts(crc, file, next);
    while true
      invariant Walking(crc, file, next, walked, offset, nextBatchSeq) && frames == |walked|
      decreases |file| - offset
    {
      var found, after := ReadWalked(crc, file, next, walked, offset, nextBatchSeq, interrupts);
      if !found.Parsed? {
        WalkEnds(crc, file, next, walked, offset, nextBatchSeq);
        return;
      }
      walked := walked + [found.frame];
      offset, frames, nextBatchSeq := after, frames + 1, NextBatch(nextBatchSeq, found.frame);
    }
  }

  /** One read of the walk. */
  method ReadWalked(crc: Checksum, file: seq<Byte>, ghost next: U64, ghost walked: seq<Frame>, offset: nat,
                    ghost nb: U64, interrupts: nat)
    returns (found: Parsed, after: nat)
    requires Walking(crc, file, next, walked, offset, nb)
    ensures found.Parsed? ==>
              && offset < after <= |file|
              && Walking(crc, file, next, walked + [found.frame], after, NextBatch(nb, found.frame))
    ensures !found.Parsed? ==> !SegmentReader.ParseAt(crc, file, offset).Parsed?
  {
    found, after := SegmentReader.ReadFrameAt(crc, file, offset, interrupts);
    if found.Parsed? {
      WalkAdvances(crc, file, next, walked, offset, nb, found.frame);
    }
  }

  /** Files written by the store: for frames followed by any tail, the frames are kept as a prefix. */
  lemma KeepsEncoded(crc: Checksum, fs: seq<Frame>, tail: seq<Byte>)
    requires AllReadable(fs)
    ensures ValidHeader(SegmentBytes(crc, fs) + tail)
    ensures KeptFrames(crc, SegmentBytes(crc, fs) + tail) == fs + Scan(crc, tail)
    ensures KeptLength(crc, SegmentBytes(crc, fs) + tail) ==
            |SegmentBytes(crc, fs)| + |EncodeFrames(crc, Scan(crc, tail))|
  {
    var b := SegmentBytes(crc, fs) + tail;
    ConcatAssociates(SegmentHeader(), EncodeFrames(crc, fs), tail);
    HeaderIsValid(EncodeFrames(crc, fs) + tail);
    assert b[SEGMENT_HEADER_LEN..] == EncodeFrames(crc, fs) + tail;
    ScanEncoded(crc, fs, tail);
    EncodeConcat(crc, fs, Scan(crc, tail));
  }

  /** A torn write loses exactly itself: a strict prefix of one more frame is cut off. */
  lemma CutsTornTail(crc: Checksum, fs: seq<Frame>, f: Frame, k: nat)
    requires AllReadable(fs) && Readable(f) && k < FrameLen(|f.payload|)
    ensures var b := SegmentBytes(crc, fs) + EncodeFrame(crc, f)[..k];
            && KeptFrames(crc, b) == fs
            && b[..KeptLength(crc, b)] == SegmentBytes(crc, fs)
  {
    KeepsEncoded(crc, fs, EncodeFrame(crc, f)[..k]);
    ParseTorn(crc, f, k);
    assert fs + [] == fs;
  }

  /** Whatever the bytes, what is left after the cut is a frame boundary, and a second recovery changes nothing. */
  lemma CutIsStable(crc: Checksum, bytes: seq<Byte>)
    requires ValidHeader(bytes)
    ensures var cut := bytes[..KeptLength(crc, bytes)];
            && ValidHeader(cut)
            && KeptFrames(crc, cut) == KeptFrames(crc, bytes)
            && KeptLength(crc, cut) == |cut|
  {
    var n := KeptLength(crc, bytes);
    var cut, fs := bytes[..n], KeptFrames(crc, bytes);
    assert cut[0..8] == bytes[0..8] && cut[8..12] == bytes[8..12];
    ScanSound(crc, bytes[SEGMENT_HEADER_LEN..]);
    assert cut[SEGMENT_HEADER_LEN..] == EncodeFrames(crc, fs) + [];
    ScanEncoded(crc, fs, []);
    assert fs + [] == fs;
  }

  // ---- the directory ------------------------------------------------------

  predicate LessAt(ids: seq<nat>, i: nat, j: nat)
    requires i < |ids| && j < |ids|
  {
    ids[i] < ids[j]
  }

  ghost predicate Rising(ids: seq<nat>) {
    forall i, j | 0 <= i < j < |ids| :: LessAt(ids, i, j)
  }

  predicate AllBelow(ids: seq<nat>, x: nat) { forall y | y in ids :: y < x }

  predicate AllAbove(ids: seq<nat>, x: nat) { forall y | y in ids :: x < y }

  lemma RisingTail(ids: seq<nat>)
    requires Rising(ids) && ids != []
    ensures Rising(ids[1..]) && AllAbove(ids[1..], ids[0])
  {
    forall i, j | 0 <= i < j < |ids| - 1 ensures LessAt(ids[1..], i, j) {
      assert LessAt(ids, i + 1, j + 1);
    }
    forall x | x in ids[1..] ensures ids[0] < x {
      var i :| 0 <= i < |ids| - 1 && ids[i + 1] == x;
      assert LessAt(ids, 0, i + 1);
    }
  }

  lemma RisingButLast(ids: seq<nat>)
    requires Rising(ids) && ids != []
    ensures Rising(ids[..|ids| - 1]) && AllBelow(ids[..|ids| - 1], ids[|ids| - 1])
  {
    var n := |ids| - 1;
    forall i, j | 0 <= i < j < n ensures LessAt(ids[..n], i, j) {
      assert LessAt(ids, i, j);
    }
    forall x | x in ids[..n] ensures x < ids[n] {
      var i :| 0 <= i < n && ids[i] == x;
      assert LessAt(ids, i, n);
    }
  }

  lemma RisingSnoc(ids: seq<nat>, x: nat)
    requires Rising(ids) && AllBelow(ids, x)
    ensures Rising(ids + [x])
  {
    forall i, j | 0 <= i < j < |ids + [x]| ensures LessAt(ids + [x], i, j) {
      if j < |ids| {
        assert LessAt(ids, i, j);
      } else {
        assert ids[i] in ids;
      }
    }
  }

  /** `ids` lists the segment files in numeric order. */
  ghost predicate Lists(ids: seq<nat>, disk: Disk) {
    Rising(ids) && (forall id :: id in ids <==> id in disk)
  }

  lemma {:induction false} RisingIsUnique(a: seq<nat>, b: seq<nat>)
    requires Rising(a) && Rising(b) && (forall x :: x in a <==> x in b)
    ensures a == b
    decreases |a|
  {
    assert b != [] ==> b[0] in b;
    if a == [] {
    } else {
      assert a[0] in a && a[0] in b;
      RisingTail(a);
      RisingTail(b);
      assert a == [a[0]] + a[1..] && b == [b[0]] + b[1..];
      assert a[0] == b[0];
      forall x ensures x in a[1..] <==> x in b[1..] {
        assert x in a[1..] <==> x in a && x != a[0];
        assert x in b[1..] <==> x in b && x != b[0];
      }
      RisingIsUnique(a[1..], b[1..]);
    }
  }

  method Least(keys: set<nat>) returns (least: nat)
    requires keys != {}
    ensures least in keys && forall k | k in keys :: least <= k
  {
    least :| least in keys;
    var rest := keys - {least};
    while rest != {}
      invariant least in keys && rest <= keys
      invariant forall k | k in keys :: k in rest || least <= k
      decreases rest
    {
      var k :| k in rest;
      rest := rest - {k};
      if k < least { least := k; }
    }
  }

  /** The segment numbers found in the directory, sorted. */
  method SortedIds(disk: Disk) returns (ids: seq<nat>)
    ensures Lists(ids, disk)
  {
    ids := [];
    var todo := disk.Keys;
    while todo != {}
      invariant Rising(ids) && todo <= disk.Keys
      invariant forall id :: id in disk <==> id in ids || id in todo
      invariant forall x, k | x in ids && k in todo :: x < k
      decreases todo
    {
      var least := Least(todo);
      RisingSnoc(ids, least);
      todo := todo - {least};
      ids := ids + [least];
    }
  }

  function Survivors(disk: Disk, ids: seq<nat>): seq<nat>
    requires forall id | id in ids :: id in disk
  {
    if ids == [] then []
    else
      var n := |ids| - 1;
      assert forall id | id in ids[..n] :: id in ids;
      Survivors(disk, ids[..n]) + if ValidHeader(disk[ids[n]].bytes) then [ids[n]] else []
  }

  lemma {:induction false} SurvivorIff(disk: Disk, ids: seq<nat>, id: nat)
    requires forall x | x in ids :: x in disk
    ensures id in Survivors(disk, ids) <==> id in ids && ValidHeader(disk[id].bytes)
  {
    if ids == [] {
    } else {
      var n := |ids| - 1;
      assert ids == ids[..n] + [ids[n]];
      SurvivorIff(disk, ids[..n], id);
    }
  }

  lemma {:induction false} SurvivorsRise(disk: Disk, ids: seq<nat>)
    requires (forall id | id in ids :: id in disk) && Rising(ids)
    ensures Rising(Survivors(disk, ids))
  {
    if ids == [] {
    } else {
      var n := |ids| - 1;
      assert ids == ids[..n] + [ids[n]];
      RisingButLast(ids);
      SurvivorsRise(disk, ids[..n]);
      var kept := Survivors(disk, ids[..n]);
      forall x | x in kept ensures x < ids[n] {
        SurvivorIff(disk, ids[..n], x);
      }
      RisingSnoc(kept, ids[n]);
      assert kept + [] == kept;
    }
  }

  lemma SurvivorsAre(disk: Disk, ids: seq<nat>)
    requires forall id | id in ids :: id in disk
    ensures forall id :: id in Survivors(disk, ids) <==> id in ids && ValidHeader(disk[id].bytes)
    ensures Rising(ids) ==> Rising(Survivors(disk, ids))
  {
    forall id ensures id in Survivors(disk, ids) <==> id in ids && ValidHeader(disk[id].bytes) {
      SurvivorIff(disk, ids, id);
    }
    if Rising(ids) {
      SurvivorsRise(disk, ids);
    }
  }

  function MetaOf(crc: Checksum, id: nat, bytes: seq<Byte>): SegmentMeta
    requires |bytes| >= SEGMENT_HEADER_LEN
  {
    SegmentMeta(id, KeptLength(crc, bytes), |KeptFrames(crc, bytes)|)
  }

  ghost predicate AllValid(disk: Disk, ids: seq<nat>) {
    forall id | id in ids :: id in disk && ValidHeader(disk[id].bytes)
  }

  ghost function Metas(crc: Checksum, disk: Disk, ids: seq<nat>): (ms: seq<SegmentMeta>)
    requires AllValid(disk, ids)
    ensures |ms| == |ids|
  {
    seq(|ids|, i requires 0 <= i < |ids| => MetaOf(crc, ids[i], disk[ids[i]].bytes))
  }

  ghost function AllKept(crc: Checksum, disk: Disk, ids: seq<nat>): seq<Frame>
    requires AllValid(disk, ids)
  {
    if ids == [] then []
    else
      var n := |ids| - 1;
      assert forall id | id in ids[..n] :: id in ids;
      AllKept(crc, disk, ids[..n]) + KeptFrames(crc, disk[ids[n]].bytes)
  }

  /** The directory after recovery: files with a bad header are gone, the others are cut. */
  function Healed(crc: Checksum, disk: Disk): Disk {
    map id | id in disk && ValidHeader(disk[id].bytes) :: Truncate(disk[id], KeptLength(crc, disk[id].bytes))
  }

  /** What recovery rebuilds from the files `ids` of `disk`. */
  ghost predicate Rebuilt(crc: Checksum, disk: Disk, ids: seq<nat>, st: Store)
    requires Lists(ids, disk)
  {
    RebuiltStore(crc, disk, ids, st) == true
  }

  ghost predicate RebuiltStore(crc: Checksum, disk: Disk, ids: seq<nat>, st: Store)
    requires Lists(ids, disk)
  {
    SurvivorsAre(disk, ids);
    var live := Survivors(disk, ids);
    && st.disk == Healed(crc, disk)
    && st.segments == Metas(crc, disk, live)
    && st.totalBytes == Total(st.segments)
    && st.nextSeq == (if ids == [] then 0 else ids[|ids| - 1] + 1)
    && st.nextBatchSeq == NextBatchAfter(0, AllKept(crc, disk, live))
    && st.active == (if live == [] then None
                     else var last := st.segments[|live| - 1]; Some(ActiveSegment(last.seqNo, last.bytes)))
    && st.readSeq == (if live == [] then st.nextSeq else live[0])
    && st.readOffset == SEGMENT_HEADER_LEN && st.pendingAdvance == None && st.droppedBatches == 0
  }

  /** No file has more bytes on the medium than it has. */
  ghost predicate Plausible(disk: Disk) {
    forall id | id in disk :: disk[id].synced <= |disk[id].bytes|
  }

  /** The directory when the files in `done` have been dealt with. */
  function HealedUpTo(crc: Checksum, disk: Disk, done: seq<nat>): Disk {
    map id | id in disk && (id in done ==> ValidHeader(disk[id].bytes)) ::
      if id in done then Truncate(disk[id], KeptLength(crc, disk[id].bytes)) else disk[id]
  }

  lemma HealOne(crc: Checksum, disk: Disk, done: seq<nat>, id: nat)
    requires Plausible(disk) && id in disk && id !in done
    ensures id in HealedUpTo(crc, disk, done) && HealedUpTo(crc, disk, done)[id] == disk[id]
    ensures !ValidHeader(disk[id].bytes) ==> HealedUpTo(crc, disk, done + [id]) == HealedUpTo(crc, disk, done) - {id}
    ensures ValidHeader(disk[id].bytes) ==>
              var n := KeptLength(crc, disk[id].bytes);
              && HealedUpTo(crc, disk, done + [id]) == HealedUpTo(crc, disk, done)[id := Truncate(disk[id], n)]
              && (n == |disk[id].bytes| ==> Truncate(disk[id], |disk[id].bytes|) == disk[id])
  {
  }

  /** One more file is added to the rebuilt metadata. */
  lemma RebuildOne(crc: Checksum, disk: Disk, ids: seq<nat>, i: nat)
    requires Lists(ids, disk) && i < |ids|
    requires AllValid(disk, Survivors(disk, ids[..i]))
    ensures AllValid(disk, Survivors(disk, ids[..i + 1]))
    ensures var before, after := Survivors(disk, ids[..i]), Survivors(disk, ids[..i + 1]);
            if ValidHeader(disk[ids[i]].bytes) then
              && Metas(crc, disk, after) == Metas(crc, disk, before) + [MetaOf(crc, ids[i], disk[ids[i]].bytes)]
              && AllKept(crc, disk, after) == AllKept(crc, disk, before) + KeptFrames(crc, disk[ids[i]].bytes)
            else after == before
  {
    assert ids[..i + 1][..i] == ids[..i];
    var before, after := Survivors(disk, ids[..i]), Survivors(disk, ids[..i + 1]);
    if ValidHeader(disk[ids[i]].bytes) {
      assert after == before + [ids[i]];
      assert after[..|before|] == before;
    }
  }

  lemma {:induction false} NextBatchConcat(next: U64, a: seq<Frame>, b: seq<Frame>)
    ensures NextBatchAfter(next, a + b) == NextBatchAfter(NextBatchAfter(next, a), b)
    decreases |a|
  {
    if a == [] {
      assert a + b == b;
    } else {
      assert (a + b)[1..] == a[1..] + b;
      NextBatchConcat(NextBatch(next, a[0]), a[1..], b);
    }
  }

  /** The store installed by recovery: the newest segment is active, the cursor is at the very start. */
  function Assemble(d: Disk, segments: seq<SegmentMeta>, total: nat, nextSeq: nat, nextBatchSeq: U64): Store {
    var n := |segments|;
    Store(d, segments,
          if n == 0 then None else Some(ActiveSegment(segments[n - 1].seqNo, segments[n - 1].bytes)),
          total, nextSeq, nextBatchSeq,
          if n == 0 then nextSeq else segments[0].seqNo, SEGMENT_HEADER_LEN, None, 0)
  }

  /** The loop state of recovery: the directory so far, and what has been rebuilt. */
  datatype Rebuild = Rebuild(disk: Disk, segments: seq<SegmentMeta>, total: nat, nextBatchSeq: U64)

  ghost predicate RebuiltUpTo(crc: Checksum, disk: Disk, ids: seq<nat>, i: nat, p: Rebuild)
    requires Lists(ids, disk) && i <= |ids|
  {
    && p.disk == HealedUpTo(crc, disk, ids[..i])
    && AllValid(disk, Survivors(disk, ids[..i]))
    && p.segments == Metas(crc, disk, Survivors(disk, ids[..i]))
    && p.total == Total(p.segments)
    && p.nextBatchSeq == NextBatchAfter(0, AllKept(crc, disk, Survivors(disk, ids[..i])))
  }

  ghost predicate Progress(crc: Checksum, disk: Disk, ids: seq<nat>, i: nat, p: Rebuild)
    requires Lists(ids, disk) && i <= |ids|
  {
    RebuiltUpTo(crc, disk, ids, i, p) == true
  }

  /** What recovery does with one file. */
  function RecoverFile(crc: Checksum, p: Rebuild, id: nat): Rebuild
    requires id in p.disk
  {
    var bytes := p.disk[id].bytes;
    if !ValidHeader(bytes) then p.(disk := p.disk - {id})
    else
      var n := KeptLength(crc, bytes);
      Rebuild(p.disk[id := Truncate(p.disk[id], n)], p.segments + [MetaOf(crc, id, bytes)], p.total + n,
              NextBatchAfter(p.nextBatchSeq, KeptFrames(crc, bytes)))
  }

  lemma ProgressStarts(crc: Checksum, disk: Disk, ids: seq<nat>)
    requires Lists(ids, disk)
    ensures Progress(crc, disk, ids, 0, Rebuild(disk, [], 0, 0))
  {
    assert ids[..0] == [];
    assert HealedUpTo(crc, disk, []) == disk;
  }

  lemma NotYetDone(ids: seq<nat>, i: nat)
    requires Rising(ids) && i < |ids|
    ensures ids[i] !in ids[..i] && ids[..i + 1] == ids[..i] + [ids[i]]
  {
    forall j | 0 <= j < i ensures ids[j] != ids[i] {
      assert LessAt(ids, j, i);
    }
  }

  lemma LastIsGreatest(ids: seq<nat>, x: nat)
    requires Rising(ids) && x in ids
    ensures x <= ids[|ids| - 1]
  {
    RisingButLast(ids);
    assert ids == ids[..|ids| - 1] + [ids[|ids| - 1]];
  }

  lemma ProgressFile(crc: Checksum, disk: Disk, ids: seq<nat>, i: nat, p: Rebuild)
    requires Lists(ids, disk) && Plausible(disk) && i < |ids| && Progress(crc, disk, ids, i, p)
    ensures ids[i] in p.disk && p.disk[ids[i]] == disk[ids[i]]
    ensures Progress(crc, disk, ids, i + 1, RecoverFile(crc, p, ids[i]))
  {
    NotYetDone(ids, i);
    HealOne(crc, disk, ids[..i], ids[i]);
    RebuildOne(crc, disk, ids, i);
    var bytes := disk[ids[i]].bytes;
    if ValidHeader(bytes) {
      TotalAppend(p.segments, MetaOf(crc, ids[i], bytes));
      NextBatchConcat(0, AllKept(crc, disk, Survivors(disk, ids[..i])), KeptFrames(crc, bytes));
    }
  }

  /** The greatest number among the first `i`. */
  function Greatest(ids: seq<nat>, i: nat): nat
    requires i <= |ids|
  {
    if i == 0 then 0 else ids[i - 1]
  }

  function Finish(p: Rebuild, count: nat, maxSeq: nat): Store {
    Assemble(p.disk, p.segments, p.total, if count == 0 then 0 else maxSeq + 1, p.nextBatchSeq)
  }

  lemma ProgressEnds(crc: Checksum, disk: Disk, ids: seq<nat>, p: Rebuild)
    requires Lists(ids, disk) && Progress(crc, disk, ids, |ids|, p)
    ensures Rebuilt(crc, disk, ids, Finish(p, |ids|, Greatest(ids, |ids|)))
  {
    assert ids[..|ids|] == ids;
    assert p.disk == Healed(crc, disk);
  }

  /** One turn of the recovery loop, as the code performs it. */
  method ProcessFile(crc: Checksum, p: Rebuild, id: nat, interrupts: nat) returns (p': Rebuild)
    requires id in p.disk && p.disk[id].synced <= |p.disk[id].bytes|
    ensures p' == RecoverFile(crc, p, id)
  {
    var file := p.disk[id];
    if !ValidHeader(file.bytes) {
      return p.(disk := p.disk - {id});
    }
    var offset, frames, next := WalkFrames(crc, file.bytes, p.nextBatchSeq, interrupts);
    var d := p.disk;
    if |file.bytes| > offset {
      d := d[id := Truncate(file, offset)];
    } else {
      assert Truncate(file, offset) == file && d[id := file] == d;
    }
    return Rebuild(d, p.segments + [SegmentMeta(id, offset, frames)], p.total + offset, next);
  }

  /** The files that recovery keeps, on disk and in the list, are exactly those that start like a segment. */
  ghost predicate KeepsSegments(disk: Disk, st: Store) {
    forall id ::
      && (id in st.disk <==> id in disk && |disk[id].bytes| >= 16 && disk[id].bytes[..12] == SEGMENT_START)
      && (id in st.disk <==> exists i :: 0 <= i < |st.segments| && st.segments[i].seqNo == id)
  }

  lemma RebuiltKeeps(crc: Checksum, disk: Disk, ids: seq<nat>, st: Store)
    requires Lists(ids, disk) && Rebuilt(crc, disk, ids, st)
    ensures KeepsSegments(disk, st)
  {
    SurvivorsAre(disk, ids);
    var live := Survivors(disk, ids);
    forall id
      ensures id in st.disk <==> id in disk && |disk[id].bytes| >= 16 && disk[id].bytes[..12] == SEGMENT_START
      ensures id in st.disk <==> exists i :: 0 <= i < |st.segments| && st.segments[i].seqNo == id
    {
      if id in disk {
        ValidHeaderIff(disk[id].bytes);
      }
      if id in st.disk {
        var i :| 0 <= i < |live| && live[i] == id;
        assert st.segments[i].seqNo == id;
      }
      if i :| 0 <= i < |st.segments| && st.segments[i].seqNo == id {
        assert live[i] == id;
      }
    }
  }

  /** The next segment gets the number after the greatest one found, kept or not. */
  ghost predicate NumbersNext(disk: Disk, next: nat) {
    && (forall id | id in disk :: id < next)
    && (next == 0 <==> disk == map[])
    && (next > 0 ==> next - 1 in disk)
  }

  lemma RebuiltNumbers(crc: Checksum, disk: Disk, ids: seq<nat>, st: Store)
    requires Lists(ids, disk) && Rebuilt(crc, disk, ids, st)
    ensures NumbersNext(disk, st.nextSeq)
  {
    forall id | id in disk ensures id < st.nextSeq {
      LastIsGreatest(ids, id);
    }
    if ids != [] {
      assert ids[|ids| - 1] in disk;
    }
  }

  /** Recovery of a whole directory, from any contents of its segment files. */
  method Recover(crc: Checksum, disk: Disk, interrupts: nat) returns (st: Store, ghost ids: seq<nat>)
    requires Plausible(disk)
    ensures Lists(ids, disk) && Rebuilt(crc, disk, ids, st)
    ensures KeepsSegments(disk, st) && NumbersNext(disk, st.nextSeq)
  {
    st, ids := RecoverFiles(crc, disk, interrupts);
    RebuiltKeeps(crc, disk, ids, st);
    RebuiltNumbers(crc, disk, ids, st);
  }

  /** The next file in the order of numbers, with the greatest number so far. */
  method NextFile(crc: Checksum, ghost disk: Disk, ids: seq<nat>, i: nat, p: Rebuild, maxSeq: nat, interrupts: nat)
    returns (p': Rebuild, maxSeq': nat)
    requires Lists(ids, disk) && Plausible(disk) && i < |ids| && Progress(crc, disk, ids, i, p)
    requires maxSeq == Greatest(ids, i)
    ensures Progress(crc, disk, ids, i + 1, p') && maxSeq' == Greatest(ids, i + 1)
  {
    ProgressFile(crc, disk, ids, i, p);
    assert i > 0 ==> LessAt(ids, i - 1, i);
    maxSeq' := if maxSeq >= ids[i] then maxSeq else ids[i];
    p' := ProcessFile(crc, p, ids[i], interrupts);
  }

  /** The loop over the segment files, and the store that it leaves. */
  method RecoverFiles(crc: Checksum, disk: Disk, interrupts: nat) returns (st: Store, ghost ids: seq<nat>)
    requires Plausible(disk)
    ensures Lists(ids, disk) && Rebuilt(crc, disk, ids, st)
  {
    var found := SortedIds(disk);
    var p, maxSeq := Rebuild(disk, [], 0, 0), 0;
    ProgressStarts(crc, disk, found);
    for i := 0 to |found|
      invariant Progress(crc, disk, found, i, p) && maxSeq == Greatest(found, i)
    {
      p, maxSeq := NextFile(crc, disk, found, i, p, maxSeq, interrupts);
    }
    ProgressEnds(crc, disk, found, p);
    ids := found;
    st := Finish(p, |found|, maxSeq);
  }

  // ---- running recovery again ---------------------------------------------

  lemma HealedFileStable(crc: Checksum, disk: Disk, id: nat)
    requires id in disk && ValidHeader(disk[id].bytes)
    ensures var file := Healed(crc, disk)[id];
            && ValidHeader(file.bytes) && KeptFrames(crc, file.bytes) == KeptFrames(crc, disk[id].bytes)
            && KeptLength(crc, file.bytes) == KeptLength(crc, disk[id].bytes) == |file.bytes|
            && Truncate(file, |file.bytes|) == file
  {
    CutIsStable(crc, disk[id].bytes);
  }

  lemma HealedStable(crc: Checksum, disk: Disk)
    ensures Healed(crc, Healed(crc, disk)) == Healed(crc, disk)
  {
    var once := Healed(crc, disk);
    forall id | id in once
      ensures id in Healed(crc, once) && Healed(crc, once)[id] == once[id]
    {
      HealedFileStable(crc, disk, id);
    }
  }

  lemma {:induction false} AllKeptStable(crc: Checksum, disk: Disk, ids: seq<nat>)
    requires AllValid(disk, ids) && AllValid(Healed(crc, disk), ids)
    ensures AllKept(crc, Healed(crc, disk), ids) == AllKept(crc, disk, ids)
  {
    if ids == [] {
    } else {
      var n := |ids| - 1;
      assert forall id | id in ids[..n] :: id in ids;
      HealedFileStable(crc, disk, ids[n]);
      AllKeptStable(crc, disk, ids[..n]);
    }
  }

  lemma MetasStable(crc: Checksum, disk: Disk, ids: seq<nat>)
    requires AllValid(disk, ids) && AllValid(Healed(crc, disk), ids)
    ensures Metas(crc, Healed(crc, disk), ids) == Metas(crc, disk, ids)
  {
    var once := Healed(crc, disk);
    forall i | 0 <= i < |ids|
      ensures MetaOf(crc, ids[i], once[ids[i]].bytes) == MetaOf(crc, ids[i], disk[ids[i]].bytes)
    {
      assert ids[i] in ids;
      HealedFileStable(crc, disk, ids[i]);
    }
  }

  lemma SurvivorsSurvive(crc: Checksum, disk: Disk, ids: seq<nat>, ids': seq<nat>)
    requires Lists(ids, disk) && Lists(ids', Healed(crc, disk))
    ensures ids' == Survivors(disk, ids) && Survivors(Healed(crc, disk), ids') == ids'
  {
    SurvivorsAre(disk, ids);
    SurvivorsAre(Healed(crc, disk), ids');
    RisingIsUnique(ids', Survivors(disk, ids));
    forall id | id in ids' ensures id in Survivors(Healed(crc, disk), ids') {
      HealedFileStable(crc, disk, id);
    }
    RisingIsUnique(ids', Survivors(Healed(crc, disk), ids'));
  }

  /** Running recovery again on its own result yields the same files, segments, frames and batch numbers. */
  lemma RecoveryIdempotent(crc: Checksum, disk: Disk, ids: seq<nat>, st: Store, ids': seq<nat>, st': Store)
    requires Lists(ids, disk) && Rebuilt(crc, disk, ids, st)
    requires Lists(ids', st.disk) && Rebuilt(crc, st.disk, ids', st')
    ensures st'.disk == st.disk && st'.segments == st.segments && st'.totalBytes == st.totalBytes
    ensures st'.active == st.active && st'.nextBatchSeq == st.nextBatchSeq
  {
    SurvivorsSurvive(crc, disk, ids, ids');
    SurvivorsAre(disk, ids);
    SurvivorsAre(st.disk, ids');
    HealedStable(crc, disk);
    AllKeptStable(crc, disk, ids');
    MetasStable(crc, disk, ids');
  }
}
