/**
  On-disk codec of the write-ahead log: little-endian integers, the 16-byte
  segment header, CRC-framed payloads, and the frame walk used by replay and
  recovery.

  The checksum is a parameter of every definition: nothing below depends on how
  a CRC is computed, only on it being a function of the payload.

  A predicate compared with `true` is handled by the verifier as one fact, not as its
  conjuncts.
 */
module Codec {

  type Byte = x: int | 0 <= x < 256
  type U32 = x: int | 0 <= x < 0x1_0000_0000
  type U64 = x: int | 0 <= x < 0x1_0000_0000_0000_0000
  type Checksum = seq<Byte> -> U32

  const SEGMENT_HEADER_LEN := 16
  const FRAME_HEADER_LEN := 16
  const MAX_FRAME_PAYLOAD := 16 * 1024 * 1024
  const FORMAT_VERSION := 1

  /** The bytes of "STATXWAL". */
  const SEGMENT_MAGIC: seq<Byte> := [83, 84, 65, 84, 88, 87, 65, 76]

  // ---- little-endian integers ---------------------------------------------

  function Pow256(width: nat): (p: nat)
    ensures p > 0
  {
    if width == 0 then 1 else 256 * Pow256(width - 1)
  }

  function LittleEndian(n: nat, width: nat): (r: seq<Byte>)
    ensures |r| == width
  {
    if width == 0 then [] else [n % 256] + LittleEndian(n / 256, width - 1)
  }

  function FromLittleEndian(s: seq<Byte>): (n: nat)
    ensures n < Pow256(|s|)
  {
    if s == [] then 0 else s[0] + 256 * FromLittleEndian(s[1..])
  }

  lemma {:induction false} LittleEndianRoundTrip(n: nat, width: nat)
    requires n < Pow256(width)
    ensures FromLittleEndian(LittleEndian(n, width)) == n
  {
    if width == 0 {
    } else {
      LittleEndianRoundTrip(n / 256, width - 1);
      assert LittleEndian(n, width)[1..] == LittleEndian(n / 256, width - 1);
    }
  }

  lemma {:induction false} LittleEndianOfBytes(s: seq<Byte>)
    ensures LittleEndian(FromLittleEndian(s), |s|) == s
  {
    if s == [] {
    } else {
      LittleEndianOfBytes(s[1..]);
      var n := FromLittleEndian(s);
      assert n / 256 == FromLittleEndian(s[1..]) && n % 256 == s[0];
    }
  }

  lemma WordSizes()
    ensures Pow256(4) == 0x1_0000_0000
    ensures Pow256(8) == 0x1_0000_0000_0000_0000
  {
    assert Pow256(2) == 0x1_0000;
    assert Pow256(4) == 256 * (256 * Pow256(2));
    assert Pow256(6) == 256 * (256 * Pow256(4));
  }

  // ---- segment header -----------------------------------------------------

  function SegmentHeader(): (h: seq<Byte>)
    ensures |h| == SEGMENT_HEADER_LEN
  {
    SEGMENT_MAGIC + LittleEndian(FORMAT_VERSION, 4) + [0, 0, 0, 0]
  }

  /** The reserved last four bytes are not looked at. */
  predicate ValidHeader(bytes: seq<Byte>) {
    && |bytes| >= SEGMENT_HEADER_LEN
    && bytes[0..8] == SEGMENT_MAGIC
    && FromLittleEndian(bytes[8..12]) == FORMAT_VERSION
  }

  /** "STATXWAL" and version 1, least significant byte first: how every segment file starts. */
  const SEGMENT_START: seq<Byte> := [83, 84, 65, 84, 88, 87, 65, 76, 1, 0, 0, 0]

  /** A 32-bit number from its bytes, the least significant one first. */
  function Word(b0: int, b1: int, b2: int, b3: int): int { b0 + 0x100 * b1 + 0x1_0000 * b2 + 0x100_0000 * b3 }

  lemma WordOf(s: seq<Byte>)
    requires |s| == 4
    ensures FromLittleEndian(s) == Word(s[0], s[1], s[2], s[3])
  {
    assert s[1..][1..] == s[2..] && s[2..][1..] == s[3..] && s[3..][1..] == [];
    assert FromLittleEndian(s[2..]) == s[2] as int + 256 * (s[3] as int);
    assert FromLittleEndian(s[1..]) == s[1] as int + 256 * FromLittleEndian(s[2..]);
  }

  lemma LongOf(s: seq<Byte>)
    requires |s| == 8
    ensures FromLittleEndian(s) == Word(s[0], s[1], s[2], s[3]) + 0x1_0000_0000 * Word(s[4], s[5], s[6], s[7])
  {
    assert s[1..][1..] == s[2..] && s[2..][1..] == s[3..] && s[3..][1..] == s[4..];
    assert FromLittleEndian(s[3..]) == s[3] as int + 256 * FromLittleEndian(s[4..]);
    assert FromLittleEndian(s[2..]) == s[2] as int + 256 * FromLittleEndian(s[3..]);
    assert FromLittleEndian(s[1..]) == s[1] as int + 256 * FromLittleEndian(s[2..]);
    WordOf(s[4..]);
  }

  /** The header that is written, byte by byte. */
  lemma HeaderBytes()
    ensures SegmentHeader() == [83, 84, 65, 84, 88, 87, 65, 76, 1, 0, 0, 0, 0, 0, 0, 0]
    ensures SEGMENT_MAGIC + [1, 0, 0, 0] == [83, 84, 65, 84, 88, 87, 65, 76, 1, 0, 0, 0]
  {
    assert LittleEndian(1, 4) == [1] + LittleEndian(0, 3);
    assert LittleEndian(0, 3) == [0] + LittleEndian(0, 2);
    assert LittleEndian(0, 2) == [0] + LittleEndian(0, 1);
    assert LittleEndian(FORMAT_VERSION, 4) == [1, 0, 0, 0];
  }

  lemma WordIsOne(s: seq<Byte>)
    requires |s| == 4
    ensures FromLittleEndian(s) == 1 <==> s == [1, 0, 0, 0]
  {
    WordOf(s);
  }

  lemma SplitStart(bytes: seq<Byte>, a: seq<Byte>, b: seq<Byte>)
    requires |bytes| >= 12 && |a| == 8 && |b| == 4
    ensures bytes[..12] == a + b <==> bytes[0..8] == a && bytes[8..12] == b
  {
    var start := bytes[..12];
    assert start[..8] == bytes[0..8] && start[8..] == bytes[8..12];
    assert start == start[..8] + start[8..];
    assert (a + b)[..8] == a && (a + b)[8..] == b;
  }

  /** Exactly which files are taken for segments. */
  lemma ValidHeaderIff(bytes: seq<Byte>)
    ensures ValidHeader(bytes) <==>
            |bytes| >= 16 && bytes[..12] == [83, 84, 65, 84, 88, 87, 65, 76, 1, 0, 0, 0]
  {
    HeaderBytes();
    if |bytes| >= 16 {
      WordIsOne(bytes[8..12]);
      SplitStart(bytes, SEGMENT_MAGIC, [1, 0, 0, 0]);
    }
  }

  lemma HeaderIsValid(rest: seq<Byte>)
    ensures ValidHeader(SegmentHeader() + rest)
  {
    var b := SegmentHeader() + rest;
    WordSizes();
    LittleEndianRoundTrip(FORMAT_VERSION, 4);
    assert b[0..8] == SEGMENT_MAGIC;
    assert b[8..12] == LittleEndian(FORMAT_VERSION, 4);
  }

  /** Only the first 16 bytes decide. */
  lemma SameHeader(a: seq<Byte>, b: seq<Byte>)
    requires |a| >= SEGMENT_HEADER_LEN && |b| >= SEGMENT_HEADER_LEN
    requires a[..SEGMENT_HEADER_LEN] == b[..SEGMENT_HEADER_LEN]
    ensures ValidHeader(a) <==> ValidHeader(b)
  {
    assert a[0..8] == a[..16][0..8] && b[0..8] == b[..16][0..8];
    assert a[8..12] == a[..16][8..12] && b[8..12] == b[..16][8..12];
  }

  // ---- frames -------------------------------------------------------------

  datatype Frame = Frame(batchSeq: U64, payload: seq<Byte>)

  /** The payload lengths that the reader accepts. */
  predicate ReadableLength(n: nat) {
    1 <= n <= MAX_FRAME_PAYLOAD
  }

  predicate Readable(f: Frame) {
    ReadableLength(|f.payload|)
  }

  function FrameLen(payloadLen: nat): nat {
    FRAME_HEADER_LEN + payloadLen
  }

  /** The length field is a u32: a longer payload has its length truncated. */
  function EncodeFrameHeader(crc: Checksum, f: Frame): (h: seq<Byte>)
    ensures |h| == FRAME_HEADER_LEN
  {
    LittleEndian(|f.payload| % 0x1_0000_0000, 4) + LittleEndian(crc(f.payload), 4) + LittleEndian(f.batchSeq, 8)
  }

  function EncodeFrame(crc: Checksum, f: Frame): (b: seq<Byte>)
    ensures |b| == FrameLen(|f.payload|)
  {
    EncodeFrameHeader(crc, f) + f.payload
  }

  datatype Parsed = Parsed(frame: Frame) | End | Corrupt

  /** Decodes one frame at the start of `rest`, the bytes from the current offset to the end of the file. */
  function ParseFrame(crc: Checksum, rest: seq<Byte>): Parsed {
    if |rest| < FRAME_HEADER_LEN then End
    else
      WordSizes();
      var len := FromLittleEndian(rest[0..4]);
      var batchSeq: U64 := FromLittleEndian(rest[8..16]);
      if !ReadableLength(len) then Corrupt
      else if |rest| < FrameLen(len) then End
      else
        var payload := rest[FRAME_HEADER_LEN..FrameLen(len)];
        if crc(payload) != FromLittleEndian(rest[4..8]) then Corrupt
        else Parsed(Frame(batchSeq, payload))
  }

  lemma HeaderFields(crc: Checksum, f: Frame, tail: seq<Byte>)
    ensures var b := EncodeFrameHeader(crc, f) + tail;
            && FromLittleEndian(b[0..4]) == |f.payload| % 0x1_0000_0000
            && FromLittleEndian(b[4..8]) == crc(f.payload)
            && FromLittleEndian(b[8..16]) == f.batchSeq
  {
    var b := EncodeFrameHeader(crc, f) + tail;
    WordSizes();
    assert b[0..4] == LittleEndian(|f.payload| % 0x1_0000_0000, 4);
    assert b[4..8] == LittleEndian(crc(f.payload), 4);
    assert b[8..16] == LittleEndian(f.batchSeq, 8);
    LittleEndianRoundTrip(|f.payload| % 0x1_0000_0000, 4);
    LittleEndianRoundTrip(crc(f.payload), 4);
    LittleEndianRoundTrip(f.batchSeq, 8);
  }

  /**
    The layout of a frame, byte by byte: four bytes of length, four of checksum and
    eight of batch number, each least significant byte first, and the payload.
   */
  lemma FrameLayout(crc: Checksum, f: Frame)
    ensures var b := EncodeFrame(crc, f);
            && |b| == 16 + |f.payload| && b[16..] == f.payload
            && Word(b[0], b[1], b[2], b[3]) == |f.payload| % 0x1_0000_0000
            && Word(b[4], b[5], b[6], b[7]) == crc(f.payload)
            && Word(b[8], b[9], b[10], b[11]) + 0x1_0000_0000 * Word(b[12], b[13], b[14], b[15]) == f.batchSeq
  {
    var b := EncodeFrame(crc, f);
    HeaderFields(crc, f, f.payload);
    WordOf(b[0..4]);
    WordOf(b[4..8]);
    LongOf(b[8..16]);
  }

  /** A readable frame decodes to itself, whatever follows it. */
  lemma ParseEncoded(crc: Checksum, f: Frame, tail: seq<Byte>)
    requires Readable(f)
    ensures ParseFrame(crc, EncodeFrame(crc, f) + tail) == Parsed(f)
  {
    var b := EncodeFrame(crc, f) + tail;
    assert b == EncodeFrameHeader(crc, f) + (f.payload + tail);
    HeaderFields(crc, f, f.payload + tail);
    assert b[FRAME_HEADER_LEN..FrameLen(|f.payload|)] == f.payload;
  }

  /** Every strict prefix of a readable frame reads as the end of the data, never as corruption. */
  lemma ParseTorn(crc: Checksum, f: Frame, k: nat)
    requires Readable(f) && k < FrameLen(|f.payload|)
    ensures ParseFrame(crc, EncodeFrame(crc, f)[..k]) == End
  {
    if k >= FRAME_HEADER_LEN {
      var b := EncodeFrame(crc, f)[..k];
      assert b == EncodeFrameHeader(crc, f) + b[FRAME_HEADER_LEN..];
      HeaderFields(crc, f, b[FRAME_HEADER_LEN..]);
    }
  }

  /** Whatever the bytes, a decoded frame is readable and the bytes it was decoded from are its encoding. */
  lemma ParseSound(crc: Checksum, rest: seq<Byte>)
    requires ParseFrame(crc, rest).Parsed?
    ensures var f := ParseFrame(crc, rest).frame;
            Readable(f) && EncodeFrame(crc, f) <= rest
  {
    var f := ParseFrame(crc, rest).frame;
    WordSizes();
    LittleEndianOfBytes(rest[0..4]);
    LittleEndianOfBytes(rest[4..8]);
    LittleEndianOfBytes(rest[8..16]);
    assert EncodeFrameHeader(crc, f) == rest[0..4] + rest[4..8] + rest[8..16];
    HeaderSlices(rest, FrameLen(|f.payload|));
  }

  lemma HeaderSlices(rest: seq<Byte>, n: nat)
    requires 16 <= n <= |rest|
    ensures rest[0..4] + rest[4..8] + rest[8..16] + rest[16..n] == rest[..n] <= rest
  {
  }

  /**
    Exactly which payloads survive: `append` takes any payload, but a frame reads
    back as itself if and only if its payload has between 1 byte and 16 MiB.
   */
  lemma FrameReadsBackIff(crc: Checksum, f: Frame, tail: seq<Byte>)
    ensures ParseFrame(crc, EncodeFrame(crc, f) + tail) == Parsed(f) <==> 1 <= |f.payload| <= 16777216
  {
    if Readable(f) {
      ParseEncoded(crc, f, tail);
    } else if ParseFrame(crc, EncodeFrame(crc, f) + tail) == Parsed(f) {
      ParseSound(crc, EncodeFrame(crc, f) + tail);
    }
  }

  // ---- sequences of frames ------------------------------------------------

  function EncodeFrames(crc: Checksum, fs: seq<Frame>): seq<Byte> {
    if fs == [] then [] else EncodeFrame(crc, fs[0]) + EncodeFrames(crc, fs[1..])
  }

  ghost predicate AllReadable(fs: seq<Frame>) {
    forall i | 0 <= i < |fs| :: Readable(fs[i])
  }

  lemma ConcatAssociates(a: seq<Byte>, b: seq<Byte>, c: seq<Byte>)
    ensures (a + b) + c == a + (b + c)
  {
  }

  lemma {:induction false} EncodeConcat(crc: Checksum, a: seq<Frame>, b: seq<Frame>)
    ensures EncodeFrames(crc, a + b) == EncodeFrames(crc, a) + EncodeFrames(crc, b)
  {
    if a == [] {
      assert a + b == b;
    } else {
      EncodeConcat(crc, a[1..], b);
      assert (a + b)[1..] == a[1..] + b;
      ConcatAssociates(EncodeFrame(crc, a[0]), EncodeFrames(crc, a[1..]), EncodeFrames(crc, b));
    }
  }

  lemma EncodeSingle(crc: Checksum, f: Frame)
    ensures EncodeFrames(crc, [f]) == EncodeFrame(crc, f)
  {
    assert [f][1..] == [];
    assert EncodeFrames(crc, [f]) == EncodeFrame(crc, f) + [];
  }

  /** The frame walk: frames decoded one after another up to the first boundary that does not decode. */
  function Scan(crc: Checksum, rest: seq<Byte>): seq<Frame>
    decreases |rest|
  {
    var p := ParseFrame(crc, rest);
    if p.Parsed? then
      ParseSound(crc, rest);
      [p.frame] + Scan(crc, rest[FrameLen(|p.frame.payload|)..])
    else []
  }

  lemma ScanStep(crc: Checksum, f: Frame, more: seq<Byte>)
    requires Readable(f)
    ensures Scan(crc, EncodeFrame(crc, f) + more) == [f] + Scan(crc, more)
  {
    ParseEncoded(crc, f, more);
    assert (EncodeFrame(crc, f) + more)[FrameLen(|f.payload|)..] == more;
  }

  lemma FirstAndRest<T>(s: seq<T>, tail: seq<T>)
    requires s != []
    ensures [s[0]] + (s[1..] + tail) == s + tail
  {
  }

  /** Encoded frames are found again, in front of whatever the tail decodes to. */
  lemma {:induction false} ScanEncoded(crc: Checksum, fs: seq<Frame>, tail: seq<Byte>)
    requires AllReadable(fs)
    ensures Scan(crc, EncodeFrames(crc, fs) + tail) == fs + Scan(crc, tail)
  {
    if fs == [] {
      assert EncodeFrames(crc, fs) + tail == tail;
    } else {
      var more := EncodeFrames(crc, fs[1..]) + tail;
      ConcatAssociates(EncodeFrame(crc, fs[0]), EncodeFrames(crc, fs[1..]), tail);
      ScanStep(crc, fs[0], more);
      ScanEncoded(crc, fs[1..], tail);
      FirstAndRest(fs, Scan(crc, tail));
    }
  }

  /** Whatever the bytes, the walk stops on a frame boundary: what it consumed is the encoding of what it found. */
  lemma {:induction false} ScanSound(crc: Checksum, rest: seq<Byte>)
    ensures EncodeFrames(crc, Scan(crc, rest)) <= rest
    ensures AllReadable(Scan(crc, rest))
    ensures !ParseFrame(crc, rest[|EncodeFrames(crc, Scan(crc, rest))|..]).Parsed?
    decreases |rest|
  {
    if ParseFrame(crc, rest).Parsed? {
      FirstParsed(crc, rest);
      var f := ParseFrame(crc, rest).frame;
      var n := FrameLen(|f.payload|);
      ScanSound(crc, rest[n..]);
      EncodeCons(crc, f, Scan(crc, rest[n..]));
      ConsumedBehind(rest, n, EncodeFrames(crc, Scan(crc, rest[n..])));
    } else {
      assert rest[0..] == rest;
    }
  }

  /** A first frame found is the beginning of the bytes, and of what the walk finds. */
  lemma FirstParsed(crc: Checksum, rest: seq<Byte>)
    requires ParseFrame(crc, rest).Parsed?
    ensures var f := ParseFrame(crc, rest).frame;
            var n := FrameLen(|f.payload|);
            && Readable(f) && n <= |rest| && rest[..n] == EncodeFrame(crc, f)
            && Scan(crc, rest) == [f] + Scan(crc, rest[n..])
  {
    ParseSound(crc, rest);
  }

  lemma EncodeCons(crc: Checksum, f: Frame, fs: seq<Frame>)
    ensures EncodeFrames(crc, [f] + fs) == EncodeFrame(crc, f) + EncodeFrames(crc, fs)
    ensures Readable(f) && AllReadable(fs) ==> AllReadable([f] + fs)
  {
    assert ([f] + fs)[1..] == fs;
  }

  lemma ConsumedBehind<T>(s: seq<T>, n: nat, more: seq<T>)
    requires n <= |s| && more <= s[n..]
    ensures s[..n] + more <= s && s[|s[..n] + more|..] == s[n..][|more|..]
  {
    assert s == s[..n] + s[n..];
  }

  /** A list of frames followed by a strict prefix of one more decodes to exactly the list. */
  lemma ScanTorn(crc: Checksum, fs: seq<Frame>, f: Frame, k: nat)
    requires AllReadable(fs) && Readable(f) && k < FrameLen(|f.payload|)
    ensures Scan(crc, EncodeFrames(crc, fs) + EncodeFrame(crc, f)[..k]) == fs
  {
    ScanEncoded(crc, fs, EncodeFrame(crc, f)[..k]);
    ParseTorn(crc, f, k);
  }

  lemma CutConcat<T>(a: seq<T>, b: seq<T>, n: nat)
    requires n <= |a + b|
    ensures n < |a| ==> (a + b)[..n] == a[..n]
    ensures n >= |a| ==> (a + b)[..n] == a + b[..n - |a|]
  {
  }

  /** Cut inside the first frame, nothing is found. */
  lemma CutInFirst(crc: Checksum, fs: seq<Frame>, n: nat)
    requires fs != [] && Readable(fs[0]) && n < FrameLen(|fs[0].payload|)
    ensures n <= |EncodeFrames(crc, fs)| && Scan(crc, EncodeFrames(crc, fs)[..n]) == []
  {
    CutConcat(EncodeFrame(crc, fs[0]), EncodeFrames(crc, fs[1..]), n);
    ParseTorn(crc, fs[0], n);
  }

  lemma EncodeCut(crc: Checksum, fs: seq<Frame>, n: nat)
    requires fs != [] && FrameLen(|fs[0].payload|) <= n <= |EncodeFrames(crc, fs)|
    ensures var k := n - FrameLen(|fs[0].payload|);
            && k <= |EncodeFrames(crc, fs[1..])|
            && EncodeFrames(crc, fs)[..n] == EncodeFrame(crc, fs[0]) + EncodeFrames(crc, fs[1..])[..k]
  {
    CutConcat(EncodeFrame(crc, fs[0]), EncodeFrames(crc, fs[1..]), n);
  }

  /** Cut behind the first frame, the first frame is found, then what is found of the others. */
  lemma CutBehindFirst(crc: Checksum, fs: seq<Frame>, n: nat)
    requires fs != [] && Readable(fs[0]) && FrameLen(|fs[0].payload|) <= n <= |EncodeFrames(crc, fs)|
    ensures var k := n - FrameLen(|fs[0].payload|);
            && k <= |EncodeFrames(crc, fs[1..])|
            && Scan(crc, EncodeFrames(crc, fs)[..n]) == [fs[0]] + Scan(crc, EncodeFrames(crc, fs[1..])[..k])
  {
    EncodeCut(crc, fs, n);
    ScanStep(crc, fs[0], EncodeFrames(crc, fs[1..])[..n - FrameLen(|fs[0].payload|)]);
  }

  lemma ReadableTail(fs: seq<Frame>)
    requires fs != [] && AllReadable(fs)
    ensures AllReadable(fs[1..])
  {
  }

  lemma PrefixCons<T>(x: T, a: seq<T>, s: seq<T>)
    requires s != [] && s[0] == x && a <= s[1..]
    ensures [x] + a <= s
  {
    assert s == [x] + s[1..];
  }

  /** Any prefix of encoded frames, cut anywhere, decodes to a prefix of the frames. */
  lemma {:induction false} ScanOfPrefix(crc: Checksum, fs: seq<Frame>, n: nat)
    requires AllReadable(fs) && n <= |EncodeFrames(crc, fs)|
    ensures FindsPrefix(crc, EncodeFrames(crc, fs)[..n], fs)
    ensures Scan(crc, EncodeFrames(crc, fs)[..n]) <= fs
  {
    if fs == [] {
    } else if n < FrameLen(|fs[0].payload|) {
      CutInFirst(crc, fs, n);
    } else {
      var rest := fs[1..];
      ReadableTail(fs);
      ScanOfPrefix(crc, rest, n - FrameLen(|fs[0].payload|));
      CutStep(crc, fs, n);
    }
  }

  ghost predicate FindsPrefix(crc: Checksum, bytes: seq<Byte>, fs: seq<Frame>) {
    (Scan(crc, bytes) <= fs) == true
  }

  lemma CutStep(crc: Checksum, fs: seq<Frame>, n: nat)
    requires fs != [] && Readable(fs[0]) && FrameLen(|fs[0].payload|) <= n <= |EncodeFrames(crc, fs)|
    requires var k := n - FrameLen(|fs[0].payload|);
             k <= |EncodeFrames(crc, fs[1..])| && FindsPrefix(crc, EncodeFrames(crc, fs[1..])[..k], fs[1..])
    ensures FindsPrefix(crc, EncodeFrames(crc, fs)[..n], fs)
  {
    CutBehindFirst(crc, fs, n);
    PrefixCons(fs[0], Scan(crc, EncodeFrames(crc, fs[1..])[..n - FrameLen(|fs[0].payload|)]), fs);
  }

  /** Codec round trip: the frames of a segment decode to exactly those frames, then End. */
  lemma SegmentRoundTrip(crc: Checksum, fs: seq<Frame>)
    requires AllReadable(fs)
    ensures ValidHeader(SegmentBytes(crc, fs))
    ensures Scan(crc, SegmentBytes(crc, fs)[SEGMENT_HEADER_LEN..]) == fs
    ensures ParseFrame(crc, SegmentBytes(crc, fs)[|SegmentBytes(crc, fs)|..]) == End
  {
    HeaderIsValid(EncodeFrames(crc, fs));
    ScanEncoded(crc, fs, []);
    assert SegmentBytes(crc, fs)[SEGMENT_HEADER_LEN..] == EncodeFrames(crc, fs) + [];
  }

  lemma UnreadableIsCorrupt(crc: Checksum, bad: Frame, tail: seq<Byte>)
    requires !Readable(bad) && |bad.payload| < 0x1_0000_0000
    ensures ParseFrame(crc, EncodeFrame(crc, bad) + tail) == Corrupt
  {
    ConcatAssociates(EncodeFrameHeader(crc, bad), bad.payload, tail);
    HeaderFields(crc, bad, bad.payload + tail);
  }

  /**
    What goes wrong outside the accepted lengths: an empty payload, or one above
    16 MiB that still fits the u32 length field, hides every frame written after
    it in the same segment.
   */
  lemma UnreadableHidesTail(crc: Checksum, fs: seq<Frame>, bad: Frame, later: seq<Frame>)
    requires AllReadable(fs) && !Readable(bad) && |bad.payload| < 0x1_0000_0000
    ensures Scan(crc, EncodeFrames(crc, fs + ([bad] + later))) == fs
  {
    EncodeConcat(crc, fs, [bad] + later);
    assert ([bad] + later)[1..] == later;
    UnreadableIsCorrupt(crc, bad, EncodeFrames(crc, later));
    ScanEncoded(crc, fs, EncodeFrames(crc, [bad] + later));
  }

  function SegmentBytes(crc: Checksum, fs: seq<Frame>): seq<Byte> {
    SegmentHeader() + EncodeFrames(crc, fs)
  }

  /** The file offset at which frame `k` of a segment starts. */
  function FrameOffset(crc: Checksum, fs: seq<Frame>, k: nat): nat
    requires k <= |fs|
  {
    SEGMENT_HEADER_LEN + |EncodeFrames(crc, fs[..k])|
  }

  /** Reading at the offset of frame `k` yields that frame; consecutive offsets differ by its size. */
  lemma ReadAtIndex(crc: Checksum, fs: seq<Frame>, k: nat)
    requires AllReadable(fs) && k < |fs|
    ensures FrameOffset(crc, fs, k + 1) == FrameOffset(crc, fs, k) + FrameLen(|fs[k].payload|)
    ensures FrameOffset(crc, fs, k + 1) <= |SegmentBytes(crc, fs)|
    ensures FrameOffset(crc, fs, k) - SEGMENT_HEADER_LEN <= |EncodeFrames(crc, fs)|
    ensures ParseFrame(crc, EncodeFrames(crc, fs)[FrameOffset(crc, fs, k) - SEGMENT_HEADER_LEN..]) == Parsed(fs[k])
  {
    var before, after := EncodeFrames(crc, fs[..k]), EncodeFrames(crc, fs[k+1..]);
    assert fs == fs[..k] + fs[k..] && fs[k..][1..] == fs[k+1..];
    EncodeConcat(crc, fs[..k], fs[k..]);
    assert fs[..k+1] == fs[..k] + [fs[k]];
    EncodeConcat(crc, fs[..k], [fs[k]]);
    EncodeSingle(crc, fs[k]);
    assert EncodeFrames(crc, fs)[|before|..] == EncodeFrame(crc, fs[k]) + after;
    ParseEncoded(crc, fs[k], after);
  }

  /** The offset past the last frame is the end of the segment. */
  lemma ReadAtEnd(crc: Checksum, fs: seq<Frame>)
    ensures FrameOffset(crc, fs, |fs|) == |SegmentBytes(crc, fs)|
  {
    assert fs[..|fs|] == fs;
  }
}
