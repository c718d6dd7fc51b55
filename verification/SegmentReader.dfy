/** Reading a frame from a file whose `read` calls may return short or be interrupted. */
module SegmentReader {
  import opened Codec

  datatype ReadStatus = Full | Partial | Eof

  /**
    Fills a buffer of `want` bytes from `pos`. Each `read` returns any number of
    bytes from 1 up to what is available and asked for, 0 only at the end of the
    file, or is interrupted (`interrupts` bounds how often).
   */
  method ReadFullOrEof(file: seq<Byte>, pos: nat, want: nat, interrupts: nat)
    returns (status: ReadStatus, buf: seq<Byte>)
    ensures status == Full <==> want == 0 || pos + want <= |file|
    ensures status == Eof <==> want > 0 && pos >= |file|
    ensures status == Full ==> |buf| == want && (want > 0 ==> buf == file[pos..pos + want])
    ensures status == Partial ==> buf == file[pos..]
  {
    buf := [];
    var left := interrupts;
    while |buf| < want
      invariant |buf| <= want
      invariant pos < |file| ==> pos + |buf| <= |file| && buf == file[pos..pos + |buf|]
      invariant pos >= |file| ==> buf == []
      decreases want - |buf|, left
    {
      var interrupted: bool := *;
      if interrupted && left > 0 {
        left := left - 1;
        continue;
      }
      if pos + |buf| >= |file| {
        return if buf == [] then Eof else Partial, buf;
      }
      var room, available := want - |buf|, |file| - pos - |buf|;
      var n :| 1 <= n <= room && n <= available;
      buf := buf + file[pos + |buf|..pos + |buf| + n];
    }
    return Full, buf;
  }

  /** What decoding the bytes from `offset` on yields, independently of how they are read. */
  function ParseAt(crc: Checksum, file: seq<Byte>, offset: nat): Parsed {
    ParseFrame(crc, if offset <= |file| then file[offset..] else [])
  }

  /** Whatever the pattern of short reads, the frame read is the one the bytes encode. */
  method ReadFrameAt(crc: Checksum, file: seq<Byte>, offset: nat, interrupts: nat) returns (r: Parsed, next: nat)
    ensures r == ParseAt(crc, file, offset)
    ensures next == if r.Parsed? then offset + FrameLen(|r.frame.payload|) else offset
  {
    var status, header := ReadFullOrEof(file, offset, FRAME_HEADER_LEN, interrupts);
    if status != Full {
      return End, offset;
    }
    ghost var rest := file[offset..];
    assert header == rest[..16];
    assert header[0..4] == rest[0..4] && header[4..8] == rest[4..8] && header[8..16] == rest[8..16];
    WordSizes();
    var len := FromLittleEndian(header[0..4]);
    var expected := FromLittleEndian(header[4..8]);
    var batchSeq: U64 := FromLittleEndian(header[8..16]);
    if len == 0 || len > MAX_FRAME_PAYLOAD {
      return Corrupt, offset;
    }
    var payload;
    status, payload := ReadFullOrEof(file, offset + FRAME_HEADER_LEN, len, interrupts);
    if status != Full {
      return End, offset;
    }
    assert payload == rest[FRAME_HEADER_LEN..FrameLen(len)];
    if crc(payload) != expected {
      return Corrupt, offset;
    }
    return Parsed(Frame(batchSeq, payload)), offset + FrameLen(len);
  }
}
