/**
 * The chunk layout of a PNG file (section 5.3 of the PNG specification,
 * ISO/IEC 15948): an 8-byte signature followed by chunks, each made of a
 * 4-byte big-endian payload length, a 4-byte type, the payload and a 4-byte CRC.
 */
module Png {
  import opened Wrappers
  import opened Bytes

  /** The PNG signature, 137 80 78 71 13 10 26 10. */
  const SIGNATURE: seq<Byte> := [137, 80, 78, 71, 13, 10, 26, 10]

  /** A four-byte chunk type code. */
  datatype ChunkType = ChunkType(b0: Byte, b1: Byte, b2: Byte, b3: Byte)
  {
    /** The four bytes of the code, in file order. */
    function Bytes(): (s: seq<Byte>)
      ensures |s| == 4
    {
      [b0, b1, b2, b3]
    }
  }

  /** The chunk types the parser dispatches on. */
  const IHDR := ChunkType(73, 72, 68, 82)
  const IDAT := ChunkType(73, 68, 65, 84)
  const IEND := ChunkType(73, 69, 78, 68)

  /** A declared payload length must stay below 2^31. */
  const LENGTH_LIMIT: int := 0x8000_0000

  /** The type of a chunk: its bytes 4..8. */
  function TypeOf(c: seq<Byte>): (t: ChunkType)
    requires 8 <= |c|
    ensures t.Bytes() == c[4..8]
  {
    ChunkType(c[4], c[5], c[6], c[7])
  }

  /** The payload of a chunk: everything between the type and the CRC. */
  function PayloadOf(c: seq<Byte>): (p: seq<Byte>)
    requires 12 <= |c|
    ensures |p| == |c| - 12
  {
    c[8..|c| - 4]
  }

  /** A chunk whose length field is below the limit and matches its size. */
  predicate WellFramed(c: seq<Byte>)
  {
    12 <= |c| && ReadU32(c, 0) < LENGTH_LIMIT && |c| == 12 + ReadU32(c, 0)
  }

  /** Every chunk of the list is well framed. */
  predicate AllWellFramed(fs: seq<seq<Byte>>)
  {
    fs == [] || (WellFramed(fs[0]) && AllWellFramed(fs[1..]))
  }

  /**
   * Reference splitter: the chunks that tile `buf[pos..]`, or None when the
   * bytes from `pos` on are not a sequence of well-framed chunks.
   */
  function Frames(buf: seq<Byte>, pos: nat): (r: Option<seq<seq<Byte>>>)
    requires pos <= |buf|
    ensures r.Some? ==> AllWellFramed(r.value)
    decreases |buf| - pos
  {
    if pos == |buf| then Some([])
    else if pos + 12 > |buf| then None
    else
      var n := ReadU32(buf, pos);
      if n >= LENGTH_LIMIT || pos + 12 + n > |buf| then None
      else
        ReadU32Local(buf, pos, buf[pos..pos + 12 + n], 0);
        match Frames(buf, pos + 12 + n)
        case None => None
        case Some(rest) =>
        assert ([buf[pos..pos + 12 + n]] + rest)[1..] == rest;
        Some([buf[pos..pos + 12 + n]] + rest)
  }

  /** The chunks `Frames` finds tile the buffer: together they are exactly `buf[pos..]`. */
  lemma {:induction false} FramesTile(buf: seq<Byte>, pos: nat)
    requires pos <= |buf| && Frames(buf, pos).Some?
    ensures Flatten(Frames(buf, pos).value) == buf[pos..]
    decreases |buf| - pos
  {
    if pos < |buf| {
      var n := ReadU32(buf, pos);
      var fs := Frames(buf, pos).value;
      FramesTile(buf, pos + 12 + n);
      assert fs[0] == buf[pos..pos + 12 + n] && fs[1..] == Frames(buf, pos + 12 + n).value;
      assert buf[pos..] == buf[pos..pos + 12 + n] + buf[pos + 12 + n..];
    }
  }

  /** Conversely, a buffer made of well-framed chunks splits back into exactly those chunks. */
  lemma {:induction false} FramesOfFlatten(buf: seq<Byte>, pos: nat, fs: seq<seq<Byte>>)
    requires pos <= |buf| && buf[pos..] == Flatten(fs)
    requires AllWellFramed(fs)
    ensures Frames(buf, pos) == Some(fs)
    decreases fs
  {
    if fs == [] {
      assert |buf[pos..]| == 0;
    } else {
      var f, rest := fs[0], fs[1..];
      var next := pos + |f|;
      assert buf[pos..] == f + Flatten(rest);
      assert buf[pos..next] == f;
      assert buf[next..] == Flatten(rest);
      ReadU32Local(buf, pos, f, 0);
      FramesOfFlatten(buf, next, rest);
      assert Frames(buf, pos).value == [f] + rest;
      assert fs == [f] + rest;
    }
  }

  /**
   * `Image.prototype.completeChunk(type, buf)` as the PNG layout requires it:
   * the length field holds the payload size, bytes 4..8 the type, the payload
   * is kept, and the last four bytes hold `crc` of type and payload. The
   * length field keeps the low 32 bits of the size.
   */
  function CompleteChunk(crc: seq<Byte> -> Word32, typ: ChunkType, buf: seq<Byte>): (c: seq<Byte>)
    requires 12 <= |buf|
    ensures |c| == |buf| && TypeOf(c) == typ && PayloadOf(c) == PayloadOf(buf)
    ensures ReadU32(c, 0) == (|buf| - 12) % 0x1_0000_0000
    ensures ReadU32(c, |c| - 4) == crc(typ.Bytes() + PayloadOf(buf))
  {
    var payload := PayloadOf(buf);
    var tail := EncodeU32(crc(typ.Bytes() + payload));
    var c := EncodeU32((|buf| - 12) % 0x1_0000_0000) + typ.Bytes() + payload + tail;
    assert c[..4] == EncodeU32((|buf| - 12) % 0x1_0000_0000);
    ReadU32Local(c, 0, c[..4], 0);
    assert c[4..8] == typ.Bytes();
    assert c[8..|c| - 4] == payload;
    assert c[|c| - 4..] == tail;
    ReadU32Local(c, |c| - 4, tail, 0);
    c
  }
}
