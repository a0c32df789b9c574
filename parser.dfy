/**
 * The chunk parser and structural validator of src/Parser.js: split a PNG
 * buffer into chunks, validate IHDR and IEND, require IHDR first and IEND
 * last, collect the IDAT payloads and inflate their concatenation.
 */
module Parser {
  import opened Wrappers
  import opened Bytes
  import opened Png

  /** The errors `parse` throws, one per distinct message. */
  datatype ParseError =
    | TooShort
    | SignatureMissing
    | IncompleteChunk(offset: nat)
    | ChunkTooLong
    | IhdrLength
    | UnsupportedBitDepth(bitDepth: Byte)
    | UnsupportedColorType(colorType: Byte)
    | SubByteMultiSample
    | MultiBytePalette
    | UnsupportedCompression(compressionMethod: Byte)
    | UnsupportedFilter(filterMethod: Byte)
    | Interlaced
    | IendLength
    | FewerThanTwoChunks
    | NoLeadingIhdr
    | NoTrailingIend
    | NoIdat
    | InflateFailed

  /** The IHDR fields (section 11.2.2 of the PNG specification). */
  datatype Header = Header(width: Word32, height: Word32, bitDepth: Byte, colorType: Byte,
                           compressionMethod: Byte, filterMethod: Byte, interlaceMethod: Byte)

  /** An entry of the parser's chunk list: the type and the whole chunk, framing and CRC included. */
  datatype Chunk = Chunk(typ: ChunkType, data: seq<Byte>)

  /** The whole bytes of each chunk of a chunk list. */
  function Datas(cs: seq<Chunk>): (ds: seq<seq<Byte>>)
    ensures |ds| == |cs| && forall i :: 0 <= i < |cs| ==> ds[i] == cs[i].data
  {
    if cs == [] then [] else [cs[0].data] + Datas(cs[1..])
  }

  /** What `parse` hands to the Image constructor: the header, every chunk, the inflated pixel stream. */
  datatype Image = Image(hdr: Header, chunks: seq<Chunk>, idat: seq<Byte>)

  /** The inflater (`pako.inflate`); None stands for a thrown decompression error. */
  type Inflater = seq<Byte> -> Option<seq<Byte>>

  /** Table 11.1 of the PNG specification: the bit depths each colour type allows. */
  predicate PermittedDepth(colorType: int, bitDepth: int)
  {
    || (colorType == 0 && bitDepth in {1, 2, 4, 8, 16})
    || (colorType == 3 && bitDepth in {1, 2, 4, 8})
    || (colorType in {2, 4, 6} && bitDepth in {8, 16})
  }

  /** The seven IHDR fields at their offsets in the chunk. */
  function ReadHeader(c: seq<Byte>): (h: Header)
    requires 21 <= |c|
    ensures EncodeU32(h.width) == c[8..12] && EncodeU32(h.height) == c[12..16]
    ensures [h.bitDepth, h.colorType, h.compressionMethod, h.filterMethod, h.interlaceMethod] == c[16..21]
  {
    ReadU32Determines(c, 8, EncodeU32(ReadU32(c, 8)));
    ReadU32Determines(c, 12, EncodeU32(ReadU32(c, 12)));
    Header(ReadU32(c, 8), ReadU32(c, 12), c[16], c[17], c[18], c[19], c[20])
  }

  /** `handle_IHDR`: the header of a valid IHDR chunk, or the first check it fails. */
  function HandleIhdr(c: seq<Byte>): (r: Result<Header, ParseError>)
    ensures r.Ok? <==> |c| == 25 && PermittedDepth(c[17], c[16]) && c[18] == 0 && c[19] == 0 && c[20] == 0
    ensures r.Ok? ==> |c| == 25 && r.value == ReadHeader(c)
    ensures |c| != 25 ==> r == Err(IhdrLength)
    ensures |c| == 25 && c[16] !in {1, 2, 4, 8, 16} ==> r == Err(UnsupportedBitDepth(c[16]))
    ensures |c| == 25 && c[16] in {1, 2, 4, 8, 16} && c[17] !in {0, 2, 3, 4, 6} ==> r == Err(UnsupportedColorType(c[17]))
  {
    if |c| != 25 then Err(IhdrLength)
    else
      var h := ReadHeader(c);
      if h.bitDepth !in {1, 2, 4, 8, 16} then Err(UnsupportedBitDepth(h.bitDepth))
      else if h.colorType !in {0, 2, 3, 4, 6} then Err(UnsupportedColorType(h.colorType))
      else if h.colorType !in {0, 3} && h.bitDepth < 8 then Err(SubByteMultiSample)
      else if h.colorType == 3 && h.bitDepth > 8 then Err(MultiBytePalette)
      else if h.compressionMethod != 0 then Err(UnsupportedCompression(h.compressionMethod))
      else if h.filterMethod != 0 then Err(UnsupportedFilter(h.filterMethod))
      else if h.interlaceMethod != 0 then Err(Interlaced)
      else Ok(h)
  }

  /** `handle_IEND`: IEND must carry no payload (section 11.2.5 of the PNG specification). */
  function HandleIend(c: seq<Byte>): (r: Outcome<ParseError>)
    requires 12 <= |c|
    ensures r.Pass? <==> PayloadOf(c) == []
    ensures r.Fail? ==> r.error == IendLength
  {
    if |c| != 12 then Fail(IendLength) else Pass
  }

  /** `check`: at least two chunks, IHDR first, IEND last. */
  function Check(chunks: seq<Chunk>): (r: Outcome<ParseError>)
    ensures r.Pass? <==> 2 <= |chunks| && chunks[0].typ == IHDR && chunks[|chunks| - 1].typ == IEND
    ensures |chunks| < 2 ==> r == Fail(FewerThanTwoChunks)
  {
    if |chunks| < 2 then Fail(FewerThanTwoChunks)
    else if chunks[0].typ != IHDR then Fail(NoLeadingIhdr)
    else if chunks[|chunks| - 1].typ != IEND then Fail(NoTrailingIend)
    else Pass
  }

  /** The parser's fields while it walks the buffer: `chunks`, `idat` and `hdr`. */
  datatype Progress = Progress(chunks: seq<Chunk>, idat: seq<seq<Byte>>, hdr: Option<Header>)

  /** Once the first chunk is an accepted IHDR, a header has been recorded. */
  predicate HeaderSeen(st: Progress)
  {
    |st.chunks| > 0 && st.chunks[0].typ == IHDR ==> st.hdr.Some?
  }

  /** `chunk(buf)`: record the chunk, then run the handler its type names, if any. */
  function ChunkStep(st: Progress, c: seq<Byte>): Result<Progress, ParseError>
    requires 12 <= |c|
  {
    var recorded := st.(chunks := st.chunks + [Chunk(TypeOf(c), c)]);
    if TypeOf(c) == IHDR then
      match HandleIhdr(c)
      case Ok(h) => Ok(recorded.(hdr := Some(h)))
      case Err(e) => Err(e)
    else if TypeOf(c) == IEND then
      match HandleIend(c)
      case Pass => Ok(recorded)
      case Fail(e) => Err(e)
    else if TypeOf(c) == IDAT then
      Ok(recorded.(idat := st.idat + [PayloadOf(c)]))
    else
      Ok(recorded)
  }

  /**
   * One chunk step fails exactly when the chunk is an IHDR its handler
   * rejects, with the handler's error, or an IEND with a payload. Otherwise
   * the chunk is recorded with its type, an IDAT payload is collected, an
   * IHDR header replaces the old one, and nothing else changes.
   */
  lemma StepEffect(st: Progress, c: seq<Byte>)
    requires 12 <= |c|
    ensures var r := ChunkStep(st, c);
      && (r.Ok? <==> !(TypeOf(c) == IHDR && HandleIhdr(c).Err?) && !(TypeOf(c) == IEND && HandleIend(c).Fail?))
      && (r.Err? && TypeOf(c) == IHDR ==> r.error == HandleIhdr(c).error)
      && (r.Err? && TypeOf(c) == IEND ==> r.error == IendLength)
      && (r.Ok? ==> r.value.chunks == st.chunks + [Chunk(TypeOf(c), c)])
      && (r.Ok? ==> r.value.idat == st.idat + if TypeOf(c) == IDAT then [PayloadOf(c)] else [])
      && (r.Ok? ==> r.value.hdr == if TypeOf(c) == IHDR then Some(HandleIhdr(c).value) else st.hdr)
  {
  }

  /** The loop of `parse` from offset `pos` on, starting from the fields `st`. */
  function Walk(buf: seq<Byte>, pos: nat, st: Progress): (r: Result<Progress, ParseError>)
    requires pos <= |buf|
    decreases |buf| - pos
  {
    if pos >= |buf| then Ok(st)
    else if pos + 12 > |buf| then Err(IncompleteChunk(pos))
    else
      var len := ReadU32(buf, pos);
      if len >= LENGTH_LIMIT then Err(ChunkTooLong)
      else if pos + 12 + len > |buf| then Err(IncompleteChunk(pos))
      else
        match ChunkStep(st, buf[pos..pos + 12 + len])
        case Err(e) => Err(e)
        case Ok(next) => Walk(buf, pos + 12 + len, next)
  }

  /** A successful walk only appends to the recorded chunks and IDAT payloads. */
  lemma {:induction false} WalkAppends(buf: seq<Byte>, pos: nat, st: Progress)
    requires pos <= |buf| && Walk(buf, pos, st).Ok?
    ensures st.chunks <= Walk(buf, pos, st).value.chunks && st.idat <= Walk(buf, pos, st).value.idat
    decreases |buf| - pos
  {
    if pos < |buf| {
      var len := ReadU32(buf, pos);
      var c := buf[pos..pos + 12 + len];
      var next := ChunkStep(st, c).value;
      assert Walk(buf, pos, st) == Walk(buf, pos + 12 + len, next);
      WalkAppends(buf, pos + 12 + len, next);
      var w := Walk(buf, pos + 12 + len, next).value;
      assert next.chunks[..|st.chunks|] == st.chunks && next.idat[..|st.idat|] == st.idat;
      assert w.chunks[..|next.chunks|] == next.chunks && w.idat[..|next.idat|] == next.idat;
      assert w.chunks[..|st.chunks|] == st.chunks && w.idat[..|st.idat|] == st.idat;
    }
  }

  /** A chunk step keeps a header once the first chunk is an IHDR. */
  lemma StepKeepsHeader(st: Progress, c: seq<Byte>)
    requires 12 <= |c| && HeaderSeen(st) && ChunkStep(st, c).Ok?
    ensures HeaderSeen(ChunkStep(st, c).value)
  {
    if st.chunks == [] {
      assert ChunkStep(st, c).value.chunks[0] == Chunk(TypeOf(c), c);
    } else {
      assert ChunkStep(st, c).value.chunks[0] == st.chunks[0];
    }
  }

  /** The walk keeps a header once the first chunk is an IHDR: the handler that accepts it records one. */
  lemma {:induction false} WalkKeepsHeader(buf: seq<Byte>, pos: nat, st: Progress)
    requires pos <= |buf| && HeaderSeen(st)
    ensures Walk(buf, pos, st).Ok? ==> HeaderSeen(Walk(buf, pos, st).value)
    decreases |buf| - pos
  {
    if pos < |buf| && pos + 12 <= |buf| {
      var len := ReadU32(buf, pos);
      if len < LENGTH_LIMIT && pos + 12 + len <= |buf| {
        var c := buf[pos..pos + 12 + len];
        if ChunkStep(st, c).Ok? {
          StepKeepsHeader(st, c);
          WalkKeepsHeader(buf, pos + 12 + len, ChunkStep(st, c).value);
          assert Walk(buf, pos, st) == Walk(buf, pos + 12 + len, ChunkStep(st, c).value);
        }
      }
    }
  }

  /** What `parse` does after the loop: `check`, require an IDAT, inflate the IDAT stream. */
  function Finish(st: Progress, inflate: Inflater): (r: Result<Image, ParseError>)
    requires HeaderSeen(st)
    ensures r.Ok? <==> Check(st.chunks).Pass? && st.idat != [] && inflate(Flatten(st.idat)).Some?
    ensures r.Ok? ==> st.hdr.Some? && r.value == Image(st.hdr.value, st.chunks, inflate(Flatten(st.idat)).value)
    ensures Check(st.chunks).Fail? ==> r == Err(Check(st.chunks).error)
    ensures Check(st.chunks).Pass? && st.idat == [] ==> r == Err(NoIdat)
  {
    match Check(st.chunks)
    case Fail(e) => Err(e)
    case Pass =>
      if st.idat == [] then Err(NoIdat)
      else
        match inflate(Flatten(st.idat))
        case None => Err(InflateFailed)
        case Some(pixels) => Ok(Image(st.hdr.value, st.chunks, pixels))
  }

  /** The two 32-bit comparisons of `parse` test exactly the 8 signature bytes. */
  lemma SignatureWords(buf: seq<Byte>)
    requires 8 <= |buf|
    ensures (ReadU32(buf, 0) == 0x8950_4e47 && ReadU32(buf, 4) == 0x0d0a_1a0a) <==> buf[..8] == SIGNATURE
  {
    ReadU32Determines(buf, 0, SIGNATURE[..4]);
    ReadU32Determines(buf, 4, SIGNATURE[4..]);
    assert buf[..8] == buf[0..4] + buf[4..8];
    assert SIGNATURE == SIGNATURE[..4] + SIGNATURE[4..];
  }

  /**
   * `parse(buf)` for a parser whose `hdr` field holds `h0` beforehand (the
   * source resets `chunks` and `idat` but not `hdr`).
   */
  function ParseSpec(buf: seq<Byte>, inflate: Inflater, h0: Option<Header>): (r: Result<Image, ParseError>)
    ensures |buf| < 57 ==> r == Err(TooShort)
    ensures 57 <= |buf| && buf[..8] != SIGNATURE ==> r == Err(SignatureMissing)
    ensures r.Ok? ==> 57 <= |buf| && buf[..8] == SIGNATURE
  {
    if |buf| < 57 then Err(TooShort)
    else
      SignatureWords(buf);
      if ReadU32(buf, 0) != 0x8950_4e47 || ReadU32(buf, 4) != 0x0d0a_1a0a then Err(SignatureMissing)
      else
        WalkKeepsHeader(buf, 8, Progress([], [], h0));
        match Walk(buf, 8, Progress([], [], h0))
        case Err(e) => Err(e)
        case Ok(st) => Finish(st, inflate)
  }

  /** A `Parser` object: the fields `parse` fills in, and the inflater it was given. */
  class PngParser {
    var chunks: seq<Chunk>
    var idat: seq<seq<Byte>>
    var hdr: Option<Header>
    const inflate: Inflater

    /** `new Parser()`: no chunks yet and no header. */
    constructor (inflate: Inflater)
      ensures chunks == [] && idat == [] && hdr == None && this.inflate == inflate
    {
      chunks, idat, hdr := [], [], None;
      this.inflate := inflate;
    }

    /** The fields as a value. */
    function State(): Progress
      reads this
    {
      Progress(chunks, idat, hdr)
    }

    /** `handle_IDAT`: append the chunk's payload to `idat`. */
    method HandleIdat(c: seq<Byte>)
      requires 12 <= |c|
      modifies this`idat
      ensures idat == old(idat) + [PayloadOf(c)]
    {
      idat := idat + [c[8..|c| - 4]];
    }

    /** `chunk(buf)`: push the chunk, then dispatch on its type; a thrown error becomes Fail. */
    method AddChunk(c: seq<Byte>) returns (r: Outcome<ParseError>)
      requires 12 <= |c|
      modifies this`chunks, this`idat, this`hdr
      ensures r.Pass? <==> ChunkStep(old(State()), c).Ok?
      ensures r.Pass? ==> State() == ChunkStep(old(State()), c).value
      ensures r.Fail? ==> r.error == ChunkStep(old(State()), c).error
      ensures chunks == old(chunks) + [Chunk(TypeOf(c), c)]
    {
      var typ := ChunkType(c[4], c[5], c[6], c[7]);
      chunks := chunks + [Chunk(typ, c)];
      if typ == IHDR {
        if |c| == 25 {
          // handle_IHDR stores the fields before validating them
          hdr := Some(ReadHeader(c));
        }
        var checked := HandleIhdr(c);
        if checked.Err? {
          return Fail(checked.error);
        }
      } else if typ == IEND {
        r := HandleIend(c);
        return;
      } else if typ == IDAT {
        HandleIdat(c);
      }
      r := Pass;
    }

    /** The `while` loop of `parse`: feed every chunk from offset 8 to `chunk`, stopping at the first error. */
    method WalkChunks(buf: seq<Byte>) returns (r: Outcome<ParseError>)
      requires 8 <= |buf| && HeaderSeen(State())
      modifies this`chunks, this`idat, this`hdr
      ensures r.Pass? <==> Walk(buf, 8, old(State())).Ok?
      ensures r.Pass? ==> State() == Walk(buf, 8, old(State())).value && HeaderSeen(State())
      ensures r.Fail? ==> r.error == Walk(buf, 8, old(State())).error
    {
      ghost var start := State();
      var pos := 8;
      while pos < |buf|
        invariant 8 <= pos <= |buf|
        invariant HeaderSeen(State())
        invariant Walk(buf, 8, start) == Walk(buf, pos, State())
        decreases |buf| - pos
      {
        if pos + 12 > |buf| {
          return Fail(IncompleteChunk(pos));
        }
        var len := ReadU32(buf, pos);
        if len >= LENGTH_LIMIT {
          return Fail(ChunkTooLong);
        }
        var end := pos + 12 + len;
        if end > |buf| {
          return Fail(IncompleteChunk(pos));
        }
        ghost var before := State();
        var outcome := AddChunk(buf[pos..end]);
        if outcome.Fail? {
          assert Walk(buf, pos, before) == Err(outcome.error);
          return outcome;
        }
        StepKeepsHeader(before, buf[pos..end]);
        assert Walk(buf, pos, before) == Walk(buf, end, State());
        pos := end;
      }
      r := Pass;
    }

    /** `parse(buf)`: walk the chunks from offset 8, then check the structure and inflate. */
    method Parse(buf: seq<Byte>) returns (r: Result<Image, ParseError>)
      modifies this`chunks, this`idat, this`hdr
      ensures r == ParseSpec(buf, inflate, old(hdr))
      ensures r.Ok? ==> chunks == [] && idat == [] && hdr == Some(r.value.hdr)
    {
      ghost var h0 := hdr;
      chunks, idat := [], [];
      if |buf| < 57 {
        return Err(TooShort);
      }
      if ReadU32(buf, 0) != 0x8950_4e47 || ReadU32(buf, 4) != 0x0d0a_1a0a {
        return Err(SignatureMissing);
      }
      assert State() == Progress([], [], h0);
      var walked := WalkChunks(buf);
      if walked.Fail? {
        return Err(walked.error);
      }
      assert Finish(State(), inflate) == ParseSpec(buf, inflate, h0);
      var checked := Check(chunks);
      if checked.Fail? {
        return Err(checked.error);
      }
      if |idat| == 0 {
        return Err(NoIdat);
      }
      var pixels := inflate(Flatten(idat));
      if pixels.None? {
        return Err(InflateFailed);
      }
      r := Ok(Image(hdr.value, chunks, pixels.value));
      // the source sets both fields to null to free them
      chunks, idat := [], [];
    }
  }
}
