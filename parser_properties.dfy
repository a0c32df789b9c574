/**
 * A two-pass reading of `parse`: first split the buffer with `Png.Frames`,
 * then apply the handlers. The streaming parser of module Parser accepts
 * exactly the buffers this reading accepts, with the same result.
 */
module ParserProperties {
  import opened Wrappers
  import opened Bytes
  import opened Png
  import opened Parser

  /** Every chunk of the list has room for its length, type and CRC. */
  predicate Framed(fs: seq<seq<Byte>>)
  {
    fs == [] || (12 <= |fs[0]| && Framed(fs[1..]))
  }

  /** Well-framed chunks have room for their framing. */
  lemma {:induction false} WellFramedIsFramed(fs: seq<seq<Byte>>)
    requires AllWellFramed(fs)
    ensures Framed(fs)
  {
    if fs != [] {
      WellFramedIsFramed(fs[1..]);
    }
  }

  /** The handlers have nothing against this chunk. */
  predicate Accepted(c: seq<Byte>)
    requires 12 <= |c|
  {
    && (TypeOf(c) == IHDR ==> HandleIhdr(c).Ok?)
    && (TypeOf(c) == IEND ==> HandleIend(c).Pass?)
  }

  /** Every chunk of the list passes its handler. */
  predicate AllAccepted(fs: seq<seq<Byte>>)
    requires Framed(fs)
  {
    fs == [] || (Accepted(fs[0]) && AllAccepted(fs[1..]))
  }

  /** The chunk list `parse` records for the chunks `fs`. */
  function ChunksOf(fs: seq<seq<Byte>>): (cs: seq<Chunk>)
    requires Framed(fs)
    ensures |cs| == |fs|
  {
    if fs == [] then [] else [Chunk(TypeOf(fs[0]), fs[0])] + ChunksOf(fs[1..])
  }

  /** The payloads of the IDAT chunks among `fs`, in order. */
  function IdatPayloads(fs: seq<seq<Byte>>): seq<seq<Byte>>
    requires Framed(fs)
  {
    if fs == [] then []
    else (if TypeOf(fs[0]) == IDAT then [PayloadOf(fs[0])] else []) + IdatPayloads(fs[1..])
  }

  /** The header of the last valid IHDR chunk among `fs`, or `h` when there is none. */
  function LastHeader(fs: seq<seq<Byte>>, h: Option<Header>): Option<Header>
    requires Framed(fs)
  {
    if fs == [] then h
    else LastHeader(fs[1..], if TypeOf(fs[0]) == IHDR && HandleIhdr(fs[0]).Ok? then Some(HandleIhdr(fs[0]).value) else h)
  }

  /** The chunk list `ChunksOf` builds: each well-framed chunk with the type its bytes 4..8 give. */
  lemma {:induction false} ChunksOfAt(fs: seq<seq<Byte>>)
    requires AllWellFramed(fs)
    ensures Framed(fs) && Datas(ChunksOf(fs)) == fs
    ensures forall i :: 0 <= i < |fs| ==> WellFramed(fs[i]) && ChunksOf(fs)[i] == Chunk(TypeOf(fs[i]), fs[i])
  {
    WellFramedIsFramed(fs);
    if fs != [] {
      ChunksOfAt(fs[1..]);
      assert Datas(ChunksOf(fs)) == [fs[0]] + Datas(ChunksOf(fs[1..]));
    }
  }

  /** Every chunk of `[c] + rest` has room for its framing. */
  lemma FramedCons(c: seq<Byte>, rest: seq<seq<Byte>>)
    requires 12 <= |c| && Framed(rest)
    ensures Framed([c]) && Framed([c] + rest) && ([c] + rest)[1..] == rest
  {
    assert ([c] + rest)[1..] == rest;
    assert [c][1..] == [];
  }

  /** The chunk steps of `parse` applied to the chunks `fs` in order, stopping at the first error. */
  function Replay(st: Progress, fs: seq<seq<Byte>>): Result<Progress, ParseError>
    requires Framed(fs)
    decreases |fs|
  {
    if fs == [] then Ok(st)
    else
      match ChunkStep(st, fs[0])
      case Err(e) => Err(e)
      case Ok(next) => Replay(next, fs[1..])
  }

  /** Where a chunk fits at `pos`, the reference split from `pos` is that chunk followed by the split after it. */
  lemma FramesStep(buf: seq<Byte>, pos: nat)
    requires pos + 12 <= |buf|
    requires ReadU32(buf, pos) < LENGTH_LIMIT && pos + 12 + ReadU32(buf, pos) <= |buf|
    ensures var next := pos + 12 + ReadU32(buf, pos);
      && (Frames(buf, pos).Some? <==> Frames(buf, next).Some?)
      && (Frames(buf, pos).Some? ==> Frames(buf, pos).value == [buf[pos..next]] + Frames(buf, next).value)
  {
  }

  /**
   * The streaming loop is the chunk steps replayed over the reference split:
   * where the buffer splits into chunks the two agree, result and error
   * alike, and where it does not the loop fails.
   */
  lemma {:induction false} WalkIsReplay(buf: seq<Byte>, pos: nat, st: Progress)
    requires pos <= |buf|
    ensures Frames(buf, pos).Some? ==> Framed(Frames(buf, pos).value)
    ensures Frames(buf, pos).Some? ==> Walk(buf, pos, st) == Replay(st, Frames(buf, pos).value)
    ensures Frames(buf, pos).None? ==> Walk(buf, pos, st).Err?
    decreases |buf| - pos
  {
    if Frames(buf, pos).Some? {
      WellFramedIsFramed(Frames(buf, pos).value);
    }
    if pos < |buf| && pos + 12 <= |buf| {
      var len := ReadU32(buf, pos);
      if len < LENGTH_LIMIT && pos + 12 + len <= |buf| {
        var next := pos + 12 + len;
        var c := buf[pos..next];
        FramesStep(buf, pos);
        var rest := if Frames(buf, next).Some? then Frames(buf, next).value else [];
        if Frames(buf, next).Some? {
          FramedCons(c, rest);
          assert ([c] + rest)[0] == c;
        }
        match ChunkStep(st, c)
        case Err(e) =>
          assert Walk(buf, pos, st) == Err(e);
          if Frames(buf, next).Some? {
            assert Replay(st, [c] + rest) == Err(e);
          }
        case Ok(st') =>
          WalkIsReplay(buf, next, st');
          assert Walk(buf, pos, st) == Walk(buf, next, st');
          if Frames(buf, next).Some? {
            assert Replay(st, [c] + rest) == Replay(st', rest);
          }
      }
    }
  }

  /** Replaying succeeds exactly when every chunk passes its handler. */
  lemma {:induction false} ReplayAccepts(st: Progress, fs: seq<seq<Byte>>)
    requires Framed(fs)
    ensures Replay(st, fs).Ok? <==> AllAccepted(fs)
    decreases |fs|
  {
    if fs != [] {
      if ChunkStep(st, fs[0]).Ok? {
        ReplayAccepts(ChunkStep(st, fs[0]).value, fs[1..]);
      }
    }
  }

  /** A successful replay appends one entry per chunk to the chunk list. */
  lemma {:induction false} ReplayChunks(st: Progress, fs: seq<seq<Byte>>)
    requires Framed(fs) && Replay(st, fs).Ok?
    ensures Replay(st, fs).value.chunks == st.chunks + ChunksOf(fs)
    decreases |fs|
  {
    if fs != [] {
      var next := ChunkStep(st, fs[0]).value;
      ReplayChunks(next, fs[1..]);
      assert st.chunks + [Chunk(TypeOf(fs[0]), fs[0])] + ChunksOf(fs[1..]) == st.chunks + ([Chunk(TypeOf(fs[0]), fs[0])] + ChunksOf(fs[1..]));
    }
  }

  /** A successful replay appends the payload of each IDAT chunk, in order. */
  lemma {:induction false} ReplayIdat(st: Progress, fs: seq<seq<Byte>>)
    requires Framed(fs) && Replay(st, fs).Ok?
    ensures Replay(st, fs).value.idat == st.idat + IdatPayloads(fs)
    decreases |fs|
  {
    if fs != [] {
      var next := ChunkStep(st, fs[0]).value;
      ReplayIdat(next, fs[1..]);
      var own := if TypeOf(fs[0]) == IDAT then [PayloadOf(fs[0])] else [];
      assert st.idat + own + IdatPayloads(fs[1..]) == st.idat + (own + IdatPayloads(fs[1..]));
    }
  }

  /** A successful replay ends with the header of the last IHDR chunk. */
  lemma {:induction false} ReplayHeader(st: Progress, fs: seq<seq<Byte>>)
    requires Framed(fs) && Replay(st, fs).Ok?
    ensures Replay(st, fs).value.hdr == LastHeader(fs, st.hdr)
    decreases |fs|
  {
    if fs != [] {
      ReplayHeader(ChunkStep(st, fs[0]).value, fs[1..]);
    }
  }

  /** Success and the error of a replay do not depend on the header it starts with. */
  lemma {:induction false} ReplayErrorIgnoresHeader(s1: Progress, s2: Progress, fs: seq<seq<Byte>>)
    requires Framed(fs) && s1.chunks == s2.chunks && s1.idat == s2.idat
    ensures Replay(s1, fs).Ok? <==> Replay(s2, fs).Ok?
    ensures Replay(s1, fs).Err? ==> Replay(s1, fs).error == Replay(s2, fs).error
    decreases |fs|
  {
    if fs != [] {
      if ChunkStep(s1, fs[0]).Ok? {
        ReplayErrorIgnoresHeader(ChunkStep(s1, fs[0]).value, ChunkStep(s2, fs[0]).value, fs[1..]);
      }
    }
  }

  /** A well-formed PNG buffer for this parser, stated on the reference split. */
  predicate Acceptable(buf: seq<Byte>, inflate: Inflater)
  {
    && 57 <= |buf|
    && buf[..8] == SIGNATURE
    && Frames(buf, 8).Some?
    && var fs := Frames(buf, 8).value;
    && Framed(fs)
    && AllAccepted(fs)
    && Check(ChunksOf(fs)).Pass?
    && IdatPayloads(fs) != []
    && inflate(Flatten(IdatPayloads(fs))).Some?
  }

  /** The loop of `parse`, for a signed buffer that splits into chunks, is the replay of the split. */
  lemma SignedWalk(buf: seq<Byte>, h0: Option<Header>)
    requires 57 <= |buf| && buf[..8] == SIGNATURE
    ensures Frames(buf, 8).Some? ==> Framed(Frames(buf, 8).value)
    ensures Walk(buf, 8, Progress([], [], h0)).Ok? <==> Frames(buf, 8).Some? && AllAccepted(Frames(buf, 8).value)
    ensures Walk(buf, 8, Progress([], [], h0)).Ok? ==>
      var fs := Frames(buf, 8).value;
      var st := Walk(buf, 8, Progress([], [], h0)).value;
      && HeaderSeen(st)
      && st.chunks == ChunksOf(fs)
      && st.idat == IdatPayloads(fs)
      && st.hdr == LastHeader(fs, h0)
  {
    var st0 := Progress([], [], h0);
    WalkIsReplay(buf, 8, st0);
    WalkKeepsHeader(buf, 8, st0);
    if Frames(buf, 8).Some? {
      var fs := Frames(buf, 8).value;
      ReplayAccepts(st0, fs);
      if Replay(st0, fs).Ok? {
        ReplayChunks(st0, fs);
        ReplayIdat(st0, fs);
        ReplayHeader(st0, fs);
      }
    }
  }

  /**
   * `parse` succeeds exactly on acceptable buffers, and returns the chunks of
   * the split, the header of the last IHDR chunk and the inflated
   * concatenation of the IDAT payloads.
   */
  lemma ParseAcceptsExactly(buf: seq<Byte>, inflate: Inflater, h0: Option<Header>)
    ensures ParseSpec(buf, inflate, h0).Ok? <==> Acceptable(buf, inflate)
    ensures ParseSpec(buf, inflate, h0).Ok? ==>
      var fs := Frames(buf, 8).value;
      var img := ParseSpec(buf, inflate, h0).value;
      && img.chunks == ChunksOf(fs)
      && Some(img.hdr) == LastHeader(fs, h0)
      && Some(img.idat) == inflate(Flatten(IdatPayloads(fs)))
  {
    if 57 <= |buf| {
      SignatureWords(buf);
      if buf[..8] == SIGNATURE {
        SignedWalk(buf, h0);
      }
    }
  }

  /** The chunks of a parsed file, with the signature before them, are the whole file. */
  lemma ParsedChunksTileFile(buf: seq<Byte>, inflate: Inflater, h0: Option<Header>)
    requires ParseSpec(buf, inflate, h0).Ok?
    ensures var cs := ParseSpec(buf, inflate, h0).value.chunks;
      && buf == SIGNATURE + Flatten(Datas(cs))
      && forall i :: 0 <= i < |cs| ==> WellFramed(cs[i].data) && cs[i].typ == TypeOf(cs[i].data)
  {
    ParseAcceptsExactly(buf, inflate, h0);
    var fs := Frames(buf, 8).value;
    var cs := ParseSpec(buf, inflate, h0).value.chunks;
    assert cs == ChunksOf(fs);
    FramesTile(buf, 8);
    ChunksOfAt(fs);
    assert Datas(cs) == fs;
    assert buf[..8] == SIGNATURE && buf[8..] == Flatten(fs);
    assert buf == buf[..8] + buf[8..];
  }

  /** Once an accepted IHDR has been seen, the remembered header stays present. */
  lemma {:induction false} LastHeaderKeepsSome(fs: seq<seq<Byte>>, h: Header)
    requires Framed(fs)
    ensures LastHeader(fs, Some(h)).Some?
  {
    if fs != [] {
      var c := fs[0];
      if TypeOf(c) == IHDR && HandleIhdr(c).Ok? {
        LastHeaderKeepsSome(fs[1..], HandleIhdr(c).value);
      } else {
        LastHeaderKeepsSome(fs[1..], h);
      }
    }
  }

  /** A list that starts with an accepted IHDR chunk forgets the header it started from. */
  lemma LeadingIhdrResets(fs: seq<seq<Byte>>, h1: Option<Header>, h2: Option<Header>)
    requires Framed(fs) && fs != [] && TypeOf(fs[0]) == IHDR && AllAccepted(fs)
    ensures LastHeader(fs, h1) == LastHeader(fs, h2)
  {
  }

  /**
   * The `hdr` a parser object keeps from an earlier call never shows in the
   * result: a successful parse starts with an IHDR that replaces it.
   */
  lemma ParseIgnoresStaleHeader(buf: seq<Byte>, inflate: Inflater, h1: Option<Header>, h2: Option<Header>)
    ensures ParseSpec(buf, inflate, h1) == ParseSpec(buf, inflate, h2)
  {
    if 57 <= |buf| {
      SignatureWords(buf);
      if buf[..8] == SIGNATURE {
        var s1, s2 := Progress([], [], h1), Progress([], [], h2);
        WalkIsReplay(buf, 8, s1);
        WalkIsReplay(buf, 8, s2);
        WalkErrorIgnoresHeader(buf, 8, s1, s2);
        if Frames(buf, 8).Some? {
          var fs := Frames(buf, 8).value;
          ReplayErrorIgnoresHeader(s1, s2, fs);
          if Replay(s1, fs).Ok? {
            SignedWalk(buf, h1);
            SignedWalk(buf, h2);
            if Check(ChunksOf(fs)).Pass? {
              ChunksOfAt(fs);
              LeadingIhdrResets(fs, h1, h2);
            }
          }
        }
      }
    }
  }

  /** A chunk step fails in the same way and records the same chunks and payloads whatever header it starts with. */
  lemma StepIgnoresHeader(s1: Progress, s2: Progress, c: seq<Byte>)
    requires 12 <= |c| && s1.chunks == s2.chunks && s1.idat == s2.idat
    ensures ChunkStep(s1, c).Ok? <==> ChunkStep(s2, c).Ok?
    ensures ChunkStep(s1, c).Err? ==> ChunkStep(s1, c).error == ChunkStep(s2, c).error
    ensures ChunkStep(s1, c).Ok? ==>
      && ChunkStep(s1, c).value.chunks == ChunkStep(s2, c).value.chunks
      && ChunkStep(s1, c).value.idat == ChunkStep(s2, c).value.idat
  {
  }

  /** The walk's success and its error do not depend on the header it started with. */
  lemma {:induction false} WalkErrorIgnoresHeader(buf: seq<Byte>, pos: nat, s1: Progress, s2: Progress)
    requires pos <= |buf| && s1.chunks == s2.chunks && s1.idat == s2.idat
    ensures Walk(buf, pos, s1).Ok? <==> Walk(buf, pos, s2).Ok?
    ensures Walk(buf, pos, s1).Err? ==> Walk(buf, pos, s1).error == Walk(buf, pos, s2).error
    decreases |buf| - pos
  {
    if pos < |buf| && pos + 12 <= |buf| {
      var len := ReadU32(buf, pos);
      if len < LENGTH_LIMIT && pos + 12 + len <= |buf| {
        var c := buf[pos..pos + 12 + len];
        StepIgnoresHeader(s1, s2, c);
        if ChunkStep(s1, c).Ok? {
          var n1, n2 := ChunkStep(s1, c).value, ChunkStep(s2, c).value;
          WalkErrorIgnoresHeader(buf, pos + 12 + len, n1, n2);
          assert Walk(buf, pos, s1) == Walk(buf, pos + 12 + len, n1);
          assert Walk(buf, pos, s2) == Walk(buf, pos + 12 + len, n2);
        } else {
          assert Walk(buf, pos, s1) == Err(ChunkStep(s1, c).error);
          assert Walk(buf, pos, s2) == Err(ChunkStep(s2, c).error);
        }
      }
    }
  }
}
