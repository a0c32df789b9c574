/**
 * The search-and-rebuild driver of src/Optimizer.js: compress the filtered
 * image data under every parameter set, keep the smallest result, and
 * rebuild the PNG with that result in place of the original IDAT chunks.
 */
module Optimizer {
  import opened Wrappers
  import opened Bytes
  import opened Png
  import opened Parser

  /** One combination of filter, interlace and zlib settings (`Parameters.expand` yields these). */
  datatype Param = Param(filter: int, interlace: int, windowBits: int, level: int, memLevel: int, strategy: int)

  /** The zlib options `compressSync` builds from a parameter set. */
  datatype DeflateOptions = DeflateOptions(windowBits: int, level: int, memLevel: int, strategy: int)

  /** The compressor (`pako.deflate`). */
  type Deflater = seq<Byte> -> seq<Byte>

  /** The CRC of a chunk's type and payload, as `completeChunk` computes it. */
  type Crc = seq<Byte> -> Word32

  /**
   * The image once `unfilter`, `opaque`, `grayScale` and `filterAll` have
   * run: its chunk list and the refiltered data for each filter number.
   */
  datatype Prepared = Prepared(chunks: seq<Chunk>, refiltered: map<int, seq<Byte>>)

  /**
   * The transforms of the Image module, from the parsed image to the prepared
   * one; None stands for an error they throw (a scanline with an unknown
   * filter type, say).
   */
  type Preparer = Image -> Option<Prepared>

  /**
   * Why `bufferSync` throws: `parse` failed, the image transforms after it
   * did, or expanding the parameter matrices did (a ConfigError).
   */
  datatype OptimizeError = ParseFailed(error: ParseError) | PrepareFailed | ConfigFailed

  /** The running minimum: `minSize` (None for Infinity), `bestData` and `bestParam`. */
  datatype Best = Best(minSize: Option<nat>, data: Option<seq<Byte>>, param: Option<Param>)

  /** The running minimum before any parameter set has been tried. */
  const Initial := Best(None, None, None)

  /** The option object of `compressSync`: the zlib fields of the parameter set. */
  function OptionsOf(p: Param): (o: DeflateOptions)
    ensures o.windowBits == p.windowBits && o.level == p.level
    ensures o.memLevel == p.memLevel && o.strategy == p.strategy
  {
    DeflateOptions(p.windowBits, p.level, p.memLevel, p.strategy)
  }

  /** `deflateSync(buf, opts)`: the options are accepted and not passed on. */
  function DeflateSync(deflate: Deflater, data: seq<Byte>, opts: DeflateOptions): (r: seq<Byte>)
    ensures r == deflate(data)
  {
    deflate(data)
  }

  /** `img.refiltered[filter]`; a missing entry is `undefined`, which deflates as an empty buffer. */
  function FilteredFor(refiltered: map<int, seq<Byte>>, filter: int): (r: seq<Byte>)
    ensures filter in refiltered ==> r == refiltered[filter]
    ensures filter !in refiltered ==> r == []
  {
    if filter in refiltered then refiltered[filter] else []
  }

  /**
   * The compressed data for one parameter set: the compressor applied to the
   * refiltered data of its filter, or to the empty buffer when there is none.
   */
  function Compress(deflate: Deflater, refiltered: map<int, seq<Byte>>, p: Param): (r: seq<Byte>)
    ensures p.filter in refiltered ==> r == deflate(refiltered[p.filter])
    ensures p.filter !in refiltered ==> r == deflate([])
  {
    DeflateSync(deflate, FilteredFor(refiltered, p.filter), OptionsOf(p))
  }

  /** The compressed size can only depend on the filter: the zlib options never reach the compressor. */
  lemma OptionsIgnored(deflate: Deflater, refiltered: map<int, seq<Byte>>, p: Param, q: Param)
    requires p.filter == q.filter
    ensures Compress(deflate, refiltered, p) == Compress(deflate, refiltered, q)
  {
  }

  /**
   * The update `compressSync` makes with the compressed data of `p`: the new
   * data and parameters replace the best only when strictly smaller.
   */
  function Improve(b: Best, p: Param, compressed: seq<Byte>): (r: Best)
    ensures r.minSize.Some?
    ensures b.minSize.Some? ==> r.minSize.value <= b.minSize.value
    ensures r == b <==> b.minSize.Some? && b.minSize.value <= |compressed|
    ensures r != b ==> r == Best(Some(|compressed|), Some(compressed), Some(p))
  {
    if b.minSize.None? || |compressed| < b.minSize.value then Best(Some(|compressed|), Some(compressed), Some(p))
    else b
  }

  /** The running minimum after `forEach(compressSync)` over the parameter sets `ps`, in order. */
  function Search(deflate: Deflater, refiltered: map<int, seq<Byte>>, ps: seq<Param>): (r: Best)
    ensures ps == [] <==> r == Initial
    ensures ps != [] ==>
      && r.minSize.Some? && r.data.Some? && r.param.Some?
      && r.param.value in ps
      && r.data.value == Compress(deflate, refiltered, r.param.value)
      && r.minSize.value == |r.data.value|
    decreases |ps|
  {
    if ps == [] then Initial
    else
      var last := ps[|ps| - 1];
      Improve(Search(deflate, refiltered, ps[..|ps| - 1]), last, Compress(deflate, refiltered, last))
  }

  /** The compressed size under each parameter set. */
  function Sizes(deflate: Deflater, refiltered: map<int, seq<Byte>>, ps: seq<Param>): (s: seq<nat>)
    ensures |s| == |ps| && forall i :: 0 <= i < |ps| ==> s[i] == |Compress(deflate, refiltered, ps[i])|
  {
    seq(|ps|, i requires 0 <= i < |ps| => |Compress(deflate, refiltered, ps[i])|)
  }

  /** The first position of the smallest element. */
  function FirstMin(s: seq<nat>): (k: nat)
    requires s != []
    ensures k < |s|
    ensures forall j :: 0 <= j < |s| ==> s[k] <= s[j]
    ensures forall j :: 0 <= j < k ==> s[k] < s[j]
    decreases |s|
  {
    if |s| == 1 then 0
    else
      var k := FirstMin(s[..|s| - 1]);
      if s[|s| - 1] < s[k] then |s| - 1 else k
  }

  /**
   * After the whole fold the best is the first parameter set whose compressed
   * data is smallest, with that data and its size; with no parameter sets
   * the size stays Infinity and nothing is chosen.
   */
  lemma {:induction false} SearchFindsFirstMinimum(deflate: Deflater, refiltered: map<int, seq<Byte>>, ps: seq<Param>)
    ensures ps == [] ==> Search(deflate, refiltered, ps) == Initial
    ensures ps != [] ==>
      var s := Sizes(deflate, refiltered, ps);
      var k := FirstMin(s);
      Search(deflate, refiltered, ps) == Best(Some(s[k]), Some(Compress(deflate, refiltered, ps[k])), Some(ps[k]))
    decreases |ps|
  {
    if |ps| > 1 {
      var init := ps[..|ps| - 1];
      SearchFindsFirstMinimum(deflate, refiltered, init);
      assert Sizes(deflate, refiltered, ps)[..|ps| - 1] == Sizes(deflate, refiltered, init);
    }
  }

  /** The fold never lets `minSize` grow: a longer list ends with a size no larger. */
  lemma {:induction false} SearchNeverIncreases(deflate: Deflater, refiltered: map<int, seq<Byte>>, ps: seq<Param>, n: nat)
    requires n <= |ps| && Search(deflate, refiltered, ps[..n]).minSize.Some?
    ensures Search(deflate, refiltered, ps).minSize.Some?
    ensures Search(deflate, refiltered, ps).minSize.value <= Search(deflate, refiltered, ps[..n]).minSize.value
    decreases |ps| - n
  {
    if n < |ps| {
      assert ps[..n + 1][..n] == ps[..n];
      SearchNeverIncreases(deflate, refiltered, ps, n + 1);
    } else {
      assert ps[..n] == ps;
    }
  }

  /** `options.maxIdatLength || 0x7fffffff`: an unset or zero limit means 2^31 - 1 bytes. */
  function MaxLength(maxIdatLength: nat): (m: nat)
    ensures m > 0
    ensures maxIdatLength > 0 ==> m == maxIdatLength
    ensures maxIdatLength == 0 ==> m == 0x7fff_ffff
  {
    if maxIdatLength == 0 then 0x7fff_ffff else maxIdatLength
  }

  /** The slices `bestData.slice(start, end)` of the split loop, `end = min(start + m, length)`. */
  function Split(d: seq<Byte>, m: nat): (r: seq<seq<Byte>>)
    requires m > 0
    ensures |d| <= |r| * m
    ensures d != [] ==> (|r| - 1) * m < |d|
    decreases |d|
  {
    if d == [] then []
    else
      var end := if m < |d| then m else |d|;
      var rest := Split(d[end..], m);
      assert (|rest| + 1) * m == |rest| * m + m;
      [d[..end]] + rest
  }

  /** The pieces concatenate back to the data. */
  lemma {:induction false} SplitFlattens(d: seq<Byte>, m: nat)
    requires m > 0
    ensures Flatten(Split(d, m)) == d
    decreases |d|
  {
    if d != [] {
      var end := if m < |d| then m else |d|;
      SplitFlattens(d[end..], m);
      assert d == d[..end] + d[end..];
    }
  }

  /** From `start` on, the split loop cuts one piece of at most `m` bytes and goes on from its end. */
  lemma SplitFrom(d: seq<Byte>, start: nat, m: nat)
    requires m > 0 && start < |d|
    ensures var end := if start + m < |d| then start + m else |d|;
      Split(d[start..], m) == [d[start..end]] + Split(d[end..], m)
  {
    var end := if start + m < |d| then start + m else |d|;
    assert d[start..][..end - start] == d[start..end];
    assert d[start..][end - start..] == d[end..];
  }

  /** Every piece is non-empty and at most `m` bytes long, so empty data gives no piece. */
  lemma {:induction false} SplitBounded(d: seq<Byte>, m: nat)
    requires m > 0
    ensures d == [] <==> Split(d, m) == []
    ensures forall i :: 0 <= i < |Split(d, m)| ==> 0 < |Split(d, m)[i]| <= m
    decreases |d|
  {
    if d != [] {
      var end := if m < |d| then m else |d|;
      SplitBounded(d[end..], m);
    }
  }

  /** The buffer `buildIDAT` hands to `completeChunk`: eight zero bytes, the payload, four zero bytes. */
  function IdatFrame(p: seq<Byte>): (f: seq<Byte>)
    ensures |f| == |p| + 12 && PayloadOf(f) == p
  {
    var f := Zeros(8) + p + Zeros(4);
    assert f[8..|f| - 4] == p;
    f
  }

  /** The IDAT chunk `buildIDAT(p)` returns. */
  function IdatRecord(crc: Crc, p: seq<Byte>): (r: seq<Byte>)
    ensures |r| == |p| + 12 && TypeOf(r) == IDAT && PayloadOf(r) == p
  {
    CompleteChunk(crc, IDAT, IdatFrame(p))
  }

  /**
   * An IDAT record is a chunk of type IDAT carrying `p`, whose length field
   * holds `|p|` and whose last four bytes hold the CRC of the type and `p`;
   * it is well framed when `|p|` is below 2^31.
   */
  lemma IdatRecordShape(crc: Crc, p: seq<Byte>)
    ensures |IdatRecord(crc, p)| == |p| + 12
    ensures TypeOf(IdatRecord(crc, p)) == IDAT && PayloadOf(IdatRecord(crc, p)) == p
    ensures |p| < LENGTH_LIMIT ==> ReadU32(IdatRecord(crc, p), 0) == |p| && WellFramed(IdatRecord(crc, p))
    ensures ReadU32(IdatRecord(crc, p), |p| + 8) == crc(IDAT.Bytes() + p)
  {
  }

  /** The IDAT records for the pieces, in order. */
  function IdatRecords(crc: Crc, ps: seq<seq<Byte>>): (rs: seq<seq<Byte>>)
    ensures |rs| == |ps|
  {
    if ps == [] then [] else [IdatRecord(crc, ps[0])] + IdatRecords(crc, ps[1..])
  }

  /** The chunks of the list that are not IDAT, in order. */
  function NonIdat(cs: seq<Chunk>): (r: seq<Chunk>)
    ensures |r| <= |cs|
  {
    if cs == [] then []
    else (if cs[0].typ != IDAT then [cs[0]] else []) + NonIdat(cs[1..])
  }

  /**
   * The buffers the chunk loop of `buildPNG` pushes: each non-IDAT chunk as it
   * is; at an IDAT chunk while `best` holds data, the records of its pieces,
   * after which `best` is cleared; nothing for any other IDAT chunk.
   */
  function Emit(crc: Crc, cs: seq<Chunk>, best: Option<seq<Byte>>, m: nat): (r: seq<seq<Byte>>)
    requires m > 0
    ensures |NonIdat(cs)| <= |r|
    ensures best.None? ==> |r| == |NonIdat(cs)|
  {
    if cs == [] then []
    else if cs[0].typ != IDAT then [cs[0].data] + Emit(crc, cs[1..], best, m)
    else if best.Some? then IdatRecords(crc, Split(best.value, m)) + Emit(crc, cs[1..], None, m)
    else Emit(crc, cs[1..], None, m)
  }

  /** The output of `buildPNG`: the signature followed by the emitted buffers. */
  function Rebuild(crc: Crc, cs: seq<Chunk>, best: Option<seq<Byte>>, m: nat): (r: seq<Byte>)
    requires m > 0
    ensures |r| >= 8 && r[..8] == SIGNATURE
  {
    assert ([SIGNATURE] + Emit(crc, cs, best, m))[1..] == Emit(crc, cs, best, m);
    Flatten([SIGNATURE] + Emit(crc, cs, best, m))
  }

  /** Without data to place, every IDAT chunk is dropped and the others are copied in order. */
  lemma {:induction false} EmitWithoutData(crc: Crc, cs: seq<Chunk>, m: nat)
    requires m > 0
    ensures Emit(crc, cs, None, m) == Datas(NonIdat(cs))
  {
    if cs != [] {
      EmitWithoutData(crc, cs[1..], m);
      if cs[0].typ != IDAT {
        assert ([cs[0]] + NonIdat(cs[1..]))[1..] == NonIdat(cs[1..]);
      } else {
        assert NonIdat(cs) == NonIdat(cs[1..]);
      }
    }
  }

  /** Before the first IDAT chunk, every chunk is copied as it is. */
  lemma {:induction false} EmitPrefix(crc: Crc, cs: seq<Chunk>, best: Option<seq<Byte>>, m: nat, k: nat)
    requires m > 0 && k <= |cs|
    requires forall j :: 0 <= j < k ==> cs[j].typ != IDAT
    ensures Emit(crc, cs, best, m) == Datas(cs[..k]) + Emit(crc, cs[k..], best, m)
    decreases k
  {
    if k > 0 {
      EmitPrefix(crc, cs[1..], best, m, k - 1);
      assert cs[1..][..k - 1] == cs[..k][1..];
      assert cs[1..][k - 1..] == cs[k..];
      assert Emit(crc, cs, best, m) == [cs[0].data] + Emit(crc, cs[1..], best, m);
      assert Datas(cs[..k]) == [cs[0].data] + Datas(cs[..k][1..]);
      AppendAssoc([cs[0].data], Datas(cs[..k][1..]), Emit(crc, cs[k..], best, m));
    } else {
      assert cs[..k] == [] && cs[k..] == cs;
    }
  }

  /**
   * With data to place, the output holds the chunks before the first IDAT
   * chunk, then the records of the pieces in its place, then the non-IDAT
   * chunks after it: every later IDAT chunk is dropped.
   */
  lemma EmitReplacesFirstIdat(crc: Crc, cs: seq<Chunk>, d: seq<Byte>, m: nat, k: nat)
    requires m > 0 && k < |cs| && cs[k].typ == IDAT
    requires forall j :: 0 <= j < k ==> cs[j].typ != IDAT
    ensures Emit(crc, cs, Some(d), m) == Datas(cs[..k]) + IdatRecords(crc, Split(d, m)) + Datas(NonIdat(cs[k + 1..]))
  {
    EmitPrefix(crc, cs, Some(d), m, k);
    assert cs[k..][1..] == cs[k + 1..];
    EmitWithoutData(crc, cs[k + 1..], m);
  }

  /** Without any IDAT chunk, every chunk is copied as it is. */
  lemma EmitWithoutIdat(crc: Crc, cs: seq<Chunk>, best: Option<seq<Byte>>, m: nat)
    requires m > 0
    requires forall j :: 0 <= j < |cs| ==> cs[j].typ != IDAT
    ensures Emit(crc, cs, best, m) == Datas(cs)
  {
    EmitPrefix(crc, cs, best, m, |cs|);
    assert cs[..|cs|] == cs;
  }

  /**
   * An `Optimizer` object: its settings (the IDAT limit, the parameter sets,
   * the compressor and inflater, the CRC and the image transforms) and the
   * fields `bufferSync` fills in. `paramSets` is what `this.paramSets()`
   * returns; None stands for the ConfigError that expanding the matrices throws.
   */
  class PngOptimizer {
    const maxIdatLength: nat
    const paramSets: Option<seq<Param>>
    const deflate: Deflater
    const inflate: Inflater
    const crc: Crc
    const prepare: Preparer
    var img: Option<Prepared>
    var minSize: Option<nat>
    var bestData: Option<seq<Byte>>
    var bestParam: Option<Param>

    /** `new Optimizer(options)`: no image yet, nothing compressed. */
    constructor (maxIdatLength: nat, paramSets: Option<seq<Param>>, deflate: Deflater, inflate: Inflater, crc: Crc, prepare: Preparer)
      ensures this.maxIdatLength == maxIdatLength && this.paramSets == paramSets
      ensures this.deflate == deflate && this.inflate == inflate && this.crc == crc && this.prepare == prepare
      ensures img == None && Current() == Initial
    {
      this.maxIdatLength := maxIdatLength;
      this.paramSets := paramSets;
      this.deflate := deflate;
      this.inflate := inflate;
      this.crc := crc;
      this.prepare := prepare;
      img := None;
      minSize, bestData, bestParam := None, None, None;
    }

    /** The running minimum as a value. */
    function Current(): Best
      reads this
    {
      Best(minSize, bestData, bestParam)
    }

    /** `compressSync(param)`: compress the data refiltered for `param` and keep it if strictly smaller. */
    method CompressSync(p: Param)
      requires img.Some?
      modifies this`minSize, this`bestData, this`bestParam
      ensures Current() == Improve(old(Current()), p, Compress(deflate, img.value.refiltered, p))
    {
      var opts := OptionsOf(p);
      var data := FilteredFor(img.value.refiltered, p.filter);
      var compressed := DeflateSync(deflate, data, opts);
      if minSize.None? || |compressed| < minSize.value {
        minSize := Some(|compressed|);
        bestData := Some(compressed);
        bestParam := Some(p);
      }
    }

    /** `buildIDAT(data)`: allocate `|data| + 12` zero bytes, copy the payload to offset 8, frame it. */
    method BuildIdat(data: seq<Byte>) returns (chunk: seq<Byte>)
      ensures chunk == IdatRecord(crc, data)
    {
      var buf := new Byte[|data| + 12](_ => 0);
      for i := 0 to |data|
        invariant forall j :: 0 <= j < buf.Length ==> buf[j] == if 8 <= j < 8 + i then data[j - 8] else 0
      {
        buf[8 + i] := data[i];
      }
      assert buf[..] == IdatFrame(data);
      chunk := CompleteChunk(crc, IDAT, buf[..]);
    }

    /** The inner loop of `buildPNG`: push one IDAT chunk per slice of at most `m` bytes of `d`. */
    method PushIdats(pieces: seq<seq<Byte>>, d: seq<Byte>, m: nat) returns (out: seq<seq<Byte>>)
      requires m > 0
      ensures out == pieces + IdatRecords(crc, Split(d, m))
    {
      out := pieces;
      var start := 0;
      while start < |d|
        invariant 0 <= start <= |d|
        invariant out + IdatRecords(crc, Split(d[start..], m)) == pieces + IdatRecords(crc, Split(d, m))
        decreases |d| - start
      {
        var end := if start + m < |d| then start + m else |d|;
        var record := BuildIdat(d[start..end]);
        SplitFrom(d, start, m);
        AppendAssoc(out, [record], IdatRecords(crc, Split(d[end..], m)));
        out := out + [record];
        start := end;
      }
      assert d[start..] == [];
    }

    /** `buildPNG()`: the signature, the non-IDAT chunks, and the best data split into IDAT chunks at the first IDAT. */
    method BuildPng() returns (out: seq<Byte>)
      requires img.Some?
      ensures out == Rebuild(crc, img.value.chunks, bestData, MaxLength(maxIdatLength))
    {
      var cs := img.value.chunks;
      var m := MaxLength(maxIdatLength);
      var pieces := [SIGNATURE];
      var best := bestData;
      for c := 0 to |cs|
        invariant pieces + Emit(crc, cs[c..], best, m) == [SIGNATURE] + Emit(crc, cs, bestData, m)
      {
        assert cs[c..][1..] == cs[c + 1..];
        var chunk := cs[c];
        if chunk.typ != IDAT {
          AppendAssoc(pieces, [chunk.data], Emit(crc, cs[c + 1..], best, m));
          pieces := pieces + [chunk.data];
        } else if best.Some? {
          var entry := pieces;
          pieces := PushIdats(pieces, best.value, m);
          AppendAssoc(entry, IdatRecords(crc, Split(best.value, m)), Emit(crc, cs[c + 1..], None, m));
          best := None;
        }
      }
      assert cs[|cs|..] == [];
      assert pieces + Emit(crc, [], best, m) == pieces;
      out := Flatten(pieces);
    }

    /**
     * `bufferSync(buf)`: parse with a fresh parser, prepare the image, run
     * `compressSync` over every parameter set, rebuild, and drop the image.
     * A throw from `parse` or from the transforms leaves every field as it was;
     * a throw from expanding the parameter sets comes after the image is stored
     * and the running minimum reset, and leaves them so.
     */
    method BufferSync(buf: seq<Byte>) returns (r: Result<seq<Byte>, OptimizeError>)
      modifies this`img, this`minSize, this`bestData, this`bestParam
      ensures r.Ok? <==>
        && ParseSpec(buf, inflate, None).Ok?
        && prepare(ParseSpec(buf, inflate, None).value).Some?
        && paramSets.Some?
      ensures r.Err? && r.error != ConfigFailed ==> unchanged(this)
      ensures ParseSpec(buf, inflate, None).Err? ==> r == Err(ParseFailed(ParseSpec(buf, inflate, None).error))
      ensures ParseSpec(buf, inflate, None).Ok? && prepare(ParseSpec(buf, inflate, None).value).None? ==> r == Err(PrepareFailed)
      ensures ParseSpec(buf, inflate, None).Ok? && prepare(ParseSpec(buf, inflate, None).value).Some? && paramSets.None? ==>
        && r == Err(ConfigFailed)
        && img == prepare(ParseSpec(buf, inflate, None).value)
        && Current() == Initial
      ensures r.Ok? ==>
        && var p := prepare(ParseSpec(buf, inflate, None).value).value;
        && Current() == Search(deflate, p.refiltered, paramSets.value)
        && r.value == Rebuild(crc, p.chunks, Current().data, MaxLength(maxIdatLength))
        && img == None
    {
      var parser := new PngParser(inflate);
      var parsed := parser.Parse(buf);
      if parsed.Err? {
        return Err(ParseFailed(parsed.error));
      }
      var prepared := prepare(parsed.value);
      if prepared.None? {
        return Err(PrepareFailed);
      }
      var p := prepared.value;
      img := Some(p);
      minSize, bestData, bestParam := None, None, None;
      if paramSets.None? {
        return Err(ConfigFailed);
      }
      var sets := paramSets.value;
      for i := 0 to |sets|
        invariant img == Some(p)
        invariant Current() == Search(deflate, p.refiltered, sets[..i])
      {
        assert sets[..i + 1][..i] == sets[..i];
        CompressSync(sets[i]);
      }
      assert sets[..|sets|] == sets;
      var res := BuildPng();
      img := None;
      r := Ok(res);
    }
  }
}
