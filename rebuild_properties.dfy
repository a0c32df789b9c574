/**
 * What `buildPNG` produces, read back with the chunk splitter of the parser:
 * the rebuilt file is again a signature followed by well-framed chunks, and
 * its IDAT payloads join up to exactly the compressed data that was placed.
 */
module RebuildProperties {
  import opened Wrappers
  import opened Bytes
  import opened Png
  import opened Parser
  import opened ParserProperties
  import opened Optimizer

  /** Every chunk carries well-framed bytes and the type its bytes 4..8 name, as `parse` leaves them. */
  predicate WellTyped(cs: seq<Chunk>)
  {
    forall i :: 0 <= i < |cs| ==> WellFramed(cs[i].data) && cs[i].typ == TypeOf(cs[i].data)
  }

  /** The list holds an IDAT chunk, where `buildPNG` places its data. */
  predicate HasIdat(cs: seq<Chunk>)
  {
    cs != [] && (cs[0].typ == IDAT || HasIdat(cs[1..]))
  }

  /** Two lists of well-framed chunks stay well framed when joined, and their IDAT payloads join too. */
  lemma {:induction false} FramedAppend(a: seq<seq<Byte>>, b: seq<seq<Byte>>)
    requires AllWellFramed(a) && AllWellFramed(b)
    ensures AllWellFramed(a + b) && Framed(a + b) && Framed(a) && Framed(b)
    ensures IdatPayloads(a + b) == IdatPayloads(a) + IdatPayloads(b)
    decreases |a|
  {
    WellFramedIsFramed(b);
    if a == [] {
      assert a + b == b;
    } else {
      FramedAppend(a[1..], b);
      assert (a + b)[1..] == a[1..] + b;
      WellFramedIsFramed(a + b);
      WellFramedIsFramed(a);
      var head := if TypeOf(a[0]) == IDAT then [PayloadOf(a[0])] else [];
      assert IdatPayloads(a + b) == head + IdatPayloads(a[1..] + b);
      AppendAssoc(head, IdatPayloads(a[1..]), IdatPayloads(b));
    }
  }

  /** IDAT records of pieces below 2^31 bytes are well framed, and reading their payloads gives the pieces back. */
  lemma {:induction false} RecordsRoundTrip(crc: Crc, ps: seq<seq<Byte>>)
    requires forall i :: 0 <= i < |ps| ==> |ps[i]| < LENGTH_LIMIT
    ensures AllWellFramed(IdatRecords(crc, ps)) && Framed(IdatRecords(crc, ps))
    ensures IdatPayloads(IdatRecords(crc, ps)) == ps
    decreases |ps|
  {
    var rs := IdatRecords(crc, ps);
    if ps != [] {
      RecordsRoundTrip(crc, ps[1..]);
      IdatRecordShape(crc, ps[0]);
      assert rs[0] == IdatRecord(crc, ps[0]) && rs[1..] == IdatRecords(crc, ps[1..]);
      WellFramedIsFramed(rs);
      assert IdatPayloads(rs) == [ps[0]] + IdatPayloads(rs[1..]);
      assert ps == [ps[0]] + ps[1..];
    }
  }

  /** The pieces of the split loop, for a limit below 2^31, become well-framed records carrying the whole data. */
  lemma SplitRecordsRoundTrip(crc: Crc, d: seq<Byte>, m: nat)
    requires 0 < m < LENGTH_LIMIT
    ensures AllWellFramed(IdatRecords(crc, Split(d, m))) && Framed(IdatRecords(crc, Split(d, m)))
    ensures Flatten(IdatPayloads(IdatRecords(crc, Split(d, m)))) == d
  {
    SplitBounded(d, m);
    RecordsRoundTrip(crc, Split(d, m));
    SplitFlattens(d, m);
  }

  /**
   * From well-typed chunks and a limit below 2^31, the emitted buffers are
   * well-framed chunks, and their IDAT payloads join to the placed data when
   * there is data and an IDAT chunk to put it at, and to nothing otherwise.
   */
  lemma {:induction false} EmitRoundTrip(crc: Crc, cs: seq<Chunk>, best: Option<seq<Byte>>, m: nat)
    requires 0 < m < LENGTH_LIMIT && WellTyped(cs)
    ensures AllWellFramed(Emit(crc, cs, best, m)) && Framed(Emit(crc, cs, best, m))
    ensures Flatten(IdatPayloads(Emit(crc, cs, best, m))) == if best.Some? && HasIdat(cs) then best.value else []
    decreases |cs|
  {
    var e := Emit(crc, cs, best, m);
    if cs == [] {
      assert e == [];
    } else {
      var c := cs[0];
      assert WellTyped(cs[1..]) by {
        forall i | 0 <= i < |cs[1..]|
          ensures WellFramed(cs[1..][i].data) && cs[1..][i].typ == TypeOf(cs[1..][i].data)
        {
          assert cs[1..][i] == cs[i + 1];
        }
      }
      assert WellFramed(c.data) && c.typ == TypeOf(c.data);
      if c.typ != IDAT {
        var rest := Emit(crc, cs[1..], best, m);
        EmitRoundTrip(crc, cs[1..], best, m);
        assert e == [c.data] + rest;
        assert AllWellFramed([c.data]) by {
          assert [c.data][1..] == [];
        }
        FramedAppend([c.data], rest);
        assert IdatPayloads([c.data]) == [];
        assert IdatPayloads(e) == IdatPayloads(rest);
      } else {
        var rest := Emit(crc, cs[1..], None, m);
        EmitRoundTrip(crc, cs[1..], None, m);
        if best.Some? {
          var rs := IdatRecords(crc, Split(best.value, m));
          assert e == rs + rest;
          SplitRecordsRoundTrip(crc, best.value, m);
          FramedAppend(rs, rest);
          FlattenAppend(IdatPayloads(rs), IdatPayloads(rest));
          assert Flatten(IdatPayloads(e)) == best.value + [];
        } else {
          assert e == rest;
        }
      }
    }
  }

  /**
   * Round trip of `buildPNG`: the rebuilt file is the signature followed by
   * the emitted buffers, the splitter of the parser finds exactly those
   * buffers as its chunks, and their IDAT payloads join to the placed data.
   */
  lemma RebuildRoundTrip(crc: Crc, cs: seq<Chunk>, best: Option<seq<Byte>>, m: nat)
    requires 0 < m < LENGTH_LIMIT && WellTyped(cs)
    ensures var out := Rebuild(crc, cs, best, m);
      && |out| >= 8 && out[..8] == SIGNATURE
      && Frames(out, 8) == Some(Emit(crc, cs, best, m))
      && Framed(Emit(crc, cs, best, m))
      && Flatten(IdatPayloads(Emit(crc, cs, best, m))) == if best.Some? && HasIdat(cs) then best.value else []
  {
    var e := Emit(crc, cs, best, m);
    var out := Rebuild(crc, cs, best, m);
    EmitRoundTrip(crc, cs, best, m);
    assert ([SIGNATURE] + e)[1..] == e;
    assert out == SIGNATURE + Flatten(e);
    assert out[8..] == Flatten(e);
    FramesOfFlatten(out, 8, e);
  }
}
