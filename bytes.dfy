/** Byte buffers as Node's `Buffer` holds them, and the big-endian 32-bit field of PNG. */
module Bytes {

  /** One octet of a buffer. */
  type Byte = b: int | 0 <= b < 0x100

  /** An unsigned 32-bit value, as `readUInt32BE` returns it. */
  type Word32 = w: int | 0 <= w < 0x1_0000_0000

  /** `buf.readUInt32BE(i)`: the four bytes at `i`, most significant first. */
  function ReadU32(s: seq<Byte>, i: nat): Word32
    requires i + 4 <= |s|
  {
    (s[i] as int) * 0x100_0000 + (s[i + 1] as int) * 0x1_0000 + (s[i + 2] as int) * 0x100 + s[i + 3]
  }

  /** The four bytes that store `w` big-endian (`writeUInt32BE`). */
  function EncodeU32(w: Word32): (s: seq<Byte>)
    ensures |s| == 4 && ReadU32(s, 0) == w
  {
    var b0, r0 := w / 0x100_0000, w % 0x100_0000;
    var b1, r1 := r0 / 0x1_0000, r0 % 0x1_0000;
    var b2, b3 := r1 / 0x100, r1 % 0x100;
    assert w == b0 * 0x100_0000 + r0 && r0 == b1 * 0x1_0000 + r1 && r1 == b2 * 0x100 + b3;
    [b0, b1, b2, b3]
  }

  /** Base-256 digits are unique: equal weighted sums of bytes have equal leading digits. */
  lemma LeadingDigit(a: int, r: int, b: int, q: int, scale: int)
    requires scale == 0x100 || scale == 0x1_0000 || scale == 0x100_0000
    requires 0 <= r < scale && 0 <= q < scale
    requires a * scale + r == b * scale + q
    ensures a == b && r == q
  {
    if scale == 0x100 {
      assert a * 0x100 + r == b * 0x100 + q;
    } else if scale == 0x1_0000 {
      assert a * 0x1_0000 + r == b * 0x1_0000 + q;
    } else {
      assert a * 0x100_0000 + r == b * 0x100_0000 + q;
    }
  }

  /** Reading four bytes determines them: a 32-bit field has exactly one big-endian encoding. */
  lemma ReadU32Determines(s: seq<Byte>, i: nat, t: seq<Byte>)
    requires i + 4 <= |s| && |t| == 4
    ensures ReadU32(s, i) == ReadU32(t, 0) <==> s[i..i + 4] == t
  {
    if ReadU32(s, i) == ReadU32(t, 0) {
      var r1 := (s[i + 1] as int) * 0x1_0000 + (s[i + 2] as int) * 0x100 + s[i + 3];
      var q1 := (t[1] as int) * 0x1_0000 + (t[2] as int) * 0x100 + t[3];
      LeadingDigit(s[i], r1, t[0], q1, 0x100_0000);
      var r2 := (s[i + 2] as int) * 0x100 + s[i + 3];
      var q2 := (t[2] as int) * 0x100 + t[3];
      LeadingDigit(s[i + 1], r2, t[1], q2, 0x1_0000);
      LeadingDigit(s[i + 2], s[i + 3], t[2], t[3], 0x100);
      assert s[i..i + 4] == [s[i], s[i + 1], s[i + 2], s[i + 3]];
    }
    if s[i..i + 4] == t {
      assert s[i] == t[0] && s[i + 1] == t[1] && s[i + 2] == t[2] && s[i + 3] == t[3];
    }
  }

  /** `ReadU32` only looks at the four bytes it reads. */
  lemma ReadU32Local(s: seq<Byte>, i: nat, t: seq<Byte>, j: nat)
    requires i + 4 <= |s| && j + 4 <= |t| && s[i..i + 4] == t[j..j + 4]
    ensures ReadU32(s, i) == ReadU32(t, j)
  {
    assert s[i] == s[i..i + 4][0] == t[j..j + 4][0] == t[j];
    assert s[i + 1] == s[i..i + 4][1] == t[j..j + 4][1] == t[j + 1];
    assert s[i + 2] == s[i..i + 4][2] == t[j..j + 4][2] == t[j + 2];
    assert s[i + 3] == s[i..i + 4][3] == t[j..j + 4][3] == t[j + 3];
  }

  /** A buffer of `n` zero bytes, as `Buffer.alloc(n)` returns it. */
  function Zeros(n: nat): (s: seq<Byte>)
    ensures |s| == n && forall i :: 0 <= i < n ==> s[i] == 0
  {
    seq(n, _ => 0)
  }

  /** `Buffer.concat(list)`: the buffers of the list, one after the other. */
  function Flatten<T>(ss: seq<seq<T>>): seq<T>
  {
    if ss == [] then [] else ss[0] + Flatten(ss[1..])
  }

  /** Concatenation is associative. */
  lemma AppendAssoc<T>(a: seq<T>, b: seq<T>, c: seq<T>)
    ensures a + b + c == a + (b + c)
  {
  }

  /** Concatenating two lists of buffers concatenates their contents. */
  lemma {:induction false} FlattenAppend<T>(a: seq<seq<T>>, b: seq<seq<T>>)
    ensures Flatten(a + b) == Flatten(a) + Flatten(b)
  {
    if a == [] {
      assert a + b == b;
    } else {
      assert (a + b)[1..] == a[1..] + b;
      FlattenAppend(a[1..], b);
    }
  }
}
