/** Byte strings, fixed-width integers and the byte-wise key order that the
    storage engine, the wire formats and the key schema all share. */
module Bytes {

  type byte = b: int | 0 <= b < 256
  type Bytes = seq<byte>

  datatype Option<+T> = None | Some(value: T)

  const TWO64: int := 0x1_0000_0000_0000_0000
  const TWO63: int := 0x8000_0000_0000_0000

  type u64 = n: int | 0 <= n < 0x1_0000_0000_0000_0000

  /** Two's complement wrap-around of a Go int64 result. */
  function Int64(n: int): (r: int)
    ensures -TWO63 <= r < TWO63
    ensures r == n <==> -TWO63 <= n < TWO63
  {
    (n + TWO63) % TWO64 - TWO63
  }

  // ── Integers as byte strings ────────────────────────────────────────────────

  /** 256 to the power w: how many values w bytes can hold. */
  function Capacity(w: nat): (p: nat)
    ensures p >= 1
  {
    if w == 0 then 1 else 256 * Capacity(w - 1)
  }

  lemma CapacityValues()
    ensures Capacity(2) == 0x1_0000 && Capacity(4) == 0x1_0000_0000 && Capacity(8) == TWO64
  {
    assert Capacity(4) == 256 * (256 * Capacity(2));
    assert Capacity(8) == 256 * (256 * (256 * (256 * Capacity(4))));
  }

  /** The low w bytes of v, most significant first. Higher bytes are dropped,
      as Go's conversions to narrower unsigned types do. */
  function BigEndian(v: nat, w: nat): (s: Bytes)
    ensures |s| == w
  {
    if w == 0 then [] else BigEndian(v / 256, w - 1) + [v % 256]
  }

  function FromBigEndian(s: Bytes): (v: nat)
    ensures v < Capacity(|s|)
  {
    if s == [] then 0 else FromBigEndian(s[..|s| - 1]) * 256 + s[|s| - 1]
  }

  /** Decoding an encoding gives the value back whenever it fits the width. */
  lemma {:induction false} DecodeBigEndian(v: nat, w: nat)
    requires v < Capacity(w)
    ensures FromBigEndian(BigEndian(v, w)) == v
  {
    hide *;
    if w == 0 {
      EmptyWord(v);
    } else {
      CapacityStep(w);
      LowByte(v, Capacity(w - 1));
      BigEndianStep(v, w);
      DecodeBigEndian(v / 256, w - 1);
      FromBigEndianStep(BigEndian(v / 256, w - 1), v % 256);
    }
  }

  lemma EmptyWord(v: nat)
    requires v < Capacity(0)
    ensures FromBigEndian(BigEndian(v, 0)) == v
  {
  }

  lemma CapacityStep(w: nat)
    requires w > 0
    ensures Capacity(w) == 256 * Capacity(w - 1)
  {
  }

  lemma LowByte(v: nat, p: nat)
    requires v < 256 * p
    ensures v == (v / 256) * 256 + v % 256 && v / 256 < p
  {
  }

  lemma BigEndianStep(v: nat, w: nat)
    requires w > 0
    ensures BigEndian(v, w) == BigEndian(v / 256, w - 1) + [v % 256]
  {
  }

  lemma FromBigEndianStep(s: Bytes, b: byte)
    ensures FromBigEndian(s + [b]) == FromBigEndian(s) * 256 + b
  {
    assert (s + [b])[..|s|] == s;
  }

  /** Encoding at the original width restores every byte string. */
  lemma {:induction false} EncodeBigEndian(s: Bytes)
    ensures BigEndian(FromBigEndian(s), |s|) == s
  {
    if s != [] {
      EncodeBigEndian(s[..|s| - 1]);
      assert s == s[..|s| - 1] + [s[|s| - 1]];
    }
  }

  /** A uint64 read from the front of s, as binary.BigEndian.Uint64 does. */
  function Uint64(s: Bytes): (v: u64)
    requires |s| >= 8
  {
    CapacityValues();
    FromBigEndian(s[..8])
  }

  lemma Uint64OfPut(v: u64, rest: Bytes)
    ensures Uint64(BigEndian(v, 8) + rest) == v
  {
    CapacityValues();
    DecodeBigEndian(v, 8);
    assert (BigEndian(v, 8) + rest)[..8] == BigEndian(v, 8);
  }

  // ── Byte-wise key order ─────────────────────────────────────────────────────

  /** bytes.Compare(a, b) < 0: the order every storage engine keeps keys in. */
  predicate Below(a: Bytes, b: Bytes)
  {
    b != [] && (a == [] || a[0] < b[0] || (a[0] == b[0] && Below(a[1..], b[1..])))
  }

  lemma {:induction false} BelowTrichotomy(a: Bytes, b: Bytes)
    ensures a == b || Below(a, b) || Below(b, a)
    ensures Below(a, b) ==> a != b && !Below(b, a)
  {
    if a != [] && b != [] {
      BelowTrichotomy(a[1..], b[1..]);
      assert a == [a[0]] + a[1..] && b == [b[0]] + b[1..];
    }
  }

  lemma {:induction false} BelowTransitive(a: Bytes, b: Bytes, c: Bytes)
    requires Below(a, b) && Below(b, c)
    ensures Below(a, c)
  {
    if a != [] && a[0] == b[0] == c[0] {
      BelowTransitive(a[1..], b[1..], c[1..]);
    }
  }

  /** Comparing concatenations whose first parts have equal length compares the
      first parts, and the rest only to break a tie. */
  lemma {:induction false} BelowConcat(a: Bytes, b: Bytes, c: Bytes, d: Bytes)
    requires |a| == |b|
    ensures Below(a + c, b + d) <==> Below(a, b) || (a == b && Below(c, d))
  {
    if a == [] {
      assert a + c == c && b + d == d;
    } else {
      BelowConcat(a[1..], b[1..], c, d);
      assert (a + c)[1..] == a[1..] + c && (b + d)[1..] == b[1..] + d;
      assert a == [a[0]] + a[1..] && b == [b[0]] + b[1..];
    }
  }

  /** On strings of one length, byte-wise order is the order of the big-endian
      integers they spell. */
  lemma {:induction false} BelowIsIntegerOrder(a: Bytes, b: Bytes)
    requires |a| == |b|
    ensures Below(a, b) <==> FromBigEndian(a) < FromBigEndian(b)
    ensures a == b <==> FromBigEndian(a) == FromBigEndian(b)
  {
    EncodeBigEndian(a);
    EncodeBigEndian(b);
    if a != [] {
      var n := |a| - 1;
      BelowIsIntegerOrder(a[..n], b[..n]);
      BelowConcat(a[..n], b[..n], [a[n]], [b[n]]);
      assert a == a[..n] + [a[n]] && b == b[..n] + [b[n]];
      assert Below([a[n]], [b[n]]) <==> a[n] < b[n];
    }
  }

  lemma BigEndianOrder(x: nat, y: nat, w: nat)
    requires x < Capacity(w) && y < Capacity(w)
    ensures Below(BigEndian(x, w), BigEndian(y, w)) <==> x < y
    ensures BigEndian(x, w) == BigEndian(y, w) <==> x == y
  {
    DecodeBigEndian(x, w);
    DecodeBigEndian(y, w);
    BelowIsIntegerOrder(BigEndian(x, w), BigEndian(y, w));
  }

  // ── Writing into a preallocated buffer ──────────────────────────────────────

  /** binary.BigEndian.PutUintN(out[pos:], v): only the written prefix is
      specified, which is what a forward-moving cursor needs. */
  method PutBigEndian(out: array<byte>, pos: nat, v: nat, w: nat)
    requires pos + w <= out.Length
    modifies out
    ensures out[..pos + w] == old(out[..pos]) + BigEndian(v, w)
  {
    var rest, i := v, w;
    ghost var prefix := out[..pos];
    while i > 0
      invariant 0 <= i <= w && 0 <= rest
      invariant out[..pos] == prefix
      invariant BigEndian(v, w) == BigEndian(rest, i) + out[pos + i..pos + w]
    {
      assert BigEndian(rest, i) == BigEndian(rest / 256, i - 1) + [rest % 256];
      ghost var tail := out[pos + i..pos + w];
      out[pos + i - 1] := rest % 256;
      assert out[pos + i - 1..pos + w] == [rest % 256] + tail;
      rest, i := rest / 256, i - 1;
    }
    assert out[..pos + w] == out[..pos] + out[pos..pos + w];
  }

  /** copy(out[pos:], src). */
  method CopyInto(out: array<byte>, pos: nat, src: Bytes)
    requires pos + |src| <= out.Length
    modifies out
    ensures out[..pos + |src|] == old(out[..pos]) + src
  {
    ghost var prefix := out[..pos];
    for i := 0 to |src|
      invariant out[..pos + i] == prefix + src[..i]
    {
      out[pos + i] := src[i];
      assert out[..pos + i + 1] == out[..pos + i] + [src[i]];
    }
  }
}
