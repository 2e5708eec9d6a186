/** Printers and parsers shared by the binary formats. A parser and a printer
    belong together when parsing succeeds on exactly the strings that start with
    a printed value: that one law gives round trips, re-encoding and the
    rejection of truncated input at once. */
module WireFormat {
  import opened Bytes

  datatype Parsed<+T> = Bad | Good(value: T, rest: Bytes)

  // ── Fixed-width integers ────────────────────────────────────────────────────

  function ParseWord(w: nat, s: Bytes): (r: Parsed<nat>)
  {
    if |s| < w then Bad else Good(FromBigEndian(s[..w]), s[w..])
  }

  lemma WordLaw(w: nat, s: Bytes, v: nat, rest: Bytes)
    ensures ParseWord(w, s) == Good(v, rest) <==> v < Capacity(w) && s == BigEndian(v, w) + rest
  {
    hide BigEndian;
    hide FromBigEndian;
    hide Capacity;
    if |s| >= w {
      EncodeBigEndian(s[..w]);
      assert s == s[..w] + s[w..];
    }
    if v < Capacity(w) && s == BigEndian(v, w) + rest {
      DecodeBigEndian(v, w);
      assert s[..w] == BigEndian(v, w) && s[w..] == rest;
    }
  }

  // ── Length-prefixed byte strings ────────────────────────────────────────────

  function PrintField(w: nat, b: Bytes): Bytes
  {
    BigEndian(|b|, w) + b
  }

  function ParseField(w: nat, s: Bytes): (r: Parsed<Bytes>)
  {
    match ParseWord(w, s)
    case Bad => Bad
    case Good(n, rest) => if |rest| < n then Bad else Good(rest[..n], rest[n..])
  }

  lemma FieldLaw(w: nat, s: Bytes, b: Bytes, rest: Bytes)
    ensures ParseField(w, s) == Good(b, rest) <==> |b| < Capacity(w) && s == PrintField(w, b) + rest
  {
    hide BigEndian;
    hide Capacity;
    hide ParseWord;
    assert BigEndian(|b|, w) + (b + rest) == PrintField(w, b) + rest;
    WordLaw(w, s, |b|, b + rest);
    assert ParseField(w, s) == Good(b, rest) <==> ParseWord(w, s) == Good(|b|, b + rest) by {
      assert (b + rest)[..|b|] == b && (b + rest)[|b|..] == rest;
      var r := ParseWord(w, s);
      if r.Good? && |r.rest| >= r.value { assert r.rest == r.rest[..r.value] + r.rest[r.value..]; }
    }
  }

  /** More input leaves the field as it was and the rest longer. */
  lemma FieldExtends(w: nat, s: Bytes, x: Bytes)
    requires ParseField(w, s).Good?
    ensures ParseField(w, s + x) == Good(ParseField(w, s).value, ParseField(w, s).rest + x)
  {
    hide ParseField;
    hide PrintField;
    var r := ParseField(w, s);
    FieldLaw(w, s, r.value, r.rest);
    FieldLaw(w, s + x, r.value, r.rest + x);
    assert PrintField(w, r.value) + r.rest + x == PrintField(w, r.value) + (r.rest + x);
  }

  lemma WordExtends(w: nat, s: Bytes, x: Bytes)
    requires ParseWord(w, s).Good?
    ensures ParseWord(w, s + x) == Good(ParseWord(w, s).value, ParseWord(w, s).rest + x)
  {
    assert (s + x)[..w] == s[..w] && (s + x)[w..] == s[w..] + x;
  }

  // ── Counted sequences ───────────────────────────────────────────────────────

  function PrintAll<T>(enc: T -> Bytes, ts: seq<T>): Bytes
  {
    if ts == [] then [] else enc(ts[0]) + PrintAll(enc, ts[1..])
  }

  function ParseMany<T>(dec: Bytes -> Parsed<T>, n: nat, s: Bytes): (r: Parsed<seq<T>>)
  {
    if n == 0 then Good([], s)
    else match dec(s)
      case Bad => Bad
      case Good(t, rest) => Prepend([t], ParseMany(dec, n - 1, rest))
  }

  function Prepend<T>(ts: seq<T>, r: Parsed<seq<T>>): Parsed<seq<T>>
  {
    match r
    case Bad => Bad
    case Good(us, rest) => Good(ts + us, rest)
  }

  lemma PrependNothing<T>(r: Parsed<seq<T>>)
    ensures Prepend([], r) == r
  {
    if r.Good? { assert [] + r.value == r.value; }
  }

  lemma PrependConcat<T>(a: seq<T>, b: seq<T>, r: Parsed<seq<T>>)
    ensures Prepend(a, Prepend(b, r)) == Prepend(a + b, r)
  {
    if r.Good? { assert a + (b + r.value) == (a + b) + r.value; }
  }

  lemma {:induction false} PrintAllConcat<T>(enc: T -> Bytes, a: seq<T>, b: seq<T>)
    ensures PrintAll(enc, a + b) == PrintAll(enc, a) + PrintAll(enc, b)
  {
    if a == [] {
      assert a + b == b;
    } else {
      PrintAllConcat(enc, a[1..], b);
      assert (a + b)[1..] == a[1..] + b;
    }
  }

  lemma PrintAllSnoc<T>(enc: T -> Bytes, a: seq<T>, t: T)
    ensures PrintAll(enc, a + [t]) == PrintAll(enc, a) + enc(t)
  {
    PrintAllConcat(enc, a, [t]);
    assert [t][1..] == [] && PrintAll(enc, [t]) == enc(t) + PrintAll(enc, [t][1..]);
  }

  /** One more element written by an encoding loop, and room for it. */
  lemma PrintPrefix<T>(enc: T -> Bytes, ts: seq<T>, j: nat)
    requires j < |ts|
    ensures PrintAll(enc, ts[..j + 1]) == PrintAll(enc, ts[..j]) + enc(ts[j])
    ensures |PrintAll(enc, ts[..j + 1])| <= |PrintAll(enc, ts)|
  {
    PrintAllSnoc(enc, ts[..j], ts[j]);
    assert ts[..j + 1] == ts[..j] + [ts[j]];
    PrintAllConcat(enc, ts[..j + 1], ts[j + 1..]);
    assert ts == ts[..j + 1] + ts[j + 1..];
  }

  predicate LawAt<T(==)>(enc: T -> Bytes, dec: Bytes -> Parsed<T>, fits: T -> bool,
                         s: Bytes, t: T, rest: Bytes)
  {
    dec(s) == Good(t, rest) <==> fits(t) && s == enc(t) + rest
  }

  /** dec succeeds on s with value t exactly when t is printable and s starts
      with t's printed form. */
  ghost predicate Law<T(!new)>(enc: T -> Bytes, dec: Bytes -> Parsed<T>, fits: T -> bool)
  {
    forall s, t, rest :: LawAt(enc, dec, fits, s, t, rest)
  }

  /** The law carries over from elements to counted sequences of them. */
  lemma {:induction false} ManyLaw<T(!new)>(enc: T -> Bytes, dec: Bytes -> Parsed<T>, fits: T -> bool,
                                           n: nat, s: Bytes, ts: seq<T>, rest: Bytes)
    requires Law(enc, dec, fits)
    ensures ParseMany(dec, n, s) == Good(ts, rest)
            <==> |ts| == n && (forall i :: 0 <= i < |ts| ==> fits(ts[i])) && s == PrintAll(enc, ts) + rest
    decreases n
  {
    if n == 0 {
      assert |ts| == 0 ==> PrintAll(enc, ts) + rest == rest;
    } else {
      if ParseMany(dec, n, s) == Good(ts, rest) {
        var t, tail := dec(s).value, dec(s).rest;
        assert LawAt(enc, dec, fits, s, t, tail);
        var us := ParseMany(dec, n - 1, tail).value;
        assert ts == [t] + us && ts[1..] == us;
        ManyLaw(enc, dec, fits, n - 1, tail, us, rest);
        assert s == enc(t) + (PrintAll(enc, us) + rest) == PrintAll(enc, ts) + rest;
      }
      if |ts| == n && (forall i :: 0 <= i < |ts| ==> fits(ts[i])) && s == PrintAll(enc, ts) + rest {
        var tail := PrintAll(enc, ts[1..]) + rest;
        assert s == enc(ts[0]) + tail;
        assert LawAt(enc, dec, fits, s, ts[0], tail);
        ManyLaw(enc, dec, fits, n - 1, tail, ts[1..], rest);
        assert [ts[0]] + ts[1..] == ts;
      }
    }
  }

  lemma ManyExtends<T(!new)>(enc: T -> Bytes, dec: Bytes -> Parsed<T>, fits: T -> bool, n: nat, s: Bytes, x: Bytes)
    requires Law(enc, dec, fits) && ParseMany(dec, n, s).Good?
    ensures ParseMany(dec, n, s + x) == Good(ParseMany(dec, n, s).value, ParseMany(dec, n, s).rest + x)
  {
    hide ParseMany;
    hide PrintAll;
    hide Law;
    var r := ParseMany(dec, n, s);
    ManyLaw(enc, dec, fits, n, s, r.value, r.rest);
    ManyLaw(enc, dec, fits, n, s + x, r.value, r.rest + x);
    assert PrintAll(enc, r.value) + r.rest + x == PrintAll(enc, r.value) + (r.rest + x);
  }

  /** One more element read by a decoding loop that has collected acc so far. */
  lemma ManyStep<T>(dec: Bytes -> Parsed<T>, n: nat, s: Bytes, total: Parsed<seq<T>>, acc: seq<T>)
    requires n > 0 && total == Prepend(acc, ParseMany(dec, n, s))
    ensures dec(s) == Bad ==> total == Bad
    ensures dec(s).Good? ==> total == Prepend(acc + [dec(s).value], ParseMany(dec, n - 1, dec(s).rest))
  {
    if dec(s).Good? { PrependConcat(acc, [dec(s).value], ParseMany(dec, n - 1, dec(s).rest)); }
  }

  // ── Cursor-driven writing and reading ───────────────────────────────────────

  method WriteField(out: array<byte>, start: nat, w: nat, b: Bytes) returns (pos: nat)
    requires start + w + |b| <= out.Length
    modifies out
    ensures pos == start + w + |b|
    ensures out[..pos] == old(out[..start]) + PrintField(w, b)
  {
    PutBigEndian(out, start, |b|, w);
    CopyInto(out, start + w, b);
    pos := start + w + |b|;
  }

  method ReadField(data: Bytes, start: nat, w: nat) returns (ok: bool, b: Bytes, pos: nat)
    requires start <= |data|
    ensures ok ==> pos <= |data| && ParseField(w, data[start..]) == Good(b, data[pos..])
    ensures !ok ==> ParseField(w, data[start..]) == Bad
  {
    if start + w > |data| {
      return false, [], 0;
    }
    var n := FromBigEndian(data[start..start + w]);
    assert data[start..][..w] == data[start..start + w] && data[start..][w..] == data[start + w..];
    pos := start + w;
    if pos + n > |data| {
      return false, [], 0;
    }
    b := data[pos..pos + n];
    assert data[pos..][..n] == b && data[pos..][n..] == data[pos + n..];
    return true, b, pos + n;
  }

  // ── Commands: a tag, a count and that many elements ─────────────────────────

  function PrintCommand<T>(tag: byte, enc: T -> Bytes, ts: seq<T>): Bytes
  {
    [tag] + BigEndian(|ts|, 8) + PrintAll(enc, ts)
  }

  function ParseCommand<T>(tag: byte, dec: Bytes -> Parsed<T>, data: Bytes): (r: Option<seq<T>>)
  {
    if |data| < 9 || data[0] != tag then None
    else match ParseMany(dec, Uint64(data[1..]), data[9..])
      case Bad => None
      case Good(ts, _) => Some(ts)
  }

  /** A command is accepted exactly when the input starts with its encoding. */
  lemma CommandLaw<T(!new)>(tag: byte, enc: T -> Bytes, dec: Bytes -> Parsed<T>, fits: T -> bool,
                            data: Bytes, ts: seq<T>)
    requires Law(enc, dec, fits)
    ensures ParseCommand(tag, dec, data) == Some(ts)
            <==> |ts| < TWO64 && (forall i :: 0 <= i < |ts| ==> fits(ts[i])) && PrintCommand(tag, enc, ts) <= data
  {
    if ParseCommand(tag, dec, data) == Some(ts) {
      CommandSound(tag, enc, dec, fits, data);
    }
    if |ts| < TWO64 && (forall i :: 0 <= i < |ts| ==> fits(ts[i])) && PrintCommand(tag, enc, ts) <= data {
      CommandComplete(tag, enc, dec, fits, ts, data[|PrintCommand(tag, enc, ts)|..]);
      assert data == PrintCommand(tag, enc, ts) + data[|PrintCommand(tag, enc, ts)|..];
    }
  }

  lemma CommandSound<T(!new)>(tag: byte, enc: T -> Bytes, dec: Bytes -> Parsed<T>, fits: T -> bool, data: Bytes)
    requires Law(enc, dec, fits) && ParseCommand(tag, dec, data).Some?
    ensures var ts := ParseCommand(tag, dec, data).value;
            |ts| < TWO64 && (forall i :: 0 <= i < |ts| ==> fits(ts[i])) && PrintCommand(tag, enc, ts) <= data
  {
    hide BigEndian;
    hide PrintAll;
    hide ParseMany;
    hide FromBigEndian;
    hide Law;
    var n, word := Uint64(data[1..]), data[1..][..8];
    var Good(ts, rest) := ParseMany(dec, n, data[9..]);
    ManyLaw(enc, dec, fits, n, data[9..], ts, rest);
    EncodeBigEndian(word);
    assert data == [tag] + word + data[9..];
    assert [tag] + word + (PrintAll(enc, ts) + rest) == PrintCommand(tag, enc, ts) + rest;
  }

  lemma CommandComplete<T(!new)>(tag: byte, enc: T -> Bytes, dec: Bytes -> Parsed<T>, fits: T -> bool,
                                 ts: seq<T>, rest: Bytes)
    requires Law(enc, dec, fits) && |ts| < TWO64 && forall i :: 0 <= i < |ts| ==> fits(ts[i])
    ensures ParseCommand(tag, dec, PrintCommand(tag, enc, ts) + rest) == Some(ts)
  {
    var data, tail := PrintCommand(tag, enc, ts) + rest, PrintAll(enc, ts) + rest;
    assert data[1..] == BigEndian(|ts|, 8) + tail;
    Uint64OfPut(|ts|, tail);
    assert data[9..] == tail;
    ManyLaw(enc, dec, fits, |ts|, tail, ts, rest);
  }

  /** No proper prefix of an encoded command is accepted. */
  lemma CommandTruncated<T(!new)>(tag: byte, enc: T -> Bytes, dec: Bytes -> Parsed<T>, fits: T -> bool,
                                  ts: seq<T>, cut: nat)
    requires Law(enc, dec, fits) && |ts| < TWO64 && forall i :: 0 <= i < |ts| ==> fits(ts[i])
    requires cut < |PrintCommand(tag, enc, ts)|
    ensures ParseCommand(tag, dec, PrintCommand(tag, enc, ts)[..cut]) == None
  {
    var data := PrintCommand(tag, enc, ts);
    var d := ParseCommand(tag, dec, data[..cut]);
    if d.Some? {
      CommandLaw(tag, enc, dec, fits, data[..cut], d.value);
      CommandLaw(tag, enc, dec, fits, data, d.value);
      CommandLaw(tag, enc, dec, fits, data, ts);
    }
  }
}
