/** The two commands the event log carries, and their wire format. */
module EventCommands {
  import opened Bytes
  import opened Keys
  import opened WireFormat

  const STORE_BATCH: byte := 0
  const DELETE_BATCH: byte := 1

  datatype StoreItem = StoreItem(bucket: u64, topicHash: u64, indexes: seq<Bytes>, msg: Bytes)

  // ── Wire format of a store command ──────────────────────────────────────────

  function PrintIndex(idx: Bytes): Bytes { PrintField(2, idx) }

  function ParseIndex(s: Bytes): Parsed<Bytes> { ParseField(2, s) }

  predicate IndexFits(idx: Bytes) { |idx| < 0x1_0000 }

  function PrintItem(it: StoreItem): Bytes
  {
    ItemHeader(it) + PrintAll(PrintIndex, it.indexes) + PrintField(4, it.msg)
  }

  function ItemHeader(it: StoreItem): (h: Bytes)
    ensures |h| == 18
  {
    BigEndian(it.bucket, 8) + BigEndian(it.topicHash, 8) + BigEndian(|it.indexes|, 2)
  }

  function ParseItem(s: Bytes): (r: Parsed<StoreItem>)
  {
    CapacityValues();
    match ParseWord(8, s)
    case Bad => Bad
    case Good(bucket, s1) =>
      match ParseWord(8, s1)
      case Bad => Bad
      case Good(topicHash, s2) =>
        match ParseWord(2, s2)
        case Bad => Bad
        case Good(n, s3) => ParseItemBody(bucket, topicHash, n, s3)
  }

  function ParseItemBody(bucket: u64, topicHash: u64, n: nat, s: Bytes): (r: Parsed<StoreItem>)
  {
    match ParseMany(ParseIndex, n, s)
    case Bad => Bad
    case Good(indexes, s1) =>
      match ParseField(4, s1)
      case Bad => Bad
      case Good(msg, rest) => Good(StoreItem(bucket, topicHash, indexes, msg), rest)
  }

  /** Every count and length is representable in its field. */
  predicate ItemFits(it: StoreItem)
  {
    |it.indexes| < 0x1_0000 && |it.msg| < 0x1_0000_0000
        && forall i :: 0 <= i < |it.indexes| ==> IndexFits(it.indexes[i])
  }

  predicate BatchFits(items: seq<StoreItem>)
  {
    |items| < TWO64 && forall i :: 0 <= i < |items| ==> ItemFits(items[i])
  }

  function EncodeStore(items: seq<StoreItem>): Bytes
  {
    PrintCommand(STORE_BATCH, PrintItem, items)
  }

  function DecodeStore(data: Bytes): (r: Option<seq<StoreItem>>)
  {
    ParseCommand(STORE_BATCH, ParseItem, data)
  }

  // ── Laws of the store command ───────────────────────────────────────────────

  lemma IndexLaw()
    ensures Law(PrintIndex, ParseIndex, IndexFits)
  {
    CapacityValues();
    forall s, t, rest ensures LawAt(PrintIndex, ParseIndex, IndexFits, s, t, rest) {
      FieldLaw(2, s, t, rest);
    }
  }

  lemma ItemBodyLaw(it: StoreItem, n: nat, s: Bytes, rest: Bytes)
    ensures ParseItemBody(it.bucket, it.topicHash, n, s) == Good(it, rest)
            <==> n == |it.indexes| && |it.msg| < 0x1_0000_0000 && (forall i :: 0 <= i < n ==> IndexFits(it.indexes[i]))
                 && s == PrintAll(PrintIndex, it.indexes) + PrintField(4, it.msg) + rest
  {
    hide Law;
    hide Capacity;
    hide PrintAll;
    hide PrintField;
    hide ParseMany;
    hide ParseField;
    hide IndexFits;
    CapacityValues();
    IndexLaw();
    var after := PrintField(4, it.msg) + rest;
    assert PrintAll(PrintIndex, it.indexes) + after == PrintAll(PrintIndex, it.indexes) + PrintField(4, it.msg) + rest;
    if ParseItemBody(it.bucket, it.topicHash, n, s) == Good(it, rest) {
      var s1 := ParseMany(ParseIndex, n, s).rest;
      FieldLaw(4, s1, it.msg, rest);
      ManyLaw(PrintIndex, ParseIndex, IndexFits, n, s, it.indexes, s1);
    }
    ManyLaw(PrintIndex, ParseIndex, IndexFits, n, s, it.indexes, after);
    FieldLaw(4, after, it.msg, rest);
  }

  lemma ItemLawAt(s: Bytes, it: StoreItem, rest: Bytes)
    ensures LawAt(PrintItem, ParseItem, ItemFits, s, it, rest)
  {
    CapacityValues();
    var body := PrintAll(PrintIndex, it.indexes) + PrintField(4, it.msg) + rest;
    var s2 := BigEndian(|it.indexes|, 2) + body;
    var s1 := BigEndian(it.topicHash, 8) + s2;
    assert PrintItem(it) + rest == BigEndian(it.bucket, 8) + s1;
    if ParseItem(s) == Good(it, rest) {
      var r1 := ParseWord(8, s);
      var r2 := ParseWord(8, r1.rest);
      var r3 := ParseWord(2, r2.rest);
      ItemBodyLaw(it, r3.value, r3.rest, rest);
      WordLaw(2, r2.rest, |it.indexes|, body);
      WordLaw(8, r1.rest, it.topicHash, s2);
      WordLaw(8, s, it.bucket, s1);
    }
    if ItemFits(it) && s == PrintItem(it) + rest {
      WordLaw(8, s, it.bucket, s1);
      WordLaw(8, s1, it.topicHash, s2);
      WordLaw(2, s2, |it.indexes|, body);
      ItemBodyLaw(it, |it.indexes|, body, rest);
    }
  }

  lemma ItemLaw()
    ensures Law(PrintItem, ParseItem, ItemFits)
  {
    forall s, it, rest ensures LawAt(PrintItem, ParseItem, ItemFits, s, it, rest) {
      ItemLawAt(s, it, rest);
    }
  }

  /** The decoder accepts exactly the strings that start with an encoding, and
      returns what was encoded. */
  lemma DecodeStoreExact(data: Bytes, items: seq<StoreItem>)
    ensures DecodeStore(data) == Some(items) <==> BatchFits(items) && EncodeStore(items) <= data
  {
    ItemLaw();
    CommandLaw(STORE_BATCH, PrintItem, ParseItem, ItemFits, data, items);
  }

  /** Round trip, exactly when every length fits its field; the encoder narrows
      the others silently. */
  lemma StoreRoundTrip(items: seq<StoreItem>)
    ensures DecodeStore(EncodeStore(items)) == Some(items) <==> BatchFits(items)
  {
    DecodeStoreExact(EncodeStore(items), items);
  }

  lemma HeaderLayout(it: StoreItem, rest: Bytes)
    ensures var s := ItemHeader(it) + rest;
            && Uint64(s) == it.bucket && Uint64(s[8..]) == it.topicHash
            && (|it.indexes| < 0x1_0000 ==> FromBigEndian(s[16..18]) == |it.indexes|)
  {
    hide BigEndian;
    hide FromBigEndian;
    hide Uint64;
    var s, count := ItemHeader(it) + rest, BigEndian(|it.indexes|, 2);
    var tail := BigEndian(it.topicHash, 8) + (count + rest);
    assert s == BigEndian(it.bucket, 8) + tail && s[8..] == tail && s[16..18] == count;
    Uint64OfPut(it.bucket, tail);
    Uint64OfPut(it.topicHash, count + rest);
    CapacityValues();
    if |it.indexes| < 0x1_0000 { DecodeBigEndian(|it.indexes|, 2); }
  }

  /** Where the fields of a store command stand: type, count, and the bucket, topic
      hash and index count of its first item. */
  lemma StoreLayout(items: seq<StoreItem>)
    requires |items| < TWO64
    ensures var data := EncodeStore(items);
            && data[0] == 0 && Uint64(data[1..]) == |items|
            && (items != [] ==>
                  && |data| >= 27 && Uint64(data[9..]) == items[0].bucket && Uint64(data[17..]) == items[0].topicHash
                  && (|items[0].indexes| < 0x1_0000 ==> FromBigEndian(data[25..27]) == |items[0].indexes|))
  {
    hide BigEndian;
    hide FromBigEndian;
    hide Uint64;
    hide ItemHeader;
    var data, body := EncodeStore(items), PrintAll(PrintItem, items);
    assert data[1..] == BigEndian(|items|, 8) + body && data[9..] == body;
    Uint64OfPut(|items|, body);
    if items != [] {
      var it := items[0];
      var rest := PrintAll(PrintIndex, it.indexes) + PrintField(4, it.msg) + PrintAll(PrintItem, items[1..]);
      assert body == ItemHeader(it) + rest && data[17..] == body[8..] && data[25..27] == body[16..18];
      HeaderLayout(it, rest);
    }
  }

  /** No proper prefix of an encoding is accepted. */
  lemma StoreTruncated(items: seq<StoreItem>, cut: nat)
    requires BatchFits(items) && cut < |EncodeStore(items)|
    ensures DecodeStore(EncodeStore(items)[..cut]) == None
  {
    ItemLaw();
    CommandTruncated(STORE_BATCH, PrintItem, ParseItem, ItemFits, items, cut);
  }

  // ── Delete commands ─────────────────────────────────────────────────────────

  function PrintKey(k: Bytes): Bytes { k }

  function ParseKey(s: Bytes): Parsed<Bytes>
  {
    if |s| < EVENT_KEY_LEN then Bad else Good(s[..EVENT_KEY_LEN], s[EVENT_KEY_LEN..])
  }

  predicate KeyFits(k: Bytes) { |k| == EVENT_KEY_LEN }

  predicate KeysFit(keys: seq<Bytes>)
  {
    forall i :: 0 <= i < |keys| ==> KeyFits(keys[i])
  }

  /** None when some key is not 24 bytes long: the whole command is refused. */
  function EncodeDelete(keys: seq<Bytes>): (r: Option<Bytes>)
    ensures r.Some? <==> KeysFit(keys)
  {
    if KeysFit(keys) then Some(PrintCommand(DELETE_BATCH, PrintKey, keys)) else None
  }

  function DecodeDelete(data: Bytes): (r: Option<seq<Bytes>>)
  {
    ParseCommand(DELETE_BATCH, ParseKey, data)
  }

  lemma KeyLaw()
    ensures Law(PrintKey, ParseKey, KeyFits)
  {
    forall s, t, rest ensures LawAt(PrintKey, ParseKey, KeyFits, s, t, rest) {
      assert |s| >= 24 ==> s == s[..24] + s[24..];
      assert |t| == 24 ==> (t + rest)[..24] == t && (t + rest)[24..] == rest;
    }
  }

  lemma DecodeDeleteExact(data: Bytes, keys: seq<Bytes>)
    ensures DecodeDelete(data) == Some(keys)
            <==> KeysFit(keys) && |keys| < TWO64 && EncodeDelete(keys).value <= data
  {
    KeyLaw();
    CommandLaw(DELETE_BATCH, PrintKey, ParseKey, KeyFits, data, keys);
  }

  lemma DeleteTruncated(keys: seq<Bytes>, cut: nat)
    requires KeysFit(keys) && |keys| < TWO64 && cut < |EncodeDelete(keys).value|
    ensures DecodeDelete(EncodeDelete(keys).value) == Some(keys)
    ensures DecodeDelete(EncodeDelete(keys).value[..cut]) == None
  {
    KeyLaw();
    DecodeDeleteExact(EncodeDelete(keys).value, keys);
    CommandTruncated(DELETE_BATCH, PrintKey, ParseKey, KeyFits, keys, cut);
  }

  // ── Encoders: a preallocated buffer and a moving cursor ─────────────────────

  method ItemSize(it: StoreItem) returns (size: nat)
    ensures size == |PrintItem(it)|
  {
    size := 8 + 8 + 2;
    for j := 0 to |it.indexes|
      invariant size == 18 + |PrintAll(PrintIndex, it.indexes[..j])|
    {
      PrintPrefix(PrintIndex, it.indexes, j);
      size := size + 2 + |it.indexes[j]|;
    }
    assert it.indexes[..|it.indexes|] == it.indexes;
    size := size + 4 + |it.msg|;
  }

  method WriteIndexes(out: array<byte>, start: nat, indexes: seq<Bytes>) returns (pos: nat)
    requires start + |PrintAll(PrintIndex, indexes)| <= out.Length
    modifies out
    ensures pos == start + |PrintAll(PrintIndex, indexes)|
    ensures out[..pos] == old(out[..start]) + PrintAll(PrintIndex, indexes)
  {
    hide BigEndian;
    ghost var before, written: Bytes := out[..start], [];
    pos := start;
    for j := 0 to |indexes|
      invariant written == PrintAll(PrintIndex, indexes[..j])
      invariant pos <= out.Length && pos == start + |written|
      invariant out[..pos] == before + written
    {
      PrintPrefix(PrintIndex, indexes, j);
      ghost var one := PrintIndex(indexes[j]);
      pos := WriteField(out, pos, 2, indexes[j]);
      assert before + written + one == before + (written + one);
      written := written + one;
    }
    assert indexes[..|indexes|] == indexes;
  }

  method WriteHeader(out: array<byte>, start: nat, it: StoreItem)
    requires start + 18 <= out.Length
    modifies out
    ensures out[..start + 18] == old(out[..start]) + ItemHeader(it)
  {
    hide BigEndian;
    PutBigEndian(out, start, it.bucket, 8);
    PutBigEndian(out, start + 8, it.topicHash, 8);
    PutBigEndian(out, start + 16, |it.indexes|, 2);
  }

  method WriteItem(out: array<byte>, start: nat, it: StoreItem) returns (pos: nat)
    requires start + |PrintItem(it)| <= out.Length
    modifies out
    ensures pos == start + |PrintItem(it)|
    ensures out[..pos] == old(out[..start]) + PrintItem(it)
  {
    hide BigEndian;
    hide PrintAll;
    WriteHeader(out, start, it);
    pos := WriteIndexes(out, start + 18, it.indexes);
    pos := WriteField(out, pos, 4, it.msg);
  }

  method StoreSize(items: seq<StoreItem>) returns (size: nat)
    ensures size == |EncodeStore(items)|
  {
    size := 1 + 8;
    for i := 0 to |items|
      invariant size == 9 + |PrintAll(PrintItem, items[..i])|
    {
      PrintPrefix(PrintItem, items, i);
      var n := ItemSize(items[i]);
      size := size + n;
    }
    assert items[..|items|] == items;
  }

  method WriteItems(out: array<byte>, start: nat, items: seq<StoreItem>) returns (pos: nat)
    requires start + |PrintAll(PrintItem, items)| <= out.Length
    modifies out
    ensures pos == start + |PrintAll(PrintItem, items)|
    ensures out[..pos] == old(out[..start]) + PrintAll(PrintItem, items)
  {
    hide PrintItem;
    ghost var before, written: Bytes := out[..start], [];
    pos := start;
    for i := 0 to |items|
      invariant written == PrintAll(PrintItem, items[..i])
      invariant pos <= out.Length && pos == start + |written|
      invariant out[..pos] == before + written
    {
      PrintPrefix(PrintItem, items, i);
      ghost var one := PrintItem(items[i]);
      pos := WriteItem(out, pos, items[i]);
      assert before + written + one == before + (written + one);
      written := written + one;
    }
    assert items[..|items|] == items;
  }

  method MarshalStoreBatch(items: seq<StoreItem>) returns (out: array<byte>)
    ensures fresh(out) && out[..] == EncodeStore(items)
  {
    var size := StoreSize(items);
    out := new byte[size];
    out[0] := STORE_BATCH;
    assert out[..1] == [STORE_BATCH];
    PutBigEndian(out, 1, |items|, 8);
    var pos := WriteItems(out, 9, items);
    assert out[..] == out[..pos];
  }

  method MarshalDeleteBatch(keys: seq<Bytes>) returns (r: Option<Bytes>)
    ensures r == EncodeDelete(keys)
  {
    hide BigEndian;
    var out := new byte[1 + 8 + |keys| * 24];
    out[0] := DELETE_BATCH;
    PutBigEndian(out, 1, |keys|, 8);
    var pos := 9;
    ghost var header: Bytes := [DELETE_BATCH] + BigEndian(|keys|, 8);
    for i := 0 to |keys|
      invariant pos == 9 + i * 24
      invariant forall j :: 0 <= j < i ==> KeyFits(keys[j])
      invariant out[..pos] == header + PrintAll(PrintKey, keys[..i])
    {
      if |keys[i]| != 24 {
        return None;
      }
      PrintAllSnoc(PrintKey, keys[..i], keys[i]);
      assert keys[..i + 1] == keys[..i] + [keys[i]];
      CopyInto(out, pos, keys[i]);
      pos := pos + 24;
    }
    assert keys[..|keys|] == keys;
    return Some(out[..pos]);
  }

  // ── Decoders: bounds checks before every read ───────────────────────────────

  method UnmarshalIndexes(data: Bytes, start: nat, numIdx: nat) returns (ok: bool, indexes: seq<Bytes>, pos: nat)
    requires start <= |data|
    ensures ok ==> pos <= |data| && ParseMany(ParseIndex, numIdx, data[start..]) == Good(indexes, data[pos..])
    ensures !ok ==> ParseMany(ParseIndex, numIdx, data[start..]) == Bad
  {
    indexes, pos := [], start;
    ghost var total := ParseMany(ParseIndex, numIdx, data[start..]);
    PrependNothing(total);
    for j := 0 to numIdx
      invariant pos <= |data|
      invariant total == Prepend(indexes, ParseMany(ParseIndex, numIdx - j, data[pos..]))
    {
      ManyStep(ParseIndex, numIdx - j, data[pos..], total, indexes);
      var found, idx, next := ReadField(data, pos, 2);
      if !found {
        return false, [], 0;
      }
      indexes, pos := indexes + [idx], next;
    }
    assert indexes + [] == indexes;
    ok := true;
  }

  method UnmarshalItem(data: Bytes, start: nat) returns (ok: bool, it: StoreItem, pos: nat)
    requires start <= |data|
    ensures ok ==> pos <= |data| && ParseItem(data[start..]) == Good(it, data[pos..])
    ensures !ok ==> ParseItem(data[start..]) == Bad
  {
    it := StoreItem(0, 0, [], []);
    if start + 8 + 8 + 2 > |data| {
      return false, it, 0;
    }
    var bucket, topicHash := Uint64(data[start..]), Uint64(data[start + 8..]);
    var numIdx := FromBigEndian(data[start + 16..start + 18]);
    assert data[start..][8..] == data[start + 8..] && data[start + 8..][8..] == data[start + 16..];
    assert data[start + 16..][..2] == data[start + 16..start + 18] && data[start + 16..][2..] == data[start + 18..];
    assert ParseItem(data[start..]) == ParseItemBody(bucket, topicHash, numIdx, data[start + 18..]);
    var indexes, msg;
    ok, indexes, pos := UnmarshalIndexes(data, start + 18, numIdx);
    if ok {
      ok, msg, pos := ReadField(data, pos, 4);
      if ok {
        it := StoreItem(bucket, topicHash, indexes, msg);
      }
    }
  }

  /** The decoder allocates room for the announced number of items before it
      reads any, and the process stops when the runtime cannot. */
  predicate StoreStops(room: nat, data: Bytes)
  {
    |data| >= 9 && data[0] == STORE_BATCH && Uint64(data[1..]) > room
  }

  /** room is how many items the runtime can allocate at once. */
  method UnmarshalStoreBatch(data: Bytes, room: nat) returns (r: Option<seq<StoreItem>>, stopped: bool)
    ensures stopped <==> StoreStops(room, data)
    ensures !stopped ==> r == DecodeStore(data)
  {
    stopped := false;
    if |data| < 1 + 8 || data[0] != STORE_BATCH {
      return None, false;
    }
    var count: int := Uint64(data[1..]);
    if count > room {
      return None, true;
    }
    var items: seq<StoreItem>, pos := [], 9;
    ghost var total := ParseMany(ParseItem, count, data[9..]);
    PrependNothing(total);
    for i := 0 to count
      invariant 0 <= pos <= |data|
      invariant total == Prepend(items, ParseMany(ParseItem, count - i, data[pos..]))
    {
      ManyStep(ParseItem, count - i, data[pos..], total, items);
      var ok, it, next := UnmarshalItem(data, pos);
      if !ok {
        return None, false;
      }
      items, pos := items + [it], next;
    }
    assert items + [] == items;
    return Some(items), false;
  }

  lemma {:induction false} ParseKeysSlices(n: nat, s: Bytes)
    ensures |s| < n * 24 ==> ParseMany(ParseKey, n, s) == Bad
    ensures |s| >= n * 24 ==> ParseMany(ParseKey, n, s).Good? && |ParseMany(ParseKey, n, s).value| == n
                              && forall i :: 0 <= i < n ==> ParseMany(ParseKey, n, s).value[i] == s[i * 24..i * 24 + 24]
    decreases n
  {
    if n > 0 && |s| >= 24 {
      var tail := s[24..];
      ParseKeysSlices(n - 1, tail);
      if |s| >= n * 24 {
        var keys := ParseMany(ParseKey, n - 1, tail).value;
        forall i | 0 < i < n ensures keys[i - 1] == s[i * 24..i * 24 + 24] {
          assert keys[i - 1] == tail[(i - 1) * 24..(i - 1) * 24 + 24];
        }
      }
    }
  }

  /** The size the decoder compares with, in Go's 64-bit arithmetic. */
  function DeleteNeeds(count: u64): int
  {
    Int64(9 + Int64(Int64(count) * 24))
  }

  /** The 64-bit size wraps around, passes the check, and the allocation or the
      slicing that follows stops the process. */
  predicate DeleteStops(data: Bytes)
  {
    && |data| >= 9 && data[0] == DELETE_BATCH
    && DeleteNeeds(Uint64(data[1..])) <= |data| < 9 + Uint64(data[1..]) * 24
  }

  /** Wrapping never overstates the size, and is exact while it fits. */
  lemma NeedsAtMost(count: u64)
    ensures DeleteNeeds(count) <= 9 + count * 24
    ensures 9 + count * 24 < TWO63 ==> DeleteNeeds(count) == 9 + count * 24
  {
    Wraps(count);
    Wraps(Int64(count) * 24);
    Wraps(9 + Int64(Int64(count) * 24));
  }

  lemma Wraps(n: int)
    ensures n >= -TWO63 ==> Int64(n) <= n
    ensures -TWO63 <= n < TWO63 ==> Int64(n) == n
  {
  }

  method UnmarshalDeleteBatch(data: Bytes) returns (r: Option<seq<Bytes>>, stopped: bool)
    ensures stopped <==> DeleteStops(data)
    ensures !stopped ==> r == DecodeDelete(data)
  {
    hide Int64;
    hide DeleteNeeds;
    stopped := false;
    if |data| < 1 + 8 || data[0] != DELETE_BATCH {
      return None, false;
    }
    var count: int := Uint64(data[1..]);
    ParseKeysSlices(count, data[9..]);
    NeedsAtMost(count);
    if |data| < DeleteNeeds(count) {
      return None, false;
    }
    if |data| < 9 + count * 24 {
      return None, true;
    }
    var keys: seq<Bytes> := [];
    ghost var parsed := ParseMany(ParseKey, count, data[9..]).value;
    for i := 0 to count
      invariant keys == parsed[..i]
    {
      var start := 9 + i * 24;
      assert parsed[i] == data[9..][i * 24..i * 24 + 24] == data[start..start + 24];
      keys := keys + [data[start..start + 24]];
    }
    assert parsed[..count] == parsed;
    return Some(keys), false;
  }

  predicate Stops(room: nat, cmd: Bytes)
  {
    StoreStops(room, cmd) || DeleteStops(cmd)
  }

  /** No command this system encodes stops a decoder, as long as a batch that
      could be held when it was encoded can be held again. */
  lemma OwnCommandsNeverStop(room: nat, items: seq<StoreItem>, keys: seq<Bytes>)
    requires |items| <= room && |items| < TWO64
    requires KeysFit(keys) && 9 + |keys| * 24 < TWO63
    ensures !Stops(room, EncodeStore(items)) && !Stops(room, EncodeDelete(keys).value)
  {
    hide BigEndian;
    hide Int64;
    hide DeleteNeeds;
    hide PrintAll;
    var a, b := EncodeStore(items), EncodeDelete(keys).value;
    assert a[1..] == BigEndian(|items|, 8) + PrintAll(PrintItem, items);
    Uint64OfPut(|items|, PrintAll(PrintItem, items));
    assert b[1..] == BigEndian(|keys|, 8) + PrintAll(PrintKey, keys);
    Uint64OfPut(|keys|, PrintAll(PrintKey, keys));
    NeedsAtMost(|keys|);
  }
}
