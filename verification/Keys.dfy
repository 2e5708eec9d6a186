/** The 24-byte event key schema, its range bounds and the time buckets. */
module Keys {
  import opened Bytes

  const EVENT_KEY_LEN: nat := 24

  /** "metadata/event-repo/last-id": the repository's persisted counter. */
  const LAST_ID_KEY: Bytes :=
    METADATA + [0x2f, 0x65, 0x76, 0x65, 0x6e, 0x74, 0x2d, 0x72,
                0x65, 0x70, 0x6f, 0x2f, 0x6c, 0x61, 0x73, 0x74, 0x2d, 0x69, 0x64]

  /** "metadata/raft/applied-index": the last log index folded into storage. */
  const APPLIED_INDEX_KEY: Bytes :=
    METADATA + [0x2f, 0x72, 0x61, 0x66, 0x74, 0x2f, 0x61, 0x70,
                0x70, 0x6c, 0x69, 0x65, 0x64, 0x2d, 0x69, 0x6e, 0x64, 0x65, 0x78]

  const METADATA: Bytes := [0x6d, 0x65, 0x74, 0x61, 0x64, 0x61, 0x74, 0x61]

  lemma MetadataKeysDiffer()
    ensures LAST_ID_KEY != APPLIED_INDEX_KEY && |LAST_ID_KEY| == |APPLIED_INDEX_KEY| == 27
  {
    assert LAST_ID_KEY[9] != APPLIED_INDEX_KEY[9];
  }

  // ── Event keys ──────────────────────────────────────────────────────────────

  /** The three integers an event key carries, in the order they sort by. */
  datatype EventParts = EventParts(topicHash: u64, bucket: u64, eventID: u64)
  {
    predicate Precedes(o: EventParts)
    {
      topicHash < o.topicHash || (topicHash == o.topicHash &&
        (bucket < o.bucket || (bucket == o.bucket && eventID < o.eventID)))
    }
  }

  function EventKey(bucket: u64, topicHash: u64, eventID: u64): (key: Bytes)
    ensures |key| == EVENT_KEY_LEN
  {
    BigEndian(topicHash, 8) + BigEndian(bucket, 8) + BigEndian(eventID, 8)
  }

  function HashOf(key: Bytes): u64
    requires |key| == EVENT_KEY_LEN
  {
    Uint64(key)
  }

  function BucketOf(key: Bytes): u64
    requires |key| == EVENT_KEY_LEN
  {
    Uint64(key[8..])
  }

  method BuildEventKey(bucket: u64, topicHash: u64, eventID: u64) returns (key: array<byte>)
    ensures fresh(key) && key[..] == EventKey(bucket, topicHash, eventID)
  {
    key := new byte[24];
    PutBigEndian(key, 0, topicHash, 8);
    PutBigEndian(key, 8, bucket, 8);
    PutBigEndian(key, 16, eventID, 8);
    assert key[..] == key[..24];
  }

  function ParseEventKey(key: Bytes): (r: Option<EventParts>)
    ensures r.Some? <==> |key| == EVENT_KEY_LEN
  {
    if |key| != EVENT_KEY_LEN then None
    else Some(EventParts(Uint64(key), Uint64(key[8..]), Uint64(key[16..])))
  }

  /** Parsing inverts building, and every 24-byte string is the event key of
      the parts it parses to: parts and 24-byte strings are in bijection. */
  lemma EventKeyBijection(key: Bytes, p: EventParts)
    ensures ParseEventKey(key) == Some(p) <==> key == EventKey(p.bucket, p.topicHash, p.eventID)
  {
    var built := EventKey(p.bucket, p.topicHash, p.eventID);
    assert ParseEventKey(built) == Some(p) by {
      Uint64OfPut(p.topicHash, built[8..]);
      Uint64OfPut(p.bucket, built[16..]);
      Uint64OfPut(p.eventID, []);
      assert built == BigEndian(p.topicHash, 8) + built[8..];
      assert built[8..] == BigEndian(p.bucket, 8) + built[16..];
      assert built[16..] == BigEndian(p.eventID, 8) + [];
    }
    if |key| == EVENT_KEY_LEN {
      EncodeBigEndian(key[..8]);
      EncodeBigEndian(key[8..][..8]);
      EncodeBigEndian(key[16..][..8]);
      assert key == key[..8] + key[8..][..8] + key[16..][..8];
    }
  }

  /** Byte-wise order of event keys is the order of (topicHash, bucket, eventID). */
  lemma EventKeyOrder(p: EventParts, q: EventParts)
    ensures Below(EventKey(p.bucket, p.topicHash, p.eventID), EventKey(q.bucket, q.topicHash, q.eventID))
            <==> p.Precedes(q)
  {
    CapacityValues();
    var ph, pb, pe := BigEndian(p.topicHash, 8), BigEndian(p.bucket, 8), BigEndian(p.eventID, 8);
    var qh, qb, qe := BigEndian(q.topicHash, 8), BigEndian(q.bucket, 8), BigEndian(q.eventID, 8);
    BelowConcat(ph + pb, qh + qb, pe, qe);
    BelowConcat(ph, qh, pb, qb);
    BigEndianOrder(p.topicHash, q.topicHash, 8);
    BigEndianOrder(p.bucket, q.bucket, 8);
    BigEndianOrder(p.eventID, q.eventID, 8);
    assert ph + pb == qh + qb <==> ph == qh && pb == qb by {
      if ph + pb == qh + qb { assert ph == (ph + pb)[..8] && pb == (ph + pb)[8..]; }
    }
  }

  // ── Range bounds ────────────────────────────────────────────────────────────

  function TopicLowerBound(topicHash: u64): Bytes
  {
    BigEndian(topicHash, 8)
  }

  function DueUpperBound(topicHash: u64, maxBucket: u64): Bytes
  {
    BigEndian(topicHash, 8) + BigEndian((maxBucket + 1) % TWO64, 8)
  }

  method BuildDueUpperBound(topicHash: u64, maxBucket: u64) returns (key: array<byte>)
    ensures fresh(key) && key[..] == DueUpperBound(topicHash, maxBucket)
  {
    key := new byte[16];
    PutBigEndian(key, 0, topicHash, 8);
    PutBigEndian(key, 8, (maxBucket + 1) % TWO64, 8);
    assert key[..] == key[..16];
  }

  /** The range one dispatch scan visits: inclusive below, exclusive above. */
  predicate InDueRange(key: Bytes, topicHash: u64, maxBucket: u64)
  {
    !Below(key, TopicLowerBound(topicHash)) && Below(key, DueUpperBound(topicHash, maxBucket))
  }

  /** Any key of at least 16 bytes, event key or not, lies in the due range
      exactly when its first word is the hash and its second at most the
      bucket. At the largest bucket the bound wraps to zero and the range holds
      none of them. */
  lemma DueRangeExact(key: Bytes, h: u64, b: u64)
    requires |key| >= 16
    ensures InDueRange(key, h, b) <==> Uint64(key) == h && Uint64(key[8..]) <= b && b + 1 < TWO64
  {
    hide BigEndian;
    hide Uint64;
    var next := (b + 1) % TWO64;
    WordBelow(key, h, []);
    assert TopicLowerBound(h) == BigEndian(h, 8) + [];
    WordBelow(key, h, BigEndian(next, 8));
    WordBelow(key[8..], next, []);
    assert BigEndian(next, 8) == BigEndian(next, 8) + [];
  }

  /** Comparing against a bound that starts with a uint64 compares words first. */
  lemma WordBelow(key: Bytes, w: u64, rest: Bytes)
    requires |key| >= 8
    ensures Below(key, BigEndian(w, 8) + rest) <==> Uint64(key) < w || (Uint64(key) == w && Below(key[8..], rest))
  {
    CapacityValues();
    DecodeBigEndian(w, 8);
    BelowConcat(key[..8], BigEndian(w, 8), key[8..], rest);
    BelowIsIntegerOrder(key[..8], BigEndian(w, 8));
    assert key == key[..8] + key[8..];
  }

  /** A later bucket's range contains an earlier one's. */
  lemma DueRangeGrows(key: Bytes, h: u64, b: u64, later: u64)
    requires InDueRange(key, h, b) && b <= later && later + 1 < TWO64
    ensures InDueRange(key, h, later)
  {
    hide BigEndian;
    hide Below;
    if b < later {
      CapacityValues();
      BigEndianOrder(b + 1, later + 1, 8);
      BelowConcat(BigEndian(h, 8), BigEndian(h, 8), BigEndian(b + 1, 8), BigEndian(later + 1, 8));
      BelowTransitive(key, DueUpperBound(h, b), DueUpperBound(h, later));
    }
  }

  /** The scan yields exactly a topic's due events. */
  lemma DueEventsExact(p: EventParts, h: u64, b: u64)
    requires b + 1 < TWO64
    ensures InDueRange(EventKey(p.bucket, p.topicHash, p.eventID), h, b) <==> p.topicHash == h && p.bucket <= b
  {
    var key := EventKey(p.bucket, p.topicHash, p.eventID);
    EventKeyBijection(key, p);
    DueRangeExact(key, h, b);
  }

  /** First bucket at which a metadata key can enter a due range: its byte 8 is
      '/', so its second word is at least 0x2f00000000000000. */
  const METADATA_HORIZON: int := 0x2f00_0000_0000_0000

  lemma MetadataNeverDue(h: u64, b: u64)
    requires b < METADATA_HORIZON
    ensures !InDueRange(LAST_ID_KEY, h, b) && !InDueRange(APPLIED_INDEX_KEY, h, b)
  {
    DueRangeExact(LAST_ID_KEY, h, b);
    DueRangeExact(APPLIED_INDEX_KEY, h, b);
    SlashWord(LAST_ID_KEY[8..]);
    SlashWord(APPLIED_INDEX_KEY[8..]);
  }

  lemma SlashWord(s: Bytes)
    requires |s| >= 8 && s[0] == 0x2f
    ensures Uint64(s) >= METADATA_HORIZON
  {
    LeadingByte(s[..8]);
    CapacityValues();
    assert 256 * Capacity(7) == Capacity(8);
  }

  lemma {:induction false} LeadingByte(s: Bytes)
    requires s != []
    ensures FromBigEndian(s) >= s[0] * Capacity(|s| - 1)
  {
    hide *;
    var init, last := s[..|s| - 1], s[|s| - 1];
    assert s == init + [last];
    FromBigEndianStep(init, last);
    if init == [] {
      NoBytes();
    } else {
      LeadingByte(init);
      CapacityStep(|init|);
      Scaled(FromBigEndian(init), s[0], Capacity(|init| - 1));
    }
  }

  lemma NoBytes()
    ensures FromBigEndian([]) == 0 && Capacity(0) == 1
  {
  }

  lemma Scaled(v: nat, b: nat, c: nat)
    requires v >= b * c
    ensures v * 256 >= b * (256 * c)
  {
    assert b * (256 * c) == 256 * (b * c);
  }

  // ── Time buckets ────────────────────────────────────────────────────────────

  const NS_PER_MS: int := 1_000_000

  /** What config validation leaves in TimeBucketSize (nanoseconds): a size
      under one millisecond becomes zero. */
  function ValidatedBucketSize(ns: int): (r: int)
    ensures r == 0 || r / NS_PER_MS >= 1
    ensures BucketMs(r) == if ns < NS_PER_MS then 1 else ns / NS_PER_MS
  {
    if ns < NS_PER_MS then 0 else ns
  }

  /** Bucket width in milliseconds: one when no size is configured. */
  function BucketMs(sizeNs: int): (ms: int)
    requires sizeNs <= 0 || sizeNs / NS_PER_MS >= 1
    ensures ms >= 1
  {
    if sizeNs <= 0 then 1 else sizeNs / NS_PER_MS
  }

  /** The precondition is that the division below has a nonzero divisor, which
      ValidatedBucketSize establishes for every configured size. */
  function CalculateBucket(unixMs: int, sizeNs: int): (b: u64)
    requires -TWO63 <= unixMs < TWO63
    requires sizeNs <= 0 || sizeNs / NS_PER_MS >= 1
    ensures b < TWO63
  {
    if unixMs <= 0 then 0
    else if sizeNs <= 0 then unixMs
    else DivAtMost(unixMs, sizeNs / NS_PER_MS); unixMs / (sizeNs / NS_PER_MS)
  }

  lemma DivAtMost(a: nat, b: nat)
    requires b >= 1
    ensures 0 <= a / b <= a
  {
    assert a == (a / b) * b + a % b;
    assert (a / b) * b == (a / b) + (a / b) * (b - 1);
  }

  /** A message firing at fireAt is inside the scan made at time now exactly
      when it fires before the end of now's bucket. */
  lemma DueExactly(fireAt: int, now: int, sizeNs: int)
    requires -TWO63 <= fireAt < TWO63 && 0 <= now < TWO63
    requires sizeNs <= 0 || sizeNs / NS_PER_MS >= 1
    ensures var S := BucketMs(sizeNs);
            CalculateBucket(fireAt, sizeNs) <= CalculateBucket(now, sizeNs) <==> fireAt < (now / S + 1) * S
  {
    var S := BucketMs(sizeNs);
    BucketIsQuotient(now, sizeNs);
    if fireAt > 0 {
      BucketIsQuotient(fireAt, sizeNs);
      QuotientOrder(fireAt, now / S, S);
    } else {
      QuotientOrder(0, now / S, S);
    }
  }

  lemma BucketIsQuotient(t: int, sizeNs: int)
    requires 0 <= t < TWO63
    requires sizeNs <= 0 || sizeNs / NS_PER_MS >= 1
    ensures CalculateBucket(t, sizeNs) == t / BucketMs(sizeNs)
  {
  }

  lemma QuotientOrder(a: nat, n: nat, s: nat)
    requires s >= 1
    ensures a / s <= n <==> a < (n + 1) * s
  {
    var f := a / s;
    assert a == f * s + a % s;
    if f <= n { MulMonotone(f + 1, n + 1, s); } else { MulMonotone(n + 1, f, s); }
  }

  lemma MulMonotone(a: int, b: int, s: nat)
    requires a <= b
    ensures a * s <= b * s
  {
    assert b * s - a * s == (b - a) * s;
  }

  lemma BucketGrows(t: int, later: int, sizeNs: int)
    requires 0 <= t <= later < TWO63
    requires sizeNs <= 0 || sizeNs / NS_PER_MS >= 1
    ensures CalculateBucket(t, sizeNs) <= CalculateBucket(later, sizeNs)
  {
    var s := BucketMs(sizeNs);
    BucketIsQuotient(t, sizeNs);
    BucketIsQuotient(later, sizeNs);
    BucketEnd(later, s);
    QuotientOrder(t, later / s, s);
  }

  /** A bucket has begun exactly when its first millisecond has come. */
  lemma BucketBegun(b: u64, now: int, sizeNs: int)
    requires 0 <= now < TWO63
    requires sizeNs <= 0 || sizeNs / NS_PER_MS >= 1
    ensures b <= CalculateBucket(now, sizeNs) <==> b * BucketMs(sizeNs) <= now
  {
    hide CalculateBucket;
    hide BucketMs;
    BucketIsQuotient(now, sizeNs);
    if b > 0 { QuotientOrder(now, b - 1, BucketMs(sizeNs)); }
  }

  /** A time lies in its own bucket. */
  lemma BucketSpan(t: int, sizeNs: int)
    requires 0 <= t < TWO63
    requires sizeNs <= 0 || sizeNs / NS_PER_MS >= 1
    ensures var b := CalculateBucket(t, sizeNs); b * BucketMs(sizeNs) <= t < (b + 1) * BucketMs(sizeNs)
  {
    hide CalculateBucket;
    hide BucketMs;
    BucketBegun(CalculateBucket(t, sizeNs), t, sizeNs);
    BucketBegun(CalculateBucket(t, sizeNs) + 1, t, sizeNs);
  }

  /** Delivery time bound: nothing overdue is missed, nothing is a whole bucket
      early, and the scan bound never wraps. */
  lemma DeliveryTimeBound(fireAt: int, now: int, sizeNs: int)
    requires -TWO63 <= fireAt < TWO63 && 0 <= now < TWO63
    requires sizeNs <= 0 || sizeNs / NS_PER_MS >= 1
    ensures fireAt <= now ==> CalculateBucket(fireAt, sizeNs) <= CalculateBucket(now, sizeNs)
    ensures CalculateBucket(fireAt, sizeNs) <= CalculateBucket(now, sizeNs) ==> fireAt < now + BucketMs(sizeNs)
    ensures CalculateBucket(now, sizeNs) + 1 < TWO64
  {
    DueExactly(fireAt, now, sizeNs);
    BucketEnd(now, BucketMs(sizeNs));
  }

  lemma BucketEnd(now: nat, s: nat)
    requires s >= 1
    ensures now < (now / s + 1) * s <= now + s
    ensures (now / s + 1) * s == now + 1 <==> now % s == s - 1
  {
    assert now == (now / s) * s + now % s;
    assert (now / s + 1) * s == (now / s) * s + s;
  }

  /** "Visible only after the delay expires" holds at an instant exactly when
      that instant is the last millisecond of its bucket. */
  lemma NeverEarlyIff(now: int, sizeNs: int)
    requires 0 <= now < TWO63 - 1
    requires sizeNs <= 0 || sizeNs / NS_PER_MS >= 1
    ensures (forall fireAt | -TWO63 <= fireAt < TWO63 ::
              CalculateBucket(fireAt, sizeNs) <= CalculateBucket(now, sizeNs) ==> fireAt <= now)
            <==> now % BucketMs(sizeNs) == BucketMs(sizeNs) - 1
  {
    var S := BucketMs(sizeNs);
    BucketEnd(now, S);
    if now % S == S - 1 {
      forall fireAt | -TWO63 <= fireAt < TWO63
        ensures CalculateBucket(fireAt, sizeNs) <= CalculateBucket(now, sizeNs) ==> fireAt <= now
      {
        DueExactly(fireAt, now, sizeNs);
      }
    } else {
      DueExactly(now + 1, now, sizeNs);
    }
  }

  /** With two-millisecond buckets, the scan at time 0 already holds an event
      that fires at time 1. */
  lemma OneMillisecondEarly()
    ensures var size := 2 * NS_PER_MS;
            InDueRange(EventKey(CalculateBucket(1, size), 7, 1), 7, CalculateBucket(0, size))
  {
    hide InDueRange;
    hide EventKey;
    DueEventsExact(EventParts(7, 0, 1), 7, 0);
  }
}
