/** Messages as clients publish them and as storage keeps them. */
module Messages {
  import opened Bytes
  import opened Keys

  /** A secondary index as the client sent it; only its encoding matters here. */
  datatype Index = Index(body: Bytes)

  datatype Message = Message(topic: string, payload: Bytes, delayMs: int, ttlMs: int, indexes: seq<Index>)

  datatype StoredMessage = StoredMessage(topic: string, payload: Bytes, enqueuedAtMs: int,
                                         delayMs: int, ttlMs: int, indexes: seq<Index>)

  /** The foreign parts: Protobuf encoding and decoding, either of which may
      fail, the topic hash, and the validated bucket size in nanoseconds. */
  datatype Codec = Codec(encode: StoredMessage -> Option<Bytes>, encodeIndex: Index -> Option<Bytes>,
                         decode: Bytes -> Option<StoredMessage>, hash: string -> u64, bucketSize: int)
  {
    predicate Valid() { bucketSize <= 0 || bucketSize / NS_PER_MS >= 1 }
  }

  /** Go's int64 sum: it wraps when the delay is too large. */
  function FireAt(m: StoredMessage): (t: int)
    ensures -TWO63 <= t < TWO63
  {
    Int64(m.enqueuedAtMs + m.delayMs)
  }

  /** The TTL check of the dispatcher and the janitor; the deadline is an int64
      sum. */
  predicate Expired(m: StoredMessage, nowMs: int)
  {
    m.ttlMs > 0 && nowMs >= Int64(m.enqueuedAtMs + m.ttlMs)
  }

  /** A delay that overflows the clock is not refused: the message lands in
      bucket zero and is due at once, while any other message waits for the
      bucket of its true firing time. */
  lemma DelayHonouredIff(m: StoredMessage, size: int)
    requires 0 <= m.enqueuedAtMs < TWO63 && 0 <= m.delayMs < TWO63
    requires size <= 0 || size / NS_PER_MS >= 1
    ensures FireAt(m) == m.enqueuedAtMs + m.delayMs <==> m.enqueuedAtMs + m.delayMs < TWO63
    ensures m.enqueuedAtMs + m.delayMs >= TWO63 ==> CalculateBucket(FireAt(m), size) == 0
  {
    assert m.enqueuedAtMs + m.delayMs >= TWO63 ==> FireAt(m) == m.enqueuedAtMs + m.delayMs - TWO64;
  }

  /** A message published at time 1 with the largest delay is due at time 1. */
  lemma LongestDelayIsNone()
    ensures var m := StoredMessage("t", [], 1, TWO63 - 1, 0, []);
            FireAt(m) < 0 && CalculateBucket(FireAt(m), 0) <= CalculateBucket(1, 0)
  {
    DelayHonouredIff(StoredMessage("t", [], 1, TWO63 - 1, 0, []), 0);
  }

  /** The TTL sum stays inside an int64, or there is no TTL. */
  predicate TtlFits(m: StoredMessage)
  {
    m.ttlMs <= 0 || m.enqueuedAtMs + m.ttlMs < TWO63
  }

  /** The true lifetime: forever without a TTL, else until the TTL has passed. */
  predicate Lives(m: StoredMessage, now: int)
  {
    m.ttlMs <= 0 || now < m.enqueuedAtMs + m.ttlMs
  }

  /** From publication on the code's check is the true one if and only if the sum
      fits: a TTL that overflows the clock is not refused and has elapsed at once. */
  lemma TtlHonouredIff(m: StoredMessage)
    requires 0 <= m.enqueuedAtMs < TWO63 && m.ttlMs < TWO63
    ensures (forall now | m.enqueuedAtMs <= now < TWO63 :: Expired(m, now) <==> !Lives(m, now)) <==> TtlFits(m)
    ensures !TtlFits(m) ==> Expired(m, m.enqueuedAtMs) && Lives(m, m.enqueuedAtMs)
  {
    if !TtlFits(m) {
      assert Int64(m.enqueuedAtMs + m.ttlMs) == m.enqueuedAtMs + m.ttlMs - TWO64;
      assert Expired(m, m.enqueuedAtMs);
    }
  }

  /** A message published at time 1 with the largest TTL has expired at time 1. */
  lemma LongestTtlIsNone()
    ensures Expired(StoredMessage("t", [], 1, 0, TWO63 - 1, []), 1)
  {
    TtlHonouredIff(StoredMessage("t", [], 1, 0, TWO63 - 1, []));
  }
}
