/** Publishing: the standalone path writes storage directly, the replicated path
    encodes a command that the state machine later decodes and stores. */
module Producer {
  import opened Bytes
  import opened Keys
  import opened Storage
  import opened EventCommands
  import opened EventReplica
  import opened EventIds
  import opened Messages
  import EventStateMachine

  // ── What one message becomes ────────────────────────────────────────────────

  predicate Accepted(m: Message) { m.delayMs >= 0 && m.ttlMs >= 0 }

  function ToStored(m: Message, now: int): StoredMessage
  {
    StoredMessage(m.topic, m.payload, now, m.delayMs, m.ttlMs, m.indexes)
  }

  function EncodeIndexes(c: Codec, indexes: seq<Index>): Option<seq<Bytes>>
  {
    if indexes == [] then Some([])
    else
      var init, last := EncodeIndexes(c, indexes[..|indexes| - 1]), c.encodeIndex(indexes[|indexes| - 1]);
      if init.Some? && last.Some? then Some(init.value + [last.value]) else None
  }

  /** The stored form of a message, or None when it cannot be encoded. */
  function EncodeStored(c: Codec, m: StoredMessage): Option<StoreItem>
    requires c.Valid()
  {
    var body, indexes := c.encode(m), EncodeIndexes(c, m.indexes);
    if body.Some? && indexes.Some?
    then Some(StoreItem(CalculateBucket(FireAt(m), c.bucketSize), c.hash(m.topic), indexes.value, body.value))
    else None
  }

  function ItemOf(c: Codec, m: Message, now: int): Option<StoreItem>
    requires c.Valid()
  {
    if Accepted(m) then EncodeStored(c, ToStored(m, now)) else None
  }

  /** The items of a batch, or None when any message is refused. */
  function ItemsOf(c: Codec, ms: seq<Message>, now: int): (r: Option<seq<StoreItem>>)
    requires c.Valid()
    ensures r.Some? ==> |r.value| == |ms|
  {
    if ms == [] then Some([])
    else
      var init, last := ItemsOf(c, ms[..|ms| - 1], now), ItemOf(c, ms[|ms| - 1], now);
      if init.Some? && last.Some? then Some(init.value + [last.value]) else None
  }

  lemma {:induction false} RefusedPrefix(c: Codec, ms: seq<Message>, now: int, n: nat)
    requires c.Valid() && n <= |ms| && ItemsOf(c, ms[..n], now).None?
    ensures ItemsOf(c, ms, now).None?
  {
    hide ItemOf;
    if n < |ms| {
      var init := ms[..|ms| - 1];
      assert init[..n] == ms[..n];
      RefusedPrefix(c, init, now, n);
    } else {
      assert ms[..n] == ms;
    }
  }

  // ── What is published is what is stored ─────────────────────────────────────

  lemma {:induction false} IndexesEncoded(c: Codec, indexes: seq<Index>)
    ensures EncodeIndexes(c, indexes).Some? <==> forall j :: 0 <= j < |indexes| ==> c.encodeIndex(indexes[j]).Some?
    ensures EncodeIndexes(c, indexes).Some? ==>
              var r := EncodeIndexes(c, indexes).value;
              |r| == |indexes| && forall j :: 0 <= j < |indexes| ==> c.encodeIndex(indexes[j]) == Some(r[j])
  {
    if indexes != [] {
      IndexesEncoded(c, indexes[..|indexes| - 1]);
    }
  }

  /** The message's bucket is the one its delay ends in. */
  lemma PublishedBucket(c: Codec, m: Message, now: int)
    requires c.Valid() && ItemOf(c, m, now).Some? && 0 <= now && now + m.delayMs < TWO63
    ensures var b := ItemOf(c, m, now).value.bucket;
            b * BucketMs(c.bucketSize) <= now + m.delayMs < (b + 1) * BucketMs(c.bucketSize)
  {
    hide CalculateBucket;
    hide BucketMs;
    BucketSpan(now + m.delayMs, c.bucketSize);
  }

  /** Decoding inverts encoding. */
  ghost predicate DecodesBack(c: Codec)
  {
    forall x :: c.encode(x).Some? ==> c.decode(c.encode(x).value) == Some(x)
  }

  /** The stored message carries what was published, under the hash of its topic,
      and one entry for each index in order. */
  lemma PublishedContent(c: Codec, m: Message, now: int)
    requires c.Valid() && ItemOf(c, m, now).Some? && DecodesBack(c)
    ensures var it := ItemOf(c, m, now).value;
            && c.decode(it.msg) == Some(StoredMessage(m.topic, m.payload, now, m.delayMs, m.ttlMs, m.indexes))
            && it.topicHash == c.hash(m.topic) && |it.indexes| == |m.indexes|
            && forall j :: 0 <= j < |m.indexes| ==> c.encodeIndex(m.indexes[j]) == Some(it.indexes[j])
  {
    hide CalculateBucket;
    IndexesEncoded(c, m.indexes);
    var x := StoredMessage(m.topic, m.payload, now, m.delayMs, m.ttlMs, m.indexes);
    assert c.encode(x).Some?;
  }

  /** What a message must satisfy on its own. */
  predicate Publishable(c: Codec, m: Message, now: int)
  {
    && m.delayMs >= 0 && m.ttlMs >= 0
    && c.encode(StoredMessage(m.topic, m.payload, now, m.delayMs, m.ttlMs, m.indexes)).Some?
    && forall j :: 0 <= j < |m.indexes| ==> c.encodeIndex(m.indexes[j]).Some?
  }

  lemma ItemIff(c: Codec, m: Message, now: int)
    requires c.Valid()
    ensures ItemOf(c, m, now).Some? <==> Publishable(c, m, now)
  {
    hide CalculateBucket;
    IndexesEncoded(c, m.indexes);
  }

  /** A batch is accepted if and only if no message has a negative delay or TTL and
      every message and index can be encoded; its items are then its messages', in
      order. */
  lemma {:induction false} BatchAcceptedIff(c: Codec, ms: seq<Message>, now: int)
    requires c.Valid()
    ensures ItemsOf(c, ms, now).Some? <==> forall i :: 0 <= i < |ms| ==> Publishable(c, ms[i], now)
    ensures ItemsOf(c, ms, now).Some? ==>
              forall i :: 0 <= i < |ms| ==> ItemOf(c, ms[i], now) == Some(ItemsOf(c, ms, now).value[i])
  {
    hide ItemOf;
    hide Publishable;
    if ms != [] {
      BatchAcceptedIff(c, ms[..|ms| - 1], now);
      ItemIff(c, ms[|ms| - 1], now);
    }
  }

  /** The item stands under the topic's hash and, unless the firing time overflows,
      in the bucket that holds it. */
  predicate FiledFor(c: Codec, m: Message, now: int, it: StoreItem)
    requires c.Valid()
  {
    && it.topicHash == c.hash(m.topic)
    && (now + m.delayMs < TWO63 ==>
          it.bucket * BucketMs(c.bucketSize) <= now + m.delayMs < (it.bucket + 1) * BucketMs(c.bucketSize))
  }

  /** Every item of an accepted batch is filed under its message's topic and time. */
  lemma BatchFiled(c: Codec, ms: seq<Message>, now: int)
    requires c.Valid()
    ensures ItemsOf(c, ms, now).Some? <==> forall i :: 0 <= i < |ms| ==> Publishable(c, ms[i], now)
    ensures ItemsOf(c, ms, now).Some? && now >= 0 ==>
              forall i :: 0 <= i < |ms| ==> FiledFor(c, ms[i], now, ItemsOf(c, ms, now).value[i])
  {
    hide ItemsOf;
    hide CalculateBucket;
    hide BucketMs;
    hide Publishable;
    BatchAcceptedIff(c, ms, now);
    if ItemsOf(c, ms, now).Some? && now >= 0 {
      forall i | 0 <= i < |ms| ensures FiledFor(c, ms[i], now, ItemsOf(c, ms, now).value[i]) {
        if now + ms[i].delayMs < TWO63 { PublishedBucket(c, ms[i], now); }
      }
    }
  }

  // ── The two paths ───────────────────────────────────────────────────────────

  /** The item-building loop of the replicated path. */
  method BuildItems(c: Codec, ms: seq<Message>, now: int) returns (r: Option<seq<StoreItem>>)
    requires c.Valid()
    ensures r == ItemsOf(c, ms, now)
    ensures r.Some? <==> forall i :: 0 <= i < |ms| ==> Publishable(c, ms[i], now)
    ensures r.Some? && now >= 0 ==>
              |r.value| == |ms| && forall i :: 0 <= i < |ms| ==> FiledFor(c, ms[i], now, r.value[i])
  {
    hide EncodeStored;
    BatchFiled(c, ms, now);
    var items := [];
    for i := 0 to |ms|
      invariant ItemsOf(c, ms[..i], now) == Some(items)
    {
      assert ms[..i + 1][..i] == ms[..i];
      if ms[i].delayMs < 0 || ms[i].ttlMs < 0 {
        RefusedPrefix(c, ms, now, i + 1);
        return None;
      }
      var it := BuildItem(c, ToStored(ms[i], now));
      if it.None? {
        RefusedPrefix(c, ms, now, i + 1);
        return None;
      }
      items := items + [it.value];
    }
    assert ms[..|ms|] == ms;
    return Some(items);
  }

  method BuildItem(c: Codec, m: StoredMessage) returns (r: Option<StoreItem>)
    requires c.Valid()
    ensures r == EncodeStored(c, m)
  {
    var body := c.encode(m);
    if body.None? {
      return None;
    }
    var indexes: seq<Bytes> := [];
    for j := 0 to |m.indexes|
      invariant EncodeIndexes(c, m.indexes[..j]) == Some(indexes)
    {
      assert m.indexes[..j + 1][..j] == m.indexes[..j];
      var idx := c.encodeIndex(m.indexes[j]);
      if idx.None? {
        RefusedIndex(c, m.indexes, j + 1);
        return None;
      }
      indexes := indexes + [idx.value];
    }
    assert m.indexes[..|m.indexes|] == m.indexes;
    return Some(StoreItem(CalculateBucket(FireAt(m), c.bucketSize), c.hash(m.topic), indexes, body.value));
  }

  lemma {:induction false} RefusedIndex(c: Codec, indexes: seq<Index>, n: nat)
    requires n <= |indexes| && EncodeIndexes(c, indexes[..n]).None?
    ensures EncodeIndexes(c, indexes).None?
  {
    if n < |indexes| {
      var init := indexes[..|indexes| - 1];
      assert init[..n] == indexes[..n];
      RefusedIndex(c, init, n);
    } else {
      assert indexes[..n] == indexes;
    }
  }

  /** IDs a batch draws: one per message up to and including the first that
      passes the sign checks but cannot be encoded. */
  function IdsDrawn(c: Codec, ms: seq<Message>, now: int): nat
    requires c.Valid()
  {
    if ms == [] then 0
    else
      var init := ms[..|ms| - 1];
      IdsDrawn(c, init, now) + if ItemsOf(c, init, now).Some? && Accepted(ms[|ms| - 1]) then 1 else 0
  }

  lemma {:induction false} NoIdsAfterRefusal(c: Codec, ms: seq<Message>, now: int, n: nat)
    requires c.Valid() && n <= |ms| && ItemsOf(c, ms[..n], now).None?
    ensures IdsDrawn(c, ms, now) == IdsDrawn(c, ms[..n], now)
  {
    hide ItemOf;
    if n < |ms| {
      var init := ms[..|ms| - 1];
      assert init[..n] == ms[..n];
      NoIdsAfterRefusal(c, init, now, n);
      RefusedPrefix(c, init, now, n);
    } else {
      assert ms[..n] == ms;
    }
  }

  /** The first refused message decides the whole batch. */
  lemma RefusedAt(c: Codec, ms: seq<Message>, now: int, i: nat)
    requires c.Valid() && i < |ms| && ItemsOf(c, ms[..i], now).Some? && ItemOf(c, ms[i], now).None?
    ensures ItemsOf(c, ms, now).None?
    ensures IdsDrawn(c, ms, now) == i + if Accepted(ms[i]) then 1 else 0
  {
    hide ItemOf;
    assert ms[..i + 1][..i] == ms[..i];
    AllIdsDrawn(c, ms[..i], now);
    RefusedPrefix(c, ms, now, i + 1);
    NoIdsAfterRefusal(c, ms, now, i + 1);
  }

  /** A refused batch has drawn one ID for each message before the first one that
      is refused, and one for that message unless its delay or TTL is negative. */
  lemma IdsDrawnExactly(c: Codec, ms: seq<Message>, now: int, i: nat)
    requires c.Valid() && i < |ms| && !Publishable(c, ms[i], now)
    requires forall j :: 0 <= j < i ==> Publishable(c, ms[j], now)
    ensures IdsDrawn(c, ms, now) == i + if ms[i].delayMs >= 0 && ms[i].ttlMs >= 0 then 1 else 0
  {
    hide ItemOf;
    hide Publishable;
    BatchAcceptedIff(c, ms[..i], now);
    ItemIff(c, ms[i], now);
    RefusedAt(c, ms, now, i);
  }

  lemma AcceptedAt(c: Codec, ms: seq<Message>, now: int, i: nat)
    requires c.Valid() && i < |ms| && ItemsOf(c, ms[..i], now).Some? && ItemOf(c, ms[i], now).Some?
    ensures ItemsOf(c, ms[..i + 1], now) == Some(ItemsOf(c, ms[..i], now).value + [ItemOf(c, ms[i], now).value])
  {
    hide ItemOf;
    assert ms[..i + 1][..i] == ms[..i];
  }

  lemma BatchGrows(m: Storage.Store, items: seq<StoreItem>, it: StoreItem, c: u64)
    ensures m + BatchWrites(items, c) + ItemWrites(it, Advance(c, |items| + 1)) == m + BatchWrites(items + [it], c)
  {
    hide ItemWrites;
    WritesAssociate(m, BatchWrites(items, c), ItemWrites(it, Advance(c, |items| + 1)));
    assert (items + [it])[..|items|] == items;
  }

  /** Draws the next ID first and encodes afterwards, so a message that cannot
      be encoded still uses one up. */
  method StoreWithBatch(repo: EventStateMachine.EventRepository, b: Batch, c: Codec, m: StoredMessage)
    returns (ok: bool)
    requires c.Valid()
    modifies repo, b
    ensures ok <==> EncodeStored(c, m).Some?
    ensures repo.lastID == Advance(old(repo.lastID), 1)
    ensures ok ==> b.Result() == old(b.Result()) + ItemWrites(EncodeStored(c, m).value, repo.lastID)
  {
    hide BigEndian;
    hide ItemWrites;
    hide IndexWrites;
    hide EncodeStored;
    ghost var before := b.Result();
    repo.lastID := (repo.lastID + 1) % TWO64;
    var id := repo.lastID;
    b.Set(LAST_ID_KEY, BigEndian(id, 8));
    var it := BuildItem(c, m);
    ok := it.Some?;
    if ok {
      var k := BuildEventKey(it.value.bucket, it.value.topicHash, id);
      var key := k[..];
      b.Set(key, it.value.msg);
      repo.SetIndexes(b, it.value.indexes, key);
      ItemWritesInOrder(before, it.value, id);
    }
  }

  /** The step of a serialised run that handling this batch amounts to. */
  function CommitOf(c: Codec, ms: seq<Message>, now: int): Commit
    requires c.Valid()
  {
    match ItemsOf(c, ms, now)
    case Some(items) => Commit.Store(items)
    case None => Refused(IdsDrawn(c, ms, now))
  }

  lemma CommitEffect(c: Codec, ms: seq<Message>, now: int, m: Storage.Store, start: u64)
    requires c.Valid()
    ensures var items := ItemsOf(c, ms, now);
            Committed(Counted(m, start), CommitOf(c, ms, now))
            == Counted(if items.Some? then m + BatchWrites(items.value, start) else m,
                       Advance(start, IdsDrawn(c, ms, now)))
  {
    hide BatchWrites;
    if ItemsOf(c, ms, now).Some? { AllIdsDrawn(c, ms, now); }
  }

  /** All or nothing in storage; a refused batch only uses up IDs. */
  method ProcessStandaloneBatch(db: DB, repo: EventStateMachine.EventRepository, c: Codec, ms: seq<Message>, now: int)
    returns (ok: bool)
    requires c.Valid() && repo.db == db
    modifies db, repo
    ensures ok <==> ItemsOf(c, ms, now).Some?
    ensures ok ==> db.data == old(db.data) + BatchWrites(ItemsOf(c, ms, now).value, old(repo.lastID))
    ensures !ok ==> db.data == old(db.data)
    ensures repo.lastID == Advance(old(repo.lastID), IdsDrawn(c, ms, now))
    ensures Counted(db.data, repo.lastID) == Committed(old(Counted(db.data, repo.lastID)), CommitOf(c, ms, now))
  {
    hide CommitOf;
    hide Committed;
    hide ItemWrites;
    hide BatchWrites;
    hide EncodeStored;
    hide ItemsOf;
    hide IdsDrawn;
    hide Advance;
    ghost var before, start := db.data, repo.lastID;
    CommitEffect(c, ms, now, before, start);
    NothingYet(c, ms, now, before, start);
    var b := new Batch(db);
    ghost var items: seq<StoreItem> := [];
    for i := 0 to |ms|
      invariant db.data == before && b.db == db && fresh(b)
      invariant ItemsOf(c, ms[..i], now) == Some(items)
      invariant repo.lastID == Advance(start, i)
      invariant b.Result() == before + BatchWrites(items, start)
    {
      AdvanceTwice(start, i, 1);
      if ms[i].delayMs < 0 || ms[i].ttlMs < 0 {
        RefusedAt(c, ms, now, i);
        return false;
      }
      var stored := StoreWithBatch(repo, b, c, ToStored(ms[i], now));
      if !stored {
        RefusedAt(c, ms, now, i);
        return false;
      }
      AcceptedAt(c, ms, now, i);
      BatchGrows(before, items, ItemOf(c, ms[i], now).value, start);
      items := items + [ItemOf(c, ms[i], now).value];
    }
    assert ms[..|ms|] == ms;
    AllIdsDrawn(c, ms, now);
    b.Commit();
    ok := true;
  }

  lemma NothingYet(c: Codec, ms: seq<Message>, now: int, m: Storage.Store, start: u64)
    requires c.Valid()
    ensures ItemsOf(c, ms[..0], now) == Some([])
    ensures m + BatchWrites([], start) == m && Advance(start, 0) == start
  {
  }

  lemma {:induction false} AllIdsDrawn(c: Codec, ms: seq<Message>, now: int)
    requires c.Valid() && ItemsOf(c, ms, now).Some?
    ensures IdsDrawn(c, ms, now) == |ms|
  {
    hide EncodeStored;
    if ms != [] { AllIdsDrawn(c, ms[..|ms| - 1], now); }
  }
}
