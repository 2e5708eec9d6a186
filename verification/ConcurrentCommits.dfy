/** Standalone publishers run concurrently: each draws IDs from the shared
    counter while filling its own batch, and batches commit in any order. */
module ConcurrentCommits {
  import opened Bytes
  import opened Keys
  import opened Storage
  import opened EventCommands
  import opened EventReplica
  import opened EventIds

  /** A message together with the ID its handler drew for it. */
  datatype Assigned = Assigned(item: StoreItem, id: u64)

  /** A handler's batch has at least one message; its last one is singled out. */
  datatype Handled = Handled(earlier: seq<Assigned>, last: Assigned)
  {
    function LastKey(): Bytes { ItemKey(last.item, last.id) }
  }

  function WritesOf(b: seq<Assigned>): Storage.Store
  {
    if b == [] then map[] else WritesOf(b[..|b| - 1]) + ItemWrites(b[|b| - 1].item, b[|b| - 1].id)
  }

  function HandlerWrites(b: Handled): Storage.Store
  {
    WritesOf(b.earlier) + ItemWrites(b.last.item, b.last.id)
  }

  /** Storage after the batches commit in this order. */
  function CommitInOrder(m: Storage.Store, batches: seq<Handled>): Storage.Store
  {
    if batches == [] then m
    else CommitInOrder(m, batches[..|batches| - 1]) + HandlerWrites(batches[|batches| - 1])
  }

  /** IDs drawn after c, the last of them the largest; no colliding index. */
  predicate HandlerBatch(b: Handled, c: u64)
  {
    && CleanItem(b.last.item) && b.last.id > c
    && forall i :: 0 <= i < |b.earlier| ==> CleanItem(b.earlier[i].item) && c < b.earlier[i].id < b.last.id
  }

  predicate HandlerBatches(batches: seq<Handled>, c: u64)
  {
    forall i {:trigger batches[i]} :: 0 <= i < |batches| ==> HandlerBatch(batches[i], c)
  }

  lemma {:induction false} WritesBelow(b: seq<Assigned>, top: u64)
    requires forall i :: 0 <= i < |b| ==> CleanItem(b[i].item) && b[i].id < top
    ensures forall k :: k in WritesOf(b) && |k| == EVENT_KEY_LEN ==> EventIdOf(k) < top
  {
    hide ItemKey;
    hide EventIdOf;
    hide ItemWrites;
    if b != [] {
      var last := b[|b| - 1];
      WritesBelow(b[..|b| - 1], top);
      forall k | k in ItemWrites(last.item, last.id) && |k| == EVENT_KEY_LEN ensures EventIdOf(k) < top {
        ItemWritesOneEvent(last.item, last.id, k);
        ItemKeyId(last.item, last.id);
      }
    }
  }

  /** A batch leaves its last ID under the counter key, its last message under
      that message's key, and no event key with a larger ID. */
  lemma HandlerWritesEvents(b: Handled, c: u64)
    requires HandlerBatch(b, c)
    ensures LAST_ID_KEY in HandlerWrites(b) && HandlerWrites(b)[LAST_ID_KEY] == BigEndian(b.last.id, 8)
    ensures b.LastKey() in HandlerWrites(b)
    ensures forall k :: k in HandlerWrites(b) && |k| == EVENT_KEY_LEN ==> EventIdOf(k) <= b.last.id
  {
    hide ItemKey;
    hide EventIdOf;
    hide BigEndian;
    hide WritesOf;
    WritesBelow(b.earlier, b.last.id);
    var own := ItemWrites(b.last.item, b.last.id);
    assert LAST_ID_KEY in own && own[LAST_ID_KEY] == BigEndian(b.last.id, 8) by {
      MetadataKeysDiffer();
      assert LAST_ID_KEY !in b.last.item.indexes;
    }
    forall k | k in own && |k| == EVENT_KEY_LEN ensures EventIdOf(k) == b.last.id {
      ItemWritesOneEvent(b.last.item, b.last.id, k);
      ItemKeyId(b.last.item, b.last.id);
    }
    ItemWritesOneEvent(b.last.item, b.last.id, b.LastKey());
  }

  /** Every committed batch's last message is stored. */
  lemma {:induction false} LastKeysStored(m: Storage.Store, c: u64, batches: seq<Handled>, i: nat)
    requires HandlerBatches(batches, c) && i < |batches|
    ensures batches[i].LastKey() in CommitInOrder(m, batches)
  {
    hide HandlerWrites;
    hide HandlerBatch;
    hide ItemKey;
    var init := batches[..|batches| - 1];
    if i < |init| {
      assert forall j :: 0 <= j < |init| ==> init[j] == batches[j];
      LastKeysStored(m, c, init, i);
    } else {
      HandlerWritesEvents(batches[i], c);
    }
  }

  /** No stored event has an ID above what the earlier storage and the committed
      batches reached. */
  lemma {:induction false} StoredIdsReached(m: Storage.Store, c: u64, batches: seq<Handled>, top: u64)
    requires IdsWithin(m, c) && c <= top && HandlerBatches(batches, c)
    requires forall i :: 0 <= i < |batches| ==> batches[i].last.id <= top
    ensures IdsWithin(CommitInOrder(m, batches), top)
  {
    hide EventIdOf;
    hide HandlerWrites;
    hide HandlerBatch;
    if batches != [] {
      var init := batches[..|batches| - 1];
      assert forall i :: 0 <= i < |init| ==> init[i] == batches[i];
      StoredIdsReached(m, c, init, top);
      HandlerWritesEvents(batches[|batches| - 1], c);
    }
  }

  /** The persisted counter dominates every stored ID after concurrent commits
      if and only if the batch committed last is the one with the largest ID. */
  lemma CommitOrderIff(m: Storage.Store, c: u64, batches: seq<Handled>)
    requires IdsWithin(m, c) && batches != [] && HandlerBatches(batches, c)
    ensures var end := CommitInOrder(m, batches);
            IdsWithin(end, Persisted(end))
            <==> forall i :: 0 <= i < |batches| ==> batches[i].last.id <= batches[|batches| - 1].last.id
  {
    hide ItemKey;
    hide EventIdOf;
    hide HandlerWrites;
    var end, top := CommitInOrder(m, batches), batches[|batches| - 1].last.id;
    HandlerWritesEvents(batches[|batches| - 1], c);
    Uint64OfPut(top, []);
    assert BigEndian(top, 8) + [] == BigEndian(top, 8);
    assert Persisted(end) == top;
    if IdsWithin(end, top) {
      forall i | 0 <= i < |batches| ensures batches[i].last.id <= top {
        ItemKeyId(batches[i].last.item, batches[i].last.id);
        LastKeysStored(m, c, batches, i);
      }
    }
    if forall i :: 0 <= i < |batches| ==> batches[i].last.id <= top {
      StoredIdsReached(m, c, batches, top);
    }
  }

  /** Two handlers draw IDs 1 and 2 and commit in the other order: storage then
      holds ID 2 while the persisted counter says 1. */
  lemma OutOfOrder()
    ensures var it := StoreItem(0, 0, [], []);
            var end := CommitInOrder(map[], [Handled([], Assigned(it, 2)), Handled([], Assigned(it, 1))]);
            Persisted(end) == 1 && ItemKey(it, 2) in end
  {
    hide ItemKey;
    hide HandlerWrites;
    var it := StoreItem(0, 0, [], []);
    var one, two := Handled([], Assigned(it, 1)), Handled([], Assigned(it, 2));
    var end := CommitInOrder(map[], [two, one]);
    assert HandlerBatches([two, one], 0);
    LastKeysStored(map[], 0, [two, one], 0);
    HandlerWritesEvents(one, 0);
    Uint64OfPut(1, []);
    assert BigEndian(1, 8) + [] == BigEndian(1, 8);
    assert end == CommitInOrder(map[], [two, one][..1]) + HandlerWrites(one);
  }
}
