/** Event IDs never repeat while commits are serialised. */
module EventIds {
  import opened Bytes
  import opened Keys
  import opened Storage
  import opened EventCommands
  import opened EventReplica
  import opened EventRecovery

  function EventIdOf(key: Bytes): u64
    requires |key| == EVENT_KEY_LEN
  {
    Uint64(key[16..])
  }

  /** The counter that a restart would find. */
  function Persisted(m: Store): u64
  {
    ReadWord(m, LAST_ID_KEY)
  }

  /** Every event key in storage carries an ID the counter has reached. */
  ghost predicate IdsWithin(m: Store, c: int)
  {
    forall k :: k in m && |k| == EVENT_KEY_LEN ==> EventIdOf(k) <= c
  }

  /** No index of the message is shaped like an event key or hides the counter. */
  predicate CleanItem(it: StoreItem)
  {
    forall i :: 0 <= i < |it.indexes| ==> |it.indexes[i]| != EVENT_KEY_LEN && it.indexes[i] != LAST_ID_KEY
  }

  predicate CleanItems(items: seq<StoreItem>)
  {
    forall i :: 0 <= i < |items| ==> CleanItem(items[i])
  }

  lemma ItemKeyId(it: StoreItem, id: u64)
    ensures EventIdOf(ItemKey(it, id)) == id
  {
    EventKeyBijection(ItemKey(it, id), EventParts(it.topicHash, it.bucket, id));
  }

  lemma ItemWritesOneEvent(it: StoreItem, id: u64, k: Bytes)
    requires CleanItem(it) && |k| == EVENT_KEY_LEN
    ensures k in ItemWrites(it, id) <==> k == ItemKey(it, id)
    ensures ItemKey(it, id) in ItemWrites(it, id) && ItemWrites(it, id)[ItemKey(it, id)] == it.msg
  {
    hide BigEndian;
    hide EventKey;
    MetadataKeysDiffer();
    assert k !in it.indexes && ItemKey(it, id) !in it.indexes;
  }

  /** The event keys a batch writes are exactly its messages' keys, one for each
      ID after the counter, and each holds its own message. */
  lemma {:induction false} BatchWritesEvents(items: seq<StoreItem>, c: u64)
    requires CleanItems(items) && c + |items| < TWO64
    ensures forall i :: 0 <= i < |items| ==>
              var k := ItemKey(items[i], c + i + 1);
              k in BatchWrites(items, c) && BatchWrites(items, c)[k] == items[i].msg
    ensures forall k :: k in BatchWrites(items, c) && |k| == EVENT_KEY_LEN ==>
              c < EventIdOf(k) <= c + |items| && k == ItemKey(items[EventIdOf(k) - c - 1], EventIdOf(k))
  {
    hide ItemWrites;
    hide ItemKey;
    hide EventIdOf;
    hide CleanItem;
    if items != [] {
      var init, last, id := items[..|items| - 1], items[|items| - 1], c + |items|;
      BatchWritesEvents(init, c);
      ItemKeyId(last, id);
      var before, own, all := BatchWrites(init, c), ItemWrites(last, id), BatchWrites(items, c);
      assert all == before + own;
      forall i | 0 <= i < |items|
        ensures var k := ItemKey(items[i], c + i + 1); k in all && all[k] == items[i].msg
      {
        var k := ItemKey(items[i], c + i + 1);
        ItemWritesOneEvent(last, id, k);
        ItemKeyId(items[i], c + i + 1);
        if i < |init| { assert items[i] == init[i]; }
      }
      forall k | k in all && |k| == EVENT_KEY_LEN
        ensures c < EventIdOf(k) <= c + |items| && k == ItemKey(items[EventIdOf(k) - c - 1], EventIdOf(k))
      {
        ItemWritesOneEvent(last, id, k);
      }
    }
  }

  lemma ItemIndexes(it: StoreItem, id: u64, idx: Bytes)
    requires CleanItem(it)
    ensures idx in it.indexes ==> idx in ItemWrites(it, id) && ItemWrites(it, id)[idx] == ItemKey(it, id)
    ensures idx in ItemWrites(it, id) && idx !in it.indexes ==> idx == LAST_ID_KEY || idx == ItemKey(it, id)
  {
    hide BigEndian;
    hide ItemKey;
  }

  /** The last message of a batch that carries an index is the one its entry
      points to. */
  lemma {:induction false} IndexPointsToLast(items: seq<StoreItem>, c: u64, i: nat, idx: Bytes)
    requires CleanItems(items) && c + |items| < TWO64 && i < |items| && idx in items[i].indexes
    requires forall j :: i < j < |items| ==> idx !in items[j].indexes
    ensures idx in BatchWrites(items, c) && BatchWrites(items, c)[idx] == ItemKey(items[i], c + i + 1)
  {
    hide BigEndian;
    hide ItemKey;
    hide ItemWrites;
    var init, last := items[..|items| - 1], items[|items| - 1];
    assert CleanItem(items[i]) && CleanItem(last);
    ItemIndexes(last, Advance(c, |items|), idx);
    if i < |init| { IndexPointsToLast(init, c, i, idx); }
  }

  lemma ItemIsWritten(items: seq<StoreItem>, c: u64, i: nat)
    requires CleanItems(items) && c + |items| < TWO64 && i < |items|
    ensures var k := ItemKey(items[i], c + i + 1);
            k in BatchWrites(items, c) && BatchWrites(items, c)[k] == items[i].msg
  {
    hide BatchWrites;
    hide ItemKey;
    hide EventIdOf;
    BatchWritesEvents(items, c);
  }

  /** Every event key a batch writes carries an ID above the counter. */
  lemma OnlyNewIds(items: seq<StoreItem>, c: u64, k: Bytes)
    requires CleanItems(items) && c + |items| < TWO64 && |k| == EVENT_KEY_LEN && EventIdOf(k) <= c
    ensures k !in BatchWrites(items, c)
  {
    hide BatchWrites;
    hide ItemKey;
    hide EventIdOf;
    BatchWritesEvents(items, c);
  }

  /** A batch stored above the counter overwrites no stored event. */
  lemma StoreIsFresh(m: Store, items: seq<StoreItem>, p: int, c: u64, k: Bytes)
    requires IdsWithin(m, p) && p <= c && CleanItems(items) && c + |items| < TWO64
    requires k in m && |k| == EVENT_KEY_LEN
    ensures k !in BatchWrites(items, c)
  {
    hide BatchWrites;
    hide EventIdOf;
    hide CleanItems;
    OnlyNewIds(items, c, k);
  }

  lemma StoreKeysDiffer(items: seq<StoreItem>, c: u64, i: nat, j: nat)
    requires c + |items| < TWO64 && i < j < |items|
    ensures ItemKey(items[i], c + i + 1) != ItemKey(items[j], c + j + 1)
  {
    hide ItemKey;
    hide EventIdOf;
    ItemKeyId(items[i], c + i + 1);
    ItemKeyId(items[j], c + j + 1);
  }

  /** The bound on stored IDs moves with the counter. */
  lemma StoreMovesBound(m: Store, items: seq<StoreItem>, p: int, c: u64)
    requires IdsWithin(m, p) && p <= c && CleanItems(items) && c + |items| < TWO64
    ensures IdsWithin(m + BatchWrites(items, c), c + |items|)
  {
    hide BatchWrites;
    hide ItemKey;
    hide EventIdOf;
    hide CleanItems;
    BatchWritesEvents(items, c);
  }

  /** A clean batch leaves its last ID in storage; an empty one leaves storage alone. */
  lemma CleanCounterPersists(m: Store, items: seq<StoreItem>, c: u64)
    requires CleanItems(items)
    ensures Persisted(m + BatchWrites(items, c)) == if items == [] then Persisted(m) else Advance(c, |items|)
  {
    hide BatchWrites;
    hide CounterValue;
    if items != [] {
      BatchCounter(items, c);
      CounterReadsBack(items, c);
      assert CleanItem(items[|items| - 1]);
      assert (m + BatchWrites(items, c))[LAST_ID_KEY] == CounterValue(items, c);
    } else {
      EmptyBatch(c);
    }
  }

  lemma EmptyBatch(c: u64)
    ensures BatchWrites([], c) == map[]
  {
  }

  // ── Runs of serialised commits ──────────────────────────────────────────────

  /** One committed store batch; a refused batch that had drawn n IDs before the
      refusal and wrote nothing; one committed batch of deletions; or a restart
      that reopens the repository on the same storage. */
  datatype Commit = Store(items: seq<StoreItem>) | Refused(n: nat) | Delete(keys: seq<Bytes>) | Restart

  datatype Counted = Counted(store: Storage.Store, counter: u64)

  function Committed(s: Counted, step: Commit): Counted
  {
    match step
    case Store(items) => Counted(s.store + BatchWrites(items, s.counter), Advance(s.counter, |items|))
    case Refused(n) => Counted(s.store, Advance(s.counter, n))
    case Delete(keys) => Counted(s.store - (set k | k in keys), s.counter)
    case Restart => Counted(s.store, Persisted(s.store))
  }

  function CommittedAll(s: Counted, steps: seq<Commit>): Counted
  {
    if steps == [] then s else Committed(CommittedAll(s, steps[..|steps| - 1]), steps[|steps| - 1])
  }

  function Drawn(step: Commit): nat
  {
    match step
    case Store(items) => |items|
    case Refused(n) => n
    case _ => 0
  }

  /** How many IDs the run draws. */
  function AllDrawn(steps: seq<Commit>): nat
  {
    if steps == [] then 0 else AllDrawn(steps[..|steps| - 1]) + Drawn(steps[|steps| - 1])
  }

  predicate CleanStep(step: Commit)
  {
    match step
    case Store(items) => CleanItems(items)
    case Delete(keys) => LAST_ID_KEY !in keys
    case _ => true
  }

  predicate CleanRun(steps: seq<Commit>)
  {
    forall i :: 0 <= i < |steps| ==> CleanStep(steps[i])
  }

  /** The persisted counter dominates every stored ID. The live one may be ahead
      of it, by IDs that refused batches drew. */
  ghost predicate Dominates(s: Counted)
  {
    IdsWithin(s.store, Persisted(s.store)) && Persisted(s.store) <= s.counter
  }

  /** Every commit keeps the dominance, and never lowers the persisted counter. */
  lemma CommitDominates(s: Counted, step: Commit)
    requires Dominates(s) && CleanStep(step) && s.counter + Drawn(step) < TWO64
    ensures Dominates(Committed(s, step))
    ensures Persisted(s.store) <= Persisted(Committed(s, step).store)
    ensures Committed(s, step).counter <= s.counter + Drawn(step)
  {
    hide BatchWrites;
    hide EventIdOf;
    hide CleanItems;
    hide ReadWord;
    match step
    case Store(items) =>
      StoreMovesBound(s.store, items, Persisted(s.store), s.counter);
      CleanCounterPersists(s.store, items, s.counter);
      EmptyBatch(s.counter);
    case Delete(keys) =>
      SameCounter(s.store, s.store - (set k | k in keys));
    case _ =>
  }

  lemma SameCounter(m: Store, n: Store)
    requires SameAt(m, n, LAST_ID_KEY)
    ensures Persisted(m) == Persisted(n)
  {
  }

  lemma {:induction false} DrawnPrefix(steps: seq<Commit>, i: nat)
    requires i <= |steps|
    ensures AllDrawn(steps[..i]) <= AllDrawn(steps)
  {
    if i < |steps| {
      DrawnPrefix(steps[..|steps| - 1], i);
      assert steps[..|steps| - 1][..i] == steps[..i];
    } else {
      assert steps[..i] == steps;
    }
  }

  /** Over every run of serialised commits, refusals, deletions and restarts, the
      persisted counter dominates every stored ID and never falls. */
  lemma {:induction false} CounterDominates(s: Counted, steps: seq<Commit>)
    requires Dominates(s) && CleanRun(steps) && s.counter + AllDrawn(steps) < TWO64
    ensures Dominates(CommittedAll(s, steps))
    ensures CommittedAll(s, steps).counter <= s.counter + AllDrawn(steps)
    ensures forall i :: 0 <= i <= |steps| ==>
              Persisted(CommittedAll(s, steps[..i]).store) <= Persisted(CommittedAll(s, steps).store)
  {
    hide Dominates;
    hide Committed;
    hide CleanStep;
    hide Persisted;
    assert steps[..|steps|] == steps;
    if steps != [] {
      var init := steps[..|steps| - 1];
      CounterDominates(s, init);
      CommitDominates(CommittedAll(s, init), steps[|steps| - 1]);
      forall i | 0 <= i < |steps|
        ensures Persisted(CommittedAll(s, steps[..i]).store) <= Persisted(CommittedAll(s, steps).store)
      {
        assert steps[..i] == init[..i];
      }
    }
  }

  /** What the i-th step of the run writes. */
  function WrittenAt(s: Counted, steps: seq<Commit>, i: nat): Storage.Store
    requires i < |steps|
  {
    if steps[i].Store? then BatchWrites(steps[i].items, CommittedAll(s, steps[..i]).counter) else map[]
  }

  lemma WrittenIds(s: Counted, steps: seq<Commit>, i: nat, k: Bytes)
    requires Dominates(s) && CleanRun(steps) && s.counter + AllDrawn(steps) < TWO64
    requires i < |steps| && k in WrittenAt(s, steps, i) && |k| == EVENT_KEY_LEN
    ensures Persisted(CommittedAll(s, steps[..i]).store) < EventIdOf(k)
            <= Persisted(CommittedAll(s, steps[..i + 1]).store)
  {
    hide BatchWrites;
    hide CleanItems;
    hide EventIdOf;
    hide ReadWord;
    var before, items := CommittedAll(s, steps[..i]), steps[i].items;
    DrawnPrefix(steps, i + 1);
    assert steps[..i + 1][..i] == steps[..i];
    CounterDominates(s, steps[..i]);
    assert CleanStep(steps[i]);
    EmptyBatch(before.counter);
    BatchIds(items, before.counter, k);
    CleanCounterPersists(before.store, items, before.counter);
  }

  lemma BatchIds(items: seq<StoreItem>, c: u64, k: Bytes)
    requires CleanItems(items) && c + |items| < TWO64 && |k| == EVENT_KEY_LEN && k in BatchWrites(items, c)
    ensures c < EventIdOf(k) <= c + |items|
  {
    hide BatchWrites;
    hide ItemKey;
    hide EventIdOf;
    hide CleanItems;
    BatchWritesEvents(items, c);
  }

  lemma PersistedGrows(s: Counted, steps: seq<Commit>, i: nat, j: nat)
    requires Dominates(s) && CleanRun(steps) && s.counter + AllDrawn(steps) < TWO64 && i <= j <= |steps|
    ensures Dominates(CommittedAll(s, steps[..j]))
    ensures Persisted(CommittedAll(s, steps[..i]).store) <= Persisted(CommittedAll(s, steps[..j]).store)
  {
    hide CommittedAll;
    hide Dominates;
    hide Persisted;
    DrawnPrefix(steps, j);
    CounterDominates(s, steps[..j]);
    assert steps[..j][..i] == steps[..i];
  }

  lemma WrittenOnce(s: Counted, steps: seq<Commit>, i: nat, j: nat, k: Bytes)
    requires Dominates(s) && CleanRun(steps) && s.counter + AllDrawn(steps) < TWO64
    requires i < j < |steps| && |k| == EVENT_KEY_LEN && k in WrittenAt(s, steps, i)
    ensures k !in WrittenAt(s, steps, j)
  {
    hide *;
    WrittenIds(s, steps, i, k);
    PersistedGrows(s, steps, i + 1, j);
    if k in WrittenAt(s, steps, j) {
      WrittenIds(s, steps, j, k);
    }
  }

  /** IDs never repeat: over every run, no event key is written by two commits,
      whether or not it was deleted in between, and none that was stored before
      the run is written again. */
  lemma IdsNeverRepeat(s: Counted, steps: seq<Commit>, i: nat, k: Bytes)
    requires Dominates(s) && CleanRun(steps) && s.counter + AllDrawn(steps) < TWO64
    requires i < |steps| && k in WrittenAt(s, steps, i) && |k| == EVENT_KEY_LEN
    ensures k !in s.store
    ensures forall j :: 0 <= j < |steps| && j != i ==> k !in WrittenAt(s, steps, j)
  {
    assert IdsWithin(s.store, Persisted(s.store));
    hide WrittenAt;
    hide CommittedAll;
    hide EventIdOf;
    hide Persisted;
    hide CleanRun;
    WrittenIds(s, steps, i, k);
    PersistedGrows(s, steps, 0, i);
    NothingCommitted(s);
    forall j | 0 <= j < |steps| && j != i ensures k !in WrittenAt(s, steps, j) {
      if i < j {
        WrittenOnce(s, steps, i, j, k);
      } else if k in WrittenAt(s, steps, j) {
        WrittenOnce(s, steps, j, i, k);
      }
    }
  }

  lemma NothingCommitted(s: Counted)
    ensures CommittedAll(s, []) == s
  {
  }

  /** Direct deletion does not look at its keys. A restart after it finds the same
      counter as without it exactly when the counter key was not among them, or no
      ID had been persisted yet. */
  lemma RestartAfterDeleteIff(s: Counted, keys: seq<Bytes>)
    ensures Committed(Committed(s, Delete(keys)), Restart).counter == Committed(s, Restart).counter
            <==> LAST_ID_KEY !in keys || Persisted(s.store) == 0
  {
    hide Uint64;
  }
}
