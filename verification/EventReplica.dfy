/** What the replicated event log means: the storage, the ID counter and the
    applied index that a log leaves behind. */
module EventReplica {
  import opened Bytes
  import opened Keys
  import opened Storage
  import opened EventCommands

  datatype Entry = Entry(index: u64, cmd: Bytes)

  // ── Stores assign IDs ───────────────────────────────────────────────────────

  /** The uint64 counter after n more IDs. */
  function Advance(c: u64, n: nat): (r: u64)
    ensures c + n < TWO64 ==> r == c + n
  {
    (c + n) % TWO64
  }

  lemma AdvanceTwice(c: u64, m: nat, n: nat)
    ensures Advance(Advance(c, m), n) == Advance(c, m + n)
  {
  }

  /** Counters that differ still differ after the same number of IDs. */
  lemma AdvanceInjective(c: u64, d: u64, n: nat)
    ensures Advance(c, n) == Advance(d, n) <==> c == d
  {
  }

  function ItemKey(it: StoreItem, id: u64): (key: Bytes)
    ensures |key| == EVENT_KEY_LEN
  {
    EventKey(it.bucket, it.topicHash, id)
  }

  /** What storing one message writes: the counter, the message, its indexes. */
  function ItemWrites(it: StoreItem, id: u64): Store
  {
    map[LAST_ID_KEY := BigEndian(id, 8)] + map[ItemKey(it, id) := it.msg] + IndexWrites(it.indexes, ItemKey(it, id))
  }

  function IndexWrites(indexes: seq<Bytes>, key: Bytes): Store
  {
    map idx | idx in indexes :: key
  }

  /** What a batch stored from counter c writes: the i-th message gets the i-th
      ID after c, and later writes win. */
  function BatchWrites(items: seq<StoreItem>, c: u64): Store
  {
    if items == [] then map[]
    else BatchWrites(items[..|items| - 1], c) + ItemWrites(items[|items| - 1], Advance(c, |items|))
  }

  lemma WritesAssociate(m: Store, a: Store, b: Store)
    ensures m + a + b == m + (a + b)
  {
  }

  lemma ItemWritesInOrder(m: Store, it: StoreItem, id: u64)
    ensures m[LAST_ID_KEY := BigEndian(id, 8)][ItemKey(it, id) := it.msg] + IndexWrites(it.indexes, ItemKey(it, id))
            == m + ItemWrites(it, id)
  {
    hide BigEndian;
    hide ItemKey;
    hide IndexWrites;
    var a, b := map[LAST_ID_KEY := BigEndian(id, 8)], map[ItemKey(it, id) := it.msg];
    assert m[LAST_ID_KEY := BigEndian(id, 8)][ItemKey(it, id) := it.msg] == m + a + b;
    WritesAssociate(m, a, b);
    WritesAssociate(m, a + b, IndexWrites(it.indexes, ItemKey(it, id)));
  }

  // ── What one entry stores and deletes ───────────────────────────────────────

  function Stored(cmd: Bytes): seq<StoreItem>
  {
    match DecodeStore(cmd)
    case Some(items) => items
    case None => []
  }

  function Deleted(cmd: Bytes): (keys: seq<Bytes>)
  {
    match DecodeDelete(cmd)
    case Some(keys) => keys
    case None => []
  }

  lemma DeletedAreEventKeys(cmd: Bytes)
    ensures KeysFit(Deleted(cmd))
  {
    if DecodeDelete(cmd).Some? { DecodeDeleteExact(cmd, Deleted(cmd)); }
  }

  function AfterEntry(m: Store, c: u64, cmd: Bytes): Store
  {
    m + BatchWrites(Stored(cmd), c) - (set k | k in Deleted(cmd))
  }

  lemma AfterStore(m: Store, c: u64, cmd: Bytes)
    requires DecodeStore(cmd).Some?
    ensures AfterEntry(m, c, cmd) == m + BatchWrites(Stored(cmd), c) && Deleted(cmd) == []
  {
    assert (set k | k in Deleted(cmd)) == {};
  }

  lemma AfterDelete(m: Store, c: u64, cmd: Bytes)
    requires DecodeStore(cmd).None?
    ensures AfterEntry(m, c, cmd) == m - (set k | k in Deleted(cmd)) && Stored(cmd) == []
  {
  }

  /** The result a proposer sees: how many messages were stored or deleted. */
  function EntryResult(cmd: Bytes): seq<nat>
  {
    [|Stored(cmd)| + |Deleted(cmd)|]
  }

  // ── What a log stores and deletes ───────────────────────────────────────────

  /** What f yields on each command of the log, in order. */
  function Collect<T>(f: Bytes -> seq<T>, log: seq<Entry>): seq<T>
  {
    if log == [] then [] else Collect(f, log[..|log| - 1]) + f(log[|log| - 1].cmd)
  }

  lemma {:induction false} CollectConcat<T>(f: Bytes -> seq<T>, a: seq<Entry>, b: seq<Entry>)
    ensures Collect(f, a + b) == Collect(f, a) + Collect(f, b)
  {
    if b == [] {
      assert a + b == a;
    } else {
      var init, last := b[..|b| - 1], f(b[|b| - 1].cmd);
      CollectConcat(f, a, init);
      assert (a + b)[..|a + b| - 1] == a + init && (a + b)[|a + b| - 1] == b[|b| - 1];
      assert Collect(f, a + b) == Collect(f, a + init) + last;
      assert Collect(f, b) == Collect(f, init) + last;
    }
  }

  function LogStored(log: seq<Entry>): seq<StoreItem> { Collect(Stored, log) }

  function LogDeleted(log: seq<Entry>): seq<Bytes> { Collect(Deleted, log) }

  function LogResults(log: seq<Entry>): seq<nat> { Collect(EntryResult, log) }

  lemma LogStoredConcat(a: seq<Entry>, b: seq<Entry>)
    ensures LogStored(a + b) == LogStored(a) + LogStored(b)
  {
    CollectConcat(Stored, a, b);
  }

  /** Storage after a log applied from storage m and counter c. */
  function AfterLog(m: Store, c: u64, log: seq<Entry>): Store
  {
    if log == [] then m
    else
      var init := log[..|log| - 1];
      AfterEntry(AfterLog(m, c, init), Advance(c, |LogStored(init)|), log[|log| - 1].cmd)
  }

  lemma {:induction false} AfterLogConcat(m: Store, c: u64, a: seq<Entry>, b: seq<Entry>)
    ensures AfterLog(m, c, a + b) == AfterLog(AfterLog(m, c, a), Advance(c, |LogStored(a)|), b)
  {
    hide AfterEntry;
    hide LogStored;
    hide Advance;
    if b == [] {
      assert a + b == a;
    } else {
      var init := b[..|b| - 1];
      AfterLogConcat(m, c, a, init);
      LogStoredConcat(a, init);
      assert (a + b)[..|a + b| - 1] == a + init;
      AdvanceTwice(c, |LogStored(a)|, |LogStored(init)|);
    }
  }

  /** Stores that differ at most at k still do after the same log. */
  lemma {:induction false} AfterLogAgreesExcept(m: Store, n: Store, c: u64, log: seq<Entry>, k: Bytes)
    requires m - {k} == n - {k}
    ensures AfterLog(m, c, log) - {k} == AfterLog(n, c, log) - {k}
  {
    if log != [] {
      var init := log[..|log| - 1];
      AfterLogAgreesExcept(m, n, c, init, k);
      AfterEntryAgreesExcept(AfterLog(m, c, init), AfterLog(n, c, init), Advance(c, |LogStored(init)|),
                             log[|log| - 1].cmd, k);
    }
  }

  lemma AfterEntryAgreesExcept(m: Store, n: Store, c: u64, cmd: Bytes, k: Bytes)
    requires m - {k} == n - {k}
    ensures AfterEntry(m, c, cmd) - {k} == AfterEntry(n, c, cmd) - {k}
  {
    var writes, gone := BatchWrites(Stored(cmd), c), set x | x in Deleted(cmd);
    RemovalDistributes(m, writes, gone, k);
    RemovalDistributes(n, writes, gone, k);
  }

  lemma RemovalDistributes(m: Store, writes: Store, gone: set<Bytes>, k: Bytes)
    ensures (m + writes - gone) - {k} == (m - {k}) + (writes - {k}) - gone
  {
    var a, b := (m + writes - gone) - {k}, (m - {k}) + (writes - {k}) - gone;
    assert a.Keys == b.Keys;
    forall x | x in a ensures a[x] == b[x] { }
  }

  // ── Replicas ────────────────────────────────────────────────────────────────

  datatype Replica = Replica(store: Store, counter: u64, applied: u64)

  function LastIndex(log: seq<Entry>, otherwise: u64): u64
  {
    if log == [] then otherwise else log[|log| - 1].index
  }

  /** One Update call: the entries' writes and the applied index, in one batch. */
  function Updated(r: Replica, log: seq<Entry>): Replica
  {
    var applied := LastIndex(log, r.applied);
    Replica(AfterLog(r.store, r.counter, log)[APPLIED_INDEX_KEY := BigEndian(applied, 8)],
            Advance(r.counter, |LogStored(log)|), applied)
  }

  /** Everything a sequence of Update calls produces: the replica, the result of
      each entry and the keys passed to the deletion callback. */
  datatype Outcome = Outcome(replica: Replica, results: seq<nat>, deleted: seq<Bytes>)

  function RunUpdates(r: Replica, calls: seq<seq<Entry>>): Outcome
  {
    if calls == [] then Outcome(r, [], [])
    else
      var before, log := RunUpdates(r, calls[..|calls| - 1]), calls[|calls| - 1];
      Outcome(Updated(before.replica, log), before.results + LogResults(log), before.deleted + LogDeleted(log))
  }

  function Flatten(calls: seq<seq<Entry>>): seq<Entry>
  {
    if calls == [] then [] else Flatten(calls[..|calls| - 1]) + calls[|calls| - 1]
  }

  predicate NoEmptyCall(calls: seq<seq<Entry>>)
  {
    forall i :: 0 <= i < |calls| ==> calls[i] != []
  }

  // ── Grouping does not matter ────────────────────────────────────────────────

  lemma UpdatedTwice(r: Replica, a: seq<Entry>, b: seq<Entry>)
    requires b != []
    ensures Updated(Updated(r, a), b) == Updated(r, a + b)
  {
    hide LogStored;
    hide AfterLog;
    hide Advance;
    hide BigEndian;
    var mid, plain := Updated(r, a), AfterLog(r.store, r.counter, a);
    LogStoredConcat(a, b);
    AdvanceTwice(r.counter, |LogStored(a)|, |LogStored(b)|);
    AfterLogConcat(r.store, r.counter, a, b);
    assert mid.store - {APPLIED_INDEX_KEY} == plain - {APPLIED_INDEX_KEY};
    AfterLogAgreesExcept(mid.store, plain, mid.counter, b, APPLIED_INDEX_KEY);
    OverwriteHeals(AfterLog(mid.store, mid.counter, b), AfterLog(plain, mid.counter, b),
                   APPLIED_INDEX_KEY, BigEndian(b[|b| - 1].index, 8));
    assert (a + b)[|a + b| - 1] == b[|b| - 1];
  }

  lemma OverwriteHeals(m: Store, n: Store, k: Bytes, v: Bytes)
    requires m - {k} == n - {k}
    ensures m[k := v] == n[k := v]
  {
    assert m[k := v] == (m - {k})[k := v] && n[k := v] == (n - {k})[k := v];
  }

  /** A log applied in any non-empty pieces gives the same storage, counter,
      applied index, results and deleted keys as the log applied at once. */
  lemma {:induction false} GroupingDoesNotMatter(r: Replica, calls: seq<seq<Entry>>)
    requires calls != [] && NoEmptyCall(calls)
    ensures var log := Flatten(calls);
            RunUpdates(r, calls) == Outcome(Updated(r, log), LogResults(log), LogDeleted(log))
  {
    hide Updated;
    var init, last := calls[..|calls| - 1], calls[|calls| - 1];
    if init == [] {
      assert Flatten(init) == [] && Flatten(calls) == [] + last == last;
      assert RunUpdates(r, init) == Outcome(r, [], []);
    } else {
      GroupingDoesNotMatter(r, init);
      UpdatedTwice(r, Flatten(init), last);
      CollectConcat(Deleted, Flatten(init), last);
      CollectConcat(EntryResult, Flatten(init), last);
    }
  }

  /** A replica after a log, however it was cut into calls; no call at all
      leaves it as it was. */
  function After(r: Replica, log: seq<Entry>): Replica
  {
    if log == [] then r else Updated(r, log)
  }

  lemma RunIsAfter(r: Replica, calls: seq<seq<Entry>>)
    requires NoEmptyCall(calls)
    ensures RunUpdates(r, calls).replica == After(r, Flatten(calls))
  {
    hide Updated;
    if calls != [] {
      GroupingDoesNotMatter(r, calls);
      assert calls[|calls| - 1] != [];
    }
  }

  /** An entry that decodes as neither command changes nothing but the applied index. */
  lemma BadEntryOnlyAdvancesIndex(r: Replica, e: Entry)
    requires DecodeStore(e.cmd).None? && DecodeDelete(e.cmd).None?
    ensures Updated(r, [e]) == Replica(r.store[APPLIED_INDEX_KEY := BigEndian(e.index, 8)], r.counter, e.index)
    ensures LogResults([e]) == [0] && LogDeleted([e]) == []
  {
    assert [e][..0] == [];
    assert LogStored([e]) == LogStored([e][..0]) + [] && LogDeleted([e]) == LogDeleted([e][..0]) + [];
    assert LogResults([e]) == LogResults([e][..0]) + [0];
    assert AfterEntry(r.store, r.counter, e.cmd) == r.store;
    assert AfterLog(r.store, r.counter, [e][..0]) == r.store;
  }
}
