/** Restarting a replica: what reopening storage recovers, and when replaying
    the rest of the log then agrees with never having stopped. */
module EventRecovery {
  import opened Bytes
  import opened Keys
  import opened Storage
  import opened EventCommands
  import opened EventReplica

  /** The uint64 stored under a metadata key, zero when it is absent. A stored
      value shorter than eight bytes would stop the Go reader; ReopenAfter shows
      that none is ever written. */
  function ReadWord(m: Store, k: Bytes): u64
  {
    if k in m && |m[k]| >= 8 then Uint64(m[k]) else 0
  }

  /** A repository and a state machine opened on storage m. */
  function Opened(m: Store): Replica
  {
    Replica(m, ReadWord(m, LAST_ID_KEY), ReadWord(m, APPLIED_INDEX_KEY))
  }

  predicate Readable(m: Store)
  {
    (LAST_ID_KEY in m ==> |m[LAST_ID_KEY]| >= 8) && (APPLIED_INDEX_KEY in m ==> |m[APPLIED_INDEX_KEY]| >= 8)
  }

  // ── The persisted counter ───────────────────────────────────────────────────

  /** The value a non-empty batch leaves under the counter key: the last ID, or
      the last event key if an index of that message collides with the counter. */
  function CounterValue(items: seq<StoreItem>, c: u64): Bytes
    requires items != []
  {
    var last, id := items[|items| - 1], Advance(c, |items|);
    if LAST_ID_KEY in last.indexes then ItemKey(last, id) else BigEndian(id, 8)
  }

  lemma BatchCounter(items: seq<StoreItem>, c: u64)
    requires items != []
    ensures LAST_ID_KEY in BatchWrites(items, c) && BatchWrites(items, c)[LAST_ID_KEY] == CounterValue(items, c)
  {
    hide BigEndian;
    var last, id := items[|items| - 1], Advance(c, |items|);
    assert LAST_ID_KEY in ItemWrites(last, id);
    assert ItemWrites(last, id)[LAST_ID_KEY] == CounterValue(items, c);
  }

  /** A log leaves the counter of its last stored message; deletes cannot reach
      it because they carry 24-byte keys. */
  lemma {:induction false} LogCounter(m: Store, c: u64, log: seq<Entry>)
    ensures LogStored(log) == [] ==> SameAt(AfterLog(m, c, log), m, LAST_ID_KEY)
    ensures LogStored(log) != [] ==> LAST_ID_KEY in AfterLog(m, c, log)
                                     && AfterLog(m, c, log)[LAST_ID_KEY] == CounterValue(LogStored(log), c)
  {
    hide CounterValue;
    hide AfterEntry;
    hide Stored;
    if log != [] {
      var init, cmd := log[..|log| - 1], log[|log| - 1].cmd;
      LogCounter(m, c, init);
      EntryCounter(AfterLog(m, c, init), Advance(c, |LogStored(init)|), cmd);
      if Stored(cmd) != [] {
        CounterValueSuffix(LogStored(init), Stored(cmd), c);
      } else {
        assert LogStored(log) == LogStored(init);
      }
    }
  }

  lemma EntryCounter(m: Store, c: u64, cmd: Bytes)
    ensures Stored(cmd) == [] ==> SameAt(AfterEntry(m, c, cmd), m, LAST_ID_KEY)
    ensures Stored(cmd) != [] ==> LAST_ID_KEY in AfterEntry(m, c, cmd)
                                  && AfterEntry(m, c, cmd)[LAST_ID_KEY] == CounterValue(Stored(cmd), c)
  {
    hide CounterValue;
    hide Stored;
    hide Deleted;
    DeletedAreEventKeys(cmd);
    assert LAST_ID_KEY !in Deleted(cmd);
    if Stored(cmd) != [] {
      BatchCounter(Stored(cmd), c);
    }
  }

  lemma CounterValueSuffix(a: seq<StoreItem>, b: seq<StoreItem>, c: u64)
    requires b != []
    ensures CounterValue(a + b, c) == CounterValue(b, Advance(c, |a|))
  {
    AdvanceTwice(c, |a|, |b|);
    assert (a + b)[|a + b| - 1] == b[|b| - 1];
  }

  /** The last stored message leaves a counter that reads back as its own ID. */
  predicate CounterSurvives(items: seq<StoreItem>, c: u64)
  {
    items == [] || LAST_ID_KEY !in items[|items| - 1].indexes
    || items[|items| - 1].topicHash == Advance(c, |items|)
  }

  lemma CounterReadsBack(items: seq<StoreItem>, c: u64)
    requires items != []
    ensures |CounterValue(items, c)| >= 8
    ensures Uint64(CounterValue(items, c)) == Advance(c, |items|) <==> CounterSurvives(items, c)
  {
    var last, id := items[|items| - 1], Advance(c, |items|);
    var tail := BigEndian(last.bucket, 8) + BigEndian(id, 8);
    Uint64OfPut(id, []);
    Uint64OfPut(last.topicHash, tail);
    assert BigEndian(id, 8) + [] == BigEndian(id, 8);
    assert BigEndian(last.topicHash, 8) + tail == ItemKey(last, id);
  }

  /** What reopening after a log recovers: always the applied index, and the
      counter exactly when it survives. */
  lemma ReopenAfter(m: Store, log: seq<Entry>)
    requires log != []
    ensures var live := Updated(Opened(m), log);
            && ReadWord(live.store, APPLIED_INDEX_KEY) == live.applied
            && (ReadWord(live.store, LAST_ID_KEY) == live.counter
                <==> CounterSurvives(LogStored(log), Opened(m).counter))
            && (Readable(m) ==> Readable(live.store))
  {
    hide BigEndian;
    hide CounterValue;
    hide AfterLog;
    hide LogStored;
    hide Advance;
    var r := Opened(m);
    var live, items, plain := Updated(r, log), LogStored(log), AfterLog(m, r.counter, log);
    Uint64OfPut(live.applied, []);
    assert BigEndian(live.applied, 8) + [] == BigEndian(live.applied, 8);
    LogCounter(m, r.counter, log);
    MetadataKeysDiffer();
    assert SameAt(live.store, plain, LAST_ID_KEY);
    if items != [] {
      CounterReadsBack(items, r.counter);
    }
  }

  // ── Crash and replay ────────────────────────────────────────────────────────

  /** Indexes strictly increase and all lie above `after`. */
  predicate Increasing(log: seq<Entry>, after: int)
  {
    && (forall i :: 0 <= i < |log| ==> log[i].index > after)
    && (forall i, j :: 0 <= i < j < |log| ==> log[i].index < log[j].index)
  }

  /** The entries the log still has to deliver to a replica at this index. */
  function Above(log: seq<Entry>, index: int): seq<Entry>
  {
    if log == [] then []
    else
      var last := log[|log| - 1];
      Above(log[..|log| - 1], index) + if last.index > index then [last] else []
  }

  lemma {:induction false} AboveSplits(p: seq<Entry>, q: seq<Entry>, index: int)
    requires forall i :: 0 <= i < |p| ==> p[i].index <= index
    requires forall i :: 0 <= i < |q| ==> q[i].index > index
    ensures Above(p + q, index) == q
  {
    var log := p + q;
    if q != [] {
      AboveSplits(p, q[..|q| - 1], index);
      assert log[..|log| - 1] == p + q[..|q| - 1];
    } else {
      NoneAbove(p, index);
      assert log == p;
    }
  }

  lemma {:induction false} NoneAbove(p: seq<Entry>, index: int)
    requires forall i :: 0 <= i < |p| ==> p[i].index <= index
    ensures Above(p, index) == []
  {
    if p != [] { NoneAbove(p[..|p| - 1], index); }
  }

  lemma {:induction false} FlattenConcat(a: seq<seq<Entry>>, b: seq<seq<Entry>>)
    ensures Flatten(a + b) == Flatten(a) + Flatten(b)
  {
    if b == [] {
      assert a + b == a;
    } else {
      FlattenConcat(a, b[..|b| - 1]);
      assert (a + b)[..|a + b| - 1] == a + b[..|b| - 1];
    }
  }

  /** Storage as it was after the first k Update calls, which is what a crash
      between calls leaves behind. */
  function CrashedAfter(m: Store, calls: seq<seq<Entry>>, k: nat): Store
    requires k <= |calls|
  {
    RunUpdates(Opened(m), calls[..k]).replica.store
  }

  lemma CrashedIs(m: Store, calls: seq<seq<Entry>>, k: nat)
    requires k <= |calls| && NoEmptyCall(calls)
    ensures CrashedAfter(m, calls, k) == After(Opened(m), Flatten(calls[..k])).store
  {
    RunIsAfter(Opened(m), calls[..k]);
  }

  /** Crash-replay equivalence. For every log, every way of cutting it into
      Update calls, every crash point and every regrouping of the replay:
      reopening and replaying what lies above the recovered index ends in the
      same storage, counter and applied index as the run that never stopped,
      if and only if the last message stored before the crash does not index
      itself under the counter key. */
  lemma CrashReplay(m: Store, calls: seq<seq<Entry>>, k: nat, replay: seq<seq<Entry>>)
    requires k <= |calls| && NoEmptyCall(calls) && NoEmptyCall(replay)
    requires Increasing(Flatten(calls), Opened(m).applied)
    requires Flatten(replay) == Above(Flatten(calls), Opened(CrashedAfter(m, calls, k)).applied)
    ensures RunUpdates(Opened(CrashedAfter(m, calls, k)), replay).replica == RunUpdates(Opened(m), calls).replica
            <==> CounterSurvives(LogStored(Flatten(calls[..k])), Opened(m).counter)
  {
    hide *;
    var p, q := Flatten(calls[..k]), Flatten(calls[k..]);
    assert calls[..k] + calls[k..] == calls;
    FlattenConcat(calls[..k], calls[k..]);
    CrashedIs(m, calls, k);
    RunIsAfter(Opened(m), calls);
    RunIsAfter(Opened(CrashedAfter(m, calls, k)), replay);
    ReplayIsSuffix(m, p, q);
    ReplayFrom(m, p, q);
  }

  /** The replay delivers exactly what the crashed replica had not applied. */
  lemma ReplayIsSuffix(m: Store, p: seq<Entry>, q: seq<Entry>)
    requires Increasing(p + q, Opened(m).applied)
    ensures Above(p + q, Opened(After(Opened(m), p).store).applied) == q
  {
    hide After;
    hide Above;
    hide Opened;
    var log, applied := p + q, LastIndex(p, Opened(m).applied);
    AppliedAfter(m, p);
    assert forall i :: 0 <= i < |p| ==> p[i] == log[i];
    assert forall i :: 0 <= i < |q| ==> q[i] == log[|p| + i];
    AboveSplits(p, q, applied);
  }

  lemma AppliedAfter(m: Store, p: seq<Entry>)
    ensures Opened(After(Opened(m), p).store).applied == LastIndex(p, Opened(m).applied)
  {
    if p != [] { ReopenAfter(m, p); }
  }

  /** The heart of it: reopening after p and going on with q. */
  lemma ReplayFrom(m: Store, p: seq<Entry>, q: seq<Entry>)
    ensures After(Opened(After(Opened(m), p).store), q) == After(Opened(m), p + q)
            <==> CounterSurvives(LogStored(p), Opened(m).counter)
  {
    if p == [] {
      assert p + q == q;
    } else if q == [] {
      assert p + q == p;
      ReopenAfter(m, p);
    } else {
      var live := Updated(Opened(m), p);
      var reopened := Opened(live.store);
      ReopenAfter(m, p);
      UpdatedTwice(Opened(m), p, q);
      SameCounterSameUpdate(live, reopened.counter, q);
    }
  }

  /** Replicas that differ only in the counter agree after a log exactly when
      the counters were equal. */
  lemma SameCounterSameUpdate(r: Replica, c: u64, log: seq<Entry>)
    ensures Updated(r.(counter := c), log) == Updated(r, log) <==> c == r.counter
  {
    AdvanceInjective(c, r.counter, |LogStored(log)|);
  }
}
