/** The event repository and the on-disk state machine that share one storage
    engine and one ID counter. */
module EventStateMachine {
  import opened Bytes
  import opened Keys
  import opened Storage
  import opened WireFormat
  import opened EventCommands
  import opened EventReplica
  import opened EventRecovery
  import opened EventSnapshot

  class EventRepository {
    const db: DB
    var lastID: u64

    constructor (db: DB)
      requires LAST_ID_KEY in db.data ==> |db.data[LAST_ID_KEY]| >= 8
      ensures this.db == db && lastID == Opened(db.data).counter
    {
      this.db := db;
      lastID := if LAST_ID_KEY in db.data then Uint64(db.data[LAST_ID_KEY]) else 0;
    }

    method SetIndexes(b: Batch, indexes: seq<Bytes>, key: Bytes)
      modifies b
      ensures b.Result() == old(b.Result()) + IndexWrites(indexes, key)
    {
      ghost var before := b.Result();
      for i := 0 to |indexes|
        invariant b.Result() == before + IndexWrites(indexes[..i], key)
      {
        assert indexes[..i + 1] == indexes[..i] + [indexes[i]];
        b.Set(indexes[i], key);
      }
      assert indexes[..|indexes|] == indexes;
    }

    method StoreRawWithBatch(b: Batch, it: StoreItem) returns (key: Bytes)
      modifies this, b
      ensures lastID == Advance(old(lastID), 1) && key == ItemKey(it, lastID)
      ensures b.Result() == old(b.Result()) + ItemWrites(it, lastID)
    {
      hide BigEndian;
      hide ItemWrites;
      hide IndexWrites;
      ghost var before := b.Result();
      lastID := (lastID + 1) % TWO64;
      var id := lastID;
      var k := BuildEventKey(it.bucket, it.topicHash, id);
      key := k[..];
      b.Set(LAST_ID_KEY, BigEndian(id, 8));
      b.Set(key, it.msg);
      SetIndexes(b, it.indexes, key);
      ItemWritesInOrder(before, it, id);
    }
  }

  class EventStateMachine {
    const db: DB
    const repo: EventRepository
    const room: nat
    var lastApplied: u64

    /** room is how many items the runtime can allocate at once. */
    constructor (db: DB, repo: EventRepository, room: nat)
      requires repo.db == db
      ensures this.db == db && this.repo == repo && this.room == room && lastApplied == 0
    {
      this.db, this.repo, this.room, lastApplied := db, repo, room, 0;
    }

    /** What the replica has come to: storage, ID counter and applied index. */
    ghost function State(): Replica
      reads this, db, repo
    {
      Replica(db.data, repo.lastID, lastApplied)
    }

    method Open() returns (index: u64)
      requires APPLIED_INDEX_KEY in db.data ==> |db.data[APPLIED_INDEX_KEY]| >= 8
      modifies this
      ensures index == lastApplied == Opened(db.data).applied
    {
      lastApplied := if APPLIED_INDEX_KEY in db.data then Uint64(db.data[APPLIED_INDEX_KEY]) else 0;
      index := lastApplied;
    }

    method StoreAll(batch: Batch, items: seq<StoreItem>)
      modifies repo, batch
      ensures batch.Result() == old(batch.Result()) + BatchWrites(items, old(repo.lastID))
      ensures repo.lastID == Advance(old(repo.lastID), |items|)
    {
      hide ItemWrites;
      hide Advance;
      AdvanceZero(repo.lastID);
      ghost var before, c := batch.Result(), repo.lastID;
      for i := 0 to |items|
        invariant repo.lastID == Advance(c, i)
        invariant batch.Result() == before + BatchWrites(items[..i], c)
      {
        AdvanceTwice(c, i, 1);
        assert items[..i + 1][..i] == items[..i];
        WritesAssociate(before, BatchWrites(items[..i], c), ItemWrites(items[i], Advance(c, i + 1)));
        var _ := repo.StoreRawWithBatch(batch, items[i]);
      }
      assert items[..|items|] == items;
    }

    method DeleteAll(batch: Batch, keys: seq<Bytes>) returns (deleted: seq<Bytes>)
      modifies batch
      ensures batch.Result() == old(batch.Result()) - (set k | k in keys)
      ensures deleted == keys
    {
      deleted := [];
      ghost var before := batch.Result();
      for i := 0 to |keys|
        invariant deleted == keys[..i]
        invariant batch.Result() == before - (set k | k in keys[..i])
      {
        batch.Delete(keys[i]);
        deleted := deleted + [keys[i]];
        assert keys[..i + 1] == keys[..i] + [keys[i]];
      }
      assert keys[..|keys|] == keys;
    }

    /** One log entry: unknown or undecodable commands have no effect. */
    method ApplyEntry(batch: Batch, cmd: Bytes) returns (result: nat, deleted: seq<Bytes>, stopped: bool)
      modifies repo, batch
      ensures stopped <==> Stops(room, cmd)
      ensures !stopped ==> batch.Result() == AfterEntry(old(batch.Result()), old(repo.lastID), cmd)
      ensures !stopped ==> repo.lastID == Advance(old(repo.lastID), |Stored(cmd)|)
      ensures !stopped ==> [result] == EntryResult(cmd) && deleted == Deleted(cmd)
      ensures !stopped && DecodeDelete(cmd).Some? ==>
                var keys := DecodeDelete(cmd).value;
                && batch.Result() == old(batch.Result()) - (set k | k in keys) && repo.lastID == old(repo.lastID)
                && result == |keys| && deleted == keys
    {
      hide AfterEntry;
      hide BatchWrites;
      hide Advance;
      hide ParseCommand;
      hide DeleteNeeds;
      result, deleted, stopped := 0, [], false;
      AdvanceZero(repo.lastID);
      WrongTag(cmd);
      if DecodeStore(cmd).Some? {
        AfterStore(batch.Result(), repo.lastID, cmd);
      } else {
        AfterDelete(batch.Result(), repo.lastID, cmd);
      }
      if |cmd| == 0 {
        return;
      }
      if cmd[0] == STORE_BATCH {
        var items;
        items, stopped := UnmarshalStoreBatch(cmd, room);
        if !stopped && items.Some? {
          StoreAll(batch, items.value);
          result := |items.value|;
        }
      } else if cmd[0] == DELETE_BATCH {
        var keys;
        keys, stopped := UnmarshalDeleteBatch(cmd);
        if !stopped && keys.Some? {
          deleted := DeleteAll(batch, keys.value);
          result := |deleted|;
        }
      }
    }

    /** One Update call: a single batch, committed with the applied index. The
        returned keys are those handed to the deletion callback. When an entry
        stops the process nothing has been committed. */
    method Update(entries: seq<Entry>) returns (results: seq<nat>, deleted: seq<Bytes>, stopped: bool)
      requires repo.db == db
      modifies this, repo, db
      ensures stopped <==> exists i :: 0 <= i < |entries| && Stops(room, entries[i].cmd)
      ensures stopped ==> db.data == old(db.data)
      ensures !stopped ==> State() == Updated(old(State()), entries)
      ensures !stopped ==> results == LogResults(entries) && deleted == LogDeleted(entries)
    {
      hide AfterEntry;
      hide Stored;
      hide Deleted;
      hide EntryResult;
      hide Advance;
      hide BigEndian;
      hide Stops;
      hide DecodeDelete;
      ghost var r := State();
      var batch := new Batch(db);
      results, deleted, stopped := [], [], false;
      AdvanceZero(r.counter);
      for i := 0 to |entries|
        invariant forall j :: 0 <= j < i ==> !Stops(room, entries[j].cmd)
        invariant lastApplied == LastIndex(entries[..i], r.applied)
        invariant repo.lastID == Advance(r.counter, |LogStored(entries[..i])|)
        invariant db.data == r.store && batch.db == db && fresh(batch)
        invariant batch.Result() == AfterLog(r.store, r.counter, entries[..i])
        invariant results == LogResults(entries[..i]) && deleted == LogDeleted(entries[..i])
      {
        ghost var init := entries[..i];
        assert entries[..i + 1][..i] == init;
        AdvanceTwice(r.counter, |LogStored(init)|, |Stored(entries[i].cmd)|);
        var result, keys, halt := ApplyEntry(batch, entries[i].cmd);
        if halt {
          return [], [], true;
        }
        results := results + [result];
        deleted := deleted + keys;
        lastApplied := entries[i].index;
      }
      assert entries[..|entries|] == entries;
      batch.Set(APPLIED_INDEX_KEY, BigEndian(lastApplied, 8));
      batch.Commit();
    }

    method SaveSnapshot() returns (w: Bytes)
      ensures w == Snapshot(db.data, Ascending(db.data.Keys))
    {
      hide PrintPair;
      hide Ascending;
      var keys := db.InOrder(db.data.Keys);
      assert forall i :: 0 <= i < |keys| ==> keys[i] in keys;
      ghost var pairs := PairsOf(db.data, keys);
      w := [];
      for i := 0 to |keys|
        invariant w == PrintAll(PrintPair, pairs[..i])
      {
        PrintPrefix(PrintPair, pairs, i);
        w := w + PrintPair(Pair(keys[i], db.data[keys[i]]));
      }
      assert pairs[..|keys|] == pairs;
    }

    method ClearDB()
      modifies db
      ensures db.data == map[]
    {
      hide Ascending;
      var batch := new Batch(db);
      ghost var before := db.data;
      var keys := db.InOrder(db.data.Keys);
      for i := 0 to |keys|
        invariant db.data == before && batch.db == db && fresh(batch)
        invariant batch.Result() == before - (set k | k in keys[..i])
      {
        assert keys[..i + 1] == keys[..i] + [keys[i]];
        batch.Delete(keys[i]);
      }
      assert keys[..|keys|] == keys;
      batch.Commit();
      assert forall k :: k in before ==> k in keys;
    }

    /** Clears storage, then loads the stream in one batch; the repository's
        counter is left as it was. */
    method RecoverFromSnapshot(r: Bytes) returns (ok: bool, stopped: bool)
      requires repo.db == db
      modifies this, db
      ensures ok <==> ParseStream(r).Some?
      ensures stopped <==> ok && APPLIED_INDEX_KEY in db.data && |db.data[APPLIED_INDEX_KEY]| < 8
      ensures !stopped ==> State() == Recovered(old(State()), r)
      ensures stopped ==> State() == old(State()).(store := StoreOf(ParseStream(r).value))
    {
      stopped := false;
      ClearDB();
      var batch := new Batch(db);
      var rest := r;
      ghost var pairs: seq<Pair> := [];
      PrependPairsNothing(ParseStream(r));
      while rest != []
        invariant db.data == map[] && batch.db == db && fresh(batch)
        invariant lastApplied == old(lastApplied)
        invariant batch.Result() == StoreOf(pairs)
        invariant ParseStream(r) == PrependPairs(pairs, ParseStream(rest))
        decreases |rest|
      {
        var next := ParsePair(rest);
        if next.Bad? {
          return false, false;
        }
        batch.Set(next.value.key, next.value.value);
        assert (pairs + [next.value])[..|pairs|] == pairs;
        PrependPairsConcat(pairs, [next.value], ParseStream(next.rest));
        pairs := pairs + [next.value];
        rest := next.rest;
      }
      assert pairs + [] == pairs;
      batch.Commit();
      ok := true;
      if APPLIED_INDEX_KEY in db.data {
        if |db.data[APPLIED_INDEX_KEY]| < 8 {
          return true, true;
        }
        lastApplied := ReadWord(db.data, APPLIED_INDEX_KEY);
      }
    }
  }

  /** A decoder accepts only commands that start with its own tag. */
  lemma WrongTag(cmd: Bytes)
    ensures DecodeStore(cmd).Some? ==> cmd != [] && cmd[0] == STORE_BATCH
    ensures DecodeDelete(cmd).Some? ==> cmd != [] && cmd[0] == DELETE_BATCH
  {
  }

  lemma AdvanceZero(c: u64)
    ensures Advance(c, 0) == c
  {
  }

  ghost function PrependPairs(ps: seq<Pair>, r: Option<seq<Pair>>): Option<seq<Pair>>
  {
    match r
    case None => None
    case Some(qs) => Some(ps + qs)
  }

  lemma PrependPairsNothing(r: Option<seq<Pair>>)
    ensures PrependPairs([], r) == r
  {
    if r.Some? { assert [] + r.value == r.value; }
  }

  lemma PrependPairsConcat(a: seq<Pair>, b: seq<Pair>, r: Option<seq<Pair>>)
    ensures PrependPairs(a, PrependPairs(b, r)) == PrependPairs(a + b, r)
  {
    if r.Some? { assert a + (b + r.value) == (a + b) + r.value; }
  }
}
