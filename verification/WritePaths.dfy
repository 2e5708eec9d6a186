/** The two ways a published batch reaches storage, compared. */
module WritePaths {
  import opened Bytes
  import opened Keys
  import opened Storage
  import opened WireFormat
  import opened EventCommands
  import opened EventReplica
  import opened EventIds
  import opened Messages
  import opened Producer

  // ── What the command format carries ─────────────────────────────────────────

  lemma OneEntry(r: Replica, index: u64, cmd: Bytes)
    ensures var log := [Entry(index, cmd)];
            && Updated(r, log).store == AfterEntry(r.store, r.counter, cmd)[APPLIED_INDEX_KEY := BigEndian(index, 8)]
            && Updated(r, log).counter == Advance(r.counter, |Stored(cmd)|)
            && LogStored(log) == Stored(cmd) && LogResults(log) == EntryResult(cmd)
  {
    hide AfterEntry;
    hide Stored;
    hide EntryResult;
    hide BigEndian;
    var log := [Entry(index, cmd)];
    assert log[..0] == [];
    assert Stored(cmd) == [] + Stored(cmd) && EntryResult(cmd) == [] + EntryResult(cmd);
    assert AfterLog(r.store, r.counter, log[..0]) == r.store;
    assert LogStored(log[..0]) == [] && LogResults(log[..0]) == [];
    AdvanceNone(r.counter);
  }

  lemma AdvanceNone(c: u64)
    ensures Advance(c, 0) == c
  {
  }

  /** The replicated path stores exactly the published items if and only if every
      count and length fits the command format. */
  lemma CarriedIff(items: seq<StoreItem>)
    ensures Stored(EncodeStore(items)) == items <==> BatchFits(items)
    ensures BatchFits(items) ==> Deleted(EncodeStore(items)) == [] && EntryResult(EncodeStore(items)) == [|items|]
  {
    hide EncodeStore;
    hide DecodeStore;
    hide BatchFits;
    StoreRoundTrip(items);
    NothingFits();
    if BatchFits(items) { AfterStore(map[], 0, EncodeStore(items)); }
  }

  lemma NothingFits()
    ensures BatchFits([])
  {
  }

  /** For every accepted batch that the command format can carry, proposing it
      and applying the entry leaves the storage, the counter and the answer that
      storing it directly leaves, apart from the applied index. */
  lemma WritePathsAgree(c: Codec, ms: seq<Message>, now: int, r: Replica, index: u64)
    requires c.Valid() && ItemsOf(c, ms, now).Some?
    ensures var items := ItemsOf(c, ms, now).value;
            var log := [Entry(index, EncodeStore(items))];
            && (LogStored(log) == items <==> BatchFits(items))
            && (BatchFits(items) ==>
                  && SameApartFromIndex(Updated(r, log).store, r.store + BatchWrites(items, r.counter))
                  && Updated(r, log).counter == Advance(r.counter, IdsDrawn(c, ms, now))
                  && LogResults(log) == [|ms|])
  {
    hide ItemsOf;
    hide BatchWrites;
    hide EncodeStore;
    hide DecodeStore;
    hide BatchFits;
    hide Updated;
    hide LogStored;
    hide LogResults;
    var items := ItemsOf(c, ms, now).value;
    var cmd := EncodeStore(items);
    AllIdsDrawn(c, ms, now);
    CarriedIff(items);
    OneEntry(r, index, cmd);
    if BatchFits(items) {
      StoreRoundTrip(items);
      AfterStore(r.store, r.counter, cmd);
    }
  }

  // ── Deleting through the log ────────────────────────────────────────────────

  /** Applying a delete command removes exactly its keys, answers how many there
      were, and reports them all in order. */
  lemma DeleteEntry(r: Replica, index: u64, keys: seq<Bytes>)
    requires KeysFit(keys) && |keys| < TWO64
    ensures var log := [Entry(index, EncodeDelete(keys).value)];
            && SameApartFromIndex(Updated(r, log).store, r.store - (set k | k in keys))
            && Updated(r, log).counter == r.counter
            && LogResults(log) == [|keys|] && LogDeleted(log) == keys
  {
    hide EncodeDelete;
    hide DecodeDelete;
    hide DecodeStore;
    hide KeysFit;
    hide BigEndian;
    hide Updated;
    hide LogResults;
    hide LogStored;
    var cmd := EncodeDelete(keys).value;
    DecodeDeleteExact(cmd, keys);
    NotAStore(cmd);
    AfterDelete(r.store, r.counter, cmd);
    OneEntry(r, index, cmd);
    OneDeleted(index, cmd);
    AdvanceNone(r.counter);
    IndexAside(r.store - (set k | k in keys), BigEndian(index, 8));
  }

  lemma NotAStore(cmd: Bytes)
    requires DecodeDelete(cmd).Some?
    ensures DecodeStore(cmd) == None
  {
  }

  lemma OneDeleted(index: u64, cmd: Bytes)
    ensures LogDeleted([Entry(index, cmd)]) == Deleted(cmd)
  {
    hide Deleted;
    var log := [Entry(index, cmd)];
    assert log[..0] == [] && Collect(Deleted, log[..0]) == [];
    assert [] + Deleted(cmd) == Deleted(cmd);
  }

  /** The two deletion backends agree: whatever the replicated one proposes leaves,
      once applied, the storage that deleting the keys directly leaves, apart from
      the applied index. */
  lemma DeletePathsAgree(r: Replica, index: u64, keys: seq<Bytes>)
    requires EncodeDelete(keys).Some? && |keys| < TWO64
    ensures var log := [Entry(index, EncodeDelete(keys).value)];
            SameApartFromIndex(Updated(r, log).store, r.store - (set k | k in keys))
  {
    hide Updated;
    DeleteEntry(r, index, keys);
  }

  predicate SameApartFromIndex(a: Storage.Store, b: Storage.Store)
  {
    a - {APPLIED_INDEX_KEY} == b - {APPLIED_INDEX_KEY}
  }

  // ── What happens to what it does not carry ──────────────────────────────────

  /** No key is 2^16 bytes long and no value 2^32: what the log can write. */
  predicate Short(m: Storage.Store)
  {
    forall k :: k in m ==> |k| < 0x1_0000 && |m[k]| < 0x1_0000_0000
  }

  predicate LengthsFit(items: seq<StoreItem>)
  {
    forall i :: 0 <= i < |items| ==> ItemLengthsFit(items[i])
  }

  predicate ItemLengthsFit(it: StoreItem)
  {
    |it.msg| < 0x1_0000_0000 && forall j :: 0 <= j < |it.indexes| ==> |it.indexes[j]| < 0x1_0000
  }

  lemma ShortItem(it: StoreItem, id: u64)
    requires ItemLengthsFit(it)
    ensures Short(ItemWrites(it, id))
  {
    hide BigEndian;
    hide ItemKey;
    MetadataKeysDiffer();
  }

  lemma {:induction false} ShortWrites(items: seq<StoreItem>, c: u64)
    requires LengthsFit(items)
    ensures Short(BatchWrites(items, c))
  {
    hide ItemWrites;
    hide ItemLengthsFit;
    if items != [] {
      ShortWrites(items[..|items| - 1], c);
      ShortItem(items[|items| - 1], Advance(c, |items|));
    }
  }

  lemma FitsIff(items: seq<StoreItem>)
    ensures BatchFits(items) <==> LengthsFit(items) && |items| < TWO64
                                  && forall i :: 0 <= i < |items| ==> |items[i].indexes| < 0x1_0000
  {
    if BatchFits(items) {
      forall i | 0 <= i < |items| ensures ItemLengthsFit(items[i]) && |items[i].indexes| < 0x1_0000 {
        assert ItemFits(items[i]);
      }
    }
  }

  /** Every entry keeps the storage of a replica short. */
  lemma EntryKeepsShort(m: Storage.Store, c: u64, cmd: Bytes)
    requires Short(m)
    ensures Short(AfterEntry(m, c, cmd))
  {
    hide BatchWrites;
    hide BatchFits;
    hide DecodeStore;
    hide LengthsFit;
    NothingFits();
    if DecodeStore(cmd).Some? { DecodeStoreExact(cmd, Stored(cmd)); }
    FitsIff(Stored(cmd));
    ShortWrites(Stored(cmd), c);
  }

  /** An index or message too long for the format is stored by the direct path
      under its own key or value, which no replica can hold. */
  lemma LongIsStored(m: Storage.Store, items: seq<StoreItem>, c: u64)
    requires CleanItems(items) && c + |items| < TWO64 && !LengthsFit(items)
    ensures !Short((m + BatchWrites(items, c)) - {APPLIED_INDEX_KEY})
  {
    hide BatchWrites;
    hide ItemKey;
    hide CleanItems;
    MetadataKeysDiffer();
    var i :| 0 <= i < |items| && !ItemLengthsFit(items[i]);
    var all := (m + BatchWrites(items, c)) - {APPLIED_INDEX_KEY};
    if |items[i].msg| >= 0x1_0000_0000 {
      ItemIsWritten(items, c, i);
      assert ItemKey(items[i], c + i + 1) in all;
    } else {
      var j :| 0 <= j < |items[i].indexes| && |items[i].indexes[j]| >= 0x1_0000;
      IndexIsWritten(items, c, i, items[i].indexes[j]);
      assert items[i].indexes[j] in all;
    }
  }

  lemma {:induction false} IndexIsWritten(items: seq<StoreItem>, c: u64, i: nat, idx: Bytes)
    requires i < |items| && idx in items[i].indexes
    ensures idx in BatchWrites(items, c)
  {
    hide BigEndian;
    hide ItemKey;
    if i < |items| - 1 {
      IndexIsWritten(items[..|items| - 1], c, i, idx);
    }
  }

  lemma IndexAside(m: Storage.Store, v: Bytes)
    ensures m[APPLIED_INDEX_KEY := v] - {APPLIED_INDEX_KEY} == m - {APPLIED_INDEX_KEY}
    ensures Short(m) ==> Short(m - {APPLIED_INDEX_KEY})
  {
  }

  /** On a replica's storage, for clean batches with fewer than 2^16 indexes a
      message, the two paths leave the same storage if and only if every length
      fits. */
  lemma PathsAgreeIff(items: seq<StoreItem>, r: Replica, index: u64)
    requires Short(r.store) && CleanItems(items) && r.counter + |items| < TWO64
    requires forall i :: 0 <= i < |items| ==> |items[i].indexes| < 0x1_0000
    ensures SameApartFromIndex(Updated(r, [Entry(index, EncodeStore(items))]).store,
            r.store + BatchWrites(items, r.counter))
            <==> LengthsFit(items)
  {
    hide BatchWrites;
    hide EncodeStore;
    hide DecodeStore;
    hide BatchFits;
    hide LengthsFit;
    hide CleanItems;
    hide Updated;
    hide BigEndian;
    hide AfterEntry;
    hide LogStored;
    hide LogResults;
    var cmd := EncodeStore(items);
    hide Short;
    OneEntry(r, index, cmd);
    IndexAside(AfterEntry(r.store, r.counter, cmd), BigEndian(index, 8));
    FitsIff(items);
    if LengthsFit(items) {
      StoreRoundTrip(items);
      AfterStore(r.store, r.counter, cmd);
    } else {
      LongIsStored(r.store, items, r.counter);
      EntryKeepsShort(r.store, r.counter, cmd);
    }
  }

  /** A message with one index of 2^16 bytes, published to an empty node: the
      direct path stores the index and the replicated path does not. */
  lemma LongIndexDiffers()
    ensures var items := [StoreItem(0, 0, [seq(0x1_0000, _ => 0)], [])];
            !SameApartFromIndex(Updated(Replica(map[], 0, 0), [Entry(1, EncodeStore(items))]).store,
                BatchWrites(items, 0))
  {
    hide BatchWrites;
    hide EncodeStore;
    hide Updated;
    hide SameApartFromIndex;
    var items := [StoreItem(0, 0, [seq(0x1_0000, _ => 0)], [])];
    MetadataKeysDiffer();
    assert CleanItem(items[0]);
    assert |items[0].indexes[0]| == 0x1_0000;
    assert !ItemLengthsFit(items[0]);
    PathsAgreeIff(items, Replica(map[], 0, 0), 1);
    assert map[] + BatchWrites(items, 0) == BatchWrites(items, 0);
  }

  // ── Too many indexes can go unnoticed ───────────────────────────────────────

  function Empties(n: nat): (r: seq<Bytes>)
    ensures |r| == n && forall i :: 0 <= i < n ==> r[i] == []
  {
    seq(n, i => [])
  }

  lemma Words()
    ensures BigEndian(0, 2) == [0, 0] && BigEndian(0, 4) == [0, 0, 0, 0] && BigEndian(0x1_0001, 2) == BigEndian(1, 2)
  {
    assert BigEndian(0, 1) == [] + [0] && BigEndian(0, 3) == BigEndian(0, 2) + [0];
    assert BigEndian(0x1_0001, 2) == BigEndian(0x100, 1) + [1] && BigEndian(0x100, 1) == [] + [0];
    assert BigEndian(1, 2) == BigEndian(0, 1) + [1];
  }

  lemma EmptiesPrint(n: nat)
    requires n > 0
    ensures PrintAll(PrintIndex, Empties(n)) == [0, 0] + PrintAll(PrintIndex, Empties(n - 1))
  {
    Words();
    assert Empties(n)[1..] == Empties(n - 1);
  }

  lemma SingleEncoding(it: StoreItem)
    ensures EncodeStore([it]) == [STORE_BATCH] + BigEndian(1, 8) + PrintItem(it)
  {
    hide BigEndian;
    hide PrintItem;
    assert PrintAll(PrintItem, [it]) == PrintItem(it) + PrintAll(PrintItem, [it][1..]);
    assert [it][1..] == [];
  }

  lemma SixZeros()
    ensures PrintAll(PrintIndex, Empties(1)) + PrintField(4, []) == [0, 0, 0, 0, 0, 0]
    ensures [0, 0, 0, 0, 0, 0] <= PrintAll(PrintIndex, Empties(0x1_0001))
  {
    hide PrintIndex;
    hide BigEndian;
    Words();
    assert PrintAll(PrintIndex, Empties(0)) == [];
    EmptiesPrint(1);
    EmptiesPrint(0x1_0001);
    EmptiesPrint(0x1_0000);
    EmptiesPrint(0xFFFF);
  }

  lemma SameHeader(bucket: u64, hash: u64)
    ensures ItemHeader(StoreItem(bucket, hash, Empties(1), []))
            == ItemHeader(StoreItem(bucket, hash, Empties(0x1_0001), []))
  {
    hide BigEndian;
    Words();
  }

  lemma SameStart(bucket: u64, hash: u64)
    ensures PrintItem(StoreItem(bucket, hash, Empties(1), []))
            <= PrintItem(StoreItem(bucket, hash, Empties(0x1_0001), []))
  {
    hide ItemHeader;
    hide PrintAll;
    hide PrintField;
    SameHeader(bucket, hash);
    SixZeros();
    var h := ItemHeader(StoreItem(bucket, hash, Empties(1), []));
    assert h + PrintAll(PrintIndex, Empties(1)) + PrintField(4, []) == h + [0, 0, 0, 0, 0, 0];
  }

  /** A message with 2^16 + 1 empty indexes and no body does not fit the format.
      It is decoded as one with a single empty index, and storage is the same. */
  lemma CountsMayCoincide(bucket: u64, hash: u64, c: u64)
    ensures var many, one := StoreItem(bucket, hash, Empties(0x1_0001), []), StoreItem(bucket, hash, Empties(1), []);
            && !BatchFits([many])
            && DecodeStore(EncodeStore([many])) == Some([one])
            && BatchWrites([many], c) == BatchWrites([one], c)
  {
    hide DecodeStore;
    hide EncodeStore;
    hide PrintItem;
    hide BigEndian;
    hide BatchWrites;
    var many, one := StoreItem(bucket, hash, Empties(0x1_0001), []), StoreItem(bucket, hash, Empties(1), []);
    SameStart(bucket, hash);
    SingleEncoding(many);
    SingleEncoding(one);
    assert ItemFits(one) && BatchFits([one]);
    DecodeStoreExact(EncodeStore([many]), [one]);
    assert !ItemFits([many][0]);
    SameWrites(bucket, hash, c);
  }

  lemma SameIndexes(n: nat, key: Bytes)
    requires n > 0
    ensures IndexWrites(Empties(n), key) == map[[] := key]
  {
    assert Empties(n)[0] == [];
  }

  lemma BatchOfOne(it: StoreItem, c: u64)
    ensures BatchWrites([it], c) == ItemWrites(it, Advance(c, 1))
  {
    hide ItemWrites;
    assert [it][..0] == [];
    assert BatchWrites([it][..0], c) == map[];
  }

  lemma SameWrites(bucket: u64, hash: u64, c: u64)
    ensures BatchWrites([StoreItem(bucket, hash, Empties(0x1_0001), [])], c)
            == BatchWrites([StoreItem(bucket, hash, Empties(1), [])], c)
  {
    hide BigEndian;
    hide BatchWrites;
    hide IndexWrites;
    hide EventKey;
    var key := EventKey(bucket, hash, Advance(c, 1));
    BatchOfOne(StoreItem(bucket, hash, Empties(0x1_0001), []), c);
    BatchOfOne(StoreItem(bucket, hash, Empties(1), []), c);
    SameIndexes(0x1_0001, key);
    SameIndexes(1, key);
  }
}
