/** Snapshots of the event storage: a stream of length-prefixed pairs. */
module EventSnapshot {
  import opened Bytes
  import opened Keys
  import opened Storage
  import opened WireFormat
  import opened EventCommands
  import opened EventReplica
  import opened EventRecovery

  // ── Little-endian lengths ───────────────────────────────────────────────────

  function LittleEndian(v: nat, w: nat): (s: Bytes)
    ensures |s| == w
  {
    if w == 0 then [] else [v % 256] + LittleEndian(v / 256, w - 1)
  }

  function FromLittleEndian(s: Bytes): (v: nat)
    ensures v < Capacity(|s|)
  {
    if s == [] then 0 else s[0] + 256 * FromLittleEndian(s[1..])
  }

  /** Least significant byte first: the other words of the system, reversed. */
  lemma {:induction false} LittleIsReversed(v: nat, w: nat, i: nat)
    requires i < w
    ensures LittleEndian(v, w)[i] == BigEndian(v, w)[w - 1 - i]
  {
    if i > 0 { LittleIsReversed(v / 256, w - 1, i - 1); }
  }

  lemma {:induction false} LittleEndianInverse(s: Bytes, v: nat)
    ensures FromLittleEndian(s) == v <==> v < Capacity(|s|) && LittleEndian(v, |s|) == s
  {
    if s != [] {
      var enc := LittleEndian(v, |s|);
      assert enc[1..] == LittleEndian(v / 256, |s[1..]|) && enc[0] == v % 256;
      LittleEndianInverse(s[1..], v / 256);
      assert s == [s[0]] + s[1..];
    }
  }

  function PrintChunk(b: Bytes): Bytes { LittleEndian(|b|, 4) + b }

  function ParseChunk(s: Bytes): (r: Parsed<Bytes>)
    ensures r.Good? ==> |r.rest| + 4 <= |s|
  {
    if |s| < 4 then Bad
    else
      var n := FromLittleEndian(s[..4]);
      if |s[4..]| < n then Bad else Good(s[4..][..n], s[4..][n..])
  }

  lemma ChunkLaw(s: Bytes, b: Bytes, rest: Bytes)
    ensures ParseChunk(s) == Good(b, rest) <==> |b| < 0x1_0000_0000 && s == PrintChunk(b) + rest
  {
    hide LittleEndian;
    hide FromLittleEndian;
    CapacityValues();
    assert PrintChunk(b) + rest == LittleEndian(|b|, 4) + (b + rest);
    assert (b + rest)[..|b|] == b && (b + rest)[|b|..] == rest;
    if ParseChunk(s) == Good(b, rest) {
      LittleEndianInverse(s[..4], |b|);
      assert s == s[..4] + s[4..] && s[4..] == b + rest;
    }
    if |b| < 0x1_0000_0000 && s == PrintChunk(b) + rest {
      assert s[..4] == LittleEndian(|b|, 4) && s[4..] == b + rest;
      LittleEndianInverse(s[..4], |b|);
    }
  }

  // ── Pairs and streams of them ───────────────────────────────────────────────

  datatype Pair = Pair(key: Bytes, value: Bytes)

  function PrintPair(p: Pair): Bytes { PrintChunk(p.key) + PrintChunk(p.value) }

  function ParsePair(s: Bytes): (r: Parsed<Pair>)
    ensures r.Good? ==> |r.rest| < |s|
  {
    match ParseChunk(s)
    case Bad => Bad
    case Good(k, s1) =>
      match ParseChunk(s1)
      case Bad => Bad
      case Good(v, rest) => Good(Pair(k, v), rest)
  }

  predicate PairFits(p: Pair) { |p.key| < 0x1_0000_0000 && |p.value| < 0x1_0000_0000 }

  lemma PairLaw(s: Bytes, p: Pair, rest: Bytes)
    ensures ParsePair(s) == Good(p, rest) <==> PairFits(p) && s == PrintPair(p) + rest
  {
    hide ParseChunk;
    hide PrintChunk;
    var s1 := PrintChunk(p.value) + rest;
    assert PrintPair(p) + rest == PrintChunk(p.key) + s1;
    ChunkLaw(s, p.key, s1);
    ChunkLaw(s1, p.value, rest);
    if ParsePair(s) == Good(p, rest) {
      ChunkLaw(ParseChunk(s).rest, p.value, rest);
    }
  }

  /** Reads pairs until the stream ends; a stream that ends inside a pair is an error. */
  function ParseStream(s: Bytes): (r: Option<seq<Pair>>)
    decreases |s|
  {
    if s == [] then Some([])
    else match ParsePair(s)
      case Bad => None
      case Good(p, rest) =>
        match ParseStream(rest)
        case None => None
        case Some(ps) => Some([p] + ps)
  }

  predicate AllFit(ps: seq<Pair>)
  {
    forall i :: 0 <= i < |ps| ==> PairFits(ps[i])
  }

  /** A stream is readable exactly when it is what some pairs print to. */
  lemma {:induction false} StreamLaw(s: Bytes, ps: seq<Pair>)
    ensures ParseStream(s) == Some(ps) <==> AllFit(ps) && s == PrintAll(PrintPair, ps)
    decreases |ps|
  {
    hide ParsePair;
    hide PrintPair;
    if ps == [] {
      assert PrintAll(PrintPair, ps) == [];
    } else {
      var tail := PrintAll(PrintPair, ps[1..]);
      PairNotEmpty(ps[0]);
      PairLaw(s, ps[0], tail);
      StreamLaw(tail, ps[1..]);
      assert ps == [ps[0]] + ps[1..];
      if ParseStream(s) == Some(ps) {
        var rest := ParsePair(s).rest;
        PairLaw(s, ps[0], rest);
        StreamLaw(rest, ps[1..]);
        assert ParseStream(rest).value == ps[1..];
      }
    }
  }

  /** Pairs whose print starts another print are the first of its pairs. */
  lemma {:induction false} PrintedPrefix(qs: seq<Pair>, ps: seq<Pair>)
    requires AllFit(ps) && AllFit(qs) && PrintAll(PrintPair, qs) <= PrintAll(PrintPair, ps)
    ensures qs <= ps
  {
    hide PrintPair;
    if qs != [] {
      var s, q := PrintAll(PrintPair, ps), PrintAll(PrintPair, qs[1..]);
      PairNotEmpty(qs[0]);
      assert s == PrintPair(qs[0]) + s[|PrintPair(qs[0])|..];
      PairLaw(s, qs[0], s[|PrintPair(qs[0])|..]);
      PairLaw(s, ps[0], PrintAll(PrintPair, ps[1..]));
      assert qs[0] == ps[0];
      assert q <= PrintAll(PrintPair, ps[1..]);
      PrintedPrefix(qs[1..], ps[1..]);
      assert qs == [qs[0]] + qs[1..] && ps == [ps[0]] + ps[1..];
    }
  }

  predicate Boundary(ps: seq<Pair>, j: nat, cut: nat)
  {
    j <= |ps| && |PrintAll(PrintPair, ps[..j])| == cut
  }

  lemma ReadToBoundary(ps: seq<Pair>, j: nat, cut: nat)
    requires AllFit(ps) && cut <= |PrintAll(PrintPair, ps)| && Boundary(ps, j, cut)
    ensures ParseStream(PrintAll(PrintPair, ps)[..cut]) == Some(ps[..j])
  {
    hide PrintPair;
    hide PrintAll;
    hide ParseStream;
    PrintAllConcat(PrintPair, ps[..j], ps[j..]);
    assert ps == ps[..j] + ps[j..];
    StreamLaw(PrintAll(PrintPair, ps)[..cut], ps[..j]);
  }

  /** A stream cut short is refused exactly when the cut falls inside a pair. A
      cut between pairs goes unnoticed and yields the pairs before it. */
  lemma StreamTruncated(ps: seq<Pair>, cut: nat)
    requires AllFit(ps) && cut <= |PrintAll(PrintPair, ps)|
    ensures ParseStream(PrintAll(PrintPair, ps)[..cut]).Some? <==> exists j: nat :: Boundary(ps, j, cut)
    ensures forall j: nat :: Boundary(ps, j, cut) ==> ParseStream(PrintAll(PrintPair, ps)[..cut]) == Some(ps[..j])
  {
    hide PrintPair;
    hide PrintAll;
    hide ParseStream;
    var s := PrintAll(PrintPair, ps)[..cut];
    if ParseStream(s).Some? {
      var qs := ParseStream(s).value;
      StreamLaw(s, qs);
      PrintedPrefix(qs, ps);
      assert ps[..|qs|] == qs;
      assert Boundary(ps, |qs|, cut);
    }
    forall j: nat | Boundary(ps, j, cut) ensures ParseStream(s) == Some(ps[..j]) {
      ReadToBoundary(ps, j, cut);
    }
  }

  lemma PairNotEmpty(p: Pair)
    ensures PrintPair(p) != []
  {
  }

  // ── Saving and recovering ───────────────────────────────────────────────────

  function PairsOf(m: Store, keys: seq<Bytes>): (ps: seq<Pair>)
    requires forall i :: 0 <= i < |keys| ==> keys[i] in m
    ensures |ps| == |keys| && forall i :: 0 <= i < |ps| ==> ps[i] == Pair(keys[i], m[keys[i]])
  {
    seq(|keys|, i requires 0 <= i < |keys| => Pair(keys[i], m[keys[i]]))
  }

  /** The snapshot of m, its keys visited in the order given. */
  function Snapshot(m: Store, keys: seq<Bytes>): Bytes
    requires forall i :: 0 <= i < |keys| ==> keys[i] in m
  {
    PrintAll(PrintPair, PairsOf(m, keys))
  }

  function StoreOf(ps: seq<Pair>): Store
  {
    if ps == [] then map[] else StoreOf(ps[..|ps| - 1])[ps[|ps| - 1].key := ps[|ps| - 1].value]
  }

  /** What RecoverFromSnapshot leaves: storage is cleared first, so a bad stream
      leaves it empty; the in-memory counter is never reloaded. */
  function Recovered(r: Replica, snapshot: Bytes): Replica
  {
    match ParseStream(snapshot)
    case None => r.(store := map[])
    case Some(ps) =>
      var m := StoreOf(ps);
      Replica(m, r.counter, if APPLIED_INDEX_KEY in m then ReadWord(m, APPLIED_INDEX_KEY) else r.applied)
  }

  ghost predicate Enumerates(keys: seq<Bytes>, m: Store)
  {
    forall k :: k in keys <==> k in m
  }

  predicate StoreFits(m: Store)
  {
    forall k :: k in m ==> |k| < 0x1_0000_0000 && |m[k]| < 0x1_0000_0000
  }

  lemma {:induction false} StoreOfPairs(ps: seq<Pair>, m: Store)
    requires forall i :: 0 <= i < |ps| ==> ps[i].key in m && ps[i].value == m[ps[i].key]
    ensures forall k :: k in StoreOf(ps) <==> exists i :: 0 <= i < |ps| && ps[i].key == k
    ensures forall k :: k in StoreOf(ps) ==> k in m && StoreOf(ps)[k] == m[k]
  {
    if ps != [] {
      var init := ps[..|ps| - 1];
      StoreOfPairs(init, m);
      forall k | k in StoreOf(ps) ensures exists i :: 0 <= i < |ps| && ps[i].key == k {
        if k == ps[|ps| - 1].key {
        } else {
          var i :| 0 <= i < |init| && init[i].key == k;
          assert ps[i].key == k;
        }
      }
      forall i | 0 <= i < |ps| ensures ps[i].key in StoreOf(ps) {
        if i < |init| { assert init[i].key == ps[i].key; }
      }
    }
  }

  /** A saved storage comes back whole on any replica and in any key order,
      exactly when every key and value length fits its 32-bit prefix. */
  lemma SnapshotRestores(m: Store, keys: seq<Bytes>, target: Replica)
    requires Enumerates(keys, m) && APPLIED_INDEX_KEY in m
    ensures Recovered(target, Snapshot(m, keys)) == Replica(m, target.counter, ReadWord(m, APPLIED_INDEX_KEY))
            <==> StoreFits(m)
  {
    hide PrintAll;
    hide ParseStream;
    hide StoreOf;
    hide ReadWord;
    assert forall i :: 0 <= i < |keys| ==> keys[i] in keys;
    var ps := PairsOf(m, keys);
    var s := Snapshot(m, keys);
    if StoreFits(m) {
      StreamLaw(s, ps);
      StoreOfPairs(ps, m);
      assert StoreOf(ps) == m by {
        forall k | k in m ensures k in StoreOf(ps) {
          var i :| 0 <= i < |keys| && keys[i] == k;
          assert ps[i].key == k;
        }
      }
    }
    var got := ParseStream(s);
    if got.Some? {
      StreamLaw(s, got.value);
      StoreOfFits(got.value);
    }
  }

  /** A snapshot cut short: between pairs it restores, without an error, the keys
      written before the cut and no others; anywhere else it leaves storage empty. */
  lemma TruncatedRestores(m: Store, keys: seq<Bytes>, cut: nat, target: Replica)
    requires Enumerates(keys, m) && StoreFits(m)
    requires (forall i :: 0 <= i < |keys| ==> keys[i] in m) && cut <= |Snapshot(m, keys)|
    ensures var ps, r := PairsOf(m, keys), Recovered(target, Snapshot(m, keys)[..cut]);
            && (forall j: nat :: Boundary(ps, j, cut) ==>
                  && r.store.Keys == (set k | k in keys[..j])
                  && forall k :: k in r.store ==> k in m && r.store[k] == m[k])
            && ((forall j: nat :: !Boundary(ps, j, cut)) ==> r.store == map[])
  {
    hide PrintAll;
    hide ParseStream;
    hide StoreOf;
    var ps := PairsOf(m, keys);
    StreamTruncated(ps, cut);
    forall j: nat | Boundary(ps, j, cut)
      ensures var r := Recovered(target, Snapshot(m, keys)[..cut]);
              && r.store.Keys == (set k | k in keys[..j])
              && forall k :: k in r.store ==> k in m && r.store[k] == m[k]
    {
      StoreOfPairs(ps[..j], m);
      KeysOfPairs(m, keys, j);
    }
  }

  lemma KeysOfPairs(m: Store, keys: seq<Bytes>, j: nat)
    requires (forall i :: 0 <= i < |keys| ==> keys[i] in m) && j <= |keys|
    ensures StoreOf(PairsOf(m, keys)[..j]).Keys == set k | k in keys[..j]
  {
    hide StoreOf;
    var ps := PairsOf(m, keys)[..j];
    StoreOfPairs(ps, m);
    forall k | k in keys[..j] ensures k in StoreOf(ps) {
      var i :| 0 <= i < j && keys[..j][i] == k;
      assert ps[i].key == k;
    }
    forall k | k in StoreOf(ps) ensures k in keys[..j] {
      var i :| 0 <= i < |ps| && ps[i].key == k;
      assert keys[..j][i] == k;
    }
  }

  lemma {:induction false} StoreOfFits(ps: seq<Pair>)
    requires AllFit(ps)
    ensures StoreFits(StoreOf(ps))
  {
    if ps != [] {
      assert PairFits(ps[|ps| - 1]);
      StoreOfFits(ps[..|ps| - 1]);
    }
  }

  /** Snapshot equivalence: save a replica that has applied p, recover onto any
      replica whatever it held, reopen the repository and apply the rest of the
      log. The result is the replica of the whole log, exactly when the saved
      counter survives. */
  lemma SnapshotThenSuffix(m: Store, p: seq<Entry>, q: seq<Entry>, keys: seq<Bytes>, target: Replica)
    requires p != []
    requires Enumerates(keys, Updated(Opened(m), p).store) && StoreFits(Updated(Opened(m), p).store)
    ensures var saved := Updated(Opened(m), p);
            var recovered := Recovered(target, Snapshot(saved.store, keys));
            && recovered.store == saved.store && recovered.applied == saved.applied
            && (After(Opened(recovered.store), q) == After(Opened(m), p + q)
                <==> CounterSurvives(LogStored(p), Opened(m).counter))
  {
    hide CounterSurvives;
    hide ReadWord;
    hide Recovered;
    var saved := Updated(Opened(m), p);
    assert APPLIED_INDEX_KEY in saved.store;
    SnapshotRestores(saved.store, keys, target);
    ReopenAfter(m, p);
    ReplayFrom(m, p, q);
    assert After(Opened(m), p) == saved;
  }

  /** Without reopening the repository the recovered replica keeps its own
      counter, and its storage follows the saved one through a log exactly when
      the counters were equal or the log stores nothing. */
  lemma WithoutReopenIff(saved: Replica, target: Replica, keys: seq<Bytes>, q: seq<Entry>)
    requires Enumerates(keys, saved.store) && StoreFits(saved.store)
    requires APPLIED_INDEX_KEY in saved.store && ReadWord(saved.store, APPLIED_INDEX_KEY) == saved.applied
    ensures Updated(Recovered(target, Snapshot(saved.store, keys)), q).store == Updated(saved, q).store
            <==> target.counter == saved.counter || LogStored(q) == []
  {
    hide Recovered;
    hide Updated;
    SnapshotRestores(saved.store, keys, target);
    CounterDecides(saved, target.counter, q);
  }

  lemma CounterDecides(r: Replica, c: u64, q: seq<Entry>)
    ensures Updated(r.(counter := c), q).store == Updated(r, q).store <==> c == r.counter || LogStored(q) == []
  {
    hide CounterValue;
    hide AfterLog;
    hide LogStored;
    hide BigEndian;
    MetadataKeysDiffer();
    if LogStored(q) == [] {
      NothingStored(r.store, r.counter, c, q);
    } else if c != r.counter {
      LogCounter(r.store, r.counter, q);
      LogCounter(r.store, c, q);
      CounterValueInjective(LogStored(q), r.counter, c);
      assert Updated(r.(counter := c), q).store[LAST_ID_KEY] != Updated(r, q).store[LAST_ID_KEY];
    }
  }

  lemma {:induction false} NothingStored(m: Store, c: u64, d: u64, log: seq<Entry>)
    requires LogStored(log) == []
    ensures AfterLog(m, c, log) == AfterLog(m, d, log)
  {
    if log != [] {
      NothingStored(m, c, d, log[..|log| - 1]);
      assert Stored(log[|log| - 1].cmd) == [];
    }
  }

  lemma CounterValueInjective(items: seq<StoreItem>, c: u64, d: u64)
    requires items != [] && c != d
    ensures CounterValue(items, c) != CounterValue(items, d)
  {
    var it, x, y := items[|items| - 1], Advance(c, |items|), Advance(d, |items|);
    CapacityValues();
    AdvanceInjective(c, d, |items|);
    BigEndianOrder(x, y, 8);
    EventKeyBijection(ItemKey(it, x), EventParts(it.topicHash, it.bucket, x));
    EventKeyBijection(ItemKey(it, y), EventParts(it.topicHash, it.bucket, y));
  }

  /** Two keys are saved and the stream is cut after the first pair: recovery
      reports no error and the second key is missing. */
  lemma CutBetweenPairs(target: Replica)
    ensures var m: Store := map[[1] := [7], [2] := [8]];
            var cut := |PrintPair(Pair([1], [7]))|;
            && cut < |Snapshot(m, [[1], [2]])|
            && ParseStream(Snapshot(m, [[1], [2]])[..cut]) == Some([Pair([1], [7])])
            && Recovered(target, Snapshot(m, [[1], [2]])[..cut]).store == map[[1] := [7]]
  {
    hide PrintPair;
    hide ParseStream;
    var m: Store := map[[1] := [7], [2] := [8]];
    var one, two := Pair([1], [7]), Pair([2], [8]);
    assert PairsOf(m, [[1], [2]]) == [one, two];
    PrintAllSnoc(PrintPair, [one], two);
    PrintAllSnoc(PrintPair, [], one);
    assert [] + [one] == [one] && [one] + [two] == [one, two];
    PairNotEmpty(two);
    assert AllFit([one, two]) && [one, two][..1] == [one];
    assert Boundary([one, two], 1, |PrintPair(one)|);
    ReadToBoundary([one, two], 1, |PrintPair(one)|);
    assert [one][..0] == [];
    assert StoreOf([one]) == map[[1] := [7]];
  }
}
