/** The storage engine contract: an ordered map from byte strings to byte
    strings, changed only by batches that are applied atomically and in order. */
module Storage {
  import opened Bytes

  type Store = map<Bytes, Bytes>

  datatype Op = Put(key: Bytes, value: Bytes) | Drop(key: Bytes)

  function ApplyOp(op: Op, m: Store): Store
  {
    match op
    case Put(k, v) => m[k := v]
    case Drop(k) => m - {k}
  }

  /** Storage after a batch: the operations in order. */
  function Apply(ops: seq<Op>, m: Store): Store
  {
    if ops == [] then m else ApplyOp(ops[|ops| - 1], Apply(ops[..|ops| - 1], m))
  }

  /** m and n hold the same thing at k, or both nothing. */
  predicate SameAt(m: Store, n: Store, k: Bytes)
  {
    (k in m <==> k in n) && (k in m ==> m[k] == n[k])
  }

  // ── Ordered scans ───────────────────────────────────────────────────────────

  predicate IsLeast(k: Bytes, keys: set<Bytes>)
  {
    k in keys && forall j :: j in keys ==> j == k || Below(k, j)
  }

  lemma {:induction false} LeastExists(keys: set<Bytes>)
    requires keys != {}
    ensures exists k :: IsLeast(k, keys)
    decreases |keys|
  {
    var x :| x in keys;
    var rest := keys - {x};
    if rest == {} {
      assert keys == {x};
      assert IsLeast(x, keys);
    } else {
      LeastExists(rest);
      var k :| IsLeast(k, rest);
      BelowTrichotomy(x, k);
      if Below(x, k) {
        forall j | j in keys ensures j == x || Below(x, j) {
          if j != x && j != k { BelowTransitive(x, k, j); }
        }
        assert IsLeast(x, keys);
      } else {
        assert IsLeast(k, keys);
      }
    }
  }

  lemma LeastUnique(j: Bytes, k: Bytes, keys: set<Bytes>)
    requires IsLeast(j, keys) && IsLeast(k, keys)
    ensures j == k
  {
    BelowTrichotomy(j, k);
  }

  ghost function Least(keys: set<Bytes>): (k: Bytes)
    requires keys != {}
    ensures IsLeast(k, keys)
  {
    LeastExists(keys);
    var k :| IsLeast(k, keys);
    k
  }

  ghost predicate Sorted(r: seq<Bytes>)
  {
    forall i, j :: 0 <= i < j < |r| ==> Below(r[i], r[j])
  }

  /** The keys in ascending byte-wise order, each once. */
  ghost function Ascending(keys: set<Bytes>): (r: seq<Bytes>)
    ensures forall k :: k in r <==> k in keys
    decreases |keys|
  {
    if keys == {} then [] else [Least(keys)] + Ascending(keys - {Least(keys)})
  }

  lemma AscendingStep(k: Bytes, keys: set<Bytes>, before: seq<Bytes>)
    requires IsLeast(k, keys)
    ensures before + Ascending(keys) == before + [k] + Ascending(keys - {k})
  {
    LeastUnique(k, Least(keys), keys);
    assert before + ([k] + Ascending(keys - {k})) == before + [k] + Ascending(keys - {k});
  }

  lemma {:induction false} AscendingSorted(keys: set<Bytes>)
    ensures Sorted(Ascending(keys)) && |Ascending(keys)| == |keys|
    decreases |keys|
  {
    if keys != {} {
      var k := Least(keys);
      var rest := Ascending(keys - {k});
      AscendingSorted(keys - {k});
      forall i | 0 <= i < |rest| ensures Below(k, rest[i]) {
        assert rest[i] in rest;
      }
    }
  }

  /** The keys up to and including k in byte-wise order. */
  function UpTo(keys: set<Bytes>, k: Bytes): set<Bytes>
  {
    set d | d in keys && (d == k || Below(d, k))
  }

  /** A key comes no later in a scan than its rank in byte-wise order. */
  lemma {:induction false} AscendingPosition(keys: set<Bytes>, k: Bytes) returns (j: nat)
    requires k in keys
    ensures j < |Ascending(keys)| && Ascending(keys)[j] == k && j + 1 <= |UpTo(keys, k)|
    decreases |keys|
  {
    hide *;
    var first := Least(keys);
    FirstRank(keys, k);
    if first == k {
      j := 0;
    } else {
      j := AscendingPosition(keys - {first}, k);
      j := j + 1;
    }
  }

  /** The least key comes first and is among those up to any key. */
  lemma FirstRank(keys: set<Bytes>, k: Bytes)
    requires k in keys
    ensures Least(keys) in keys && Ascending(keys) == [Least(keys)] + Ascending(keys - {Least(keys)})
    ensures |UpTo(keys, k)| >= 1
    ensures k != Least(keys) ==> |UpTo(keys, k)| == |UpTo(keys - {Least(keys)}, k)| + 1
  {
    hide Below;
    var first := Least(keys);
    assert k in UpTo(keys, k);
    if first != k {
      assert UpTo(keys, k) == UpTo(keys - {first}, k) + {first};
    }
  }

  // ── The engine ──────────────────────────────────────────────────────────────

  class DB {
    var data: Store

    constructor ()
      ensures data == map[]
    {
      data := map[];
    }

    /** Yields the keys of a finite selection in order, as Scan and NewIter do. */
    method InOrder(selected: set<Bytes>) returns (keys: seq<Bytes>)
      requires selected <= data.Keys
      ensures keys == Ascending(selected)
    {
      keys := [];
      var rest := selected;
      while rest != {}
        invariant Ascending(selected) == keys + Ascending(rest)
        decreases |rest|
      {
        LeastExists(rest);
        var k :| k in rest && IsLeast(k, rest);
        AscendingStep(k, rest, keys);
        keys, rest := keys + [k], rest - {k};
      }
    }
  }

  class Batch {
    const db: DB
    var ops: seq<Op>

    constructor (db: DB)
      ensures this.db == db && Result() == db.data
    {
      this.db := db;
      ops := [];
    }

    /** What storage will hold once the batch commits. */
    ghost function Result(): Store
      reads this, db
    {
      Apply(ops, db.data)
    }

    method Set(key: Bytes, value: Bytes)
      modifies this
      ensures Result() == old(Result())[key := value]
    {
      ops := ops + [Put(key, value)];
      assert ops[..|ops| - 1] == old(ops);
    }

    method Delete(key: Bytes)
      modifies this
      ensures Result() == old(Result()) - {key}
    {
      ops := ops + [Drop(key)];
      assert ops[..|ops| - 1] == old(ops);
    }

    /** All operations take effect at once, in the order they were added. */
    method Commit()
      modifies db
      ensures db.data == old(Result())
    {
      var list := ops;
      ghost var before := db.data;
      for i := 0 to |list|
        invariant db.data == Apply(list[..i], before)
      {
        assert list[..i + 1][..i] == list[..i];
        match list[i]
        case Put(k, v) => db.data := db.data[k := v];
        case Drop(k) => db.data := db.data - {k};
      }
      assert list[..|list|] == list;
    }
  }
}
