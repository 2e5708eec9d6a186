/** Batched deletion: keys are marked at any time, taken as one batch, and put
    back in front of later marks when the batch cannot be deleted. */
module Deleter {
  import opened Bytes
  import opened Keys
  import opened Storage
  import opened EventCommands

  /** The pending list and the batch being flushed, with what has been marked
      and what has been deleted since the process started. */
  datatype Queue = Queue(pending: seq<Bytes>, flushing: Option<seq<Bytes>>, marked: seq<Bytes>, deleted: seq<Bytes>)
  {
    function Batch(): seq<Bytes> { if flushing.Some? then flushing.value else [] }
  }

  const IDLE := Queue([], None, [], [])

  datatype Step = Mark(key: Bytes) | Take | Succeed | Fail

  function Marked(q: Queue, keys: seq<Bytes>): Queue
  {
    q.(pending := q.pending + keys, marked := q.marked + keys)
  }

  /** The effect of one step; a flush step out of turn has none. */
  function After(q: Queue, step: Step): Queue
  {
    match step
    case Mark(k) => Marked(q, [k])
    case Take => if q.pending == [] || q.flushing.Some? then q else q.(pending := [], flushing := Some(q.pending))
    case Succeed => if q.flushing.None? then q else q.(flushing := None, deleted := q.deleted + q.Batch())
    case Fail => if q.flushing.None? then q else q.(flushing := None, pending := q.Batch() + q.pending)
  }

  function AfterAll(q: Queue, steps: seq<Step>): Queue
  {
    if steps == [] then q else After(AfterAll(q, steps[..|steps| - 1]), steps[|steps| - 1])
  }

  /** Nothing marked is lost, duplicated or reordered. */
  predicate Conserved(q: Queue)
  {
    q.deleted + q.Batch() + q.pending == q.marked
  }

  lemma MarkConserves(q: Queue, keys: seq<Bytes>)
    requires Conserved(q)
    ensures Conserved(Marked(q, keys))
  {
    assert q.deleted + q.Batch() + (q.pending + keys) == (q.deleted + q.Batch() + q.pending) + keys;
  }

  lemma StepConserves(q: Queue, step: Step)
    requires Conserved(q)
    ensures Conserved(After(q, step))
  {
    match step
    case Mark(k) => MarkConserves(q, [k]);
    case Take =>
      if q.pending != [] && q.flushing.None? {
        assert q.deleted + [] + q.pending == q.deleted + q.pending + [];
      }
    case Succeed =>
      if q.flushing.Some? {
        assert q.deleted + q.Batch() + q.pending == (q.deleted + q.Batch()) + [] + q.pending;
      }
    case Fail =>
      if q.flushing.Some? {
        assert q.deleted + q.Batch() + q.pending == q.deleted + [] + (q.Batch() + q.pending);
      }
  }

  /** Over every interleaving of marks with takes, successes and failures, the
      deleted keys, the batch in progress and the pending list together are
      exactly the marks in the order they were made. */
  lemma {:induction false} NothingMarkedIsLost(steps: seq<Step>)
    ensures Conserved(AfterAll(IDLE, steps))
  {
    if steps != [] {
      NothingMarkedIsLost(steps[..|steps| - 1]);
      StepConserves(AfterAll(IDLE, steps[..|steps| - 1]), steps[|steps| - 1]);
    }
  }

  // ── The running deleter ─────────────────────────────────────────────────────

  class KeyDeleter {
    var pending: seq<Bytes>
    var taken: Option<seq<Bytes>>
    ghost var marked: seq<Bytes>
    ghost var deleted: seq<Bytes>

    ghost function State(): Queue
      reads this
    {
      Queue(pending, taken, marked, deleted)
    }

    constructor ()
      ensures State() == IDLE
    {
      pending, taken, marked, deleted := [], None, [], [];
    }

    method MarkDeleted(key: Bytes)
      requires Conserved(State())
      modifies this
      ensures State() == After(old(State()), Mark(key)) && Conserved(State())
    {
      StepConserves(State(), Mark(key));
      pending := pending + [key];
      marked := marked + [key];
    }

    /** The first half of flush: swaps the pending list out under the lock. */
    method TakeBatch() returns (keys: seq<Bytes>)
      requires Conserved(State()) && taken.None?
      modifies this
      ensures State() == After(old(State()), Take) && Conserved(State())
      ensures keys == old(pending)
    {
      StepConserves(State(), Take);
      keys := pending;
      if |keys| == 0 {
        return;
      }
      taken, pending := Some(keys), [];
    }

    /** The second half of flush, once the backend has answered. */
    method FinishBatch(ok: bool)
      requires Conserved(State()) && taken.Some?
      modifies this
      ensures State() == After(old(State()), if ok then Succeed else Fail) && Conserved(State())
    {
      StepConserves(State(), if ok then Succeed else Fail);
      var keys := taken.value;
      taken := None;
      if ok {
        deleted := deleted + keys;
      } else {
        pending := keys + pending;
      }
    }
  }

  // ── Backends ────────────────────────────────────────────────────────────────

  /** Single-node mode: one local batch. */
  method DeleteKeysDirect(db: DB, keys: seq<Bytes>)
    modifies db
    ensures db.data == old(db.data) - (set k | k in keys)
  {
    var batch := new Storage.Batch(db);
    ghost var before := db.data;
    for i := 0 to |keys|
      invariant db.data == before && batch.db == db && fresh(batch)
      invariant batch.Result() == before - (set k | k in keys[..i])
    {
      assert keys[..i + 1] == keys[..i] + [keys[i]];
      batch.Delete(keys[i]);
    }
    assert keys[..|keys|] == keys;
    batch.Commit();
  }

  /** Raft mode: what is proposed, or None when the batch is refused outright.
      One key that is not 24 bytes long refuses all of them, and the whole batch
      is then put back in front of the pending list. */
  method ProposalFor(keys: seq<Bytes>) returns (cmd: Option<Bytes>)
    ensures cmd.Some? <==> forall i :: 0 <= i < |keys| ==> |keys[i]| == EVENT_KEY_LEN
    ensures cmd.Some? && |keys| < TWO64 ==> DecodeDelete(cmd.value) == Some(keys)
    ensures cmd == EncodeDelete(keys)
  {
    cmd := MarshalDeleteBatch(keys);
    if cmd.Some? && |keys| < TWO64 { DecodeDeleteExact(cmd.value, keys); }
  }
}
