/** What holds over every run of the broker. */
module BrokerRuns {
  import opened Bytes
  import opened Keys
  import opened Storage
  import opened Messages
  import opened EventCommands
  import opened EventReplica
  import opened EventIds
  import opened HubDelivery
  import opened Dispatcher
  import opened DispatchPass
  import opened Broker
  import D = Deleter

  // ── No message is lost ──────────────────────────────────────────────────────

  /** The key is on no path to deletion. */
  predicate Unmarked(q: D.Queue, proposed: seq<seq<Bytes>>, k: Bytes)
  {
    k !in q.pending && k !in q.Batch() && forall i :: 0 <= i < |proposed| ==> k !in proposed[i]
  }

  predicate Held(s: State, k: Bytes, v: Bytes)
  {
    |k| == EVENT_KEY_LEN && k in s.store && s.store[k] == v && Unmarked(s.deleter, s.proposed, k)
  }

  /** The value decodes to a message whose TTL has elapsed at this time. */
  predicate DeadAt(env: Env, v: Bytes, now: int)
  {
    env.codec.decode(v).Some? && Expired(env.codec.decode(v).value, now)
  }

  /** The step neither acknowledges k nor looks at it after its TTL. */
  predicate Spares(cfg: Config, step: Step, k: Bytes, v: Bytes)
  {
    match step
    case Ack(_, tag) => tag != k
    case Pass(now, _) => !DeadAt(cfg.env, v, now)
    case Sweep(now) => !DeadAt(cfg.env, v, now)
    case _ => true
  }

  lemma PublishHolds(s: State, items: seq<StoreItem>, k: Bytes, v: Bytes)
    requires Inv(s) && Held(s, k, v) && CleanItems(items) && s.counter + |items| < TWO64
    ensures Held(s.(store := s.store + BatchWrites(items, s.counter), counter := Advance(s.counter, |items|)), k, v)
  {
    hide BatchWrites;
    hide HubOK;
    hide Unmarked;
    hide CleanItems;
    hide EventIdOf;
    OnlyNewIds(items, s.counter, k);
  }

  lemma MarkHolds(s: State, keys: seq<Bytes>, k: Bytes, v: Bytes)
    requires Held(s, k, v) && k !in keys
    ensures Held(s.(deleter := D.Marked(s.deleter, keys)), k, v)
  {
  }

  lemma PassHolds(cfg: Config, s: State, now: int, topics: seq<string>, k: Bytes, v: Bytes)
    requires cfg.env.Valid() && Inv(s) && Held(s, k, v) && 0 <= now < METADATA_HORIZON && !DeadAt(cfg.env, v, now)
    ensures Held(PassDone(s, PassVisits(cfg, s, now, topics), now), k, v)
  {
    hide VisitAll;
    hide HubOK;
    OnlyOutlivedExpire(cfg.env, now, Visits(s.inFlight, s.hub, [], s.sent),
        Route(cfg.env, topics, now, s.store), s.store, k);
    MarkHolds(s, PassVisits(cfg, s, now, topics).expired, k, v);
  }

  lemma DropHolds(s: State, keys: seq<Bytes>, k: Bytes, v: Bytes)
    requires Held(s, k, v) && k !in keys
    ensures Held(Dropped(s, keys), k, v)
  {
  }

  lemma FlushHolds(s: State, step: D.Step, proposed: seq<seq<Bytes>>, k: Bytes, v: Bytes)
    requires Held(s, k, v) && !step.Mark? && (proposed == s.proposed || proposed == s.proposed + [s.deleter.Batch()])
    ensures Held(s.(deleter := D.After(s.deleter, step), proposed := proposed), k, v)
  {
  }

  lemma FlushOkHolds(s: State, k: Bytes, v: Bytes)
    requires Held(s, k, v)
    ensures Held(Dropped(s, s.deleter.Batch()).(deleter := D.After(s.deleter, D.Succeed)), k, v)
  {
    DropHolds(s, s.deleter.Batch(), k, v);
    FlushHolds(Dropped(s, s.deleter.Batch()), D.Succeed, s.proposed, k, v);
  }

  lemma ApplyHolds(s: State, i: nat, k: Bytes, v: Bytes)
    requires Held(s, k, v) && i < |s.proposed|
    ensures Held(Dropped(s, s.proposed[i]).(proposed := s.proposed[..i] + s.proposed[i + 1..]), k, v)
  {
    DropHolds(s, s.proposed[i], k, v);
  }

  lemma RestartHolds(s: State, k: Bytes, v: Bytes)
    requires Held(s, k, v)
    ensures Held(State(s.store, Persisted(s.store), NO_HUB, map[], D.IDLE, s.proposed, [], [], s.clock), k, v)
  {
  }

  lemma SweepHolds(cfg: Config, s: State, now: int, k: Bytes, v: Bytes)
    requires Held(s, k, v) && !DeadAt(cfg.env, v, now)
    ensures Held(s.(deleter := D.Marked(s.deleter, Swept(cfg.env, now, s.store)), clock := now), k, v)
  {
    MarkHolds(s, Swept(cfg.env, now, s.store), k, v);
  }

  lemma AckHolds(s: State, id: string, tag: Bytes, k: Bytes, v: Bytes)
    requires Held(s, k, v) && tag != k
    ensures Held(s.(hub := Untagged(s.hub, id, tag), deleter := D.After(s.deleter, D.Mark(tag))), k, v)
  {
    MarkHolds(s, [tag], k, v);
  }

  lemma StepHolds(cfg: Config, s: State, step: Step, k: Bytes, v: Bytes)
    requires cfg.env.Valid() && Inv(s) && Held(s, k, v) && Spares(cfg, step, k, v)
    ensures Held(Next(cfg, s, step), k, v)
  {
    hide Inv;
    hide HubOK;
    hide PassVisits;
    hide DeadAt;
    hide Unmarked;
    hide D.Marked;
    hide D.After;
    hide AllTracked;
    hide Tracked;
    hide KeysFit;
    hide CleanItems;
    hide BatchWrites;
    hide Persisted;
    hide Dropped;
    hide Disconnected;
    hide Untagged;
    hide Joined;
    InvTracked(s);
    if Enabled(cfg, s, step) {
      match step
      case Publish(items) => PublishHolds(s, items, k, v);
      case Pass(now, topics) => PassHolds(cfg, s, now, topics, k, v);
      case Sweep(now) => SweepHolds(cfg, s, now, k, v);
      case Ack(id, tag) => AckHolds(s, id, tag, k, v);
      case FlushTake => FlushHolds(s, D.Take, s.proposed, k, v);
      case FlushFail => FlushHolds(s, D.Fail, Effect(cfg, s, step).proposed, k, v);
      case FlushOk => FlushOkHolds(s, k, v);
      case ApplyProposal(i) => ApplyHolds(s, i, k, v);
      case Restart => RestartHolds(s, k, v);
      case _ =>
    }
  }

  /** No lost message: in every run, a stored event on no path to deletion stays
      stored, byte for byte, unless a consumer acknowledges it or the code's TTL
      check finds it expired. */
  lemma {:induction false} UnackedUnexpiredStays(cfg: Config, s: State, steps: seq<Step>, k: Bytes, v: Bytes)
    requires cfg.env.Valid() && Inv(s) && Held(s, k, v)
    requires forall i :: 0 <= i < |steps| ==> Spares(cfg, steps[i], k, v)
    ensures Held(Run(cfg, s, steps), k, v)
  {
    hide Inv;
    hide Held;
    hide Spares;
    hide Next;
    if steps != [] {
      UnackedUnexpiredStays(cfg, s, steps[..|steps| - 1], k, v);
      StepHolds(cfg, Run(cfg, s, steps[..|steps| - 1]), steps[|steps| - 1], k, v);
    }
  }

  /** From publication on: every message of an accepted batch gets a key of its
      own and is kept, across restarts, until it is acknowledged or the code's TTL
      check finds it expired. */
  lemma PublishedStays(cfg: Config, s: State, items: seq<StoreItem>, i: nat, steps: seq<Step>)
    requires cfg.env.Valid() && Inv(s) && Enabled(cfg, s, Publish(items)) && i < |items|
    requires var k := ItemKey(items[i], s.counter + i + 1);
             forall j :: 0 <= j < |steps| ==> Spares(cfg, steps[j], k, items[i].msg)
    ensures var k, end := ItemKey(items[i], s.counter + i + 1), Run(cfg, s, [Publish(items)] + steps);
            k !in s.store && k in end.store && end.store[k] == items[i].msg
  {
    var k, step := ItemKey(items[i], s.counter + i + 1), Publish(items);
    StepKeepsInv(cfg, s, step);
    assert Held(Next(cfg, s, step), k, items[i].msg) && k !in s.store by { PublishedIsHeld(s, items, i); }
    RunFrom(cfg, s, step, steps);
    UnackedUnexpiredStays(cfg, Next(cfg, s, step), steps, k, items[i].msg);
  }

  lemma PublishedIsHeld(s: State, items: seq<StoreItem>, i: nat)
    requires Inv(s) && CleanItems(items) && s.counter + |items| < TWO64 && i < |items|
    ensures var k := ItemKey(items[i], s.counter + i + 1);
            && k !in s.store
            && Held(s.(store := s.store + BatchWrites(items, s.counter), counter := Advance(s.counter, |items|)),
                k, items[i].msg)
  {
    hide Inv;
    hide BatchWrites;
    hide ItemKey;
    hide EventIdOf;
    hide CleanItems;
    hide Unmarked;
    ItemIsWritten(items, s.counter, i);
    ItemKeyId(items[i], s.counter + i + 1);
    CounterAhead(s);
    UnassignedIsUnmarked(s, ItemKey(items[i], s.counter + i + 1));
  }

  lemma CounterAhead(s: State)
    requires Inv(s)
    ensures Dominates(Counted(s.store, s.counter)) && Persisted(s.store) <= s.counter
  {
    hide HubOK;
    hide QueuesTracked;
    hide D.Conserved;
    hide IdsWithin;
    hide Persisted;
  }

  /** A key whose ID has not been persisted is neither stored nor marked. */
  lemma UnassignedIsUnmarked(s: State, k: Bytes)
    requires Inv(s) && |k| == EVENT_KEY_LEN && EventIdOf(k) > Persisted(s.store)
    ensures k !in s.store && Unmarked(s.deleter, s.proposed, k)
  {
    hide HubOK;
    hide D.Conserved;
    hide EventIdOf;
    hide AllTracked;
    NotTracked(Persisted(s.store), s.deleter.pending, k);
    NotTracked(Persisted(s.store), s.deleter.Batch(), k);
    forall j | 0 <= j < |s.proposed| ensures k !in s.proposed[j] {
      NotTracked(Persisted(s.store), s.proposed[j], k);
    }
  }

  lemma NotTracked(c: int, keys: seq<Bytes>, k: Bytes)
    requires AllTracked(c, keys) && |k| == EVENT_KEY_LEN && EventIdOf(k) > c
    ensures k !in keys
  {
    hide EventIdOf;
  }

  lemma {:induction false} RunFrom(cfg: Config, s: State, step: Step, steps: seq<Step>)
    requires cfg.env.Valid() && Inv(s) && Inv(Next(cfg, s, step))
    ensures Run(cfg, s, [step] + steps) == Run(cfg, Next(cfg, s, step), steps)
  {
    hide Inv;
    hide Next;
    if steps == [] {
      assert [step] + [] == [step] && [step][..0] == [];
      assert Run(cfg, s, [step][..0]) == s;
    } else {
      RunFrom(cfg, s, step, steps[..|steps| - 1]);
      assert ([step] + steps)[..|steps|] == [step] + steps[..|steps| - 1];
    }
  }

  // ── No message is lost before its true deadline ─────────────────────────────

  /** The step neither acknowledges k nor comes after its true deadline. */
  predicate InTime(step: Step, k: Bytes, m: StoredMessage)
  {
    match step
    case Ack(_, tag) => tag != k
    case Pass(now, _) => Lives(m, now)
    case Sweep(now) => Lives(m, now)
    case _ => true
  }

  predicate AllInTime(steps: seq<Step>, k: Bytes, m: StoredMessage)
  {
    forall i :: 0 <= i < |steps| ==> InTime(steps[i], k, m)
  }

  lemma InTimeSpares(cfg: Config, step: Step, k: Bytes, v: Bytes, m: StoredMessage)
    requires cfg.env.codec.decode(v) == Some(m) && 0 <= m.enqueuedAtMs && TtlFits(m) && InTime(step, k, m)
    ensures Spares(cfg, step, k, v)
  {
  }

  /** A message whose TTL sum fits the clock is kept to its true deadline, or for
      good without a TTL, unless it is acknowledged. */
  lemma KeptToDeadline(cfg: Config, s: State, steps: seq<Step>, k: Bytes, v: Bytes, m: StoredMessage)
    requires cfg.env.Valid() && Inv(s) && Held(s, k, v) && cfg.env.codec.decode(v) == Some(m)
    requires 0 <= m.enqueuedAtMs && TtlFits(m) && AllInTime(steps, k, m)
    ensures Held(Run(cfg, s, steps), k, v)
  {
    hide Inv;
    hide Held;
    hide Spares;
    hide InTime;
    hide TtlFits;
    hide Run;
    forall i | 0 <= i < |steps| ensures Spares(cfg, steps[i], k, v) {
      InTimeSpares(cfg, steps[i], k, v, m);
    }
    UnackedUnexpiredStays(cfg, s, steps, k, v);
  }

  /** From publication on, in true time. */
  lemma PublishedKept(cfg: Config, s: State, items: seq<StoreItem>, i: nat, m: StoredMessage, steps: seq<Step>)
    requires cfg.env.Valid() && Inv(s) && Enabled(cfg, s, Publish(items)) && i < |items|
    requires cfg.env.codec.decode(items[i].msg) == Some(m) && 0 <= m.enqueuedAtMs && TtlFits(m)
    requires AllInTime(steps, ItemKey(items[i], s.counter + i + 1), m)
    ensures var k, end := ItemKey(items[i], s.counter + i + 1), Run(cfg, s, [Publish(items)] + steps);
            k !in s.store && k in end.store && end.store[k] == items[i].msg
  {
    hide Inv;
    hide Spares;
    hide InTime;
    hide TtlFits;
    hide Run;
    hide ItemKey;
    hide CleanItems;
    var k := ItemKey(items[i], s.counter + i + 1);
    forall j | 0 <= j < |steps| ensures Spares(cfg, steps[j], k, items[i].msg) {
      InTimeSpares(cfg, steps[j], k, items[i].msg, m);
    }
    PublishedStays(cfg, s, items, i, steps);
  }

  // ── A TTL that overflows loses the message ──────────────────────────────────

  const FLUSH := [FlushFail, FlushTake, FlushOk]

  lemma RunOne(cfg: Config, s: State, step: Step)
    requires cfg.env.Valid() && Inv(s)
    ensures Run(cfg, s, [step]) == Next(cfg, s, step)
  {
    hide Inv;
    hide Next;
    assert [step][..0] == [];
    assert Run(cfg, s, [step][..0]) == s;
  }

  lemma RunFlush(cfg: Config, s: State)
    requires cfg.env.Valid() && Inv(s)
    ensures var s1 := Run(cfg, s, [FlushFail]);
            var s2 := Run(cfg, s1, [FlushTake]);
            Run(cfg, s, FLUSH) == Run(cfg, s2, [FlushOk])
  {
    hide Inv;
    hide Next;
    hide Run;
    RunOne(cfg, s, FlushFail);
    var s1 := Run(cfg, s, [FlushFail]);
    RunOne(cfg, s1, FlushTake);
    RunFrom(cfg, s, FlushFail, [FlushTake, FlushOk]);
    RunFrom(cfg, s1, FlushTake, [FlushOk]);
    assert FLUSH == [FlushFail] + [FlushTake, FlushOk];
    assert [FlushTake, FlushOk] == [FlushTake] + [FlushOk];
  }

  /** What the backend accepts, in one batch. */
  predicate Flushable(cfg: Config, q: D.Queue)
  {
    cfg.raft ==> KeysFit(q.Batch() + q.pending)
  }

  /** Failing puts the batch back in front, or changes nothing. */
  lemma FailStep(cfg: Config, s: State)
    requires cfg.env.Valid() && HubOK(s.hub)
    ensures var t := Next(cfg, s, FlushFail);
            && t.deleter.flushing.None? && t.deleter.pending == s.deleter.Batch() + s.deleter.pending
            && t.store == s.store
  {
    hide HubOK;
    hide KeysFit;
    assert [] + s.deleter.pending == s.deleter.pending;
  }

  lemma TakeStep(cfg: Config, s: State)
    requires cfg.env.Valid() && HubOK(s.hub) && s.deleter.flushing.None? && s.deleter.pending != []
    ensures var t := Next(cfg, s, FlushTake);
            t.deleter.flushing == Some(s.deleter.pending) && t.store == s.store
                && t.deleter.deleted == s.deleter.deleted
  {
    hide HubOK;
  }

  lemma OkStep(cfg: Config, s: State)
    requires cfg.env.Valid() && HubOK(s.hub) && s.deleter.flushing.Some? && (cfg.raft ==> KeysFit(s.deleter.Batch()))
    ensures var t := Next(cfg, s, FlushOk);
            && t.store == s.store - (set k | k in s.deleter.Batch())
            && t.deleter.deleted == s.deleter.deleted + s.deleter.Batch()
  {
    hide HubOK;
    hide KeysFit;
  }

  /** A whole flush removes every key that is pending or in the batch under way. */
  lemma FlushRemoves(cfg: Config, s: State, k: Bytes)
    requires cfg.env.Valid() && Inv(s) && Flushable(cfg, s.deleter)
    requires k in s.deleter.pending || k in s.deleter.Batch()
    ensures k !in Run(cfg, s, FLUSH).store
  {
    hide Inv;
    hide HubOK;
    hide Next;
    hide Run;
    hide KeysFit;
    hide AllTracked;
    RunFlush(cfg, s);
    InvTracked(s);
    RunOne(cfg, s, FlushFail);
    FailStep(cfg, s);
    var s1 := Run(cfg, s, [FlushFail]);
    InvTracked(s1);
    RunOne(cfg, s1, FlushTake);
    TakeStep(cfg, s1);
    var s2 := Run(cfg, s1, [FlushTake]);
    InvTracked(s2);
    RunOne(cfg, s2, FlushOk);
    OkStep(cfg, s2);
  }

  lemma SweptAreEvents(cfg: Config, m: Storage.Store, now: int)
    ensures KeysFit(Swept(cfg.env, now, m))
  {
    var swept := Swept(cfg.env, now, m);
    forall i | 0 <= i < |swept| ensures |swept[i]| == EVENT_KEY_LEN {
      assert swept[i] in swept;
    }
  }

  lemma FitsTogether(a: seq<Bytes>, b: seq<Bytes>, c: seq<Bytes>)
    requires KeysFit(a + b) && KeysFit(c)
    ensures KeysFit(a + (b + c))
  {
    assert a + (b + c) == (a + b) + c;
  }

  lemma SweepMarks(cfg: Config, s: State, now: int, k: Bytes, v: Bytes)
    requires cfg.env.Valid() && Inv(s) && Held(s, k, v) && DeadAt(cfg.env, v, now) && Flushable(cfg, s.deleter)
    ensures var t := Run(cfg, s, [Sweep(now)]); k in t.deleter.pending && Flushable(cfg, t.deleter)
  {
    hide Inv;
    hide HubOK;
    hide Run;
    hide AllTracked;
    hide KeysFit;
    hide Unmarked;
    InvTracked(s);
    RunOne(cfg, s, Sweep(now));
    var swept, q := Swept(cfg.env, now, s.store), s.deleter;
    assert k in swept;
    SweptAreEvents(cfg, s.store, now);
    if cfg.raft { FitsTogether(q.Batch(), q.pending, swept); }
  }

  /** A stored message that the code's check finds expired is gone after one
      sweep and one flush. */
  lemma SweptAway(cfg: Config, s: State, now: int, k: Bytes, v: Bytes)
    requires cfg.env.Valid() && Inv(s) && Held(s, k, v) && DeadAt(cfg.env, v, now) && Flushable(cfg, s.deleter)
    ensures k !in Run(cfg, s, [Sweep(now)] + FLUSH).store
  {
    hide Inv;
    hide Next;
    hide Run;
    hide Held;
    hide Flushable;
    hide FLUSH;
    SweepMarks(cfg, s, now, k, v);
    RunOne(cfg, s, Sweep(now));
    RunFrom(cfg, s, Sweep(now), FLUSH);
    FlushRemoves(cfg, Run(cfg, s, [Sweep(now)]), k);
  }

  /** A stored message survives every run that stays within its true lifetime and
      does not acknowledge it, if and only if its TTL sum fits the clock. */
  lemma KeptToDeadlineIff(cfg: Config, s: State, k: Bytes, v: Bytes, m: StoredMessage)
    requires cfg.env.Valid() && Inv(s) && Held(s, k, v) && Flushable(cfg, s.deleter)
    requires cfg.env.codec.decode(v) == Some(m) && 0 <= m.enqueuedAtMs < TWO63 && m.ttlMs < TWO63
    ensures (forall steps | AllInTime(steps, k, m) :: k in Run(cfg, s, steps).store) <==> TtlFits(m)
  {
    hide Inv;
    hide Run;
    hide Flushable;
    if TtlFits(m) {
      forall steps | AllInTime(steps, k, m) ensures k in Run(cfg, s, steps).store {
        KeptToDeadline(cfg, s, steps, k, v, m);
      }
    } else {
      TtlHonouredIff(m);
      SweptAway(cfg, s, m.enqueuedAtMs, k, v);
      assert AllInTime([Sweep(m.enqueuedAtMs)] + FLUSH, k, m);
    }
  }

  // ── An acknowledged message is removed ──────────────────────────────────────

  lemma {:induction false} RunConcat(cfg: Config, s: State, a: seq<Step>, b: seq<Step>)
    requires cfg.env.Valid() && Inv(s)
    ensures Run(cfg, s, a + b) == Run(cfg, Run(cfg, s, a), b)
  {
    hide Inv;
    hide Next;
    if b == [] {
      assert a + b == a;
    } else {
      RunConcat(cfg, s, a, b[..|b| - 1]);
      assert (a + b)[..|a + b| - 1] == a + b[..|b| - 1];
    }
  }

  lemma StepKeepsMark(cfg: Config, s: State, step: Step, k: Bytes)
    requires cfg.env.Valid() && HubOK(s.hub) && !step.Restart? && k in s.deleter.marked
    ensures k in Next(cfg, s, step).deleter.marked
  {
    hide HubOK;
    hide PassVisits;
    hide KeysFit;
    hide CleanItems;
    hide BatchWrites;
    hide Tracked;
    hide Swept;
  }

  lemma {:induction false} MarkStays(cfg: Config, s: State, steps: seq<Step>, k: Bytes)
    requires cfg.env.Valid() && Inv(s) && NoRestart(steps) && k in s.deleter.marked
    ensures k in Run(cfg, s, steps).deleter.marked
  {
    hide Next;
    hide HubOK;
    hide QueuesTracked;
    if steps != [] {
      MarkStays(cfg, s, steps[..|steps| - 1], k);
      StepKeepsMark(cfg, Run(cfg, s, steps[..|steps| - 1]), steps[|steps| - 1], k);
    }
  }

  lemma MarkedWhere(q: D.Queue, k: Bytes)
    requires D.Conserved(q) && k in q.marked
    ensures k in q.deleted || k in q.pending || k in q.Batch()
  {
    assert k in q.deleted + q.Batch() + q.pending;
  }

  /** An acknowledged event is out of storage after the next flush that goes
      through, whatever happens in between short of a restart. */
  lemma AckedIsRemoved(cfg: Config, s: State, id: string, k: Bytes, steps: seq<Step>)
    requires cfg.env.Valid() && Inv(s) && |k| == EVENT_KEY_LEN && EventIdOf(k) <= Persisted(s.store)
    requires NoRestart(steps) && Flushable(cfg, Run(cfg, s, [Ack(id, k)] + steps).deleter)
    ensures k !in Run(cfg, s, [Ack(id, k)] + steps + FLUSH).store
  {
    var mid := Run(cfg, s, [Ack(id, k)] + steps);
    assert k in mid.deleter.marked by { AckMarks(cfg, s, id, k, steps); }
    RunConcat(cfg, s, [Ack(id, k)] + steps, FLUSH);
    assert D.Conserved(mid.deleter);
    MarkedWhere(mid.deleter, k);
    if k in mid.deleter.pending || k in mid.deleter.Batch() {
      FlushRemoves(cfg, mid, k);
    } else {
      assert k !in mid.store by { DeletedOut(mid, k); }
      StaysOut(cfg, mid, k);
    }
  }

  lemma AckMarks(cfg: Config, s: State, id: string, k: Bytes, steps: seq<Step>)
    requires cfg.env.Valid() && Inv(s) && |k| == EVENT_KEY_LEN && EventIdOf(k) <= Persisted(s.store) && NoRestart(steps)
    ensures k in Run(cfg, s, [Ack(id, k)] + steps).deleter.marked
  {
    hide Inv;
    hide HubOK;
    hide Run;
    hide AllTracked;
    hide EventIdOf;
    hide Persisted;
    hide Untagged;
    MetadataKeysDiffer();
    InvTracked(s);
    RunOne(cfg, s, Ack(id, k));
    RunConcat(cfg, s, [Ack(id, k)], steps);
    assert k in Run(cfg, s, [Ack(id, k)]).deleter.marked;
    MarkStays(cfg, Run(cfg, s, [Ack(id, k)]), steps, k);
  }

  lemma DeletedOut(s: State, k: Bytes)
    requires Inv(s) && k in s.deleter.deleted && |k| == EVENT_KEY_LEN
    ensures k !in s.store
  {
    hide HubOK;
    hide Dominates;
    hide AllTracked;
    hide D.Conserved;
  }

  /** A flush stores nothing. */
  lemma StaysOut(cfg: Config, s: State, k: Bytes)
    requires cfg.env.Valid() && Inv(s) && k !in s.store
    ensures k !in Run(cfg, s, FLUSH).store
  {
    hide Inv;
    hide HubOK;
    hide Next;
    hide Run;
    hide AllTracked;
    RunFlush(cfg, s);
    InvTracked(s);
    RunOne(cfg, s, FlushFail);
    FlushStores(cfg, s, FlushFail);
    var s1 := Run(cfg, s, [FlushFail]);
    InvTracked(s1);
    RunOne(cfg, s1, FlushTake);
    FlushStores(cfg, s1, FlushTake);
    var s2 := Run(cfg, s1, [FlushTake]);
    InvTracked(s2);
    RunOne(cfg, s2, FlushOk);
    FlushStores(cfg, s2, FlushOk);
  }

  lemma FlushStores(cfg: Config, s: State, step: Step)
    requires cfg.env.Valid() && HubOK(s.hub) && (step.FlushFail? || step.FlushTake? || step.FlushOk?)
    ensures Next(cfg, s, step).store.Keys <= s.store.Keys
  {
    hide HubOK;
    hide KeysFit;
  }

  // ── Redeliveries are spaced ─────────────────────────────────────────────────

  /** Every logged dispatch is covered, of an event whose ID has been assigned,
      and spaced from the others of its key. */
  ghost predicate SpacedOut(cfg: Config, s: State)
  {
    && AllCovered(cfg.env, s.store, s.inFlight, s.clock, s.sent)
    && Spaced(cfg.env, s.sent)
    && forall i :: 0 <= i < |s.sent| && |s.sent[i].key| == EVENT_KEY_LEN ==>
        EventIdOf(s.sent[i].key) <= Persisted(s.store)
  }

  function StepTime(step: Step, otherwise: int): int
  {
    match step
    case Pass(now, _) => now
    case Sweep(now) => now
    case _ => otherwise
  }

  /** The last time a pass or a sweep read the clock. */
  function LastTime(clock: int, steps: seq<Step>): int
  {
    if steps == [] then clock else StepTime(steps[|steps| - 1], LastTime(clock, steps[..|steps| - 1]))
  }

  /** The clock never runs backwards. */
  predicate ClockForward(clock: int, steps: seq<Step>)
  {
    steps == [] ||
    (ClockForward(clock, steps[..|steps| - 1]) && LastTime(clock, steps[..|steps| - 1]) <= LastTime(clock, steps))
  }

  lemma CoverLasts(env: Env, m: Storage.Store, m': Storage.Store, inFlight: map<Bytes, int>, inFlight': map<Bytes, int>,
                   clock: int, clock': int, sent: seq<Dispatch>)
    requires AllCovered(env, m, inFlight, clock, sent) && clock <= clock'
    requires forall i :: 0 <= i < |sent| && |sent[i].key| == EVENT_KEY_LEN && sent[i].key in m' ==>
               && sent[i].key in m
               && (sent[i].key in inFlight ==>
                     sent[i].key in inFlight' && inFlight'[sent[i].key] == inFlight[sent[i].key])
    ensures AllCovered(env, m', inFlight', clock', sent)
  {
    forall i | 0 <= i < |sent| ensures Covered(env, m', inFlight', clock', sent[i]) {
      assert Covered(env, m, inFlight, clock, sent[i]);
    }
  }

  lemma PublishSpaces(cfg: Config, s: State, items: seq<StoreItem>)
    requires Inv(s) && SpacedOut(cfg, s) && CleanItems(items) && s.counter + |items| < TWO64
    ensures SpacedOut(cfg, s.(store := s.store + BatchWrites(items, s.counter), counter := Advance(s.counter, |items|)))
  {
    hide BatchWrites;
    hide Spaced;
    hide AllCovered;
    hide EventIdOf;
    hide CleanItems;
    hide Persisted;
    hide Inv;
    CounterAhead(s);
    assert Dominates(Counted(s.store, s.counter));
    hide Dominates;
    CommitDominates(Counted(s.store, s.counter), Commit.Store(items));
    forall i | 0 <= i < |s.sent| && |s.sent[i].key| == EVENT_KEY_LEN
      ensures s.sent[i].key !in BatchWrites(items, s.counter)
    {
      OnlyNewIds(items, s.counter, s.sent[i].key);
    }
    CoverLasts(cfg.env, s.store, s.store + BatchWrites(items, s.counter),
        s.inFlight, s.inFlight, s.clock, s.clock, s.sent);
  }

  lemma PassSpacesOut(cfg: Config, s: State, now: int, topics: seq<string>)
    requires cfg.env.Valid() && Inv(s) && SpacedOut(cfg, s) && 0 <= now < METADATA_HORIZON && s.clock <= now
    ensures SpacedOut(cfg, PassDone(s, PassVisits(cfg, s, now, topics), now))
  {
    hide HubOK;
    hide VisitAll;
    hide AllCovered;
    hide Spaced;
    hide EventIdOf;
    hide D.Conserved;
    hide QueuesTracked;
    var start, stops := Visits(s.inFlight, s.hub, [], s.sent), Route(cfg.env, topics, now, s.store);
    CoverLasts(cfg.env, s.store, s.store, s.inFlight, s.inFlight, s.clock, now, s.sent);
    PassSpaces(cfg.env, now, start, stops, s.store);
    SentGrows(cfg.env, now, start, stops, s.store);
  }

  lemma DropSpaces(cfg: Config, s: State, keys: seq<Bytes>)
    requires SpacedOut(cfg, s) && AllTracked(Persisted(s.store), keys)
    ensures SpacedOut(cfg, Dropped(s, keys))
  {
    hide Spaced;
    hide AllCovered;
    hide EventIdOf;
    hide Uint64;
    SameCounter(s.store, Dropped(s, keys).store);
    CoverLasts(cfg.env, s.store, Dropped(s, keys).store, s.inFlight, s.inFlight, s.clock, s.clock, s.sent);
  }

  lemma NotifySpaces(cfg: Config, s: State, i: nat)
    requires Inv(s) && SpacedOut(cfg, s) && i < |s.notices|
    ensures SpacedOut(cfg, s.(inFlight := s.inFlight - {s.notices[i]}, notices := s.notices[..i] + s.notices[i + 1..]))
  {
    hide Spaced;
    hide AllCovered;
    hide EventIdOf;
    hide HubOK;
    CoverLasts(cfg.env, s.store, s.store, s.inFlight, s.inFlight - {s.notices[i]}, s.clock, s.clock, s.sent);
  }

  lemma StepSpaces(cfg: Config, s: State, step: Step)
    requires cfg.env.Valid() && Inv(s) && SpacedOut(cfg, s) && s.clock <= StepTime(step, s.clock)
    ensures SpacedOut(cfg, Next(cfg, s, step))
  {
    hide Inv;
    hide HubOK;
    hide PassVisits;
    hide Spaced;
    hide AllCovered;
    hide EventIdOf;
    hide BatchWrites;
    hide CleanItems;
    hide AllTracked;
    hide Tracked;
    hide KeysFit;
    hide Persisted;
    hide Joined;
    hide Disconnected;
    hide Taken;
    hide Untagged;
    hide Dropped;
    hide Swept;
    hide D.After;
    hide D.Marked;
    InvTracked(s);
    if Enabled(cfg, s, step) {
      match step
      case Publish(items) => PublishSpaces(cfg, s, items);
      case Pass(now, topics) => PassSpacesOut(cfg, s, now, topics);
      case Sweep(now) => CoverLasts(cfg.env, s.store, s.store, s.inFlight, s.inFlight, s.clock, now, s.sent);
      case FlushOk =>
        DropSpaces(cfg, s, s.deleter.Batch());
      case ApplyProposal(i) =>
        DropSpaces(cfg, s, s.proposed[i]);
      case Notify(i) => NotifySpaces(cfg, s, i);
      case Restart => NothingSentIsSpaced(cfg.env, s.store, s.clock);
      case _ =>
    }
  }

  lemma NothingSentIsSpaced(env: Env, m: Storage.Store, clock: int)
    ensures AllCovered(env, m, map[], clock, []) && Spaced(env, [])
  {
  }

  lemma StepClock(cfg: Config, s: State, step: Step, t: int)
    requires cfg.env.Valid() && HubOK(s.hub) && s.clock <= t <= StepTime(step, t)
    ensures Next(cfg, s, step).clock <= StepTime(step, t) && s.clock <= StepTime(step, s.clock)
  {
    hide HubOK;
    hide PassVisits;
  }

  /** Redelivery spacing: in every run on a clock that never runs backwards, and
      between restarts, two dispatches of the same event are at least the
      in-flight timeout apart. */
  lemma {:induction false} RedeliveriesSpaced(cfg: Config, s: State, steps: seq<Step>)
    requires cfg.env.Valid() && Inv(s) && SpacedOut(cfg, s) && ClockForward(s.clock, steps)
    ensures SpacedOut(cfg, Run(cfg, s, steps)) && Run(cfg, s, steps).clock <= LastTime(s.clock, steps)
  {
    hide SpacedOut;
    hide Next;
    hide HubOK;
    hide QueuesTracked;
    if steps != [] {
      var init, last := steps[..|steps| - 1], steps[|steps| - 1];
      RedeliveriesSpaced(cfg, s, init);
      StepClock(cfg, Run(cfg, s, init), last, LastTime(s.clock, init));
      StepSpaces(cfg, Run(cfg, s, init), last);
    }
  }

  /** A process starts with nothing logged, so its whole log is spaced. */
  lemma SpacedFromStart(cfg: Config, s: State, steps: seq<Step>)
    requires cfg.env.Valid() && Inv(s) && s.sent == [] && ClockForward(s.clock, steps)
    ensures Spaced(cfg.env, Run(cfg, s, steps).sent)
  {
    hide Inv;
    hide Run;
    assert SpacedOut(cfg, s);
    RedeliveriesSpaced(cfg, s, steps);
  }

  // ── One malformed key blocks replicated deletion ────────────────────────────

  predicate Malformed(keys: seq<Bytes>)
  {
    exists i :: 0 <= i < |keys| && |keys[i]| != EVENT_KEY_LEN
  }

  /** A key that is not 24 bytes long is in the batch, or will be in the next one. */
  predicate Blocked(q: D.Queue)
  {
    Malformed(q.Batch()) || (q.flushing.None? && Malformed(q.pending))
  }

  lemma BlockedStep(cfg: Config, s: State, step: Step)
    requires cfg.env.Valid() && HubOK(s.hub) && cfg.raft && Blocked(s.deleter) && !step.Restart?
    ensures var t := Next(cfg, s, step);
            && Blocked(t.deleter) && t.deleter.deleted == s.deleter.deleted
            && (forall i :: 0 <= i < |t.proposed| ==> t.proposed[i] in s.proposed)
  {
    hide HubOK;
    hide PassVisits;
    hide Malformed;
    hide KeysFit;
    hide CleanItems;
    hide BatchWrites;
    hide Tracked;
    hide Persisted;
    hide Swept;
    hide Joined;
    hide Disconnected;
    hide Taken;
    hide Untagged;
    FitsOrMalformed(s.deleter.Batch());
    NoneMalformed();
    match step
    case FlushFail => MalformedIn(s.deleter.Batch(), s.deleter.pending);
    case Ack(_, tag) => MalformedIn(s.deleter.pending, [tag]);
    case Sweep(now) => MalformedIn(s.deleter.pending, Swept(cfg.env, now, s.store));
    case Pass(now, topics) =>
      if Enabled(cfg, s, step) { MalformedIn(s.deleter.pending, PassVisits(cfg, s, now, topics).expired); }
    case _ =>
  }

  lemma NoneMalformed()
    ensures !Malformed([])
  {
  }

  lemma MalformedIn(a: seq<Bytes>, b: seq<Bytes>)
    ensures Malformed(a) || Malformed(b) <==> Malformed(a + b)
  {
    if Malformed(a) {
      var i :| 0 <= i < |a| && |a[i]| != EVENT_KEY_LEN;
      assert (a + b)[i] == a[i];
    }
    if Malformed(b) {
      var i :| 0 <= i < |b| && |b[i]| != EVENT_KEY_LEN;
      assert (a + b)[|a| + i] == b[i];
    }
  }

  /** In Raft mode, once a malformed key is pending and no batch is being flushed,
      no flush succeeds again until a restart: over every run nothing more is
      recorded as deleted and no new delete command is proposed. */
  lemma {:induction false} BlockedForGood(cfg: Config, s: State, steps: seq<Step>)
    requires cfg.env.Valid() && Inv(s) && cfg.raft && Blocked(s.deleter)
    requires forall i :: 0 <= i < |steps| ==> !steps[i].Restart?
    ensures var t := Run(cfg, s, steps);
            && Blocked(t.deleter) && t.deleter.deleted == s.deleter.deleted
            && forall i :: 0 <= i < |t.proposed| ==> t.proposed[i] in s.proposed
  {
    hide Blocked;
    hide Next;
    hide HubOK;
    hide QueuesTracked;
    if steps != [] {
      BlockedForGood(cfg, s, steps[..|steps| - 1]);
      BlockedStep(cfg, Run(cfg, s, steps[..|steps| - 1]), steps[|steps| - 1]);
    }
  }

  predicate NoRestart(steps: seq<Step>)
  {
    forall i :: 0 <= i < |steps| ==> !steps[i].Restart?
  }

  lemma FitsOrMalformed(keys: seq<Bytes>)
    ensures KeysFit(keys) <==> !Malformed(keys)
  {
  }

  /** Without a malformed key the batch, or the next one, can be deleted. */
  lemma RetryRun(cfg: Config, s: State) returns (steps: seq<Step>)
    requires cfg.env.Valid() && Inv(s) && !Blocked(s.deleter)
    requires s.deleter.Batch() != [] || (s.deleter.flushing.None? && s.deleter.pending != [])
    ensures NoRestart(steps) && |Run(cfg, s, steps).deleter.deleted| > |s.deleter.deleted|
  {
    hide Inv;
    hide HubOK;
    hide Next;
    hide Run;
    hide KeysFit;
    hide AllTracked;
    hide Malformed;
    InvTracked(s);
    FitsOrMalformed(s.deleter.Batch());
    FitsOrMalformed(s.deleter.pending);
    if s.deleter.flushing.Some? {
      steps := [FlushOk];
      RunOne(cfg, s, FlushOk);
      OkStep(cfg, s);
    } else {
      steps := [FlushTake] + [FlushOk];
      RunOne(cfg, s, FlushTake);
      TakeStep(cfg, s);
      var t := Run(cfg, s, [FlushTake]);
      InvTracked(t);
      RunFrom(cfg, s, FlushTake, [FlushOk]);
      RunOne(cfg, t, FlushOk);
      OkStep(cfg, t);
    }
  }

  /** In Raft mode, with something to delete, some run without a restart records
      more as deleted if and only if no malformed key is in the batch under way,
      or in the next one when there is none. */
  lemma RetrySucceedsIff(cfg: Config, s: State)
    requires cfg.env.Valid() && Inv(s) && cfg.raft
    requires s.deleter.Batch() != [] || (s.deleter.flushing.None? && s.deleter.pending != [])
    ensures (exists steps :: NoRestart(steps) && |Run(cfg, s, steps).deleter.deleted| > |s.deleter.deleted|)
            <==> !Blocked(s.deleter)
  {
    hide Inv;
    hide Run;
    hide Blocked;
    if Blocked(s.deleter) {
      forall steps | NoRestart(steps) ensures |Run(cfg, s, steps).deleter.deleted| <= |s.deleter.deleted| {
        BlockedForGood(cfg, s, steps);
      }
    } else {
      var steps := RetryRun(cfg, s);
    }
  }

  /** One acknowledgement with an empty tag is enough to block a new node. */
  lemma BlockedFromStart(cfg: Config)
    requires cfg.env.Valid() && cfg.raft
    ensures HubOK(INITIAL.hub) && Blocked(Next(cfg, INITIAL, Ack("c", [])).deleter)
  {
    FreshInv();
    MetadataKeysDiffer();
    var t := Next(cfg, INITIAL, Ack("c", []));
    assert t.deleter.pending == [[]];
    assert |t.deleter.pending[0]| != EVENT_KEY_LEN;
  }
}
