/** The whole delivery path as one state machine: publishing, dispatch passes,
    acknowledgements, expiry, batched deletion and restarts, in any order. */
module Broker {
  import opened Bytes
  import opened Keys
  import opened Storage
  import opened EventCommands
  import opened EventReplica
  import opened EventIds
  import opened Hub
  import opened HubDelivery
  import opened Dispatcher
  import opened DispatchPass
  import D = Deleter

  datatype Config = Config(env: Env, raft: bool)

  /** Storage and the ID counter; the hub; the dispatcher's in-flight entries;
      the deleter; delete commands proposed but not yet applied; deleted keys
      whose in-flight entry is still to be cleared; and the log of dispatches
      since the process started. */
  datatype State = State(store: Storage.Store, counter: u64, hub: HubState, inFlight: map<Bytes, int>,
                         deleter: D.Queue, proposed: seq<seq<Bytes>>, notices: seq<Bytes>,
                         sent: seq<Dispatch>, clock: int)

  datatype Step =
    | Publish(items: seq<StoreItem>)
    | Refused(n: nat)                    // a batch refused after it had drawn n IDs
    | Pass(now: int, topics: seq<string>)
    | Sweep(now: int)
    | Join(consumer: Consumer)
    | Leave(id: string)
    | Receive(id: string)                // the consumer's stream takes one message off its queue
    | Ack(id: string, tag: Bytes)
    | Nack(id: string, tag: Bytes)
    | FlushTake
    | FlushOk
    | FlushFail                          // in Raft mode the proposal may still be applied later
    | ApplyProposal(i: nat)
    | Notify(i: nat)
    | Restart

  /** A node with empty storage that has just started. */
  const INITIAL := State(map[], 0, NO_HUB, map[], D.IDLE, [], [], [], 0)

  const NO_HUB := HubState(EMPTY_REGISTRY, map[], map[], map[])

  // ── Steps ───────────────────────────────────────────────────────────────────

  /** A key that may be on its way to deletion when the persisted counter is c:
      never the counter key, and if it is shaped like an event key, one whose ID
      has been persisted. An acknowledgement may carry any such tag, including one
      that is not an event key at all. */
  predicate Tracked(c: int, k: Bytes)
  {
    k != LAST_ID_KEY && (|k| == EVENT_KEY_LEN ==> EventIdOf(k) <= c)
  }

  predicate Enabled(cfg: Config, s: State, step: Step)
  {
    match step
    case Publish(items) => CleanItems(items) && s.counter + |items| < TWO64
    case Refused(n) => s.counter + n < TWO64
    case Pass(now, _) => 0 <= now < METADATA_HORIZON
    case Join(c) => c.id !in s.hub.registry.byID
    case Ack(_, tag) => Tracked(Persisted(s.store), tag)
    case FlushOk => s.deleter.flushing.Some? && (cfg.raft ==> KeysFit(s.deleter.Batch()))
    case FlushFail => s.deleter.flushing.Some?
    case ApplyProposal(i) => i < |s.proposed|
    case Notify(i) => i < |s.notices|
    case _ => true
  }

  function Joined(h: HubState, c: Consumer): HubState
  {
    h.(registry := Registered(h.registry, c), queues := h.queues[c.id := []])
  }

  function Disconnected(h: HubState, id: string): HubState
  {
    if id !in h.registry.byID then h
    else h.(registry := Unregistered(h.registry, id), queues := h.queues - {id}, tags := h.tags - {id})
  }

  function Taken(h: HubState, id: string): HubState
  {
    if id in h.queues && h.queues[id] != [] then h.(queues := h.queues[id := h.queues[id][1..]]) else h
  }

  /** Keys gone from storage, their in-flight entries due for removal. */
  function Dropped(s: State, keys: seq<Bytes>): State
  {
    s.(store := s.store - (set k | k in keys), notices := s.notices + keys)
  }

  ghost function PassVisits(cfg: Config, s: State, now: int, topics: seq<string>): Visits
    requires cfg.env.Valid() && HubOK(s.hub) && 0 <= now < METADATA_HORIZON
  {
    VisitAll(cfg.env, now, Visits(s.inFlight, s.hub, [], s.sent), Route(cfg.env, topics, now, s.store), s.store)
  }

  ghost function PassDone(s: State, v: Visits, now: int): State
  {
    s.(inFlight := v.inFlight, hub := v.hub, deleter := D.Marked(s.deleter, v.expired), sent := v.sent, clock := now)
  }

  ghost function Effect(cfg: Config, s: State, step: Step): State
    requires cfg.env.Valid() && HubOK(s.hub) && Enabled(cfg, s, step)
  {
    match step
    case Publish(items) =>
      s.(store := s.store + BatchWrites(items, s.counter), counter := Advance(s.counter, |items|))
    case Refused(n) => s.(counter := Advance(s.counter, n))
    case Pass(now, topics) => PassDone(s, PassVisits(cfg, s, now, topics), now)
    case Sweep(now) => s.(deleter := D.Marked(s.deleter, Swept(cfg.env, now, s.store)), clock := now)
    case Join(c) => s.(hub := Joined(s.hub, c))
    case Leave(id) => s.(hub := Disconnected(s.hub, id))
    case Receive(id) => s.(hub := Taken(s.hub, id))
    case Ack(id, tag) => s.(hub := Untagged(s.hub, id, tag), deleter := D.After(s.deleter, D.Mark(tag)))
    case Nack(id, tag) => s.(hub := Untagged(s.hub, id, tag))
    case FlushTake => s.(deleter := D.After(s.deleter, D.Take))
    case FlushOk => Dropped(s, s.deleter.Batch()).(deleter := D.After(s.deleter, D.Succeed))
    case FlushFail =>
      s.(deleter := D.After(s.deleter, D.Fail),
         proposed := if cfg.raft && KeysFit(s.deleter.Batch()) then s.proposed + [s.deleter.Batch()] else s.proposed)
    case ApplyProposal(i) => Dropped(s, s.proposed[i]).(proposed := s.proposed[..i] + s.proposed[i + 1..])
    case Notify(i) => s.(inFlight := s.inFlight - {s.notices[i]}, notices := s.notices[..i] + s.notices[i + 1..])
    case Restart =>
      State(s.store, Persisted(s.store), NO_HUB, map[], D.IDLE, s.proposed, [], [], s.clock)
  }

  /** A step that is not enabled does not happen. */
  ghost function Next(cfg: Config, s: State, step: Step): State
    requires cfg.env.Valid() && HubOK(s.hub)
  {
    if Enabled(cfg, s, step) then Effect(cfg, s, step) else s
  }

  // ── Invariants ──────────────────────────────────────────────────────────────

  predicate AllTracked(c: int, keys: seq<Bytes>)
  {
    forall i :: 0 <= i < |keys| ==> Tracked(c, keys[i])
  }

  predicate ProposalsTracked(c: int, proposed: seq<seq<Bytes>>)
  {
    forall i :: 0 <= i < |proposed| ==> AllTracked(c, proposed[i])
  }

  /** Event keys among these are not in storage. */
  predicate Gone(m: Storage.Store, keys: seq<Bytes>)
  {
    forall i :: 0 <= i < |keys| && |keys[i]| == EVENT_KEY_LEN ==> keys[i] !in m
  }

  predicate DeleterTracked(c: int, q: D.Queue)
  {
    AllTracked(c, q.pending) && AllTracked(c, q.Batch())
  }

  /** What counts as deleted is out of storage and stays accounted for. */
  predicate DeletedGone(m: Storage.Store, deleted: seq<Bytes>)
  {
    AllTracked(Persisted(m), deleted) && Gone(m, deleted)
  }

  ghost predicate QueuesTracked(s: State)
  {
    DeleterTracked(Persisted(s.store), s.deleter) && ProposalsTracked(Persisted(s.store), s.proposed)
    && AllTracked(Persisted(s.store), s.notices) && Gone(s.store, s.notices)
    && DeletedGone(s.store, s.deleter.deleted)
  }

  ghost predicate Inv(s: State)
  {
    HubOK(s.hub) && Dominates(Counted(s.store, s.counter)) && QueuesTracked(s) && D.Conserved(s.deleter)
  }

  lemma FreshInv()
    ensures Inv(INITIAL)
  {
    EmptyAgrees();
    hide Agrees;
  }

  // ── Every step keeps the invariant ──────────────────────────────────────────

  lemma TrackedGrows(c: int, d: int, keys: seq<Bytes>)
    requires c <= d && AllTracked(c, keys)
    ensures AllTracked(d, keys)
  {
  }

  /** Stored events are new, so no key that is gone comes back. */
  lemma PublishKeepsGone(m: Storage.Store, c: u64, items: seq<StoreItem>, keys: seq<Bytes>)
    requires Dominates(Counted(m, c)) && CleanItems(items) && c + |items| < TWO64
    requires AllTracked(Persisted(m), keys) && Gone(m, keys)
    ensures Gone(m + BatchWrites(items, c), keys)
  {
    hide BatchWrites;
    hide EventIdOf;
    BatchWritesEvents(items, c);
  }

  lemma PublishKeepsInv(s: State, items: seq<StoreItem>)
    requires Inv(s) && CleanItems(items) && s.counter + |items| < TWO64
    ensures Inv(s.(store := s.store + BatchWrites(items, s.counter), counter := Advance(s.counter, |items|)))
  {
    hide HubOK;
    hide D.Conserved;
    hide Dominates;
    hide BatchWrites;
    hide AllTracked;
    hide Gone;
    hide CleanItems;
    hide Persisted;
    var t := Counted(s.store + BatchWrites(items, s.counter), Advance(s.counter, |items|));
    CommitDominates(Counted(s.store, s.counter), Commit.Store(items));
    var p, d := Persisted(s.store), Persisted(t.store);
    PublishKeepsGone(s.store, s.counter, items, s.notices);
    PublishKeepsGone(s.store, s.counter, items, s.deleter.deleted);
    TrackedGrows(p, d, s.deleter.deleted);
    forall i | 0 <= i < |s.proposed| ensures AllTracked(d, s.proposed[i]) {
      TrackedGrows(p, d, s.proposed[i]);
    }
    TrackedGrows(p, d, s.notices);
    TrackedGrows(p, d, s.deleter.pending);
    TrackedGrows(p, d, s.deleter.Batch());
  }

  lemma RefusedKeepsInv(s: State, n: nat)
    requires Inv(s) && s.counter + n < TWO64
    ensures Inv(s.(counter := Advance(s.counter, n)))
  {
    hide HubOK;
    hide D.Conserved;
    hide Persisted;
    hide IdsWithin;
    hide AllTracked;
    hide Gone;
  }

  /** Keys read from storage by a pass or a sweep may be marked. */
  lemma StoredTracked(m: Storage.Store, c: u64, keys: seq<Bytes>)
    requires IdsWithin(m, c)
    requires forall i :: 0 <= i < |keys| ==> keys[i] in m && keys[i] != LAST_ID_KEY
    ensures AllTracked(c, keys)
  {
  }

  lemma MarkKeepsInv(s: State, keys: seq<Bytes>)
    requires Inv(s) && AllTracked(Persisted(s.store), keys)
    ensures Inv(s.(deleter := D.Marked(s.deleter, keys)))
  {
    hide HubOK;
    hide Dominates;
    D.MarkConserves(s.deleter, keys);
    hide D.Conserved;
    assert AllTracked(Persisted(s.store), s.deleter.pending + keys) by { hide Tracked; }
    hide AllTracked;
    hide Gone;
  }

  lemma PassKeepsInv(cfg: Config, s: State, now: int, topics: seq<string>)
    requires cfg.env.Valid() && Inv(s) && 0 <= now < METADATA_HORIZON
    ensures Inv(PassDone(s, PassVisits(cfg, s, now, topics), now))
  {
    hide HubOK;
    hide VisitAll;
    hide QueuesTracked;
    hide D.Conserved;
    hide IdsWithin;
    var v, stops := PassVisits(cfg, s, now, topics), Route(cfg.env, topics, now, s.store);
    CounterNeverScanned(cfg.env, topics, now, s.store);
    ExpiredWereScanned(cfg.env, now, Visits(s.inFlight, s.hub, [], s.sent), stops, s.store, LAST_ID_KEY);
    forall i | 0 <= i < |v.expired| ensures v.expired[i] in s.store && v.expired[i] != LAST_ID_KEY {
      assert v.expired[i] in v.expired;
      OnlyOutlivedExpire(cfg.env, now, Visits(s.inFlight, s.hub, [], s.sent), stops, s.store, v.expired[i]);
    }
    StoredTracked(s.store, Persisted(s.store), v.expired);
    hide Dominates;
    hide AllTracked;
    MarkKeepsInv(s, v.expired);
    FrameInv(s.(deleter := D.Marked(s.deleter, v.expired)), PassDone(s, v, now));
  }

  /** The invariant looks at nothing but these parts of the state. */
  lemma FrameInv(s: State, t: State)
    requires Inv(s) && HubOK(t.hub)
    requires t == s.(hub := t.hub, inFlight := t.inFlight, sent := t.sent, clock := t.clock)
    ensures Inv(t)
  {
  }

  lemma SweepKeepsInv(cfg: Config, s: State, now: int)
    requires Inv(s)
    ensures Inv(s.(deleter := D.Marked(s.deleter, Swept(cfg.env, now, s.store)), clock := now))
  {
    hide HubOK;
    hide IdsWithin;
    hide QueuesTracked;
    hide D.Conserved;
    var keys := Swept(cfg.env, now, s.store);
    MetadataKeysDiffer();
    forall i | 0 <= i < |keys| ensures keys[i] in s.store && keys[i] != LAST_ID_KEY {
      assert keys[i] in keys;
    }
    hide Swept;
    StoredTracked(s.store, Persisted(s.store), keys);
    hide AllTracked;
    MarkKeepsInv(s, keys);
    FrameInv(s.(deleter := D.Marked(s.deleter, keys)), s.(deleter := D.Marked(s.deleter, keys), clock := now));
  }

  lemma DropKeepsStore(m: Storage.Store, c: u64, notices: seq<Bytes>, keys: seq<Bytes>)
    requires Dominates(Counted(m, c)) && Gone(m, notices)
    requires AllTracked(Persisted(m), keys) && AllTracked(Persisted(m), notices)
    ensures var less := m - (set k | k in keys);
            && Dominates(Counted(less, c)) && Persisted(less) == Persisted(m)
            && AllTracked(Persisted(m), notices + keys) && Gone(less, notices + keys)
  {
    hide Uint64;
    hide EventIdOf;
    assert LAST_ID_KEY !in keys;
    assert forall i :: 0 <= i < |keys| ==> keys[i] in keys;
  }

  lemma DropKeepsGone(m: Storage.Store, dropped: seq<Bytes>, keys: seq<Bytes>)
    requires AllTracked(Persisted(m), dropped) && DeletedGone(m, keys)
    ensures DeletedGone(m - (set k | k in dropped), keys)
  {
    hide EventIdOf;
    hide Uint64;
    assert LAST_ID_KEY !in dropped;
    SameCounter(m, m - (set k | k in dropped));
  }

  lemma DropKeepsInv(s: State, keys: seq<Bytes>)
    requires Inv(s) && AllTracked(Persisted(s.store), keys)
    ensures Inv(Dropped(s, keys))
  {
    hide HubOK;
    hide D.Conserved;
    DropKeepsStore(s.store, s.counter, s.notices, keys);
    DropKeepsGone(s.store, keys, s.deleter.deleted);
    hide DeletedGone;
    hide Dominates;
    hide Persisted;
    hide AllTracked;
    hide Gone;
  }

  lemma DeleterStepTracked(c: int, q: D.Queue, step: D.Step)
    requires DeleterTracked(c, q) && !step.Mark?
    ensures DeleterTracked(c, D.After(q, step))
  {
    hide Tracked;
  }

  lemma DeleterStepGone(m: Storage.Store, q: D.Queue, step: D.Step)
    requires DeleterTracked(Persisted(m), q) && DeletedGone(m, q.deleted) && !step.Mark?
    requires step.Succeed? ==> Gone(m, q.Batch())
    ensures DeletedGone(m, D.After(q, step).deleted)
  {
    hide Tracked;
    hide Persisted;
  }

  lemma DeleterStepKeepsInv(s: State, step: D.Step)
    requires Inv(s) && !step.Mark? && (step.Succeed? ==> Gone(s.store, s.deleter.Batch()))
    ensures Inv(s.(deleter := D.After(s.deleter, step)))
  {
    hide HubOK;
    hide Dominates;
    DeleterStepGone(s.store, s.deleter, step);
    hide DeletedGone;
    DeleterStepTracked(Persisted(s.store), s.deleter, step);
    D.StepConserves(s.deleter, step);
    hide D.After;
    hide DeleterTracked;
    hide AllTracked;
  }

  lemma ProposalsKeepInv(s: State, proposed: seq<seq<Bytes>>)
    requires Inv(s) && forall i :: 0 <= i < |proposed| ==> proposed[i] in s.proposed || proposed[i] == s.deleter.Batch()
    ensures Inv(s.(proposed := proposed))
  {
    hide HubOK;
    hide Dominates;
    hide D.Conserved;
    hide AllTracked;
  }

  lemma FlushOkKeepsInv(s: State)
    requires Inv(s)
    ensures Inv(Dropped(s, s.deleter.Batch()).(deleter := D.After(s.deleter, D.Succeed)))
  {
    InvTracked(s);
    hide Inv;
    hide AllTracked;
    hide D.After;
    DropKeepsInv(s, s.deleter.Batch());
    assert Gone(Dropped(s, s.deleter.Batch()).store, s.deleter.Batch());
    DeleterStepKeepsInv(Dropped(s, s.deleter.Batch()), D.Succeed);
  }

  lemma FlushFailKeepsInv(s: State, proposed: seq<seq<Bytes>>)
    requires Inv(s) && (proposed == s.proposed || proposed == s.proposed + [s.deleter.Batch()])
    ensures Inv(s.(deleter := D.After(s.deleter, D.Fail), proposed := proposed))
  {
    hide Inv;
    hide D.After;
    ProposalsKeepInv(s, proposed);
    DeleterStepKeepsInv(s.(proposed := proposed), D.Fail);
  }

  lemma ApplyKeepsInv(s: State, i: nat)
    requires Inv(s) && i < |s.proposed|
    ensures Inv(Dropped(s, s.proposed[i]).(proposed := s.proposed[..i] + s.proposed[i + 1..]))
  {
    InvTracked(s);
    hide Inv;
    hide AllTracked;
    DropKeepsInv(s, s.proposed[i]);
    ProposalsKeepInv(Dropped(s, s.proposed[i]), s.proposed[..i] + s.proposed[i + 1..]);
  }

  lemma InvTracked(s: State)
    requires Inv(s)
    ensures HubOK(s.hub) && AllTracked(Persisted(s.store), s.deleter.Batch())
    ensures forall i :: 0 <= i < |s.proposed| ==> AllTracked(Persisted(s.store), s.proposed[i])
  {
    hide HubOK;
    hide AllTracked;
  }

  lemma NoticeKeepsInv(s: State, i: nat)
    requires Inv(s) && i < |s.notices|
    ensures Inv(s.(inFlight := s.inFlight - {s.notices[i]}, notices := s.notices[..i] + s.notices[i + 1..]))
  {
    hide HubOK;
    hide Dominates;
    hide Tracked;
    hide D.Conserved;
  }

  lemma JoinKeepsHub(h: HubState, c: Consumer)
    requires HubOK(h) && c.id !in h.registry.byID
    ensures HubOK(Joined(h, c))
  {
    hide Agrees;
    RegisterAgrees(h.registry, c);
  }

  lemma LeaveKeepsHub(h: HubState, id: string)
    requires HubOK(h)
    ensures HubOK(Disconnected(h, id))
  {
    hide Agrees;
    hide Unregistered;
    UnregisterAgrees(h.registry, id);
  }

  lemma TakenKeepsHub(h: HubState, id: string)
    requires HubOK(h)
    ensures HubOK(Taken(h, id))
  {
    hide Agrees;
  }

  lemma UntaggedKeepsHub(h: HubState, id: string, tag: Bytes)
    requires HubOK(h)
    ensures HubOK(Untagged(h, id, tag))
  {
    hide Agrees;
  }

  lemma AckKeepsInv(s: State, id: string, tag: Bytes)
    requires Inv(s) && Tracked(Persisted(s.store), tag)
    ensures Inv(s.(hub := Untagged(s.hub, id, tag), deleter := D.After(s.deleter, D.Mark(tag))))
  {
    hide Inv;
    hide HubOK;
    hide Tracked;
    hide Untagged;
    InvTracked(s);
    MarkKeepsInv(s, [tag]);
    UntaggedKeepsHub(s.hub, id, tag);
    var marked := s.(deleter := D.Marked(s.deleter, [tag]));
    FrameInv(marked, marked.(hub := Untagged(s.hub, id, tag)));
  }

  /** Every step of the broker keeps the hub's indexes in agreement, the counter
      above every stored ID, only persisted IDs on their way to deletion, every
      deleted event out of storage, and every mark accounted for. */
  lemma StepKeepsInv(cfg: Config, s: State, step: Step)
    requires cfg.env.Valid() && Inv(s)
    ensures Inv(Next(cfg, s, step))
  {
    hide Inv;
    hide HubOK;
    hide PassVisits;
    hide Tracked;
    hide CleanItems;
    hide BatchWrites;
    hide KeysFit;
    hide Dropped;
    hide Disconnected;
    hide Untagged;
    hide Joined;
    hide Taken;
    hide Persisted;
    hide Swept;
    hide D.After;
    hide D.Marked;
    InvTracked(s);
    if Enabled(cfg, s, step) {
      match step
      case Publish(items) => PublishKeepsInv(s, items);
      case Refused(n) => RefusedKeepsInv(s, n);
      case Pass(now, topics) => PassKeepsInv(cfg, s, now, topics);
      case Sweep(now) => SweepKeepsInv(cfg, s, now);
      case Join(c) =>
        JoinKeepsHub(s.hub, c);
        FrameInv(s, s.(hub := Joined(s.hub, c)));
      case Leave(id) =>
        LeaveKeepsHub(s.hub, id);
        FrameInv(s, s.(hub := Disconnected(s.hub, id)));
      case Receive(id) =>
        TakenKeepsHub(s.hub, id);
        FrameInv(s, s.(hub := Taken(s.hub, id)));
      case Ack(id, tag) => AckKeepsInv(s, id, tag);
      case Nack(id, tag) =>
        UntaggedKeepsHub(s.hub, id, tag);
        FrameInv(s, s.(hub := Untagged(s.hub, id, tag)));
      case FlushTake => DeleterStepKeepsInv(s, D.Take);
      case FlushOk => FlushOkKeepsInv(s);
      case FlushFail => FlushFailKeepsInv(s, Effect(cfg, s, step).proposed);
      case ApplyProposal(i) => ApplyKeepsInv(s, i);
      case Notify(i) => NoticeKeepsInv(s, i);
      case Restart => RestartKeepsInv(s);
    }
  }

  lemma RestartKeepsInv(s: State)
    requires Inv(s)
    ensures Inv(State(s.store, Persisted(s.store), NO_HUB, map[], D.IDLE, s.proposed, [], [], s.clock))
  {
    EmptyAgrees();
    hide Agrees;
    hide IdsWithin;
  }

  // ── Runs ────────────────────────────────────────────────────────────────────

  ghost function Run(cfg: Config, s: State, steps: seq<Step>): (r: State)
    requires cfg.env.Valid() && Inv(s)
    ensures Inv(r)
  {
    if steps == [] then s
    else
      var before := Run(cfg, s, steps[..|steps| - 1]);
      StepKeepsInv(cfg, before, steps[|steps| - 1]);
      Next(cfg, before, steps[|steps| - 1])
  }
}
