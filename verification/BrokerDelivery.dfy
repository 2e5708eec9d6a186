/** What the broker's passes send, over every run: exactly what is due and can be
    taken, no more than is due, and the same whatever was answered negatively. */
module BrokerDelivery {
  import opened Bytes
  import opened Keys
  import opened Storage
  import opened EventCommands
  import opened EventReplica
  import opened EventIds
  import opened Hub
  import opened HubDelivery
  import opened Dispatcher
  import opened DispatchPass
  import opened Broker
  import D = Deleter

  // ── A due message is sent ───────────────────────────────────────────────────

  /** What a pass starts from. */
  function Start(s: State): Visits
  {
    Visits(s.inFlight, s.hub, [], s.sent)
  }

  ghost predicate PassSends(cfg: Config, s: State, now: int, topics: seq<string>, k: Bytes)
    requires cfg.env.Valid() && HubOK(s.hub)
  {
    NewlySent(s.sent, Next(cfg, s, Pass(now, topics)).sent, k)
  }

  lemma PassLog(cfg: Config, s: State, now: int, topics: seq<string>)
    requires cfg.env.Valid() && HubOK(s.hub) && 0 <= now < METADATA_HORIZON
    ensures Next(cfg, s, Pass(now, topics)).sent
            == VisitAll(cfg.env, now, Start(s), Route(cfg.env, topics, now, s.store), s.store).sent
  {
    hide HubOK;
    hide VisitAll;
    hide Route;
  }

  /** A pass of the broker sends a key if and only if at one of its stops the key
      is due and somebody selected on the topic has room. */
  lemma PassIsExact(cfg: Config, s: State, now: int, topics: seq<string>, k: Bytes)
    requires cfg.env.Valid() && HubOK(s.hub) && 0 <= now < METADATA_HORIZON
    ensures var stops := Route(cfg.env, topics, now, s.store);
            PassSends(cfg, s, now, topics, k)
            <==> SomeStopSends(cfg.env, now, Start(s), stops, s.store, k)
  {
    hide HubOK;
    hide VisitAll;
    hide Route;
    hide NewlySent;
    hide SomeStopSends;
    hide Next;
    PassLog(cfg, s, now, topics);
    PassSendsIff(cfg.env, now, Start(s), Route(cfg.env, topics, now, s.store), s.store, k);
  }

  lemma {:induction false} OnTopicConcat(a: seq<Stop>, b: seq<Stop>, topic: string)
    ensures OnTopic(a + b, topic) == OnTopic(a, topic) + OnTopic(b, topic)
  {
    if b == [] {
      assert a + b == a;
    } else {
      OnTopicConcat(a, b[..|b| - 1], topic);
      assert (a + b)[..|a + b| - 1] == a + b[..|b| - 1];
    }
  }

  lemma {:induction false} OnTopicOf(keys: seq<Bytes>, t: string, topic: string)
    ensures OnTopic(StopsOf(t, keys), topic) == if t == topic then |keys| else 0
  {
    if keys != [] {
      var init := keys[..|keys| - 1];
      OnTopicOf(init, t, topic);
      assert StopsOf(t, keys)[..|keys| - 1] == StopsOf(t, init);
    }
  }

  lemma {:induction false} OffRoute(env: Env, topics: seq<string>, now: int, m: Storage.Store, topic: string)
    requires env.Valid() && -TWO63 <= now < TWO63 && topic !in topics
    ensures OnTopic(Route(env, topics, now, m), topic) == 0
  {
    hide DueKeys;
    hide OnTopic;
    if topics == [] {
      OnTopicOf([], topic, topic);
      assert StopsOf(topic, []) == [];
    } else {
      var init, last := topics[..|topics| - 1], topics[|topics| - 1];
      OffRoute(env, init, now, m, topic);
      OnTopicConcat(Route(env, init, now, m), Scan(env, last, now, m), topic);
      OnTopicOf(Ascending(DueKeys(env, last, now, m)), last, topic);
    }
  }

  /** A due key has a stop on the route, and no more stops of its topic come
      before it than there are due keys before it. */
  lemma {:induction false} RouteFinds(env: Env, topics: seq<string>, now: int, m: Storage.Store,
                                      topic: string, k: Bytes)
    returns (i: nat)
    requires env.Valid() && -TWO63 <= now < TWO63 && Distinct(topics) && topic in topics
    requires k in DueKeys(env, topic, now, m)
    ensures var stops := Route(env, topics, now, m);
            && i < |stops| && stops[i] == Stop(topic, k)
            && OnTopic(stops[..i], topic) + 1 <= |UpTo(DueKeys(env, topic, now, m), k)|
  {
    hide DueKeys;
    hide OnTopic;
    hide UpTo;
    hide Ascending;
    var init, last := topics[..|topics| - 1], topics[|topics| - 1];
    var before, scan := Route(env, init, now, m), Scan(env, last, now, m);
    assert Route(env, topics, now, m) == before + scan;
    if last == topic {
      var keys := Ascending(DueKeys(env, topic, now, m));
      var j := AscendingPosition(DueKeys(env, topic, now, m), k);
      i := |before| + j;
      assert (before + scan)[..i] == before + scan[..j];
      assert scan[..j] == StopsOf(topic, keys[..j]);
      OffRoute(env, init, now, m, topic);
      OnTopicConcat(before, scan[..j], topic);
      OnTopicOf(keys[..j], topic, topic);
    } else {
      i := RouteFinds(env, init, now, m, topic, k);
      assert (before + scan)[..i] == before[..i];
    }
  }

  /** A scanned key that can be sent is sent when a universal consumer of the
      topic, or every member of one of its groups, has room for the topic's
      scanned keys up to this one. */
  lemma ScannedIsSent(cfg: Config, s: State, now: int, topics: seq<string>, topic: string, k: Bytes, l: Listener)
    requires cfg.env.Valid() && HubOK(s.hub) && 0 <= now < METADATA_HORIZON && Distinct(topics) && topic in topics
    requires k in DueKeys(cfg.env, topic, now, s.store) && Due(cfg.env, now, s.inFlight, s.store, k)
    requires RoomFor(s.hub, topic, l, |UpTo(DueKeys(cfg.env, topic, now, s.store), k)|)
    ensures PassSends(cfg, s, now, topics, k)
  {
    hide HubOK;
    hide VisitAll;
    hide DueKeys;
    hide Route;
    hide Due;
    hide RoomFor;
    hide NewlySent;
    hide Next;
    hide UpTo;
    var stops := Route(cfg.env, topics, now, s.store);
    var i := RouteFinds(cfg.env, topics, now, s.store, topic, k);
    LessRoom(s.hub, topic, l, |UpTo(DueKeys(cfg.env, topic, now, s.store), k)|, OnTopic(stops[..i], topic) + 1);
    DueIsSent(cfg.env, now, Start(s), stops, s.store, i, l);
    PassLog(cfg, s, now, topics);
  }

  /** A message whose firing time has come is sent by a pass over its topic, when
      it has not expired, has no in-flight entry younger than the timeout, and a
      universal consumer of the topic, or every member of one of its groups, has
      room for the topic's scanned keys up to it. */
  lemma DueMessageIsSent(cfg: Config, s: State, now: int, topics: seq<string>, topic: string,
                         k: Bytes, fireAt: int, l: Listener)
    requires cfg.env.Valid() && HubOK(s.hub) && 0 <= now < METADATA_HORIZON && Distinct(topics) && topic in topics
    requires k in s.store && |k| == EVENT_KEY_LEN && HashOf(k) == cfg.env.codec.hash(topic)
    requires -TWO63 <= fireAt <= now && BucketOf(k) == CalculateBucket(fireAt, cfg.env.codec.bucketSize)
    requires k !in s.inFlight || now - s.inFlight[k] >= cfg.env.timeoutMs
    requires Alive(cfg.env, now, s.store[k])
    requires RoomFor(s.hub, topic, l, |UpTo(DueKeys(cfg.env, topic, now, s.store), k)|)
    ensures PassSends(cfg, s, now, topics, k)
  {
    hide HubOK;
    hide DueKeys;
    hide Alive;
    hide RoomFor;
    hide PassSends;
    hide UpTo;
    hide CalculateBucket;
    hide BucketMs;
    hide HashOf;
    hide BucketOf;
    var size := cfg.env.codec.bucketSize;
    DeliveryTimeBound(fireAt, now, size);
    BucketBegun(BucketOf(k), now, size);
    DueKeysExact(cfg.env, topic, now, s.store, k);
    ScannedIsSent(cfg, s, now, topics, topic, k, l);
  }

  lemma LessRoom(h: HubState, topic: string, l: Listener, room: nat, less: nat)
    requires less <= room && RoomFor(h, topic, l, room)
    ensures RoomFor(h, topic, l, less)
  {
  }

  // ── The immediate re-scan comes to an end ───────────────────────────────────

  /** A step that neither stores, deletes nor forgets; if it is a pass, no
      in-flight entry has timed out when it starts. */
  predicate Quiet(cfg: Config, s: State, step: Step)
  {
    match step
    case Pass(now, _) => NoneTimedOut(cfg.env, s.inFlight, now)
    case Publish(_) => false
    case FlushOk => false
    case ApplyProposal(_) => false
    case Notify(_) => false
    case Restart => false
    case _ => true
  }

  ghost predicate QuietRun(cfg: Config, s: State, steps: seq<Step>)
    requires cfg.env.Valid() && Inv(s)
  {
    steps == [] ||
    (QuietRun(cfg, s, steps[..|steps| - 1]) && Quiet(cfg, Run(cfg, s, steps[..|steps| - 1]), steps[|steps| - 1]))
  }

  /** Every pass scans some of these topics, between these two times. */
  predicate Within(step: Step, topics: seq<string>, first: int, last: int)
  {
    step.Pass? ==> first <= step.now <= last && forall i :: 0 <= i < |step.topics| ==> step.topics[i] in topics
  }

  /** The keys such passes could send: due on one of the topics by the last time,
      and not yet expired at the first. */
  ghost function Candidates(env: Env, topics: seq<string>, first: int, last: int, m: Storage.Store): set<Bytes>
    requires env.Valid() && -TWO63 <= last < TWO63
  {
    set k | k in m && Alive(env, first, m[k]) && exists t :: t in topics && k in DueKeys(env, t, last, m)
  }

  /** Every stop of a route is on one of its topics and due there. */
  lemma {:induction false} RouteStops(env: Env, topics: seq<string>, now: int, m: Storage.Store, i: nat)
    requires env.Valid() && -TWO63 <= now < TWO63 && i < |Route(env, topics, now, m)|
    ensures var stop := Route(env, topics, now, m)[i];
            stop.topic in topics && stop.key in DueKeys(env, stop.topic, now, m)
  {
    hide DueKeys;
    var init, last := topics[..|topics| - 1], topics[|topics| - 1];
    var before := Route(env, init, now, m);
    if i < |before| {
      RouteStops(env, init, now, m, i);
      assert before[i].topic in topics;
    } else {
      assert Route(env, topics, now, m)[i] == Scan(env, last, now, m)[i - |before|];
      assert last in topics;
    }
  }

  lemma DueKeysGrow(env: Env, topic: string, now: int, last: int, m: Storage.Store, k: Bytes)
    requires env.Valid() && 0 <= now <= last < TWO63 && k in DueKeys(env, topic, now, m)
    ensures k in DueKeys(env, topic, last, m)
  {
    hide InDueRange;
    hide CalculateBucket;
    BucketGrows(now, last, env.codec.bucketSize);
    DueRangeGrows(k, env.codec.hash(topic), CalculateBucket(now, env.codec.bucketSize),
                  CalculateBucket(last, env.codec.bucketSize));
  }

  lemma RouteCovered(env: Env, scanned: seq<string>, now: int, m: Storage.Store,
                     topics: seq<string>, first: int, last: int)
    requires env.Valid() && 0 <= now && first <= now <= last < TWO63
    requires forall i :: 0 <= i < |scanned| ==> scanned[i] in topics
    ensures Covers(env, now, Route(env, scanned, now, m), m, Candidates(env, topics, first, last, m))
  {
    hide DueKeys;
    hide Route;
    var stops := Route(env, scanned, now, m);
    forall i | 0 <= i < |stops| && Alive(env, now, m[stops[i].key])
      ensures stops[i].key in Candidates(env, topics, first, last, m)
    {
      RouteStops(env, scanned, now, m, i);
      var t := stops[i].topic;
      DueKeysGrow(env, t, now, last, m, stops[i].key);
      assert t in topics;
    }
  }

  /** Passes that dispatched something: those after which the scan is repeated at once. */
  ghost function BusyPasses(cfg: Config, s: State, steps: seq<Step>): nat
    requires cfg.env.Valid() && Inv(s)
  {
    if steps == [] then 0
    else
      var init := steps[..|steps| - 1];
      BusyPasses(cfg, s, init) + if |Run(cfg, s, steps).sent| > |Run(cfg, s, init).sent| then 1 else 0
  }

  lemma QuietStep(cfg: Config, s: State, step: Step, topics: seq<string>, first: int, last: int)
    requires cfg.env.Valid() && cfg.env.timeoutMs > 0 && HubOK(s.hub) && Quiet(cfg, s, step)
    requires Within(step, topics, first, last) && last < TWO63 && -TWO63 <= last
    ensures var t, keys := Next(cfg, s, step), Candidates(cfg.env, topics, first, last, s.store);
            && t.store == s.store && |t.sent| >= |s.sent|
            && |Idle(keys, t.inFlight)| + |t.sent| == |Idle(keys, s.inFlight)| + |s.sent|
  {
    hide HubOK;
    hide VisitAll;
    hide NoneTimedOut;
    hide Idle;
    hide Route;
    hide Candidates;
    hide Covers;
    hide D.After;
    hide D.Marked;
    hide Tracked;
    if step.Pass? && Enabled(cfg, s, step) {
      var stops := Route(cfg.env, step.topics, step.now, s.store);
      RouteCovered(cfg.env, step.topics, step.now, s.store, topics, first, last);
      DispatchesUseIdle(cfg.env, step.now, Start(s), stops, s.store, Candidates(cfg.env, topics, first, last, s.store));
      SentGrows(cfg.env, step.now, Start(s), stops, s.store);
    }
  }

  /** Over a quiet run every dispatch uses up one key that was due by the last
      pass, unexpired at the first and not in flight, so the zero-delay re-scan
      chain has at most that many busy passes. */
  lemma {:induction false} RescanEnds(cfg: Config, s: State, steps: seq<Step>,
                                      topics: seq<string>, first: int, last: int)
    requires cfg.env.Valid() && cfg.env.timeoutMs > 0 && Inv(s) && QuietRun(cfg, s, steps) && -TWO63 <= last < TWO63
    requires forall i :: 0 <= i < |steps| ==> Within(steps[i], topics, first, last)
    ensures var t, keys := Run(cfg, s, steps), Candidates(cfg.env, topics, first, last, s.store);
            && t.store == s.store
            && |Idle(keys, t.inFlight)| + |t.sent| == |Idle(keys, s.inFlight)| + |s.sent|
            && BusyPasses(cfg, s, steps) <= |t.sent| - |s.sent| <= |Idle(keys, s.inFlight)|
  {
    hide Quiet;
    hide Next;
    hide Idle;
    hide HubOK;
    hide QueuesTracked;
    hide Within;
    hide Candidates;
    if steps != [] {
      var init := steps[..|steps| - 1];
      RescanEnds(cfg, s, init, topics, first, last);
      QuietStep(cfg, Run(cfg, s, init), steps[|steps| - 1], topics, first, last);
    }
  }

  // ── A NACK does not hasten redelivery ───────────────────────────────────────

  /** The states differ at most in the delivery tags recorded for consumers. */
  ghost predicate Twins(s: State, t: State)
  {
    t == s.(hub := t.hub) && SameButTags(s.hub, t.hub)
  }

  lemma TwinPass(cfg: Config, s: State, t: State, now: int, topics: seq<string>)
    requires cfg.env.Valid() && HubOK(s.hub) && HubOK(t.hub) && Twins(s, t) && 0 <= now < METADATA_HORIZON
    ensures Twins(PassDone(s, PassVisits(cfg, s, now, topics), now), PassDone(t, PassVisits(cfg, t, now, topics), now))
  {
    hide HubOK;
    hide VisitAll;
    hide Route;
    PassIgnoresTags(cfg.env, now, Start(s), t.hub, Route(cfg.env, topics, now, s.store), s.store);
  }

  lemma TwinStep(cfg: Config, s: State, t: State, step: Step)
    requires cfg.env.Valid() && HubOK(s.hub) && HubOK(t.hub) && Twins(s, t)
    ensures Twins(Next(cfg, s, step), Next(cfg, t, step))
  {
    hide HubOK;
    hide PassVisits;
    hide PassDone;
    hide Tracked;
    hide CleanItems;
    hide KeysFit;
    hide BatchWrites;
    hide Unregistered;
    hide Swept;
    hide D.After;
    hide D.Marked;
    if step.Pass? && Enabled(cfg, s, step) {
      TwinPass(cfg, s, t, step.now, step.topics);
    }
  }

  lemma {:induction false} TwinRun(cfg: Config, s: State, t: State, steps: seq<Step>)
    requires cfg.env.Valid() && Inv(s) && Inv(t) && Twins(s, t)
    ensures Twins(Run(cfg, s, steps), Run(cfg, t, steps))
  {
    hide Next;
    hide Twins;
    hide HubOK;
    hide QueuesTracked;
    if steps != [] {
      var init := steps[..|steps| - 1];
      TwinRun(cfg, s, t, init);
      TwinStep(cfg, Run(cfg, s, init), Run(cfg, t, init), steps[|steps| - 1]);
    }
  }

  /** A negative acknowledgement changes nothing that any later step does, except
      to the recorded tags: over every run after it, storage, queues, in-flight
      entries, deletions and dispatches are those of the run without it. */
  lemma NackChangesNothing(cfg: Config, s: State, id: string, tag: Bytes, steps: seq<Step>)
    requires cfg.env.Valid() && Inv(s)
    ensures var nacked := Next(cfg, s, Nack(id, tag));
            Inv(nacked) && Twins(Run(cfg, s, steps), Run(cfg, nacked, steps))
  {
    var nacked := Next(cfg, s, Nack(id, tag));
    StepKeepsInv(cfg, s, Nack(id, tag));
    hide Inv;
    hide Run;
    assert Twins(s, nacked);
    TwinRun(cfg, s, nacked, steps);
  }

  /** When a refused message comes back: after a negative acknowledgement, a pass
      at whose stop for this key the message is alive and somebody selected has
      room sends it if and only if its in-flight entry has timed out or is gone. */
  lemma NackRedeliveryIff(cfg: Config, s: State, id: string, tag: Bytes, now: int, topics: seq<string>, i: nat)
    requires cfg.env.Valid() && Inv(s) && 0 <= now < METADATA_HORIZON
    requires i < |Route(cfg.env, topics, now, s.store)|
    requires var stop := Route(cfg.env, topics, now, s.store)[i];
             && stop.key == tag && Alive(cfg.env, now, s.store[tag])
             && Deliverable(Before(cfg.env, now, Start(s), Route(cfg.env, topics, now, s.store), s.store, i).hub,
                 stop.topic)
    ensures var nacked := Next(cfg, s, Nack(id, tag));
            && HubOK(nacked.hub)
            && (PassSends(cfg, nacked, now, topics, tag)
                <==> tag !in s.inFlight || now - s.inFlight[tag] >= cfg.env.timeoutMs)
  {
    NackChangesNothing(cfg, s, id, tag, []);
    var nacked := Next(cfg, s, Nack(id, tag));
    assert HubOK(nacked.hub) && HubOK(s.hub);
    assert Twins(s, nacked);
    hide Inv;
    hide HubOK;
    hide Next;
    hide VisitAll;
    hide Route;
    hide Deliverable;
    hide NewlySent;
    hide Alive;
    TwinStep(cfg, s, nacked, Pass(now, topics));
    PassLog(cfg, s, now, topics);
    SentUnlessWaiting(cfg.env, now, Start(s), Route(cfg.env, topics, now, s.store), s.store, i);
  }

  /** While a key's in-flight entry is younger than the timeout, no pass sends it,
      whatever was answered for it. */
  lemma WaitingIsNotSent(cfg: Config, s: State, now: int, topics: seq<string>, k: Bytes)
    requires cfg.env.Valid() && HubOK(s.hub) && k in s.inFlight && now - s.inFlight[k] < cfg.env.timeoutMs
    ensures !PassSends(cfg, s, now, topics, k)
  {
    hide HubOK;
    hide VisitAll;
    hide Route;
    if 0 <= now < METADATA_HORIZON {
      PassLog(cfg, s, now, topics);
      StillWaiting(cfg.env, now, Start(s), Route(cfg.env, topics, now, s.store), s.store, k);
    }
  }

  lemma SentEntry(cfg: Config, s: State, now: int, topics: seq<string>, k: Bytes)
    requires cfg.env.Valid() && cfg.env.timeoutMs > 0 && HubOK(s.hub) && 0 <= now < METADATA_HORIZON
    requires PassSends(cfg, s, now, topics, k)
    ensures var t := Next(cfg, s, Pass(now, topics)); k in t.inFlight && t.inFlight[k] == now
  {
    hide HubOK;
    hide VisitAll;
    hide Route;
    hide NewlySent;
    hide D.Marked;
    SentIsInFlight(cfg.env, now, Start(s), Route(cfg.env, topics, now, s.store), s.store, k);
  }

  /** A message that was sent and refused comes back no earlier than the timeout. */
  lemma NackInsideTimeout(cfg: Config, s: State, now: int, topics: seq<string>,
                          k: Bytes, id: string, later: int, again: seq<string>)
    requires cfg.env.Valid() && Inv(s) && 0 <= now < METADATA_HORIZON && PassSends(cfg, s, now, topics, k)
    requires later - now < cfg.env.timeoutMs && now <= later
    ensures var passed := Next(cfg, s, Pass(now, topics));
            && HubOK(passed.hub)
            && var nacked := Next(cfg, passed, Nack(id, k));
               HubOK(nacked.hub) && nacked.store == s.store && !PassSends(cfg, nacked, later, again, k)
  {
    hide HubOK;
    hide Inv;
    hide PassSends;
    hide PassVisits;
    hide D.Marked;
    InvTracked(s);
    var passed := Next(cfg, s, Pass(now, topics));
    StepKeepsInv(cfg, s, Pass(now, topics));
    InvTracked(passed);
    StepKeepsInv(cfg, passed, Nack(id, k));
    InvTracked(Next(cfg, passed, Nack(id, k)));
    SentEntry(cfg, s, now, topics, k);
    WaitingIsNotSent(cfg, Next(cfg, passed, Nack(id, k)), later, again, k);
  }
}
