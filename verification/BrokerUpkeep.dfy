/** What the broker keeps tidy over every run: bounded queues, records only of
    connected consumers, in-flight entries only of events that are stored or about
    to be forgotten, and expired messages handed to the deleter. */
module BrokerUpkeep {
  import opened Bytes
  import opened Keys
  import opened Storage
  import opened Messages
  import opened EventCommands
  import opened EventReplica
  import opened EventIds
  import opened Hub
  import opened HubDelivery
  import opened Dispatcher
  import opened DispatchPass
  import opened Broker
  import opened BrokerRuns
  import opened BrokerDelivery
  import D = Deleter

  // ── The hub ─────────────────────────────────────────────────────────────────

  /** No queue is longer than its consumer's channel, and tags are recorded for
      connected consumers only. */
  ghost predicate Tidy(h: HubState)
  {
    && (forall id :: id in h.registry.byID && id in h.queues ==> |h.queues[id]| <= h.registry.byID[id].capacity)
    && h.tags.Keys <= h.registry.byID.Keys
  }

  lemma OfferTags(h: HubState, topic: string, d: Delivery)
    requires HubOK(h) && h.tags.Keys <= h.registry.byID.Keys
    ensures Offered(h, topic, d).tags.Keys <= h.registry.byID.Keys
  {
    hide Agrees;
    FilledGroups(h.registry, topic);
    var ids := IdsWithRoom(h, Targets(h, topic));
    forall id | id in ids ensures id in h.registry.byID {
      var c :| c in Targets(h, topic) && HasRoom(h, c) && c.id == id;
      TargetsKnown(h, topic, c);
    }
  }

  lemma VisitTidies(env: Env, topic: string, now: int, v: Visits, key: Bytes, m: Storage.Store)
    requires HubOK(v.hub) && key in m && Tidy(v.hub)
    ensures Tidy(Visit(env, topic, now, v, key, m[key]).hub)
  {
    hide HubOK;
    hide Offered;
    hide Deliverable;
    hide Expired;
    var r := Visit(env, topic, now, v, key, m[key]);
    forall id | id in r.hub.registry.byID && id in r.hub.queues
      ensures |r.hub.queues[id]| <= r.hub.registry.byID[id].capacity
    {
      HasQueue(v.hub, id);
      VisitQueue(env, topic, now, v, key, m, id);
    }
    if env.codec.decode(m[key]).Some? {
      OfferTags(v.hub, topic, Delivery(key, env.codec.decode(m[key]).value));
    }
  }

  lemma HasQueue(h: HubState, id: string)
    requires HubOK(h) && id in h.registry.byID
    ensures id in h.queues
  {
    hide Agrees;
  }

  lemma {:induction false} PassTidies(env: Env, now: int, v: Visits, stops: seq<Stop>, m: Storage.Store)
    requires HubOK(v.hub) && StopsIn(stops, m) && Tidy(v.hub)
    ensures Tidy(VisitAll(env, now, v, stops, m).hub)
  {
    hide HubOK;
    hide Visit;
    hide Tidy;
    if stops != [] {
      var init, last := stops[..|stops| - 1], stops[|stops| - 1];
      PassTidies(env, now, v, init, m);
      VisitTidies(env, last.topic, now, VisitAll(env, now, v, init, m), last.key, m);
    }
  }

  lemma HubStepTidies(h: HubState, step: Step)
    requires Tidy(h)
    ensures step.Join? ==> Tidy(Joined(h, step.consumer))
    ensures step.Leave? ==> Tidy(Disconnected(h, step.id))
    ensures step.Receive? ==> Tidy(Taken(h, step.id))
    ensures step.Ack? || step.Nack? ==> Tidy(Untagged(h, step.id, step.tag))
  {
  }

  lemma NobodyTidy()
    ensures Tidy(NO_HUB)
  {
  }

  lemma StepTidies(cfg: Config, s: State, step: Step)
    requires cfg.env.Valid() && HubOK(s.hub) && Tidy(s.hub)
    ensures Tidy(Next(cfg, s, step).hub)
  {
    hide HubOK;
    hide Tidy;
    hide VisitAll;
    hide Route;
    hide CleanItems;
    hide BatchWrites;
    hide Joined;
    hide Disconnected;
    hide Taken;
    hide Untagged;
    hide Tracked;
    hide KeysFit;
    hide Swept;
    hide D.After;
    hide D.Marked;
    HubStepTidies(s.hub, step);
    NobodyTidy();
    if step.Pass? && Enabled(cfg, s, step) {
      PassTidies(cfg.env, step.now, Start(s), Route(cfg.env, step.topics, step.now, s.store), s.store);
    }
  }

  /** Over every run no queue outgrows its channel, and nothing is recorded for a
      consumer that has left. */
  lemma {:induction false} QueuesStayBounded(cfg: Config, s: State, steps: seq<Step>)
    requires cfg.env.Valid() && Inv(s) && Tidy(s.hub)
    ensures Tidy(Run(cfg, s, steps).hub)
  {
    hide Tidy;
    hide Next;
    hide HubOK;
    hide QueuesTracked;
    if steps != [] {
      QueuesStayBounded(cfg, s, steps[..|steps| - 1]);
      StepTidies(cfg, Run(cfg, s, steps[..|steps| - 1]), steps[|steps| - 1]);
    }
  }

  // ── In-flight entries ───────────────────────────────────────────────────────

  /** Every event in flight is stored, or its entry is due for removal. */
  predicate Accounted(m: Storage.Store, inFlight: map<Bytes, int>, notices: seq<Bytes>)
  {
    forall k :: k in inFlight && |k| == EVENT_KEY_LEN ==> k in m || k in notices
  }

  lemma {:induction false} PassAccounts(env: Env, now: int, v: Visits, stops: seq<Stop>, m: Storage.Store,
                                        notices: seq<Bytes>)
    requires HubOK(v.hub) && StopsIn(stops, m) && Accounted(m, v.inFlight, notices)
    ensures Accounted(m, VisitAll(env, now, v, stops, m).inFlight, notices)
  {
    hide HubOK;
    hide Offered;
    hide Deliverable;
    hide Expired;
    if stops != [] { PassAccounts(env, now, v, stops[..|stops| - 1], m, notices); }
  }

  lemma DropAccounts(m: Storage.Store, inFlight: map<Bytes, int>, notices: seq<Bytes>, keys: seq<Bytes>)
    requires Accounted(m, inFlight, notices)
    ensures Accounted(m - (set k | k in keys), inFlight, notices + keys)
  {
  }

  lemma NotifyAccounts(m: Storage.Store, inFlight: map<Bytes, int>, notices: seq<Bytes>, i: nat)
    requires Accounted(m, inFlight, notices) && i < |notices|
    ensures Accounted(m, inFlight - {notices[i]}, notices[..i] + notices[i + 1..])
  {
    forall k | k in inFlight - {notices[i]} && |k| == EVENT_KEY_LEN && k !in m
      ensures k in notices[..i] + notices[i + 1..]
    {
      var j :| 0 <= j < |notices| && notices[j] == k;
      assert (notices[..i] + notices[i + 1..])[if j < i then j else j - 1] == k;
    }
  }

  lemma StepAccounts(cfg: Config, s: State, step: Step)
    requires cfg.env.Valid() && HubOK(s.hub) && Accounted(s.store, s.inFlight, s.notices)
    ensures var t := Next(cfg, s, step); Accounted(t.store, t.inFlight, t.notices)
  {
    hide HubOK;
    hide VisitAll;
    hide Route;
    hide CleanItems;
    hide BatchWrites;
    hide Joined;
    hide Disconnected;
    hide Taken;
    hide Untagged;
    hide Tracked;
    hide KeysFit;
    hide Swept;
    hide D.After;
    hide D.Marked;
    if Enabled(cfg, s, step) {
      match step
      case Pass(now, topics) =>
        PassAccounts(cfg.env, now, Start(s), Route(cfg.env, topics, now, s.store), s.store, s.notices);
      case FlushOk => DropAccounts(s.store, s.inFlight, s.notices, s.deleter.Batch());
      case ApplyProposal(i) => DropAccounts(s.store, s.inFlight, s.notices, s.proposed[i]);
      case Notify(i) => NotifyAccounts(s.store, s.inFlight, s.notices, i);
      case _ =>
    }
  }

  /** No entry is left behind: over every run, once all removals are notified,
      every event in flight is a stored one. */
  lemma {:induction false} EntriesAccounted(cfg: Config, s: State, steps: seq<Step>)
    requires cfg.env.Valid() && Inv(s) && Accounted(s.store, s.inFlight, s.notices)
    ensures var t := Run(cfg, s, steps); Accounted(t.store, t.inFlight, t.notices)
  {
    hide Accounted;
    hide Next;
    hide HubOK;
    hide QueuesTracked;
    if steps != [] {
      EntriesAccounted(cfg, s, steps[..|steps| - 1]);
      StepAccounts(cfg, Run(cfg, s, steps[..|steps| - 1]), steps[|steps| - 1]);
    }
  }

  // ── Expired messages ────────────────────────────────────────────────────────

  /** A pass marks every stored event of a scanned topic whose bucket has begun,
      whose TTL has elapsed and which has no in-flight entry younger than the
      timeout. */
  lemma ExpiredIsMarked(cfg: Config, s: State, now: int, topics: seq<string>, topic: string, k: Bytes)
    requires cfg.env.Valid() && HubOK(s.hub) && 0 <= now < METADATA_HORIZON && Distinct(topics) && topic in topics
    requires k in s.store && |k| == EVENT_KEY_LEN && HashOf(k) == cfg.env.codec.hash(topic)
    requires BucketOf(k) * BucketMs(cfg.env.codec.bucketSize) <= now && DeadAt(cfg.env, s.store[k], now)
    requires k !in s.inFlight || now - s.inFlight[k] >= cfg.env.timeoutMs
    ensures k in Next(cfg, s, Pass(now, topics)).deleter.pending
  {
    hide HubOK;
    hide VisitAll;
    hide Route;
    hide DueKeys;
    hide HashOf;
    hide BucketOf;
    hide BucketMs;
    hide Expired;
    DueKeysExact(cfg.env, topic, now, s.store, k);
    var i := RouteFinds(cfg.env, topics, now, s.store, topic, k);
    OutlivedIsExpired(cfg.env, now, Start(s), Route(cfg.env, topics, now, s.store), s.store, i);
  }
}
