/** Dispatch goes by the topic's hash and never looks at the message's own topic.
    Consumers get only their topic's messages when the hash tells the topics in
    use apart. */
module TopicIsolation {
  import opened Bytes
  import opened Keys
  import opened Storage
  import opened Messages
  import opened EventCommands
  import opened EventReplica
  import opened EventIds
  import opened Hub
  import opened HubDelivery
  import opened Dispatcher
  import opened DispatchPass
  import opened Broker
  import opened BrokerDelivery
  import P = Producer
  import D = Deleter

  predicate HashSeparates(codec: Codec, topics: set<string>)
  {
    forall t, u :: t in topics && u in topics && codec.hash(t) == codec.hash(u) ==> t == u
  }

  /** If the item decodes, it is stored under the hash of its own topic, and that
      topic is in use. */
  predicate Filed(env: Env, topics: set<string>, hash: u64, val: Bytes)
  {
    env.codec.decode(val).Some? ==>
      var t := env.codec.decode(val).value.topic; t in topics && env.codec.hash(t) == hash
  }

  predicate StoreFiled(env: Env, topics: set<string>, m: Storage.Store)
  {
    forall k :: k in m && |k| == EVENT_KEY_LEN ==> Filed(env, topics, Uint64(k), m[k])
  }

  /** A queued event is of the topic. */
  predicate OnTopicOnly(topic: string, queue: seq<Delivery>)
  {
    forall i :: 0 <= i < |queue| && |queue[i].tag| == EVENT_KEY_LEN ==> queue[i].msg.topic == topic
  }

  ghost predicate HubIsolated(topics: set<string>, h: HubState)
  {
    forall id :: id in h.registry.byID && id in h.queues ==>
      h.registry.byID[id].topic in topics && OnTopicOnly(h.registry.byID[id].topic, h.queues[id])
  }

  ghost predicate Isolated(env: Env, topics: set<string>, s: State)
  {
    StoreFiled(env, topics, s.store) && HubIsolated(topics, s.hub)
  }

  /** The step brings in no topic outside those in use, and publishes only items
      stored under their own topic's hash. */
  predicate UsesTopics(env: Env, topics: set<string>, step: Step)
  {
    match step
    case Publish(items) => forall i :: 0 <= i < |items| ==> Filed(env, topics, items[i].topicHash, items[i].msg)
    case Join(c) => c.topic in topics
    case _ => true
  }

  /** When decoding inverts encoding, what the producer builds is stored under its
      own topic's hash. */
  lemma BuiltIsFiled(env: Env, topics: set<string>, m: Message, now: int)
    requires env.codec.Valid() && P.ItemOf(env.codec, m, now).Some? && m.topic in topics
    requires P.DecodesBack(env.codec)
    ensures var it := P.ItemOf(env.codec, m, now).value; Filed(env, topics, it.topicHash, it.msg)
  {
    hide P.ItemOf;
    P.PublishedContent(env.codec, m, now);
  }

  lemma KeyHash(it: StoreItem, id: u64)
    ensures Uint64(ItemKey(it, id)) == it.topicHash
  {
    EventKeyBijection(ItemKey(it, id), EventParts(it.topicHash, it.bucket, id));
  }

  lemma PublishFiles(env: Env, topics: set<string>, m: Storage.Store, items: seq<StoreItem>, c: u64)
    requires StoreFiled(env, topics, m) && CleanItems(items) && c + |items| < TWO64
    requires forall i :: 0 <= i < |items| ==> Filed(env, topics, items[i].topicHash, items[i].msg)
    ensures StoreFiled(env, topics, m + BatchWrites(items, c))
  {
    hide BatchWrites;
    hide ItemKey;
    hide EventIdOf;
    hide CleanItems;
    hide Filed;
    hide Uint64;
    BatchWritesEvents(items, c);
    forall k | k in BatchWrites(items, c) && |k| == EVENT_KEY_LEN
      ensures Filed(env, topics, Uint64(k), BatchWrites(items, c)[k])
    {
      var i := EventIdOf(k) - c - 1;
      KeyHash(items[i], c + i + 1);
    }
  }

  /** One visit to a due key of the visited topic adds only that topic's messages. */
  lemma VisitIsolates(env: Env, topics: set<string>, topic: string, now: int, v: Visits, key: Bytes, m: Storage.Store)
    requires env.Valid() && HubOK(v.hub) && HashSeparates(env.codec, topics) && StoreFiled(env, topics, m)
    requires 0 <= now < TWO63 && key in DueKeys(env, topic, now, m) && HubIsolated(topics, v.hub)
    ensures HubIsolated(topics, Visit(env, topic, now, v, key, m[key]).hub)
  {
    hide HubOK;
    hide Visit;
    hide Filed;
    hide Uint64;
    hide BucketMs;
    hide BucketOf;
    hide DueKeys;
    var r := Visit(env, topic, now, v, key, m[key]);
    forall id | id in r.hub.registry.byID && id in r.hub.queues
      ensures r.hub.registry.byID[id].topic in topics && OnTopicOnly(r.hub.registry.byID[id].topic, r.hub.queues[id])
    {
      SameMembers(v.hub, id);
      VisitQueue(env, topic, now, v, key, m, id);
      if r.hub.queues[id] != v.hub.queues[id] && |key| == EVENT_KEY_LEN {
        DueKeysExact(env, topic, now, m, key);
        FiledTopic(env, topics, topic, m[key]);
      }
    }
  }

  lemma SameMembers(h: HubState, id: string)
    requires HubOK(h) && id in h.registry.byID
    ensures id in h.queues
  {
    hide Agrees;
  }

  lemma FiledTopic(env: Env, topics: set<string>, topic: string, val: Bytes)
    requires HashSeparates(env.codec, topics) && topic in topics
    requires Filed(env, topics, env.codec.hash(topic), val) && env.codec.decode(val).Some?
    ensures env.codec.decode(val).value.topic == topic
  {
  }

  lemma {:induction false} VisitsIsolate(env: Env, topics: set<string>, now: int, v: Visits,
                                         stops: seq<Stop>, m: Storage.Store)
    requires env.Valid() && HubOK(v.hub) && HashSeparates(env.codec, topics) && StoreFiled(env, topics, m)
    requires 0 <= now < TWO63 && StopsIn(stops, m) && HubIsolated(topics, v.hub)
    requires forall i :: 0 <= i < |stops| ==> stops[i].key in DueKeys(env, stops[i].topic, now, m)
    ensures HubIsolated(topics, VisitAll(env, now, v, stops, m).hub)
  {
    hide HubOK;
    hide Visit;
    hide DueKeys;
    hide HubIsolated;
    hide StoreFiled;
    hide HashSeparates;
    if stops != [] {
      var init, last := stops[..|stops| - 1], stops[|stops| - 1];
      VisitsIsolate(env, topics, now, v, init, m);
      VisitIsolates(env, topics, last.topic, now, VisitAll(env, now, v, init, m), last.key, m);
    }
  }

  lemma PassIsolates(cfg: Config, topics: set<string>, s: State, now: int, scanned: seq<string>)
    requires cfg.env.Valid() && HubOK(s.hub) && HashSeparates(cfg.env.codec, topics) && 0 <= now < METADATA_HORIZON
    requires Isolated(cfg.env, topics, s)
    ensures Isolated(cfg.env, topics, PassDone(s, PassVisits(cfg, s, now, scanned), now))
  {
    hide HubOK;
    hide VisitAll;
    hide Route;
    hide DueKeys;
    hide HubIsolated;
    hide StoreFiled;
    hide HashSeparates;
    var stops := Route(cfg.env, scanned, now, s.store);
    forall i | 0 <= i < |stops| ensures stops[i].key in DueKeys(cfg.env, stops[i].topic, now, s.store) {
      RouteStops(cfg.env, scanned, now, s.store, i);
    }
    VisitsIsolate(cfg.env, topics, now, Start(s), stops, s.store);
  }

  lemma JoinIsolates(topics: set<string>, h: HubState, c: Consumer)
    requires HubIsolated(topics, h) && c.topic in topics
    ensures HubIsolated(topics, Joined(h, c))
  {
  }

  lemma LeaveIsolates(topics: set<string>, h: HubState, id: string)
    requires HubIsolated(topics, h)
    ensures HubIsolated(topics, Disconnected(h, id))
  {
  }

  lemma TakenIsolates(topics: set<string>, h: HubState, id: string)
    requires HubIsolated(topics, h)
    ensures HubIsolated(topics, Taken(h, id))
  {
  }

  lemma FewerIsFiled(env: Env, topics: set<string>, m: Storage.Store, keys: seq<Bytes>)
    requires StoreFiled(env, topics, m)
    ensures StoreFiled(env, topics, m - (set k | k in keys))
  {
    hide Filed;
    hide Uint64;
  }

  lemma StepIsolates(cfg: Config, topics: set<string>, s: State, step: Step)
    requires cfg.env.Valid() && HubOK(s.hub) && HashSeparates(cfg.env.codec, topics)
    requires Isolated(cfg.env, topics, s) && UsesTopics(cfg.env, topics, step)
    ensures Isolated(cfg.env, topics, Next(cfg, s, step))
  {
    hide HubOK;
    hide HubIsolated;
    hide StoreFiled;
    hide HashSeparates;
    hide Filed;
    hide PassVisits;
    hide PassDone;
    hide CleanItems;
    hide BatchWrites;
    hide Joined;
    hide Disconnected;
    hide Taken;
    hide Tracked;
    hide KeysFit;
    hide Swept;
    hide D.After;
    hide D.Marked;
    if Enabled(cfg, s, step) {
      match step
      case Publish(items) => PublishFiles(cfg.env, topics, s.store, items, s.counter);
      case Pass(now, scanned) => PassIsolates(cfg, topics, s, now, scanned);
      case Join(c) => JoinIsolates(topics, s.hub, c);
      case Leave(id) => LeaveIsolates(topics, s.hub, id);
      case Receive(id) => TakenIsolates(topics, s.hub, id);
      case Ack(id, tag) => TagsAside(topics, s.hub, Untagged(s.hub, id, tag));
      case Nack(id, tag) => TagsAside(topics, s.hub, Untagged(s.hub, id, tag));
      case FlushOk => FewerIsFiled(cfg.env, topics, s.store, s.deleter.Batch());
      case ApplyProposal(i) => FewerIsFiled(cfg.env, topics, s.store, s.proposed[i]);
      case Restart => NobodyIsolated(topics);
      case _ =>
    }
  }

  lemma TagsAside(topics: set<string>, h: HubState, g: HubState)
    requires HubIsolated(topics, h) && g == h.(tags := g.tags)
    ensures HubIsolated(topics, g)
  {
  }

  lemma NobodyIsolated(topics: set<string>)
    ensures HubIsolated(topics, NO_HUB)
  {
  }

  /** Over every run in which the hash tells the topics in use apart, whatever
      event waits in a consumer's queue was published to the consumer's topic. */
  lemma {:induction false} ConsumersGetTheirTopic(cfg: Config, topics: set<string>, s: State, steps: seq<Step>)
    requires cfg.env.Valid() && Inv(s) && HashSeparates(cfg.env.codec, topics) && Isolated(cfg.env, topics, s)
    requires forall i :: 0 <= i < |steps| ==> UsesTopics(cfg.env, topics, steps[i])
    ensures Isolated(cfg.env, topics, Run(cfg, s, steps))
  {
    hide Isolated;
    hide HashSeparates;
    hide UsesTopics;
    hide Next;
    hide HubOK;
    hide QueuesTracked;
    if steps != [] {
      ConsumersGetTheirTopic(cfg, topics, s, steps[..|steps| - 1]);
      StepIsolates(cfg, topics, Run(cfg, s, steps[..|steps| - 1]), steps[|steps| - 1]);
    }
  }

  /** A new node starts out isolated. */
  lemma InitialIsolated(env: Env, topics: set<string>)
    ensures Isolated(env, topics, INITIAL)
  {
  }
}
