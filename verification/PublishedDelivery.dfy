/** From publication to dispatch: a message published with a delay is sent once the
    delay has passed, and not a whole bucket before. */
module PublishedDelivery {
  import opened Bytes
  import opened Keys
  import opened Storage
  import opened Messages
  import opened EventCommands
  import opened EventReplica
  import opened HubDelivery
  import opened Dispatcher
  import opened DispatchPass
  import opened Broker
  import opened BrokerRuns
  import opened BrokerDelivery
  import opened BrokerHistory
  import P = Producer

  lemma KeyParts(it: StoreItem, id: u64)
    ensures HashOf(ItemKey(it, id)) == it.topicHash && BucketOf(ItemKey(it, id)) == it.bucket
  {
    EventKeyBijection(ItemKey(it, id), EventParts(it.topicHash, it.bucket, id));
  }

  /** The key under which the j-th message of a batch is stored from state s. */
  function KeyOf(cfg: Config, s: State, ms: seq<Message>, now: int, j: nat): Bytes
    requires cfg.env.Valid() && j < |ms| && P.ItemsOf(cfg.env.codec, ms, now).Some? && s.counter + |ms| < TWO64
  {
    ItemKey(P.ItemsOf(cfg.env.codec, ms, now).value[j], s.counter + j + 1)
  }

  /** The key carries the topic's hash and the bucket in which the delay ends. */
  lemma KeyOfMessage(cfg: Config, s: State, ms: seq<Message>, now: int, j: nat)
    requires cfg.env.Valid() && j < |ms| && P.ItemsOf(cfg.env.codec, ms, now).Some? && s.counter + |ms| < TWO64
    requires 0 <= now && now + ms[j].delayMs < TWO63
    ensures var k, size := KeyOf(cfg, s, ms, now, j), BucketMs(cfg.env.codec.bucketSize);
            && |k| == EVENT_KEY_LEN && HashOf(k) == cfg.env.codec.hash(ms[j].topic)
            && BucketOf(k) * size <= now + ms[j].delayMs < (BucketOf(k) + 1) * size
  {
    hide P.ItemsOf;
    hide ItemKey;
    hide HashOf;
    hide BucketOf;
    hide BucketMs;
    var c := cfg.env.codec;
    P.BatchAcceptedIff(c, ms, now);
    var it := P.ItemsOf(c, ms, now).value[j];
    P.PublishedBucket(c, ms[j], now);
    assert it.topicHash == c.hash(ms[j].topic);
    KeyParts(it, s.counter + j + 1);
  }

  /** Never a whole bucket early: in every run after a publication, every dispatch
      of the message comes less than one bucket before its delay has passed. */
  lemma NeverABucketEarly(cfg: Config, s: State, ms: seq<Message>, now: int, j: nat, steps: seq<Step>, i: nat)
    requires cfg.env.Valid() && Inv(s) && s.sent == [] && j < |ms| && P.ItemsOf(cfg.env.codec, ms, now).Some?
    requires s.counter + |ms| < TWO64 && 0 <= now && now + ms[j].delayMs < TWO63
    requires var end := Run(cfg, s, [Publish(P.ItemsOf(cfg.env.codec, ms, now).value)] + steps);
             i < |end.sent| && end.sent[i].key == KeyOf(cfg, s, ms, now, j)
    ensures var end := Run(cfg, s, [Publish(P.ItemsOf(cfg.env.codec, ms, now).value)] + steps);
            now + ms[j].delayMs < end.sent[i].time + BucketMs(cfg.env.codec.bucketSize)
  {
    hide Inv;
    hide Run;
    hide P.ItemsOf;
    hide KeyOf;
    hide BucketMs;
    hide BucketOf;
    hide HashOf;
    var all := [Publish(P.ItemsOf(cfg.env.codec, ms, now).value)] + steps;
    assert AllPunctual(cfg.env, s.sent);
    LogIsPunctual(cfg, s, all);
    KeyOfMessage(cfg, s, ms, now, j);
    var e, b, size := Run(cfg, s, all).sent[i], BucketOf(KeyOf(cfg, s, ms, now, j)), BucketMs(cfg.env.codec.bucketSize);
    assert Punctual(cfg.env, e);
    assert (b + 1) * size == b * size + size;
  }

  /** The message still stored under its key is sent by any pass over its topic
      once its delay has passed, when it has not expired, has no in-flight entry
      younger than the timeout, and a listener has room. */
  lemma PublishedIsSent(cfg: Config, s: State, ms: seq<Message>, now: int, j: nat,
                        t: State, later: int, topics: seq<string>, l: Listener)
    requires cfg.env.Valid() && HubOK(t.hub) && j < |ms| && P.ItemsOf(cfg.env.codec, ms, now).Some?
    requires s.counter + |ms| < TWO64 && 0 <= now <= now + ms[j].delayMs <= later < METADATA_HORIZON
    requires P.DecodesBack(cfg.env.codec) && Distinct(topics) && ms[j].topic in topics
    requires var k := KeyOf(cfg, s, ms, now, j);
             && k in t.store && t.store[k] == P.ItemsOf(cfg.env.codec, ms, now).value[j].msg
             && (k !in t.inFlight || later - t.inFlight[k] >= cfg.env.timeoutMs)
             && RoomFor(t.hub, ms[j].topic, l, |UpTo(DueKeys(cfg.env, ms[j].topic, later, t.store), k)|)
    requires ms[j].ttlMs == 0 || later < now + ms[j].ttlMs < TWO63
    ensures PassSends(cfg, t, later, topics, KeyOf(cfg, s, ms, now, j))
  {
    hide HubOK;
    hide P.ItemsOf;
    hide P.ItemOf;
    hide P.Publishable;
    hide KeyOf;
    hide DueKeys;
    hide BucketMs;
    hide BucketOf;
    hide HashOf;
    hide PassSends;
    hide RoomFor;
    hide UpTo;
    var c, k := cfg.env.codec, KeyOf(cfg, s, ms, now, j);
    P.BatchAcceptedIff(c, ms, now);
    P.PublishedContent(c, ms[j], now);
    KeyOfMessage(cfg, s, ms, now, j);
    DueKeysExact(cfg.env, ms[j].topic, later, t.store, k);
    assert Alive(cfg.env, later, t.store[k]);
    ScannedIsSent(cfg, t, later, topics, ms[j].topic, k, l);
  }

  /** The whole way: whatever happens after the publication within the message's
      lifetime, short of acknowledging it, a pass after the delay sends it, when
      no in-flight entry is younger than the timeout and a listener has room. */
  lemma PublishedThenSent(cfg: Config, s: State, ms: seq<Message>, now: int, j: nat, steps: seq<Step>,
                          later: int, topics: seq<string>, l: Listener)
    requires cfg.env.Valid() && Inv(s) && j < |ms| && P.ItemsOf(cfg.env.codec, ms, now).Some?
    requires Enabled(cfg, s, Publish(P.ItemsOf(cfg.env.codec, ms, now).value))
    requires s.counter + |ms| < TWO64 && 0 <= now <= now + ms[j].delayMs <= later < METADATA_HORIZON
    requires P.DecodesBack(cfg.env.codec) && Distinct(topics) && ms[j].topic in topics
    requires ms[j].ttlMs == 0 || later < now + ms[j].ttlMs < TWO63
    requires AllInTime(steps, KeyOf(cfg, s, ms, now, j), P.ToStored(ms[j], now))
    requires var t := Run(cfg, s, [Publish(P.ItemsOf(cfg.env.codec, ms, now).value)] + steps);
             var k := KeyOf(cfg, s, ms, now, j);
             && (k !in t.inFlight || later - t.inFlight[k] >= cfg.env.timeoutMs)
             && RoomFor(t.hub, ms[j].topic, l, |UpTo(DueKeys(cfg.env, ms[j].topic, later, t.store), k)|)
    ensures var t := Run(cfg, s, [Publish(P.ItemsOf(cfg.env.codec, ms, now).value)] + steps);
            HubOK(t.hub) && PassSends(cfg, t, later, topics, KeyOf(cfg, s, ms, now, j))
  {
    hide P.ItemsOf;
    hide P.DecodesBack;
    hide Run;
    hide Inv;
    hide HubOK;
    hide Enabled;
    hide AllInTime;
    hide RoomFor;
    hide PassSends;
    hide ItemKey;
    hide AllTracked;
    var items := P.ItemsOf(cfg.env.codec, ms, now).value;
    var t := Run(cfg, s, [Publish(items)] + steps);
    StoredContent(cfg, ms, now, j);
    InvTracked(t);
    PublishedKept(cfg, s, items, j, P.ToStored(ms[j], now), steps);
    PublishedIsSent(cfg, s, ms, now, j, t, later, topics, l);
  }

  lemma StoredContent(cfg: Config, ms: seq<Message>, now: int, j: nat)
    requires cfg.env.Valid() && j < |ms| && P.ItemsOf(cfg.env.codec, ms, now).Some? && P.DecodesBack(cfg.env.codec)
    ensures cfg.env.codec.decode(P.ItemsOf(cfg.env.codec, ms, now).value[j].msg) == Some(P.ToStored(ms[j], now))
  {
    hide P.ItemsOf;
    hide P.ItemOf;
    P.BatchAcceptedIff(cfg.env.codec, ms, now);
    P.PublishedContent(cfg.env.codec, ms[j], now);
  }
}
