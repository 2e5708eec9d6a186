/** Claims that fail, each shown on one concrete run. */
module Counterexamples {
  import opened Bytes
  import opened Keys
  import opened Storage
  import opened Messages
  import opened EventCommands
  import opened EventReplica
  import opened EventRecovery
  import opened EventSnapshot
  import opened WritePaths
  import EventIds
  import Hub
  import HubDelivery
  import Disp = Dispatcher
  import Pass = DispatchPass
  import B = Broker
  import Runs = BrokerRuns
  import Delivery = BrokerDelivery

  const ITEM := StoreItem(0, 0, [], [])

  // ── Recovery without reopening the repository ───────────────────────────────

  /** An empty replica that has stored one message. */
  function Saved(): Replica
  {
    Updated(Opened(map[]), [Entry(1, EncodeStore([ITEM]))])
  }

  lemma SavedState()
    ensures Saved().counter == 1 && Saved().applied == 1 && StoreFits(Saved().store)
    ensures APPLIED_INDEX_KEY in Saved().store && ReadWord(Saved().store, APPLIED_INDEX_KEY) == 1
    ensures LogStored([Entry(2, EncodeStore([ITEM]))]) == [ITEM]
  {
    hide EncodeStore;
    hide DecodeStore;
    hide AfterEntry;
    hide Stored;
    hide LogStored;
    hide BigEndian;
    hide Uint64;
    var cmd := EncodeStore([ITEM]);
    assert BatchFits([ITEM]) by { assert ItemFits(ITEM); }
    CarriedIff([ITEM]);
    OneEntry(Opened(map[]), 1, cmd);
    OneEntry(Opened(map[]), 2, cmd);
    EntryKeepsShort(map[], 0, cmd);
    MetadataKeysDiffer();
    Uint64OfPut(1, []);
    assert BigEndian(1, 8) + [] == BigEndian(1, 8);
  }

  /** An empty replica recovers the snapshot and then applies one more entry: its
      storage differs from that of the replica it recovered from. */
  lemma RecoveredDiverges()
    ensures var keys := Ascending(Saved().store.Keys);
            var recovered, more := Recovered(Opened(map[]), Snapshot(Saved().store, keys)),
                [Entry(2, EncodeStore([ITEM]))];
            recovered.store == Saved().store && Updated(recovered, more).store != Updated(Saved(), more).store
  {
    hide Saved;
    hide EncodeStore;
    hide Updated;
    hide LogStored;
    hide Snapshot;
    hide Recovered;
    hide StoreFits;
    SavedState();
    var keys := Ascending(Saved().store.Keys);
    var more := [Entry(2, EncodeStore([ITEM]))];
    assert Enumerates(keys, Saved().store);
    SnapshotRestores(Saved().store, keys, Opened(map[]));
    WithoutReopenIff(Saved(), Opened(map[]), keys, more);
  }

  // ── A node with one consumer and one message ────────────────────────────────

  // The message is for topic "t"; every topic has the same hash.

  const MESSAGE := StoredMessage("t", [], 0, 0, 0, [])
  const CFG := B.Config(Disp.Env(Codec(_ => Some([]), _ => Some([]), _ => Some(MESSAGE), _ => 0, 0), 1000), false)
  const KEY := EventKey(0, 0, 1)

  ghost function Then(s: B.State, step: B.Step): (t: B.State)
    requires B.Inv(s)
    ensures B.Inv(t)
  {
    B.StepKeepsInv(CFG, s, step);
    B.Next(CFG, s, step)
  }

  function Reader(topic: string): Hub.Consumer
  {
    Hub.Consumer("c", topic, "", 1024)
  }

  /** A new node: a universal consumer of the topic connects, and one message is
      stored. */
  ghost function Ready(topic: string): (s: B.State)
    ensures B.Inv(s)
  {
    B.FreshInv();
    Then(Then(B.INITIAL, B.Join(Reader(topic))), B.Publish([ITEM]))
  }

  lemma ReadyStore(topic: string)
    ensures var s := Ready(topic);
            && s.store == BatchWrites([ITEM], 0) && s.inFlight == map[] && s.sent == []
            && s.hub.registry.byID == map["c" := Reader(topic)] && s.hub.queues == map["c" := []]
  {
    hide BatchWrites;
    hide B.Inv;
    B.FreshInv();
    var s1 := Then(B.INITIAL, B.Join(Reader(topic)));
    assert s1.store == map[] && s1.counter == 0;
    assert EventIds.CleanItems([ITEM]);
    assert map[] + BatchWrites([ITEM], 0) == BatchWrites([ITEM], 0);
  }

  lemma OneEvent()
    ensures KEY in BatchWrites([ITEM], 0) && |BatchWrites([ITEM], 0)| == 2
  {
    hide BigEndian;
    BatchOfOne(ITEM, 0);
    MetadataKeysDiffer();
    assert IndexWrites([], KEY) == map[];
    var w := map[LAST_ID_KEY := BigEndian(1, 8)][KEY := []];
    assert BatchWrites([ITEM], 0) == w;
    assert w.Keys == {LAST_ID_KEY, KEY};
  }

  lemma KeyIsDue(topic: string, now: int)
    requires 0 <= now < METADATA_HORIZON
    ensures KEY in Disp.DueKeys(CFG.env, topic, now, BatchWrites([ITEM], 0))
  {
    hide BatchWrites;
    hide InDueRange;
    hide EventKey;
    OneEvent();
    DueEventsExact(EventParts(0, 0, 1), 0, CalculateBucket(now, 0));
  }

  lemma FewerThan(due: set<Bytes>, m: Storage.Store, k: Bytes)
    requires due <= m.Keys
    ensures |UpTo(due, k)| <= |m|
  {
    assert |m.Keys| == |UpTo(due, k)| + |m.Keys - UpTo(due, k)|;
  }

  lemma RoomAtFive(topic: string, due: set<Bytes>)
    requires due <= BatchWrites([ITEM], 0).Keys
    ensures Pass.RoomFor(Ready(topic).hub, topic, Pass.Universal("c"), |UpTo(due, KEY)|)
  {
    hide Ready;
    hide BatchWrites;
    hide EventKey;
    hide UpTo;
    ReadyStore(topic);
    OneEvent();
    FewerThan(due, BatchWrites([ITEM], 0), KEY);
  }

  lemma SentAtFive(topic: string)
    ensures HubDelivery.HubOK(Ready(topic).hub) && Delivery.PassSends(CFG, Ready(topic), 5, [topic], KEY)
  {
    hide Ready;
    hide B.Inv;
    hide HubDelivery.HubOK;
    hide BatchWrites;
    hide Disp.DueKeys;
    hide Pass.RoomFor;
    hide Delivery.PassSends;
    hide EventKey;
    hide UpTo;
    var s := Ready(topic);
    B.InvTracked(s);
    ReadyStore(topic);
    OneEvent();
    KeyIsDue(topic, 5);
    RoomAtFive(topic, Disp.DueKeys(CFG.env, topic, 5, s.store));
    Delivery.ScannedIsSent(CFG, s, 5, [topic], topic, KEY, Pass.Universal("c"));
  }

  // ── A NACK inside the in-flight timeout ─────────────────────────────────────

  /** The message is sent at time 5 and answered with a NACK. It is stored and in
      the due range at time 6, but a pass at time 6 does not send it again. */
  lemma NackedMessageWaits()
    ensures var nacked := Then(Then(Ready("t"), B.Pass(5, ["t"])), B.Nack("c", KEY));
            && HubDelivery.HubOK(nacked.hub) && !Delivery.PassSends(CFG, nacked, 6, ["t"], KEY)
            && KEY in Disp.DueKeys(CFG.env, "t", 6, nacked.store)
  {
    hide Ready;
    hide B.Inv;
    hide B.Next;
    hide HubDelivery.HubOK;
    hide BatchWrites;
    hide Disp.DueKeys;
    hide Delivery.PassSends;
    hide EventKey;
    SentAtFive("t");
    ReadyStore("t");
    KeyIsDue("t", 6);
    Delivery.NackInsideTimeout(CFG, Ready("t"), 5, ["t"], KEY, "c", 6, ["t"]);
  }

  // ── Two topics with one hash ────────────────────────────────────────────────

  /** A consumer of topic "u" is sent a message published to topic "t". */
  lemma WrongTopicDelivered()
    ensures var s := Then(Ready("u"), B.Pass(5, ["u"]));
            && "c" in s.hub.registry.byID && s.hub.registry.byID["c"].topic == "u"
            && "c" in s.hub.queues && Hub.Delivery(KEY, MESSAGE) in s.hub.queues["c"] && MESSAGE.topic == "t"
  {
    hide Ready;
    hide B.Inv;
    hide HubDelivery.HubOK;
    hide Disp.VisitAll;
    hide Disp.Route;
    hide BatchWrites;
    hide EventKey;
    SentAtFive("u");
    ReadyStore("u");
    var s, t := Ready("u"), Then(Ready("u"), B.Pass(5, ["u"]));
    var stops := Disp.Route(CFG.env, ["u"], 5, s.store);
    Delivery.PassLog(CFG, s, 5, ["u"]);
    Pass.SentIsQueued(CFG.env, 5, Delivery.Start(s), stops, s.store, KEY);
    B.InvTracked(t);
    OnlyQueue(t.hub, Hub.Delivery(KEY, MESSAGE));
  }

  lemma OnlyQueue(h: HubDelivery.HubState, d: Hub.Delivery)
    requires HubDelivery.HubOK(h) && h.registry.byID == map["c" := Reader("u")] && Pass.InSomeQueue(h.queues, d)
    ensures "c" in h.queues && d in h.queues["c"]
  {
    var id :| id in h.queues && d in h.queues[id];
    assert id in h.registry.byID;
  }

  // ── A TTL that overflows the clock ──────────────────────────────────────────

  const LONG := StoredMessage("t", [], 1, 0, TWO63 - 1, [])
  const LONG_CFG := B.Config(Disp.Env(Codec(_ => Some([]), _ => Some([]), _ => Some(LONG), _ => 0, 0), 1000), false)

  /** A message published at time 1 with the largest TTL is stored, and gone after
      one sweep at time 1 and one flush. Nobody acknowledged it. */
  lemma LostAtOnce()
    ensures B.Inv(B.INITIAL)
    ensures var s := B.Run(LONG_CFG, B.INITIAL, [B.Publish([ITEM])]);
            KEY in s.store && KEY !in B.Run(LONG_CFG, s, [B.Sweep(1)] + Runs.FLUSH).store
  {
    B.FreshInv();
    hide B.Inv;
    hide B.Run;
    hide BatchWrites;
    hide EventKey;
    hide EventIds.Persisted;
    var s := B.Run(LONG_CFG, B.INITIAL, [B.Publish([ITEM])]);
    assert EventIds.CleanItems([ITEM]);
    Runs.RunOne(LONG_CFG, B.INITIAL, B.Publish([ITEM]));
    Runs.PublishedIsHeld(B.INITIAL, [ITEM], 0);
    LongestTtlIsNone();
    Runs.SweptAway(LONG_CFG, s, 1, KEY, []);
  }
}
