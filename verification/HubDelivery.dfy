/** Delivering one message through the hub: each group's selected consumer and
    every universal consumer, without ever blocking on a full queue. */
module HubDelivery {
  import opened Bytes
  import opened RoundRobin
  import opened Hub

  /** The connected consumers, their queues, the delivery tags recorded as in
      flight to each of them, and the rotation counters. */
  datatype HubState = HubState(registry: Registry, queues: map<string, seq<Delivery>>,
                               tags: map<string, seq<Bytes>>, next: Counters)

  function TagsOf(tags: map<string, seq<Bytes>>, id: string): seq<Bytes>
  {
    if id in tags then tags[id] else []
  }

  predicate HasRoom(h: HubState, c: Consumer)
  {
    c.id in h.queues && |h.queues[c.id]| < c.capacity
  }

  /** The member a group's rotation points at. */
  function Pick(h: HubState, topic: string, g: string): Consumer
    requires g in SubscriptionOf(h.registry, topic).groups && SubscriptionOf(h.registry, topic).groups[g] != []
  {
    var group := SubscriptionOf(h.registry, topic).groups[g];
    group[Chosen(CounterOf(h.next, GroupKey(topic, g)), |group|)]
  }

  predicate GroupsFilled(sub: Subscription)
  {
    forall g :: g in sub.groups ==> sub.groups[g] != []
  }

  function Picks(h: HubState, topic: string, gs: set<string>): set<Consumer>
    requires GroupsFilled(SubscriptionOf(h.registry, topic)) && gs <= SubscriptionOf(h.registry, topic).groups.Keys
  {
    set g | g in gs :: Pick(h, topic, g)
  }

  /** Everyone the message is for: one member of each group, all universals. */
  function Targets(h: HubState, topic: string): set<Consumer>
    requires GroupsFilled(SubscriptionOf(h.registry, topic))
  {
    var sub := SubscriptionOf(h.registry, topic);
    Picks(h, topic, sub.groups.Keys) + sub.universal.Values
  }

  function IdsWithRoom(h: HubState, cs: set<Consumer>): set<string>
  {
    set c | c in cs && HasRoom(h, c) :: c.id
  }

  /** A copy to each of these consumers that has room, and a tag for each copy. */
  function Sent(h: HubState, cs: set<Consumer>, d: Delivery): HubState
  {
    var ids := IdsWithRoom(h, cs);
    h.(queues := Queued(h.queues, ids, d), tags := Tagged(h.tags, ids, d.tag))
  }

  function Queued(queues: map<string, seq<Delivery>>, ids: set<string>, d: Delivery): map<string, seq<Delivery>>
  {
    map id | id in queues :: if id in ids then queues[id] + [d] else queues[id]
  }

  function Tagged(tags: map<string, seq<Bytes>>, ids: set<string>, tag: Bytes): map<string, seq<Bytes>>
  {
    map id | id in tags.Keys + ids :: TagsOf(tags, id) + if id in ids then [tag] else []
  }

  /** The counters the selected groups move to. */
  function Turns(next: Counters, topic: string, groups: map<string, seq<Consumer>>, gs: set<string>): Counters
    requires gs <= groups.Keys && forall g :: g in gs ==> groups[g] != []
  {
    GroupKeyInjective(topic);
    map g | g in gs :: GroupKey(topic, g) := Next(CounterOf(next, GroupKey(topic, g)), |groups[g]|)
  }

  /** The rotation after one selection in each of these groups. */
  function Rotated(next: Counters, topic: string, groups: map<string, seq<Consumer>>, gs: set<string>): Counters
    requires gs <= groups.Keys && forall g :: g in gs ==> groups[g] != []
  {
    next + Turns(next, topic, groups, gs)
  }

  function Dispatched(h: HubState, topic: string, d: Delivery): HubState
    requires GroupsFilled(SubscriptionOf(h.registry, topic))
  {
    var sub := SubscriptionOf(h.registry, topic);
    Sent(h, Targets(h, topic), d).(next := Rotated(h.next, topic, sub.groups, sub.groups.Keys))
  }

  // ── What one dispatch does ──────────────────────────────────────────────────

  /** Agreement of the indexes, and a queue for exactly the connected consumers. */
  ghost predicate HubOK(h: HubState)
  {
    Agrees(h.registry) && h.queues.Keys == h.registry.byID.Keys
  }

  lemma FilledGroups(x: Registry, topic: string)
    requires Agrees(x)
    ensures GroupsFilled(SubscriptionOf(x, topic))
  {
  }

  /** Targets are connected consumers of the topic, known by their own IDs. */
  lemma TargetsKnown(h: HubState, topic: string, c: Consumer)
    requires HubOK(h) && GroupsFilled(SubscriptionOf(h.registry, topic)) && c in Targets(h, topic)
    ensures c.topic == topic && SubscriptionOf(h.registry, topic).Has(c)
    ensures c.id in h.registry.byID && h.registry.byID[c.id] == c
  {
    var sub := SubscriptionOf(h.registry, topic);
    assert sub.Has(c);
    assert Indexed(h.registry, topic, c);
  }

  /** Who is for this message, said of each connected consumer on its own. */
  predicate Eligible(h: HubState, topic: string, c: Consumer)
    requires GroupsFilled(SubscriptionOf(h.registry, topic))
  {
    c.topic == topic &&
    (c.IsUniversal() || (c.group in SubscriptionOf(h.registry, topic).groups && c == Pick(h, topic, c.group)))
  }

  /** One dispatch is exact: a connected consumer's queue grows by the message,
      and its tags by the delivery tag, exactly when the consumer is universal on
      the topic or its group's selected member and its queue has room. Nothing
      else in the hub changes but the rotation of the topic's groups. */
  lemma OneDispatchIsExact(h: HubState, topic: string, d: Delivery, id: string)
    requires HubOK(h) && GroupsFilled(SubscriptionOf(h.registry, topic)) && id in h.registry.byID
    ensures var c, after := h.registry.byID[id], Dispatched(h, topic, d);
            var gets := Eligible(h, topic, c) && HasRoom(h, c);
            && after.queues[id] == h.queues[id] + (if gets then [d] else [])
            && TagsOf(after.tags, id) == TagsOf(h.tags, id) + (if gets then [d.tag] else [])
            && after.registry == h.registry
  {
    hide Agrees;
    hide Rotated;
    var c := h.registry.byID[id];
    EligibleIsTarget(h, topic, id);
    assert id in IdsWithRoom(h, Targets(h, topic)) <==> c in Targets(h, topic) && HasRoom(h, c) by {
      if id in IdsWithRoom(h, Targets(h, topic)) {
        var e :| e in Targets(h, topic) && HasRoom(h, e) && e.id == id;
        TargetsKnown(h, topic, e);
      }
      assert c.id == id;
    }
    assert h.queues[id] + [] == h.queues[id] && TagsOf(h.tags, id) + [] == TagsOf(h.tags, id);
  }

  lemma EligibleIsTarget(h: HubState, topic: string, id: string)
    requires HubOK(h) && GroupsFilled(SubscriptionOf(h.registry, topic)) && id in h.registry.byID
    ensures h.registry.byID[id].id == id
    ensures h.registry.byID[id] in Targets(h, topic) <==> Eligible(h, topic, h.registry.byID[id])
  {
    var c := h.registry.byID[id];
    var sub := SubscriptionOf(h.registry, topic);
    assert Found(h.registry, id);
    if c in Targets(h, topic) {
      TargetsKnown(h, topic, c);
      if c in Picks(h, topic, sub.groups.Keys) {
        var g :| g in sub.groups && c == Pick(h, topic, g);
        assert c in sub.groups[g] && c.group == g;
      }
    }
    if Eligible(h, topic, c) && c.IsUniversal() {
      assert sub.universal[id] == c && c in sub.universal.Values;
    }
  }

  /** Somebody receives the message exactly when some eligible consumer has room. */
  lemma SomeoneReachedIff(h: HubState, topic: string)
    requires HubOK(h) && GroupsFilled(SubscriptionOf(h.registry, topic))
    ensures IdsWithRoom(h, Targets(h, topic)) != {}
            <==> exists id ::
                   id in h.registry.byID && Eligible(h, topic, h.registry.byID[id]) && HasRoom(h, h.registry.byID[id])
  {
    hide Agrees;
    var ids := IdsWithRoom(h, Targets(h, topic));
    if ids != {} {
      var id :| id in ids;
      var c :| c in Targets(h, topic) && HasRoom(h, c) && c.id == id;
      TargetsKnown(h, topic, c);
      EligibleIsTarget(h, topic, c.id);
    }
    if id :| id in h.registry.byID && Eligible(h, topic, h.registry.byID[id]) && HasRoom(h, h.registry.byID[id]) {
      EligibleIsTarget(h, topic, id);
      assert h.registry.byID[id].id in ids;
    }
  }

  /** Dispatching keeps the hub consistent. */
  lemma DispatchKeepsHub(h: HubState, topic: string, d: Delivery)
    requires HubOK(h) && GroupsFilled(SubscriptionOf(h.registry, topic))
    ensures HubOK(Dispatched(h, topic, d))
    ensures Dispatched(h, topic, d).registry == h.registry
  {
  }

  // ── The running hub ─────────────────────────────────────────────────────────

  /** The non-blocking send of one copy to one consumer. */
  function Tried(h: HubState, c: Consumer, d: Delivery): HubState
  {
    if HasRoom(h, c)
    then h.(queues := h.queues[c.id := h.queues[c.id] + [d]], tags := h.tags[c.id := TagsOf(h.tags, c.id) + [d.tag]])
    else h
  }

  predicate OtherIds(cs: set<Consumer>, c: Consumer)
  {
    forall e :: e in cs ==> e.id != c.id
  }

  lemma IdsOneMore(h: HubState, cs: set<Consumer>, c: Consumer)
    requires OtherIds(cs, c)
    ensures c.id !in IdsWithRoom(h, cs)
    ensures IdsWithRoom(h, cs + {c}) == IdsWithRoom(h, cs) + if HasRoom(h, c) then {c.id} else {}
  {
    if HasRoom(h, c) { assert c in cs + {c}; }
  }

  lemma QueuedOneMore(queues: map<string, seq<Delivery>>, ids: set<string>, id: string, d: Delivery)
    requires id in queues && id !in ids
    ensures Queued(queues, ids, d)[id] == queues[id]
    ensures Queued(queues, ids, d)[id := queues[id] + [d]] == Queued(queues, ids + {id}, d)
  {
  }

  lemma TaggedOneMore(tags: map<string, seq<Bytes>>, ids: set<string>, id: string, tag: Bytes)
    requires id !in ids
    ensures TagsOf(Tagged(tags, ids, tag), id) == TagsOf(tags, id)
    ensures Tagged(tags, ids, tag)[id := TagsOf(tags, id) + [tag]] == Tagged(tags, ids + {id}, tag)
  {
    assert TagsOf(tags, id) + [] == TagsOf(tags, id);
  }

  /** Trying one more consumer extends what has been sent by that consumer. */
  lemma SendOneMore(h: HubState, cs: set<Consumer>, c: Consumer, d: Delivery, next: Counters)
    requires OtherIds(cs, c)
    ensures HasRoom(Sent(h, cs, d).(next := next), c) <==> HasRoom(h, c)
    ensures Tried(Sent(h, cs, d).(next := next), c, d) == Sent(h, cs + {c}, d).(next := next)
    ensures |IdsWithRoom(h, cs + {c})| == |IdsWithRoom(h, cs)| + if HasRoom(h, c) then 1 else 0
  {
    hide IdsWithRoom;
    hide Tagged;
    hide OtherIds;
    var ids := IdsWithRoom(h, cs);
    IdsOneMore(h, cs, c);
    if c.id in h.queues {
      QueuedOneMore(h.queues, ids, c.id, d);
    }
    hide Queued;
    TaggedOneMore(h.tags, ids, c.id, d.tag);
    if !HasRoom(h, c) { assert ids + {} == ids; }
  }

  lemma TurnsOneMore(next: Counters, topic: string, groups: map<string, seq<Consumer>>, gs: set<string>, g: string)
    requires gs <= groups.Keys && g in groups && g !in gs && forall k :: k in groups ==> groups[k] != []
    ensures GroupKey(topic, g) !in Turns(next, topic, groups, gs)
    ensures Turns(next, topic, groups, gs + {g})
            == Turns(next, topic, groups, gs)[GroupKey(topic, g)
                := Next(CounterOf(next, GroupKey(topic, g)), |groups[g]|)]
  {
    hide Turns;
    hide GroupKey;
    hide Next;
    hide CounterOf;
    var key, a, b := GroupKey(topic, g), Turns(next, topic, groups, gs + {g}), Turns(next, topic, groups, gs);
    if key in b {
      var x := TurnFrom(next, topic, groups, gs, key);
      GroupKeyInjective(topic);
    }
    TurnOf(next, topic, groups, gs + {g}, g);
    forall k | k in a ensures k == key || (k in b && b[k] == a[k]) {
      var x := TurnFrom(next, topic, groups, gs + {g}, k);
      TurnOf(next, topic, groups, gs + {g}, x);
      if x != g { TurnOf(next, topic, groups, gs, x); }
    }
    forall k | k in b ensures k in a {
      var x := TurnFrom(next, topic, groups, gs, k);
      TurnOf(next, topic, groups, gs + {g}, x);
    }
  }

  lemma TurnOf(next: Counters, topic: string, groups: map<string, seq<Consumer>>, gs: set<string>, g: string)
    requires gs <= groups.Keys && g in gs && forall k :: k in gs ==> groups[k] != []
    ensures GroupKey(topic, g) in Turns(next, topic, groups, gs)
    ensures Turns(next, topic, groups, gs)[GroupKey(topic, g)] == Next(CounterOf(next, GroupKey(topic, g)), |groups[g]|)
  {
    hide GroupKey;
    hide Next;
    hide CounterOf;
    GroupKeyInjective(topic);
  }

  lemma TurnFrom(next: Counters, topic: string, groups: map<string, seq<Consumer>>, gs: set<string>, key: string)
    returns (g: string)
    requires gs <= groups.Keys && (forall k :: k in gs ==> groups[k] != []) && key in Turns(next, topic, groups, gs)
    ensures g in gs && key == GroupKey(topic, g)
  {
    hide GroupKey;
    hide Next;
    hide CounterOf;
    g :| g in gs && key == GroupKey(topic, g);
  }

  lemma RotateOneMore(next: Counters, topic: string, groups: map<string, seq<Consumer>>, gs: set<string>, g: string)
    requires gs <= groups.Keys && g in groups && g !in gs && forall k :: k in groups ==> groups[k] != []
    ensures CounterOf(Rotated(next, topic, groups, gs), GroupKey(topic, g)) == CounterOf(next, GroupKey(topic, g))
    ensures Rotated(next, topic, groups, gs)[GroupKey(topic, g)
            := Next(CounterOf(next, GroupKey(topic, g)), |groups[g]|)]
            == Rotated(next, topic, groups, gs + {g})
  {
    var key := GroupKey(topic, g);
    var v, t := Next(CounterOf(next, key), |groups[g]|), Turns(next, topic, groups, gs);
    TurnsOneMore(next, topic, groups, gs, g);
    UpdateOnTop(next, t, key, v);
  }

  lemma UpdateOnTop(m: Counters, t: Counters, k: string, v: u64)
    ensures (m + t)[k := v] == m + t[k := v]
    ensures k !in t ==> CounterOf(m + t, k) == CounterOf(m, k)
  {
  }

  /** The hub after these groups of the topic have been served. */
  function Served(h: HubState, topic: string, gs: set<string>, d: Delivery): HubState
    requires GroupsFilled(SubscriptionOf(h.registry, topic)) && gs <= SubscriptionOf(h.registry, topic).groups.Keys
  {
    Sent(h, Picks(h, topic, gs), d).(next := Rotated(h.next, topic, SubscriptionOf(h.registry, topic).groups, gs))
  }

  /** One selection and one try in a group. */
  function ServedOne(h: HubState, key: string, group: seq<Consumer>, d: Delivery): HubState
    requires group != []
  {
    var idx := CounterOf(h.next, key);
    Tried(h.(next := h.next[key := Next(idx, |group|)]), group[Chosen(idx, |group|)], d)
  }

  lemma ServeOneMore(h: HubState, topic: string, gs: set<string>, g: string, d: Delivery)
    requires HubOK(h) && GroupsFilled(SubscriptionOf(h.registry, topic))
    requires gs + {g} <= SubscriptionOf(h.registry, topic).groups.Keys && g !in gs
    ensures var before, group := Served(h, topic, gs, d), SubscriptionOf(h.registry, topic).groups[g];
            var picked := group[Chosen(CounterOf(before.next, GroupKey(topic, g)), |group|)];
            && ServedOne(before, GroupKey(topic, g), group, d) == Served(h, topic, gs + {g}, d)
            && |IdsWithRoom(h, Picks(h, topic, gs + {g}))|
               == |IdsWithRoom(h, Picks(h, topic, gs))| + if HasRoom(before, picked) then 1 else 0
  {
    hide Agrees;
    hide Rotated;
    hide Sent;
    hide Tried;
    hide Picks;
    hide IdsWithRoom;
    var groups := SubscriptionOf(h.registry, topic).groups;
    RotateOneMore(h.next, topic, groups, gs, g);
    PicksApart(h, topic, gs, g);
    SendOneMore(h, Picks(h, topic, gs), Pick(h, topic, g), d, Rotated(h.next, topic, groups, gs + {g}));
    SendOneMore(h, Picks(h, topic, gs), Pick(h, topic, g), d, Rotated(h.next, topic, groups, gs));
  }

  function WithoutFirst(keys: seq<Bytes>, key: Bytes): seq<Bytes>
  {
    if keys == [] then [] else if keys[0] == key then keys[1..] else [keys[0]] + WithoutFirst(keys[1..], key)
  }

  lemma WithoutFirstAt(keys: seq<Bytes>, key: Bytes, i: nat)
    requires i < |keys|
    ensures keys[i] == key ==> WithoutFirst(keys[i..], key) == keys[i + 1..] && key in keys
                               && multiset(keys[..i] + keys[i + 1..]) == multiset(keys) - multiset{key}
    ensures keys[i] != key ==>
              keys[..i] + WithoutFirst(keys[i..], key) == keys[..i + 1] + WithoutFirst(keys[i + 1..], key)
              && keys[..i + 1] == keys[..i] + [keys[i]]
  {
    var tail := keys[i..];
    assert tail[0] == keys[i] && tail[1..] == keys[i + 1..];
    assert keys == keys[..i] + [keys[i]] + keys[i + 1..];
  }

  /** The hub after a consumer answered for one delivery tag, either way. */
  function Untagged(h: HubState, id: string, tag: Bytes): HubState
  {
    if tag in TagsOf(h.tags, id) then h.(tags := h.tags[id := WithoutFirst(h.tags[id], tag)]) else h
  }

  class MessageHub {
    var topics: map<string, Subscription>
    var byID: map<string, Consumer>
    var queues: map<string, seq<Delivery>>
    var inFlightByConsumer: map<string, seq<Bytes>>
    const strategy: RoundRobinStrategy

    constructor (strategy: RoundRobinStrategy)
      ensures this.strategy == strategy
      ensures State() == HubState(EMPTY_REGISTRY, map[], map[], strategy.next)
    {
      topics, byID, queues, inFlightByConsumer := map[], map[], map[], map[];
      this.strategy := strategy;
    }

    ghost function State(): HubState
      reads this, strategy
    {
      HubState(Registry(topics, byID), queues, inFlightByConsumer, strategy.next)
    }

    /** Consumer IDs are freshly generated for every connection. */
    method Register(c: Consumer)
      requires HubOK(State()) && c.id !in byID
      modifies this
      ensures HubOK(State())
      ensures State() == old(State()).(registry := Registered(old(State()).registry, c),
                                       queues := old(queues)[c.id := []])
    {
      RegisterAgrees(Registry(topics, byID), c);
      hide Agrees;
      hide Added;
      hide MayRegister;
      var sub := if c.topic in topics then topics[c.topic] else NO_SUBSCRIPTION;
      topics := topics[c.topic := Added(sub, c)];
      byID := byID[c.id := c];
      queues := queues[c.id := []];
    }

    /** Removes the entry, its topic when it was the last one there, and the
        record of what is in flight to it. */
    method Unregister(id: string)
      requires HubOK(State())
      modifies this
      ensures HubOK(State())
      ensures id !in old(byID) ==> State() == old(State())
      ensures id in old(byID) ==>
                State() == old(State()).(registry := Unregistered(old(State()).registry, id),
                                         queues := old(queues) - {id}, tags := old(inFlightByConsumer) - {id})
    {
      UnregisterAgrees(Registry(topics, byID), id);
      hide Agrees;
      if id !in byID {
        return;
      }
      var c := byID[id];
      if c.topic in topics {
        var sub := RemoveFrom(topics[c.topic], c);
        if sub.IsEmpty() {
          topics := topics - {c.topic};
        } else {
          topics := topics[c.topic := sub];
        }
      }
      byID := byID - {id};
      queues := queues - {id};
      inFlightByConsumer := inFlightByConsumer - {id};
    }

    method TrySend(c: Consumer, d: Delivery) returns (sent: bool)
      modifies this
      ensures sent <==> HasRoom(old(State()), c)
      ensures State() == Tried(old(State()), c, d)
    {
      sent := c.id in queues && |queues[c.id]| < c.capacity;
      if sent {
        queues := queues[c.id := queues[c.id] + [d]];
        inFlightByConsumer := inFlightByConsumer[c.id := TagsOf(inFlightByConsumer, c.id) + [d.tag]];
      }
    }

    method DispatchToGroup(key: string, group: seq<Consumer>, d: Delivery) returns (sent: bool)
      requires group != []
      modifies this, strategy
      ensures State() == ServedOne(old(State()), key, group, d)
      ensures sent <==> HasRoom(old(State()), group[Chosen(CounterOf(old(strategy.next), key), |group|)])
    {
      hide Chosen;
      hide Next;
      var i := strategy.Select(key, |group|);
      sent := TrySend(group[i], d);
    }

    method DispatchToGroups(topic: string, d: Delivery) returns (sentTo: seq<string>)
      requires HubOK(State()) && GroupsFilled(SubscriptionOf(State().registry, topic))
      modifies this, strategy
      ensures var h, groups := old(State()), SubscriptionOf(old(State()).registry, topic).groups.Keys;
              State() == Served(h, topic, groups, d) && |sentTo| == |IdsWithRoom(h, Picks(h, topic, groups))|
    {
      hide HubOK;
      hide Served;
      hide ServedOne;
      hide Picks;
      hide IdsWithRoom;
      hide GroupKey;
      ghost var h := State();
      var groups := SubscriptionOf(Registry(topics, byID), topic).groups;
      var rest := groups.Keys;
      sentTo := [];
      NothingSent(h, topic, d);
      assert groups.Keys - rest == {};
      while rest != {}
        invariant rest <= groups.Keys
        invariant State() == Served(h, topic, groups.Keys - rest, d)
        invariant |sentTo| == |IdsWithRoom(h, Picks(h, topic, groups.Keys - rest))|
        decreases rest
      {
        var g :| g in rest;
        ServeOneMore(h, topic, groups.Keys - rest, g, d);
        assert groups.Keys - rest + {g} == groups.Keys - (rest - {g});
        var sent := DispatchToGroup(GroupKey(topic, g), groups[g], d);
        if sent {
          sentTo := sentTo + [g];
        }
        rest := rest - {g};
      }
      assert groups.Keys - rest == groups.Keys;
    }

    method DispatchToUniversals(topic: string, universal: map<string, Consumer>, d: Delivery,
                                ghost h: HubState, ghost picked: set<Consumer>) returns (count: nat)
      requires State() == Sent(h, picked, d).(next := strategy.next)
      requires forall id :: id in universal ==> universal[id].id == id && OtherIds(picked, universal[id])
      modifies this
      ensures State() == Sent(h, picked + universal.Values, d).(next := strategy.next)
      ensures |IdsWithRoom(h, picked)| + count == |IdsWithRoom(h, picked + universal.Values)|
    {
      hide Sent;
      hide Tried;
      hide IdsWithRoom;
      var rest := universal.Keys;
      ghost var done: set<Consumer> := {};
      count := 0;
      assert picked + done == picked;
      while rest != {}
        invariant rest <= universal.Keys
        invariant done == set id | id in universal.Keys - rest :: universal[id]
        invariant State() == Sent(h, picked + done, d).(next := strategy.next)
        invariant |IdsWithRoom(h, picked)| + count == |IdsWithRoom(h, picked + done)|
        decreases rest
      {
        var id :| id in rest;
        SendOneMore(h, picked + done, universal[id], d, strategy.next);
        assert picked + done + {universal[id]} == picked + (done + {universal[id]});
        var sent := TrySend(universal[id], d);
        if sent {
          count := count + 1;
        }
        rest, done := rest - {id}, done + {universal[id]};
      }
      assert done == universal.Values;
    }

    /** The groups reached, then one empty group name per universal consumer reached. */
    method DispatchToTopic(topic: string, d: Delivery) returns (sentTo: seq<string>)
      requires HubOK(State()) && GroupsFilled(SubscriptionOf(State().registry, topic))
      modifies this, strategy
      ensures State() == Dispatched(old(State()), topic, d)
      ensures |sentTo| == |IdsWithRoom(old(State()), Targets(old(State()), topic))|
    {
      hide Agrees;
      hide Rotated;
      hide Sent;
      hide Picks;
      hide IdsWithRoom;
      ghost var h := State();
      if topic !in topics {
        NoSubscribers(h, topic, d);
        return [];
      }
      var sub := topics[topic];
      sentTo := DispatchToGroups(topic, d);
      UniversalsApart(h, topic);
      ghost var picked := Picks(h, topic, sub.groups.Keys);
      var count := DispatchToUniversals(topic, sub.universal, d, h, picked);
      sentTo := sentTo + seq(count, _ => "");
    }

    /** Drops the first record of this tag; called on ACK and on NACK. */
    method RemoveInFlightForConsumer(consumerID: string, key: Bytes)
      modifies this
      ensures State() == Untagged(old(State()), consumerID, key)
      ensures multiset(TagsOf(inFlightByConsumer, consumerID))
              == multiset(TagsOf(old(inFlightByConsumer), consumerID)) - multiset{key}
    {
      var keys := TagsOf(inFlightByConsumer, consumerID);
      for i := 0 to |keys|
        invariant key !in keys[..i] && WithoutFirst(keys, key) == keys[..i] + WithoutFirst(keys[i..], key)
        invariant State() == old(State())
      {
        WithoutFirstAt(keys, key, i);
        if keys[i] == key {
          inFlightByConsumer := inFlightByConsumer[consumerID := keys[..i] + keys[i + 1..]];
          return;
        }
      }
      assert keys[..|keys|] == keys;
    }
  }

  lemma NothingSent(h: HubState, topic: string, d: Delivery)
    requires GroupsFilled(SubscriptionOf(h.registry, topic))
    ensures Served(h, topic, {}, d) == h
    ensures IdsWithRoom(h, Picks(h, topic, {})) == {}
  {
    assert Picks(h, topic, {}) == {} && IdsWithRoom(h, {}) == {};
    SentNone(h, d);
  }

  lemma SentNone(h: HubState, d: Delivery)
    ensures Sent(h, {}, d) == h && IdsWithRoom(h, {}) == {}
  {
    assert IdsWithRoom(h, {}) == {};
    assert Queued(h.queues, {}, d) == h.queues;
    forall id | id in h.tags ensures Tagged(h.tags, {}, d.tag)[id] == h.tags[id] {
      assert h.tags[id] + [] == h.tags[id];
    }
    assert Tagged(h.tags, {}, d.tag) == h.tags;
  }

  lemma NoSubscribers(h: HubState, topic: string, d: Delivery)
    requires topic !in h.registry.topics
    ensures Dispatched(h, topic, d) == h && IdsWithRoom(h, Targets(h, topic)) == {}
  {
    assert Targets(h, topic) == {};
    SentNone(h, d);
    assert Rotated(h.next, topic, map[], {}) == h.next;
  }

  /** Members picked for different groups are different consumers. */
  lemma PicksApart(h: HubState, topic: string, gs: set<string>, g: string)
    requires HubOK(h) && GroupsFilled(SubscriptionOf(h.registry, topic))
    requires gs + {g} <= SubscriptionOf(h.registry, topic).groups.Keys && g !in gs
    ensures OtherIds(Picks(h, topic, gs), Pick(h, topic, g))
    ensures Picks(h, topic, gs + {g}) == Picks(h, topic, gs) + {Pick(h, topic, g)}
  {
    var sub := SubscriptionOf(h.registry, topic);
    forall e | e in Picks(h, topic, gs) ensures e.id != Pick(h, topic, g).id {
      var k :| k in gs && e == Pick(h, topic, k);
      assert e in sub.groups[k] && e.group == k && Pick(h, topic, g).group == g;
      assert sub.Has(e) && sub.Has(Pick(h, topic, g));
      assert Indexed(h.registry, topic, e) && Indexed(h.registry, topic, Pick(h, topic, g));
    }
  }

  /** A universal consumer is never a picked group member. */
  lemma UniversalsApart(h: HubState, topic: string)
    requires HubOK(h) && GroupsFilled(SubscriptionOf(h.registry, topic))
    ensures var sub := SubscriptionOf(h.registry, topic);
            forall id :: id in sub.universal ==>
              sub.universal[id].id == id && OtherIds(Picks(h, topic, sub.groups.Keys), sub.universal[id])
  {
    var sub := SubscriptionOf(h.registry, topic);
    forall id | id in sub.universal
      ensures sub.universal[id].id == id && OtherIds(Picks(h, topic, sub.groups.Keys), sub.universal[id])
    {
      var c := sub.universal[id];
      assert sub.Has(c) && Indexed(h.registry, topic, c);
      forall e | e in Picks(h, topic, sub.groups.Keys) ensures e.id != c.id {
        var k :| k in sub.groups && e == Pick(h, topic, k);
        assert e in sub.groups[k] && e.group == k;
        assert sub.Has(e) && Indexed(h.registry, topic, e);
      }
    }
  }
}
