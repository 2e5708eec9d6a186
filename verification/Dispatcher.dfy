/** The dispatch pass and the TTL sweep: bounded scans that hand due messages to
    the hub and expired ones to the deleter. */
module Dispatcher {
  import opened Bytes
  import opened Keys
  import opened Storage
  import opened Messages
  import opened Hub
  import opened HubDelivery
  import D = Deleter

  /** Configuration: the codec, the bucket size inside it, and how long a
      dispatched message counts as in flight (milliseconds). */
  datatype Env = Env(codec: Codec, timeoutMs: int)
  {
    predicate Valid() { codec.Valid() && timeoutMs >= 0 }
  }

  datatype Dispatch = Dispatch(key: Bytes, time: int)

  // ── One scanned key ─────────────────────────────────────────────────────────

  /** What a pass changes while it scans. */
  datatype Visits = Visits(inFlight: map<Bytes, int>, hub: HubState, expired: seq<Bytes>, sent: seq<Dispatch>)

  predicate Waiting(env: Env, inFlight: map<Bytes, int>, key: Bytes, now: int)
  {
    key in inFlight && now - inFlight[key] < env.timeoutMs
  }

  /** Somebody eligible on the topic has room. */
  ghost predicate Deliverable(h: HubState, topic: string)
    requires HubOK(h)
  {
    FilledGroups(h.registry, topic);
    IdsWithRoom(h, Targets(h, topic)) != {}
  }

  ghost function Offered(h: HubState, topic: string, d: Delivery): (r: HubState)
    requires HubOK(h)
    ensures HubOK(r) && r.registry == h.registry
  {
    FilledGroups(h.registry, topic);
    DispatchKeepsHub(h, topic, d);
    Dispatched(h, topic, d)
  }

  /** The scan callback on one key and its value. */
  ghost function Visit(env: Env, topic: string, now: int, v: Visits, key: Bytes, val: Bytes): (r: Visits)
    requires HubOK(v.hub)
    ensures HubOK(r.hub) && r.hub.registry == v.hub.registry
  {
    if Waiting(env, v.inFlight, key, now) then v
    else
      var cleared := v.(inFlight := v.inFlight - {key});
      match env.codec.decode(val)
      case None => cleared
      case Some(m) =>
        if Expired(m, now) then cleared.(expired := v.expired + [key])
        else
          var offered := cleared.(hub := Offered(v.hub, topic, Delivery(key, m)));
          if Deliverable(v.hub, topic)
          then offered.(inFlight := v.inFlight[key := now], sent := v.sent + [Dispatch(key, now)])
          else offered
  }

  /** One key of one topic's scan. */
  datatype Stop = Stop(topic: string, key: Bytes)

  ghost predicate StopsIn(stops: seq<Stop>, m: Store)
  {
    forall i :: 0 <= i < |stops| ==> stops[i].key in m
  }

  ghost function VisitAll(env: Env, now: int, v: Visits, stops: seq<Stop>, m: Store): (r: Visits)
    requires HubOK(v.hub) && StopsIn(stops, m)
    ensures HubOK(r.hub) && r.hub.registry == v.hub.registry
  {
    if stops == [] then v
    else
      var last := stops[|stops| - 1];
      Visit(env, last.topic, now, VisitAll(env, now, v, stops[..|stops| - 1], m), last.key, m[last.key])
  }

  lemma VisitNone(env: Env, now: int, v: Visits, m: Store)
    requires HubOK(v.hub)
    ensures VisitAll(env, now, v, [], m) == v
  {
  }

  lemma {:induction false} VisitConcat(env: Env, now: int, v: Visits, a: seq<Stop>, b: seq<Stop>, m: Store)
    requires HubOK(v.hub) && StopsIn(a, m) && StopsIn(b, m)
    ensures StopsIn(a + b, m)
    ensures VisitAll(env, now, v, a + b, m) == VisitAll(env, now, VisitAll(env, now, v, a, m), b, m)
  {
    hide HubOK;
    hide Visit;
    if b == [] {
      assert a + b == a;
    } else {
      VisitConcat(env, now, v, a, b[..|b| - 1], m);
      assert (a + b)[..|a + b| - 1] == a + b[..|b| - 1];
    }
  }

  // ── One pass ────────────────────────────────────────────────────────────────

  function DueKeys(env: Env, topic: string, now: int, m: Store): (keys: set<Bytes>)
    requires env.Valid() && -TWO63 <= now < TWO63
    ensures keys <= m.Keys
  {
    set k | k in m && InDueRange(k, env.codec.hash(topic), CalculateBucket(now, env.codec.bucketSize))
  }

  /** What one topic's scan yields, in key order. */
  ghost function Scan(env: Env, topic: string, now: int, m: Store): (stops: seq<Stop>)
    requires env.Valid() && -TWO63 <= now < TWO63
    ensures StopsIn(stops, m)
    ensures forall k :: Stop(topic, k) in stops <==> k in DueKeys(env, topic, now, m)
    ensures forall i :: 0 <= i < |stops| ==> stops[i].key in DueKeys(env, topic, now, m)
  {
    hide InDueRange;
    var keys := Ascending(DueKeys(env, topic, now, m));
    assert forall i :: 0 <= i < |keys| ==> keys[i] in keys;
    StopsOf(topic, keys)
  }

  function StopsOf(topic: string, keys: seq<Bytes>): (stops: seq<Stop>)
    ensures |stops| == |keys| && forall i :: 0 <= i < |keys| ==> stops[i] == Stop(topic, keys[i])
    ensures forall k :: Stop(topic, k) in stops <==> k in keys
  {
    var stops := seq(|keys|, i requires 0 <= i < |keys| => Stop(topic, keys[i]));
    assert forall i :: 0 <= i < |keys| ==> stops[i] == Stop(topic, keys[i]);
    stops
  }

  /** The whole pass: the topics in the order it happens to take them. */
  ghost function Route(env: Env, topics: seq<string>, now: int, m: Store): (stops: seq<Stop>)
    requires env.Valid() && -TWO63 <= now < TWO63
    ensures StopsIn(stops, m)
  {
    if topics == [] then []
    else Route(env, topics[..|topics| - 1], now, m) + Scan(env, topics[|topics| - 1], now, m)
  }

  predicate Distinct(topics: seq<string>)
  {
    forall i, j :: 0 <= i < j < |topics| ==> topics[i] != topics[j]
  }

  lemma NoTopics()
    ensures Distinct([])
  {
  }

  lemma DistinctMore(topics: seq<string>, topic: string)
    requires Distinct(topics) && topic !in topics
    ensures Distinct(topics + [topic])
  {
  }

  // ── The sweep ───────────────────────────────────────────────────────────────

  predicate SweptKey(env: Env, now: int, key: Bytes, val: Bytes)
  {
    |key| == EVENT_KEY_LEN && env.codec.decode(val).Some? && Expired(env.codec.decode(val).value, now)
  }

  function Filtered(env: Env, now: int, keys: seq<Bytes>, m: Store): (r: seq<Bytes>)
    requires forall i :: 0 <= i < |keys| ==> keys[i] in m
    ensures forall k :: k in r <==> k in keys && SweptKey(env, now, k, m[k])
  {
    if keys == [] then []
    else
      var last := keys[|keys| - 1];
      Filtered(env, now, keys[..|keys| - 1], m) + if SweptKey(env, now, last, m[last]) then [last] else []
  }

  lemma FilterNone(env: Env, now: int, m: Store)
    ensures Filtered(env, now, [], m) == []
  {
  }

  lemma FilterStep(env: Env, now: int, keys: seq<Bytes>, m: Store, i: nat)
    requires i < |keys| && forall j :: 0 <= j < |keys| ==> keys[j] in m
    ensures Filtered(env, now, keys[..i + 1], m)
            == Filtered(env, now, keys[..i], m) + if SweptKey(env, now, keys[i], m[keys[i]]) then [keys[i]] else []
  {
    hide SweptKey;
    assert keys[..i + 1][..i] == keys[..i];
  }

  ghost function Swept(env: Env, now: int, m: Store): (r: seq<Bytes>)
    ensures forall k :: k in r <==> k in m && SweptKey(env, now, k, m[k])
  {
    var keys := Ascending(m.Keys);
    assert forall i :: 0 <= i < |keys| ==> keys[i] in keys;
    Filtered(env, now, keys, m)
  }

  // ── The running dispatcher and janitor ──────────────────────────────────────

  method MarkAll(deleter: D.KeyDeleter, keys: seq<Bytes>)
    requires D.Conserved(deleter.State())
    modifies deleter
    ensures deleter.State() == D.Marked(old(deleter.State()), keys) && D.Conserved(deleter.State())
  {
    ghost var q := deleter.State();
    assert q.pending + [] == q.pending && q.marked + [] == q.marked;
    for i := 0 to |keys|
      invariant deleter.State() == D.Marked(q, keys[..i]) && D.Conserved(deleter.State())
    {
      assert keys[..i + 1] == keys[..i] + [keys[i]];
      deleter.MarkDeleted(keys[i]);
    }
    assert keys[..|keys|] == keys;
  }

  class MessageDispatcher {
    const env: Env
    const db: DB
    const hub: MessageHub
    const deleter: D.KeyDeleter
    var inFlight: map<Bytes, int>

    constructor (env: Env, db: DB, hub: MessageHub, deleter: D.KeyDeleter)
      ensures this.env == env && this.db == db && this.hub == hub && this.deleter == deleter && inFlight == map[]
    {
      this.env, this.db, this.hub, this.deleter, inFlight := env, db, hub, deleter, map[];
    }

    method RemoveInFlightBatch(keys: seq<Bytes>)
      modifies this
      ensures inFlight == old(inFlight) - (set k | k in keys)
    {
      ghost var before := inFlight;
      for i := 0 to |keys|
        invariant inFlight == before - (set k | k in keys[..i])
      {
        assert keys[..i + 1] == keys[..i] + [keys[i]];
        inFlight := inFlight - {keys[i]};
      }
      assert keys[..|keys|] == keys;
    }

    /** Forgets a timed-out entry as a side effect. */
    method IsInFlight(key: Bytes, now: int) returns (r: bool)
      modifies this
      ensures r <==> key in old(inFlight) && now - old(inFlight[key]) < env.timeoutMs
      ensures inFlight == if r then old(inFlight) else old(inFlight) - {key}
    {
      if key !in inFlight {
        assert inFlight - {key} == inFlight;
        return false;
      }
      if now - inFlight[key] < env.timeoutMs {
        return true;
      }
      inFlight := inFlight - {key};
      return false;
    }

    method VisitKey(topic: string, now: int, key: Bytes, val: Bytes, expired: seq<Bytes>, ghost sent: seq<Dispatch>)
      returns (expired': seq<Bytes>, dispatched: nat, ghost sent': seq<Dispatch>)
      requires HubOK(hub.State())
      modifies this, hub, hub.strategy
      ensures HubOK(hub.State())
      ensures Visits(inFlight, hub.State(), expired', sent')
              == Visit(env, topic, now, old(Visits(inFlight, hub.State(), expired, sent)), key, val)
      ensures |sent'| == |sent| + dispatched
    {
      hide Dispatched;
      hide Targets;
      hide Agrees;
      expired', dispatched, sent' := expired, 0, sent;
      ghost var h := hub.State();
      FilledGroups(h.registry, topic);
      var waiting := IsInFlight(key, now);
      if waiting {
        return;
      }
      var decoded := env.codec.decode(val);
      if decoded.None? {
        return;
      }
      var msg := decoded.value;
      if Expired(msg, now) {
        expired' := expired + [key];
        return;
      }
      DispatchKeepsHub(h, topic, Delivery(key, msg));
      var sentTo := hub.DispatchToTopic(topic, Delivery(key, msg));
      if |sentTo| > 0 {
        assert old(inFlight)[key := now] == (old(inFlight) - {key})[key := now];
        inFlight := inFlight[key := now];
        dispatched, sent' := 1, sent + [Dispatch(key, now)];
      }
    }

    /** The scan of one topic: every key in the given order. */
    method VisitKeys(topic: string, now: int, keys: seq<Bytes>, ghost stops: seq<Stop>, ghost sent: seq<Dispatch>)
      returns (expired: seq<Bytes>, dispatched: nat, ghost sent': seq<Dispatch>)
      requires HubOK(hub.State()) && StopsIn(stops, db.data) && stops == StopsOf(topic, keys)
      modifies this, hub, hub.strategy
      ensures HubOK(hub.State())
      ensures Visits(inFlight, hub.State(), expired, sent')
              == VisitAll(env, now, old(Visits(inFlight, hub.State(), [], sent)), stops, db.data)
      ensures |sent'| == |sent| + dispatched
    {
      hide Visit;
      hide HubOK;
      expired, dispatched, sent' := [], 0, sent;
      ghost var start := Visits(inFlight, hub.State(), [], sent);
      for i := 0 to |keys|
        invariant HubOK(hub.State())
        invariant Visits(inFlight, hub.State(), expired, sent') == VisitAll(env, now, start, stops[..i], db.data)
        invariant |sent'| == |sent| + dispatched
      {
        assert stops[..i + 1][..i] == stops[..i];
        var n;
        expired, n, sent' := VisitKey(topic, now, keys[i], db.data[keys[i]], expired, sent');
        dispatched := dispatched + n;
      }
      assert stops[..|keys|] == stops;
    }

    /** One topic: scans the due range and passes the expired keys on. */
    method DispatchTopic(topic: string, now: int, ghost sent: seq<Dispatch>)
      returns (dispatched: nat, ghost sent': seq<Dispatch>)
      requires env.Valid() && -TWO63 <= now < TWO63
      requires HubOK(hub.State()) && D.Conserved(deleter.State())
      modifies this, hub, hub.strategy, deleter
      ensures HubOK(hub.State()) && D.Conserved(deleter.State())
      ensures var v := VisitAll(env, now, old(Visits(inFlight, hub.State(), [], sent)),
              Scan(env, topic, now, db.data), db.data);
              && Visits(inFlight, hub.State(), v.expired, sent') == v
              && deleter.State() == D.Marked(old(deleter.State()), v.expired)
      ensures |sent'| == |sent| + dispatched
    {
      hide VisitAll;
      hide HubOK;
      hide D.Conserved;
      hide D.Marked;
      hide DueKeys;
      var due := DueKeys(env, topic, now, db.data);
      var keys := db.InOrder(due);
      ghost var stops := Scan(env, topic, now, db.data);
      assert stops == StopsOf(topic, keys);
      var expired;
      expired, dispatched, sent' := VisitKeys(topic, now, keys, stops, sent);
      MarkAll(deleter, expired);
    }

    /** A full pass over the topics that have consumers, in some order. */
    method DispatchAll(now: int, ghost sent: seq<Dispatch>)
      returns (dispatched: nat, ghost order: seq<string>, ghost sent': seq<Dispatch>)
      requires env.Valid() && -TWO63 <= now < TWO63
      requires HubOK(hub.State()) && D.Conserved(deleter.State())
      modifies this, hub, hub.strategy, deleter
      ensures HubOK(hub.State()) && D.Conserved(deleter.State())
      ensures Distinct(order) && forall t :: t in order <==> t in old(hub.topics)
      ensures var v := VisitAll(env, now, old(Visits(inFlight, hub.State(), [], sent)),
              Route(env, order, now, db.data), db.data);
              && Visits(inFlight, hub.State(), v.expired, sent') == v
              && deleter.State() == D.Marked(old(deleter.State()), v.expired)
      ensures |sent'| == |sent| + dispatched
    {
      hide HubOK;
      hide VisitAll;
      hide Scan;
      hide StopsIn;
      hide D.Conserved;
      hide Distinct;
      NoTopics();
      dispatched, order, sent' := 0, [], sent;
      ghost var start, q := Visits(inFlight, hub.State(), [], sent), deleter.State();
      ghost var expired: seq<Bytes> := [];
      assert q.pending + [] == q.pending && q.marked + [] == q.marked;
      VisitNone(env, now, start, db.data);
      var active := hub.topics.Keys;
      var rest := active;
      while rest != {}
        invariant HubOK(hub.State()) && D.Conserved(deleter.State()) && hub.State().registry == start.hub.registry
        invariant rest <= active && Distinct(order) && forall t :: t in order <==> t in active - rest
        invariant Visits(inFlight, hub.State(), expired, sent')
                    == VisitAll(env, now, start, Route(env, order, now, db.data), db.data)
        invariant deleter.State() == D.Marked(q, expired)
        invariant |sent'| == |sent| + dispatched
        decreases rest
      {
        var topic :| topic in rest;
        ghost var v := Visits(inFlight, hub.State(), [], sent');
        ghost var stops := Scan(env, topic, now, db.data);
        ExpiredStayInFront(env, now, v, stops, db.data, expired);
        VisitConcat(env, now, start, Route(env, order, now, db.data), stops, db.data);
        assert (order + [topic])[..|order|] == order;
        DistinctMore(order, topic);
        ghost var more := VisitAll(env, now, v, stops, db.data).expired;
        assert q.pending + expired + more == q.pending + (expired + more);
        assert q.marked + expired + more == q.marked + (expired + more);
        var n;
        n, sent' := DispatchTopic(topic, now, sent');
        dispatched, order, expired, rest := dispatched + n, order + [topic], expired + more, rest - {topic};
      }
    }
  }

  lemma ExpiredInFrontOnce(env: Env, topic: string, now: int, v: Visits, key: Bytes, val: Bytes, e: seq<Bytes>)
    requires HubOK(v.hub)
    ensures var r := Visit(env, topic, now, v, key, val);
            Visit(env, topic, now, v.(expired := e + v.expired), key, val) == r.(expired := e + r.expired)
  {
    hide HubOK;
    hide Offered;
    hide Deliverable;
    assert e + (v.expired + [key]) == (e + v.expired) + [key];
  }

  /** Earlier expired keys do not influence a scan; they stay in front. */
  lemma {:induction false} ExpiredStayInFront(env: Env, now: int, v: Visits, stops: seq<Stop>, m: Store, e: seq<Bytes>)
    requires HubOK(v.hub) && v.expired == [] && StopsIn(stops, m)
    ensures var r := VisitAll(env, now, v, stops, m);
            VisitAll(env, now, v.(expired := e), stops, m) == r.(expired := e + r.expired)
  {
    hide HubOK;
    hide Visit;
    if stops == [] {
      assert e + [] == e;
    } else {
      var init, last := stops[..|stops| - 1], stops[|stops| - 1];
      ExpiredStayInFront(env, now, v, init, m, e);
      ExpiredInFrontOnce(env, last.topic, now, VisitAll(env, now, v, init, m), last.key, m[last.key], e);
    }
  }

  method IsSwept(env: Env, now: int, key: Bytes, val: Bytes) returns (r: bool)
    ensures r <==> SweptKey(env, now, key, val)
  {
    if ParseEventKey(key).None? {
      return false;
    }
    var msg := env.codec.decode(val);
    if msg.None? || msg.value.ttlMs <= 0 {
      return false;
    }
    return now >= Int64(msg.value.enqueuedAtMs + msg.value.ttlMs);
  }

  /** One full scan: expired events are marked for deletion, other keys skipped. */
  method Sweep(env: Env, db: DB, deleter: D.KeyDeleter, now: int)
    requires D.Conserved(deleter.State())
    modifies deleter
    ensures deleter.State() == D.Marked(old(deleter.State()), Swept(env, now, db.data)) && D.Conserved(deleter.State())
  {
    hide SweptKey;
    hide Filtered;
    hide D.Conserved;
    hide D.Marked;
    var keys := db.InOrder(db.data.Keys);
    assert forall i :: 0 <= i < |keys| ==> keys[i] in keys;
    var expired: seq<Bytes> := [];
    FilterNone(env, now, db.data);
    assert keys[..0] == [];
    for i := 0 to |keys|
      invariant deleter.State() == old(deleter.State())
      invariant expired == Filtered(env, now, keys[..i], db.data)
    {
      FilterStep(env, now, keys, db.data, i);
      var swept := IsSwept(env, now, keys[i], db.data[keys[i]]);
      if swept {
        expired := expired + [keys[i]];
      }
    }
    assert keys[..|keys|] == keys;
    MarkAll(deleter, expired);
  }
}
