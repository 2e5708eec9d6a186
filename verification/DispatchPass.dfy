/** What every dispatch pass guarantees, whatever it scans and whoever listens. */
module DispatchPass {
  import opened Bytes
  import opened Keys
  import opened Storage
  import opened Messages
  import opened Hub
  import opened HubDelivery
  import opened Dispatcher

  /** The stored message under this key decodes and has outlived its TTL. */
  predicate Outlived(env: Env, m: Store, k: Bytes, now: int)
  {
    k in m && env.codec.decode(m[k]).Some? && Expired(env.codec.decode(m[k]).value, now)
  }

  /** A pass hands over for deletion only keys whose TTL has elapsed. */
  lemma {:induction false} OnlyOutlivedExpire(env: Env, now: int, v: Visits, stops: seq<Stop>, m: Store, k: Bytes)
    requires HubOK(v.hub) && StopsIn(stops, m)
    ensures k in VisitAll(env, now, v, stops, m).expired ==> k in v.expired || (k in m && Outlived(env, m, k, now))
  {
    hide HubOK;
    hide Offered;
    hide Deliverable;
    if stops != [] { OnlyOutlivedExpire(env, now, v, stops[..|stops| - 1], m, k); }
  }

  /** A pass only appends to the dispatch log, at its own time, for stored keys. */
  lemma {:induction false} SentGrows(env: Env, now: int, v: Visits, stops: seq<Stop>, m: Store)
    requires HubOK(v.hub) && StopsIn(stops, m)
    ensures var r := VisitAll(env, now, v, stops, m);
            v.sent <= r.sent && forall i :: |v.sent| <= i < |r.sent| ==> r.sent[i].time == now && r.sent[i].key in m
  {
    hide HubOK;
    hide Offered;
    hide Deliverable;
    if stops != [] { SentGrows(env, now, v, stops[..|stops| - 1], m); }
  }

  /** The scan is exact: a stored event is scanned for a topic if and only if it
      has the topic's hash and its bucket has begun. */
  lemma DueKeysExact(env: Env, topic: string, now: int, m: Store, k: Bytes)
    requires env.Valid() && 0 <= now < TWO63 && k in m && |k| == EVENT_KEY_LEN
    ensures k in DueKeys(env, topic, now, m)
            <==> HashOf(k) == env.codec.hash(topic) && BucketOf(k) * BucketMs(env.codec.bucketSize) <= now
  {
    hide InDueRange;
    hide CalculateBucket;
    hide BucketMs;
    hide Uint64;
    var b := CalculateBucket(now, env.codec.bucketSize);
    DueRangeExact(k, env.codec.hash(topic), b);
    BucketBegun(BucketOf(k), now, env.codec.bucketSize);
  }

  lemma CounterNotDue(env: Env, topic: string, now: int, m: Store)
    requires env.Valid() && 0 <= now < METADATA_HORIZON
    ensures LAST_ID_KEY !in DueKeys(env, topic, now, m)
  {
    BucketIsQuotient(now, env.codec.bucketSize);
    DivAtMost(now, BucketMs(env.codec.bucketSize));
    MetadataNeverDue(env.codec.hash(topic), CalculateBucket(now, env.codec.bucketSize));
  }

  lemma {:induction false} NeverScanned(env: Env, topics: seq<string>, now: int, m: Store, k: Bytes)
    requires env.Valid() && -TWO63 <= now < TWO63
    requires forall t :: k !in DueKeys(env, t, now, m)
    ensures forall i :: 0 <= i < |Route(env, topics, now, m)| ==> Route(env, topics, now, m)[i].key != k
  {
    hide DueKeys;
    if topics != [] {
      NeverScanned(env, topics[..|topics| - 1], now, m, k);
    }
  }

  /** The counter key is never scanned before the metadata horizon. */
  lemma CounterNeverScanned(env: Env, topics: seq<string>, now: int, m: Store)
    requires env.Valid() && 0 <= now < METADATA_HORIZON
    ensures forall i :: 0 <= i < |Route(env, topics, now, m)| ==> Route(env, topics, now, m)[i].key != LAST_ID_KEY
  {
    hide DueKeys;
    forall t ensures LAST_ID_KEY !in DueKeys(env, t, now, m) {
      CounterNotDue(env, t, now, m);
    }
    NeverScanned(env, topics, now, m, LAST_ID_KEY);
  }

  lemma {:induction false} ExpiredWereScanned(env: Env, now: int, v: Visits, stops: seq<Stop>, m: Store, k: Bytes)
    requires HubOK(v.hub) && StopsIn(stops, m)
    requires k !in v.expired && forall i :: 0 <= i < |stops| ==> stops[i].key != k
    ensures k !in VisitAll(env, now, v, stops, m).expired
  {
    hide HubOK;
    hide Offered;
    hide Deliverable;
    if stops != [] { ExpiredWereScanned(env, now, v, stops[..|stops| - 1], m, k); }
  }

  // ── Redelivery spacing ──────────────────────────────────────────────────────

  /** Why a logged dispatch cannot be followed by an early second one: its key is
      no stored event, it is still in flight, or its time is up. */
  predicate Covered(env: Env, m: Store, inFlight: map<Bytes, int>, clock: int, e: Dispatch)
  {
    |e.key| == EVENT_KEY_LEN && e.key in m ==>
      (e.key in inFlight && inFlight[e.key] >= e.time) || clock - e.time >= env.timeoutMs
  }

  predicate AllCovered(env: Env, m: Store, inFlight: map<Bytes, int>, clock: int, sent: seq<Dispatch>)
  {
    forall i :: 0 <= i < |sent| ==> Covered(env, m, inFlight, clock, sent[i])
  }

  /** Two dispatches of one event are at least the timeout apart. */
  predicate Spaced(env: Env, sent: seq<Dispatch>)
  {
    forall i, j :: 0 <= i < j < |sent| && sent[i].key == sent[j].key && |sent[i].key| == EVENT_KEY_LEN ==>
      sent[j].time - sent[i].time >= env.timeoutMs
  }

  lemma VisitSpaces(env: Env, topic: string, now: int, v: Visits, key: Bytes, m: Store)
    requires HubOK(v.hub) && key in m && env.timeoutMs >= 0
    requires AllCovered(env, m, v.inFlight, now, v.sent) && Spaced(env, v.sent)
    ensures var r := Visit(env, topic, now, v, key, m[key]);
            AllCovered(env, m, r.inFlight, now, r.sent) && Spaced(env, r.sent)
  {
    hide HubOK;
    hide Offered;
    hide Deliverable;
    var r := Visit(env, topic, now, v, key, m[key]);
    if !Waiting(env, v.inFlight, key, now) {
      forall i | 0 <= i < |v.sent| ensures Covered(env, m, r.inFlight, now, v.sent[i]) {
        assert Covered(env, m, v.inFlight, now, v.sent[i]);
      }
      forall i | 0 <= i < |v.sent| && v.sent[i].key == key && |key| == EVENT_KEY_LEN
        ensures now - v.sent[i].time >= env.timeoutMs
      {
        assert Covered(env, m, v.inFlight, now, v.sent[i]);
      }
    }
  }

  lemma {:induction false} PassSpaces(env: Env, now: int, v: Visits, stops: seq<Stop>, m: Store)
    requires HubOK(v.hub) && StopsIn(stops, m) && env.timeoutMs >= 0
    requires AllCovered(env, m, v.inFlight, now, v.sent) && Spaced(env, v.sent)
    ensures var r := VisitAll(env, now, v, stops, m);
            AllCovered(env, m, r.inFlight, now, r.sent) && Spaced(env, r.sent)
  {
    hide HubOK;
    hide Visit;
    hide AllCovered;
    hide Spaced;
    if stops != [] {
      var init, last := stops[..|stops| - 1], stops[|stops| - 1];
      PassSpaces(env, now, v, init, m);
      VisitSpaces(env, last.topic, now, VisitAll(env, now, v, init, m), last.key, m);
    }
  }

  // ── What a pass sends ───────────────────────────────────────────────────────

  /** Everything a stored message needs to be sent, apart from somebody to take it. */
  predicate Due(env: Env, now: int, inFlight: map<Bytes, int>, m: Store, k: Bytes)
  {
    k in m && !Waiting(env, inFlight, k, now) && Alive(env, now, m[k])
  }

  /** The value decodes to a message whose TTL has not elapsed. */
  predicate Alive(env: Env, now: int, val: Bytes)
  {
    env.codec.decode(val).Some? && !Expired(env.codec.decode(val).value, now)
  }

  /** One visit is exact: the key is sent if and only if it is due and somebody
      selected on the topic has room at that moment. */
  lemma VisitSendsIff(env: Env, topic: string, now: int, v: Visits, key: Bytes, m: Store)
    requires HubOK(v.hub) && key in m
    ensures Visit(env, topic, now, v, key, m[key]).sent
            == v.sent + if Due(env, now, v.inFlight, m, key) && Deliverable(v.hub, topic)
                then [Dispatch(key, now)] else []
  {
    hide HubOK;
    hide Offered;
    hide Deliverable;
  }

  /** The pass as it stands when it comes to stop i. */
  ghost function Before(env: Env, now: int, v: Visits, stops: seq<Stop>, m: Store, i: nat): (r: Visits)
    requires HubOK(v.hub) && StopsIn(stops, m) && i <= |stops|
    ensures HubOK(r.hub)
  {
    VisitAll(env, now, v, stops[..i], m)
  }

  ghost predicate SendsAt(env: Env, now: int, v: Visits, stops: seq<Stop>, m: Store, i: nat)
    requires HubOK(v.hub) && StopsIn(stops, m) && i < |stops|
  {
    var before := Before(env, now, v, stops, m, i);
    Due(env, now, before.inFlight, m, stops[i].key) && Deliverable(before.hub, stops[i].topic)
  }

  /** At one of the key's stops the key is due and somebody selected has room. */
  ghost predicate SomeStopSends(env: Env, now: int, v: Visits, stops: seq<Stop>, m: Store, k: Bytes)
    requires HubOK(v.hub) && StopsIn(stops, m)
  {
    exists i: nat :: i < |stops| && stops[i].key == k && SendsAt(env, now, v, stops, m, i)
  }

  /** The log gained a dispatch of this key. */
  predicate NewlySent(before: seq<Dispatch>, after: seq<Dispatch>, k: Bytes)
  {
    exists j :: |before| <= j < |after| && after[j].key == k
  }

  /** A pass is exact: it sends a key if and only if at one of the key's stops
      the key is due and somebody selected has room. */
  lemma {:induction false} PassSendsIff(env: Env, now: int, v: Visits, stops: seq<Stop>, m: Store, k: Bytes)
    requires HubOK(v.hub) && StopsIn(stops, m)
    ensures NewlySent(v.sent, VisitAll(env, now, v, stops, m).sent, k)
            <==> SomeStopSends(env, now, v, stops, m, k)
  {
    hide HubOK;
    hide Visit;
    hide Due;
    hide Deliverable;
    if stops != [] {
      var n := |stops| - 1;
      var init, last := stops[..n], stops[n];
      PassSendsIff(env, now, v, init, m, k);
      SentGrows(env, now, v, init, m);
      var before := VisitAll(env, now, v, init, m);
      VisitSendsIff(env, last.topic, now, before, last.key, m);
      SentMore(v.sent, before.sent, VisitAll(env, now, v, stops, m).sent, k,
          last.key == k && SendsAt(env, now, v, stops, m, n));
      SomeStop(env, now, v, stops, m, k);
    }
  }

  lemma SentMore(start: seq<Dispatch>, before: seq<Dispatch>, after: seq<Dispatch>, k: Bytes, last: bool)
    requires start <= before
    requires after == before || (|after| == |before| + 1 && after[..|before|] == before)
    requires last <==> |after| > |before| && after[|before|].key == k
    ensures NewlySent(start, after, k) <==> NewlySent(start, before, k) || last
  {
    if NewlySent(start, before, k) {
      var j :| |start| <= j < |before| && before[j].key == k;
      assert after[j] == before[j];
    }
    if NewlySent(start, after, k) {
      var j :| |start| <= j < |after| && after[j].key == k;
      if j < |before| { assert before[j] == after[j]; }
    }
  }

  /** A stop that sends k is the last one or comes before it. */
  lemma SomeStop(env: Env, now: int, v: Visits, stops: seq<Stop>, m: Store, k: Bytes)
    requires HubOK(v.hub) && StopsIn(stops, m) && stops != []
    ensures SomeStopSends(env, now, v, stops, m, k)
            <==> SomeStopSends(env, now, v, stops[..|stops| - 1], m, k)
                 || (stops[|stops| - 1].key == k && SendsAt(env, now, v, stops, m, |stops| - 1))
  {
    hide HubOK;
    hide VisitAll;
    hide Due;
    hide Deliverable;
    var n := |stops| - 1;
    var init := stops[..n];
    forall i: nat | i < n ensures SendsAt(env, now, v, stops, m, i) <==> SendsAt(env, now, v, init, m, i) {
      assert stops[..i] == init[..i] && stops[i] == init[i];
    }
    hide SendsAt;
    if SomeStopSends(env, now, v, init, m, k) {
      var i: nat :| i < n && init[i].key == k && SendsAt(env, now, v, init, m, i);
      assert stops[i].key == k && SendsAt(env, now, v, stops, m, i);
    }
    if SomeStopSends(env, now, v, stops, m, k) {
      var i: nat :| i < |stops| && stops[i].key == k && SendsAt(env, now, v, stops, m, i);
      if i < n { assert init[i].key == k && SendsAt(env, now, v, init, m, i); }
    }
  }

  lemma NothingNew(sent: seq<Dispatch>, k: Bytes)
    ensures !NewlySent(sent, sent, k)
  {
  }

  /** One visit, seen from any key: a key sent now is in flight from now on, an
      entry made now stays, and no other key becomes in flight. */
  lemma VisitEntry(env: Env, topic: string, now: int, v: Visits, key: Bytes, m: Store, k: Bytes)
    requires HubOK(v.hub) && key in m
    ensures var r := Visit(env, topic, now, v, key, m[key]);
            var sent := |r.sent| > |v.sent| && r.sent[|v.sent|].key == k;
            && (r.sent == v.sent || (|r.sent| == |v.sent| + 1 && r.sent[..|v.sent|] == v.sent))
            && (sent ==> k in r.inFlight && r.inFlight[k] == now)
            && (env.timeoutMs > 0 && k in v.inFlight && v.inFlight[k] == now
                ==> k in r.inFlight && r.inFlight[k] == now)
            && (Waiting(env, r.inFlight, k, now) ==> Waiting(env, v.inFlight, k, now) || sent)
  {
    hide HubOK;
    hide Offered;
    hide Deliverable;
    hide Expired;
  }

  /** What a pass sends is in flight from then on. */
  lemma {:induction false} SentIsInFlight(env: Env, now: int, v: Visits, stops: seq<Stop>, m: Store, k: Bytes)
    requires HubOK(v.hub) && StopsIn(stops, m) && env.timeoutMs > 0
    ensures var r := VisitAll(env, now, v, stops, m);
            NewlySent(v.sent, r.sent, k) ==> k in r.inFlight && r.inFlight[k] == now
  {
    hide HubOK;
    hide Visit;
    hide NewlySent;
    NothingNew(v.sent, k);
    if stops != [] {
      var init, last := stops[..|stops| - 1], stops[|stops| - 1];
      SentIsInFlight(env, now, v, init, m, k);
      SentGrows(env, now, v, init, m);
      var before, after := VisitAll(env, now, v, init, m), VisitAll(env, now, v, stops, m);
      VisitEntry(env, last.topic, now, before, last.key, m, k);
      SentMore(v.sent, before.sent, after.sent, k, |after.sent| > |before.sent| && after.sent[|before.sent|].key == k);
    }
  }

  /** In flight after part of a pass means in flight before it, or sent by it. */
  lemma {:induction false} WaitingOrSent(env: Env, now: int, v: Visits, stops: seq<Stop>, m: Store, k: Bytes)
    requires HubOK(v.hub) && StopsIn(stops, m)
    ensures var r := VisitAll(env, now, v, stops, m);
            Waiting(env, r.inFlight, k, now) ==> Waiting(env, v.inFlight, k, now) || NewlySent(v.sent, r.sent, k)
  {
    hide HubOK;
    hide Visit;
    hide Waiting;
    hide NewlySent;
    if stops != [] {
      var init, last := stops[..|stops| - 1], stops[|stops| - 1];
      WaitingOrSent(env, now, v, init, m, k);
      SentGrows(env, now, v, init, m);
      var before, after := VisitAll(env, now, v, init, m), VisitAll(env, now, v, stops, m);
      VisitEntry(env, last.topic, now, before, last.key, m, k);
      SentMore(v.sent, before.sent, after.sent, k, |after.sent| > |before.sent| && after.sent[|before.sent|].key == k);
    }
  }

  /** While a key is in flight, a pass does not send it and leaves its entry. */
  lemma {:induction false} StillWaiting(env: Env, now: int, v: Visits, stops: seq<Stop>, m: Store, k: Bytes)
    requires HubOK(v.hub) && StopsIn(stops, m) && Waiting(env, v.inFlight, k, now)
    ensures var r := VisitAll(env, now, v, stops, m);
            && Waiting(env, r.inFlight, k, now) && r.inFlight[k] == v.inFlight[k]
            && forall i :: |v.sent| <= i < |r.sent| ==> r.sent[i].key != k
  {
    hide HubOK;
    hide Offered;
    hide Deliverable;
    if stops != [] {
      StillWaiting(env, now, v, stops[..|stops| - 1], m, k);
    }
  }

  /** Seen from the start of the pass: a live key at whose stop somebody selected
      has room is sent if and only if it was not in flight. */
  lemma SentUnlessWaiting(env: Env, now: int, v: Visits, stops: seq<Stop>, m: Store, i: nat)
    requires HubOK(v.hub) && StopsIn(stops, m) && i < |stops| && Alive(env, now, m[stops[i].key])
    requires Deliverable(Before(env, now, v, stops, m, i).hub, stops[i].topic)
    ensures NewlySent(v.sent, VisitAll(env, now, v, stops, m).sent, stops[i].key)
            <==> !Waiting(env, v.inFlight, stops[i].key, now)
  {
    hide HubOK;
    hide Deliverable;
    hide Alive;
    hide VisitAll;
    var k := stops[i].key;
    if Waiting(env, v.inFlight, k, now) {
      StillWaiting(env, now, v, stops, m, k);
    } else {
      WaitingOrSent(env, now, v, stops[..i], m, k);
      if NewlySent(v.sent, VisitAll(env, now, v, stops[..i], m).sent, k) {
        SentStays(env, now, v, stops, m, i, k);
      } else {
        assert SendsAt(env, now, v, stops, m, i);
        assert SomeStopSends(env, now, v, stops, m, k);
        PassSendsIff(env, now, v, stops, m, k);
      }
    }
  }

  lemma SentStays(env: Env, now: int, v: Visits, stops: seq<Stop>, m: Store, i: nat, k: Bytes)
    requires HubOK(v.hub) && StopsIn(stops, m) && i <= |stops|
    requires NewlySent(v.sent, VisitAll(env, now, v, stops[..i], m).sent, k)
    ensures NewlySent(v.sent, VisitAll(env, now, v, stops, m).sent, k)
  {
    hide HubOK;
    hide VisitAll;
    var part := VisitAll(env, now, v, stops[..i], m);
    VisitConcat(env, now, v, stops[..i], stops[i..], m);
    assert stops[..i] + stops[i..] == stops;
    SentGrows(env, now, part, stops[i..], m);
    var j :| |v.sent| <= j < |part.sent| && part.sent[j].key == k;
    assert VisitAll(env, now, v, stops, m).sent[j].key == k;
  }

  // ── What a pass hands over for deletion ─────────────────────────────────────

  lemma OnlyAliveSent(env: Env, now: int, v: Visits, stops: seq<Stop>, m: Store, k: Bytes)
    requires HubOK(v.hub) && StopsIn(stops, m) && NewlySent(v.sent, VisitAll(env, now, v, stops, m).sent, k)
    ensures k in m && Alive(env, now, m[k])
  {
    hide HubOK;
    hide VisitAll;
    hide NewlySent;
    hide Deliverable;
    hide Alive;
    PassSendsIff(env, now, v, stops, m, k);
  }

  lemma {:induction false} ExpiredGrows(env: Env, now: int, v: Visits, stops: seq<Stop>, m: Store, k: Bytes)
    requires HubOK(v.hub) && StopsIn(stops, m) && k in v.expired
    ensures k in VisitAll(env, now, v, stops, m).expired
  {
    hide HubOK;
    hide Offered;
    hide Deliverable;
    hide Expired;
    if stops != [] { ExpiredGrows(env, now, v, stops[..|stops| - 1], m, k); }
  }

  /** A pass hands over every key it scans whose TTL has elapsed and which has no
      in-flight entry younger than the timeout. */
  lemma OutlivedIsExpired(env: Env, now: int, v: Visits, stops: seq<Stop>, m: Store, i: nat)
    requires HubOK(v.hub) && StopsIn(stops, m) && i < |stops| && Outlived(env, m, stops[i].key, now)
    requires stops[i].key !in v.inFlight || now - v.inFlight[stops[i].key] >= env.timeoutMs
    ensures stops[i].key in VisitAll(env, now, v, stops, m).expired
  {
    hide HubOK;
    hide VisitAll;
    hide NewlySent;
    hide Expired;
    var k, part := stops[i].key, VisitAll(env, now, v, stops[..i], m);
    WaitingOrSent(env, now, v, stops[..i], m, k);
    if NewlySent(v.sent, part.sent, k) { OnlyAliveSent(env, now, v, stops[..i], m, k); }
    assert !Waiting(env, part.inFlight, k, now);
    VisitHandsOver(env, stops[i].topic, now, part, k, m);
    VisitNext(env, now, v, stops, m, i);
    VisitConcat(env, now, v, stops[..i + 1], stops[i + 1..], m);
    assert stops[..i + 1] + stops[i + 1..] == stops;
    ExpiredGrows(env, now, VisitAll(env, now, v, stops[..i + 1], m), stops[i + 1..], m, k);
  }

  lemma VisitHandsOver(env: Env, topic: string, now: int, v: Visits, key: Bytes, m: Store)
    requires HubOK(v.hub) && key in m && !Waiting(env, v.inFlight, key, now) && Outlived(env, m, key, now)
    ensures key in Visit(env, topic, now, v, key, m[key]).expired
  {
    hide HubOK;
    hide Offered;
    hide Deliverable;
  }

  lemma VisitNext(env: Env, now: int, v: Visits, stops: seq<Stop>, m: Store, i: nat)
    requires HubOK(v.hub) && StopsIn(stops, m) && i < |stops|
    ensures VisitAll(env, now, v, stops[..i + 1], m)
            == Visit(env, stops[i].topic, now, VisitAll(env, now, v, stops[..i], m), stops[i].key, m[stops[i].key])
  {
    hide HubOK;
    hide Visit;
    assert stops[..i + 1][..i] == stops[..i];
  }

  // ── Room for a message, judged before the pass ──────────────────────────────

  /** How many of the stops belong to this topic. */
  function OnTopic(stops: seq<Stop>, topic: string): nat
  {
    if stops == [] then 0
    else OnTopic(stops[..|stops| - 1], topic) + if stops[|stops| - 1].topic == topic then 1 else 0
  }

  /** An offer on a consumer's own topic adds at most one message to its queue;
      an offer on another topic adds none. */
  lemma OfferGrowsSlowly(h: HubState, topic: string, d: Delivery, id: string)
    requires HubOK(h) && id in h.queues
    ensures id in Offered(h, topic, d).queues
    ensures |Offered(h, topic, d).queues[id]| <= |h.queues[id]| + if h.registry.byID[id].topic == topic then 1 else 0
  {
    hide Agrees;
    FilledGroups(h.registry, topic);
    OneDispatchIsExact(h, topic, d, id);
  }

  lemma VisitGrowsSlowly(env: Env, topic: string, now: int, v: Visits, key: Bytes, m: Store, id: string)
    requires HubOK(v.hub) && key in m && id in v.hub.queues && id in v.hub.registry.byID
    ensures var r := Visit(env, topic, now, v, key, m[key]);
            && id in r.hub.queues
            && |r.hub.queues[id]| <= |v.hub.queues[id]| + if v.hub.registry.byID[id].topic == topic then 1 else 0
  {
    hide HubOK;
    hide Deliverable;
    hide Offered;
    hide Expired;
    if env.codec.decode(m[key]).Some? {
      OfferGrowsSlowly(v.hub, topic, Delivery(key, env.codec.decode(m[key]).value), id);
    }
  }

  /** A consumer's queue grows by at most one message per scanned key of its topic. */
  lemma {:induction false} QueueGrowsSlowly(env: Env, now: int, v: Visits, stops: seq<Stop>, m: Store, id: string)
    requires HubOK(v.hub) && StopsIn(stops, m) && id in v.hub.queues && id in v.hub.registry.byID
    ensures var r := VisitAll(env, now, v, stops, m);
            && id in r.hub.queues
            && |r.hub.queues[id]| <= |v.hub.queues[id]| + OnTopic(stops, v.hub.registry.byID[id].topic)
  {
    hide HubOK;
    hide Visit;
    if stops != [] {
      var init, last := stops[..|stops| - 1], stops[|stops| - 1];
      QueueGrowsSlowly(env, now, v, init, m, id);
      VisitGrowsSlowly(env, last.topic, now, VisitAll(env, now, v, init, m), last.key, m, id);
    }
  }

  /** Who is counted on to take a message: one universal consumer, or whichever
      member of a group the rotation selects. */
  datatype Listener = Universal(id: string) | Group(name: string)

  /** The listener can take this many more messages of the topic, whoever in the
      group is selected. */
  predicate RoomFor(h: HubState, topic: string, l: Listener, room: nat)
  {
    match l
    case Universal(id) =>
      id in h.registry.byID && id in h.queues && h.registry.byID[id].IsUniversal() && h.registry.byID[id].topic == topic
      && |h.queues[id]| + room <= h.registry.byID[id].capacity
    case Group(g) =>
      g in SubscriptionOf(h.registry, topic).groups &&
      forall c :: c in SubscriptionOf(h.registry, topic).groups[g] ==>
        c.id in h.queues && |h.queues[c.id]| + room <= c.capacity
  }

  /** A listener with room makes its topic deliverable. */
  lemma ListenerDelivers(h: HubState, topic: string, l: Listener)
    requires HubOK(h) && RoomFor(h, topic, l, 1)
    ensures Deliverable(h, topic)
  {
    FilledGroups(h.registry, topic);
    match l
    case Universal(id) =>
      assert Found(h.registry, id);
      hide Agrees;
      assert Eligible(h, topic, h.registry.byID[id]);
      SomeoneReachedIff(h, topic);
    case Group(g) =>
      var c := Pick(h, topic, g);
      assert c in SubscriptionOf(h.registry, topic).groups[g];
      hide Agrees;
      assert c in Targets(h, topic) && HasRoom(h, c);
      assert c.id in IdsWithRoom(h, Targets(h, topic));
  }

  /** A member of a topic's group is known under its ID, as a consumer of the topic. */
  lemma MemberTopic(h: HubState, topic: string, g: string, c: Consumer)
    requires HubOK(h) && g in SubscriptionOf(h.registry, topic).groups
    requires c in SubscriptionOf(h.registry, topic).groups[g]
    ensures c.id in h.registry.byID && h.registry.byID[c.id].topic == topic
  {
    assert SubscriptionOf(h.registry, topic).Has(c);
    assert Indexed(h.registry, topic, c);
  }

  lemma RoomLeft(env: Env, now: int, v: Visits, stops: seq<Stop>, m: Store, topic: string, l: Listener, room: nat)
    requires HubOK(v.hub) && StopsIn(stops, m) && RoomFor(v.hub, topic, l, OnTopic(stops, topic) + room)
    ensures RoomFor(VisitAll(env, now, v, stops, m).hub, topic, l, room)
  {
    hide HubOK;
    hide VisitAll;
    hide OnTopic;
    match l
    case Universal(id) => QueueGrowsSlowly(env, now, v, stops, m, id);
    case Group(g) =>
      var r := VisitAll(env, now, v, stops, m);
      forall c | c in SubscriptionOf(r.hub.registry, topic).groups[g]
        ensures c.id in r.hub.queues && |r.hub.queues[c.id]| + room <= c.capacity
      {
        MemberTopic(v.hub, topic, g, c);
        QueueGrowsSlowly(env, now, v, stops, m, c.id);
      }
  }

  /** A due message is sent when a listener of its topic has room for it and for
      the messages of that topic scanned before it. */
  lemma DueIsSent(env: Env, now: int, v: Visits, stops: seq<Stop>, m: Store, i: nat, l: Listener)
    requires HubOK(v.hub) && StopsIn(stops, m) && i < |stops| && Due(env, now, v.inFlight, m, stops[i].key)
    requires RoomFor(v.hub, stops[i].topic, l, OnTopic(stops[..i], stops[i].topic) + 1)
    ensures NewlySent(v.sent, VisitAll(env, now, v, stops, m).sent, stops[i].key)
  {
    hide HubOK;
    hide Deliverable;
    hide Alive;
    hide VisitAll;
    hide RoomFor;
    hide NewlySent;
    RoomLeft(env, now, v, stops[..i], m, stops[i].topic, l, 1);
    ListenerDelivers(Before(env, now, v, stops, m, i).hub, stops[i].topic, l);
    SentUnlessWaiting(env, now, v, stops, m, i);
  }

  // ── Progress ────────────────────────────────────────────────────────────────

  /** Keys of a set that are not in flight. */
  function Idle(keys: set<Bytes>, inFlight: map<Bytes, int>): set<Bytes>
  {
    keys - inFlight.Keys
  }

  predicate NoneTimedOut(env: Env, inFlight: map<Bytes, int>, now: int)
  {
    forall k :: k in inFlight ==> now - inFlight[k] < env.timeoutMs
  }

  /** Every stop that could be sent now is among these keys. */
  ghost predicate Covers(env: Env, now: int, stops: seq<Stop>, m: Store, keys: set<Bytes>)
    requires StopsIn(stops, m)
  {
    forall i :: 0 <= i < |stops| && Alive(env, now, m[stops[i].key]) ==> stops[i].key in keys
  }

  lemma IdleShrinks(env: Env, keys: set<Bytes>, inFlight: map<Bytes, int>, key: Bytes, now: int)
    requires key in keys && key !in inFlight && env.timeoutMs > 0 && NoneTimedOut(env, inFlight, now)
    ensures |Idle(keys, inFlight[key := now])| + 1 == |Idle(keys, inFlight)|
    ensures NoneTimedOut(env, inFlight[key := now], now)
  {
    assert Idle(keys, inFlight[key := now]) == Idle(keys, inFlight) - {key} && key in Idle(keys, inFlight);
  }

  lemma VisitUsesIdle(env: Env, topic: string, now: int, v: Visits, key: Bytes, m: Store, keys: set<Bytes>)
    requires HubOK(v.hub) && key in m && env.timeoutMs > 0 && NoneTimedOut(env, v.inFlight, now)
    requires Alive(env, now, m[key]) ==> key in keys
    ensures var r := Visit(env, topic, now, v, key, m[key]);
            && NoneTimedOut(env, r.inFlight, now)
            && |Idle(keys, r.inFlight)| + |r.sent| == |Idle(keys, v.inFlight)| + |v.sent|
  {
    hide HubOK;
    hide Offered;
    hide Deliverable;
    hide Idle;
    if key in v.inFlight {
      assert Waiting(env, v.inFlight, key, now);
    } else {
      assert v.inFlight - {key} == v.inFlight;
      hide NoneTimedOut;
      if Alive(env, now, m[key]) { IdleShrinks(env, keys, v.inFlight, key, now); }
    }
  }

  /** While nothing times out, every dispatch uses up one idle key. */
  lemma {:induction false} DispatchesUseIdle(env: Env, now: int, v: Visits, stops: seq<Stop>, m: Store,
                                             keys: set<Bytes>)
    requires HubOK(v.hub) && StopsIn(stops, m) && env.timeoutMs > 0 && NoneTimedOut(env, v.inFlight, now)
    requires Covers(env, now, stops, m, keys)
    ensures var r := VisitAll(env, now, v, stops, m);
            && NoneTimedOut(env, r.inFlight, now)
            && |Idle(keys, r.inFlight)| + |r.sent| == |Idle(keys, v.inFlight)| + |v.sent|
  {
    hide HubOK;
    hide Visit;
    hide Idle;
    hide Alive;
    hide NoneTimedOut;
    if stops != [] {
      var init, last := stops[..|stops| - 1], stops[|stops| - 1];
      assert Covers(env, now, init, m, keys);
      DispatchesUseIdle(env, now, v, init, m, keys);
      VisitUsesIdle(env, last.topic, now, VisitAll(env, now, v, init, m), last.key, m, keys);
    }
  }

  // ── What reaches the queues ─────────────────────────────────────────────────

  /** One visit leaves a consumer's queue alone or adds the visited message, and
      then only on the consumer's own topic. */
  lemma VisitQueue(env: Env, topic: string, now: int, v: Visits, key: Bytes, m: Store, id: string)
    requires HubOK(v.hub) && key in m && id in v.hub.registry.byID && id in v.hub.queues
    ensures var r := Visit(env, topic, now, v, key, m[key]);
            && id in r.hub.queues
            && (r.hub.queues[id] == v.hub.queues[id]
                || (v.hub.registry.byID[id].topic == topic && env.codec.decode(m[key]).Some?
                    && |v.hub.queues[id]| < v.hub.registry.byID[id].capacity
                    && r.hub.queues[id] == v.hub.queues[id] + [Delivery(key, env.codec.decode(m[key]).value)]))
  {
    hide HubOK;
    hide Deliverable;
    hide Offered;
    hide Expired;
    if env.codec.decode(m[key]).Some? {
      OfferQueue(v.hub, topic, Delivery(key, env.codec.decode(m[key]).value), id);
    }
  }

  lemma OfferQueue(h: HubState, topic: string, d: Delivery, id: string)
    requires HubOK(h) && id in h.registry.byID && id in h.queues
    ensures id in Offered(h, topic, d).queues
    ensures Offered(h, topic, d).queues[id] == h.queues[id]
            || (h.registry.byID[id].topic == topic && |h.queues[id]| < h.registry.byID[id].capacity
                && Offered(h, topic, d).queues[id] == h.queues[id] + [d])
  {
    hide Agrees;
    FilledGroups(h.registry, topic);
    EligibleIsTarget(h, topic, id);
    OneDispatchIsExact(h, topic, d, id);
    assert h.queues[id] + [] == h.queues[id];
  }

  /** Somebody's queue holds this message under this key. */
  predicate InSomeQueue(queues: map<string, seq<Delivery>>, d: Delivery)
  {
    exists id :: id in queues && d in queues[id]
  }

  lemma OfferReaches(h: HubState, topic: string, d: Delivery)
    requires HubOK(h) && Deliverable(h, topic)
    ensures InSomeQueue(Offered(h, topic, d).queues, d)
  {
    hide Agrees;
    FilledGroups(h.registry, topic);
    SomeoneReachedIff(h, topic);
    var id :| id in h.registry.byID && Eligible(h, topic, h.registry.byID[id]) && HasRoom(h, h.registry.byID[id]);
    OneDispatchIsExact(h, topic, d, id);
    assert d in Offered(h, topic, d).queues[id];
  }

  lemma OfferKeepsQueued(h: HubState, topic: string, d: Delivery, e: Delivery)
    requires HubOK(h) && InSomeQueue(h.queues, e)
    ensures InSomeQueue(Offered(h, topic, d).queues, e)
  {
    var id :| id in h.queues && e in h.queues[id];
    assert id in h.registry.byID;
    hide HubOK;
    hide Offered;
    OfferQueue(h, topic, d, id);
    assert e in Offered(h, topic, d).queues[id];
  }

  lemma VisitKeepsQueued(env: Env, topic: string, now: int, v: Visits, key: Bytes, m: Store, e: Delivery)
    requires HubOK(v.hub) && key in m && InSomeQueue(v.hub.queues, e)
    ensures InSomeQueue(Visit(env, topic, now, v, key, m[key]).hub.queues, e)
  {
    hide HubOK;
    hide Deliverable;
    hide Offered;
    hide Expired;
    hide InSomeQueue;
    if env.codec.decode(m[key]).Some? {
      OfferKeepsQueued(v.hub, topic, Delivery(key, env.codec.decode(m[key]).value), e);
    }
  }

  lemma VisitReaches(env: Env, topic: string, now: int, v: Visits, key: Bytes, m: Store)
    requires HubOK(v.hub) && key in m && Due(env, now, v.inFlight, m, key) && Deliverable(v.hub, topic)
    ensures InSomeQueue(Visit(env, topic, now, v, key, m[key]).hub.queues,
            Delivery(key, env.codec.decode(m[key]).value))
  {
    hide HubOK;
    hide Deliverable;
    hide Offered;
    hide InSomeQueue;
    OfferReaches(v.hub, topic, Delivery(key, env.codec.decode(m[key]).value));
  }

  /** What a pass sends is in somebody's queue when the pass ends. */
  lemma {:induction false} SentIsQueued(env: Env, now: int, v: Visits, stops: seq<Stop>, m: Store, k: Bytes)
    requires HubOK(v.hub) && StopsIn(stops, m)
    ensures var r := VisitAll(env, now, v, stops, m);
            NewlySent(v.sent, r.sent, k) ==>
              k in m && env.codec.decode(m[k]).Some?
                  && InSomeQueue(r.hub.queues, Delivery(k, env.codec.decode(m[k]).value))
  {
    hide HubOK;
    hide Visit;
    hide Alive;
    hide Deliverable;
    hide NewlySent;
    hide InSomeQueue;
    NothingNew(v.sent, k);
    if stops != [] {
      var init, last := stops[..|stops| - 1], stops[|stops| - 1];
      SentIsQueued(env, now, v, init, m, k);
      SentGrows(env, now, v, init, m);
      var before, after := VisitAll(env, now, v, init, m), VisitAll(env, now, v, stops, m);
      VisitSendsIff(env, last.topic, now, before, last.key, m);
      SentMore(v.sent, before.sent, after.sent, k, |after.sent| > |before.sent| && after.sent[|before.sent|].key == k);
      if NewlySent(v.sent, before.sent, k) {
        VisitKeepsQueued(env, last.topic, now, before, last.key, m, Delivery(k, env.codec.decode(m[k]).value));
      } else if NewlySent(v.sent, after.sent, k) {
        AliveDecodes(env, now, m[k]);
        VisitReaches(env, last.topic, now, before, k, m);
      }
    }
  }

  lemma AliveDecodes(env: Env, now: int, val: Bytes)
    ensures Alive(env, now, val) ==> env.codec.decode(val).Some?
  {
  }

  // ── Delivery tags do not steer delivery ─────────────────────────────────────

  ghost predicate SameButTags(a: HubState, b: HubState)
  {
    a == b.(tags := a.tags)
  }

  lemma OfferIgnoresTags(a: HubState, b: HubState, topic: string, d: Delivery)
    requires HubOK(a) && SameButTags(a, b)
    ensures HubOK(b) && SameButTags(Offered(a, topic, d), Offered(b, topic, d))
    ensures Deliverable(a, topic) == Deliverable(b, topic)
  {
    hide Agrees;
    FilledGroups(a.registry, topic);
    assert Targets(a, topic) == Targets(b, topic) by {
      var sub := SubscriptionOf(a.registry, topic);
      assert forall g :: g in sub.groups ==> Pick(a, topic, g) == Pick(b, topic, g);
      assert Picks(a, topic, sub.groups.Keys) == Picks(b, topic, sub.groups.Keys);
    }
    assert IdsWithRoom(a, Targets(a, topic)) == IdsWithRoom(b, Targets(b, topic)) by {
      assert forall c :: HasRoom(a, c) == HasRoom(b, c);
    }
  }

  /** Two hubs that differ only in their recorded tags dispatch alike. */
  lemma {:induction false} PassIgnoresTags(env: Env, now: int, v: Visits, h: HubState, stops: seq<Stop>, m: Store)
    requires HubOK(v.hub) && HubOK(h) && SameButTags(v.hub, h) && StopsIn(stops, m)
    ensures var a, b := VisitAll(env, now, v, stops, m), VisitAll(env, now, v.(hub := h), stops, m);
            SameButTags(a.hub, b.hub) && a.sent == b.sent && a.expired == b.expired && a.inFlight == b.inFlight
  {
    hide HubOK;
    hide Offered;
    hide Deliverable;
    if stops != [] {
      var init, last := stops[..|stops| - 1], stops[|stops| - 1];
      PassIgnoresTags(env, now, v, h, init, m);
      var a, b := VisitAll(env, now, v, init, m), VisitAll(env, now, v.(hub := h), init, m);
      if env.codec.decode(m[last.key]).Some? {
        OfferIgnoresTags(a.hub, b.hub, last.topic, Delivery(last.key, env.codec.decode(m[last.key]).value));
      }
    }
  }
}
