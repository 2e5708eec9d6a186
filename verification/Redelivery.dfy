/** An unacknowledged message comes back: exactly when every dispatch of it is at
    least the in-flight timeout ago. */
module Redelivery {
  import opened Bytes
  import opened Keys
  import opened Storage
  import opened Messages
  import opened EventCommands
  import opened EventReplica
  import opened EventIds
  import opened HubDelivery
  import opened Dispatcher
  import opened DispatchPass
  import opened Broker
  import opened BrokerRuns
  import opened BrokerDelivery
  import opened BrokerHistory
  import D = Deleter

  // ── Every in-flight entry was logged ────────────────────────────────────────

  predicate Logged(inFlight: map<Bytes, int>, sent: seq<Dispatch>)
  {
    forall k :: k in inFlight ==> Dispatch(k, inFlight[k]) in sent
  }

  lemma VisitLogs(env: Env, topic: string, now: int, v: Visits, key: Bytes, m: Storage.Store)
    requires HubOK(v.hub) && key in m && Logged(v.inFlight, v.sent)
    ensures var r := Visit(env, topic, now, v, key, m[key]); Logged(r.inFlight, r.sent)
  {
    hide HubOK;
    hide Offered;
    hide Deliverable;
    hide Expired;
  }

  lemma {:induction false} PassLogs(env: Env, now: int, v: Visits, stops: seq<Stop>, m: Storage.Store)
    requires HubOK(v.hub) && StopsIn(stops, m) && Logged(v.inFlight, v.sent)
    ensures var r := VisitAll(env, now, v, stops, m); Logged(r.inFlight, r.sent)
  {
    hide HubOK;
    hide Visit;
    hide Logged;
    if stops != [] {
      var init, last := stops[..|stops| - 1], stops[|stops| - 1];
      PassLogs(env, now, v, init, m);
      VisitLogs(env, last.topic, now, VisitAll(env, now, v, init, m), last.key, m);
    }
  }

  lemma StepLogs(cfg: Config, s: State, step: Step)
    requires cfg.env.Valid() && HubOK(s.hub) && Logged(s.inFlight, s.sent)
    ensures var t := Next(cfg, s, step); Logged(t.inFlight, t.sent)
  {
    hide HubOK;
    hide VisitAll;
    hide Route;
    hide KeysFit;
    hide CleanItems;
    hide BatchWrites;
    hide Tracked;
    hide Swept;
    hide D.After;
    hide D.Marked;
    if step.Pass? && Enabled(cfg, s, step) {
      PassLogs(cfg.env, step.now, Start(s), Route(cfg.env, step.topics, step.now, s.store), s.store);
    }
  }

  lemma {:induction false} RunLogs(cfg: Config, s: State, steps: seq<Step>)
    requires cfg.env.Valid() && Inv(s) && Logged(s.inFlight, s.sent)
    ensures Logged(Run(cfg, s, steps).inFlight, Run(cfg, s, steps).sent)
  {
    hide Logged;
    hide Next;
    hide HubOK;
    hide QueuesTracked;
    if steps != [] {
      RunLogs(cfg, s, steps[..|steps| - 1]);
      StepLogs(cfg, Run(cfg, s, steps[..|steps| - 1]), steps[|steps| - 1]);
    }
  }

  // ── When a message is sent again ────────────────────────────────────────────

  /** Every dispatch of the key in the log is at least this long ago. */
  predicate AllPast(sent: seq<Dispatch>, k: Bytes, now: int, age: int)
  {
    forall j :: 0 <= j < |sent| && sent[j].key == k ==> now - sent[j].time >= age
  }

  lemma SentIsPast(cfg: Config, s: State, now: int, topics: seq<string>, k: Bytes)
    requires cfg.env.Valid() && Inv(s) && SpacedOut(cfg, s) && 0 <= now < METADATA_HORIZON && s.clock <= now
    requires |k| == EVENT_KEY_LEN && PassSends(cfg, s, now, topics, k)
    ensures AllPast(s.sent, k, now, cfg.env.timeoutMs)
  {
    hide Inv;
    hide HubOK;
    hide VisitAll;
    hide Route;
    hide AllCovered;
    hide EventIdOf;
    hide AllTracked;
    hide D.Marked;
    InvTracked(s);
    PassSpacesOut(cfg, s, now, topics);
    SentGrows(cfg.env, now, Start(s), Route(cfg.env, topics, now, s.store), s.store);
    var sent := Next(cfg, s, Pass(now, topics)).sent;
    var n :| |s.sent| <= n < |sent| && sent[n].key == k;
    forall j | 0 <= j < |s.sent| && s.sent[j].key == k ensures now - s.sent[j].time >= cfg.env.timeoutMs {
      assert sent[j] == s.sent[j];
    }
  }

  /** Redelivery is exact: in every state of a process on a forward clock, a pass
      at whose stop the message is alive and somebody selected has room sends the
      message if and only if every dispatch of it in the log is at least the
      in-flight timeout ago, whatever was answered for it. */
  lemma RedeliveryIff(cfg: Config, s: State, now: int, topics: seq<string>, i: nat)
    requires cfg.env.Valid() && Inv(s) && SpacedOut(cfg, s) && Logged(s.inFlight, s.sent)
    requires 0 <= now < METADATA_HORIZON && s.clock <= now && i < |Route(cfg.env, topics, now, s.store)|
    requires var stops := Route(cfg.env, topics, now, s.store);
             && |stops[i].key| == EVENT_KEY_LEN && Alive(cfg.env, now, s.store[stops[i].key])
             && Deliverable(Before(cfg.env, now, Start(s), stops, s.store, i).hub, stops[i].topic)
    ensures var k := Route(cfg.env, topics, now, s.store)[i].key;
            PassSends(cfg, s, now, topics, k) <==> AllPast(s.sent, k, now, cfg.env.timeoutMs)
  {
    hide Inv;
    hide HubOK;
    hide SpacedOut;
    hide Next;
    hide VisitAll;
    hide Route;
    hide Alive;
    hide Deliverable;
    hide AllTracked;
    InvTracked(s);
    var k := Route(cfg.env, topics, now, s.store)[i].key;
    if PassSends(cfg, s, now, topics, k) { SentIsPast(cfg, s, now, topics, k); }
    PassLog(cfg, s, now, topics);
    SentUnlessWaiting(cfg.env, now, Start(s), Route(cfg.env, topics, now, s.store), s.store, i);
  }

  // ── From one dispatch to the next ───────────────────────────────────────────

  /** The entry made at time t stands, or the event has left storage. */
  predicate Standing(s: State, k: Bytes, t: int)
  {
    Departed(s.store, k)
    || (|k| == EVENT_KEY_LEN && EventIdOf(k) <= Persisted(s.store) && k in s.store
        && k in s.inFlight && s.inFlight[k] == t)
  }

  /** Anything but a restart or a pass after the timeout. */
  predicate Early(cfg: Config, step: Step, t: int)
  {
    !step.Restart? && (step.Pass? ==> step.now - t < cfg.env.timeoutMs)
  }

  lemma PublishStands(s: State, items: seq<StoreItem>, k: Bytes, t: int)
    requires Inv(s) && Standing(s, k, t) && CleanItems(items) && s.counter + |items| < TWO64
    ensures Standing(s.(store := s.store + BatchWrites(items, s.counter), counter := Advance(s.counter, |items|)), k, t)
  {
    hide Inv;
    hide Dominates;
    hide BatchWrites;
    hide EventIdOf;
    hide Persisted;
    hide CleanItems;
    CounterAhead(s);
    CommitDominates(Counted(s.store, s.counter), Commit.Store(items));
    if Departed(s.store, k) { PublishKeepsDeparted(s, items, k); }
  }

  lemma DropStands(s: State, keys: seq<Bytes>, k: Bytes, t: int)
    requires Standing(s, k, t) && AllTracked(Persisted(s.store), keys)
    ensures Standing(Dropped(s, keys), k, t)
  {
    hide EventIdOf;
    hide Uint64;
    assert LAST_ID_KEY !in keys;
    SameCounter(s.store, Dropped(s, keys).store);
  }

  lemma PassStands(cfg: Config, s: State, now: int, topics: seq<string>, k: Bytes, t: int)
    requires cfg.env.Valid() && HubOK(s.hub) && Standing(s, k, t) && 0 <= now < METADATA_HORIZON
    requires now - t < cfg.env.timeoutMs
    ensures Standing(PassDone(s, PassVisits(cfg, s, now, topics), now), k, t)
  {
    hide HubOK;
    hide VisitAll;
    hide Route;
    hide EventIdOf;
    hide Persisted;
    hide D.Marked;
    if k in s.store {
      StillWaiting(cfg.env, now, Start(s), Route(cfg.env, topics, now, s.store), s.store, k);
    }
  }

  lemma NotifyStands(s: State, i: nat, k: Bytes, t: int)
    requires Inv(s) && Standing(s, k, t) && i < |s.notices|
    ensures Standing(s.(inFlight := s.inFlight - {s.notices[i]}, notices := s.notices[..i] + s.notices[i + 1..]), k, t)
  {
    hide HubOK;
    hide Dominates;
    hide AllTracked;
    hide D.Conserved;
    hide EventIdOf;
    hide Persisted;
  }

  lemma StepStands(cfg: Config, s: State, step: Step, k: Bytes, t: int)
    requires cfg.env.Valid() && Inv(s) && Standing(s, k, t) && Early(cfg, step, t)
    ensures Standing(Next(cfg, s, step), k, t)
  {
    hide Inv;
    hide HubOK;
    hide PassVisits;
    hide PassDone;
    hide EventIdOf;
    hide Persisted;
    hide AllTracked;
    hide Tracked;
    hide KeysFit;
    hide CleanItems;
    hide BatchWrites;
    hide Swept;
    hide Joined;
    hide Disconnected;
    hide Taken;
    hide Untagged;
    hide D.After;
    hide D.Marked;
    InvTracked(s);
    if Enabled(cfg, s, step) {
      match step
      case Publish(items) => PublishStands(s, items, k, t);
      case Pass(now, topics) => PassStands(cfg, s, now, topics, k, t);
      case FlushOk => DropStands(s, s.deleter.Batch(), k, t);
      case ApplyProposal(i) => DropStands(s, s.proposed[i], k, t);
      case Notify(i) => NotifyStands(s, i, k, t);
      case _ =>
    }
  }

  lemma {:induction false} RunStands(cfg: Config, s: State, steps: seq<Step>, k: Bytes, t: int)
    requires cfg.env.Valid() && Inv(s) && Standing(s, k, t)
    requires forall i :: 0 <= i < |steps| ==> Early(cfg, steps[i], t)
    ensures Standing(Run(cfg, s, steps), k, t)
  {
    hide Standing;
    hide Early;
    hide Next;
    hide HubOK;
    hide QueuesTracked;
    if steps != [] {
      RunStands(cfg, s, steps[..|steps| - 1], k, t);
      StepStands(cfg, Run(cfg, s, steps[..|steps| - 1]), steps[|steps| - 1], k, t);
    }
  }

  /** An event sent at time t and not acknowledged away comes back: after any steps
      but a restart, with passes only inside the timeout, it is sent again by any
      pass after the timeout at whose stop it is alive and somebody selected has
      room, and by none before. */
  lemma SentAgain(cfg: Config, s: State, t: int, topics: seq<string>, k: Bytes, steps: seq<Step>,
                  now: int, again: seq<string>, i: nat)
    requires cfg.env.Valid() && cfg.env.timeoutMs > 0 && Inv(s) && 0 <= t < METADATA_HORIZON
    requires |k| == EVENT_KEY_LEN && PassSends(cfg, s, t, topics, k)
    requires forall j :: 0 <= j < |steps| ==> Early(cfg, steps[j], t)
    requires 0 <= now < METADATA_HORIZON
    requires var mid := Run(cfg, s, [Pass(t, topics)] + steps);
             var stops := Route(cfg.env, again, now, mid.store);
             && i < |stops| && stops[i].key == k && Alive(cfg.env, now, mid.store[k])
             && HubOK(mid.hub) && Deliverable(Before(cfg.env, now, Start(mid), stops, mid.store, i).hub, stops[i].topic)
    ensures var mid := Run(cfg, s, [Pass(t, topics)] + steps);
            PassSends(cfg, mid, now, again, k) <==> now - t >= cfg.env.timeoutMs
  {
    var passed, mid := Run(cfg, s, [Pass(t, topics)]), Run(cfg, s, [Pass(t, topics)] + steps);
    assert Standing(mid, k, t) by {
      SentStands(cfg, s, t, topics, k);
      RunConcat(cfg, s, [Pass(t, topics)], steps);
      RunStands(cfg, passed, steps, k, t);
    }
    hide Run;
    hide Inv;
    hide HubOK;
    hide Next;
    hide VisitAll;
    hide Route;
    hide Alive;
    hide Deliverable;
    hide EventIdOf;
    hide Persisted;
    PassLog(cfg, mid, now, again);
    SentUnlessWaiting(cfg.env, now, Start(mid), Route(cfg.env, again, now, mid.store), mid.store, i);
  }

  lemma SentStands(cfg: Config, s: State, t: int, topics: seq<string>, k: Bytes)
    requires cfg.env.Valid() && cfg.env.timeoutMs > 0 && Inv(s) && 0 <= t < METADATA_HORIZON
    requires |k| == EVENT_KEY_LEN && PassSends(cfg, s, t, topics, k)
    ensures Standing(Run(cfg, s, [Pass(t, topics)]), k, t)
  {
    hide Inv;
    hide HubOK;
    hide Run;
    hide Dominates;
    hide PassVisits;
    hide EventIdOf;
    hide Persisted;
    hide AllTracked;
    hide PassSends;
    hide D.Marked;
    InvTracked(s);
    RunOne(cfg, s, Pass(t, topics));
    SentEntry(cfg, s, t, topics, k);
    if k !in s.store { DepartedIsNotSent(cfg, s, t, topics, k); }
    StoredIsPersisted(s, k);
  }

  lemma StoredIsPersisted(s: State, k: Bytes)
    requires Inv(s) && k in s.store && |k| == EVENT_KEY_LEN
    ensures EventIdOf(k) <= Persisted(s.store)
  {
    hide HubOK;
    hide QueuesTracked;
    hide D.Conserved;
    hide EventIdOf;
    hide Persisted;
  }
}
