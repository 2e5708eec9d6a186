/** What the log of dispatches shows over every run: nothing is sent before its
    bucket, and nothing that has left storage is ever sent again. */
module BrokerHistory {
  import opened Bytes
  import opened Keys
  import opened Storage
  import opened EventCommands
  import opened EventReplica
  import opened EventIds
  import opened HubDelivery
  import opened Dispatcher
  import opened DispatchPass
  import opened Broker
  import opened BrokerRuns
  import opened BrokerDelivery
  import D = Deleter

  // ── Never before its bucket ─────────────────────────────────────────────────

  /** Whatever event a pass sends belongs to a topic it scanned, by hash, and to a
      bucket that has begun. */
  lemma PassIsPunctual(cfg: Config, s: State, now: int, topics: seq<string>, k: Bytes)
    requires cfg.env.Valid() && HubOK(s.hub) && 0 <= now < METADATA_HORIZON && |k| == EVENT_KEY_LEN
    requires PassSends(cfg, s, now, topics, k)
    ensures BucketOf(k) * BucketMs(cfg.env.codec.bucketSize) <= now
    ensures exists t :: t in topics && cfg.env.codec.hash(t) == HashOf(k)
  {
    hide HubOK;
    hide PassSends;
    hide Route;
    hide SendsAt;
    hide DueKeys;
    hide HashOf;
    hide BucketOf;
    hide BucketMs;
    PassIsExact(cfg, s, now, topics, k);
    var stops := Route(cfg.env, topics, now, s.store);
    var i: nat :| i < |stops| && stops[i].key == k && SendsAt(cfg.env, now, Start(s), stops, s.store, i);
    RouteStops(cfg.env, topics, now, s.store, i);
    DueKeysExact(cfg.env, stops[i].topic, now, s.store, k);
  }

  predicate Punctual(env: Env, e: Dispatch)
    requires env.Valid()
  {
    |e.key| == EVENT_KEY_LEN ==>
      0 <= e.time < METADATA_HORIZON && BucketOf(e.key) * BucketMs(env.codec.bucketSize) <= e.time
  }

  ghost predicate AllPunctual(env: Env, sent: seq<Dispatch>)
    requires env.Valid()
  {
    forall i :: 0 <= i < |sent| ==> Punctual(env, sent[i])
  }

  lemma PassKeepsPunctual(cfg: Config, s: State, now: int, topics: seq<string>)
    requires cfg.env.Valid() && HubOK(s.hub) && 0 <= now < METADATA_HORIZON && AllPunctual(cfg.env, s.sent)
    ensures AllPunctual(cfg.env, Next(cfg, s, Pass(now, topics)).sent)
  {
    hide HubOK;
    hide VisitAll;
    hide Route;
    hide Next;
    hide BucketMs;
    hide BucketOf;
    PassLog(cfg, s, now, topics);
    SentGrows(cfg.env, now, Start(s), Route(cfg.env, topics, now, s.store), s.store);
    var sent := Next(cfg, s, Pass(now, topics)).sent;
    forall i | 0 <= i < |sent| ensures Punctual(cfg.env, sent[i]) {
      if i < |s.sent| {
        assert sent[i] == s.sent[i];
      } else if |sent[i].key| == EVENT_KEY_LEN {
        PassIsPunctual(cfg, s, now, topics, sent[i].key);
      }
    }
  }

  lemma StepSent(cfg: Config, s: State, step: Step)
    requires cfg.env.Valid() && HubOK(s.hub) && !step.Pass?
    ensures var t := Next(cfg, s, step); t.sent == s.sent || t.sent == []
  {
    hide HubOK;
  }

  /** Over every run the whole log is punctual. */
  lemma {:induction false} LogIsPunctual(cfg: Config, s: State, steps: seq<Step>)
    requires cfg.env.Valid() && Inv(s) && AllPunctual(cfg.env, s.sent)
    ensures AllPunctual(cfg.env, Run(cfg, s, steps).sent)
  {
    hide Punctual;
    hide Next;
    hide HubOK;
    hide QueuesTracked;
    if steps != [] {
      var before, last := Run(cfg, s, steps[..|steps| - 1]), steps[|steps| - 1];
      LogIsPunctual(cfg, s, steps[..|steps| - 1]);
      if last.Pass? && 0 <= last.now < METADATA_HORIZON {
        PassKeepsPunctual(cfg, before, last.now, last.topics);
      } else if last.Pass? {
        DisabledPass(cfg, before, last);
      } else {
        StepSent(cfg, before, last);
      }
    }
  }

  lemma DisabledPass(cfg: Config, s: State, step: Step)
    requires cfg.env.Valid() && HubOK(s.hub) && step.Pass? && !(0 <= step.now < METADATA_HORIZON)
    ensures Next(cfg, s, step) == s
  {
    hide HubOK;
  }

  // ── What is gone stays gone ─────────────────────────────────────────────────

  /** An event whose ID was persisted and which is not stored. */
  predicate Departed(m: Storage.Store, k: Bytes)
  {
    |k| == EVENT_KEY_LEN && EventIdOf(k) <= Persisted(m) && k !in m
  }

  lemma PublishKeepsDeparted(s: State, items: seq<StoreItem>, k: Bytes)
    requires Inv(s) && Departed(s.store, k) && CleanItems(items) && s.counter + |items| < TWO64
    ensures Departed(s.store + BatchWrites(items, s.counter), k)
  {
    hide Inv;
    hide Dominates;
    hide BatchWrites;
    hide EventIdOf;
    hide Persisted;
    hide CleanItems;
    CounterAhead(s);
    CommitDominates(Counted(s.store, s.counter), Commit.Store(items));
    OnlyNewIds(items, s.counter, k);
  }

  lemma DropKeepsDeparted(m: Storage.Store, keys: seq<Bytes>, k: Bytes)
    requires Departed(m, k) && AllTracked(Persisted(m), keys)
    ensures Departed(m - (set x | x in keys), k)
  {
    hide EventIdOf;
    hide Uint64;
    assert LAST_ID_KEY !in keys;
    SameCounter(m, m - (set x | x in keys));
  }

  lemma StepKeepsDeparted(cfg: Config, s: State, step: Step, k: Bytes)
    requires cfg.env.Valid() && Inv(s) && Departed(s.store, k)
    ensures Departed(Next(cfg, s, step).store, k)
  {
    hide Inv;
    hide HubOK;
    hide Departed;
    hide PassVisits;
    hide AllTracked;
    hide Tracked;
    hide KeysFit;
    hide CleanItems;
    hide BatchWrites;
    hide D.After;
    hide D.Marked;
    InvTracked(s);
    if Enabled(cfg, s, step) {
      match step
      case Publish(items) => PublishKeepsDeparted(s, items, k);
      case FlushOk => DropKeepsDeparted(s.store, s.deleter.Batch(), k);
      case ApplyProposal(i) => DropKeepsDeparted(s.store, s.proposed[i], k);
      case _ =>
    }
  }

  /** No pass sends what is not stored. */
  lemma DepartedIsNotSent(cfg: Config, s: State, now: int, topics: seq<string>, k: Bytes)
    requires cfg.env.Valid() && HubOK(s.hub) && k !in s.store
    ensures !PassSends(cfg, s, now, topics, k)
  {
    hide HubOK;
    hide VisitAll;
    hide Route;
    if 0 <= now < METADATA_HORIZON {
      PassLog(cfg, s, now, topics);
      SentGrows(cfg.env, now, Start(s), Route(cfg.env, topics, now, s.store), s.store);
    }
  }

  /** Over every run, restarts included, an event that has left storage is never
      stored again, and no pass of the run sends it. */
  lemma {:induction false} GoneForGood(cfg: Config, s: State, steps: seq<Step>, k: Bytes)
    requires cfg.env.Valid() && Inv(s) && Departed(s.store, k)
    ensures Departed(Run(cfg, s, steps).store, k)
    ensures forall i :: 0 <= i < |steps| && steps[i].Pass? ==>
              !PassSends(cfg, Run(cfg, s, steps[..i]), steps[i].now, steps[i].topics, k)
  {
    hide Departed;
    hide PassSends;
    hide Next;
    hide HubOK;
    hide QueuesTracked;
    if steps != [] {
      var n := |steps| - 1;
      var init, last := steps[..n], steps[n];
      GoneForGood(cfg, s, init, k);
      var before := Run(cfg, s, init);
      StepKeepsDeparted(cfg, before, last, k);
      DepartedKey(before.store, k);
      forall i | 0 <= i < |steps| && steps[i].Pass?
        ensures !PassSends(cfg, Run(cfg, s, steps[..i]), steps[i].now, steps[i].topics, k)
      {
        if i < n {
          assert steps[..i] == init[..i] && steps[i] == init[i];
        } else {
          DepartedIsNotSent(cfg, before, last.now, last.topics, k);
        }
      }
    }
  }

  lemma DepartedKey(m: Storage.Store, k: Bytes)
    requires Departed(m, k)
    ensures k !in m
  {
  }

  /** Acknowledged or expired, flushed, never redelivered: an event recorded as
      deleted is out of storage and stays out, and is never sent again. */
  lemma DeletedNeverReturns(cfg: Config, s: State, steps: seq<Step>, k: Bytes)
    requires cfg.env.Valid() && Inv(s) && k in s.deleter.deleted && |k| == EVENT_KEY_LEN
    ensures k !in s.store && k !in Run(cfg, s, steps).store
    ensures forall i :: 0 <= i < |steps| && steps[i].Pass? ==>
              !PassSends(cfg, Run(cfg, s, steps[..i]), steps[i].now, steps[i].topics, k)
  {
    hide Run;
    hide PassSends;
    hide EventIdOf;
    hide HubOK;
    hide Dominates;
    hide D.Conserved;
    hide Persisted;
    DeletedDeparts(s.store, s.deleter.deleted, k);
    GoneForGood(cfg, s, steps, k);
    DepartedKey(Run(cfg, s, steps).store, k);
  }

  lemma DeletedDeparts(m: Storage.Store, deleted: seq<Bytes>, k: Bytes)
    requires DeletedGone(m, deleted) && k in deleted && |k| == EVENT_KEY_LEN
    ensures Departed(m, k)
  {
    hide EventIdOf;
    hide Persisted;
  }
}
