/** The rotation inside the hub: over any dispatches, the members of a group take
    turns. */
module HubFairness {
  import opened Bytes
  import opened RoundRobin
  import opened Hub
  import opened HubDelivery
  import Disp = Dispatcher

  /** One message offered on a topic. */
  datatype Offer = Offer(topic: string, delivery: Delivery)

  /** The hub after these offers in order. */
  ghost function AfterOffers(h: HubState, run: seq<Offer>): (r: HubState)
    requires HubOK(h)
    ensures HubOK(r) && r.registry == h.registry
  {
    if run == [] then h
    else
      var last := run[|run| - 1];
      Disp.Offered(AfterOffers(h, run[..|run| - 1]), last.topic, last.delivery)
  }

  /** Whether this consumer is the one a dispatch on the topic is for. */
  ghost predicate Takes(h: HubState, topic: string, c: Consumer)
    requires HubOK(h)
  {
    FilledGroups(h.registry, topic);
    Eligible(h, topic, c)
  }

  /** How many of the offers the consumer was the eligible one for. */
  ghost function Turns(h: HubState, run: seq<Offer>, c: Consumer): nat
    requires HubOK(h)
  {
    if run == [] then 0
    else
      var init := run[..|run| - 1];
      Turns(h, init, c) + if Takes(AfterOffers(h, init), run[|run| - 1].topic, c) then 1 else 0
  }

  /** No other registered group shares this group's key. */
  predicate OwnKey(x: Registry, topic: string, g: string)
  {
    forall t, u :: t in x.topics && u in x.topics[t].groups && GroupKey(t, u) == GroupKey(topic, g)
                   ==> t == topic && u == g
  }

  /** The selections of the group's key that the offers make. */
  function SelectionsOf(run: seq<Offer>, topic: string, key: string, n: nat): (r: seq<Selection>)
    ensures forall i :: 0 <= i < |r| ==> r[i] == Selection(key, n)
  {
    if run == [] then []
    else
      var init, last := run[..|run| - 1], run[|run| - 1];
      SelectionsOf(init, topic, key, n) + if last.topic == topic then [Selection(key, n)] else []
  }

  /** An offer on the group's topic turns its counter once; no other offer does. */
  lemma OfferTurns(h: HubState, t: string, d: Delivery, topic: string, g: string)
    requires HubOK(h) && g in SubscriptionOf(h.registry, topic).groups && OwnKey(h.registry, topic, g)
    requires SubscriptionOf(h.registry, topic).groups[g] != []
    ensures var key, n := GroupKey(topic, g), |SubscriptionOf(h.registry, topic).groups[g]|;
            CounterOf(Disp.Offered(h, t, d).next, key)
            == if t == topic then Next(CounterOf(h.next, key), n) else CounterOf(h.next, key)
  {
    hide Agrees;
    hide Next;
    hide GroupKey;
    hide HubDelivery.Turns;
    hide CounterOf;
    FilledGroups(h.registry, t);
    var key, groups := GroupKey(topic, g), SubscriptionOf(h.registry, t).groups;
    var turns := HubDelivery.Turns(h.next, t, groups, groups.Keys);
    assert Disp.Offered(h, t, d).next == h.next + turns;
    if t == topic {
      TurnOf(h.next, t, groups, groups.Keys, g);
    } else if key in turns {
      var u := TurnFrom(h.next, t, groups, groups.Keys, key);
    }
    CounterOver(h.next, turns, key);
  }

  lemma CounterOver(next: Counters, turns: Counters, key: string)
    ensures CounterOf(next + turns, key) == if key in turns then turns[key] else CounterOf(next, key)
  {
  }

  lemma {:induction false} CounterFollows(h: HubState, run: seq<Offer>, topic: string, g: string)
    requires HubOK(h) && g in SubscriptionOf(h.registry, topic).groups && OwnKey(h.registry, topic, g)
    requires 0 < |SubscriptionOf(h.registry, topic).groups[g]| < TWO64
    ensures var key, n := GroupKey(topic, g), |SubscriptionOf(h.registry, topic).groups[g]|;
            CounterOf(AfterOffers(h, run).next, key) == CounterOf(After(h.next, SelectionsOf(run, topic, key, n)), key)
  {
    hide HubOK;
    hide Next;
    hide GroupKey;
    hide OwnKey;
    hide Disp.Offered;
    if run != [] {
      var init, last := run[..|run| - 1], run[|run| - 1];
      var key, n := GroupKey(topic, g), |SubscriptionOf(h.registry, topic).groups[g]|;
      CounterFollows(h, init, topic, g);
      OfferTurns(AfterOffers(h, init), last.topic, last.delivery, topic, g);
      var before := SelectionsOf(init, topic, key, n);
      assert before + [] == before;
      SelectMore(h.next, before, Selection(key, n), 0);
    }
  }

  /** A group member is the eligible one on its topic exactly when the rotation
      points at it, and never on another topic. */
  lemma TakesIff(h: HubState, t: string, topic: string, g: string, i: nat)
    requires HubOK(h) && g in SubscriptionOf(h.registry, topic).groups
    requires i < |SubscriptionOf(h.registry, topic).groups[g]|
    ensures var group := SubscriptionOf(h.registry, topic).groups[g];
            Takes(h, t, group[i])
            <==> t == topic && Chosen(CounterOf(h.next, GroupKey(topic, g)), |group|) == i
  {
    hide GroupKey;
    hide Chosen;
    hide CounterOf;
    FilledGroups(h.registry, t);
    var group := SubscriptionOf(h.registry, topic).groups[g];
    MemberOf(h.registry, topic, g, i);
    hide Agrees;
    if t == topic && group[Chosen(CounterOf(h.next, GroupKey(topic, g)), |group|)] == group[i] {
      SameMember(h.registry, topic, g, i, Chosen(CounterOf(h.next, GroupKey(topic, g)), |group|));
    }
  }

  lemma MemberOf(x: Registry, topic: string, g: string, i: nat)
    requires Agrees(x) && g in SubscriptionOf(x, topic).groups && i < |SubscriptionOf(x, topic).groups[g]|
    ensures var c := SubscriptionOf(x, topic).groups[g][i]; c.topic == topic && c.group == g && !c.IsUniversal()
  {
    var c := SubscriptionOf(x, topic).groups[g][i];
    assert topic in x.topics && Placed(topic, x.topics[topic]);
    assert c in x.topics[topic].groups[g];
  }

  lemma SameMember(x: Registry, topic: string, g: string, i: nat, j: nat)
    requires Agrees(x) && g in SubscriptionOf(x, topic).groups
    requires var group := SubscriptionOf(x, topic).groups[g]; i < |group| && j < |group| && group[i] == group[j]
    ensures i == j
  {
    assert topic in x.topics && Placed(topic, x.topics[topic]);
    assert DistinctIds(x.topics[topic].groups[g]);
  }

  lemma {:induction false} TurnsAreChoices(h: HubState, run: seq<Offer>, topic: string, g: string, i: nat)
    requires HubOK(h) && g in SubscriptionOf(h.registry, topic).groups && OwnKey(h.registry, topic, g)
    requires i < |SubscriptionOf(h.registry, topic).groups[g]| < TWO64
    ensures var key, group := GroupKey(topic, g), SubscriptionOf(h.registry, topic).groups[g];
            Turns(h, run, group[i]) == TimesChosen(h.next, SelectionsOf(run, topic, key, |group|), key, i)
  {
    hide HubOK;
    hide Chosen;
    hide Next;
    hide GroupKey;
    hide CounterOf;
    hide OwnKey;
    hide Takes;
    hide Disp.Offered;
    if run != [] {
      var init, last := run[..|run| - 1], run[|run| - 1];
      var key, group := GroupKey(topic, g), SubscriptionOf(h.registry, topic).groups[g];
      TurnsAreChoices(h, init, topic, g, i);
      CounterFollows(h, init, topic, g);
      TakesIff(AfterOffers(h, init), last.topic, topic, g, i);
      var before := SelectionsOf(init, topic, key, |group|);
      assert before + [] == before;
      SelectMore(h.next, before, Selection(key, |group|), i);
    }
  }

  /** The hub is fair: over any offers, interleaved over topics in any way, two
      members of one group are the eligible one equally often or once apart. */
  lemma MembersTakeTurns(h: HubState, run: seq<Offer>, topic: string, g: string, i: nat, j: nat)
    requires HubOK(h) && g in SubscriptionOf(h.registry, topic).groups && OwnKey(h.registry, topic, g)
    requires var n := |SubscriptionOf(h.registry, topic).groups[g]|; i < n && j < n && n < TWO64
    requires CounterOf(h.next, GroupKey(topic, g)) < TWO64 - 1
    ensures var group := SubscriptionOf(h.registry, topic).groups[g];
            -1 <= Turns(h, run, group[i]) - Turns(h, run, group[j]) <= 1
  {
    hide HubOK;
    hide GroupKey;
    hide CounterOf;
    hide OwnKey;
    hide Turns;
    var key, n := GroupKey(topic, g), |SubscriptionOf(h.registry, topic).groups[g]|;
    TurnsAreChoices(h, run, topic, g, i);
    TurnsAreChoices(h, run, topic, g, j);
    Fair(h.next, SelectionsOf(run, topic, key, n), key, n, i, j);
  }
}
