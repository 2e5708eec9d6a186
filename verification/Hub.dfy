/** The hub's registry: connected consumers indexed by topic, group and ID, and
    when the indexes agree. */
module Hub {
  import opened Bytes
  import opened Messages

  datatype Consumer = Consumer(id: string, topic: string, group: string, capacity: nat)
  {
    predicate IsUniversal() { group == "" }
  }

  datatype Delivery = Delivery(tag: Bytes, msg: StoredMessage)

  // ── Topic subscriptions ─────────────────────────────────────────────────────

  datatype Subscription = Subscription(groups: map<string, seq<Consumer>>, universal: map<string, Consumer>)
  {
    predicate Has(c: Consumer)
    {
      if c.IsUniversal() then c.id in universal && universal[c.id] == c
      else c.group in groups && c in groups[c.group]
    }

    predicate IsEmpty() { groups == map[] && universal == map[] }
  }

  const NO_SUBSCRIPTION := Subscription(map[], map[])

  function Members(sub: Subscription, group: string): seq<Consumer>
  {
    if group in sub.groups then sub.groups[group] else []
  }

  function Added(sub: Subscription, c: Consumer): Subscription
  {
    if c.IsUniversal() then sub.(universal := sub.universal[c.id := c])
    else sub.(groups := sub.groups[c.group := Members(sub, c.group) + [c]])
  }

  /** The group without its first entry carrying this ID. */
  function Without(cs: seq<Consumer>, id: string): seq<Consumer>
  {
    if cs == [] then [] else if cs[0].id == id then cs[1..] else [cs[0]] + Without(cs[1..], id)
  }

  function Removed(sub: Subscription, c: Consumer): Subscription
  {
    if c.IsUniversal() then sub.(universal := sub.universal - {c.id})
    else
      var rest := Without(Members(sub, c.group), c.id);
      if rest == [] then sub.(groups := sub.groups - {c.group})
      else sub.(groups := sub.groups[c.group := rest])
  }

  /** The in-place removal of one group member, found by its ID. */
  method RemoveEntry(group: seq<Consumer>, id: string) returns (rest: seq<Consumer>)
    ensures rest == Without(group, id)
  {
    for i := 0 to |group|
      invariant Without(group, id) == group[..i] + Without(group[i..], id)
    {
      WithoutAt(group, id, i);
      if group[i].id == id {
        return group[..i] + group[i + 1..];
      }
    }
    assert group[|group|..] == [] && group[..|group|] == group;
    return group;
  }

  lemma WithoutAt(group: seq<Consumer>, id: string, i: nat)
    requires i < |group|
    ensures group[i].id == id ==> Without(group[i..], id) == group[i + 1..]
    ensures group[i].id != id ==> group[..i] + Without(group[i..], id) == group[..i + 1] + Without(group[i + 1..], id)
  {
    var tail := group[i..];
    assert tail[0] == group[i] && tail[1..] == group[i + 1..];
    assert group[..i + 1] == group[..i] + [group[i]];
  }

  method RemoveFrom(sub: Subscription, c: Consumer) returns (r: Subscription)
    ensures r == Removed(sub, c)
  {
    if c.IsUniversal() {
      return sub.(universal := sub.universal - {c.id});
    }
    var rest := RemoveEntry(Members(sub, c.group), c.id);
    if rest == [] {
      return sub.(groups := sub.groups - {c.group});
    }
    return sub.(groups := sub.groups[c.group := rest]);
  }

  // ── The consumer index ──────────────────────────────────────────────────────

  datatype Registry = Registry(topics: map<string, Subscription>, byID: map<string, Consumer>)

  const EMPTY_REGISTRY := Registry(map[], map[])

  function SubscriptionOf(x: Registry, topic: string): Subscription
  {
    if topic in x.topics then x.topics[topic] else NO_SUBSCRIPTION
  }

  function Registered(x: Registry, c: Consumer): Registry
  {
    Registry(x.topics[c.topic := Added(SubscriptionOf(x, c.topic), c)], x.byID[c.id := c])
  }

  function Unregistered(x: Registry, id: string): Registry
  {
    if id !in x.byID then x
    else
      var c := x.byID[id];
      if c.topic !in x.topics then x.(byID := x.byID - {id})
      else
        var sub := Removed(x.topics[c.topic], c);
        Registry(if sub.IsEmpty() then x.topics - {c.topic} else x.topics[c.topic := sub], x.byID - {id})
  }

  predicate DistinctIds(cs: seq<Consumer>)
  {
    forall i, j :: 0 <= i < j < |cs| ==> cs[i].id != cs[j].id
  }

  /** Every entry sits under its own topic and group; no group or topic is empty. */
  predicate Placed(topic: string, sub: Subscription)
  {
    && !sub.IsEmpty()
    && (forall g :: g in sub.groups ==>
          g != "" && sub.groups[g] != [] && DistinctIds(sub.groups[g])
          && forall i :: 0 <= i < |sub.groups[g]| ==> sub.groups[g][i].topic == topic && sub.groups[g][i].group == g)
    && (forall id :: id in sub.universal ==>
          sub.universal[id].id == id && sub.universal[id].topic == topic && sub.universal[id].group == "")
  }

  /** The entry under this ID sits where its topic and group say. */
  predicate Found(x: Registry, id: string)
    requires id in x.byID
  {
    var c := x.byID[id];
    c.id == id && c.topic in x.topics && x.topics[c.topic].Has(c)
  }

  /** If topic t holds c, then c is the entry under its own ID. */
  predicate Indexed(x: Registry, t: string, c: Consumer)
  {
    t in x.topics && x.topics[t].Has(c) ==> c.topic == t && c.id in x.byID && x.byID[c.id] == c
  }

  /** byID holds exactly the entries the topics hold, each once. */
  ghost predicate Agrees(x: Registry)
  {
    && (forall t :: t in x.topics ==> Placed(t, x.topics[t]))
    && (forall t, c :: Indexed(x, t, c))
    && (forall id :: id in x.byID ==> Found(x, id))
  }

  lemma AddedHas(x: Registry, c: Consumer, d: Consumer)
    requires Agrees(x)
    ensures Added(SubscriptionOf(x, c.topic), c).Has(d) <==>
              d == c || (SubscriptionOf(x, c.topic).Has(d) && !(c.IsUniversal() && d.IsUniversal() && d.id == c.id))
  {
  }

  /** Registering under a fresh ID keeps the index consistent; under a used ID it
      does so only when it replaces a universal consumer of the same topic. */
  lemma RegisterAgreesIff(x: Registry, c: Consumer)
    requires Agrees(x)
    ensures Agrees(Registered(x, c))
            <==> c.id !in x.byID
                 || (c.IsUniversal() && x.byID[c.id].IsUniversal() && x.byID[c.id].topic == c.topic)
  {
    hide Agrees;
    if MayRegister(x, c) {
      RegisterAgrees(x, c);
    } else {
      RegisterClashes(x, c);
    }
  }

  lemma RegisterPlaced(x: Registry, c: Consumer)
    requires Agrees(x)
    requires c.id !in x.byID || c.IsUniversal()
    ensures Placed(c.topic, Added(SubscriptionOf(x, c.topic), c))
  {
    hide Found;
    var sub := SubscriptionOf(x, c.topic);
    if !c.IsUniversal() {
      var prior := Members(sub, c.group);
      forall i | 0 <= i < |prior| ensures prior[i].id != c.id {
        assert sub.Has(prior[i]);
        assert Indexed(x, c.topic, prior[i]);
      }
      GroupGrows(c.topic, sub, c);
    } else {
      assert c.id in Added(sub, c).universal;
    }
  }

  lemma GroupGrows(t: string, sub: Subscription, c: Consumer)
    requires sub.IsEmpty() || Placed(t, sub)
    requires c.topic == t && c.group != ""
        && forall i :: 0 <= i < |Members(sub, c.group)| ==> Members(sub, c.group)[i].id != c.id
    ensures Placed(t, Added(sub, c))
  {
    var prior, now := Members(sub, c.group), Added(sub, c);
    assert now.groups[c.group] == prior + [c] && c.group in now.groups;
    assert DistinctIds(prior + [c]);
    assert forall g :: g in now.groups && g != c.group ==> g in sub.groups && now.groups[g] == sub.groups[g];
  }

  predicate MayRegister(x: Registry, c: Consumer)
  {
    c.id !in x.byID || (c.IsUniversal() && x.byID[c.id].IsUniversal() && x.byID[c.id].topic == c.topic)
  }

  lemma RegisterIndexed(x: Registry, c: Consumer, t: string, d: Consumer)
    requires Agrees(x) && MayRegister(x, c)
    ensures Indexed(Registered(x, c), t, d)
  {
    hide Placed;
    hide Added;
    if t == c.topic { AddedHas(x, c, d); }
    hide Subscription.Has;
    assert Indexed(x, t, d);
  }

  lemma RegisterFound(x: Registry, c: Consumer, id: string)
    requires Agrees(x) && id in Registered(x, c).byID
    requires MayRegister(x, c)
    ensures Found(Registered(x, c), id)
  {
    hide Placed;
    hide Added;
    hide Subscription.Has;
    var d := Registered(x, c).byID[id];
    AddedHas(x, c, d);
    if id != c.id { assert Found(x, id); }
  }

  lemma RegisterAgrees(x: Registry, c: Consumer)
    requires Agrees(x) && MayRegister(x, c)
    ensures Agrees(Registered(x, c))
  {
    hide Placed;
    hide Added;
    hide Found;
    hide Indexed;
    var y := Registered(x, c);
    RegisterPlaced(x, c);
    forall t, d ensures Indexed(y, t, d) { RegisterIndexed(x, c, t, d); }
    forall id | id in y.byID ensures Found(y, id) { RegisterFound(x, c, id); }
  }

  lemma RegisterClashes(x: Registry, c: Consumer)
    requires Agrees(x) && !MayRegister(x, c)
    ensures !Agrees(Registered(x, c))
  {
    var y, prior := Registered(x, c), x.byID[c.id];
    assert Found(x, c.id);
    AddedHas(x, c, prior);
    assert y.topics[prior.topic].Has(prior);
    if prior == c {
      var group := x.topics[c.topic].groups[c.group];
      var i :| 0 <= i < |group| && group[i] == c;
      var grown := y.topics[c.topic].groups[c.group];
      assert grown[i].id == grown[|group|].id;
      assert !Placed(c.topic, y.topics[c.topic]);
    } else {
      assert !Indexed(y, prior.topic, prior);
    }
  }

  lemma DistinctTail(cs: seq<Consumer>)
    requires DistinctIds(cs) && cs != []
    ensures DistinctIds(cs[1..])
    ensures forall d :: d in cs[1..] ==> d.id != cs[0].id
  {
    forall d | d in cs[1..] ensures d.id != cs[0].id {
      var i :| 0 <= i < |cs[1..]| && cs[1..][i] == d;
      assert d == cs[i + 1];
    }
  }

  lemma {:induction false} WithoutHas(cs: seq<Consumer>, id: string, d: Consumer)
    requires DistinctIds(cs)
    ensures d in Without(cs, id) <==> d in cs && d.id != id
  {
    if cs != [] {
      DistinctTail(cs);
      hide DistinctIds;
      WithoutHas(cs[1..], id, d);
      assert d in cs <==> d == cs[0] || d in cs[1..] by { assert cs == [cs[0]] + cs[1..]; }
    }
  }

  lemma {:induction false} WithoutDistinct(cs: seq<Consumer>, id: string)
    requires DistinctIds(cs)
    ensures DistinctIds(Without(cs, id))
  {
    if cs != [] && cs[0].id != id {
      DistinctTail(cs);
      WithoutDistinct(cs[1..], id);
      var rest := Without(cs[1..], id);
      forall i | 0 <= i < |rest| ensures rest[i].id != cs[0].id {
        WithoutHas(cs[1..], id, rest[i]);
      }
    } else if cs != [] {
      DistinctTail(cs);
    }
  }

  lemma RemovedHas(t: string, sub: Subscription, c: Consumer)
    requires Placed(t, sub) && sub.Has(c)
    ensures forall d: Consumer :: Removed(sub, c).Has(d) <==> sub.Has(d) && !(d.group == c.group && d.id == c.id)
    ensures Removed(sub, c).IsEmpty() || Placed(t, Removed(sub, c))
  {
    if !c.IsUniversal() {
      var group := sub.groups[c.group];
      var rest := Without(group, c.id);
      WithoutDistinct(group, c.id);
      hide DistinctIds;
      hide Without;
      forall d ensures d in rest <==> d in group && d.id != c.id { WithoutHas(group, c.id, d); }
      forall i | 0 <= i < |rest| ensures rest[i].topic == t && rest[i].group == c.group {
        assert rest[i] in rest;
      }
    }
  }

  /** What is left of the departing consumer's topic. */
  lemma RemovedFrom(x: Registry, c: Consumer, d: Consumer)
    requires Agrees(x) && c.id in x.byID && x.byID[c.id] == c
    ensures c.topic in x.topics
    ensures Removed(x.topics[c.topic], c).Has(d) <==> x.topics[c.topic].Has(d) && d.id != c.id
    ensures Removed(x.topics[c.topic], c).IsEmpty() || Placed(c.topic, Removed(x.topics[c.topic], c))
    ensures Removed(x.topics[c.topic], c).IsEmpty() ==> !Removed(x.topics[c.topic], c).Has(d)
  {
    assert Found(x, c.id);
    RemovedHas(c.topic, x.topics[c.topic], c);
    assert Indexed(x, c.topic, d);
  }

  lemma UnregisterIndexed(x: Registry, id: string, t: string, d: Consumer)
    requires Agrees(x) && id in x.byID
    ensures Indexed(Unregistered(x, id), t, d)
  {
    hide Placed;
    hide Removed;
    hide Subscription.Has;
    assert Found(x, id);
    RemovedFrom(x, x.byID[id], d);
    assert Indexed(x, t, d);
  }

  lemma UnregisterFound(x: Registry, id: string, k: string)
    requires Agrees(x) && id in x.byID && k in Unregistered(x, id).byID
    ensures Found(Unregistered(x, id), k)
  {
    hide Placed;
    hide Removed;
    hide Subscription.Has;
    assert Found(x, id) && Found(x, k);
    RemovedFrom(x, x.byID[id], x.byID[k]);
  }

  lemma UnregisterAgrees(x: Registry, id: string)
    requires Agrees(x)
    ensures Agrees(Unregistered(x, id))
    ensures Unregistered(x, id).byID == x.byID - {id}
  {
    hide Placed;
    hide Removed;
    hide Indexed;
    hide Found;
    if id in x.byID {
      var y, c := Unregistered(x, id), x.byID[id];
      OwnId(x, id);
      RemovedFrom(x, c, c);
      forall t, d ensures Indexed(y, t, d) { UnregisterIndexed(x, id, t, d); }
      forall k | k in y.byID ensures Found(y, k) { UnregisterFound(x, id, k); }
    } else {
      assert x.byID - {id} == x.byID;
    }
  }

  lemma OwnId(x: Registry, id: string)
    requires Agrees(x) && id in x.byID
    ensures x.byID[id].id == id
  {
    assert Found(x, id);
  }

  // ── Runs ────────────────────────────────────────────────────────────────────

  datatype Membership = Join(consumer: Consumer) | Leave(id: string)

  function Membered(x: Registry, step: Membership): Registry
  {
    match step
    case Join(c) => Registered(x, c)
    case Leave(id) => Unregistered(x, id)
  }

  function MemberedAll(x: Registry, steps: seq<Membership>): Registry
  {
    if steps == [] then x else Membered(MemberedAll(x, steps[..|steps| - 1]), steps[|steps| - 1])
  }

  /** Every registration in the run carries an ID not connected at that moment. */
  predicate FreshJoins(x: Registry, steps: seq<Membership>)
  {
    steps == [] ||
    (FreshJoins(x, steps[..|steps| - 1]) &&
     match steps[|steps| - 1]
     case Join(c) => c.id !in MemberedAll(x, steps[..|steps| - 1]).byID
     case Leave(_) => true)
  }

  /** After any run of registrations with fresh IDs and unregistrations the
      indexes agree, and someone is connected exactly when some topic is active. */
  lemma {:induction false} IndexesAgree(steps: seq<Membership>)
    requires FreshJoins(EMPTY_REGISTRY, steps)
    ensures Agrees(MemberedAll(EMPTY_REGISTRY, steps))
    ensures MemberedAll(EMPTY_REGISTRY, steps).byID != map[] <==> MemberedAll(EMPTY_REGISTRY, steps).topics != map[]
  {
    hide Agrees;
    if steps == [] {
      EmptyAgrees();
    } else {
      var before, step := MemberedAll(EMPTY_REGISTRY, steps[..|steps| - 1]), steps[|steps| - 1];
      IndexesAgree(steps[..|steps| - 1]);
      match step {
        case Join(c) => RegisterAgrees(before, c);
        case Leave(id) => UnregisterAgrees(before, id);
      }
    }
    ConnectedIffActive(MemberedAll(EMPTY_REGISTRY, steps));
  }

  lemma EmptyAgrees()
    ensures Agrees(EMPTY_REGISTRY)
  {
  }

  lemma ConnectedIffActive(x: Registry)
    requires Agrees(x)
    ensures x.byID != map[] <==> x.topics != map[]
  {
    if x.byID != map[] {
      var id :| id in x.byID;
      assert Found(x, id);
    }
    if x.topics != map[] {
      var t :| t in x.topics;
      var sub := x.topics[t];
      if sub.groups != map[] {
        var g :| g in sub.groups;
        assert sub.Has(sub.groups[g][0]) && Indexed(x, t, sub.groups[g][0]);
      } else {
        var id :| id in sub.universal;
        assert sub.Has(sub.universal[id]) && Indexed(x, t, sub.universal[id]);
      }
    }
  }
}
