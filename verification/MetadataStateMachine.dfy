/** The in-memory cluster-metadata state machine: the Raft log drives Update,
    and a snapshot carries the state to a member that joins later. */
module MetadataStateMachine {
  import opened Bytes
  import opened WireFormat
  import opened MetadataCommands

  datatype State = State(shards: map<u64, ShardTopology>, epoch: u64, grpcAddrs: NodeMap)

  const FRESH := State(map[], 0, map[])

  // ── One log entry ───────────────────────────────────────────────────────────

  function Installed(st: State, t: ShardTopology): State
  {
    st.(shards := st.shards[t.shardID := t], epoch := if t.epoch > st.epoch then t.epoch else st.epoch)
  }

  function Registered(st: State, n: Node): State
  {
    st.(grpcAddrs := st.grpcAddrs[n.id := n.addr])
  }

  datatype Outcome = Outcome(state: State, value: nat)

  /** An empty, unknown or undecodable command changes nothing and answers 0. */
  function Applied(st: State, cmd: Bytes): Outcome
  {
    if |cmd| == 0 then Outcome(st, 0)
    else if cmd[0] == UPDATE_TOPOLOGY then
      match DecodeTopology(cmd)
      case None => Outcome(st, 0)
      case Some(t) => Outcome(Installed(st, t), 1)
    else if cmd[0] == REGISTER_NODE then
      match DecodeNodeAddr(cmd)
      case None => Outcome(st, 0)
      case Some(n) => Outcome(Registered(st, n), 1)
    else Outcome(st, 0)
  }

  function Run(st: State, cmds: seq<Bytes>): State
  {
    if cmds == [] then st else Applied(Run(st, cmds[..|cmds| - 1]), cmds[|cmds| - 1]).state
  }

  /** No command is read both as a topology and as a registration. */
  lemma OneReading(st: State, cmd: Bytes)
    ensures DecodeTopology(cmd) == None || DecodeNodeAddr(cmd) == None
    ensures Applied(st, cmd).state
            == if DecodeTopology(cmd).Some? then Installed(st, DecodeTopology(cmd).value)
               else if DecodeNodeAddr(cmd).Some? then Registered(st, DecodeNodeAddr(cmd).value)
               else st
    ensures Applied(st, cmd).value == 1 <==> DecodeTopology(cmd).Some? || DecodeNodeAddr(cmd).Some?
  {
  }

  // ── Whole runs ──────────────────────────────────────────────────────────────

  /** The global epoch is the largest epoch among the one it started from and
      those of the topologies applied: a bound on all of them, and one of them. */
  lemma {:induction false} EpochIsLargest(st: State, cmds: seq<Bytes>)
    ensures st.epoch <= Run(st, cmds).epoch
    ensures forall i :: 0 <= i < |cmds| && DecodeTopology(cmds[i]).Some?
                        ==> DecodeTopology(cmds[i]).value.epoch <= Run(st, cmds).epoch
    ensures Run(st, cmds).epoch == st.epoch
            || exists i :: 0 <= i < |cmds| && DecodeTopology(cmds[i]).Some?
                           && DecodeTopology(cmds[i]).value.epoch == Run(st, cmds).epoch
  {
    hide DecodeTopology;
    hide DecodeNodeAddr;
    if cmds != [] {
      var init, last := cmds[..|cmds| - 1], cmds[|cmds| - 1];
      EpochIsLargest(st, init);
      OneReading(Run(st, init), last);
      assert forall i :: 0 <= i < |init| ==> cmds[i] == init[i];
      if Run(st, cmds).epoch != st.epoch {
        if Run(st, cmds).epoch == Run(st, init).epoch {
          var i :| 0 <= i < |init| && DecodeTopology(init[i]).Some?
                   && DecodeTopology(init[i]).value.epoch == Run(st, init).epoch;
          assert cmds[i] == init[i];
        } else {
          assert cmds[|cmds| - 1] == last;
        }
      }
    }
  }

  /** Entry i is the last that sets the shard. */
  ghost predicate LastFor(cmds: seq<Bytes>, i: nat, id: u64)
  {
    && i < |cmds| && DecodeTopology(cmds[i]).Some? && DecodeTopology(cmds[i]).value.shardID == id
    && forall j :: i < j < |cmds| && DecodeTopology(cmds[j]).Some? ==> DecodeTopology(cmds[j]).value.shardID != id
  }

  /** Each shard holds exactly the last topology the log gave it. */
  lemma {:induction false} ShardIsLatest(cmds: seq<Bytes>, id: u64)
    ensures id in Run(FRESH, cmds).shards <==> exists i: nat :: LastFor(cmds, i, id)
    ensures forall i: nat :: LastFor(cmds, i, id) && id in Run(FRESH, cmds).shards
                             ==> Run(FRESH, cmds).shards[id] == DecodeTopology(cmds[i]).value
  {
    hide DecodeTopology;
    hide DecodeNodeAddr;
    if cmds != [] {
      var n := |cmds| - 1;
      var init, last := cmds[..n], cmds[n];
      ShardIsLatest(init, id);
      OneReading(Run(FRESH, init), last);
      if DecodeTopology(last).Some? && DecodeTopology(last).value.shardID == id {
        assert LastFor(cmds, n, id);
        assert forall i: nat :: LastFor(cmds, i, id) ==> i == n by {
          assert DecodeTopology(cmds[n]).value.shardID == id;
        }
      } else {
        forall i: nat ensures LastFor(cmds, i, id) <==> LastFor(init, i, id) {
          LastForInit(cmds, i, id);
        }
      }
    }
  }

  lemma LastForInit(cmds: seq<Bytes>, i: nat, id: u64)
    requires cmds != []
    requires var last := DecodeTopology(cmds[|cmds| - 1]); last.Some? ==> last.value.shardID != id
    ensures LastFor(cmds, i, id) <==> LastFor(cmds[..|cmds| - 1], i, id)
  {
    hide DecodeTopology;
    var init := cmds[..|cmds| - 1];
    assert forall j :: 0 <= j < |init| ==> cmds[j] == init[j];
    if LastFor(init, i, id) {
      forall j | i < j < |cmds| && DecodeTopology(cmds[j]).Some?
        ensures DecodeTopology(cmds[j]).value.shardID != id
      {
        if j < |init| { assert init[j] == cmds[j]; }
      }
    }
  }

  /** Entry i is the last that registers the node. */
  ghost predicate LastAddr(cmds: seq<Bytes>, i: nat, id: u64)
  {
    && i < |cmds| && DecodeNodeAddr(cmds[i]).Some? && DecodeNodeAddr(cmds[i]).value.id == id
    && forall j :: i < j < |cmds| && DecodeNodeAddr(cmds[j]).Some? ==> DecodeNodeAddr(cmds[j]).value.id != id
  }

  /** The registry holds exactly the last address each node registered. */
  lemma {:induction false} AddrIsLatest(cmds: seq<Bytes>, id: u64)
    ensures id in Run(FRESH, cmds).grpcAddrs <==> exists i: nat :: LastAddr(cmds, i, id)
    ensures forall i: nat :: LastAddr(cmds, i, id) && id in Run(FRESH, cmds).grpcAddrs
                             ==> Run(FRESH, cmds).grpcAddrs[id] == DecodeNodeAddr(cmds[i]).value.addr
  {
    hide DecodeTopology;
    hide DecodeNodeAddr;
    if cmds != [] {
      var n := |cmds| - 1;
      var init, last := cmds[..n], cmds[n];
      AddrIsLatest(init, id);
      OneReading(Run(FRESH, init), last);
      if DecodeNodeAddr(last).Some? && DecodeNodeAddr(last).value.id == id {
        assert LastAddr(cmds, n, id);
        assert forall i: nat :: LastAddr(cmds, i, id) ==> i == n by {
          assert DecodeNodeAddr(cmds[n]).value.id == id;
        }
      } else {
        forall i: nat ensures LastAddr(cmds, i, id) <==> LastAddr(init, i, id) {
          LastAddrInit(cmds, i, id);
        }
      }
    }
  }

  lemma LastAddrInit(cmds: seq<Bytes>, i: nat, id: u64)
    requires cmds != []
    requires var last := DecodeNodeAddr(cmds[|cmds| - 1]); last.Some? ==> last.value.id != id
    ensures LastAddr(cmds, i, id) <==> LastAddr(cmds[..|cmds| - 1], i, id)
  {
    hide DecodeNodeAddr;
    var init := cmds[..|cmds| - 1];
    assert forall j :: 0 <= j < |init| ==> cmds[j] == init[j];
    if LastAddr(init, i, id) {
      forall j | i < j < |cmds| && DecodeNodeAddr(cmds[j]).Some?
        ensures DecodeNodeAddr(cmds[j]).value.id != id
      {
        if j < |init| { assert init[j] == cmds[j]; }
      }
    }
  }

  // ── What every reachable state keeps ────────────────────────────────────────

  ghost predicate ShardFits(t: ShardTopology)
  {
    TopologyFits(t) && TopologySize(t) < 0x1_0000_0000
  }

  ghost predicate ShardsFit(shards: map<u64, ShardTopology>)
  {
    forall id :: id in shards ==> ShardFits(shards[id])
  }

  /** Both sections can be counted and every frame measured in 32 bits. */
  ghost predicate SnapshotFits(st: State)
  {
    |st.grpcAddrs| < 0x1_0000_0000 && |st.shards| < 0x1_0000_0000 && AddrsFit(st.grpcAddrs) && ShardsFit(st.shards)
  }

  ghost predicate Keyed(shards: map<u64, ShardTopology>)
  {
    forall id :: id in shards ==> shards[id].shardID == id
  }

  ghost predicate Bounded(st: State)
  {
    forall id :: id in st.shards ==> st.shards[id].epoch <= st.epoch
  }

  ghost predicate Inv(st: State)
  {
    Keyed(st.shards) && Bounded(st) && AddrsFit(st.grpcAddrs) && ShardsFit(st.shards)
  }

  lemma FreshInv()
    ensures Inv(FRESH)
  {
  }

  lemma InstalledInv(st: State, cmd: Bytes)
    requires Inv(st) && DecodeTopology(cmd).Some? && |cmd| < 0x1_0000_0000
    ensures Inv(Installed(st, DecodeTopology(cmd).value))
    ensures |Installed(st, DecodeTopology(cmd).value).shards| <= |st.shards| + 1
  {
    hide DecodeTopology;
    hide TopologyFits;
    hide TopologySize;
    DecodedFits(cmd);
    var t := DecodeTopology(cmd).value;
    assert st.shards[t.shardID := t].Keys == st.shards.Keys + {t.shardID};
  }

  lemma RegisteredInv(st: State, cmd: Bytes)
    requires Inv(st) && DecodeNodeAddr(cmd).Some?
    ensures Inv(Registered(st, DecodeNodeAddr(cmd).value))
    ensures |Registered(st, DecodeNodeAddr(cmd).value).grpcAddrs| <= |st.grpcAddrs| + 1
  {
    hide DecodeNodeAddr;
    hide ShardFits;
    DecodedNodeFits(cmd);
    var n := DecodeNodeAddr(cmd).value;
    assert st.grpcAddrs[n.id := n.addr].Keys == st.grpcAddrs.Keys + {n.id};
  }

  /** Every state a log of commands can reach is well keyed, has an epoch no
      shard exceeds, and can be saved. */
  lemma {:induction false} RunInv(cmds: seq<Bytes>)
    requires forall i :: 0 <= i < |cmds| ==> |cmds[i]| < 0x1_0000_0000
    ensures Inv(Run(FRESH, cmds))
    ensures |Run(FRESH, cmds).shards| <= |cmds| && |Run(FRESH, cmds).grpcAddrs| <= |cmds|
  {
    if cmds != [] {
      hide Inv;
      hide DecodeTopology;
      hide DecodeNodeAddr;
      var init, last := cmds[..|cmds| - 1], cmds[|cmds| - 1];
      RunInv(init);
      var st := Run(FRESH, init);
      OneReading(st, last);
      if DecodeTopology(last).Some? {
        InstalledInv(st, last);
      } else if DecodeNodeAddr(last).Some? {
        RegisteredInv(st, last);
      }
    }
  }

  // ── Snapshots ───────────────────────────────────────────────────────────────

  /** A shard together with the orders in which its maps happen to be walked. */
  datatype Walk = Walk(topology: ShardTopology, orders: Orders)

  ghost predicate ListsShards(walks: seq<Walk>, shards: map<u64, ShardTopology>)
  {
    && (forall i :: 0 <= i < |walks| ==>
          && Walks(walks[i].orders, walks[i].topology)
          && walks[i].topology.shardID in shards && shards[walks[i].topology.shardID] == walks[i].topology)
    && (forall i, j :: 0 <= i < j < |walks| ==> walks[i].topology.shardID != walks[j].topology.shardID)
    && |walks| == |shards|
  }

  function NodeFrame(n: Node): Bytes { PrintField(4, EncodeNodeAddr(n)) }

  function ShardFrame(w: Walk): Bytes { PrintField(4, EncodeTopology(w.topology, w.orders)) }

  function Saved(addrs: seq<Node>, walks: seq<Walk>): Bytes
  {
    BigEndian(|addrs|, 4) + PrintAll(NodeFrame, addrs) + (BigEndian(|walks|, 4) + PrintAll(ShardFrame, walks))
  }

  /** What has been loaded so far, and the unread bytes unless reading failed. */
  datatype Loaded = Loaded(state: State, rest: Option<Bytes>)

  function LoadAddrs(n: nat, s: Bytes, st: State): Loaded
  {
    if n == 0 then Loaded(st, Some(s))
    else match ParseField(4, s)
      case Bad => Loaded(st, None)
      case Good(cmd, rest) =>
        match DecodeNodeAddr(cmd)
        case None => Loaded(st, None)
        case Some(node) => LoadAddrs(n - 1, rest, Registered(st, node))
  }

  function LoadShards(n: nat, s: Bytes, st: State): Loaded
  {
    if n == 0 then Loaded(st, Some(s))
    else match ParseField(4, s)
      case Bad => Loaded(st, None)
      case Good(cmd, rest) =>
        match DecodeTopology(cmd)
        case None => Loaded(st, None)
        case Some(t) => LoadShards(n - 1, rest, Installed(st, t))
  }

  function LoadShardSection(s: Bytes, st: State): Loaded
  {
    match ParseWord(4, s)
    case Bad => Loaded(st, None)
    case Good(n, rest) => LoadShards(n, rest, st)
  }

  /** The state is dropped first; an error keeps whatever was read before it. */
  function Recovered(data: Bytes): Loaded
  {
    match ParseWord(4, data)
    case Bad => Loaded(FRESH, None)
    case Good(n, rest) =>
      var addrs := LoadAddrs(n, rest, FRESH);
      match addrs.rest
      case None => addrs
      case Some(s) => LoadShardSection(s, addrs.state)
  }

  // ── A saved state is read back ──────────────────────────────────────────────

  lemma PrintAllHead<T>(enc: T -> Bytes, ts: seq<T>, rest: Bytes)
    requires ts != []
    ensures PrintAll(enc, ts) + rest == enc(ts[0]) + (PrintAll(enc, ts[1..]) + rest)
  {
  }

  /** The first entry of a walk is in the map; the others walk what is left. */
  lemma ListsTail(order: seq<Node>, m: NodeMap)
    requires order != [] && Lists(order, m) && AddrsFit(m)
    ensures Lists(order[1..], m - {order[0].id}) && AddrsFit(m - {order[0].id})
    ensures order[0].id in m && m[order[0].id] == order[0].addr && NodeFits(order[0])
  {
    assert (m - {order[0].id}).Keys == m.Keys - {order[0].id};
  }

  lemma NodeFrameReads(n: Node, rest: Bytes)
    requires NodeFits(n)
    ensures ParseField(4, NodeFrame(n) + rest) == Good(EncodeNodeAddr(n), rest)
    ensures DecodeNodeAddr(EncodeNodeAddr(n)) == Some(n)
  {
    hide ParseField;
    hide PrintField;
    hide PrintNode;
    hide DecodeNodeAddr;
    CapacityValues();
    NodeSize(n);
    FieldLaw(4, NodeFrame(n) + rest, EncodeNodeAddr(n), rest);
    NodeAddrRoundTrip(n);
  }

  lemma ShardFrameReads(w: Walk, rest: Bytes)
    requires Walks(w.orders, w.topology) && ShardFits(w.topology)
    ensures ParseField(4, ShardFrame(w) + rest) == Good(EncodeTopology(w.topology, w.orders), rest)
    ensures DecodeTopology(EncodeTopology(w.topology, w.orders)) == Some(w.topology)
  {
    hide ParseField;
    hide PrintField;
    hide EncodeTopology;
    hide DecodeTopology;
    hide TopologyFits;
    hide TopologySize;
    hide Walks;
    CapacityValues();
    EncodedSize(w.topology, w.orders);
    FieldLaw(4, ShardFrame(w) + rest, EncodeTopology(w.topology, w.orders), rest);
    TopologyRoundTrip(w.topology, w.orders);
  }

  lemma LoadAddr(n: Node, k: nat, rest: Bytes, st: State)
    requires NodeFits(n)
    ensures LoadAddrs(k + 1, NodeFrame(n) + rest, st) == LoadAddrs(k, rest, Registered(st, n))
  {
    hide NodeFrame;
    hide ParseField;
    hide DecodeNodeAddr;
    hide EncodeNodeAddr;
    NodeFrameReads(n, rest);
  }

  lemma LoadShard(w: Walk, k: nat, rest: Bytes, st: State)
    requires Walks(w.orders, w.topology) && ShardFits(w.topology)
    ensures LoadShards(k + 1, ShardFrame(w) + rest, st) == LoadShards(k, rest, Installed(st, w.topology))
  {
    hide ShardFrame;
    hide ParseField;
    hide DecodeTopology;
    hide EncodeTopology;
    hide ShardFits;
    hide Walks;
    ShardFrameReads(w, rest);
  }

  lemma RegisterMerges(st: State, n: Node, m: NodeMap)
    requires n.id in m && m[n.id] == n.addr
    ensures Registered(st, n).grpcAddrs + (m - {n.id}) == st.grpcAddrs + m
    ensures Registered(st, n).shards == st.shards && Registered(st, n).epoch == st.epoch
  {
  }

  /** Registering the first entry leaves a smaller map to merge in. */
  lemma Peeled(order: seq<Node>, m: NodeMap, st: State) returns (less: NodeMap)
    requires order != [] && Lists(order, m) && AddrsFit(m)
    ensures Lists(order[1..], less) && AddrsFit(less)
    ensures var next := Registered(st, order[0]);
            next.grpcAddrs + less == st.grpcAddrs + m && next.shards == st.shards && next.epoch == st.epoch
  {
    hide *;
    ListsTail(order, m);
    RegisterMerges(st, order[0], m);
    less := m - {order[0].id};
  }

  lemma InstallMerges(st: State, t: ShardTopology, shards: map<u64, ShardTopology>)
    requires t.shardID in shards && shards[t.shardID] == t
    ensures Installed(st, t).shards + (shards - {t.shardID}) == st.shards + shards
    ensures Installed(st, t).grpcAddrs == st.grpcAddrs
  {
  }

  lemma NoAddrs(order: seq<Node>, m: NodeMap, rest: Bytes, st: State)
    requires Lists(order, m) && order == []
    ensures LoadAddrs(|order|, PrintAll(NodeFrame, order) + rest, st) == Loaded(st, Some(rest))
    ensures st.grpcAddrs + m == st.grpcAddrs
  {
    assert m.Keys == {};
    assert PrintAll(NodeFrame, order) + rest == rest;
  }

  lemma AddrsHead(order: seq<Node>, m: NodeMap, rest: Bytes, st: State)
    requires Lists(order, m) && AddrsFit(m) && order != []
    ensures LoadAddrs(|order|, PrintAll(NodeFrame, order) + rest, st)
            == LoadAddrs(|order| - 1, PrintAll(NodeFrame, order[1..]) + rest, Registered(st, order[0]))
  {
    hide *;
    ListsTail(order, m);
    PrintAllHead(NodeFrame, order, rest);
    LoadAddr(order[0], |order| - 1, PrintAll(NodeFrame, order[1..]) + rest, st);
  }

  lemma NoShards(shards: map<u64, ShardTopology>, rest: Bytes, st: State)
    requires ListsShards([], shards)
    ensures LoadShards(0, PrintAll(ShardFrame, []) + rest, st)
            == Loaded(st.(shards := st.shards + shards), Some(rest))
    ensures Largest(st.epoch, st.epoch, shards)
  {
    assert shards.Keys == {};
    assert st.shards + shards == st.shards;
    assert PrintAll(ShardFrame, []) + rest == rest;
  }

  lemma {:induction false} AddrsReadBack(order: seq<Node>, m: NodeMap, rest: Bytes, st: State)
    requires Lists(order, m) && AddrsFit(m)
    ensures var l := LoadAddrs(|order|, PrintAll(NodeFrame, order) + rest, st);
            && l.rest == Some(rest) && l.state.grpcAddrs == st.grpcAddrs + m
            && l.state.shards == st.shards && l.state.epoch == st.epoch
    decreases |order|
  {
    hide *;
    if order == [] {
      NoAddrs(order, m, rest, st);
    } else {
      AddrsHead(order, m, rest, st);
      var less := Peeled(order, m, st);
      AddrsReadBack(order[1..], less, rest, Registered(st, order[0]));
    }
  }

  /** e is the largest of base and the shards' epochs. */
  ghost predicate Largest(e: u64, base: u64, shards: map<u64, ShardTopology>)
  {
    && base <= e && (forall id :: id in shards ==> shards[id].epoch <= e)
    && (e == base || exists id :: id in shards && shards[id].epoch == e)
  }

  lemma ShardsTail(walks: seq<Walk>, shards: map<u64, ShardTopology>)
    requires walks != [] && ListsShards(walks, shards) && ShardsFit(shards)
    ensures var t := walks[0].topology;
            && ListsShards(walks[1..], shards - {t.shardID}) && ShardsFit(shards - {t.shardID})
            && t.shardID in shards && shards[t.shardID] == t
            && Walks(walks[0].orders, t) && ShardFits(t)
  {
    hide Walks;
    hide ShardFits;
    assert (shards - {walks[0].topology.shardID}).Keys == shards.Keys - {walks[0].topology.shardID};
  }

  lemma LargestStep(e: u64, st: State, t: ShardTopology, shards: map<u64, ShardTopology>)
    requires t.shardID in shards && shards[t.shardID] == t
    requires Largest(e, Installed(st, t).epoch, shards - {t.shardID})
    ensures Largest(e, st.epoch, shards)
  {
    var less := shards - {t.shardID};
    forall id | id in shards ensures shards[id].epoch <= e {
      if id != t.shardID { assert id in less && less[id] == shards[id]; }
    }
    if e != st.epoch && e != t.epoch {
      var id :| id in less && less[id].epoch == e;
      assert shards[id].epoch == e;
    }
  }

  lemma {:induction false} ShardsReadBack(walks: seq<Walk>, shards: map<u64, ShardTopology>, rest: Bytes, st: State)
    requires ListsShards(walks, shards) && ShardsFit(shards)
    ensures var l := LoadShards(|walks|, PrintAll(ShardFrame, walks) + rest, st);
            && l.rest == Some(rest) && l.state.shards == st.shards + shards && l.state.grpcAddrs == st.grpcAddrs
            && Largest(l.state.epoch, st.epoch, shards)
    decreases |walks|
  {
    hide *;
    if walks == [] {
      NoShards(shards, rest, st);
    } else {
      var w, tail := walks[0], PrintAll(ShardFrame, walks[1..]) + rest;
      var t := w.topology;
      PrintAllHead(ShardFrame, walks, rest);
      ShardsTail(walks, shards);
      LoadShard(w, |walks| - 1, tail, st);
      ShardsReadBack(walks[1..], shards - {t.shardID}, rest, Installed(st, t));
      InstallMerges(st, t, shards);
      LargestStep(LoadShards(|walks| - 1, tail, Installed(st, t)).state.epoch, st, t, shards);
    }
  }

  lemma AddrSectionReads(st: State, addrs: seq<Node>, section: Bytes)
    requires Lists(addrs, st.grpcAddrs) && AddrsFit(st.grpcAddrs) && |addrs| < 0x1_0000_0000
    ensures Recovered(BigEndian(|addrs|, 4) + (PrintAll(NodeFrame, addrs) + section))
            == LoadShardSection(section, FRESH.(grpcAddrs := st.grpcAddrs))
  {
    hide BigEndian;
    hide PrintAll;
    hide ParseWord;
    hide LoadAddrs;
    hide LoadShardSection;
    hide AddrsFit;
    hide Lists;
    CapacityValues();
    var body := PrintAll(NodeFrame, addrs) + section;
    WordLaw(4, BigEndian(|addrs|, 4) + body, |addrs|, body);
    AddrsReadBack(addrs, st.grpcAddrs, section, FRESH);
    assert FRESH.grpcAddrs + st.grpcAddrs == st.grpcAddrs;
  }

  lemma ShardSectionReads(st: State, walks: seq<Walk>)
    requires ListsShards(walks, st.shards) && ShardsFit(st.shards) && |walks| < 0x1_0000_0000
    ensures var l := LoadShardSection(BigEndian(|walks|, 4) + PrintAll(ShardFrame, walks),
                                      FRESH.(grpcAddrs := st.grpcAddrs));
            && l.rest == Some([]) && l.state.shards == st.shards && l.state.grpcAddrs == st.grpcAddrs
            && Largest(l.state.epoch, 0, st.shards)
  {
    hide BigEndian;
    hide PrintAll;
    hide ParseWord;
    hide LoadShards;
    hide ShardsFit;
    hide ListsShards;
    hide Largest;
    CapacityValues();
    var frames := PrintAll(ShardFrame, walks);
    WordLaw(4, BigEndian(|walks|, 4) + frames, |walks|, frames);
    ShardsReadBack(walks, st.shards, [], FRESH.(grpcAddrs := st.grpcAddrs));
    assert frames + [] == frames;
    assert FRESH.shards + st.shards == st.shards;
  }

  /** A state that fits is restored in full whatever order the maps are walked
      in, except that the epoch is counted again from the shards that survive. */
  lemma SavedReadsBack(st: State, addrs: seq<Node>, walks: seq<Walk>)
    requires Lists(addrs, st.grpcAddrs) && ListsShards(walks, st.shards) && SnapshotFits(st)
    ensures var r := Recovered(Saved(addrs, walks));
            && r.rest == Some([]) && r.state.shards == st.shards && r.state.grpcAddrs == st.grpcAddrs
            && Largest(r.state.epoch, 0, st.shards)
  {
    hide BigEndian;
    hide PrintAll;
    hide Recovered;
    hide LoadShardSection;
    hide AddrsFit;
    hide ShardsFit;
    hide Lists;
    hide ListsShards;
    hide Largest;
    ListsCount(addrs, st.grpcAddrs);
    ShardsCount(walks, st.shards);
    var section := BigEndian(|walks|, 4) + PrintAll(ShardFrame, walks);
    assert Saved(addrs, walks) == BigEndian(|addrs|, 4) + (PrintAll(NodeFrame, addrs) + section);
    AddrSectionReads(st, addrs, section);
    ShardSectionReads(st, walks);
  }

  // ── A snapshot cut short ────────────────────────────────────────────────────

  lemma {:induction false} LoadAddrsExtends(n: nat, s: Bytes, st: State, x: Bytes)
    requires LoadAddrs(n, s, st).rest.Some?
    ensures LoadAddrs(n, s + x, st) == Loaded(LoadAddrs(n, s, st).state, Some(LoadAddrs(n, s, st).rest.value + x))
    decreases n
  {
    hide ParseField;
    hide DecodeNodeAddr;
    if n > 0 {
      FieldExtends(4, s, x);
      var Good(cmd, rest) := ParseField(4, s);
      LoadAddrsExtends(n - 1, rest, Registered(st, DecodeNodeAddr(cmd).value), x);
    }
  }

  lemma {:induction false} LoadShardsExtends(n: nat, s: Bytes, st: State, x: Bytes)
    requires LoadShards(n, s, st).rest.Some?
    ensures LoadShards(n, s + x, st) == Loaded(LoadShards(n, s, st).state, Some(LoadShards(n, s, st).rest.value + x))
    decreases n
  {
    hide ParseField;
    hide DecodeTopology;
    if n > 0 {
      FieldExtends(4, s, x);
      var Good(cmd, rest) := ParseField(4, s);
      LoadShardsExtends(n - 1, rest, Installed(st, DecodeTopology(cmd).value), x);
    }
  }

  lemma RecoveredExtends(data: Bytes, x: Bytes)
    requires Recovered(data).rest.Some?
    ensures Recovered(data + x).rest == Some(Recovered(data).rest.value + x)
  {
    hide ParseWord;
    hide LoadAddrs;
    hide LoadShards;
    WordExtends(4, data, x);
    var Good(n, rest) := ParseWord(4, data);
    LoadAddrsExtends(n, rest, FRESH, x);
    var l := LoadAddrs(n, rest, FRESH);
    WordExtends(4, l.rest.value, x);
    var Good(k, frames) := ParseWord(4, l.rest.value);
    LoadShardsExtends(k, frames, l.state, x);
  }

  /** Recovering from any proper prefix of a saved state reports an error. */
  lemma TruncatedIsRefused(st: State, addrs: seq<Node>, walks: seq<Walk>, cut: nat)
    requires Lists(addrs, st.grpcAddrs) && ListsShards(walks, st.shards) && SnapshotFits(st)
    requires cut < |Saved(addrs, walks)|
    ensures Recovered(Saved(addrs, walks)[..cut]).rest == None
  {
    hide *;
    var data := Saved(addrs, walks);
    if Recovered(data[..cut]).rest.Some? {
      RecoveredExtends(data[..cut], data[cut..]);
      assert data[..cut] + data[cut..] == data;
      SavedReadsBack(st, addrs, walks);
    }
  }

  // ── Whatever is recovered fits ──────────────────────────────────────────────

  lemma {:induction false} LoadAddrsFits(n: nat, s: Bytes, st: State)
    requires Inv(st)
    ensures var l := LoadAddrs(n, s, st);
            Inv(l.state) && |l.state.grpcAddrs| <= |st.grpcAddrs| + n && l.state.shards == st.shards
    decreases n
  {
    hide Inv;
    hide ParseField;
    hide DecodeNodeAddr;
    if n > 0 && ParseField(4, s).Good? {
      var Good(cmd, rest) := ParseField(4, s);
      if DecodeNodeAddr(cmd).Some? {
        RegisteredInv(st, cmd);
        LoadAddrsFits(n - 1, rest, Registered(st, DecodeNodeAddr(cmd).value));
      }
    }
  }

  lemma {:induction false} LoadShardsFits(n: nat, s: Bytes, st: State)
    requires Inv(st)
    ensures var l := LoadShards(n, s, st);
            Inv(l.state) && |l.state.shards| <= |st.shards| + n && l.state.grpcAddrs == st.grpcAddrs
    decreases n
  {
    hide Inv;
    hide ParseField;
    hide DecodeTopology;
    if n > 0 && ParseField(4, s).Good? {
      var Good(cmd, rest) := ParseField(4, s);
      if DecodeTopology(cmd).Some? {
        CapacityValues();
        FieldLaw(4, s, cmd, rest);
        InstalledInv(st, cmd);
        LoadShardsFits(n - 1, rest, Installed(st, DecodeTopology(cmd).value));
      }
    }
  }

  /** Even when a read fails part of the way, the state it leaves satisfies the invariant. */
  lemma RecoveredFits(data: Bytes)
    ensures Inv(Recovered(data).state) && SnapshotFits(Recovered(data).state)
  {
    hide LoadAddrs;
    hide LoadShards;
    hide ParseWord;
    hide ShardsFit;
    CapacityValues();
    FreshInv();
    var head := ParseWord(4, data);
    if head.Good? {
      WordLaw(4, data, head.value, head.rest);
      LoadAddrsFits(head.value, head.rest, FRESH);
      var l := LoadAddrs(head.value, head.rest, FRESH);
      if l.rest.Some? {
        var second := ParseWord(4, l.rest.value);
        if second.Good? {
          WordLaw(4, l.rest.value, second.value, second.rest);
          LoadShardsFits(second.value, second.rest, l.state);
        }
      }
    }
  }

  // ── The main results ────────────────────────────────────────────────────────

  ghost predicate Restored(l: Loaded, st: State)
  {
    l.rest.Some? && l.state.shards == st.shards && l.state.grpcAddrs == st.grpcAddrs
  }

  /** Saving and recovering restores shards and addresses, for every walk of
      every map, exactly when the state fits the format. */
  lemma SaveRecoverIff(st: State, addrs: seq<Node>, walks: seq<Walk>)
    requires Lists(addrs, st.grpcAddrs) && ListsShards(walks, st.shards)
    ensures Restored(Recovered(Saved(addrs, walks)), st) <==> SnapshotFits(st)
  {
    hide Saved;
    hide Recovered;
    RecoveredFits(Saved(addrs, walks));
    if SnapshotFits(st) {
      SavedReadsBack(st, addrs, walks);
    }
  }

  /** The recovered epoch is the largest among the surviving shards. It never
      exceeds the saved one, and equals it exactly when a surviving shard still
      carries the saved epoch or no epoch was ever raised. */
  lemma RecoveredEpoch(st: State, addrs: seq<Node>, walks: seq<Walk>)
    requires Lists(addrs, st.grpcAddrs) && ListsShards(walks, st.shards) && SnapshotFits(st) && Bounded(st)
    ensures var e := Recovered(Saved(addrs, walks)).state.epoch;
            && Largest(e, 0, st.shards) && e <= st.epoch
            && (e == st.epoch <==> st.epoch == 0 || exists id :: id in st.shards && st.shards[id].epoch == st.epoch)
  {
    hide Saved;
    hide Recovered;
    hide SnapshotFits;
    SavedReadsBack(st, addrs, walks);
  }

  /** Every log whose entries and length stay below 2^32 leads to a state that a
      snapshot restores. */
  lemma RunsRestore(cmds: seq<Bytes>, addrs: seq<Node>, walks: seq<Walk>)
    requires |cmds| < 0x1_0000_0000 && forall i :: 0 <= i < |cmds| ==> |cmds[i]| < 0x1_0000_0000
    requires Lists(addrs, Run(FRESH, cmds).grpcAddrs) && ListsShards(walks, Run(FRESH, cmds).shards)
    ensures Restored(Recovered(Saved(addrs, walks)), Run(FRESH, cmds))
    ensures Recovered(Saved(addrs, walks)).state.epoch <= Run(FRESH, cmds).epoch
  {
    hide Saved;
    hide Recovered;
    hide Run;
    hide AddrsFit;
    hide ShardsFit;
    RunInv(cmds);
    SaveRecoverIff(Run(FRESH, cmds), addrs, walks);
    RecoveredEpoch(Run(FRESH, cmds), addrs, walks);
  }

  // ── A member that joined by snapshot and one that stayed ────────────────────

  /** Some entry of the suffix raises the epoch at least this far. */
  ghost predicate Reaches(cmds: seq<Bytes>, e: u64)
  {
    exists i :: 0 <= i < |cmds| && DecodeTopology(cmds[i]).Some? && DecodeTopology(cmds[i]).value.epoch >= e
  }

  lemma {:induction false} SameShardsAfter(a: State, b: State, cmds: seq<Bytes>)
    requires a.shards == b.shards && a.grpcAddrs == b.grpcAddrs
    ensures Run(a, cmds).shards == Run(b, cmds).shards && Run(a, cmds).grpcAddrs == Run(b, cmds).grpcAddrs
  {
    hide DecodeTopology;
    hide DecodeNodeAddr;
    if cmds != [] { SameShardsAfter(a, b, cmds[..|cmds| - 1]); }
  }

  /** Two members that differ only in the epoch go on agreeing on shards and
      addresses, and agree on the epoch once an entry reaches the larger one and
      not before. */
  lemma EpochsMeetIff(stayed: State, joined: State, cmds: seq<Bytes>)
    requires stayed.shards == joined.shards && stayed.grpcAddrs == joined.grpcAddrs && joined.epoch < stayed.epoch
    ensures Run(joined, cmds) == Run(stayed, cmds) <==> Reaches(cmds, stayed.epoch)
  {
    hide DecodeTopology;
    SameShardsAfter(stayed, joined, cmds);
    EpochIsLargest(stayed, cmds);
    EpochIsLargest(joined, cmds);
    var a, b := Run(stayed, cmds).epoch, Run(joined, cmds).epoch;
    if Reaches(cmds, stayed.epoch) {
      var i :| 0 <= i < |cmds| && DecodeTopology(cmds[i]).Some? && DecodeTopology(cmds[i]).value.epoch >= stayed.epoch;
      assert b >= stayed.epoch;
      assert a <= b && b <= a;
    }
  }

  // ── An epoch that falls back ────────────────────────────────────────────────

  const NO_ORDERS := Orders([], [], [], [])

  function ShardAt(epoch: u64): ShardTopology
  {
    ShardTopology(1, 0, 0, epoch, 0, [], map[], map[], map[], map[])
  }

  lemma ShardAtFits(epoch: u64)
    ensures Walks(NO_ORDERS, ShardAt(epoch)) && ShardFits(ShardAt(epoch))
    ensures DecodeTopology(EncodeTopology(ShardAt(epoch), NO_ORDERS)) == Some(ShardAt(epoch))
  {
    hide DecodeTopology;
    hide EncodeTopology;
    TopologyRoundTrip(ShardAt(epoch), NO_ORDERS);
  }

  /** Shard 1 reports epoch 5 and then epoch 3: the replica stands at 5, and a
      member that recovers its snapshot at 3. */
  lemma EpochFallsBack()
    ensures var cmds := [EncodeTopology(ShardAt(5), NO_ORDERS), EncodeTopology(ShardAt(3), NO_ORDERS)];
            && Run(FRESH, cmds) == State(map[1 := ShardAt(3)], 5, map[])
            && Recovered(Saved([], [Walk(ShardAt(3), NO_ORDERS)])).state.epoch == 3
  {
    hide DecodeTopology;
    hide EncodeTopology;
    hide Recovered;
    hide Saved;
    hide ShardFits;
    hide Walks;
    ShardAtFits(5);
    ShardAtFits(3);
    var a, b := EncodeTopology(ShardAt(5), NO_ORDERS), EncodeTopology(ShardAt(3), NO_ORDERS);
    var one := State(map[1 := ShardAt(5)], 5, map[]);
    OneReading(FRESH, a);
    OneReading(one, b);
    var none: seq<Bytes> := [];
    assert [a, b][..1] == [a] && [a][..0] == none;
    assert Run(FRESH, [a]) == one;
    var st := State(map[1 := ShardAt(3)], 5, map[]);
    assert Run(FRESH, [a, b]) == st;
    SavedReadsBack(st, [], [Walk(ShardAt(3), NO_ORDERS)]);
    assert st.shards[1].epoch == 3;
  }

  // ── Walking the shard map ───────────────────────────────────────────────────

  /** Some walk of the shards, listed so far, has yet to visit rest. */
  ghost predicate WalkingShards(walks: seq<Walk>, rest: map<u64, ShardTopology>, shards: map<u64, ShardTopology>)
  {
    && rest.Keys <= shards.Keys && (forall k :: k in rest ==> rest[k] == shards[k])
    && (forall i :: 0 <= i < |walks| ==>
          && Walks(walks[i].orders, walks[i].topology)
          && walks[i].topology.shardID in shards && walks[i].topology.shardID !in rest
          && shards[walks[i].topology.shardID] == walks[i].topology)
    && (forall i, j :: 0 <= i < j < |walks| ==> walks[i].topology.shardID != walks[j].topology.shardID)
    && |walks| + |rest| == |shards|
  }

  lemma ShardWalkStart(shards: map<u64, ShardTopology>)
    ensures WalkingShards([], shards, shards) && PrintAll(ShardFrame, []) == []
  {
  }

  lemma ShardWalkStep(walks: seq<Walk>, rest: map<u64, ShardTopology>, shards: map<u64, ShardTopology>,
                      id: u64, o: Orders)
    requires WalkingShards(walks, rest, shards) && Keyed(shards) && id in rest && Walks(o, rest[id])
    ensures WalkingShards(walks + [Walk(rest[id], o)], rest - {id}, shards) && |rest - {id}| < |rest|
  {
    hide Walks;
    assert (rest - {id}).Keys == rest.Keys - {id};
    assert rest[id].shardID == id;
  }

  lemma ShardWalkEnd(walks: seq<Walk>, shards: map<u64, ShardTopology>)
    requires WalkingShards(walks, map[], shards)
    ensures ListsShards(walks, shards)
  {
    hide Walks;
  }

  lemma FrameOfNode(n: Node)
    ensures NodeFrame(n) == BigEndian(|EncodeNodeAddr(n)|, 4) + EncodeNodeAddr(n)
  {
  }

  lemma FrameOfShard(w: Walk)
    ensures ShardFrame(w) == BigEndian(|EncodeTopology(w.topology, w.orders)|, 4) + EncodeTopology(w.topology, w.orders)
  {
  }

  lemma ListsCount(order: seq<Node>, m: NodeMap)
    requires Lists(order, m)
    ensures |order| == |m|
  {
  }

  lemma ShardsCount(walks: seq<Walk>, shards: map<u64, ShardTopology>)
    requires ListsShards(walks, shards)
    ensures |walks| == |shards|
  {
  }

  lemma AddrWalkStart(m: NodeMap)
    ensures Walking([], m, m) && PrintAll(NodeFrame, []) == []
  {
  }

  // ── The state machine itself ────────────────────────────────────────────────

  class StateMachine {
    var shards: map<u64, ShardTopology>
    var epoch: u64
    var grpcAddrs: NodeMap

    function View(): (st: State)
      reads this
    {
      State(shards, epoch, grpcAddrs)
    }

    /** Every shard is filed under its own ID. */
    ghost predicate Valid()
      reads this
    {
      Keyed(shards)
    }

    constructor ()
      ensures Valid() && View() == FRESH
    {
      shards, epoch, grpcAddrs := map[], 0, map[];
    }

    method Install(t: ShardTopology)
      requires Valid()
      modifies this
      ensures Valid() && View() == Installed(old(View()), t)
    {
      shards := shards[t.shardID := t];
      if t.epoch > epoch {
        epoch := t.epoch;
      }
    }

    method Update(cmd: Bytes) returns (value: nat)
      requires Valid()
      modifies this
      ensures Valid() && Outcome(View(), value) == Applied(old(View()), cmd)
    {
      hide DecodeTopology;
      hide DecodeNodeAddr;
      if |cmd| == 0 {
        return 0;
      }
      if cmd[0] == UPDATE_TOPOLOGY {
        var topo := UnmarshalUpdateTopology(cmd);
        if topo == None {
          return 0;
        }
        Install(topo.value);
        return 1;
      } else if cmd[0] == REGISTER_NODE {
        var node := UnmarshalRegisterNodeAddr(cmd);
        if node == None {
          return 0;
        }
        grpcAddrs := grpcAddrs[node.value.id := node.value.addr];
        return 1;
      }
      return 0;
    }

    method SaveAddrs() returns (out: Bytes, ghost order: seq<Node>)
      ensures Lists(order, grpcAddrs) && out == BigEndian(|order|, 4) + PrintAll(NodeFrame, order)
    {
      hide *;
      ghost var m := grpcAddrs;
      AddrWalkStart(m);
      var frames: Bytes := [];
      order := [];
      var rest := grpcAddrs;
      while rest != map[]
        invariant Walking(order, rest, m) && frames == PrintAll(NodeFrame, order)
        decreases |rest|
      {
        var id :| id in rest;
        ghost var n := Node(id, rest[id]);
        MapBytesPick(rest, id);
        WalkStep(order, rest, m, id);
        PrintAllSnoc(NodeFrame, order, n);
        var cmd := MarshalRegisterNodeAddr(Node(id, rest[id]));
        FrameOfNode(n);
        frames := frames + (BigEndian(cmd.Length, 4) + cmd[..]);
        order, rest := order + [n], rest - {id};
      }
      WalkEnd(order, m);
      ListsCount(order, m);
      out := BigEndian(|grpcAddrs|, 4) + frames;
    }

    method SaveShards() returns (out: Bytes, ghost walks: seq<Walk>)
      requires Valid()
      ensures ListsShards(walks, shards) && out == BigEndian(|walks|, 4) + PrintAll(ShardFrame, walks)
    {
      assert Keyed(shards);
      hide *;
      ghost var all := shards;
      ShardWalkStart(all);
      var frames: Bytes := [];
      walks := [];
      var rest := shards;
      while rest != map[]
        invariant WalkingShards(walks, rest, all) && frames == PrintAll(ShardFrame, walks)
        decreases |rest|
      {
        var id :| id in rest;
        var cmd;
        ghost var o;
        cmd, o := MarshalUpdateTopology(rest[id]);
        ghost var w := Walk(rest[id], o);
        ShardWalkStep(walks, rest, all, id, o);
        PrintAllSnoc(ShardFrame, walks, w);
        FrameOfShard(w);
        frames := frames + (BigEndian(cmd.Length, 4) + cmd[..]);
        walks, rest := walks + [w], rest - {id};
      }
      ShardWalkEnd(walks, all);
      ShardsCount(walks, all);
      out := BigEndian(|shards|, 4) + frames;
    }

    /** Writes some walk of the registry, then some walk of the shards. */
    method SaveSnapshot() returns (out: Bytes, ghost order: seq<Node>, ghost walks: seq<Walk>)
      requires Valid()
      ensures Lists(order, grpcAddrs) && ListsShards(walks, shards) && out == Saved(order, walks)
      ensures Restored(Recovered(out), View()) <==> SnapshotFits(View())
    {
      hide BigEndian;
      hide PrintAll;
      hide Lists;
      hide ListsShards;
      hide Restored;
      hide Recovered;
      hide SnapshotFits;
      var addrs, topologies;
      addrs, order := SaveAddrs();
      topologies, walks := SaveShards();
      out := addrs + topologies;
      SaveRecoverIff(View(), order, walks);
    }

    method RecoverAddrs(data: Bytes, count: nat, start: nat) returns (ok: bool, pos: nat)
      requires Valid() && start <= |data|
      modifies this
      ensures Valid()
      ensures ok ==> pos <= |data| && LoadAddrs(count, data[start..], old(View())) == Loaded(View(), Some(data[pos..]))
      ensures !ok ==> LoadAddrs(count, data[start..], old(View())) == Loaded(View(), None)
    {
      hide ParseField;
      hide DecodeNodeAddr;
      pos := start;
      for i := 0 to count
        invariant Valid() && pos <= |data|
        invariant LoadAddrs(count, data[start..], old(View())) == LoadAddrs(count - i, data[pos..], View())
      {
        var read, cmd, next := ReadField(data, pos, 4);
        if !read {
          return false, 0;
        }
        var node := UnmarshalRegisterNodeAddr(cmd);
        if node == None {
          return false, 0;
        }
        grpcAddrs := grpcAddrs[node.value.id := node.value.addr];
        pos := next;
      }
      ok := true;
    }

    method RecoverShards(data: Bytes, count: nat, start: nat) returns (ok: bool, pos: nat)
      requires Valid() && start <= |data|
      modifies this
      ensures Valid()
      ensures ok ==> pos <= |data| && LoadShards(count, data[start..], old(View())) == Loaded(View(), Some(data[pos..]))
      ensures !ok ==> LoadShards(count, data[start..], old(View())) == Loaded(View(), None)
    {
      hide ParseField;
      hide DecodeTopology;
      pos := start;
      for i := 0 to count
        invariant Valid() && pos <= |data|
        invariant LoadShards(count, data[start..], old(View())) == LoadShards(count - i, data[pos..], View())
      {
        var read, cmd, next := ReadField(data, pos, 4);
        if !read {
          return false, 0;
        }
        var topo := UnmarshalUpdateTopology(cmd);
        if topo == None {
          return false, 0;
        }
        Install(topo.value);
        pos := next;
      }
      ok := true;
    }

    method RecoverFromSnapshot(data: Bytes) returns (ok: bool)
      modifies this
      ensures Valid() && View() == Recovered(data).state && ok == Recovered(data).rest.Some?
    {
      hide LoadAddrs;
      hide LoadShards;
      shards, epoch, grpcAddrs := map[], 0, map[];
      if |data| < 4 {
        return false;
      }
      var pos;
      ok, pos := RecoverAddrs(data, FromBigEndian(data[..4]), 4);
      if !ok {
        return;
      }
      if pos + 4 > |data| {
        return false;
      }
      assert data[pos..][..4] == data[pos..pos + 4] && data[pos..][4..] == data[pos + 4..];
      ok, pos := RecoverShards(data, FromBigEndian(data[pos..pos + 4]), pos + 4);
    }
  }
}
