/** The cluster-metadata commands. Go walks maps in no particular order, so a
    topology has as many encodings as its maps have orders. */
module MetadataCommands {
  import opened Bytes
  import opened WireFormat

  const UPDATE_TOPOLOGY: byte := 0
  const REGISTER_NODE: byte := 1

  /** Addresses are kept as the bytes of their strings. */
  type NodeMap = map<u64, Bytes>

  datatype ShardTopology = ShardTopology(shardID: u64, leaderID: u64, term: u64, epoch: u64, configChangeID: u64,
                                         leaderAddr: Bytes, nodes: NodeMap, nonVotings: NodeMap,
                                         witnesses: NodeMap, grpcAddrs: NodeMap)

  // ── Node maps, in any order ─────────────────────────────────────────────────

  datatype Node = Node(id: u64, addr: Bytes)

  /** The order lists every entry of the map exactly once. */
  ghost predicate Lists(order: seq<Node>, m: NodeMap)
  {
    && (forall i :: 0 <= i < |order| ==> order[i].id in m && m[order[i].id] == order[i].addr)
    && (forall i, j :: 0 <= i < j < |order| ==> order[i].id != order[j].id)
    && |order| == |m|
  }

  function MapOf(order: seq<Node>): NodeMap
  {
    if order == [] then map[] else MapOf(order[..|order| - 1])[order[|order| - 1].id := order[|order| - 1].addr]
  }

  /** Dropping the last entry of a walk leaves a walk of the remaining map. */
  lemma ListsInit(order: seq<Node>, m: NodeMap)
    requires order != [] && Lists(order, m)
    ensures Lists(order[..|order| - 1], m - {order[|order| - 1].id})
  {
    var id := order[|order| - 1].id;
    assert (m - {id}).Keys == m.Keys - {id};
  }

  /** Whatever order the map was walked in, it is restored. */
  lemma {:induction false} MapOfLists(order: seq<Node>, m: NodeMap)
    requires Lists(order, m)
    ensures MapOf(order) == m
  {
    if order == [] {
      assert m.Keys == {};
    } else {
      ListsInit(order, m);
      MapOfLists(order[..|order| - 1], m - {order[|order| - 1].id});
    }
  }

  /** What the entries of a map occupy on the wire; no walk is singled out. */
  ghost function MapBytes(m: NodeMap): nat
    decreases |m|
  {
    if m == map[] then 0
    else
      var id :| id in m;
      assert (m - {id}).Keys == m.Keys - {id};
      10 + |m[id]| + MapBytes(m - {id})
  }

  /** Any entry may be counted first. */
  lemma {:induction false} MapBytesPick(m: NodeMap, id: u64)
    requires id in m
    ensures |m - {id}| == |m| - 1
    ensures MapBytes(m) == 10 + |m[id]| + MapBytes(m - {id})
    decreases |m|
  {
    assert (m - {id}).Keys == m.Keys - {id};
    assert m != map[];
    var first :| first in m && MapBytes(m) == 10 + |m[first]| + MapBytes(m - {first});
    assert (m - {first}).Keys == m.Keys - {first};
    if first != id {
      MapBytesPick(m - {first}, id);
      MapBytesPick(m - {id}, first);
      assert m - {first} - {id} == m - {id} - {first};
    }
  }

  /** Every walk of a map prints the same number of bytes. */
  lemma {:induction false} WalkSize(order: seq<Node>, m: NodeMap)
    requires Lists(order, m)
    ensures |PrintNodes(order)| == 2 + MapBytes(m)
  {
    hide BigEndian;
    if order == [] {
      assert m.Keys == {};
      assert m == map[];
    } else {
      var init, last := order[..|order| - 1], order[|order| - 1];
      ListsInit(order, m);
      WalkSize(init, m - {last.id});
      MapBytesPick(m, last.id);
      PrintAllSnoc(PrintNode, init, last);
      assert order == init + [last];
      NodeSize(last);
    }
  }

  lemma NodeSize(n: Node)
    ensures |PrintNode(n)| == 10 + |n.addr|
  {
  }

  lemma PutBytes(m: NodeMap, n: Node)
    ensures |m[n.id := n.addr]| <= |m| + 1
    ensures MapBytes(m[n.id := n.addr]) <= MapBytes(m) + 10 + |n.addr|
  {
    hide MapBytes;
    var put := m[n.id := n.addr];
    assert put.Keys == m.Keys + {n.id};
    MapBytesPick(put, n.id);
    assert put - {n.id} == m - {n.id};
    if n.id in m {
      MapBytesPick(m, n.id);
    } else {
      assert m - {n.id} == m;
    }
  }

  /** Repeated identifiers only make the map smaller than its encoding. */
  lemma {:induction false} MapOfSmall(order: seq<Node>)
    ensures |MapOf(order)| <= |order|
    ensures MapBytes(MapOf(order)) <= |PrintAll(PrintNode, order)|
  {
    hide PrintNode;
    if order != [] {
      hide PrintAll;
      hide MapBytes;
      var init, last := order[..|order| - 1], order[|order| - 1];
      MapOfSmall(init);
      PutBytes(MapOf(init), last);
      PrintAllSnoc(PrintNode, init, last);
      assert order == init + [last];
      NodeSize(last);
    }
  }

  lemma {:induction false} MapOfFits(order: seq<Node>)
    requires forall i :: 0 <= i < |order| ==> NodeFits(order[i])
    ensures AddrsFit(MapOf(order))
  {
    if order != [] { MapOfFits(order[..|order| - 1]); }
  }

  function PrintNode(n: Node): Bytes { BigEndian(n.id, 8) + PrintField(2, n.addr) }

  function ParseNode(s: Bytes): (r: Parsed<Node>)
  {
    CapacityValues();
    match ParseWord(8, s)
    case Bad => Bad
    case Good(id, s1) =>
      match ParseField(2, s1)
      case Bad => Bad
      case Good(addr, rest) => Good(Node(id, addr), rest)
  }

  predicate NodeFits(n: Node) { |n.addr| < 0x1_0000 }

  predicate AddrsFit(m: NodeMap)
  {
    forall k :: k in m ==> |m[k]| < 0x1_0000
  }

  /** Both the number of entries and every address fit sixteen bits. */
  predicate MapFits(m: NodeMap)
  {
    |m| < 0x1_0000 && AddrsFit(m)
  }

  lemma NodeLaw()
    ensures Law(PrintNode, ParseNode, NodeFits)
  {
    hide BigEndian;
    hide PrintField;
    hide ParseField;
    hide ParseWord;
    CapacityValues();
    forall s, n, rest ensures LawAt(PrintNode, ParseNode, NodeFits, s, n, rest) {
      var s1 := PrintField(2, n.addr) + rest;
      assert PrintNode(n) + rest == BigEndian(n.id, 8) + s1;
      WordLaw(8, s, n.id, s1);
      FieldLaw(2, s1, n.addr, rest);
      if ParseNode(s) == Good(n, rest) {
        var r1 := ParseWord(8, s).rest;
        WordLaw(8, s, n.id, r1);
        FieldLaw(2, r1, n.addr, rest);
      }
    }
  }

  function PrintNodes(order: seq<Node>): Bytes { BigEndian(|order|, 2) + PrintAll(PrintNode, order) }

  function ParseNodes(s: Bytes): (r: Parsed<NodeMap>)
  {
    match ParseWord(2, s)
    case Bad => Bad
    case Good(n, s1) =>
      match ParseMany(ParseNode, n, s1)
      case Bad => Bad
      case Good(order, rest) => Good(MapOf(order), rest)
  }

  lemma NodesRoundTrip(order: seq<Node>, m: NodeMap, rest: Bytes)
    requires Lists(order, m) && MapFits(m)
    ensures ParseNodes(PrintNodes(order) + rest) == Good(m, rest)
  {
    hide BigEndian;
    hide PrintAll;
    hide ParseMany;
    hide ParseWord;
    CapacityValues();
    NodeLaw();
    var body := PrintAll(PrintNode, order) + rest;
    assert PrintNodes(order) + rest == BigEndian(|order|, 2) + body;
    WordLaw(2, PrintNodes(order) + rest, |order|, body);
    assert forall i :: 0 <= i < |order| ==> NodeFits(order[i]);
    ManyLaw(PrintNode, ParseNode, NodeFits, |order|, body, order, rest);
    MapOfLists(order, m);
  }

  lemma ParsedNodesFit(s: Bytes)
    requires ParseNodes(s).Good?
    ensures MapFits(ParseNodes(s).value)
    ensures 2 + MapBytes(ParseNodes(s).value) + |ParseNodes(s).rest| <= |s|
  {
    hide MapFits;
    hide MapBytes;
    CapacityValues();
    NodeLaw();
    var Good(n, s1) := ParseWord(2, s);
    var Good(order, rest) := ParseMany(ParseNode, n, s1);
    ManyLaw(PrintNode, ParseNode, NodeFits, n, s1, order, rest);
    MapOfSmall(order);
    MapOfFits(order);
    SmallFits(MapOf(order), n);
  }

  lemma SmallFits(m: NodeMap, n: nat)
    requires |m| <= n < 0x1_0000 && AddrsFit(m)
    ensures MapFits(m)
  {
  }

  // ── Topology commands ───────────────────────────────────────────────────────

  /** The orders in which the four maps happen to be walked. */
  datatype Orders = Orders(nodes: seq<Node>, nonVotings: seq<Node>, witnesses: seq<Node>, grpcAddrs: seq<Node>)

  ghost predicate Walks(o: Orders, t: ShardTopology)
  {
    Lists(o.nodes, t.nodes) && Lists(o.nonVotings, t.nonVotings)
    && Lists(o.witnesses, t.witnesses) && Lists(o.grpcAddrs, t.grpcAddrs)
  }

  predicate TopologyFits(t: ShardTopology)
  {
    |t.leaderAddr| < 0x1_0000
    && MapFits(t.nodes) && MapFits(t.nonVotings) && MapFits(t.witnesses) && MapFits(t.grpcAddrs)
  }

  /** The size MarshalUpdateTopologyCmd allocates. */
  ghost function TopologySize(t: ShardTopology): nat
  {
    51 + |t.leaderAddr| + MapBytes(t.nodes) + MapBytes(t.nonVotings) + MapBytes(t.witnesses) + MapBytes(t.grpcAddrs)
  }

  function PrintMaps(o: Orders): Bytes
  {
    PrintNodes(o.nodes) + (PrintNodes(o.nonVotings) + (PrintNodes(o.witnesses) + PrintNodes(o.grpcAddrs)))
  }

  function PrintWords(t: ShardTopology): (s: Bytes)
    ensures |s| == 40
  {
    BigEndian(t.shardID, 8) + BigEndian(t.leaderID, 8) + BigEndian(t.term, 8)
    + BigEndian(t.epoch, 8) + BigEndian(t.configChangeID, 8)
  }

  function EncodeTopology(t: ShardTopology, o: Orders): Bytes
  {
    [UPDATE_TOPOLOGY] + PrintWords(t) + PrintField(2, t.leaderAddr) + PrintMaps(o)
  }

  datatype Maps = Maps(nodes: NodeMap, nonVotings: NodeMap, witnesses: NodeMap, grpcAddrs: NodeMap)

  function ParseMaps(s: Bytes): (r: Parsed<Maps>)
  {
    match ParseNodes(s)
    case Bad => Bad
    case Good(nodes, s1) =>
      match ParseNodes(s1)
      case Bad => Bad
      case Good(nonVotings, s2) =>
        match ParseNodes(s2)
        case Bad => Bad
        case Good(witnesses, s3) =>
          match ParseNodes(s3)
          case Bad => Bad
          case Good(grpcAddrs, rest) => Good(Maps(nodes, nonVotings, witnesses, grpcAddrs), rest)
  }

  function DecodeTopology(data: Bytes): (r: Option<ShardTopology>)
  {
    if |data| < 43 || data[0] != UPDATE_TOPOLOGY then None
    else match ParseField(2, data[41..])
      case Bad => None
      case Good(leaderAddr, rest) =>
        match ParseMaps(rest)
        case Bad => None
        case Good(m, _) =>
          Some(ShardTopology(Uint64(data[1..]), Uint64(data[9..]), Uint64(data[17..]), Uint64(data[25..]),
                             Uint64(data[33..]), leaderAddr, m.nodes, m.nonVotings, m.witnesses, m.grpcAddrs))
  }

  lemma MapsRoundTrip(o: Orders, t: ShardTopology)
    requires Walks(o, t) && TopologyFits(t)
    ensures ParseMaps(PrintMaps(o)) == Good(Maps(t.nodes, t.nonVotings, t.witnesses, t.grpcAddrs), [])
  {
    hide PrintNodes;
    hide ParseNodes;
    hide MapFits;
    hide Lists;
    var s3 := PrintNodes(o.grpcAddrs);
    var s2 := PrintNodes(o.witnesses) + s3;
    var s1 := PrintNodes(o.nonVotings) + s2;
    NodesRoundTrip(o.nodes, t.nodes, s1);
    NodesRoundTrip(o.nonVotings, t.nonVotings, s2);
    NodesRoundTrip(o.witnesses, t.witnesses, s3);
    NodesRoundTrip(o.grpcAddrs, t.grpcAddrs, []);
    assert s3 + [] == s3;
  }

  lemma ParsedMapsFit(s: Bytes)
    requires ParseMaps(s).Good?
    ensures var m := ParseMaps(s).value;
            && MapFits(m.nodes) && MapFits(m.nonVotings) && MapFits(m.witnesses) && MapFits(m.grpcAddrs)
            && 8 + MapBytes(m.nodes) + MapBytes(m.nonVotings) + MapBytes(m.witnesses) + MapBytes(m.grpcAddrs) <= |s|
  {
    hide ParseNodes;
    hide MapFits;
    hide MapBytes;
    var s1 := ParseNodes(s).rest;
    var s2 := ParseNodes(s1).rest;
    var s3 := ParseNodes(s2).rest;
    ParsedNodesFit(s);
    ParsedNodesFit(s1);
    ParsedNodesFit(s2);
    ParsedNodesFit(s3);
  }

  lemma WordsReadBack(t: ShardTopology, tail: Bytes)
    ensures var data := [UPDATE_TOPOLOGY] + PrintWords(t) + tail;
            && Uint64(data[1..]) == t.shardID && Uint64(data[9..]) == t.leaderID && Uint64(data[17..]) == t.term
            && Uint64(data[25..]) == t.epoch && Uint64(data[33..]) == t.configChangeID && data[41..] == tail
  {
    hide BigEndian;
    hide Uint64;
    var data := [UPDATE_TOPOLOGY] + PrintWords(t) + tail;
    var r5 := tail;
    var r4 := BigEndian(t.configChangeID, 8) + r5;
    var r3 := BigEndian(t.epoch, 8) + r4;
    var r2 := BigEndian(t.term, 8) + r3;
    var r1 := BigEndian(t.leaderID, 8) + r2;
    assert data == [UPDATE_TOPOLOGY] + (BigEndian(t.shardID, 8) + r1);
    assert data[1..] == BigEndian(t.shardID, 8) + r1;
    assert data[9..] == r1 && data[17..] == r2 && data[25..] == r3 && data[33..] == r4;
    Uint64OfPut(t.shardID, r1);
    Uint64OfPut(t.leaderID, r2);
    Uint64OfPut(t.term, r3);
    Uint64OfPut(t.epoch, r4);
    Uint64OfPut(t.configChangeID, r5);
  }

  /** The four maps may be walked twice in different orders, once to size the
      buffer and once to fill it: the size is the same. */
  lemma EncodedSize(t: ShardTopology, o: Orders)
    requires Walks(o, t)
    ensures |EncodeTopology(t, o)| == TopologySize(t)
  {
    hide PrintNodes;
    hide Lists;
    hide MapBytes;
    hide PrintWords;
    WalkSize(o.nodes, t.nodes);
    WalkSize(o.nonVotings, t.nonVotings);
    WalkSize(o.witnesses, t.witnesses);
    WalkSize(o.grpcAddrs, t.grpcAddrs);
    FieldSize(t.leaderAddr);
  }

  /** Whatever the decoder accepts can be encoded again, in no more bytes. */
  lemma DecodedFits(data: Bytes)
    requires DecodeTopology(data).Some?
    ensures TopologyFits(DecodeTopology(data).value)
    ensures TopologySize(DecodeTopology(data).value) <= |data|
  {
    hide MapFits;
    hide MapBytes;
    hide PrintField;
    hide ParseField;
    hide ParseMaps;
    hide Uint64;
    CapacityValues();
    var r := ParseField(2, data[41..]);
    FieldLaw(2, data[41..], r.value, r.rest);
    FieldSize(r.value);
    ParsedMapsFit(r.rest);
  }

  /** A topology survives the wire whatever order its maps are walked in, exactly
      when every count and address fits its sixteen-bit field. */
  lemma TopologyRoundTrip(t: ShardTopology, o: Orders)
    requires Walks(o, t)
    ensures DecodeTopology(EncodeTopology(t, o)) == Some(t) <==> TopologyFits(t)
  {
    hide MapFits;
    hide Walks;
    hide PrintWords;
    hide PrintField;
    hide ParseField;
    hide PrintMaps;
    hide ParseMaps;
    hide Uint64;
    var data := EncodeTopology(t, o);
    var tail := PrintField(2, t.leaderAddr) + PrintMaps(o);
    assert data == [UPDATE_TOPOLOGY] + PrintWords(t) + tail;
    WordsReadBack(t, tail);
    CapacityValues();
    if TopologyFits(t) {
      FieldLaw(2, tail, t.leaderAddr, PrintMaps(o));
      MapsRoundTrip(o, t);
      FieldSize(t.leaderAddr);
    }
    if DecodeTopology(data) == Some(t) {
      DecodedFits(data);
    }
  }

  lemma NodesExtend(s: Bytes, x: Bytes)
    requires ParseNodes(s).Good?
    ensures ParseNodes(s + x) == Good(ParseNodes(s).value, ParseNodes(s).rest + x)
  {
    hide ParseMany;
    hide ParseWord;
    NodeLaw();
    WordExtends(2, s, x);
    var Good(n, s1) := ParseWord(2, s);
    ManyExtends(PrintNode, ParseNode, NodeFits, n, s1, x);
  }

  lemma MapsExtend(s: Bytes, x: Bytes)
    requires ParseMaps(s).Good?
    ensures ParseMaps(s + x) == Good(ParseMaps(s).value, ParseMaps(s).rest + x)
  {
    hide ParseNodes;
    var s1 := ParseNodes(s).rest;
    var s2 := ParseNodes(s1).rest;
    var s3 := ParseNodes(s2).rest;
    NodesExtend(s, x);
    NodesExtend(s1, x);
    NodesExtend(s2, x);
    NodesExtend(s3, x);
  }

  /** No proper prefix of an encoded topology is accepted. */
  lemma TopologyTruncated(t: ShardTopology, o: Orders, cut: nat)
    requires Walks(o, t) && TopologyFits(t) && cut < |EncodeTopology(t, o)|
    ensures DecodeTopology(EncodeTopology(t, o)[..cut]) == None
  {
    hide Walks;
    hide MapFits;
    hide PrintWords;
    hide PrintField;
    hide ParseField;
    hide PrintMaps;
    hide ParseMaps;
    hide Uint64;
    var data := EncodeTopology(t, o);
    var part, x := data[..cut], data[cut..];
    if DecodeTopology(part).Some? {
      var tail := PrintField(2, t.leaderAddr) + PrintMaps(o);
      assert data == [UPDATE_TOPOLOGY] + PrintWords(t) + tail;
      assert data[41..] == tail == part[41..] + x;
      CapacityValues();
      FieldLaw(2, tail, t.leaderAddr, PrintMaps(o));
      FieldExtends(2, part[41..], x);
      MapsRoundTrip(o, t);
      MapsExtend(ParseField(2, part[41..]).rest, x);
    }
  }

  lemma FieldSize(b: Bytes)
    ensures |PrintField(2, b)| == 2 + |b|
  {
  }

  // ── Address registrations ───────────────────────────────────────────────────

  function EncodeNodeAddr(n: Node): Bytes { [REGISTER_NODE] + PrintNode(n) }

  function DecodeNodeAddr(data: Bytes): (r: Option<Node>)
  {
    if |data| < 11 || data[0] != REGISTER_NODE then None
    else match ParseNode(data[1..])
      case Bad => None
      case Good(n, _) => Some(n)
  }

  lemma NodeAddrRoundTrip(n: Node)
    ensures DecodeNodeAddr(EncodeNodeAddr(n)) == Some(n) <==> NodeFits(n)
  {
    hide PrintNode;
    hide ParseNode;
    NodeLaw();
    var data := EncodeNodeAddr(n);
    assert data[1..] == PrintNode(n) == PrintNode(n) + [];
    assert LawAt(PrintNode, ParseNode, NodeFits, data[1..], n, []);
    NodeSize(n);
    var r := ParseNode(data[1..]);
    if r.Good? { assert LawAt(PrintNode, ParseNode, NodeFits, data[1..], r.value, r.rest); }
  }

  lemma DecodedNodeFits(data: Bytes)
    requires DecodeNodeAddr(data).Some?
    ensures NodeFits(DecodeNodeAddr(data).value)
  {
    hide PrintNode;
    hide ParseNode;
    NodeLaw();
    var r := ParseNode(data[1..]);
    assert LawAt(PrintNode, ParseNode, NodeFits, data[1..], r.value, r.rest);
  }

  // ── Encoders: size the buffer, then fill it front to back ───────────────────

  method NodeMapSize(m: NodeMap) returns (size: nat)
    ensures size == 2 + MapBytes(m)
  {
    size := 2;
    var rest := m;
    while rest != map[]
      invariant size + MapBytes(rest) == 2 + MapBytes(m)
      decreases |rest|
    {
      var id :| id in rest;
      MapBytesPick(rest, id);
      size := size + 8 + 2 + |rest[id]|;
      rest := rest - {id};
    }
  }

  method WriteNode(out: array<byte>, start: nat, n: Node) returns (pos: nat)
    requires start + 10 + |n.addr| <= out.Length
    modifies out
    ensures pos == start + 10 + |n.addr|
    ensures out[..pos] == old(out[..start]) + PrintNode(n)
  {
    hide BigEndian;
    PutBigEndian(out, start, n.id, 8);
    pos := WriteField(out, start + 8, 2, n.addr);
  }

  /** Some walk of the map, listed so far in order, has yet to visit rest. */
  ghost predicate Walking(order: seq<Node>, rest: NodeMap, m: NodeMap)
  {
    && rest.Keys <= m.Keys && (forall k :: k in rest ==> rest[k] == m[k])
    && (forall i :: 0 <= i < |order| ==> order[i].id in m && order[i].id !in rest && m[order[i].id] == order[i].addr)
    && (forall i, j :: 0 <= i < j < |order| ==> order[i].id != order[j].id)
    && |order| + |rest| == |m|
  }

  method WriteNodes(out: array<byte>, start: nat, m: NodeMap) returns (pos: nat, ghost order: seq<Node>)
    requires start + MapBytes(m) <= out.Length
    modifies out
    ensures Lists(order, m) && pos == start + MapBytes(m)
    ensures out[..pos] == old(out[..start]) + PrintAll(PrintNode, order)
  {
    hide *;
    ghost var before := out[..start];
    pos, order := start, [];
    ghost var written: Bytes := [];
    var rest := m;
    WalkStart(m);
    while rest != map[]
      invariant Walking(order, rest, m) && written == PrintAll(PrintNode, order)
      invariant pos == start + |written| && |written| + MapBytes(rest) == MapBytes(m)
      invariant out[..pos] == before + written
      decreases |rest|
    {
      var id :| id in rest;
      ghost var n := Node(id, rest[id]);
      MapBytesPick(rest, id);
      WalkStep(order, rest, m, id);
      PrintAllSnoc(PrintNode, order, n);
      NodeSize(n);
      pos := WriteNode(out, pos, Node(id, rest[id]));
      assert before + written + PrintNode(n) == before + (written + PrintNode(n));
      written := written + PrintNode(n);
      order, rest := order + [n], rest - {id};
    }
    WalkEnd(order, m);
  }

  method MarshalNodeMap(out: array<byte>, start: nat, m: NodeMap) returns (pos: nat, ghost order: seq<Node>)
    requires start + 2 + MapBytes(m) <= out.Length
    modifies out
    ensures Lists(order, m) && pos == start + 2 + MapBytes(m)
    ensures out[..pos] == old(out[..start]) + PrintNodes(order)
  {
    hide BigEndian;
    hide PrintAll;
    hide MapBytes;
    PutBigEndian(out, start, |m|, 2);
    pos, order := WriteNodes(out, start + 2, m);
  }

  lemma WalkStart(m: NodeMap)
    ensures Walking([], m, m) && PrintAll(PrintNode, []) == []
  {
  }

  lemma WalkStep(order: seq<Node>, rest: NodeMap, m: NodeMap, id: u64)
    requires Walking(order, rest, m) && id in rest
    ensures Walking(order + [Node(id, rest[id])], rest - {id}, m)
  {
    assert (rest - {id}).Keys == rest.Keys - {id};
  }

  lemma WalkEnd(order: seq<Node>, m: NodeMap)
    requires Walking(order, map[], m)
    ensures Lists(order, m) && MapBytes(map[]) == 0
  {
  }

  method WriteWords(out: array<byte>, t: ShardTopology)
    requires out.Length >= 41
    modifies out
    ensures out[..41] == [UPDATE_TOPOLOGY] + PrintWords(t)
  {
    hide BigEndian;
    out[0] := UPDATE_TOPOLOGY;
    PutBigEndian(out, 1, t.shardID, 8);
    PutBigEndian(out, 9, t.leaderID, 8);
    PutBigEndian(out, 17, t.term, 8);
    PutBigEndian(out, 25, t.epoch, 8);
    PutBigEndian(out, 33, t.configChangeID, 8);
  }

  method SizeTopology(t: ShardTopology) returns (size: nat)
    ensures size == TopologySize(t)
  {
    hide MapBytes;
    var nodes := NodeMapSize(t.nodes);
    var nonVotings := NodeMapSize(t.nonVotings);
    var witnesses := NodeMapSize(t.witnesses);
    var grpcAddrs := NodeMapSize(t.grpcAddrs);
    size := 1 + 8 * 5 + 2 + |t.leaderAddr| + nodes + nonVotings + witnesses + grpcAddrs;
  }

  method WriteMaps(out: array<byte>, start: nat, t: ShardTopology) returns (ghost o: Orders)
    requires out.Length == start + TopologySize(t) - 43 - |t.leaderAddr|
    modifies out
    ensures Walks(o, t) && out[..] == old(out[..start]) + PrintMaps(o)
  {
    hide MapBytes;
    hide PrintNodes;
    hide Lists;
    ghost var before := out[..start];
    var pos;
    ghost var o1, o2, o3, o4;
    pos, o1 := MarshalNodeMap(out, start, t.nodes);
    pos, o2 := MarshalNodeMap(out, pos, t.nonVotings);
    pos, o3 := MarshalNodeMap(out, pos, t.witnesses);
    pos, o4 := MarshalNodeMap(out, pos, t.grpcAddrs);
    o := Orders(o1, o2, o3, o4);
    assert out[..] == out[..pos];
    Regroup(before, PrintNodes(o1), PrintNodes(o2), PrintNodes(o3), PrintNodes(o4));
  }

  lemma Regroup(a: Bytes, b: Bytes, c: Bytes, d: Bytes, e: Bytes)
    ensures a + b + c + d + e == a + (b + (c + (d + e)))
  {
  }

  method MarshalUpdateTopology(t: ShardTopology) returns (out: array<byte>, ghost o: Orders)
    ensures fresh(out) && Walks(o, t) && out[..] == EncodeTopology(t, o)
    ensures DecodeTopology(out[..]) == Some(t) <==> TopologyFits(t)
  {
    hide DecodeTopology;
    hide TopologyFits;
    hide MapBytes;
    hide PrintMaps;
    hide PrintWords;
    hide PrintField;
    hide Walks;
    var size := SizeTopology(t);
    out := new byte[size];
    WriteWords(out, t);
    var pos := WriteField(out, 41, 2, t.leaderAddr);
    o := WriteMaps(out, pos, t);
    TopologyRoundTrip(t, o);
  }

  method MarshalRegisterNodeAddr(n: Node) returns (out: array<byte>)
    ensures fresh(out) && out[..] == EncodeNodeAddr(n)
  {
    hide PrintNode;
    out := new byte[1 + 8 + 2 + |n.addr|];
    out[0] := REGISTER_NODE;
    var pos := WriteNode(out, 1, n);
    assert out[..] == out[..pos];
  }

  // ── Decoders: bounds checks before every read ───────────────────────────────

  method UnmarshalNodeMap(data: Bytes, start: nat) returns (ok: bool, m: NodeMap, pos: nat)
    requires start <= |data|
    ensures ok ==> pos <= |data| && ParseNodes(data[start..]) == Good(m, data[pos..])
    ensures !ok ==> ParseNodes(data[start..]) == Bad
  {
    hide ParseNode;
    m, pos := map[], start;
    if pos + 2 > |data| {
      return false, m, 0;
    }
    var count := FromBigEndian(data[pos..pos + 2]);
    assert data[pos..][..2] == data[pos..pos + 2] && data[pos..][2..] == data[pos + 2..];
    pos := pos + 2;
    ghost var total := ParseMany(ParseNode, count, data[pos..]);
    ghost var seen: seq<Node> := [];
    PrependNothing(total);
    for i := 0 to count
      invariant pos <= |data| && m == MapOf(seen)
      invariant total == Prepend(seen, ParseMany(ParseNode, count - i, data[pos..]))
    {
      ManyStep(ParseNode, count - i, data[pos..], total, seen);
      var found, node, next := UnmarshalNode(data, pos);
      if !found {
        return false, m, 0;
      }
      assert (seen + [node])[..|seen|] == seen;
      m, seen, pos := m[node.id := node.addr], seen + [node], next;
    }
    assert seen + [] == seen;
    ok := true;
  }

  method UnmarshalNode(data: Bytes, start: nat) returns (ok: bool, n: Node, pos: nat)
    requires start <= |data|
    ensures ok ==> pos <= |data| && ParseNode(data[start..]) == Good(n, data[pos..])
    ensures !ok ==> ParseNode(data[start..]) == Bad
  {
    n := Node(0, []);
    if start + 8 + 2 > |data| {
      ShortNode(data[start..]);
      return false, n, 0;
    }
    CapacityValues();
    var id := Uint64(data[start..]);
    assert data[start..][8..] == data[start + 8..];
    var addr;
    ok, addr, pos := ReadField(data, start + 8, 2);
    if ok {
      n := Node(id, addr);
    }
  }

  lemma ShortNode(s: Bytes)
    requires |s| < 10
    ensures ParseNode(s) == Bad
  {
  }

  method UnmarshalMaps(data: Bytes, start: nat) returns (r: Option<Maps>)
    requires start <= |data|
    ensures r.Some? <==> ParseMaps(data[start..]).Good?
    ensures r.Some? ==> r.value == ParseMaps(data[start..]).value
  {
    hide ParseNodes;
    var nodes, nonVotings, witnesses, grpcAddrs;
    var ok, pos;
    ok, nodes, pos := UnmarshalNodeMap(data, start);
    if !ok {
      return None;
    }
    ok, nonVotings, pos := UnmarshalNodeMap(data, pos);
    if !ok {
      return None;
    }
    ok, witnesses, pos := UnmarshalNodeMap(data, pos);
    if !ok {
      return None;
    }
    ok, grpcAddrs, pos := UnmarshalNodeMap(data, pos);
    if !ok {
      return None;
    }
    return Some(Maps(nodes, nonVotings, witnesses, grpcAddrs));
  }

  method UnmarshalUpdateTopology(data: Bytes) returns (r: Option<ShardTopology>)
    ensures r == DecodeTopology(data)
  {
    hide ParseMaps;
    hide ParseField;
    hide Uint64;
    if |data| < 1 + 8 * 5 + 2 || data[0] != UPDATE_TOPOLOGY {
      return None;
    }
    var ok, leaderAddr, pos := ReadField(data, 41, 2);
    if !ok {
      return None;
    }
    var maps := UnmarshalMaps(data, pos);
    if maps == None {
      return None;
    }
    var m := maps.value;
    return Some(ShardTopology(Uint64(data[1..]), Uint64(data[9..]), Uint64(data[17..]), Uint64(data[25..]),
                              Uint64(data[33..]), leaderAddr, m.nodes, m.nonVotings, m.witnesses, m.grpcAddrs));
  }

  method UnmarshalRegisterNodeAddr(data: Bytes) returns (r: Option<Node>)
    ensures r == DecodeNodeAddr(data)
  {
    hide ParseNode;
    if |data| < 1 + 8 + 2 || data[0] != REGISTER_NODE {
      return None;
    }
    var ok, n, pos := UnmarshalNode(data, 1);
    return if ok then Some(n) else None;
  }
}
