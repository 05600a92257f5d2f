/** The packed list of closest nodes in a find_node or get_peers reply: 8 records of
    26 bytes (IPv4) or 38 bytes (IPv6), kept in order by shifting bytes in place. */
module ReplyBuffer {
  import opened Ids
  import opened Net
  import opened XorMetric
  import opened BucketList

  const CLOSEST: nat := 8

  // ----- the list of nodes the buffer stands for -----

  function NodeIds(ns: seq<Node>): (ids: seq<Id>)
    ensures |ids| == |ns| && forall i: nat | i < |ns| :: ids[i] == ns[i].id
  {
    if ns == [] then [] else NodeIds(ns[..|ns| - 1]) + [ns[|ns| - 1].id]
  }

  ghost function Insert(ns: seq<Node>, target: Id, n: Node): (r: seq<Node>)
    requires |ns| <= CLOSEST
    ensures |r| <= CLOSEST
  {
    var i := Place(NodeIds(ns), n.id, target);
    if (i < |ns| && ns[i].id == n.id) || i == CLOSEST then ns else InsertAt(ns, i, n, CLOSEST)
  }

  // The good nodes of a list, one after the other, into the list so far.
  ghost function Collect(ns: seq<Node>, target: Id, from: seq<Node>, now: int): (r: seq<Node>)
    requires |ns| <= CLOSEST
    ensures |r| <= CLOSEST
  {
    if from == [] then ns else
      var k := |from| - 1;
      var so := Collect(ns, target, from[..k], now);
      if NodeGood(from[k], now) then Insert(so, target, from[k]) else so
  }

  function GoodIds(from: seq<Node>, now: int): set<Id>
  {
    set n | n in from && NodeGood(n, now) :: n.id
  }

  lemma NodeIdsOfInsertAt(ns: seq<Node>, i: nat, n: Node)
    requires i <= |ns| <= CLOSEST && i < CLOSEST
    ensures NodeIds(InsertAt(ns, i, n, CLOSEST)) == InsertAt(NodeIds(ns), i, n.id, CLOSEST)
  {
    hide *;
    var a, b := NodeIds(InsertAt(ns, i, n, CLOSEST)), InsertAt(NodeIds(ns), i, n.id, CLOSEST);
    forall j: nat | j < |b| ensures a[j] == b[j] {
      assert a[j] == InsertAt(ns, i, n, CLOSEST)[j].id;
      assert j < i ==> NodeIds(ns)[j] == ns[j].id;
      assert j > i ==> NodeIds(ns)[j - 1] == ns[j - 1].id;
    }
  }

  lemma InsertMembers(ns: seq<Node>, target: Id, n: Node)
    requires |ns| <= CLOSEST
    ensures forall m | m in Insert(ns, target, n) :: m in ns || m == n
  {
    hide Place, Distance, NodeIds;
  }

  lemma InsertKeepsClosest(ns: seq<Node>, target: Id, n: Node, offered: set<Id>)
    requires |ns| <= CLOSEST && Closest(NodeIds(ns), offered, target, CLOSEST)
    ensures Closest(NodeIds(Insert(ns, target, n)), offered + {n.id}, target, CLOSEST)
  {
    hide *;
    var i := Place(NodeIds(ns), n.id, target);
    ClosestIsSorted(NodeIds(ns), offered, target, CLOSEST);
    InsertCases(ns, target, n);
    if n.id in NodeIds(ns) {
      OfferListed(NodeIds(ns), offered, target, CLOSEST, n.id);
    } else if i == CLOSEST {
      OfferTooFar(NodeIds(ns), offered, target, CLOSEST, n.id);
    } else {
      OfferInserted(NodeIds(ns), offered, target, CLOSEST, n.id, i);
      NodeIdsOfInsertAt(ns, i, n);
    }
  }

  lemma InsertCases(ns: seq<Node>, target: Id, n: Node)
    requires |ns| <= CLOSEST && SortedBy(NodeIds(ns), target)
    ensures
      var i, ids := Place(NodeIds(ns), n.id, target), NodeIds(ns);
      && (n.id in ids || i == CLOSEST ==> Insert(ns, target, n) == ns)
      && (n.id !in ids ==> i <= |ns| && BelongsAt(ids, n.id, target, i))
      && (n.id !in ids && i < CLOSEST ==> Insert(ns, target, n) == InsertAt(ns, i, n, CLOSEST))
  {
    hide NodeIds, SortedBy, InsertAt, Place, BelongsAt;
    PlaceInSorted(NodeIds(ns), n.id, target);
  }

  // The collected nodes are the 8 closest good nodes offered, in order of distance.
  lemma {:induction false} CollectsTheClosest(target: Id, from: seq<Node>, now: int)
    ensures Closest(NodeIds(Collect([], target, from, now)), GoodIds(from, now), target, 8)
    ensures forall n | n in Collect([], target, from, now) :: n in from && NodeGood(n, now)
  {
    hide Insert, Closest, Distance, NodeIds, NodeGood;
    if from == [] {
      NothingCollected(target);
      assert GoodIds(from, now) == {};
    } else {
      var k := |from| - 1;
      CollectsTheClosest(target, from[..k], now);
      GoodIdsStep(from, now);
      var so := Collect([], target, from[..k], now);
      if NodeGood(from[k], now) {
        InsertKeepsClosest(so, target, from[k], GoodIds(from[..k], now));
        InsertMembers(so, target, from[k]);
      } else {
        assert GoodIds(from, now) == GoodIds(from[..k], now);
      }
    }
  }

  lemma NothingCollected(target: Id)
    ensures Closest(NodeIds([]), {}, target, CLOSEST)
  {}

  lemma GoodIdsStep(from: seq<Node>, now: int)
    requires from != []
    ensures var k := |from| - 1;
      GoodIds(from, now) == GoodIds(from[..k], now) + (if NodeGood(from[k], now) then {from[k].id} else {})
  {
    hide NodeGood;
    assert from == from[..|from| - 1] + [from[|from| - 1]];
  }

  lemma {:induction false} CollectConcat(ns: seq<Node>, target: Id, a: seq<Node>, b: seq<Node>, now: int)
    requires |ns| <= CLOSEST
    ensures Collect(Collect(ns, target, a, now), target, b, now) == Collect(ns, target, a + b, now)
  {
    hide Insert, NodeGood;
    if b == [] {
      assert a + b == a;
    } else {
      var k := |b| - 1;
      CollectConcat(ns, target, a, b[..k], now);
      assert (a + b)[..|a| + k] == a + b[..k];
    }
  }

  // ----- records -----

  function Size(ipv4: bool): nat
  {
    if ipv4 then 26 else 38
  }

  // size * i
  function Offset(ipv4: bool, i: nat): nat
  {
    if ipv4 then 26 * i else 38 * i
  }

  function PortBytes(p: Port): (b: seq<Byte>)
    ensures |b| == 2
  {
    [(p / 256) as bv8, (p % 256) as bv8]
  }

  function Pack(n: Node): (b: seq<Byte>)
    ensures |b| == Size(n.addr.V4?)
  {
    n.id + (if n.addr.V4? then n.addr.ip4 else n.addr.ip6) + PortBytes(n.addr.port)
  }

  // Record i of a buffer
  function RecordAt(b: seq<Byte>, ipv4: bool, i: nat): (r: seq<Byte>)
    requires Offset(ipv4, i + 1) <= |b|
    ensures |r| == Size(ipv4)
  {
    b[Offset(ipv4, i)..Offset(ipv4, i + 1)]
  }

  // The first records of buffer b are the nodes ns, packed.
  ghost predicate Holds(b: seq<Byte>, ipv4: bool, ns: seq<Node>)
  {
    && |b| == Offset(ipv4, CLOSEST) && |ns| <= CLOSEST
    && forall i: nat | i < |ns| :: ns[i].addr.V4? == ipv4 && RecordAt(b, ipv4, i) == Pack(ns[i])
  }

  // The bytes after an insertion at record i that leaves used records
  ghost predicate Shifted(b: seq<Byte>, b': seq<Byte>, ipv4: bool, i: nat, used: nat, rec: seq<Byte>)
    requires |b| == |b'| && i < used && Offset(ipv4, used) <= |b| && |rec| == Size(ipv4)
  {
    var o, o' := Offset(ipv4, i), Offset(ipv4, i + 1);
    && b'[..o] == b[..o]
    && b'[o..o'] == rec
    && b'[o'..Offset(ipv4, used)] == b[o..Offset(ipv4, used - 1)]
  }

  lemma ShiftedRecord(b: seq<Byte>, b': seq<Byte>, ipv4: bool, i: nat, used: nat, rec: seq<Byte>, j: nat)
    requires |b| == |b'| && i < used && Offset(ipv4, used) <= |b| && |rec| == Size(ipv4)
    requires Shifted(b, b', ipv4, i, used, rec) && j < used
    ensures RecordAt(b', ipv4, j) ==
      if j < i then RecordAt(b, ipv4, j) else if j == i then rec else RecordAt(b, ipv4, j - 1)
  {
    var size, o, o' := Size(ipv4), Offset(ipv4, i), Offset(ipv4, i + 1);
    var p := Offset(ipv4, j);
    hide Offset;
    OffsetSteps(ipv4, i, j, used);
    if j < i {
      SubSlice(b', 0, o, p, p + size);
      SubSlice(b, 0, o, p, p + size);
      assert b'[0..o] == b'[..o] && b[0..o] == b[..o];
    } else if j > i {
      var e, e' := Offset(ipv4, used - 1), Offset(ipv4, used);
      SubSlice(b', o', e', p - o', p - o' + size);
      SubSlice(b, o, e, p - o', p - o' + size);
    }
  }

  lemma OffsetSteps(ipv4: bool, i: nat, j: nat, used: nat)
    requires i < used && j < used
    ensures Offset(ipv4, j + 1) == Offset(ipv4, j) + Size(ipv4) && Offset(ipv4, i + 1) == Offset(ipv4, i) + Size(ipv4)
    ensures Offset(ipv4, used - 1) + Size(ipv4) == Offset(ipv4, used)
    ensures j < i ==> Offset(ipv4, j) + Size(ipv4) <= Offset(ipv4, i)
    ensures i < j ==> Offset(ipv4, i) + Size(ipv4) <= Offset(ipv4, j)
                      && Offset(ipv4, j) + Size(ipv4) <= Offset(ipv4, used)
                      && Offset(ipv4, j) == Offset(ipv4, j - 1) + Size(ipv4)
    ensures Offset(ipv4, i) <= Offset(ipv4, used - 1)
  {}

  lemma SubSlice(s: seq<Byte>, lo: nat, hi: nat, p: nat, q: nat)
    requires lo <= hi <= |s| && p <= q <= hi - lo
    ensures s[lo..hi][p..q] == s[lo + p..lo + q]
  {
    var x, y := s[lo..hi][p..q], s[lo + p..lo + q];
    assert |x| == |y|;
    forall k | 0 <= k < |x| ensures x[k] == y[k] {
      assert x[k] == s[lo..hi][p + k] == s[lo + p + k];
    }
  }

  lemma MovedUp(b: seq<Byte>, b': seq<Byte>, o: nat, size: nat, e: nat)
    requires o + size <= e <= |b| == |b'| && forall k | o + size <= k < e :: b'[k] == b[k - size]
    ensures b'[o + size..e] == b[o..e - size]
  {}

  lemma ShiftedHolds(b: seq<Byte>, b': seq<Byte>, ipv4: bool, ns: seq<Node>, i: nat, n: Node)
    requires Holds(b, ipv4, ns) && |b'| == |b| && i <= |ns| && i < CLOSEST && n.addr.V4? == ipv4
    requires Shifted(b, b', ipv4, i, if |ns| < CLOSEST then |ns| + 1 else CLOSEST, Pack(n))
    ensures Holds(b', ipv4, InsertAt(ns, i, n, CLOSEST))
  {
    hide Shifted, RecordAt, Pack;
    var r := InsertAt(ns, i, n, CLOSEST);
    forall j: nat | j < |r| ensures r[j].addr.V4? == ipv4 && RecordAt(b', ipv4, j) == Pack(r[j]) {
      ShiftedRecord(b, b', ipv4, i, |r|, Pack(n), j);
    }
  }

  // The id of record i, as insert_closest_node compares it
  lemma RecordId(b: seq<Byte>, ipv4: bool, ns: seq<Node>, i: nat)
    requires Holds(b, ipv4, ns) && i < |ns|
    ensures b[Offset(ipv4, i)..Offset(ipv4, i) + 20] == ns[i].id
  {
    var o := Offset(ipv4, i);
    SubSlice(b, o, o + Size(ipv4), 0, 20);
    assert Pack(ns[i])[..20] == ns[i].id;
  }

  // insert_closest_node: nodes holds numnodes records, those of ns.
  method InsertClosestNode(nodes: array<Byte>, numnodes: nat, id: Id, n: Node, ipv4: bool, ghost ns: seq<Node>)
    returns (r: nat)
    requires n.addr.V4? == ipv4 && Holds(nodes[..], ipv4, ns) && numnodes == |ns|
    modifies nodes
    ensures Holds(nodes[..], ipv4, Insert(ns, id, n)) && r == |Insert(ns, id, n)|
  {
    hide Distance, InsertAt, Pack, RecordAt, Holds;
    HoldsBounds(nodes[..], ipv4, ns);
    var i, found := FindSlot(nodes, numnodes, id, n, ipv4, ns);
    if found {
      return numnodes;
    }
    if i == 8 {
      return numnodes;
    }
    r := if numnodes < 8 then numnodes + 1 else numnodes;
    PutRecord(nodes, i, r, Pack(n), ipv4);
    ShiftedHolds(old(nodes[..]), nodes[..], ipv4, ns, i, n);
  }

  lemma HoldsBounds(b: seq<Byte>, ipv4: bool, ns: seq<Node>)
    requires Holds(b, ipv4, ns)
    ensures |b| == Offset(ipv4, CLOSEST) && |ns| <= CLOSEST
  {}

  // The loop that looks for the slot
  method FindSlot(nodes: array<Byte>, numnodes: nat, id: Id, n: Node, ipv4: bool, ghost ns: seq<Node>)
    returns (i: nat, found: bool)
    requires Holds(nodes[..], ipv4, ns) && numnodes == |ns|
    ensures i == Place(NodeIds(ns), n.id, id)
    ensures found <==> i < |ns| && ns[i].id == n.id
  {
    hide Distance, Pack, RecordAt, Holds;
    HoldsBounds(nodes[..], ipv4, ns);
    i, found := 0, false;
    while i < numnodes
      invariant i <= numnodes
      invariant forall j: nat | j < i :: ns[j].id != n.id && Distance(ns[j].id, id) <= Distance(n.id, id)
    {
      RecordId(nodes[..], ipv4, ns, i);
      var other: Id := nodes[Offset(ipv4, i)..Offset(ipv4, i) + 20];
      assert other == ns[i].id;
      IdCmpIsNumericOrder(n.id, other);
      if IdCmp(n.id, other) == 0 {
        found := true;
        break;
      }
      var c := XorCmp(n.id, other, id);
      if c < 0 {
        break;
      }
      i := i + 1;
    }
    PlaceUnique(NodeIds(ns), n.id, id, i);
  }

  // The memmove of the records from i on, and the three memcpys of the new record
  method PutRecord(nodes: array<Byte>, i: nat, used: nat, rec: seq<Byte>, ipv4: bool)
    requires nodes.Length == Offset(ipv4, CLOSEST) && i < used <= CLOSEST && |rec| == Size(ipv4)
    modifies nodes
    ensures Shifted(old(nodes[..]), nodes[..], ipv4, i, used, rec)
  {
    var size := Size(ipv4);
    OffsetSteps(ipv4, i, i, used);
    ghost var o, e := Offset(ipv4, i), Offset(ipv4, used);
    hide Offset;
    ghost var was := nodes[..];
    if i < used - 1 {
      forall k | Offset(ipv4, i + 1) <= k < Offset(ipv4, used) {
        nodes[k] := nodes[k - size];
      }
    }
    ghost var moved := nodes[..];
    forall k | 0 <= k < size {
      nodes[Offset(ipv4, i) + k] := rec[k];
    }
    MovedUp(was, moved, o, size, e);
    assert nodes[o + size..e] == moved[o + size..e];
    assert nodes[..o] == was[..o] && nodes[o..o + size] == rec;
  }

  // ----- the reply -----

  // Every node of the table of one family has an address of that family.
  ghost predicate OneFamily(bs: seq<Bucket>, ipv4: bool)
  {
    forall i: nat, n | i < |bs| && n in bs[i].nodes :: n.addr.V4? == ipv4
  }

  // buffer_closest_nodes
  method BufferClosestNodes(nodes: array<Byte>, numnodes: nat, id: Id, b: Bucket, now: int, ipv4: bool,
                            ghost ns: seq<Node>)
    returns (r: nat)
    requires Holds(nodes[..], ipv4, ns) && numnodes == |ns|
    requires forall n | n in b.nodes :: n.addr.V4? == ipv4
    modifies nodes
    ensures Holds(nodes[..], ipv4, Collect(ns, id, b.nodes, now)) && r == |Collect(ns, id, b.nodes, now)|
  {
    hide Holds, Insert, Distance, NodeGood;
    HoldsBounds(nodes[..], ipv4, ns);
    r := numnodes;
    for k := 0 to |b.nodes|
      invariant Holds(nodes[..], ipv4, Collect(ns, id, b.nodes[..k], now))
      invariant r == |Collect(ns, id, b.nodes[..k], now)|
    {
      assert b.nodes[..k + 1][..k] == b.nodes[..k];
      if NodeGood(b.nodes[k], now) {
        r := InsertClosestNode(nodes, r, id, b.nodes[k], ipv4, Collect(ns, id, b.nodes[..k], now));
      }
    }
    assert b.nodes[..|b.nodes|] == b.nodes;
  }

  // The nodes of bucket i and its neighbours, in the order they are looked at
  function Nearby(bs: seq<Bucket>, i: nat): seq<Node>
    requires i < |bs|
  {
    bs[i].nodes + (if i + 1 < |bs| then bs[i + 1].nodes else []) + (if i > 0 then bs[i - 1].nodes else [])
  }

  // Exactly the nodes of that bucket and of the ones next to it are looked at.
  lemma NearbyMeans(bs: seq<Bucket>, i: nat, n: Node)
    requires i < |bs|
    ensures n in Nearby(bs, i) <==> exists j: nat :: j < |bs| && i - 1 <= j <= i + 1 && n in bs[j].nodes
  {
    if n in Nearby(bs, i) {
      var j: nat := if n in bs[i].nodes then i else if i + 1 < |bs| && n in bs[i + 1].nodes then i + 1 else i - 1;
      assert n in bs[j].nodes;
    }
    if j: nat :| j < |bs| && i - 1 <= j <= i + 1 && n in bs[j].nodes {
      assert j == i || j == i + 1 || j == i - 1;
    }
  }

  // send_closest_nodes, for one family: the buffer it hands to send_nodes_peers.
  method ClosestNodes(bs: seq<Bucket>, id: Id, now: int, ipv4: bool)
    returns (nodes: array<Byte>, numnodes: nat)
    requires |bs| > 0 && OneFamily(bs, ipv4)
    ensures fresh(nodes)
    ensures exists ns: seq<Node> ::
      && Holds(nodes[..], ipv4, ns) && numnodes == |ns|
      && Closest(NodeIds(ns), GoodIds(Nearby(bs, Find(bs, id)), now), id, 8)
      && forall n | n in ns :: n in Nearby(bs, Find(bs, id)) && NodeGood(n, now)
  {
    hide Holds, Insert, Distance, NodeGood, Find, Closest, Collect;
    var size := Size(ipv4);
    nodes := new Byte[8 * size];
    numnodes := 0;
    EmptyBuffer(nodes[..], ipv4);
    var i := Find(bs, id);
    numnodes := BufferClosestNodes(nodes, numnodes, id, bs[i], now, ipv4, []);
    ghost var ns := Collect([], id, bs[i].nodes, now);
    CollectConcat([], id, [], bs[i].nodes, now);
    ghost var from := bs[i].nodes;
    if i + 1 < |bs| {
      numnodes := BufferClosestNodes(nodes, numnodes, id, bs[i + 1], now, ipv4, ns);
      CollectConcat([], id, from, bs[i + 1].nodes, now);
      from := from + bs[i + 1].nodes;
      ns := Collect([], id, from, now);
    }
    if i > 0 {
      numnodes := BufferClosestNodes(nodes, numnodes, id, bs[i - 1], now, ipv4, ns);
      CollectConcat([], id, from, bs[i - 1].nodes, now);
      from := from + bs[i - 1].nodes;
      ns := Collect([], id, from, now);
    }
    assert from == Nearby(bs, i);
    CollectsTheClosest(id, from, now);
  }

  lemma EmptyBuffer(b: seq<Byte>, ipv4: bool)
    requires |b| == 8 * Size(ipv4)
    ensures Holds(b, ipv4, [])
  {}
}
