/** From one routing table to another node: the closest nodes of a table go out in a reply,
    and whoever parses it reads the same nodes from it. */
module ClosestReply {
  import opened Ids
  import opened Seqs
  import opened Net
  import opened XorMetric
  import KademliaTree
  import opened BucketList
  import opened ReplyBuffer
  import Text
  import Krpc
  import KrpcParser
  import KrpcRoundTrip
  import KrpcAnyOctets
  import PeerStore

  // ----- the tables of one family -----

  ghost predicate LooksUp(bs: seq<Bucket>, ipv4: bool)
    requires |bs| > 0
  {
    forall x :: InFamily(bs, x, ipv4)
  }

  lemma LookedUpIsAll(me: Id, bs: seq<Bucket>, ipv4: bool)
    requires Valid(me, bs) && LooksUp(bs, ipv4)
    ensures OneFamily(bs, ipv4)
  {
    hide Find, KademliaTree.Firsts, At;
    forall i: nat, n | i < |bs| && n in bs[i].nodes ensures n.addr.V4? == ipv4 {
      assert BucketOk(me, bs, i);
      AtIff(bs[i].nodes, n.id, n);
      assert Lookup(bs, n.id) == Some(n) && InFamily(bs, n.id, ipv4);
    }
  }

  ghost predicate InFamily(bs: seq<Bucket>, x: Id, ipv4: bool)
    requires |bs| > 0
  {
    Lookup(bs, x).Some? ==> Lookup(bs, x).value.addr.V4? == ipv4
  }

  lemma HeardKeepsFamily(me: Id, bs: seq<Bucket>, o: Offer, x: Id, ipv4: bool)
    requires Valid(me, bs) && InFamily(bs, x, ipv4) && o.addr.V4? == ipv4
    ensures |BucketList.NewNode(me, bs, o).buckets| > 0 && InFamily(BucketList.NewNode(me, bs, o).buckets, x, ipv4)
  {
    hide Lookup, BucketList.NewNode, Valid, TurnedAway;
    if x == o.id {
      NewNodeOwnEffect(me, bs, o);
    } else {
      NewNodeOtherEffect(me, bs, o, x);
    }
  }

  lemma StepKeepsFamily(me: Id, bs: seq<Bucket>, e: Event, x: Id, ipv4: bool)
    requires Valid(me, bs) && InFamily(bs, x, ipv4) && (e.Heard? ==> e.o.addr.V4? == ipv4)
    ensures InFamily(Step(me, bs, e), x, ipv4)
  {
    NotEmpty(me, Step(me, bs, e));
    hide Lookup, BucketList.NewNode, Expire, PingNode, Condemn, Valid;
    match e
    case Heard(o) => HeardKeepsFamily(me, bs, o, x, ipv4);
    case Requested(id, now) => PingNodeEffect(me, bs, id, now, x);
    case Condemned(id, now) => CondemnEffect(me, bs, id, now, x);
    case Expiry => ExpireEffect(me, bs, x);
  }

  ghost predicate OfFamily(es: seq<Event>, ipv4: bool)
  {
    forall e | e in es :: e.Heard? ==> e.o.addr.V4? == ipv4
  }

  // A table that was only told of nodes of one family holds only such nodes.
  lemma {:induction false} ReachableIsOneFamily(me: Id, es: seq<Event>, ipv4: bool)
    requires OfFamily(es, ipv4)
    ensures LooksUp(Run(me, es), ipv4) && OneFamily(Run(me, es), ipv4)
  {
    hide Step, Valid, InFamily;
    if es == [] {
      NothingLooksUp(ipv4);
    } else {
      ReachableIsOneFamily(me, es[..|es| - 1], ipv4);
      NotEmpty(me, Run(me, es));
      forall x ensures InFamily(Run(me, es), x, ipv4) {
        StepKeepsFamily(me, Run(me, es[..|es| - 1]), es[|es| - 1], x, ipv4);
      }
    }
    LookedUpIsAll(me, Run(me, es), ipv4);
  }

  lemma NothingLooksUp(ipv4: bool)
    ensures LooksUp(START, ipv4)
  {}

  // ----- records and contacts -----

  datatype Contact = Contact(id: Id, addr: Addr)

  function Contacts(ns: seq<Node>): (cs: seq<Contact>)
    ensures |cs| == |ns| && forall i: nat | i < |ns| :: cs[i] == Contact(ns[i].id, ns[i].addr)
  {
    if ns == [] then [] else Contacts(ns[..|ns| - 1]) + [Contact(ns[|ns| - 1].id, ns[|ns| - 1].addr)]
  }

  function ByteOf(c: char): Byte
  {
    ((c as int) % 256) as bv8
  }

  // The octets of a text
  function Bytes(s: string): (b: seq<Byte>)
    ensures |b| == |s|
  {
    if s == "" then [] else [ByteOf(s[0])] + Bytes(s[1..])
  }

  lemma ByteOfChar(x: Byte)
    ensures ByteOf(x as int as char) == x
  {
    SmallByte(x);
    SameByte(x);
    assert (x as int) % 256 == (x as int);
  }

  lemma SmallByte(x: Byte)
    ensures 0 <= (x as int) < 256
  {}

  lemma SameByte(x: Byte)
    ensures (x as int) as bv8 == x
  {}

  lemma {:induction false} BytesOfOctets(b: seq<Byte>)
    ensures Bytes(Krpc.Octets(b)) == b
  {
    hide ByteOf;
    if b != [] {
      BytesOfOctets(b[1..]);
      ByteOfChar(b[0]);
      assert Krpc.Octets(b)[1..] == Krpc.Octets(b[1..]);
    }
  }

  function PortOf(hi: Byte, lo: Byte): Port
  {
    256 * (hi as int) + (lo as int)
  }

  lemma PortOfBytes(p: Port)
    ensures PortOf(PortBytes(p)[0], PortBytes(p)[1]) == p
  {
    ByteNumber(p / 256);
    ByteNumber(p % 256);
  }

  // How the receiver takes a record apart
  function ReadContact(r: seq<Byte>, ipv4: bool): Contact
    requires |r| == Size(ipv4)
  {
    if ipv4 then Contact(r[..20], V4(r[20..24], PortOf(r[24], r[25])))
    else Contact(r[..20], V6(r[20..36], PortOf(r[36], r[37])))
  }

  lemma PackedContact(n: Node)
    ensures ReadContact(Pack(n), n.addr.V4?) == Contact(n.id, n.addr)
  {
    hide PortBytes, PortOf;
    PortOfBytes(n.addr.port);
    var r := Pack(n);
    assert r[..20] == n.id;
    assert n.addr.V4? ==> r[20..24] == n.addr.ip4;
    assert n.addr.V6? ==> r[20..36] == n.addr.ip6;
  }

  // The first k records
  function ReadAll(b: seq<Byte>, ipv4: bool, k: nat): seq<Contact>
    requires Offset(ipv4, k) <= |b|
  {
    if k == 0 then [] else ReadAll(b, ipv4, k - 1) + [ReadContact(RecordAt(b, ipv4, k - 1), ipv4)]
  }

  // The octets are the nodes ns, packed.
  ghost predicate Carries(b: seq<Byte>, ipv4: bool, ns: seq<Node>)
  {
    && |b| == Offset(ipv4, |ns|)
    && forall i: nat | i < |ns| :: ns[i].addr.V4? == ipv4 && RecordAt(b, ipv4, i) == Pack(ns[i])
  }

  lemma {:induction false} CarriedContacts(b: seq<Byte>, ipv4: bool, ns: seq<Node>, k: nat)
    requires Carries(b, ipv4, ns) && k <= |ns|
    ensures ReadAll(b, ipv4, k) == Contacts(ns)[..k]
  {
    hide Pack, RecordAt, ReadContact;
    if k > 0 {
      CarriedContacts(b, ipv4, ns, k - 1);
      PackedContact(ns[k - 1]);
      assert Contacts(ns)[..k] == Contacts(ns)[..k - 1] + [Contacts(ns)[k - 1]];
    }
  }

  function Others(cs: seq<Contact>, me: Id): seq<Contact>
  {
    Filter(cs, (c: Contact) => c.id != me)
  }

  // The loops of dht_periodic over the lists of a reply, which skip the receiver itself
  method ReadNodes(text: string, ipv4: bool, me: Id) returns (cs: seq<Contact>)
    requires |text| % Size(ipv4) == 0
    ensures Offset(ipv4, |text| / Size(ipv4)) == |text|
    ensures cs == Others(ReadAll(Bytes(text), ipv4, |text| / Size(ipv4)), me)
  {
    hide Bytes, RecordAt, ReadContact, Filter;
    var b, k := Bytes(text), |text| / Size(ipv4);
    cs := [];
    var i := 0;
    NoOthers(me);
    while i < k
      invariant i <= k && cs == Others(ReadAll(b, ipv4, i), me)
    {
      var c := ReadContact(RecordAt(b, ipv4, i), ipv4);
      OneMore(ReadAll(b, ipv4, i), c, me);
      IdCmpIsNumericOrder(c.id, me);
      if IdCmp(c.id, me) != 0 {
        cs := cs + [c];
      }
      i := i + 1;
    }
  }

  lemma NoOthers(me: Id)
    ensures Others([], me) == []
  {}

  lemma OneMore(cs: seq<Contact>, c: Contact, me: Id)
    ensures Others(cs + [c], me) == Others(cs, me) + if c.id != me then [c] else []
  {
    var s := cs + [c];
    FilterNext(s, |cs|, (c: Contact) => c.id != me);
    assert s[..|cs| + 1] == s && s[..|cs|] == cs;
  }

  // ----- send_closest_nodes -----

  // The min(8, n) closest of the n good nodes of the target's bucket and its neighbours
  ghost predicate IsClosest(ns: seq<Node>, bs: seq<Bucket>, target: Id, now: int)
    requires |bs| > 0
  {
    && Closest(NodeIds(ns), GoodIds(Nearby(bs, Find(bs, target)), now), target, 8)
    && forall n | n in ns :: n in Nearby(bs, Find(bs, target)) && NodeGood(n, now)
  }

  // A list of nodes in a message
  ghost predicate Lists(text: string, bs: seq<Bucket>, target: Id, now: int, ipv4: bool)
    requires |bs| > 0
  {
    exists ns: seq<Node> :: |ns| <= CLOSEST && Carries(Bytes(text), ipv4, ns) && IsClosest(ns, bs, target, now)
  }

  method ListFor(bs: seq<Bucket>, target: Id, now: int, ipv4: bool) returns (text: string)
    requires OneFamily(bs, ipv4)
    ensures if bs == [] then text == "" else Lists(text, bs, target, now, ipv4)
    ensures |text| % Size(ipv4) == 0 && |text| <= Offset(ipv4, CLOSEST)
  {
    hide NodeGood, Find, Closest, Pack, Krpc.Octets, Bytes, Nearby;
    if bs == [] {
      return "";
    }
    var nodes, numnodes := ClosestNodes(bs, target, now, ipv4);
    ghost var ns: seq<Node> :|
      && Holds(nodes[..], ipv4, ns) && numnodes == |ns|
      && Closest(NodeIds(ns), GoodIds(Nearby(bs, Find(bs, target)), now), target, CLOSEST)
      && forall n | n in ns :: n in Nearby(bs, Find(bs, target)) && NodeGood(n, now);
    HeldIsCarried(nodes[..], ipv4, ns);
    var used := nodes[..Offset(ipv4, numnodes)];
    text := Krpc.Octets(used);
    BytesOfOctets(used);
    assert Carries(Bytes(text), ipv4, ns) && IsClosest(ns, bs, target, now);
  }

  lemma CountInRange(ipv4: bool, n: nat)
    requires n <= CLOSEST
    ensures Offset(ipv4, n) <= Offset(ipv4, CLOSEST) && Offset(ipv4, n) % Size(ipv4) == 0
  {}

  lemma HeldIsCarried(b: seq<Byte>, ipv4: bool, ns: seq<Node>)
    requires Holds(b, ipv4, ns)
    ensures Offset(ipv4, |ns|) <= Offset(ipv4, CLOSEST) == |b| && Offset(ipv4, |ns|) % Size(ipv4) == 0
    ensures Carries(b[..Offset(ipv4, |ns|)], ipv4, ns)
  {
    hide Pack, Offset;
    CountInRange(ipv4, |ns|);
    var used := b[..Offset(ipv4, |ns|)];
    forall i: nat | i < |ns| ensures Offset(ipv4, i + 1) <= |used| && RecordAt(used, ipv4, i) == RecordAt(b, ipv4, i) {
      OffsetSteps(ipv4, i, i, |ns|);
    }
  }

  // send_closest_nodes; a family without a table has none.
  method SendClosestNodes(bs: seq<Bucket>, bs6: seq<Bucket>, target: Id, want: KrpcParser.Want, now: int,
                          head: Krpc.Reply, peers: seq<PeerStore.Peer>, j0: nat, len: nat)
    returns (m: Krpc.Reply, sent: Option<string>)
    requires OneFamily(bs, true) && OneFamily(bs6, false) && (j0 < |peers| || peers == [])
    ensures m == head.(nodes := m.nodes, nodes6 := m.nodes6, items := Krpc.Served(peers, j0, len))
    ensures if want.want4 && bs != [] then Lists(m.nodes, bs, target, now, true) else m.nodes == ""
    ensures if want.want6 && bs6 != [] then Lists(m.nodes6, bs6, target, now, false) else m.nodes6 == ""
    ensures |m.nodes| % 26 == 0 && |m.nodes| <= 208 && |m.nodes6| % 38 == 0 && |m.nodes6| <= 304
    ensures sent == Text.Transmitted(Krpc.BUFFER_SIZE, Krpc.Print(m))
  {
    hide Lists, OneFamily, Krpc.Print, Krpc.Served;
    var nodes, nodes6 := "", "";
    if want.want4 {
      nodes := ListFor(bs, target, now, true);
    }
    if want.want6 {
      nodes6 := ListFor(bs6, target, now, false);
    }
    m := head.(nodes := nodes, nodes6 := nodes6, items := Krpc.Served(peers, j0, len));
    sent := Krpc.SendNodesPeers(m, peers, j0, len);
  }

  // ----- and back -----

  lemma ListedContacts(text: string, bs: seq<Bucket>, target: Id, now: int, ipv4: bool)
    requires |bs| > 0 && Lists(text, bs, target, now, ipv4)
    ensures Offset(ipv4, |text| / Size(ipv4)) == |text| <= Offset(ipv4, CLOSEST)
    ensures exists ns: seq<Node> ::
      && |ns| <= CLOSEST && IsClosest(ns, bs, target, now)
      && ReadAll(Bytes(text), ipv4, |text| / Size(ipv4)) == Contacts(ns)
  {
    hide IsClosest, ReadAll, Bytes, Pack, RecordAt;
    var ns: seq<Node> :| |ns| <= CLOSEST && Carries(Bytes(text), ipv4, ns) && IsClosest(ns, bs, target, now);
    CarriedContacts(Bytes(text), ipv4, ns, |ns|);
    assert Contacts(ns)[..|ns|] == Contacts(ns);
    RecordCount(ipv4, |ns|);
  }

  lemma RecordCount(ipv4: bool, n: nat)
    ensures Offset(ipv4, n) / Size(ipv4) == n
  {}

  // The marker of a list is found where the list is, and nowhere if there is none.
  predicate ListFirst(m: Krpc.Reply, ipv4: bool)
  {
    if ipv4 then
      if m.nodes != "" then KrpcAnyOctets.First(KrpcAnyOctets.ToNodes(m), "5:nodes")
      else Text.After(Krpc.Print(m), "5:nodes").None?
    else
      if m.nodes6 != "" then KrpcAnyOctets.First(KrpcAnyOctets.ToNodes6(m), "6:nodes6")
      else Text.After(Krpc.Print(m), "6:nodes6").None?
  }

  function ListOf(m: Krpc.Reply, ipv4: bool): string
  {
    if ipv4 then m.nodes else m.nodes6
  }

  function ParsedList(f: KrpcParser.Fields, ipv4: bool): string
  {
    if ipv4 then f.nodes else f.nodes6
  }

  // Whatever octets it holds, a reply that is accepted has its lists read as printed.
  lemma AcceptedList(m: Krpc.Reply, ipv4: bool)
    requires ListFirst(m, ipv4) && |ListOf(m, ipv4)| <= Offset(ipv4, CLOSEST)
    ensures KrpcParser.Parse(Krpc.Print(m)).Some? ==>
      ParsedList(KrpcParser.Parse(Krpc.Print(m)).value, ipv4) == ListOf(m, ipv4)
  {
    hide Krpc.Print, KrpcAnyOctets.First, KrpcAnyOctets.ToNodes, KrpcAnyOctets.ToNodes6, Text.After, KrpcParser.Counted,
         KrpcParser.TidOf, KrpcParser.IdOf, KrpcParser.ValuesOf, KrpcParser.KindOf;
    if ipv4 && m.nodes != "" {
      KrpcAnyOctets.NodesReads(m);
    } else if !ipv4 && m.nodes6 != "" {
      KrpcAnyOctets.Nodes6Reads(m);
    }
  }

  // What a receiver that accepts the reply takes from it is exactly the closest good nodes
  // that the reachable table has, in order of their distance to the target.
  lemma ClosestNodesArrive(me: Id, es: seq<Event>, m: Krpc.Reply, target: Id, now: int, ipv4: bool)
    requires ListFirst(m, ipv4) && Lists(ListOf(m, ipv4), Run(me, es), target, now, ipv4)
    requires KrpcParser.Parse(Krpc.Print(m)).Some?
    ensures var text := ParsedList(KrpcParser.Parse(Krpc.Print(m)).value, ipv4);
      && Offset(ipv4, |text| / Size(ipv4)) == |text|
      && exists ns: seq<Node> ::
           && |ns| <= CLOSEST && IsClosest(ns, Run(me, es), target, now)
           && ReadAll(Bytes(text), ipv4, |text| / Size(ipv4)) == Contacts(ns)
  {
    hide Lists, IsClosest, ReadAll, Bytes, Run, Krpc.Print, KrpcParser.Parse, ListFirst;
    ListedContacts(ListOf(m, ipv4), Run(me, es), target, now, ipv4);
    AcceptedList(m, ipv4);
  }

  // When the reply is accepted for certain: it holds no marker early, whatever octets it
  // holds, or it holds no colon and nothing passes for anything else.
  ghost predicate Undisturbed(m: Krpc.Reply)
  {
    || (KrpcRoundTrip.SizesOk(m) && KrpcAnyOctets.Unmarked(m))
    || (&& KrpcRoundTrip.Sendable(m) && !KrpcRoundTrip.ValuesTaken(m)
        && !(m.token == "" && KrpcRoundTrip.Taken(m.tid, "token", KrpcParser.TOKEN_LEN))
        && !(m.nodes == "" && KrpcRoundTrip.Taken(m.tid, "nodes", KrpcParser.NODES_LEN))
        && !KrpcRoundTrip.Nodes6Taken(m))
  }

  lemma UndisturbedIsAccepted(m: Krpc.Reply)
    requires Undisturbed(m)
    ensures KrpcParser.Parse(Krpc.Print(m)) == Some(KrpcRoundTrip.Expected(m))
  {
    hide Krpc.Print, KrpcParser.Parse, KrpcRoundTrip.Sendable, KrpcRoundTrip.SizesOk, KrpcRoundTrip.Taken,
         KrpcRoundTrip.Nodes6Taken, KrpcRoundTrip.ValuesTaken, KrpcAnyOctets.Unmarked, KrpcRoundTrip.Expected;
    if KrpcRoundTrip.SizesOk(m) && KrpcAnyOctets.Unmarked(m) {
      KrpcAnyOctets.AnyOctetsRoundTrip(m);
    } else {
      KrpcRoundTrip.ReplyRoundTrip(m);
    }
  }

  // ----- from table to receiver -----

  ghost predicate HeadOk(head: Krpc.Reply)
  {
    && |head.id| == 20 && (head.token == "" || |head.token| == 8) && 0 < |head.tid| < 16
    && (head.v.Some? ==> |head.v.value| == 4)
  }

  // A reply without peers from the tables of both families, and its receiver: if it takes
  // the reply, and no marker comes early, it learns of exactly the closest good nodes,
  // itself left out.
  method Exchange(ghost me: Id, ghost es: seq<Event>, ghost es6: seq<Event>, bs: seq<Bucket>, bs6: seq<Bucket>,
                  target: Id, now: int, head: Krpc.Reply, receiver: Id)
    returns (m: Krpc.Reply, learnt: seq<Contact>, learnt6: seq<Contact>, taken: bool)
    requires OfFamily(es, true) && bs == Run(me, es) && OfFamily(es6, false) && bs6 == Run(me, es6) && HeadOk(head)
    ensures m == head.(nodes := m.nodes, nodes6 := m.nodes6, items := None)
    ensures Undisturbed(m) ==> taken
    ensures taken && ListFirst(m, true) ==> exists ns: seq<Node> ::
      |ns| <= CLOSEST && IsClosest(ns, bs, target, now) && learnt == Others(Contacts(ns), receiver)
    ensures taken && ListFirst(m, false) ==> exists ns: seq<Node> ::
      |ns| <= CLOSEST && IsClosest(ns, bs6, target, now) && learnt6 == Others(Contacts(ns), receiver)
  {
    hide Lists, IsClosest, ReadAll, Bytes, Run, Krpc.Print, KrpcParser.Parse, ListFirst, OneFamily, Others, Undisturbed,
         OfFamily;
    ReachableIsOneFamily(me, es, true);
    ReachableIsOneFamily(me, es6, false);
    NotEmpty(me, Run(me, es));
    NotEmpty(me, Run(me, es6));
    var sent;
    m, sent := SendClosestNodes(bs, bs6, target, KrpcParser.Want(true, true), now, head, [], 0, 4);
    HeadFits(head, m);
    learnt, learnt6, taken := [], [], false;
    if Undisturbed(m) {
      UndisturbedIsAccepted(m);
    }
    var r := KrpcParser.ParseMessage(sent.value);
    if r.None? || |r.value.fields.nodes| % 26 != 0 || |r.value.fields.nodes6| % 38 != 0 {
      if Undisturbed(m) {
        ExpectedLists(m);
      }
      return;
    }
    taken := true;
    learnt := ReadNodes(r.value.fields.nodes, true, receiver);
    learnt6 := ReadNodes(r.value.fields.nodes6, false, receiver);
    if ListFirst(m, true) {
      ClosestNodesArrive(me, es, m, target, now, true);
    }
    if ListFirst(m, false) {
      ClosestNodesArrive(me, es6, m, target, now, false);
    }
  }

  lemma HeadFits(head: Krpc.Reply, m: Krpc.Reply)
    requires HeadOk(head) && m == head.(nodes := m.nodes, nodes6 := m.nodes6, items := None)
    requires |m.nodes| % 26 == 0 && |m.nodes| <= 208 && |m.nodes6| % 38 == 0 && |m.nodes6| <= 304
    ensures Text.Transmitted(Krpc.BUFFER_SIZE, Krpc.Print(m)) == Some(Krpc.Print(m))
  {
    hide Krpc.Print, Text.Transmitted;
    KrpcRoundTrip.ReplyFits(m);
  }

  lemma ExpectedLists(m: Krpc.Reply)
    ensures KrpcRoundTrip.Expected(m).nodes == m.nodes && KrpcRoundTrip.Expected(m).nodes6 == m.nodes6
  {}
}
