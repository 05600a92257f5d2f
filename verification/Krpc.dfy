/** Replies to find_node and get_peers: what send_nodes_peers prints, and what
    parse_message, which looks for markers anywhere in the text, makes of it. */
module Krpc {
  import opened Seqs
  import opened Text
  import Ids
  import PeerStore

  const BUFFER_SIZE: nat := 2048
  const MAX_SERVED: nat := 50

  // The arguments of send_nodes_peers; items are the peers served, if there is a storage
  // with peers
  datatype Reply = Reply(id: string, nodes: string, nodes6: string, token: string,
                         items: Option<seq<string>>, tid: string, v: Option<string>)

  // ----- printing -----

  function VersionText(v: Option<string>): string
  {
    if v.Some? then "1:v4:" + v.value else ""
  }

  function PrintEnd(m: Reply): string
  {
    VersionText(m.v) + "1:y1:re"
  }

  function PrintTid(m: Reply): string
  {
    "e1:t" + (Field(m.tid) + PrintEnd(m))
  }

  function PrintValues(m: Reply): string
  {
    if m.items.None? then PrintTid(m) else "6:valuesl" + (PrintFields(m.items.value) + "e" + PrintTid(m))
  }

  // A section that is left out when it is empty
  function Section(name: string, x: string, rest: string): string
  {
    if x == "" then rest else name + (Field(x) + rest)
  }

  function PrintToken(m: Reply): string
  {
    Section("5:token", m.token, PrintValues(m))
  }

  function PrintNodes6(m: Reply): string
  {
    Section("6:nodes6", m.nodes6, PrintToken(m))
  }

  function PrintNodes(m: Reply): string
  {
    Section("5:nodes", m.nodes, PrintNodes6(m))
  }

  function Print(m: Reply): string
  {
    "d1:rd2:id20:" + (m.id + PrintNodes(m))
  }

  // ----- the peers served -----

  // Octets as text
  function Octets(bytes: seq<Ids.Byte>): (s: string)
    ensures |s| == |bytes|
  {
    if bytes == [] then "" else [bytes[0] as int as char] + Octets(bytes[1..])
  }

  // A port in network order
  function PortText(port: int): (s: string)
    ensures |s| == 2
  {
    [(port / 256 % 256) as char, (port % 256) as char]
  }

  function PeerText(p: PeerStore.Peer): string
  {
    Octets(p.key.ip) + PortText(p.key.port)
  }

  function PeerTexts(ps: seq<PeerStore.Peer>): seq<string>
  {
    if ps == [] then [] else [PeerText(ps[0])] + PeerTexts(ps[1..])
  }

  function Family(len: nat): PeerStore.Peer -> bool
  {
    (p: PeerStore.Peer) => |p.key.ip| == len
  }

  // The peers of one family, from position j0 on and around
  function Around(peers: seq<PeerStore.Peer>, j0: nat, len: nat): seq<PeerStore.Peer>
    requires j0 <= |peers|
  {
    Filter(peers[j0..] + peers[..j0], Family(len))
  }

  function FirstFifty(ps: seq<PeerStore.Peer>): seq<PeerStore.Peer>
  {
    if |ps| <= MAX_SERVED then ps else ps[..MAX_SERVED]
  }

  // What send_nodes_peers serves from a storage
  function Served(peers: seq<PeerStore.Peer>, j0: nat, len: nat): Option<seq<string>>
    requires j0 < |peers| || peers == []
  {
    if peers == [] then None else Some(PeerTexts(FirstFifty(Around(peers, j0, len))))
  }

  // ----- printing into a buffer -----

  // send_nodes_peers, with j0 the random position and len the address length of the family;
  // the items sent are those of the peers, whatever m has.
  method SendNodesPeers(m: Reply, peers: seq<PeerStore.Peer>, j0: nat, len: nat) returns (sent: Option<string>)
    requires j0 < |peers| || peers == []
    ensures sent == Transmitted(2048, Print(m.(items := Served(peers, j0, len))))
  {
    hide *;
    var p := new Packet(2048);
    ghost var items := Served(peers, j0, len);
    PutLists(p, m);
    ghost var head := p.text;
    if |peers| > 0 {
      p.Print("6:valuesl");
      PutServed(p, peers, j0, len);
      p.Print("e");
    }
    ValuesTextIs(peers, j0, len);
    assert p.text == head + ValuesText(items);
    sent := PutEnd(p, m);
    PrintIs(m.(items := items));
  }

  // The id and the three sections
  method PutLists(p: Packet, m: Reply)
    requires p.Valid()
    modifies p, p.buf
    ensures p.Valid()
    ensures p.text == old(p.text) + "d1:rd2:id20:" + m.id + Section("5:nodes", m.nodes, "")
      + Section("6:nodes6", m.nodes6, "") + Section("5:token", m.token, "")
  {
    hide *;
    p.Print("d1:rd2:id20:");
    p.Copy(m.id);
    PutSection(p, "5:nodes", m.nodes);
    PutSection(p, "6:nodes6", m.nodes6);
    PutSection(p, "5:token", m.token);
  }

  // Transaction id, version and end
  method PutEnd(p: Packet, m: Reply) returns (sent: Option<string>)
    requires p.Valid()
    modifies p, p.buf
    ensures sent == Transmitted(p.buf.Length, old(p.text) + ("e1:t" + Digits(|m.tid|) + ":") + m.tid
      + VersionText(m.v) + "1:y1:re")
  {
    hide *;
    p.Print("e1:t" + Digits(|m.tid|) + ":");
    p.Copy(m.tid);
    AddVersion(p, m.v);
    p.Print("1:y1:re");
    sent := p.Send();
  }

  function ValuesText(items: Option<seq<string>>): string
  {
    if items.None? then "" else "6:valuesl" + PrintFields(items.value) + "e"
  }

  lemma PrintIs(m: Reply)
    ensures Print(m) == "" + "d1:rd2:id20:" + m.id + Section("5:nodes", m.nodes, "")
      + Section("6:nodes6", m.nodes6, "") + Section("5:token", m.token, "") + ValuesText(m.items)
      + ("e1:t" + Digits(|m.tid|) + ":") + m.tid + VersionText(m.v) + "1:y1:re"
  {
    hide *;
    PrintTidIs(m);
    PrintNodesIs(m);
  }

  lemma PrintNodesIs(m: Reply)
    ensures Print(m) == "d1:rd2:id20:" + (m.id + (Section("5:nodes", m.nodes, "")
      + (Section("6:nodes6", m.nodes6, "") + (Section("5:token", m.token, "") + (ValuesText(m.items) + PrintTid(m))))))
  {
    hide Section, ValuesText, PrintTid, PrintValues;
    PrintValuesIs(m);
    SectionIs("5:token", m.token, PrintValues(m));
    SectionIs("6:nodes6", m.nodes6, PrintToken(m));
    SectionIs("5:nodes", m.nodes, PrintNodes6(m));
  }

  lemma PrintTidIs(m: Reply)
    ensures PrintTid(m) ==
      ("e1:t" + Digits(|m.tid|) + ":") + m.tid + VersionText(m.v) + "1:y1:re"
  {
    hide Digits;
  }

  lemma PrintValuesIs(m: Reply)
    ensures PrintValues(m) == ValuesText(m.items) + PrintTid(m)
  {
    hide PrintTid, PrintFields;
  }

  lemma SectionIs(name: string, x: string, rest: string)
    ensures Section(name, x, rest) == Section(name, x, "") + rest
  {
    hide Field;
    assert name + (Field(x) + rest) == name + (Field(x) + "") + rest;
  }

  // ADD_V
  method AddVersion(p: Packet, v: Option<string>)
    requires p.Valid()
    modifies p, p.buf
    ensures p.Valid() && p.text == old(p.text) + VersionText(v)
  {
    hide Packet.Valid;
    if v.Some? {
      p.Copy("1:v4:" + v.value);
    }
  }

  method PutSection(p: Packet, name: string, x: string)
    requires p.Valid()
    modifies p, p.buf
    ensures p.Valid() && p.text == old(p.text) + Section(name, x, "")
  {
    hide Packet.Valid, Digits;
    if |x| > 0 {
      p.Print(name + Digits(|x|) + ":");
      p.Copy(x);
      assert p.text == old(p.text) + (name + (Field(x) + ""));
    }
  }

  lemma ValuesTextIs(peers: seq<PeerStore.Peer>, j0: nat, len: nat)
    requires j0 < |peers| || peers == []
    ensures ValuesText(Served(peers, j0, len)) ==
      if peers == [] then ""
      else "6:valuesl" + PrintFields(PeerTexts(FirstFifty(Around(peers, j0, len)))) + "e"
  {}

  // The loop over the storage, which it goes around once at most
  method PutServed(p: Packet, peers: seq<PeerStore.Peer>, j0: nat, len: nat)
    requires p.Valid() && j0 < |peers|
    modifies p, p.buf
    ensures p.Valid()
    ensures p.text == old(p.text) + PrintFields(PeerTexts(FirstFifty(Around(peers, j0, len))))
  {
    hide Packet.Valid, Digits, PrintFields, PeerTexts, PeerText, Filter;
    var j, k, n, more := j0, 0, |peers|, true;
    ghost var c := 0;
    ghost var round := peers[j0..] + peers[..j0];
    ghost var family := Family(len);
    ghost var served: seq<PeerStore.Peer> := [];
    NoItems();
    while more
      invariant p.Valid() && c <= n && j == (if j0 + c < n then j0 + c else j0 + c - n)
      invariant served == Filter(round[..c], family) && k == |served| <= MAX_SERVED
      invariant more ==> c < n && k < MAX_SERVED
      invariant !more ==> c == n || k == MAX_SERVED
      invariant p.text == old(p.text) + PrintFields(PeerTexts(served))
      decreases more, n - c
    {
      assert peers[j] == round[c];
      FilterNext(round, c, family);
      if |peers[j].key.ip| == len {
        PutPeer(p, peers[j], len);
        ItemsNext(served, peers[j]);
        served := served + [peers[j]];
        k := k + 1;
      }
      c := c + 1;
      j := if j + 1 == n then 0 else j + 1;
      more := j != j0 && k < 50;
    }
    FilterPrefix(round, c, family);
    assert Around(peers, j0, len) == Filter(round, family);
    assert c == n ==> round[..c] == round;
    assert FirstFifty(Around(peers, j0, len)) == served;
  }

  method PutPeer(p: Packet, peer: PeerStore.Peer, len: nat)
    requires p.Valid() && |peer.key.ip| == len
    modifies p, p.buf
    ensures p.Valid() && p.text == old(p.text) + Field(PeerText(peer))
  {
    hide Packet.Valid, Digits, Octets, PortText;
    p.Print(Digits(len + 2) + ":");
    p.Copy(Octets(peer.key.ip));
    p.Copy(PortText(peer.key.port));
    assert |PeerText(peer)| == len + 2;
  }

  lemma NoItems()
    ensures PrintFields(PeerTexts([])) == "" && forall f: PeerStore.Peer -> bool :: Filter([], f) == []
  {}

  lemma {:induction false} ItemsNext(ps: seq<PeerStore.Peer>, q: PeerStore.Peer)
    ensures PrintFields(PeerTexts(ps + [q])) == PrintFields(PeerTexts(ps)) + Field(PeerText(q))
  {
    hide Field, PeerText;
    if ps == [] {
      assert PeerTexts([q]) == [PeerText(q)] + PeerTexts([]);
      assert PrintFields(PeerTexts([q])[1..]) == "";
      assert ps + [q] == [q];
    } else {
      ItemsNext(ps[1..], q);
      assert (ps + [q])[1..] == ps[1..] + [q];
      assert PeerTexts(ps)[1..] == PeerTexts(ps[1..]);
      assert PeerTexts(ps + [q])[1..] == PeerTexts(ps[1..] + [q]);
    }
  }

  // ----- what is served -----

  lemma {:induction false} FilterDistinct(ps: seq<PeerStore.Peer>, f: PeerStore.Peer -> bool)
    requires PeerStore.DistinctKeys(ps)
    ensures PeerStore.DistinctKeys(Filter(ps, f))
  {
    if ps != [] {
      FilterDistinct(ps[1..], f);
      var rest := Filter(ps[1..], f);
      forall i: nat | i < |rest| ensures rest[i].key != ps[0].key {
        FilterMembers(ps[1..], f, rest[i]);
        var k: nat :| k < |ps[1..]| && ps[1..][k] == rest[i];
        assert ps[k + 1] == rest[i];
      }
    }
  }

  lemma RoundDistinct(ps: seq<PeerStore.Peer>, j0: nat)
    requires PeerStore.DistinctKeys(ps) && j0 <= |ps|
    ensures PeerStore.DistinctKeys(ps[j0..] + ps[..j0])
  {
    var r := ps[j0..] + ps[..j0];
    forall i: nat, j: nat | i < j < |r| ensures r[i].key != r[j].key {
      var a := if i < |ps| - j0 then i + j0 else i - (|ps| - j0);
      var b := if j < |ps| - j0 then j + j0 else j - (|ps| - j0);
      assert r[i] == ps[a] && r[j] == ps[b] && a != b;
    }
  }

  // Whatever the random position, a reply serves peers of the family, none twice, fifty at
  // most and all of them if there are no more.
  lemma ServedPeers(peers: seq<PeerStore.Peer>, j0: nat, len: nat)
    requires j0 < |peers| && PeerStore.DistinctKeys(peers)
    ensures var served := FirstFifty(Around(peers, j0, len)); var all := Filter(peers, Family(len));
      && |served| == (if |all| <= MAX_SERVED then |all| else MAX_SERVED)
      && PeerStore.DistinctKeys(served)
      && (forall q | q in served :: q in peers && |q.key.ip| == len)
      && (|all| <= MAX_SERVED ==> forall q | q in peers && |q.key.ip| == len :: q in served)
  {
    hide Filter;
    var round, f := peers[j0..] + peers[..j0], Family(len);
    assert peers[..j0] + peers[j0..] == peers;
    FilterSplit(peers[..j0], peers[j0..], f);
    FilterSplit(peers[j0..], peers[..j0], f);
    RoundDistinct(peers, j0);
    FilterDistinct(round, f);
    forall q ensures q in Filter(round, f) <==> q in peers && f(q) {
      FilterMembers(round, f, q);
      assert q in peers <==> q in peers[..j0] || q in peers[j0..] by {
        assert peers == peers[..j0] + peers[j0..];
      }
    }
  }

  lemma {:induction false} PeerTextsAre(ps: seq<PeerStore.Peer>)
    ensures |PeerTexts(ps)| == |ps| && forall i: nat | i < |ps| :: PeerTexts(ps)[i] == PeerText(ps[i])
  {
    if ps != [] {
      PeerTextsAre(ps[1..]);
    }
  }
}
