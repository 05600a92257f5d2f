/** The four queries: what the node prints for them, and what parse_message reads. */
module KrpcQueries {
  import opened Seqs
  import opened Text
  import opened Krpc
  import opened KrpcParser
  import KrpcAnyOctets
  import KrpcRoundTrip

  const QUERY_SIZE: nat := 512

  // The arguments of send_ping, send_find_node, send_get_peers and send_announce_peer
  datatype Query =
    | Ping(id: string, tid: string, v: Option<string>)
    | FindNode(id: string, target: string, want: Want, tid: string, v: Option<string>)
    | GetPeers(id: string, info_hash: string, want: Want, tid: string, v: Option<string>)
    | AnnouncePeer(id: string, info_hash: string, port: nat, token: string, tid: string, v: Option<string>)

  // ----- printing -----

  function WantList(w: Want): string
  {
    (if w.want4 then "2:n4" else "") + (if w.want6 then "2:n6" else "")
  }

  function WantText(w: Want): string
  {
    if w.want4 || w.want6
    then "4:wantl" + WantList(w) + "e"
    else ""
  }

  function Arguments(q: Query): string
  {
    match q
    case Ping(_, _, _) => ""
    case FindNode(_, target, want, _, _) => "6:target20:" + target + WantText(want)
    case GetPeers(_, info_hash, want, _, _) => "9:info_hash20:" + info_hash + WantText(want)
    case AnnouncePeer(_, info_hash, port, token, _, _) =>
      "9:info_hash20:" + info_hash + "4:porti" + Digits(port) + "e5:token" + Field(token)
  }

  function Name(q: Query): string
  {
    match q
    case Ping(_, _, _) => "1:q4:ping"
    case FindNode(_, _, _, _, _) => "1:q9:find_node"
    case GetPeers(_, _, _, _, _) => "1:q9:get_peers"
    case AnnouncePeer(_, _, _, _, _, _) => "1:q13:announce_peer"
  }

  // What stands before the transaction id, and behind it
  function ToTid(q: Query): string
  {
    "d1:ad2:id20:" + q.id + Arguments(q) + "e" + Name(q)
  }

  function QueryEnd(q: Query): string
  {
    VersionText(q.v) + "1:y1:qe"
  }

  function PrintQuery(q: Query): string
  {
    ToTid(q) + "1:t" + (Field(q.tid) + QueryEnd(q))
  }

  // What is printed between the arguments and the transaction id
  function Opening(q: Query): string
  {
    match q
    case Ping(_, _, _) => "e1:q4:ping1:t"
    case FindNode(_, _, _, _, _) => "e1:q9:find_node1:t"
    case GetPeers(_, _, _, _, _) => "e1:q9:get_peers1:t"
    case AnnouncePeer(_, _, _, _, _, _) => "e1:q13:announce_peer1:t"
  }

  // What follows the arguments
  function Tail(q: Query): string
  {
    "e" + (Name(q) + ("1:t" + (Field(q.tid) + QueryEnd(q))))
  }

  lemma ToTidIs(q: Query)
    ensures ToTid(q) == "d1:ad2:id20:" + (q.id + (Arguments(q) + ("e" + Name(q))))
  {
    hide Arguments, Name;
  }

  lemma PrintQueryIs(q: Query)
    ensures PrintQuery(q) == ToTid(q) + "1:t" + (Field(q.tid) + QueryEnd(q))
  {
    hide ToTid, Field, QueryEnd;
  }

  lemma TailIs(q: Query)
    ensures Tail(q) == "e" + (Name(q) + ("1:t" + (Field(q.tid) + QueryEnd(q))))
  {
    hide Name, Field, QueryEnd;
  }

  lemma QueryNested(q: Query)
    ensures PrintQuery(q) == "d1:ad2:id20:" + (q.id + (Arguments(q) + Tail(q)))
  {
    hide *;
    PrintQueryIs(q);
    ToTidIs(q);
    TailIs(q);
  }

  lemma OpeningIs(q: Query)
    ensures "e" + Name(q) + "1:t" == Opening(q)
  {
    PingOpening();
    FindNodeOpening();
    GetPeersOpening();
    AnnouncePeerOpening();
  }

  lemma PingOpening()
    ensures "e" + "1:q4:ping" + "1:t" == "e1:q4:ping1:t"
  {}

  lemma FindNodeOpening()
    ensures "e" + "1:q9:find_node" + "1:t" == "e1:q9:find_node1:t"
  {}

  lemma GetPeersOpening()
    ensures "e" + "1:q9:get_peers" + "1:t" == "e1:q9:get_peers1:t"
  {}

  lemma AnnouncePeerOpening()
    ensures "e" + "1:q13:announce_peer" + "1:t" == "e1:q13:announce_peer1:t"
  {}

  lemma FieldIs(x: string)
    ensures Field(x) == Digits(|x|) + ":" + x
  {
    hide Digits;
  }

  lemma TailPrinted(q: Query)
    ensures Tail(q) == (Opening(q) + Digits(|q.tid|) + ":") + q.tid + QueryEnd(q)
  {
    hide *;
    TailIs(q);
    FieldIs(q.tid);
    OpeningIs(q);
  }

  lemma OpeningFor(q: Query)
    ensures q.Ping? ==> Opening(q) == "e1:q4:ping1:t"
    ensures q.FindNode? ==> Opening(q) == "e1:q9:find_node1:t"
    ensures q.GetPeers? ==> Opening(q) == "e1:q9:get_peers1:t"
    ensures q.AnnouncePeer? ==> Opening(q) == "e1:q13:announce_peer1:t"
  {}

  lemma PingText(q: Query)
    requires q.Ping?
    ensures PrintQuery(q) == "" + "d1:ad2:id20:" + q.id + Tail(q)
  {
    hide *;
    QueryNested(q);
    NoArguments(q);
  }

  lemma NoArguments(q: Query)
    requires q.Ping?
    ensures Arguments(q) == ""
  {}

  lemma FindNodeText(q: Query)
    requires q.FindNode?
    ensures PrintQuery(q) == "" + "d1:ad2:id20:" + q.id + "6:target20:" + q.target + WantText(q.want) + Tail(q)
  {
    hide *;
    QueryNested(q);
    ArgumentsWith(q);
  }

  lemma GetPeersText(q: Query)
    requires q.GetPeers?
    ensures PrintQuery(q) == "" + "d1:ad2:id20:" + q.id + "9:info_hash20:" + q.info_hash + WantText(q.want) + Tail(q)
  {
    hide *;
    QueryNested(q);
    ArgumentsWith(q);
  }

  lemma ArgumentsWith(q: Query)
    ensures q.FindNode? ==> Arguments(q) == "6:target20:" + q.target + WantText(q.want)
    ensures q.GetPeers? ==> Arguments(q) == "9:info_hash20:" + q.info_hash + WantText(q.want)
    ensures q.AnnouncePeer? ==>
      Arguments(q) == "9:info_hash20:" + q.info_hash + "4:porti" + Digits(q.port) + "e5:token" + Field(q.token)
  {
    hide WantText, Digits, Field;
  }

  lemma AnnouncePeerText(q: Query)
    requires q.AnnouncePeer?
    ensures PrintQuery(q) == "" + "d1:ad2:id20:" + q.id + "9:info_hash20:" + q.info_hash
      + ("4:porti" + Digits(q.port) + "e5:token" + Digits(|q.token|) + ":") + q.token + Tail(q)
  {
    hide *;
    QueryNested(q);
    ArgumentsWith(q);
    FieldIs(q.token);
  }

  method SendPing(q: Query) returns (sent: Option<string>)
    requires q.Ping?
    ensures sent == Transmitted(512, PrintQuery(q))
  {
    hide *;
    OpeningFor(q);
    PingText(q);
    var p := new Packet(512);
    p.Print("d1:ad2:id20:");
    p.Copy(q.id);
    sent := PutTail(p, "e1:q4:ping1:t", q);
  }

  method SendFindNode(q: Query) returns (sent: Option<string>)
    requires q.FindNode?
    ensures sent == Transmitted(512, PrintQuery(q))
  {
    hide *;
    OpeningFor(q);
    FindNodeText(q);
    var p := new Packet(512);
    p.Print("d1:ad2:id20:");
    p.Copy(q.id);
    p.Print("6:target20:");
    p.Copy(q.target);
    PutWant(p, q.want);
    sent := PutTail(p, "e1:q9:find_node1:t", q);
  }

  method SendGetPeers(q: Query) returns (sent: Option<string>)
    requires q.GetPeers?
    ensures sent == Transmitted(512, PrintQuery(q))
  {
    hide *;
    OpeningFor(q);
    GetPeersText(q);
    var p := new Packet(512);
    p.Print("d1:ad2:id20:");
    p.Copy(q.id);
    p.Print("9:info_hash20:");
    p.Copy(q.info_hash);
    PutWant(p, q.want);
    sent := PutTail(p, "e1:q9:get_peers1:t", q);
  }

  method SendAnnouncePeer(q: Query) returns (sent: Option<string>)
    requires q.AnnouncePeer?
    ensures sent == Transmitted(512, PrintQuery(q))
  {
    hide *;
    OpeningFor(q);
    AnnouncePeerText(q);
    var p := new Packet(512);
    p.Print("d1:ad2:id20:");
    p.Copy(q.id);
    p.Print("9:info_hash20:");
    p.Copy(q.info_hash);
    p.Print("4:porti" + Digits(q.port) + "e5:token" + Digits(|q.token|) + ":");
    p.Copy(q.token);
    sent := PutTail(p, "e1:q13:announce_peer1:t", q);
  }

  method PutWant(p: Packet, w: Want)
    requires p.Valid()
    modifies p, p.buf
    ensures p.Valid() && p.text == old(p.text) + WantText(w)
  {
    hide Packet.Valid;
    if w.want4 || w.want6 {
      p.Print("4:wantl" + (if w.want4 then "2:n4" else "") + (if w.want6 then "2:n6" else "") + "e");
    }
  }

  // The end of the arguments, the name and the rest of the query
  method PutTail(p: Packet, opening: string, q: Query) returns (sent: Option<string>)
    requires p.Valid() && opening == Opening(q)
    modifies p, p.buf
    ensures sent == Transmitted(p.buf.Length, old(p.text) + Tail(q))
  {
    hide *;
    p.Print(opening + Digits(|q.tid|) + ":");
    p.Copy(q.tid);
    AddVersion(p, q.v);
    p.Print("1:y1:qe");
    QueryEndIs(q);
    TailPrinted(q);
    assert p.text == old(p.text) + Tail(q);
    sent := p.Send();
  }

  lemma QueryEndIs(q: Query)
    ensures QueryEnd(q) == VersionText(q.v) + "1:y1:qe"
  {
    hide VersionText;
  }

  // ----- sizes -----

  predicate QuerySizes(q: Query)
  {
    && |q.id| == 20 && 0 < |q.tid| < 16 && (q.v.Some? ==> |q.v.value| == 4)
    && (q.FindNode? ==> |q.target| == 20)
    && (q.GetPeers? ==> |q.info_hash| == 20)
    && (q.AnnouncePeer? ==> |q.info_hash| == 20 && q.port < 0x10000 && 0 < |q.token| < 40)
  }

  // A query always fits.
  lemma QueryFits(q: Query)
    requires QuerySizes(q)
    ensures |PrintQuery(q)| < 200 && Transmitted(QUERY_SIZE, PrintQuery(q)) == Some(PrintQuery(q))
  {
    hide Digits;
    DigitsLength(|q.tid|);
    if q.AnnouncePeer? {
      DigitsLength(|q.token|);
      PortLength(q.port);
    }
  }

  lemma PortLength(port: nat)
    requires port < 0x10000
    ensures |Digits(port)| <= 5
  {
    DigitsLength(port / 10);
    DigitsLength(port);
  }

  // ----- what is read -----

  function HashOf(q: Query): Option<string>
  {
    if q.GetPeers? || q.AnnouncePeer? then Some(q.info_hash) else None
  }

  function TargetOf(q: Query): Option<string>
  {
    if q.FindNode? then Some(q.target) else None
  }

  function WantIn(q: Query): Option<Want>
  {
    if (q.FindNode? || q.GetPeers?) && (q.want.want4 || q.want.want6) then Some(q.want) else None
  }

  function KindIn(q: Query): Kind
  {
    match q
    case Ping(_, _, _) => IsPing
    case FindNode(_, _, _, _, _) => IsFindNode
    case GetPeers(_, _, _, _, _) => IsGetPeers
    case AnnouncePeer(_, _, _, _, _, _) => IsAnnouncePeer
  }

  // All that was printed, and nothing else
  function Expected(q: Query): Message
  {
    Message(
      Fields(KindIn(q), Some(q.tid), q.id, if HashOf(q).Some? then HashOf(q).value else Zeroes(20),
             if TargetOf(q).Some? then TargetOf(q).value else Zeroes(20),
             if q.AnnouncePeer? then q.token else "", "", "", "", ""),
      if q.AnnouncePeer? then q.port else 0, WantIn(q))
  }

  // ----- no marker is met early -----

  function ToArguments(q: Query): string
  {
    "d1:ad2:id20:" + q.id
  }

  function ToWant(q: Query): string
  {
    ToArguments(q) + (if q.FindNode? then "6:target20:" + q.target
                      else if q.GetPeers? then "9:info_hash20:" + q.info_hash else "")
  }

  function ToPort(q: Query): string
    requires q.AnnouncePeer?
  {
    ToArguments(q) + "9:info_hash20:" + q.info_hash + "4:"
  }

  function ToToken(q: Query): string
    requires q.AnnouncePeer?
  {
    ToPort(q) + "porti" + Digits(q.port) + "e"
  }

  predicate Absent(q: Query, marker: string)
  {
    After(PrintQuery(q), marker).None?
  }

  predicate First(prefix: string, marker: string)
    requires marker != ""
  {
    KrpcAnyOctets.First(prefix, marker)
  }

  // The port is met first where it is printed, and nowhere if it is not.
  predicate PortUnmarked(q: Query)
  {
    if q.AnnouncePeer? then First(ToPort(q), "porti") else Absent(q, "porti")
  }

  // So is every other marker.
  predicate Unmarked(q: Query)
  {
    && (if HashOf(q).Some? then First(ToArguments(q), "9:info_hash20:") else Absent(q, "9:info_hash20:"))
    && (if TargetOf(q).Some? then First(ToArguments(q), "6:target20:") else Absent(q, "6:target20:"))
    && (if WantIn(q).Some? then First(ToWant(q), "4:wantl") else Absent(q, "4:wantl"))
    && (if q.AnnouncePeer? then First(ToToken(q), "5:token") else Absent(q, "5:token"))
    && Absent(q, "5:nodes") && Absent(q, "6:nodes6") && Absent(q, "6:valuesl")
    && First(ToTid(q), "1:t") && NoOtherKind(q)
  }

  // No kind that is looked for before
  predicate NoOtherKind(q: Query)
  {
    && Absent(q, "1:y1:r") && Absent(q, "1:y1:e")
    && (!q.Ping? ==> Absent(q, "1:q4:ping"))
    && (!q.Ping? && !q.FindNode? ==> Absent(q, "1:q9:find_node"))
    && (q.AnnouncePeer? ==> Absent(q, "1:q9:get_peers"))
  }

  // ----- field by field -----

  lemma FoundAt(prefix: string, marker: string, rest: string)
    requires marker != "" && First(prefix, marker)
    ensures After(prefix + marker + rest, marker) == Some(rest)
  {
    hide After;
    AfterMarkerAt(prefix, marker, rest);
  }

  // It is somewhere in the text, so it is found.
  lemma Somewhere(x: string, m: string, y: string)
    requires m != ""
    ensures After(x + m + y, m).Some?
  {
    hide After;
    var s := x + m + y;
    AfterNone(s, m);
    assert s[|x|..|x| + |m|] == m;
    assert Occurs(s, m, |x|);
  }

  // The kind is read right exactly when no other kind is met first.
  lemma KindReads(q: Query)
    ensures KindOf(PrintQuery(q)) == Some(KindIn(q)) <==> NoOtherKind(q)
  {
    hide After, Field, VersionText, Arguments;
    var s := PrintQuery(q);
    var x, y := "d1:ad2:id20:" + q.id + Arguments(q) + "e", "1:t" + (Field(q.tid) + QueryEnd(q));
    assert s == x + Name(q) + y;
    Somewhere(x, Name(q), y);
    var z := ToTid(q) + "1:t" + Field(q.tid) + VersionText(q.v);
    assert s == z + "1:y1:q" + "e";
    Somewhere(z, "1:y1:q", "e");
  }

  ghost predicate Contains(s: string, m: string)
  {
    exists i: nat :: Occurs(s, m, i)
  }

  // A message is an error if it says so and does not say that it is a reply; it has no kind
  // if it says neither and is no query of a known name.
  lemma ErrorsAndUnknown(s: string)
    ensures KindOf(s) == Some(IsError) <==> Contains(s, "1:y1:e") && !Contains(s, "1:y1:r")
    ensures KindOf(s).None? <==>
      && !Contains(s, "1:y1:r") && !Contains(s, "1:y1:e")
      && (Contains(s, "1:y1:q") ==>
            && !Contains(s, "1:q4:ping") && !Contains(s, "1:q9:find_node")
            && !Contains(s, "1:q9:get_peers") && !Contains(s, "1:q13:announce_peer"))
  {
    hide After, Contains;
    Found(s, "1:y1:r");
    Found(s, "1:y1:e");
    Found(s, "1:y1:q");
    Found(s, "1:q4:ping");
    Found(s, "1:q9:find_node");
    Found(s, "1:q9:get_peers");
    Found(s, "1:q13:announce_peer");
  }

  lemma Found(s: string, m: string)
    requires m != ""
    ensures After(s, m).Some? <==> Contains(s, m)
  {
    AfterNone(s, m);
  }

  lemma IdReads(q: Query)
    requires |q.id| == 20
    ensures IdOf(PrintQuery(q), "2:id20:") == Some(q.id)
  {
    hide After, Field, QueryEnd, Arguments, Name;
    var rest := q.id + (Arguments(q) + "e" + Name(q) + "1:t" + (Field(q.tid) + QueryEnd(q)));
    assert PrintQuery(q) == "d1:ad" + "2:id20:" + rest;
    NoIdBefore();
    AfterMarkerAt("d1:ad", "2:id20:", rest);
    assert rest[..20] == q.id;
  }

  lemma NoIdBefore()
    ensures After("d1:ad" + "2:id20:"[..6], "2:id20:").None?
  {
    var s := "d1:ad2:id20";
    assert s == "d1:ad" + "2:id20:"[..6];
    hide After;
    AfterNone(s, "2:id20:");
    forall i: nat ensures !Occurs(s, "2:id20:", i) {
      if i <= 4 {
        NoMatch(s, "2:id20:", i, 0);
      }
    }
  }

  lemma TidReads(q: Query)
    requires 0 < |q.tid| < 16 && First(ToTid(q), "1:t")
    ensures TidOf(PrintQuery(q)) == Some(Some(q.tid))
  {
    hide After, Field, Counted, ToTid, QueryEnd;
    FoundAt(ToTid(q), "1:t", Field(q.tid) + QueryEnd(q));
    KrpcRoundTrip.CountedField(q.tid, QueryEnd(q), KrpcParser.TID_LEN);
  }

  lemma TwentyReads(prefix: string, marker: string, x: string, rest: string)
    requires marker != "" && First(prefix, marker) && |x| == 20
    ensures IdOf(prefix + marker + (x + rest), marker) == Some(x)
  {
    hide After;
    FoundAt(prefix, marker, x + rest);
    assert (x + rest)[..20] == x;
  }

  // Where each marker is printed
  lemma HashBehind(q: Query) returns (rest: string)
    requires HashOf(q).Some?
    ensures PrintQuery(q) == ToArguments(q) + "9:info_hash20:" + (q.info_hash + rest)
  {
    hide *;
    HasHash(q);
    ToArgumentsIs(q);
    if q.GetPeers? {
      GetPeersText(q);
      rest := WantText(q.want) + Tail(q);
    } else {
      AnnouncePeerText(q);
      rest := ("4:porti" + Digits(q.port) + "e5:token" + Digits(|q.token|) + ":") + q.token + Tail(q);
    }
  }

  lemma HasHash(q: Query)
    ensures HashOf(q).Some? <==> q.GetPeers? || q.AnnouncePeer?
  {}

  lemma ToArgumentsIs(q: Query)
    ensures ToArguments(q) == "d1:ad2:id20:" + q.id
  {}

  lemma TargetBehind(q: Query)
    requires q.FindNode?
    ensures PrintQuery(q) == ToArguments(q) + "6:target20:" + (q.target + (WantText(q.want) + Tail(q)))
  {
    hide *;
    ToArgumentsIs(q);
    FindNodeText(q);
  }

  lemma PortBehind(q: Query)
    requires q.AnnouncePeer?
    ensures PrintQuery(q) == ToPort(q) + "porti" + (Digits(q.port) + ("e5:token" + (Field(q.token) + Tail(q))))
  {
    hide *;
    AnnouncePeerText(q);
    ToArgumentsIs(q);
    ToPortIs(q);
    FieldIs(q.token);
    Joints();
    var head := "d1:ad2:id20:" + q.id + "9:info_hash20:" + q.info_hash;
    var rest := Digits(q.port) + ("e5:token" + (Field(q.token) + Tail(q)));
    Regrouped(head, "4:porti", Digits(q.port), "e5:token", Digits(|q.token|), q.token, Tail(q));
    assert head + ("4:" + "porti") + rest == head + "4:" + "porti" + rest;
  }

  lemma Regrouped(head: string, a: string, x: string, b: string, y: string, z: string, tail: string)
    ensures head + (a + x + b + y + ":") + z + tail == head + a + (x + (b + ((y + ":" + z) + tail)))
  {}

  lemma TokenBehind(q: Query)
    requires q.AnnouncePeer?
    ensures PrintQuery(q) == ToToken(q) + "5:token" + (Field(q.token) + Tail(q))
  {
    hide *;
    PortBehind(q);
    ToPortIs(q);
    Joints();
    var head, rest := ToPort(q) + "porti" + Digits(q.port), Field(q.token) + Tail(q);
    assert PrintQuery(q) == head + ("e5:token" + rest);
    assert (head + "e") + "5:token" == head + ("e" + "5:token");
  }

  lemma ToPortIs(q: Query)
    requires q.AnnouncePeer?
    ensures ToPort(q) == ToArguments(q) + "9:info_hash20:" + q.info_hash + "4:"
    ensures ToToken(q) == ToPort(q) + "porti" + Digits(q.port) + "e"
  {
    hide ToArguments, Digits;
  }

  lemma Joints()
    ensures "4:" + "porti" == "4:porti" && "e" + "5:token" == "e5:token"
  {}

  lemma WantBehind(q: Query)
    requires WantIn(q).Some?
    ensures PrintQuery(q) == ToWant(q) + "4:wantl" + (WantList(q.want) + ("e" + Tail(q)))
  {
    hide *;
    HasWant(q);
    ToArgumentsIs(q);
    WantTextIs(q.want);
    var rest := "4:wantl" + (WantList(q.want) + ("e" + Tail(q)));
    assert WantText(q.want) + Tail(q) == rest;
    if q.FindNode? {
      FindNodeText(q);
      assert PrintQuery(q) == ToWant(q) + (WantText(q.want) + Tail(q));
    } else {
      GetPeersText(q);
      assert PrintQuery(q) == ToWant(q) + (WantText(q.want) + Tail(q));
    }
  }

  lemma HasWant(q: Query)
    requires WantIn(q).Some?
    ensures q.FindNode? || q.GetPeers?
    ensures (q.want.want4 || q.want.want6) && WantIn(q) == Some(q.want)
    ensures q.FindNode? ==> ToWant(q) == ToArguments(q) + ("6:target20:" + q.target)
    ensures q.GetPeers? ==> ToWant(q) == ToArguments(q) + ("9:info_hash20:" + q.info_hash)
  {
    hide ToArguments;
  }

  lemma WantTextIs(w: Want)
    requires w.want4 || w.want6
    ensures WantText(w) == "4:wantl" + WantList(w) + "e"
  {}

  lemma HashReads(q: Query)
    requires HashOf(q).Some? && |q.info_hash| == 20 && First(ToArguments(q), "9:info_hash20:")
    ensures IdOf(PrintQuery(q), "9:info_hash20:") == Some(q.info_hash)
  {
    hide *;
    HasHash(q);
    var rest := HashBehind(q);
    TwentyReads(ToArguments(q), "9:info_hash20:", q.info_hash, rest);
  }

  lemma TargetReads(q: Query)
    requires q.FindNode? && |q.target| == 20 && First(ToArguments(q), "6:target20:")
    ensures IdOf(PrintQuery(q), "6:target20:") == Some(q.target)
  {
    hide *;
    TargetBehind(q);
    TwentyReads(ToArguments(q), "6:target20:", q.target, WantText(q.want) + Tail(q));
  }

  lemma PortReads(q: Query)
    requires q.AnnouncePeer? && q.port < 0x10000 && First(ToPort(q), "porti")
    ensures PortOf(PrintQuery(q)) == q.port
  {
    hide After, Field, PrintQuery, ToPort, First, Tail, Digits, Strtol;
    var rest := "e5:token" + (Field(q.token) + Tail(q));
    PortBehind(q);
    FoundAt(ToPort(q), "porti", Digits(q.port) + rest);
    StrtolOfDigits(q.port, rest);
  }

  lemma TokenReads(q: Query)
    requires q.AnnouncePeer? && 0 < |q.token| < 40 && First(ToToken(q), "5:token")
    ensures FieldOf(PrintQuery(q), "5:token", TOKEN_LEN) == Some(q.token)
  {
    hide After, Field, PrintQuery, ToToken, First, Tail, Counted;
    TokenBehind(q);
    FoundAt(ToToken(q), "5:token", Field(q.token) + Tail(q));
    KrpcRoundTrip.CountedField(q.token, Tail(q), TOKEN_LEN);
  }

  lemma WantReads(q: Query)
    requires WantIn(q).Some? && First(ToWant(q), "4:wantl")
    ensures WantOf(PrintQuery(q)) == WantIn(q)
  {
    hide After, PrintQuery, ToWant, First, Tail, WantLoop, WantList;
    var rest := "e" + Tail(q);
    WantBehind(q);
    FoundAt(ToWant(q), "4:wantl", WantList(q.want) + rest);
    TailIsLong(q);
    WantListed(q.want, rest);
  }

  lemma TailIsLong(q: Query)
    ensures |Tail(q)| > 4
  {}

  lemma WantListed(w: Want, rest: string)
    requires |rest| > 4 && rest[0] == 'e'
    ensures WantLoop(WantList(w) + rest, Want(false, false)) == w
  {
    hide WantLoop;
    var s6 := (if w.want6 then "2:n6" else "") + rest;
    assert WantList(w) + rest == (if w.want4 then "2:n4" else "") + s6;
    WantEnds(rest, w);
    assert WantLoop(s6, Want(w.want4, false)) == w by {
      if w.want6 {
        WantSix(w.want4, rest);
      } else {
        assert s6 == rest;
      }
    }
    if w.want4 {
      WantFour(s6);
    } else {
      assert "" + s6 == s6;
    }
  }

  lemma WantFour(rest: string)
    requires rest != ""
    ensures WantLoop("2:n4" + rest, Want(false, false)) == WantLoop(rest, Want(true, false))
  {
    hide WantLoop;
    assert "2:" + "n4" == "2:n4";
    assert "n4"[1] != "n6"[1];
    WantOne("n4", rest, Want(false, false));
  }

  lemma WantSix(want4: bool, rest: string)
    requires rest != ""
    ensures WantLoop("2:n6" + rest, Want(want4, false)) == WantLoop(rest, Want(want4, true))
  {
    hide WantLoop;
    assert "2:" + "n6" == "2:n6";
    assert "n6"[1] != "n4"[1];
    WantOne("n6", rest, Want(want4, false));
  }

  lemma WantEnds(rest: string, w: Want)
    requires rest != "" && rest[0] == 'e'
    ensures WantLoop(rest, w) == w
  {}

  lemma WantOne(x: string, rest: string, w: Want)
    requires |x| == 2 && rest != ""
    ensures WantLoop("2:" + x + rest, w) == WantLoop(rest, Want(w.want4 || x == "n4", w.want6 || x == "n6"))
  {
    var s := "2:" + x + rest;
    assert s[0] == '2' && s[1] == ':' && s[2..4] == x && s[4..] == rest;
  }

  // ----- the whole query -----

  // parse_message reads of a query exactly what was printed, its kind first, when no marker
  // is met early; the port does not disturb the rest.
  lemma QueryRoundTrip(q: Query)
    requires QuerySizes(q) && Unmarked(q)
    ensures Transmitted(QUERY_SIZE, PrintQuery(q)) == Some(PrintQuery(q))
    ensures ParseAll(PrintQuery(q)) == Some(Expected(q).(port := PortOf(PrintQuery(q))))
    ensures PortUnmarked(q) ==> ParseAll(PrintQuery(q)) == Some(Expected(q))
  {
    hide After, PrintQuery, TidOf, KindOf, Transmitted, Zeroes, Counted, First, ToArguments, ToWant, ToPort, ToToken,
         ToTid, NoOtherKind, WantLoop, Strtol;
    QueryFits(q);
    IdReads(q);
    TidReads(q);
    KindReads(q);
    if HashOf(q).Some? { HashReads(q); }
    if TargetOf(q).Some? { TargetReads(q); }
    if WantIn(q).Some? { WantReads(q); }
    if q.AnnouncePeer? {
      TokenReads(q);
      if PortUnmarked(q) { PortReads(q); }
    }
  }

  // An id that spells a port is taken for it, whatever port is announced.
  lemma PortIsMisread(q: Query, n: nat, rest: string)
    requires q.id == "porti" + (Digits(n) + ("e" + rest)) && 0 < n < 0x10000
    ensures PortOf(PrintQuery(q)) == n
  {
    var tail := "e" + (rest + (Arguments(q) + Tail(q)));
    assert PrintQuery(q) == "d1:ad2:id20:" + "porti" + (Digits(n) + tail) by {
      hide *;
      QueryNested(q);
    }
    NoPortBefore();
    hide After, Digits, Strtol, Tail, Arguments, PrintQuery;
    AfterMarkerAt("d1:ad2:id20:", "porti", Digits(n) + tail);
    StrtolOfDigits(n, tail);
  }

  // ----- messages that are cut off -----

  // A message that ends within twenty octets of the marker of an id is refused.
  lemma CutOffIdIsRefused(s: string, marker: string)
    requires marker in {"2:id20:", "9:info_hash20:", "6:target20:"}
    requires After(s, marker).Some? && |After(s, marker).value| < 20
    ensures ParseAll(s).None?
  {
    hide After, TidOf, FieldOf, ValuesOf, KindOf, PortOf, WantOf;
  }

  // So is one that ends within a field, as long as its length is one that would be read.
  lemma CutOffFieldIsRefused(x: string, marker: string, n: nat, y: string)
    requires marker in {"1:t", "5:token", "5:nodes", "6:nodes6"} && First(x, marker) && |y| < n
    requires n < (if marker == "1:t" then 16 else if marker == "5:token" then 128
                  else if marker == "5:nodes" then 256 else 1024)
    ensures ParseAll(x + marker + (Digits(n) + (":" + y))).None?
  {
    hide After, Digits, IdOf, ValuesOf, KindOf, PortOf, WantOf, First;
    FoundAt(x, marker, Digits(n) + (":" + y));
    CutOff(n, y, if marker == "1:t" then TID_LEN else if marker == "5:token" then TOKEN_LEN
                 else if marker == "5:nodes" then NODES_LEN else NODES6_LEN);
  }

  lemma CutOff(n: nat, y: string, limit: int)
    requires |y| < n < limit <= LONG_MAX
    ensures Counted(Digits(n) + (":" + y), limit) == None
  {
    hide Strtol, Digits;
    StrtolOfDigits(n, ":" + y);
  }

  lemma NoPortBefore()
    ensures After("d1:ad2:id20:" + "porti"[..4], "porti").None?
  {
    var s := "d1:ad2:id20:port";
    assert s == "d1:ad2:id20:" + "porti"[..4];
    hide After;
    AfterNone(s, "porti");
    forall i: nat ensures !Occurs(s, "porti", i) {
      NoMatch(s, "porti", i, if i < 12 then 0 else 4);
    }
  }
}
