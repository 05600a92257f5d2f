/** Queries without colons: a text as the list of what its colons separate, and why no
    marker is met early in it. */
module KrpcPlain {
  import opened Seqs
  import opened Text
  import opened Krpc
  import opened KrpcParser
  import opened KrpcQueries
  import KrpcAnyOctets
  import KrpcRoundTrip

  // ----- texts between colons -----

  function Join(parts: seq<string>): string
  {
    if parts == [] then ""
    else if |parts| == 1 then parts[0]
    else parts[0] + ":" + Join(parts[1..])
  }

  predicate NoColons(parts: seq<string>)
  {
    forall i: nat | i < |parts| :: ':' !in parts[i]
  }

  predicate Ends(x: string, l: char)
  {
    x != "" && x[|x| - 1] == l
  }

  predicate Begins(x: string, c: char)
  {
    x != "" && x[0] == c
  }

  // The octets before and behind the colon that follows part i
  predicate Edge(parts: seq<string>, i: nat, l: char, c: char)
  {
    i + 1 < |parts| && Ends(parts[i], l) && Begins(parts[i + 1], c)
  }

  lemma {:induction false} JoinSplit(s: seq<string>, t: seq<string>)
    requires s != [] && t != []
    ensures Join(s + t) == Join(s) + ":" + Join(t)
  {
    if |s| == 1 {
      assert (s + t)[1..] == t;
    } else {
      assert (s + t)[1..] == s[1..] + t;
      JoinSplit(s[1..], t);
    }
  }

  lemma {:induction false} JoinLast(s: seq<string>, x: string, y: string)
    ensures Join(s + [x]) + y == Join(s + [x + y])
  {
    if s != [] {
      assert (s + [x])[1..] == s[1..] + [x] && (s + [x + y])[1..] == s[1..] + [x + y];
      JoinLast(s[1..], x, y);
    }
  }

  lemma NoneWithoutColon(x: string, a: char, b: string)
    requires ':' !in x
    ensures After(x, KrpcRoundTrip.Marker(a, b)).None?
  {
    hide After;
    var m := KrpcRoundTrip.Marker(a, b);
    AfterNone(x, m);
    forall i: nat ensures !Occurs(x, m, i) {
      NoMatch(x, m, i, 1);
    }
  }

  // A marker a:b lies across a colon, so it is met only at an edge.
  lemma {:induction false} JoinNone(parts: seq<string>, a: char, b: string)
    requires parts != [] && NoColons(parts) && a != ':' && b != "" && b[0] != ':'
    requires forall i: nat | Edge(parts, i, a, b[0]) :: !StartsWith(Join(parts[i + 1..]), b)
    ensures After(Join(parts), KrpcRoundTrip.Marker(a, b)).None?
  {
    hide After;
    if |parts| == 1 {
      NoneWithoutColon(parts[0], a, b);
    } else {
      var rest := Join(parts[1..]);
      forall i: nat | Edge(parts[1..], i, a, b[0]) ensures !StartsWith(Join(parts[1..][i + 1..]), b) {
        assert Edge(parts, i + 1, a, b[0]);
        assert parts[1..][i + 1..] == parts[i + 2..];
      }
      JoinNone(parts[1..], a, b);
      assert KrpcRoundTrip.Marker(a, b) == [a] + ":" + b;
      AfterColon(parts[0], rest, [a], b);
      if EndsWith(parts[0], [a]) && StartsWith(rest, b) {
        EdgeAt(parts, a, b);
      }
    }
  }

  lemma EdgeAt(parts: seq<string>, a: char, b: string)
    requires |parts| > 1 && b != "" && b[0] != ':'
    requires EndsWith(parts[0], [a]) && StartsWith(Join(parts[1..]), b)
    ensures Edge(parts, 0, a, b[0])
  {
    hide Join;
    var rest := Join(parts[1..]);
    assert rest[..|b|][0] == b[0] == rest[0];
    RestBegins(parts[1..], b[0]);
    assert parts[0][|parts[0]| - 1..][0] == a;
  }

  // An edge of two lists joined lies in one of them or between them.
  lemma EdgeIn(s: seq<string>, t: seq<string>, i: nat, l: char, c: char)
    requires Edge(s + t, i, l, c)
    ensures i + 1 < |s| ==> Edge(s, i, l, c)
    ensures i + 1 == |s| ==> t != [] && Ends(s[i], l) && Begins(t[0], c)
    ensures |s| <= i ==> Edge(t, i - |s|, l, c)
  {}

  lemma RestBegins(parts: seq<string>, c: char)
    requires parts != [] && c != ':' && Begins(Join(parts), c)
    ensures Begins(parts[0], c)
  {}

  // A marker without further colons is met first where it is put, if no edge is like its own.
  lemma FirstIn(s: seq<string>, x: string, a: char, b: string)
    requires NoColons(s) && ':' !in x && a != ':' && b != "" && b[0] != ':' && ':' !in b[..|b| - 1]
    requires forall i: nat :: !Edge(s + [x + [a]], i, a, b[0])
    ensures First(Join(s + [x]), KrpcRoundTrip.Marker(a, b))
  {
    hide After;
    var y := b[..|b| - 1];
    var front := s + [x + [a]];
    var parts := front + [y];
    var m := KrpcRoundTrip.Marker(a, b);
    forall i: nat | Edge(parts, i, a, b[0]) ensures !StartsWith(Join(parts[i + 1..]), b) {
      EdgeIn(front, [y], i, a, b[0]);
      assert i + 1 == |front|;
      assert parts[i + 1..] == [y];
    }
    JoinNone(parts, a, b);
    JoinLast(s, x, [a]);
    JoinSplit(front, [y]);
    assert m[..|m| - 1] == [a] + ":" + y;
    assert Join(s + [x]) + ([a] + ":" + y) == Join(s + [x]) + [a] + ":" + y;
  }

  // ----- queries -----

  // The edges of the markers that are looked for
  predicate Marked(l: char, c: char)
  {
    || (l == '9' && c == 'i') || (l == '6' && c in {'t', 'n', 'v'}) || (l == '4' && c == 'w')
    || (l == '5' && c in {'t', 'n'}) || (l == '1' && c in {'t', 'y', 'q'})
  }

  // With its length before it the field makes none of these edges.
  predicate Plain(x: string)
  {
    ':' !in x && x != "" && !Marked(KrpcRoundTrip.LastDigit(|x|), x[0])
  }

  predicate PlainQuery(q: Query)
  {
    && ':' !in q.id && Plain(q.tid) && (q.v.Some? ==> Plain(q.v.value) && |q.v.value| == 4)
    && (q.FindNode? ==> ':' !in q.target)
    && (q.GetPeers? ==> ':' !in q.info_hash)
    && (q.AnnouncePeer? ==> ':' !in q.info_hash && Plain(q.token))
  }

  // What stands between colons: up to the last argument X, then the name, the transaction
  // id and the end
  function Keyed(q: Query, a: char, key: string, parts: seq<string>): seq<string>
  {
    ["d1", "ad2", "id20"] + [q.id + [a]] + ([key] + parts)
  }

  function WantInit(x: string, w: Want): seq<string>
  {
    if w.want4 && w.want6 then [x + "4", "wantl2", "n42"]
    else if w.want4 || w.want6 then [x + "4", "wantl2"]
    else []
  }

  function WantLast(x: string, w: Want): string
  {
    if w.want6 then "n6e" else if w.want4 then "n4e" else x
  }

  function AnnounceParts(q: Query): seq<string>
    requires q.AnnouncePeer?
  {
    [q.info_hash + "4", "porti" + Digits(q.port) + "e5", "token" + Digits(|q.token|)]
  }

  function Init(q: Query): seq<string>
  {
    match q
    case Ping(_, _, _) => ["d1", "ad2", "id20"]
    case FindNode(_, target, want, _, _) => Keyed(q, '6', "target20", WantInit(target, want))
    case GetPeers(_, info_hash, want, _, _) => Keyed(q, '9', "info_hash20", WantInit(info_hash, want))
    case AnnouncePeer(_, _, _, _, _, _) =>
      Keyed(q, '9', "info_hash20", AnnounceParts(q))
  }

  function Last(q: Query): string
  {
    match q
    case Ping(id, _, _) => id
    case FindNode(_, target, want, _, _) => WantLast(target, want)
    case GetPeers(_, info_hash, want, _, _) => WantLast(info_hash, want)
    case AnnouncePeer(_, _, _, token, _, _) => token
  }

  function Count(q: Query): string
  {
    if q.Ping? then "q4" else if q.AnnouncePeer? then "q13" else "q9"
  }

  function Word(q: Query): string
  {
    match q
    case Ping(_, _, _) => "ping"
    case FindNode(_, _, _, _, _) => "find_node"
    case GetPeers(_, _, _, _, _) => "get_peers"
    case AnnouncePeer(_, _, _, _, _, _) => "announce_peer"
  }

  function EndParts(q: Query): seq<string>
  {
    if q.v.Some? then [q.tid + "1", "v4", q.v.value + "1", "y1", "qe"] else [q.tid + "1", "y1", "qe"]
  }

  function TailParts(q: Query): seq<string>
  {
    [Count(q), Word(q) + "1", "t" + Digits(|q.tid|)] + EndParts(q)
  }

  function Parts(q: Query): seq<string>
  {
    (Init(q) + [Last(q) + "e1"]) + TailParts(q)
  }

  // ----- the texts are those of their parts -----

  lemma JoinTwo(x: string, y: string)
    ensures Join([x, y]) == x + ":" + y
    ensures Join([x]) == x
  {}

  lemma JoinThree(x: string, y: string, z: string)
    ensures Join([x, y, z]) == x + ":" + y + ":" + z
  {
    assert [x, y, z][1..] == [y, z];
    JoinTwo(y, z);
  }

  lemma HeadJoined(q: Query, y: string)
    ensures Join(["d1", "ad2", "id20"] + [q.id + y]) == ToArguments(q) + y
  {
    hide Join;
    HeadText();
    JoinSplit(["d1", "ad2", "id20"], [q.id + y]);
    JoinTwo(q.id + y, "");
    hide *;
    ToArgumentsIs(q);
  }

  lemma HeadText()
    ensures Join(["d1", "ad2", "id20"]) + ":" == "d1:ad2:id20:"
  {
    JoinThree("d1", "ad2", "id20");
  }

  lemma KeyedJoined(q: Query, a: char, key: string, parts: seq<string>)
    requires parts != []
    ensures Join(Keyed(q, a, key, parts)) == ToArguments(q) + [a] + ":" + key + ":" + Join(parts)
  {
    hide Join, ToArguments;
    HeadJoined(q, [a]);
    JoinSplit(["d1", "ad2", "id20"] + [q.id + [a]], [key] + parts);
    JoinSplit([key], parts);
    JoinTwo(key, "");
  }

  lemma WantJoined(x: string, w: Want)
    ensures Join(WantInit(x, w) + [WantLast(x, w)]) == x + WantText(w)
  {
    hide Join;
    JoinTwo(x, "");
    if w.want4 && w.want6 {
      BothJoined(x);
    } else if w.want4 {
      OneJoined(x, "n4");
      assert "n4" + "e" == "n4e" && "2:" + "n4" == "2:n4" + "";
    } else if w.want6 {
      OneJoined(x, "n6");
      assert "n6" + "e" == "n6e" && "2:" + "n6" == "" + "2:n6";
    } else {
      assert [] + [x] == [x] && x + "" == x;
    }
  }

  lemma BothJoined(x: string)
    ensures Join([x + "4", "wantl2", "n42"] + ["n6e"]) == x + ("4:wantl" + ("2:n4" + "2:n6") + "e")
  {
    hide *;
    JoinSplit([x + "4", "wantl2", "n42"], ["n6e"]);
    JoinThree(x + "4", "wantl2", "n42");
    JoinTwo("n6e", "");
    WantBoth();
  }

  lemma OneJoined(x: string, n: string)
    ensures Join([x + "4", "wantl2"] + [n + "e"]) == x + ("4:wantl" + ("2:" + n) + "e")
  {
    hide *;
    JoinThree(x + "4", "wantl2", n + "e");
    assert [x + "4", "wantl2"] + [n + "e"] == [x + "4", "wantl2", n + "e"];
    assert "4" + ":" + "wantl2" + ":" == "4:wantl" + "2:";
  }

  lemma WantBoth()
    ensures "4" + (":" + "wantl2" + ":" + "n42" + ":" + "n6e") == "4:wantl" + ("2:n4" + "2:n6") + "e"
  {}

  lemma InitIs(q: Query)
    ensures q.Ping? ==> Init(q) + [Last(q)] == ["d1", "ad2", "id20"] + [q.id + ""]
    ensures q.FindNode? ==> Last(q) == WantLast(q.target, q.want)
    ensures q.GetPeers? ==> Last(q) == WantLast(q.info_hash, q.want)
    ensures q.AnnouncePeer? ==> Last(q) == q.token
  {
    hide WantInit, WantLast, AnnounceParts;
    assert q.id + "" == q.id;
  }

  lemma Keys()
    ensures ['6'] + ":" + "target20" + ":" == "6:target20:"
    ensures ['9'] + ":" + "info_hash20" + ":" == "9:info_hash20:"
  {}

  lemma FindNodeBody(q: Query)
    requires q.FindNode?
    ensures Join(Init(q) + [Last(q)]) == "d1:ad2:id20:" + q.id + Arguments(q)
  {
    hide *;
    ToArgumentsIs(q);
    InitIs(q);
    InitKeyed(q, Last(q));
    Keys();
    ArgumentsWith(q);
    WantJoined(q.target, q.want);
    KeyedJoined(q, '6', "target20", WantInit(q.target, q.want) + [Last(q)]);
    MarkerJoined(ToArguments(q), '6', "target20", "6:target20:", q.target + WantText(q.want));
  }

  lemma GetPeersBody(q: Query)
    requires q.GetPeers?
    ensures Join(Init(q) + [Last(q)]) == "d1:ad2:id20:" + q.id + Arguments(q)
  {
    hide *;
    ToArgumentsIs(q);
    InitIs(q);
    InitKeyed(q, Last(q));
    Keys();
    ArgumentsWith(q);
    WantJoined(q.info_hash, q.want);
    KeyedJoined(q, '9', "info_hash20", WantInit(q.info_hash, q.want) + [Last(q)]);
    MarkerJoined(ToArguments(q), '9', "info_hash20", "9:info_hash20:", q.info_hash + WantText(q.want));
  }

  lemma AnnounceBody(q: Query)
    requires q.AnnouncePeer?
    ensures Join(Init(q) + [Last(q)]) == "d1:ad2:id20:" + q.id + Arguments(q)
  {
    hide *;
    ToArgumentsIs(q);
    InitIs(q);
    InitKeyed(q, Last(q));
    Keys();
    ArgumentsWith(q);
    AnnounceJoined(q);
    var rest := q.info_hash + "4:porti" + Digits(q.port) + "e5:token" + Field(q.token);
    KeyedJoined(q, '9', "info_hash20", AnnounceParts(q) + [Last(q)]);
    MarkerJoined(ToArguments(q), '9', "info_hash20", "9:info_hash20:", rest);
    assert Arguments(q) == "9:info_hash20:" + rest;
  }

  lemma MarkerJoined(head: string, a: char, key: string, marker: string, rest: string)
    requires [a] + ":" + key + ":" == marker
    ensures head + [a] + ":" + key + ":" + rest == head + (marker + rest)
  {
    assert head + [a] + ":" + key + ":" == head + ([a] + ":" + key + ":");
  }

  lemma BodyJoined(q: Query)
    ensures Join(Init(q) + [Last(q)]) == "d1:ad2:id20:" + q.id + Arguments(q)
  {
    hide *;
    match q {
      case Ping(_, _, _) =>
        ToArgumentsIs(q);
        InitIs(q);
        HeadJoined(q, "");
        NoArguments(q);
      case FindNode(_, _, _, _, _) => FindNodeBody(q);
      case GetPeers(_, _, _, _, _) => GetPeersBody(q);
      case AnnouncePeer(_, _, _, _, _, _) => AnnounceBody(q);
    }
  }

  lemma AnnounceJoined(q: Query)
    requires q.AnnouncePeer?
    ensures Join(AnnounceParts(q) + [q.token])
         == q.info_hash + "4:porti" + Digits(q.port) + "e5:token" + Field(q.token)
  {
    hide *;
    AnnouncePartsAre(q);
    var x, y, z := q.info_hash + "4", "porti" + Digits(q.port) + "e5", "token" + Digits(|q.token|);
    JoinThree(x, y, z);
    JoinTwo(q.token, "");
    JoinSplit([x, y, z], [q.token]);
    FieldIs(q.token);
    AnnounceLiterals();
  }

  lemma AnnouncePartsAre(q: Query)
    requires q.AnnouncePeer?
    ensures AnnounceParts(q)
         == [q.info_hash + "4", "porti" + Digits(q.port) + "e5", "token" + Digits(|q.token|)]
  {
    hide Digits;
  }

  lemma AnnounceLiterals()
    ensures "4" + ":" + "porti" == "4:porti" && "e5" + ":" + "token" == "e5:token"
  {}

  lemma PingName()
    ensures "e1" + ":" + ("q4" + ":" + "ping") == "e" + "1:q4:ping"
  {}

  lemma FindNodeName()
    ensures "e1" + ":" + ("q9" + ":" + "find_node") == "e" + "1:q9:find_node"
  {}

  lemma GetPeersName()
    ensures "e1" + ":" + ("q9" + ":" + "get_peers") == "e" + "1:q9:get_peers"
  {}

  lemma AnnouncePeerName()
    ensures "e1" + ":" + ("q13" + ":" + "announce_peer") == "e" + "1:q13:announce_peer"
  {}

  lemma NameJoined(q: Query)
    ensures "e1" + ":" + (Count(q) + ":" + Word(q)) == "e" + Name(q)
  {
    PingName();
    FindNodeName();
    GetPeersName();
    AnnouncePeerName();
  }

  lemma ToTidJoined(q: Query)
    ensures Join(((Init(q) + [Last(q) + "e1"]) + [Count(q)]) + [Word(q)]) == ToTid(q)
  {
    hide *;
    ToTidIs(q);
    BodyJoined(q);
    NameJoined(q);
    JoinLast(Init(q), Last(q), "e1");
    JoinTwo(Count(q), Word(q));
    var front := Init(q) + [Last(q) + "e1"];
    JoinSplit(front, [Count(q), Word(q)]);
    assert (front + [Count(q)]) + [Word(q)] == front + [Count(q), Word(q)];
  }

  lemma EndPartsAre(q: Query)
    ensures q.v.Some? ==> EndParts(q) == [q.tid + "1", "v4", q.v.value + "1"] + ["y1", "qe"]
    ensures q.v.None? ==> EndParts(q) == [q.tid + "1", "y1", "qe"]
    ensures QueryEnd(q) == (if q.v.Some? then "1:v4:" + q.v.value else "") + "1:y1:qe"
  {}

  lemma EndLiterals()
    ensures "1" + (":" + "y1" + ":" + "qe") == "1:y1:qe"
    ensures "1" + (":" + "v4" + ":") == "1:v4:"
  {}

  lemma EndJoined(q: Query)
    ensures Join(EndParts(q)) == q.tid + QueryEnd(q)
  {
    hide *;
    EndPartsAre(q);
    EndLiterals();
    if q.v.Some? {
      VersionJoined(q.tid, q.v.value);
    } else {
      JoinThree(q.tid + "1", "y1", "qe");
      assert Join(EndParts(q)) == q.tid + ("1" + (":" + "y1" + ":" + "qe"));
    }
  }

  lemma VersionJoined(tid: string, v: string)
    ensures Join([tid + "1", "v4", v + "1"] + ["y1", "qe"]) == tid + (("1:v4:" + v) + "1:y1:qe")
  {
    hide *;
    EndLiterals();
    JoinSplit([tid + "1", "v4", v + "1"], ["y1", "qe"]);
    JoinThree(tid + "1", "v4", v + "1");
    JoinTwo("y1", "qe");
    var x, y := "1" + (":" + "v4" + ":"), "1" + (":" + "y1" + ":" + "qe");
    assert (tid + "1") + ":" + "v4" + ":" + (v + "1") == tid + x + v + "1";
    assert (tid + x + v + "1") + ":" + ("y1" + ":" + "qe") == tid + x + v + y;
  }

  lemma TidJoined(q: Query)
    ensures "1" + ":" + (("t" + Digits(|q.tid|)) + ":" + (q.tid + QueryEnd(q)))
         == "1:t" + (Field(q.tid) + QueryEnd(q))
  {
    hide *;
    FieldIs(q.tid);
    assert "1" + ":" + "t" == "1:t";
  }

  lemma PrintJoined(q: Query)
    ensures Join(Parts(q)) == PrintQuery(q)
  {
    hide *;
    PartsAre(q);
    PrintQueryIs(q);
    ToTidJoined(q);
    EndJoined(q);
    TidJoined(q);
    var front := (Init(q) + [Last(q) + "e1"]) + [Count(q)];
    JoinLast(front, Word(q), "1");
    JoinSplit(front + [Word(q) + "1"], ["t" + Digits(|q.tid|)] + EndParts(q));
    JoinSplit(["t" + Digits(|q.tid|)], EndParts(q));
    JoinTwo("t" + Digits(|q.tid|), "");
    var rest := ("t" + Digits(|q.tid|)) + ":" + (q.tid + QueryEnd(q));
    assert (ToTid(q) + "1") + ":" + rest == ToTid(q) + ("1" + ":" + rest);
    assert ToTid(q) + "1:t" + (Field(q.tid) + QueryEnd(q)) == ToTid(q) + ("1:t" + (Field(q.tid) + QueryEnd(q)));
  }

  lemma PartsAre(q: Query)
    ensures Parts(q) == ((Init(q) + [Last(q) + "e1"]) + [Count(q)]) + [Word(q) + "1"]
      + (["t" + Digits(|q.tid|)] + EndParts(q))
    ensures EndParts(q) != []
  {
    hide Init, Last, Count, Word, Digits;
  }

  // ----- where the edges are -----

  lemma NoDigitColons(n: nat)
    ensures ':' !in Digits(n)
  {}

  lemma NoWantColons(x: string, w: Want)
    requires ':' !in x
    ensures NoColons(WantInit(x, w)) && ':' !in WantLast(x, w)
  {}

  lemma InitNoColons(q: Query)
    requires PlainQuery(q)
    ensures NoColons(Init(q) + [Last(q) + "e1"])
  {
    hide Digits;
    match q {
      case Ping(_, _, _) =>
      case FindNode(_, target, want, _, _) => NoWantColons(target, want);
      case GetPeers(_, info_hash, want, _, _) => NoWantColons(info_hash, want);
      case AnnouncePeer(_, _, port, token, _, _) =>
        NoDigitColons(port);
        NoDigitColons(|token|);
    }
  }

  lemma TailNoColons(q: Query)
    requires PlainQuery(q)
    ensures NoColons(TailParts(q))
  {
    hide Digits;
    NoDigitColons(|q.tid|);
  }

  lemma LengthEnds(x: string, n: nat)
    ensures Ends(x + Digits(n), KrpcRoundTrip.LastDigit(n))
  {}

  lemma KeyedEdge(q: Query, a: char, key: string, parts: seq<string>, i: nat, l: char, c: char)
    requires Edge(Keyed(q, a, key, parts), i, l, c) && Marked(l, c) && Ends(key, '0')
    ensures (l == a && c == key[0]) || (i >= 5 && Edge(parts, i - 5, l, c))
  {}

  lemma WantEdge(x: string, w: Want, i: nat, l: char, c: char)
    requires Edge(WantInit(x, w) + [WantLast(x, w) + "e1"], i, l, c) && Marked(l, c)
    ensures l == '4' && (w.want4 || w.want6)
  {}

  lemma AnnounceEdge(q: Query, i: nat, l: char, c: char)
    requires PlainQuery(q) && q.AnnouncePeer? && Marked(l, c)
    requires Edge(AnnounceParts(q) + [q.token + "e1"], i, l, c)
    ensures l == '5' && c == 't'
  {
    hide Digits, KrpcRoundTrip.LastDigit;
    LengthEnds("token", |q.token|);
  }

  lemma PingEdge(q: Query, i: nat, l: char, c: char)
    requires q.Ping? && Edge(Init(q) + [Last(q) + "e1"], i, l, c)
    ensures !Marked(l, c)
  {}

  // In the arguments only the markers printed there
  lemma InitEdge(q: Query, i: nat, l: char, c: char)
    requires PlainQuery(q) && Edge(Init(q) + [Last(q) + "e1"], i, l, c) && Marked(l, c)
    ensures || (l == '9' && HashOf(q).Some?) || (l == '6' && c == 't' && q.FindNode?)
            || (l == '4' && WantIn(q).Some?) || (l == '5' && c == 't' && q.AnnouncePeer?)
  {
    KeyEnds();
    InitKeyed(q, Last(q) + "e1");
    hide Edge, Keyed, WantInit, WantLast, AnnounceParts, PlainQuery, Marked, Ends, Init;
    match q {
      case Ping(_, _, _) => PingEdge(q, i, l, c);
      case FindNode(_, target, want, _, _) =>
        KeyedEdge(q, '6', "target20", WantInit(target, want) + [WantLast(target, want) + "e1"], i, l, c);
        if l != '6' || c != 't' {
          WantEdge(target, want, i - 5, l, c);
        }
      case GetPeers(_, info_hash, want, _, _) =>
        KeyedEdge(q, '9', "info_hash20", WantInit(info_hash, want) + [WantLast(info_hash, want) + "e1"], i, l, c);
        if l != '9' {
          WantEdge(info_hash, want, i - 5, l, c);
        }
      case AnnouncePeer(_, _, _, token, _, _) =>
        KeyedEdge(q, '9', "info_hash20", AnnounceParts(q) + [token + "e1"], i, l, c);
        if l != '9' {
          AnnounceEdge(q, i - 5, l, c);
        }
    }
  }

  lemma InitKeyed(q: Query, x: string)
    ensures q.FindNode? ==> Init(q) + [x] == Keyed(q, '6', "target20", WantInit(q.target, q.want) + [x])
    ensures q.GetPeers? ==> Init(q) + [x] == Keyed(q, '9', "info_hash20", WantInit(q.info_hash, q.want) + [x])
    ensures q.AnnouncePeer? ==> Init(q) + [x] == Keyed(q, '9', "info_hash20", AnnounceParts(q) + [x])
  {
    hide WantInit, AnnounceParts;
  }

  lemma KeyEnds()
    ensures Ends("target20", '0') && Ends("info_hash20", '0') && "target20"[0] == 't'
  {}

  lemma EndEdge(q: Query, i: nat, l: char, c: char)
    requires PlainQuery(q) && Edge(EndParts(q), i, l, c) && Marked(l, c)
    ensures l == '1' && c != 't'
    ensures c == 'y' ==> i + 3 == |EndParts(q)|
    ensures c == 'q' ==> i + 2 == |EndParts(q)|
  {
    if q.v.Some? {
      assert EndParts(q) == [q.tid + "1", "v4", q.v.value + "1", "y1", "qe"];
    } else {
      assert EndParts(q) == [q.tid + "1", "y1", "qe"];
    }
  }

  lemma NameEdge(q: Query, i: nat, l: char, c: char)
    requires Edge([Count(q), Word(q) + "1", "t" + Digits(|q.tid|)], i, l, c) && Marked(l, c)
    ensures i == 1 && l == '1' && c == 't'
  {
    hide Digits;
  }

  lemma TidEdge(q: Query, l: char, c: char)
    requires PlainQuery(q) && Ends("t" + Digits(|q.tid|), l) && Begins(EndParts(q)[0], c)
    ensures !Marked(l, c)
  {
    hide Digits, KrpcRoundTrip.LastDigit;
    LengthEnds("t", |q.tid|);
  }

  // Then only those of the transaction id and of the end
  lemma TailEdge(q: Query, i: nat, l: char, c: char)
    requires PlainQuery(q) && Edge(TailParts(q), i, l, c) && Marked(l, c)
    ensures l == '1'
    ensures c == 't' ==> i == 1
    ensures c == 'y' ==> i + 3 == |TailParts(q)|
    ensures c == 'q' ==> i + 2 == |TailParts(q)|
  {
    var s, t := [Count(q), Word(q) + "1", "t" + Digits(|q.tid|)], EndParts(q);
    assert TailParts(q) == s + t;
    hide Digits, TailParts, PlainQuery, EndParts, Marked, Count, Word;
    EdgeIn(s, t, i, l, c);
    if i < 2 {
      NameEdge(q, i, l, c);
    } else if i == 2 {
      TidEdge(q, l, c);
    } else {
      EndEdge(q, i - 3, l, c);
    }
  }

  lemma PartsEdge(q: Query, i: nat, l: char, c: char)
    requires PlainQuery(q) && Edge(Parts(q), i, l, c) && Marked(l, c)
    ensures || (l == '9' && HashOf(q).Some?) || (l == '6' && c == 't' && q.FindNode?)
            || (l == '4' && WantIn(q).Some?) || (l == '5' && c == 't' && q.AnnouncePeer?) || l == '1'
    ensures l == '1' && c == 'y' ==> i + 3 == |Parts(q)|
    ensures l == '1' && c == 'q' ==> i == |Init(q)| || i + 2 == |Parts(q)|
  {
    PartsIs(q);
    FirstOfTail(q);
    hide *;
    var s, t := Init(q) + [Last(q) + "e1"], TailParts(q);
    EdgeIn(s, t, i, l, c);
    if i + 1 < |s| {
      InitEdge(q, i, l, c);
    } else if i + 1 == |s| {
      JunctionEdge(q, l, c);
    } else {
      TailEdge(q, i - |s|, l, c);
    }
  }

  lemma PartsIs(q: Query)
    ensures Parts(q) == (Init(q) + [Last(q) + "e1"]) + TailParts(q)
  {}

  lemma FirstOfTail(q: Query)
    ensures TailParts(q) != [] && TailParts(q)[0] == Count(q)
  {}

  lemma JunctionEdge(q: Query, l: char, c: char)
    requires Ends(Last(q) + "e1", l) && Begins(Count(q), c)
    ensures l == '1' && c == 'q'
  {}

  lemma AllNoColons(q: Query)
    requires PlainQuery(q)
    ensures NoColons(Parts(q)) && Parts(q) != []
  {
    PartsIs(q);
    InitNoColons(q);
    TailNoColons(q);
    hide Init, Last, TailParts, Parts;
  }

  // ----- no marker is met early -----

  // The markers that the query does not have
  lemma AbsentIf(q: Query, a: char, b: string)
    requires PlainQuery(q) && b != "" && Marked(a, b[0]) && a != '1'
    requires a == '9' ==> HashOf(q).None?
    requires a == '6' ==> b[0] != 't' || !q.FindNode?
    requires a == '4' ==> WantIn(q).None?
    requires a == '5' ==> b[0] != 't' || !q.AnnouncePeer?
    ensures Absent(q, KrpcRoundTrip.Marker(a, b))
  {
    hide Parts, Join, PlainQuery, KrpcRoundTrip.Marker, PrintQuery, After, HashOf, WantIn;
    AllNoColons(q);
    PrintJoined(q);
    forall i: nat | Edge(Parts(q), i, a, b[0]) ensures false {
      PartsEdge(q, i, a, b[0]);
    }
    JoinNone(Parts(q), a, b);
  }

  lemma LastParts(q: Query)
    ensures |Parts(q)| > 3 && Parts(q)[|Parts(q)| - 2..] == ["y1", "qe"]
  {
    hide Init, Last;
  }

  // Nothing but "y1:qe" begins with "y1", so the query is no reply and no error.
  lemma NoReplyOrError(q: Query, b: string)
    requires PlainQuery(q) && b in {"y1:r", "y1:e"}
    ensures Absent(q, KrpcRoundTrip.Marker('1', b))
  {
    hide Parts, Join, PlainQuery, KrpcRoundTrip.Marker, PrintQuery, After, HashOf, WantIn;
    AllNoColons(q);
    PrintJoined(q);
    LastParts(q);
    JoinTwo("y1", "qe");
    forall i: nat | Edge(Parts(q), i, '1', b[0]) ensures !StartsWith(Join(Parts(q)[i + 1..]), b) {
      PartsEdge(q, i, '1', 'y');
      assert Join(Parts(q)[i + 1..])[3] == 'q' != b[3];
    }
    JoinNone(Parts(q), '1', b);
  }

  lemma TailPartsAre(q: Query)
    ensures TailParts(q) == [Count(q), Word(q) + "1"] + (["t" + Digits(|q.tid|)] + EndParts(q))
  {
    hide Count, Word, Digits, EndParts;
  }

  lemma NameParts(q: Query)
    ensures |Init(q)| + 3 < |Parts(q)|
    ensures Parts(q)[|Init(q)| + 1..] == TailParts(q)
  {
    hide Init, Last, Digits, Count, Word;
  }

  lemma NameBegins(q: Query)
    ensures exists rest :: Join(TailParts(q)) == Count(q) + ":" + Word(q) + rest
  {
    hide *;
    var t := ["t" + Digits(|q.tid|)] + EndParts(q);
    TailPartsAre(q);
    JoinTwo(Count(q), Word(q) + "1");
    JoinSplit([Count(q), Word(q) + "1"], t);
    assert Join(TailParts(q)) == Count(q) + ":" + Word(q) + ("1" + ":" + Join(t));
  }

  // The name is that of no other query.
  lemma NoOtherName(q: Query, b: string)
    requires PlainQuery(q) && b in {"q4:ping", "q9:find_node", "q9:get_peers"}
    requires !StartsWith(Count(q) + ":" + Word(q), b) && |b| <= |Count(q) + ":" + Word(q)|
    ensures Absent(q, KrpcRoundTrip.Marker('1', b))
  {
    hide Parts, TailParts, Join, PlainQuery, KrpcRoundTrip.Marker, PrintQuery, After, HashOf, WantIn, Count, Word, Init;
    AllNoColons(q);
    PrintJoined(q);
    LastParts(q);
    NameParts(q);
    NameBegins(q);
    forall i: nat | Edge(Parts(q), i, '1', b[0]) ensures !StartsWith(Join(Parts(q)[i + 1..]), b) {
      PartsEdge(q, i, '1', 'q');
      if i == |Init(q)| {
        var x := Count(q) + ":" + Word(q);
        var rest :| Join(TailParts(q)) == x + rest;
        assert (x + rest)[..|b|] == x[..|b|];
      } else {
        assert Parts(q)[i + 1..] == ["qe"];
        JoinTwo("qe", "");
      }
    }
    JoinNone(Parts(q), '1', b);
  }

  lemma TidFirst(q: Query)
    requires PlainQuery(q)
    ensures First(ToTid(q), KrpcRoundTrip.Marker('1', "t"))
  {
    hide Join, PlainQuery, KrpcRoundTrip.Marker, ToTid, First, HashOf, WantIn, Count, Word, Init, Last;
    AllNoColons(q);
    ToTidJoined(q);
    var s, t := Init(q) + [Last(q) + "e1"], [Count(q), Word(q) + "1"];
    PlainNames(q);
    InitNoColons(q);
    assert forall i: nat :: !Edge((s + [Count(q)]) + [Word(q) + ['1']], i, '1', 't') by {
      assert (s + [Count(q)]) + [Word(q) + ['1']] == s + t;
      forall i: nat | Edge(s + t, i, '1', 't') ensures false {
        EdgeIn(s, t, i, '1', 't');
        if i + 1 < |s| {
          InitEdge(q, i, '1', 't');
        } else if i + 1 == |s| {
          JunctionEdge(q, '1', 't');
        } else {
          NoNameEdge(q);
        }
      }
    }
    FirstIn(s + [Count(q)], Word(q), '1', "t");
  }

  lemma PlainNames(q: Query)
    ensures ':' !in Count(q) && ':' !in Word(q)
  {}

  lemma NoNameEdge(q: Query)
    ensures !Edge([Count(q), Word(q) + "1"], 0, '1', 't')
  {}

  lemma HashFirst(q: Query)
    requires PlainQuery(q)
    ensures HashOf(q).Some? ==> First(ToArguments(q), KrpcRoundTrip.Marker('9', "info_hash20:"))
    ensures q.FindNode? ==> First(ToArguments(q), KrpcRoundTrip.Marker('6', "target20:"))
  {
    hide Join, First, KrpcRoundTrip.Marker;
    HeadJoined(q, "");
    assert q.id + "" == q.id && ToArguments(q) + "" == ToArguments(q);
    FirstIn(["d1", "ad2", "id20"], q.id, '9', "info_hash20:");
    FirstIn(["d1", "ad2", "id20"], q.id, '6', "target20:");
  }

  lemma WantFirst(q: Query)
    requires PlainQuery(q) && WantIn(q).Some?
    ensures First(ToWant(q), KrpcRoundTrip.Marker('4', "wantl"))
  {
    hide Join, First, KrpcRoundTrip.Marker, ToArguments, ToWant;
    HasWant(q);
    var head := ToArguments(q);
    if q.FindNode? {
      KeyedFirst(q, '6', "target20", q.target);
      assert head + ['6'] + ":" + "target20" + ":" + q.target == head + ("6:target20:" + q.target) by {
        hide *;
        Keys();
      }
    } else {
      KeyedFirst(q, '9', "info_hash20", q.info_hash);
      assert head + ['9'] + ":" + "info_hash20" + ":" + q.info_hash == head + ("9:info_hash20:" + q.info_hash) by {
        hide *;
        Keys();
      }
    }
  }

  lemma KeyedFirst(q: Query, a: char, key: string, x: string)
    requires ':' !in q.id && ':' !in key && ':' !in x && a in {'6', '9'} && EndsWith(key, "20")
    ensures First(ToArguments(q) + [a] + ":" + key + ":" + x, KrpcRoundTrip.Marker('4', "wantl"))
  {
    hide Join, First, KrpcRoundTrip.Marker, ToArguments;
    var s := ["d1", "ad2", "id20", q.id + [a], key];
    KeyedJoined(q, a, key, [x]);
    JoinTwo(x, "");
    assert Keyed(q, a, key, [x]) == s + [x];
    assert key[|key| - 1] == "20"[1];
    FirstIn(s, x, '4', "wantl");
  }

  lemma TokenFirst(q: Query)
    requires PlainQuery(q) && q.AnnouncePeer?
    ensures First(ToToken(q), KrpcRoundTrip.Marker('5', "token"))
  {
    hide Join, First, KrpcRoundTrip.Marker, ToArguments, ToToken, Digits;
    ToPortIs(q);
    NoDigitColons(q.port);
    var x, y := q.info_hash + "4", "porti" + Digits(q.port) + "e";
    var s := ["d1", "ad2", "id20", q.id + "9", "info_hash20", x];
    KeyedJoined(q, '9', "info_hash20", [x, y]);
    JoinTwo(x, y);
    assert Keyed(q, '9', "info_hash20", [x, y]) == s + [y];
    FirstIn(s, y, '5', "token");
    Keys();
    AnnounceLiterals();
    assert Join(s + [y]) == ToToken(q) by {
      hide *;
    }
  }

  // ----- the round trip -----

  lemma Markers()
    ensures KrpcRoundTrip.Marker('9', "info_hash20:") == "9:info_hash20:"
    ensures KrpcRoundTrip.Marker('6', "target20:") == "6:target20:"
    ensures KrpcRoundTrip.Marker('4', "wantl") == "4:wantl"
    ensures KrpcRoundTrip.Marker('5', "token") == "5:token"
    ensures KrpcRoundTrip.Marker('5', "nodes") == "5:nodes"
    ensures KrpcRoundTrip.Marker('6', "nodes6") == "6:nodes6"
    ensures KrpcRoundTrip.Marker('6', "valuesl") == "6:valuesl"
    ensures KrpcRoundTrip.Marker('1', "t") == "1:t"
  {}

  lemma KindMarkers()
    ensures KrpcRoundTrip.Marker('1', "y1:r") == "1:y1:r"
    ensures KrpcRoundTrip.Marker('1', "y1:e") == "1:y1:e"
    ensures KrpcRoundTrip.Marker('1', "q4:ping") == "1:q4:ping"
    ensures KrpcRoundTrip.Marker('1', "q9:find_node") == "1:q9:find_node"
    ensures KrpcRoundTrip.Marker('1', "q9:get_peers") == "1:q9:get_peers"
  {}

  lemma NameDiffers(q: Query)
    ensures !q.Ping? ==> 7 <= |Count(q) + ":" + Word(q)| && !StartsWith(Count(q) + ":" + Word(q), "q4:ping")
    ensures !q.Ping? && !q.FindNode? ==>
      12 <= |Count(q) + ":" + Word(q)| && !StartsWith(Count(q) + ":" + Word(q), "q9:find_node")
    ensures q.AnnouncePeer? ==>
      12 <= |Count(q) + ":" + Word(q)| && !StartsWith(Count(q) + ":" + Word(q), "q9:get_peers")
  {
    var x := Count(q) + ":" + Word(q);
    if q.GetPeers? {
      DiffersAt(x, "q9:find_node", 3);
    } else if q.AnnouncePeer? {
      DiffersAt(x, "q9:find_node", 1);
      DiffersAt(x, "q9:get_peers", 1);
    }
    if !q.Ping? {
      DiffersAt(x, "q4:ping", 1);
    }
  }

  lemma DiffersAt(x: string, b: string, k: nat)
    requires k < |b| && k < |x| && x[k] != b[k]
    ensures !StartsWith(x, b)
  {
    if |b| <= |x| {
      assert x[..|b|][k] == x[k];
    }
  }

  lemma PlainKind(q: Query)
    requires PlainQuery(q)
    ensures NoOtherKind(q)
  {
    hide PlainQuery, Absent, Parts, KrpcRoundTrip.Marker;
    KindMarkers();
    NoReplyOrError(q, "y1:r");
    NoReplyOrError(q, "y1:e");
    NameDiffers(q);
    hide Count, Word;
    if !q.Ping? {
      NoOtherName(q, "q4:ping");
      if !q.FindNode? {
        NoOtherName(q, "q9:find_node");
      }
      if q.AnnouncePeer? {
        NoOtherName(q, "q9:get_peers");
      }
    }
  }

  lemma PlainIsUnmarked(q: Query)
    requires PlainQuery(q)
    ensures Unmarked(q)
  {
    hide PlainQuery, Absent, Parts, First, NoOtherKind, KrpcRoundTrip.Marker, ToTid, ToToken, ToWant, ToArguments;
    Markers();
    PlainKind(q);
    TidFirst(q);
    HashFirst(q);
    if HashOf(q).None? { AbsentIf(q, '9', "info_hash20:"); }
    if TargetOf(q).None? { AbsentIf(q, '6', "target20:"); }
    if WantIn(q).Some? { WantFirst(q); } else { AbsentIf(q, '4', "wantl"); }
    if q.AnnouncePeer? {
      TokenFirst(q);
    } else {
      AbsentIf(q, '5', "token");
    }
    AbsentIf(q, '5', "nodes");
    AbsentIf(q, '6', "nodes6");
    AbsentIf(q, '6', "valuesl");
  }

  // A query without colons is read as it was printed.
  lemma PlainRoundTrip(q: Query)
    requires QuerySizes(q) && PlainQuery(q)
    ensures ParseAll(PrintQuery(q)) == Some(Expected(q).(port := PortOf(PrintQuery(q))))
    ensures PortUnmarked(q) ==> ParseAll(PrintQuery(q)) == Some(Expected(q))
  {
    hide *;
    PlainIsUnmarked(q);
    QueryRoundTrip(q);
  }
}
