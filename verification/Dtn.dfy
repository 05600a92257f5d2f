/** The reply of the DTN extension: convergence layers, endpoint id, groups and neighbours,
    as send_dtninfo prints it and parse_dtn_message reads it. */
module Dtn {
  import opened Seqs
  import opened Text

  datatype Arg = Arg(key: string, value: string)
  datatype Layer = Layer(clname: string, args: seq<Arg>)
  datatype Info = Info(layers: seq<Layer>, eid: string, groups: seq<string>, neighbours: seq<string>, tid: string)

  // The return value of a parser of a list: -1, or a length, with the list
  datatype Parsed<T> = Bad | Parsed(items: seq<T>, used: nat)

  const BUFFER_SIZE: nat := 4096
  const TID_LEN: int := 16

  // ----- printing -----

  function PrintArgs(args: seq<Arg>): string
  {
    if args == [] then "" else args[0].key + "=" + args[0].value + ";" + PrintArgs(args[1..])
  }

  function LayerText(l: Layer): string
  {
    "name=" + l.clname + ";" + PrintArgs(l.args)
  }

  // The lengths that parse_dtn_convergence_layer adds up
  function TextLengths(ls: seq<Layer>): nat
  {
    if ls == [] then 0 else |LayerText(ls[0])| + TextLengths(ls[1..])
  }

  function PrintLayers(ls: seq<Layer>): (r: string)
    ensures |r| >= TextLengths(ls)
  {
    if ls == [] then "" else Field(LayerText(ls[0])) + PrintLayers(ls[1..])
  }

  function PrintTid(tid: string, end: string): string
  {
    "ee1:t" + (Field(tid) + end)
  }

  function PrintNeighbours(m: Info, end: string): string
  {
    "e2:nbl" + (PrintFields(m.neighbours) + PrintTid(m.tid, end))
  }

  function PrintGroups(m: Info, end: string): string
  {
    "2:grl" + (PrintFields(m.groups) + PrintNeighbours(m, end))
  }

  function PrintEid(m: Info, end: string): string
  {
    "e3:eid" + (Field(m.eid) + PrintGroups(m, end))
  }

  // The message, and what it looks like with another end than the last seven octets
  function PrintTo(m: Info, end: string): string
  {
    "d1:rd2:cll" + (PrintLayers(m.layers) + PrintEid(m, end))
  }

  function PrintInfo(m: Info): string
  {
    PrintTo(m, "1:y1:re")
  }

  // send_dtninfo
  method SendDtnInfo(m: Info) returns (sent: Option<string>)
    ensures sent == Transmitted(4096, PrintInfo(m))
  {
    hide *;
    var p := new Packet(4096);
    p.Print("d1:rd2:cll");
    PutLayers(p, m.layers);
    p.Print("e3:eid" + Digits(|m.eid|) + ":");
    p.Copy(m.eid);
    PutLists(p, m);
    p.Print("ee1:t" + Digits(|m.tid|) + ":");
    p.Copy(m.tid);
    p.Print("1:y1:re");
    PrintInfoIs(m);
    sent := p.Send();
  }

  // Groups and neighbours
  method PutLists(p: Packet, m: Info)
    requires p.Valid()
    modifies p, p.buf
    ensures p.Valid()
    ensures p.text == old(p.text) + "2:grl" + PrintFields(m.groups) + "e2:nbl" + PrintFields(m.neighbours)
  {
    hide *;
    p.Print("2:grl");
    PutEids(p, m.groups);
    p.Print("e2:nbl");
    PutEids(p, m.neighbours);
  }

  lemma PrintInfoIs(m: Info)
    ensures PrintInfo(m) == "" + "d1:rd2:cll" + PrintLayers(m.layers)
      + ("e3:eid" + Digits(|m.eid|) + ":") + m.eid + "2:grl" + PrintFields(m.groups)
      + "e2:nbl" + PrintFields(m.neighbours) + ("ee1:t" + Digits(|m.tid|) + ":") + m.tid + "1:y1:re"
  {
    hide *;
    PrintInfoNested(m);
  }

  lemma PrintInfoNested(m: Info)
    ensures PrintInfo(m) == "d1:rd2:cll" + (PrintLayers(m.layers)
      + ("e3:eid" + ((Digits(|m.eid|) + ":" + m.eid) + ("2:grl" + (PrintFields(m.groups)
      + ("e2:nbl" + (PrintFields(m.neighbours) + ("ee1:t" + ((Digits(|m.tid|) + ":" + m.tid) + "1:y1:re")))))))))
  {
    hide Digits, PrintLayers, PrintFields, TextLengths;
  }

  method PutEids(p: Packet, eids: seq<string>)
    requires p.Valid()
    modifies p, p.buf
    ensures p.Valid() && p.text == old(p.text) + PrintFields(eids)
  {
    hide Packet.Valid, Digits;
    var rest := eids;
    while rest != []
      invariant p.Valid() && p.text + PrintFields(rest) == old(p.text) + PrintFields(eids)
    {
      ghost var before := p.text;
      p.Print(Digits(|rest[0]|) + ":");
      p.Copy(rest[0]);
      assert p.text == before + Field(rest[0]);
      rest := rest[1..];
    }
  }

  method PutLayers(p: Packet, layers: seq<Layer>)
    requires p.Valid()
    modifies p, p.buf
    ensures p.Valid() && p.text == old(p.text) + PrintLayers(layers)
  {
    hide Packet.Valid, Digits, Field;
    var rest := layers;
    while rest != []
      invariant p.Valid() && p.text + PrintLayers(rest) == old(p.text) + PrintLayers(layers)
    {
      ghost var before := p.text;
      PutLayer(p, rest[0]);
      assert p.text == before + Field(LayerText(rest[0]));
      rest := rest[1..];
    }
  }

  method PutLayer(p: Packet, l: Layer)
    requires p.Valid()
    modifies p, p.buf
    ensures p.Valid() && p.text == old(p.text) + Field(LayerText(l))
  {
    hide Packet.Valid, Digits, PrintArgs;
    var n := ArgsLength(l.args);
    p.Print(Digits(6 + |l.clname| + n) + ":name=");
    p.Copy(l.clname);
    p.Copy(";");
    PutArgs(p, l.args);
    assert 6 + |l.clname| + n == |LayerText(l)|;
    assert p.text == old(p.text) + (Digits(|LayerText(l)|) + ":name=") + l.clname + ";" + PrintArgs(l.args);
    assert p.text == old(p.text) + Field(LayerText(l));
  }

  // The first loop over a layer's arguments
  method ArgsLength(args: seq<Arg>) returns (n: nat)
    ensures n == |PrintArgs(args)|
  {
    var rest := args;
    n := 0;
    while rest != []
      invariant n + |PrintArgs(rest)| == |PrintArgs(args)|
    {
      n := n + |rest[0].key| + 1 + |rest[0].value| + 1;
      rest := rest[1..];
    }
  }

  // The second loop over a layer's arguments
  method PutArgs(p: Packet, args: seq<Arg>)
    requires p.Valid()
    modifies p, p.buf
    ensures p.Valid() && p.text == old(p.text) + PrintArgs(args)
  {
    hide Packet.Valid;
    var rest := args;
    while rest != []
      invariant p.Valid() && p.text + PrintArgs(rest) == old(p.text) + PrintArgs(args)
    {
      ghost var before := p.text;
      p.Copy(rest[0].key);
      p.Copy("=");
      p.Copy(rest[0].value);
      p.Copy(";");
      assert p.text == before + (rest[0].key + "=" + rest[0].value + ";");
      rest := rest[1..];
    }
  }

  // ----- lists of endpoint ids -----

  // parse_dtn_eid_list
  function EidList(s: string): (r: Parsed<string>)
    ensures r.Parsed? ==> r.used <= |s| && forall e | e in r.items :: e != ""
  {
    if At(s, 0) == 'e' then Parsed([], 0)
    else
      var n := Strtol(s);
      if At(s, n.end) != ':' || n.value <= 0 then Parsed([], 0)
      else if n.end + 1 + n.value > |s| then Bad
      else
        var length := n.end + 1 + n.value;
        var rest := EidList(s[length..]);
        if rest.Bad? then Bad else Parsed([s[n.end + 1..length]] + rest.items, length + rest.used)
  }

  // The ids before the first empty one
  function NonEmptyHead(eids: seq<string>): seq<string>
  {
    if eids == [] || eids[0] == "" then [] else [eids[0]] + NonEmptyHead(eids[1..])
  }

  predicate Short(eids: seq<string>)
  {
    forall e | e in eids :: |e| <= LONG_MAX
  }

  // A printed list reads back, whatever octets it holds, up to the first empty id; and
  // the length reported is that of the text read.
  lemma {:induction false} EidListReadsBack(eids: seq<string>, rest: string)
    requires Short(eids)
    ensures EidList(PrintFields(eids) + "e" + rest)
         == Parsed(NonEmptyHead(eids), |PrintFields(NonEmptyHead(eids))|)
  {
    hide EidList, Field;
    var s := PrintFields(eids) + "e" + rest;
    if eids == [] {
      assert s == "e" + rest;
      EidListEnds(rest);
    } else {
      var tail := PrintFields(eids[1..]) + "e" + rest;
      assert s == Field(eids[0]) + tail;
      EidListStep(eids[0], tail);
      EidListReadsBack(eids[1..], rest);
    }
  }

  lemma EidListEnds(rest: string)
    ensures EidList("e" + rest) == Parsed([], 0)
  {}

  lemma EidListStep(e: string, tail: string)
    requires |e| <= LONG_MAX
    ensures EidList(Field(e) + tail) ==
      if e == "" then Parsed([], 0)
      else if EidList(tail).Bad? then Bad
      else Parsed([e] + EidList(tail).items, |Field(e)| + EidList(tail).used)
  {
    hide Strtol, Field;
    FieldIsNoEnd(e, tail);
    StrtolOfField(e, tail);
    FieldLength(e);
  }

  lemma FieldIsNoEnd(x: string, tail: string)
    ensures At(Field(x) + tail, 0) != 'e'
  {}

  lemma FieldLength(x: string)
    ensures |Field(x)| == |Digits(|x|)| + 1 + |x|
  {}

  lemma {:induction false} NonEmptyHeadIsAll(eids: seq<string>)
    ensures NonEmptyHead(eids) == eids <==> forall e | e in eids :: e != ""
  {
    if eids != [] {
      NonEmptyHeadIsAll(eids[1..]);
      assert eids == [eids[0]] + eids[1..] && eids[0] in eids;
      assert forall e | e in eids[1..] :: e in eids;
    }
  }

  // A printed list of ids is read back whole exactly when none of them is empty.
  lemma EidListRoundTrip(eids: seq<string>, rest: string)
    requires Short(eids)
    ensures EidList(PrintFields(eids) + "e" + rest) == Parsed(eids, |PrintFields(eids)|)
       <==> forall e | e in eids :: e != ""
  {
    EidListReadsBack(eids, rest);
    NonEmptyHeadIsAll(eids);
  }

  // ----- convergence layers -----

  // Where a loop stops that goes on while there is another octet than c and i < end
  function ScanTo(s: string, c: char, i: nat, end: int): (k: nat)
    requires c != NUL
    ensures i <= k && (k <= i || k <= end) && (forall j: nat | i <= j < k :: At(s, j) != c)
    ensures At(s, k) == c ==> k < |s|
    decreases end - i
  {
    if At(s, i) != c && i < end then ScanTo(s, c, i + 1, end) else i
  }

  lemma {:induction false} ScanToIs(s: string, c: char, i: nat, end: int, k: nat)
    requires c != NUL && i <= k <= end && At(s, k) == c && forall j: nat | i <= j < k :: At(s, j) != c
    ensures ScanTo(s, c, i, end) == k
    decreases k - i
  {
    if i < k {
      ScanToIs(s, c, i + 1, end, k);
    }
  }

  // parse_dtn_convergence_layer_args
  function Args(s: string, len: int): (r: Parsed<Arg>)
    decreases len
  {
    var k := ScanTo(s, '=', 0, len);
    if At(s, k) != '=' then Bad
    else
      var v := ScanTo(s, ';', k + 1, len);
      if At(s, v) != ';' then Bad
      else
        var arg := Arg(s[..k], s[k + 1..v]);
        if v + 1 < len then
          var rest := Args(s[v + 1..], len - (v + 1));
          if rest.Bad? then Bad else Parsed([arg] + rest.items, v + 1 + rest.used)
        else Parsed([arg], v + 1)
  }

  predicate CleanArg(a: Arg)
  {
    '=' !in a.key && ';' !in a.value
  }

  predicate CleanArgs(args: seq<Arg>)
  {
    args != [] && forall a | a in args :: CleanArg(a)
  }

  method ParseArgs(s: string, len: int) returns (r: Parsed<Arg>)
    ensures r == Args(s, len)
    decreases len
  {
    hide Args, ScanTo, At;
    var keylen := 0;
    while At(s, keylen) != '=' && keylen < len
      invariant ScanTo(s, '=', keylen, len) == ScanTo(s, '=', 0, len)
      decreases len - keylen
    {
      ScanStep(s, '=', keylen, len);
      keylen := keylen + 1;
    }
    ScanStep(s, '=', keylen, len);
    if At(s, keylen) != '=' {
      NoKey(s, len);
      return Bad;
    }
    var valuelen := 0;
    while At(s, keylen + 1 + valuelen) != ';' && keylen + 1 + valuelen < len
      invariant ScanTo(s, ';', keylen + 1 + valuelen, len) == ScanTo(s, ';', keylen + 1, len)
      decreases len - valuelen
    {
      ScanStep(s, ';', keylen + 1 + valuelen, len);
      valuelen := valuelen + 1;
    }
    ScanStep(s, ';', keylen + 1 + valuelen, len);
    ArgsAre(s, len, keylen, keylen + 1 + valuelen);
    if At(s, keylen + 1 + valuelen) != ';' {
      return Bad;
    }
    var arg := Arg(s[..keylen], s[keylen + 1..keylen + 1 + valuelen]);
    var result := keylen + valuelen + 2;
    if result < len {
      var rest := ParseArgs(s[result..], len - result);
      r := if rest.Bad? then Bad else Parsed([arg] + rest.items, result + rest.used);
    } else {
      r := Parsed([arg], result);
    }
  }

  lemma ScanStep(s: string, c: char, i: nat, end: int)
    requires c != NUL
    ensures ScanTo(s, c, i, end) == if At(s, i) != c && i < end then ScanTo(s, c, i + 1, end) else i
  {}

  lemma NoKey(s: string, len: int)
    requires At(s, ScanTo(s, '=', 0, len)) != '='
    ensures Args(s, len) == Bad
  {}

  lemma ArgsAre(s: string, len: int, k: nat, v: nat)
    requires ScanTo(s, '=', 0, len) == k && At(s, k) == '=' && ScanTo(s, ';', k + 1, len) == v && k < v
    ensures k < |s| && (At(s, v) == ';' ==> v < |s|)
    ensures Args(s, len) ==
      if At(s, v) != ';' then Bad
      else if v + 1 >= len then Parsed([Arg(s[..k], s[k + 1..v])], v + 1)
      else
        var rest := Args(s[v + 1..], len - (v + 1));
        if rest.Bad? then Bad else Parsed([Arg(s[..k], s[k + 1..v])] + rest.items, v + 1 + rest.used)
  {
    Bounded(s, k);
    Bounded(s, v);
    hide ScanTo, At;
  }

  lemma Bounded(s: string, k: nat)
    ensures At(s, k) != NUL ==> k < |s|
  {}

  // All arguments that are ever read are clean, and there is at least one.
  lemma {:induction false} ArgsAreClean(s: string, len: int)
    ensures Args(s, len).Parsed? ==> CleanArgs(Args(s, len).items)
    decreases len
  {
    hide Args, ScanTo, At;
    var k := ScanTo(s, '=', 0, len);
    if At(s, k) != '=' {
      NoKey(s, len);
    } else {
      var v := ScanTo(s, ';', k + 1, len);
      ArgsAre(s, len, k, v);
      if At(s, v) == ';' {
        ScanClean(s, '=', 0, len);
        ScanClean(s, ';', k + 1, len);
        assert s[0..k] == s[..k];
        if v + 1 < len {
          ArgsAreClean(s[v + 1..], len - (v + 1));
        }
      }
    }
  }

  lemma ScanClean(s: string, c: char, i: nat, end: int)
    requires c != NUL && At(s, ScanTo(s, c, i, end)) == c
    ensures c !in s[i..ScanTo(s, c, i, end)]
  {
    hide ScanTo;
    var k := ScanTo(s, c, i, end);
    forall j: nat | j < |s[i..k]| ensures s[i..k][j] != c {
      assert At(s, i + j) == s[i..k][j];
    }
  }

  lemma FirstArg(a: Arg, tail: string, len: int)
    requires CleanArg(a) && len >= |a.key| + |a.value| + 2
    ensures var s := a.key + "=" + a.value + ";" + tail; var k := |a.key|; var v := k + 1 + |a.value|;
      && ScanTo(s, '=', 0, len) == k && At(s, k) == '='
      && ScanTo(s, ';', k + 1, len) == v && At(s, v) == ';'
      && s[..k] == a.key && s[k + 1..v] == a.value && s[v + 1..] == tail
  {
    var s, k := a.key + "=" + a.value + ";" + tail, |a.key|;
    var v := k + 1 + |a.value|;
    assert forall j: nat | j < k :: At(s, j) == a.key[j];
    assert forall j: nat | k + 1 <= j < v :: At(s, j) == a.value[j - k - 1];
    ScanToIs(s, '=', 0, len, k);
    ScanToIs(s, ';', k + 1, len, v);
  }

  lemma {:induction false} CleanArgsReadBack(args: seq<Arg>, rest: string)
    requires CleanArgs(args)
    ensures Args(PrintArgs(args) + rest, |PrintArgs(args)|) == Parsed(args, |PrintArgs(args)|)
  {
    hide Args, CleanArg;
    var a, len := args[0], |PrintArgs(args)|;
    var more := PrintArgs(args[1..]);
    assert PrintArgs(args) + rest == a.key + "=" + a.value + ";" + (more + rest);
    assert args == [a] + args[1..];
    ArgsNext(a, more + rest, len);
    if args[1..] != [] {
      CleanArgsReadBack(args[1..], rest);
      PrintArgsLength(args[1..]);
    }
  }

  lemma ArgsNext(a: Arg, tail: string, len: int)
    requires CleanArg(a) && len >= |a.key| + |a.value| + 2
    ensures
      var n := |a.key| + |a.value| + 2;
      Args(a.key + "=" + a.value + ";" + tail, len) ==
      if len == n then Parsed([a], n)
      else
        var rest := Args(tail, len - n);
        if rest.Bad? then Bad else Parsed([a] + rest.items, n + rest.used)
  {
    hide ScanTo, Args, At;
    FirstArg(a, tail, len);
    ArgsAre(a.key + "=" + a.value + ";" + tail, len, |a.key|, |a.key| + 1 + |a.value|);
  }

  lemma PrintArgsLength(args: seq<Arg>)
    requires args != []
    ensures |PrintArgs(args)| >= 2
  {}

  // Printed arguments are read back exactly when there is one, no key holds '=' and no
  // value ';'.
  lemma ArgsRoundTrip(args: seq<Arg>, rest: string)
    ensures Args(PrintArgs(args) + rest, |PrintArgs(args)|) == Parsed(args, |PrintArgs(args)|)
       <==> CleanArgs(args)
  {
    ArgsAreClean(PrintArgs(args) + rest, |PrintArgs(args)|);
    if CleanArgs(args) {
      CleanArgsReadBack(args, rest);
    }
  }

  // memcmp(clname, "tcp", MIN(clnamelen, 3)) == 0, or the same for "udp"
  predicate TakesAddress(clname: string)
  {
    var k := if |clname| < 3 then |clname| else 3;
    clname[..k] == "tcp"[..k] || clname[..k] == "udp"[..k]
  }

  // What the receiver makes of a layer that came from this address
  function Seen(l: Layer, from: string): Layer
  {
    if TakesAddress(l.clname) then Layer(l.clname, [Arg("ip", from)] + l.args) else l
  }

  // The address is added exactly for names that begin with "tcp" or "udp", or that are no
  // more than a beginning of one of them.
  lemma TakesAddressMeans(clname: string)
    ensures TakesAddress(clname) <==>
      StartsWith(clname, "tcp") || StartsWith(clname, "udp") || clname in {"", "t", "tc", "u", "ud"}
  {
    if |clname| < 3 {
      assert clname[..|clname|] == clname;
      assert "tcp"[..2] == "tc" && "tcp"[..1] == "t" && "tcp"[..0] == "";
      assert "udp"[..2] == "ud" && "udp"[..1] == "u" && "udp"[..0] == "";
    } else {
      assert "tcp"[..3] == "tcp" && "udp"[..3] == "udp";
    }
  }

  lemma {:induction false} SeenLayers(ls: seq<Layer>, from: string, i: nat)
    requires i < |ls|
    ensures |AllSeen(ls, from)| == |ls| && AllSeen(ls, from)[i].clname == ls[i].clname
    ensures AllSeen(ls, from)[i].args ==
      (if TakesAddress(ls[i].clname) then [Arg("ip", from)] else []) + ls[i].args
  {
    hide TakesAddress;
    if i > 0 {
      SeenLayers(ls[1..], from, i - 1);
    } else if |ls| > 1 {
      SeenLayers(ls[1..], from, 0);
    }
  }

  function AllSeen(ls: seq<Layer>, from: string): seq<Layer>
  {
    if ls == [] then [] else [Seen(ls[0], from)] + AllSeen(ls[1..], from)
  }

  // parse_dtn_convergence_layer; the length it reports counts only the octets behind the
  // colons
  function Layers(s: string, from: string): (r: Parsed<Layer>)
    ensures r.Parsed? ==> r.used <= |s|
  {
    if At(s, 0) == 'e' then Parsed([], 0)
    else
      var n := Strtol(s);
      if At(s, n.end) != ':' || n.value <= 5 then Bad
      else if n.end + 1 + n.value > |s| then Bad
      else if s[n.end + 1..n.end + 6] != "name=" then Bad
      else
        var l := OneLayer(s[n.end + 1..], n.value);
        if l.None? then Bad
        else
          var rest := Layers(s[n.end + 1 + n.value..], from);
          if rest.Bad? then Bad else Parsed([Seen(l.value, from)] + rest.items, n.value + rest.used)
  }

  // The layer in the next len octets, which begin with "name="
  function OneLayer(s: string, len: nat): Option<Layer>
    requires 6 <= len <= |s|
  {
    var k := ScanTo(s, ';', 5, len - 1);
    var clname := if At(s, k) == ';' then s[5..k] else "";
    var args := Args(s[k + 1..], len - (k + 1));
    if args.Bad? then None else Some(Layer(clname, args.items))
  }

  method ParseLayers(s: string, from: string) returns (r: Parsed<Layer>)
    ensures r == Layers(s, from)
    decreases |s|
  {
    hide Strtol, OneLayer, At, Layers;
    LayersAre(s, from);
    if At(s, 0) == 'e' {
      return Parsed([], 0);
    }
    var n := Strtol(s);
    var q, l := n.end, n.value;
    if At(s, q) != ':' || l <= 5 || q + 1 + l > |s| || s[q + 1..q + 6] != "name=" {
      return Bad;
    }
    var body := s[q + 1..];
    var layer := ParseLayer(body, l);
    if layer.None? {
      return Bad;
    }
    var next := if TakesAddress(layer.value.clname)
                then Layer(layer.value.clname, [Arg("ip", from)] + layer.value.args) else layer.value;
    var rest := ParseLayers(s[q + 1 + l..], from);
    r := if rest.Bad? then Bad else Parsed([next] + rest.items, l + rest.used);
  }

  lemma LayersAre(s: string, from: string)
    ensures
      var n := Strtol(s);
      Layers(s, from) ==
      if At(s, 0) == 'e' then Parsed([], 0)
      else if At(s, n.end) != ':' || n.value <= 5 || n.end + 1 + n.value > |s|
              || s[n.end + 1..n.end + 6] != "name=" then Bad
      else
        var l, rest := OneLayer(s[n.end + 1..], n.value), Layers(s[n.end + 1 + n.value..], from);
        if l.None? || rest.Bad? then Bad else Parsed([Seen(l.value, from)] + rest.items, n.value + rest.used)
  {
    hide Strtol, OneLayer, At;
  }

  method ParseLayer(s: string, len: nat) returns (r: Option<Layer>)
    requires 6 <= len <= |s|
    ensures r == OneLayer(s, len)
  {
    var namelen := 0;
    while At(s, 5 + namelen) != ';' && namelen + 6 < len
      decreases len - namelen
      invariant namelen + 6 <= len
      invariant ScanTo(s, ';', 5 + namelen, len - 1) == ScanTo(s, ';', 5, len - 1)
    {
      namelen := namelen + 1;
    }
    var clname := if At(s, 5 + namelen) == ';' then s[5..5 + namelen] else "";
    var args := ParseArgs(s[6 + namelen..], len - namelen - 6);
    r := if args.Bad? then None else Some(Layer(clname, args.items));
  }

  predicate CleanLayer(l: Layer)
  {
    ';' !in l.clname && CleanArgs(l.args)
  }

  lemma OneLayerIsClean(s: string, len: nat)
    requires 6 <= len <= |s|
    ensures OneLayer(s, len).Some? ==> CleanLayer(OneLayer(s, len).value)
  {
    hide ScanTo, Args, At, CleanArgs;
    var k := ScanTo(s, ';', 5, len - 1);
    ArgsAreClean(s[k + 1..], len - (k + 1));
    if At(s, k) == ';' {
      ScanClean(s, ';', 5, len - 1);
    }
  }

  lemma CleanLayerReadsBack(l: Layer, tail: string)
    requires CleanLayer(l)
    ensures |LayerText(l)| >= 6 && OneLayer(LayerText(l) + tail, |LayerText(l)|) == Some(l)
  {
    hide ScanTo, Args;
    var s, k := LayerText(l) + tail, 5 + |l.clname|;
    assert s == "name=" + l.clname + ";" + (PrintArgs(l.args) + tail);
    assert forall j: nat | 5 <= j < k :: At(s, j) == l.clname[j - 5];
    ScanToIs(s, ';', 5, |LayerText(l)| - 1, k);
    assert s[k + 1..] == PrintArgs(l.args) + tail;
    CleanArgsReadBack(l.args, tail);
    assert s[5..k] == l.clname && s[k] == ';';
    assert |LayerText(l)| - (k + 1) == |PrintArgs(l.args)|;
  }

  predicate ShortLayers(ls: seq<Layer>)
  {
    forall l | l in ls :: |LayerText(l)| <= LONG_MAX
  }

  lemma {:induction false} CleanLayersReadBack(ls: seq<Layer>, rest: string, from: string)
    requires ShortLayers(ls) && forall l | l in ls :: CleanLayer(l)
    ensures Layers(PrintLayers(ls) + "e" + rest, from) == Parsed(AllSeen(ls, from), TextLengths(ls))
  {
    hide Field, LayerText, CleanLayer, Seen, Layers;
    var s := PrintLayers(ls) + "e" + rest;
    if ls == [] {
      assert s == "e" + rest;
      NoLayers(rest, from);
    } else {
      var tail := PrintLayers(ls[1..]) + "e" + rest;
      assert s == Field(LayerText(ls[0])) + tail;
      LayersNext(ls[0], tail, from);
      CleanLayersReadBack(ls[1..], rest, from);
    }
  }

  lemma NoLayers(rest: string, from: string)
    ensures Layers("e" + rest, from) == Parsed([], 0)
  {
    hide Strtol;
    AtFirst("e", rest);
  }

  lemma LayersNext(l: Layer, tail: string, from: string)
    requires CleanLayer(l) && |LayerText(l)| <= LONG_MAX
    ensures
      var rest := Layers(tail, from);
      Layers(Field(LayerText(l)) + tail, from) ==
      if rest.Bad? then Bad else Parsed([Seen(l, from)] + rest.items, |LayerText(l)| + rest.used)
  {
    hide Strtol, Field, OneLayer, LayerText, CleanLayer, Seen, At, Layers;
    var x := LayerText(l);
    var s := Field(x) + tail;
    LayersAre(s, from);
    FieldIsNoEnd(x, tail);
    StrtolOfField(x, tail);
    var q := Strtol(s).end;
    assert s[q + 1..] == x + tail;
    CleanLayerReadsBack(l, tail);
    NameFirst(l);
    assert s[q + 1..q + 6] == x[..5];
  }

  lemma AtFirst(c: string, rest: string)
    requires |c| == 1
    ensures At(c + rest, 0) == c[0]
  {}

  lemma NameFirst(l: Layer)
    ensures |LayerText(l)| >= 6 && LayerText(l)[..5] == "name="
  {}

  lemma {:induction false} LayersAreClean(s: string, from: string, ls: seq<Layer>)
    requires Layers(s, from).Parsed? && Layers(s, from).items == AllSeen(ls, from)
    ensures forall l | l in ls :: CleanLayer(l)
    decreases |s|
  {
    hide Strtol, OneLayer, CleanLayer, At, Layers, Seen;
    LayersAre(s, from);
    if ls != [] {
      var n := Strtol(s);
      var l := OneLayer(s[n.end + 1..], n.value).value;
      OneLayerIsClean(s[n.end + 1..], n.value);
      var rest := Layers(s[n.end + 1 + n.value..], from).items;
      assert [Seen(l, from)] + rest == [Seen(ls[0], from)] + AllSeen(ls[1..], from);
      assert ([Seen(l, from)] + rest)[1..] == rest;
      assert ([Seen(ls[0], from)] + AllSeen(ls[1..], from))[1..] == AllSeen(ls[1..], from);
      LayersAreClean(s[n.end + 1 + n.value..], from, ls[1..]);
      SeenOnce(l, ls[0], from);
      assert ls == [ls[0]] + ls[1..];
    }
  }

  lemma SeenOnce(a: Layer, b: Layer, from: string)
    requires Seen(a, from) == Seen(b, from)
    ensures a == b
  {
    assert Seen(a, from).clname == a.clname && Seen(b, from).clname == b.clname;
    if TakesAddress(a.clname) {
      assert Seen(a, from).args[1..] == a.args && Seen(b, from).args[1..] == b.args;
    }
  }

  // Printed layers are read back, each tcp or udp one with the sender's address put before
  // its arguments, exactly when no name holds ';' and the arguments of each layer read back.
  lemma LayersRoundTrip(ls: seq<Layer>, rest: string, from: string)
    requires ShortLayers(ls)
    ensures Layers(PrintLayers(ls) + "e" + rest, from) == Parsed(AllSeen(ls, from), TextLengths(ls))
       <==> forall l | l in ls :: CleanLayer(l)
  {
    if forall l | l in ls :: CleanLayer(l) {
      CleanLayersReadBack(ls, rest, from);
    }
    if Layers(PrintLayers(ls) + "e" + rest, from) == Parsed(AllSeen(ls, from), TextLengths(ls)) {
      LayersAreClean(PrintLayers(ls) + "e" + rest, from, ls);
    }
  }

  // ----- the whole message -----

  // parse_dtn_message on a reply, section by section
  function TidAt(s: string): Option<string>
  {
    var p := After(s, "e1:t");
    if p.None? then None
    else
      var n := Strtol(p.value);
      if At(p.value, n.end) == ':' && 0 < n.value < TID_LEN && n.end + 1 + n.value <= |p.value|
      then Some(p.value[n.end + 1..n.end + 1 + n.value]) else None
  }

  function NeighboursAt(s: string): Option<(seq<string>, string)>
  {
    var p := After(s, "e2:nbl");
    if p.None? then None
    else
      var l := EidList(p.value);
      if l.Bad? then None
      else
        var rest := TidAt(p.value[l.used..]);
        if rest.None? then None else Some((l.items, rest.value))
  }

  function GroupsAt(s: string): Option<(seq<string>, seq<string>, string)>
  {
    var p := After(s, "2:grl");
    if p.None? then None
    else
      var l := EidList(p.value);
      if l.Bad? then None
      else
        var rest := NeighboursAt(p.value[l.used..]);
        if rest.None? then None else Some((l.items, rest.value.0, rest.value.1))
  }

  // The eid right behind its marker
  function EidHere(p: string): (r: Option<string>)
    ensures r.Some? ==> 5 < |r.value| <= |p|
  {
    var n := Strtol(p);
    if At(p, n.end) != ':' || n.value <= 5 || n.end + 1 + n.value > |p| then None
    else Some(p[n.end + 1..n.end + 1 + n.value])
  }

  // The search for the groups begins as many octets behind the marker as the eid has, not
  // behind the eid.
  function EidAt(s: string): Option<(string, seq<string>, seq<string>, string)>
  {
    var p := After(s, "e3:eid");
    if p.None? then None
    else
      var eid := EidHere(p.value);
      if eid.None? then None
      else
        var rest := GroupsAt(p.value[|eid.value|..]);
        if rest.None? then None else Some((eid.value, rest.value.0, rest.value.1, rest.value.2))
  }

  function ReadInfo(s: string, from: string): Option<Info>
  {
    if !StartsWith(s, "d1:rd2:cll") then None
    else
      var l := Layers(s[10..], from);
      if l.Bad? || l.used == 0 then None
      else
        var rest := EidAt(s[10 + l.used..]);
        if rest.None? then None
        else Some(Info(l.items, rest.value.0, rest.value.1, rest.value.2, rest.value.3))
  }

  method ParseDtnReply(buf: string, from: string) returns (r: Option<Info>)
    ensures r == ReadInfo(buf, from)
  {
    hide Strtol, Layers, EidList, After;
    if !StartsWith(buf, "d1:rd2:cll") {
      return None;
    }
    var pos := 10;
    var layers := ParseLayers(buf[pos..], from);
    if layers.Bad? || layers.used == 0 {
      return None;
    }
    pos := pos + layers.used;
    var rest := ParseSections(buf[pos..]);
    r := if rest.None? then None
         else Some(Info(layers.items, rest.value.0, rest.value.1, rest.value.2, rest.value.3));
  }

  method ParseSections(buf: string) returns (r: Option<(string, seq<string>, seq<string>, string)>)
    ensures r == EidAt(buf)
  {
    hide EidHere, GroupsAt, After;
    var p := MemMem(buf, "e3:eid");
    if p.None? {
      return None;
    }
    var s := buf[p.value + 6..];
    var eid := ParseEid(s);
    if eid.None? {
      return None;
    }
    var rest := ParseGroups(s[|eid.value|..]);
    r := if rest.None? then None else Some((eid.value, rest.value.0, rest.value.1, rest.value.2));
  }

  method ParseEid(s: string) returns (r: Option<string>)
    ensures r == EidHere(s)
  {
    hide Strtol, At;
    var n := Strtol(s);
    if At(s, n.end) != ':' || n.value <= 5 || n.end + 1 + n.value > |s| {
      return None;
    }
    r := Some(s[n.end + 1..n.end + 1 + n.value]);
  }

  method ParseGroups(buf: string) returns (r: Option<(seq<string>, seq<string>, string)>)
    ensures r == GroupsAt(buf)
  {
    hide EidList, After, NeighboursAt;
    var p := MemMem(buf, "2:grl");
    if p.None? {
      return None;
    }
    var s := buf[p.value + 5..];
    var groups := EidList(s);
    if groups.Bad? {
      return None;
    }
    var rest := ParseNeighbours(s[groups.used..]);
    r := if rest.None? then None else Some((groups.items, rest.value.0, rest.value.1));
  }

  method ParseNeighbours(buf: string) returns (r: Option<(seq<string>, string)>)
    ensures r == NeighboursAt(buf)
  {
    hide EidList, After, TidAt;
    var p := MemMem(buf, "e2:nbl");
    if p.None? {
      return None;
    }
    var s := buf[p.value + 6..];
    var neighbours := EidList(s);
    if neighbours.Bad? {
      return None;
    }
    var tid := ParseTid(s[neighbours.used..]);
    r := if tid.None? then None else Some((neighbours.items, tid.value));
  }

  method ParseTid(buf: string) returns (r: Option<string>)
    ensures r == TidAt(buf)
  {
    hide Strtol, After, At;
    var p := MemMem(buf, "e1:t");
    if p.None? {
      return None;
    }
    var s := buf[p.value + 4..];
    var n := Strtol(s);
    if At(s, n.end) == ':' && 0 < n.value < 16 && n.end + 1 + n.value <= |s| {
      return Some(s[n.end + 1..n.end + 1 + n.value]);
    }
    r := None;
  }

  // What the receiver is to get
  function Received(m: Info, from: string): Info
  {
    m.(layers := AllSeen(m.layers, from))
  }

  // An eid of a thousand octets or more that ends like the marker of the groups
  predicate Masks(eid: string)
  {
    |eid| >= 1000 && EndsWith(eid, "2:grl")
  }

  predicate NonEmpty(eids: seq<string>)
  {
    forall e | e in eids :: e != ""
  }

  predicate Readable(m: Info)
  {
    && m.layers != [] && (forall l | l in m.layers :: CleanLayer(l))
    && |m.eid| >= 6 && NonEmpty(m.groups) && NonEmpty(m.neighbours)
    && 0 < |m.tid| < TID_LEN
  }

  // The octets of the layers that are searched once more for the marker of the eid
  function SearchedTwice(ls: seq<Layer>): string
  {
    PrintLayers(ls)[TextLengths(ls)..]
  }

  lemma TidReads(tid: string, end: string)
    requires |tid| <= LONG_MAX
    ensures TidAt(PrintTid(tid, end)) == if 0 < |tid| < TID_LEN then Some(tid) else None
  {
    hide Strtol, Field, After;
    var s := PrintTid(tid, end);
    assert s == "e" + "e1:t" + (Field(tid) + end);
    AfterTooShort("e", "e1:t");
    UnborderedIf("e1:t");
    AfterMarker("e", "e1:t", Field(tid) + end);
    StrtolOfField(tid, end);
  }

  // A marker at the very beginning
  lemma AfterFirst(m: string, rest: string)
    requires m != "" && Unbordered(m)
    ensures After(m + rest, m) == Some(rest)
  {
    AfterTooShort("", m);
    AfterMarker("", m, rest);
    assert "" + m + rest == m + rest;
  }

  // A printed list, with what follows it
  lemma EidsRead(eids: seq<string>, rest: string)
    requires Short(eids) && NonEmpty(eids) && rest != "" && rest[0] == 'e'
    ensures EidList(PrintFields(eids) + rest) == Parsed(eids, |PrintFields(eids)|)
    ensures (PrintFields(eids) + rest)[|PrintFields(eids)|..] == rest
  {
    hide EidList, PrintFields;
    EidListRoundTrip(eids, rest[1..]);
    assert PrintFields(eids) + rest == PrintFields(eids) + "e" + rest[1..];
  }

  lemma NeighboursRead(x: string, m: Info, end: string)
    requires After(x, "e2:nbl").None? && Short(m.neighbours) && NonEmpty(m.neighbours) && 0 < |m.tid| < TID_LEN
    ensures NeighboursAt(x + PrintNeighbours(m, end)) == Some((m.neighbours, m.tid))
  {
    hide After, EidList, Field, PrintFields, TidAt;
    UnborderedIf("e2:nbl");
    AfterMarker(x, "e2:nbl", PrintFields(m.neighbours) + PrintTid(m.tid, end));
    assert x + PrintNeighbours(m, end) == x + "e2:nbl" + (PrintFields(m.neighbours) + PrintTid(m.tid, end));
    EidsRead(m.neighbours, PrintTid(m.tid, end));
    TidReads(m.tid, end);
  }

  lemma GroupsRead(x: string, m: Info, end: string)
    requires After(x, "2:grl").None? && Short(m.groups) && NonEmpty(m.groups)
    requires Short(m.neighbours) && NonEmpty(m.neighbours) && 0 < |m.tid| < TID_LEN
    ensures GroupsAt(x + PrintGroups(m, end)) == Some((m.groups, m.neighbours, m.tid))
  {
    hide After, EidList, NeighboursAt, PrintFields;
    UnborderedIf("2:grl");
    AfterMarker(x, "2:grl", PrintFields(m.groups) + PrintNeighbours(m, end));
    assert x + PrintGroups(m, end) == x + "2:grl" + (PrintFields(m.groups) + PrintNeighbours(m, end));
    EidsRead(m.groups, PrintNeighbours(m, end));
    AfterTooShort("", "e2:nbl");
    NeighboursRead("", m, end);
    assert "" + PrintNeighbours(m, end) == PrintNeighbours(m, end);
  }

  // Behind a marker that the eid ends with, the real one reads as the one group "gr".
  lemma GroupsMasked(rest: string)
    ensures GroupsAt("2:grl" + ("2:grl" + rest)) ==
      var n := NeighboursAt("l" + rest);
      if n.None? then None else Some((["gr"], n.value.0, n.value.1))
  {
    hide After, EidList, NeighboursAt, Field, Digits;
    UnborderedIf("2:grl");
    AfterFirst("2:grl", "2:grl" + rest);
    FieldOfGr();
    assert "2:grl" + rest == Field("gr") + ("l" + rest);
    EidListStep("gr", "l" + rest);
    EidListOfL(rest);
    assert ["gr"] + [] == ["gr"];
    assert EidList("2:grl" + rest) == Parsed(["gr"], 4);
    assert ("2:grl" + rest)[4..] == "l" + rest;
  }

  lemma FieldOfGr()
    ensures Field("gr") == "2:gr"
  {
    assert Digits(2) == [DigitOf(2)];
  }

  lemma EidListOfL(rest: string)
    ensures EidList("l" + rest) == Parsed([], 0)
  {
    var s := "l" + rest;
    RunLengthIs(s, IsSpace, 0);
    assert s[0..] == s;
    RunLengthIs(s, IsDigit, 0);
  }

  predicate ReadableLists(m: Info)
  {
    && Short(m.groups) && NonEmpty(m.groups) && Short(m.neighbours) && NonEmpty(m.neighbours)
    && 0 < |m.tid| < TID_LEN
  }

  // What is left of the eid where the search for the groups begins
  lemma EidRemains(eid: string)
    requires 6 <= |eid| < 10000
    ensures |Field(eid)| >= |eid|
    ensures Masks(eid) ==> Field(eid)[|eid|..] == "2:grl"
    ensures !Masks(eid) ==> After(Field(eid)[|eid|..], "2:grl").None?
  {
    hide Digits;
    DigitsLength(|eid|);
    var y := Field(eid)[|eid|..];
    if |eid| < 1000 {
      AfterTooShort(y, "2:grl");
    } else {
      assert y == eid[|eid| - 5..];
      if !Masks(eid) {
        assert y[..5] == y && y != "2:grl";
        AfterTooShort(y[1..], "2:grl");
      }
    }
  }

  lemma EidOfField(eid: string, rest: string)
    requires 6 <= |eid| <= LONG_MAX
    ensures EidHere(Field(eid) + rest) == Some(eid)
  {
    hide Strtol, Field;
    StrtolOfField(eid, rest);
  }

  lemma EidReads(x: string, m: Info, end: string)
    requires After(x, "e3:eid").None? && 6 <= |m.eid| < 10000 && ReadableLists(m)
    ensures EidAt(x + PrintEid(m, end)) == Some((m.eid, m.groups, m.neighbours, m.tid))
       <==> (Masks(m.eid) ==> m.groups == ["gr"])
  {
    hide After, Field, EidHere, GroupsAt, PrintGroups, Masks, ReadableLists;
    UnborderedIf("e3:eid");
    var p := Field(m.eid) + PrintGroups(m, end);
    AfterMarker(x, "e3:eid", p);
    assert x + PrintEid(m, end) == x + "e3:eid" + p;
    EidOfField(m.eid, PrintGroups(m, end));
    EidRemains(m.eid);
    assert p[|m.eid|..] == Field(m.eid)[|m.eid|..] + PrintGroups(m, end);
    if Masks(m.eid) {
      GroupsReadMasked(m, end);
    } else {
      GroupsReadClear(Field(m.eid)[|m.eid|..], m, end);
    }
  }

  lemma GroupsReadClear(x: string, m: Info, end: string)
    requires After(x, "2:grl").None? && ReadableLists(m)
    ensures GroupsAt(x + PrintGroups(m, end)) == Some((m.groups, m.neighbours, m.tid))
  {
    GroupsRead(x, m, end);
  }

  lemma GroupsReadMasked(m: Info, end: string)
    requires ReadableLists(m)
    ensures GroupsAt("2:grl" + PrintGroups(m, end)) == Some((m.groups, m.neighbours, m.tid)) <==> m.groups == ["gr"]
  {
    hide GroupsAt, NeighboursAt, Field, After, PrintNeighbours;
    var rest := PrintFields(m.groups) + PrintNeighbours(m, end);
    GroupsMasked(rest);
    if m.groups == ["gr"] {
      FieldOfGr();
      assert PrintFields(m.groups[1..]) == "";
      assert PrintFields(m.groups) == "2:gr";
      assert "l" + rest == "l2:gr" + PrintNeighbours(m, end);
      AfterTooShort("l2:gr", "e2:nbl");
      NeighboursRead("l2:gr", m, end);
    }
  }

  // ----- the round trip -----

  // The lengths that a message of at most 4096 octets allows
  lemma {:induction false} EidsFit(eids: seq<string>)
    ensures forall e | e in eids :: |e| <= |PrintFields(eids)|
  {
    hide Digits;
    if eids != [] {
      EidsFit(eids[1..]);
      assert eids == [eids[0]] + eids[1..];
    }
  }

  lemma {:induction false} LayersFit(ls: seq<Layer>)
    ensures forall l | l in ls :: |LayerText(l)| <= |PrintLayers(ls)|
  {
    hide Digits, LayerText;
    if ls != [] {
      LayersFit(ls[1..]);
      assert ls == [ls[0]] + ls[1..];
    }
  }

  lemma InfoFits(m: Info, end: string)
    requires |PrintTo(m, end)| <= BUFFER_SIZE
    ensures Short(m.groups) && Short(m.neighbours) && ShortLayers(m.layers)
    ensures |m.eid| <= BUFFER_SIZE && |m.tid| <= BUFFER_SIZE
  {
    hide PrintFields, PrintLayers, Digits, LayerText;
    EidsFit(m.groups);
    EidsFit(m.neighbours);
    LayersFit(m.layers);
  }

  // Whatever is read from a message could have been printed.
  lemma ReadIsReadable(s: string, from: string, m: Info)
    requires ReadInfo(s, from) == Some(Received(m, from))
    ensures Readable(m)
  {
    hide Layers, After, EidAt, CleanLayer, NonEmpty;
    var l := Layers(s[10..], from);
    LayersAreClean(s[10..], from, m.layers);
    LayersUsed(s[10..], from);
    EidAtIsReadable(s[10 + l.used..]);
  }

  lemma LayersUsed(s: string, from: string)
    requires Layers(s, from).Parsed?
    ensures Layers(s, from).used == 0 <==> Layers(s, from).items == []
  {
    hide Strtol, OneLayer;
  }

  lemma EidAtIsReadable(s: string)
    ensures EidAt(s).Some? ==>
      && |EidAt(s).value.0| >= 6 && NonEmpty(EidAt(s).value.1) && NonEmpty(EidAt(s).value.2)
      && 0 < |EidAt(s).value.3| < TID_LEN
  {
    hide Strtol, After;
  }

  // The marker of the eid in the octets that are searched twice, if it is there, and the
  // text behind it
  function EarlyMarker(m: Info): Option<string>
  {
    After(SearchedTwice(m.layers), "e3:eid")
  }

  function EarlyText(m: Info, end: string): string
    requires EarlyMarker(m).Some?
  {
    EarlyMarker(m).value + PrintEid(m, end)
  }

  // The octets from where the search for the groups then begins to their marker
  function BeforeGroups(m: Info): string
    requires EarlyMarker(m).Some?
  {
    (EarlyMarker(m).value + ("e3:eid" + Field(m.eid)))[|m.eid|..]
  }

  // The lists as they are read from the marker of the groups that comes first there, which
  // may lie in the layers or in the eid
  function EarlyGroups(m: Info, end: string): Option<(seq<string>, seq<string>, string)>
    requires EarlyMarker(m).Some?
  {
    GroupsAt(BeforeGroups(m) + PrintGroups(m, end))
  }

  // When clean layers, groups, neighbours and so on are read back together: an early marker
  // of the eid has the same eid behind it, and the lists read after that are the same; or
  // there is none, and the end of the eid is no other marker, or one without effect.  What
  // EarlyGroups comes to is the subject of EarlyGroupsCases.
  predicate Undisturbed(m: Info, end: string)
  {
    if EarlyMarker(m).Some? then
      EidHere(EarlyText(m, end)) == Some(m.eid) && EarlyGroups(m, end) == Some((m.groups, m.neighbours, m.tid))
    else Masks(m.eid) ==> m.groups == ["gr"]
  }

  // The octets from an early marker of the groups to the real marker of the neighbours
  function EarlyList(m: Info): string
    requires EarlyMarker(m).Some? && After(BeforeGroups(m), "2:grl").Some?
  {
    After(BeforeGroups(m), "2:grl").value + ("2:grl" + PrintFields(m.groups))
  }

  lemma GroupsText(m: Info, end: string)
    ensures PrintGroups(m, end) == "2:grl" + PrintFields(m.groups) + PrintNeighbours(m, end)
  {
    hide PrintFields, PrintNeighbours;
  }

  // Without an early marker of the groups the lists are read as they are.  With one, the
  // groups are what is read behind it: nothing is read back when that runs past the end,
  // and otherwise, unless it takes in the neighbours or their marker, all is read back
  // exactly when the groups are those.
  lemma EarlyGroupsCases(m: Info, end: string)
    requires EarlyMarker(m).Some? && ReadableLists(m)
    ensures After(BeforeGroups(m), "2:grl").None? ==>
      EarlyGroups(m, end) == Some((m.groups, m.neighbours, m.tid))
    ensures After(BeforeGroups(m), "2:grl").Some? ==>
      var l := EidList(EarlyList(m) + PrintNeighbours(m, end));
      && (l.Bad? ==> EarlyGroups(m, end).None?)
      && (l.Parsed? && l.used <= |EarlyList(m)| && After(EarlyList(m)[l.used..], "e2:nbl").None? ==>
            EarlyGroups(m, end) == Some((l.items, m.neighbours, m.tid)))
  {
    hide After, EidList, NeighboursAt, PrintNeighbours, PrintFields, BeforeGroups, NonEmpty, Short;
    var x := BeforeGroups(m);
    if After(x, "2:grl").None? {
      GroupsReadClear(x, m, end);
    } else {
      AfterExtends(x, PrintGroups(m, end), "2:grl");
      var s := EarlyList(m) + PrintNeighbours(m, end);
      GroupsText(m, end);
      assert After(x, "2:grl").value + PrintGroups(m, end) == s;
      var l := EidList(s);
      if l.Parsed? && l.used <= |EarlyList(m)| && After(EarlyList(m)[l.used..], "e2:nbl").None? {
        NeighboursRead(EarlyList(m)[l.used..], m, end);
        assert s[l.used..] == EarlyList(m)[l.used..] + PrintNeighbours(m, end);
      }
    }
  }

  // With readable layers it all depends on what is read behind them.
  lemma ReadBehindLayers(m: Info, end: string, from: string)
    requires ShortLayers(m.layers) && m.layers != [] && forall l | l in m.layers :: CleanLayer(l)
    ensures ReadInfo(PrintTo(m, end), from) ==
      var rest := EidAt(SearchedTwice(m.layers) + PrintEid(m, end));
      if rest.None? then None
      else Some(Info(AllSeen(m.layers, from), rest.value.0, rest.value.1, rest.value.2, rest.value.3))
  {
    hide Layers, EidAt, PrintEid, PrintLayers, CleanLayer, After;
    LayerNotEmpty(m.layers[0]);
    EidMarkerFirst(m, end);
    var s, tail := PrintTo(m, end), PrintEid(m, end);
    assert s[10..] == PrintLayers(m.layers) + tail == PrintLayers(m.layers) + "e" + tail[1..];
    LayersRoundTrip(m.layers, tail[1..], from);
    assert s[10 + TextLengths(m.layers)..] == SearchedTwice(m.layers) + tail;
  }

  // An early marker: all depends on the eid and the lists that are read behind it.
  lemma EarlyEidReads(m: Info, end: string)
    requires EarlyMarker(m).Some?
    ensures EidAt(SearchedTwice(m.layers) + PrintEid(m, end)) == Some((m.eid, m.groups, m.neighbours, m.tid))
       <==> EidHere(EarlyText(m, end)) == Some(m.eid) && EarlyGroups(m, end) == Some((m.groups, m.neighbours, m.tid))
  {
    hide After, Field, EidHere, GroupsAt, PrintGroups, SearchedTwice;
    AfterExtends(SearchedTwice(m.layers), PrintEid(m, end), "e3:eid");
    var q := EarlyMarker(m).value + ("e3:eid" + Field(m.eid));
    assert EarlyText(m, end) == q + PrintGroups(m, end);
    FieldLength(m.eid);
    assert (q + PrintGroups(m, end))[|m.eid|..] == q[|m.eid|..] + PrintGroups(m, end);
  }

  // A printed message with whatever seven octets at its end
  lemma AnyEndRoundTrip(m: Info, end: string, from: string)
    requires |PrintTo(m, end)| <= BUFFER_SIZE
    ensures ReadInfo(PrintTo(m, end), from) == Some(Received(m, from)) <==> Readable(m) && Undisturbed(m, end)
  {
    hide EidAt, PrintEid, PrintTo, ReadInfo, Masks, CleanLayer, After, Short, NonEmpty, ShortLayers, EidHere,
         SearchedTwice, EarlyText, BeforeGroups, EarlyGroups;
    InfoFits(m, end);
    if ReadInfo(PrintTo(m, end), from) == Some(Received(m, from)) {
      ReadIsReadable(PrintTo(m, end), from, m);
    }
    if Readable(m) {
      ReadBehindLayers(m, end, from);
      if EarlyMarker(m).Some? {
        EarlyEidReads(m, end);
      } else {
        EidReads(SearchedTwice(m.layers), m, end);
      }
    }
  }

  lemma LayerNotEmpty(l: Layer)
    ensures |LayerText(l)| >= 6
  {}

  lemma EidMarkerFirst(m: Info, end: string)
    ensures PrintEid(m, end) != "" && PrintEid(m, end)[0] == 'e'
  {}

  // The last seven octets as they are sent: the terminator takes the place of the last one
  // in a message that fills the buffer.
  function WireEnd(m: Info): string
  {
    if |PrintInfo(m)| < BUFFER_SIZE then "1:y1:re" else "1:y1:r" + [NUL]
  }

  lemma OnTheWire(m: Info)
    requires |PrintInfo(m)| <= BUFFER_SIZE
    ensures Transmitted(BUFFER_SIZE, PrintInfo(m)) == Some(PrintTo(m, WireEnd(m)))
    ensures |PrintTo(m, WireEnd(m))| == |PrintInfo(m)|
  {
    hide PrintTo;
    if |PrintInfo(m)| == BUFFER_SIZE {
      OtherEnd(m, "1:y1:r", "e", [NUL]);
      assert "1:y1:r" + "e" == "1:y1:re";
    }
  }

  // What send_dtninfo puts on the wire, parse_dtn_message reads back, the address of the
  // sender put before the arguments of tcp and udp layers, exactly when every part of it is
  // readable and no marker shows up early, in the layers or the eid, to another effect than
  // the real one.
  lemma InfoRoundTrip(m: Info, from: string)
    requires |PrintInfo(m)| <= BUFFER_SIZE
    ensures Transmitted(BUFFER_SIZE, PrintInfo(m)).Some?
    ensures ReadInfo(Transmitted(BUFFER_SIZE, PrintInfo(m)).value, from) == Some(Received(m, from))
       <==> Readable(m) && Undisturbed(m, WireEnd(m))
  {
    hide *;
    OnTheWire(m);
    AnyEndRoundTrip(m, WireEnd(m), from);
  }

  lemma OtherEnd(m: Info, end: string, a: string, b: string)
    requires |a| == |b| == 1
    ensures |PrintTo(m, end + a)| == |PrintTo(m, end + b)| > 0
    ensures PrintTo(m, end + a)[..|PrintTo(m, end + a)| - 1] + b == PrintTo(m, end + b)
  {
    PrintToEnd(m, end, a);
    PrintToEnd(m, end, b);
  }

  lemma PrintToEnd(m: Info, end: string, a: string)
    ensures PrintTo(m, end + a) == PrintTo(m, end) + a
  {
    hide PrintFields, PrintLayers, Field;
    assert PrintTid(m.tid, end + a) == PrintTid(m.tid, end) + a;
    assert PrintNeighbours(m, end + a) == PrintNeighbours(m, end) + a;
    assert PrintGroups(m, end + a) == PrintGroups(m, end) + a;
    assert PrintEid(m, end + a) == PrintEid(m, end) + a;
  }

  // No marker shows up early when no layer holds it.
  lemma NoMarkerInLayers(ls: seq<Layer>)
    requires forall l | l in ls :: After(LayerText(l), "e3:eid").None?
    ensures After(SearchedTwice(ls), "e3:eid").None?
  {
    hide After, PrintLayers, LayerText;
    MarkerNowhere(ls);
    var s, t := SearchedTwice(ls), PrintLayers(ls);
    forall i: nat ensures !Occurs(s, "e3:eid", i) {
      if i + 6 <= |s| {
        var k := TextLengths(ls) + i;
        assert s[i..i + 6] == t[k..k + 6];
        assert !Occurs(t, "e3:eid", k);
      }
    }
    AfterNone(s, "e3:eid");
  }

  lemma {:induction false} MarkerNowhere(ls: seq<Layer>)
    requires forall l | l in ls :: After(LayerText(l), "e3:eid").None?
    ensures forall i: nat :: !Occurs(PrintLayers(ls), "e3:eid", i)
  {
    hide After, LayerText, Field;
    if ls != [] {
      MarkerNowhere(ls[1..]);
      AfterNone(LayerText(ls[0]), "e3:eid");
      var y := PrintLayers(ls[1..]);
      if ls[1..] != [] {
        LayerNotEmpty(ls[1]);
        NotThree(LayerText(ls[1]), PrintLayers(ls[2..]));
        assert ls[1..][1..] == ls[2..];
      }
      forall i: nat ensures !Occurs(PrintLayers(ls), "e3:eid", i) {
        MarkerNotIn(LayerText(ls[0]), y, i);
      }
    }
  }

  // No printed layer begins with what follows the first letter of the marker.
  lemma NotThree(t: string, y: string)
    requires |t| >= 6
    ensures IsDigit((Field(t) + y)[0]) && ((Field(t) + y)[0] == '3' ==> (Field(t) + y)[1] != ':')
  {
    var ds := Digits(|t|);
    assert ds[0] == (Field(t) + y)[0];
    if |ds| == 1 {
      assert |t| < 10 && ds == [DigitOf(|t|)];
    } else {
      assert ds[1] == (Field(t) + y)[1];
    }
  }

  lemma MarkerNotIn(t: string, y: string, i: nat)
    requires forall k: nat :: !Occurs(t, "e3:eid", k)
    requires forall k: nat :: !Occurs(y, "e3:eid", k)
    requires y == "" || (|y| >= 2 && IsDigit(y[0]) && (y[0] == '3' ==> y[1] != ':'))
    ensures !Occurs(Field(t) + y, "e3:eid", i)
  {
    hide Occurs;
    var m, d := "e3:eid", Digits(|t|) + ":";
    var s := d + (t + y);
    assert Field(t) + y == s;
    if i < |d| {
      assert s[i] == d[i];
      NoMatch(s, m, i, 0);
    } else {
      OccursInPart(d, t + y, m, i);
      MarkerNotAcross(t, y, i - |d|);
    }
  }

  lemma MarkerNotAcross(t: string, y: string, k: nat)
    requires forall i: nat :: !Occurs(t, "e3:eid", i)
    requires forall i: nat :: !Occurs(y, "e3:eid", i)
    requires y == "" || (|y| >= 2 && IsDigit(y[0]) && (y[0] == '3' ==> y[1] != ':'))
    ensures !Occurs(t + y, "e3:eid", k)
  {
    hide Occurs;
    var m := "e3:eid";
    OccursInPart(t, y, m, k);
    if k < |t| < k + 6 {
      var e := |t| - k;
      if e == 1 && y != "" && y[0] == '3' {
        NoMatch(t + y, m, k, 2);
      } else {
        NoMatch(t + y, m, k, e);
      }
    }
  }

  // An early marker with no eid behind it makes the whole message unreadable.
  lemma EarlyMarkerIsFatal(m: Info, from: string)
    requires |PrintInfo(m)| <= BUFFER_SIZE && m.layers != [] && forall l | l in m.layers :: CleanLayer(l)
    requires EarlyMarker(m).Some? && EidHere(EarlyText(m, "1:y1:re")).None?
    ensures ReadInfo(PrintInfo(m), from).None?
  {
    hide EidAt, PrintEid, CleanLayer, After, ShortLayers, EidHere, SearchedTwice, ReadInfo, PrintTo;
    InfoFits(m, "1:y1:re");
    ReadBehindLayers(m, "1:y1:re", from);
    NoEarlyEid(m, "1:y1:re");
  }

  lemma NoEarlyEid(m: Info, end: string)
    requires EarlyMarker(m).Some? && EidHere(EarlyText(m, end)).None?
    ensures EidAt(SearchedTwice(m.layers) + PrintEid(m, end)).None?
  {
    hide After, EidHere, GroupsAt, PrintEid, SearchedTwice;
    AfterExtends(SearchedTwice(m.layers), PrintEid(m, end), "e3:eid");
  }

  // Where no number begins, there is no eid.
  lemma NoNumberNoEid(p: string)
    requires p != "" && !IsSpace(p[0]) && !IsDigit(p[0]) && p[0] !in {'+', '-', ':'}
    ensures EidHere(p).None?
  {
    RunLengthIs(p, IsSpace, 0);
    assert p[0..] == p;
    RunLengthIs(p, IsDigit, 0);
  }

  // Such layers exist: three that end in the marker leave it early.
  lemma MarkerInLayersIsFatal(m: Info, from: string)
    requires |PrintInfo(m)| <= BUFFER_SIZE
    requires var l := Layer("x", [Arg("k", "e3:eid")]); m.layers == [l, l, l]
    ensures ReadInfo(PrintInfo(m), from).None?
  {
    hide PrintTo, PrintEid, ReadInfo, EidHere, PrintInfo;
    ThreeLayers(m.layers[0]);
    MarkerThenSemicolon();
    NoNumberNoEid(EarlyText(m, "1:y1:re"));
    EarlyMarkerIsFatal(m, from);
  }

  lemma MarkerThenSemicolon()
    ensures After("k=e3:eid;", "e3:eid") == Some(";")
  {
    AfterTooShort("k=", "e3:eid");
    UnborderedIf("e3:eid");
    AfterMarker("k=", "e3:eid", ";");
    assert "k=" + "e3:eid" + ";" == "k=e3:eid;";
  }

  lemma ThreeLayers(l: Layer)
    requires l == Layer("x", [Arg("k", "e3:eid")])
    ensures TextLengths([l, l, l]) == 48 && SearchedTwice([l, l, l]) == "k=e3:eid;"
    ensures CleanLayer(l) && ShortLayers([l, l, l])
  {
    hide Field, LayerText;
    OneSuchLayer(l);
    var f := "16:name=x;k=e3:eid;";
    assert [l, l, l][1..] == [l, l] && [l, l][1..] == [l] && [l][1..] == [];
    assert PrintLayers([l]) == f + "" && TextLengths([l]) == 16;
    assert PrintLayers([l, l]) == f + (f + "") && TextLengths([l, l]) == 32;
    assert PrintLayers([l, l, l]) == f + (f + (f + ""));
    assert (f + (f + (f + "")))[48..] == "k=e3:eid;";
  }

  lemma OneSuchLayer(l: Layer)
    requires l == Layer("x", [Arg("k", "e3:eid")])
    ensures |LayerText(l)| == 16 && Field(LayerText(l)) == "16:name=x;k=e3:eid;"
  {
    assert l.args[1..] == [];
    assert LayerText(l) == "name=x;k=e3:eid;";
    assert Digits(16) == "16" by {
      assert Digits(1) == "1";
    }
  }
}
