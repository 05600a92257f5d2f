/** parse_message: it looks for the marker of each field anywhere in the text and reads the
    number and the octets behind the first one. */
module KrpcParser {
  import opened Seqs
  import opened Text

  datatype Kind = IsReply | IsError | IsPing | IsFindNode | IsGetPeers | IsAnnouncePeer

  // What is read from a message; tid is None when the caller's buffer is left alone, and
  // want when it is set to -1.
  datatype Fields = Fields(kind: Kind, tid: Option<string>, id: string, info_hash: string, target: string,
                           token: string, nodes: string, nodes6: string, values: string, values6: string)
  datatype Want = Want(want4: bool, want6: bool)
  datatype Message = Message(fields: Fields, port: int, want: Option<Want>)

  // The lengths of the caller's buffers
  const TID_LEN: int := 16
  const TOKEN_LEN: int := 128
  const NODES_LEN: int := 256
  const NODES6_LEN: int := 1024
  const VALUES_LEN: int := 2048

  // A number below the limit, a colon, and that many octets: None if they are cut off, and
  // nothing if there is no such number
  function Counted(p: string, limit: int): (r: Option<string>)
    ensures r.Some? && r.value != "" ==> |r.value| < limit
  {
    var n := Strtol(p);
    if At(p, n.end) == ':' && 0 < n.value < limit then
      if n.end + 1 + n.value <= |p| then Some(p[n.end + 1..n.end + 1 + n.value]) else None
    else Some("")
  }

  function FieldOf(s: string, marker: string, limit: int): Option<string>
  {
    var p := After(s, marker);
    if p.None? then Some("") else Counted(p.value, limit)
  }

  function TidOf(s: string): Option<Option<string>>
  {
    var p := After(s, "1:t");
    if p.None? then Some(None)
    else
      var x := Counted(p.value, TID_LEN);
      if x.None? then None else Some(x)
  }

  function Zeroes(n: nat): (s: string)
    ensures |s| == n
  {
    if n == 0 then "" else [NUL] + Zeroes(n - 1)
  }

  // Twenty octets behind the marker
  function IdOf(s: string, marker: string): Option<string>
  {
    var p := After(s, marker);
    if p.None? then Some(Zeroes(20))
    else if |p.value| < 20 then None
    else Some(p.value[..20])
  }

  // A value that has the length l and fits the buffer is appended.
  function Appended(values: string, x: string, l: nat): string
  {
    if |x| == l && |values| + l <= VALUES_LEN then values + x else values
  }

  // The values loop: the octets left, and what is collected so far
  function ValuesLoop(s: string, values: string, values6: string): Option<(string, string)>
  {
    var n := Strtol(s);
    if At(s, n.end) != ':' || n.value <= 0 then Some((values, values6))
    else if n.end + 1 + n.value > |s| then None
    else
      var x := s[n.end + 1..n.end + 1 + n.value];
      ValuesLoop(s[n.end + 1 + n.value..], Appended(values, x, 6), Appended(values6, x, 18))
  }

  function ValuesOf(s: string): Option<(string, string)>
  {
    var p := After(s, "6:valuesl");
    if p.None? then Some(("", "")) else ValuesLoop(p.value, "", "")
  }

  // A number below 2^16 behind "porti", up to an 'e'
  function PortOf(s: string): (port: int)
    ensures 0 <= port < 0x10000
  {
    var p := After(s, "porti");
    if p.None? then 0
    else
      var n := Strtol(p.value);
      if At(p.value, n.end) == 'e' && 0 < n.value < 0x10000 then n.value else 0
  }

  // The want loop: strings of one to nine octets with their length before them
  function WantLoop(s: string, want: Want): Want
  {
    if !('0' < At(s, 0) <= '9') || At(s, 1) != ':' then want
    else
      var l := DigitValue(s[0]);
      if l + 2 >= |s| then want
      else
        var x := s[2..l + 2];
        WantLoop(s[l + 2..], Want(want.want4 || x == "n4", want.want6 || x == "n6"))
  }

  function WantOf(s: string): Option<Want>
  {
    var p := After(s, "4:wantl");
    if p.None? then None else Some(WantLoop(p.value, Want(false, false)))
  }

  // What the message is: the first of these that occurs, or none
  function KindOf(s: string): Option<Kind>
  {
    if After(s, "1:y1:r").Some? then Some(IsReply)
    else if After(s, "1:y1:e").Some? then Some(IsError)
    else if After(s, "1:y1:q").None? then None
    else if After(s, "1:q4:ping").Some? then Some(IsPing)
    else if After(s, "1:q9:find_node").Some? then Some(IsFindNode)
    else if After(s, "1:q9:get_peers").Some? then Some(IsGetPeers)
    else if After(s, "1:q13:announce_peer").Some? then Some(IsAnnouncePeer)
    else None
  }

  // None: the message is cut off, or of no known kind
  function Parse(s: string): Option<Fields>
  {
    var tid, id, info_hash, target := TidOf(s), IdOf(s, "2:id20:"), IdOf(s, "9:info_hash20:"), IdOf(s, "6:target20:");
    var token, nodes := FieldOf(s, "5:token", TOKEN_LEN), FieldOf(s, "5:nodes", NODES_LEN);
    var nodes6 := FieldOf(s, "6:nodes6", NODES6_LEN);
    var values, kind := ValuesOf(s), KindOf(s);
    if tid.None? || id.None? || info_hash.None? || target.None? || token.None? || nodes.None?
       || nodes6.None? || values.None? || kind.None? then None
    else Some(Fields(kind.value, tid.value, id.value, info_hash.value, target.value, token.value, nodes.value,
                     nodes6.value, values.value.0, values.value.1))
  }

  // parse_message
  function ParseAll(s: string): Option<Message>
  {
    var f := Parse(s);
    if f.None? then None else Some(Message(f.value, PortOf(s), WantOf(s)))
  }

  // ----- the parser with its index into the buffer -----

  method ReadCounted(buf: string, pos: nat, limit: int) returns (r: Option<string>)
    requires pos <= |buf|
    ensures r == Counted(buf[pos..], limit)
  {
    hide Strtol, At;
    var n := Strtol(buf[pos..]);
    var q := pos + n.end;
    if At(buf[pos..], n.end) == ':' && n.value > 0 && n.value < limit {
      if q + 1 + n.value > |buf| {
        return None;
      }
      assert buf[pos..][n.end + 1..n.end + 1 + n.value] == buf[q + 1..q + 1 + n.value];
      return Some(buf[q + 1..q + 1 + n.value]);
    }
    r := Some("");
  }

  method ReadField(buf: string, marker: string, limit: int) returns (r: Option<string>)
    ensures r == FieldOf(buf, marker, limit)
  {
    hide After, Counted;
    var p := MemMem(buf, marker);
    if p.None? {
      return Some("");
    }
    r := ReadCounted(buf, p.value + |marker|, limit);
  }

  method ReadTid(buf: string) returns (r: Option<Option<string>>)
    ensures r == TidOf(buf)
  {
    hide After, Counted;
    var p := MemMem(buf, "1:t");
    if p.None? {
      return Some(None);
    }
    var x := ReadCounted(buf, p.value + 3, TID_LEN);
    r := if x.None? then None else Some(x);
  }

  method ReadId(buf: string, marker: string) returns (r: Option<string>)
    ensures r == IdOf(buf, marker)
  {
    hide After;
    var p := MemMem(buf, marker);
    if p.None? {
      return Some(Zeroes(20));
    }
    var pos := p.value + |marker|;
    if pos + 20 > |buf| {
      return None;
    }
    assert buf[pos..][..20] == buf[pos..pos + 20];
    r := Some(buf[pos..pos + 20]);
  }

  // The index i grows with every value and never passes the end of the buffer.
  method ReadValues(buf: string) returns (r: Option<(string, string)>)
    ensures r == ValuesOf(buf)
  {
    hide After, Strtol, At, ValuesLoop, Appended;
    var p := MemMem(buf, "6:valuesl");
    if p.None? {
      return Some(("", ""));
    }
    var i := p.value + 9;
    var values, values6 := "", "";
    while true
      invariant i <= |buf| && ValuesOf(buf) == ValuesLoop(buf[i..], values, values6)
      decreases |buf| - i
    {
      ValuesStep(buf, i, values, values6);
      var n := Strtol(buf[i..]);
      var l := n.value;
      if At(buf[i..], n.end) != ':' || l <= 0 {
        return Some((values, values6));
      }
      var q := i + n.end;
      if q + 1 + l > |buf| {
        return None;
      }
      i := q + 1 + l;
      var x := buf[q + 1..i];
      values, values6 := Appended(values, x, 6), Appended(values6, x, 18);
    }
  }

  lemma ValuesStep(buf: string, i: nat, values: string, values6: string)
    requires i <= |buf|
    ensures
      var n := Strtol(buf[i..]);
      var q := i + n.end;
      ValuesLoop(buf[i..], values, values6) ==
      if At(buf[i..], n.end) != ':' || n.value <= 0 then Some((values, values6))
      else if q + 1 + n.value > |buf| then None
      else
        var x := buf[q + 1..q + 1 + n.value];
        ValuesLoop(buf[q + 1 + n.value..], Appended(values, x, 6), Appended(values6, x, 18))
  {
    hide Strtol, At, Appended;
    var n := Strtol(buf[i..]);
    var q := i + n.end;
    if n.value > 0 && q + 1 + n.value <= |buf| {
      assert buf[i..][n.end + 1..n.end + 1 + n.value] == buf[q + 1..q + 1 + n.value];
      assert buf[i..][n.end + 1 + n.value..] == buf[q + 1 + n.value..];
    }
  }

  method ReadPort(buf: string) returns (port: int)
    ensures port == PortOf(buf)
  {
    hide After, Strtol;
    var p := MemMem(buf, "porti");
    if p.None? {
      return 0;
    }
    var rest := buf[p.value + 5..];
    var n := Strtol(rest);
    port := if At(rest, n.end) == 'e' && n.value > 0 && n.value < 0x10000 then n.value else 0;
  }

  method ReadWant(buf: string) returns (r: Option<Want>)
    ensures r == WantOf(buf)
  {
    hide After, WantLoop;
    var p := MemMem(buf, "4:wantl");
    if p.None? {
      return None;
    }
    var i := p.value + 7;
    var want := Want(false, false);
    WantStep(buf, i, want);
    while i + 1 < |buf| && '0' < buf[i] <= '9' && buf[i + 1] == ':' && i + 2 + DigitValue(buf[i]) < |buf|
      invariant i <= |buf| && WantOf(buf) == Some(WantLoop(buf[i..], want))
      decreases |buf| - i
    {
      WantStep(buf, i, want);
      var l := DigitValue(buf[i]);
      if l == 2 && buf[i + 2..i + 4] == "n4" {
        want := want.(want4 := true);
      } else if l == 2 && buf[i + 2..i + 4] == "n6" {
        want := want.(want6 := true);
      }
      i := i + 2 + l;
    }
    WantStep(buf, i, want);
    r := Some(want);
  }

  lemma WantStep(buf: string, i: nat, want: Want)
    requires i <= |buf|
    ensures
      if i + 1 < |buf| && '0' < buf[i] <= '9' && buf[i + 1] == ':' && i + 2 + DigitValue(buf[i]) < |buf| then
        var l := DigitValue(buf[i]);
        WantLoop(buf[i..], want) == WantLoop(buf[i + 2 + l..],
          Want(want.want4 || (l == 2 && buf[i + 2..i + 4] == "n4"),
               want.want6 || (l == 2 && buf[i + 2..i + 4] == "n6")))
      else WantLoop(buf[i..], want) == want
  {
    var s := buf[i..];
    if i + 1 < |buf| && '0' < buf[i] <= '9' && buf[i + 1] == ':' {
      var l := DigitValue(buf[i]);
      if l + 2 < |s| {
        assert s[2..l + 2] == buf[i + 2..i + 2 + l] && s[l + 2..] == buf[i + 2 + l..];
      }
    }
  }

  method ReadKind(buf: string) returns (r: Option<Kind>)
    ensures r == KindOf(buf)
  {
    hide After;
    var p := MemMem(buf, "1:y1:r");
    if p.Some? { return Some(IsReply); }
    p := MemMem(buf, "1:y1:e");
    if p.Some? { return Some(IsError); }
    p := MemMem(buf, "1:y1:q");
    if p.None? { return None; }
    p := MemMem(buf, "1:q4:ping");
    if p.Some? { return Some(IsPing); }
    p := MemMem(buf, "1:q9:find_node");
    if p.Some? { return Some(IsFindNode); }
    p := MemMem(buf, "1:q9:get_peers");
    if p.Some? { return Some(IsGetPeers); }
    p := MemMem(buf, "1:q13:announce_peer");
    if p.Some? { return Some(IsAnnouncePeer); }
    r := None;
  }

  method ParseMessage(buf: string) returns (r: Option<Message>)
    ensures r == ParseAll(buf)
  {
    hide After, TidOf, IdOf, FieldOf, ValuesOf, PortOf, WantOf, KindOf;
    var tid := ReadTid(buf);
    if tid.None? { return None; }
    var id := ReadId(buf, "2:id20:");
    if id.None? { return None; }
    var info_hash := ReadId(buf, "9:info_hash20:");
    if info_hash.None? { return None; }
    var port := ReadPort(buf);
    var target := ReadId(buf, "6:target20:");
    if target.None? { return None; }
    var token := ReadField(buf, "5:token", TOKEN_LEN);
    if token.None? { return None; }
    var nodes := ReadField(buf, "5:nodes", NODES_LEN);
    if nodes.None? { return None; }
    var nodes6 := ReadField(buf, "6:nodes6", NODES6_LEN);
    if nodes6.None? { return None; }
    var values := ReadValues(buf);
    if values.None? { return None; }
    var want := ReadWant(buf);
    var kind := ReadKind(buf);
    if kind.None? { return None; }
    r := Some(Message(Fields(kind.value, tid.value, id.value, info_hash.value, target.value, token.value,
                             nodes.value, nodes6.value, values.value.0, values.value.1), port, want));
  }
}
