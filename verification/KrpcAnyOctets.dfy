/** Replies with any octets in their fields, colons included: a section is read back when its
    marker does not begin before its place. */
module KrpcAnyOctets {
  import opened Seqs
  import opened Text
  import opened Krpc
  import opened KrpcParser
  import opened KrpcRoundTrip

  // No occurrence of the marker begins in the prefix when the marker follows it.
  predicate First(prefix: string, marker: string)
    requires marker != ""
  {
    After(prefix + marker[..|marker| - 1], marker).None?
  }

  // ----- what is printed before each section -----

  function ToNodes(m: Reply): string
  {
    "d1:rd2:id20:" + m.id
  }

  function ToNodes6(m: Reply): string
  {
    ToNodes(m) + Section("5:nodes", m.nodes, "")
  }

  function ToToken(m: Reply): string
  {
    ToNodes6(m) + Section("6:nodes6", m.nodes6, "")
  }

  function ToValues(m: Reply): string
  {
    ToToken(m) + Section("5:token", m.token, "")
  }

  function ToTid(m: Reply): string
  {
    ToValues(m) + Krpc.ValuesText(m.items) + "e"
  }

  lemma PrintedBehind(m: Reply)
    ensures Print(m) == ToNodes(m) + Section("5:nodes", m.nodes, PrintNodes6(m))
    ensures Print(m) == ToNodes6(m) + Section("6:nodes6", m.nodes6, PrintToken(m))
    ensures Print(m) == ToToken(m) + Section("5:token", m.token, PrintValues(m))
    ensures Print(m) == ToValues(m) + PrintValues(m)
    ensures Print(m) == ToTid(m) + "1:t" + (Field(m.tid) + PrintEnd(m))
  {
    hide Section, Krpc.ValuesText, PrintTid, PrintValues, Field, PrintEnd;
    PrintValuesIs(m);
    SectionIs("5:token", m.token, PrintValues(m));
    SectionIs("6:nodes6", m.nodes6, PrintToken(m));
    SectionIs("5:nodes", m.nodes, PrintNodes6(m));
    TidText(m);
  }

  lemma TidText(m: Reply)
    ensures PrintTid(m) == "e" + "1:t" + (Field(m.tid) + PrintEnd(m))
  {
    hide Field, PrintEnd;
  }

  // ----- section by section -----

  lemma SectionReads(prefix: string, name: string, x: string, rest: string, limit: int)
    requires name != "" && First(prefix, name) && 0 < |x| < limit <= LONG_MAX
    ensures FieldOf(prefix + Section(name, x, rest), name, limit) == Some(x)
  {
    hide After, Field, Counted;
    AfterMarkerAt(prefix, name, Field(x) + rest);
    assert prefix + Section(name, x, rest) == prefix + name + (Field(x) + rest);
    CountedField(x, rest, limit);
  }

  lemma NodesReads(m: Reply)
    requires 0 < |m.nodes| < 256 && First(ToNodes(m), "5:nodes")
    ensures FieldOf(Print(m), "5:nodes", NODES_LEN) == Some(m.nodes)
  {
    hide First, FieldOf, Section, ToNodes, PrintNodes6, Print;
    PrintedBehind(m);
    SectionReads(ToNodes(m), "5:nodes", m.nodes, PrintNodes6(m), NODES_LEN);
  }

  lemma Nodes6Reads(m: Reply)
    requires 0 < |m.nodes6| < 1024 && First(ToNodes6(m), "6:nodes6")
    ensures FieldOf(Print(m), "6:nodes6", NODES6_LEN) == Some(m.nodes6)
  {
    hide First, FieldOf, Section, ToNodes6, PrintToken, Print;
    PrintedBehind(m);
    SectionReads(ToNodes6(m), "6:nodes6", m.nodes6, PrintToken(m), NODES6_LEN);
  }

  lemma TokenReads(m: Reply)
    requires 0 < |m.token| < 128 && First(ToToken(m), "5:token")
    ensures FieldOf(Print(m), "5:token", TOKEN_LEN) == Some(m.token)
  {
    hide First, FieldOf, Section, ToToken, PrintValues, Print;
    PrintedBehind(m);
    SectionReads(ToToken(m), "5:token", m.token, PrintValues(m), TOKEN_LEN);
  }

  lemma TidReads(m: Reply)
    requires 0 < |m.tid| < 16 && First(ToTid(m), "1:t")
    ensures TidOf(Print(m)) == Some(Some(m.tid))
  {
    hide After, Field, Counted, ToTid, PrintEnd, Print;
    PrintedBehind(m);
    AfterMarkerAt(ToTid(m), "1:t", Field(m.tid) + PrintEnd(m));
    CountedField(m.tid, PrintEnd(m), KrpcParser.TID_LEN);
  }

  // A field that is too long for the caller's buffer is read as empty.
  lemma LongFieldsAreLost(m: Reply)
    ensures 256 <= |m.nodes| <= LONG_MAX && First(ToNodes(m), "5:nodes") ==>
      FieldOf(Print(m), "5:nodes", NODES_LEN) == Some("")
    ensures 1024 <= |m.nodes6| <= LONG_MAX && First(ToNodes6(m), "6:nodes6") ==>
      FieldOf(Print(m), "6:nodes6", NODES6_LEN) == Some("")
    ensures 128 <= |m.token| <= LONG_MAX && First(ToToken(m), "5:token") ==>
      FieldOf(Print(m), "5:token", TOKEN_LEN) == Some("")
    ensures 16 <= |m.tid| <= LONG_MAX && First(ToTid(m), "1:t") ==> TidOf(Print(m)) == Some(Some(""))
  {
    hide First, FieldOf, Section, ToNodes, ToNodes6, ToToken, ToTid, PrintNodes6, PrintToken, PrintValues, Print,
         After, Field, Counted, PrintEnd;
    PrintedBehind(m);
    if 256 <= |m.nodes| <= LONG_MAX && First(ToNodes(m), "5:nodes") {
      SectionLost(ToNodes(m), "5:nodes", m.nodes, PrintNodes6(m), NODES_LEN);
    }
    if 1024 <= |m.nodes6| <= LONG_MAX && First(ToNodes6(m), "6:nodes6") {
      SectionLost(ToNodes6(m), "6:nodes6", m.nodes6, PrintToken(m), NODES6_LEN);
    }
    if 128 <= |m.token| <= LONG_MAX && First(ToToken(m), "5:token") {
      SectionLost(ToToken(m), "5:token", m.token, PrintValues(m), TOKEN_LEN);
    }
    if 16 <= |m.tid| <= LONG_MAX && First(ToTid(m), "1:t") {
      MetFirst(ToTid(m), "1:t", Field(m.tid) + PrintEnd(m));
      TooLong(m.tid, PrintEnd(m), KrpcParser.TID_LEN);
    }
  }

  lemma MetFirst(prefix: string, marker: string, rest: string)
    requires marker != "" && First(prefix, marker)
    ensures After(prefix + marker + rest, marker) == Some(rest)
  {
    hide After;
    AfterMarkerAt(prefix, marker, rest);
  }

  lemma TooLong(x: string, rest: string, limit: int)
    requires limit <= |x| <= LONG_MAX
    ensures Counted(Field(x) + rest, limit) == Some("")
  {
    hide Strtol, Field;
    StrtolOfField(x, rest);
  }

  lemma SectionLost(prefix: string, name: string, x: string, rest: string, limit: int)
    requires name != "" && First(prefix, name) && 0 < limit <= |x| <= LONG_MAX
    ensures FieldOf(prefix + Section(name, x, rest), name, limit) == Some("")
  {
    hide After, Field, Counted;
    AfterMarkerAt(prefix, name, Field(x) + rest);
    assert prefix + Section(name, x, rest) == prefix + name + (Field(x) + rest);
    TooLong(x, rest, limit);
  }

  lemma ValuesReads(m: Reply)
    requires m.items.Some? && |m.items.value| <= 113 && forall x | x in m.items.value :: ItemSize(x)
    requires First(ToValues(m), "6:valuesl")
    ensures ValuesOf(Print(m)) == Some((Joined(ItemsOf(m), 6), Joined(ItemsOf(m), 18)))
  {
    hide After, First, ItemSize, ItemsText, ToValues, Print, ValuesLoop, Joined;
    var items := m.items.value;
    ValuesBehind(m);
    ValuesLooped(items, m, "", "");
    assert "" + Joined(items, 6) == Joined(items, 6) && "" + Joined(items, 18) == Joined(items, 18);
  }

  lemma ValuesBehind(m: Reply)
    requires m.items.Some? && First(ToValues(m), "6:valuesl")
    ensures After(Print(m), "6:valuesl") == Some(ItemsText(m.items.value, m))
  {
    hide After, ItemsText, ToValues, Print, PrintValues;
    PrintedBehind(m);
    ItemsBehind(m);
    AfterMarkerAt(ToValues(m), "6:valuesl", ItemsText(m.items.value, m));
    assert ToValues(m) + ("6:valuesl" + ItemsText(m.items.value, m))
        == ToValues(m) + "6:valuesl" + ItemsText(m.items.value, m);
  }

  lemma ItemsBehind(m: Reply)
    requires m.items.Some?
    ensures PrintValues(m) == "6:valuesl" + ItemsText(m.items.value, m)
  {
    hide PrintTid, PrintFields;
  }

  // ----- the whole reply -----

  // Every marker is found where its section is, and nowhere if that is left out.
  predicate Unmarked(m: Reply)
  {
    && (if m.nodes != "" then First(ToNodes(m), "5:nodes") else After(Print(m), "5:nodes").None?)
    && (if m.nodes6 != "" then First(ToNodes6(m), "6:nodes6") else After(Print(m), "6:nodes6").None?)
    && (if m.token != "" then First(ToToken(m), "5:token") else After(Print(m), "5:token").None?)
    && (if m.items.Some? then First(ToValues(m), "6:valuesl") else After(Print(m), "6:valuesl").None?)
    && First(ToTid(m), "1:t")
    && After(Print(m), "9:info_hash20:").None? && After(Print(m), "6:target20:").None?
  }

  // Whatever octets a reply holds, it is read back whole when it holds no marker early.
  lemma AnyOctetsRoundTrip(m: Reply)
    requires SizesOk(m) && Unmarked(m)
    ensures Transmitted(BUFFER_SIZE, Print(m)) == Some(Print(m))
    ensures Parse(Print(m)) == Some(Expected(m))
  {
    hide After, Print, TidOf, KindOf, Transmitted, Zeroes, Joined, Counted, First, ValuesLoop,
         ToNodes, ToNodes6, ToToken, ToValues, ToTid;
    ReplyFits(m);
    IdRead(m);
    TidReads(m);
    if m.nodes != "" {
      NodesReads(m);
    }
    if m.nodes6 != "" {
      Nodes6Reads(m);
    }
    if m.token != "" {
      TokenReads(m);
    }
    if m.items.Some? {
      ValuesReads(m);
    } else {
      NoneJoined();
    }
    KindRead(m);
  }

  lemma NoneJoined()
    ensures Joined([], 6) == "" && Joined([], 18) == ""
  {}
}
