/** What parse_message reads from what send_nodes_peers prints.  The markers it looks for
    may also lie across the length and the first octets of some other field. */
module KrpcRoundTrip {
  import opened Seqs
  import opened Text
  import opened Krpc
  import opened KrpcParser

  // ----- what a node sends -----

  // A peer: 4 or 16 octets of address, 2 of port
  predicate ItemSize(x: string)
  {
    |x| == 6 || |x| == 18
  }

  predicate ItemOk(x: string)
  {
    ItemSize(x) && ':' !in x
  }

  // Up to eight records of 26 and 38 octets, an 8-octet token if any, up to 50 peers
  predicate SizesOk(m: Reply)
  {
    && |m.id| == 20 && |m.nodes| % 26 == 0 && |m.nodes| <= 208 && |m.nodes6| % 38 == 0 && |m.nodes6| <= 304
    && (m.token == "" || |m.token| == 8) && 0 < |m.tid| < 16 && (m.v.Some? ==> |m.v.value| == 4)
    && (m.items.Some? ==> |m.items.value| <= MAX_SERVED && forall x | x in m.items.value :: ItemSize(x))
  }

  predicate NoColons(m: Reply)
  {
    && ':' !in m.id && ':' !in m.nodes && ':' !in m.nodes6 && ':' !in m.token && ':' !in m.tid
    && (m.v.Some? ==> ':' !in m.v.value)
  }

  predicate Sendable(m: Reply)
  {
    SizesOk(m) && NoColons(m) && ItemsOk(m)
  }

  predicate ItemsOk(m: Reply)
  {
    m.items.Some? ==> forall i | i in m.items.value :: ItemOk(i)
  }

  // ----- the message always fits -----

  lemma {:induction false} ItemsLength(items: seq<string>)
    requires forall x | x in items :: ItemSize(x)
    ensures |PrintFields(items)| <= 21 * |items|
  {
    if items != [] {
      ItemsLength(items[1..]);
      assert ItemSize(items[0]);
      DigitsLength(|items[0]|);
    }
  }

  lemma SectionLength(name: string, x: string, rest: string)
    requires |x| < 1000
    ensures |Section(name, x, rest)| <= |name| + 4 + |x| + |rest|
    ensures |x| < 10 ==> |Section(name, x, rest)| <= |name| + 2 + |x| + |rest|
  {
    DigitsLength(|x|);
  }

  lemma ReplyFits(m: Reply)
    requires SizesOk(m)
    ensures |Print(m)| <= 1682 < BUFFER_SIZE
    ensures Transmitted(BUFFER_SIZE, Print(m)) == Some(Print(m))
  {
    hide Section, PrintFields, Digits;
    DigitsLength(|m.tid|);
    if m.items.Some? {
      ItemsLength(m.items.value);
    }
    SectionLength("5:token", m.token, PrintValues(m));
    SectionLength("6:nodes6", m.nodes6, PrintToken(m));
    SectionLength("5:nodes", m.nodes, PrintNodes6(m));
  }

  // ----- looking for a marker a:b -----

  function Marker(a: char, b: string): string
  {
    [a] + (":" + b)
  }

  function LastDigit(n: nat): char
  {
    DigitOf(n % 10)
  }

  // The marker lies across the length of y and the beginning of y.
  predicate Clash(y: string, rest: string, a: char, b: string)
  {
    LastDigit(|y|) == a && StartsWith(y + rest, b)
  }

  lemma DigitsEnd(x: string, n: nat, a: char)
    ensures EndsWith(x + Digits(n), [a]) <==> LastDigit(n) == a
  {
    var s := x + Digits(n);
    assert s[|s| - 1..] == [s[|s| - 1]];
  }

  lemma NoColonIn(n: nat)
    ensures ':' !in Digits(n)
  {}

  // Past the length of y
  lemma FieldAfter(x: string, y: string, rest: string, a: char, b: string)
    requires ':' !in x && a != ':'
    ensures After(x + (Field(y) + rest), Marker(a, b)) ==
      if Clash(y, rest, a, b) then Some((y + rest)[|b|..]) else After(y + rest, Marker(a, b))
  {
    hide After, Digits;
    NoColonIn(|y|);
    DigitsEnd(x, |y|, a);
    var s := x + Digits(|y|);
    assert x + (Field(y) + rest) == s + ":" + (y + rest);
    assert Marker(a, b) == [a] + ":" + b;
    AfterColon(s, y + rest, [a], b);
  }

  // Past the name h:key of a section
  lemma NameAfter(x: string, h: char, key: string, rest: string, a: char, b: string)
    requires ':' !in x && a != ':' && h != ':'
    ensures After(x + ([h] + (":" + (key + rest))), Marker(a, b)) ==
      if h == a && StartsWith(key + rest, b) then Some((key + rest)[|b|..]) else After(key + rest, Marker(a, b))
  {
    hide After;
    var s := x + [h];
    assert x + ([h] + (":" + (key + rest))) == s + ":" + (key + rest);
    assert Marker(a, b) == [a] + ":" + b;
    assert s[|s| - 1..] == [h];
    AfterColon(s, key + rest, [a], b);
  }

  // What is left before the rest when a section has been passed
  function Before(x: string, y: string): string
  {
    if y == "" then x else y
  }

  lemma SectionPassed(x: string, h: char, key: string, y: string, rest: string, a: char, b: string)
    requires ':' !in x && ':' !in key && a != ':' && h != ':'
    requires y != "" ==> !Clash(y, rest, a, b) && !(h == a && StartsWith(key + (Field(y) + rest), b))
    ensures After(x + Section(Marker(h, key), y, rest), Marker(a, b)) == After(Before(x, y) + rest, Marker(a, b))
  {
    hide After, Field, Clash, Marker;
    if y != "" {
      NamedSection(h, key, y, rest);
      NameAfter(x, h, key, Field(y) + rest, a, b);
      FieldAfter(key, y, rest, a, b);
    }
  }

  lemma NamedSection(h: char, key: string, y: string, rest: string)
    requires y != ""
    ensures Section(Marker(h, key), y, rest) == [h] + (":" + (key + (Field(y) + rest)))
  {
    hide Field;
  }

  lemma SectionFound(x: string, a: char, b: string, y: string, rest: string)
    requires ':' !in x && a != ':' && y != ""
    ensures After(x + Section(Marker(a, b), y, rest), Marker(a, b)) == Some(Field(y) + rest)
  {
    hide After, Field, Marker;
    NamedSection(a, b, y, rest);
    NameAfter(x, a, b, Field(y) + rest, a, b);
    assert (b + (Field(y) + rest))[|b|..] == Field(y) + rest;
    assert (b + (Field(y) + rest))[..|b|] == b;
  }

  // ----- from section to section -----

  // The first letters of all markers of fields
  predicate Word(b: string)
  {
    b != "" && (b[0] in {'t', 'i', 'n'} || (|b| > 1 && b[0] == 'v' && b[1] == 'a'))
  }

  predicate Count(a: char)
  {
    a in {'1', '2', '5', '6', '9'}
  }

  lemma NotWord(s: string, b: string)
    requires Word(b) && s != "" && s[0] in {'v', 'y', 'r'} && (s[0] == 'v' ==> |s| > 1 && s[1] == '4')
    ensures !StartsWith(s, b)
  {
    if |b| <= |s| {
      assert s[..|b|][0] == s[0];
      if |b| > 1 {
        assert s[..|b|][1] == s[1];
      }
    }
  }

  lemma EndsInNone(x: string, a: char, b: string)
    requires ':' !in x && Count(a) && Word(b)
    ensures After(x + "1:y1:re", Marker(a, b)).None?
  {
    hide After, Word;
    NameAfter(x, '1', "y1", ":re", a, b);
    assert x + "1:y1:re" == x + (['1'] + (":" + ("y1" + ":re")));
    NotWord("y1" + ":re", b);
    assert "y1" + ":re" == "y1" + ":" + "re";
    AfterColon("y1", "re", [a], b);
    NotWord("re", b);
    assert Marker(a, b) == [a] + ":" + b && |b| > 0 by {
      WordNotEmpty(b);
    }
    AfterTooShort("re", Marker(a, b));
  }

  lemma WordNotEmpty(b: string)
    requires Word(b)
    ensures b != ""
  {}

  lemma EndPassed(x: string, m: Reply, a: char, b: string)
    requires ':' !in x && Count(a) && Word(b) && (m.v.Some? ==> ':' !in m.v.value)
    ensures After(x + PrintEnd(m), Marker(a, b)).None?
  {
    hide After, Word;
    if m.v.Some? {
      var rest := m.v.value + "1:y1:re";
      assert x + PrintEnd(m) == x + (['1'] + (":" + ("v4" + (":" + rest))));
      NameAfter(x, '1', "v4", ":" + rest, a, b);
      NotWord("v4" + (":" + rest), b);
      assert "v4" + (":" + rest) == "v4" + ":" + rest;
      assert Marker(a, b) == [a] + ":" + b;
      AfterColon("v4", rest, [a], b);
      assert "v4"[1..] == ['4'];
      EndsInNone(m.v.value, a, b);
    } else {
      assert PrintEnd(m) == "1:y1:re";
      EndsInNone(x, a, b);
    }
  }

  // What a search finds that comes to the transaction id: maybe something in the id
  function InTid(m: Reply, a: char, b: string): Option<string>
  {
    if Clash(m.tid, PrintEnd(m), a, b) then Some((m.tid + PrintEnd(m))[|b|..]) else None
  }

  lemma TidPassed(x: string, m: Reply, a: char, b: string)
    requires ':' !in x && Count(a) && Word(b) && NoColons(m) && !(a == '1' && b[0] == 't')
    ensures After(x + PrintTid(m), Marker(a, b)) == InTid(m, a, b)
  {
    hide After, Field, Clash, Marker, PrintEnd;
    var rest := Field(m.tid) + PrintEnd(m);
    assert x + PrintTid(m) == (x + "e") + (['1'] + (":" + ("t" + rest)));
    NameAfter(x + "e", '1', "t", rest, a, b);
    if |b| <= |"t" + rest| {
      assert ("t" + rest)[..|b|][0] == 't';
    }
    FieldAfter("t", m.tid, PrintEnd(m), a, b);
    EndPassed(m.tid, m, a, b);
  }

  lemma TidFound(x: string, m: Reply)
    requires ':' !in x
    ensures After(x + PrintTid(m), Marker('1', "t")) == Some(Field(m.tid) + PrintEnd(m))
  {
    hide After, Field, PrintEnd;
    var rest := Field(m.tid) + PrintEnd(m);
    assert x + PrintTid(m) == (x + "e") + (['1'] + (":" + ("t" + rest)));
    NameAfter(x + "e", '1', "t", rest, '1', "t");
    assert ("t" + rest)[1..] == rest;
  }

  // The values that are printed behind the marker
  function ItemsText(items: seq<string>, m: Reply): string
  {
    PrintFields(items) + ("e" + PrintTid(m))
  }

  predicate ItemsClear(items: seq<string>, m: Reply, a: char, b: string)
  {
    items != [] ==> !Clash(items[0], ItemsText(items[1..], m), a, b) && ItemsClear(items[1..], m, a, b)
  }

  lemma {:induction false} ItemsPassed(x: string, items: seq<string>, m: Reply, a: char, b: string)
    requires ':' !in x && (forall i | i in items :: ItemOk(i)) && ItemsClear(items, m, a, b)
    requires Count(a) && Word(b) && NoColons(m) && !(a == '1' && b[0] == 't')
    ensures After(x + ItemsText(items, m), Marker(a, b)) == InTid(m, a, b)
    decreases |items|
  {
    hide After, Field, Clash, Marker, InTid, PrintTid, NoColons, Word;
    if items == [] {
      assert x + ItemsText(items, m) == (x + "e") + PrintTid(m);
      TidPassed(x + "e", m, a, b);
    } else {
      assert ItemOk(items[0]);
      ItemsTextSplit(items, m);
      FieldAfter(x, items[0], ItemsText(items[1..], m), a, b);
      ItemsPassed(items[0], items[1..], m, a, b);
    }
  }

  lemma ItemsTextSplit(items: seq<string>, m: Reply)
    requires items != []
    ensures ItemsText(items, m) == Field(items[0]) + ItemsText(items[1..], m)
  {
    hide Field, PrintTid;
  }

  lemma {:induction false} ItemsFoundTid(x: string, items: seq<string>, m: Reply)
    requires ':' !in x && forall i | i in items :: ItemOk(i)
    ensures After(x + ItemsText(items, m), Marker('1', "t")) == Some(Field(m.tid) + PrintEnd(m))
    decreases |items|
  {
    hide After, Field, Marker, PrintTid, PrintEnd;
    if items == [] {
      assert x + ItemsText(items, m) == (x + "e") + PrintTid(m);
      TidFound(x + "e", m);
    } else {
      assert ItemOk(items[0]);
      ItemsTextSplit(items, m);
      FieldAfter(x, items[0], ItemsText(items[1..], m), '1', "t");
      ItemsFoundTid(items[0], items[1..], m);
    }
  }

  lemma ValuesText(x: string, m: Reply)
    requires m.items.Some?
    ensures x + PrintValues(m) == x + (['6'] + (":" + ("valuesl" + ItemsText(m.items.value, m))))
  {
    hide PrintTid, PrintFields;
  }

  lemma ValuesPassed(x: string, m: Reply, a: char, b: string)
    requires ':' !in x && ItemsOk(m) && (m.items.Some? ==> ItemsClear(m.items.value, m, a, b))
    requires Count(a) && Word(b) && NoColons(m) && !(a == '1' && b[0] == 't') && !(a == '6' && b[0] == 'v')
    ensures After(x + PrintValues(m), Marker(a, b)) == InTid(m, a, b)
  {
    hide After, Clash, Marker, InTid, PrintTid, NoColons, ItemsText, ItemsClear;
    if m.items.Some? {
      var rest := ItemsText(m.items.value, m);
      ValuesText(x, m);
      NameAfter(x, '6', "valuesl", rest, a, b);
      assert |b| <= |"valuesl" + rest| ==> ("valuesl" + rest)[..|b|][0] == 'v';
      ItemsPassed("valuesl", m.items.value, m, a, b);
    } else {
      assert PrintValues(m) == PrintTid(m);
      TidPassed(x, m, a, b);
    }
  }

  lemma ValuesFound(x: string, m: Reply)
    requires ':' !in x && m.items.Some?
    ensures After(x + PrintValues(m), Marker('6', "valuesl")) == Some(ItemsText(m.items.value, m))
  {
    hide After, Marker, PrintTid, ItemsText;
    var rest := ItemsText(m.items.value, m);
    ValuesText(x, m);
    NameAfter(x, '6', "valuesl", rest, '6', "valuesl");
    assert ("valuesl" + rest)[7..] == rest;
  }

  lemma TidFoundInValues(x: string, m: Reply)
    requires ':' !in x && ItemsOk(m)
    ensures After(x + PrintValues(m), Marker('1', "t")) == Some(Field(m.tid) + PrintEnd(m))
  {
    hide After, Field, Marker, PrintTid, ItemsText, PrintEnd;
    if m.items.Some? {
      ValuesText(x, m);
      NameAfter(x, '6', "valuesl", ItemsText(m.items.value, m), '1', "t");
      ItemsFoundTid("valuesl", m.items.value, m);
    } else {
      assert PrintValues(m) == PrintTid(m);
      TidFound(x, m);
    }
  }

  lemma OtherName(key: string, rest: string, b: string)
    requires key != "" && b != "" && key[0] != b[0]
    ensures !StartsWith(key + rest, b)
  {
    if |b| <= |key + rest| {
      assert (key + rest)[..|b|][0] == key[0];
    }
  }

  lemma TokenPassed(x: string, m: Reply, a: char, b: string)
    requires ':' !in x && a != ':' && b != ""
    requires m.token != "" ==> !Clash(m.token, PrintValues(m), a, b) && !(a == '5' && b[0] == 't')
    ensures After(x + PrintToken(m), Marker(a, b)) == After(Before(x, m.token) + PrintValues(m), Marker(a, b))
  {
    hide After, Clash, Field, PrintValues;
    if m.token != "" && a == '5' {
      OtherName("token", Field(m.token) + PrintValues(m), b);
    }
    assert "5:token" == Marker('5', "token");
    SectionPassed(x, '5', "token", m.token, PrintValues(m), a, b);
  }

  lemma Nodes6Passed(x: string, m: Reply, a: char, b: string)
    requires ':' !in x && a != ':' && b != ""
    requires m.nodes6 != "" ==> !Clash(m.nodes6, PrintToken(m), a, b) && !(a == '6' && b[0] == 'n')
    ensures After(x + PrintNodes6(m), Marker(a, b)) == After(Before(x, m.nodes6) + PrintToken(m), Marker(a, b))
  {
    hide After, Clash, Field, PrintToken;
    if m.nodes6 != "" && a == '6' {
      OtherName("nodes6", Field(m.nodes6) + PrintToken(m), b);
    }
    assert "6:nodes6" == Marker('6', "nodes6");
    SectionPassed(x, '6', "nodes6", m.nodes6, PrintToken(m), a, b);
  }

  lemma NodesPassed(x: string, m: Reply, a: char, b: string)
    requires ':' !in x && a != ':' && b != ""
    requires m.nodes != "" ==> !Clash(m.nodes, PrintNodes6(m), a, b) && !(a == '5' && b[0] == 'n')
    ensures After(x + PrintNodes(m), Marker(a, b)) == After(Before(x, m.nodes) + PrintNodes6(m), Marker(a, b))
  {
    hide After, Clash, Field, PrintNodes6;
    if m.nodes != "" && a == '5' {
      OtherName("nodes", Field(m.nodes) + PrintNodes6(m), b);
    }
    assert "5:nodes" == Marker('5', "nodes");
    SectionPassed(x, '5', "nodes", m.nodes, PrintNodes6(m), a, b);
  }

  lemma HeadPassed(m: Reply, a: char, b: string)
    requires Count(a) && a != '2' && Word(b)
    ensures After(Print(m), Marker(a, b)) == After(m.id + PrintNodes(m), Marker(a, b))
  {
    hide After, PrintNodes, Word;
    var rest := m.id + PrintNodes(m);
    assert Marker(a, b) == [a] + ":" + b;
    assert Print(m) == "d1" + ":" + ("rd2" + (":" + ("id20" + (":" + rest))));
    AfterColon("d1", "rd2" + (":" + ("id20" + (":" + rest))), [a], b);
    NotWord("rd2" + (":" + ("id20" + (":" + rest))), b);
    assert "rd2" + (":" + ("id20" + (":" + rest))) == "rd2" + ":" + ("id20" + (":" + rest));
    AfterColon("rd2", "id20" + (":" + rest), [a], b);
    assert "rd2"[2..] == ['2'];
    assert "id20" + (":" + rest) == "id20" + ":" + rest;
    AfterColon("id20", rest, [a], b);
    assert "id20"[3..] == ['0'];
  }

  lemma IdFound(m: Reply)
    ensures After(Print(m), Marker('2', "id20:")) == Some(m.id + PrintNodes(m))
  {
    hide After, PrintNodes;
    var rest := m.id + PrintNodes(m);
    assert Print(m) == "d1" + ":" + ("rd2" + (":" + ("id20:" + rest)));
    assert Marker('2', "id20:") == ['2'] + ":" + "id20:";
    AfterColon("d1", "rd2" + (":" + ("id20:" + rest)), ['2'], "id20:");
    assert "d1"[1..] == ['1'];
    assert "rd2" + (":" + ("id20:" + rest)) == "rd2" + ":" + ("id20:" + rest);
    AfterColon("rd2", "id20:" + rest, ['2'], "id20:");
    assert "rd2"[2..] == ['2'];
    assert ("id20:" + rest)[..5] == "id20:" && ("id20:" + rest)[5..] == rest;
  }

  // ----- the markers one by one -----

  lemma EvenClear(y: string, rest: string, a: char, b: string)
    requires |y| % 2 == 0 && a in {'1', '5', '9'}
    ensures !Clash(y, rest, a, b)
  {
    assert LastDigit(|y|) == DigitOf(|y| % 10);
  }

  lemma {:induction false} EvenItemsClear(items: seq<string>, m: Reply, a: char, b: string)
    requires (forall i | i in items :: ItemOk(i)) && a in {'1', '5', '9'}
    ensures ItemsClear(items, m, a, b)
  {
    hide Clash, ItemsText;
    if items != [] {
      assert ItemOk(items[0]);
      EvenClear(items[0], ItemsText(items[1..], m), a, b);
      EvenItemsClear(items[1..], m, a, b);
    }
  }

  // What Sendable says, without the numbers
  lemma Even(m: Reply)
    requires Sendable(m)
    ensures |m.nodes| % 2 == 0 && |m.nodes6| % 2 == 0 && |m.token| % 2 == 0
    ensures ItemsOk(m) && NoColons(m) && ':' !in m.id && ':' !in m.nodes && ':' !in m.nodes6 && ':' !in m.token
    ensures |m.token| % 10 != 6 && |m.tid| < 16
  {}

  // The sections have even lengths: no marker with an odd number lies across them.
  lemma OddPassed(m: Reply, a: char, b: string)
    requires Sendable(m) && a in {'1', '5', '9'} && Word(b) && !(a == '1' && b[0] == 't')
    requires a == '5' ==> (b[0] == 'n' ==> m.nodes == "") && (b[0] == 't' ==> m.token == "")
    ensures After(Print(m), Marker(a, b)) == InTid(m, a, b)
  {
    hide After, Clash, Word, NoColons, ItemOk, InTid, PrintNodes,
         PrintNodes6, PrintToken, PrintValues, Print, Sendable, Marker, ItemsClear;
    Even(m);
    WordNotEmpty(b);
    HeadPassed(m, a, b);
    EvenClear(m.nodes, PrintNodes6(m), a, b);
    NodesPassed(m.id, m, a, b);
    EvenClear(m.nodes6, PrintToken(m), a, b);
    Nodes6Passed(Before(m.id, m.nodes), m, a, b);
    EvenClear(m.token, PrintValues(m), a, b);
    TokenPassed(Before(Before(m.id, m.nodes), m.nodes6), m, a, b);
    if m.items.Some? {
      EvenItemsClear(m.items.value, m, a, b);
    }
    ValuesPassed(Before(Before(Before(m.id, m.nodes), m.nodes6), m.token), m, a, b);
  }

  lemma TidRead(m: Reply)
    requires Sendable(m)
    ensures After(Print(m), "1:t") == Some(Field(m.tid) + PrintEnd(m))
  {
    hide After, Clash, NoColons, ItemOk, PrintNodes, PrintNodes6,
         PrintToken, PrintValues, Print, Sendable, PrintEnd, Field;
    Even(m);
    assert Marker('1', "t") == "1:t";
    HeadPassed(m, '1', "t");
    EvenClear(m.nodes, PrintNodes6(m), '1', "t");
    NodesPassed(m.id, m, '1', "t");
    EvenClear(m.nodes6, PrintToken(m), '1', "t");
    Nodes6Passed(Before(m.id, m.nodes), m, '1', "t");
    EvenClear(m.token, PrintValues(m), '1', "t");
    TokenPassed(Before(Before(m.id, m.nodes), m.nodes6), m, '1', "t");
    TidFoundInValues(Before(Before(Before(m.id, m.nodes), m.nodes6), m.token), m);
  }

  lemma NodesRead(m: Reply)
    requires Sendable(m)
    ensures After(Print(m), "5:nodes") ==
      if m.nodes != "" then Some(Field(m.nodes) + PrintNodes6(m)) else InTid(m, '5', "nodes")
  {
    hide After, NoColons, PrintNodes6, InTid, Sendable, Field, Print;
    Even(m);
    assert Marker('5', "nodes") == "5:nodes";
    if m.nodes != "" {
      HeadPassed(m, '5', "nodes");
      SectionFound(m.id, '5', "nodes", m.nodes, PrintNodes6(m));
    } else {
      OddPassed(m, '5', "nodes");
    }
  }

  lemma TokenRead(m: Reply)
    requires Sendable(m)
    ensures After(Print(m), "5:token") ==
      if m.token != "" then Some(Field(m.token) + PrintValues(m)) else InTid(m, '5', "token")
  {
    hide After, NoColons, PrintNodes, PrintNodes6, PrintValues, InTid, Sendable, Field, Print, Clash;
    Even(m);
    assert Marker('5', "token") == "5:token";
    if m.token != "" {
      HeadPassed(m, '5', "token");
      EvenClear(m.nodes, PrintNodes6(m), '5', "token");
      NodesPassed(m.id, m, '5', "token");
      EvenClear(m.nodes6, PrintToken(m), '5', "token");
      Nodes6Passed(Before(m.id, m.nodes), m, '5', "token");
      SectionFound(Before(Before(m.id, m.nodes), m.nodes6), '5', "token", m.token, PrintValues(m));
    } else {
      OddPassed(m, '5', "token");
    }
  }

  lemma InfoHashRead(m: Reply)
    requires Sendable(m)
    ensures After(Print(m), "9:info_hash20:").None?
  {
    hide After, NoColons, Sendable, Print, Clash;
    var b := "info_hash20:";
    assert Marker('9', b) == "9:info_hash20:";
    OddPassed(m, '9', b);
    Even(m);
    NineClear(m, b);
  }

  lemma NineClear(m: Reply, b: string)
    requires b == "info_hash20:" && |m.tid| < 16
    ensures !Clash(m.tid, PrintEnd(m), '9', b)
  {
    var t := m.tid + PrintEnd(m);
    if |m.tid| == 9 && |b| <= |t| {
      assert t[..|b|][9] == t[9] == PrintEnd(m)[0] == '1';
    }
  }

  // How the sections begin
  lemma Heads(m: Reply)
    ensures PrintEnd(m) != "" && PrintEnd(m)[0] == '1'
    ensures PrintTid(m) != "" && PrintTid(m)[0] == 'e'
    ensures PrintValues(m) != "" && PrintValues(m)[0] in {'6', 'e'}
    ensures PrintToken(m) != "" && PrintToken(m)[0] in {'5', '6', 'e'}
    ensures PrintNodes6(m) != "" && PrintNodes6(m)[0] in {'5', '6', 'e'}
  {
    hide Field, PrintFields;
  }

  lemma ItemsTextHead(items: seq<string>, m: Reply)
    requires forall i | i in items :: ItemOk(i)
    ensures ItemsText(items, m) != "" && ItemsText(items, m)[0] in {'6', '1', 'e'}
  {
    if items != [] {
      assert ItemOk(items[0]);
      assert Digits(6)[0] == '6' && Digits(18)[0] == '1' by {
        assert Digits(18) == Digits(1) + [DigitOf(8)];
      }
      ItemsTextSplit(items, m);
      assert ItemsText(items, m)[0] == Digits(|items[0]|)[0];
    }
  }

  lemma TargetClear(y: string, rest: string)
    requires ':' !in y && rest != "" && rest[0] != '2'
    ensures !Clash(y, rest, '6', "target20:")
  {
    var b := "target20:";
    if |b| <= |y + rest| {
      if |y| > 8 {
        assert (y + rest)[..|b|][8] == y[8];
      } else if |y| == 6 {
        assert (y + rest)[..|b|][6] == rest[0];
      }
    }
  }

  lemma {:induction false} TargetItemsClear(items: seq<string>, m: Reply)
    requires forall i | i in items :: ItemOk(i)
    ensures ItemsClear(items, m, '6', "target20:")
  {
    hide Clash, ItemsText;
    if items != [] {
      assert ItemOk(items[0]);
      ItemsTextHead(items[1..], m);
      TargetClear(items[0], ItemsText(items[1..], m));
      TargetItemsClear(items[1..], m);
    }
  }

  // Past the lists of nodes and the token
  lemma SixAtValues(m: Reply, b: string) returns (x: string)
    requires Sendable(m) && Word(b) && (b[0] == 'n' ==> m.nodes6 == "")
    requires m.nodes != "" ==> !Clash(m.nodes, PrintNodes6(m), '6', b)
    requires m.nodes6 != "" ==> !Clash(m.nodes6, PrintToken(m), '6', b)
    ensures ':' !in x && After(Print(m), Marker('6', b)) == After(x + PrintValues(m), Marker('6', b))
  {
    hide After, Word, NoColons, ItemOk, InTid, PrintNodes,
         PrintNodes6, PrintToken, PrintValues, Print, Sendable, Marker;
    Even(m);
    WordNotEmpty(b);
    HeadPassed(m, '6', b);
    NodesPassed(m.id, m, '6', b);
    Nodes6Passed(Before(m.id, m.nodes), m, '6', b);
    TokenPassed(Before(Before(m.id, m.nodes), m.nodes6), m, '6', b);
    x := Before(Before(Before(m.id, m.nodes), m.nodes6), m.token);
  }

  lemma TargetRead(m: Reply)
    requires Sendable(m)
    ensures After(Print(m), "6:target20:").None?
  {
    hide After, NoColons, ItemOk, PrintNodes6, PrintToken, PrintValues, Print, Sendable, Clash, PrintEnd;
    var b := "target20:";
    assert Marker('6', b) == "6:target20:";
    Even(m);
    Heads(m);
    TargetClear(m.nodes, PrintNodes6(m));
    TargetClear(m.nodes6, PrintToken(m));
    TargetClear(m.tid, PrintEnd(m)) by {
      TidNoColon(m);
    }
    if m.items.Some? {
      TargetItemsClear(m.items.value, m);
    }
    var x := SixAtValues(m, b);
    ValuesPassed(x, m, '6', b);
  }

  lemma TidNoColon(m: Reply)
    requires NoColons(m)
    ensures ':' !in m.tid
  {}

  // The first octets of a list of nodes, taken for a marker
  lemma NodesTaken(m: Reply, b: string)
    requires Sendable(m) && Word(b) && m.nodes != "" && Clash(m.nodes, PrintNodes6(m), '6', b)
    ensures After(Print(m), Marker('6', b)) == Some((m.nodes + PrintNodes6(m))[|b|..])
  {
    hide After, Word, NoColons, PrintNodes6, Print, Sendable, Field, Clash;
    Even(m);
    HeadPassed(m, '6', b);
    assert PrintNodes(m) == ['5'] + (":" + ("nodes" + (Field(m.nodes) + PrintNodes6(m))));
    NameAfter(m.id, '5', "nodes", Field(m.nodes) + PrintNodes6(m), '6', b);
    FieldAfter("nodes", m.nodes, PrintNodes6(m), '6', b);
  }

  // What is found in the peers: one that spells the marker, or else something in the id
  function InItems(items: seq<string>, m: Reply): Option<string>
  {
    if items == [] then InTid(m, '6', "nodes6")
    else if items[0] == "nodes6" then Some(ItemsText(items[1..], m))
    else InItems(items[1..], m)
  }

  lemma ItemClash(x: string, rest: string)
    requires ItemOk(x)
    ensures Clash(x, rest, '6', "nodes6") <==> x == "nodes6"
    ensures (x + rest)[|x|..] == rest
  {
    assert |x| == 6 ==> (x + rest)[..6] == x;
    assert LastDigit(18) == '8' && LastDigit(6) == '6';
  }

  lemma {:induction false} ItemsSearched(x: string, items: seq<string>, m: Reply)
    requires ':' !in x && (forall i | i in items :: ItemOk(i)) && NoColons(m)
    ensures After(x + ItemsText(items, m), Marker('6', "nodes6")) == InItems(items, m)
    decreases |items|
  {
    hide After, Field, Clash, Marker, InTid, PrintTid, NoColons;
    if items == [] {
      assert x + ItemsText(items, m) == (x + "e") + PrintTid(m);
      TidPassed(x + "e", m, '6', "nodes6");
    } else {
      assert ItemOk(items[0]);
      var rest := ItemsText(items[1..], m);
      ItemsTextSplit(items, m);
      FieldAfter(x, items[0], rest, '6', "nodes6");
      ItemClash(items[0], rest);
      if items[0] != "nodes6" {
        ItemsSearched(items[0], items[1..], m);
      }
    }
  }

  function ItemsOf(m: Reply): seq<string>
  {
    if m.items.Some? then m.items.value else []
  }

  lemma ValuesSearched(x: string, m: Reply)
    requires ':' !in x && ItemsOk(m) && NoColons(m)
    ensures After(x + PrintValues(m), Marker('6', "nodes6")) == InItems(ItemsOf(m), m)
  {
    hide After, Clash, Marker, InTid, PrintTid, NoColons, ItemsText;
    if m.items.Some? {
      var rest := ItemsText(m.items.value, m);
      ValuesText(x, m);
      NameAfter(x, '6', "valuesl", rest, '6', "nodes6");
      OtherName("valuesl", rest, "nodes6");
      ItemsSearched("valuesl", m.items.value, m);
    } else {
      assert PrintValues(m) == PrintTid(m);
      TidPassed(x, m, '6', "nodes6");
    }
  }

  lemma Nodes6Read(m: Reply)
    requires Sendable(m)
    ensures After(Print(m), "6:nodes6") ==
      if m.nodes != "" && Clash(m.nodes, PrintNodes6(m), '6', "nodes6") then Some((m.nodes + PrintNodes6(m))[6..])
      else if m.nodes6 != "" then Some(Field(m.nodes6) + PrintToken(m))
      else InItems(ItemsOf(m), m)
  {
    hide After, Clash, NoColons, ItemOk, PrintNodes, PrintNodes6,
         PrintToken, PrintValues, Print, Sendable, Field, InItems;
    Even(m);
    var b := "nodes6";
    assert Marker('6', b) == "6:nodes6";
    if m.nodes != "" && Clash(m.nodes, PrintNodes6(m), '6', b) {
      NodesTaken(m, b);
    } else if m.nodes6 != "" {
      HeadPassed(m, '6', b);
      NodesPassed(m.id, m, '6', b);
      Nodes6Is(m);
      SectionFound(Before(m.id, m.nodes), '6', b, m.nodes6, PrintToken(m));
    } else {
      var x := SixAtValues(m, b);
      ValuesSearched(x, m);
    }
  }

  lemma Nodes6Is(m: Reply)
    ensures PrintNodes6(m) == Section(Marker('6', "nodes6"), m.nodes6, PrintToken(m))
  {
    assert Marker('6', "nodes6") == "6:nodes6";
  }

  // A list of nodes that is taken for the marker of the values
  predicate Spells(nodes: string)
  {
    LastDigit(|nodes|) == '6' && StartsWith(nodes, "valuesl")
  }

  lemma LongClash(y: string, rest: string, a: char, b: string)
    requires |y| >= |b|
    ensures Clash(y, rest, a, b) <==> LastDigit(|y|) == a && StartsWith(y, b)
    ensures (y + rest)[|b|..] == y[|b|..] + rest
  {
    assert (y + rest)[..|b|] == y[..|b|];
  }

  lemma ValuesRead(m: Reply)
    requires Sendable(m) && !Spells(m.nodes) && !Spells(m.nodes6)
    ensures After(Print(m), "6:valuesl") == if m.items.Some? then Some(ItemsText(m.items.value, m)) else None
  {
    hide After, Clash, NoColons, ItemOk, PrintNodes, PrintNodes6,
         PrintToken, PrintValues, Print, Sendable, ItemsText, PrintEnd;
    Even(m);
    var b := "valuesl";
    assert Marker('6', b) == "6:valuesl";
    if m.nodes != "" {
      ListLength(m);
      LongClash(m.nodes, PrintNodes6(m), '6', b);
    }
    if m.nodes6 != "" {
      ListLength(m);
      LongClash(m.nodes6, PrintToken(m), '6', b);
    }
    var x := SixAtValues(m, b);
    if m.items.Some? {
      ValuesFound(x, m);
    } else {
      NoneInTid(m);
      assert PrintValues(m) == PrintTid(m) by {
        NoValues(m);
      }
      TidPassed(x, m, '6', b);
    }
  }

  lemma NoValues(m: Reply)
    requires m.items.None?
    ensures PrintValues(m) == PrintTid(m)
  {}

  lemma ListLength(m: Reply)
    requires Sendable(m)
    ensures m.nodes != "" ==> |m.nodes| >= 26
    ensures m.nodes6 != "" ==> |m.nodes6| >= 38
  {}

  lemma NoneInTid(m: Reply)
    requires |m.tid| < 16
    ensures InTid(m, '6', "valuesl").None?
  {
    var b := "valuesl";
    var t := m.tid + PrintEnd(m);
    Heads(m);
    if |m.tid| == 6 && |b| <= |t| {
      assert t[..|b|][6] == PrintEnd(m)[0];
    }
  }

  // ----- what is read behind a marker -----

  // Everything up to the next colon is a number that a length may have.
  predicate ReadsAsLength(d: string, limit: int)
  {
    Strtol(d).end == |d| && 0 < Strtol(d).value < limit
  }

  lemma CountedUpToColon(d: string, rest: string, limit: int)
    requires ':' !in d
    ensures Counted(d + (":" + rest), limit) == Some("") <==> !ReadsAsLength(d, limit)
    ensures var c := Counted(d + (":" + rest), limit);
      c.Some? && c.value != "" ==> |c.value| <= |rest| && c.value == rest[..|c.value|]
  {
    hide Strtol;
    StrtolUpToColon(d, rest);
    var p := d + (":" + rest);
    var n := Strtol(p);
    if n.end == |d| {
      assert p[n.end + 1..] == rest;
      if 0 < n.value && n.end + 1 + n.value <= |p| {
        assert p[n.end + 1..n.end + 1 + n.value] == rest[..n.value];
      }
    }
  }

  lemma CountedField(x: string, rest: string, limit: int)
    requires 0 < |x| < limit && |x| <= LONG_MAX
    ensures Counted(Field(x) + rest, limit) == Some(x)
  {
    hide Strtol, Field;
    StrtolOfField(x, rest);
  }

  // A transaction id that is taken for the marker b and a length
  predicate Taken(tid: string, b: string, limit: int)
  {
    LastDigit(|tid|) == '5' && StartsWith(tid, b) && ReadsAsLength(tid[|b|..] + "1", limit)
  }

  lemma EndIs(m: Reply)
    ensures PrintEnd(m) == "1" + (":" + PrintEnd(m)[2..])
  {}

  // Without the section only the transaction id can be taken for it.
  lemma TakenForFive(m: Reply, b: string, limit: int)
    requires |b| == 5 && 0 < |m.tid| < 16 && NoColons(m)
    ensures var p := InTid(m, '5', b);
      (if p.None? then Some("") else Counted(p.value, limit)) == Some("") <==> !Taken(m.tid, b, limit)
  {
    hide Clash, Counted, ReadsAsLength, PrintEnd;
    var d := if |m.tid| < 5 then "" else m.tid[5..] + "1";
    if |m.tid| >= 5 {
      LongClash(m.tid, PrintEnd(m), '5', b);
      EndIs(m);
      assert m.tid[5..] + PrintEnd(m) == d + (":" + PrintEnd(m)[2..]);
      CountedUpToColon(d, PrintEnd(m)[2..], limit);
    } else {
      ShortTid(m, b);
    }
  }

  lemma ShortTid(m: Reply, b: string)
    requires |m.tid| < 5
    ensures !Clash(m.tid, PrintEnd(m), '5', b) && LastDigit(|m.tid|) != '5'
  {}

  lemma TokenValue(m: Reply)
    requires Sendable(m)
    ensures FieldOf(Print(m), "5:token", TOKEN_LEN) == Some(m.token)
       <==> !(m.token == "" && Taken(m.tid, "token", TOKEN_LEN))
  {
    hide After, Field, Counted, Taken, Print, InTid, PrintValues;
    TokenRead(m);
    if m.token != "" {
      CountedField(m.token, PrintValues(m), TOKEN_LEN);
    } else {
      TakenForFive(m, "token", TOKEN_LEN);
    }
  }

  lemma NodesValue(m: Reply)
    requires Sendable(m)
    ensures FieldOf(Print(m), "5:nodes", NODES_LEN) == Some(m.nodes)
       <==> !(m.nodes == "" && Taken(m.tid, "nodes", NODES_LEN))
  {
    hide After, Field, Counted, Taken, Print, InTid, PrintNodes6;
    NodesRead(m);
    if m.nodes != "" {
      CountedField(m.nodes, PrintNodes6(m), NODES_LEN);
    } else {
      TakenForFive(m, "nodes", NODES_LEN);
    }
  }

  lemma TidValue(m: Reply)
    requires Sendable(m)
    ensures TidOf(Print(m)) == Some(Some(m.tid))
  {
    hide After, Field, Counted, Print, PrintEnd;
    TidRead(m);
    CountedField(m.tid, PrintEnd(m), KrpcParser.TID_LEN);
  }

  // The id of the node reads back whatever octets the message holds.
  lemma IdRead(m: Reply)
    requires |m.id| == 20
    ensures IdOf(Print(m), "2:id20:") == Some(m.id)
  {
    hide After, Print, PrintNodes;
    assert Marker('2', "id20:") == "2:id20:";
    IdFound(m);
  }

  lemma NoHashesRead(m: Reply)
    requires Sendable(m)
    ensures IdOf(Print(m), "9:info_hash20:") == IdOf(Print(m), "6:target20:") == Some(Zeroes(20))
  {
    hide After, Print, PrintNodes, Zeroes;
    InfoHashRead(m);
    TargetRead(m);
  }

  // ----- the list of IPv6 nodes -----

  // What stands before the first colon behind the lists of nodes
  function NextLength(m: Reply): string
  {
    if m.token != "" then "5" else if m.items.Some? then "6" else "e1"
  }

  lemma TokenIs(m: Reply)
    ensures |PrintToken(m)| > |NextLength(m)|
    ensures PrintToken(m) == NextLength(m) + (":" + PrintToken(m)[|NextLength(m)| + 1..])
  {
    hide Field, PrintFields;
  }

  // Some peer spells "nodes6" and the first that does is not the last one, or none does
  // and the transaction id does
  predicate PeersTaken(items: seq<string>, tid: string)
  {
    if items == [] then tid == "nodes6"
    else if items[0] == "nodes6" then |items| > 1
    else PeersTaken(items[1..], tid)
  }

  // When nodes6 is not read as it was printed
  predicate Nodes6Taken(m: Reply)
  {
    if LastDigit(|m.nodes|) == '6' && StartsWith(m.nodes, "nodes6")
    then m.nodes6 != "" || ReadsAsLength(m.nodes[6..] + NextLength(m), NODES6_LEN)
    else m.nodes6 == "" && PeersTaken(ItemsOf(m), m.tid)
  }

  lemma {:induction false} PeersValue(items: seq<string>, m: Reply)
    requires (forall i | i in items :: ItemOk(i)) && NoColons(m) && |m.tid| < 16
    ensures var p := InItems(items, m);
      (if p.None? then Some("") else Counted(p.value, NODES6_LEN)) == Some("") <==> !PeersTaken(items, m.tid)
  {
    hide Counted, NoColons, ItemsText, Field, InTid;
    if items == [] {
      TidSix(m);
    } else if items[0] == "nodes6" {
      if |items| == 1 {
        LastItem(m);
        assert items[1..] == [];
      } else {
        assert ItemOk(items[1]);
        ItemsTextSplit(items[1..], m);
        CountedField(items[1], ItemsText(items[1..][1..], m), NODES6_LEN);
      }
    } else {
      PeersValue(items[1..], m);
    }
  }

  lemma LastItem(m: Reply)
    ensures Counted(ItemsText([], m), NODES6_LEN) == Some("")
  {
    hide PrintTid;
    var s := ItemsText([], m);
    assert s == "e" + PrintTid(m);
    RunLengthIs(s, IsSpace, 0);
    assert s[0..] == s;
    RunLengthIs(s, IsDigit, 0);
  }

  lemma TidSix(m: Reply)
    requires |m.tid| < 16
    ensures var p := InTid(m, '6', "nodes6");
      (if p.None? then Some("") else Counted(p.value, NODES6_LEN)) == Some("") <==> m.tid != "nodes6"
  {
    hide Counted, PrintEnd, ReadsAsLength;
    var t := m.tid + PrintEnd(m);
    if |m.tid| == 6 {
      assert t[..6] == m.tid && t[6..] == PrintEnd(m);
      EndIs(m);
      CountedUpToColon("1", PrintEnd(m)[2..], NODES6_LEN);
      OneIsLength();
    }
  }

  lemma OneIsLength()
    ensures ReadsAsLength("1", NODES6_LEN)
  {
    hide Strtol, Digits;
    DigitsStep(1);
    DigitIsOne();
    StrtolOfDigits(1, "");
    assert Digits(1) + "" == "1";
  }

  lemma DigitIsOne()
    ensures DigitOf(1) == '1' && !IsDigit(At("", 0))
  {}

  lemma Nodes6Value(m: Reply)
    requires Sendable(m)
    ensures FieldOf(Print(m), "6:nodes6", NODES6_LEN) == Some(m.nodes6) <==> !Nodes6Taken(m)
  {
    hide After, Field, Counted, Print, PrintNodes6, PrintToken,
         Clash, InItems, ReadsAsLength, PeersTaken, Sendable, NoColons, ItemOk;
    Nodes6Read(m);
    Even(m);
    ListLength(m);
    if m.nodes != "" {
      LongClash(m.nodes, PrintNodes6(m), '6', "nodes6");
    }
    if m.nodes != "" && Clash(m.nodes, PrintNodes6(m), '6', "nodes6") {
      NodesTakenForNodes6(m);
    } else if m.nodes6 != "" {
      ListFits(m);
      CountedField(m.nodes6, PrintToken(m), NODES6_LEN);
    } else {
      PeersValue(ItemsOf(m), m);
    }
  }

  lemma ListFits(m: Reply)
    requires Sendable(m)
    ensures |m.nodes6| <= 304
  {}

  lemma NodesTakenForNodes6(m: Reply)
    requires Sendable(m) && |m.nodes| >= 26
    ensures Counted(m.nodes[6..] + PrintNodes6(m), NODES6_LEN) == Some(m.nodes6)
       <==> m.nodes6 == "" && !ReadsAsLength(m.nodes[6..] + NextLength(m), NODES6_LEN)
  {
    hide Counted, ReadsAsLength, PrintToken, Digits;
    var d := m.nodes[6..];
    if m.nodes6 == "" {
      TokenIs(m);
      var rest := PrintToken(m)[|NextLength(m)| + 1..];
      assert d + PrintNodes6(m) == (d + NextLength(m)) + (":" + rest);
      CountedUpToColon(d + NextLength(m), rest, NODES6_LEN);
    } else {
      var rest := "nodes6" + (Field(m.nodes6) + PrintToken(m));
      assert d + PrintNodes6(m) == (d + "6") + (":" + rest);
      CountedUpToColon(d + "6", rest, NODES6_LEN);
      DigitsLength(|m.nodes6|);
      var k := 6 + |Digits(|m.nodes6|)|;
      assert k < 38 && rest[k] == ':';
      assert forall x: string | |x| >= 38 && |x| <= |rest| && x == rest[..|x|] :: x[k] == ':';
    }
  }

  // ----- the values -----

  // The peers of one length
  function Joined(items: seq<string>, l: nat): string
  {
    if items == [] then "" else (if |items[0]| == l then items[0] else "") + Joined(items[1..], l)
  }

  lemma {:induction false} ValuesLooped(items: seq<string>, m: Reply, v: string, v6: string)
    requires forall i | i in items :: ItemSize(i)
    requires |v| + 18 * |items| <= VALUES_LEN && |v6| + 18 * |items| <= VALUES_LEN
    ensures ValuesLoop(ItemsText(items, m), v, v6) == Some((v + Joined(items, 6), v6 + Joined(items, 18)))
    decreases |items|
  {
    hide Strtol, At, ItemsText, Field, ValuesLoop;
    if items == [] {
      LoopEnds(m, v, v6);
      assert v + "" == v && v6 + "" == v6;
    } else {
      assert ItemSize(items[0]);
      var x, rest := items[0], ItemsText(items[1..], m);
      ItemsTextSplit(items, m);
      LoopNext(x, rest, v, v6);
      ValuesLooped(items[1..], m, Appended(v, x, 6), Appended(v6, x, 18));
      assert Appended(v, x, 6) + Joined(items[1..], 6) == v + Joined(items, 6);
      assert Appended(v6, x, 18) + Joined(items[1..], 18) == v6 + Joined(items, 18);
    }
  }

  lemma LoopEnds(m: Reply, v: string, v6: string)
    ensures ValuesLoop(ItemsText([], m), v, v6) == Some((v, v6))
  {
    hide PrintTid;
    var s := ItemsText([], m);
    assert s == "e" + PrintTid(m);
    RunLengthIs(s, IsSpace, 0);
    assert s[0..] == s;
    RunLengthIs(s, IsDigit, 0);
  }

  lemma LoopNext(x: string, rest: string, v: string, v6: string)
    requires ItemSize(x)
    ensures ValuesLoop(Field(x) + rest, v, v6) == ValuesLoop(rest, Appended(v, x, 6), Appended(v6, x, 18))
  {
    hide Strtol, Field;
    StrtolOfField(x, rest);
  }

  lemma ValuesValue(m: Reply)
    requires Sendable(m) && !Spells(m.nodes) && !Spells(m.nodes6)
    ensures ValuesOf(Print(m)) == Some((Joined(ItemsOf(m), 6), Joined(ItemsOf(m), 18)))
  {
    hide After, Print, ItemsText, Spells;
    ValuesRead(m);
    if m.items.Some? {
      ValuesLooped(m.items.value, m, "", "");
      assert "" + Joined(m.items.value, 6) == Joined(m.items.value, 6);
      assert "" + Joined(m.items.value, 18) == Joined(m.items.value, 18);
    }
  }

  // ----- a list of nodes that spells the marker of the values -----

  predicate IsLength(d: string)
  {
    Strtol(d).end == |d| && Strtol(d).value > 0
  }

  // What the values loop reads first when a list of nodes spells the marker: the rest of
  // the list, up to the next colon
  function SpelledLength(m: Reply): string
  {
    if Spells(m.nodes) then m.nodes[7..] + (if m.nodes6 != "" then "6" else NextLength(m))
    else if Spells(m.nodes6) then m.nodes6[7..] + NextLength(m)
    else ""
  }

  predicate SpellsValues(m: Reply)
  {
    Spells(m.nodes) || Spells(m.nodes6)
  }

  lemma NextIs(m: Reply)
    ensures |PrintNodes6(m)| > |if m.nodes6 != "" then "6" else NextLength(m)|
    ensures var h := if m.nodes6 != "" then "6" else NextLength(m);
      PrintNodes6(m) == h + (":" + PrintNodes6(m)[|h| + 1..])
    ensures ':' !in NextLength(m)
  {
    hide Field, PrintToken, NextLength;
    TokenIs(m);
    NoColonInNext(m);
  }

  lemma NoColonInNext(m: Reply)
    ensures ':' !in NextLength(m)
  {}

  // The list of IPv6 nodes is reached when that of IPv4 nodes does not spell the marker.
  lemma Nodes6Spells(m: Reply)
    requires Sendable(m) && !Spells(m.nodes) && Spells(m.nodes6)
    ensures After(Print(m), "6:valuesl") == Some(m.nodes6[7..] + PrintToken(m))
  {
    hide After, Clash, NoColons, ItemOk, PrintNodes, PrintNodes6, PrintToken, Print, Sendable, Field;
    Even(m);
    ListLength(m);
    var b := "valuesl";
    assert Marker('6', b) == "6:valuesl";
    HeadPassed(m, '6', b);
    if m.nodes != "" {
      LongClash(m.nodes, PrintNodes6(m), '6', b);
    }
    NodesPassed(m.id, m, '6', b);
    var x := Before(m.id, m.nodes);
    Nodes6Is(m);
    NamedSection('6', "nodes6", m.nodes6, PrintToken(m));
    NameAfter(x, '6', "nodes6", Field(m.nodes6) + PrintToken(m), '6', b);
    OtherName("nodes6", Field(m.nodes6) + PrintToken(m), b);
    FieldAfter("nodes6", m.nodes6, PrintToken(m), '6', b);
    LongClash(m.nodes6, PrintToken(m), '6', b);
  }

  // What is behind that colon
  function SpelledRest(m: Reply): string
    requires SpellsValues(m)
  {
    var h := if Spells(m.nodes) && m.nodes6 != "" then "6" else NextLength(m);
    var s := if Spells(m.nodes) then PrintNodes6(m) else PrintToken(m);
    if |s| > |h| then s[|h| + 1..] else ""
  }

  // The loop runs over just these two.
  lemma SpelledText(m: Reply)
    requires Sendable(m) && SpellsValues(m)
    ensures ':' !in SpelledLength(m)
    ensures ValuesOf(Print(m)) == ValuesLoop(SpelledLength(m) + (":" + SpelledRest(m)), "", "")
  {
    hide After, Clash, PrintNodes6, PrintToken, Print, Sendable, ValuesLoop, NextLength, ItemOk, NoColons;
    Even(m);
    NextIs(m);
    assert Marker('6', "valuesl") == "6:valuesl";
    if Spells(m.nodes) {
      var h := if m.nodes6 != "" then "6" else NextLength(m);
      LongClash(m.nodes, PrintNodes6(m), '6', "valuesl");
      NodesTaken(m, "valuesl");
      assert m.nodes[7..] + PrintNodes6(m) == (m.nodes[7..] + h) + (":" + SpelledRest(m));
    } else {
      Nodes6Spells(m);
      TokenIs(m);
      assert m.nodes6[7..] + PrintToken(m) == (m.nodes6[7..] + NextLength(m)) + (":" + SpelledRest(m));
    }
  }

  // No number begins, or it ends before no colon.
  predicate NoLengthAt(s: string)
  {
    At(s, Strtol(s).end) != ':' || Strtol(s).value <= 0
  }

  // The spelled length runs past the end of the reply.
  predicate RunsOut(m: Reply)
  {
    SpellsValues(m) && IsLength(SpelledLength(m)) && Strtol(SpelledLength(m)).value > |SpelledRest(m)|
  }

  // It is no length, or one with no other length behind its octets.
  predicate ReadsOnce(m: Reply)
  {
    SpellsValues(m) &&
      if !IsLength(SpelledLength(m)) then true
      else
        var l := Strtol(SpelledLength(m)).value;
        l <= |SpelledRest(m)| && NoLengthAt(SpelledRest(m)[l..])
  }

  // What is then read for the values: nothing, or those octets if they have the size of a
  // peer
  function OneValue(m: Reply): (string, string)
    requires ReadsOnce(m)
  {
    if !IsLength(SpelledLength(m)) then ("", "")
    else
      var x := SpelledRest(m)[..Strtol(SpelledLength(m)).value];
      (Appended("", x, 6), Appended("", x, 18))
  }

  lemma LoopAtColon(d: string, rest: string)
    requires ':' !in d
    ensures var l := Strtol(d).value;
      ValuesLoop(d + (":" + rest), "", "") ==
        if !IsLength(d) then Some(("", ""))
        else if l > |rest| then None
        else ValuesLoop(rest[l..], Appended("", rest[..l], 6), Appended("", rest[..l], 18))
  {
    hide Strtol, Appended, ValuesLoop, At;
    StrtolUpToColon(d, rest);
    var p := d + (":" + rest);
    var n := Strtol(d);
    AtColon(d, rest, n.end);
    assert p[0..] == p;
    ValuesStep(p, 0, "", "");
    if IsLength(d) && n.value <= |rest| {
      SliceBehind(d, rest, n.value);
    }
  }

  lemma AtColon(d: string, rest: string, k: nat)
    requires ':' !in d && k <= |d|
    ensures At(d + (":" + rest), k) == ':' <==> k == |d|
  {}

  lemma SliceBehind(d: string, rest: string, l: nat)
    requires l <= |rest|
    ensures var p := d + (":" + rest);
      p[|d| + 1..|d| + 1 + l] == rest[..l] && p[|d| + 1 + l..] == rest[l..]
  {}

  // A spelled length that runs past the end loses the whole reply; one with no other length
  // behind it leaves one value at most, whatever peers there are.
  lemma SpelledValues(m: Reply)
    requires Sendable(m) && SpellsValues(m)
    ensures RunsOut(m) ==> ValuesOf(Print(m)).None? && Parse(Print(m)).None?
    ensures ReadsOnce(m) ==> ValuesOf(Print(m)) == Some(OneValue(m))
  {
    hide Print, Sendable, Spells, SpelledLength, SpelledRest, ValuesOf, TidOf, IdOf, FieldOf, KindOf, Strtol, Appended;
    SpelledText(m);
    LoopAtColon(SpelledLength(m), SpelledRest(m));
    if ReadsOnce(m) && IsLength(SpelledLength(m)) {
      LoopStops(SpelledRest(m)[Strtol(SpelledLength(m)).value..], OneValue(m).0, OneValue(m).1);
    }
  }

  lemma LoopStops(s: string, v: string, v6: string)
    requires NoLengthAt(s)
    ensures ValuesLoop(s, v, v6) == Some((v, v6))
  {
    hide Strtol;
  }

  // Without peers it is enough that the octets read have another size than a peer.
  lemma NoPeersRead(m: Reply)
    requires Sendable(m) && ReadsOnce(m)
    requires IsLength(SpelledLength(m)) ==> Strtol(SpelledLength(m)).value != 6 && Strtol(SpelledLength(m)).value != 18
    ensures OneValue(m) == (Joined(ItemsOf(m), 6), Joined(ItemsOf(m), 18)) <==> ItemsOf(m) == []
  {
    hide SpelledLength, SpelledRest, Strtol;
    if IsLength(SpelledLength(m)) {
      var l := Strtol(SpelledLength(m)).value;
      assert |SpelledRest(m)[..l]| == l;
    }
    if ItemsOf(m) != [] {
      assert ItemOk(ItemsOf(m)[0]);
    }
  }

  // ----- the whole reply -----

  function Expected(m: Reply): Fields
  {
    Fields(KrpcParser.IsReply, Some(m.tid), m.id, Zeroes(20), Zeroes(20), m.token, m.nodes, m.nodes6,
           Joined(ItemsOf(m), 6), Joined(ItemsOf(m), 18))
  }

  lemma KindRead(m: Reply)
    ensures KindOf(Print(m)) == Some(KrpcParser.IsReply)
  {
    hide *;
    PrintIs(m);
    var s := Print(m);
    assert s[|s| - 7..] == "1:y1:re";
    assert s[|s| - 7..|s| - 1] == "1:y1:r";
    EndOccurs(s, |s| - 7);
    AfterNone(s, "1:y1:r");
    KindIsReply(s);
  }

  lemma EndOccurs(s: string, i: nat)
    requires i + 6 <= |s| && s[i..i + 6] == "1:y1:r"
    ensures Occurs(s, "1:y1:r", i)
  {}

  lemma KindIsReply(s: string)
    requires After(s, "1:y1:r").Some?
    ensures KindOf(s) == Some(KrpcParser.IsReply)
  {}

  // When a list of nodes is read for the values, to another effect than theirs.  What the
  // loop collects is known (SpelledValues) but for a length with another one behind its
  // octets.
  predicate ValuesTaken(m: Reply)
  {
    SpellsValues(m) &&
      ValuesLoop(SpelledLength(m) + (":" + SpelledRest(m)), "", "")
        != Some((Joined(ItemsOf(m), 6), Joined(ItemsOf(m), 18)))
  }

  // What parse_message reads of a reply that send_nodes_peers prints is all that was put
  // in, exactly when the transaction id does not pass for a missing token or list, no list
  // or peer passes for the list of IPv6 nodes, and no list for the values of the peers.
  lemma ReplyRoundTrip(m: Reply)
    requires Sendable(m)
    ensures Transmitted(BUFFER_SIZE, Print(m)) == Some(Print(m))
    ensures Parse(Print(m)) == Some(Expected(m))
       <==> !(m.token == "" && Taken(m.tid, "token", TOKEN_LEN)) && !(m.nodes == "" && Taken(m.tid, "nodes", NODES_LEN))
            && !Nodes6Taken(m) && !ValuesTaken(m)
  {
    hide After, Print, TidOf, IdOf, FieldOf, ValuesOf, Taken, Nodes6Taken, Spells, SpelledLength, SpelledRest, SizesOk,
         NoColons, ItemsOk, Transmitted, Zeroes, Joined, KindOf, ValuesLoop;
    ReplyFits(m);
    TidValue(m);
    Even(m);
    TwentyOctets(m);
    IdRead(m);
    NoHashesRead(m);
    TokenValue(m);
    NodesValue(m);
    Nodes6Value(m);
    if SpellsValues(m) {
      SpelledText(m);
    } else {
      ValuesValue(m);
    }
    KindRead(m);
  }

  lemma TwentyOctets(m: Reply)
    requires Sendable(m)
    ensures |m.id| == 20
  {}

  // And these are the cases: a spelled length that runs past the end loses the whole reply;
  // one with no other length behind its octets does no harm exactly when what is read is
  // what the peers are.
  lemma SpelledCases(m: Reply)
    requires Sendable(m) && SpellsValues(m)
    ensures RunsOut(m) ==> ValuesTaken(m) && Parse(Print(m)).None?
    ensures ReadsOnce(m) ==>
      (ValuesTaken(m) <==> OneValue(m) != (Joined(ItemsOf(m), 6), Joined(ItemsOf(m), 18)))
  {
    hide Print, Sendable, Parse, Spells, SpelledLength, SpelledRest, ValuesOf, RunsOut, ReadsOnce, OneValue, ValuesLoop;
    SpelledText(m);
    SpelledValues(m);
  }

  // Such replies exist: nothing but an id and the transaction id "nodes6".
  lemma MisreadReply()
    ensures var m := Reply("aaaaaaaaaaaaaaaaaaaa", "", "", "", None, "nodes6", None);
      Sendable(m) && Nodes6Taken(m) && Parse(Print(m)) != Some(Expected(m))
  {
    hide Print, Parse, Expected, Strtol, DigitOf;
    var m := Reply("aaaaaaaaaaaaaaaaaaaa", "", "", "", None, "nodes6", None);
    NothingSpelled();
    ReplyRoundTrip(m);
  }

  lemma NothingSpelled()
    ensures !Spells("") && LastDigit(0) == '0'
  {}
}
