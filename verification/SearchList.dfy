/** A search as values: the list of candidate nodes sorted by distance to the
    target, and the functions that specify insertion, flushing and stepping. */
module SearchList {
  import opened Ids
  import opened Seqs
  import opened Net
  import opened XorMetric

  const SEARCH_NODES: nat := 14

  datatype SearchNode = SearchNode(
    id: Id,
    addr: Addr,
    requestTime: int,   // when it was asked, if no answer came since
    replyTime: int,     // when it answered
    pinged: nat,
    token: seq<Byte>,
    replied: bool,      // it answered this search
    acked: bool         // it need not be sent an announcement any more
  )

  // What a message tells about a node: the arguments of insert_search_node.
  datatype News = News(id: Id, addr: Addr, replied: bool, token: Option<seq<Byte>>, now: int)

  function IdsOf(ns: seq<SearchNode>): (ids: seq<Id>)
    ensures |ids| == |ns| && forall i: nat | i < |ns| :: ids[i] == ns[i].id
  {
    if ns == [] then [] else IdsOf(ns[..|ns| - 1]) + [ns[|ns| - 1].id]
  }

  ghost predicate Sorted(ns: seq<SearchNode>, target: Id)
  {
    SortedBy(IdsOf(ns), target)
  }

  // ----- insertion -----

  // A new entry, and the update at label "found" in insert_search_node.
  function Blank(e: News): SearchNode
  {
    SearchNode(e.id, e.addr, 0, 0, 0, [], false, false)
  }

  function Noted(n: SearchNode, e: News): SearchNode
  {
    var n1 := n.(addr := e.addr);
    var n2 := if e.replied then n1.(replied := true, replyTime := e.now, requestTime := 0, pinged := 0) else n1;
    if e.token.Some? && |e.token.value| < 40 then n2.(token := e.token.value) else n2
  }

  // insert_search_node
  ghost function Insert(ns: seq<SearchNode>, target: Id, e: News): (r: seq<SearchNode>)
    requires |ns| <= SEARCH_NODES
    ensures |r| <= SEARCH_NODES
  {
    var i := Place(IdsOf(ns), e.id, target);
    if i < |ns| && ns[i].id == e.id then ns[i := Noted(ns[i], e)]
    else if i == SEARCH_NODES then ns
    else InsertAt(ns, i, Noted(Blank(e), e), SEARCH_NODES)
  }

  lemma IdsOfUpdate(ns: seq<SearchNode>, i: nat, n: SearchNode)
    requires i < |ns| && n.id == ns[i].id
    ensures IdsOf(ns[i := n]) == IdsOf(ns)
  {}

  lemma IdsOfInsertAt(ns: seq<SearchNode>, i: nat, n: SearchNode)
    requires i <= |ns| <= SEARCH_NODES && i < SEARCH_NODES
    ensures IdsOf(InsertAt(ns, i, n, SEARCH_NODES)) == InsertAt(IdsOf(ns), i, n.id, SEARCH_NODES)
  {
    hide *;
    var a, b := IdsOf(InsertAt(ns, i, n, SEARCH_NODES)), InsertAt(IdsOf(ns), i, n.id, SEARCH_NODES);
    forall j: nat | j < |b| ensures a[j] == b[j] {
      assert a[j] == InsertAt(ns, i, n, SEARCH_NODES)[j].id;
      assert j < i ==> IdsOf(ns)[j] == ns[j].id;
      assert j > i ==> IdsOf(ns)[j - 1] == ns[j - 1].id;
    }
  }

  // Insertion keeps the list the closest distinct ids offered so far.
  lemma InsertKeepsClosest(ns: seq<SearchNode>, target: Id, e: News, offered: set<Id>)
    requires |ns| <= 14 && Closest(IdsOf(ns), offered, target, 14)
    ensures Closest(IdsOf(Insert(ns, target, e)), offered + {e.id}, target, 14)
  {
    hide Distance, Closest, IdsOf, Noted;
    ClosestIsSorted(IdsOf(ns), offered, target, SEARCH_NODES);
    var i := Place(IdsOf(ns), e.id, target);
    PlaceInSorted(IdsOf(ns), e.id, target);
    if e.id in IdsOf(ns) {
      OfferListed(IdsOf(ns), offered, target, SEARCH_NODES, e.id);
      NotedId(ns[i], e);
      IdsOfUpdate(ns, i, Noted(ns[i], e));
    } else if i == SEARCH_NODES {
      OfferTooFar(IdsOf(ns), offered, target, SEARCH_NODES, e.id);
    } else {
      OfferInserted(IdsOf(ns), offered, target, SEARCH_NODES, e.id, i);
      NotedId(Blank(e), e);
      IdsOfInsertAt(ns, i, Noted(Blank(e), e));
    }
  }

  lemma NotedId(n: SearchNode, e: News)
    ensures Noted(n, e).id == n.id
  {}

  lemma InsertKeepsSorted(ns: seq<SearchNode>, target: Id, e: News)
    requires |ns| <= SEARCH_NODES && Sorted(ns, target)
    ensures Sorted(Insert(ns, target, e), target)
  {
    hide Distance, IdsOf, Noted, SortedBy;
    var i := Place(IdsOf(ns), e.id, target);
    PlaceInSorted(IdsOf(ns), e.id, target);
    if e.id in IdsOf(ns) {
      NotedId(ns[i], e);
      IdsOfUpdate(ns, i, Noted(ns[i], e));
    } else if i < SEARCH_NODES {
      InsertAtKeepsSorted(IdsOf(ns), target, SEARCH_NODES, e.id, i);
      NotedId(Blank(e), e);
      IdsOfInsertAt(ns, i, Noted(Blank(e), e));
    }
  }

  // What a message makes of an entry, field by field: the address is new; an answer settles
  // all requests; a token is taken if it fits.
  predicate Told(o: SearchNode, e: News, n: SearchNode)
  {
    && n.id == o.id && n.addr == e.addr && n.acked == o.acked
    && n.replied == (e.replied || o.replied)
    && n.replyTime == (if e.replied then e.now else o.replyTime)
    && n.requestTime == (if e.replied then 0 else o.requestTime)
    && n.pinged == (if e.replied then 0 else o.pinged)
    && n.token == (if e.token.Some? && |e.token.value| < 40 then e.token.value else o.token)
  }

  lemma NotedIsTold(o: SearchNode, e: News)
    ensures Told(o, e, Noted(o, e))
  {}

  // In the list after a message every entry of another id is an old one, and that of the
  // sender is its old entry, or one of which nothing is known, after the message.
  lemma InsertedEntries(ns: seq<SearchNode>, target: Id, e: News, n: SearchNode)
    requires |ns| <= SEARCH_NODES && Sorted(ns, target) && n in Insert(ns, target, e)
    ensures n.id != e.id ==> n in ns
    ensures n.id == e.id && e.id in IdsOf(ns) ==> exists o :: o in ns && o.id == e.id && Told(o, e, n)
    ensures n.id == e.id && e.id !in IdsOf(ns) ==>
      Told(SearchNode(e.id, e.addr, 0, 0, 0, [], false, false), e, n)
  {
    hide Distance, SortedBy, Place, Noted, Told, InsertAt;
    var i := Place(IdsOf(ns), e.id, target);
    PlaceInSorted(IdsOf(ns), e.id, target);
    if e.id in IdsOf(ns) {
      KnownEntries(ns, target, e, i, n);
    } else {
      OldIdsOnly(ns, e.id);
      if i < SEARCH_NODES {
        NewEntries(ns, e, i, n);
      }
    }
  }

  lemma OldIdsOnly(ns: seq<SearchNode>, id: Id)
    ensures id in IdsOf(ns) <==> exists o :: o in ns && o.id == id
  {
    if id in IdsOf(ns) {
      var k: nat :| k < |ns| && IdsOf(ns)[k] == id;
      assert ns[k] in ns;
    }
    if o :| o in ns && o.id == id {
      var k: nat :| k < |ns| && ns[k] == o;
      assert IdsOf(ns)[k] == id;
    }
  }

  lemma KnownEntries(ns: seq<SearchNode>, target: Id, e: News, i: nat, n: SearchNode)
    requires Sorted(ns, target) && i < |ns| && ns[i].id == e.id && n in ns[i := Noted(ns[i], e)]
    ensures n.id != e.id ==> n in ns
    ensures n.id == e.id ==> ns[i] in ns && Told(ns[i], e, n)
  {
    hide Sorted, Told, Noted;
    NotedIsTold(ns[i], e);
    SortedIdsDiffer(ns, target, i);
    var r := ns[i := Noted(ns[i], e)];
    var j: nat :| j < |r| && r[j] == n;
    NotedId(ns[i], e);
  }

  lemma NewEntries(ns: seq<SearchNode>, e: News, i: nat, n: SearchNode)
    requires i <= |ns| <= SEARCH_NODES && i < SEARCH_NODES
    requires n in InsertAt(ns, i, Noted(Blank(e), e), SEARCH_NODES)
    requires forall o | o in ns :: o.id != e.id
    ensures n.id != e.id ==> n in ns
    ensures n.id == e.id ==> Told(SearchNode(e.id, e.addr, 0, 0, 0, [], false, false), e, n)
  {
    hide Told, Noted;
    NotedIsTold(Blank(e), e);
    NotedId(Blank(e), e);
    var r := InsertAt(ns, i, Noted(Blank(e), e), SEARCH_NODES);
    var j: nat :| j < |r| && r[j] == n;
    assert j != i ==> n in ns;
  }

  ghost function InsertAll(target: Id, es: seq<News>): (r: seq<SearchNode>)
    ensures |r| <= SEARCH_NODES
  {
    if es == [] then [] else Insert(InsertAll(target, es[..|es| - 1]), target, es[|es| - 1])
  }

  function OfferedIds(es: seq<News>): set<Id>
  {
    set e | e in es :: e.id
  }

  lemma NothingOffered(target: Id)
    ensures Closest(IdsOf([]), OfferedIds([]), target, SEARCH_NODES)
  {}

  // After any sequence of insertions a fresh search lists exactly the 14 closest
  // distinct ids it was offered, in order of distance.
  lemma {:induction false} ListsTheClosest(target: Id, es: seq<News>)
    ensures Closest(IdsOf(InsertAll(target, es)), OfferedIds(es), target, 14)
  {
    hide Insert, Closest, Distance, IdsOf;
    if es == [] {
      NothingOffered(target);
    } else {
      var n := |es| - 1;
      ListsTheClosest(target, es[..n]);
      InsertKeepsClosest(InsertAll(target, es[..n]), target, es[n], OfferedIds(es[..n]));
      assert es == es[..n] + [es[n]];
      assert OfferedIds(es) == OfferedIds(es[..n]) + {es[n].id};
    }
  }

  // ----- flushing -----

  // flush_search_node
  function Without<T>(s: seq<T>, i: nat): (r: seq<T>)
    requires i < |s|
    ensures |r| == |s| - 1
  {
    s[..i] + s[i + 1..]
  }

  // The flush loop of blacklist_node: the index advances over the entry that was
  // shifted into a flushed slot.
  function FlushId(ns: seq<SearchNode>, id: Id, i: nat := 0): seq<SearchNode>
    decreases |ns| - i
  {
    if i >= |ns| then ns
    else if ns[i].id == id then FlushId(Without(ns, i), id, i + 1)
    else FlushId(ns, id, i + 1)
  }

  lemma RemoveKeepsSorted(ns: seq<SearchNode>, target: Id, i: nat)
    requires Sorted(ns, target) && i < |ns|
    ensures Sorted(Without(ns, i), target)
  {
    hide Distance;
  }

  // Although it skips entries, the loop removes the id, and nothing else.
  lemma {:induction false} FlushIdRemoves(ns: seq<SearchNode>, target: Id, id: Id, i: nat)
    requires Sorted(ns, target) && i <= |ns| && forall j: nat | j < i :: ns[j].id != id
    ensures Sorted(FlushId(ns, id, i), target)
    ensures FlushId(ns, id, i) == Filter(ns, (n: SearchNode) => n.id != id)
    decreases |ns| - i
  {
    hide Distance;
    var other := (n: SearchNode) => n.id != id;
    if i == |ns| {
      FilterAll(ns, other);
    } else if ns[i].id == id {
      SortedIdsDiffer(ns, target, i);
      RemoveKeepsSorted(ns, target, i);
      FilterRemove(ns, i, other);
      var rest := Without(ns, i);
      assert forall j: nat | j < |rest| :: rest[j].id != id;
      FilterAll(rest, other);
      NothingToFlush(rest, id, i + 1);
    } else {
      FlushIdRemoves(ns, target, id, i + 1);
    }
  }

  lemma SortedIdsDiffer(ns: seq<SearchNode>, target: Id, i: nat)
    requires Sorted(ns, target) && i < |ns|
    ensures forall j: nat | j < |ns| && j != i :: ns[j].id != ns[i].id
  {
    hide Distance;
    forall j: nat | j < |ns| && j != i ensures ns[j].id != ns[i].id {
      if j < i {
        assert Distance(IdsOf(ns)[j], target) < Distance(IdsOf(ns)[i], target);
      } else {
        assert Distance(IdsOf(ns)[i], target) < Distance(IdsOf(ns)[j], target);
      }
    }
  }

  lemma {:induction false} NothingToFlush(ns: seq<SearchNode>, id: Id, i: nat)
    requires forall j: nat | j < |ns| :: ns[j].id != id
    ensures FlushId(ns, id, i) == ns
    decreases |ns| - i
  {
    if i < |ns| {
      NothingToFlush(ns, id, i + 1);
    }
  }

  // ----- reusing an old search -----

  predicate Doubtful(n: SearchNode, now: int)
  {
    n.pinged >= 3 || n.replyTime < now - 7200
  }

  function Reset(n: SearchNode): SearchNode
  {
    n.(pinged := 0, token := [], replied := false, acked := false)
  }

  // The loop of dht_search over the nodes of an old search: a doubtful node is
  // flushed and the entry shifted into its slot is stepped over.
  function Reuse(ns: seq<SearchNode>, now: int, i: nat := 0): (r: seq<SearchNode>)
    ensures |r| <= |ns|
    decreases |ns| - i
  {
    if i >= |ns| then ns
    else if Doubtful(ns[i], now) then Reuse(Without(ns, i), now, i + 1)
    else Reuse(ns[i := Reset(ns[i])], now, i + 1)
  }

  lemma {:induction false} ReuseKeepsSorted(ns: seq<SearchNode>, target: Id, now: int, i: nat)
    requires Sorted(ns, target)
    ensures Sorted(Reuse(ns, now, i), target)
    decreases |ns| - i
  {
    hide Distance, IdsOf;
    if i < |ns| {
      if Doubtful(ns[i], now) {
        RemoveKeepsSorted(ns, target, i);
        ReuseKeepsSorted(Without(ns, i), target, now, i + 1);
      } else {
        IdsOfUpdate(ns, i, Reset(ns[i]));
        ReuseKeepsSorted(ns[i := Reset(ns[i])], target, now, i + 1);
      }
    }
  }

  // A search all of whose nodes are in good standing starts over with the same nodes, to
  // each of which nothing was sent, and of which nothing is held.
  lemma ReuseStartsOver(ns: seq<SearchNode>, now: int)
    requires forall n | n in ns :: n.pinged < 3 && n.replyTime >= now - 7200
    ensures |Reuse(ns, now)| == |ns|
    ensures forall i: nat | i < |ns| ::
      Reuse(ns, now)[i] == ns[i].(pinged := 0, token := [], replied := false, acked := false)
  {
    hide Reuse, ReuseRest;
    ReuseByEntries(ns, now, 0);
    assert ns[0..] == ns && ns[..0] == [];
    ReuseOfGood(ns, now);
    assert Reuse(ns, now) == ReuseRest(ns, now);
  }

  lemma {:induction false} ReuseOfGood(ns: seq<SearchNode>, now: int)
    requires forall n | n in ns :: n.pinged < 3 && n.replyTime >= now - 7200
    ensures |ReuseRest(ns, now)| == |ns|
    ensures forall i: nat | i < |ns| ::
      ReuseRest(ns, now)[i] == ns[i].(pinged := 0, token := [], replied := false, acked := false)
    decreases |ns|
  {
    if ns != [] {
      assert ns[0] in ns;
      ReuseOfGood(ns[1..], now);
    }
  }

  // The loop keeps what is before i and, from i on, works on one entry at a time;
  // after a doubtful entry the next one is kept untouched.
  function ReuseRest(ns: seq<SearchNode>, now: int): seq<SearchNode>
    decreases |ns|
  {
    if ns == [] then []
    else if !Doubtful(ns[0], now) then [Reset(ns[0])] + ReuseRest(ns[1..], now)
    else if |ns| == 1 then []
    else [ns[1]] + ReuseRest(ns[2..], now)
  }

  lemma {:induction false} ReuseByEntries(ns: seq<SearchNode>, now: int, i: nat)
    requires i <= |ns|
    ensures Reuse(ns, now, i) == ns[..i] + ReuseRest(ns[i..], now)
    decreases |ns| - i
  {
    if i < |ns| {
      if Doubtful(ns[i], now) {
        var m := Without(ns, i);
        if i + 1 < |ns| {
          ReuseByEntries(m, now, i + 1);
          assert m[i + 1..] == ns[i..][2..];
          assert m[..i + 1] == ns[..i] + [ns[i + 1]];
        } else {
          assert m == ns[..i];
        }
      } else {
        var m := ns[i := Reset(ns[i])];
        ReuseByEntries(m, now, i + 1);
        assert m[i + 1..] == ns[i..][1..];
        assert m[..i + 1] == ns[..i] + [Reset(ns[i])];
      }
    } else {
      assert ns[..i] == ns;
    }
  }

  // "Discard any doubtful nodes" holds exactly when no two doubtful nodes are
  // neighbours.
  ghost predicate NoDoubtfulNeighbours(ns: seq<SearchNode>, now: int)
  {
    forall i: nat | i + 1 < |ns| :: !(Doubtful(ns[i], now) && Doubtful(ns[i + 1], now))
  }

  predicate NoneDoubtful(ns: seq<SearchNode>, now: int)
  {
    forall n | n in ns :: !Doubtful(n, now)
  }

  lemma {:induction false} ReuseRestDropsDoubtful(ns: seq<SearchNode>, now: int)
    ensures NoDoubtfulNeighbours(ns, now) ==> NoneDoubtful(ReuseRest(ns, now), now)
    decreases |ns|
  {
    if ns != [] && NoDoubtfulNeighbours(ns, now) {
      if !Doubtful(ns[0], now) {
        ReuseRestDropsDoubtful(ns[1..], now);
      } else if |ns| > 1 {
        assert !(Doubtful(ns[0], now) && Doubtful(ns[0 + 1], now));
        forall i: nat | i + 1 < |ns[2..]| ensures !(Doubtful(ns[2..][i], now) && Doubtful(ns[2..][i + 1], now)) {
          assert !(Doubtful(ns[i + 2], now) && Doubtful(ns[(i + 2) + 1], now));
        }
        ReuseRestDropsDoubtful(ns[2..], now);
      }
    }
  }

  // A run of doubtful nodes that starts at an entry the loop looks at.
  lemma {:induction false} ReuseRestKeepsDoubtful(ns: seq<SearchNode>, now: int, i: nat)
    requires i + 1 < |ns| && Doubtful(ns[i], now) && Doubtful(ns[i + 1], now)
    requires forall j: nat | j < i :: !(Doubtful(ns[j], now) && Doubtful(ns[j + 1], now))
    ensures !NoneDoubtful(ReuseRest(ns, now), now)
    decreases |ns|
  {
    var r := ReuseRest(ns, now);
    if !Doubtful(ns[0], now) {
      ReuseRestKeepsDoubtful(ns[1..], now, i - 1);
      var n :| n in ReuseRest(ns[1..], now) && Doubtful(n, now);
      assert n in r;
    } else if i == 0 {
      assert r[0] == ns[1];
    } else {
      assert !(Doubtful(ns[0], now) && Doubtful(ns[0 + 1], now));
      ReuseRestKeepsDoubtful(ns[2..], now, i - 2);
      var n :| n in ReuseRest(ns[2..], now) && Doubtful(n, now);
      assert n in r;
    }
  }

  // A node is doubtful when three requests are open, or two hours went by without a reply.
  lemma DoubtfulMeans(n: SearchNode, now: int)
    ensures Doubtful(n, now) <==> n.pinged > 2 || now > n.replyTime + 7200
  {}

  lemma ReuseDropsDoubtfulIff(ns: seq<SearchNode>, now: int)
    ensures NoneDoubtful(Reuse(ns, now), now) <==> NoDoubtfulNeighbours(ns, now)
  {
    hide Doubtful;
    ReuseByEntries(ns, now, 0);
    assert ns[0..] == ns;
    ReuseRestDropsDoubtful(ns, now);
    if i: nat :| i + 1 < |ns| && Doubtful(ns[i], now) && Doubtful(ns[i + 1], now) {
      var k := 0;
      while !(Doubtful(ns[k], now) && Doubtful(ns[k + 1], now))
        invariant k <= i
        invariant forall j: nat | j < k :: !(Doubtful(ns[j], now) && Doubtful(ns[j + 1], now))
        decreases i - k
      {
        k := k + 1;
      }
      ReuseRestKeepsDoubtful(ns, now, k);
    }
  }

  // Two dead nodes side by side: the second one survives, still dead.
  lemma ReuseKeepsADoubtfulNode(a: SearchNode, b: SearchNode, now: int)
    requires a.pinged == 3 && b.pinged == 3
    ensures Reuse([a, b], now) == [b] && Doubtful(b, now)
  {
    ReuseByEntries([a, b], now, 0);
    assert [a, b][0..] == [a, b];
    assert [a, b][2..] == [];
  }
}
