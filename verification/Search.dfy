/** A search as dht.c keeps it: an array of 14 slots of which the first numnodes
    are in use, shifted in place by insertions and flushes. */
module Search {
  import opened Ids
  import opened Seqs
  import opened Net
  import opened XorMetric
  import opened SearchList
  import opened SearchStep

  const DUMMY: SearchNode := SearchNode(ZERO, V4([0, 0, 0, 0], 0), 0, 0, 0, [], false, false)

  class Search {
    const target: Id
    const ipv4: bool                     // the address family searched
    var port: nat                        // 0: do not announce
    var done: bool
    var stepTime: int                    // when it was last stepped
    const nodes: array<SearchNode>
    var numnodes: nat

    ghost predicate Valid()
      reads this, nodes
    {
      nodes.Length == SEARCH_NODES && numnodes <= SEARCH_NODES && Sorted(Nodes(), target)
    }

    ghost function Nodes(): (ns: seq<SearchNode>)
      requires nodes.Length == SEARCH_NODES && numnodes <= SEARCH_NODES
      reads this, nodes
      ensures |ns| == numnodes
    {
      nodes[..numnodes]
    }

    ghost function Value(): State
      requires nodes.Length == SEARCH_NODES && numnodes <= SEARCH_NODES
      reads this, nodes
    {
      State(Nodes(), port, done, stepTime)
    }

    // A fresh slot, as dht_search fills it in
    constructor (id: Id, v4: bool, p: nat)
      ensures Valid() && Value() == State([], p, false, 0) && target == id && ipv4 == v4 && fresh(nodes)
    {
      target, ipv4, port, done, stepTime, numnodes := id, v4, p, false, 0, 0;
      nodes := new SearchNode[SEARCH_NODES](_ => DUMMY);
    }

    // insert_search_node: afterwards the array holds the list of the specification.
    method InsertNode(e: News) returns (ok: bool)
      requires Valid()
      modifies this`numnodes, nodes
      ensures Valid()
      ensures e.addr.V4? != ipv4 ==> !ok && Nodes() == old(Nodes())
      ensures e.addr.V4? == ipv4 ==> Nodes() == Insert(old(Nodes()), target, e)
      ensures e.addr.V4? == ipv4 ==> (ok <==> e.id in IdsOf(Nodes()))
    {
      hide Insert, Sorted, Distance, IdsOf, Place, InsertAt, Noted, Blank;
      if e.addr.V4? != ipv4 {
        return false;
      }
      ghost var ns := Nodes();
      var i, found := FindPlace(e.id);
      InsertKeepsSorted(ns, target, e);
      InsertedIsListed(ns, target, e);
      InsertAtPlace(ns, target, e, i, found);
      if !found {
        if i == SEARCH_NODES {
          return false;
        }
        OpenSlot(i, e);
      }
      NoteAt(i, e);
      ok := true;
    }

    // The search for the slot: the id itself, or the first node that is farther.
    method FindPlace(id: Id) returns (i: nat, found: bool)
      requires Valid()
      ensures i == Place(IdsOf(Nodes()), id, target)
      ensures found <==> i < numnodes && nodes[i].id == id
    {
      hide Distance, Sorted;
      i, found := 0, false;
      while i < numnodes
        invariant i <= numnodes
        invariant forall j: nat | j < i ::
          nodes[j].id != id && Distance(nodes[j].id, target) <= Distance(id, target)
      {
        IdCmpIsNumericOrder(id, nodes[i].id);
        if IdCmp(id, nodes[i].id) == 0 {
          found := true;
          break;
        }
        var c := XorCmp(id, nodes[i].id, target);
        if c < 0 {
          break;
        }
        i := i + 1;
      }
      PlaceUnique(IdsOf(Nodes()), id, target, i);
    }

    // A cleared slot for a new candidate at position i
    method OpenSlot(i: nat, e: News)
      requires nodes.Length == SEARCH_NODES && i <= numnodes <= SEARCH_NODES && i < SEARCH_NODES
      modifies this`numnodes, nodes
      ensures numnodes <= SEARCH_NODES && i < numnodes
      ensures Nodes() == InsertAt(old(Nodes()), i, Blank(e), SEARCH_NODES)
    {
      ghost var ns := Nodes();
      MakeRoom(i);
      nodes[i] := Blank(e);
      assert Nodes() == InsertAt(ns, i, Blank(e), SEARCH_NODES);
    }

    // Shift the nodes from slot i on one slot up; the last one falls off a full list.
    method MakeRoom(i: nat)
      requires nodes.Length == SEARCH_NODES && i <= numnodes <= SEARCH_NODES && i < SEARCH_NODES
      modifies this`numnodes, nodes
      ensures numnodes == if old(numnodes) < SEARCH_NODES then old(numnodes) + 1 else SEARCH_NODES
      ensures forall k: nat | k < numnodes && k != i ::
        nodes[k] == if k < i then old(nodes[k]) else old(nodes[k - 1])
    {
      if numnodes < SEARCH_NODES {
        numnodes := numnodes + 1;
      }
      var j := numnodes - 1;
      while j > i
        invariant i <= j < numnodes
        invariant forall k: nat | k < numnodes ::
          nodes[k] == if k <= j then old(nodes[k]) else old(nodes[k - 1])
        modifies nodes
      {
        nodes[j] := nodes[j - 1];
        j := j - 1;
      }
    }

    // What the message tells about the node in slot i.
    method NoteAt(i: nat, e: News)
      requires nodes.Length == SEARCH_NODES && i < numnodes <= SEARCH_NODES
      modifies nodes
      ensures Nodes() == old(Nodes())[i := Noted(old(nodes[i]), e)]
    {
      nodes[i] := nodes[i].(addr := e.addr);
      if e.replied {
        nodes[i] := nodes[i].(replied := true, replyTime := e.now, requestTime := 0, pinged := 0);
      }
      if e.token.Some? {
        if |e.token.value| < 40 {
          nodes[i] := nodes[i].(token := e.token.value);
        }
      }
    }

    // flush_search_node
    method FlushNode(i: nat)
      requires nodes.Length == SEARCH_NODES && i < numnodes <= SEARCH_NODES
      modifies this`numnodes, nodes
      ensures numnodes == old(numnodes) - 1
      ensures Nodes() == Without(old(Nodes()), i)
    {
      var j := i;
      while j < numnodes - 1
        invariant i <= j < numnodes
        invariant forall k: nat | k < numnodes ::
          nodes[k] == if i <= k < j then old(nodes[k + 1]) else old(nodes[k])
        modifies nodes
      {
        nodes[j] := nodes[j + 1];
        j := j + 1;
      }
      numnodes := numnodes - 1;
    }

    // The loop of blacklist_node over one search
    method FlushId(id: Id)
      requires Valid()
      modifies this`numnodes, nodes
      ensures Valid()
      ensures Nodes() == Filter(old(Nodes()), (n: SearchNode) => n.id != id)
    {
      hide Sorted, Without, Filter;
      ghost var ns := Nodes();
      FlushIdRemoves(ns, target, id, 0);
      var i := 0;
      while i < numnodes
        invariant numnodes <= SEARCH_NODES
        invariant SearchList.FlushId(Nodes(), id, i) == SearchList.FlushId(ns, id, 0)
        decreases numnodes - i
      {
        if nodes[i].id == id {
          FlushNode(i);
        }
        i := i + 1;
      }
    }

    // The loop of dht_search over the nodes of an old search
    method Reuse(now: int)
      requires Valid()
      modifies this`numnodes, nodes
      ensures Valid()
      ensures Nodes() == SearchList.Reuse(old(Nodes()), now)
    {
      hide Sorted, Without, Doubtful;
      ghost var ns := Nodes();
      ReuseKeepsSorted(ns, target, now, 0);
      var i := 0;
      while i < numnodes
        invariant numnodes <= SEARCH_NODES
        invariant SearchList.Reuse(Nodes(), now, i) == SearchList.Reuse(ns, now, 0)
        decreases numnodes - i
      {
        DoubtfulMeans(nodes[i], now);
        if nodes[i].pinged >= 3 || nodes[i].replyTime < now - 7200 {
          FlushNode(i);
        } else {
          ghost var before := Nodes();
          nodes[i] := nodes[i].(pinged := 0, token := [], replied := false, acked := false);
          assert Nodes() == before[i := SearchList.Reset(before[i])];
        }
        i := i + 1;
      }
    }

    // search_send_get_peers for the node in slot i
    method SendGetPeers(i: nat, now: int) returns (sent: bool)
      requires nodes.Length == SEARCH_NODES && i < numnodes <= SEARCH_NODES
      modifies nodes
      ensures sent <==> Askable(old(nodes[i]), now)
      ensures Nodes() == if sent then old(Nodes())[i := Asked(old(nodes[i]), now)] else old(Nodes())
    {
      var n := nodes[i];
      if n.pinged >= 3 || n.replied || n.requestTime >= now - 15 {
        return false;
      }
      nodes[i] := n.(pinged := n.pinged + 1, requestTime := now);
      sent := true;
    }

    // search_send_get_peers without a node: the last one that may be asked.
    method SendGetPeersToAny(now: int) returns (asked: seq<Id>)
      requires nodes.Length == SEARCH_NODES && numnodes <= SEARCH_NODES
      modifies nodes
      ensures Nodes() == var ns := old(Nodes()); var k := LastAskable(ns, now);
        if k < 0 then ns else ns[k := Asked(ns[k], now)]
      ensures asked == AskedIds(old(Nodes()), Nodes())
    {
      hide Askable, AskedIds;
      ghost var ns := Nodes();
      var k := FindLastAskable(now);
      AskedIdsRest(ns, ns, 0);
      NobodyAsked();
      assert ns[..0] == [];
      if k < 0 {
        return [];
      }
      var sent := SendGetPeers(k, now);
      asked := [nodes[k].id];
      OneAsked(ns, k, now);
    }

    method FindLastAskable(now: int) returns (k: int)
      requires nodes.Length == SEARCH_NODES && numnodes <= SEARCH_NODES
      ensures k == LastAskable(Nodes(), now)
    {
      k := -1;
      for i := 0 to numnodes
        invariant k == LastAskable(Nodes()[..i], now)
      {
        assert Nodes()[..i + 1][..i] == Nodes()[..i];
        if nodes[i].pinged < 3 && !nodes[i].replied && nodes[i].requestTime < now - 15 {
          k := i;
        }
      }
      assert Nodes()[..numnodes] == Nodes();
    }

    // The part of dht_periodic that takes a reply to get_peers: the nodes found, one more
    // request, then the sender itself.
    method TakeReply(found: seq<News>, from: News, now: int) returns (asked: seq<Id>)
      requires Valid()
      modifies this`numnodes, nodes
      ensures Valid()
      ensures Nodes() == Replied(old(Nodes()), target, ipv4, found, from, now)
    {
      hide Sorted, Insert, AskedIds, Askable;
      ghost var ns := Nodes();
      var i := 0;
      assert found[..0] == [];
      while i < |found|
        invariant i <= |found| && Valid() && Nodes() == AllHeard(ns, target, ipv4, found[..i])
      {
        var ok := InsertNode(found[i]);
        assert found[..i + 1][..i] == found[..i];
        i := i + 1;
      }
      assert found[..|found|] == found;
      AskAnyKeepsSorted(Nodes(), target, now);
      asked := SendGetPeersToAny(now);
      var ok := InsertNode(from);
    }

    // The part of dht_periodic that takes a reply to announce_peer
    method TakeAck(id: Id, now: int) returns (asked: seq<Id>)
      requires Valid()
      modifies nodes
      ensures Valid() && Nodes() == Acknowledged(old(Nodes()), id, now)
    {
      hide Sorted, AckedBy, AskedIds, Askable;
      AcknowledgedKeepsSorted(Nodes(), target, id, now);
      NoteAck(id, now);
      asked := SendGetPeersToAny(now);
    }

    method NoteAck(id: Id, now: int)
      requires nodes.Length == SEARCH_NODES && numnodes <= SEARCH_NODES
      modifies nodes
      ensures Nodes() == AckedBy(old(Nodes()), id, now)
    {
      ghost var ns := Nodes();
      var i := 0;
      while i < numnodes && nodes[i].id != id
        invariant i <= numnodes
        invariant forall j: nat | j < i :: nodes[j].id != id
      {
        i := i + 1;
      }
      FirstWhereUnique(ns, (n: SearchNode) => n.id == id, i);
      if i < numnodes {
        nodes[i] := nodes[i].(requestTime := 0, replyTime := now, acked := true, pinged := 0);
      }
    }

    // Is there no live node among the closest eight that has yet to answer?
    method FirstLiveReplied() returns (allDone: bool)
      requires nodes.Length == SEARCH_NODES && numnodes <= SEARCH_NODES
      ensures allDone <==> AllReplied(Nodes())
    {
      hide Count;
      ghost var ns := Nodes();
      var i, j := 0, 0;
      while i < numnodes && j < 8
        invariant i <= numnodes && j == Count(ns[..i], Live())
        invariant forall k: nat | k < i && Wanted(ns, k) :: ns[k].replied
      {
        CountStep(ns, Live(), i);
        if nodes[i].pinged < 3 {
          if !nodes[i].replied {
            assert Wanted(ns, i);
            return false;
          }
          j := j + 1;
        }
        i := i + 1;
      }
      forall k: nat | k < numnodes && Wanted(ns, k) ensures ns[k].replied {
        if k >= i {
          CountGrows(ns, Live(), i, k);
          assert false;
        }
      }
      allDone := true;
    }

    // The announce loop of search_step
    method AnnounceRound(now: int) returns (allAcked: bool, asked: seq<Id>)
      requires nodes.Length == SEARCH_NODES && numnodes <= SEARCH_NODES
      modifies nodes
      ensures Nodes() == Announce(old(Nodes()), now)
      ensures allAcked <==> AllAcked(old(Nodes()))
      ensures asked == AskedIds(old(Nodes()), Nodes())
    {
      hide Count, AskedIds, Announced, MapFirst;
      ghost var ns := Nodes();
      ghost var r := Announce(ns, now);
      allAcked, asked := true, [];
      var i, j := 0, 0;
      AskedIdsRest(ns[..0], ns[..0], 0);
      NobodyAsked();
      while i < numnodes && j < 8
        invariant i <= numnodes && j == Count(ns[..i], Live())
        invariant forall k: nat | k < numnodes :: nodes[k] == if k < i then r[k] else ns[k]
        invariant allAcked <==> forall k: nat | k < i && Wanted(ns, k) :: ns[k].acked || ns[k].token == []
        invariant asked == AskedIds(ns[..i], r[..i])
      {
        CountStep(ns, Live(), i);
        AskedIdsStep(ns, r, i);
        AnnouncedCases(ns[i], now);
        if nodes[i].pinged < 3 {
          assert Wanted(ns, i);
          if nodes[i].token == [] {
            nodes[i] := nodes[i].(acked := true);
          }
          if !nodes[i].acked {
            allAcked := false;
            asked := asked + [nodes[i].id];
            nodes[i] := nodes[i].(pinged := nodes[i].pinged + 1, requestTime := now);
          }
          j := j + 1;
        }
        i := i + 1;
      }
      forall k: nat | i <= k < numnodes ensures !Wanted(ns, k) && r[k] == ns[k] {
        CountGrows(ns, Live(), i, k);
      }
      AskedIdsRest(ns, r, i);
      assert Nodes() == r;
    }

    // The query loop of search_step
    method QueryRound(now: int) returns (asked: seq<Id>)
      requires nodes.Length == SEARCH_NODES && numnodes <= SEARCH_NODES
      modifies nodes
      ensures Nodes() == Query(old(Nodes()), now)
      ensures asked == AskedIds(old(Nodes()), Nodes())
    {
      hide Count, AskedIds, MapFirst;
      ghost var ns := Nodes();
      ghost var r := Query(ns, now);
      ghost var p := (n: SearchNode) => Askable(n, now);
      asked := [];
      NobodyAsked();
      assert ns[..0] == [] == r[..0];
      NoneCounted(ns[..0], p);
      var i, j := 0, 0;
      while i < numnodes && j < 3
        invariant i <= numnodes && j == Count(ns[..i], p) <= 3
        invariant forall k: nat | k < numnodes :: nodes[k] == if k < i then r[k] else ns[k]
        invariant asked == AskedIds(ns[..i], r[..i])
      {
        CountStep(ns, p, i);
        AskedIdsStep(ns, r, i);
        ghost var before := Nodes();
        assert before[i] == ns[i];
        var sent := SendGetPeers(i, now);
        assert forall k: nat | k < numnodes && k != i :: Nodes()[k] == before[k];
        if sent {
          assert Among(ns, p, 3, i);
          assert Nodes()[i] == Asked(ns[i], now);
          asked := asked + [nodes[i].id];
          j := j + 1;
        }
        assert forall k: nat | k < numnodes :: nodes[k] == Nodes()[k];
        i := i + 1;
      }
      forall k: nat | i <= k < numnodes ensures !Among(ns, p, 3, k) {
        CountGrows(ns, p, i, k);
      }
      AskedIdsRest(ns, r, i);
      assert Nodes() == r;
    }

    // search_step: event says that the search is finished, asked whom we sent
    // requests to.
    method Step(now: int) returns (event: bool, asked: seq<Id>)
      requires Valid()
      modifies this`done, this`stepTime, nodes
      ensures Value() == SearchStep.Step(old(Value()), now)
      ensures event <==> Finishes(old(Value()))
      ensures asked == AskedIds(old(Nodes()), Nodes())
      ensures Valid()
    {
      hide Sorted, AllReplied, AllAcked, Announce, Query;
      ghost var ns := Nodes();
      StepKeepsSorted(ns, target, now);
      AskedIdsRest(ns, ns, 0);
      NobodyAsked();
      assert ns[..0] == [];
      var allDone := FirstLiveReplied();
      event, asked := false, [];
      if allDone {
        if port == 0 {
          event := true;
        } else {
          var allAcked;
          allAcked, asked := AnnounceRound(now);
          event := allAcked;
        }
        if event {
          done := true;
        }
        stepTime := now;
        return;
      }
      if stepTime + 15 >= now {
        return;
      }
      asked := QueryRound(now);
      stepTime := now;
    }
  }

  lemma OneAsked(ns: seq<SearchNode>, k: nat, now: int)
    requires k < |ns|
    ensures AskedIds(ns, ns[k := Asked(ns[k], now)]) == [ns[k].id]
  {
    hide AskedIds;
    var r := ns[k := Asked(ns[k], now)];
    AskedIdsRest(ns, r, k + 1);
    AskedIdsStep(ns, r, k);
    assert r[..k] == ns[..k];
    AskedIdsRest(ns[..k], ns[..k], 0);
    assert ns[..k][..0] == [];
    NobodyAsked();
  }

  lemma NobodyAsked()
    ensures AskedIds([], []) == []
  {}

  lemma AnnouncedCases(n: SearchNode, now: int)
    ensures Announced(n, now) ==
      if n.token == [] then n.(acked := true) else if n.acked then n else Asked(n, now)
  {}

  lemma InsertedIsListed(ns: seq<SearchNode>, target: Id, e: News)
    requires |ns| <= SEARCH_NODES && Sorted(ns, target)
    ensures e.id in IdsOf(Insert(ns, target, e)) <==> Place(IdsOf(ns), e.id, target) < SEARCH_NODES
  {
    hide Distance, SortedBy, Place, InsertAt, Noted;
    var i := Place(IdsOf(ns), e.id, target);
    PlaceInSorted(IdsOf(ns), e.id, target);
    if i < SEARCH_NODES {
      NotedId(Blank(e), e);
      InsertedAt(ns, target, e, i);
    }
  }

  lemma InsertedAt(ns: seq<SearchNode>, target: Id, e: News, i: nat)
    requires |ns| <= SEARCH_NODES && i == Place(IdsOf(ns), e.id, target) < SEARCH_NODES
    ensures e.id in IdsOf(Insert(ns, target, e))
  {
    hide Place;
    var r := Insert(ns, target, e);
    assert i < |r| && r[i].id == e.id;
    assert IdsOf(r)[i] == e.id;
  }

  lemma InsertAtPlace(ns: seq<SearchNode>, target: Id, e: News, i: nat, found: bool)
    requires |ns| <= SEARCH_NODES && i == Place(IdsOf(ns), e.id, target)
    requires found <==> i < |ns| && ns[i].id == e.id
    ensures Insert(ns, target, e) ==
      if found then ns[i := Noted(ns[i], e)]
      else if i == SEARCH_NODES then ns
      else InsertAt(ns, i, Blank(e), SEARCH_NODES)[i := Noted(InsertAt(ns, i, Blank(e), SEARCH_NODES)[i], e)]
  {
    hide Place, Distance, Noted, Blank;
    if !found && i < SEARCH_NODES {
      assert InsertAt(ns, i, Noted(Blank(e), e), SEARCH_NODES)
          == InsertAt(ns, i, Blank(e), SEARCH_NODES)[i := Noted(Blank(e), e)];
    }
  }
}
