/** Whom search_step looks at and whom it asks, counted out on the list itself. */
module StepLaws {
  import opened Ids
  import opened Seqs
  import opened XorMetric
  import opened SearchList
  import opened SearchStep

  // The live nodes before node i: those with fewer than three open requests
  ghost function LiveBefore(ns: seq<SearchNode>, i: nat): set<nat>
  {
    set j: nat | j < i && j < |ns| && ns[j].pinged < 3
  }

  // Node i is one of the eight closest live ones.
  ghost predicate EightClosest(ns: seq<SearchNode>, i: nat)
    requires i < |ns|
  {
    ns[i].pinged < 3 && |LiveBefore(ns, i)| < 8
  }

  // It may be sent a get_peers.
  ghost predicate Free(n: SearchNode, now: int)
  {
    n.pinged < 3 && !n.replied && n.requestTime < now - 15
  }

  ghost function FreeBefore(ns: seq<SearchNode>, i: nat, now: int): set<nat>
  {
    set j: nat | j < i && j < |ns| && Free(ns[j], now)
  }

  // Node i is one of the three closest of these.
  ghost predicate ThreeClosest(ns: seq<SearchNode>, i: nat, now: int)
    requires i < |ns|
  {
    Free(ns[i], now) && |FreeBefore(ns, i, now)| < 3
  }

  // All of the eight have replied, and for an announce each acked or gave no token.
  ghost predicate Ready(s: State)
  {
    forall i: nat | i < |s.nodes| && EightClosest(s.nodes, i) ::
      s.nodes[i].replied && (s.port == 0 || s.nodes[i].acked || s.nodes[i].token == [])
  }

  ghost predicate Heard(ns: seq<SearchNode>)
  {
    forall i: nat | i < |ns| && EightClosest(ns, i) :: ns[i].replied
  }

  // ----- counting is the size of the set -----

  ghost function Holding(ns: seq<SearchNode>, p: SearchNode -> bool, i: nat): set<nat>
  {
    set j: nat | j < i && j < |ns| && p(ns[j])
  }

  lemma NoneHolding(ns: seq<SearchNode>, p: SearchNode -> bool)
    ensures Holding(ns, p, 0) == {}
  {}

  lemma {:induction false} CountIsSize(ns: seq<SearchNode>, p: SearchNode -> bool, i: nat)
    requires i <= |ns|
    ensures Count(ns[..i], p) == |Holding(ns, p, i)|
  {
    if i == 0 {
      NoneHolding(ns, p);
    } else {
      CountIsSize(ns, p, i - 1);
      CountStep(ns, p, i - 1);
      assert Holding(ns, p, i) == Holding(ns, p, i - 1) + if p(ns[i - 1]) then {i - 1} else {};
    }
  }

  lemma WantedIsEightClosest(ns: seq<SearchNode>, i: nat)
    requires i < |ns|
    ensures Wanted(ns, i) <==> EightClosest(ns, i)
  {
    CountIsSize(ns, Live(), i);
    assert Holding(ns, Live(), i) == LiveBefore(ns, i);
  }

  lemma AmongIsThreeClosest(ns: seq<SearchNode>, i: nat, now: int)
    requires i < |ns|
    ensures Among(ns, (n: SearchNode) => Askable(n, now), 3, i) <==> ThreeClosest(ns, i, now)
  {
    var p := (n: SearchNode) => Askable(n, now);
    CountIsSize(ns, p, i);
    assert Holding(ns, p, i) == FreeBefore(ns, i, now);
  }

  // ----- the laws -----

  // A step reports the end exactly then.
  lemma FinishesIff(s: State)
    ensures Finishes(s) <==> Ready(s)
    ensures AllReplied(s.nodes) <==> Heard(s.nodes)
  {
    hide Wanted, EightClosest;
    forall i: nat | i < |s.nodes| ensures Wanted(s.nodes, i) <==> EightClosest(s.nodes, i) {
      WantedIsEightClosest(s.nodes, i);
    }
  }

  // What becomes of the search as a whole
  lemma StepOutcome(s: State, now: int)
    ensures
      var r := Step(s, now);
      && |r.nodes| == |s.nodes| && r.port == s.port
      && (r.done <==> s.done || Ready(s))
      && r.stepTime == (if Heard(s.nodes) || s.stepTime + 15 < now then now else s.stepTime)
  {
    hide AllReplied, AllAcked, Announce, Query, Ready, Heard;
    FinishesIff(s);
    StepLength(s, now);
  }

  lemma StepLength(s: State, now: int)
    ensures |Step(s, now).nodes| == |s.nodes|
  {}

  // What becomes of node i: when the eight have replied and we announce, each of them that
  // gave a token and has not acked is sent an announcement, and those without a token count
  // as acked.  When they have not, get_peers goes to the three closest that may be asked,
  // every 15 seconds.  Nothing else changes.
  lemma StepNode(s: State, now: int, i: nat)
    requires i < |s.nodes|
    ensures |Step(s, now).nodes| == |s.nodes|
    ensures
      var n := s.nodes[i];
      var asked := n.(pinged := n.pinged + 1, requestTime := now);
      Step(s, now).nodes[i] ==
        if Heard(s.nodes) then
          if s.port == 0 || !EightClosest(s.nodes, i) then n
          else if n.token == [] then n.(acked := true)
          else if n.acked then n else asked
        else if now <= s.stepTime + 15 || !ThreeClosest(s.nodes, i, now) then n
        else asked
  {
    hide Wanted, EightClosest, ThreeClosest, Among, AllAcked, AllReplied, Heard;
    FinishesIff(s);
    WantedIsEightClosest(s.nodes, i);
    AmongIsThreeClosest(s.nodes, i, now);
    AnnounceNode(s.nodes, now, i);
    QueryNode(s.nodes, now, i);
    StepLength(s, now);
  }

  lemma AnnounceNode(ns: seq<SearchNode>, now: int, i: nat)
    requires i < |ns|
    ensures |Announce(ns, now)| == |ns|
    ensures
      var n := ns[i];
      Announce(ns, now)[i] ==
        if !Wanted(ns, i) then n else if n.token == [] then n.(acked := true)
        else if n.acked then n else n.(pinged := n.pinged + 1, requestTime := now)
  {
    hide Among;
    assert Wanted(ns, i) <==> Among(ns, Live(), 8, i);
  }

  lemma QueryNode(ns: seq<SearchNode>, now: int, i: nat)
    requires i < |ns|
    ensures |Query(ns, now)| == |ns|
    ensures
      var n := ns[i];
      Query(ns, now)[i] ==
        if Among(ns, (n: SearchNode) => Askable(n, now), 3, i)
        then n.(pinged := n.pinged + 1, requestTime := now)
        else n
  {
    hide Among;
  }

  // At most three get_peers go out, and at most eight announcements.
  lemma AtMostThree(ns: seq<SearchNode>, now: int)
    ensures |set i: nat | i < |ns| && ThreeClosest(ns, i, now)| <= 3
    ensures |set i: nat | i < |ns| && EightClosest(ns, i)| <= 8
  {
    var free, three := FreeBefore(ns, |ns|, now), set i: nat | i < |ns| && ThreeClosest(ns, i, now);
    forall i: nat ensures i in three <==> i in free && |set j: nat | j < i && j in free| < 3 {
      if i < |ns| {
        assert (set j: nat | j < i && j in free) == FreeBefore(ns, i, now);
      }
    }
    FirstOfSet(free, three, 3);
    var live, eight := LiveBefore(ns, |ns|), set i: nat | i < |ns| && EightClosest(ns, i);
    forall i: nat ensures i in eight <==> i in live && |set j: nat | j < i && j in live| < 8 {
      if i < |ns| {
        assert (set j: nat | j < i && j in live) == LiveBefore(ns, i);
      }
    }
    FirstOfSet(live, eight, 8);
  }

  // The k smallest members of a set of numbers
  lemma FirstOfSet(s: set<nat>, t: set<nat>, k: nat)
    requires k > 0 && forall i: nat :: i in t <==> i in s && |set j: nat | j < i && j in s| < k
    ensures |t| <= k
  {
    if t != {} {
      var m := Largest(t);
      var before := set j: nat | j < m && j in s;
      assert t <= before + {m};
      SizeOfSubset(t, before + {m});
    }
  }

  lemma Largest(t: set<nat>) returns (m: nat)
    requires t != {}
    ensures m in t && forall i | i in t :: i <= m
  {
    var x :| x in t;
    var rest := t - {x};
    if rest == {} {
      m := x;
    } else {
      m := Largest(rest);
      m := if m < x then x else m;
    }
    forall i | i in t ensures i <= m {
      assert i == x || i in rest;
    }
  }

  lemma SizeOfSubset(a: set<nat>, b: set<nat>)
    requires a <= b
    ensures |a| <= |b|
  {
    assert b == a + (b - a);
  }

  // The ids a step reports as asked are those of the nodes with one more open request.
  lemma {:induction false} AskedIdsAre(a: seq<SearchNode>, b: seq<SearchNode>, x: Id)
    requires |a| == |b|
    ensures x in AskedIds(a, b) <==> exists i: nat :: i < |a| && a[i].id == x && b[i].pinged > a[i].pinged
  {
    if a != [] {
      var n := |a| - 1;
      AskedIdsAre(a[..n], b[..n], x);
      if i: nat :| i < |a| && a[i].id == x && b[i].pinged > a[i].pinged {
        if i < n {
          assert a[..n][i].id == x && b[..n][i].pinged > a[..n][i].pinged;
        }
      }
      if i: nat :| i < n && a[..n][i].id == x && b[..n][i].pinged > a[..n][i].pinged {
        assert a[i].id == x && b[i].pinged > a[i].pinged;
      }
    }
  }

  // ----- replies -----

  // The one more request that a reply or an ack brings goes to the last node of the list that
  // may be asked, and to no other.
  ghost function AskedLast(ns: seq<SearchNode>, now: int, i: nat): SearchNode
    requires i < |ns|
  {
    var n := ns[i];
    if Free(n, now) && !(exists j: nat :: i < j < |ns| && Free(ns[j], now))
    then n.(pinged := n.pinged + 1, requestTime := now)
    else n
  }

  lemma OneMoreAsked(ns: seq<SearchNode>, now: int, i: nat)
    requires i < |ns|
    ensures AskAny(ns, now)[i] == AskedLast(ns, now, i)
  {
    var k := LastAskable(ns, now);
    assert k >= 0 ==> Free(ns[k], now);
    assert forall j: nat | k < j < |ns| :: !Free(ns[j], now);
  }

  // What a search was offered, of its own family
  function FamilyIds(es: seq<News>, ipv4: bool): set<Id>
  {
    set e | e in es && e.addr.V4? == ipv4 :: e.id
  }

  lemma FamilyIdsStep(es: seq<News>, e: News, ipv4: bool)
    ensures FamilyIds(es + [e], ipv4) == FamilyIds(es, ipv4) + if e.addr.V4? == ipv4 then {e.id} else {}
  {}

  lemma {:induction false} AllHeardKeepsClosest(ns: seq<SearchNode>, target: Id, ipv4: bool, es: seq<News>,
                                               offered: set<Id>)
    requires |ns| <= 14 && Closest(IdsOf(ns), offered, target, 14)
    ensures Closest(IdsOf(AllHeard(ns, target, ipv4, es)), offered + FamilyIds(es, ipv4), target, 14)
  {
    hide Closest, IdsOf, Insert, FamilyIds, Distance;
    if es == [] {
      NoFamilyIds(ipv4);
      assert offered + {} == offered;
    } else {
      var k := |es| - 1;
      AllHeardKeepsClosest(ns, target, ipv4, es[..k], offered);
      var before, so := AllHeard(ns, target, ipv4, es[..k]), offered + FamilyIds(es[..k], ipv4);
      FamilyIdsStep(es[..k], es[k], ipv4);
      assert es == es[..k] + [es[k]];
      if es[k].addr.V4? == ipv4 {
        InsertKeepsClosest(before, target, es[k], so);
        assert so + {es[k].id} == offered + FamilyIds(es, ipv4);
      } else {
        assert FamilyIds(es[..k], ipv4) + {} == FamilyIds(es[..k], ipv4);
      }
    }
  }

  lemma NoFamilyIds(ipv4: bool)
    ensures FamilyIds([], ipv4) == {}
  {}

  lemma AskAnyKeepsIds(ns: seq<SearchNode>, now: int)
    ensures IdsOf(AskAny(ns, now)) == IdsOf(ns)
  {
    var k := LastAskable(ns, now);
    if k >= 0 {
      IdsOfUpdate(ns, k, Asked(ns[k], now));
    }
  }

  // A reply leaves the 14 closest of all that was offered before, of the nodes it names and
  // of its sender; and the sender, if it is among them, has replied and is asked nothing more.
  lemma ReplyIsHeard(ns: seq<SearchNode>, target: Id, ipv4: bool, found: seq<News>, from: News, now: int,
                     offered: set<Id>, n: SearchNode)
    requires |ns| <= 14 && Closest(IdsOf(ns), offered, target, 14)
    requires from.replied && from.addr.V4? == ipv4
    ensures Closest(IdsOf(Replied(ns, target, ipv4, found, from, now)),
                    offered + FamilyIds(found, ipv4) + {from.id}, target, 14)
    ensures n in Replied(ns, target, ipv4, found, from, now) && n.id == from.id ==>
      n.replied && n.addr == from.addr && n.replyTime == from.now && n.pinged == 0 && n.requestTime == 0
  {
    hide Closest, IdsOf, AllHeard, AskAny, Insert;
    AllHeardKeepsClosest(ns, target, ipv4, found, offered);
    var so, ids := AllHeard(ns, target, ipv4, found), offered + FamilyIds(found, ipv4);
    AskAnyKeepsIds(so, now);
    InsertKeepsClosest(AskAny(so, now), target, from, ids);
    ClosestIsSorted(IdsOf(AskAny(so, now)), ids, target, 14);
    SortedFromIds(AskAny(so, now), target);
    if n in Insert(AskAny(so, now), target, from) {
      InsertedEntries(AskAny(so, now), target, from, n);
    }
  }

  lemma SortedFromIds(ns: seq<SearchNode>, target: Id)
    requires SortedBy(IdsOf(ns), target)
    ensures Sorted(ns, target)
  {}

  // The other nodes that are listed by then are as they were, but for the one more request.
  lemma ReplyAsksOne(ns: seq<SearchNode>, target: Id, ipv4: bool, found: seq<News>, from: News, now: int, i: nat)
    requires |ns| <= 14 && Sorted(ns, target)
    requires var so := AllHeard(ns, target, ipv4, found);
      i < |so| && so[i].id != from.id && (from.addr.V4? == ipv4 ==> from.id in IdsOf(so))
    ensures i < |Replied(ns, target, ipv4, found, from, now)|
    ensures Replied(ns, target, ipv4, found, from, now)[i] == AskedLast(AllHeard(ns, target, ipv4, found), now, i)
  {
    hide Sorted, IdsOf, AllHeard, AskAny, AskedLast, SortedBy, Noted, Distance;
    var so := AllHeard(ns, target, ipv4, found);
    AllHeardKeepsSorted(ns, target, ipv4, found);
    OneMoreAsked(so, now, i);
    AskAnyKeepsIds(so, now);
    AskAnyKeepsSorted(so, target, now);
    var asked := AskAny(so, now);
    if from.addr.V4? == ipv4 {
      PlaceOfListed(asked, target, from.id);
    }
  }

  lemma PlaceOfListed(ns: seq<SearchNode>, target: Id, id: Id)
    requires Sorted(ns, target) && id in IdsOf(ns)
    ensures Place(IdsOf(ns), id, target) < |ns| && ns[Place(IdsOf(ns), id, target)].id == id
  {
    hide Distance;
    PlaceInSorted(IdsOf(ns), id, target);
  }

  function HasAcked(n: SearchNode, now: int): SearchNode
  {
    SearchNode(n.id, n.addr, 0, now, 0, n.token, n.replied, true)
  }

  // After an ack: the node it is from has acked and has nothing open, and then one more
  // request goes out.
  lemma AckIsHeard(ns: seq<SearchNode>, target: Id, id: Id, now: int, acked: seq<SearchNode>, i: nat)
    requires Sorted(ns, target) && i < |ns| == |acked|
    requires forall j: nat | j < |ns| ::
      acked[j] == if ns[j].id == id then HasAcked(ns[j], now) else ns[j]
    ensures Acknowledged(ns, id, now)[i] == AskedLast(acked, now, i)
  {
    hide Sorted, AskAny, AckedBy, AskedLast;
    forall j: nat | j < |ns| ensures AckedBy(ns, id, now)[j] == acked[j] {
      AckedEntry(ns, target, id, now, j);
    }
    assert AckedBy(ns, id, now) == acked;
    OneMoreAsked(acked, now, i);
  }
}
