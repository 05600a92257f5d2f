/** search_step as values: when a search is finished, whom it asks next, and why a
    search that gets no replies comes to an end. */
module SearchStep {
  import opened Ids
  import opened Seqs
  import opened XorMetric
  import opened SearchList

  // ----- the first k elements with a property -----

  function Count<T>(s: seq<T>, p: T -> bool): (c: nat)
    ensures c <= |s|
  {
    if s == [] then 0 else Count(s[..|s| - 1], p) + (if p(s[|s| - 1]) then 1 else 0)
  }

  // Element i is one of the first k elements that satisfy p.
  predicate Among<T>(s: seq<T>, p: T -> bool, k: nat, i: nat)
    requires i < |s|
  {
    p(s[i]) && Count(s[..i], p) < k
  }

  // f applied to the first k elements that satisfy p.
  function MapFirst<T>(s: seq<T>, p: T -> bool, k: nat, f: T -> T): (r: seq<T>)
    ensures |r| == |s|
    ensures forall i: nat {:trigger r[i]} | i < |s| :: r[i] == if Among(s, p, k, i) then f(s[i]) else s[i]
  {
    if s == [] then [] else
      var n := |s| - 1;
      assert forall i: nat | i < n :: s[..n][..i] == s[..i];
      MapFirst(s[..n], p, k, f) + [if Among(s, p, k, n) then f(s[n]) else s[n]]
  }

  lemma {:induction false} CountGrows<T>(s: seq<T>, p: T -> bool, i: nat, k: nat)
    requires i <= k <= |s|
    ensures Count(s[..i], p) <= Count(s[..k], p)
  {
    if i < k {
      CountGrows(s, p, i, k - 1);
      assert s[..k][..k - 1] == s[..k - 1];
    }
  }

  lemma CountStep<T>(s: seq<T>, p: T -> bool, i: nat)
    requires i < |s|
    ensures Count(s[..i + 1], p) == Count(s[..i], p) + (if p(s[i]) then 1 else 0)
  {
    assert s[..i + 1][..i] == s[..i];
  }

  // ----- one step -----

  datatype State = State(nodes: seq<SearchNode>, port: nat, done: bool, stepTime: int)

  function Live(): SearchNode -> bool
  {
    (n: SearchNode) => n.pinged < 3
  }

  // Node i counts among the eight closest live ones.
  predicate Wanted(ns: seq<SearchNode>, i: nat)
    requires i < |ns|
  {
    Among(ns, Live(), 8, i)
  }

  predicate AllReplied(ns: seq<SearchNode>)
  {
    forall i: nat | i < |ns| && Wanted(ns, i) :: ns[i].replied
  }

  // Acked, or excused because it gave us no token.
  predicate AllAcked(ns: seq<SearchNode>)
  {
    forall i: nat | i < |ns| && Wanted(ns, i) :: ns[i].acked || ns[i].token == []
  }

  function Asked(n: SearchNode, now: int): SearchNode
  {
    n.(pinged := n.pinged + 1, requestTime := now)
  }

  // One turn of the announce loop of search_step.
  function Announced(n: SearchNode, now: int): SearchNode
  {
    var n1 := if n.token == [] then n.(acked := true) else n;
    if n1.acked then n1 else Asked(n1, now)
  }

  function Announce(ns: seq<SearchNode>, now: int): seq<SearchNode>
  {
    MapFirst(ns, Live(), 8, (n: SearchNode) => Announced(n, now))
  }

  predicate Askable(n: SearchNode, now: int)
  {
    n.pinged < 3 && !n.replied && n.requestTime < now - 15
  }

  // get_peers goes to the first three nodes that may be asked.
  function Query(ns: seq<SearchNode>, now: int): seq<SearchNode>
  {
    MapFirst(ns, (n: SearchNode) => Askable(n, now), 3, (n: SearchNode) => Asked(n, now))
  }

  predicate Finishes(s: State)
  {
    AllReplied(s.nodes) && (s.port == 0 || AllAcked(s.nodes))
  }

  // search_step
  function Step(s: State, now: int): State
  {
    if AllReplied(s.nodes) then
      var ns := if s.port == 0 then s.nodes else Announce(s.nodes, now);
      if Finishes(s) then State(ns, s.port, true, now) else State(ns, s.port, s.done, now)
    else if s.stepTime + 15 >= now then s
    else State(Query(s.nodes, now), s.port, s.done, now)
  }

  // The ids a step sent requests to, given the nodes before and after it.
  function AskedIds(a: seq<SearchNode>, b: seq<SearchNode>): seq<Id>
    requires |a| == |b|
  {
    if a == [] then [] else
      var n := |a| - 1;
      AskedIds(a[..n], b[..n]) + (if b[n].pinged > a[n].pinged then [a[n].id] else [])
  }

  lemma AskedIdsStep(a: seq<SearchNode>, b: seq<SearchNode>, i: nat)
    requires |a| == |b| && i < |a|
    ensures AskedIds(a[..i + 1], b[..i + 1])
         == AskedIds(a[..i], b[..i]) + (if b[i].pinged > a[i].pinged then [a[i].id] else [])
  {
    assert a[..i + 1][..i] == a[..i] && b[..i + 1][..i] == b[..i];
  }

  // Nobody is asked in the part of the list that did not change.
  lemma {:induction false} AskedIdsRest(a: seq<SearchNode>, b: seq<SearchNode>, i: nat)
    requires |a| == |b| && i <= |a| && forall j: nat | i <= j < |a| :: b[j] == a[j]
    ensures AskedIds(a, b) == AskedIds(a[..i], b[..i])
  {
    if i == |a| {
      assert a[..i] == a && b[..i] == b;
    } else {
      var n := |a| - 1;
      AskedIdsRest(a[..n], b[..n], i);
      assert a[..n][..i] == a[..i] && b[..n][..i] == b[..i];
    }
  }

  // ----- a silent search finishes -----

  // The requests still to be sent before the node is given up.
  function Left(n: SearchNode): nat
  {
    if n.pinged >= 3 then 0 else 3 - n.pinged
  }

  function TotalLeft(ns: seq<SearchNode>): (t: nat)
    ensures t <= 3 * |ns|
  {
    if ns == [] then 0 else TotalLeft(ns[..|ns| - 1]) + Left(ns[|ns| - 1])
  }

  lemma {:induction false} LeftFalls(a: seq<SearchNode>, b: seq<SearchNode>)
    requires |a| == |b| && forall i: nat | i < |a| :: Left(b[i]) <= Left(a[i])
    ensures TotalLeft(b) <= TotalLeft(a)
    ensures (exists i: nat :: i < |a| && Left(b[i]) < Left(a[i])) ==> TotalLeft(b) < TotalLeft(a)
  {
    hide Left;
    if a != [] {
      LeftFalls(a[..|a| - 1], b[..|b| - 1]);
      if i: nat :| i < |a| && Left(b[i]) < Left(a[i]) {
        if i < |a| - 1 {
          assert Left(b[..|b| - 1][i]) < Left(a[..|a| - 1][i]);
        }
      }
    }
  }

  lemma {:induction false} FirstAmong<T>(s: seq<T>, p: T -> bool, k: nat, i: nat) returns (j: nat)
    requires i < |s| && p(s[i]) && k > 0
    ensures j < |s| && Among(s, p, k, j)
  {
    if i' : nat :| i' < i && p(s[i']) {
      j := FirstAmong(s, p, k, i');
    } else {
      NoneCounted(s[..i], p);
      j := i;
    }
  }

  lemma {:induction false} NoneCounted<T>(s: seq<T>, p: T -> bool)
    requires forall j: nat | j < |s| :: !p(s[j])
    ensures Count(s, p) == 0
  {
    if s != [] {
      NoneCounted(s[..|s| - 1], p);
    }
  }

  // An announce round that leaves a node unacked asks one more time.
  lemma AnnounceLowers(ns: seq<SearchNode>, now: int)
    ensures TotalLeft(Announce(ns, now)) <= TotalLeft(ns)
    ensures !AllAcked(ns) ==> TotalLeft(Announce(ns, now)) < TotalLeft(ns)
  {
    hide Count;
    var r := Announce(ns, now);
    forall i: nat | i < |ns| ensures Left(r[i]) <= Left(ns[i]) {
      assert r[i] == if Among(ns, Live(), 8, i) then Announced(ns[i], now) else ns[i];
    }
    if !AllAcked(ns) {
      var i: nat :| i < |ns| && Wanted(ns, i) && !(ns[i].acked || ns[i].token == []);
      assert r[i] == Announced(ns[i], now);
      assert Left(r[i]) < Left(ns[i]);
    }
    hide Left;
    LeftFalls(ns, r);
  }

  // A query round asks at least one node if some node may be asked.
  lemma QueryLowers(ns: seq<SearchNode>, now: int, i: nat)
    requires i < |ns| && Askable(ns[i], now)
    ensures TotalLeft(Query(ns, now)) < TotalLeft(ns)
  {
    hide Count;
    var p := (n: SearchNode) => Askable(n, now);
    var r := Query(ns, now);
    forall i: nat | i < |ns| ensures Left(r[i]) <= Left(ns[i]) {
      assert r[i] == if Among(ns, p, 3, i) then Asked(ns[i], now) else ns[i];
    }
    var j := FirstAmong(ns, p, 3, i);
    assert r[j] == Asked(ns[j], now);
    assert Left(r[j]) < Left(ns[j]);
    LeftFalls(ns, r);
  }

  // No request was sent after the last step.
  ghost predicate Settled(s: State)
  {
    forall n | n in s.nodes :: n.requestTime <= s.stepTime
  }

  lemma StepSettles(s: State, now: int)
    requires Settled(s) && now > s.stepTime
    ensures Settled(Step(s, now))
  {
    hide Count, AllReplied, AllAcked;
    var r := Step(s, now);
    forall n | n in r.nodes ensures n.requestTime <= r.stepTime {
      var i: nat :| i < |r.nodes| && r.nodes[i] == n;
      assert s.nodes[i] in s.nodes;
    }
  }

  // A step of an unfinished search either finishes it or uses up a request.
  lemma StepProgress(s: State, now: int)
    requires !s.done && Settled(s) && now > s.stepTime + 15
    ensures Step(s, now).done || TotalLeft(Step(s, now).nodes) < TotalLeft(s.nodes)
  {
    hide Count;
    if AllReplied(s.nodes) {
      AnnounceLowers(s.nodes, now);
    } else {
      var i: nat :| i < |s.nodes| && Wanted(s.nodes, i) && !s.nodes[i].replied;
      assert s.nodes[i] in s.nodes;
      QueryLowers(s.nodes, now, i);
    }
  }

  // The steps at the given times, until the search is done.
  function SilentRun(s: State, times: seq<int>): State
    decreases |times|
  {
    if s.done || times == [] then s else SilentRun(Step(s, times[0]), times[1..])
  }

  ghost predicate Spaced(last: int, times: seq<int>)
    decreases |times|
  {
    times != [] ==> times[0] > last + 15 && Spaced(times[0], times[1..])
  }

  lemma {:induction false} SilentSearchFinishes(s: State, times: seq<int>)
    requires Settled(s) && Spaced(s.stepTime, times) && |times| > TotalLeft(s.nodes)
    ensures SilentRun(s, times).done
    decreases |times|
  {
    hide Step, Settled, TotalLeft;
    if !s.done {
      var t := Step(s, times[0]);
      StepProgress(s, times[0]);
      StepSettles(s, times[0]);
      StepTime(s, times[0]);
      if !t.done {
        SilentSearchFinishes(t, times[1..]);
      }
    }
  }

  lemma StepTime(s: State, now: int)
    requires now > s.stepTime + 15
    ensures Step(s, now).stepTime == now && |Step(s, now).nodes| == |s.nodes|
  {}

  // Without replies, 43 steps more than 15 seconds apart finish any search.
  lemma FortyThreeStepsFinish(s: State, times: seq<int>)
    requires |s.nodes| <= SEARCH_NODES && Settled(s) && Spaced(s.stepTime, times) && |times| >= 43
    ensures SilentRun(s, times).done
  {
    SilentSearchFinishes(s, times);
  }

  // The first step of a search, whatever happened before it, settles the search.
  lemma FirstStepSettles(s: State, now: int)
    requires now > s.stepTime + 15 && forall n | n in s.nodes :: n.requestTime <= now
    ensures Settled(Step(s, now))
  {
    hide Count, AllReplied, AllAcked;
    var r := Step(s, now);
    forall n | n in r.nodes ensures n.requestTime <= r.stepTime {
      var i: nat :| i < |r.nodes| && r.nodes[i] == n;
      assert s.nodes[i] in s.nodes;
    }
  }

  // ----- replies -----

  // The last node that may be asked, or -1.
  function LastAskable(ns: seq<SearchNode>, now: int): (k: int)
    ensures -1 <= k < |ns| && (k >= 0 ==> Askable(ns[k], now))
    ensures forall j: nat | k < j < |ns| :: !Askable(ns[j], now)
  {
    if ns == [] then -1
    else if Askable(ns[|ns| - 1], now) then |ns| - 1
    else LastAskable(ns[..|ns| - 1], now)
  }

  // insert_search_node, which refuses addresses of the other family
  ghost function Heard(ns: seq<SearchNode>, target: Id, ipv4: bool, e: News): (r: seq<SearchNode>)
    requires |ns| <= SEARCH_NODES
    ensures |r| <= SEARCH_NODES
  {
    if e.addr.V4? == ipv4 then Insert(ns, target, e) else ns
  }

  ghost function AllHeard(ns: seq<SearchNode>, target: Id, ipv4: bool, es: seq<News>): (r: seq<SearchNode>)
    requires |ns| <= SEARCH_NODES
    ensures |r| <= SEARCH_NODES
  {
    if es == [] then ns else Heard(AllHeard(ns, target, ipv4, es[..|es| - 1]), target, ipv4, es[|es| - 1])
  }

  // One more request, to the last node that may be asked
  function AskAny(ns: seq<SearchNode>, now: int): (r: seq<SearchNode>)
    ensures |r| == |ns|
  {
    var k := LastAskable(ns, now);
    if k < 0 then ns else ns[k := Asked(ns[k], now)]
  }

  // A reply to get_peers
  ghost function Replied(ns: seq<SearchNode>, target: Id, ipv4: bool, found: seq<News>, from: News, now: int)
    : (r: seq<SearchNode>)
    requires |ns| <= SEARCH_NODES
    ensures |r| <= SEARCH_NODES
  {
    Heard(AskAny(AllHeard(ns, target, ipv4, found), now), target, ipv4, from)
  }

  // A reply to announce_peer, and one more request
  function Acknowledged(ns: seq<SearchNode>, id: Id, now: int): (r: seq<SearchNode>)
    ensures |r| == |ns|
  {
    AskAny(AckedBy(ns, id, now), now)
  }

  function AckedBy(ns: seq<SearchNode>, id: Id, now: int): (r: seq<SearchNode>)
    ensures |r| == |ns|
  {
    var k := FirstWhere(ns, (n: SearchNode) => n.id == id);
    if k < |ns| then ns[k := ns[k].(requestTime := 0, replyTime := now, acked := true, pinged := 0)] else ns
  }

  lemma HeardKeepsSorted(ns: seq<SearchNode>, target: Id, ipv4: bool, e: News)
    requires |ns| <= SEARCH_NODES && Sorted(ns, target)
    ensures Sorted(Heard(ns, target, ipv4, e), target)
  {
    hide Sorted, Insert;
    InsertKeepsSorted(ns, target, e);
  }

  lemma {:induction false} AllHeardKeepsSorted(ns: seq<SearchNode>, target: Id, ipv4: bool, es: seq<News>)
    requires |ns| <= SEARCH_NODES && Sorted(ns, target)
    ensures Sorted(AllHeard(ns, target, ipv4, es), target)
  {
    hide Sorted, Heard;
    if es != [] {
      AllHeardKeepsSorted(ns, target, ipv4, es[..|es| - 1]);
      HeardKeepsSorted(AllHeard(ns, target, ipv4, es[..|es| - 1]), target, ipv4, es[|es| - 1]);
    }
  }

  lemma AskAnyKeepsSorted(ns: seq<SearchNode>, target: Id, now: int)
    requires Sorted(ns, target)
    ensures Sorted(AskAny(ns, now), target)
  {
    hide IdsOf, SortedBy;
    var k := LastAskable(ns, now);
    if k >= 0 {
      IdsOfUpdate(ns, k, Asked(ns[k], now));
    }
  }

  lemma RepliedKeepsSorted(ns: seq<SearchNode>, target: Id, ipv4: bool, found: seq<News>, from: News, now: int)
    requires |ns| <= SEARCH_NODES && Sorted(ns, target)
    ensures Sorted(Replied(ns, target, ipv4, found, from, now), target)
  {
    hide Sorted, AllHeard, AskAny, Heard;
    AllHeardKeepsSorted(ns, target, ipv4, found);
    AskAnyKeepsSorted(AllHeard(ns, target, ipv4, found), target, now);
    HeardKeepsSorted(AskAny(AllHeard(ns, target, ipv4, found), now), target, ipv4, from);
  }

  // An ack settles the node it is from and no other.
  lemma AckedEntry(ns: seq<SearchNode>, target: Id, id: Id, now: int, i: nat)
    requires Sorted(ns, target) && i < |ns|
    ensures AckedBy(ns, id, now)[i] ==
      if ns[i].id == id then ns[i].(requestTime := 0, replyTime := now, acked := true, pinged := 0) else ns[i]
  {
    hide Sorted;
    SortedIdsDiffer(ns, target, i);
  }

  lemma AcknowledgedKeepsSorted(ns: seq<SearchNode>, target: Id, id: Id, now: int)
    requires Sorted(ns, target)
    ensures Sorted(Acknowledged(ns, id, now), target)
  {
    hide Sorted, AckedBy, AskAny;
    AckedByKeepsSorted(ns, target, id, now);
    AskAnyKeepsSorted(AckedBy(ns, id, now), target, now);
  }

  lemma AckedByKeepsSorted(ns: seq<SearchNode>, target: Id, id: Id, now: int)
    requires Sorted(ns, target)
    ensures Sorted(AckedBy(ns, id, now), target)
  {
    hide IdsOf, SortedBy;
    var k := FirstWhere(ns, (n: SearchNode) => n.id == id);
    if k < |ns| {
      IdsOfUpdate(ns, k, ns[k].(requestTime := 0, replyTime := now, acked := true, pinged := 0));
    }
  }

  lemma StepKeepsSorted(ns: seq<SearchNode>, target: Id, now: int)
    requires Sorted(ns, target)
    ensures Sorted(Announce(ns, now), target) && Sorted(Query(ns, now), target)
  {
    hide Distance, Among;
    assert IdsOf(Announce(ns, now)) == IdsOf(ns);
    assert IdsOf(Query(ns, now)) == IdsOf(ns);
  }
}
