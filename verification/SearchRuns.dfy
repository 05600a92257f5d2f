/** All searches together, as a state machine: calls of dht_search, periodic steps,
    expiry, replies and the removal of broken nodes in any order. */
module SearchRuns {
  import opened Ids
  import opened Seqs
  import opened XorMetric
  import opened SearchList
  import opened SearchStep
  import StepLaws

  const MAX_SEARCHES: nat := 1024
  const EXPIRE_TIME: nat := 62 * 60

  datatype Entry = Entry(ipv4: bool, tid: nat, id: Id, st: State)

  // calls counts the calls of dht_search, finished the done events handed to the
  // application.
  datatype Searches = Searches(list: seq<Entry>, nextTid: nat, calls: nat, finished: nat)

  datatype Event =
    | Call(id: Id, port: nat, ipv4: bool, now: int, candidates: seq<News>)
    | Tick(now: int)
    | Expiry(now: int)
    // A reply to get_peers of the search tid; it is broken if its lists of nodes are.
    | Reply(tid: nat, from: News, found: seq<News>, broken: bool, now: int)
    | Ack(tid: nat, ipv4: bool, id: Id, now: int)
    | Condemned(id: Id)             // blacklist_node

  const START: Searches := Searches([], 0, 0, 0)

  // The search for the same id in the same family, or |list|.
  function Position(ss: seq<Entry>, id: Id, ipv4: bool): (k: nat)
    ensures k <= |ss|
  {
    FirstWhere(ss, (e: Entry) => e.ipv4 == ipv4 && e.id == id)
  }

  // The first of the done searches that were stepped the longest ago, or -1.
  function OldestDone(ss: seq<Entry>): (k: int)
    ensures -1 <= k < |ss| && (k >= 0 ==> ss[k].st.done)
    ensures forall j: nat | j < |ss| && ss[j].st.done :: k >= 0 && ss[k].st.stepTime <= ss[j].st.stepTime
  {
    if ss == [] then -1 else
      var n := |ss| - 1;
      var k := OldestDone(ss[..n]);
      if ss[n].st.done && (k < 0 || ss[k].st.stepTime > ss[n].st.stepTime) then n else k
  }

  // new_search: the list with its new slot, and the position of the slot.  A done
  // search that expired is reused; otherwise a slot is added in front; a full list
  // reuses the oldest done search, if there is one.
  function NewSearch(ss: seq<Entry>, now: int, blank: Entry): (r: Option<(seq<Entry>, nat)>)
    ensures r.Some? ==> r.value.1 < |r.value.0| && r.value.0[r.value.1] == blank
  {
    var k := OldestDone(ss);
    if k >= 0 && ss[k].st.stepTime < now - EXPIRE_TIME then Some((ss[k := blank], k))
    else if |ss| < MAX_SEARCHES then Some(([blank] + ss, 0))
    else if k >= 0 then Some((ss[k := blank], k))
    else None
  }

  // dht_search steps a search right away: at position k, with the candidates from
  // the routing table.
  ghost function StartAt(s: Searches, k: nat, ns: seq<SearchNode>, c: Event): Searches
    requires k < |s.list| && c.Call? && |ns| <= SEARCH_NODES
  {
    var e := s.list[k];
    var st := Step(e.st.(nodes := AllHeard(ns, e.id, e.ipv4, c.candidates), port := c.port, done := false), c.now);
    s.(list := s.list[k := e.(st := st)], finished := s.finished + (if st.done then 1 else 0))
  }

  ghost function Called(s: Searches, c: Event): Searches
    requires c.Call? && AllOk(s.list)
  {
    var k := Position(s.list, c.id, c.ipv4);
    var s1 := s.(calls := s.calls + 1);
    if k < |s.list| then
      EntryIsOk(s.list, k);
      StartAt(s1, k, Reuse(s.list[k].st.nodes, c.now), c)
    else
      var blank := Entry(c.ipv4, s.nextTid, c.id, State([], c.port, false, 0));
      match NewSearch(s.list, c.now, blank)
      case None => s1
      case Some((list, i)) =>
        StartAt(s1.(list := list, nextTid := (s.nextTid + 1) % 0x1_0000), i, [], c)
  }

  // find_search: the first search with that number in the family, or |list|
  function SearchOf(ss: seq<Entry>, tid: nat, ipv4: bool): (k: nat)
    ensures k <= |ss|
  {
    FirstWhere(ss, (e: Entry) => e.tid == tid && e.ipv4 == ipv4)
  }

  function WithNodes(e: Entry, ns: seq<SearchNode>): Entry
  {
    e.(st := e.st.(nodes := ns))
  }

  // The loop of blacklist_node over all searches
  function FlushAll(ss: seq<Entry>, id: Id): (r: seq<Entry>)
    ensures |r| == |ss|
    ensures forall i: nat {:trigger r[i]} | i < |ss| :: r[i] == WithNodes(ss[i], FlushId(ss[i].st.nodes, id))
  {
    if ss == [] then [] else
      var e := ss[|ss| - 1];
      FlushAll(ss[..|ss| - 1], id) + [WithNodes(e, FlushId(e.st.nodes, id))]
  }

  // A reply whose lists have a wrong length condemns its sender, which is then entered
  // all the same.
  ghost function HeardFrom(e: Entry, ev: Event): Entry
    requires ev.Reply? && |e.st.nodes| <= SEARCH_NODES
  {
    WithNodes(e, if ev.broken then Heard(e.st.nodes, e.id, e.ipv4, ev.from)
                 else Replied(e.st.nodes, e.id, e.ipv4, ev.found, ev.from, ev.now))
  }

  // The loop of dht_periodic over the unfinished searches
  function Ticked(e: Entry, now: int): Entry
  {
    if !e.st.done && e.st.stepTime + 5 <= now then e.(st := Step(e.st, now)) else e
  }

  function TickAll(ss: seq<Entry>, now: int): (r: seq<Entry>)
    ensures |r| == |ss| && forall i: nat {:trigger r[i]} | i < |ss| :: r[i] == Ticked(ss[i], now)
  {
    if ss == [] then [] else TickAll(ss[..|ss| - 1], now) + [Ticked(ss[|ss| - 1], now)]
  }

  function U(e: Entry): nat
  {
    if e.st.done then 0 else 1
  }

  function Undone(ss: seq<Entry>): (u: nat)
  {
    if ss == [] then 0 else Undone(ss[..|ss| - 1]) + U(ss[|ss| - 1])
  }

  // The searches a round of steps finished: one done event each.
  function NewlyDone(a: seq<Entry>, b: seq<Entry>): nat
    requires |a| == |b|
  {
    if a == [] then 0 else
      var n := |a| - 1;
      NewlyDone(a[..n], b[..n]) + (if !a[n].st.done && b[n].st.done then 1 else 0)
  }

  ghost function Next(s: Searches, ev: Event): Searches
    requires Valid(s)
  {
    match ev
    case Call(_, _, _, _, _) => Called(s, ev)
    case Tick(now) =>
      var list := TickAll(s.list, now);
      s.(list := list, finished := s.finished + NewlyDone(s.list, list))
    case Expiry(now) =>
      s.(list := Filter(s.list, (e: Entry) => e.st.stepTime >= now - EXPIRE_TIME))
    case Reply(tid, from, _, broken, _) =>
      var list := if broken then FlushAll(s.list, from.id) else s.list;
      var k := SearchOf(s.list, tid, from.addr.V4?);
      if k < |s.list| then
        FlushAllKeepsOk(s.list, from.id);
        EntryIsOk(list, k);
        s.(list := list[k := HeardFrom(list[k], ev)])
      else s.(list := list)
    case Ack(tid, ipv4, id, now) =>
      var k := SearchOf(s.list, tid, ipv4);
      if k < |s.list| then
        var e := s.list[k];
        s.(list := s.list[k := WithNodes(e, Acknowledged(e.st.nodes, id, now))])
      else s
    case Condemned(id) => s.(list := FlushAll(s.list, id))
  }

  // At most 14 nodes, in order of their distance, which makes them all different
  ghost predicate EntryOk(e: Entry)
  {
    |e.st.nodes| <= SEARCH_NODES && Sorted(e.st.nodes, e.id)
  }

  ghost predicate AllOk(ss: seq<Entry>)
  {
    forall e | e in ss :: EntryOk(e)
  }

  // No two searches are for the same id in the same family.
  ghost predicate DistinctKeys(ss: seq<Entry>)
  {
    forall i: nat, j: nat | i < j < |ss| :: !(ss[i].ipv4 == ss[j].ipv4 && ss[i].id == ss[j].id)
  }

  // Every done event is paid for by a call, and every unfinished search by another.
  ghost predicate Valid(s: Searches)
  {
    && s.finished + Undone(s.list) <= s.calls
    && |s.list| <= MAX_SEARCHES
    && AllOk(s.list) && DistinctKeys(s.list)
  }

  // ----- what keeps the lists in order -----

  // The same searches, in the same places
  ghost predicate SameKeys(a: seq<Entry>, b: seq<Entry>)
  {
    |a| == |b| && forall i: nat | i < |a| :: a[i].ipv4 == b[i].ipv4 && a[i].id == b[i].id
  }

  lemma SameKeysDistinct(a: seq<Entry>, b: seq<Entry>)
    requires SameKeys(a, b) && DistinctKeys(a)
    ensures DistinctKeys(b)
  {}

  lemma UpdateKeepsOk(ss: seq<Entry>, k: nat, e: Entry)
    requires AllOk(ss) && k < |ss| && EntryOk(e)
    ensures AllOk(ss[k := e])
  {
    hide EntryOk;
    assert forall x | x in ss[k := e] :: x == e || x in ss;
  }

  lemma FlushOk(e: Entry, id: Id)
    requires EntryOk(e)
    ensures EntryOk(WithNodes(e, FlushId(e.st.nodes, id)))
    ensures FlushId(e.st.nodes, id) == Filter(e.st.nodes, (n: SearchNode) => n.id != id)
  {
    hide Sorted, FlushId, Filter;
    FlushIdRemoves(e.st.nodes, e.id, id, 0);
  }

  lemma FlushAllKeepsOk(ss: seq<Entry>, id: Id)
    requires AllOk(ss)
    ensures AllOk(FlushAll(ss, id)) && SameKeys(ss, FlushAll(ss, id)) && Undone(FlushAll(ss, id)) == Undone(ss)
  {
    hide EntryOk, FlushAll, FlushId, Undone;
    var r := FlushAll(ss, id);
    forall e | e in r ensures EntryOk(e) {
      var i: nat :| i < |r| && r[i] == e;
      assert ss[i] in ss;
      FlushOk(ss[i], id);
    }
    SameDone(ss, r);
  }

  lemma {:induction false} SameDone(a: seq<Entry>, b: seq<Entry>)
    requires |a| == |b| && forall i: nat | i < |a| :: a[i].st.done == b[i].st.done
    ensures Undone(a) == Undone(b)
  {
    if a != [] {
      SameDone(a[..|a| - 1], b[..|b| - 1]);
    }
  }

  lemma HeardFromOk(e: Entry, ev: Event)
    requires EntryOk(e) && ev.Reply?
    ensures EntryOk(HeardFrom(e, ev))
  {
    hide Sorted, Heard, Replied;
    HeardKeepsSorted(e.st.nodes, e.id, e.ipv4, ev.from);
    RepliedKeepsSorted(e.st.nodes, e.id, e.ipv4, ev.found, ev.from, ev.now);
  }

  lemma AckOk(e: Entry, id: Id, now: int)
    requires EntryOk(e)
    ensures EntryOk(WithNodes(e, Acknowledged(e.st.nodes, id, now)))
  {
    hide Sorted, Acknowledged;
    AcknowledgedKeepsSorted(e.st.nodes, e.id, id, now);
  }

  lemma StepOk(target: Id, s: State, now: int)
    requires |s.nodes| <= SEARCH_NODES && Sorted(s.nodes, target)
    ensures |Step(s, now).nodes| <= SEARCH_NODES && Sorted(Step(s, now).nodes, target)
  {
    hide Sorted, AllReplied, AllAcked, Announce, Query;
    StepKeepsLength(s, now);
    StepKeepsSorted(s.nodes, target, now);
  }

  lemma TickedOk(e: Entry, now: int)
    requires EntryOk(e)
    ensures EntryOk(Ticked(e, now))
  {
    hide Step, Sorted;
    StepOk(e.id, e.st, now);
  }

  // ----- what keeps the account -----

  lemma {:induction false} UndoneUpdate(ss: seq<Entry>, k: nat, e: Entry)
    requires k < |ss|
    ensures Undone(ss[k := e]) + U(ss[k]) == Undone(ss) + U(e)
  {
    var n := |ss| - 1;
    if k < n {
      UndoneUpdate(ss[..n], k, e);
      assert ss[k := e][..n] == ss[..n][k := e];
    } else {
      assert ss[k := e][..n] == ss[..n];
    }
  }

  lemma {:induction false} UndoneCons(e: Entry, ss: seq<Entry>)
    ensures Undone([e] + ss) == U(e) + Undone(ss)
  {
    var n := |ss|;
    if n == 0 {
      assert [e] + ss == [e];
      assert [e][..0] == [];
    } else {
      UndoneCons(e, ss[..n - 1]);
      assert ([e] + ss)[..n] == [e] + ss[..n - 1];
    }
  }

  lemma {:induction false} FilterUndone(ss: seq<Entry>, p: Entry -> bool)
    ensures Undone(Filter(ss, p)) <= Undone(ss) && |Filter(ss, p)| <= |ss|
  {
    if ss != [] {
      FilterUndone(ss[1..], p);
      assert ss == [ss[0]] + ss[1..];
      UndoneCons(ss[0], ss[1..]);
      UndoneCons(ss[0], Filter(ss[1..], p));
      assert Filter(ss, p) == if p(ss[0]) then [ss[0]] + Filter(ss[1..], p) else Filter(ss[1..], p);
    }
  }

  lemma {:induction false} TickAccounts(ss: seq<Entry>, now: int)
    ensures NewlyDone(ss, TickAll(ss, now)) + Undone(TickAll(ss, now)) == Undone(ss)
  {
    hide Step;
    if ss != [] {
      var n := |ss| - 1;
      TickAccounts(ss[..n], now);
      assert TickAll(ss, now)[..n] == TickAll(ss[..n], now);
    }
  }

  lemma StartKeepsValid(s: Searches, k: nat, ns: seq<SearchNode>, c: Event)
    requires k < |s.list| <= MAX_SEARCHES && c.Call? && AllOk(s.list) && DistinctKeys(s.list)
    requires |ns| <= SEARCH_NODES && Sorted(ns, s.list[k].id)
    requires s.finished + Undone(s.list) + 1 - U(s.list[k]) <= s.calls
    ensures Valid(StartAt(s, k, ns, c))
  {
    hide Undone, Step, EntryOk, AllOk, DistinctKeys, AllHeard;
    var e := s.list[k];
    var st0 := e.st.(nodes := AllHeard(ns, e.id, e.ipv4, c.candidates), port := c.port, done := false);
    StepKeepsLength(st0, c.now);
    var e' := e.(st := Step(st0, c.now));
    UndoneUpdate(s.list, k, e');
    StartOk(e, ns, c);
    UpdateKeepsOk(s.list, k, e');
    SameKeysDistinct(s.list, s.list[k := e']);
  }

  lemma StartOk(e: Entry, ns: seq<SearchNode>, c: Event)
    requires c.Call? && |ns| <= SEARCH_NODES && Sorted(ns, e.id)
    ensures var ns' := AllHeard(ns, e.id, e.ipv4, c.candidates);
      EntryOk(e.(st := Step(e.st.(nodes := ns', port := c.port, done := false), c.now)))
  {
    hide Sorted, AllHeard, Step;
    AllHeardKeepsSorted(ns, e.id, e.ipv4, c.candidates);
    var st0 := e.st.(nodes := AllHeard(ns, e.id, e.ipv4, c.candidates), port := c.port, done := false);
    StepOk(e.id, st0, c.now);
  }

  lemma StepKeepsLength(s: State, now: int)
    ensures |Step(s, now).nodes| == |s.nodes|
    ensures s.done ==> Step(s, now).done
  {}

  lemma CalledKeepsValid(s: Searches, c: Event)
    requires Valid(s) && c.Call?
    ensures Valid(Called(s, c))
  {
    hide Undone, StartAt, OldestDone, NewSearch, DistinctKeys, Sorted;
    var k := Position(s.list, c.id, c.ipv4);
    var s1 := s.(calls := s.calls + 1);
    if k < |s.list| {
      assert EntryOk(s.list[k]);
      ReuseKeepsSorted(s.list[k].st.nodes, s.list[k].id, c.now, 0);
      StartKeepsValid(s1, k, Reuse(s.list[k].st.nodes, c.now), c);
    } else {
      var blank := Entry(c.ipv4, s.nextTid, c.id, State([], c.port, false, 0));
      var r := NewSearch(s.list, c.now, blank);
      if r.Some? {
        NobodySorted(c.id);
        NewSlotAccounts(s.list, c.now, blank);
        StartKeepsValid(s1.(list := r.value.0, nextTid := (s.nextTid + 1) % 0x1_0000), r.value.1, [], c);
      }
    }
  }

  lemma NobodySorted(target: Id)
    ensures Sorted([], target)
  {}

  // A new slot is either added, or taken from a done search.
  lemma NewSlotAccounts(ss: seq<Entry>, now: int, blank: Entry)
    requires !blank.st.done && blank.st.nodes == [] && AllOk(ss) && DistinctKeys(ss) && |ss| <= MAX_SEARCHES
    requires Position(ss, blank.id, blank.ipv4) == |ss|
    ensures var r := NewSearch(ss, now, blank);
      r.Some? ==>
        && |r.value.0| <= MAX_SEARCHES && Undone(r.value.0) == Undone(ss) + 1
        && AllOk(r.value.0) && DistinctKeys(r.value.0)
  {
    hide Undone, EntryOk, AllOk, DistinctKeys, Position;
    var k := OldestDone(ss);
    BlankOk(blank);
    if k >= 0 {
      UndoneUpdate(ss, k, blank);
      UpdateKeepsOk(ss, k, blank);
      NewKeyDistinct(ss, k, blank);
    }
    UndoneCons(blank, ss);
    ConsOk(ss, blank);
  }

  lemma BlankOk(blank: Entry)
    requires blank.st.nodes == []
    ensures EntryOk(blank)
  {
    hide Sorted;
    NobodySorted(blank.id);
  }

  lemma NewKeyDistinct(ss: seq<Entry>, k: nat, blank: Entry)
    requires DistinctKeys(ss) && k < |ss| && Position(ss, blank.id, blank.ipv4) == |ss|
    ensures DistinctKeys(ss[k := blank])
  {}

  lemma ConsOk(ss: seq<Entry>, blank: Entry)
    requires AllOk(ss) && DistinctKeys(ss) && EntryOk(blank) && Position(ss, blank.id, blank.ipv4) == |ss|
    ensures AllOk([blank] + ss) && DistinctKeys([blank] + ss)
  {
    hide EntryOk;
    var r := [blank] + ss;
    forall i: nat, j: nat | i < j < |r| ensures !(r[i].ipv4 == r[j].ipv4 && r[i].id == r[j].id) {
      assert r[j] == ss[j - 1];
      assert i > 0 ==> r[i] == ss[i - 1];
    }
  }

  lemma {:induction false} FilterKeepsDistinct(ss: seq<Entry>, p: Entry -> bool)
    requires DistinctKeys(ss)
    ensures DistinctKeys(Filter(ss, p))
  {
    if ss != [] {
      FilterKeepsDistinct(ss[1..], p);
      var rest := Filter(ss[1..], p);
      hide Filter;
      forall j: nat | j < |rest| ensures !(ss[0].ipv4 == rest[j].ipv4 && ss[0].id == rest[j].id) {
        FilterMembers(ss[1..], p, rest[j]);
        var i: nat :| i < |ss[1..]| && ss[1..][i] == rest[j];
        assert ss[i + 1] == rest[j];
      }
    }
  }

  lemma FilterKeepsOk(ss: seq<Entry>, p: Entry -> bool)
    requires AllOk(ss)
    ensures AllOk(Filter(ss, p))
  {
    hide EntryOk, Filter;
    forall e | e in Filter(ss, p) ensures EntryOk(e) {
      FilterMembers(ss, p, e);
    }
  }

  lemma NextKeepsValid(s: Searches, ev: Event)
    requires Valid(s)
    ensures Valid(Next(s, ev)) && Next(s, ev).calls == s.calls + (if ev.Call? then 1 else 0)
  {
    hide Undone, Called, TickAll, NewlyDone, Step, AllOk, DistinctKeys, EntryOk, FlushAll, SearchOf, HeardFrom,
         Acknowledged, Filter;
    match ev
    case Call(_, _, _, _, _) =>
      CalledKeepsValid(s, ev);
      CalledCounts(s, ev);
    case Tick(now) =>
      TickAccounts(s.list, now);
      TickAllKeepsOk(s.list, now);
    case Expiry(now) =>
      var p := (e: Entry) => e.st.stepTime >= now - EXPIRE_TIME;
      FilterUndone(s.list, p);
      FilterKeepsOk(s.list, p);
      FilterKeepsDistinct(s.list, p);
    case Reply(tid, from, _, broken, _) =>
      FlushAllKeepsOk(s.list, from.id);
      var list := if broken then FlushAll(s.list, from.id) else s.list;
      if broken {
        SameKeysDistinct(s.list, list);
      }
      var k := SearchOf(s.list, tid, from.addr.V4?);
      if k < |s.list| {
        EntryIsOk(list, k);
        HeardFromOk(list[k], ev);
        HeardFromKeys(list[k], ev);
        NodesChanged(list, k, HeardFrom(list[k], ev).st.nodes);
      }
    case Ack(tid, ipv4, id, now) =>
      var k := SearchOf(s.list, tid, ipv4);
      if k < |s.list| {
        EntryIsOk(s.list, k);
        AckOk(s.list[k], id, now);
        NodesChanged(s.list, k, Acknowledged(s.list[k].st.nodes, id, now));
      }
    case Condemned(id) =>
      FlushAllKeepsOk(s.list, id);
      SameKeysDistinct(s.list, FlushAll(s.list, id));
  }

  lemma EntryIsOk(ss: seq<Entry>, k: nat)
    requires AllOk(ss) && k < |ss|
    ensures EntryOk(ss[k]) && |ss[k].st.nodes| <= SEARCH_NODES
  {}

  lemma HeardFromKeys(e: Entry, ev: Event)
    requires ev.Reply? && |e.st.nodes| <= SEARCH_NODES
    ensures HeardFrom(e, ev) == WithNodes(e, HeardFrom(e, ev).st.nodes)
  {}

  // Other nodes in one search change neither keys nor accounts.
  lemma NodesChanged(ss: seq<Entry>, k: nat, ns: seq<SearchNode>)
    requires AllOk(ss) && DistinctKeys(ss) && k < |ss| && EntryOk(WithNodes(ss[k], ns))
    ensures AllOk(ss[k := WithNodes(ss[k], ns)]) && DistinctKeys(ss[k := WithNodes(ss[k], ns)])
    ensures Undone(ss[k := WithNodes(ss[k], ns)]) == Undone(ss)
  {
    hide EntryOk, Undone, AllOk, DistinctKeys;
    UndoneUpdate(ss, k, WithNodes(ss[k], ns));
    UpdateKeepsOk(ss, k, WithNodes(ss[k], ns));
    SameKeysDistinct(ss, ss[k := WithNodes(ss[k], ns)]);
  }

  lemma TickAllKeepsOk(ss: seq<Entry>, now: int)
    requires AllOk(ss) && DistinctKeys(ss)
    ensures AllOk(TickAll(ss, now)) && DistinctKeys(TickAll(ss, now))
  {
    hide EntryOk, DistinctKeys, TickAll, Step;
    var r := TickAll(ss, now);
    forall e | e in r ensures EntryOk(e) {
      var i: nat :| i < |r| && r[i] == e;
      assert ss[i] in ss;
      TickedOk(ss[i], now);
    }
    SameKeysDistinct(ss, r);
  }

  lemma CalledCounts(s: Searches, c: Event)
    requires Valid(s) && c.Call?
    ensures Called(s, c).calls == s.calls + 1
  {}

  ghost function Run(evs: seq<Event>): (s: Searches)
    ensures Valid(s)
  {
    if evs == [] then START else
      var s := Run(evs[..|evs| - 1]);
      NextKeepsValid(s, evs[|evs| - 1]);
      Next(s, evs[|evs| - 1])
  }

  function Calls(evs: seq<Event>): nat
  {
    if evs == [] then 0 else Calls(evs[..|evs| - 1]) + (if evs[|evs| - 1].Call? then 1 else 0)
  }

  // Over any run the application gets at most one done event for each call of
  // dht_search, and at most 1024 searches are kept.
  lemma {:induction false} DoneEventsAreBounded(evs: seq<Event>)
    ensures Run(evs).calls == Calls(evs)
    ensures Run(evs).finished + Undone(Run(evs).list) <= Calls(evs)
    ensures |Run(evs).list| <= 1024
  {
    hide Next, Undone;
    if evs != [] {
      DoneEventsAreBounded(evs[..|evs| - 1]);
      NextKeepsValid(Run(evs[..|evs| - 1]), evs[|evs| - 1]);
    }
  }

  // In every run each search lists at most 14 nodes, and no two searches are for the same
  // id and family.
  lemma SearchesStayApart(evs: seq<Event>, i: nat, j: nat)
    requires i < |Run(evs).list| && j < |Run(evs).list|
    ensures |Run(evs).list[i].st.nodes| <= 14
    ensures i != j ==> !(Run(evs).list[i].ipv4 == Run(evs).list[j].ipv4 && Run(evs).list[i].id == Run(evs).list[j].id)
  {
    hide Run, Undone;
    assert EntryOk(Run(evs).list[i]);
    assert i < j || j < i || i == j;
  }

  // In every run the nodes of a search are all different, in order of their distance to
  // its target.
  lemma SearchesStaySorted(evs: seq<Event>, i: nat, a: nat, b: nat)
    requires i < |Run(evs).list| && a < b < |Run(evs).list[i].st.nodes|
    ensures var e := Run(evs).list[i];
      && Distance(e.st.nodes[a].id, e.id) < Distance(e.st.nodes[b].id, e.id)
      && e.st.nodes[a].id != e.st.nodes[b].id
  {
    hide Run, Undone, Distance;
    var e := Run(evs).list[i];
    assert EntryOk(e);
    assert IdsOf(e.st.nodes)[a] == e.st.nodes[a].id && IdsOf(e.st.nodes)[b] == e.st.nodes[b].id;
  }

  // Whatever went before, right after blacklist_node no search lists the id, and every
  // search lists all others as before.
  lemma CondemnedIsGone(evs: seq<Event>, id: Id, i: nat)
    requires i < |Run(evs).list|
    ensures var after := Run(evs + [Condemned(id)]).list;
      && |after| == |Run(evs).list|
      && after[i].st.nodes == Filter(Run(evs).list[i].st.nodes, (n: SearchNode) => n.id != id)
      && forall n | n in after[i].st.nodes :: n.id != id
  {
    hide Run, Filter, EntryOk, WithNodes;
    OneMore(evs, Condemned(id));
    var ns := Run(evs).list[i].st.nodes;
    assert EntryOk(Run(evs).list[i]);
    FlushedAt(Run(evs).list, id, i);
    forall n | n in Filter(ns, (n: SearchNode) => n.id != id) ensures n.id != id {
      FilterMembers(ns, (n: SearchNode) => n.id != id, n);
    }
  }

  lemma OneMore(evs: seq<Event>, ev: Event)
    ensures Run(evs + [ev]) == Next(Run(evs), ev)
  {
    hide Next;
    assert (evs + [ev])[..|evs|] == evs;
  }

  lemma FlushedAt(ss: seq<Entry>, id: Id, i: nat)
    requires i < |ss| && EntryOk(ss[i])
    ensures FlushAll(ss, id)[i].st.nodes == Filter(ss[i].st.nodes, (n: SearchNode) => n.id != id)
  {
    hide Filter, FlushId, EntryOk;
    FlushOk(ss[i], id);
  }

  // ----- what becomes of the searches -----

  ghost predicate IsFor(e: Entry, id: Id, ipv4: bool)
  {
    e.id == id && e.ipv4 == ipv4
  }

  // A search that may go for a new one: the oldest of those that are done, if there is no
  // room or it was not stepped for 62 minutes
  ghost predicate Replaceable(ss: seq<Entry>, now: int, e: Entry)
  {
    && e.st.done && (|ss| >= 1024 || now > e.st.stepTime + 62 * 60)
    && forall x | x in ss && x.st.done :: e.st.stepTime <= x.st.stepTime
  }

  // A call of dht_search leaves a search for its id with its port, unless there was none
  // before, 1024 searches are kept, and none of them is done.  No other search is changed,
  // and only such a one can go.
  lemma CallIsSearched(s: Searches, c: Event, e: Entry)
    requires Valid(s) && c.Call?
    ensures (exists x :: x in Called(s, c).list && IsFor(x, c.id, c.ipv4) && x.st.port == c.port) <==>
      (exists x :: x in s.list && IsFor(x, c.id, c.ipv4)) || |s.list| < 1024 || exists x :: x in s.list && x.st.done
    ensures e in s.list && !IsFor(e, c.id, c.ipv4) ==> e in Called(s, c).list || Replaceable(s.list, c.now, e)
  {
    hide Undone, Replaceable, AllHeard, Step, Reuse, EntryOk, AllOk, DistinctKeys;
    var k := Position(s.list, c.id, c.ipv4);
    var s1 := s.(calls := s.calls + 1);
    if k < |s.list| {
      EntryIsOk(s.list, k);
      assert s.list[k] in s.list && IsFor(s.list[k], c.id, c.ipv4);
      StartedAt(s1, k, Reuse(s.list[k].st.nodes, c.now), c, e);
    } else {
      assert forall x | x in s.list :: !IsFor(x, c.id, c.ipv4);
      var blank := Entry(c.ipv4, s.nextTid, c.id, State([], c.port, false, 0));
      var r := NewSearch(s.list, c.now, blank);
      NewSearchMeans(s.list, c.now, blank, e);
      if r.Some? {
        StartedAt(s1.(list := r.value.0, nextTid := (s.nextTid + 1) % 0x1_0000), r.value.1, [], c, e);
      }
    }
  }

  // There is one search more exactly if it is new, there is room, and none is to be replaced.
  lemma CallGrows(s: Searches, c: Event)
    requires Valid(s) && c.Call?
    ensures |Called(s, c).list| == |s.list| +
      if (exists x :: x in s.list && (IsFor(x, c.id, c.ipv4) || (x.st.done && c.now > x.st.stepTime + 62 * 60)))
         || |s.list| >= 1024
      then 0 else 1
  {
    hide Undone, AllHeard, Step, Reuse, EntryOk, AllOk, DistinctKeys;
    var k := Position(s.list, c.id, c.ipv4);
    if k < |s.list| {
      assert s.list[k] in s.list && IsFor(s.list[k], c.id, c.ipv4);
    } else {
      assert forall x | x in s.list :: !IsFor(x, c.id, c.ipv4);
      var j := OldestDone(s.list);
      if x :| x in s.list && x.st.done && c.now > x.st.stepTime + 62 * 60 {
        var i: nat :| i < |s.list| && s.list[i] == x;
      }
    }
  }

  ghost predicate Started(x: Entry, c: Event, tid: nat)
    requires c.Call?
  {
    && IsFor(x, c.id, c.ipv4) && x.tid == tid && (c.now > 15 ==> x.st.stepTime == c.now)
    && Closest(IdsOf(x.st.nodes), StepLaws.FamilyIds(c.candidates, c.ipv4), c.id, 14)
  }

  // A search that is new lists the 14 closest of the nodes it starts with, and was stepped.
  lemma NewSearchLists(s: Searches, c: Event)
    requires Valid(s) && c.Call? && forall x | x in s.list :: !IsFor(x, c.id, c.ipv4)
    requires |s.list| < 1024 || exists x :: x in s.list && x.st.done
    ensures Called(s, c).nextTid == (s.nextTid + 1) % 0x1_0000
    ensures exists x :: x in Called(s, c).list && Started(x, c, s.nextTid)
  {
    hide Undone, AllHeard, Step, EntryOk, AllOk, DistinctKeys, Closest, IdsOf, StepLaws.FamilyIds, NewSearch;
    var blank := Entry(c.ipv4, s.nextTid, c.id, State([], c.port, false, 0));
    NewSearchMeans(s.list, c.now, blank, blank);
    PositionMeans(s.list, c.id, c.ipv4);
    var r := NewSearch(s.list, c.now, blank).value;
    var st := blank.st.(nodes := AllHeard([], c.id, c.ipv4, c.candidates), port := c.port, done := false);
    StartsWithClosest(c.id, c.ipv4, c.candidates);
    StepKeepsIds(st, c.now);
    assert Called(s, c).list == r.0[r.1 := blank.(st := Step(st, c.now))];
    assert Called(s, c).list[r.1] in Called(s, c).list;
  }

  lemma PositionMeans(ss: seq<Entry>, id: Id, ipv4: bool)
    ensures Position(ss, id, ipv4) < |ss| ==> exists x :: x in ss && IsFor(x, id, ipv4)
  {
    var k := Position(ss, id, ipv4);
    if k < |ss| {
      assert ss[k] in ss;
    }
  }

  lemma StartsWithClosest(target: Id, ipv4: bool, es: seq<News>)
    ensures Closest(IdsOf(AllHeard([], target, ipv4, es)), StepLaws.FamilyIds(es, ipv4), target, 14)
  {
    hide AllHeard, StepLaws.FamilyIds;
    assert Closest(IdsOf([]), {}, target, 14);
    StepLaws.AllHeardKeepsClosest([], target, ipv4, es, {});
    assert {} + StepLaws.FamilyIds(es, ipv4) == StepLaws.FamilyIds(es, ipv4);
  }

  lemma StepKeepsIds(s: State, now: int)
    ensures IdsOf(Step(s, now).nodes) == IdsOf(s.nodes)
    ensures s.nodes == [] || s.stepTime + 15 < now ==> Step(s, now).stepTime == now
  {
    hide Announce, Query, AllReplied, AllAcked, IdsOf;
    RoundsKeepIds(s.nodes, now);
    if s.nodes == [] {
      NothingWanted();
    }
  }

  lemma NothingWanted()
    ensures AllReplied([])
  {}

  lemma RoundsKeepIds(ns: seq<SearchNode>, now: int)
    ensures IdsOf(Announce(ns, now)) == IdsOf(ns)
    ensures IdsOf(Query(ns, now)) == IdsOf(ns)
  {
    hide Among;
  }

  lemma NewSearchMeans(ss: seq<Entry>, now: int, blank: Entry, e: Entry)
    ensures
      var r := NewSearch(ss, now, blank);
      && (r.Some? <==> |ss| < 1024 || exists x :: x in ss && x.st.done)
      && (r.Some? && e in ss ==> e in r.value.0 || Replaceable(ss, now, e))
  {
    var k := OldestDone(ss);
    if x :| x in ss && x.st.done {
      var i: nat :| i < |ss| && ss[i] == x;
    }
    if e in ss {
      var i: nat :| i < |ss| && ss[i] == e;
      assert k >= 0 && i != k ==> ss[k := blank][i] == e;
      assert ([blank] + ss)[i + 1] == e;
    }
  }

  lemma StartedAt(s: Searches, k: nat, ns: seq<SearchNode>, c: Event, e: Entry)
    requires k < |s.list| && c.Call? && |ns| <= SEARCH_NODES && IsFor(s.list[k], c.id, c.ipv4)
    ensures exists x :: x in StartAt(s, k, ns, c).list && IsFor(x, c.id, c.ipv4) && x.st.port == c.port
    ensures e in s.list && !IsFor(e, c.id, c.ipv4) ==> e in StartAt(s, k, ns, c).list
  {
    hide AllHeard, Step;
    var list := StartAt(s, k, ns, c).list;
    var e' := s.list[k];
    StepKeepsPort(e'.st.(nodes := AllHeard(ns, e'.id, e'.ipv4, c.candidates), port := c.port, done := false), c.now);
    assert list[k] in list;
    if e in s.list && !IsFor(e, c.id, c.ipv4) {
      var i: nat :| i < |s.list| && s.list[i] == e;
      assert list[i] == e;
    }
  }

  lemma StepKeepsPort(s: State, now: int)
    ensures Step(s, now).port == s.port
  {}

  // A tick steps exactly the unfinished searches that were not stepped for five seconds, and
  // an expiry keeps exactly those that were within the last 62 minutes.
  lemma TickAndExpiry(s: Searches, now: int, i: nat, e: Entry)
    requires Valid(s)
    ensures |Next(s, Tick(now)).list| == |s.list|
    ensures i < |s.list| ==>
      Next(s, Tick(now)).list[i] ==
        if !s.list[i].st.done && now >= s.list[i].st.stepTime + 5 then s.list[i].(st := Step(s.list[i].st, now))
        else s.list[i]
    ensures e in Next(s, Expiry(now)).list <==> e in s.list && e.st.stepTime >= now - 62 * 60
  {
    hide Step, Valid;
    FilterMembers(s.list, (e: Entry) => e.st.stepTime >= now - EXPIRE_TIME, e);
  }

  // A call hands out a done event exactly if its search is done at once, and a tick one for
  // every search that it finishes.
  lemma CallReportsDone(s: Searches, c: Event)
    requires Valid(s) && c.Call?
    ensures Called(s, c).finished ==
      s.finished + if exists x :: x in Called(s, c).list && IsFor(x, c.id, c.ipv4) && x.st.done then 1 else 0
  {
    NextKeepsValid(s, c);
    hide Undone, AllHeard, Step, Reuse, EntryOk, AllOk;
    var r := Called(s, c);
    var k := Position(s.list, c.id, c.ipv4);
    if k < |s.list| {
      EntryIsOk(s.list, k);
      OnlyOneIsFor(r.list, k, c);
    } else {
      PositionMeans(s.list, c.id, c.ipv4);
      var blank := Entry(c.ipv4, s.nextTid, c.id, State([], c.port, false, 0));
      var n := NewSearch(s.list, c.now, blank);
      if n.Some? {
        OnlyOneIsFor(r.list, n.value.1, c);
      } else {
        assert r.list == s.list;
        NoneIsFor(s.list, c);
      }
    }
  }

  lemma NoneIsFor(ss: seq<Entry>, c: Event)
    requires c.Call? && Position(ss, c.id, c.ipv4) == |ss|
    ensures forall x | x in ss :: !IsFor(x, c.id, c.ipv4)
  {}

  lemma OnlyOneIsFor(ss: seq<Entry>, k: nat, c: Event)
    requires c.Call? && DistinctKeys(ss) && k < |ss| && IsFor(ss[k], c.id, c.ipv4)
    ensures (exists x :: x in ss && IsFor(x, c.id, c.ipv4) && x.st.done) <==> ss[k].st.done
  {
    if x :| x in ss && IsFor(x, c.id, c.ipv4) && x.st.done {
      var i: nat :| i < |ss| && ss[i] == x;
    }
    assert ss[k] in ss;
  }

  lemma TickReportsDone(s: Searches, now: int)
    requires Valid(s)
    ensures var r := Next(s, Tick(now));
      && |r.list| == |s.list|
      && r.finished == s.finished + |set i: nat | i < |s.list| && !s.list[i].st.done && r.list[i].st.done|
  {
    hide Undone, Step;
    var list := TickAll(s.list, now);
    NewlyDoneIsSize(s.list, list, |s.list|);
    assert s.list[..|s.list|] == s.list && list[..|list|] == list;
  }

  // The searches among the first k that are done in b but not in a
  ghost function DoneSince(a: seq<Entry>, b: seq<Entry>, k: nat): set<nat>
    requires k <= |a| == |b|
  {
    set i: nat | i < k && !a[i].st.done && b[i].st.done
  }

  lemma DoneSinceStep(a: seq<Entry>, b: seq<Entry>, k: nat)
    requires k < |a| == |b|
    ensures DoneSince(a, b, k + 1) == DoneSince(a, b, k) + if !a[k].st.done && b[k].st.done then {k} else {}
    ensures k !in DoneSince(a, b, k)
  {}

  lemma {:induction false} NewlyDoneIsSize(a: seq<Entry>, b: seq<Entry>, k: nat)
    requires k <= |a| == |b|
    ensures NewlyDone(a[..k], b[..k]) == |DoneSince(a, b, k)|
  {
    hide DoneSince;
    if k == 0 {
      NoneDone(a, b);
    } else {
      NewlyDoneIsSize(a, b, k - 1);
      DoneSinceStep(a, b, k - 1);
      assert a[..k][..k - 1] == a[..k - 1] && b[..k][..k - 1] == b[..k - 1];
    }
  }

  lemma NoneDone(a: seq<Entry>, b: seq<Entry>)
    requires |a| == |b|
    ensures DoneSince(a, b, 0) == {}
  {}

  // ----- replies and acks -----

  // Search i is the first of the family with that number.
  ghost predicate Addressed(ss: seq<Entry>, tid: nat, ipv4: bool, i: nat)
    requires i < |ss|
  {
    && ss[i].tid == tid && ss[i].ipv4 == ipv4
    && !(exists j: nat :: j < i && ss[j].tid == tid && ss[j].ipv4 == ipv4)
  }

  lemma AddressedIsSearchOf(ss: seq<Entry>, tid: nat, ipv4: bool, i: nat)
    requires i < |ss|
    ensures Addressed(ss, tid, ipv4, i) <==> SearchOf(ss, tid, ipv4) == i
  {
    if Addressed(ss, tid, ipv4, i) {
      FirstWhereUnique(ss, (e: Entry) => e.tid == tid && e.ipv4 == ipv4, i);
    }
  }

  // A reply in order reaches the search of its number and family and no other.
  lemma ReplyIsForOne(s: Searches, ev: Event, i: nat)
    requires Valid(s) && ev.Reply? && !ev.broken && i < |s.list| && |s.list[i].st.nodes| <= 14
    ensures |Next(s, ev).list| == |s.list|
    ensures Next(s, ev).list[i] ==
      if Addressed(s.list, ev.tid, ev.from.addr.V4?, i) then HeardFrom(s.list[i], ev) else s.list[i]
  {
    hide SearchOf, Addressed, HeardFrom, Undone, EntryOk, DistinctKeys, AllOk;
    AddressedIsSearchOf(s.list, ev.tid, ev.from.addr.V4?, i);
  }

  // So does an ack.
  lemma AckIsForOne(s: Searches, ev: Event, i: nat)
    requires Valid(s) && ev.Ack? && i < |s.list|
    ensures |Next(s, ev).list| == |s.list|
    ensures Next(s, ev).list[i] ==
      if Addressed(s.list, ev.tid, ev.ipv4, i)
      then WithNodes(s.list[i], Acknowledged(s.list[i].st.nodes, ev.id, ev.now))
      else s.list[i]
  {
    hide SearchOf, Addressed, Acknowledged, Undone, EntryOk, DistinctKeys, AllOk;
    AddressedIsSearchOf(s.list, ev.tid, ev.ipv4, i);
  }

  // A broken one takes its sender out of every search first; e is what blacklist_node leaves
  // of search i.
  lemma BrokenIsFlushed(s: Searches, ev: Event, i: nat, e: Entry)
    requires Valid(s) && ev.Reply? && ev.broken && i < |s.list|
    requires e == WithNodes(s.list[i], FlushId(s.list[i].st.nodes, ev.from.id)) && |e.st.nodes| <= 14
    ensures |Next(s, Condemned(ev.from.id)).list| == |Next(s, ev).list| == |s.list|
    ensures Next(s, Condemned(ev.from.id)).list[i] == e
    ensures Next(s, ev).list[i] == if Addressed(s.list, ev.tid, ev.from.addr.V4?, i) then HeardFrom(e, ev) else e
  {
    hide SearchOf, Addressed, HeardFrom, Undone, EntryOk, DistinctKeys, AllOk, FlushId;
    AddressedIsSearchOf(s.list, ev.tid, ev.from.addr.V4?, i);
  }

  // The search then lists the 14 closest of what it was offered before, of the nodes found and
  // of the sender, whose entry has replied; of a broken reply only the sender is entered.
  lemma SenderIsHeard(e: Entry, ev: Event, offered: set<Id>, n: SearchNode)
    requires ev.Reply? && ev.from.replied && ev.from.addr.V4? == e.ipv4
    requires EntryOk(e) && Closest(IdsOf(e.st.nodes), offered, e.id, 14)
    ensures Closest(IdsOf(HeardFrom(e, ev).st.nodes),
                    offered + (if ev.broken then {} else StepLaws.FamilyIds(ev.found, e.ipv4)) + {ev.from.id}, e.id, 14)
    ensures n in HeardFrom(e, ev).st.nodes && n.id == ev.from.id ==>
      n.replied && n.addr == ev.from.addr && n.replyTime == ev.from.now && n.pinged == 0 && n.requestTime == 0
  {
    hide Closest, IdsOf, Insert, Sorted, Replied;
    if ev.broken {
      assert offered + {} == offered;
      InsertKeepsClosest(e.st.nodes, e.id, ev.from, offered);
      if n in Insert(e.st.nodes, e.id, ev.from) {
        InsertedEntries(e.st.nodes, e.id, ev.from, n);
      }
    } else {
      StepLaws.ReplyIsHeard(e.st.nodes, e.id, e.ipv4, ev.found, ev.from, ev.now, offered, n);
    }
  }
}
