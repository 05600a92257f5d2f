/** The routing table as values: a sorted list of buckets over the id space, the
    functions that specify each table operation, and the invariant all of them
    keep.  The methods of RoutingTable are proved against these functions. */
module BucketList {
  import opened Ids
  import opened Seqs
  import opened Net
  import opened KademliaTree

  const MAX_NODES: nat := 8
  const MAX_BUCKETS: nat := 158

  datatype Node = Node(
    id: Id,
    addr: Addr,
    time: int,         // when it was last heard of
    replyTime: int,    // when it last answered us
    pingedTime: int,   // when we last asked it something
    pinged: int        // requests it has left unanswered
  )

  datatype Bucket = Bucket(
    first: Id,
    count: int,
    time: int,         // when one of its nodes last answered us
    nodes: seq<Node>,
    cached: Option<Addr>
  )

  // Everything new_node is told.  A confirm of 0 stands for hearsay, 1 for a request
  // from the node itself, 2 for an answer; snubbed is the answer of node_blacklisted.
  datatype Offer = Offer(id: Id, addr: Addr, confirm: int, now: int, snubbed: bool)

  predicate NodeGood(n: Node, now: int)
  {
    n.pinged <= 2 && n.replyTime >= now - 7200 && n.time >= now - 900
  }

  predicate NodeBad(n: Node, now: int)
  {
    n.pinged >= 3 && n.pingedTime < now - 15
  }

  predicate NodeToPing(n: Node, now: int)
  {
    !NodeGood(n, now) && n.pingedTime < now - 15
  }

  // ----- finding buckets and nodes -----

  function FirstsOf(bs: seq<Bucket>): (f: seq<Id>)
    ensures |f| == |bs| && forall i: nat | i < |bs| :: f[i] == bs[i].first
  {
    if bs == [] then [] else FirstsOf(bs[..|bs| - 1]) + [bs[|bs| - 1].first]
  }

  predicate InBucket(bs: seq<Bucket>, i: nat, id: Id)
    requires i < |bs|
  {
    IdCmp(bs[i].first, id) <= 0 && (i + 1 == |bs| || IdCmp(id, bs[i + 1].first) < 0)
  }

  // find_bucket: the first bucket whose successor starts beyond id.
  function Find(bs: seq<Bucket>, id: Id, i: nat := 0): (k: nat)
    requires i < |bs|
    ensures i <= k < |bs|
    decreases |bs| - i
  {
    if i + 1 == |bs| || IdCmp(id, bs[i + 1].first) < 0 then i else Find(bs, id, i + 1)
  }

  function IndexOf(ns: seq<Node>, id: Id): (k: nat)
    ensures k <= |ns|
  {
    FirstWhere(ns, (n: Node) => n.id == id)
  }

  function At(ns: seq<Node>, id: Id): Option<Node>
  {
    var k := IndexOf(ns, id);
    if k < |ns| then Some(ns[k]) else None
  }

  // find_node
  function Lookup(bs: seq<Bucket>, id: Id): Option<Node>
    requires |bs| > 0
  {
    At(bs[Find(bs, id)].nodes, id)
  }

  // ----- the invariant -----

  ghost predicate DistinctIds(ns: seq<Node>)
  {
    forall i: nat, j: nat | i < j < |ns| :: ns[i].id != ns[j].id
  }

  ghost predicate BucketOk(me: Id, bs: seq<Bucket>, i: nat)
    requires i < |bs|
  {
    var b := bs[i];
    && b.count == |b.nodes| <= MAX_NODES
    && DistinctIds(b.nodes)
    && forall n | n in b.nodes :: Find(bs, n.id) == i && n.id != me
  }

  // The list of first ids is the Kademlia tree of our own id; every bucket holds
  // at most 8 different nodes of its own range, none of them ourselves.
  ghost predicate Valid(me: Id, bs: seq<Bucket>)
  {
    && 0 < |bs| <= MAX_BUCKETS
    && FirstsOf(bs) == Firsts(me, |bs| - 1)
    && forall i: nat | i < |bs| :: BucketOk(me, bs, i)
  }

  // ----- find_bucket answers with the one bucket whose range holds the id -----

  ghost predicate Sorted(bs: seq<Bucket>)
  {
    SortedFirsts(FirstsOf(bs))
  }

  lemma {:induction false} FindFromIsInBucket(bs: seq<Bucket>, id: Id, i: nat)
    requires i < |bs| && IdCmp(bs[i].first, id) <= 0
    ensures InBucket(bs, Find(bs, id, i), id)
    decreases |bs| - i
  {
    hide IdCmp;
    if i + 1 < |bs| && !(IdCmp(id, bs[i + 1].first) < 0) {
      IdCmpIsNumericOrder(id, bs[i + 1].first);
      IdCmpIsNumericOrder(bs[i + 1].first, id);
      FindFromIsInBucket(bs, id, i + 1);
    }
  }

  lemma FindIsInBucket(bs: seq<Bucket>, id: Id, k: nat)
    requires k < |bs| && Sorted(bs)
    ensures Find(bs, id) == k <==> InBucket(bs, k, id)
  {
    hide IdCmp, Val;
    var f := FirstsOf(bs);
    IdCmpIsNumericOrder(bs[0].first, id);
    FindFromIsInBucket(bs, id, 0);
    if InBucket(bs, k, id) {
      RangesDisjoint(f, k, Find(bs, id), id);
    }
  }

  lemma ValidIsSorted(me: Id, bs: seq<Bucket>)
    requires |bs| > 0 && |bs| - 1 <= BITS && FirstsOf(bs) == Firsts(me, |bs| - 1)
    ensures Sorted(bs)
  {
    hide *;
    TreeIsSorted(me, |bs| - 1);
    SortedByDefinition(bs);
  }

  lemma SortedByDefinition(bs: seq<Bucket>)
    requires SortedFirsts(FirstsOf(bs))
    ensures Sorted(bs)
  {}

  // ----- what each operation does -----

  // bucket_middle: the id halfway between first and next.first.
  ghost function Middle(bs: seq<Bucket>, i: nat): Option<Id>
    requires i < |bs|
  {
    var bit := BoundaryBit(FirstsOf(bs), i) + 1;
    if bit >= BITS then None else Some(SetBit(bs[i].first, bit))
  }

  // The nodes below m, or those from m on; each is inserted at the head of its
  // new bucket, so their order is reversed.
  ghost function Picked(ns: seq<Node>, m: Id, upper: bool): (r: seq<Node>)
    ensures |r| <= |ns|
    ensures forall n :: n in r <==> n in ns && upper == (IdCmp(n.id, m) >= 0)
  {
    if ns == [] then [] else
      var k := |ns| - 1;
      assert ns == ns[..k] + [ns[k]];
      (if upper == (IdCmp(ns[k].id, m) >= 0) then [ns[k]] else []) + Picked(ns[..k], m, upper)
  }

  // split_bucket
  ghost function Split(bs: seq<Bucket>, i: nat): (r: seq<Bucket>)
    requires i < |bs| && Middle(bs, i).Some?
    ensures |r| == |bs| + 1
  {
    var b, m := bs[i], Middle(bs, i).value;
    var lo, hi := Picked(b.nodes, m, false), Picked(b.nodes, m, true);
    bs[..i]
    + [b.(count := |lo|, nodes := lo, cached := None), Bucket(m, |hi|, b.time, hi, None)]
    + bs[i + 1..]
  }

  function Touched(b: Bucket, o: Offer): Bucket
  {
    if o.confirm == 2 then b.(time := o.now) else b
  }

  function Refreshed(n: Node, o: Offer): Node
  {
    if o.confirm == 0 && n.time >= o.now - 900 then n else
      var n1 := n.(addr := o.addr);
      var n2 := if o.confirm != 0 then n1.(time := o.now) else n1;
      if o.confirm >= 2 then n2.(replyTime := o.now, pinged := 0, pingedTime := 0) else n2
  }

  function Fresh(o: Offer): Node
  {
    Node(o.id, o.addr, if o.confirm != 0 then o.now else 0, if o.confirm >= 2 then o.now else 0, 0, 0)
  }

  function Pinged(n: Node, now: int): Node
  {
    n.(pinged := n.pinged + 1, pingedTime := now)
  }

  function FirstToPing(ns: seq<Node>, now: int): (k: nat)
    ensures k <= |ns|
  {
    FirstWhere(ns, (n: Node) => NodeToPing(n, now))
  }

  function FirstBad(ns: seq<Node>, now: int): (k: nat)
    ensures k <= |ns|
  {
    FirstWhere(ns, (n: Node) => NodeBad(n, now))
  }

  function PingDubious(b: Bucket, now: int): Bucket
  {
    var k := FirstToPing(b.nodes, now);
    if k < |b.nodes| then b.(nodes := b.nodes[k := Pinged(b.nodes[k], now)]) else b
  }

  predicate AllGood(ns: seq<Node>, now: int)
  {
    forall n | n in ns :: NodeGood(n, now)
  }

  function Cached(b: Bucket, o: Offer): Bucket
  {
    if o.confirm != 0 || b.cached.None? then b.(cached := Some(o.addr)) else b
  }

  // Our own bucket splits when every node in it is good, or when it is the only one.
  predicate MustSplit(me: Id, bs: seq<Bucket>, i: nat, now: int)
    requires i < |bs|
  {
    InBucket(bs, i, me) && (AllGood(bs[i].nodes, now) || |bs| == 1)
  }

  predicate Refused(me: Id, o: Offer)
  {
    o.id == me || IsMartian(o.addr) || o.snubbed
  }

  datatype Outcome = Outcome(buckets: seq<Bucket>, node: Option<Node>)

  // new_node
  ghost function NewNode(me: Id, bs: seq<Bucket>, o: Offer): Outcome
    requires Valid(me, bs)
    decreases MAX_BUCKETS - |bs|
  {
    if Refused(me, o) then Outcome(bs, None) else
      var i := Find(bs, o.id);
      var b := Touched(bs[i], o);
      var k := IndexOf(b.nodes, o.id);
      var j := FirstBad(b.nodes, o.now);
      if k < |b.nodes| then
        var n := Refreshed(b.nodes[k], o);
        Outcome(bs[i := b.(nodes := b.nodes[k := n])], Some(n))
      else if j < |b.nodes| then
        Outcome(bs[i := b.(nodes := b.nodes[j := Fresh(o)])], Some(Fresh(o)))
      else if b.count < MAX_NODES then
        Outcome(bs[i := b.(nodes := [Fresh(o)] + b.nodes, count := b.count + 1)], Some(Fresh(o)))
      else if MustSplit(me, bs, i, o.now) then
        SplitStep(me, bs, o);
        NewNode(me, Split(bs[i := PingDubious(b, o.now)], i), o)
      else
        Outcome(bs[i := Cached(PingDubious(b, o.now), o)], None)
  }

  // The state in which new_node calls itself: our own bucket was full and is split.
  ghost predicate SplitsFor(me: Id, bs: seq<Bucket>, o: Offer)
    requires Valid(me, bs)
  {
    var i := Find(bs, o.id);
    && !Refused(me, o) && IndexOf(bs[i].nodes, o.id) == |bs[i].nodes|
    && bs[i].count >= MAX_NODES && MustSplit(me, bs, i, o.now)
  }

  // The recursion of new_node terminates: bucket_middle does not fail, and the
  // table it recurses on is a valid one with one more bucket.
  lemma SplitStep(me: Id, bs: seq<Bucket>, o: Offer)
    requires Valid(me, bs) && SplitsFor(me, bs, o)
    ensures var i := Find(bs, o.id);
      var bs1 := bs[i := PingDubious(Touched(bs[i], o), o.now)];
      Middle(bs1, i).Some? && Valid(me, Split(bs1, i)) && Sorted(bs1) && Sorted(Split(bs1, i))
      && Valid(me, bs1)
  {
    hide IdCmp, Find, Firsts, Ones, Middle, Split, Sorted, NodeGood;
    var i := Find(bs, o.id);
    var b := PingDubious(Touched(bs[i], o), o.now);
    var bs1 := bs[i := b];
    OwnIndex(me, bs, i);
    assert forall n | n in bs[i].nodes :: n.id != o.id by {
      forall n | n in bs[i].nodes ensures n.id != o.id {
        var j: nat :| j < |bs[i].nodes| && bs[i].nodes[j] == n;
      }
    }
    FullOwnBucketCanSplit(me, bs, i, o.id);
    PingKeepsValid(me, bs, i, o);
    SplitOwnKeepsValid(me, bs1, i);
  }

  lemma PingKeepsValid(me: Id, bs: seq<Bucket>, i: nat, o: Offer)
    requires Valid(me, bs) && i < |bs|
    ensures Valid(me, bs[i := PingDubious(Touched(bs[i], o), o.now)])
  {
    hide IdCmp, Find, Firsts, NodeGood;
    assert BucketOk(me, bs, i);
    var k := FirstToPing(bs[i].nodes, o.now);
    if k < |bs[i].nodes| {
      PutKeepsBucket(me, bs, i, k, Pinged(bs[i].nodes[k], o.now));
    }
    UpdateKeepsValid(me, bs, i, PingDubious(Touched(bs[i], o), o.now));
  }

  // Whether new_node records the current time as the time our own bucket grew.
  predicate Grows(me: Id, bs: seq<Bucket>, o: Offer)
    requires |bs| > 0
  {
    var i := Find(bs, o.id);
    !Refused(me, o) && InBucket(bs, i, me) && IndexOf(bs[i].nodes, o.id) == |bs[i].nodes|
  }

  // expire_buckets
  function Expired(b: Bucket): Bucket
  {
    var kept := Filter(b.nodes, (n: Node) => n.pinged < 4);
    b.(nodes := kept, count := |kept|, cached := if |kept| == |b.nodes| then b.cached else None)
  }

  function Expire(bs: seq<Bucket>): (r: seq<Bucket>)
    ensures |r| == |bs| && forall i: nat | i < |bs| :: r[i] == Expired(bs[i])
  {
    if bs == [] then [] else Expire(bs[..|bs| - 1]) + [Expired(bs[|bs| - 1])]
  }

  // pinged(): a request was sent to the node with this id; at the third one the
  // bucket's cached address is pinged, which uses it up.
  function PingNode(bs: seq<Bucket>, id: Id, now: int): seq<Bucket>
    requires |bs| > 0
  {
    var i := Find(bs, id);
    var k := IndexOf(bs[i].nodes, id);
    if k == |bs[i].nodes| then bs else
      var n := Pinged(bs[i].nodes[k], now);
      var b := bs[i].(nodes := bs[i].nodes[k := n]);
      bs[i := if n.pinged >= 3 then b.(cached := None) else b]
  }

  // blacklist_node, as far as the table is concerned.
  function Condemn(bs: seq<Bucket>, id: Id, now: int): seq<Bucket>
    requires |bs| > 0
  {
    var i := Find(bs, id);
    var k := IndexOf(bs[i].nodes, id);
    if k == |bs[i].nodes| then bs else
      var n := Pinged(bs[i].nodes[k].(pinged := 3), now);
      bs[i := bs[i].(nodes := bs[i].nodes[k := n], cached := None)]
  }

  // ----- every operation keeps the invariant -----

  lemma {:induction false} FindByFirsts(bs: seq<Bucket>, bs': seq<Bucket>, id: Id, i: nat)
    requires i < |bs| == |bs'| && forall j: nat | j < |bs| :: bs'[j].first == bs[j].first
    ensures Find(bs', id, i) == Find(bs, id, i)
    decreases |bs| - i
  {
    if !(i + 1 == |bs| || IdCmp(id, bs[i + 1].first) < 0) {
      FindByFirsts(bs, bs', id, i + 1);
    }
  }

  lemma {:induction false} FirstsSame(bs: seq<Bucket>, bs': seq<Bucket>)
    requires |bs| == |bs'| && forall j: nat | j < |bs| :: bs'[j].first == bs[j].first
    ensures FirstsOf(bs) == FirstsOf(bs')
  {}

  // Replacing the nodes of bucket i by other nodes of its range.
  lemma UpdateKeepsValid(me: Id, bs: seq<Bucket>, i: nat, b: Bucket)
    requires Valid(me, bs) && i < |bs| && b.first == bs[i].first
    requires b.count == |b.nodes| <= MAX_NODES && DistinctIds(b.nodes)
    requires forall n | n in b.nodes :: Find(bs, n.id) == i && n.id != me
    ensures Valid(me, bs[i := b])
    ensures forall id :: Find(bs[i := b], id) == Find(bs, id)
  {
    hide IdCmp, Find, Firsts;
    var bs' := bs[i := b];
    FirstsSame(bs, bs');
    forall id ensures Find(bs', id) == Find(bs, id) {
      FindByFirsts(bs, bs', id, 0);
    }
    forall j: nat | j < |bs'| ensures BucketOk(me, bs', j) {
      assert BucketOk(me, bs, j);
    }
  }

  lemma PutKeepsBucket(me: Id, bs: seq<Bucket>, i: nat, k: nat, n: Node)
    requires i < |bs| && BucketOk(me, bs, i) && k < |bs[i].nodes|
    requires Find(bs, n.id) == i && n.id != me
    requires forall j: nat | j < |bs[i].nodes| && j != k :: bs[i].nodes[j].id != n.id
    ensures DistinctIds(bs[i].nodes[k := n])
    ensures forall x | x in bs[i].nodes[k := n] :: Find(bs, x.id) == i && x.id != me
  {}

  lemma OwnIndex(me: Id, bs: seq<Bucket>, i: nat)
    requires Valid(me, bs) && i < |bs|
    ensures InBucket(bs, i, me) <==> i == Ones(me, |bs| - 1)
  {
    hide IdCmp, Firsts, Ones, BucketOk;
    OwnBucketHolds(me, |bs| - 1, me);
    ValidIsSorted(me, bs);
    FindIsInBucket(bs, me, i);
    FindIsInBucket(bs, me, Ones(me, |bs| - 1));
  }

  // Where an id is found after bucket i was cut in two at m.
  lemma SplitFind(bs: seq<Bucket>, i: nat, x: Id)
    requires i < |bs| && Middle(bs, i).Some? && Sorted(bs) && Sorted(Split(bs, i))
    ensures var k := Find(bs, x);
      Find(Split(bs, i), x) ==
        if k < i then k else if k > i then k + 1
        else if IdCmp(x, Middle(bs, i).value) >= 0 then i + 1 else i
  {
    hide IdCmp, Sorted, Middle, Picked;
    var k, m := Find(bs, x), Middle(bs, i).value;
    FindIsInBucket(bs, x, k);
    IdCmpIsNumericOrder(m, x);
    IdCmpIsNumericOrder(x, m);
    var k' := if k < i then k else if k > i then k + 1 else if IdCmp(x, m) >= 0 then i + 1 else i;
    SplitFirsts(bs, i);
    assert InBucket(Split(bs, i), k', x);
    FindIsInBucket(Split(bs, i), x, k');
  }

  lemma SplitFirsts(bs: seq<Bucket>, i: nat)
    requires i < |bs| && Middle(bs, i).Some?
    ensures Split(bs, i)[i].first == bs[i].first && Split(bs, i)[i + 1].first == Middle(bs, i).value
    ensures forall j: nat | j < |bs| && j != i :: Split(bs, i)[if j < i then j else j + 1] == bs[j]
  {}

  lemma SplitHalves(bs: seq<Bucket>, i: nat)
    requires i < |bs| && Middle(bs, i).Some?
    ensures var m := Middle(bs, i).value;
      && Split(bs, i)[i].nodes == Picked(bs[i].nodes, m, false)
      && Split(bs, i)[i].count == |Split(bs, i)[i].nodes|
      && Split(bs, i)[i + 1].nodes == Picked(bs[i].nodes, m, true)
      && Split(bs, i)[i + 1].count == |Split(bs, i)[i + 1].nodes|
  {}

  lemma SplitFirstsAreTree(me: Id, bs: seq<Bucket>, i: nat)
    requires Valid(me, bs) && i == Ones(me, |bs| - 1)
    ensures Middle(bs, i) == Some(SetBit(bs[i].first, |bs| - 1))
    ensures FirstsOf(Split(bs, i)) == Firsts(me, |bs|)
  {
    hide IdCmp, Firsts, Depths, Ones, BoundaryBit, BucketOk, Picked;
    var d := |bs| - 1;
    BoundaryBitIsDepth(me, d, i);
    OwnFirst(me, d);
    TreeStep(me, d);
    assert FirstsOf(bs)[i] == bs[i].first;
    SplitIsCut(bs, i, d);
  }

  lemma SplitIsCut(bs: seq<Bucket>, i: nat, d: nat)
    requires i < |bs| && d < BITS && Middle(bs, i) == Some(SetBit(bs[i].first, d))
    ensures FirstsOf(Split(bs, i)) == CutFirsts(FirstsOf(bs), i, d)
  {
    hide *;
    forall j: nat | j <= |bs| ensures FirstsOf(Split(bs, i))[j] == CutFirsts(FirstsOf(bs), i, d)[j] {
      SplitIsCutAt(bs, i, d, j);
    }
  }

  lemma SplitIsCutAt(bs: seq<Bucket>, i: nat, d: nat, j: nat)
    requires i < |bs| && d < BITS && Middle(bs, i) == Some(SetBit(bs[i].first, d)) && j <= |bs|
    ensures FirstsOf(Split(bs, i))[j] == CutFirsts(FirstsOf(bs), i, d)[j]
  {
    hide IdCmp, SetBit, Middle, Picked, FirstsOf, CutFirsts, Split;
    var k := if j <= i then j else j - 1;
    SplitFirsts(bs, i);
    CutAt(FirstsOf(bs), i, d, j);
    assert FirstsOf(bs)[k] == bs[k].first;
    assert j != i && j != i + 1 ==> Split(bs, i)[j] == bs[k];
  }

  lemma CutAt(f: seq<Id>, k: nat, d: nat, j: nat)
    requires k < |f| && d < BITS && j <= |f|
    ensures CutFirsts(f, k, d)[j] == if j == k + 1 then SetBit(f[k], d) else f[if j <= k then j else j - 1]
  {
    hide SetBit;
  }

  lemma {:induction false} PickedDistinct(ns: seq<Node>, m: Id, upper: bool)
    requires DistinctIds(ns)
    ensures DistinctIds(Picked(ns, m, upper))
  {
    hide IdCmp;
    if ns != [] {
      PickedDistinct(ns[..|ns| - 1], m, upper);
    }
  }

  lemma SplitKeepsBucket(me: Id, bs: seq<Bucket>, i: nat, j: nat)
    requires Valid(me, bs) && i < |bs| && Middle(bs, i).Some? && Sorted(bs) && Sorted(Split(bs, i))
    requires j <= |bs|
    ensures BucketOk(me, Split(bs, i), j)
  {
    hide IdCmp, Find, Sorted, Middle, Picked, Split, Firsts;
    SplitFirsts(bs, i);
    SplitHalves(bs, i);
    var k := if j <= i then j else j - 1;
    assert BucketOk(me, bs, k);
    var m := Middle(bs, i).value;
    assert BucketOk(me, bs, i);
    PickedDistinct(bs[i].nodes, m, j == i + 1);
    forall n | n in Split(bs, i)[j].nodes
      ensures Find(Split(bs, i), n.id) == j && n.id != me
    {
      assert n in bs[k].nodes;
      SplitFind(bs, i, n.id);
    }
  }

  // Splitting our own bucket yields the next deeper tree.
  lemma SplitOwnKeepsValid(me: Id, bs: seq<Bucket>, i: nat)
    requires Valid(me, bs) && i == Ones(me, |bs| - 1) && |bs| < MAX_BUCKETS
    ensures Middle(bs, i).Some? && Valid(me, Split(bs, i))
    ensures Sorted(bs) && Sorted(Split(bs, i))
  {
    hide IdCmp, Firsts, Ones, Sorted, Middle, Split, BucketOk;
    SplitFirstsAreTree(me, bs, i);
    ValidIsSorted(me, bs);
    ValidIsSorted(me, Split(bs, i));
    forall j: nat | j < |Split(bs, i)| ensures BucketOk(me, Split(bs, i), j) {
      SplitKeepsBucket(me, bs, i, j);
    }
  }

  // A full own bucket that a ninth stranger is offered to still has room to split.
  lemma FullOwnBucketCanSplit(me: Id, bs: seq<Bucket>, i: nat, id: Id)
    requires Valid(me, bs) && i == Ones(me, |bs| - 1) == Find(bs, id) && id != me
    requires bs[i].count >= MAX_NODES && forall n | n in bs[i].nodes :: n.id != id
    ensures |bs| < MAX_BUCKETS
  {
    hide IdCmp, Firsts, Ones, Find, Sorted;
    var ns := bs[i].nodes;
    assert BucketOk(me, bs, i);
    var ids := seq(10, k requires 0 <= k < 10 => if k < 8 then ns[k].id else if k == 8 then id else me);
    ValidIsSorted(me, bs);
    OwnIndex(me, bs, i);
    FindIsInBucket(bs, me, i);
    forall x | x in ids ensures InRange(Firsts(me, |bs| - 1), i, x) {
      var k :| 0 <= k < 10 && x == ids[k];
      if k < 8 { assert ns[k] in ns; }
      FindIsInBucket(bs, x, i);
    }
    CrowdedBucketIsShallow(me, |bs| - 1, ids);
  }

  // ----- what a caller of find_node sees -----

  lemma AtIff(ns: seq<Node>, x: Id, n: Node)
    requires DistinctIds(ns)
    ensures At(ns, x) == Some(n) <==> n in ns && n.id == x
    ensures At(ns, x) == None <==> forall m | m in ns :: m.id != x
  {
    if n in ns {
      var j: nat :| j < |ns| && ns[j] == n;
    }
    if At(ns, x) == None {
      forall m | m in ns ensures m.id != x {
        var j: nat :| j < |ns| && ns[j] == m;
      }
    }
  }

  lemma AtPut(ns: seq<Node>, k: nat, n: Node, x: Id)
    requires DistinctIds(ns) && k < |ns|
    requires n.id == ns[k].id || At(ns, n.id) == None
    ensures DistinctIds(ns[k := n])
    ensures At(ns[k := n], x) ==
      if x == n.id then Some(n) else if x == ns[k].id then None else At(ns, x)
  {
    AtIff(ns, n.id, ns[k]);
    forall j: nat | j < |ns| && j != k ensures ns[j].id != n.id {
      assert ns[j] in ns;
    }
    var ns' := ns[k := n];
    assert DistinctIds(ns');
    hide At, IndexOf;
    AtIff(ns', x, n);
    AtIff(ns, x, ns[k]);
    if x == n.id {
      assert ns'[k] == n;
    } else if At(ns, x).Some? {
      var m := At(ns, x).value;
      AtIff(ns, x, m);
      var j: nat :| j < |ns| && ns[j] == m;
      if j != k {
        assert ns'[j] == m;
        AtIff(ns', x, m);
      }
    }
    if At(ns', x).Some? {
      var m := At(ns', x).value;
      AtIff(ns', x, m);
      var j: nat :| j < |ns'| && ns'[j] == m;
    }
  }

  lemma AtCons(ns: seq<Node>, n: Node, x: Id)
    requires DistinctIds(ns) && At(ns, n.id) == None
    ensures DistinctIds([n] + ns)
    ensures At([n] + ns, x) == if x == n.id then Some(n) else At(ns, x)
  {
    hide At;
    AtIff(ns, n.id, n);
    assert forall j: nat | j < |ns| :: ns[j] in ns;
    AtHead(n, ns, x);
  }

  lemma AtHead(n: Node, ns: seq<Node>, x: Id)
    ensures At([n] + ns, x) == if x == n.id then Some(n) else At(ns, x)
  {
    assert ([n] + ns)[1..] == ns;
  }

  lemma UpdateLookup(bs: seq<Bucket>, i: nat, b: Bucket, x: Id)
    requires i < |bs| && b.first == bs[i].first
    ensures Lookup(bs[i := b], x) == if Find(bs, x) == i then At(b.nodes, x) else Lookup(bs, x)
  {
    FindByFirsts(bs, bs[i := b], x, 0);
  }

  // A split redistributes exactly the old nodes.
  lemma SplitLookup(me: Id, bs: seq<Bucket>, i: nat, x: Id)
    requires Valid(me, bs) && i < |bs| && Middle(bs, i).Some? && Sorted(bs) && Sorted(Split(bs, i))
    ensures Lookup(Split(bs, i), x) == Lookup(bs, x)
  {
    hide IdCmp, Find, Sorted, Middle, Picked, Split, Firsts, At;
    SplitFind(bs, i, x);
    SplitFirsts(bs, i);
    SplitHalves(bs, i);
    if Find(bs, x) == i {
      assert BucketOk(me, bs, i);
      var m := Middle(bs, i).value;
      PickedLookup(bs[i].nodes, m, IdCmp(x, m) >= 0, x);
    } else {
      var k := Find(bs, x);
      assert Split(bs, i)[if k < i then k else k + 1] == bs[k];
    }
  }

  lemma PickedLookup(ns: seq<Node>, m: Id, upper: bool, x: Id)
    requires DistinctIds(ns) && upper == (IdCmp(x, m) >= 0)
    ensures At(Picked(ns, m, upper), x) == At(ns, x)
  {
    hide IdCmp, At;
    var r := Picked(ns, m, upper);
    PickedDistinct(ns, m, upper);
    if At(ns, x).Some? {
      AtIff(ns, x, At(ns, x).value);
      AtIff(r, x, At(ns, x).value);
    } else if At(r, x).Some? {
      AtIff(r, x, At(r, x).value);
      AtIff(ns, x, At(r, x).value);
    }
  }

  // A node stays as it is, or is pinged once if it is not good and was not
  // pinged for 15 seconds.
  predicate Survives(n: Node, r: Option<Node>, now: int)
  {
    r == Some(n) || (NodeToPing(n, now) && r == Some(Pinged(n, now)))
  }

  // What new_node may do to the entry of an id other than the one offered: only a
  // bad node may go, and only to make room for a stranger.
  ghost predicate OtherEffect(me: Id, bs: seq<Bucket>, o: Offer, out: Outcome, x: Id)
    requires |bs| > 0 && |out.buckets| > 0
  {
    match Lookup(bs, x)
    case None => Lookup(out.buckets, x) == None
    case Some(n) =>
      || Survives(n, Lookup(out.buckets, x), o.now)
      || (Lookup(out.buckets, x) == None && NodeBad(n, o.now)
          && Lookup(bs, o.id) == None && out.node == Some(Fresh(o)))
  }

  // What happens to the id offered: a known node is refreshed, a stranger is
  // entered, unless its bucket is full of 8 nodes of which none is bad and it is
  // not ours to split.
  ghost predicate OwnEffect(me: Id, bs: seq<Bucket>, o: Offer, out: Outcome)
    requires |bs| > 0 && |out.buckets| > 0
  {
    if Refused(me, o) then out == Outcome(bs, None)
    else if Lookup(bs, o.id).Some? then
      out.node == Some(Refreshed(Lookup(bs, o.id).value, o)) == Lookup(out.buckets, o.id)
    else if out.node.Some? then
      out.node == Some(Fresh(o)) == Lookup(out.buckets, o.id)
    else
      && Lookup(out.buckets, o.id) == None
      && TurnedAway(me, out.buckets, o)
  }

  ghost predicate TurnedAway(me: Id, bs: seq<Bucket>, o: Offer)
    requires |bs| > 0
  {
    var i := Find(bs, o.id);
    && bs[i].count == |bs[i].nodes| == MAX_NODES
    && (forall n | n in bs[i].nodes :: !NodeBad(n, o.now))
    && !(InBucket(bs, i, me) && AllGood(bs[i].nodes, o.now))
    && bs[i].cached.Some?
  }

  lemma {:induction false} NewNodeKeepsValid(me: Id, bs: seq<Bucket>, o: Offer)
    requires Valid(me, bs)
    ensures Valid(me, NewNode(me, bs, o).buckets)
    ensures |bs| <= |NewNode(me, bs, o).buckets|
    decreases MAX_BUCKETS - |bs|
  {
    hide IdCmp, Find, Firsts, NodeGood, IsMartian, Split, Middle, Ones, BucketOk, InBucket;
    if !Refused(me, o) {
      if SplitsFor(me, bs, o) && FirstBad(bs[Find(bs, o.id)].nodes, o.now) == |bs[Find(bs, o.id)].nodes| {
        SplitStep(me, bs, o);
        var i := Find(bs, o.id);
        NewNodeKeepsValid(me, Split(bs[i := PingDubious(Touched(bs[i], o), o.now)], i), o);
      } else {
        StayKeepsValid(me, bs, o);
      }
    }
  }

  // new_node when there is no split: the bucket of the id offered, and the node returned
  function Filled(b0: Bucket, o: Offer): (Bucket, Option<Node>)
  {
    var b := Touched(b0, o);
    var k, j := IndexOf(b.nodes, o.id), FirstBad(b.nodes, o.now);
    if k < |b.nodes| then (b.(nodes := b.nodes[k := Refreshed(b.nodes[k], o)]), Some(Refreshed(b.nodes[k], o)))
    else if j < |b.nodes| then (b.(nodes := b.nodes[j := Fresh(o)]), Some(Fresh(o)))
    else if b.count < MAX_NODES then (b.(nodes := [Fresh(o)] + b.nodes, count := b.count + 1), Some(Fresh(o)))
    else (Cached(PingDubious(b, o.now), o), None)
  }

  lemma NewNodeStays(me: Id, bs: seq<Bucket>, o: Offer)
    requires Valid(me, bs) && !Refused(me, o)
    requires SplitsFor(me, bs, o) ==> FirstBad(bs[Find(bs, o.id)].nodes, o.now) < |bs[Find(bs, o.id)].nodes|
    ensures
      var i := Find(bs, o.id);
      NewNode(me, bs, o) == Outcome(bs[i := Filled(bs[i], o).0], Filled(bs[i], o).1)
  {
    hide IdCmp, Find, Firsts, NodeGood, IsMartian, Split, Middle, PingDubious;
    assert BucketOk(me, bs, Find(bs, o.id));
  }

  lemma RefusedOutcome(me: Id, bs: seq<Bucket>, o: Offer)
    requires Valid(me, bs) && Refused(me, o)
    ensures NewNode(me, bs, o) == Outcome(bs, None)
  {}

  lemma FilledFirst(b: Bucket, o: Offer)
    ensures Filled(b, o).0.first == b.first
  {}

  lemma StayKeepsValid(me: Id, bs: seq<Bucket>, o: Offer)
    requires Valid(me, bs) && !Refused(me, o)
    requires SplitsFor(me, bs, o) ==> FirstBad(bs[Find(bs, o.id)].nodes, o.now) < |bs[Find(bs, o.id)].nodes|
    ensures Valid(me, NewNode(me, bs, o).buckets)
    ensures |NewNode(me, bs, o).buckets| == |bs|
  {
    hide *;
    NewNodeStays(me, bs, o);
    FilledKeepsValid(me, bs, o);
  }

  lemma FilledKeepsValid(me: Id, bs: seq<Bucket>, o: Offer)
    requires Valid(me, bs) && !Refused(me, o)
    ensures var i := Find(bs, o.id); Valid(me, bs[i := Filled(bs[i], o).0])
  {
    hide IdCmp, Find, Firsts, NodeGood, IsMartian, PingDubious, Cached;
    var i := Find(bs, o.id);
    var b := Touched(bs[i], o);
    var k := IndexOf(b.nodes, o.id);
    var j := FirstBad(b.nodes, o.now);
    assert BucketOk(me, bs, i);
    AtIff(b.nodes, o.id, Fresh(o));
    if k < |b.nodes| {
      PutKeepsBucket(me, bs, i, k, Refreshed(b.nodes[k], o));
      UpdateKeepsValid(me, bs, i, b.(nodes := b.nodes[k := Refreshed(b.nodes[k], o)]));
    } else if j < |b.nodes| {
      PutKeepsBucket(me, bs, i, j, Fresh(o));
      UpdateKeepsValid(me, bs, i, b.(nodes := b.nodes[j := Fresh(o)]));
    } else if b.count < MAX_NODES {
      AtCons(b.nodes, Fresh(o), me);
      UpdateKeepsValid(me, bs, i, b.(nodes := [Fresh(o)] + b.nodes, count := b.count + 1));
    } else {
      CachedKeepsValid(me, bs, i, o);
    }
  }

  lemma CachedKeepsValid(me: Id, bs: seq<Bucket>, i: nat, o: Offer)
    requires Valid(me, bs) && i < |bs|
    ensures Valid(me, bs[i := Cached(PingDubious(Touched(bs[i], o), o.now), o)])
  {
    hide IdCmp, Find, Firsts, NodeGood, PingDubious;
    PingKeepsValid(me, bs, i, o);
    var p := PingDubious(Touched(bs[i], o), o.now);
    var bs1 := bs[i := p];
    assert BucketOk(me, bs1, i);
    UpdateKeepsValid(me, bs1, i, Cached(p, o));
    assert bs1[i := Cached(p, o)] == bs[i := Cached(p, o)];
  }

  lemma PingedBucket(b: Bucket, now: int)
    ensures PingDubious(b, now).first == b.first && |PingDubious(b, now).nodes| == |b.nodes|
    ensures PingDubious(b, now).count == b.count
  {}

  // Pinging the first dubious node changes at most that node's entry.
  lemma PingEffect(me: Id, bs: seq<Bucket>, i: nat, o: Offer, x: Id)
    requires Valid(me, bs) && i < |bs|
    ensures var r := Lookup(bs[i := PingDubious(Touched(bs[i], o), o.now)], x);
      match Lookup(bs, x)
      case None => r == None
      case Some(n) => Survives(n, r, o.now)
  {
    hide IdCmp, Find, Firsts, NodeGood, At, PingDubious, BucketOk;
    BucketIsDistinct(me, bs, i);
    var b := Touched(bs[i], o);
    PingedBucket(b, o.now);
    UpdateLookup(bs, i, PingDubious(b, o.now), x);
    PingedOther(b, o.now, x);
    assert Find(bs, x) == i ==> Lookup(bs, x) == At(b.nodes, x);
  }

  lemma {:induction false} NewNodeOtherEffect(me: Id, bs: seq<Bucket>, o: Offer, x: Id)
    requires Valid(me, bs) && x != o.id
    ensures |NewNode(me, bs, o).buckets| > 0 && OtherEffect(me, bs, o, NewNode(me, bs, o), x)
    decreases MAX_BUCKETS - |bs|
  {
    hide IdCmp, Find, Firsts, NodeGood, IsMartian, Lookup, Split, Middle;
    if !Refused(me, o) {
      var i := Find(bs, o.id);
      if SplitsFor(me, bs, o) && FirstBad(bs[i].nodes, o.now) == |bs[i].nodes| {
        SplitStep(me, bs, o);
        var bs1 := bs[i := PingDubious(Touched(bs[i], o), o.now)];
        NewNodeOtherEffect(me, Split(bs1, i), o, x);
        NewNodeKeepsValid(me, Split(bs1, i), o);
        PingEffect(me, bs, i, o, x);
        PingEffect(me, bs, i, o, o.id);
        SplitLookup(me, bs1, i, x);
        SplitLookup(me, bs1, i, o.id);
        StrangerHasNoEntry(me, bs, o);
      } else {
        StayOtherEffect(me, bs, o, x);
      }
    } else {
      assert Lookup(bs, x).Some? ==> Survives(Lookup(bs, x).value, Lookup(bs, x), o.now);
    }
  }

  lemma StrangerHasNoEntry(me: Id, bs: seq<Bucket>, o: Offer)
    requires Valid(me, bs)
    ensures IndexOf(bs[Find(bs, o.id)].nodes, o.id) == |bs[Find(bs, o.id)].nodes| <==> Lookup(bs, o.id) == None
  {}

  lemma StayOtherEffect(me: Id, bs: seq<Bucket>, o: Offer, x: Id)
    requires Valid(me, bs) && !Refused(me, o) && x != o.id
    requires SplitsFor(me, bs, o) ==> FirstBad(bs[Find(bs, o.id)].nodes, o.now) < |bs[Find(bs, o.id)].nodes|
    ensures |NewNode(me, bs, o).buckets| > 0 && OtherEffect(me, bs, o, NewNode(me, bs, o), x)
    ensures Lookup(bs, x).Some? && Lookup(NewNode(me, bs, o).buckets, x) == None ==>
      var ns := bs[Find(bs, o.id)].nodes;
      FirstBad(ns, o.now) < |ns| && x == ns[FirstBad(ns, o.now)].id
  {
    hide IdCmp, Find, Firsts, NodeGood, NodeBad, NodeToPing, IsMartian,
         At, NewNode, Filled, SplitsFor, FirstBad, BucketOk, Fresh, Refused;
    NewNodeStays(me, bs, o);
    var i := Find(bs, o.id);
    FilledFirst(bs[i], o);
    UpdateLookup(bs, i, Filled(bs[i], o).0, x);
    assert Find(bs, x) == i ==> Lookup(bs, x) == At(bs[i].nodes, x);
    assert Lookup(bs, o.id) == At(bs[i].nodes, o.id);
    BucketIsDistinct(me, bs, i);
    FilledOther(bs[i], o, x);
  }

  lemma BucketIsDistinct(me: Id, bs: seq<Bucket>, i: nat)
    requires Valid(me, bs) && i < |bs|
    ensures DistinctIds(bs[i].nodes)
  {
    hide Find, Firsts;
    assert BucketOk(me, bs, i);
  }

  // What happens in the bucket itself to another id
  lemma FilledOther(b: Bucket, o: Offer, x: Id)
    requires DistinctIds(b.nodes) && x != o.id
    ensures
      var j, r := FirstBad(b.nodes, o.now), At(Filled(b, o).0.nodes, x);
      match At(b.nodes, x)
      case None => r == None
      case Some(n) =>
        || Survives(n, r, o.now)
        || (r == None && NodeBad(n, o.now) && At(b.nodes, o.id) == None && Filled(b, o).1 == Some(Fresh(o))
            && j < |b.nodes| && x == b.nodes[j].id)
  {
    hide NodeGood, NodeToPing, At, PingDubious;
    var ns := Touched(b, o).nodes;
    var k, j := IndexOf(ns, o.id), FirstBad(ns, o.now);
    NoEntry(ns, o.id);
    if k < |ns| {
      AtPut(ns, k, Refreshed(ns[k], o), x);
    } else if j < |ns| {
      AtPut(ns, j, Fresh(o), x);
      AtIff(ns, x, ns[j]);
    } else if b.count < MAX_NODES {
      AtCons(ns, Fresh(o), x);
    } else {
      PingedOther(Touched(b, o), o.now, x);
    }
  }

  lemma NoEntry(ns: seq<Node>, x: Id)
    ensures IndexOf(ns, x) == |ns| <==> At(ns, x) == None
  {}

  lemma PingedOther(b: Bucket, now: int, x: Id)
    requires DistinctIds(b.nodes)
    ensures
      var r := At(PingDubious(b, now).nodes, x);
      match At(b.nodes, x)
      case None => r == None
      case Some(n) => Survives(n, r, now)
  {
    hide NodeGood, At;
    var k := FirstToPing(b.nodes, now);
    if k < |b.nodes| {
      AtPut(b.nodes, k, Pinged(b.nodes[k], now), x);
      AtIff(b.nodes, b.nodes[k].id, b.nodes[k]);
    }
  }

  lemma {:induction false} NewNodeOwnEffect(me: Id, bs: seq<Bucket>, o: Offer)
    requires Valid(me, bs)
    ensures |NewNode(me, bs, o).buckets| > 0 && OwnEffect(me, bs, o, NewNode(me, bs, o))
    decreases MAX_BUCKETS - |bs|
  {
    hide IdCmp, Find, Firsts, NodeGood, IsMartian, Lookup, Split, Middle, TurnedAway, AllGood;
    if !Refused(me, o) {
      var i := Find(bs, o.id);
      if SplitsFor(me, bs, o) && FirstBad(bs[i].nodes, o.now) == |bs[i].nodes| {
        SplitStep(me, bs, o);
        var bs1 := bs[i := PingDubious(Touched(bs[i], o), o.now)];
        NewNodeOwnEffect(me, Split(bs1, i), o);
        PingEffect(me, bs, i, o, o.id);
        SplitLookup(me, bs1, i, o.id);
        StrangerHasNoEntry(me, bs, o);
      } else {
        StayOwnEffect(me, bs, o);
      }
    }
  }

  lemma StayOwnEffect(me: Id, bs: seq<Bucket>, o: Offer)
    requires Valid(me, bs) && !Refused(me, o)
    requires SplitsFor(me, bs, o) ==> FirstBad(bs[Find(bs, o.id)].nodes, o.now) < |bs[Find(bs, o.id)].nodes|
    ensures |NewNode(me, bs, o).buckets| > 0 && OwnEffect(me, bs, o, NewNode(me, bs, o))
  {
    hide IdCmp, Find, Firsts, NodeGood, IsMartian, At, TurnedAway, AllGood;
    var i := Find(bs, o.id);
    var b := Touched(bs[i], o);
    var k := IndexOf(b.nodes, o.id);
    var j := FirstBad(b.nodes, o.now);
    assert BucketOk(me, bs, i);
    AtIff(b.nodes, o.id, Fresh(o));
    StrangerHasNoEntry(me, bs, o);
    if k < |b.nodes| {
      var n := Refreshed(b.nodes[k], o);
      AtPut(b.nodes, k, n, o.id);
      AtIff(b.nodes, o.id, b.nodes[k]);
      UpdateLookup(bs, i, b.(nodes := b.nodes[k := n]), o.id);
    } else if j < |b.nodes| {
      AtPut(b.nodes, j, Fresh(o), o.id);
      UpdateLookup(bs, i, b.(nodes := b.nodes[j := Fresh(o)]), o.id);
    } else if b.count < MAX_NODES {
      AtCons(b.nodes, Fresh(o), o.id);
      UpdateLookup(bs, i, b.(nodes := [Fresh(o)] + b.nodes, count := b.count + 1), o.id);
    } else {
      var p := PingDubious(b, o.now);
      PingEffect(me, bs, i, o, o.id);
      PingedBucket(b, o.now);
      UpdateLookup(bs, i, p, o.id);
      UpdateLookup(bs, i, Cached(p, o), o.id);
      FullBucketTurnsAway(me, bs, o);
    }
  }

  lemma FullBucketTurnsAway(me: Id, bs: seq<Bucket>, o: Offer)
    requires Valid(me, bs)
    requires var i := Find(bs, o.id);
      && FirstBad(bs[i].nodes, o.now) == |bs[i].nodes| && bs[i].count >= MAX_NODES
      && !MustSplit(me, bs, i, o.now)
    ensures var i := Find(bs, o.id);
      TurnedAway(me, bs[i := Cached(PingDubious(Touched(bs[i], o), o.now), o)], o)
  {
    hide IdCmp, Firsts, Find, FirstBad, AllGood, PingDubious, NodeBad;
    var i := Find(bs, o.id);
    assert BucketOk(me, bs, i);
    var b := Touched(bs[i], o);
    var p := PingDubious(b, o.now);
    PingedBucket(b, o.now);
    FindByFirsts(bs, bs[i := Cached(p, o)], o.id, 0);
    PingedQuality(b, o.now);
  }

  // A ping makes no node bad, and none good.
  lemma PingedQuality(b: Bucket, now: int)
    requires FirstBad(b.nodes, now) == |b.nodes|
    ensures forall n | n in PingDubious(b, now).nodes :: !NodeBad(n, now)
    ensures AllGood(PingDubious(b, now).nodes, now) ==> AllGood(b.nodes, now)
  {
    var ns := PingDubious(b, now).nodes;
    forall n | n in ns ensures !NodeBad(n, now) {
      var j: nat :| j < |ns| && ns[j] == n;
      assert !NodeBad(b.nodes[j], now);
    }
    if AllGood(ns, now) {
      forall n | n in b.nodes ensures NodeGood(n, now) {
        var j: nat :| j < |b.nodes| && b.nodes[j] == n;
        assert ns[j] in ns;
      }
    }
  }

  // At most one entry goes when a stranger comes.
  lemma {:induction false} OneEviction(me: Id, bs: seq<Bucket>, o: Offer, x: Id, y: Id)
    requires Valid(me, bs) && x != o.id && y != o.id
    requires Lookup(bs, x).Some? && Lookup(bs, y).Some?
    requires |NewNode(me, bs, o).buckets| > 0
    requires Lookup(NewNode(me, bs, o).buckets, x) == None == Lookup(NewNode(me, bs, o).buckets, y)
    ensures x == y
    decreases MAX_BUCKETS - |bs|
  {
    hide IdCmp, Find, Firsts, NodeGood, IsMartian, Lookup, Split, Middle;
    var i := Find(bs, o.id);
    if !Refused(me, o) {
      if SplitsFor(me, bs, o) && FirstBad(bs[i].nodes, o.now) == |bs[i].nodes| {
        SplitStep(me, bs, o);
        var bs1 := bs[i := PingDubious(Touched(bs[i], o), o.now)];
        PingEffect(me, bs, i, o, x);
        PingEffect(me, bs, i, o, y);
        SplitLookup(me, bs1, i, x);
        SplitLookup(me, bs1, i, y);
        OneEviction(me, Split(bs1, i), o, x, y);
      } else {
        StayOtherEffect(me, bs, o, x);
        StayOtherEffect(me, bs, o, y);
      }
    }
  }

  // ----- expiry, pings and blacklisting -----

  lemma {:induction false} FilterDistinct(ns: seq<Node>, p: Node -> bool)
    requires DistinctIds(ns)
    ensures DistinctIds(Filter(ns, p))
    ensures forall n :: n in Filter(ns, p) <==> n in ns && p(n)
  {
    forall n ensures n in Filter(ns, p) <==> n in ns && p(n) {
      FilterMembers(ns, p, n);
    }
    if ns != [] {
      FilterDistinct(ns[1..], p);
      forall j: nat | j < |Filter(ns[1..], p)| ensures Filter(ns[1..], p)[j].id != ns[0].id {
        assert Filter(ns[1..], p)[j] in ns[1..];
      }
    }
  }

  lemma ExpireFirsts(bs: seq<Bucket>)
    ensures FirstsOf(Expire(bs)) == FirstsOf(bs)
    ensures forall id | |bs| > 0 :: Find(Expire(bs), id) == Find(bs, id)
  {
    hide Find, IdCmp;
    FirstsSame(bs, Expire(bs));
    forall id | |bs| > 0 ensures Find(Expire(bs), id) == Find(bs, id) {
      FindByFirsts(bs, Expire(bs), id, 0);
    }
  }

  lemma ExpireKeepsValid(me: Id, bs: seq<Bucket>)
    requires Valid(me, bs)
    ensures Valid(me, Expire(bs))
  {
    hide Find, IdCmp, Firsts, FirstsOf;
    ExpireFirsts(bs);
    forall i: nat | i < |bs| ensures BucketOk(me, Expire(bs), i) {
      assert BucketOk(me, bs, i);
      FilterDistinct(bs[i].nodes, (n: Node) => n.pinged < 4);
    }
  }

  // expire_buckets removes exactly the nodes with four unanswered requests or more.
  lemma ExpireEffect(me: Id, bs: seq<Bucket>, x: Id)
    requires Valid(me, bs)
    ensures Lookup(Expire(bs), x) ==
      match Lookup(bs, x) case Some(n) => (if n.pinged >= 4 then None else Some(n)) case None => None
  {
    hide Find, IdCmp, Firsts, FirstsOf, At;
    ExpireFirsts(bs);
    var i := Find(bs, x);
    assert BucketOk(me, bs, i);
    var ns, ns' := bs[i].nodes, Expire(bs)[i].nodes;
    FilterDistinct(ns, (n: Node) => n.pinged < 4);
    if At(ns, x).Some? {
      AtIff(ns, x, At(ns, x).value);
      AtIff(ns', x, At(ns, x).value);
      if At(ns', x).Some? {
        AtIff(ns', x, At(ns', x).value);
        AtIff(ns, x, At(ns', x).value);
      }
    } else if At(ns', x).Some? {
      AtIff(ns', x, At(ns', x).value);
      AtIff(ns, x, At(ns', x).value);
    }
  }

  // A change of one node's counters, as made by pinged() and blacklist_node.
  lemma TouchNode(me: Id, bs: seq<Bucket>, id: Id, n: Node, b: Bucket, x: Id)
    requires Valid(me, bs) && n.id == id
    requires var i := Find(bs, id); var k := IndexOf(bs[i].nodes, id);
      && k < |bs[i].nodes| && b.first == bs[i].first && b.count == bs[i].count
      && b.nodes == bs[i].nodes[k := n]
    ensures Valid(me, bs[Find(bs, id) := b])
    ensures Lookup(bs[Find(bs, id) := b], x) == if x == id then Some(n) else Lookup(bs, x)
  {
    hide Find, IdCmp, Firsts;
    var i := Find(bs, id);
    var k := IndexOf(bs[i].nodes, id);
    assert BucketOk(me, bs, i);
    assert bs[i].nodes[k] in bs[i].nodes;
    AtPut(bs[i].nodes, k, n, x);
    UpdateLookup(bs, i, b, x);
    PutKeepsBucket(me, bs, i, k, n);
    UpdateKeepsValid(me, bs, i, b);
  }

  lemma PingNodeEffect(me: Id, bs: seq<Bucket>, id: Id, now: int, x: Id)
    requires Valid(me, bs)
    ensures Valid(me, PingNode(bs, id, now))
    ensures Lookup(PingNode(bs, id, now), x) ==
      if x == id && Lookup(bs, x).Some? then
        var n := Lookup(bs, x).value;
        Some(n.(pinged := n.pinged + 1, pingedTime := now))
      else Lookup(bs, x)
  {
    hide Find, IdCmp, Firsts, BucketOk;
    var i := Find(bs, id);
    var k := IndexOf(bs[i].nodes, id);
    if k < |bs[i].nodes| {
      TouchNode(me, bs, id, Pinged(bs[i].nodes[k], now), PingNode(bs, id, now)[i], x);
    }
  }

  // A blacklisted node is as bad as four unanswered requests make it, so the next
  // expiry removes it.
  lemma CondemnEffect(me: Id, bs: seq<Bucket>, id: Id, now: int, x: Id)
    requires Valid(me, bs)
    ensures Valid(me, Condemn(bs, id, now))
    ensures Lookup(Condemn(bs, id, now), x) ==
      if x == id && Lookup(bs, x).Some? then Some(Lookup(bs, x).value.(pinged := 4, pingedTime := now))
      else Lookup(bs, x)
    ensures Lookup(Expire(Condemn(bs, id, now)), id) == None
  {
    hide Find, IdCmp, Firsts, BucketOk;
    var i := Find(bs, id);
    var k := IndexOf(bs[i].nodes, id);
    if k < |bs[i].nodes| {
      var n := Pinged(bs[i].nodes[k].(pinged := 3), now);
      TouchNode(me, bs, id, n, Condemn(bs, id, now)[i], x);
      TouchNode(me, bs, id, n, Condemn(bs, id, now)[i], id);
    }
    ExpireEffect(me, Condemn(bs, id, now), id);
  }

  // ----- every reachable table -----

  datatype Event =
    | Heard(o: Offer)               // new_node
    | Requested(id: Id, now: int)   // a request was sent to a node of the table
    | Condemned(id: Id, now: int)   // a node sent a broken message
    | Expiry                        // expire_buckets

  const START: seq<Bucket> := [Bucket(ZERO, 0, 0, [], None)]

  lemma NotEmpty(me: Id, bs: seq<Bucket>)
    requires Valid(me, bs)
    ensures |bs| > 0
  {}

  lemma StartIsValid(me: Id)
    ensures Valid(me, START)
  {
    assert FirstsOf(START) == [ZERO];
    assert BucketOk(me, START, 0);
  }

  ghost function Step(me: Id, bs: seq<Bucket>, e: Event): (r: seq<Bucket>)
    requires Valid(me, bs)
    ensures Valid(me, r) && |r| >= |bs|
  {
    match e
    case Heard(o) => NewNodeKeepsValid(me, bs, o); NewNode(me, bs, o).buckets
    case Requested(id, now) => PingNodeEffect(me, bs, id, now, id); PingNode(bs, id, now)
    case Condemned(id, now) => CondemnEffect(me, bs, id, now, id); Condemn(bs, id, now)
    case Expiry => ExpireKeepsValid(me, bs); Expire(bs)
  }

  ghost function Run(me: Id, es: seq<Event>): (r: seq<Bucket>)
    ensures Valid(me, r)
  {
    if es == [] then StartIsValid(me); START
    else Step(me, Run(me, es[..|es| - 1]), es[|es| - 1])
  }

  // After any run the table is exactly the Kademlia table of our own id: with our
  // own bucket at depth d there are d + 1 <= 158 buckets; our own holds the ids
  // sharing d bits or more with ours, and for each j < d one other bucket holds
  // the ids sharing exactly j.  find_bucket finds the one bucket of an id.
  lemma ReachableIsKademliaTable(me: Id, es: seq<Event>, x: Id, j: nat, i: nat)
    requires i < |Run(me, es)|
    ensures |Run(me, es)| <= MAX_BUCKETS
    ensures var bs := Run(me, es); var d := |bs| - 1;
      && (InBucket(bs, Ones(me, d), x) <==> CommonBits(x, me) >= d)
      && (j < d ==> (InBucket(bs, SiblingIndex(me, d, j), x) <==> CommonBits(x, me) == j))
      && (InBucket(bs, i, x) <==> i == Find(bs, x))
  {
    hide Find, IdCmp, Firsts, Ones, SiblingIndex, CommonBits, BucketOk, Run;
    var bs := Run(me, es);
    OwnBucketHolds(me, |bs| - 1, x);
    if j < |bs| - 1 {
      SiblingBucketHolds(me, |bs| - 1, j, x);
    }
    ValidIsSorted(me, bs);
    FindIsInBucket(bs, x, i);
  }

  // No two entries of a reachable table carry the same id, and none carries ours.
  lemma ReachableIdsAreDistinct(me: Id, es: seq<Event>, i: nat, a: nat, j: nat, b: nat)
    requires i < |Run(me, es)| && a < |Run(me, es)[i].nodes|
    requires j < |Run(me, es)| && b < |Run(me, es)[j].nodes|
    requires Run(me, es)[i].nodes[a].id == Run(me, es)[j].nodes[b].id
    ensures i == j && a == b && Run(me, es)[i].nodes[a].id != me
    ensures InBucket(Run(me, es), i, Run(me, es)[i].nodes[a].id)
  {
    hide Find, IdCmp, Firsts, Run;
    var bs := Run(me, es);
    assert BucketOk(me, bs, i) && BucketOk(me, bs, j);
    assert bs[i].nodes[a] in bs[i].nodes && bs[j].nodes[b] in bs[j].nodes;
    ValidIsSorted(me, bs);
    FindIsInBucket(bs, bs[i].nodes[a].id, i);
  }
}
