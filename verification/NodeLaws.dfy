/** What new_node and the other table operations do to the entry of a node, in plain fields:
    what an answer, a request or hearsay changes, when a stranger is entered, and how long a
    node that answered stays. */
module NodeLaws {
  import opened Ids
  import opened Seqs
  import opened Net
  import opened KademliaTree
  import opened BucketList

  // Not ourselves, no address that is never accepted, and not snubbed
  predicate Welcome(me: Id, o: Offer)
  {
    o.id != me && !IsMartian(o.addr) && !o.snubbed
  }

  // A node that was last heard of at heard, last answered at answered, and has k requests
  // open is good up to a quarter of an hour after the one and two hours after the other.
  lemma GoodMeans(n: Node, now: int)
    ensures NodeGood(n, now) <==> now <= n.time + 900 && now <= n.replyTime + 7200 && n.pinged < 3
    ensures NodeBad(n, now) <==> n.pinged >= 3 && now > n.pingedTime + 15
  {}

  // ----- the node offered -----

  lemma KnownNode(me: Id, bs: seq<Bucket>, o: Offer)
    requires Valid(me, bs) && Welcome(me, o) && Lookup(bs, o.id).Some?
    ensures |NewNode(me, bs, o).buckets| > 0
    ensures NewNode(me, bs, o).node == Lookup(NewNode(me, bs, o).buckets, o.id)
    ensures NewNode(me, bs, o).node == Some(Refreshed(Lookup(bs, o.id).value, o))
  {
    hide Lookup, NewNode, Valid, TurnedAway, Refreshed;
    NewNodeOwnEffect(me, bs, o);
  }

  lemma LookedUpHasId(me: Id, bs: seq<Bucket>, x: Id)
    requires Valid(me, bs) && Lookup(bs, x).Some?
    ensures Lookup(bs, x).value.id == x
  {
    hide Find, Valid;
  }

  // An answer: address and both times are new, no request is open, and the node is good for
  // the next quarter of an hour.
  lemma AnswerRenews(me: Id, bs: seq<Bucket>, o: Offer)
    requires Valid(me, bs) && Welcome(me, o) && Lookup(bs, o.id).Some? && o.confirm >= 2
    ensures |NewNode(me, bs, o).buckets| > 0
    ensures Lookup(NewNode(me, bs, o).buckets, o.id) == Some(Node(o.id, o.addr, o.now, o.now, 0, 0))
    ensures NewNode(me, bs, o).node == Lookup(NewNode(me, bs, o).buckets, o.id)
    ensures forall t | o.now <= t <= o.now + 900 :: NodeGood(Node(o.id, o.addr, o.now, o.now, 0, 0), t)
  {
    hide Lookup, NewNode, Valid;
    KnownNode(me, bs, o);
    LookedUpHasId(me, bs, o.id);
  }

  // A request from the node: address and the time it was heard of.
  lemma RequestRenews(me: Id, bs: seq<Bucket>, o: Offer)
    requires Valid(me, bs) && Welcome(me, o) && Lookup(bs, o.id).Some? && o.confirm == 1
    ensures |NewNode(me, bs, o).buckets| > 0
    ensures Lookup(NewNode(me, bs, o).buckets, o.id) == Some(Lookup(bs, o.id).value.(addr := o.addr, time := o.now))
    ensures NewNode(me, bs, o).node == Lookup(NewNode(me, bs, o).buckets, o.id)
  {
    hide Lookup, NewNode, Valid;
    KnownNode(me, bs, o);
  }

  // Hearsay: the address, if the node itself was silent for a quarter of an hour.
  lemma HearsayMoves(me: Id, bs: seq<Bucket>, o: Offer)
    requires Valid(me, bs) && Welcome(me, o) && Lookup(bs, o.id).Some? && o.confirm == 0
    ensures |NewNode(me, bs, o).buckets| > 0
    ensures
      var n := Lookup(bs, o.id).value;
      Lookup(NewNode(me, bs, o).buckets, o.id) == Some(if n.time >= o.now - 900 then n else n.(addr := o.addr))
    ensures NewNode(me, bs, o).node == Lookup(NewNode(me, bs, o).buckets, o.id)
  {
    hide Lookup, NewNode, Valid;
    KnownNode(me, bs, o);
  }

  // A new entry
  function Entered(o: Offer): Node
  {
    Node(o.id, o.addr, if o.confirm == 0 then 0 else o.now, if o.confirm >= 2 then o.now else 0, 0, 0)
  }

  // A stranger is entered with no request open, heard of now unless it is hearsay, and
  // answered now if it did; or its bucket holds eight nodes, none of them bad, that is not
  // our own full of good ones.
  lemma StrangerIsEntered(me: Id, bs: seq<Bucket>, o: Offer)
    requires Valid(me, bs) && Welcome(me, o) && Lookup(bs, o.id) == None
    ensures |NewNode(me, bs, o).buckets| > 0
    ensures
      var after, i := NewNode(me, bs, o).buckets, Find(NewNode(me, bs, o).buckets, o.id);
      if NewNode(me, bs, o).node.Some? then
        NewNode(me, bs, o).node == Lookup(after, o.id) == Some(Entered(o))
      else
        && Lookup(after, o.id) == None
        && |after[i].nodes| == 8 && (forall n | n in after[i].nodes :: !(n.pinged >= 3 && o.now > n.pingedTime + 15))
        && !(InBucket(after, i, me) && forall n | n in after[i].nodes :: NodeGood(n, o.now))
  {
    hide Lookup, NewNode, Valid, InBucket, Find;
    NewNodeOwnEffect(me, bs, o);
  }

  lemma RefusedChangesNothing(me: Id, bs: seq<Bucket>, o: Offer)
    requires Valid(me, bs) && !Welcome(me, o)
    ensures NewNode(me, bs, o) == Outcome(bs, None)
  {
    RefusedOutcome(me, bs, o);
  }

  // ----- its bucket -----

  // Afterwards the bucket of the id has the time of an answer, or else the time it had, and it
  // keeps the address of a stranger that spoke to us but was not entered.
  ghost predicate BucketTold(bs: seq<Bucket>, o: Offer, entered: bool, time: int)
    requires |bs| > 0
  {
    var b := bs[Find(bs, o.id)];
    && b.time == (if o.confirm == 2 then o.now else time)
    && (!entered && o.confirm != 0 ==> b.cached == Some(o.addr))
  }

  lemma {:induction false} BucketIsTold(me: Id, bs: seq<Bucket>, o: Offer)
    requires Valid(me, bs) && Welcome(me, o)
    ensures |NewNode(me, bs, o).buckets| > 0
    ensures BucketTold(NewNode(me, bs, o).buckets, o, NewNode(me, bs, o).node.Some?, bs[Find(bs, o.id)].time)
    decreases MAX_BUCKETS - |bs|
  {
    hide IdCmp, Find, Firsts, NodeGood, IsMartian, Lookup, Split, Middle, BucketOk, InBucket, Ones;
    var i := Find(bs, o.id);
    if SplitsFor(me, bs, o) && FirstBad(bs[i].nodes, o.now) == |bs[i].nodes| {
      SplitStep(me, bs, o);
      var bs1 := bs[i := PingDubious(Touched(bs[i], o), o.now)];
      FindByFirsts(bs, bs1, o.id, 0);
      SplitTimes(bs1, i, o.id);
      BucketIsTold(me, Split(bs1, i), o);
    } else {
      NewNodeStays(me, bs, o);
      FilledFirst(bs[i], o);
      FindByFirsts(bs, bs[i := Filled(bs[i], o).0], o.id, 0);
      FilledTold(bs[i], o);
    }
  }

  // Both halves of a bucket have its time.
  lemma SplitTimes(bs: seq<Bucket>, i: nat, x: Id)
    requires i < |bs| && Middle(bs, i).Some? && Sorted(bs) && Sorted(Split(bs, i))
    ensures Split(bs, i)[Find(Split(bs, i), x)].time == bs[Find(bs, x)].time
  {
    hide IdCmp, Find, Sorted, Middle, Picked;
    SplitFind(bs, i, x);
  }

  lemma FilledTold(b: Bucket, o: Offer)
    ensures Filled(b, o).0.time == if o.confirm == 2 then o.now else b.time
    ensures Filled(b, o).1.None? && o.confirm != 0 ==> Filled(b, o).0.cached == Some(o.addr)
  {
    hide IndexOf, FirstBad, FirstToPing;
  }

  // The time our own bucket grew is recorded exactly for a stranger that shares as many bits
  // with us as our own bucket is deep.
  lemma GrowsMeans(me: Id, bs: seq<Bucket>, o: Offer)
    requires Valid(me, bs)
    ensures Grows(me, bs, o) <==>
      Welcome(me, o) && CommonBits(o.id, me) >= |bs| - 1 && Lookup(bs, o.id) == None
  {
    hide IdCmp, Find, Firsts, Ones, CommonBits, InBucket, BucketOk, IsMartian;
    var d, i := |bs| - 1, Find(bs, o.id);
    OwnIndex(me, bs, i);
    ValidIsSorted(me, bs);
    OwnBucketHolds(me, d, o.id);
    FindIsInBucket(bs, o.id, Ones(me, d));
    BucketRange(me, bs, o.id);
    StrangerHasNoEntry(me, bs, o);
  }

  lemma BucketRange(me: Id, bs: seq<Bucket>, x: Id)
    requires Valid(me, bs)
    ensures Ones(me, |bs| - 1) < |bs|
    ensures InBucket(bs, Ones(me, |bs| - 1), x) <==> InRange(Firsts(me, |bs| - 1), Ones(me, |bs| - 1), x)
  {
    hide IdCmp, Firsts, Ones, BucketOk;
  }

  // ----- room for a stranger -----

  // The first bad node of the bucket makes room, even if there is some left.
  lemma BadMakesRoom(me: Id, bs: seq<Bucket>, o: Offer, k: nat)
    requires Valid(me, bs) && Welcome(me, o) && Lookup(bs, o.id) == None
    requires var ns := bs[Find(bs, o.id)].nodes;
      && k < |ns| && ns[k].pinged >= 3 && o.now > ns[k].pingedTime + 15
      && forall j: nat | j < k :: !(ns[j].pinged >= 3 && o.now > ns[j].pingedTime + 15)
    ensures
      var i := Find(bs, o.id);
      && |NewNode(me, bs, o).buckets| == |bs|
      && NewNode(me, bs, o).buckets[i].nodes == bs[i].nodes[k := Entered(o)]
      && forall j: nat | j < |bs| && j != i :: NewNode(me, bs, o).buckets[j] == bs[j]
  {
    hide IdCmp, Find, Firsts, NodeGood, IsMartian, InBucket, Lookup;
    StrangerHasNoEntry(me, bs, o);
    FirstWhereUnique(bs[Find(bs, o.id)].nodes, (n: Node) => NodeBad(n, o.now), k);
    hide Valid, BucketOk;
    NewNodeStays(me, bs, o);
  }

  // Without one a stranger goes to the head of a bucket that is not full.
  lemma RoomIsUsed(me: Id, bs: seq<Bucket>, o: Offer)
    requires Valid(me, bs) && Welcome(me, o) && Lookup(bs, o.id) == None
    requires var ns := bs[Find(bs, o.id)].nodes;
      |ns| < 8 && forall n | n in ns :: !NodeBad(n, o.now)
    ensures
      var i := Find(bs, o.id);
      && |NewNode(me, bs, o).buckets| == |bs|
      && NewNode(me, bs, o).buckets[i].nodes == [Entered(o)] + bs[i].nodes
      && forall j: nat | j < |bs| && j != i :: NewNode(me, bs, o).buckets[j] == bs[j]
  {
    hide IdCmp, Find, Firsts, NodeGood, IsMartian, InBucket, Lookup;
    var i := Find(bs, o.id);
    assert BucketOk(me, bs, i);
    StrangerHasNoEntry(me, bs, o);
    FirstWhereUnique(bs[i].nodes, (n: Node) => NodeBad(n, o.now), |bs[i].nodes|);
    hide Valid, BucketOk;
    NewNodeStays(me, bs, o);
  }

  // ----- pings -----

  // A full bucket without a bad node that is not split has exactly one node asked whether it
  // is still there: the first that is not good and was not asked for 15 seconds.
  lemma OneIsPinged(me: Id, bs: seq<Bucket>, o: Offer, k: nat)
    requires Valid(me, bs) && Welcome(me, o) && Lookup(bs, o.id) == None
    requires var b := bs[Find(bs, o.id)];
      && |b.nodes| == 8 && k <= 8 && (forall n | n in b.nodes :: !NodeBad(n, o.now))
      && (forall j: nat | j < k :: NodeGood(b.nodes[j], o.now) || b.nodes[j].pingedTime >= o.now - 15)
      && (k < 8 ==> !NodeGood(b.nodes[k], o.now) && b.nodes[k].pingedTime < o.now - 15)
    requires InBucket(bs, Find(bs, o.id), me) ==>
      |bs| > 1 && exists n :: n in bs[Find(bs, o.id)].nodes && !NodeGood(n, o.now)
    ensures
      var i := Find(bs, o.id);
      var ns := bs[i].nodes;
      && |NewNode(me, bs, o).buckets| == |bs|
      && NewNode(me, bs, o).buckets[i].nodes ==
           (if k == 8 then ns else ns[k := ns[k].(pinged := ns[k].pinged + 1, pingedTime := o.now)])
  {
    hide IdCmp, Find, Firsts, NodeGood, IsMartian, InBucket, Lookup;
    var i := Find(bs, o.id);
    assert BucketOk(me, bs, i);
    StrangerHasNoEntry(me, bs, o);
    FirstWhereUnique(bs[i].nodes, (n: Node) => NodeToPing(n, o.now), k);
    FirstWhereUnique(bs[i].nodes, (n: Node) => NodeBad(n, o.now), 8);
    hide Valid, BucketOk;
    NewNodeStays(me, bs, o);
  }

  // Our own bucket, full of good nodes or the only one and without a bad node, is split for
  // a stranger.
  lemma OwnBucketSplits(me: Id, bs: seq<Bucket>, o: Offer)
    requires Valid(me, bs) && Welcome(me, o) && Lookup(bs, o.id) == None
    requires InBucket(bs, Find(bs, o.id), me) && |bs[Find(bs, o.id)].nodes| == 8
    requires |bs| == 1 || forall n | n in bs[Find(bs, o.id)].nodes :: NodeGood(n, o.now)
    requires forall n | n in bs[Find(bs, o.id)].nodes :: !NodeBad(n, o.now)
    ensures |NewNode(me, bs, o).buckets| > |bs|
  {
    hide IdCmp, Find, Firsts, NodeGood, IsMartian, InBucket, Lookup, Split, Middle, Ones;
    var i := Find(bs, o.id);
    assert BucketOk(me, bs, i);
    StrangerHasNoEntry(me, bs, o);
    FirstWhereUnique(bs[i].nodes, (n: Node) => NodeBad(n, o.now), 8);
    SplitStep(me, bs, o);
    NewNodeGrows(me, Split(bs[i := PingDubious(Touched(bs[i], o), o.now)], i), o);
  }

  lemma NewNodeGrows(me: Id, bs: seq<Bucket>, o: Offer)
    requires Valid(me, bs)
    ensures |NewNode(me, bs, o).buckets| >= |bs|
  {
    hide NewNode, Valid;
    NewNodeKeepsValid(me, bs, o);
  }

  // ----- a node that answered stays -----

  // The entry of x, if there is one, in the table after a run
  ghost function Entry(me: Id, es: seq<Event>, x: Id): Option<Node>
  {
    Lookup(Run(me, es), x)
  }

  // The requests sent to x in the events after es: those of the outside, and the pings of
  // new_node, which show in the count of the entry
  ghost function Asked(me: Id, es: seq<Event>, after: seq<Event>, x: Id): nat
  {
    if after == [] then 0
    else
      var n := |after| - 1;
      var a, b := Entry(me, es + after[..n], x), Entry(me, es + after, x);
      Asked(me, es, after[..n], x)
      + (if (after[n].Requested? && after[n].id == x)
            || (after[n].Heard? && a.Some? && b.Some? && b.value.pinged > a.value.pinged) then 1 else 0)
  }

  ghost predicate NotCondemned(es: seq<Event>, x: Id)
  {
    forall e | e in es :: e.Condemned? ==> e.id != x
  }

  // One event can only take away a node with three requests open.
  ghost predicate Kept(a: Option<Node>, b: Option<Node>, more: nat)
  {
    a.Some? ==> b.Some? && 0 <= b.value.pinged <= a.value.pinged + more
  }

  lemma HeardKeeps(me: Id, bs: seq<Bucket>, o: Offer, x: Id)
    requires Valid(me, bs) && x != me && Lookup(bs, x).Some? && 0 <= Lookup(bs, x).value.pinged <= 2
    ensures |NewNode(me, bs, o).buckets| > 0 && Kept(Lookup(bs, x), Lookup(NewNode(me, bs, o).buckets, x), 1)
  {
    hide Lookup, NewNode, Valid, IsMartian;
    if !Welcome(me, o) {
      RefusedOutcome(me, bs, o);
      NotEmpty(me, bs);
    } else if x == o.id {
      KnownNode(me, bs, o);
    } else {
      NewNodeOtherEffect(me, bs, o, x);
    }
  }

  lemma OneEvent(me: Id, bs: seq<Bucket>, e: Event, x: Id)
    requires Valid(me, bs) && x != me && (e.Condemned? ==> e.id != x)
    requires Lookup(bs, x).Some? && 0 <= Lookup(bs, x).value.pinged <= 2
    ensures |Step(me, bs, e)| > 0
    ensures Kept(Lookup(bs, x), Lookup(Step(me, bs, e), x), if e.Heard? || (e.Requested? && e.id == x) then 1 else 0)
  {
    NotEmpty(me, Step(me, bs, e));
    hide Lookup, NewNode, Expire, PingNode, Condemn, Valid;
    match e
    case Heard(o) => HeardKeeps(me, bs, o, x);
    case Requested(id, now) => PingNodeEffect(me, bs, id, now, x);
    case Condemned(id, now) => CondemnEffect(me, bs, id, now, x);
    case Expiry => ExpireEffect(me, bs, x);
  }

  lemma RunOneMore(me: Id, es: seq<Event>, e: Event)
    ensures Run(me, es + [e]) == Step(me, Run(me, es), e)
  {
    assert (es + [e])[..|es|] == es;
  }

  // A node that answered is neither evicted nor expired before it left three requests
  // unanswered, whatever else happens to the table.
  lemma {:induction false} AnsweredNodeStays(me: Id, es: seq<Event>, after: seq<Event>, x: Id)
    requires x != me && Entry(me, es, x).Some? && Entry(me, es, x).value.pinged == 0
    requires NotCondemned(after, x) && Asked(me, es, after, x) < 3
    ensures Entry(me, es + after, x).Some? && 0 <= Entry(me, es + after, x).value.pinged <= Asked(me, es, after, x)
  {
    hide Run, Step, Lookup;
    if after == [] {
      assert es + after == es;
    } else {
      var n := |after| - 1;
      AnsweredNodeStays(me, es, after[..n], x);
      assert es + after == (es + after[..n]) + [after[n]];
      RunOneMore(me, es + after[..n], after[n]);
      OneEvent(me, Run(me, es + after[..n]), after[n], x);
    }
  }

  // In particular after an answer that found it in the table, or put it there
  lemma AnswerIsRemembered(me: Id, es: seq<Event>, o: Offer, after: seq<Event>)
    requires Welcome(me, o) && o.confirm >= 2 && Entry(me, es + [Heard(o)], o.id).Some?
    requires NotCondemned(after, o.id) && Asked(me, es + [Heard(o)], after, o.id) < 3
    ensures Entry(me, es + [Heard(o)] + after, o.id).Some?
  {
    hide Run, Lookup, NewNode, Asked, Find, InBucket;
    RunOneMore(me, es, Heard(o));
    if Entry(me, es, o.id).Some? {
      AnswerRenews(me, Run(me, es), o);
    } else {
      StrangerIsEntered(me, Run(me, es), o);
    }
    AnsweredNodeStays(me, es + [Heard(o)], after, o.id);
  }

  // ----- the cached address -----

  // The third request without an answer, and an expiry that drops a node, use it up.
  lemma CachedIsUsedUp(me: Id, bs: seq<Bucket>, id: Id, now: int, i: nat)
    requires Valid(me, bs) && i < |bs|
    ensures
      var b, r := bs[i], PingNode(bs, id, now);
      && |r| == |bs| == |Expire(bs)|
      && r[i].cached ==
         (if Find(bs, id) == i && Lookup(bs, id).Some? && Lookup(bs, id).value.pinged >= 2 then None else b.cached)
      && Expire(bs)[i].cached == (if exists n :: n in b.nodes && n.pinged >= 4 then None else b.cached)
  {
    hide Find, Firsts;
    var keep := (n: Node) => n.pinged < 4;
    FilterFull(bs[i].nodes, keep);
    if exists n :: n in bs[i].nodes && n.pinged >= 4 {
      var n :| n in bs[i].nodes && n.pinged >= 4;
      FilterMembers(bs[i].nodes, keep, n);
    } else {
      FilterAll(bs[i].nodes, keep);
    }
  }
}
