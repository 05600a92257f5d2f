/** The routing table of one address family, as the imperative code keeps it:
    the sorted list of buckets is updated in place, bucket by bucket and node by
    node.  Each method computes exactly what BucketList specifies. */
module RoutingTable {
  import opened Ids
  import opened Seqs
  import opened Net
  import opened KademliaTree
  import opened BucketList

  class Table {
    const me: Id
    var buckets: seq<Bucket>
    var growTime: int   // the last time our own bucket got a new node

    constructor (id: Id, now: int)
      ensures me == id && buckets == START && growTime == now
      ensures Valid(me, buckets)
    {
      me, buckets, growTime := id, START, now;
      new;
      StartIsValid(me);
    }

    // find_bucket
    method FindBucket(id: Id) returns (i: nat)
      requires |buckets| > 0
      ensures i == Find(buckets, id)
    {
      i := 0;
      while i + 1 < |buckets| && IdCmp(id, buckets[i + 1].first) >= 0
        invariant i < |buckets|
        invariant Find(buckets, id) == Find(buckets, id, i)
      {
        i := i + 1;
      }
    }

    // find_node
    method FindNode(id: Id) returns (r: Option<Node>)
      requires |buckets| > 0
      ensures r == Lookup(buckets, id)
    {
      var i := FindBucket(id);
      var k := FindInBucket(buckets[i].nodes, id);
      r := if k < |buckets[i].nodes| then Some(buckets[i].nodes[k]) else None;
    }

    static method FindInBucket(ns: seq<Node>, id: Id) returns (k: nat)
      ensures k == IndexOf(ns, id)
    {
      k := 0;
      while k < |ns| && IdCmp(ns[k].id, id) != 0
        invariant k <= |ns|
        invariant forall j: nat | j < k :: ns[j].id != id
      {
        IdCmpIsNumericOrder(ns[k].id, id);
        k := k + 1;
      }
      if k < |ns| {
        IdCmpIsNumericOrder(ns[k].id, id);
      }
      FirstWhereUnique(ns, (n: Node) => n.id == id, k);
    }

    // The bit at which bucket i is cut, as bucket_middle and bucket_random find it.
    method MiddleBit(i: nat) returns (bit: nat)
      requires i < |buckets|
      ensures bit == BoundaryBit(FirstsOf(buckets), i) + 1
    {
      var bit1 := FindLowBit(buckets[i].first);
      var bit2 := -1;
      if i + 1 < |buckets| {
        bit2 := FindLowBit(buckets[i + 1].first);
      }
      bit := (if bit1 >= bit2 then bit1 else bit2) + 1;
      assert FirstsOf(buckets)[i] == buckets[i].first;
    }

    // bucket_middle
    method BucketMiddle(i: nat) returns (m: Option<Id>)
      requires i < |buckets|
      ensures m == Middle(buckets, i)
    {
      var bit := MiddleBit(i);
      if bit >= 160 {
        return None;
      }
      m := Some(SetBit(buckets[i].first, bit));
    }

    // insert_node: at the head of the bucket that find_bucket finds.
    method InsertNode(n: Node)
      requires |buckets| > 0
      modifies this`buckets
      ensures var i := Find(old(buckets), n.id); var b := old(buckets)[i];
        buckets == old(buckets)[i := b.(nodes := [n] + b.nodes, count := b.count + 1)]
    {
      var i := FindBucket(n.id);
      var b := buckets[i];
      buckets := buckets[i := b.(nodes := [n] + b.nodes, count := b.count + 1)];
    }

    // The table while split_bucket hands out the nodes of bucket i again.
    ghost function HandedOut(bs: seq<Bucket>, i: nat, pre: seq<Node>): (r: seq<Bucket>)
      requires i < |bs| && Middle(bs, i).Some?
      ensures |r| == |bs| + 1
    {
      var m := Middle(bs, i).value;
      var lo, hi := Picked(pre, m, false), Picked(pre, m, true);
      Split(bs, i)[i := Split(bs, i)[i].(nodes := lo, count := |lo|)]
                  [i + 1 := Split(bs, i)[i + 1].(nodes := hi, count := |hi|)]
    }

    lemma HandOut(bs: seq<Bucket>, i: nat, k: nat)
      requires Valid(me, bs) && i < |bs| && InBucket(bs, i, me) && Middle(bs, i).Some?
      requires k < |bs[i].nodes|
      ensures var n := bs[i].nodes[k];
        var t := HandedOut(bs, i, bs[i].nodes[..k]);
        var j := Find(t, n.id);
        && HandedOut(bs, i, bs[i].nodes[..k + 1])
             == t[j := t[j].(nodes := [n] + t[j].nodes, count := t[j].count + 1)]
    {
      hide IdCmp, Find, Sorted, Middle, Split, Firsts, BoundaryBit, InBucket, Ones, Picked;
      var n, m := bs[i].nodes[k], Middle(bs, i).value;
      var pre := bs[i].nodes[..k];
      var t := HandedOut(bs, i, pre);
      assert BucketOk(me, bs, i) && n in bs[i].nodes;
      OwnIndex(me, bs, i);
      SplitFirstsAreTree(me, bs, i);
      ValidIsSorted(me, bs);
      ValidIsSorted(me, Split(bs, i));
      SplitFind(bs, i, n.id);
      FindByFirsts(Split(bs, i), t, n.id, 0);
      PickedStep(bs[i].nodes, k, m);
      var t' := HandedOut(bs, i, bs[i].nodes[..k + 1]);
      var j := Find(t, n.id);
      var u := t[j := t[j].(nodes := [n] + t[j].nodes, count := t[j].count + 1)];
      assert j == if IdCmp(n.id, m) >= 0 then i + 1 else i;
      assert t'[i] == u[i] && t'[i + 1] == u[i + 1];
      assert t' == u;
    }

    lemma PickedStep(ns: seq<Node>, k: nat, m: Id)
      requires k < |ns|
      ensures Picked(ns[..k + 1], m, false)
           == (if IdCmp(ns[k].id, m) >= 0 then [] else [ns[k]]) + Picked(ns[..k], m, false)
      ensures Picked(ns[..k + 1], m, true)
           == (if IdCmp(ns[k].id, m) >= 0 then [ns[k]] else []) + Picked(ns[..k], m, true)
    {
      assert ns[..k + 1][..k] == ns[..k];
    }

    lemma HandedOutEnds(bs: seq<Bucket>, i: nat)
      requires i < |bs| && Middle(bs, i).Some?
      ensures HandedOut(bs, i, bs[i].nodes) == Split(bs, i)
      ensures var b := bs[i];
        HandedOut(bs, i, []) == bs[..i]
          + [b.(nodes := [], count := 0, cached := None), Bucket(Middle(bs, i).value, 0, b.time, [], None)]
          + bs[i + 1..]
    {
      hide Middle, IdCmp;
      SplitHalves(bs, i);
    }

    // split_bucket, on our own bucket
    method SplitBucket(i: nat) returns (ok: bool)
      requires Valid(me, buckets) && i < |buckets| && InBucket(buckets, i, me)
      modifies this`buckets
      ensures ok <==> Middle(old(buckets), i).Some?
      ensures buckets == if ok then Split(old(buckets), i) else old(buckets)
    {
      hide IdCmp, Find, Middle, Split, Firsts, InBucket, HandedOut, Picked;
      ghost var bs := buckets;
      var m := BucketMiddle(i);
      if m.None? {
        return false;
      }
      var b := buckets[i];
      HandedOutEnds(bs, i);
      buckets := buckets[..i]
      + [b.(nodes := [], count := 0, cached := None), Bucket(m.value, 0, b.time, [], None)]
      + buckets[i + 1..];
      var nodes := b.nodes;
      ghost var k := 0;
      while nodes != []
        invariant k <= |b.nodes| && nodes == b.nodes[k..]
        invariant buckets == HandedOut(bs, i, b.nodes[..k])
        decreases |nodes|
      {
        var n := nodes[0];
        nodes := nodes[1..];
        HandOut(bs, i, k);
        InsertNode(n);
        k := k + 1;
      }
      assert b.nodes[..k] == b.nodes;
      ok := true;
    }

    // The scan for the first known-bad node.
    static method FindBad(ns: seq<Node>, now: int) returns (k: nat)
      ensures k == FirstBad(ns, now)
    {
      k := 0;
      while k < |ns| && !(ns[k].pinged >= 3 && ns[k].pingedTime < now - 15)
        invariant k <= |ns|
        invariant forall j: nat | j < k :: !NodeBad(ns[j], now)
      {
        k := k + 1;
      }
      FirstWhereUnique(ns, (n: Node) => NodeBad(n, now), k);
    }

    // The scan of a full bucket: is any node dubious, and which dubious node is
    // the first that was not pinged in the last 15 seconds?
    static method FindDubious(ns: seq<Node>, now: int) returns (dubious: bool, k: nat)
      ensures dubious <==> !AllGood(ns, now)
      ensures k == FirstToPing(ns, now)
    {
      dubious, k := false, 0;
      while k < |ns|
        invariant k <= |ns|
        invariant dubious <==> !AllGood(ns[..k], now)
        invariant forall j: nat | j < k :: !NodeToPing(ns[j], now)
      {
        assert ns[..k + 1] == ns[..k] + [ns[k]];
        if !NodeGood(ns[k], now) {
          dubious := true;
          if ns[k].pingedTime < now - 15 {
            assert ns[k] in ns;
            break;
          }
        }
        k := k + 1;
      }
      if k == |ns| {
        assert ns[..k] == ns;
      }
      FirstWhereUnique(ns, (n: Node) => NodeToPing(n, now), k);
    }

    // new_node's update of a node that is already known.
    static method Refresh(known: Node, o: Offer) returns (n: Node)
      ensures n == Refreshed(known, o)
    {
      n := known;
      if o.confirm != 0 || n.time < o.now - 15 * 60 {
        n := n.(addr := o.addr);
        if o.confirm != 0 {
          n := n.(time := o.now);
        }
        if o.confirm >= 2 {
          n := n.(replyTime := o.now, pinged := 0, pingedTime := 0);
        }
      }
    }

    // new_node: the table afterwards is that of the specification, splits and all.
    method NewNode(o: Offer) returns (r: Option<Node>)
      requires Valid(me, buckets)
      modifies this`buckets, this`growTime
      ensures Outcome(buckets, r) == BucketList.NewNode(me, old(buckets), o)
      ensures growTime == if Grows(me, old(buckets), o) then o.now else old(growTime)
      ensures Valid(me, buckets)
      decreases MAX_BUCKETS - |buckets|, 2
    {
      hide Find, Firsts, Middle, Split, AllGood, NodeToPing, NodeBad, BucketOk, BucketList.NewNode, IdCmp, FirstBad;
      ghost var bs := buckets;
      NewNodeKeepsValid(me, bs, o);
      var i := FindBucket(o.id);
      IdCmpIsNumericOrder(o.id, me);
      if IdCmp(o.id, me) == 0 {
        RefusedOutcome(me, bs, o);
        return None;
      }
      if IsMartian(o.addr) || o.snubbed {
        RefusedOutcome(me, bs, o);
        return None;
      }
      var mine := InBucket(buckets, i, me);
      if o.confirm == 2 {
        buckets := buckets[i := buckets[i].(time := o.now)];
      }
      var b := buckets[i];
      assert b == Touched(bs[i], o) && buckets == bs[i := b];
      var k := FindInBucket(b.nodes, o.id);
      if k < |b.nodes| {
        NewNodeStays(me, bs, o);
        var n := Refresh(b.nodes[k], o);
        buckets := buckets[i := b.(nodes := b.nodes[k := n])];
        return Some(n);
      }
      r := AddStranger(o, i, mine, bs);
    }

    // The rest of new_node, for an id that is not in the bucket
    method AddStranger(o: Offer, i: nat, mine: bool, ghost bs: seq<Bucket>) returns (r: Option<Node>)
      requires Valid(me, bs) && !Refused(me, o) && i == Find(bs, o.id) && mine == InBucket(bs, i, me)
      requires buckets == bs[i := Touched(bs[i], o)] && IndexOf(bs[i].nodes, o.id) == |bs[i].nodes|
      modifies this`buckets, this`growTime
      ensures Outcome(buckets, r) == BucketList.NewNode(me, bs, o)
      ensures growTime == if mine then o.now else old(growTime)
      ensures Valid(me, buckets)
      decreases MAX_BUCKETS - |bs|, 1
    {
      hide Find, Firsts, Middle, Split, AllGood, NodeToPing, NodeBad, BucketOk, BucketList.NewNode, IdCmp, FirstBad;
      NewNodeKeepsValid(me, bs, o);
      var b := buckets[i];
      if mine {
        growTime := o.now;
      }
      var added := Node(o.id, o.addr, if o.confirm != 0 then o.now else 0, if o.confirm >= 2 then o.now else 0, 0, 0);
      var j := FindBad(b.nodes, o.now);
      if j < |b.nodes| {
        NewNodeStays(me, bs, o);
        buckets := buckets[i := b.(nodes := b.nodes[j := added])];
        return Some(added);
      }
      if b.count >= 8 {
        r := NewNodeInFullBucket(o, i, mine, bs);
        return;
      }
      NewNodeStays(me, bs, o);
      buckets := buckets[i := b.(nodes := [added] + b.nodes, count := b.count + 1)];
      r := Some(added);
    }

    // The branch of new_node for a bucket without room: one ping at most, then our own
    // bucket is split and all starts over, or the address is kept as cached.
    method NewNodeInFullBucket(o: Offer, i: nat, mine: bool, ghost bs: seq<Bucket>) returns (r: Option<Node>)
      requires Valid(me, bs) && !Refused(me, o) && i == Find(bs, o.id) && mine == InBucket(bs, i, me)
      requires buckets == bs[i := Touched(bs[i], o)] && bs[i].count >= MAX_NODES
      requires IndexOf(bs[i].nodes, o.id) == |bs[i].nodes| == FirstBad(bs[i].nodes, o.now)
      requires mine ==> growTime == o.now
      modifies this`buckets, this`growTime
      ensures Outcome(buckets, r) == BucketList.NewNode(me, bs, o)
      ensures growTime == old(growTime)
      ensures Valid(me, buckets)
      decreases MAX_BUCKETS - |bs|, 0
    {
      hide Find, Firsts, Middle, Split, IdCmp, AllGood, NodeToPing, NodeBad, BucketOk;
      NewNodeKeepsValid(me, bs, o);
      var b := buckets[i];
      var dubious, k := FindDubious(b.nodes, o.now);
      if k < |b.nodes| {
        var n := b.nodes[k];
        b := b.(nodes := b.nodes[k := n.(pinged := n.pinged + 1, pingedTime := o.now)]);
        buckets := buckets[i := b];
      }
      assert buckets == bs[i := PingDubious(Touched(bs[i], o), o.now)];
      var split := false;
      if mine {
        if !dubious {
          split := true;
        } else if |buckets| == 1 {
          split := true;
        }
      }
      if split {
        SplitStep(me, bs, o);
        SplitOwnBucket(i);
        r := NewNode(o);
        return;
      }
      if o.confirm != 0 || b.cached.None? {
        buckets := buckets[i := b.(cached := Some(o.addr))];
      }
      r := None;
    }

    // split_bucket where new_node calls it: it does not fail.
    method SplitOwnBucket(i: nat)
      requires Valid(me, buckets) && i < |buckets| && InBucket(buckets, i, me) && Middle(buckets, i).Some?
      modifies this`buckets
      ensures buckets == Split(old(buckets), i)
    {
      var ok := SplitBucket(i);
    }

    // The two removal loops of expire_buckets, on the list of one bucket.
    static method ExpireBucket(b: Bucket) returns (r: Bucket)
      requires b.count == |b.nodes|
      ensures r == Expired(b)
    {
      hide Filter;
      var keep := (n: Node) => n.pinged < 4;
      var nodes, count, changed := b.nodes, b.count, false;
      while nodes != [] && nodes[0].pinged >= 4
        invariant Filter(nodes, keep) == Filter(b.nodes, keep)
        invariant count == |nodes| <= |b.nodes| && (changed <==> |nodes| < |b.nodes|)
        decreases |nodes|
      {
        FilterRemove(nodes, 0, keep);
        assert nodes[..0] + nodes[1..] == nodes[1..];
        nodes, count, changed := nodes[1..], count - 1, true;
      }
      var p := 0;
      while p < |nodes|
        invariant p <= |nodes| && (p < |nodes| ==> nodes[p].pinged < 4)
        invariant forall j: nat | j < p :: nodes[j].pinged < 4
        invariant Filter(nodes, keep) == Filter(b.nodes, keep)
        invariant count == |nodes| <= |b.nodes| && (changed <==> |nodes| < |b.nodes|)
        decreases |nodes| - p
      {
        while p + 1 < |nodes| && nodes[p + 1].pinged >= 4
          invariant p < |nodes| && nodes[p].pinged < 4
          invariant forall j: nat | j < p :: nodes[j].pinged < 4
          invariant Filter(nodes, keep) == Filter(b.nodes, keep)
          invariant count == |nodes| <= |b.nodes| && (changed <==> |nodes| < |b.nodes|)
          decreases |nodes|
        {
          FilterRemove(nodes, p + 1, keep);
          nodes, count, changed := nodes[..p + 1] + nodes[p + 2..], count - 1, true;
        }
        p := p + 1;
      }
      FilterAll(nodes, keep);
      r := b.(nodes := nodes, count := count, cached := if changed then None else b.cached);
    }

    // expire_buckets
    method ExpireBuckets()
      requires Valid(me, buckets)
      modifies this`buckets
      ensures buckets == Expire(old(buckets))
      ensures Valid(me, buckets)
    {
      ghost var bs := buckets;
      var i := 0;
      while i < |buckets|
        invariant i <= |buckets| == |bs|
        invariant forall j: nat | j < |bs| :: buckets[j] == if j < i then Expired(bs[j]) else bs[j]
      {
        assert BucketOk(me, bs, i);
        var b := ExpireBucket(buckets[i]);
        buckets := buckets[i := b];
        i := i + 1;
      }
      assert buckets == Expire(bs);
      ExpireKeepsValid(me, bs);
    }

    // pinged(), on the table entry of a node we sent a request to
    method RequestSent(id: Id, now: int)
      requires Valid(me, buckets)
      modifies this`buckets
      ensures buckets == PingNode(old(buckets), id, now)
      ensures Valid(me, buckets)
    {
      PingNodeEffect(me, buckets, id, now, id);
      var i := FindBucket(id);
      var k := FindInBucket(buckets[i].nodes, id);
      if k < |buckets[i].nodes| {
        var n := buckets[i].nodes[k];
        n := n.(pinged := n.pinged + 1, pingedTime := now);
        buckets := buckets[i := buckets[i].(nodes := buckets[i].nodes[k := n])];
        if n.pinged >= 3 {
          buckets := buckets[i := buckets[i].(cached := None)];
        }
      }
    }

    // The first half of blacklist_node: the next expiry will drop the node.
    method BlacklistNode(id: Id, now: int)
      requires Valid(me, buckets)
      modifies this`buckets
      ensures buckets == Condemn(old(buckets), id, now)
      ensures Valid(me, buckets)
    {
      CondemnEffect(me, buckets, id, now, id);
      var i := FindBucket(id);
      var k := FindInBucket(buckets[i].nodes, id);
      if k < |buckets[i].nodes| {
        var n := buckets[i].nodes[k].(pinged := 3);
        n := n.(pinged := n.pinged + 1, pingedTime := now);
        buckets := buckets[i := buckets[i].(nodes := buckets[i].nodes[k := n], cached := None)];
      }
    }

    // 0xFF >> j
    static function LowMask(j: nat): Byte
      requires j < 8
    {
      if j == 0 then 0xFF else if j == 1 then 0x7F else if j == 2 then 0x3F else if j == 3 then 0x1F
      else if j == 4 then 0x0F else if j == 5 then 0x07 else if j == 6 then 0x03 else 0x01
    }

    // Not used in any proof: ties the two tables to the shifts of bucket_random.
    static lemma HalfMasks(j: nat)
      requires j < 8
      ensures HighBits(j) as bv16 == (0xFF00 as bv16 >> j) & 0xFF
      ensures LowMask(j) == 0xFF as bv8 >> j
    {}

    static function MixByte(x: Byte, y: Byte, j: nat): Byte
      requires j < 8
    {
      (x & HighBits(j)) | (y & LowMask(j))
    }

    static lemma MixedByte(x: Byte, y: Byte, j: nat, k: nat)
      requires j < 8 && k < 8
      ensures ByteBit(MixByte(x, y, j), k) == if k < j then ByteBit(x, k) else ByteBit(y, k)
    {
      hide HighBits, LowMask, Mask, MixByte;
      MixMasked(x, y, j, k);
      MaskSides(j, k);
      if k < j {
        OneSide(x, y, Mask(k));
      } else {
        OtherSide(x, y, Mask(k));
      }
    }

    static lemma MixMasked(x: Byte, y: Byte, j: nat, k: nat)
      requires j < 8 && k < 8
      ensures MixByte(x, y, j) & Mask(k) == (x & (HighBits(j) & Mask(k))) | (y & (LowMask(j) & Mask(k)))
    {
      hide HighBits, LowMask, Mask;
      MaskedMix(x, y, HighBits(j), LowMask(j), Mask(k));
    }

    static lemma OneSide(x: Byte, y: Byte, m: Byte)
      ensures (x & m) | (y & 0) == x & m
    {}

    static lemma OtherSide(x: Byte, y: Byte, m: Byte)
      ensures (x & 0) | (y & m) == y & m
    {}

    static lemma MaskSides(j: nat, k: nat)
      requires j < 8 && k < 8
      ensures HighBits(j) & Mask(k) == if k < j then Mask(k) else 0
      ensures LowMask(j) & Mask(k) == if k < j then 0 else Mask(k)
    {}

    static lemma MaskedMix(x: Byte, y: Byte, hi: Byte, lo: Byte, m: Byte)
      ensures ((x & hi) | (y & lo)) & m == (x & (hi & m)) | (y & (lo & m))
    {}

    // The bytes bucket_random writes: bit leading bits of first, the rest at random.
    static ghost function Mixed(first: Id, random: Id, bit: nat): Id
      requires bit <= 160
    {
      if bit == 160 then first else
        var q := bit / 8;
        first[..q] + [MixByte(first[q], random[q], bit % 8)] + random[q + 1..]
    }

    static lemma MixedBit(first: Id, random: Id, bit: nat, k: nat)
      requires bit <= 160 && k < BITS
      ensures Bit(Mixed(first, random, bit), k) == if k < bit then Bit(first, k) else Bit(random, k)
    {
      hide MixByte, ByteBit;
      if bit < 160 {
        var q := bit / 8;
        if k / 8 < q {
          assert Mixed(first, random, bit)[k / 8] == first[k / 8] && k < bit;
        } else if k / 8 > q {
          assert Mixed(first, random, bit)[k / 8] == random[k / 8] && k >= bit;
        } else {
          MixedByte(first[q], random[q], bit % 8, k % 8);
        }
      }
    }

    // bucket_random, from 20 random bytes: the id lies in the range of the bucket, and
    // every id of that range can come out.
    method BucketRandom(i: nat, random: Id) returns (id: Id)
      requires Valid(me, buckets) && i < |buckets|
      ensures InBucket(buckets, i, id)
      ensures InBucket(buckets, i, random) ==> id == random
    {
      hide Firsts, InBucket, BucketOk, MixByte, Find, BoundaryBit, FirstsOf, Valid, CmpFrom;
      var first := buckets[i].first;
      var bit := MiddleBit(i);
      MixedIsInBucket(i, random, bit);
      if bit >= 160 {
        return first;
      }
      var q := bit / 8;
      id := first[..q] + [MixByte(first[q], random[q], bit % 8)] + random[q + 1..];
    }

    lemma MixedIsInBucket(i: nat, random: Id, bit: int)
      requires Valid(me, buckets) && i < |buckets| && bit == BoundaryBit(FirstsOf(buckets), i) + 1
      ensures 0 <= bit <= 160
      ensures var id := Mixed(buckets[i].first, random, bit);
        InBucket(buckets, i, id) && (InBucket(buckets, i, random) ==> id == random)
    {
      hide Firsts, Depths, Ones, BoundaryBit, Bit, Mixed, BucketOk;
      var d, first := |buckets| - 1, buckets[i].first;
      assert FirstsOf(buckets)[i] == first;
      BoundaryBitIsDepth(me, d, i);
      TreeIsAligned(me, d);
      assert AlignedAt(Firsts(me, d), i, Depths(me, d)[i]);
      var id := Mixed(first, random, bit);
      forall k: nat | k < BITS ensures Bit(id, k) == if k < bit then Bit(first, k) else Bit(random, k) {
        MixedBit(first, random, bit, k);
      }
      assert InRange(Firsts(me, d), i, id) <==> Agree(id, first, bit);
      assert InRange(Firsts(me, d), i, random) <==> Agree(random, first, bit);
      if InBucket(buckets, i, random) {
        AllBitsEqualIff(id, random);
      }
    }
  }
}
