/** The Kademlia tree of one id, cut at depth d.

    Only the bucket that holds our own id is ever split.  Starting from one
    bucket and splitting d times therefore gives exactly one list of first ids:
    Firsts(me, d).  This module proves what that list means: which ids each
    interval [first, next.first) holds, and how a bucket's depth can be read
    off the lowest set bits of the two first ids that delimit it. */
module KademliaTree {
  import opened Ids
  import opened Seqs

  // ----- the canonical list of first ids -----

  // The number of 1 bits among the first d bits of me: the position of the
  // bucket holding me in the tree of depth d.
  ghost function Ones(me: Id, d: nat): (k: nat)
    requires d <= BITS
    ensures k <= d
  {
    if d == 0 then 0 else Ones(me, d - 1) + (if Bit(me, d - 1) then 1 else 0)
  }

  ghost function Firsts(me: Id, d: nat): (f: seq<Id>)
    requires d <= BITS
    ensures |f| == d + 1
  {
    if d == 0 then [ZERO] else
      CutFirsts(Firsts(me, d - 1), Ones(me, d - 1), d - 1)
  }

  // Cut interval k at bit d: its upper half starts at the middle id.
  ghost function CutFirsts(f: seq<Id>, k: nat, d: nat): (r: seq<Id>)
    requires k < |f| && d < BITS
    ensures |r| == |f| + 1 && r[k + 1] == SetBit(f[k], d)
    ensures forall i: nat {:trigger r[i]} | i < |r| && i != k + 1 :: r[i] == if i <= k then f[i] else f[i - 1]
  {
    f[..k + 1] + [SetBit(f[k], d)] + f[k + 1..]
  }

  // The length of the prefix shared by all ids of each bucket.
  ghost function Depths(me: Id, d: nat): (p: seq<nat>)
    requires d <= BITS
    ensures |p| == d + 1
  {
    if d == 0 then [0] else
      CutDepths(Depths(me, d - 1), Ones(me, d - 1), d)
  }

  ghost function CutDepths(p: seq<nat>, k: nat, d: nat): (r: seq<nat>)
    requires k < |p|
    ensures |r| == |p| + 1 && r[k] == r[k + 1] == d
    ensures forall i: nat {:trigger r[i]} | i < |r| && i != k && i != k + 1 :: r[i] == if i < k then p[i] else p[i - 1]
  {
    p[..k] + [d, d] + p[k + 1..]
  }

  // ----- intervals of ids -----

  // The test of in_bucket, on the list of first ids.
  predicate InRange(f: seq<Id>, i: nat, x: Id)
    requires i < |f|
  {
    IdCmp(f[i], x) <= 0 && (i + 1 == |f| || IdCmp(x, f[i + 1]) < 0)
  }

  // Interval i holds exactly the ids that share its first p bits.
  ghost predicate AlignedAt(f: seq<Id>, i: nat, p: nat)
    requires i < |f|
  {
    && p <= BITS && ZeroFrom(f[i], p)
    && forall x :: InRange(f, i, x) <==> Agree(x, f[i], p)
  }

  ghost predicate Aligned(f: seq<Id>, p: seq<nat>)
  {
    |f| == |p| && forall i: nat | i < |f| :: AlignedAt(f, i, p[i])
  }

  // An id with the prefix of a is below the middle iff its next bit is 0.
  lemma BelowMiddle(a: Id, d: nat, x: Id)
    requires d < BITS && ZeroFrom(a, d) && Agree(x, a, d)
    ensures Val(x) < Val(SetBit(a, d)) <==> !Bit(x, d)
  {
    var m := SetBit(a, d);
    SetBitBits(a, d);
    if !Bit(x, d) {
      ValOrder(x, m, d, BITS);
    } else if x != m {
      var k := CommonBits(x, m);
      assert k > d;
      ValOrder(m, x, k, BITS);
    }
  }

  lemma MiddleAgrees(a: Id, d: nat)
    requires d < BITS && ZeroFrom(a, d)
    ensures Agree(SetBit(a, d), a, d) && ZeroFrom(SetBit(a, d), d + 1)
    ensures Bit(SetBit(a, d), d) && !Bit(a, d)
    ensures Val(a) < Val(SetBit(a, d))
  {
    SetBitBits(a, d);
    ValOrder(a, SetBit(a, d), d, BITS);
  }

  // The lower half of a cut interval: the ids whose next bit is 0.
  lemma CutLower(f: seq<Id>, k: nat, d: nat, x: Id)
    requires k < |f| && d < BITS && AlignedAt(f, k, d)
    ensures InRange(CutFirsts(f, k, d), k, x) <==> Agree(x, f[k], d + 1)
  {
    var m := SetBit(f[k], d);
    MiddleAgrees(f[k], d);
    assert InRange(f, k, m);
    IdCmpIsNumericOrder(x, m);
    if k + 1 < |f| {
      IdCmpIsNumericOrder(m, f[k + 1]);
      IdCmpIsNumericOrder(x, f[k + 1]);
    }
    assert InRange(f, k, x) <==> Agree(x, f[k], d);
    if Agree(x, f[k], d) {
      BelowMiddle(f[k], d, x);
    }
  }

  // The upper half: the ids whose next bit is 1.
  lemma CutUpper(f: seq<Id>, k: nat, d: nat, x: Id)
    requires k < |f| && d < BITS && AlignedAt(f, k, d)
    ensures InRange(CutFirsts(f, k, d), k + 1, x) <==> Agree(x, SetBit(f[k], d), d + 1)
  {
    var m := SetBit(f[k], d);
    MiddleAgrees(f[k], d);
    IdCmpIsNumericOrder(m, x);
    IdCmpIsNumericOrder(f[k], x);
    assert InRange(f, k, x) <==> Agree(x, f[k], d);
    assert Agree(x, m, d) <==> Agree(x, f[k], d) by { AgreeLike(x, m, f[k], d); }
    if Agree(x, f[k], d) {
      BelowMiddle(f[k], d, x);
    }
  }

  lemma AgreeLike(x: Id, a: Id, b: Id, n: nat)
    requires n <= BITS && Agree(a, b, n)
    ensures Agree(x, a, n) <==> Agree(x, b, n)
  {}

  // Cutting interval k leaves every interval aligned.
  lemma CutAligned(f: seq<Id>, p: seq<nat>, k: nat, d: nat)
    requires Aligned(f, p) && k < |f| && d < BITS && p[k] == d
    ensures Aligned(CutFirsts(f, k, d), CutDepths(p, k, d + 1))
  {
    var f', p' := CutFirsts(f, k, d), CutDepths(p, k, d + 1);
    assert AlignedAt(f, k, d);
    MiddleAgrees(f[k], d);
    forall i: nat | i < |f'|
      ensures AlignedAt(f', i, p'[i])
    {
      if i == k {
        forall x ensures InRange(f', i, x) <==> Agree(x, f'[i], d + 1) { CutLower(f, k, d, x); }
      } else if i == k + 1 {
        forall x ensures InRange(f', i, x) <==> Agree(x, f'[i], d + 1) { CutUpper(f, k, d, x); }
      } else {
        CutElsewhere(f, p, k, d, i);
      }
    }
  }

  lemma CutElsewhere(f: seq<Id>, p: seq<nat>, k: nat, d: nat, i: nat)
    requires Aligned(f, p) && k < |f| && d < BITS && i <= |f| && i != k && i != k + 1
    ensures AlignedAt(CutFirsts(f, k, d), i, CutDepths(p, k, d + 1)[i])
  {
    var f', j := CutFirsts(f, k, d), if i < k then i else i - 1;
    assert AlignedAt(f, j, p[j]);
    forall x
      ensures InRange(f', i, x) <==> InRange(f, j, x)
    {}
  }

  lemma ZeroIsLeast(x: Id)
    ensures Val(ZERO) <= Val(x)
  {
    if x != ZERO {
      var k := CommonBits(x, ZERO);
      ZeroBits(k);
      ValOrder(ZERO, x, k, BITS);
    }
  }

  // f and p describe the tree of me cut at depth d: aligned intervals, of which
  // the one at me's position has prefix length d and shares that prefix with me.
  ghost predicate IsTree(me: Id, f: seq<Id>, p: seq<nat>, d: nat)
    requires d <= BITS
  {
    && |f| == d + 1 && Aligned(f, p)
    && p[Ones(me, d)] == d && Agree(me, f[Ones(me, d)], d)
  }

  lemma OneBucketIsTree(me: Id)
    ensures IsTree(me, [ZERO], [0], 0)
  {
    forall k: nat | k < BITS ensures !Bit(ZERO, k) { ZeroBits(k); }
    forall x ensures InRange([ZERO], 0, x) {
      IdCmpIsNumericOrder(ZERO, x);
      ZeroIsLeast(x);
    }
    assert AlignedAt([ZERO], 0, 0);
  }

  lemma CutIsTree(me: Id, f: seq<Id>, p: seq<nat>, d: nat)
    requires d < BITS && IsTree(me, f, p, d)
    ensures var k := Ones(me, d); IsTree(me, CutFirsts(f, k, d), CutDepths(p, k, d + 1), d + 1)
  {
    hide Bit;
    var k := Ones(me, d);
    assert AlignedAt(f, k, d);
    CutAligned(f, p, k, d);
    MiddleAgrees(f[k], d);
  }

  // Every bucket of the tree is an interval holding exactly the ids that share
  // a prefix; the bucket of me has prefix length d and shares it with me.
  lemma {:induction false} TreeIsAligned(me: Id, d: nat)
    requires d <= BITS
    ensures IsTree(me, Firsts(me, d), Depths(me, d), d)
  {
    hide IsTree, Bit, CutFirsts, CutDepths, Ones;
    if d == 0 {
      OneBucketIsTree(me);
    } else {
      TreeIsAligned(me, d - 1);
      CutIsTree(me, Firsts(me, d - 1), Depths(me, d - 1), d - 1);
    }
  }

  // ----- which ids each bucket holds -----

  // The bucket of our own id holds exactly the ids at common prefix length d or more.
  lemma OwnBucketHolds(me: Id, d: nat, x: Id)
    requires d <= BITS
    ensures InRange(Firsts(me, d), Ones(me, d), x) <==> CommonBits(x, me) >= d
  {
    TreeIsAligned(me, d);
    var f, p, k := Firsts(me, d), Depths(me, d), Ones(me, d);
    assert AlignedAt(f, k, p[k]);
    AgreeLike(x, f[k], me, d);
    var n := CommonBits(x, me);
    assert n < d ==> Bit(x, n) != Bit(me, n);
  }

  // The position of the bucket for common prefix length j < d: siblings with a
  // smaller id come before our own bucket in order of j, the others after it in
  // reverse order.
  ghost function SiblingIndex(me: Id, d: nat, j: nat): (i: nat)
    requires j < d <= BITS
    ensures i <= d
  {
    OnesGrow(me, j, d);
    if Bit(me, j) then Ones(me, j) else d - (j - Ones(me, j))
  }

  lemma {:induction false} OnesGrow(me: Id, j: nat, d: nat)
    requires j <= d <= BITS
    ensures Ones(me, j) <= Ones(me, d) <= Ones(me, j) + d - j
  {
    if j < d {
      OnesGrow(me, j, d - 1);
    }
  }

  lemma OnesAfter(me: Id, j: nat, d: nat)
    requires j < d <= BITS
    ensures if Bit(me, j) then Ones(me, j) + 1 <= Ones(me, d) else Ones(me, d) + 1 <= Ones(me, j) + d - j
  {
    OnesGrow(me, j + 1, d);
  }

  // Our own position and the d sibling positions are all different.
  lemma SiblingsDiffer(me: Id, d: nat, j: nat, j': nat)
    requires j < d <= BITS && j' < d && j != j'
    ensures SiblingIndex(me, d, j) != Ones(me, d)
    ensures SiblingIndex(me, d, j) != SiblingIndex(me, d, j')
  {
    hide Bit, Ones;
    OnesAfter(me, j, d);
    OnesAfter(me, j', d);
    if j < j' {
      OnesAfter(me, j, j');
    } else {
      OnesAfter(me, j', j);
    }
  }

  ghost predicate IsSibling(me: Id, f: seq<Id>, p: seq<nat>, i: nat, j: nat)
    requires j < BITS
  {
    && i < |f| == |p| && p[i] == j + 1
    && Agree(f[i], me, j) && Bit(f[i], j) != Bit(me, j)
  }

  lemma {:induction false} SiblingShape(me: Id, d: nat, j: nat)
    requires j < d <= BITS
    ensures IsSibling(me, Firsts(me, d), Depths(me, d), SiblingIndex(me, d, j), j)
  {
    hide *;
    var f, p, k := Firsts(me, d - 1), Depths(me, d - 1), Ones(me, d - 1);
    TreeStep(me, d - 1);
    if j < d - 1 {
      SiblingShape(me, d - 1, j);
      SiblingIndexStep(me, d - 1, j);
      SiblingKept(me, f, p, SiblingIndex(me, d - 1, j), j, k, d - 1);
    } else {
      TreeIsAligned(me, d - 1);
      LastSiblingIndex(me, d - 1);
      NewSibling(me, f, p, d - 1);
    }
  }

  // One more split.
  lemma TreeStep(me: Id, d: nat)
    requires d < BITS
    ensures Firsts(me, d + 1) == CutFirsts(Firsts(me, d), Ones(me, d), d)
    ensures Depths(me, d + 1) == CutDepths(Depths(me, d), Ones(me, d), d + 1)
  {}

  // The bucket about to be split starts at our first d bits, followed by zeros.
  lemma OwnFirst(me: Id, d: nat)
    requires d <= BITS
    ensures ZeroFrom(Firsts(me, d)[Ones(me, d)], d) && Agree(me, Firsts(me, d)[Ones(me, d)], d)
    ensures Depths(me, d)[Ones(me, d)] == d
  {
    TreeIsAligned(me, d);
    assert AlignedAt(Firsts(me, d), Ones(me, d), Depths(me, d)[Ones(me, d)]);
    hide InRange;
  }

  lemma LastSiblingIndex(me: Id, d: nat)
    requires d < BITS
    ensures SiblingIndex(me, d + 1, d) == if Bit(me, d) then Ones(me, d) else Ones(me, d) + 1
  {}

  lemma SiblingIndexStep(me: Id, d: nat, j: nat)
    requires j < d < BITS
    ensures var i, k := SiblingIndex(me, d, j), Ones(me, d);
      i != k && SiblingIndex(me, d + 1, j) == if i < k then i else i + 1
  {
    OnesAfter(me, j, d);
  }

  lemma SiblingKept(me: Id, f: seq<Id>, p: seq<nat>, i: nat, j: nat, k: nat, d: nat)
    requires j < BITS && d < BITS && IsSibling(me, f, p, i, j) && k < |f| && i != k
    ensures IsSibling(me, CutFirsts(f, k, d), CutDepths(p, k, d + 1), if i < k then i else i + 1, j)
  {}

  // The half of our bucket that our own id is not in.
  lemma NewSibling(me: Id, f: seq<Id>, p: seq<nat>, d: nat)
    requires d < BITS && IsTree(me, f, p, d)
    ensures var k := Ones(me, d);
      IsSibling(me, CutFirsts(f, k, d), CutDepths(p, k, d + 1), if Bit(me, d) then k else k + 1, d)
  {
    hide Bit;
    var k := Ones(me, d);
    assert AlignedAt(f, k, d);
    MiddleAgrees(f[k], d);
  }

  // For each j < d exactly one bucket, at SiblingIndex, holds exactly the ids
  // whose common prefix with ours has length j.
  lemma SiblingBucketHolds(me: Id, d: nat, j: nat, x: Id)
    requires j < d <= BITS
    ensures InRange(Firsts(me, d), SiblingIndex(me, d, j), x) <==> CommonBits(x, me) == j
  {
    hide Firsts, Depths, SiblingIndex, InRange, Ones;
    TreeIsAligned(me, d);
    SiblingShape(me, d, j);
    var f, p, i := Firsts(me, d), Depths(me, d), SiblingIndex(me, d, j);
    assert AlignedAt(f, i, p[i]);
    var n := CommonBits(x, me);
    if Agree(x, f[i], j + 1) {
      CommonBitsUnique(x, me, j);
    } else if n == j {
      assert Bit(x, j) == Bit(f[i], j);
      AgreeLike(x, me, f[i], j);
    }
  }

  // ----- the depth of a bucket from the lowest bits of its bounds -----

  // MAX(lowbit(first), lowbit(next->first)), with -1 for a missing next bucket.
  ghost function BoundaryBit(f: seq<Id>, i: nat): int
    requires i < |f|
  {
    var b1, b2 := LowBit(f[i]), if i + 1 < |f| then LowBit(f[i + 1]) else -1;
    if b1 >= b2 then b1 else b2
  }

  lemma LowBitOfMiddle(a: Id, d: nat)
    requires d < BITS && ZeroFrom(a, d)
    ensures LowBit(SetBit(a, d)) == d && LowBit(a) < d
  {
    SetBitBits(a, d);
    LowBitUnique(SetBit(a, d), d);
  }

  lemma {:induction false} BoundaryBitIsDepth(me: Id, d: nat, i: nat)
    requires d <= BITS && i <= d
    ensures BoundaryBit(Firsts(me, d), i) + 1 == Depths(me, d)[i]
  {
    hide *;
    if d == 0 {
      BoundaryBitOfOne(me);
    } else {
      var f, p, k := Firsts(me, d - 1), Depths(me, d - 1), Ones(me, d - 1);
      TreeStep(me, d - 1);
      OwnFirst(me, d - 1);
      BoundaryBitIsDepth(me, d - 1, k);
      BoundaryBitIsDepth(me, d - 1, if i <= k then i else i - 1);
      CutBoundaryBit(f, p, k, d - 1, i);
    }
  }

  lemma BoundaryBitOfOne(me: Id)
    ensures BoundaryBit(Firsts(me, 0), 0) + 1 == Depths(me, 0)[0]
  {
    forall k: nat | k < BITS ensures !Bit(ZERO, k) { ZeroBits(k); }
    LowBitUnique(ZERO, -1);
    hide LowBit;
  }

  lemma CutBoundaryBit(f: seq<Id>, p: seq<nat>, k: nat, d: nat, i: nat)
    requires k < |f| == |p| && d < BITS && p[k] == d && ZeroFrom(f[k], d) && i <= |f|
    requires BoundaryBit(f, k) + 1 == d
    requires var j := if i <= k then i else i - 1; BoundaryBit(f, j) + 1 == p[j]
    ensures BoundaryBit(CutFirsts(f, k, d), i) + 1 == CutDepths(p, k, d + 1)[i]
  {
    LowBitOfMiddle(f[k], d);
    hide LowBit;
  }

  // ----- the buckets as numeric intervals -----

  ghost function Pow2(n: nat): nat
  {
    if n == 0 then 1 else 2 * Pow2(n - 1)
  }

  // Setting bit d adds 2^(159 - d).
  lemma {:induction false} SetBitAdds(a: Id, d: nat, n: nat)
    requires d < n <= BITS && !Bit(a, d)
    ensures ValTo(SetBit(a, d), n) == ValTo(a, n) + Pow2(n - 1 - d)
  {
    SetBitBits(a, d);
    if n == d + 1 {
      ValAgree(SetBit(a, d), a, d);
    } else {
      SetBitAdds(a, d, n - 1);
    }
  }

  // Consecutive intervals of 2^(160 - p) ids each, from 0 up to 2^160.
  ghost predicate Partition(f: seq<Id>, p: seq<nat>)
  {
    && 0 < |f| == |p| && Val(f[0]) == 0
    && forall i: nat | i < |f| :: p[i] <= BITS &&
         Val(f[i]) + Pow2(BITS - p[i]) == if i + 1 < |f| then Val(f[i + 1]) else Pow2(BITS)
  }

  lemma {:induction false} ValOfZero(n: nat)
    requires n <= BITS
    ensures ValTo(ZERO, n) == 0
  {
    hide Bit;
    if n > 0 {
      ZeroBits(n - 1);
      ValOfZero(n - 1);
    }
  }

  lemma OneBucket(me: Id)
    ensures Partition(Firsts(me, 0), Depths(me, 0))
  {
    ValOfZero(BITS);
    hide ValTo, Pow2;
  }

  lemma {:induction false} TreePartitions(me: Id, d: nat)
    requires d <= BITS
    ensures Partition(Firsts(me, d), Depths(me, d))
  {
    hide CutFirsts, CutDepths, Firsts, Depths, Ones, ValTo, Val, Bit, ZeroFrom, Pow2, Partition, Agree;
    if d == 0 {
      OneBucket(me);
    } else {
      TreePartitions(me, d - 1);
      OwnFirst(me, d - 1);
      TreeStep(me, d - 1);
      CutPartitions(Firsts(me, d - 1), Depths(me, d - 1), Ones(me, d - 1), d - 1);
    }
  }

  lemma CutPartitions(f: seq<Id>, p: seq<nat>, k: nat, d: nat)
    requires Partition(f, p) && k < |f| && d < BITS && p[k] == d && ZeroFrom(f[k], d)
    ensures Partition(CutFirsts(f, k, d), CutDepths(p, k, d + 1))
  {
    HalfInterval(f[k], d);
    hide Bit, ValTo, Val, Pow2, SetBit;
  }

  lemma HalfInterval(a: Id, d: nat)
    requires d < BITS && ZeroFrom(a, d)
    ensures Val(SetBit(a, d)) == Val(a) + Pow2(BITS - (d + 1))
    ensures Pow2(BITS - d) == 2 * Pow2(BITS - (d + 1))
  {
    SetBitAdds(a, d, BITS);
    hide Bit, ValTo;
  }

  // ----- every id is in exactly one bucket -----

  ghost predicate SortedFirsts(f: seq<Id>)
  {
    && |f| > 0 && Val(f[0]) == 0
    && forall i: nat, j: nat | i < j < |f| :: Val(f[i]) < Val(f[j])
  }

  lemma Pow2Positive(n: nat)
    ensures Pow2(n) > 0
  {}

  lemma {:induction false} PartitionOrder(f: seq<Id>, p: seq<nat>, i: nat, j: nat)
    requires Partition(f, p) && i < j < |f|
    ensures Val(f[i]) < Val(f[j])
  {
    hide Pow2, Val;
    Pow2Positive(BITS - p[j - 1]);
    assert Val(f[j - 1]) < Val(f[j]);
    if i < j - 1 {
      PartitionOrder(f, p, i, j - 1);
    }
  }

  lemma TreeIsSorted(me: Id, d: nat)
    requires d <= BITS
    ensures SortedFirsts(Firsts(me, d))
  {
    hide *;
    TreePartitions(me, d);
    PartitionIsSorted(Firsts(me, d), Depths(me, d));
  }

  lemma PartitionIsSorted(f: seq<Id>, p: seq<nat>)
    requires Partition(f, p)
    ensures SortedFirsts(f)
  {
    forall i: nat, j: nat | i < j < |f| ensures Val(f[i]) < Val(f[j]) {
      PartitionOrder(f, p, i, j);
    }
  }

  lemma RangesDisjoint(f: seq<Id>, i: nat, j: nat, x: Id)
    requires SortedFirsts(f) && i < |f| && j < |f| && InRange(f, i, x) && InRange(f, j, x)
    ensures i == j
  {
    hide IdCmp, Val;
    if i < j {
      IdCmpIsNumericOrder(x, f[i + 1]);
      IdCmpIsNumericOrder(f[j], x);
    } else if j < i {
      IdCmpIsNumericOrder(x, f[j + 1]);
      IdCmpIsNumericOrder(f[i], x);
    }
  }

  // The ids of an interval, as numbers.
  lemma RangeIsInterval(f: seq<Id>, p: seq<nat>, i: nat, x: Id)
    requires Partition(f, p) && i < |f|
    ensures InRange(f, i, x) <==> Val(f[i]) <= Val(x) < Val(f[i]) + Pow2(BITS - p[i])
  {
    hide IdCmp, Val, Pow2;
    IdCmpIsNumericOrder(f[i], x);
    if i + 1 < |f| {
      IdCmpIsNumericOrder(x, f[i + 1]);
    } else {
      ValBelow(x, BITS);
    }
  }

  lemma {:induction false} ValBelow(x: Id, n: nat)
    requires n <= BITS
    ensures ValTo(x, n) < Pow2(n)
    ensures n == BITS ==> Val(x) < Pow2(n)
  {
    if n > 0 {
      ValBelow(x, n - 1);
    }
  }

  // ----- how many ids a bucket can hold -----


  lemma {:induction false} IntervalCard(a: int, n: nat, s: set<int>)
    requires forall v | v in s :: a <= v < a + n
    ensures |s| <= n
  {
    if n == 0 {
      assert forall v :: v !in s;
    } else {
      IntervalCard(a, n - 1, s - {a + n - 1});
    }
  }

  lemma {:induction false} DistinctCard(s: seq<int>)
    requires Distinct(s)
    ensures |set v | v in s| == |s|
  {
    if s != [] {
      var n := |s| - 1;
      DistinctCard(s[..n]);
      assert (set v | v in s) == (set v | v in s[..n]) + {s[n]} by {
        assert s == s[..n] + [s[n]];
      }
    }
  }

  // n distinct ids with a common prefix of d bits need 2^(160 - d) >= n.
  lemma PrefixPigeonhole(f: seq<Id>, p: seq<nat>, i: nat, ids: seq<Id>)
    requires Partition(f, p) && i < |f| && Distinct(ids)
    requires forall x | x in ids :: InRange(f, i, x)
    ensures |ids| <= Pow2(BITS - p[i])
  {
    hide Val, Pow2, InRange;
    var vals := seq(|ids|, j requires 0 <= j < |ids| => Val(ids[j]));
    forall j: nat, k: nat | j < k < |ids| ensures vals[j] != vals[k] {
      IdCmpIsNumericOrder(ids[j], ids[k]);
    }
    DistinctCard(vals);
    var s := set v | v in vals;
    forall v | v in s ensures Val(f[i]) <= v < Val(f[i]) + Pow2(BITS - p[i]) {
      var j :| 0 <= j < |vals| && v == vals[j];
      RangeIsInterval(f, p, i, ids[j]);
    }
    IntervalCard(Val(f[i]), Pow2(BITS - p[i]), s);
  }

  // Ten ids in our own bucket leave at least four bits to split on.
  lemma CrowdedBucketIsShallow(me: Id, d: nat, ids: seq<Id>)
    requires d <= BITS && Distinct(ids) && |ids| >= 10
    requires forall x | x in ids :: InRange(Firsts(me, d), Ones(me, d), x)
    ensures d <= 156
  {
    hide Ones, Firsts, Depths, InRange, Val;
    TreePartitions(me, d);
    OwnFirst(me, d);
    PrefixPigeonhole(Firsts(me, d), Depths(me, d), Ones(me, d), ids);
    if d > 156 {
      SmallPowers(BITS - d);
    }
  }

  lemma SmallPowers(n: nat)
    requires n < 4
    ensures Pow2(n) < 10
  {
    assert Pow2(0) == 1 && Pow2(1) == 2 && Pow2(2) == 4 && Pow2(3) == 8;
  }

  // ----- the middle of a bucket -----

  // bucket_middle's id cuts the bucket's interval exactly in half.
  lemma MiddleIsMidpoint(f: seq<Id>, p: seq<nat>, i: nat)
    requires Partition(f, p) && Aligned(f, p) && i < |f| && p[i] < BITS
    ensures Val(SetBit(f[i], p[i])) - Val(f[i]) == Pow2(BITS - p[i]) - Pow2(BITS - p[i] - 1)
    ensures Pow2(BITS - p[i]) == 2 * Pow2(BITS - p[i] - 1)
  {
    assert AlignedAt(f, i, p[i]);
    SetBitAdds(f[i], p[i], BITS);
    hide InRange;
  }
}
