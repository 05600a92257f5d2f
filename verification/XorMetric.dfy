/** The XOR metric: xorcmp as an order on numbers, and what it means for a list of
    bounded length to hold the closest ids. */
module XorMetric {
  import opened Ids

  // The exclusive or of the first n bytes.
  ghost function XorTo(a: Id, b: Id, n: nat): (r: seq<Byte>)
    requires n <= 20
    ensures |r| == n && forall i | 0 <= i < n :: r[i] == a[i] ^ b[i]
  {
    if n == 0 then [] else XorTo(a, b, n - 1) + [a[n - 1] ^ b[n - 1]]
  }

  // How far id is from ref: (id XOR ref) read as a 160-bit number.
  ghost function Distance(id: Id, ref: Id): nat
  {
    Val(XorTo(id, ref, 20))
  }

  lemma XorCancels(x: Byte, y: Byte, r: Byte)
    ensures x ^ r == y ^ r <==> x == y
  {}

  lemma {:induction false} XorToAgrees(a: Id, b: Id, ref: Id, n: nat, i: nat)
    requires i <= n <= 20 && a[..i] == b[..i]
    ensures XorTo(a, ref, n)[..i] == XorTo(b, ref, n)[..i]
  {
    forall j | 0 <= j < i ensures XorTo(a, ref, n)[j] == XorTo(b, ref, n)[j] {
      assert a[..i][j] == b[..i][j];
    }
  }

  // Different ids are at different distances.
  lemma DistanceInjective(a: Id, b: Id, ref: Id)
    ensures Distance(a, ref) == Distance(b, ref) <==> a == b
  {
    hide XorTo, Val;
    var x, y := XorTo(a, ref, 20), XorTo(b, ref, 20);
    IdCmpIsNumericOrder(x, y);
    if x == y {
      forall i | 0 <= i < 20 ensures a[i] == b[i] {
        assert x[i] == y[i];
        XorCancels(a[i], b[i], ref[i]);
      }
      assert a == b;
    }
  }

  lemma XorLess(id1: Id, id2: Id, ref: Id, i: nat)
    requires i < 20 && id1[..i] == id2[..i] && id1[i] ^ ref[i] < id2[i] ^ ref[i]
    ensures Distance(id1, ref) < Distance(id2, ref)
  {
    hide XorTo, Val;
    XorToAgrees(id1, id2, ref, 20, i);
    FirstDifferingByte(XorTo(id1, ref, 20), XorTo(id2, ref, 20), i);
  }

  // xorcmp: is id1 or id2 closer to ref?
  method XorCmp(id1: Id, id2: Id, ref: Id) returns (r: int)
    ensures r < 0 <==> Distance(id1, ref) < Distance(id2, ref)
    ensures r > 0 <==> Distance(id1, ref) > Distance(id2, ref)
    ensures r == 0 <==> id1 == id2
  {
    hide XorTo, Val;
    DistanceInjective(id1, id2, ref);
    var i := 0;
    while i < 20
      invariant 0 <= i <= 20
      invariant id1[..i] == id2[..i]
    {
      if id1[i] == id2[i] {
        i := i + 1;
        continue;
      }
      XorCancels(id1[i], id2[i], ref[i]);
      if id1[i] ^ ref[i] < id2[i] ^ ref[i] {
        XorLess(id1, id2, ref, i);
        return -1;
      } else {
        XorLess(id2, id1, ref, i);
        return 1;
      }
    }
    assert id1 == id1[..20] == id2[..20] == id2;
    return 0;
  }

  // ----- sorted lists of ids -----

  ghost predicate SortedBy(ids: seq<Id>, ref: Id)
  {
    forall i: nat, j: nat | i < j < |ids| :: Distance(ids[i], ref) < Distance(ids[j], ref)
  }

  // x belongs at position i: everything before it is closer, everything after farther.
  ghost predicate BelongsAt(ids: seq<Id>, x: Id, ref: Id, i: nat)
  {
    && i <= |ids|
    && (forall j: nat | j < i :: Distance(ids[j], ref) < Distance(x, ref))
    && (forall j: nat | i <= j < |ids| :: Distance(x, ref) < Distance(ids[j], ref))
  }

  // The first position whose id is id itself or farther from ref.
  ghost function Place(ids: seq<Id>, id: Id, ref: Id): (i: nat)
    ensures i <= |ids|
    ensures forall j: nat | j < i :: ids[j] != id && Distance(ids[j], ref) <= Distance(id, ref)
    ensures i < |ids| ==> ids[i] == id || Distance(id, ref) < Distance(ids[i], ref)
  {
    if ids == [] then 0
    else if ids[0] == id || Distance(id, ref) < Distance(ids[0], ref) then 0
    else 1 + Place(ids[1..], id, ref)
  }

  lemma PlaceUnique(ids: seq<Id>, id: Id, ref: Id, i: nat)
    requires i <= |ids|
    requires forall j: nat | j < i :: ids[j] != id && Distance(ids[j], ref) <= Distance(id, ref)
    requires i < |ids| ==> ids[i] == id || Distance(id, ref) < Distance(ids[i], ref)
    ensures Place(ids, id, ref) == i
  {
    hide Distance;
  }

  // In a sorted list an id that is listed is found, and a new one belongs at its place.
  lemma PlaceInSorted(ids: seq<Id>, id: Id, ref: Id)
    requires SortedBy(ids, ref)
    ensures var i := Place(ids, id, ref);
      if id in ids then i < |ids| && ids[i] == id
      else (i < |ids| ==> ids[i] != id) && BelongsAt(ids, id, ref, i)
  {
    hide Distance;
    var i := Place(ids, id, ref);
    if id in ids {
      var k: nat :| k < |ids| && ids[k] == id;
    } else {
      forall j: nat | j < i ensures Distance(ids[j], ref) < Distance(id, ref) {
        DistanceInjective(ids[j], id, ref);
      }
    }
  }

  // Insertion at position i of a list that keeps at most cap entries.
  function InsertAt<T>(s: seq<T>, i: nat, x: T, cap: nat): (r: seq<T>)
    requires i <= |s| <= cap && i < cap
    ensures |r| == if |s| < cap then |s| + 1 else cap
    ensures forall j: nat {:trigger r[j]} | j < |r| :: r[j] == if j < i then s[j] else if j == i then x else s[j - 1]
  {
    var t := s[..i] + [x] + s[i..];
    if |s| < cap then t else t[..cap]
  }

  // ids are the cap closest of the ids offered, in order of distance.
  ghost predicate Closest(ids: seq<Id>, offered: set<Id>, ref: Id, cap: nat)
  {
    && SortedBy(ids, ref)
    && |ids| <= cap
    && (forall x | x in ids :: x in offered)
    && (forall x | x in offered && x !in ids ::
          |ids| == cap && forall y | y in ids :: Distance(y, ref) < Distance(x, ref))
  }

  lemma ClosestIsSorted(ids: seq<Id>, offered: set<Id>, ref: Id, cap: nat)
    requires Closest(ids, offered, ref, cap)
    ensures SortedBy(ids, ref)
  {}

  // Offering an id that is already listed, or too far, or is inserted.
  lemma OfferListed(ids: seq<Id>, offered: set<Id>, ref: Id, cap: nat, x: Id)
    requires Closest(ids, offered, ref, cap) && x in ids
    ensures Closest(ids, offered + {x}, ref, cap)
  {}

  lemma OfferTooFar(ids: seq<Id>, offered: set<Id>, ref: Id, cap: nat, x: Id)
    requires Closest(ids, offered, ref, cap) && |ids| == cap && BelongsAt(ids, x, ref, cap)
    ensures Closest(ids, offered + {x}, ref, cap)
  {
    hide Distance;
    forall y | y in ids ensures Distance(y, ref) < Distance(x, ref) {
      var j: nat :| j < |ids| && ids[j] == y;
    }
  }

  lemma InsertAtKeepsSorted(ids: seq<Id>, ref: Id, cap: nat, x: Id, i: nat)
    requires SortedBy(ids, ref) && |ids| <= cap && BelongsAt(ids, x, ref, i) && i < cap
    ensures SortedBy(InsertAt(ids, i, x, cap), ref)
  {
    hide Distance;
  }

  lemma OfferInserted(ids: seq<Id>, offered: set<Id>, ref: Id, cap: nat, x: Id, i: nat)
    requires Closest(ids, offered, ref, cap) && BelongsAt(ids, x, ref, i) && i < cap
    ensures Closest(InsertAt(ids, i, x, cap), offered + {x}, ref, cap)
  {
    hide Distance;
    var r := InsertAt(ids, i, x, cap);
    InsertAtKeepsSorted(ids, ref, cap, x, i);
    forall y | y in r ensures y in offered + {x} {
      var j: nat :| j < |r| && r[j] == y;
      if j != i {
        assert r[j] in ids;
      }
    }
    forall y | y in offered + {x} && y !in r
      ensures |r| == cap && forall z | z in r :: Distance(z, ref) < Distance(y, ref)
    {
      assert r[i] == x;
      Displaced(ids, offered, ref, cap, x, i, y);
    }
  }

  // What is offered and not listed after an insertion is farther than all that is.
  lemma Displaced(ids: seq<Id>, offered: set<Id>, ref: Id, cap: nat, x: Id, i: nat, y: Id)
    requires Closest(ids, offered, ref, cap) && BelongsAt(ids, x, ref, i) && i < cap
    requires y in offered && y !in InsertAt(ids, i, x, cap)
    ensures |ids| == cap
    ensures forall z | z in InsertAt(ids, i, x, cap) :: Distance(z, ref) < Distance(y, ref)
  {
    hide Distance;
    var r := InsertAt(ids, i, x, cap);
    var last := |ids| - 1;
    forall j: nat | j < |ids| && (|ids| < cap || j < last) ensures ids[j] in r {
      assert r[if j < i then j else j + 1] == ids[j];
    }
    if y !in ids {
      assert ids[last] in ids;
    }
    forall z | z in r ensures Distance(z, ref) < Distance(y, ref) {
      var k: nat :| k < |r| && r[k] == z;
      if k != i {
        assert z == ids[if k < i then k else k - 1];
      }
    }
  }

  // The closest ids are determined by what was offered.
  lemma ClosestUnique(a: seq<Id>, b: seq<Id>, offered: set<Id>, ref: Id, cap: nat)
    requires Closest(a, offered, ref, cap) && Closest(b, offered, ref, cap)
    ensures a == b
  {
    hide Distance;
    NothingMissing(a, b, offered, ref, cap);
    NothingMissing(b, a, offered, ref, cap);
    SameMembersSameList(a, b, ref);
  }

  lemma NothingMissing(a: seq<Id>, b: seq<Id>, offered: set<Id>, ref: Id, cap: nat)
    requires Closest(a, offered, ref, cap) && Closest(b, offered, ref, cap)
    ensures forall x | x in a :: x in b
  {
    hide Distance;
    forall x | x in a ensures x in b {
      if x !in b {
        SomeOther(a, b, x);
        assert false;
      }
    }
  }

  lemma {:induction false} SameMembersSameList(a: seq<Id>, b: seq<Id>, ref: Id)
    requires SortedBy(a, ref) && SortedBy(b, ref) && forall x :: x in a <==> x in b
    ensures a == b
  {
    hide Distance;
    if b == [] {
      assert forall i | 0 <= i < |a| :: a[i] in b;
    } else {
      assert b[0] in a && a != [];
      var m, n := |a| - 1, |b| - 1;
      LastIsSame(a, b, ref);
      forall x ensures x in a[..m] <==> x in b[..n] {
        MemberBeforeLast(a, ref, x);
        MemberBeforeLast(b, ref, x);
      }
      SameMembersSameList(a[..m], b[..n], ref);
      assert a == a[..m] + [a[m]] && b == b[..n] + [b[n]];
    }
  }

  lemma LastIsSame(a: seq<Id>, b: seq<Id>, ref: Id)
    requires SortedBy(a, ref) && SortedBy(b, ref) && a != [] && b != []
    requires forall x :: x in a <==> x in b
    ensures a[|a| - 1] == b[|b| - 1]
  {
    hide Distance;
    var m, n := |a| - 1, |b| - 1;
    assert a[m] in b && b[n] in a;
    var i: nat :| i < |a| && a[i] == b[n];
    var j: nat :| j < |b| && b[j] == a[m];
  }

  lemma MemberBeforeLast(a: seq<Id>, ref: Id, x: Id)
    requires SortedBy(a, ref) && a != []
    ensures x in a[..|a| - 1] <==> x in a && x != a[|a| - 1]
  {
    hide Distance;
    var m := |a| - 1;
    assert a == a[..m] + [a[m]];
    assert forall j: nat | j < m :: a[..m][j] == a[j] && Distance(a[j], ref) < Distance(a[m], ref);
    assert a[m] !in a[..m];
  }

  // A list that lacks an element of a list no longer than itself has one of its own.
  lemma SomeOther(a: seq<Id>, b: seq<Id>, x: Id)
    requires |a| <= |b| && x in a && x !in b
    requires forall i: nat, j: nat | i < j < |b| :: b[i] != b[j]
    ensures exists y :: y in b && y !in a
  {
    var sa, sb := set y | y in a, set y | y in b;
    SetOfDistinct(b);
    SetOfList(a);
    if forall y | y in b :: y in a {
      assert sb <= sa - {x};
      SubsetSize(sb, sa - {x});
      assert false;
    }
  }

  lemma SubsetSize(s: set<Id>, t: set<Id>)
    requires s <= t
    ensures |s| <= |t|
  {
    assert t == s + (t - s);
  }

  lemma {:induction false} SetOfDistinct(b: seq<Id>)
    requires forall i: nat, j: nat | i < j < |b| :: b[i] != b[j]
    ensures |set y | y in b| == |b|
  {
    if b != [] {
      var n := |b| - 1;
      SetOfDistinct(b[..n]);
      assert (set y | y in b) == (set y | y in b[..n]) + {b[n]} by {
        assert b == b[..n] + [b[n]];
      }
    }
  }

  lemma {:induction false} SetOfList(a: seq<Id>)
    ensures |set y | y in a| <= |a|
  {
    if a != [] {
      var n := |a| - 1;
      SetOfList(a[..n]);
      assert (set y | y in a) == (set y | y in a[..n]) + {a[n]} by {
        assert a == a[..n] + [a[n]];
      }
    }
  }
}
