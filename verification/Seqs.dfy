/** Small vocabulary on sequences shared by the other modules. */
module Seqs {
  datatype Option<+T> = None | Some(value: T)

  ghost predicate Distinct<T>(s: seq<T>)
  {
    forall i: nat, j: nat | i < j < |s| :: s[i] != s[j]
  }

  // The index of the first element that satisfies p, or |s|.
  function FirstWhere<T>(s: seq<T>, p: T -> bool): (k: nat)
    ensures k <= |s| && (k < |s| ==> p(s[k]))
    ensures forall j: nat | j < k :: !p(s[j])
  {
    if s == [] then 0 else if p(s[0]) then 0 else
      var k := FirstWhere(s[1..], p);
      assert forall j: nat | 0 < j < k + 1 :: s[j] == s[1..][j - 1];
      k + 1
  }

  lemma FirstWhereUnique<T>(s: seq<T>, p: T -> bool, k: nat)
    requires k <= |s| && (k < |s| ==> p(s[k]))
    requires forall j: nat | j < k :: !p(s[j])
    ensures FirstWhere(s, p) == k
  {}

  // The elements that satisfy p, in order.
  function Filter<T>(s: seq<T>, p: T -> bool): (r: seq<T>)
    ensures |r| <= |s|
  {
    if s == [] then [] else (if p(s[0]) then [s[0]] else []) + Filter(s[1..], p)
  }

  lemma {:induction false} FilterMembers<T>(s: seq<T>, p: T -> bool, x: T)
    ensures x in Filter(s, p) <==> x in s && p(x)
  {
    if s != [] {
      FilterMembers(s[1..], p, x);
      assert s == [s[0]] + s[1..];
    }
  }

  // Taking out an element that does not satisfy p changes nothing.
  lemma {:induction false} FilterRemove<T>(s: seq<T>, k: nat, p: T -> bool)
    requires k < |s| && !p(s[k])
    ensures Filter(s[..k] + s[k + 1..], p) == Filter(s, p)
  {
    if k == 0 {
      assert s[..k] + s[k + 1..] == s[1..];
    } else {
      FilterRemove(s[1..], k - 1, p);
      assert (s[..k] + s[k + 1..])[1..] == s[1..][..k - 1] + s[1..][k..];
    }
  }

  lemma {:induction false} FilterAll<T>(s: seq<T>, p: T -> bool)
    requires forall i | 0 <= i < |s| :: p(s[i])
    ensures Filter(s, p) == s
  {
    if s != [] {
      FilterAll(s[1..], p);
    }
  }

  // Filtering drops nothing exactly when nothing fails.
  lemma {:induction false} FilterFull<T>(s: seq<T>, p: T -> bool)
    ensures |Filter(s, p)| == |s| <==> Filter(s, p) == s
  {
    if s != [] {
      FilterFull(s[1..], p);
    }
  }

  lemma {:induction false} FilterNext<T>(s: seq<T>, c: nat, f: T -> bool)
    requires c < |s|
    ensures Filter(s[..c + 1], f) == Filter(s[..c], f) + if f(s[c]) then [s[c]] else []
  {
    hide Filter;
    FilterStep(s[..c + 1], f);
    if c == 0 {
      assert s[..1][1..] == [] && s[..0] == [];
      FilterNone(f);
    } else {
      FilterStep(s[..c], f);
      FilterNext(s[1..], c - 1, f);
      assert s[..c + 1][1..] == s[1..][..c] && s[..c][1..] == s[1..][..c - 1];
    }
  }

  // Filtering a beginning gives a beginning.
  lemma {:induction false} FilterPrefix<T>(s: seq<T>, c: nat, f: T -> bool)
    requires c <= |s|
    ensures
      var r := Filter(s[..c], f);
      |r| <= |Filter(s, f)| && Filter(s, f)[..|r|] == r && (c == |s| ==> r == Filter(s, f))
  {
    if c == 0 {
      assert s[..0] == [];
    } else {
      FilterPrefix(s[1..], c - 1, f);
      assert s[..c][1..] == s[1..][..c - 1];
      assert c == |s| ==> s[..c] == s;
    }
  }

  lemma {:induction false} FilterSplit<T>(a: seq<T>, b: seq<T>, f: T -> bool)
    ensures Filter(a + b, f) == Filter(a, f) + Filter(b, f)
  {
    hide Filter;
    if a == [] {
      assert a + b == b;
      FilterNone(f);
    } else {
      assert (a + b)[1..] == a[1..] + b;
      FilterStep(a + b, f);
      FilterStep(a, f);
      FilterSplit(a[1..], b, f);
    }
  }

  lemma FilterNone<T>(f: T -> bool)
    ensures Filter<T>([], f) == []
  {}

  lemma FilterStep<T>(s: seq<T>, f: T -> bool)
    requires s != []
    ensures Filter(s, f) == (if f(s[0]) then [s[0]] else []) + Filter(s[1..], f)
  {}
}
