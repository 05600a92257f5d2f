/** The Bloom filter of bloom.c: a bit array in which every added string sets one bit
    for each hash function. */
module Bloom {
  import opened Ids

  type Digest = s: seq<Octet> | |s| == 20 witness
    [0, 0, 0, 0, 0, 0, 0, 0, 0, 0, 0, 0, 0, 0, 0, 0, 0, 0, 0, 0]
  type HashFunc = Digest -> nat

  // 1 << (n % 8)
  function BitMask(n: nat): Byte
  {
    Mask(7 - n % 8)
  }

  // Not used in any proof: ties the mask to the shift of the macros.
  lemma BitMaskIsShift(n: nat)
    ensures BitMask(n) == 1 as bv8 << (n % 8)
  {
    var j := n % 8;
    if j == 0 {} else if j == 1 {} else if j == 2 {} else if j == 3 {}
    else if j == 4 {} else if j == 5 {} else if j == 6 {} else {}
  }

  // The bit that hash function k sets for s
  function Position(funcs: seq<HashFunc>, size: nat, s: Digest, k: nat): (n: nat)
    requires size > 0 && k < |funcs|
    ensures n < size
  {
    funcs[k](s) % size
  }

  ghost function Positions(funcs: seq<HashFunc>, size: nat, s: Digest): set<nat>
    requires size > 0
  {
    set k: nat | k < |funcs| :: Position(funcs, size, s, k)
  }

  class Filter {
    const asize: nat
    const funcs: seq<HashFunc>
    const a: array<Byte>
    ghost var added: set<Digest>

    // GETBIT
    predicate Get(n: nat)
      requires n / 8 < a.Length
      reads a
    {
      a[n / 8] & BitMask(n) != 0
    }

    predicate Sized()
    {
      asize > 0 && a.Length == (asize + 7) / 8
    }

    ghost function Bits(): (b: set<nat>)
      requires Sized()
      reads a
    {
      set n: nat | n < asize && Get(n)
    }

    // No added string is ever forgotten.
    ghost predicate Valid()
      reads this, a
    {
      Sized() && forall s | s in added :: Positions(funcs, asize, s) <= Bits()
    }

    // bloom_create
    constructor (size: nat, fs: seq<HashFunc>)
      requires size > 0
      ensures Valid() && added == {} && fresh(a) && asize == size && funcs == fs
      ensures Bits() == {}
    {
      asize, funcs, added := size, fs, {};
      a := new Byte[(size + 7) / 8](_ => 0);
    }

    // SETBIT
    method Set(n: nat)
      requires n / 8 < a.Length
      modifies a
      ensures forall m: nat | m / 8 < a.Length :: Get(m) <==> m == n || old(Get(m))
    {
      a[n / 8] := a[n / 8] | BitMask(n);
      forall m: nat | m / 8 < a.Length ensures Get(m) <==> m == n || old(Get(m)) {
        if m / 8 == n / 8 {
          ByteSetBit(old(a[n / 8]), 7 - n % 8, 7 - m % 8);
        }
      }
    }

    // bloom_add
    method Add(s: Digest)
      requires Valid()
      modifies a, this`added
      ensures Valid() && added == old(added) + {s}
      ensures Bits() == old(Bits()) + Positions(funcs, asize, s)
    {
      hide Get, Position;
      var n := 0;
      while n < |funcs|
        invariant n <= |funcs|
        invariant forall m: nat | m < asize ::
          Get(m) <==> old(Get(m)) || exists k: nat :: k < n && m == Position(funcs, asize, s, k)
        modifies a
      {
        Set(Position(funcs, asize, s, n));
        n := n + 1;
      }
      assert Bits() == old(Bits()) + Positions(funcs, asize, s);
      added := added + {s};
    }

    // bloom_check: yes for every string ever added, and for one that was not added
    // only if all its bits happen to be set.
    method Check(s: Digest) returns (r: bool)
      requires Valid()
      ensures r <==> Positions(funcs, asize, s) <= Bits()
      ensures s in added ==> r
    {
      hide Get, Position;
      var n := 0;
      while n < |funcs|
        invariant n <= |funcs|
        invariant forall k: nat | k < n :: Get(Position(funcs, asize, s, k))
      {
        if !Get(Position(funcs, asize, s, n)) {
          assert Position(funcs, asize, s, n) in Positions(funcs, asize, s);
          return false;
        }
        n := n + 1;
      }
      r := true;
    }
  }
}
