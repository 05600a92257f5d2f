/** 160-bit node ids as 20 bytes, read most significant bit first.

    Bit 0 is the most significant one.  The numeric value of an id (Val) is the reference against which
    the byte loops of the id arithmetic are proved. */
module Ids {
  type Byte = bv8
  type Octet = x: int | 0 <= x < 256
  type Id = s: seq<Byte> | |s| == 20 witness seq(20, _ => 0 as bv8)

  const BITS: nat := 160
  const ZERO: Id := [0, 0, 0, 0, 0, 0, 0, 0, 0, 0, 0, 0, 0, 0, 0, 0, 0, 0, 0, 0]

  // ----- bits of a byte -----

  // 0x80 >> j (see MaskIsShift)
  function Mask(j: nat): Byte
    requires j < 8
  {
    if j == 0 then 0x80 else if j == 1 then 0x40 else if j == 2 then 0x20 else if j == 3 then 0x10
    else if j == 4 then 0x08 else if j == 5 then 0x04 else if j == 6 then 0x02 else 0x01
  }

  // Not used in any proof: ties the table to the shift of the source.
  lemma MaskIsShift(j: nat)
    requires j < 8
    ensures Mask(j) == 0x80 >> j
  {}

  predicate ByteBit(x: Byte, j: nat)
    requires j < 8
  {
    x & Mask(j) != 0
  }

  // The first bit in which two bytes differ decides their order.
  lemma ByteOrder(x: Byte, y: Byte) returns (j: nat)
    requires x < y
    ensures j < 8 && !ByteBit(x, j) && ByteBit(y, j)
    ensures forall i: nat | i < j :: ByteBit(x, i) == ByteBit(y, i)
  {
    hide Mask;
    j := 0;
    while j < 8 && x & Mask(j) == y & Mask(j)
      invariant j <= 8 && forall i: nat | i < j :: x & Mask(i) == y & Mask(i)
    {
      j := j + 1;
    }
    HigherBits(x, y, j);
    DecidedAt(x, y, j);
  }

  // The mask of the first j bits
  function HighBits(j: nat): Byte
    requires j <= 8
  {
    if j == 0 then 0 else if j == 1 then 0x80 else if j == 2 then 0xC0 else if j == 3 then 0xE0
    else if j == 4 then 0xF0 else if j == 5 then 0xF8 else if j == 6 then 0xFC else if j == 7 then 0xFE else 0xFF
  }

  lemma {:induction false} HigherBits(x: Byte, y: Byte, j: nat)
    requires j <= 8 && forall i: nat | i < j :: x & Mask(i) == y & Mask(i)
    ensures x & HighBits(j) == y & HighBits(j)
  {
    hide Mask, HighBits;
    if j > 0 {
      HigherBits(x, y, j - 1);
      OneBitMore(j - 1);
      JoinMasks(x, y, HighBits(j - 1), Mask(j - 1));
    } else {
      NoBits(x, y);
    }
  }

  lemma OneBitMore(j: nat)
    requires j < 8
    ensures HighBits(j + 1) == HighBits(j) | Mask(j)
  {}

  lemma NoBits(x: Byte, y: Byte)
    ensures x & HighBits(0) == y & HighBits(0)
  {}

  lemma JoinMasks(x: Byte, y: Byte, h: Byte, m: Byte)
    requires x & h == y & h && x & m == y & m
    ensures x & (h | m) == y & (h | m)
  {}

  lemma DecidedAt(x: Byte, y: Byte, j: nat)
    requires x < y && j <= 8 && x & HighBits(j) == y & HighBits(j) && (j < 8 ==> x & Mask(j) != y & Mask(j))
    ensures j < 8 && !ByteBit(x, j) && ByteBit(y, j)
  {
    if j == 0 {} else if j == 1 {} else if j == 2 {} else if j == 3 {} else if j == 4 {}
    else if j == 5 {} else if j == 6 {} else if j == 7 {} else {}
  }

  // A number below 256 survives as a byte.
  lemma ByteNumber(n: nat)
    requires n < 256
    ensures (n as bv8) as int == n
  {
    assert n % 256 == n && n / 256 == 0;
  }

  lemma ByteSetBit(x: Byte, j: nat, k: nat)
    requires j < 8 && k < 8
    ensures ByteBit(x | Mask(j), k) == (j == k || ByteBit(x, k))
  {}

  lemma ByteShift(x: Byte, k: nat)
    requires k < 7
    ensures ByteBit(x << 1, k) == ByteBit(x, k + 1)
  {}

  // ----- bits of an id -----

  predicate Bit(id: Id, k: nat)
    requires k < BITS
  {
    ByteBit(id[k / 8], k % 8)
  }

  ghost predicate Agree(a: Id, b: Id, n: nat)
    requires n <= BITS
  {
    forall k: nat | k < n :: Bit(a, k) == Bit(b, k)
  }

  ghost predicate ZeroFrom(a: Id, n: nat)
  {
    forall k: nat | n <= k < BITS :: !Bit(a, k)
  }

  function SetBit(a: Id, d: nat): Id
    requires d < BITS
  {
    a[d / 8 := a[d / 8] | Mask(d % 8)]
  }

  lemma SetBitBit(a: Id, d: nat, k: nat)
    requires d < BITS && k < BITS
    ensures Bit(SetBit(a, d), k) == (d == k || Bit(a, k))
  {
    if d / 8 == k / 8 {
      ByteSetBit(a[d / 8], d % 8, k % 8);
    }
  }

  lemma SetBitBits(a: Id, d: nat)
    requires d < BITS
    ensures forall k: nat | k < BITS :: Bit(SetBit(a, d), k) == (d == k || Bit(a, k))
  {
    forall k: nat | k < BITS
      ensures Bit(SetBit(a, d), k) == (d == k || Bit(a, k))
    {
      SetBitBit(a, d, k);
    }
  }

  lemma ZeroBits(k: nat)
    requires k < BITS
    ensures !Bit(ZERO, k)
  {
    assert ZERO[k / 8] == 0;
  }

  // ----- the number an id stands for -----

  // The number written by the first n bits.
  ghost function ValTo(a: Id, n: nat): nat
    requires n <= BITS
  {
    if n == 0 then 0 else 2 * ValTo(a, n - 1) + (if Bit(a, n - 1) then 1 else 0)
  }

  ghost function Val(a: Id): nat
  {
    ValTo(a, BITS)
  }

  lemma {:induction false} ValAgree(a: Id, b: Id, n: nat)
    requires n <= BITS && Agree(a, b, n)
    ensures ValTo(a, n) == ValTo(b, n)
  {
    if n > 0 {
      ValAgree(a, b, n - 1);
    }
  }

  // The first differing bit decides the numeric order.
  lemma {:induction false} ValOrder(a: Id, b: Id, k: nat, n: nat)
    requires k < n <= BITS && Agree(a, b, k) && !Bit(a, k) && Bit(b, k)
    ensures ValTo(a, n) < ValTo(b, n)
  {
    if n == k + 1 {
      ValAgree(a, b, k);
    } else {
      ValOrder(a, b, k, n - 1);
    }
  }

  // memcmp over 20 bytes: the first differing byte decides, bytes compare unsigned.
  function IdCmp(a: Id, b: Id): int
  {
    CmpFrom(a, b, 0)
  }

  function CmpFrom(a: Id, b: Id, i: nat): int
    requires i <= 20
    decreases 20 - i
  {
    if i == 20 then 0
    else if a[i] < b[i] then -1
    else if b[i] < a[i] then 1
    else CmpFrom(a, b, i + 1)
  }

  lemma FirstDifferingByte(a: Id, b: Id, i: nat)
    requires i < 20 && a[..i] == b[..i] && a[i] < b[i]
    ensures Val(a) < Val(b)
  {
    var j := ByteOrder(a[i], b[i]);
    forall k: nat | k < 8 * i + j
      ensures Bit(a, k) == Bit(b, k)
    {
      if k / 8 < i {
        assert a[..i][k / 8] == b[..i][k / 8];
      } else {
        assert k / 8 == i && k % 8 < j;
      }
    }
    assert (8 * i + j) / 8 == i && (8 * i + j) % 8 == j;
    ValOrder(a, b, 8 * i + j, BITS);
  }

  lemma {:induction false} CmpFromIsOrder(a: Id, b: Id, i: nat)
    requires i <= 20 && a[..i] == b[..i]
    ensures CmpFrom(a, b, i) < 0 <==> Val(a) < Val(b)
    ensures CmpFrom(a, b, i) > 0 <==> Val(a) > Val(b)
    ensures CmpFrom(a, b, i) == 0 <==> a == b
    decreases 20 - i
  {
    if i == 20 {
      assert a == a[..20] == b[..20] == b;
    } else if a[i] < b[i] {
      FirstDifferingByte(a, b, i);
    } else if b[i] < a[i] {
      FirstDifferingByte(b, a, i);
    } else {
      assert a[..i + 1] == a[..i] + [a[i]] == b[..i + 1];
      CmpFromIsOrder(a, b, i + 1);
    }
  }

  // id_cmp orders ids as the 160-bit numbers they stand for, and Val is injective.
  lemma IdCmpIsNumericOrder(a: Id, b: Id)
    ensures IdCmp(a, b) < 0 <==> Val(a) < Val(b)
    ensures IdCmp(a, b) > 0 <==> Val(a) > Val(b)
    ensures IdCmp(a, b) == 0 <==> a == b
    ensures Val(a) == Val(b) <==> a == b
  {
    CmpFromIsOrder(a, b, 0);
  }

  lemma AllBitsEqualIff(a: Id, b: Id)
    ensures Agree(a, b, BITS) <==> a == b
  {
    if Agree(a, b, BITS) {
      ValAgree(a, b, BITS);
      IdCmpIsNumericOrder(a, b);
    }
  }

  // ----- lowest set bit -----

  // The position of the last 1 bit among the first n, or -1.
  ghost function LowBitBelow(a: Id, n: nat): (r: int)
    requires n <= BITS
    ensures -1 <= r < n
    ensures r >= 0 ==> Bit(a, r)
    ensures forall k: nat | r < k < n :: !Bit(a, k)
  {
    if n == 0 then -1 else if Bit(a, n - 1) then n - 1 else LowBitBelow(a, n - 1)
  }

  ghost function LowBit(a: Id): int
  {
    LowBitBelow(a, BITS)
  }

  lemma LowBitUnique(a: Id, r: int)
    requires -1 <= r < BITS && (r >= 0 ==> Bit(a, r))
    requires forall k: nat | r < k < BITS :: !Bit(a, k)
    ensures LowBit(a) == r
  {}

  // lowbit: the last position that holds a 1, or -1 for the id 0.
  method FindLowBit(id: Id) returns (r: int)
    ensures r == LowBit(id)
  {
    var i := 19;
    while i >= 0 && id[i] == 0
      invariant -1 <= i < 20
      invariant forall m | i < m < 20 :: id[m] == 0
    {
      i := i - 1;
    }
    assert forall k: nat | 8 * (i + 1) <= k < BITS :: !Bit(id, k) by {
      forall k: nat | 8 * (i + 1) <= k < BITS
        ensures !Bit(id, k)
      {
        assert i < k / 8 < 20 && id[k / 8] == 0;
      }
    }
    if i < 0 {
      LowBitUnique(id, -1);
      return -1;
    }
    var j := LowBitOfByte(id[i]);
    r := 8 * i + j;
    assert r / 8 == i && r % 8 == j;
    forall k: nat | r < k < BITS
      ensures !Bit(id, k)
    {
      if k < 8 * (i + 1) {
        assert k / 8 == i && j < k % 8;
      }
    }
    LowBitUnique(id, r);
  }

  // The second loop of lowbit, over one non-zero byte.
  method LowBitOfByte(x: Byte) returns (j: nat)
    requires x != 0
    ensures j < 8 && ByteBit(x, j) && forall m: nat | j < m < 8 :: !ByteBit(x, m)
  {
    var i := 7;
    while i >= 0 && x & Mask(i) == 0
      invariant -1 <= i < 8
      invariant forall m: nat | i < m < 8 :: !ByteBit(x, m)
    {
      i := i - 1;
    }
    if i < 0 {
      NonZeroByteHasBit(x);
      assert false;
    }
    j := i;
  }

  lemma NonZeroByteHasBit(x: Byte)
    requires x != 0
    ensures exists m: nat | m < 8 :: ByteBit(x, m)
  {
    var j := ByteOrder(0, x);
  }

  // ----- common prefix -----

  ghost function CommonBits(a: Id, b: Id): (n: nat)
    ensures n <= BITS && Agree(a, b, n)
    ensures n < BITS ==> Bit(a, n) != Bit(b, n)
    ensures n == BITS <==> a == b
  {
    AllBitsEqualIff(a, b);
    CommonFrom(a, b, 0)
  }

  // The first position from k on at which the ids differ, or 160.
  ghost function CommonFrom(a: Id, b: Id, k: nat): (n: nat)
    requires k <= BITS && Agree(a, b, k)
    ensures k <= n <= BITS && Agree(a, b, n)
    ensures n < BITS ==> Bit(a, n) != Bit(b, n)
    decreases BITS - k
  {
    if k == BITS || Bit(a, k) != Bit(b, k) then k else CommonFrom(a, b, k + 1)
  }

  lemma CommonBitsUnique(a: Id, b: Id, n: nat)
    requires n < BITS && Agree(a, b, n) && Bit(a, n) != Bit(b, n)
    ensures CommonBits(a, b) == n
  {}

  // common_bits: the first position at which the ids differ, or 160.
  method FindCommonBits(id1: Id, id2: Id) returns (r: nat)
    ensures r == CommonBits(id1, id2)
  {
    var i := 0;
    while i < 20 && id1[i] == id2[i]
      invariant 0 <= i <= 20
      invariant id1[..i] == id2[..i]
    {
      i := i + 1;
    }
    if i == 20 {
      assert id1 == id1[..20] == id2[..20] == id2;
      return 160;
    }
    XorZero(id1[i], id2[i]);
    var j := LeadingZeros(id1[i] ^ id2[i]);
    r := 8 * i + j;
    assert r / 8 == i && r % 8 == j;
    forall k: nat | k <= r
      ensures Bit(id1, k) == Bit(id2, k) <==> k < r
    {
      if k / 8 < i {
        assert id1[..i][k / 8] == id2[..i][k / 8];
      } else {
        ByteXor(id1[i], id2[i], k % 8);
      }
    }
    CommonBitsUnique(id1, id2, r);
  }

  // The shifting loop at the end of common_bits.
  method LeadingZeros(x: Byte) returns (j: nat)
    requires x != 0
    ensures j < 8 && ByteBit(x, j) && forall k: nat | k < j :: !ByteBit(x, k)
  {
    var xor := x;
    j := 0;
    ghost var top := ByteOrder(0, x);
    while xor & 0x80 == 0
      invariant 0 <= j <= top
      invariant xor == ShiftLeft(x, j)
      invariant forall k: nat | k < j :: !ByteBit(x, k)
      decreases top - j
    {
      ShiftLeftTop(x, j);
      xor := xor << 1;
      j := j + 1;
    }
    ShiftLeftTop(x, j);
  }

  lemma ShiftLeftTop(x: Byte, j: nat)
    requires j < 8
    ensures ShiftLeft(x, j) & 0x80 != 0 <==> ByteBit(x, j)
  {
    if j > 0 {
      ShiftLeftBit(x, j, 0);
    }
  }

  lemma {:induction false} ShiftLeftBit(x: Byte, j: nat, k: nat)
    requires j + k < 8
    ensures ByteBit(ShiftLeft(x, j), k) == ByteBit(x, j + k)
  {
    if j > 0 {
      ByteShift(ShiftLeft(x, j - 1), k);
      ShiftLeftBit(x, j - 1, k + 1);
    }
  }

  ghost function ShiftLeft(x: Byte, j: nat): Byte
  {
    if j == 0 then x else ShiftLeft(x, j - 1) << 1
  }

  lemma XorZero(x: Byte, y: Byte)
    ensures x ^ y == 0 <==> x == y
  {}

  lemma XorMask(x: Byte, y: Byte, m: Byte)
    ensures (x ^ y) & m == (x & m) ^ (y & m)
  {}

  lemma AndMask(x: Byte, k: nat)
    requires k < 8
    ensures x & Mask(k) == 0 || x & Mask(k) == Mask(k)
  {}

  lemma ByteXor(x: Byte, y: Byte, k: nat)
    requires k < 8
    ensures ByteBit(x ^ y, k) == (ByteBit(x, k) != ByteBit(y, k))
  {
    XorMask(x, y, Mask(k));
    AndMask(x, k);
    AndMask(y, k);
    XorZero(x & Mask(k), y & Mask(k));
  }
}
