/** sha1_process on a platform whose unsigned long has 64 bits: the words are never
    masked to 32 bits, the schedule lives in a circular buffer of 16 words, and
    instead of shifting five registers the rounds rename them. */
module Sha1Block {
  import opened Sha1Spec

  type Long = bv64

  // ----- the low 32 bits of unmasked 64-bit arithmetic -----

  ghost predicate LowIs(x: Long, w: Word)
  {
    w == (x & 0xFFFFFFFF) as bv32
  }

  // The macro S(x, n)
  function S1(x: Long): Long { (x << 1) | ((x & 0xFFFFFFFF) >> 31) }

  function S5(x: Long): Long { (x << 5) | ((x & 0xFFFFFFFF) >> 27) }

  function S30(x: Long): Long { (x << 30) | ((x & 0xFFFFFFFF) >> 2) }

  lemma RotateLowWord1(x: Long)
    ensures (((x << 1) | ((x & 0xFFFFFFFF) >> 31)) & 0xFFFFFFFF) as bv32 == Rotl1((x & 0xFFFFFFFF) as bv32)
  {}

  lemma S1ByDefinition(x: Long)
    ensures S1(x) == (x << 1) | ((x & 0xFFFFFFFF) >> 31)
  {}

  lemma LowS1(x: Long, w: Word)
    requires LowIs(x, w)
    ensures LowIs(S1(x), Rotl1(w))
  {
    hide S1, Rotl1;
    RotateLowWord1(x);
    S1ByDefinition(x);
  }

  lemma RotateLowWord5(x: Long)
    ensures (((x << 5) | ((x & 0xFFFFFFFF) >> 27)) & 0xFFFFFFFF) as bv32 == Rotl5((x & 0xFFFFFFFF) as bv32)
  {}

  lemma S5ByDefinition(x: Long)
    ensures S5(x) == (x << 5) | ((x & 0xFFFFFFFF) >> 27)
  {}

  lemma LowS5(x: Long, w: Word)
    requires LowIs(x, w)
    ensures LowIs(S5(x), Rotl5(w))
  {
    hide S5, Rotl5;
    RotateLowWord5(x);
    S5ByDefinition(x);
  }

  lemma RotateLowWord30(x: Long)
    ensures (((x << 30) | ((x & 0xFFFFFFFF) >> 2)) & 0xFFFFFFFF) as bv32 == Rotl30((x & 0xFFFFFFFF) as bv32)
  {}

  lemma S30ByDefinition(x: Long)
    ensures S30(x) == (x << 30) | ((x & 0xFFFFFFFF) >> 2)
  {}

  lemma LowS30(x: Long, w: Word)
    requires LowIs(x, w)
    ensures LowIs(S30(x), Rotl30(w))
  {
    hide S30, Rotl30;
    RotateLowWord30(x);
    S30ByDefinition(x);
  }

  lemma LowRotations(x: Long, w: Word)
    requires LowIs(x, w)
    ensures LowIs(S1(x), Rotl1(w)) && LowIs(S5(x), Rotl5(w)) && LowIs(S30(x), Rotl30(w))
  {
    hide *;
    LowS1(x, w);
    LowS5(x, w);
    LowS30(x, w);
  }

  // The four definitions of the macros F and K
  function FChoice(x: Long, y: Long, z: Long): Long { z ^ (x & (y ^ z)) }

  function FParity(x: Long, y: Long, z: Long): Long { x ^ y ^ z }

  function FMajority(x: Long, y: Long, z: Long): Long { (x & y) | (z & (x | y)) }

  function FLong(t: nat, x: Long, y: Long, z: Long): Long
  {
    if t < 20 then FChoice(x, y, z) else if t < 40 then FParity(x, y, z)
    else if t < 60 then FMajority(x, y, z) else FParity(x, y, z)
  }

  function KLong(t: nat): Long
  {
    if t < 20 then 0x5A827999 else if t < 40 then 0x6ED9EBA1 else if t < 60 then 0x8F1BBCDC else 0xCA62C1D6
  }

  lemma ChoiceOfLowWords(x: Long, y: Long, z: Long)
    ensures ((z ^ (x & (y ^ z))) & 0xFFFFFFFF) as bv32
         == Choice((x & 0xFFFFFFFF) as bv32, (y & 0xFFFFFFFF) as bv32, (z & 0xFFFFFFFF) as bv32)
  {}

  lemma FChoiceByDefinition(x: Long, y: Long, z: Long)
    ensures FChoice(x, y, z) == z ^ (x & (y ^ z))
  {}

  lemma LowChoice(x: Long, y: Long, z: Long, b: Word, c: Word, d: Word)
    requires LowIs(x, b) && LowIs(y, c) && LowIs(z, d)
    ensures LowIs(FChoice(x, y, z), Choice(b, c, d))
  {
    hide FChoice, Choice;
    ChoiceOfLowWords(x, y, z);
    FChoiceByDefinition(x, y, z);
  }

  lemma ParityOfLowWords(x: Long, y: Long, z: Long)
    ensures ((x ^ y ^ z) & 0xFFFFFFFF) as bv32
         == Parity((x & 0xFFFFFFFF) as bv32, (y & 0xFFFFFFFF) as bv32, (z & 0xFFFFFFFF) as bv32)
  {}

  lemma FParityByDefinition(x: Long, y: Long, z: Long)
    ensures FParity(x, y, z) == x ^ y ^ z
  {}

  lemma LowParity(x: Long, y: Long, z: Long, b: Word, c: Word, d: Word)
    requires LowIs(x, b) && LowIs(y, c) && LowIs(z, d)
    ensures LowIs(FParity(x, y, z), Parity(b, c, d))
  {
    hide FParity, Parity;
    ParityOfLowWords(x, y, z);
    FParityByDefinition(x, y, z);
  }

  lemma MajorityOfLowWords(x: Long, y: Long, z: Long)
    ensures (((x & y) | (z & (x | y))) & 0xFFFFFFFF) as bv32
         == Majority((x & 0xFFFFFFFF) as bv32, (y & 0xFFFFFFFF) as bv32, (z & 0xFFFFFFFF) as bv32)
  {}

  lemma FMajorityByDefinition(x: Long, y: Long, z: Long)
    ensures FMajority(x, y, z) == (x & y) | (z & (x | y))
  {}

  lemma LowMajority(x: Long, y: Long, z: Long, b: Word, c: Word, d: Word)
    requires LowIs(x, b) && LowIs(y, c) && LowIs(z, d)
    ensures LowIs(FMajority(x, y, z), Majority(b, c, d))
  {
    hide FMajority, Majority;
    MajorityOfLowWords(x, y, z);
    FMajorityByDefinition(x, y, z);
  }

  lemma LowF(t: nat, x: Long, y: Long, z: Long, b: Word, c: Word, d: Word)
    requires LowIs(x, b) && LowIs(y, c) && LowIs(z, d)
    ensures LowIs(FLong(t, x, y, z), F(t, b, c, d))
  {
    hide LowIs, FChoice, FParity, FMajority, Choice, Parity, Majority;
    LowChoice(x, y, z, b, c, d);
    LowParity(x, y, z, b, c, d);
    LowMajority(x, y, z, b, c, d);
  }

  lemma LowK(t: nat)
    ensures LowIs(KLong(t), K(t))
  {}

  // Addition of unsigned longs
  function Sum(x: Long, y: Long): Long { x + y }

  lemma AddLowWords(x: Long, y: Long)
    ensures ((x + y) & 0xFFFFFFFF) as bv32 == Plus((x & 0xFFFFFFFF) as bv32, (y & 0xFFFFFFFF) as bv32)
  {}

  lemma LowAdd(x: Long, y: Long, v: Word, w: Word)
    requires LowIs(x, v) && LowIs(y, w)
    ensures LowIs(x + y, Plus(v, w))
  {
    hide Plus;
    AddLowWords(x, y);
  }

  lemma SumByDefinition(x: Long, y: Long)
    ensures Sum(x, y) == x + y
  {}

  lemma LowSum(x: Long, y: Long, v: Word, w: Word)
    requires LowIs(x, v) && LowIs(y, w)
    ensures LowIs(Sum(x, y), Plus(v, w))
  {
    hide LowIs, Sum, Plus;
    LowAdd(x, y, v, w);
    SumByDefinition(x, y);
  }

  lemma PlusIsSum(x: Word, y: Word)
    ensures Plus(x, y) == x + y && Plus(x, y) == Plus(y, x)
  {}

  lemma SumsAssociate(x: Word, y: Word, z: Word)
    ensures Plus(x + y, z) == Plus(x, y + z)
  {}

  lemma PlusAssociates(x: Word, y: Word, z: Word)
    ensures Plus(Plus(x, y), z) == Plus(x, Plus(y, z))
  {
    hide Plus;
    PlusIsSum(x, y);
    PlusIsSum(y, z);
    SumsAssociate(x, y, z);
  }

  lemma PlusCommutes(x: Word, y: Word)
    ensures Plus(x, y) == Plus(y, x)
  {}

  // e += S(a,5) + F(b,c,d) + K + x adds the terms of TEMP in another order.
  lemma LowTemp(s: Long, f: Long, e: Long, x: Long, k: Long, s': Word, f': Word, e': Word, x': Word, k': Word)
    requires LowIs(s, s') && LowIs(f, f') && LowIs(e, e') && LowIs(x, x') && LowIs(k, k')
    ensures LowIs(Sum(e, Sum(Sum(Sum(s, f), k), x)), Plus(Plus(Plus(Plus(s', f'), e'), x'), k'))
  {
    hide LowIs, Plus, Sum;
    LowSum(s, f, s', f');
    LowSum(Sum(s, f), k, Plus(s', f'), k');
    LowSum(Sum(Sum(s, f), k), x, Plus(Plus(s', f'), k'), x');
    LowSum(e, Sum(Sum(Sum(s, f), k), x), e', Plus(Plus(Plus(s', f'), k'), x'));
    TempOrder(s', f', e', x', k');
  }

  lemma TempOrder(s: Word, f: Word, e: Word, x: Word, k: Word)
    ensures Plus(e, Plus(Plus(Plus(s, f), k), x)) == Plus(Plus(Plus(Plus(s, f), e), x), k)
  {
    hide Plus;
    var u := Plus(s, f);
    calc {
      Plus(e, Plus(Plus(u, k), x));
    == { PlusCommutes(e, Plus(Plus(u, k), x)); PlusAssociates(Plus(u, k), x, e); }
      Plus(Plus(u, k), Plus(x, e));
    == { PlusCommutes(x, e); PlusAssociates(u, k, Plus(e, x)); PlusCommutes(k, Plus(e, x)); }
      Plus(u, Plus(Plus(e, x), k));
    == { PlusAssociates(u, Plus(e, x), k); PlusAssociates(u, e, x); }
      Plus(Plus(Plus(u, e), x), k);
    }
  }

  function XorLong(w: Long, x: Long, y: Long, z: Long): Long { w ^ x ^ y ^ z }

  lemma LowXors(w: Long, x: Long, y: Long, z: Long, w': Word, x': Word, y': Word, z': Word)
    requires LowIs(w, w') && LowIs(x, x') && LowIs(y, y') && LowIs(z, z')
    ensures LowIs(w ^ x ^ y ^ z, w' ^ x' ^ y' ^ z')
  {}

  lemma XorsByDefinition(w: Long, x: Long, y: Long, z: Long, w': Word, x': Word, y': Word, z': Word)
    ensures XorLong(w, x, y, z) == w ^ x ^ y ^ z && Xor4(w', x', y', z') == w' ^ x' ^ y' ^ z'
  {}

  lemma LowXor4(w: Long, x: Long, y: Long, z: Long, w': Word, x': Word, y': Word, z': Word)
    requires LowIs(w, w') && LowIs(x, x') && LowIs(y, y') && LowIs(z, z')
    ensures LowIs(XorLong(w, x, y, z), Xor4(w', x', y', z'))
  {
    hide LowIs, XorLong, Xor4;
    LowXors(w, x, y, z, w', x', y', z');
    XorsByDefinition(w, x, y, z, w', x', y', z');
  }

  // GET_ULONG_BE
  function GetBE(b: Block, i: nat): Long
    requires i + 4 <= 64
  {
    (b[i] as bv64 << 24) | (b[i + 1] as bv64 << 16) | (b[i + 2] as bv64 << 8) | (b[i + 3] as bv64)
  }

  lemma LowGetBE(b: Block, i: nat)
    requires i + 4 <= 64
    ensures LowIs(GetBE(b, i), BigEndian(b[i], b[i + 1], b[i + 2], b[i + 3]))
  {}

  // ----- sha1_process -----

  // The five registers hold the working variables after t rounds.
  ghost predicate After(a: Long, b: Long, c: Long, d: Long, e: Long, h: Regs, m: Block, t: nat)
  {
    var r := Rounds(h, m, t);
    LowIs(a, r.a) && LowIs(b, r.b) && LowIs(c, r.c) && LowIs(d, r.d) && LowIs(e, r.e)
  }

  // The circular buffer holds the 16 schedule words before word t.
  ghost predicate Window(w: seq<Long>, m: Block, t: nat)
    requires |w| == 16
  {
    forall i: nat | i < t <= i + 16 :: LowIs(w[i % 16], Schedule(m, i))
  }

  // The macro P(a,b,c,d,e,x): the new value of e, then that of b.
  method P(ghost h: Regs, ghost m: Block, t: nat, a: Long, b: Long, c: Long, d: Long, e: Long, x: Long)
    returns (e': Long, b': Long)
    requires After(a, b, c, d, e, h, m, t) && LowIs(x, Schedule(m, t))
    ensures After(e', a, b', c, d, h, m, t + 1)
  {
    hide LowIs, Schedule, S1, S5, S30, FLong, KLong, F, K, Rotl1, Rotl5, Rotl30, Plus, Sum;
    ghost var r := Rounds(h, m, t);
    LowRotations(a, r.a);
    LowRotations(b, r.b);
    LowF(t, b, c, d, r.b, r.c, r.d);
    LowK(t);
    e' := Sum(e, Sum(Sum(Sum(S5(a), FLong(t, b, c, d)), KLong(t)), x));
    b' := S30(b);
    LowTemp(S5(a), FLong(t, b, c, d), e, x, KLong(t),
            Rotl5(r.a), F(t, r.b, r.c, r.d), r.e, Schedule(m, t), K(t));
    assert Rounds(h, m, t + 1) == Round(r, Schedule(m, t), t);
  }

  // The macro R(t): the next schedule word, written over the oldest one.
  method R(ghost m: Block, W: array<Long>, t: nat) returns (x: Long)
    requires W.Length == 16 && t >= 16 && Window(W[..], m, t)
    modifies W
    ensures Window(W[..], m, t + 1) && LowIs(x, Schedule(m, t))
  {
    hide LowIs, S1, Rotl1, XorLong, Xor4, Window, Schedule;
    ghost var before := W[..];
    WindowAt(before, m, t);
    var temp := XorLong(W[(t - 3) % 16], W[(t - 8) % 16], W[(t - 14) % 16], W[t % 16]);
    LowXor4(before[(t - 3) % 16], before[(t - 8) % 16], before[(t - 14) % 16], before[t % 16],
            Schedule(m, t - 3), Schedule(m, t - 8), Schedule(m, t - 14), Schedule(m, t - 16));
    ghost var word := Xor4(Schedule(m, t - 3), Schedule(m, t - 8), Schedule(m, t - 14), Schedule(m, t - 16));
    LowRotations(temp, word);
    x := S1(temp);
    W[t % 16] := x;
    NextWord(m, t);
    WindowMoves(before, m, t, x);
    assert W[..] == before[t % 16 := x];
  }

  lemma NextWord(m: Block, t: nat)
    requires t >= 16
    ensures Schedule(m, t) ==
      Rotl1(Xor4(Schedule(m, t - 3), Schedule(m, t - 8), Schedule(m, t - 14), Schedule(m, t - 16)))
  {
    hide Rotl1, Xor4;
  }

  lemma WindowAt(w: seq<Long>, m: Block, t: nat)
    requires |w| == 16 && t >= 16 && Window(w, m, t)
    ensures LowIs(w[(t - 3) % 16], Schedule(m, t - 3)) && LowIs(w[(t - 8) % 16], Schedule(m, t - 8))
    ensures LowIs(w[(t - 14) % 16], Schedule(m, t - 14)) && LowIs(w[t % 16], Schedule(m, t - 16))
  {
    hide LowIs, Schedule;
    assert (t - 16) % 16 == t % 16;
  }

  lemma WindowMoves(w: seq<Long>, m: Block, t: nat, x: Long)
    requires |w| == 16 && t >= 16 && Window(w, m, t) && LowIs(x, Schedule(m, t))
    ensures Window(w[t % 16 := x], m, t + 1)
  {
    hide LowIs, Schedule;
    forall i: nat | i < t + 1 <= i + 16
      ensures LowIs(w[t % 16 := x][i % 16], Schedule(m, i))
    {
      if i < t {
        assert i % 16 != t % 16;
      }
    }
  }

  // Rounds 0 to 19
  method Rounds0(ghost h: Regs, ghost m: Block, W: array<Long>, a: Long, b: Long, c: Long, d: Long, e: Long)
    returns (A: Long, B: Long, C: Long, D: Long, E: Long)
    requires W.Length == 16 && Window(W[..], m, 16) && After(a, b, c, d, e, h, m, 0)
    modifies W
    ensures Window(W[..], m, 20) && After(A, B, C, D, E, h, m, 20)
  {
    hide *;
    var x;
    A, B, C, D, E := a, b, c, d, e;
    WindowWords(W[..], m);
    E, B := P(h, m, 0, A, B, C, D, E, W[0]);
    D, A := P(h, m, 1, E, A, B, C, D, W[1]);
    C, E := P(h, m, 2, D, E, A, B, C, W[2]);
    B, D := P(h, m, 3, C, D, E, A, B, W[3]);
    A, C := P(h, m, 4, B, C, D, E, A, W[4]);
    E, B := P(h, m, 5, A, B, C, D, E, W[5]);
    D, A := P(h, m, 6, E, A, B, C, D, W[6]);
    C, E := P(h, m, 7, D, E, A, B, C, W[7]);
    B, D := P(h, m, 8, C, D, E, A, B, W[8]);
    A, C := P(h, m, 9, B, C, D, E, A, W[9]);
    E, B := P(h, m, 10, A, B, C, D, E, W[10]);
    D, A := P(h, m, 11, E, A, B, C, D, W[11]);
    C, E := P(h, m, 12, D, E, A, B, C, W[12]);
    B, D := P(h, m, 13, C, D, E, A, B, W[13]);
    A, C := P(h, m, 14, B, C, D, E, A, W[14]);
    E, B := P(h, m, 15, A, B, C, D, E, W[15]);
    x := R(m, W, 16);
    D, A := P(h, m, 16, E, A, B, C, D, x);
    x := R(m, W, 17);
    C, E := P(h, m, 17, D, E, A, B, C, x);
    x := R(m, W, 18);
    B, D := P(h, m, 18, C, D, E, A, B, x);
    x := R(m, W, 19);
    A, C := P(h, m, 19, B, C, D, E, A, x);
  }

  // Rounds 20 to 39
  method Rounds20(ghost h: Regs, ghost m: Block, W: array<Long>, a: Long, b: Long, c: Long, d: Long, e: Long)
    returns (A: Long, B: Long, C: Long, D: Long, E: Long)
    requires W.Length == 16 && Window(W[..], m, 20) && After(a, b, c, d, e, h, m, 20)
    modifies W
    ensures Window(W[..], m, 40) && After(A, B, C, D, E, h, m, 40)
  {
    hide *;
    var x;
    A, B, C, D, E := a, b, c, d, e;
    x := R(m, W, 20);
    E, B := P(h, m, 20, A, B, C, D, E, x);
    x := R(m, W, 21);
    D, A := P(h, m, 21, E, A, B, C, D, x);
    x := R(m, W, 22);
    C, E := P(h, m, 22, D, E, A, B, C, x);
    x := R(m, W, 23);
    B, D := P(h, m, 23, C, D, E, A, B, x);
    x := R(m, W, 24);
    A, C := P(h, m, 24, B, C, D, E, A, x);
    x := R(m, W, 25);
    E, B := P(h, m, 25, A, B, C, D, E, x);
    x := R(m, W, 26);
    D, A := P(h, m, 26, E, A, B, C, D, x);
    x := R(m, W, 27);
    C, E := P(h, m, 27, D, E, A, B, C, x);
    x := R(m, W, 28);
    B, D := P(h, m, 28, C, D, E, A, B, x);
    x := R(m, W, 29);
    A, C := P(h, m, 29, B, C, D, E, A, x);
    x := R(m, W, 30);
    E, B := P(h, m, 30, A, B, C, D, E, x);
    x := R(m, W, 31);
    D, A := P(h, m, 31, E, A, B, C, D, x);
    x := R(m, W, 32);
    C, E := P(h, m, 32, D, E, A, B, C, x);
    x := R(m, W, 33);
    B, D := P(h, m, 33, C, D, E, A, B, x);
    x := R(m, W, 34);
    A, C := P(h, m, 34, B, C, D, E, A, x);
    x := R(m, W, 35);
    E, B := P(h, m, 35, A, B, C, D, E, x);
    x := R(m, W, 36);
    D, A := P(h, m, 36, E, A, B, C, D, x);
    x := R(m, W, 37);
    C, E := P(h, m, 37, D, E, A, B, C, x);
    x := R(m, W, 38);
    B, D := P(h, m, 38, C, D, E, A, B, x);
    x := R(m, W, 39);
    A, C := P(h, m, 39, B, C, D, E, A, x);
  }

  // Rounds 40 to 59
  method Rounds40(ghost h: Regs, ghost m: Block, W: array<Long>, a: Long, b: Long, c: Long, d: Long, e: Long)
    returns (A: Long, B: Long, C: Long, D: Long, E: Long)
    requires W.Length == 16 && Window(W[..], m, 40) && After(a, b, c, d, e, h, m, 40)
    modifies W
    ensures Window(W[..], m, 60) && After(A, B, C, D, E, h, m, 60)
  {
    hide *;
    var x;
    A, B, C, D, E := a, b, c, d, e;
    x := R(m, W, 40);
    E, B := P(h, m, 40, A, B, C, D, E, x);
    x := R(m, W, 41);
    D, A := P(h, m, 41, E, A, B, C, D, x);
    x := R(m, W, 42);
    C, E := P(h, m, 42, D, E, A, B, C, x);
    x := R(m, W, 43);
    B, D := P(h, m, 43, C, D, E, A, B, x);
    x := R(m, W, 44);
    A, C := P(h, m, 44, B, C, D, E, A, x);
    x := R(m, W, 45);
    E, B := P(h, m, 45, A, B, C, D, E, x);
    x := R(m, W, 46);
    D, A := P(h, m, 46, E, A, B, C, D, x);
    x := R(m, W, 47);
    C, E := P(h, m, 47, D, E, A, B, C, x);
    x := R(m, W, 48);
    B, D := P(h, m, 48, C, D, E, A, B, x);
    x := R(m, W, 49);
    A, C := P(h, m, 49, B, C, D, E, A, x);
    x := R(m, W, 50);
    E, B := P(h, m, 50, A, B, C, D, E, x);
    x := R(m, W, 51);
    D, A := P(h, m, 51, E, A, B, C, D, x);
    x := R(m, W, 52);
    C, E := P(h, m, 52, D, E, A, B, C, x);
    x := R(m, W, 53);
    B, D := P(h, m, 53, C, D, E, A, B, x);
    x := R(m, W, 54);
    A, C := P(h, m, 54, B, C, D, E, A, x);
    x := R(m, W, 55);
    E, B := P(h, m, 55, A, B, C, D, E, x);
    x := R(m, W, 56);
    D, A := P(h, m, 56, E, A, B, C, D, x);
    x := R(m, W, 57);
    C, E := P(h, m, 57, D, E, A, B, C, x);
    x := R(m, W, 58);
    B, D := P(h, m, 58, C, D, E, A, B, x);
    x := R(m, W, 59);
    A, C := P(h, m, 59, B, C, D, E, A, x);
  }

  // Rounds 60 to 79
  method Rounds60(ghost h: Regs, ghost m: Block, W: array<Long>, a: Long, b: Long, c: Long, d: Long, e: Long)
    returns (A: Long, B: Long, C: Long, D: Long, E: Long)
    requires W.Length == 16 && Window(W[..], m, 60) && After(a, b, c, d, e, h, m, 60)
    modifies W
    ensures Window(W[..], m, 80) && After(A, B, C, D, E, h, m, 80)
  {
    hide *;
    var x;
    A, B, C, D, E := a, b, c, d, e;
    x := R(m, W, 60);
    E, B := P(h, m, 60, A, B, C, D, E, x);
    x := R(m, W, 61);
    D, A := P(h, m, 61, E, A, B, C, D, x);
    x := R(m, W, 62);
    C, E := P(h, m, 62, D, E, A, B, C, x);
    x := R(m, W, 63);
    B, D := P(h, m, 63, C, D, E, A, B, x);
    x := R(m, W, 64);
    A, C := P(h, m, 64, B, C, D, E, A, x);
    x := R(m, W, 65);
    E, B := P(h, m, 65, A, B, C, D, E, x);
    x := R(m, W, 66);
    D, A := P(h, m, 66, E, A, B, C, D, x);
    x := R(m, W, 67);
    C, E := P(h, m, 67, D, E, A, B, C, x);
    x := R(m, W, 68);
    B, D := P(h, m, 68, C, D, E, A, B, x);
    x := R(m, W, 69);
    A, C := P(h, m, 69, B, C, D, E, A, x);
    x := R(m, W, 70);
    E, B := P(h, m, 70, A, B, C, D, E, x);
    x := R(m, W, 71);
    D, A := P(h, m, 71, E, A, B, C, D, x);
    x := R(m, W, 72);
    C, E := P(h, m, 72, D, E, A, B, C, x);
    x := R(m, W, 73);
    B, D := P(h, m, 73, C, D, E, A, B, x);
    x := R(m, W, 74);
    A, C := P(h, m, 74, B, C, D, E, A, x);
    x := R(m, W, 75);
    E, B := P(h, m, 75, A, B, C, D, E, x);
    x := R(m, W, 76);
    D, A := P(h, m, 76, E, A, B, C, D, x);
    x := R(m, W, 77);
    C, E := P(h, m, 77, D, E, A, B, C, x);
    x := R(m, W, 78);
    B, D := P(h, m, 78, C, D, E, A, B, x);
    x := R(m, W, 79);
    A, C := P(h, m, 79, B, C, D, E, A, x);
  }

  lemma WindowWords(w: seq<Long>, m: Block)
    requires |w| == 16 && Window(w, m, 16)
    ensures forall i: nat | i < 16 :: LowIs(w[i], Schedule(m, i))
  {
    hide LowIs, Schedule;
    forall i: nat | i < 16 ensures LowIs(w[i], Schedule(m, i)) {
      assert LowIs(w[i % 16], Schedule(m, i));
    }
  }

  ghost predicate RegsAre(s: seq<Long>, h: Regs)
    requires |s| == 5
  {
    LowIs(s[0], h.a) && LowIs(s[1], h.b) && LowIs(s[2], h.c) && LowIs(s[3], h.d) && LowIs(s[4], h.e)
  }

  // sha1_process: the low 32 bits of the state become those of the standard's
  // block function.
  method Process(state: array<Long>, data: Block, ghost h: Regs)
    requires state.Length == 5 && RegsAre(state[..], h)
    modifies state
    ensures RegsAre(state[..], Compress(h, data))
  {
    hide LowIs, After, Window, Rounds, Plus, Sum;
    var W := LoadWords(data);
    StartRounds(state[..], data, h);
    var A, B, C, D, E := Rounds0(h, data, W, state[0], state[1], state[2], state[3], state[4]);
    A, B, C, D, E := Rounds20(h, data, W, A, B, C, D, E);
    A, B, C, D, E := Rounds40(h, data, W, A, B, C, D, E);
    A, B, C, D, E := Rounds60(h, data, W, A, B, C, D, E);
    EndRounds(state[..], A, B, C, D, E, h, data);
    state[0] := Sum(state[0], A);
    state[1] := Sum(state[1], B);
    state[2] := Sum(state[2], C);
    state[3] := Sum(state[3], D);
    state[4] := Sum(state[4], E);
  }

  // W[0] to W[15] from the bytes of the block
  method LoadWords(data: Block) returns (W: array<Long>)
    ensures fresh(W) && W.Length == 16 && Window(W[..], data, 16)
  {
    hide *;
    W := new Long[16] [
      GetBE(data, 0), GetBE(data, 4), GetBE(data, 8), GetBE(data, 12),
      GetBE(data, 16), GetBE(data, 20), GetBE(data, 24), GetBE(data, 28),
      GetBE(data, 32), GetBE(data, 36), GetBE(data, 40), GetBE(data, 44),
      GetBE(data, 48), GetBE(data, 52), GetBE(data, 56), GetBE(data, 60)
    ];
    LoadedWords(W[..], data);
  }

  lemma LoadedWords(w: seq<Long>, data: Block)
    requires |w| == 16 && forall i: nat | i < 16 :: w[i] == GetBE(data, 4 * i)
    ensures Window(w, data, 16)
  {
    hide LowIs, GetBE, BigEndian;
    forall i: nat | i < 16 ensures LowIs(w[i % 16], Schedule(data, i)) {
      LowGetBE(data, 4 * i);
    }
  }

  lemma StartRounds(s: seq<Long>, m: Block, h: Regs)
    requires |s| == 5 && RegsAre(s, h)
    ensures After(s[0], s[1], s[2], s[3], s[4], h, m, 0)
  {
    hide LowIs;
  }

  lemma EndRounds(s: seq<Long>, A: Long, B: Long, C: Long, D: Long, E: Long, h: Regs, m: Block)
    requires |s| == 5 && RegsAre(s, h) && After(A, B, C, D, E, h, m, 80)
    ensures RegsAre([Sum(s[0], A), Sum(s[1], B), Sum(s[2], C), Sum(s[3], D), Sum(s[4], E)], Compress(h, m))
  {
    hide LowIs, Rounds, Plus, Sum;
    var r := Rounds(h, m, 80);
    LowSum(s[0], A, h.a, r.a);
    LowSum(s[1], B, h.b, r.b);
    LowSum(s[2], C, h.c, r.c);
    LowSum(s[3], D, h.d, r.d);
    LowSum(s[4], E, h.e, r.e);
  }
}
