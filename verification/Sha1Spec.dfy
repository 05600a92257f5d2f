/** The Secure Hash Standard's SHA-1 (FIPS 180-1), as the text defines it: 32-bit
    words, an 80-word message schedule, five registers shifted in every round. */
module Sha1Spec {
  import opened Ids

  type Word = bv32

  datatype Regs = Regs(a: Word, b: Word, c: Word, d: Word, e: Word)

  const INITIAL: Regs := Regs(0x67452301, 0xEFCDAB89, 0x98BADCFE, 0x10325476, 0xC3D2E1F0)

  type Block = s: seq<Byte> | |s| == 64 witness
    [0, 0, 0, 0, 0, 0, 0, 0, 0, 0, 0, 0, 0, 0, 0, 0,
     0, 0, 0, 0, 0, 0, 0, 0, 0, 0, 0, 0, 0, 0, 0, 0,
     0, 0, 0, 0, 0, 0, 0, 0, 0, 0, 0, 0, 0, 0, 0, 0,
     0, 0, 0, 0, 0, 0, 0, 0, 0, 0, 0, 0, 0, 0, 0, 0]

  // Addition of words, modulo 2^32 (section 3)
  function Plus(x: Word, y: Word): Word { x + y }

  function Xor4(w: Word, x: Word, y: Word, z: Word): Word { w ^ x ^ y ^ z }

  // S^1, S^5 and S^30 of section 3
  function Rotl1(x: Word): Word { (x << 1) | (x >> 31) }

  function Rotl5(x: Word): Word { (x << 5) | (x >> 27) }

  function Rotl30(x: Word): Word { (x << 30) | (x >> 2) }

  // Section 5: the functions f(t; B, C, D)
  function Choice(b: Word, c: Word, d: Word): Word { (b & c) | (!b & d) }

  function Parity(b: Word, c: Word, d: Word): Word { b ^ c ^ d }

  function Majority(b: Word, c: Word, d: Word): Word { (b & c) | (b & d) | (c & d) }

  function F(t: nat, b: Word, c: Word, d: Word): Word
  {
    if t < 20 then Choice(b, c, d) else if t < 40 then Parity(b, c, d)
    else if t < 60 then Majority(b, c, d) else Parity(b, c, d)
  }

  // Section 6: the constants K(t)
  function K(t: nat): Word
  {
    if t < 20 then 0x5A827999 else if t < 40 then 0x6ED9EBA1 else if t < 60 then 0x8F1BBCDC else 0xCA62C1D6
  }

  function BigEndian(b0: Byte, b1: Byte, b2: Byte, b3: Byte): Word
  {
    (b0 as bv32 << 24) | (b1 as bv32 << 16) | (b2 as bv32 << 8) | (b3 as bv32)
  }

  // Section 7, steps a and b
  ghost function Schedule(m: Block, t: nat): Word
  {
    if t < 16 then BigEndian(m[4 * t], m[4 * t + 1], m[4 * t + 2], m[4 * t + 3])
    else Rotl1(Xor4(Schedule(m, t - 3), Schedule(m, t - 8), Schedule(m, t - 14), Schedule(m, t - 16)))
  }

  // Section 7, step d: TEMP = S^5(A) + f(t; B, C, D) + E + W(t) + K(t)
  function Temp(r: Regs, w: Word, t: nat): Word
  {
    Plus(Plus(Plus(Plus(Rotl5(r.a), F(t, r.b, r.c, r.d)), r.e), w), K(t))
  }

  function Round(r: Regs, w: Word, t: nat): Regs
  {
    Regs(Temp(r, w, t), r.a, Rotl30(r.b), r.c, r.d)
  }

  ghost function Rounds(h: Regs, m: Block, t: nat): Regs
  {
    if t == 0 then h else Round(Rounds(h, m, t - 1), Schedule(m, t - 1), t - 1)
  }

  // Section 7, step e
  ghost function Compress(h: Regs, m: Block): Regs
  {
    var r := Rounds(h, m, 80);
    Regs(Plus(h.a, r.a), Plus(h.b, r.b), Plus(h.c, r.c), Plus(h.d, r.d), Plus(h.e, r.e))
  }

  // The blocks of data, one after the other.
  ghost function Fold(h: Regs, data: seq<Byte>): Regs
    requires |data| % 64 == 0
  {
    if data == [] then h else
      var n := |data| - 64;
      Compress(Fold(h, data[..n]), data[n..])
  }

  // Section 4: a 1 bit, zeros, and the message length in bits as two words.
  function Zeros(n: nat): (z: seq<Byte>)
    ensures |z| == n && forall i | 0 <= i < n :: z[i] == 0
  {
    if n == 0 then [] else Zeros(n - 1) + [0]
  }

  function PadLength(n: nat): (p: nat)
    ensures 1 <= p <= 64 && (n + p + 8) % 64 == 0
  {
    if n % 64 < 56 then 56 - n % 64 else 120 - n % 64
  }

  // The low eight bits
  function LowByte(n: nat): Byte
  {
    (n % 256) as bv8
  }

  // n modulo 2^64 as two words, most significant byte first
  function Word64Bytes(n: nat): (b: seq<Byte>)
    ensures |b| == 8
  {
    [LowByte(n / 0x100_0000_0000_0000), LowByte(n / 0x1_0000_0000_0000),
     LowByte(n / 0x100_0000_0000), LowByte(n / 0x1_0000_0000),
     LowByte(n / 0x100_0000), LowByte(n / 0x1_0000), LowByte(n / 0x100), LowByte(n)]
  }

  // The message with its padding, for a length field of bits.
  function Padded(m: seq<Byte>, bits: nat): (p: seq<Byte>)
    ensures |p| % 64 == 0
  {
    m + [0x80] + Zeros(PadLength(|m|) - 1) + Word64Bytes(bits)
  }

  function WordBytes(w: Word): (b: seq<Byte>)
    ensures |b| == 4
  {
    [(w >> 24) as bv8, ((w >> 16) & 0xFF) as bv8, ((w >> 8) & 0xFF) as bv8, (w & 0xFF) as bv8]
  }

  function Digest(h: Regs): (b: Id)
  {
    WordBytes(h.a) + WordBytes(h.b) + WordBytes(h.c) + WordBytes(h.d) + WordBytes(h.e)
  }

  // The message digest of m.
  ghost function Sha1(m: seq<Byte>): Id
  {
    Digest(Fold(INITIAL, Padded(m, 8 * |m|)))
  }
}
