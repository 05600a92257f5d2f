/** The streaming interface of sha1.c: a context collects bytes, however they are
    cut into chunks, and runs the block function whenever 64 of them are there. */
module Sha1 {
  import opened Ids
  import opened Sha1Spec
  import opened Sha1Block

  const WORD: nat := 0x1_0000_0000

  // The bytes of the whole blocks, and those left over.
  function Whole(m: seq<Byte>): (r: seq<Byte>)
    ensures |r| % 64 == 0
  {
    m[..|m| - |m| % 64]
  }

  function Rest(m: seq<Byte>): (r: seq<Byte>)
    ensures |r| == |m| % 64
  {
    m[|m| - |m| % 64..]
  }

  class Context {
    var total0: nat               // total[0], kept below 2^32
    var total1: nat               // total[1]
    const state: array<Long>      // state[5]
    const buffer: array<Byte>     // buffer[64]
    ghost var absorbed: seq<Byte> // everything fed in since the start

    ghost predicate Valid()
      reads this, state, buffer
    {
      && state.Length == 5 && buffer.Length == 64 && state as object != buffer as object
      && total0 == |absorbed| % WORD
      && total1 <= |absorbed| / WORD
      && buffer[..|absorbed| % 64] == Rest(absorbed)
      && RegsAre(state[..], Fold(INITIAL, Whole(absorbed)))
    }

    // The byte count in total[] is the number of bytes fed in.
    ghost predicate Counted()
      reads this
    {
      total1 == |absorbed| / WORD
    }

    // sha1_starts
    constructor ()
      ensures Valid() && Counted() && absorbed == [] && fresh(state) && fresh(buffer)
    {
      total0, total1, absorbed := 0, 0, [];
      state := new Long[5] [0x67452301, 0xEFCDAB89, 0x98BADCFE, 0x10325476, 0xC3D2E1F0];
      buffer := new Byte[64];
      new;
      InitialState(state[..]);
    }

    // The bytes of m up to done went through the block function, the next left
    // bytes are in the buffer, and input is what follows them.
    ghost predicate Midway(m: seq<Byte>, done: nat, left: nat, input: seq<Byte>)
      reads this, state, buffer
    {
      && state.Length == 5 && buffer.Length == 64 && state as object != buffer as object
      && done % 64 == 0 && done <= |m| && left < 64
      && m[done..] == buffer[..left] + input
      && RegsAre(state[..], Fold(INITIAL, m[..done]))
    }

    // sha1_update.  The carry into total[1] is right exactly when the chunk does
    // not take total[0] past 2^33.
    method Update(chunk: seq<Byte>)
      requires Valid()
      modifies this, state, buffer
      ensures Valid() && absorbed == old(absorbed) + chunk
      ensures Counted() <==> old(Counted()) && |old(absorbed)| % WORD + |chunk| < 2 * WORD
    {
      hide RegsAre, Fold;
      if |chunk| == 0 {
        assert absorbed + chunk == absorbed;
        return;
      }
      var left := total0 % 64;
      ghost var m := absorbed + chunk;
      ghost var done := |absorbed| - left;
      CountBytes(|absorbed|, |chunk|, total0, total1);
      StartsMidway(chunk);
      total0 := (total0 + |chunk|) % WORD;
      if total0 < |chunk| {
        total1 := total1 + 1;
      }
      absorbed := m;
      Absorb(m, done, left, chunk);
    }

    lemma StartsMidway(chunk: seq<Byte>)
      requires Valid()
      ensures |absorbed| - total0 % 64 >= 0
      ensures Midway(absorbed + chunk, |absorbed| - total0 % 64, total0 % 64, chunk)
    {
      hide RegsAre, Fold;
      CountModBlock(|absorbed|, total0);
      var m, done := absorbed + chunk, |absorbed| - total0 % 64;
      assert m[..done] == Whole(absorbed);
      assert m[done..] == buffer[..total0 % 64] + chunk;
    }

    // The part of sha1_update that moves bytes.
    method Absorb(ghost m: seq<Byte>, ghost start: nat, before: nat, chunk: seq<Byte>)
      requires Midway(m, start, before, chunk)
      modifies state, buffer
      ensures Midway(m, |m| - |m| % 64, |m| % 64, [])
    {
      hide Midway;
      ghost var done := start;
      var input, left := chunk, before;
      var fill := 64 - left;
      Halfway(m, done, left, input);
      if left > 0 && |input| >= fill {
        done := FillBuffer(m, done, left, input);
        input := input[fill..];
        left := 0;
      }
      while |input| >= 64
        invariant Midway(m, done, left, input)
        invariant left == 0 || left + |input| < 64
        decreases |input|
      {
        Halfway(m, done, left, input);
        done := OneBlock(m, done, input);
        input := input[64..];
      }
      Halfway(m, done, left, input);
      Keep(m, done, left, input);
    }

    lemma Halfway(m: seq<Byte>, done: nat, left: nat, input: seq<Byte>)
      requires Midway(m, done, left, input)
      ensures left < 64 && done % 64 == 0 && done + left + |input| == |m|
    {
      assert |m[done..]| == left + |input|;
    }

    // A partly filled buffer is filled up and processed.
    method FillBuffer(ghost m: seq<Byte>, ghost done: nat, left: nat, input: seq<Byte>) returns (ghost done': nat)
      requires Midway(m, done, left, input) && left > 0 && left + |input| >= 64
      modifies state, buffer
      ensures Midway(m, done', 0, input[64 - left..])
    {
      hide RegsAre, Fold;
      var fill := 64 - left;
      ghost var regs := state[..];
      forall j | 0 <= j < fill {
        buffer[left + j] := input[j];
      }
      assert state[..] == regs;
      assert buffer[..] == m[done..][..64];
      assert m[done..][..64] == m[done..done + 64];
      FoldOneMore(m, done);
      Process(state, buffer[..], Fold(INITIAL, m[..done]));
      done' := done + 64;
      assert m[done'..] == m[done..][64..];
    }

    // A whole block is processed straight from the input.
    method OneBlock(ghost m: seq<Byte>, ghost done: nat, input: seq<Byte>) returns (ghost done': nat)
      requires Midway(m, done, 0, input) && |input| >= 64
      modifies state
      ensures Midway(m, done', 0, input[64..])
    {
      hide RegsAre, Fold;
      assert m[done..] == input;
      assert input[..64] == m[done..done + 64];
      FoldOneMore(m, done);
      Process(state, input[..64], Fold(INITIAL, m[..done]));
      done' := done + 64;
      assert m[done'..] == input[64..];
    }

    // The last bytes wait in the buffer.
    method Keep(ghost m: seq<Byte>, ghost done: nat, left: nat, input: seq<Byte>)
      requires Midway(m, done, left, input) && left + |input| < 64
      modifies buffer
      ensures Midway(m, |m| - |m| % 64, |m| % 64, [])
    {
      hide RegsAre, Fold;
      assert |m[done..]| == left + |input|;
      ghost var regs := state[..];
      if |input| > 0 {
        forall j | 0 <= j < |input| {
          buffer[left + j] := input[j];
        }
      }
      assert state[..] == regs;
      assert |m| % 64 == left + |input|;
      assert buffer[..left + |input|] == m[done..];
    }

    // The length field of sha1_finish
    method MessageLength() returns (msglen: seq<Byte>)
      requires Valid()
      ensures msglen == Word64Bytes(8 * (total0 + total1 * WORD))
    {
      hide *;
      var high := total0 / 0x2000_0000 + total1 * 8;
      var low := total0 * 8;
      msglen := PutBE(high) + PutBE(low);
      assert total0 < WORD by { LengthInRange(); }
      LengthField(total0, total1);
    }

    lemma LengthInRange()
      requires Valid()
      ensures total0 < WORD
    {}

    // sha1_finish.  The digest is that of the standard for the length field that
    // total[] holds, so it is the message digest when the bytes were counted.
    method Finish() returns (output: Id)
      requires Valid()
      modifies this, state, buffer
      ensures var m := old(absorbed);
        output == Digest(Fold(INITIAL, Padded(m, 8 * (old(total0) + old(total1) * WORD))))
      ensures old(Counted()) ==> output == Sha1(old(absorbed))
    {
      hide RegsAre, Fold, Word64Bytes, Zeros;
      ghost var m, bits := absorbed, 8 * (total0 + total1 * WORD);
      var msglen := MessageLength();
      var last := total0 % 64;
      var padn := if last < 56 then 56 - last else 120 - last;
      CountModBlock(|m|, total0);
      Update(PADDING[..padn]);
      PaddingIsZeros(padn);
      Update(msglen);
      assert absorbed == Padded(m, bits) by {
        assert padn == PadLength(|m|);
      }
      assert Whole(absorbed) == absorbed;
      output := PutState(state[..]);
      PutStateIsDigest(state[..], Fold(INITIAL, absorbed));
    }
  }

  // sha1_padding
  const PADDING: seq<Byte> := [0x80] + Zeros(63)

  lemma PaddingIsZeros(n: nat)
    requires 1 <= n <= 64
    ensures PADDING[..n] == [0x80] + Zeros(n - 1)
  {
    assert |PADDING[..n]| == n;
  }

  // PUT_ULONG_BE: the low 32 bits of n, most significant byte first.
  function PutBE(n: nat): (b: seq<Byte>)
    ensures |b| == 4
  {
    [LowByte(n / 0x100_0000), LowByte(n / 0x1_0000), LowByte(n / 0x100), LowByte(n)]
  }

  // high and low, byte by byte, are the 64-bit number of bits.
  lemma LengthField(total0: nat, total1: nat)
    requires total0 < WORD
    ensures PutBE(total0 / 0x2000_0000 + total1 * 8) + PutBE(total0 * 8)
         == Word64Bytes(8 * (total0 + total1 * WORD))
  {
    hide LowByte;
    BitCount(total0, total1);
    HighBytes(8 * (total0 + total1 * WORD));
    LowBytes(total0 * 8, total1 * 8);
  }

  lemma BitCount(total0: nat, total1: nat)
    requires total0 < WORD
    ensures var n := 8 * (total0 + total1 * WORD);
      n == total0 * 8 + total1 * 8 * WORD && n / 0x1_0000_0000 == total0 / 0x2000_0000 + total1 * 8
  {}

  lemma HighBytes(n: nat)
    ensures n / 0x1_0000_0000 / 0x100 == n / 0x100_0000_0000
    ensures n / 0x1_0000_0000 / 0x1_0000 == n / 0x1_0000_0000_0000
    ensures n / 0x1_0000_0000 / 0x100_0000 == n / 0x100_0000_0000_0000
  {}

  lemma LowBytes(low: nat, k: nat)
    ensures LowByte(low + k * WORD) == LowByte(low)
    ensures LowByte((low + k * WORD) / 0x100) == LowByte(low / 0x100)
    ensures LowByte((low + k * WORD) / 0x1_0000) == LowByte(low / 0x1_0000)
    ensures LowByte((low + k * WORD) / 0x100_0000) == LowByte(low / 0x100_0000)
  {
    hide LowByte;
    assert (low + k * WORD) / 0x100 == low / 0x100 + k * 0x1_0000 * 256;
    assert (low + k * WORD) / 0x1_0000 == low / 0x1_0000 + k * 0x100 * 256;
    assert (low + k * WORD) / 0x100_0000 == low / 0x100_0000 + k * 256;
    WholeBytes(low / 0x100, k * 0x1_0000);
    WholeBytes(low / 0x1_0000, k * 0x100);
    WholeBytes(low / 0x100_0000, k);
    WholeBytes(low, k * 0x100_0000);
  }

  lemma WholeBytes(n: nat, k: nat)
    ensures LowByte(n + k * 256) == LowByte(n)
  {
    assert (n + k * 256) % 256 == n % 256;
  }

  // PUT_ULONG_BE of a word of the state
  function PutLong(x: Long): (b: seq<Byte>)
    ensures |b| == 4
  {
    [((x >> 24) & 0xFF) as bv8, ((x >> 16) & 0xFF) as bv8, ((x >> 8) & 0xFF) as bv8, (x & 0xFF) as bv8]
  }

  lemma PutLowWord(x: Long)
    ensures PutLong(x) == WordBytes((x & 0xFFFFFFFF) as bv32)
  {}

  lemma PutLow(x: Long, w: Word)
    requires LowIs(x, w)
    ensures PutLong(x) == WordBytes(w)
  {
    hide PutLong, WordBytes;
    PutLowWord(x);
  }

  function PutState(s: seq<Long>): Id
    requires |s| == 5
  {
    PutLong(s[0]) + PutLong(s[1]) + PutLong(s[2]) + PutLong(s[3]) + PutLong(s[4])
  }

  lemma PutStateIsDigest(s: seq<Long>, h: Regs)
    requires |s| == 5 && RegsAre(s, h)
    ensures PutState(s) == Digest(h)
  {
    hide LowIs, PutLong, WordBytes;
    PutLow(s[0], h.a);
    PutLow(s[1], h.b);
    PutLow(s[2], h.c);
    PutLow(s[3], h.d);
    PutLow(s[4], h.e);
  }

  lemma CountModBlock(n: nat, total0: nat)
    requires total0 == n % WORD
    ensures total0 % 64 == n % 64
  {
    assert n == n / WORD * WORD + total0;
    assert n / WORD * WORD == 64 * (n / WORD * 0x400_0000);
  }

  lemma FoldOneMore(m: seq<Byte>, done: nat)
    requires done % 64 == 0 && done + 64 <= |m|
    ensures Fold(INITIAL, m[..done + 64]) == Compress(Fold(INITIAL, m[..done]), m[done..done + 64])
  {
    hide Compress;
    assert m[..done + 64][..done] == m[..done];
    assert m[..done + 64][done..] == m[done..done + 64];
  }

  // total[0] and total[1] after n bytes, when ilen more come in.
  lemma CountBytes(n: nat, ilen: nat, total0: nat, total1: nat)
    requires total0 == n % WORD && total1 <= n / WORD && ilen > 0
    ensures var t0 := (total0 + ilen) % WORD;
      var t1 := if t0 < ilen then total1 + 1 else total1;
      && t0 == (n + ilen) % WORD && t1 <= (n + ilen) / WORD
      && (t1 == (n + ilen) / WORD <==> total1 == n / WORD && total0 + ilen < 2 * WORD)
  {
    var q, s := n / WORD, total0 + ilen;
    assert n == q * WORD + total0;
    assert n + ilen == q * WORD + s;
    var r := s / WORD;
    assert s == r * WORD + s % WORD;
    assert n + ilen == (q + r) * WORD + s % WORD;
    DivModUnique(n + ilen, q + r, s % WORD);
  }

  lemma DivModUnique(n: nat, q: nat, r: nat)
    requires n == q * WORD + r && r < WORD
    ensures n / WORD == q && n % WORD == r
  {}

  lemma InitialState(s: seq<Long>)
    requires s == [0x67452301, 0xEFCDAB89, 0x98BADCFE, 0x10325476, 0xC3D2E1F0]
    ensures RegsAre(s, INITIAL)
  {}

  ghost predicate SmallChunks(chunks: seq<seq<Byte>>)
  {
    forall i | 0 <= i < |chunks| :: |chunks[i]| < WORD
  }

  function Concat(chunks: seq<seq<Byte>>): seq<Byte>
  {
    if chunks == [] then [] else Concat(chunks[..|chunks| - 1]) + chunks[|chunks| - 1]
  }

  // However a message is cut into chunks shorter than 2^32 bytes, the streamed
  // digest is the message digest of the standard.
  method Stream(chunks: seq<seq<Byte>>) returns (output: Id)
    requires SmallChunks(chunks)
    ensures output == Sha1(Concat(chunks))
  {
    hide SmallChunks, Sha1, RegsAre, Fold;
    var ctx := new Context();
    for i := 0 to |chunks|
      invariant ctx.Valid() && ctx.Counted() && ctx.absorbed == Concat(chunks[..i])
      invariant fresh(ctx) && fresh(ctx.state) && fresh(ctx.buffer)
    {
      SmallChunk(chunks, i);
      ctx.Update(chunks[i]);
    }
    assert chunks[..|chunks|] == chunks;
    output := ctx.Finish();
  }

  lemma SmallChunk(chunks: seq<seq<Byte>>, i: nat)
    requires SmallChunks(chunks) && i < |chunks|
    ensures forall n: nat :: n % WORD + |chunks[i]| < 2 * WORD
    ensures Concat(chunks[..i + 1]) == Concat(chunks[..i]) + chunks[i]
  {
    assert chunks[..i + 1][..i] == chunks[..i];
  }

  // sha1, the one-shot function.
  method Hash(input: seq<Byte>) returns (output: Id)
    ensures |input| < 2 * WORD ==> output == Sha1(input)
  {
    var ctx := new Context();
    hide RegsAre, Fold, Sha1;
    ctx.Update(input);
    assert [] + input == input;
    output := ctx.Finish();
  }
}
