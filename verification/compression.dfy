/**
 The Tiger compression function: the private block `update(const uint64_t*)`
 of tiger.h:66-81.

 A 64-byte chunk is read little-endian into a local block of eight words (the
 caller's bytes are never written). The registers go through three passes,
 with multipliers 5, 7 and 9, each starting from a different rotation of the
 registers and with the key schedule applied to the local block between them.
 A feed-forward then combines the result with the registers saved on entry.
 */
module Compression {
  import opened Words
  import opened Sbox
  import opened Schedule
  import opened Rounds

  /** The registers after the three passes of tiger.h:73-77, before the
      feed-forward. Each `Regs(..)` argument lists the registers in the order
      the source passes them; after each pass they are read back under their
      own names. */
  function Encipher(T: Table, s: Regs, x: Block): Regs
  {
    var p5 := Pass(T, 5, Regs(s.a, s.b, s.c), x);
    var x7 := KeySchedule(x);
    var p7 := Pass(T, 7, Regs(p5.c, p5.a, p5.b), x7);
    var x9 := KeySchedule(x7);
    var p9 := Pass(T, 9, Regs(p7.c, p7.a, p7.b), x9);
    Regs(p9.c, p9.a, p9.b)
  }

  /** The three passes lose no information about the registers: for a fixed
      message block, distinct register triples give distinct results. */
  lemma EncipherInjective(T: Table, s: Regs, s': Regs, x: Block)
    requires Encipher(T, s, x) == Encipher(T, s', x)
    ensures s == s'
  {
    var x7 := KeySchedule(x);
    var x9 := KeySchedule(x7);
    var p5 := Pass(T, 5, Regs(s.a, s.b, s.c), x);
    var p7 := Pass(T, 7, Regs(p5.c, p5.a, p5.b), x7);
    var q5 := Pass(T, 5, Regs(s'.a, s'.b, s'.c), x);
    var q7 := Pass(T, 7, Regs(q5.c, q5.a, q5.b), x7);
    PassInjective(T, 9, Regs(p7.c, p7.a, p7.b), Regs(q7.c, q7.a, q7.b), x9);
    PassInjective(T, 7, Regs(p5.c, p5.a, p5.b), Regs(q5.c, q5.a, q5.b), x7);
    PassInjective(T, 5, Regs(s.a, s.b, s.c), Regs(s'.a, s'.b, s'.c), x);
  }

  /** The feed-forward of tiger.h:78-80: `a ^= aa`, `b -= bb`, `c += cc`. */
  function FeedForward(saved: Regs, e: Regs): Regs
  {
    Regs(Xor(e.a, saved.a), Minus(e.b, saved.b), Plus(e.c, saved.c))
  }

  /** The feed-forward can be taken off again given the saved registers, so the
      compression output determines the output of the passes. */
  lemma FeedForwardUndone(saved: Regs, e: Regs)
    ensures var r := FeedForward(saved, e);
            Regs(Xor(r.a, saved.a), Plus(r.b, saved.b), Minus(r.c, saved.c)) == e
  {
    XorXor(e.a, saved.a);
    PlusMinus(e.b, saved.b);
    MinusPlus(e.c, saved.c);
  }

  /** The block `update` of tiger.h:66-81 on the registers `s` and one 64-byte
      chunk of input. */
  function Compress(T: Table, s: Regs, chunk: Chunk): Regs
  {
    FeedForward(s, Encipher(T, s, DecodeBlock(chunk)))
  }

  /** The chunk is read as eight little-endian words: compressing the encoding
      of a block runs the passes on exactly that block. */
  lemma CompressReadsLittleEndian(T: Table, s: Regs, x: Block)
    ensures Compress(T, s, EncodeBlock(x)) == FeedForward(s, Encipher(T, s, x))
  {
    DecodeEncodeBlock(x);
  }

  /** For fixed registers the result depends on the chunk only through its
      eight little-endian words, and distinct chunks give distinct words: every
      input byte reaches the passes. */
  lemma ChunkDeterminesBlock(chunk: Chunk, chunk': Chunk)
    requires DecodeBlock(chunk) == DecodeBlock(chunk')
    ensures chunk == chunk'
  {
  }
}
