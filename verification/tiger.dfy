/**
 The whole `tiger_hash` object: the streaming layer with Tiger's own block
 compression, for a given substitution table.
 */
module Tiger {
  import opened Words
  import opened Sbox
  import opened Rounds
  import opened Compression
  import opened Stream

  /** The private block `update` of tiger.h:66-81 as the compressor the public
      `update` and `save` call. */
  function TigerCompressor(T: Table): Compressor
  {
    (s: Regs, chunk: Chunk) => Compress(T, s, chunk)
  }

  /** Tiger's compressor reads its chunk as eight little-endian words: on the
      encoding of a block it runs the three passes on that block and feeds the
      saved registers forward. */
  lemma TigerCompressorReadsBlocks(T: Table, s: Regs, x: Block)
    ensures TigerCompressor(T)(s, EncodeBlock(x)) == FeedForward(s, Encipher(T, s, x))
  {
    CompressReadsLittleEndian(T, s, x);
  }
}
