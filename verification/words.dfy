/**
 Machine words and their little-endian byte layout.

 Tiger works on unsigned 64-bit words whose arithmetic wraps modulo 2^64, which is
 exactly Dafny's `bv64`. Whatever the host byte order, a word is read from and
 written to memory little-endian (`le64toh` / `htole64` in tiger.h); this module
 states that layout explicitly as an encoder and a decoder over bytes.
 */
module Words {

  type Byte = bv8
  type Word = bv64

  /** `uint64_t` addition, wrapping modulo 2^64. */
  function Plus(u: Word, v: Word): Word
  {
    u + v
  }

  /** `uint64_t` subtraction, wrapping modulo 2^64. */
  function Minus(u: Word, v: Word): Word
  {
    u - v
  }

  /** `uint64_t` multiplication, wrapping modulo 2^64. */
  function Times(u: Word, v: Word): Word
  {
    u * v
  }

  /** `uint64_t` exclusive or. */
  function Xor(u: Word, v: Word): Word
  {
    u ^ v
  }

  lemma XorNative(u: Word, v: Word)
    ensures Xor(u ^ v, v) == u
  {
  }

  /** XOR-ing the same word twice restores the word. */
  lemma XorXor(u: Word, v: Word)
    ensures Xor(Xor(u, v), v) == u
  {
    XorNative(u, v);
  }

  lemma PlusMinusNative(u: Word, v: Word)
    ensures Plus(u - v, v) == u
  {
  }

  lemma MinusPlusNative(u: Word, v: Word)
    ensures Minus(u + v, v) == u
  {
  }

  /** Adding back what was subtracted restores the word. */
  lemma PlusMinus(u: Word, v: Word)
    ensures Plus(Minus(u, v), v) == u
  {
    PlusMinusNative(u, v);
  }

  /** Subtracting what was added restores the word. */
  lemma MinusPlus(u: Word, v: Word)
    ensures Minus(Plus(u, v), v) == u
  {
    MinusPlusNative(u, v);
  }

  /** An 8-word block, the unit the key schedule and the passes work on. */
  type Block = x: seq<Word> | |x| == 8 witness [0, 0, 0, 0, 0, 0, 0, 0]

  /** A 64-byte chunk of input, the unit the compression function consumes. */
  type Chunk = c: seq<Byte> | |c| == 64 witness seq(64, _ => 0)

  /** `n` zero bytes. */
  function Zeros(n: nat): (z: seq<Byte>)
    ensures |z| == n
    ensures forall i :: 0 <= i < n ==> z[i] == 0
  {
    seq(n, _ => 0)
  }

  /** Byte `k` of `w` by bit position, `(w >> 8k) & 0xFF`: byte 0 holds bits 0-7
      and byte 7 bits 56-63. */
  function ByteOf(w: Word, k: nat): Byte
    requires k < 8
  {
    if k == 0 then (w & 0xFF) as Byte
    else if k == 1 then ((w >> 8) & 0xFF) as Byte
    else if k == 2 then ((w >> 16) & 0xFF) as Byte
    else if k == 3 then ((w >> 24) & 0xFF) as Byte
    else if k == 4 then ((w >> 32) & 0xFF) as Byte
    else if k == 5 then ((w >> 40) & 0xFF) as Byte
    else if k == 6 then ((w >> 48) & 0xFF) as Byte
    else ((w >> 56) & 0xFF) as Byte
  }

  /** The eight bytes `htole64(w)` leaves in memory: byte `k` of `w` at offset `k`. */
  function Le64Encode(w: Word): (b: seq<Byte>)
    ensures |b| == 8
  {
    [ByteOf(w, 0), ByteOf(w, 1), ByteOf(w, 2), ByteOf(w, 3),
     ByteOf(w, 4), ByteOf(w, 5), ByteOf(w, 6), ByteOf(w, 7)]
  }

  /** Offset `k` of the encoding holds byte `k`. */
  lemma Le64EncodeAt(w: Word, k: nat)
    requires k < 8
    ensures Le64Encode(w)[k] == ByteOf(w, k)
  {
  }

  /** The word `le64toh` reads from eight bytes of memory, lowest byte first. */
  function Le64Decode(b: seq<Byte>): Word
    requires |b| == 8
  {
    (b[0] as Word)
    | ((b[1] as Word) << 8)
    | ((b[2] as Word) << 16)
    | ((b[3] as Word) << 24)
    | ((b[4] as Word) << 32)
    | ((b[5] as Word) << 40)
    | ((b[6] as Word) << 48)
    | ((b[7] as Word) << 56)
  }

  /** Reading back a written word gives the word. */
  lemma DecodeEncode(w: Word)
    ensures Le64Decode(Le64Encode(w)) == w
  {
  }

  /** Writing a read word gives back the same eight bytes. */
  lemma EncodeDecode(b: seq<Byte>)
    requires |b| == 8
    ensures Le64Encode(Le64Decode(b)) == b
  {
  }

  /** The 64 bytes holding the eight words of `x`, each little-endian. */
  function EncodeBlock(x: Block): (chunk: seq<Byte>)
    ensures |chunk| == 64
  {
    seq(64, j requires 0 <= j < 64 => ByteOf(x[j / 8], j % 8))
  }

  /** The local copy the block compression makes of a 64-byte chunk (word `i` is
      bytes `8i .. 8i+7` read little-endian); it is the one block whose encoding
      is the chunk, so every input byte lands in exactly one place. */
  function DecodeBlock(chunk: seq<Byte>): (x: Block)
    requires |chunk| == 64
    ensures EncodeBlock(x) == chunk
  {
    var x: Block := seq(8, i requires 0 <= i < 8 => Le64Decode(chunk[8 * i .. 8 * i + 8]));
    forall j | 0 <= j < 64
      ensures EncodeBlock(x)[j] == chunk[j]
    {
      var i, k := j / 8, j % 8;
      EncodeDecode(chunk[8 * i .. 8 * i + 8]);
      Le64EncodeAt(x[i], k);
      assert chunk[8 * i .. 8 * i + 8][k] == chunk[j];
    }
    x
  }

  /** Word `i` of a block occupies bytes `8i .. 8i+7` of its encoding. */
  lemma EncodeBlockSlice(x: Block, i: nat)
    requires i < 8
    ensures EncodeBlock(x)[8 * i .. 8 * i + 8] == Le64Encode(x[i])
  {
    var c := EncodeBlock(x);
    forall k | 0 <= k < 8
      ensures c[8 * i .. 8 * i + 8][k] == Le64Encode(x[i])[k]
    {
      assert (8 * i + k) / 8 == i && (8 * i + k) % 8 == k;
    }
  }

  /** Encoding eight words and decoding them again restores the words. */
  lemma DecodeEncodeBlock(x: Block)
    ensures DecodeBlock(EncodeBlock(x)) == x
  {
    var y := DecodeBlock(EncodeBlock(x));
    forall i | 0 <= i < 8
      ensures y[i] == x[i]
    {
      EncodeBlockSlice(x, i);
      EncodeBlockSlice(y, i);
      DecodeEncode(y[i]);
      DecodeEncode(x[i]);
    }
  }
}
