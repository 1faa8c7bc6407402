/**
 The public face of `tiger_hash` (tiger.h:83-148): construction and `reset`,
 the streaming `update(const void*, size_t)` and the finalising `save`.

 A `Hasher` holds the registers `a, b, c`, the bytes waiting in the 64-byte
 buffer `temp` (its first `temp_size` bytes; the rest of `temp` is never read
 before it is overwritten) and the byte count `data_size`.

 `Feed` is the specification of streaming: the registers are the compression
 function folded over the whole 64-byte chunks of everything fed so far, the
 buffer holds the bytes after the last whole chunk, and the count grows by
 the length fed. `Update` follows the source branch by branch and loop by loop
 and is proved to compute `Feed`; `save` is then the classic Merkle-Damgard
 finalisation of all bytes fed.
 */
module Stream {
  import opened Words
  import opened Rounds

  /** A block compression: the registers and one 64-byte chunk of input give the
      new registers. Streaming and padding do not depend on which one; Tiger's
      is `Compress` of tiger.h:66-81, plugged in by the `Tiger` module. */
  type Compressor = (Regs, Chunk) -> Regs

  /** Registers, waiting bytes (`temp[0 .. temp_size)`) and `data_size`. */
  datatype Hasher = Hasher(regs: Regs, buffer: seq<Byte>, count: nat)

  /** `temp_size` stays below 64: a full buffer is always compressed at once. */
  predicate Valid(h: Hasher)
  {
    |h.buffer| < 64
  }

  /** The initial registers of tiger.h:85-87 and tiger.h:91-93. */
  const IV: Regs := Regs(0x0123456789ABCDEF, 0xFEDCBA9876543210, 0xF096A5B4C3B2E187)

  /** The compression function folded over the whole 64-byte chunks of `m`, in
      order; trailing bytes that do not fill a chunk are not compressed. */
  function Chain(C: Compressor, s: Regs, m: seq<Byte>): Regs
    decreases |m|
  {
    if |m| < 64 then s else Chain(C, C(s, m[..64]), m[64..])
  }

  /** The bytes of `m` after its last whole 64-byte chunk. */
  function Tail(m: seq<Byte>): (t: seq<Byte>)
    ensures |t| == |m| % 64
    decreases |m|
  {
    if |m| < 64 then m else Tail(m[64..])
  }

  /** The leftover bytes are the last `|m| % 64` bytes of `m`. */
  lemma {:induction false} TailIsSuffix(m: seq<Byte>)
    ensures Tail(m) == m[|m| - |m| % 64..]
    decreases |m|
  {
    if |m| >= 64 {
      TailIsSuffix(m[64..]);
      assert m[64..][|m| - 64 - (|m| - 64) % 64..] == m[|m| - |m| % 64..];
    }
  }

  /** Feeding `m` and then `q` compresses the whole chunks of `m`, and then the
      whole chunks of whatever of `m` was left over followed by `q`. */
  lemma {:induction false} ChainAppend(C: Compressor, s: Regs, m: seq<Byte>, q: seq<Byte>)
    ensures Chain(C, s, m + q) == Chain(C, Chain(C, s, m), Tail(m) + q)
    ensures Tail(m + q) == Tail(Tail(m) + q)
    decreases |m|
  {
    if |m| >= 64 {
      assert (m + q)[..64] == m[..64];
      assert (m + q)[64..] == m[64..] + q;
      ChainAppend(C, C(s, m[..64]), m[64..], q);
    }
  }

  /** The state after feeding `data` to `h`: what streaming is meant to compute. */
  function Feed(C: Compressor, h: Hasher, data: seq<Byte>): (r: Hasher)
    ensures Valid(r)
  {
    Hasher(Chain(C, h.regs, h.buffer + data), Tail(h.buffer + data), h.count + |data|)
  }

  /** The constructor of tiger.h:84-88. */
  function Init(): (h: Hasher)
    ensures Valid(h)
    ensures forall C: Compressor :: Feed(C, h, []) == h
  {
    Hasher(IV, [], 0)
  }

  /** `reset` of tiger.h:90-96 puts any object into the state of a freshly
      constructed one. */
  function Reset(h: Hasher): (r: Hasher)
    ensures r == Init()
  {
    Hasher(Regs(0x0123456789ABCDEF, 0xFEDCBA9876543210, 0xF096A5B4C3B2E187), [], 0)
  }

  /** Feeding nothing changes nothing (the `size == 0` call of tiger.h:98-125). */
  lemma FeedNothing(C: Compressor, h: Hasher)
    requires Valid(h)
    ensures Feed(C, h, []) == h
  {
    assert h.buffer + [] == h.buffer;
  }

  /** Feeding `m1` and then `m2` gives the state feeding `m1 + m2` gives: the
      state does not depend on how the input is cut into calls. */
  lemma FeedComposes(C: Compressor, h: Hasher, m1: seq<Byte>, m2: seq<Byte>)
    requires Valid(h)
    ensures Feed(C, Feed(C, h, m1), m2) == Feed(C, h, m1 + m2)
  {
    ChainAppend(C, h.regs, h.buffer + m1, m2);
    assert h.buffer + m1 + m2 == h.buffer + (m1 + m2);
  }

  /** The streaming `update` of tiger.h:98-125. A partial buffer is topped up
      and compressed when `data` can fill it, or else just extended; then whole
      64-byte chunks are compressed straight from `data` and the rest is
      buffered. */
  method Update(C: Compressor, h: Hasher, data: seq<Byte>) returns (r: Hasher)
    requires Valid(h)
    ensures Valid(r) && r.count == h.count + |data|
    ensures r == Feed(C, h, data)
  {
    var regs, buffer, count := h.regs, h.buffer, h.count;
    var rest := data;
    if |buffer| != 0 {
      var need := 64 - |buffer|;
      if |rest| >= need {
        assert (h.buffer + data)[..64] == h.buffer + data[..need];
        assert (h.buffer + data)[64..] == data[need..];
        regs := C(regs, buffer + rest[..need]);
        rest := rest[need..];
        count := count + need;
        buffer := [];
      } else {
        r := Hasher(regs, buffer + rest, count + |rest|);
        return;
      }
    } else {
      assert h.buffer + data == data;
    }
    while |rest| >= 64
      invariant buffer == []
      invariant Chain(C, regs, rest) == Chain(C, h.regs, h.buffer + data)
      invariant Tail(rest) == Tail(h.buffer + data)
      invariant count + |rest| == h.count + |data|
      decreases |rest|
    {
      regs := C(regs, rest[..64]);
      count := count + 64;
      rest := rest[64..];
    }
    r := Hasher(regs, buffer + rest, count + |rest|);
  }

  /** The state after feeding the pieces of `parts` one call at a time. */
  function FeedAll(C: Compressor, h: Hasher, parts: seq<seq<Byte>>): Hasher
    decreases |parts|
  {
    if |parts| == 0 then h else FeedAll(C, Feed(C, h, parts[0]), parts[1..])
  }

  /** All the pieces one after another. */
  function Concat(parts: seq<seq<Byte>>): (m: seq<Byte>)
    decreases |parts|
  {
    if |parts| == 0 then [] else parts[0] + Concat(parts[1..])
  }

  /** After any sequence of `update` calls from a valid state, the state is that
      of one call on all the bytes together: the registers are the compression
      function folded over the whole chunks of all bytes fed, and the buffer
      holds the bytes after them. */
  lemma {:induction false} FeedAllIsFeedConcat(C: Compressor, h: Hasher, parts: seq<seq<Byte>>)
    requires Valid(h)
    ensures FeedAll(C, h, parts) == Feed(C, h, Concat(parts))
    decreases |parts|
  {
    if |parts| == 0 {
      FeedNothing(C, h);
    } else {
      FeedAllIsFeedConcat(C, Feed(C, h, parts[0]), parts[1..]);
      FeedComposes(C, h, parts[0], Concat(parts[1..]));
    }
  }

  /** `data_size << 3` on a 64-bit `size_t`: the bit count modulo 2^64 (the
      byte count wraps modulo 2^64 and the shift drops the top three bits). */
  function LengthWord(n: nat): Word
  {
    ((n % 0x1_0000_0000_0000_0000) as Word) << 3
  }

  /** The length word only sees the byte count modulo 2^64, as a wrapping
      64-bit `data_size` would hold it. */
  lemma LengthWordWraps(n: nat)
    ensures LengthWord(n + 0x1_0000_0000_0000_0000) == LengthWord(n)
  {
    assert (n + 0x1_0000_0000_0000_0000) % 0x1_0000_0000_0000_0000 == n % 0x1_0000_0000_0000_0000;
  }

  /** The 24 digest bytes: `a`, `b` and `c`, each little-endian (tiger.h:144-147). */
  function Serialize(r: Regs): (digest: seq<Byte>)
    ensures |digest| == 24
  {
    Le64Encode(r.a) + Le64Encode(r.b) + Le64Encode(r.c)
  }

  /** The registers a 24-byte digest was written from. */
  function Deserialize(digest: seq<Byte>): Regs
    requires |digest| == 24
  {
    Regs(Le64Decode(digest[..8]), Le64Decode(digest[8..16]), Le64Decode(digest[16..]))
  }

  /** The digest and the final registers determine each other. */
  lemma SerializeRoundTrip(r: Regs, digest: seq<Byte>)
    requires |digest| == 24
    ensures Deserialize(Serialize(r)) == r
    ensures Serialize(Deserialize(digest)) == digest
  {
    var d := Serialize(r);
    assert d[..8] == Le64Encode(r.a);
    assert d[8..16] == Le64Encode(r.b);
    assert d[16..] == Le64Encode(r.c);
    DecodeEncode(r.a);
    DecodeEncode(r.b);
    DecodeEncode(r.c);
    EncodeDecode(digest[..8]);
    EncodeDecode(digest[8..16]);
    EncodeDecode(digest[16..]);
    assert digest == digest[..8] + digest[8..16] + digest[16..];
  }

  /** `save` of tiger.h:128-148. The byte `0x01` goes right after the waiting
      bytes and zeros fill the buffer; if at least eight bytes remain for it,
      the last word of that block is the bit count and one block is compressed,
      otherwise the filled buffer is compressed and then a block of 56 zero
      bytes and the bit count. */
  function Save(C: Compressor, h: Hasher): (digest: seq<Byte>)
    requires Valid(h)
    ensures |digest| == 24
  {
    var temp := h.buffer + [0x01] + Zeros(63 - |h.buffer|);
    var length := Le64Encode(LengthWord(h.count));
    if |h.buffer| < 56 then
      Serialize(C(h.regs, temp[..56] + length))
    else
      var s := C(h.regs, temp);
      Serialize(C(s, Zeros(56) + length))
  }

  /** How many zero bytes follow the `0x01` when `waiting` bytes wait: up to
      eight bytes short of the end of this chunk, or of the next one when fewer
      than nine bytes are left in this one. */
  function PadZeros(waiting: nat): (z: nat)
    requires waiting < 64
    ensures (waiting + 1 + z + 8) == (if waiting < 56 then 64 else 128)
  {
    if waiting < 56 then 55 - waiting else 119 - waiting
  }

  /** The padding `save` appends to the waiting bytes: `0x01`, then zeros up to
      eight bytes short of a chunk boundary, then the bit count as a
      little-endian word. */
  function Padding(waiting: nat, count: nat): (p: seq<Byte>)
    requires waiting < 64
    ensures |p| == (if waiting < 56 then 64 else 128) - waiting
    ensures p[0] == 0x01
    ensures forall i :: 1 <= i < |p| - 8 ==> p[i] == 0
    ensures p[|p| - 8..] == Le64Encode(LengthWord(count))
  {
    [0x01] + Zeros(PadZeros(waiting)) + Le64Encode(LengthWord(count))
  }

  /** `save` compresses the waiting bytes followed by their padding: one block
      when fewer than 56 bytes wait, two otherwise, with nothing left over. */
  lemma SaveIsPaddedChain(C: Compressor, h: Hasher)
    requires Valid(h)
    ensures |h.buffer + Padding(|h.buffer|, h.count)| == (if |h.buffer| < 56 then 64 else 128)
    ensures Save(C, h) == Serialize(Chain(C, h.regs, h.buffer + Padding(|h.buffer|, h.count)))
  {
    var m := h.buffer + Padding(|h.buffer|, h.count);
    var temp := h.buffer + [0x01] + Zeros(63 - |h.buffer|);
    var length := Le64Encode(LengthWord(h.count));
    if |h.buffer| < 56 {
      assert m == temp[..56] + length;
      assert m[..64] == m && |m[64..]| == 0;
      assert Chain(C, h.regs, m) == Chain(C, C(h.regs, m), m[64..]);
    } else {
      assert m[..64] == temp;
      var rest := m[64..];
      assert rest == Zeros(56) + length;
      var s := C(h.regs, temp);
      assert Chain(C, h.regs, m) == Chain(C, s, rest);
      assert rest[..64] == rest && |rest[64..]| == 0;
      assert Chain(C, s, rest) == Chain(C, C(s, rest), rest[64..]);
    }
  }

  /** The padding of an `n`-byte message: `0x01`, zeros up to eight bytes
      short of a chunk boundary, and the bit count modulo 2^64; it completes
      the message to whole chunks. */
  function MessagePadding(n: nat): (p: seq<Byte>)
    ensures (n + |p|) % 64 == 0
  {
    var p := Padding(n % 64, n);
    assert n + |p| == 64 * (n / 64) + (if n % 64 < 56 then 64 else 128);
    p
  }

  /** A fresh object fed `m` holds the chain over `m`, its leftover bytes and
      its length. */
  lemma FeedFromInit(C: Compressor, m: seq<Byte>)
    ensures Feed(C, Init(), m) == Hasher(Chain(C, IV, m), Tail(m), |m|)
  {
    assert [] + m == m;
  }

  /** The padding `save` appends to the leftover bytes of `m` is the message
      padding of `m`, and chaining over it finishes the chain over `m` and the
      padding. */
  lemma LeftoverPadding(C: Compressor, m: seq<Byte>)
    ensures Padding(|Tail(m)|, |m|) == MessagePadding(|m|)
    ensures Chain(C, Chain(C, IV, m), Tail(m) + MessagePadding(|m|)) == Chain(C, IV, m + MessagePadding(|m|))
  {
    ChainAppend(C, IV, m, MessagePadding(|m|));
  }

  /** The digest of everything fed to a fresh object is the compression
      function folded from the initial registers over the message followed by
      its padding. */
  lemma DigestIsPaddedChain(C: Compressor, m: seq<Byte>)
    ensures Save(C, Feed(C, Init(), m)) == Serialize(Chain(C, IV, m + MessagePadding(|m|)))
  {
    var h := Feed(C, Init(), m);
    FeedFromInit(C, m);
    LeftoverPadding(C, m);
    SaveIsPaddedChain(C, h);
  }

  /** A fresh object, one `update` call per piece of `parts`, then `save`: the
      digest is that of the padded chain over all pieces together. */
  method Hash(C: Compressor, parts: seq<seq<Byte>>) returns (digest: seq<Byte>)
    ensures |digest| == 24
    ensures digest == Serialize(Chain(C, IV, Concat(parts) + MessagePadding(|Concat(parts)|)))
  {
    var h := Init();
    for i := 0 to |parts|
      invariant Valid(h)
      invariant FeedAll(C, h, parts[i..]) == FeedAll(C, Init(), parts)
    {
      assert parts[i..][1..] == parts[i + 1..];
      h := Update(C, h, parts[i]);
    }
    assert parts[|parts|..] == [];
    digest := Save(C, h);
    FeedAllIsFeedConcat(C, Init(), parts);
    DigestIsPaddedChain(C, Concat(parts));
  }

  /** The digest does not depend on how the input was cut into `update` calls. */
  lemma DigestIgnoresSplitting(C: Compressor, m1: seq<Byte>, m2: seq<Byte>)
    ensures Save(C, Feed(C, Feed(C, Init(), m1), m2)) == Save(C, Feed(C, Init(), m1 + m2))
  {
    FeedComposes(C, Init(), m1, m2);
  }
}
