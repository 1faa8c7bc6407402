# Tiger hash (`tiger_hash`, tiger.h) in Dafny

A model of the `tiger_hash` class of `tiger.h`, the original Tiger hash of
Anderson and Biham (1996) with `0x01` padding. The model has three parts:

- the 64-bit word arithmetic and its little-endian byte layout;
- the key schedule, the round and the pass, and the block compression;
- the streaming object's construction, `reset`, `update` and `save`.

Modules follow the structure of the class:

| file | module | models |
|---|---|---|
| words.dfy | `Words` | `uint64_t` arithmetic wrapping modulo 2^64 as `bv64`, and `le64toh` / `htole64` as an explicit little-endian codec |
| sbox.dfy | `Sbox` | the shape of the substitution table `sandbox` and how a round indexes it |
| schedule.dfy | `Schedule` | `key_schedule` and its inverse |
| rounds.dfy | `Rounds` | `round<MUL>` and `pass<MUL>` |
| compression.dfy | `Compression` | the private block `update(const uint64_t*)` |
| stream.dfy | `Stream` | constructor, `reset`, public `update(const void*, size_t)`, `save` |
| tiger.dfy | `Tiger` | the streaming layer instantiated with Tiger's block compression |

The table's contents are not in the modelled file, so every operation that
reads it takes the table as a parameter `T`.

The streaming layer is written for any block compressor
`(Regs, Chunk) -> Regs`. `Tiger.TigerCompressor(T)` is the block `update`
plugged into it. The padding, buffering and chaining results therefore hold
for Tiger's compressor in particular.

The object's state is a `Hasher`. It holds:

- the registers `a, b, c`;
- the waiting bytes, i.e. the first `temp_size` bytes of `temp`;
- the byte count `data_size`.

`Stream.Feed` states what streaming means: the registers are the compressor
folded (`Chain`) over the whole 64-byte chunks of everything fed, and the
buffer holds the remaining bytes (`Tail`). `Stream.Update` follows the
source's branches and loop, and is proved to compute `Feed`.

## Model

| member | source | states |
|---|---|---|
| Words.XorXor | tiger.h:19 | XOR-ing the same word in twice restores it, which is how each `^=` step of the key schedule and the round's `c ^= x` can be undone |
| Words.PlusMinus | tiger.h:18 | adding back what a `-=` step subtracted restores the word (wrapping modulo 2^64) |
| Words.MinusPlus | tiger.h:20 | subtracting what a `+=` step added restores the word (wrapping modulo 2^64) |
| Words.DecodeBlock | tiger.h:67-70 | the local block read from a 64-byte chunk (word `i` from bytes `8i..8i+7`, lowest byte first) is the one block whose little-endian encoding is that chunk |
| Words.DecodeEncodeBlock | tiger.h:67-70 | reading back the little-endian encoding of eight words gives the same eight words |
| Words.DecodeEncode | tiger.h:69 | `le64toh` recovers any word written with `htole64` |
| Words.EncodeDecode | tiger.h:69 | writing back a word read from eight bytes reproduces those bytes |
| Sbox.Index | tiger.h:40-49 | every table index a round forms, `256*group + byte`, lies in `[0, 1024)` and determines its group and byte |
| Sbox.EvenMixReadsEvenBytes | tiger.h:39-43 | the value subtracted from `a` depends only on bytes 0, 2, 4, 6 of the new `c` |
| Sbox.OddMixReadsOddBytes | tiger.h:45-49 | the value added to `b` depends only on bytes 1, 3, 5, 7 of the new `c` |
| Schedule.InverseAfterKeySchedule | tiger.h:17-34 | undoing the 16 steps in reverse order recovers the block the key schedule was applied to |
| Schedule.KeyScheduleAfterInverse | tiger.h:17-34 | the key schedule applied to the reverse recurrence's output gives back its input |
| Schedule.KeyScheduleInverse | tiger.h:17-34 | the key schedule is a permutation of 8-word blocks: both compositions with its inverse are the identity |
| Rounds.MultiplierInjective | tiger.h:51 | `b *= MUL` for MUL 5, 7 or 9 is injective modulo 2^64 |
| Rounds.RoundInjective | tiger.h:37-52 | for a fixed table, block word and multiplier, a round maps distinct register triples to distinct triples |
| Rounds.RotateThrice | tiger.h:56-58 | the role order `(a,b,c)`, `(b,c,a)`, `(c,a,b)` returns to the start after three rounds |
| Rounds.PassIsRounds | tiger.h:55-64 | a pass consists of exactly eight rounds on block words 0..7 in order, round `i` seeing the registers with roles turned `i` times |
| Rounds.PassInjective | tiger.h:55-64 | for a fixed block and multiplier, a pass maps distinct register triples to distinct triples |
| Compression.EncipherInjective | tiger.h:73-77 | the three passes with key schedules between them, started from `(a,b,c)`, `(c,a,b)` and `(b,c,a)`, map distinct register triples to distinct triples for a fixed block |
| Compression.FeedForwardUndone | tiger.h:71-80 | given the registers saved on entry, the feed-forward `a ^= aa; b -= bb; c += cc` can be taken off again |
| Compression.CompressReadsLittleEndian | tiger.h:66-81 | compressing the little-endian encoding of a block runs the passes on exactly that block and then feeds forward |
| Compression.ChunkDeterminesBlock | tiger.h:67-70 | distinct 64-byte chunks are read as distinct blocks, so no input byte is lost |
| Tiger.TigerCompressorReadsBlocks | tiger.h:66-81 | the compressor the streaming layer calls is the block `update`, reading its chunk as little-endian words |
| Stream.Init | tiger.h:84-88 | a fresh object holds no waiting bytes, and feeding it nothing leaves it unchanged |
| Stream.Reset | tiger.h:90-96 | `reset` puts any object into exactly the state of a freshly constructed one |
| Stream.Tail | tiger.h:114-124 | the bytes left waiting number the input length modulo 64 |
| Stream.TailIsSuffix | tiger.h:114-124 | the bytes left waiting are the last `len mod 64` bytes of everything fed |
| Stream.ChainAppend | tiger.h:98-125 | compressing the chunks of `m ++ q` is compressing those of `m`, then those of `m`'s leftover followed by `q`, and the leftover is the same either way |
| Stream.Feed | tiger.h:98-125 | after streaming, fewer than 64 bytes wait |
| Stream.Update | tiger.h:98-125 | `update` tops up and compresses a partial buffer, compresses whole chunks, and buffers the rest; it keeps fewer than 64 bytes waiting, grows the count by exactly the bytes given, and ends in the state `Feed` describes |
| Stream.FeedNothing | tiger.h:98-125 | an `update` of zero bytes changes nothing |
| Stream.FeedComposes | tiger.h:98-125 | feeding `m1` and then `m2` gives the state feeding `m1 ++ m2` gives |
| Stream.FeedAllIsFeedConcat | tiger.h:98-125 | after any sequence of `update` calls the registers are the compression folded over the whole chunks of all bytes fed, and the buffer holds the bytes after them |
| Stream.FeedFromInit | tiger.h:84-125 | a fresh object fed `m` holds the chain over `m` from the initial registers, `m`'s leftover bytes, and `|m|` |
| Stream.LengthWordWraps | tiger.h:133-139 | the length word `data_size << 3` depends only on the byte count modulo 2^64 |
| Stream.SerializeRoundTrip | tiger.h:144-147 | the 24 digest bytes are `a`, `b`, `c` each little-endian, and they determine the registers and are determined by them |
| Stream.Save | tiger.h:128-148 | `save` writes 24 bytes |
| Stream.PadZeros | tiger.h:129-140 | the `0x01`, the zero fill and the 8-byte length take the waiting bytes to one chunk boundary when fewer than 56 bytes wait, and to the next one otherwise |
| Stream.Padding | tiger.h:129-140 | the padding starts with `0x01`, is zero up to its last 8 bytes, and those hold `data_size << 3` little-endian |
| Stream.SaveIsPaddedChain | tiger.h:128-148 | `save` compresses the waiting bytes with their padding: one chunk when fewer than 56 bytes wait, two chunks otherwise, with nothing left over |
| Stream.MessagePadding | tiger.h:128-148 | the padding of an `n`-byte message completes it to whole 64-byte chunks |
| Stream.LeftoverPadding | tiger.h:128-148 | the padding `save` adds to the leftover bytes is the message padding, and chaining over it completes the chain over message and padding |
| Stream.DigestIsPaddedChain | tiger.h:84-148 | the digest of everything fed to a fresh object is the compressor folded from the initial registers over the message followed by its padding |
| Stream.Hash | tiger.h:84-148 | construction, any number of `update` calls, then `save`, gives the padded-chain digest of all the pieces together |
| Stream.DigestIgnoresSplitting | tiger.h:98-148 | the digest does not depend on how the input was cut into `update` calls |

## Left out

- Contents of `sandbox`: the table is declared at tiger.h:11, but its values are not part of this model. It is a parameter, so published test vectors (for example the digest of the empty string) are not stated.
- Host byte order: `le64toh` / `htole64` are modelled as explicit little-endian decoding and encoding. The result is the same on every host.
- Raw memory handling: the `uint64_t*` cast of possibly unaligned input (tiger.h:118), `memcpy` and `memset` are modelled as slicing and concatenating byte sequences.
- Template specialisation of `MUL`: the multiplier is an ordinary parameter, fixed to 5, 7 and 9 where the compression calls a pass.
- Rounds.RoundInjective: states that a round is injective rather than giving its explicit inverse. Multiplication by the inverses of 5, 7 and 9 modulo 2^64 costs the bit-vector solver too much to prove, so the inverse function is not part of the model.
- Caller misuse: calling `save` twice without `reset`, and a digest buffer shorter than 24 bytes, have no defined result. `save` is modelled as a function of the state and does not model the object it leaves behind: the padded `temp`, or the zeroed `temp` in the two-chunk case, with `temp_size` and `data_size` unchanged.
- Bytes of `temp` past `temp_size`: the buffer is modelled as its valid prefix. `save` overwrites every byte after `temp_size`, and `update` never reads past it.
- `size_t` width: `data_size` is an exact count. It is reduced modulo 2^64 where `save` reads it, as a 64-bit `size_t` would hold it. On a target with a 32-bit `size_t` the length word would differ for inputs of 2^29 bytes or more; that target is not modelled.
- Cryptographic claims such as collision resistance are not properties of the code and are not stated.
