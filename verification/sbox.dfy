/**
 The interface to Tiger's substitution table (`sandbox` in tiger.h).

 The table is 1024 words in four groups of 256; its values are published
 constants that live outside the modelled file, so the model takes the table as
 a parameter and states only its shape and how the rounds index it.
 */
module Sbox {
  import opened Words

  /** The 4 x 256 words of the substitution table. */
  type Table = t: seq<Word> | |t| == 1024 witness seq(1024, _ => 0)

  /** Entry `byte` of group `group`: the index `256 * group + byte` the rounds form. */
  function Index(group: nat, byte: Byte): (i: nat)
    requires group < 4
    ensures i < 1024
    ensures i / 256 == group && i % 256 == byte as int
  {
    256 * group + byte as int
  }

  /** The table word at entry `byte` of group `group`. */
  function Lookup(T: Table, group: nat, byte: Byte): Word
    requires group < 4
  {
    T[Index(group, byte)]
  }

  /** What a round subtracts from its first register: the even bytes 0, 2, 4, 6 of
      `c` looked up in groups 0, 1, 2, 3. */
  function EvenMix(T: Table, c: Word): Word
  {
    Xor(Xor(Xor(Lookup(T, 0, ByteOf(c, 0)), Lookup(T, 1, ByteOf(c, 2))),
            Lookup(T, 2, ByteOf(c, 4))),
        Lookup(T, 3, ByteOf(c, 6)))
  }

  /** What a round adds to its second register: the odd bytes 1, 3, 5, 7 of `c`
      looked up in groups 3, 2, 1, 0 (reverse group order). */
  function OddMix(T: Table, c: Word): Word
  {
    Xor(Xor(Xor(Lookup(T, 3, ByteOf(c, 1)), Lookup(T, 2, ByteOf(c, 3))),
            Lookup(T, 1, ByteOf(c, 5))),
        Lookup(T, 0, ByteOf(c, 7)))
  }

  /** The subtracted mix depends on the even bytes of `c` alone. */
  lemma EvenMixReadsEvenBytes(T: Table, c: Word, d: Word)
    requires ByteOf(c, 0) == ByteOf(d, 0) && ByteOf(c, 2) == ByteOf(d, 2)
    requires ByteOf(c, 4) == ByteOf(d, 4) && ByteOf(c, 6) == ByteOf(d, 6)
    ensures EvenMix(T, c) == EvenMix(T, d)
  {
  }

  /** The added mix depends on the odd bytes of `c` alone. */
  lemma OddMixReadsOddBytes(T: Table, c: Word, d: Word)
    requires ByteOf(c, 1) == ByteOf(d, 1) && ByteOf(c, 3) == ByteOf(d, 3)
    requires ByteOf(c, 5) == ByteOf(d, 5) && ByteOf(c, 7) == ByteOf(d, 7)
    ensures OddMix(T, c) == OddMix(T, d)
  {
  }
}
