/**
 The Tiger key schedule (`key_schedule`, tiger.h:17-34): a sequential recurrence
 of 16 updates over the eight words of a block, applied between passes.

 Every update adds, subtracts or XORs into one word a value computed from words
 it does not change, so each can be undone; `InverseKeySchedule` undoes them in
 reverse order and is a two-sided inverse: the key schedule is a permutation of
 8-word blocks.
 */
module Schedule {
  import opened Words

  const K1: Word := 0xA5A5A5A5A5A5A5A5
  const K2: Word := 0x0123456789ABCDEF
  /** `(~w) << 19`: the complement shifted left, low bits filled with zeros. */
  function NotShl19(w: Word): Word
  {
    !w << 19
  }

  /** `(~w) >> 23`: the complement shifted right logically (unsigned). */
  function NotShr23(w: Word): Word
  {
    !w >> 23
  }

  /** The recurrence of tiger.h:18-33, one binding per source line; every
      operation wraps modulo 2^64 and both shifts are logical. */
  function KeySchedule(x: Block): Block
  {
    var x0 := Minus(x[0], Xor(x[7], K1));
    var x1 := Xor(x[1], x0);
    var x2 := Plus(x[2], x1);
    var x3 := Minus(x[3], Xor(x2, NotShl19(x1)));
    var x4 := Xor(x[4], x3);
    var x5 := Plus(x[5], x4);
    var x6 := Minus(x[6], Xor(x5, NotShr23(x4)));
    var x7 := Xor(x[7], x6);
    var y0 := Plus(x0, x7);
    var y1 := Minus(x1, Xor(y0, NotShl19(x7)));
    var y2 := Xor(x2, y1);
    var y3 := Plus(x3, y2);
    var y4 := Minus(x4, Xor(y3, NotShr23(y2)));
    var y5 := Xor(x5, y4);
    var y6 := Plus(x6, y5);
    var y7 := Minus(x7, Xor(y6, K2));
    [y0, y1, y2, y3, y4, y5, y6, y7]
  }

  /** The recurrence run backwards: each line undoes one line of `KeySchedule`,
      last line first, by the inverse operation with the same operand. */
  function InverseKeySchedule(y: Block): Block
  {
    var y0, y1, y2, y3, y4, y5, y6, y7 := y[0], y[1], y[2], y[3], y[4], y[5], y[6], y[7];
    var x7 := Plus(y7, Xor(y6, K2));
    var x6 := Minus(y6, y5);
    var x5 := Xor(y5, y4);
    var x4 := Plus(y4, Xor(y3, NotShr23(y2)));
    var x3 := Minus(y3, y2);
    var x2 := Xor(y2, y1);
    var x1 := Plus(y1, Xor(y0, NotShl19(x7)));
    var x0 := Minus(y0, x7);
    var w7 := Xor(x7, x6);
    var w6 := Plus(x6, Xor(x5, NotShr23(x4)));
    var w5 := Minus(x5, x4);
    var w4 := Xor(x4, x3);
    var w3 := Plus(x3, Xor(x2, NotShl19(x1)));
    var w2 := Minus(x2, x1);
    var w1 := Xor(x1, x0);
    var w0 := Plus(x0, Xor(w7, K1));
    [w0, w1, w2, w3, w4, w5, w6, w7]
  }

  /** `InverseKeySchedule` undoes the key schedule. */
  lemma InverseAfterKeySchedule(x: Block)
    ensures InverseKeySchedule(KeySchedule(x)) == x
  {
    var x0 := Minus(x[0], Xor(x[7], K1));
    var x1 := Xor(x[1], x0);
    var x2 := Plus(x[2], x1);
    var x3 := Minus(x[3], Xor(x2, NotShl19(x1)));
    var x4 := Xor(x[4], x3);
    var x5 := Plus(x[5], x4);
    var x6 := Minus(x[6], Xor(x5, NotShr23(x4)));
    var x7 := Xor(x[7], x6);
    var y0 := Plus(x0, x7);
    var y1 := Minus(x1, Xor(y0, NotShl19(x7)));
    var y2 := Xor(x2, y1);
    var y3 := Plus(x3, y2);
    var y4 := Minus(x4, Xor(y3, NotShr23(y2)));
    var y5 := Xor(x5, y4);
    var y6 := Plus(x6, y5);
    var y7 := Minus(x7, Xor(y6, K2));
    assert KeySchedule(x) == [y0, y1, y2, y3, y4, y5, y6, y7];
    PlusMinus(x7, Xor(y6, K2));
    MinusPlus(x6, y5);
    XorXor(x5, y4);
    PlusMinus(x4, Xor(y3, NotShr23(y2)));
    MinusPlus(x3, y2);
    XorXor(x2, y1);
    PlusMinus(x1, Xor(y0, NotShl19(x7)));
    MinusPlus(x0, x7);
    XorXor(x[7], x6);
    PlusMinus(x[6], Xor(x5, NotShr23(x4)));
    MinusPlus(x[5], x4);
    XorXor(x[4], x3);
    PlusMinus(x[3], Xor(x2, NotShl19(x1)));
    MinusPlus(x[2], x1);
    XorXor(x[1], x0);
    PlusMinus(x[0], Xor(x[7], K1));
  }

  /** The key schedule undoes `InverseKeySchedule`. */
  lemma KeyScheduleAfterInverse(y: Block)
    ensures KeySchedule(InverseKeySchedule(y)) == y
  {
    var x7 := Plus(y[7], Xor(y[6], K2));
    var x6 := Minus(y[6], y[5]);
    var x5 := Xor(y[5], y[4]);
    var x4 := Plus(y[4], Xor(y[3], NotShr23(y[2])));
    var x3 := Minus(y[3], y[2]);
    var x2 := Xor(y[2], y[1]);
    var x1 := Plus(y[1], Xor(y[0], NotShl19(x7)));
    var x0 := Minus(y[0], x7);
    var w7 := Xor(x7, x6);
    var w6 := Plus(x6, Xor(x5, NotShr23(x4)));
    var w5 := Minus(x5, x4);
    var w4 := Xor(x4, x3);
    var w3 := Plus(x3, Xor(x2, NotShl19(x1)));
    var w2 := Minus(x2, x1);
    var w1 := Xor(x1, x0);
    var w0 := Plus(x0, Xor(w7, K1));
    assert InverseKeySchedule(y) == [w0, w1, w2, w3, w4, w5, w6, w7];
    MinusPlus(x0, Xor(w7, K1));
    XorXor(x1, x0);
    PlusMinus(x2, x1);
    MinusPlus(x3, Xor(x2, NotShl19(x1)));
    XorXor(x4, x3);
    PlusMinus(x5, x4);
    MinusPlus(x6, Xor(x5, NotShr23(x4)));
    XorXor(x7, x6);
    PlusMinus(y[0], x7);
    MinusPlus(y[1], Xor(y[0], NotShl19(x7)));
    XorXor(y[2], y[1]);
    PlusMinus(y[3], y[2]);
    MinusPlus(y[4], Xor(y[3], NotShr23(y[2])));
    XorXor(y[5], y[4]);
    PlusMinus(y[6], y[5]);
    MinusPlus(y[7], Xor(y[6], K2));
  }

  /** The key schedule is a permutation of 8-word blocks: `InverseKeySchedule`
      undoes it, and it undoes `InverseKeySchedule`. */
  lemma KeyScheduleInverse(x: Block, y: Block)
    ensures InverseKeySchedule(KeySchedule(x)) == x
    ensures KeySchedule(InverseKeySchedule(y)) == y
  {
    InverseAfterKeySchedule(x);
    KeyScheduleAfterInverse(y);
  }
}
