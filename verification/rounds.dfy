/**
 One round and one pass of Tiger (`round<MUL>` and `pass<MUL>`, tiger.h:36-64).

 The three registers are kept in ROLE order: `Regs(a, b, c)` is the triple a
 round receives as its first, second and third reference argument, whatever
 the registers are called by the caller. A round XORs a block word into the
 third role, subtracts the even-byte mix from the first, and adds the odd-byte
 mix to the second before multiplying it by the pass multiplier.

 For each multiplier the source uses (5, 7, 9 are odd, hence invertible modulo
 2^64) a round and a pass lose no information: they are injective on the
 register triple.
 */
module Rounds {
  import opened Words
  import opened Sbox

  /** The three 64-bit registers in role order. */
  datatype Regs = Regs(a: Word, b: Word, c: Word)

  /** The multipliers of the three passes of a compression. */
  predicate IsMultiplier(mul: Word)
  {
    mul == 5 || mul == 7 || mul == 9
  }

  lemma TimesFiveInjective(u: Word, v: Word)
    requires Times(u, 5) == Times(v, 5)
    ensures u == v
  {
  }

  lemma TimesSevenInjective(u: Word, v: Word)
    requires Times(u, 7) == Times(v, 7)
    ensures u == v
  {
  }

  lemma TimesNineInjective(u: Word, v: Word)
    requires Times(u, 9) == Times(v, 9)
    ensures u == v
  {
  }

  /** Multiplication modulo 2^64 by a pass multiplier loses nothing: equal
      products have equal factors. (Each multiplier is odd, hence a unit
      modulo 2^64.) */
  lemma MultiplierInjective(u: Word, v: Word, mul: Word)
    requires IsMultiplier(mul)
    requires Times(u, mul) == Times(v, mul)
    ensures u == v
  {
    if mul == 5 {
      TimesFiveInjective(u, v);
    } else if mul == 7 {
      TimesSevenInjective(u, v);
    } else {
      TimesNineInjective(u, v);
    }
  }

  /** `round<MUL>(a, b, c, x)` of tiger.h:37-52; only the three registers change. */
  function Round(T: Table, mul: Word, r: Regs, x: Word): Regs
  {
    var c := Xor(r.c, x);
    var a := Minus(r.a, EvenMix(T, c));
    var b := Times(Plus(r.b, OddMix(T, c)), mul);
    Regs(a, b, c)
  }

  /** A round loses no information about the registers: for a fixed table,
      block word and pass multiplier, distinct register triples give distinct
      results. The third register is recovered by XOR-ing `x` again; with it both
      mixes are known, so the first register is recovered by adding back and the
      second by cancelling the (invertible) multiplication and subtracting. */
  lemma RoundInjective(T: Table, mul: Word, r: Regs, r': Regs, x: Word)
    requires IsMultiplier(mul)
    requires Round(T, mul, r, x) == Round(T, mul, r', x)
    ensures r == r'
  {
    var c := Xor(r.c, x);
    XorXor(r.c, x);
    XorXor(r'.c, x);
    PlusMinus(r.a, EvenMix(T, c));
    PlusMinus(r'.a, EvenMix(T, c));
    MultiplierInjective(Plus(r.b, OddMix(T, c)), Plus(r'.b, OddMix(T, c)), mul);
    MinusPlus(r.b, OddMix(T, c));
    MinusPlus(r'.b, OddMix(T, c));
  }

  /** The next round's role triple: what was second becomes first, third
      becomes second, first becomes third (`(a,b,c)` then `(b,c,a)`). */
  function Rotate(r: Regs): Regs
  {
    Regs(r.b, r.c, r.a)
  }

  /** Three rotations bring every register back to its role. */
  lemma RotateThrice(r: Regs)
    ensures Rotate(Rotate(Rotate(r))) == r
  {
  }

  /** `pass<MUL>(a, b, c, x)` of tiger.h:55-64: rounds on `x[0]` .. `x[7]` in
      order, with role triples `(a,b,c)`, `(b,c,a)`, `(c,a,b)` repeating. The
      last round works on `(b,c,a)`, which the result puts back in place. */
  function Pass(T: Table, mul: Word, r: Regs, x: Block): Regs
  {
    var t0 := Round(T, mul, r, x[0]);
    var t1 := Round(T, mul, Rotate(t0), x[1]);
    var t2 := Round(T, mul, Rotate(t1), x[2]);
    var t3 := Round(T, mul, Rotate(t2), x[3]);
    var t4 := Round(T, mul, Rotate(t3), x[4]);
    var t5 := Round(T, mul, Rotate(t4), x[5]);
    var t6 := Round(T, mul, Rotate(t5), x[6]);
    var t7 := Round(T, mul, Rotate(t6), x[7]);
    Regs(t7.c, t7.a, t7.b)
  }

  /** The first `n` rounds of a pass, each followed by the turn of the roles:
      round `i` sees the registers rotated `i` times. */
  function Rounds(T: Table, mul: Word, r: Regs, x: Block, n: nat): Regs
    requires n <= 8
  {
    if n == 0 then r else Rotate(Round(T, mul, Rounds(T, mul, r, x, n - 1), x[n - 1]))
  }

  /** The unrolled pass is eight rounds with rotating roles, followed by one more
      turn of the roles: nine turns in all, so each register ends in its own
      place. */
  lemma PassIsRounds(T: Table, mul: Word, r: Regs, x: Block)
    ensures Pass(T, mul, r, x) == Rotate(Rounds(T, mul, r, x, 8))
  {
    var t0 := Round(T, mul, r, x[0]);
    var t1 := Round(T, mul, Rotate(t0), x[1]);
    var t2 := Round(T, mul, Rotate(t1), x[2]);
    var t3 := Round(T, mul, Rotate(t2), x[3]);
    var t4 := Round(T, mul, Rotate(t3), x[4]);
    var t5 := Round(T, mul, Rotate(t4), x[5]);
    var t6 := Round(T, mul, Rotate(t5), x[6]);
    var t7 := Round(T, mul, Rotate(t6), x[7]);
    assert Rounds(T, mul, r, x, 1) == Rotate(t0);
    assert Rounds(T, mul, r, x, 2) == Rotate(t1);
    assert Rounds(T, mul, r, x, 3) == Rotate(t2);
    assert Rounds(T, mul, r, x, 4) == Rotate(t3);
    assert Rounds(T, mul, r, x, 5) == Rotate(t4);
    assert Rounds(T, mul, r, x, 6) == Rotate(t5);
    assert Rounds(T, mul, r, x, 7) == Rotate(t6);
    assert Rounds(T, mul, r, x, 8) == Rotate(t7);
  }

  /** A pass loses no information about the registers: for a fixed block and
      pass multiplier, distinct register triples give distinct results. */
  lemma PassInjective(T: Table, mul: Word, r: Regs, r': Regs, x: Block)
    requires IsMultiplier(mul)
    requires Pass(T, mul, r, x) == Pass(T, mul, r', x)
    ensures r == r'
  {
    var t0 := Round(T, mul, r, x[0]);
    var t1 := Round(T, mul, Rotate(t0), x[1]);
    var t2 := Round(T, mul, Rotate(t1), x[2]);
    var t3 := Round(T, mul, Rotate(t2), x[3]);
    var t4 := Round(T, mul, Rotate(t3), x[4]);
    var t5 := Round(T, mul, Rotate(t4), x[5]);
    var t6 := Round(T, mul, Rotate(t5), x[6]);
    var t7 := Round(T, mul, Rotate(t6), x[7]);
    var u0 := Round(T, mul, r', x[0]);
    var u1 := Round(T, mul, Rotate(u0), x[1]);
    var u2 := Round(T, mul, Rotate(u1), x[2]);
    var u3 := Round(T, mul, Rotate(u2), x[3]);
    var u4 := Round(T, mul, Rotate(u3), x[4]);
    var u5 := Round(T, mul, Rotate(u4), x[5]);
    var u6 := Round(T, mul, Rotate(u5), x[6]);
    var u7 := Round(T, mul, Rotate(u6), x[7]);
    assert t7 == u7;
    RoundInjective(T, mul, Rotate(t6), Rotate(u6), x[7]);
    RoundInjective(T, mul, Rotate(t5), Rotate(u5), x[6]);
    RoundInjective(T, mul, Rotate(t4), Rotate(u4), x[5]);
    RoundInjective(T, mul, Rotate(t3), Rotate(u3), x[4]);
    RoundInjective(T, mul, Rotate(t2), Rotate(u2), x[3]);
    RoundInjective(T, mul, Rotate(t1), Rotate(u1), x[2]);
    RoundInjective(T, mul, Rotate(t0), Rotate(u0), x[1]);
    RoundInjective(T, mul, r, r', x[0]);
  }
}
