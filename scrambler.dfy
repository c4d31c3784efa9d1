/** The two-round Feistel scrambler (unique.go). The 96-bit input is held in
    two 64-bit halves of which only the low 48 bits are used; each round
    replaces the pair (h, l) by (l, F(l) xor h) with a fixed round function F
    that keeps 48 bits. Go's uint64 arithmetic is bv64, which wraps modulo 2^64
    as Go does. */
module Scrambler {

  /** Go's `fortyeightbits`, 2^48 - 1. */
  const FortyEightBits: bv64 := 0xffff_ffff_ffff

  /** The round function: a multiply, fold, add, rotate-left-by-49, multiply,
      fold mix of l, XORed with `l>>24 | l<<24` (for a 48-bit l, l rotated by
      24 bits within 48), and cut to 48 bits. */
  function Round(l: bv64): (f: bv64)
    ensures f <= FortyEightBits
  {
    var f0 := l | 0x1000_0042_0008;
    var f1 := f0 * 0xcc9e_2d51;
    var f2 := f1 + (f1 >> 48);
    var f3 := f2 + 0xe654_6b64;
    var f4 := (f3 << 49) | (f3 >> 15);
    var f5 := f4 * ((f4 >> 32) ^ f4);
    var f6 := f5 + (f5 >> 48);
    var f7 := f6 ^ ((l >> 24) | (l << 24));
    f7 & FortyEightBits
  }

  /** The two halves of the Feistel state. */
  datatype Halves = Halves(h: bv64, l: bv64)

  /** One Feistel round with round function F; Go's scrambleStep is
      Step(Round, _). */
  function Step(F: bv64 -> bv64, s: Halves): Halves {
    Halves(s.l, F(s.l) ^ s.h)
  }

  /** The inverse round: the old h is the new l XORed with F of the new h. */
  function Unstep(F: bv64 -> bv64, r: Halves): Halves {
    Halves(r.l ^ F(r.h), r.h)
  }

  /** Whatever the round function computes, a round is undone by its
      inverse, so each round is one-to-one. */
  lemma UnstepStep(F: bv64 -> bv64, s: Halves)
    ensures Unstep(F, Step(F, s)) == s
  {
  }

  /** A round whose function stays within 48 bits keeps both halves within
      48 bits. */
  lemma StepIn48(F: bv64 -> bv64, s: Halves)
    requires forall x :: F(x) <= FortyEightBits
    requires s.h <= FortyEightBits && s.l <= FortyEightBits
    ensures Step(F, s).h <= FortyEightBits && Step(F, s).l <= FortyEightBits
  {
    assert F(s.l) <= FortyEightBits;
  }

  /** Go's scrambleStep keeps both halves within 48 bits. */
  lemma ScrambleStepIn48(s: Halves)
    requires s.h <= FortyEightBits && s.l <= FortyEightBits
    ensures Step(Round, s).h <= FortyEightBits && Step(Round, s).l <= FortyEightBits
  {
    StepIn48(Round, s);
  }

  /** The scrambler's inputs and outputs: two 32-bit and two 16-bit words. */
  datatype Quad = Quad(a: bv32, b: bv32, c: bv16, d: bv16)

  /** Go's `uint64(x) | uint64(y)<<32`: a 48-bit half from its low 32 and
      high 16 bits. */
  function Join48(lo: bv32, hi: bv16): (v: bv64)
    ensures v <= FortyEightBits
  {
    (lo as bv64) | ((hi as bv64) << 32)
  }

  /** Go's `uint32(v)`. */
  function Low32(v: bv64): bv32 {
    (v & 0xffff_ffff) as bv32
  }

  /** Go's `uint16(v >> 32)`. */
  function High16(v: bv64): bv16 {
    ((v >> 32) & 0xffff) as bv16
  }

  /** Splitting a 48-bit half into its low 32 and high 16 bits loses nothing. */
  lemma SplitJoin48(v: bv64)
    requires v <= FortyEightBits
    ensures Join48(Low32(v), High16(v)) == v
  {
  }

  lemma JoinSplit48(lo: bv32, hi: bv16)
    ensures Low32(Join48(lo, hi)) == lo && High16(Join48(lo, hi)) == hi
  {
  }

  /** Go's scramble: packs h = a | c<<32 and l = b | d<<32, applies two
      rounds and returns (low 32 bits of l, low 32 bits of h, bits 32-47 of l,
      bits 32-47 of h). */
  function Scramble(x: Quad): Quad {
    var s0 := Halves(Join48(x.a, x.c), Join48(x.b, x.d));
    var s2 := Step(Round, Step(Round, s0));
    Quad(Low32(s2.l), Low32(s2.h), High16(s2.l), High16(s2.h))
  }

  /** The descrambler: rebuilds the two 48-bit halves and runs both rounds
      backwards. */
  function Unscramble(y: Quad): Quad {
    var s2 := Halves(Join48(y.b, y.d), Join48(y.a, y.c));
    var s0 := Unstep(Round, Unstep(Round, s2));
    Quad(Low32(s0.h), Low32(s0.l), High16(s0.h), High16(s0.l))
  }

  /** Round trip: the descrambler undoes the scrambler, since each Feistel
      round is undone by its inverse and the 48-bit halves survive the
      packing. */
  lemma UnscrambleScramble(x: Quad)
    ensures Unscramble(Scramble(x)) == x
  {
    var s0 := Halves(Join48(x.a, x.c), Join48(x.b, x.d));
    var s2 := Step(Round, Step(Round, s0));
    UnstepStep(Round, s0);
    UnstepStep(Round, Step(Round, s0));
    ScrambleStepIn48(s0);
    ScrambleStepIn48(Step(Round, s0));
    SplitJoin48(s2.h);
    SplitJoin48(s2.l);
    JoinSplit48(x.a, x.c);
    JoinSplit48(x.b, x.d);
  }

  /** Distinct inputs always give distinct scrambled outputs. */
  lemma ScrambleInjective(x1: Quad, x2: Quad)
    requires Scramble(x1) == Scramble(x2)
    ensures x1 == x2
  {
    UnscrambleScramble(x1);
    UnscrambleScramble(x2);
  }
}
