/** Natural-number views of bit strings shared by the other modules: powers
    of two, a bitwise exclusive or defined bit by bit, and the bits of a
    number. */
module Binary {

  /** 2^w. */
  function Pow2(w: nat): (r: nat)
    ensures r >= 1
  {
    if w == 0 then 1 else 2 * Pow2(w - 1)
  }

  /** Bitwise exclusive or of the low `width` bits of a and b. */
  function Xor(a: nat, b: nat, width: nat): nat {
    if width == 0 then 0
    else (if a % 2 == b % 2 then 0 else 1) + 2 * Xor(a / 2, b / 2, width - 1)
  }

  lemma {:induction false} XorBound(a: nat, b: nat, width: nat)
    ensures Xor(a, b, width) < Pow2(width)
  {
    if width > 0 {
      XorBound(a / 2, b / 2, width - 1);
    }
  }

  /** XORing twice with the same key gives the value back. */
  lemma {:induction false} XorTwice(a: nat, k: nat, width: nat)
    requires a < Pow2(width)
    ensures Xor(Xor(a, k, width), k, width) == a
  {
    if width > 0 {
      var x := Xor(a, k, width);
      XorBound(a / 2, k / 2, width - 1);
      assert x / 2 == Xor(a / 2, k / 2, width - 1);
      assert x % 2 == (if a % 2 == k % 2 then 0 else 1);
      XorTwice(a / 2, k / 2, width - 1);
    }
  }

  /** The powers of two the models use: the base-32 and base-64 symbol
      counts and the range of a 16-bit word. */
  lemma Pow2Values()
    ensures Pow2(5) == 32 && Pow2(6) == 64 && Pow2(16) == 0x1_0000
  {
    assert Pow2(1) == 2;
    assert Pow2(2) == 4;
    assert Pow2(3) == 8;
    assert Pow2(4) == 16;
    assert Pow2(5) == 32;
    assert Pow2(6) == 64;
    assert Pow2(7) == 128;
    assert Pow2(8) == 256;
    assert Pow2(9) == 512;
    assert Pow2(10) == 1024;
    assert Pow2(11) == 2048;
    assert Pow2(12) == 4096;
    assert Pow2(13) == 8192;
    assert Pow2(14) == 16384;
    assert Pow2(15) == 32768;
  }

  /** The low k bits of v as a 64-bit vector, built bit by bit: Go's
      conversion of a uint64 held as a number to its bits. */
  function ToBv64(v: nat, k: nat): bv64 {
    if k == 0 then 0 else (ToBv64(v / 2, k - 1) << 1) | (if v % 2 == 1 then 1 else 0)
  }

  /** The byte holding x, counted up from zero; Go's byte(x) for x < 256.
      Counting keeps the solver's int-to-bit-vector conversion out of the
      proofs. */
  function Byte(x: nat): bv8
    requires x < 256
  {
    if x == 0 then 0 else Byte(x - 1) + 1
  }

  lemma ByteSucc(b: bv8)
    requires b < 255
    ensures (b + 1) as int == b as int + 1
  {
  }

  /** A number below 256 survives the trip to a byte and back. */
  lemma {:induction false} ByteInt(x: nat)
    requires x < 256
    ensures Byte(x) as int == x
  {
    if x > 0 {
      ByteInt(x - 1);
      ByteSucc(Byte(x - 1));
    }
  }
}
