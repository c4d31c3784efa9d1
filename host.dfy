/** The host value (packAddr in unique.go): the bytes of an address folded
    big-endian into a uint32, each step shifting the value left by 8 bits and
    or-ing in the next byte. Bits shifted past bit 31 are lost, so only the
    last four bytes count. */
module Host {

  /** One step of the fold: Go's `n<<8 | uint32(v)`. */
  function Shift(n: bv32, v: bv8): bv32 {
    (n << 8) | (v as bv32)
  }

  /** Go's packAddr: the fold of Shift over the bytes, from the first. */
  function PackAddr(a: seq<bv8>): bv32 {
    if |a| == 0 then 0 else Shift(PackAddr(a[..|a| - 1]), a[|a| - 1])
  }

  /** The four bytes of a uint32, most significant first. */
  function Octets(n: bv32): seq<bv8> {
    [(n >> 24) as bv8, ((n >> 16) & 0xff) as bv8, ((n >> 8) & 0xff) as bv8, (n & 0xff) as bv8]
  }

  /** Four bytes fold to the value whose bytes they are. */
  lemma OctetsOfShifts(b0: bv8, b1: bv8, b2: bv8, b3: bv8)
    ensures Octets(Shift(Shift(Shift(Shift(0, b0), b1), b2), b3)) == [b0, b1, b2, b3]
  {
  }

  /** A fifth byte pushes the first one out. */
  lemma ShiftOutFirst(b0: bv8, b1: bv8, b2: bv8, b3: bv8, b4: bv8)
    ensures Shift(Shift(Shift(Shift(Shift(0, b0), b1), b2), b3), b4)
         == Shift(Shift(Shift(Shift(0, b1), b2), b3), b4)
  {
  }

  /** The low 16 bits after two steps are the two bytes shifted in. */
  lemma ShiftLow16(n: bv32, b0: bv8, b1: bv8)
    ensures Shift(Shift(n, b0), b1) & 0xffff == Shift(Shift(0, b0), b1)
  {
  }

  lemma PackFour(a: seq<bv8>)
    requires |a| == 4
    ensures PackAddr(a) == Shift(Shift(Shift(Shift(0, a[0]), a[1]), a[2]), a[3])
  {
    assert a[..1][..0] == [];
    assert PackAddr(a[..1]) == Shift(0, a[0]);
    assert a[..2][..1] == a[..1];
    assert PackAddr(a[..2]) == Shift(Shift(0, a[0]), a[1]);
    assert a[..3][..2] == a[..2];
    assert PackAddr(a[..3]) == Shift(Shift(Shift(0, a[0]), a[1]), a[2]);
    assert a[..3] == a[..|a| - 1];
  }

  /** Round trip: a four-byte address (an IPv4 address, or the last four
      bytes of an IPv6 one) is read back from its packed value. */
  lemma OctetsPackAddr(a: seq<bv8>)
    requires |a| == 4
    ensures Octets(PackAddr(a)) == a
  {
    PackFour(a);
    OctetsOfShifts(a[0], a[1], a[2], a[3]);
  }

  /** Distinct four-byte addresses pack to distinct host values. */
  lemma PackAddrInjective(a1: seq<bv8>, a2: seq<bv8>)
    requires |a1| == 4 && |a2| == 4
    requires PackAddr(a1) == PackAddr(a2)
    ensures a1 == a2
  {
    OctetsPackAddr(a1);
    OctetsPackAddr(a2);
  }

  /** Only the last four bytes of a longer address count. */
  lemma {:induction false} PackAddrLastFour(a: seq<bv8>)
    requires |a| >= 4
    ensures PackAddr(a) == PackAddr(a[|a| - 4..])
  {
    var n := |a|;
    if n > 4 {
      var init := a[..n - 1];
      PackAddrLastFour(init);
      PackFour(init[n - 5..]);
      PackFour(a[n - 4..]);
      ShiftOutFirst(a[n - 5], a[n - 4], a[n - 3], a[n - 2], a[n - 1]);
    }
  }

  /** The low 16 bits of the host value, which the default 16-bit host
      takes, are the last two bytes of the address, big-endian. */
  lemma PackAddrLow16(a: seq<bv8>)
    requires |a| >= 2
    ensures PackAddr(a) & 0xffff == Shift(Shift(0, a[|a| - 2]), a[|a| - 1])
  {
    var n, b0, b1 := PackAddr(a[..|a| - 2]), a[|a| - 2], a[|a| - 1];
    PackLastTwo(a);
    ShiftLow16(n, b0, b1);
  }

  lemma PackLastTwo(a: seq<bv8>)
    requires |a| >= 2
    ensures PackAddr(a) == Shift(Shift(PackAddr(a[..|a| - 2]), a[|a| - 2]), a[|a| - 1])
  {
    var n := |a|;
    assert a[..n - 1][..n - 2] == a[..n - 2];
  }
}
