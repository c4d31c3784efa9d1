/** The two text encodings of an identifier's bytes (unique.go): unpadded
    base 64 with the URL and filename safe alphabet of section 5 of RFC 4648
    for upper-case ids, and the base 32 bit grouping of section 6 of RFC 4648
    over the custom alphabet "abcdefghijkmnpqrstuvwxyz23456789" for the
    default ids. Both are specified as RFC 4648 does: the bytes form a bit
    stream, most significant bit first; each group of w bits selects a symbol;
    a final short group is filled with zero bits; padding characters are
    omitted (section 3.2 of RFC 4648). A decoder is the partner of each
    encoding. */
module Encoding {
  import opened Binary

  const Upper: string := "ABCDEFGHIJKLMNOPQRSTUVWXYZ"
  const Lower: string := "abcdefghijklmnopqrstuvwxyz"
  const DecimalDigits: string := "0123456789"

  /** The base 64 alphabet of section 5 of RFC 4648. */
  const UrlAlphabet: string := Upper + Lower + DecimalDigits + "-_"

  /** The identifier alphabet: lower-case letters and digits without l, o,
      0 and 1. */
  const IdAlphabet: string := "abcdefghijkmnpqrstuvwxyz23456789"

  /** No symbol occurs twice. */
  predicate Distinct(a: string) {
    forall i, j :: 0 <= i < j < |a| ==> a[i] != a[j]
  }

  /** s is a run of consecutive characters starting at first. */
  predicate IsRun(s: string, first: char) {
    forall i :: 0 <= i < |s| ==> s[i] as int == first as int + i
  }

  /** The value table of section 5 of RFC 4648: the position of c in the URL
      alphabet, or -1. */
  function UrlIndex(c: char): int {
    if 'A' <= c <= 'Z' then c as int - 'A' as int
    else if 'a' <= c <= 'z' then c as int - 'a' as int + 26
    else if '0' <= c <= '9' then c as int - '0' as int + 52
    else if c == '-' then 62
    else if c == '_' then 63
    else -1
  }

  /** The position of c in the identifier alphabet, or -1. */
  function IdIndex(c: char): int {
    if 'a' <= c <= 'k' then c as int - 'a' as int
    else if 'm' <= c <= 'n' then c as int - 'm' as int + 11
    else if 'p' <= c <= 'z' then c as int - 'p' as int + 13
    else if '2' <= c <= '9' then c as int - '2' as int + 24
    else -1
  }

  lemma UrlTable()
    ensures |UrlAlphabet| == 64
    ensures forall i :: 0 <= i < 64 ==> UrlIndex(UrlAlphabet[i]) == i
  {
    forall i | 0 <= i < 64
      ensures UrlIndex(UrlAlphabet[i]) == i
    {
      UrlSymbol(i);
    }
  }

  lemma Runs()
    ensures IsRun(Upper, 'A') && IsRun(Lower, 'a') && IsRun(DecimalDigits, '0')
  {
  }

  /** Symbol i of the URL alphabet has value i. */
  lemma UrlSymbol(i: int)
    requires 0 <= i < 64
    ensures UrlIndex(UrlAlphabet[i]) == i
  {
    Runs();
    var letters := Upper + Lower;
    assert UrlAlphabet == letters + DecimalDigits + "-_";
    if i < 26 {
      assert UrlAlphabet[i] == letters[i] == Upper[i];
    } else if i < 52 {
      assert UrlAlphabet[i] == letters[i] == Lower[i - 26];
    } else if i < 62 {
      assert UrlAlphabet[i] == DecimalDigits[i - 52];
    }
  }

  lemma IdTable()
    ensures |IdAlphabet| == 32
    ensures forall i :: 0 <= i < 32 ==> IdIndex(IdAlphabet[i]) == i
  {
  }

  /** The URL alphabet has 64 distinct symbols and no padding character. */
  lemma UrlAlphabetFacts()
    ensures |UrlAlphabet| == Pow2(6) && Distinct(UrlAlphabet)
    ensures '=' !in UrlAlphabet
  {
    Pow2Values();
    UrlTable();
    assert UrlIndex('=') == -1;
  }

  /** The identifier alphabet has 32 distinct symbols, none of them l, o, 0,
      1 or the padding character. */
  lemma IdAlphabetFacts()
    ensures |IdAlphabet| == Pow2(5) && Distinct(IdAlphabet)
    ensures 'l' !in IdAlphabet && 'o' !in IdAlphabet
    ensures '0' !in IdAlphabet && '1' !in IdAlphabet && '=' !in IdAlphabet
  {
    Pow2Values();
    IdTable();
    assert IdIndex('l') == -1 && IdIndex('o') == -1 && IdIndex('0') == -1;
    assert IdIndex('1') == -1 && IdIndex('=') == -1;
  }

  /** The eight bits of a byte, most significant first. */
  function ByteBits(b: bv8): (r: seq<bool>)
    ensures |r| == 8
  {
    [b & 0x80 != 0, b & 0x40 != 0, b & 0x20 != 0, b & 0x10 != 0,
     b & 0x08 != 0, b & 0x04 != 0, b & 0x02 != 0, b & 0x01 != 0]
  }

  function Bit(x: bool, mask: bv8): bv8 {
    if x then mask else 0
  }

  /** The byte whose bits, most significant first, are r. */
  function ByteOf(r: seq<bool>): bv8
    requires |r| == 8
  {
    Bit(r[0], 0x80) | Bit(r[1], 0x40) | Bit(r[2], 0x20) | Bit(r[3], 0x10) |
    Bit(r[4], 0x08) | Bit(r[5], 0x04) | Bit(r[6], 0x02) | Bit(r[7], 0x01)
  }

  lemma ByteOfBits(b: bv8)
    ensures ByteOf(ByteBits(b)) == b
  {
  }

  /** The bit stream of a byte string. */
  function Bits(bs: seq<bv8>): (r: seq<bool>)
    ensures |r| == 8 * |bs|
  {
    if |bs| == 0 then [] else ByteBits(bs[0]) + Bits(bs[1..])
  }

  /** The bytes of a bit stream whose length is a multiple of 8. */
  function BytesOf(r: seq<bool>): (bs: seq<bv8>)
    requires |r| % 8 == 0
    decreases |r|
  {
    if |r| == 0 then [] else [ByteOf(r[..8])] + BytesOf(r[8..])
  }

  lemma {:induction false} BytesOfBits(bs: seq<bv8>)
    ensures BytesOf(Bits(bs)) == bs
  {
    if |bs| > 0 {
      var r := Bits(bs);
      assert r[..8] == ByteBits(bs[0]);
      assert r[8..] == Bits(bs[1..]);
      ByteOfBits(bs[0]);
      BytesOfBits(bs[1..]);
      assert bs == [bs[0]] + bs[1..];
    }
  }

  /** The number a bit string denotes, most significant bit first. */
  function Value(r: seq<bool>): nat {
    if |r| == 0 then 0 else 2 * Value(r[..|r| - 1]) + (if r[|r| - 1] then 1 else 0)
  }

  lemma {:induction false} ValueBound(r: seq<bool>)
    ensures Value(r) < Pow2(|r|)
  {
    if |r| > 0 {
      ValueBound(r[..|r| - 1]);
    }
  }

  /** The low w bits of v, most significant first. */
  function BitsOf(v: nat, w: nat): (r: seq<bool>)
    ensures |r| == w
  {
    if w == 0 then [] else BitsOf(v / 2, w - 1) + [v % 2 == 1]
  }

  /** Writing out the value of a bit string in as many bits gives the string
      back. */
  lemma {:induction false} BitsOfValue(r: seq<bool>)
    ensures BitsOf(Value(r), |r|) == r
  {
    if |r| > 0 {
      var n := |r| - 1;
      assert Value(r) / 2 == Value(r[..n]);
      BitsOfValue(r[..n]);
      assert r == r[..n] + [r[n]];
    }
  }

  function Zeros(n: nat): (r: seq<bool>)
    ensures |r| == n
    ensures forall i :: 0 <= i < n ==> !r[i]
  {
    seq(n, i => false)
  }

  /** The number of zero bits that complete the last group of a stream of n
      bits. */
  function PadBits(n: nat, w: nat): (p: nat)
    requires w > 0
    ensures p < w
  {
    if n == 0 then 0 else if n < w then w - n else PadBits(n - w, w)
  }

  /** The number of symbols that encode n bits: one per group of w bits,
      counting a final short group. */
  function Symbols(n: nat, w: nat): nat
    requires w > 0
  {
    if n == 0 then 0 else if n < w then 1 else 1 + Symbols(n - w, w)
  }

  /** With 6 bits per symbol, n bits need n/6 symbols rounded up. */
  lemma {:induction false} SymbolsSix(n: nat)
    ensures Symbols(n, 6) == (n + 5) / 6
  {
    if n >= 6 {
      SymbolsSix(n - 6);
    }
  }

  /** With 5 bits per symbol, n bits need n/5 symbols rounded up. */
  lemma {:induction false} SymbolsFive(n: nat)
    ensures Symbols(n, 5) == (n + 4) / 5
  {
    if n >= 5 {
      SymbolsFive(n - 5);
    }
  }

  /** Encodes a bit stream w bits per symbol with alphabet a: each group of w
      bits selects a symbol, and a final short group is filled with zero
      bits. */
  function EncodeBits(r: seq<bool>, a: string, w: nat): (s: string)
    requires w > 0 && |a| == Pow2(w)
    ensures |s| == Symbols(|r|, w)
    ensures forall i :: 0 <= i < |s| ==> s[i] in a
    decreases |r|
  {
    if |r| == 0 then []
    else if |r| < w then
      var g := r + Zeros(w - |r|);
      ValueBound(g);
      [a[Value(g)]]
    else
      ValueBound(r[..w]);
      [a[Value(r[..w])]] + EncodeBits(r[w..], a, w)
  }

  /** Unpadded encoding of a byte string, w bits per symbol. */
  function Encode(bs: seq<bv8>, a: string, w: nat): (s: string)
    requires w > 0 && |a| == Pow2(w)
    ensures |s| == Symbols(8 * |bs|, w)
    ensures forall i :: 0 <= i < |s| ==> s[i] in a
  {
    EncodeBits(Bits(bs), a, w)
  }

  /** Go's base64.RawURLEncoding: one symbol of the URL alphabet per 6 bits,
      no padding. */
  function Base64Url(bs: seq<bv8>): (s: string)
    ensures |s| == (8 * |bs| + 5) / 6
    ensures forall i :: 0 <= i < |s| ==> s[i] in UrlAlphabet && s[i] != '='
  {
    UrlAlphabetFacts();
    SymbolsSix(8 * |bs|);
    Encode(bs, UrlAlphabet, 6)
  }

  /** The identifier encoder: one symbol of the identifier alphabet per 5
      bits, no padding. */
  function Base32Id(bs: seq<bv8>): (s: string)
    ensures |s| == (8 * |bs| + 4) / 5
    ensures forall i :: 0 <= i < |s| ==> s[i] in IdAlphabet && s[i] != '='
    ensures forall i :: 0 <= i < |s| ==> s[i] !in "lo01"
  {
    IdAlphabetFacts();
    SymbolsFive(8 * |bs|);
    Encode(bs, IdAlphabet, 5)
  }

  /** The position of the first occurrence of c in a, or |a| when c does
      not occur. */
  function IndexOf(c: char, a: string): (k: nat)
    ensures k <= |a|
    ensures k < |a| ==> a[k] == c
    ensures forall i :: 0 <= i < k ==> a[i] != c
  {
    if |a| == 0 then 0 else if a[0] == c then 0 else 1 + IndexOf(c, a[1..])
  }

  lemma IndexOfDistinct(a: string, i: nat)
    requires Distinct(a) && i < |a|
    ensures IndexOf(a[i], a) == i
  {
  }

  /** The bit stream that a string of symbols of alphabet a stands for, w
      bits per symbol. */
  function SymbolBits(s: string, a: string, w: nat): seq<bool> {
    if |s| == 0 then [] else BitsOf(IndexOf(s[0], a), w) + SymbolBits(s[1..], a, w)
  }

  /** Decodes an unpadded encoding: the whole bytes of the symbols' bit
      stream; the fill bits of a final short group are dropped. */
  function Decode(s: string, a: string, w: nat): seq<bv8> {
    var r := SymbolBits(s, a, w);
    BytesOf(r[..|r| / 8 * 8])
  }

  lemma SymbolBitsCons(c: char, t: string, a: string, w: nat)
    ensures SymbolBits([c] + t, a, w) == BitsOf(IndexOf(c, a), w) + SymbolBits(t, a, w)
  {
    assert ([c] + t)[1..] == t;
  }

  /** The symbol chosen for a group of w bits stands for that group. */
  lemma SymbolOfGroup(g: seq<bool>, a: string, w: nat)
    requires w > 0 && |g| == w && |a| == Pow2(w) && Distinct(a)
    ensures Value(g) < |a| && BitsOf(IndexOf(a[Value(g)], a), w) == g
  {
    ValueBound(g);
    IndexOfDistinct(a, Value(g));
    BitsOfValue(g);
  }

  /** A final short group is filled with zero bits. */
  lemma LastGroup(r: seq<bool>, a: string, w: nat)
    requires 0 < |r| < w && |a| == Pow2(w) && Distinct(a)
    ensures SymbolBits(EncodeBits(r, a, w), a, w) == r + Zeros(PadBits(|r|, w))
  {
    var g := r + Zeros(w - |r|);
    SymbolOfGroup(g, a, w);
    assert EncodeBits(r, a, w) == [a[Value(g)]] + [];
    SymbolBitsCons(a[Value(g)], [], a, w);
  }

  /** The symbols' bit stream of an encoding is the encoded stream followed
      by the fill bits. */
  lemma {:induction false} SymbolBitsOfEncode(r: seq<bool>, a: string, w: nat)
    requires w > 0 && |a| == Pow2(w) && Distinct(a)
    ensures SymbolBits(EncodeBits(r, a, w), a, w) == r + Zeros(PadBits(|r|, w))
    decreases |r|
  {
    var s := EncodeBits(r, a, w);
    if |r| == 0 {
    } else if |r| < w {
      LastGroup(r, a, w);
    } else {
      SymbolOfGroup(r[..w], a, w);
      var t := EncodeBits(r[w..], a, w);
      assert s == [a[Value(r[..w])]] + t;
      SymbolBitsCons(a[Value(r[..w])], t, a, w);
      SymbolBitsOfEncode(r[w..], a, w);
      assert r == r[..w] + r[w..];
    }
  }

  /** Round trip: decoding an encoding gives the bytes back, for any
      alphabet of 2^w distinct symbols with w at most 8. */
  lemma DecodeEncode(bs: seq<bv8>, a: string, w: nat)
    requires 0 < w <= 8 && |a| == Pow2(w) && Distinct(a)
    ensures Decode(Encode(bs, a, w), a, w) == bs
  {
    var r := Bits(bs);
    var p := PadBits(|r|, w);
    SymbolBitsOfEncode(r, a, w);
    var t := r + Zeros(p);
    assert |t| / 8 * 8 == |r|;
    assert t[..|r|] == r;
    BytesOfBits(bs);
  }

  /** Distinct byte strings have distinct base 64 encodings. */
  lemma Base64UrlInjective(bs1: seq<bv8>, bs2: seq<bv8>)
    requires Base64Url(bs1) == Base64Url(bs2)
    ensures bs1 == bs2
  {
    UrlAlphabetFacts();
    DecodeEncode(bs1, UrlAlphabet, 6);
    DecodeEncode(bs2, UrlAlphabet, 6);
  }

  /** Distinct byte strings have distinct identifier encodings. */
  lemma Base32IdInjective(bs1: seq<bv8>, bs2: seq<bv8>)
    requires Base32Id(bs1) == Base32Id(bs2)
    ensures bs1 == bs2
  {
    IdAlphabetFacts();
    DecodeEncode(bs1, IdAlphabet, 5);
    DecodeEncode(bs2, IdAlphabet, 5);
  }

  /** The bits of the first j bytes are the first 8j bits of the stream. */
  lemma {:induction false} BitsPrefix(bs: seq<bv8>, j: nat)
    requires j <= |bs|
    ensures Bits(bs)[..8 * j] == Bits(bs[..j])
  {
    if j > 0 {
      BitsPrefix(bs[1..], j - 1);
      assert bs[..j] == [bs[0]] + bs[1..][..j - 1];
      assert Bits(bs[..j]) == ByteBits(bs[0]) + Bits(bs[1..][..j - 1]);
    }
  }

  lemma PrefixParts(r: seq<bool>, w: nat, k: nat)
    requires 0 < k && 0 < w && k * w <= |r|
    ensures (k - 1) * w <= |r| - w
    ensures r[..k * w] == r[..w] + r[w..][..(k - 1) * w]
  {
    assert (k - 1) * w == k * w - w;
  }

  /** The first k symbols of an encoding stand for the first k*w bits of the
      stream, when the stream has that many bits. */
  lemma {:induction false} SymbolBitsOfPrefix(r: seq<bool>, a: string, w: nat, k: nat)
    requires w > 0 && |a| == Pow2(w) && Distinct(a) && k * w <= |r|
    requires k <= |EncodeBits(r, a, w)|
    ensures SymbolBits(EncodeBits(r, a, w)[..k], a, w) == r[..k * w]
    decreases k
  {
    if k > 0 {
      var s := EncodeBits(r, a, w);
      var t := EncodeBits(r[w..], a, w);
      SymbolOfGroup(r[..w], a, w);
      assert s == [a[Value(r[..w])]] + t;
      PrefixParts(r, w, k);
      SymbolBitsOfPrefix(r[w..], a, w, k - 1);
      assert s[..k] == [s[0]] + t[..k - 1];
      SymbolBitsCons(s[0], t[..k - 1], a, w);
    }
  }

  /** Two byte strings whose encodings agree on their first k symbols agree
      on their first j bytes, when those symbols carry at least 8j bits of
      both streams: a prefix of an encoding determines a prefix of the
      bytes. */
  lemma EncodePrefixDetermines(bs1: seq<bv8>, bs2: seq<bv8>, a: string, w: nat, k: nat, j: nat)
    requires w > 0 && |a| == Pow2(w) && Distinct(a)
    requires 8 * j <= k * w && k * w <= 8 * |bs1| && k * w <= 8 * |bs2|
    requires k <= |Encode(bs1, a, w)| && k <= |Encode(bs2, a, w)|
    requires Encode(bs1, a, w)[..k] == Encode(bs2, a, w)[..k]
    ensures bs1[..j] == bs2[..j]
  {
    var r1, r2 := Bits(bs1), Bits(bs2);
    SymbolBitsOfPrefix(r1, a, w, k);
    SymbolBitsOfPrefix(r2, a, w, k);
    assert r1[..k * w] == r2[..k * w];
    assert r1[..8 * j] == r1[..k * w][..8 * j];
    assert r2[..8 * j] == r2[..k * w][..8 * j];
    BitsPrefix(bs1, j);
    BitsPrefix(bs2, j);
    BytesOfBits(bs1[..j]);
    BytesOfBits(bs2[..j]);
  }
}
