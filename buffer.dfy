/** Field packing and buffer assembly of an identifier (Gen.unique in
    unique.go). The mark and host are packed into two 32-bit fields; the
    scrambled fields, the counter's overflow words and either random padding
    or one extra byte are written little-endian into a byte buffer. Parsing
    the buffer is the partner of writing it. */
module Buffer {
  import opened Counter
  import opened Scrambler
  import Binary

  /** The two 32-bit fields that carry the mark and the host. */
  datatype Fields = Fields(f1: bv32, f2: bv32)

  /** Go's packing: with a 16-bit host, f1 holds bits 16..47 of the mark and
      f2 the host in its low half and bits 0..15 of the mark in its high
      half; with no 16-bit host (zero), f1 holds the low 32 bits of the mark
      and f2 the 32-bit host. */
  function Pack(mark: bv64, addr32: bv32, addr16: bv16): Fields {
    if addr16 != 0 then
      Fields(((mark >> 16) & 0xffff_ffff) as bv32,
             (addr16 as bv32) | (((mark << 16) & 0xffff_ffff) as bv32))
    else
      Fields((mark & 0xffff_ffff) as bv32, addr32)
  }

  /** The part of the mark that the fields keep: 48 bits with a 16-bit host,
      32 bits otherwise. */
  function KeptMark(mark: bv64, addr16: bv16): bv64 {
    if addr16 != 0 then mark & FortyEightBits else mark & 0xffff_ffff
  }

  /** Reads the kept part of the mark back out of the fields. */
  function MarkOfFields(f: Fields, addr16: bv16): bv64 {
    if addr16 != 0 then ((f.f1 as bv64) << 16) | ((f.f2 >> 16) as bv64)
    else f.f1 as bv64
  }

  /** The fields give back the kept part of the mark. */
  lemma PackKeepsMark(mark: bv64, addr32: bv32, addr16: bv16)
    ensures MarkOfFields(Pack(mark, addr32, addr16), addr16) == KeptMark(mark, addr16)
  {
  }

  /** The fields carry the host: the 16-bit host in the low half of f2, or
      the 32-bit host as f2. */
  lemma PackKeepsHost(mark: bv64, addr32: bv32, addr16: bv16)
    ensures addr16 != 0 ==> Pack(mark, addr32, addr16).f2 & 0xffff == addr16 as bv32
    ensures addr16 == 0 ==> Pack(mark, addr32, addr16).f2 == addr32
  {
  }

  /** For a fixed host, equal fields mean equal kept marks. */
  lemma PackInjective(m1: bv64, m2: bv64, addr32: bv32, addr16: bv16)
    requires Pack(m1, addr32, addr16) == Pack(m2, addr32, addr16)
    ensures KeptMark(m1, addr16) == KeptMark(m2, addr16)
  {
    PackKeepsMark(m1, addr32, addr16);
    PackKeepsMark(m2, addr32, addr16);
  }

  /** binary.LittleEndian for a uint16. */
  function LE16(x: bv16): seq<bv8> {
    [(x & 0xff) as bv8, (x >> 8) as bv8]
  }

  /** binary.LittleEndian for a uint32. */
  function LE32(x: bv32): seq<bv8> {
    [(x & 0xff) as bv8, ((x >> 8) & 0xff) as bv8, ((x >> 16) & 0xff) as bv8, (x >> 24) as bv8]
  }

  /** A counter word, little-endian. */
  function WordBytes(w: U16): seq<bv8> {
    [Binary.Byte(w % 256), Binary.Byte(w / 256)]
  }

  /** A counter word as the uint16 the scrambler takes: its high byte and
      its low byte. */
  function Word16(w: U16): bv16 {
    ((WordBytes(w)[1] as bv16) << 8) | (WordBytes(w)[0] as bv16)
  }

  lemma Bv16Bytes(hi1: bv8, lo1: bv8, hi2: bv8, lo2: bv8)
    requires ((hi1 as bv16) << 8) | (lo1 as bv16) == ((hi2 as bv16) << 8) | (lo2 as bv16)
    ensures hi1 == hi2 && lo1 == lo2
  {
  }

  /** Distinct counter words are distinct uint16 values. */
  lemma Word16Injective(x: U16, y: U16)
    requires Word16(x) == Word16(y)
    ensures x == y
  {
    Bv16Bytes(WordBytes(x)[1], WordBytes(x)[0], WordBytes(y)[1], WordBytes(y)[0]);
    WordRoundTrip(x);
    WordRoundTrip(y);
  }

  /** A high byte and a low byte make the uint16 hi * 256 + lo. */
  lemma Bv16Value(hi: bv8, lo: bv8)
    ensures (((hi as bv16) << 8) | (lo as bv16)) as int == hi as int * 256 + lo as int
  {
  }

  /** The uint16 the scrambler takes is the counter word itself: Go's
      `uint16(seqs[0])`. */
  lemma Word16Value(w: U16)
    ensures Word16(w) as int == w
  {
    Bv16Value(WordBytes(w)[1], WordBytes(w)[0]);
    WordRoundTrip(w);
  }

  /** binary.LittleEndian for a []uint16: each word, little-endian. */
  function WordsLE(ws: seq<U16>): (r: seq<bv8>)
    ensures |r| == 2 * |ws|
  {
    if |ws| == 0 then [] else WordBytes(ws[0]) + WordsLE(ws[1..])
  }

  /** The twelve bytes of the scrambled fields: a, b, c, d little-endian. */
  function Head(q: Quad): (r: seq<bv8>)
    ensures |r| == 12
  {
    LE32(q.a) + LE32(q.b) + LE16(q.c) + LE16(q.d)
  }

  /** The buffer: the head, the overflow words, and then either random bytes
      up to numBytes or, when the buffer already reaches numBytes, one extra
      byte equal to the low byte of d. rnd supplies the random bytes. */
  function Layout(q: Quad, ext: seq<U16>, numBytes: int, rnd: seq<bv8>): seq<bv8>
    requires numBytes <= |rnd|
  {
    var body := Head(q) + WordsLE(ext);
    if |body| < numBytes then body + rnd[..numBytes - |body|]
    else body + [(q.d & 0xff) as bv8]
  }

  /** The buffer starts with the head and the overflow words. */
  lemma LayoutPrefix(q: Quad, ext: seq<U16>, numBytes: int, rnd: seq<bv8>)
    requires numBytes <= |rnd|
    ensures var buf := Layout(q, ext, numBytes, rnd);
      |buf| > 12 + 2 * |ext| &&
      buf[..12] == Head(q) && buf[12..12 + 2 * |ext|] == WordsLE(ext)
  {
    var h := Head(q);
    var w := WordsLE(ext);
    var buf := Layout(q, ext, numBytes, rnd);
    var t := if |h + w| < numBytes then rnd[..numBytes - |h + w|] else [(q.d & 0xff) as bv8];
    assert buf == (h + w) + t;
    Parts(h, w, t);
  }

  lemma Parts(x: seq<bv8>, y: seq<bv8>, t: seq<bv8>)
    ensures ((x + y) + t)[..|x|] == x && ((x + y) + t)[|x|..|x| + |y|] == y
  {
  }

  /** How long the buffer is and what ends it: numBytes in all, with the
      random bytes as the tail, when that is longer than the head and the
      overflow words; otherwise one byte more, a copy of byte 10, the low
      byte of d. */
  lemma LayoutTail(q: Quad, ext: seq<U16>, numBytes: int, rnd: seq<bv8>)
    requires numBytes <= |rnd|
    ensures var buf := Layout(q, ext, numBytes, rnd);
      var k := 12 + 2 * |ext|;
      (k < numBytes ==> |buf| == numBytes && buf[k..] == rnd[..numBytes - k]) &&
      (numBytes <= k ==> |buf| == k + 1 && buf[k] == buf[10])
  {
    var body := Head(q) + WordsLE(ext);
    assert body[10] == Head(q)[10] == (q.d & 0xff) as bv8;
  }

  /** The writes of Go's unique: the scrambled values and the overflow words
      little-endian, then random bytes up to numBytes or the extra byte. */
  method WriteBuffer(q: Quad, ext: seq<U16>, numBytes: int, rnd: seq<bv8>) returns (buf: seq<bv8>)
    requires numBytes <= |rnd|
    ensures buf == Layout(q, ext, numBytes, rnd)
  {
    buf := LE32(q.a);
    buf := buf + LE32(q.b);
    buf := buf + LE16(q.c);
    buf := buf + LE16(q.d);
    buf := buf + WordsLE(ext);
    if |buf| < numBytes {
      buf := buf + rnd[..numBytes - |buf|];
    } else {
      buf := buf + [(q.d & 0xff) as bv8];
    }
  }

  /** Reads a little-endian uint32 at offset i. */
  function ReadLE32(bs: seq<bv8>, i: nat): bv32
    requires i + 4 <= |bs|
  {
    (bs[i] as bv32) | ((bs[i + 1] as bv32) << 8) | ((bs[i + 2] as bv32) << 16) | ((bs[i + 3] as bv32) << 24)
  }

  /** Reads a little-endian uint16 at offset i. */
  function ReadLE16(bs: seq<bv8>, i: nat): bv16
    requires i + 2 <= |bs|
  {
    (bs[i] as bv16) | ((bs[i + 1] as bv16) << 8)
  }

  /** Reads the scrambled fields back from the first twelve bytes. */
  function ParseHead(bs: seq<bv8>): Quad
    requires |bs| >= 12
  {
    Quad(ReadLE32(bs, 0), ReadLE32(bs, 4), ReadLE16(bs, 8), ReadLE16(bs, 10))
  }

  /** Reads little-endian words back from an even number of bytes. */
  function ParseWords(bs: seq<bv8>): (ws: seq<U16>)
    requires |bs| % 2 == 0
    decreases |bs|
  {
    if |bs| == 0 then [] else [bs[0] as int + 256 * (bs[1] as int)] + ParseWords(bs[2..])
  }

  lemma LE32RoundTrip(x: bv32)
    ensures ReadLE32(LE32(x), 0) == x
  {
  }

  lemma LE16RoundTrip(x: bv16)
    ensures ReadLE16(LE16(x), 0) == x
  {
  }

  lemma HeadRoundTrip(q: Quad)
    ensures ParseHead(Head(q)) == q
  {
    var h := Head(q);
    assert h[0..4] == LE32(q.a) && h[4..8] == LE32(q.b);
    assert h[8..10] == LE16(q.c) && h[10..12] == LE16(q.d);
    ReadAt32(h, 0, LE32(q.a));
    ReadAt32(h, 4, LE32(q.b));
    ReadAt16(h, 8, LE16(q.c));
    ReadAt16(h, 10, LE16(q.d));
    LE32RoundTrip(q.a);
    LE32RoundTrip(q.b);
    LE16RoundTrip(q.c);
    LE16RoundTrip(q.d);
  }

  /** A read depends only on the bytes it reads. */
  lemma ReadAt32(bs: seq<bv8>, i: nat, s: seq<bv8>)
    requires i + 4 <= |bs| && bs[i..i + 4] == s
    ensures ReadLE32(bs, i) == ReadLE32(s, 0)
  {
    assert bs[i] == s[0] && bs[i + 1] == s[1] && bs[i + 2] == s[2] && bs[i + 3] == s[3];
  }

  lemma ReadAt16(bs: seq<bv8>, i: nat, s: seq<bv8>)
    requires i + 2 <= |bs| && bs[i..i + 2] == s
    ensures ReadLE16(bs, i) == ReadLE16(s, 0)
  {
    assert bs[i] == s[0] && bs[i + 1] == s[1];
  }

  lemma WordRoundTrip(w: U16)
    ensures WordBytes(w)[0] as int + 256 * (WordBytes(w)[1] as int) == w
  {
    Binary.ByteInt(w % 256);
    Binary.ByteInt(w / 256);
  }

  lemma {:induction false} WordsRoundTrip(ws: seq<U16>)
    ensures ParseWords(WordsLE(ws)) == ws
  {
    if |ws| > 0 {
      var bs := WordsLE(ws);
      WordRoundTrip(ws[0]);
      assert bs[2..] == WordsLE(ws[1..]);
      WordsRoundTrip(ws[1..]);
      assert ws == [ws[0]] + ws[1..];
    }
  }

  /** Round trip: the buffer gives back the scrambled fields and the
      overflow words. */
  lemma ParseLayout(q: Quad, ext: seq<U16>, numBytes: int, rnd: seq<bv8>)
    requires numBytes <= |rnd|
    ensures var buf := Layout(q, ext, numBytes, rnd);
      |buf| >= 12 + 2 * |ext| &&
      ParseHead(buf) == q && ParseWords(buf[12..12 + 2 * |ext|]) == ext
  {
    LayoutPrefix(q, ext, numBytes, rnd);
    ParsePrefix(Layout(q, ext, numBytes, rnd), q, ext);
  }

  /** Any buffer that starts with the head and the overflow words gives
      them back. */
  lemma ParsePrefix(buf: seq<bv8>, q: Quad, ext: seq<U16>)
    requires |buf| >= 12 + 2 * |ext|
    requires buf[..12] == Head(q) && buf[12..12 + 2 * |ext|] == WordsLE(ext)
    ensures ParseHead(buf) == q && ParseWords(buf[12..12 + 2 * |ext|]) == ext
  {
    ParseHeadPrefix(buf);
    HeadRoundTrip(q);
    WordsRoundTrip(ext);
  }

  /** The head is read from the first twelve bytes alone. */
  lemma ParseHeadPrefix(bs: seq<bv8>)
    requires |bs| >= 12
    ensures ParseHead(bs) == ParseHead(bs[..12])
  {
  }

  /** Two buffers that agree on the head and the overflow words carry the
      same scrambled fields and the same words, whatever follows them. */
  lemma LayoutDetermines(q1: Quad, ext1: seq<U16>, n1: int, rnd1: seq<bv8>,
                         q2: Quad, ext2: seq<U16>, n2: int, rnd2: seq<bv8>)
    requires n1 <= |rnd1| && n2 <= |rnd2| && |ext1| == |ext2|
    requires var k := 12 + 2 * |ext1|;
      Layout(q1, ext1, n1, rnd1)[..k] == Layout(q2, ext2, n2, rnd2)[..k]
    ensures q1 == q2 && ext1 == ext2
  {
    var k := 12 + 2 * |ext1|;
    var buf1, buf2 := Layout(q1, ext1, n1, rnd1), Layout(q2, ext2, n2, rnd2);
    ParseLayout(q1, ext1, n1, rnd1);
    ParseLayout(q2, ext2, n2, rnd2);
    assert buf1[..12] == buf1[..k][..12] && buf2[..12] == buf2[..k][..12];
    ParseHeadPrefix(buf1);
    ParseHeadPrefix(buf2);
    assert buf1[12..k] == buf1[..k][12..] && buf2[12..k] == buf2[..k][12..];
  }
}
