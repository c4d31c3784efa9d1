/** The identifier generator (Gen in unique.go): its settings and length
    arithmetic (calcBytes), one identifier's bytes (unique) and its text
    (Unique). The clock, the host address, the process id and the random
    bytes are parameters; the counter is the Sequence object of the Counter
    module, owned by one generator or shared by all package-level calls. */
module Generator {
  import opened Counter
  import opened Scrambler
  import opened Buffer
  import opened Encoding
  import opened Binary

  /** Go's int64. */
  type I64 = x: int | -0x8000_0000_0000_0000 <= x < 0x8000_0000_0000_0000

  /** What the option functions set: WithUpperCase, WithLength, WithHost or
      the host address, WithHost16 (zero when absent), WithPid or the process
      id. */
  datatype Options = Options(upper: bool, length: int, host: bv32, host16: bv16, pid: bv16)

  /** A generator's settings once calcBytes has run. */
  datatype Config = Config(upper: bool, numChars: int, numBytes: int,
                           addr32: bv32, addr16: bv16, pid: bv16)

  /** Go's uint64(x) for an int64 x: the two's complement bits read as
      unsigned. */
  function ToU64(x: I64): (r: U64)
    ensures x >= 0 ==> r == x
    ensures x < 0 ==> r == x + Two64
  {
    x % Two64
  }

  /** Nanoseconds within a second. */
  type Nanos = x: int | 0 <= x < 1_000_000_000

  /** One reading of Go's time.Now: the Unix seconds and the nanoseconds
      within that second. Both Unix() and UnixNano() are read from it. */
  datatype Time = Time(sec: I64, nsec: Nanos)

  /** Go's t.UnixNano(): sec * 10^9 + nsec in int64 arithmetic, so it wraps
      for readings outside the years 1678 to 2262. */
  function UnixNano(t: Time): (r: I64)
    ensures var v := t.sec * 1_000_000_000 + t.nsec;
      (-0x8000_0000_0000_0000 <= v < 0x8000_0000_0000_0000 ==> r == v) && (r - v) % Two64 == 0
  {
    var v := t.sec * 1_000_000_000 + t.nsec;
    (v + 0x8000_0000_0000_0000) % Two64 - 0x8000_0000_0000_0000
  }

  /** The mark asked of the counter for the reading now: with a 16-bit host,
      UnixNano >> 16 (units of 65536 ns, about 1/16 ms; an arithmetic shift,
      so a floor division); otherwise Unix(), the time in seconds. */
  function RequestedMark(addr16: bv16, now: Time): U64 {
    if addr16 != 0 then ToU64(UnixNano(now) / 0x1_0000) else ToU64(now.sec)
  }

  /** t1 is no later than t2. */
  predicate NotAfter(t1: Time, t2: Time) {
    t1.sec < t2.sec || (t1.sec == t2.sec && t1.nsec <= t2.nsec)
  }

  /** From the epoch until UnixNano wraps in 2262, a later clock reading
      never asks for an earlier mark. */
  lemma RequestedMarkMonotone(addr16: bv16, t1: Time, t2: Time)
    requires 0 <= t1.sec && NotAfter(t1, t2)
    requires t2.sec * 1_000_000_000 + t2.nsec < 0x8000_0000_0000_0000
    ensures RequestedMark(addr16, t1) <= RequestedMark(addr16, t2)
  {
    var v1 := t1.sec * 1_000_000_000 + t1.nsec;
    var v2 := t2.sec * 1_000_000_000 + t2.nsec;
    if t1.sec < t2.sec {
      assert (t1.sec + 1) * 1_000_000_000 <= t2.sec * 1_000_000_000;
    }
    assert 0 <= v1 <= v2;
    assert UnixNano(t1) / 0x1_0000 <= UnixNano(t2) / 0x1_0000;
  }

  /** Bits per character: 6 for base 64, 5 for base 32. */
  function BitsPerChar(upper: bool): nat {
    if upper then 6 else 5
  }

  /** The shortest id: 16 base 64 or 20 base 32 characters. */
  function MinChars(upper: bool): nat {
    if upper then 16 else 20
  }

  /** Characters added per overflow word: 3 base 64 or 4 base 32 ones. */
  function CharsPerWord(upper: bool): nat {
    if upper then 3 else 4
  }

  /** calcBytes' numBytes: (n*6+7)>>3 or (n*5+7)>>3; the shift is an
      arithmetic one, a floor division. */
  function NumBytes(upper: bool, n: int): int {
    if upper then (n * 6 + 7) / 8 else (n * 5 + 7) / 8
  }

  /** calcBytes' numChars: the requested length raised to the shortest id. */
  function NumChars(upper: bool, n: int): int {
    if n < MinChars(upper) then MinChars(upper) else n
  }

  /** numBytes is the least number of bytes whose bits fill n characters. */
  lemma NumBytesLeast(upper: bool, n: nat)
    ensures 8 * NumBytes(upper, n) >= BitsPerChar(upper) * n
    ensures 8 * (NumBytes(upper, n) - 1) < BitsPerChar(upper) * n
  {
  }

  /** numChars is at least the requested length and the shortest id, and is
      the requested length once that is long enough. */
  lemma NumCharsBounds(upper: bool, n: int)
    ensures NumChars(upper, n) >= n && NumChars(upper, n) >= MinChars(upper)
    ensures n >= MinChars(upper) ==> NumChars(upper, n) == n
  {
  }

  /** The settings NewGenerator and Unique make from the options. */
  function Configure(o: Options): Config {
    Config(o.upper, NumChars(o.upper, o.length), NumBytes(o.upper, o.length), o.host, o.host16, o.pid)
  }

  /** The four values the scrambler takes: the packed mark and host, the
      pid and the first counter word. */
  function Unscrambled(c: Config, mark: bv64, w0: bv16): Quad {
    var f := Pack(mark, c.addr32, c.addr16);
    Quad(f.f1, f.f2, c.pid, w0)
  }

  /** The bytes Go's unique writes for the mark's bits, the first counter
      word and the overflow words ext: the scrambled values, then ext, then
      the padding or the extra byte. rnd supplies the random bytes. */
  function IdBytes(c: Config, mark: bv64, w0: bv16, ext: seq<U16>, rnd: seq<bv8>): seq<bv8>
    requires c.numBytes <= |rnd|
  {
    Layout(Scramble(Unscrambled(c, mark, w0)), ext, c.numBytes, rnd)
  }

  /** The text of an id, or the slice bounds that make Go panic. */
  datatype IdResult = Ok(id: string) | OutOfRange(end: int, length: int)

  /** The full encoding of an id's bytes. */
  function Encoded(upper: bool, buf: seq<bv8>): string {
    if upper then Base64Url(buf) else Base32Id(buf)
  }

  /** Go's Unique after unique: encode, then keep numChars characters and
      the characters added per overflow word. A slice end past the encoding
      panics in Go; it is OutOfRange here. */
  function Render(c: Config, buf: seq<bv8>, el: nat): IdResult {
    var id := Encoded(c.upper, buf);
    var end := c.numChars + CharsPerWord(c.upper) * el;
    if 0 <= end <= |id| then Ok(id[..end]) else OutOfRange(end, |id|)
  }

  /** An id uses only the symbols of its alphabet and never a padding
      character; a lower-case id never uses l, o, 0 or 1. */
  lemma RenderCharset(c: Config, buf: seq<bv8>, el: nat)
    requires Render(c, buf, el).Ok?
    ensures var id := Render(c, buf, el).id;
      forall i :: 0 <= i < |id| ==>
        id[i] != '=' && (if c.upper then id[i] in UrlAlphabet else id[i] in IdAlphabet && id[i] !in "lo01")
  {
  }

  /** The buffer without overflow words is numBytes long, or 13 bytes when
      numBytes is smaller. */
  lemma IdBytesLength(c: Config, mark: bv64, w0: bv16, rnd: seq<bv8>)
    requires c.numBytes <= |rnd|
    ensures |IdBytes(c, mark, w0, [], rnd)| == if 12 < c.numBytes then c.numBytes else 13
  {
    LayoutTail(Scramble(Unscrambled(c, mark, w0)), [], c.numBytes, rnd);
  }

  /** Without overflow words the slice is always in range: the id is exactly
      numChars characters long, so at least the requested length. */
  lemma OverflowFreeIdFits(o: Options, mark: bv64, w0: bv16, rnd: seq<bv8>)
    requires Configure(o).numBytes <= |rnd|
    ensures var c := Configure(o);
      var r := Render(c, IdBytes(c, mark, w0, [], rnd), 0);
      r.Ok? && |r.id| == c.numChars && |r.id| >= o.length
  {
    IdBytesLength(Configure(o), mark, w0, rnd);
  }

  /** Both alphabets give ids of exactly 30 and 41 characters when those
      lengths are asked for and the counter has not overflowed. */
  lemma RequestedLengths(upper: bool, n: int, host: bv32, pid: bv16, mark: bv64, w0: bv16, rnd: seq<bv8>)
    requires n == 30 || n == 41
    requires |rnd| >= 31
    ensures var c := Configure(Options(upper, n, host, 0, pid));
      var r := Render(c, IdBytes(c, mark, w0, [], rnd), 0);
      r.Ok? && |r.id| == n
  {
    OverflowFreeIdFits(Options(upper, n, host, 0, pid), mark, w0, rnd);
  }

  /** With one overflow word the slice can run past the encoding:
      WithLength(30) in lower case pads the buffer to 19 bytes, which encode
      to 31 characters, but the slice asks for 30 + 4 = 34. */
  lemma LongLowerCaseIdOutOfRange(host: bv32, pid: bv16, mark: bv64, w0: bv16, w1: U16, rnd: seq<bv8>)
    requires |rnd| >= 19
    ensures var c := Configure(Options(false, 30, host, 0, pid));
      Render(c, IdBytes(c, mark, w0, [w1], rnd), 1) == OutOfRange(34, 31)
  {
    var c := Configure(Options(false, 30, host, 0, pid));
    assert c.numBytes == 19 && c.numChars == 30 && !c.upper;
    ShortLayoutOutOfRange(c, Scramble(Unscrambled(c, mark, w0)), w1, rnd);
  }

  lemma ShortLayoutOutOfRange(c: Config, q: Quad, w1: U16, rnd: seq<bv8>)
    requires c.numBytes == 19 && c.numChars == 30 && !c.upper && |rnd| >= 19
    ensures Render(c, Layout(q, [w1], c.numBytes, rnd), 1) == OutOfRange(34, 31)
  {
    LayoutTail(q, [w1], c.numBytes, rnd);
    assert |Encoded(false, Layout(q, [w1], c.numBytes, rnd))| == 31;
  }

  /** Uniqueness: two ids a generator renders are equal only if they come
      from the same kept part of the mark and the same counter words. Only
      the head and the overflow words decide this; the padding and the
      extra byte play no part. */
  lemma IdDeterminesFields(c: Config, m1: bv64, h1: bv16, ext1: seq<U16>, rnd1: seq<bv8>,
                           m2: bv64, h2: bv16, ext2: seq<U16>, rnd2: seq<bv8>)
    requires c.numChars >= MinChars(c.upper)
    requires c.numBytes <= |rnd1| && c.numBytes <= |rnd2|
    requires Render(c, IdBytes(c, m1, h1, ext1, rnd1), |ext1|).Ok?
    requires Render(c, IdBytes(c, m1, h1, ext1, rnd1), |ext1|) == Render(c, IdBytes(c, m2, h2, ext2, rnd2), |ext2|)
    ensures KeptMark(m1, c.addr16) == KeptMark(m2, c.addr16) && h1 == h2 && ext1 == ext2
  {
    var q1, q2 := Scramble(Unscrambled(c, m1, h1)), Scramble(Unscrambled(c, m2, h2));
    LayoutsDetermine(c, q1, ext1, rnd1, q2, ext2, rnd2);
    UnscrambledInjective(c, m1, h1, m2, h2);
  }

  /** The layout-level half of uniqueness, for any scrambled values. */
  lemma LayoutsDetermine(c: Config, q1: Quad, ext1: seq<U16>, rnd1: seq<bv8>,
                         q2: Quad, ext2: seq<U16>, rnd2: seq<bv8>)
    requires c.numChars >= MinChars(c.upper)
    requires c.numBytes <= |rnd1| && c.numBytes <= |rnd2|
    requires Render(c, Layout(q1, ext1, c.numBytes, rnd1), |ext1|).Ok?
    requires Render(c, Layout(q1, ext1, c.numBytes, rnd1), |ext1|) == Render(c, Layout(q2, ext2, c.numBytes, rnd2), |ext2|)
    ensures q1 == q2 && ext1 == ext2
  {
    var buf1, buf2 := Layout(q1, ext1, c.numBytes, rnd1), Layout(q2, ext2, c.numBytes, rnd2);
    SameLength(c, buf1, buf2, |ext1|, |ext2|);
    LayoutPrefix(q1, ext1, c.numBytes, rnd1);
    LayoutPrefix(q2, ext2, c.numBytes, rnd2);
    HeadBytesAgree(c, buf1, buf2, |ext1|);
    LayoutDetermines(q1, ext1, c.numBytes, rnd1, q2, ext2, c.numBytes, rnd2);
  }

  /** A rendered id is the first numChars + CharsPerWord * el characters of
      the encoding. */
  lemma RenderOk(c: Config, buf: seq<bv8>, el: nat)
    requires Render(c, buf, el).Ok?
    ensures var end := c.numChars + CharsPerWord(c.upper) * el;
      0 <= end <= |Encoded(c.upper, buf)| && Render(c, buf, el).id == Encoded(c.upper, buf)[..end]
  {
  }

  /** Equal ids come from the same number of overflow words. */
  lemma SameLength(c: Config, buf1: seq<bv8>, buf2: seq<bv8>, el1: nat, el2: nat)
    requires Render(c, buf1, el1).Ok? && Render(c, buf1, el1) == Render(c, buf2, el2)
    ensures el1 == el2
  {
    RenderOk(c, buf1, el1);
    RenderOk(c, buf2, el2);
    var k := CharsPerWord(c.upper);
    assert |Render(c, buf1, el1).id| == c.numChars + k * el1;
    assert |Render(c, buf2, el2).id| == c.numChars + k * el2;
    assert k * el1 == k * el2;
    if c.upper {
      assert 3 * el1 == 3 * el2;
    } else {
      assert 4 * el1 == 4 * el2;
    }
  }

  /** The scrambler's input determines the kept mark and the first word. */
  lemma UnscrambledInjective(c: Config, m1: bv64, h1: bv16, m2: bv64, h2: bv16)
    requires Scramble(Unscrambled(c, m1, h1)) == Scramble(Unscrambled(c, m2, h2))
    ensures KeptMark(m1, c.addr16) == KeptMark(m2, c.addr16) && h1 == h2
  {
    ScrambleInjective(Unscrambled(c, m1, h1), Unscrambled(c, m2, h2));
    PackInjective(m1, m2, c.addr32, c.addr16);
  }

  /** Equal rendered ids mean equal buffers up to the end of the overflow
      words: the symbols that encode those bytes lie within the id. */
  lemma HeadBytesAgree(c: Config, buf1: seq<bv8>, buf2: seq<bv8>, el: nat)
    requires c.numChars >= MinChars(c.upper)
    requires |buf1| > 12 + 2 * el && |buf2| > 12 + 2 * el
    requires Render(c, buf1, el).Ok? && Render(c, buf1, el) == Render(c, buf2, el)
    ensures buf1[..12 + 2 * el] == buf2[..12 + 2 * el]
  {
    var k := CharsPerWord(c.upper);
    var end := c.numChars + k * el;
    SameRender(c, buf1, buf2, el, end);
    var e1, e2 := Encoded(c.upper, buf1), Encoded(c.upper, buf2);
    if c.upper {
      assert k * el == 3 * el;
      assert e1 == Base64Url(buf1) && e2 == Base64Url(buf2);
      UrlPrefixDetermines(buf1, buf2, el, end);
    } else {
      assert k * el == 4 * el;
      assert e1 == Base32Id(buf1) && e2 == Base32Id(buf2);
      IdPrefixDetermines(buf1, buf2, el, end);
    }
  }

  /** Equal rendered ids are equal prefixes of the two encodings. */
  lemma SameRender(c: Config, buf1: seq<bv8>, buf2: seq<bv8>, el: nat, end: int)
    requires end == c.numChars + CharsPerWord(c.upper) * el
    requires Render(c, buf1, el).Ok? && Render(c, buf1, el) == Render(c, buf2, el)
    ensures 0 <= end <= |Encoded(c.upper, buf1)| && end <= |Encoded(c.upper, buf2)|
    ensures Encoded(c.upper, buf1)[..end] == Encoded(c.upper, buf2)[..end]
  {
    RenderOk(c, buf1, el);
    RenderOk(c, buf2, el);
  }

  /** The first end characters of a base 64 encoding determine the 12 + 2el
      bytes of an id with el overflow words, which take at most 16 + 3el
      characters. */
  lemma UrlPrefixDetermines(buf1: seq<bv8>, buf2: seq<bv8>, el: nat, end: int)
    requires |buf1| > 12 + 2 * el && |buf2| > 12 + 2 * el
    requires 16 + 3 * el <= end <= |Base64Url(buf1)| && end <= |Base64Url(buf2)|
    requires Base64Url(buf1)[..end] == Base64Url(buf2)[..end]
    ensures buf1[..12 + 2 * el] == buf2[..12 + 2 * el]
  {
    var b := 12 + 2 * el;
    var k := (8 * b + 5) / 6;
    assert k <= end;
    var e1, e2 := Base64Url(buf1), Base64Url(buf2);
    assert e1[..k] == e1[..end][..k] && e2[..k] == e2[..end][..k];
    UrlAlphabetFacts();
    EncodePrefixDetermines(buf1, buf2, UrlAlphabet, 6, k, b);
  }

  /** The first end characters of an identifier encoding determine the
      12 + 2el bytes of an id with el overflow words, which take at most
      20 + 4el characters. */
  lemma IdPrefixDetermines(buf1: seq<bv8>, buf2: seq<bv8>, el: nat, end: int)
    requires |buf1| > 12 + 2 * el && |buf2| > 12 + 2 * el
    requires 20 + 4 * el <= end <= |Base32Id(buf1)| && end <= |Base32Id(buf2)|
    requires Base32Id(buf1)[..end] == Base32Id(buf2)[..end]
    ensures buf1[..12 + 2 * el] == buf2[..12 + 2 * el]
  {
    var b := 12 + 2 * el;
    var k := (8 * b + 4) / 5;
    assert k <= end;
    var e1, e2 := Base32Id(buf1), Base32Id(buf2);
    assert e1[..k] == e1[..end][..k] && e2[..k] == e2[..end][..k];
    IdAlphabetFacts();
    EncodePrefixDetermines(buf1, buf2, IdAlphabet, 5, k, b);
  }

  /** The identifier that settings c render for the counter step s: the
      mark and the first word packed and scrambled, the other words after
      them, cut to length. */
  function IdOf(c: Config, s: Step, rnd: seq<bv8>): IdResult
    requires |s.words| >= 1 && c.numBytes <= |rnd|
  {
    Render(c, IdBytes(c, ToBv64(s.mark, 64), Word16(s.words[0]), s.words[1..], rnd), |s.words| - 1)
  }

  /** Equal ids come from counter steps with the same kept mark and the same
      words. */
  lemma IdOfDetermines(c: Config, s1: Step, rnd1: seq<bv8>, s2: Step, rnd2: seq<bv8>)
    requires c.numChars >= MinChars(c.upper)
    requires |s1.words| >= 1 && |s2.words| >= 1
    requires c.numBytes <= |rnd1| && c.numBytes <= |rnd2|
    requires IdOf(c, s1, rnd1).Ok? && IdOf(c, s1, rnd1) == IdOf(c, s2, rnd2)
    ensures KeptMark(ToBv64(s1.mark, 64), c.addr16) == KeptMark(ToBv64(s2.mark, 64), c.addr16)
    ensures s1.words == s2.words
  {
    var w1, w2 := s1.words, s2.words;
    var m1, m2 := ToBv64(s1.mark, 64), ToBv64(s2.mark, 64);
    var h1, h2 := Word16(w1[0]), Word16(w2[0]);
    IdOfParts(c, s1, rnd1);
    IdOfParts(c, s2, rnd2);
    IdDeterminesFields(c, m1, h1, w1[1..], rnd1, m2, h2, w2[1..], rnd2);
    WordsOfParts(w1, w2);
  }

  lemma IdOfParts(c: Config, s: Step, rnd: seq<bv8>)
    requires |s.words| >= 1 && c.numBytes <= |rnd|
    ensures IdOf(c, s, rnd) == Render(c, IdBytes(c, ToBv64(s.mark, 64), Word16(s.words[0]), s.words[1..], rnd), |s.words[1..]|)
  {
  }

  lemma WordsOfParts(w1: seq<U16>, w2: seq<U16>)
    requires |w1| >= 1 && |w2| >= 1
    requires Word16(w1[0]) == Word16(w2[0]) && w1[1..] == w2[1..]
    ensures w1 == w2
  {
    Word16Injective(w1[0], w2[0]);
    assert w1 == [w1[0]] + w1[1..] && w2 == [w2[0]] + w2[1..];
  }

  /** Uniqueness across successive calls: two successive calls on one counter
      render the same id only when their marks differ yet agree in the bits
      the fields keep, i.e. when the mark has moved on by a multiple of 2^48
      (16-bit host) or 2^32 (32-bit host). */
  lemma SuccessiveIdsDiffer(c: Config, st: State, req1: U64, req2: U64, rnd1: seq<bv8>, rnd2: seq<bv8>)
    requires c.numChars >= MinChars(c.upper)
    requires c.numBytes <= |rnd1| && c.numBytes <= |rnd2|
    ensures var s1 := Advance(st, req1);
      var s2 := Advance(s1.after, req2);
      IdOf(c, s1, rnd1).Ok? && IdOf(c, s1, rnd1) == IdOf(c, s2, rnd2) ==>
        s1.mark != s2.mark && KeptMark(ToBv64(s1.mark, 64), c.addr16) == KeptMark(ToBv64(s2.mark, 64), c.addr16)
  {
    var s1 := Advance(st, req1);
    var s2 := Advance(s1.after, req2);
    if IdOf(c, s1, rnd1).Ok? && IdOf(c, s1, rnd1) == IdOf(c, s2, rnd2) {
      IdOfDetermines(c, s1, rnd1, s2, rnd2);
      SuccessiveCallsDiffer(st, req1, req2);
    }
  }

  /** A generator: its settings and the counter it draws on. */
  class Gen {
    var upper: bool
    var numChars: int
    var numBytes: int
    var addr32: bv32
    var addr16: bv16
    var pid: bv16
    /** Go's field `seq`: the generator's own counter, or the shared one. */
    var counter: Sequence

    function Settings(): Config
      reads this
    {
      Config(upper, numChars, numBytes, addr32, addr16, pid)
    }

    /** NewGenerator: the options' settings and a fresh counter. */
    constructor (o: Options)
      ensures Settings() == Configure(o)
      ensures fresh(counter) && counter.Current() == State(0, 0)
    {
      upper, numChars, numBytes := o.upper, o.length, 0;
      addr32, addr16, pid := o.host, o.host16, o.pid;
      counter := new Sequence();
      new;
      CalcBytes();
    }

    /** The generator the package-level Unique makes: the options' settings
        and the shared counter. */
    constructor Shared(o: Options, shared: Sequence)
      ensures Settings() == Configure(o) && counter == shared
    {
      upper, numChars, numBytes := o.upper, o.length, 0;
      addr32, addr16, pid := o.host, o.host16, o.pid;
      counter := shared;
      new;
      CalcBytes();
    }

    /** calcBytes: sets numBytes from the requested length, then raises
        numChars to the shortest id. */
    method CalcBytes()
      modifies this
      ensures numBytes == NumBytes(upper, old(numChars))
      ensures numChars == NumChars(upper, old(numChars))
      ensures upper == old(upper) && addr32 == old(addr32) && addr16 == old(addr16)
      ensures pid == old(pid) && counter == old(counter)
    {
      if upper {
        numBytes := (numChars * 6 + 7) / 8;
        if numChars < 16 {
          numChars := 16;
        }
      } else {
        numBytes := (numChars * 5 + 7) / 8;
        if numChars < 20 {
          numChars := 20;
        }
      }
    }

    /** Go's unique: advances the counter for the clock's mark and writes the
        identifier's bytes; el is the number of overflow words. */
    method UniqueBytes(now: Time, rnd: seq<bv8>) returns (buf: seq<bv8>, el: nat)
      requires numBytes <= |rnd|
      modifies counter
      ensures var s := Advance(old(counter.Current()), RequestedMark(addr16, now));
        counter.Current() == s.after && buf == IdBytes(Settings(), ToBv64(s.mark, 64), Word16(s.words[0]), s.words[1..], rnd) && el == |s.words| - 1
    {
      var mark := RequestedMark(addr16, now);
      ghost var s := Advance(counter.Current(), mark);
      var m, seqs := counter.Next(mark);
      assert m == s.mark && seqs == s.words;
      var q := Scramble(Unscrambled(Settings(), ToBv64(m, 64), Word16(seqs[0])));
      buf := WriteBuffer(q, seqs[1..], numBytes, rnd);
      el := |seqs| - 1;
    }

    /** Go's Unique on a generator: the identifier's text. */
    method Unique(now: Time, rnd: seq<bv8>) returns (r: IdResult)
      requires numBytes <= |rnd|
      modifies counter
      ensures var s := Advance(old(counter.Current()), RequestedMark(addr16, now));
        counter.Current() == s.after && r == IdOf(Settings(), s, rnd)
    {
      var buf, el := UniqueBytes(now, rnd);
      r := EncodeId(Settings(), buf, el);
    }
  }

  /** The text step of Go's Unique: encode the bytes with the generator's
      alphabet and cut the text after numChars characters and three or four
      more per overflow word. */
  method EncodeId(c: Config, buf: seq<bv8>, el: nat) returns (r: IdResult)
    ensures r == Render(c, buf, el)
  {
    var id: string;
    var end: int;
    if c.upper {
      id := Base64Url(buf);
      end := c.numChars + 3 * el;
    } else {
      id := Base32Id(buf);
      end := c.numChars + 4 * el;
    }
    if 0 <= end <= |id| {
      r := Ok(id[..end]);
    } else {
      r := OutOfRange(end, |id|);
    }
  }

  /** The package-level Unique: a generator over the shared counter, used
      once. */
  method UniqueShared(o: Options, shared: Sequence, now: Time, rnd: seq<bv8>)
    returns (r: IdResult)
    requires Configure(o).numBytes <= |rnd|
    modifies shared
    ensures var s := Advance(old(shared.Current()), RequestedMark(o.host16, now));
      shared.Current() == s.after && r == IdOf(Configure(o), s, rnd)
  {
    var g := new Gen.Shared(o, shared);
    assert g.Settings() == Configure(o) && g.addr16 == o.host16 && g.counter == shared;
    r := g.Unique(now, rnd);
  }
}
