/** The per-mark sequence counter (seqno.go).

    A counter remembers the last mark (a coarse time value) it was asked for
    and how many identifiers it has handed out under that mark. Go's uint64 and
    uint16 values are modelled as bounded integers; the increment wraps modulo
    2^64 explicitly, and the 16-bit exclusive or is defined bit by bit. */
module Counter {
  import opened Binary

  const Two16: int := 0x1_0000
  const Two64: int := 0x1_0000_0000_0000_0000

  /** Go's uint64. */
  type U64 = x: int | 0 <= x < Two64
  /** Go's uint16. */
  type U16 = x: int | 0 <= x < Two16

  /** Go's `a ^ b` on uint16 values. */
  function Xor16(a: U16, b: U16): U16 {
    Pow2Values();
    XorBound(a, b, 16);
    Xor(a, b, 16)
  }

  /** XORing a 16-bit word twice with the same key gives the word back. */
  lemma Xor16Twice(a: U16, k: U16)
    ensures Xor16(Xor16(a, k), k) == a
  {
    Pow2Values();
    XorTwice(a, k, 16);
  }

  /** The counter's fields `mark` and `seqno`. */
  datatype State = State(mark: U64, seqno: U64)

  /** The outcome of one call of Next: the new state, the effective mark and
      the sequence words. */
  datatype Step = Step(after: State, mark: U64, words: seq<U16>)

  /** The words the overflow loop emits for v: its base-65536 digits, least
      significant first, until the shifted value reaches zero; a digit is XORed
      with key when `mixed` holds, and every digit after the first is mixed. */
  function Chunks(v: nat, key: U16, mixed: bool): seq<U16>
    decreases v
  {
    if v == 0 then []
    else [if mixed then Xor16(v % Two16, key) else v % Two16] + Chunks(v / Two16, key, true)
  }

  /** The word list returned for counter value n under mark m: the value
      itself while it fits in 16 bits, otherwise the overflow words. */
  function Words(n: U64, m: U64): (r: seq<U16>)
    ensures |r| >= 1 && r[0] == n % Two16
    ensures |r| == 1 <==> n < Two16
  {
    if n <= 0xffff then [n]
    else
      assert Chunks(n, m % Two16, false) == [n % Two16] + Chunks(n / Two16, m % Two16, true);
      Chunks(n, m % Two16, false)
  }

  /** Digit i of v in base 65536. */
  function Digit(v: nat, i: nat): U16 {
    if i == 0 then v % Two16 else Digit(v / Two16, i - 1)
  }

  /** The word list has one word per base-65536 digit of the counter value,
      and at least two once the value passes 16 bits. */
  lemma {:induction false} WordCount(n: U64, m: U64)
    ensures |Words(n, m)| == 1 <==> n < 0x1_0000
    ensures |Words(n, m)| == 2 <==> 0x1_0000 <= n < 0x1_0000_0000
    ensures |Words(n, m)| == 3 <==> 0x1_0000_0000 <= n < 0x1_0000_0000_0000
    ensures |Words(n, m)| == 4 <==> 0x1_0000_0000_0000 <= n
  {
    if n > 0xffff {
      var k := m % Two16;
      var v1 := n / Two16;
      var v2 := v1 / Two16;
      var v3 := v2 / Two16;
      assert Words(n, m) == [n % Two16] + Chunks(v1, k, true);
      assert Chunks(v1, k, true) == [Xor16(v1 % Two16, k)] + Chunks(v2, k, true);
      if v2 == 0 {
        assert n < 0x1_0000_0000;
      } else {
        assert Chunks(v2, k, true) == [Xor16(v2 % Two16, k)] + Chunks(v3, k, true);
        if v3 == 0 {
          assert n < 0x1_0000_0000_0000;
        } else {
          assert Chunks(v3, k, true) == [Xor16(v3 % Two16, k)] + Chunks(v3 / Two16, k, true);
          assert v3 / Two16 == 0;
        }
      }
    }
  }

  lemma {:induction false} ChunkAt(v: nat, key: U16, mixed: bool, i: nat)
    requires i < |Chunks(v, key, mixed)|
    ensures Chunks(v, key, mixed)[i] == if i == 0 && !mixed then Digit(v, 0) else Xor16(Digit(v, i), key)
    decreases v
  {
    if i > 0 {
      ChunkAt(v / Two16, key, true, i - 1);
    }
  }

  /** Word 0 is the low 16 bits of the counter value; word i after it is
      digit i of the value XORed with the low 16 bits of the mark. */
  lemma WordAt(n: U64, m: U64, i: nat)
    requires i < |Words(n, m)|
    ensures Words(n, m)[i] == if i == 0 then n % Two16 else Xor16(Digit(n, i), m % Two16)
  {
    if n > 0xffff {
      ChunkAt(n, m % Two16, false, i);
    }
  }

  /** Reverses Chunks: undoes the XOR of each mixed word and recombines the
      digits least significant first. */
  function Join(ws: seq<U16>, key: U16, mixed: bool): nat {
    if ws == [] then 0
    else (if mixed then Xor16(ws[0], key) else ws[0]) + Two16 * Join(ws[1..], key, true)
  }

  /** Recovers the counter value from a word list returned under mark m. */
  function SeqnoOf(ws: seq<U16>, m: U64): nat {
    Join(ws, m % Two16, false)
  }

  lemma {:induction false} JoinChunks(v: nat, key: U16, mixed: bool)
    ensures Join(Chunks(v, key, mixed), key, mixed) == v
    decreases v
  {
    if v != 0 {
      JoinChunks(v / Two16, key, true);
      assert Chunks(v, key, mixed)[1..] == Chunks(v / Two16, key, true);
      if mixed {
        Xor16Twice(v % Two16, key);
      }
    }
  }

  /** Round trip: un-XORing every word after the first with the low 16 bits
      of the mark and recombining least significant first recovers the
      counter value. */
  lemma {:induction false} WordsRoundTrip(n: U64, m: U64)
    ensures SeqnoOf(Words(n, m), m) == n
  {
    if n > 0xffff {
      JoinChunks(n, m % Two16, false);
    } else {
      assert Words(n, m) == [n];
      assert Join([n], m % Two16, false) == n + Two16 * Join([], m % Two16, true);
    }
  }

  /** Under one mark, distinct counter values give distinct word lists. */
  lemma WordsInjective(n1: U64, n2: U64, m: U64)
    requires Words(n1, m) == Words(n2, m)
    ensures n1 == n2
  {
    WordsRoundTrip(n1, m);
    WordsRoundTrip(n2, m);
  }

  /** One call of Next on state c with requested mark req. */
  function Advance(c: State, req: U64): (s: Step)
    ensures c.mark <= s.mark && req <= s.mark && (s.mark == c.mark || s.mark == req)
    ensures s.after.mark == s.mark
    ensures s.mark != c.mark ==> s.after.seqno == 0 && s.words == [0]
    ensures s.mark == c.mark ==> s.after.seqno == (c.seqno + 1) % Two64
    ensures s.words == Words(s.after.seqno, s.mark)
  {
    var m := if req < c.mark then c.mark else req;
    if m != c.mark then Step(State(m, 0), m, [0])
    else
      var n := (c.seqno + 1) % Two64;
      Step(State(m, n), m, Words(n, m))
  }

  /** The state after n successive calls with the same requested mark. */
  function Run(c: State, req: U64, n: nat): State {
    if n == 0 then c else Advance(Run(c, req, n - 1), req).after
  }

  /** After n + 1 calls with a mark newer than the stored one, the counter
      holds that mark and the value n. */
  lemma {:induction false} RunFromNewMark(c: State, req: U64, n: nat)
    requires c.mark < req
    requires n < Two64
    ensures Run(c, req, n + 1) == State(req, n)
  {
    if n != 0 {
      RunFromNewMark(c, req, n - 1);
    }
  }

  /** Call number i (counting from 0) of a run with a mark newer than the
      stored one returns that mark, with one word for the first 65536 calls and
      two words for the calls after them, up to 2^32 calls. */
  lemma CallInRun(c: State, req: U64, i: nat)
    requires c.mark < req
    requires i < 0x1_0000_0000
    ensures Advance(Run(c, req, i), req).mark == req
    ensures |Advance(Run(c, req, i), req).words| == if i < 0x1_0000 then 1 else 2
  {
    if i != 0 {
      RunFromNewMark(c, req, i - 1);
      WordCount(i, req);
    }
  }

  /** A fresh counter driven with mark 1 for 1,000,000 calls and then with
      mark 2 for 1,000,000 more: every call returns the mark it was given, with
      one word for the first 65536 calls of each run and two words afterwards. */
  lemma MillionCallRuns(i: nat)
    requires i < 1_000_000
    ensures var s := Advance(Run(State(0, 0), 1, i), 1);
      s.mark == 1 && |s.words| == if i < 0x1_0000 then 1 else 2
    ensures var s := Advance(Run(Run(State(0, 0), 1, 1_000_000), 2, i), 2);
      s.mark == 2 && |s.words| == if i < 0x1_0000 then 1 else 2
  {
    CallInRun(State(0, 0), 1, i);
    RunFromNewMark(State(0, 0), 1, 999_999);
    CallInRun(State(1, 999_999), 2, i);
  }

  /** Two successive calls never return the same mark and word list. */
  lemma SuccessiveCallsDiffer(c: State, req1: U64, req2: U64)
    ensures var s1 := Advance(c, req1);
      var s2 := Advance(s1.after, req2);
      s1.mark != s2.mark || s1.words != s2.words
  {
    var s1 := Advance(c, req1);
    var s2 := Advance(s1.after, req2);
    if s1.mark == s2.mark && s1.words == s2.words {
      WordsInjective(s1.after.seqno, s2.after.seqno, s1.mark);
    }
  }

  /** The overflow loop of Next: splits n into 16-bit words, least
      significant first, XORing every word after the first with the low 16
      bits of the mark. */
  method SplitWords(n: U64, m: U64) returns (words: seq<U16>)
    ensures words == Chunks(n, m % Two16, false)
  {
    var v: nat := n;
    var key := m % Two16;
    words := [];
    while v != 0
      invariant words + Chunks(v, key, |words| > 0) == Chunks(n, key, false)
      decreases v
    {
      var s := v % Two16;
      if |words| > 0 {
        s := Xor16(s, key);
      }
      assert Chunks(v, key, |words| > 0) == [s] + Chunks(v / Two16, key, true);
      assert words + ([s] + Chunks(v / Two16, key, true)) == (words + [s]) + Chunks(v / Two16, key, true);
      words := words + [s];
      v := v / Two16;
    }
  }

  /** The counter object behind a generator. The source guards it with a
      mutex, so each call of Next is one atomic step. */
  class Sequence {
    var mark: U64
    var seqno: U64

    constructor ()
      ensures mark == 0 && seqno == 0
    {
      mark, seqno := 0, 0;
    }

    function Current(): State
      reads this
    {
      State(mark, seqno)
    }

    /** Advances the counter for the requested mark and returns the effective
        mark and the sequence words. */
    method Next(req: U64) returns (m: U64, words: seq<U16>)
      modifies this
      ensures Step(Current(), m, words) == Advance(old(Current()), req)
      ensures old(mark) <= mark == m && |words| >= 1
    {
      ghost var before := Current();
      m := req;
      if m < mark {
        m := mark;
      }
      if m != mark {
        seqno := 0;
        mark := m;
        return m, [seqno % Two16];
      }
      seqno := (seqno + 1) % Two64;
      var n := seqno;
      assert Advance(before, req) == Step(State(m, n), m, Words(n, m));
      if n <= 0xffff {
        assert Words(n, m) == [n];
        return m, [n % Two16];
      }
      words := SplitWords(n, m);
      assert words == Words(n, m);
    }
  }
}
