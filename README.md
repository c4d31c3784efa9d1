# unique-id in Dafny

A model of the identifier generator of the Go package `id` (jaw0/unique-id),
with proofs about it. An identifier is built in five steps:

1. The clock gives a *mark*. With a 16-bit host this is `UnixNano >> 16`;
   otherwise it is the Unix time in seconds.
2. A per-mark sequence counter turns the mark into an effective mark and one or
   more 16-bit *words*. The effective mark never goes backwards. The first word
   is the count under the mark modulo 2^16, and any overflow words carry its higher digits.
3. The mark and the host are packed into two 32-bit fields. These fields, the
   process id and the first word are scrambled by a two-round Feistel network.
4. The scrambled values, the overflow words and either random padding or one
   extra byte are written little-endian into a buffer.
5. The buffer is encoded, in unpadded base 64 (URL alphabet) for upper-case ids
   or in base 32 over `abcdefghijkmnpqrstuvwxyz23456789` otherwise. The text is
   cut to `numChars` characters plus three or four per overflow word.

Modules, one per part of the pipeline:

- `Binary`: powers of two, a bitwise exclusive or on numbers, and the bits of a
  number as a bit vector.
- `Counter`: `sequence.Next` (seqno.go). The counter is the class `Sequence`,
  whose `Next` updates its fields in place. Its overflow loop is the method
  `SplitWords`. `Next` is proved against the specification function `Advance`,
  and `SplitWords` against the function `Chunks`.
- `Scrambler`: `scramble` and `scrambleStep` on `bv64`. Go's uint64 arithmetic
  wraps modulo 2^64 and so does `bv64`.
- `Buffer`: the field packing and the buffer writes of `Gen.unique`, with a
  parser as their partner.
- `Encoding`: both encodings, defined bit by bit as section 4 (base 64 with
  the URL alphabet of section 5) and section 6 (base 32 grouping) of RFC 4648
  define them. Padding is omitted, as section 3.2 of RFC 4648 allows. A decoder
  is their partner.
- `Host`: `packAddr`, the big-endian fold of an address into a uint32.
- `Generator`:
  - the class `Gen` with `calcBytes`, `unique` and `Unique`;
  - the package-level `Unique` over a shared counter;
  - the uniqueness results.

The Go slice `id[:numChars+k*el]` panics when its end is past the encoded
text. The model returns `OutOfRange(end, length)` for that case instead. With
no overflow word the slice is proved always in range. One concrete input is
proved to reach the panic: `WithLength(30)`, lower case, one overflow word.

## Model

| member | source | states |
|---|---|---|
| Counter.Sequence.Next | seqno.go:18-56 | The new fields, the returned mark and the words are exactly one `Advance` step from the old fields. The stored mark never decreases, it equals the returned mark, and the word list is never empty. |
| Counter.Advance | seqno.go:23-55 | The effective mark is the larger of the requested and the stored mark. A new mark resets the count to 0 and returns `[0]`. The same mark increments the count modulo 2^64. The words are `Words` of the new count. |
| Counter.Chunks | seqno.go:46-53 | The words of the overflow loop for a value: its base-65536 digits, least significant first, ending when the shifted value reaches 0, each digit XORed with the key once `mixed` holds and every digit after the first mixed. |
| Counter.Words | seqno.go:38-55 | The list is never empty, and its first word is the count modulo 2^16. It has exactly one word if and only if the count fits in 16 bits. |
| Counter.SplitWords | seqno.go:42-55 | The overflow loop emits the base-65536 digits, least significant first, with every digit after the first XORed with the mark's low 16 bits. |
| Counter.WordCount | seqno.go:38-55 | The list has 1, 2, 3 or 4 words exactly when the count is below 2^16, 2^32 or 2^48, or at least 2^48. |
| Counter.WordAt | seqno.go:46-53 | Word 0 is the count's low 16 bits. Word i is digit i XORed with the low 16 bits of the mark. |
| Counter.ChunkAt | seqno.go:46-53 | Element i of the loop's output is digit i of the value, XORed when mixed. |
| Counter.JoinChunks | seqno.go:46-53 | Un-XORing and recombining the loop's output gives the value back. |
| Counter.WordsRoundTrip | seqno.go:42-55 | Round trip: un-XORing words 1.. with the mark's low 16 bits and recombining recovers the count. |
| Counter.WordsInjective | seqno.go:42-55 | Under one mark, distinct counts give distinct word lists. |
| Counter.Xor16Twice | seqno.go:49 | XORing a word twice with the same key gives it back. |
| Counter.RunFromNewMark | seqno.go:28-36 | After n + 1 calls with a mark newer than the stored one, the counter holds that mark and count n. |
| Counter.CallInRun | seqno.go:28-40 | Call i of such a run returns the requested mark. It has one word for i < 65536 and two words up to 2^32 calls. |
| Counter.MillionCallRuns | unique_test.go:14-47 | A fresh counter driven 1,000,000 times with mark 1, then 1,000,000 times with mark 2: every call returns its mark, with one word for the first 65536 calls of each run and two afterwards. |
| Counter.SuccessiveCallsDiffer | seqno.go:23-55 | Two successive calls never return the same mark together with the same words. |
| Counter.Sequence.constructor | unique.go:45 | `&sequence{}`: a fresh counter at mark 0 and count 0. |
| Scrambler.Round | unique.go:225-237 | The round function keeps 48 bits. |
| Scrambler.Step | unique.go:225-240 | One Feistel round with round function F: (h, l) becomes (l, F(l) xor h). Go's `scrambleStep` is `Step(Round, _)`. |
| Scrambler.UnstepStep | unique.go:225-240 | A Feistel round `(h, l) -> (l, F(l) xor h)` is undone by `h = l' xor F(h')`, whatever F computes. |
| Scrambler.StepIn48 | unique.go:237-239 | A round whose function stays within 48 bits keeps both halves below 2^48. |
| Scrambler.ScrambleStepIn48 | unique.go:225-240 | `scrambleStep` keeps both halves below 2^48. |
| Scrambler.Join48 | unique.go:209-210 | A half built from a uint32 and a uint16 shifted left by 32 stays within 48 bits. |
| Scrambler.SplitJoin48 | unique.go:209-219 | Splitting a 48-bit half into its low 32 and high 16 bits and joining them back loses nothing. |
| Scrambler.JoinSplit48 | unique.go:209-219 | The low 32 and high 16 bits of a joined half are the two parts. |
| Scrambler.Scramble | unique.go:206-221 | h = a or c<<32 and l = b or d<<32, then two `Step(Round, _)` rounds. The result is (low 32 bits of l, low 32 bits of h, bits 32-47 of l, bits 32-47 of h). Its round trip is `UnscrambleScramble`. |
| Scrambler.UnscrambleScramble | unique.go:206-221 | Round trip: the descrambler undoes `scramble` on every input. |
| Scrambler.ScrambleInjective | unique.go:206-221 | `scramble` is one-to-one on all (uint32, uint32, uint16, uint16) inputs. |
| Buffer.PackKeepsMark | unique.go:106-112 | The packed fields give back bits 0..47 of the mark (16-bit host) or bits 0..31 (no 16-bit host). |
| Buffer.PackKeepsHost | unique.go:106-112 | f2 carries the 16-bit host in its low half, or is the 32-bit host. |
| Buffer.PackInjective | unique.go:106-112 | For a fixed host, equal fields mean equal kept marks. |
| Buffer.Pack | unique.go:106-112 | With a 16-bit host, f1 is bits 16-47 of the mark, and f2 is the host in its low half with bits 0-15 of the mark above it. Otherwise f1 is the mark's low 32 bits and f2 the 32-bit host. |
| Buffer.Word16 | unique.go:115 | The first counter word as the uint16 the scrambler takes, built from its two bytes. |
| Buffer.Word16Value | unique.go:115 | That uint16 is the counter word itself, as Go's `seqs[0]` is. |
| Buffer.LE32 | unique.go:117-118 | A uint32 as four bytes, least significant first. |
| Buffer.LE16 | unique.go:119-120 | A uint16 as two bytes, least significant first. |
| Buffer.Head | unique.go:117-120 | The 12 bytes of a, b, c and d, little-endian. |
| Buffer.WordsLE | unique.go:123 | `binary.Write` of `seqs[1:]`: each overflow word as two bytes, low byte first, in order. |
| Buffer.Layout | unique.go:117-135 | The head, then the overflow words, then random bytes up to numBytes when that is longer, or else one extra byte, the low byte of d. |
| Buffer.Word16Injective | unique.go:115 | Distinct counter words are distinct uint16 scrambler inputs. |
| Buffer.WriteBuffer | unique.go:117-135 | The writes of `unique` produce exactly `Layout`: a, b, c, d little-endian, then the overflow words, then random bytes up to numBytes or one extra byte. |
| Buffer.LayoutPrefix | unique.go:117-123 | The buffer starts with the 12 scrambled bytes and then the overflow words, 2 bytes each. |
| Buffer.LayoutTail | unique.go:125-135 | If 12 + 2·el < numBytes, the buffer is numBytes long and its tail is the random bytes. Otherwise it is 13 + 2·el long and ends in a copy of byte 10, `uint8(d)`. |
| Buffer.HeadRoundTrip | unique.go:117-120 | The 12 head bytes read back as a, b, c, d. |
| Buffer.LE32RoundTrip | unique.go:117-118 | A little-endian uint32 reads back. |
| Buffer.LE16RoundTrip | unique.go:119-120 | A little-endian uint16 reads back. |
| Buffer.WordsRoundTrip | unique.go:123 | The little-endian overflow words read back. |
| Buffer.ParseLayout | unique.go:117-135 | Round trip: the buffer gives back the scrambled fields and the overflow words. |
| Buffer.LayoutDetermines | unique.go:117-135 | Buffers that agree on head and words carry the same fields and words, whatever padding follows. |
| Encoding.UrlTable | unique.go:82 | The base 64 URL alphabet has 64 symbols, and symbol i has value i in the table of section 5 of RFC 4648. |
| Encoding.IdTable | unique.go:35-36 | The identifier alphabet has 32 symbols, and symbol i has value i. |
| Encoding.IdAlphabetFacts | unique.go:35-36 | The identifier alphabet has 32 distinct symbols and none of l, o, 0, 1 or `=`. |
| Encoding.UrlAlphabetFacts | unique.go:82 | The URL alphabet has 64 distinct symbols and no `=`. |
| Encoding.Base64Url | unique.go:82 | Unpadded base 64 has ⌈8n/6⌉ symbols, all from the URL alphabet and none `=`. |
| Encoding.Base32Id | unique.go:36 | The identifier encoding has ⌈8n/5⌉ symbols, all from the identifier alphabet, none `=`, l, o, 0 or 1. |
| Encoding.DecodeEncode | unique.go:82-86 | Round trip: decoding an encoding gives the bytes back, for any alphabet of 2^w distinct symbols with w at most 8. |
| Encoding.Base64UrlInjective | unique.go:82 | Distinct buffers have distinct base 64 encodings. |
| Encoding.Base32IdInjective | unique.go:86 | Distinct buffers have distinct identifier encodings. |
| Encoding.EncodePrefixDetermines | unique.go:83-87 | A prefix of k symbols determines the first j bytes when the symbols carry at least 8j bits. |
| Encoding.SymbolBitsOfEncode | unique.go:82-86 | An encoding's symbols stand for the bit stream followed by the zero fill bits. |
| Host.OctetsPackAddr | unique.go:196-204 | Round trip: a four-byte address is read back from its packed value. |
| Host.PackAddrInjective | unique.go:196-204 | Distinct four-byte addresses pack to distinct host values. |
| Host.PackAddrLastFour | unique.go:196-204 | Only the last four bytes of a longer address count. |
| Host.PackAddrLow16 | unique.go:196-204 | The low 16 bits of the packed value are the last two bytes, big-endian. |
| Host.Shift | unique.go:200 | One step of the fold: `n<<8 or v`, in 32 bits. |
| Host.PackAddr | unique.go:196-204 | The bytes folded big-endian into a uint32, from the first byte on, with the bits shifted past bit 31 dropped. |
| Generator.ToU64 | unique.go:99-101 | `uint64(x)` of an int64 is x when non-negative and x + 2^64 otherwise. |
| Generator.UnixNano | unique.go:99 | `now.UnixNano()` of one reading is sec·10^9 + nsec when that fits in an int64, and congruent to it modulo 2^64 otherwise. |
| Generator.RequestedMark | unique.go:93-102 | The requested mark of one reading `now`: `UnixNano() >> 16` (a floor division by 65536) with a 16-bit host, `Unix()` otherwise, read as uint64. |
| Generator.RequestedMarkMonotone | unique.go:93-102 | From the epoch until `UnixNano` wraps in 2262, a later clock reading never asks for an earlier mark. |
| Generator.NumBytesLeast | unique.go:140-152 | numBytes is the least number of bytes whose bits fill the requested number of characters. |
| Generator.NumCharsBounds | unique.go:140-152 | numChars is at least the requested length and at least 16 (base 64) or 20 (base 32), and equals the request once that is long enough. |
| Generator.NumBytes | unique.go:140-152 | `calcBytes`' numBytes, (6n + 7) >> 3 or (5n + 7) >> 3 of the requested length n. |
| Generator.NumChars | unique.go:140-152 | `calcBytes`' numChars: the requested length, raised to 16 (base 64) or 20 (base 32). |
| Generator.Configure | unique.go:140-152 | A generator's settings from its options once `calcBytes` has run: numChars and numBytes from the requested length, and the host, 16-bit host and pid unchanged. |
| Generator.Gen.CalcBytes | unique.go:140-152 | numBytes comes from the requested length, then numChars is raised to the minimum, and nothing else changes. |
| Generator.Gen.constructor | unique.go:41-54 | `NewGenerator`: the options' settings after `calcBytes`, and a fresh counter at (0, 0). |
| Generator.Gen.Shared | unique.go:62-72 | The package-level generator: the options' settings after `calcBytes`, over the shared counter. |
| Generator.Unscrambled | unique.go:106-115 | The scrambler's four inputs: the packed fields, the pid and the first counter word. |
| Generator.IdBytes | unique.go:106-137 | The buffer of `unique`: the scrambled inputs, the overflow words and the padding or extra byte, as `Layout` writes them. |
| Generator.Gen.UniqueBytes | unique.go:90-138 | The counter advances by one `Advance` step for the requested mark. The bytes are `IdBytes` of the effective mark, the first word and the overflow words, and the count is the number of overflow words. |
| Generator.EncodeId | unique.go:77-88 | Encoding and slicing yield exactly `Render`: the first numChars + 3·el or + 4·el characters, or `OutOfRange` where Go panics. |
| Generator.Encoded | unique.go:81-86 | The full encoding: unpadded URL base 64 for upper case, the identifier base 32 otherwise. |
| Generator.Render | unique.go:81-87 | The first numChars + 3·el (base 64) or + 4·el (base 32) characters of the encoding, or `OutOfRange` when that end is past it, where Go panics. |
| Generator.Gen.Unique | unique.go:77-88 | The counter advances by one step, and the result is the id `IdOf` that the settings render for that step. |
| Generator.UniqueShared | unique.go:62-74 | The package-level `Unique` advances the shared counter by one step and returns that step's id. |
| Generator.RenderCharset | unique.go:35-36 | Lower-case ids use only the 32 identifier symbols, never l, o, 0 or 1. Upper-case ids use only URL base 64 symbols. Neither contains `=`. |
| Generator.IdBytesLength | unique.go:125-135 | Without overflow words the buffer is numBytes long, or 13 bytes when numBytes is smaller. |
| Generator.OverflowFreeIdFits | unique.go:81-87 | Without overflow words the slice is in range and the id is exactly numChars characters, at least the requested length. |
| Generator.RequestedLengths | unique_test.go:56-67 | `WithLength(30)` and `WithLength(41)` give ids of exactly 30 and 41 characters in both alphabets. |
| Generator.LongLowerCaseIdOutOfRange | unique.go:86-87 | `WithLength(30)`, lower case, one overflow word: 19 bytes encode to 31 characters, but the slice asks for 34. |
| Generator.SameLength | unique.go:81-87 | Equal ids come from the same number of overflow words. |
| Generator.HeadBytesAgree | unique.go:81-87 | Equal ids mean equal buffers up to the end of the overflow words. |
| Generator.LayoutsDetermine | unique.go:115-135 | Equal ids mean equal scrambled fields and equal overflow words. |
| Generator.UnscrambledInjective | unique.go:106-115 | Equal scrambled values mean equal kept marks and equal first words. |
| Generator.IdDeterminesFields | unique.go:90-138 | Uniqueness: a generator renders equal ids only from the same kept mark bits, first word and overflow words. |
| Generator.IdOfDetermines | unique.go:77-138 | Equal ids for two counter steps mean equal kept marks and equal word lists. |
| Generator.IdOf | unique.go:77-138 | The id that the settings render for one counter step: the step's mark as bits, its first word and its overflow words, through `IdBytes` and `Render`. |
| Generator.SuccessiveIdsDiffer | unique_test.go:53-55 | Two successive calls on one counter can render the same id only if their marks differ by a multiple of 2^48 (16-bit host) or 2^32 (32-bit host). |

## Left out

- `myAddr` enumerates network interfaces. The host value is a parameter, and only `packAddr` is modelled.
- `time.Now` is left out. One reading of it, a `Time` of Unix seconds and nanoseconds within the second, is a parameter of `UniqueBytes`, `Unique` and `UniqueShared`. `Unix()` and `UnixNano()` are both derived from that reading.
- `os.Getpid` and the globals `myaddr`, `mypid` and `seqgen` are left out. The pid and host are fields of `Options`, and the shared counter is a parameter.
- `crypto/rand.Read` is left out. The random bytes are a parameter, and its ignored error result has no model.
- The mutex in `sequence` is left out. Each `Next` is one atomic method call; concurrency is not modelled.
- The functional options (`WithUpperCase`, `WithLength` and the others) are replaced by the `Options` record that they would fill.
- The claims that ids are random-looking, and the statistical no-duplicates test, cannot be stated as proofs. The provable part is the injectivity of packing, scrambling, buffer and encoding.
- Go's `encoding/base32` and `encoding/base64` internals are not modelled. The encoders are specified from RFC 4648.
- Generator.Gen.CalcBytes does not model int64 overflow of `numChars*6` or `numChars*5`, which needs a length above 2^60.
- Generator.Gen.UniqueBytes converts the effective mark to bits through `ToBv64`, a bit-by-bit conversion. The model does not prove it equal to Dafny's own `as bv64`. The uniqueness results therefore speak of the kept bits of `ToBv64(mark, 64)`.
- Generator.SuccessiveIdsDiffer states the kept bits of the two marks as bit vectors. It does not restate that equality as arithmetic on the integer marks.
- Host.PackAddr is a recursive fold rather than Go's `for range` loop; the two compute the same value.
- `fmt.Printf` in the tests is not modelled.
