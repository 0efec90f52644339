# RESP codec of redis-go, modelled in Dafny

redis-go is a small Redis server in Go. All of its logic is the RESP
(Redis Serialization Protocol) codec in `app/resp.go`. RESP covers the
RESP2 types plus the RESP3 Null (`_`), Boolean (`#`) and Map (`%`) types.
This project models that codec in three parts:

- **Wire** (`wire.dfy`, `decimal.dfy`) holds two things:
  - the tag bytes, CR LF, and the `Result`, `Parsed` and `Option` wrappers;
  - decimal text for integers. `FormatInt` is `strconv.Itoa`; `ParseInt` is `strconv.ParseInt(s, 10, 64)`.
- **Values** (`values.dfy`) has one constructor per RESP type. Each comment names the Go `typ` string that constructor stands for.
- **Decoder** follows the source's imperative form:
  - `Reader.Response` (`reader.dfy`) is a class over the bytes an `io.Reader` delivers, with a cursor `pos`. Its methods read one byte or one line, or recurse through `Read`. The array and map loops append children one by one.
  - Each method is proved against a pure function of the unread bytes in `Grammar` (`grammar.dfy`). The method returns what that function decodes and leaves the cursor where the function stops.
- **Encoder** (`encoder.dfy`): `Marshal` and its helpers are pure recursive functions.
- **Round trip** (`roundtrip.dfy`): decoding what `Marshal` wrote gives back the value, and stops exactly at the end of its frame. This holds for every value whose texts contain no CR or LF, whose integers and counts fit in 64 bits, and whose maps hold whole key/value pairs (an even number of elements).
- **As written** (`findings.dfy`): the places where `app/resp.go` does something other than the framing its own encoder writes. Each is shown next to an input that exposes it (see Findings).

The model follows the evident intent of the code and the RESP3 framing:

- arrays read exactly `count` children;
- maps read `2 × count`, the number `marshalMap` writes;
- bulk payloads are read by their exact length and must be followed by CR LF;
- integers use strconv-style decimal;
- errors are framed with `-`.

Each place where the model departs from the literal Go is stated in a comment at the definition it affects. In detail:

- An unknown tag byte is a failure. The Go code returns an empty `Value{}` and no error (app/resp.go:100-102).
- A negative array or map count is a failure. The Go `make` panics on it.
- A bulk size below -1 is a failure.
- A null must be `_` CR LF exactly. Go reads only the tag byte (app/resp.go:93-94), so it neither consumes the CR LF that `marshalNull` writes nor rejects text before it; the model consumes that line and fails when it holds any text.
- The null bulk string is its own constructor, `NullBulk`. Go returns an untyped `Value{}` (app/resp.go:119).
- The encoder writes `NullBulk` as `$-1\r\n`. Go has no encoder for it.
- `Boolean` follows the code: the line `t` is true and any other line is false (app/resp.go:161-165).
- The parts of `app/resp.go` that do not compile are read as their evident meaning:
  - line 12;
  - `STRING` at line 276;
  - the `int` appended at line 286, modelled as its decimal digits;
  - `v.boolean` at line 323, modelled as the `truth` field;
  - the `"error"` case with no return at line 257;
  - `return []byte` at line 269;
  - `bytes := append(...)` at line 347, which declares a `bytes` that is never used (see Findings);
  - the unused imports `reflect` and `errors` at lines 8-9, which are dropped.

## Model

| member | source | states |
|---|---|---|
| Values.Tag | app/resp.go:14-23 | every value's leading byte is one of the eight tag constants |
| Decimal.NatDigits | app/resp.go:297 | the digits Itoa writes for a natural number are nonempty decimal digits whose value is the number, with no leading zero |
| Decimal.FormatInt | app/resp.go:297 | Itoa output is nonempty and never contains CR or LF, so it can sit on one line |
| Decimal.ParseInt | app/resp.go:65 | a successfully parsed integer is within the signed 64-bit range |
| Decimal.FormatThenParse | app/resp.go:60-70 | parsing what Itoa writes gives back every 64-bit integer |
| Decimal.ParseNonNegative | app/resp.go:65 | unsigned decimal digits within range parse to exactly their value |
| Decimal.ParseNegative | app/resp.go:65 | a minus sign before decimal digits within range parses to the negated value |
| Decimal.ParseRejectsOutOfRange | app/resp.go:65-68 | decimal digits whose value lies outside the 64-bit range are an error, with or without a `+` or `-` sign and with any number of leading zeros |
| Decimal.ParseRejectsNonNumeric | app/resp.go:65-68 | a line with any byte other than a digit (after an optional leading sign) is an error |
| Decimal.ParseRejectsEmpty | app/resp.go:65-68 | an empty line, or a lone sign, is an error |
| Decimal.ParseAcceptsPlusAndZeros | app/resp.go:65 | a leading `+` and leading zeros are accepted and do not change the value |
| Encoder.Marshal | app/resp.go:250-271 | every encoding starts with the value's own tag byte and ends with CR LF |
| Encoder.MarshalAll | app/resp.go:313-315 | a nonempty run of encodings ends with CR LF |
| Encoder.MarshalSimpleString | app/resp.go:274-281 | starts with `+` and ends with CR LF |
| Encoder.MarshalError | app/resp.go:354-361 | starts with `-` and ends with CR LF |
| Encoder.MarshalInteger | app/resp.go:283-290 | starts with `:` and ends with CR LF |
| Encoder.MarshalBulkString | app/resp.go:292-303 | starts with `$` and ends with CR LF |
| Encoder.MarshalNullBulk | app/resp.go:118-119 | the null bulk string starts with `$` and ends with CR LF |
| Encoder.MarshalArray | app/resp.go:305-318 | starts with `*` and ends with CR LF |
| Encoder.MarshalBoolean | app/resp.go:320-331 | starts with `#` and ends with CR LF |
| Encoder.MarshalNull | app/resp.go:333-336 | starts with `_` and ends with CR LF |
| Encoder.MarshalMap | app/resp.go:338-352 | starts with `%` and ends with CR LF |
| Encoder.ArrayLayout | app/resp.go:305-318 | an array's encoding is `*`, the decimal count, CR LF, then the children's encodings concatenated in order |
| Encoder.MapLayout | app/resp.go:338-352 | a map's encoding (whole pairs) is `%`, the decimal pair count, CR LF, then the children's encodings in order |
| Encoder.MarshalAllCons | app/resp.go:313-315 | the children's encodings are the first child's encoding followed by the rest's |
| Grammar.FirstLF | app/resp.go:45 | finds the first LF in the input, or reports that there is none |
| Grammar.StripTerminator | app/resp.go:49-53 | the returned line is a prefix of the line read, shorter by the two-byte terminator or not at all |
| Grammar.StripsExactlyCRLF | app/resp.go:49-53 | the terminator is removed exactly when the line ends in CR LF, and the line is kept whole exactly when it ends in a lone LF |
| Grammar.Line | app/resp.go:44-54 | a line read leaves a proper suffix of the input: the line always consumes its LF |
| Grammar.IntegerLine | app/resp.go:60-70 | a successful integer line consumes at least one byte and yields a 64-bit integer |
| Grammar.Frame | app/resp.go:72-104 | every successful read consumes at least one byte, so the recursion through arrays and maps terminates |
| Grammar.Variant | app/resp.go:78-103 | the variant selected by the tag byte consumes at least one byte of what follows the tag; an unknown tag fails |
| Grammar.SimpleStringBody | app/resp.go:106-112 | a successful simple-string read consumes at least one byte; `SimpleStringRoundTrip` states exactly what it consumes |
| Grammar.IntegerBody | app/resp.go:81-86 | a successful integer read consumes at least one byte; `IntegerRoundTrip` states exactly what it consumes |
| Grammar.ErrorBody | app/resp.go:148-154 | a successful error read consumes at least one byte; `ErrorRoundTrip` states exactly what it consumes |
| Grammar.BulkStringBody | app/resp.go:114-126 | a successful bulk-string read consumes at least one byte; `BulkPayload` states exactly what it consumes |
| Grammar.Payload | app/resp.go:121 | the payload is exactly n bytes, whatever they are, and it fails exactly when fewer than n + 2 bytes remain or the two after the payload are not CR LF |
| Grammar.ArrayBody | app/resp.go:128-146 | a successful array read consumes at least one byte; `ArrayChildren` states exactly what it consumes |
| Grammar.NullBody | app/resp.go:93-94 | a successful null read consumes at least one byte; `NullLine` states that it takes exactly an empty line |
| RoundTrip.NullLine | app/resp.go:93-94 | a null is exactly `_` CR LF: with no text before the CR LF it reads back as null and stops after the LF, and with any text there (`_x\r\n`) the frame fails |
| Grammar.BooleanBody | app/resp.go:156-166 | a successful boolean read consumes at least one byte; `BooleanLine` states exactly what it consumes |
| Grammar.MapBody | app/resp.go:168-185 | a successful map read consumes at least one byte; `MapChildren` states exactly what it consumes |
| Grammar.FrameSeq | app/resp.go:134-143 | reading n children yields exactly n values, and leaves a suffix of the input |
| Reader.LineNeedsLF | app/resp.go:45-47 | with no LF among the unread bytes, no line can be read |
| Reader.LineEndsAt | app/resp.go:45-53 | a line read ends at the first LF: the line is the bytes up to it, stripped of a final CR LF, and the rest starts after it |
| Reader.Response.constructor | app/resp.go:39-42 | a new reader is at the start of the stream |
| Reader.Response.ReadByte | app/resp.go:56-58 | returns the next byte and advances by one; fails at end of stream without moving |
| Reader.Response.ReadLine | app/resp.go:44-54 | returns exactly what `Line` decodes from the unread bytes and stops after the LF; at end of stream with no LF it fails, having consumed the rest |
| Reader.Response.ReadInteger | app/resp.go:60-70 | returns the integer `IntegerLine` decodes and stops where it stops |
| Reader.Response.Read | app/resp.go:72-104 | returns the value `Frame` decodes from the unread bytes and stops exactly at the end of that frame; fails when `Frame` does |
| Reader.Response.ReadSimpleString | app/resp.go:106-112 | agrees with `SimpleStringBody` on value and cursor |
| Reader.Response.ReadBulkString | app/resp.go:114-126 | agrees with `BulkStringBody`: null bulk for -1, else exactly the declared number of bytes, then CR LF |
| Reader.Response.ReadPayload | app/resp.go:121 | agrees with `Payload` on the bytes returned and the cursor |
| Reader.Response.ReadArray | app/resp.go:128-146 | agrees with `ArrayBody` on value and cursor |
| Reader.Response.ReadError | app/resp.go:148-154 | agrees with `ErrorBody` on value and cursor |
| Reader.Response.ReadBoolean | app/resp.go:156-166 | agrees with `BooleanBody` on value and cursor |
| Reader.Response.ReadMap | app/resp.go:168-185 | agrees with `MapBody` on value and cursor |
| Reader.Response.ReadChildren | app/resp.go:134-143 | the loop's appended children are what `FrameSeq` decodes, in wire order; any failing child fails the whole loop |
| Reader.ReadFirst | app/resp.go:39-42 | a fresh reader over a stream returns the first frame `Frame` decodes and the number of bytes it took, or fails when `Frame` fails |
| RoundTrip.LineRoundTrip | app/resp_test.go:10-18 | a text with no LF followed by CR LF reads back as the text with CR LF stripped (`test\r\n` gives `test`) |
| RoundTrip.LineKeepsBareLF | app/resp.go:49-53 | when the byte before LF is not CR, the LF stays in the line |
| RoundTrip.LineFailsWithoutLF | app/resp.go:45-48 | reading a line fails exactly when no LF is left: end of input gives no partial line |
| RoundTrip.IntegerLineRoundTrip | app/resp.go:60-70 | an Itoa line followed by CR LF reads back as the same 64-bit integer |
| RoundTrip.AfterTag | app/resp.go:78-103 | the value read depends only on the first byte, with each tag selecting its own reader and any other byte failing |
| RoundTrip.FrameTag | app/resp.go:72-104 | a decoded value's constructor is the one its first byte names |
| RoundTrip.UnknownTagFails | app/resp.go:100-102 | a first byte that is no tag makes the read fail |
| RoundTrip.SimpleStringRoundTrip | app/resp.go:274-281 | `+` text CR LF reads back as the simple string and consumes exactly its frame |
| RoundTrip.ErrorRoundTrip | app/resp.go:354-361 | `-` text CR LF reads back as the error and consumes exactly its frame |
| RoundTrip.IntegerRoundTrip | app/resp.go:283-290 | `:` decimal CR LF reads back as the integer |
| RoundTrip.BulkStringRoundTrip | app/resp.go:292-303 | `$` length CR LF payload CR LF reads back as the payload, whatever bytes it holds |
| RoundTrip.BulkPayload | app/resp.go:114-126 | the bulk reader takes exactly the declared number of bytes, even CR and LF among them |
| RoundTrip.PayloadRoundTrip | app/resp.go:299-300 | bytes written before CR LF are read back whole as the payload |
| RoundTrip.NullBulkRoundTrip | app/resp.go:118-119 | `$-1\r\n` reads back as the null bulk string |
| RoundTrip.NullBulkIsNotEmpty | app/resp.go:114-120 | the null bulk string and the empty bulk string have different encodings and decode to different values |
| RoundTrip.NullRoundTrip | app/resp.go:333-336 | `_\r\n` reads back as null and consumes exactly its frame |
| RoundTrip.BooleanRoundTrip | app/resp.go:320-331 | `#t\r\n` and `#f\r\n` read back as true and false |
| RoundTrip.BooleanLine | app/resp.go:156-166 | after `#`, the line `t` is true and any other line is false |
| RoundTrip.ArrayChildren | app/resp.go:128-146 | an array frame is its count line followed by exactly count children |
| RoundTrip.MapChildren | app/resp.go:168-185 | a map frame is its pair-count line followed by exactly twice as many children |
| RoundTrip.RoundTrip | app/resp.go:250-271 | decoding the encoding of any encodable value gives back the value, leaving whatever followed untouched |
| RoundTrip.ArrayRoundTrip | app/resp.go:305-318 | an encoded array reads back as the same children in the same order |
| RoundTrip.MapRoundTrip | app/resp.go:338-352 | an encoded map with an even number of children reads back as the same children in the same order |
| RoundTrip.RoundTripAll | app/resp.go:313-315 | a run of encodings reads back as the same values, in order |
| RoundTrip.FrameSeqStep | app/resp.go:135-142 | reading n children is reading one frame then n-1 more; a failing first child fails the read |
| RoundTrip.FrameSeqOne | app/resp.go:135-142 | reading one child is reading one frame |
| RoundTrip.FrameSeqSplit | app/resp.go:135-143 | reading m + n children is reading m, then n more from where those stopped |
| RoundTrip.FrameSeqFailsOnChild | app/resp.go:137-140 | if the i-th child fails to read, the whole array or map fails |
| RoundTrip.EchoCommand | app/resp.go:128-146 | `*2\r\n$4\r\nECHO\r\n$3\r\nhey\r\n` decodes to the array of the two bulk strings `ECHO` and `hey`, leaving whatever follows it untouched |
| AsWritten.MarshalMapAsWritten | app/resp.go:338-352 | as written, a map encodes to its header and an extra CR LF only, whatever its children |
| AsWritten.MapAsWrittenDoesNotDecode | app/resp.go:346-350 | no map with at least one pair encoded as written can be decoded |
| AsWritten.MarshalBulkStringAsWritten | app/resp.go:292-303 | as written, the declared length is the length of `str`, not of the payload |
| AsWritten.BulkAsWrittenLosesPayload | app/resp.go:293 | a decoded bulk string (empty `str`) re-encoded as written does not decode back to itself through a reader that honours the declared length, such as `Frame` or any RESP client |
| AsWritten.BulkAsWrittenReadsBack | app/resp.go:121 | the as-written bulk reader, which ignores the declared length, reads the as-written encoding of a payload without LF back whole |
| AsWritten.BulkStringBodyAsWritten | app/resp.go:114-126 | a successful as-written bulk read consumes at least one byte |
| AsWritten.BulkAsWrittenStopsAtLF | app/resp.go:121 | a payload holding CR LF is cut at it as written, while the corrected reader returns all of it |
| AsWritten.StripTerminatorAsWritten | app/resp.go:49-53 | the as-written stripping fails (panics) exactly on the one-byte line LF, and otherwise agrees with the model |
| AsWritten.NullBodyAsWritten | app/resp.go:93-94 | as written, a null read consumes nothing after its tag, so it stops right before the CR LF that the corrected reader consumes |
| AsWritten.NullBodyTakesCRLF | app/resp.go:93-94 | the corrected null reader accepts exactly a bare CR LF after the tag, and stops right after it |
| AsWritten.NullAsWrittenStrandsTerminator | app/resp.go:93-94 | after the as-written null read, the next bytes are the CR LF, which begin no frame (Go's default branch at app/resp.go:100-102 returns an empty `Value{}` for the CR and again for the LF); the corrected reader reads the next value |
| AsWritten.ChildrenAsWritten | app/resp.go:134-142 | `make` then `append` gives length + children entries, the first length of them empty |
| AsWritten.ArrayBodyAsWritten | app/resp.go:128-146 | a successful as-written array read consumes at least one byte |
| AsWritten.ArrayAsWrittenDoublesLength | app/resp.go:134-142 | an encoded array of n values reads back as written with 2n entries, the first one empty |
| AsWritten.MapBodyAsWritten | app/resp.go:168-185 | a successful as-written map read consumes at least one byte |
| AsWritten.MapAsWrittenReadsHalf | app/resp.go:174-182 | a one-pair map read as written yields, empty values aside, only the key and leaves the value unread; the corrected reader yields both |

## Left out

- `app/server.go` is not part of this model. It holds the TCP accept loop, `conn.Write` and `os.Exit`, which are network I/O with no codec logic. Its commented-out handler is dead code.
- The `bufio.Reader` buffering is left out. `Reader.Response` reads from the whole byte sequence the connection will deliver, because within one `Response` buffering changes nothing observable. The server (app/server.go:27-29) builds a new `Response`, and so a new `bufio.Reader`, for every frame; bytes the previous one had already buffered are dropped, so a second frame sent in the same segment is lost. That loss is not modelled. `Reader.ReadFirst` counts the bytes taken from the buffered view, not from the `io.Reader`. How an `io.Reader` blocks or errors partway is not modelled: running out of bytes is the only failure.
- The diagnostic `fmt.Println` on an unknown tag (app/resp.go:101) is output only, so it is left out.
- The commented-out typed-map construction (app/resp.go:187-247) is abandoned code. Maps stay an ordered sequence of alternating keys and values, not deduplicated.
- The three-result `ReadLine` that app/resp_test.go:12 expects does not exist in app/resp.go. The two-result form of the code is modelled, and the test serves only as the example of `LineRoundTrip`.
- Go's `int` width on the decoder side is not modelled: `int(i64)` is the identity on 64-bit platforms. Counts are unbounded naturals once parsed, so `2 * count` for maps cannot overflow in the model.
- The empty values that `make([]Value, length)` adds before the children appear only in `AsWritten.ChildrenAsWritten` and `AsWritten.ArrayAsWrittenDoublesLength`. The decoder yields exactly the children.
- The untyped `Value{}` returned for an unknown tag, and for a null bulk string, is replaced by failure and by `NullBulk` respectively. The Go struct's unused fields, which are zero, are not represented.
- Reader.Response.ReadLine: after a failure the cursor is not pinned down beyond reaching the end of input, and the other methods say nothing about the cursor after a failure, because the Go caller abandons the connection on any error.
- Encoder.Marshal and its helpers state the framing (tag byte, final CR LF) in their own contracts. That the encoding carries the value itself is stated by the round-trip lemmas, not by the encoder's contracts.

## Findings

| source | as written | input that shows it | evidently intended | confidence | as-written member | corrected member |
|---|---|---|---|---|---|---|
| app/resp.go:346-350 | read literally, the loop body declares a new `bytes`, so no child is written (Go refuses that line as "declared and not used"; read with `=`, the children are written); in either reading a second CR LF is appended at line 350 | a map of `+a` and `+b` encodes to `%1\r\n\r\n` | `%` pair count CR LF, then the children | not executed | AsWritten.MapAsWrittenDoesNotDecode | RoundTrip.MapRoundTrip |
| app/resp.go:293 | the bulk length is `len(v.str)` | the bulk string `hi` as decoded (empty `str`) encodes to `$0\r\nhi\r\n`, which a reader that honours the length (any RESP client) reads as the empty string; Go's own reader at line 121 ignores the length and reads back `hi` | the length of `v.bulk` | not executed | AsWritten.BulkAsWrittenLosesPayload | RoundTrip.BulkStringRoundTrip |
| app/resp.go:121 | the payload is read with `ReadLine` | `$4\r\na\r\nb\r\n` reads as `a` | read exactly the declared number of bytes, then CR LF | not executed | AsWritten.BulkAsWrittenStopsAtLF | RoundTrip.BulkPayload |
| app/resp.go:49 | `line[len(line)-2]` is read when the line is the single byte LF | the input `\n` (index -1, a run-time panic) | check the length first; the LF stays in the line | not executed | AsWritten.StripTerminatorAsWritten | RoundTrip.LineKeepsBareLF |
| app/resp.go:93-94 | the null case consumes only the tag, leaving the CR LF that `marshalNull` writes | `_\r\n:1\r\n`: the next two reads take `\r` and `\n` as tags and return spurious empty values from the default branch (app/resp.go:100-102) before `:1` is read | consume the CR LF after `_` | not executed | AsWritten.NullAsWrittenStrandsTerminator | RoundTrip.NullRoundTrip |
| app/resp.go:134-142 | `make([]Value, length)` then `append` puts `length` empty values before the children | `*1\r\n:5\r\n` reads as two entries, an empty value then 5 | `make([]Value, 0, length)` | not executed | AsWritten.ArrayAsWrittenDoublesLength | RoundTrip.ArrayRoundTrip |
| app/resp.go:175 | the map reader reads `length` children while `length` counts pairs (app/resp.go:339) | `%1\r\n+k\r\n+v\r\n` yields only `k` (after the empty value that `make` puts first, app/resp.go:174) and leaves `+v\r\n` unread | read `2 * length` children | not executed | AsWritten.MapAsWrittenReadsHalf | RoundTrip.MapRoundTrip |
