# Frame Streams decoder, modelled in Dafny

This project models the decoder of `rust-framestream`. Frame Streams is a framing protocol that cuts a byte stream into data frames. Between the data frames sit control frames, which negotiate content types and mark the start and end of a session. All integers on the wire are 32-bit big-endian words:

- a data frame is its nonzero length, then that many payload bytes;
- a control frame is a zero word (the escape), then its length, its control type (START = 2, STOP = 3) and a list of content-type fields;
- a content-type field is `1`, its value length, then the value.

The decoder wraps a byte source. Each call first reads a START handshake until one has succeeded; `started` is set only after a success and never cleared. It offers two front ends over the same parser:

- `Read::read` copies the next data frame into the caller's buffer and returns its length; a control frame yields 0;
- `Iterator::next` yields owned `Frame`s and ends (`None`) at STOP or at the first failure that the source reports as an error. A budget underflow in the field loop is a panic in the source, not an error; the model's `next` also ends with `None` there (see "Left out").

The model has five modules:

- `Wire`: bytes and big-endian words. It also holds the protocol constants and one error constructor per place where the decoder gives up. `Wire.Kind` maps each error to the `std::io::ErrorKind` the source reports it under, except BudgetUnderflow, which surfaces as a panic rather than an I/O error (`Panic`).
- `Frames`: the reference parser. Each decoder step is a pure function of the stream `s` and a position `p` that returns the parsed value and the position after it (`FieldAt`, `FieldsAt`, `ControlFrameAt`, `StartFrameAt`, `PayloadAt`, `PullAt`, `NextAt`). `NextFrame` turns the result of `NextAt` into what `next` returns, an `Option<Frame>`.
- `Decoders`: the live decoder. Class `Decoder` holds the input, a cursor `pos`, the one-way `started` flag and the recorded content type. Most methods mirror one Rust function, with the same order of reads and the same checks. The rest are pieces of those functions given their own method: `ReadControlFields` is the field loop of `read_control_frame`, `EnsureStarted` is the handshake guard at the top of both `read` and `next`, and `ReadU32` and `ReadExact` stand for the `read_u32` and `read_exact` calls on the byte source. The methods that only read (`ReadU32`, `ReadExact`, `ReadControlField`, `ReadControlFields`, `ReadControlFrame`, `ReadStartFrame`, `ReadFrameLength`, `EnsureStarted`) are proved to return what the reference parser returns and to leave the cursor where the parser says (`Wire.Follows`). `ReadN` and `Read` are proved against `PayloadAt` and `PullAt`, including that they write exactly the payload to the front of the caller's buffer and leave the rest of the buffer alone. `Next` is proved to return `NextFrame` and, on success, to leave the cursor where `NextAt` says. The constructor and `ContentType` do not involve the parser; their contracts state the new fields.
- `Encoding`: a reference encoder for the same wire format. It is the partner of the round-trip lemmas.
- `FrameProperties` states what the decoder promises:
  - words, fields, control frames and the handshake read back what the encoder wrote;
  - whatever is read is re-encoded to the bytes it consumed;
  - the length bounds 4..512 of control frames and the budget of the field loop;
  - the dispatch of both front ends;
  - a whole session (START, one data frame, STOP) decoded in both modes.
- `TestVectors` replays the source's unit tests on the model, and one more stream where the field budget runs out.

Two behaviours of the code are kept as written:

- The field loop runs only `while remaining > 8`. A control frame may therefore end with up to 8 declared bytes that are never read, and a final empty field that exactly fills the budget is not returned (`TrailingEmptyFieldDropped`, `ControlFrameAccepted`).
- `read_control_field` checks the value length against the budget but not the 8 header bytes. `remaining -= n` can then underflow. The model makes that its own outcome, `BudgetUnderflow` (`BudgetUnderflowCheck`, `UnderflowVector`).

The code keeps no stopped state. After STOP, a later call reads another length word, so at the end of the stream `read` fails with UnexpectedEof and `next` returns `None` (`SessionPull`, `SessionIter`).

## Model

| member | source | states |
|---|---|---|
| Wire.U32At | src/decoder.rs:42 | `read_u32::<BigEndian>` succeeds exactly when 4 bytes remain, consumes exactly 4 and yields a value below 2^32; otherwise it fails with UnexpectedEof |
| Wire.BytesAt | src/decoder.rs:96-98 | `read_exact` of n bytes succeeds exactly when n bytes remain, and yields the next n bytes of the stream; otherwise it fails with UnexpectedEof |
| Frames.FieldAt | src/decoder.rs:75-104 | a field read reports 8 + value length as consumed, its value is at most `limit` long, and it ends exactly that many bytes later |
| Frames.FieldsAt | src/decoder.rs:59-65 | the field loop, when it succeeds, ends within the stream and not before its start |
| Frames.ControlFrameAt | src/decoder.rs:41-71 | a control frame read, when it succeeds, consumes at least its two header words |
| Frames.StartFrameAt | src/decoder.rs:106-125 | a start handshake, when accepted, consumes at least the zero word and the two control-frame words |
| Frames.PayloadAt | src/decoder.rs:132-144 | `read_n` yields exactly n bytes and advances by n |
| Frames.PullAt | src/decoder.rs:155-177 | `read` never reports more bytes than the buffer holds and never moves the cursor backwards |
| Frames.NextAt | src/decoder.rs:187-209 | `next` never moves the cursor backwards or beyond the stream |
| Frames.FieldsStep | src/decoder.rs:61-64 | the loop's step equation, used by the proof of `ReadControlFields`: one turn of the loop: a failed field read fails the loop, a field longer than the budget is BudgetUnderflow, otherwise the field is the head of the list read with the reduced budget |
| Decoders.Decoder.constructor | src/decoder.rs:20-27 | a new decoder is at the start of its input, not started, with no content type |
| Decoders.Decoder.ContentType | src/decoder.rs:31-33 | records the content-type filter and changes nothing else |
| Decoders.Decoder.ReadU32 | src/decoder.rs:42 | reads a big-endian word off the live cursor exactly as `U32At` says |
| Decoders.Decoder.ReadExact | src/decoder.rs:98 | reads n bytes off the live cursor exactly as `BytesAt` says |
| Decoders.Decoder.ReadControlField | src/decoder.rs:75-104 | returns what `FieldAt` returns for the cursor and limit, and on success leaves the cursor right after the field |
| Decoders.Decoder.ReadControlFrame | src/decoder.rs:41-71 | returns what `ControlFrameAt` returns, including its length errors, and on success leaves the cursor where it says |
| Decoders.Decoder.ReadControlFields | src/decoder.rs:59-65 | the `while remaining > 8` loop returns what `FieldsAt` returns for its budget; the loop invariant ties the fields collected so far and the remaining budget to that function |
| Decoders.Decoder.ReadStartFrame | src/decoder.rs:106-125 | returns what `StartFrameAt` returns, and on success leaves the cursor right after the START frame |
| Decoders.Decoder.ReadFrameLength | src/decoder.rs:127-130 | reads the length word as `U32At` says |
| Decoders.Decoder.ReadN | src/decoder.rs:132-144 | refuses n larger than the buffer without reading or writing; otherwise, as `PayloadAt` says, it fails at end of stream or copies the next n bytes to `buf[..n]`, leaves `buf[n..]` unchanged, advances by n and returns n |
| Decoders.Decoder.EnsureStarted | src/decoder.rs:157-160 | runs the handshake only while not started; `started` becomes true exactly when it was true or the handshake succeeded |
| Decoders.Decoder.Read | src/decoder.rs:155-177 | returns what `PullAt` returns; on success the count is the length of the bytes written to the front of the buffer, the rest of the buffer is unchanged, and `started` is set exactly when the handshake succeeded |
| Decoders.Decoder.Next | src/decoder.rs:187-209 | returns `NextFrame`, i.e. `None` on STOP and on every failure, BudgetUnderflow included (see "Left out"); on success the cursor stands where `NextAt` says, and `started` is set exactly when the handshake succeeded |
| FrameProperties.U32RoundTrip | src/decoder.rs:42 | a word written by the encoder reads back as the same value, 4 bytes later |
| FrameProperties.U32Reencode | src/decoder.rs:42 | any four bytes read as a word are re-encoded to the same four bytes |
| FrameProperties.FieldRoundTrip | src/decoder.rs:75-104 | a field the encoder wrote reads back as its value with 8 + length consumed, within any limit it fits |
| FrameProperties.FieldCheck | src/decoder.rs:76-103 | a wrong field type is UnexpectedFieldType as soon as the type word is there; a missing length word is UnexpectedEof; a value longer than the limit is FieldTooLarge; otherwise the value is the next bytes, or UnexpectedEof when they are missing |
| FrameProperties.FieldReencode | src/decoder.rs:96-101 | the bytes an accepted field consumed are exactly the encoding of its value |
| FrameProperties.FieldsRoundTrip | src/decoder.rs:59-65 | the loop reads back every field the encoder wrote, in order, when the budget is their size plus at most 8 (except a trailing empty field with no slack), leaving the slack unread |
| FrameProperties.TrailingEmptyFieldDropped | src/decoder.rs:61 | a final empty field whose header exactly fills the budget is never read; the fields before it are |
| FrameProperties.FieldsConsumed | src/decoder.rs:59-65 | an accepted field list consumes exactly its size, fits the budget, and leaves at most 8 bytes of budget unread |
| FrameProperties.FieldsReencode | src/decoder.rs:59-65 | the bytes the loop consumed are exactly the encoding of the values it returned |
| FrameProperties.FieldsErrors | src/decoder.rs:59-65 | the loop fails only with UnexpectedEof, UnexpectedFieldType, FieldTooLarge or BudgetUnderflow |
| FrameProperties.BudgetUnderflowCheck | src/decoder.rs:62-64 | the first field underflows the budget exactly when its value fits the limit but its 8 header bytes do not also fit, and then the loop ends in BudgetUnderflow |
| FrameProperties.ControlFrameRejectsLength | src/decoder.rs:42-53 | ControlFrameTooLarge exactly when the declared length is above 512; ControlFrameTooShort exactly when it is below 4 |
| FrameProperties.ControlFrameAccepted | src/decoder.rs:42-71 | a length in 4..512 succeeds exactly when the type word and the field loop with budget length − 4 succeed; the frame holds that type and those fields, and ends at most 8 bytes before its declared end |
| FrameProperties.ControlFrameWithoutFields | src/decoder.rs:60-61 | a declared length of 4 yields the type and no fields, consuming exactly 8 bytes |
| FrameProperties.ControlFrameRoundTrip | src/decoder.rs:41-71 | a control frame the encoder wrote (at most 512 bytes declared, no trailing empty field) reads back as the same type and fields, consuming exactly its bytes |
| FrameProperties.StartFrameCheck | src/decoder.rs:106-125 | the handshake succeeds exactly when a zero word is followed by a control frame of type START, and ends right after that frame; a nonzero first word is StartNotZero |
| FrameProperties.StartFrameRoundTrip | src/decoder.rs:106-125 | a START handshake the encoder wrote is accepted and consumed exactly |
| FrameProperties.HandshakeOnce | src/decoder.rs:155-191 | once started, neither front end reads a handshake; before, both fail with the handshake's error or continue right after it |
| FrameProperties.PullControlFrame | src/decoder.rs:163-173 | in `read`, a zero length word means a control frame of any type, which yields 0 bytes; its failure is `read`'s failure |
| FrameProperties.PullDataFrame | src/decoder.rs:163-176 | in `read`, a nonzero length N is refused when larger than the buffer, is UnexpectedEof when the stream is short, and otherwise yields the next N bytes |
| FrameProperties.IterControlFrame | src/decoder.rs:193-201 | in `next`, a STOP control frame ends the sequence and any other control frame yields an empty frame |
| FrameProperties.IterDataFrame | src/decoder.rs:193-208 | in `next`, a data frame of length N yields exactly its N bytes, or UnexpectedEof when the stream is short |
| FrameProperties.NextFrameNone | src/decoder.rs:187-209 | `next` returns `None` exactly on a failure or at STOP, and otherwise a frame holding the payload; the failures include BudgetUnderflow, which the source raises as a panic, not an error (see "Left out") |
| FrameProperties.SessionIter | src/decoder.rs:214-224 | on any session the encoder writes (START with content types, one data frame, STOP), the iterator yields the payload, then `None` at STOP, and then `None` again |
| FrameProperties.SessionPull | src/decoder.rs:226-238 | on the same session, `read` copies the payload when the buffer is large enough and is refused otherwise; STOP yields 0; the call after that fails with UnexpectedEof |
| TestVectors.TestStreamEncoded | src/decoder.rs:215-219 | the tests' 65-byte stream is exactly the encoder's session for "test-content-type" and "test-content" |
| TestVectors.ControlFieldVector | src/decoder.rs:266-275 | the field test reads "test-content-type" with 25 bytes consumed under limit 29 |
| TestVectors.ControlFrameVector | src/decoder.rs:252-263 | the control frame test yields type START with the one content type |
| TestVectors.StartFrameVector | src/decoder.rs:241-249 | the handshake test is accepted and ends at byte 37 |
| TestVectors.ReadVector | src/decoder.rs:227-238 | the read test yields the 12 bytes "test-content" into a 1024-byte buffer |
| TestVectors.IterVector | src/decoder.rs:214-224 | the iter test yields a frame of "test-content" and then `None` |
| TestVectors.UnderflowVector | src/decoder.rs:60-64 | a declared length of 13 with a 9-byte field passes the limit check but underflows the budget |
| TestVectors.IterTest | src/decoder.rs:214-224 | a fresh `Decoder` on the test stream: `Next` twice gives the frame, then `None` |
| TestVectors.ReadTest | src/decoder.rs:227-238 | a fresh `Decoder` on the test stream: `Read` returns 12 with "test-content" at the front of the buffer |
| TestVectors.StartFrameTest | src/decoder.rs:241-249 | a fresh `Decoder`: `ReadStartFrame` succeeds and leaves the cursor at byte 37 |
| TestVectors.ControlFrameTest | src/decoder.rs:252-263 | a fresh `Decoder`: `ReadControlFrame` returns START with ["test-content-type"] |
| TestVectors.ControlFieldTest | src/decoder.rs:266-275 | a fresh `Decoder`: `ReadControlField(29)` returns "test-content-type" and 25 |

## Left out

- The byte source is a fixed sequence `input` read through a cursor. Short reads, interrupted reads and I/O errors other than end of stream are not modelled.
- After a failure, the cursor is left unspecified: an error is treated as the end of that call, and the contracts say nothing about resuming after it. In the source the cursor is exact for most errors. After ControlFrameTooLarge, ControlFrameTooShort, UnexpectedFieldType, FieldTooLarge, StartNotZero or FrameTooLargeForBuffer it stands right after the word that failed the check. After NotStartFrame it stands at the end of the control frame as the field loop read it, because the type is tested only after the whole frame has been read. Only after UnexpectedEof is the amount consumed not known.
- After FrameTooLargeForBuffer, the source has already consumed the length word. Retrying `read` with a larger buffer therefore reads the payload as a new frame. The model does not state this, since the cursor after an error is unspecified.
- After a failed `ReadN` or `Read`, the buffer is unspecified. In the source it is untouched on every failure except a short payload, where `read_exact` may have written part of it.
- Field values are kept as raw bytes. The lossy UTF-8 conversion of `read_control_field` is not modelled, so `ContentType` takes a `string` that nothing compares with them.
- The content-type filter is only recorded, as in the source; nothing reads it.
- `dbg!` output and the texts of the error messages are not modelled. Errors are kept by kind (`Wire.Kind`).
- Decoders.Decoder.Next: renders a budget underflow in a control frame's field loop as `None`, the same answer as STOP or an error. In the source `remaining -= n` panics in a debug build, and the `.ok()?` of `next` does not catch a panic. In a release build the budget wraps around and field reading goes on. In neither build does `next` return `None` there. `NextFrame` and `NextFrameNone` carry the same simplification.
- Decoders.Decoder.ReadControlFields: does not model the release-build wrap-around of `remaining -= n` on underflow. A debug build panics, and the model stops with `BudgetUnderflow`.
- The commented-out bidirectional mode and its FINISH acknowledgement are not modelled; they are not code.
- The encoder in module `Encoding` is a reference for the wire format. src/encoder.rs is not part of this model.
- The constants CONTENT_TYPE = 1, START = 2 and STOP = 3 are taken from the wire format and the tests' bytes. src/constants.rs is not part of this model.
- The casts `u32 as usize` are modelled as unbounded naturals, so a 32-bit length is never truncated. Allocation of a buffer of that size is not modelled.
- FrameProperties.FieldsRoundTrip, FrameProperties.ControlFrameRoundTrip, FrameProperties.StartFrameRoundTrip, FrameProperties.SessionIter, FrameProperties.SessionPull: stated only for field lists that do not end in an empty value without slack. The parser drops such a field, as `TrailingEmptyFieldDropped` states.
