/**
 * The Frame Streams decoder: a cursor over a byte stream plus the one-way
 * `started` flag. Every method is proved to do what the reference parser in
 * module Frames says.
 */
module Decoders {
  import opened Wire
  import opened Frames

  class Decoder {
    /** The bytes the wrapped reader will ever deliver. */
    const input: seq<byte>
    /** How many of them have been consumed. */
    var pos: nat
    /** Set by the first successful start handshake, never cleared. */
    var started: bool
    /** Recorded by `ContentType`; nothing reads it. */
    var contentType: Option<string>

    ghost predicate Valid()
      reads this
    {
      pos <= |input|
    }

    /** `Decoder::new`. */
    constructor (source: seq<byte>)
      ensures Valid()
      ensures input == source && pos == 0 && !started && contentType == None
    {
      input := source;
      pos := 0;
      started := false;
      contentType := None;
    }

    /** `Decoder::content_type`: only records the filter. */
    method ContentType(ctype: string)
      modifies this`contentType
      ensures contentType == Some(ctype)
    {
      contentType := Some(ctype);
    }

    method ReadU32() returns (r: Result<nat>)
      requires Valid()
      modifies this`pos
      ensures Valid()
      ensures Follows(r, U32At(input, old(pos)), pos)
    {
      if pos + 4 > |input| {
        return Err(UnexpectedEof);
      }
      r := Ok(BigEndian(input[pos], input[pos + 1], input[pos + 2], input[pos + 3]));
      pos := pos + 4;
    }

    method ReadExact(n: nat) returns (r: Result<seq<byte>>)
      requires Valid()
      modifies this`pos
      ensures Valid()
      ensures Follows(r, BytesAt(input, old(pos), n), pos)
    {
      if pos + n > |input| {
        return Err(UnexpectedEof);
      }
      r := Ok(input[pos..pos + n]);
      pos := pos + n;
    }

    /** `read_control_field(limit)`. */
    method ReadControlField(limit: nat) returns (r: Result<Field>)
      requires Valid()
      modifies this`pos
      ensures Valid()
      ensures Follows(r, FieldAt(input, old(pos), limit), pos)
    {
      var fieldType :- ReadU32();
      if fieldType != CONTROL_FIELD_CONTENT_TYPE {
        return Err(UnexpectedFieldType);
      }
      var fieldLen :- ReadU32();
      if fieldLen > limit {
        return Err(FieldTooLarge);
      }
      var content :- ReadExact(fieldLen);
      return Ok(Field(content, 8 + fieldLen));
    }

    /** `read_control_frame`. */
    method ReadControlFrame() returns (r: Result<ControlFrame>)
      requires Valid()
      modifies this`pos
      ensures Valid()
      ensures Follows(r, ControlFrameAt(input, old(pos)), pos)
    {
      var frameLen :- ReadU32();
      if frameLen > MAX_CONTROL_FRAME_LENGTH {
        return Err(ControlFrameTooLarge);
      } else if frameLen < 4 {
        return Err(ControlFrameTooShort);
      }
      var controlType :- ReadU32();
      var contentTypes :- ReadControlFields(frameLen - 4);
      return Ok(ControlFrame(controlType, contentTypes));
    }

    /**
     * The `while remaining > 8` loop of `read_control_frame`: reads fields
     * and charges each to the budget `remaining` until at most 8 is left.
     */
    method ReadControlFields(budget: nat) returns (r: Result<seq<seq<byte>>>)
      requires Valid()
      modifies this`pos
      ensures Valid()
      ensures Follows(r, FieldsAt(input, old(pos), budget), pos)
    {
      var contentTypes := [];
      var remaining: nat := budget;
      PrefixedNothing(FieldsAt(input, pos, remaining));
      while remaining > 8
        invariant Valid() && old(pos) <= pos
        invariant FieldsAt(input, old(pos), budget) == Prefixed(contentTypes, FieldsAt(input, pos, remaining))
        decreases remaining
      {
        FieldsStep(input, pos, remaining);
        var field :- ReadControlField(remaining);
        ghost var before := contentTypes;
        contentTypes := contentTypes + [field.content];
        if field.consumed > remaining {
          return Err(BudgetUnderflow);
        }
        PrefixedTwice(before, [field.content], FieldsAt(input, pos, remaining - field.consumed));
        remaining := remaining - field.consumed;
      }
      PrefixedAll(contentTypes, pos);
      return Ok(contentTypes);
    }

    /** `read_start_frame`. */
    method ReadStartFrame() returns (r: Result<()>)
      requires Valid()
      modifies this`pos
      ensures Valid()
      ensures Follows(r, StartFrameAt(input, old(pos)), pos)
    {
      var zero :- ReadU32();
      if zero != 0 {
        return Err(StartNotZero);
      }
      var frame :- ReadControlFrame();
      if frame.controlType == CONTROL_START {
        return Ok(());
      }
      return Err(NotStartFrame);
    }

    /** `read_frame_length`. */
    method ReadFrameLength() returns (r: Result<nat>)
      requires Valid()
      modifies this`pos
      ensures Valid()
      ensures Follows(r, U32At(input, old(pos)), pos)
    {
      r := ReadU32();
    }

    /**
     * `read_n(n, buf)`: refuses a payload longer than the buffer without
     * reading; otherwise copies the next `n` stream bytes to the front of
     * `buf` and leaves the rest of `buf` alone.
     */
    method ReadN(n: nat, buf: array<byte>) returns (r: Result<nat>)
      requires Valid()
      modifies this`pos, buf
      ensures Valid()
      ensures n > buf.Length ==> r == Err(FrameTooLargeForBuffer) && pos == old(pos) && buf[..] == old(buf[..])
      ensures match PayloadAt(input, old(pos), n, buf.Length)
              case Ok(payload) =>
                r == Ok(n) && pos == payload.next &&
                buf[..n] == payload.item && buf[n..] == old(buf[n..])
              case Err(e) => r == Err(e)
    {
      if n > buf.Length {
        return Err(FrameTooLargeForBuffer);
      }
      if pos + n > |input| {
        return Err(UnexpectedEof);
      }
      var i := 0;
      while i < n
        invariant 0 <= i <= n && pos == old(pos)
        invariant buf[..i] == input[pos..pos + i]
        invariant buf[n..] == old(buf[n..])
      {
        buf[i] := input[pos + i];
        i := i + 1;
      }
      pos := pos + n;
      return Ok(n);
    }

    /** The handshake both front ends run first, until it has succeeded. */
    method EnsureStarted() returns (r: Result<()>)
      requires Valid()
      modifies this`pos, this`started
      ensures Valid()
      ensures started == (old(started) || StartFrameAt(input, old(pos)).Ok?)
      ensures Follows(r, HandshakeAt(input, old(pos), old(started)), pos)
    {
      if !started {
        var ok :- ReadStartFrame();
        started := true;
      }
      return Ok(());
    }

    /**
     * `Read::read`: a control frame yields 0 and leaves `buf` alone, a data
     * frame of length N is copied to `buf[..N]` and yields N.
     */
    method Read(buf: array<byte>) returns (r: Result<nat>)
      requires Valid()
      modifies this`pos, this`started, buf
      ensures Valid()
      ensures started == (old(started) || StartFrameAt(input, old(pos)).Ok?)
      ensures match PullAt(input, old(pos), old(started), buf.Length)
              case Ok(pulled) =>
                r == Ok(|pulled.item|) && pos == pulled.next &&
                buf[..|pulled.item|] == pulled.item && buf[|pulled.item|..] == old(buf[|pulled.item|..])
              case Err(e) => r == Err(e)
    {
      var ok :- EnsureStarted();
      var frameLen :- ReadFrameLength();
      if frameLen == 0 {
        var frame :- ReadControlFrame();
        return Ok(0);
      }
      r := ReadN(frameLen, buf);
    }

    /**
     * `Iterator::next`: `None` on a STOP control frame and on every failure,
     * an empty frame for any other control frame, otherwise a frame holding
     * exactly the payload.
     */
    method Next() returns (r: Option<Frame>)
      requires Valid()
      modifies this`pos, this`started
      ensures Valid()
      ensures started == (old(started) || StartFrameAt(input, old(pos)).Ok?)
      ensures r == NextFrame(input, old(pos), old(started))
      ensures NextAt(input, old(pos), old(started)).Ok? ==> pos == NextAt(input, old(pos), old(started)).value.next
    {
      var handshake := EnsureStarted();
      if handshake.Err? {
        return None;
      }
      var length := ReadFrameLength();
      if length.Err? {
        return None;
      }
      var frameLen := length.value;
      if frameLen == 0 {
        var frame := ReadControlFrame();
        if frame.Err? || frame.value.controlType == CONTROL_STOP {
          return None;
        }
      }
      var buf := new byte[frameLen];
      var read := ReadN(frameLen, buf);
      if read.Err? {
        return None;
      }
      assert buf[..] == buf[..frameLen];
      return Some(Frame(buf[..]));
    }
  }
}
