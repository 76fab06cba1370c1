/**
 * The reference parser: each step of the decoder as a pure function of the
 * byte stream and a position in it. The methods of `Decoders.Decoder` are
 * proved to behave exactly as these functions say.
 */
module Frames {
  import opened Wire

  /** A data frame handed out by the iterator: its payload bytes. */
  datatype Frame = Frame(data: seq<byte>)

  /**
   * A parsed control frame: its type and the content-type values of its
   * fields in wire order. Field values are kept as raw bytes.
   */
  datatype ControlFrame = ControlFrame(controlType: nat, contentTypes: seq<seq<byte>>)

  /** One control field: its value and the stream bytes it took. */
  datatype Field = Field(content: seq<byte>, consumed: nat)

  /** `read_control_field(limit)`. */
  function FieldAt(s: seq<byte>, p: nat, limit: nat): (r: Result<Parsed<Field>>)
    requires p <= |s|
    ensures r.Ok? ==> r.value.item.consumed == 8 + |r.value.item.content|
    ensures r.Ok? ==> |r.value.item.content| <= limit
    ensures r.Ok? ==> r.value.next == p + r.value.item.consumed <= |s|
  {
    match U32At(s, p)
    case Err(e) => Err(e)
    case Ok(fieldType) =>
      if fieldType.item != CONTROL_FIELD_CONTENT_TYPE then Err(UnexpectedFieldType)
      else
        match U32At(s, fieldType.next)
        case Err(e) => Err(e)
        case Ok(fieldLen) =>
          if fieldLen.item > limit then Err(FieldTooLarge)
          else
            match BytesAt(s, fieldLen.next, fieldLen.item)
            case Err(e) => Err(e)
            case Ok(content) => Ok(Parsed(Field(content.item, 8 + fieldLen.item), content.next))
  }

  /** The `while remaining > 8` loop of `read_control_frame`: its test. */
  function FieldsAt(s: seq<byte>, p: nat, remaining: nat): (r: Result<Parsed<seq<seq<byte>>>>)
    requires p <= |s|
    ensures r.Ok? ==> p <= r.value.next <= |s|
    decreases remaining, 1
  {
    if remaining <= 8 then Ok(Parsed([], p)) else FieldsFrom(s, p, remaining)
  }

  /** One turn of the field loop: read a field, charge it to the budget, loop. */
  function FieldsFrom(s: seq<byte>, p: nat, remaining: nat): (r: Result<Parsed<seq<seq<byte>>>>)
    requires p <= |s|
    ensures r.Ok? ==> p <= r.value.next <= |s|
    decreases remaining, 0
  {
    match FieldAt(s, p, remaining)
    case Err(e) => Err(e)
    case Ok(field) =>
      if field.item.consumed > remaining then Err(BudgetUnderflow)
      else
        match FieldsAt(s, field.next, remaining - field.item.consumed)
        case Err(e) => Err(e)
        case Ok(rest) => Ok(Parsed([field.item.content] + rest.item, rest.next))
  }

  /** `read_control_frame`. */
  function ControlFrameAt(s: seq<byte>, p: nat): (r: Result<Parsed<ControlFrame>>)
    requires p <= |s|
    ensures r.Ok? ==> p + 8 <= r.value.next <= |s|
  {
    match U32At(s, p)
    case Err(e) => Err(e)
    case Ok(frameLen) =>
      if frameLen.item > MAX_CONTROL_FRAME_LENGTH then Err(ControlFrameTooLarge)
      else if frameLen.item < 4 then Err(ControlFrameTooShort)
      else
        match U32At(s, frameLen.next)
        case Err(e) => Err(e)
        case Ok(controlType) =>
          match FieldsAt(s, controlType.next, frameLen.item - 4)
          case Err(e) => Err(e)
          case Ok(fields) => Ok(Parsed(ControlFrame(controlType.item, fields.item), fields.next))
  }

  /** `read_start_frame`. */
  function StartFrameAt(s: seq<byte>, p: nat): (r: Result<Parsed<()>>)
    requires p <= |s|
    ensures r.Ok? ==> p + 12 <= r.value.next <= |s|
  {
    match U32At(s, p)
    case Err(e) => Err(e)
    case Ok(zero) =>
      if zero.item != 0 then Err(StartNotZero)
      else
        match ControlFrameAt(s, zero.next)
        case Err(e) => Err(e)
        case Ok(frame) =>
          if frame.item.controlType == CONTROL_START then Ok(Parsed((), frame.next))
          else Err(NotStartFrame)
  }

  /** The handshake as the two front ends run it: skipped once started. */
  function HandshakeAt(s: seq<byte>, p: nat, started: bool): (r: Result<Parsed<()>>)
    requires p <= |s|
    ensures r.Ok? ==> p <= r.value.next <= |s|
  {
    if started then Ok(Parsed((), p)) else StartFrameAt(s, p)
  }

  /** `read_n(n, buf)` with `cap == buf.len()`. */
  function PayloadAt(s: seq<byte>, p: nat, n: nat, cap: nat): (r: Result<Parsed<seq<byte>>>)
    requires p <= |s|
    ensures r.Ok? ==> |r.value.item| == n && r.value.next == p + n <= |s|
  {
    if n > cap then Err(FrameTooLargeForBuffer) else BytesAt(s, p, n)
  }

  /**
   * `Read::read` into a buffer of `cap` bytes: the bytes written to the front
   * of the buffer (whose count is the value returned) and the new position.
   */
  function PullAt(s: seq<byte>, p: nat, started: bool, cap: nat): (r: Result<Parsed<seq<byte>>>)
    requires p <= |s|
    ensures r.Ok? ==> |r.value.item| <= cap && p <= r.value.next <= |s|
  {
    match HandshakeAt(s, p, started)
    case Err(e) => Err(e)
    case Ok(h) => PullFrameAt(s, h.next, cap)
  }

  /** The part of `Read::read` after the handshake: one length-prefixed frame. */
  function PullFrameAt(s: seq<byte>, p: nat, cap: nat): (r: Result<Parsed<seq<byte>>>)
    requires p <= |s|
    ensures r.Ok? ==> |r.value.item| <= cap && p <= r.value.next <= |s|
  {
    match U32At(s, p)
    case Err(e) => Err(e)
    case Ok(frameLen) =>
      if frameLen.item == 0 then
        match ControlFrameAt(s, frameLen.next)
        case Err(e) => Err(e)
        case Ok(frame) => Ok(Parsed([], frame.next))
      else
        PayloadAt(s, frameLen.next, frameLen.item, cap)
  }

  /**
   * `Iterator::next` before its errors are turned into `None`: `None` is a
   * STOP control frame, `Some(data)` a frame to hand out.
   */
  function NextAt(s: seq<byte>, p: nat, started: bool): (r: Result<Parsed<Option<seq<byte>>>>)
    requires p <= |s|
    ensures r.Ok? ==> p <= r.value.next <= |s|
  {
    match HandshakeAt(s, p, started)
    case Err(e) => Err(e)
    case Ok(h) => IterFrameAt(s, h.next)
  }

  /** The part of `Iterator::next` after the handshake. */
  function IterFrameAt(s: seq<byte>, p: nat): (r: Result<Parsed<Option<seq<byte>>>>)
    requires p <= |s|
    ensures r.Ok? ==> p <= r.value.next <= |s|
  {
    match U32At(s, p)
    case Err(e) => Err(e)
    case Ok(frameLen) =>
      if frameLen.item == 0 then
        match ControlFrameAt(s, frameLen.next)
        case Err(e) => Err(e)
        case Ok(frame) =>
          if frame.item.controlType == CONTROL_STOP then Ok(Parsed(None, frame.next))
          else
            // the length stays 0: `read_n(0, [])` reads nothing and an empty
            // frame is handed out
            Ok(Parsed(Some([]), frame.next))
      else
        match PayloadAt(s, frameLen.next, frameLen.item, frameLen.item)
        case Err(e) => Err(e)
        case Ok(data) => Ok(Parsed(Some(data.item), data.next))
  }

  /**
   * What `Iterator::next` returns: every failure reads as `None`. That
   * includes BudgetUnderflow, which the source raises as a panic that
   * `.ok()?` does not catch.
   */
  function NextFrame(s: seq<byte>, p: nat, started: bool): Option<Frame>
    requires p <= |s|
  {
    match NextAt(s, p, started)
    case Ok(Parsed(Some(data), _)) => Some(Frame(data))
    case _ => None
  }

  /** The field list after `prefix` has been collected, or the same failure. */
  function Prefixed(prefix: seq<seq<byte>>, r: Result<Parsed<seq<seq<byte>>>>): Result<Parsed<seq<seq<byte>>>>
  {
    match r
    case Ok(pr) => Ok(Parsed(prefix + pr.item, pr.next))
    case Err(e) => Err(e)
  }

  lemma PrefixedNothing(r: Result<Parsed<seq<seq<byte>>>>)
    ensures Prefixed([], r) == r
  {
    if r.Ok? {
      assert [] + r.value.item == r.value.item;
    }
  }

  lemma PrefixedTwice(a: seq<seq<byte>>, b: seq<seq<byte>>, r: Result<Parsed<seq<seq<byte>>>>)
    ensures Prefixed(a, Prefixed(b, r)) == Prefixed(a + b, r)
  {
    if r.Ok? {
      assert a + (b + r.value.item) == (a + b) + r.value.item;
    }
  }

  lemma PrefixedAll(prefix: seq<seq<byte>>, p: nat)
    ensures Prefixed(prefix, Ok(Parsed([], p))) == Ok(Parsed(prefix, p))
  {
    assert prefix + [] == prefix;
  }

  /** One turn of the field loop, when the budget lets it run. */
  lemma FieldsStep(s: seq<byte>, p: nat, remaining: nat)
    requires p <= |s| && remaining > 8
    ensures FieldAt(s, p, remaining).Err? ==> FieldsAt(s, p, remaining) == Err(FieldAt(s, p, remaining).error)
    ensures FieldAt(s, p, remaining).Ok? && FieldAt(s, p, remaining).value.item.consumed > remaining ==>
              FieldsAt(s, p, remaining) == Err(BudgetUnderflow)
    ensures FieldAt(s, p, remaining).Ok? && FieldAt(s, p, remaining).value.item.consumed <= remaining ==>
              var field := FieldAt(s, p, remaining).value;
              FieldsAt(s, p, remaining) == Prefixed([field.item.content], FieldsAt(s, field.next, remaining - field.item.consumed))
  {
  }
}
