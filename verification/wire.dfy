/**
 * Low-level wire vocabulary of Frame Streams: bytes, big-endian 32-bit
 * integers, the error kinds the decoder reports, and the result types that
 * carry a parsed value together with the stream position after it.
 */
module Wire {

  type byte = x: int | 0 <= x < 256

  const TWO_32: nat := 0x1_0000_0000

  /** Control frame types and the one recognised control field type. */
  const CONTROL_FIELD_CONTENT_TYPE: nat := 1
  const CONTROL_START: nat := 2
  const CONTROL_STOP: nat := 3

  /** Largest declared length of a control frame the decoder accepts. */
  const MAX_CONTROL_FRAME_LENGTH: nat := 512

  /** One constructor per place in the decoder that gives up. */
  datatype Error =
    | UnexpectedEof            // the byte source ended inside a fixed-size read
    | ControlFrameTooLarge     // declared control frame length above 512
    | ControlFrameTooShort     // declared control frame length below 4
    | UnexpectedFieldType      // control field type other than CONTENT_TYPE
    | FieldTooLarge            // control field length above the budget
    | BudgetUnderflow          // `remaining -= n` with n > remaining (usize underflow)
    | StartNotZero             // the handshake did not open with a zero word
    | NotStartFrame            // the handshake's control frame is not START
    | FrameTooLargeForBuffer   // data frame longer than the caller's buffer

  /**
   * How each error surfaces: as an io::Error of the given std::io::ErrorKind,
   * or, for `Panic`, as a panic (a debug-build arithmetic underflow) rather
   * than an io::Error at all.
   */
  datatype IoErrorKind = IoUnexpectedEof | InvalidData | InvalidInput | Other | Panic

  function Kind(e: Error): IoErrorKind
  {
    match e
    case UnexpectedEof => IoUnexpectedEof
    case ControlFrameTooLarge | ControlFrameTooShort | StartNotZero => InvalidData
    case UnexpectedFieldType | FieldTooLarge | NotStartFrame => InvalidInput
    case FrameTooLargeForBuffer => Other
    case BudgetUnderflow => Panic
  }

  datatype Option<+T> = None | Some(value: T)

  datatype Result<+T> = Ok(value: T) | Err(error: Error) {
    predicate IsFailure() { Err? }

    function PropagateFailure<U>(): Result<U>
      requires Err?
    {
      Err(error)
    }

    function Extract(): T
      requires Ok?
    {
      value
    }
  }

  /** A value read from the stream and the position just after it. */
  datatype Parsed<+T> = Parsed(item: T, next: nat)

  /**
   * The link between a method on the live decoder and the reference parser:
   * the method returns what the parser returns, and on success the cursor
   * stands where the parser says. After a failure the cursor is unspecified.
   */
  predicate Follows<T(==)>(r: Result<T>, spec: Result<Parsed<T>>, pos: nat)
  {
    match spec
    case Ok(pr) => r == Ok(pr.item) && pos == pr.next
    case Err(e) => r == Err(e)
  }

  /** The unsigned value of four bytes, most significant first. */
  function BigEndian(b0: byte, b1: byte, b2: byte, b3: byte): (x: nat)
    ensures x < TWO_32
  {
    b0 * 0x100_0000 + b1 * 0x1_0000 + b2 * 0x100 + b3
  }

  /** `read_u32::<BigEndian>()`: fails when fewer than four bytes remain. */
  function U32At(s: seq<byte>, p: nat): (r: Result<Parsed<nat>>)
    requires p <= |s|
    ensures r.Ok? <==> p + 4 <= |s|
    ensures r.Err? ==> r.error == UnexpectedEof
    ensures r.Ok? ==> r.value.next == p + 4 && r.value.item < TWO_32
  {
    if p + 4 <= |s| then Ok(Parsed(BigEndian(s[p], s[p + 1], s[p + 2], s[p + 3]), p + 4))
    else Err(UnexpectedEof)
  }

  /** `read_exact` of `n` bytes: fails when fewer than `n` bytes remain. */
  function BytesAt(s: seq<byte>, p: nat, n: nat): (r: Result<Parsed<seq<byte>>>)
    requires p <= |s|
    ensures r.Ok? <==> p + n <= |s|
    ensures r.Err? ==> r.error == UnexpectedEof
    ensures r.Ok? ==> r.value.next == p + n && |r.value.item| == n && s[..p] + r.value.item <= s
  {
    if p + n <= |s| then Ok(Parsed(s[p..p + n], p + n)) else Err(UnexpectedEof)
  }
}
