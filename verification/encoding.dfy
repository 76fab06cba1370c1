/**
 * The write side of the wire format, as a reference: the byte strings a
 * Frame Streams encoder emits. The decoder's round trips are stated against
 * these definitions.
 */
module Encoding {
  import opened Wire

  /**
   * The four bytes whose big-endian value is `x`. `U32Split` computes them;
   * this definition only chooses them by their value, so the lemmas that use
   * it see four bytes and a value, never the divisions that produced them.
   * The two agree, because four bytes are determined by their value
   * (`FrameProperties.EncodeU32Computed`).
   */
  ghost function EncodeU32(x: nat): (b: seq<byte>)
    requires x < TWO_32
    ensures |b| == 4 && BigEndian(b[0], b[1], b[2], b[3]) == x
  {
    var w := U32Split(x);
    assert |w| == 4 && BigEndian(w[0], w[1], w[2], w[3]) == x;
    var b: seq<byte> :| |b| == 4 && BigEndian(b[0], b[1], b[2], b[3]) == x;
    b
  }

  /** The bytes of `x`, by division: the witness that `EncodeU32` exists. */
  function U32Split(x: nat): (b: seq<byte>)
    requires x < TWO_32
    ensures |b| == 4 && BigEndian(b[0], b[1], b[2], b[3]) == x
  {
    var low24 := x % 0x100_0000;
    var low16 := low24 % 0x1_0000;
    assert x == x / 0x100_0000 * 0x100_0000 + low24;
    assert low24 == low24 / 0x1_0000 * 0x1_0000 + low16;
    assert low16 == low16 / 0x100 * 0x100 + low16 % 0x100;
    [x / 0x100_0000, low24 / 0x1_0000, low16 / 0x100, low16 % 0x100]
  }

  /** Every field value fits a 32-bit length. */
  predicate Encodable(contents: seq<seq<byte>>)
  {
    forall i :: 0 <= i < |contents| ==> |contents[i]| < TWO_32
  }

  /** Bytes taken by a list of content-type fields: 8 header bytes each. */
  function FieldsSize(contents: seq<seq<byte>>): nat
  {
    if contents == [] then 0 else 8 + |contents[0]| + FieldsSize(contents[1..])
  }

  /** `field_type:u32 = CONTENT_TYPE, field_len:u32, value`. */
  ghost function EncodeField(content: seq<byte>): (b: seq<byte>)
    requires |content| < TWO_32
    ensures |b| == 8 + |content|
  {
    EncodeU32(CONTROL_FIELD_CONTENT_TYPE) + EncodeU32(|content|) + content
  }

  ghost function EncodeFields(contents: seq<seq<byte>>): (b: seq<byte>)
    requires Encodable(contents)
    ensures |b| == FieldsSize(contents)
  {
    if contents == [] then [] else EncodeField(contents[0]) + EncodeFields(contents[1..])
  }

  /** `ctrl_length:u32, control_type:u32, field...`. */
  ghost function EncodeControlFrame(controlType: nat, contents: seq<seq<byte>>): (b: seq<byte>)
    requires controlType < TWO_32 && Encodable(contents) && 4 + FieldsSize(contents) < TWO_32
    ensures |b| == 8 + FieldsSize(contents)
  {
    EncodeU32(4 + FieldsSize(contents)) + EncodeU32(controlType) + EncodeFields(contents)
  }

  /** A control frame in the frame sequence: behind the zero escape word. */
  ghost function EncodeControl(controlType: nat, contents: seq<seq<byte>>): (b: seq<byte>)
    requires controlType < TWO_32 && Encodable(contents) && 4 + FieldsSize(contents) < TWO_32
    ensures |b| == 12 + FieldsSize(contents)
  {
    EncodeU32(0) + EncodeControlFrame(controlType, contents)
  }

  /** A data frame: its nonzero length, then the payload verbatim. */
  ghost function EncodeData(payload: seq<byte>): (b: seq<byte>)
    requires 0 < |payload| < TWO_32
    ensures |b| == 4 + |payload|
  {
    EncodeU32(|payload|) + payload
  }
}
