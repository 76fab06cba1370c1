/**
 * The byte streams of the decoder's unit tests, and what the model makes of
 * them: the same answers the tests expect. One more stream shows the budget
 * of the field loop running out.
 */
module TestVectors {
  import opened Wire
  import opened Frames
  import opened Decoders
  import opened Encoding
  import opened FrameProperties

  /** "test-content-type". */
  const TEST_CONTENT_TYPE: seq<byte> :=
    [116, 101, 115, 116, 45, 99, 111, 110, 116, 101, 110, 116, 45, 116, 121, 112, 101]

  /** "test-content". */
  const TEST_CONTENT: seq<byte> := [116, 101, 115, 116, 45, 99, 111, 110, 116, 101, 110, 116]

  /*
   * The tests' byte strings, written frame by frame and word by word: each
   * `[0, 0, 0, n]` is the big-endian word n.
   */

  /** The `read_control_field` test: one content-type field holding "test-content-type". */
  const TEST_CONTROL_FIELD: seq<byte> := [0, 0, 0, 1] + [0, 0, 0, 17] + TEST_CONTENT_TYPE

  /** The `read_control_frame` test: length 29, type START, then that field. */
  const TEST_CONTROL_FRAME: seq<byte> := [0, 0, 0, 29] + [0, 0, 0, 2] + TEST_CONTROL_FIELD

  /** The start handshake: the zero escape word, then that control frame. */
  const TEST_HANDSHAKE: seq<byte> := [0, 0, 0, 0] + TEST_CONTROL_FRAME

  /** A data frame of 12 bytes holding "test-content". */
  const TEST_DATA_FRAME: seq<byte> := [0, 0, 0, 12] + TEST_CONTENT

  /** A STOP control frame: zero escape, length 4, type STOP, no field. */
  const TEST_STOP_FRAME: seq<byte> := [0, 0, 0, 0] + ([0, 0, 0, 4] + [0, 0, 0, 3])

  /** The 65 bytes the `iter`, `read` and `read_start_frame` tests feed the decoder. */
  const TEST_STREAM: seq<byte> := TEST_HANDSHAKE + TEST_DATA_FRAME + TEST_STOP_FRAME

  /** Nine bytes of value. */
  const NINE_BYTES: seq<byte> := [1, 2, 3, 4, 5, 6, 7, 8, 9]

  /**
   * A control frame of declared length 13, so a budget of 9 for fields, and
   * one field whose 9-byte value passes the limit check but whose 17 bytes in
   * all do not fit the budget.
   */
  const UNDERFLOW_FRAME: seq<byte> := [0, 0, 0, 13] + [0, 0, 0, 3] + ([0, 0, 0, 1] + [0, 0, 0, 9] + NINE_BYTES)

  /** A word below 256 is written as three zero bytes and itself. */
  lemma SmallWord(b: byte)
    ensures EncodeU32(b) == [0, 0, 0, b]
  {
    U32Reencode(0, 0, 0, b);
  }

  /** The one content type of the handshake, as the encoder sees it. */
  lemma OneContentType()
    ensures Encodable([TEST_CONTENT_TYPE]) && FieldsSize([TEST_CONTENT_TYPE]) == 25
    ensures EncodeFields([TEST_CONTENT_TYPE]) == EncodeField(TEST_CONTENT_TYPE)
  {
    var contents := [TEST_CONTENT_TYPE];
    assert |TEST_CONTENT_TYPE| == 17;
    assert |contents| == 1 && contents[0] == TEST_CONTENT_TYPE && contents[1..] == [];
    assert EncodeField(TEST_CONTENT_TYPE) + [] == EncodeField(TEST_CONTENT_TYPE);
  }

  /** The tests' control field is what the encoder writes for "test-content-type". */
  lemma TestFieldEncoded()
    ensures TEST_CONTROL_FIELD == EncodeField(TEST_CONTENT_TYPE)
  {
    SmallWord(1);
    SmallWord(17);
  }

  /** The tests' control frame is what the encoder writes for a START frame with that field. */
  lemma TestFrameEncoded()
    ensures Encodable([TEST_CONTENT_TYPE]) && FieldsSize([TEST_CONTENT_TYPE]) == 25
    ensures TEST_CONTROL_FRAME == EncodeControlFrame(CONTROL_START, [TEST_CONTENT_TYPE])
  {
    OneContentType();
    TestFieldEncoded();
    SmallWord(29);
    SmallWord(2);
  }

  /** The tests' handshake is the encoder's START frame behind its zero escape word. */
  lemma TestHandshakeEncoded()
    ensures Encodable([TEST_CONTENT_TYPE]) && FieldsSize([TEST_CONTENT_TYPE]) == 25
    ensures TEST_HANDSHAKE == EncodeControl(CONTROL_START, [TEST_CONTENT_TYPE])
  {
    TestFrameEncoded();
    SmallWord(0);
  }

  lemma TestDataEncoded()
    ensures TEST_DATA_FRAME == EncodeData(TEST_CONTENT)
  {
    SmallWord(12);
  }

  lemma TestStopEncoded()
    ensures TEST_STOP_FRAME == EncodeControl(CONTROL_STOP, [])
  {
    assert FieldsSize([]) == 0 && EncodeFields([]) == [];
    assert EncodeU32(4) + EncodeU32(3) + [] == EncodeU32(4) + EncodeU32(3);
    StopWords();
    SmallWord(0);
  }

  lemma StopWords()
    ensures [0, 0, 0, 4] + [0, 0, 0, 3] == EncodeU32(4) + EncodeU32(3)
  {
    SmallWord(4);
    SmallWord(3);
  }

  /** The tests' stream is exactly what the reference encoder writes for that session. */
  lemma TestStreamEncoded()
    ensures Encodable([TEST_CONTENT_TYPE]) && FieldsSize([TEST_CONTENT_TYPE]) == 25
    ensures TEST_STREAM == Session([TEST_CONTENT_TYPE], TEST_CONTENT)
  {
    TestHandshakeEncoded();
    TestDataEncoded();
    TestStopEncoded();
  }

  /** The field is read within a limit of 29 and reports 25 bytes consumed. */
  lemma ControlFieldVector()
    ensures FieldAt(TEST_CONTROL_FIELD, 0, 29) == Ok(Parsed(Field(TEST_CONTENT_TYPE, 25), 25))
  {
    TestFieldEncoded();
    assert TEST_CONTROL_FIELD[0..25] == TEST_CONTROL_FIELD;
    FieldRoundTrip(TEST_CONTROL_FIELD, 0, TEST_CONTENT_TYPE, 29);
  }

  /** The control frame yields type START and exactly the one content type. */
  lemma ControlFrameVector()
    ensures ControlFrameAt(TEST_CONTROL_FRAME, 0) ==
            Ok(Parsed(ControlFrame(CONTROL_START, [TEST_CONTENT_TYPE]), 33))
  {
    TestFrameEncoded();
    assert TEST_CONTROL_FRAME[0..33] == TEST_CONTROL_FRAME;
    ControlFrameRoundTrip(TEST_CONTROL_FRAME, 0, CONTROL_START, [TEST_CONTENT_TYPE]);
  }

  /** The handshake is accepted and ends before the data frame, at byte 37. */
  lemma StartFrameVector()
    ensures StartFrameAt(TEST_STREAM, 0) == Ok(Parsed((), 37))
  {
    TestStreamEncoded();
    SessionSlices([TEST_CONTENT_TYPE], TEST_CONTENT);
    StartFrameRoundTrip(TEST_STREAM, 0, [TEST_CONTENT_TYPE]);
  }

  /** A pull into a 1024-byte buffer yields the 12 bytes "test-content". */
  lemma ReadVector()
    ensures PullAt(TEST_STREAM, 0, false, 1024) == Ok(Parsed(TEST_CONTENT, 53))
  {
    TestStreamEncoded();
    SessionSlices([TEST_CONTENT_TYPE], TEST_CONTENT);
    SessionPull(TEST_STREAM, 37, [TEST_CONTENT_TYPE], TEST_CONTENT, 1024);
  }

  /** The iterator yields "test-content", then ends at STOP. */
  lemma IterVector()
    ensures NextAt(TEST_STREAM, 0, false) == Ok(Parsed(Some(TEST_CONTENT), 53))
    ensures NextFrame(TEST_STREAM, 0, false) == Some(Frame(TEST_CONTENT))
    ensures NextAt(TEST_STREAM, 53, true) == Ok(Parsed(None, 65))
    ensures NextFrame(TEST_STREAM, 53, true) == None
  {
    TestStreamEncoded();
    SessionSlices([TEST_CONTENT_TYPE], TEST_CONTENT);
    SessionIter(TEST_STREAM, 37, [TEST_CONTENT_TYPE], TEST_CONTENT);
    NextFrameNone(TEST_STREAM, 53, true);
  }

  /** The declared budget runs out inside the first field. */
  lemma UnderflowVector()
    ensures ControlFrameAt(UNDERFLOW_FRAME, 0) == Err(BudgetUnderflow)
  {
    var s := UNDERFLOW_FRAME;
    SmallWord(1);
    SmallWord(3);
    SmallWord(9);
    SmallWord(13);
    SliceThree(s, 0, EncodeU32(13), EncodeU32(3), EncodeField(NINE_BYTES));
    U32RoundTrip(s, 0, 13);
    U32RoundTrip(s, 4, 3);
    FieldRoundTrip(s, 8, NINE_BYTES, 9);
    FieldsStep(s, 8, 9);
  }

  /** The `iter` test on a fresh decoder: one frame, then `None`. */
  method IterTest() returns (first: Option<Frame>, second: Option<Frame>)
    ensures first == Some(Frame(TEST_CONTENT)) && second == None
  {
    IterVector();
    var decoder := new Decoder(TEST_STREAM);
    first := decoder.Next();
    second := decoder.Next();
  }

  /** The `read` test on a fresh decoder: 12 bytes, "test-content", at the front of the buffer. */
  method ReadTest() returns (n: Result<nat>, got: seq<byte>)
    ensures n == Ok(12) && got == TEST_CONTENT
  {
    ReadVector();
    var decoder := new Decoder(TEST_STREAM);
    var buf := new byte[1024];
    n := decoder.Read(buf);
    got := buf[..12];
  }

  /** The `read_start_frame` test on a fresh decoder: accepted, stopping before the data frame. */
  method StartFrameTest() returns (r: Result<()>, at: nat)
    ensures r == Ok(()) && at == 37
  {
    StartFrameVector();
    var decoder := new Decoder(TEST_STREAM);
    r := decoder.ReadStartFrame();
    at := decoder.pos;
  }

  /** The `read_control_frame` test on a fresh decoder: type START and the one content type. */
  method ControlFrameTest() returns (r: Result<ControlFrame>)
    ensures r == Ok(ControlFrame(CONTROL_START, [TEST_CONTENT_TYPE]))
  {
    ControlFrameVector();
    var decoder := new Decoder(TEST_CONTROL_FRAME);
    r := decoder.ReadControlFrame();
  }

  /** The `read_control_field` test on a fresh decoder: "test-content-type", 25 bytes read. */
  method ControlFieldTest() returns (r: Result<Field>)
    ensures r == Ok(Field(TEST_CONTENT_TYPE, 25))
  {
    ControlFieldVector();
    var decoder := new Decoder(TEST_CONTROL_FIELD);
    r := decoder.ReadControlField(29);
  }
}
