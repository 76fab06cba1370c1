/**
 * What the decoder promises, stated over the reference parser: the words and
 * fields it reads back, the budget of the field loop, the length bounds of
 * control frames, the start handshake, the dispatch of both front ends, and a
 * whole session against the reference encoder.
 */
module FrameProperties {
  import opened Wire
  import opened Frames
  import opened Encoding

  // ---------------------------------------------------------------- words

  /** A big-endian word written by the encoder reads back as itself. */
  lemma U32RoundTrip(s: seq<byte>, p: nat, x: nat)
    requires x < TWO_32 && p + 4 <= |s| && s[p..p + 4] == EncodeU32(x)
    ensures U32At(s, p) == Ok(Parsed(x, p + 4))
  {
    assert s[p] == s[p..p + 4][0] && s[p + 1] == s[p..p + 4][1];
    assert s[p + 2] == s[p..p + 4][2] && s[p + 3] == s[p..p + 4][3];
  }

  /** Each byte of a big-endian word can be recovered from its value. */
  lemma BigEndianDigits(b0: byte, b1: byte, b2: byte, b3: byte)
    ensures var x := BigEndian(b0, b1, b2, b3);
            && x / 0x100_0000 == b0
            && x % 0x100_0000 / 0x1_0000 == b1
            && x % 0x1_0000 / 0x100 == b2
            && x % 0x100 == b3
  {
    var x := BigEndian(b0, b1, b2, b3);
    var low16 := b2 * 0x100 + b3;
    var low24 := b1 * 0x1_0000 + low16;
    assert x == b0 * 0x100_0000 + low24;
    Digit(b0, low24, 0x100_0000);
    Digit(b1, low16, 0x1_0000);
    assert x == (b0 * 0x100 + b1) * 0x1_0000 + low16;
    Digit(b0 * 0x100 + b1, low16, 0x1_0000);
    Digit(b2, b3, 0x100);
    assert x == ((b0 * 0x100 + b1) * 0x100 + b2) * 0x100 + b3;
    Digit((b0 * 0x100 + b1) * 0x100 + b2, b3, 0x100);
  }

  /** Division by `d` recovers the quotient and the remainder of `q * d + r`. */
  lemma Digit(q: nat, r: nat, d: nat)
    requires r < d
    ensures (q * d + r) / d == q && (q * d + r) % d == r
  {
    var n := q * d + r;
    var k, m := n / d, n % d;
    assert (q - k) * d == m - r;
    if q > k {
      AtLeastOnce(q - k - 1, d);
    } else if q < k {
      AtLeastOnce(k - q - 1, d);
    }
  }

  lemma AtLeastOnce(a: nat, d: nat)
    ensures (a + 1) * d >= d
  {
    assert (a + 1) * d == a * d + d;
  }

  /** Four bytes read as a word are written back as the same four bytes. */
  lemma U32Reencode(b0: byte, b1: byte, b2: byte, b3: byte)
    ensures EncodeU32(BigEndian(b0, b1, b2, b3)) == [b0, b1, b2, b3]
  {
    var b := EncodeU32(BigEndian(b0, b1, b2, b3));
    BigEndianDigits(b0, b1, b2, b3);
    BigEndianDigits(b[0], b[1], b[2], b[3]);
  }

  /** The chosen encoding of a word is the one computed by division. */
  lemma EncodeU32Computed(x: nat)
    requires x < TWO_32
    ensures EncodeU32(x) == U32Split(x)
  {
    var b := U32Split(x);
    U32Reencode(b[0], b[1], b[2], b[3]);
    assert b == [b[0], b[1], b[2], b[3]];
  }

  // ---------------------------------------------------------------- fields

  /** A content-type field written by the encoder reads back within any budget it fits. */
  lemma FieldRoundTrip(s: seq<byte>, p: nat, content: seq<byte>, limit: nat)
    requires |content| < TWO_32 && |content| <= limit
    requires p + 8 + |content| <= |s| && s[p..p + 8 + |content|] == EncodeField(content)
    ensures FieldAt(s, p, limit) == Ok(Parsed(Field(content, 8 + |content|), p + 8 + |content|))
  {
    FieldWords(s, p, content);
    FieldFromWords(s, p, content, limit);
  }

  lemma FieldWords(s: seq<byte>, p: nat, content: seq<byte>)
    requires |content| < TWO_32
    requires p + 8 + |content| <= |s| && s[p..p + 8 + |content|] == EncodeField(content)
    ensures U32At(s, p) == Ok(Parsed(CONTROL_FIELD_CONTENT_TYPE, p + 4))
    ensures U32At(s, p + 4) == Ok(Parsed(|content|, p + 8))
    ensures s[p + 8..p + 8 + |content|] == content
  {
    SliceThree(s, p, EncodeU32(CONTROL_FIELD_CONTENT_TYPE), EncodeU32(|content|), content);
    U32RoundTrip(s, p, CONTROL_FIELD_CONTENT_TYPE);
    U32RoundTrip(s, p + 4, |content|);
  }

  lemma FieldFromWords(s: seq<byte>, p: nat, content: seq<byte>, limit: nat)
    requires |content| <= limit && p + 8 + |content| <= |s|
    requires U32At(s, p) == Ok(Parsed(CONTROL_FIELD_CONTENT_TYPE, p + 4))
    requires U32At(s, p + 4) == Ok(Parsed(|content|, p + 8))
    requires s[p + 8..p + 8 + |content|] == content
    ensures FieldAt(s, p, limit) == Ok(Parsed(Field(content, 8 + |content|), p + 8 + |content|))
  {
  }

  /**
   * `read_control_field` refuses any field type but CONTENT_TYPE as soon as
   * the type word is read, then a missing length word, then any value longer
   * than the limit; otherwise it takes exactly the 8 header bytes and the
   * value, and reports 8 plus the value length.
   */
  lemma FieldCheck(s: seq<byte>, p: nat, limit: nat)
    requires p + 4 <= |s|
    ensures U32At(s, p).value.item != CONTROL_FIELD_CONTENT_TYPE ==> FieldAt(s, p, limit) == Err(UnexpectedFieldType)
    ensures U32At(s, p).value.item == CONTROL_FIELD_CONTENT_TYPE && p + 8 > |s| ==> FieldAt(s, p, limit) == Err(UnexpectedEof)
    ensures p + 8 <= |s| ==>
            var fieldType, fieldLen, r := U32At(s, p).value.item, U32At(s, p + 4).value.item, FieldAt(s, p, limit);
            && (fieldType == CONTROL_FIELD_CONTENT_TYPE && fieldLen > limit ==> r == Err(FieldTooLarge))
            && (fieldType == CONTROL_FIELD_CONTENT_TYPE && fieldLen <= limit && p + 8 + fieldLen <= |s| ==>
                 r == Ok(Parsed(Field(s[p + 8..p + 8 + fieldLen], 8 + fieldLen), p + 8 + fieldLen)))
            && (fieldType == CONTROL_FIELD_CONTENT_TYPE && fieldLen <= limit && p + 8 + fieldLen > |s| ==>
                 r == Err(UnexpectedEof))
  {
  }

  /** The bytes a successful field read consumed are that field's encoding. */
  lemma FieldReencode(s: seq<byte>, p: nat, limit: nat)
    requires p <= |s| && FieldAt(s, p, limit).Ok?
    ensures var field := FieldAt(s, p, limit).value;
            |field.item.content| < TWO_32 && s[p..field.next] == EncodeField(field.item.content)
  {
    var field := FieldAt(s, p, limit).value;
    U32Reencode(s[p], s[p + 1], s[p + 2], s[p + 3]);
    U32Reencode(s[p + 4], s[p + 5], s[p + 6], s[p + 7]);
    assert s[p..p + 4] == [s[p], s[p + 1], s[p + 2], s[p + 3]];
    assert s[p + 4..p + 8] == [s[p + 4], s[p + 5], s[p + 6], s[p + 7]];
    assert s[p..field.next] == s[p..p + 4] + s[p + 4..p + 8] + s[p + 8..field.next];
  }

  // ---------------------------------------------------------------- the field loop

  /** A field read at `p`, then the rest of the list: the whole list is read. */
  lemma FieldsFromStep(s: seq<byte>, p: nat, remaining: nat, contents: seq<seq<byte>>, last: nat)
    requires contents != [] && 8 < remaining && 8 + |contents[0]| <= remaining && p + 8 + |contents[0]| <= |s|
    requires FieldAt(s, p, remaining) == Ok(Parsed(Field(contents[0], 8 + |contents[0]|), p + 8 + |contents[0]|))
    requires FieldsAt(s, p + 8 + |contents[0]|, remaining - 8 - |contents[0]|) == Ok(Parsed(contents[1..], last))
    ensures FieldsAt(s, p, remaining) == Ok(Parsed(contents, last))
  {
    FieldsStep(s, p, remaining);
    assert [contents[0]] + contents[1..] == contents;
  }

  /**
   * The field loop reads back every field the encoder wrote, in wire order,
   * when the budget is their size plus at most 8 stray bytes, unless the last
   * field is empty and there are no stray bytes: its 8-byte header alone does
   * not get the loop past `remaining > 8`. The stray bytes are not consumed.
   */
  lemma FieldsRoundTrip(s: seq<byte>, p: nat, contents: seq<seq<byte>>, budget: nat)
    requires Encodable(contents) && FieldsSize(contents) <= budget <= FieldsSize(contents) + 8
    requires contents == [] || |contents[|contents| - 1]| > 0 || budget > FieldsSize(contents)
    requires p + FieldsSize(contents) <= |s| && s[p..p + FieldsSize(contents)] == EncodeFields(contents)
    ensures FieldsAt(s, p, budget) == Ok(Parsed(contents, p + FieldsSize(contents)))
  {
    EncodedFieldsLaidOut(s, p, contents);
    LaidOutFieldsRead(s, p, contents, budget);
  }

  /** Field by field, what the encoder put at `p`. */
  ghost predicate LaidOut(s: seq<byte>, p: nat, contents: seq<seq<byte>>)
    decreases |contents|
  {
    && Encodable(contents)
    && p + FieldsSize(contents) <= |s|
    && (contents != [] ==>
         var c := contents[0];
         && s[p..p + 8 + |c|] == EncodeField(c)
         && LaidOut(s, p + 8 + |c|, contents[1..]))
  }

  lemma {:induction false} EncodedFieldsLaidOut(s: seq<byte>, p: nat, contents: seq<seq<byte>>)
    requires Encodable(contents)
    requires p + FieldsSize(contents) <= |s| && s[p..p + FieldsSize(contents)] == EncodeFields(contents)
    ensures LaidOut(s, p, contents)
    decreases |contents|
  {
    if contents != [] {
      EncodedFieldsSplit(s, p, contents);
      EncodedFieldsLaidOut(s, p + 8 + |contents[0]|, contents[1..]);
    }
  }

  lemma EncodedFieldsSplit(s: seq<byte>, p: nat, contents: seq<seq<byte>>)
    requires Encodable(contents) && contents != []
    requires p + FieldsSize(contents) <= |s| && s[p..p + FieldsSize(contents)] == EncodeFields(contents)
    ensures var c, q := contents[0], p + 8 + |contents[0]|;
            && |c| < TWO_32 && Encodable(contents[1..])
            && s[p..q] == EncodeField(c)
            && q + FieldsSize(contents[1..]) == p + FieldsSize(contents)
            && s[q..q + FieldsSize(contents[1..])] == EncodeFields(contents[1..])
  {
    var a, b := EncodeField(contents[0]), EncodeFields(contents[1..]);
    assert s[p..p + |a| + |b|] == a + b;
    SliceParts(s, p, a, b);
  }

  lemma {:induction false} LaidOutFieldsRead(s: seq<byte>, p: nat, contents: seq<seq<byte>>, budget: nat)
    requires LaidOut(s, p, contents) && FieldsSize(contents) <= budget <= FieldsSize(contents) + 8
    requires contents == [] || |contents[|contents| - 1]| > 0 || budget > FieldsSize(contents)
    ensures FieldsAt(s, p, budget) == Ok(Parsed(contents, p + FieldsSize(contents)))
    decreases |contents|
  {
    if contents == [] {
      FieldsDone(s, p, budget);
    } else {
      BudgetStep(contents, budget);
      LaidOutFieldsRead(s, p + 8 + |contents[0]|, contents[1..], budget - 8 - |contents[0]|);
      LaidOutHead(s, p, contents);
      LaidOutFieldRead(s, p, contents, budget);
    }
  }

  lemma LaidOutHead(s: seq<byte>, p: nat, contents: seq<seq<byte>>)
    requires contents != [] && LaidOut(s, p, contents)
    ensures p + 8 + |contents[0]| <= |s|
    ensures U32At(s, p) == Ok(Parsed(CONTROL_FIELD_CONTENT_TYPE, p + 4))
    ensures U32At(s, p + 4) == Ok(Parsed(|contents[0]|, p + 8))
    ensures s[p + 8..p + 8 + |contents[0]|] == contents[0]
  {
    FieldWords(s, p, contents[0]);
  }

  /** One field of the loop, given its words and what the rest of the loop reads. */
  lemma LaidOutFieldRead(s: seq<byte>, p: nat, contents: seq<seq<byte>>, budget: nat)
    requires contents != [] && 8 + |contents[0]| <= budget && p + 8 + |contents[0]| <= |s|
    requires U32At(s, p) == Ok(Parsed(CONTROL_FIELD_CONTENT_TYPE, p + 4))
    requires U32At(s, p + 4) == Ok(Parsed(|contents[0]|, p + 8))
    requires s[p + 8..p + 8 + |contents[0]|] == contents[0]
    requires budget > 8 && FieldsSize(contents) == 8 + |contents[0]| + FieldsSize(contents[1..])
    requires FieldsAt(s, p + 8 + |contents[0]|, budget - 8 - |contents[0]|) ==
             Ok(Parsed(contents[1..], p + 8 + |contents[0]| + FieldsSize(contents[1..])))
    ensures FieldsAt(s, p, budget) == Ok(Parsed(contents, p + FieldsSize(contents)))
  {
    FieldFromWords(s, p, contents[0], budget);
    FieldsFromStep(s, p, budget, contents, p + FieldsSize(contents));
  }

  /**
   * The budget of one turn of the loop over a list the encoder wrote: the
   * loop runs, the field fits, and what is left suits the rest of the list.
   */
  lemma BudgetStep(contents: seq<seq<byte>>, budget: nat)
    requires contents != [] && FieldsSize(contents) <= budget <= FieldsSize(contents) + 8
    requires |contents[|contents| - 1]| > 0 || budget > FieldsSize(contents)
    ensures FieldsSize(contents) == 8 + |contents[0]| + FieldsSize(contents[1..])
    ensures 8 < budget && 8 + |contents[0]| <= budget
    ensures FieldsSize(contents[1..]) <= budget - 8 - |contents[0]| <= FieldsSize(contents[1..]) + 8
    ensures contents[1..] == [] || |contents[1..][|contents[1..]| - 1]| > 0 ||
            budget - 8 - |contents[0]| > FieldsSize(contents[1..])
  {
    var rest := contents[1..];
    if rest != [] {
      assert FieldsSize(rest) >= 8 + |rest[0]|;
      assert rest[|rest| - 1] == contents[|contents| - 1];
    }
  }

  lemma FieldsDone(s: seq<byte>, p: nat, remaining: nat)
    requires p <= |s| && remaining <= 8
    ensures FieldsAt(s, p, remaining) == Ok(Parsed([], p))
  {
  }

  lemma {:induction false} EncodeFieldsAppend(contents: seq<seq<byte>>, last: seq<byte>)
    requires Encodable(contents) && |last| < TWO_32
    ensures Encodable(contents + [last])
    ensures EncodeFields(contents + [last]) == EncodeFields(contents) + EncodeField(last)
    ensures FieldsSize(contents + [last]) == FieldsSize(contents) + 8 + |last|
    decreases |contents|
  {
    var all := contents + [last];
    assert forall i | 0 <= i < |all| :: all[i] == if i < |contents| then contents[i] else last;
    if contents == [] {
      assert all == [last] && all[1..] == [];
    } else {
      assert all[0] == contents[0] && all[1..] == contents[1..] + [last];
      EncodeFieldsAppend(contents[1..], last);
    }
  }

  /**
   * The boundary of the field loop: a final field with an empty value, whose
   * header exactly fills the budget, is never read; everything before it is.
   */
  lemma TrailingEmptyFieldDropped(s: seq<byte>, p: nat, contents: seq<seq<byte>>)
    requires Encodable(contents) && Encodable(contents + [[]])
    requires p + FieldsSize(contents + [[]]) <= |s|
    requires s[p..p + FieldsSize(contents + [[]])] == EncodeFields(contents + [[]])
    ensures FieldsAt(s, p, FieldsSize(contents + [[]])) == Ok(Parsed(contents, p + FieldsSize(contents)))
  {
    EncodeFieldsAppend(contents, []);
    SliceParts(s, p, EncodeFields(contents), EncodeField([]));
    FieldsRoundTrip(s, p, contents, FieldsSize(contents + [[]]));
  }

  /**
   * Whatever the field loop accepts fits its budget, and it stops with at
   * most 8 bytes of budget left unread.
   */
  lemma {:induction false} FieldsConsumed(s: seq<byte>, p: nat, remaining: nat)
    requires p <= |s| && FieldsAt(s, p, remaining).Ok?
    ensures var fields := FieldsAt(s, p, remaining).value;
            && fields.next == p + FieldsSize(fields.item)
            && FieldsSize(fields.item) <= remaining
            && remaining - FieldsSize(fields.item) <= 8
    decreases remaining
  {
    if remaining > 8 {
      FieldsStep(s, p, remaining);
      var field := FieldAt(s, p, remaining).value;
      var fields := FieldsAt(s, p, remaining).value;
      FieldsConsumed(s, field.next, remaining - field.item.consumed);
      var rest := FieldsAt(s, field.next, remaining - field.item.consumed).value;
      assert fields.item == [field.item.content] + rest.item;
      assert fields.item[1..] == rest.item;
    }
  }

  /** The bytes the field loop consumed are the encoding of the values it returned. */
  lemma {:induction false} FieldsReencode(s: seq<byte>, p: nat, remaining: nat)
    requires p <= |s| && FieldsAt(s, p, remaining).Ok?
    ensures var fields := FieldsAt(s, p, remaining).value;
            Encodable(fields.item) && s[p..fields.next] == EncodeFields(fields.item)
    decreases remaining
  {
    if remaining > 8 {
      FieldsStep(s, p, remaining);
      var field := FieldAt(s, p, remaining).value;
      var fields := FieldsAt(s, p, remaining).value;
      FieldsReencode(s, field.next, remaining - field.item.consumed);
      FieldReencode(s, p, remaining);
      var rest := FieldsAt(s, field.next, remaining - field.item.consumed).value;
      assert fields.item == [field.item.content] + rest.item;
      assert fields.item[0] == field.item.content && fields.item[1..] == rest.item;
      assert s[p..fields.next] == s[p..field.next] + s[field.next..fields.next];
    } else {
      assert s[p..p] == [];
    }
  }

  /** The field loop's failures: never one of the control-frame length errors. */
  lemma {:induction false} FieldsErrors(s: seq<byte>, p: nat, remaining: nat)
    requires p <= |s| && FieldsAt(s, p, remaining).Err?
    ensures var e := FieldsAt(s, p, remaining).error;
            e.UnexpectedEof? || e.UnexpectedFieldType? || e.FieldTooLarge? || e.BudgetUnderflow?
    decreases remaining
  {
    FieldsStep(s, p, remaining);
    var field := FieldAt(s, p, remaining);
    if field.Ok? && field.value.item.consumed <= remaining {
      FieldsErrors(s, field.value.next, remaining - field.value.item.consumed);
    }
  }

  /**
   * `remaining -= n` underflows on the first field exactly when the field
   * passes the limit check (its value is at most the budget) but its 8 header
   * bytes do not fit the budget as well.
   */
  lemma BudgetUnderflowCheck(s: seq<byte>, p: nat, remaining: nat)
    requires p <= |s| && remaining > 8 && FieldAt(s, p, remaining).Ok?
    ensures var field := FieldAt(s, p, remaining).value.item;
            (remaining - 8 < |field.content| <= remaining) <==> field.consumed > remaining
    ensures var field := FieldAt(s, p, remaining).value.item;
            field.consumed > remaining ==> FieldsAt(s, p, remaining) == Err(BudgetUnderflow)
  {
    FieldsStep(s, p, remaining);
  }

  // ---------------------------------------------------------------- control frames

  /**
   * `read_control_frame` fails with ControlFrameTooLarge exactly when the
   * declared length is above 512 and with ControlFrameTooShort exactly when
   * it is below 4.
   */
  lemma ControlFrameRejectsLength(s: seq<byte>, p: nat)
    requires p + 4 <= |s|
    ensures var frameLen, r := U32At(s, p).value.item, ControlFrameAt(s, p);
            && (r == Err(ControlFrameTooLarge) <==> frameLen > MAX_CONTROL_FRAME_LENGTH)
            && (r == Err(ControlFrameTooShort) <==> frameLen < 4)
  {
    var frameLen := U32At(s, p).value.item;
    if 4 <= frameLen <= MAX_CONTROL_FRAME_LENGTH && p + 8 <= |s| && FieldsAt(s, p + 8, frameLen - 4).Err? {
      FieldsErrors(s, p + 8, frameLen - 4);
    }
  }

  /**
   * Any declared length in 4..512 passes the check: the control type is read
   * and the fields are parsed with a budget of the length minus 4, ending at
   * most 8 declared bytes short of the declared end of the frame.
   */
  lemma ControlFrameAccepted(s: seq<byte>, p: nat)
    requires p + 4 <= |s|
    requires 4 <= U32At(s, p).value.item <= MAX_CONTROL_FRAME_LENGTH
    ensures var frameLen, r := U32At(s, p).value.item, ControlFrameAt(s, p);
            && (r.Ok? <==> p + 8 <= |s| && FieldsAt(s, p + 8, frameLen - 4).Ok?)
            && (r.Ok? ==>
                 && r.value.item.controlType == U32At(s, p + 4).value.item
                 && r.value.item.contentTypes == FieldsAt(s, p + 8, frameLen - 4).value.item
                 && r.value.next <= p + 4 + frameLen <= r.value.next + 8)
  {
    var frameLen := U32At(s, p).value.item;
    if p + 8 <= |s| && FieldsAt(s, p + 8, frameLen - 4).Ok? {
      FieldsConsumed(s, p + 8, frameLen - 4);
    }
  }

  /** A declared length of 4 holds the control type and no field at all. */
  lemma ControlFrameWithoutFields(s: seq<byte>, p: nat)
    requires p + 8 <= |s| && U32At(s, p).value.item == 4
    ensures ControlFrameAt(s, p) == Ok(Parsed(ControlFrame(U32At(s, p + 4).value.item, []), p + 8))
  {
    FieldsDone(s, p + 8, 0);
  }

  lemma ControlFrameFromParts(s: seq<byte>, p: nat, budget: nat, controlType: nat, fields: Parsed<seq<seq<byte>>>)
    requires p + 8 <= |s| && 4 + budget <= MAX_CONTROL_FRAME_LENGTH
    requires U32At(s, p) == Ok(Parsed(4 + budget, p + 4))
    requires U32At(s, p + 4) == Ok(Parsed(controlType, p + 8))
    requires FieldsAt(s, p + 8, budget) == Ok(fields)
    ensures ControlFrameAt(s, p) == Ok(Parsed(ControlFrame(controlType, fields.item), fields.next))
  {
  }

  /**
   * A control frame as the parser meets it: its length word, its type word,
   * and the fields the loop reads within the declared length.
   */
  ghost predicate ControlLaidOut(s: seq<byte>, p: nat, controlType: nat, contents: seq<seq<byte>>)
  {
    && p + 8 + FieldsSize(contents) <= |s|
    && U32At(s, p) == Ok(Parsed(4 + FieldsSize(contents), p + 4))
    && U32At(s, p + 4) == Ok(Parsed(controlType, p + 8))
    && FieldsAt(s, p + 8, FieldsSize(contents)) == Ok(Parsed(contents, p + 8 + FieldsSize(contents)))
  }

  lemma ControlFrameWords(s: seq<byte>, p: nat, controlType: nat, contents: seq<seq<byte>>)
    requires controlType < TWO_32 && Encodable(contents) && 4 + FieldsSize(contents) < TWO_32
    requires contents == [] || |contents[|contents| - 1]| > 0
    requires p + 8 + FieldsSize(contents) <= |s|
    requires s[p..p + 8 + FieldsSize(contents)] == EncodeControlFrame(controlType, contents)
    ensures ControlLaidOut(s, p, controlType, contents)
  {
    ControlFrameHeaderWords(s, p, controlType, contents);
    FieldsRoundTrip(s, p + 8, contents, FieldsSize(contents));
  }

  lemma ControlFrameHeaderWords(s: seq<byte>, p: nat, controlType: nat, contents: seq<seq<byte>>)
    requires controlType < TWO_32 && Encodable(contents) && 4 + FieldsSize(contents) < TWO_32
    requires p + 8 + FieldsSize(contents) <= |s|
    requires s[p..p + 8 + FieldsSize(contents)] == EncodeControlFrame(controlType, contents)
    ensures U32At(s, p) == Ok(Parsed(4 + FieldsSize(contents), p + 4))
    ensures U32At(s, p + 4) == Ok(Parsed(controlType, p + 8))
    ensures s[p + 8..p + 8 + FieldsSize(contents)] == EncodeFields(contents)
  {
    SliceThree(s, p, EncodeU32(4 + FieldsSize(contents)), EncodeU32(controlType), EncodeFields(contents));
    U32RoundTrip(s, p, 4 + FieldsSize(contents));
    U32RoundTrip(s, p + 4, controlType);
  }

  lemma ControlFrameFromWords(s: seq<byte>, p: nat, controlType: nat, contents: seq<seq<byte>>)
    requires 4 + FieldsSize(contents) <= MAX_CONTROL_FRAME_LENGTH
    requires ControlLaidOut(s, p, controlType, contents)
    ensures ControlFrameAt(s, p) == Ok(Parsed(ControlFrame(controlType, contents), p + 8 + FieldsSize(contents)))
  {
    var fields := Parsed(contents, p + 8 + FieldsSize(contents));
    ControlFrameFromParts(s, p, FieldsSize(contents), controlType, fields);
  }

  /** A control frame behind its zero escape word, as the encoder writes it. */
  lemma ControlWords(s: seq<byte>, p: nat, controlType: nat, contents: seq<seq<byte>>)
    requires controlType < TWO_32 && Encodable(contents) && 4 + FieldsSize(contents) <= MAX_CONTROL_FRAME_LENGTH
    requires contents == [] || |contents[|contents| - 1]| > 0
    requires p + 12 + FieldsSize(contents) <= |s|
    requires s[p..p + 12 + FieldsSize(contents)] == EncodeControl(controlType, contents)
    ensures U32At(s, p) == Ok(Parsed(0, p + 4)) && ControlLaidOut(s, p + 4, controlType, contents)
  {
    SliceParts(s, p, EncodeU32(0), EncodeControlFrame(controlType, contents));
    U32RoundTrip(s, p, 0);
    ControlFrameWords(s, p + 4, controlType, contents);
  }

  /** A control frame written by the encoder reads back as itself. */
  lemma ControlFrameRoundTrip(s: seq<byte>, p: nat, controlType: nat, contents: seq<seq<byte>>)
    requires controlType < TWO_32 && Encodable(contents)
    requires 4 + FieldsSize(contents) <= MAX_CONTROL_FRAME_LENGTH
    requires contents == [] || |contents[|contents| - 1]| > 0
    requires p + 8 + FieldsSize(contents) <= |s|
    requires s[p..p + 8 + FieldsSize(contents)] == EncodeControlFrame(controlType, contents)
    ensures ControlFrameAt(s, p) == Ok(Parsed(ControlFrame(controlType, contents), p + 8 + FieldsSize(contents)))
  {
    ControlFrameWords(s, p, controlType, contents);
    ControlFrameFromWords(s, p, controlType, contents);
  }

  // ---------------------------------------------------------------- the start handshake

  /**
   * `read_start_frame` succeeds exactly when a zero word is followed by a
   * control frame of type START, and then stops right after that frame.
   */
  lemma StartFrameCheck(s: seq<byte>, p: nat)
    requires p <= |s|
    ensures StartFrameAt(s, p).Ok? <==>
              (p + 4 <= |s| && U32At(s, p).value.item == 0 &&
               ControlFrameAt(s, p + 4).Ok? && ControlFrameAt(s, p + 4).value.item.controlType == CONTROL_START)
    ensures StartFrameAt(s, p).Ok? ==> StartFrameAt(s, p).value.next == ControlFrameAt(s, p + 4).value.next
    ensures p + 4 <= |s| && U32At(s, p).value.item != 0 ==> StartFrameAt(s, p) == Err(StartNotZero)
  {
  }

  lemma StartFrameFromParts(s: seq<byte>, p: nat, frame: Parsed<ControlFrame>)
    requires p + 4 <= |s| && U32At(s, p) == Ok(Parsed(0, p + 4))
    requires ControlFrameAt(s, p + 4) == Ok(frame) && frame.item.controlType == CONTROL_START
    ensures StartFrameAt(s, p) == Ok(Parsed((), frame.next))
  {
  }

  /** What the parser finds at a control frame the encoder wrote behind its zero escape word. */
  lemma EncodedControl(s: seq<byte>, p: nat, controlType: nat, contents: seq<seq<byte>>)
    requires controlType < TWO_32 && Encodable(contents) && 4 + FieldsSize(contents) <= MAX_CONTROL_FRAME_LENGTH
    requires contents == [] || |contents[|contents| - 1]| > 0
    requires p + 12 + FieldsSize(contents) <= |s|
    requires s[p..p + 12 + FieldsSize(contents)] == EncodeControl(controlType, contents)
    ensures U32At(s, p) == Ok(Parsed(0, p + 4))
    ensures ControlFrameAt(s, p + 4) == Ok(Parsed(ControlFrame(controlType, contents), p + 4 + 8 + FieldsSize(contents)))
  {
    ControlWords(s, p, controlType, contents);
    ControlFrameFromWords(s, p + 4, controlType, contents);
  }

  lemma StartFrameFromControl(s: seq<byte>, p: nat, contents: seq<seq<byte>>)
    requires 4 + FieldsSize(contents) <= MAX_CONTROL_FRAME_LENGTH
    requires p + 12 + FieldsSize(contents) <= |s|
    requires U32At(s, p) == Ok(Parsed(0, p + 4))
    requires ControlFrameAt(s, p + 4) == Ok(Parsed(ControlFrame(CONTROL_START, contents), p + 4 + 8 + FieldsSize(contents)))
    ensures StartFrameAt(s, p) == Ok(Parsed((), p + 12 + FieldsSize(contents)))
  {
    var frame := Parsed(ControlFrame(CONTROL_START, contents), p + 4 + 8 + FieldsSize(contents));
    StartFrameFromParts(s, p, frame);
  }

  /** The start handshake written by the encoder is accepted. */
  lemma StartFrameRoundTrip(s: seq<byte>, p: nat, contents: seq<seq<byte>>)
    requires Encodable(contents) && 4 + FieldsSize(contents) <= MAX_CONTROL_FRAME_LENGTH
    requires contents == [] || |contents[|contents| - 1]| > 0
    requires p + 12 + FieldsSize(contents) <= |s|
    requires s[p..p + 12 + FieldsSize(contents)] == EncodeControl(CONTROL_START, contents)
    ensures StartFrameAt(s, p) == Ok(Parsed((), p + 12 + FieldsSize(contents)))
  {
    EncodedControl(s, p, CONTROL_START, contents);
    StartFrameFromControl(s, p, contents);
  }

  // ---------------------------------------------------------------- the two front ends

  /** Once started, neither front end reads a handshake; before, both read it first. */
  lemma HandshakeOnce(s: seq<byte>, p: nat, cap: nat)
    requires p <= |s|
    ensures PullAt(s, p, true, cap) == PullFrameAt(s, p, cap)
    ensures NextAt(s, p, true) == IterFrameAt(s, p)
    ensures StartFrameAt(s, p).Err? ==>
              PullAt(s, p, false, cap) == Err(StartFrameAt(s, p).error) &&
              NextAt(s, p, false) == Err(StartFrameAt(s, p).error)
    ensures StartFrameAt(s, p).Ok? ==>
              PullAt(s, p, false, cap) == PullFrameAt(s, StartFrameAt(s, p).value.next, cap) &&
              NextAt(s, p, false) == IterFrameAt(s, StartFrameAt(s, p).value.next)
  {
  }

  /**
   * `Read::read`: a length word of 0 always means a control frame, which
   * yields 0 bytes whatever its type.
   */
  lemma PullControlFrame(s: seq<byte>, p: nat, cap: nat)
    requires p + 4 <= |s| && U32At(s, p).value.item == 0
    ensures PullFrameAt(s, p, cap).Ok? <==> ControlFrameAt(s, p + 4).Ok?
    ensures ControlFrameAt(s, p + 4).Err? ==> PullFrameAt(s, p, cap) == Err(ControlFrameAt(s, p + 4).error)
    ensures ControlFrameAt(s, p + 4).Ok? ==> PullFrameAt(s, p, cap) == Ok(Parsed([], ControlFrameAt(s, p + 4).value.next))
  {
  }

  /**
   * `Read::read`: a nonzero length N is never parsed as a control frame; it is
   * refused when the buffer is shorter than N and otherwise yields the next N
   * bytes.
   */
  lemma PullDataFrame(s: seq<byte>, p: nat, cap: nat)
    requires p + 4 <= |s| && U32At(s, p).value.item != 0
    ensures var n, r := U32At(s, p).value.item, PullFrameAt(s, p, cap);
            && (n > cap ==> r == Err(FrameTooLargeForBuffer))
            && (n <= cap && p + 4 + n > |s| ==> r == Err(UnexpectedEof))
            && (n <= cap && p + 4 + n <= |s| ==> r == Ok(Parsed(s[p + 4..p + 4 + n], p + 4 + n)))
  {
  }

  /**
   * `Iterator::next`: a STOP control frame ends the sequence, any other
   * control frame yields an empty frame.
   */
  lemma IterControlFrame(s: seq<byte>, p: nat)
    requires p + 4 <= |s| && U32At(s, p).value.item == 0
    ensures var frame, r := ControlFrameAt(s, p + 4), IterFrameAt(s, p);
            && (frame.Err? ==> r == Err(frame.error))
            && (frame.Ok? && frame.value.item.controlType == CONTROL_STOP ==> r == Ok(Parsed(None, frame.value.next)))
            && (frame.Ok? && frame.value.item.controlType != CONTROL_STOP ==> r == Ok(Parsed(Some([]), frame.value.next)))
  {
  }

  /** `Iterator::next`: a data frame of length N yields exactly its N bytes, whatever N. */
  lemma IterDataFrame(s: seq<byte>, p: nat)
    requires p + 4 <= |s| && U32At(s, p).value.item != 0
    ensures var n, r := U32At(s, p).value.item, IterFrameAt(s, p);
            && (p + 4 + n <= |s| ==> r == Ok(Parsed(Some(s[p + 4..p + 4 + n]), p + 4 + n)))
            && (p + 4 + n > |s| ==> r == Err(UnexpectedEof))
  {
  }

  /** `Iterator::next` yields `None` for every failure and for STOP, and a frame otherwise. */
  lemma NextFrameNone(s: seq<byte>, p: nat, started: bool)
    requires p <= |s|
    ensures NextFrame(s, p, started) == None <==> (NextAt(s, p, started).Err? || NextAt(s, p, started).value.item.None?)
    ensures NextAt(s, p, started).Ok? && NextAt(s, p, started).value.item.Some? ==>
              NextFrame(s, p, started) == Some(Frame(NextAt(s, p, started).value.item.value))
  {
  }

  // ---------------------------------------------------------------- a whole session

  /** A session as the encoder writes it: START handshake, one data frame, STOP. */
  ghost function Session(contents: seq<seq<byte>>, payload: seq<byte>): (s: seq<byte>)
    requires Encodable(contents) && 4 + FieldsSize(contents) <= MAX_CONTROL_FRAME_LENGTH
    requires 0 < |payload| < TWO_32
    ensures |s| == 28 + FieldsSize(contents) + |payload|
  {
    EncodeControl(CONTROL_START, contents) + EncodeData(payload) + EncodeControl(CONTROL_STOP, [])
  }

  /**
   * The session's layout: the START frame for `contents` in its first `h`
   * bytes, then a data frame, then STOP.
   */
  lemma SessionSlices(contents: seq<seq<byte>>, payload: seq<byte>)
    requires Encodable(contents) && 4 + FieldsSize(contents) <= MAX_CONTROL_FRAME_LENGTH
    requires 0 < |payload| < TWO_32
    ensures var s, h := Session(contents, payload), 12 + FieldsSize(contents);
            && h <= |s| && s[0..h] == EncodeControl(CONTROL_START, contents)
            && DataThenStopWritten(s, h, payload)
  {
    assert FieldsSize([]) == 0;
    Parts(EncodeControl(CONTROL_START, contents), EncodeData(payload), EncodeControl(CONTROL_STOP, []));
  }

  /** The handshake that opens a session. */
  lemma SessionStart(s: seq<byte>, contents: seq<seq<byte>>)
    requires Encodable(contents) && 4 + FieldsSize(contents) <= MAX_CONTROL_FRAME_LENGTH
    requires contents == [] || |contents[|contents| - 1]| > 0
    requires 12 + FieldsSize(contents) <= |s| && s[0..12 + FieldsSize(contents)] == EncodeControl(CONTROL_START, contents)
    ensures StartFrameAt(s, 0) == Ok(Parsed((), 12 + FieldsSize(contents)))
  {
    StartFrameRoundTrip(s, 0, contents);
  }

  /** From `h` to the end of `s`: a data frame, then STOP, as the encoder writes them. */
  ghost predicate DataThenStopWritten(s: seq<byte>, h: nat, payload: seq<byte>)
    requires 0 < |payload| < TWO_32
  {
    var q := h + 4 + |payload|;
    && q + 12 == |s|
    && s[h..q] == EncodeData(payload)
    && s[q..q + 12] == EncodeControl(CONTROL_STOP, [])
  }

  /** The same stretch as the parser meets it. */
  ghost predicate DataThenStopRead(s: seq<byte>, h: nat, payload: seq<byte>)
  {
    var q := h + 4 + |payload|;
    && q + 12 == |s|
    && U32At(s, h) == Ok(Parsed(|payload|, h + 4))
    && s[h + 4..q] == payload
    && U32At(s, q) == Ok(Parsed(0, q + 4))
    && ControlFrameAt(s, q + 4) == Ok(Parsed(ControlFrame(CONTROL_STOP, []), q + 12))
  }

  lemma DataThenStop(s: seq<byte>, h: nat, payload: seq<byte>)
    requires 0 < |payload| < TWO_32 && DataThenStopWritten(s, h, payload)
    ensures DataThenStopRead(s, h, payload)
  {
    DataFrameWords(s, h, payload);
    StopFrameRoundTrip(s, h + 4 + |payload|);
  }

  /** A data frame as the encoder writes it: its length word, then the payload. */
  lemma DataFrameWords(s: seq<byte>, p: nat, payload: seq<byte>)
    requires 0 < |payload| < TWO_32
    requires p + 4 + |payload| <= |s| && s[p..p + 4 + |payload|] == EncodeData(payload)
    ensures U32At(s, p) == Ok(Parsed(|payload|, p + 4)) && s[p + 4..p + 4 + |payload|] == payload
  {
    SliceParts(s, p, EncodeU32(|payload|), payload);
    U32RoundTrip(s, p, |payload|);
  }

  /** The STOP frame the encoder writes: 12 bytes, read back as STOP without fields. */
  lemma StopFrameRoundTrip(s: seq<byte>, q: nat)
    requires q + 12 <= |s| && s[q..q + 12] == EncodeControl(CONTROL_STOP, [])
    ensures U32At(s, q) == Ok(Parsed(0, q + 4))
    ensures ControlFrameAt(s, q + 4) == Ok(Parsed(ControlFrame(CONTROL_STOP, []), q + 12))
  {
    assert FieldsSize([]) == 0;
    EncodedControl(s, q, CONTROL_STOP, []);
  }

  /**
   * A stream laid out as `Session` is (see `SessionSlices`), with the START
   * frame ending at `h`: the iterator yields the
   * payload, then ends at STOP; a call after that finds no further length
   * word and also ends.
   */
  lemma SessionIter(s: seq<byte>, h: nat, contents: seq<seq<byte>>, payload: seq<byte>)
    requires Encodable(contents) && 4 + FieldsSize(contents) <= MAX_CONTROL_FRAME_LENGTH
    requires contents == [] || |contents[|contents| - 1]| > 0
    requires 0 < |payload| < TWO_32
    requires h == 12 + FieldsSize(contents) <= |s| && s[0..h] == EncodeControl(CONTROL_START, contents)
    requires DataThenStopWritten(s, h, payload)
    ensures var q := h + 4 + |payload|;
            && NextAt(s, 0, false) == Ok(Parsed(Some(payload), q))
            && NextFrame(s, 0, false) == Some(Frame(payload))
            && NextAt(s, q, true) == Ok(Parsed(None, |s|))
            && NextFrame(s, |s|, true) == None
  {
    SessionStart(s, contents);
    DataThenStop(s, h, payload);
    IterSession(s, h, payload);
  }

  /** The iterator over a handshake ending at `h`, a data frame, and STOP. */
  lemma IterSession(s: seq<byte>, h: nat, payload: seq<byte>)
    requires StartFrameAt(s, 0) == Ok(Parsed((), h))
    requires DataThenStopRead(s, h, payload) && |payload| > 0
    ensures var q := h + 4 + |payload|;
            && NextAt(s, 0, false) == Ok(Parsed(Some(payload), q))
            && NextFrame(s, 0, false) == Some(Frame(payload))
            && NextAt(s, q, true) == Ok(Parsed(None, |s|))
            && NextFrame(s, |s|, true) == None
  {
    var q := h + 4 + |payload|;
    IterAfterHandshake(s, 0, h, payload);
    IterAtStop(s, q, q + 12);
    IterAtEnd(s);
  }

  /** The iterator's first call: the handshake, then a data frame. */
  lemma IterAfterHandshake(s: seq<byte>, p: nat, h: nat, payload: seq<byte>)
    requires p <= |s| && StartFrameAt(s, p) == Ok(Parsed((), h))
    requires U32At(s, h) == Ok(Parsed(|payload|, h + 4)) && |payload| > 0
    requires h + 4 + |payload| <= |s| && s[h + 4..h + 4 + |payload|] == payload
    ensures NextAt(s, p, false) == Ok(Parsed(Some(payload), h + 4 + |payload|))
    ensures NextFrame(s, p, false) == Some(Frame(payload))
  {
    HandshakeOnce(s, p, 0);
    IterDataFrame(s, h);
  }

  /** A STOP control frame, once started. */
  lemma IterAtStop(s: seq<byte>, q: nat, next: nat)
    requires q + 4 <= |s| && U32At(s, q) == Ok(Parsed(0, q + 4))
    requires ControlFrameAt(s, q + 4) == Ok(Parsed(ControlFrame(CONTROL_STOP, []), next))
    ensures NextAt(s, q, true) == Ok(Parsed(None, next))
  {
    HandshakeOnce(s, q, 0);
    IterControlFrame(s, q);
  }

  /** Nothing left to read, once started. */
  lemma IterAtEnd(s: seq<byte>)
    ensures NextFrame(s, |s|, true) == None
  {
    HandshakeOnce(s, |s|, 0);
  }

  /**
   * The same stream in pull mode: the payload is copied when the buffer is
   * large enough and refused otherwise, STOP yields 0, and a call after that
   * fails at the end of the stream.
   */
  lemma SessionPull(s: seq<byte>, h: nat, contents: seq<seq<byte>>, payload: seq<byte>, cap: nat)
    requires Encodable(contents) && 4 + FieldsSize(contents) <= MAX_CONTROL_FRAME_LENGTH
    requires contents == [] || |contents[|contents| - 1]| > 0
    requires 0 < |payload| < TWO_32
    requires h == 12 + FieldsSize(contents) <= |s| && s[0..h] == EncodeControl(CONTROL_START, contents)
    requires DataThenStopWritten(s, h, payload)
    ensures var q := h + 4 + |payload|;
            && (|payload| <= cap ==> PullAt(s, 0, false, cap) == Ok(Parsed(payload, q)))
            && (|payload| > cap ==> PullAt(s, 0, false, cap) == Err(FrameTooLargeForBuffer))
            && PullAt(s, q, true, cap) == Ok(Parsed([], |s|))
            && PullAt(s, |s|, true, cap) == Err(UnexpectedEof)
  {
    SessionStart(s, contents);
    DataThenStop(s, h, payload);
    PullSession(s, h, payload, cap);
  }

  /** Pulling from a handshake ending at `h`, a data frame, and STOP. */
  lemma PullSession(s: seq<byte>, h: nat, payload: seq<byte>, cap: nat)
    requires StartFrameAt(s, 0) == Ok(Parsed((), h))
    requires DataThenStopRead(s, h, payload) && |payload| > 0
    ensures var q := h + 4 + |payload|;
            && (|payload| <= cap ==> PullAt(s, 0, false, cap) == Ok(Parsed(payload, q)))
            && (|payload| > cap ==> PullAt(s, 0, false, cap) == Err(FrameTooLargeForBuffer))
            && PullAt(s, q, true, cap) == Ok(Parsed([], |s|))
            && PullAt(s, |s|, true, cap) == Err(UnexpectedEof)
  {
    var q := h + 4 + |payload|;
    PullAfterHandshake(s, 0, h, payload, cap);
    PullAtStop(s, q, q + 12, cap);
    PullAtEnd(s, cap);
  }

  /** The first pull: the handshake, then a data frame copied or refused. */
  lemma PullAfterHandshake(s: seq<byte>, p: nat, h: nat, payload: seq<byte>, cap: nat)
    requires p <= |s| && StartFrameAt(s, p) == Ok(Parsed((), h))
    requires U32At(s, h) == Ok(Parsed(|payload|, h + 4)) && |payload| > 0
    requires h + 4 + |payload| <= |s| && s[h + 4..h + 4 + |payload|] == payload
    ensures |payload| <= cap ==> PullAt(s, p, false, cap) == Ok(Parsed(payload, h + 4 + |payload|))
    ensures |payload| > cap ==> PullAt(s, p, false, cap) == Err(FrameTooLargeForBuffer)
  {
    HandshakeOnce(s, p, cap);
    PullDataFrame(s, h, cap);
  }

  /** A STOP control frame, once started, yields no bytes. */
  lemma PullAtStop(s: seq<byte>, q: nat, next: nat, cap: nat)
    requires q + 4 <= |s| && U32At(s, q) == Ok(Parsed(0, q + 4))
    requires ControlFrameAt(s, q + 4) == Ok(Parsed(ControlFrame(CONTROL_STOP, []), next))
    ensures PullAt(s, q, true, cap) == Ok(Parsed([], next))
  {
    HandshakeOnce(s, q, cap);
    PullControlFrame(s, q, cap);
  }

  /** Nothing left to read, once started: the length word is missing. */
  lemma PullAtEnd(s: seq<byte>, cap: nat)
    ensures PullAt(s, |s|, true, cap) == Err(UnexpectedEof)
  {
    HandshakeOnce(s, |s|, cap);
  }

  // ---------------------------------------------------------------- sequence helpers

  lemma Parts(a: seq<byte>, b: seq<byte>, c: seq<byte>)
    ensures (a + b + c)[..|a|] == a && (a + b + c)[|a|..|a| + |b|] == b && (a + b + c)[|a| + |b|..] == c
  {
  }

  lemma Within(s: seq<byte>, p: nat, q: nat, i: nat, j: nat)
    requires p <= q <= |s| && i <= j <= q - p
    ensures s[p..q][i..j] == s[p + i..p + j]
  {
    assert forall k | 0 <= k < j - i :: s[p..q][i..j][k] == s[p + i + k];
  }

  lemma SliceThree(s: seq<byte>, p: nat, a: seq<byte>, b: seq<byte>, c: seq<byte>)
    requires p + |a| + |b| + |c| <= |s| && s[p..p + |a| + |b| + |c|] == a + b + c
    ensures s[p..p + |a|] == a && s[p + |a|..p + |a| + |b|] == b
    ensures s[p + |a| + |b|..p + |a| + |b| + |c|] == c
  {
    SliceParts(s, p, a + b, c);
    SliceParts(s, p, a, b);
  }

  lemma SliceParts(s: seq<byte>, p: nat, a: seq<byte>, b: seq<byte>)
    requires p + |a| + |b| <= |s| && s[p..p + |a| + |b|] == a + b
    ensures s[p..p + |a|] == a && s[p + |a|..p + |a| + |b|] == b
  {
    Parts(a, b, []);
    assert a + b == a + b + [];
    Within(s, p, p + |a| + |b|, 0, |a|);
    Within(s, p, p + |a| + |b|, |a|, |a| + |b|);
  }
}
