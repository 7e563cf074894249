/**
 The TDS 5 secure-login challenge the server sends, and the proof that the
 server's own token parser reads back exactly what was put into it.
 */
module Tds5Challenge {
  import opened Bytes
  import opened Reading
  import opened Tds5Wire
  import opened Tds5Parser
  import opened Tds5Meaning

  type int32 = n: int | -0x8000_0000 <= n < 0x8000_0000

  datatype ChallengeValue = Int(number: int32) | Binary(bytes: Octets)

  datatype BuildError = TooManyParameters | FormatTooLong | BinaryTooLong

  function I32Le(n: int32): (s: Octets)
    ensures |s| == 4
  {
    U32Le(if n < 0 then n + 0x1_0000_0000 else n)
  }

  /** The bytes a peer should recover for a value. */
  function Content(value: ChallengeValue): Octets {
    match value
    case Int(number) => I32Le(number)
    case Binary(bytes) => bytes
  }

  /** Empty name, no status, zero user type; then INTN(4) or LONGBINARY(max), empty locale. */
  function FieldWire(value: ChallengeValue): Octets {
    [0, 0, 0, 0, 0, 0] + match value
                         case Int(_) => [0x26, 4, 0]
                         case Binary(_) => [0xe1, 0xff, 0xff, 0xff, 0xff, 0]
  }

  predicate Fits(value: ChallengeValue) {
    value.Binary? ==> |value.bytes| <= U32_MAX
  }

  predicate Writable(values: seq<ChallengeValue>) {
    forall i | 0 <= i < |values| :: Fits(values[i])
  }

  function ValueWire(value: ChallengeValue): Octets
    requires Fits(value)
  {
    match value
    case Int(number) => [4] + I32Le(number)
    case Binary(bytes) => U32Le(|bytes|) + bytes
  }

  /** The field descriptions, and below the values, from index `i` on. */
  function FieldWires(values: seq<ChallengeValue>, i: nat): Octets
    requires i <= |values|
    decreases |values| - i
  {
    if i == |values| then [] else FieldWire(values[i]) + FieldWires(values, i + 1)
  }

  function ValueWires(values: seq<ChallengeValue>, i: nat): Octets
    requires i <= |values| && Writable(values)
    decreases |values| - i
  {
    if i == |values| then [] else ValueWire(values[i]) + ValueWires(values, i + 1)
  }

  function FormatBody(values: seq<ChallengeValue>): Octets
    requires |values| <= U16_MAX
  {
    U16Le(|values|) + FieldWires(values, 0)
  }

  function MessageWire(messageType: nat): (s: Octets)
    requires messageType <= U16_MAX
    ensures |s| == 5
  {
    [0x65, 3, 1] + U16Le(messageType)
  }

  function FormatWire(body: Octets): Octets
    requires |body| <= U16_MAX
  {
    [0xec] + (U16Le(|body|) + body)
  }

  function Challenge(messageType: nat, values: seq<ChallengeValue>): Result<Octets, BuildError>
    requires messageType <= U16_MAX
  {
    if |values| > U16_MAX then Err(TooManyParameters)
    else if |FormatBody(values)| > U16_MAX then Err(FormatTooLong)
    else if !Writable(values) then Err(BinaryTooLong)
    else Ok(MessageWire(messageType) + (FormatWire(FormatBody(values)) + ([0xd7] + ValueWires(values, 0))))
  }

  method BuildFormat(values: seq<ChallengeValue>) returns (format: Octets)
    requires |values| <= U16_MAX
    ensures format == FormatBody(values)
  {
    hide FieldWire, U16Le;
    format := U16Le(|values|);
    for i := 0 to |values|
      invariant format + FieldWires(values, i) == FormatBody(values)
    {
      assert format + (FieldWire(values[i]) + FieldWires(values, i + 1)) == format + FieldWire(values[i]) + FieldWires(values, i + 1);
      format := format + FieldWire(values[i]);
    }
    assert format + [] == format;
  }

  method BuildValues(values: seq<ChallengeValue>) returns (r: Result<Octets, BuildError>)
    ensures r == if Writable(values) then Ok(ValueWires(values, 0)) else Err(BinaryTooLong)
  {
    hide ValueWire;
    var body := [];
    for i := 0 to |values|
      invariant forall k | 0 <= k < i :: Fits(values[k])
      invariant Writable(values) ==> body + ValueWires(values, i) == ValueWires(values, 0)
    {
      if !Fits(values[i]) {
        return Err(BinaryTooLong);
      }
      if Writable(values) {
        assert body + (ValueWire(values[i]) + ValueWires(values, i + 1)) == body + ValueWire(values[i]) + ValueWires(values, i + 1);
      }
      body := body + ValueWire(values[i]);
    }
    assert body + [] == body;
    r := Ok(body);
  }

  /** The builder: one loop for the format, one for the values. */
  method SecureChallenge(messageType: nat, values: seq<ChallengeValue>) returns (r: Result<Octets, BuildError>)
    requires messageType <= U16_MAX
    ensures r == Challenge(messageType, values)
  {
    if |values| > U16_MAX {
      return Err(TooManyParameters);
    }
    var format := BuildFormat(values);
    if |format| > U16_MAX {
      return Err(FormatTooLong);
    }
    var body := BuildValues(values);
    if body.Err? {
      return Err(body.error);
    }
    r := Ok(MessageWire(messageType) + (FormatWire(format) + ([0xd7] + body.value)));
  }

  // ----- Reading back a known piece of wire -----

  function FieldOf(value: ChallengeValue): Parameter {
    match value
    case Int(_) => Parameter([], 0, 0x26, Some(4), LengthU8)
    case Binary(_) => Parameter([], 0, 0xe1, Some(U32_MAX), LengthU32)
  }

  function FieldsOf(values: seq<ChallengeValue>): (fields: seq<Parameter>)
    ensures |fields| == |values|
    ensures forall i | 0 <= i < |values| :: fields[i] == FieldOf(values[i])
  {
    if values == [] then [] else [FieldOf(values[0])] + FieldsOf(values[1..])
  }

  lemma ReadFieldTypeAt(s: Octets, p: nat, value: ChallengeValue)
    requires At(s, p, match value case Int(_) => [4] case Binary(_) => [0xff, 0xff, 0xff, 0xff])
    ensures ReadFieldType(s, p, FieldOf(value).ty)
         == Got(FieldType(FieldOf(value).maxLength, FieldOf(value).encoding), p + if value.Int? then 1 else 4)
  {
    if value.Int? {
      AtByte(s, p, [4], 0);
    } else {
      assert U32Le(U32_MAX) == [0xff, 0xff, 0xff, 0xff];
      U32At(s, p, U32_MAX, Truncated);
    }
  }

  lemma ReadFieldAt(s: Octets, p: nat, value: ChallengeValue)
    requires At(s, p, FieldWire(value))
    ensures ReadField(s, p, false, 0) == Got(FieldOf(value), p + |FieldWire(value)|)
  {
    hide ReadFieldType, FixedSize;
    var wire := FieldWire(value);
    var n := |wire|;
    AtByte(s, p, wire, 0);
    AtByte(s, p, wire, 1);
    AtByte(s, p, wire, 6);
    AtByte(s, p, wire, n - 1);
    var kind := match value case Int(_) => [4] case Binary(_) => [0xff, 0xff, 0xff, 0xff];
    assert wire == wire[..7] + (kind + [0]);
    AtSplit(s, p, wire[..7], kind + [0]);
    AtSplit(s, p + 7, kind, [0]);
    ReadFieldTypeAt(s, p + 7, value);
  }

  lemma {:induction false} ReadFieldsAt(s: Octets, p: nat, values: seq<ChallengeValue>, i: nat)
    requires i <= |values| && At(s, p, FieldWires(values, i))
    ensures ReadFields(s, p, |values| - i, false, 0) == Got(FieldsOf(values)[i..], p + |FieldWires(values, i)|)
    decreases |values| - i
  {
    hide ReadField, FieldWire, FieldOf, At;
    AtIn(s, p, FieldWires(values, i));
    if i < |values| {
      AtSplit(s, p, FieldWire(values[i]), FieldWires(values, i + 1));
      ReadFieldAt(s, p, values[i]);
      ReadFieldsAt(s, p + |FieldWire(values[i])|, values, i + 1);
      assert FieldsOf(values)[i..] == [FieldOf(values[i])] + FieldsOf(values)[i + 1..];
    } else {
      assert FieldsOf(values)[i..] == [];
    }
  }

  lemma ReadFormatOf(values: seq<ChallengeValue>)
    requires |values| <= U16_MAX
    ensures ReadFormat(FormatBody(values), false, 0) ==
            if |values| <= 1024 then Got(FieldsOf(values), |FormatBody(values)|) else Fail(ParameterCount)
  {
    hide ReadFields, FieldWires;
    var body := FormatBody(values);
    assert At(body, 0, body);
    AtSplit(body, 0, U16Le(|values|), FieldWires(values, 0));
    U16At(body, 0, |values|, Truncated);
    if |values| <= 1024 {
      ReadFieldsAt(body, 2, values, 0);
      assert FieldsOf(values)[0..] == FieldsOf(values);
    }
  }

  /** The contents a peer should recover, from index `i` on. */
  function Contents(values: seq<ChallengeValue>, i: nat): (contents: seq<Octets>)
    requires i <= |values|
    ensures |contents| == |values| - i
    ensures forall k | 0 <= k < |contents| :: contents[k] == Content(values[i + k])
    decreases |values| - i
  {
    if i == |values| then [] else [Content(values[i])] + Contents(values, i + 1)
  }

  /** A value is read back whenever it fits the budget that is left. */
  lemma ReadCellAt(s: Octets, p: nat, value: ChallengeValue, budget: nat)
    requires Fits(value) && At(s, p, ValueWire(value))
    ensures ReadCell(s, p, FieldOf(value), budget) ==
            if |Content(value)| <= budget then Got(Content(value), p + |ValueWire(value)|) else Fail(ValueBudget)
  {
    match value
    case Int(number) =>
      AtSplit(s, p, [4], I32Le(number));
      AtByte(s, p, [4], 0);
    case Binary(bytes) =>
      AtSplit(s, p, U32Le(|bytes|), bytes);
      U32At(s, p, |bytes|, Truncated);
  }

  lemma {:induction false} ReadSetAt(s: Octets, p: nat, values: seq<ChallengeValue>, i: nat, budget: nat)
    requires i <= |values| && Writable(values) && At(s, p, ValueWires(values, i))
    ensures ReadSet(s, p, FieldsOf(values), i, budget) ==
            if |Flatten(Contents(values, i))| <= budget then Got(Contents(values, i), p + |ValueWires(values, i)|)
            else Fail(ValueBudget)
    decreases |values| - i
  {
    hide ReadCell, ValueWire, Content, FieldOf, FieldsOf;
    if i < |values| {
      var value := values[i];
      assert Contents(values, i)[1..] == Contents(values, i + 1);
      AtSplit(s, p, ValueWire(value), ValueWires(values, i + 1));
      ReadCellAt(s, p, value, budget);
      if |Content(value)| <= budget {
        ReadSetAt(s, p + |ValueWire(value)|, values, i + 1, budget - |Content(value)|);
      }
    }
  }

  // ----- The parser on a challenge, from any state -----

  function AfterMessage(st: State, messageType: nat): State
    requires messageType <= U16_MAX
  {
    var stream := AddToken(st.stream, 0x65, 3);
    var next := st.(stream := stream.(messages := stream.messages + [Message(messageType, 1, 0)]), current := Some(messageType));
    Traced(Effect(next, Announced(messageType)), MessageWire(messageType))
  }

  function AfterFormat(st: State, values: seq<ChallengeValue>): State
    requires |values| <= U16_MAX && |FormatBody(values)| <= U16_MAX
  {
    var stream := AddToken(st.stream, 0xec, |FormatBody(values)|);
    var next := st.(stream := stream.(parameterFormats := stream.parameterFormats + 1), parameters := FieldsOf(values));
    Traced(Effect(next, Other), FormatWire(FormatBody(values)))
  }

  function AfterParams(st: State, values: seq<ChallengeValue>): State
    requires Writable(values)
  {
    var contents := Contents(values, 0);
    var stream := AddToken(RecordSet(st.stream, st.current, contents), 0xd7, |Flatten(contents)|);
    var next := st.(stream := stream, consumed := st.consumed + |Flatten(contents)|, current := None);
    Traced(Effect(next, Supplied(contents)), [0xd7] + ValueWires(values, 0))
  }

  /** Which handler each of the challenge's tokens goes to. */
  lemma Dispatch(st: State, s: Octets, p: nat, max: nat)
    requires p < |s|
    ensures s[p] in {0x65, 0xec, 0xd7, 0xad, 0xfd} ==> IsPublished(s[p])
    ensures s[p] == 0x65 ==> TokenEffect(st, s, p, max) == MessageStep(st, 0x65, s, p + 1)
    ensures s[p] == 0xec ==> TokenEffect(st, s, p, max) == ParamFormatStep(st, 0xec, s, p + 1, false)
    ensures s[p] == 0xd7 ==> TokenEffect(st, s, p, max) == ParamsStep(st, 0xd7, s, p + 1, max)
    ensures s[p] == 0xad ==> TokenEffect(st, s, p, max) == SkipStep(st, 0xad, s, p + 1, SkipShort)
    ensures s[p] == 0xfd ==> TokenEffect(st, s, p, max) == SkipStep(st, 0xfd, s, p + 1, SkipFixed(8))
  {
    hide MessageStep, ParamFormatStep, ParamsStep, SkipStep;
  }

  lemma MessageStepAt(st: State, s: Octets, p: nat, messageType: nat, max: nat)
    requires messageType <= U16_MAX && At(s, p, MessageWire(messageType))
    requires Inventory(st.stream) < 4096
    ensures Step(st, s, p, max) == Got(AfterMessage(st, messageType), p + 5)
  {
    hide TokenEffect, IsPublished;
    var wire := MessageWire(messageType);
    AtByte(s, p, wire, 0);
    AtByte(s, p, wire, 1);
    AtByte(s, p, wire, 2);
    Dispatch(st, s, p, max);
    AtSplit(s, p, [0x65, 3], [1] + U16Le(messageType));
    AtSplit(s, p, [0x65, 3, 1], U16Le(messageType));
    var body := s[p + 2..p + 5];
    assert body[1..3] == s[p + 3..p + 5] == U16Le(messageType);
  }

  lemma FormatStepAt(st: State, s: Octets, p: nat, values: seq<ChallengeValue>, max: nat)
    requires |values| <= U16_MAX && |FormatBody(values)| <= U16_MAX && At(s, p, FormatWire(FormatBody(values)))
    requires Inventory(st.stream) < 4096
    ensures Step(st, s, p, max) ==
            if |values| <= 1024 then Got(AfterFormat(st, values), p + |FormatWire(FormatBody(values))|)
            else Fail(ParameterCount)
  {
    hide ReadFormat, FieldsOf, FormatBody, TokenEffect, IsPublished;
    var body := FormatBody(values);
    AtByte(s, p, FormatWire(body), 0);
    Dispatch(st, s, p, max);
    AtSplit(s, p, [0xec], U16Le(|body|) + body);
    AtSplit(s, p + 1, U16Le(|body|), body);
    U16At(s, p + 1, |body|, Truncated);
    assert VarShort(s, p + 1) == Got(body, p + 3 + |body|);
    ReadFormatOf(values);
  }

  lemma ParamsStepAt(st: State, s: Octets, p: nat, values: seq<ChallengeValue>, max: nat)
    requires Writable(values) && At(s, p, [0xd7] + ValueWires(values, 0))
    requires st.parameters == FieldsOf(values) && st.consumed <= max
    requires Inventory(st.stream) < 4096
    ensures Step(st, s, p, max) ==
            if values == [] then Fail(ParamsWithoutFormat)
            else if st.consumed + |Flatten(Contents(values, 0))| <= max then
              Got(AfterParams(st, values), p + 1 + |ValueWires(values, 0)|)
            else Fail(ValueBudget)
  {
    hide ReadSet, FieldsOf, ValueWires, Contents, FirstNonEmpty, Pairs, Flatten, TokenEffect, IsPublished;
    AtByte(s, p, [0xd7] + ValueWires(values, 0), 0);
    Dispatch(st, s, p, max);
    AtSplit(s, p, [0xd7], ValueWires(values, 0));
    ReadSetAt(s, p + 1, values, 0, Budget(st, max));
  }

  /** Within the parser's limits the challenge is understood; this is what it does to any state. */
  predicate Understood(values: seq<ChallengeValue>, budget: nat) {
    values != [] && |values| <= 1024 && |Flatten(Contents(values, 0))| <= budget
  }

  function AfterChallenge(st: State, messageType: nat, values: seq<ChallengeValue>): State
    requires messageType <= U16_MAX && Challenge(messageType, values).Ok?
  {
    AfterParams(AfterFormat(AfterMessage(st, messageType), values), values)
  }

  lemma ChallengeAt(st: State, s: Octets, p: nat, messageType: nat, values: seq<ChallengeValue>, max: nat)
    requires messageType <= U16_MAX && Challenge(messageType, values).Ok?
    requires At(s, p, Challenge(messageType, values).value)
    requires st.consumed <= max && Inventory(st.stream) + 3 <= 4096
    ensures var q := p + |Challenge(messageType, values).value|;
            && q <= |s|
            && if Understood(values, max - st.consumed) then
                 ParseFrom(st, s, p, max) == ParseFrom(AfterChallenge(st, messageType, values), s, q, max)
               else ParseFrom(st, s, p, max).Fail?
  {
    hide ParseFrom, FormatBody, FormatWire, ValueWires, Contents, Flatten, FieldsOf, At, MessageWire;
    hide AfterMessage, AfterFormat, AfterParams;
    var format, body := FormatWire(FormatBody(values)), [0xd7] + ValueWires(values, 0);
    AtSplit(s, p, MessageWire(messageType), format + body);
    AtSplit(s, p + 5, format, body);
    AtIn(s, p + 5 + |format|, body);
    MessageMoves(st, s, p, messageType, max);
    var st1 := AfterMessage(st, messageType);
    FormatMoves(st1, s, p + 5, values, max);
    if |values| <= 1024 {
      ParamsMoves(AfterFormat(st1, values), s, p + 5 + |format|, values, max);
    }
  }

  /** Parsing across one piece of a challenge: the state behind it and the limits it leaves. */
  lemma MessageMoves(st: State, s: Octets, p: nat, messageType: nat, max: nat)
    requires messageType <= U16_MAX && At(s, p, MessageWire(messageType)) && Inventory(st.stream) < 4096
    ensures p + 5 <= |s|
    ensures
      var next := AfterMessage(st, messageType);
      && ParseFrom(st, s, p, max) == ParseFrom(next, s, p + 5, max)
      && next.consumed == st.consumed && Inventory(next.stream) == Inventory(st.stream) + 1
  {
    hide TokenEffect, MessageStep, ParamFormatStep, ParamsStep, SkipStep;
    hide Step, ParseFrom, IsPublished;
    AtByte(s, p, MessageWire(messageType), 0);
    Dispatch(st, s, p, max);
    MessageStepAt(st, s, p, messageType, max);
    ParseOneStep(st, s, p, max);
  }

  lemma FormatMoves(st: State, s: Octets, p: nat, values: seq<ChallengeValue>, max: nat)
    requires |values| <= U16_MAX && |FormatBody(values)| <= U16_MAX && At(s, p, FormatWire(FormatBody(values)))
    requires Inventory(st.stream) < 4096
    ensures
      var next, q := AfterFormat(st, values), p + |FormatWire(FormatBody(values))|;
      && q <= |s| && next.consumed == st.consumed && Inventory(next.stream) == Inventory(st.stream) + 1
      && next.parameters == FieldsOf(values)
      && if |values| <= 1024 then ParseFrom(st, s, p, max) == ParseFrom(next, s, q, max)
         else ParseFrom(st, s, p, max).Fail?
  {
    hide TokenEffect, MessageStep, ParamFormatStep, ParamsStep, SkipStep;
    hide Step, ParseFrom, IsPublished, FormatBody, FieldsOf;
    AtByte(s, p, FormatWire(FormatBody(values)), 0);
    Dispatch(st, s, p, max);
    FormatStepAt(st, s, p, values, max);
    ParseOneStep(st, s, p, max);
  }

  lemma ParamsMoves(st: State, s: Octets, p: nat, values: seq<ChallengeValue>, max: nat)
    requires Writable(values) && At(s, p, [0xd7] + ValueWires(values, 0))
    requires st.parameters == FieldsOf(values) && st.consumed <= max && Inventory(st.stream) < 4096
    ensures
      var q := p + 1 + |ValueWires(values, 0)|;
      && q <= |s|
      && if values != [] && st.consumed + |Flatten(Contents(values, 0))| <= max then
           ParseFrom(st, s, p, max) == ParseFrom(AfterParams(st, values), s, q, max)
         else ParseFrom(st, s, p, max).Fail?
  {
    hide TokenEffect, MessageStep, ParamFormatStep, ParamsStep, SkipStep;
    hide Step, ParseFrom, IsPublished, FieldsOf, ValueWires, Contents, Flatten, AfterParams;
    AtByte(s, p, [0xd7] + ValueWires(values, 0), 0);
    Dispatch(st, s, p, max);
    ParamsStepAt(st, s, p, values, max);
    ParseOneStep(st, s, p, max);
  }

  // ----- The negotiation message around it -----

  /** Code points reduced to ASCII, at most 255 of them. */
  function LegacyString(text: seq<nat>): (s: Octets)
    ensures |s| == Min(|text|, 255)
  {
    seq(Min(|text|, 255), i requires 0 <= i < Min(|text|, 255) => if text[i] < 128 then text[i] else 0x3f)
  }

  function AckBody(product: seq<nat>): (s: Octets)
    ensures |s| == 10 + Min(|product|, 255)
  {
    [7, 5, 0, 0, 0] + [|LegacyString(product)|] + LegacyString(product) + [95, 16, 0, 89]
  }

  function AckWire(product: seq<nat>): Octets {
    [0xad] + (U16Le(|AckBody(product)|) + AckBody(product))
  }

  const DONE_WIRE: Octets := [0xfd, 0, 0, 0, 0, 0, 0, 0, 0]

  function Negotiation(challenge: Octets, product: seq<nat>): Octets {
    AckWire(product) + (challenge + DONE_WIRE)
  }

  lemma AckStepAt(s: Octets, product: seq<nat>, max: nat)
    requires At(s, 0, AckWire(product))
    ensures var st := Traced(WithStream(INITIAL, AddCommand(EMPTY, 0xad, |AckBody(product)|, CommandBody(None, None))), AckWire(product));
            Step(INITIAL, s, 0, max) == Got(st, |AckWire(product)|)
  {
    hide AckBody, TokenEffect, IsPublished;
    var body := AckBody(product);
    AtByte(s, 0, AckWire(product), 0);
    Dispatch(INITIAL, s, 0, max);
    AtSplit(s, 0, [0xad], U16Le(|body|) + body);
    AtSplit(s, 1, U16Le(|body|), body);
    U16At(s, 1, |body|, Truncated);
    assert VarShort(s, 1) == Got(body, 3 + |body|);
  }

  /** DONE ends the stream: nothing is left over and nothing else changes. */
  lemma DoneEnds(st: State, s: Octets, p: nat, max: nat)
    requires At(s, p, DONE_WIRE) && p + 9 == |s| && Inventory(st.stream) <= 4096
    ensures ParseFrom(st, s, p, max) ==
            Got(Traced(WithStream(st, AddToken(st.stream, 0xfd, 8)), DONE_WIRE).stream, |s|)
  {
    hide TokenEffect, IsPublished;
    AtByte(s, p, DONE_WIRE, 0);
    Dispatch(st, s, p, max);
    assert Step(st, s, p, max).Got?;
  }

  /**
   The server's parser accepts the server's negotiation exactly when the values
   are within its limits, and then reports the one message type and exactly the
   parameter bytes, in order, with no unknown token and no byte left over.
   */
  lemma NegotiationRoundTrip(messageType: nat, values: seq<ChallengeValue>, product: seq<nat>, max: nat)
    requires messageType <= U16_MAX && Challenge(messageType, values).Ok?
    ensures var r := Parse(Negotiation(Challenge(messageType, values).value, product), max);
            && (r.Got? <==> Understood(values, max))
            && (r.Got? ==>
                  && r.value.messages == [Message(messageType, 1, 0)]
                  && r.value.parameterSets == 1
                  && r.value.parameterValues == Contents(values, 0)
                  && r.value.unknownToken.None? && r.value.trailingBytes == 0)
  {
    hide Step, RecordSet, ParseFrom, AckBody, Contents, Flatten, FieldsOf, Challenge;
    var challenge := Challenge(messageType, values).value;
    var s := Negotiation(challenge, product);
    var p := |AckWire(product)|;
    assert At(s, 0, s);
    AtSplit(s, 0, AckWire(product), challenge + DONE_WIRE);
    AtSplit(s, p, challenge, DONE_WIRE);
    AtByte(s, 0, AckWire(product), 0);
    AckStepAt(s, product, max);
    var st := Traced(WithStream(INITIAL, AddCommand(EMPTY, 0xad, |AckBody(product)|, CommandBody(None, None))), AckWire(product));
    ParseOneStep(INITIAL, s, 0, max);
    ChallengeAt(st, s, p, messageType, values, max);
    if Understood(values, max) {
      AfterChallengeReports(st, messageType, values);
      DoneEnds(AfterChallenge(st, messageType, values), s, p + |challenge|, max);
    }
  }

  lemma ParseOneStep(st: State, s: Octets, p: nat, max: nat)
    requires p < |s| && IsPublished(s[p])
    ensures ParseFrom(st, s, p, max) ==
            match Step(st, s, p, max)
            case Got(next, q) => ParseFrom(next, s, q, max)
            case Fail(error) => Fail(error)
  {
  }

  lemma AfterChallengeReports(st: State, messageType: nat, values: seq<ChallengeValue>)
    requires messageType <= U16_MAX && Challenge(messageType, values).Ok?
    ensures var stream := AfterChallenge(st, messageType, values).stream;
            && stream.messages == st.stream.messages + [Message(messageType, 1, 0)]
            && stream.parameterSets == st.stream.parameterSets + 1
            && stream.parameterValues == st.stream.parameterValues + Contents(values, 0)
            && stream.unknownToken == st.stream.unknownToken && stream.trailingBytes == st.stream.trailingBytes
            && Inventory(stream) == Inventory(st.stream) + 3
  {
    hide Contents, Flatten, FieldsOf, FormatBody, ValueWires;
  }
}
