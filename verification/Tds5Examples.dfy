/**
 The original encrypted-password challenge read back by the parser, and the
 input on which recovery reports an earlier symmetric key than strict parsing.
 */
module Tds5Examples {
  import opened Bytes
  import opened Reading
  import opened Tds5Wire
  import opened Tds5Parser
  import opened Tds5Meaning
  import opened Tds5Recovery
  import opened Tds5Challenge

  // ----- The proprietary challenge -----

  datatype KeyError = EmptyKey | KeyTooLong

  const KEY_FORMAT: Octets := [1, 0, 0, 0x08, 0, 0, 0, 0, 0x25, 0xff, 0]

  const KEY_FIELD := Parameter([], 0x08, 0x25, Some(255), LengthU8)

  function ProprietaryChallenge(key: Octets): Result<Octets, KeyError> {
    if |key| > 255 then Err(KeyTooLong)
    else if key == [] then Err(EmptyKey)
    else Ok(MessageWire(1) + (FormatWire(KEY_FORMAT) + ([0xd7, 0, |key|] + key)))
  }

  lemma KeyFormatRead()
    ensures ReadFormat(KEY_FORMAT, false, 0) == Got([KEY_FIELD], 11)
  {
    assert KEY_FORMAT[0..2] == [1, 0];
    assert ReadField(KEY_FORMAT, 2, false, 0) == Got(KEY_FIELD, 11) by {
      assert ReadFieldType(KEY_FORMAT, 9, 0x25) == Got(FieldType(Some(255), LengthU8), 10);
    }
    assert ReadFields(KEY_FORMAT, 11, 0, false, 0) == Got([], 11);
    assert [KEY_FIELD] + [] == [KEY_FIELD];
    assert ReadFields(KEY_FORMAT, 2, 1, false, 0) == Got([KEY_FIELD], 11);
  }

  lemma KeyFormatStep(st: State, s: Octets, p: nat, max: nat)
    requires At(s, p, FormatWire(KEY_FORMAT)) && Inventory(st.stream) < 4096
    ensures p + 14 <= |s| && IsPublished(s[p])
    ensures var step := Step(st, s, p, max);
            && step.Got? && step.next == p + 14
            && step.value.parameters == [KEY_FIELD]
            && step.value.consumed == st.consumed && step.value.current == st.current
            && step.value.stream.messages == st.stream.messages
            && SameSecrets(step.value.stream, st.stream)
            && step.value.stream.unknownToken == st.stream.unknownToken
            && step.value.stream.trailingBytes == st.stream.trailingBytes
            && Inventory(step.value.stream) == Inventory(st.stream) + 1
  {
    hide ReadFormat, TokenEffect, IsPublished;
    AtByte(s, p, FormatWire(KEY_FORMAT), 0);
    Dispatch(st, s, p, max);
    AtSplit(s, p, [0xec], U16Le(11) + KEY_FORMAT);
    AtSplit(s, p + 1, U16Le(11), KEY_FORMAT);
    U16At(s, p + 1, 11, Truncated);
    assert VarShort(s, p + 1) == Got(KEY_FORMAT, p + 14);
    KeyFormatRead();
  }

  lemma KeyCellRead(s: Octets, p: nat, key: Octets, budget: nat)
    requires 0 < |key| <= 255 && At(s, p, [0, |key|] + key)
    ensures ReadCell(s, p, KEY_FIELD, budget) ==
            if |key| <= budget then Got(key, p + 2 + |key|) else Fail(ValueBudget)
  {
    AtByte(s, p, [0, |key|] + key, 1);
    AtSplit(s, p, [0, |key|], key);
    assert Bit(8, 8);
  }

  lemma KeyParamsStep(st: State, s: Octets, p: nat, key: Octets, max: nat)
    requires 0 < |key| <= 255 && At(s, p, [0xd7, 0, |key|] + key)
    requires st.parameters == [KEY_FIELD] && st.consumed == 0 && Inventory(st.stream) < 4096
    ensures p + 3 + |key| <= |s| && IsPublished(s[p])
    ensures var step := Step(st, s, p, max);
            if |key| <= max then
              && step.Got? && step.next == p + 3 + |key|
              && SameSecrets(step.value.stream, RecordSet(st.stream, st.current, [key]))
              && step.value.stream.messages == st.stream.messages
              && step.value.stream.unknownToken == st.stream.unknownToken
              && step.value.stream.trailingBytes == st.stream.trailingBytes
            else step == Fail(ValueBudget)
  {
    hide ReadSet, RecordSet, TokenEffect, IsPublished;
    AtByte(s, p, [0xd7, 0, |key|] + key, 0);
    Dispatch(st, s, p, max);
    assert [0xd7, 0, |key|] + key == [0xd7] + ([0, |key|] + key);
    AtSplit(s, p, [0xd7], [0, |key|] + key);
    KeySetRead(s, p + 1, key, max);
    OneValue(key);
    CountSet(st.stream, st.current, [key]);
  }

  lemma KeySetRead(s: Octets, p: nat, key: Octets, max: nat)
    requires 0 < |key| <= 255 && At(s, p, [0, |key|] + key)
    ensures ReadSet(s, p, [KEY_FIELD], 0, max) ==
            if |key| <= max then Got([key], p + 2 + |key|) else Fail(ValueBudget)
  {
    hide ReadCell;
    KeyCellRead(s, p, key, max);
    if |key| <= max {
      assert ReadSet(s, p + 2 + |key|, [KEY_FIELD], 1, max - |key|) == Got([], p + 2 + |key|);
      assert [key] + [] == [key];
    }
  }

  lemma OneValue(key: Octets)
    ensures Flatten([key]) == key
  {
    assert Flatten([key]) == key + Flatten([]);
  }

  lemma CountSet(stream: Stream, current: Option<nat>, values: seq<Octets>)
    ensures
      var next := RecordSet(stream, current, values);
      && Inventory(next) == Inventory(stream) + 1 && next.messages == stream.messages
      && next.unknownToken == stream.unknownToken && next.trailingBytes == stream.trailingBytes
  {
    hide FirstNonEmpty, Pairs, SetWarnings;
  }

  /** The parser reads the proprietary challenge back exactly when the key fits its budget. */
  lemma ProprietaryRoundTrip(key: Octets, max: nat)
    requires ProprietaryChallenge(key).Ok?
    ensures var r := Parse(ProprietaryChallenge(key).value, max);
            && (r.Got? <==> |key| <= max)
            && (r.Got? ==>
                  && r.value.messages == [Message(1, 1, 0)]
                  && r.value.parameterSets == 1
                  && r.value.parameterValues == [key]
                  && r.value.unknownToken.None? && r.value.trailingBytes == 0)
  {
    hide Step, ParseFrom, IsPublished, At, FormatWire, MessageWire, Inventory, AfterMessage, RecordSet;
    var body := [0xd7, 0, |key|] + key;
    var s := MessageWire(1) + (FormatWire(KEY_FORMAT) + body);
    FormatSize();
    AtWhole(s);
    AtSplit(s, 0, MessageWire(1), FormatWire(KEY_FORMAT) + body);
    AtSplit(s, 5, FormatWire(KEY_FORMAT), body);
    FirstMessage();
    MessageMoves(INITIAL, s, 0, 1, max);
    var st1 := AfterMessage(INITIAL, 1);
    KeyFormatStep(st1, s, 5, max);
    ParseOneStep(st1, s, 5, max);
    var st2 := Step(st1, s, 5, max).value;
    KeyParamsStep(st2, s, 19, key, max);
    ParseOneStep(st2, s, 19, max);
    if |key| <= max {
      ParseAtEnd(Step(st2, s, 19, max).value, s, max);
      FirstSet(st2.stream, st2.current, key);
    }
  }

  lemma FormatSize()
    ensures |FormatWire(KEY_FORMAT)| == 14
  {
  }

  /** After the challenge's message nothing but that message has been seen. */
  lemma FirstMessage()
    ensures
      var st := AfterMessage(INITIAL, 1);
      && Inventory(INITIAL.stream) == 0 && Inventory(st.stream) == 1
      && st.consumed == 0 && st.stream.messages == [Message(1, 1, 0)]
      && st.stream.parameterSets == 0 && st.stream.parameterValues == []
      && st.stream.unknownToken.None? && st.stream.trailingBytes == 0
  {
  }

  lemma FirstSet(stream: Stream, current: Option<nat>, key: Octets)
    requires stream.parameterSets == 0 && stream.parameterValues == []
    ensures RecordSet(stream, current, [key]).parameterSets == 1
    ensures RecordSet(stream, current, [key]).parameterValues == [key]
  {
    hide FirstNonEmpty, Pairs, SetWarnings;
  }

  lemma AtWhole(s: Octets)
    ensures At(s, 0, s)
  {
  }

  lemma ParseAtEnd(st: State, s: Octets, max: nat)
    ensures ParseFrom(st, s, |s|, max) == Got(st.stream, |s|)
  {
  }

  // ----- The symmetric key that recovery gets wrong -----

  /** A symmetric-key message carrying the one-byte key `k`. */
  function KeyMessage(k: byte): (s: Octets)
    ensures |s| == 28
  {
    [0x65, 3, 1, 34, 0, 0xec, 14, 0, 1, 0, 0, 0, 0, 0, 0, 0, 0xe1, 0xff, 0xff, 0xff, 0xff, 0, 0xd7, 1, 0, 0, 0, k]
  }

  lemma KeyFormat(k: byte)
    ensures FormatBody([Binary([k])]) == [1, 0, 0, 0, 0, 0, 0, 0, 0xe1, 0xff, 0xff, 0xff, 0xff, 0]
  {
    var values := [Binary([k])];
    assert FieldWires(values, 1) == [];
    assert FieldWires(values, 0) == FieldWire(values[0]) + [];
  }

  lemma KeyValue(k: byte)
    ensures Writable([Binary([k])]) && ValueWires([Binary([k])], 0) == [1, 0, 0, 0, k]
    ensures Contents([Binary([k])], 0) == [[k]] && Flatten([[k]]) == [k]
  {
    var values := [Binary([k])];
    assert ValueWires(values, 1) == [] && Contents(values, 1) == [];
    assert U32Le(1) == [1, 0, 0, 0];
    assert Flatten([[k]]) == [k] + Flatten([]);
  }

  lemma KeyMessageIsChallenge(k: byte)
    ensures Challenge(34, [Binary([k])]) == Ok(KeyMessage(k))
    ensures Understood([Binary([k])], 1) && Contents([Binary([k])], 0) == [[k]]
  {
    hide FormatBody, ValueWires, Contents, Flatten;
    KeyFormat(k);
    KeyValue(k);
    var values := [Binary([k])];
    assert FormatWire(FormatBody(values)) == [0xec, 14, 0] + FormatBody(values);
    assert MessageWire(34) == [0x65, 3, 1, 34, 0];
    assert MessageWire(34) + (FormatWire(FormatBody(values)) + ([0xd7] + ValueWires(values, 0))) == KeyMessage(k);
  }

  lemma KeyMessageParsed(st: State, s: Octets, p: nat, k: byte, max: nat)
    requires At(s, p, KeyMessage(k)) && st.consumed < max && Inventory(st.stream) + 3 <= 4096
    ensures p + 28 <= |s|
    ensures Challenge(34, [Binary([k])]).Ok?
    ensures ParseFrom(st, s, p, max) == ParseFrom(AfterChallenge(st, 34, [Binary([k])]), s, p + 28, max)
  {
    hide ParseFrom, AfterChallenge, Contents;
    KeyMessageIsChallenge(k);
    ChallengeAt(st, s, p, 34, [Binary([k])], max);
  }

  lemma KeyMessageEffect(st: State, k: byte)
    requires Challenge(34, [Binary([k])]).Ok?
    ensures var next := AfterChallenge(st, 34, [Binary([k])]);
            && next.stream.symmetricKey == Some([k])
            && |next.stream.messages| == |st.stream.messages| + 1
            && Message(34, 1, 0) in next.stream.messages
            && next.stream.parameterSets == st.stream.parameterSets + 1
            && next.stream.parameterValues == st.stream.parameterValues + [[k]]
            && next.stream.rowValueBytes == st.stream.rowValueBytes
            && next.stream.tokens != []
            && next.consumed == st.consumed + 1
            && next.stream.unknownToken == st.stream.unknownToken
            && next.stream.trailingBytes == st.stream.trailingBytes
            && Inventory(next.stream) == Inventory(st.stream) + 3
  {
    KeyMessageIsChallenge(k);
    assert Flatten([[k]]) == [k] + Flatten([]);
    var stream := AfterMessage(st, 34).stream;
    assert stream.messages[|stream.messages| - 1] == Message(34, 1, 0);
  }

  /** Two key messages, with an unpublished byte between them in the second stream. */
  function TwoKeys(first: byte, second: byte): Octets {
    KeyMessage(first) + KeyMessage(second)
  }

  function TwoKeysApart(first: byte, second: byte): (s: Octets)
    ensures |s| == 57
  {
    KeyMessage(first) + ([0x99] + KeyMessage(second))
  }

  lemma StrictKeepsLastKey(first: byte, second: byte, max: nat)
    requires max >= 2
    ensures var r := Parse(TwoKeys(first, second), max);
            r.Got? && r.value.unknownToken.None? && r.value.symmetricKey == Some([second])
  {
    hide ParseFrom, AfterChallenge, KeyMessage, Challenge;
    var s := TwoKeys(first, second);
    assert At(s, 0, s);
    AtSplit(s, 0, KeyMessage(first), KeyMessage(second));
    KeyMessageParsed(INITIAL, s, 0, first, max);
    var st := AfterChallenge(INITIAL, 34, [Binary([first])]);
    KeyMessageEffect(INITIAL, first);
    KeyMessageParsed(st, s, 28, second, max);
    KeyMessageEffect(st, second);
    ParseAtEnd(AfterChallenge(st, 34, [Binary([second])]), s, max);
  }

  lemma ApartPrefix(first: byte, second: byte, max: nat)
    requires max >= 2
    ensures var s := TwoKeysApart(first, second);
            var r := Parse(s, max);
            && r.Got? && r.value.unknownToken == Some(0x99) && r.value.trailingBytes == 28
            && r.value.symmetricKey == Some([first]) && r.value.tokens != [] && ValueBytes(r.value) == 1
  {
    hide ParseFrom, AfterChallenge, KeyMessage, Challenge;
    var s := TwoKeysApart(first, second);
    assert At(s, 0, s);
    AtSplit(s, 0, KeyMessage(first), [0x99] + KeyMessage(second));
    AtByte(s, 28, [0x99] + KeyMessage(second), 0);
    KeyMessageParsed(INITIAL, s, 0, first, max);
    KeyMessageEffect(INITIAL, first);
    ParseAtUnknown(AfterChallenge(INITIAL, 34, [Binary([first])]), s, 28, max);
    assert [] + [[first]] == [[first]];
    assert Flatten([[first]]) == [first] + Flatten([]);
  }

  lemma ParseAtUnknown(st: State, s: Octets, p: nat, max: nat)
    requires p < |s| && !IsPublished(s[p])
    ensures ParseFrom(st, s, p, max) ==
            Got(st.stream.(unknownToken := Some(s[p]), trailingBytes := |s| - p - 1), p)
  {
  }

  lemma ApartSuffix(first: byte, second: byte, max: nat)
    requires max >= 2
    ensures var s := TwoKeysApart(first, second);
            var r := Parse(s[29..], max);
            && r.Got? && r.value.unknownToken.None? && r.value.trailingBytes == 0
            && r.value.symmetricKey == Some([second]) && ValueBytes(r.value) == 1
            && Message(34, 1, 0) in r.value.messages
  {
    hide ParseFrom, AfterChallenge, KeyMessage, Challenge;
    var s := TwoKeysApart(first, second);
    assert s[29..] == KeyMessage(second);
    assert At(s[29..], 0, KeyMessage(second));
    KeyMessageParsed(INITIAL, s[29..], 0, second, max);
    KeyMessageEffect(INITIAL, second);
    ParseAtEnd(AfterChallenge(INITIAL, 34, [Binary([second])]), s[29..], max);
    assert [] + [[second]] == [[second]];
    assert Flatten([[second]]) == [second] + Flatten([]);
  }

  lemma ApartBytes(first: byte, second: byte)
    requires first != 0x65
    ensures
      var s := TwoKeysApart(first, second);
      (forall k | 1 <= k < 29 :: s[k] != 0x65) && s[29] == 0x65 && MessagePrefix(s, 29)
  {
    var s := TwoKeysApart(first, second);
    assert forall k | 0 <= k < 28 :: s[k] == KeyMessage(first)[k];
    assert forall k | 0 <= k < 28 :: s[29 + k] == KeyMessage(second)[k];
    assert s[29 + 3] == 34 && s[29 + 4] == 0;
  }

  lemma ApartResync(first: byte, second: byte, max: nat)
    requires max >= 2 && first != 0x65
    ensures FirstAcceptable(TwoKeysApart(first, second), 1, max) == Some(29)
  {
    hide Parse, MessagePrefix, KeyMessage, TwoKeysApart;
    var s := TwoKeysApart(first, second);
    ApartSuffix(first, second, max);
    ApartBytes(first, second);
    assert Acceptable(s, 29, max);
    FirstAcceptableIsLeast(s, 1, max);
  }

  /**
   One stray byte between two key messages makes the parser report the first
   key; without it, and by the history it recorded, the second one is the key.
   */
  lemma RecoveryReportsTheEarlierKey(first: byte, second: byte, max: nat)
    requires max >= 2 && first != 0x65 && first != second
    ensures Telemetry(TwoKeysApart(first, second), max).symmetricKey == Some([first])
    ensures !Faithful(Telemetry(TwoKeysApart(first, second), max))
    ensures Telemetry(TwoKeys(first, second), max).symmetricKey == Some([second])
  {
    hide Parse, KeyMessage, ValueBytes, Faithful, MessagePrefix, WorthRecovering, FirstAcceptable;
    ApartPrefix(first, second, max);
    ApartSuffix(first, second, max);
    ApartResync(first, second, max);
    StrictKeepsLastKey(first, second, max);
    TelemetryIsFaithful(TwoKeysApart(first, second), max);
  }
}
