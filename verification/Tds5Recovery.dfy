/**
 The tolerant TDS 5 parser: when strict parsing stops, it looks for the first
 embedded authentication message that parses, and splices the strictly parsed
 prefix back in front when the two fit one byte budget.
 */
module Tds5Recovery {
  import opened Bytes
  import opened Reading
  import opened Tds5Wire
  import opened Tds5Parser
  import opened Tds5Meaning

  predicate IsPublishedMessage(messageType: nat) {
    1 <= messageType <= 35
  }

  predicate MessagePrefix(s: Octets, p: nat) {
    && p + 2 <= |s|
    && s[p + 1] >= 3
    && p + 2 + s[p + 1] as int <= |s|
    && IsPublishedMessage(FromU16Le(s[p + 3..p + 5]))
  }

  predicate WorthRecovering(recovered: Stream) {
    && (exists message | message in recovered.messages :: IsPublishedMessage(message.messageType))
    && (|| (recovered.unknownToken.None? && recovered.trailingBytes == 0)
        || (recovered.unknownToken.Some? && recovered.parameterSets > 0 && recovered.parameterValues != []))
  }

  /** Recovery may resume at `offset`. */
  predicate Acceptable(input: Octets, offset: nat, max: nat) {
    && 0 < offset < |input|
    && input[offset] == 0x65
    && MessagePrefix(input, offset)
    && var recovered := Parse(input[offset..], max);
       recovered.Got? && WorthRecovering(recovered.value)
  }

  function FirstAcceptable(input: Octets, from: nat, max: nat): (r: Option<nat>)
    ensures r.Some? ==> from <= r.value < |input| && Acceptable(input, r.value, max)
    decreases |input| - from
  {
    if from >= |input| then None
    else if Acceptable(input, from, max) then Some(from)
    else FirstAcceptable(input, from + 1, max)
  }

  /** The parsed prefix put in front of what was recovered after it. */
  function Splice(target: Stream, prefix: Stream): Stream {
    target.(
    tokens := prefix.tokens + target.tokens,
    commands := prefix.commands + target.commands,
    messages := prefix.messages + target.messages,
    parameterFormats := prefix.parameterFormats + target.parameterFormats,
    parameterSets := prefix.parameterSets + target.parameterSets,
    parameterValues := prefix.parameterValues + target.parameterValues,
    rowFormats := prefix.rowFormats + target.rowFormats,
    rows := prefix.rows + target.rows,
    rowValueBytes := prefix.rowValueBytes + target.rowValueBytes,
    alternateFormats := prefix.alternateFormats + target.alternateFormats,
    alternateRows := prefix.alternateRows + target.alternateRows,
    loginPassword := if prefix.loginPassword.Some? then prefix.loginPassword else target.loginPassword,
    remotePasswords := prefix.remotePasswords + target.remotePasswords,
    symmetricKey := if prefix.symmetricKey.Some? then prefix.symmetricKey else target.symmetricKey,
    opaqueSecurity := prefix.opaqueSecurity + target.opaqueSecurity,
    warnings := prefix.warnings + target.warnings,
    trace := prefix.trace + target.trace)
  }

  function FirstByte(s: Octets, p: nat): Option<byte> {
    if p < |s| then Some(s[p]) else None
  }

  /** What is left when strict parsing fails outright: one unparsed region. */
  function NothingParsed(input: Octets): Stream {
    EMPTY.(
    unknownToken := FirstByte(input, 0),
    trailingBytes := if input == [] then 0 else |input| - 1,
    unparsed := if input == [] then [] else [Region(0, |input|, FirstByte(input, 0))])
  }

  datatype Fallback = Fallback(stream: Stream, reason: Warning)

  function FallbackOf(input: Octets, max: nat): Fallback {
    match Parse(input, max)
    case Got(stream, _) => Fallback(stream, UnrecognizedToken)
    case Fail(error) => Fallback(NothingParsed(input), StrictError(error))
  }

  /** Where the strictly parsed prefix ends: at the unknown token. */
  function PrefixEnd(input: Octets, fallback: Stream): nat {
    if fallback.trailingBytes + 1 <= |input| then |input| - (fallback.trailingBytes + 1) else 0
  }

  predicate Splices(input: Octets, fallback: Stream, recovered: Stream, offset: nat, max: nat) {
    && fallback.tokens != []
    && PrefixEnd(input, fallback) <= offset
    && ValueBytes(fallback) + ValueBytes(recovered) <= max
  }

  function TrailingRegion(input: Octets, recovered: Stream): seq<Region> {
    if recovered.unknownToken.None? then []
    else [Region(PrefixEnd(input, recovered), recovered.trailingBytes + 1, recovered.unknownToken)]
  }

  function Recovered(input: Octets, fallback: Fallback, offset: nat, max: nat): Stream
    requires Acceptable(input, offset, max)
  {
    var recovered := Parse(input[offset..], max).value;
    var splices := Splices(input, fallback.stream, recovered, offset, max);
    var merged := if splices then Splice(recovered, fallback.stream) else recovered;
    var from := if splices then PrefixEnd(input, fallback.stream) else 0;
    merged.(
    unparsed := merged.unparsed + [Region(from, offset - from, FirstByte(input, from))] + TrailingRegion(input, recovered),
    warnings := merged.warnings + [fallback.reason, RecoveredSuffix(offset)])
  }

  function GivenUp(input: Octets, fallback: Fallback): Stream {
    var end := PrefixEnd(input, fallback.stream);
    fallback.stream.(
    unparsed :=
      if fallback.stream.unparsed == [] && input != [] then [Region(end, |input| - end, FirstByte(input, end))]
      else fallback.stream.unparsed,
    warnings := fallback.stream.warnings + [fallback.reason])
  }

  predicate StrictlyComplete(input: Octets, max: nat) {
    Parse(input, max).Got? && Parse(input, max).value.unknownToken.None?
  }

  function Telemetry(input: Octets, max: nat): Stream {
    if StrictlyComplete(input, max) then Parse(input, max).value else
    match FirstAcceptable(input, 1, max)
    case Some(offset) => Recovered(input, FallbackOf(input, max), offset, max)
    case None => GivenUp(input, FallbackOf(input, max))
  }

  method ParseForTelemetry(input: Octets, max: nat) returns (r: Stream)
    ensures r == Telemetry(input, max)
  {
    var strict := ParseAuthentication(input, max);
    if strict.Got? && strict.value.unknownToken.None? {
      return strict.value;
    }
    var offset := 1;
    while offset < |input|
      invariant 1 <= offset
      invariant FirstAcceptable(input, 1, max) == FirstAcceptable(input, offset, max)
    {
      if Acceptable(input, offset, max) {
        return Recovered(input, FallbackOf(input, max), offset, max);
      }
      offset := offset + 1;
    }
    r := GivenUp(input, FallbackOf(input, max));
  }

  // ----- The chosen offset -----

  /** Recovery resumes at the least acceptable offset, and gives up only when there is none. */
  lemma {:induction false} FirstAcceptableIsLeast(input: Octets, from: nat, max: nat)
    ensures match FirstAcceptable(input, from, max)
            case Some(offset) => Acceptable(input, offset, max) && forall k | from <= k < offset :: !Acceptable(input, k, max)
            case None => forall k | from <= k < |input| :: !Acceptable(input, k, max)
    decreases |input| - from
  {
    hide Acceptable;
    if from < |input| && !Acceptable(input, from, max) {
      FirstAcceptableIsLeast(input, from + 1, max);
    }
  }

  // ----- Histories joined at an announcement -----

  lemma {:induction false} JoinedGovernor(a: seq<Event>, b: seq<Event>)
    requires b != [] && b[0].meaning.Announced?
    ensures Governor(a + b) == Governor(b)
    decreases |b|
  {
    if |b| > 1 {
      var front := b[..|b| - 1];
      JoinedGovernor(a, front);
      assert (a + b)[..|a + b| - 1] == a + front;
    }
  }

  /** A suffix that starts with its own MSG takes no meaning from what precedes it. */
  lemma {:induction false} JoinedSets(a: seq<Event>, b: seq<Event>)
    requires b != [] ==> b[0].meaning.Announced?
    ensures Sets(a + b) == Sets(a) + Sets(b)
    decreases |b|
  {
    hide Sets, Governor;
    if b == [] {
      assert a + b == a;
      SetsOfNone();
      assert Sets(a) + [] == Sets(a);
    } else {
      var front, last := b[..|b| - 1], b[|b| - 1];
      JoinedSets(a, front);
      assert b == front + [last] && a + b == a + front + [last];
      SetsSnoc(a + front, last);
      SetsSnoc(front, last);
      if front != [] {
        JoinedGovernor(a, front);
      }
      ConcatAssoc(Sets(a), Sets(front), Sets(b)[|Sets(front)|..]);
    }
  }

  lemma SetsOfNone()
    ensures Sets([]) == []
  {
  }

  /** The sets of a longer history: those before, and the last event's if it supplied one. */
  lemma SetsSnoc(trace: seq<Event>, event: Event)
    ensures Sets(trace + [event]) == Sets(trace) + NewSet(trace, event)
    ensures trace == [] && event.meaning.Announced? ==> NewSet(trace, event) == []
  {
    assert (trace + [event])[..|trace|] == trace;
  }

  function NewSet(trace: seq<Event>, event: Event): seq<GovernedSet> {
    if event.meaning.Supplied? then [GovernedSet(Governor(trace), event.meaning.values)] else []
  }

  lemma {:induction false} JoinedGather<T>(a: seq<GovernedSet>, b: seq<GovernedSet>, pick: GovernedSet -> seq<T>)
    ensures Gather(a + b, pick) == Gather(a, pick) + Gather(b, pick)
    decreases |b|
  {
    if b == [] {
      assert a + b == a;
    } else {
      var front, last := b[..|b| - 1], b[|b| - 1];
      JoinedGather(a, front, pick);
      assert (a + b)[..|a + b| - 1] == a + front && (a + b)[|a + b| - 1] == last;
      ConcatAssoc(Gather(a, pick), Gather(front, pick), pick(last));
    }
  }

  lemma {:induction false} JoinedKey(a: seq<GovernedSet>, b: seq<GovernedSet>)
    ensures SymmetricKey(a + b) == if SymmetricKey(b).Some? then SymmetricKey(b) else SymmetricKey(a)
    decreases |b|
  {
    if b == [] {
      assert a + b == a;
    } else {
      JoinedKey(a, b[..|b| - 1]);
      assert (a + b)[..|a + b| - 1] == a + b[..|b| - 1];
    }
  }

  predicate FaithfulExceptKey(stream: Stream) {
    Faithful(stream.(symmetricKey := SymmetricKey(Sets(stream.trace))))
  }

  /**
   Splicing keeps every secret faithful to the joined history except, possibly,
   the symmetric key: the prefix's key wins although the history's last one
   should, so the two agree exactly when the parts do not hold different keys.
   */
  lemma SpliceIsFaithful(target: Stream, prefix: Stream)
    requires Faithful(target) && Faithful(prefix)
    requires target.trace != [] ==> target.trace[0].meaning.Announced?
    ensures FaithfulExceptKey(Splice(target, prefix))
    ensures Faithful(Splice(target, prefix)) <==>
            prefix.symmetricKey.None? || target.symmetricKey.None? || prefix.symmetricKey == target.symmetricKey
  {
    var a, b := Sets(prefix.trace), Sets(target.trace);
    JoinedSets(prefix.trace, target.trace);
    JoinedGather(a, b, AnyValues);
    JoinedGather(a, b, LoginValues);
    JoinedGather(a, b, RemoteValues);
    JoinedGather(a, b, OpaqueValues);
    JoinedKey(a, b);
    FirstNonEmptyConcat(Gather(a, LoginValues), Gather(b, LoginValues));
  }

  lemma SpliceAddsValues(target: Stream, prefix: Stream)
    ensures ValueBytes(Splice(target, prefix)) == ValueBytes(prefix) + ValueBytes(target)
  {
    FlattenConcat(prefix.parameterValues, target.parameterValues);
    SumConcat(prefix.rowValueBytes, target.rowValueBytes);
  }

  // ----- What a recovered stream looks like -----

  lemma {:induction false} ParseExtendsTrace(st: State, s: Octets, p: nat, max: nat)
    requires p <= |s| && ParseFrom(st, s, p, max).Got?
    ensures st.stream.trace <= ParseFrom(st, s, p, max).value.trace
    decreases |s| - p
  {
    if p < |s| && IsPublished(s[p]) {
      TokenTouches(st, s, p, max);
      var step := Step(st, s, p, max);
      ParseExtendsTrace(step.value, s, step.next, max);
    }
  }

  lemma RecoveredStartsWithMessage(s: Octets, max: nat)
    requires s != [] && s[0] == 0x65 && Parse(s, max).Got?
    ensures Parse(s, max).value.trace != [] && Parse(s, max).value.trace[0].meaning.Announced?
  {
    var step := Step(INITIAL, s, 0, max);
    assert step.value.stream.trace[0].meaning.Announced?;
    ParseExtendsTrace(step.value, s, step.next, max);
  }

  // ----- The main theorems -----

  /**
   Every byte of the input belongs to exactly one parsed token or exactly one
   reported region, in order: the tokens of `prefix`, the first region, the
   tokens of `suffix`, the second region.
   */
  ghost predicate Tiles(input: Octets, stream: Stream, prefix: seq<Event>, suffix: seq<Event>) {
    && stream.trace == prefix + suffix
    && (forall region | region in stream.unparsed ::
          region.bytes > 0 && region.offset + region.bytes <= |input| && region.firstByte == Some(input[region.offset]))
    && match |stream.unparsed|
       case 0 => Wires(prefix) + Wires(suffix) == input
       case 1 =>
         var gap := stream.unparsed[0];
         && gap.offset == |Wires(prefix)|
         && Wires(prefix) + input[gap.offset..gap.offset + gap.bytes] + Wires(suffix) == input
       case 2 =>
         var gap, tail := stream.unparsed[0], stream.unparsed[1];
         && gap.offset == |Wires(prefix)|
         && tail.offset == gap.offset + gap.bytes + |Wires(suffix)|
         && tail.offset + tail.bytes == |input|
         && Wires(prefix) + input[gap.offset..gap.offset + gap.bytes] + Wires(suffix) + input[tail.offset..] == input
       case _ => false
  }

  /** The strictly parsed prefix, when there is one to fall back on. */
  lemma FallbackAccounted(input: Octets, max: nat)
    requires !StrictlyComplete(input, max)
    ensures var fallback := FallbackOf(input, max).stream;
            && input != []
            && Faithful(fallback)
            && ValueBytes(fallback) <= max
            && PrefixEnd(input, fallback) < |input|
            && Wires(fallback.trace) == input[..PrefixEnd(input, fallback)]
            && (fallback.tokens == [] <==> fallback.trace == [])
            && fallback.unknownToken == Some(input[PrefixEnd(input, fallback)])
            && (fallback.tokens != [] ==> fallback.unparsed == [] && !IsPublished(input[PrefixEnd(input, fallback)]))
            && (fallback.unparsed == [] || fallback.unparsed == [Region(0, |input|, Some(input[0]))])
            && (fallback.unparsed != [] ==> fallback.tokens == [])
  {
    hide Parse, IsPublished, MessagesMatch;
    NothingIsFaithful();
    EmptyIsComplete(max);
    if Parse(input, max).Got? {
      StrictParse(input, max);
    }
  }

  lemma EmptyIsComplete(max: nat)
    ensures StrictlyComplete([], max)
  {
  }

  lemma NothingIsFaithful()
    ensures Faithful(EMPTY) && ValueBytes(EMPTY) == 0 && Wires(EMPTY.trace) == []
  {
  }

  lemma RecoveredAccounted(input: Octets, offset: nat, max: nat)
    requires Acceptable(input, offset, max)
    ensures var recovered := Parse(input[offset..], max);
            && Faithful(recovered.value)
            && recovered.value.trace != [] && recovered.value.trace[0].meaning.Announced?
            && ValueBytes(recovered.value) <= max
            && recovered.value.unparsed == []
            && offset + recovered.next <= |input|
            && Wires(recovered.value.trace) == input[offset..offset + recovered.next]
            && match recovered.value.unknownToken
               case None => offset + recovered.next == |input|
               case Some(token) => offset + recovered.next == PrefixEnd(input, recovered.value)
                                   && PrefixEnd(input, recovered.value) + recovered.value.trailingBytes + 1 == |input|
                                   && token == input[offset + recovered.next]
  {
    hide Parse, Faithful, ValueBytes, Wires, MessagePrefix, WorthRecovering, MessagesMatch, IsPublished;
    var s := input[offset..];
    StrictParse(s, max);
    RecoveredStartsWithMessage(s, max);
    var recovered := Parse(s, max);
    assert s[..recovered.next] == input[offset..offset + recovered.next];
  }

  lemma StrictTiles(input: Octets, max: nat)
    requires StrictlyComplete(input, max)
    ensures Tiles(input, Parse(input, max).value, Parse(input, max).value.trace, [])
  {
    StrictParse(input, max);
    var trace := Parse(input, max).value.trace;
    assert trace + [] == trace;
  }

  lemma GivenUpTiles(input: Octets, max: nat)
    requires !StrictlyComplete(input, max)
    ensures var r := GivenUp(input, FallbackOf(input, max));
            Tiles(input, r, r.trace, [])
  {
    hide Parse, ValueBytes, Faithful, IsPublished;
    FallbackAccounted(input, max);
    var fallback := FallbackOf(input, max).stream;
    var end := PrefixEnd(input, fallback);
    assert fallback.trace + [] == fallback.trace;
    assert input[..end] + input[end..|input|] + [] == input;
    assert fallback.unparsed != [] ==> Wires(fallback.trace) == [];
  }

  lemma PartsTile(input: Octets, stream: Stream, prefix: seq<Event>, suffix: seq<Event>, from: nat, offset: nat, end: nat)
    requires from < offset <= end <= |input|
    requires stream.trace == prefix + suffix
    requires Wires(prefix) == input[..from] && Wires(suffix) == input[offset..end]
    requires stream.unparsed ==
             [Region(from, offset - from, Some(input[from]))]
             + if end < |input| then [Region(end, |input| - end, Some(input[end]))] else []
    ensures Tiles(input, stream, prefix, suffix)
  {
    hide Wires;
    FourParts(input, from, offset, end);
    if end < |input| {
      assert stream.unparsed == [Region(from, offset - from, Some(input[from])),
                                 Region(end, |input| - end, Some(input[end]))];
    } else {
      assert stream.unparsed == [Region(from, offset - from, Some(input[from]))];
    }
  }

  lemma FourParts(input: Octets, a: nat, b: nat, c: nat)
    requires a <= b <= c <= |input|
    ensures input[..a] + input[a..b] + input[b..c] + input[c..] == input
    ensures c == |input| ==> input[..a] + input[a..b] + input[b..c] == input
  {
    assert input[..a] + input[a..b] == input[..b];
    assert input[..b] + input[b..c] == input[..c];
  }

  lemma RecoveredTiles(input: Octets, offset: nat, max: nat)
    requires !StrictlyComplete(input, max) && Acceptable(input, offset, max)
    ensures var fallback := FallbackOf(input, max);
            var recovered := Parse(input[offset..], max).value;
            var prefix := if Splices(input, fallback.stream, recovered, offset, max) then fallback.stream.trace else [];
            Tiles(input, Recovered(input, fallback, offset, max), prefix, recovered.trace)
  {
    hide Parse, ValueBytes, Tiles, FallbackOf, Faithful, WorthRecovering, MessagePrefix, Wires;
    hide StrictlyComplete;
    NothingIsFaithful();
    FallbackAccounted(input, max);
    RecoveredAccounted(input, offset, max);
    var fallback := FallbackOf(input, max);
    var recovered := Parse(input[offset..], max);
    var r := Recovered(input, fallback, offset, max);
    assert [] + recovered.value.trace == recovered.value.trace;
    if Splices(input, fallback.stream, recovered.value, offset, max) {
      PartsTile(input, r, fallback.stream.trace, recovered.value.trace, PrefixEnd(input, fallback.stream), offset,
                offset + recovered.next);
    } else {
      PartsTile(input, r, [], recovered.value.trace, 0, offset, offset + recovered.next);
    }
  }

  /** For every input, tokens and unparsed regions partition it byte for byte. */
  lemma TelemetryTilesInput(input: Octets, max: nat)
    ensures exists prefix, suffix :: Tiles(input, Telemetry(input, max), prefix, suffix)
  {
    hide Parse, MessagePrefix, WorthRecovering, Recovered, GivenUp, FirstAcceptable, Wires;
    if StrictlyComplete(input, max) {
      StrictTiles(input, max);
      assert Telemetry(input, max) == Parse(input, max).value;
    } else {
      match FirstAcceptable(input, 1, max)
      case Some(offset) =>
        RecoveredTiles(input, offset, max);
        var fallback, recovered := FallbackOf(input, max), Parse(input[offset..], max).value;
        var prefix := if Splices(input, fallback.stream, recovered, offset, max) then fallback.stream.trace else [];
        assert Telemetry(input, max) == Recovered(input, fallback, offset, max);
        assert Tiles(input, Telemetry(input, max), prefix, recovered.trace);
      case None =>
        GivenUpTiles(input, max);
        assert Telemetry(input, max) == GivenUp(input, FallbackOf(input, max));
    }
  }

  /** The byte budget holds for what is reported, spliced prefix included. */
  lemma TelemetryWithinBudget(input: Octets, max: nat)
    ensures ValueBytes(Telemetry(input, max)) <= max
  {
    if StrictlyComplete(input, max) {
      StrictParse(input, max);
    } else {
      FallbackAccounted(input, max);
      match FirstAcceptable(input, 1, max)
      case Some(offset) =>
        RecoveredAccounted(input, offset, max);
        SpliceAddsValues(Parse(input[offset..], max).value, FallbackOf(input, max).stream);
      case None =>
    }
  }

  /** The spliced parts hold two different symmetric keys. */
  predicate KeyConflict(input: Octets, max: nat) {
    && !StrictlyComplete(input, max)
    && FirstAcceptable(input, 1, max).Some?
    && var offset := FirstAcceptable(input, 1, max).value;
       var recovered := Parse(input[offset..], max);
       && recovered.Got?
       && var fallback := FallbackOf(input, max).stream;
          && Splices(input, fallback, recovered.value, offset, max)
          && fallback.symmetricKey.Some? && recovered.value.symmetricKey.Some?
          && fallback.symmetricKey != recovered.value.symmetricKey
  }

  /**
   Tolerant parsing files every secret as the joined history defines, and the
   symmetric key too exactly when the spliced parts do not hold different ones.
   */
  lemma TelemetryIsFaithful(input: Octets, max: nat)
    ensures FaithfulExceptKey(Telemetry(input, max))
    ensures Faithful(Telemetry(input, max)) <==> !KeyConflict(input, max)
  {
    if StrictlyComplete(input, max) {
      StrictParse(input, max);
    } else {
      FallbackAccounted(input, max);
      match FirstAcceptable(input, 1, max)
      case Some(offset) =>
        RecoveredAccounted(input, offset, max);
        SpliceIsFaithful(Parse(input[offset..], max).value, FallbackOf(input, max).stream);
      case None =>
    }
  }
}
