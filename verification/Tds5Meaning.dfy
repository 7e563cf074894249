/**
 What a TDS 5 token stream means, defined on its whole history rather than on
 the parser's registers, and the proof that the parser computes exactly that.
 */
module Tds5Meaning {
  import opened Bytes
  import opened Reading
  import opened Tds5Wire
  import opened Tds5Parser

  function Wires(trace: seq<Event>): Octets {
    if trace == [] then [] else Wires(trace[..|trace| - 1]) + trace[|trace| - 1].wire
  }

  /** The message type in force after `trace`: the last MSG not yet used up by a PARAMS. */
  function Governor(trace: seq<Event>): Option<nat> {
    if trace == [] then None else
    match trace[|trace| - 1].meaning
    case Announced(messageType) => Some(messageType)
    case Supplied(_) => None
    case Other => Governor(trace[..|trace| - 1])
  }

  datatype GovernedSet = GovernedSet(governor: Option<nat>, values: seq<Octets>)

  function Sets(trace: seq<Event>): seq<GovernedSet> {
    if trace == [] then [] else
    var front, last := trace[..|trace| - 1], trace[|trace| - 1];
    match last.meaning
    case Supplied(values) => Sets(front) + [GovernedSet(Governor(front), values)]
    case _ => Sets(front)
  }

  function MessageTypes(trace: seq<Event>): seq<nat> {
    if trace == [] then [] else
    var front, last := trace[..|trace| - 1], trace[|trace| - 1];
    match last.meaning
    case Announced(messageType) => MessageTypes(front) + [messageType]
    case _ => MessageTypes(front)
  }

  /** What `pick` takes from each set, in stream order. */
  function Gather<T>(sets: seq<GovernedSet>, pick: GovernedSet -> seq<T>): seq<T> {
    if sets == [] then [] else Gather(sets[..|sets| - 1], pick) + pick(sets[|sets| - 1])
  }

  function AnyValues(group: GovernedSet): seq<Octets> {
    group.values
  }

  function LoginValues(group: GovernedSet): seq<Octets> {
    if CarriesLoginPassword(group.governor) then group.values else []
  }

  function RemoteValues(group: GovernedSet): seq<RemotePassword> {
    if CarriesRemotePasswords(group.governor) then Pairs(group.values) else []
  }

  function OpaqueValues(group: GovernedSet): seq<seq<Octets>> {
    if group.governor == Some(11) then [group.values] else []
  }

  /** The first value of the last non-empty set announced as a symmetric key. */
  function SymmetricKey(sets: seq<GovernedSet>): Option<Octets> {
    if sets == [] then None else
    var last := sets[|sets| - 1];
    if CarriesSymmetricKey(last.governor) && last.values != [] then Some(last.values[0])
    else SymmetricKey(sets[..|sets| - 1])
  }

  function ValueBytes(stream: Stream): nat {
    |Flatten(stream.parameterValues)| + Sum(stream.rowValueBytes)
  }

  /** The secrets the parser reports are the ones its history defines. */
  predicate Faithful(stream: Stream) {
    var sets := Sets(stream.trace);
    && stream.parameterSets == |sets|
    && stream.parameterValues == Gather(sets, AnyValues)
    && stream.loginPassword == FirstNonEmpty(Gather(sets, LoginValues))
    && stream.remotePasswords == Gather(sets, RemoteValues)
    && stream.symmetricKey == SymmetricKey(sets)
    && stream.opaqueSecurity == Gather(sets, OpaqueValues)
  }

  predicate MessagesMatch(stream: Stream) {
    && |stream.messages| == |MessageTypes(stream.trace)|
    && forall i | 0 <= i < |stream.messages| :: stream.messages[i].messageType == MessageTypes(stream.trace)[i]
  }

  // ----- The reference definitions, declaratively -----

  /** Position `j` announces `messageType` and nothing after it announces or supplies anything. */
  ghost predicate LastAnnouncement(trace: seq<Event>, j: nat, messageType: nat) {
    && j < |trace|
    && trace[j].meaning == Announced(messageType)
    && forall k | j < k < |trace| :: trace[k].meaning.Other?
  }

  lemma {:induction false} GovernorIsLastAnnouncement(trace: seq<Event>, messageType: nat)
    ensures Governor(trace) == Some(messageType) <==> exists j: nat :: LastAnnouncement(trace, j, messageType)
  {
    if trace != [] {
      var n, front := |trace| - 1, trace[..|trace| - 1];
      GovernorIsLastAnnouncement(front, messageType);
      assert LastAnnouncement(trace, n, messageType) <==> trace[n].meaning == Announced(messageType);
      forall j: nat
        ensures LastAnnouncement(trace, j, messageType) <==>
                if j == n then trace[n].meaning == Announced(messageType)
                else trace[n].meaning.Other? && LastAnnouncement(front, j, messageType)
      {
        assert forall k | 0 <= k < n :: front[k] == trace[k];
      }
    }
  }

  /** Position `i` holds `value`, it is not empty, and every earlier value is. */
  ghost predicate FirstFilled(values: seq<Octets>, i: nat, value: Octets) {
    i < |values| && values[i] == value && value != [] && forall k | 0 <= k < i :: values[k] == []
  }

  lemma {:induction false} FirstNonEmptyIsFirst(values: seq<Octets>, value: Octets)
    ensures FirstNonEmpty(values) == Some(value) <==> exists i: nat :: FirstFilled(values, i, value)
  {
    if values != [] {
      var tail := values[1..];
      FirstNonEmptyIsFirst(tail, value);
      assert FirstFilled(values, 0, value) <==> values[0] == value && value != [];
      forall i: nat
        ensures FirstFilled(values, i + 1, value) <==> values[0] == [] && FirstFilled(tail, i, value)
      {
        assert forall k | 0 <= k < |tail| :: tail[k] == values[k + 1];
      }
      if values[0] == [] && exists i: nat :: FirstFilled(values, i, value) {
        var i: nat :| FirstFilled(values, i, value);
        assert forall k | 0 <= k < |tail| :: tail[k] == values[k + 1];
        assert FirstFilled(tail, i - 1, value);
      }
    }
  }

  lemma {:induction false} FirstNonEmptyConcat(a: seq<Octets>, b: seq<Octets>)
    ensures FirstNonEmpty(a + b) == if FirstNonEmpty(a).Some? then FirstNonEmpty(a) else FirstNonEmpty(b)
  {
    if a == [] {
      assert a + b == b;
    } else {
      FirstNonEmptyConcat(a[1..], b);
      assert (a + b)[1..] == a[1..] + b;
    }
  }

  // ----- One token preserves the correspondence -----

  /** Everything the parser knows between two tokens, in terms of the history and the input. */
  ghost predicate Inv(st: State, s: Octets, p: nat, max: nat) {
    && p <= |s|
    && Wires(st.stream.trace) == s[..p]
    && st.current == Governor(st.stream.trace)
    && Faithful(st.stream)
    && MessagesMatch(st.stream)
    && st.consumed == ValueBytes(st.stream) <= max
    && |st.stream.tokens| == |st.stream.trace|
    && st.stream.unknownToken.None? && st.stream.trailingBytes == 0 && st.stream.unparsed == []
  }

  /** The fields a token that is neither MSG nor PARAMS leaves alone. */
  predicate SameSecrets(a: Stream, b: Stream) {
    && a.parameterSets == b.parameterSets
    && a.parameterValues == b.parameterValues
    && a.loginPassword == b.loginPassword
    && a.remotePasswords == b.remotePasswords
    && a.symmetricKey == b.symmetricKey
    && a.opaqueSecurity == b.opaqueSecurity
    && a.warnings == b.warnings
  }

  predicate SameBookkeeping(a: Stream, b: Stream) {
    && |a.tokens| == |b.tokens| + 1
    && a.unknownToken == b.unknownToken
    && a.trailingBytes == b.trailingBytes
    && a.unparsed == b.unparsed
    && a.trace == b.trace
  }

  /** The only ways a token can touch the state. */
  ghost predicate Touches(st: State, effect: Effect, max: nat) {
    var next := effect.state;
    && SameBookkeeping(next.stream, st.stream)
    && match effect.meaning
       case Other =>
         && SameSecrets(next.stream, st.stream)
         && next.stream.messages == st.stream.messages
         && next.current == st.current
         && st.consumed <= next.consumed
         && Sum(next.stream.rowValueBytes) - Sum(st.stream.rowValueBytes) == next.consumed - st.consumed
         && (st.consumed <= max ==> next.consumed <= max)
       case Announced(messageType) =>
         && SameSecrets(next.stream, st.stream)
         && |next.stream.messages| == |st.stream.messages| + 1
         && next.stream.messages[..|st.stream.messages|] == st.stream.messages
         && next.stream.messages[|st.stream.messages|].messageType == messageType
         && next.current == Some(messageType)
         && next.stream.rowValueBytes == st.stream.rowValueBytes
         && next.consumed == st.consumed
       case Supplied(values) =>
         && SameSecrets(next.stream, RecordSet(st.stream, st.current, values))
         && next.stream.messages == st.stream.messages
         && next.current == None
         && next.stream.rowValueBytes == st.stream.rowValueBytes
         && next.consumed == st.consumed + |Flatten(values)|
         && (st.consumed <= max ==> next.consumed <= max)
  }

  lemma {:induction false} SumOfLengths(values: seq<Octets>)
    ensures Sum(Lengths(values)) == |Flatten(values)|
  {
    if values != [] {
      SumOfLengths(values[1..]);
      assert Lengths(values)[1..] == Lengths(values[1..]);
    }
  }

  lemma RowTouches(st: State, t: byte, s: Octets, p: nat, max: nat, alternate: bool)
    requires p <= |s|
    requires if alternate then AltRowStep(st, t, s, p, max).Got? else RowStep(st, t, s, p, max).Got?
    ensures Touches(st, (if alternate then AltRowStep(st, t, s, p, max) else RowStep(st, t, s, p, max)).value, max)
  {
    hide ReadSet, Flatten, Sum;
    var at := if alternate then U16(s, p, Truncated).next else p;
    var format := if alternate then st.alternates[U16(s, p, Truncated).value] else st.rowParameters;
    var values := ReadSet(s, at, format, 0, Budget(st, max)).value;
    SetWithinBudget(s, at, format, 0, Budget(st, max));
    SumOfLengths(values);
    SumConcat(st.stream.rowValueBytes, Lengths(values));
  }

  lemma ParamsTouch(st: State, t: byte, s: Octets, p: nat, max: nat)
    requires p <= |s| && ParamsStep(st, t, s, p, max).Got?
    ensures Touches(st, ParamsStep(st, t, s, p, max).value, max)
  {
    hide ReadSet, Flatten, Sum, FirstNonEmpty, Pairs;
    SetWithinBudget(s, p, st.parameters, 0, Budget(st, max));
  }

  lemma MessageTouches(st: State, t: byte, s: Octets, p: nat, max: nat)
    requires p <= |s| && MessageStep(st, t, s, p).Got?
    ensures Touches(st, MessageStep(st, t, s, p).value, max)
  {
  }

  lemma FormatTouches(st: State, s: Octets, p: nat, max: nat)
    requires p < |s| && IsPublished(s[p]) && TokenEffect(st, s, p, max).Got?
    requires KindOf(s[p]).ParamFormat? || KindOf(s[p]).RowFormat? || KindOf(s[p]).AltFormat?
    ensures Touches(st, TokenEffect(st, s, p, max).value, max)
  {
    hide ReadFormat, ReadAlternateFormat, VarSized, VarShort, Touches;
    forall n, to: State | FormatsOnly(st, AddToken(st.stream, s[p], n), to) ensures Touches(st, Effect(to, Other), max) {
      FormatsTouch(st, s[p], n, to, max);
    }
  }

  /** `to` has `stream` but for what it says about formats, and the formats themselves. */
  predicate FormatsOnly(st: State, stream: Stream, to: State) {
    && to == st.(stream := to.stream, parameters := to.parameters, rowParameters := to.rowParameters,
                 alternates := to.alternates)
    && to.stream == stream.(parameterFormats := to.stream.parameterFormats, rowFormats := to.stream.rowFormats,
                            alternateFormats := to.stream.alternateFormats)
  }

  lemma FormatsTouch(st: State, t: byte, n: nat, to: State, max: nat)
    requires FormatsOnly(st, AddToken(st.stream, t, n), to)
    ensures Touches(st, Effect(to, Other), max)
  {
  }

  /** A token that is only counted, or counted and filed as a command, touches nothing else. */
  lemma AddTouches(st: State, t: byte, n: nat, body: CommandBody, max: nat)
    ensures Touches(st, WithStream(st, AddToken(st.stream, t, n)), max)
    ensures Touches(st, WithStream(st, AddCommand(st.stream, t, n, body)), max)
  {
  }

  lemma PlainTouches(st: State, t: byte, s: Octets, p: nat, max: nat)
    requires p <= |s|
    ensures LanguageStep(st, t, s, p).Got? ==> Touches(st, LanguageStep(st, t, s, p).value, max)
    ensures LogoutStep(st, t, s, p).Got? ==> Touches(st, LogoutStep(st, t, s, p).value, max)
  {
    hide VarLong, VarByte, AddCommand, WithStream, Touches;
    forall n, body ensures Touches(st, WithStream(st, AddCommand(st.stream, t, n, body)), max) {
      AddTouches(st, t, n, body, max);
    }
  }

  lemma CommandTouches(st: State, t: byte, s: Octets, p: nat, kind: Kind, max: nat)
    requires p <= |s|
    requires kind in {Procedure(true), Procedure(false), Dynamic(true), Dynamic(false), CursorDeclare3, CursorCommand}
    requires CommandStep(st, t, s, p, kind).Got?
    ensures Touches(st, CommandStep(st, t, s, p, kind).value, max)
  {
    hide ReadProcedure, ReadDynamic, ReadCursorDeclare, ReadCursorCommand, VarSized, AddCommand, WithStream, Touches;
    forall n, body ensures Touches(st, WithStream(st, AddCommand(st.stream, t, n, body)), max) {
      AddTouches(st, t, n, body, max);
    }
  }

  lemma SkipTouches(st: State, t: byte, s: Octets, p: nat, kind: Kind, max: nat)
    requires p <= |s| && (kind.SkipLong? || kind.SkipShort? || kind.SkipFixed?)
    requires SkipStep(st, t, s, p, kind).Got?
    ensures Touches(st, SkipStep(st, t, s, p, kind).value, max)
  {
    hide VarLong, VarShort, Take, AddToken, AddCommand, WithStream, Touches;
    forall n ensures Touches(st, WithStream(st, AddToken(st.stream, t, n)), max) {
      AddTouches(st, t, n, CommandBody(None, None), max);
    }
    forall n ensures Touches(st, WithStream(st, AddCommand(st.stream, t, n, CommandBody(None, None))), max) {
      AddTouches(st, t, n, CommandBody(None, None), max);
    }
  }

  lemma TokenTouches(st: State, s: Octets, p: nat, max: nat)
    requires p < |s| && IsPublished(s[p]) && TokenEffect(st, s, p, max).Got?
    ensures Touches(st, TokenEffect(st, s, p, max).value, max)
  {
    hide Touches, RowStep, AltRowStep, ParamsStep, MessageStep, LanguageStep, LogoutStep, CommandStep, SkipStep;
    match KindOf(s[p])
    case Row => RowTouches(st, s[p], s, p + 1, max, false);
    case AltRow => RowTouches(st, s[p], s, p + 1, max, true);
    case Params => ParamsTouch(st, s[p], s, p + 1, max);
    case Msg => MessageTouches(st, s[p], s, p + 1, max);
    case ParamFormat(_) => FormatTouches(st, s, p, max);
    case RowFormat(_) => FormatTouches(st, s, p, max);
    case AltFormat => FormatTouches(st, s, p, max);
    case Language => PlainTouches(st, s[p], s, p + 1, max);
    case Logout => PlainTouches(st, s[p], s, p + 1, max);
    case Procedure(wide) => CommandTouches(st, s[p], s, p + 1, Procedure(wide), max);
    case Dynamic(wide) => CommandTouches(st, s[p], s, p + 1, Dynamic(wide), max);
    case CursorDeclare3 => CommandTouches(st, s[p], s, p + 1, CursorDeclare3, max);
    case CursorCommand => CommandTouches(st, s[p], s, p + 1, CursorCommand, max);
    case SkipLong => SkipTouches(st, s[p], s, p + 1, SkipLong, max);
    case SkipShort => SkipTouches(st, s[p], s, p + 1, SkipShort, max);
    case SkipFixed(size) => SkipTouches(st, s[p], s, p + 1, SkipFixed(size), max);
    case Unframed => PublishedTokensAreFramed(s[p]);
  }

  lemma TraceSnoc(trace: seq<Event>, event: Event)
    ensures var longer := trace + [event];
            && longer[..|longer| - 1] == trace
            && Wires(longer) == Wires(trace) + event.wire
            && (event.meaning.Other? ==> Governor(longer) == Governor(trace))
            && Sets(longer) == Sets(trace) +
               (if event.meaning.Supplied? then [GovernedSet(Governor(trace), event.meaning.values)] else [])
            && MessageTypes(longer) == MessageTypes(trace) +
               (if event.meaning.Announced? then [event.meaning.messageType] else [])
  {
    assert (trace + [event])[..|trace|] == trace;
  }

  /** Filing one more set keeps the reported secrets equal to the history's. */
  lemma RecordSetFaithful(stream: Stream, current: Option<nat>, values: seq<Octets>, wire: Octets)
    requires Faithful(stream) && current == Governor(stream.trace)
    ensures Faithful(RecordSet(stream, current, values).(trace := stream.trace + [Event(Supplied(values), wire)]))
  {
    var sets := Sets(stream.trace);
    var longer := sets + [GovernedSet(current, values)];
    TraceSnoc(stream.trace, Event(Supplied(values), wire));
    assert longer[..|longer| - 1] == sets;
    FirstNonEmptyConcat(Gather(sets, LoginValues), if CarriesLoginPassword(current) then values else []);
  }

  lemma StepKeepsMeaning(st: State, s: Octets, p: nat, max: nat)
    requires Inv(st, s, p, max) && p < |s| && IsPublished(s[p]) && Step(st, s, p, max).Got?
    ensures Faithful(Step(st, s, p, max).value.stream)
    ensures MessagesMatch(Step(st, s, p, max).value.stream)
    ensures Step(st, s, p, max).value.current == Governor(Step(st, s, p, max).value.stream.trace)
  {
    hide TokenEffect, IsPublished, Flatten, Gather, FirstNonEmpty, Wires;
    TokenTouches(st, s, p, max);
    var effect := TokenEffect(st, s, p, max);
    var wire := s[p..effect.next];
    TraceSnoc(st.stream.trace, Event(effect.value.meaning, wire));
    if effect.value.meaning.Supplied? {
      RecordSetFaithful(st.stream, st.current, effect.value.meaning.values, wire);
    }
  }

  lemma StepKeepsAccounts(st: State, s: Octets, p: nat, max: nat)
    requires Inv(st, s, p, max) && p < |s| && IsPublished(s[p]) && Step(st, s, p, max).Got?
    ensures var next := Step(st, s, p, max);
            && Wires(next.value.stream.trace) == s[..next.next]
            && next.value.consumed == ValueBytes(next.value.stream) <= max
            && SameBookkeeping(next.value.stream.(trace := st.stream.trace), st.stream)
            && |next.value.stream.trace| == |st.stream.trace| + 1
  {
    hide TokenEffect, IsPublished, Flatten, Sum, Sets, Gather, FirstNonEmpty, Governor;
    TokenTouches(st, s, p, max);
    var effect := TokenEffect(st, s, p, max);
    TraceSnoc(st.stream.trace, Event(effect.value.meaning, s[p..effect.next]));
    assert s[..p] + s[p..effect.next] == s[..effect.next];
    if effect.value.meaning.Supplied? {
      FlattenConcat(st.stream.parameterValues, effect.value.meaning.values);
    }
  }

  /** What a successful parse of `s` guarantees; `end` is where it stopped. */
  ghost predicate Accounted(stream: Stream, s: Octets, end: nat, max: nat) {
    && end <= |s|
    && Wires(stream.trace) == s[..end]
    && |stream.tokens| == |stream.trace|
    && ValueBytes(stream) <= max
    && stream.unparsed == []
    && match stream.unknownToken
       case None => end == |s| && stream.trailingBytes == 0
       case Some(token) => end < |s| && s[end] == token && !IsPublished(token) && end + 1 + stream.trailingBytes == |s|
  }

  /**
   Over a whole token stream: every PARAMS set is filed under the last MSG since
   the previous PARAMS, the tokens' bytes are exactly the part read, and an
   unpublished byte is the only thing that stops the parser early.
   */
  lemma {:induction false} ParseIsFaithful(st: State, s: Octets, p: nat, max: nat)
    requires Inv(st, s, p, max) && ParseFrom(st, s, p, max).Got?
    ensures var r := ParseFrom(st, s, p, max);
            Faithful(r.value) && MessagesMatch(r.value) && Accounted(r.value, s, r.next, max)
    decreases |s| - p
  {
    hide Step, IsPublished, Sets, Gather, FirstNonEmpty, SymmetricKey, MessageTypes, Wires, Flatten, Sum;
    if p < |s| && IsPublished(s[p]) {
      StepKeepsMeaning(st, s, p, max);
      StepKeepsAccounts(st, s, p, max);
      var step := Step(st, s, p, max);
      ParseIsFaithful(step.value, s, step.next, max);
    }
  }

  lemma StrictParse(s: Octets, max: nat)
    requires Parse(s, max).Got?
    ensures var r := Parse(s, max);
            Faithful(r.value) && MessagesMatch(r.value) && Accounted(r.value, s, r.next, max)
  {
    assert Wires(INITIAL.stream.trace) == s[..0];
    ParseIsFaithful(INITIAL, s, 0, max);
  }
}
