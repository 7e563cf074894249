/**
 The strict TDS 5 token-stream parser. Formats, the byte budget and the meaning
 of the last MSG are carried from token to token.
 */
module Tds5Parser {
  import opened Bytes
  import opened Reading
  import opened Tds5Wire

  datatype Token = Token(token: byte, bodyBytes: nat)

  datatype Command = Command(token: byte, bodyBytes: nat, body: CommandBody)

  datatype Message = Message(messageType: nat, status: byte, extraBytes: nat)

  datatype RemotePassword = RemotePassword(server: Octets, ciphertext: Octets)

  datatype Warning =
    | UnpairedRemotePasswords(parameters: nat)
    | SymmetricKeyParameters(parameters: nat)
    | UnrecognizedToken
    | StrictError(error: Error)
    | RecoveredSuffix(offset: nat)

  datatype Region = Region(offset: nat, bytes: nat, firstByte: Option<byte>)

  /** What one token of the stream meant, with the exact bytes it occupied. */
  datatype Meaning = Announced(messageType: nat) | Supplied(values: seq<Octets>) | Other

  datatype Event = Event(meaning: Meaning, wire: Octets)

  /**
   The parser's result. `trace` is the model's history of the tokens read, in
   order; every other field is one the parser reports.
   */
  datatype Stream = Stream(
    tokens: seq<Token>,
    commands: seq<Command>,
    messages: seq<Message>,
    parameterFormats: nat,
    parameterSets: nat,
    parameterValues: seq<Octets>,
    rowFormats: nat,
    rows: nat,
    rowValueBytes: seq<nat>,
    alternateFormats: seq<nat>,
    alternateRows: nat,
    loginPassword: Option<Octets>,
    remotePasswords: seq<RemotePassword>,
    symmetricKey: Option<Octets>,
    opaqueSecurity: seq<seq<Octets>>,
    warnings: seq<Warning>,
    unknownToken: Option<byte>,
    trailingBytes: nat,
    unparsed: seq<Region>,
    trace: seq<Event>)

  const EMPTY := Stream([], [], [], 0, 0, [], 0, 0, [], [], 0, None, [], None, [], [], None, 0, [], [])

  datatype State = State(
    stream: Stream,
    parameters: seq<Parameter>,
    rowParameters: seq<Parameter>,
    alternates: map<nat, seq<Parameter>>,
    consumed: nat,
    current: Option<nat>)

  const INITIAL := State(EMPTY, [], [], map[], 0, None)

  // ----- Token table -----

  predicate IsPublished(token: byte) {
    token in {0x10, 0x20, 0x21, 0x22, 0x23, 0x2a, 0x60, 0x61, 0x62, 0x65, 0x71, 0x78, 0x79, 0x7c}
    || 0x80 <= token <= 0x88
    || 0xa0 <= token <= 0xaf
    || token in {0xca, 0xd1, 0xd3, 0xd7, 0xe0, 0xe2, 0xe3, 0xe5, 0xe6, 0xe7, 0xe8, 0xec, 0xee, 0xfd, 0xfe, 0xff}
  }

  datatype Kind =
    | Language
    | Procedure(wide: bool)
    | Dynamic(wide: bool)
    | CursorDeclare3
    | CursorCommand
    | Logout
    | Msg
    | ParamFormat(wide: bool)
    | RowFormat(wide: bool)
    | Row
    | AltFormat
    | AltRow
    | Params
    | SkipLong
    | SkipShort
    | SkipFixed(size: nat)
    | Unframed

  function KindOf(token: byte): Kind {
    if token == 0x21 then Language
    else if token in {0xe6, 0xe8} then Procedure(token == 0xe8)
    else if token in {0x62, 0xa3, 0xe7} then Dynamic(token != 0xe7)
    else if token == 0x10 then CursorDeclare3
    else if 0x80 <= token <= 0x88 || token == 0xa6 then CursorCommand
    else if token == 0x71 then Logout
    else if token == 0x65 then Msg
    else if token in {0xec, 0x20} then ParamFormat(token == 0x20)
    else if token in {0x61, 0xee} then RowFormat(token == 0x61)
    else if token == 0xd1 then Row
    else if token == 0xa8 then AltFormat
    else if token == 0xd3 then AltRow
    else if token == 0xd7 then Params
    else if token == 0x22 then SkipLong
    else if token in {0x23, 0x2a, 0x60} || 0xa0 <= token <= 0xaf || token in {0xca, 0xe0, 0xe2, 0xe3, 0xe5} then SkipShort
    else if token in {0x78, 0x79} then SkipFixed(4)
    else if token == 0x7c || 0xfd <= token then SkipFixed(8)
    else Unframed
  }

  /** No published token falls through to the unknown-token arm. */
  lemma PublishedTokensAreFramed(token: byte)
    ensures IsPublished(token) <==> KindOf(token) != Unframed
  {
  }

  // ----- One token -----

  function AddToken(stream: Stream, token: byte, bodyBytes: nat): Stream {
    stream.(tokens := stream.tokens + [Token(token, bodyBytes)])
  }

  function AddCommand(stream: Stream, token: byte, bodyBytes: nat, body: CommandBody): Stream {
    AddToken(stream, token, bodyBytes).(commands := stream.commands + [Command(token, bodyBytes, body)])
  }

  function FirstNonEmpty(values: seq<Octets>): Option<Octets> {
    if values == [] then None
    else if values[0] != [] then Some(values[0])
    else FirstNonEmpty(values[1..])
  }

  function Pairs(values: seq<Octets>): seq<RemotePassword> {
    if |values| < 2 then []
    else [RemotePassword(values[0], values[1])] + Pairs(values[2..])
  }

  predicate CarriesLoginPassword(messageType: Option<nat>) {
    messageType in {Some(2), Some(15), Some(31)}
  }

  predicate CarriesRemotePasswords(messageType: Option<nat>) {
    messageType in {Some(3), Some(22), Some(32)}
  }

  predicate CarriesSymmetricKey(messageType: Option<nat>) {
    messageType == Some(34)
  }

  function SetWarnings(current: Option<nat>, count: nat): seq<Warning> {
    (if CarriesRemotePasswords(current) && count % 2 != 0 then [UnpairedRemotePasswords(count)] else [])
    + (if CarriesSymmetricKey(current) && count != 1 then [SymmetricKeyParameters(count)] else [])
  }

  /** Files one PARAMS set under the message type that is current. */
  function RecordSet(stream: Stream, current: Option<nat>, values: seq<Octets>): Stream {
    stream.(
    parameterSets := stream.parameterSets + 1,
    parameterValues := stream.parameterValues + values,
    loginPassword :=
      if CarriesLoginPassword(current) && stream.loginPassword.None? then FirstNonEmpty(values)
      else stream.loginPassword,
    remotePasswords := stream.remotePasswords + if CarriesRemotePasswords(current) then Pairs(values) else [],
    symmetricKey :=
      if CarriesSymmetricKey(current) && values != [] then Some(values[0]) else stream.symmetricKey,
    opaqueSecurity := stream.opaqueSecurity + if current == Some(11) then [values] else [],
    warnings := stream.warnings + SetWarnings(current, |values|))
  }

  function Lengths(values: seq<Octets>): seq<nat> {
    seq(|values|, i requires 0 <= i < |values| => |values[i]|)
  }

  /** A row adds its value lengths; the values themselves are only summarised. */
  function RecordRow(stream: Stream, values: seq<Octets>): Stream {
    stream.(rowValueBytes := stream.rowValueBytes + Lengths(values))
  }

  /** The effect of a token on the state, before the token is put on the trace. */
  datatype Effect = Effect(state: State, meaning: Meaning)

  function WithStream(st: State, stream: Stream): Effect {
    Effect(st.(stream := stream), Other)
  }

  function Budget(st: State, max: nat): nat {
    if st.consumed <= max then max - st.consumed else 0
  }

  function LanguageStep(st: State, t: byte, s: Octets, p: nat): (r: Parsed<Effect>)
    requires p <= |s|
    ensures r.Forward(s, p)
  {
    var (body, q) :- VarLong(s, p);
    if body == [] then Fail(EmptyLanguage)
    else Got(WithStream(st, AddCommand(st.stream, t, |body|, CommandBody(None, Some(body[1..])))), q)
  }

  function CommandStep(st: State, t: byte, s: Octets, p: nat, kind: Kind): (r: Parsed<Effect>)
    requires p <= |s|
    requires kind in {Procedure(true), Procedure(false), Dynamic(true), Dynamic(false), CursorDeclare3, CursorCommand}
    ensures r.Forward(s, p)
  {
    var (body, q) :- VarSized(s, p, match kind
                                    case Procedure(wide) => wide
                                    case Dynamic(wide) => wide
                                    case _ => kind.CursorDeclare3?);
    var (command, _) :- match kind
                        case Procedure(wide) => ReadProcedure(body, wide)
                        case Dynamic(wide) => ReadDynamic(body, wide)
                        case CursorDeclare3 => ReadCursorDeclare(body, true)
                        case _ => ReadCursorCommand(t, body);
    Got(WithStream(st, AddCommand(st.stream, t, |body|, command)), q)
  }

  function LogoutStep(st: State, t: byte, s: Octets, p: nat): (r: Parsed<Effect>)
    requires p <= |s|
    ensures r.Forward(s, p)
  {
    var (body, q) :- VarByte(s, p);
    Got(WithStream(st, AddCommand(st.stream, t, |body|, CommandBody(None, None))), q)
  }

  function MessageStep(st: State, t: byte, s: Octets, p: nat): (r: Parsed<Effect>)
    requires p <= |s|
    ensures r.Forward(s, p)
  {
    var (body, q) :- VarByte(s, p);
    if |body| < 3 then Fail(ShortMessage) else
    var messageType := FromU16Le(body[1..3]);
    var stream := AddToken(st.stream, t, |body|);
    Got(Effect(st.(stream := stream.(messages := stream.messages + [Message(messageType, body[0], |body| - 3)]),
                   current := Some(messageType)), Announced(messageType)), q)
  }

  function ParamFormatStep(st: State, t: byte, s: Octets, p: nat, wide: bool): (r: Parsed<Effect>)
    requires p <= |s|
    ensures r.Forward(s, p)
  {
    var (body, q) :- VarSized(s, p, wide);
    var (format, _) :- ReadFormat(body, wide, 0);
    var stream := AddToken(st.stream, t, |body|);
    Got(Effect(st.(stream := stream.(parameterFormats := stream.parameterFormats + 1), parameters := format), Other), q)
  }

  function RowFormatStep(st: State, t: byte, s: Octets, p: nat, wide: bool): (r: Parsed<Effect>)
    requires p <= |s|
    ensures r.Forward(s, p)
  {
    var (body, q) :- VarSized(s, p, wide);
    var (format, _) :- ReadFormat(body, wide, if wide then 4 else 0);
    var stream := AddToken(st.stream, t, |body|);
    Got(Effect(st.(stream := stream.(rowFormats := stream.rowFormats + 1), rowParameters := format), Other), q)
  }

  function RowStep(st: State, t: byte, s: Octets, p: nat, max: nat): (r: Parsed<Effect>)
    requires p <= |s|
    ensures r.Forward(s, p)
  {
    if st.rowParameters == [] then Fail(RowWithoutFormat) else
    var (values, q) :- ReadSet(s, p, st.rowParameters, 0, Budget(st, max));
    var stream := RecordRow(AddToken(st.stream, t, q - p), values);
    Got(Effect(st.(stream := stream.(rows := stream.rows + 1), consumed := st.consumed + |Flatten(values)|), Other), q)
  }

  function AltFormatStep(st: State, t: byte, s: Octets, p: nat): (r: Parsed<Effect>)
    requires p <= |s|
    ensures r.Forward(s, p)
  {
    var (body, q) :- VarShort(s, p);
    var (format, _) :- ReadAlternateFormat(body);
    if format.computeId !in st.alternates && |st.alternates| >= 1024 then Fail(AlternateFormatCount) else
    var stream := AddToken(st.stream, t, |body|);
    Got(Effect(st.(stream := stream.(alternateFormats := stream.alternateFormats + [format.computeId]),
                   alternates := st.alternates[format.computeId := format.columns]), Other), q)
  }

  function AltRowStep(st: State, t: byte, s: Octets, p: nat, max: nat): (r: Parsed<Effect>)
    requires p <= |s|
    ensures r.Forward(s, p)
  {
    var (computeId, p1) :- U16(s, p, Truncated);
    if computeId !in st.alternates then Fail(UnknownComputeId) else
    var (values, q) :- ReadSet(s, p1, st.alternates[computeId], 0, Budget(st, max));
    var stream := RecordRow(AddToken(st.stream, t, q - p), values);
    Got(Effect(st.(stream := stream.(alternateRows := stream.alternateRows + 1),
                   consumed := st.consumed + |Flatten(values)|), Other), q)
  }

  function ParamsStep(st: State, t: byte, s: Octets, p: nat, max: nat): (r: Parsed<Effect>)
    requires p <= |s|
    ensures r.Forward(s, p)
  {
    if st.parameters == [] then Fail(ParamsWithoutFormat) else
    var (values, q) :- ReadSet(s, p, st.parameters, 0, Budget(st, max));
    var stream := RecordSet(st.stream, st.current, values);
    Got(Effect(st.(stream := AddToken(stream, t, |Flatten(values)|),
                   consumed := st.consumed + |Flatten(values)|, current := None), Supplied(values)), q)
  }

  function SkipStep(st: State, t: byte, s: Octets, p: nat, kind: Kind): (r: Parsed<Effect>)
    requires p <= |s|
    requires kind.SkipLong? || kind.SkipShort? || kind.SkipFixed?
    ensures r.Forward(s, p)
  {
    match kind
    case SkipLong =>
      var (body, q) :- VarLong(s, p);
      Got(WithStream(st, AddToken(st.stream, t, |body|)), q)
    case SkipShort =>
      var (body, q) :- VarShort(s, p);
      Got(WithStream(st, AddCommand(st.stream, t, |body|, CommandBody(None, None))), q)
    case SkipFixed(size) =>
      var (_, q) :- Take(s, p, size, Truncated);
      Got(WithStream(st, AddToken(st.stream, t, size)), q)
  }

  /** The token at `p` (already known to be published) and everything it frames. */
  function TokenEffect(st: State, s: Octets, p: nat, max: nat): (r: Parsed<Effect>)
    requires p < |s| && IsPublished(s[p])
    ensures r.Forward(s, p + 1)
  {
    var t, q := s[p], p + 1;
    match KindOf(t)
    case Language => LanguageStep(st, t, s, q)
    case Logout => LogoutStep(st, t, s, q)
    case Msg => MessageStep(st, t, s, q)
    case ParamFormat(wide) => ParamFormatStep(st, t, s, q, wide)
    case RowFormat(wide) => RowFormatStep(st, t, s, q, wide)
    case Row => RowStep(st, t, s, q, max)
    case AltFormat => AltFormatStep(st, t, s, q)
    case AltRow => AltRowStep(st, t, s, q, max)
    case Params => ParamsStep(st, t, s, q, max)
    case SkipLong => SkipStep(st, t, s, q, SkipLong)
    case SkipShort => SkipStep(st, t, s, q, SkipShort)
    case SkipFixed(size) => SkipStep(st, t, s, q, SkipFixed(size))
    case Procedure(wide) => CommandStep(st, t, s, q, Procedure(wide))
    case Dynamic(wide) => CommandStep(st, t, s, q, Dynamic(wide))
    case CursorDeclare3 => CommandStep(st, t, s, q, CursorDeclare3)
    case CursorCommand => CommandStep(st, t, s, q, CursorCommand)
    case Unframed => Fail(UnknownType) // not reached, by PublishedTokensAreFramed
  }

  /** The counters bounded by the 4096-token limit. */
  function Inventory(stream: Stream): nat {
    |stream.commands| + |stream.messages| + stream.parameterFormats + stream.parameterSets
    + stream.rowFormats + stream.rows + |stream.alternateFormats| + stream.alternateRows
  }

  function Traced(effect: Effect, wire: Octets): State {
    var stream := effect.state.stream;
    effect.state.(stream := stream.(trace := stream.trace + [Event(effect.meaning, wire)]))
  }

  function Step(st: State, s: Octets, p: nat, max: nat): (r: Parsed<State>)
    requires p < |s| && IsPublished(s[p])
    ensures r.Forward(s, p + 1)
  {
    var (effect, q) :- TokenEffect(st, s, p, max);
    var next := Traced(effect, s[p..q]);
    if Inventory(next.stream) > 4096 then Fail(TokenCount) else Got(next, q)
  }

  /** The parser from a state and a position on: the result and where reading stopped. */
  function ParseFrom(st: State, s: Octets, p: nat, max: nat): (r: Parsed<Stream>)
    requires p <= |s|
    ensures r.Forward(s, p)
    decreases |s| - p
  {
    if p == |s| then Got(st.stream, p)
    else if !IsPublished(s[p]) then
      Got(st.stream.(unknownToken := Some(s[p]), trailingBytes := |s| - p - 1), p)
    else
      var (next, q) :- Step(st, s, p, max);
      ParseFrom(next, s, q, max)
  }

  function Parse(s: Octets, max: nat): Parsed<Stream> {
    ParseFrom(INITIAL, s, 0, max)
  }

  method ParseAuthentication(s: Octets, max: nat) returns (r: Parsed<Stream>)
    ensures r == Parse(s, max)
  {
    var st, position: nat := INITIAL, 0;
    while position < |s|
      invariant position <= |s|
      invariant Parse(s, max) == ParseFrom(st, s, position, max)
    {
      if !IsPublished(s[position]) {
        return Got(st.stream.(unknownToken := Some(s[position]), trailingBytes := |s| - position - 1), position);
      }
      var step := Step(st, s, position, max);
      if step.Fail? {
        return Fail(step.error);
      }
      st, position := step.value, step.next;
    }
    r := Got(st.stream, position);
  }
}
