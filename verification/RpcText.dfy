/** Remote procedure calls rendered as statement text, and the scanners that take such text apart again. */
module RpcText {
  import opened Bytes

  const QUOTE: byte := 0x27
  const SEMICOLON: byte := 0x3b
  const SPACE: byte := 0x20

  // ----- Splitting -----

  /** The statements from `i` on, the current one having begun at `start`. */
  function Split(s: Octets, i: nat, start: nat, quoted: bool): seq<Octets>
    requires start <= i <= |s|
    decreases |s| - i
  {
    if i == |s| then (if start < |s| then [s[start..]] else [])
    else if s[i] == QUOTE then
      if quoted && i + 1 < |s| && s[i + 1] == QUOTE then Split(s, i + 2, start, quoted)
      else Split(s, i + 1, start, !quoted)
    else if s[i] == SEMICOLON && !quoted then [s[start..i]] + Split(s, i + 1, i + 1, quoted)
    else Split(s, i + 1, start, quoted)
  }

  method SplitStatements(s: Octets) returns (parts: seq<Octets>)
    ensures parts == Split(s, 0, 0, false)
  {
    parts := [];
    var start, quoted, i := 0, false, 0;
    assert [] + Split(s, 0, 0, false) == Split(s, 0, 0, false);
    while i < |s|
      invariant 0 <= start <= i <= |s|
      invariant parts + Split(s, i, start, quoted) == Split(s, 0, 0, false)
    {
      if s[i] == QUOTE {
        if quoted && i + 1 < |s| && s[i + 1] == QUOTE {
          i := i + 2;
          continue;
        }
        quoted := !quoted;
      } else if s[i] == SEMICOLON && !quoted {
        ConcatAssoc(parts, [s[start..i]], Split(s, i + 1, i + 1, quoted));
        parts := parts + [s[start..i]];
        start := i + 1;
      }
      i := i + 1;
    }
    if start < |s| {
      parts := parts + [s[start..]];
    } else {
      assert parts + [] == parts;
    }
  }

  // ----- Quoted text -----

  function FirstQuote(s: Octets, p: nat): Option<nat>
    decreases |s| - p
  {
    if p >= |s| then None else if s[p] == QUOTE then Some(p) else FirstQuote(s, p + 1)
  }

  /** The text of a literal from `i` on, a doubled quote standing for one. */
  function Unquote(s: Octets, i: nat): Option<Octets>
    decreases |s| - i
  {
    if i >= |s| then None
    else if s[i] == QUOTE then
      if i + 1 < |s| && s[i + 1] == QUOTE then
        match Unquote(s, i + 2)
        case None => None
        case Some(rest) => Some([QUOTE] + rest)
      else Some([])
    else
      match Unquote(s, i + 1)
      case None => None
      case Some(rest) => Some([s[i]] + rest)
  }

  function UpperByte(b: byte): byte {
    if 0x61 <= b <= 0x7a then b - 0x20 else b
  }

  function Upper(s: Octets): Octets {
    seq(|s|, i requires 0 <= i < |s| => UpperByte(s[i]))
  }

  /** The first place from `p` on where a marker stands, in letters of either case. */
  function Find(s: Octets, marker: Octets, p: nat): Option<nat>
    decreases |s| - p
  {
    if p > |s| then None else if At(Upper(s), p, marker) then Some(p) else Find(s, marker, p + 1)
  }

  /** The first literal behind the first occurrence of a marker. */
  function QuotedAfter(s: Octets, marker: Octets): Option<Octets> {
    match Find(s, marker, 0)
    case None => None
    case Some(m) =>
      match FirstQuote(s, m + |marker|)
      case None => None
      case Some(q) => Unquote(s, q + 1)
  }

  function Onto(front: Octets, rest: Option<Octets>): Option<Octets> {
    if rest.Some? then Some(front + rest.value) else None
  }

  /** The index loop over a literal that was opened before `start`. */
  method ReadLiteral(s: Octets, start: nat) returns (r: Option<Octets>)
    ensures r == Unquote(s, start)
  {
    var result: Octets, i := [], start;
    ghost var all := Unquote(s, start);
    assert all.Some? ==> [] + all.value == all.value;
    while i < |s|
      invariant Onto(result, Unquote(s, i)) == all
    {
      ghost var rest := Unquote(s, i + 1);
      if s[i] == QUOTE {
        if i + 1 < |s| && s[i + 1] == QUOTE {
          ghost var more := Unquote(s, i + 2);
          if more.Some? {
            ConcatAssoc(result, [QUOTE], more.value);
          }
          result := result + [QUOTE];
          i := i + 2;
          continue;
        }
        assert result + [] == result;
        return Some(result);
      }
      if rest.Some? {
        ConcatAssoc(result, [s[i]], rest.value);
      }
      result := result + [s[i]];
      i := i + 1;
    }
    return None;
  }

  method ReadQuoted(s: Octets, marker: Octets) returns (r: Option<Octets>)
    ensures r == QuotedAfter(s, marker)
  {
    hide Unquote;
    var found := Find(s, marker, 0);
    if found.None? {
      return None;
    }
    var quote := FirstQuote(s, found.value + |marker|);
    if quote.None? {
      return None;
    }
    r := ReadLiteral(s, quote.value + 1);
  }

  // ----- Rendering -----

  /** A value as a literal: text and identifiers quoted, everything else without quote or semicolon. */
  datatype Literal = Text(text: Octets) | Guid(digits: Octets) | Plain(bytes: Octets)

  predicate IsPlain(s: Octets) {
    QUOTE !in s && SEMICOLON !in s
  }

  predicate Good(literal: Literal) {
    match literal
    case Text(_) => true
    case Guid(digits) => IsPlain(digits)
    case Plain(bytes) => bytes != [] && IsPlain(bytes)
  }

  function Escape(text: Octets): Octets {
    if text == [] then []
    else (if text[0] == QUOTE then [QUOTE, QUOTE] else [text[0]]) + Escape(text[1..])
  }

  function Quoted(text: Octets): Octets {
    [QUOTE] + (Escape(text) + [QUOTE])
  }

  const N: byte := 0x4e

  function Render(literal: Literal): Octets {
    match literal
    case Text(text) => [N] + Quoted(text)
    case Guid(digits) => [QUOTE] + (digits + [QUOTE])
    case Plain(bytes) => bytes
  }

  const COMMA: Octets := [0x2c, SPACE]
  const THEN: Octets := [SEMICOLON, SPACE]
  const EXEC: Octets := [0x45, 0x58, 0x45, 0x43, SPACE]

  function Join(parts: seq<Octets>, separator: Octets): Octets {
    if parts == [] then [] else if |parts| == 1 then parts[0]
    else parts[0] + (separator + Join(parts[1..], separator))
  }

  function RenderAll(literals: seq<Literal>): seq<Octets> {
    seq(|literals|, i requires 0 <= i < |literals| => Render(literals[i]))
  }

  /** A batch of a remote call other than `sp_executesql`. */
  datatype Batch = Batch(procedure: Octets, noExecute: bool, arguments: seq<Literal>)

  /** The arguments are ones the renderer writes; the name may be anything. */
  predicate GoodBatch(b: Batch) {
    forall i | 0 <= i < |b.arguments| :: Good(b.arguments[i])
  }

  function Arguments(b: Batch): Octets {
    Join(RenderAll(b.arguments), COMMA)
  }

  function Statement(b: Batch): Octets {
    EXEC + (b.procedure + if Arguments(b) == [] then [] else [SPACE] + Arguments(b))
  }

  function Executed(batches: seq<Batch>): seq<Batch> {
    if batches == [] then []
    else (if batches[0].noExecute then [] else [batches[0]]) + Executed(batches[1..])
  }

  function Statements(batches: seq<Batch>): seq<Octets> {
    seq(|batches|, i requires 0 <= i < |batches| => Statement(batches[i]))
  }

  function RpcSql(batches: seq<Batch>): Octets {
    Join(Statements(Executed(batches)), THEN)
  }
}
