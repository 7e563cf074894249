/**
 The TDS 5 cursor, its parameter and row formats, its command bodies and its
 values. A reader takes the input and a position in it; it returns what it
 decoded and the position it stopped at, or the error the parser reports.
 */
module Tds5Wire {
  import opened Bytes
  import opened Reading

  datatype Error =
    | Truncated
    | EmptyLanguage
    | ShortMessage
    | TrailingBody
    | NoExactProcedureName
    | ParameterCount
    | UpdateColumnCount
    | NumericMetadata
    | BigTimeMetadata
    | BlobKind
    | UnknownType
    | BlobSerialization
    | BlobChunkCount
    | ValueTooLong
    | ValueBudget
    | ParamsWithoutFormat
    | RowWithoutFormat
    | AlternateFormatCount
    | UnknownComputeId
    | TokenCount

  type Parsed<+T> = Attempt<T, Error>

  // ----- Cursor -----

  /** A string or token body preceded by its 8-, 16- or 32-bit length. */
  function VarByte(s: Octets, p: nat): (r: Parsed<Octets>)
    requires p <= |s|
    ensures r.Forward(s, p)
    ensures r.Got? ==> r.next == p + 1 + |r.value|
  {
    var (n, q) :- U8(s, p, Truncated);
    Take(s, q, n, Truncated)
  }

  function VarShort(s: Octets, p: nat): (r: Parsed<Octets>)
    requires p <= |s|
    ensures r.Forward(s, p)
    ensures r.Got? ==> r.next == p + 2 + |r.value|
  {
    var (n, q) :- U16(s, p, Truncated);
    Take(s, q, n, Truncated)
  }

  function VarLong(s: Octets, p: nat): (r: Parsed<Octets>)
    requires p <= |s|
    ensures r.Forward(s, p)
    ensures r.Got? ==> r.next == p + 4 + |r.value|
  {
    var (n, q) :- U32(s, p, Truncated);
    Take(s, q, n, Truncated)
  }

  function VarSized(s: Octets, p: nat, wide: bool): (r: Parsed<Octets>)
    requires p <= |s|
    ensures r.Forward(s, p)
  {
    if wide then VarLong(s, p) else VarShort(s, p)
  }

  /** A one-byte status, or a four-byte one in the wide formats. */
  function Status(s: Octets, p: nat, wide: bool): (r: Parsed<nat>)
    requires p <= |s|
    ensures r.Forward(s, p)
  {
    if wide then U32(s, p, Truncated) else
    var (status, q) :- U8(s, p, Truncated);
    Got(status, q)
  }

  // ----- Formats -----

  datatype Encoding = Fixed(size: nat) | LengthU8 | LengthU32 | Lob | Blob(kind: byte)

  /** `maxLength` is None for the types whose values carry no declared bound. */
  datatype Parameter = Parameter(name: Octets, status: nat, ty: byte, maxLength: Option<nat>, encoding: Encoding)

  datatype FieldType = FieldType(maxLength: Option<nat>, encoding: Encoding)

  function FixedSize(ty: byte): Option<nat> {
    if ty == 0x1f then Some(0)
    else if ty in {0x30, 0x32, 0x40, 0xb0} then Some(1)
    else if ty in {0x34, 0x41} then Some(2)
    else if ty in {0x31, 0x33, 0x38, 0x3a, 0x3b, 0x42, 0x7a} then Some(4)
    else if ty in {0x2e, 0x3c, 0x3d, 0x3e, 0x43, 0x7f, 0xbf} then Some(8)
    else None
  }

  function ReadFieldType(s: Octets, p: nat, ty: byte): (r: Parsed<FieldType>)
    requires p <= |s|
    ensures r.Forward(s, p)
  {
    if FixedSize(ty).Some? then
      Got(FieldType(FixedSize(ty), Fixed(FixedSize(ty).value)), p)
    else if ty in {0x6a, 0x6c} then
      var (max, p1) :- U8(s, p, Truncated);
      var (precision, p2) :- U8(s, p1, Truncated);
      var (scale, p3) :- U8(s, p2, Truncated);
      if precision == 0 || precision > 77 || scale > precision then Fail(NumericMetadata)
      else Got(FieldType(Some(max), LengthU8), p3)
    else if ty in {0xbb, 0xbc} then
      var (max, p1) :- U8(s, p, Truncated);
      var (precision, p2) :- U8(s, p1, Truncated);
      if max != 8 || precision > 6 then Fail(BigTimeMetadata)
      else Got(FieldType(Some(max), LengthU8), p2)
    else if ty in {0x25, 0x26, 0x27, 0x2d, 0x2f, 0x44, 0x67, 0x68, 0x6d, 0x6e, 0x6f, 0x7b, 0x93} then
      var (max, p1) :- U8(s, p, Truncated);
      Got(FieldType(Some(max), LengthU8), p1)
    else if ty in {0xaf, 0xe1} then
      var (max, p1) :- U32(s, p, Truncated);
      Got(FieldType(Some(max), LengthU32), p1)
    else if ty in {0x22, 0x23, 0xa3, 0xae} then
      var (max, p1) :- U32(s, p, Truncated);
      var (_, p2) :- VarShort(s, p1);
      Got(FieldType(Some(max), Lob), p2)
    else if ty == 0x24 then
      var (_, p1) :- U8(s, p, Truncated);
      var (kind, p2) :- U8(s, p1, Truncated);
      if !(1 <= kind <= 8) then Fail(BlobKind)
      else if kind in {1, 2} then
        var (_, p3) :- VarShort(s, p2);
        Got(FieldType(None, Blob(kind)), p3)
      else
        Got(FieldType(None, Blob(kind)), p2)
    else
      Fail(UnknownType)
  }

  function SkipStrings(s: Octets, p: nat, count: nat): (r: Parsed<nat>)
    requires p <= |s|
    ensures r.Forward(s, p)
    decreases count
  {
    if count == 0 then Got(0, p) else
    var (_, q) :- VarByte(s, p);
    SkipStrings(s, q, count - 1)
  }

  function ReadTypedField(s: Octets, p: nat, name: Octets, status: nat): (r: Parsed<Parameter>)
    requires p <= |s|
    ensures r.Forward(s, p)
  {
    var (_, p1) :- Take(s, p, 4, Truncated);
    var (ty, p2) :- U8(s, p1, Truncated);
    var (field, p3) :- ReadFieldType(s, p2, ty);
    var (_, p4) :- VarByte(s, p3);
    Got(Parameter(name, status, ty, field.maxLength, field.encoding), p4)
  }

  /** `labels` counts the source-metadata strings ahead of a column name. */
  function ReadField(s: Octets, p: nat, wide: bool, labels: nat): (r: Parsed<Parameter>)
    requires p <= |s|
    ensures r.Forward(s, p)
  {
    var (_, p1) :- SkipStrings(s, p, labels);
    var (name, p2) :- VarByte(s, p1);
    var (status, p3) :- Status(s, p2, wide);
    ReadTypedField(s, p3, name, status)
  }

  function ReadFields(s: Octets, p: nat, count: nat, wide: bool, labels: nat): (r: Parsed<seq<Parameter>>)
    requires p <= |s|
    ensures r.Forward(s, p)
    ensures r.Got? ==> |r.value| == count
    decreases count
  {
    if count == 0 then Got([], p) else
    var (field, p1) :- ReadField(s, p, wide, labels);
    var (more, p2) :- ReadFields(s, p1, count - 1, wide, labels);
    Got([field] + more, p2)
  }

  /** PARAMFMT, PARAMFMT2 and ROWFMT (no labels) and ROWFMT2 (four labels) bodies. */
  function ReadFormat(body: Octets, wide: bool, labels: nat): Parsed<seq<Parameter>> {
    var (count, p1) :- U16(body, 0, Truncated);
    if count > 1024 then Fail(ParameterCount) else
    var (fields, p2) :- ReadFields(body, p1, count, wide, labels);
    if p2 != |body| then Fail(TrailingBody) else Got(fields, p2)
  }

  function ReadAlternateFields(s: Octets, p: nat, count: nat): (r: Parsed<seq<Parameter>>)
    requires p <= |s|
    ensures r.Forward(s, p)
    ensures r.Got? ==> |r.value| == count
    decreases count
  {
    if count == 0 then Got([], p) else
    var (_, p1) :- Take(s, p, 2, Truncated);
    var (field, p2) :- ReadTypedField(s, p1, [], 0);
    var (more, p3) :- ReadAlternateFields(s, p2, count - 1);
    Got([field] + more, p3)
  }

  datatype AlternateFormat = AlternateFormat(computeId: nat, columns: seq<Parameter>)

  function ReadAlternateFormat(body: Octets): Parsed<AlternateFormat> {
    var (computeId, p1) :- U16(body, 0, Truncated);
    var (count, p2) :- U8(body, p1, Truncated);
    var (columns, p3) :- ReadAlternateFields(body, p2, count);
    var (_, p4) :- VarByte(body, p3);
    if p4 != |body| then Fail(TrailingBody) else Got(AlternateFormat(computeId, columns), p4)
  }

  // ----- Command bodies -----

  datatype CommandBody = CommandBody(identifier: Option<Octets>, text: Option<Octets>)

  /** A command body must be read to its last byte. */
  function Finish(command: CommandBody, body: Octets, p: nat): Parsed<CommandBody> {
    if p == |body| then Got(command, p) else Fail(TrailingBody)
  }

  /** DBRPC2 accepts an 8-, 16- or 32-bit name length, whichever fills the body exactly. */
  function ReadWideProcedure(body: Octets): Parsed<CommandBody> {
    if |body| >= 1 && 1 + body[0] as int + 2 == |body| then
      Got(CommandBody(Some(body[1..|body| - 2]), None), |body|)
    else if |body| >= 2 && 2 + FromU16Le(body[..2]) + 2 == |body| then
      Got(CommandBody(Some(body[2..|body| - 2]), None), |body|)
    else if |body| >= 4 && 4 + FromU32Le(body[..4]) + 2 == |body| then
      Got(CommandBody(Some(body[4..|body| - 2]), None), |body|)
    else
      Fail(NoExactProcedureName)
  }

  function ReadProcedure(body: Octets, wide: bool): Parsed<CommandBody> {
    if wide then ReadWideProcedure(body) else
    var (name, p1) :- VarByte(body, 0);
    var (_, p2) :- Take(body, p1, 2, Truncated);
    Finish(CommandBody(Some(name), None), body, p2)
  }

  function ReadDynamic(body: Octets, wide: bool): Parsed<CommandBody> {
    var (_, p1) :- Take(body, 0, 2, Truncated);
    var (identifier, p2) :- VarByte(body, p1);
    if p2 == |body| then Got(CommandBody(Some(identifier), None), p2) else
    var (text, p3) :- VarSized(body, p2, wide);
    Finish(CommandBody(Some(identifier), Some(text)), body, p3)
  }

  function ReadCursorDeclare(body: Octets, wide: bool): Parsed<CommandBody> {
    var (identifier, p1) :- VarByte(body, 0);
    var (_, p2) :- Status(body, p1, wide);
    var (_, p3) :- U8(body, p2, Truncated);
    var (text, p4) :- VarSized(body, p3, wide);
    var (columns, p5) :- U16(body, p4, Truncated);
    if columns > 1024 then Fail(UpdateColumnCount) else
    var (_, p6) :- SkipStrings(body, p5, columns);
    Finish(CommandBody(Some(identifier), Some(text)), body, p6)
  }

  function ReadOptionCommand(body: Octets): Parsed<CommandBody> {
    var (_, p1) :- Take(body, 0, 2, Truncated);
    var (_, p2) :- VarByte(body, p1);
    Finish(CommandBody(None, None), body, p2)
  }

  /** What each cursor command carries after its cursor id. */
  function ReadCursorTail(token: byte, name: CommandBody, body: Octets, p: nat): Parsed<CommandBody>
    requires p <= |body|
  {
    if token in {0x80, 0x84} then
      var (_, p1) :- U8(body, p, Truncated);
      Finish(name, body, p1)
    else if token == 0x81 then
      var (_, p1) :- U8(body, p, Truncated);
      var (_, p2) :- VarByte(body, p1);
      Finish(name, body, p2)
    else if token == 0x82 then
      var (fetch, p1) :- U8(body, p, Truncated);
      if fetch !in {5, 6} then Finish(name, body, p1) else
      var (_, p2) :- U32(body, p1, Truncated);
      Finish(name, body, p2)
    else if token == 0x83 then
      var (_, p1) :- U8(body, p, Truncated);
      var (status, p2) :- U16(body, p1, Truncated);
      if !Bit(status, 0x20) then Finish(name, body, p2) else
      var (_, p3) :- U32(body, p2, Truncated);
      Finish(name, body, p3)
    else if token == 0x85 then
      var (_, p1) :- U8(body, p, Truncated);
      var (_, p2) :- VarByte(body, p1);
      var (text, p3) :- VarShort(body, p2);
      Finish(name.(text := Some(text)), body, p3)
    else if token == 0x88 then
      var (_, p1) :- U8(body, p, Truncated);
      var (status, p2) :- U32(body, p1, Truncated);
      var (_, p3) :- Take(body, p2, 8, Truncated);
      if !Bit(status, 0x20) then Finish(name, body, p3) else
      var (_, p4) :- U32(body, p3, Truncated);
      Finish(name, body, p4)
    else
      Finish(name, body, p)
  }

  function ReadCursorCommand(token: byte, body: Octets): Parsed<CommandBody> {
    if token == 0x86 then ReadCursorDeclare(body, false)
    else if token == 0x87 then Got(CommandBody(None, None), |body|)
    else if token == 0xa6 then ReadOptionCommand(body)
    else
      var (id, p1) :- U32(body, 0, Truncated);
      if id != 0 then ReadCursorTail(token, CommandBody(None, None), body, p1) else
      var (identifier, p2) :- VarByte(body, p1);
      ReadCursorTail(token, CommandBody(Some(identifier), None), body, p2)
  }

  // ----- Values -----

  function ValueLength(s: Octets, p: nat, encoding: Encoding): (r: Parsed<nat>)
    requires p <= |s| && !encoding.Blob?
    ensures r.Forward(s, p)
  {
    match encoding
    case Fixed(size) => Got(size, p)
    case LengthU8 =>
      var (n, q) :- U8(s, p, Truncated);
      Got(n, q)
    case LengthU32 => U32(s, p, Truncated)
    case Lob =>
      var (pointer, p1) :- U8(s, p, Truncated);
      if pointer == 0 then Got(0, p1) else
      var (_, p2) :- Take(s, p1, pointer as int + 8, Truncated);
      U32(s, p2, Truncated)
  }

  /** The chunks of a BLOB value: the top bit of a chunk length marks the last one. */
  function BlobChunks(s: Octets, p: nat, value: Octets, chunks: nat, budget: nat): (r: Parsed<Octets>)
    requires p <= |s|
    ensures r.Forward(s, p)
    ensures r.Got? ==> |r.value| <= budget
    decreases |s| - p
  {
    var (framed, p1) :- U32(s, p, Truncated);
    var length := framed % 0x8000_0000;
    if |value| + length > budget then Fail(ValueBudget) else
    var (chunk, p2) :- Take(s, p1, length, Truncated);
    if chunks + 1 > 4096 then Fail(BlobChunkCount)
    else if framed >= 0x8000_0000 then Got(value + chunk, p2)
    else BlobChunks(s, p2, value + chunk, chunks + 1, budget)
  }

  function BlobHeader(s: Octets, p: nat, kind: byte): (r: Parsed<nat>)
    requires p <= |s|
    ensures r.Forward(s, p)
  {
    var (serialization, p1) :- U8(s, p, Truncated);
    if serialization > 2 || (serialization != 0 && kind != 5) then Fail(BlobSerialization)
    else if kind in {1, 2, 6, 7, 8} then
      var (_, p2) :- VarShort(s, p1);
      Got(serialization, p2)
    else
      Got(serialization, p1)
  }

  function BlobValue(s: Octets, p: nat, kind: byte, budget: nat): (r: Parsed<Octets>)
    requires p <= |s|
    ensures r.Forward(s, p)
    ensures r.Got? ==> |r.value| <= budget
  {
    var (_, q) :- BlobHeader(s, p, kind);
    BlobChunks(s, q, [], 0, budget)
  }

  function ReadValue(s: Octets, p: nat, encoding: Encoding, budget: nat): (r: Parsed<Octets>)
    requires p <= |s|
    ensures r.Forward(s, p)
    ensures r.Got? ==> |r.value| <= budget
  {
    if encoding.Blob? then BlobValue(s, p, encoding.kind, budget) else
    var (length, q) :- ValueLength(s, p, encoding);
    if length > budget then Fail(ValueBudget) else Take(s, q, length, Truncated)
  }

  /** One value with the status byte that a nullable column puts ahead of it. */
  function ReadCell(s: Octets, p: nat, column: Parameter, budget: nat): (r: Parsed<Octets>)
    requires p <= |s|
    ensures r.Forward(s, p)
    ensures r.Got? ==> |r.value| <= budget
    ensures r.Got? && column.maxLength.Some? ==> |r.value| <= column.maxLength.value
  {
    var (_, p1) :- Take(s, p, if Bit(column.status, 8) then 1 else 0, Truncated);
    var (value, p2) :- ReadValue(s, p1, column.encoding, budget);
    if column.maxLength.Some? && |value| > column.maxLength.value then Fail(ValueTooLong)
    else Got(value, p2)
  }

  /** A PARAMS, ROW or ALTROW body from column `i` on: one value per format entry, within one byte budget. */
  function ReadSet(s: Octets, p: nat, format: seq<Parameter>, i: nat, budget: nat): (r: Parsed<seq<Octets>>)
    requires p <= |s| && i <= |format|
    ensures r.Forward(s, p)
    ensures r.Got? ==> |r.value| == |format| - i
    decreases |format| - i
  {
    if i == |format| then Got([], p) else
    var (value, p1) :- ReadCell(s, p, format[i], budget);
    var (more, p2) :- ReadSet(s, p1, format, i + 1, budget - |value|);
    Got([value] + more, p2)
  }

  lemma {:induction false} SetWithinBudget(s: Octets, p: nat, format: seq<Parameter>, i: nat, budget: nat)
    requires p <= |s| && i <= |format| && ReadSet(s, p, format, i, budget).Got?
    ensures |Flatten(ReadSet(s, p, format, i, budget).value)| <= budget
    decreases |format| - i
  {
    hide ReadCell;
    if i < |format| {
      var cell := ReadCell(s, p, format[i], budget);
      SetWithinBudget(s, cell.next, format, i + 1, budget - |cell.value|);
      assert ReadSet(s, p, format, i, budget).value[1..] == ReadSet(s, cell.next, format, i + 1, budget - |cell.value|).value;
    }
  }

  method ReadBlobValue(s: Octets, p: nat, kind: byte, budget: nat) returns (r: Parsed<Octets>)
    requires p <= |s|
    ensures r == BlobValue(s, p, kind, budget)
  {
    var header := BlobHeader(s, p, kind);
    if header.Fail? {
      return Fail(header.error);
    }
    var position, value, chunks := header.next, [], 0;
    while true
      invariant position <= |s|
      invariant BlobValue(s, p, kind, budget) == BlobChunks(s, position, value, chunks, budget)
      decreases |s| - position
    {
      var framed := U32(s, position, Truncated);
      if framed.Fail? {
        return Fail(framed.error);
      }
      var length := framed.value % 0x8000_0000;
      if |value| + length > budget {
        return Fail(ValueBudget);
      }
      var chunk := Take(s, framed.next, length, Truncated);
      if chunk.Fail? {
        return Fail(chunk.error);
      }
      if chunks + 1 > 4096 {
        return Fail(BlobChunkCount);
      }
      value, position, chunks := value + chunk.value, chunk.next, chunks + 1;
      if framed.value >= 0x8000_0000 {
        return Got(value, position);
      }
    }
  }

  /** `whole` is `tail` with the values already read put back in front. */
  predicate Resumes(whole: Parsed<seq<Octets>>, done: seq<Octets>, tail: Parsed<seq<Octets>>) {
    match tail
    case Got(more, next) => whole == Got(done + more, next)
    case Fail(error) => whole == Fail(error)
  }

  lemma ResumesAfterCell(whole: Parsed<seq<Octets>>, done: seq<Octets>, value: Octets, tail: Parsed<seq<Octets>>)
    requires match tail
             case Got(more, next) => Resumes(whole, done, Got([value] + more, next))
             case Fail(error) => Resumes(whole, done, tail)
    ensures Resumes(whole, done + [value], tail)
  {
    if tail.Got? {
      assert done + ([value] + tail.value) == done + [value] + tail.value;
    }
  }

  /** The value loop shared by the three row-shaped tokens. */
  method ReadValues(s: Octets, p: nat, format: seq<Parameter>, budget: nat) returns (r: Parsed<seq<Octets>>)
    requires p <= |s|
    ensures r == ReadSet(s, p, format, 0, budget)
  {
    hide ReadCell;
    var position: nat, left: nat, i := p, budget, 0;
    var values := [];
    ghost var whole := ReadSet(s, p, format, 0, budget);
    assert whole.Got? ==> [] + whole.value == whole.value;
    while i < |format|
      invariant 0 <= i <= |format| && position <= |s|
      invariant Resumes(whole, values, ReadSet(s, position, format, i, left))
    {
      var cell := ReadCell(s, position, format[i], left);
      if cell.Fail? {
        return Fail(cell.error);
      }
      ResumesAfterCell(whole, values, cell.value, ReadSet(s, cell.next, format, i + 1, left - |cell.value|));
      values, position, left := values + [cell.value], cell.next, left - |cell.value|;
      i := i + 1;
    }
    assert values + [] == values;
    r := Got(values, position);
  }
}
