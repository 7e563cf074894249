/**
 The TDS 7 result-token printer: messages, column metadata, rows and DONE tokens
 appended to one output buffer. `wide` is TDS 7.2 or later.
 */
module Tokens {
  import opened Bytes

  type unit = u: int | 0 <= u <= 0xFFFF

  /** A string as its UTF-16 units. */
  type Text = seq<unit>

  datatype Error = ColumnLimit | RowWidth | CellLimit | TokenLimit

  datatype ResultSet = ResultSet(columns: seq<Text>, rows: seq<seq<Option<Text>>>)

  datatype Notice = Notice(number: nat, state: byte, class_: byte, message: Text)

  const COLMETADATA: byte := 0x81
  const ROW: byte := 0xd1
  const DONE: byte := 0xfd
  const DONEPROC: byte := 0xfe
  const ERROR: byte := 0xaa
  const INFO: byte := 0xab
  const DONE_MORE := 0x0001
  const DONE_ERROR := 0x0002
  const DONE_COUNT := 0x0010

  // ----- Strings -----

  function Utf16(text: Text): (s: Octets)
    ensures |s| == 2 * |text|
  {
    if text == [] then [] else U16Le(text[0]) + Utf16(text[1..])
  }

  function Cut(text: Text, n: nat): (t: Text)
    ensures |t| <= n && |t| <= |text|
  {
    text[..Min(|text|, n)]
  }

  function ByteText(text: Text): Octets {
    [|Cut(text, 255)|] + Utf16(Cut(text, 255))
  }

  function ShortText(text: Text): Octets {
    U16Le(|Cut(text, U16_MAX)|) + Utf16(Cut(text, U16_MAX))
  }

  // ----- Tokens -----

  function UserType(wide: bool): Octets {
    if wide then U32Le(0) else U16Le(0)
  }

  const NVARCHAR_8000: Octets := U16Le(1) + [0xe7] + U16Le(8000) + [0x09, 0x04, 0xd0, 0x00, 0x34]

  function ColumnWire(wide: bool, name: Text): Octets {
    UserType(wide) + NVARCHAR_8000 + ByteText(name)
  }

  function ColumnsWire(wide: bool, names: seq<Text>): Octets {
    if names == [] then [] else ColumnWire(wide, names[0]) + ColumnsWire(wide, names[1..])
  }

  function Metadata(wide: bool, columns: seq<Text>): Result<Octets, Error> {
    if |columns| > U16_MAX then Err(ColumnLimit)
    else Ok([COLMETADATA] + (U16Le(|columns|) + ColumnsWire(wide, columns)))
  }

  function CellWire(cell: Option<Text>): Result<Octets, Error> {
    match cell
    case None => Ok(U16Le(U16_MAX))
    case Some(text) => if 2 * |text| > U16_MAX then Err(CellLimit) else Ok(U16Le(2 * |text|) + Utf16(text))
  }

  function CellsWire(cells: seq<Option<Text>>): Result<Octets, Error> {
    if cells == [] then Ok([]) else
    var first :- CellWire(cells[0]);
    var rest :- CellsWire(cells[1..]);
    Ok(first + rest)
  }

  function RowWire(row: seq<Option<Text>>, width: nat): Result<Octets, Error> {
    if |row| != width then Err(RowWidth) else
    var cells :- CellsWire(row);
    Ok([ROW] + cells)
  }

  function RowsWire(rows: seq<seq<Option<Text>>>, width: nat): Result<Octets, Error> {
    if rows == [] then Ok([]) else
    var first :- RowWire(rows[0], width);
    var rest :- RowsWire(rows[1..], width);
    Ok(first + rest)
  }

  function DoneCount(wide: bool, count: nat): nat {
    Min(count, if wide then U64_MAX else U32_MAX)
  }

  function DoneWire(wide: bool, proc: bool, status: nat, count: nat): Octets
    requires status <= U16_MAX
  {
    [if proc then DONEPROC else DONE] + (U16Le(status) + (U16Le(0) +
    (if wide then U64Le(DoneCount(true, count)) else U32Le(DoneCount(false, count)))))
  }

  function NoticeBody(wide: bool, notice: Notice, server: Text): Octets
    requires notice.number <= U32_MAX
  {
    U32Le(notice.number) + ([notice.state, notice.class_] + (ShortText(notice.message) +
    (ByteText(server) + (ByteText([]) + UserType(wide)))))
  }

  function NoticeWire(wide: bool, token: byte, notice: Notice, server: Text): Result<Octets, Error>
    requires notice.number <= U32_MAX
  {
    var body := NoticeBody(wide, notice, server);
    if |body| > U16_MAX then Err(TokenLimit) else Ok([token] + (U16Le(|body|) + body))
  }

  function Information(message: Text): Notice {
    Notice(0, 1, 0, message)
  }

  function MessagesWire(wide: bool, messages: seq<Text>, server: Text): Result<Octets, Error> {
    if messages == [] then Ok([]) else
    var first :- NoticeWire(wide, INFO, Information(messages[0]), server);
    var rest :- MessagesWire(wide, messages[1..], server);
    Ok(first + rest)
  }

  /** MORE on every set but the last, COUNT on all. */
  function SetStatus(last: bool): nat {
    DONE_COUNT + if last then 0 else DONE_MORE
  }

  function SetWire(wide: bool, proc: bool, set_: ResultSet, last: bool): Result<Octets, Error> {
    var columns :- Metadata(wide, set_.columns);
    var rows :- RowsWire(set_.rows, |set_.columns|);
    Ok(columns + (rows + DoneWire(wide, proc, SetStatus(last), |set_.rows|)))
  }

  function SetsWire(wide: bool, proc: bool, sets: seq<ResultSet>): Result<Octets, Error> {
    if sets == [] then Ok([]) else
    var first :- SetWire(wide, proc, sets[0], |sets| == 1);
    var rest :- SetsWire(wide, proc, sets[1..]);
    Ok(first + rest)
  }

  function Response(
    wide: bool, proc: bool, sets: seq<ResultSet>, messages: seq<Text>, failure: Option<Notice>, server: Text
  ): Result<Octets, Error>
    requires failure.Some? ==> failure.value.number <= U32_MAX
  {
    var head :- MessagesWire(wide, messages, server);
    if failure.Some? then
      var text :- NoticeWire(wide, ERROR, failure.value, server);
      Ok(head + (text + DoneWire(wide, proc, DONE_ERROR, 0)))
    else if sets == [] then Ok(head + DoneWire(wide, proc, 0, 0))
    else
      var body :- SetsWire(wide, proc, sets);
      Ok(head + body)
  }

  // ----- The same, appended to an output buffer -----

  /** Wire appended to a buffer, or the error in its place. */
  function Onto(out: Octets, wire: Result<Octets, Error>): Result<Octets, Error> {
    if wire.Ok? then Ok(out + wire.value) else wire
  }

  method AppendColumns(out: Octets, wide: bool, columns: seq<Text>) returns (r: Result<Octets, Error>)
    ensures r == Onto(out, Metadata(wide, columns))
  {
    if |columns| > U16_MAX {
      return Err(ColumnLimit);
    }
    hide ColumnWire;
    var start := out + [COLMETADATA] + U16Le(|columns|);
    var buffer := start;
    assert columns[0..] == columns;
    for i := 0 to |columns|
      invariant buffer + ColumnsWire(wide, columns[i..]) == start + ColumnsWire(wide, columns)
    {
      assert columns[i..][1..] == columns[i + 1..];
      ConcatAssoc(buffer, ColumnWire(wide, columns[i]), ColumnsWire(wide, columns[i + 1..]));
      buffer := buffer + ColumnWire(wide, columns[i]);
    }
    assert buffer + [] == buffer;
    ConcatAssoc(out, [COLMETADATA], U16Le(|columns|));
    ConcatAssoc([COLMETADATA], U16Le(|columns|), ColumnsWire(wide, columns));
    ConcatAssoc(out, [COLMETADATA] + U16Le(|columns|), ColumnsWire(wide, columns));
    r := Ok(buffer);
  }

  method AppendRow(out: Octets, row: seq<Option<Text>>, width: nat) returns (r: Result<Octets, Error>)
    ensures r == Onto(out, RowWire(row, width))
  {
    if |row| != width {
      return Err(RowWidth);
    }
    hide CellWire;
    var buffer := out + [ROW];
    assert row[0..] == row;
    for i := 0 to |row|
      invariant Onto(buffer, CellsWire(row[i..])) == Onto(out + [ROW], CellsWire(row))
    {
      assert row[i..][1..] == row[i + 1..];
      var cell :- CellWire(row[i]);
      var rest := CellsWire(row[i + 1..]);
      if rest.Ok? {
        ConcatAssoc(buffer, cell, rest.value);
      }
      buffer := buffer + cell;
    }
    assert buffer + [] == buffer;
    ghost var cells := CellsWire(row);
    ConcatAssoc(out, [ROW], cells.value);
    r := Ok(buffer);
  }

  method AppendRows(out: Octets, rows: seq<seq<Option<Text>>>, width: nat) returns (r: Result<Octets, Error>)
    ensures r == Onto(out, RowsWire(rows, width))
  {
    hide RowWire;
    var buffer := out;
    assert rows[0..] == rows;
    for i := 0 to |rows|
      invariant Onto(buffer, RowsWire(rows[i..], width)) == Onto(out, RowsWire(rows, width))
    {
      assert rows[i..][1..] == rows[i + 1..];
      ghost var first, rest := RowWire(rows[i], width), RowsWire(rows[i + 1..], width);
      if first.Ok? && rest.Ok? {
        ConcatAssoc(buffer, first.value, rest.value);
      }
      buffer :- AppendRow(buffer, rows[i], width);
    }
    assert buffer + [] == buffer;
    r := Ok(buffer);
  }

  method AppendSet(out: Octets, wide: bool, proc: bool, set_: ResultSet, last: bool) returns (r: Result<Octets, Error>)
    ensures r == Onto(out, SetWire(wide, proc, set_, last))
  {
    hide Metadata, RowsWire, DoneWire;
    ghost var columns, rows := Metadata(wide, set_.columns), RowsWire(set_.rows, |set_.columns|);
    var buffer :- AppendColumns(out, wide, set_.columns);
    buffer :- AppendRows(buffer, set_.rows, |set_.columns|);
    var done := DoneWire(wide, proc, SetStatus(last), |set_.rows|);
    ConcatAssoc(out, columns.value, rows.value);
    ConcatAssoc(columns.value, rows.value, done);
    ConcatAssoc(out, columns.value + rows.value, done);
    r := Ok(buffer + done);
  }

  method AppendMessages(out: Octets, wide: bool, messages: seq<Text>, server: Text) returns (r: Result<Octets, Error>)
    ensures r == Onto(out, MessagesWire(wide, messages, server))
  {
    hide NoticeWire;
    var buffer := out;
    assert messages[0..] == messages;
    for i := 0 to |messages|
      invariant Onto(buffer, MessagesWire(wide, messages[i..], server)) == Onto(out, MessagesWire(wide, messages, server))
    {
      assert messages[i..][1..] == messages[i + 1..];
      ghost var rest := MessagesWire(wide, messages[i + 1..], server);
      var notice :- NoticeWire(wide, INFO, Information(messages[i]), server);
      if rest.Ok? {
        ConcatAssoc(buffer, notice, rest.value);
      }
      buffer := buffer + notice;
    }
    assert buffer + [] == buffer;
    r := Ok(buffer);
  }

  method EncodeResponse(
    wide: bool, proc: bool, sets: seq<ResultSet>, messages: seq<Text>, failure: Option<Notice>, server: Text
  ) returns (r: Result<Octets, Error>)
    requires failure.Some? ==> failure.value.number <= U32_MAX
    ensures r == Response(wide, proc, sets, messages, failure, server)
  {
    hide MessagesWire, NoticeWire, DoneWire, SetWire;
    var head :- AppendMessages([], wide, messages, server);
    assert head == MessagesWire(wide, messages, server).value;
    if failure.Some? {
      var text :- NoticeWire(wide, ERROR, failure.value, server);
      ConcatAssoc(head, text, DoneWire(wide, proc, DONE_ERROR, 0));
      return Ok(head + text + DoneWire(wide, proc, DONE_ERROR, 0));
    }
    var buffer := head;
    assert sets[0..] == sets;
    for i := 0 to |sets|
      invariant Onto(buffer, SetsWire(wide, proc, sets[i..])) == Onto(head, SetsWire(wide, proc, sets))
    {
      assert sets[i..][1..] == sets[i + 1..];
      ghost var first, rest := SetWire(wide, proc, sets[i], i + 1 == |sets|), SetsWire(wide, proc, sets[i + 1..]);
      if first.Ok? && rest.Ok? {
        ConcatAssoc(buffer, first.value, rest.value);
      }
      buffer :- AppendSet(buffer, wide, proc, sets[i], i + 1 == |sets|);
    }
    assert buffer + [] == buffer && head + [] == head;
    if sets == [] {
      buffer := buffer + DoneWire(wide, proc, 0, 0);
    }
    r := Ok(buffer);
  }
}
