/** A TDS 7 client's reading of the token stream, and the proof that it recovers what the server meant. */
module TokenClient {
  import opened Bytes
  import opened Reading
  import opened Tokens

  /** A column as it is announced: its name and the most bytes a cell of it may have. */
  datatype Column = Column(name: Text, maximum: nat)

  datatype Item =
    | Columns(columns: seq<Column>)
    | Row(cells: seq<Option<Text>>)
    | Done(proc: bool, status: nat, count: nat)
    | Failure(notice: Notice, server: Text)
    | Info(notice: Notice, server: Text)

  /** A client gives up on anything it does not understand. */
  datatype Loss = Lost

  type Parsed<+T> = Attempt<T, Loss>

  function ReadUnits(s: Octets, p: nat, n: nat): (r: Parsed<Text>)
    ensures r.Got? ==> r.next == p + 2 * n
    decreases n
  {
    if n == 0 then Got([], p) else
    var (first, p1) :- U16(s, p, Lost);
    var (rest, p2) :- ReadUnits(s, p1, n - 1);
    Got([first] + rest, p2)
  }

  function ReadByteText(s: Octets, p: nat): (r: Parsed<Text>)
    ensures r.Got? ==> r.next > p
  {
    var (n, p1) :- U8(s, p, Lost);
    ReadUnits(s, p1, n)
  }

  function ReadShortText(s: Octets, p: nat): (r: Parsed<Text>)
    ensures r.Got? ==> r.next > p
  {
    var (n, p1) :- U16(s, p, Lost);
    ReadUnits(s, p1, n)
  }

  /** One column of NVARCHAR; any other type is beyond this client. */
  function ReadColumn(s: Octets, p: nat, wide: bool): (r: Parsed<Column>)
    ensures r.Got? ==> r.next > p
  {
    var skip := if wide then 4 else 2;
    var (flags, p1) :- U16(s, p + skip, Lost);
    var (ty, p2) :- U8(s, p1, Lost);
    if ty != 0xe7 then Fail(Lost) else
    var (max, p3) :- U16(s, p2, Lost);
    if max == U16_MAX || p3 + 5 > |s| then Fail(Lost) else
    var (name, p4) :- ReadByteText(s, p3 + 5);
    Got(Column(name, max), p4)
  }

  function ReadColumns(s: Octets, p: nat, wide: bool, n: nat): (r: Parsed<seq<Column>>)
    ensures r.Got? ==> r.next >= p && |r.value| == n
    decreases n
  {
    if n == 0 then Got([], p) else
    var (first, p1) :- ReadColumn(s, p, wide);
    var (rest, p2) :- ReadColumns(s, p1, wide, n - 1);
    Got([first] + rest, p2)
  }

  /** 0xFFFF is NULL; any other length counts bytes of UTF-16. */
  function ReadCell(s: Octets, p: nat): (r: Parsed<Option<Text>>)
    ensures r.Got? ==> r.next > p
  {
    var (n, p1) :- U16(s, p, Lost);
    if n == U16_MAX then Got(None, p1)
    else if n % 2 == 1 then Fail(Lost)
    else
      var (text, p2) :- ReadUnits(s, p1, n / 2);
      Got(Some(text), p2)
  }

  function ReadCells(s: Octets, p: nat, n: nat): (r: Parsed<seq<Option<Text>>>)
    ensures r.Got? ==> r.next >= p
    decreases n
  {
    if n == 0 then Got([], p) else
    var (first, p1) :- ReadCell(s, p);
    var (rest, p2) :- ReadCells(s, p1, n - 1);
    Got([first] + rest, p2)
  }

  function ReadNotice(s: Octets, p: nat, wide: bool): (r: Parsed<(Notice, Text)>)
    ensures r.Got? ==> r.next > p
  {
    var (length, p0) :- U16(s, p, Lost);
    var (number, p1) :- U32(s, p0, Lost);
    var (state, p2) :- U8(s, p1, Lost);
    var (class_, p3) :- U8(s, p2, Lost);
    var (message, p4) :- ReadShortText(s, p3);
    var (server, p5) :- ReadByteText(s, p4);
    var (procedure, p6) :- ReadByteText(s, p5);
    var end := p6 + if wide then 4 else 2;
    if end > |s| || end != p0 + length then Fail(Lost) else Got((Notice(number, state, class_, message), server), end)
  }

  function ReadDone(s: Octets, p: nat, wide: bool): (r: Parsed<(nat, nat)>)
    ensures r.Got? ==> r.next > p
  {
    var (status, p1) :- U16(s, p, Lost);
    var (command, p2) :- U16(s, p1, Lost);
    var (count, p3) :- if wide then U64(s, p2, Lost) else U32(s, p2, Lost);
    Got((status, count), p3)
  }

  function Prepend(items: seq<Item>, rest: Parsed<seq<Item>>): Parsed<seq<Item>> {
    if rest.Got? then Got(items + rest.value, rest.next) else Fail(Lost)
  }

  /** Tokens up to a DONE without MORE; `width` is the column count in force. */
  function ReadItems(s: Octets, p: nat, wide: bool, width: nat): Parsed<seq<Item>>
    decreases |s| - p
  {
    var (token, p1) :- U8(s, p, Lost);
    if token == COLMETADATA then
      var (n, p2) :- U16(s, p1, Lost);
      if n == U16_MAX then
        Prepend([Columns([])], ReadItems(s, p2, wide, width))
      else
        var (columns, p3) :- ReadColumns(s, p2, wide, n);
        Prepend([Columns(columns)], ReadItems(s, p3, wide, n))
    else if token == ROW then
      var (cells, p2) :- ReadCells(s, p1, width);
      Prepend([Row(cells)], ReadItems(s, p2, wide, width))
    else if token == DONE || token == DONEPROC then
      var ((status, count), p2) :- ReadDone(s, p1, wide);
      var item := Done(token == DONEPROC, status, count);
      if status % 2 == 1 then Prepend([item], ReadItems(s, p2, wide, width)) else Got([item], p2)
    else if token == ERROR || token == INFO then
      var ((notice, server), p2) :- ReadNotice(s, p1, wide);
      Prepend([if token == ERROR then Failure(notice, server) else Info(notice, server)], ReadItems(s, p2, wide, width))
    else Fail(Lost)
  }

  // ----- Strings and numbers -----

  lemma {:induction false} UnitsAt(s: Octets, p: nat, text: Text)
    requires At(s, p, Utf16(text))
    ensures ReadUnits(s, p, |text|) == Got(text, p + 2 * |text|)
    decreases |text|
  {
    hide At, U16, U16Le;
    if text != [] {
      AtSplit(s, p, U16Le(text[0]), Utf16(text[1..]));
      U16At(s, p, text[0], Lost);
      UnitsAt(s, p + 2, text[1..]);
      assert [text[0]] + text[1..] == text;
    }
  }

  lemma ByteTextAt(s: Octets, p: nat, text: Text)
    requires At(s, p, ByteText(text))
    ensures ReadByteText(s, p) == Got(Cut(text, 255), p + |ByteText(text)|)
  {
    hide At, U8, ReadUnits, Utf16;
    var cut := Cut(text, 255);
    AtSplit(s, p, [|cut|], Utf16(cut));
    U8At(s, p, |cut|, Lost);
    UnitsAt(s, p + 1, cut);
  }

  lemma ShortTextAt(s: Octets, p: nat, text: Text)
    requires At(s, p, ShortText(text))
    ensures ReadShortText(s, p) == Got(Cut(text, U16_MAX), p + |ShortText(text)|)
  {
    hide At, U16, ReadUnits, Utf16, U16Le;
    var cut := Cut(text, U16_MAX);
    AtSplit(s, p, U16Le(|cut|), Utf16(cut));
    U16At(s, p, |cut|, Lost);
    UnitsAt(s, p + 2, cut);
  }

  // ----- Metadata and rows -----

  const MAXIMUM := 8000

  function Announced(columns: seq<Text>): seq<Column> {
    seq(|columns|, i requires 0 <= i < |columns| => Column(Cut(columns[i], 255), MAXIMUM))
  }

  lemma ColumnAt(s: Octets, p: nat, wide: bool, name: Text)
    requires At(s, p, ColumnWire(wide, name))
    ensures ReadColumn(s, p, wide) == Got(Column(Cut(name, 255), MAXIMUM), p + |ColumnWire(wide, name)|)
  {
    hide ReadByteText, ByteText;
    AtSplit(s, p, UserType(wide) + NVARCHAR_8000, ByteText(name));
    AtSplit(s, p, UserType(wide), NVARCHAR_8000);
    var q := p + |UserType(wide)|;
    assert |NVARCHAR_8000| == 10;
    AtByte(s, q, NVARCHAR_8000, 2);
    AtByte(s, q, NVARCHAR_8000, 3);
    AtByte(s, q, NVARCHAR_8000, 4);
    assert s[q + 3..q + 5] == [s[q + 3], s[q + 4]];
    ByteTextAt(s, q + 10, name);
  }

  lemma {:induction false} ColumnsAt(s: Octets, p: nat, wide: bool, columns: seq<Text>)
    requires At(s, p, ColumnsWire(wide, columns))
    ensures ReadColumns(s, p, wide, |columns|) == Got(Announced(columns), p + |ColumnsWire(wide, columns)|)
    decreases |columns|
  {
    hide At, ReadColumn, ColumnWire, Cut;
    if columns == [] {
      assert Announced(columns) == [];
    } else {
      AtSplit(s, p, ColumnWire(wide, columns[0]), ColumnsWire(wide, columns[1..]));
      ColumnAt(s, p, wide, columns[0]);
      ColumnsAt(s, p + |ColumnWire(wide, columns[0])|, wide, columns[1..]);
      assert [Column(Cut(columns[0], 255), MAXIMUM)] + Announced(columns[1..]) == Announced(columns);
    }
  }

  /** NULL and text never meet: the marker is odd, a text's byte length is even. */
  lemma CellAt(s: Octets, p: nat, cell: Option<Text>)
    requires CellWire(cell).Ok? && At(s, p, CellWire(cell).value)
    ensures ReadCell(s, p) == Got(cell, p + |CellWire(cell).value|)
  {
    hide At, U16, ReadUnits, Utf16, U16Le;
    match cell
    case None => U16At(s, p, U16_MAX, Lost);
    case Some(text) =>
      AtSplit(s, p, U16Le(2 * |text|), Utf16(text));
      U16At(s, p, 2 * |text|, Lost);
      UnitsAt(s, p + 2, text);
  }

  lemma {:induction false} CellsAt(s: Octets, p: nat, cells: seq<Option<Text>>)
    requires CellsWire(cells).Ok? && At(s, p, CellsWire(cells).value)
    ensures ReadCells(s, p, |cells|) == Got(cells, p + |CellsWire(cells).value|)
    decreases |cells|
  {
    hide At, ReadCell, CellWire;
    if cells != [] {
      var first, rest := CellWire(cells[0]).value, CellsWire(cells[1..]).value;
      AtSplit(s, p, first, rest);
      CellAt(s, p, cells[0]);
      CellsAt(s, p + |first|, cells[1..]);
      assert [cells[0]] + cells[1..] == cells;
    }
  }

  // ----- Whole tokens -----

  lemma PrependPrepend(a: seq<Item>, b: seq<Item>, rest: Parsed<seq<Item>>)
    ensures Prepend(a, Prepend(b, rest)) == Prepend(a + b, rest)
  {
    if rest.Got? {
      ConcatAssoc(a, b, rest.value);
    }
  }

  lemma MetadataAt(s: Octets, p: nat, wide: bool, width: nat, columns: seq<Text>)
    requires |columns| < U16_MAX && At(s, p, Metadata(wide, columns).value)
    ensures ReadItems(s, p, wide, width) ==
            Prepend([Columns(Announced(columns))],
                    ReadItems(s, p + |Metadata(wide, columns).value|, wide, |columns|))
  {
    hide At, U8, U16, ReadColumns, ColumnsWire, ReadItems, U16Le, Announced;
    var wire := ColumnsWire(wide, columns);
    AtSplit(s, p, [COLMETADATA], U16Le(|columns|) + wire);
    AtSplit(s, p + 1, U16Le(|columns|), wire);
    U8At(s, p, COLMETADATA, Lost);
    U16At(s, p + 1, |columns|, Lost);
    ColumnsAt(s, p + 3, wide, columns);
    ItemsStep(s, p, wide, width);
  }

  lemma RowAt(s: Octets, p: nat, wide: bool, row: seq<Option<Text>>)
    requires RowWire(row, |row|).Ok? && At(s, p, RowWire(row, |row|).value)
    ensures ReadItems(s, p, wide, |row|) ==
            Prepend([Row(row)], ReadItems(s, p + |RowWire(row, |row|).value|, wide, |row|))
  {
    hide At, U8, ReadCells, CellsWire, ReadItems;
    AtSplit(s, p, [ROW], CellsWire(row).value);
    U8At(s, p, ROW, Lost);
    CellsAt(s, p + 1, row);
    ItemsStep(s, p, wide, |row|);
  }

  lemma DoneAt(s: Octets, p: nat, wide: bool, width: nat, proc: bool, status: nat, count: nat)
    requires status <= U16_MAX && At(s, p, DoneWire(wide, proc, status, count))
    ensures
      var item, end := Done(proc, status, DoneCount(wide, count)), p + |DoneWire(wide, proc, status, count)|;
      ReadItems(s, p, wide, width) ==
      if status % 2 == 1 then Prepend([item], ReadItems(s, end, wide, width)) else Got([item], end)
  {
    hide At, U8, U16, U32, U64, ReadItems, U16Le, U32Le, U64Le;
    var token := if proc then DONEPROC else DONE;
    var tail := if wide then U64Le(DoneCount(true, count)) else U32Le(DoneCount(false, count));
    AtSplit(s, p, [token], U16Le(status) + (U16Le(0) + tail));
    AtSplit(s, p + 1, U16Le(status), U16Le(0) + tail);
    AtSplit(s, p + 3, U16Le(0), tail);
    U8At(s, p, token, Lost);
    U16At(s, p + 1, status, Lost);
    U16At(s, p + 3, 0, Lost);
    if wide {
      U64At(s, p + 5, DoneCount(true, count), Lost);
    } else {
      U32At(s, p + 5, DoneCount(false, count), Lost);
    }
    ItemsStep(s, p, wide, width);
  }

  /** One token read, in terms of the readers of its parts. */
  lemma ItemsStep(s: Octets, p: nat, wide: bool, width: nat)
    requires U8(s, p, Lost).Got?
    ensures
      var token, p1 := U8(s, p, Lost).value, U8(s, p, Lost).next;
      && (token == COLMETADATA && U16(s, p1, Lost).Got? && U16(s, p1, Lost).value < U16_MAX ==>
            var n, p2 := U16(s, p1, Lost).value, U16(s, p1, Lost).next;
            ReadColumns(s, p2, wide, n).Got? ==>
              ReadItems(s, p, wide, width) ==
              Prepend([Columns(ReadColumns(s, p2, wide, n).value)],
                      ReadItems(s, ReadColumns(s, p2, wide, n).next, wide, n)))
      && (token == ROW && ReadCells(s, p1, width).Got? ==>
            ReadItems(s, p, wide, width) ==
            Prepend([Row(ReadCells(s, p1, width).value)], ReadItems(s, ReadCells(s, p1, width).next, wide, width)))
      && ((token == DONE || token == DONEPROC) && ReadDone(s, p1, wide).Got? ==>
            var ((status, count), p2) := ReadDone(s, p1, wide).Extract();
            var item := Done(token == DONEPROC, status, count);
            ReadItems(s, p, wide, width) ==
            if status % 2 == 1 then Prepend([item], ReadItems(s, p2, wide, width)) else Got([item], p2))
      && ((token == ERROR || token == INFO) && ReadNotice(s, p1, wide).Got? ==>
            var ((notice, server), p2) := ReadNotice(s, p1, wide).Extract();
            ReadItems(s, p, wide, width) ==
            Prepend([if token == ERROR then Failure(notice, server) else Info(notice, server)],
                    ReadItems(s, p2, wide, width)))
  {
    hide U16, ReadColumns, ReadCells, ReadDone, ReadNotice;
  }

  lemma NoticeBodyAt(s: Octets, p: nat, wide: bool, notice: Notice, server: Text)
    requires notice.number <= U32_MAX && |NoticeBody(wide, notice, server)| <= U16_MAX
    requires At(s, p, U16Le(|NoticeBody(wide, notice, server)|) + NoticeBody(wide, notice, server))
    ensures ReadNotice(s, p, wide) ==
            Got((notice, Cut(server, 255)), p + 2 + |NoticeBody(wide, notice, server)|)
  {
    hide At, U8, U16, U32, U16Le, U32Le, ReadByteText, ReadShortText, ByteText, ShortText;
    var body := NoticeBody(wide, notice, server);
    var text, host, none, line := ShortText(notice.message), ByteText(server), ByteText([]), UserType(wide);
    AtSplit(s, p, U16Le(|body|), body);
    U16At(s, p, |body|, Lost);
    var q := p + 2;
    AtSplit(s, q, U32Le(notice.number), [notice.state, notice.class_] + (text + (host + (none + line))));
    U32At(s, q, notice.number, Lost);
    AtSplit(s, q + 4, [notice.state, notice.class_], text + (host + (none + line)));
    TwoOctets(s, q + 4, notice.state, notice.class_);
    AtSplit(s, q + 6, text, host + (none + line));
    ShortTextAt(s, q + 6, notice.message);
    var q1 := q + 6 + |text|;
    AtSplit(s, q1, host, none + line);
    ByteTextAt(s, q1, server);
    AtSplit(s, q1 + |host|, none, line);
    ByteTextAt(s, q1 + |host|, []);
    AtIn(s, q1 + |host| + |none|, line);
    WholeMessage(notice.message, |body|);
  }

  lemma TwoOctets(s: Octets, p: nat, a: byte, b: byte)
    requires At(s, p, [a, b])
    ensures U8(s, p, Lost) == Got(a, p + 1) && U8(s, p + 1, Lost) == Got(b, p + 2)
  {
    AtByte(s, p, [a, b], 0);
    AtByte(s, p, [a, b], 1);
  }

  /** A message that fits its token is not cut. */
  lemma WholeMessage(message: Text, room: nat)
    requires |ShortText(message)| <= room <= U16_MAX
    ensures Cut(message, U16_MAX) == message
  {
  }

  lemma NoticeAt(s: Octets, p: nat, wide: bool, width: nat, token: byte, notice: Notice, server: Text)
    requires notice.number <= U32_MAX && (token == ERROR || token == INFO)
    requires NoticeWire(wide, token, notice, server).Ok? && At(s, p, NoticeWire(wide, token, notice, server).value)
    ensures
      var host := Cut(server, 255);
      ReadItems(s, p, wide, width) ==
      Prepend([if token == ERROR then Failure(notice, host) else Info(notice, host)],
              ReadItems(s, p + |NoticeWire(wide, token, notice, server).value|, wide, width))
  {
    hide At, U8, ReadItems, NoticeBody, ReadNotice, U16Le;
    var body := NoticeBody(wide, notice, server);
    AtSplit(s, p, [token], U16Le(|body|) + body);
    U8At(s, p, token, Lost);
    NoticeBodyAt(s, p + 1, wide, notice, server);
    ItemsStep(s, p, wide, width);
  }

  // ----- The whole response -----

  function RowItems(rows: seq<seq<Option<Text>>>): seq<Item> {
    seq(|rows|, i requires 0 <= i < |rows| => Row(rows[i]))
  }

  lemma {:induction false} RowsAt(s: Octets, p: nat, wide: bool, rows: seq<seq<Option<Text>>>, width: nat)
    requires RowsWire(rows, width).Ok? && At(s, p, RowsWire(rows, width).value)
    ensures ReadItems(s, p, wide, width) ==
            Prepend(RowItems(rows), ReadItems(s, p + |RowsWire(rows, width).value|, wide, width))
    decreases |rows|
  {
    hide At, ReadItems;
    if rows == [] {
      assert RowItems(rows) == [];
      NoItems(ReadItems(s, p, wide, width));
    } else {
      RowsStep(rows, width);
      var first, rest := RowWire(rows[0], width).value, RowsWire(rows[1..], width).value;
      AtSplit(s, p, first, rest);
      RowAt(s, p, wide, rows[0]);
      RowsAt(s, p + |first|, wide, rows[1..], width);
      assert RowItems(rows) == [Row(rows[0])] + RowItems(rows[1..]);
      PrependPrepend([Row(rows[0])], RowItems(rows[1..]),
                     ReadItems(s, p + |RowsWire(rows, width).value|, wide, width));
    }
  }

  lemma NoItems(rest: Parsed<seq<Item>>)
    ensures Prepend([], rest) == rest
  {
    if rest.Got? {
      assert [] + rest.value == rest.value;
    } else {
      assert rest.error == Lost;
    }
  }

  lemma RowsStep(rows: seq<seq<Option<Text>>>, width: nat)
    requires rows != [] && RowsWire(rows, width).Ok?
    ensures |rows[0]| == width && RowWire(rows[0], width).Ok? && RowsWire(rows[1..], width).Ok?
    ensures RowsWire(rows, width).value == RowWire(rows[0], width).value + RowsWire(rows[1..], width).value
  {
  }

  function SetItems(wide: bool, proc: bool, set_: ResultSet, last: bool): seq<Item> {
    [Columns(Announced(set_.columns))] +
    (RowItems(set_.rows) + [Done(proc, SetStatus(last), DoneCount(wide, |set_.rows|))])
  }

  lemma SetAt(s: Octets, p: nat, wide: bool, width: nat, proc: bool, set_: ResultSet, last: bool)
    requires |set_.columns| < U16_MAX
    requires SetWire(wide, proc, set_, last).Ok? && At(s, p, SetWire(wide, proc, set_, last).value)
    ensures
      var end := p + |SetWire(wide, proc, set_, last).value|;
      ReadItems(s, p, wide, width) ==
      if last then Got(SetItems(wide, proc, set_, last), end)
      else Prepend(SetItems(wide, proc, set_, last), ReadItems(s, end, wide, |set_.columns|))
  {
    hide At, ReadItems, Metadata, RowsWire, DoneWire, RowItems, Announced, DoneCount;
    var n := |set_.columns|;
    var columns, rows := Metadata(wide, set_.columns).value, RowsWire(set_.rows, n).value;
    var status := SetStatus(last);
    var done := DoneWire(wide, proc, status, |set_.rows|);
    var item := Done(proc, status, DoneCount(wide, |set_.rows|));
    var end := p + |columns| + |rows| + |done|;
    AtSplit(s, p, columns, rows + done);
    AtSplit(s, p + |columns|, rows, done);
    MetadataAt(s, p, wide, width, set_.columns);
    RowsAt(s, p + |columns|, wide, set_.rows, n);
    DoneAt(s, p + |columns| + |rows|, wide, n, proc, status, |set_.rows|);
    var tail := if last then Got([], end) else ReadItems(s, end, wide, n);
    PrependPrepend(RowItems(set_.rows), [item], tail);
    PrependPrepend([Columns(Announced(set_.columns))], RowItems(set_.rows) + [item], tail);
  }

  predicate Narrow(sets: seq<ResultSet>) {
    forall i | 0 <= i < |sets| :: |sets[i].columns| < U16_MAX
  }

  function SetsItems(wide: bool, proc: bool, sets: seq<ResultSet>): seq<Item> {
    if sets == [] then [] else SetItems(wide, proc, sets[0], |sets| == 1) + SetsItems(wide, proc, sets[1..])
  }

  /** Behind a count of 65535, the marker for no metadata, a column's first octet is no token: the client is lost. */
  lemma WideSetLost(s: Octets, p: nat, wide: bool, width: nat, proc: bool, set_: ResultSet, last: bool)
    requires |set_.columns| == U16_MAX
    requires SetWire(wide, proc, set_, last).Ok? && At(s, p, SetWire(wide, proc, set_, last).value)
    ensures ReadItems(s, p, wide, width) == Fail(Lost)
  {
    hide At, ReadItems, RowsWire, DoneWire, ColumnsWire, U16Le, U8, U16;
    var columns, rows := Metadata(wide, set_.columns).value, RowsWire(set_.rows, U16_MAX).value;
    var wire := ColumnsWire(wide, set_.columns);
    AtSplit(s, p, columns, rows + DoneWire(wide, proc, SetStatus(last), |set_.rows|));
    AtSplit(s, p, [COLMETADATA], U16Le(U16_MAX) + wire);
    AtSplit(s, p + 1, U16Le(U16_MAX), wire);
    U8At(s, p, COLMETADATA, Lost);
    U16At(s, p + 1, U16_MAX, Lost);
    ColumnsStart(s, p + 3, wide, set_.columns);
    MarkerStep(s, p, wide, width);
  }

  lemma ColumnsStart(s: Octets, p: nat, wide: bool, columns: seq<Text>)
    requires columns != [] && At(s, p, ColumnsWire(wide, columns))
    ensures U8(s, p, Lost) == Got(0, p + 1)
  {
    hide NVARCHAR_8000, ByteText;
    AtByte(s, p, ColumnsWire(wide, columns), 0);
    assert ColumnsWire(wide, columns)[0] == ColumnWire(wide, columns[0])[0] == UserType(wide)[0];
  }

  lemma MarkerStep(s: Octets, p: nat, wide: bool, width: nat)
    requires U8(s, p, Lost) == Got(COLMETADATA, p + 1) && U16(s, p + 1, Lost) == Got(U16_MAX, p + 3)
    requires U8(s, p + 3, Lost) == Got(0, p + 4)
    ensures ReadItems(s, p, wide, width) == Fail(Lost)
  {
    hide U8, U16, ReadColumns, ReadCells, ReadDone, ReadNotice;
    assert ReadItems(s, p + 3, wide, width) == Fail(Lost);
  }

  /** Result sets are read as meant if none has 65535 columns; the first that has loses everything. */
  lemma {:induction false} SetsAt(s: Octets, p: nat, wide: bool, width: nat, proc: bool, sets: seq<ResultSet>)
    requires sets != []
    requires SetsWire(wide, proc, sets).Ok? && At(s, p, SetsWire(wide, proc, sets).value)
    ensures ReadItems(s, p, wide, width) ==
            if Narrow(sets) then Got(SetsItems(wide, proc, sets), p + |SetsWire(wide, proc, sets).value|) else Fail(Lost)
    decreases |sets|
  {
    hide At, ReadItems, SetWire, SetItems;
    SetsStep(wide, proc, sets);
    var first, rest := SetWire(wide, proc, sets[0], |sets| == 1).value, SetsWire(wide, proc, sets[1..]).value;
    AtSplit(s, p, first, rest);
    SetColumns(wide, proc, sets[0], |sets| == 1);
    if |sets[0].columns| == U16_MAX {
      WideSetLost(s, p, wide, width, proc, sets[0], |sets| == 1);
    } else {
      SetAt(s, p, wide, width, proc, sets[0], |sets| == 1);
      NarrowStep(sets);
      if |sets| == 1 {
        assert rest == [] && SetsItems(wide, proc, sets[1..]) == [];
        assert SetItems(wide, proc, sets[0], true) + [] == SetItems(wide, proc, sets[0], true);
      } else {
        SetsAt(s, p + |first|, wide, |sets[0].columns|, proc, sets[1..]);
      }
    }
  }

  lemma NarrowStep(sets: seq<ResultSet>)
    requires sets != []
    ensures Narrow(sets) <==> |sets[0].columns| < U16_MAX && Narrow(sets[1..])
  {
    assert sets == [sets[0]] + sets[1..];
  }

  lemma SetColumns(wide: bool, proc: bool, set_: ResultSet, last: bool)
    requires SetWire(wide, proc, set_, last).Ok?
    ensures |set_.columns| <= U16_MAX
  {
    hide RowsWire, DoneWire, ColumnsWire;
  }

  lemma SetsStep(wide: bool, proc: bool, sets: seq<ResultSet>)
    requires sets != [] && SetsWire(wide, proc, sets).Ok?
    ensures SetWire(wide, proc, sets[0], |sets| == 1).Ok? && SetsWire(wide, proc, sets[1..]).Ok?
    ensures SetsWire(wide, proc, sets).value ==
            SetWire(wide, proc, sets[0], |sets| == 1).value + SetsWire(wide, proc, sets[1..]).value
  {
    hide SetWire;
  }

  function InfoItems(messages: seq<Text>, server: Text): seq<Item> {
    seq(|messages|, i requires 0 <= i < |messages| => Info(Information(messages[i]), Cut(server, 255)))
  }

  lemma {:induction false} MessagesAt(s: Octets, p: nat, wide: bool, width: nat, messages: seq<Text>, server: Text)
    requires MessagesWire(wide, messages, server).Ok? && At(s, p, MessagesWire(wide, messages, server).value)
    ensures ReadItems(s, p, wide, width) ==
            Prepend(InfoItems(messages, server),
                    ReadItems(s, p + |MessagesWire(wide, messages, server).value|, wide, width))
    decreases |messages|
  {
    hide At, ReadItems, NoticeWire;
    if messages == [] {
      assert InfoItems(messages, server) == [];
      NoItems(ReadItems(s, p, wide, width));
    } else {
      var notice := Information(messages[0]);
      var first, rest := NoticeWire(wide, INFO, notice, server).value, MessagesWire(wide, messages[1..], server).value;
      AtSplit(s, p, first, rest);
      NoticeAt(s, p, wide, width, INFO, notice, server);
      MessagesAt(s, p + |first|, wide, width, messages[1..], server);
      var item := Info(notice, Cut(server, 255));
      assert InfoItems(messages, server) == [item] + InfoItems(messages[1..], server);
      PrependPrepend([item], InfoItems(messages[1..], server), ReadItems(s, p + |first| + |rest|, wide, width));
    }
  }

  /** What the server meant to say. */
  function Intended(
    wide: bool, proc: bool, sets: seq<ResultSet>, messages: seq<Text>, failure: Option<Notice>, server: Text
  ): seq<Item> {
    InfoItems(messages, server) +
    (if failure.Some? then [Failure(failure.value, Cut(server, 255)), Done(proc, DONE_ERROR, 0)]
     else if sets == [] then [Done(proc, 0, 0)]
     else SetsItems(wide, proc, sets))
  }

  /**
   Every response the server can encode is read by the client as it was meant:
   names up to 255 units, every row, NULL apart from text, counts and MORE flags,
   and nothing behind it. The one exception is a result set of exactly 65535
   columns: then all of the response is lost, unless an error is sent instead.
   */
  lemma ResponseDecodes(
    wide: bool, proc: bool, sets: seq<ResultSet>, messages: seq<Text>, failure: Option<Notice>, server: Text,
    rest: Octets)
    requires failure.Some? ==> failure.value.number <= U32_MAX
    requires Response(wide, proc, sets, messages, failure, server).Ok?
    ensures
      var wire := Response(wide, proc, sets, messages, failure, server).value;
      ReadItems(wire + rest, 0, wide, 0) ==
      if failure.Some? || Narrow(sets)
      then Got(Intended(wide, proc, sets, messages, failure, server), |wire|) else Fail(Lost)
  {
    hide At, ReadItems, MessagesWire, NoticeWire, DoneWire, SetsWire, InfoItems, SetsItems, Narrow, DoneCount;
    var wire := Response(wide, proc, sets, messages, failure, server).value;
    var s := wire + rest;
    AtFront(wire, rest);
    var head, infos := MessagesWire(wide, messages, server).value, InfoItems(messages, server);
    if failure.Some? {
      var text := NoticeWire(wide, ERROR, failure.value, server).value;
      var done := DoneWire(wide, proc, DONE_ERROR, 0);
      AtSplit(s, 0, head, text + done);
      AtSplit(s, |head|, text, done);
      NoticeAt(s, |head|, wide, 0, ERROR, failure.value, server);
      DoneAt(s, |head| + |text|, wide, 0, proc, DONE_ERROR, 0);
      NoCount(wide);
      assert [Failure(failure.value, Cut(server, 255))] + [Done(proc, DONE_ERROR, 0)] ==
             [Failure(failure.value, Cut(server, 255)), Done(proc, DONE_ERROR, 0)];
    } else if sets == [] {
      AtSplit(s, 0, head, DoneWire(wide, proc, 0, 0));
      DoneAt(s, |head|, wide, 0, proc, 0, 0);
      NoCount(wide);
      NoneNarrow(sets);
    } else {
      AtSplit(s, 0, head, SetsWire(wide, proc, sets).value);
      SetsAt(s, |head|, wide, 0, proc, sets);
    }
    MessagesAt(s, 0, wide, 0, messages, server);
  }

  lemma NoneNarrow(sets: seq<ResultSet>)
    requires sets == []
    ensures Narrow(sets)
  {
  }

  lemma NoCount(wide: bool)
    ensures DoneCount(wide, 0) == 0
  {
  }

  lemma AtFront(wire: Octets, rest: Octets)
    ensures At(wire + rest, 0, wire)
  {
    assert (wire + rest)[0..|wire|] == wire;
  }

  // ----- Which responses can be encoded -----

  predicate EncodableRow(row: seq<Option<Text>>, width: nat) {
    |row| == width && forall i | 0 <= i < |row| :: row[i].Some? ==> 2 * |row[i].value| <= U16_MAX
  }

  predicate EncodableSet(set_: ResultSet) {
    && |set_.columns| <= U16_MAX
    && forall i | 0 <= i < |set_.rows| :: EncodableRow(set_.rows[i], |set_.columns|)
  }

  lemma {:induction false} CellsEncode(cells: seq<Option<Text>>)
    ensures CellsWire(cells).Ok? <==> EncodableRow(cells, |cells|)
  {
    if cells != [] {
      CellsEncode(cells[1..]);
      assert cells == [cells[0]] + cells[1..];
    }
  }

  lemma {:induction false} RowsEncode(rows: seq<seq<Option<Text>>>, width: nat)
    ensures RowsWire(rows, width).Ok? <==> forall i | 0 <= i < |rows| :: EncodableRow(rows[i], width)
  {
    hide CellsWire, EncodableRow;
    if rows != [] {
      CellsEncode(rows[0]);
      RowsEncode(rows[1..], width);
      assert rows == [rows[0]] + rows[1..];
      WidthMatters(rows[0], width);
    }
  }

  lemma WidthMatters(row: seq<Option<Text>>, width: nat)
    ensures EncodableRow(row, width) <==> |row| == width && EncodableRow(row, |row|)
  {
  }

  /** Result sets are encoded exactly if they are rectangular and their cells and column counts fit 16 bits. */
  lemma {:induction false} SetsEncode(wide: bool, proc: bool, sets: seq<ResultSet>)
    ensures SetsWire(wide, proc, sets).Ok? <==> forall i | 0 <= i < |sets| :: EncodableSet(sets[i])
  {
    hide RowsWire, ColumnsWire, DoneWire, EncodableRow;
    if sets != [] {
      RowsEncode(sets[0].rows, |sets[0].columns|);
      SetsEncode(wide, proc, sets[1..]);
      assert sets == [sets[0]] + sets[1..];
    }
  }

  // ----- Declared maxima -----

  predicate CellWithin(cell: Option<Text>, maximum: nat) {
    cell.Some? ==> 2 * |cell.value| <= maximum
  }

  /** Every cell is within the maximum its column was announced with; `columns` are those in force. */
  predicate Conforming(items: seq<Item>, columns: seq<Column>) {
    items == [] ||
    match items[0]
    case Columns(announced) => Conforming(items[1..], announced)
    case Row(cells) =>
      && (forall i | 0 <= i < |cells| && i < |columns| :: CellWithin(cells[i], columns[i].maximum))
      && Conforming(items[1..], columns)
    case _ => Conforming(items[1..], columns)
  }

  predicate ShortCells(set_: ResultSet) {
    forall i, j | 0 <= i < |set_.rows| && 0 <= j < |set_.rows[i]| :: CellWithin(set_.rows[i][j], MAXIMUM)
  }

  predicate ShortRow(row: seq<Option<Text>>) {
    forall j | 0 <= j < |row| :: CellWithin(row[j], MAXIMUM)
  }

  lemma {:induction false} RowsConform(rows: seq<seq<Option<Text>>>, columns: seq<Text>, rest: seq<Item>)
    requires forall i | 0 <= i < |rows| :: |rows[i]| == |columns|
    ensures Conforming(RowItems(rows) + rest, Announced(columns)) <==>
            (forall i | 0 <= i < |rows| :: ShortRow(rows[i])) && Conforming(rest, Announced(columns))
    decreases |rows|
  {
    hide CellWithin, Conforming;
    if rows == [] {
      assert RowItems(rows) + rest == rest;
    } else {
      assert RowItems(rows) + rest == [Row(rows[0])] + (RowItems(rows[1..]) + rest);
      RowsConform(rows[1..], columns, rest);
      RowConforms(rows[0], columns, RowItems(rows[1..]) + rest);
      assert rows == [rows[0]] + rows[1..];
    }
  }

  lemma RowConforms(row: seq<Option<Text>>, columns: seq<Text>, rest: seq<Item>)
    requires |row| == |columns|
    ensures Conforming([Row(row)] + rest, Announced(columns)) <==>
            ShortRow(row) && Conforming(rest, Announced(columns))
  {
    hide CellWithin;
    assert ([Row(row)] + rest)[1..] == rest;
    assert forall i | 0 <= i < |columns| :: Announced(columns)[i].maximum == MAXIMUM;
  }

  lemma SetConforms(wide: bool, proc: bool, set_: ResultSet, last: bool, rest: seq<Item>, columns: seq<Column>)
    requires EncodableSet(set_)
    ensures Conforming(SetItems(wide, proc, set_, last) + rest, columns) <==>
            ShortCells(set_) && Conforming(rest, Announced(set_.columns))
  {
    hide CellWithin, RowItems, Announced, EncodableRow;
    var done := Done(proc, SetStatus(last), DoneCount(wide, |set_.rows|));
    var tail := [done] + rest;
    assert SetItems(wide, proc, set_, last) + rest == [Columns(Announced(set_.columns))] + (RowItems(set_.rows) + tail);
    assert ([Columns(Announced(set_.columns))] + (RowItems(set_.rows) + tail))[1..] == RowItems(set_.rows) + tail;
    assert tail[1..] == rest;
    forall i | 0 <= i < |set_.rows| ensures |set_.rows[i]| == |set_.columns| {
      WidthMatters(set_.rows[i], |set_.columns|);
    }
    RowsConform(set_.rows, set_.columns, tail);
    hide Conforming;
    assert ShortCells(set_) <==> forall i | 0 <= i < |set_.rows| :: ShortRow(set_.rows[i]);
  }

  /** The sets of a response respect the maximum they declare exactly if no cell is longer than 4000 units. */
  lemma {:induction false} SetsConform(wide: bool, proc: bool, sets: seq<ResultSet>, columns: seq<Column>)
    requires SetsWire(wide, proc, sets).Ok?
    ensures Conforming(SetsItems(wide, proc, sets), columns) <==> forall i | 0 <= i < |sets| :: ShortCells(sets[i])
    decreases |sets|
  {
    hide ShortCells, Conforming, SetItems, EncodableSet, SetsWire;
    if sets == [] {
      NothingConforms(columns);
    } else {
      SetsStep(wide, proc, sets);
      SetsEncode(wide, proc, sets);
      SetConforms(wide, proc, sets[0], |sets| == 1, SetsItems(wide, proc, sets[1..]), columns);
      SetsConform(wide, proc, sets[1..], Announced(sets[0].columns));
      assert sets == [sets[0]] + sets[1..];
    }
  }

  lemma NothingConforms(columns: seq<Column>)
    ensures Conforming([], columns)
  {
  }

  lemma {:induction false} InfosConform(messages: seq<Text>, server: Text, rest: seq<Item>)
    ensures Conforming(InfoItems(messages, server) + rest, []) <==> Conforming(rest, [])
    decreases |messages|
  {
    var infos := InfoItems(messages, server);
    if messages == [] {
      assert infos + rest == rest;
    } else {
      var more := InfoItems(messages[1..], server);
      assert infos == [infos[0]] + more;
      assert (infos + rest)[1..] == more + rest;
      InfosConform(messages[1..], server, rest);
    }
  }

  lemma IntendedConforms(
    wide: bool, proc: bool, sets: seq<ResultSet>, messages: seq<Text>, failure: Option<Notice>, server: Text)
    requires failure.Some? ==> failure.value.number <= U32_MAX
    requires Response(wide, proc, sets, messages, failure, server).Ok?
    ensures Conforming(Intended(wide, proc, sets, messages, failure, server), []) <==>
            failure.Some? || forall i | 0 <= i < |sets| :: ShortCells(sets[i])
  {
    hide MessagesWire, NoticeWire, DoneWire, SetsWire, InfoItems, SetsItems, ShortCells, Conforming;
    if failure.Some? {
      var items := [Failure(failure.value, Cut(server, 255)), Done(proc, DONE_ERROR, 0)];
      InfosConform(messages, server, items);
      PlainItemsConform(items[0], items[1]);
    } else if sets == [] {
      InfosConform(messages, server, [Done(proc, 0, 0)]);
      PlainItemsConform(Done(proc, 0, 0), Done(proc, 0, 0));
    } else {
      InfosConform(messages, server, SetsItems(wide, proc, sets));
      SetsConform(wide, proc, sets, []);
    }
  }

  /**
   Of every response the server can encode: the client reads it, and finds each
   cell within the maximum its column declared, exactly if it is an error or
   each set has fewer than 65535 columns and no cell longer than 4000 units.
   */
  lemma ResponseConforms(
    wide: bool, proc: bool, sets: seq<ResultSet>, messages: seq<Text>, failure: Option<Notice>, server: Text,
    rest: Octets)
    requires failure.Some? ==> failure.value.number <= U32_MAX
    requires Response(wide, proc, sets, messages, failure, server).Ok?
    ensures
      var read := ReadItems(Response(wide, proc, sets, messages, failure, server).value + rest, 0, wide, 0);
      read.Got? && Conforming(read.value, []) <==>
      failure.Some? || (Narrow(sets) && forall i | 0 <= i < |sets| :: ShortCells(sets[i]))
  {
    hide ReadItems, Response, Intended, Conforming, Narrow, ShortCells;
    ResponseDecodes(wide, proc, sets, messages, failure, server, rest);
    IntendedConforms(wide, proc, sets, messages, failure, server);
  }

  lemma PlainItemsConform(a: Item, b: Item)
    requires !a.Columns? && !a.Row? && !b.Columns? && !b.Row?
    ensures Conforming([a, b], []) && Conforming([b], [])
  {
    assert [a, b][1..] == [b] && [b][1..] == [];
  }
}
