/** Values and tables as a client writes them, and the proof that the reader gives them back. */
module TypedRoundTrip {
  import opened Bytes
  import opened Reading
  import opened TypedData
  import opened TypedLaws

  /** What a client puts on the wire for one value. */
  datatype Sent = Nothing | Whole(bytes: Octets) | Chunked(stated: bool, chunks: seq<Octets>)

  function Meaning(sent: Sent): Scalar {
    match sent
    case Nothing => Null
    case Whole(bytes) => Raw(bytes)
    case Chunked(_, chunks) => Raw(Flatten(chunks))
  }

  predicate Accepted(ty: TypeInfo, bytes: Octets) {
    Decode(ty, bytes, 0, 0).Have?
  }

  predicate UpTo(ty: TypeInfo, n: nat) {
    ty.maximum.Some? ==> n <= ty.maximum.value
  }

  predicate Sendable(ty: TypeInfo, sent: Sent) {
    match ty.kind
    case Fixed(width) => sent.Whole? && |sent.bytes| == width && Accepted(ty, sent.bytes)
    case ByteLength =>
      sent.Nothing? || (sent.Whole? && 0 < |sent.bytes| < 256 && UpTo(ty, |sent.bytes|) && Accepted(ty, sent.bytes))
    case ShortLength =>
      sent.Nothing? || (sent.Whole? && |sent.bytes| < U16_MAX && UpTo(ty, |sent.bytes|) && Accepted(ty, sent.bytes))
    case LongLength =>
      sent.Nothing? || (sent.Whole? && |sent.bytes| < U32_MAX && UpTo(ty, |sent.bytes|) && Accepted(ty, sent.bytes))
    case Variant => sent.Nothing? || (sent.Whole? && 0 < |sent.bytes| < U32_MAX && UpTo(ty, |sent.bytes|))
    case Plp => SendableChunks(ty, sent)
    case Json => SendableChunks(ty, sent)
    case Tvp(_) => false
  }

  predicate SendableChunks(ty: TypeInfo, sent: Sent) {
    sent.Nothing? ||
    (sent.Chunked? && GoodChunks(sent.chunks) && |Flatten(sent.chunks)| < PLP_UNKNOWN &&
     Accepted(ty, Flatten(sent.chunks)))
  }

  function SentWire(ty: TypeInfo, sent: Sent): Octets
    requires Sendable(ty, sent)
  {
    match ty.kind
    case Fixed(_) => sent.bytes
    case ByteLength => if sent.Nothing? then [0] else [|sent.bytes|] + sent.bytes
    case ShortLength => if sent.Nothing? then U16Le(U16_MAX) else U16Le(|sent.bytes|) + sent.bytes
    case LongLength => if sent.Nothing? then U32Le(U32_MAX) else U32Le(|sent.bytes|) + sent.bytes
    case Variant => if sent.Nothing? then U32Le(U32_MAX) else U32Le(|sent.bytes|) + sent.bytes
    case Plp => ChunkedWire(sent)
    case Json => ChunkedWire(sent)
  }

  function ChunkedWire(sent: Sent): Octets
    requires sent.Nothing? || (sent.Chunked? && GoodChunks(sent.chunks) && |Flatten(sent.chunks)| < PLP_UNKNOWN)
  {
    if sent.Nothing? then U64Le(PLP_NULL) else PlpWire(sent.stated, sent.chunks)
  }

  lemma DecodeMoves(ty: TypeInfo, bytes: Octets, next: nat, used: nat)
    requires Accepted(ty, bytes)
    ensures Decode(ty, bytes, next, used) == Have(Raw(bytes), next, used)
  {
  }

  lemma SizedReads(s: Octets, max: nat, p: nat, used: nat, ty: TypeInfo, bytes: Octets)
    requires At(s, p, bytes) && UpTo(ty, |bytes|) && Accepted(ty, bytes)
    ensures Sized(s, max, p, used, ty, |bytes|) ==
            if used + |bytes| <= max then Have(Raw(bytes), p + |bytes|, used + |bytes|) else Bad(ValueLimit)
  {
    hide Decode;
    ChunkBytes(s, max, p, used, bytes);
    DecodeMoves(ty, bytes, p + |bytes|, used + |bytes|);
  }

  lemma ChunkedReads(s: Octets, max: nat, p: nat, used: nat, ty: TypeInfo, sent: Sent)
    requires SendableChunks(ty, sent) && At(s, p, ChunkedWire(sent)) && used <= max
    ensures
      if used + Kept(Meaning(sent)) <= max
      then
        && ReadPlp(s, max, p, used).Have?
        && PlpValue(s, max, p, used, ty) ==
           Have(Meaning(sent), p + |ChunkedWire(sent)|, used + Kept(Meaning(sent)))
      else PlpValue(s, max, p, used, ty).Bad?
  {
    hide Decode, PlpChunks, PlpWire;
    if sent.Nothing? {
      U64LeRoundTrip(PLP_NULL);
    } else {
      hide At;
      PlpRoundTrip(s, max, p, used, sent.stated, sent.chunks);
      var value := Flatten(sent.chunks);
      DecodeMoves(ty, value, p + |ChunkedWire(sent)|, used + |value|);
    }
  }

  /**
   A value is read back as it was sent, and charged for its bytes alone, exactly
   if it fits the budget that is left; otherwise it is refused, unless it is JSON,
   which then may be tried in the prefixed form.
   */
  lemma ScalarRoundTrip(s: Octets, max: nat, p: nat, used: nat, ty: TypeInfo, sent: Sent)
    requires !ty.kind.Tvp? && Sendable(ty, sent)
    requires At(s, p, SentWire(ty, sent)) && used <= max
    ensures
      var result := Have(Meaning(sent), p + |SentWire(ty, sent)|, used + Kept(Meaning(sent)));
      && (ReadScalar(s, max, p, used, ty) == result <==> used + Kept(Meaning(sent)) <= max)
      && (used + Kept(Meaning(sent)) > max && !ty.kind.Json? ==> ReadScalar(s, max, p, used, ty).Bad?)
  {
    hide ReadScalar, SentWire, At, Meaning, Kept, Accepted, UpTo, SendableChunks;
    if ty.kind.Plp? || ty.kind.Json? {
      ChunkedRoundTrip(s, max, p, used, ty, sent);
    } else if ty.kind.Fixed? {
      FixedRoundTrip(s, max, p, used, ty, sent);
    } else if sent.Nothing? {
      NothingRoundTrip(s, max, p, used, ty);
    } else {
      LengthRoundTrip(s, max, p, used, ty, sent);
    }
  }

  /** What a read comes to: the value sent if it fits the budget, and no value at all if it does not. */
  predicate Returned(r: Read<Scalar>, s: Octets, max: nat, p: nat, used: nat, ty: TypeInfo, sent: Sent)
    requires Sendable(ty, sent)
  {
    if used + Kept(Meaning(sent)) <= max
    then r == Have(Meaning(sent), p + |SentWire(ty, sent)|, used + Kept(Meaning(sent)))
    else r.Bad?
  }

  lemma ChunkedRoundTrip(s: Octets, max: nat, p: nat, used: nat, ty: TypeInfo, sent: Sent)
    requires (ty.kind.Plp? || ty.kind.Json?) && Sendable(ty, sent)
    requires At(s, p, SentWire(ty, sent)) && used <= max
    ensures used + Kept(Meaning(sent)) <= max || ty.kind.Plp? ==>
              Returned(ReadScalar(s, max, p, used, ty), s, max, p, used, ty, sent)
  {
    hide At, ReadPlp, PlpValue, SendableChunks, ChunkedWire, Meaning, Kept;
    ChunkedReads(s, max, p, used, ty, sent);
  }

  lemma FixedRoundTrip(s: Octets, max: nat, p: nat, used: nat, ty: TypeInfo, sent: Sent)
    requires ty.kind.Fixed? && Sendable(ty, sent) && At(s, p, SentWire(ty, sent))
    ensures Returned(ReadScalar(s, max, p, used, ty), s, max, p, used, ty, sent)
  {
    hide At, Decode, Accepted, ValueBytes;
    ChunkBytes(s, max, p, used, sent.bytes);
    DecodeMoves(ty, sent.bytes, p + |sent.bytes|, used + |sent.bytes|);
  }

  lemma NothingRoundTrip(s: Octets, max: nat, p: nat, used: nat, ty: TypeInfo)
    requires !ty.kind.Fixed? && !ty.kind.Plp? && !ty.kind.Json? && !ty.kind.Tvp?
    requires At(s, p, SentWire(ty, Nothing)) && used <= max
    ensures Returned(ReadScalar(s, max, p, used, ty), s, max, p, used, ty, Nothing)
  {
    hide At, U8, U16, U32, U16Le, U32Le, Sized, ValueBytes;
    NothingReads(s, p, ty);
  }

  lemma LengthRoundTrip(s: Octets, max: nat, p: nat, used: nat, ty: TypeInfo, sent: Sent)
    requires !ty.kind.Fixed? && !ty.kind.Plp? && !ty.kind.Json? && !ty.kind.Tvp? && sent.Whole?
    requires Sendable(ty, sent) && At(s, p, SentWire(ty, sent))
    ensures Returned(ReadScalar(s, max, p, used, ty), s, max, p, used, ty, sent)
  {
    hide At, U8, U16, U32, U16Le, U32Le, Sized, ValueBytes, Accepted, UpTo;
    LengthReads(s, p, ty, sent.bytes);
    if ty.kind.Variant? {
      ChunkBytes(s, max, p + 4, used, sent.bytes);
      UpToMeans(ty, |sent.bytes|);
    } else {
      SizedReads(s, max, p + |SentWire(ty, sent)| - |sent.bytes|, used, ty, sent.bytes);
    }
  }

  lemma UpToMeans(ty: TypeInfo, n: nat)
    ensures UpTo(ty, n) <==> !(ty.maximum.Some? && n > ty.maximum.value)
  {
  }

  lemma NothingReads(s: Octets, p: nat, ty: TypeInfo)
    ensures ty.kind.ByteLength? && At(s, p, [0]) ==> U8(s, p, Truncated) == Got(0, p + 1)
    ensures ty.kind.ShortLength? && At(s, p, U16Le(U16_MAX)) ==> U16(s, p, Truncated) == Got(U16_MAX, p + 2)
    ensures At(s, p, U32Le(U32_MAX)) ==> U32(s, p, Truncated) == Got(U32_MAX, p + 4)
  {
    if At(s, p, [0]) {
      AtByte(s, p, [0], 0);
    }
    if At(s, p, U16Le(U16_MAX)) {
      U16At(s, p, U16_MAX, Truncated);
    }
    if At(s, p, U32Le(U32_MAX)) {
      U32At(s, p, U32_MAX, Truncated);
    }
  }

  /** Behind the length prefix of its kind, the bytes themselves. */
  lemma LengthReads(s: Octets, p: nat, ty: TypeInfo, bytes: Octets)
    requires !ty.kind.Fixed? && !ty.kind.Plp? && !ty.kind.Json? && !ty.kind.Tvp?
    requires Sendable(ty, Whole(bytes)) && At(s, p, SentWire(ty, Whole(bytes)))
    ensures ty.kind.ByteLength? ==> U8(s, p, Truncated) == Got(|bytes|, p + 1) && At(s, p + 1, bytes)
    ensures ty.kind.ShortLength? ==> U16(s, p, Truncated) == Got(|bytes|, p + 2) && At(s, p + 2, bytes)
    ensures ty.kind.LongLength? || ty.kind.Variant? ==> U32(s, p, Truncated) == Got(|bytes|, p + 4) && At(s, p + 4, bytes)
  {
    hide Accepted;
    if ty.kind.ByteLength? {
      AtSplit(s, p, [|bytes|], bytes);
      AtByte(s, p, [|bytes|], 0);
    } else if ty.kind.ShortLength? {
      AtSplit(s, p, U16Le(|bytes|), bytes);
      U16At(s, p, |bytes|, Truncated);
    } else {
      AtSplit(s, p, U32Le(|bytes|), bytes);
      U32At(s, p, |bytes|, Truncated);
    }
  }

  // ----- Tables -----

  /** One row, a value for each column; values of default columns are not sent. */
  predicate SendableRow(table: Table, row: seq<Sent>) {
    && |row| == |table.columns|
    && forall c | 0 <= c < |row| :: !DefaultColumn(table.columns[c]) ==> Sendable(table.columns[c].ty, row[c])
  }

  predicate SendableRows(table: Table, rows: seq<seq<Sent>>) {
    forall i | 0 <= i < |rows| :: SendableRow(table, rows[i])
  }

  /** The row's values in row order, from the `k`th on. */
  function RowWire(table: Table, row: seq<Sent>, k: nat): Octets
    requires TableShape(table) && SendableRow(table, row) && k <= |table.rowOrder|
    decreases |table.rowOrder| - k
  {
    if k == |table.rowOrder| then [] else
    var c := table.rowOrder[k];
    (if DefaultColumn(table.columns[c]) then [] else SentWire(table.columns[c].ty, row[c])) + RowWire(table, row, k + 1)
  }

  function RowCells(table: Table, row: seq<Sent>, k: nat): seq<Cell>
    requires TableShape(table) && SendableRow(table, row) && k <= |table.rowOrder|
    decreases |table.rowOrder| - k
  {
    if k == |table.rowOrder| then [] else
    var c := table.rowOrder[k];
    [if DefaultColumn(table.columns[c]) then Default else Filled(Meaning(row[c]))] + RowCells(table, row, k + 1)
  }

  function TableWire(table: Table, rows: seq<seq<Sent>>): Octets
    requires TableShape(table) && SendableRows(table, rows)
  {
    if rows == [] then [0x00] else [0x01] + (RowWire(table, rows[0], 0) + TableWire(table, rows[1..]))
  }

  function TableCells(table: Table, rows: seq<seq<Sent>>): seq<seq<Cell>>
    requires TableShape(table) && SendableRows(table, rows)
  {
    if rows == [] then [] else [RowCells(table, rows[0], 0)] + TableCells(table, rows[1..])
  }

  lemma {:induction false} RowReads(s: Octets, max: nat, p: nat, used: nat, table: Table, row: seq<Sent>, k: nat)
    requires TableShape(table) && SendableRow(table, row) && k <= |table.rowOrder|
    requires At(s, p, RowWire(table, row, k)) && used + KeptInRow(RowCells(table, row, k)) <= max
    ensures p <= |s|
    ensures ReadRow(s, max, p, used, table, k) ==
            Have(RowCells(table, row, k), p + |RowWire(table, row, k)|, used + KeptInRow(RowCells(table, row, k)))
    decreases |table.rowOrder| - k
  {
    hide DefaultColumn, ReadScalar, SentWire, Sendable, AllowedColumn, Meaning, Kept, At, KeptInRow;
    AtIn(s, p, RowWire(table, row, k));
    if k == |table.rowOrder| {
      KeptNothing();
    } else {
      var c := table.rowOrder[k];
      var rest, cells := RowWire(table, row, k + 1), RowCells(table, row, k + 1);
      if DefaultColumn(table.columns[c]) {
        assert RowWire(table, row, k) == [] + rest == rest;
        KeptCons(Default, cells);
        RowReads(s, max, p, used, table, row, k + 1);
      } else {
        var ty := table.columns[c].ty;
        ColumnIsScalar(table, c);
        KeptCons(Filled(Meaning(row[c])), cells);
        AtSplit(s, p, SentWire(ty, row[c]), rest);
        ScalarRoundTrip(s, max, p, used, ty, row[c]);
        RowReads(s, max, p + |SentWire(ty, row[c])|, used + Kept(Meaning(row[c])), table, row, k + 1);
      }
    }
  }

  lemma KeptNothing()
    ensures KeptInRow([]) == 0
  {
  }

  lemma KeptCons(cell: Cell, cells: seq<Cell>)
    ensures KeptInRow([cell] + cells) == (if cell.Filled? then Kept(cell.scalar) else 0) + KeptInRow(cells)
  {
    assert ([cell] + cells)[1..] == cells;
  }

  lemma ColumnIsScalar(table: Table, c: nat)
    requires TableShape(table) && c < |table.columns|
    ensures !table.columns[c].ty.kind.Tvp?
  {
    assert AllowedColumn(table.columns[c]);
  }

  lemma {:induction false} TableReads(
    s: Octets, max: nat, p: nat, used: nat, table: Table, rows: seq<seq<Sent>>, count: nat)
    requires TableShape(table) && SendableRows(table, rows) && count + |rows| <= MAX_ROWS
    requires At(s, p, TableWire(table, rows)) && used + KeptInRows(TableCells(table, rows)) <= max
    ensures ReadRows(s, max, p, used, table, count) ==
            Have(TableCells(table, rows), p + |TableWire(table, rows)|,
                 used + KeptInRows(TableCells(table, rows)))
    decreases |rows|
  {
    hide TableShape, SendableRow, RowWire, RowCells, ReadRow, KeptInRow, At;
    if rows == [] {
      AtByte(s, p, [0x00], 0);
      AtIn(s, p, [0x00]);
    } else {
      var first, rest := RowWire(table, rows[0], 0), TableWire(table, rows[1..]);
      AtSplit(s, p, [0x01], first + rest);
      AtByte(s, p, [0x01], 0);
      AtIn(s, p, [0x01]);
      AtSplit(s, p + 1, first, rest);
      RowReads(s, max, p + 1, used, table, rows[0], 0);
      var kept := KeptInRow(RowCells(table, rows[0], 0));
      TableReads(s, max, p + 1 + |first|, used + kept, table, rows[1..], count + 1);
    }
  }

  lemma {:induction false} RowsLimited(s: Octets, max: nat, p: nat, used: nat, table: Table, count: nat)
    requires TableShape(table)
    ensures
      var r := ReadRows(s, max, p, used, table, count);
      r.Have? && r.value != [] ==> count + |r.value| <= MAX_ROWS
    decreases |s| - p
  {
    hide TableShape, ReadRow, KeptInRow, KeptInRows;
    if U8(s, p, Truncated) == Got(0x01, p + 1) && count + 1 <= MAX_ROWS {
      var row := ReadRow(s, max, p + 1, used, table, 0);
      if row.Have? {
        RowsLimited(s, max, row.next, row.used, table, count + 1);
      }
    }
  }

  lemma {:induction false} TableCellsCount(table: Table, rows: seq<seq<Sent>>)
    requires TableShape(table) && SendableRows(table, rows)
    ensures |TableCells(table, rows)| == |rows|
  {
    hide TableShape, SendableRow, RowCells;
    if rows != [] {
      TableCellsCount(table, rows[1..]);
    }
  }

  /** A table is read back row for row, cell for cell, exactly if it is within the row limit and the budget left. */
  lemma TableRoundTrip(s: Octets, max: nat, p: nat, used: nat, table: Table, rows: seq<seq<Sent>>)
    requires TableShape(table) && SendableRows(table, rows)
    requires At(s, p, TableWire(table, rows)) && used <= max
    ensures
      var cells := TableCells(table, rows);
      ReadRows(s, max, p, used, table, 0) ==
      Have(cells, p + |TableWire(table, rows)|, used + KeptInRows(cells)) <==>
      |rows| <= MAX_ROWS && used + KeptInRows(cells) <= max
  {
    hide TableShape, SendableRows, TableWire, TableCells, ReadRows, KeptInRows, At;
    if |rows| <= MAX_ROWS && used + KeptInRows(TableCells(table, rows)) <= max {
      TableReads(s, max, p, used, table, rows, 0);
    } else {
      RowsLimited(s, max, p, used, table, 0);
      TableCellsCount(table, rows);
    }
  }

  // ----- JSON behind its prefix -----

  const PREFIX: Octets := [0xff, 0xff]

  /** The total that the prefix and the first six octets of `total` are taken for. */
  function Shifted(total: nat): nat {
    0xFFFF + 0x1_0000 * (total % 0x1_0000_0000_0000)
  }

  function Total(sent: Sent): nat
    requires sent.Nothing? || (sent.Chunked? && |Flatten(sent.chunks)| < PLP_UNKNOWN)
  {
    if sent.Nothing? then PLP_NULL else if sent.stated then |Flatten(sent.chunks)| else PLP_UNKNOWN
  }

  lemma ShiftedReads(s: Octets, p: nat, total: nat)
    requires total <= U64_MAX && At(s, p, PREFIX + U64Le(total))
    ensures U64(s, p, Truncated) == Got(Shifted(total), p + 8)
  {
    var wire := PREFIX + U64Le(total);
    assert s[p..p + 8] == s[p..p + |wire|][..8] == wire[..8];
    ShiftedTotal(total);
    hide FromU64Le, U64Le, Shifted;
  }

  lemma ShiftedTotal(total: nat)
    requires total <= U64_MAX
    ensures FromU64Le((PREFIX + U64Le(total))[..8]) == Shifted(total)
  {
    var low, high := total % 0x1_0000_0000, total / 0x1_0000_0000;
    var w0, w1, w2 := low % 0x1_0000, low / 0x1_0000, high % 0x1_0000;
    Words(total, w0, w1, w2);
    hide U16Le, FromU16Le, Shifted;
    var front := (PREFIX + U64Le(total))[..8];
    assert front[..4] == PREFIX + U16Le(w0);
    assert front[4..] == U16Le(w1) + U16Le(w2);
    ShiftedWords(front, w0, w1, w2);
  }

  lemma Words(total: nat, w0: nat, w1: nat, w2: nat)
    requires w0 == total % 0x1_0000_0000 % 0x1_0000 && w1 == total % 0x1_0000_0000 / 0x1_0000
    requires w2 == total / 0x1_0000_0000 % 0x1_0000
    ensures Shifted(total) == 0xFFFF + 0x1_0000 * (w0 + 0x1_0000 * w1 + 0x1_0000_0000 * w2)
  {
    var low, high := total % 0x1_0000_0000, total / 0x1_0000_0000;
    LowPart(low + 0x1_0000_0000 * w2, high / 0x1_0000);
    assert total == low + 0x1_0000_0000 * w2 + 0x1_0000_0000_0000 * (high / 0x1_0000);
    assert low == w0 + 0x1_0000 * w1;
  }

  lemma LowPart(low: nat, high: nat)
    requires low < 0x1_0000_0000_0000
    ensures (low + 0x1_0000_0000_0000 * high) % 0x1_0000_0000_0000 == low
  {
  }

  lemma ShiftedWords(front: Octets, w0: nat, w1: nat, w2: nat)
    requires w0 <= U16_MAX && w1 <= U16_MAX && w2 <= U16_MAX
    requires |front| == 8 && front[..4] == PREFIX + U16Le(w0) && front[4..] == U16Le(w1) + U16Le(w2)
    ensures FromU64Le(front) == 0xFFFF + 0x1_0000 * (w0 + 0x1_0000 * w1 + 0x1_0000_0000 * w2)
  {
    assert front[..4][..2] == PREFIX && front[..4][2..] == U16Le(w0);
    assert front[4..][..2] == U16Le(w1) && front[4..][2..] == U16Le(w2);
  }

  /** What a chunk list takes beside its value is a number of four-octet lengths. */
  lemma {:induction false} ChunksStep(s: Octets, max: nat, p: nat, used: nat, value: Octets)
    ensures
      var r := PlpChunks(s, max, p, used, value);
      r.Have? ==> p + (|r.value| - |value|) <= r.next <= |s| && (r.next - p - (|r.value| - |value|)) % 4 == 0
    decreases |s| - p
  {
    hide FromU32Le;
    if U32(s, p, Truncated).Got? && U32(s, p, Truncated).value > 0 {
      var chunk := ValueBytes(s, max, p + 4, used, U32(s, p, Truncated).value);
      if chunk.Have? {
        ChunksStep(s, max, chunk.next, chunk.used, value + chunk.value);
      }
    }
  }

  lemma {:induction false} ChunkWireStep(chunks: seq<Octets>)
    requires GoodChunks(chunks)
    ensures |ChunkWire(chunks)| >= 4 && (|ChunkWire(chunks)| - |Flatten(chunks)|) % 4 == 0
  {
    if chunks != [] {
      ChunkWireStep(chunks[1..]);
    }
  }

  /** Where a PLP value ends, but for a number of four-octet lengths. */
  lemma PlpEnds(s: Octets, max: nat, p: nat, used: nat, ty: TypeInfo)
    ensures
      var r := PlpValue(s, max, p, used, ty);
      && (r.Have? && r.value.Null? ==> r.next == p + 8)
      && (r.Have? && r.value.Raw? ==> (r.next - p - |r.value.bytes|) % 4 == 0)
  {
    hide PlpChunks, FromU64Le, Decode;
    ChunksStep(s, max, p + 8, used, []);
  }

  /** A canonical reading that begins at the prefix never ends where the prefixed value does. */
  lemma CanonicalMisses(s: Octets, max: nat, p: nat, used: nat, ty: TypeInfo, sent: Sent)
    requires SendableChunks(ty, sent)
    ensures PlpValue(s, max, p, used, ty) !=
            Have(Meaning(sent), p + 2 + |ChunkedWire(sent)|, used + Kept(Meaning(sent)))
  {
    hide PlpValue, Accepted, ChunkWire, U64Le;
    PlpEnds(s, max, p, used, ty);
    if sent.Chunked? {
      ChunkWireStep(sent.chunks);
      assert |ChunkedWire(sent)| == 8 + |ChunkWire(sent.chunks)|;
    }
  }

  /**
   JSON sent behind its prefix is read back exactly if it fits the budget and a
   canonical reading of the same octets fails. That one takes the prefix for
   part of the total: it reads NULL if the total's low 48 bits are all set, as
   they are in a prefixed NULL, and fails if what it takes for the total is
   beyond the maximum or the input.
   */
  lemma PrefixedJson(s: Octets, max: nat, p: nat, used: nat, ty: TypeInfo, sent: Sent)
    requires SendableChunks(ty, sent) && At(s, p, PREFIX + ChunkedWire(sent)) && used <= max
    ensures JsonValue(s, max, p, used, ty) ==
            Have(Meaning(sent), p + 2 + |ChunkedWire(sent)|, used + Kept(Meaning(sent))) <==>
            ReadPlp(s, max, p, used).Bad? && used + Kept(Meaning(sent)) <= max
    ensures
      var total := Shifted(Total(sent));
      if total == PLP_NULL then JsonValue(s, max, p, used, ty) == Have(Null, p + 8, used)
      else total > max || p + 8 + total > |s| ==> ReadPlp(s, max, p, used).Bad?
  {
    PrefixedTotal(s, p, ty, sent);
    NeverUnknown(Total(sent));
    CanonicalReads(s, max, p, used, ty, Shifted(Total(sent)));
    CanonicalMisses(s, max, p, used, ty, sent);
    PrefixedAttempt(s, max, p, used, ty, sent);
    hide At, PlpValue, ReadPlp, JsonValue, Meaning, ChunkedWire, SendableChunks, Shifted;
  }

  /** What a canonical reading of a known total comes to before any chunk is seen. */
  lemma CanonicalReads(s: Octets, max: nat, p: nat, used: nat, ty: TypeInfo, total: nat)
    requires U64(s, p, Truncated) == Got(total, p + 8) && total != PLP_UNKNOWN
    ensures total == PLP_NULL ==> JsonValue(s, max, p, used, ty) == Have(Null, p + 8, used)
    ensures total == PLP_NULL ==> ReadPlp(s, max, p, used).Have?
    ensures total != PLP_NULL && (total > max || p + 8 + total > |s|) ==> ReadPlp(s, max, p, used).Bad?
  {
    ChunksStep(s, max, p + 8, used, []);
    hide PlpChunks, Decode, U64;
  }

  /** The second attempt is made exactly if the first fails, and starts behind the prefix. */
  lemma PrefixedAttempt(s: Octets, max: nat, p: nat, used: nat, ty: TypeInfo, sent: Sent)
    requires SendableChunks(ty, sent) && At(s, p, PREFIX + ChunkedWire(sent)) && used <= max
    ensures
      if ReadPlp(s, max, p, used).Have? then JsonValue(s, max, p, used, ty) == PlpValue(s, max, p, used, ty)
      else if used + Kept(Meaning(sent)) <= max
      then JsonValue(s, max, p, used, ty) ==
           Have(Meaning(sent), p + 2 + |ChunkedWire(sent)|, used + Kept(Meaning(sent)))
      else JsonValue(s, max, p, used, ty).Bad?
  {
    hide PlpValue, ReadPlp, Meaning, ChunkedWire, Accepted;
    AtSplit(s, p, PREFIX, ChunkedWire(sent));
    AtByte(s, p, PREFIX, 0);
    AtByte(s, p, PREFIX, 1);
    AtIn(s, p, PREFIX);
    hide At;
    ChunkedReads(s, max, p + 2, used, ty, sent);
  }

  lemma NeverUnknown(total: nat)
    ensures Shifted(total) != PLP_UNKNOWN
  {
    assert Shifted(total) % 2 == 1;
  }

  lemma PrefixedTotal(s: Octets, p: nat, ty: TypeInfo, sent: Sent)
    requires SendableChunks(ty, sent) && At(s, p, PREFIX + ChunkedWire(sent))
    ensures U64(s, p, Truncated) == Got(Shifted(Total(sent)), p + 8)
  {
    hide At, Shifted, Accepted, U64, U64Le;
    if sent.Chunked? {
      ConcatAssoc(PREFIX, U64Le(Total(sent)), ChunkWire(sent.chunks));
      AtSplit(s, p, PREFIX + U64Le(Total(sent)), ChunkWire(sent.chunks));
    }
    ShiftedReads(s, p, Total(sent));
  }

  /** A prefixed NULL, ten octets 0xff: the canonical reading takes eight of them for NULL and leaves two. */
  lemma PrefixedNullMisread(max: nat, ty: TypeInfo)
    ensures
      var s := PREFIX + U64Le(PLP_NULL);
      JsonValue(s, max, 0, 0, ty) == Have(Null, 8, 0) && |s| == 10
  {
    hide At, JsonValue, ReadPlp, U64Le, PlpWire;
    var s := PREFIX + U64Le(PLP_NULL);
    AtAll(s);
    PrefixedJson(s, max, 0, 0, ty, Nothing);
  }

  lemma AtAll(s: Octets)
    ensures At(s, 0, s)
  {
    assert s[0..|s|] == s;
  }
}
