/**
 TYPE_INFO and the type-dependent values of MS-TDS section 2.2.5.6: what a
 cursor reads, where it ends up and what it charges to the value budget.
 */
module TypedData {
  import opened Bytes
  import opened Reading

  datatype Error =
    | Truncated | UnknownType | BadScale | BadPrecision | VectorTooLong
    | TvpColumns | TvpType | DuplicateToken | OrderUniqueCount | OrderUniqueEntry
    | OrderingCount | OrderingOrdinal | UnknownToken
    | ValueLimit | AboveMaximum | PlpLimit | PlpMismatch
    | BadWidth | BadVector | OddUtf16 | UnknownRowToken | RowLimit

  /** Metadata read up to `next`. */
  type Parsed<+T> = Attempt<T, Error>

  /** A name counted in UTF-16 units by one octet. */
  function ByteName(s: Octets, p: nat): (r: Parsed<Octets>)
    ensures r.Forward(s, p) && (r.Got? ==> r.next > p)
  {
    var (units, p1) :- U8(s, p, Truncated);
    Take(s, p1, 2 * units as int, Truncated)
  }

  /** A name counted in UTF-16 units by two octets. */
  function ShortName(s: Octets, p: nat): (r: Parsed<Octets>)
    ensures r.Forward(s, p) && (r.Got? ==> r.next > p)
  {
    var (units, p1) :- U16(s, p, Truncated);
    Take(s, p1, 2 * units, Truncated)
  }

  // ----- Types -----

  datatype Kind = Fixed(width: nat) | ByteLength | ShortLength | LongLength | Plp | Json | Variant | Tvp(table: Table)

  datatype TypeInfo = TypeInfo(id: byte, maximum: Option<nat>, scale: Option<nat>, kind: Kind)

  datatype Column = Column(userType: nat, flags: nat, ty: TypeInfo, name: Octets)

  datatype Table = Table(columns: seq<Column>, rowOrder: seq<nat>)

  function FixedWidth(id: byte): Option<nat> {
    match id
    case 0x1f => Some(0)
    case 0x30 => Some(1)
    case 0x32 => Some(1)
    case 0x34 => Some(2)
    case 0x38 => Some(4)
    case 0x3a => Some(4)
    case 0x3b => Some(4)
    case 0x7a => Some(4)
    case 0x3c => Some(8)
    case 0x3d => Some(8)
    case 0x3e => Some(8)
    case 0x7f => Some(8)
    case _ => None
  }

  /** Legacy fixed and narrow types, and tables themselves, may not be table columns. */
  predicate AllowedInTable(id: byte) {
    FixedWidth(id).None? && id !in {0x25, 0x27, 0x2d, 0x2f, 0x37, 0x3f, 0xf3}
  }

  predicate DefaultColumn(column: Column) {
    Bit(column.flags, 0x0200)
  }

  predicate Permutation(order: seq<nat>, n: nat) {
    && |order| == n
    && (forall i | 0 <= i < n :: order[i] < n)
    && (forall i, j | 0 <= i < j < n :: order[i] != order[j])
  }

  /** What every table type a client can send satisfies. */
  predicate TableShape(table: Table) {
    && |table.columns| <= 1024
    && (forall i | 0 <= i < |table.columns| :: AllowedColumn(table.columns[i]))
    && Permutation(table.rowOrder, |table.columns|)
  }

  predicate AllowedColumn(column: Column) {
    AllowedInTable(column.ty.id) && !column.ty.kind.Tvp?
  }

  predicate WellFormed(ty: TypeInfo) {
    ty.kind.Tvp? ==> ty.id == 0xf3 && TableShape(ty.kind.table)
  }

  function ReadTypeInfo(s: Octets, p: nat): (r: Parsed<TypeInfo>)
    ensures r.Forward(s, p) && (r.Got? ==> r.next > p && WellFormed(r.value))
    decreases |s| - p, 2
  {
    var (id, p1) :- U8(s, p, Truncated);
    ReadTypeAfterId(s, p1, id)
  }

  function ReadTypeAfterId(s: Octets, p: nat, id: byte): (r: Parsed<TypeInfo>)
    requires p <= |s|
    ensures r.Forward(s, p) && (r.Got? ==> r.value.id == id && WellFormed(r.value))
    decreases |s| - p, 1
  {
    if FixedWidth(id).Some? then Got(TypeInfo(id, None, None, Fixed(FixedWidth(id).value)), p)
    else if id == 0x28 then Got(TypeInfo(id, None, None, ByteLength), p)
    else if id in {0x29, 0x2a, 0x2b} then
      var (scale, p1) :- U8(s, p, Truncated);
      if scale > 7 then Fail(BadScale) else Got(TypeInfo(id, None, Some(scale), ByteLength), p1)
    else if id in {0x37, 0x3f, 0x6a, 0x6c} then
      var (maximum, p1) :- U8(s, p, Truncated);
      var (precision, p2) :- U8(s, p1, Truncated);
      var (scale, p3) :- U8(s, p2, Truncated);
      if precision > 38 || scale > precision then Fail(BadPrecision)
      else Got(TypeInfo(id, Some(maximum), Some(scale), ByteLength), p3)
    else if id in {0x24, 0x26, 0x25, 0x27, 0x2d, 0x2f, 0x68, 0x6d, 0x6e, 0x6f} then
      var (maximum, p1) :- U8(s, p, Truncated);
      Got(TypeInfo(id, Some(maximum), None, ByteLength), p1)
    else if id in {0xa5, 0xa7, 0xad, 0xaf, 0xe7, 0xef} then
      var (maximum, p1) :- U16(s, p, Truncated);
      var (_, p2) :- Take(s, p1, if id in {0xa7, 0xaf, 0xe7, 0xef} then 5 else 0, Truncated);
      Got(TypeInfo(id, Some(maximum), None, if maximum == U16_MAX then Plp else ShortLength), p2)
    else if id in {0x22, 0x23, 0x63} then
      var (maximum, p1) :- U32(s, p, Truncated);
      var (_, p2) :- Take(s, p1, if id == 0x22 then 0 else 5, Truncated);
      Got(TypeInfo(id, Some(maximum), None, LongLength), p2)
    else if id == 0x62 then
      var (maximum, p1) :- U32(s, p, Truncated);
      Got(TypeInfo(id, Some(maximum), None, Variant), p1)
    else if id == 0xf0 then
      var (maximum, p1) :- U16(s, p, Truncated);
      var (_, p2) :- ByteName(s, p1);
      var (_, p3) :- ByteName(s, p2);
      var (_, p4) :- ByteName(s, p3);
      var (_, p5) :- ShortName(s, p4);
      Got(TypeInfo(id, Some(maximum), None, Plp), p5)
    else if id == 0xf1 then
      var (schema, p1) :- U8(s, p, Truncated);
      if schema == 0 then Got(TypeInfo(id, None, None, Plp), p1) else
      var (_, p2) :- ByteName(s, p1);
      var (_, p3) :- ByteName(s, p2);
      var (_, p4) :- ShortName(s, p3);
      Got(TypeInfo(id, None, None, Plp), p4)
    else if id == 0xf3 then
      var (table, p1) :- ReadTable(s, p);
      Got(TypeInfo(id, None, None, Tvp(table)), p1)
    else if id == 0xf4 then Got(TypeInfo(id, None, None, Json), p)
    else if id == 0xf5 then
      var (maximum, p1) :- U16(s, p, Truncated);
      if maximum > 8000 then Fail(VectorTooLong) else
      var (dimensionType, p2) :- U8(s, p1, Truncated);
      Got(TypeInfo(id, Some(maximum), Some(dimensionType), ShortLength), p2)
    else Fail(UnknownType)
  }

  // ----- Table types -----

  function Identity(n: nat): (order: seq<nat>)
    ensures Permutation(order, n)
  {
    seq(n, i => i)
  }

  function ReadTable(s: Octets, p: nat): (r: Parsed<Table>)
    ensures r.Forward(s, p) && (r.Got? ==> TableShape(r.value))
    decreases |s| - p, 0
  {
    var (_, p1) :- ByteName(s, p);
    var (_, p2) :- ByteName(s, p1);
    var (_, p3) :- ByteName(s, p2);
    var (count, p4) :- U16(s, p3, Truncated);
    if count != U16_MAX && count > 1024 then Fail(TvpColumns) else
    var (columns, p5) :- ReadColumns(s, p4, if count == U16_MAX then 0 else count);
    var (order, p6) :- ReadTokens(s, p5, columns, Identity(|columns|), false, false);
    Got(Table(columns, order), p6)
  }

  function ReadColumn(s: Octets, p: nat): (r: Parsed<Column>)
    ensures r.Forward(s, p) && (r.Got? ==> r.next > p && AllowedColumn(r.value))
    decreases |s| - p, 3
  {
    var (userType, p1) :- U32(s, p, Truncated);
    var (flags, p2) :- U16(s, p1, Truncated);
    var (ty, p3) :- ReadTypeInfo(s, p2);
    if !AllowedInTable(ty.id) then Fail(TvpType) else
    var (name, p4) :- ByteName(s, p3);
    Got(Column(userType, flags, ty, name), p4)
  }

  function ReadColumns(s: Octets, p: nat, count: nat): (r: Parsed<seq<Column>>)
    requires p <= |s|
    ensures r.Forward(s, p)
    ensures r.Got? ==> |r.value| == count && forall i | 0 <= i < count :: AllowedColumn(r.value[i])
    decreases |s| - p, 4
  {
    if count == 0 then Got([], p) else
    var (column, p1) :- ReadColumn(s, p);
    var (more, p2) :- ReadColumns(s, p1, count - 1);
    Got([column] + more, p2)
  }

  /** Optional metadata up to the end token; the last row order stated is the one in force. */
  function ReadTokens(
    s: Octets, p: nat, columns: seq<Column>, order: seq<nat>, sawUnique: bool, sawOrdering: bool): (r: Parsed<seq<nat>>)
    requires Permutation(order, |columns|)
    ensures r.Forward(s, p) && (r.Got? ==> Permutation(r.value, |columns|))
    decreases |s| - p, 0
  {
    var (token, p1) :- U8(s, p, Truncated);
    if token == 0x00 then Got(order, p1)
    else if token == 0x10 then
      if sawUnique then Fail(DuplicateToken) else
      var (entries, p2) :- U16(s, p1, Truncated);
      if entries > |columns| then Fail(OrderUniqueCount) else
      var (_, p3) :- ReadOrderUnique(s, p2, entries, columns, {});
      ReadTokens(s, p3, columns, order, true, sawOrdering)
    else if token == 0x11 then
      if sawOrdering then Fail(DuplicateToken) else
      var (entries, p2) :- U16(s, p1, Truncated);
      if entries != |columns| then Fail(OrderingCount) else
      var (stated, p3) :- ReadOrdering(s, p2, |columns|, []);
      ReadTokens(s, p3, columns, stated, sawUnique, true)
    else Fail(UnknownToken)
  }

  predicate GoodOrderUnique(columns: seq<Column>, seen: set<nat>, ordinal: nat, flags: byte) {
    && 0 < ordinal <= |columns| && ordinal !in seen && !DefaultColumn(columns[ordinal - 1])
    && 0 < flags < 8 && flags % 4 != 3
  }

  function ReadOrderUnique(s: Octets, p: nat, entries: nat, columns: seq<Column>, seen: set<nat>): (r: Parsed<()>)
    requires p <= |s|
    ensures r.Forward(s, p)
    decreases entries
  {
    if entries == 0 then Got((), p) else
    var (ordinal, p1) :- U16(s, p, Truncated);
    var (flags, p2) :- U8(s, p1, Truncated);
    if !GoodOrderUnique(columns, seen, ordinal, flags) then Fail(OrderUniqueEntry)
    else ReadOrderUnique(s, p2, entries - 1, columns, seen + {ordinal})
  }

  predicate Injective(order: seq<nat>, n: nat) {
    && (forall i | 0 <= i < |order| :: order[i] < n)
    && (forall i, j | 0 <= i < j < |order| :: order[i] != order[j])
  }

  function ReadOrdering(s: Octets, p: nat, n: nat, order: seq<nat>): (r: Parsed<seq<nat>>)
    requires p <= |s| && |order| <= n && Injective(order, n)
    ensures r.Forward(s, p) && (r.Got? ==> Permutation(r.value, n))
    decreases n - |order|
  {
    if |order| == n then Got(order, p) else
    var (ordinal, p1) :- U16(s, p, Truncated);
    if ordinal == 0 || ordinal > n || ordinal - 1 in order then Fail(OrderingOrdinal)
    else ReadOrdering(s, p1, n, order + [ordinal - 1])
  }

  // ----- Values -----

  datatype Scalar = Null | Raw(bytes: Octets)

  /** A cell of a default column is not on the wire. */
  datatype Cell = Default | Filled(scalar: Scalar)

  datatype Value = Single(scalar: Scalar) | Rows(rows: seq<seq<Cell>>)

  function Kept(scalar: Scalar): nat {
    if scalar.Raw? then |scalar.bytes| else 0
  }

  function KeptInRow(row: seq<Cell>): nat {
    if row == [] then 0 else (if row[0].Filled? then Kept(row[0].scalar) else 0) + KeptInRow(row[1..])
  }

  function KeptInRows(rows: seq<seq<Cell>>): nat {
    if rows == [] then 0 else KeptInRow(rows[0]) + KeptInRows(rows[1..])
  }

  /** The value bytes a value holds. */
  function KeptInValue(value: Value): nat {
    if value.Single? then Kept(value.scalar) else KeptInRows(value.rows)
  }

  /** A value read up to `next` with `used` of the budget gone. */
  datatype Read<+T> = Have(value: T, next: nat, used: nat) | Bad(error: Error) {
    /** Forward within bounds, charged exactly `kept`, and within the budget if it was before. */
    predicate Charged(s: Octets, max: nat, p: nat, before: nat, kept: nat) {
      Have? ==> p <= next <= |s| && used == before + kept && (before <= max ==> used <= max)
    }
  }

  predicate ValidWidth(ty: TypeInfo, n: nat) {
    match ty.id
    case 0x24 => n == 16
    case 0x26 => n in {1, 2, 4, 8}
    case 0x28 => n == 3
    case 0x29 => TimeWidth(ty.scale) == Some(n)
    case 0x2a => TimeWidth(ty.scale).Some? && n == TimeWidth(ty.scale).value + 3
    case 0x2b => TimeWidth(ty.scale).Some? && n == TimeWidth(ty.scale).value + 5
    case 0x37 => n in {5, 9, 13, 17}
    case 0x3f => n in {5, 9, 13, 17}
    case 0x6a => n in {5, 9, 13, 17}
    case 0x6c => n in {5, 9, 13, 17}
    case 0x68 => n == 1
    case 0x6d => n in {4, 8}
    case 0x6e => n in {4, 8}
    case 0x6f => n in {4, 8}
    case 0xf5 => 8 <= n <= 8000
    case _ => true
  }

  function TimeWidth(scale: Option<nat>): Option<nat> {
    if scale.None? || scale.value > 7 then None
    else if scale.value <= 2 then Some(3) else if scale.value <= 4 then Some(4) else Some(5)
  }

  /** A vector of a known layout states its own size. */
  predicate ValidVector(ty: TypeInfo, bytes: Octets)
    requires |bytes| >= 8
  {
    && bytes[0] == 0xa9
    && (bytes[1] == 0x01 ==>
          && ty.scale == Some(bytes[4] as nat)
          && (bytes[4] < 2 ==> |bytes| == 8 + FromU16Le(bytes[2..4]) * (if bytes[4] == 0 then 4 else 2)))
  }

  function Decode(ty: TypeInfo, bytes: Octets, next: nat, used: nat): (r: Read<Scalar>)
    ensures r.Have? ==> r == Have(Raw(bytes), next, used)
  {
    if !ValidWidth(ty, |bytes|) then Bad(BadWidth)
    else if ty.id == 0xf5 && !ValidVector(ty, bytes) then Bad(BadVector)
    else if ty.id in {0x63, 0xe7, 0xef} && |bytes| % 2 == 1 then Bad(OddUtf16)
    else Have(Raw(bytes), next, used)
  }

  /** `n` value bytes, charged before they are read. */
  function ValueBytes(s: Octets, max: nat, p: nat, used: nat, n: nat): (r: Read<Octets>)
    ensures r.Have? ==> r.Charged(s, max, p, used, |r.value|)
  {
    if used + n > max then Bad(ValueLimit)
    else if p + n > |s| then Bad(Truncated)
    else Have(s[p..p + n], p + n, used + n)
  }

  function Sized(s: Octets, max: nat, p: nat, used: nat, ty: TypeInfo, n: nat): (r: Read<Scalar>)
    ensures r.Have? ==> r.Charged(s, max, p, used, Kept(r.value))
  {
    if ty.maximum.Some? && n > ty.maximum.value then Bad(AboveMaximum) else
    match ValueBytes(s, max, p, used, n)
    case Bad(error) => Bad(error)
    case Have(bytes, next, used') => Decode(ty, bytes, next, used')
  }

  /** Length-prefixed chunks up to an empty one, appended to `value`. */
  function PlpChunks(s: Octets, max: nat, p: nat, used: nat, value: Octets): (r: Read<Octets>)
    ensures r.Have? ==> |value| <= |r.value| && r.Charged(s, max, p, used, |r.value| - |value|)
    decreases |s| - p
  {
    match U32(s, p, Truncated)
    case Fail(error) => Bad(error)
    case Got(n, p1) =>
      if n == 0 then Have(value, p1, used) else
      match ValueBytes(s, max, p1, used, n)
      case Bad(error) => Bad(error)
      case Have(chunk, p2, used') => PlpChunks(s, max, p2, used', value + chunk)
  }

  const PLP_NULL := U64_MAX
  const PLP_UNKNOWN := U64_MAX - 1

  function ReadPlp(s: Octets, max: nat, p: nat, used: nat): (r: Read<Option<Octets>>)
    ensures r.Have? ==> r.Charged(s, max, p, used, if r.value.Some? then |r.value.value| else 0)
  {
    match U64(s, p, Truncated)
    case Fail(error) => Bad(error)
    case Got(total, p1) =>
      if total == PLP_NULL then Have(None, p1, used)
      else if total != PLP_UNKNOWN && total > max then Bad(PlpLimit) else
      match PlpChunks(s, max, p1, used, [])
      case Bad(error) => Bad(error)
      case Have(value, p2, used') =>
        if total != PLP_UNKNOWN && |value| != total then Bad(PlpMismatch) else Have(Some(value), p2, used')
  }

  function PlpValue(s: Octets, max: nat, p: nat, used: nat, ty: TypeInfo): (r: Read<Scalar>)
    ensures r.Have? ==> r.Charged(s, max, p, used, Kept(r.value))
  {
    match ReadPlp(s, max, p, used)
    case Bad(error) => Bad(error)
    case Have(None, next, used') => Have(Null, next, used')
    case Have(Some(bytes), next, used') => Decode(ty, bytes, next, used')
  }

  /** JSON is canonical PLP or, failing that, PLP behind two octets 0xff. */
  function JsonValue(s: Octets, max: nat, p: nat, used: nat, ty: TypeInfo): (r: Read<Scalar>)
    ensures r.Have? ==> r.Charged(s, max, p, used, Kept(r.value))
  {
    if ReadPlp(s, max, p, used).Bad? && p + 2 <= |s| && s[p] == 0xff && s[p + 1] == 0xff
    then PlpValue(s, max, p + 2, used, ty)
    else PlpValue(s, max, p, used, ty)
  }

  function ReadScalar(s: Octets, max: nat, p: nat, used: nat, ty: TypeInfo): (r: Read<Scalar>)
    requires !ty.kind.Tvp?
    ensures r.Have? ==> r.Charged(s, max, p, used, Kept(r.value))
  {
    match ty.kind
    case Fixed(width) =>
      (match ValueBytes(s, max, p, used, width)
       case Bad(error) => Bad(error)
       case Have(bytes, next, used') => Decode(ty, bytes, next, used'))
    case ByteLength =>
      (match U8(s, p, Truncated)
       case Fail(error) => Bad(error)
       case Got(n, p1) => if n == 0 then Have(Null, p1, used) else Sized(s, max, p1, used, ty, n))
    case ShortLength =>
      (match U16(s, p, Truncated)
       case Fail(error) => Bad(error)
       case Got(n, p1) => if n == U16_MAX then Have(Null, p1, used) else Sized(s, max, p1, used, ty, n))
    case LongLength =>
      (match U32(s, p, Truncated)
       case Fail(error) => Bad(error)
       case Got(n, p1) => if n == U32_MAX then Have(Null, p1, used) else Sized(s, max, p1, used, ty, n))
    case Plp => PlpValue(s, max, p, used, ty)
    case Json => JsonValue(s, max, p, used, ty)
    case Variant =>
      (match U32(s, p, Truncated)
       case Fail(error) => Bad(error)
       case Got(n, p1) =>
         if n == 0 || n == U32_MAX then Have(Null, p1, used)
         else if ty.maximum.Some? && n > ty.maximum.value then Bad(AboveMaximum)
         else match ValueBytes(s, max, p1, used, n)
           case Bad(error) => Bad(error)
           case Have(bytes, next, used') => Have(Raw(bytes), next, used'))
  }

  const MAX_ROWS := 1_000_000

  /** The cells of one row in row order, from the `k`th on. */
  function ReadRow(s: Octets, max: nat, p: nat, used: nat, table: Table, k: nat): (r: Read<seq<Cell>>)
    requires p <= |s| && TableShape(table) && k <= |table.rowOrder|
    ensures r.Have? ==> r.Charged(s, max, p, used, KeptInRow(r.value))
    ensures r.Have? ==> |r.value| == |table.rowOrder| - k
    decreases |table.rowOrder| - k
  {
    if k == |table.rowOrder| then Have([], p, used) else
    var column := table.columns[table.rowOrder[k]];
    if DefaultColumn(column) then
      match ReadRow(s, max, p, used, table, k + 1)
      case Bad(error) => Bad(error)
      case Have(cells, next, used') => Have([Default] + cells, next, used')
    else
      match ReadScalar(s, max, p, used, column.ty)
      case Bad(error) => Bad(error)
      case Have(scalar, p1, used') =>
        match ReadRow(s, max, p1, used', table, k + 1)
        case Bad(error) => Bad(error)
        case Have(cells, next, used'') => Have([Filled(scalar)] + cells, next, used'')
  }

  /** Rows up to the end token, `count` having been read. */
  function ReadRows(s: Octets, max: nat, p: nat, used: nat, table: Table, count: nat): (r: Read<seq<seq<Cell>>>)
    requires TableShape(table)
    ensures r.Have? ==> r.Charged(s, max, p, used, KeptInRows(r.value))
    decreases |s| - p
  {
    match U8(s, p, Truncated)
    case Fail(error) => Bad(error)
    case Got(token, p1) =>
      if token == 0x00 then Have([], p1, used)
      else if token != 0x01 then Bad(UnknownRowToken)
      else if count + 1 > MAX_ROWS then Bad(RowLimit)
      else match ReadRow(s, max, p1, used, table, 0)
        case Bad(error) => Bad(error)
        case Have(row, p2, used') =>
          match ReadRows(s, max, p2, used', table, count + 1)
          case Bad(error) => Bad(error)
          case Have(rows, p3, used'') => Have([row] + rows, p3, used'')
  }

  function ReadValue(s: Octets, max: nat, p: nat, used: nat, ty: TypeInfo): (r: Read<Value>)
    requires WellFormed(ty)
    ensures r.Have? ==> r.Charged(s, max, p, used, KeptInValue(r.value))
  {
    if ty.kind.Tvp? then
      match ReadRows(s, max, p, used, ty.kind.table, 0)
      case Bad(error) => Bad(error)
      case Have(rows, next, used') => Have(Rows(rows), next, used')
    else
      match ReadScalar(s, max, p, used, ty)
      case Bad(error) => Bad(error)
      case Have(scalar, next, used') => Have(Single(scalar), next, used')
  }
}
