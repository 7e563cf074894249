/** The cursor that reads types and values in place, loop by loop, against the grammar of TypedData. */
module TypedCursor {
  import opened Bytes
  import opened Reading
  import opened TypedData

  class Cursor {
    const input: Octets
    const max: nat
    var position: nat
    var consumed: nat

    constructor (input: Octets, max: nat)
      ensures this.input == input && this.max == max && position == 0 && consumed == 0
    {
      this.input, this.max, position, consumed := input, max, 0, 0;
    }

    ghost predicate Valid()
      reads this`position
    {
      position <= |input|
    }

    /** A method's outcome is that of the grammar: the value and the new position, or the error. */
    ghost predicate Follows<T>(r: Result<T, Error>, parsed: Parsed<T>)
      reads this`position
    {
      match parsed
      case Got(value, next) => r == Ok(value) && position == next
      case Fail(error) => r == Err(error)
    }

    ghost predicate FollowsRead<T>(r: Result<T, Error>, read: Read<T>)
      reads this`position, this`consumed
    {
      match read
      case Have(value, next, used) => r == Ok(value) && position == next && consumed == used
      case Bad(error) => r == Err(error)
    }

    method Advance<T>(parsed: Parsed<T>) returns (r: Result<T, Error>)
      requires Valid() && parsed.Forward(input, position)
      modifies this`position
      ensures Valid() && Follows(r, parsed)
    {
      match parsed
      case Fail(error) => r := Err(error);
      case Got(value, next) =>
        position := next;
        r := Ok(value);
    }

    // ----- Types -----

    method ReadType() returns (r: Result<TypeInfo, Error>)
      requires Valid()
      modifies this`position
      ensures Valid() && Follows(r, ReadTypeInfo(input, old(position)))
      decreases |input| - position, 1
    {
      hide ReadTable, ReadTypeAfterId;
      var id :- Advance(U8(input, position, Truncated));
      AfterId(input, position, id);
      if id == 0xf3 {
        var table :- ReadTableType();
        return Ok(TypeInfo(id, None, None, Tvp(table)));
      }
      r := Advance(ReadTypeAfterId(input, position, id));
    }

    method ReadTableType() returns (r: Result<Table, Error>)
      requires Valid()
      modifies this`position
      ensures Valid() && Follows(r, ReadTable(input, old(position)))
      decreases |input| - position, 0
    {
      hide ReadColumn, ReadTokens, TableShape, Permutation;
      var _ :- Advance(ByteName(input, position));
      var _ :- Advance(ByteName(input, position));
      var _ :- Advance(ByteName(input, position));
      var count :- Advance(U16(input, position, Truncated));
      if count != U16_MAX && count > 1024 {
        return Err(TvpColumns);
      }
      var columns :- ReadColumnList(if count == U16_MAX then 0 else count);
      var order :- ReadTokenList(columns);
      r := Ok(Table(columns, order));
    }

    method ReadColumnList(count: nat) returns (r: Result<seq<Column>, Error>)
      requires Valid()
      modifies this`position
      ensures Valid() && Follows(r, ReadColumns(input, old(position), count))
      decreases |input| - position, 3
    {
      hide ReadColumn, AllowedColumn;
      var columns: seq<Column> := [];
      ghost var all := ReadColumns(input, position, count);
      assert all.Got? ==> [] + all.value == all.value;
      for i := 0 to count
        invariant Valid() && old(position) <= position
        invariant
          var rest := ReadColumns(input, position, count - i);
          all == if rest.Got? then Got(columns + rest.value, rest.next) else Fail(rest.error)
      {
        var column :- ReadOneColumn();
        ghost var rest := ReadColumns(input, position, count - i - 1);
        if rest.Got? {
          ConcatAssoc(columns, [column], rest.value);
        }
        columns := columns + [column];
      }
      assert columns + [] == columns;
      r := Ok(columns);
    }

    method ReadOneColumn() returns (r: Result<Column, Error>)
      requires Valid()
      modifies this`position
      ensures Valid() && Follows(r, ReadColumn(input, old(position)))
      decreases |input| - position, 2
    {
      hide ReadTypeInfo, AllowedInTable, WellFormed;
      var userType :- Advance(U32(input, position, Truncated));
      var flags :- Advance(U16(input, position, Truncated));
      var ty :- ReadType();
      if !AllowedInTable(ty.id) {
        return Err(TvpType);
      }
      var name :- Advance(ByteName(input, position));
      r := Ok(Column(userType, flags, ty, name));
    }

    /** Row order and uniqueness metadata; the stated order replaces the natural one. */
    method ReadTokenList(columns: seq<Column>) returns (r: Result<seq<nat>, Error>)
      requires Valid()
      modifies this`position
      ensures Valid() && Follows(r, ReadTokens(input, old(position), columns, Identity(|columns|), false, false))
    {
      hide Permutation, Identity, ReadOrdering, ReadOrderUnique;
      var order, sawUnique, sawOrdering := Identity(|columns|), false, false;
      ghost var all := ReadTokens(input, position, columns, order, false, false);
      while true
        invariant Valid() && Permutation(order, |columns|)
        invariant ReadTokens(input, position, columns, order, sawUnique, sawOrdering) == all
        decreases |input| - position
      {
        var token :- Advance(U8(input, position, Truncated));
        if token == 0x00 {
          return Ok(order);
        } else if token == 0x10 {
          if sawUnique {
            return Err(DuplicateToken);
          }
          sawUnique := true;
          var entries :- Advance(U16(input, position, Truncated));
          if entries > |columns| {
            return Err(OrderUniqueCount);
          }
          var _ :- ReadOrderUniqueEntries(entries, columns);
        } else if token == 0x11 {
          if sawOrdering {
            return Err(DuplicateToken);
          }
          sawOrdering := true;
          var entries :- Advance(U16(input, position, Truncated));
          if entries != |columns| {
            return Err(OrderingCount);
          }
          NothingOrdered(|columns|);
          order :- ReadOrderingEntries(|columns|);
        } else {
          return Err(UnknownToken);
        }
      }
    }

    method ReadOrderUniqueEntries(entries: nat, columns: seq<Column>) returns (r: Result<(), Error>)
      requires Valid()
      modifies this`position
      ensures Valid() && Follows(r, ReadOrderUnique(input, old(position), entries, columns, {}))
    {
      hide GoodOrderUnique;
      var seen: set<nat> := {};
      for i := 0 to entries
        invariant Valid()
        invariant ReadOrderUnique(input, position, entries - i, columns, seen) ==
                  ReadOrderUnique(input, old(position), entries, columns, {})
      {
        var ordinal :- Advance(U16(input, position, Truncated));
        var flags :- Advance(U8(input, position, Truncated));
        if !GoodOrderUnique(columns, seen, ordinal, flags) {
          return Err(OrderUniqueEntry);
        }
        seen := seen + {ordinal};
      }
      r := Ok(());
    }

    method ReadOrderingEntries(n: nat) returns (r: Result<seq<nat>, Error>)
      requires Valid() && Injective([], n)
      modifies this`position
      ensures Valid() && Follows(r, ReadOrdering(input, old(position), n, []))
    {
      var seen := new bool[n](_ => false);
      var order: seq<nat> := [];
      for i := 0 to n
        invariant Valid() && |order| == i && Injective(order, n)
        invariant forall k | 0 <= k < n :: seen[k] <==> k in order
        invariant ReadOrdering(input, position, n, order) == ReadOrdering(input, old(position), n, [])
      {
        var ordinal :- Advance(U16(input, position, Truncated));
        if ordinal == 0 || ordinal > n || seen[ordinal - 1] {
          return Err(OrderingOrdinal);
        }
        seen[ordinal - 1] := true;
        order := order + [ordinal - 1];
      }
      r := Ok(order);
    }

    // ----- Values -----

    method Keep<T>(read: Read<T>) returns (r: Result<T, Error>)
      requires Valid() && (read.Have? ==> position <= read.next <= |input|)
      modifies this`position, this`consumed
      ensures Valid() && FollowsRead(r, read)
    {
      match read
      case Bad(error) => r := Err(error);
      case Have(value, next, used) =>
        position, consumed := next, used;
        r := Ok(value);
    }

    /** Chunks accumulate until an empty one; then a stated total must agree. */
    method ReadPlpBytes() returns (r: Result<Option<Octets>, Error>)
      requires Valid()
      modifies this`position, this`consumed
      ensures Valid() && FollowsRead(r, ReadPlp(input, max, old(position), old(consumed)))
    {
      var total :- Advance(U64(input, position, Truncated));
      if total == PLP_NULL {
        return Ok(None);
      }
      if total != PLP_UNKNOWN && total > max {
        return Err(PlpLimit);
      }
      var value: Octets := [];
      ghost var all := PlpChunks(input, max, position, consumed, []);
      while true
        invariant Valid()
        invariant PlpChunks(input, max, position, consumed, value) == all
        decreases |input| - position
      {
        var n :- Advance(U32(input, position, Truncated));
        if n == 0 {
          break;
        }
        var chunk :- Keep(ValueBytes(input, max, position, consumed, n));
        value := value + chunk;
      }
      if total != PLP_UNKNOWN && |value| != total {
        return Err(PlpMismatch);
      }
      r := Ok(Some(value));
    }

    method DecodePlp(ty: TypeInfo) returns (r: Result<Scalar, Error>)
      requires Valid()
      modifies this`position, this`consumed
      ensures Valid() && FollowsRead(r, PlpValue(input, max, old(position), old(consumed), ty))
    {
      hide ReadPlp;
      var bytes :- ReadPlpBytes();
      match bytes
      case None => r := Ok(Null);
      case Some(raw) => r := Keep(Decode(ty, raw, position, consumed));
    }

    /** The canonical form is tried on a copy of the cursor, so a failed attempt costs nothing. */
    method ReadJson(ty: TypeInfo) returns (r: Result<Scalar, Error>)
      requires Valid()
      modifies this`position, this`consumed
      ensures Valid() && FollowsRead(r, JsonValue(input, max, old(position), old(consumed), ty))
    {
      hide ReadPlp;
      var start, used := position, consumed;
      var canonical := ReadPlpBytes();
      match canonical
      case Ok(None) => r := Ok(Null);
      case Ok(Some(raw)) => r := Keep(Decode(ty, raw, position, consumed));
      case Err(error) =>
        position, consumed := start, used;
        if position + 2 > |input| || input[position] != 0xff || input[position + 1] != 0xff {
          return Err(error);
        }
        position := position + 2;
        r := DecodePlp(ty);
    }

    method ReadScalarValue(ty: TypeInfo) returns (r: Result<Scalar, Error>)
      requires Valid() && !ty.kind.Tvp?
      modifies this`position, this`consumed
      ensures Valid() && FollowsRead(r, ReadScalar(input, max, old(position), old(consumed), ty))
    {
      hide PlpValue, JsonValue, Sized, Decode, ValueBytes;
      if ty.kind.Plp? {
        r := DecodePlp(ty);
      } else if ty.kind.Json? {
        r := ReadJson(ty);
      } else {
        r := Keep(ReadScalar(input, max, position, consumed, ty));
      }
    }

    method ReadTableRows(table: Table) returns (r: Result<seq<seq<Cell>>, Error>)
      requires Valid() && TableShape(table)
      modifies this`position, this`consumed
      ensures Valid() && FollowsRead(r, ReadRows(input, max, old(position), old(consumed), table, 0))
    {
      hide ReadRow, TableShape;
      var rows: seq<seq<Cell>> := [];
      ghost var all := ReadRows(input, max, position, consumed, table, 0);
      assert all.Have? ==> [] + all.value == all.value;
      while true
        invariant Valid()
        invariant
          var rest := ReadRows(input, max, position, consumed, table, |rows|);
          all == if rest.Have? then Have(rows + rest.value, rest.next, rest.used) else Bad(rest.error)
        decreases |input| - position
      {
        var token :- Advance(U8(input, position, Truncated));
        if token == 0x00 {
          assert rows + [] == rows;
          return Ok(rows);
        } else if token != 0x01 {
          return Err(UnknownRowToken);
        }
        if |rows| + 1 > MAX_ROWS {
          return Err(RowLimit);
        }
        var row :- ReadTableRow(table);
        ghost var rest := ReadRows(input, max, position, consumed, table, |rows| + 1);
        if rest.Have? {
          ConcatAssoc(rows, [row], rest.value);
        }
        rows := rows + [row];
      }
    }

    method ReadTableRow(table: Table) returns (r: Result<seq<Cell>, Error>)
      requires Valid() && TableShape(table)
      modifies this`position, this`consumed
      ensures Valid() && FollowsRead(r, ReadRow(input, max, old(position), old(consumed), table, 0))
      ensures r.Ok? ==> old(position) <= position
    {
      hide ReadScalar, DefaultColumn;
      var row: seq<Cell> := [];
      ghost var all := ReadRow(input, max, position, consumed, table, 0);
      assert all.Have? ==> [] + all.value == all.value;
      for k := 0 to |table.rowOrder|
        invariant Valid() && old(position) <= position
        invariant
          var rest := ReadRow(input, max, position, consumed, table, k);
          all == if rest.Have? then Have(row + rest.value, rest.next, rest.used) else Bad(rest.error)
      {
        var column := table.columns[table.rowOrder[k]];
        var cell := Default;
        if !DefaultColumn(column) {
          var scalar :- ReadScalarValue(column.ty);
          cell := Filled(scalar);
        }
        ghost var rest := ReadRow(input, max, position, consumed, table, k + 1);
        if rest.Have? {
          ConcatAssoc(row, [cell], rest.value);
        }
        row := row + [cell];
      }
      assert row + [] == row;
      r := Ok(row);
    }

    method ReadAnyValue(ty: TypeInfo) returns (r: Result<Value, Error>)
      requires Valid() && WellFormed(ty)
      modifies this`position, this`consumed
      ensures Valid() && FollowsRead(r, ReadValue(input, max, old(position), old(consumed), ty))
      ensures r.Ok? ==> old(position) <= position && consumed == old(consumed) + KeptInValue(r.value)
      ensures r.Ok? && old(consumed) <= max ==> consumed <= max
    {
      hide ReadRows, ReadScalar, TableShape;
      if ty.kind.Tvp? {
        var rows :- ReadTableRows(ty.kind.table);
        r := Ok(Rows(rows));
      } else {
        var scalar :- ReadScalarValue(ty);
        r := Ok(Single(scalar));
      }
    }
  }

  lemma NothingOrdered(n: nat)
    ensures Injective([], n)
  {
  }

  function AsType(table: Parsed<Table>): Parsed<TypeInfo> {
    if table.Got? then Got(TypeInfo(0xf3, None, None, Tvp(table.value)), table.next) else Fail(table.error)
  }

  lemma AfterId(s: Octets, p: nat, id: byte)
    requires p <= |s|
    ensures id == 0xf3 ==> ReadTypeAfterId(s, p, id) == AsType(ReadTable(s, p))
  {
  }
}
