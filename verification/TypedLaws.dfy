/** What the typed-value grammar guarantees beyond one read: rows cover their columns, chunking is invisible. */
module TypedLaws {
  import opened Bytes
  import opened Reading
  import opened TypedData

  // ----- Rows and columns -----

  lemma {:induction false} RowFollowsOrder(s: Octets, max: nat, p: nat, used: nat, table: Table, k: nat, i: nat)
    requires p <= |s| && TableShape(table) && k + i < |table.rowOrder|
    requires ReadRow(s, max, p, used, table, k).Have?
    ensures ReadRow(s, max, p, used, table, k).value[i].Default? <==>
            DefaultColumn(table.columns[table.rowOrder[k + i]])
    decreases i
  {
    hide ReadScalar, DefaultColumn, KeptInRow;
    if i > 0 {
      var column := table.columns[table.rowOrder[k]];
      if DefaultColumn(column) {
        RowFollowsOrder(s, max, p, used, table, k + 1, i - 1);
      } else {
        var first := ReadScalar(s, max, p, used, column.ty);
        RowFollowsOrder(s, max, first.next, first.used, table, k + 1, i - 1);
      }
    }
  }

  /** A permutation names every index, by the pigeonhole principle. */
  lemma {:induction false} PermutationCovers(order: seq<nat>, n: nat, c: nat)
    requires Permutation(order, n) && c < n
    ensures exists k | 0 <= k < n :: order[k] == c
  {
    var values := set k | 0 <= k < n :: order[k];
    DistinctValues(order);
    assert values <= Below(n);
    SubsetOfEqualSize(values, Below(n));
    assert c in values;
  }

  lemma {:induction false} DistinctValues(order: seq<nat>)
    requires forall i, j | 0 <= i < j < |order| :: order[i] != order[j]
    ensures |set k | 0 <= k < |order| :: order[k]| == |order|
  {
    var values := set k | 0 <= k < |order| :: order[k];
    if order == [] {
      assert values == {};
    } else {
      var last := |order| - 1;
      DistinctValues(order[..last]);
      var fewer := set k | 0 <= k < |order[..last]| :: order[..last][k];
      assert order[last] !in fewer;
      forall v ensures v in values <==> v in fewer + {order[last]} {
        if v in fewer {
          var k :| 0 <= k < last && order[..last][k] == v;
          assert order[k] == v;
        }
        if v in values {
          var k :| 0 <= k < |order| && order[k] == v;
          assert k < last ==> order[..last][k] == v;
        }
      }
      assert values == fewer + {order[last]};
    }
  }

  function Below(n: nat): (all: set<nat>)
    ensures |all| == n && forall i :: i in all <==> 0 <= i < n
  {
    if n == 0 then {} else Below(n - 1) + {n - 1}
  }

  lemma SubsetOfEqualSize(a: set<nat>, b: set<nat>)
    requires a <= b && |a| == |b|
    ensures a == b
  {
    assert b == a + (b - a);
    assert |b| == |a| + |b - a|;
  }

  /** The position of a column in row order is unique, and that cell is on the wire exactly if the column is no default. */
  lemma EachColumnOnce(s: Octets, max: nat, p: nat, used: nat, table: Table, c: nat)
    requires p <= |s| && TableShape(table) && c < |table.columns|
    requires ReadRow(s, max, p, used, table, 0).Have?
    ensures
      var row := ReadRow(s, max, p, used, table, 0).value;
      exists k | 0 <= k < |row| ::
        && table.rowOrder[k] == c
        && (forall j | 0 <= j < |row| :: table.rowOrder[j] == c ==> j == k)
        && (row[k].Default? <==> DefaultColumn(table.columns[c]))
  {
    PermutationCovers(table.rowOrder, |table.columns|, c);
    var k :| 0 <= k < |table.columns| && table.rowOrder[k] == c;
    RowFollowsOrder(s, max, p, used, table, 0, k);
  }

  // ----- PLP chunks -----

  predicate GoodChunks(chunks: seq<Octets>) {
    forall i | 0 <= i < |chunks| :: 0 < |chunks[i]| <= U32_MAX
  }

  function ChunkWire(chunks: seq<Octets>): Octets
    requires GoodChunks(chunks)
  {
    if chunks == [] then U32Le(0) else U32Le(|chunks[0]|) + (chunks[0] + ChunkWire(chunks[1..]))
  }

  /** A value as a client may send it: its total stated or unknown, and any division into chunks. */
  function PlpWire(stated: bool, chunks: seq<Octets>): Octets
    requires GoodChunks(chunks) && |Flatten(chunks)| < PLP_UNKNOWN
  {
    U64Le(if stated then |Flatten(chunks)| else PLP_UNKNOWN) + ChunkWire(chunks)
  }

  lemma {:induction false} ChunksRead(s: Octets, max: nat, p: nat, used: nat, value: Octets, chunks: seq<Octets>)
    requires GoodChunks(chunks) && At(s, p, ChunkWire(chunks)) && used <= max
    ensures PlpChunks(s, max, p, used, value) ==
            if used + |Flatten(chunks)| <= max
            then Have(value + Flatten(chunks), p + |ChunkWire(chunks)|, used + |Flatten(chunks)|)
            else Bad(ValueLimit)
    decreases |chunks|
  {
    hide At, U32, U32Le;
    if chunks == [] {
      U32At(s, p, 0, Truncated);
      assert value + [] == value;
    } else {
      var chunk, rest := chunks[0], chunks[1..];
      AtSplit(s, p, U32Le(|chunk|), chunk + ChunkWire(rest));
      U32At(s, p, |chunk|, Truncated);
      AtSplit(s, p + 4, chunk, ChunkWire(rest));
      ChunkBytes(s, max, p + 4, used, chunk);
      if used + |chunk| <= max {
        ChunksRead(s, max, p + 4 + |chunk|, used + |chunk|, value + chunk, rest);
        ConcatAssoc(value, chunk, Flatten(rest));
      }
    }
  }

  lemma ChunkBytes(s: Octets, max: nat, p: nat, used: nat, chunk: Octets)
    requires At(s, p, chunk)
    ensures ValueBytes(s, max, p, used, |chunk|) ==
            if used + |chunk| <= max then Have(chunk, p + |chunk|, used + |chunk|) else Bad(ValueLimit)
  {
  }

  /**
   A PLP value is read back whole, whatever its chunks, exactly if it fits the
   budget that is left; which error it gets otherwise does not depend on the
   chunks either.
   */
  lemma PlpRoundTrip(s: Octets, max: nat, p: nat, used: nat, stated: bool, chunks: seq<Octets>)
    requires GoodChunks(chunks) && |Flatten(chunks)| < PLP_UNKNOWN
    requires At(s, p, PlpWire(stated, chunks)) && used <= max
    ensures
      var value := Flatten(chunks);
      ReadPlp(s, max, p, used) ==
      if used + |value| <= max then Have(Some(value), p + |PlpWire(stated, chunks)|, used + |value|)
      else if stated && |value| > max then Bad(PlpLimit)
      else Bad(ValueLimit)
  {
    hide ChunkWire, PlpChunks;
    var total := if stated then |Flatten(chunks)| else PLP_UNKNOWN;
    AtSplit(s, p, U64Le(total), ChunkWire(chunks));
    U64LeRoundTrip(total);
    ChunksRead(s, max, p + 8, used, [], chunks);
    assert [] + Flatten(chunks) == Flatten(chunks);
  }

  /** Two divisions of the same bytes cannot be told apart by what is read, charged or refused. */
  lemma ChunkingIsInvisible(s: Octets, t: Octets, max: nat, used: nat, stated: bool, a: seq<Octets>, b: seq<Octets>)
    requires GoodChunks(a) && GoodChunks(b) && Flatten(a) == Flatten(b) && |Flatten(a)| < PLP_UNKNOWN
    requires At(s, 0, PlpWire(stated, a)) && At(t, 0, PlpWire(stated, b)) && used <= max
    ensures
      var x, y := ReadPlp(s, max, 0, used), ReadPlp(t, max, 0, used);
      if x.Have? then y.Have? && y.value == x.value && y.used == x.used else y == Bad(x.error)
  {
    hide ReadPlp, PlpWire, At;
    PlpRoundTrip(s, max, 0, used, stated, a);
    PlpRoundTrip(t, max, 0, used, stated, b);
  }
}
