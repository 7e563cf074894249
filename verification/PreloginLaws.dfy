/** Data that the strict parser accepts never overlaps. */
module PreloginLaws {
  import opened Bytes
  import opened Prelogin

  predicate Disjoint(a: Interval, b: Interval) {
    a.end <= b.start || b.end <= a.start
  }

  predicate AllDisjoint(intervals: seq<Interval>) {
    forall i, j | 0 <= i < j < |intervals| :: Disjoint(intervals[i], intervals[j])
  }

  /** Without an overlap fault the intervals follow one another, whatever order ties were put in. */
  lemma {:induction false} NoOverlapFault(intervals: seq<Interval>, previous: nat)
    requires Overlaps(intervals, previous) == []
    ensures forall i | 0 <= i < |intervals| :: previous <= intervals[i].start
    ensures AllDisjoint(intervals)
    decreases |intervals|
  {
    if intervals != [] {
      var first, rest := intervals[0], intervals[1..];
      NoOverlapFault(rest, Max(previous, first.end));
      forall i, j | 0 <= i < j < |intervals| ensures Disjoint(intervals[i], intervals[j]) {
        if i == 0 {
          assert intervals[j] == rest[j - 1];
        } else {
          assert intervals[i] == rest[i - 1] && intervals[j] == rest[j - 1];
        }
      }
      forall i | 0 <= i < |intervals| ensures previous <= intervals[i].start {
        if i > 0 {
          assert intervals[i] == rest[i - 1];
        }
      }
    }
  }

  lemma {:induction false} InsertMembers(x: Interval, intervals: seq<Interval>)
    ensures x in Insert(x, intervals) && forall y | y in intervals :: y in Insert(x, intervals)
  {
    if intervals != [] && x.start > intervals[0].start {
      InsertMembers(x, intervals[1..]);
      assert intervals == [intervals[0]] + intervals[1..];
    }
  }

  lemma {:induction false} InsertBack(x: Interval, intervals: seq<Interval>)
    requires AllDisjoint(Insert(x, intervals))
    ensures AllDisjoint([x] + intervals)
  {
    if intervals != [] && x.start > intervals[0].start {
      var first, rest := intervals[0], intervals[1..];
      var inserted := Insert(x, rest);
      assert Insert(x, intervals) == [first] + inserted;
      Tail(first, inserted);
      InsertBack(x, rest);
      InsertMembers(x, rest);
      var all := [x] + intervals;
      forall i, j | 0 <= i < j < |all| ensures Disjoint(all[i], all[j]) {
        if i == 0 && j == 1 {
          assert Disjoint(first, x);
        } else if i == 0 {
          assert all[j] == ([x] + rest)[j - 1] && all[0] == ([x] + rest)[0];
        } else if i == 1 {
          assert all[j] == rest[j - 2];
        } else if i > 1 {
          assert all[i] == ([x] + rest)[i - 1] && all[j] == ([x] + rest)[j - 1];
        }
      }
    }
  }

  lemma Tail(first: Interval, rest: seq<Interval>)
    requires AllDisjoint([first] + rest)
    ensures AllDisjoint(rest) && forall y | y in rest :: Disjoint(first, y)
  {
    var all := [first] + rest;
    forall i, j | 0 <= i < j < |rest| ensures Disjoint(rest[i], rest[j]) {
      assert rest[i] == all[i + 1] && rest[j] == all[j + 1];
    }
    forall y | y in rest ensures Disjoint(first, y) {
      var k :| 0 <= k < |rest| && rest[k] == y;
      assert all[0] == first && all[k + 1] == y;
    }
  }

  /** Disjointness found after sorting holds before it. */
  lemma {:induction false} SortBack(intervals: seq<Interval>)
    requires AllDisjoint(SortByStart(intervals))
    ensures AllDisjoint(intervals)
  {
    if intervals != [] {
      var rest := SortByStart(intervals[1..]);
      InsertBack(intervals[0], rest);
      Tail(intervals[0], rest);
      SortBack(intervals[1..]);
      SortMembers(intervals[1..]);
      assert intervals == [intervals[0]] + intervals[1..];
    }
  }

  lemma {:induction false} SortMembers(intervals: seq<Interval>)
    ensures forall y | y in intervals :: y in SortByStart(intervals)
  {
    if intervals != [] {
      SortMembers(intervals[1..]);
      InsertMembers(intervals[0], SortByStart(intervals[1..]));
      assert intervals == [intervals[0]] + intervals[1..];
    }
  }

  lemma {:induction false} IntervalOf(entries: map<byte, Interval>, from: nat, token: byte)
    requires from <= token && token in entries
    ensures entries[token] in Intervals(entries, from)
    decreases 256 - from
  {
    if from < token {
      IntervalOf(entries, from + 1, token);
    }
  }

  lemma {:induction false} EntriesApart(entries: map<byte, Interval>, from: nat, a: byte, b: byte)
    requires from <= a < b && a in entries && b in entries
    requires AllDisjoint(Intervals(entries, from))
    ensures Disjoint(entries[a], entries[b])
    decreases 256 - from
  {
    var rest := Intervals(entries, from + 1);
    if from as byte in entries {
      Tail(entries[from as byte], rest);
    } else {
      assert [] + rest == rest;
    }
    if from == a {
      IntervalOf(entries, from + 1, b);
    } else {
      EntriesApart(entries, from + 1, a, b);
    }
  }

  lemma NoFaultAnywhere(s: Octets)
    requires Tolerant(s).warnings == []
    ensures
      var t := Scan(s, 0, NO_TABLE);
      t.faults == [] && VersionFault(t.order) == [] && Overlaps(SortByStart(Intervals(t.entries, 0)), t.end) == []
  {
    hide Scan, Intervals, SortByStart, ReadOptions, Overlaps;
    var t := Scan(s, 0, NO_TABLE);
    var overlaps := Overlaps(SortByStart(Intervals(t.entries, 0)), t.end);
    ScanInBounds(s, 0, NO_TABLE);
    var faults := ReadOptions(s, t.entries, 0, NO_OPTIONS).1;
    FirstFault(t.faults, VersionFault(t.order), overlaps, faults);
  }

  /**
   A message without faults: any two options' data are disjoint and all of it
   lies past the table and inside the message.
   */
  lemma AcceptedDataIsDisjoint(s: Octets, a: byte, b: byte)
    requires Tolerant(s).warnings == []
    ensures
      var t := Scan(s, 0, NO_TABLE);
      a in t.entries ==>
        && t.end <= t.entries[a].start <= t.entries[a].end <= |s|
        && (b in t.entries && a != b ==> Disjoint(t.entries[a], t.entries[b]))
  {
    hide Scan, Intervals, SortByStart, ReadOptions, AllDisjoint;
    var t := Scan(s, 0, NO_TABLE);
    var intervals := Intervals(t.entries, 0);
    NoFaultAnywhere(s);
    NoOverlapFault(SortByStart(intervals), t.end);
    SortBack(intervals);
    SortMembers(intervals);
    ScanInBounds(s, 0, NO_TABLE);
    if a in t.entries {
      IntervalOf(t.entries, 0, a);
      if b in t.entries && a < b {
        EntriesApart(t.entries, 0, a, b);
      } else if b in t.entries && b < a {
        EntriesApart(t.entries, 0, b, a);
      }
    }
  }
}
