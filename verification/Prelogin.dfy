/**
 PRELOGIN option tables (section 2.2.6.5 of MS-TDS). The tolerant parser notes
 each fault and goes on; the strict one stops at the first.
 */
module Prelogin {
  import opened Bytes

  datatype Fault =
    | TruncatedTable | TruncatedDescriptor | OutOfBounds | Duplicate | VersionNotFirst | Overlap
    | BadEncryption(value: nat) | CertificateConflict | BadMars(raw: byte) | BadFedAuth(raw: byte) | BadLength(token: byte)

  const VERSION: byte := 0x00
  const ENCRYPTION: byte := 0x01
  const INSTOPT: byte := 0x02
  const THREADID: byte := 0x03
  const MARS: byte := 0x04
  const TRACEID: byte := 0x05
  const FEDAUTHREQUIRED: byte := 0x06
  const NONCEOPT: byte := 0x07
  const TERMINATOR: byte := 0xff

  /** Where an option's data lies. */
  datatype Interval = Interval(start: nat, end: nat)

  /** The descriptor table read so far; `end` is where reading stopped. */
  datatype Table = Table(entries: map<byte, Interval>, order: seq<byte>, faults: seq<Fault>, end: nat)

  datatype Encryption = Off | On | NotSupported | Required

  datatype Options = Options(
    version: Option<Octets>,
    encryption: Option<Encryption>,
    encryptionRaw: Option<byte>,
    clientCertificate: bool,
    encryptionExtension: bool,
    instance: Option<Octets>,
    threadId: Option<nat>,
    mars: Option<bool>,
    marsRaw: Option<byte>,
    traceId: Option<Octets>,
    fedAuth: Option<bool>,
    fedAuthRaw: Option<byte>,
    nonce: Option<Octets>,
    unknown: seq<(byte, nat)>)

  const NO_OPTIONS := Options(None, None, None, false, false, None, None, None, None, None, None, None, None, [])

  datatype Message = Message(order: seq<byte>, options: Options, warnings: seq<Fault>)

  // ----- The descriptor table -----

  function Descriptor(s: Octets, p: nat): Interval
    requires p + 5 <= |s|
  {
    var offset := FromU16Be(s[p + 1..p + 3]);
    Interval(offset, offset + FromU16Be(s[p + 3..p + 5]))
  }

  /** One complete descriptor at `p`, which is not the terminator. */
  function Enter(s: Octets, p: nat, t: Table): Table
    requires p + 5 <= |s|
  {
    var token, at := s[p], Descriptor(s, p);
    var named := t.(order := t.order + [token]);
    if at.end > |s| || at.start < p + 5 then named.(faults := t.faults + [OutOfBounds])
    else if token in t.entries then named.(faults := t.faults + [Duplicate])
    else named.(entries := t.entries[token := at])
  }

  function Scan(s: Octets, p: nat, t: Table): Table
    decreases |s| - p
  {
    if p >= |s| then t.(faults := t.faults + [TruncatedTable], end := p)
    else if s[p] == TERMINATOR then t.(end := p + 1)
    else if p + 5 > |s| then
      t.(order := t.order + [s[p]], faults := t.faults + [TruncatedDescriptor], end := p + 1)
    else Scan(s, p + 5, Enter(s, p, t))
  }

  const NO_TABLE := Table(map[], [], [], 0)

  // ----- Overlaps -----

  /** The intervals in token order. */
  function Intervals(entries: map<byte, Interval>, token: nat): seq<Interval>
    requires token <= 256
    decreases 256 - token
  {
    if token == 256 then []
    else (if token as byte in entries then [entries[token as byte]] else []) + Intervals(entries, token + 1)
  }

  /** Stable insertion by start. */
  function Insert(x: Interval, intervals: seq<Interval>): seq<Interval> {
    if intervals == [] || x.start <= intervals[0].start then [x] + intervals
    else [intervals[0]] + Insert(x, intervals[1..])
  }

  function SortByStart(intervals: seq<Interval>): seq<Interval> {
    if intervals == [] then [] else Insert(intervals[0], SortByStart(intervals[1..]))
  }

  function Max(a: nat, b: nat): nat {
    if a >= b then a else b
  }

  function Overlaps(intervals: seq<Interval>, previous: nat): seq<Fault> {
    if intervals == [] then []
    else (if intervals[0].start < previous then [Overlap] else []) +
         Overlaps(intervals[1..], Max(previous, intervals[0].end))
  }

  // ----- Options -----

  function TrimNuls(s: Octets): Octets {
    if s != [] && s[|s| - 1] == 0 then TrimNuls(s[..|s| - 1]) else s
  }

  function EncryptionOf(value: nat): Option<Encryption> {
    match value
    case 0 => Some(Off)
    case 1 => Some(On)
    case 2 => Some(NotSupported)
    case 3 => Some(Required)
    case _ => None
  }

  /** The encryption value without its certificate (0x80) and extension (0x20) bits. */
  function EncryptionBase(raw: byte): nat {
    (raw as nat) - (if Bit(raw, 0x80) then 0x80 else 0) - (if Bit(raw, 0x20) then 0x20 else 0)
  }

  function Truth(raw: byte): bool {
    raw != 0
  }

  /** What one option contributes, and the fault it has, if any. */
  function ReadOption(options: Options, token: byte, value: Octets): (Options, Option<Fault>) {
    if token == INSTOPT then (options.(instance := Some(TrimNuls(value))), None)
    else if token == VERSION && |value| == 6 then (options.(version := Some(value)), None)
    else if token == ENCRYPTION && |value| == 1 then
      var raw := value[0];
      var certificate, base := Bit(raw, 0x80), EncryptionOf(EncryptionBase(raw));
      var noted := options.(
        encryptionRaw := Some(raw), clientCertificate := certificate, encryptionExtension := Bit(raw, 0x20));
      if base.None? then (noted, Some(BadEncryption(EncryptionBase(raw))))
      else (noted.(encryption := base),
            if certificate && base == Some(NotSupported) then Some(CertificateConflict) else None)
    else if token == THREADID && |value| == 4 then
      (options.(threadId := Some(FromU16Be(value[..2]) * 0x1_0000 + FromU16Be(value[2..]))), None)
    else if token == MARS && |value| == 1 then
      (options.(marsRaw := Some(value[0]), mars := Some(Truth(value[0]))),
       if value[0] > 1 then Some(BadMars(value[0])) else None)
    else if token == TRACEID && |value| == 36 then (options.(traceId := Some(value)), None)
    else if token == FEDAUTHREQUIRED && |value| == 1 then
      (options.(fedAuthRaw := Some(value[0]), fedAuth := Some(Truth(value[0]))),
       if value[0] > 1 then Some(BadFedAuth(value[0])) else None)
    else if token == NONCEOPT && |value| == 32 then (options.(nonce := Some(value)), None)
    else if token <= NONCEOPT then (options, Some(BadLength(token)))
    else (options.(unknown := options.unknown + [(token, |value|)]), None)
  }

  predicate InBounds(s: Octets, entries: map<byte, Interval>) {
    forall token | token in entries :: entries[token].start <= entries[token].end <= |s|
  }

  function Faulty(fault: Option<Fault>): seq<Fault> {
    if fault.Some? then [fault.value] else []
  }

  /** The options from `token` on, in token order. */
  function ReadOptions(s: Octets, entries: map<byte, Interval>, token: nat, options: Options): (Options, seq<Fault>)
    requires InBounds(s, entries) && token <= 256
    decreases 256 - token
  {
    if token == 256 then (options, [])
    else if token as byte !in entries then ReadOptions(s, entries, token + 1, options)
    else
      var at := entries[token as byte];
      var (next, fault) := ReadOption(options, token as byte, s[at.start..at.end]);
      var (all, faults) := ReadOptions(s, entries, token + 1, next);
      (all, Faulty(fault) + faults)
  }

  lemma {:induction false} ScanInBounds(s: Octets, p: nat, t: Table)
    requires InBounds(s, t.entries)
    ensures InBounds(s, Scan(s, p, t).entries)
    decreases |s| - p
  {
    if p + 5 <= |s| && s[p] != TERMINATOR {
      ScanInBounds(s, p + 5, Enter(s, p, t));
    }
  }

  function VersionFault(order: seq<byte>): seq<Fault> {
    if order != [] && order[0] == VERSION then [] else [VersionNotFirst]
  }

  /** The message with every fault noted in the order met. */
  function Tolerant(s: Octets): Message {
    var t := Scan(s, 0, NO_TABLE);
    ScanInBounds(s, 0, NO_TABLE);
    var (options, faults) := ReadOptions(s, t.entries, 0, NO_OPTIONS);
    Message(
      t.order, options,
      t.faults + VersionFault(t.order) + Overlaps(SortByStart(Intervals(t.entries, 0)), t.end) + faults)
  }

  // ----- The parser -----

  /** Faults so far, or the first of them as an error. */
  function Verdict<T>(value: T, faults: seq<Fault>, tolerant: bool): Result<T, Fault> {
    if tolerant || faults == [] then Ok(value) else Err(faults[0])
  }

  method ReadTable(s: Octets, tolerant: bool) returns (r: Result<Table, Fault>)
    ensures r == Verdict(Scan(s, 0, NO_TABLE), Scan(s, 0, NO_TABLE).faults, tolerant)
  {
    var t := NO_TABLE;
    var cursor: nat := 0;
    while true
      invariant Scan(s, cursor, t) == Scan(s, 0, NO_TABLE)
      invariant !tolerant ==> t.faults == []
      decreases |s| - cursor
    {
      ScanKeepsFaults(s, cursor, t);
      if cursor >= |s| {
        if tolerant {
          return Ok(t.(faults := t.faults + [TruncatedTable], end := cursor));
        }
        return Err(TruncatedTable);
      }
      if s[cursor] == TERMINATOR {
        return Ok(t.(end := cursor + 1));
      }
      if cursor + 5 > |s| {
        if tolerant {
          return Ok(t.(order := t.order + [s[cursor]], faults := t.faults + [TruncatedDescriptor], end := cursor + 1));
        }
        return Err(TruncatedDescriptor);
      }
      ghost var before := t;
      t := Enter(s, cursor, t);
      cursor := cursor + 5;
      if !tolerant && t.faults != [] {
        ScanKeepsFaults(s, cursor, t);
        return Err(t.faults[0]);
      }
    }
  }

  lemma {:induction false} ScanKeepsFaults(s: Octets, p: nat, t: Table)
    ensures t.faults <= Scan(s, p, t).faults
    decreases |s| - p
  {
    if p + 5 <= |s| && s[p] != TERMINATOR {
      ScanKeepsFaults(s, p + 5, Enter(s, p, t));
    }
  }

  method CheckOverlaps(intervals: seq<Interval>, tableEnd: nat, tolerant: bool) returns (r: Result<seq<Fault>, Fault>)
    ensures r == Verdict(Overlaps(intervals, tableEnd), Overlaps(intervals, tableEnd), tolerant)
  {
    var faults: seq<Fault> := [];
    var previous := tableEnd;
    assert intervals[0..] == intervals;
    for i := 0 to |intervals|
      invariant faults + Overlaps(intervals[i..], previous) == Overlaps(intervals, tableEnd)
      invariant !tolerant ==> faults == []
    {
      assert intervals[i..][1..] == intervals[i + 1..];
      var at := intervals[i];
      if at.start < previous {
        if !tolerant {
          return Err(Overlap);
        }
        ConcatAssoc(faults, [Overlap], Overlaps(intervals[i + 1..], Max(previous, at.end)));
        faults := faults + [Overlap];
      } else {
        assert [] + Overlaps(intervals[i + 1..], Max(previous, at.end)) ==
               Overlaps(intervals[i + 1..], Max(previous, at.end));
      }
      previous := Max(previous, at.end);
    }
    assert faults + [] == faults;
    r := Ok(faults);
  }

  method CollectOptions(s: Octets, entries: map<byte, Interval>, tolerant: bool)
    returns (r: Result<(Options, seq<Fault>), Fault>)
    requires InBounds(s, entries)
    ensures r == Verdict(ReadOptions(s, entries, 0, NO_OPTIONS), ReadOptions(s, entries, 0, NO_OPTIONS).1, tolerant)
  {
    hide ReadOption;
    var options, faults: seq<Fault> := NO_OPTIONS, [];
    ghost var all := ReadOptions(s, entries, 0, NO_OPTIONS);
    assert [] + all.1 == all.1;
    for token := 0 to 256
      invariant
        var rest := ReadOptions(s, entries, token, options);
        all == (rest.0, faults + rest.1)
      invariant !tolerant ==> faults == []
    {
      if token as byte in entries {
        var at := entries[token as byte];
        var (next, fault) := ReadOption(options, token as byte, s[at.start..at.end]);
        ghost var rest := ReadOptions(s, entries, token + 1, next);
        if fault.Some? && !tolerant {
          return Err(fault.value);
        }
        ConcatAssoc(faults, Faulty(fault), rest.1);
        options, faults := next, faults + Faulty(fault);
      }
    }
    assert faults + [] == faults;
    r := Ok((options, faults));
  }

  lemma FirstFault(a: seq<Fault>, b: seq<Fault>, c: seq<Fault>, d: seq<Fault>)
    ensures a + b + c + d == [] <==> a == [] && b == [] && c == [] && d == []
    ensures a != [] ==> (a + b + c + d)[0] == a[0]
    ensures a == [] && b != [] ==> (a + b + c + d)[0] == b[0]
    ensures a == [] && b == [] && c != [] ==> (a + b + c + d)[0] == c[0]
    ensures a == [] && b == [] && c == [] && d != [] ==> (a + b + c + d)[0] == d[0]
  {
  }

  /** The tolerant mode never fails; the strict one fails with the tolerant one's first warning, or agrees with it. */
  method ParseInner(s: Octets, tolerant: bool) returns (r: Result<Message, Fault>)
    ensures r == Verdict(Tolerant(s), Tolerant(s).warnings, tolerant)
  {
    hide Scan, SortByStart, Overlaps, ReadOptions, Intervals, InBounds;
    ghost var table := Scan(s, 0, NO_TABLE);
    ScanInBounds(s, 0, NO_TABLE);
    FirstFault(table.faults, VersionFault(table.order), Overlaps(SortByStart(Intervals(table.entries, 0)), table.end),
               ReadOptions(s, table.entries, 0, NO_OPTIONS).1);
    var t :- ReadTable(s, tolerant);
    var faults := t.faults;
    if t.order == [] || t.order[0] != VERSION {
      if !tolerant {
        return Err(VersionNotFirst);
      }
      faults := faults + [VersionNotFirst];
    }
    assert faults == t.faults + VersionFault(t.order);
    var overlaps :- CheckOverlaps(SortByStart(Intervals(t.entries, 0)), t.end, tolerant);
    var collected :- CollectOptions(s, t.entries, tolerant);
    var (options, more) := collected;
    r := Ok(Message(t.order, options, faults + overlaps + more));
  }
}
