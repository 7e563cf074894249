/** PRELOGIN messages as this program writes them, and the proof of what the parser makes of each. */
module PreloginRoundTrip {
  import opened Bytes
  import opened Prelogin
  import opened PreloginLaws

  datatype Entry = Entry(token: byte, value: Octets)

  /** Offsets and lengths beyond 16 bits are written as the largest that fits. */
  function Clamp(n: nat): (c: nat)
    ensures c <= U16_MAX
  {
    Min(n, U16_MAX)
  }

  function TableWire(entries: seq<Entry>, offset: nat): (s: Octets)
    ensures |s| == 5 * |entries|
    decreases |entries|
  {
    if entries == [] then [] else
    ([entries[0].token] + U16Be(Clamp(offset)) + U16Be(Clamp(|entries[0].value|))) +
    TableWire(entries[1..], offset + |entries[0].value|)
  }

  function DataWire(entries: seq<Entry>): Octets {
    if entries == [] then [] else entries[0].value + DataWire(entries[1..])
  }

  function EncodeEntries(entries: seq<Entry>): Octets {
    TableWire(entries, 5 * |entries| + 1) + ([TERMINATOR] + DataWire(entries))
  }

  method Encode(entries: seq<Entry>) returns (output: Octets)
    ensures output == EncodeEntries(entries)
  {
    var offset: nat := 5 * |entries| + 1;
    output := [];
    assert entries[0..] == entries;
    for i := 0 to |entries|
      invariant output + TableWire(entries[i..], offset) == TableWire(entries, 5 * |entries| + 1)
    {
      assert entries[i..][1..] == entries[i + 1..];
      var descriptor := [entries[i].token] + U16Be(Clamp(offset)) + U16Be(Clamp(|entries[i].value|));
      ConcatAssoc(output, descriptor, TableWire(entries[i + 1..], offset + |entries[i].value|));
      output := output + descriptor;
      offset := offset + |entries[i].value|;
    }
    assert output + [] == output;
    ghost var table := output;
    output := output + [TERMINATOR];
    for i := 0 to |entries|
      invariant output + DataWire(entries[i..]) == table + [TERMINATOR] + DataWire(entries)
    {
      assert entries[i..][1..] == entries[i + 1..];
      ConcatAssoc(output, entries[i].value, DataWire(entries[i + 1..]));
      output := output + entries[i].value;
    }
    assert output + [] == output;
    ConcatAssoc(table, [TERMINATOR], DataWire(entries));
  }

  /** Tokens in strictly ascending order from `least` on, none of them the terminator. */
  predicate Ascending(entries: seq<Entry>, least: nat) {
    entries == [] ||
    (least <= entries[0].token < TERMINATOR && Ascending(entries[1..], entries[0].token as nat + 1))
  }

  predicate FitsFrom(entries: seq<Entry>, offset: nat) {
    entries == [] ||
    (offset <= U16_MAX && |entries[0].value| <= U16_MAX && FitsFrom(entries[1..], offset + |entries[0].value|))
  }

  function Placed(entries: seq<Entry>, offset: nat): map<byte, Interval>
    decreases |entries|
  {
    if entries == [] then map[] else
    Placed(entries[1..], offset + |entries[0].value|)[
      entries[0].token := Interval(Clamp(offset), Clamp(offset) + Clamp(|entries[0].value|))]
  }

  function Tokens(entries: seq<Entry>): seq<byte> {
    seq(|entries|, i requires 0 <= i < |entries| => entries[i].token)
  }

  lemma {:induction false} PlacedTokens(entries: seq<Entry>, offset: nat, least: nat)
    requires Ascending(entries, least)
    ensures forall token | token in Placed(entries, offset) :: least <= token
    decreases |entries|
  {
    if entries != [] {
      PlacedTokens(entries[1..], offset + |entries[0].value|, entries[0].token as nat + 1);
    }
  }

  // ----- The table comes back -----

  lemma DescriptorReads(s: Octets, p: nat, entry: Entry, offset: nat)
    requires At(s, p, [entry.token] + U16Be(Clamp(offset)) + U16Be(Clamp(|entry.value|)))
    ensures p + 5 <= |s| && s[p] == entry.token
    ensures Descriptor(s, p) == Interval(Clamp(offset), Clamp(offset) + Clamp(|entry.value|))
  {
    var a, b, c := [entry.token], U16Be(Clamp(offset)), U16Be(Clamp(|entry.value|));
    AtSplit(s, p, a + b, c);
    AtSplit(s, p, a, b);
    AtByte(s, p, a, 0);
  }

  /** Unless the table itself has a fault, every option is entered where its descriptor says. */
  lemma {:induction false} TableReads(s: Octets, p: nat, entries: seq<Entry>, offset: nat, least: nat, t: Table)
    requires Ascending(entries, least) && forall token | token in t.entries :: token < least
    requires At(s, p, TableWire(entries, offset) + [TERMINATOR])
    ensures
      var r := Scan(s, p, t);
      && r.end == p + 5 * |entries| + 1 && r.order == t.order + Tokens(entries) && t.faults <= r.faults
      && (r.faults == t.faults ==> r.entries == t.entries + Placed(entries, offset))
    decreases |entries|
  {
    hide At, Descriptor, Scan, TableWire, Clamp;
    if entries == [] {
      TableEnds(s, p, offset, t);
      assert t.order + Tokens(entries) == t.order && t.entries + map[] == t.entries;
    } else {
      var entry, rest, after := entries[0], entries[1..], offset + |entries[0].value|;
      TableStep(s, p, entries, offset, t);
      var u := Enter(s, p, t);
      TableReads(s, p + 5, rest, after, entry.token as nat + 1, u);
      assert Tokens(entries) == [entry.token] + Tokens(rest);
      ConcatAssoc(t.order, [entry.token], Tokens(rest));
      if Scan(s, p, t).faults == t.faults {
        PlacedTokens(rest, after, entry.token as nat + 1);
        assert u.entries + Placed(rest, after) == t.entries + Placed(entries, offset);
      }
    }
  }

  lemma TableEnds(s: Octets, p: nat, offset: nat, t: Table)
    requires At(s, p, TableWire([], offset) + [TERMINATOR])
    ensures Scan(s, p, t) == t.(end := p + 1)
  {
    assert TableWire([], offset) + [TERMINATOR] == [TERMINATOR];
    AtByte(s, p, [TERMINATOR], 0);
  }

  lemma TableStep(s: Octets, p: nat, entries: seq<Entry>, offset: nat, t: Table)
    requires entries != [] && entries[0].token != TERMINATOR
    requires At(s, p, TableWire(entries, offset) + [TERMINATOR])
    ensures p + 5 <= |s| && s[p] == entries[0].token
    ensures Descriptor(s, p) == Interval(Clamp(offset), Clamp(offset) + Clamp(|entries[0].value|))
    ensures Scan(s, p, t) == Scan(s, p + 5, Enter(s, p, t))
    ensures At(s, p + 5, TableWire(entries[1..], offset + |entries[0].value|) + [TERMINATOR])
  {
    hide At, Descriptor, Enter;
    var entry, rest := entries[0], TableWire(entries[1..], offset + |entries[0].value|);
    var descriptor := [entry.token] + U16Be(Clamp(offset)) + U16Be(Clamp(|entry.value|));
    ConcatAssoc(descriptor, rest, [TERMINATOR]);
    AtSplit(s, p, descriptor, rest + [TERMINATOR]);
    DescriptorReads(s, p, entry, offset);
  }

  lemma {:induction false} TableFits(s: Octets, p: nat, entries: seq<Entry>, offset: nat, least: nat, t: Table)
    requires Ascending(entries, least) && forall token | token in t.entries :: token < least
    requires At(s, p, TableWire(entries, offset) + [TERMINATOR])
    requires FitsFrom(entries, offset) && p + 5 * |entries| + 1 <= offset && offset + |DataWire(entries)| <= |s|
    ensures Scan(s, p, t).faults == t.faults
    decreases |entries|
  {
    hide At, Descriptor, Scan, TableWire;
    if entries == [] {
      TableEnds(s, p, offset, t);
    } else {
      TableStep(s, p, entries, offset, t);
      TableFits(s, p + 5, entries[1..], offset + |entries[0].value|, entries[0].token as nat + 1, Enter(s, p, t));
    }
  }

  // ----- Data that fits lies end to end -----

  function Spans(entries: seq<Entry>, offset: nat): seq<Interval>
    decreases |entries|
  {
    if entries == [] then [] else
    [Interval(offset, offset + |entries[0].value|)] + Spans(entries[1..], offset + |entries[0].value|)
  }

  lemma {:induction false} NoMoreIntervals(entries: map<byte, Interval>, from: nat)
    requires from <= 256 && forall token | token in entries :: token < from
    ensures Intervals(entries, from) == []
    decreases 256 - from
  {
    if from < 256 {
      NoMoreIntervals(entries, from + 1);
    }
  }

  /** `all` agrees with the placed entries from `from` on. */
  predicate Agree(all: map<byte, Interval>, entries: seq<Entry>, offset: nat, from: nat) {
    forall token: byte | from <= token ::
      (token in all <==> token in Placed(entries, offset)) &&
      (token in all && token in Placed(entries, offset) ==> all[token] == Placed(entries, offset)[token])
  }

  lemma AgreeNext(all: map<byte, Interval>, entries: seq<Entry>, offset: nat, from: nat)
    requires from < 256 && Ascending(entries, from) && Agree(all, entries, offset, from) && FitsFrom(entries, offset)
    ensures
      if entries != [] && entries[0].token == from then
        && from as byte in all && all[from as byte] == Interval(offset, offset + |entries[0].value|)
        && Agree(all, entries[1..], offset + |entries[0].value|, from + 1) && Ascending(entries[1..], from + 1)
      else from as byte !in all && Agree(all, entries, offset, from + 1) && Ascending(entries, from + 1)
  {
    if entries != [] && entries[0].token == from {
      PlacedTokens(entries[1..], offset + |entries[0].value|, from + 1);
    } else {
      PlacedTokens(entries, offset, from + 1);
    }
  }

  lemma SpansStep(entries: seq<Entry>, offset: nat)
    requires entries != [] && FitsFrom(entries, offset)
    ensures FitsFrom(entries[1..], offset + |entries[0].value|)
    ensures Spans(entries, offset) ==
            [Interval(offset, offset + |entries[0].value|)] + Spans(entries[1..], offset + |entries[0].value|)
  {
  }

  lemma NoMoreSpans(entries: seq<Entry>, offset: nat)
    requires Ascending(entries, 256)
    ensures Spans(entries, offset) == []
  {
  }

  lemma {:induction false} IntervalsAre(all: map<byte, Interval>, entries: seq<Entry>, offset: nat, from: nat)
    requires from <= 256 && Ascending(entries, from) && Agree(all, entries, offset, from) && FitsFrom(entries, offset)
    ensures Intervals(all, from) == Spans(entries, offset)
    decreases 256 - from
  {
    hide Agree, Placed, Ascending, FitsFrom, Spans;
    if from == 256 {
      NoMoreSpans(entries, offset);
    } else {
      AgreeNext(all, entries, offset, from);
      if entries != [] && entries[0].token == from {
        SpansStep(entries, offset);
        IntervalsAre(all, entries[1..], offset + |entries[0].value|, from + 1);
      } else {
        IntervalsAre(all, entries, offset, from + 1);
        assert [] + Spans(entries, offset) == Spans(entries, offset);
      }
    }
  }

  lemma {:induction false} SpansSorted(entries: seq<Entry>, offset: nat)
    ensures SortByStart(Spans(entries, offset)) == Spans(entries, offset)
    ensures Overlaps(Spans(entries, offset), offset) == []
    decreases |entries|
  {
    if entries != [] {
      var span, rest := Interval(offset, offset + |entries[0].value|), Spans(entries[1..], offset + |entries[0].value|);
      SpansSorted(entries[1..], offset + |entries[0].value|);
      assert Spans(entries, offset)[1..] == rest;
      assert rest != [] ==> rest[0].start == span.end;
    }
  }

  /** The options a list of entries states, and their faults. */
  function Apply(entries: seq<Entry>, options: Options): (Options, seq<Fault>) {
    if entries == [] then (options, []) else
    var (next, fault) := ReadOption(options, entries[0].token, entries[0].value);
    var (all, faults) := Apply(entries[1..], next);
    (all, Faulty(fault) + faults)
  }

  lemma {:induction false} OptionsAre(
    s: Octets, all: map<byte, Interval>, entries: seq<Entry>, offset: nat, from: nat, options: Options)
    requires InBounds(s, all) && from <= 256
    requires Ascending(entries, from) && Agree(all, entries, offset, from) && FitsFrom(entries, offset)
    requires At(s, offset, DataWire(entries))
    ensures ReadOptions(s, all, from, options) == Apply(entries, options)
    decreases 256 - from
  {
    hide Agree, Placed, ReadOption, At, InBounds;
    if from < 256 {
      AgreeNext(all, entries, offset, from);
      if entries != [] && entries[0].token == from {
        AtSplit(s, offset, entries[0].value, DataWire(entries[1..]));
        AtSlice(s, offset, entries[0].value);
        var next := ReadOption(options, entries[0].token, entries[0].value).0;
        OptionsAre(s, all, entries[1..], offset + |entries[0].value|, from + 1, next);
      } else {
        OptionsAre(s, all, entries, offset, from + 1, options);
      }
    }
  }

  /** Any option list that fits its 16-bit fields is read back: its order, its options and only its own faults. */
  lemma {:induction false} EntriesRoundTrip(entries: seq<Entry>)
    requires Ascending(entries, 0) && FitsFrom(entries, 5 * |entries| + 1)
    ensures Tolerant(EncodeEntries(entries)) ==
            Message(Tokens(entries), Apply(entries, NO_OPTIONS).0,
                    VersionFault(Tokens(entries)) + Apply(entries, NO_OPTIONS).1)
  {
    hide Scan, Intervals, SortByStart, Overlaps, ReadOptions, Apply, TableWire, DataWire, FitsFrom;
    var s, offset := EncodeEntries(entries), 5 * |entries| + 1;
    EncodedParts(entries);
    TableFits(s, 0, entries, offset, 0, NO_TABLE);
    TableReads(s, 0, entries, offset, 0, NO_TABLE);
    var t := Scan(s, 0, NO_TABLE);
    assert t.order == Tokens(entries) && t.faults == [];
    assert t.entries == Placed(entries, offset);
    ScanInBounds(s, 0, NO_TABLE);
    IntervalsAre(t.entries, entries, offset, 0);
    SpansSorted(entries, offset);
    OptionsAre(s, t.entries, entries, offset, 0, NO_OPTIONS);
    assert [] + VersionFault(t.order) + [] == VersionFault(t.order);
  }

  lemma EncodedParts(entries: seq<Entry>)
    ensures
      var s, offset := EncodeEntries(entries), 5 * |entries| + 1;
      && At(s, 0, TableWire(entries, offset) + [TERMINATOR])
      && At(s, offset, DataWire(entries)) && |s| == offset + |DataWire(entries)|
  {
    var s, offset := EncodeEntries(entries), 5 * |entries| + 1;
    var table, data := TableWire(entries, offset), DataWire(entries);
    ConcatAssoc(table, [TERMINATOR], data);
    assert s == (table + [TERMINATOR]) + data;
    assert s[0..offset] == table + [TERMINATOR];
    assert s[offset..offset + |data|] == data;
  }

  // ----- The messages this program writes -----

  function Code(encryption: Encryption): byte {
    match encryption
    case Off => 0
    case On => 1
    case NotSupported => 2
    case Required => 3
  }

  const SERVER_VERSION: Octets := [16, 0, 16, 89, 0, 0]

  /** A request or response: the encryption offer, the instance field, and a nonce if one is sent. */
  function Sent(encryption: Encryption, certificate: bool, instance: Octets, nonce: Option<Octets>): seq<Entry> {
    [Entry(VERSION, SERVER_VERSION),
     Entry(ENCRYPTION, [Code(encryption) + if certificate then 0x80 else 0]),
     Entry(INSTOPT, instance),
     Entry(THREADID, [0, 0, 0, 0]),
     Entry(MARS, [0])] +
    (if nonce.Some? then [Entry(NONCEOPT, nonce.value)] else [])
  }

  /** The last option's offset fits 16 bits. */
  predicate Addressable(instance: Octets, nonce: Option<Octets>) {
    |instance| + (if nonce.Some? then 43 else 37) <= U16_MAX
  }

  function Received(encryption: Encryption, certificate: bool, instance: Octets, nonce: Option<Octets>): Options {
    NO_OPTIONS.(
      version := Some(SERVER_VERSION), encryption := Some(encryption),
      encryptionRaw := Some(Code(encryption) + if certificate then 0x80 else 0), clientCertificate := certificate,
      instance := Some(TrimNuls(instance)), threadId := Some(0), mars := Some(false), marsRaw := Some(0), nonce := nonce)
  }

  lemma Encoded(encryption: Encryption, certificate: bool)
    ensures
      var raw: byte := Code(encryption) + if certificate then 0x80 else 0;
      && Bit(raw, 0x80) == certificate && !Bit(raw, 0x20)
      && EncryptionOf(EncryptionBase(raw)) == Some(encryption)
  {
  }

  lemma PlainOptions(options: Options, instance: Octets)
    ensures ReadOption(options, VERSION, SERVER_VERSION) == (options.(version := Some(SERVER_VERSION)), None)
    ensures ReadOption(options, INSTOPT, instance) == (options.(instance := Some(TrimNuls(instance))), None)
    ensures ReadOption(options, THREADID, [0, 0, 0, 0]) == (options.(threadId := Some(0)), None)
    ensures ReadOption(options, MARS, [0]) == (options.(marsRaw := Some(0), mars := Some(false)), None)
  {
    hide TrimNuls;
    var zero: Octets := [0, 0, 0, 0];
    assert zero[..2] == [0, 0] && zero[2..] == [0, 0];
  }

  lemma EncryptionOption(options: Options, encryption: Encryption, certificate: bool)
    ensures
      var raw: byte := Code(encryption) + if certificate then 0x80 else 0;
      ReadOption(options, ENCRYPTION, [raw]) ==
      (options.(encryptionRaw := Some(raw), clientCertificate := certificate, encryptionExtension := false,
                encryption := Some(encryption)),
       if certificate && encryption == NotSupported then Some(CertificateConflict) else None)
  {
    hide Bit, EncryptionBase, EncryptionOf;
    Encoded(encryption, certificate);
  }

  lemma {:induction false} ApplyCons(entry: Entry, rest: seq<Entry>, options: Options)
    ensures
      var (next, fault) := ReadOption(options, entry.token, entry.value);
      Apply([entry] + rest, options) == (Apply(rest, next).0, Faulty(fault) + Apply(rest, next).1)
  {
    hide ReadOption;
    assert ([entry] + rest)[1..] == rest;
  }

  /** An option without a fault just changes the options. */
  lemma {:induction false} ApplyPlain(entry: Entry, rest: seq<Entry>, options: Options)
    requires ReadOption(options, entry.token, entry.value).1 == None
    ensures Apply([entry] + rest, options) == Apply(rest, ReadOption(options, entry.token, entry.value).0)
  {
    hide ReadOption, Apply;
    ApplyCons(entry, rest, options);
    var r := Apply(rest, ReadOption(options, entry.token, entry.value).0);
    assert [] + r.1 == r.1;
  }

  /** What the options of a sent message come to, one by one. */
  lemma {:induction false} SentApplies(encryption: Encryption, certificate: bool, instance: Octets, nonce: Option<Octets>)
    requires nonce.Some? ==> |nonce.value| == 32
    ensures Apply(Sent(encryption, certificate, instance, nonce), NO_OPTIONS) ==
            (Received(encryption, certificate, instance, nonce),
             if certificate && encryption == NotSupported then [CertificateConflict] else [])
  {
    hide ReadOption, Apply;
    var sent := Sent(encryption, certificate, instance, nonce);
    var tail := if nonce.Some? then [Entry(NONCEOPT, nonce.value)] else [];
    var o1 := NO_OPTIONS.(version := Some(SERVER_VERSION));
    var (o2, f2) := ReadOption(o1, ENCRYPTION, sent[1].value);
    EncryptionOption(o1, encryption, certificate);
    var o3 := o2.(instance := Some(TrimNuls(instance)));
    var o4 := o3.(threadId := Some(0));
    var o5 := o4.(marsRaw := Some(0), mars := Some(false));
    PlainOptions(NO_OPTIONS, instance);
    PlainOptions(o2, instance);
    PlainOptions(o3, instance);
    PlainOptions(o4, instance);
    ApplyPlain(sent[4], tail, o4);
    ApplyPlain(sent[3], [sent[4]] + tail, o3);
    ApplyPlain(sent[2], [sent[3]] + ([sent[4]] + tail), o2);
    ApplyCons(sent[1], [sent[2]] + ([sent[3]] + ([sent[4]] + tail)), o1);
    ApplyPlain(sent[0], [sent[1]] + ([sent[2]] + ([sent[3]] + ([sent[4]] + tail))), NO_OPTIONS);
    assert sent == [sent[0]] + ([sent[1]] + ([sent[2]] + ([sent[3]] + ([sent[4]] + tail))));
    TailApplies(o5, nonce);
    assert Faulty(f2) + [] == Faulty(f2);
  }

  lemma {:induction false} TailApplies(options: Options, nonce: Option<Octets>)
    requires options.nonce == None && (nonce.Some? ==> |nonce.value| == 32)
    ensures Apply(if nonce.Some? then [Entry(NONCEOPT, nonce.value)] else [], options) ==
            (options.(nonce := nonce), [])
  {
    if nonce.Some? {
      var entry := Entry(NONCEOPT, nonce.value);
      ApplyCons(entry, [], options);
      assert [entry] + [] == [entry];
      assert ReadOption(options, NONCEOPT, nonce.value) == (options.(nonce := nonce), None);
      assert Faulty(None) + [] == [];
      assert Apply([], options.(nonce := nonce)) == (options.(nonce := nonce), []);
    }
  }

  // ----- When they come back -----

  lemma {:induction false} SentFits(encryption: Encryption, certificate: bool, instance: Octets, nonce: Option<Octets>)
    requires nonce.Some? ==> |nonce.value| == 32
    ensures
      var sent := Sent(encryption, certificate, instance, nonce);
      && Ascending(sent, 0) && VersionFault(Tokens(sent)) == []
      && (Addressable(instance, nonce) ==> FitsFrom(sent, 5 * |sent| + 1))
  {
    var sent := Sent(encryption, certificate, instance, nonce);
    var tail := if nonce.Some? then [Entry(NONCEOPT, nonce.value)] else [];
    assert sent[1..][1..] == sent[2..] && sent[2..][1..] == sent[3..] && sent[3..][1..] == sent[4..];
    assert sent[4..][1..] == tail && (tail != [] ==> tail[1..] == []);
    var o := 5 * |sent| + 1 + 7 + |instance|;
    assert Ascending(tail, 5) && Ascending(sent[4..], 4) && Ascending(sent[3..], 3);
    assert Ascending(sent[2..], 2) && Ascending(sent[1..], 1);
    if Addressable(instance, nonce) {
      assert FitsFrom(tail, o + 5) && FitsFrom(sent[4..], o + 4) && FitsFrom(sent[3..], o);
      assert FitsFrom(sent[2..], o - |instance|) && FitsFrom(sent[1..], o - |instance| - 1);
    }
  }

  /** Where the last options are put; beyond 16 bits their clamped offsets collide. */
  lemma {:induction false} SentCollides(encryption: Encryption, certificate: bool, instance: Octets, nonce: Option<Octets>)
    requires (nonce.Some? ==> |nonce.value| == 32) && !Addressable(instance, nonce)
    ensures
      var sent := Sent(encryption, certificate, instance, nonce);
      var at := Placed(sent, 5 * |sent| + 1);
      var other := if nonce.Some? then NONCEOPT else THREADID;
      MARS in at && other in at && !Disjoint(at[MARS], at[other])
  {
    var sent := Sent(encryption, certificate, instance, nonce);
    var tail := if nonce.Some? then [Entry(NONCEOPT, nonce.value)] else [];
    assert sent[1..][1..] == sent[2..] && sent[2..][1..] == sent[3..] && sent[3..][1..] == sent[4..];
    assert sent[4..][1..] == tail && (tail != [] ==> tail[1..] == []);
    var o := 5 * |sent| + 1 + 7 + |instance|;
    var p5, p4, p3 := Placed(tail, o + 5), Placed(sent[4..], o + 4), Placed(sent[3..], o);
    assert Placed([], o + 37) == map[];
    assert nonce.Some? ==> p5 == map[NONCEOPT := Interval(Clamp(o + 5), Clamp(o + 5) + 32)];
    assert p4 == p5[MARS := Interval(Clamp(o + 4), Clamp(o + 4) + 1)];
    assert p3 == p4[THREADID := Interval(Clamp(o), Clamp(o) + 4)];
    var p2, p1 := Placed(sent[2..], o - |instance|), Placed(sent[1..], o - |instance| - 1);
    assert p2 == p3[INSTOPT := p2[INSTOPT]] && p1 == p2[ENCRYPTION := p1[ENCRYPTION]];
    var p0 := Placed(sent, 5 * |sent| + 1);
    assert p0 == p1[VERSION := p0[VERSION]];
  }

  /**
   Every message written is parsed back without a fault, field by field,
   exactly if its offsets fit 16 bits and it does not combine a client
   certificate with NotSupported.
   */
  lemma {:induction false} SentRoundTrip(encryption: Encryption, certificate: bool, instance: Octets, nonce: Option<Octets>)
    requires nonce.Some? ==> |nonce.value| == 32
    ensures
      var sent := Sent(encryption, certificate, instance, nonce);
      var m := Tolerant(EncodeEntries(sent));
      && (m.warnings == [] <==> Addressable(instance, nonce) && !(certificate && encryption == NotSupported))
      && (m.warnings == [] ==> m == Message(Tokens(sent), Received(encryption, certificate, instance, nonce), []))
  {
    hide Tolerant, Sent, EncodeEntries, Received, Apply, Ascending, FitsFrom, Tokens, Addressable, VersionFault;
    var sent := Sent(encryption, certificate, instance, nonce);
    SentFits(encryption, certificate, instance, nonce);
    if Addressable(instance, nonce) {
      EntriesRoundTrip(sent);
      SentApplies(encryption, certificate, instance, nonce);
    } else {
      TooLongIsNoticed(encryption, certificate, instance, nonce);
    }
  }

  lemma {:induction false} CleanTable(entries: seq<Entry>)
    requires Ascending(entries, 0) && Tolerant(EncodeEntries(entries)).warnings == []
    ensures Scan(EncodeEntries(entries), 0, NO_TABLE).entries == Placed(entries, 5 * |entries| + 1)
  {
    hide Tolerant, EncodeEntries, Placed, Scan, Ascending, Overlaps, TableWire, At, Tokens, Intervals;
    NoFaultAnywhere(EncodeEntries(entries));
    EncodedParts(entries);
    TableReads(EncodeEntries(entries), 0, entries, 5 * |entries| + 1, 0, NO_TABLE);
  }

  lemma {:induction false} TooLongIsNoticed(
    encryption: Encryption, certificate: bool, instance: Octets, nonce: Option<Octets>)
    requires (nonce.Some? ==> |nonce.value| == 32) && !Addressable(instance, nonce)
    ensures Tolerant(EncodeEntries(Sent(encryption, certificate, instance, nonce))).warnings != []
  {
    hide Tolerant, Sent, EncodeEntries, Placed, Scan, Addressable, Ascending, FitsFrom, Disjoint;
    var sent := Sent(encryption, certificate, instance, nonce);
    if Tolerant(EncodeEntries(sent)).warnings == [] {
      SentFits(encryption, certificate, instance, nonce);
      CleanTable(sent);
      SentCollides(encryption, certificate, instance, nonce);
      AcceptedDataIsDisjoint(EncodeEntries(sent), MARS, if nonce.Some? then NONCEOPT else THREADID);
      assert false;
    }
  }
}
