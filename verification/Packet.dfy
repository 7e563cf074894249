/**
 TDS packets (section 2.2.3.1 of MS-TDS): the header, a message split into
 packets, and the reassembly of a message from the front of a byte stream.
 */
module Packet {
  import opened Bytes

  const HEADER_LEN := 8
  const SMP: byte := 0x53
  const SMP_HEADER_LEN := 16
  const SMP_FRAMES := 256
  const MAX_PACKETS := 65_536

  datatype Error =
    | EndOfStream | Transport | BadLength | TypeChanged | MessageLimit | PacketLimit | BadPacketSize
    | SmpLength | SmpBytes | SmpNotNegotiated | SmpFrameLimit | SmpIdentifier | NotAuthentication

  datatype Header = Header(packetType: byte, status: byte, length: nat, spid: nat, packetId: byte, window: byte)

  predicate Fields(h: Header) {
    h.length <= U16_MAX && h.spid <= U16_MAX
  }

  function Encode(h: Header): (raw: Octets)
    requires Fields(h)
    ensures |raw| == HEADER_LEN
  {
    [h.packetType, h.status] + U16Be(h.length) + U16Be(h.spid) + [h.packetId, h.window]
  }

  function Decode(raw: Octets, maxPacket: nat): (r: Result<Header, Error>)
    requires |raw| == HEADER_LEN
    ensures r.Ok? ==> HEADER_LEN <= r.value.length <= maxPacket
  {
    var length := FromU16Be(raw[2..4]);
    if length < HEADER_LEN || length > maxPacket then Err(BadLength)
    else Ok(Header(raw[0], raw[1], length, FromU16Be(raw[4..6]), raw[6], raw[7]))
  }

  /** Decoding inverts encoding exactly when the stated length is within bounds, and encoding inverts every decoding. */
  lemma HeaderRoundTrip(h: Header, raw: Octets, maxPacket: nat)
    requires Fields(h) && |raw| == HEADER_LEN
    ensures Decode(Encode(h), maxPacket) == if HEADER_LEN <= h.length <= maxPacket then Ok(h) else Err(BadLength)
    ensures Decode(raw, maxPacket).Ok? ==>
              Fields(Decode(raw, maxPacket).value) && Encode(Decode(raw, maxPacket).value) == raw
  {
    var e := Encode(h);
    assert e[2..4] == U16Be(h.length) && e[4..6] == U16Be(h.spid);
    assert raw == [raw[0], raw[1]] + raw[2..4] + raw[4..6] + [raw[6], raw[7]];
    assert raw[2..4] == [raw[2], raw[3]] && raw[4..6] == [raw[4], raw[5]];
  }

  /** LOGIN, LOGIN7, SSPI and federated-authentication packets. */
  predicate Authenticates(packetType: byte) {
    packetType in {0x02, 0x10, 0x11, 0x08}
  }

  /** The stream starts with one complete authentication packet of `n` bytes. */
  predicate LoginPacket(s: Octets, n: nat, maxPacket: nat) {
    && HEADER_LEN <= n <= |s| && Authenticates(s[0])
    && Decode(s[..8], maxPacket).Ok? && Decode(s[..8], maxPacket).value.length == n
  }

  predicate EndOfMessage(status: byte) {
    status % 2 == 1
  }

  datatype Descriptor = Descriptor(status: byte, packetId: byte, bodyOffset: nat, bodyBytes: nat)

  datatype Message = Message(
    packetType: byte, firstStatus: byte, firstPacketId: byte, payload: Octets, packets: seq<Descriptor>)

  /** What has been reassembled so far. */
  datatype Assembly = Assembly(first: Option<Header>, payload: Octets, packets: seq<Descriptor>)

  const NOTHING := Assembly(None, [], [])

  function Extend(a: Assembly, h: Header, body: Octets): (b: Assembly)
    ensures b.first.Some?
  {
    Assembly(
      if a.first.Some? then a.first else Some(h),
      a.payload + body,
      a.packets + [Descriptor(h.status, h.packetId, |a.payload|, |body|)])
  }

  function Finish(a: Assembly): Message
    requires a.first.Some?
  {
    Message(a.first.value.packetType, a.first.value.status, a.first.value.packetId, a.payload, a.packets)
  }

  /** Frames of a multiplexed session, which was never negotiated: every course ends in an error. */
  function SmpPrelude(s: Octets, p: nat, frame: nat, bytes: nat, maxMessage: nat): Error
    requires 1 <= frame <= SMP_FRAMES && p + HEADER_LEN <= |s|
    decreases SMP_FRAMES - frame
  {
    var length := FromU32Le(s[p + 4..p + 8]);
    if !(SMP_HEADER_LEN <= length <= maxMessage) then SmpLength
    else if bytes + length > maxMessage then SmpBytes
    else if p + length > |s| then EndOfStream
    else if s[p + 1] !in {0x01, 0x02} then SmpNotNegotiated
    else if frame == SMP_FRAMES then SmpFrameLimit
    else if p + length + HEADER_LEN > |s| then EndOfStream
    else if s[p + length] != SMP then SmpIdentifier
    else SmpPrelude(s, p + length, frame + 1, bytes + length, maxMessage)
  }

  /** What becomes of a packet at `p` whose header has been read. */
  function AfterHeader(s: Octets, p: nat, maxPacket: nat, maxMessage: nat, a: Assembly, h: Header):
    Result<(Message, nat), Error>
    requires h.length >= HEADER_LEN && p + HEADER_LEN <= |s|
    decreases |s| - p, 0
  {
    var end := p + h.length;
    if a.first.Some? && a.first.value.packetType != h.packetType then Err(TypeChanged)
    else if |a.payload| + h.length - HEADER_LEN > maxMessage then Err(MessageLimit)
    else if end > |s| then Err(EndOfStream)
    else
      var b := Extend(a, h, s[p + HEADER_LEN..end]);
      if EndOfMessage(h.status) then Ok((Finish(b), end))
      else if |b.packets| > MAX_PACKETS then Err(PacketLimit)
      else Reassemble(s, end, maxPacket, maxMessage, b)
  }

  /** The rest of a message that starts at `p`, and the position behind it. */
  function Reassemble(s: Octets, p: nat, maxPacket: nat, maxMessage: nat, a: Assembly): Result<(Message, nat), Error>
    decreases |s| - p, 1
  {
    if p + HEADER_LEN > |s| then Err(EndOfStream)
    else if s[p] == SMP then Err(SmpPrelude(s, p, 1, 0, maxMessage))
    else
      var h :- Decode(s[p..p + HEADER_LEN], maxPacket);
      AfterHeader(s, p, maxPacket, maxMessage, a, h)
  }

  lemma SmpUnfolds(s: Octets, p: nat, frame: nat, bytes: nat, maxMessage: nat)
    requires 1 <= frame <= SMP_FRAMES && p + HEADER_LEN <= |s|
    ensures
      var length := FromU32Le(s[p + 4..p + 8]);
      SmpPrelude(s, p, frame, bytes, maxMessage) ==
      if !(SMP_HEADER_LEN <= length <= maxMessage) then SmpLength
      else if bytes + length > maxMessage then SmpBytes
      else if p + length > |s| then EndOfStream
      else if s[p + 1] !in {0x01, 0x02} then SmpNotNegotiated
      else if frame == SMP_FRAMES then SmpFrameLimit
      else if p + length + HEADER_LEN > |s| then EndOfStream
      else if s[p + length] != SMP then SmpIdentifier
      else SmpPrelude(s, p + length, frame + 1, bytes + length, maxMessage)
  {
    hide FromU32Le;
  }

  lemma ReassembleUnfolds(s: Octets, p: nat, maxPacket: nat, maxMessage: nat, a: Assembly)
    ensures p + HEADER_LEN > |s| ==> Reassemble(s, p, maxPacket, maxMessage, a) == Err(EndOfStream)
    ensures p + HEADER_LEN <= |s| ==>
              var decoded := Decode(s[p..p + HEADER_LEN], maxPacket);
              Reassemble(s, p, maxPacket, maxMessage, a) ==
              if s[p] == SMP then Err(SmpPrelude(s, p, 1, 0, maxMessage))
              else if decoded.Err? then Err(decoded.error)
              else AfterHeader(s, p, maxPacket, maxMessage, a, decoded.value)
  {
    hide SmpPrelude, Decode, Extend, Finish, EndOfMessage;
  }

  // ----- Splitting -----

  /** Packet ids count up and skip zero. */
  function NextId(id: byte): (next: byte)
    ensures next != 0
  {
    if id == 255 then 1 else id + 1
  }

  function PartHeader(packetType: byte, payload: Octets, capacity: nat, offset: nat, id: byte): Header
    requires offset <= |payload|
  {
    var take := Min(|payload| - offset, capacity);
    Header(packetType, if offset + take == |payload| then 1 else 0, HEADER_LEN + take, 0, id, 0)
  }

  function Split(packetType: byte, payload: Octets, capacity: nat, offset: nat, id: byte): Octets
    requires 0 < capacity <= U16_MAX - HEADER_LEN && offset <= |payload|
    decreases |payload| - offset
  {
    var take := Min(|payload| - offset, capacity);
    Encode(PartHeader(packetType, payload, capacity, offset, id)) + payload[offset..offset + take] +
    (if offset + take == |payload| then [] else Split(packetType, payload, capacity, offset + take, NextId(id)))
  }

  /** The packets a payload is split into. */
  function Parts(payload: Octets, capacity: nat, offset: nat, id: byte): (parts: seq<Descriptor>)
    requires 0 < capacity && offset <= |payload|
    ensures parts != []
    decreases |payload| - offset
  {
    var take := Min(|payload| - offset, capacity);
    var last := offset + take == |payload|;
    [Descriptor(if last then 1 else 0, id, offset, take)] +
    (if last then [] else Parts(payload, capacity, offset + take, NextId(id)))
  }

  /** They tile the payload without gap or overlap, only the last one ends the message, and no id is zero. */
  lemma {:induction false} PartsTile(payload: Octets, capacity: nat, offset: nat, id: byte, k: nat)
    requires 0 < capacity && offset <= |payload| && id != 0
    requires k < |Parts(payload, capacity, offset, id)|
    ensures
      var parts := Parts(payload, capacity, offset, id);
      var end := parts[k].bodyOffset + parts[k].bodyBytes;
      && parts[k].bodyBytes <= capacity && parts[k].packetId != 0
      && parts[0].bodyOffset == offset
      && (if k == |parts| - 1 then end == |payload| && EndOfMessage(parts[k].status)
          else end == parts[k + 1].bodyOffset && !EndOfMessage(parts[k].status))
    decreases k
  {
    hide Parts;
    var take := Min(|payload| - offset, capacity);
    PartsUnfold(payload, capacity, offset, id);
    if offset + take < |payload| {
      var rest := Parts(payload, capacity, offset + take, NextId(id));
      PartsUnfold(payload, capacity, offset + take, NextId(id));
      if k > 0 {
        PartsTile(payload, capacity, offset + take, NextId(id), k - 1);
      }
    }
  }

  lemma PartsUnfold(payload: Octets, capacity: nat, offset: nat, id: byte)
    requires 0 < capacity && offset <= |payload|
    ensures
      var take := Min(|payload| - offset, capacity);
      var parts, last := Parts(payload, capacity, offset, id), offset + take == |payload|;
      && parts[0] == Descriptor(if last then 1 else 0, id, offset, take)
      && parts[1..] == if last then [] else Parts(payload, capacity, offset + take, NextId(id))
  {
  }

  /** What remains of a split message still fits the reader's limits. */
  predicate WithinLimits(
    packetType: byte, payload: Octets, capacity: nat, offset: nat, parts: nat, maxPacket: nat, maxMessage: nat)
    requires offset <= |payload|
  {
    && packetType != SMP
    && HEADER_LEN + Min(|payload| - offset, capacity) <= maxPacket
    && |payload| <= maxMessage
    && parts <= MAX_PACKETS + 1
  }

  function Joined(a: Assembly, h: Header, payload: Octets, parts: seq<Descriptor>): Message {
    Finish(Assembly(Some(if a.first.Some? then a.first.value else h), payload, a.packets + parts))
  }

  /** One packet of a split message, met by the reader. */
  lemma PartReads(
    s: Octets, p: nat, maxPacket: nat, maxMessage: nat, packetType: byte, payload: Octets, capacity: nat, offset: nat,
    id: byte, a: Assembly)
    requires 0 < capacity <= U16_MAX - HEADER_LEN && offset <= |payload|
    requires At(s, p, Split(packetType, payload, capacity, offset, id))
    requires a.payload == payload[..offset] && (a.first.Some? ==> a.first.value.packetType == packetType)
    ensures
      var h := PartHeader(packetType, payload, capacity, offset, id);
      var end := offset + h.length - HEADER_LEN;
      var b := Extend(a, h, payload[offset..end]);
      && b.payload == payload[..end] && p + h.length <= |s|
      && Reassemble(s, p, maxPacket, maxMessage, a) ==
         (if packetType == SMP then Err(SmpPrelude(s, p, 1, 0, maxMessage))
          else if h.length > maxPacket then Err(BadLength)
          else if end > maxMessage then Err(MessageLimit)
          else if end == |payload| then Ok((Finish(b), p + h.length))
          else if |b.packets| > MAX_PACKETS then Err(PacketLimit)
          else Reassemble(s, p + h.length, maxPacket, maxMessage, b))
      && (end < |payload| ==> At(s, p + h.length, Split(packetType, payload, capacity, end, NextId(id))))
  {
    hide SmpPrelude, Split, Decode, Encode, Reassemble, Extend, Finish, EndOfMessage;
    var h := PartHeader(packetType, payload, capacity, offset, id);
    var end := offset + h.length - HEADER_LEN;
    PartOnWire(s, p, packetType, payload, capacity, offset, id);
    HeaderRoundTrip(h, Encode(h), maxPacket);
    PartAdded(a, h, payload, offset, end);
    hide At;
    OnePacket(s, p, maxPacket, maxMessage, a, h, payload[offset..end]);
  }

  /** Where the header, the body and the packets behind them stand. */
  lemma PartOnWire(s: Octets, p: nat, packetType: byte, payload: Octets, capacity: nat, offset: nat, id: byte)
    requires 0 < capacity <= U16_MAX - HEADER_LEN && offset <= |payload|
    requires At(s, p, Split(packetType, payload, capacity, offset, id))
    ensures
      var h := PartHeader(packetType, payload, capacity, offset, id);
      var end := offset + h.length - HEADER_LEN;
      && p + h.length <= |s| && s[p] == packetType && s[p..p + HEADER_LEN] == Encode(h)
      && s[p + HEADER_LEN..p + h.length] == payload[offset..end]
      && (end < |payload| ==> At(s, p + h.length, Split(packetType, payload, capacity, end, NextId(id))))
  {
    hide At, Split, Encode;
    var h := PartHeader(packetType, payload, capacity, offset, id);
    var end := offset + h.length - HEADER_LEN;
    var rest := if end == |payload| then [] else Split(packetType, payload, capacity, end, NextId(id));
    SplitUnfolds(packetType, payload, capacity, offset, id);
    AtSplit(s, p, Encode(h) + payload[offset..end], rest);
    AtSplit(s, p, Encode(h), payload[offset..end]);
    AtSlice(s, p, Encode(h));
    AtSlice(s, p + HEADER_LEN, payload[offset..end]);
    AtByte(s, p, Encode(h), 0);
    FirstOctet(h);
  }

  lemma PartAdded(a: Assembly, h: Header, payload: Octets, offset: nat, end: nat)
    requires offset <= end <= |payload| && a.payload == payload[..offset]
    ensures Extend(a, h, payload[offset..end]).payload == payload[..end]
    ensures EndOfMessage(1) && !EndOfMessage(0)
  {
    assert payload[..offset] + payload[offset..end] == payload[..end];
  }

  /** One packet of the right type on the wire, and the check that decides what becomes of it. */
  lemma OnePacket(s: Octets, p: nat, maxPacket: nat, maxMessage: nat, a: Assembly, h: Header, body: Octets)
    requires h.length == HEADER_LEN + |body| && p + h.length <= |s| && s[p] == h.packetType
    requires Decode(s[p..p + HEADER_LEN], maxPacket) == if h.length <= maxPacket then Ok(h) else Err(BadLength)
    requires s[p + HEADER_LEN..p + h.length] == body
    requires a.first.Some? ==> a.first.value.packetType == h.packetType
    ensures
      var b := Extend(a, h, body);
      Reassemble(s, p, maxPacket, maxMessage, a) ==
      if h.packetType == SMP then Err(SmpPrelude(s, p, 1, 0, maxMessage))
      else if h.length > maxPacket then Err(BadLength)
      else if |a.payload| + |body| > maxMessage then Err(MessageLimit)
      else if EndOfMessage(h.status) then Ok((Finish(b), p + h.length))
      else if |b.packets| > MAX_PACKETS then Err(PacketLimit)
      else Reassemble(s, p + h.length, maxPacket, maxMessage, b)
  {
    hide SmpPrelude, Decode, Extend, Finish, EndOfMessage;
  }

  lemma FirstOctet(h: Header)
    requires Fields(h)
    ensures Encode(h)[0] == h.packetType
  {
  }

  lemma SplitUnfolds(packetType: byte, payload: Octets, capacity: nat, offset: nat, id: byte)
    requires 0 < capacity <= U16_MAX - HEADER_LEN && offset <= |payload|
    ensures
      var h := PartHeader(packetType, payload, capacity, offset, id);
      var end := offset + h.length - HEADER_LEN;
      Split(packetType, payload, capacity, offset, id) ==
      Encode(h) + payload[offset..end] +
      (if end == |payload| then [] else Split(packetType, payload, capacity, end, NextId(id)))
  {
  }

  lemma {:induction false} SplitReads(
    s: Octets, p: nat, maxPacket: nat, maxMessage: nat, packetType: byte, payload: Octets, capacity: nat, offset: nat,
    id: byte, a: Assembly)
    requires 0 < capacity <= U16_MAX - HEADER_LEN && offset <= |payload|
    requires At(s, p, Split(packetType, payload, capacity, offset, id))
    requires |a.packets| <= MAX_PACKETS
    requires a.payload == payload[..offset] && (a.first.Some? ==> a.first.value.packetType == packetType)
    ensures
      var parts := Parts(payload, capacity, offset, id);
      var r := Reassemble(s, p, maxPacket, maxMessage, a);
      if WithinLimits(packetType, payload, capacity, offset, |a.packets| + |parts|, maxPacket, maxMessage)
      then r == Ok((Joined(a, PartHeader(packetType, payload, capacity, offset, id), payload, parts),
                    p + |Split(packetType, payload, capacity, offset, id)|))
      else r.Err?
    decreases |payload| - offset
  {
    hide Reassemble, At, Encode, Split, Parts;
    var h := PartHeader(packetType, payload, capacity, offset, id);
    var end := offset + h.length - HEADER_LEN;
    var b := Extend(a, h, payload[offset..end]);
    var part := Descriptor(h.status, id, offset, h.length - HEADER_LEN);
    PartReads(s, p, maxPacket, maxMessage, packetType, payload, capacity, offset, id, a);
    SplitUnfolds(packetType, payload, capacity, offset, id);
    PartsUnfold(payload, capacity, offset, id);
    var parts := Parts(payload, capacity, offset, id);
    assert parts == [part] + parts[1..];
    assert b.packets == a.packets + [part];
    if end == |payload| {
      assert payload[..end] == payload && parts == [part];
      assert b == Assembly(Some(if a.first.Some? then a.first.value else h), payload, a.packets + parts);
    } else if |b.packets| <= MAX_PACKETS {
      SplitReads(s, p + h.length, maxPacket, maxMessage, packetType, payload, capacity, end, NextId(id), b);
      ConcatAssoc(a.packets, [part], parts[1..]);
    }
  }

  /**
   What was written is read back whole, and nothing behind it is touched,
   exactly when the reader's limits admit it.
   */
  lemma MessageRoundTrip(
    packetType: byte, payload: Octets, packetSize: nat, rest: Octets, maxPacket: nat, maxMessage: nat)
    requires HEADER_LEN < packetSize <= U16_MAX
    ensures
      var capacity := packetSize - HEADER_LEN;
      var wire, parts := Split(packetType, payload, capacity, 0, 1), Parts(payload, capacity, 0, 1);
      var r := Reassemble(wire + rest, 0, maxPacket, maxMessage, NOTHING);
      if WithinLimits(packetType, payload, capacity, 0, |parts|, maxPacket, maxMessage)
      then r == Ok((Message(packetType, parts[0].status, 1, payload, parts), |wire|))
      else r.Err?
  {
    hide Reassemble, Split;
    var capacity := packetSize - HEADER_LEN;
    var wire, parts := Split(packetType, payload, capacity, 0, 1), Parts(payload, capacity, 0, 1);
    assert (wire + rest)[0..|wire|] == wire;
    assert payload[..0] == [];
    assert [] + parts == parts;
    SplitReads(wire + rest, 0, maxPacket, maxMessage, packetType, payload, capacity, 0, 1, NOTHING);
  }
}
