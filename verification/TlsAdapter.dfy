/**
 The transport adapter that carries a TLS handshake inside PRELOGIN packets and
 then steps aside. Every poll of the transport below may be pending, may fail,
 or may move any part of what was asked for.
 */
module TlsAdapter {
  import opened Bytes
  import opened Transport

  const HEADER_LEN := 8
  const PRELOGIN: byte := 0x12
  const CHUNK_LEN := 16_384 - HEADER_LEN

  // ----- What the two directions should carry -----

  /** The client's last wrapped flight: application data, ChangeCipherSpec, or a handshake that is no ClientHello. */
  predicate FinalFlight(body: Octets) {
    && body != []
    && (|| body[0] == 0x17
        || body[0] == 0x14
        || (body[0] == 0x16 && |body| > 5 && body[5] != 0x01))
  }

  function PacketLength(header: Octets): nat
    requires |header| == HEADER_LEN
  {
    FromU16Be(header[2..4])
  }

  predicate GoodHeader(header: Octets) {
    |header| == HEADER_LEN && header[0] == PRELOGIN && PacketLength(header) >= HEADER_LEN
  }

  /** The wire starts with one complete packet. */
  predicate HasPacket(wire: Octets) {
    |wire| >= HEADER_LEN && GoodHeader(wire[..8]) && PacketLength(wire[..8]) <= |wire|
  }

  function FirstBody(wire: Octets): Octets
    requires HasPacket(wire)
  {
    wire[8..PacketLength(wire[..8])]
  }

  function AfterFirst(wire: Octets): (rest: Octets)
    requires HasPacket(wire)
    ensures |rest| < |wire|
  {
    wire[PacketLength(wire[..8])..]
  }

  /**
   The stream a wire carries: packet bodies up to and including the first final
   flight, then the rest of the wire as it is.
   */
  function Unwrap(wire: Octets): Octets
    decreases |wire|, 1
  {
    if !HasPacket(wire) then [] else FirstBody(wire) + AfterBody(FirstBody(wire), AfterFirst(wire))
  }

  function AfterBody(body: Octets, rest: Octets): Octets
    decreases |rest| + 1, 0
  {
    if FinalFlight(body) then rest else Unwrap(rest)
  }

  lemma UnwrapPacket(header: Octets, body: Octets, rest: Octets)
    requires GoodHeader(header) && |body| == PacketLength(header) - HEADER_LEN
    ensures Unwrap(header + body + rest) == body + AfterBody(body, rest)
    ensures body == [] ==> Unwrap(header + body + rest) == Unwrap(rest)
  {
    var wire := header + body + rest;
    assert wire[..8] == header;
    assert wire[8..PacketLength(header)] == body && wire[PacketLength(header)..] == rest;
  }

  /** A wire whose next packet is malformed or incomplete carries nothing more. */
  lemma UnwrapStops(header: Octets, rest: Octets)
    requires |header| == HEADER_LEN
    requires GoodHeader(header) ==> HEADER_LEN + |rest| < PacketLength(header)
    ensures Unwrap(header + rest) == []
  {
    assert (header + rest)[..8] == header;
  }

  function Wrap(body: Octets): (packet: Octets)
    requires |body| <= CHUNK_LEN
    ensures |packet| == HEADER_LEN + |body|
  {
    [PRELOGIN, 1] + U16Be(HEADER_LEN + |body|) + [0, 0, 1, 0] + body
  }

  predicate Chunked(bodies: seq<Octets>) {
    forall i | 0 <= i < |bodies| :: 0 < |bodies[i]| <= CHUNK_LEN
  }

  function WrapAll(bodies: seq<Octets>): Octets
    requires Chunked(bodies)
  {
    if bodies == [] then [] else Wrap(bodies[0]) + WrapAll(bodies[1..])
  }

  lemma {:induction false} WrapAllSnoc(bodies: seq<Octets>, body: Octets)
    requires Chunked(bodies) && 0 < |body| <= CHUNK_LEN
    ensures Chunked(bodies + [body])
    ensures WrapAll(bodies + [body]) == WrapAll(bodies) + Wrap(body)
  {
    hide Wrap;
    if bodies == [] {
      assert bodies + [body] == [body];
      assert Wrap(body) + [] == Wrap(body) && [] + Wrap(body) == Wrap(body);
      assert WrapAll([body][1..]) == [];
    } else {
      WrapAllSnoc(bodies[1..], body);
      assert (bodies + [body])[1..] == bodies[1..] + [body];
      ConcatAssoc(Wrap(bodies[0]), WrapAll(bodies[1..]), Wrap(body));
    }
  }

  lemma UnwrapOne(body: Octets, rest: Octets)
    requires 0 < |body| <= CHUNK_LEN
    ensures Unwrap(Wrap(body) + rest) == body + AfterBody(body, rest)
  {
    var wire := Wrap(body) + rest;
    assert wire[..8] == [PRELOGIN, 1] + U16Be(HEADER_LEN + |body|) + [0, 0, 1, 0];
    assert wire[..8][2..4] == U16Be(HEADER_LEN + |body|);
    assert wire[8..8 + |body|] == body && wire[8 + |body|..] == rest;
  }

  lemma {:induction false} UnwrapPlain(bodies: seq<Octets>, rest: Octets)
    requires Chunked(bodies)
    requires forall i | 0 <= i < |bodies| :: !FinalFlight(bodies[i])
    ensures Unwrap(WrapAll(bodies) + rest) == Flatten(bodies) + Unwrap(rest)
  {
    hide Unwrap, Wrap, FinalFlight;
    if bodies == [] {
      assert WrapAll(bodies) + rest == rest;
      assert Flatten(bodies) + Unwrap(rest) == Unwrap(rest);
    } else {
      var body, more := bodies[0], bodies[1..];
      ConcatAssoc(Wrap(body), WrapAll(more), rest);
      UnwrapOne(body, WrapAll(more) + rest);
      UnwrapPlain(more, rest);
      ConcatAssoc(body, Flatten(more), Unwrap(rest));
    }
  }

  /**
   Reading what the write side emits gives the bodies back, each once and in
   order, and hands over everything behind the first final flight untouched.
   */
  lemma UnwrapInvertsWrap(bodies: seq<Octets>, last: Octets, rest: Octets)
    requires Chunked(bodies + [last])
    requires forall i | 0 <= i < |bodies| :: !FinalFlight(bodies[i])
    requires FinalFlight(last)
    ensures Unwrap(WrapAll(bodies + [last]) + rest) == Flatten(bodies + [last]) + rest
  {
    hide Unwrap, Wrap, FinalFlight;
    assert (bodies + [last])[|bodies|] == last;
    assert Chunked(bodies) by {
      assert forall i | 0 <= i < |bodies| :: bodies[i] == (bodies + [last])[i];
    }
    WrapAllSnoc(bodies, last);
    ConcatAssoc(WrapAll(bodies), Wrap(last), rest);
    UnwrapPlain(bodies, Wrap(last) + rest);
    UnwrapOne(last, rest);
    FlattenSnoc(bodies, last);
    ConcatAssoc(Flatten(bodies), last, rest);
  }

  // ----- What became of each wrapped chunk -----

  /** A chunk's completed write was reported to a caller holding `bytes`, or a flush finished it unreported. */
  datatype Fate = Acknowledged(bytes: Octets) | Drained

  function Cut(bytes: Octets, most: nat): (front: Octets)
    ensures |front| <= most
  {
    bytes[..Min(|bytes|, most)]
  }

  /**
   What a write has to say about the oldest chunk without a fate: its length if
   it is out now, taken by the caller for as many of the bytes it holds.
   */
  predicate Settled(r: Poll<nat>, chunks: seq<Octets>, input: Octets, before: seq<Fate>, after: seq<Fate>) {
    if r.Ready? && |chunks| > |before|
    then r.value == |chunks[|before|]| && after == before + [Acknowledged(Cut(input, r.value))]
    else after == before
  }

  /** What the callers were told had been written. */
  function Received(fates: seq<Fate>): Octets {
    if fates == [] then [] else Told(fates[0]) + Received(fates[1..])
  }

  function Told(fate: Fate): Octets {
    if fate.Acknowledged? then fate.bytes else []
  }

  /** One fate for each chunk, and no report of more than the chunk held. */
  predicate Bounded(chunks: seq<Octets>, fates: seq<Fate>) {
    && |fates| <= |chunks|
    && forall i | 0 <= i < |fates| :: fates[i].Acknowledged? ==> |fates[i].bytes| <= |chunks[i]|
  }

  /** Every report went to a caller that presented the chunk's own bytes. */
  predicate SameData(chunks: seq<Octets>, fates: seq<Fate>) {
    && |fates| == |chunks|
    && forall i | 0 <= i < |fates| :: fates[i].Acknowledged? ==> fates[i].bytes == chunks[i]
  }

  /**
   Emitted bodies and reported bytes agree exactly when no flush completed a
   write in place of its caller and no caller came back with other data; a
   flush that did makes more emitted than reported.
   */
  lemma {:induction false} EmittedIsReported(chunks: seq<Octets>, fates: seq<Fate>)
    requires Chunked(chunks) && |fates| == |chunks| && Bounded(chunks, fates)
    ensures Flatten(chunks) == Received(fates) <==> Drained !in fates && SameData(chunks, fates)
    ensures |Flatten(chunks)| >= |Received(fates)|
    ensures Drained in fates ==> |Flatten(chunks)| > |Received(fates)|
  {
    if chunks != [] {
      EmittedIsReported(chunks[1..], fates[1..]);
      assert fates == [fates[0]] + fates[1..] && chunks == [chunks[0]] + chunks[1..];
      SameConcat(chunks[0], Flatten(chunks[1..]), Told(fates[0]), Received(fates[1..]));
    }
  }

  lemma SameConcat(a: Octets, b: Octets, c: Octets, d: Octets)
    requires |a| >= |c| && |b| >= |d|
    ensures a + b == c + d <==> a == c && b == d
  {
    if a + b == c + d {
      assert |a + b| == |c + d|;
      assert a == (a + b)[..|a|] && c == (c + d)[..|c|];
      assert b == (a + b)[|a|..] && d == (c + d)[|c|..];
    }
  }

  // ----- The adapter -----

  /** What a reader is owed, given what the adapter holds and what the wire will still bring. */
  function Left(raw: bool, header: Octets, length: nat, payload: Octets, pos: nat, incoming: Octets): Octets
    requires pos <= |payload|
  {
    if raw then incoming
    else if length > 0 && |payload| == length then payload[pos..] + AfterBody(payload, incoming)
    else Unwrap(header + payload + incoming)
  }

  lemma LeftOfPart(header: Octets, payload: Octets, from: nat, to: nat, incoming: Octets)
    requires from <= to < |payload|
    ensures Left(false, header, |payload|, payload, from, incoming) ==
            payload[from..to] + Left(false, header, |payload|, payload, to, incoming)
  {
    assert payload[from..] == payload[from..to] + payload[to..];
    ConcatAssoc(payload[from..to], payload[to..], AfterBody(payload, incoming));
  }

  lemma LeftOfRest(payload: Octets, from: nat, incoming: Octets)
    requires from < |payload|
    ensures Left(false, [], |payload|, payload, from, incoming) ==
            payload[from..] + Left(FinalFlight(payload), [], 0, [], 0, incoming)
  {
    assert [] + [] + incoming == incoming;
  }

  lemma LeftWhenFilled(header: Octets, payload: Octets, incoming: Octets)
    requires GoodHeader(header) && |payload| == PacketLength(header) - HEADER_LEN
    ensures Unwrap(header + payload + incoming) == Left(false, [], |payload|, payload, 0, incoming)
  {
    UnwrapPacket(header, payload, incoming);
    assert payload[0..] == payload;
    if payload == [] {
      assert [] + payload + incoming == incoming;
    }
  }

  class TdsTlsIo {
    const inner: Wire
    var rawRead: bool
    var rawWrite: bool
    var header: Octets
    var payloadLength: nat
    var payload: Octets
    var payloadPos: nat
    var pendingWrite: Octets
    var pendingPos: nat
    var acceptedLength: nat

    // the stream this adapter owes its reader, and how much of it was delivered
    ghost var expected: Octets
    ghost var delivered: Octets

    // the chunks wrapped so far and what became of them; then the wrapped bytes
    // sent and left unsent at the raw switch, and the raw bytes sent after it
    ghost var chunks: seq<Octets>
    ghost var fates: seq<Fate>
    ghost var wrapped: Octets
    ghost var stranded: Octets
    ghost var rawOut: Octets

    predicate PayloadReady()
      reads this`payloadLength, this`payload
    {
      payloadLength > 0 && |payload| == payloadLength
    }

    ghost predicate ReadShape()
      reads this`rawRead, this`header, this`payloadLength, this`payload, this`payloadPos
    {
      && |header| <= HEADER_LEN && |payload| <= payloadLength
      && (PayloadReady() ==> header == [] && payloadPos < payloadLength && !rawRead)
      && (!PayloadReady() ==> payloadPos == 0)
      && (|payload| < payloadLength ==>
            !rawRead && GoodHeader(header) && payloadLength == PacketLength(header) - HEADER_LEN)
      && (rawRead ==> header == [])
    }

    /** What the reader is still owed. */
    ghost function Remaining(): Octets
      requires ReadShape()
      reads this`rawRead, this`header, this`payloadLength, this`payload, this`payloadPos
      reads inner`incoming
    {
      Left(rawRead, header, payloadLength, payload, payloadPos, inner.incoming)
    }

    ghost predicate ReadValid()
      reads this`rawRead, this`header, this`payloadLength, this`payload, this`payloadPos
      reads this`expected, this`delivered, inner`incoming
    {
      ReadShape() && expected == delivered + Remaining()
    }

    /** The part of a pending packet the transport has not taken. */
    ghost function Unsent(): Octets
      reads this`pendingWrite, this`pendingPos
    {
      if pendingPos <= |pendingWrite| then pendingWrite[pendingPos..] else []
    }

    /** While writes are wrapped: what is out, then what is pending, is the wrapped chunks in order. */
    ghost predicate Wrapping()
      reads this`pendingWrite, this`pendingPos, this`acceptedLength, this`chunks, this`fates, inner`outgoing
    {
      && Chunked(chunks)
      && pendingPos <= |pendingWrite|
      && inner.outgoing + Unsent() == WrapAll(chunks)
      && (pendingWrite == [] ==> acceptedLength == 0 && |fates| == |chunks|)
      && (pendingWrite != [] ==> |fates| + 1 == |chunks| && acceptedLength == |chunks[|fates|]|)
      && (pendingWrite != [] ==> |pendingWrite| == HEADER_LEN + acceptedLength)
      && Bounded(chunks, fates)
    }

    /** After the switch: the wrapped chunks, but for a stranded tail, then the raw bytes. */
    ghost predicate Switched()
      reads this`chunks, this`fates, this`wrapped, this`stranded, this`rawOut, inner`outgoing
    {
      && Chunked(chunks)
      && inner.outgoing == wrapped + rawOut
      && wrapped + stranded == WrapAll(chunks)
      && Bounded(chunks, fates) && |chunks| <= |fates| + 1
      && (stranded == [] <==> |fates| == |chunks|)
      && (stranded != [] ==> |stranded| <= HEADER_LEN + |chunks[|fates|]|)
    }

    ghost predicate WriteValid()
      reads this`rawWrite, this`pendingWrite, this`pendingPos, this`acceptedLength
      reads this`chunks, this`fates, this`wrapped, this`stranded, this`rawOut, inner`outgoing
    {
      && (rawWrite ==> Switched())
      && (!rawWrite ==> Wrapping() && rawOut == [] && (pendingWrite != [] ==> pendingPos < |pendingWrite|))
    }

    constructor (inner: Wire)
      ensures this.inner == inner
      ensures ReadValid() && expected == Unwrap(inner.incoming) && delivered == []
      ensures !rawRead && !rawWrite && pendingWrite == [] && chunks == [] && fates == [] && rawOut == []
      ensures inner.outgoing == [] ==> WriteValid()
    {
      this.inner := inner;
      rawRead, rawWrite := false, false;
      header, payloadLength, payload, payloadPos := [], 0, [], 0;
      pendingWrite, pendingPos, acceptedLength := [], 0, 0;
      expected, delivered := Unwrap(inner.incoming), [];
      chunks, fates, wrapped, stranded, rawOut := [], [], [], [], [];
      new;
      assert header + payload + inner.incoming == inner.incoming;
    }

    /** Moves wire bytes into the header until it is whole. */
    method FillHeader() returns (r: Poll<()>)
      requires ReadShape() && !rawRead && payloadLength == 0
      modifies this`header, inner`incoming, inner`stalls
      ensures ReadShape() && header + inner.incoming == old(header + inner.incoming)
      ensures r.Ready? ==> |header| == HEADER_LEN
      ensures r == Failed(UnexpectedEof) ==> |header| < HEADER_LEN && inner.incoming == []
      ensures r.Failed? ==> r.error in {UnexpectedEof, Broken}
    {
      while |header| < HEADER_LEN
        invariant ReadShape() && header + inner.incoming == old(header + inner.incoming)
      {
        var part := inner.PollRead(HEADER_LEN - |header|);
        match part
        case Pending => return Pending;
        case Failed(error) => return Failed(error);
        case Ready(bytes) =>
          if bytes == [] {
            return Failed(UnexpectedEof);
          }
          ConcatAssoc(header, bytes, inner.incoming);
          header := header + bytes;
      }
      r := Ready(());
    }

    /** Moves wire bytes into the payload until it is whole. */
    method FillPayload() returns (r: Poll<()>)
      requires |payload| <= payloadLength
      modifies this`payload, inner`incoming, inner`stalls
      ensures |payload| <= payloadLength && payload + inner.incoming == old(payload + inner.incoming)
      ensures r.Ready? ==> |payload| == payloadLength
      ensures !r.Ready? ==> |payload| < payloadLength
      ensures r == Failed(UnexpectedEof) ==> inner.incoming == []
      ensures r.Failed? ==> r.error in {UnexpectedEof, Broken}
    {
      while |payload| < payloadLength
        invariant |payload| <= payloadLength
        invariant payload + inner.incoming == old(payload + inner.incoming)
      {
        var part := inner.PollRead(Min(payloadLength - |payload|, CHUNK_LEN + HEADER_LEN));
        match part
        case Pending => return Pending;
        case Failed(error) => return Failed(error);
        case Ready(bytes) =>
          if bytes == [] {
            return Failed(UnexpectedEof);
          }
          ConcatAssoc(payload, bytes, inner.incoming);
          payload := payload + bytes;
      }
      r := Ready(());
    }

    /** Hands out part of a complete body; the last part of a final flight makes reading raw. */
    method Deliver(capacity: nat) returns (bytes: Octets)
      requires ReadValid() && PayloadReady()
      modifies this`payload, this`payloadLength, this`payloadPos, this`rawRead, this`delivered
      ensures ReadValid()
      ensures |bytes| <= capacity && delivered == old(delivered) + bytes
      ensures bytes == [] ==> capacity == 0
    {
      hide Left, FinalFlight, GoodHeader;
      var to := payloadPos + Min(capacity, payloadLength - payloadPos);
      bytes := payload[payloadPos..to];
      if to < payloadLength {
        LeftOfPart(header, payload, payloadPos, to, inner.incoming);
        payloadPos := to;
      } else {
        LeftOfRest(payload, payloadPos, inner.incoming);
        assert bytes == payload[payloadPos..];
        rawRead := FinalFlight(payload);
        payload, payloadLength, payloadPos := [], 0, 0;
      }
      ConcatAssoc(delivered, bytes, Remaining());
      delivered := delivered + bytes;
    }

    /** One packet's worth of input, as far as the transport gives it. */
    method ReadPacket() returns (r: Poll<()>)
      requires ReadValid() && !rawRead && !PayloadReady()
      modifies this`header, this`payload, this`payloadLength, inner`incoming, inner`stalls
      ensures ReadValid()
      ensures r.Ready? ==> |inner.incoming| + |header| < old(|inner.incoming| + |header|)
      ensures r == Failed(UnexpectedEof) || r == Failed(InvalidData) ==> delivered == expected
    {
      hide Unwrap, FinalFlight, AfterBody, FromU16Be;
      ghost var wire := header + payload + inner.incoming;
      if payloadLength == 0 {
        assert wire == header + inner.incoming;
        var filled := FillHeader();
        assert header + payload + inner.incoming == wire;
        if !filled.Ready? {
          UnwrapShort(wire);
          return filled;
        }
        if !GoodHeader(header) {
          UnwrapStops(header, inner.incoming);
          return Failed(InvalidData);
        }
        payloadLength := PacketLength(header) - HEADER_LEN;
      }
      ConcatAssoc(header, payload, inner.incoming);
      r := FillPayload();
      ConcatAssoc(header, payload, inner.incoming);
      if r.Ready? {
        LeftWhenFilled(header, payload, inner.incoming);
        header := [];
      } else if r == Failed(UnexpectedEof) {
        assert wire == header + payload;
        UnwrapStops(header, payload);
      }
    }

    /** Makes writing raw; the unsent part of a pending packet stays behind for good. */
    method SwitchWrites()
      requires WriteValid()
      modifies this`rawWrite, this`wrapped, this`stranded
      ensures WriteValid() && rawWrite && Switched()
      ensures stranded == if old(rawWrite) then old(stranded) else Unsent()
    {
      hide WrapAll, Chunked;
      if !rawWrite {
        wrapped, stranded := inner.outgoing, Unsent();
        assert wrapped + rawOut == wrapped;
        rawWrite := true;
      }
    }

    method PollReadRaw(capacity: nat) returns (r: Poll<Octets>)
      requires ReadValid() && rawRead
      modifies this`delivered, inner`incoming, inner`stalls
      ensures ReadValid()
      ensures r.Ready? ==> |r.value| <= capacity && delivered == old(delivered) + r.value
      ensures !r.Ready? ==> delivered == old(delivered)
      ensures r.Failed? ==> r.error == Broken
      ensures r == Ready([]) && capacity > 0 ==> delivered == expected
    {
      hide Unwrap, AfterBody, GoodHeader, PacketLength;
      r := inner.PollRead(capacity);
      if r.Ready? {
        ConcatAssoc(delivered, r.value, inner.incoming);
        delivered := delivered + r.value;
      }
    }

    /**
     One read: what it delivers continues the owed stream, whatever the
     transport did, and it reports an end only when nothing more is owed.
     */
    method PollRead(capacity: nat) returns (r: Poll<Octets>)
      requires ReadValid() && WriteValid()
      modifies this`header, this`payload, this`payloadLength, this`payloadPos, this`rawRead, this`rawWrite
      modifies this`delivered, this`wrapped, this`stranded, inner`incoming, inner`stalls
      ensures ReadValid() && WriteValid()
      ensures r.Ready? ==> |r.value| <= capacity && delivered == old(delivered) + r.value
      ensures !r.Ready? ==> delivered == old(delivered)
      ensures r == Failed(UnexpectedEof) || r == Failed(InvalidData) ==> delivered == expected
      ensures r == Ready([]) && capacity > 0 ==> delivered == expected
      ensures rawRead && !old(rawRead) ==> rawWrite
    {
      hide ReadValid, WriteValid, ReadShape, Switched, Unsent, PayloadReady;
      if rawRead {
        r := PollReadRaw(capacity);
        return;
      }
      while !PayloadReady()
        invariant ReadValid() && WriteValid() && !rawRead && delivered == old(delivered)
        decreases |inner.incoming| + |header|
      {
        var packet := ReadPacket();
        match packet
        case Pending => return Pending;
        case Failed(error) => return Failed(error);
        case Ready(_) =>
      }
      var bytes := Deliver(capacity);
      if rawRead {
        SwitchWrites();
      }
      r := Ready(bytes);
    }

    /** Pushes the pending packet out as far as the transport takes it. */
    method PollPendingWrite() returns (r: Poll<()>)
      requires WriteValid() && !rawWrite && pendingWrite != []
      modifies this`pendingPos, inner`outgoing
      ensures Wrapping() && pendingPos <= |pendingWrite|
      ensures r.Ready? <==> pendingPos == |pendingWrite|
    {
      hide WrapAll, Wrap, Chunked, Bounded;
      while pendingPos < |pendingWrite|
        invariant pendingPos <= |pendingWrite|
        invariant inner.outgoing + pendingWrite[pendingPos..] == WrapAll(chunks)
      {
        ghost var before := inner.outgoing;
        var part := inner.PollWrite(pendingWrite[pendingPos..]);
        match part
        case Pending => return Pending;
        case Failed(error) => return Failed(error);
        case Ready(written) =>
          if written == 0 {
            assert old(pendingWrite)[pendingPos..][..0] == [];
            return Failed(WriteZero);
          }
          SentPart(before, pendingWrite, pendingPos, written);
          pendingPos := pendingPos + written;
      }
      r := Ready(());
    }

    /** The pending packet is out: forget it and record what became of its chunk. */
    method Complete(ghost fate: Fate) returns (accepted: nat)
      requires Wrapping() && !rawWrite && rawOut == [] && pendingWrite != [] && pendingPos == |pendingWrite|
      requires fate.Acknowledged? ==> |fate.bytes| <= acceptedLength
      modifies this`pendingWrite, this`pendingPos, this`acceptedLength, this`fates
      ensures WriteValid() && pendingWrite == []
      ensures fates == old(fates) + [fate] && accepted == |chunks[|old(fates)|]|
    {
      hide WrapAll, Chunked;
      accepted := acceptedLength;
      pendingWrite, pendingPos, acceptedLength := [], 0, 0;
      fates := fates + [fate];
    }

    /** Wraps the next chunk of `input`. */
    method Stage(input: Octets)
      requires WriteValid() && !rawWrite && pendingWrite == [] && input != []
      modifies this`pendingWrite, this`pendingPos, this`acceptedLength, this`chunks
      ensures WriteValid() && pendingWrite != []
      ensures chunks == old(chunks) + [Cut(input, CHUNK_LEN)]
    {
      hide WrapAll;
      var take := Min(|input|, CHUNK_LEN);
      pendingWrite, pendingPos, acceptedLength := Wrap(input[..take]), 0, take;
      WrapAllSnoc(chunks, input[..take]);
      chunks := chunks + [input[..take]];
      assert pendingWrite[0..] == pendingWrite;
      assert inner.outgoing + old(pendingWrite)[old(pendingPos)..] == inner.outgoing;
    }

    /**
     One write. A completed write is reported once, with its chunk's length;
     a call that completes an earlier pending packet reports that packet's
     length, whatever data it was given.
     */
    method PollWrite(input: Octets) returns (r: Poll<nat>)
      requires WriteValid()
      modifies this`pendingWrite, this`pendingPos, this`acceptedLength, this`chunks, this`fates, this`rawOut
      modifies inner`outgoing
      ensures WriteValid()
      ensures rawWrite ==> chunks == old(chunks) && fates == old(fates)
      ensures rawWrite ==> rawOut == old(rawOut) + if r.Ready? then Cut(input, r.value) else []
      ensures !rawWrite ==> rawOut == old(rawOut)
      ensures !rawWrite ==>
                chunks == if old(pendingWrite) == [] && input != []
                          then old(chunks) + [Cut(input, CHUNK_LEN)] else old(chunks)
      ensures !rawWrite ==> Settled(r, chunks, input, old(fates), fates)
    {
      hide WrapAll, Chunked;
      if rawWrite {
        r := inner.PollWrite(input);
        if r.Ready? {
          ConcatAssoc(wrapped, rawOut, input[..r.value]);
          rawOut := rawOut + input[..r.value];
        }
        return;
      }
      if pendingWrite == [] {
        if input == [] {
          return Ready(0);
        }
        Stage(input);
      }
      var pushed := PollPendingWrite();
      match pushed
      case Pending => return Pending;
      case Failed(error) => return Failed(error);
      case Ready(_) =>
        var accepted := Complete(Acknowledged(Cut(input, acceptedLength)));
        r := Ready(accepted);
    }

    /** Finishes a pending packet for nobody. */
    method Drain() returns (r: Poll<()>)
      requires WriteValid() && !rawWrite && pendingWrite != []
      modifies this`pendingWrite, this`pendingPos, this`acceptedLength, this`fates, inner`outgoing
      ensures WriteValid() && (r.Ready? <==> pendingWrite == [])
      ensures fates == if r.Ready? then old(fates) + [Drained] else old(fates)
    {
      hide Wrapping, Switched, Unsent;
      r := PollPendingWrite();
      if r.Ready? {
        var _ := Complete(Drained);
      }
    }

    /** A flush finishes a pending packet too, but tells nobody. */
    method PollFlush() returns (r: Poll<()>)
      requires WriteValid()
      modifies this`pendingWrite, this`pendingPos, this`acceptedLength, this`fates, inner`outgoing
      ensures WriteValid() && (r.Ready? && !rawWrite ==> pendingWrite == [])
      ensures fates == if !rawWrite && old(pendingWrite) != [] && pendingWrite == []
                       then old(fates) + [Drained] else old(fates)
    {
      hide WriteValid;
      if !rawWrite && pendingWrite != [] {
        var pushed := Drain();
        if !pushed.Ready? {
          return pushed;
        }
      }
      r := inner.PollFlush();
    }

    method DropReads()
      requires ReadValid()
      modifies this`header, this`payload, this`payloadLength, this`payloadPos, this`rawRead, this`expected
      ensures ReadValid() && rawRead
      ensures expected == delivered + inner.incoming
      ensures old(rawRead) ==> expected == old(expected)
    {
      hide Unwrap, AfterBody, GoodHeader, PacketLength;
      if !rawRead {
        expected := delivered + inner.incoming;
      }
      header, payload, payloadLength, payloadPos := [], [], 0, 0;
      rawRead := true;
    }

    method DropWrites()
      requires rawWrite && WriteValid()
      modifies this`pendingWrite, this`pendingPos, this`acceptedLength
      ensures WriteValid()
    {
      pendingWrite, pendingPos, acceptedLength := [], 0, 0;
    }

    /**
     Called once the handshake is over. Bytes already buffered are dropped; if
     the final flight has been read, nothing is buffered and nothing is lost.
     */
    method EnableRawMode()
      requires ReadValid() && WriteValid()
      modifies this`header, this`payload, this`payloadLength, this`payloadPos, this`rawRead, this`rawWrite
      modifies this`pendingWrite, this`pendingPos, this`acceptedLength, this`wrapped, this`stranded, this`expected
      ensures ReadValid() && WriteValid() && rawRead && rawWrite
      ensures expected == delivered + inner.incoming
      ensures old(rawRead) ==> expected == old(expected)
      ensures stranded == if old(rawWrite) then old(stranded) else old(Unsent())
    {
      hide ReadValid, WriteValid, ReadShape, Switched, Unsent;
      DropReads();
      SwitchWrites();
      DropWrites();
    }
  }

  lemma SentPart(out: Octets, bytes: Octets, from: nat, count: nat)
    requires from + count <= |bytes|
    ensures out + bytes[from..] == out + bytes[from..][..count] + bytes[from + count..]
  {
    assert bytes[from..] == bytes[from..][..count] + bytes[from + count..];
  }

  lemma UnwrapShort(wire: Octets)
    ensures |wire| < HEADER_LEN ==> Unwrap(wire) == []
  {
  }

  // ----- Both directions together -----

  /** At most the last chunk is a final flight, as the peer takes everything behind one for raw. */
  predicate FinalLast(chunks: seq<Octets>) {
    forall i | 0 <= i < |chunks| - 1 :: !FinalFlight(chunks[i])
  }

  /**
   A write side that has switched with nothing stranded: whatever polls, failures
   and flushes there were, the peer reads what the callers were told had been
   written, then the raw bytes, exactly if no flush completed a write in place
   of its caller and no caller came back with other data.
   */
  lemma ReportedReadsBack(io: TdsTlsIo)
    requires io.WriteValid() && io.rawWrite && io.stranded == []
    requires io.chunks != [] && FinalLast(io.chunks) && FinalFlight(io.chunks[|io.chunks| - 1])
    ensures Unwrap(io.inner.outgoing) == Flatten(io.chunks) + io.rawOut
    ensures Unwrap(io.inner.outgoing) == Received(io.fates) + io.rawOut <==>
            Drained !in io.fates && SameData(io.chunks, io.fates)
  {
    hide FinalFlight, WrapAll, Unwrap;
    var n := |io.chunks| - 1;
    assert io.chunks == io.chunks[..n] + [io.chunks[n]];
    assert io.wrapped == WrapAll(io.chunks);
    UnwrapInvertsWrap(io.chunks[..n], io.chunks[n], io.rawOut);
    EmittedIsReported(io.chunks, io.fates);
    SameFront(Flatten(io.chunks), Received(io.fates), io.rawOut);
  }

  /** The same before the switch, at any moment when no packet is pending. */
  lemma ReportedReadsBackSoFar(io: TdsTlsIo)
    requires io.WriteValid() && !io.rawWrite && io.pendingWrite == []
    requires forall i | 0 <= i < |io.chunks| :: !FinalFlight(io.chunks[i])
    ensures Unwrap(io.inner.outgoing) == Flatten(io.chunks)
    ensures Unwrap(io.inner.outgoing) == Received(io.fates) <==> Drained !in io.fates && SameData(io.chunks, io.fates)
  {
    hide FinalFlight, WrapAll;
    assert io.inner.outgoing + [] == WrapAll(io.chunks) + [];
    UnwrapPlain(io.chunks, []);
    EmittedIsReported(io.chunks, io.fates);
    assert Flatten(io.chunks) + [] == Flatten(io.chunks) && io.inner.outgoing + [] == io.inner.outgoing;
  }

  /**
   After the switch with a packet pending: the packets before it are out whole,
   then its own octets up to the stranded ones, then the raw bytes. So the
   wire goes on as if nothing were missing exactly if the raw bytes happen to
   begin with the stranded octets.
   */
  lemma StrandedIsMissing(io: TdsTlsIo)
    requires io.WriteValid() && io.rawWrite && |io.fates| < |io.chunks|
    ensures
      var n, packet := |io.fates|, Wrap(io.chunks[|io.fates|]);
      && n == |io.chunks| - 1 && 0 < |io.stranded| <= |packet| && Chunked(io.chunks[..n])
      && io.inner.outgoing == WrapAll(io.chunks[..n]) + packet[..|packet| - |io.stranded|] + io.rawOut
    ensures WrapAll(io.chunks) <= io.inner.outgoing <==> io.stranded <= io.rawOut
  {
    hide Wrap, WrapAll;
    var n := |io.fates|;
    var packet := Wrap(io.chunks[n]);
    assert io.chunks == io.chunks[..n] + [io.chunks[n]];
    WrapAllSnoc(io.chunks[..n], io.chunks[n]);
    CutBefore(io.wrapped, io.stranded, WrapAll(io.chunks[..n]), packet);
    PrefixGoesOn(io.wrapped, io.stranded, io.rawOut);
  }

  lemma CutBefore(a: Octets, tail: Octets, front: Octets, packet: Octets)
    requires a + tail == front + packet && |tail| <= |packet|
    ensures a == front + packet[..|packet| - |tail|]
  {
    assert a == (a + tail)[..|a|] == (front + packet)[..|a|];
  }

  lemma PrefixGoesOn(front: Octets, a: Octets, b: Octets)
    ensures front + a <= front + b <==> a <= b
  {
    assert a == (front + a)[|front|..] && b == (front + b)[|front|..];
    if a <= b {
      assert front + b == front + a + b[|a|..];
    }
  }

  lemma SameFront(a: Octets, b: Octets, tail: Octets)
    ensures a + tail == b + tail <==> a == b
  {
    if a + tail == b + tail {
      assert |a| == |b|;
      assert a == (a + tail)[..|a|] && b == (b + tail)[..|b|];
    }
  }

  /**
   The run that doubles a write: it is pending, a flush finishes it, and the
   retry its caller owes sends the data again. Emitted twice, reported once.
   */
  method FlushDoubles(io: TdsTlsIo, data: Octets) returns (first: Poll<nat>, flushed: Poll<()>, again: Poll<nat>)
    requires io.WriteValid() && !io.rawWrite && io.pendingWrite == [] && 0 < |data| <= CHUNK_LEN
    modifies io`pendingWrite, io`pendingPos, io`acceptedLength, io`chunks, io`fates, io`rawOut, io.inner`outgoing
    ensures io.WriteValid()
    ensures first.Pending? && flushed.Ready? && again.Ready? ==>
              && io.chunks == old(io.chunks) + [data, data]
              && io.fates == old(io.fates) + [Drained, Acknowledged(data)]
              && Flatten(io.chunks) == Flatten(old(io.chunks)) + (data + data)
              && Received(io.fates) == Received(old(io.fates)) + data
  {
    hide Flatten, Received, Wrap, WrapAll, Chunked;
    assert data[..|data|] == data;
    first := io.PollWrite(data);
    flushed := io.PollFlush();
    again := io.PollWrite(data);
    Doubled(old(io.chunks), old(io.fates), data);
  }

  /** The run that mistakes the data: a retry with other bytes is told that as many of its own went out. */
  method RetryMisreports(io: TdsTlsIo, data: Octets, other: Octets) returns (first: Poll<nat>, again: Poll<nat>)
    requires io.WriteValid() && !io.rawWrite && io.pendingWrite == [] && 0 < |data| <= CHUNK_LEN
    requires |other| == |data|
    modifies io`pendingWrite, io`pendingPos, io`acceptedLength, io`chunks, io`fates, io`rawOut, io.inner`outgoing
    ensures io.WriteValid()
    ensures first.Pending? && again.Ready? ==>
              && io.chunks == old(io.chunks) + [data] && io.fates == old(io.fates) + [Acknowledged(other)]
              && again.value == |data|
  {
    hide Wrap, WrapAll, Chunked;
    assert data[..|data|] == data && other[..|data|] == other;
    first := io.PollWrite(data);
    again := io.PollWrite(other);
  }

  /**
   The run that breaks a packet off, from a new adapter on: a first write is
   pending when the session goes raw, and what is written afterwards follows the part that was sent.
   */
  method SwitchStrands(inner: Wire, data: Octets, raw: Octets)
    returns (io: TdsTlsIo, first: Poll<nat>, second: Poll<nat>)
    requires inner.outgoing == [] && 0 < |data| <= CHUNK_LEN
    modifies inner`outgoing
    ensures io.inner == inner && io.WriteValid()
    ensures first.Pending? ==>
              && 0 < |io.stranded| <= |Wrap(data)|
              && inner.outgoing ==
                 Wrap(data)[..|Wrap(data)| - |io.stranded|] +
                 if second.Ready? then Cut(raw, second.value) else []
  {
    hide Wrap, TdsTlsIo.WriteValid, TdsTlsIo.ReadValid, Unwrap;
    io := new TdsTlsIo(inner);
    assert data[..|data|] == data && [] + [data] == [data];
    first := io.PollWrite(data);
    io.EnableRawMode();
    second := io.PollWrite(raw);
    if first.Pending? {
      OnlyPart(io, data);
      ghost var sent := if second.Ready? then Cut(raw, second.value) else [];
      assert [] + sent == sent;
    }
  }

  lemma OnlyPart(io: TdsTlsIo, data: Octets)
    requires io.WriteValid() && io.rawWrite && io.chunks == [data] && io.fates == [] && 0 < |data| <= CHUNK_LEN
    ensures 0 < |io.stranded| <= |Wrap(data)|
    ensures io.inner.outgoing == Wrap(data)[..|Wrap(data)| - |io.stranded|] + io.rawOut
  {
    hide Wrap;
    StrandedIsMissing(io);
    var part := Wrap(data)[..|Wrap(data)| - |io.stranded|];
    assert io.chunks[..0] == [] && [] + part == part;
  }

  lemma Doubled(chunks: seq<Octets>, fates: seq<Fate>, data: Octets)
    ensures chunks + [data] + [data] == chunks + [data, data]
    ensures fates + [Drained] + [Acknowledged(data)] == fates + [Drained, Acknowledged(data)]
    ensures Flatten(chunks + [data, data]) == Flatten(chunks) + (data + data)
    ensures Received(fates + [Drained, Acknowledged(data)]) == Received(fates) + data
  {
    hide Flatten, Received;
    assert chunks + [data] + [data] == chunks + [data, data];
    assert fates + [Drained] + [Acknowledged(data)] == fates + [Drained, Acknowledged(data)];
    FlattenSnoc(chunks, data);
    FlattenSnoc(chunks + [data], data);
    ReceivedSnoc(fates, Drained);
    ReceivedSnoc(fates + [Drained], Acknowledged(data));
    assert Received(fates) + [] == Received(fates);
  }

  lemma {:induction false} ReceivedSnoc(fates: seq<Fate>, fate: Fate)
    ensures Received(fates + [fate]) == Received(fates) + Told(fate)
  {
    if fates == [] {
      assert fates + [fate] == [fate] && [fate][1..] == [];
    } else {
      assert (fates + [fate])[1..] == fates[1..] + [fate] && (fates + [fate])[0] == fates[0];
      ReceivedSnoc(fates[1..], fate);
      var first, last := Told(fates[0]), Told(fate);
      ConcatAssoc(first, Received(fates[1..]), last);
    }
  }
}
