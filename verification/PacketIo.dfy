/** Reading and writing packets over a transport, in particular one whose first bytes are replayed. */
module PacketIo {
  import opened Bytes
  import opened Transport
  import opened Packet

  /** Replays already decoded bytes, then continues on the transport. */
  class PrefixedIo {
    const inner: Wire
    const prefix: Octets
    var position: nat

    constructor (prefix: Octets, inner: Wire)
      ensures this.inner == inner && this.prefix == prefix && Valid()
      ensures Contents() == prefix + inner.incoming
    {
      this.inner, this.prefix, position := inner, prefix, 0;
      new;
      assert prefix[0..] == prefix;
    }

    ghost predicate Valid()
      reads this`position
    {
      position <= |prefix|
    }

    /** Everything a reader will get. */
    ghost function Contents(): Octets
      requires Valid()
      reads this`position, inner`incoming
    {
      prefix[position..] + inner.incoming
    }

    method PollRead(capacity: nat) returns (r: Poll<Octets>)
      requires Valid()
      modifies this`position, inner`incoming, inner`stalls
      ensures Valid()
      ensures !r.Ready? ==> Contents() == old(Contents())
      ensures if r.Pending? then inner.stalls < old(inner.stalls) else inner.stalls == old(inner.stalls)
      ensures r.Failed? ==> r.error == Broken
      ensures r.Ready? ==> |r.value| <= capacity && r.value + Contents() == old(Contents())
      ensures r == Ready([]) && capacity > 0 ==> Contents() == []
    {
      if position < |prefix| {
        var take := Min(capacity, |prefix| - position);
        var bytes := prefix[position..position + take];
        assert prefix[position..] == bytes + prefix[position + take..];
        ConcatAssoc(bytes, prefix[position + take..], inner.incoming);
        position := position + take;
        return Ready(bytes);
      }
      assert prefix[position..] + inner.incoming == inner.incoming;
      r := inner.PollRead(capacity);
      assert prefix[position..] + inner.incoming == inner.incoming;
    }

    /** Exactly `n` bytes, however the polls deal them out. */
    method ReadExact(n: nat) returns (r: Result<Octets, Error>)
      requires Valid()
      modifies this`position, inner`incoming, inner`stalls
      ensures Valid()
      ensures r.Ok? ==> |r.value| == n && r.value + Contents() == old(Contents())
      ensures r == Err(EndOfStream) ==> |old(Contents())| < n
      ensures r.Err? ==> r.error in {EndOfStream, Error.Transport}
    {
      var got: Octets := [];
      assert [] + Contents() == Contents();
      while |got| < n
        invariant Valid() && |got| <= n && got + Contents() == old(Contents())
        decreases n - |got|, inner.stalls
      {
        var part := PollRead(n - |got|);
        match part
        case Pending =>
        case Failed(_) => return Err(Error.Transport);
        case Ready(bytes) =>
          if bytes == [] {
            return Err(EndOfStream);
          }
          ConcatAssoc(got, bytes, Contents());
          got := got + bytes;
      }
      r := Ok(got);
    }

    /** The next `n` bytes of a stream of which `p` have been read. */
    method ReadAt(ghost s: Octets, ghost p: nat, n: nat) returns (r: Result<Octets, Error>)
      requires Valid() && p <= |s| && Contents() == s[p..]
      modifies this`position, inner`incoming, inner`stalls
      ensures Valid()
      ensures r.Ok? ==> p + n <= |s| && r.value == s[p..p + n] && Contents() == s[p + n..]
      ensures r == Err(EndOfStream) ==> p + n > |s|
      ensures r.Err? ==> r.error in {EndOfStream, Error.Transport}
    {
      hide Contents, Valid;
      r := ReadExact(n);
      if r.Ok? {
        assert |s[p..]| == n + |Contents()|;
        assert r.value == s[p..][..n] == s[p..p + n];
        assert Contents() == s[p..][n..] == s[p + n..];
      }
    }

    /** One frame behind its header: the next frame's header, or the error that ends the prelude. */
    method ReadSmpFrame(header: Octets, frame: nat, bytes: nat, maxMessage: nat, ghost s: Octets, ghost p: nat)
      returns (r: Result<(Octets, nat), Error>)
      requires Valid() && 1 <= frame <= SMP_FRAMES && p + HEADER_LEN <= |s|
      requires header == s[p..p + HEADER_LEN] && Contents() == s[p + HEADER_LEN..]
      modifies this`position, inner`incoming, inner`stalls
      ensures Valid()
      ensures r.Err? && r.error != Error.Transport ==> r.error == SmpPrelude(s, p, frame, bytes, maxMessage)
      ensures r.Ok? ==>
                var (next, n) := r.value;
                && frame < SMP_FRAMES && p + n + HEADER_LEN <= |s|
                && next == s[p + n..p + n + HEADER_LEN] && Contents() == s[p + n + HEADER_LEN..]
                && SmpPrelude(s, p, frame, bytes, maxMessage) ==
                   SmpPrelude(s, p + n, frame + 1, bytes + n, maxMessage)
    {
      hide Contents, Valid, FromU32Le, SmpPrelude;
      HeaderFields(s, p);
      SmpUnfolds(s, p, frame, bytes, maxMessage);
      var length := FromU32Le(header[4..8]);
      if !(SMP_HEADER_LEN <= length <= maxMessage) {
        return Err(SmpLength);
      }
      if bytes + length > maxMessage {
        return Err(SmpBytes);
      }
      var _ :- ReadAt(s, p + HEADER_LEN, length - HEADER_LEN);
      if header[1] !in {0x01, 0x02} {
        return Err(SmpNotNegotiated);
      }
      if frame == SMP_FRAMES {
        return Err(SmpFrameLimit);
      }
      var next :- ReadAt(s, p + length, HEADER_LEN);
      HeaderFields(s, p + length);
      if next[0] != SMP {
        return Err(SmpIdentifier);
      }
      r := Ok((next, length));
    }

    method ReadSmpPrelude(raw: Octets, maxMessage: nat, ghost s: Octets, ghost p: nat) returns (e: Error)
      requires Valid() && p + HEADER_LEN <= |s| && raw == s[p..p + HEADER_LEN] && Contents() == s[p + HEADER_LEN..]
      modifies this`position, inner`incoming, inner`stalls
      ensures Valid() && (e != Error.Transport ==> e == SmpPrelude(s, p, 1, 0, maxMessage))
    {
      hide Contents, Valid, SmpPrelude;
      var header: Octets, bytes: nat, frame: nat := raw, 0, 1;
      ghost var at: nat := p;
      while true
        invariant Valid() && 1 <= frame <= SMP_FRAMES && at + HEADER_LEN <= |s|
        invariant header == s[at..at + HEADER_LEN] && Contents() == s[at + HEADER_LEN..]
        invariant SmpPrelude(s, at, frame, bytes, maxMessage) == SmpPrelude(s, p, 1, 0, maxMessage)
        decreases SMP_FRAMES - frame
      {
        var next := ReadSmpFrame(header, frame, bytes, maxMessage, s, at);
        if next.Err? {
          return next.error;
        }
        header, bytes, frame := next.value.0, bytes + next.value.1, frame + 1;
        at := at + next.value.1;
      }
    }

    /** The header of the packet at `p`, or the error with which reassembly ends there. */
    method ReadHeader(maxPacket: nat, maxMessage: nat, ghost s: Octets, ghost p: nat, ghost a: Assembly)
      returns (r: Result<Header, Error>)
      requires Valid() && p <= |s| && Contents() == s[p..]
      modifies this`position, inner`incoming, inner`stalls
      ensures Valid()
      ensures r.Err? && r.error != Error.Transport ==> Reassemble(s, p, maxPacket, maxMessage, a) == Err(r.error)
      ensures r.Ok? ==>
                && p + HEADER_LEN <= |s| && r.value.length >= HEADER_LEN && Contents() == s[p + HEADER_LEN..]
                && Reassemble(s, p, maxPacket, maxMessage, a) ==
                   AfterHeader(s, p, maxPacket, maxMessage, a, r.value)
    {
      hide SmpPrelude, Contents, Valid, Decode, Reassemble, AfterHeader;
      ReassembleUnfolds(s, p, maxPacket, maxMessage, a);
      var raw :- ReadAt(s, p, HEADER_LEN);
      assert raw[0] == s[p];
      if raw[0] == SMP {
        var e := ReadSmpPrelude(raw, maxMessage, s, p);
        return Err(e);
      }
      r := Decode(raw, maxPacket);
    }

    /** The body behind a header, added to what has been read. */
    method ReadBody(
      maxPacket: nat, maxMessage: nat, a: Assembly, h: Header, ghost s: Octets, ghost p: nat)
      returns (r: Result<Assembly, Error>)
      requires Valid() && p + HEADER_LEN <= |s| && h.length >= HEADER_LEN && Contents() == s[p + HEADER_LEN..]
      modifies this`position, inner`incoming, inner`stalls
      ensures Valid()
      ensures r.Err? && r.error != Error.Transport ==>
                AfterHeader(s, p, maxPacket, maxMessage, a, h) == Err(r.error)
      ensures r.Ok? ==>
                var b, end := r.value, p + h.length;
                && end <= |s| && Contents() == s[end..] && b.first.Some?
                && AfterHeader(s, p, maxPacket, maxMessage, a, h) ==
                   if EndOfMessage(h.status) then Ok((Finish(b), end))
                   else if |b.packets| > MAX_PACKETS then Err(PacketLimit)
                   else Reassemble(s, end, maxPacket, maxMessage, b)
    {
      hide Contents, Valid, Reassemble, Extend, Finish, EndOfMessage;
      if a.first.Some? && a.first.value.packetType != h.packetType {
        return Err(TypeChanged);
      }
      if |a.payload| + h.length - HEADER_LEN > maxMessage {
        return Err(MessageLimit);
      }
      var body :- ReadAt(s, p + HEADER_LEN, h.length - HEADER_LEN);
      r := Ok(Extend(a, h, body));
    }

    /**
     One message from the front of the stream. The outcome depends on what the
     stream holds, not on where the replayed prefix ends or how reads are dealt out.
     */
    method ReadMessage(maxPacket: nat, maxMessage: nat) returns (r: Result<Message, Error>)
      requires Valid()
      modifies this`position, inner`incoming, inner`stalls
      ensures Valid()
      ensures
        var whole := Reassemble(old(Contents()), 0, maxPacket, maxMessage, NOTHING);
        || r == Err(Error.Transport)
        || (r.Err? && whole == Err(r.error))
        || (r.Ok? && whole.Ok? && whole.value.0 == r.value &&
            whole.value.1 <= |old(Contents())| && Contents() == old(Contents())[whole.value.1..])
    {
      hide Contents, Valid, AfterHeader, Finish, EndOfMessage, Reassemble;
      ghost var s := Contents();
      ghost var p: nat := 0;
      var a := NOTHING;
      assert s[0..] == s;
      while true
        invariant Valid() && p <= |s| && Contents() == s[p..]
        invariant Reassemble(s, p, maxPacket, maxMessage, a) == Reassemble(s, 0, maxPacket, maxMessage, NOTHING)
        decreases |s| - p
      {
        var h :- ReadHeader(maxPacket, maxMessage, s, p, a);
        a :- ReadBody(maxPacket, maxMessage, a, h, s, p);
        p := p + h.length;
        if EndOfMessage(h.status) {
          return Ok(Finish(a));
        }
        if |a.packets| > MAX_PACKETS {
          return Err(PacketLimit);
        }
      }
    }
  }

  lemma HeaderFields(s: Octets, p: nat)
    requires p + HEADER_LEN <= |s|
    ensures
      var header := s[p..p + HEADER_LEN];
      header[4..8] == s[p + 4..p + 8] && header[1] == s[p + 1] && header[0] == s[p]
  {
  }

  /**
   Login-only encryption: exactly the first packet is taken from the decrypted
   stream, and reading goes on as if it had come in front of the plaintext.
   */
  method FinishLoginOnly(tls: PrefixedIo, plain: Wire, maxPacket: nat) returns (r: Result<PrefixedIo, Error>)
    requires tls.Valid()
    modifies tls`position, tls.inner`incoming, tls.inner`stalls
    ensures tls.Valid()
    ensures r.Ok? ==>
              var n := |r.value.prefix|;
              && LoginPacket(old(tls.Contents()), n, maxPacket)
              && r.value.prefix == old(tls.Contents())[..n] && tls.Contents() == old(tls.Contents())[n..]
    ensures r.Ok? ==>
              fresh(r.value) && r.value.inner == plain && r.value.Valid() &&
              r.value.Contents() == r.value.prefix + plain.incoming
    ensures r.Err? && r.error != Error.Transport ==> forall n :: !LoginPacket(old(tls.Contents()), n, maxPacket)
  {
    ghost var s := tls.Contents();
    assert s[0..] == s;
    var header :- tls.ReadAt(s, 0, HEADER_LEN);
    assert header == s[..8] && header[0] == s[0];
    var h :- Decode(header, maxPacket);
    if !Authenticates(h.packetType) {
      return Err(NotAuthentication);
    }
    var body :- tls.ReadAt(s, HEADER_LEN, h.length - HEADER_LEN);
    assert header + body == s[..h.length];
    var io := new PrefixedIo(header + body, plain);
    r := Ok(io);
  }

  /** A byte sink: a write either completes or fails having taken some of its bytes. */
  class Sink {
    var bytes: Octets

    constructor ()
      ensures bytes == []
    {
      bytes := [];
    }

    method WriteAll(more: Octets) returns (ok: bool)
      modifies this
      ensures ok ==> bytes == old(bytes) + more
      ensures !ok ==> old(bytes) <= bytes <= old(bytes) + more
    {
      ok := *;
      if ok {
        bytes := bytes + more;
      } else {
        var n :| 0 <= n <= |more|;
        bytes := bytes + more[..n];
      }
    }

    method WritePacket(h: Header, body: Octets) returns (ok: bool)
      requires Fields(h)
      modifies this
      ensures ok ==> bytes == old(bytes) + Encode(h) + body
    {
      hide Encode;
      ok := WriteAll(Encode(h));
      if ok {
        ok := WriteAll(body);
      }
    }
  }

  method WriteMessage(sink: Sink, packetType: byte, payload: Octets, packetSize: nat) returns (r: Result<nat, Error>)
    modifies sink
    ensures r == Err(BadPacketSize) <==> !(HEADER_LEN < packetSize <= U16_MAX)
    ensures r == Err(BadPacketSize) ==> sink.bytes == old(sink.bytes)
    ensures r.Ok? ==>
              var wire := Split(packetType, payload, packetSize - HEADER_LEN, 0, 1);
              sink.bytes == old(sink.bytes) + wire && r.value == |wire|
    ensures r.Err? ==> r.error in {BadPacketSize, Error.Transport}
  {
    if packetSize <= HEADER_LEN || packetSize > U16_MAX {
      return Err(BadPacketSize);
    }
    hide Encode, Split, NextId;
    var capacity := packetSize - HEADER_LEN;
    ghost var all := sink.bytes + Split(packetType, payload, capacity, 0, 1);
    var id: byte := 1;
    var offset: nat := 0;
    var written: nat := 0;
    while true
      invariant 0 <= offset <= |payload|
      invariant all == sink.bytes + Split(packetType, payload, capacity, offset, id)
      invariant |sink.bytes| == |old(sink.bytes)| + written
      decreases |payload| - offset
    {
      var h := PartHeader(packetType, payload, capacity, offset, id);
      var end := offset + h.length - HEADER_LEN;
      OnePacketMore(all, sink.bytes, packetType, payload, capacity, offset, id);
      var ok := sink.WritePacket(h, payload[offset..end]);
      if !ok {
        return Err(Error.Transport);
      }
      written := written + h.length;
      if end == |payload| {
        return Ok(written);
      }
      offset := end;
      id := NextId(id);
    }
  }

  /** What has been sent, the next packet, and what is left after it. */
  lemma OnePacketMore(
    all: Octets, sent: Octets, packetType: byte, payload: Octets, capacity: nat, offset: nat, id: byte)
    requires 0 < capacity <= U16_MAX - HEADER_LEN && offset <= |payload|
    requires all == sent + Split(packetType, payload, capacity, offset, id)
    ensures
      var h := PartHeader(packetType, payload, capacity, offset, id);
      var end := offset + h.length - HEADER_LEN;
      var next := sent + Encode(h) + payload[offset..end];
      && (end == |payload| ==> all == next)
      && (end < |payload| ==> all == next + Split(packetType, payload, capacity, end, NextId(id)))
  {
    hide Split, Encode, NextId;
    var h := PartHeader(packetType, payload, capacity, offset, id);
    var end := offset + h.length - HEADER_LEN;
    SplitUnfolds(packetType, payload, capacity, offset, id);
    Sent(sent, Encode(h), payload[offset..end],
         if end == |payload| then [] else Split(packetType, payload, capacity, end, NextId(id)));
  }

  lemma Sent(sent: Octets, a: Octets, b: Octets, rest: Octets)
    ensures sent + (a + b + rest) == sent + a + b + rest
    ensures rest == [] ==> sent + (a + b + rest) == sent + a + b
  {
    ConcatAssoc(sent, a + b, rest);
    ConcatAssoc(sent, a, b);
    assert rest == [] ==> sent + a + b + rest == sent + a + b;
  }
}
