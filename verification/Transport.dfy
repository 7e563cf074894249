/** A byte transport below the protocol: every poll may be pending, may fail, or may move part of what was asked. */
module Transport {
  import opened Bytes

  datatype IoError = Broken | UnexpectedEof | InvalidData | WriteZero

  datatype Poll<T> = Pending | Failed(error: IoError) | Ready(value: T)

  /** Any transport: `incoming` is all it will ever deliver, `outgoing` all it has taken.
   Reads are pending as often as the schedule says, any finite number of times. */
  class Wire {
    var incoming: Octets
    var outgoing: Octets
    var stalls: nat

    constructor (incoming: Octets, stalls: nat)
      ensures this.incoming == incoming && outgoing == [] && this.stalls == stalls
    {
      this.incoming, outgoing, this.stalls := incoming, [], stalls;
    }

    method PollRead(capacity: nat) returns (r: Poll<Octets>)
      modifies this`incoming, this`stalls
      ensures !r.Ready? ==> incoming == old(incoming)
      ensures if r.Pending? then stalls < old(stalls) else stalls == old(stalls)
      ensures r.Failed? ==> r.error == Broken
      ensures r.Ready? ==> |r.value| <= capacity && r.value + incoming == old(incoming)
      ensures r == Ready([]) && capacity > 0 ==> incoming == []
    {
      var stall: bool, fail: bool := *, *;
      if stalls > 0 && stall {
        stalls := stalls - 1;
        return Pending;
      } else if fail {
        return Failed(Broken);
      }
      var n: nat :| n <= capacity && n <= |incoming| && (n == 0 ==> capacity == 0 || incoming == []);
      r := Ready(incoming[..n]);
      incoming := incoming[n..];
    }

    method PollWrite(bytes: Octets) returns (r: Poll<nat>)
      modifies this`outgoing
      ensures !r.Ready? ==> outgoing == old(outgoing)
      ensures r.Failed? ==> r.error == Broken
      ensures r.Ready? ==> r.value <= |bytes| && outgoing == old(outgoing) + bytes[..r.value]
    {
      if * {
        return Pending;
      } else if * {
        return Failed(Broken);
      }
      var n: nat :| n <= |bytes|;
      outgoing := outgoing + bytes[..n];
      r := Ready(n);
    }

    method PollFlush() returns (r: Poll<()>)
      ensures r.Failed? ==> r.error == Broken
    {
      if * {
        return Pending;
      } else if * {
        return Failed(Broken);
      }
      r := Ready(());
    }
  }
}
