/**
 The BER/DER walk over SSPI tokens: tags and lengths of section 8.1 of ITU-T
 X.690, definite and indefinite, and the object identifiers and texts met on the way.
 */
module Ber {
  import opened Bytes
  import opened DerText

  const MAX_DEPTH := 32
  const MAX_NODES := 4096

  datatype Error =
    | TooDeep | TooManyNodes | TruncatedTag | TruncatedHighTag | TagTooLong
    | TruncatedLength | IndefinitePrimitive | Unterminated | LengthTooLarge
    | TruncatedLongLength | TruncatedValue | EmptyOid | OidOverflow | TruncatedOid
    | TrailingBytes | NotOneOid

  /** An object identifier is its list of arcs. */
  type Oid = seq<nat>

  datatype Inventory = Inventory(oids: seq<Oid>, texts: seq<Text>, nodes: nat, indefinite: nat)

  datatype Walked = Walked(inventory: Inventory, end: Result<nat, Error>)

  // ----- Object identifiers -----

  /** The base-128 numbers from `i` on, `value` being the one already begun. */
  function Arcs(s: Octets, i: nat, value: nat, continued: bool): Result<Oid, Error>
    requires i <= |s|
    decreases |s| - i
  {
    if i == |s| then
      if continued then Err(TruncatedOid) else Ok([])
    else
      var next := value * 128 + s[i] % 128;
      if value * 128 > U64_MAX || next > U64_MAX then Err(OidOverflow)
      else if s[i] >= 128 then Arcs(s, i + 1, next, true)
      else
        var rest :- Arcs(s, i + 1, 0, false);
        Ok([next] + rest)
  }

  /** The first number holds two arcs. */
  function SplitFirst(arcs: Oid): Oid
    requires arcs != []
  {
    var first := Min(arcs[0], 80) / 40;
    [first, arcs[0] - first * 40] + arcs[1..]
  }

  function DecodeOid(s: Octets): Result<Oid, Error> {
    if s == [] then Err(EmptyOid) else
    var arcs :- Arcs(s, 0, 0, false);
    if arcs == [] then Err(TruncatedOid) else Ok(SplitFirst(arcs))
  }

  method DecodeOidBytes(input: Octets) returns (r: Result<Oid, Error>)
    ensures r == DecodeOid(input)
  {
    if input == [] {
      return Err(EmptyOid);
    }
    var arcs: Oid, value: nat, continued := [], 0, false;
    ghost var all := Arcs(input, 0, 0, false);
    assert all.Ok? ==> [] + all.value == all.value;
    for i := 0 to |input|
      invariant
        match Arcs(input, i, value, continued)
        case Err(error) => all == Err(error)
        case Ok(rest) => all == Ok(arcs + rest)
    {
      if value * 128 > U64_MAX || value * 128 + input[i] % 128 > U64_MAX {
        return Err(OidOverflow);
      }
      value := value * 128 + input[i] % 128;
      continued := input[i] >= 128;
      if !continued {
        ghost var rest := Arcs(input, i + 1, 0, false);
        if rest.Ok? {
          ConcatAssoc(arcs, [value], rest.value);
        }
        arcs := arcs + [value];
        value := 0;
      }
    }
    assert arcs + [] == arcs;
    if continued || arcs == [] {
      return Err(TruncatedOid);
    }
    r := Ok(SplitFirst(arcs));
  }

  // ----- Tags and lengths -----

  datatype Length = Definite(octets: nat) | Indefinite

  /** The position behind a high tag number that began at `p`, read up to `q`. */
  function HighTag(s: Octets, p: nat, q: nat, hi: nat): (r: Result<nat, Error>)
    requires p < q <= hi <= |s|
    ensures r.Ok? ==> q < r.value <= hi
    decreases hi - q
  {
    if q == hi then Err(TruncatedHighTag)
    else if s[q] < 128 then Ok(q + 1)
    else if q + 1 - p > 8 then Err(TagTooLong)
    else HighTag(s, p, q + 1, hi)
  }

  function TagEnd(s: Octets, p: nat, hi: nat): (r: Result<nat, Error>)
    requires p < hi <= |s|
    ensures r.Ok? ==> p < r.value <= hi
  {
    if s[p] % 32 == 31 then HighTag(s, p, p + 1, hi) else Ok(p + 1)
  }

  function BigEndian(s: Octets): nat {
    if s == [] then 0 else BigEndian(s[..|s| - 1]) * 256 + s[|s| - 1]
  }

  function ReadLength(s: Octets, p: nat, hi: nat): (r: Result<(Length, nat), Error>)
    requires p <= hi <= |s|
    ensures r.Ok? ==> p < r.value.1 <= hi
  {
    if p == hi then Err(TruncatedLength)
    else if s[p] < 128 then Ok((Definite(s[p]), p + 1))
    else
      var octets := s[p] - 128;
      if octets == 0 then Ok((Indefinite, p + 1))
      else if octets > 4 then Err(LengthTooLarge)
      else if p + 1 + octets > hi then Err(TruncatedLongLength)
      else Ok((Definite(BigEndian(s[p + 1..p + 1 + octets])), p + 1 + octets))
  }

  // ----- The walk -----

  predicate Constructed(first: byte) {
    Bit(first, 32)
  }

  function Remember(inventory: Inventory, oid: Oid): Inventory {
    if oid in inventory.oids then inventory else inventory.(oids := inventory.oids + [oid])
  }

  function RememberText(inventory: Inventory, text: Option<Text>): Inventory {
    if text.None? || text.value in inventory.texts then inventory
    else inventory.(texts := inventory.texts + [text.value])
  }

  /** What a definite value adds before its children are visited. */
  function Note(first: byte, value: Octets, inventory: Inventory): Result<Inventory, Error> {
    if first != 0x06 then Ok(RememberText(inventory, TextOf(first, value))) else
    var oid :- DecodeOid(value);
    Ok(Remember(inventory, oid))
  }

  /** One element of `s[p..hi]`: the inventory afterwards and the position behind the element. */
  function Walk(s: Octets, p: nat, hi: nat, depth: nat, before: Inventory): (w: Walked)
    requires p <= hi <= |s|
    ensures w.end.Ok? ==> p + 2 <= w.end.value <= hi
    decreases hi - p, 1
  {
    if depth > MAX_DEPTH then Walked(before, Err(TooDeep)) else
    var inventory := before.(nodes := before.nodes + 1);
    if inventory.nodes > MAX_NODES then Walked(inventory, Err(TooManyNodes))
    else if p == hi then Walked(inventory, Err(TruncatedTag))
    else match TagEnd(s, p, hi)
      case Err(error) => Walked(inventory, Err(error))
      case Ok(q) =>
        match ReadLength(s, q, hi)
        case Err(error) => Walked(inventory, Err(error))
        case Ok((Indefinite, body)) =>
          if !Constructed(s[p]) then Walked(inventory, Err(IndefinitePrimitive))
          else UntilMarker(s, body, hi, depth, inventory.(indefinite := inventory.indefinite + 1))
        case Ok((Definite(n), body)) =>
          if body + n > hi then Walked(inventory, Err(TruncatedValue))
          else Contents(s, p, body, body + n, depth, inventory)
  }

  function Contents(s: Octets, p: nat, body: nat, end: nat, depth: nat, inventory: Inventory): (w: Walked)
    requires p < body <= end <= |s|
    ensures w.end.Ok? ==> w.end.value == end
    decreases end - p, 0
  {
    match Note(s[p], s[body..end], inventory)
    case Err(error) => Walked(inventory, Err(error))
    case Ok(noted) => if Constructed(s[p]) then Children(s, body, end, depth, noted) else Walked(noted, Ok(end))
  }

  /** Elements that fill `s[p..hi]`. */
  function Children(s: Octets, p: nat, hi: nat, depth: nat, inventory: Inventory): (w: Walked)
    requires p <= hi <= |s|
    ensures w.end.Ok? ==> w.end.value == hi
    decreases hi - p, 2
  {
    if p == hi then Walked(inventory, Ok(p)) else
    var child := Walk(s, p, hi, depth + 1, inventory);
    if child.end.Err? then child else Children(s, child.end.value, hi, depth, child.inventory)
  }

  /** Elements up to the end-of-contents octets. */
  function UntilMarker(s: Octets, p: nat, hi: nat, depth: nat, inventory: Inventory): (w: Walked)
    requires p <= hi <= |s|
    ensures w.end.Ok? ==> p + 2 <= w.end.value <= hi
    decreases hi - p, 2
  {
    if p + 2 > hi then Walked(inventory, Err(Unterminated))
    else if s[p] == 0 && s[p + 1] == 0 then Walked(inventory, Ok(p + 2))
    else
      var child := Walk(s, p, hi, depth + 1, inventory);
      if child.end.Err? then child else UntilMarker(s, child.end.value, hi, depth, child.inventory)
  }

  /** The inventory a walk fills in, element by element. */
  class DerInventory {
    var oids: seq<Oid>
    var texts: seq<Text>
    var nodes: nat
    var indefinite: nat

    constructor ()
      ensures Value() == Inventory([], [], 0, 0)
    {
      oids, texts, nodes, indefinite := [], [], 0, 0;
    }

    function Value(): Inventory
      reads this
    {
      Inventory(oids, texts, nodes, indefinite)
    }

    method WalkDer(s: Octets, p: nat, hi: nat, depth: nat) returns (end: Result<nat, Error>)
      requires p <= hi <= |s|
      modifies this
      ensures Walked(Value(), end) == Walk(s, p, hi, depth, old(Value()))
      decreases hi - p, 1
    {
      hide Children, UntilMarker, Note;
      if depth > MAX_DEPTH {
        return Err(TooDeep);
      }
      nodes := nodes + 1;
      if nodes > MAX_NODES {
        return Err(TooManyNodes);
      }
      if p == hi {
        return Err(TruncatedTag);
      }
      var q :- TagEnd(s, p, hi);
      var read :- ReadLength(s, q, hi);
      var (length, body) := read;
      if length.Indefinite? {
        if !Constructed(s[p]) {
          return Err(IndefinitePrimitive);
        }
        indefinite := indefinite + 1;
        end := WalkUntilMarker(s, body, hi, depth);
        return;
      }
      if body + length.octets > hi {
        return Err(TruncatedValue);
      }
      end := WalkValue(s, p, body, body + length.octets, depth);
    }

    method WalkUntilMarker(s: Octets, p: nat, hi: nat, depth: nat) returns (end: Result<nat, Error>)
      requires p <= hi <= |s|
      modifies this
      ensures Walked(Value(), end) == UntilMarker(s, p, hi, depth, old(Value()))
      decreases hi - p, 2
    {
      hide Walk;
      var position: nat := p;
      while true
        invariant p <= position <= hi
        invariant UntilMarker(s, position, hi, depth, Value()) == UntilMarker(s, p, hi, depth, old(Value()))
        decreases hi - position
      {
        if position + 2 > hi {
          return Err(Unterminated);
        }
        if s[position] == 0 && s[position + 1] == 0 {
          return Ok(position + 2);
        }
        position :- WalkDer(s, position, hi, depth + 1);
      }
    }

    method WalkValue(s: Octets, p: nat, body: nat, limit: nat, depth: nat) returns (end: Result<nat, Error>)
      requires p < body <= limit <= |s|
      modifies this
      ensures Walked(Value(), end) == Contents(s, p, body, limit, depth, old(Value()))
      decreases limit - p, 0
    {
      hide Walk;
      if s[p] == 0x06 {
        var oid :- DecodeOidBytes(s[body..limit]);
        if oid !in oids {
          oids := oids + [oid];
        }
      } else {
        var text := TextOf(s[p], s[body..limit]);
        if text.Some? && text.value !in texts {
          texts := texts + [text.value];
        }
      }
      if Constructed(s[p]) {
        var position: nat := body;
        ghost var noted := Value();
        while position < limit
          invariant body <= position <= limit
          invariant Children(s, position, limit, depth, Value()) == Children(s, body, limit, depth, noted)
        {
          position :- WalkDer(s, position, limit, depth + 1);
        }
      }
      end := Ok(limit);
    }
  }

  const EMPTY := Inventory([], [], 0, 0)

  /** A whole token: complete when one element fills it, otherwise kept with a warning. */
  method RecoverDerInventory(input: Octets) returns (inventory: Inventory, warning: Option<Error>)
    ensures inventory == Walk(input, 0, |input|, 0, EMPTY).inventory
    ensures warning ==
            match Walk(input, 0, |input|, 0, EMPTY).end
            case Ok(end) => if end == |input| then None else Some(TrailingBytes)
            case Err(error) => Some(error)
  {
    var found := new DerInventory();
    var end := found.WalkDer(input, 0, |input|, 0);
    inventory := found.Value();
    warning := if end.Err? then Some(end.error) else if end.value == |input| then None else Some(TrailingBytes);
  }

  method DecodeDerOidTlv(input: Octets) returns (r: Result<Oid, Error>)
    ensures r.Ok? <==>
              var w := Walk(input, 0, |input|, 0, EMPTY);
              w.end == Ok(|input|) && w.inventory.nodes == 1 && |w.inventory.oids| == 1
    ensures r.Ok? ==> Walk(input, 0, |input|, 0, EMPTY).inventory.oids == [r.value]
  {
    var found := new DerInventory();
    var end :- found.WalkDer(input, 0, |input|, 0);
    if end != |input| || found.nodes != 1 || |found.oids| != 1 {
      return Err(NotOneOid);
    }
    r := Ok(found.oids[0]);
  }
}
