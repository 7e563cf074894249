/** Octets, wire integers and the two failure types shared by every codec. */
module Bytes {

  type byte = b: int | 0 <= b < 256

  type Octets = seq<byte>

  datatype Option<+T> = None | Some(value: T)

  datatype Result<+T, +E> = Ok(value: T) | Err(error: E) {
    predicate IsFailure() {
      Err?
    }

    function PropagateFailure<U>(): Result<U, E>
      requires Err?
    {
      Err(error)
    }

    function Extract(): T
      requires Ok?
    {
      value
    }
  }

  const U16_MAX: nat := 0xFFFF
  const U32_MAX: nat := 0xFFFF_FFFF
  const U64_MAX: nat := 0xFFFF_FFFF_FFFF_FFFF

  function Min(a: nat, b: nat): nat {
    if a <= b then a else b
  }

  function U16Le(n: nat): (s: Octets)
    requires n <= U16_MAX
    ensures |s| == 2
  {
    [n % 256, n / 256]
  }

  function U16Be(n: nat): (s: Octets)
    requires n <= U16_MAX
    ensures |s| == 2
  {
    [n / 256, n % 256]
  }

  function U32Le(n: nat): (s: Octets)
    requires n <= U32_MAX
    ensures |s| == 4
  {
    U16Le(n % 0x1_0000) + U16Le(n / 0x1_0000)
  }

  function U64Le(n: nat): (s: Octets)
    requires n <= U64_MAX
    ensures |s| == 8
  {
    U32Le(n % 0x1_0000_0000) + U32Le(n / 0x1_0000_0000)
  }

  function FromU16Le(s: Octets): (n: nat)
    requires |s| == 2
    ensures n <= U16_MAX
  {
    s[0] as int + 256 * (s[1] as int)
  }

  function FromU16Be(s: Octets): (n: nat)
    requires |s| == 2
    ensures n <= U16_MAX
  {
    256 * (s[0] as int) + s[1] as int
  }

  function FromU32Le(s: Octets): (n: nat)
    requires |s| == 4
    ensures n <= U32_MAX
  {
    FromU16Le(s[..2]) + 0x1_0000 * FromU16Le(s[2..])
  }

  function FromU64Le(s: Octets): (n: nat)
    requires |s| == 8
    ensures n <= U64_MAX
  {
    FromU32Le(s[..4]) + 0x1_0000_0000 * FromU32Le(s[4..])
  }

  lemma U32LeRoundTrip(n: nat)
    requires n <= U32_MAX
    ensures FromU32Le(U32Le(n)) == n
  {
    var s := U32Le(n);
    assert s[..2] == U16Le(n % 0x1_0000) && s[2..] == U16Le(n / 0x1_0000);
  }

  lemma FromToU16(s: Octets)
    requires |s| == 2
    ensures U16Le(FromU16Le(s)) == s
  {
    assert s == [s[0], s[1]];
  }

  lemma FromToU32(s: Octets)
    requires |s| == 4
    ensures U32Le(FromU32Le(s)) == s
  {
    hide U16Le, FromU16Le;
    var low, high := FromU16Le(s[..2]), FromU16Le(s[2..]);
    FromToU16(s[..2]);
    FromToU16(s[2..]);
    assert (low + 0x1_0000 * high) % 0x1_0000 == low && (low + 0x1_0000 * high) / 0x1_0000 == high;
    assert s == s[..2] + s[2..];
  }

  lemma U64LeRoundTrip(n: nat)
    requires n <= U64_MAX
    ensures FromU64Le(U64Le(n)) == n
  {
    var s := U64Le(n);
    assert s[..4] == U32Le(n % 0x1_0000_0000) && s[4..] == U32Le(n / 0x1_0000_0000);
    U32LeRoundTrip(n % 0x1_0000_0000);
    U32LeRoundTrip(n / 0x1_0000_0000);
  }

  /** The bit of weight `weight` (a power of two) is set in `n`. */
  predicate Bit(n: nat, weight: nat)
    requires weight > 0
  {
    n / weight % 2 == 1
  }

  function Flatten<T>(parts: seq<seq<T>>): seq<T> {
    if parts == [] then [] else parts[0] + Flatten(parts[1..])
  }

  lemma ConcatAssoc<T>(a: seq<T>, b: seq<T>, c: seq<T>)
    ensures a + (b + c) == a + b + c
  {
  }

  lemma {:induction false} FlattenConcat<T>(a: seq<seq<T>>, b: seq<seq<T>>)
    ensures Flatten(a + b) == Flatten(a) + Flatten(b)
  {
    if a == [] {
      assert a + b == b;
    } else {
      FlattenConcat(a[1..], b);
      assert (a + b)[0] == a[0] && (a + b)[1..] == a[1..] + b;
      ConcatAssoc(a[0], Flatten(a[1..]), Flatten(b));
    }
  }

  lemma FlattenSnoc<T>(a: seq<seq<T>>, x: seq<T>)
    ensures Flatten(a + [x]) == Flatten(a) + x
  {
    FlattenConcat(a, [x]);
    assert Flatten([x]) == x + Flatten<T>([]);
  }

  function Sum(ns: seq<nat>): nat {
    if ns == [] then 0 else ns[0] + Sum(ns[1..])
  }

  lemma {:induction false} SumConcat(a: seq<nat>, b: seq<nat>)
    ensures Sum(a + b) == Sum(a) + Sum(b)
  {
    if a == [] {
      assert a + b == b;
    } else {
      SumConcat(a[1..], b);
      assert (a + b)[1..] == a[1..] + b;
    }
  }

  /** `wire` stands at position `p` of `s`. */
  predicate At(s: Octets, p: nat, wire: Octets) {
    p + |wire| <= |s| && s[p..p + |wire|] == wire
  }

  lemma AtSplit(s: Octets, p: nat, a: Octets, b: Octets)
    requires At(s, p, a + b)
    ensures At(s, p, a) && At(s, p + |a|, b)
  {
    var ab := a + b;
    assert s[p..p + |a|] == s[p..p + |ab|][..|a|];
    assert s[p + |a|..p + |ab|] == s[p..p + |ab|][|a|..];
  }

  lemma AtByte(s: Octets, p: nat, wire: Octets, k: nat)
    requires At(s, p, wire) && k < |wire|
    ensures s[p + k] == wire[k]
  {
    assert s[p + k] == s[p..p + |wire|][k];
  }

  lemma AtSlice(s: Octets, p: nat, wire: Octets)
    requires At(s, p, wire)
    ensures p + |wire| <= |s| && s[p..p + |wire|] == wire
  {
  }

  lemma AtIn(s: Octets, p: nat, wire: Octets)
    requires At(s, p, wire)
    ensures p + |wire| <= |s|
  {
  }
}
