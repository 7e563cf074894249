/** Reading from a position in the input: what was read and where it ended, or the reader's own error. */
module Reading {
  import opened Bytes

  datatype Attempt<+T, +E> = Got(value: T, next: nat) | Fail(error: E) {
    predicate IsFailure() {
      Fail?
    }

    function PropagateFailure<U>(): Attempt<U, E>
      requires Fail?
    {
      Fail(error)
    }

    function Extract(): (T, nat)
      requires Got?
    {
      (value, next)
    }

    /** A success moved forward from `p` and stayed inside `s`. */
    predicate Forward(s: Octets, p: nat) {
      Got? ==> p <= next <= |s|
    }
  }

  function Take<E>(s: Octets, p: nat, n: nat, short: E): (r: Attempt<Octets, E>)
    ensures r.Got? <==> p + n <= |s|
    ensures r.Got? ==> |r.value| == n && r.next == p + n && r.value == s[p..r.next]
  {
    if p + n <= |s| then Got(s[p..p + n], p + n) else Fail(short)
  }

  function U8<E>(s: Octets, p: nat, short: E): (r: Attempt<byte, E>)
    ensures r.Got? ==> r.next == p + 1 <= |s|
  {
    if p < |s| then Got(s[p], p + 1) else Fail(short)
  }

  function U16<E>(s: Octets, p: nat, short: E): (r: Attempt<nat, E>)
    ensures r.Got? ==> r.next == p + 2 <= |s| && r.value <= U16_MAX
  {
    if p + 2 <= |s| then Got(FromU16Le(s[p..p + 2]), p + 2) else Fail(short)
  }

  function U32<E>(s: Octets, p: nat, short: E): (r: Attempt<nat, E>)
    ensures r.Got? ==> r.next == p + 4 <= |s| && r.value <= U32_MAX
  {
    if p + 4 <= |s| then Got(FromU32Le(s[p..p + 4]), p + 4) else Fail(short)
  }

  function U64<E>(s: Octets, p: nat, short: E): (r: Attempt<nat, E>)
    ensures r.Got? ==> r.next == p + 8 <= |s| && r.value <= U64_MAX
  {
    if p + 8 <= |s| then Got(FromU64Le(s[p..p + 8]), p + 8) else Fail(short)
  }

  // ----- Reading what was written -----

  lemma U8At<E>(s: Octets, p: nat, n: byte, short: E)
    requires At(s, p, [n])
    ensures U8(s, p, short) == Got(n, p + 1)
  {
    AtByte(s, p, [n], 0);
  }

  lemma U16At<E>(s: Octets, p: nat, n: nat, short: E)
    requires n <= U16_MAX && At(s, p, U16Le(n))
    ensures U16(s, p, short) == Got(n, p + 2)
  {
  }

  lemma U32At<E>(s: Octets, p: nat, n: nat, short: E)
    requires n <= U32_MAX && At(s, p, U32Le(n))
    ensures U32(s, p, short) == Got(n, p + 4)
  {
    U32LeRoundTrip(n);
  }

  lemma U64At<E>(s: Octets, p: nat, n: nat, short: E)
    requires n <= U64_MAX && At(s, p, U64Le(n))
    ensures U64(s, p, short) == Got(n, p + 8)
  {
    U64LeRoundTrip(n);
  }
}
