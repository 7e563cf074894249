/** The per-address request limiter: fixed windows of a minute, forgotten after two. Time counts nanoseconds. */
module RateLimiter {

  type Ip = nat

  const MINUTE: nat := 60_000_000_000

  datatype Window = Window(since: nat, count: nat)

  type Windows = map<Ip, Window>

  datatype Call = Call(ip: Ip, now: nat)

  /** One call against the windows it finds. */
  function Decide(limit: nat, windows: Windows, call: Call): (Windows, bool) {
    var found := if call.ip in windows then windows[call.ip] else Window(call.now, 0);
    var window := if call.now - found.since >= MINUTE then Window(call.now, 0) else found;
    if window.count >= limit then (windows[call.ip := window], false)
    else (windows[call.ip := Window(window.since, window.count + 1)], true)
  }

  function Prune(windows: Windows, now: nat): Windows {
    map ip | ip in windows && now - windows[ip].since < 2 * MINUTE :: windows[ip]
  }

  /** What the limiter does: prune first, then decide. */
  function Step(limit: nat, windows: Windows, call: Call): (Windows, bool) {
    Decide(limit, Prune(windows, call.now), call)
  }

  class Limiter {
    const limit: nat
    var windows: Windows

    constructor (limit: nat)
      ensures this.limit == limit && windows == map[]
    {
      this.limit, windows := limit, map[];
    }

    method AllowRequest(ip: Ip, now: nat) returns (allowed: bool)
      modifies this
      ensures (windows, allowed) == Step(limit, old(windows), Call(ip, now))
    {
      windows := map k | k in windows && now - windows[k].since < 2 * MINUTE :: windows[k];
      if ip !in windows {
        windows := windows[ip := Window(now, 0)];
      }
      if now - windows[ip].since >= MINUTE {
        windows := windows[ip := Window(now, 0)];
      }
      if windows[ip].count >= limit {
        assert windows == Prune(old(windows), now)[ip := windows[ip]];
        return false;
      }
      windows := windows[ip := Window(windows[ip].since, windows[ip].count + 1)];
      assert windows == Prune(old(windows), now)[ip := windows[ip]];
      return true;
    }
  }

  // ----- Runs -----

  function Run(limit: nat, windows: Windows, calls: seq<Call>): (Windows, seq<bool>) {
    if calls == [] then (windows, []) else
    var (before, decisions) := Run(limit, windows, calls[..|calls| - 1]);
    var (after, allowed) := Step(limit, before, calls[|calls| - 1]);
    (after, decisions + [allowed])
  }

  /** The same without ever forgetting a window. */
  function RunKeeping(limit: nat, windows: Windows, calls: seq<Call>): (Windows, seq<bool>) {
    if calls == [] then (windows, []) else
    var (before, decisions) := RunKeeping(limit, windows, calls[..|calls| - 1]);
    var (after, allowed) := Decide(limit, before, calls[|calls| - 1]);
    (after, decisions + [allowed])
  }

  predicate Monotone(calls: seq<Call>) {
    forall i, j | 0 <= i <= j < |calls| :: calls[i].now <= calls[j].now
  }

  function Last(calls: seq<Call>): nat {
    if calls == [] then 0 else calls[|calls| - 1].now
  }

  // ----- Pruning is invisible -----

  /** What was forgotten had expired. */
  ghost predicate Matches(pruned: Windows, kept: Windows, now: nat) {
    && (forall ip | ip in pruned :: ip in kept && pruned[ip] == kept[ip])
    && (forall ip | ip in kept :: kept[ip].since <= now && (ip !in pruned ==> now - kept[ip].since >= MINUTE))
  }

  lemma StepMatches(limit: nat, pruned: Windows, kept: Windows, before: nat, call: Call)
    requires Matches(pruned, kept, before) && before <= call.now
    ensures Step(limit, pruned, call).1 == Decide(limit, kept, call).1
    ensures Matches(Step(limit, pruned, call).0, Decide(limit, kept, call).0, call.now)
  {
  }

  /** With monotone time, forgetting old windows changes no decision. */
  lemma {:induction false} PruningIsInvisible(limit: nat, calls: seq<Call>)
    requires Monotone(calls)
    ensures Run(limit, map[], calls).1 == RunKeeping(limit, map[], calls).1
    ensures Matches(Run(limit, map[], calls).0, RunKeeping(limit, map[], calls).0, Last(calls))
  {
    if calls != [] {
      var front := calls[..|calls| - 1];
      PruningIsInvisible(limit, front);
      StepMatches(limit, Run(limit, map[], front).0, RunKeeping(limit, map[], front).0, Last(front), calls[|calls| - 1]);
    }
  }

  // ----- The bound -----

  /** Calls of `ip` admitted from `from` on and before `from` plus a minute. */
  function Admitted(calls: seq<Call>, decisions: seq<bool>, ip: Ip, from: nat): nat
    requires |calls| == |decisions|
  {
    if calls == [] then 0 else
    var n := |calls| - 1;
    Admitted(calls[..n], decisions[..n], ip, from) +
    if calls[n].ip == ip && decisions[n] && from <= calls[n].now < from + MINUTE then 1 else 0
  }

  lemma {:induction false} RunLength(limit: nat, calls: seq<Call>)
    ensures |Run(limit, map[], calls).1| == |calls| == |RunKeeping(limit, map[], calls).1|
  {
    if calls != [] {
      RunLength(limit, calls[..|calls| - 1]);
    }
  }

  /** The same for the limiter's own run. */
  function AdmittedBy(limit: nat, calls: seq<Call>, ip: Ip, from: nat): nat {
    RunLength(limit, calls);
    Admitted(calls, Run(limit, map[], calls).1, ip, from)
  }

  /** How much of the interval's allowance an address's current window accounts for. */
  ghost predicate Bounded(limit: nat, windows: Windows, ip: Ip, from: nat, last: nat, admitted: nat) {
    && (last < from ==> admitted == 0)
    && (ip !in windows ==> admitted == 0)
    && (ip in windows ==>
          var w := windows[ip];
          && w.since <= last && 1 <= w.count <= limit
          && (w.since < from ==> admitted + 1 <= w.count)
          && (from <= w.since < from + MINUTE ==> admitted + 1 <= w.count + limit)
          && admitted + 1 <= 2 * limit)
  }

  lemma DecideBounded(limit: nat, windows: Windows, ip: Ip, from: nat, last: nat, admitted: nat, call: Call)
    requires limit >= 1 && Bounded(limit, windows, ip, from, last, admitted) && last <= call.now
    ensures
      var (after, allowed) := Decide(limit, windows, call);
      var counts := call.ip == ip && allowed && from <= call.now < from + MINUTE;
      Bounded(limit, after, ip, from, call.now, admitted + if counts then 1 else 0)
  {
  }

  lemma {:induction false} KeepingBounded(limit: nat, calls: seq<Call>, ip: Ip, from: nat)
    requires limit >= 1 && Monotone(calls)
    ensures |RunKeeping(limit, map[], calls).1| == |calls|
    ensures
      var (windows, decisions) := RunKeeping(limit, map[], calls);
      Bounded(limit, windows, ip, from, Last(calls), Admitted(calls, decisions, ip, from))
  {
    RunLength(limit, calls);
    if calls != [] {
      var n := |calls| - 1;
      KeepingBounded(limit, calls[..n], ip, from);
      var (windows, decisions) := RunKeeping(limit, map[], calls[..n]);
      DecideBounded(limit, windows, ip, from, Last(calls[..n]), Admitted(calls[..n], decisions, ip, from), calls[n]);
      assert RunKeeping(limit, map[], calls).1[..n] == decisions;
    }
  }

  /** Any half-open minute admits fewer than twice the limit for one address; with limit zero, nothing. */
  lemma MinuteBound(limit: nat, calls: seq<Call>, ip: Ip, from: nat)
    requires Monotone(calls)
    ensures AdmittedBy(limit, calls, ip, from) <= if limit == 0 then 0 else 2 * limit - 1
  {
    RunLength(limit, calls);
    if limit == 0 {
      NothingAdmitted(calls, ip, from);
    } else {
      PruningIsInvisible(limit, calls);
      KeepingBounded(limit, calls, ip, from);
    }
  }

  lemma {:induction false} NothingAdmitted(calls: seq<Call>, ip: Ip, from: nat)
    ensures |Run(0, map[], calls).1| == |calls| && Admitted(calls, Run(0, map[], calls).1, ip, from) == 0
  {
    if calls != [] {
      var n := |calls| - 1;
      NothingAdmitted(calls[..n], ip, from);
      assert Run(0, map[], calls).1[..n] == Run(0, map[], calls[..n]).1;
    }
  }

  // ----- The bound is attained -----

  function Repeat(ip: Ip, now: nat, n: nat): (calls: seq<Call>)
    ensures |calls| == n
  {
    seq(n, _ => Call(ip, now))
  }

  /** One call, the rest of the window's allowance a nanosecond before its end, and a new window's allowance at its end. */
  function Burst(limit: nat, ip: Ip): seq<Call>
    requires limit >= 1
  {
    [Call(ip, 0)] + Repeat(ip, MINUTE - 1, limit - 1) + Repeat(ip, MINUTE, limit)
  }

  lemma OneMoreCall(limit: nat, calls: seq<Call>, call: Call, ip: Ip, from: nat)
    ensures
      var (after, allowed) := Step(limit, Run(limit, map[], calls).0, call);
      var counts := call.ip == ip && allowed && from <= call.now < from + MINUTE;
      && Run(limit, map[], calls + [call]).0 == after
      && AdmittedBy(limit, calls + [call], ip, from) == AdmittedBy(limit, calls, ip, from) + if counts then 1 else 0
  {
    hide Step;
    var all := calls + [call];
    RunLength(limit, calls);
    RunLength(limit, all);
    assert all[..|all| - 1] == calls;
    assert Run(limit, map[], all).1[..|calls|] == Run(limit, map[], calls).1;
  }

  /** Calls within the window's remaining allowance are all admitted. */
  lemma {:induction false} RepeatAdmits(limit: nat, calls: seq<Call>, ip: Ip, now: nat, n: nat, from: nat)
    requires
      var windows := Run(limit, map[], calls).0;
      ip in windows && 0 <= now - windows[ip].since < MINUTE && windows[ip].count + n <= limit
    ensures
      var windows, all := Run(limit, map[], calls).0, calls + Repeat(ip, now, n);
      && ip in Run(limit, map[], all).0
      && Run(limit, map[], all).0[ip] == Window(windows[ip].since, windows[ip].count + n)
      && AdmittedBy(limit, all, ip, from) ==
         AdmittedBy(limit, calls, ip, from) + if from <= now < from + MINUTE then n else 0
    decreases n
  {
    hide Run, AdmittedBy;
    if n == 0 {
      assert calls + Repeat(ip, now, n) == calls;
    } else {
      RepeatAdmits(limit, calls, ip, now, n - 1, from);
      OneMoreCall(limit, calls + Repeat(ip, now, n - 1), Call(ip, now), ip, from);
      assert calls + Repeat(ip, now, n) == calls + Repeat(ip, now, n - 1) + [Call(ip, now)];
    }
  }

  /** The minute that starts a nanosecond before a window ends can admit one less than twice the limit. */
  lemma BoundIsSharp(limit: nat, ip: Ip)
    requires limit >= 1
    ensures Monotone(Burst(limit, ip))
    ensures AdmittedBy(limit, Burst(limit, ip), ip, MINUTE - 1) == 2 * limit - 1
  {
    hide Run, AdmittedBy;
    var from := MINUTE - 1;
    NoCalls(limit, ip, from);
    OneMoreCall(limit, [], Call(ip, 0), ip, from);
    assert [] + [Call(ip, 0)] == [Call(ip, 0)];
    var late := [Call(ip, 0)] + Repeat(ip, MINUTE - 1, limit - 1);
    RepeatAdmits(limit, [Call(ip, 0)], ip, MINUTE - 1, limit - 1, from);
    OneMoreCall(limit, late, Call(ip, MINUTE), ip, from);
    RepeatAdmits(limit, late + [Call(ip, MINUTE)], ip, MINUTE, limit - 1, from);
    assert Burst(limit, ip) == late + [Call(ip, MINUTE)] + Repeat(ip, MINUTE, limit - 1);
  }

  lemma NoCalls(limit: nat, ip: Ip, from: nat)
    ensures Run(limit, map[], []).0 == map[] && AdmittedBy(limit, [], ip, from) == 0
  {
  }

  /** Every minute of every run admits at most the limit for every address. */
  ghost predicate KeepsLimit(limit: nat) {
    forall calls, ip, from: nat | Monotone(calls) :: AdmittedBy(limit, calls, ip, from) <= limit
  }

  /** Read as a bound on any minute, and not on the limiter's own windows, the limit is kept exactly if it is at most one. */
  lemma LimitKept(limit: nat)
    ensures KeepsLimit(limit) <==> limit <= 1
  {
    hide AdmittedBy, Monotone;
    if limit <= 1 {
      forall calls, ip, from: nat | Monotone(calls) ensures AdmittedBy(limit, calls, ip, from) <= limit {
        MinuteBound(limit, calls, ip, from);
      }
    } else {
      BoundIsSharp(limit, 0);
      assert AdmittedBy(limit, Burst(limit, 0), 0, MINUTE - 1) > limit;
    }
  }
}
