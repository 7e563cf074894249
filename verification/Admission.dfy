/**
 Connection admission: the accept loop, the connection tasks, the counters, the
 global permits and the per-address guards, as steps in any interleaving.
 */
module Admission {

  type Ip = nat

  /** Where a connection stands; a panicking task skips the counters but drops what it holds. */
  datatype Stage =
    | Arrived | Permitted | Guarded
    | RejectedHolding | RejectedGone
    | Active | Ended | Finished | Unguarded | Gone
    | Panicked | PanickedUnguarded | PanickedGone

  datatype Connection = Connection(ip: Ip, stage: Stage)

  datatype Config = Config(maxConnections: nat, maxPerIp: nat)

  datatype Server = Server(
    total: nat,
    rejected: nat,
    active: nat,
    completed: nat,
    permits: nat,
    perIp: map<Ip, nat>,
    accepting: bool,
    connections: map<nat, Connection>)

  const START := Server(0, 0, 0, 0, 0, map[], false, map[])

  datatype Action =
    | Accept(id: nat, ip: Ip)
    | TryPermit(id: nat)
    | TryGuard(id: nat)
    | Spawn(id: nat)
    | ReleaseRejected(id: nat)
    | End(id: nat)
    | Complete(id: nat)
    | Panic(id: nat)
    | DropGuard(id: nat)
    | DropPermit(id: nat)

  function Move(s: Server, id: nat, stage: Stage): Server
    requires id in s.connections
  {
    s.(connections := s.connections[id := Connection(s.connections[id].ip, stage)])
  }

  function Held(perIp: map<Ip, nat>, ip: Ip): nat {
    if ip in perIp then perIp[ip] else 0
  }

  function Minus(n: nat): nat {
    if n == 0 then 0 else n - 1
  }

  function PermitStep(config: Config, s: Server, id: nat): Server
    requires id in s.connections
  {
    if s.permits < config.maxConnections then Move(s, id, Permitted).(permits := s.permits + 1)
    else Move(s, id, RejectedGone).(rejected := s.rejected + 1, accepting := false)
  }

  /** The entry is created before the limit is looked at. */
  function GuardStep(config: Config, s: Server, id: nat): Server
    requires id in s.connections
  {
    var ip := s.connections[id].ip;
    var count := Held(s.perIp, ip);
    if count >= config.maxPerIp
    then Move(s, id, RejectedHolding).(rejected := s.rejected + 1, perIp := s.perIp[ip := count])
    else Move(s, id, Guarded).(perIp := s.perIp[ip := count + 1])
  }

  /** One guard less for an address, which is forgotten at zero. */
  function Dropped(perIp: map<Ip, nat>, ip: Ip): map<Ip, nat> {
    var count := Minus(Held(perIp, ip));
    if ip !in perIp then perIp else if count == 0 then perIp - {ip} else perIp[ip := count]
  }

  function DropGuardStep(s: Server, id: nat, stage: Stage): Server
    requires id in s.connections
  {
    Move(s, id, stage).(perIp := Dropped(s.perIp, s.connections[id].ip))
  }

  predicate At(s: Server, id: nat, stage: Stage) {
    id in s.connections && s.connections[id].stage == stage
  }

  /** One step; an action whose turn it is not changes nothing. */
  function Step(config: Config, s: Server, a: Action): Server {
    match a
    case Accept(id, ip) =>
      if s.accepting || id in s.connections then s
      else s.(total := s.total + 1, accepting := true, connections := s.connections[id := Connection(ip, Arrived)])
    case TryPermit(id) => if At(s, id, Arrived) then PermitStep(config, s, id) else s
    case TryGuard(id) => if At(s, id, Permitted) then GuardStep(config, s, id) else s
    case Spawn(id) =>
      if At(s, id, Guarded) then Move(s, id, Active).(active := s.active + 1, accepting := false) else s
    case ReleaseRejected(id) =>
      if At(s, id, RejectedHolding)
      then Move(s, id, RejectedGone).(permits := Minus(s.permits), accepting := false) else s
    case End(id) => if At(s, id, Active) then Move(s, id, Ended).(active := Minus(s.active)) else s
    case Complete(id) => if At(s, id, Ended) then Move(s, id, Finished).(completed := s.completed + 1) else s
    case Panic(id) => if At(s, id, Active) then Move(s, id, Panicked) else s
    case DropGuard(id) =>
      if At(s, id, Finished) then DropGuardStep(s, id, Unguarded)
      else if At(s, id, Panicked) then DropGuardStep(s, id, PanickedUnguarded) else s
    case DropPermit(id) =>
      if At(s, id, Unguarded) then Move(s, id, Gone).(permits := Minus(s.permits))
      else if At(s, id, PanickedUnguarded) then Move(s, id, PanickedGone).(permits := Minus(s.permits)) else s
  }

  function Run(config: Config, s: Server, actions: seq<Action>): Server
    decreases |actions|
  {
    if actions == [] then s else Run(config, Step(config, s, actions[0]), actions[1..])
  }

  // ----- Counting connections -----

  type Property = Connection -> bool

  function Having(connections: map<nat, Connection>, p: Property): set<nat> {
    set id | id in connections && p(connections[id])
  }

  function Tally(connections: map<nat, Connection>, p: Property): nat {
    |Having(connections, p)|
  }

  function One(b: bool): nat {
    if b then 1 else 0
  }

  lemma TallyMoved(connections: map<nat, Connection>, id: nat, to: Connection, p: Property)
    requires id in connections
    ensures Tally(connections[id := to], p) + One(p(connections[id])) == Tally(connections, p) + One(p(to))
  {
    var next := connections[id := to];
    var before, after := Having(connections, p), Having(next, p);
    forall c | c != id ensures c in before <==> c in after {
      SameElsewhere(connections, id, to, p, c);
    }
    hide Having;
    assert before - {id} == after - {id};
    Without(before, id);
    Without(after, id);
    MovedItself(connections, id, to, p);
  }

  lemma SameElsewhere(connections: map<nat, Connection>, id: nat, to: Connection, p: Property, c: nat)
    requires c != id
    ensures c in Having(connections, p) <==> c in Having(connections[id := to], p)
  {
  }

  lemma MovedItself(connections: map<nat, Connection>, id: nat, to: Connection, p: Property)
    requires id in connections
    ensures id in Having(connections, p) <==> p(connections[id])
    ensures id in Having(connections[id := to], p) <==> p(to)
  {
  }

  lemma Without(ids: set<nat>, id: nat)
    ensures |ids| == |ids - {id}| + One(id in ids)
  {
    if id in ids {
      assert ids == (ids - {id}) + {id};
    } else {
      assert ids == ids - {id};
    }
  }

  lemma TallyAdded(connections: map<nat, Connection>, id: nat, to: Connection, p: Property)
    requires id !in connections
    ensures Tally(connections[id := to], p) == Tally(connections, p) + One(p(to))
  {
    var before, after := Having(connections, p), Having(connections[id := to], p);
    assert p(to) ==> after == before + {id};
    assert !p(to) ==> after == before;
  }

  // ----- What every reachable server keeps -----

  function HoldsPermit(): Property {
    (c: Connection) => c.stage in
      {Permitted, Guarded, RejectedHolding, Active, Ended, Finished, Unguarded, Panicked, PanickedUnguarded}
  }

  function HoldsGuard(ip: Ip): Property {
    (c: Connection) => c.ip == ip && c.stage in {Guarded, Active, Ended, Finished, Panicked}
  }

  function CountsActive(): Property {
    (c: Connection) => c.stage in {Active, Panicked, PanickedUnguarded, PanickedGone}
  }

  function CountsCompleted(): Property {
    (c: Connection) => c.stage in {Finished, Unguarded, Gone}
  }

  function CountsRejected(): Property {
    (c: Connection) => c.stage in {RejectedHolding, RejectedGone}
  }

  /** Between two counter updates: counted in the total, not yet or no longer anywhere else. */
  function Between(): Property {
    (c: Connection) => c.stage in {Arrived, Permitted, Guarded, Ended}
  }

  /** In the accept loop's hands. */
  function InLoop(): Property {
    (c: Connection) => c.stage in {Arrived, Permitted, Guarded, RejectedHolding}
  }

  ghost predicate Inv(config: Config, s: Server) {
    && s.total == |s.connections|
    && s.rejected == Tally(s.connections, CountsRejected())
    && s.active == Tally(s.connections, CountsActive())
    && s.completed == Tally(s.connections, CountsCompleted())
    && s.permits == Tally(s.connections, HoldsPermit()) && s.permits <= config.maxConnections
    && GuardsExact(config, s.perIp, s.connections)
    && Tally(s.connections, InLoop()) == One(s.accepting)
  }

  /** A step that moves one connection moves every count as its stages say. */
  lemma Counts(connections: map<nat, Connection>, id: nat, stage: Stage)
    requires id in connections
    ensures
      var from := connections[id];
      var to := Connection(from.ip, stage);
      var next := connections[id := to];
      && |next| == |connections|
      && Tally(next, CountsRejected()) + One(CountsRejected()(from)) ==
         Tally(connections, CountsRejected()) + One(CountsRejected()(to))
      && Tally(next, CountsActive()) + One(CountsActive()(from)) ==
         Tally(connections, CountsActive()) + One(CountsActive()(to))
      && Tally(next, CountsCompleted()) + One(CountsCompleted()(from)) ==
         Tally(connections, CountsCompleted()) + One(CountsCompleted()(to))
      && Tally(next, HoldsPermit()) + One(HoldsPermit()(from)) ==
         Tally(connections, HoldsPermit()) + One(HoldsPermit()(to))
      && Tally(next, InLoop()) + One(InLoop()(from)) == Tally(connections, InLoop()) + One(InLoop()(to))
      && forall ip :: Tally(next, HoldsGuard(ip)) + One(HoldsGuard(ip)(from)) ==
                      Tally(connections, HoldsGuard(ip)) + One(HoldsGuard(ip)(to))
  {
    hide Tally;
    var to := Connection(connections[id].ip, stage);
    assert connections[id := to].Keys == connections.Keys;
    TallyMoved(connections, id, to, CountsRejected());
    TallyMoved(connections, id, to, CountsActive());
    TallyMoved(connections, id, to, CountsCompleted());
    TallyMoved(connections, id, to, HoldsPermit());
    TallyMoved(connections, id, to, InLoop());
    forall ip
      ensures Tally(connections[id := to], HoldsGuard(ip)) + One(HoldsGuard(ip)(connections[id])) ==
              Tally(connections, HoldsGuard(ip)) + One(HoldsGuard(ip)(to))
    {
      TallyMoved(connections, id, to, HoldsGuard(ip));
    }
  }

  /** Every address's guards are counted, limited, and forgotten at zero. */
  ghost predicate GuardsExact(config: Config, perIp: map<Ip, nat>, connections: map<nat, Connection>) {
    && (forall ip :: Held(perIp, ip) == Tally(connections, HoldsGuard(ip)) && Held(perIp, ip) <= config.maxPerIp)
    && (config.maxPerIp > 0 ==> forall ip | ip in perIp :: perIp[ip] > 0)
  }

  lemma SameGuards(config: Config, s: Server, id: nat, stage: Stage)
    requires Inv(config, s) && id in s.connections
    requires forall ip :: HoldsGuard(ip)(s.connections[id]) == HoldsGuard(ip)(Connection(s.connections[id].ip, stage))
    ensures GuardsExact(config, s.perIp, Move(s, id, stage).connections)
  {
    hide Tally, Held, HoldsGuard;
    Counts(s.connections, id, stage);
  }

  lemma AcceptKeeps(config: Config, s: Server, id: nat, ip: Ip)
    requires Inv(config, s) && !s.accepting && id !in s.connections
    ensures Inv(config, Step(config, s, Accept(id, ip)))
  {
    hide Tally, Held;
    var to := Connection(ip, Arrived);
    TallyAdded(s.connections, id, to, CountsRejected());
    TallyAdded(s.connections, id, to, CountsActive());
    TallyAdded(s.connections, id, to, CountsCompleted());
    TallyAdded(s.connections, id, to, HoldsPermit());
    TallyAdded(s.connections, id, to, InLoop());
    forall other ensures Tally(s.connections[id := to], HoldsGuard(other)) == Tally(s.connections, HoldsGuard(other)) {
      TallyAdded(s.connections, id, to, HoldsGuard(other));
    }
  }

  lemma PermitKeeps(config: Config, s: Server, id: nat)
    requires Inv(config, s) && At(s, id, Arrived)
    ensures Inv(config, PermitStep(config, s, id))
  {
    hide Tally, Held;
    var stage := if s.permits < config.maxConnections then Permitted else RejectedGone;
    Counts(s.connections, id, stage);
    SameGuards(config, s, id, stage);
  }

  lemma GuardKeeps(config: Config, s: Server, id: nat)
    requires Inv(config, s) && At(s, id, Permitted)
    ensures Inv(config, GuardStep(config, s, id))
  {
    hide Tally;
    var ip := s.connections[id].ip;
    Counts(s.connections, id, if Held(s.perIp, ip) >= config.maxPerIp then RejectedHolding else Guarded);
  }

  lemma DropGuardKeeps(config: Config, s: Server, id: nat, stage: Stage)
    requires Inv(config, s)
    requires (At(s, id, Finished) && stage == Unguarded) || (At(s, id, Panicked) && stage == PanickedUnguarded)
    ensures Inv(config, DropGuardStep(s, id, stage))
  {
    hide Tally;
    Counts(s.connections, id, stage);
    OneGuardLess(config, s, id, stage);
    hide GuardsExact, Held;
  }

  lemma OneGuardLess(config: Config, s: Server, id: nat, stage: Stage)
    requires Inv(config, s)
    requires (At(s, id, Finished) && stage == Unguarded) || (At(s, id, Panicked) && stage == PanickedUnguarded)
    ensures GuardsExact(config, DropGuardStep(s, id, stage).perIp, DropGuardStep(s, id, stage).connections)
  {
    var next := DropGuardStep(s, id, stage);
    forall ip
      ensures Held(next.perIp, ip) == Tally(next.connections, HoldsGuard(ip)) && Held(next.perIp, ip) <= config.maxPerIp
    {
      AddressLess(config, s, id, stage, ip);
    }
    hide Tally, Held;
  }

  /** One address after a guard was dropped. */
  lemma AddressLess(config: Config, s: Server, id: nat, stage: Stage, ip: Ip)
    requires Inv(config, s)
    requires (At(s, id, Finished) && stage == Unguarded) || (At(s, id, Panicked) && stage == PanickedUnguarded)
    ensures
      var next := DropGuardStep(s, id, stage);
      Held(next.perIp, ip) == Tally(next.connections, HoldsGuard(ip)) && Held(next.perIp, ip) <= config.maxPerIp
  {
    assert Held(s.perIp, ip) == Tally(s.connections, HoldsGuard(ip)) && Held(s.perIp, ip) <= config.maxPerIp;
    hide Inv, Tally, Held, HoldsGuard, Dropped;
    var from := s.connections[id];
    TallyMoved(s.connections, id, Connection(from.ip, stage), HoldsGuard(ip));
    GuardGone(from, stage, ip);
    HeldDropped(s.perIp, from.ip, ip);
  }

  lemma GuardGone(from: Connection, stage: Stage, ip: Ip)
    requires from.stage in {Finished, Panicked} && stage in {Unguarded, PanickedUnguarded}
    ensures HoldsGuard(ip)(from) <==> from.ip == ip
    ensures !HoldsGuard(ip)(Connection(from.ip, stage))
  {
  }

  lemma HeldDropped(perIp: map<Ip, nat>, ip: Ip, other: Ip)
    ensures Held(Dropped(perIp, ip), other) == if other == ip then Minus(Held(perIp, ip)) else Held(perIp, other)
  {
  }

  // The steps of a task, and the end of a rejection, that leave the guards alone.

  lemma SpawnKeeps(config: Config, s: Server, id: nat)
    requires Inv(config, s) && At(s, id, Guarded)
    ensures Inv(config, Move(s, id, Active).(active := s.active + 1, accepting := false))
  {
    hide Tally, Held, GuardsExact;
    Counts(s.connections, id, Active);
    SameGuards(config, s, id, Active);
  }

  lemma ReleaseKeeps(config: Config, s: Server, id: nat)
    requires Inv(config, s) && At(s, id, RejectedHolding)
    ensures Inv(config, Move(s, id, RejectedGone).(permits := Minus(s.permits), accepting := false))
  {
    hide Tally, Held, GuardsExact;
    Counts(s.connections, id, RejectedGone);
    SameGuards(config, s, id, RejectedGone);
  }

  lemma EndKeeps(config: Config, s: Server, id: nat)
    requires Inv(config, s) && At(s, id, Active)
    ensures Inv(config, Move(s, id, Ended).(active := Minus(s.active)))
  {
    hide Tally, Held, GuardsExact;
    Counts(s.connections, id, Ended);
    SameGuards(config, s, id, Ended);
  }

  lemma CompleteKeeps(config: Config, s: Server, id: nat)
    requires Inv(config, s) && At(s, id, Ended)
    ensures Inv(config, Move(s, id, Finished).(completed := s.completed + 1))
  {
    hide Tally, Held, GuardsExact;
    Counts(s.connections, id, Finished);
    SameGuards(config, s, id, Finished);
  }

  lemma PanicKeeps(config: Config, s: Server, id: nat)
    requires Inv(config, s) && At(s, id, Active)
    ensures Inv(config, Move(s, id, Panicked))
  {
    hide Tally, Held, GuardsExact;
    Counts(s.connections, id, Panicked);
    SameGuards(config, s, id, Panicked);
  }

  lemma DropPermitKeeps(config: Config, s: Server, id: nat, panicked: bool)
    requires Inv(config, s) && (if panicked then At(s, id, PanickedUnguarded) else At(s, id, Unguarded))
    ensures Inv(config, Move(s, id, if panicked then PanickedGone else Gone).(permits := Minus(s.permits)))
  {
    hide Tally, Held, GuardsExact;
    Counts(s.connections, id, if panicked then PanickedGone else Gone);
    SameGuards(config, s, id, if panicked then PanickedGone else Gone);
  }

  lemma StepKeeps(config: Config, s: Server, a: Action)
    requires Inv(config, s)
    ensures Inv(config, Step(config, s, a))
  {
    hide Inv;
    match a
    case Accept(id, ip) =>
      if !s.accepting && id !in s.connections { AcceptKeeps(config, s, id, ip); }
    case TryPermit(id) =>
      if At(s, id, Arrived) { PermitKeeps(config, s, id); }
    case TryGuard(id) =>
      if At(s, id, Permitted) { GuardKeeps(config, s, id); }
    case Spawn(id) =>
      if At(s, id, Guarded) { SpawnKeeps(config, s, id); }
    case ReleaseRejected(id) =>
      if At(s, id, RejectedHolding) { ReleaseKeeps(config, s, id); }
    case End(id) =>
      if At(s, id, Active) { EndKeeps(config, s, id); }
    case Complete(id) =>
      if At(s, id, Ended) { CompleteKeeps(config, s, id); }
    case Panic(id) =>
      if At(s, id, Active) { PanicKeeps(config, s, id); }
    case DropGuard(id) =>
      if At(s, id, Finished) {
        DropGuardKeeps(config, s, id, Unguarded);
      } else if At(s, id, Panicked) {
        DropGuardKeeps(config, s, id, PanickedUnguarded);
      }
    case DropPermit(id) =>
      if At(s, id, Unguarded) {
        DropPermitKeeps(config, s, id, false);
      } else if At(s, id, PanickedUnguarded) {
        DropPermitKeeps(config, s, id, true);
      }
  }

  // ----- Every run -----

  lemma {:induction false} RunKeeps(config: Config, s: Server, actions: seq<Action>)
    requires Inv(config, s)
    ensures Inv(config, Run(config, s, actions))
    decreases |actions|
  {
    hide Inv, Step;
    if actions != [] {
      StepKeeps(config, s, actions[0]);
      RunKeeps(config, Step(config, s, actions[0]), actions[1..]);
    }
  }

  lemma StartKeeps(config: Config)
    ensures Inv(config, START)
  {
    assert forall p: Property :: Having(map[], p) == {};
  }

  /** A count of disjoint kinds is the sum of their counts. */
  lemma TallySplit(connections: map<nat, Connection>, p: Property, q: Property, r: Property)
    requires forall c: Connection :: p(c) <==> q(c) || r(c)
    requires forall c: Connection :: !(q(c) && r(c))
    ensures Tally(connections, p) == Tally(connections, q) + Tally(connections, r)
  {
    assert Having(connections, p) == Having(connections, q) + Having(connections, r);
    assert Having(connections, q) !! Having(connections, r);
  }

  /** Tasks that panicked and are gone: their count in `active` is never taken back. */
  function Leaked(): Property {
    (c: Connection) => c.stage == PanickedGone
  }

  /** Holding a permit without being counted active. */
  function IdleHolder(): Property {
    (c: Connection) => c.stage in {Permitted, Guarded, RejectedHolding, Ended, Finished, Unguarded}
  }

  /**
   In every run: the counters account for every connection exactly once, each
   address's entry is the number of its guards and within the limit, held
   permits are within the limit, and the active count exceeds the permits held
   by running tasks by exactly the number that panicked.
   */
  lemma EveryRunConserves(config: Config, actions: seq<Action>, ip: Ip)
    ensures
      var s := Run(config, START, actions);
      && s.total == s.rejected + s.active + s.completed + Tally(s.connections, Between())
      && Held(s.perIp, ip) == Tally(s.connections, HoldsGuard(ip)) && Held(s.perIp, ip) <= config.maxPerIp
      && (config.maxPerIp > 0 && ip in s.perIp ==> s.perIp[ip] > 0)
      && s.permits == Tally(s.connections, HoldsPermit()) && s.permits <= config.maxConnections
      && s.active + Tally(s.connections, IdleHolder()) == s.permits + Tally(s.connections, Leaked())
  {
    StartKeeps(config);
    RunKeeps(config, START, actions);
    var s := Run(config, START, actions);
    hide Run, Tally;
    CountersPartition(s.connections);
    PermitsPartition(s.connections);
  }

  lemma CountersPartition(connections: map<nat, Connection>)
    ensures |connections| ==
            Tally(connections, CountsRejected()) + Tally(connections, CountsActive()) +
            Tally(connections, CountsCompleted()) + Tally(connections, Between())
  {
    hide Tally;
    var all: Property := (c: Connection) => true;
    var settled: Property := (c: Connection) => CountsRejected()(c) || CountsActive()(c) || CountsCompleted()(c);
    var served: Property := (c: Connection) => CountsActive()(c) || CountsCompleted()(c);
    forall c: Connection
      ensures One(CountsRejected()(c)) + One(CountsActive()(c)) + One(CountsCompleted()(c)) + One(Between()(c)) == 1
    {
      OneKind(c);
    }
    TallySplit(connections, all, settled, Between());
    TallySplit(connections, settled, CountsRejected(), served);
    TallySplit(connections, served, CountsActive(), CountsCompleted());
    TallyAll(connections, all);
  }

  lemma OneKind(c: Connection)
    ensures One(CountsRejected()(c)) + One(CountsActive()(c)) + One(CountsCompleted()(c)) + One(Between()(c)) == 1
  {
    var k := c.stage;
    assert k.Arrived? || k.Permitted? || k.Guarded? || k.RejectedHolding? || k.RejectedGone? || k.Active? || k.Ended? ||
           k.Finished? || k.Unguarded? || k.Gone? || k.Panicked? || k.PanickedUnguarded? || k.PanickedGone?;
  }

  lemma TallyAll(connections: map<nat, Connection>, all: Property)
    requires forall c: Connection :: all(c)
    ensures Tally(connections, all) == |connections|
  {
    assert Having(connections, all) == connections.Keys;
  }

  lemma PermitsPartition(connections: map<nat, Connection>)
    ensures Tally(connections, CountsActive()) + Tally(connections, IdleHolder()) ==
            Tally(connections, HoldsPermit()) + Tally(connections, Leaked())
    ensures Tally(connections, IdleHolder()) <= Tally(connections, HoldsPermit())
  {
    hide Tally;
    var busy: Property := (c: Connection) => c.stage in {Active, Panicked, PanickedUnguarded};
    TallySplit(connections, CountsActive(), busy, Leaked());
    TallySplit(connections, HoldsPermit(), busy, IdleHolder());
  }

  predicate NoPanic(actions: seq<Action>) {
    forall i | 0 <= i < |actions| :: !actions[i].Panic?
  }

  predicate Calm(s: Server) {
    forall id | id in s.connections :: s.connections[id].stage !in {Panicked, PanickedUnguarded, PanickedGone}
  }

  lemma StepStaysCalm(config: Config, s: Server, a: Action)
    requires Calm(s) && !a.Panic?
    ensures Calm(Step(config, s, a))
  {
  }

  lemma {:induction false} RunStaysCalm(config: Config, s: Server, actions: seq<Action>)
    requires Calm(s) && NoPanic(actions)
    ensures Calm(Run(config, s, actions))
    decreases |actions|
  {
    hide Calm, Step;
    if actions != [] {
      StepStaysCalm(config, s, actions[0]);
      RunStaysCalm(config, Step(config, s, actions[0]), actions[1..]);
    }
  }

  /**
   In every run the active count is within the held permits exactly if no more
   tasks have leaked than idle holders make up for; so it is in every run
   without a panic, and in one that has come to rest it counts the leaked tasks alone.
   */
  lemma ActiveWithinPermits(config: Config, actions: seq<Action>)
    ensures
      var s := Run(config, START, actions);
      && (s.active <= s.permits <==> Tally(s.connections, Leaked()) <= Tally(s.connections, IdleHolder()))
      && (NoPanic(actions) ==> s.active <= s.permits <= config.maxConnections)
      && (s.permits == 0 ==> s.active == Tally(s.connections, Leaked()))
  {
    hide Run, Tally, Calm;
    EveryRunConserves(config, actions, 0);
    PermitsPartition(Run(config, START, actions).connections);
    if NoPanic(actions) {
      assert Calm(START) by {
        StartIsCalm();
      }
      RunStaysCalm(config, START, actions);
      CalmLeaksNothing(Run(config, START, actions));
    }
  }

  lemma StartIsCalm()
    ensures Calm(START)
  {
  }

  lemma CalmLeaksNothing(s: Server)
    requires Calm(s)
    ensures Tally(s.connections, Leaked()) == 0
  {
    assert Having(s.connections, Leaked()) == {};
  }

  /** One connection admitted, panicking and gone. */
  const PANIC_RUN := [Accept(0, 0), TryPermit(0), TryGuard(0), Spawn(0), Panic(0), DropGuard(0), DropPermit(0)]

  /** A server that has met one connection. */
  function Lone(stage: Stage, active: nat, permits: nat, perIp: map<Ip, nat>): Server {
    Server(1, 0, active, 0, permits, perIp, stage in {Arrived, Permitted, Guarded}, map[0 := Connection(0, stage)])
  }

  /** After it the active count is above the permits, whatever the limits, if they admit a connection at all. */
  lemma PanicRunLeaks(config: Config)
    requires config.maxConnections > 0 && config.maxPerIp > 0
    ensures Run(config, START, PANIC_RUN) == Lone(PanickedGone, 1, 0, map[])
  {
    LoneAdmitted(config);
    LonePanics(config);
    hide Step, Lone;
    Unrolled(config, START, PANIC_RUN);
  }

  lemma LoneAdmitted(config: Config)
    requires config.maxConnections > 0 && config.maxPerIp > 0
    ensures Step(config, START, Accept(0, 0)) == Lone(Arrived, 0, 0, map[])
    ensures Step(config, Lone(Arrived, 0, 0, map[]), TryPermit(0)) == Lone(Permitted, 0, 1, map[])
    ensures Step(config, Lone(Permitted, 0, 1, map[]), TryGuard(0)) == Lone(Guarded, 0, 1, map[0 := 1])
    ensures Step(config, Lone(Guarded, 0, 1, map[0 := 1]), Spawn(0)) == Lone(Active, 1, 1, map[0 := 1])
  {
  }

  lemma LonePanics(config: Config)
    ensures Step(config, Lone(Active, 1, 1, map[0 := 1]), Panic(0)) == Lone(Panicked, 1, 1, map[0 := 1])
    ensures Step(config, Lone(Panicked, 1, 1, map[0 := 1]), DropGuard(0)) == Lone(PanickedUnguarded, 1, 1, map[])
    ensures Step(config, Lone(PanickedUnguarded, 1, 1, map[]), DropPermit(0)) == Lone(PanickedGone, 1, 0, map[])
  {
    hide Step, DropGuardStep;
    PanicSteps(config, Lone(Active, 1, 1, map[0 := 1]), 0);
    PanicSteps(config, Lone(Panicked, 1, 1, map[0 := 1]), 0);
    LoneUnguarded();
    PanicSteps(config, Lone(PanickedUnguarded, 1, 1, map[]), 0);
  }

  lemma LoneUnguarded()
    ensures DropGuardStep(Lone(Panicked, 1, 1, map[0 := 1]), 0, PanickedUnguarded) == Lone(PanickedUnguarded, 1, 1, map[])
  {
    var guards: map<Ip, nat> := map[0 := 1];
    assert guards - {0} == map[];
  }

  lemma Unrolled(config: Config, s: Server, actions: seq<Action>)
    requires |actions| == 7
    ensures
      var s1 := Step(config, s, actions[0]);
      var s2 := Step(config, s1, actions[1]);
      var s3 := Step(config, s2, actions[2]);
      var s4 := Step(config, s3, actions[3]);
      var s5 := Step(config, s4, actions[4]);
      var s6 := Step(config, s5, actions[5]);
      Run(config, s, actions) == Step(config, s6, actions[6])
  {
    hide Step;
    var s1 := Step(config, s, actions[0]);
    var s2 := Step(config, s1, actions[1]);
    var s3 := Step(config, s2, actions[2]);
    var s4 := Step(config, s3, actions[3]);
    var s5 := Step(config, s4, actions[4]);
    var s6 := Step(config, s5, actions[5]);
    assert Run(config, s, actions) == Run(config, s1, actions[1..]);
    assert actions[1..][1..] == actions[2..] && actions[2..][1..] == actions[3..] && actions[3..][1..] == actions[4..];
    assert Run(config, s1, actions[1..]) == Run(config, s2, actions[2..]);
    assert Run(config, s2, actions[2..]) == Run(config, s3, actions[3..]);
    assert Run(config, s3, actions[3..]) == Run(config, s4, actions[4..]);
    assert actions[4..][1..] == actions[5..] && actions[5..][1..] == actions[6..] && actions[6..][1..] == [];
    assert Run(config, s4, actions[4..]) == Run(config, s5, actions[5..]);
    assert Run(config, s5, actions[5..]) == Run(config, s6, actions[6..]);
    assert Run(config, s6, actions[6..]) == Run(config, Step(config, s6, actions[6]), []);
  }

  /** A task that panics gives back its guard and permit but is counted active for good. */
  lemma PanicLeaks(config: Config, s: Server, id: nat)
    requires Inv(config, s) && At(s, id, Active)
    ensures
      var next := Step(config, Step(config, Step(config, s, Panic(id)), DropGuard(id)), DropPermit(id));
      && next.active == s.active && next.permits == s.permits - 1
      && Tally(next.connections, Leaked()) == Tally(s.connections, Leaked()) + 1
      && (next.active > next.permits <==> Tally(s.connections, Leaked()) + 1 > Tally(s.connections, IdleHolder()))
  {
    ActiveHolds(config, s, id);
    PermitsPartition(s.connections);
    hide Inv, Tally, Step, DropGuardStep;
    PanicSteps(config, s, id);
    var s1 := Move(s, id, Panicked);
    DroppedGuard(s1, id);
    var s2 := DropGuardStep(s1, id, PanickedUnguarded);
    PanicSteps(config, s1, id);
    PanicSteps(config, s2, id);
    var gone := Connection(s.connections[id].ip, PanickedGone);
    Overwritten(s.connections, id, s1.connections[id], s2.connections[id], gone);
    TallyMoved(s.connections, id, gone, Leaked());
  }

  lemma PanicSteps(config: Config, s: Server, id: nat)
    ensures At(s, id, Active) ==> Step(config, s, Panic(id)) == Move(s, id, Panicked)
    ensures At(s, id, Panicked) ==> Step(config, s, DropGuard(id)) == DropGuardStep(s, id, PanickedUnguarded)
    ensures At(s, id, PanickedUnguarded) ==>
              Step(config, s, DropPermit(id)) == Move(s, id, PanickedGone).(permits := Minus(s.permits))
  {
  }

  lemma Overwritten(m: map<nat, Connection>, id: nat, a: Connection, b: Connection, c: Connection)
    ensures m[id := a][id := b][id := c] == m[id := c]
  {
  }

  lemma DroppedGuard(s: Server, id: nat)
    requires id in s.connections
    ensures
      var next := DropGuardStep(s, id, PanickedUnguarded);
      && next.active == s.active && next.permits == s.permits
      && next.connections == s.connections[id := Connection(s.connections[id].ip, PanickedUnguarded)]
  {
  }

  lemma ActiveHolds(config: Config, s: Server, id: nat)
    requires Inv(config, s) && At(s, id, Active)
    ensures s.permits > 0
  {
    hide Tally;
    TallyMoved(s.connections, id, Connection(s.connections[id].ip, Gone), HoldsPermit());
  }

  // ----- Entries of zero -----

  /** Every address with an entry has a live guard. */
  predicate NoEmptyEntry(s: Server) {
    forall ip | ip in s.perIp :: s.perIp[ip] > 0
  }

  /** With no permits to give, no address is ever entered. */
  lemma StepEntersNone(config: Config, s: Server, a: Action)
    requires config.maxConnections == 0 && Inv(config, s) && s.perIp == map[]
    ensures Step(config, s, a).perIp == map[]
  {
    if a.TryGuard? && a.id in s.connections {
      HoldsNoPermit(s, a.id);
    }
  }

  lemma HoldsNoPermit(s: Server, id: nat)
    requires Tally(s.connections, HoldsPermit()) == 0 && id in s.connections
    ensures s.connections[id].stage != Permitted
  {
    assert id in Having(s.connections, HoldsPermit()) <==> HoldsPermit()(s.connections[id]);
  }

  lemma {:induction false} RunEntersNone(config: Config, s: Server, actions: seq<Action>)
    requires config.maxConnections == 0 && Inv(config, s) && s.perIp == map[]
    ensures Run(config, s, actions).perIp == map[]
    decreases |actions|
  {
    hide Inv, Step;
    if actions != [] {
      StepEntersNone(config, s, actions[0]);
      StepKeeps(config, s, actions[0]);
      RunEntersNone(config, Step(config, s, actions[0]), actions[1..]);
    }
  }

  const REFUSED_RUN := [Accept(0, 0), TryPermit(0), TryGuard(0)]

  /** A limit of zero: the address that was refused keeps an entry of zero. */
  lemma ZeroLimitLeavesEntry(config: Config)
    requires config.maxPerIp == 0 && config.maxConnections > 0
    ensures Run(config, START, REFUSED_RUN).perIp == map[0 := 0]
  {
    var s1 := Lone(Arrived, 0, 0, map[]);
    var s2 := Lone(Permitted, 0, 1, map[]);
    assert Step(config, START, Accept(0, 0)) == s1;
    assert Step(config, s1, TryPermit(0)) == s2;
    assert Step(config, s2, TryGuard(0)).perIp == map[0 := 0];
    hide Step, Lone;
    var actions := REFUSED_RUN;
    assert actions[1..] == [TryPermit(0), TryGuard(0)];
    assert actions[1..][1..] == [TryGuard(0)] && [TryGuard(0)][1..] == [];
    assert Run(config, s1, actions[1..]) == Run(config, s2, [TryGuard(0)]);
  }

  /** No run leaves an entry of zero exactly if the limit is not zero, as configured, or nobody is admitted. */
  lemma EntriesAreLive(config: Config)
    ensures (forall actions :: NoEmptyEntry(Run(config, START, actions))) <==>
            config.maxPerIp > 0 || config.maxConnections == 0
  {
    hide Run, Inv;
    if config.maxPerIp > 0 || config.maxConnections == 0 {
      forall actions ensures NoEmptyEntry(Run(config, START, actions)) {
        StartKeeps(config);
        if config.maxPerIp > 0 {
          RunKeeps(config, START, actions);
          LiveEntries(config, Run(config, START, actions));
        } else {
          RunEntersNone(config, START, actions);
        }
      }
    } else {
      ZeroLimitLeavesEntry(config);
      assert 0 in Run(config, START, REFUSED_RUN).perIp;
      assert !NoEmptyEntry(Run(config, START, REFUSED_RUN));
    }
  }

  lemma LiveEntries(config: Config, s: Server)
    requires Inv(config, s) && config.maxPerIp > 0
    ensures NoEmptyEntry(s)
  {
    hide Tally, Held;
  }
}
