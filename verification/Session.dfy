/**
 The emulated session: what each statement does to the session state and to the
 log of state changes. How statements are recognised is left open: a statement
 is any combination of answers to the recognisers, asked in source order.
 */
module Session {
  import opened Bytes

  type Name = seq<nat>

  datatype Flag = XpCmdshell | Clr | OleAutomation | AdHoc

  /** What the recognisers say about one statement. */
  datatype Statement = Statement(
    blank: bool,
    use: Option<Name>,
    known: bool,
    configure: bool,
    flag: Option<Flag>,
    setting: Option<int>,
    reconfigure: bool,
    cmdshell: bool,
    executeAs: Option<Name>,
    revert: bool,
    begin: bool,
    commit: bool,
    rollback: bool,
    createLogin: bool,
    createAssembly: bool,
    name: Option<Name>,
    addJob: Option<Name>,
    answered: bool,
    unknownFails: bool)

  /** The part of the session its log can restore. */
  datatype Core = Core(
    database: Name, effective: Name, depth: nat, xpCmdshell: bool, clr: bool, oleAutomation: bool, adHoc: bool)

  function Get(core: Core, flag: Flag): bool {
    match flag
    case XpCmdshell => core.xpCmdshell
    case Clr => core.clr
    case OleAutomation => core.oleAutomation
    case AdHoc => core.adHoc
  }

  function Set(core: Core, flag: Flag, on: bool): Core {
    match flag
    case XpCmdshell => core.(xpCmdshell := on)
    case Clr => core.(clr := on)
    case OleAutomation => core.(oleAutomation := on)
    case AdHoc => core.(adHoc := on)
  }

  datatype State = State(core: Core, stack: seq<Name>, logins: seq<Name>, assemblies: seq<Name>, jobs: seq<Name>)

  datatype Property = Database | EffectiveLogin | Depth | FlagOf(flag: Flag) | Login | Assembly | Job

  datatype Value = Text(name: Name) | Number(n: nat) | Switch(on: bool)

  /** What an object that is not there yet is logged as: the word "absent". */
  const ABSENT: Name := [0x61, 0x62, 0x73, 0x65, 0x6e, 0x74]

  datatype Change = Change(property: Property, oldValue: Value, newValue: Value)

  /** A change is logged only if something changes. */
  function Log(property: Property, oldValue: Value, newValue: Value): seq<Change> {
    if oldValue == newValue then [] else [Change(property, oldValue, newValue)]
  }

  datatype Effect = Effect(state: State, changes: seq<Change>, failed: bool)

  function Quiet(s: State): Effect {
    Effect(s, [], false)
  }

  function Failing(s: State): Effect {
    Effect(s, [], true)
  }

  function Configure(s: State, st: Statement): Effect
  {
    if st.flag.None? || st.setting.None? then Quiet(s) else
    var on := st.setting.value != 0;
    Effect(
      s.(core := Set(s.core, st.flag.value, on)),
      Log(FlagOf(st.flag.value), Switch(Get(s.core, st.flag.value)), Switch(on)), false)
  }

  function Impersonate(s: State, effective: Name, stack: seq<Name>): Effect {
    Effect(
      s.(core := s.core.(effective := effective), stack := stack),
      Log(EffectiveLogin, Text(s.core.effective), Text(effective)), false)
  }

  function Transaction(s: State, depth: nat): Effect {
    Effect(s.(core := s.core.(depth := depth)), Log(Depth, Number(s.core.depth), Number(depth)), false)
  }

  /** One statement, branch by branch. */
  function Apply(s: State, st: Statement): Effect
  {
    if st.blank then Quiet(s)
    else if st.use.Some? then
      if st.known then
        Effect(s.(core := s.core.(database := st.use.value)),
               Log(Database, Text(s.core.database), Text(st.use.value)), false)
      else Failing(s)
    else if st.configure then Configure(s, st)
    else if st.reconfigure then Quiet(s)
    else if st.cmdshell then (if s.core.xpCmdshell then Quiet(s) else Failing(s))
    else if st.executeAs.Some? then Impersonate(s, st.executeAs.value, s.stack + [s.core.effective])
    else if st.revert then
      if s.stack == [] then Quiet(s) else Impersonate(s, s.stack[|s.stack| - 1], s.stack[..|s.stack| - 1])
    else if st.begin then Transaction(s, Min(s.core.depth + 1, U32_MAX))
    else if st.commit || st.rollback then
      Transaction(s, if st.rollback || s.core.depth == 0 then 0 else s.core.depth - 1)
    else if st.createLogin then
      if st.name.None? then Quiet(s)
      else Effect(s.(logins := s.logins + [st.name.value]), Log(Login, Text(ABSENT), Text(st.name.value)), false)
    else if st.createAssembly then
      if st.name.None? then Quiet(s)
      else Effect(s.(assemblies := s.assemblies + [st.name.value]), Log(Assembly, Text(ABSENT), Text(st.name.value)), false)
    else if st.addJob.Some? then
      Effect(s.(jobs := s.jobs + [st.addJob.value]), Log(Job, Text(ABSENT), Text(st.addJob.value)), false)
    else if st.answered then Quiet(s)
    else if st.unknownFails then Failing(s) else Quiet(s)
  }

  /** Statements in order until one fails. */
  function Run(s: State, statements: seq<Statement>): Effect
    decreases |statements|
  {
    if statements == [] then Quiet(s) else
    var first := Apply(s, statements[0]);
    if first.failed then first else
    var rest := Run(first.state, statements[1..]);
    Effect(rest.state, first.changes + rest.changes, rest.failed)
  }

  // ----- The log says exactly what happened -----

  /** A change put back on: refused unless it starts from the present value and changes it. */
  function Redo(core: Core, change: Change): Option<Core> {
    if change.oldValue == change.newValue then None
    else match change.property
      case Login => Some(core)
      case Assembly => Some(core)
      case Job => Some(core)
      case Database =>
        if change.oldValue == Text(core.database) && change.newValue.Text?
        then Some(core.(database := change.newValue.name)) else None
      case EffectiveLogin =>
        if change.oldValue == Text(core.effective) && change.newValue.Text?
        then Some(core.(effective := change.newValue.name)) else None
      case Depth =>
        if change.oldValue == Number(core.depth) && change.newValue.Number? then Some(core.(depth := change.newValue.n)) else None
      case FlagOf(flag) =>
        if change.oldValue == Switch(Get(core, flag)) && change.newValue.Switch?
        then Some(Set(core, flag, change.newValue.on)) else None
  }

  function Replay(core: Core, changes: seq<Change>): Option<Core>
    decreases |changes|
  {
    if changes == [] then Some(core) else
    match Redo(core, changes[0])
    case None => None
    case Some(next) => Replay(next, changes[1..])
  }

  lemma {:induction false} ReplayConcat(core: Core, a: seq<Change>, b: seq<Change>)
    ensures Replay(core, a + b) ==
            if Replay(core, a).Some? then Replay(Replay(core, a).value, b) else None
    decreases |a|
  {
    if a == [] {
      assert a + b == b;
    } else {
      assert (a + b)[1..] == a[1..] + b;
      var next := Redo(core, a[0]);
      if next.Some? {
        ReplayConcat(next.value, a[1..], b);
      }
    }
  }

  /** The login the session was opened with, under whatever has been impersonated since. */
  function Original(s: State): Name {
    (s.stack + [s.core.effective])[0]
  }

  /** A statement logs nothing and keeps the core, or logs the one change it makes to it. */
  lemma OneChange(s: State, st: Statement)
    ensures
      var e := Apply(s, st);
      if e.changes == [] then e.state.core == s.core
      else |e.changes| == 1 && Redo(s.core, e.changes[0]) == Some(e.state.core)
  {
  }

  /** One statement: its log replays to the new core, and failure changes nothing. */
  lemma ApplyLogged(s: State, st: Statement)
    ensures Replay(s.core, Apply(s, st).changes) == Some(Apply(s, st).state.core)
    ensures Apply(s, st).failed ==> Apply(s, st) == Failing(s)
  {
    OneChange(s, st);
    FailedIs(s, st);
    hide Apply, Redo;
    var e := Apply(s, st);
    assert e.changes != [] ==> e.changes[1..] == [];
  }

  lemma FailedIs(s: State, st: Statement)
    ensures Apply(s, st).failed ==> Apply(s, st) == Failing(s)
  {
    hide Log;
  }

  lemma ApplyKeepsOriginal(s: State, st: Statement)
    ensures Original(Apply(s, st).state) == Original(s)
  {
    hide Log;
  }

  /**
   Every run of statements: replaying its log on the old core gives the new one,
   each entry starting from the value in force; a run that fails has changed
   just what the statements before the failing one did; and the bottom of the
   impersonation stack is the original login still.
   */
  lemma {:induction false} RunLogged(s: State, statements: seq<Statement>)
    ensures Replay(s.core, Run(s, statements).changes) == Some(Run(s, statements).state.core)
    ensures Original(Run(s, statements).state) == Original(s)
    decreases |statements|
  {
    hide Apply, Redo, Original;
    if statements != [] {
      ApplyLogged(s, statements[0]);
      ApplyKeepsOriginal(s, statements[0]);
      var first := Apply(s, statements[0]);
      if !first.failed {
        RunLogged(first.state, statements[1..]);
        ReplayConcat(s.core, first.changes, Run(first.state, statements[1..]).changes);
      }
    }
  }

  /** A failing run is the run of the statements before the failing one, plus the failure. */
  lemma {:induction false} FailureChangesNothing(s: State, statements: seq<Statement>) returns (k: nat)
    requires Run(s, statements).failed
    ensures k < |statements| && !Run(s, statements[..k]).failed
    ensures Run(s, statements) == Run(s, statements[..k]).(failed := true)
    ensures Apply(Run(s, statements[..k]).state, statements[k]).failed
    decreases |statements|
  {
    hide Apply;
    var first := Apply(s, statements[0]);
    ApplyLogged(s, statements[0]);
    if first.failed {
      k := 0;
      assert statements[..0] == [];
    } else {
      var j := FailureChangesNothing(first.state, statements[1..]);
      k := j + 1;
      assert statements[..k][1..] == statements[1..][..j];
      assert statements[..k][0] == statements[0];
    }
  }

  // ----- What the log leaves out -----

  /** The statement reaches the branches that impersonate. */
  predicate Scoped(st: Statement) {
    !st.blank && st.use.None? && !st.configure && !st.reconfigure && !st.cmdshell
  }

  predicate Pushes(st: Statement) {
    Scoped(st) && st.executeAs.Some?
  }

  predicate Pops(s: State, st: Statement) {
    Scoped(st) && st.executeAs.None? && st.revert && s.stack != []
  }

  function Top(s: State): Name
    requires s.stack != []
  {
    s.stack[|s.stack| - 1]
  }

  /** The stack moves and the effective login does not. */
  predicate MovesUnseen(s: State, st: Statement) {
    || (Pushes(st) && st.executeAs.value == s.core.effective)
    || (Pops(s, st) && Top(s) == s.core.effective)
  }

  /** `a` moves the stack where `b` leaves it, or pushes what `b` pops, with the same login in force after both. */
  predicate Mistaken(s: State, a: Statement, b: Statement) {
    || (MovesUnseen(s, a) && !Pushes(b) && !Pops(s, b))
    || (Pushes(a) && Pops(s, b) && a.executeAs.value == Top(s))
  }

  /** One step moves the stack in one of three ways; only these two log the effective login. */
  lemma StackMoves(s: State, st: Statement)
    ensures
      var e := Apply(s, st);
      && (Pushes(st) ==> e == Impersonate(s, st.executeAs.value, s.stack + [s.core.effective]))
      && (Pops(s, st) ==> e == Impersonate(s, Top(s), s.stack[..|s.stack| - 1]))
      && (!Pushes(st) && !Pops(s, st) ==>
            e.state.stack == s.stack && (e.changes != [] ==> |e.changes| == 1 && e.changes[0].property != EffectiveLogin))
  {
  }

  /** Two statements with the same log leave the same stack, except exactly if one can be mistaken for the other. */
  lemma LogAndStack(s: State, a: Statement, b: Statement)
    requires Apply(s, a).changes == Apply(s, b).changes
    ensures Apply(s, a).state.stack == Apply(s, b).state.stack <==> !Mistaken(s, a, b) && !Mistaken(s, b, a)
  {
    hide Apply;
    StackMoves(s, a);
    StackMoves(s, b);
  }

  /** A statement that only gives a canned answer. */
  const ANSWERED := Statement(
    false, None, false, false, None, None, false, false, None, false, false, false, false, false, false, None, None,
    true, false)

  const REVERT := ANSWERED.(revert := true)

  function ExecuteAs(name: Name): Statement {
    ANSWERED.(executeAs := Some(name))
  }

  /** Impersonating the login in force looks like doing nothing. */
  lemma OwnLoginUnseen(s: State)
    ensures
      var a, b := Apply(s, ExecuteAs(s.core.effective)), Apply(s, ANSWERED);
      a.changes == b.changes && a.state.core == b.state.core && a.state.stack != b.state.stack
  {
    assert |s.stack + [s.core.effective]| == |s.stack| + 1;
  }

  /** Going back and impersonating anew the login gone back to look the same. */
  lemma RevertOrImpersonate(s: State)
    requires s.stack != [] && Top(s) != s.core.effective
    ensures
      var a, b := Apply(s, ExecuteAs(Top(s))), Apply(s, REVERT);
      a.changes == b.changes != [] && a.state.core == b.state.core && a.state.stack != b.state.stack
  {
    assert |s.stack + [s.core.effective]| == |s.stack| + 1;
  }

  /** What a reader of the log makes of one entry: a return to the login on top is taken for a REVERT. */
  function Restep(stack: seq<Name>, change: Change): seq<Name> {
    if change.property != EffectiveLogin || !change.oldValue.Text? then stack
    else if stack != [] && Text(stack[|stack| - 1]) == change.newValue then stack[..|stack| - 1]
    else stack + [change.oldValue.name]
  }

  function Restack(stack: seq<Name>, changes: seq<Change>): seq<Name>
    decreases |changes|
  {
    if changes == [] then stack else Restack(Restep(stack, changes[0]), changes[1..])
  }

  lemma {:induction false} RestackConcat(stack: seq<Name>, a: seq<Change>, b: seq<Change>)
    ensures Restack(stack, a + b) == Restack(Restack(stack, a), b)
    decreases |a|
  {
    hide Restep;
    if a == [] {
      assert a + b == b;
    } else {
      assert (a + b)[1..] == a[1..] + b;
      RestackConcat(Restep(stack, a[0]), a[1..], b);
    }
  }

  /** The statement does to the stack what its log suggests. */
  predicate Legible(s: State, st: Statement) {
    && !MovesUnseen(s, st)
    && (Pushes(st) && s.stack != [] ==> st.executeAs.value != Top(s))
  }

  lemma StepLegible(s: State, st: Statement)
    ensures Restack(s.stack, Apply(s, st).changes) == Apply(s, st).state.stack <==> Legible(s, st)
  {
    hide Apply;
    StackMoves(s, st);
    var changes := Apply(s, st).changes;
    assert |changes| <= 1;
    assert changes != [] ==> changes[1..] == [];
  }

  predicate AllLegible(s: State, statements: seq<Statement>)
    decreases |statements|
  {
    statements == [] ||
    (Legible(s, statements[0]) &&
     (Apply(s, statements[0]).failed || AllLegible(Apply(s, statements[0]).state, statements[1..])))
  }

  predicate RestacksTo(s: State, statements: seq<Statement>) {
    Restack(s.stack, Run(s, statements).changes) == Run(s, statements).state.stack
  }

  /** A reader of the log knows the stack throughout a run exactly if every statement of it is legible. */
  lemma {:induction false} StackFollowed(s: State, statements: seq<Statement>)
    ensures (forall k | 0 <= k <= |statements| :: RestacksTo(s, statements[..k])) <==> AllLegible(s, statements)
    decreases |statements|
  {
    hide Apply, Legible, Restack;
    if statements == [] {
      NothingRestacks(s);
      assert forall k | 0 <= k <= |statements| :: statements[..k] == [];
    } else {
      var next := Apply(s, statements[0]);
      StepLegible(s, statements[0]);
      FirstOnly(s, statements);
      forall k | 1 <= k <= |statements| && !next.failed && Legible(s, statements[0])
        ensures RestacksTo(s, statements[..k]) <==> RestacksTo(next.state, statements[1..][..k - 1])
      {
        assert statements[..k][1..] == statements[1..][..k - 1];
        RestackConcat(s.stack, next.changes, Run(next.state, statements[1..][..k - 1]).changes);
      }
      if !next.failed {
        StackFollowed(next.state, statements[1..]);
        if AllLegible(s, statements) {
          forall k | 0 <= k <= |statements| ensures RestacksTo(s, statements[..k]) {
            if k == 0 {
              NothingRestacks(s);
            }
          }
        } else if Legible(s, statements[0]) {
          var j :| 0 <= j <= |statements[1..]| && !RestacksTo(next.state, statements[1..][..j]);
          assert !RestacksTo(s, statements[..j + 1]);
        }
      } else if Legible(s, statements[0]) {
        forall k | 0 <= k <= |statements| ensures RestacksTo(s, statements[..k]) {
          if k == 0 {
            NothingRestacks(s);
          }
        }
      }
    }
  }

  lemma NothingRestacks(s: State)
    ensures RestacksTo(s, [])
  {
  }

  lemma FirstOnly(s: State, statements: seq<Statement>)
    requires statements != []
    ensures RestacksTo(s, statements[..1]) <==>
            Restack(s.stack, Apply(s, statements[0]).changes) == Apply(s, statements[0]).state.stack
  {
    hide Apply, Restack;
    assert statements[..1] == [statements[0]] && [statements[0]][1..] == [];
    var first := Apply(s, statements[0]);
    assert first.changes + [] == first.changes;
    assert Run(first.state, []) == Quiet(first.state);
    assert Run(s, [statements[0]]) == first;
  }

  /** The names logged for one kind of synthetic object. */
  function Logged(changes: seq<Change>, property: Property): seq<Name> {
    if changes == [] then []
    else (if changes[0].property == property && changes[0].newValue.Text? then [changes[0].newValue.name] else []) +
         Logged(changes[1..], property)
  }

  /** All names but "absent", which is what an object not there is called. */
  function Telling(names: seq<Name>): seq<Name> {
    if names == [] then [] else (if names[0] == ABSENT then [] else [names[0]]) + Telling(names[1..])
  }

  function Objects(s: State, property: Property): seq<Name> {
    match property
    case Login => s.logins
    case Assembly => s.assemblies
    case Job => s.jobs
    case _ => []
  }

  lemma {:induction false} LoggedConcat(a: seq<Change>, b: seq<Change>, property: Property)
    ensures Logged(a + b, property) == Logged(a, property) + Logged(b, property)
  {
    if a == [] {
      assert a + b == b;
    } else {
      assert (a + b)[1..] == a[1..] + b;
      LoggedConcat(a[1..], b, property);
    }
  }

  lemma {:induction false} TellingConcat(a: seq<Name>, b: seq<Name>)
    ensures Telling(a + b) == Telling(a) + Telling(b)
  {
    if a == [] {
      assert a + b == b;
    } else {
      assert (a + b)[1..] == a[1..] + b;
      TellingConcat(a[1..], b);
    }
  }

  lemma {:induction false} TellingAll(names: seq<Name>)
    ensures |Telling(names)| <= |names|
    ensures Telling(names) == names <==> ABSENT !in names
  {
    if names != [] {
      TellingAll(names[1..]);
      assert names == [names[0]] + names[1..];
    }
  }

  /** The objects one state has and an earlier one had not. */
  function Newer(before: State, after: State, property: Property): seq<Name> {
    var old_, new_ := Objects(before, property), Objects(after, property);
    if |old_| <= |new_| then new_[|old_|..] else []
  }

  /** The name of the object a statement adds, if it adds one of this kind. */
  function Adds(st: Statement, property: Property): Option<Name> {
    if !Scoped(st) || st.executeAs.Some? || st.revert || st.begin || st.commit || st.rollback then None
    else if st.createLogin then (if property == Login then st.name else None)
    else if st.createAssembly then (if property == Assembly then st.name else None)
    else if property == Job then st.addJob else None
  }

  lemma ApplyAddsOne(s: State, st: Statement, property: Property)
    requires property in {Login, Assembly, Job}
    ensures
      var e, name := Apply(s, st), Adds(st, property);
      && Objects(e.state, property) == Objects(s, property) + (if name.Some? then [name.value] else [])
      && (name.Some? ==> e.changes == Log(property, Text(ABSENT), Text(name.value)))
      && (name.None? && e.changes != [] ==> |e.changes| == 1 && e.changes[0].property != property)
  {
    assert Objects(s, property) + [] == Objects(s, property);
  }

  lemma ApplyAdds(s: State, st: Statement, property: Property)
    requires property in {Login, Assembly, Job}
    ensures
      var e := Apply(s, st);
      && Objects(e.state, property) == Objects(s, property) + Newer(s, e.state, property)
      && Logged(e.changes, property) == Telling(Newer(s, e.state, property))
  {
    hide Apply, Adds, Objects;
    ApplyAddsOne(s, st, property);
    var e, name := Apply(s, st), Adds(st, property);
    var added := if name.Some? then [name.value] else [];
    assert Newer(s, e.state, property) == added;
    NothingAdded(property);
    if e.changes != [] {
      assert e.changes[1..] == [];
    }
    if added != [] {
      assert added[1..] == [];
    }
  }

  /**
   Over every run objects are only added, the log names those added in order but
   for any called "absent", and so it tells them all exactly if none is called that.
   */
  lemma {:induction false} RunAdds(s: State, statements: seq<Statement>, property: Property)
    requires property in {Login, Assembly, Job}
    ensures
      var e := Run(s, statements);
      var added := Newer(s, e.state, property);
      && Objects(e.state, property) == Objects(s, property) + added
      && Logged(e.changes, property) == Telling(added)
      && (Objects(e.state, property) == Objects(s, property) + Logged(e.changes, property) <==> ABSENT !in added)
    decreases |statements|
  {
    hide Apply, Objects, Logged, Telling;
    var e := Run(s, statements);
    if statements == [] {
      NothingAdded(property);
    } else {
      var first := Apply(s, statements[0]);
      ApplyAdds(s, statements[0], property);
      if !first.failed {
        var rest := Run(first.state, statements[1..]);
        RunAdds(first.state, statements[1..], property);
        LoggedConcat(first.changes, rest.changes, property);
        var a, b := Newer(s, first.state, property), Newer(first.state, rest.state, property);
        TellingConcat(a, b);
        ConcatAssoc(Objects(s, property), a, b);
        assert Newer(s, e.state, property) == a + b;
      }
    }
    TellingAll(Newer(s, e.state, property));
  }

  lemma NothingAdded(property: Property)
    ensures Logged([], property) == [] && Telling([]) == []
  {
  }

  // ----- The session object -----

  /** What a request accumulates. */
  class Outcome {
    var failed: bool
    var changes: seq<Change>

    constructor ()
      ensures !failed && changes == []
    {
      failed, changes := false, [];
    }

    method Record(property: Property, oldValue: Value, newValue: Value)
      modifies this`changes
      ensures changes == old(changes) + Log(property, oldValue, newValue)
    {
      if oldValue != newValue {
        changes := changes + [Change(property, oldValue, newValue)];
      } else {
        assert changes + [] == changes;
      }
    }
  }

  class SessionState {
    const login: Name
    var database: Name
    var effective: Name
    var depth: nat
    var xpCmdshell: bool
    var clr: bool
    var oleAutomation: bool
    var adHoc: bool
    var stack: seq<Name>
    var logins: seq<Name>
    var assemblies: seq<Name>
    var jobs: seq<Name>

    constructor (login: Name, database: Name)
      ensures Value() == State(Core(database, login, 0, false, false, false, false), [], [], [], [])
      ensures this.login == login && Original(Value()) == login
    {
      this.login, this.database, effective, depth := login, database, login, 0;
      xpCmdshell, clr, oleAutomation, adHoc := false, false, false, false;
      stack, logins, assemblies, jobs := [], [], [], [];
    }

    function Value(): State
      reads this
    {
      State(Core(database, effective, depth, xpCmdshell, clr, oleAutomation, adHoc), stack, logins, assemblies, jobs)
    }

    method WriteFlag(flag: Flag, on: bool) returns (was: bool)
      modifies this`xpCmdshell, this`clr, this`oleAutomation, this`adHoc
      ensures was == Get(old(Value()).core, flag)
      ensures Value() == old(Value()).(core := Set(old(Value()).core, flag, on))
    {
      match flag
      case XpCmdshell =>
        was := xpCmdshell;
        xpCmdshell := on;
      case Clr =>
        was := clr;
        clr := on;
      case OleAutomation =>
        was := oleAutomation;
        oleAutomation := on;
      case AdHoc =>
        was := adHoc;
        adHoc := on;
    }

    method SetFlag(st: Statement, outcome: Outcome)
      modifies this`xpCmdshell, this`clr, this`oleAutomation, this`adHoc, outcome`changes
      ensures Value() == Configure(old(Value()), st).state
      ensures outcome.changes == old(outcome.changes) + Configure(old(Value()), st).changes
      ensures !Configure(old(Value()), st).failed
    {
      hide Get, Set, Log;
      if st.flag.None? || st.setting.None? {
        assert outcome.changes + [] == outcome.changes;
        return;
      }
      var on := st.setting.value != 0;
      var was := WriteFlag(st.flag.value, on);
      outcome.Record(FlagOf(st.flag.value), Switch(was), Switch(on));
    }

    method ApplyStatement(st: Statement, outcome: Outcome)
      requires !outcome.failed
      modifies this, outcome
      ensures
        var e := Apply(old(Value()), st);
        Value() == e.state && outcome.changes == old(outcome.changes) + e.changes && outcome.failed == e.failed
    {
      hide Configure, Log, Impersonate, Transaction;
      assert outcome.changes + [] == outcome.changes;
      if st.blank {
        return;
      }
      if st.use.Some? {
        if st.known {
          outcome.Record(Database, Text(database), Text(st.use.value));
          database := st.use.value;
        } else {
          outcome.failed := true;
        }
        return;
      }
      if st.configure {
        SetFlag(st, outcome);
        return;
      }
      if st.reconfigure {
        return;
      }
      if st.cmdshell {
        outcome.failed := !xpCmdshell;
        return;
      }
      ApplyScoped(st, outcome);
    }

    /** The branches that impersonate and that count transactions. */
    method ApplyScoped(st: Statement, outcome: Outcome)
      requires !outcome.failed && !st.blank && st.use.None? && !st.configure && !st.reconfigure && !st.cmdshell
      modifies this, outcome
      ensures
        var e := Apply(old(Value()), st);
        Value() == e.state && outcome.changes == old(outcome.changes) + e.changes && outcome.failed == e.failed
    {
      hide Configure, Log;
      assert outcome.changes + [] == outcome.changes;
      if st.executeAs.Some? {
        stack := stack + [effective];
        outcome.Record(EffectiveLogin, Text(effective), Text(st.executeAs.value));
        effective := st.executeAs.value;
        return;
      }
      if st.revert {
        if stack != [] {
          var previous := stack[|stack| - 1];
          stack := stack[..|stack| - 1];
          outcome.Record(EffectiveLogin, Text(effective), Text(previous));
          effective := previous;
        }
        return;
      }
      if st.begin {
        var was := depth;
        depth := Min(was + 1, U32_MAX);
        outcome.Record(Depth, Number(was), Number(depth));
        return;
      }
      if st.commit || st.rollback {
        var was := depth;
        depth := if st.rollback || was == 0 then 0 else was - 1;
        outcome.Record(Depth, Number(was), Number(depth));
        return;
      }
      ApplySynthetic(st, outcome);
    }

    /** The branches that only add synthetic objects or give canned answers. */
    method ApplySynthetic(st: Statement, outcome: Outcome)
      requires !outcome.failed && !st.blank && st.use.None? && !st.configure && !st.reconfigure && !st.cmdshell
      requires st.executeAs.None? && !st.revert && !st.begin && !st.commit && !st.rollback
      modifies this`logins, this`assemblies, this`jobs, outcome
      ensures
        var e := Apply(old(Value()), st);
        Value() == e.state && outcome.changes == old(outcome.changes) + e.changes && outcome.failed == e.failed
    {
      hide Configure, Log, Impersonate, Transaction;
      assert outcome.changes + [] == outcome.changes;
      if st.createLogin {
        if st.name.Some? {
          logins := logins + [st.name.value];
          outcome.Record(Login, Text(ABSENT), Text(st.name.value));
        }
      } else if st.createAssembly {
        if st.name.Some? {
          assemblies := assemblies + [st.name.value];
          outcome.Record(Assembly, Text(ABSENT), Text(st.name.value));
        }
      } else if st.addJob.Some? {
        jobs := jobs + [st.addJob.value];
        outcome.Record(Job, Text(ABSENT), Text(st.addJob.value));
      } else if !st.answered {
        outcome.failed := st.unknownFails;
      }
    }

    /** A request: its statements in order, stopping at the first that fails. */
    method HandleSql(statements: seq<Statement>) returns (outcome: Outcome)
      modifies this
      ensures fresh(outcome)
      ensures
        var e := Run(old(Value()), statements);
        Value() == e.state && outcome.changes == e.changes && outcome.failed == e.failed
      ensures Replay(old(Value()).core, outcome.changes) == Some(Value().core)
      ensures Original(Value()) == Original(old(Value()))
    {
      hide Apply, Original, Replay;
      outcome := new Outcome();
      RunLogged(Value(), statements);
      ghost var all := Run(Value(), statements);
      assert statements[0..] == statements && [] + all.changes == all.changes;
      for i := 0 to |statements|
        invariant fresh(outcome) && !outcome.failed
        invariant
          var rest := Run(Value(), statements[i..]);
          all == Effect(rest.state, outcome.changes + rest.changes, rest.failed)
      {
        assert statements[i..][1..] == statements[i + 1..];
        ghost var first := Apply(Value(), statements[i]);
        ghost var rest := Run(first.state, statements[i + 1..]);
        ConcatAssoc(outcome.changes, first.changes, rest.changes);
        ApplyStatement(statements[i], outcome);
        if outcome.failed {
          return;
        }
      }
      assert outcome.changes + [] == outcome.changes;
    }
  }
}
