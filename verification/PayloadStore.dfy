/**
 Content-addressed payload capture as steps of concurrent tasks over one
 directory. Every await point of a capture is one step, so every interleaving of
 captures, every file-system fault and every outside deletion is some action list.
 */
module PayloadStore {
  import opened Bytes

  /** Names in the directory. A content address is an injective digest, so it is named by the payload itself. */
  datatype Path = Content(payload: Octets) | Staging(id: nat)

  datatype Outcome = Disabled | OverLimit | Stored | Duplicate | Disappeared | Corrupt | IoFault

  /** Where a capture stands: the next thing it will do to the directory. */
  datatype Phase =
    | Checking
    | Creating
    | Writing(id: nat, inode: nat, written: nat)
    | Linking(id: nat)
    | Rechecking(id: nat)
    | Removing(id: nat, verdict: Outcome)
    | Discarding(id: nat)
    | Done(outcome: Outcome)

  /** `published` records that this capture's own link made the content address visible. */
  datatype Capture = Capture(payload: Octets, phase: Phase, published: bool)

  /** Names lead to inodes and inodes hold bytes; `faulted` and `deleted` record what the outside world did. */
  datatype Store = Store(
    dir: map<Path, nat>,
    data: map<nat, Octets>,
    captures: map<nat, Capture>,
    faulted: bool,
    deleted: bool)

  datatype Config = Config(enabled: bool, maxBytes: nat)

  datatype Action =
    | Arrive(capture: nat, payload: Octets)
    | Check(capture: nat, fault: bool)
    | Create(capture: nat, id: nat, inode: nat, fault: bool)
    | Write(capture: nat, count: nat, fault: bool)
    | Link(capture: nat, fault: bool)
    | Recheck(capture: nat, fault: bool)
    | Remove(capture: nat, fault: bool)
    | DeleteContent(payload: Octets)

  datatype Lookup = Present | Absent | Mismatch

  /** The size test on a content address. */
  function StoredPayloadExists(s: Store, payload: Octets): Lookup {
    if Content(payload) !in s.dir then Absent
    else if s.dir[Content(payload)] in s.data && |s.data[s.dir[Content(payload)]]| == |payload| then Present
    else Mismatch
  }

  function Move(s: Store, c: nat, phase: Phase): Store
    requires c in s.captures
  {
    s.(captures := s.captures[c := s.captures[c].(phase := phase)])
  }

  function Fault(s: Store, c: nat, phase: Phase): Store
    requires c in s.captures
  {
    Move(s, c, phase).(faulted := true)
  }

  function Begin(config: Config, payload: Octets): Capture {
    var phase := if !config.enabled then Done(Disabled)
                 else if |payload| > config.maxBytes then Done(OverLimit)
                 else Checking;
    Capture(payload, phase, false)
  }

  function CheckStep(s: Store, c: nat, fault: bool): Store
    requires c in s.captures
  {
    if fault then Fault(s, c, Done(IoFault)) else
    match StoredPayloadExists(s, s.captures[c].payload)
    case Present => Move(s, c, Done(Duplicate))
    case Absent => Move(s, c, Creating)
    case Mismatch => Move(s, c, Done(Corrupt))
  }

  /** Exclusive creation: an existing name is an error like any other. */
  function CreateStep(s: Store, c: nat, id: nat, inode: nat, fault: bool): Store
    requires c in s.captures && inode !in s.data
  {
    if fault || Staging(id) in s.dir then Fault(s, c, Done(IoFault))
    else Move(s, c, Writing(id, inode, 0)).(dir := s.dir[Staging(id) := inode], data := s.data[inode := []])
  }

  /** The next part of the payload reaches the file; the last part completes it. */
  function WriteStep(s: Store, c: nat, count: nat, fault: bool): Store
    requires c in s.captures && s.captures[c].phase.Writing? && s.captures[c].phase.inode in s.data
  {
    var capture := s.captures[c];
    var Writing(id, inode, written) := capture.phase;
    if fault then Fault(s, c, Discarding(id))
    else if written >= |capture.payload| then Move(s, c, Linking(id))
    else
      var end := Min(written + count, |capture.payload|);
      Move(s, c, Writing(id, inode, end)).(
        data := s.data[inode := s.data[inode] + capture.payload[written..end]])
  }

  /** An atomic link that never replaces an existing name. */
  function LinkStep(s: Store, c: nat, fault: bool): Store
    requires c in s.captures && s.captures[c].phase.Linking?
  {
    var capture := s.captures[c];
    var id := capture.phase.id;
    if fault || Staging(id) !in s.dir then Fault(s, c, Removing(id, IoFault))
    else if Content(capture.payload) in s.dir then Move(s, c, Rechecking(id))
    else
      s.(dir := s.dir[Content(capture.payload) := s.dir[Staging(id)]],
         captures := s.captures[c := Capture(capture.payload, Removing(id, Stored), true)])
  }

  function RecheckStep(s: Store, c: nat, fault: bool): Store
    requires c in s.captures && s.captures[c].phase.Rechecking?
  {
    var capture := s.captures[c];
    var id := capture.phase.id;
    if fault then Fault(s, c, Removing(id, IoFault)) else
    match StoredPayloadExists(s, capture.payload)
    case Present => Move(s, c, Removing(id, Duplicate))
    case Absent => Move(s, c, Removing(id, Disappeared))
    case Mismatch => Move(s, c, Removing(id, Corrupt))
  }

  /** Cleanup: its own failure is reported only if publication went well, and ignored after a failed write. */
  function RemoveStep(s: Store, c: nat, fault: bool): Store
    requires c in s.captures && (s.captures[c].phase.Removing? || s.captures[c].phase.Discarding?)
  {
    var phase := s.captures[c].phase;
    var failed := fault || Staging(phase.id) !in s.dir;
    var after := if failed then s.(faulted := true) else s.(dir := s.dir - {Staging(phase.id)});
    var outcome := if phase.Discarding? then IoFault
                   else if failed && phase.verdict in {Stored, Duplicate} then IoFault
                   else phase.verdict;
    Move(after, c, Done(outcome))
  }

  /** One step; an action that does not apply leaves the store alone. */
  function Step(config: Config, s: Store, a: Action): Store {
    match a
    case Arrive(c, payload) =>
      if c in s.captures then s else s.(captures := s.captures[c := Begin(config, payload)])
    case Check(c, fault) =>
      if c in s.captures && s.captures[c].phase.Checking? then CheckStep(s, c, fault) else s
    case Create(c, id, inode, fault) =>
      if c in s.captures && s.captures[c].phase.Creating? && inode !in s.data
      then CreateStep(s, c, id, inode, fault) else s
    case Write(c, count, fault) =>
      if c in s.captures && s.captures[c].phase.Writing? && s.captures[c].phase.inode in s.data
      then WriteStep(s, c, count, fault) else s
    case Link(c, fault) =>
      if c in s.captures && s.captures[c].phase.Linking? then LinkStep(s, c, fault) else s
    case Recheck(c, fault) =>
      if c in s.captures && s.captures[c].phase.Rechecking? then RecheckStep(s, c, fault) else s
    case Remove(c, fault) =>
      if c in s.captures && (s.captures[c].phase.Removing? || s.captures[c].phase.Discarding?)
      then RemoveStep(s, c, fault) else s
    case DeleteContent(payload) =>
      if Content(payload) in s.dir then s.(dir := s.dir - {Content(payload)}, deleted := true) else s
  }

  function Run(config: Config, s: Store, actions: seq<Action>): Store
    decreases |actions|
  {
    if actions == [] then s else Run(config, Step(config, s, actions[0]), actions[1..])
  }

  // ----- What every reachable store keeps -----

  predicate Owns(capture: Capture) {
    var p := capture.phase;
    p.Writing? || p.Linking? || p.Rechecking? || p.Removing? || p.Discarding?
  }

  function Verdict(phase: Phase): Option<Outcome> {
    match phase
    case Removing(_, verdict) => Some(verdict)
    case Done(outcome) => Some(outcome)
    case Checking => None
    case Creating => None
    case Writing(_, _, _) => None
    case Linking(_) => None
    case Rechecking(_) => None
    case Discarding(_) => None
  }

  predicate Refuses(config: Config, payload: Octets) {
    !config.enabled || |payload| > config.maxBytes
  }

  /** What each name led to before the first capture. */
  type Listing = map<Path, Octets>

  /** A file of another size than its address says: what the size test can notice. */
  predicate Damaged(initial: Listing, p: Octets) {
    Content(p) in initial && |initial[Content(p)]| != |p|
  }

  /**
   A visible content address holds its complete payload or what it held before
   the first capture, and the latter for certain as long as nothing is deleted.
   */
  ghost predicate Files(initial: Listing, s: Store) {
    && (forall path | path in s.dir :: s.dir[path] in s.data)
    && (forall p | Content(p) in s.dir ::
          var held := s.data[s.dir[Content(p)]];
          held == p || (Content(p) in initial && held == initial[Content(p)]))
    && (!s.deleted ==> forall p | Content(p) in initial ::
          Content(p) in s.dir && s.data[s.dir[Content(p)]] == initial[Content(p)])
  }

  /** A live capture's staging file is its own, and holds exactly what it has written. */
  ghost predicate OwnFile(s: Store, capture: Capture) {
    Owns(capture) ==>
      && Staging(capture.phase.id) in s.dir
      && s.dir[Staging(capture.phase.id)] in s.data
      && (capture.phase.Writing? ==>
            && s.dir[Staging(capture.phase.id)] == capture.phase.inode
            && capture.phase.written <= |capture.payload|
            && s.data[capture.phase.inode] == capture.payload[..capture.phase.written]
            && (forall path | path in s.dir && path != Staging(capture.phase.id) ::
                  s.dir[path] != capture.phase.inode))
      && (capture.phase.Linking? ==> s.data[s.dir[Staging(capture.phase.id)]] == capture.payload)
  }

  /** Not yet looked, or done without having stored or found the payload. */
  predicate Undone(phase: Phase) {
    phase.Checking? || (phase.Done? && phase.outcome in {Corrupt, IoFault, Disabled, OverLimit})
  }

  /** What a capture's phase says about the directory, given what the outside world did. */
  ghost predicate Sound(config: Config, initial: Listing, s: Store, capture: Capture) {
    var verdict := Verdict(capture.phase);
    && (capture.published ==> verdict == Some(Stored) || capture.phase == Done(IoFault))
    && (verdict == Some(Stored) ==> capture.published)
    && (verdict == Some(Corrupt) ==> Damaged(initial, capture.payload))
    && (verdict == Some(Disabled) || verdict == Some(OverLimit) <==> Refuses(config, capture.payload))
    && (!s.faulted ==> verdict != Some(IoFault) && !capture.phase.Discarding?)
    && (!s.deleted ==>
          && verdict != Some(Disappeared)
          && (Damaged(initial, capture.payload) ==> Undone(capture.phase))
          && (capture.published ==> Content(capture.payload) !in initial)
          && (capture.published || capture.phase.Rechecking? || verdict == Some(Duplicate) ==>
                Content(capture.payload) in s.dir))
  }

  ghost predicate Fits(config: Config, initial: Listing, s: Store, capture: Capture) {
    OwnFile(s, capture) && Sound(config, initial, s, capture)
  }

  ghost predicate Distinct(s: Store) {
    forall c, d | c in s.captures && d in s.captures && c != d && Owns(s.captures[c]) && Owns(s.captures[d]) ::
      s.captures[c].phase.id != s.captures[d].phase.id
  }

  ghost predicate Publishes(s: Store, c: nat, p: Octets) {
    c in s.captures && s.captures[c].published && s.captures[c].payload == p
  }

  /** Without deletions, a content address is an initial one or has exactly one publisher. */
  ghost predicate Published(initial: Listing, s: Store) {
    !s.deleted ==>
      && (forall p, c, d | Publishes(s, c, p) && Publishes(s, d, p) :: c == d)
      && (forall p | Content(p) in s.dir && Content(p) !in initial :: exists c :: Publishes(s, c, p))
  }

  ghost predicate Holds(s: Store, c: nat, id: nat) {
    c in s.captures && Owns(s.captures[c]) && s.captures[c].phase.id == id
  }

  /** Without faults, a staging file is an initial one or belongs to a live capture. */
  ghost predicate Tidy(initial: Listing, s: Store) {
    !s.faulted ==>
      forall id | Staging(id) in s.dir && Staging(id) !in initial :: exists c :: Holds(s, c, id)
  }

  ghost predicate Inv(config: Config, initial: Listing, s: Store) {
    && Files(initial, s)
    && (forall c | c in s.captures :: Fits(config, initial, s, s.captures[c]))
    && Distinct(s)
    && Published(initial, s)
    && Tidy(initial, s)
  }

  // ----- Steps that only move a capture on -----

  /** A step that replaces capture `c` is judged piece by piece. */
  lemma Assemble(config: Config, initial: Listing, s: Store, t: Store, c: nat, capture: Capture)
    requires Distinct(s) && t.captures == s.captures[c := capture]
    requires Files(initial, t) && Published(initial, t) && Tidy(initial, t)
    requires Fits(config, initial, t, capture)
    requires forall d | d in s.captures && d != c :: Fits(config, initial, t, s.captures[d])
    requires Owns(capture) ==> forall d | d in s.captures && d != c :: !Holds(s, d, capture.phase.id)
    ensures Inv(config, initial, t)
  {
    hide Files, Published, Tidy, Fits;
    forall d, e | d in t.captures && e in t.captures && d != e && Owns(t.captures[d]) && Owns(t.captures[e])
      ensures t.captures[d].phase.id != t.captures[e].phase.id
    {
      if d == c {
        assert !Holds(s, e, capture.phase.id);
      } else if e == c {
        assert !Holds(s, d, capture.phase.id);
      }
    }
  }

  lemma SamePublished(initial: Listing, s: Store, t: Store)
    requires Published(initial, s) && s.deleted == t.deleted
    requires forall p :: Content(p) in s.dir <==> Content(p) in t.dir
    requires forall c, p :: Publishes(s, c, p) <==> Publishes(t, c, p)
    ensures Published(initial, t)
  {
    hide Publishes;
  }

  lemma SameTidy(initial: Listing, s: Store, t: Store)
    requires Tidy(initial, s) && (s.faulted ==> t.faulted)
    requires forall id | Staging(id) in t.dir :: Staging(id) in s.dir
    requires !t.faulted ==> forall c, id | Holds(s, c, id) && Staging(id) in t.dir :: Holds(t, c, id)
    ensures Tidy(initial, t)
  {
    hide Holds;
  }

  /** Changing one capture's phase keeps the invariant if the new phase fits the directory. */
  lemma MoveKeeps(config: Config, initial: Listing, s: Store, c: nat, phase: Phase, faulted: bool)
    requires Inv(config, initial, s) && c in s.captures
    requires s.faulted ==> faulted
    requires
      var next := s.captures[c].(phase := phase);
      && Fits(config, initial, s.(faulted := faulted), next)
      && (Owns(next) ==> Owns(s.captures[c]) && s.captures[c].phase.id == phase.id)
      && (!faulted && Owns(s.captures[c]) ==> Owns(next))
    ensures Inv(config, initial, Move(s, c, phase).(faulted := faulted))
  {
    hide Published, Tidy;
    var t := Move(s, c, phase).(faulted := faulted);
    SamePublished(initial, s, t);
    SameTidy(initial, s, t);
    Assemble(config, initial, s, t, c, s.captures[c].(phase := phase));
  }

  lemma CheckKeeps(config: Config, initial: Listing, s: Store, c: nat, fault: bool)
    requires Inv(config, initial, s) && c in s.captures && s.captures[c].phase.Checking?
    ensures Inv(config, initial, CheckStep(s, c, fault))
  {
    if fault {
      MoveKeeps(config, initial, s, c, Done(IoFault), true);
    } else {
      match StoredPayloadExists(s, s.captures[c].payload)
      case Present => MoveKeeps(config, initial, s, c, Done(Duplicate), s.faulted);
      case Absent => MoveKeeps(config, initial, s, c, Creating, s.faulted);
      case Mismatch => MoveKeeps(config, initial, s, c, Done(Corrupt), s.faulted);
    }
  }

  lemma RecheckKeeps(config: Config, initial: Listing, s: Store, c: nat, fault: bool)
    requires Inv(config, initial, s) && c in s.captures && s.captures[c].phase.Rechecking?
    ensures Inv(config, initial, RecheckStep(s, c, fault))
  {
    var id := s.captures[c].phase.id;
    if fault {
      MoveKeeps(config, initial, s, c, Removing(id, IoFault), true);
    } else {
      match StoredPayloadExists(s, s.captures[c].payload)
      case Present => MoveKeeps(config, initial, s, c, Removing(id, Duplicate), s.faulted);
      case Absent => MoveKeeps(config, initial, s, c, Removing(id, Disappeared), s.faulted);
      case Mismatch => MoveKeeps(config, initial, s, c, Removing(id, Corrupt), s.faulted);
    }
  }

  // ----- Steps that change the directory -----

  lemma ArriveKeeps(config: Config, initial: Listing, s: Store, c: nat, payload: Octets)
    requires Inv(config, initial, s) && c !in s.captures
    ensures Inv(config, initial, s.(captures := s.captures[c := Begin(config, payload)]))
  {
    hide Published, Tidy;
    var t := s.(captures := s.captures[c := Begin(config, payload)]);
    SamePublished(initial, s, t);
    SameTidy(initial, s, t);
    Assemble(config, initial, s, t, c, Begin(config, payload));
  }

  lemma CreateKeeps(config: Config, initial: Listing, s: Store, c: nat, id: nat, inode: nat, fault: bool)
    requires Inv(config, initial, s) && c in s.captures && s.captures[c].phase.Creating? && inode !in s.data
    ensures Inv(config, initial, CreateStep(s, c, id, inode, fault))
  {
    hide Published, Tidy;
    if fault || Staging(id) in s.dir {
      MoveKeeps(config, initial, s, c, Done(IoFault), true);
    } else {
      var t := CreateStep(s, c, id, inode, fault);
      CreateBooks(config, initial, s, c, id, inode);
      CreatedFits(config, initial, s, c, id, inode);
      forall d | d in s.captures && d != c ensures Fits(config, initial, t, s.captures[d]) {
        CreateSpares(config, initial, s, c, id, inode, d);
      }
      forall d | d in s.captures && d != c ensures !Holds(s, d, id) {
        assert Fits(config, initial, s, s.captures[d]);
      }
      hide Fits, Files;
      Assemble(config, initial, s, t, c, t.captures[c]);
    }
  }

  lemma CreateBooks(config: Config, initial: Listing, s: Store, c: nat, id: nat, inode: nat)
    requires Inv(config, initial, s) && c in s.captures && s.captures[c].phase.Creating? && inode !in s.data
    requires Staging(id) !in s.dir
    ensures
      var t := CreateStep(s, c, id, inode, false);
      Published(initial, t) && Tidy(initial, t)
  {
    hide Published, Files, Fits, Distinct;
    var t := CreateStep(s, c, id, inode, false);
    SamePublished(initial, s, t);
    assert Holds(t, c, id);
    assert forall d, other | Holds(s, d, other) :: Holds(t, d, other);
  }

  lemma CreatedFits(config: Config, initial: Listing, s: Store, c: nat, id: nat, inode: nat)
    requires Inv(config, initial, s) && c in s.captures && s.captures[c].phase.Creating? && inode !in s.data
    requires Staging(id) !in s.dir
    ensures
      var t := CreateStep(s, c, id, inode, false);
      Files(initial, t) && Fits(config, initial, t, t.captures[c])
  {
    hide Published, Tidy, Distinct;
    assert Fits(config, initial, s, s.captures[c]);
  }

  lemma CreateSpares(config: Config, initial: Listing, s: Store, c: nat, id: nat, inode: nat, d: nat)
    requires Inv(config, initial, s) && c in s.captures && s.captures[c].phase.Creating? && inode !in s.data
    requires Staging(id) !in s.dir && d in s.captures && d != c
    ensures Fits(config, initial, CreateStep(s, c, id, inode, false), s.captures[d])
  {
    hide Published, Tidy, Distinct;
    assert Fits(config, initial, s, s.captures[d]);
  }

  lemma WriteSpares(config: Config, initial: Listing, s: Store, c: nat, count: nat, d: nat)
    requires Inv(config, initial, s) && c in s.captures && s.captures[c].phase.Writing?
    requires d in s.captures && d != c
    ensures s.captures[c].phase.inode in s.data
    ensures Fits(config, initial, WriteStep(s, c, count, false), s.captures[d])
  {
    hide Published, Tidy;
    assert Fits(config, initial, s, s.captures[c]) && Fits(config, initial, s, s.captures[d]);
    if Owns(s.captures[d]) {
      assert s.dir[Staging(s.captures[d].phase.id)] != s.captures[c].phase.inode;
    }
  }

  lemma WrittenFits(config: Config, initial: Listing, s: Store, c: nat, count: nat)
    requires Inv(config, initial, s) && c in s.captures && s.captures[c].phase.Writing?
    requires s.captures[c].phase.written < |s.captures[c].payload|
    ensures s.captures[c].phase.inode in s.data && Files(initial, WriteStep(s, c, count, false))
    ensures Fits(config, initial, WriteStep(s, c, count, false), WriteStep(s, c, count, false).captures[c])
  {
    hide Published, Tidy, Distinct;
    assert Fits(config, initial, s, s.captures[c]);
    var payload, written := s.captures[c].payload, s.captures[c].phase.written;
    var end := Min(written + count, |payload|);
    assert payload[..written] + payload[written..end] == payload[..end];
  }

  lemma WriteKeeps(config: Config, initial: Listing, s: Store, c: nat, count: nat, fault: bool)
    requires Inv(config, initial, s) && c in s.captures && s.captures[c].phase.Writing?
    ensures s.captures[c].phase.inode in s.data
    ensures Inv(config, initial, WriteStep(s, c, count, fault))
  {
    hide Published, Tidy;
    var Writing(id, inode, written) := s.captures[c].phase;
    var payload := s.captures[c].payload;
    assert Fits(config, initial, s, s.captures[c]);
    if fault {
      MoveKeeps(config, initial, s, c, Discarding(id), true);
    } else if written >= |payload| {
      assert payload[..written] == payload;
      MoveKeeps(config, initial, s, c, Linking(id), s.faulted);
    } else {
      var t := WriteStep(s, c, count, fault);
      var end := Min(written + count, |payload|);
      assert payload[..written] + payload[written..end] == payload[..end];
      SamePublished(initial, s, t);
      SameTidy(initial, s, t);
      forall d | d in s.captures && d != c ensures Fits(config, initial, t, s.captures[d]) {
        WriteSpares(config, initial, s, c, count, d);
      }
      forall d | d in s.captures && d != c ensures !Holds(s, d, id) {}
      WrittenFits(config, initial, s, c, count);
      hide Fits;
      Assemble(config, initial, s, t, c, t.captures[c]);
    }
  }

  lemma LinkKeeps(config: Config, initial: Listing, s: Store, c: nat, fault: bool)
    requires Inv(config, initial, s) && c in s.captures && s.captures[c].phase.Linking?
    ensures Inv(config, initial, LinkStep(s, c, fault))
  {
    var capture := s.captures[c];
    var id := capture.phase.id;
    if fault {
      MoveKeeps(config, initial, s, c, Removing(id, IoFault), true);
    } else if Content(capture.payload) in s.dir {
      MoveKeeps(config, initial, s, c, Rechecking(id), s.faulted);
    } else {
      LinkPublishes(config, initial, s, c);
    }
  }

  lemma LinkPublishes(config: Config, initial: Listing, s: Store, c: nat)
    requires Inv(config, initial, s) && c in s.captures && s.captures[c].phase.Linking?
    requires Content(s.captures[c].payload) !in s.dir
    ensures Inv(config, initial, LinkStep(s, c, false))
  {
    var t := LinkStep(s, c, false);
    LinkBooks(config, initial, s, c);
    forall d | d in s.captures && d != c ensures Fits(config, initial, t, s.captures[d]) {}
    hide Published, Tidy;
    Assemble(config, initial, s, t, c, t.captures[c]);
  }

  lemma LinkBooks(config: Config, initial: Listing, s: Store, c: nat)
    requires Inv(config, initial, s) && c in s.captures && s.captures[c].phase.Linking?
    requires Content(s.captures[c].payload) !in s.dir
    ensures Published(initial, LinkStep(s, c, false)) && Tidy(initial, LinkStep(s, c, false))
  {
    var t, capture := LinkStep(s, c, false), s.captures[c];
    assert Fits(config, initial, s, capture);
    hide Files, Distinct;
    assert Published(initial, t) by {
      assert Publishes(t, c, capture.payload);
      assert forall p, d :: Publishes(t, d, p) <==> Publishes(s, d, p) || (d == c && p == capture.payload);
    }
    SameTidy(initial, s, t);
  }

  lemma RemoveSpares(config: Config, initial: Listing, s: Store, c: nat, d: nat)
    requires Inv(config, initial, s) && c in s.captures
    requires s.captures[c].phase.Removing? || s.captures[c].phase.Discarding?
    requires d in s.captures && d != c
    ensures Fits(config, initial, RemoveStep(s, c, false), s.captures[d])
  {
    hide Published, Tidy;
    assert Fits(config, initial, s, s.captures[c]) && Fits(config, initial, s, s.captures[d]);
  }

  lemma RemovedFits(config: Config, initial: Listing, s: Store, c: nat)
    requires Inv(config, initial, s) && c in s.captures
    requires s.captures[c].phase.Removing? || s.captures[c].phase.Discarding?
    ensures Files(initial, RemoveStep(s, c, false))
    ensures Fits(config, initial, RemoveStep(s, c, false), RemoveStep(s, c, false).captures[c])
  {
    hide Published, Tidy, Distinct;
    assert Fits(config, initial, s, s.captures[c]);
  }

  lemma RemoveBooks(config: Config, initial: Listing, s: Store, c: nat)
    requires Inv(config, initial, s) && c in s.captures
    requires s.captures[c].phase.Removing? || s.captures[c].phase.Discarding?
    ensures Published(initial, RemoveStep(s, c, false)) && Tidy(initial, RemoveStep(s, c, false))
  {
    hide Published, Tidy, Distinct, Files;
    var t := RemoveStep(s, c, false);
    assert OwnFile(s, s.captures[c]) by { assert Fits(config, initial, s, s.captures[c]); }
    SamePublished(initial, s, t);
    SameTidy(initial, s, t);
  }

  lemma RemoveKeeps(config: Config, initial: Listing, s: Store, c: nat, fault: bool)
    requires Inv(config, initial, s) && c in s.captures
    requires s.captures[c].phase.Removing? || s.captures[c].phase.Discarding?
    ensures Inv(config, initial, RemoveStep(s, c, fault))
  {
    hide Published, Tidy;
    var t := RemoveStep(s, c, fault);
    assert Fits(config, initial, s, s.captures[c]);
    if fault {
      MoveKeeps(config, initial, s, c, t.captures[c].phase, true);
    } else {
      RemoveBooks(config, initial, s, c);
      forall d | d in s.captures && d != c ensures Fits(config, initial, t, s.captures[d]) {
        RemoveSpares(config, initial, s, c, d);
      }
      RemovedFits(config, initial, s, c);
      hide Fits;
      Assemble(config, initial, s, t, c, t.captures[c]);
    }
  }

  lemma DeleteKeeps(config: Config, initial: Listing, s: Store, payload: Octets)
    requires Inv(config, initial, s) && Content(payload) in s.dir
    ensures Inv(config, initial, s.(dir := s.dir - {Content(payload)}, deleted := true))
  {
    var t := s.(dir := s.dir - {Content(payload)}, deleted := true);
    SameTidy(initial, s, t);
    forall d | d in s.captures ensures Fits(config, initial, t, s.captures[d]) {}
  }

  // ----- Every run -----

  lemma StepKeeps(config: Config, initial: Listing, s: Store, a: Action)
    requires Inv(config, initial, s)
    ensures Inv(config, initial, Step(config, s, a))
  {
    hide Inv, CheckStep, CreateStep, WriteStep, LinkStep, RecheckStep, RemoveStep, Begin;
    match a
    case Arrive(c, payload) =>
      if c !in s.captures { ArriveKeeps(config, initial, s, c, payload); }
    case Check(c, fault) =>
      if c in s.captures && s.captures[c].phase.Checking? { CheckKeeps(config, initial, s, c, fault); }
    case Create(c, id, inode, fault) =>
      if c in s.captures && s.captures[c].phase.Creating? && inode !in s.data {
        CreateKeeps(config, initial, s, c, id, inode, fault);
      }
    case Write(c, count, fault) =>
      if c in s.captures && s.captures[c].phase.Writing? { WriteKeeps(config, initial, s, c, count, fault); }
    case Link(c, fault) =>
      if c in s.captures && s.captures[c].phase.Linking? { LinkKeeps(config, initial, s, c, fault); }
    case Recheck(c, fault) =>
      if c in s.captures && s.captures[c].phase.Rechecking? { RecheckKeeps(config, initial, s, c, fault); }
    case Remove(c, fault) =>
      if c in s.captures && (s.captures[c].phase.Removing? || s.captures[c].phase.Discarding?) {
        RemoveKeeps(config, initial, s, c, fault);
      }
    case DeleteContent(payload) =>
      if Content(payload) in s.dir { DeleteKeeps(config, initial, s, payload); }
  }

  /** Any directory of files, before the first capture: whatever they hold under whatever name. */
  ghost predicate Initial(s: Store) {
    && (forall path | path in s.dir :: s.dir[path] in s.data)
    && s.captures == map[] && !s.faulted && !s.deleted
  }

  function Listed(s: Store): Listing
    requires forall path | path in s.dir :: s.dir[path] in s.data
  {
    map path | path in s.dir :: s.data[s.dir[path]]
  }

  lemma RunFromStart(config: Config, start: Store, actions: seq<Action>)
    requires Initial(start)
    ensures Inv(config, Listed(start), Run(config, start, actions))
  {
    RunKeeps(config, Listed(start), start, actions);
  }

  lemma {:induction false} RunKeeps(config: Config, initial: Listing, s: Store, actions: seq<Action>)
    requires Inv(config, initial, s)
    ensures Inv(config, initial, Run(config, s, actions))
    decreases |actions|
  {
    if actions != [] {
      StepKeeps(config, initial, s, actions[0]);
      RunKeeps(config, initial, Step(config, s, actions[0]), actions[1..]);
    }
  }

  ghost predicate Reports(s: Store, c: nat, p: Octets, outcome: Outcome) {
    c in s.captures && s.captures[c].payload == p && s.captures[c].phase == Done(outcome)
  }

  /**
   In every run, faults and deletions included: a visible content address holds
   its whole payload, or what it held before the first capture, and a capture
   finds it corrupt only if that was of another size. Without deletions no
   capture finds it gone, and at most one capture of a payload reports it new,
   none if the address was there from the start.
   */
  lemma EveryRunIsSafe(config: Config, start: Store, actions: seq<Action>, p: Octets, c: nat, d: nat)
    requires Initial(start)
    ensures
      var s, initial := Run(config, start, actions), Listed(start);
      && (Content(p) in s.dir ==>
            && s.dir[Content(p)] in s.data
            && (|| s.data[s.dir[Content(p)]] == p
                || (Content(p) in initial && s.data[s.dir[Content(p)]] == initial[Content(p)])))
      && (Reports(s, c, p, Corrupt) ==> Damaged(initial, p))
      && (!s.deleted ==> !Reports(s, c, p, Disappeared))
      && (!s.deleted && Reports(s, c, p, Stored) ==> Content(p) in s.dir && Content(p) !in start.dir)
      && (!s.deleted && Reports(s, c, p, Stored) && Reports(s, d, p, Stored) ==> c == d)
  {
    RunFromStart(config, start, actions);
    hide Run, OwnFile, Distinct, Tidy;
    var s, initial := Run(config, start, actions), Listed(start);
    assert c in s.captures ==> Fits(config, initial, s, s.captures[c]);
    assert d in s.captures ==> Fits(config, initial, s, s.captures[d]);
    if !s.deleted && Reports(s, c, p, Stored) && Reports(s, d, p, Stored) {
      assert Publishes(s, c, p) && Publishes(s, d, p);
    }
  }

  /** How a capture ends in a store that met no fault and no deletion. */
  lemma EndsWell(config: Config, initial: Listing, s: Store, capture: Capture)
    requires Sound(config, initial, s, capture) && capture.phase.Done?
    requires !s.faulted && !s.deleted && !Refuses(config, capture.payload)
    ensures
      if Damaged(initial, capture.payload) then capture.phase == Done(Corrupt)
      else capture.phase.outcome in {Stored, Duplicate} && Content(capture.payload) in s.dir
  {
    var outcome := capture.phase.outcome;
    assert outcome.Disabled? || outcome.OverLimit? || outcome.Stored? || outcome.Duplicate? ||
           outcome.Disappeared? || outcome.Corrupt? || outcome.IoFault?;
  }

  /**
   Without faults and deletions a finished capture reports corruption exactly if
   its address held a file of another size from the start. Any other reports
   success, and then the address holds the payload exactly if it did not hold
   other bytes from the start: ones of the same size pass for the payload.
   */
  lemma CorruptionReported(config: Config, start: Store, actions: seq<Action>, c: nat)
    requires Initial(start)
    requires
      var s := Run(config, start, actions);
      && !s.faulted && !s.deleted && c in s.captures && s.captures[c].phase.Done?
      && !Refuses(config, s.captures[c].payload)
    ensures
      var s, initial := Run(config, start, actions), Listed(start);
      var p := s.captures[c].payload;
      && (Reports(s, c, p, Corrupt) <==> Damaged(initial, p))
      && (!Damaged(initial, p) ==>
            && (Reports(s, c, p, Stored) || Reports(s, c, p, Duplicate))
            && Content(p) in s.dir && s.dir[Content(p)] in s.data
            && (s.data[s.dir[Content(p)]] == p <==> Content(p) !in initial || initial[Content(p)] == p))
  {
    RunFromStart(config, start, actions);
    var s, initial := Run(config, start, actions), Listed(start);
    hide Run, OwnFile, Distinct, Tidy, Published;
    assert Fits(config, initial, s, s.captures[c]);
    EndsWell(config, initial, s, s.captures[c]);
  }

  /** Bytes of the right size under an address that is not theirs pass for a duplicate. */
  lemma ForgedPasses(config: Config, start: Store, p: Octets, c: nat)
    requires Initial(start) && !Refuses(config, p)
    requires Content(p) in start.dir && Listed(start)[Content(p)] != p && !Damaged(Listed(start), p)
    ensures
      var s := Run(config, start, [Arrive(c, p), Check(c, false)]);
      Reports(s, c, p, Duplicate) && s.dir == start.dir && s.data == start.data
  {
    hide Run;
    var actions := [Arrive(c, p), Check(c, false)];
    assert actions[0..] == actions;
    RunFrom(config, start, actions, 0);
    var s1 := Step(config, start, actions[0]);
    RunFrom(config, s1, actions, 1);
    RunNothing(config, Step(config, s1, actions[1]), actions[2..]);
  }

  /**
   A run without faults or deletions in which every capture has finished: each
   accepted capture reports Stored or Duplicate, or Corrupt if its address was
   damaged, the directory has gained exactly the captured payloads and no
   staging file, and each payload gained was reported new by exactly one capture.
   */
  lemma CompletedRun(config: Config, start: Store, actions: seq<Action>)
    requires Initial(start)
    requires
      var s := Run(config, start, actions);
      !s.faulted && !s.deleted && forall c | c in s.captures :: s.captures[c].phase.Done?
    ensures
      var s := Run(config, start, actions);
      && (forall c | c in s.captures && !Refuses(config, s.captures[c].payload) ::
            if Damaged(Listed(start), s.captures[c].payload) then s.captures[c].phase == Done(Corrupt)
            else s.captures[c].phase.outcome in {Stored, Duplicate} && Content(s.captures[c].payload) in s.dir)
      && (forall id | Staging(id) in s.dir :: Staging(id) in start.dir)
      && (forall p | Content(p) in start.dir :: Content(p) in s.dir)
      && (forall p | Content(p) in s.dir && Content(p) !in start.dir ::
            exists c :: Reports(s, c, p, Stored) && forall d | Reports(s, d, p, Stored) :: d == c)
  {
    RunFromStart(config, start, actions);
    var s, initial := Run(config, start, actions), Listed(start);
    hide Run, OwnFile, Distinct;
    forall c | c in s.captures && !Refuses(config, s.captures[c].payload)
      ensures
        if Damaged(initial, s.captures[c].payload) then s.captures[c].phase == Done(Corrupt)
        else s.captures[c].phase.outcome in {Stored, Duplicate} && Content(s.captures[c].payload) in s.dir
    {
      assert Fits(config, initial, s, s.captures[c]);
      EndsWell(config, initial, s, s.captures[c]);
    }
    forall id | Staging(id) in s.dir ensures Staging(id) in start.dir {
      assert forall c :: !Holds(s, c, id);
    }
    forall p | Content(p) in s.dir && Content(p) !in start.dir
      ensures exists c :: Reports(s, c, p, Stored) && forall d | Reports(s, d, p, Stored) :: d == c
    {
      OnePublisher(config, initial, s, p);
    }
  }

  lemma OnePublisher(config: Config, initial: Listing, s: Store, p: Octets)
    requires Inv(config, initial, s) && !s.faulted && !s.deleted && Content(p) in s.dir && Content(p) !in initial
    requires forall c | c in s.captures :: s.captures[c].phase.Done?
    ensures exists c :: Reports(s, c, p, Stored) && forall d | Reports(s, d, p, Stored) :: d == c
  {
    hide OwnFile, Distinct, Files, Tidy;
    var c :| Publishes(s, c, p);
    assert Fits(config, initial, s, s.captures[c]);
    assert Reports(s, c, p, Stored);
    forall d | Reports(s, d, p, Stored) ensures d == c {
      assert Fits(config, initial, s, s.captures[d]) && Publishes(s, d, p);
    }
  }

  /**
   Deletion is what the "disappeared" branch is for: whenever a capture has lost
   the race, deleting the winner's file before it looks makes it report that.
   */
  lemma DeletionIsNoticed(config: Config, initial: Listing, s: Store, c: nat)
    requires Inv(config, initial, s) && c in s.captures && s.captures[c].phase.Rechecking?
    requires Content(s.captures[c].payload) in s.dir
    ensures
      var p := s.captures[c].payload;
      Reports(Run(config, s, [DeleteContent(p), Recheck(c, false), Remove(c, false)]), c, p, Disappeared)
  {
    hide Run;
    var p := s.captures[c].payload;
    assert Fits(config, initial, s, s.captures[c]);
    var actions := [DeleteContent(p), Recheck(c, false), Remove(c, false)];
    assert actions[0..] == actions;
    RunFrom(config, s, actions, 0);
    var s1 := Step(config, s, actions[0]);
    RunFrom(config, s1, actions, 1);
    var s2 := Step(config, s1, actions[1]);
    RunFrom(config, s2, actions, 2);
    RunNothing(config, Step(config, s2, actions[2]), actions[3..]);
  }

  lemma RunNothing(config: Config, s: Store, actions: seq<Action>)
    ensures actions == [] ==> Run(config, s, actions) == s
  {
  }

  lemma RunFrom(config: Config, s: Store, actions: seq<Action>, k: nat)
    requires k < |actions|
    ensures Run(config, s, actions[k..]) == Run(config, Step(config, s, actions[k]), actions[k + 1..])
  {
    assert actions[k..][1..] == actions[k + 1..];
  }
}
