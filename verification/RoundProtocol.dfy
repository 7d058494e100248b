/** Rounds as a whole: any number of `audit-budget` processes racing over the budget files
    and the guard registry while the clock runs.  One action is one atomic step; processes
    interleave freely. */
module RoundProtocol {
  import opened Options
  import opened AuditBudget
  import opened AuditGuard

  /** Where a process stands inside `cmd_audit_budget start` or `status`. */
  datatype Phase =
    | Idle
    | Checking(key: Key, root: Path, seconds: int)
    | Writing(key: Key, root: Path, seconds: int)
    | Linking(key: Key, root: Path, draft: Budget)
    | Loading(key: Key, root: Path)
    | Snapshotting(key: Key, watched: Option<Path>, record: Budget)
    | Enrolling(key: Key, root: Path, deadline: int)

  /** What one call of `start_round_budget` returned. */
  datatype Report = Report(key: Key, record: Budget, started: bool)

  datatype System = System(
    files: map<Key, Budget>,
    registry: seq<Guard>,
    clock: real,
    procs: seq<Phase>,
    reports: seq<Report>)

  datatype Action =
    | Tick(elapsed: real)
    | Start(p: nat, key: Key, root: Path, seconds: int)
    | CheckExists(p: nat)
    | WriteTemporary(p: nat)
    | LinkFile(p: nat)
    | LoadFile(p: nat)
    | Status(p: nat, key: Key, watched: Option<Path>)
    | TakeSnapshot(p: nat)
    | Enrol(p: nat)
    | ReleaseRound(key: Key, root: Path)

  /** A process may be killed at any point and its place taken by a new call. */
  predicate Enabled(s: System, a: Action) {
    match a
    case Tick(elapsed) => elapsed >= 0.0
    case Start(p, _, _, _) => p < |s.procs|
    case CheckExists(p) => p < |s.procs| && s.procs[p].Checking?
    case WriteTemporary(p) => p < |s.procs| && s.procs[p].Writing?
    case LinkFile(p) => p < |s.procs| && s.procs[p].Linking?
    case LoadFile(p) => p < |s.procs| && s.procs[p].Loading? && s.procs[p].key in s.files
    case Status(p, _, _) => p < |s.procs|
    case TakeSnapshot(p) => p < |s.procs| && s.procs[p].Snapshotting? && Loadable(s.procs[p].record)
    case Enrol(p) => p < |s.procs| && s.procs[p].Enrolling?
    case ReleaseRound(_, _) => true
  }

  function Move(s: System, p: nat, phase: Phase): System
    requires p < |s.procs|
  {
    s.(procs := s.procs[p := phase])
  }

  function Apply(s: System, a: Action): System
    requires Enabled(s, a)
  {
    match a
    case Tick(elapsed) => s.(clock := s.clock + elapsed)
    case Start(p, key, root, seconds) =>
      Move(s, p, Checking(key, root, if seconds == 0 then MAX_BUDGET_SECONDS else seconds))
    case CheckExists(p) =>
      var Checking(key, root, seconds) := s.procs[p];
      Move(s, p, if key in s.files then Loading(key, root)
                 else if 1 <= seconds <= MAX_BUDGET_SECONDS then Writing(key, root, seconds)
                 else Idle)
    case WriteTemporary(p) =>
      var Writing(key, root, seconds) := s.procs[p];
      Move(s, p, Linking(key, root, Draft(s.clock, seconds)))
    case LinkFile(p) =>
      var Linking(key, root, draft) := s.procs[p];
      if key in s.files then Move(s, p, Loading(key, root))
      else Move(s, p, Snapshotting(key, Some(root), draft))
           .(files := s.files[key := draft], reports := s.reports + [Report(key, draft, true)])
    case LoadFile(p) =>
      var Loading(key, root) := s.procs[p];
      Move(s, p, Snapshotting(key, Some(root), s.files[key]))
        .(reports := s.reports + [Report(key, s.files[key], false)])
    case Status(p, key, watched) =>
      if key in s.files then Move(s, p, Snapshotting(key, watched, s.files[key])) else s
    case TakeSnapshot(p) =>
      var Snapshotting(key, watched, record) := s.procs[p];
      Move(s, p, if watched.None? || Expired(record, s.clock) then Idle
                 else Enrolling(key, watched.value, EffectiveDeadline(record)))
    case Enrol(p) =>
      var Enrolling(key, root, deadline) := s.procs[p];
      var r := Register(s.registry, Guard(key, root, deadline), s.clock);
      Move(s, p, Idle).(registry := if r.Registered? then r.records else s.registry)
    case ReleaseRound(key, root) => s.(registry := Release(s.registry, key, root))
  }

  /** Any legal budget files may already exist; no round is registered and nobody runs. */
  predicate Init(s: System) {
    && (forall k :: k in s.files ==> Loadable(s.files[k]))
    && s.registry == [] && s.reports == []
    && forall p :: 0 <= p < |s.procs| ==> s.procs[p].Idle?
  }

  // ---------------------------------------------------------------- invariant

  ghost predicate PhaseOk(files: map<Key, Budget>, phase: Phase) {
    match phase
    case Writing(_, _, seconds) => 1 <= seconds <= MAX_BUDGET_SECONDS
    case Linking(_, _, draft) => Loadable(draft)
    case Loading(key, _) => key in files
    case Snapshotting(key, _, record) => key in files && files[key] == record
    case Enrolling(key, _, deadline) =>
      key in files && Loadable(files[key]) && deadline == EffectiveDeadline(files[key])
    case _ => true
  }

  ghost predicate WasStarted(reports: seq<Report>, k: Key) {
    exists i :: 0 <= i < |reports| && reports[i].key == k && reports[i].started
  }

  ghost predicate FilesOk(initial: map<Key, Budget>, s: System) {
    && (forall k :: k in s.files ==> Loadable(s.files[k]))
    && (forall k :: k in initial ==> k in s.files && s.files[k] == initial[k])
    && (forall k :: k in s.files && k !in initial ==> WasStarted(s.reports, k))
  }

  ghost predicate ReportsOk(initial: map<Key, Budget>, s: System) {
    && (forall i :: 0 <= i < |s.reports| ==>
          && s.reports[i].key in s.files && s.reports[i].record == s.files[s.reports[i].key]
          && (s.reports[i].started ==> s.reports[i].key !in initial))
    && forall i, j :: 0 <= i < j < |s.reports| && s.reports[i].key == s.reports[j].key ==> !s.reports[j].started
  }

  /** Each guard carries the effective deadline of its round. */
  ghost predicate RegistryOk(s: System) {
    && WellFormed(s.registry)
    && forall g :: g in s.registry ==>
         g.key in s.files && Loadable(s.files[g.key]) && g.deadlineAt == EffectiveDeadline(s.files[g.key])
  }

  ghost predicate ProcsOk(s: System) {
    forall p :: 0 <= p < |s.procs| ==> PhaseOk(s.files, s.procs[p])
  }

  ghost predicate Inv(initial: map<Key, Budget>, s: System) {
    FilesOk(initial, s) && ReportsOk(initial, s) && RegistryOk(s) && ProcsOk(s)
  }

  ghost predicate Extends(files: map<Key, Budget>, later: map<Key, Budget>) {
    forall k :: k in files ==> k in later && later[k] == files[k]
  }

  lemma StepKeepsFiles(initial: map<Key, Budget>, s: System, a: Action)
    requires Inv(initial, s) && Enabled(s, a)
    ensures FilesOk(initial, Apply(s, a)) && Extends(s.files, Apply(s, a).files)
    ensures Apply(s, a).clock >= s.clock
  {
    var s' := Apply(s, a);
    forall k | k in s'.files && k !in initial ensures WasStarted(s'.reports, k) {
      if k in s.files {
        assert WasStarted(s.reports, k);
        var i :| 0 <= i < |s.reports| && s.reports[i].key == k && s.reports[i].started;
        assert s'.reports[i] == s.reports[i];
      } else {
        assert s'.reports[|s.reports|].key == k;
      }
    }
    if a.LinkFile? {
      assert PhaseOk(s.files, s.procs[a.p]);
    }
  }

  lemma StepKeepsReports(initial: map<Key, Budget>, s: System, a: Action)
    requires Inv(initial, s) && Enabled(s, a)
    ensures ReportsOk(initial, Apply(s, a))
  {
  }

  lemma StepKeepsProcs(initial: map<Key, Budget>, s: System, a: Action)
    requires Inv(initial, s) && Enabled(s, a)
    ensures ProcsOk(Apply(s, a))
  {
    var s' := Apply(s, a);
    StepKeepsFiles(initial, s, a);
    forall p | 0 <= p < |s'.procs| ensures PhaseOk(s'.files, s'.procs[p]) {
      assert PhaseOk(s.files, s.procs[p]);
    }
  }

  lemma StepKeepsRegistry(initial: map<Key, Budget>, s: System, a: Action)
    requires Inv(initial, s) && Enabled(s, a)
    ensures RegistryOk(Apply(s, a))
  {
    StepKeepsFiles(initial, s, a);
    match a
    case Enrol(p) =>
      var Enrolling(key, root, deadline) := s.procs[p];
      assert PhaseOk(s.files, s.procs[p]);
      RegisterOutcome(s.registry, Guard(key, root, deadline), s.clock);
    case ReleaseRound(key, root) =>
      ReleaseOutcome(s.registry, key, root);
    case _ =>
  }

  lemma StepKeepsInv(initial: map<Key, Budget>, s: System, a: Action)
    requires Inv(initial, s) && Enabled(s, a)
    ensures Inv(initial, Apply(s, a))
  {
    StepKeepsFiles(initial, s, a);
    StepKeepsReports(initial, s, a);
    StepKeepsProcs(initial, s, a);
    StepKeepsRegistry(initial, s, a);
  }

  // --------------------------------------------------------------------- runs

  /** Each action is enabled in the state the ones before it leave. */
  ghost predicate Steps(trace: seq<System>, actions: seq<Action>) {
    && |trace| == |actions| + 1
    && forall i :: 0 <= i < |actions| ==> Enabled(trace[i], actions[i]) && trace[i + 1] == Apply(trace[i], actions[i])
  }

  ghost predicate IsRun(trace: seq<System>, actions: seq<Action>) {
    Steps(trace, actions) && Init(trace[0])
  }

  lemma {:induction false} RunInvariant(trace: seq<System>, actions: seq<Action>, n: nat)
    requires IsRun(trace, actions) && n < |trace|
    ensures Inv(trace[0].files, trace[n])
  {
    if n > 0 {
      RunInvariant(trace, actions, n - 1);
      StepKeepsInv(trace[0].files, trace[n - 1], actions[n - 1]);
    }
  }

  lemma {:induction false} RunIsMonotone(trace: seq<System>, actions: seq<Action>, m: nat, n: nat)
    requires IsRun(trace, actions) && m <= n < |trace|
    ensures Extends(trace[m].files, trace[n].files) && trace[m].clock <= trace[n].clock
    decreases n - m
  {
    hide Inv, Enabled, Apply, Init;
    if m < n {
      RunIsMonotone(trace, actions, m, n - 1);
      RunInvariant(trace, actions, n - 1);
      StepKeepsFiles(trace[0].files, trace[n - 1], actions[n - 1]);
    }
  }

  /** Whatever the interleaving, every report of a round names the same start and deadline,
      and at most one says `started`. */
  lemma StartersAgree(trace: seq<System>, actions: seq<Action>, n: nat, i: nat, j: nat)
    requires IsRun(trace, actions) && n < |trace|
    requires i < j < |trace[n].reports| && trace[n].reports[i].key == trace[n].reports[j].key
    ensures trace[n].reports[i].record == trace[n].reports[j].record
    ensures !(trace[n].reports[i].started && trace[n].reports[j].started)
  {
    RunInvariant(trace, actions, n);
  }

  /** A budget file that was not there at first was started by exactly one process, whose
      draft it still is. */
  lemma FileHasOneStarter(trace: seq<System>, actions: seq<Action>, n: nat, k: Key)
    requires IsRun(trace, actions) && n < |trace| && k in trace[n].files && k !in trace[0].files
    ensures exists i :: 0 <= i < |trace[n].reports| && trace[n].reports[i] == Report(k, trace[n].files[k], true)
                        && forall j :: 0 <= j < |trace[n].reports| && trace[n].reports[j].key == k ==>
                             trace[n].reports[j].started ==> j == i
  {
    RunInvariant(trace, actions, n);
    var reports := trace[n].reports;
    assert WasStarted(reports, k);
    var i :| 0 <= i < |reports| && reports[i].key == k && reports[i].started;
    assert reports[i] == Report(k, trace[n].files[k], true);
  }

  /** A round carries one deadline for good: across status, release and re-registration. */
  lemma DeadlineNeverChanges(trace: seq<System>, actions: seq<Action>, m: nat, n: nat, g: Guard, h: Guard)
    requires IsRun(trace, actions) && m <= n < |trace|
    requires g in trace[m].registry && h in trace[n].registry && g.key == h.key
    ensures g.deadlineAt == h.deadlineAt
    ensures g.key in trace[m].files && Loadable(trace[m].files[g.key])
    ensures g.deadlineAt == EffectiveDeadline(trace[m].files[g.key])
  {
    RunInvariant(trace, actions, m);
    RunInvariant(trace, actions, n);
    RunIsMonotone(trace, actions, m, n);
  }

  lemma ExpiredIsNotEnrolled(initial: map<Key, Budget>, s: System, a: Action, k: Key)
    requires Inv(initial, s) && Enabled(s, a)
    requires k in s.files && EffectiveDeadline(s.files[k]) as real <= s.clock
    requires forall g :: g in s.registry ==> g.key != k
    ensures forall g :: g in Apply(s, a).registry ==> g.key != k
  {
    match a
    case Enrol(p) =>
      var Enrolling(key, root, deadline) := s.procs[p];
      assert PhaseOk(s.files, s.procs[p]);
      RegisterOutcome(s.registry, Guard(key, root, deadline), s.clock);
    case ReleaseRound(key, root) =>
      ReleaseOutcome(s.registry, key, root);
    case _ =>
  }

  /** Once its deadline has passed, a round that is not registered never is again. */
  lemma {:induction false} ExpiredStaysOut(trace: seq<System>, actions: seq<Action>, m: nat, n: nat, k: Key)
    requires IsRun(trace, actions) && m <= n < |trace|
    requires k in trace[m].files && Loadable(trace[m].files[k])
    requires EffectiveDeadline(trace[m].files[k]) as real <= trace[m].clock
    requires forall g :: g in trace[m].registry ==> g.key != k
    ensures forall g :: g in trace[n].registry ==> g.key != k
    decreases n - m
  {
    hide Inv, Enabled, Apply, Init;
    if m < n {
      ExpiredStaysOut(trace, actions, m, n - 1, k);
      RunIsMonotone(trace, actions, m, n - 1);
      RunInvariant(trace, actions, n - 1);
      ExpiredIsNotEnrolled(trace[0].files, trace[n - 1], actions[n - 1], k);
    }
  }

  ghost predicate Guarded(s: System, k: Key, root: Path) {
    exists g :: g in s.registry && g.key == k && g.root == root
  }

  lemma GuardSurvivesStep(initial: map<Key, Budget>, s: System, a: Action, k: Key, root: Path)
    requires Inv(initial, s) && Enabled(s, a) && Guarded(s, k, root) && a != ReleaseRound(k, root)
    ensures Guarded(Apply(s, a), k, root)
  {
    var g :| g in s.registry && g.key == k && g.root == root;
    match a
    case Enrol(p) =>
      var Enrolling(key, r, deadline) := s.procs[p];
      var enrolled := Guard(key, r, deadline);
      RegisterOutcome(s.registry, enrolled, s.clock);
      if Register(s.registry, enrolled, s.clock).Registered? && key == k {
        if x :| x in s.registry && x.key == key && x.root == r {
          SameRoundSameGuard(s.registry, g, x);
        }
      }
      assert g in Apply(s, a).registry || enrolled in Apply(s, a).registry;
    case ReleaseRound(key, r) =>
      ReleaseOutcome(s.registry, key, r);
      assert g in Apply(s, a).registry;
    case _ =>
      assert g in Apply(s, a).registry;
  }

  /** A guard goes only by its own release: expiry alone never lifts it. */
  lemma {:induction false} GuardSurvives(trace: seq<System>, actions: seq<Action>, m: nat, n: nat, k: Key, root: Path)
    requires IsRun(trace, actions) && m <= n < |trace| && Guarded(trace[m], k, root)
    requires forall i :: m <= i < n ==> actions[i] != ReleaseRound(k, root)
    ensures Guarded(trace[n], k, root)
    decreases n - m
  {
    hide Inv, Enabled, Apply, Init, Guarded;
    if m < n {
      GuardSurvives(trace, actions, m, n - 1, k, root);
      RunInvariant(trace, actions, n - 1);
      GuardSurvivesStep(trace[0].files, trace[n - 1], actions[n - 1], k, root);
    }
  }

  /** End to end: an `audit-exec` that touches a registered root is let through only within
      ninety minutes of the persisted start of its own round. */
  lemma ExecWithinTheRound(trace: seq<System>, actions: seq<Action>, n: nat, u: ToolUse, g: Guard)
    requires IsRun(trace, actions) && n < |trace|
    requires u.isBash && Coherent(u.command) && u.command.Cli? && u.command.name == ExecCommand
    requires g in trace[n].registry && Touches(u, g.root) && Allows(trace[n].registry, u, trace[n].clock)
    ensures g.key in trace[n].files && u.command.scope == Some(Scope(AuditExec, g.key, g.root))
    ensures trace[n].clock < (trace[n].files[g.key].startedAt + MAX_BUDGET_SECONDS) as real
  {
    RunInvariant(trace, actions, n);
    ExecStaysInItsRound(trace[n].registry, u, trace[n].clock, g);
  }

  // ------------------------------------------------------ what a call achieves

  /** `g` is the one guard of its round, and no other round has gained or lost one. */
  ghost predicate Registers(before: seq<Guard>, after: seq<Guard>, g: Guard) {
    && (forall x: Guard :: x in after && x.key == g.key <==> x == g)
    && forall x: Guard :: x.key != g.key ==> (x in after <==> x in before)
  }

  /** The round holds this root already, or the root is free for it. */
  ghost predicate MayRegister(registry: seq<Guard>, key: Key, root: Path) {
    && WellFormed(registry)
    && var g := Guard(key, root, 0);
       Held(registry, g) || Free(registry, g)
  }

  lemma EnrolRegisters(s: System, p: nat, key: Key, root: Path, deadline: int)
    requires p < |s.procs| && s.procs[p] == Enrolling(key, root, deadline)
    requires MayRegister(s.registry, key, root) && s.clock < deadline as real
    ensures Enabled(s, Enrol(p))
    ensures var after := Apply(s, Enrol(p));
            && Registers(s.registry, after.registry, Guard(key, root, deadline))
            && after == s.(procs := s.procs[p := Idle], registry := after.registry)
  {
    var g := Guard(key, root, deadline);
    assert Held(s.registry, Guard(key, root, 0)) ==> Held(s.registry, g);
    RegisterOutcome(s.registry, g, s.clock);
  }

  /** An undisturbed `start` of a new round writes its budget, for any length up to ninety
      minutes and for these without one, and answers `started`. */
  lemma StartWritesBudget(s: System, p: nat, key: Key, root: Path, seconds: int) returns (trace: seq<System>)
    requires p < |s.procs| && s.procs[p].Idle? && key !in s.files && 0 <= seconds <= 5400
    ensures Steps(trace, [Start(p, key, root, seconds), CheckExists(p), WriteTemporary(p), LinkFile(p)])
    ensures trace[0] == s
    ensures var now, length := s.clock.Floor, if seconds == 0 then 5400 else seconds;
            var budget := Budget(now, now + length, length);
            trace[4] == s.(files := s.files[key := budget], reports := s.reports + [Report(key, budget, true)],
                           procs := s.procs[p := Snapshotting(key, Some(root), budget)])
  {
    var s1 := Apply(s, Start(p, key, root, seconds));
    var s2 := Apply(s1, CheckExists(p));
    var s3 := Apply(s2, WriteTemporary(p));
    trace := [s, s1, s2, s3, Apply(s3, LinkFile(p))];
  }

  /** It goes on to register the root until the deadline just written. */
  lemma StartOpensRound(s: System, p: nat, key: Key, root: Path, seconds: int) returns (trace: seq<System>)
    requires p < |s.procs| && s.procs[p].Idle? && key !in s.files && MayRegister(s.registry, key, root)
    requires seconds == 0 || 2 <= seconds <= 5400
    ensures Steps(trace, [Start(p, key, root, seconds), CheckExists(p), WriteTemporary(p), LinkFile(p),
                          TakeSnapshot(p), Enrol(p)])
    ensures trace[0] == s
    ensures var now, length, after := s.clock.Floor, if seconds == 0 then 5400 else seconds, trace[6];
            && after.files == s.files[key := Budget(now, now + length, length)]
            && after.reports == s.reports + [Report(key, Budget(now, now + length, length), true)]
            && Registers(s.registry, after.registry, Guard(key, root, now + length))
            && after.procs == s.procs && after.clock == s.clock
  {
    hide MayRegister, Registers;
    var written := StartWritesBudget(s, p, key, root, seconds);
    var s5 := Apply(written[4], TakeSnapshot(p));
    EnrolRegisters(s5, p, key, root, s.clock.Floor + if seconds == 0 then 5400 else seconds);
    trace := written + [s5, Apply(s5, Enrol(p))];
  }

  /** A length outside 1..5400 starts nothing. */
  lemma IllegalLengthStartsNothing(s: System, p: nat, key: Key, root: Path, seconds: int) returns (trace: seq<System>)
    requires p < |s.procs| && s.procs[p].Idle? && key !in s.files && (seconds < 0 || seconds > 5400)
    ensures Steps(trace, [Start(p, key, root, seconds), CheckExists(p)])
    ensures trace[0] == trace[2] == s
  {
    var s1 := Apply(s, Start(p, key, root, seconds));
    trace := [s, s1, Apply(s1, CheckExists(p))];
  }

  /** The deadline a stored budget grants. */
  function GrantedUntil(b: Budget): int {
    if b.seconds > 5400 then b.startedAt + 5400 else b.deadlineAt
  }

  /** A starter that finds the round's budget there, at first sight or when linking its own
      draft, adopts it: it answers `already-started` and registers its root until the stored
      deadline. */
  lemma StartAdoptsRound(s: System, p: nat, key: Key, root: Path, first: Action) returns (trace: seq<System>)
    requires p < |s.procs| && key in s.files && Loadable(s.files[key]) && MayRegister(s.registry, key, root)
    requires || (first == CheckExists(p) && s.procs[p].Checking? && s.procs[p].key == key && s.procs[p].root == root)
             || (first == LinkFile(p) && s.procs[p].Linking? && s.procs[p].key == key && s.procs[p].root == root)
    requires s.clock + 1.0 <= GrantedUntil(s.files[key]) as real
    ensures Steps(trace, [first, LoadFile(p), TakeSnapshot(p), Enrol(p)])
    ensures trace[0] == s
    ensures var after := trace[4];
            && after.files == s.files && after.reports == s.reports + [Report(key, s.files[key], false)]
            && Registers(s.registry, after.registry, Guard(key, root, GrantedUntil(s.files[key])))
            && after.procs == s.procs[p := Idle] && after.clock == s.clock
  {
    hide MayRegister, Registers;
    var s1 := Apply(s, first);
    var s2 := Apply(s1, LoadFile(p));
    var s3 := Apply(s2, TakeSnapshot(p));
    EnrolRegisters(s3, p, key, root, GrantedUntil(s.files[key]));
    trace := [s, s1, s2, s3, Apply(s3, Enrol(p))];
  }

  /** `status` with a root registers it again for as long as the round has a second left. */
  lemma StatusRegistersLiveRound(s: System, p: nat, key: Key, root: Path) returns (trace: seq<System>)
    requires p < |s.procs| && s.procs[p].Idle? && key in s.files && Loadable(s.files[key])
    requires MayRegister(s.registry, key, root) && s.clock + 1.0 <= GrantedUntil(s.files[key]) as real
    ensures Steps(trace, [Status(p, key, Some(root)), TakeSnapshot(p), Enrol(p)])
    ensures trace[0] == s
    ensures Registers(s.registry, trace[3].registry, Guard(key, root, GrantedUntil(s.files[key])))
    ensures trace[3] == s.(registry := trace[3].registry)
  {
    hide MayRegister, Registers;
    var s1 := Apply(s, Status(p, key, Some(root)));
    var s2 := Apply(s1, TakeSnapshot(p));
    EnrolRegisters(s2, p, key, root, GrantedUntil(s.files[key]));
    trace := [s, s1, s2, Apply(s2, Enrol(p))];
  }

  /** Once less than a second is left, or without a root, `status` changes nothing. */
  lemma StatusOnlyReports(s: System, elapsed: real, p: nat, key: Key, watched: Option<Path>)
      returns (trace: seq<System>)
    requires p < |s.procs| && s.procs[p].Idle? && key in s.files && Loadable(s.files[key]) && elapsed >= 0.0
    requires watched.None? || s.clock + elapsed + 1.0 > GrantedUntil(s.files[key]) as real
    ensures Steps(trace, [Tick(elapsed), Status(p, key, watched), TakeSnapshot(p)])
    ensures trace[0] == s && trace[3] == s.(clock := s.clock + elapsed)
  {
    var s1 := Apply(s, Tick(elapsed));
    var s2 := Apply(s1, Status(p, key, watched));
    trace := [s, s1, s2, Apply(s2, TakeSnapshot(p))];
  }

  /** A release lifts the guard of its round and root, and no other. */
  lemma ReleaseLiftsGuard(s: System, key: Key, root: Path)
    requires WellFormed(s.registry)
    ensures var after := Apply(s, ReleaseRound(key, root));
            && after == s.(registry := after.registry)
            && forall g :: g in after.registry <==> g in s.registry && !(g.key == key && g.root == root)
  {
    ReleaseOutcome(s.registry, key, root);
  }
}
