/** The registry of active audits and the policy that decides shell commands from it. */
module AuditGuard {
  import opened Options
  import opened AuditBudget

  const MAX_ACTIVE_AUDITS := 32

  datatype Guard = Guard(key: Key, root: Path, deadlineAt: int)

  predicate Inside(child: Path, parent: Path) { parent <= child }

  predicate Overlap(a: Path, b: Path) { Inside(a, b) || Inside(b, a) }

  datatype Refusal = DeadlinePassed | BoundElsewhere | RootCovered | TooMany
  datatype Registration = Registered(records: seq<Guard>) | Refused(why: Refusal)

  /** The scan of `register_active_audit` from record `k` on. */
  function Scan(records: seq<Guard>, k: nat, g: Guard): Registration
    requires k <= |records|
    decreases |records| - k
  {
    if k == |records| then
      if |records| >= MAX_ACTIVE_AUDITS then Refused(TooMany) else Registered(records + [g])
    else if records[k].key == g.key then
      if records[k].root != g.root then Refused(BoundElsewhere) else Registered(records[k := g])
    else if Overlap(records[k].root, g.root) then Refused(RootCovered)
    else Scan(records, k + 1, g)
  }

  function Register(records: seq<Guard>, g: Guard, clock: real): Registration {
    if g.deadlineAt as real <= clock then Refused(DeadlinePassed) else Scan(records, 0, g)
  }

  function Release(records: seq<Guard>, key: Key, root: Path): seq<Guard> {
    if records == [] then []
    else
      (if records[0].key == key && records[0].root == root then [] else [records[0]])
      + Release(records[1..], key, root)
  }

  /** Unique rounds, disjoint roots, at most 32 of them. */
  ghost predicate WellFormed(records: seq<Guard>) {
    && |records| <= 32
    && forall i, j :: 0 <= i < j < |records| ==>
         records[i].key != records[j].key && !Overlap(records[i].root, records[j].root)
  }

  ghost predicate Free(records: seq<Guard>, g: Guard) {
    && |records| < 32
    && forall r :: r in records ==> r.key != g.key && !Overlap(r.root, g.root)
  }

  ghost predicate Held(records: seq<Guard>, g: Guard) {
    exists r :: r in records && r.key == g.key && r.root == g.root
  }

  /** `after` is `records` with the entry of `g`'s round, if any, replaced by `g`. */
  ghost predicate Replaces(records: seq<Guard>, after: seq<Guard>, g: Guard) {
    forall x :: x in after <==> x == g || (x in records && x.key != g.key)
  }

  lemma SameRoundSameGuard(records: seq<Guard>, g: Guard, h: Guard)
    requires WellFormed(records) && g in records && h in records && g.key == h.key
    ensures g == h
  {
  }

  lemma RenewReplaces(records: seq<Guard>, k: nat, g: Guard)
    requires WellFormed(records) && k < |records| && records[k].key == g.key && records[k].root == g.root
    ensures WellFormed(records[k := g]) && Replaces(records, records[k := g], g)
  {
    var after := records[k := g];
    forall x ensures x in after <==> x == g || (x in records && x.key != g.key) {
      assert after[k] == g;
      if x in after {
        var i :| 0 <= i < |after| && after[i] == x;
        assert i != k ==> records[i] == x;
      }
      if x in records && x.key != g.key {
        var i :| 0 <= i < |records| && records[i] == x;
        assert after[i] == x;
      }
    }
  }

  lemma {:induction false} ScanOutcome(records: seq<Guard>, k: nat, g: Guard)
    requires WellFormed(records) && k <= |records|
    requires forall i :: 0 <= i < k ==> records[i].key != g.key && !Overlap(records[i].root, g.root)
    ensures var r := Scan(records, k, g);
            && (r.Registered? <==> Held(records, g) || Free(records, g))
            && (r.Registered? ==> WellFormed(r.records) && Replaces(records, r.records, g))
    decreases |records| - k
  {
    if k == |records| {
      assert forall x :: x in records ==> exists i :: 0 <= i < k && records[i] == x;
    } else if records[k].key == g.key {
      assert records[k] in records;
      if records[k].root == g.root {
        RenewReplaces(records, k, g);
      } else {
        forall x | x in records && x.key == g.key ensures x == records[k] {
          SameRoundSameGuard(records, x, records[k]);
        }
      }
    } else if Overlap(records[k].root, g.root) {
      assert records[k] in records;
      forall i | 0 <= i < |records| && records[i].root == g.root ensures records[i].key != g.key {
      }
    } else {
      ScanOutcome(records, k + 1, g);
    }
  }

  /** Registration succeeds exactly before the deadline, and exactly when the round already
      holds this root or the root is free; the registry stays well formed. */
  lemma RegisterOutcome(records: seq<Guard>, g: Guard, clock: real)
    requires WellFormed(records)
    ensures var r := Register(records, g, clock);
            && (r.Registered? <==> g.deadlineAt as real > clock && (Held(records, g) || Free(records, g)))
            && (r.Registered? ==> WellFormed(r.records) && Replaces(records, r.records, g))
  {
    ScanOutcome(records, 0, g);
  }

  lemma OneMoreGuard(first: Guard, rest: seq<Guard>)
    requires WellFormed(rest) && |rest| < MAX_ACTIVE_AUDITS
    requires forall x :: x in rest ==> first.key != x.key && !Overlap(first.root, x.root)
    ensures WellFormed([first] + rest)
  {
    hide Overlap;
    var all := [first] + rest;
    forall i, j | 0 <= i < j < |all| ensures all[i].key != all[j].key && !Overlap(all[i].root, all[j].root) {
      assert all[j] == rest[j - 1] && rest[j - 1] in rest;
    }
  }

  lemma TailIsWellFormed(records: seq<Guard>)
    requires WellFormed(records) && records != []
    ensures WellFormed(records[1..])
    ensures forall x :: x in records[1..] ==> records[0].key != x.key && !Overlap(records[0].root, x.root)
  {
    hide Overlap;
    forall x | x in records[1..] ensures records[0].key != x.key && !Overlap(records[0].root, x.root) {
      var i :| 0 <= i < |records[1..]| && records[1..][i] == x;
      assert records[i + 1] == x;
    }
  }

  lemma {:induction false} ReleaseOutcome(records: seq<Guard>, key: Key, root: Path)
    requires WellFormed(records)
    ensures var r := Release(records, key, root);
            && WellFormed(r) && |r| <= |records|
            && forall x :: x in r <==> x in records && !(x.key == key && x.root == root)
  {
    if records != [] {
      TailIsWellFormed(records);
      ReleaseOutcome(records[1..], key, root);
      var first, rest := records[0], Release(records[1..], key, root);
      assert records == [first] + records[1..] && |records| <= MAX_ACTIVE_AUDITS;
      hide WellFormed, Overlap;
      if first.key == key && first.root == root {
        assert Release(records, key, root) == rest;
      } else {
        OneMoreGuard(first, rest);
        assert Release(records, key, root) == [first] + rest;
      }
    }
  }

  /** Releasing a round undoes registering it. */
  lemma ReleaseUndoesRegister(records: seq<Guard>, g: Guard, clock: real, x: Guard)
    requires WellFormed(records) && Free(records, g) && g.deadlineAt as real > clock
    ensures var r := Register(records, g, clock);
            r.Registered? && (x in Release(r.records, g.key, g.root) <==> x in records)
  {
    RegisterOutcome(records, g, clock);
    ReleaseOutcome(Register(records, g, clock).records, g.key, g.root);
  }

  lemma ReleaseNothing(key: Key, root: Path)
    ensures Release([], key, root) == []
  {
  }

  lemma ReleaseOne(records: seq<Guard>, k: nat, key: Key, root: Path)
    requires k < |records|
    ensures Release(records[k..], key, root)
            == (if records[k].key == key && records[k].root == root then [] else [records[k]])
               + Release(records[k + 1..], key, root)
  {
    assert records[k..][1..] == records[k + 1..];
  }

  /** The registry file under its lock. */
  class Registry {
    var records: seq<Guard>

    constructor ()
      ensures records == []
    {
      records := [];
    }

    method RegisterActiveAudit(g: Guard, clock: real) returns (outcome: Registration)
      modifies this
      ensures outcome == Register(old(records), g, clock)
      ensures records == if outcome.Registered? then outcome.records else old(records)
    {
      if g.deadlineAt as real <= clock {
        return Refused(DeadlinePassed);
      }
      for k := 0 to |records|
        invariant records == old(records)
        invariant Scan(records, 0, g) == Scan(records, k, g)
      {
        var existing := records[k];
        if existing.key == g.key {
          if existing.root != g.root {
            return Refused(BoundElsewhere);
          }
          records := records[k := g];
          return Registered(records);
        }
        if Overlap(existing.root, g.root) {
          return Refused(RootCovered);
        }
      }
      if |records| >= MAX_ACTIVE_AUDITS {
        return Refused(TooMany);
      }
      records := records + [g];
      return Registered(records);
    }

    method ReleaseActiveAudit(key: Key, root: Path) returns (removed: bool)
      modifies this
      ensures records == Release(old(records), key, root)
      ensures removed <==> exists r :: r in old(records) && r.key == key && r.root == root
    {
      hide Release;
      var retained := [];
      removed := false;
      assert records[0..] == records;
      for k := 0 to |records|
        invariant records == old(records)
        invariant Release(records, key, root) == retained + Release(records[k..], key, root)
        invariant removed <==> exists i :: 0 <= i < k && records[i].key == key && records[i].root == root
      {
        var record := records[k];
        ReleaseOne(records, k, key, root);
        if record.key == key && record.root == root {
          removed := true;
        } else {
          retained := retained + [record];
        }
      }
      assert records[|records|..] == [];
      ReleaseNothing(key, root);
      records := retained;
    }
  }

  // --------------------------------------------------------------- tool-use policy

  datatype Operation = AuditExec | BudgetStart | BudgetStatus | BudgetRelease
  datatype CliName = ExecCommand | BudgetCommand | OtherCommand

  /** The (operation, round, root) a wrapper call names. */
  datatype Scope = Scope(operation: Operation, key: Key, root: Path)

  /** What the hook makes of a command string: it cannot tokenise it, it is no call of the
      bundled CLI, or it is one, whose scope may be missing or malformed. */
  datatype Command = Unreadable | Foreign | Cli(name: CliName, scope: Option<Scope>)

  /** Name and scope are read off the same token: only audit commands have a scope. */
  predicate Coherent(c: Command) {
    c.Cli? && c.scope.Some? ==>
      c.name != OtherCommand && (c.name == ExecCommand ==> c.scope.value.operation == AuditExec)
  }

  /** A tool call; `readable` says command and working directory are well-formed strings
      within the size bound, `mentions` is what the command text addresses besides `cwd`. */
  datatype ToolUse = ToolUse(isBash: bool, readable: bool, command: Command, cwd: Path, mentions: set<Path>)

  predicate Touches(u: ToolUse, root: Path) {
    Inside(u.cwd, root) || root in u.mentions
  }

  predicate SameScope(scope: Scope, g: Guard) {
    scope.key == g.key && scope.root == g.root
  }

  predicate PastDeadline(g: Guard, clock: real) {
    g.deadlineAt as real <= clock
  }

  /** `_is_allowed_audit_command`. */
  predicate Permits(g: Guard, c: Command, clock: real) {
    match c
    case Unreadable => false
    case Foreign => false
    case Cli(name, scope) =>
      if PastDeadline(g, clock) then
        scope.Some? && SameScope(scope.value, g) && scope.value.operation in {BudgetStatus, BudgetRelease}
      else if name == OtherCommand then true
      else scope.Some? && SameScope(scope.value, g)
  }

  function Applicable(records: seq<Guard>, u: ToolUse): seq<Guard> {
    if records == [] then []
    else (if Touches(u, records[0].root) then [records[0]] else []) + Applicable(records[1..], u)
  }

  lemma {:induction false} ApplicableMembers(records: seq<Guard>, u: ToolUse)
    ensures forall g :: g in Applicable(records, u) <==> g in records && Touches(u, g.root)
  {
    if records != [] {
      ApplicableMembers(records[1..], u);
      assert records == [records[0]] + records[1..];
    }
  }

  /** `evaluate_pre_tool_use` on a readable registry: is the call let through? */
  predicate Allows(records: seq<Guard>, u: ToolUse, clock: real) {
    if !u.isBash || records == [] then true
    else if !u.readable then false
    else
      var applicable := Applicable(records, u);
      applicable == [] || forall g :: g in applicable ==> Permits(g, u.command, clock)
  }

  /** The call names this round and this root. */
  predicate Names(c: Command, key: Key, root: Path) {
    c.Cli? && c.scope.Some? && c.scope.value.key == key && c.scope.value.root == root
  }

  /** The whole policy, call by call: what is let through while any audit is registered is
      readable, and on every root it touches it is a call of the bundled CLI that is either
      unscoped (before the deadline) or of that root's own round; past the deadline only status
      and release of the round are left. */
  lemma AllowsExactlyWhen(records: seq<Guard>, u: ToolUse, clock: real)
    ensures Allows(records, u, clock) <==>
              || !u.isBash || records == []
              || (u.readable && forall g :: g in records && (g.root <= u.cwd || g.root in u.mentions) ==>
                    && u.command.Cli?
                    && if clock < g.deadlineAt as real
                       then u.command.name == OtherCommand || Names(u.command, g.key, g.root)
                       else Names(u.command, g.key, g.root)
                            && u.command.scope.value.operation in {BudgetStatus, BudgetRelease})
  {
    ApplicableMembers(records, u);
    if u.isBash && records != [] && u.readable {
      forall g ensures g in Applicable(records, u) <==> g in records && (g.root <= u.cwd || g.root in u.mentions) {
      }
    }
  }

  /** No other audit gets in the way of a command: roots it does not touch have no say. */
  lemma UntouchedRootsHaveNoSay(records: seq<Guard>, u: ToolUse, clock: real)
    requires u.readable && forall g :: g in records ==> !(g.root <= u.cwd) && g.root !in u.mentions
    ensures Allows(records, u, clock)
  {
    AllowsExactlyWhen(records, u, clock);
  }

  lemma AncestorsOverlap(path: Path, a: Path, b: Path)
    requires Inside(path, a) && Inside(path, b)
    ensures Overlap(a, b)
  {
    if |a| <= |b| {
      assert a == path[..|a|] == b[..|a|];
    } else {
      assert b == path[..|b|] == a[..|b|];
    }
  }

  /** A path lies under at most one registered root. */
  lemma AtMostOneRoot(records: seq<Guard>, path: Path, i: nat, j: nat)
    requires WellFormed(records) && i < |records| && j < |records|
    requires Inside(path, records[i].root) && Inside(path, records[j].root)
    ensures i == j
  {
    AncestorsOverlap(path, records[i].root, records[j].root);
  }

  /** An allowed `audit-exec` that touches a registered root touches that one alone; it is its
      own round's root and its deadline has not passed. */
  lemma ExecStaysInItsRound(records: seq<Guard>, u: ToolUse, clock: real, g: Guard)
    requires WellFormed(records) && u.isBash && Coherent(u.command)
    requires u.command.Cli? && u.command.name == ExecCommand
    requires g in records && Touches(u, g.root) && Allows(records, u, clock)
    ensures !PastDeadline(g, clock)
    ensures u.command.scope.Some? && SameScope(u.command.scope.value, g)
    ensures forall h :: h in records && Touches(u, h.root) ==> h == g
  {
    ApplicableMembers(records, u);
    assert g in Applicable(records, u) && Permits(g, u.command, clock);
    forall h | h in records && Touches(u, h.root) ensures h == g {
      assert h in Applicable(records, u) && Permits(h, u.command, clock);
      SameRoundSameGuard(records, g, h);
    }
  }

  /** Once its deadline has passed, a root admits only status or release of its own round. */
  lemma ExpiredRootIsSealed(records: seq<Guard>, u: ToolUse, clock: real, g: Guard)
    requires WellFormed(records) && u.isBash && Coherent(u.command)
    requires g in records && Touches(u, g.root) && PastDeadline(g, clock)
    ensures Allows(records, u, clock) <==>
              && u.readable && u.command.Cli? && u.command.scope.Some? && SameScope(u.command.scope.value, g)
              && u.command.scope.value.operation in {BudgetStatus, BudgetRelease}
              && forall h :: h in records && Touches(u, h.root) ==> h == g
  {
    ApplicableMembers(records, u);
    assert g in Applicable(records, u);
    if Allows(records, u, clock) {
      assert Permits(g, u.command, clock);
      forall h | h in records && Touches(u, h.root) ensures h == g {
        assert h in Applicable(records, u) && Permits(h, u.command, clock);
        SameRoundSameGuard(records, g, h);
      }
    }
  }

  /** Raw shell access to a registered root is refused, expired or not. */
  lemma RawAccessIsRefused(records: seq<Guard>, u: ToolUse, clock: real, g: Guard)
    requires u.isBash && g in records && Touches(u, g.root) && !u.command.Cli?
    ensures !Allows(records, u, clock)
  {
    ApplicableMembers(records, u);
    assert g in Applicable(records, u);
    assert !Permits(g, u.command, clock);
  }
}
