/** The persisted round budget: what a valid record is and what deadline it really grants. */
module AuditBudget {

  const MAX_BUDGET_SECONDS := 5400
  const LEGACY_MAX_PERSISTED_BUDGET_SECONDS := 86400

  /** A canonical path is the sequence of its components. */
  type Path = seq<string>

  /** A round is named by its workspace, target and number; each has one budget file. */
  datatype Key = Key(workspace: Path, target: string, round: nat)

  /** Times are whole seconds, as persisted; the clock has fractions. */
  datatype Budget = Budget(startedAt: int, deadlineAt: int, seconds: int)

  /** What `_load` accepts; records written before the 90-minute cap may hold up to a day. */
  predicate Loadable(b: Budget) {
    && 1 <= b.seconds <= LEGACY_MAX_PERSISTED_BUDGET_SECONDS
    && b.deadlineAt > b.startedAt && b.deadlineAt - b.startedAt == b.seconds
  }

  /** Two fields and a length of one second to a day say it all. */
  lemma LoadableExactlyWhen(b: Budget)
    ensures Loadable(b) <==> 1 <= b.seconds <= 86400 && b.deadlineAt == b.startedAt + b.seconds
  {
  }

  /** The record `start_round_budget` drafts at time `clock`. */
  function Draft(clock: real, seconds: int): Budget {
    Budget(clock.Floor, clock.Floor + seconds, seconds)
  }

  /** The deadline a snapshot reports: the configured one, clamped to the hard cap. */
  function EffectiveDeadline(b: Budget): (deadline: int)
    requires Loadable(b)
    ensures b.startedAt < deadline <= b.startedAt + MAX_BUDGET_SECONDS
    ensures deadline <= b.deadlineAt
    ensures b.seconds <= MAX_BUDGET_SECONDS ==> deadline == b.deadlineAt
    ensures b.seconds > MAX_BUDGET_SECONDS ==> deadline == b.startedAt + MAX_BUDGET_SECONDS
  {
    var hard := b.startedAt + MAX_BUDGET_SECONDS;
    if b.deadlineAt < hard then b.deadlineAt else hard
  }

  /** `expired` of a snapshot: less than one second remains. */
  predicate Expired(b: Budget, clock: real)
    requires Loadable(b)
  {
    var remaining := EffectiveDeadline(b) as real - clock;
    (if remaining < 0.0 then 0.0 else remaining) < 1.0
  }
}
