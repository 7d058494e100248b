/** The challenge-bound receipt protocol of `cmd_parallel_receipt`, for one candidate:
    `--prepare` issues a challenge token, `--status` records progress or completion under it,
    `--verify` decides whether the runtime artifacts may be accepted.  Artifact files may be
    written, changed or deleted by anyone between the commands. */
module Receipt {
  import opened Options

  const MIN_TOKEN := 12
  const MAX_ARTIFACTS := 8
  const MAX_EVENTS := 16

  type Token = string
  /** An artifact path under the candidate's own matrix directory. */
  type Path = int
  /** `S4/matrix-runs/<candidate>/cells.json`. */
  const EXPECTED: Path := 0

  datatype File = File(digest: int, size: nat)
  type Files = map<Path, File>
  datatype Artifact = Artifact(path: Path, digest: int, size: nat)

  datatype Kind = Received | Progress | Completed | Partial
  datatype State = Running | Complete | Incomplete

  /** One entry of the event log: what was recorded, and the artifacts that call declared. */
  datatype Event = Event(kind: Kind, declared: seq<Path>)

  datatype Slip = Slip(token: Token, state: State, artifacts: seq<Artifact>, progressCount: nat, events: seq<Event>)

  datatype Desk = Desk(challenge: Option<Token>, slip: Option<Slip>, files: Files)

  /** `_parallel_artifact`: the row of a present, non-empty file. */
  function Check(files: Files, path: Path): Option<Artifact> {
    if path in files && files[path].size > 0 then Some(Artifact(path, files[path].digest, files[path].size)) else None
  }

  function Take<T>(s: seq<T>, n: nat): seq<T> {
    if |s| <= n then s else s[..n]
  }

  function Last<T>(s: seq<T>, n: nat): seq<T> {
    if |s| <= n then s else s[|s| - n..]
  }

  /** The rows of the declared paths, each once. */
  function Declared(files: Files, paths: seq<Path>): seq<Artifact> {
    if paths == [] then []
    else
      var rows := Declared(files, paths[..|paths| - 1]);
      match Check(files, paths[|paths| - 1])
      case None => rows
      case Some(row) => if row in rows then rows else rows + [row]
  }

  function PathsOf(rows: seq<Artifact>): seq<Path> {
    seq(|rows|, i requires 0 <= i < |rows| => rows[i].path)
  }

  function EventOf(files: Files, kind: Kind, paths: seq<Path>): Event {
    Event(kind, PathsOf(Declared(files, Take(paths, MAX_ARTIFACTS))))
  }

  /** Recorded rows whose file is still exactly as recorded. */
  function StillValid(files: Files, rows: seq<Artifact>): seq<Artifact> {
    if rows == [] then []
    else
      var row := rows[|rows| - 1];
      StillValid(files, rows[..|rows| - 1]) + if Check(files, row.path) == Some(row) then [row] else []
  }

  function Union(prior: seq<Artifact>, rows: seq<Artifact>): seq<Artifact> {
    if rows == [] then prior
    else
      var all, row := Union(prior, rows[..|rows| - 1]), rows[|rows| - 1];
      if row in all then all else all + [row]
  }

  predicate Matches(d: Desk) {
    d.slip.Some? && d.challenge.Some? && d.slip.value.token == d.challenge.value
  }

  function Artifacts(d: Desk, paths: seq<Path>): seq<Artifact> {
    var prior := if Matches(d) then StillValid(d.files, Take(d.slip.value.artifacts, MAX_ARTIFACTS)) else [];
    Take(Union(prior, Declared(d.files, Take(paths, MAX_ARTIFACTS))), MAX_ARTIFACTS)
  }

  predicate Lists(rows: seq<Artifact>, path: Path) {
    exists i :: 0 <= i < |rows| && rows[i].path == path
  }

  datatype Action =
    | Prepare(token: Token)
    | Record(supplied: Token, kind: Kind, stepNamed: bool, paths: seq<Path>)
    | Touch(path: Path, file: Option<File>)

  /** Whether a command goes through; a refused one changes nothing. */
  predicate Accepted(d: Desk, a: Action) {
    match a
    case Prepare(token) => |token| >= MIN_TOKEN
    case Record(supplied, kind, stepNamed, paths) =>
      && d.challenge == Some(supplied)
      && (kind == Progress ==> stepNamed)
      && (kind == Completed ==> Lists(Artifacts(d, paths), EXPECTED))
    case Touch(_, _) => true
  }

  function StateFor(kind: Kind): State {
    match kind
    case Completed => Complete
    case Partial => Incomplete
    case _ => Running
  }

  function Step(d: Desk, a: Action): Desk {
    if !Accepted(d, a) then d else
    match a
    case Prepare(token) => d.(challenge := Some(token))
    case Touch(path, file) =>
      d.(files := match file
                  case None => map p | p in d.files && p != path :: d.files[p]
                  case Some(f) => d.files[path := f])
    case Record(supplied, kind, _, paths) =>
      var event := EventOf(d.files, kind, paths);
      var count := if Matches(d) then d.slip.value.progressCount else 0;
      var events := if Matches(d) then d.slip.value.events else [];
      d.(slip := Some(Slip(supplied, StateFor(kind), Artifacts(d, paths),
                           count + if kind == Progress then 1 else 0,
                           Last(Last(events, MAX_EVENTS - 1) + [event], MAX_EVENTS))))
  }

  /** `--verify`. */
  predicate Verified(d: Desk) {
    && Matches(d) && d.slip.value.state == Complete
    && Lists(StillValid(d.files, Take(d.slip.value.artifacts, MAX_ARTIFACTS)), EXPECTED)
  }

  // ------------------------------------------------------------------ row facts

  lemma {:induction false} StillValidMembers(files: Files, rows: seq<Artifact>)
    ensures forall r :: r in StillValid(files, rows) <==> r in rows && Check(files, r.path) == Some(r)
    ensures |StillValid(files, rows)| <= |rows|
  {
    if rows != [] {
      StillValidMembers(files, rows[..|rows| - 1]);
      assert rows == rows[..|rows| - 1] + [rows[|rows| - 1]];
    }
  }

  lemma {:induction false} DeclaredMembers(files: Files, paths: seq<Path>)
    ensures forall r :: r in Declared(files, paths) <==> r.path in paths && Check(files, r.path) == Some(r)
  {
    if paths != [] {
      DeclaredMembers(files, paths[..|paths| - 1]);
      assert paths == paths[..|paths| - 1] + [paths[|paths| - 1]];
    }
  }

  lemma {:induction false} UnionMembers(prior: seq<Artifact>, rows: seq<Artifact>)
    ensures forall r :: r in Union(prior, rows) <==> r in prior || r in rows
  {
    if rows != [] {
      UnionMembers(prior, rows[..|rows| - 1]);
      assert rows == rows[..|rows| - 1] + [rows[|rows| - 1]];
    }
  }

  /** Every row a record stores describes its file as it is at that moment. */
  lemma ArtifactsAreCurrent(d: Desk, paths: seq<Path>)
    ensures forall r :: r in Artifacts(d, paths) ==> Check(d.files, r.path) == Some(r)
    ensures |Artifacts(d, paths)| <= MAX_ARTIFACTS
  {
    if Matches(d) {
      StillValidMembers(d.files, Take(d.slip.value.artifacts, MAX_ARTIFACTS));
    }
    DeclaredMembers(d.files, Take(paths, MAX_ARTIFACTS));
    UnionMembers(if Matches(d) then StillValid(d.files, Take(d.slip.value.artifacts, MAX_ARTIFACTS)) else [],
                 Declared(d.files, Take(paths, MAX_ARTIFACTS)));
  }

  // ----------------------------------------------------------------------- runs

  ghost predicate IsRun(trace: seq<Desk>, actions: seq<Action>) {
    && |trace| == |actions| + 1 && trace[0].challenge.None? && trace[0].slip.None?
    && forall i :: 0 <= i < |actions| ==> trace[i + 1] == Step(trace[i], actions[i])
  }

  predicate IsPrepare(a: Action) { a.Prepare? && |a.token| >= MIN_TOKEN }

  predicate IsRecord(d: Desk, a: Action) { a.Record? && Accepted(d, a) }

  /** The latest challenge before step `n`. */
  function LastPrepare(actions: seq<Action>, n: nat): (r: Option<nat>)
    requires n <= |actions|
    ensures r.Some? ==> r.value < n && IsPrepare(actions[r.value])
  {
    if n == 0 then None else if IsPrepare(actions[n - 1]) then Some(n - 1) else LastPrepare(actions, n - 1)
  }

  /** The latest accepted record before step `n`. */
  function LastRecord(trace: seq<Desk>, actions: seq<Action>, n: nat): Option<nat>
    requires n <= |actions| <= |trace|
  {
    if n == 0 then None
    else if IsRecord(trace[n - 1], actions[n - 1]) then Some(n - 1)
    else LastRecord(trace, actions, n - 1)
  }

  /** No token is issued twice. */
  ghost predicate FreshTokens(actions: seq<Action>) {
    forall i, j :: 0 <= i < j < |actions| && IsPrepare(actions[i]) && IsPrepare(actions[j])
      ==> actions[i].token != actions[j].token
  }

  lemma {:induction false} LastPrepareIsLast(actions: seq<Action>, n: nat)
    requires n <= |actions|
    ensures var p := LastPrepare(actions, n);
            && (p.Some? ==> p.value < n && IsPrepare(actions[p.value]))
            && forall i :: 0 <= i < n && IsPrepare(actions[i]) ==> p.Some? && i <= p.value
  {
    if n > 0 {
      LastPrepareIsLast(actions, n - 1);
    }
  }

  lemma {:induction false} LastRecordIsLast(trace: seq<Desk>, actions: seq<Action>, n: nat)
    requires n <= |actions| <= |trace|
    ensures var r := LastRecord(trace, actions, n);
            && (r.Some? ==> r.value < n && IsRecord(trace[r.value], actions[r.value]))
            && forall i :: 0 <= i < n && IsRecord(trace[i], actions[i]) ==> r.Some? && i <= r.value
  {
    if n > 0 {
      LastRecordIsLast(trace, actions, n - 1);
    }
  }

  /** The stored challenge is the latest one issued. */
  lemma {:induction false} ChallengeIsLatest(trace: seq<Desk>, actions: seq<Action>, n: nat)
    requires IsRun(trace, actions) && n <= |actions|
    ensures trace[n].challenge == match LastPrepare(actions, n)
                                  case None => None
                                  case Some(p) => Some(actions[p].token)
  {
    LastPrepareIsLast(actions, n);
    if n > 0 {
      ChallengeIsLatest(trace, actions, n - 1);
      LastPrepareIsLast(actions, n - 1);
      assert trace[n - 1 + 1] == Step(trace[n - 1], actions[n - 1]);
    }
  }

  /** The stored slip is exactly what the latest accepted record wrote. */
  ghost predicate SlipFrom(trace: seq<Desk>, actions: seq<Action>, n: nat, r: nat)
    requires n < |trace|
  {
    && r < n <= |actions| && IsRecord(trace[r], actions[r])
    && trace[n].slip.Some?
    && trace[n].slip == trace[r + 1].slip
    && trace[n].slip.value.token == actions[r].supplied
    && trace[n].slip.value.state == StateFor(actions[r].kind)
    && trace[n].slip.value.artifacts == Artifacts(trace[r], actions[r].paths)
  }

  lemma StepKeepsSlip(d: Desk, a: Action)
    ensures IsRecord(d, a) ==>
              Step(d, a).slip.Some? && Step(d, a).slip.value.token == a.supplied
              && Step(d, a).slip.value.state == StateFor(a.kind)
              && Step(d, a).slip.value.artifacts == Artifacts(d, a.paths)
    ensures !IsRecord(d, a) ==> Step(d, a).slip == d.slip
  {
  }

  lemma {:induction false} SlipIsLatest(trace: seq<Desk>, actions: seq<Action>, n: nat)
    requires IsRun(trace, actions) && n <= |actions|
    ensures match LastRecord(trace, actions, n)
            case None => trace[n].slip.None?
            case Some(r) => SlipFrom(trace, actions, n, r)
  {
    hide Step, Accepted, Artifacts;
    if n > 0 {
      SlipIsLatest(trace, actions, n - 1);
      StepKeepsSlip(trace[n - 1], actions[n - 1]);
      assert trace[n - 1 + 1] == Step(trace[n - 1], actions[n - 1]);
    }
  }

  /** No challenge is issued under the token of the receipt that lies there. */
  ghost predicate TokensRenewed(trace: seq<Desk>, actions: seq<Action>) {
    |actions| < |trace| &&
    forall i :: 0 <= i < |actions| && IsPrepare(actions[i]) && trace[i].slip.Some? ==>
      trace[i].slip.value.token != actions[i].token
  }

  /** The latest record came after the latest challenge. */
  ghost predicate CurrentRecord(trace: seq<Desk>, actions: seq<Action>, n: nat)
    requires n <= |actions| <= |trace|
  {
    && LastPrepare(actions, n).Some? && LastRecord(trace, actions, n).Some?
    && LastPrepare(actions, n).value < LastRecord(trace, actions, n).value
  }

  /** A receipt written after the latest challenge carries its token. */
  lemma CurrentRecordMatches(trace: seq<Desk>, actions: seq<Action>, n: nat)
    requires IsRun(trace, actions) && n <= |actions| && CurrentRecord(trace, actions, n)
    ensures Matches(trace[n])
  {
    var p, r := LastPrepare(actions, n).value, LastRecord(trace, actions, n).value;
    SlipIsLatest(trace, actions, n);
    ChallengeIsLatest(trace, actions, n);
    LastPrepareIsLast(actions, n);
    LastRecordIsLast(trace, actions, n);
    ChallengeIsLatest(trace, actions, r);
    LastPrepareIsLast(actions, r);
  }

  /** As long as tokens are renewed, a receipt that matches the challenge was written after it. */
  lemma MatchingSlipIsCurrent(trace: seq<Desk>, actions: seq<Action>, n: nat)
    requires IsRun(trace, actions) && n <= |actions| && TokensRenewed(trace, actions)
    ensures Matches(trace[n]) <==> CurrentRecord(trace, actions, n)
  {
    SlipIsLatest(trace, actions, n);
    ChallengeIsLatest(trace, actions, n);
    if CurrentRecord(trace, actions, n) {
      CurrentRecordMatches(trace, actions, n);
    } else if Matches(trace[n]) {
      LastPrepareIsLast(actions, n);
      LastRecordIsLast(trace, actions, n);
      var p := LastPrepare(actions, n).value;
      LastRecordIsLast(trace, actions, p);
      SlipIsLatest(trace, actions, p);
    }
  }

  /** That condition is exact: it holds of a run if and only if, at every moment of it, a receipt
      matches the challenge exactly when it was written after the challenge. */
  lemma RenewalIsNeeded(trace: seq<Desk>, actions: seq<Action>)
    requires IsRun(trace, actions)
    ensures TokensRenewed(trace, actions) <==>
              forall n :: 0 <= n <= |actions| ==> (Matches(trace[n]) <==> CurrentRecord(trace, actions, n))
  {
    if TokensRenewed(trace, actions) {
      forall n | 0 <= n <= |actions| ensures Matches(trace[n]) <==> CurrentRecord(trace, actions, n) {
        MatchingSlipIsCurrent(trace, actions, n);
      }
    } else {
      var i :| 0 <= i < |actions| && IsPrepare(actions[i]) && trace[i].slip.Some?
               && trace[i].slip.value.token == actions[i].token;
      var n := i + 1;
      assert trace[i + 1] == Step(trace[i], actions[i]);
      assert Matches(trace[n]) && LastPrepare(actions, n) == Some(i);
      LastRecordIsLast(trace, actions, n);
      assert !CurrentRecord(trace, actions, n);
    }
  }

  /** Tokens that are never issued twice are renewed ones. */
  lemma FreshTokensAreRenewed(trace: seq<Desk>, actions: seq<Action>)
    requires IsRun(trace, actions) && FreshTokens(actions)
    ensures TokensRenewed(trace, actions)
  {
    forall i | 0 <= i < |actions| && IsPrepare(actions[i]) && trace[i].slip.Some?
      ensures trace[i].slip.value.token != actions[i].token
    {
      SlipIsLatest(trace, actions, i);
      LastRecordIsLast(trace, actions, i);
      var r := LastRecord(trace, actions, i).value;
      ChallengeIsLatest(trace, actions, r);
      LastPrepareIsLast(actions, r);
    }
  }

  /** A challenge is issued exactly for a token of twelve characters or more, and leaves the
      receipt that lies there alone. */
  lemma ChallengeIsIssued(d: Desk, token: Token)
    ensures Step(d, Prepare(token)) == if |token| >= 12 then Desk(Some(token), d.slip, d.files) else d
  {
  }

  /** A file may change at any time; that changes no other file and nothing on the desk. */
  lemma TouchIsLocal(d: Desk, path: Path, file: Option<File>, p: Path)
    ensures var after := Step(d, Touch(path, file));
            && after.challenge == d.challenge && after.slip == d.slip
            && (p in after.files <==> if p == path then file.Some? else p in d.files)
            && (p in after.files ==> after.files[p] == if p == path then file.value else d.files[p])
  {
  }

  /** What a new challenge does to the receipt that lies there: it is accepted at once exactly
      when it completed under that very token and its expected artifact is unchanged. */
  lemma PrepareRevives(d: Desk, token: Token)
    requires |token| >= MIN_TOKEN
    ensures Verified(Step(d, Prepare(token))) <==>
              && d.slip.Some? && d.slip.value.token == token && d.slip.value.state == Complete
              && Lists(StillValid(d.files, Take(d.slip.value.artifacts, MAX_ARTIFACTS)), EXPECTED)
  {
  }

  /** How a matching receipt came about: either it matched one step earlier, under the same
      challenge, or the last step is the first record since that challenge. */
  lemma MatchingHistory(trace: seq<Desk>, actions: seq<Action>, n: nat)
    requires IsRun(trace, actions) && n <= |actions| && TokensRenewed(trace, actions) && Matches(trace[n])
    ensures n > 0 && |trace| == |actions| + 1
    ensures LastPrepare(actions, n).Some? && LastPrepare(actions, n).value < n - 1
    ensures LastPrepare(actions, n - 1) == LastPrepare(actions, n)
    ensures trace[n] == Step(trace[n - 1], actions[n - 1])
    ensures !Matches(trace[n - 1]) ==>
              && IsRecord(trace[n - 1], actions[n - 1])
              && forall i :: LastPrepare(actions, n).value <= i < n - 1 ==> !IsRecord(trace[i], actions[i])
  {
    hide Step, Matches, Accepted, TokensRenewed;
    MatchingSlipIsCurrent(trace, actions, n);
    LastRecordIsLast(trace, actions, n);
    LastPrepareIsLast(actions, n);
    LastPrepareIsLast(actions, n - 1);
    assert trace[n - 1 + 1] == Step(trace[n - 1], actions[n - 1]);
    if !Matches(trace[n - 1]) {
      MatchingSlipIsCurrent(trace, actions, n - 1);
      LastRecordIsLast(trace, actions, n - 1);
    }
  }

  lemma StepCounts(d: Desk, a: Action)
    ensures IsRecord(d, a) ==>
              && Step(d, a).slip.Some?
              && Step(d, a).slip.value.progressCount
                 == (if Matches(d) then d.slip.value.progressCount else 0) + (if a.kind == Progress then 1 else 0)
              && Step(d, a).slip.value.events
                 == Last(Last(if Matches(d) then d.slip.value.events else [], MAX_EVENTS - 1)
                         + [EventOf(d.files, a.kind, a.paths)], MAX_EVENTS)
    ensures !IsRecord(d, a) ==> Step(d, a).slip == d.slip
  {
    hide Artifacts;
  }

  /** The events of the accepted records from step `from` up to `n`. */
  function EventsBetween(trace: seq<Desk>, actions: seq<Action>, from: nat, n: nat): seq<Event>
    requires from <= n <= |actions| <= |trace|
    decreases n
  {
    if n == from then []
    else EventsBetween(trace, actions, from, n - 1)
         + if IsRecord(trace[n - 1], actions[n - 1])
           then [EventOf(trace[n - 1].files, actions[n - 1].kind, actions[n - 1].paths)] else []
  }

  lemma {:induction false} NoEventsWithoutRecords(trace: seq<Desk>, actions: seq<Action>, from: nat, n: nat)
    requires from <= n <= |actions| <= |trace|
    requires forall i :: from <= i < n ==> !IsRecord(trace[i], actions[i])
    ensures EventsBetween(trace, actions, from, n) == []
    decreases n
  {
    if from < n {
      NoEventsWithoutRecords(trace, actions, from, n - 1);
    }
  }

  function CountProgress(events: seq<Event>): nat {
    if events == [] then 0
    else CountProgress(events[..|events| - 1]) + if events[|events| - 1].kind == Progress then 1 else 0
  }

  lemma CountProgressAppend(events: seq<Event>, event: Event)
    ensures CountProgress(events + [event]) == CountProgress(events) + if event.kind == Progress then 1 else 0
  {
    assert (events + [event])[..|events|] == events;
  }

  /** The progress count is the number of progress records made under the current token, even
      those that have dropped off the event list. */
  lemma {:induction false} ProgressIsCounted(trace: seq<Desk>, actions: seq<Action>, n: nat)
    requires IsRun(trace, actions) && n <= |actions| && TokensRenewed(trace, actions) && Matches(trace[n])
    ensures LastPrepare(actions, n).Some? && LastPrepare(actions, n).value < n
    ensures trace[n].slip.value.progressCount
            == CountProgress(EventsBetween(trace, actions, LastPrepare(actions, n).value, n))
  {
    hide Step, Accepted, IsRun, TokensRenewed, LastPrepare, Matches, Last, Declared, PathsOf, Take;
    assert CountProgress([]) == 0;
    hide CountProgress;
    MatchingHistory(trace, actions, n);
    StepCounts(trace[n - 1], actions[n - 1]);
    var p := LastPrepare(actions, n).value;
    if Matches(trace[n - 1]) {
      ProgressIsCounted(trace, actions, n - 1);
    } else {
      NoEventsWithoutRecords(trace, actions, p, n - 1);
    }
    var before := EventsBetween(trace, actions, p, n - 1);
    if IsRecord(trace[n - 1], actions[n - 1]) {
      CountProgressAppend(before, EventOf(trace[n - 1].files, actions[n - 1].kind, actions[n - 1].paths));
    } else {
      assert EventsBetween(trace, actions, p, n) == before;
    }
  }

  /** Trimming before and after appending loses nothing but the oldest. */
  lemma LastAppend<T>(all: seq<T>, x: T, n: nat)
    requires n > 0
    ensures Last(Last(Last(all, n), n - 1) + [x], n) == Last(all + [x], n)
  {
    if |all| >= n {
      assert Last(Last(all, n), n - 1) == all[|all| - (n - 1)..];
      assert Last(all + [x], n) == all[|all| - (n - 1)..] + [x];
    }
  }

  lemma NothingIsLast<T>(n: nat)
    ensures Last<T>([], n) == []
  {
  }

  /** The receipt's event list is the latest sixteen records made under the current token. */
  lemma {:induction false} EventsAreLatest(trace: seq<Desk>, actions: seq<Action>, n: nat)
    requires IsRun(trace, actions) && n <= |actions| && TokensRenewed(trace, actions) && Matches(trace[n])
    ensures LastPrepare(actions, n).Some? && LastPrepare(actions, n).value < n
    ensures trace[n].slip.value.events
            == Last(EventsBetween(trace, actions, LastPrepare(actions, n).value, n), 16)
  {
    hide Step, Accepted, IsRun, TokensRenewed, LastPrepare, Matches, Last;
    MatchingHistory(trace, actions, n);
    StepCounts(trace[n - 1], actions[n - 1]);
    var p := LastPrepare(actions, n).value;
    if Matches(trace[n - 1]) {
      EventsAreLatest(trace, actions, n - 1);
    } else {
      NoEventsWithoutRecords(trace, actions, p, n - 1);
      assert Last<Event>([], MAX_EVENTS) == [] by { NothingIsLast<Event>(MAX_EVENTS); }
    }
    if IsRecord(trace[n - 1], actions[n - 1]) {
      var event := EventOf(trace[n - 1].files, actions[n - 1].kind, actions[n - 1].paths);
      LastAppend(EventsBetween(trace, actions, p, n - 1), event, MAX_EVENTS);
    } else {
      assert EventsBetween(trace, actions, p, n) == EventsBetween(trace, actions, p, n - 1);
    }
  }

  /** Main result: over any run that renews its tokens, acceptance means that after the latest
      challenge the last record was a completion under that very token, and that the expected
      artifact now is what it was at that record. */
  lemma AcceptanceIsSound(trace: seq<Desk>, actions: seq<Action>, n: nat)
    requires IsRun(trace, actions) && n <= |actions| && TokensRenewed(trace, actions) && Verified(trace[n])
    ensures LastPrepare(actions, n).Some? && LastRecord(trace, actions, n).Some?
    ensures var p, r := LastPrepare(actions, n).value, LastRecord(trace, actions, n).value;
            && p < r < n && actions[p].Prepare? && actions[r].Record?
            && actions[r].kind == Completed && actions[r].supplied == actions[p].token
            && EXPECTED in trace[r].files && EXPECTED in trace[n].files
            && trace[n].files[EXPECTED] == trace[r].files[EXPECTED] && trace[n].files[EXPECTED].size > 0
  {
    MatchingSlipIsCurrent(trace, actions, n);
    SlipIsLatest(trace, actions, n);
    ChallengeIsLatest(trace, actions, n);
    LastPrepareIsLast(actions, n);
    LastRecordIsLast(trace, actions, n);
    var r := LastRecord(trace, actions, n).value;
    ArtifactsAreCurrent(trace[r], actions[r].paths);
    var rows := Take(trace[n].slip.value.artifacts, MAX_ARTIFACTS);
    StillValidMembers(trace[n].files, rows);
    var valid := StillValid(trace[n].files, rows);
    var i :| 0 <= i < |valid| && valid[i].path == EXPECTED;
    assert valid[i] in valid;
  }

  /** And it is complete: a completion under the latest challenge is accepted for as long as
      it stays the last record and its expected artifact keeps its content. */
  lemma CompletionIsAccepted(trace: seq<Desk>, actions: seq<Action>, n: nat)
    requires IsRun(trace, actions) && n <= |actions| && TokensRenewed(trace, actions)
    requires LastPrepare(actions, n).Some? && LastRecord(trace, actions, n).Some?
    requires var p, r := LastPrepare(actions, n).value, LastRecord(trace, actions, n).value;
             && p < r < |actions| && actions[r].Record? && actions[r].kind == Completed
             && EXPECTED in trace[n].files && EXPECTED in trace[r].files
             && trace[n].files[EXPECTED] == trace[r].files[EXPECTED]
    ensures Verified(trace[n])
  {
    MatchingSlipIsCurrent(trace, actions, n);
    SlipIsLatest(trace, actions, n);
    LastRecordIsLast(trace, actions, n);
    var r := LastRecord(trace, actions, n).value;
    var rows := Artifacts(trace[r], actions[r].paths);
    ArtifactsAreCurrent(trace[r], actions[r].paths);
    var i :| 0 <= i < |rows| && rows[i].path == EXPECTED;
    assert rows[i] in rows;
    StillValidMembers(trace[n].files, rows);
    var valid := StillValid(trace[n].files, rows);
    assert rows[i] in valid;
    var k :| 0 <= k < |valid| && valid[k] == rows[i];
  }

  /** Over any run at all, nothing is accepted unless the last record was a completion: a
      receipt or progress report makes it wait, a partial result ends it. */
  lemma OnlyCompletionIsAccepted(trace: seq<Desk>, actions: seq<Action>, n: nat)
    requires IsRun(trace, actions) && n <= |actions| && Verified(trace[n])
    ensures LastRecord(trace, actions, n).Some?
    ensures var r := LastRecord(trace, actions, n).value;
            r < n && actions[r].Record? && actions[r].kind == Completed
  {
    SlipIsLatest(trace, actions, n);
    LastRecordIsLast(trace, actions, n);
  }

  /** Under the current token every other record goes through, a progress report if it names
      its step; each is stored, and what it was shows in the status of the receipt. */
  lemma OtherRecordsGoThrough(d: Desk, supplied: Token, kind: Kind, stepNamed: bool, paths: seq<Path>)
    requires kind != Completed
    ensures var r := Record(supplied, kind, stepNamed, paths);
            && (Accepted(d, r) <==> d.challenge == Some(supplied) && (stepNamed || kind != Progress))
            && (!Accepted(d, r) ==> Step(d, r) == d)
            && (Accepted(d, r) ==>
                  && Step(d, r).slip.Some? && Step(d, r).slip.value.token == supplied && Matches(Step(d, r))
                  && Step(d, r).slip.value.state == (if kind == Partial then Incomplete else Running)
                  && !Verified(Step(d, r)) && Step(d, r).files == d.files)
  {
    hide Artifacts, EventOf, Last;
  }

  /** A completed receipt always lists the expected artifact. */
  lemma CompletionListsArtifact(trace: seq<Desk>, actions: seq<Action>, n: nat)
    requires IsRun(trace, actions) && n <= |actions|
    requires trace[n].slip.Some? && trace[n].slip.value.state == Complete
    ensures Lists(trace[n].slip.value.artifacts, EXPECTED)
  {
    SlipIsLatest(trace, actions, n);
    LastRecordIsLast(trace, actions, n);
  }

  // ------------------------------------------------- when a completion goes through

  /** The rows carried over from the receipt that lies there. */
  function Prior(d: Desk): seq<Artifact> {
    if Matches(d) then StillValid(d.files, Take(d.slip.value.artifacts, MAX_ARTIFACTS)) else []
  }

  /** The rows a record holds once the first `k` declared paths have been looked at. */
  function Gathered(d: Desk, paths: seq<Path>, k: nat): seq<Artifact>
    requires k <= |paths|
  {
    if k == 0 then Prior(d)
    else
      var rows := Gathered(d, paths, k - 1);
      match Check(d.files, paths[k - 1])
      case None => rows
      case Some(row) => if row in rows then rows else rows + [row]
  }

  /** Of the first `k` declared paths, those that are present and not carried over. */
  function Newcomers(d: Desk, paths: seq<Path>, k: nat): set<Path>
    requires k <= |paths|
  {
    set i | 0 <= i < k && Check(d.files, paths[i]).Some? && Check(d.files, paths[i]).value !in Prior(d) :: paths[i]
  }

  lemma UnionAppend(prior: seq<Artifact>, rows: seq<Artifact>, row: Artifact)
    ensures Union(prior, rows + [row])
            == if row in Union(prior, rows) then Union(prior, rows) else Union(prior, rows) + [row]
  {
    assert (rows + [row])[..|rows|] == rows;
  }

  lemma {:induction false} GatheredIsUnion(d: Desk, paths: seq<Path>, k: nat)
    requires k <= |paths|
    ensures Gathered(d, paths, k) == Union(Prior(d), Declared(d.files, paths[..k]))
    ensures Prior(d) <= Gathered(d, paths, k)
  {
    hide Prior, Check;
    if k == 0 {
      assert paths[..k] == [];
    } else {
      GatheredIsUnion(d, paths, k - 1);
      assert paths[..k][..k - 1] == paths[..k - 1];
      var rows := Declared(d.files, paths[..k - 1]);
      UnionMembers(Prior(d), rows);
      var checked := Check(d.files, paths[k - 1]);
      if checked.Some? && checked.value !in rows {
        UnionAppend(Prior(d), rows, checked.value);
      }
    }
  }

  lemma PriorIsCurrent(d: Desk)
    ensures forall r :: r in Prior(d) ==> Check(d.files, r.path) == Some(r)
    ensures |Prior(d)| <= MAX_ARTIFACTS
  {
    if Matches(d) {
      StillValidMembers(d.files, Take(d.slip.value.artifacts, MAX_ARTIFACTS));
    }
  }

  lemma NewcomersStep(d: Desk, paths: seq<Path>, k: nat)
    requires k < |paths|
    ensures Newcomers(d, paths, k + 1)
            == Newcomers(d, paths, k)
               + if Check(d.files, paths[k]).Some? && Check(d.files, paths[k]).value !in Prior(d)
                 then {paths[k]} else {}
  {
  }

  lemma NoNewcomers(d: Desk, paths: seq<Path>)
    ensures Newcomers(d, paths, 0) == {}
  {
  }

  lemma CheckedPath(files: Files, path: Path)
    ensures Check(files, path).Some? ==> Check(files, path).value.path == path
  {
  }

  lemma {:induction false} GatheredSize(d: Desk, paths: seq<Path>, k: nat)
    requires k <= |paths|
    ensures |Gathered(d, paths, k)| == |Prior(d)| + |Newcomers(d, paths, k)|
    ensures forall r :: r in Gathered(d, paths, k) <==>
              r in Prior(d) || (r.path in Newcomers(d, paths, k) && Check(d.files, r.path) == Some(r))
  {
    hide Prior, Newcomers, Check;
    if k == 0 {
      NoNewcomers(d, paths);
    } else {
      GatheredSize(d, paths, k - 1);
      NewcomersStep(d, paths, k - 1);
      var path, before := paths[k - 1], Newcomers(d, paths, k - 1);
      CheckedPath(d.files, path);
      var checked := Check(d.files, path);
      if checked.Some? {
        assert checked.value in Gathered(d, paths, k - 1) <==> checked.value in Prior(d) || path in before;
      }
      if checked.Some? && checked.value !in Prior(d) && path !in before {
        assert |before + {path}| == |before| + 1;
      } else {
        assert Newcomers(d, paths, k) == before;
      }
    }
  }

  /** Row `i`, if it was not carried over, was put there by a path declared when `i` rows were held. */
  lemma {:induction false} RowOrigin(d: Desk, paths: seq<Path>, k: nat, i: nat) returns (m: nat)
    requires k <= |paths| && |Prior(d)| <= i < |Gathered(d, paths, k)|
    ensures m < k && |Gathered(d, paths, m)| == i
    ensures Check(d.files, paths[m]) == Some(Gathered(d, paths, k)[i])
    decreases k
  {
    if i < |Gathered(d, paths, k - 1)| {
      m := RowOrigin(d, paths, k - 1, i);
    } else {
      m := k - 1;
    }
  }

  lemma {:induction false} GatheredGrows(d: Desk, paths: seq<Path>, k: nat, n: nat)
    requires k <= n <= |paths|
    ensures Gathered(d, paths, k) <= Gathered(d, paths, n)
    decreases n
  {
    if k < n {
      GatheredGrows(d, paths, k, n - 1);
    }
  }

  /** The expected artifact gets a row: it is carried over, or it is among the first eight
      declared paths and fewer than eight rows are held when its turn comes. */
  ghost predicate GetsARow(d: Desk, paths: seq<Path>) {
    || Lists(Prior(d), EXPECTED)
    || exists k :: 0 <= k < |paths| && k < MAX_ARTIFACTS && paths[k] == EXPECTED
         && Check(d.files, EXPECTED).Some? && |Prior(d)| + |Newcomers(d, paths, k)| < MAX_ARTIFACTS
  }

  lemma ArtifactsAreGathered(d: Desk, paths: seq<Path>)
    ensures var n := if |paths| < MAX_ARTIFACTS then |paths| else MAX_ARTIFACTS;
            Artifacts(d, paths) == Take(Gathered(d, paths, n), MAX_ARTIFACTS)
  {
    var n := if |paths| < MAX_ARTIFACTS then |paths| else MAX_ARTIFACTS;
    GatheredIsUnion(d, paths, n);
    assert Take(paths, MAX_ARTIFACTS) == paths[..n];
  }

  lemma GatheredNext(d: Desk, paths: seq<Path>, k: nat)
    requires k < |paths| && Check(d.files, paths[k]).Some?
    ensures Check(d.files, paths[k]).value.path == paths[k]
    ensures Check(d.files, paths[k]).value in Gathered(d, paths, k + 1)
    ensures |Gathered(d, paths, k + 1)| <= |Gathered(d, paths, k)| + 1
  {
    hide Prior;
  }

  lemma ListedAtOnce(d: Desk, paths: seq<Path>, k: nat, n: nat)
    requires k < n <= |paths| && Check(d.files, paths[k]).Some? && |Gathered(d, paths, k)| < MAX_ARTIFACTS
    ensures Lists(Take(Gathered(d, paths, n), MAX_ARTIFACTS), paths[k])
  {
    hide Gathered, Check;
    GatheredNext(d, paths, k);
    GatheredGrows(d, paths, k + 1, n);
    var rows, row := Gathered(d, paths, k + 1), Check(d.files, paths[k]).value;
    var i :| 0 <= i < |rows| && rows[i] == row;
    assert Take(Gathered(d, paths, n), MAX_ARTIFACTS)[i] == row;
  }

  /** Exactly when a completion goes through, for any receipt and any declared paths. */
  lemma CompletionGoesThrough(d: Desk, supplied: Token, stepNamed: bool, paths: seq<Path>)
    ensures Accepted(d, Record(supplied, Completed, stepNamed, paths)) <==>
              d.challenge == Some(supplied) && GetsARow(d, paths)
  {
    hide Prior, Gathered, Newcomers;
    var n := if |paths| < MAX_ARTIFACTS then |paths| else MAX_ARTIFACTS;
    ArtifactsAreGathered(d, paths);
    GatheredIsUnion(d, paths, n);
    PriorIsCurrent(d);
    var all := Artifacts(d, paths);
    var prior := Prior(d);
    if Lists(all, EXPECTED) {
      var i :| 0 <= i < |all| && all[i].path == EXPECTED;
      if i < |prior| {
        assert prior[i] == all[i];
      } else {
        var m := RowOrigin(d, paths, n, i);
        GatheredSize(d, paths, m);
        assert paths[m] == EXPECTED;
      }
    }
    if Lists(prior, EXPECTED) {
      var i :| 0 <= i < |prior| && prior[i].path == EXPECTED;
      assert all[i] == prior[i];
    } else if GetsARow(d, paths) {
      var k :| 0 <= k < |paths| && k < MAX_ARTIFACTS && paths[k] == EXPECTED
               && Check(d.files, EXPECTED).Some? && |prior| + |Newcomers(d, paths, k)| < MAX_ARTIFACTS;
      GatheredSize(d, paths, k);
      ListedAtOnce(d, paths, k, n);
    }
  }

  const EIGHT_OTHERS: seq<Path> := [1, 2, 3, 4, 5, 6, 7, 8]

  ghost predicate NineFiles(files: Files) {
    forall p :: 0 <= p <= 8 ==> p in files && files[p].size > 0
  }

  /** Declared ninth, the expected artifact is cut off before it is looked at. */
  lemma NinthPathIsCutOff(d: Desk, token: Token)
    requires NineFiles(d.files) && d.challenge == Some(token) && d.slip.None?
    ensures Check(d.files, EXPECTED).Some?
    ensures !Accepted(d, Record(token, Completed, false, EIGHT_OTHERS + [EXPECTED]))
  {
    CompletionGoesThrough(d, token, false, EIGHT_OTHERS + [EXPECTED]);
    assert Prior(d) == [];
    assert 0 in d.files;
  }

  lemma EightNewcomers(d: Desk)
    requires NineFiles(d.files) && d.slip.None?
    ensures Prior(d) == [] && Newcomers(d, EIGHT_OTHERS, 8) == {1, 2, 3, 4, 5, 6, 7, 8}
  {
    var paths := EIGHT_OTHERS;
    forall p | 1 <= p <= 8 ensures p in Newcomers(d, paths, 8) {
      assert paths[p - 1] == p && p in d.files;
    }
  }

  lemma EightRows(d: Desk)
    requires NineFiles(d.files) && d.slip.None?
    ensures |Artifacts(d, EIGHT_OTHERS)| == MAX_ARTIFACTS && !Lists(Artifacts(d, EIGHT_OTHERS), EXPECTED)
  {
    hide Artifacts, Gathered, Newcomers, Prior, NineFiles, Check;
    var paths := EIGHT_OTHERS;
    ArtifactsAreGathered(d, paths);
    GatheredSize(d, paths, 8);
    EightNewcomers(d);
    var rows := Artifacts(d, paths);
    forall i | 0 <= i < |rows| ensures rows[i].path != EXPECTED {
      assert rows[i] in Gathered(d, paths, 8);
    }
  }

  lemma {:induction false} AllStillValid(files: Files, rows: seq<Artifact>)
    requires forall r :: r in rows ==> Check(files, r.path) == Some(r)
    ensures StillValid(files, rows) == rows
  {
    hide Check;
    if rows != [] {
      var init, last := rows[..|rows| - 1], rows[|rows| - 1];
      assert rows == init + [last] && last in rows;
      AllStillValid(files, init);
      assert StillValid(files, rows) == StillValid(files, init) + [last];
    }
  }

  /** A run into a crowded receipt: one progress record naming eight other artifacts, and from
      then on no completion goes through under that token, though the expected file is there. */
  lemma CrowdedReceiptCannotComplete(token: Token, files: Files, paths: seq<Path>, stepNamed: bool)
    requires |token| >= MIN_TOKEN && NineFiles(files)
    ensures var d1 := Step(Desk(None, None, files), Prepare(token));
            var d2 := Step(d1, Record(token, Progress, true, EIGHT_OTHERS));
            && d2 != d1 && d2.challenge == Some(token) && Check(d2.files, EXPECTED).Some?
            && !Accepted(d2, Record(token, Completed, stepNamed, paths))
  {
    var d1 := Step(Desk(None, None, files), Prepare(token));
    var d2 := Step(d1, Record(token, Progress, true, EIGHT_OTHERS));
    assert d1 == Desk(Some(token), None, files);
    EightRows(d1);
    var rows := Artifacts(d1, EIGHT_OTHERS);
    ArtifactsAreCurrent(d1, EIGHT_OTHERS);
    hide Artifacts;
    assert Matches(d2) && d2.slip.value.artifacts == rows && d2.files == files;
    AllStillValid(files, rows);
    assert Prior(d2) == rows;
    CompletionGoesThrough(d2, token, stepNamed, paths);
    assert 0 in files;
  }

  lemma SingleRow(files: Files, row: Artifact)
    requires Check(files, row.path) == Some(row)
    ensures Declared(files, [row.path]) == [row] && Union([], [row]) == [row] && StillValid(files, [row]) == [row]
  {
    assert [row.path][..0] == [] && [row][..0] == [];
    assert Declared(files, []) == [] && Union([], []) == [] && StillValid(files, []) == [];
  }

  /** Such a run: re-issuing a token revives a receipt from before the challenge. */
  lemma ReusedTokenRevivesReceipt(token: Token, digest: int, size: nat)
    requires |token| >= MIN_TOKEN && size > 0
    ensures var d0 := Desk(None, None, map[EXPECTED := File(digest, size)]);
            var d1 := Step(d0, Prepare(token));
            var d2 := Step(d1, Record(token, Completed, false, [EXPECTED]));
            var d3 := Step(d2, Prepare(token));
            Verified(d2) && Verified(d3) && d3.slip == d2.slip
  {
    var files: Files := map[EXPECTED := File(digest, size)];
    var row := Artifact(EXPECTED, digest, size);
    SingleRow(files, row);
    assert [row][0].path == EXPECTED;
    hide Declared, Union, StillValid;
    var d1 := Desk(Some(token), None, files);
    assert Artifacts(d1, [EXPECTED]) == [row];
    assert Lists([row], EXPECTED);
    var d2 := Desk(Some(token), Some(Slip(token, Complete, [row], 0, [Event(Completed, [EXPECTED])])), files);
    assert Verified(d2);
  }

  // ----------------------------------------------------------------- the command

  method CheckDeclared(files: Files, paths: seq<Path>) returns (rows: seq<Artifact>)
    ensures rows == Declared(files, paths)
  {
    rows := [];
    for k := 0 to |paths|
      invariant rows == Declared(files, paths[..k])
    {
      assert paths[..k + 1][..k] == paths[..k];
      var checked := Check(files, paths[k]);
      if checked.Some? && checked.value !in rows {
        rows := rows + [checked.value];
      }
    }
    assert paths[..|paths|] == paths;
  }

  method Recheck(files: Files, rows: seq<Artifact>) returns (valid: seq<Artifact>)
    ensures valid == StillValid(files, rows)
  {
    valid := [];
    for k := 0 to |rows|
      invariant valid == StillValid(files, rows[..k])
    {
      assert rows[..k + 1][..k] == rows[..k];
      if Check(files, rows[k].path) == Some(rows[k]) {
        valid := valid + [rows[k]];
      }
    }
    assert rows[..|rows|] == rows;
  }

  method MergeRows(prior: seq<Artifact>, rows: seq<Artifact>) returns (all: seq<Artifact>)
    ensures all == Union(prior, rows)
  {
    all := prior;
    for k := 0 to |rows|
      invariant all == Union(prior, rows[..k])
    {
      assert rows[..k + 1][..k] == rows[..k];
      if rows[k] !in all {
        all := all + [rows[k]];
      }
    }
    assert rows[..|rows|] == rows;
  }

  /** The persisted challenge and receipt of one candidate. */
  class ReceiptStore {
    var challenge: Option<Token>
    var slip: Option<Slip>

    constructor ()
      ensures challenge.None? && slip.None?
    {
      challenge, slip := None, None;
    }

    function View(files: Files): Desk
      reads this
    {
      Desk(challenge, slip, files)
    }

    method PrepareReceipt(token: Token, files: Files) returns (ok: bool)
      modifies this
      ensures View(files) == Step(old(View(files)), Prepare(token))
      ensures ok <==> Accepted(old(View(files)), Prepare(token))
    {
      if |token| < MIN_TOKEN {
        return false;
      }
      challenge := Some(token);
      return true;
    }

    method RecordReceipt(supplied: Token, kind: Kind, stepNamed: bool, paths: seq<Path>, files: Files)
        returns (ok: bool)
      modifies this
      ensures View(files) == Step(old(View(files)), Record(supplied, kind, stepNamed, paths))
      ensures ok <==> Accepted(old(View(files)), Record(supplied, kind, stepNamed, paths))
    {
      hide Declared, Union, StillValid, Last, Take, Check, StateFor;
      var matches := slip.Some? && challenge.Some? && slip.value.token == challenge.value;
      var rows := CheckDeclared(files, Take(paths, MAX_ARTIFACTS));
      if challenge != Some(supplied) {
        return false;
      }
      var prior := [];
      if matches {
        prior := Recheck(files, Take(slip.value.artifacts, MAX_ARTIFACTS));
      }
      var all := MergeRows(prior, rows);
      all := Take(all, MAX_ARTIFACTS);
      var expectedPresent := exists i :: 0 <= i < |all| && all[i].path == EXPECTED;
      if kind == Progress && !stepNamed {
        return false;
      }
      if kind == Completed && !expectedPresent {
        return false;
      }
      var events := if matches then slip.value.events else [];
      events := Last(events, MAX_EVENTS - 1) + [Event(kind, PathsOf(rows))];
      var count := if matches then slip.value.progressCount else 0;
      if kind == Progress {
        count := count + 1;
      }
      slip := Some(Slip(supplied, StateFor(kind), all, count, Last(events, MAX_EVENTS)));
      return true;
    }

    method VerifyReceipt(files: Files) returns (verified: bool)
      ensures verified <==> Verified(View(files))
    {
      if slip.None? || challenge.None? {
        return false;
      }
      var valid := Recheck(files, Take(slip.value.artifacts, MAX_ARTIFACTS));
      verified := slip.value.token == challenge.value && slip.value.state == Complete
                  && exists i :: 0 <= i < |valid| && valid[i].path == EXPECTED;
    }
  }
}
