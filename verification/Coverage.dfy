/** Coverage accumulation: how ledger verdicts move the review state of inventory regions,
    which residual gaps remain, and when the audit counts as closed. */
module Coverage {
  import opened Options

  // ------------------------------------------------------------- audit states

  /** In rank order, weakest first. */
  datatype State = Unseen | Indexed | Triaged | Reviewed | RuntimeVerified | Excluded

  /** A stored state value: absent or empty, one of the six, or any other text. */
  datatype Raw = Missing | Known(state: State) | Garbled

  function Normalize(v: Raw): State {
    if v.Known? then v.state else Indexed
  }

  function Rank(s: State): nat {
    match s
    case Unseen => 0
    case Indexed => 1
    case Triaged => 2
    case Reviewed => 3
    case RuntimeVerified => 4
    case Excluded => 5
  }

  function Merge(current: Raw, incoming: Raw): State {
    if Rank(Normalize(incoming)) > Rank(Normalize(current)) then Normalize(incoming) else Normalize(current)
  }

  predicate IsReviewed(s: State) {
    s in {Reviewed, RuntimeVerified, Excluded}
  }

  /** The states are in order of strength, and the reviewed ones are those from `reviewed` on. */
  lemma RankOrdersStates()
    ensures Rank(Unseen) < Rank(Indexed) < Rank(Triaged) < Rank(Reviewed) < Rank(RuntimeVerified) < Rank(Excluded)
    ensures forall s :: IsReviewed(s) <==> Rank(s) >= Rank(Reviewed)
    ensures forall s, t :: Rank(s) == Rank(t) ==> s == t
  {
    forall s ensures IsReviewed(s) <==> Rank(s) >= Rank(Reviewed) {
    }
    forall s, t ensures Rank(s) == Rank(t) ==> s == t {
    }
  }

  /** `merge_state` is the join of that order, and never leaves the reviewed states. */
  lemma MergeIsJoin(a: Raw, b: Raw, c: Raw)
    ensures Merge(a, b) == Merge(b, a)
    ensures Merge(Known(Merge(a, b)), c) == Merge(a, Known(Merge(b, c)))
    ensures Merge(a, a) == Normalize(a)
    ensures Merge(a, b) in {Normalize(a), Normalize(b)} && Rank(Merge(a, b)) >= Rank(Normalize(a))
    ensures IsReviewed(Normalize(a)) ==> IsReviewed(Merge(a, b))
  {
    RankOrdersStates();
    hide Rank, IsReviewed;
  }

  /** No state, or a text that is none, counts as `indexed`. */
  lemma UnstatedIsIndexed(s: State)
    ensures Merge(Missing, Known(s)) == Merge(Garbled, Known(s)) == if s == Unseen then Indexed else s
  {
  }

  // ---------------------------------------------------------------- inventory

  datatype Kind = Entries | Sinks | Flows | Controls
  type Key = (Kind, int)

  /** One indexed record.  `severe` makes an unreviewed one a high-risk gap; `critical` says
      a control belongs to a security-critical category. */
  datatype Region = Region(kind: Kind, id: int, review: Raw, audit: Raw, candidates: seq<int>,
                           severe: bool, critical: bool, forwardSeen: bool, backwardSeen: bool)

  function KeyOf(r: Region): Key { (r.kind, r.id) }

  /** The state a report reads: the review state, else the audit state, else `indexed`. */
  function StateOf(r: Region): State {
    if r.review != Missing then Normalize(r.review) else Normalize(r.audit)
  }

  function Keys(regions: seq<Region>): seq<Key> {
    seq(|regions|, i requires 0 <= i < |regions| => KeyOf(regions[i]))
  }

  /** `by_id`: the last record with a key answers for it. */
  function LastIndex(keys: seq<Key>, key: Key): (r: Option<nat>)
    ensures r.Some? ==> r.value < |keys| && keys[r.value] == key
  {
    if keys == [] then None
    else if keys[|keys| - 1] == key then Some(|keys| - 1)
    else LastIndex(keys[..|keys| - 1], key)
  }

  // ----------------------------------------------------------------- verdicts

  datatype Status = OpenVerdict | ExclusionVerdict | OtherVerdict

  /** One coverage record; `candidate` is 0 when it names none. */
  datatype Verdict = Verdict(candidate: int, status: Status, touched: seq<Key>)

  function Target(v: Verdict): State {
    if v.status == ExclusionVerdict then Excluded else Reviewed
  }

  function Mark(r: Region, target: State, candidate: int): Region {
    r.(review := Known(Merge(r.review, Known(target))),
       candidates := if candidate != 0 && candidate !in r.candidates then r.candidates + [candidate] else r.candidates)
  }

  function MarkKey(regions: seq<Region>, key: Key, target: State, candidate: int): (r: seq<Region>)
    ensures |r| == |regions|
  {
    match LastIndex(Keys(regions), key)
    case None => regions
    case Some(i) => regions[i := Mark(regions[i], target, candidate)]
  }

  function MarkKeys(regions: seq<Region>, keys: seq<Key>, target: State, candidate: int): (r: seq<Region>)
    ensures |r| == |regions|
  {
    if keys == [] then regions
    else MarkKey(MarkKeys(regions, keys[..|keys| - 1], target, candidate), keys[|keys| - 1], target, candidate)
  }

  function Apply(regions: seq<Region>, v: Verdict): (r: seq<Region>)
    ensures |r| == |regions|
  {
    if v.status == OpenVerdict then regions else MarkKeys(regions, v.touched, Target(v), v.candidate)
  }

  function ApplyAll(regions: seq<Region>, vs: seq<Verdict>): (r: seq<Region>)
    ensures |r| == |regions|
  {
    if vs == [] then regions else Apply(ApplyAll(regions, vs[..|vs| - 1]), vs[|vs| - 1])
  }

  /** How many of `touched` name a record of `kind` that is there. */
  function MarksIn(keys: seq<Key>, touched: seq<Key>, kind: Kind): nat {
    if touched == [] then 0
    else
      var key := touched[|touched| - 1];
      MarksIn(keys, touched[..|touched| - 1], kind) + if key.0 == kind && LastIndex(keys, key).Some? then 1 else 0
  }

  function MarksOf(keys: seq<Key>, vs: seq<Verdict>, kind: Kind): nat {
    if vs == [] then 0
    else
      var v := vs[|vs| - 1];
      MarksOf(keys, vs[..|vs| - 1], kind) + if v.status == OpenVerdict then 0 else MarksIn(keys, v.touched, kind)
  }

  lemma MarkKeepsKeys(regions: seq<Region>, key: Key, target: State, candidate: int)
    ensures Keys(MarkKey(regions, key, target, candidate)) == Keys(regions)
  {
  }

  class Inventory {
    var regions: seq<Region>

    constructor (regions: seq<Region>)
      ensures this.regions == regions
    {
      this.regions := regions;
    }

    method IndexById() returns (byId: map<Key, nat>)
      ensures forall key :: key in byId <==> LastIndex(Keys(regions), key).Some?
      ensures forall key :: key in byId ==> LastIndex(Keys(regions), key) == Some(byId[key])
    {
      byId := map[];
      for i := 0 to |regions|
        invariant forall key :: key in byId <==> LastIndex(Keys(regions)[..i], key).Some?
        invariant forall key :: key in byId ==> LastIndex(Keys(regions)[..i], key) == Some(byId[key])
      {
        assert Keys(regions)[..i + 1][..i] == Keys(regions)[..i];
        byId := byId[KeyOf(regions[i]) := i];
      }
      assert Keys(regions)[..|regions|] == Keys(regions);
    }

    method MarkOne(key: Key, target: State, candidate: int, byId: map<Key, nat>, marks0: map<Kind, nat>)
        returns (marks: map<Kind, nat>)
      requires forall kind :: kind in marks0
      requires forall key :: key in byId <==> LastIndex(Keys(regions), key).Some?
      requires forall key :: key in byId ==> LastIndex(Keys(regions), key) == Some(byId[key])
      modifies this
      ensures regions == MarkKey(old(regions), key, target, candidate)
      ensures Keys(regions) == Keys(old(regions))
      ensures marks == if LastIndex(Keys(regions), key).None? then marks0
                       else marks0[key.0 := marks0[key.0] + 1]
    {
      marks := marks0;
      MarkKeepsKeys(regions, key, target, candidate);
      if key in byId {
        var i := byId[key];
        regions := regions[i := Mark(regions[i], target, candidate)];
        marks := marks[key.0 := marks[key.0] + 1];
      }
    }

    method MarkTouched(v: Verdict, byId: map<Key, nat>, marks0: map<Kind, nat>) returns (marks: map<Kind, nat>)
      requires forall kind :: kind in marks0
      requires forall key :: key in byId <==> LastIndex(Keys(regions), key).Some?
      requires forall key :: key in byId ==> LastIndex(Keys(regions), key) == Some(byId[key])
      modifies this
      ensures regions == MarkKeys(old(regions), v.touched, Target(v), v.candidate)
      ensures Keys(regions) == Keys(old(regions))
      ensures forall kind :: kind in marks && marks[kind] == marks0[kind] + MarksIn(Keys(regions), v.touched, kind)
    {
      hide MarkKey, LastIndex, Keys, Target;
      marks := marks0;
      for k := 0 to |v.touched|
        invariant forall kind :: kind in marks
                    && marks[kind] == marks0[kind] + MarksIn(Keys(regions), v.touched[..k], kind)
        invariant regions == MarkKeys(old(regions), v.touched[..k], Target(v), v.candidate)
        invariant Keys(regions) == Keys(old(regions))
      {
        assert v.touched[..k + 1][..k] == v.touched[..k];
        marks := MarkOne(v.touched[k], Target(v), v.candidate, byId, marks);
      }
      assert v.touched[..|v.touched|] == v.touched;
    }

    /** `apply_candidate_coverage`. */
    method ApplyCandidateCoverage(vs: seq<Verdict>) returns (marks: map<Kind, nat>)
      modifies this
      ensures regions == ApplyAll(old(regions), vs)
      ensures forall kind :: kind in marks && marks[kind] == MarksOf(Keys(old(regions)), vs, kind)
    {
      var byId := IndexById();
      marks := map[Entries := 0, Sinks := 0, Flows := 0, Controls := 0];
      assert vs[..0] == [];
      forall kind ensures kind in marks && marks[kind] == 0 {
        match kind
        case Entries =>
        case Sinks =>
        case Flows =>
        case Controls =>
      }
      for n := 0 to |vs|
        invariant regions == ApplyAll(old(regions), vs[..n])
        invariant forall kind :: kind in marks && marks[kind] == MarksOf(Keys(old(regions)), vs[..n], kind)
        invariant Keys(regions) == Keys(old(regions))
      {
        assert vs[..n + 1][..n] == vs[..n];
        if vs[n].status != OpenVerdict {
          marks := MarkTouched(vs[n], byId, marks);
        }
      }
      assert vs[..|vs|] == vs;
    }
  }

  lemma {:induction false} MarkKeysKeepsKeys(regions: seq<Region>, keys: seq<Key>, target: State, candidate: int)
    ensures Keys(MarkKeys(regions, keys, target, candidate)) == Keys(regions)
  {
    if keys != [] {
      MarkKeysKeepsKeys(regions, keys[..|keys| - 1], target, candidate);
      MarkKeepsKeys(MarkKeys(regions, keys[..|keys| - 1], target, candidate), keys[|keys| - 1], target, candidate);
    }
  }

  lemma {:induction false} ApplyKeepsKeys(regions: seq<Region>, vs: seq<Verdict>)
    ensures Keys(ApplyAll(regions, vs)) == Keys(regions)
  {
    if vs != [] {
      var init, v := vs[..|vs| - 1], vs[|vs| - 1];
      ApplyKeepsKeys(regions, init);
      MarkKeysKeepsKeys(ApplyAll(regions, init), v.touched, Target(v), v.candidate);
    }
  }

  // ------------------------------------------- what a set of verdicts amounts to

  predicate Hits(keys: seq<Key>, touched: seq<Key>, i: nat) {
    exists k :: 0 <= k < |touched| && LastIndex(keys, touched[k]) == Some(i)
  }

  /** `v` decides region `i`. */
  predicate Decides(keys: seq<Key>, v: Verdict, i: nat) {
    v.status != OpenVerdict && Hits(keys, v.touched, i)
  }

  lemma HitsAppend(keys: seq<Key>, touched: seq<Key>, key: Key, i: nat)
    ensures Hits(keys, touched + [key], i) <==> Hits(keys, touched, i) || LastIndex(keys, key) == Some(i)
  {
    var all := touched + [key];
    assert all[|touched|] == key;
    assert forall k :: 0 <= k < |touched| ==> all[k] == touched[k];
  }

  ghost predicate SomeDecides(keys: seq<Key>, vs: seq<Verdict>, i: nat, target: State) {
    exists v :: v in vs && Decides(keys, v, i) && Target(v) == target
  }

  /** The strongest verdict on region `i`, if any decides it. */
  ghost function Strongest(keys: seq<Key>, vs: seq<Verdict>, i: nat): Raw {
    if SomeDecides(keys, vs, i, Excluded) then Known(Excluded)
    else if SomeDecides(keys, vs, i, Reviewed) then Known(Reviewed)
    else Missing
  }

  function Joined(review: Raw, strongest: Raw): Raw {
    if strongest.Missing? then review else Known(Merge(review, strongest))
  }

  lemma NothingHits(keys: seq<Key>, i: nat)
    ensures !Hits(keys, [], i)
  {
  }

  lemma {:induction false} ReviewAfterKeys(regions: seq<Region>, touched: seq<Key>, target: State,
                                           candidate: int, i: nat)
    requires i < |regions| && target in {Reviewed, Excluded}
    ensures MarkKeys(regions, touched, target, candidate)[i].review
            == if Hits(Keys(regions), touched, i) then Known(Merge(regions[i].review, Known(target)))
               else regions[i].review
  {
    hide Keys, Hits;
    if touched == [] {
      assert !Hits(Keys(regions), touched, i) by { NothingHits(Keys(regions), i); }
    } else {
      var init, key := touched[..|touched| - 1], touched[|touched| - 1];
      ReviewAfterKeys(regions, init, target, candidate, i);
      MarkKeysKeepsKeys(regions, init, target, candidate);
      assert touched == init + [key];
      HitsAppend(Keys(regions), init, key, i);
    }
  }

  lemma StrongestAppend(keys: seq<Key>, vs: seq<Verdict>, v: Verdict, i: nat)
    ensures Strongest(keys, vs + [v], i)
            == if !Decides(keys, v, i) then Strongest(keys, vs, i)
               else if Target(v) == Excluded || Strongest(keys, vs, i) == Known(Excluded) then Known(Excluded)
               else Known(Reviewed)
  {
    var all := vs + [v];
    forall t ensures SomeDecides(keys, all, i, t) <==>
                     SomeDecides(keys, vs, i, t) || (Decides(keys, v, i) && Target(v) == t)
    {
      if SomeDecides(keys, vs, i, t) {
        var x :| x in vs && Decides(keys, x, i) && Target(x) == t;
        assert x in all;
      }
      assert v in all;
    }
  }

  /** Accumulation is a join: the final review state of a region is its own state joined with
      the strongest verdict that decides it, and nothing else about the ledger matters. */
  lemma {:induction false} AccumulationIsJoin(regions: seq<Region>, vs: seq<Verdict>, i: nat)
    requires i < |regions|
    ensures ApplyAll(regions, vs)[i].review == Joined(regions[i].review, Strongest(Keys(regions), vs, i))
  {
    if vs != [] {
      var init, v := vs[..|vs| - 1], vs[|vs| - 1];
      assert vs == init + [v];
      AccumulationIsJoin(regions, init, i);
      ApplyKeepsKeys(regions, init);
      StrongestAppend(Keys(regions), init, v, i);
      if v.status != OpenVerdict {
        ReviewAfterKeys(ApplyAll(regions, init), v.touched, Target(v), v.candidate, i);
      }
    } else {
      assert Strongest(Keys(regions), [], i) == Missing;
    }
  }

  /** The order of ledger records, and repetitions among them, leave no trace. */
  lemma OrderIsIrrelevant(regions: seq<Region>, vs: seq<Verdict>, ws: seq<Verdict>, i: nat)
    requires i < |regions| && forall v :: v in vs <==> v in ws
    ensures ApplyAll(regions, vs)[i].review == ApplyAll(regions, ws)[i].review
  {
    AccumulationIsJoin(regions, vs, i);
    AccumulationIsJoin(regions, ws, i);
    forall t ensures SomeDecides(Keys(regions), vs, i, t) <==> SomeDecides(Keys(regions), ws, i, t) {
    }
  }

  /** Re-applying the same ledger changes no review state. */
  lemma ReapplyingIsIdle(regions: seq<Region>, vs: seq<Verdict>, i: nat)
    requires i < |regions|
    ensures ApplyAll(ApplyAll(regions, vs), vs)[i].review == ApplyAll(regions, vs)[i].review
  {
    AccumulationIsJoin(regions, vs, i);
    ApplyKeepsKeys(regions, vs);
    AccumulationIsJoin(ApplyAll(regions, vs), vs, i);
  }

  /** Static verdicts never introduce `runtime-verified`; they erase it exactly when one of
      them is an exclusion. */
  lemma RuntimeVerifiedIsNotInferred(regions: seq<Region>, vs: seq<Verdict>, i: nat)
    requires i < |regions|
    ensures ApplyAll(regions, vs)[i].review == Known(RuntimeVerified) <==>
              regions[i].review == Known(RuntimeVerified) && !SomeDecides(Keys(regions), vs, i, Excluded)
  {
    AccumulationIsJoin(regions, vs, i);
  }

  /** A record that carries a review state, as every producer writes it, never gets weaker. */
  lemma StateNeverWeakens(regions: seq<Region>, vs: seq<Verdict>, i: nat)
    requires i < |regions| && regions[i].review != Missing
    ensures Rank(StateOf(ApplyAll(regions, vs)[i])) >= Rank(StateOf(regions[i]))
    ensures IsReviewed(StateOf(regions[i])) ==> IsReviewed(StateOf(ApplyAll(regions, vs)[i]))
  {
    AccumulationIsJoin(regions, vs, i);
  }

  lemma {:induction false} MarkKeysKeepRest(regions: seq<Region>, keys: seq<Key>, target: State, candidate: int, i: nat)
    requires i < |regions|
    ensures var r := MarkKeys(regions, keys, target, candidate)[i];
            r == regions[i].(review := r.review, candidates := r.candidates) && regions[i].candidates <= r.candidates
  {
    hide LastIndex, Keys, Merge;
    if keys != [] {
      MarkKeysKeepRest(regions, keys[..|keys| - 1], target, candidate, i);
    }
  }

  lemma {:induction false} ApplyKeepsRest(regions: seq<Region>, vs: seq<Verdict>, i: nat)
    requires i < |regions|
    ensures var r := ApplyAll(regions, vs)[i];
            r == regions[i].(review := r.review, candidates := r.candidates) && regions[i].candidates <= r.candidates
  {
    if vs != [] {
      var init, v := vs[..|vs| - 1], vs[|vs| - 1];
      ApplyKeepsRest(regions, init, i);
      MarkKeysKeepRest(ApplyAll(regions, init), v.touched, Target(v), v.candidate, i);
    }
  }

  /** For any record at all: the reported state gets weaker exactly where it was carried by
      `audit_state` alone and the verdicts that decide the record are weaker than that. */
  lemma StateIsLoweredExactlyWhen(regions: seq<Region>, vs: seq<Verdict>, i: nat)
    requires i < |regions|
    ensures Rank(StateOf(ApplyAll(regions, vs)[i])) < Rank(StateOf(regions[i])) <==>
              && regions[i].review == Missing
              && !Strongest(Keys(regions), vs, i).Missing?
              && Rank(Normalize(regions[i].audit)) > Rank(Normalize(Strongest(Keys(regions), vs, i)))
  {
    AccumulationIsJoin(regions, vs, i);
    ApplyKeepsRest(regions, vs, i);
  }

  // ----------------------------------------------------- refreshing over rounds

  /** A refresh re-applies a ledger to the persisted state, so a verdict that a later ledger
      no longer contains still counts.  The stored state equals what the later ledger alone
      would give exactly when the earlier verdicts decide nothing here, or are no stronger
      than the region's own state, or no stronger than the later verdicts. */
  lemma SupersededVerdictsLinger(regions: seq<Region>, earlier: seq<Verdict>, later: seq<Verdict>, i: nat)
    requires i < |regions|
    ensures var e, l := Strongest(Keys(regions), earlier, i), Strongest(Keys(regions), later, i);
            ApplyAll(ApplyAll(regions, earlier), later)[i].review == ApplyAll(regions, later)[i].review <==>
              || e.Missing?
              || (regions[i].review != Missing && Rank(Normalize(e)) <= Rank(Normalize(regions[i].review)))
              || (!l.Missing? && Rank(Normalize(e)) <= Rank(Normalize(l)))
  {
    AccumulationIsJoin(regions, earlier, i);
    AccumulationIsJoin(regions, later, i);
    ApplyKeepsKeys(regions, earlier);
    AccumulationIsJoin(ApplyAll(regions, earlier), later, i);
  }

  /** An exclusion corrected to a plain review: the correction is lost. */
  lemma CorrectedExclusionLingers(id: int)
    ensures var r := Region(Entries, id, Known(Indexed), Missing, [], true, false, false, false);
            var excluded := [Verdict(0, ExclusionVerdict, [(Entries, id)])];
            var reviewed := [Verdict(0, OtherVerdict, [(Entries, id)])];
            && ApplyAll([r], reviewed)[0].review == Known(Reviewed)
            && ApplyAll(ApplyAll([r], excluded), reviewed)[0].review == Known(Excluded)
  {
    var r := Region(Entries, id, Known(Indexed), Missing, [], true, false, false, false);
    var excluded, reviewed := Verdict(0, ExclusionVerdict, [(Entries, id)]), Verdict(0, OtherVerdict, [(Entries, id)]);
    assert Keys([r]) == [(Entries, id)] && LastIndex([(Entries, id)], (Entries, id)) == Some(0);
    assert excluded.touched[0] == reviewed.touched[0] == (Entries, id);
    assert Decides(Keys([r]), excluded, 0) && Decides(Keys([r]), reviewed, 0);
    AccumulationIsJoin([r], [reviewed], 0);
    AccumulationIsJoin([r], [excluded], 0);
    ApplyKeepsKeys([r], [excluded]);
    AccumulationIsJoin(ApplyAll([r], [excluded]), [reviewed], 0);
    assert excluded in [excluded] && reviewed in [reviewed];
  }

  // ------------------------------------------------------------- residual gaps

  datatype Risk = High | Medium | Low
  datatype GapKind = UnreviewedEntry | UnreviewedSink | UnreviewedFlow | ControlGap | PassMismatch
                   | UnreviewedSource | DifferentialCandidate
  datatype Gap = Gap(kind: GapKind, risk: Risk, ref: int)

  datatype Source = Source(id: int, state: State, critical: bool)
  datatype Finding = Finding(id: int, risk: Risk, controls: set<int>, entries: set<int>)

  /** What the loop of one gap kind adds for one record. */
  function GapOf(kind: GapKind, r: Region): Option<Gap> {
    var open := !IsReviewed(StateOf(r));
    match kind
    case UnreviewedEntry => if r.kind == Entries && open && r.severe then Some(Gap(kind, High, r.id)) else None
    case UnreviewedSink => if r.kind == Sinks && open && r.severe then Some(Gap(kind, High, r.id)) else None
    case UnreviewedFlow =>
      if r.kind == Flows && open then Some(Gap(kind, if r.severe then High else Medium, r.id)) else None
    case ControlGap =>
      if r.kind == Controls && open && r.candidates == [] && r.critical then Some(Gap(kind, Medium, r.id)) else None
    case PassMismatch =>
      if r.kind == Sinks && r.forwardSeen != r.backwardSeen
      then Some(Gap(kind, if r.backwardSeen then High else Medium, r.id)) else None
    case _ => None
  }

  function GapsOf(kind: GapKind, regions: seq<Region>): seq<Gap> {
    if regions == [] then []
    else
      var init, r := regions[..|regions| - 1], regions[|regions| - 1];
      GapsOf(kind, init) + match GapOf(kind, r) { case None => [] case Some(g) => [g] }
  }

  function SourceGaps(sources: seq<Source>): seq<Gap> {
    if sources == [] then []
    else
      var init, s := sources[..|sources| - 1], sources[|sources| - 1];
      SourceGaps(init) + if !IsReviewed(s.state) && s.critical then [Gap(UnreviewedSource, Medium, s.id)] else []
  }

  function ReviewedIds(kind: Kind, regions: seq<Region>): set<int> {
    set r | r in regions && r.kind == kind && IsReviewed(StateOf(r)) :: r.id
  }

  predicate Answered(f: Finding, controls: set<int>, entries: set<int>) {
    f.controls * controls != {} || f.entries * entries != {}
  }

  function FindingGap(f: Finding, controls: set<int>, entries: set<int>): seq<Gap> {
    if Answered(f, controls, entries) then [] else [Gap(DifferentialCandidate, f.risk, f.id)]
  }

  /** `differential_regions`: findings none of whose controls or entries has been reviewed. */
  function FindingGaps(findings: seq<Finding>, controls: set<int>, entries: set<int>): seq<Gap> {
    if findings == [] then []
    else FindingGaps(findings[..|findings| - 1], controls, entries)
         + FindingGap(findings[|findings| - 1], controls, entries)
  }

  function RiskRank(r: Risk): nat {
    match r
    case High => 0
    case Medium => 1
    case Low => 2
  }

  predicate ListedBefore(a: Gap, b: Gap) {
    RiskRank(a.risk) < RiskRank(b.risk) || (a.risk == b.risk && a.ref < b.ref)
  }

  function InsertGap(gaps: seq<Gap>, g: Gap): seq<Gap> {
    if gaps == [] || ListedBefore(g, gaps[0]) then [g] + gaps else [gaps[0]] + InsertGap(gaps[1..], g)
  }

  /** By risk and then by finding. */
  function SortGaps(gaps: seq<Gap>): seq<Gap> {
    if gaps == [] then [] else InsertGap(SortGaps(gaps[..|gaps| - 1]), gaps[|gaps| - 1])
  }

  /** High before medium before low, and by finding within each. */
  ghost predicate NotAfter(a: Gap, b: Gap) {
    match a.risk
    case High => b.risk == High ==> a.ref <= b.ref
    case Medium => b.risk == Low || (b.risk == Medium && a.ref <= b.ref)
    case Low => b.risk == Low && a.ref <= b.ref
  }

  ghost predicate GapsInOrder(gaps: seq<Gap>) {
    forall i, j :: 0 <= i < j < |gaps| ==> NotAfter(gaps[i], gaps[j])
  }

  lemma ListedOrNotAfter(a: Gap, b: Gap)
    ensures NotAfter(a, b) <==> !ListedBefore(b, a)
  {
  }

  lemma {:induction false} InsertGapKeepsAll(gaps: seq<Gap>, g: Gap)
    ensures multiset(InsertGap(gaps, g)) == multiset(gaps) + multiset{g}
  {
    hide ListedBefore;
    if gaps != [] && !ListedBefore(g, gaps[0]) {
      InsertGapKeepsAll(gaps[1..], g);
      assert gaps == [gaps[0]] + gaps[1..];
    }
  }

  lemma FirstGapInOrder(first: Gap, gaps: seq<Gap>)
    requires GapsInOrder(gaps) && forall x :: x in gaps ==> NotAfter(first, x)
    ensures GapsInOrder([first] + gaps)
  {
    hide NotAfter;
    forall i, j | 0 <= i < j < |[first] + gaps| ensures NotAfter(([first] + gaps)[i], ([first] + gaps)[j]) {
      assert ([first] + gaps)[j] == gaps[j - 1] && gaps[j - 1] in gaps;
    }
  }

  lemma {:induction false} InsertGapIsSorted(gaps: seq<Gap>, g: Gap)
    requires GapsInOrder(gaps)
    ensures GapsInOrder(InsertGap(gaps, g))
  {
    if gaps != [] {
      var first, rest := gaps[0], gaps[1..];
      ListedOrNotAfter(first, g);
      if ListedBefore(g, first) {
        forall x | x in gaps ensures NotAfter(g, x) {
          var i :| 0 <= i < |gaps| && gaps[i] == x;
          assert i > 0 ==> NotAfter(gaps[0], gaps[i]);
        }
        FirstGapInOrder(g, gaps);
      } else {
        InsertGapIsSorted(rest, g);
        InsertGapKeepsAll(rest, g);
        forall x | x in InsertGap(rest, g) ensures NotAfter(first, x) {
          assert x in multiset(InsertGap(rest, g));
          assert x == g || x in rest;
        }
        FirstGapInOrder(first, InsertGap(rest, g));
      }
    }
  }

  /** The sibling findings come out sorted, none lost and none invented. */
  lemma {:induction false} SortGapsIsSorted(gaps: seq<Gap>)
    ensures GapsInOrder(SortGaps(gaps)) && multiset(SortGaps(gaps)) == multiset(gaps)
  {
    if gaps != [] {
      hide InsertGap, GapsInOrder;
      var init, last := gaps[..|gaps| - 1], gaps[|gaps| - 1];
      SortGapsIsSorted(init);
      InsertGapIsSorted(SortGaps(init), last);
      InsertGapKeepsAll(SortGaps(init), last);
      assert gaps == init + [last];
    }
  }

  /** What `limit_per_kind` lets through of one kind. */
  function Capped(gaps: seq<Gap>, limit: Option<int>): seq<Gap> {
    if limit.None? || |gaps| <= limit.value then gaps
    else if limit.value <= 0 then []
    else gaps[..limit.value]
  }

  lemma CappedAppend(gaps: seq<Gap>, g: Gap, limit: Option<int>)
    ensures Capped(gaps + [g], limit)
            == if limit.Some? && |gaps| + 1 > limit.value then Capped(gaps, limit) else Capped(gaps, limit) + [g]
  {
  }

  function Residual(regions: seq<Region>, sources: seq<Source>, findings: seq<Finding>, limit: Option<int>): seq<Gap> {
    Capped(GapsOf(UnreviewedEntry, regions), limit) + Capped(GapsOf(UnreviewedSink, regions), limit)
    + Capped(GapsOf(UnreviewedFlow, regions), limit) + Capped(GapsOf(ControlGap, regions), limit)
    + Capped(GapsOf(PassMismatch, regions), limit) + Capped(SourceGaps(sources), limit)
    + Capped(SortGaps(FindingGaps(findings, ReviewedIds(Controls, regions), ReviewedIds(Entries, regions))), limit)
  }

  /** `add`: count the gap, and append it unless its kind is over the limit. */
  method Add(gaps0: seq<Gap>, counter0: nat, g: Gap, limit: Option<int>, ghost base: seq<Gap>, ghost seen: seq<Gap>)
      returns (gaps: seq<Gap>, counter: nat)
    requires gaps0 == base + Capped(seen, limit) && counter0 == |seen|
    ensures gaps == base + Capped(seen + [g], limit) && counter == |seen + [g]|
  {
    CappedAppend(seen, g, limit);
    gaps, counter := gaps0, counter0 + 1;
    if limit.Some? && counter > limit.value {
      return;
    }
    gaps := gaps + [g];
  }

  lemma NothingCapped(limit: Option<int>)
    ensures Capped([], limit) == []
  {
  }

  /** One loop of `build_uncovered_regions`. */
  method AddGaps(gaps0: seq<Gap>, kind: GapKind, regions: seq<Region>, limit: Option<int>) returns (gaps: seq<Gap>)
    ensures gaps == gaps0 + Capped(GapsOf(kind, regions), limit)
  {
    hide Capped;
    gaps := gaps0;
    var counter := 0;
    NothingCapped(limit);
    assert gaps == gaps0 + [];
    for i := 0 to |regions|
      invariant gaps == gaps0 + Capped(GapsOf(kind, regions[..i]), limit) && counter == |GapsOf(kind, regions[..i])|
    {
      assert regions[..i + 1][..i] == regions[..i];
      var gap := GapOf(kind, regions[i]);
      if gap.Some? {
        gaps, counter := Add(gaps, counter, gap.value, limit, gaps0, GapsOf(kind, regions[..i]));
      } else {
        assert GapsOf(kind, regions[..i + 1]) == GapsOf(kind, regions[..i]);
      }
    }
    assert regions[..|regions|] == regions;
  }

  /** The loop over production source files. */
  method AddSourceGaps(gaps0: seq<Gap>, sources: seq<Source>, limit: Option<int>) returns (gaps: seq<Gap>)
    ensures gaps == gaps0 + Capped(SourceGaps(sources), limit)
  {
    hide Capped;
    gaps := gaps0;
    var counter := 0;
    NothingCapped(limit);
    assert gaps == gaps0 + [];
    for i := 0 to |sources|
      invariant gaps == gaps0 + Capped(SourceGaps(sources[..i]), limit) && counter == |SourceGaps(sources[..i])|
    {
      assert sources[..i + 1][..i] == sources[..i];
      var source := sources[i];
      if IsReviewed(source.state) || !source.critical {
        assert SourceGaps(sources[..i + 1]) == SourceGaps(sources[..i]);
      } else {
        var gap := Gap(UnreviewedSource, Medium, source.id);
        gaps, counter := Add(gaps, counter, gap, limit, gaps0, SourceGaps(sources[..i]));
      }
    }
    assert sources[..|sources|] == sources;
  }

  /** `differential_regions`: the open findings, sorted. */
  method DifferentialRegions(findings: seq<Finding>, controls: set<int>, entries: set<int>) returns (gaps: seq<Gap>)
    ensures gaps == SortGaps(FindingGaps(findings, controls, entries))
  {
    var open := [];
    for i := 0 to |findings|
      invariant open == FindingGaps(findings[..i], controls, entries)
    {
      assert findings[..i + 1][..i] == findings[..i];
      var f := findings[i];
      if f.controls * controls == {} && f.entries * entries == {} {
        open := open + [Gap(DifferentialCandidate, f.risk, f.id)];
      }
    }
    assert findings[..|findings|] == findings;
    gaps := SortGaps(open);
  }

  /** The loop over the sibling findings nobody has reviewed. */
  method AddFindingGaps(gaps0: seq<Gap>, findings: seq<Finding>, controls: set<int>, entries: set<int>,
                        limit: Option<int>)
      returns (gaps: seq<Gap>)
    ensures gaps == gaps0 + Capped(SortGaps(FindingGaps(findings, controls, entries)), limit)
  {
    hide Capped, SortGaps, FindingGaps;
    gaps := gaps0;
    var counter := 0;
    NothingCapped(limit);
    assert gaps == gaps0 + [];
    var open := DifferentialRegions(findings, controls, entries);
    for i := 0 to |open|
      invariant gaps == gaps0 + Capped(open[..i], limit) && counter == i
    {
      assert open[..i + 1] == open[..i] + [open[i]];
      gaps, counter := Add(gaps, counter, open[i], limit, gaps0, open[..i]);
    }
    assert open[..|open|] == open;
  }

  // --------------------------------------------------- which gaps there are

  lemma {:induction false} GapsOfMembers(kind: GapKind, regions: seq<Region>, g: Gap)
    ensures g in GapsOf(kind, regions) <==> exists r :: r in regions && GapOf(kind, r) == Some(g)
  {
    hide GapOf;
    if regions != [] {
      var init, last := regions[..|regions| - 1], regions[|regions| - 1];
      GapsOfMembers(kind, init, g);
      assert regions == init + [last];
    }
  }

  lemma {:induction false} SourceGapsMembers(sources: seq<Source>, g: Gap)
    ensures g in SourceGaps(sources) <==>
              exists s :: s in sources && s.critical && !IsReviewed(s.state)
                          && g == Gap(UnreviewedSource, Medium, s.id)
  {
    if sources != [] {
      var init, last := sources[..|sources| - 1], sources[|sources| - 1];
      SourceGapsMembers(init, g);
      assert sources == init + [last];
    }
  }

  lemma {:induction false} FindingGapsMembers(findings: seq<Finding>, controls: set<int>, entries: set<int>, g: Gap)
    ensures g in FindingGaps(findings, controls, entries) <==>
              exists f :: f in findings && !Answered(f, controls, entries)
                          && g == Gap(DifferentialCandidate, f.risk, f.id)
  {
    if findings != [] {
      var init, last := findings[..|findings| - 1], findings[|findings| - 1];
      FindingGapsMembers(init, controls, entries, g);
      assert findings == init + [last];
    }
  }

  /** The finding names a control or an entry somebody has looked at. */
  ghost predicate Touched(f: Finding, regions: seq<Region>) {
    exists r :: r in regions && IsReviewed(StateOf(r))
                && ((r.kind == Controls && r.id in f.controls) || (r.kind == Entries && r.id in f.entries))
  }

  lemma AnsweredIsTouched(f: Finding, regions: seq<Region>)
    ensures Answered(f, ReviewedIds(Controls, regions), ReviewedIds(Entries, regions)) <==> Touched(f, regions)
  {
    var controls, entries := ReviewedIds(Controls, regions), ReviewedIds(Entries, regions);
    if Answered(f, controls, entries) {
      if x :| x in f.controls * controls {
        var r :| r in regions && r.kind == Controls && IsReviewed(StateOf(r)) && r.id == x;
      } else {
        var x :| x in f.entries * entries;
        var r :| r in regions && r.kind == Entries && IsReviewed(StateOf(r)) && r.id == x;
      }
    }
    if r :| r in regions && IsReviewed(StateOf(r))
            && ((r.kind == Controls && r.id in f.controls) || (r.kind == Entries && r.id in f.entries)) {
      assert r.id in f.controls * controls || r.id in f.entries * entries;
    }
  }

  /** The region `r` leaves the gap `g`, kind by kind. */
  ghost predicate Leaves(r: Region, g: Gap) {
    && r.id == g.ref
    && match g.kind
       case UnreviewedEntry => r.kind == Entries && r.severe && !IsReviewed(StateOf(r)) && g.risk == High
       case UnreviewedSink => r.kind == Sinks && r.severe && !IsReviewed(StateOf(r)) && g.risk == High
       case UnreviewedFlow => r.kind == Flows && !IsReviewed(StateOf(r)) && g.risk == if r.severe then High else Medium
       case ControlGap =>
         r.kind == Controls && r.critical && r.candidates == [] && !IsReviewed(StateOf(r)) && g.risk == Medium
       case PassMismatch =>
         && r.kind == Sinks
         && ((r.backwardSeen && !r.forwardSeen && g.risk == High)
             || (r.forwardSeen && !r.backwardSeen && g.risk == Medium))
       case _ => false
  }

  /** Some region, source file or sibling finding leaves the gap `g`. */
  ghost predicate IsLeft(regions: seq<Region>, sources: seq<Source>, findings: seq<Finding>, g: Gap) {
    || (exists r :: r in regions && Leaves(r, g))
    || (exists s :: s in sources && s.critical && !IsReviewed(s.state) && g == Gap(UnreviewedSource, Medium, s.id))
    || (exists f :: f in findings && !Touched(f, regions) && g == Gap(DifferentialCandidate, f.risk, f.id))
  }

  lemma GapIsLeft(kind: GapKind, r: Region, g: Gap)
    ensures GapOf(kind, r) == Some(g) <==> g.kind == kind && Leaves(r, g)
  {
  }

  lemma SectionMembers(kind: GapKind, regions: seq<Region>, g: Gap)
    ensures g in GapsOf(kind, regions) <==> g.kind == kind && exists r :: r in regions && Leaves(r, g)
  {
    hide GapOf, Leaves, GapsOf;
    GapsOfMembers(kind, regions, g);
    forall r ensures GapOf(kind, r) == Some(g) <==> g.kind == kind && Leaves(r, g) {
      GapIsLeft(kind, r, g);
    }
  }

  lemma OpenFindings(regions: seq<Region>, findings: seq<Finding>, g: Gap)
    ensures g in SortGaps(FindingGaps(findings, ReviewedIds(Controls, regions), ReviewedIds(Entries, regions))) <==>
              exists f :: f in findings && !Touched(f, regions) && g == Gap(DifferentialCandidate, f.risk, f.id)
  {
    hide FindingGaps, SortGaps, Answered, Touched, ReviewedIds;
    var controls, entries := ReviewedIds(Controls, regions), ReviewedIds(Entries, regions);
    var open := FindingGaps(findings, controls, entries);
    SortGapsIsSorted(open);
    assert g in SortGaps(open) <==> g in multiset(SortGaps(open));
    FindingGapsMembers(findings, controls, entries, g);
    forall f ensures Answered(f, controls, entries) <==> Touched(f, regions) {
      AnsweredIsTouched(f, regions);
    }
  }

  /** Exactly which gaps an unlimited residual holds. */
  lemma ResidualMembers(regions: seq<Region>, sources: seq<Source>, findings: seq<Finding>, g: Gap)
    ensures g in Residual(regions, sources, findings, None) <==> IsLeft(regions, sources, findings, g)
  {
    SectionMembers(UnreviewedEntry, regions, g);
    SectionMembers(UnreviewedSink, regions, g);
    SectionMembers(UnreviewedFlow, regions, g);
    SectionMembers(ControlGap, regions, g);
    SectionMembers(PassMismatch, regions, g);
    SourceGapsMembers(sources, g);
    OpenFindings(regions, findings, g);
    hide GapsOf, SourceGaps, FindingGaps, SortGaps, Touched, ReviewedIds;
    var open := FindingGaps(findings, ReviewedIds(Controls, regions), ReviewedIds(Entries, regions));
    assert g in Residual(regions, sources, findings, None) <==>
      g in GapsOf(UnreviewedEntry, regions) || g in GapsOf(UnreviewedSink, regions)
      || g in GapsOf(UnreviewedFlow, regions) || g in GapsOf(ControlGap, regions) || g in GapsOf(PassMismatch, regions)
      || g in SourceGaps(sources) || g in SortGaps(open);
    assert (exists r :: r in regions && Leaves(r, g)) ==>
      g.kind in {UnreviewedEntry, UnreviewedSink, UnreviewedFlow, ControlGap, PassMismatch};
  }

  /** `build_uncovered_regions`. */
  method BuildUncoveredRegions(regions: seq<Region>, sources: seq<Source>, findings: seq<Finding>, limit: Option<int>)
      returns (gaps: seq<Gap>)
    ensures gaps == Residual(regions, sources, findings, limit)
    ensures limit.None? ==> forall g :: g in gaps <==> IsLeft(regions, sources, findings, g)
  {
    hide GapsOf, SourceGaps, FindingGaps, ReviewedIds, Capped, SortGaps;
    gaps := AddGaps([], UnreviewedEntry, regions, limit);
    gaps := AddGaps(gaps, UnreviewedSink, regions, limit);
    gaps := AddGaps(gaps, UnreviewedFlow, regions, limit);
    gaps := AddGaps(gaps, ControlGap, regions, limit);
    gaps := AddGaps(gaps, PassMismatch, regions, limit);
    gaps := AddSourceGaps(gaps, sources, limit);
    gaps := AddFindingGaps(gaps, findings, ReviewedIds(Controls, regions), ReviewedIds(Entries, regions), limit);
    if limit.None? {
      forall g ensures g in gaps <==> IsLeft(regions, sources, findings, g) {
        ResidualMembers(regions, sources, findings, g);
      }
    }
  }

  function CountHigh(gaps: seq<Gap>): nat {
    if gaps == [] then 0
    else CountHigh(gaps[..|gaps| - 1]) + if gaps[|gaps| - 1].risk == High then 1 else 0
  }

  lemma {:induction false} CountHighConcat(a: seq<Gap>, b: seq<Gap>)
    ensures CountHigh(a + b) == CountHigh(a) + CountHigh(b)
  {
    if b == [] {
      assert a + b == a;
    } else {
      CountHighConcat(a, b[..|b| - 1]);
      assert (a + b)[..|a + b| - 1] == a + b[..|b| - 1];
    }
  }

  lemma {:induction false} InsertCountsHigh(gaps: seq<Gap>, g: Gap)
    ensures CountHigh(InsertGap(gaps, g)) == CountHigh(gaps) + CountHigh([g])
  {
    if gaps == [] || ListedBefore(g, gaps[0]) {
      CountHighConcat([g], gaps);
    } else {
      InsertCountsHigh(gaps[1..], g);
      CountHighConcat([gaps[0]], InsertGap(gaps[1..], g));
      CountHighConcat([gaps[0]], gaps[1..]);
      assert gaps == [gaps[0]] + gaps[1..];
    }
  }

  lemma {:induction false} SortCountsHigh(gaps: seq<Gap>)
    ensures CountHigh(SortGaps(gaps)) == CountHigh(gaps)
  {
    if gaps != [] {
      var init, last := gaps[..|gaps| - 1], gaps[|gaps| - 1];
      SortCountsHigh(init);
      InsertCountsHigh(SortGaps(init), last);
      CountHighConcat(init, [last]);
      assert gaps == init + [last];
    }
  }

  /** `after` is `before`, possibly further along. */
  ghost predicate Progress(before: Region, after: Region) {
    && after == before.(review := after.review, candidates := after.candidates)
    && (IsReviewed(StateOf(before)) ==> IsReviewed(StateOf(after)))
    && (before.candidates != [] ==> after.candidates != [])
  }

  ghost predicate Advanced(before: seq<Region>, after: seq<Region>) {
    |before| == |after| && forall i :: 0 <= i < |before| ==> Progress(before[i], after[i])
  }

  lemma VerdictsAdvance(regions: seq<Region>, vs: seq<Verdict>)
    ensures Advanced(regions, ApplyAll(regions, vs))
  {
    forall i | 0 <= i < |regions|
      ensures Progress(regions[i], ApplyAll(regions, vs)[i])
    {
      AccumulationIsJoin(regions, vs, i);
      ApplyKeepsRest(regions, vs, i);
    }
  }

  lemma GapNeverAppears(kind: GapKind, before: Region, after: Region)
    requires Progress(before, after)
    ensures GapOf(kind, after).Some? ==> GapOf(kind, after) == GapOf(kind, before)
  {
  }

  lemma {:induction false} GapsShrink(kind: GapKind, before: seq<Region>, after: seq<Region>)
    requires Advanced(before, after)
    ensures CountHigh(GapsOf(kind, after)) <= CountHigh(GapsOf(kind, before))
  {
    if before != [] {
      var n := |before| - 1;
      GapNeverAppears(kind, before[n], after[n]);
      hide Progress, GapOf;
      GapsShrink(kind, before[..n], after[..n]);
      var b, a := GapOf(kind, before[n]), GapOf(kind, after[n]);
      CountHighConcat(GapsOf(kind, before[..n]), match b { case None => [] case Some(g) => [g] });
      CountHighConcat(GapsOf(kind, after[..n]), match a { case None => [] case Some(g) => [g] });
    }
  }

  lemma ReviewedIdsGrow(kind: Kind, before: seq<Region>, after: seq<Region>)
    requires Advanced(before, after)
    ensures ReviewedIds(kind, before) <= ReviewedIds(kind, after)
  {
    forall id | id in ReviewedIds(kind, before) ensures id in ReviewedIds(kind, after) {
      var r :| r in before && r.kind == kind && IsReviewed(StateOf(r)) && r.id == id;
      var i :| 0 <= i < |before| && before[i] == r;
      assert after[i] in after;
    }
  }

  lemma FindingGapShrinks(f: Finding, controls: set<int>, entries: set<int>, controls': set<int>, entries': set<int>)
    requires controls <= controls' && entries <= entries'
    ensures CountHigh(FindingGap(f, controls', entries')) <= CountHigh(FindingGap(f, controls, entries))
  {
    if Answered(f, controls, entries) {
      assert f.controls * controls <= f.controls * controls' && f.entries * entries <= f.entries * entries';
    }
  }

  lemma {:induction false} FindingGapsShrink(findings: seq<Finding>, controls: set<int>, entries: set<int>,
                                             controls': set<int>, entries': set<int>)
    requires controls <= controls' && entries <= entries'
    ensures CountHigh(FindingGaps(findings, controls', entries')) <= CountHigh(FindingGaps(findings, controls, entries))
  {
    hide CountHigh, FindingGap;
    if findings != [] {
      var init, f := findings[..|findings| - 1], findings[|findings| - 1];
      FindingGapsShrink(init, controls, entries, controls', entries');
      FindingGapShrinks(f, controls, entries, controls', entries');
      CountHighConcat(FindingGaps(init, controls, entries), FindingGap(f, controls, entries));
      CountHighConcat(FindingGaps(init, controls', entries'), FindingGap(f, controls', entries'));
    }
  }

  ghost function HighRisk(regions: seq<Region>, sources: seq<Source>, findings: seq<Finding>): nat {
    CountHigh(Residual(regions, sources, findings, None))
  }

  lemma HighRiskBySection(regions: seq<Region>, sources: seq<Source>, findings: seq<Finding>)
    ensures HighRisk(regions, sources, findings)
            == CountHigh(GapsOf(UnreviewedEntry, regions)) + CountHigh(GapsOf(UnreviewedSink, regions))
               + CountHigh(GapsOf(UnreviewedFlow, regions)) + CountHigh(GapsOf(ControlGap, regions))
               + CountHigh(GapsOf(PassMismatch, regions)) + CountHigh(SourceGaps(sources))
               + CountHigh(FindingGaps(findings, ReviewedIds(Controls, regions), ReviewedIds(Entries, regions)))
  {
    var a := GapsOf(UnreviewedEntry, regions);
    CountHighConcat(a, GapsOf(UnreviewedSink, regions));
    var b := a + GapsOf(UnreviewedSink, regions);
    CountHighConcat(b, GapsOf(UnreviewedFlow, regions));
    var c := b + GapsOf(UnreviewedFlow, regions);
    CountHighConcat(c, GapsOf(ControlGap, regions));
    var d := c + GapsOf(ControlGap, regions);
    CountHighConcat(d, GapsOf(PassMismatch, regions));
    var e := d + GapsOf(PassMismatch, regions);
    CountHighConcat(e, SourceGaps(sources));
    var open := FindingGaps(findings, ReviewedIds(Controls, regions), ReviewedIds(Entries, regions));
    CountHighConcat(e + SourceGaps(sources), SortGaps(open));
    SortCountsHigh(open);
  }

  lemma AdvancingNeverRaisesRisk(before: seq<Region>, after: seq<Region>, sources: seq<Source>, findings: seq<Finding>)
    requires Advanced(before, after)
    ensures HighRisk(after, sources, findings) <= HighRisk(before, sources, findings)
  {
    hide HighRisk, Advanced;
    HighRiskBySection(before, sources, findings);
    HighRiskBySection(after, sources, findings);
    forall kind ensures CountHigh(GapsOf(kind, after)) <= CountHigh(GapsOf(kind, before)) {
      GapsShrink(kind, before, after);
    }
    ReviewedIdsGrow(Controls, before, after);
    ReviewedIdsGrow(Entries, before, after);
    FindingGapsShrink(findings, ReviewedIds(Controls, before), ReviewedIds(Entries, before),
                      ReviewedIds(Controls, after), ReviewedIds(Entries, after));
  }

  /** Further verdicts on the state reached so far never raise the high-risk residual. */
  lemma VerdictsNeverRaiseRisk(regions: seq<Region>, vs: seq<Verdict>, sources: seq<Source>, findings: seq<Finding>)
    ensures HighRisk(ApplyAll(regions, vs), sources, findings) <= HighRisk(regions, sources, findings)
  {
    VerdictsAdvance(regions, vs);
    AdvancingNeverRaisesRisk(regions, ApplyAll(regions, vs), sources, findings);
  }

  ghost predicate NoRepeats(s: seq<int>) {
    forall k, l :: 0 <= k < l < |s| ==> s[k] != s[l]
  }

  lemma NamedAfterKey(regions: seq<Region>, key: Key, target: State, candidate: int, i: nat, c: int)
    requires i < |regions|
    ensures var after := MarkKey(regions, key, target, candidate)[i].candidates;
            && (c in after <==>
                  c in regions[i].candidates || (c == candidate != 0 && LastIndex(Keys(regions), key) == Some(i)))
            && (NoRepeats(regions[i].candidates) ==> NoRepeats(after))
  {
    hide Keys, LastIndex, Merge;
  }

  lemma {:induction false} NamedAfterKeys(regions: seq<Region>, touched: seq<Key>, target: State,
                                          candidate: int, i: nat, c: int)
    requires i < |regions|
    ensures var after := MarkKeys(regions, touched, target, candidate)[i].candidates;
            && (c in after <==> c in regions[i].candidates || (c == candidate != 0 && Hits(Keys(regions), touched, i)))
            && (NoRepeats(regions[i].candidates) ==> NoRepeats(after))
  {
    hide Keys, Hits, LastIndex, MarkKey, NoRepeats;
    if touched == [] {
      assert !Hits(Keys(regions), touched, i) by { NothingHits(Keys(regions), i); }
    } else {
      var init, key := touched[..|touched| - 1], touched[|touched| - 1];
      NamedAfterKey(MarkKeys(regions, init, target, candidate), key, target, candidate, i, c);
      NamedAfterKeys(regions, init, target, candidate, i, c);
      MarkKeysKeepsKeys(regions, init, target, candidate);
      assert touched == init + [key];
      HitsAppend(Keys(regions), init, key, i);
    }
  }

  /** Some verdict that decides region `i` is about candidate `c`. */
  ghost predicate SomeNames(keys: seq<Key>, vs: seq<Verdict>, i: nat, c: int) {
    exists v :: v in vs && Decides(keys, v, i) && v.candidate == c
  }

  lemma SomeNamesAppend(keys: seq<Key>, vs: seq<Verdict>, v: Verdict, i: nat, c: int)
    ensures SomeNames(keys, vs + [v], i, c) <==> SomeNames(keys, vs, i, c) || (Decides(keys, v, i) && v.candidate == c)
  {
    if SomeNames(keys, vs, i, c) {
      var x :| x in vs && Decides(keys, x, i) && x.candidate == c;
      assert x in vs + [v];
    }
    assert v in vs + [v];
  }

  /** A region names a candidate afterwards iff it did before or a verdict that decides it is
      about that candidate, and it names none twice. */
  lemma {:induction false} NamedExactlyWhen(regions: seq<Region>, vs: seq<Verdict>, i: nat, c: int)
    requires i < |regions|
    ensures var after := ApplyAll(regions, vs)[i].candidates;
            && (c in after <==> c in regions[i].candidates || (c != 0 && SomeNames(Keys(regions), vs, i, c)))
            && (NoRepeats(regions[i].candidates) ==> NoRepeats(after))
  {
    hide Keys, Hits, NoRepeats;
    if vs == [] {
      assert !SomeNames(Keys(regions), vs, i, c);
    } else {
      var init, v := vs[..|vs| - 1], vs[|vs| - 1];
      assert vs == init + [v];
      NamedExactlyWhen(regions, init, i, c);
      ApplyKeepsKeys(regions, init);
      SomeNamesAppend(Keys(regions), init, v, i, c);
      NamedAfterKeys(ApplyAll(regions, init), v.touched, Target(v), v.candidate, i, c);
    }
  }

  lemma MoreVerdictsProgress(regions: seq<Region>, ws: seq<Verdict>, vs: seq<Verdict>, i: nat)
    requires i < |regions| && forall v :: v in ws ==> v in vs
    ensures Progress(ApplyAll(regions, ws)[i], ApplyAll(regions, vs)[i])
  {
    hide ApplyAll, Keys, Decides, NoRepeats;
    AccumulationIsJoin(regions, ws, i);
    AccumulationIsJoin(regions, vs, i);
    ApplyKeepsRest(regions, ws, i);
    ApplyKeepsRest(regions, vs, i);
    var named := ApplyAll(regions, ws)[i].candidates;
    if named != [] {
      NamedExactlyWhen(regions, ws, i, named[0]);
      NamedExactlyWhen(regions, vs, i, named[0]);
      assert named[0] in ApplyAll(regions, vs)[i].candidates;
    }
    assert forall t :: SomeDecides(Keys(regions), ws, i, t) ==> SomeDecides(Keys(regions), vs, i, t);
  }

  /** A ledger that contains another leaves no more high-risk residual than that one alone. */
  lemma MoreVerdictsLessRisk(regions: seq<Region>, ws: seq<Verdict>, vs: seq<Verdict>,
                             sources: seq<Source>, findings: seq<Finding>)
    requires forall v :: v in ws ==> v in vs
    ensures HighRisk(ApplyAll(regions, vs), sources, findings) <= HighRisk(ApplyAll(regions, ws), sources, findings)
  {
    hide HighRisk, Progress;
    forall i | 0 <= i < |regions| ensures Progress(ApplyAll(regions, ws)[i], ApplyAll(regions, vs)[i]) {
      MoreVerdictsProgress(regions, ws, vs, i);
    }
    AdvancingNeverRaisesRisk(ApplyAll(regions, ws), ApplyAll(regions, vs), sources, findings);
  }

  // ------------------------------------------------------------ stop condition

  datatype AuditStatus = ScopeInvalid | PartialCoverage | CoverageClosed

  /** `_audit_status`; no scope contract (`None`) does not block, an invalid one always does. */
  function StatusFor(scope: Option<bool>, highRisk: nat): AuditStatus {
    if scope == Some(false) then ScopeInvalid
    else if highRisk > 0 then PartialCoverage
    else CoverageClosed
  }

  /** The states of one inventory over any number of refreshes with any ledgers. */
  ghost predicate IsHistory(states: seq<seq<Region>>, ledgers: seq<seq<Verdict>>) {
    && |states| == |ledgers| + 1
    && forall n :: 0 <= n < |ledgers| ==> states[n + 1] == ApplyAll(states[n], ledgers[n])
  }

  /** The places of the high-risk gaps. */
  ghost function HighPlaces(gaps: seq<Gap>): set<nat> {
    set i: nat | i < |gaps| && gaps[i].risk == High
  }

  lemma {:induction false} HighIsCounted(gaps: seq<Gap>)
    ensures CountHigh(gaps) == |HighPlaces(gaps)|
  {
    if gaps == [] {
      assert HighPlaces(gaps) == {};
    } else {
      var n := |gaps| - 1;
      HighIsCounted(gaps[..n]);
      assert HighPlaces(gaps) == HighPlaces(gaps[..n]) + if gaps[n].risk == High then {n} else {};
    }
  }

  lemma {:induction false} NoHighGaps(gaps: seq<Gap>)
    ensures CountHigh(gaps) == 0 <==> forall g :: g in gaps ==> g.risk != High
  {
    if gaps != [] {
      var init, last := gaps[..|gaps| - 1], gaps[|gaps| - 1];
      NoHighGaps(init);
      assert gaps == init + [last] && last in gaps;
    }
  }

  /** Nothing of high risk is left to look at. */
  ghost predicate NothingHighLeft(regions: seq<Region>, findings: seq<Finding>) {
    && (forall r :: r in regions && r.kind in {Entries, Sinks, Flows} && r.severe ==> IsReviewed(StateOf(r)))
    && (forall r :: r in regions && r.kind == Sinks && r.backwardSeen ==> r.forwardSeen)
    && forall f :: f in findings && f.risk == High ==> Touched(f, regions)
  }

  lemma HighGapsAreWhatIsLeft(regions: seq<Region>, sources: seq<Source>, findings: seq<Finding>)
    ensures (forall g :: g in Residual(regions, sources, findings, None) ==> g.risk != High) <==>
              NothingHighLeft(regions, findings)
  {
    hide Residual, Touched, StateOf, IsReviewed;
    if NothingHighLeft(regions, findings) {
      forall g | g in Residual(regions, sources, findings, None) ensures g.risk != High {
        ResidualMembers(regions, sources, findings, g);
      }
    } else if r :| r in regions && r.kind in {Entries, Sinks, Flows} && r.severe && !IsReviewed(StateOf(r)) {
      var kind := match r.kind
                  case Entries => UnreviewedEntry
                  case Sinks => UnreviewedSink
                  case _ => UnreviewedFlow;
      assert Leaves(r, Gap(kind, High, r.id));
      ResidualMembers(regions, sources, findings, Gap(kind, High, r.id));
    } else if r :| r in regions && r.kind == Sinks && r.backwardSeen && !r.forwardSeen {
      assert Leaves(r, Gap(PassMismatch, High, r.id));
      ResidualMembers(regions, sources, findings, Gap(PassMismatch, High, r.id));
    } else {
      var f :| f in findings && f.risk == High && !Touched(f, regions);
      ResidualMembers(regions, sources, findings, Gap(DifferentialCandidate, High, f.id));
    }
  }

  /** What closure means: the scope is not invalid, every severe entry, sink and flow has been
      looked at, no sink is seen by the backward pass alone, and every high-risk sibling finding
      names a control or an entry somebody has looked at. */
  lemma ClosedExactlyWhen(regions: seq<Region>, sources: seq<Source>, findings: seq<Finding>, scope: Option<bool>)
    ensures StatusFor(scope, HighRisk(regions, sources, findings)) == CoverageClosed <==>
              scope != Some(false) && NothingHighLeft(regions, findings)
    ensures StatusFor(scope, HighRisk(regions, sources, findings)) == ScopeInvalid <==> scope == Some(false)
  {
    NoHighGaps(Residual(regions, sources, findings, None));
    HighGapsAreWhatIsLeft(regions, sources, findings);
  }

  /** Once `coverage-closed` is reached on an inventory, no later refresh reopens it. */
  lemma {:induction false} ClosureIsStable(states: seq<seq<Region>>, ledgers: seq<seq<Verdict>>,
                                           sources: seq<Source>, findings: seq<Finding>, scope: Option<bool>,
                                           m: nat, n: nat)
    requires IsHistory(states, ledgers) && m <= n < |states|
    requires StatusFor(scope, HighRisk(states[m], sources, findings)) == CoverageClosed
    ensures StatusFor(scope, HighRisk(states[n], sources, findings)) == CoverageClosed
    decreases n - m
  {
    hide HighRisk, ApplyAll;
    if m < n {
      ClosureIsStable(states, ledgers, sources, findings, scope, m, n - 1);
      VerdictsNeverRaiseRisk(states[n - 1], ledgers[n - 1], sources, findings);
    }
  }
}
