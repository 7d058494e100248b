/** What the capability search finds, read off the records and the observed nodes alone: which
    kinds are observed, which templates are tried, which candidates come out and in which order. */
module CapabilityExact {
  import opened Options
  import opened CapabilityPaths

  // ------------------------------------------------------------ which kinds are observed

  /** `s` answers for the sink `id`. */
  ghost predicate AnswersFor(ss: seq<Sink>, s: Sink, id: int) {
    exists i :: 0 <= i < |ss| && ss[i] == s && s.id == id && forall j :: i < j < |ss| ==> ss[j].id != id
  }

  lemma {:induction false} SinkByIdAnswers(ss: seq<Sink>, id: int, s: Sink)
    requires id != NO_ID
    ensures SinkById(ss, id) == Some(s) <==> AnswersFor(ss, s, id)
  {
    if ss != [] {
      var init, last := ss[..|ss| - 1], ss[|ss| - 1];
      SinkByIdAnswers(init, id, s);
      assert ss == init + [last];
      if last.id == id {
        assert ss[|ss| - 1] == last;
      } else {
        if i :| 0 <= i < |init| && init[i] == s && s.id == id && forall j :: i < j < |init| ==> init[j].id != id {
          assert ss[i] == s;
        }
        if i :| 0 <= i < |ss| && ss[i] == s && s.id == id && forall j :: i < j < |ss| ==> ss[j].id != id {
          assert init[i] == s;
        }
      }
    }
  }

  /** A flow both of whose ends are known, with the sink that answers for it. */
  ghost predicate Lives(es: seq<Entry>, ss: seq<Sink>, f: Flow, s: Sink) {
    && f.entry != 0 && (exists e :: e in es && e.id == f.entry)
    && f.sink != 0 && AnswersFor(ss, s, f.sink)
  }

  /** Some record shows the kind: an entry as such or by its shape, a flow by its sink. */
  ghost predicate Shows(es: seq<Entry>, ss: seq<Sink>, fs: seq<Flow>, kind: Kind) {
    || (kind == "input" && es != [])
    || (kind == "management-access" && exists e :: e in es && e.adminShaped)
    || (kind == "config-control" && exists e :: e in es && e.config)
    || exists f, s :: f in fs && Lives(es, ss, f, s) && kind == SinkCapability(s.category)
  }

  lemma EntryShows(place: NodeId -> int, es: seq<Entry>, n: Node)
    requires FromEntry(place, es, n)
    ensures Shows(es, [], [], n.kind)
    ensures exists id: NodeId :: n.id == place(id) && n.kind == KindOf(id)
  {
    var e :| e in es && n in EntryNodes(place, e);
    EntryNodeShape(place, e, n);
    assert n.id == place(InputOf(e.id)) || n.id == place(SurfaceOf(e.id, "management-access"))
           || n.id == place(SurfaceOf(e.id, "config-control"));
  }

  lemma FlowShows(place: NodeId -> int, es: seq<Entry>, ss: seq<Sink>, fs: seq<Flow>, n: Node)
    requires FromFlow(place, es, ss, fs, n)
    ensures Shows(es, ss, fs, n.kind)
    ensures exists id: NodeId :: n.id == place(id) && n.kind == KindOf(id)
  {
    hide SinkCapability;
    var f :| f in fs && n in FlowNodes(place, es, ss, f);
    var s := SinkById(ss, f.sink).value;
    SinkByIdAnswers(ss, f.sink, s);
    assert n == EffectNode(place, f, s.category);
    var i :| 0 <= i < |es| && es[i].id == f.entry;
    assert es[i] in es;
    assert Lives(es, ss, f, s);
    var id := EffectOf(SinkCapability(s.category), f.id, f.sink);
    assert n.id == place(id) && n.kind == KindOf(id);
  }

  lemma Offers(place: NodeId -> int, es: seq<Entry>, ss: seq<Sink>, fs: seq<Flow>, n: Node, e: Entry)
    requires e in es && n in EntryNodes(place, e)
    ensures n in Offered(place, es, ss, fs)
  {
    assert FromEntry(place, es, n);
    OfferedMembers(place, es, ss, fs, n);
  }

  /** Every kind some record shows is offered. */
  lemma ShownIsOffered(place: NodeId -> int, es: seq<Entry>, ss: seq<Sink>, fs: seq<Flow>, kind: Kind)
    requires Shows(es, ss, fs, kind)
    ensures Gives(Offered(place, es, ss, fs), kind)
  {
    hide SinkCapability, Offered;
    if kind == "input" && es != [] {
      Offers(place, es, ss, fs, InputNode(place, es[0]), es[0]);
    } else if e :| kind == "management-access" && e in es && e.adminShaped {
      Offers(place, es, ss, fs, SurfaceNode(place, e.id, "management-access"), e);
    } else if e :| kind == "config-control" && e in es && e.config {
      Offers(place, es, ss, fs, SurfaceNode(place, e.id, "config-control"), e);
    } else {
      var f, s :| f in fs && Lives(es, ss, f, s) && kind == SinkCapability(s.category);
      SinkByIdAnswers(ss, f.sink, s);
      var e :| e in es && e.id == f.entry;
      var i :| 0 <= i < |es| && es[i] == e;
      var n := EffectNode(place, f, s.category);
      assert n in FlowNodes(place, es, ss, f);
      assert FromFlow(place, es, ss, fs, n);
      OfferedMembers(place, es, ss, fs, n);
    }
  }

  lemma NodeHasId(place: NodeId -> int, es: seq<Entry>, ss: seq<Sink>, fs: seq<Flow>, n: Node)
    requires n in Offered(place, es, ss, fs)
    ensures exists id: NodeId :: n.id == place(id) && n.kind == KindOf(id)
  {
    hide Offered, FromEntry, FromFlow;
    OfferedMembers(place, es, ss, fs, n);
    if FromEntry(place, es, n) {
      EntryShows(place, es, n);
    } else {
      FlowShows(place, es, ss, fs, n);
    }
  }

  lemma SameIdSameKind(place: NodeId -> int, es: seq<Entry>, ss: seq<Sink>, fs: seq<Flow>, m: Node, n: Node)
    requires Injective(place) && m in Offered(place, es, ss, fs) && n in Offered(place, es, ss, fs) && m.id == n.id
    ensures m.kind == n.kind
  {
    hide Offered, FromEntry, FromFlow;
    NodeHasId(place, es, ss, fs, m);
    NodeHasId(place, es, ss, fs, n);
    var x: NodeId :| m.id == place(x) && m.kind == KindOf(x);
    var y: NodeId :| n.id == place(y) && n.kind == KindOf(y);
  }

  /** The kinds observed are exactly those some record shows. */
  lemma WhatIsObserved(place: NodeId -> int, es: seq<Entry>, ss: seq<Sink>, fs: seq<Flow>, kind: Kind)
    requires Injective(place)
    ensures Gives(Observed(place, es, ss, fs), kind) <==> Shows(es, ss, fs, kind)
  {
    hide Offered, Kept, SinkCapability, FromEntry, FromFlow;
    var ns := Offered(place, es, ss, fs);
    KeptMembers(ns);
    if n :| n in Kept(ns) && n.kind == kind {
      OfferedMembers(place, es, ss, fs, n);
      if FromEntry(place, es, n) {
        EntryShows(place, es, n);
      } else {
        FlowShows(place, es, ss, fs, n);
      }
    }
    if Shows(es, ss, fs, kind) {
      ShownIsOffered(place, es, ss, fs, kind);
      var n :| n in ns && n.kind == kind;
      var k :| 0 <= k < |Kept(ns)| && Kept(ns)[k].id == n.id;
      SameIdSameKind(place, es, ss, fs, Kept(ns)[k], n);
    }
  }

  /** A category outside the table shows a kind of its own; none and `unknown` share theirs. */
  lemma UnlistedSinks(a: string, b: string)
    requires a !in SINK_CAPABILITIES && b !in SINK_CAPABILITIES
    ensures SinkCapability(a) == SinkCapability(b) <==>
              a == b || (a == "" && b == "unknown") || (a == "unknown" && b == "")
  {
    var kindA, kindB := SinkCapability(a), SinkCapability(b);
    assert kindA == "sink:" + if a == "" then "unknown" else a;
    assert kindB == "sink:" + if b == "" then "unknown" else b;
    assert kindA[5..] == (if a == "" then "unknown" else a) && kindB[5..] == (if b == "" then "unknown" else b);
  }

  // ------------------------------------------------------------ which templates are tried

  /** Two of the required primitives are observed, or one that is worth a chain of its own. */
  ghost predicate Enough(ns: seq<Node>, required: seq<Kind>) {
    || (exists i, j :: 0 <= i < j < |required| && Gives(ns, required[i]) && Gives(ns, required[j]))
    || (exists i :: 0 <= i < |required| && Gives(ns, required[i]) && required[i] in PARTIAL_SEEDS)
  }

  lemma {:induction false} PresentMembers(ns: seq<Node>, required: seq<Kind>, kind: Kind)
    requires DistinctIds(ns)
    ensures kind in Present(ns, required) <==> kind in required && Gives(ns, kind)
  {
    hide Choices, Gives;
    if required != [] {
      PresentMembers(ns, required[1..], kind);
      GivenIsChosen(ns, required[0]);
      assert required == [required[0]] + required[1..];
    }
  }

  lemma {:induction false} TwoPresent(ns: seq<Node>, required: seq<Kind>)
    requires DistinctIds(ns)
    ensures |Present(ns, required)| >= 2 <==>
              exists i, j :: 0 <= i < j < |required| && Gives(ns, required[i]) && Gives(ns, required[j])
  {
    hide Choices, Gives;
    if required != [] {
      var first, rest := required[0], required[1..];
      var present := Present(ns, rest);
      TwoPresent(ns, rest);
      GivenIsChosen(ns, first);
      if |present| > 0 {
        PresentMembers(ns, rest, present[0]);
        var k :| 0 <= k < |rest| && rest[k] == present[0];
        assert required[k + 1] == rest[k];
      }
      if i, j :| 0 <= i < j < |rest| && Gives(ns, rest[i]) && Gives(ns, rest[j]) {
        assert required[i + 1] == rest[i] && required[j + 1] == rest[j];
      }
      if i, j :| 0 <= i < j < |required| && Gives(ns, required[i]) && Gives(ns, required[j]) {
        assert required[j] == rest[j - 1] && (i > 0 ==> required[i] == rest[i - 1]);
        PresentMembers(ns, rest, rest[j - 1]);
      }
    }
  }

  lemma ReachableExactlyWhen(ns: seq<Node>, required: seq<Kind>)
    requires DistinctIds(ns)
    ensures Reachable(ns, required) <==> Enough(ns, required)
  {
    hide Gives, Present;
    var present := Present(ns, required);
    TwoPresent(ns, required);
    forall kind ensures kind in present <==> kind in required && Gives(ns, kind) {
      PresentMembers(ns, required, kind);
    }
    if |present| == 1 && present[0] in PARTIAL_SEEDS {
      assert present[0] in present;
      var i :| 0 <= i < |required| && required[i] == present[0];
    }
    if i :| 0 <= i < |required| && Gives(ns, required[i]) && required[i] in PARTIAL_SEEDS {
      assert required[i] in present;
    }
  }

  // ------------------------------------------------------------ which candidates come out

  /** One of the choices of the kind, or nothing where nothing gives it. */
  ghost predicate PicksOne(ns: seq<Node>, kind: Kind, option: Option<Node>) {
    match option
    case None => !Gives(ns, kind)
    case Some(n) => n in Choices(ns, kind)
  }

  /** One pick for each required kind. */
  ghost predicate Picks(ns: seq<Node>, required: seq<Kind>, combo: seq<Option<Node>>) {
    && |combo| == |required|
    && forall i :: 0 <= i < |required| ==> PicksOne(ns, required[i], combo[i])
  }

  lemma {:induction false} CrossFirstMembers(firsts: seq<Option<Node>>, tails: seq<seq<Option<Node>>>,
                                             first: Option<Node>, tail: seq<Option<Node>>)
    requires first in firsts && tail in tails
    ensures [first] + tail in CrossFirst(firsts, tails)
  {
    if first == firsts[0] {
      var i :| 0 <= i < |tails| && tails[i] == tail;
      assert WithFirst(first, tails)[i] == [first] + tail;
    } else {
      assert firsts == [firsts[0]] + firsts[1..];
      CrossFirstMembers(firsts[1..], tails, first, tail);
    }
  }

  lemma OptionsMembers(ns: seq<Node>, kind: Kind, option: Option<Node>)
    requires DistinctIds(ns)
    ensures option in OptionsFor(ns, kind) <==> PicksOne(ns, kind, option)
  {
    hide Choices;
    GivenIsChosen(ns, kind);
    var choices := Choices(ns, kind);
    if option.Some? && option.value in choices {
      var i :| 0 <= i < |choices| && choices[i] == option.value;
      assert OptionsFor(ns, kind)[i] == option;
    }
  }

  /** The combinations gone through are all the picks there are. */
  lemma {:induction false} CombosAreAllPicks(ns: seq<Node>, required: seq<Kind>, combo: seq<Option<Node>>)
    requires DistinctIds(ns)
    ensures combo in Combos(ns, required) <==> Picks(ns, required, combo)
    decreases |required|
  {
    hide PicksOne, OptionsFor;
    if required != [] {
      var firsts, tails := OptionsFor(ns, required[0]), Combos(ns, required[1..]);
      if combo in Combos(ns, required) {
        var first, tail := CrossFirstMember(firsts, tails, combo);
        CombosAreAllPicks(ns, required[1..], tail);
        OptionsMembers(ns, required[0], first);
        forall i | 0 <= i < |required| ensures PicksOne(ns, required[i], combo[i]) {
          assert i > 0 ==> combo[i] == tail[i - 1] && required[i] == required[1..][i - 1];
        }
      }
      if Picks(ns, required, combo) {
        forall i | 0 <= i < |required| - 1 ensures PicksOne(ns, required[1..][i], combo[1..][i]) {
          assert combo[1..][i] == combo[i + 1] && required[1..][i] == required[i + 1];
        }
        CombosAreAllPicks(ns, required[1..], combo[1..]);
        OptionsMembers(ns, required[0], combo[0]);
        CrossFirstMembers(firsts, tails, combo[0], combo[1..]);
        assert combo == [combo[0]] + combo[1..];
      }
    }
  }

  /** What a candidate shows is read off its combination, place by place. */
  lemma {:induction false} ObservedIdsConcat(a: seq<Option<Node>>, b: seq<Option<Node>>)
    ensures ObservedIds(a + b) == ObservedIds(a) + ObservedIds(b)
    ensures forall n :: ObservedIds([Some(n)]) == [n.id]
    ensures ObservedIds([None]) == []
  {
    var nothing: seq<Option<Node>> := [None];
    assert nothing[1..] == [];
    forall n ensures ObservedIds([Some(n)]) == [n.id] {
      assert [Some(n)][1..] == [];
    }
    assert ObservedIds(nothing) == [];
    if a == [] {
      assert a + b == b;
    } else {
      ObservedIdsConcat(a[1..], b);
      assert (a + b)[1..] == a[1..] + b;
    }
  }

  lemma Regroup<T>(a: seq<T>, b: seq<T>, c: seq<T>)
    ensures a + (b + c) == a + b + c
  {
  }

  lemma LackingStep(kind: Kind, rest: seq<Kind>, kinds: set<Kind>)
    ensures Lacking([kind] + rest, kinds) == (if kind in kinds then [] else [kind]) + Lacking(rest, kinds)
  {
    assert ([kind] + rest)[1..] == rest;
  }

  lemma {:induction false} LackingConcat(a: seq<Kind>, b: seq<Kind>, kinds: set<Kind>)
    ensures Lacking(a + b, kinds) == Lacking(a, kinds) + Lacking(b, kinds)
  {
    if a == [] {
      assert a + b == b;
    } else {
      var first, rest := a[0], a[1..];
      LackingConcat(rest, b, kinds);
      LackingStep(first, rest, kinds);
      LackingStep(first, rest + b, kinds);
      hide Lacking;
      assert a == [first] + rest;
      assert a + b == [first] + (rest + b) by { Regroup([first], rest, b); }
      Regroup(if first in kinds then [] else [first], Lacking(rest, kinds), Lacking(b, kinds));
    }
  }

  lemma LackingOne(kind: Kind, kinds: set<Kind>)
    ensures Lacking([kind], kinds) == if kind in kinds then [] else [kind]
  {
    assert [kind][1..] == [];
  }

  lemma {:induction false} ExtendTakesAll(cs: seq<Candidate>, t: Template, combos: seq<seq<Option<Node>>>, limit: nat,
                                          combo: seq<Option<Node>>)
    requires |Extend(cs, t, combos, limit)| < limit && combo in combos && ObservedIds(combo) != []
    ensures MakeCandidate(t, combo) in Extend(cs, t, combos, limit)
    decreases |combos|
  {
    hide MakeCandidate, ObservedIds;
    ExtendGrows(cs, t, combos, limit);
    var c := MakeCandidate(t, combos[0]);
    var next := if c in cs || ObservedIds(combos[0]) == [] then cs else cs + [c];
    if combo == combos[0] {
      assert c in next;
      ExtendGrows(next, t, combos[1..], limit);
    } else {
      assert combos == [combos[0]] + combos[1..];
      ExtendTakesAll(next, t, combos[1..], limit, combo);
    }
  }

  lemma EnoughIsSeen(ns: seq<Node>, required: seq<Kind>, combo: seq<Option<Node>>)
    requires DistinctIds(ns) && Enough(ns, required) && Picks(ns, required, combo)
    ensures ObservedIds(combo) != []
  {
    hide Gives;
    var i :| 0 <= i < |required| && Gives(ns, required[i]);
    assert PicksOne(ns, required[i], combo[i]);
    SomeIsObserved(combo, i);
  }

  lemma ComposedIsPicked(ns: seq<Node>, t: Template, c: Candidate)
    requires DistinctIds(ns)
    ensures ComposedBy(ns, t, c) <==> exists combo :: Picks(ns, t.required, combo) && c == MakeCandidate(t, combo)
  {
    hide MakeCandidate, Combos, Picks;
    forall combo ensures combo in Combos(ns, t.required) <==> Picks(ns, t.required, combo) {
      CombosAreAllPicks(ns, t.required, combo);
    }
  }

  /** Nothing else comes out. */
  lemma {:induction false} FoundIsPicked(ns: seq<Node>, templates: seq<Template>, limit: nat, c: Candidate)
      returns (t: Template, combo: seq<Option<Node>>)
    requires DistinctIds(ns) && c in Search(ns, templates, limit)
    ensures t in templates && Enough(ns, t.required) && Picks(ns, t.required, combo) && c == MakeCandidate(t, combo)
  {
    hide MakeCandidate, Picks, Enough, Reachable;
    var init, last := templates[..|templates| - 1], templates[|templates| - 1];
    var before := Search(ns, init, limit);
    if c in before {
      t, combo := FoundIsPicked(ns, init, limit, c);
    } else {
      t := last;
      ExtendMembers(ns, before, last, Combos(ns, last.required), limit, c);
      ComposedIsPicked(ns, last, c);
      combo :| Picks(ns, last.required, combo) && c == MakeCandidate(last, combo);
      ReachableExactlyWhen(ns, last.required);
    }
  }

  /** Below the limit nothing is left out. */
  lemma {:induction false} PickedIsFound(ns: seq<Node>, templates: seq<Template>, limit: nat, t: Template,
                                         combo: seq<Option<Node>>)
    requires DistinctIds(ns) && |Search(ns, templates, limit)| < limit
    requires t in templates && Enough(ns, t.required) && Picks(ns, t.required, combo)
    ensures MakeCandidate(t, combo) in Search(ns, templates, limit)
  {
    hide MakeCandidate, Picks, Enough, Reachable;
    var init, last := templates[..|templates| - 1], templates[|templates| - 1];
    var before := Search(ns, init, limit);
    assert templates == init + [last];
    ReachableExactlyWhen(ns, last.required);
    if Reachable(ns, last.required) {
      ExtendGrows(before, last, Combos(ns, last.required), limit);
    }
    if t in init {
      PickedIsFound(ns, init, limit, t, combo);
    } else {
      CombosAreAllPicks(ns, t.required, combo);
      EnoughIsSeen(ns, t.required, combo);
      ExtendTakesAll(before, t, Combos(ns, t.required), limit, combo);
    }
  }

  /** Main result: below the path limit, the candidates are exactly one per template that is
      worth trying and per way of picking one of the three best nodes for each kind it needs. */
  lemma SearchIsExact(ns: seq<Node>, templates: seq<Template>, limit: nat, c: Candidate)
    requires DistinctIds(ns) && |Search(ns, templates, limit)| < limit
    ensures c in Search(ns, templates, limit) <==>
              exists t, combo :: t in templates && Enough(ns, t.required) && Picks(ns, t.required, combo)
                                 && c == MakeCandidate(t, combo)
  {
    hide MakeCandidate, Picks, Enough, Search;
    if c in Search(ns, templates, limit) {
      var t, combo := FoundIsPicked(ns, templates, limit, c);
    }
    if t, combo :| t in templates && Enough(ns, t.required) && Picks(ns, t.required, combo)
                   && c == MakeCandidate(t, combo)
    {
      PickedIsFound(ns, templates, limit, t, combo);
    }
  }

  // ------------------------------------------------------------ in which order

  /** At the first place where the two differ, `a` picks the node that ranks first. */
  ghost predicate PicksBetter(a: seq<Option<Node>>, b: seq<Option<Node>>) {
    exists p :: 0 <= p < |a| && p < |b| && a[..p] == b[..p] && a[p].Some? && b[p].Some?
                && RanksBefore(a[p].value, b[p].value)
  }

  ghost predicate BestFirst(combos: seq<seq<Option<Node>>>) {
    forall i, j :: 0 <= i < j < |combos| ==> PicksBetter(combos[i], combos[j])
  }

  /** The options of one kind: nothing alone, or nodes in rank order. */
  ghost predicate RankedOptions(options: seq<Option<Node>>) {
    forall i, j :: 0 <= i < j < |options| ==>
      options[i].Some? && options[j].Some? && RanksBefore(options[i].value, options[j].value)
  }

  lemma BetterTail(first: Option<Node>, a: seq<Option<Node>>, b: seq<Option<Node>>)
    requires PicksBetter(a, b)
    ensures PicksBetter([first] + a, [first] + b)
  {
    var p :| 0 <= p < |a| && p < |b| && a[..p] == b[..p] && a[p].Some? && b[p].Some?
             && RanksBefore(a[p].value, b[p].value);
    var x, y := [first] + a, [first] + b;
    assert x[..p + 1] == [first] + a[..p] && y[..p + 1] == [first] + b[..p];
    assert x[p + 1] == a[p] && y[p + 1] == b[p];
  }

  lemma BetterHead(f: Option<Node>, g: Option<Node>, a: seq<Option<Node>>, b: seq<Option<Node>>)
    requires f.Some? && g.Some? && RanksBefore(f.value, g.value)
    ensures PicksBetter([f] + a, [g] + b)
  {
    var x, y := [f] + a, [g] + b;
    assert x[..0] == y[..0] && x[0] == f && y[0] == g;
  }

  lemma {:induction false} CrossFirstInOrder(firsts: seq<Option<Node>>, tails: seq<seq<Option<Node>>>)
    requires RankedOptions(firsts) && BestFirst(tails)
    ensures BestFirst(CrossFirst(firsts, tails))
  {
    hide PicksBetter, RanksBefore;
    if firsts != [] {
      var block, rest := WithFirst(firsts[0], tails), CrossFirst(firsts[1..], tails);
      CrossFirstInOrder(firsts[1..], tails);
      var all := block + rest;
      forall i, j | 0 <= i < j < |all| ensures PicksBetter(all[i], all[j]) {
        if j < |block| {
          BetterTail(firsts[0], tails[i], tails[j]);
        } else if i < |block| {
          assert all[j] == rest[j - |block|] && all[j] in rest;
          var g, tail := CrossFirstMember(firsts[1..], tails, all[j]);
          var k :| 0 <= k < |firsts[1..]| && firsts[1..][k] == g;
          assert firsts[k + 1] == g;
          BetterHead(firsts[0], g, tails[i], tail);
        }
      }
    }
  }

  /** Combinations are gone through best first, so the path limit cuts off the worse ones. */
  lemma {:induction false} CombosBestFirst(ns: seq<Node>, required: seq<Kind>)
    requires DistinctIds(ns)
    ensures BestFirst(Combos(ns, required))
  {
    if required != [] {
      CombosBestFirst(ns, required[1..]);
      ChoicesAreTheBest(ns, required[0]);
      hide Choices;
      CrossFirstInOrder(OptionsFor(ns, required[0]), Combos(ns, required[1..]));
    }
  }
}
