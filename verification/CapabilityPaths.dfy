/** The bounded capability search of `build_capability_graph`: which observed primitives are
    kept per kind, and which chain candidates are composed from them. */
module CapabilityPaths {
  import opened Options

  const MAX_CHOICES_PER_KIND := 3

  type Kind = string

  /** An observed primitive; `priority` and `confidence` are the two ranks of `_node_rank`. */
  datatype Node = Node(id: int, kind: Kind, priority: nat, confidence: nat)

  /** The nodes one inventory record contributes. */
  type Contribution = seq<Node>

  /** `_node_rank`: flow priority, then confidence, then id. */
  predicate RanksBefore(a: Node, b: Node) {
    a.priority < b.priority
    || (a.priority == b.priority && (a.confidence < b.confidence
                                     || (a.confidence == b.confidence && a.id < b.id)))
  }

  // -------------------------------------------------------------- inventory records

  /** A record without an id is never found by a flow. */
  const NO_ID := 0

  /** `adminShaped` says the entry is externally reachable and its API or input shape carries
      an administration marker; `config` says its kind is configuration. */
  datatype Entry = Entry(id: int, confidence: string, adminShaped: bool, config: bool)
  datatype Sink = Sink(id: int, category: string)
  datatype Flow = Flow(id: int, entry: int, sink: int, priority: string)

  /** What a node id is made from: `entry:`, `entry-cap` and `cap` ids. */
  datatype NodeId =
    | InputOf(entry: int)
    | SurfaceOf(entry: int, surface: Kind)
    | EffectOf(effect: Kind, flow: int, sink: int)

  /** `place` gives each node id its place in string order; digests are taken as injective. */
  ghost predicate Injective(place: NodeId -> int) {
    forall a, b :: place(a) == place(b) ==> a == b
  }

  const SINK_CAPABILITIES: map<string, Kind> :=
    map["file-read" := "read", "file-mutation" := "write", "command-exec" := "exec", "code-eval" := "eval",
        "expression-eval" := "eval", "template-render" := "template-eval", "sql-exec" := "sql",
        "network-egress" := "ssrf", "credential-access" := "credential-read", "privilege" := "privilege",
        "webview-bridge" := "bridge", "jndi" := "lookup", "dynamic-class-load" := "class-load",
        "deserialization" := "parse"]

  /** `_sink_capabilities`, which names one capability for every category. */
  function SinkCapability(category: string): Kind {
    if category in SINK_CAPABILITIES then SINK_CAPABILITIES[category]
    else if category == "" then "sink:unknown"
    else "sink:" + category
  }

  const NO_PRIORITY := 3
  const CALLGRAPH_CONFIDENCE := 2

  function PriorityRank(priority: string): nat {
    if priority == "high" then 0 else if priority == "medium" then 1 else if priority == "low" then 2 else NO_PRIORITY
  }

  function ConfidenceRank(confidence: string): nat {
    if confidence == "exact" then 0
    else if confidence == "ast" then 1
    else if confidence == "heuristic-callgraph" then CALLGRAPH_CONFIDENCE
    else if confidence == "heuristic-nearby" then 3
    else 9
  }

  function KindOf(id: NodeId): Kind {
    match id
    case InputOf(_) => "input"
    case SurfaceOf(_, surface) => surface
    case EffectOf(effect, _, _) => effect
  }

  function NodeFor(place: NodeId -> int, id: NodeId, priority: nat, confidence: nat): Node {
    Node(place(id), KindOf(id), priority, confidence)
  }

  function InputNode(place: NodeId -> int, e: Entry): Node {
    NodeFor(place, InputOf(e.id), NO_PRIORITY, ConfidenceRank(e.confidence))
  }

  function SurfaceNode(place: NodeId -> int, entry: int, surface: Kind): Node {
    NodeFor(place, SurfaceOf(entry, surface), NO_PRIORITY, CALLGRAPH_CONFIDENCE)
  }

  /** `_entry_node`. */
  function EntryNodes(place: NodeId -> int, e: Entry): Contribution {
    [InputNode(place, e)]
    + (if e.adminShaped then [SurfaceNode(place, e.id, "management-access")] else [])
    + (if e.config then [SurfaceNode(place, e.id, "config-control")] else [])
  }

  /** `entry_by_id`, of which the search only asks whether there is one. */
  predicate EntryKnown(es: seq<Entry>, id: int) {
    id != NO_ID && exists i :: 0 <= i < |es| && es[i].id == id
  }

  /** `sink_by_id`: the last sink with an id answers for it. */
  function SinkById(ss: seq<Sink>, id: int): Option<Sink> {
    if id == NO_ID || ss == [] then None
    else if ss[|ss| - 1].id == id then Some(ss[|ss| - 1])
    else SinkById(ss[..|ss| - 1], id)
  }

  function EffectNode(place: NodeId -> int, f: Flow, category: string): Node {
    NodeFor(place, EffectOf(SinkCapability(category), f.id, f.sink), PriorityRank(f.priority), CALLGRAPH_CONFIDENCE)
  }

  /** `_flow_node` for the capability of the flow's sink; a flow with an unknown end is skipped. */
  function FlowNodes(place: NodeId -> int, es: seq<Entry>, ss: seq<Sink>, f: Flow): Contribution {
    var sink := SinkById(ss, f.sink);
    if EntryKnown(es, f.entry) && sink.Some? then [EffectNode(place, f, sink.value.category)] else []
  }

  function EntryContributions(place: NodeId -> int, es: seq<Entry>): seq<Contribution> {
    seq(|es|, i requires 0 <= i < |es| => EntryNodes(place, es[i]))
  }

  function FlowContributions(place: NodeId -> int, es: seq<Entry>, ss: seq<Sink>, fs: seq<Flow>): seq<Contribution> {
    seq(|fs|, i requires 0 <= i < |fs| => FlowNodes(place, es, ss, fs[i]))
  }

  function Flatten(cs: seq<Contribution>): seq<Node> {
    if cs == [] then [] else Flatten(cs[..|cs| - 1]) + cs[|cs| - 1]
  }

  /** All nodes in the order the two loops offer them: entries first, then flows. */
  function Offered(place: NodeId -> int, es: seq<Entry>, ss: seq<Sink>, fs: seq<Flow>): seq<Node> {
    Flatten(EntryContributions(place, es) + FlowContributions(place, es, ss, fs))
  }

  // ------------------------------------------------------------- collecting nodes

  ghost predicate DistinctIds(ns: seq<Node>) {
    forall i, j :: 0 <= i < j < |ns| ==> ns[i].id != ns[j].id
  }

  predicate Holds(ns: seq<Node>, id: int) {
    exists k :: 0 <= k < |ns| && ns[k].id == id
  }

  /** What `setdefault` keeps of the offered nodes: the first with each id. */
  function Kept(ns: seq<Node>): seq<Node> {
    if ns == [] then []
    else
      var kept, n := Kept(ns[..|ns| - 1]), ns[|ns| - 1];
      if Holds(kept, n.id) then kept else kept + [n]
  }

  function Prefix<T>(s: seq<T>, n: nat): seq<T> {
    if |s| <= n then s else s[..n]
  }

  lemma KeptAppend(ns: seq<Node>, n: Node)
    ensures Kept(ns + [n]) == if Holds(Kept(ns), n.id) then Kept(ns) else Kept(ns) + [n]
  {
    assert (ns + [n])[..|ns|] == ns;
  }

  lemma {:induction false} KeptGrows(ns: seq<Node>, more: seq<Node>)
    ensures Kept(ns) <= Kept(ns + more)
  {
    hide Kept, Holds;
    if more == [] {
      assert ns + more == ns;
    } else {
      KeptGrows(ns, more[..|more| - 1]);
      KeptAppend(ns + more[..|more| - 1], more[|more| - 1]);
      assert ns + more == ns + more[..|more| - 1] + [more[|more| - 1]];
    }
  }

  /** One record's turn: stop at the limit, else keep what is new. */
  method CollectFrom(c: Contribution, limit: nat, nodes0: seq<Node>, ghost seen: seq<Node>) returns (nodes: seq<Node>)
    requires nodes0 == Prefix(Kept(seen), limit)
    ensures nodes == Prefix(Kept(seen + c), limit)
  {
    hide Kept, Holds;
    nodes := nodes0;
    assert seen + c[..0] == seen;
    for j := 0 to |c|
      invariant nodes == Prefix(Kept(seen + c[..j]), limit)
    {
      var node := c[j];
      if |nodes| >= limit {
        KeptGrows(seen + c[..j], c[j..]);
        assert seen + c == seen + c[..j] + c[j..];
        return;
      }
      KeptAppend(seen + c[..j], node);
      assert seen + c[..j + 1] == seen + c[..j] + [node];
      if !Holds(nodes, node.id) {
        nodes := nodes + [node];
      }
    }
    assert c[..|c|] == c;
  }

  lemma NothingKept(limit: nat)
    ensures Prefix(Kept([]), limit) == []
  {
  }

  /** Every id offered is kept once, by one of the nodes offered for it. */
  lemma {:induction false} KeptMembers(ns: seq<Node>)
    ensures DistinctIds(Kept(ns))
    ensures forall n :: n in Kept(ns) ==> n in ns
    ensures forall n :: n in ns ==> Holds(Kept(ns), n.id)
  {
    if ns != [] {
      var init, last := ns[..|ns| - 1], ns[|ns| - 1];
      KeptMembers(init);
      assert ns == init + [last];
      forall n | n in ns ensures Holds(Kept(ns), n.id) {
        if n in init {
          var k :| 0 <= k < |Kept(init)| && Kept(init)[k].id == n.id;
          assert Kept(ns)[k] == Kept(init)[k];
        } else if !Holds(Kept(init), n.id) {
          assert Kept(ns)[|Kept(init)|] == n;
        }
      }
    }
  }

  /** `nodes`, filled by `setdefault` until the limit is reached. */
  method CollectNodes(cs: seq<Contribution>, limit: nat) returns (nodes: seq<Node>)
    ensures nodes == Prefix(Kept(Flatten(cs)), limit)
    ensures DistinctIds(nodes) && |nodes| <= limit
  {
    hide Kept;
    nodes := [];
    NothingKept(limit);
    assert cs[..0] == [];
    for i := 0 to |cs|
      invariant nodes == Prefix(Kept(Flatten(cs[..i])), limit)
    {
      assert cs[..i + 1][..i] == cs[..i];
      nodes := CollectFrom(cs[i], limit, nodes, Flatten(cs[..i]));
    }
    assert cs[..|cs|] == cs;
    KeptMembers(Flatten(cs));
  }

  // --------------------------------------------------------------- ranked choices

  ghost predicate Ranked(ns: seq<Node>) {
    forall i, j :: 0 <= i < j < |ns| ==> RanksBefore(ns[i], ns[j])
  }

  function Insert(ns: seq<Node>, n: Node): seq<Node> {
    if ns == [] || RanksBefore(n, ns[0]) then [n] + ns else [ns[0]] + Insert(ns[1..], n)
  }

  /** `by_kind[kind]` after sorting. */
  function Sorted(ns: seq<Node>, kind: Kind): seq<Node> {
    if ns == [] then []
    else
      var init, n := Sorted(ns[..|ns| - 1], kind), ns[|ns| - 1];
      if n.kind == kind then Insert(init, n) else init
  }

  function Choices(ns: seq<Node>, kind: Kind): seq<Node> {
    var all := Sorted(ns, kind);
    if |all| <= MAX_CHOICES_PER_KIND then all else all[..MAX_CHOICES_PER_KIND]
  }

  lemma PrependRanked(n: Node, ns: seq<Node>)
    requires Ranked(ns) && forall m :: m in ns ==> RanksBefore(n, m)
    ensures Ranked([n] + ns)
  {
    forall i, j | 0 <= i < j < |[n] + ns| ensures RanksBefore(([n] + ns)[i], ([n] + ns)[j]) {
      assert ([n] + ns)[j] == ns[j - 1] && ns[j - 1] in ns;
    }
  }

  lemma {:induction false} InsertIsRanked(ns: seq<Node>, n: Node)
    requires Ranked(ns) && forall m :: m in ns ==> m.id != n.id
    ensures Ranked(Insert(ns, n))
    ensures forall m :: m in Insert(ns, n) <==> m == n || m in ns
  {
    if ns != [] {
      assert ns == [ns[0]] + ns[1..];
      assert forall m :: m in ns[1..] ==> m in ns && RanksBefore(ns[0], m);
      if !RanksBefore(n, ns[0]) {
        InsertIsRanked(ns[1..], n);
        assert ns[0] in ns && RanksBefore(ns[0], n);
        PrependRanked(ns[0], Insert(ns[1..], n));
      } else {
        forall m | m in ns ensures RanksBefore(n, m) {
          assert m == ns[0] || RanksBefore(ns[0], m);
        }
        PrependRanked(n, ns);
      }
    }
  }

  lemma {:induction false} SortedIsRanked(ns: seq<Node>, kind: Kind)
    requires DistinctIds(ns)
    ensures Ranked(Sorted(ns, kind))
    ensures forall m :: m in Sorted(ns, kind) <==> m in ns && m.kind == kind
  {
    if ns != [] {
      var init, n := ns[..|ns| - 1], ns[|ns| - 1];
      SortedIsRanked(init, kind);
      assert ns == init + [n];
      forall m | m in init ensures m.id != n.id {
        var i :| 0 <= i < |init| && init[i] == m;
        assert ns[i] == m;
      }
      if n.kind == kind {
        InsertIsRanked(Sorted(init, kind), n);
      }
    }
  }

  lemma TailMember(a: seq<Node>, m: Node)
    requires Ranked(a) && a != []
    ensures m in a[1..] <==> m in a && m != a[0]
  {
    assert a == [a[0]] + a[1..];
    assert a[0] !in a[1..];
  }

  /** A set of nodes has one ranked listing. */
  lemma {:induction false} RankedIsUnique(a: seq<Node>, b: seq<Node>)
    requires Ranked(a) && Ranked(b) && forall m :: m in a <==> m in b
    ensures a == b
  {
    assert |b| > 0 ==> b[0] in b;
    if a != [] {
      assert a[0] in b && b != [];
      assert b[0] in a;
      var i :| 0 <= i < |a| && a[i] == b[0];
      var j :| 0 <= j < |b| && b[j] == a[0];
      assert a[0] == b[0];
      forall m ensures m in a[1..] <==> m in b[1..] {
        TailMember(a, m);
        TailMember(b, m);
      }
      RankedIsUnique(a[1..], b[1..]);
      assert a == [a[0]] + a[1..] && b == [b[0]] + b[1..];
    }
  }

  /** The choices kept per kind depend on which nodes were observed, not on their order. */
  lemma ChoicesIgnoreOrder(ns: seq<Node>, ms: seq<Node>, kind: Kind)
    requires DistinctIds(ns) && DistinctIds(ms) && forall m :: m in ns <==> m in ms
    ensures Choices(ns, kind) == Choices(ms, kind)
  {
    SortedIsRanked(ns, kind);
    SortedIsRanked(ms, kind);
    RankedIsUnique(Sorted(ns, kind), Sorted(ms, kind));
  }

  // ------------------------------------------------------ what is kept per kind

  /** The nodes of `ns` that give `kind`. */
  ghost function OfKind(ns: seq<Node>, kind: Kind): set<Node> {
    set n | n in ns && n.kind == kind
  }

  ghost function Elements<T(!new)>(s: seq<T>): set<T> {
    set x | x in s
  }

  lemma {:induction false} ElementsSize<T(!new)>(s: seq<T>)
    requires forall i, j :: 0 <= i < j < |s| ==> s[i] != s[j]
    ensures |Elements(s)| == |s|
  {
    if s == [] {
      assert Elements(s) == {};
    } else {
      var init, last := s[..|s| - 1], s[|s| - 1];
      ElementsSize(init);
      assert s == init + [last] && last !in init;
      assert Elements(s) == Elements(init) + {last};
    }
  }

  /** The choices of a kind are its three best nodes, or all there are: whatever is left out
      ranks behind everything kept. */
  lemma ChoicesAreTheBest(ns: seq<Node>, kind: Kind)
    requires DistinctIds(ns)
    ensures Ranked(Choices(ns, kind))
    ensures |Choices(ns, kind)| == if |OfKind(ns, kind)| < 3 then |OfKind(ns, kind)| else 3
    ensures forall n :: n in Choices(ns, kind) ==> n in OfKind(ns, kind)
    ensures forall n, m :: n in Choices(ns, kind) && m in OfKind(ns, kind) && m !in Choices(ns, kind) ==>
              RanksBefore(n, m)
  {
    var all, kept := Sorted(ns, kind), Choices(ns, kind);
    SortedIsRanked(ns, kind);
    assert forall i, j :: 0 <= i < j < |all| ==> RanksBefore(all[i], all[j]) && all[i] != all[j];
    ElementsSize(all);
    assert OfKind(ns, kind) == Elements(all);
    forall n, m | n in kept && m in OfKind(ns, kind) && m !in kept ensures RanksBefore(n, m) {
      var i :| 0 <= i < |kept| && kept[i] == n;
      var j :| 0 <= j < |all| && all[j] == m;
      assert kept[..|kept|] == all[..|kept|];
    }
  }

  /** `a` is listed before `b`, the last of all being anything not listed. */
  ghost predicate Above(scale: seq<string>, a: string, b: string) {
    exists i :: 0 <= i < |scale| && scale[i] == a && forall j :: 0 <= j <= i ==> scale[j] != b
  }

  const URGENCY: seq<string> := ["high", "medium", "low"]
  const CERTAINTY: seq<string> := ["exact", "ast", "heuristic-callgraph", "heuristic-nearby"]

  lemma RanksFollowScales(a: string, b: string)
    ensures Above(URGENCY, a, b) <==> PriorityRank(a) < PriorityRank(b)
    ensures Above(CERTAINTY, a, b) <==> ConfidenceRank(a) < ConfidenceRank(b)
  {
    assert URGENCY[0] == "high" && URGENCY[1] == "medium" && URGENCY[2] == "low";
    assert CERTAINTY[0] == "exact" && CERTAINTY[1] == "ast";
    assert CERTAINTY[2] == "heuristic-callgraph" && CERTAINTY[3] == "heuristic-nearby";
  }

  /** Of two flows into the same capability, the more urgent one is kept first. */
  lemma UrgentFlowsAreKept(place: NodeId -> int, ns: seq<Node>, f: Flow, g: Flow, c: string, d: string)
    requires DistinctIds(ns) && Above(URGENCY, f.priority, g.priority) && SinkCapability(c) == SinkCapability(d)
    requires EffectNode(place, f, c) in ns && EffectNode(place, g, d) in Choices(ns, SinkCapability(d))
    ensures EffectNode(place, f, c) in Choices(ns, SinkCapability(c))
  {
    hide SinkCapability, Choices;
    ChoicesAreTheBest(ns, SinkCapability(c));
    assert EffectNode(place, f, c) in OfKind(ns, SinkCapability(c));
    RanksFollowScales(f.priority, g.priority);
  }

  /** Of two entries, the one found with more certainty is kept first. */
  lemma CertainEntriesAreKept(place: NodeId -> int, ns: seq<Node>, a: Entry, b: Entry)
    requires DistinctIds(ns) && Above(CERTAINTY, a.confidence, b.confidence)
    requires InputNode(place, a) in ns && InputNode(place, b) in Choices(ns, "input")
    ensures InputNode(place, a) in Choices(ns, "input")
  {
    hide Choices;
    ChoicesAreTheBest(ns, "input");
    assert InputNode(place, a) in OfKind(ns, "input");
    RanksFollowScales(a.confidence, b.confidence);
  }

  // ----------------------------------------------------------------- composition

  /** A chain template: the kinds it needs, in order. */
  datatype Template = Template(name: string, required: seq<Kind>)

  const PARTIAL_SEEDS: set<Kind> := {"read", "write", "ssrf", "credential-read", "sql", "bridge", "management-access"}

  /** A candidate is identified by its template, its observed node ids and what it lacks. */
  datatype Candidate = Candidate(template: string, observed: seq<int>, missing: seq<Kind>)

  function Present(ns: seq<Node>, required: seq<Kind>): seq<Kind> {
    if required == [] then []
    else (if Choices(ns, required[0]) != [] then [required[0]] else []) + Present(ns, required[1..])
  }

  /** `_requirements_reachable`. */
  predicate Reachable(ns: seq<Node>, required: seq<Kind>) {
    var present := Present(ns, required);
    |present| >= 2 || (|present| == 1 && present[0] in PARTIAL_SEEDS)
  }

  function OptionsFor(ns: seq<Node>, kind: Kind): seq<Option<Node>> {
    var choices := Choices(ns, kind);
    if choices == [] then [None] else seq(|choices|, i requires 0 <= i < |choices| => Some(choices[i]))
  }

  /** Prefix each of `tails` with `first`. */
  function WithFirst(first: Option<Node>, tails: seq<seq<Option<Node>>>): seq<seq<Option<Node>>> {
    seq(|tails|, i requires 0 <= i < |tails| => [first] + tails[i])
  }

  function CrossFirst(firsts: seq<Option<Node>>, tails: seq<seq<Option<Node>>>): seq<seq<Option<Node>>> {
    if firsts == [] then [] else WithFirst(firsts[0], tails) + CrossFirst(firsts[1..], tails)
  }

  /** `itertools.product` over the choices of each required kind. */
  function Combos(ns: seq<Node>, required: seq<Kind>): seq<seq<Option<Node>>> {
    if required == [] then [[]]
    else CrossFirst(OptionsFor(ns, required[0]), Combos(ns, required[1..]))
  }

  function ObservedIds(combo: seq<Option<Node>>): seq<int> {
    if combo == [] then []
    else (if combo[0].Some? then [combo[0].value.id] else []) + ObservedIds(combo[1..])
  }

  function ObservedKinds(combo: seq<Option<Node>>): set<Kind> {
    set n | n in combo && n.Some? :: n.value.kind
  }

  function Lacking(required: seq<Kind>, kinds: set<Kind>): seq<Kind> {
    if required == [] then []
    else (if required[0] in kinds then [] else [required[0]]) + Lacking(required[1..], kinds)
  }

  function MakeCandidate(t: Template, combo: seq<Option<Node>>): Candidate {
    Candidate(t.name, ObservedIds(combo), Lacking(t.required, ObservedKinds(combo)))
  }

  /** The candidates of one template in product order, each id once, up to the path limit. */
  function Extend(cs: seq<Candidate>, t: Template, combos: seq<seq<Option<Node>>>, limit: nat): seq<Candidate>
    decreases |combos|
  {
    if combos == [] || |cs| >= limit then cs
    else
      var c := MakeCandidate(t, combos[0]);
      Extend(if c in cs || ObservedIds(combos[0]) == [] then cs else cs + [c], t, combos[1..], limit)
  }

  function Search(ns: seq<Node>, templates: seq<Template>, limit: nat): seq<Candidate> {
    if templates == [] then []
    else
      var before, t := Search(ns, templates[..|templates| - 1], limit), templates[|templates| - 1];
      if Reachable(ns, t.required) then Extend(before, t, Combos(ns, t.required), limit) else before
  }

  /** The search loops of `build_capability_graph`. */
  method FindCandidates(ns: seq<Node>, templates: seq<Template>, limit: nat) returns (cs: seq<Candidate>)
    ensures cs == Search(ns, templates, limit)
    ensures |cs| <= limit
  {
    cs := [];
    for k := 0 to |templates|
      invariant cs == Search(ns, templates[..k], limit) && |cs| <= limit
    {
      assert templates[..k + 1][..k] == templates[..k];
      var t := templates[k];
      if Reachable(ns, t.required) {
        var combos := Combos(ns, t.required);
        ghost var before := cs;
        for i := 0 to |combos|
          invariant Extend(before, t, combos, limit) == Extend(cs, t, combos[i..], limit) && |cs| <= limit
        {
          assert combos[i..][0] == combos[i] && combos[i..][1..] == combos[i + 1..];
          if |cs| >= limit {
            break;
          }
          var c := MakeCandidate(t, combos[i]);
          if ObservedIds(combos[i]) != [] && c !in cs {
            cs := cs + [c];
          }
        }
      }
    }
    assert templates[..|templates|] == templates;
  }

  // --------------------------------------------------------------- main results

  lemma {:induction false} CombosIgnoreOrder(ns: seq<Node>, ms: seq<Node>, required: seq<Kind>)
    requires DistinctIds(ns) && DistinctIds(ms) && forall m :: m in ns <==> m in ms
    ensures Combos(ns, required) == Combos(ms, required) && Present(ns, required) == Present(ms, required)
  {
    if required != [] {
      ChoicesIgnoreOrder(ns, ms, required[0]);
      CombosIgnoreOrder(ns, ms, required[1..]);
    }
  }

  /** The candidate list is the same for every order in which the records were found. */
  lemma {:induction false} SearchIgnoresOrder(ns: seq<Node>, ms: seq<Node>, templates: seq<Template>, limit: nat)
    requires DistinctIds(ns) && DistinctIds(ms) && forall m :: m in ns <==> m in ms
    ensures Search(ns, templates, limit) == Search(ms, templates, limit)
  {
    if templates != [] {
      SearchIgnoresOrder(ns, ms, templates[..|templates| - 1], limit);
      CombosIgnoreOrder(ns, ms, templates[|templates| - 1].required);
    }
  }

  lemma {:induction false} CrossFirstMember(firsts: seq<Option<Node>>, tails: seq<seq<Option<Node>>>,
                                            combo: seq<Option<Node>>)
      returns (first: Option<Node>, tail: seq<Option<Node>>)
    requires combo in CrossFirst(firsts, tails)
    ensures first in firsts && tail in tails && combo == [first] + tail
  {
    if combo in WithFirst(firsts[0], tails) {
      var i :| 0 <= i < |tails| && combo == [firsts[0]] + tails[i];
      first, tail := firsts[0], tails[i];
    } else {
      first, tail := CrossFirstMember(firsts[1..], tails, combo);
    }
  }

  lemma {:induction false} ComboKinds(ns: seq<Node>, required: seq<Kind>, combo: seq<Option<Node>>)
    requires DistinctIds(ns) && combo in Combos(ns, required)
    ensures |combo| == |required|
    ensures forall i :: 0 <= i < |required| ==>
              (combo[i].None? <==> Choices(ns, required[i]) == [])
              && (combo[i].Some? ==> combo[i].value.kind == required[i] && combo[i].value in ns)
  {
    if required != [] {
      var firsts, tails := OptionsFor(ns, required[0]), Combos(ns, required[1..]);
      var first, tail := CrossFirstMember(firsts, tails, combo);
      ComboKinds(ns, required[1..], tail);
      SortedIsRanked(ns, required[0]);
      var j :| 0 <= j < |firsts| && firsts[j] == first;
      assert first.Some? ==> first.value in Sorted(ns, required[0]);
    }
  }

  lemma {:induction false} LackingMembers(required: seq<Kind>, kinds: set<Kind>)
    ensures forall k :: k in Lacking(required, kinds) <==> k in required && k !in kinds
  {
    if required != [] {
      LackingMembers(required[1..], kinds);
      assert required == [required[0]] + required[1..];
    }
  }

  lemma NeverObserved(ns: seq<Node>, kind: Kind)
    requires DistinctIds(ns)
    ensures Choices(ns, kind) == [] <==> forall n :: n in ns ==> n.kind != kind
  {
    SortedIsRanked(ns, kind);
    var all := Sorted(ns, kind);
    assert all != [] ==> all[0] in all;
  }

  /** What a candidate lacks is exactly what its template requires and nothing observed gives. */
  lemma MissingIsExact(ns: seq<Node>, t: Template, combo: seq<Option<Node>>, kind: Kind)
    requires DistinctIds(ns) && combo in Combos(ns, t.required)
    ensures kind in MakeCandidate(t, combo).missing <==> kind in t.required && forall n :: n in ns ==> n.kind != kind
  {
    ComboKinds(ns, t.required, combo);
    LackingMembers(t.required, ObservedKinds(combo));
    NeverObserved(ns, kind);
    if kind in t.required {
      var i :| 0 <= i < |t.required| && t.required[i] == kind;
      if combo[i].Some? {
        assert combo[i] in combo;
        assert kind in ObservedKinds(combo);
      } else {
        forall n | n in combo && n.Some? ensures n.value.kind != kind {
          var j :| 0 <= j < |combo| && combo[j] == n;
        }
      }
    }
  }

  /** `c` is composed by template `t` from a choice of observed nodes. */
  ghost predicate ComposedBy(ns: seq<Node>, t: Template, c: Candidate) {
    exists combo :: combo in Combos(ns, t.required) && c == MakeCandidate(t, combo)
  }

  lemma {:induction false} ExtendMembers(ns: seq<Node>, cs: seq<Candidate>, t: Template,
                                         combos: seq<seq<Option<Node>>>, limit: nat, c: Candidate)
    requires forall combo :: combo in combos ==> combo in Combos(ns, t.required)
    requires c in Extend(cs, t, combos, limit)
    ensures c in cs || ComposedBy(ns, t, c)
    decreases |combos|
  {
    if combos != [] && |cs| < limit {
      var d := MakeCandidate(t, combos[0]);
      assert combos[0] in combos;
      assert forall combo :: combo in combos[1..] ==> combo in combos;
      ExtendMembers(ns, if d in cs || ObservedIds(combos[0]) == [] then cs else cs + [d], t, combos[1..], limit, c);
    }
  }

  /** Every candidate the search returns lacks exactly the required kinds nobody observed. */
  lemma {:induction false} CandidateLacksExactly(ns: seq<Node>, templates: seq<Template>, limit: nat, c: Candidate)
      returns (t: Template)
    requires DistinctIds(ns) && c in Search(ns, templates, limit)
    ensures t in templates && c.template == t.name
    ensures forall kind :: kind in c.missing <==> kind in t.required && forall n :: n in ns ==> n.kind != kind
  {
    var init, last := templates[..|templates| - 1], templates[|templates| - 1];
    var before := Search(ns, init, limit);
    if c in before {
      t := CandidateLacksExactly(ns, init, limit, c);
    } else {
      t := last;
      ExtendMembers(ns, before, last, Combos(ns, last.required), limit, c);
      var combo :| combo in Combos(ns, last.required) && c == MakeCandidate(last, combo);
      forall kind ensures kind in c.missing <==> kind in t.required && forall n :: n in ns ==> n.kind != kind {
        MissingIsExact(ns, last, combo, kind);
      }
    }
  }

  // ------------------------------------------------------------- order of the records

  ghost predicate Permuted<T>(a: seq<T>, b: seq<T>) {
    multiset(a) == multiset(b)
  }

  /** The observed nodes, below the node limit. */
  function Observed(place: NodeId -> int, es: seq<Entry>, ss: seq<Sink>, fs: seq<Flow>): seq<Node> {
    Kept(Offered(place, es, ss, fs))
  }

  ghost function ObservedSet(place: NodeId -> int, es: seq<Entry>, ss: seq<Sink>, fs: seq<Flow>): set<Node> {
    Elements(Observed(place, es, ss, fs))
  }

  /** Which nodes are observed does not depend on the order of any of the three lists. */
  ghost predicate OrderFree(place: NodeId -> int, es: seq<Entry>, ss: seq<Sink>, fs: seq<Flow>) {
    forall es', ss', fs' {:trigger ObservedSet(place, es', ss', fs')} ::
      Permuted(es', es) && Permuted(ss', ss) && Permuted(fs', fs) ==>
        ObservedSet(place, es', ss', fs') == ObservedSet(place, es, ss, fs)
  }

  /** Entries that share an id are equally trusted. */
  ghost predicate EntriesAgree(es: seq<Entry>) {
    forall a, b :: a in es && b in es && a.id == b.id ==> ConfidenceRank(a.confidence) == ConfidenceRank(b.confidence)
  }

  /** Sinks that share an id give the same capability, if any live flow ends there. */
  ghost predicate SinksAgree(es: seq<Entry>, ss: seq<Sink>, fs: seq<Flow>) {
    forall f, s, t :: f in fs && s in ss && t in ss && EntryKnown(es, f.entry) && s.id == t.id == f.sink != NO_ID ==>
      SinkCapability(s.category) == SinkCapability(t.category)
  }

  ghost predicate EndsKnown(es: seq<Entry>, ss: seq<Sink>, f: Flow) {
    EntryKnown(es, f.entry) && SinkById(ss, f.sink).Some?
  }

  /** Live flows that share flow and sink id have the same priority. */
  ghost predicate FlowsAgree(es: seq<Entry>, ss: seq<Sink>, fs: seq<Flow>) {
    forall f, g :: f in fs && g in fs && f.id == g.id && f.sink == g.sink
                   && EndsKnown(es, ss, f) && EndsKnown(es, ss, g) ==>
      PriorityRank(f.priority) == PriorityRank(g.priority)
  }

  ghost predicate Consistent(es: seq<Entry>, ss: seq<Sink>, fs: seq<Flow>) {
    EntriesAgree(es) && SinksAgree(es, ss, fs) && FlowsAgree(es, ss, fs)
  }

  lemma {:induction false} SinkByIdMember(ss: seq<Sink>, id: int)
    ensures SinkById(ss, id).Some? <==> id != NO_ID && exists s :: s in ss && s.id == id
    ensures SinkById(ss, id).Some? ==> SinkById(ss, id).value in ss && SinkById(ss, id).value.id == id
  {
    if ss != [] {
      var init, last := ss[..|ss| - 1], ss[|ss| - 1];
      SinkByIdMember(init, id);
      assert ss == init + [last];
      assert last in ss;
    }
  }

  lemma SameMembers<T>(a: seq<T>, b: seq<T>)
    requires Permuted(a, b)
    ensures forall x :: x in a <==> x in b
  {
    forall x ensures x in a <==> x in b {
      assert x in multiset(a) <==> x in multiset(b);
    }
  }

  lemma EntryKnownByMembers(es: seq<Entry>, es': seq<Entry>, id: int)
    requires Permuted(es', es)
    ensures EntryKnown(es', id) <==> EntryKnown(es, id)
  {
    SameMembers(es', es);
    if i :| 0 <= i < |es| && es[i].id == id {
      assert es[i] in es';
    }
    if i :| 0 <= i < |es'| && es'[i].id == id {
      assert es'[i] in es;
    }
  }

  ghost predicate FromEntry(place: NodeId -> int, es: seq<Entry>, n: Node) {
    exists e :: e in es && n in EntryNodes(place, e)
  }

  ghost predicate FromFlow(place: NodeId -> int, es: seq<Entry>, ss: seq<Sink>, fs: seq<Flow>, n: Node) {
    exists f :: f in fs && n in FlowNodes(place, es, ss, f)
  }

  lemma {:induction false} FlattenMembers(cs: seq<Contribution>)
    ensures forall n :: n in Flatten(cs) <==> exists i :: 0 <= i < |cs| && n in cs[i]
  {
    if cs != [] {
      var init, last := cs[..|cs| - 1], cs[|cs| - 1];
      FlattenMembers(init);
      forall n ensures n in Flatten(cs) <==> exists i :: 0 <= i < |cs| && n in cs[i] {
        if i :| 0 <= i < |cs| && n in cs[i] {
          assert i < |init| ==> n in init[i];
        }
        if n in Flatten(cs) {
          if n in Flatten(init) {
            var i :| 0 <= i < |init| && n in init[i];
            assert n in cs[i];
          } else {
            assert n in cs[|init|];
          }
        }
      }
    }
  }

  lemma OfferedMembers(place: NodeId -> int, es: seq<Entry>, ss: seq<Sink>, fs: seq<Flow>, n: Node)
    ensures n in Offered(place, es, ss, fs) <==> FromEntry(place, es, n) || FromFlow(place, es, ss, fs, n)
  {
    hide EntryNodes, FlowNodes;
    var a, b := EntryContributions(place, es), FlowContributions(place, es, ss, fs);
    FlattenMembers(a + b);
    if i :| 0 <= i < |a + b| && n in (a + b)[i] {
      if i < |a| {
        assert es[i] in es && n in EntryNodes(place, es[i]);
      } else {
        assert fs[i - |a|] in fs && n in FlowNodes(place, es, ss, fs[i - |a|]);
      }
    }
    if FromEntry(place, es, n) {
      var e :| e in es && n in EntryNodes(place, e);
      var i :| 0 <= i < |es| && es[i] == e;
      assert n in (a + b)[i];
    }
    if FromFlow(place, es, ss, fs, n) {
      var f :| f in fs && n in FlowNodes(place, es, ss, f);
      var i :| 0 <= i < |fs| && fs[i] == f;
      assert n in (a + b)[|a| + i];
    }
  }

  ghost predicate IdsDetermine(ns: seq<Node>) {
    forall m, n :: m in ns && n in ns && m.id == n.id ==> m == n
  }

  lemma KeptIsAll(ns: seq<Node>)
    requires IdsDetermine(ns)
    ensures Elements(Kept(ns)) == Elements(ns)
  {
    KeptMembers(ns);
    forall n | n in ns ensures n in Kept(ns) {
      var k :| 0 <= k < |Kept(ns)| && Kept(ns)[k].id == n.id;
      assert Kept(ns)[k] in ns;
    }
  }

  lemma EntryNodeShape(place: NodeId -> int, e: Entry, n: Node)
    requires n in EntryNodes(place, e)
    ensures n == InputNode(place, e) || n == SurfaceNode(place, e.id, "management-access")
            || n == SurfaceNode(place, e.id, "config-control")
  {
  }

  lemma EntryNodesAgree(place: NodeId -> int, es: seq<Entry>, m: Node, n: Node)
    requires Injective(place) && EntriesAgree(es)
    requires FromEntry(place, es, m) && FromEntry(place, es, n) && m.id == n.id
    ensures m == n
  {
    var a :| a in es && m in EntryNodes(place, a);
    var b :| b in es && n in EntryNodes(place, b);
    hide EntryNodes, ConfidenceRank;
    EntryNodeShape(place, a, m);
    EntryNodeShape(place, b, n);
  }

  lemma FlowNodesAgree(place: NodeId -> int, es: seq<Entry>, ss: seq<Sink>, fs: seq<Flow>, m: Node, n: Node)
    requires Injective(place) && FlowsAgree(es, ss, fs)
    requires FromFlow(place, es, ss, fs, m) && FromFlow(place, es, ss, fs, n) && m.id == n.id
    ensures m == n
  {
    hide SinkCapability, PriorityRank;
    var f :| f in fs && m in FlowNodes(place, es, ss, f);
    var g :| g in fs && n in FlowNodes(place, es, ss, g);
    assert m == EffectNode(place, f, SinkById(ss, f.sink).value.category);
    assert n == EffectNode(place, g, SinkById(ss, g.sink).value.category);
  }

  lemma KindsApart(place: NodeId -> int, es: seq<Entry>, ss: seq<Sink>, fs: seq<Flow>, m: Node, n: Node)
    requires Injective(place) && FromEntry(place, es, m) && FromFlow(place, es, ss, fs, n)
    ensures m.id != n.id
  {
    hide SinkCapability, PriorityRank, ConfidenceRank;
    var e :| e in es && m in EntryNodes(place, e);
    EntryNodeShape(place, e, m);
    var f :| f in fs && n in FlowNodes(place, es, ss, f);
    assert n == EffectNode(place, f, SinkById(ss, f.sink).value.category);
  }

  lemma ConsistentDetermines(place: NodeId -> int, es: seq<Entry>, ss: seq<Sink>, fs: seq<Flow>)
    requires Injective(place) && Consistent(es, ss, fs)
    ensures IdsDetermine(Offered(place, es, ss, fs))
  {
    var ns := Offered(place, es, ss, fs);
    hide Offered, FromEntry, FromFlow, EntriesAgree, FlowsAgree, SinksAgree;
    forall m, n | m in ns && n in ns && m.id == n.id ensures m == n {
      OfferedMembers(place, es, ss, fs, m);
      OfferedMembers(place, es, ss, fs, n);
      if FromEntry(place, es, m) && FromEntry(place, es, n) {
        EntryNodesAgree(place, es, m, n);
      } else if FromFlow(place, es, ss, fs, m) && FromFlow(place, es, ss, fs, n) {
        FlowNodesAgree(place, es, ss, fs, m, n);
      } else if FromEntry(place, es, m) {
        KindsApart(place, es, ss, fs, m, n);
      } else {
        KindsApart(place, es, ss, fs, n, m);
      }
    }
  }

  lemma ConsistentPermuted(es: seq<Entry>, ss: seq<Sink>, fs: seq<Flow>,
                           es': seq<Entry>, ss': seq<Sink>, fs': seq<Flow>)
    requires Consistent(es, ss, fs) && Permuted(es', es) && Permuted(ss', ss) && Permuted(fs', fs)
    ensures Consistent(es', ss', fs')
  {
    hide SinkCapability, PriorityRank, ConfidenceRank, EntryKnown, SinkById, Permuted;
    SameMembers(es', es);
    SameMembers(ss', ss);
    SameMembers(fs', fs);
    forall f ensures EntryKnown(es', f) <==> EntryKnown(es, f) {
      EntryKnownByMembers(es, es', f);
    }
    forall f ensures SinkById(ss', f).Some? <==> SinkById(ss, f).Some? {
      SinkByIdMember(ss, f);
      SinkByIdMember(ss', f);
    }
  }

  lemma FlowNodesPermuted(place: NodeId -> int, es: seq<Entry>, ss: seq<Sink>, fs: seq<Flow>,
                          es': seq<Entry>, ss': seq<Sink>, f: Flow)
    requires SinksAgree(es, ss, fs) && f in fs && Permuted(es', es) && Permuted(ss', ss)
    ensures FlowNodes(place, es', ss', f) == FlowNodes(place, es, ss, f)
  {
    hide SinkCapability, PriorityRank;
    SameMembers(ss', ss);
    EntryKnownByMembers(es, es', f.entry);
    SinkByIdMember(ss, f.sink);
    SinkByIdMember(ss', f.sink);
  }

  lemma OfferedPermuted(place: NodeId -> int, es: seq<Entry>, ss: seq<Sink>, fs: seq<Flow>,
                        es': seq<Entry>, ss': seq<Sink>, fs': seq<Flow>)
    requires Consistent(es, ss, fs) && Permuted(es', es) && Permuted(ss', ss) && Permuted(fs', fs)
    ensures Elements(Offered(place, es', ss', fs')) == Elements(Offered(place, es, ss, fs))
  {
    hide EntryNodes, FlowNodes, Offered, EntriesAgree, FlowsAgree;
    SameMembers(es', es);
    SameMembers(fs', fs);
    forall n ensures n in Offered(place, es', ss', fs') <==> n in Offered(place, es, ss, fs) {
      OfferedMembers(place, es, ss, fs, n);
      OfferedMembers(place, es', ss', fs', n);
      forall f | f in fs ensures FlowNodes(place, es', ss', f) == FlowNodes(place, es, ss, f) {
        FlowNodesPermuted(place, es, ss, fs, es', ss', f);
      }
    }
  }

  lemma ConsistentIsOrderFree(place: NodeId -> int, es: seq<Entry>, ss: seq<Sink>, fs: seq<Flow>,
                              es': seq<Entry>, ss': seq<Sink>, fs': seq<Flow>)
    requires Injective(place) && Consistent(es, ss, fs)
    requires Permuted(es', es) && Permuted(ss', ss) && Permuted(fs', fs)
    ensures ObservedSet(place, es', ss', fs') == ObservedSet(place, es, ss, fs)
  {
    hide Offered, Consistent, Permuted, IdsDetermine;
    ConsistentPermuted(es, ss, fs, es', ss', fs');
    ConsistentDetermines(place, es, ss, fs);
    ConsistentDetermines(place, es', ss', fs');
    KeptIsAll(Offered(place, es, ss, fs));
    KeptIsAll(Offered(place, es', ss', fs'));
    OfferedPermuted(place, es, ss, fs, es', ss', fs');
  }

  // ------------------------------------------------- duplicates that do make a difference

  function ToFront<T>(s: seq<T>, i: nat): seq<T>
    requires i < |s|
  {
    [s[i]] + s[..i] + s[i + 1..]
  }

  function ToBack<T>(s: seq<T>, i: nat): seq<T>
    requires i < |s|
  {
    s[..i] + s[i + 1..] + [s[i]]
  }

  lemma MovingPermutes<T>(s: seq<T>, i: nat)
    requires i < |s|
    ensures Permuted(ToFront(s, i), s) && Permuted(ToBack(s, i), s)
  {
    assert s == s[..i] + [s[i]] + s[i + 1..];
  }

  lemma {:induction false} FlattenStarts(cs: seq<Contribution>, k: nat)
    requires k <= |cs|
    ensures Flatten(cs[..k]) <= Flatten(cs)
    decreases |cs| - k
  {
    if k < |cs| {
      FlattenStarts(cs, k + 1);
      assert cs[..k + 1][..k] == cs[..k];
    } else {
      assert cs[..k] == cs;
    }
  }

  /** A node offered before any other with its id is kept. */
  lemma FirstIsKept(seen: seq<Node>, n: Node, all: seq<Node>)
    requires seen + [n] <= all && forall m :: m in seen ==> m.id != n.id
    ensures n in Kept(all)
  {
    KeptMembers(seen);
    forall k | 0 <= k < |Kept(seen)| ensures Kept(seen)[k].id != n.id {
      assert Kept(seen)[k] in seen;
    }
    assert !Holds(Kept(seen), n.id);
    hide Kept, Holds;
    KeptAppend(seen, n);
    KeptGrows(seen + [n], all[|seen| + 1..]);
    assert all == seen + [n] + all[|seen| + 1..];
    assert Kept(all)[|Kept(seen)|] == n;
  }

  lemma FirstEntryIsKept(place: NodeId -> int, es: seq<Entry>, ss: seq<Sink>, fs: seq<Flow>)
    requires es != []
    ensures InputNode(place, es[0]) in ObservedSet(place, es, ss, fs)
  {
    var cs := EntryContributions(place, es) + FlowContributions(place, es, ss, fs);
    FlattenStarts(cs, 1);
    assert cs[..1][..0] == [] && cs[..1][0] == EntryNodes(place, es[0]);
    assert Flatten(cs[..1]) == EntryNodes(place, es[0]);
    FirstIsKept([], InputNode(place, es[0]), Offered(place, es, ss, fs));
  }

  lemma FirstFlowIsKept(place: NodeId -> int, es: seq<Entry>, ss: seq<Sink>, fs: seq<Flow>)
    requires Injective(place) && fs != [] && EndsKnown(es, ss, fs[0])
    ensures EffectNode(place, fs[0], SinkById(ss, fs[0].sink).value.category) in ObservedSet(place, es, ss, fs)
  {
    var a, b := EntryContributions(place, es), FlowContributions(place, es, ss, fs);
    var n := EffectNode(place, fs[0], SinkById(ss, fs[0].sink).value.category);
    FlattenStarts(a + b, |a| + 1);
    var first := (a + b)[..|a| + 1];
    assert first[..|a|] == a && first[|a|] == [n];
    assert Flatten(first) == Flatten(a) + [n];
    FlattenMembers(a);
    forall m | m in Flatten(a) ensures m.id != n.id {
      var i :| 0 <= i < |a| && m in a[i];
      assert es[i] in es && FromEntry(place, es, m);
      assert n in FlowNodes(place, es, ss, fs[0]) && FromFlow(place, es, ss, fs, n);
      KindsApart(place, es, ss, fs, m, n);
    }
    FirstIsKept(Flatten(a), n, Offered(place, es, ss, fs));
  }

  lemma ObservedIdsDiffer(place: NodeId -> int, es: seq<Entry>, ss: seq<Sink>, fs: seq<Flow>, m: Node, n: Node)
    requires m in ObservedSet(place, es, ss, fs) && n in ObservedSet(place, es, ss, fs) && m.id == n.id
    ensures m == n
  {
    KeptMembers(Offered(place, es, ss, fs));
  }

  lemma OrderFreeEntriesAgree(place: NodeId -> int, es: seq<Entry>, ss: seq<Sink>, fs: seq<Flow>, a: Entry, b: Entry)
    requires OrderFree(place, es, ss, fs) && a in es && b in es && a.id == b.id
    ensures ConfidenceRank(a.confidence) == ConfidenceRank(b.confidence)
  {
    hide ObservedSet, ConfidenceRank;
    var i :| 0 <= i < |es| && es[i] == a;
    var j :| 0 <= j < |es| && es[j] == b;
    MovingPermutes(es, i);
    MovingPermutes(es, j);
    FirstEntryIsKept(place, ToFront(es, i), ss, fs);
    FirstEntryIsKept(place, ToFront(es, j), ss, fs);
    ObservedIdsDiffer(place, es, ss, fs, InputNode(place, a), InputNode(place, b));
  }

  lemma OrderFreeFlowsAgree(place: NodeId -> int, es: seq<Entry>, ss: seq<Sink>, fs: seq<Flow>, f: Flow, g: Flow)
    requires Injective(place) && OrderFree(place, es, ss, fs) && f in fs && g in fs
    requires f.id == g.id && f.sink == g.sink && EndsKnown(es, ss, f) && EndsKnown(es, ss, g)
    ensures PriorityRank(f.priority) == PriorityRank(g.priority)
  {
    hide ObservedSet, PriorityRank, SinkCapability, EntryKnown, SinkById;
    var i :| 0 <= i < |fs| && fs[i] == f;
    var j :| 0 <= j < |fs| && fs[j] == g;
    MovingPermutes(fs, i);
    MovingPermutes(fs, j);
    FirstFlowIsKept(place, es, ss, ToFront(fs, i));
    FirstFlowIsKept(place, es, ss, ToFront(fs, j));
    var category := SinkById(ss, f.sink).value.category;
    ObservedIdsDiffer(place, es, ss, fs, EffectNode(place, f, category), EffectNode(place, g, category));
  }

  lemma EffectComesFrom(place: NodeId -> int, es: seq<Entry>, ss: seq<Sink>, fs: seq<Flow>, n: Node,
                        kind: Kind, flow: int, sink: int)
    requires Injective(place) && n.id == place(EffectOf(kind, flow, sink))
    requires FromEntry(place, es, n) || FromFlow(place, es, ss, fs, n)
    ensures SinkById(ss, sink).Some? && kind == SinkCapability(SinkById(ss, sink).value.category)
  {
    hide SinkCapability, PriorityRank, ConfidenceRank;
    if FromEntry(place, es, n) {
      var e :| e in es && n in EntryNodes(place, e);
      EntryNodeShape(place, e, n);
      assert false;
    } else {
      var g :| g in fs && n in FlowNodes(place, es, ss, g);
      assert n == EffectNode(place, g, SinkById(ss, g.sink).value.category);
    }
  }

  /** With sink `s` last, an effect of `f` is observed with the capability of `s` and no other. */
  lemma LastSinkDecides(place: NodeId -> int, es: seq<Entry>, ss: seq<Sink>, fs: seq<Flow>, f: Flow, kind: Kind)
    requires Injective(place) && f in fs && EntryKnown(es, f.entry)
    requires ss != [] && ss[|ss| - 1].id == f.sink != NO_ID
    ensures (exists n :: n in ObservedSet(place, es, ss, fs) && n.id == place(EffectOf(kind, f.id, f.sink)))
            <==> kind == SinkCapability(ss[|ss| - 1].category)
  {
    hide SinkCapability, PriorityRank, ConfidenceRank;
    var s := ss[|ss| - 1];
    var ns := Offered(place, es, ss, fs);
    KeptMembers(ns);
    var own := EffectNode(place, f, s.category);
    assert own in FlowNodes(place, es, ss, f);
    OfferedMembers(place, es, ss, fs, own);
    assert FromFlow(place, es, ss, fs, own);
    var k :| 0 <= k < |Kept(ns)| && Kept(ns)[k].id == own.id;
    assert Kept(ns)[k] in ObservedSet(place, es, ss, fs);
    if n :| n in ObservedSet(place, es, ss, fs) && n.id == place(EffectOf(kind, f.id, f.sink)) {
      OfferedMembers(place, es, ss, fs, n);
      EffectComesFrom(place, es, ss, fs, n, kind, f.id, f.sink);
    }
  }

  lemma OrderFreeSinksAgree(place: NodeId -> int, es: seq<Entry>, ss: seq<Sink>, fs: seq<Flow>,
                            f: Flow, s: Sink, t: Sink)
    requires Injective(place) && OrderFree(place, es, ss, fs) && f in fs && s in ss && t in ss
    requires EntryKnown(es, f.entry) && s.id == t.id == f.sink != NO_ID
    ensures SinkCapability(s.category) == SinkCapability(t.category)
  {
    hide ObservedSet, SinkCapability, EntryKnown;
    var i :| 0 <= i < |ss| && ss[i] == s;
    var j :| 0 <= j < |ss| && ss[j] == t;
    MovingPermutes(ss, i);
    MovingPermutes(ss, j);
    LastSinkDecides(place, es, ToBack(ss, i), fs, f, SinkCapability(s.category));
    LastSinkDecides(place, es, ToBack(ss, j), fs, f, SinkCapability(s.category));
  }

  /** Exactly when the order of the records does not matter: duplicated ids must agree on the
      little the search reads of them. */
  lemma OrderFreeExactlyWhenConsistent(place: NodeId -> int, es: seq<Entry>, ss: seq<Sink>, fs: seq<Flow>)
    requires Injective(place)
    ensures OrderFree(place, es, ss, fs) <==> Consistent(es, ss, fs)
  {
    hide Injective, ConfidenceRank, PriorityRank, SinkCapability, EntryKnown, EndsKnown, ObservedSet;
    if Consistent(es, ss, fs) {
      forall es', ss', fs' | Permuted(es', es) && Permuted(ss', ss) && Permuted(fs', fs)
        ensures ObservedSet(place, es', ss', fs') == ObservedSet(place, es, ss, fs)
      {
        ConsistentIsOrderFree(place, es, ss, fs, es', ss', fs');
      }
    }
    if OrderFree(place, es, ss, fs) {
      forall a, b | a in es && b in es && a.id == b.id
        ensures ConfidenceRank(a.confidence) == ConfidenceRank(b.confidence)
      {
        OrderFreeEntriesAgree(place, es, ss, fs, a, b);
      }
      forall f, s, t | f in fs && s in ss && t in ss && EntryKnown(es, f.entry) && s.id == t.id == f.sink != NO_ID
        ensures SinkCapability(s.category) == SinkCapability(t.category)
      {
        OrderFreeSinksAgree(place, es, ss, fs, f, s, t);
      }
      forall f, g | f in fs && g in fs && f.id == g.id && f.sink == g.sink
                    && EndsKnown(es, ss, f) && EndsKnown(es, ss, g)
        ensures PriorityRank(f.priority) == PriorityRank(g.priority)
      {
        OrderFreeFlowsAgree(place, es, ss, fs, f, g);
      }
    }
  }

  /** Records with ids of their own are consistent. */
  lemma DistinctRecordsAreConsistent(es: seq<Entry>, ss: seq<Sink>, fs: seq<Flow>)
    requires forall i, j :: 0 <= i < j < |es| ==> es[i].id != es[j].id
    requires forall i, j :: 0 <= i < j < |ss| ==> ss[i].id != ss[j].id
    requires forall i, j :: 0 <= i < j < |fs| ==> fs[i].id != fs[j].id
    ensures Consistent(es, ss, fs)
  {
    hide ConfidenceRank, PriorityRank, SinkCapability, EntryKnown, EndsKnown;
    assert forall a, b :: a in es && b in es && a.id == b.id ==> a == b;
    assert forall a, b :: a in ss && b in ss && a.id == b.id ==> a == b;
    assert forall a, b :: a in fs && b in fs && a.id == b.id ==> a == b;
  }

  /** From the records to the candidates: permuting entries, sinks and flows separately leaves
      the number of nodes and the candidate list unchanged. */
  lemma PermutedRecordsSameCandidates(place: NodeId -> int, es: seq<Entry>, ss: seq<Sink>, fs: seq<Flow>,
                                      es': seq<Entry>, ss': seq<Sink>, fs': seq<Flow>,
                                      templates: seq<Template>, limit: nat)
    requires Injective(place) && Consistent(es, ss, fs)
    requires Permuted(es', es) && Permuted(ss', ss) && Permuted(fs', fs)
    ensures |Observed(place, es', ss', fs')| == |Observed(place, es, ss, fs)|
    ensures Search(Observed(place, es', ss', fs'), templates, limit)
            == Search(Observed(place, es, ss, fs), templates, limit)
  {
    hide Injective, Consistent, Permuted, Search, Kept, Offered;
    var ns, ms := Observed(place, es, ss, fs), Observed(place, es', ss', fs');
    ConsistentIsOrderFree(place, es, ss, fs, es', ss', fs');
    KeptMembers(Offered(place, es, ss, fs));
    KeptMembers(Offered(place, es', ss', fs'));
    ElementsSize(ns);
    ElementsSize(ms);
    forall m ensures m in ms <==> m in ns {
      assert m in Elements(ms) <==> m in Elements(ns);
    }
    SearchIgnoresOrder(ms, ns, templates, limit);
  }

  /** `build_capability_graph` from records to candidates: every candidate lacks exactly what no
      kept node gives, and below the node limit they are those of the records in any order. */
  method BuildCandidates(place: NodeId -> int, es: seq<Entry>, ss: seq<Sink>, fs: seq<Flow>,
                         templates: seq<Template>, nodeLimit: nat, pathLimit: nat)
      returns (nodes: seq<Node>, candidates: seq<Candidate>)
    requires Injective(place)
    ensures nodes == Prefix(Observed(place, es, ss, fs), nodeLimit) && DistinctIds(nodes)
    ensures |candidates| <= pathLimit
    ensures forall c :: c in candidates ==>
              exists t :: t in templates && c.template == t.name
                && forall kind :: kind in c.missing <==> kind in t.required && forall n :: n in nodes ==> n.kind != kind
    ensures Consistent(es, ss, fs) && |Observed(place, es, ss, fs)| <= nodeLimit ==>
              forall es', ss', fs' {:trigger Observed(place, es', ss', fs')} ::
                Permuted(es', es) && Permuted(ss', ss) && Permuted(fs', fs) ==>
                  candidates == Search(Observed(place, es', ss', fs'), templates, pathLimit)
  {
    hide Kept, Flatten, Search, Consistent, Permuted, EntryContributions, FlowContributions;
    nodes := CollectNodes(EntryContributions(place, es) + FlowContributions(place, es, ss, fs), nodeLimit);
    candidates := FindCandidates(nodes, templates, pathLimit);
    forall c | c in candidates
      ensures exists t :: t in templates && c.template == t.name
                && forall kind :: kind in c.missing <==> kind in t.required && forall n :: n in nodes ==> n.kind != kind
    {
      var t := CandidateLacksExactly(nodes, templates, pathLimit, c);
    }
    if Consistent(es, ss, fs) && |Observed(place, es, ss, fs)| <= nodeLimit {
      forall es', ss', fs' | Permuted(es', es) && Permuted(ss', ss) && Permuted(fs', fs)
        ensures candidates == Search(Observed(place, es', ss', fs'), templates, pathLimit)
      {
        PermutedRecordsSameCandidates(place, es, ss, fs, es', ss', fs', templates, pathLimit);
      }
    }
  }

  // ------------------------------------------------------- a candidate list that changes

  lemma {:induction false} CombosExist(ns: seq<Node>, required: seq<Kind>)
    ensures Combos(ns, required) != []
  {
    if required != [] {
      CombosExist(ns, required[1..]);
      var firsts, tails := OptionsFor(ns, required[0]), Combos(ns, required[1..]);
      assert |WithFirst(firsts[0], tails)| == |tails|;
    }
  }

  lemma {:induction false} PresentIsChosen(ns: seq<Node>, required: seq<Kind>)
    ensures Present(ns, required) != [] <==> exists i :: 0 <= i < |required| && Choices(ns, required[i]) != []
  {
    hide Choices;
    if required != [] {
      PresentIsChosen(ns, required[1..]);
      if i :| 0 <= i < |required| && Choices(ns, required[i]) != [] {
        assert i > 0 ==> required[1..][i - 1] == required[i];
      }
      if i :| 0 <= i < |required[1..]| && Choices(ns, required[1..][i]) != [] {
        assert required[i + 1] == required[1..][i];
      }
    }
  }

  lemma {:induction false} SomeIsObserved(combo: seq<Option<Node>>, i: nat)
    requires i < |combo| && combo[i].Some?
    ensures ObservedIds(combo) != []
  {
    if i > 0 {
      SomeIsObserved(combo[1..], i - 1);
    }
  }

  lemma {:induction false} ExtendGrows(cs: seq<Candidate>, t: Template, combos: seq<seq<Option<Node>>>, limit: nat)
    ensures cs <= Extend(cs, t, combos, limit)
    decreases |combos|
  {
    hide MakeCandidate, ObservedIds;
    if combos != [] && |cs| < limit {
      var c := MakeCandidate(t, combos[0]);
      ExtendGrows(if c in cs || ObservedIds(combos[0]) == [] then cs else cs + [c], t, combos[1..], limit);
    }
  }

  /** A template yields a candidate exactly when enough of it is observed. */
  lemma ReachableYieldsCandidate(ns: seq<Node>, t: Template, limit: nat)
    requires DistinctIds(ns) && limit > 0
    ensures Search(ns, [t], limit) != [] <==> Reachable(ns, t.required)
  {
    hide Choices, Combos;
    assert [t][..0] == [] && Search(ns, [], limit) == [];
    if Reachable(ns, t.required) {
      var combos := Combos(ns, t.required);
      CombosExist(ns, t.required);
      PresentIsChosen(ns, t.required);
      var i :| 0 <= i < |t.required| && Choices(ns, t.required[i]) != [];
      assert combos[0] in combos;
      ComboKinds(ns, t.required, combos[0]);
      SomeIsObserved(combos[0], i);
      hide ObservedIds, MakeCandidate;
      var c := MakeCandidate(t, combos[0]);
      assert [] + [c] == [c] && Extend([], t, combos, limit) == Extend([c], t, combos[1..], limit);
      ExtendGrows([c], t, combos[1..], limit);
    }
  }

  ghost predicate Gives(ns: seq<Node>, kind: Kind) {
    exists n :: n in ns && n.kind == kind
  }

  lemma GivenIsChosen(ns: seq<Node>, kind: Kind)
    requires DistinctIds(ns)
    ensures Choices(ns, kind) != [] <==> Gives(ns, kind)
  {
    NeverObserved(ns, kind);
  }

  const WRITE_TO_EXEC := Template("write-to-exec", ["write", "exec"])

  /** What is observed of one entry and one flow into a sink of `category`. */
  lemma OneFlow(place: NodeId -> int, ss: seq<Sink>, category: string)
    requires Injective(place) && SinkById(ss, 1) == Some(Sink(1, category))
    ensures var ns := Observed(place, [Entry(1, "ast", false, false)], ss, [Flow(1, 1, 1, "high")]);
            DistinctIds(ns)
            && forall kind :: Gives(ns, kind) <==> kind in {"input", SinkCapability(category)}
  {
    hide SinkCapability, Injective;
    var es, fs := [Entry(1, "ast", false, false)], [Flow(1, 1, 1, "high")];
    var ns := Observed(place, es, ss, fs);
    KeptMembers(Offered(place, es, ss, fs));
    assert EntryKnown(es, 1) by { assert es[0].id == 1; }
    FirstEntryIsKept(place, es, ss, fs);
    FirstFlowIsKept(place, es, ss, fs);
    assert InputNode(place, es[0]) in ns && EffectNode(place, fs[0], category) in ns;
    forall n | n in ns ensures n.kind in {"input", SinkCapability(category)} {
      OfferedMembers(place, es, ss, fs, n);
    }
  }

  lemma WriteAlone(ns: seq<Node>)
    requires Choices(ns, "exec") == []
    ensures Reachable(ns, ["write", "exec"]) <==> Choices(ns, "write") != []
  {
    hide Choices;
    assert ["write", "exec"][1..] == ["exec"] && ["exec"][1..] == [];
    assert Present(ns, ["exec"]) == [];
  }

  lemma GivenApart(ns: seq<Node>, ms: seq<Node>, kind: Kind)
    requires Gives(ns, kind) && !Gives(ms, kind)
    ensures Elements(ns) != Elements(ms)
  {
    var n :| n in ns && n.kind == kind;
    assert n in Elements(ns) && n !in Elements(ms);
  }

  /** Two sinks share an id: read in one order the graph observes another primitive than in the
      other, and one has a chain to offer where the other has none. */
  lemma SharedSinkIdChangesCandidates(place: NodeId -> int, limit: nat)
    requires Injective(place) && limit > 0
    ensures var es, fs := [Entry(1, "ast", false, false)], [Flow(1, 1, 1, "high")];
            var sql, write := Sink(1, "sql-exec"), Sink(1, "file-mutation");
            && ObservedSet(place, es, [sql, write], fs) != ObservedSet(place, es, [write, sql], fs)
            && Search(Observed(place, es, [sql, write], fs), [WRITE_TO_EXEC], limit) != []
            && Search(Observed(place, es, [write, sql], fs), [WRITE_TO_EXEC], limit) == []
  {
    hide Injective, Observed;
    var es, fs := [Entry(1, "ast", false, false)], [Flow(1, 1, 1, "high")];
    var sql, write := Sink(1, "sql-exec"), Sink(1, "file-mutation");
    var ns, ms := Observed(place, es, [sql, write], fs), Observed(place, es, [write, sql], fs);
    OneFlow(place, [sql, write], "file-mutation");
    OneFlow(place, [write, sql], "sql-exec");
    ReachableYieldsCandidate(ns, WRITE_TO_EXEC, limit);
    ReachableYieldsCandidate(ms, WRITE_TO_EXEC, limit);
    GivenIsChosen(ns, "write");
    GivenIsChosen(ns, "exec");
    GivenIsChosen(ms, "write");
    GivenIsChosen(ms, "exec");
    assert SinkCapability("file-mutation") == "write" && SinkCapability("sql-exec") == "sql";
    GivenApart(ns, ms, "write");
    hide Choices, Search, SinkCapability;
    WriteAlone(ns);
    WriteAlone(ms);
  }

  /** What is observed may depend on the order where the candidates do not: neither sink gives
      anything the template asks for. */
  lemma SharedSinkIdMayNotMatter(place: NodeId -> int, limit: nat)
    requires Injective(place) && limit > 0
    ensures var es, fs := [Entry(1, "ast", false, false)], [Flow(1, 1, 1, "high")];
            var lookup, parse := Sink(1, "jndi"), Sink(1, "deserialization");
            && ObservedSet(place, es, [lookup, parse], fs) != ObservedSet(place, es, [parse, lookup], fs)
            && Search(Observed(place, es, [lookup, parse], fs), [WRITE_TO_EXEC], limit) == []
            && Search(Observed(place, es, [parse, lookup], fs), [WRITE_TO_EXEC], limit) == []
  {
    hide Injective, Observed;
    var es, fs := [Entry(1, "ast", false, false)], [Flow(1, 1, 1, "high")];
    var lookup, parse := Sink(1, "jndi"), Sink(1, "deserialization");
    var ns, ms := Observed(place, es, [lookup, parse], fs), Observed(place, es, [parse, lookup], fs);
    OneFlow(place, [lookup, parse], "deserialization");
    OneFlow(place, [parse, lookup], "jndi");
    ReachableYieldsCandidate(ns, WRITE_TO_EXEC, limit);
    ReachableYieldsCandidate(ms, WRITE_TO_EXEC, limit);
    GivenIsChosen(ns, "write");
    GivenIsChosen(ns, "exec");
    GivenIsChosen(ms, "write");
    GivenIsChosen(ms, "exec");
    assert SinkCapability("deserialization") == "parse" && SinkCapability("jndi") == "lookup";
    GivenApart(ns, ms, "parse");
    hide Choices, Search, SinkCapability;
    WriteAlone(ns);
    WriteAlone(ms);
  }
}
