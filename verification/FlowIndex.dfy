/** `build_flow_index`: the forward and the backward pass over one call graph, the flows
    they emit, and the reachability verdict of each sink. */
module FlowIndex {
  import opened Options
  import opened CallGraph
  import opened GraphSearch
  import ShortLex

  type Id = int

  /** An entry or sink record.  `hint` is its `symbol_id` as found; `enclosing` is what
      `innermost_at` answers for its file and line. */
  datatype Record = Record(id: Id, hint: Node, enclosing: Option<Node>, severe: bool)

  datatype Gap = Clean | Unbound | Isolated | ForwardOnly | BackwardOnly | PathMismatch
  datatype Direction = CrossProcedural | IntraSymbol | ModuleScope
  datatype Priority = High | Medium | Low
  datatype Flow = Flow(entry: Id, source: Node, sink: Id, path: seq<Node>,
                       direction: Direction, priority: Priority, gap: Gap)
  datatype Reach = Reach(symbol: Option<Node>, forwardEntries: set<Id>, backwardEntries: set<Id>,
                         flowCount: nat, gap: Gap)

  // ------------------------------------------------------------------- binding

  function Owner(r: Record, known: set<Node>): Option<Node> {
    if r.hint in known then Some(r.hint) else r.enclosing
  }

  function Group(records: seq<Record>, known: set<Node>, s: Node): seq<Record> {
    if records == [] then []
    else var init, r := records[..|records| - 1], records[|records| - 1];
      Group(init, known, s) + if Owner(r, known) == Some(s) then [r] else []
  }

  type Groups = map<Node, seq<Record>>

  /** Every record sits in exactly one group, in input order, or is counted unbound. */
  ghost predicate Grouped(records: seq<Record>, known: set<Node>, groups: Groups) {
    && (forall s :: s in groups <==> exists r :: r in records && Owner(r, known) == Some(s))
    && (forall s :: s in groups ==> groups[s] == Group(records, known, s))
  }

  lemma {:induction false} GroupMembers(records: seq<Record>, known: set<Node>, s: Node)
    ensures forall r :: r in Group(records, known, s) <==> r in records && Owner(r, known) == Some(s)
  {
    if records != [] {
      GroupMembers(records[..|records| - 1], known, s);
      assert records == records[..|records| - 1] + [records[|records| - 1]];
    }
  }

  function Strays(records: seq<Record>, known: set<Node>): seq<Record> {
    if records == [] then []
    else var init, r := records[..|records| - 1], records[|records| - 1];
      Strays(init, known) + if Owner(r, known).None? then [r] else []
  }

  lemma EmptyGroup(records: seq<Record>, known: set<Node>, s: Node)
    ensures (forall r :: r in records ==> Owner(r, known) != Some(s)) ==> Group(records, known, s) == []
  {
    GroupMembers(records, known, s);
    var g := Group(records, known, s);
    assert g != [] ==> g[0] in g;
  }

  lemma GroupedStep(records: seq<Record>, r: Record, known: set<Node>, groups: Groups, groups': Groups)
    requires Grouped(records, known, groups)
    requires Owner(r, known).None? ==> groups' == groups
    requires Owner(r, known).Some? ==>
               var s := Owner(r, known).value;
               groups' == groups[s := (if s in groups then groups[s] else []) + [r]]
    ensures Grouped(records + [r], known, groups')
  {
    var all := records + [r];
    assert all[..|all| - 1] == records;
    forall s ensures s in groups' <==> exists x :: x in all && Owner(x, known) == Some(s) {
      if s in groups {
        var x :| x in records && Owner(x, known) == Some(s);
        assert x in all;
      }
      if s in groups' && s !in groups {
        assert r in all;
      }
    }
    forall s | s in groups' ensures groups'[s] == Group(all, known, s) {
      if s !in groups {
        EmptyGroup(records, known, s);
      }
    }
  }

  /** A record belongs to the symbol it names if that is a known one, else to the symbol its
      line lies in. */
  ghost predicate BelongsTo(r: Record, known: set<Node>, s: Node) {
    (r.hint in known && s == r.hint) || (r.hint !in known && r.enclosing == Some(s))
  }

  lemma OwnerIsBelonging(r: Record, known: set<Node>, s: Node)
    ensures Owner(r, known) == Some(s) <==> BelongsTo(r, known, s)
  {
  }

  /** Where a record lands: in the group of the symbol it belongs to, and in no other. */
  lemma BoundWhereItBelongs(records: seq<Record>, known: set<Node>, groups: Groups, r: Record, s: Node)
    requires Grouped(records, known, groups) && r in records
    ensures s in groups && r in groups[s] <==> BelongsTo(r, known, s)
  {
    GroupMembers(records, known, s);
  }

  method BindBySymbol(records: seq<Record>, known: set<Node>)
      returns (groups: Groups, keys: seq<Node>, unbound: nat)
    ensures Grouped(records, known, groups)
    ensures forall r, s :: r in records ==> (s in groups && r in groups[s] <==> BelongsTo(r, known, s))
    ensures forall s :: s in keys <==> s in groups
    ensures unbound == |Strays(records, known)|
  {
    groups, keys, unbound := map[], [], 0;
    for k := 0 to |records|
      invariant Grouped(records[..k], known, groups)
      invariant forall s :: s in keys <==> s in groups
      invariant unbound == |Strays(records[..k], known)|
    {
      var record := records[k];
      assert records[..k + 1][..k] == records[..k];
      ghost var before := groups;
      if Owner(record, known).None? {
        unbound := unbound + 1;
      } else {
        var s := Owner(record, known).value;
        if s !in groups {
          keys := keys + [s];
        }
        groups := groups[s := (if s in groups then groups[s] else []) + [record]];
      }
      GroupedStep(records[..k], record, known, before, groups);
      assert records[..k + 1] == records[..k] + [record];
    }
    assert records[..|records|] == records;
    forall r, s | r in records ensures s in groups && r in groups[s] <==> BelongsTo(r, known, s) {
      BoundWhereItBelongs(records, known, groups, r, s);
    }
  }

  // ---------------------------------------------------------------- the passes

  datatype Passes = Passes(forward: map<Node, Tree>, backward: map<Node, Tree>)

  /** A forward walk from `e` sees `t` exactly when the backward walk from `t` sees `e`,
      and then both record the same distance. */
  lemma PassesAgree(callees: Adjacency, callers: Adjacency, limit: Option<int>, e: Node, t: Node, ft: Tree, bt: Tree)
    requires Transposed(callees, callers)
    requires IsBfsTree(callees, e, limit, ft) && IsBfsTree(callers, t, limit, bt)
    ensures t in ft <==> e in bt
    ensures t in ft ==> ft[t].0 == bt[e].0
  {
    ConnectedBothWays(callees, callers, e, t, limit);
    assert (t in ft <==> Connected(callees, e, t, limit)) && (e in bt <==> Connected(callers, t, e, limit));
    if t in ft {
      var p, q := TreePath(ft, e, t), TreePath(bt, t, e);
      assert SpellsBest(callees, e, ft, t) && SpellsBest(callers, t, bt, e);
      ChainReversed(callees, callers, p, e, t);
      ChainReversed(callers, callees, q, t, e);
      assert ShortLex.Leq(p, Reverse(q)) && ShortLex.Leq(q, Reverse(p));
    }
  }

  function PairGap(ft: Tree, bt: Tree, e: Node, t: Node): Gap
    requires TreeShape(ft, e) && TreeShape(bt, t) && t in ft
  {
    var backwardPath := if e in bt then Reverse(TreePath(bt, t, e)) else [];
    if backwardPath == [] then ForwardOnly
    else if backwardPath != TreePath(ft, e, t) then PathMismatch
    else Clean
  }

  /** What `forward-only` is there for: a path the backward tree does not know. */
  lemma UnseenBackwardsIsForwardOnly(ft: Tree, bt: Tree, e: Node, t: Node)
    requires TreeShape(ft, e) && TreeShape(bt, t) && t in ft && e !in bt
    ensures PairGap(ft, bt, e, t) == ForwardOnly
  {
  }

  /** `forward-only` never arises, and a mismatch exhibits two different shortest chains. */
  lemma MismatchMeansTwoShortestChains(callees: Adjacency, callers: Adjacency, limit: Option<int>,
                                       e: Node, t: Node, ft: Tree, bt: Tree)
    requires Transposed(callees, callers)
    requires IsBfsTree(callees, e, limit, ft) && IsBfsTree(callers, t, limit, bt) && t in ft
    ensures PairGap(ft, bt, e, t) in {Clean, PathMismatch}
    ensures PairGap(ft, bt, e, t) == PathMismatch ==>
              exists p, q :: IsChain(callees, p, e, t) && IsChain(callees, q, e, t) && p != q
                             && |p| == |q| == ft[t].0 + 1
                             && forall r :: IsChain(callees, r, e, t) ==> |r| >= |p|
  {
    PassesAgree(callees, callers, limit, e, t, ft, bt);
    var p, q := TreePath(ft, e, t), TreePath(bt, t, e);
    assert SpellsBest(callees, e, ft, t) && SpellsBest(callers, t, bt, e);
    ChainReversed(callers, callees, q, t, e);
    assert |Reverse(q)| == |q| > 0;
    forall r | IsChain(callees, r, e, t) ensures |r| >= |p| {
      assert ShortLex.Leq(p, r);
    }
  }

  /** From 0 to 5 by way of 1 and 4, or of 2 and 3. */
  const TWO_ROUTES_EDGES: seq<Edge> := [(0, 1), (0, 2), (1, 4), (2, 3), (3, 5), (4, 5)]
  const TWO_ROUTES: Adjacency := map[0 := [1, 2], 1 := [4], 2 := [3], 3 := [5], 4 := [5]]
  const TWO_ROUTES_BACK: Adjacency := map[1 := [0], 2 := [0], 3 := [2], 4 := [1], 5 := [3, 4]]

  predicate OnARoute(u: Node, v: Node) {
    match u
    case 0 => v in {1, 2}
    case 1 => v == 4
    case 2 => v == 3
    case 3 => v == 5
    case 4 => v == 5
    case _ => false
  }

  lemma CalleesOnRoutes(u: Node, v: Node)
    ensures v in Neighbours(TWO_ROUTES, u) <==> OnARoute(u, v)
  {
  }

  lemma CallersOnRoutes(u: Node, v: Node)
    ensures u in Neighbours(TWO_ROUTES_BACK, v) <==> OnARoute(u, v)
  {
  }

  lemma EdgesOnRoutes(u: Node, v: Node)
    ensures (u, v) in TWO_ROUTES_EDGES <==> OnARoute(u, v)
  {
    assert TWO_ROUTES_EDGES[0] == (0, 1) && TWO_ROUTES_EDGES[1] == (0, 2) && TWO_ROUTES_EDGES[2] == (1, 4);
    assert TWO_ROUTES_EDGES[3] == (2, 3) && TWO_ROUTES_EDGES[4] == (3, 5) && TWO_ROUTES_EDGES[5] == (4, 5);
  }

  lemma TwoRoutesAreSorted()
    ensures SortedEdges(TWO_ROUTES_EDGES) && SortedAdjacency(TWO_ROUTES) && SortedAdjacency(TWO_ROUTES_BACK)
  {
  }

  /** Both tables hold exactly the six edges. */
  lemma TwoRoutesTables()
    ensures Transposed(TWO_ROUTES, TWO_ROUTES_BACK)
    ensures forall u, v :: v in Neighbours(TWO_ROUTES, u) <==> (u, v) in TWO_ROUTES_EDGES
  {
    hide Neighbours, OnARoute;
    forall u, v
      ensures v in Neighbours(TWO_ROUTES, u) <==> u in Neighbours(TWO_ROUTES_BACK, v)
      ensures v in Neighbours(TWO_ROUTES, u) <==> (u, v) in TWO_ROUTES_EDGES
    {
      CalleesOnRoutes(u, v);
      CallersOnRoutes(u, v);
      EdgesOnRoutes(u, v);
    }
  }

  lemma TwoRoutesForward(p: seq<Node>)
    requires IsBest(TWO_ROUTES, 0, 5, p)
    ensures p == [0, 1, 4, 5]
  {
    var least := [0, 1, 4, 5];
    assert IsChain(TWO_ROUTES, least, 0, 5);
    assert ShortLex.Leq(p, least);
    assert |p| > 1 && p[0 + 1] in Neighbours(TWO_ROUTES, p[0]);
    assert |p| > 2 && p[1 + 1] in Neighbours(TWO_ROUTES, p[1]);
    assert |p| > 3 && p[2 + 1] in Neighbours(TWO_ROUTES, p[2]);
    if p[1] == 2 {
      assert p[1..] == [2, 3, 5] && least[1..] == [1, 4, 5];
      assert !ShortLex.LexLess(p, least);
    }
  }

  lemma TwoRoutesBackward(q: seq<Node>)
    requires IsBest(TWO_ROUTES_BACK, 5, 0, q)
    ensures q == [5, 3, 2, 0]
  {
    var least := [5, 3, 2, 0];
    assert IsChain(TWO_ROUTES_BACK, least, 5, 0);
    assert ShortLex.Leq(q, least);
    assert |q| > 1 && q[0 + 1] in Neighbours(TWO_ROUTES_BACK, q[0]);
    assert |q| > 2 && q[1 + 1] in Neighbours(TWO_ROUTES_BACK, q[1]);
    assert |q| > 3 && q[2 + 1] in Neighbours(TWO_ROUTES_BACK, q[2]);
    if q[1] == 4 {
      assert q[1..] == [4, 1, 0] && least[1..] == [3, 2, 0];
      assert !ShortLex.LexLess(q, least);
    }
  }

  lemma TwoRoutesConnect()
    ensures Connected(TWO_ROUTES, 0, 5, None) && Connected(TWO_ROUTES_BACK, 5, 0, None)
  {
    var p, q := [0, 1, 4, 5], [5, 3, 2, 0];
    assert IsChain(TWO_ROUTES, p, 0, 5) && Within(None, |p| - 1);
    assert IsChain(TWO_ROUTES_BACK, q, 5, 0) && Within(None, |q| - 1);
  }

  /** Two disjoint routes of three calls each are enough for a mismatch, whatever the trees. */
  lemma MismatchFromTwoRoutes(ft: Tree, bt: Tree)
    requires IsBfsTree(TWO_ROUTES, 0, None, ft) && IsBfsTree(TWO_ROUTES_BACK, 5, None, bt)
    ensures SortedEdges(TWO_ROUTES_EDGES) && SortedAdjacency(TWO_ROUTES) && SortedAdjacency(TWO_ROUTES_BACK)
    ensures Transposed(TWO_ROUTES, TWO_ROUTES_BACK)
    ensures forall u, v :: v in Neighbours(TWO_ROUTES, u) <==> (u, v) in TWO_ROUTES_EDGES
    ensures 5 in ft && PairGap(ft, bt, 0, 5) == PathMismatch
  {
    TwoRoutesAreSorted();
    TwoRoutesTables();
    TwoRoutesConnect();
    assert SpellsBest(TWO_ROUTES, 0, ft, 5) && SpellsBest(TWO_ROUTES_BACK, 5, bt, 0);
    hide IsBest, Connected;
    var p, q := TreePath(ft, 0, 5), TreePath(bt, 5, 0);
    TwoRoutesForward(p);
    TwoRoutesBackward(q);
    assert Reverse(q)[1] == 2;
  }

  // ----------------------------------------------------------------- emission

  const HIGH_PRIORITY_MAX_HOPS := 3
  const MEDIUM_PRIORITY_MAX_HOPS := 5

  function PriorityOf(hops: nat, severe: bool, gap: Gap): Priority {
    if gap != Clean then High
    else if severe && hops <= HIGH_PRIORITY_MAX_HOPS then High
    else if severe || hops <= MEDIUM_PRIORITY_MAX_HOPS then Medium
    else Low
  }

  function Shape(hops: nat, sourceIsFile: bool): Direction {
    if hops > 0 then CrossProcedural else if sourceIsFile then ModuleScope else IntraSymbol
  }

  /** Everything the emission loops read: the two passes and the bound entries. */
  datatype Context = Context(walks: Passes, groups: Groups, files: set<Node>)

  ghost predicate Usable(c: Context, e: Node, t: Node) {
    && e in c.walks.forward && TreeShape(c.walks.forward[e], e)
    && t in c.walks.backward && TreeShape(c.walks.backward[t], t)
    && e in c.groups
  }

  ghost predicate AllUsable(c: Context, es: seq<Node>, t: Node) {
    forall i :: 0 <= i < |es| ==> Usable(c, es[i], t)
  }

  const NO_ENTRY: Id := 0

  /** What the flows from entry symbol `e` to the sink have in common. */
  function FlowAt(c: Context, sink: Record, t: Node, e: Node): Flow
    requires Usable(c, e, t) && t in c.walks.forward[e]
  {
    var tree := c.walks.forward[e];
    var hops := tree[t].0;
    var gap := PairGap(tree, c.walks.backward[t], e, t);
    var shape := Shape(hops, e in c.files);
    var priority := PriorityOf(hops, sink.severe, gap);
    Flow(NO_ENTRY, e, sink.id, TreePath(tree, e, t), shape,
         if shape == ModuleScope && priority == High then Medium else priority, gap)
  }

  /** How a flow is graded, read off its chain length. */
  lemma FlowIsGraded(c: Context, sink: Record, t: Node, e: Node)
    requires Usable(c, e, t) && t in c.walks.forward[e]
    ensures var f, hops := FlowAt(c, sink, t, e), c.walks.forward[e][t].0;
            && (f.priority == High <==> f.direction != ModuleScope && (f.gap != Clean || (sink.severe && hops <= 3)))
            && (f.priority == Low <==> f.gap == Clean && !sink.severe && hops > 5)
            && f.direction == (if hops > 0 then CrossProcedural else if e in c.files then ModuleScope else IntraSymbol)
            && f.source == e && f.sink == sink.id && f.path == TreePath(c.walks.forward[e], e, t)
            && f.gap == PairGap(c.walks.forward[e], c.walks.backward[t], e, t)
  {
    hide TreeShape, PairGap, TreePath;
  }

  /** The flow recorded for one entry, when its symbol `e` reaches the sink symbol `t`. */
  function FlowOf(c: Context, sink: Record, t: Node, e: Node, entry: Record): Flow
    requires Usable(c, e, t) && t in c.walks.forward[e]
  {
    FlowAt(c, sink, t, e).(entry := entry.id)
  }

  function FlowsOf(c: Context, sink: Record, t: Node, e: Node, entries: seq<Record>): (r: seq<Flow>)
    requires Usable(c, e, t) && t in c.walks.forward[e]
    ensures |r| == |entries|
  {
    seq(|entries|, k requires 0 <= k < |entries| => FlowOf(c, sink, t, e, entries[k]))
  }

  /** Every flow of one sink, before the `max_flows` valve. */
  ghost function SinkFlows(c: Context, sink: Record, t: Node, es: seq<Node>): seq<Flow>
    requires AllUsable(c, es, t)
  {
    if es == [] then []
    else
      var init, e := es[..|es| - 1], es[|es| - 1];
      SinkFlows(c, sink, t, init)
      + if t in c.walks.forward[e] then FlowsOf(c, sink, t, e, c.groups[e]) else []
  }

  /** What the `max_flows` valve lets through. */
  function Cap<T>(all: seq<T>, limit: int): seq<T> {
    if limit <= 0 then [] else if |all| <= limit then all else all[..limit]
  }

  lemma CapAppend<T>(all: seq<T>, x: T, limit: int)
    ensures Cap(all + [x], limit) == if |Cap(all, limit)| >= limit then Cap(all, limit) else Cap(all, limit) + [x]
  {
  }

  ghost function Gaps(c: Context, t: Node, es: seq<Node>): set<Gap>
    requires AllUsable(c, es, t)
  {
    if es == [] then {}
    else
      var init, e := es[..|es| - 1], es[|es| - 1];
      Gaps(c, t, init)
      + if t in c.walks.forward[e] then {PairGap(c.walks.forward[e], c.walks.backward[t], e, t)} else {}
  }

  function Ids(records: seq<Record>): set<Id> {
    set r | r in records :: r.id
  }

  ghost function ReachingIds(c: Context, t: Node, es: seq<Node>): set<Id>
    requires AllUsable(c, es, t)
  {
    set i, r | 0 <= i < |es| && t in c.walks.forward[es[i]] && r in c.groups[es[i]] :: r.id
  }

  /** The innermost loop: the entries of one symbol, through the valve. */
  method EmitEntries(c: Context, sink: Record, t: Node, e: Node, maxFlows: int,
                     flows0: seq<Flow>, ghost all0: seq<Flow>,
                     path: seq<Node>, shape: Direction, priority: Priority, gap: Gap)
      returns (flows: seq<Flow>, dropped: nat)
    requires Usable(c, e, t) && t in c.walks.forward[e]
    requires FlowAt(c, sink, t, e) == Flow(NO_ENTRY, e, sink.id, path, shape, priority, gap)
    requires flows0 == Cap(all0, maxFlows)
    ensures flows == Cap(all0 + FlowsOf(c, sink, t, e, c.groups[e]), maxFlows)
    ensures |flows| + dropped == |flows0| + |c.groups[e]|
  {
    hide Cap, FlowAt, TreeShape;
    flows, dropped := flows0, 0;
    ghost var all := FlowsOf(c, sink, t, e, c.groups[e]);
    assert all0 + all[..0] == all0;
    for k := 0 to |c.groups[e]|
      invariant flows == Cap(all0 + all[..k], maxFlows)
      invariant |flows| + dropped == |flows0| + k
    {
      var entry := c.groups[e][k];
      assert all[k] == FlowOf(c, sink, t, e, entry);
      CapAppend(all0 + all[..k], all[k], maxFlows);
      assert all0 + all[..k + 1] == all0 + all[..k] + [all[k]];
      if |flows| >= maxFlows {
        dropped := dropped + 1;
        continue;
      }
      flows := flows + [Flow(entry.id, e, sink.id, path, shape, priority, gap)];
    }
    assert all[..|all|] == all;
  }

  lemma EmptyPrefix(c: Context, sink: Record, t: Node, all: seq<Flow>)
    ensures SinkFlows(c, sink, t, []) == [] && all + SinkFlows(c, sink, t, []) == all
    ensures Gaps(c, t, []) == {} && ReachingIds(c, t, []) == {}
  {
  }

  lemma SinkStep(c: Context, sink: Record, t: Node, es: seq<Node>, k: nat, all: seq<Flow>)
    requires AllUsable(c, es, t) && k < |es|
    ensures SinkFlows(c, sink, t, es[..k + 1]) == SinkFlows(c, sink, t, es[..k])
              + if t in c.walks.forward[es[k]] then FlowsOf(c, sink, t, es[k], c.groups[es[k]]) else []
    ensures Gaps(c, t, es[..k + 1]) == Gaps(c, t, es[..k])
              + if t in c.walks.forward[es[k]]
                then {PairGap(c.walks.forward[es[k]], c.walks.backward[t], es[k], t)} else {}
    ensures all + SinkFlows(c, sink, t, es[..k + 1])
              == if t in c.walks.forward[es[k]]
                 then (all + SinkFlows(c, sink, t, es[..k])) + FlowsOf(c, sink, t, es[k], c.groups[es[k]])
                 else all + SinkFlows(c, sink, t, es[..k])
  {
    hide FlowsOf, PairGap, TreeShape;
    assert es[..k + 1][..k] == es[..k] && es[..k + 1][k] == es[k];
  }

  lemma ReachingStep(c: Context, t: Node, es: seq<Node>, k: nat)
    requires AllUsable(c, es, t) && k < |es|
    ensures ReachingIds(c, t, es[..k + 1])
            == ReachingIds(c, t, es[..k]) + if t in c.walks.forward[es[k]] then Ids(c.groups[es[k]]) else {}
  {
    var before, after := es[..k], es[..k + 1];
    forall x | x in ReachingIds(c, t, before) ensures x in ReachingIds(c, t, after) {
      var i, r :| 0 <= i < |before| && t in c.walks.forward[before[i]] && r in c.groups[before[i]] && r.id == x;
      assert after[i] == before[i];
    }
    forall x | x in ReachingIds(c, t, after)
      ensures x in ReachingIds(c, t, before) || (t in c.walks.forward[es[k]] && x in Ids(c.groups[es[k]]))
    {
      var i, r :| 0 <= i < |after| && t in c.walks.forward[after[i]] && r in c.groups[after[i]] && r.id == x;
      if i < k {
        assert before[i] == after[i];
      }
    }
    assert after[k] == es[k];
  }

  /** Pass three for one bound sink: its flows, the entries that reach it, its worst gap. */
  method EmitSink(c: Context, sink: Record, t: Node, es: seq<Node>, maxFlows: int,
                  flows0: seq<Flow>, ghost all0: seq<Flow>)
      returns (flows: seq<Flow>, dropped: nat, forwardEntries: set<Id>, worst: Gap)
    requires AllUsable(c, es, t)
    requires flows0 == Cap(all0, maxFlows)
    ensures flows == Cap(all0 + SinkFlows(c, sink, t, es), maxFlows)
    ensures |flows| + dropped == |flows0| + |SinkFlows(c, sink, t, es)|
    ensures forwardEntries == ReachingIds(c, t, es)
    ensures worst != Clean ==> worst in Gaps(c, t, es)
    ensures worst == Clean ==> Gaps(c, t, es) <= {Clean}
  {
    hide TreeShape, FlowsOf, Cap, SinkFlows, Gaps, ReachingIds, Ids, PairGap;
    EmptyPrefix(c, sink, t, all0);
    flows, dropped, forwardEntries, worst := flows0, 0, {}, Clean;
    assert es[..0] == [];
    for k := 0 to |es|
      invariant flows == Cap(all0 + SinkFlows(c, sink, t, es[..k]), maxFlows)
      invariant |flows| + dropped == |flows0| + |SinkFlows(c, sink, t, es[..k])|
      invariant forwardEntries == ReachingIds(c, t, es[..k])
      invariant worst != Clean ==> worst in Gaps(c, t, es[..k])
      invariant worst == Clean ==> Gaps(c, t, es[..k]) <= {Clean}
    {
      var e := es[k];
      ReachingStep(c, t, es, k);
      SinkStep(c, sink, t, es, k, all0);
      var tree := c.walks.forward[e];
      if t !in tree {
        continue;
      }
      forwardEntries := forwardEntries + Ids(c.groups[e]);
      var hops := tree[t].0;
      var gap := PairGap(tree, c.walks.backward[t], e, t);
      if gap != Clean && worst == Clean {
        worst := gap;
      }
      var shape := Shape(hops, e in c.files);
      var priority := PriorityOf(hops, sink.severe, gap);
      if shape == ModuleScope && priority == High {
        priority := Medium;
      }
      var more;
      flows, more := EmitEntries(c, sink, t, e, maxFlows, flows, all0 + SinkFlows(c, sink, t, es[..k]),
                                 TreePath(tree, e, t), shape, priority, gap);
      dropped := dropped + more;
    }
    assert es[..|es|] == es;
  }

  // ------------------------------------------------- declarative reading of both passes

  ghost predicate Reaches(callees: Adjacency, known: set<Node>, limit: Option<int>, entry: Record, t: Node) {
    Owner(entry, known).Some? && Connected(callees, Owner(entry, known).value, t, limit)
  }

  /** The entries some chain of at most `limit` hops connects to `t`. */
  ghost function ConnectedEntryIds(callees: Adjacency, entries: seq<Record>, known: set<Node>,
                                   limit: Option<int>, t: Node): set<Id> {
    set r | r in entries && Reaches(callees, known, limit, r, t) :: r.id
  }

  ghost function CountReaching(callees: Adjacency, entries: seq<Record>, known: set<Node>,
                               limit: Option<int>, t: Node): nat {
    if entries == [] then 0
    else CountReaching(callees, entries[..|entries| - 1], known, limit, t)
         + if Reaches(callees, known, limit, entries[|entries| - 1], t) then 1 else 0
  }

  /** The least shortest chain read forwards is not the least one read backwards. */
  ghost predicate Disagree(callees: Adjacency, callers: Adjacency, e: Node, t: Node) {
    forall p :: IsBest(callees, e, t, p) ==> !IsBest(callers, t, e, Reverse(p))
  }

  /** What the emission loops assume of the context, and what makes it declarative. */
  ghost predicate IsContext(callees: Adjacency, callers: Adjacency, limit: Option<int>, known: set<Node>,
                            entries: seq<Record>, es: seq<Node>, t: Node, c: Context) {
    && Grouped(entries, known, c.groups)
    && (forall i :: 0 <= i < |es| ==> es[i] in c.groups)
    && (forall e :: e in c.groups ==> e in es)
    && StrictlySorted(es)
    && (forall i :: 0 <= i < |es| ==>
          es[i] in c.walks.forward && IsBfsTree(callees, es[i], limit, c.walks.forward[es[i]]))
    && t in c.walks.backward && IsBfsTree(callers, t, limit, c.walks.backward[t])
  }

  lemma ContextIsUsable(callees: Adjacency, callers: Adjacency, limit: Option<int>, known: set<Node>,
                        entries: seq<Record>, es: seq<Node>, t: Node, c: Context)
    requires IsContext(callees, callers, limit, known, entries, es, t, c)
    ensures AllUsable(c, es, t)
  {
  }

  lemma ForwardEntriesAreConnected(callees: Adjacency, callers: Adjacency, limit: Option<int>, known: set<Node>,
                                   entries: seq<Record>, es: seq<Node>, t: Node, c: Context)
    requires IsContext(callees, callers, limit, known, entries, es, t, c)
    ensures AllUsable(c, es, t)
    ensures ReachingIds(c, t, es) == ConnectedEntryIds(callees, entries, known, limit, t)
  {
    ContextIsUsable(callees, callers, limit, known, entries, es, t, c);
    forall x | x in ReachingIds(c, t, es) ensures x in ConnectedEntryIds(callees, entries, known, limit, t) {
      var i, r :| 0 <= i < |es| && t in c.walks.forward[es[i]] && r in c.groups[es[i]] && r.id == x;
      GroupMembers(entries, known, es[i]);
      assert Connected(callees, es[i], t, limit);
      assert Reaches(callees, known, limit, r, t);
    }
    forall x | x in ConnectedEntryIds(callees, entries, known, limit, t) ensures x in ReachingIds(c, t, es) {
      var r :| r in entries && Reaches(callees, known, limit, r, t) && r.id == x;
      var e := Owner(r, known).value;
      assert e in c.groups;
      GroupMembers(entries, known, e);
      var i :| 0 <= i < |es| && es[i] == e;
      assert t in c.walks.forward[es[i]];
    }
  }

  /** `backward_entries` as `build_flow_index` collects it, from the tree of the sink symbol. */
  function BackwardIds(groups: Groups, bt: Tree): set<Id> {
    set n, r | n in bt && n in groups && r in groups[n] :: r.id
  }

  lemma BackwardEntriesAreConnected(callees: Adjacency, callers: Adjacency, limit: Option<int>, known: set<Node>,
                                    entries: seq<Record>, t: Node, groups: Groups, bt: Tree)
    requires Transposed(callees, callers)
    requires Grouped(entries, known, groups) && IsBfsTree(callers, t, limit, bt)
    ensures BackwardIds(groups, bt) == ConnectedEntryIds(callees, entries, known, limit, t)
  {
    forall n ensures n in bt <==> Connected(callees, n, t, limit) {
      ConnectedBothWays(callees, callers, n, t, limit);
      assert n in bt <==> Connected(callers, t, n, limit);
    }
    forall x | x in BackwardIds(groups, bt) ensures x in ConnectedEntryIds(callees, entries, known, limit, t) {
      var n, r :| n in bt && n in groups && r in groups[n] && r.id == x;
      GroupMembers(entries, known, n);
      assert Reaches(callees, known, limit, r, t);
    }
    forall x | x in ConnectedEntryIds(callees, entries, known, limit, t) ensures x in BackwardIds(groups, bt) {
      var r :| r in entries && Reaches(callees, known, limit, r, t) && r.id == x;
      var n := Owner(r, known).value;
      GroupMembers(entries, known, n);
      assert n in bt && n in groups && r in groups[n];
    }
  }

  // ------------------------------------------------------------ flow conservation

  ghost function GroupSum(callees: Adjacency, entries: seq<Record>, known: set<Node>, limit: Option<int>,
                          t: Node, es: seq<Node>): nat {
    if es == [] then 0
    else GroupSum(callees, entries, known, limit, t, es[..|es| - 1])
         + if Connected(callees, es[|es| - 1], t, limit) then |Group(entries, known, es[|es| - 1])| else 0
  }

  lemma {:induction false} SinkFlowsAreGroupSum(callees: Adjacency, callers: Adjacency, limit: Option<int>,
                                                known: set<Node>, entries: seq<Record>, all: seq<Node>, t: Node,
                                                c: Context, sink: Record, k: nat)
    requires IsContext(callees, callers, limit, known, entries, all, t, c) && k <= |all|
    ensures AllUsable(c, all[..k], t)
    ensures |SinkFlows(c, sink, t, all[..k])| == GroupSum(callees, entries, known, limit, t, all[..k])
  {
    hide Connected, IsBest, TreePath, FlowsOf, StrictlySorted;
    ContextIsUsable(callees, callers, limit, known, entries, all, t, c);
    if k > 0 {
      SinkFlowsAreGroupSum(callees, callers, limit, known, entries, all, t, c, sink, k - 1);
      assert all[..k][..k - 1] == all[..k - 1];
      assert t in c.walks.forward[all[k - 1]] <==> Connected(callees, all[k - 1], t, limit);
    }
  }

  lemma {:induction false} GroupSumOneMore(callees: Adjacency, entries: seq<Record>, known: set<Node>,
                                           limit: Option<int>, t: Node, es: seq<Node>, r: Record)
    requires StrictlySorted(es)
    ensures GroupSum(callees, entries + [r], known, limit, t, es)
            == GroupSum(callees, entries, known, limit, t, es)
               + if Owner(r, known).Some? && Owner(r, known).value in es && Reaches(callees, known, limit, r, t)
                 then 1 else 0
  {
    if es != [] {
      var init, e := es[..|es| - 1], es[|es| - 1];
      GroupSumOneMore(callees, entries, known, limit, t, init, r);
      assert (entries + [r])[..|entries|] == entries;
      assert Owner(r, known) == Some(e) ==> e !in init;
    }
  }

  lemma {:induction false} EmptyGroupSum(callees: Adjacency, known: set<Node>, limit: Option<int>,
                                         t: Node, es: seq<Node>)
    ensures GroupSum(callees, [], known, limit, t, es) == 0
  {
    if es != [] {
      EmptyGroupSum(callees, known, limit, t, es[..|es| - 1]);
    }
  }

  lemma {:induction false} GroupSumCounts(callees: Adjacency, entries: seq<Record>, known: set<Node>,
                                          limit: Option<int>, t: Node, es: seq<Node>)
    requires StrictlySorted(es)
    requires forall r :: r in entries && Owner(r, known).Some? ==> Owner(r, known).value in es
    ensures GroupSum(callees, entries, known, limit, t, es) == CountReaching(callees, entries, known, limit, t)
  {
    if entries == [] {
      EmptyGroupSum(callees, known, limit, t, es);
    } else {
      var init, r := entries[..|entries| - 1], entries[|entries| - 1];
      assert entries == init + [r];
      GroupSumCounts(callees, init, known, limit, t, es);
      GroupSumOneMore(callees, init, known, limit, t, es, r);
      assert r in entries;
    }
  }

  /** Each bound sink accounts for exactly one flow per entry connected to its symbol. */
  lemma FlowsPerSink(callees: Adjacency, callers: Adjacency, limit: Option<int>, known: set<Node>,
                     entries: seq<Record>, es: seq<Node>, t: Node, c: Context, sink: Record)
    requires IsContext(callees, callers, limit, known, entries, es, t, c)
    ensures AllUsable(c, es, t)
    ensures |SinkFlows(c, sink, t, es)| == CountReaching(callees, entries, known, limit, t)
  {
    SinkFlowsAreGroupSum(callees, callers, limit, known, entries, es, t, c, sink, |es|);
    assert es[..|es|] == es;
    forall r | r in entries && Owner(r, known).Some? ensures Owner(r, known).value in es {
      var s := Owner(r, known).value;
      assert Owner(r, known) == Some(s) && s in c.groups;
    }
    GroupSumCounts(callees, entries, known, limit, t, es);
  }

  // ----------------------------------------------------------------- real flows

  /** A flow is a real, shortest call chain from the symbol of its entry to that of its sink. */
  ghost predicate IsRealFlow(callees: Adjacency, callers: Adjacency, limit: Option<int>, known: set<Node>,
                             files: set<Node>, entries: seq<Record>, sink: Record, t: Node, f: Flow) {
    && f.sink == sink.id
    && (exists r :: r in entries && r.id == f.entry && Owner(r, known) == Some(f.source))
    && IsBest(callees, f.source, t, f.path) && Within(limit, |f.path| - 1)
    && f.gap == (if Disagree(callees, callers, f.source, t) then PathMismatch else Clean)
    && (f.direction == ModuleScope <==> f.source == t && f.source in files)
    && (f.direction == IntraSymbol <==> f.source == t && f.source !in files)
    && (f.priority == High <==>
          f.direction != ModuleScope && (f.gap != Clean || (sink.severe && |f.path| <= 4)))
    && (f.priority == Low <==> f.gap == Clean && !sink.severe && |f.path| > 6)
  }

  lemma GapIsDisagreement(callees: Adjacency, callers: Adjacency, limit: Option<int>,
                          e: Node, t: Node, ft: Tree, bt: Tree)
    requires Transposed(callees, callers)
    requires IsBfsTree(callees, e, limit, ft) && IsBfsTree(callers, t, limit, bt) && t in ft
    ensures PairGap(ft, bt, e, t) == if Disagree(callees, callers, e, t) then PathMismatch else Clean
  {
    PassesAgree(callees, callers, limit, e, t, ft, bt);
    var p, q := TreePath(ft, e, t), TreePath(bt, t, e);
    assert SpellsBest(callees, e, ft, t) && SpellsBest(callers, t, bt, e);
    ReverseTwice(q);
    ReverseTwice(p);
    forall x | IsBest(callees, e, t, x) ensures x == p {
      BestIsUnique(callees, e, t, x, p);
    }
    if IsBest(callers, t, e, Reverse(p)) {
      BestIsUnique(callers, t, e, Reverse(p), q);
    }
  }

  lemma SourceIsSink(callees: Adjacency, e: Node, t: Node, limit: Option<int>, ft: Tree)
    requires IsBfsTree(callees, e, limit, ft) && t in ft
    ensures ft[t].0 == 0 <==> e == t
    ensures IsBest(callees, e, t, TreePath(ft, e, t)) && Within(limit, ft[t].0)
  {
    assert Connected(callees, e, t, limit) && SpellsBest(callees, e, ft, t);
    var q :| IsChain(callees, q, e, t) && Within(limit, |q| - 1);
    assert ShortLex.Leq(TreePath(ft, e, t), q);
  }

  lemma FlowOfIsReal(callees: Adjacency, callers: Adjacency, limit: Option<int>, known: set<Node>,
                     entries: seq<Record>, es: seq<Node>, t: Node, c: Context, sink: Record, i: nat, r: Record)
    requires Transposed(callees, callers)
    requires IsContext(callees, callers, limit, known, entries, es, t, c)
    requires i < |es| && t in c.walks.forward[es[i]] && r in c.groups[es[i]]
    ensures Usable(c, es[i], t)
    ensures IsRealFlow(callees, callers, limit, known, c.files, entries, sink, t, FlowOf(c, sink, t, es[i], r))
  {
    hide FlowAt, PriorityOf, Shape, Disagree, PairGap, Connected, IsBest, SpellsBest, ShortLex.Leq;
    var e := es[i];
    GroupMembers(entries, known, e);
    assert exists x :: x in entries && x.id == r.id && Owner(x, known) == Some(e);
    GapIsDisagreement(callees, callers, limit, e, t, c.walks.forward[e], c.walks.backward[t]);
    SourceIsSink(callees, e, t, limit, c.walks.forward[e]);
    FlowIsGraded(c, sink, t, e);
    hide Grouped, Transposed, Group, Owner;
  }

  lemma {:induction false} SinkFlowsAreReal(callees: Adjacency, callers: Adjacency, limit: Option<int>,
                                            known: set<Node>, entries: seq<Record>, all: seq<Node>, t: Node,
                                            c: Context, sink: Record, k: nat)
    requires Transposed(callees, callers)
    requires IsContext(callees, callers, limit, known, entries, all, t, c) && k <= |all|
    ensures AllUsable(c, all[..k], t)
    ensures forall f :: f in SinkFlows(c, sink, t, all[..k]) ==>
              IsRealFlow(callees, callers, limit, known, c.files, entries, sink, t, f)
  {
    hide IsRealFlow, IsContext, Transposed, FlowOf;
    ContextIsUsable(callees, callers, limit, known, entries, all, t, c);
    if k > 0 {
      SinkFlowsAreReal(callees, callers, limit, known, entries, all, t, c, sink, k - 1);
      assert all[..k][..k - 1] == all[..k - 1];
      var e := all[k - 1];
      forall f | f in SinkFlows(c, sink, t, all[..k])
        ensures IsRealFlow(callees, callers, limit, known, c.files, entries, sink, t, f)
      {
        if f !in SinkFlows(c, sink, t, all[..k - 1]) {
          var rows := FlowsOf(c, sink, t, e, c.groups[e]);
          var j :| 0 <= j < |rows| && rows[j] == f;
          FlowOfIsReal(callees, callers, limit, known, entries, all, t, c, sink, k - 1, c.groups[e][j]);
        }
      }
    }
  }

  /** Some flow stands for `entry` reaching the sink `id`. */
  ghost predicate Shown(flows: seq<Flow>, known: set<Node>, entry: Record, id: Id) {
    exists i :: 0 <= i < |flows| && flows[i].entry == entry.id && flows[i].sink == id
                && Owner(entry, known) == Some(flows[i].source)
  }

  /** Every entry that reaches the symbol of sink `id` is shown. */
  ghost predicate AllShown(callees: Adjacency, limit: Option<int>, known: set<Node>, entries: seq<Record>,
                           flows: seq<Flow>, id: Id, symbol: Option<Node>) {
    symbol.Some? ==>
      forall e :: e in entries && Reaches(callees, known, limit, e, symbol.value) ==> Shown(flows, known, e, id)
  }

  lemma ShownInMore(flows: seq<Flow>, more: seq<Flow>, known: set<Node>, entry: Record, id: Id)
    requires Shown(flows, known, entry, id) || Shown(more, known, entry, id)
    ensures Shown(flows + more, known, entry, id)
  {
    if Shown(flows, known, entry, id) {
      var i :| 0 <= i < |flows| && flows[i].entry == entry.id && flows[i].sink == id
               && Owner(entry, known) == Some(flows[i].source);
      assert (flows + more)[i] == flows[i];
    } else {
      var i :| 0 <= i < |more| && more[i].entry == entry.id && more[i].sink == id
               && Owner(entry, known) == Some(more[i].source);
      assert (flows + more)[|flows| + i] == more[i];
    }
  }

  lemma {:induction false} ReachingIsShown(c: Context, known: set<Node>, es: seq<Node>, t: Node, sink: Record,
                                           i: nat, entry: Record)
    requires AllUsable(c, es, t) && i < |es| && t in c.walks.forward[es[i]]
    requires entry in c.groups[es[i]] && Owner(entry, known) == Some(es[i])
    ensures Shown(SinkFlows(c, sink, t, es), known, entry, sink.id)
    decreases |es|
  {
    var init, e := es[..|es| - 1], es[|es| - 1];
    var before := SinkFlows(c, sink, t, init);
    if i < |init| {
      ReachingIsShown(c, known, init, t, sink, i, entry);
      ShownInMore(before, if t in c.walks.forward[e] then FlowsOf(c, sink, t, e, c.groups[e]) else [],
                  known, entry, sink.id);
    } else {
      var rows := FlowsOf(c, sink, t, e, c.groups[e]);
      var k :| 0 <= k < |c.groups[e]| && c.groups[e][k] == entry;
      assert rows[k] == FlowOf(c, sink, t, e, entry);
      ShownInMore(before, rows, known, entry, sink.id);
    }
  }

  /** No entry that reaches a bound sink goes without a flow. */
  lemma ReachingEntriesAreShown(callees: Adjacency, callers: Adjacency, limit: Option<int>, known: set<Node>,
                                entries: seq<Record>, es: seq<Node>, t: Node, c: Context, sink: Record)
    requires IsContext(callees, callers, limit, known, entries, es, t, c)
    ensures AllUsable(c, es, t)
    ensures AllShown(callees, limit, known, entries, SinkFlows(c, sink, t, es), sink.id, Some(t))
  {
    ContextIsUsable(callees, callers, limit, known, entries, es, t, c);
    forall r | r in entries && Reaches(callees, known, limit, r, t)
      ensures Shown(SinkFlows(c, sink, t, es), known, r, sink.id)
    {
      var e := Owner(r, known).value;
      assert e in c.groups;
      GroupMembers(entries, known, e);
      var i :| 0 <= i < |es| && es[i] == e;
      ReachingIsShown(c, known, es, t, sink, i, r);
    }
  }

  lemma AllShownInMore(callees: Adjacency, limit: Option<int>, known: set<Node>, entries: seq<Record>,
                       flows: seq<Flow>, more: seq<Flow>, id: Id, symbol: Option<Node>)
    requires AllShown(callees, limit, known, entries, flows, id, symbol)
             || AllShown(callees, limit, known, entries, more, id, symbol)
    ensures AllShown(callees, limit, known, entries, flows + more, id, symbol)
  {
    if symbol.Some? {
      forall e | e in entries && Reaches(callees, known, limit, e, symbol.value)
        ensures Shown(flows + more, known, e, id)
      {
        ShownInMore(flows, more, known, e, id);
      }
    }
  }

  // -------------------------------------------------------------- the whole index

  lemma PrependSorted(x: Node, s: seq<Node>)
    requires StrictlySorted(s) && forall n :: n in s ==> x < n
    ensures StrictlySorted([x] + s)
  {
    forall i, j | 0 <= i < j < |[x] + s| ensures ([x] + s)[i] < ([x] + s)[j] {
      assert ([x] + s)[j] == s[j - 1] && s[j - 1] in s;
    }
  }

  function Inserted(s: seq<Node>, x: Node): seq<Node> {
    if s == [] || x < s[0] then [x] + s
    else if x == s[0] then s
    else [s[0]] + Inserted(s[1..], x)
  }

  lemma {:induction false} InsertedIsSorted(s: seq<Node>, x: Node)
    requires StrictlySorted(s)
    ensures StrictlySorted(Inserted(s, x))
    ensures forall n :: n in Inserted(s, x) <==> n == x || n in s
  {
    if s != [] {
      assert s == [s[0]] + s[1..];
      assert forall n :: n in s[1..] ==> s[0] < n;
      if x < s[0] {
        PrependSorted(x, s);
      } else if s[0] < x {
        InsertedIsSorted(s[1..], x);
        PrependSorted(s[0], Inserted(s[1..], x));
      }
    }
  }

  /** `sorted(entries_by_symbol)` and `sorted(sinks_by_symbol)`. */
  method SortNodes(keys: seq<Node>) returns (sorted: seq<Node>)
    ensures StrictlySorted(sorted)
    ensures forall n :: n in sorted <==> n in keys
  {
    sorted := [];
    for k := 0 to |keys|
      invariant StrictlySorted(sorted)
      invariant forall n :: n in sorted <==> n in keys[..k]
    {
      InsertedIsSorted(sorted, keys[k]);
      sorted := Inserted(sorted, keys[k]);
    }
  }

  method GrowTrees(adj: Adjacency, roots: seq<Node>, limit: Option<int>) returns (trees: map<Node, Tree>)
    requires SortedAdjacency(adj)
    ensures forall n :: n in trees <==> n in roots
    ensures forall n :: n in trees ==> IsBfsTree(adj, n, limit, trees[n])
  {
    hide IsBfsTree;
    trees := map[];
    for k := 0 to |roots|
      invariant forall n :: n in trees <==> n in roots[..k]
      invariant forall n :: n in trees ==> IsBfsTree(adj, n, limit, trees[n])
    {
      var tree := BfsTree(adj, roots[k], limit);
      trees := trees[roots[k] := tree];
    }
  }

  /** Verdicts and severities are keyed by sink id, so the last record with an id stands
      for all of them. */
  function LastOf(sinks: seq<Record>, id: Id): Option<Record> {
    if sinks == [] then None
    else if sinks[|sinks| - 1].id == id then Some(sinks[|sinks| - 1])
    else LastOf(sinks[..|sinks| - 1], id)
  }

  lemma {:induction false} LastOfMember(sinks: seq<Record>, id: Id)
    ensures LastOf(sinks, id).Some? <==> exists s :: s in sinks && s.id == id
    ensures LastOf(sinks, id).Some? ==> LastOf(sinks, id).value in sinks && LastOf(sinks, id).value.id == id
  {
    if sinks != [] {
      LastOfMember(sinks[..|sinks| - 1], id);
      assert sinks == sinks[..|sinks| - 1] + [sinks[|sinks| - 1]];
      assert sinks[|sinks| - 1] in sinks;
    }
  }

  /** With distinct ids every record stands for itself. */
  lemma {:induction false} LastOfDistinct(sinks: seq<Record>, k: nat)
    requires k < |sinks| && forall i, j :: 0 <= i < j < |sinks| ==> sinks[i].id != sinks[j].id
    ensures LastOf(sinks, sinks[k].id) == Some(sinks[k])
  {
    if k < |sinks| - 1 {
      LastOfDistinct(sinks[..|sinks| - 1], k);
    }
  }

  /** The verdict of one sink, in terms of the graph alone. */
  ghost predicate IsVerdict(callees: Adjacency, callers: Adjacency, limit: Option<int>, known: set<Node>,
                            entries: seq<Record>, sink: Record, r: Reach) {
    && r.symbol == Owner(sink, known)
    && match r.symbol
       case None => r.forwardEntries == r.backwardEntries == {} && r.gap == Unbound
       case Some(t) =>
         && r.forwardEntries == r.backwardEntries == ConnectedEntryIds(callees, entries, known, limit, t)
         && (r.gap == Isolated <==> r.forwardEntries == {})
         && (r.gap == PathMismatch <==>
              exists e :: e in entries && Reaches(callees, known, limit, e, t)
                          && Disagree(callees, callers, Owner(e, known).value, t))
         && r.gap in {Clean, Isolated, PathMismatch}
  }

  ghost function CountFor(callees: Adjacency, entries: seq<Record>, known: set<Node>, limit: Option<int>,
                          symbol: Option<Node>): nat {
    match symbol
    case None => 0
    case Some(t) => CountReaching(callees, entries, known, limit, t)
  }

  /** The symbol a sink id is bound to. */
  function SymbolOf(sinks: seq<Record>, known: set<Node>, id: Id): Option<Node> {
    match LastOf(sinks, id)
    case None => None
    case Some(s) => Owner(s, known)
  }

  /** The number of (bound sink, entry) pairs whose symbols are connected within the bound. */
  ghost function CountPairs(callees: Adjacency, entries: seq<Record>, known: set<Node>, limit: Option<int>,
                            sinks: seq<Record>, ordered: seq<Record>): nat {
    if ordered == [] then 0
    else
      var init, s := ordered[..|ordered| - 1], ordered[|ordered| - 1];
      CountPairs(callees, entries, known, limit, sinks, init)
      + CountFor(callees, entries, known, limit, SymbolOf(sinks, known, s.id))
  }

  /** The flows of the sink that stands for `id`, before the valve. */
  ghost function FlowsFor(c: Context, known: set<Node>, es: seq<Node>, sinks: seq<Record>, id: Id): seq<Flow> {
    match LastOf(sinks, id)
    case None => []
    case Some(sink) =>
      match Owner(sink, known)
      case None => []
      case Some(t) => if AllUsable(c, es, t) then SinkFlows(c, sink, t, es) else []
  }

  /** All flows in the order pass three comes to them: by sink, by entry symbol, by entry. */
  ghost function AllFlows(c: Context, known: set<Node>, es: seq<Node>, sinks: seq<Record>,
                          ordered: seq<Record>): seq<Flow>
  {
    if ordered == [] then []
    else AllFlows(c, known, es, sinks, ordered[..|ordered| - 1])
         + FlowsFor(c, known, es, sinks, ordered[|ordered| - 1].id)
  }

  function CountSink(flows: seq<Flow>, id: Id): nat {
    if flows == [] then 0
    else CountSink(flows[..|flows| - 1], id) + if flows[|flows| - 1].sink == id then 1 else 0
  }

  lemma {:induction false} CountSinkConcat(a: seq<Flow>, b: seq<Flow>, id: Id)
    ensures CountSink(a + b, id) == CountSink(a, id) + CountSink(b, id)
  {
    if b == [] {
      assert a + b == a;
    } else {
      CountSinkConcat(a, b[..|b| - 1], id);
      assert (a + b)[..|a + b| - 1] == a + b[..|b| - 1];
    }
  }

  lemma {:induction false} CountSinkUniform(b: seq<Flow>, sink: Id, id: Id)
    requires forall f :: f in b ==> f.sink == sink
    ensures CountSink(b, id) == if id == sink then |b| else 0
  {
    if b != [] {
      CountSinkUniform(b[..|b| - 1], sink, id);
      assert b[|b| - 1] in b;
    }
  }

  lemma EmptyCap<T>(limit: int)
    ensures Cap<T>([], limit) == []
  {
  }

  lemma CapSize<T>(all: seq<T>, limit: int)
    ensures |Cap(all, limit)| <= limit || Cap(all, limit) == []
    ensures |Cap(all, limit)| < |all| ==> |Cap(all, limit)| >= limit
    ensures |Cap(all, limit)| == |all| ==> Cap(all, limit) == all
    ensures forall x :: x in Cap(all, limit) ==> x in all
  {
  }

  lemma OwnersAreKeys(records: seq<Record>, known: set<Node>, groups: Groups)
    requires Grouped(records, known, groups)
    ensures forall r :: r in records && Owner(r, known).Some? ==> Owner(r, known).value in groups
  {
    forall r | r in records && Owner(r, known).Some? ensures Owner(r, known).value in groups {
      var s := Owner(r, known).value;
      assert Owner(r, known) == Some(s);
    }
  }

  lemma MakeContext(callees: Adjacency, callers: Adjacency, limit: Option<int>, known: set<Node>,
                    entries: seq<Record>, es: seq<Node>, t: Node, c: Context)
    requires Grouped(entries, known, c.groups) && StrictlySorted(es)
    requires forall n :: n in es <==> n in c.groups
    requires forall n :: n in c.walks.forward <==> n in es
    requires forall n :: n in c.walks.forward ==> IsBfsTree(callees, n, limit, c.walks.forward[n])
    requires t in c.walks.backward && IsBfsTree(callers, t, limit, c.walks.backward[t])
    ensures IsContext(callees, callers, limit, known, entries, es, t, c)
  {
    hide IsBfsTree, Grouped;
    forall i | 0 <= i < |es|
      ensures es[i] in c.groups && es[i] in c.walks.forward
      ensures IsBfsTree(callees, es[i], limit, c.walks.forward[es[i]])
    {
      assert es[i] in es;
    }
  }

  ghost predicate RealFlows(callees: Adjacency, callers: Adjacency, limit: Option<int>, known: set<Node>,
                            files: set<Node>, entries: seq<Record>, sinks: seq<Record>, flows: seq<Flow>) {
    forall f :: f in flows ==>
      && LastOf(sinks, f.sink).Some? && SymbolOf(sinks, known, f.sink).Some?
      && IsRealFlow(callees, callers, limit, known, files, entries,
                    LastOf(sinks, f.sink).value, SymbolOf(sinks, known, f.sink).value, f)
  }

  lemma RealFlowsExtend(callees: Adjacency, callers: Adjacency, limit: Option<int>, known: set<Node>,
                        files: set<Node>, entries: seq<Record>, sinks: seq<Record>, all: seq<Flow>,
                        more: seq<Flow>, sink: Record)
    requires RealFlows(callees, callers, limit, known, files, entries, sinks, all)
    requires LastOf(sinks, sink.id) == Some(sink)
    requires more != [] ==> Owner(sink, known).Some?
    requires forall f :: f in more ==>
               (Owner(sink, known).Some?
                && IsRealFlow(callees, callers, limit, known, files, entries, sink, Owner(sink, known).value, f))
    ensures RealFlows(callees, callers, limit, known, files, entries, sinks, all + more)
    ensures forall f :: f in more ==> f.sink == sink.id
  {
  }

  lemma CapExtends<T>(all: seq<T>, more: seq<T>, limit: int)
    ensures Cap(all, limit) <= Cap(all + more, limit)
    ensures forall x :: x in Cap(all + more, limit)[|Cap(all, limit)|..] ==> x in more
    ensures forall x :: x in Cap(all + more, limit) ==> x in Cap(all, limit) || x in more
  {
  }

  lemma WorstGapIsDisagreement(callees: Adjacency, callers: Adjacency, limit: Option<int>, known: set<Node>,
                               entries: seq<Record>, es: seq<Node>, t: Node, c: Context, k: nat)
    requires Transposed(callees, callers) && k <= |es|
    requires IsContext(callees, callers, limit, known, entries, es, t, c)
    ensures AllUsable(c, es[..k], t)
    ensures Gaps(c, t, es[..k]) <= {Clean, PathMismatch}
    ensures PathMismatch in Gaps(c, t, es[..k]) <==>
              exists i :: 0 <= i < k && t in c.walks.forward[es[i]] && Disagree(callees, callers, es[i], t)
  {
    hide IsBfsTree, TreeShape, Disagree, PairGap, Grouped, Transposed;
    ContextIsUsable(callees, callers, limit, known, entries, es, t, c);
    if k > 0 {
      WorstGapIsDisagreement(callees, callers, limit, known, entries, es, t, c, k - 1);
      assert es[..k][..k - 1] == es[..k - 1];
      if t in c.walks.forward[es[k - 1]] {
        GapIsDisagreement(callees, callers, limit, es[k - 1], t, c.walks.forward[es[k - 1]], c.walks.backward[t]);
      }
    }
  }

  lemma SomeEntryDisagrees(callees: Adjacency, callers: Adjacency, limit: Option<int>, known: set<Node>,
                           entries: seq<Record>, es: seq<Node>, t: Node, c: Context)
    requires Transposed(callees, callers)
    requires IsContext(callees, callers, limit, known, entries, es, t, c)
    ensures AllUsable(c, es, t)
    ensures Gaps(c, t, es) <= {Clean, PathMismatch}
    ensures PathMismatch in Gaps(c, t, es) <==>
              exists e :: e in entries && Reaches(callees, known, limit, e, t)
                          && Disagree(callees, callers, Owner(e, known).value, t)
  {
    WorstGapIsDisagreement(callees, callers, limit, known, entries, es, t, c, |es|);
    assert es[..|es|] == es;
    forall i | 0 <= i < |es| ensures t in c.walks.forward[es[i]] <==> Connected(callees, es[i], t, limit) {
    }
    if PathMismatch in Gaps(c, t, es) {
      var i :| 0 <= i < |es| && t in c.walks.forward[es[i]] && Disagree(callees, callers, es[i], t);
      var e :| e in entries && Owner(e, known) == Some(es[i]);
      assert Reaches(callees, known, limit, e, t);
    }
    if e :| e in entries && Reaches(callees, known, limit, e, t)
            && Disagree(callees, callers, Owner(e, known).value, t) {
      var s := Owner(e, known).value;
      assert Owner(e, known) == Some(s) && s in c.groups;
      var i :| 0 <= i < |es| && es[i] == s;
    }
  }

  lemma NoEntriesNoMismatch(callees: Adjacency, callers: Adjacency, limit: Option<int>, known: set<Node>,
                            entries: seq<Record>, t: Node)
    ensures ConnectedEntryIds(callees, entries, known, limit, t) == {} ==>
              !exists e :: e in entries && Reaches(callees, known, limit, e, t)
                         && Disagree(callees, callers, Owner(e, known).value, t)
  {
    forall e | e in entries && Reaches(callees, known, limit, e, t)
      ensures e.id in ConnectedEntryIds(callees, entries, known, limit, t)
    {
    }
  }

  /** One turn of the pass-three loop, for the record that stands for a sink id. */
  method JudgeSink(c: Context, known: set<Node>, sink: Record, es: seq<Node>, maxFlows: int,
                   flows0: seq<Flow>, r0: Reach, ghost all0: seq<Flow>,
                   ghost callees: Adjacency, ghost callers: Adjacency, ghost limit: Option<int>,
                   ghost entries: seq<Record>)
      returns (flows: seq<Flow>, dropped: nat, r: Reach, ghost more: seq<Flow>)
    requires Transposed(callees, callers) && flows0 == Cap(all0, maxFlows)
    requires r0.symbol == Owner(sink, known)
    requires match r0.symbol
             case None => r0.forwardEntries == r0.backwardEntries == {}
             case Some(t) => && IsContext(callees, callers, limit, known, entries, es, t, c)
                             && r0.backwardEntries == BackwardIds(c.groups, c.walks.backward[t])
                             && (es == [] ==> r0.forwardEntries == {})
    ensures flows == Cap(all0 + more, maxFlows) && |flows| + dropped == |flows0| + |more|
    ensures |more| == CountFor(callees, entries, known, limit, r0.symbol)
    ensures AllShown(callees, limit, known, entries, more, sink.id, r0.symbol)
    ensures r0.symbol.None? ==> more == []
    ensures r0.symbol.Some? ==> AllUsable(c, es, r0.symbol.value) && more == SinkFlows(c, sink, r0.symbol.value, es)
    ensures r0.symbol.Some? ==> forall f :: f in more ==>
              IsRealFlow(callees, callers, limit, known, c.files, entries, sink, r0.symbol.value, f)
    ensures r.flowCount + |flows0| == r0.flowCount + |flows|
    ensures r.symbol == r0.symbol && r.backwardEntries == r0.backwardEntries
    ensures es == [] || r.symbol.None? ==> r.forwardEntries == {}
    ensures IsVerdict(callees, callers, limit, known, entries, sink, r)
  {
    hide IsBfsTree, Connected, Disagree, IsRealFlow, Grouped, CountReaching, Cap, FlowsOf, Transposed, Shown;
    hide TreeShape, Reaches, StrictlySorted, SinkFlows, Gaps, PairGap, BackwardIds;
    flows, dropped, more := flows0, 0, [];
    assert all0 + more == all0;
    if r0.symbol.None? {
      return flows, dropped, r0.(gap := Unbound), more;
    }
    var t := r0.symbol.value;
    ContextIsUsable(callees, callers, limit, known, entries, es, t, c);
    ForwardEntriesAreConnected(callees, callers, limit, known, entries, es, t, c);
    BackwardEntriesAreConnected(callees, callers, limit, known, entries, t, c.groups, c.walks.backward[t]);
    SomeEntryDisagrees(callees, callers, limit, known, entries, es, t, c);
    FlowsPerSink(callees, callers, limit, known, entries, es, t, c, sink);
    ReachingEntriesAreShown(callees, callers, limit, known, entries, es, t, c, sink);
    SinkFlowsAreReal(callees, callers, limit, known, entries, es, t, c, sink, |es|);
    assert es[..|es|] == es;
    more := SinkFlows(c, sink, t, es);
    CapExtends(all0, more, maxFlows);
    NoEntriesNoMismatch(callees, callers, limit, known, entries, t);
    if es == [] {
      EmptyPrefix(c, sink, t, all0);
      r := r0.(gap := Isolated);
      return;
    }
    var forwardEntries, worst;
    flows, dropped, forwardEntries, worst := EmitSink(c, sink, t, es, maxFlows, flows0, all0);
    var backward := r0.backwardEntries != {};
    var gap := if forwardEntries == {} && backward then BackwardOnly
               else if forwardEntries == {} then Isolated
               else worst;
    r := Reach(r0.symbol, forwardEntries, r0.backwardEntries, r0.flowCount + |flows| - |flows0|, gap);
  }

  /** What pass two leaves for one sink id, and pass three keeps. */
  ghost predicate Seeded(known: set<Node>, groups: Groups, backward: map<Node, Tree>, es: seq<Node>,
                         sink: Record, r: Reach) {
    && r.symbol == Owner(sink, known)
    && (es == [] || r.symbol.None? ==> r.forwardEntries == {})
    && match r.symbol
       case None => r.backwardEntries == {}
       case Some(t) => t in backward && r.backwardEntries == BackwardIds(groups, backward[t])
  }

  ghost predicate AllSeeded(known: set<Node>, groups: Groups, backward: map<Node, Tree>, es: seq<Node>,
                            sinks: seq<Record>, reach: map<Id, Reach>) {
    && (forall id :: id in reach <==> LastOf(sinks, id).Some?)
    && forall id :: id in reach ==> Seeded(known, groups, backward, es, LastOf(sinks, id).value, reach[id])
  }

  /** Pass two: the entries each sink traces back to. */
  method SeedReach(groups: Groups, backward: map<Node, Tree>, known: set<Node>, es: seq<Node>, sinks: seq<Record>)
      returns (reach: map<Id, Reach>, last: map<Id, Record>)
    requires forall s :: s in sinks && Owner(s, known).Some? ==> Owner(s, known).value in backward
    ensures AllSeeded(known, groups, backward, es, sinks, reach)
    ensures forall id :: id in last <==> LastOf(sinks, id).Some?
    ensures forall id :: id in last ==> LastOf(sinks, id) == Some(last[id])
    ensures forall id :: id in reach ==> reach[id].flowCount == 0
  {
    reach, last := map[], map[];
    for k := 0 to |sinks|
      invariant AllSeeded(known, groups, backward, es, sinks[..k], reach)
      invariant forall id :: id in last <==> LastOf(sinks[..k], id).Some?
      invariant forall id :: id in last ==> LastOf(sinks[..k], id) == Some(last[id])
      invariant forall id :: id in reach ==> reach[id].flowCount == 0
    {
      var sink := sinks[k];
      assert sinks[..k + 1][..k] == sinks[..k];
      var owner := Owner(sink, known);
      var backwardEntries := if owner.Some? then BackwardIds(groups, backward[owner.value]) else {};
      reach := reach[sink.id := Reach(owner, {}, backwardEntries, 0, Clean)];
      last := last[sink.id := sink];
    }
    assert sinks[..|sinks|] == sinks;
  }

  ghost predicate Counted(flows: seq<Flow>, reach: map<Id, Reach>) {
    forall id :: id in reach ==> reach[id].flowCount == CountSink(flows, id)
  }

  /** The flow counts of the sinks in `ids`, added up. */
  function SumFlowCounts(reach: map<Id, Reach>, ids: seq<Id>): nat {
    if ids == [] then 0
    else
      var id := ids[|ids| - 1];
      SumFlowCounts(reach, ids[..|ids| - 1]) + if id in reach then reach[id].flowCount else 0
  }

  /** `ids` names each judged sink once. */
  ghost predicate ListsAll(ids: seq<Id>, reach: map<Id, Reach>) {
    && (forall i, j :: 0 <= i < j < |ids| ==> ids[i] != ids[j])
    && forall id :: id in ids <==> id in reach
  }

  function CountAmong(flows: seq<Flow>, ids: seq<Id>): nat {
    if flows == [] then 0
    else CountAmong(flows[..|flows| - 1], ids) + if flows[|flows| - 1].sink in ids then 1 else 0
  }

  lemma {:induction false} CountAmongOneMore(flows: seq<Flow>, ids: seq<Id>, id: Id)
    requires id !in ids
    ensures CountAmong(flows, ids + [id]) == CountAmong(flows, ids) + CountSink(flows, id)
  {
    if flows != [] {
      CountAmongOneMore(flows[..|flows| - 1], ids, id);
    }
  }

  lemma {:induction false} CountAmongAll(flows: seq<Flow>, ids: seq<Id>)
    requires forall f :: f in flows ==> f.sink in ids
    ensures CountAmong(flows, ids) == |flows|
  {
    if flows != [] {
      CountAmongAll(flows[..|flows| - 1], ids);
      assert flows[|flows| - 1] in flows;
    }
  }

  lemma {:induction false} CountAmongNone(flows: seq<Flow>)
    ensures CountAmong(flows, []) == 0
  {
    if flows != [] {
      CountAmongNone(flows[..|flows| - 1]);
    }
  }

  lemma {:induction false} CountsAddUp(flows: seq<Flow>, reach: map<Id, Reach>, ids: seq<Id>)
    requires Counted(flows, reach) && forall id :: id in ids ==> id in reach
    requires forall i, j :: 0 <= i < j < |ids| ==> ids[i] != ids[j]
    ensures SumFlowCounts(reach, ids) == CountAmong(flows, ids)
  {
    if ids == [] {
      CountAmongNone(flows);
    } else {
      var init, last := ids[..|ids| - 1], ids[|ids| - 1];
      assert ids == init + [last] && last in ids;
      CountsAddUp(flows, reach, init);
      CountAmongOneMore(flows, init, last);
    }
  }

  /** The flow counts of all sinks add up to the number of flows emitted. */
  lemma FlowCountsAddUp(flows: seq<Flow>, reach: map<Id, Reach>, ids: seq<Id>)
    requires Counted(flows, reach) && ListsAll(ids, reach) && forall f :: f in flows ==> f.sink in reach
    ensures SumFlowCounts(reach, ids) == |flows|
  {
    CountsAddUp(flows, reach, ids);
    CountAmongAll(flows, ids);
  }

  ghost predicate Judged(callees: Adjacency, callers: Adjacency, limit: Option<int>, known: set<Node>,
                         entries: seq<Record>, sinks: seq<Record>, reach: map<Id, Reach>, id: Id) {
    && id in reach && LastOf(sinks, id).Some?
    && IsVerdict(callees, callers, limit, known, entries, LastOf(sinks, id).value, reach[id])
  }

  lemma CountedAfter(flows0: seq<Flow>, flows: seq<Flow>, reach: map<Id, Reach>, id: Id, r: Reach)
    requires Counted(flows0, reach) && id in reach && flows0 <= flows
    requires forall f :: f in flows[|flows0|..] ==> f.sink == id
    requires r.flowCount + |flows0| == reach[id].flowCount + |flows|
    ensures Counted(flows, reach[id := r])
  {
    var more := flows[|flows0|..];
    assert flows == flows0 + more;
    forall x | x in reach ensures reach[id := r][x].flowCount == CountSink(flows, x) {
      CountSinkConcat(flows0, more, x);
      CountSinkUniform(more, id, x);
    }
  }

  /** Binding and the two walks: everything pass three reads. */
  method RunPasses(callees: Adjacency, callers: Adjacency, known: set<Node>, files: set<Node>,
                   entries: seq<Record>, sinks: seq<Record>, limit: Option<int>)
      returns (c: Context, es: seq<Node>)
    requires SortedAdjacency(callees) && SortedAdjacency(callers)
    ensures c.files == files
    ensures forall s :: s in sinks && Owner(s, known).Some? ==>
              Owner(s, known).value in c.walks.backward
              && IsContext(callees, callers, limit, known, entries, es, Owner(s, known).value, c)
  {
    hide IsBfsTree, SortedAdjacency, Grouped, IsContext;
    var groups, entryKeys, _ := BindBySymbol(entries, known);
    var sinkGroups, sinkKeys, _ := BindBySymbol(sinks, known);
    es := SortNodes(entryKeys);
    var ts := SortNodes(sinkKeys);
    var forward := GrowTrees(callees, es, limit);
    var backward := GrowTrees(callers, ts, limit);
    c := Context(Passes(forward, backward), groups, files);
    OwnersAreKeys(sinks, known, sinkGroups);
    forall s | s in sinks && Owner(s, known).Some?
      ensures Owner(s, known).value in c.walks.backward
      ensures IsContext(callees, callers, limit, known, entries, es, Owner(s, known).value, c)
    {
      var t := Owner(s, known).value;
      assert t in sinkGroups;
      assert t in sinkKeys;
      assert t in ts;
      MakeContext(callees, callers, limit, known, entries, es, t, c);
    }
  }

  lemma NoPairs(callees: Adjacency, entries: seq<Record>, known: set<Node>, limit: Option<int>, sinks: seq<Record>)
    ensures CountPairs(callees, entries, known, limit, sinks, []) == 0
  {
  }

  lemma NoFlows(c: Context, known: set<Node>, es: seq<Node>, sinks: seq<Record>)
    ensures AllFlows(c, known, es, sinks, []) == []
  {
  }

  lemma OneMoreSink(callees: Adjacency, entries: seq<Record>, limit: Option<int>, c: Context, known: set<Node>,
                    es: seq<Node>, sinks: seq<Record>, ordered: seq<Record>, k: nat,
                    sink: Record, symbol: Option<Node>, more: seq<Flow>)
    requires k < |ordered| && LastOf(sinks, ordered[k].id) == Some(sink) && symbol == Owner(sink, known)
    requires symbol.None? ==> more == []
    requires symbol.Some? ==> AllUsable(c, es, symbol.value) && more == SinkFlows(c, sink, symbol.value, es)
    ensures AllFlows(c, known, es, sinks, ordered[..k + 1]) == AllFlows(c, known, es, sinks, ordered[..k]) + more
    ensures CountPairs(callees, entries, known, limit, sinks, ordered[..k + 1])
            == CountPairs(callees, entries, known, limit, sinks, ordered[..k])
               + CountFor(callees, entries, known, limit, symbol)
  {
    assert ordered[..k + 1][..k] == ordered[..k];
  }

  lemma NoFlowsAreReal(callees: Adjacency, callers: Adjacency, limit: Option<int>, known: set<Node>,
                       files: set<Node>, entries: seq<Record>, sinks: seq<Record>)
    ensures RealFlows(callees, callers, limit, known, files, entries, sinks, [])
  {
  }

  /** Pass three over every sink record. */
  method EmitAll(c: Context, known: set<Node>, es: seq<Node>, sinks: seq<Record>, ordered: seq<Record>, maxFlows: int,
                 last: map<Id, Record>, reach0: map<Id, Reach>,
                 ghost callees: Adjacency, ghost callers: Adjacency, ghost limit: Option<int>,
                 ghost entries: seq<Record>)
      returns (flows: seq<Flow>, dropped: nat, reach: map<Id, Reach>, ghost all: seq<Flow>)
    requires Transposed(callees, callers)
    requires forall s :: s in ordered ==> s in sinks
    requires AllSeeded(known, c.groups, c.walks.backward, es, sinks, reach0) && Counted([], reach0)
    requires forall id :: id in last <==> LastOf(sinks, id).Some?
    requires forall id :: id in last ==> LastOf(sinks, id) == Some(last[id])
    requires forall s :: s in sinks && Owner(s, known).Some? ==>
               IsContext(callees, callers, limit, known, entries, es, Owner(s, known).value, c)
    ensures flows == Cap(all, maxFlows) && |flows| + dropped == |all|
    ensures all == AllFlows(c, known, es, sinks, ordered)
    ensures |all| == CountPairs(callees, entries, known, limit, sinks, ordered)
    ensures RealFlows(callees, callers, limit, known, c.files, entries, sinks, all) && Counted(flows, reach)
    ensures forall i :: 0 <= i < |ordered| ==>
              AllShown(callees, limit, known, entries, all, ordered[i].id, SymbolOf(sinks, known, ordered[i].id))
    ensures forall i :: 0 <= i < |ordered| ==>
              Judged(callees, callers, limit, known, entries, sinks, reach, ordered[i].id)
  {
    hide Transposed, IsVerdict, IsRealFlow, Cap, IsContext, Counted, RealFlows, CountFor, BackwardIds;
    hide LastOf, Owner, CountPairs, AllShown, AllFlows, SinkFlows, AllUsable;
    assert CountPairs(callees, entries, known, limit, sinks, ordered[..0]) == 0 by {
      NoPairs(callees, entries, known, limit, sinks);
    }
    flows, dropped, reach, all := [], 0, reach0, [];
    assert AllFlows(c, known, es, sinks, ordered[..0]) == [] by { NoFlows(c, known, es, sinks); }
    EmptyCap<Flow>(maxFlows);
    NoFlowsAreReal(callees, callers, limit, known, c.files, entries, sinks);
    for k := 0 to |ordered|
      invariant flows == Cap(all, maxFlows) && |flows| + dropped == |all|
      invariant all == AllFlows(c, known, es, sinks, ordered[..k])
      invariant |all| == CountPairs(callees, entries, known, limit, sinks, ordered[..k])
      invariant RealFlows(callees, callers, limit, known, c.files, entries, sinks, all)
      invariant AllSeeded(known, c.groups, c.walks.backward, es, sinks, reach) && Counted(flows, reach)
      invariant forall i :: 0 <= i < k ==>
                  AllShown(callees, limit, known, entries, all, ordered[i].id, SymbolOf(sinks, known, ordered[i].id))
      invariant forall i :: 0 <= i < k ==>
                  Judged(callees, callers, limit, known, entries, sinks, reach, ordered[i].id)
    {
      var id := ordered[k].id;
      assert ordered[k] in ordered;
      LastOfMember(sinks, id);
      var sink := last[id];
      var r0 := reach[id];
      ghost var flows0 := flows;
      var more, r;
      ghost var added;
      flows, more, r, added :=
        JudgeSink(c, known, sink, es, maxFlows, flows, r0, all, callees, callers, limit, entries);
      RealFlowsExtend(callees, callers, limit, known, c.files, entries, sinks, all, added, sink);
      CapExtends(all, added, maxFlows);
      CountedAfter(flows0, flows, reach, id, r);
      forall i | 0 <= i < k + 1
        ensures AllShown(callees, limit, known, entries, all + added, ordered[i].id,
                         SymbolOf(sinks, known, ordered[i].id))
      {
        AllShownInMore(callees, limit, known, entries, all, added, ordered[i].id,
                       SymbolOf(sinks, known, ordered[i].id));
      }
      all := all + added;
      dropped := dropped + more;
      reach := reach[id := r];
      OneMoreSink(callees, entries, limit, c, known, es, sinks, ordered, k, sink, r0.symbol, added);
    }
    assert ordered[..|ordered|] == ordered;
  }

  lemma SinkIsJudged(callees: Adjacency, callers: Adjacency, limit: Option<int>, known: set<Node>,
                     entries: seq<Record>, sinks: seq<Record>, reach: map<Id, Reach>, id: Id)
    requires Judged(callees, callers, limit, known, entries, sinks, reach, id)
    ensures id in reach
  {
  }

  lemma UnboundSink(callees: Adjacency, callers: Adjacency, limit: Option<int>, known: set<Node>,
                    entries: seq<Record>, sinks: seq<Record>, reach: map<Id, Reach>, s: Record)
    requires Judged(callees, callers, limit, known, entries, sinks, reach, s.id) && LastOf(sinks, s.id) == Some(s)
    ensures s.id in reach && (reach[s.id].gap == Unbound <==> s.hint !in known && s.enclosing.None?)
  {
  }

  /** Each flow is a best chain between the symbols its entry and its sink belong to. */
  ghost predicate FlowsConnect(callees: Adjacency, limit: Option<int>, known: set<Node>, entries: seq<Record>,
                               sinks: seq<Record>, flows: seq<Flow>) {
    forall f :: f in flows ==>
      exists e, s, t :: e in entries && e.id == f.entry && BelongsTo(e, known, f.source)
                        && s in sinks && s.id == f.sink && BelongsTo(s, known, t)
                        && IsBest(callees, f.source, t, f.path) && Within(limit, |f.path| - 1)
  }

  /** The flow from entry `e` at `x` to sink `s`. */
  ghost predicate HasFlow(flows: seq<Flow>, e: Record, x: Node, s: Record) {
    exists f :: f in flows && f.entry == e.id && f.source == x && f.sink == s.id
  }

  /** An entry and a sink that belong to connected symbols have a flow. */
  ghost predicate ConnectedHaveFlows(callees: Adjacency, limit: Option<int>, known: set<Node>, entries: seq<Record>,
                                     sinks: seq<Record>, flows: seq<Flow>) {
    forall e, x, s, t ::
      (&& e in entries && BelongsTo(e, known, x)
       && s in sinks && LastOf(sinks, s.id) == Some(s) && BelongsTo(s, known, t)
       && Connected(callees, x, t, limit))
      ==> HasFlow(flows, e, x, s)
  }

  lemma RealFlowsConnect(callees: Adjacency, callers: Adjacency, limit: Option<int>, known: set<Node>,
                         files: set<Node>, entries: seq<Record>, sinks: seq<Record>, flows: seq<Flow>)
    requires RealFlows(callees, callers, limit, known, files, entries, sinks, flows)
    ensures FlowsConnect(callees, limit, known, entries, sinks, flows)
  {
    hide Disagree, Connected;
    forall f | f in flows
      ensures exists e, s, t :: e in entries && e.id == f.entry && BelongsTo(e, known, f.source)
                                && s in sinks && s.id == f.sink && BelongsTo(s, known, t)
                                && IsBest(callees, f.source, t, f.path) && Within(limit, |f.path| - 1)
    {
      LastOfMember(sinks, f.sink);
      var s := LastOf(sinks, f.sink).value;
      var t := Owner(s, known).value;
      var e :| e in entries && e.id == f.entry && Owner(e, known) == Some(f.source);
      OwnerIsBelonging(e, known, f.source);
      OwnerIsBelonging(s, known, t);
    }
  }

  lemma ShownHaveFlows(callees: Adjacency, limit: Option<int>, known: set<Node>, entries: seq<Record>,
                       sinks: seq<Record>, flows: seq<Flow>)
    requires forall s :: s in sinks ==>
               AllShown(callees, limit, known, entries, flows, s.id, SymbolOf(sinks, known, s.id))
    ensures ConnectedHaveFlows(callees, limit, known, entries, sinks, flows)
  {
    hide Connected;
    forall e, x, s, t | e in entries && BelongsTo(e, known, x) && s in sinks && LastOf(sinks, s.id) == Some(s)
                        && BelongsTo(s, known, t) && Connected(callees, x, t, limit)
      ensures HasFlow(flows, e, x, s)
    {
      OwnerIsBelonging(e, known, x);
      OwnerIsBelonging(s, known, t);
      assert Reaches(callees, known, limit, e, t) && Shown(flows, known, e, s.id);
      var i :| 0 <= i < |flows| && flows[i].entry == e.id && flows[i].sink == s.id
               && Owner(e, known) == Some(flows[i].source);
      assert flows[i] in flows;
    }
  }

  /** `build_flow_index`.  `ordered` is the sorted copy of `sinks` that pass three walks. */
  method BuildFlowIndex(callees: Adjacency, callers: Adjacency, known: set<Node>, files: set<Node>,
                        entries: seq<Record>, sinks: seq<Record>, ordered: seq<Record>,
                        maxHops: int, maxFlows: int)
      returns (flows: seq<Flow>, dropped: nat, reach: map<Id, Reach>, ghost c: Context, ghost es: seq<Node>)
    requires SortedAdjacency(callees) && SortedAdjacency(callers) && Transposed(callees, callers)
    requires multiset(ordered) == multiset(sinks)
    ensures c.files == files
    ensures forall s :: s in sinks && Owner(s, known).Some? ==>
              IsContext(callees, callers, Some(maxHops), known, entries, es, Owner(s, known).value, c)
    ensures flows == Cap(AllFlows(c, known, es, sinks, ordered), maxFlows)
    ensures |flows| + dropped == CountPairs(callees, entries, known, Some(maxHops), sinks, ordered)
    ensures |flows| <= maxFlows || flows == []
    ensures dropped > 0 ==> |flows| >= maxFlows
    ensures RealFlows(callees, callers, Some(maxHops), known, files, entries, sinks, flows)
    ensures dropped == 0 ==>
              forall s :: s in sinks ==>
                AllShown(callees, Some(maxHops), known, entries, flows, s.id, SymbolOf(sinks, known, s.id))
    ensures FlowsConnect(callees, Some(maxHops), known, entries, sinks, flows)
    ensures dropped == 0 ==> ConnectedHaveFlows(callees, Some(maxHops), known, entries, sinks, flows)
    ensures forall s :: s in sinks && LastOf(sinks, s.id) == Some(s) ==>
              s.id in reach && (reach[s.id].gap == Unbound <==> s.hint !in known && s.enclosing.None?)
    ensures Counted(flows, reach)
    ensures forall ids {:trigger ListsAll(ids, reach)} :: ListsAll(ids, reach) ==> SumFlowCounts(reach, ids) == |flows|
    ensures forall s :: s in sinks ==>
              Judged(callees, callers, Some(maxHops), known, entries, sinks, reach, s.id)
  {
    hide Transposed, SortedAdjacency, IsVerdict, Cap, IsRealFlow, AllSeeded, IsContext, Judged, AllShown;
    var limit := Some(maxHops);
    var context, symbols := RunPasses(callees, callers, known, files, entries, sinks, limit);
    c, es := context, symbols;
    var reach0, last := SeedReach(context.groups, context.walks.backward, known, symbols, sinks);
    forall s ensures s in ordered <==> s in sinks {
      assert s in multiset(ordered) <==> s in multiset(sinks);
    }
    ghost var all;
    flows, dropped, reach, all :=
      EmitAll(context, known, symbols, sinks, ordered, maxFlows, last, reach0, callees, callers, limit, entries);
    CapSize(all, maxFlows);
    forall s | s in sinks
      ensures Judged(callees, callers, limit, known, entries, sinks, reach, s.id)
      ensures AllShown(callees, limit, known, entries, all, s.id, SymbolOf(sinks, known, s.id))
    {
      assert s in ordered;
      var i :| 0 <= i < |ordered| && ordered[i] == s;
    }
    RealFlowsConnect(callees, callers, limit, known, files, entries, sinks, flows);
    if dropped == 0 {
      ShownHaveFlows(callees, limit, known, entries, sinks, flows);
    }
    forall s | s in sinks && LastOf(sinks, s.id) == Some(s)
      ensures s.id in reach && (reach[s.id].gap == Unbound <==> s.hint !in known && s.enclosing.None?)
    {
      UnboundSink(callees, callers, limit, known, entries, sinks, reach, s);
    }
    forall f | f in flows ensures f.sink in reach {
      LastOfMember(sinks, f.sink);
      var sink := LastOf(sinks, f.sink).value;
      SinkIsJudged(callees, callers, limit, known, entries, sinks, reach, sink.id);
    }
    forall ids | ListsAll(ids, reach) ensures SumFlowCounts(reach, ids) == |flows| {
      FlowCountsAddUp(flows, reach, ids);
    }
  }
}
