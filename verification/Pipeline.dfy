/** Where the parts meet: the edge list feeds both passes, and their verdicts feed coverage. */
module Pipeline {
  import opened Options
  import opened CallGraph
  import FlowIndex
  import Coverage

  /** From the sorted edge list of the call graph to the flow index. */
  method IndexFromEdges(edges: seq<Edge>, known: set<Node>, files: set<Node>,
                        entries: seq<FlowIndex.Record>, sinks: seq<FlowIndex.Record>, ordered: seq<FlowIndex.Record>,
                        maxHops: int, maxFlows: int)
      returns (callees: Adjacency, callers: Adjacency,
               flows: seq<FlowIndex.Flow>, dropped: nat, reach: map<FlowIndex.Id, FlowIndex.Reach>,
               ghost c: FlowIndex.Context, ghost es: seq<Node>)
    requires SortedEdges(edges) && multiset(ordered) == multiset(sinks)
    ensures forall u, v :: v in Neighbours(callees, u) <==> (u, v) in edges
    ensures Transposed(callees, callers)
    ensures c.files == files
    ensures forall s :: s in sinks && FlowIndex.Owner(s, known).Some? ==>
              FlowIndex.IsContext(callees, callers, Some(maxHops), known, entries, es,
                                  FlowIndex.Owner(s, known).value, c)
    ensures flows == FlowIndex.Cap(FlowIndex.AllFlows(c, known, es, sinks, ordered), maxFlows)
    ensures |flows| + dropped
            == FlowIndex.CountPairs(callees, entries, known, Some(maxHops), sinks, ordered)
    ensures |flows| <= maxFlows || flows == []
    ensures dropped > 0 ==> |flows| >= maxFlows
    ensures FlowIndex.RealFlows(callees, callers, Some(maxHops), known, files, entries, sinks, flows)
    ensures dropped == 0 ==>
              forall s :: s in sinks ==>
                FlowIndex.AllShown(callees, Some(maxHops), known, entries, flows, s.id,
                                   FlowIndex.SymbolOf(sinks, known, s.id))
    ensures FlowIndex.FlowsConnect(callees, Some(maxHops), known, entries, sinks, flows)
    ensures dropped == 0 ==>
              FlowIndex.ConnectedHaveFlows(callees, Some(maxHops), known, entries, sinks, flows)
    ensures forall s :: s in sinks && FlowIndex.LastOf(sinks, s.id) == Some(s) ==>
              s.id in reach && (reach[s.id].gap == FlowIndex.Unbound <==> s.hint !in known && s.enclosing.None?)
    ensures FlowIndex.Counted(flows, reach)
    ensures forall ids {:trigger FlowIndex.ListsAll(ids, reach)} :: FlowIndex.ListsAll(ids, reach) ==>
              FlowIndex.SumFlowCounts(reach, ids) == |flows|
    ensures forall s :: s in sinks ==>
              FlowIndex.Judged(callees, callers, Some(maxHops), known, entries, sinks, reach, s.id)
  {
    hide FlowIndex.FlowsConnect, FlowIndex.ConnectedHaveFlows;
    hide FlowIndex.IsContext, FlowIndex.AllShown, FlowIndex.Counted, FlowIndex.Judged, FlowIndex.RealFlows;
    var forward, backward := DeriveAdjacency(edges);
    callees, callers := forward, backward;
    flows, dropped, reach, c, es :=
      FlowIndex.BuildFlowIndex(forward, backward, known, files, entries, sinks, ordered, maxHops, maxFlows);
  }

  /** The pass flags `build_flow_index` reflects onto a sink record. */
  ghost predicate Reflects(r: Coverage.Region, verdict: FlowIndex.Reach) {
    && (r.forwardSeen <==> verdict.forwardEntries != {})
    && (r.backwardSeen <==> verdict.backwardEntries != {})
  }

  /** The forward/backward mismatch gap, which coverage grades high, never comes out of the
      flow index: both passes always see the same entries. */
  lemma NoPassMismatchGap(callees: Adjacency, callers: Adjacency, limit: Option<int>, known: set<Node>,
                          entries: seq<FlowIndex.Record>, sinks: seq<FlowIndex.Record>,
                          reach: map<FlowIndex.Id, FlowIndex.Reach>, id: FlowIndex.Id, r: Coverage.Region)
    requires FlowIndex.Judged(callees, callers, limit, known, entries, sinks, reach, id) && Reflects(r, reach[id])
    ensures Coverage.GapOf(Coverage.PassMismatch, r) == None
    ensures reach[id].gap !in {FlowIndex.ForwardOnly, FlowIndex.BackwardOnly}
  {
  }
}
