/** The call graph as its adjacency tables, and call chains over them.

    A symbol id is an `int`: the program uses strings, and all it needs of them is
    equality and a strict total order. */
module CallGraph {
  import opened Options

  type Node = int
  type Edge = (Node, Node)
  type Adjacency = map<Node, seq<Node>>

  function Neighbours(adj: Adjacency, n: Node): seq<Node> {
    if n in adj then adj[n] else []
  }

  ghost predicate StrictlySorted(s: seq<Node>) {
    forall i, j :: 0 <= i < j < |s| ==> s[i] < s[j]
  }

  ghost predicate SortedAdjacency(adj: Adjacency) {
    forall n :: n in adj ==> StrictlySorted(adj[n])
  }

  ghost predicate EdgeLess(a: Edge, b: Edge) {
    a.0 < b.0 || (a.0 == b.0 && a.1 < b.1)
  }

  /** `graph.edges`: one edge per (caller, callee) key, in key order. */
  ghost predicate SortedEdges(edges: seq<Edge>) {
    forall i, j :: 0 <= i < j < |edges| ==> EdgeLess(edges[i], edges[j])
  }

  // ---------------------------------------------------------------- chains

  /** A call chain from `s` to `t`; `|p| - 1` is its number of hops. */
  ghost predicate IsChain(adj: Adjacency, p: seq<Node>, s: Node, t: Node) {
    && |p| > 0 && p[0] == s && p[|p| - 1] == t
    && forall i :: 0 <= i < |p| - 1 ==> p[i + 1] in Neighbours(adj, p[i])
  }

  /** `hops` is allowed by `max_depth`; zero hops always are, even for a negative bound. */
  predicate Within(limit: Option<int>, hops: nat) {
    hops == 0 || limit.None? || hops <= limit.value
  }

  ghost predicate Connected(adj: Adjacency, s: Node, t: Node, limit: Option<int>) {
    exists p :: IsChain(adj, p, s, t) && Within(limit, |p| - 1)
  }

  function Reverse<T>(p: seq<T>): (r: seq<T>)
    ensures |r| == |p|
    ensures forall i :: 0 <= i < |p| ==> r[i] == p[|p| - 1 - i]
  {
    if p == [] then [] else Reverse(p[1..]) + [p[0]]
  }

  lemma ReverseTwice<T>(p: seq<T>)
    ensures Reverse(Reverse(p)) == p
  {
  }

  // ------------------------------------------------------------- transposition

  ghost predicate Transposed(adj: Adjacency, rev: Adjacency) {
    forall u, v :: v in Neighbours(adj, u) <==> u in Neighbours(rev, v)
  }

  lemma ChainReversed(adj: Adjacency, rev: Adjacency, p: seq<Node>, s: Node, t: Node)
    requires Transposed(adj, rev) && IsChain(adj, p, s, t)
    ensures IsChain(rev, Reverse(p), t, s)
  {
    var r := Reverse(p);
    forall i | 0 <= i < |r| - 1 ensures r[i + 1] in Neighbours(rev, r[i]) {
      var k := |p| - 2 - i;
      assert r[i] == p[k + 1] && r[i + 1] == p[k];
      assert p[k + 1] in Neighbours(adj, p[k]);
    }
  }

  lemma ConnectedBothWays(adj: Adjacency, rev: Adjacency, s: Node, t: Node, limit: Option<int>)
    requires Transposed(adj, rev)
    ensures Connected(adj, s, t, limit) <==> Connected(rev, t, s, limit)
  {
    if Connected(adj, s, t, limit) {
      var p :| IsChain(adj, p, s, t) && Within(limit, |p| - 1);
      ChainReversed(adj, rev, p, s, t);
      assert |Reverse(p)| == |p|;
    }
    if Connected(rev, t, s, limit) {
      var p :| IsChain(rev, p, t, s) && Within(limit, |p| - 1);
      ChainReversed(rev, adj, p, t, s);
      assert |Reverse(p)| == |p|;
    }
  }

  // -------------------------------------------- deriving callees and callers

  ghost predicate HasEdge(edges: seq<Edge>, k: nat, u: Node, v: Node)
    requires k <= |edges|
  {
    exists i :: 0 <= i < k && edges[i] == (u, v)
  }

  /** What the first `k` edges contribute. */
  ghost predicate Derived(edges: seq<Edge>, k: nat, callees: Adjacency, callers: Adjacency)
    requires k <= |edges|
  {
    && (forall u, v :: v in Neighbours(callees, u) <==> HasEdge(edges, k, u, v))
    && (forall u, v :: u in Neighbours(callers, v) <==> HasEdge(edges, k, u, v))
    && SortedAdjacency(callees) && SortedAdjacency(callers)
  }

  lemma SortedAppend(s: seq<Node>, x: Node)
    requires StrictlySorted(s) && forall y :: y in s ==> y < x
    ensures StrictlySorted(s + [x])
  {
    forall i, j | 0 <= i < j < |s + [x]| ensures (s + [x])[i] < (s + [x])[j] {
      assert (s + [x])[i] == s[i] && s[i] in s;
    }
  }

  lemma LastEdgeIsLargest(edges: seq<Edge>, k: nat, callees: Adjacency, callers: Adjacency)
    requires SortedEdges(edges) && k < |edges| && Derived(edges, k, callees, callers)
    ensures forall x :: x in Neighbours(callees, edges[k].0) ==> x < edges[k].1
    ensures forall x :: x in Neighbours(callers, edges[k].1) ==> x < edges[k].0
  {
    var (u, v) := edges[k];
    forall x | x in Neighbours(callees, u) ensures x < v {
      assert HasEdge(edges, k, u, x);
      var i :| 0 <= i < k && edges[i] == (u, x);
      assert EdgeLess(edges[i], edges[k]);
    }
    forall x | x in Neighbours(callers, v) ensures x < u {
      assert HasEdge(edges, k, x, v);
      var i :| 0 <= i < k && edges[i] == (x, v);
      assert EdgeLess(edges[i], edges[k]);
    }
  }

  /** Appending to one list of a table keeps every list sorted and adds one edge. */
  lemma AppendNeighbour(adj: Adjacency, u: Node, v: Node)
    requires SortedAdjacency(adj) && forall x :: x in Neighbours(adj, u) ==> x < v
    ensures var adj' := adj[u := Neighbours(adj, u) + [v]];
            && SortedAdjacency(adj')
            && forall a, b :: b in Neighbours(adj', a) <==> b in Neighbours(adj, a) || (a, b) == (u, v)
  {
    SortedAppend(Neighbours(adj, u), v);
  }

  lemma OneMoreEdge(edges: seq<Edge>, k: nat)
    requires k < |edges|
    ensures forall a, b :: HasEdge(edges, k + 1, a, b) <==> HasEdge(edges, k, a, b) || (a, b) == edges[k]
  {
    forall a, b | HasEdge(edges, k + 1, a, b) ensures HasEdge(edges, k, a, b) || (a, b) == edges[k] {
      var i :| 0 <= i < k + 1 && edges[i] == (a, b);
    }
  }

  lemma DeriveStep(edges: seq<Edge>, k: nat, callees: Adjacency, callers: Adjacency)
    requires SortedEdges(edges) && k < |edges| && Derived(edges, k, callees, callers)
    ensures var (u, v) := edges[k];
            Derived(edges, k + 1, callees[u := Neighbours(callees, u) + [v]],
                    callers[v := Neighbours(callers, v) + [u]])
  {
    var (u, v) := edges[k];
    LastEdgeIsLargest(edges, k, callees, callers);
    AppendNeighbour(callees, u, v);
    AppendNeighbour(callers, v, u);
    OneMoreEdge(edges, k);
  }

  /** The tail of `build_call_graph`: both tables come from one sorted edge list. */
  method DeriveAdjacency(edges: seq<Edge>) returns (callees: Adjacency, callers: Adjacency)
    requires SortedEdges(edges)
    ensures SortedAdjacency(callees) && SortedAdjacency(callers)
    ensures forall u, v :: v in Neighbours(callees, u) <==> (u, v) in edges
    ensures Transposed(callees, callers)
  {
    callees, callers := map[], map[];
    for k := 0 to |edges|
      invariant Derived(edges, k, callees, callers)
    {
      DeriveStep(edges, k, callees, callers);
      var (u, v) := edges[k];
      callees := callees[u := Neighbours(callees, u) + [v]];
      callers := callers[v := Neighbours(callers, v) + [u]];
    }
    forall u, v ensures HasEdge(edges, |edges|, u, v) <==> (u, v) in edges {
    }
  }
}
