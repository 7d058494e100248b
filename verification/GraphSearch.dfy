/** The breadth-first searches over the call graph.

    All of them run the same search; `Search` is the ghost view they share: the chain by
    which each symbol was discovered, the discovery order, and how many symbols have been
    expanded.  Discovery order is strictly increasing in shortlex order of those chains,
    and that is what makes each of them the best chain to its symbol. */
module GraphSearch {
  import opened Options
  import opened CallGraph
  import ShortLex

  // ------------------------------------------------------------ specification

  /** No chain from `s` to `t` is shorter, and none as short is lexicographically smaller. */
  ghost predicate IsBest(adj: Adjacency, s: Node, t: Node, p: seq<Node>) {
    && IsChain(adj, p, s, t)
    && forall q :: IsChain(adj, q, s, t) ==> ShortLex.Leq(p, q)
  }

  type Tree = map<Node, (nat, Option<Node>)>

  /** The parent of `n` is in the tree, one hop nearer to the root. */
  predicate Hangs(tree: Tree, n: Node) {
    && n in tree && tree[n].1.Some? && tree[n].1.value in tree
    && tree[n].0 == tree[tree[n].1.value].0 + 1
  }

  predicate TreeShape(tree: Tree, start: Node) {
    && start in tree && tree[start] == (0, None)
    && forall n {:trigger Hangs(tree, n)} :: n in tree && n != start ==> Hangs(tree, n)
  }

  /** The chain that following parent links from `n` spells. */
  function TreePath(tree: Tree, start: Node, n: Node): (p: seq<Node>)
    requires TreeShape(tree, start) && n in tree
    ensures |p| == tree[n].0 + 1 && p[0] == start && p[|p| - 1] == n
    decreases tree[n].0
  {
    if n == start then [start]
    else
      assert Hangs(tree, n);
      TreePath(tree, start, tree[n].1.value) + [n]
  }

  /** The parent links of `t` spell the best chain to it. */
  ghost predicate SpellsBest(adj: Adjacency, start: Node, tree: Tree, t: Node)
    requires TreeShape(tree, start)
  {
    t in tree && IsBest(adj, start, t, TreePath(tree, start, t))
  }

  ghost predicate IsBfsTree(adj: Adjacency, start: Node, limit: Option<int>, tree: Tree) {
    && TreeShape(tree, start)
    && (forall t {:trigger Connected(adj, start, t, limit)} :: t in tree <==> Connected(adj, start, t, limit))
    && (forall t {:trigger SpellsBest(adj, start, tree, t)} :: t in tree ==> SpellsBest(adj, start, tree, t))
  }

  lemma BestIsUnique(adj: Adjacency, s: Node, t: Node, p: seq<Node>, q: seq<Node>)
    requires IsBest(adj, s, t, p) && IsBest(adj, s, t, q)
    ensures p == q
  {
    ShortLex.LeqAntisymmetric(p, q);
  }

  lemma BestIsShortestThenLeast(adj: Adjacency, s: Node, t: Node, p: seq<Node>, q: seq<Node>)
    requires IsBest(adj, s, t, p) && IsChain(adj, q, s, t)
    ensures |p| <= |q|
    ensures |p| == |q| && p != q ==>
              exists k :: 0 <= k < |p| && p[..k] == q[..k] && p[k] < q[k]
  {
    assert ShortLex.Leq(p, q);
    if |p| == |q| && p != q {
      var k := ShortLex.LexLessFirstDifference(p, q);
    }
  }

  /** The specification leaves nothing open: depth, parent and key set are all determined. */
  lemma BfsTreeIsUnique(adj: Adjacency, start: Node, limit: Option<int>, a: Tree, b: Tree)
    requires IsBfsTree(adj, start, limit, a) && IsBfsTree(adj, start, limit, b)
    ensures a == b
  {
    forall t | t in a ensures t in b && a[t] == b[t] {
      assert Connected(adj, start, t, limit);
      assert SpellsBest(adj, start, a, t) && SpellsBest(adj, start, b, t);
      var p, q := TreePath(a, start, t), TreePath(b, start, t);
      BestIsUnique(adj, start, t, p, q);
      if t != start {
        assert Hangs(a, t) && Hangs(b, t);
        assert p[|p| - 2] == a[t].1.value && q[|q| - 2] == b[t].1.value;
      }
    }
    forall t | t in b ensures t in a {
      assert Connected(adj, start, t, limit);
    }
  }

  // ------------------------------------------------------------- ghost search

  type Paths = map<Node, seq<Node>>

  datatype Search = Search(paths: Paths, order: seq<Node>, done: nat)

  predicate CanExpand(limit: Option<int>, hops: nat) {
    limit.None? || hops < limit.value
  }

  ghost predicate Listed(order: seq<Node>, n: Node) {
    exists i :: 0 <= i < |order| && order[i] == n
  }

  ghost predicate Before(paths: Paths, order: seq<Node>, i: int, k: int) {
    && 0 <= i < |order| && 0 <= k < |order| && order[i] in paths && order[k] in paths
    && ShortLex.Less(paths[order[i]], paths[order[k]])
  }

  ghost predicate Ordered(s: Search, start: Node) {
    && s.done <= |s.order| && |s.order| > 0 && s.order[0] == start
    && start in s.paths && s.paths[start] == [start]
    && (forall i :: 0 <= i < |s.order| ==> s.order[i] in s.paths)
    && (forall n {:trigger Listed(s.order, n)} :: n in s.paths ==> Listed(s.order, n))
    && (forall i, k {:trigger Before(s.paths, s.order, i, k)} :: 0 <= i < k < |s.order| ==>
          Before(s.paths, s.order, i, k))
  }

  ghost predicate Grounded(adj: Adjacency, start: Node, limit: Option<int>, paths: Paths, n: Node) {
    n in paths && IsChain(adj, paths[n], start, n) && Within(limit, |paths[n]| - 1)
  }

  ghost predicate Chains(adj: Adjacency, start: Node, limit: Option<int>, s: Search) {
    forall n {:trigger Grounded(adj, start, limit, s.paths, n)} :: n in s.paths ==>
      Grounded(adj, start, limit, s.paths, n)
  }

  /** `n` was discovered while expanding the symbol at position `p`; the symbol at position
      `done` has had its first `j` neighbours looked at. */
  ghost predicate DiscoveredFrom(adj: Adjacency, s: Search, j: nat, p: int, n: Node) {
    && 0 <= p < |s.order| && s.order[p] in s.paths && n in s.paths
    && s.paths[n] == s.paths[s.order[p]] + [n]
    && (p < s.done || (p == s.done && j <= |Neighbours(adj, s.order[p])| && n in Neighbours(adj, s.order[p])[..j]))
  }

  ghost predicate HasParent(adj: Adjacency, s: Search, j: nat, n: Node) {
    exists p :: DiscoveredFrom(adj, s, j, p, n)
  }

  ghost predicate Covered(paths: Paths, u: Node, v: Node) {
    u in paths && v in paths && ShortLex.Leq(paths[v], paths[u] + [v])
  }

  ghost predicate Expanded(adj: Adjacency, limit: Option<int>, paths: Paths, u: Node) {
    u in paths && |paths[u]| > 0 &&
    (CanExpand(limit, |paths[u]| - 1) ==>
      forall v {:trigger Covered(paths, u, v)} :: v in Neighbours(adj, u) ==> Covered(paths, u, v))
  }

  ghost predicate Inv(adj: Adjacency, start: Node, limit: Option<int>, s: Search, j: nat) {
    && Ordered(s, start) && Chains(adj, start, limit, s)
    && (forall n {:trigger HasParent(adj, s, j, n)} :: n in s.paths && n != start ==> HasParent(adj, s, j, n))
    && (forall i {:trigger Expanded(adj, limit, s.paths, s.order[i])} :: 0 <= i < s.done ==>
          Expanded(adj, limit, s.paths, s.order[i]))
    && (if s.done == |s.order| then j == 0
        else j <= |Neighbours(adj, s.order[s.done])|
             && forall x :: 0 <= x < j ==> Covered(s.paths, s.order[s.done], Neighbours(adj, s.order[s.done])[x]))
  }

  function Initial(start: Node): Search {
    Search(map[start := [start]], [start], 0)
  }

  ghost function Universe(adj: Adjacency, start: Node): set<Node> {
    {start} + set u, v | u in adj && v in adj[u] :: v
  }

  lemma InitialInv(adj: Adjacency, start: Node, limit: Option<int>)
    ensures Inv(adj, start, limit, Initial(start), 0)
    ensures start in Universe(adj, start)
  {
  }

  /** While expanding `u`, any chain found earlier is at most `u`'s chain plus one hop. */
  lemma EarlierChainIsLess(adj: Adjacency, start: Node, limit: Option<int>, s: Search, j: nat, n: Node)
    requires SortedAdjacency(adj) && Inv(adj, start, limit, s, j) && s.done < |s.order|
    requires j < |Neighbours(adj, s.order[s.done])| && n in s.paths
    ensures var u := s.order[s.done]; var v := Neighbours(adj, u)[j];
            ShortLex.Less(s.paths[n], s.paths[u] + [v])
  {
    var u := s.order[s.done];
    var v := Neighbours(adj, u)[j];
    if n != start {
      assert HasParent(adj, s, j, n);
      var p :| DiscoveredFrom(adj, s, j, p, n);
      if p < s.done {
        assert Before(s.paths, s.order, p, s.done);
        ShortLex.LessAppend(s.paths[s.order[p]], s.paths[u], n, v);
      } else {
        ShortLex.LessLast(s.paths[u], n, v);
      }
    } else {
      assert Grounded(adj, start, limit, s.paths, u);
    }
  }

  lemma SkipNeighbour(adj: Adjacency, start: Node, limit: Option<int>, s: Search, j: nat)
    requires SortedAdjacency(adj) && Inv(adj, start, limit, s, j) && s.done < |s.order|
    requires j < |Neighbours(adj, s.order[s.done])|
    requires Neighbours(adj, s.order[s.done])[j] in s.paths
    ensures Inv(adj, start, limit, s, j + 1)
  {
    var u := s.order[s.done];
    EarlierChainIsLess(adj, start, limit, s, j, Neighbours(adj, u)[j]);
    forall n | n in s.paths && n != start ensures HasParent(adj, s, j + 1, n) {
      assert HasParent(adj, s, j, n);
      var p :| DiscoveredFrom(adj, s, j, p, n);
      assert DiscoveredFrom(adj, s, j + 1, p, n);
    }
  }

  function Discovered(s: Search, u: Node, v: Node): Search
    requires u in s.paths
  {
    Search(s.paths[v := s.paths[u] + [v]], s.order + [v], s.done)
  }

  lemma DiscoverOrdered(adj: Adjacency, start: Node, limit: Option<int>, s: Search, j: nat)
    requires SortedAdjacency(adj) && Inv(adj, start, limit, s, j) && s.done < |s.order|
    requires j < |Neighbours(adj, s.order[s.done])|
    requires Neighbours(adj, s.order[s.done])[j] !in s.paths
    ensures Ordered(Discovered(s, s.order[s.done], Neighbours(adj, s.order[s.done])[j]), start)
  {
    var u := s.order[s.done];
    var v := Neighbours(adj, u)[j];
    var s' := Discovered(s, u, v);
    forall i, k | 0 <= i < k < |s'.order| ensures Before(s'.paths, s'.order, i, k) {
      if k == |s.order| {
        EarlierChainIsLess(adj, start, limit, s, j, s.order[i]);
      } else {
        assert Before(s.paths, s.order, i, k);
      }
    }
    forall n | n in s'.paths ensures Listed(s'.order, n) {
      if n == v {
        assert s'.order[|s.order|] == v;
      } else {
        assert Listed(s.order, n);
        var i :| 0 <= i < |s.order| && s.order[i] == n;
        assert s'.order[i] == n;
      }
    }
  }

  lemma DiscoverParents(adj: Adjacency, start: Node, limit: Option<int>, s: Search, j: nat, n: Node)
    requires Inv(adj, start, limit, s, j) && s.done < |s.order| && j < |Neighbours(adj, s.order[s.done])|
    requires Neighbours(adj, s.order[s.done])[j] !in s.paths
    requires n != start && (n in s.paths || n == Neighbours(adj, s.order[s.done])[j])
    ensures HasParent(adj, Discovered(s, s.order[s.done], Neighbours(adj, s.order[s.done])[j]), j + 1, n)
  {
    var u := s.order[s.done];
    var v := Neighbours(adj, u)[j];
    var s' := Discovered(s, u, v);
    if n == v {
      assert Neighbours(adj, u)[..j + 1][j] == v;
      assert DiscoveredFrom(adj, s', j + 1, s.done, n);
    } else {
      assert HasParent(adj, s, j, n);
      var p :| DiscoveredFrom(adj, s, j, p, n);
      assert DiscoveredFrom(adj, s', j + 1, p, n);
    }
  }

  lemma DiscoverChains(adj: Adjacency, start: Node, limit: Option<int>, s: Search, u: Node, v: Node)
    requires Chains(adj, start, limit, s) && u in s.paths && v !in s.paths && v in Neighbours(adj, u)
    requires |s.paths[u]| > 0 && CanExpand(limit, |s.paths[u]| - 1)
    ensures Chains(adj, start, limit, Discovered(s, u, v))
  {
    var s' := Discovered(s, u, v);
    forall n | n in s'.paths ensures Grounded(adj, start, limit, s'.paths, n) {
      assert Grounded(adj, start, limit, s.paths, if n == v then u else n);
    }
  }

  lemma ExpandedPersists(adj: Adjacency, limit: Option<int>, s: Search, u: Node, v: Node, w: Node)
    requires Expanded(adj, limit, s.paths, w) && u in s.paths && v !in s.paths
    ensures Expanded(adj, limit, Discovered(s, u, v).paths, w)
  {
    var s' := Discovered(s, u, v);
    forall x | x in Neighbours(adj, w) && CanExpand(limit, |s.paths[w]| - 1) ensures Covered(s'.paths, w, x) {
      assert Covered(s.paths, w, x);
    }
  }

  lemma DiscoverNeighbour(adj: Adjacency, start: Node, limit: Option<int>, s: Search, j: nat)
    requires SortedAdjacency(adj) && Inv(adj, start, limit, s, j) && s.done < |s.order|
    requires j < |Neighbours(adj, s.order[s.done])|
    requires |s.paths[s.order[s.done]]| > 0 && CanExpand(limit, |s.paths[s.order[s.done]]| - 1)
    requires Neighbours(adj, s.order[s.done])[j] !in s.paths
    ensures Inv(adj, start, limit, Discovered(s, s.order[s.done], Neighbours(adj, s.order[s.done])[j]), j + 1)
  {
    var u := s.order[s.done];
    var v := Neighbours(adj, u)[j];
    var s' := Discovered(s, u, v);
    DiscoverOrdered(adj, start, limit, s, j);
    DiscoverChains(adj, start, limit, s, u, v);
    forall n | n in s'.paths && n != start ensures HasParent(adj, s', j + 1, n) {
      DiscoverParents(adj, start, limit, s, j, n);
    }
    forall i | 0 <= i < s'.done ensures Expanded(adj, limit, s'.paths, s'.order[i]) {
      assert Expanded(adj, limit, s.paths, s.order[i]);
      ExpandedPersists(adj, limit, s, u, v, s.order[i]);
    }
    forall x | 0 <= x < j + 1 ensures Covered(s'.paths, u, Neighbours(adj, u)[x]) {
      if x < j {
        assert Covered(s.paths, u, Neighbours(adj, u)[x]);
      }
    }
  }

  lemma NextNode(adj: Adjacency, start: Node, limit: Option<int>, s: Search, j: nat)
    requires Inv(adj, start, limit, s, j) && s.done < |s.order|
    requires |s.paths[s.order[s.done]]| > 0
    requires j == |Neighbours(adj, s.order[s.done])| || !CanExpand(limit, |s.paths[s.order[s.done]]| - 1)
    ensures Inv(adj, start, limit, s.(done := s.done + 1), 0)
  {
    var s' := s.(done := s.done + 1);
    forall n | n in s'.paths && n != start ensures HasParent(adj, s', 0, n) {
      assert HasParent(adj, s, j, n);
      var p :| DiscoveredFrom(adj, s, j, p, n);
      assert DiscoveredFrom(adj, s', 0, p, n);
    }
    forall i | 0 <= i < s'.done ensures Expanded(adj, limit, s'.paths, s'.order[i]) {
      if i < s.done {
        assert Expanded(adj, limit, s.paths, s.order[i]);
      }
      forall w | w in Neighbours(adj, s.order[i]) && CanExpand(limit, |s.paths[s.order[i]]| - 1)
        ensures Covered(s'.paths, s.order[i], w)
      {
        assert Covered(s.paths, s.order[i], w);
      }
    }
  }

  // ------------------------------------------------------ what a search yields

  /** Every chain within the bound is beaten, or matched, by the recorded one. */
  lemma {:induction false} SearchBeatsChain(adj: Adjacency, start: Node, limit: Option<int>, s: Search, q: seq<Node>)
    requires Inv(adj, start, limit, s, 0) && s.done == |s.order|
    requires |q| > 0 && IsChain(adj, q, start, q[|q| - 1]) && Within(limit, |q| - 1)
    ensures q[|q| - 1] in s.paths && ShortLex.Leq(s.paths[q[|q| - 1]], q)
    decreases |q|
  {
    if |q| > 1 {
      var q' := q[..|q| - 1];
      var u, v := q'[|q'| - 1], q[|q| - 1];
      assert q == q' + [v];
      SearchBeatsChain(adj, start, limit, s, q');
      assert v in Neighbours(adj, u) by { assert q[|q| - 2 + 1] in Neighbours(adj, q[|q| - 2]); }
      assert Listed(s.order, u);
      var i :| 0 <= i < |s.order| && s.order[i] == u;
      assert Expanded(adj, limit, s.paths, s.order[i]);
      assert Covered(s.paths, u, v);
      ShortLex.LeqAppend(s.paths[u], q', v);
      ShortLex.LeqTransitive(s.paths[v], s.paths[u] + [v], q);
    }
  }

  lemma SearchIsComplete(adj: Adjacency, start: Node, limit: Option<int>, s: Search)
    requires Inv(adj, start, limit, s, 0) && s.done == |s.order|
    ensures forall t :: t in s.paths <==> Connected(adj, start, t, limit)
    ensures forall t :: t in s.paths ==> IsBest(adj, start, t, s.paths[t])
  {
    forall t | t in s.paths ensures Grounded(adj, start, limit, s.paths, t) {
    }
    forall t ensures t in s.paths <==> Connected(adj, start, t, limit) {
      assert t in s.paths ==> Grounded(adj, start, limit, s.paths, t);
      if Connected(adj, start, t, limit) {
        var q :| IsChain(adj, q, start, t) && Within(limit, |q| - 1);
        SearchBeatsChain(adj, start, limit, s, q);
      }
    }
    forall t, q | t in s.paths && IsChain(adj, q, start, t) ensures ShortLex.Leq(s.paths[t], q) {
      assert Grounded(adj, start, limit, s.paths, t);
      if |q| <= |s.paths[t]| {
        SearchBeatsChain(adj, start, limit, s, q);
      }
    }
  }

  // -------------------------------------------------------------- the BFS tree

  function ParentOf(p: seq<Node>): Option<Node> {
    if |p| < 2 then None else Some(p[|p| - 2])
  }

  ghost predicate TreeOf(tree: Tree, paths: Paths) {
    && tree.Keys == paths.Keys
    && forall n :: n in tree ==> |paths[n]| > 0 && tree[n] == (|paths[n]| - 1, ParentOf(paths[n]))
  }

  /** Each recorded chain extends the recorded chain of its last-but-one symbol. */
  ghost predicate Linked(paths: Paths, start: Node) {
    && start in paths && paths[start] == [start]
    && forall n :: n in paths && n != start ==>
         ParentOf(paths[n]).Some? && ParentOf(paths[n]).value in paths
         && paths[n] == paths[ParentOf(paths[n]).value] + [n]
  }

  lemma ChainsAreLinked(adj: Adjacency, start: Node, limit: Option<int>, s: Search, j: nat)
    requires Inv(adj, start, limit, s, j)
    ensures Linked(s.paths, start)
  {
    forall n | n in s.paths && n != start
      ensures ParentOf(s.paths[n]).Some? && ParentOf(s.paths[n]).value in s.paths
      ensures s.paths[n] == s.paths[ParentOf(s.paths[n]).value] + [n]
    {
      assert HasParent(adj, s, j, n);
      var p :| DiscoveredFrom(adj, s, j, p, n);
      assert Grounded(adj, start, limit, s.paths, s.order[p]);
      assert ParentOf(s.paths[n]) == Some(s.order[p]);
    }
  }

  lemma ShapeOfLinked(tree: Tree, start: Node, s: Search)
    requires Linked(s.paths, start) && TreeOf(tree, s.paths)
    ensures TreeShape(tree, start)
  {
    forall n | n in tree && n != start
      ensures tree[n].1.Some? && tree[n].1.value in tree && tree[n].0 == tree[tree[n].1.value].0 + 1
    {
      var parent := ParentOf(s.paths[n]).value;
      assert s.paths[n] == s.paths[parent] + [n];
      assert tree[parent].0 == |s.paths[parent]| - 1;
    }
  }

  lemma {:induction false} TreePathIsDiscovery(tree: Tree, start: Node, s: Search, n: Node)
    requires TreeShape(tree, start) && TreeOf(tree, s.paths) && n in tree
    requires Linked(s.paths, start)
    ensures TreePath(tree, start, n) == s.paths[n]
    decreases tree[n].0
  {
    if n != start {
      TreePathIsDiscovery(tree, start, s, tree[n].1.value);
    }
  }

  lemma TreeOfSearch(adj: Adjacency, start: Node, limit: Option<int>, s: Search, j: nat, tree: Tree)
    requires Inv(adj, start, limit, s, j) && TreeOf(tree, s.paths)
    ensures TreeShape(tree, start)
    ensures forall n :: n in tree ==> TreePath(tree, start, n) == s.paths[n]
  {
    ChainsAreLinked(adj, start, limit, s, j);
    ShapeOfLinked(tree, start, s);
    forall n | n in tree ensures TreePath(tree, start, n) == s.paths[n] {
      TreePathIsDiscovery(tree, start, s, n);
    }
  }

  lemma NeighbourInUniverse(adj: Adjacency, start: Node, u: Node, j: nat)
    requires j < |Neighbours(adj, u)|
    ensures Neighbours(adj, u)[j] in Universe(adj, start)
  {
    var v := adj[u][j];
    assert u in adj && v in adj[u];
  }

  type Parents = map<Node, Option<Node>>

  ghost predicate ParentsOf(parents: Parents, paths: Paths) {
    && parents.Keys == paths.Keys
    && forall n {:trigger parents[n]} :: n in parents ==> |paths[n]| > 0 && parents[n] == ParentOf(paths[n])
  }

  /** The symbol about to be expanded has a recorded chain that ends in it. */
  lemma Front(adj: Adjacency, start: Node, limit: Option<int>, s: Search, j: nat)
    requires Inv(adj, start, limit, s, j) && s.done < |s.order|
    ensures forall parents: Parents :: ParentsOf(parents, s.paths) ==> s.order[s.done] in parents
    ensures forall tree: Tree :: TreeOf(tree, s.paths) ==>
              s.order[s.done] in tree && tree[s.order[s.done]].0 == |s.paths[s.order[s.done]]| - 1
    ensures var u := s.order[s.done];
            u in s.paths && |s.paths[u]| > 0 && s.paths[u][|s.paths[u]| - 1] == u
  {
    assert Grounded(adj, start, limit, s.paths, s.order[s.done]);
  }

  lemma RecordNeighbour(adj: Adjacency, start: Node, limit: Option<int>, s: Search, j: nat,
                        tree: Tree, queue: seq<Node>)
    requires SortedAdjacency(adj) && Inv(adj, start, limit, s, j) && TreeOf(tree, s.paths)
    requires s.done < |s.order| && s.order[s.done + 1..] == queue && tree.Keys <= Universe(adj, start)
    requires s.order[s.done] in tree && CanExpand(limit, tree[s.order[s.done]].0)
    requires j < |Neighbours(adj, s.order[s.done])| && Neighbours(adj, s.order[s.done])[j] !in tree
    ensures var u := s.order[s.done];
            var v := Neighbours(adj, u)[j];
            var s', tree' := Discovered(s, u, v), tree[v := (tree[u].0 + 1, Some(u))];
            && Inv(adj, start, limit, s', j + 1) && TreeOf(tree', s'.paths)
            && s'.order[s'.done] == u && s'.order[s'.done + 1..] == queue + [v]
            && u in tree' && tree'[u] == tree[u] && v in tree'
            && tree.Keys <= tree'.Keys <= Universe(adj, start)
  {
    hide Inv, Universe, Neighbours;
    var u := s.order[s.done];
    Front(adj, start, limit, s, j);
    DiscoverNeighbour(adj, start, limit, s, j);
    NeighbourInUniverse(adj, start, u, j);
  }

  lemma SearchYieldsTree(adj: Adjacency, start: Node, limit: Option<int>, s: Search, tree: Tree)
    requires Inv(adj, start, limit, s, 0) && s.done == |s.order| && TreeOf(tree, s.paths)
    ensures IsBfsTree(adj, start, limit, tree)
  {
    SearchIsComplete(adj, start, limit, s);
    TreeOfSearch(adj, start, limit, s, 0, tree);
  }

  lemma InitialTree(start: Node)
    ensures TreeOf(map[start := (0, None)], Initial(start).paths)
  {
  }

  /** The inner loop of `_bfs_tree`: record and enqueue the unseen neighbours of `node`. */
  method ScanNeighbours(adj: Adjacency, ghost start: Node, ghost limit: Option<int>, ghost s0: Search,
                        node: Node, tree0: Tree, queue0: seq<Node>)
      returns (tree: Tree, queue: seq<Node>, ghost s: Search)
    requires SortedAdjacency(adj) && Inv(adj, start, limit, s0, 0) && TreeOf(tree0, s0.paths)
    requires s0.done < |s0.order| && s0.order[s0.done] == node && s0.order[s0.done + 1..] == queue0
    requires node in tree0 && CanExpand(limit, tree0[node].0) && tree0.Keys <= Universe(adj, start)
    ensures Inv(adj, start, limit, s, 0) && TreeOf(tree, s.paths) && s.done == s0.done + 1
    ensures s.done <= |s.order| && s.order[s.done..] == queue
    ensures tree0.Keys <= tree.Keys <= Universe(adj, start)
    ensures tree.Keys == tree0.Keys ==> queue == queue0
  {
    hide Inv, IsChain, Universe, Within, ParentOf;
    tree, queue, s := tree0, queue0, s0;
    var depth := tree[node].0;
    var ns := Neighbours(adj, node);
    for j := 0 to |ns|
      invariant Inv(adj, start, limit, s, j) && TreeOf(tree, s.paths) && s.done == s0.done
      invariant s.done < |s.order| && s.order[s.done] == node && s.order[s.done + 1..] == queue
      invariant node in tree && tree[node].0 == depth
      invariant tree0.Keys <= tree.Keys <= Universe(adj, start)
      invariant tree.Keys == tree0.Keys ==> queue == queue0
    {
      var neighbour := ns[j];
      if neighbour in tree {
        SkipNeighbour(adj, start, limit, s, j);
      } else {
        RecordNeighbour(adj, start, limit, s, j, tree, queue);
        s := Discovered(s, node, neighbour);
        tree := tree[neighbour := (depth + 1, Some(node))];
        queue := queue + [neighbour];
      }
    }
    Front(adj, start, limit, s, |ns|);
    NextNode(adj, start, limit, s, |ns|);
    s := s.(done := s.done + 1);
  }

  /** `_bfs_tree`: depth and parent of everything reachable within `limit` hops. */
  method BfsTree(adj: Adjacency, start: Node, limit: Option<int>) returns (tree: Tree)
    requires SortedAdjacency(adj)
    ensures IsBfsTree(adj, start, limit, tree)
  {
    hide Inv, TreeOf, IsBfsTree;
    tree := map[start := (0, None)];
    var queue := [start];
    ghost var s := Initial(start);
    InitialInv(adj, start, limit);
    InitialTree(start);
    while queue != []
      invariant Inv(adj, start, limit, s, 0) && TreeOf(tree, s.paths)
      invariant s.done <= |s.order| && queue == s.order[s.done..]
      invariant tree.Keys <= Universe(adj, start)
      decreases Universe(adj, start) - tree.Keys, |queue|
    {
      var node := queue[0];
      queue := queue[1..];
      assert node == s.order[s.done] && queue == s.order[s.done + 1..];
      Front(adj, start, limit, s, 0);
      var depth := tree[node].0;
      if limit.Some? && depth >= limit.value {
        NextNode(adj, start, limit, s, 0);
        s := s.(done := s.done + 1);
        continue;
      }
      tree, queue, s := ScanNeighbours(adj, start, limit, s, node, tree, queue);
    }
    SearchYieldsTree(adj, start, limit, s, tree);
  }

  lemma ChainOfParent(tree: Tree, start: Node, n: Node)
    requires TreeShape(tree, start) && n in tree
    ensures n == start <==> tree[n].1.None?
    ensures tree[n].1.Some? ==>
              Hangs(tree, n) && TreePath(tree, start, n) == TreePath(tree, start, tree[n].1.value) + [n]
  {
    assert n != start ==> Hangs(tree, n);
  }

  /** `path_from_tree`: the chain read back off the parent links, or nothing. */
  method PathFromTree(tree: Tree, ghost start: Node, node: Node) returns (path: seq<Node>)
    requires TreeShape(tree, start)
    ensures path == if node in tree then TreePath(tree, start, node) else []
  {
    hide TreeShape;
    if node !in tree {
      return [];
    }
    path := [node];
    var cursor := node;
    var parent := tree[node].1;
    ghost var full := TreePath(tree, start, node);
    hide TreePath;
    while parent.Some?
      invariant cursor in tree && parent == tree[cursor].1 && 0 < |path| <= |full|
      invariant full[..|full| + 1 - |path|] == TreePath(tree, start, cursor)
      invariant forall i :: 0 <= i < |path| ==> path[i] == full[|full| - 1 - i]
      decreases tree[cursor].0
    {
      ChainOfParent(tree, start, cursor);
      var next := parent.value;
      assert full[..|full| - |path|] == TreePath(tree, start, next);
      path := path + [next];
      cursor := next;
      parent := tree[cursor].1;
    }
    ChainOfParent(tree, start, cursor);
    path := Reverse(path);
  }

  // ------------------------------------------------------------ call closure

  /** The queue of `_closure` holds the unexpanded symbols, each with its depth. */
  ghost predicate Levels(s: Search, from: nat, queue: seq<(Node, nat)>) {
    && from <= |s.order| && |queue| == |s.order| - from
    && forall i :: 0 <= i < |queue| ==>
         && queue[i].0 == s.order[from + i]
         && queue[i].0 in s.paths && queue[i].1 == |s.paths[queue[i].0]| - 1
  }

  lemma EnqueueCallee(adj: Adjacency, root: Node, depth: int, s: Search, j: nat, seen: set<Node>,
                      queue: seq<(Node, nat)>, level: nat)
    requires SortedAdjacency(adj) && Inv(adj, root, Some(depth), s, j) && seen == s.paths.Keys
    requires s.done < |s.order| && Levels(s, s.done + 1, queue) && seen <= Universe(adj, root)
    requires s.order[s.done] in seen && level == |s.paths[s.order[s.done]]| - 1 && level < depth
    requires j < |Neighbours(adj, s.order[s.done])| && Neighbours(adj, s.order[s.done])[j] !in seen
    ensures var u := s.order[s.done];
            var v := Neighbours(adj, u)[j];
            var s' := Discovered(s, u, v);
            && Inv(adj, root, Some(depth), s', j + 1) && seen + {v} == s'.paths.Keys
            && s'.order[s'.done] == u && level == |s'.paths[u]| - 1
            && Levels(s', s'.done + 1, queue + [(v, level + 1)])
            && seen + {v} <= Universe(adj, root)
  {
    hide Inv, Universe, Neighbours;
    Front(adj, root, Some(depth), s, j);
    DiscoverNeighbour(adj, root, Some(depth), s, j);
    NeighbourInUniverse(adj, root, s.order[s.done], j);
  }

  method ScanCallees(adj: Adjacency, ghost root: Node, depth: int, ghost s0: Search, node: Node, level: nat,
                     seen0: set<Node>, queue0: seq<(Node, nat)>)
      returns (seen: set<Node>, queue: seq<(Node, nat)>, ghost s: Search)
    requires SortedAdjacency(adj) && Inv(adj, root, Some(depth), s0, 0) && seen0 == s0.paths.Keys
    requires s0.done < |s0.order| && s0.order[s0.done] == node && Levels(s0, s0.done + 1, queue0)
    requires node in seen0 && level == |s0.paths[node]| - 1 && level < depth && seen0 <= Universe(adj, root)
    ensures Inv(adj, root, Some(depth), s, 0) && seen == s.paths.Keys && Levels(s, s.done, queue)
    ensures seen0 <= seen <= Universe(adj, root)
    ensures seen == seen0 ==> queue == queue0
  {
    hide Inv, IsChain;
    seen, queue, s := seen0, queue0, s0;
    var ns := Neighbours(adj, node);
    for j := 0 to |ns|
      invariant Inv(adj, root, Some(depth), s, j) && seen == s.paths.Keys && s.done == s0.done
      invariant s.done < |s.order| && s.order[s.done] == node && node in seen && level == |s.paths[node]| - 1
      invariant Levels(s, s.done + 1, queue)
      invariant seen0 <= seen <= Universe(adj, root)
      invariant seen == seen0 ==> queue == queue0
    {
      var callee := ns[j];
      if callee in seen {
        SkipNeighbour(adj, root, Some(depth), s, j);
      } else {
        EnqueueCallee(adj, root, depth, s, j, seen, queue, level);
        s := Discovered(s, node, callee);
        seen := seen + {callee};
        queue := queue + [(callee, level + 1)];
      }
    }
    NextNode(adj, root, Some(depth), s, |ns|);
    s := s.(done := s.done + 1);
  }

  /** `_closure`: the same search again, keeping only which symbols were seen. */
  method Closure(adj: Adjacency, root: Node, depth: int) returns (seen: set<Node>)
    requires SortedAdjacency(adj)
    ensures forall n :: n in seen <==> Connected(adj, root, n, Some(depth))
  {
    hide Inv, IsBest, IsChain;
    seen := {root};
    var queue: seq<(Node, nat)> := [(root, 0)];
    ghost var s := Initial(root);
    InitialInv(adj, root, Some(depth));
    while queue != []
      invariant Inv(adj, root, Some(depth), s, 0) && seen == s.paths.Keys
      invariant Levels(s, s.done, queue)
      invariant seen <= Universe(adj, root)
      decreases Universe(adj, root) - seen, |queue|
    {
      var (node, level) := queue[0];
      queue := queue[1..];
      assert node == s.order[s.done] && Levels(s, s.done + 1, queue);
      Front(adj, root, Some(depth), s, 0);
      if level >= depth {
        NextNode(adj, root, Some(depth), s, 0);
        s := s.(done := s.done + 1);
        continue;
      }
      seen, queue, s := ScanCallees(adj, root, depth, s, node, level, seen, queue);
    }
    SearchIsComplete(adj, root, Some(depth), s);
  }

  /** The two traversals agree: `_closure` is the key set of the depth-bounded tree. */
  lemma ClosureIsTreeDomain(adj: Adjacency, root: Node, depth: int, seen: set<Node>, tree: Tree)
    requires forall n :: n in seen <==> Connected(adj, root, n, Some(depth))
    requires IsBfsTree(adj, root, Some(depth), tree)
    ensures seen == tree.Keys
  {
    forall n ensures n in seen <==> n in tree.Keys {
      assert n in tree <==> Connected(adj, root, n, Some(depth));
    }
  }

  // -------------------------------------------------------- early-exit search

  ghost predicate IsShortestPathResult(adj: Adjacency, start: Node, goal: Node, limit: Option<int>,
                                       r: Option<seq<Node>>) {
    match r
    case None => !Connected(adj, start, goal, limit)
    case Some(p) => Connected(adj, start, goal, limit) && IsBest(adj, start, goal, p)
  }

  /** Anything below the chain of the symbol being expanded has already been expanded. */
  lemma {:induction false} SmallerChainsAreExpanded(adj: Adjacency, start: Node, limit: Option<int>, s: Search,
                                                    j: nat, q: seq<Node>) returns (i: nat)
    requires Inv(adj, start, limit, s, j) && s.done < |s.order|
    requires |q| > 0 && IsChain(adj, q, start, q[|q| - 1])
    requires ShortLex.Less(q, s.paths[s.order[s.done]])
    ensures i < s.done && s.order[i] == q[|q| - 1] && q[|q| - 1] in s.paths && ShortLex.Leq(s.paths[s.order[i]], q)
    decreases |q|
  {
    var cur := s.order[s.done];
    var x := q[|q| - 1];
    assert Grounded(adj, start, limit, s.paths, cur);
    if |q| > 1 {
      var q' := q[..|q| - 1];
      assert q == q' + [x];
      var k := SmallerChainsAreExpanded(adj, start, limit, s, j, q');
      assert x in Neighbours(adj, s.order[k]) by { assert q[|q| - 2 + 1] in Neighbours(adj, q[|q| - 2]); }
      assert Expanded(adj, limit, s.paths, s.order[k]);
      assert Covered(s.paths, s.order[k], x);
      ShortLex.LeqAppend(s.paths[s.order[k]], q', x);
      ShortLex.LeqTransitive(s.paths[x], s.paths[s.order[k]] + [x], q);
    }
    assert Listed(s.order, x);
    i :| 0 <= i < |s.order| && s.order[i] == x;
    if i >= s.done {
      assert i > s.done ==> Before(s.paths, s.order, s.done, i);
      ShortLex.LeqTransitive(s.paths[cur], s.paths[x], q);
      ShortLex.LessIsNotLeq(q, s.paths[cur]);
    }
  }

  lemma ExpandedCovers(adj: Adjacency, limit: Option<int>, paths: Paths, u: Node, v: Node)
    requires Expanded(adj, limit, paths, u) && CanExpand(limit, |paths[u]| - 1) && v in Neighbours(adj, u)
    ensures v in paths
  {
    assert Covered(paths, u, v);
  }

  /** Stopping at the first sight of `goal` already yields the best chain. */
  lemma EarlyExitIsBest(adj: Adjacency, start: Node, limit: Option<int>, s: Search, j: nat, goal: Node)
    requires Inv(adj, start, limit, s, j) && s.done < |s.order|
    requires j < |Neighbours(adj, s.order[s.done])| && Neighbours(adj, s.order[s.done])[j] == goal
    requires goal !in s.paths
    requires |s.paths[s.order[s.done]]| > 0 && CanExpand(limit, |s.paths[s.order[s.done]]| - 1)
    ensures IsBest(adj, start, goal, s.paths[s.order[s.done]] + [goal])
    ensures Connected(adj, start, goal, limit)
  {
    var cur := s.order[s.done];
    var p := s.paths[cur] + [goal];
    assert Grounded(adj, start, limit, s.paths, cur);
    assert IsChain(adj, p, start, goal) && Within(limit, |p| - 1);
    forall q | IsChain(adj, q, start, goal) ensures ShortLex.Leq(p, q) {
      assert |q| > 1;
      var q' := q[..|q| - 1];
      var u := q'[|q'| - 1];
      assert q == q' + [goal] && IsChain(adj, q', start, u);
      ShortLex.Total(s.paths[cur], q');
      if ShortLex.Less(q', s.paths[cur]) {
        var i := SmallerChainsAreExpanded(adj, start, limit, s, j, q');
        assert q[|q| - 2 + 1] in Neighbours(adj, q[|q| - 2]);
        assert Expanded(adj, limit, s.paths, s.order[i]);
        ExpandedCovers(adj, limit, s.paths, s.order[i], goal);
      } else {
        ShortLex.LeqAppend(s.paths[cur], q', goal);
      }
    }
  }

  lemma LastOfLinked(paths: Paths, start: Node, c: Node)
    requires Linked(paths, start) && c in paths && |paths[c]| > 0
    ensures paths[c][|paths[c]| - 1] == c
    ensures ParentOf(paths[c]).Some? ==>
              && ParentOf(paths[c]).value in paths && |paths[c]| == |paths[ParentOf(paths[c]).value]| + 1
              && forall i :: 0 <= i < |paths[c]| - 1 ==> paths[ParentOf(paths[c]).value][i] == paths[c][i]
    ensures ParentOf(paths[c]).None? ==> |paths[c]| == 1
  {
  }

  /** The depth `shortest_path` recomputes for a queued symbol by walking its parent links. */
  method WalkDepth(parents: Parents, ghost paths: Paths, ghost start: Node, node: Node) returns (depth: nat)
    requires Linked(paths, start) && ParentsOf(parents, paths) && node in parents
    ensures depth == |paths[node]|
  {
    depth := 0;
    var cursor := Some(node);
    while cursor.Some?
      invariant cursor.Some? ==> cursor.value in parents && depth + |paths[cursor.value]| == |paths[node]|
      invariant cursor.None? ==> depth == |paths[node]|
      decreases |paths[node]| - depth
    {
      LastOfLinked(paths, start, cursor.value);
      depth := depth + 1;
      cursor := if cursor.value in parents then parents[cursor.value] else None;
    }
  }

  /** The chain `start .. node, goal` that `shortest_path` spells backwards and reverses. */
  method WalkBack(parents: Parents, ghost paths: Paths, ghost start: Node, node: Node, goal: Node)
      returns (path: seq<Node>)
    requires Linked(paths, start) && ParentsOf(parents, paths) && node in parents
    ensures path == paths[node] + [goal]
  {
    hide Linked, ParentOf;
    path := [goal];
    var cursor := Some(node);
    ghost var full := paths[node] + [goal];
    while cursor.Some?
      invariant cursor.Some? ==> cursor.value in parents && |path| + |paths[cursor.value]| == |full|
                                 && forall i :: 0 <= i < |paths[cursor.value]| ==> full[i] == paths[cursor.value][i]
      invariant cursor.None? ==> |path| == |full|
      invariant |path| <= |full| && forall i :: 0 <= i < |path| ==> path[i] == full[|full| - 1 - i]
      decreases |full| - |path|
    {
      var c := cursor.value;
      LastOfLinked(paths, start, c);
      path := path + [c];
      cursor := if c in parents then parents[c] else None;
    }
    path := Reverse(path);
  }

  lemma StartIsItsOwnChain(adj: Adjacency, start: Node, limit: Option<int>)
    ensures IsShortestPathResult(adj, start, start, limit, Some([start]))
  {
    assert IsChain(adj, [start], start, start) && Within(limit, |[start]| - 1);
    forall q | IsChain(adj, q, start, start) ensures ShortLex.Leq([start], q) {
      assert |q| == 1 ==> q == [start];
    }
  }

  lemma GoalOutOfReach(adj: Adjacency, start: Node, goal: Node, limit: Option<int>, s: Search)
    requires Inv(adj, start, limit, s, 0) && s.done == |s.order| && goal !in s.paths
    ensures IsShortestPathResult(adj, start, goal, limit, None)
  {
    SearchIsComplete(adj, start, limit, s);
  }

  lemma InitialParents(start: Node)
    ensures ParentsOf(map[start := None], Initial(start).paths)
  {
  }

  lemma RecordParent(adj: Adjacency, start: Node, limit: Option<int>, s: Search, j: nat,
                     parents: Parents, queue: seq<Node>)
    requires SortedAdjacency(adj) && Inv(adj, start, limit, s, j) && ParentsOf(parents, s.paths)
    requires s.done < |s.order| && s.order[s.done + 1..] == queue && parents.Keys <= Universe(adj, start)
    requires s.order[s.done] in parents && CanExpand(limit, |s.paths[s.order[s.done]]| - 1)
    requires j < |Neighbours(adj, s.order[s.done])| && Neighbours(adj, s.order[s.done])[j] !in parents
    ensures var u := s.order[s.done];
            var v := Neighbours(adj, u)[j];
            var s', parents' := Discovered(s, u, v), parents[v := Some(u)];
            && Inv(adj, start, limit, s', j + 1) && ParentsOf(parents', s'.paths)
            && s'.order[s'.done] == u && s'.order[s'.done + 1..] == queue + [v]
            && s'.paths[u] == s.paths[u]
            && parents.Keys <= parents'.Keys <= Universe(adj, start)
  {
    hide Inv, Universe, Neighbours;
    var u := s.order[s.done];
    Front(adj, start, limit, s, j);
    DiscoverNeighbour(adj, start, limit, s, j);
    NeighbourInUniverse(adj, start, u, j);
  }

  /** The inner loop of `shortest_path`, which stops at the first sight of `goal`. */
  method ScanForGoal(adj: Adjacency, ghost start: Node, goal: Node, ghost limit: Option<int>, ghost s0: Search,
                     node: Node, parents0: Parents, queue0: seq<Node>)
      returns (r: Option<seq<Node>>, parents: Parents, queue: seq<Node>, ghost s: Search)
    requires SortedAdjacency(adj) && Inv(adj, start, limit, s0, 0) && ParentsOf(parents0, s0.paths) && goal !in s0.paths
    requires s0.done < |s0.order| && s0.order[s0.done] == node && s0.order[s0.done + 1..] == queue0
    requires node in parents0 && CanExpand(limit, |s0.paths[node]| - 1) && parents0.Keys <= Universe(adj, start)
    ensures r.Some? ==> IsShortestPathResult(adj, start, goal, limit, r)
    ensures r.None? ==> Inv(adj, start, limit, s, 0) && ParentsOf(parents, s.paths) && goal !in s.paths
                        && s.done <= |s.order| && s.order[s.done..] == queue
                        && parents0.Keys <= parents.Keys <= Universe(adj, start)
                        && (parents.Keys == parents0.Keys ==> queue == queue0)
  {
    hide Inv, IsBest, IsChain, Linked, Universe;
    r, parents, queue, s := None, parents0, queue0, s0;
    var ns := Neighbours(adj, node);
    for j := 0 to |ns|
      invariant Inv(adj, start, limit, s, j) && ParentsOf(parents, s.paths) && s.done == s0.done && goal !in s.paths
      invariant s.done < |s.order| && s.order[s.done] == node && s.order[s.done + 1..] == queue
      invariant node in parents && s.paths[node] == s0.paths[node]
      invariant parents0.Keys <= parents.Keys <= Universe(adj, start)
      invariant parents.Keys == parents0.Keys ==> queue == queue0
    {
      var neighbour := ns[j];
      if neighbour in parents {
        SkipNeighbour(adj, start, limit, s, j);
        continue;
      }
      if neighbour == goal {
        EarlyExitIsBest(adj, start, limit, s, j, goal);
        ChainsAreLinked(adj, start, limit, s, j);
        var path := WalkBack(parents, s.paths, start, node, goal);
        r := Some(path);
        return;
      }
      RecordParent(adj, start, limit, s, j, parents, queue);
      s := Discovered(s, node, neighbour);
      parents := parents[neighbour := Some(node)];
      queue := queue + [neighbour];
    }
    NextNode(adj, start, limit, s, |ns|);
    s := s.(done := s.done + 1);
  }

  /** `shortest_path`: `None` exactly when `goal` is out of reach, else the best chain. */
  method ShortestPath(adj: Adjacency, start: Node, goal: Node, limit: Option<int>)
      returns (r: Option<seq<Node>>)
    requires SortedAdjacency(adj)
    ensures IsShortestPathResult(adj, start, goal, limit, r)
  {
    hide Inv, IsShortestPathResult, Linked, ParentsOf, Universe;
    if start == goal {
      StartIsItsOwnChain(adj, start, limit);
      return Some([start]);
    }
    var parents: Parents := map[start := None];
    var queue := [start];
    ghost var s := Initial(start);
    InitialInv(adj, start, limit);
    assert ParentsOf(parents, s.paths) by { InitialParents(start); }
    while queue != []
      invariant Inv(adj, start, limit, s, 0) && ParentsOf(parents, s.paths) && goal !in s.paths
      invariant s.done <= |s.order| && queue == s.order[s.done..]
      invariant parents.Keys <= Universe(adj, start)
      decreases Universe(adj, start) - parents.Keys, |queue|
    {
      var node := queue[0];
      queue := queue[1..];
      assert node == s.order[s.done] && queue == s.order[s.done + 1..];
      Front(adj, start, limit, s, 0);
      ChainsAreLinked(adj, start, limit, s, 0);
      var depth := WalkDepth(parents, s.paths, start, node);
      if limit.Some? && depth > limit.value {
        NextNode(adj, start, limit, s, 0);
        s := s.(done := s.done + 1);
        continue;
      }
      r, parents, queue, s := ScanForGoal(adj, start, goal, limit, s, node, parents, queue);
      if r.Some? {
        return;
      }
    }
    GoalOutOfReach(adj, start, goal, limit, s);
    return None;
  }

  /** The early-exit search refines the tree: same verdict, same chain. */
  lemma ShortestPathRefinesTree(adj: Adjacency, start: Node, goal: Node, limit: Option<int>,
                                tree: Tree, r: Option<seq<Node>>)
    requires IsBfsTree(adj, start, limit, tree) && IsShortestPathResult(adj, start, goal, limit, r)
    ensures r.Some? <==> goal in tree
    ensures r.Some? ==> r.value == TreePath(tree, start, goal)
  {
    assert goal in tree <==> Connected(adj, start, goal, limit);
    if goal in tree {
      assert SpellsBest(adj, start, tree, goal);
      BestIsUnique(adj, start, goal, r.value, TreePath(tree, start, goal));
    }
  }
}
