/** The evidence store of `build_evidence_provenance`: content-addressed records that inherit
    source facts and gaps from the records they build on, and the closure of a candidate. */
module Lineage {
  type Gap = int

  /** What a record's digest covers; `payload` stands for everything not followed here.
      Parents and sources are the sorted, duplicate-free lists the record stores. */
  datatype Row = Row(payload: int, parents: seq<Id>, sources: set<Id>, gaps: set<Gap>)
  /** The evidence id: the digest is treated as injective. */
  datatype Id = Digest(row: Row)

  /** What an `emit` call itself contributed. */
  datatype Own = Own(sources: set<Id>, gaps: set<Gap>)

  /** The records, and for the proofs which call made each and in what order. */
  datatype Store = Store(records: map<Id, Row>, own: map<Id, Own>, rank: map<Id, nat>)

  function SourcesOf(records: map<Id, Row>, ids: seq<Id>): set<Id> {
    set p, s | p in ids && p in records && s in records[p].sources :: s
  }

  function GapsOf(records: map<Id, Row>, ids: set<Id>): set<Gap> {
    set e, g | e in ids && e in records && g in records[e].gaps :: g
  }

  function Elements(ids: seq<Id>): set<Id> {
    set i | i in ids
  }

  function MakeRow(records: map<Id, Row>, payload: int, parents: seq<Id>, sources: set<Id>, gaps: set<Gap>): Row {
    var all := sources + SourcesOf(records, parents);
    Row(payload, parents, all, gaps + GapsOf(records, Elements(parents) + all))
  }

  /** `emit`, which the source calls only with ids it emitted before. */
  function Emitted(s: Store, payload: int, parents: seq<Id>, sources: set<Id>, gaps: set<Gap>): Store {
    var row := MakeRow(s.records, payload, parents, sources, gaps);
    var id := Digest(row);
    if id in s.records then s
    else Store(s.records[id := row], s.own[id := Own(sources, gaps)], s.rank[id := |s.records|])
  }

  const EMPTY: Store := Store(map[], map[], map[])

  // ------------------------------------------------------------------- invariant

  ghost predicate SourceVia(records: map<Id, Row>, parents: seq<Id>, q: Id) {
    exists p :: p in parents && p in records && q in records[p].sources
  }

  ghost predicate GapVia(records: map<Id, Row>, upstream: set<Id>, g: Gap) {
    exists e :: e in upstream && e in records && g in records[e].gaps
  }

  /** Everything a record builds on. */
  function Below(row: Row): set<Id> { Elements(row.parents) + row.sources }

  /** Everything a record builds on was emitted before it. */
  ghost predicate Earlier(s: Store, id: Id)
    requires id in s.records
  {
    id in s.rank && forall e :: e in Below(s.records[id]) ==> e in s.records && e in s.rank && s.rank[e] < s.rank[id]
  }

  /** A record's facts are its own plus those of what it builds on, one level down. */
  ghost predicate Inherits(s: Store, id: Id)
    requires id in s.records
  {
    && id in s.own
    && (forall q :: q in s.records[id].sources <==>
          q in s.own[id].sources || SourceVia(s.records, s.records[id].parents, q))
    && (forall g :: g in s.records[id].gaps <==> g in s.own[id].gaps || GapVia(s.records, Below(s.records[id]), g))
  }

  ghost predicate Good(s: Store, id: Id)
    requires id in s.records
  {
    id == Digest(s.records[id]) && Earlier(s, id) && Inherits(s, id) && s.rank[id] < |s.records|
  }

  ghost predicate Valid(s: Store) {
    forall id {:trigger Good(s, id)} :: id in s.records ==> Good(s, id)
  }

  ghost predicate Present(s: Store, parents: seq<Id>, sources: set<Id>) {
    (forall p :: p in parents ==> p in s.records) && sources <= s.records.Keys
  }

  lemma RowMembers(records: map<Id, Row>, payload: int, parents: seq<Id>, sources: set<Id>, gaps: set<Gap>)
    ensures var row := MakeRow(records, payload, parents, sources, gaps);
            && (forall q :: q in row.sources <==> q in sources || SourceVia(records, parents, q))
            && (forall g :: g in row.gaps <==> g in gaps || GapVia(records, Below(row), g))
  {
    var row := MakeRow(records, payload, parents, sources, gaps);
    forall q ensures q in SourcesOf(records, parents) <==> SourceVia(records, parents, q) {
    }
    forall g ensures g in GapsOf(records, Below(row)) <==> GapVia(records, Below(row), g) {
    }
  }

  lemma ViaPersists(records: map<Id, Row>, id: Id, row: Row, parents: seq<Id>, below: set<Id>)
    requires id !in records && (forall p :: p in parents ==> p in records) && below <= records.Keys
    ensures forall q :: SourceVia(records[id := row], parents, q) <==> SourceVia(records, parents, q)
    ensures forall g :: GapVia(records[id := row], below, g) <==> GapVia(records, below, g)
  {
    var after := records[id := row];
    forall q ensures SourceVia(after, parents, q) <==> SourceVia(records, parents, q) {
      if SourceVia(after, parents, q) {
        var p :| p in parents && p in after && q in after[p].sources;
        assert p in records && records[p] == after[p];
      }
      if SourceVia(records, parents, q) {
        var p :| p in parents && p in records && q in records[p].sources;
        assert after[p] == records[p];
      }
    }
    forall g ensures GapVia(after, below, g) <==> GapVia(records, below, g) {
      if GapVia(after, below, g) {
        var e :| e in below && e in after && g in after[e].gaps;
        assert e in records && records[e] == after[e];
      }
      if GapVia(records, below, g) {
        var e :| e in below && e in records && g in records[e].gaps;
        assert after[e] == records[e];
      }
    }
  }

  lemma OldRecordKeeps(s: Store, id: Id, row: Row, own: Own, x: Id)
    requires x in s.records && Good(s, x) && id !in s.records && id !in s.rank
    ensures Good(Store(s.records[id := row], s.own[id := own], s.rank[id := |s.records|]), x)
  {
    var parents := s.records[x].parents;
    assert forall p :: p in parents ==> p in Below(s.records[x]);
    ViaPersists(s.records, id, row, parents, Below(s.records[x]));
    hide SourceVia, GapVia, Below;
  }

  lemma RowIsBuiltOnOlder(s: Store, payload: int, parents: seq<Id>, sources: set<Id>, gaps: set<Gap>)
    requires Valid(s) && Present(s, parents, sources)
    ensures forall e :: e in Below(MakeRow(s.records, payload, parents, sources, gaps)) ==>
              e in s.records && e in s.rank && s.rank[e] < |s.records|
  {
    var row := MakeRow(s.records, payload, parents, sources, gaps);
    RowMembers(s.records, payload, parents, sources, gaps);
    forall e | e in Below(row) ensures e in s.records && e in s.rank && s.rank[e] < |s.records| {
      if e !in Elements(parents) && e !in sources {
        var p :| p in parents && p in s.records && e in s.records[p].sources;
        assert Good(s, p) && e in Below(s.records[p]);
      }
      assert Good(s, e);
    }
  }

  lemma NewRecordIsGood(s: Store, payload: int, parents: seq<Id>, sources: set<Id>, gaps: set<Gap>)
    requires Valid(s) && Present(s, parents, sources)
    requires Digest(MakeRow(s.records, payload, parents, sources, gaps)) !in s.records
    ensures Good(Emitted(s, payload, parents, sources, gaps),
                 Digest(MakeRow(s.records, payload, parents, sources, gaps)))
  {
    var row := MakeRow(s.records, payload, parents, sources, gaps);
    RowMembers(s.records, payload, parents, sources, gaps);
    RowIsBuiltOnOlder(s, payload, parents, sources, gaps);
    ViaPersists(s.records, Digest(row), row, parents, Below(row));
    assert row.parents == parents;
    hide SourceVia, GapVia, Below, MakeRow;
  }

  ghost predicate RanksAreRecords(s: Store) {
    forall id :: id in s.rank ==> id in s.records
  }

  /** Emitting keeps the store valid, whatever is emitted on top of what is there. */
  lemma EmitKeepsValid(s: Store, payload: int, parents: seq<Id>, sources: set<Id>, gaps: set<Gap>)
    requires Valid(s) && RanksAreRecords(s) && Present(s, parents, sources)
    ensures Valid(Emitted(s, payload, parents, sources, gaps))
    ensures RanksAreRecords(Emitted(s, payload, parents, sources, gaps))
  {
    var s' := Emitted(s, payload, parents, sources, gaps);
    var row := MakeRow(s.records, payload, parents, sources, gaps);
    var id := Digest(row);
    if id !in s.records {
      NewRecordIsGood(s, payload, parents, sources, gaps);
      forall x | x in s'.records ensures Good(s', x) {
        if x != id {
          assert Good(s, x);
          OldRecordKeeps(s, id, row, Own(sources, gaps), x);
        }
      }
    }
  }

  // ------------------------------------------------------------------- ancestry

  /** Following `edges`, `c` leads from its first to its last element. */
  ghost predicate IsTrail(edges: map<Id, set<Id>>, c: seq<Id>, from: Id, to: Id) {
    && |c| > 0 && c[0] == from && c[|c| - 1] == to
    && forall i :: 0 <= i < |c| - 1 ==> c[i] in edges && c[i + 1] in edges[c[i]]
  }

  ghost predicate Reaches(edges: map<Id, set<Id>>, from: Id, to: Id) {
    exists c :: IsTrail(edges, c, from, to)
  }

  function ParentEdges(s: Store): map<Id, set<Id>> {
    map id | id in s.records :: Elements(s.records[id].parents)
  }

  function UpstreamEdges(s: Store): map<Id, set<Id>> {
    map id | id in s.records :: Below(s.records[id])
  }

  /** `to` is `from` or one of its ancestors along parent links. */
  ghost predicate Ancestor(s: Store, from: Id, to: Id) { Reaches(ParentEdges(s), from, to) }

  /** Likewise along parent and source links. */
  ghost predicate Upstream(s: Store, from: Id, to: Id) { Reaches(UpstreamEdges(s), from, to) }

  lemma ReachesItself(edges: map<Id, set<Id>>, x: Id)
    ensures Reaches(edges, x, x)
  {
    assert IsTrail(edges, [x], x, x);
  }

  lemma StepThenReach(edges: map<Id, set<Id>>, x: Id, y: Id, z: Id)
    requires x in edges && y in edges[x] && Reaches(edges, y, z)
    ensures Reaches(edges, x, z)
  {
    var c :| IsTrail(edges, c, y, z);
    var d := [x] + c;
    forall i | 0 <= i < |d| - 1 ensures d[i] in edges && d[i + 1] in edges[d[i]] {
      if i > 0 {
        assert d[i] == c[i - 1] && d[i + 1] == c[i];
        assert c[i - 1 + 1] in edges[c[i - 1]];
      }
    }
    assert IsTrail(edges, d, x, z);
  }

  lemma ReachThenStep(edges: map<Id, set<Id>>, x: Id, y: Id, z: Id)
    requires Reaches(edges, x, y) && y in edges && z in edges[y]
    ensures Reaches(edges, x, z)
  {
    var c :| IsTrail(edges, c, x, y);
    assert IsTrail(edges, c + [z], x, z);
  }

  ghost predicate Via<T>(edges: map<Id, set<Id>>, val: map<Id, set<T>>, id: Id, x: T)
    requires id in edges
  {
    exists e :: e in edges[id] && e in val && x in val[e]
  }

  /** Edges lead to lower ranks, and a value is an own value or comes along an edge. */
  ghost predicate Inherited<T>(edges: map<Id, set<Id>>, rank: map<Id, nat>, own: map<Id, set<T>>, val: map<Id, set<T>>,
                               id: Id, x: T) {
    && id in edges && id in rank && id in own && id in val
    && (forall e :: e in edges[id] ==> e in edges && e in rank && rank[e] < rank[id])
    && (x in val[id] <==> x in own[id] || Via(edges, val, id, x))
  }

  /** Then the values of a node are exactly the own values found anywhere downstream. */
  lemma {:induction false} ValueComesFromSomewhere<T>(edges: map<Id, set<Id>>, rank: map<Id, nat>, own: map<Id, set<T>>,
                                                      val: map<Id, set<T>>, r: Id, x: T) returns (a: Id)
    requires forall id {:trigger Inherited(edges, rank, own, val, id, x)} :: id in edges ==>
               Inherited(edges, rank, own, val, id, x)
    requires r in edges && r in val && x in val[r] && r in rank
    ensures a in edges && a in own && x in own[a] && Reaches(edges, r, a)
    decreases rank[r]
  {
    assert Inherited(edges, rank, own, val, r, x);
    if x in own[r] {
      a := r;
      ReachesItself(edges, r);
    } else {
      var e :| e in edges[r] && e in val && x in val[e];
      a := ValueComesFromSomewhere(edges, rank, own, val, e, x);
      StepThenReach(edges, r, e, a);
    }
  }

  lemma TrailTail(edges: map<Id, set<Id>>, c: seq<Id>, a: Id)
    requires |c| > 1 && IsTrail(edges, c, c[0], a)
    ensures IsTrail(edges, c[1..], c[1], a)
  {
    var tail := c[1..];
    forall i | 0 <= i < |tail| - 1 ensures tail[i] in edges && tail[i + 1] in edges[tail[i]] {
      var k := i + 1;
      assert tail[i] == c[k] && c[k + 1] in edges[c[k]];
    }
  }

  lemma {:induction false} OwnValueIsInherited<T>(edges: map<Id, set<Id>>, rank: map<Id, nat>, own: map<Id, set<T>>,
                                                  val: map<Id, set<T>>, c: seq<Id>, a: Id, x: T)
    requires forall id {:trigger Inherited(edges, rank, own, val, id, x)} :: id in edges ==>
               Inherited(edges, rank, own, val, id, x)
    requires |c| > 0 && IsTrail(edges, c, c[0], a) && a in edges && a in own && x in own[a] && c[0] in val
    ensures x in val[c[0]]
    decreases |c|
  {
    if |c| == 1 {
      assert Inherited(edges, rank, own, val, a, x);
    } else {
      var tail := c[1..];
      TrailTail(edges, c, a);
      assert c[0 + 1] in edges[c[0]];
      assert Inherited(edges, rank, own, val, c[0], x);
      assert Inherited(edges, rank, own, val, c[1], x);
      OwnValueIsInherited(edges, rank, own, val, tail, a, x);
      assert Via(edges, val, c[0], x);
    }
  }

  ghost function OwnSources(s: Store): map<Id, set<Id>> {
    map id | id in s.records && id in s.own :: s.own[id].sources
  }

  ghost function OwnGaps(s: Store): map<Id, set<Gap>> {
    map id | id in s.records && id in s.own :: s.own[id].gaps
  }

  lemma SourcesAreInherited(s: Store, id: Id, q: Id)
    requires Valid(s) && id in s.records
    ensures Inherited(ParentEdges(s), s.rank, OwnSources(s), map i | i in s.records :: s.records[i].sources, id, q)
  {
    assert Good(s, id);
    var val := map i | i in s.records :: s.records[i].sources;
    var parents := s.records[id].parents;
    assert SourceVia(s.records, parents, q) <==> Via(ParentEdges(s), val, id, q) by {
      if SourceVia(s.records, parents, q) {
        var p :| p in parents && p in s.records && q in s.records[p].sources;
        assert p in Elements(parents) && q in val[p];
      }
      if Via(ParentEdges(s), val, id, q) {
        var e :| e in ParentEdges(s)[id] && e in val && q in val[e];
        assert e in parents;
      }
    }
    forall e | e in ParentEdges(s)[id] ensures e in s.records && e in s.rank && s.rank[e] < s.rank[id] {
      assert e in Below(s.records[id]);
    }
  }

  lemma GapsAreInherited(s: Store, id: Id, g: Gap)
    requires Valid(s) && id in s.records
    ensures Inherited(UpstreamEdges(s), s.rank, OwnGaps(s), map i | i in s.records :: s.records[i].gaps, id, g)
  {
    assert Good(s, id);
    var val := map i | i in s.records :: s.records[i].gaps;
    assert GapVia(s.records, Below(s.records[id]), g) <==> Via(UpstreamEdges(s), val, id, g) by {
      if GapVia(s.records, Below(s.records[id]), g) {
        var p :| p in Below(s.records[id]) && p in s.records && g in s.records[p].gaps;
        assert g in val[p];
      }
      if Via(UpstreamEdges(s), val, id, g) {
        var e :| e in UpstreamEdges(s)[id] && e in val && g in val[e];
        assert g in s.records[e].gaps;
      }
    }
  }

  /** Some ancestor of `r` was emitted with source `q`. */
  ghost predicate AncestorSource(s: Store, r: Id, q: Id) {
    exists a :: Ancestor(s, r, a) && a in s.records && a in s.own && q in s.own[a].sources
  }

  /** Something upstream of `r` was emitted with gap `g`. */
  ghost predicate UpstreamGap(s: Store, r: Id, g: Gap) {
    exists a :: Upstream(s, r, a) && a in s.records && a in s.own && g in s.own[a].gaps
  }

  lemma TrailOf(edges: map<Id, set<Id>>, r: Id, a: Id) returns (c: seq<Id>)
    requires Reaches(edges, r, a)
    ensures |c| > 0 && c[0] == r && IsTrail(edges, c, r, a)
  {
    c :| IsTrail(edges, c, r, a);
  }

  /** A record's source facts are exactly those its ancestors were emitted with. */
  lemma SourcesAreExact(s: Store, r: Id, q: Id)
    requires Valid(s) && r in s.records
    ensures q in s.records[r].sources <==> AncestorSource(s, r, q)
  {
    var edges, own, val := ParentEdges(s), OwnSources(s), map i | i in s.records :: s.records[i].sources;
    forall id | id in edges ensures Inherited(edges, s.rank, own, val, id, q) {
      SourcesAreInherited(s, id, q);
    }
    assert Good(s, r);
    hide Good, Inherited, Reaches, IsTrail;
    if q in s.records[r].sources {
      var a := ValueComesFromSomewhere(edges, s.rank, own, val, r, q);
      assert Ancestor(s, r, a) && q in s.own[a].sources;
    }
    if AncestorSource(s, r, q) {
      var a :| Ancestor(s, r, a) && a in s.records && a in s.own && q in s.own[a].sources;
      var c := TrailOf(edges, r, a);
      OwnValueIsInherited(edges, s.rank, own, val, c, a, q);
    }
  }

  /** A record's gaps are exactly the own gaps of everything upstream of it. */
  lemma GapsAreExact(s: Store, r: Id, g: Gap)
    requires Valid(s) && r in s.records
    ensures g in s.records[r].gaps <==> UpstreamGap(s, r, g)
  {
    var edges, own, val := UpstreamEdges(s), OwnGaps(s), map i | i in s.records :: s.records[i].gaps;
    forall id | id in edges ensures Inherited(edges, s.rank, own, val, id, g) {
      GapsAreInherited(s, id, g);
    }
    assert Good(s, r);
    hide Good, Inherited, Reaches, IsTrail;
    if g in s.records[r].gaps {
      var a := ValueComesFromSomewhere(edges, s.rank, own, val, r, g);
      assert Upstream(s, r, a) && g in s.own[a].gaps;
    }
    if UpstreamGap(s, r, g) {
      var a :| Upstream(s, r, a) && a in s.records && a in s.own && g in s.own[a].gaps;
      var c := TrailOf(edges, r, a);
      OwnValueIsInherited(edges, s.rank, own, val, c, a, g);
    }
  }

  lemma {:induction false} RankFalls(s: Store, c: seq<Id>, n: nat)
    requires Valid(s) && 0 < n < |c|
    requires forall i :: 0 <= i < |c| - 1 ==> c[i] in UpstreamEdges(s) && c[i + 1] in UpstreamEdges(s)[c[i]]
    ensures c[0] in s.rank && c[n] in s.rank && s.rank[c[n]] < s.rank[c[0]]
  {
    if n > 1 {
      RankFalls(s, c, n - 1);
    }
    var k := n - 1;
    assert c[k + 1] in UpstreamEdges(s)[c[k]];
    assert Good(s, c[k]);
  }

  /** The parent and source links of a valid store have no cycle. */
  lemma NoCycles(s: Store, c: seq<Id>)
    requires Valid(s) && |c| > 1 && c[0] in s.records
    requires forall i :: 0 <= i < |c| - 1 ==> c[i] in UpstreamEdges(s) && c[i + 1] in UpstreamEdges(s)[c[i]]
    ensures c[0] != c[|c| - 1]
  {
    RankFalls(s, c, |c| - 1);
  }

  // --------------------------------------------------------------- the worklist

  ghost predicate Followed(s: Store, closure: set<Id>, pending: seq<Id>, a: Id) {
    a in s.records && forall p :: p in s.records[a].parents ==> p in closure || p in pending
  }

  /** What the closure loop knows about the records seen so far and still pending. */
  ghost predicate Exploring(s: Store, eid: Id, closure: set<Id>, pending: seq<Id>) {
    && closure <= s.records.Keys
    && (forall p :: p in pending ==> p in s.records && Ancestor(s, eid, p))
    && (forall a :: a in closure ==> Ancestor(s, eid, a))
    && (forall a :: a in closure ==> Followed(s, closure, pending, a))
    && (eid in closure || eid in pending)
  }

  lemma SkipSeen(s: Store, eid: Id, closure: set<Id>, rest: seq<Id>, parent: Id)
    requires Exploring(s, eid, closure, rest + [parent]) && parent in closure
    ensures Exploring(s, eid, closure, rest)
  {
    var pending := rest + [parent];
    forall a | a in closure ensures Followed(s, closure, rest, a) {
      assert Followed(s, closure, pending, a);
    }
  }

  lemma ParentsAreAncestors(s: Store, eid: Id, x: Id)
    requires Valid(s) && x in s.records && Ancestor(s, eid, x)
    ensures forall p :: p in s.records[x].parents ==> p in s.records && Ancestor(s, eid, p)
  {
    forall p | p in s.records[x].parents ensures p in s.records && Ancestor(s, eid, p) {
      assert Good(s, x) && p in Below(s.records[x]);
      ReachThenStep(ParentEdges(s), eid, x, p);
    }
  }

  lemma TakeParent(s: Store, eid: Id, closure: set<Id>, rest: seq<Id>, parent: Id)
    requires Valid(s) && Exploring(s, eid, closure, rest + [parent]) && parent !in closure
    ensures parent in s.records
    ensures Exploring(s, eid, closure + {parent}, rest + s.records[parent].parents)
  {
    var pending := rest + [parent];
    assert pending[|rest|] == parent;
    assert parent in pending;
    ParentsAreAncestors(s, eid, parent);
    var next := rest + s.records[parent].parents;
    forall a | a in closure + {parent} ensures Followed(s, closure + {parent}, next, a) {
      if a in closure {
        assert Followed(s, closure, pending, a);
      }
    }
    forall p | p in next ensures p in s.records && Ancestor(s, eid, p) {
      assert p in rest ==> p in pending;
    }
  }

  lemma OneIsExploring(s: Store, eid: Id)
    requires eid in s.records
    ensures Exploring(s, eid, {}, [eid])
  {
    ReachesItself(ParentEdges(s), eid);
  }

  lemma {:induction false} ClosedHoldsTrail(s: Store, closed: set<Id>, c: seq<Id>, n: nat, a: Id)
    requires n < |c| && c[0] in closed && IsTrail(ParentEdges(s), c, c[0], a)
    requires forall x :: x in closed ==> Followed(s, closed, [], x)
    ensures c[n] in closed
  {
    if n > 0 {
      var k := n - 1;
      ClosedHoldsTrail(s, closed, c, k, a);
      assert c[k + 1] in ParentEdges(s)[c[k]];
      assert Followed(s, closed, [], c[k]);
    }
  }

  lemma ExploredIsAll(s: Store, eid: Id, closure: set<Id>)
    requires Exploring(s, eid, closure, [])
    ensures forall a :: a in closure <==> Ancestor(s, eid, a)
  {
    forall a | Ancestor(s, eid, a) ensures a in closure {
      var c := TrailOf(ParentEdges(s), eid, a);
      ClosedHoldsTrail(s, closure, c, |c| - 1, a);
    }
  }

  /** The closure loop: `eid` and every record reached from it by parent links. */
  method EvidenceClosure(records: map<Id, Row>, eid: Id, ghost s: Store) returns (closure: set<Id>)
    requires Valid(s) && s.records == records && eid in records
    ensures forall a :: a in closure <==> Ancestor(s, eid, a)
    ensures closure <= records.Keys
  {
    hide Valid, Ancestor, Followed;
    closure := {};
    var pending := [eid];
    OneIsExploring(s, eid);
    while pending != []
      invariant Exploring(s, eid, closure, pending)
      decreases records.Keys - closure, |pending|
    {
      var parent := pending[|pending| - 1];
      assert pending == pending[..|pending| - 1] + [parent];
      pending := pending[..|pending| - 1];
      if parent in closure {
        SkipSeen(s, eid, closure, pending, parent);
      } else {
        TakeParent(s, eid, closure, pending, parent);
        closure := closure + {parent};
        pending := pending + records[parent].parents;
      }
    }
    ExploredIsAll(s, eid, closure);
  }

  /** A candidate counts as complete exactly when nothing upstream of it was emitted with a gap. */
  lemma CompleteIffNoUpstreamGap(s: Store, eid: Id)
    requires Valid(s) && eid in s.records
    ensures s.records[eid].gaps == {} <==> forall g :: !UpstreamGap(s, eid, g)
  {
    hide UpstreamGap, Valid;
    forall g ensures g in s.records[eid].gaps <==> UpstreamGap(s, eid, g) {
      GapsAreExact(s, eid, g);
    }
    if forall g :: !UpstreamGap(s, eid, g) {
      assert forall g :: g !in s.records[eid].gaps;
      assert s.records[eid].gaps == {};
    }
  }

  // ----------------------------------------------------------------- the builder

  /** The `records` dictionary that the `emit` calls of one build share. */
  class Builder {
    var records: map<Id, Row>
    ghost var store: Store

    ghost predicate Ok()
      reads this
    {
      Valid(store) && RanksAreRecords(store) && store.records == records
    }

    constructor ()
      ensures Ok() && store == EMPTY
    {
      records := map[];
      store := EMPTY;
    }

    method Emit(payload: int, parents: seq<Id>, sources: set<Id>, gaps: set<Gap>) returns (id: Id)
      requires Ok() && Present(store, parents, sources)
      modifies this
      ensures Ok() && store == Emitted(old(store), payload, parents, sources, gaps)
      ensures id in records && id.row.payload == payload && id.row.parents == parents
      ensures forall x :: x in old(records) ==> x in records && records[x] == old(records)[x]
    {
      EmitKeepsValid(store, payload, parents, sources, gaps);
      var row := MakeRow(records, payload, parents, sources, gaps);
      id := Digest(row);
      if id in records {
        assert Good(store, id);
        assert records[id := row] == records;
      }
      store := Emitted(store, payload, parents, sources, gaps);
      records := records[id := row];
    }

    /** One candidate: its evidence closure, its source facts, and whether it is complete. */
    method Candidate(payload: int, parents: seq<Id>, sources: set<Id>, gaps: set<Gap>)
        returns (eid: Id, evidence: set<Id>, facts: set<Id>, complete: bool)
      requires Ok() && Present(store, parents, sources)
      modifies this
      ensures Ok() && store == Emitted(old(store), payload, parents, sources, gaps) && eid in records
      ensures forall a :: a in evidence <==> Ancestor(store, eid, a)
      ensures forall q :: q in facts <==> AncestorSource(store, eid, q)
      ensures complete <==> forall g :: !UpstreamGap(store, eid, g)
    {
      hide Valid, Ancestor, AncestorSource, UpstreamGap;
      eid := Emit(payload, parents, sources, gaps);
      evidence := EvidenceClosure(records, eid, store);
      facts := records[eid].sources;
      complete := records[eid].gaps == {};
      CompleteIffNoUpstreamGap(store, eid);
      forall q ensures q in facts <==> AncestorSource(store, eid, q) {
        SourcesAreExact(store, eid, q);
      }
    }
  }
}
