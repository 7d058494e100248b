/** The sibling differential: `diff_group`, the patch-driven merge of
    `patch_sibling_findings`, and the numbering `build_differential` gives both. */
module PatchSiblings {
  type Symbol = int
  type FilePath = int
  datatype Family = Authz | Validation | OtherFamily

  /** A control category; its family is a function of its name. */
  datatype Category = Category(name: int, family: Family)

  /** A handler with the categories it carries, in sorted order. */
  datatype Member = Member(symbol: Symbol, file: FilePath, controls: seq<Category>)
  datatype Group = Group(id: int, members: seq<Member>)

  datatype Risk = High | Medium | Low
  datatype Finding = Finding(number: nat, group: int, category: Category, risk: Risk,
                             carriers: seq<Symbol>, missing: seq<Symbol>, agreement: real)

  ghost predicate DistinctMembers(g: Group) {
    && (forall i, j :: 0 <= i < j < |g.members| ==> g.members[i].symbol != g.members[j].symbol)
    && forall i, a, b :: 0 <= i < |g.members| && 0 <= a < b < |g.members[i].controls| ==>
         g.members[i].controls[a] != g.members[i].controls[b]
  }

  ghost predicate DistinctGroups(gs: seq<Group>) {
    && (forall i, j :: 0 <= i < j < |gs| ==> gs[i].id != gs[j].id)
    && forall i :: 0 <= i < |gs| ==> DistinctMembers(gs[i])
  }

  function RiskFor(family: Family, size: nat, carriers: nat): Risk {
    if family == Authz && size >= 3 && carriers >= 2 then High
    else if family in {Authz, Validation} then Medium
    else Low
  }

  /** Fraction of the compared members that carry the control (before display rounding). */
  function Agreement(carriers: nat, missing: nat): real {
    if carriers + missing == 0 then 0.0 else carriers as real / (carriers + missing) as real
  }

  // ------------------------------------------------------------- specification

  /** The members among the first `k` that do, or do not, carry `c`. */
  function Carriers(ms: seq<Member>, c: Category, k: nat): seq<Symbol>
    requires k <= |ms|
  {
    if k == 0 then [] else Carriers(ms, c, k - 1) + if c in ms[k - 1].controls then [ms[k - 1].symbol] else []
  }

  function NonCarriers(ms: seq<Member>, c: Category, k: nat): seq<Symbol>
    requires k <= |ms|
  {
    if k == 0 then [] else NonCarriers(ms, c, k - 1) + if c in ms[k - 1].controls then [] else [ms[k - 1].symbol]
  }

  /** The carriers of `c` among the first `k` members whose file a fix touched. */
  function Patched(ms: seq<Member>, touched: set<FilePath>, c: Category, k: nat): seq<Symbol>
    requires k <= |ms|
  {
    if k == 0 then []
    else Patched(ms, touched, c, k - 1)
         + if c in ms[k - 1].controls && ms[k - 1].file in touched then [ms[k - 1].symbol] else []
  }

  datatype Key = Key(group: int, category: Category, missing: seq<Symbol>)
  type Merged = map<Key, Finding>

  function KeyOf(g: Group, c: Category): Key {
    Key(g.id, c, NonCarriers(g.members, c, |g.members|))
  }

  /** What is recorded for category `c` of group `g` once `carriers` have been seen. */
  ghost predicate Recorded(g: Group, c: Category, carriers: seq<Symbol>, merged: Merged) {
    var key := KeyOf(g, c);
    if carriers == [] || key.missing == [] then key !in merged
    else
      && key in merged
      && merged[key].group == g.id && merged[key].category == c
      && merged[key].carriers == carriers && merged[key].missing == key.missing
      && merged[key].agreement == Agreement(|carriers|, |key.missing|)
      && merged[key].risk == RiskFor(c.family, |g.members|, 1)
  }

  /** The state of category `c` after the first `k` members of `g`. */
  ghost predicate RecordedUpTo(g: Group, touched: set<FilePath>, c: Category, k: nat, merged: Merged)
    requires k <= |g.members|
  {
    Recorded(g, c, Patched(g.members, touched, c, k), merged)
  }

  ghost predicate MembersDone(g: Group, touched: set<FilePath>, k: nat, merged: Merged)
    requires k <= |g.members|
  {
    forall c :: RecordedUpTo(g, touched, c, k, merged)
  }

  ghost predicate GroupDone(g: Group, touched: set<FilePath>, merged: Merged) {
    MembersDone(g, touched, |g.members|, merged)
  }

  /** Member `me` has had its first `j` categories folded in. */
  ghost predicate CategoryDone(g: Group, touched: set<FilePath>, c: Category, me: nat, j: nat, merged: Merged)
    requires me < |g.members| && j <= |g.members[me].controls|
  {
    RecordedUpTo(g, touched, c, if c in g.members[me].controls[..j] then me + 1 else me, merged)
  }

  /** Keys of other groups are untouched, and every new key is the one of its category in `g`. */
  ghost predicate SameElsewhere(g: Group, before: Merged, after: Merged) {
    && (forall k :: k in before && k.group != g.id ==> k in after && after[k] == before[k])
    && (forall k :: k in after && k !in before ==> k == KeyOf(g, k.category))
    && (forall k :: k in before ==> k in after)
  }

  /** Finding numbers are the consecutive ones after `offset`, each used once. */
  ghost predicate Numbered(merged: Merged, offset: nat) {
    && (forall k :: k in merged ==> offset < merged[k].number <= offset + |merged|)
    && forall k, l :: k in merged && l in merged && k != l ==> merged[k].number != merged[l].number
  }

  // -------------------------------------------------------------------- methods

  /** The members among the first `k` that have another id than `me` and do not carry `c`. */
  function MissingAmong(ms: seq<Member>, me: Symbol, c: Category, k: nat): seq<Symbol>
    requires k <= |ms|
  {
    if k == 0 then []
    else MissingAmong(ms, me, c, k - 1)
         + if ms[k - 1].symbol != me && c !in ms[k - 1].controls then [ms[k - 1].symbol] else []
  }

  lemma {:induction false} OthersAreNonCarriers(g: Group, c: Category, me: nat, k: nat)
    requires DistinctMembers(g) && me < |g.members| && c in g.members[me].controls && k <= |g.members|
    ensures MissingAmong(g.members, g.members[me].symbol, c, k) == NonCarriers(g.members, c, k)
  {
    if k > 0 {
      OthersAreNonCarriers(g, c, me, k - 1);
    }
  }

  method CollectMissing(ms: seq<Member>, me: Symbol, c: Category) returns (missing: seq<Symbol>)
    ensures missing == MissingAmong(ms, me, c, |ms|)
  {
    missing := [];
    for k := 0 to |ms|
      invariant missing == MissingAmong(ms, me, c, k)
    {
      if ms[k].symbol != me && c !in ms[k].controls {
        missing := missing + [ms[k].symbol];
      }
    }
  }

  lemma {:induction false} PatchedAreEarlier(g: Group, touched: set<FilePath>, c: Category, k: nat, n: nat)
    requires DistinctMembers(g) && k <= n < |g.members|
    ensures g.members[n].symbol !in Patched(g.members, touched, c, k)
  {
    if k > 0 {
      PatchedAreEarlier(g, touched, c, k - 1, n);
    }
  }

  /** The innermost body: fold one patched carrier of `c` into the findings. */
  method MergeCarrier(g: Group, me: nat, c: Category, ghost touched: set<FilePath>, offset: nat, merged0: Merged)
      returns (merged: Merged)
    requires DistinctMembers(g) && me < |g.members| && c in g.members[me].controls
    requires g.members[me].file in touched
    requires RecordedUpTo(g, touched, c, me, merged0) && Numbered(merged0, offset)
    ensures RecordedUpTo(g, touched, c, me + 1, merged) && Numbered(merged, offset)
    ensures SameElsewhere(g, merged0, merged)
    ensures forall k: Key :: k != KeyOf(g, c) ==>
              (k in merged <==> k in merged0) && (k in merged ==> merged[k] == merged0[k])
  {
    merged := merged0;
    var member := g.members[me];
    var missing := CollectMissing(g.members, member.symbol, c);
    OthersAreNonCarriers(g, c, me, |g.members|);
    if missing == [] {
      return;
    }
    var key := Key(g.id, c, missing);
    assert key == KeyOf(g, c);
    if key in merged {
      var existing := merged[key];
      PatchedAreEarlier(g, touched, c, me, me);
      if member.symbol !in existing.carriers {
        var carriers := existing.carriers + [member.symbol];
        merged := merged[key := existing.(carriers := carriers,
                                          agreement := Agreement(|carriers|, |existing.missing|))];
      }
    } else {
      merged := merged[key := Finding(|merged| + 1 + offset, g.id, c, RiskFor(c.family, |g.members|, 1),
                                      [member.symbol], missing, Agreement(1, |missing|))];
      assert |merged| == |merged0| + 1;
    }
  }

  lemma RecordedElsewhere(g: Group, touched: set<FilePath>, x: Category, k: nat, c: Category,
                          before: Merged, after: Merged)
    requires k <= |g.members| && x != c && RecordedUpTo(g, touched, x, k, before)
    requires forall key: Key :: key != KeyOf(g, c) ==>
               (key in after <==> key in before) && (key in after ==> after[key] == before[key])
    ensures RecordedUpTo(g, touched, x, k, after)
  {
    assert KeyOf(g, x) != KeyOf(g, c);
  }

  ghost predicate CategoriesDone(g: Group, touched: set<FilePath>, me: nat, j: nat, merged: Merged)
    requires me < |g.members| && j <= |g.members[me].controls|
  {
    forall c :: CategoryDone(g, touched, c, me, j, merged)
  }

  lemma UntouchedMember(g: Group, touched: set<FilePath>, me: nat, merged: Merged)
    requires me < |g.members| && MembersDone(g, touched, me, merged) && g.members[me].file !in touched
    ensures MembersDone(g, touched, me + 1, merged)
  {
    var next := me + 1;
    forall c ensures RecordedUpTo(g, touched, c, next, merged) {
      assert RecordedUpTo(g, touched, c, me, merged);
      assert Patched(g.members, touched, c, me) + [] == Patched(g.members, touched, c, me);
    }
  }

  lemma CategoriesBegin(g: Group, touched: set<FilePath>, me: nat, merged: Merged)
    requires me < |g.members| && MembersDone(g, touched, me, merged)
    ensures CategoriesDone(g, touched, me, 0, merged)
  {
    forall c ensures CategoryDone(g, touched, c, me, 0, merged) {
      assert RecordedUpTo(g, touched, c, me, merged);
    }
  }

  lemma CategoriesAdvance(g: Group, touched: set<FilePath>, me: nat, j: nat, before: Merged, after: Merged)
    requires DistinctMembers(g) && me < |g.members| && j < |g.members[me].controls|
    requires CategoriesDone(g, touched, me, j, before)
    requires var c := g.members[me].controls[j];
             && RecordedUpTo(g, touched, c, me + 1, after)
             && forall key: Key :: key != KeyOf(g, c) ==>
                  (key in after <==> key in before) && (key in after ==> after[key] == before[key])
    ensures CategoriesDone(g, touched, me, j + 1, after)
  {
    hide Recorded;
    var controls := g.members[me].controls;
    var c, next := controls[j], j + 1;
    forall x ensures CategoryDone(g, touched, x, me, next, after) {
      assert CategoryDone(g, touched, x, me, j, before);
      assert x in controls[..next] <==> x in controls[..j] || x == c;
      if x != c {
        RecordedElsewhere(g, touched, x, if x in controls[..j] then me + 1 else me, c, before, after);
      }
    }
  }

  lemma CategoriesEnd(g: Group, touched: set<FilePath>, me: nat, merged: Merged)
    requires me < |g.members| && CategoriesDone(g, touched, me, |g.members[me].controls|, merged)
    ensures MembersDone(g, touched, me + 1, merged)
  {
    var controls, next := g.members[me].controls, me + 1;
    assert controls[..|controls|] == controls;
    forall c ensures RecordedUpTo(g, touched, c, next, merged) {
      assert CategoryDone(g, touched, c, me, |controls|, merged);
      assert Patched(g.members, touched, c, me) + [] == Patched(g.members, touched, c, me);
    }
  }

  lemma NotYetFolded(g: Group, touched: set<FilePath>, me: nat, j: nat, merged: Merged)
    requires DistinctMembers(g) && me < |g.members| && j < |g.members[me].controls|
    requires CategoriesDone(g, touched, me, j, merged)
    ensures RecordedUpTo(g, touched, g.members[me].controls[j], me, merged)
  {
    var c := g.members[me].controls[j];
    assert c !in g.members[me].controls[..j];
    assert CategoryDone(g, touched, c, me, j, merged);
  }

  lemma NothingChanged(g: Group, merged: Merged)
    ensures SameElsewhere(g, merged, merged)
  {
  }

  lemma ChangesCompose(g: Group, a: Merged, b: Merged, c: Merged)
    requires SameElsewhere(g, a, b) && SameElsewhere(g, b, c)
    ensures SameElsewhere(g, a, c)
  {
  }

  /** One member: each of its categories in turn. */
  method MergeMember(g: Group, me: nat, touched: set<FilePath>, offset: nat, merged0: Merged) returns (merged: Merged)
    requires DistinctMembers(g) && me < |g.members| && Numbered(merged0, offset)
    requires MembersDone(g, touched, me, merged0)
    ensures Numbered(merged, offset) && MembersDone(g, touched, me + 1, merged)
    ensures SameElsewhere(g, merged0, merged)
  {
    hide Numbered, RecordedUpTo, DistinctMembers, SameElsewhere;
    merged := merged0;
    NothingChanged(g, merged);
    if g.members[me].file !in touched {
      UntouchedMember(g, touched, me, merged);
      return;
    }
    CategoriesBegin(g, touched, me, merged);
    var controls := g.members[me].controls;
    for j := 0 to |controls|
      invariant Numbered(merged, offset) && SameElsewhere(g, merged0, merged)
      invariant CategoriesDone(g, touched, me, j, merged)
    {
      ghost var before := merged;
      NotYetFolded(g, touched, me, j, merged);
      merged := MergeCarrier(g, me, controls[j], touched, offset, merged);
      ChangesCompose(g, merged0, before, merged);
      CategoriesAdvance(g, touched, me, j, before, merged);
    }
    CategoriesEnd(g, touched, me, merged);
  }

  lemma NothingRecordedYet(g: Group, touched: set<FilePath>, merged: Merged)
    requires forall k :: k in merged ==> k.group != g.id
    ensures MembersDone(g, touched, 0, merged)
  {
    forall c ensures RecordedUpTo(g, touched, c, 0, merged) {
      assert KeyOf(g, c).group == g.id;
    }
  }

  method MergeGroup(g: Group, touched: set<FilePath>, offset: nat, merged0: Merged) returns (merged: Merged)
    requires DistinctMembers(g) && Numbered(merged0, offset)
    requires forall k :: k in merged0 ==> k.group != g.id
    ensures Numbered(merged, offset) && GroupDone(g, touched, merged) && SameElsewhere(g, merged0, merged)
  {
    hide Numbered, MembersDone, DistinctMembers, SameElsewhere;
    merged := merged0;
    NothingChanged(g, merged);
    NothingRecordedYet(g, touched, merged);
    for me := 0 to |g.members|
      invariant Numbered(merged, offset) && SameElsewhere(g, merged0, merged)
      invariant MembersDone(g, touched, me, merged)
    {
      ghost var before := merged;
      merged := MergeMember(g, me, touched, offset, merged);
      ChangesCompose(g, merged0, before, merged);
    }
  }

  /** Everything recorded is the finding of one (group, category) pair. */
  ghost predicate OnlyFrom(gs: seq<Group>, n: nat, merged: Merged)
    requires n <= |gs|
  {
    forall k :: k in merged ==> exists i :: 0 <= i < n && k == KeyOf(gs[i], k.category)
  }

  lemma NothingFrom(gs: seq<Group>, offset: nat)
    ensures OnlyFrom(gs, 0, map[]) && Numbered(map[], offset)
  {
  }

  lemma FreshGroup(gs: seq<Group>, n: nat, merged: Merged)
    requires DistinctGroups(gs) && n < |gs| && OnlyFrom(gs, n, merged)
    ensures DistinctMembers(gs[n])
    ensures forall i :: 0 <= i < n ==> gs[i].id != gs[n].id
    ensures forall k :: k in merged ==> k.group != gs[n].id
  {
  }

  lemma StillOnlyFrom(gs: seq<Group>, n: nat, before: Merged, after: Merged)
    requires n < |gs| && OnlyFrom(gs, n, before) && SameElsewhere(gs[n], before, after)
    ensures OnlyFrom(gs, n + 1, after)
  {
    forall k | k in after ensures exists i :: 0 <= i < n + 1 && k == KeyOf(gs[i], k.category) {
      if k in before {
        var i :| 0 <= i < n && k == KeyOf(gs[i], k.category);
      } else {
        assert k == KeyOf(gs[n], k.category);
      }
    }
  }

  lemma DoneStaysDone(g: Group, h: Group, touched: set<FilePath>, before: Merged, after: Merged)
    requires g.id != h.id && GroupDone(g, touched, before) && SameElsewhere(h, before, after)
    ensures GroupDone(g, touched, after)
  {
    forall c ensures RecordedUpTo(g, touched, c, |g.members|, after) {
      assert RecordedUpTo(g, touched, c, |g.members|, before);
    }
  }

  /** `patch_sibling_findings`, given the files the fixes touched. */
  method PatchSiblingFindings(touched: set<FilePath>, gs: seq<Group>, offset: nat) returns (merged: Merged)
    requires DistinctGroups(gs)
    ensures forall i :: 0 <= i < |gs| ==> GroupDone(gs[i], touched, merged)
    ensures OnlyFrom(gs, |gs|, merged)
    ensures Numbered(merged, offset)
  {
    hide GroupDone, DistinctMembers, SameElsewhere, OnlyFrom, Numbered, DistinctGroups;
    merged := map[];
    NothingFrom(gs, offset);
    for n := 0 to |gs|
      invariant forall i :: 0 <= i < n ==> GroupDone(gs[i], touched, merged)
      invariant OnlyFrom(gs, n, merged) && Numbered(merged, offset)
    {
      ghost var before := merged;
      FreshGroup(gs, n, merged);
      merged := MergeGroup(gs[n], touched, offset, merged);
      StillOnlyFrom(gs, n, before, merged);
      forall i | 0 <= i < n ensures GroupDone(gs[i], touched, merged) {
        DoneStaysDone(gs[i], gs[n], touched, before, merged);
      }
    }
  }

  // --------------------------------------------------------------- main results

  lemma {:induction false} SomePatched(ms: seq<Member>, touched: set<FilePath>, c: Category, k: nat)
    requires k <= |ms|
    ensures Patched(ms, touched, c, k) != [] <==>
              exists a :: 0 <= a < k && c in ms[a].controls && ms[a].file in touched
  {
    if k > 0 {
      SomePatched(ms, touched, c, k - 1);
    }
  }

  lemma {:induction false} SomeMissing(ms: seq<Member>, c: Category, k: nat)
    requires k <= |ms|
    ensures NonCarriers(ms, c, k) != [] <==> exists b :: 0 <= b < k && c !in ms[b].controls
  {
    if k > 0 {
      SomeMissing(ms, c, k - 1);
    }
  }

  lemma {:induction false} PatchedMembers(g: Group, touched: set<FilePath>, c: Category, k: nat, j: nat)
    requires DistinctMembers(g) && k <= |g.members| && j < |g.members|
    ensures g.members[j].symbol in Patched(g.members, touched, c, k) <==>
              j < k && c in g.members[j].controls && g.members[j].file in touched
  {
    if k > 0 {
      PatchedMembers(g, touched, c, k - 1, j);
    }
  }

  lemma {:induction false} MissingMembers(g: Group, c: Category, k: nat, j: nat)
    requires DistinctMembers(g) && k <= |g.members| && j < |g.members|
    ensures g.members[j].symbol in NonCarriers(g.members, c, k) <==> j < k && c !in g.members[j].controls
  {
    if k > 0 {
      MissingMembers(g, c, k - 1, j);
    }
  }

  /** There is a finding for (group, category) exactly when some patched member carries the
      category and some member does not, and then it is the only one; it lists every patched
      carrier and every non-carrier. */
  lemma OneFindingPerPair(touched: set<FilePath>, gs: seq<Group>, offset: nat, merged: Merged, i: nat, c: Category)
    requires DistinctGroups(gs) && i < |gs| && GroupDone(gs[i], touched, merged) && OnlyFrom(gs, |gs|, merged)
    ensures (exists k :: k in merged && k.group == gs[i].id && k.category == c) <==>
              (exists a, b :: 0 <= a < |gs[i].members| && 0 <= b < |gs[i].members|
                              && c in gs[i].members[a].controls && gs[i].members[a].file in touched
                              && c !in gs[i].members[b].controls)
    ensures forall k :: k in merged && k.group == gs[i].id && k.category == c ==> k == KeyOf(gs[i], c)
    ensures KeyOf(gs[i], c) in merged ==>
              forall m :: m in gs[i].members ==>
                && (m.symbol in merged[KeyOf(gs[i], c)].carriers <==> c in m.controls && m.file in touched)
                && (m.symbol in merged[KeyOf(gs[i], c)].missing <==> c !in m.controls)
  {
    var g := gs[i];
    var key := KeyOf(g, c);
    var n := |g.members|;
    assert RecordedUpTo(g, touched, c, n, merged);
    forall k | k in merged && k.group == g.id && k.category == c ensures k == key {
      var j :| 0 <= j < |gs| && k == KeyOf(gs[j], k.category);
    }
    SomePatched(g.members, touched, c, n);
    SomeMissing(g.members, c, n);
    if key in merged {
      forall m | m in g.members
        ensures m.symbol in merged[key].carriers <==> c in m.controls && m.file in touched
        ensures m.symbol in merged[key].missing <==> c !in m.controls
      {
        var j :| 0 <= j < n && g.members[j] == m;
        PatchedMembers(g, touched, c, n, j);
        MissingMembers(g, c, n, j);
      }
    }
  }

  /** Each patched carrier is listed once. */
  lemma {:induction false} CarriersListedOnce(g: Group, touched: set<FilePath>, c: Category, k: nat)
    requires DistinctMembers(g) && k <= |g.members|
    ensures forall a, b :: 0 <= a < b < |Patched(g.members, touched, c, k)| ==>
              Patched(g.members, touched, c, k)[a] != Patched(g.members, touched, c, k)[b]
  {
    if k > 0 {
      CarriersListedOnce(g, touched, c, k - 1);
      PatchedMembers(g, touched, c, k - 1, k - 1);
    }
  }

  /** The agreement follows merged carriers, but the risk was fixed when the first one was
      seen: it is what the final lists call for exactly when the group is small, the control
      is no authorization control, or only one of its carriers is patched. */
  lemma RiskIgnoresMergedCarriers(touched: set<FilePath>, g: Group, merged: Merged, c: Category)
    requires GroupDone(g, touched, merged) && KeyOf(g, c) in merged
    ensures var f := merged[KeyOf(g, c)];
            && f.agreement == Agreement(|f.carriers|, |f.missing|)
            && (f.risk == RiskFor(c.family, |g.members|, |f.carriers|) <==>
                 c.family != Authz || |g.members| < 3 || |Patched(g.members, touched, c, |g.members|)| < 2)
  {
    assert RecordedUpTo(g, touched, c, |g.members|, merged);
  }

  function StaleGroup(): Group {
    var controls := [Category(1, Authz)];
    Group(1, [Member(10, 7, controls), Member(11, 7, controls), Member(12, 7, [])])
  }

  /** Two patched handlers of three enforce ownership: the finding about the third says
      `medium`, although its own lists call for `high`. */
  lemma StaleRisk(merged: Merged)
    requires GroupDone(StaleGroup(), {7}, merged)
    ensures var key := KeyOf(StaleGroup(), Category(1, Authz));
            && key in merged && merged[key].carriers == [10, 11] && merged[key].missing == [12]
            && merged[key].risk == Medium
            && RiskFor(Authz, |StaleGroup().members|, |merged[key].carriers|) == High
  {
    var g, c := StaleGroup(), Category(1, Authz);
    assert RecordedUpTo(g, {7}, c, 3, merged);
    assert Patched(g.members, {7}, c, 1) == [10] && Patched(g.members, {7}, c, 2) == [10, 11];
    assert NonCarriers(g.members, c, 1) == [] && NonCarriers(g.members, c, 2) == [];
  }

  // ------------------------------------------------------------ sibling comparison

  const MIN_GROUP_SIZE := 2

  function CarrierFloor(size: nat): nat {
    if size <= 2 then 1 else 2
  }

  /** `diff_group` reports category `c`: enough carriers, someone missing, half in agreement. */
  predicate Reported(g: Group, c: Category) {
    var n := |g.members|;
    var carriers, missing := |Carriers(g.members, c, n)|, |NonCarriers(g.members, c, n)|;
    n >= MIN_GROUP_SIZE && carriers >= CarrierFloor(n) && missing > 0 && Agreement(carriers, missing) >= 0.5
  }

  function DiffFinding(g: Group, c: Category, number: nat): Finding {
    var carriers, missing := Carriers(g.members, c, |g.members|), NonCarriers(g.members, c, |g.members|);
    Finding(number, g.id, c, RiskFor(c.family, |g.members|, |carriers|), carriers, missing,
            Agreement(|carriers|, |missing|))
  }

  ghost predicate InNameOrder(cs: seq<Category>) {
    forall i, j :: 0 <= i < j < |cs| ==> cs[i] != cs[j] && cs[i].name <= cs[j].name
  }

  /** `c` put in its place by name, unless it is there already. */
  function Inserted(cs: seq<Category>, c: Category): (r: seq<Category>)
    ensures forall x :: x in r <==> x == c || x in cs
  {
    if c in cs then cs
    else if cs == [] || c.name < cs[0].name then [c] + cs
    else
      assert cs == [cs[0]] + cs[1..];
      [cs[0]] + Inserted(cs[1..], c)
  }

  lemma FirstInOrder(c: Category, cs: seq<Category>)
    requires InNameOrder(cs) && forall x :: x in cs ==> x != c && c.name <= x.name
    ensures InNameOrder([c] + cs)
  {
    forall i, j | 0 <= i < j < |[c] + cs|
      ensures ([c] + cs)[i] != ([c] + cs)[j] && ([c] + cs)[i].name <= ([c] + cs)[j].name
    {
      assert ([c] + cs)[j] == cs[j - 1] && cs[j - 1] in cs;
    }
  }

  lemma {:induction false} InsertedInOrder(cs: seq<Category>, c: Category)
    requires InNameOrder(cs)
    ensures InNameOrder(Inserted(cs, c))
  {
    if c !in cs {
      if cs == [] || c.name < cs[0].name {
        FirstInOrder(c, cs);
      } else {
        InsertedInOrder(cs[1..], c);
        FirstInOrder(cs[0], Inserted(cs[1..], c));
      }
    }
  }

  ghost predicate CarriedBy(ms: seq<Member>, k: nat, c: Category)
    requires k <= |ms|
  {
    exists i :: 0 <= i < k && c in ms[i].controls
  }

  /** The categories any member carries, sorted. */
  method CollectCategories(ms: seq<Member>) returns (categories: seq<Category>)
    ensures InNameOrder(categories)
    ensures forall c :: c in categories <==> CarriedBy(ms, |ms|, c)
  {
    categories := [];
    for k := 0 to |ms|
      invariant InNameOrder(categories)
      invariant forall c :: c in categories <==> CarriedBy(ms, k, c)
    {
      ghost var before := categories;
      var controls := ms[k].controls;
      for j := 0 to |controls|
        invariant InNameOrder(categories)
        invariant forall c :: c in categories <==> c in before || c in controls[..j]
      {
        InsertedInOrder(categories, controls[j]);
        categories := Inserted(categories, controls[j]);
      }
      forall c ensures CarriedBy(ms, k + 1, c) <==> CarriedBy(ms, k, c) || c in controls {
      }
    }
  }

  lemma {:induction false} CarriersAreCarried(ms: seq<Member>, c: Category, k: nat)
    requires k <= |ms| && Carriers(ms, c, k) != []
    ensures CarriedBy(ms, |ms|, c)
  {
    var last := k - 1;
    if c in ms[last].controls {
      assert 0 <= last < |ms|;
    } else {
      assert Carriers(ms, c, k) == Carriers(ms, c, last);
      CarriersAreCarried(ms, c, last);
    }
  }

  /** Finding `i` is what the comparison says about its category. */
  ghost predicate Compared(g: Group, f: Finding, number: nat) {
    Reported(g, f.category) && f == DiffFinding(g, f.category, number)
  }

  ghost predicate Mentions(findings: seq<Finding>, group: int, c: Category) {
    exists i :: 0 <= i < |findings| && findings[i].group == group && findings[i].category == c
  }

  lemma DiffFindingIsOf(g: Group, c: Category, number: nat)
    ensures DiffFinding(g, c, number).group == g.id && DiffFinding(g, c, number).category == c
    ensures DiffFinding(g, c, number).number == number
  {
  }

  lemma MentionsEither(a: seq<Finding>, b: seq<Finding>, group: int, c: Category)
    ensures Mentions(a + b, group, c) <==> Mentions(a, group, c) || Mentions(b, group, c)
  {
    if i :| 0 <= i < |a| && a[i].group == group && a[i].category == c {
      assert (a + b)[i] == a[i];
    }
    if i :| 0 <= i < |b| && b[i].group == group && b[i].category == c {
      assert (a + b)[|a| + i] == b[i];
    }
  }

  lemma ReportedIsCarried(g: Group, c: Category)
    requires Reported(g, c)
    ensures CarriedBy(g.members, |g.members|, c)
  {
    CarriersAreCarried(g.members, c, |g.members|);
  }

  /** `diff_group`: one finding for exactly the reported categories, in name order, numbered
      on from `offset`. */
  method DiffGroup(g: Group, offset: nat) returns (findings: seq<Finding>)
    ensures forall i :: 0 <= i < |findings| ==>
              Compared(g, findings[i], offset + 1 + i) && findings[i].number == offset + 1 + i
    ensures forall c :: Reported(g, c) <==> Mentions(findings, g.id, c)
    ensures forall i, j :: 0 <= i < j < |findings| ==>
              findings[i].category != findings[j].category
              && findings[i].category.name <= findings[j].category.name
  {
    hide Reported, DiffFinding;
    var categories := CollectCategories(g.members);
    findings := [];
    for k := 0 to |categories|
      invariant forall i :: 0 <= i < |findings| ==>
                  findings[i].category in categories[..k] && Compared(g, findings[i], offset + 1 + i)
                  && findings[i].number == offset + 1 + i
      invariant forall x :: 0 <= x < k && Reported(g, categories[x]) ==> Mentions(findings, g.id, categories[x])
      invariant forall i, j :: 0 <= i < j < |findings| ==>
                  findings[i].category != findings[j].category
                  && findings[i].category.name <= findings[j].category.name
    {
      var c := categories[k];
      assert c !in categories[..k];
      ghost var before := findings;
      if Reported(g, c) {
        DiffFindingIsOf(g, c, offset + |findings| + 1);
        findings := findings + [DiffFinding(g, c, offset + |findings| + 1)];
        assert findings[|before|].category == c;
      }
      forall x | 0 <= x < k + 1 && Reported(g, categories[x]) ensures Mentions(findings, g.id, categories[x]) {
        if x < k {
          MentionsEither(before, findings[|before|..], g.id, categories[x]);
          assert findings == before + findings[|before|..];
        }
      }
    }
    forall c | Reported(g, c) ensures Mentions(findings, g.id, c) {
      ReportedIsCarried(g, c);
      var x :| 0 <= x < |categories| && categories[x] == c;
    }
  }

  /** No two findings of either producer share a number. */
  ghost predicate DistinctNumbers(compared: seq<Finding>, merged: Merged) {
    && (forall i, j :: 0 <= i < j < |compared| ==> compared[i].number != compared[j].number)
    && (forall k, l :: k in merged && l in merged && k != l ==> merged[k].number != merged[l].number)
    && forall i, k :: 0 <= i < |compared| && k in merged ==> compared[i].number != merged[k].number
  }

  ghost predicate ComparedIn(gs: seq<Group>, n: nat, f: Finding, number: nat)
    requires n <= |gs|
  {
    exists m :: 0 <= m < n && Compared(gs[m], f, number)
  }

  /** Every comparison finding is about one of the first `n` groups, and about it alone. */
  ghost predicate ComparedUpTo(gs: seq<Group>, n: nat, compared: seq<Finding>)
    requires n <= |gs|
  {
    && (forall i :: 0 <= i < |compared| ==> ComparedIn(gs, n, compared[i], i + 1))
    && (forall m, c :: 0 <= m < n ==> (Reported(gs[m], c) <==> Mentions(compared, gs[m].id, c)))
    && forall i, j :: 0 <= i < j < |compared| ==>
         compared[i].group != compared[j].group || compared[i].category != compared[j].category
  }

  lemma ComparedGroup(g: Group, f: Finding, number: nat)
    requires Compared(g, f, number)
    ensures f.group == g.id
  {
  }

  lemma MentionsOf(findings: seq<Finding>, group: int, c: Category)
    requires forall i :: 0 <= i < |findings| ==> findings[i].group != group
    ensures !Mentions(findings, group, c)
  {
  }

  lemma ComparedStep(gs: seq<Group>, n: nat, before: seq<Finding>, findings: seq<Finding>)
    requires DistinctGroups(gs) && n < |gs| && ComparedUpTo(gs, n, before)
    requires forall i :: 0 <= i < |findings| ==> Compared(gs[n], findings[i], |before| + 1 + i)
    requires forall c :: Reported(gs[n], c) <==> Mentions(findings, gs[n].id, c)
    requires forall i, j :: 0 <= i < j < |findings| ==> findings[i].category != findings[j].category
    ensures ComparedUpTo(gs, n + 1, before + findings)
  {
    hide Reported, DistinctMembers, Compared, Mentions;
    var after := before + findings;
    forall i | 0 <= i < |after| ensures ComparedIn(gs, n + 1, after[i], i + 1) {
      if i < |before| {
        assert ComparedIn(gs, n, before[i], i + 1);
        var m :| 0 <= m < n && Compared(gs[m], before[i], i + 1);
        assert Compared(gs[m], after[i], i + 1);
      } else {
        assert Compared(gs[n], after[i], i + 1);
      }
    }
    forall i | 0 <= i < |before| ensures before[i].group != gs[n].id {
      assert ComparedIn(gs, n, before[i], i + 1);
      var m :| 0 <= m < n && Compared(gs[m], before[i], i + 1);
      ComparedGroup(gs[m], before[i], i + 1);
    }
    forall i | 0 <= i < |findings| ensures findings[i].group == gs[n].id {
      ComparedGroup(gs[n], findings[i], |before| + 1 + i);
    }
    forall m, c | 0 <= m < n + 1 ensures Reported(gs[m], c) <==> Mentions(after, gs[m].id, c) {
      MentionsEither(before, findings, gs[m].id, c);
      MentionsOf(if m == n then before else findings, gs[m].id, c);
    }
  }

  lemma NothingCompared(gs: seq<Group>)
    ensures ComparedUpTo(gs, 0, [])
  {
  }

  /** `build_differential`: every group compared, then the patch findings numbered on. */
  method BuildDifferential(gs: seq<Group>, touched: set<FilePath>) returns (compared: seq<Finding>, merged: Merged)
    requires DistinctGroups(gs)
    ensures ComparedUpTo(gs, |gs|, compared)
    ensures forall i :: 0 <= i < |gs| ==> GroupDone(gs[i], touched, merged)
    ensures OnlyFrom(gs, |gs|, merged)
    ensures DistinctNumbers(compared, merged)
  {
    hide GroupDone, OnlyFrom, Compared, ComparedUpTo, Reported, DistinctGroups, Mentions;
    compared := [];
    NothingCompared(gs);
    for n := 0 to |gs|
      invariant ComparedUpTo(gs, n, compared)
      invariant forall i :: 0 <= i < |compared| ==> compared[i].number == i + 1
    {
      var findings := DiffGroup(gs[n], |compared|);
      ComparedStep(gs, n, compared, findings);
      compared := compared + findings;
    }
    merged := PatchSiblingFindings(touched, gs, |compared|);
  }

  lemma Scale(x: real, y: real, n: real)
    requires x >= y && n >= 0.0
    ensures x * n >= y * n
  {
  }

  lemma ScaleBelow(x: real, y: real, n: real)
    requires x < y && n > 0.0
    ensures x * n < y * n
  {
  }

  lemma HalfOfTimes(ratio: real, a: nat, n: nat)
    requires n > 0 && ratio * n as real == a as real
    ensures ratio >= 0.5 <==> 2 * a >= n
  {
    if ratio >= 0.5 {
      Scale(ratio, 0.5, n as real);
    } else {
      ScaleBelow(ratio, 0.5, n as real);
      assert a as real < 0.5 * n as real;
    }
  }

  lemma HalfIsTwice(a: nat, n: nat)
    requires n > 0
    ensures a as real / n as real >= 0.5 <==> 2 * a >= n
  {
    HalfOfTimes(a as real / n as real, a, n);
  }

  lemma NearlyHalf(ratio: real, a: nat, n: nat)
    requires 0 < n < 10000 && ratio == a as real / n as real && 2 * a < n
    ensures 10000.0 * ratio < 4999.5
  {
    assert ratio * n as real == a as real;
    assert (2 * a) as real <= (n - 1) as real;
    if ratio >= 0.49995 {
      Scale(ratio, 0.49995, n as real);
    }
  }

  /** The threshold is read off the agreement as shown, rounded to four decimals; in a group of
      fewer than ten thousand that makes no difference. */
  lemma RoundingKeepsTheThreshold(carriers: nat, missing: nat, shown: int)
    requires 0 < carriers + missing < 10000
    requires -0.5 <= shown as real - 10000.0 * Agreement(carriers, missing) <= 0.5
    ensures shown >= 5000 <==> Agreement(carriers, missing) >= 0.5
  {
    var n := carriers + missing;
    var ratio := Agreement(carriers, missing);
    HalfIsTwice(carriers, n);
    if ratio < 0.5 {
      NearlyHalf(ratio, carriers, n);
    }
  }

  lemma {:induction false} CarriersAndNonCarriers(ms: seq<Member>, c: Category, k: nat)
    requires k <= |ms|
    ensures |Carriers(ms, c, k)| + |NonCarriers(ms, c, k)| == k
  {
    if k > 0 {
      CarriersAndNonCarriers(ms, c, k - 1);
    }
  }

  /** The places of the members of `g` that carry `c`. */
  ghost function Holders(g: Group, c: Category): set<nat> {
    set i: nat | i < |g.members| && c in g.members[i].controls
  }

  ghost function HoldersUpTo(g: Group, c: Category, k: nat): set<nat>
    requires k <= |g.members|
  {
    set i: nat | i < k && c in g.members[i].controls
  }

  lemma {:induction false} HoldersAreCarriers(g: Group, c: Category, k: nat)
    requires k <= |g.members|
    ensures |HoldersUpTo(g, c, k)| == |Carriers(g.members, c, k)|
    ensures HoldersUpTo(g, c, |g.members|) == Holders(g, c)
  {
    if k == 0 {
      assert HoldersUpTo(g, c, 0) == {};
    } else {
      HoldersAreCarriers(g, c, k - 1);
      assert HoldersUpTo(g, c, k)
             == HoldersUpTo(g, c, k - 1) + if c in g.members[k - 1].controls then {k - 1} else {};
    }
  }

  /** A pair never grades `high`, and a `high` finding has a carrying majority behind it. */
  lemma HighNeedsAConvention(g: Group, c: Category, number: nat)
    requires Reported(g, c) && DiffFinding(g, c, number).risk == High
    ensures c.family == Authz && |g.members| >= 3
    ensures 2 * |DiffFinding(g, c, number).carriers| >= |g.members| > |DiffFinding(g, c, number).carriers|
  {
    CarriersAndNonCarriers(g.members, c, |g.members|);
    HalfIsTwice(|Carriers(g.members, c, |g.members|)|, |g.members|);
  }

  /** With the default thresholds the floors for group size and carriers never decide: a category
      is reported exactly when at least half of the group carries it, and not all. */
  lemma ReportedExactlyWhen(g: Group, c: Category)
    ensures Reported(g, c) <==> |Holders(g, c)| < |g.members| <= 2 * |Holders(g, c)|
  {
    var n := |g.members|;
    HoldersAreCarriers(g, c, n);
    CarriersAndNonCarriers(g.members, c, n);
    if n > 0 {
      HalfIsTwice(|Carriers(g.members, c, n)|, n);
    }
  }

  lemma {:induction false} ListedByControl(ms: seq<Member>, c: Category, k: nat, x: Symbol)
    requires k <= |ms|
    ensures x in Carriers(ms, c, k) <==> exists i :: 0 <= i < k && c in ms[i].controls && ms[i].symbol == x
    ensures x in NonCarriers(ms, c, k) <==> exists i :: 0 <= i < k && c !in ms[i].controls && ms[i].symbol == x
  {
    if k > 0 {
      ListedByControl(ms, c, k - 1, x);
    }
  }

  lemma AgreementIsAShare(carriers: nat, missing: nat)
    requires carriers + missing > 0
    ensures Agreement(carriers, missing) * (carriers + missing) as real == carriers as real
  {
  }

  /** Who a comparison finding lists: the members that carry the control, and those that do not. */
  lemma ComparisonLists(g: Group, c: Category, number: nat, x: Symbol)
    ensures var f := DiffFinding(g, c, number);
            && (x in f.carriers <==> exists m :: m in g.members && c in m.controls && m.symbol == x)
            && (x in f.missing <==> exists m :: m in g.members && c !in m.controls && m.symbol == x)
            && |f.carriers| == |Holders(g, c)| && |f.carriers| + |f.missing| == |g.members|
  {
    var n := |g.members|;
    HoldersAreCarriers(g, c, n);
    CarriersAndNonCarriers(g.members, c, n);
    ListedByControl(g.members, c, n, x);
    hide Agreement, RiskFor, Carriers, NonCarriers;
    forall m | m in g.members ensures exists i :: 0 <= i < n && g.members[i] == m {
    }
  }

  /** How it is graded: by the share that carries the control, and by family and group size. */
  lemma ComparisonGrade(g: Group, c: Category, number: nat)
    requires Reported(g, c)
    ensures var f := DiffFinding(g, c, number);
            && f.agreement * |g.members| as real == |Holders(g, c)| as real
            && f.risk == match c.family
                         case Authz => if |g.members| >= 3 then High else Medium
                         case Validation => Medium
                         case OtherFamily => Low
  {
    hide Agreement, Reported;
    var n := |g.members|;
    ReportedExactlyWhen(g, c);
    HoldersAreCarriers(g, c, n);
    CarriersAndNonCarriers(g.members, c, n);
    AgreementIsAShare(|Carriers(g.members, c, n)|, |NonCarriers(g.members, c, n)|);
  }

  /** A patch finding is never graded high. */
  lemma PatchRisk(touched: set<FilePath>, g: Group, merged: Merged, c: Category)
    requires GroupDone(g, touched, merged) && KeyOf(g, c) in merged
    ensures merged[KeyOf(g, c)].risk == if c.family == OtherFamily then Low else Medium
  {
    assert RecordedUpTo(g, touched, c, |g.members|, merged);
  }
}
