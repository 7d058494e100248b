/** The active-agenda allocator of `build_research_agenda`: three greedy passes over the
    ranked candidates under a slot limit, a per-surface cap and a soft budget cap. */
module Agenda {

  const MAX_ENTRIES := 64
  const MAX_SLOTS := 16
  const MAX_PER_SURFACE := 8

  datatype Surface = Web | Protocol | Cloud | Mobile | Native | Unknown

  /** One candidate, at its place in the ranked list.  `topic` is its attack class, or its
      kind when it has none; `hold` says its status is `hold` on entry. */
  datatype Item = Item(surface: Surface, topic: string, hold: bool)

  type Bucket = (Surface, string)

  function BucketOf(item: Item): Bucket { (item.surface, item.topic) }

  function Clamp(value: int, low: nat, high: nat): (r: nat)
    requires low <= high
    ensures low <= r <= high
  {
    if value < low then low else if value > high then high else value
  }

  datatype Policy = Policy(slots: nat, perSurface: nat, hints: map<Surface, int>)

  function MakePolicy(slots: int, perSurface: int, hints: map<Surface, int>): Policy {
    Policy(Clamp(slots, 0, MAX_SLOTS), Clamp(perSurface, 1, MAX_PER_SURFACE), hints)
  }

  /** The cap `choose` applies on a surface. */
  function CapOn(p: Policy, s: Surface, respectBudget: bool): nat {
    if respectBudget && s in p.hints then
      var hint := Clamp(p.hints[s], 1, MAX_PER_SURFACE);
      if hint < p.perSurface then hint else p.perSurface
    else p.perSurface
  }

  function Eligible(items: seq<Item>, s: Surface): set<nat> {
    set i: nat | i < |items| && !items[i].hold && items[i].surface == s
  }

  function SelectedOn(items: seq<Item>, sel: seq<nat>, s: Surface): set<nat> {
    set i | i in sel && i < |items| && items[i].surface == s
  }

  function Buckets(items: seq<Item>, sel: seq<nat>): set<Bucket> {
    set i | i in sel && i < |items| :: BucketOf(items[i])
  }

  /** Why `choose` turns item `i` down. */
  predicate Blocked(items: seq<Item>, p: Policy, sel: seq<nat>, i: nat, diverse: bool, respect: bool)
    requires i < |items|
  {
    || |sel| >= p.slots
    || |SelectedOn(items, sel, items[i].surface)| >= CapOn(p, items[i].surface, respect)
    || (diverse && BucketOf(items[i]) in Buckets(items, sel))
  }

  /** One pass over the first `k` candidates. */
  function Pass(items: seq<Item>, p: Policy, sel: seq<nat>, k: nat, diverse: bool, respect: bool): seq<nat>
    requires k <= |items|
  {
    if k == 0 then sel
    else
      var before := Pass(items, p, sel, k - 1, diverse, respect);
      if items[k - 1].hold || (k - 1) in before || Blocked(items, p, before, k - 1, diverse, respect)
      then before else before + [k - 1]
  }

  function PassOne(items: seq<Item>, p: Policy): seq<nat> { Pass(items, p, [], |items|, true, true) }
  function PassTwo(items: seq<Item>, p: Policy): seq<nat> { Pass(items, p, PassOne(items, p), |items|, false, true) }
  function Selection(items: seq<Item>, p: Policy): seq<nat> { Pass(items, p, PassTwo(items, p), |items|, false, false) }

  // ---------------------------------------------------------------- invariants

  ghost predicate Sound(items: seq<Item>, p: Policy, sel: seq<nat>, respect: bool) {
    && |sel| <= p.slots
    && (forall j :: 0 <= j < |sel| ==> sel[j] < |items| && !items[sel[j]].hold)
    && (forall j, l :: 0 <= j < l < |sel| ==> sel[j] != sel[l])
    && (forall s :: |SelectedOn(items, sel, s)| <= CapOn(p, s, respect))
  }

  /** Within one bucket, what is selected is a prefix of what is eligible. */
  ghost predicate RankPrefix(items: seq<Item>, sel: seq<nat>) {
    forall i: nat, j: nat :: i < j < |items| && j in sel && !items[i].hold && BucketOf(items[i]) == BucketOf(items[j])
      ==> i in sel
  }

  lemma SelectedAppend(items: seq<Item>, sel: seq<nat>, i: nat)
    requires i < |items| && i !in sel
    ensures forall s :: SelectedOn(items, sel + [i], s)
                        == SelectedOn(items, sel, s) + if items[i].surface == s then {i} else {}
    ensures forall s :: |SelectedOn(items, sel + [i], s)|
                        == |SelectedOn(items, sel, s)| + if items[i].surface == s then 1 else 0
    ensures Buckets(items, sel + [i]) == Buckets(items, sel) + {BucketOf(items[i])}
  {
    forall s ensures SelectedOn(items, sel + [i], s)
                     == SelectedOn(items, sel, s) + if items[i].surface == s then {i} else {}
    {
    }
    assert i in sel + [i];
    forall b ensures b in Buckets(items, sel + [i]) <==> b in Buckets(items, sel) || b == BucketOf(items[i]) {
      if b in Buckets(items, sel) {
        var j :| j in sel && j < |items| && BucketOf(items[j]) == b;
        assert j in sel + [i];
      }
    }
  }

  lemma SubsetSize<T>(a: set<T>, b: set<T>)
    requires a <= b
    ensures |a| <= |b|
  {
    assert b == a + (b - a);
  }

  lemma SelectedGrows(items: seq<Item>, sel: seq<nat>, more: seq<nat>, s: Surface)
    requires sel <= more
    ensures SelectedOn(items, sel, s) <= SelectedOn(items, more, s)
    ensures |SelectedOn(items, sel, s)| <= |SelectedOn(items, more, s)|
    ensures Buckets(items, sel) <= Buckets(items, more)
  {
    assert forall i :: i in sel ==> i in more;
    SubsetSize(SelectedOn(items, sel, s), SelectedOn(items, more, s));
  }

  lemma BlockedPersists(items: seq<Item>, p: Policy, sel: seq<nat>, more: seq<nat>, i: nat,
                       diverse: bool, respect: bool)
    requires i < |items| && sel <= more && Blocked(items, p, sel, i, diverse, respect)
    ensures Blocked(items, p, more, i, diverse, respect)
  {
    SelectedGrows(items, sel, more, items[i].surface);
  }

  lemma ChosenIsSound(items: seq<Item>, p: Policy, sel: seq<nat>, i: nat, diverse: bool, respect: bool)
    requires i < |items| && i !in sel && !items[i].hold
    requires Sound(items, p, sel, respect) && !Blocked(items, p, sel, i, diverse, respect)
    ensures Sound(items, p, sel + [i], respect)
  {
    SelectedAppend(items, sel, i);
  }

  /** A pass only adds, keeps soundness, and turns down only what is blocked at its end. */
  lemma {:induction false} PassIsGreedy(items: seq<Item>, p: Policy, sel: seq<nat>, k: nat,
                                        diverse: bool, respect: bool)
    requires k <= |items| && Sound(items, p, sel, respect)
    ensures var r := Pass(items, p, sel, k, diverse, respect);
            && sel <= r && Sound(items, p, r, respect)
            && forall i: nat :: i < k && !items[i].hold && i !in r ==> Blocked(items, p, r, i, diverse, respect)
  {
    hide Sound, Blocked;
    if k > 0 {
      PassIsGreedy(items, p, sel, k - 1, diverse, respect);
      var before := Pass(items, p, sel, k - 1, diverse, respect);
      var r := Pass(items, p, sel, k, diverse, respect);
      if r != before {
        ChosenIsSound(items, p, before, k - 1, diverse, respect);
        forall i: nat | i < k && !items[i].hold && i !in r ensures Blocked(items, p, r, i, diverse, respect) {
          BlockedPersists(items, p, before, r, i, diverse, respect);
        }
      }
    }
  }

  lemma SameBucketSameFate(items: seq<Item>, p: Policy, sel: seq<nat>, i: nat, j: nat, diverse: bool, respect: bool)
    requires i < |items| && j < |items| && BucketOf(items[i]) == BucketOf(items[j])
    ensures Blocked(items, p, sel, i, diverse, respect) == Blocked(items, p, sel, j, diverse, respect)
  {
  }

  /** Taking an item keeps the prefix: an eligible one passed over before it in the same bucket
      would have been blocked for the same reasons. */
  lemma ChosenKeepsPrefix(items: seq<Item>, p: Policy, sel: seq<nat>, k: nat, diverse: bool, respect: bool)
    requires k < |items| && RankPrefix(items, sel) && !Blocked(items, p, sel, k, diverse, respect)
    requires forall i: nat :: i < k && !items[i].hold && i !in sel ==> Blocked(items, p, sel, i, diverse, respect)
    ensures RankPrefix(items, sel + [k])
  {
    hide Blocked;
    forall i: nat, j: nat | i < j < |items| && j in sel + [k] && !items[i].hold
                            && BucketOf(items[i]) == BucketOf(items[j])
      ensures i in sel + [k]
    {
      if j == k {
        SameBucketSameFate(items, p, sel, i, k, diverse, respect);
      }
    }
  }

  /** No priority inversion inside a bucket, whatever the pass. */
  lemma {:induction false} PassKeepsRankPrefix(items: seq<Item>, p: Policy, sel: seq<nat>, k: nat,
                                               diverse: bool, respect: bool)
    requires k <= |items| && Sound(items, p, sel, respect) && RankPrefix(items, sel)
    ensures RankPrefix(items, Pass(items, p, sel, k, diverse, respect))
  {
    hide Sound, RankPrefix, Blocked;
    if k > 0 {
      PassKeepsRankPrefix(items, p, sel, k - 1, diverse, respect);
      PassIsGreedy(items, p, sel, k - 1, diverse, respect);
      var before := Pass(items, p, sel, k - 1, diverse, respect);
      if Pass(items, p, sel, k, diverse, respect) != before {
        ChosenKeepsPrefix(items, p, before, k - 1, diverse, respect);
      }
    }
  }

  lemma LooserCapIsSound(items: seq<Item>, p: Policy, sel: seq<nat>)
    requires Sound(items, p, sel, true)
    ensures Sound(items, p, sel, false)
  {
    forall s ensures |SelectedOn(items, sel, s)| <= CapOn(p, s, false) {
      assert CapOn(p, s, true) <= CapOn(p, s, false);
    }
  }

  lemma NothingIsSound(items: seq<Item>, p: Policy)
    ensures Sound(items, p, [], true) && RankPrefix(items, [])
    ensures forall s :: SelectedOn(items, [], s) == {}
  {
    forall s ensures SelectedOn(items, [], s) == {} {
    }
  }

  /** The three passes: each extends the one before, and all are sound and inversion-free. */
  lemma PassesAreSound(items: seq<Item>, p: Policy)
    ensures PassOne(items, p) <= PassTwo(items, p) <= Selection(items, p)
    ensures Sound(items, p, PassOne(items, p), true) && Sound(items, p, PassTwo(items, p), true)
    ensures Sound(items, p, Selection(items, p), false)
    ensures RankPrefix(items, Selection(items, p))
  {
    NothingIsSound(items, p);
    PassIsGreedy(items, p, [], |items|, true, true);
    PassKeepsRankPrefix(items, p, [], |items|, true, true);
    PassIsGreedy(items, p, PassOne(items, p), |items|, false, true);
    PassKeepsRankPrefix(items, p, PassOne(items, p), |items|, false, true);
    LooserCapIsSound(items, p, PassTwo(items, p));
    PassIsGreedy(items, p, PassTwo(items, p), |items|, false, false);
    PassKeepsRankPrefix(items, p, PassTwo(items, p), |items|, false, false);
  }

  // -------------------------------------------------------------- size theorem

  function Min(a: nat, b: nat): nat { if a < b then a else b }

  /** What one surface can contribute at most. */
  function Share(items: seq<Item>, cap: nat, s: Surface): nat {
    Min(cap, |Eligible(items, s)|)
  }

  function Capacity(items: seq<Item>, cap: nat): nat {
    Share(items, cap, Web) + Share(items, cap, Protocol) + Share(items, cap, Cloud)
    + Share(items, cap, Mobile) + Share(items, cap, Native) + Share(items, cap, Unknown)
  }

  ghost function CountOn(items: seq<Item>, sel: seq<nat>, s: Surface): nat {
    |SelectedOn(items, sel, s)|
  }

  /** A pass that stopped short of the slots filled every surface to its cap or exhausted it. */
  lemma SurfaceIsFilled(items: seq<Item>, p: Policy, sel: seq<nat>, r: seq<nat>, respect: bool, s: Surface)
    requires Sound(items, p, sel, respect) && r == Pass(items, p, sel, |items|, false, respect)
    requires |r| < p.slots
    ensures |SelectedOn(items, r, s)| == Min(CapOn(p, s, respect), |Eligible(items, s)|)
  {
    PassIsGreedy(items, p, sel, |items|, false, respect);
    var chosen, all := SelectedOn(items, r, s), Eligible(items, s);
    assert chosen <= all;
    SubsetSize(chosen, all);
    if chosen != all {
      var i :| i in all && i !in chosen;
      assert Blocked(items, p, r, i, false, respect);
    }
  }

  lemma NothingSelected(items: seq<Item>)
    ensures forall s :: CountOn(items, [], s) == 0
  {
    NothingIsSound(items, Policy(0, 0, map[]));
  }

  lemma OneSurfaceGrows(items: seq<Item>, init: seq<nat>, i: nat, sel: seq<nat>)
    requires i < |items| && i !in init && sel == init + [i]
    ensures forall s :: CountOn(items, sel, s) == CountOn(items, init, s) + if items[i].surface == s then 1 else 0
  {
    SelectedAppend(items, init, i);
  }

  lemma {:induction false} SizeBySurface(items: seq<Item>, sel: seq<nat>)
    requires forall j :: 0 <= j < |sel| ==> sel[j] < |items|
    requires forall j, l :: 0 <= j < l < |sel| ==> sel[j] != sel[l]
    ensures |sel| == CountOn(items, sel, Web) + CountOn(items, sel, Protocol) + CountOn(items, sel, Cloud)
                     + CountOn(items, sel, Mobile) + CountOn(items, sel, Native) + CountOn(items, sel, Unknown)
  {
    hide CountOn;
    if sel == [] {
      NothingSelected(items);
    } else {
      var init, i := sel[..|sel| - 1], sel[|sel| - 1];
      SizeBySurface(items, init);
      OneSurfaceGrows(items, init, i, sel);
    }
  }

  lemma WithinShare(items: seq<Item>, p: Policy, sel: seq<nat>, s: Surface)
    requires Sound(items, p, sel, false)
    ensures CountOn(items, sel, s) <= Share(items, p.perSurface, s)
  {
    assert SelectedOn(items, sel, s) <= Eligible(items, s);
    SubsetSize(SelectedOn(items, sel, s), Eligible(items, s));
  }

  /** No allocation that respects the slots and the caps selects more than this. */
  lemma SoundIsWithinCapacity(items: seq<Item>, p: Policy, sel: seq<nat>)
    requires Sound(items, p, sel, false)
    ensures |sel| <= Min(p.slots, Capacity(items, p.perSurface))
  {
    SizeBySurface(items, sel);
    forall s ensures CountOn(items, sel, s) <= Share(items, p.perSurface, s) {
      WithinShare(items, p, sel, s);
    }
  }

  /** Main result: the greedy passes waste nothing.  The selection has exactly the size of
      the best any allocation could do under the slot limit and the per-surface cap. */
  lemma SelectionSize(items: seq<Item>, p: Policy)
    ensures |Selection(items, p)| == Min(p.slots, Capacity(items, p.perSurface))
  {
    PassesAreSound(items, p);
    var r := Selection(items, p);
    SoundIsWithinCapacity(items, p, r);
    if |r| < p.slots {
      LooserCapIsSound(items, p, PassTwo(items, p));
      forall s ensures CountOn(items, r, s) == Share(items, p.perSurface, s) {
        SurfaceIsFilled(items, p, PassTwo(items, p), r, false, s);
      }
      SizeBySurface(items, r);
    }
  }

  /** The same in the arguments of the call: with up to sixteen slots and one to eight items a
      surface, it is the best any allocation could do with just those; what lies outside these
      ranges counts as the nearest value inside. */
  lemma SelectionSizeInArguments(items: seq<Item>, slots: int, perSurface: int, hints: map<Surface, int>)
    ensures 0 <= slots <= 16 && 1 <= perSurface <= 8 ==>
              |Selection(items, MakePolicy(slots, perSurface, hints))|
              == Min(slots, Capacity(items, perSurface))
    ensures slots < 0 ==> MakePolicy(slots, perSurface, hints) == MakePolicy(0, perSurface, hints)
    ensures slots > 16 ==> MakePolicy(slots, perSurface, hints) == MakePolicy(16, perSurface, hints)
    ensures perSurface < 1 ==> MakePolicy(slots, perSurface, hints) == MakePolicy(slots, 1, hints)
    ensures perSurface > 8 ==> MakePolicy(slots, perSurface, hints) == MakePolicy(slots, 8, hints)
  {
    SelectionSize(items, MakePolicy(slots, perSurface, hints));
  }

  /** What a budget hint of one to eight does: after pass two its surface has exactly as many
      items as hint, cap and candidates allow, or fewer because the slots ran out; a surface
      without a hint goes by the cap alone. */
  lemma HintBindsPassTwo(items: seq<Item>, slots: int, perSurface: int, hints: map<Surface, int>, s: Surface)
    requires 0 <= slots <= 16 && 1 <= perSurface <= 8 && (s in hints ==> 1 <= hints[s] <= 8)
    ensures var two := PassTwo(items, MakePolicy(slots, perSurface, hints));
            var allowed := Min(if s in hints then Min(hints[s], perSurface) else perSurface, |Eligible(items, s)|);
            && |SelectedOn(items, two, s)| <= allowed
            && (|two| < slots ==> |SelectedOn(items, two, s)| == allowed)
  {
    var p := MakePolicy(slots, perSurface, hints);
    PassesAreSound(items, p);
    var two := PassTwo(items, p);
    assert SelectedOn(items, two, s) <= Eligible(items, s);
    SubsetSize(SelectedOn(items, two, s), Eligible(items, s));
    if |two| < slots {
      SurfaceIsFilled(items, p, PassOne(items, p), two, true, s);
    }
  }

  /** A hint outside one to eight counts as the nearest value inside. */
  lemma HintIsClamped(items: seq<Item>, slots: int, perSurface: int, hints: map<Surface, int>, s: Surface,
                      respect: bool)
    requires s in hints
    ensures hints[s] < 1 ==>
              CapOn(MakePolicy(slots, perSurface, hints), s, respect)
              == CapOn(MakePolicy(slots, perSurface, hints[s := 1]), s, respect)
    ensures hints[s] > 8 ==>
              CapOn(MakePolicy(slots, perSurface, hints), s, respect)
              == CapOn(MakePolicy(slots, perSurface, hints[s := 8]), s, respect)
  {
  }

  /** A budget cap gives way only once every surface has taken all its budget allows it. */
  lemma BudgetCapIsLastToYield(items: seq<Item>, p: Policy, s: Surface, other: Surface)
    requires |SelectedOn(items, Selection(items, p), s)| > CapOn(p, s, true)
    ensures |SelectedOn(items, Selection(items, p), other)| >= Min(CapOn(p, other, true), |Eligible(items, other)|)
    ensures |SelectedOn(items, PassTwo(items, p), other)| == Min(CapOn(p, other, true), |Eligible(items, other)|)
  {
    PassesAreSound(items, p);
    var two, r := PassTwo(items, p), Selection(items, p);
    assert two != r;
    SurfaceIsFilled(items, p, PassOne(items, p), two, true, other);
    SelectedGrows(items, two, r, other);
  }

  // ----------------------------------------------------------------- diversity

  function BucketsOn(items: seq<Item>, sel: seq<nat>, s: Surface): set<Bucket> {
    set i | i in sel && i < |items| && items[i].surface == s :: BucketOf(items[i])
  }

  lemma BucketsAppend(items: seq<Item>, sel: seq<nat>, i: nat, s: Surface)
    requires i < |items|
    ensures BucketsOn(items, sel + [i], s)
            == BucketsOn(items, sel, s) + if items[i].surface == s then {BucketOf(items[i])} else {}
  {
    assert i in sel + [i];
    forall b | b in BucketsOn(items, sel, s) ensures b in BucketsOn(items, sel + [i], s) {
      var j :| j in sel && j < |items| && items[j].surface == s && BucketOf(items[j]) == b;
      assert j in sel + [i];
    }
  }

  ghost predicate DistinctBuckets(items: seq<Item>, sel: seq<nat>) {
    && (forall j :: 0 <= j < |sel| ==> sel[j] < |items|)
    && forall j, l :: 0 <= j < l < |sel| ==> BucketOf(items[sel[j]]) != BucketOf(items[sel[l]])
  }

  lemma NewBucket(items: seq<Item>, sel: seq<nat>, i: nat)
    requires DistinctBuckets(items, sel) && i < |items| && BucketOf(items[i]) !in Buckets(items, sel)
    ensures DistinctBuckets(items, sel + [i]) && i !in sel
  {
    forall j | 0 <= j < |sel| ensures BucketOf(items[sel[j]]) != BucketOf(items[i]) {
      assert sel[j] in sel;
    }
  }

  lemma NewBucketCounts(items: seq<Item>, sel: seq<nat>, i: nat, s: Surface)
    requires i < |items| && i !in sel && BucketOf(items[i]) !in Buckets(items, sel)
    requires |BucketsOn(items, sel, s)| == |SelectedOn(items, sel, s)|
    ensures |BucketsOn(items, sel + [i], s)| == |SelectedOn(items, sel + [i], s)|
  {
    SelectedAppend(items, sel, i);
    BucketsAppend(items, sel, i, s);
    assert BucketsOn(items, sel, s) <= Buckets(items, sel);
  }

  lemma NoBuckets(items: seq<Item>, s: Surface)
    ensures DistinctBuckets(items, []) && SelectedOn(items, [], s) == {} && BucketsOn(items, [], s) == {}
  {
  }

  /** After the first pass every selected candidate has a bucket of its own. */
  lemma {:induction false} PassOneIsDiverse(items: seq<Item>, p: Policy, k: nat, s: Surface)
    requires k <= |items|
    ensures var r := Pass(items, p, [], k, true, true);
            DistinctBuckets(items, r) && |BucketsOn(items, r, s)| == |SelectedOn(items, r, s)|
  {
    hide DistinctBuckets;
    if k == 0 {
      NoBuckets(items, s);
    } else {
      PassOneIsDiverse(items, p, k - 1, s);
      var before := Pass(items, p, [], k - 1, true, true);
      if Pass(items, p, [], k, true, true) != before {
        NewBucket(items, before, k - 1);
        NewBucketCounts(items, before, k - 1, s);
      }
    }
  }

  lemma InItsBucket(items: seq<Item>, sel: seq<nat>, i: nat)
    requires i < |items|
    ensures i in sel ==> BucketOf(items[i]) in Buckets(items, sel)
  {
  }

  lemma BucketsGrow(items: seq<Item>, sel: seq<nat>, more: seq<nat>, s: Surface)
    requires sel <= more
    ensures BucketsOn(items, sel, s) <= BucketsOn(items, more, s)
  {
    forall b | b in BucketsOn(items, sel, s) ensures b in BucketsOn(items, more, s) {
      var j :| j in sel && j < |items| && items[j].surface == s && BucketOf(items[j]) == b;
      assert j in more;
    }
  }

  /** A bucket goes unrepresented only if distinct buckets alone used up the slots, or used
      up the budget of its surface. */
  lemma DiversityFirst(items: seq<Item>, p: Policy, i: nat)
    requires i < |items| && !items[i].hold && BucketOf(items[i]) !in Buckets(items, Selection(items, p))
    ensures var r := Selection(items, p);
            || |BucketsOn(items, r, items[i].surface)| >= CapOn(p, items[i].surface, true)
            || (|r| == p.slots && DistinctBuckets(items, r))
  {
    var s := items[i].surface;
    PassesAreSound(items, p);
    var one, r := PassOne(items, p), Selection(items, p);
    NothingIsSound(items, p);
    PassIsGreedy(items, p, [], |items|, true, true);
    PassOneIsDiverse(items, p, |items|, s);
    SelectedGrows(items, one, r, s);
    InItsBucket(items, one, i);
    if |one| == p.slots {
      assert one == r;
    } else {
      BucketsGrow(items, one, r, s);
      SubsetSize(BucketsOn(items, one, s), BucketsOn(items, r, s));
    }
  }

  // ------------------------------------------------------------- the allocator

  datatype Status = Chosen | Deferred | Held

  function StatusOf(items: seq<Item>, sel: seq<nat>, i: nat): Status
    requires i < |items|
  {
    if items[i].hold then Held else if i in sel then Chosen else Deferred
  }

  lemma {:induction false} FullPassStops(items: seq<Item>, p: Policy, sel: seq<nat>, k: nat, n: nat,
                                         diverse: bool, respect: bool)
    requires k <= n <= |items| && |Pass(items, p, sel, k, diverse, respect)| >= p.slots
    ensures Pass(items, p, sel, n, diverse, respect) == Pass(items, p, sel, k, diverse, respect)
    decreases n - k
  {
    if k < n {
      FullPassStops(items, p, sel, k, n - 1, diverse, respect);
    }
  }

  lemma StatusAppend(items: seq<Item>, sel: seq<nat>, status: seq<Status>, i: nat)
    requires i < |items| == |status| && !items[i].hold
    requires forall k :: 0 <= k < |items| ==> status[k] == StatusOf(items, sel, k)
    ensures forall k :: 0 <= k < |items| ==> status[i := Chosen][k] == StatusOf(items, sel + [i], k)
  {
  }

  /** The state `choose` updates in place. */
  class Allocator {
    const items: seq<Item>
    const policy: Policy
    var selected: seq<nat>
    var surfaceCounts: map<Surface, nat>
    var diversityBuckets: set<Bucket>
    var status: seq<Status>

    ghost predicate Valid()
      reads this
    {
      && (forall s :: Count(s) == |SelectedOn(items, selected, s)|)
      && diversityBuckets == Buckets(items, selected)
      && |status| == |items|
      && (forall i :: 0 <= i < |items| ==> status[i] == StatusOf(items, selected, i))
    }

    /** A missing key of a `Counter` reads as zero. */
    function Count(s: Surface): nat
      reads this
    {
      if s in surfaceCounts then surfaceCounts[s] else 0
    }

    constructor (items: seq<Item>, policy: Policy)
      ensures Valid() && selected == [] && this.items == items && this.policy == policy
    {
      this.items, this.policy := items, policy;
      selected, surfaceCounts, diversityBuckets := [], map[], {};
      status := seq(|items|, i requires 0 <= i < |items| => if items[i].hold then Held else Deferred);
      new;
      forall s ensures SelectedOn(items, [], s) == {} {
      }
    }

    method Choose(i: nat, diverse: bool, respectBudget: bool) returns (chosen: bool)
      requires Valid() && i < |items| && !items[i].hold && i !in selected
      modifies this
      ensures Valid()
      ensures chosen <==> !Blocked(items, policy, old(selected), i, diverse, respectBudget)
      ensures selected == if chosen then old(selected) + [i] else old(selected)
    {
      if |selected| >= policy.slots {
        return false;
      }
      var surface := items[i].surface;
      if Count(surface) >= CapOn(policy, surface, respectBudget) {
        return false;
      }
      var bucket := BucketOf(items[i]);
      if diverse && bucket in diversityBuckets {
        return false;
      }
      SelectedAppend(items, selected, i);
      StatusAppend(items, selected, status, i);
      status := status[i := Chosen];
      selected := selected + [i];
      surfaceCounts := surfaceCounts[surface := Count(surface) + 1];
      diversityBuckets := diversityBuckets + {bucket};
      return true;
    }

    method RunPass(diverse: bool, respectBudget: bool)
      requires Valid()
      modifies this
      ensures Valid()
      ensures selected == Pass(items, policy, old(selected), |items|, diverse, respectBudget)
    {
      for i := 0 to |items|
        invariant Valid()
        invariant selected == Pass(items, policy, old(selected), i, diverse, respectBudget)
      {
        if |selected| >= policy.slots {
          FullPassStops(items, policy, old(selected), i, |items|, diverse, respectBudget);
          return;
        }
        if !items[i].hold && i !in selected {
          var _ := Choose(i, diverse, respectBudget);
        }
      }
    }

    method Allocate()
      requires Valid() && selected == []
      modifies this
      ensures Valid()
      ensures selected == Selection(items, policy)
    {
      RunPass(true, true);
      RunPass(false, true);
      if |selected| < policy.slots {
        RunPass(false, false);
      } else {
        FullPassStops(items, policy, selected, 0, |items|, false, false);
      }
    }
  }

  // ----------------------------------------------------- final order and truncation

  /** The first `k` candidates with status `st`, in rank order. */
  function WithStatus(items: seq<Item>, sel: seq<nat>, st: Status, k: nat): seq<nat>
    requires k <= |items|
  {
    if k == 0 then []
    else WithStatus(items, sel, st, k - 1) + if StatusOf(items, sel, k - 1) == st then [k - 1] else []
  }

  /** Selected first, held last, by rank within each, and at most 64 of them. */
  function FinalOrder(items: seq<Item>, sel: seq<nat>): seq<nat> {
    var n := |items|;
    var all := WithStatus(items, sel, Chosen, n) + WithStatus(items, sel, Deferred, n)
               + WithStatus(items, sel, Held, n);
    if |all| <= MAX_ENTRIES then all else all[..MAX_ENTRIES]
  }

  lemma {:induction false} WithStatusMembers(items: seq<Item>, sel: seq<nat>, st: Status, k: nat)
    requires k <= |items|
    ensures forall i: nat :: i in WithStatus(items, sel, st, k) <==> i < k && StatusOf(items, sel, i) == st
  {
    hide StatusOf;
    if k > 0 {
      WithStatusMembers(items, sel, st, k - 1);
    }
  }

  /** The members of `sel` below `k`. */
  ghost function Below(sel: seq<nat>, k: nat): set<nat> {
    set i | i in sel && i < k
  }

  lemma BelowNext(sel: seq<nat>, k: nat)
    ensures |Below(sel, k + 1)| == |Below(sel, k)| + if k in sel then 1 else 0
  {
    assert Below(sel, k + 1) == Below(sel, k) + if k in sel then {k} else {};
  }

  lemma {:induction false} ChosenAreFew(items: seq<Item>, sel: seq<nat>, k: nat)
    requires k <= |items|
    ensures |WithStatus(items, sel, Chosen, k)| <= |Below(sel, k)|
  {
    if k > 0 {
      ChosenAreFew(items, sel, k - 1);
      BelowNext(sel, k - 1);
    }
  }

  lemma {:induction false} BelowAreFew(sel: seq<nat>, k: nat)
    ensures |Below(sel, k)| <= |sel|
  {
    if sel != [] {
      var init, last := sel[..|sel| - 1], sel[|sel| - 1];
      BelowAreFew(init, k);
      assert sel == init + [last];
      assert Below(sel, k) == Below(init, k) + if last < k then {last} else {};
    } else {
      assert Below(sel, k) == {};
    }
  }

  lemma {:induction false} AllAreBelow(sel: seq<nat>, k: nat)
    requires forall j :: 0 <= j < |sel| ==> sel[j] < k
    requires forall j, l :: 0 <= j < l < |sel| ==> sel[j] != sel[l]
    ensures |Below(sel, k)| == |sel|
  {
    if sel != [] {
      var init, last := sel[..|sel| - 1], sel[|sel| - 1];
      AllAreBelow(init, k);
      assert sel == init + [last] && last !in init;
      assert Below(sel, k) == Below(init, k) + {last};
    } else {
      assert Below(sel, k) == {};
    }
  }

  lemma SelectedIsChosen(items: seq<Item>, sel: seq<nat>, i: nat)
    requires i in sel && forall j :: 0 <= j < |sel| ==> sel[j] < |items| && !items[sel[j]].hold
    ensures i < |items| && StatusOf(items, sel, i) == Chosen
  {
    var j :| 0 <= j < |sel| && sel[j] == i;
  }

  /** Truncating the agenda never drops a selected candidate, and never shows it after others. */
  lemma SelectionSurvivesTruncation(items: seq<Item>, slots: int, perSurface: int, hints: map<Surface, int>, i: nat)
    requires i in Selection(items, MakePolicy(slots, perSurface, hints))
    ensures var sel := Selection(items, MakePolicy(slots, perSurface, hints));
            exists k :: 0 <= k < |FinalOrder(items, sel)| && k < |sel| && FinalOrder(items, sel)[k] == i
  {
    var p := MakePolicy(slots, perSurface, hints);
    var sel := Selection(items, p);
    PassesAreSound(items, p);
    var chosen := WithStatus(items, sel, Chosen, |items|);
    WithStatusMembers(items, sel, Chosen, |items|);
    ChosenAreFew(items, sel, |items|);
    BelowAreFew(sel, |items|);
    SelectedIsChosen(items, sel, i);
    var k :| 0 <= k < |chosen| && chosen[k] == i;
    assert FinalOrder(items, sel)[k] == i;
  }

  function Class(st: Status): nat {
    match st
    case Chosen => 0
    case Deferred => 1
    case Held => 2
  }

  /** The sort key of the emitted list: status class, then rank. */
  ghost predicate Precedes(items: seq<Item>, sel: seq<nat>, a: nat, b: nat) {
    && a < |items| && b < |items|
    && (Class(StatusOf(items, sel, a)) < Class(StatusOf(items, sel, b))
        || (StatusOf(items, sel, a) == StatusOf(items, sel, b) && a < b))
  }

  ghost predicate InOrder(items: seq<Item>, sel: seq<nat>, order: seq<nat>) {
    forall a, b :: 0 <= a < b < |order| ==> Precedes(items, sel, order[a], order[b])
  }

  lemma {:induction false} WithStatusInOrder(items: seq<Item>, sel: seq<nat>, st: Status, k: nat)
    requires k <= |items|
    ensures InOrder(items, sel, WithStatus(items, sel, st, k))
    ensures forall i :: i in WithStatus(items, sel, st, k) ==> i < k && StatusOf(items, sel, i) == st
  {
    if k > 0 {
      WithStatusInOrder(items, sel, st, k - 1);
      var before, all := WithStatus(items, sel, st, k - 1), WithStatus(items, sel, st, k);
      forall a, b | 0 <= a < b < |all| ensures Precedes(items, sel, all[a], all[b]) {
        assert all[a] == before[a] && before[a] in before;
      }
    }
  }

  lemma InOrderConcat(items: seq<Item>, sel: seq<nat>, x: seq<nat>, y: seq<nat>)
    requires InOrder(items, sel, x) && InOrder(items, sel, y)
    requires forall a, b :: a in x && b in y ==> Precedes(items, sel, a, b)
    ensures InOrder(items, sel, x + y)
  {
  }

  lemma {:induction false} EveryItemHasAStatus(items: seq<Item>, sel: seq<nat>, k: nat)
    requires k <= |items|
    ensures |WithStatus(items, sel, Chosen, k)| + |WithStatus(items, sel, Deferred, k)|
            + |WithStatus(items, sel, Held, k)| == k
  {
    if k > 0 {
      EveryItemHasAStatus(items, sel, k - 1);
    }
  }

  lemma PrefixPrecedesRest(items: seq<Item>, sel: seq<nat>, all: seq<nat>, n: nat)
    requires InOrder(items, sel, all) && n <= |all|
    ensures InOrder(items, sel, all[..n])
    ensures forall i, j :: j in all[..n] && i in all && i !in all[..n] ==> Precedes(items, sel, j, i)
  {
    assert forall c :: 0 <= c < n ==> all[c] in all[..n];
    forall i, j | j in all[..n] && i in all && i !in all[..n] ensures Precedes(items, sel, j, i) {
      var a :| 0 <= a < n && all[a] == j;
      var b :| 0 <= b < |all| && all[b] == i;
    }
  }

  /** The emitted list is strictly sorted by status class and rank, so nothing is listed twice;
      up to 64 candidates it lists every one, beyond that the first 64. */
  lemma FinalOrderIsSorted(items: seq<Item>, sel: seq<nat>)
    ensures InOrder(items, sel, FinalOrder(items, sel))
    ensures |FinalOrder(items, sel)| == Min(|items|, 64)
    ensures |items| <= 64 ==> forall i: nat :: i < |items| ==> i in FinalOrder(items, sel)
    ensures forall i: nat, j :: j in FinalOrder(items, sel) && i !in FinalOrder(items, sel) && i < |items| ==>
              Precedes(items, sel, j, i)
  {
    var n := |items|;
    var x, y := WithStatus(items, sel, Chosen, n), WithStatus(items, sel, Deferred, n);
    var z := WithStatus(items, sel, Held, n);
    forall st
      ensures InOrder(items, sel, WithStatus(items, sel, st, n))
      ensures forall i :: i in WithStatus(items, sel, st, n) ==> i < n && StatusOf(items, sel, i) == st
    {
      WithStatusInOrder(items, sel, st, n);
    }
    InOrderConcat(items, sel, x, y);
    InOrderConcat(items, sel, x + y, z);
    EveryItemHasAStatus(items, sel, n);
    var all := x + y + z;
    forall i: nat | i < n ensures i in all {
      WithStatusMembers(items, sel, StatusOf(items, sel, i), n);
    }
    PrefixPrecedesRest(items, sel, all, |FinalOrder(items, sel)|);
  }

  function ChosenAmong(status: seq<Status>): set<nat> {
    set i | 0 <= i < |status| && status[i] == Chosen
  }

  /** `build_research_agenda` from ranked candidates to the emitted item order. */
  method BuildAgenda(items: seq<Item>, slots: int, perSurface: int, hints: map<Surface, int>)
      returns (order: seq<nat>, status: seq<Status>)
    ensures order == FinalOrder(items, Selection(items, MakePolicy(slots, perSurface, hints)))
    ensures |status| == |items|
    ensures forall i :: 0 <= i < |items| ==>
              (status[i] == Chosen <==> i in Selection(items, MakePolicy(slots, perSurface, hints)))
              && (status[i] == Held <==> items[i].hold)
    ensures 0 <= slots <= 16 && 1 <= perSurface <= 8 ==>
              |ChosenAmong(status)| == Min(slots, Capacity(items, perSurface))
  {
    var p := MakePolicy(slots, perSurface, hints);
    var allocator := new Allocator(items, p);
    allocator.Allocate();
    PassesAreSound(items, p);
    order := FinalOrder(items, allocator.selected);
    status := allocator.status;
    forall i | 0 <= i < |items| ensures status[i] == Chosen <==> i in allocator.selected {
      if i in allocator.selected {
        var j :| 0 <= j < |allocator.selected| && allocator.selected[j] == i;
      }
    }
    AllAreBelow(allocator.selected, |items|);
    assert ChosenAmong(status) == Below(allocator.selected, |items|);
    SelectionSizeInArguments(items, slots, perSurface, hints);
  }
}
