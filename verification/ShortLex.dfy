/** Shortlex order on call chains: shorter first, ties by the first differing symbol.
    Its least element among all chains between two symbols is exactly the
    lexicographically least of the shortest chains. */
module ShortLex {

  ghost predicate LexLess(p: seq<int>, q: seq<int>) {
    |p| > 0 && |q| > 0 && (p[0] < q[0] || (p[0] == q[0] && LexLess(p[1..], q[1..])))
  }

  ghost predicate Less(p: seq<int>, q: seq<int>) {
    |p| < |q| || (|p| == |q| && LexLess(p, q))
  }

  ghost predicate Leq(p: seq<int>, q: seq<int>) {
    p == q || Less(p, q)
  }

  lemma {:induction false} LexLessAppend(p: seq<int>, q: seq<int>, x: int, y: int)
    requires |p| == |q| && LexLess(p, q)
    ensures LexLess(p + [x], q + [y])
  {
    if p[0] == q[0] {
      LexLessAppend(p[1..], q[1..], x, y);
      assert (p + [x])[1..] == p[1..] + [x] && (q + [y])[1..] == q[1..] + [y];
    }
  }

  lemma LessAppend(p: seq<int>, q: seq<int>, x: int, y: int)
    requires Less(p, q)
    ensures Less(p + [x], q + [y])
  {
    if |p| == |q| {
      LexLessAppend(p, q, x, y);
    }
  }

  lemma LeqAppend(p: seq<int>, q: seq<int>, x: int)
    requires Leq(p, q)
    ensures Leq(p + [x], q + [x])
  {
    if p != q {
      LessAppend(p, q, x, x);
    }
  }

  lemma {:induction false} LessLast(p: seq<int>, x: int, y: int)
    requires x < y
    ensures Less(p + [x], p + [y])
  {
    if p != [] {
      LessLast(p[1..], x, y);
      assert (p + [x])[1..] == p[1..] + [x] && (p + [y])[1..] == p[1..] + [y];
    }
  }

  lemma {:induction false} LexLessTransitive(p: seq<int>, q: seq<int>, r: seq<int>)
    requires LexLess(p, q) && LexLess(q, r)
    ensures LexLess(p, r)
  {
    if p[0] == q[0] == r[0] {
      LexLessTransitive(p[1..], q[1..], r[1..]);
    }
  }

  lemma LeqTransitive(p: seq<int>, q: seq<int>, r: seq<int>)
    requires Leq(p, q) && Leq(q, r)
    ensures Leq(p, r)
  {
    if p != q && q != r && |p| == |r| {
      LexLessTransitive(p, q, r);
    }
  }

  lemma {:induction false} LexLessAsymmetric(p: seq<int>, q: seq<int>)
    requires LexLess(p, q)
    ensures !LexLess(q, p) && p != q
  {
    if p[0] == q[0] {
      LexLessAsymmetric(p[1..], q[1..]);
    }
  }

  lemma LessIsNotLeq(p: seq<int>, q: seq<int>)
    requires Less(p, q)
    ensures !Leq(q, p)
  {
    if |p| == |q| {
      LexLessAsymmetric(p, q);
    }
  }

  lemma LeqAntisymmetric(p: seq<int>, q: seq<int>)
    requires Leq(p, q) && Leq(q, p)
    ensures p == q
  {
    if p != q {
      LexLessAsymmetric(p, q);
    }
  }

  lemma {:induction false} LexTotal(p: seq<int>, q: seq<int>)
    requires |p| == |q|
    ensures p == q || LexLess(p, q) || LexLess(q, p)
  {
    if p != [] && p[0] == q[0] {
      LexTotal(p[1..], q[1..]);
      assert p == [p[0]] + p[1..] && q == [q[0]] + q[1..];
    }
  }

  lemma Total(p: seq<int>, q: seq<int>)
    ensures Leq(p, q) || Less(q, p)
  {
    if |p| == |q| {
      LexTotal(p, q);
    }
  }

  /** The order is the expected one: the first position where two chains differ decides. */
  lemma {:induction false} LexLessFirstDifference(p: seq<int>, q: seq<int>) returns (k: nat)
    requires LexLess(p, q)
    ensures k < |p| && k < |q| && p[..k] == q[..k] && p[k] < q[k]
  {
    if p[0] < q[0] {
      k := 0;
    } else {
      var i := LexLessFirstDifference(p[1..], q[1..]);
      k := i + 1;
      assert p[..k] == [p[0]] + p[1..][..i] && q[..k] == [q[0]] + q[1..][..i];
    }
  }
}
