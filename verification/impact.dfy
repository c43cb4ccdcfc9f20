/** Aggregation of life-cycle impact scores into the EF single score
    (LCA/mylib.py): each category score is divided by its normalisation
    factor, multiplied by its weighting factor, and the results are summed. */
module Impact {
  import opened Base

  /** Normalised-weighted contribution of one impact category. */
  function Weighted(score: real, nf: real, wf: real): real
    requires nf != 0.0
  {
    score / nf * wf
  }

  function Affine(a: real, x: real, y: real): real
  {
    a * x + y
  }

  lemma WeightedNonNegative(score: real, nf: real, wf: real)
    requires score >= 0.0 && nf > 0.0 && wf >= 0.0
    ensures Weighted(score, nf, wf) >= 0.0
  {
    assert score / nf >= 0.0;
  }

  lemma WeightedLinear(a: real, x: real, y: real, nf: real, wf: real)
    requires nf != 0.0
    ensures Weighted(Affine(a, x, y), nf, wf) == a * Weighted(x, nf, wf) + Weighted(y, nf, wf)
  {
    assert (a * x + y) / nf == a * (x / nf) + y / nf;
  }

  lemma WeightedMonotone(x: real, y: real, nf: real, wf: real)
    requires x <= y && nf > 0.0 && wf >= 0.0
    ensures Weighted(x, nf, wf) <= Weighted(y, nf, wf)
  {
    assert y / nf - x / nf == (y - x) / nf;
    assert (y / nf - x / nf) * wf >= 0.0;
  }

  lemma WeightedOfReference(nf: real, wf: real)
    requires nf != 0.0
    ensures Weighted(nf, nf, wf) == wf
  {
    assert nf / nf == 1.0;
  }

  /** Normalisation factors usable as divisors, aligned with the weights. */
  predicate ValidFactors(NF: seq<real>, WF: seq<real>)
  {
    |NF| == |WF| && forall i :: 0 <= i < |NF| ==> NF[i] != 0.0
  }

  /** The vector WS of normalised-weighted scores, scores / NF * WF taken
      entry by entry. */
  function Contributions(scores: seq<real>, NF: seq<real>, WF: seq<real>): (ws: seq<real>)
    requires ValidFactors(NF, WF) && |scores| == |NF|
    ensures |ws| == |scores|
    ensures forall i :: 0 <= i < |ws| ==> ws[i] == Weighted(scores[i], NF[i], WF[i])
  {
    seq(|scores|, i requires 0 <= i < |scores| => Weighted(scores[i], NF[i], WF[i]))
  }

  /** EF_single_score: the sum of the vector of contributions. */
  function SingleScore(scores: seq<real>, NF: seq<real>, WF: seq<real>): (r: real)
    requires ValidFactors(NF, WF) && |scores| == |NF|
    ensures |scores| == 0 ==> r == 0.0
    ensures |scores| == 1 ==> r == Weighted(scores[0], NF[0], WF[0])
  {
    var ws := Contributions(scores, NF, WF);
    assert |ws| == 1 ==> ws[..0] == [] && Sum(ws) == Sum(ws[..0]) + ws[0];
    Sum(ws)
  }

  /** Adding one more category to the vectors adds its normalised-weighted
      score to the single score. */
  lemma SingleScoreStep(scores: seq<real>, NF: seq<real>, WF: seq<real>, k: nat)
    requires ValidFactors(NF, WF) && |scores| == |NF| && k < |scores|
    ensures SingleScore(scores[..k + 1], NF[..k + 1], WF[..k + 1])
         == SingleScore(scores[..k], NF[..k], WF[..k]) + Weighted(scores[k], NF[k], WF[k])
  {
    var ws := Contributions(scores, NF, WF);
    assert Contributions(scores[..k + 1], NF[..k + 1], WF[..k + 1]) == ws[..k + 1];
    assert Contributions(scores[..k], NF[..k], WF[..k]) == ws[..k];
    SumStep(ws, k);
  }

  /** The sum of a vector of non-negative reals is non-negative. */
  lemma {:induction false} SumNonNegative(s: seq<real>)
    requires forall i :: 0 <= i < |s| ==> s[i] >= 0.0
    ensures Sum(s) >= 0.0
    decreases |s|
  {
    if |s| > 0 {
      SumNonNegative(s[..|s| - 1]);
    }
  }

  /** Non-negative scores under positive normalisation and non-negative
      weights give a non-negative single score. */
  lemma SingleScoreNonNegative(scores: seq<real>, NF: seq<real>, WF: seq<real>)
    requires ValidFactors(NF, WF) && |scores| == |NF|
    requires forall i :: 0 <= i < |scores| ==> scores[i] >= 0.0 && NF[i] > 0.0 && WF[i] >= 0.0
    ensures SingleScore(scores, NF, WF) >= 0.0
  {
    var ws := Contributions(scores, NF, WF);
    forall i | 0 <= i < |ws|
      ensures ws[i] >= 0.0
    {
      WeightedNonNegative(scores[i], NF[i], WF[i]);
    }
    SumNonNegative(ws);
  }

  /** a * v1 + v2, entry by entry. */
  function Combine(a: real, v1: seq<real>, v2: seq<real>): (v: seq<real>)
    requires |v1| == |v2|
    ensures |v| == |v1|
    ensures forall i :: 0 <= i < |v| ==> v[i] == Affine(a, v1[i], v2[i])
  {
    seq(|v1|, i requires 0 <= i < |v1| => Affine(a, v1[i], v2[i]))
  }

  lemma CombinePrefix(a: real, v1: seq<real>, v2: seq<real>, n: nat)
    requires |v1| == |v2| && n <= |v1|
    ensures Combine(a, v1, v2)[..n] == Combine(a, v1[..n], v2[..n])
  {
  }

  lemma ScaleEqual(a: real, x: real, y: real)
    requires x == y
    ensures a * x == a * y
  {
  }

  /** The arithmetic of one induction step of SumLinear. */
  lemma LinearStep(a: real, sc: real, p: real, w: real, s1: real, s2: real, x1: real, y1: real, x2: real, y2: real)
    requires sc == p + w && p == a * x1 + x2 && w == a * y1 + y2
    requires s1 == x1 + y1 && s2 == x2 + y2
    ensures sc == a * s1 + s2
  {
    assert a * (x1 + y1) == a * x1 + a * y1;
    ScaleEqual(a, s1, x1 + y1);
  }

  /** Summation is linear. */
  lemma {:induction false} SumLinear(a: real, v1: seq<real>, v2: seq<real>)
    requires |v1| == |v2|
    ensures Sum(Combine(a, v1, v2)) == a * Sum(v1) + Sum(v2)
    decreases |v1|
  {
    var c := Combine(a, v1, v2);
    if |v1| > 0 {
      var n := |v1| - 1;
      SumLinear(a, v1[..n], v2[..n]);
      CombinePrefix(a, v1, v2, n);
      assert Sum(c) == Sum(c[..n]) + c[n];
      assert Sum(v1) == Sum(v1[..n]) + v1[n];
      assert Sum(v2) == Sum(v2[..n]) + v2[n];
      assert c[n] == a * v1[n] + v2[n];
      LinearStep(a, Sum(c), Sum(c[..n]), c[n], Sum(v1), Sum(v2), Sum(v1[..n]), v1[n], Sum(v2[..n]), v2[n]);
    } else {
      assert Sum(c) == 0.0;
      assert Sum(v1) == 0.0 && Sum(v2) == 0.0;
      ScaleEqual(a, Sum(v1), 0.0);
    }
  }

  /** The single score is linear in the category scores. */
  lemma SingleScoreLinear(a: real, v1: seq<real>, v2: seq<real>, NF: seq<real>, WF: seq<real>)
    requires ValidFactors(NF, WF) && |v1| == |v2| == |NF|
    ensures SingleScore(Combine(a, v1, v2), NF, WF) == a * SingleScore(v1, NF, WF) + SingleScore(v2, NF, WF)
  {
    var w1, w2 := Contributions(v1, NF, WF), Contributions(v2, NF, WF);
    forall i | 0 <= i < |v1|
      ensures Contributions(Combine(a, v1, v2), NF, WF)[i] == Combine(a, w1, w2)[i]
    {
      WeightedLinear(a, v1[i], v2[i], NF[i], WF[i]);
    }
    assert Contributions(Combine(a, v1, v2), NF, WF) == Combine(a, w1, w2);
    SumLinear(a, w1, w2);
  }

  /** Summation is monotone entry by entry. */
  lemma {:induction false} SumMonotone(s1: seq<real>, s2: seq<real>)
    requires |s1| == |s2|
    requires forall i :: 0 <= i < |s1| ==> s1[i] <= s2[i]
    ensures Sum(s1) <= Sum(s2)
    decreases |s1|
  {
    if |s1| > 0 {
      SumMonotone(s1[..|s1| - 1], s2[..|s2| - 1]);
    }
  }

  /** With positive normalisation and non-negative weights, raising any
      category score never lowers the single score. */
  lemma SingleScoreMonotone(s1: seq<real>, s2: seq<real>, NF: seq<real>, WF: seq<real>)
    requires ValidFactors(NF, WF) && |s1| == |s2| == |NF|
    requires forall i :: 0 <= i < |NF| ==> NF[i] > 0.0 && WF[i] >= 0.0
    requires forall i :: 0 <= i < |s1| ==> s1[i] <= s2[i]
    ensures SingleScore(s1, NF, WF) <= SingleScore(s2, NF, WF)
  {
    forall i | 0 <= i < |s1|
      ensures Contributions(s1, NF, WF)[i] <= Contributions(s2, NF, WF)[i]
    {
      WeightedMonotone(s1[i], s2[i], NF[i], WF[i]);
    }
    SumMonotone(Contributions(s1, NF, WF), Contributions(s2, NF, WF));
  }

  /** Scoring the normalisation references themselves yields the sum of the
      weights: each category then contributes exactly its weight. */
  lemma SingleScoreOfReference(NF: seq<real>, WF: seq<real>)
    requires ValidFactors(NF, WF)
    ensures SingleScore(NF, NF, WF) == Sum(WF)
  {
    forall i | 0 <= i < |NF|
      ensures Contributions(NF, NF, WF)[i] == WF[i]
    {
      WeightedOfReference(NF[i], WF[i]);
    }
    assert Contributions(NF, NF, WF) == WF;
  }

  lemma {:induction false} SumOfZeros(s: seq<real>)
    requires forall i :: 0 <= i < |s| ==> s[i] == 0.0
    ensures Sum(s) == 0.0
    decreases |s|
  {
    if |s| > 0 {
      SumOfZeros(s[..|s| - 1]);
    }
  }

  lemma SingleScoreOfZeros(scores: seq<real>, NF: seq<real>, WF: seq<real>)
    requires ValidFactors(NF, WF) && |scores| == |NF|
    requires forall i :: 0 <= i < |scores| ==> scores[i] == 0.0
    ensures SingleScore(scores, NF, WF) == 0.0
  {
    var ws := Contributions(scores, NF, WF);
    forall i | 0 <= i < |ws|
      ensures ws[i] == 0.0
    {
      assert ws[i] == scores[i] / NF[i] * WF[i];
    }
    SumOfZeros(ws);
  }

  /** Total score of one impact method over a list of activities, each with
      unit demand; `score` stands for the external LCA engine. */
  function CategoryTotal<A, M>(score: (A, M) -> real, activities: seq<A>, m: M): real
  {
    if |activities| == 0 then 0.0
    else CategoryTotal(score, activities[..|activities| - 1], m) + score(activities[|activities| - 1], m)
  }

  function CategoryTotals<A, M>(score: (A, M) -> real, activities: seq<A>, methods: seq<M>): (t: seq<real>)
    ensures |t| == |methods|
  {
    seq(|methods|, j requires 0 <= j < |methods| => CategoryTotal(score, activities, methods[j]))
  }

  /** lca_single_score: the nested loops accumulate, for every method j, the
      engine's score of every activity into array_score[j], and the EF single
      score of that array is returned. */
  method LcaSingleScore<A, M>(score: (A, M) -> real, activities: seq<A>, methods: seq<M>, NF: seq<real>, WF: seq<real>)
    returns (r: real)
    requires ValidFactors(NF, WF) && |methods| == |NF|
    ensures r == SingleScore(CategoryTotals(score, activities, methods), NF, WF)
  {
    var arrayScore := seq(|methods|, _ => 0.0);
    for i := 0 to |activities|
      invariant |arrayScore| == |methods|
      invariant forall j :: 0 <= j < |methods| ==> arrayScore[j] == CategoryTotal(score, activities[..i], methods[j])
    {
      assert activities[..i + 1][..i] == activities[..i];
      for j := 0 to |methods|
        invariant |arrayScore| == |methods|
        invariant forall k :: 0 <= k < j ==> arrayScore[k] == CategoryTotal(score, activities[..i + 1], methods[k])
        invariant forall k :: j <= k < |methods| ==> arrayScore[k] == CategoryTotal(score, activities[..i], methods[k])
      {
        arrayScore := arrayScore[j := arrayScore[j] + score(activities[i], methods[j])];
      }
    }
    assert activities[..|activities|] == activities;
    assert arrayScore == CategoryTotals(score, activities, methods);
    r := SingleScore(arrayScore, NF, WF);
  }

  lemma {:induction false} CategoryTotalAppend<A, M>(score: (A, M) -> real, u: seq<A>, w: seq<A>, m: M)
    ensures CategoryTotal(score, u + w, m) == CategoryTotal(score, u, m) + CategoryTotal(score, w, m)
    decreases |w|
  {
    if |w| == 0 {
      assert u + w == u;
    } else {
      assert (u + w)[..|u + w| - 1] == u + w[..|w| - 1];
      CategoryTotalAppend(score, u, w[..|w| - 1], m);
    }
  }

  lemma {:induction false} CategoryTotalPermutation<A, M>(score: (A, M) -> real, a1: seq<A>, a2: seq<A>, m: M)
    requires multiset(a1) == multiset(a2)
    ensures CategoryTotal(score, a1, m) == CategoryTotal(score, a2, m)
    decreases |a1|
  {
    if |a1| == 0 {
      assert |multiset(a2)| == 0;
    } else {
      var n := |a1| - 1;
      var x := a1[n];
      assert a1 == a1[..n] + [x];
      assert multiset(a1[..n]) == multiset(a1) - multiset{x};
      assert x in multiset(a2);
      var k :| 0 <= k < |a2| && a2[k] == x;
      MultisetRemoveAt(a2, k);
      CategoryTotalPermutation(score, a1[..n], a2[..k] + a2[k + 1..], m);
      CategoryTotalRemoveAt(score, a2, k, m);
    }
  }

  /** Removing the element at position k takes one copy of it out of the
      multiset. */
  lemma MultisetRemoveAt<A>(s: seq<A>, k: nat)
    requires k < |s|
    ensures multiset(s[..k] + s[k + 1..]) == multiset(s) - multiset{s[k]}
  {
    assert s == s[..k] + [s[k]] + s[k + 1..];
  }

  /** The total without the activity at position k, plus that activity's
      score, is the whole total. */
  lemma CategoryTotalRemoveAt<A, M>(score: (A, M) -> real, s: seq<A>, k: nat, m: M)
    requires k < |s|
    ensures CategoryTotal(score, s, m) == CategoryTotal(score, s[..k] + s[k + 1..], m) + score(s[k], m)
  {
    assert s == s[..k] + ([s[k]] + s[k + 1..]);
    CategoryTotalAppend(score, s[..k], [s[k]] + s[k + 1..], m);
    CategoryTotalAppend(score, [s[k]], s[k + 1..], m);
    CategoryTotalAppend(score, s[..k], s[k + 1..], m);
    assert [s[k]][..0] == [];
  }

  /** The single score of a list of activities does not depend on their
      order. */
  lemma LcaOrderIndependent<A, M>(score: (A, M) -> real, a1: seq<A>, a2: seq<A>, methods: seq<M>, NF: seq<real>, WF: seq<real>)
    requires ValidFactors(NF, WF) && |methods| == |NF|
    requires multiset(a1) == multiset(a2)
    ensures SingleScore(CategoryTotals(score, a1, methods), NF, WF) == SingleScore(CategoryTotals(score, a2, methods), NF, WF)
  {
    forall j | 0 <= j < |methods|
      ensures CategoryTotals(score, a1, methods)[j] == CategoryTotals(score, a2, methods)[j]
    {
      CategoryTotalPermutation(score, a1, a2, methods[j]);
    }
    assert CategoryTotals(score, a1, methods) == CategoryTotals(score, a2, methods);
  }

  /** No activities, no impact. */
  lemma LcaNoActivities<A, M>(score: (A, M) -> real, methods: seq<M>, NF: seq<real>, WF: seq<real>)
    requires ValidFactors(NF, WF) && |methods| == |NF|
    ensures SingleScore(CategoryTotals(score, [], methods), NF, WF) == 0.0
  {
    SingleScoreOfZeros(CategoryTotals(score, [], methods), NF, WF);
  }
}
