/** Shared vocabulary: an optional value, absolute value, sums of reals,
    distinctness of sequences, and the properties assumed of the
    transcendental functions that the model takes as parameters. */
module Base {

  /** A value that may be missing. In the numeric parts of the model `None`
      stands for a non-finite floating-point result (infinity or NaN). */
  datatype Option<+T> = None | Some(value: T)

  function Abs(x: real): (r: real)
    ensures r >= 0.0
    ensures r == x || r == -x
  {
    if x < 0.0 then -x else x
  }

  /** Sum of a sequence of reals, accumulated from the left. */
  function Sum(s: seq<real>): real
  {
    if |s| == 0 then 0.0 else Sum(s[..|s| - 1]) + s[|s| - 1]
  }

  lemma {:induction false} SumAppend(s: seq<real>, t: seq<real>)
    ensures Sum(s + t) == Sum(s) + Sum(t)
    decreases |t|
  {
    if |t| == 0 {
      assert s + t == s;
    } else {
      assert (s + t)[..|s + t| - 1] == s + t[..|t| - 1];
      SumAppend(s, t[..|t| - 1]);
    }
  }

  /** Extending a prefix by one element adds that element to the sum. */
  lemma SumStep(s: seq<real>, k: nat)
    requires k < |s|
    ensures Sum(s[..k + 1]) == Sum(s[..k]) + s[k]
  {
    assert s[..k + 1][..k] == s[..k];
  }

  /** No element occurs twice. */
  predicate Distinct<T(==)>(s: seq<T>)
  {
    forall i, j :: 0 <= i < j < |s| ==> s[i] != s[j]
  }

  /** The elements of a sequence as a set. */
  function Elements<T>(s: seq<T>): set<T>
  {
    set x | x in s
  }

  lemma {:induction false} DistinctCardinality<T>(s: seq<T>)
    requires Distinct(s)
    ensures |Elements(s)| == |s|
    decreases |s|
  {
    if |s| > 0 {
      var init := s[..|s| - 1];
      DistinctCardinality(init);
      assert Elements(s) == Elements(init) + {s[|s| - 1]};
      assert s[|s| - 1] !in Elements(init);
    }
  }

  predicate NonDecreasing(s: seq<real>)
  {
    forall i, j :: 0 <= i <= j < |s| ==> s[i] <= s[j]
  }

  /** The properties of the natural logarithm that the wind-shear lemmas use:
      ln 1 = 0 and ln is strictly increasing on the positive reals. */
  ghost predicate LogLike(ln: real -> real)
  {
    && ln(1.0) == 0.0
    && forall a, b :: 0.0 < a < b ==> ln(a) < ln(b)
  }

  /** The property of the exponential function that the Rayleigh lemmas use. */
  ghost predicate Increasing(f: real -> real)
  {
    forall a, b :: a < b ==> f(a) < f(b)
  }
}
