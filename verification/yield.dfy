/** Energy yield of a small wind turbine: annual energy production from a
    power curve and a Rayleigh wind-speed distribution, and the logarithmic
    wind-shear law (LCA/mylib.py). */
module Yield {
  import opened Base

  const HoursPerYear: real := 8760.0

  /** Energy of bin x: the probability mass between samples x-1 and x of the
      cumulative distribution F, times the mean power of the two samples. */
  function BinEnergy(F: seq<real>, p: seq<real>, x: nat): real
    requires 1 <= x < |F| && x < |p|
  {
    (F[x] - F[x - 1]) * (p[x - 1] + p[x]) / 2.0
  }

  /** Reference sum of the bins 1 .. m-1. */
  function BinSum(F: seq<real>, p: seq<real>, m: nat): real
    requires m <= |F| && m <= |p|
  {
    if m <= 1 then 0.0 else BinSum(F, p, m - 1) + BinEnergy(F, p, m - 1)
  }

  /** Exclusive upper end of the bins read for a curve of n samples: the
      source iterates over range(1, n-1), so bin n-1 is never summed. */
  function BinsEnd(n: nat): (m: nat)
    ensures m <= n
    ensures n >= 2 ==> m == n - 1
  {
    if n >= 2 then n - 1 else 0
  }

  /** Reference annual energy production (Wh) for cumulative probabilities F
      sampled at the power-curve wind speeds and powers p (W). */
  function Aep(F: seq<real>, p: seq<real>): real
    requires |F| == |p|
  {
    HoursPerYear * BinSum(F, p, BinsEnd(|p|))
  }

  /** aep_rayleigh: the bin loop of the source, with the distribution values
      supplied as data. */
  method AepRayleigh(F: seq<real>, p: seq<real>) returns (aep: real)
    requires |F| == |p|
    ensures aep == Aep(F, p)
    ensures |p| <= 2 ==> aep == 0.0
  {
    var sum := 0.0;
    var x := 1;
    while x < |p| - 1
      invariant 1 <= x
      invariant |p| >= 2 ==> x <= |p| - 1 && sum == BinSum(F, p, x)
      invariant |p| < 2 ==> sum == 0.0
    {
      var binEnergy := (F[x] - F[x - 1]) * (p[x - 1] + p[x]) / 2.0;
      sum := sum + binEnergy;
      x := x + 1;
    }
    aep := HoursPerYear * sum;
  }

  /** Only samples 0 .. n-2 of the curve are read: two curves that agree
      there have the same annual energy production. */
  lemma {:induction false} BinSumReadsPrefix(F: seq<real>, p: seq<real>, F': seq<real>, p': seq<real>, m: nat)
    requires m <= |F| && m <= |p| && m <= |F'| && m <= |p'|
    requires F[..m] == F'[..m] && p[..m] == p'[..m]
    ensures BinSum(F, p, m) == BinSum(F', p', m)
  {
    if m > 1 {
      assert F[..m - 1] == F'[..m - 1] && p[..m - 1] == p'[..m - 1] by {
        assert F[..m - 1] == F[..m][..m - 1];
        assert F'[..m - 1] == F'[..m][..m - 1];
        assert p[..m - 1] == p[..m][..m - 1];
        assert p'[..m - 1] == p'[..m][..m - 1];
      }
      BinSumReadsPrefix(F, p, F', p', m - 1);
      assert F[m - 1] == F[..m][m - 1] && F[m - 2] == F[..m][m - 2];
      assert p[m - 1] == p[..m][m - 1] && p[m - 2] == p[..m][m - 2];
    }
  }

  lemma AepIgnoresLastSample(F: seq<real>, p: seq<real>, F': seq<real>, p': seq<real>)
    requires |F| == |p| == |F'| == |p'| >= 1
    requires F[..|F| - 1] == F'[..|F| - 1] && p[..|p| - 1] == p'[..|p| - 1]
    ensures Aep(F, p) == Aep(F', p')
  {
    var m := BinsEnd(|p|);
    assert F[..m] == F[..|F| - 1][..m] && F'[..m] == F'[..|F| - 1][..m];
    assert p[..m] == p[..|p| - 1][..m] && p'[..m] == p'[..|p| - 1][..m];
    BinSumReadsPrefix(F, p, F', p', m);
  }

  lemma {:induction false} BinSumNonNegative(F: seq<real>, p: seq<real>, m: nat)
    requires m <= |F| && m <= |p|
    requires NonDecreasing(F)
    requires forall x :: 0 <= x < |p| ==> p[x] >= 0.0
    ensures BinSum(F, p, m) >= 0.0
  {
    if m > 1 {
      BinSumNonNegative(F, p, m - 1);
      var dF, s := F[m - 1] - F[m - 2], p[m - 2] + p[m - 1];
      assert dF >= 0.0 && s >= 0.0;
      assert dF * s >= 0.0;
    }
  }

  /** A non-decreasing distribution and a non-negative power curve give a
      non-negative annual energy production. */
  lemma AepNonNegative(F: seq<real>, p: seq<real>)
    requires |F| == |p|
    requires NonDecreasing(F)
    requires forall x :: 0 <= x < |p| ==> p[x] >= 0.0
    ensures Aep(F, p) >= 0.0
  {
    BinSumNonNegative(F, p, BinsEnd(|p|));
  }

  function Scale(c: real, p: seq<real>): (q: seq<real>)
    ensures |q| == |p|
    ensures forall x :: 0 <= x < |p| ==> q[x] == c * p[x]
  {
    seq(|p|, x requires 0 <= x < |p| => c * p[x])
  }

  lemma {:induction false} BinSumScale(F: seq<real>, p: seq<real>, c: real, m: nat)
    requires m <= |F| && m <= |p|
    ensures BinSum(F, Scale(c, p), m) == c * BinSum(F, p, m)
  {
    if m > 1 {
      BinSumScale(F, p, c, m - 1);
      var q := Scale(c, p);
      var dF, s := F[m - 1] - F[m - 2], p[m - 2] + p[m - 1];
      assert q[m - 2] + q[m - 1] == c * s;
      assert BinEnergy(F, q, m - 1) == dF * (c * s) / 2.0;
      assert dF * (c * s) / 2.0 == c * (dF * s / 2.0);
      assert BinEnergy(F, q, m - 1) == c * BinEnergy(F, p, m - 1);
    }
  }

  /** Scaling the power curve scales the annual energy production. */
  lemma AepScale(F: seq<real>, p: seq<real>, c: real)
    requires |F| == |p|
    ensures Aep(F, Scale(c, p)) == c * Aep(F, p)
  {
    BinSumScale(F, p, c, BinsEnd(|p|));
  }

  /** The exponent -pi/(4 mu^2) v^2 of the Rayleigh distribution, written
      as -(pi/4)/mu^2 * v^2 (the same real number). */
  function RayleighExponent(pi: real, mu: real, v: real): real
    requires mu != 0.0
  {
    -(pi / 4.0) / (mu * mu) * (v * v)
  }

  /** The Rayleigh cumulative distribution 1 - exp(-pi/(4 mu^2) v^2) sampled
      at the wind speeds v, for mean wind speed mu. */
  function RayleighCdf(exp: real -> real, pi: real, v: seq<real>, mu: real): (F: seq<real>)
    requires mu != 0.0
    ensures |F| == |v|
    ensures forall i :: 0 <= i < |v| && v[i] == 0.0 ==> F[i] == 1.0 - exp(0.0)
    ensures forall i, j :: 0 <= i < |v| && 0 <= j < |v| && v[i] * v[i] == v[j] * v[j] ==> F[i] == F[j]
    ensures Increasing(exp) && pi > 0.0 ==> forall i :: 0 <= i < |v| ==> F[i] >= 1.0 - exp(0.0)
  {
    var F := seq(|v|, x requires 0 <= x < |v| => 1.0 - exp(RayleighExponent(pi, mu, v[x])));
    assert Increasing(exp) && pi > 0.0 ==> forall i :: 0 <= i < |v| ==> F[i] >= 1.0 - exp(0.0) by {
      if Increasing(exp) && pi > 0.0 {
        forall i | 0 <= i < |v|
          ensures F[i] >= 1.0 - exp(0.0)
        {
          RayleighExponentAntitone(pi, mu, 0.0, Abs(v[i]));
          RayleighExponentEven(pi, mu, v[i], Abs(v[i]));
          var e := RayleighExponent(pi, mu, v[i]);
          assert RayleighExponent(pi, mu, 0.0) == 0.0;
          if e < 0.0 {
            assert exp(e) < exp(0.0);
          }
        }
      }
    }
    assert forall i, j :: 0 <= i < |v| && 0 <= j < |v| && v[i] * v[i] == v[j] * v[j] ==> F[i] == F[j] by {
      forall i, j | 0 <= i < |v| && 0 <= j < |v| && v[i] * v[i] == v[j] * v[j]
        ensures F[i] == F[j]
      {
        RayleighExponentEven(pi, mu, v[i], v[j]);
      }
    }
    F
  }

  /** The exponent depends on the wind speed only through its square. */
  lemma RayleighExponentEven(pi: real, mu: real, a: real, b: real)
    requires mu != 0.0 && a * a == b * b
    ensures RayleighExponent(pi, mu, a) == RayleighExponent(pi, mu, b)
  {
  }

  lemma RayleighExponentAntitone(pi: real, mu: real, a: real, b: real)
    requires mu != 0.0 && pi > 0.0 && 0.0 <= a <= b
    ensures RayleighExponent(pi, mu, b) <= RayleighExponent(pi, mu, a)
  {
    assert pi / 4.0 / (mu * mu) > 0.0;
    assert a * a <= a * b;
    assert a * b <= b * b;
    assert (pi / 4.0) / (mu * mu) * (a * a) <= (pi / 4.0) / (mu * mu) * (b * b);
  }

  /** With exp increasing and pi positive, the Rayleigh distribution sampled
      at non-negative increasing wind speeds is non-decreasing. */
  lemma RayleighCdfNonDecreasing(exp: real -> real, pi: real, v: seq<real>, mu: real)
    requires mu != 0.0 && pi > 0.0 && Increasing(exp)
    requires NonDecreasing(v) && forall x :: 0 <= x < |v| ==> v[x] >= 0.0
    ensures NonDecreasing(RayleighCdf(exp, pi, v, mu))
  {
    var F := RayleighCdf(exp, pi, v, mu);
    forall i, j | 0 <= i <= j < |F|
      ensures F[i] <= F[j]
    {
      RayleighExponentAntitone(pi, mu, v[i], v[j]);
      var a, b := RayleighExponent(pi, mu, v[j]), RayleighExponent(pi, mu, v[i]);
      if a < b {
        assert exp(a) < exp(b);
      }
    }
  }

  /** The annual energy production of a non-negative power curve under the
      Rayleigh distribution is non-negative. */
  lemma RayleighAepNonNegative(exp: real -> real, pi: real, v: seq<real>, p: seq<real>, mu: real)
    requires mu != 0.0 && pi > 0.0 && Increasing(exp)
    requires |v| == |p|
    requires NonDecreasing(v) && forall x :: 0 <= x < |v| ==> v[x] >= 0.0
    requires forall x :: 0 <= x < |p| ==> p[x] >= 0.0
    ensures Aep(RayleighCdf(exp, pi, v, mu), p) >= 0.0
  {
    RayleighCdfNonDecreasing(exp, pi, v, mu);
    AepNonNegative(RayleighCdf(exp, pi, v, mu), p);
  }

  /** Whether the log law has a finite value: the divisions by z0, the
      logarithms and the final division are all defined. */
  predicate ShearDefined(ln: real -> real, hRef: real, h: real, z0: real)
  {
    z0 != 0.0 && h / z0 > 0.0 && hRef / z0 > 0.0 && ln(hRef / z0) != 0.0
  }

  /** wind_shear_log: v_ref * ln(h/z0) / ln(h_ref/z0). None stands for the
      infinite or NaN value that the floating-point evaluation yields outside
      the domain of the law. */
  function WindShearLog(ln: real -> real, vRef: real, hRef: real, h: real, z0: real): (r: Option<real>)
    ensures r.Some? <==> ShearDefined(ln, hRef, h, z0)
    ensures r.Some? ==> r.value * ln(hRef / z0) == vRef * ln(h / z0)
  {
    if ShearDefined(ln, hRef, h, z0) then
      var d := ln(hRef / z0);
      var v := vRef * ln(h / z0) / d;
      assert v * d == vRef * ln(h / z0);
      Some(v)
    else None
  }

  /** At the reference height the law reproduces the reference speed. */
  lemma WindShearAtReference(ln: real -> real, vRef: real, hRef: real, z0: real)
    requires ShearDefined(ln, hRef, hRef, z0)
    ensures WindShearLog(ln, vRef, hRef, hRef, z0) == Some(vRef)
  {
    var d := ln(hRef / z0);
    assert d / d == 1.0;
    assert vRef * d / d == vRef * (d / d);
    var r := WindShearLog(ln, vRef, hRef, hRef, z0);
    assert r.Some?;
    assert r.value == vRef * d / d;
    assert r.value == vRef * 1.0;
  }

  /** The law is linear in the reference speed. */
  lemma WindShearLinear(ln: real -> real, a: real, v1: real, v2: real, hRef: real, h: real, z0: real)
    requires ShearDefined(ln, hRef, h, z0)
    ensures WindShearLog(ln, a * v1 + v2, hRef, h, z0).value
         == a * WindShearLog(ln, v1, hRef, h, z0).value + WindShearLog(ln, v2, hRef, h, z0).value
  {
    var n, d := ln(h / z0), ln(hRef / z0);
    assert (a * v1 + v2) * n / d == a * (v1 * n / d) + v2 * n / d;
  }

  lemma DivideMonotone(a: real, b: real, d: real)
    requires a <= b && d > 0.0
    ensures a / d <= b / d
  {
    assert b / d - a / d == (b - a) / d;
  }

  /** Above the roughness length, the speed does not decrease with height. */
  lemma WindShearMonotone(ln: real -> real, vRef: real, hRef: real, h1: real, h2: real, z0: real)
    requires LogLike(ln)
    requires 0.0 < z0 < hRef && 0.0 < h1 <= h2 && vRef >= 0.0
    ensures WindShearLog(ln, vRef, hRef, h1, z0).Some?
    ensures WindShearLog(ln, vRef, hRef, h2, z0).Some?
    ensures WindShearLog(ln, vRef, hRef, h1, z0).value <= WindShearLog(ln, vRef, hRef, h2, z0).value
  {
    assert hRef / z0 > 1.0;
    var d := ln(hRef / z0);
    assert d > 0.0 by {
      assert ln(1.0) < ln(hRef / z0);
    }
    var n1, n2 := ln(h1 / z0), ln(h2 / z0);
    assert h1 / z0 <= h2 / z0;
    assert n1 <= n2 by {
      if h1 / z0 < h2 / z0 {
        assert ln(h1 / z0) < ln(h2 / z0);
      }
    }
    assert vRef * n1 <= vRef * n2;
    DivideMonotone(vRef * n1, vRef * n2, d);
  }
}
