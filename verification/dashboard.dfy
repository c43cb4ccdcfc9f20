/** The browser-side computations of the interactive dashboard
    (interface/trace_animation_bokeh.py): the JavaScript bodies of the
    CustomJS callbacks that recompute lifetime energy production (LEP),
    impacts per kWh, average wind speeds, and which curves and map are shown.
    Math.exp, Math.log and Math.PI are parameters, as in Yield. */
module Dashboard {
  import opened Base
  import opened Yield

  /** js_compute_LEP: the bin loop over i = 1 .. F.length-2, scaled by the
      lifetime and the hours of a year. The three copies embedded in
      callback, callback3 and callback4 have the same body. */
  method JsComputeLep(life: real, F: seq<real>, P: seq<real>) returns (r: real)
    requires |F| == |P|
    ensures r == life * Aep(F, P)
    ensures |F| <= 2 ==> r == 0.0
  {
    var sum := 0.0;
    var i := 1;
    while i < |F| - 1
      invariant 1 <= i
      invariant |F| >= 2 ==> i <= |F| - 1 && sum == BinSum(F, P, i)
      invariant |F| < 2 ==> sum == 0.0
    {
      sum := sum + (F[i] - F[i - 1]) * (P[i - 1] + P[i]) / 2.0;
      i := i + 1;
    }
    assert BinSum(F, P, BinsEnd(|P|)) == sum;
    r := life * 8760.0 * sum;
    assert r == life * (HoursPerYear * sum);
  }

  /** Reference LEP (kWh) of one average wind speed. */
  function LepKwh(exp: real -> real, pi: real, life: real, V: seq<real>, P: seq<real>, mu: real): real
    requires mu != 0.0 && |V| == |P|
  {
    life * Aep(RayleighCdf(exp, pi, V, mu), P) / 1000.0
  }

  /** callback4 (and the lep array of callback): one LEP value in kWh per
      average wind speed, each from the Rayleigh distribution of that mean
      speed sampled at the power-curve speeds. The JavaScript writes the
      exponent as -pi V^2 / (4 v_avg^2), the same real number as
      Yield.RayleighExponent. */
  method LepPerWindSpeed(exp: real -> real, pi: real, life: real, V: seq<real>, P: seq<real>, vAvg: seq<real>)
    returns (lep: seq<real>)
    requires |V| == |P|
    requires forall i :: 0 <= i < |vAvg| ==> vAvg[i] != 0.0
    ensures |lep| == |vAvg|
    ensures forall i :: 0 <= i < |vAvg| ==> lep[i] == LepKwh(exp, pi, life, V, P, vAvg[i])
  {
    lep := seq(|vAvg|, _ => 0.0);
    for i := 0 to |vAvg|
      invariant |lep| == |vAvg|
      invariant forall k :: 0 <= k < i ==> lep[k] == LepKwh(exp, pi, life, V, P, vAvg[k])
    {
      var e := LepOfSpeed(exp, pi, life, V, P, vAvg[i]);
      lep := lep[i := e];
    }
  }

  /** The body of callback4's loop for one average wind speed: the Rayleigh
      distribution of that speed, js_compute_LEP, and the division by 1000. */
  method LepOfSpeed(exp: real -> real, pi: real, life: real, V: seq<real>, P: seq<real>, mu: real)
    returns (lep: real)
    requires mu != 0.0 && |V| == |P|
    ensures lep == LepKwh(exp, pi, life, V, P, mu)
    ensures |V| <= 2 ==> lep == 0.0
  {
    var F := RayleighCdf(exp, pi, V, mu);
    var e := JsComputeLep(life, F, P);
    lep := e / 1000.0;
  }

  /** With a non-negative lifetime and power curve, and wind speeds sorted
      and non-negative, every LEP value is non-negative. */
  lemma LepNonNegative(exp: real -> real, pi: real, life: real, V: seq<real>, P: seq<real>, mu: real)
    requires mu != 0.0 && |V| == |P|
    requires pi > 0.0 && Increasing(exp) && life >= 0.0
    requires NonDecreasing(V) && forall x :: 0 <= x < |V| ==> V[x] >= 0.0
    requires forall x :: 0 <= x < |P| ==> P[x] >= 0.0
    ensures LepKwh(exp, pi, life, V, P, mu) >= 0.0
  {
    RayleighAepNonNegative(exp, pi, V, P, mu);
    var a := Aep(RayleighCdf(exp, pi, V, mu), P);
    assert life * a >= 0.0;
  }

  /** The v_avg column of callback: the log law applied to every mast
      height, as callback5 does for the single height slider. */
  function VAvg(ln: real -> real, vr: real, hr: real, Z: real, h: seq<real>): (v: seq<Option<real>>)
    ensures |v| == |h|
    ensures forall i :: 0 <= i < |h| ==> v[i] == WindShearLog(ln, vr, hr, h[i], Z)
  {
    seq(|h|, i requires 0 <= i < |h| => WindShearLog(ln, vr, hr, h[i], Z))
  }

  /** At the reference height the dashboard shows the reference speed, and
      over sorted mast heights above the roughness length the speeds are
      sorted too. */
  lemma VAvgProperties(ln: real -> real, vr: real, hr: real, Z: real, h: seq<real>)
    requires LogLike(ln)
    requires 0.0 < Z < hr && vr >= 0.0
    requires forall i :: 0 <= i < |h| ==> h[i] > 0.0
    ensures forall i :: 0 <= i < |h| ==> VAvg(ln, vr, hr, Z, h)[i].Some?
    ensures forall i :: 0 <= i < |h| && h[i] == hr ==> VAvg(ln, vr, hr, Z, h)[i] == Some(vr)
    ensures forall i, j :: 0 <= i < |h| && 0 <= j < |h| && h[i] <= h[j] ==>
      VAvg(ln, vr, hr, Z, h)[i].value <= VAvg(ln, vr, hr, Z, h)[j].value
  {
    var v := VAvg(ln, vr, hr, Z, h);
    forall i | 0 <= i < |h|
      ensures v[i].Some?
    {
      WindShearMonotone(ln, vr, hr, h[i], h[i], Z);
    }
    forall i | 0 <= i < |h| && h[i] == hr
      ensures v[i] == Some(vr)
    {
      WindShearMonotone(ln, vr, hr, h[i], h[i], Z);
      WindShearAtReference(ln, vr, hr, Z);
    }
    forall i, j | 0 <= i < |h| && 0 <= j < |h| && h[i] <= h[j]
      ensures v[i].value <= v[j].value
    {
      WindShearMonotone(ln, vr, hr, h[i], h[j], Z);
    }
  }

  /** The inner loop of callback for one impact column: entry i becomes the
      impact divided by the LEP of height i; entries past the heights are
      kept. */
  function DivideColumn(column: seq<real>, impact: seq<real>, lep: seq<real>): (c: seq<real>)
    requires |lep| <= |column| && |lep| <= |impact|
    requires forall i :: 0 <= i < |lep| ==> lep[i] != 0.0
    ensures |c| == |column|
    ensures forall i :: 0 <= i < |c| ==> c[i] == if i < |lep| then impact[i] / lep[i] else column[i]
  {
    seq(|column|, i requires 0 <= i < |column| => if i < |lep| then impact[i] / lep[i] else column[i])
  }

  /** Dividing per-kWh values back by the inverse gives the impacts. */
  lemma DivideColumnInverse(column: seq<real>, impact: seq<real>, lep: seq<real>)
    requires |lep| <= |column| && |lep| <= |impact|
    requires forall i :: 0 <= i < |lep| ==> lep[i] != 0.0
    ensures forall i :: 0 <= i < |lep| ==> DivideColumn(column, impact, lep)[i] * lep[i] == impact[i]
  {
    forall i | 0 <= i < |lep|
      ensures DivideColumn(column, impact, lep)[i] * lep[i] == impact[i]
    {
      assert impact[i] / lep[i] * lep[i] == impact[i];
    }
  }

  /** Columns that the per-kWh update rewrites. */
  predicate Rewritten(k: string)
  {
    k != "h"
  }

  /** The outer loop of callback over Object.entries of the per-kWh table:
      every column except "h" is rewritten from the matching impact column.
      The impact column is only read inside the loop over the heights, so a
      column name absent from the impact table makes the browser throw,
      modelled as None, only when there is at least one height. */
  method UpdateImpactsPerKwh(perKwh: map<string, seq<real>>, keys: seq<string>, impacts: map<string, seq<real>>, lep: seq<real>)
    returns (r: Option<map<string, seq<real>>>)
    requires Elements(keys) == perKwh.Keys
    requires forall i :: 0 <= i < |lep| ==> lep[i] != 0.0
    requires forall k :: k in perKwh && Rewritten(k) ==> |lep| <= |perKwh[k]|
    requires forall k :: k in impacts && k in perKwh && Rewritten(k) ==> |lep| <= |impacts[k]|
    ensures r.Some? <==> |lep| == 0 || forall k :: k in perKwh && Rewritten(k) ==> k in impacts
    ensures r.Some? ==> r.value.Keys == perKwh.Keys
    ensures r.Some? ==> forall k :: k in perKwh && !Rewritten(k) ==> r.value[k] == perKwh[k]
    ensures r.Some? && |lep| == 0 ==> r.value == perKwh
    ensures r.Some? && |lep| > 0 ==> forall k :: k in perKwh && Rewritten(k) ==>
      k in impacts && r.value[k] == DivideColumn(perKwh[k], impacts[k], lep)
  {
    if |lep| == 0 {
      // the loop over the heights never runs: no column is read or written
      return Some(perKwh);
    }
    var table := perKwh;
    ghost var seen: set<string> := {};
    for n := 0 to |keys|
      invariant table.Keys == perKwh.Keys
      invariant seen <= perKwh.Keys
      invariant forall j :: 0 <= j < n ==> keys[j] in seen
      invariant forall k :: k in seen && Rewritten(k) ==> k in impacts
      invariant forall k :: k in perKwh && (!Rewritten(k) || k !in seen) ==> table[k] == perKwh[k]
      invariant forall k :: k in seen && Rewritten(k) ==> table[k] == DivideColumn(perKwh[k], impacts[k], lep)
    {
      var key := keys[n];
      assert key in perKwh;
      if Rewritten(key) {
        if key !in impacts {
          return None;
        }
        table := table[key := DivideColumn(table[key], impacts[key], lep)];
      }
      seen := seen + {key};
    }
    r := Some(table);
  }

  /** The whole body of callback: the average speed at every mast height by
      the log law, the LEP of each, and the per-kWh rewrite of every impact
      column. The model requires every speed to be finite and non-zero and
      every LEP to be non-zero; the browser would otherwise propagate
      Infinity or NaN. */
  method RecomputeImpactsPerKwh(exp: real -> real, ln: real -> real, pi: real, Z: real, hr: real, vr: real, life: real,
                                V: seq<real>, P: seq<real>, h: seq<real>,
                                impacts: map<string, seq<real>>, perKwh: map<string, seq<real>>, keys: seq<string>)
    returns (r: Option<map<string, seq<real>>>)
    requires "h" in impacts && h == impacts["h"]
    requires |V| == |P|
    requires forall i :: 0 <= i < |h| ==> WindShearLog(ln, vr, hr, h[i], Z).Some? && WindShearLog(ln, vr, hr, h[i], Z).value != 0.0
    requires forall i :: 0 <= i < |h| ==> LepKwh(exp, pi, life, V, P, WindShearLog(ln, vr, hr, h[i], Z).value) != 0.0
    requires Elements(keys) == perKwh.Keys
    requires forall k :: k in perKwh && Rewritten(k) ==> |h| <= |perKwh[k]|
    requires forall k :: k in impacts && k in perKwh && Rewritten(k) ==> |h| <= |impacts[k]|
    ensures r.Some? <==> |h| == 0 || forall k :: k in perKwh && Rewritten(k) ==> k in impacts
    ensures r.Some? ==> r.value.Keys == perKwh.Keys
    ensures r.Some? ==> forall k :: k in perKwh && !Rewritten(k) ==> r.value[k] == perKwh[k]
    ensures r.Some? && |h| == 0 ==> r.value == perKwh
    ensures r.Some? ==> forall k :: k in perKwh && Rewritten(k) ==> |r.value[k]| == |perKwh[k]|
    ensures r.Some? ==> forall k, i :: k in perKwh && Rewritten(k) && 0 <= i < |h| ==>
      r.value[k][i] == impacts[k][i] / LepKwh(exp, pi, life, V, P, WindShearLog(ln, vr, hr, h[i], Z).value)
  {
    var vAvg := VAvg(ln, vr, hr, Z, h);
    var speeds := seq(|h|, i requires 0 <= i < |h| => vAvg[i].value);
    var lep := LepPerWindSpeed(exp, pi, life, V, P, speeds);
    r := UpdateImpactsPerKwh(perKwh, keys, impacts, lep);
  }

  /** callback2: for every impact i below the number of impacts, curve i and
      legend entry i are shown exactly when i is among the active check
      boxes; other curves and entries keep their state. */
  method ToggleImpacts(nbImpacts: nat, active: seq<int>, curves: seq<bool>, legend: seq<bool>)
    returns (curves': seq<bool>, legend': seq<bool>)
    requires nbImpacts <= |curves| && nbImpacts <= |legend|
    ensures |curves'| == |curves| && |legend'| == |legend|
    ensures forall i :: 0 <= i < nbImpacts ==> (curves'[i] <==> i in active) && (legend'[i] <==> i in active)
    ensures forall i :: nbImpacts <= i < |curves| ==> curves'[i] == curves[i]
    ensures forall i :: nbImpacts <= i < |legend| ==> legend'[i] == legend[i]
  {
    curves', legend' := curves, legend;
    for i := 0 to nbImpacts
      invariant |curves'| == |curves| && |legend'| == |legend|
      invariant forall k :: 0 <= k < i ==> (curves'[k] <==> k in active) && (legend'[k] <==> k in active)
      invariant forall k :: i <= k < |curves| ==> curves'[k] == curves[k]
      invariant forall k :: i <= k < |legend| ==> legend'[k] == legend[k]
    {
      curves' := curves'[i := i in active];
      if !(i in active) {
        legend' := legend'[i := false];
      } else {
        legend' := legend'[i := true];
      }
    }
  }

  const SmallMap: string := "map_new_10x10.html"
  const LargeMap: string := "map_new_" + "1000x1000" + ".html"

  /** callback6: the map page shown for roughness length Z. */
  function MapPage(Z: real): (page: string)
    ensures page == SmallMap <==> Z < 0.5
    ensures page == SmallMap || page == LargeMap
  {
    if Z < 0.5 then SmallMap else LargeMap
  }

  /** Two roughness lengths show the same map exactly when they fall on the
      same side of 0.5. */
  lemma MapPageThreshold(z1: real, z2: real)
    ensures MapPage(z1) == MapPage(z2) <==> (z1 < 0.5 <==> z2 < 0.5)
  {
  }
}
