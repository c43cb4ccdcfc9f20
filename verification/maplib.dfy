/** Helpers of the web map (map/my_lib.js): evenly spaced values, the
    search that turns a clicked position into a raster cell, the colouring
    of raster pixels, and the placement of the legend rectangles. The DOM,
    d3 and Leaflet calls are not modelled; scales, colour maps and the
    rounding of toFixed(3) are parameters. */
module MapLib {
  import opened Base

  /** The step of makeArr: (stop - start) / (cardinality - 1). */
  function Step(start: real, stop: real, cardinality: int): real
    requires cardinality != 1
  {
    (stop - start) / ((cardinality - 1) as real)
  }

  lemma StepReachesStop(start: real, stop: real, cardinality: int)
    requires cardinality >= 2
    ensures start + Step(start, stop, cardinality) * ((cardinality - 1) as real) == stop
  {
    var d := (cardinality - 1) as real;
    assert d != 0.0;
    assert (stop - start) / d * d == stop - start;
  }

  lemma StepDifference(start: real, s: real, i: nat)
    requires i > 0
    ensures (start + s * (i as real)) - (start + s * ((i - 1) as real)) == s
  {
    assert s * (i as real) == s * ((i - 1) as real) + s;
  }

  /** makeArr (linspace): `cardinality` values from start, each one step
      beyond the previous; for cardinality 2 or more the last value is
      stop. A non-positive cardinality gives no values. */
  method MakeArr(start: real, stop: real, cardinality: int) returns (arr: seq<real>)
    requires cardinality != 1
    ensures |arr| == if cardinality > 0 then cardinality else 0
    ensures forall i :: 0 <= i < |arr| ==> arr[i] == start + Step(start, stop, cardinality) * (i as real)
    ensures |arr| > 0 ==> arr[0] == start
    ensures forall i :: 0 < i < |arr| ==> arr[i] - arr[i - 1] == Step(start, stop, cardinality)
    ensures |arr| >= 2 ==> arr[|arr| - 1] == stop
  {
    var step := Step(start, stop, cardinality);
    arr := [];
    var i := 0;
    while i < cardinality
      invariant 0 <= i <= (if cardinality > 0 then cardinality else 0)
      invariant |arr| == i
      invariant forall k :: 0 <= k < i ==> arr[k] == start + step * (k as real)
    {
      arr := arr + [start + step * (i as real)];
      i := i + 1;
    }
    forall i | 0 < i < |arr|
      ensures arr[i] - arr[i - 1] == step
    {
      StepDifference(start, step, i);
    }
    if |arr| >= 2 {
      StepReachesStop(start, stop, cardinality);
    }
  }

  /** Array.prototype.findIndex: the least index whose element satisfies p,
      or -1 when there is none. */
  function FindIndex<T>(s: seq<T>, p: T -> bool): (k: int)
    ensures -1 <= k < |s|
    ensures k >= 0 ==> p(s[k]) && forall j :: 0 <= j < k ==> !p(s[j])
    ensures k == -1 <==> forall j :: 0 <= j < |s| ==> !p(s[j])
  {
    FindIndexFrom(s, p, 0)
  }

  function FindIndexFrom<T>(s: seq<T>, p: T -> bool, from: nat): (k: int)
    requires from <= |s|
    requires forall j :: 0 <= j < from ==> !p(s[j])
    ensures -1 <= k < |s|
    ensures k >= 0 ==> p(s[k]) && forall j :: 0 <= j < k ==> !p(s[j])
    ensures k == -1 <==> forall j :: 0 <= j < |s| ==> !p(s[j])
    decreases |s| - from
  {
    if from == |s| then -1
    else if p(s[from]) then from
    else FindIndexFrom(s, p, from + 1)
  }

  /** The tolerance test of find_index: |element - target| < resolution. */
  predicate Within(element: real, target: real, resolution: real)
  {
    Abs(element - target) < resolution
  }

  /** find_index: the column is the first x within xRes of the longitude,
      and the row counts the first y within yRes of the latitude from the
      bottom, as height - y_index - 1. */
  function FindCell(lat: real, long: real, vecX: seq<real>, vecY: seq<real>, xRes: real, yRes: real, height: int): (cell: (int, int))
    ensures var col := cell.1;
      && -1 <= col < |vecX|
      && (col == -1 <==> forall j :: 0 <= j < |vecX| ==> !Within(vecX[j], long, xRes))
      && (col >= 0 ==> Within(vecX[col], long, xRes) && forall j :: 0 <= j < col ==> !Within(vecX[j], long, xRes))
    ensures var y := height - 1 - cell.0;
      && -1 <= y < |vecY|
      && (y == -1 <==> forall j :: 0 <= j < |vecY| ==> !Within(vecY[j], lat, yRes))
      && (y >= 0 ==> Within(vecY[y], lat, yRes) && forall j :: 0 <= j < y ==> !Within(vecY[j], lat, yRes))
  {
    var xIndex := FindIndex(vecX, e => Within(e, long, xRes));
    var yIndex := FindIndex(vecY, e => Within(e, lat, yRes));
    (height - yIndex - 1, xIndex)
  }

  /** When no latitude sample is close enough the row is `height`, one past
      the last row of the raster. */
  lemma FindCellNoRow(lat: real, long: real, vecX: seq<real>, vecY: seq<real>, xRes: real, yRes: real, height: int)
    requires forall j :: 0 <= j < |vecY| ==> !Within(vecY[j], lat, yRes)
    ensures FindCell(lat, long, vecX, vecY, xRes, yRes, height).0 == height
  {
  }

  /** On strictly increasing samples spaced more than twice the tolerance
      apart, the sample found is the only one within tolerance. */
  lemma FindCellUnique(vec: seq<real>, target: real, res: real, k: nat)
    requires k < |vec| && Within(vec[k], target, res)
    requires forall i, j :: 0 <= i < j < |vec| ==> vec[j] - vec[i] >= 2.0 * res
    ensures FindIndex(vec, e => Within(e, target, res)) == k
  {
    var f := FindIndex(vec, e => Within(e, target, res));
    if f < k {
      assert vec[k] - vec[f] >= 2.0 * res;
    }
  }

  /** The colour a pixel-to-colour function hands to the raster layer:
      null, undefined (an index past the colour table) or a CSS colour. */
  datatype Paint = Null | Undefined | Css(colour: string)

  /** A pixel is drawn only where its transparency band, rounded to three
      decimals, is not zero. */
  predicate Transparent(round3: real -> real, pixel: seq<real>)
    requires |pixel| >= 2
  {
    round3(pixel[1]) == 0.0
  }

  /** pixel_to_color_roughness: the colour of the first roughness class
      equal to the pixel value rounded to three decimals. */
  function PixelToColourRoughness(round3: real -> real, values: seq<real>, colours: seq<string>, pixel: seq<real>): (paint: Paint)
    requires |pixel| >= 2
    ensures paint == Null <==> Transparent(round3, pixel)
    ensures !Transparent(round3, pixel) ==>
      var k := FindIndex(values, v => v == round3(pixel[0]));
      paint == if 0 <= k < |colours| then Css(colours[k]) else Undefined
  {
    if round3(pixel[1]) == 0.0 then Null
    else
      var index := FindIndex(values, v => v == round3(pixel[0]));
      if 0 <= index < |colours| then Css(colours[index]) else Undefined
  }

  /** An opaque pixel whose rounded value is the k-th of distinct roughness
      classes gets the k-th colour; a value matching no class gets none. */
  lemma RoughnessClassColour(round3: real -> real, values: seq<real>, colours: seq<string>, pixel: seq<real>, k: nat)
    requires |pixel| >= 2 && !Transparent(round3, pixel)
    requires Distinct(values) && |values| <= |colours|
    requires k < |values| && values[k] == round3(pixel[0])
    ensures PixelToColourRoughness(round3, values, colours, pixel) == Css(colours[k])
  {
    var f := FindIndex(values, v => v == round3(pixel[0]));
    assert f >= 0;
  }

  lemma RoughnessUnknownValue(round3: real -> real, values: seq<real>, colours: seq<string>, pixel: seq<real>)
    requires |pixel| >= 2 && !Transparent(round3, pixel)
    requires round3(pixel[0]) !in values
    ensures PixelToColourRoughness(round3, values, colours, pixel) == Undefined
  {
  }

  /** pixel_to_color_windspeed and pixel_to_color_optimal_height: the
      continuous colour map applied to the data band, unless transparent. */
  function PixelToColourScale(round3: real -> real, colormap: real -> string, pixel: seq<real>): (paint: Paint)
    requires |pixel| >= 2
    ensures paint == Null <==> Transparent(round3, pixel)
    ensures !Transparent(round3, pixel) ==> paint == Css(colormap(pixel[0]))
  {
    if round3(pixel[1]) == 0.0 then Null else Css(colormap(pixel[0]))
  }

  /** Transparency alone decides whether anything is drawn: the data band of
      a transparent pixel is never looked at. */
  lemma TransparentIgnoresData(round3: real -> real, values: seq<real>, colours: seq<string>, colormap: real -> string, p1: seq<real>, p2: seq<real>)
    requires |p1| >= 2 && |p2| >= 2 && p1[1] == p2[1] && Transparent(round3, p1)
    ensures PixelToColourRoughness(round3, values, colours, p1) == PixelToColourRoughness(round3, values, colours, p2) == Null
    ensures PixelToColourScale(round3, colormap, p1) == PixelToColourScale(round3, colormap, p2) == Null
  {
  }

  /** One legend rectangle: from x0 to x1, filled with z. */
  datatype Rect = Rect(x0: real, x1: real, z: string)

  /** The rectangles of legend_continuous and legend_roughness: for colour
      i, x0 is the scaled (i-1)-th threshold (the range start for i = 0)
      and x1 the scaled i-th threshold (the range end past the last). */
  function LegendRects(x: real -> real, domain: seq<real>, colours: seq<string>, r0: real, r1: real): (rects: seq<Rect>)
    requires |colours| <= |domain| + 1
    ensures |rects| == |colours|
    ensures forall i :: 0 <= i < |rects| ==> rects[i].z == colours[i]
    ensures |rects| > 0 ==> rects[0].x0 == r0
    ensures forall i :: 0 <= i < |rects| - 1 ==> rects[i].x1 == rects[i + 1].x0
    ensures |colours| == |domain| + 1 ==> rects[|rects| - 1].x1 == r1
  {
    seq(|colours|, i requires 0 <= i < |colours| =>
      Rect(if i == 0 then r0 else x(domain[i - 1]),
           if i < |domain| then x(domain[i]) else r1,
           colours[i]))
  }

  function Widths(rects: seq<Rect>): (w: seq<real>)
    ensures |w| == |rects|
    ensures forall i :: 0 <= i < |rects| ==> w[i] == rects[i].x1 - rects[i].x0
  {
    seq(|rects|, i requires 0 <= i < |rects| => rects[i].x1 - rects[i].x0)
  }

  /** Adjacent rectangles: the widths telescope to the span from the first
      rectangle's start to the last one's end. */
  lemma {:induction false} WidthsTelescope(rects: seq<Rect>)
    requires |rects| > 0
    requires forall i :: 0 <= i < |rects| - 1 ==> rects[i].x1 == rects[i + 1].x0
    ensures Sum(Widths(rects)) == rects[|rects| - 1].x1 - rects[0].x0
    decreases |rects|
  {
    var n := |rects| - 1;
    if n > 0 {
      WidthsTelescope(rects[..n]);
      assert Widths(rects)[..n] == Widths(rects[..n]);
    } else {
      assert Widths(rects)[..0] == [];
    }
  }

  /** The legend of the roughness map spans exactly the scale's range:
      the rectangle widths add up to r1 - r0. */
  lemma LegendSpansRange(x: real -> real, domain: seq<real>, colours: seq<string>, r0: real, r1: real)
    requires |colours| == |domain| + 1
    ensures Sum(Widths(LegendRects(x, domain, colours, r0, r1))) == r1 - r0
  {
    WidthsTelescope(LegendRects(x, domain, colours, r0, r1));
  }
}
