# Wind turbine eco-design tool: a verified model of its computational core

The tool sizes a small wind turbine and reports its life-cycle impacts. This
project models in Dafny the parts of it that compute:

- the annual energy production from a Rayleigh wind distribution and a power
  curve, and the logarithmic wind-shear law (`LCA/mylib.py`; module `Yield`);
- the Environmental Footprint 3.0 single score, computed from category scores,
  normalisation factors and weighting factors, and the life-cycle single
  score of a list of activities (`LCA/mylib.py`; module `Impact`);
- the EF 3.0 method table, the normalisation and weighting tables and their
  alignment, and the activity order and unit tables (`LCA/LCIA_setup.py`;
  module `LciaSetup`);
- the JavaScript in the Bokeh dashboard's callbacks: the lifetime energy
  production, the per-height mean wind speed, the per-kWh impacts, the
  toggling of curves and the choice of map (`interface/trace_animation_bokeh.py`;
  module `Dashboard`);
- the helpers of the web map: evenly spaced values, the search for a raster
  cell, pixel colouring and the legend layout (`map/my_lib.js`; module `MapLib`);
- the component walk that exports volumes from the CAD model of the turbine
  (`LCA/eco-optimization_tool/SizingWT/export_volumes.py`; module `CadExport`).

`base.dfy` (module `Base`) holds the shared vocabulary: `Option`, `Sum`,
`Distinct`, and the properties assumed of `ln` and `exp`.

The exponential, the natural logarithm and π are parameters of the model.
A lemma that needs a property of one of them says so in its `requires`:
`LogLike(ln)` means ln 1 = 0 and ln is increasing; `Increasing(exp)` means exp
is increasing. Arithmetic is exact: reals stand for doubles. In the
logarithmic wind-shear law a non-finite result (a division by zero, or the
logarithm of a non-positive number) is `None`. Elsewhere a `requires`
excludes the zero denominator, and "## Left out" lists each such member. The
brightway2 LCA computation is an oracle `score(activity, method)`.

## Model

| member | source | states |
|---|---|---|
| Yield.AepRayleigh | LCA/mylib.py:9-18 | The loop's sum is 8760 times the sum of the trapezoid bins x = 1 … n−2 (`Aep`). It is 0 when there are at most two samples. |
| Yield.BinSumReadsPrefix | LCA/mylib.py:14-16 | The first m bins read only the first m samples of F and p. |
| Yield.AepIgnoresLastSample | LCA/mylib.py:14-15 | Changing the last sample of F and p leaves the AEP unchanged. |
| Yield.BinSumNonNegative | LCA/mylib.py:14-16 | With F non-decreasing and p non-negative, every partial bin sum is ≥ 0. |
| Yield.AepNonNegative | LCA/mylib.py:14-17 | With F non-decreasing and p non-negative, the AEP is ≥ 0. |
| Yield.BinSumScale | LCA/mylib.py:15-16 | Scaling the power curve by c scales every partial bin sum by c. |
| Yield.AepScale | LCA/mylib.py:14-17 | Scaling the power curve by c scales the AEP by c. |
| Yield.RayleighCdf | LCA/mylib.py:12 | One CDF value per wind speed. At speed 0 the value is 1 − exp(0). Speeds of equal magnitude get equal values. With an increasing exp and π > 0, every value is at least 1 − exp(0), i.e. at least 0 for the real exp. |
| Yield.RayleighExponentEven | LCA/mylib.py:12 | The exponent depends on the wind speed only through its square. |
| Yield.RayleighExponentAntitone | LCA/mylib.py:12 | The exponent −π/(4μ²)·v² does not increase as v ≥ 0 grows. |
| Yield.RayleighCdfNonDecreasing | LCA/mylib.py:12 | For sorted non-negative wind speeds and an increasing exp, the CDF is non-decreasing. |
| Yield.RayleighAepNonNegative | LCA/mylib.py:9-18 | For sorted non-negative wind speeds and non-negative power, the AEP of the Rayleigh CDF is ≥ 0. |
| Yield.WindShearLog | LCA/mylib.py:20-21 | The log law is finite exactly when both logarithms are defined and ln(h_ref/z0) ≠ 0; a finite speed v satisfies v·ln(h_ref/z0) = v_ref·ln(h/z0), the proportion v/v_ref = ln(h/z0)/ln(h_ref/z0) of the logarithmic profile. |
| Yield.WindShearAtReference | LCA/mylib.py:20-21 | At the reference height the law returns v_ref. |
| Yield.WindShearLinear | LCA/mylib.py:21 | The law is linear in v_ref. |
| Yield.WindShearMonotone | LCA/mylib.py:21 | With 0 < z0 < h_ref, v_ref ≥ 0 and an increasing ln, the speed is defined and non-decreasing in h. |
| Impact.WeightedNonNegative | LCA/mylib.py:27 | score/NF·WF is ≥ 0 for a non-negative score, NF > 0 and WF ≥ 0. |
| Impact.WeightedLinear | LCA/mylib.py:27 | score/NF·WF is linear in the score. |
| Impact.WeightedMonotone | LCA/mylib.py:27 | For NF > 0 and WF ≥ 0, score/NF·WF is monotone in the score. |
| Impact.WeightedOfReference | LCA/mylib.py:27 | A score equal to its normalisation factor contributes exactly its weight. |
| Impact.SingleScore | LCA/mylib.py:25-28 | With no category the single score is 0. With one category it is that category's score/NF·WF. |
| Impact.SingleScoreStep | LCA/mylib.py:25-28 | Extending the vectors by category k adds that category's score/NF·WF to the single score. |
| Impact.SumNonNegative | LCA/mylib.py:28 | A sum of non-negative reals is ≥ 0. |
| Impact.SingleScoreNonNegative | LCA/mylib.py:25-28 | Non-negative scores with positive NF and non-negative WF give a non-negative single score. |
| Impact.CombinePrefix | LCA/mylib.py:27 | Combining two score vectors element-wise commutes with taking a prefix. |
| Impact.SumLinear | LCA/mylib.py:28 | The sum of a·v1 + v2 is a·Σv1 + Σv2. |
| Impact.SingleScoreLinear | LCA/mylib.py:25-28 | The single score is linear in the score vector. |
| Impact.SumMonotone | LCA/mylib.py:28 | The sum is monotone, element by element. |
| Impact.SingleScoreMonotone | LCA/mylib.py:25-28 | With NF > 0 and WF ≥ 0, raising any score never lowers the single score. |
| Impact.SingleScoreOfReference | LCA/mylib.py:25-28 | Scores equal to the normalisation factors give the sum of the weights. |
| Impact.SumOfZeros | LCA/mylib.py:28 | A sum of zeros is 0. |
| Impact.SingleScoreOfZeros | LCA/mylib.py:25-28 | All-zero scores give a single score of 0. |
| Impact.LcaSingleScore | LCA/mylib.py:30-39 | The nested loops accumulate, for each method, the oracle's scores over all activities. The result is the EF single score of those totals. |
| Impact.CategoryTotalAppend | LCA/mylib.py:32-38 | The total over two concatenated activity lists is the sum of the two totals. |
| Impact.CategoryTotalPermutation | LCA/mylib.py:32-38 | A category total does not depend on the order of the activities. |
| Impact.CategoryTotalRemoveAt | LCA/mylib.py:32-38 | The total over a list is the total without the activity at position k plus that activity's score. |
| Impact.LcaOrderIndependent | LCA/mylib.py:30-39 | Reordering the activities leaves the single score unchanged. |
| Impact.LcaNoActivities | LCA/mylib.py:30-39 | With no activity the single score is 0. |
| LciaSetup.DictLiteral | LCA/LCIA_setup.py:33-50 | A dict literal's keys are exactly the keys written. |
| LciaSetup.DictLiteralLastWins | LCA/LCIA_setup.py:33-50 | When a key is written twice, the later value wins. |
| LciaSetup.DictLiteralDistinct | LCA/LCIA_setup.py:33-50 | With distinct keys, each key maps to its own value and the dict has one key per entry. |
| LciaSetup.CategoriesDistinct | LCA/LCIA_setup.py:14-31 | methods_EF has 16 entries whose categories are pairwise distinct. |
| LciaSetup.FactorTablesPositional | LCA/LCIA_setup.py:33-69 | EF_NF and EF_WF have 16 keys each. Method i's category maps to the i-th literal of each table. |
| LciaSetup.AlignFactors | LCA/LCIA_setup.py:72-77 | The loop fills NF[i] and WF[i] from the category of method i. It fails (IndexError/KeyError) exactly when a method is missing or a category is absent from a table. |
| LciaSetup.SetupFactors | LCA/LCIA_setup.py:33-77 | After the loop, NF and WF are the literals in the order they are written. |
| LciaSetup.FactorsPositive | LCA/LCIA_setup.py:34-68 | All 16 normalisation and weighting factors are positive. |
| LciaSetup.WeightsSumToOne | LCA/LCIA_setup.py:53-68 | The weighting factors sum to exactly 1. |
| LciaSetup.ReferenceSingleScore | LCA/LCIA_setup.py:33-77 | Scores equal to the normalisation factors give an EF single score of exactly 1. |
| LciaSetup.RecommendedAreEF | LCA/LCIA_setup.py:5-31 | Every recommended method is one of the EF methods, so it has NF and WF entries. |
| LciaSetup.DictLiteralSuffix | LCA/LCIA_setup.py:99-115 | Two dict literals with the same keys and suffixed values have the same key set and suffixed lookups. |
| LciaSetup.UnitTablesAgree | LCA/LCIA_setup.py:99-115 | Both unit tables have the same 7 keys, and each per-kWh unit is the unit followed by "/kWh". |
| LciaSetup.UnitKeysDistinct | LCA/LCIA_setup.py:84-105 | The 7 impact names used as unit keys are distinct. |
| LciaSetup.UnitsSuffix | LCA/LCIA_setup.py:99-115 | Position by position, each per-kWh unit literal is the unit literal followed by "/kWh". |
| LciaSetup.ReplaceSkip | LCA/LCIA_setup.py:130-142 | A prefix that cannot start a match is copied unchanged. |
| LciaSetup.ReplaceAbsent | LCA/LCIA_setup.py:130-142 | A string that cannot contain the pattern is left unchanged. |
| LciaSetup.ReplaceHit | LCA/LCIA_setup.py:130-142 | A leading match is replaced, and the rest is processed further. |
| LciaSetup.RenameOnce | LCA/LCIA_setup.py:130-142 | Replacing "18m" by "12m" in a + "18m" + b only renames that one occurrence. |
| LciaSetup.RenameLead | LCA/LCIA_setup.py:130-142 | A key that starts with "18m" gets "12m" in its place. |
| LciaSetup.RenameRow | LCA/LCIA_setup.py:130-142 | A mast row ("18m" + tail, before + "18m" + after) without other digit 1 becomes ("12m" + tail, before + "12m" + after). |
| LciaSetup.Order12mIsRenamed18m | LCA/LCIA_setup.py:130-142 | order_12m is order_18m with every "18m" replaced by "12m". |
| LciaSetup.MastRowRenamed | LCA/LCIA_setup.py:130-142 | Row i of order_12m is row i of order_18m, renamed. |
| LciaSetup.OrderDictKeepsRows | LCA/LCIA_setup.py:122-160 | An order table with distinct keys, written as a dict literal, has one entry per row, and row i's key gives row i's activity name. |
| LciaSetup.OrderWtKeepsRows | LCA/LCIA_setup.py:122-128 | order_wt has seven distinct keys, so its dict holds all seven turbine activities. |
| LciaSetup.ElectronicsDifferOnlyInStorage | LCA/LCIA_setup.py:144-160 | The two electronics tables agree everywhere except the fourth entry: batteries off grid, grid electricity on grid. |
| Dashboard.JsComputeLep | interface/trace_animation_bokeh.py:101-107 | js_compute_LEP is life times the AEP of the same F and P, summing the same bins as aep_rayleigh. It is 0 for at most two samples. The copies at lines 145-151 and 166-172 are the same text. |
| Dashboard.LepPerWindSpeed | interface/trace_animation_bokeh.py:164-177 | One LEP value in kWh per mean wind speed: life × AEP of that speed's Rayleigh CDF, divided by 1000. |
| Dashboard.LepOfSpeed | interface/trace_animation_bokeh.py:174-175 | One pass of callback4's loop gives life × AEP of that speed's Rayleigh CDF / 1000, and 0 for at most two power-curve samples. |
| Dashboard.LepNonNegative | interface/trace_animation_bokeh.py:111-112 | With a sorted non-negative wind grid, non-negative power and lifetime, and an increasing exp, the LEP is ≥ 0. |
| Dashboard.VAvgProperties | interface/trace_animation_bokeh.py:98 | With 0 < Z < hr and an increasing ln, every speed is finite, equals vr at hr, and increases with height. |
| Dashboard.DivideColumnInverse | interface/trace_animation_bokeh.py:113 | Multiplying a rewritten per-kWh entry by its LEP gives the impact back. |
| Dashboard.UpdateImpactsPerKwh | interface/trace_animation_bokeh.py:108-116 | Every key except "h" is rewritten as impacts[key][i]/lep[i]. The "h" column and the key set are unchanged. The update fails (a TypeError in the browser) exactly when there is at least one height and a rewritten key is missing from the impacts. With no height the loop body never runs, and the table is returned unchanged. |
| Dashboard.RecomputeImpactsPerKwh | interface/trace_animation_bokeh.py:91-116 | The callback combines the per-height speed, the LEP and the per-kWh rewrite. Entry i of each rewritten column is impact/LEP at the i-th height. It fails exactly when there is at least one height and a rewritten key is missing from the impacts. With no height the table is unchanged. |
| Dashboard.ToggleImpacts | interface/trace_animation_bokeh.py:124-135 | For i < nb_impacts, curve i and legend item i are visible iff i is active. Entries beyond that are unchanged. |
| Dashboard.MapPageThreshold | interface/trace_animation_bokeh.py:199-204 | Two roughness lengths give the same map iff they lie on the same side of 0.5. |
| MapLib.StepReachesStop | map/my_lib.js:6-8 | For cardinality ≥ 2, cardinality − 1 steps from start reach stop. |
| MapLib.MakeArr | map/my_lib.js:4-11 | makeArr returns max(cardinality, 0) values. Value i is start + i·step, consecutive differences all equal step, the first value is start, and for cardinality ≥ 2 the last is stop. |
| MapLib.FindIndex | map/my_lib.js:280-281 | findIndex returns the least index satisfying the predicate, or −1 exactly when none does. |
| MapLib.FindCell | map/my_lib.js:279-283 | The column is the least x index within xRes of the longitude, or −1. The row is height − y_index − 1, where y_index is the least y index within yRes of the latitude, or −1. |
| MapLib.FindCellNoRow | map/my_lib.js:282 | When no latitude sample matches, the row is height, one past the last row. |
| MapLib.FindCellUnique | map/my_lib.js:280-281 | On a grid whose samples are at least twice the tolerance apart, the cell found is the one sample within tolerance. |
| MapLib.RoughnessClassColour | map/my_lib.js:211-214 | With distinct classes, an opaque pixel whose rounded value is class k gets colour k. |
| MapLib.RoughnessUnknownValue | map/my_lib.js:211-214 | An opaque pixel whose value is no class gets undefined. |
| MapLib.TransparentIgnoresData | map/my_lib.js:207-209 | All three colourings return null for a transparent pixel, whatever the data band holds. |
| MapLib.LegendRects | map/my_lib.js:50-56 | One rectangle per colour, carrying that colour. Rectangle 0 starts at the range start, and rectangle i ends where rectangle i+1 begins. With one more colour than thresholds, the last rectangle ends at the range end. The roughness legend at lines 123-129 is the same code. |
| MapLib.WidthsTelescope | map/my_lib.js:53-61 | The widths of adjacent rectangles add up to the span from the first start to the last end. |
| MapLib.LegendSpansRange | map/my_lib.js:123-135 | With one more colour than thresholds, as a d3 threshold scale has, the legend's widths add up to r1 − r0. |
| CadExport.Contains | LCA/eco-optimization_tool/SizingWT/export_volumes.py:49 | `sub in s` holds exactly when sub occurs at some position of s. |
| CadExport.ShouldSkip | LCA/eco-optimization_tool/SizingWT/export_volumes.py:46-51 | An object is skipped exactly when its type is a skipped type or some keyword, lower-cased, occurs at some position of its lower-cased label. |
| CadExport.ShouldSkipIgnoresCase | LCA/eco-optimization_tool/SizingWT/export_volumes.py:46-51 | Two labels that differ only in case get the same skip decision. |
| CadExport.ShouldSkipKeyword | LCA/eco-optimization_tool/SizingWT/export_volumes.py:49-50 | A label containing a keyword, in any case, is skipped whatever the type. |
| CadExport.ShouldSkipKeeps | LCA/eco-optimization_tool/SizingWT/export_volumes.py:46-51 | An object whose type is not skipped and whose label holds no keyword is kept. |
| CadExport.Children | LCA/eco-optimization_tool/SizingWT/export_volumes.py:53-56 | Every child is an object of the document. An object that is not a link has its own Group as children, or none without a Group. |
| CadExport.ChildrenThroughLink | LCA/eco-optimization_tool/SizingWT/export_volumes.py:53-56 | A link to an object that is not a link has that object's children. |
| CadExport.FormatLabel | LCA/eco-optimization_tool/SizingWT/export_volumes.py:58-62 | The result is 4·indent characters of prefix followed by the label. Every segment but the last is "│   ", and the last is "└── " iff is_last, "├── " otherwise. At indent 0 the label is returned unchanged. |
| CadExport.Measure | LCA/eco-optimization_tool/SizingWT/export_volumes.py:72-78 | A non-null shape whose hash was not seen before adds its hash and counts the sum of its solids' volumes. Otherwise nothing is recorded and the volume is 0. A non-null shape's hash is always recorded afterwards. |
| CadExport.VolumeCell | LCA/eco-optimization_tool/SizingWT/export_volumes.py:81 | The cell is empty exactly when the volume is not > 0. Otherwise it holds the volume in cm³. |
| CadExport.Enter | LCA/eco-optimization_tool/SizingWT/export_volumes.py:68-82 | Entering an object marks it visited and appends its own row. A row with a volume appends the target shape's hash, which was not measured before, to the counted hashes. The counted hashes stay distinct, measured, and one per row with a volume. |
| CadExport.Process | LCA/eco-optimization_tool/SizingWT/export_volumes.py:64-87 | A visited or skipped object leaves the state unchanged. Otherwise the object's own row comes first, its shape hash is recorded, and a row with a volume is counted under a hash not measured before. Rows and counted hashes are only appended, one row per newly visited object, and the counted hashes stay distinct and one per row with a volume. |
| CadExport.EnteredRows | LCA/eco-optimization_tool/SizingWT/export_volumes.py:68-87 | After an object is entered, whatever its children's walk adds leaves the object's own row, and its counted hash, at the position where they were written. |
| CadExport.ProcessChildren | LCA/eco-optimization_tool/SizingWT/export_volumes.py:85-87 | The loop over children keeps the same growth and counting invariant. |
| CadExport.WalkUpTo | LCA/eco-optimization_tool/SizingWT/export_volumes.py:85-87 | The state after the first i children keeps the same growth and counting invariant. |
| CadExport.ProcessChildrenSplit | LCA/eco-optimization_tool/SizingWT/export_volumes.py:85-87 | The loop over all children is the first i children followed by the rest. |
| CadExport.ChildrenInOrder | LCA/eco-optimization_tool/SizingWT/export_volumes.py:80-87 | Pre-order: for every child i of an entered object, after the children before it, the next row is child i's own row, at indent + 1, flagged last exactly when i is the last child (if the child is entered at all). |
| CadExport.FirstWhere | LCA/eco-optimization_tool/SizingWT/export_volumes.py:90 | The result satisfies the predicate and sits at a position before which no object does. It is none exactly when no object does. |
| CadExport.Root | LCA/eco-optimization_tool/SizingWT/export_volumes.py:90 | An object named WindTurbine is chosen whenever one exists. Otherwise the root is the first object in document order labelled WindTurbine. It is missing exactly when no object has that name or label. |
| CadExport.Export | LCA/eco-optimization_tool/SizingWT/export_volumes.py:89-96 | The export has at most one row per object. Each row with a volume is counted under its own shape hash, and these hashes are distinct hashes of the document's shapes. So no shape's volume is counted twice, and there are at most as many rows with a volume as distinct hashes. |
| CadExport.LinkToMeasuredShape | LCA/eco-optimization_tool/SizingWT/export_volumes.py:69-82 | An App::Link to an already-measured shape gets a row with an empty volume cell. |
| CadExport.SecondCopyEmpty | LCA/eco-optimization_tool/SizingWT/export_volumes.py:74-81 | Once an object with a non-null shape is entered, another object with the same shape hash gets an empty volume cell. |
| CadExport.LeafOneRow | LCA/eco-optimization_tool/SizingWT/export_volumes.py:80-87 | An entered object without children writes exactly its own row. |

## Left out

- Floating-point behaviour is not modelled. The model does not cover IEEE rounding, `toFixed(3)`, `Math.round`, Python `round(..., 2)`, or JavaScript's loose `==` between a string and a number. Reals are exact. The three-decimal rounding of the map is a parameter `round3`, and the volume cell holds volume/1000 unrounded.
- exp, ln and π are parameters, not their real functions. Properties of them appear only as `requires` of the lemmas that use them.
- The brightway2 `LCA(...).lci()/.lcia()` calls are the oracle `score`, because the LCA database is outside the program.
- Yield.AepRayleigh takes the CDF values F as data. The Rayleigh CDF itself is `RayleighCdf`.
- Dashboard.LepPerWindSpeed uses the exponent −(π/4)/μ²·v². The JavaScript writes it as −π·v²/(4·μ²), which is the same real number.
- Dashboard.RecomputeImpactsPerKwh requires every per-height speed and every LEP to be finite and non-zero. The JavaScript would instead write Infinity or NaN into the table.
- Dashboard.RecomputeImpactsPerKwh takes the mast heights as a parameter h and requires h to be the impacts table's "h" column, which the callback reads (interface/trace_animation_bokeh.py:97); a table without that column, where the browser would throw a TypeError, is not modelled.
- Dashboard.UpdateImpactsPerKwh: the JavaScript writes each rewritten column in place, key after key. When there is at least one height and a key is missing from the impacts, it throws part-way, leaving earlier columns already updated. The model returns `None` and ignores that partial update.
- Dashboard.UpdateImpactsPerKwh requires every LEP value to be non-zero and every rewritten column (in the table and in the impacts) to hold at least one entry per height. The JavaScript would instead write Infinity or NaN, or read `undefined` and extend the column.
- Dashboard.LepPerWindSpeed and Dashboard.LepOfSpeed require every mean wind speed to be non-zero. For v_avg = 0 the JavaScript divides by zero and gets NaN.
- Dashboard.ToggleImpacts requires at least nb_impacts curves and legend items. With fewer, the JavaScript throws a TypeError on the missing renderer.
- Impact.Weighted and Impact.SingleScore require every normalisation factor to be non-zero. With a zero factor NumPy's element-wise `scores/NF` gives inf or NaN with a warning, and the sum is not finite.
- Yield.RayleighCdf requires the mean wind speed μ to be non-zero. For μ = 0, NumPy gives a division warning and a non-finite exponent.
- Dashboard.MapPage models only the file name inside the iframe HTML, not the rest of the HTML text.
- Bokeh widgets, layout, `emit` and `show`, the text of the LEP label (`callback3`), and the value of `callback5` are left out. That value is the same log law as `VAvg`.
- D3/Leaflet rendering, `fetch_response`, the georaster parsing, `GRtoGRL` and `display_popup` in map/my_lib.js are left out, because they are DOM and network code. The scales and colour maps they build are parameters.
- MapLib.MakeArr requires cardinality ≠ 1: makeArr divides by cardinality − 1, and for cardinality 1 it yields [NaN].
- MapLib.LegendRects requires no more colours than thresholds + 1. With more, JavaScript would scale `undefined`.
- CadExport: FreeCAD's document loading, `Shape.Solids` volumes, `hashCode`, the CSV writing and `os.makedirs` are left out. The document is an abstract object graph with given hashes and solid volumes. The rows returned are the CSV rows after the "Diameter" header line.
- CadExport.LowerChar lower-cases ASCII letters only, while Python's str.lower also lower-cases non-ASCII letters. The skip keywords are ASCII.
- CadExport.Process takes a non-null shape to be truthy (`if shape and not shape.isNull()`).
- The tower, guy-wire, battery and height-optimisation sizing of the tool is not part of this model.
