/** The EF 3.0 impact-assessment configuration (LCA/LCIA_setup.py): the
    table of sixteen characterisation methods, the normalisation and
    weighting factors keyed by category name, the loop that lays them out
    in method order, and the name tables used to order and label results. */
module LciaSetup {
  import opened Base
  import Impact

  /** A brightway method key: (family, impact category, indicator). */
  datatype Method = Method(family: string, category: string, indicator: string)

  /** Python dict literal semantics: entries are inserted from left to
      right, and a repeated key keeps the value written last. */
  function DictLiteral<K, V>(keys: seq<K>, vals: seq<V>): (d: map<K, V>)
    requires |keys| == |vals|
    ensures d.Keys == Elements(keys)
    decreases |keys|
  {
    if |keys| == 0 then map[]
    else
      var n := |keys| - 1;
      DictLiteral(keys[..n], vals[..n])[keys[n] := vals[n]]
  }

  /** A key maps to the value at its last occurrence. */
  lemma {:induction false} DictLiteralLastWins<K, V>(keys: seq<K>, vals: seq<V>, i: nat)
    requires |keys| == |vals| && i < |keys|
    requires forall j :: i < j < |keys| ==> keys[j] != keys[i]
    ensures keys[i] in DictLiteral(keys, vals) && DictLiteral(keys, vals)[keys[i]] == vals[i]
    decreases |keys|
  {
    var n := |keys| - 1;
    if i < n {
      DictLiteralLastWins(keys[..n], vals[..n], i);
    }
  }

  /** With distinct keys, looking up the i-th key gives the i-th value. */
  lemma DictLiteralDistinct<K, V>(keys: seq<K>, vals: seq<V>)
    requires |keys| == |vals| && Distinct(keys)
    ensures forall i :: 0 <= i < |keys| ==> keys[i] in DictLiteral(keys, vals) && DictLiteral(keys, vals)[keys[i]] == vals[i]
    ensures |DictLiteral(keys, vals).Keys| == |keys|
  {
    forall i | 0 <= i < |keys|
      ensures keys[i] in DictLiteral(keys, vals) && DictLiteral(keys, vals)[keys[i]] == vals[i]
    {
      DictLiteralLastWins(keys, vals, i);
    }
    DistinctCardinality(keys);
  }

  const EF: string := "EF v3.0"

  /** methods_EF: the sixteen EF 3.0 methods, in the order the factor
      arrays use. The trailing blanks of some indicators are part of the
      database keys. */
  const MethodsEF: seq<Method> := [
    Method(EF, "acidification", "accumulated exceedance (ae)"),
    Method(EF, "climate change", "global warming potential (GWP100)"),
    Method(EF, "ecotoxicity: freshwater", "comparative toxic unit for ecosystems (CTUe) "),
    Method(EF, "energy resources: non-renewable", "abiotic depletion potential (ADP): fossil fuels"),
    Method(EF, "eutrophication: freshwater", "fraction of nutrients reaching freshwater end compartment (P)"),
    Method(EF, "eutrophication: marine", "fraction of nutrients reaching marine end compartment (N)"),
    Method(EF, "eutrophication: terrestrial", "accumulated exceedance (AE) "),
    Method(EF, "human toxicity: carcinogenic", "comparative toxic unit for human (CTUh) "),
    Method(EF, "human toxicity: non-carcinogenic", "comparative toxic unit for human (CTUh) "),
    Method(EF, "ionising radiation: human health", "human exposure efficiency relative to u235"),
    Method(EF, "land use", "soil quality index"),
    Method(EF, "material resources: metals/minerals", "abiotic depletion potential (ADP): elements (ultimate reserves)"),
    Method(EF, "ozone depletion", "ozone depletion potential (ODP) "),
    Method(EF, "particulate matter formation", "impact on human health"),
    Method(EF, "photochemical ozone formation: human health", "tropospheric ozone concentration increase"),
    Method(EF, "water use", "user deprivation potential (deprivation-weighted water consumption)")
  ]

  /** methods_recommended: the five methods plotted by default. */
  const MethodsRecommended: seq<Method> := [
    Method(EF, "material resources: metals/minerals", "abiotic depletion potential (ADP): elements (ultimate reserves)"),
    Method(EF, "ecotoxicity: freshwater", "comparative toxic unit for ecosystems (CTUe) "),
    Method(EF, "climate change", "global warming potential (GWP100)"),
    Method(EF, "energy resources: non-renewable", "abiotic depletion potential (ADP): fossil fuels"),
    Method(EF, "particulate matter formation", "impact on human health")
  ]

  /** The values of the EF_NF literal, in the order written. */
  const NFValues: seq<real> := [
    55.6, 8100.0, 42700.0, 65000.0, 1.61, 19.5, 177.0, 0.0000169,
    0.00023, 4220.0, 819000.0, 0.0636, 0.0536, 0.000595, 40.6, 11500.0
  ]

  /** The values of the EF_WF literal, in the order written. */
  const WFValues: seq<real> := [
    0.062, 0.2106, 0.0192, 0.0832, 0.028, 0.0296, 0.0371, 0.0213,
    0.0184, 0.0501, 0.0794, 0.0755, 0.0631, 0.0896, 0.0478, 0.0851
  ]

  function Categories(ms: seq<Method>): (cs: seq<string>)
    ensures |cs| == |ms|
    ensures forall i :: 0 <= i < |ms| ==> cs[i] == ms[i].category
  {
    seq(|ms|, i requires 0 <= i < |ms| => ms[i].category)
  }

  /** EF_NF and EF_WF: dictionaries keyed by methods_EF[i][1]. */
  function EfNf(): map<string, real>
  {
    DictLiteral(Categories(MethodsEF), NFValues)
  }

  function EfWf(): map<string, real>
  {
    DictLiteral(Categories(MethodsEF), WFValues)
  }

  lemma CategoriesDistinct()
    ensures |MethodsEF| == 16
    ensures Distinct(Categories(MethodsEF))
  {
  }

  /** Both factor dictionaries hold exactly sixteen keys, and the key of
      method i retrieves the i-th literal. */
  lemma FactorTablesPositional()
    ensures |EfNf().Keys| == 16 && |EfWf().Keys| == 16
    ensures forall i :: 0 <= i < 16 ==> MethodsEF[i].category in EfNf() && EfNf()[MethodsEF[i].category] == NFValues[i]
    ensures forall i :: 0 <= i < 16 ==> MethodsEF[i].category in EfWf() && EfWf()[MethodsEF[i].category] == WFValues[i]
  {
    CategoriesDistinct();
    DictLiteralDistinct(Categories(MethodsEF), NFValues);
    DictLiteralDistinct(Categories(MethodsEF), WFValues);
  }

  /** The loop at the end of the factor setup: for i in range(size),
      NF[i] = nf[methods[i][1]] and WF[i] = wf[methods[i][1]]. An index past
      the end of `methods` (IndexError) or a missing key (KeyError) aborts
      the setup, modelled as None. */
  method AlignFactors(methods: seq<Method>, nf: map<string, real>, wf: map<string, real>, size: nat)
    returns (r: Option<(seq<real>, seq<real>)>)
    ensures r.Some? <==> size <= |methods| && forall i :: 0 <= i < size ==> methods[i].category in nf && methods[i].category in wf
    ensures r.Some? ==> |r.value.0| == size && |r.value.1| == size
    ensures r.Some? ==> forall i :: 0 <= i < size ==> r.value.0[i] == nf[methods[i].category] && r.value.1[i] == wf[methods[i].category]
  {
    var NF := seq(size, _ => 0.0);
    var WF := seq(size, _ => 0.0);
    for i := 0 to size
      invariant |NF| == size && |WF| == size
      invariant i <= |methods| && forall k :: 0 <= k < i ==> methods[k].category in nf && methods[k].category in wf
      invariant forall k :: 0 <= k < i ==> NF[k] == nf[methods[k].category] && WF[k] == wf[methods[k].category]
    {
      if i >= |methods| {
        return None;
      }
      var c := methods[i].category;
      if c !in nf || c !in wf {
        return None;
      }
      NF := NF[i := nf[c]];
      WF := WF[i := wf[c]];
    }
    r := Some((NF, WF));
  }

  /** Running the setup on the EF 3.0 tables succeeds and lays the literals
      out in method order. */
  method SetupFactors() returns (NF: seq<real>, WF: seq<real>)
    ensures NF == NFValues && WF == WFValues
  {
    FactorTablesPositional();
    var r := AlignFactors(MethodsEF, EfNf(), EfWf(), 16);
    NF, WF := r.value.0, r.value.1;
  }

  /** Every normalisation and weighting factor is strictly positive, so
      the factors are valid divisors for the single score. */
  lemma FactorsPositive()
    ensures |NFValues| == |WFValues| == 16
    ensures forall i :: 0 <= i < 16 ==> NFValues[i] > 0.0 && WFValues[i] > 0.0
    ensures Impact.ValidFactors(NFValues, WFValues)
  {
  }

  lemma WeightsPrefix4()
    ensures Sum(WFValues[..4]) == 0.375
  {
    SumStep(WFValues, 0);
    assert Sum(WFValues[..1]) == 0.062;
    SumStep(WFValues, 1);
    assert Sum(WFValues[..2]) == 0.2726;
    SumStep(WFValues, 2);
    assert Sum(WFValues[..3]) == 0.2918;
    SumStep(WFValues, 3);
  }

  lemma WeightsPrefix8()
    ensures Sum(WFValues[..8]) == 0.491
  {
    WeightsPrefix4();
    SumStep(WFValues, 4);
    assert Sum(WFValues[..5]) == 0.403;
    SumStep(WFValues, 5);
    assert Sum(WFValues[..6]) == 0.4326;
    SumStep(WFValues, 6);
    assert Sum(WFValues[..7]) == 0.4697;
    SumStep(WFValues, 7);
  }

  lemma WeightsPrefix12()
    ensures Sum(WFValues[..12]) == 0.7144
  {
    WeightsPrefix8();
    SumStep(WFValues, 8);
    assert Sum(WFValues[..9]) == 0.5094;
    SumStep(WFValues, 9);
    assert Sum(WFValues[..10]) == 0.5595;
    SumStep(WFValues, 10);
    assert Sum(WFValues[..11]) == 0.6389;
    SumStep(WFValues, 11);
  }

  lemma WeightsPrefix16()
    ensures Sum(WFValues[..16]) == 1.0
  {
    WeightsPrefix12();
    SumStep(WFValues, 12);
    assert Sum(WFValues[..13]) == 0.7775;
    SumStep(WFValues, 13);
    assert Sum(WFValues[..14]) == 0.8671;
    SumStep(WFValues, 14);
    assert Sum(WFValues[..15]) == 0.9149;
    SumStep(WFValues, 15);
  }

  /** The sixteen weights sum to one in exact decimal arithmetic. */
  lemma WeightsSumToOne()
    ensures Sum(WFValues) == 1.0
  {
    WeightsPrefix16();
    assert WFValues[..16] == WFValues;
  }

  /** Scoring the normalisation references gives a single score of one. */
  lemma ReferenceSingleScore()
    ensures Impact.ValidFactors(NFValues, WFValues)
    ensures Impact.SingleScore(NFValues, NFValues, WFValues) == 1.0
  {
    FactorsPositive();
    Impact.SingleScoreOfReference(NFValues, WFValues);
    WeightsSumToOne();
  }

  /** Every recommended method is one of the EF 3.0 methods, so each has
      factors. */
  lemma RecommendedAreEF()
    ensures forall m :: m in MethodsRecommended ==> m in MethodsEF
    ensures forall m :: m in MethodsRecommended ==> m.category in EfNf() && m.category in EfWf()
  {
    assert MethodsRecommended[0] == MethodsEF[11];
    assert MethodsRecommended[1] == MethodsEF[2];
    assert MethodsRecommended[2] == MethodsEF[1];
    assert MethodsRecommended[3] == MethodsEF[3];
    assert MethodsRecommended[4] == MethodsEF[13];
    FactorTablesPositional();
  }

  /** impacts_order_grid: the impacts plotted for the grid scenario. */
  const ImpactsOrderGrid: seq<string> := [
    "Material resources", "Climate change", "Energy non-renewable",
    "Human toxicity, non-carcinogenic", "Ecotoxicity, freshwater", "Acidification"
  ]

  /** impacts_order: the impacts plotted by default. */
  const ImpactsOrder: seq<string> := [
    "Material resources", "Ecotoxicity, freshwater", "Climate change",
    "Energy non-renewable", "Particulate matter"
  ]

  /** The keys of both unit dictionaries, in the order written. */
  function UnitKeys(): seq<string>
  {
    ImpactsOrder + [ImpactsOrderGrid[5], ImpactsOrderGrid[3]]
  }

  const Units: seq<string> := [
    "kg Sb-eq", "CTUe", "kg CO2-eq", "MJ", "disease incidence", "mol H+ eq.", "CTUh"
  ]

  const UnitsPerKwh: seq<string> := [
    "kg Sb-eq/kWh", "CTUe/kWh", "kg CO2-eq/kWh", "MJ/kWh", "disease incidence/kWh", "mol H+ eq./kWh", "CTUh/kWh"
  ]

  /** correspondances: impact name to plotting unit. */
  function Correspondances(): map<string, string>
  {
    DictLiteral(UnitKeys(), Units)
  }

  /** correspondances_kwh: impact name to unit per kilowatt-hour. */
  function CorrespondancesKwh(): map<string, string>
  {
    DictLiteral(UnitKeys(), UnitsPerKwh)
  }

  /** Two dict literals over the same keys whose values differ by a fixed
      suffix have the same key set and differ by that suffix at every key,
      whether or not keys repeat. */
  lemma {:induction false} DictLiteralSuffix(keys: seq<string>, vals: seq<string>, vals2: seq<string>, suffix: string)
    requires |keys| == |vals| == |vals2|
    requires forall i :: 0 <= i < |vals| ==> vals2[i] == vals[i] + suffix
    ensures DictLiteral(keys, vals2).Keys == DictLiteral(keys, vals).Keys
    ensures forall k :: k in DictLiteral(keys, vals) ==> DictLiteral(keys, vals2)[k] == DictLiteral(keys, vals)[k] + suffix
    decreases |keys|
  {
    if |keys| > 0 {
      var n := |keys| - 1;
      DictLiteralSuffix(keys[..n], vals[..n], vals2[..n], suffix);
    }
  }

  /** The two unit tables name the same impacts, and each per-kWh unit is
      the plain unit followed by "/kWh". */
  lemma UnitTablesAgree()
    ensures |Correspondances().Keys| == 7
    ensures CorrespondancesKwh().Keys == Correspondances().Keys
    ensures forall k :: k in Correspondances() ==> CorrespondancesKwh()[k] == Correspondances()[k] + "/kWh"
  {
    UnitKeysDistinct();
    DictLiteralDistinct(UnitKeys(), Units);
    UnitsSuffix();
    DictLiteralSuffix(UnitKeys(), Units, UnitsPerKwh, "/kWh");
  }

  lemma UnitKeysDistinct()
    ensures |UnitKeys()| == 7 && Distinct(UnitKeys())
  {
  }

  lemma UnitsSuffix()
    ensures |Units| == |UnitsPerKwh| == 7
    ensures forall i :: 0 <= i < 7 ==> UnitsPerKwh[i] == Units[i] + "/kWh"
  {
  }

  /** Python's str.replace: every non-overlapping occurrence of `pattern`,
      scanning from the left, is replaced by `replacement`. */
  function Replace(s: string, pattern: string, replacement: string): (r: string)
    requires |pattern| > 0
    ensures |pattern| == |replacement| ==> |r| == |s|
    decreases |s|
  {
    if |s| < |pattern| then s
    else if s[..|pattern|] == pattern then replacement + Replace(s[|pattern|..], pattern, replacement)
    else [s[0]] + Replace(s[1..], pattern, replacement)
  }

  /** Text in which the pattern's first character never appears holds no
      occurrence and is copied unchanged ahead of the rest. */
  lemma {:induction false} ReplaceSkip(a: string, s: string, pattern: string, replacement: string)
    requires |pattern| > 0
    requires forall k :: 0 <= k < |a| ==> a[k] != pattern[0]
    ensures Replace(a + s, pattern, replacement) == a + Replace(s, pattern, replacement)
    decreases |a|
  {
    if |a| > 0 {
      var t := a + s;
      assert t[0] != pattern[0];
      if |t| >= |pattern| {
        assert t[..|pattern|] != pattern;
      }
      assert t[1..] == a[1..] + s;
      ReplaceSkip(a[1..], s, pattern, replacement);
      assert [a[0]] + (a[1..] + Replace(s, pattern, replacement)) == a + Replace(s, pattern, replacement);
    } else {
      assert a + s == s;
    }
  }

  /** Text in which the pattern's first character never appears is left
      unchanged. */
  lemma ReplaceAbsent(s: string, pattern: string, replacement: string)
    requires |pattern| > 0
    requires forall k :: 0 <= k < |s| ==> s[k] != pattern[0]
    ensures Replace(s, pattern, replacement) == s
  {
    ReplaceSkip(s, [], pattern, replacement);
    assert s + [] == s;
  }

  /** An occurrence at the front is replaced and scanning resumes after it. */
  lemma ReplaceHit(s: string, pattern: string, replacement: string)
    requires |pattern| > 0
    ensures Replace(pattern + s, pattern, replacement) == replacement + Replace(s, pattern, replacement)
  {
    var t := pattern + s;
    assert t[..|pattern|] == pattern;
    assert t[|pattern|..] == s;
  }

  /** Renaming a single "18m" surrounded by text without the digit 1. */
  lemma RenameOnce(a: string, b: string)
    requires '1' !in a && '1' !in b
    ensures Replace(a + "18m" + b, "18m", "12m") == a + "12m" + b
  {
    assert a + "18m" + b == a + ("18m" + b);
    ReplaceSkip(a, "18m" + b, "18m", "12m");
    ReplaceHit(b, "18m", "12m");
    ReplaceAbsent(b, "18m", "12m");
    assert a + ("12m" + b) == a + "12m" + b;
  }

  type Order = seq<(string, string)>

  /** order_18m and order_12m list the same six mast activities and
      differ only in the height label ("18m" or "12m") written into the
      keys and the activity names. */
  function MastOrder(h: string): (o: Order)
    ensures |o| == 6
  {
    [
      (h + " steel no zinc", "production of " + h + " structure steel no zinc"),
      (h + " concrete", "production of " + h + " structure concrete only"),
      (h + " zinc", "production of " + h + " zinc coat"),
      (h + " cable", "production of mast cable 48V"),
      (h + " transport concrete", "transport of " + h + " concrete structure"),
      (h + " transport steel", "transport of " + h + " steel structure")
    ]
  }

  /** order_wt: the turbine activities, one per material plus transport. */
  const OrderWt: Order := [
    ("wood", "production of wind turbine wood only"),
    ("steel", "production of wind turbine steel only"),
    ("resin", "production of wind turbine resin only"),
    ("magnet", "production of wind turbine magnet only"),
    ("copper", "production of wind turbine copper only"),
    ("other", "production of wind turbine other materials only"),
    ("transport", "transport of wind turbine")
  ]

  /** order_18m: the mast activities of the 18 m variant. */
  function Order18m(): Order
  {
    MastOrder("18m")
  }

  /** order_12m: the mast activities of the 12 m variant. */
  function Order12m(): Order
  {
    MastOrder("12m")
  }

  /** order_electronics: the off-grid electronics, with batteries. */
  const OrderElectronics: Order := [
    ("electronics rectifier", "rectifier final"),
    ("electronics charge controller", "charge controller final"),
    ("electronics dump load", "dump load final"),
    ("electronics batteries", "batteries final"),
    ("electronics inverter", "inverter final"),
    ("electronics cables", "cable final"),
    ("electronics transport", "transport final")
  ]

  /** order_electronics_grid: the grid-connected electronics. */
  const OrderElectronicsGrid: Order := [
    ("electronics rectifier", "rectifier final"),
    ("electronics charge controller", "charge controller final"),
    ("electronics dump load", "dump load final"),
    ("electronics electricity", "grid_electricity"),
    ("electronics inverter", "inverter final"),
    ("electronics cables", "cable final"),
    ("electronics transport", "transport final")
  ]

  /** Rename every key and value of an order table. */
  function ReplaceInOrder(o: Order, pattern: string, replacement: string): (r: Order)
    requires |pattern| > 0
    ensures |r| == |o|
    ensures forall i :: 0 <= i < |o| ==> r[i] == (Replace(o[i].0, pattern, replacement), Replace(o[i].1, pattern, replacement))
  {
    seq(|o|, i requires 0 <= i < |o| => (Replace(o[i].0, pattern, replacement), Replace(o[i].1, pattern, replacement)))
  }

  /** Renaming a leading "18m" followed by text without the digit 1. */
  lemma RenameLead(b: string)
    requires '1' !in b
    ensures Replace("18m" + b, "18m", "12m") == "12m" + b
  {
    RenameOnce([], b);
    assert [] + "18m" + b == "18m" + b;
    assert [] + "12m" + b == "12m" + b;
  }

  /** The 12 m table is the 18 m table with "18m" renamed to "12m"
      throughout, keys and values alike. */
  lemma Order12mIsRenamed18m()
    ensures Order12m() == ReplaceInOrder(Order18m(), "18m", "12m")
  {
    forall i | 0 <= i < 6
      ensures Order12m()[i] == ReplaceInOrder(Order18m(), "18m", "12m")[i]
    {
      MastRowRenamed(i);
    }
  }

  /** A mast row (h + tail, before + h + after) is renamed in both parts. */
  lemma RenameRow(tail: string, before: string, after: string)
    requires '1' !in tail && '1' !in before && '1' !in after
    ensures (Replace("18m" + tail, "18m", "12m"), Replace(before + "18m" + after, "18m", "12m"))
         == ("12m" + tail, before + "12m" + after)
  {
    RenameLead(tail);
    RenameOnce(before, after);
  }

  /** Row i of the 12 m table is row i of the 18 m table, renamed. */
  lemma MastRowRenamed(i: nat)
    requires i < 6
    ensures MastOrder("12m")[i] == (Replace(MastOrder("18m")[i].0, "18m", "12m"), Replace(MastOrder("18m")[i].1, "18m", "12m"))
  {
    if i == 0 {
      MastRow0Renamed();
    } else if i == 1 {
      MastRow1Renamed();
    } else if i == 2 {
      MastRow2Renamed();
    } else if i == 3 {
      MastRow3Renamed();
    } else if i == 4 {
      MastRow4Renamed();
    } else {
      MastRow5Renamed();
    }
  }

  lemma MastRow0Renamed()
    ensures MastOrder("12m")[0] == (Replace(MastOrder("18m")[0].0, "18m", "12m"), Replace(MastOrder("18m")[0].1, "18m", "12m"))
  {
    RenameRow(" steel no zinc", "production of ", " structure steel no zinc");
  }

  lemma MastRow1Renamed()
    ensures MastOrder("12m")[1] == (Replace(MastOrder("18m")[1].0, "18m", "12m"), Replace(MastOrder("18m")[1].1, "18m", "12m"))
  {
    RenameRow(" concrete", "production of ", " structure concrete only");
  }

  lemma MastRow2Renamed()
    ensures MastOrder("12m")[2] == (Replace(MastOrder("18m")[2].0, "18m", "12m"), Replace(MastOrder("18m")[2].1, "18m", "12m"))
  {
    RenameRow(" zinc", "production of ", " zinc coat");
  }

  lemma MastRow3Renamed()
    ensures MastOrder("12m")[3] == (Replace(MastOrder("18m")[3].0, "18m", "12m"), Replace(MastOrder("18m")[3].1, "18m", "12m"))
  {
    RenameLead(" cable");
    ReplaceAbsent("production of mast cable 48V", "18m", "12m");
  }

  lemma MastRow4Renamed()
    ensures MastOrder("12m")[4] == (Replace(MastOrder("18m")[4].0, "18m", "12m"), Replace(MastOrder("18m")[4].1, "18m", "12m"))
  {
    RenameRow(" transport concrete", "transport of ", " concrete structure");
  }

  lemma MastRow5Renamed()
    ensures MastOrder("12m")[5] == (Replace(MastOrder("18m")[5].0, "18m", "12m"), Replace(MastOrder("18m")[5].1, "18m", "12m"))
  {
    RenameRow(" transport steel", "transport of ", " steel structure");
  }

  /** The keys of an order, in the order written. */
  function OrderKeys(o: Order): (ks: seq<string>)
    ensures |ks| == |o| && forall i :: 0 <= i < |o| ==> ks[i] == o[i].0
  {
    seq(|o|, i requires 0 <= i < |o| => o[i].0)
  }

  /** The activity names of an order, in the order written. */
  function OrderNames(o: Order): (ns: seq<string>)
    ensures |ns| == |o| && forall i :: 0 <= i < |o| ==> ns[i] == o[i].1
  {
    seq(|o|, i requires 0 <= i < |o| => o[i].1)
  }

  /** An order written as a dict literal keeps every row: with distinct keys
      the dict has one entry per row, and the key of row i gives back row
      i's activity name. */
  lemma OrderDictKeepsRows(o: Order)
    requires Distinct(OrderKeys(o))
    ensures |DictLiteral(OrderKeys(o), OrderNames(o)).Keys| == |o|
    ensures forall i :: 0 <= i < |o| ==>
      o[i].0 in DictLiteral(OrderKeys(o), OrderNames(o)) && DictLiteral(OrderKeys(o), OrderNames(o))[o[i].0] == o[i].1
  {
    DictLiteralDistinct(OrderKeys(o), OrderNames(o));
  }

  /** order_wt has seven distinct keys, one per material and one for the
      transport, so its dict holds all seven activities. */
  lemma OrderWtKeepsRows()
    ensures |OrderWt| == 7 && Distinct(OrderKeys(OrderWt))
    ensures |DictLiteral(OrderKeys(OrderWt), OrderNames(OrderWt)).Keys| == 7
  {
    OrderDictKeepsRows(OrderWt);
  }

  /** The grid electronics differ from the off-grid ones only in the
      fourth entry, where the batteries give way to grid electricity. */
  lemma ElectronicsDifferOnlyInStorage()
    ensures |OrderElectronics| == |OrderElectronicsGrid| == 7
    ensures forall i :: 0 <= i < 7 && i != 3 ==> OrderElectronics[i] == OrderElectronicsGrid[i]
    ensures OrderElectronics[3] == ("electronics batteries", "batteries final")
    ensures OrderElectronicsGrid[3] == ("electronics electricity", "grid_electricity")
  {
  }
}
