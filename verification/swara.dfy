/** SWARA (step-wise weight assessment ratio analysis) weighting of the
    configured fraud criteria, as computed by `utils/swara.py`. */
module Swara {
  import opened Wrappers
  import PyStrings

  /** One entry of the configured neutrosophic scale: the reference truth,
      indeterminacy and falsity memberships of a linguistic label. */
  datatype ScaleEntry = ScaleEntry(t: real, i: real, f: real)

  type Scale = map<string, ScaleEntry>

  /** A configured criterion: its name and its linguistic importance label. */
  datatype Criterion = Criterion(name: string, importance: string)

  /** The criteria configuration: criteria in declared importance order,
      and the scale their labels index into. */
  datatype Config = Config(criteria: seq<Criterion>, scale: Scale)

  /** The exceptions `swara_weights` can raise: a `KeyError` for a label
      missing from the scale, a `ZeroDivisionError` for a zero divisor. */
  datatype SwaraError = UnknownLabel(missing: string) | DivisionByZero

  /** Named weights, as `get_weighted_criteria` returns them. */
  type Weights = seq<(string, real)>

  /** The guard added to every truth value so that a zero truth value does
      not divide by zero. */
  const Epsilon: real := 0.000000001

  /** Python's `sum` over reals. */
  function Sum(s: seq<real>): real
    decreases |s|
  {
    if |s| == 0 then 0.0 else s[0] + Sum(s[1..])
  }

  /** The `k_j` of the labels in order, each the label's truth value plus
      `Epsilon`; the first label missing from the scale raises. */
  function Coefficients(labels: seq<string>, scale: Scale): (r: Result<seq<real>, SwaraError>)
    ensures r.Success? <==> forall j | 0 <= j < |labels| :: labels[j] in scale
    ensures r.Success? ==> |r.value| == |labels|
    ensures r.Success? ==>
      forall j | 0 <= j < |labels| :: labels[j] in scale && r.value[j] == scale[labels[j]].t + Epsilon
    ensures r.Failure? ==>
      exists j | 0 <= j < |labels| ::
        && labels[j] !in scale
        && r.error == UnknownLabel(labels[j])
        && forall i | 0 <= i < j :: labels[i] in scale
    decreases |labels|
  {
    if |labels| == 0 then Success([])
    else if labels[0] !in scale then Failure(UnknownLabel(labels[0]))
    else
      match Coefficients(labels[1..], scale)
      case Failure(e) =>
        Failure(e)
      case Success(ks) =>
        Success([scale[labels[0]].t + Epsilon] + ks)
  }

  /** The running quotients `q`: `q[0] = 1` and each later `q[j]` is the
      previous one divided by `k[j]`. */
  function Quotients(k: seq<real>): (q: seq<real>)
    requires |k| > 0
    requires forall j | 1 <= j < |k| :: k[j] != 0.0
    ensures |q| == |k| && q[0] == 1.0
    ensures forall j {:trigger k[j]} | 1 <= j < |k| :: q[j] * k[j] == q[j - 1]
    decreases |k|
  {
    if |k| == 1 then [1.0]
    else
      var p := Quotients(k[..|k| - 1]);
      p + [p[|k| - 2] / k[|k| - 1]]
  }

  /** Every quotient divided by the total. */
  function Normalise(q: seq<real>, total: real): (w: seq<real>)
    requires total != 0.0
    ensures |w| == |q|
    ensures forall j | 0 <= j < |q| :: w[j] * total == q[j]
  {
    seq(|q|, j requires 0 <= j < |q| => q[j] / total)
  }

  lemma {:induction false} SumNormalise(q: seq<real>, total: real)
    requires total != 0.0
    ensures Sum(Normalise(q, total)) == Sum(q) / total
    decreases |q|
  {
    if |q| > 0 {
      assert Normalise(q, total)[1..] == Normalise(q[1..], total);
      SumNormalise(q[1..], total);
    }
  }

  /** The labels that are looked up: all but the first. */
  function LookedUp(labels: seq<string>): seq<string>
  {
    if |labels| == 0 then [] else labels[1..]
  }

  /** The quotient and normalisation steps of `swara_weights`, given the
      looked-up `k_1 .. k_n` (`k_0 = 1` is prepended); a zero divisor raises. */
  function WeightsFrom(ks: seq<real>): (r: Result<seq<real>, SwaraError>)
    ensures r.Success? ==> |r.value| == |ks| + 1
    ensures r.Success? ==> Sum(r.value) == 1.0
    ensures r.Failure? ==> r.error == DivisionByZero
    ensures |ks| == 0 ==> r == Success([1.0])
  {
    if 0.0 in ks then Failure(DivisionByZero)
    else
      var q := Quotients([1.0] + ks);
      var total := Sum(q);
      if total == 0.0 then Failure(DivisionByZero)
      else
        SumNormalise(q, total);
        assert |ks| == 0 ==> Normalise(q, total) == [q[0] / total];
        Success(Normalise(q, total))
  }

  /** `swara_weights(linguistic_scores, neutrosophic_scale)`. */
  function SwaraWeights(labels: seq<string>, scale: Scale): (r: Result<seq<real>, SwaraError>)
    ensures r.Success? ==> |r.value| == if |labels| == 0 then 1 else |labels|
    ensures r.Success? ==> Sum(r.value) == 1.0
    ensures |labels| <= 1 ==> r == Success([1.0])
    ensures (r.Failure? && r.error.UnknownLabel?) <==>
      exists j | 1 <= j < |labels| :: labels[j] !in scale
  {
    var ks :- Coefficients(LookedUp(labels), scale);
    WeightsFrom(ks)
  }

  lemma DivPositive(a: real, b: real)
    requires a > 0.0 && b > 0.0
    ensures a / b > 0.0
  {
    assert (a / b) * b == a;
  }

  lemma {:induction false} QuotientsPositive(k: seq<real>)
    requires |k| > 0
    requires forall j | 1 <= j < |k| :: k[j] > 0.0
    ensures forall j | 0 <= j < |k| :: Quotients(k)[j] > 0.0
    decreases |k|
  {
    if |k| > 1 {
      var n := |k|;
      var p := Quotients(k[..n - 1]);
      QuotientsPositive(k[..n - 1]);
      assert k[..n - 1][n - 2] == k[n - 2];
      DivPositive(p[n - 2], k[n - 1]);
      assert Quotients(k) == p + [p[n - 2] / k[n - 1]];
    }
  }

  lemma {:induction false} SumPositive(s: seq<real>)
    requires |s| > 0
    requires forall j | 0 <= j < |s| :: s[j] > 0.0
    ensures Sum(s) > 0.0
    decreases |s|
  {
    if |s| > 1 {
      SumPositive(s[1..]);
    }
  }

  /** When every looked-up truth value is non-negative, every `k_j` is at
      least `Epsilon`, no division fails and every weight is positive. */
  lemma SwaraPositive(labels: seq<string>, scale: Scale)
    requires forall j | 1 <= j < |labels| :: labels[j] in scale && scale[labels[j]].t >= 0.0
    ensures SwaraWeights(labels, scale).Success?
    ensures forall j | 0 <= j < |SwaraWeights(labels, scale).value| :: SwaraWeights(labels, scale).value[j] > 0.0
  {
    var rest := LookedUp(labels);
    assert forall j | 0 <= j < |rest| :: rest[j] == labels[j + 1];
    var ks := Coefficients(rest, scale).value;
    assert forall j | 0 <= j < |ks| :: ks[j] >= Epsilon;
    var k := [1.0] + ks;
    QuotientsPositive(k);
    var q := Quotients(k);
    SumPositive(q);
    var w := Normalise(q, Sum(q));
    forall j | 0 <= j < |w|
      ensures w[j] > 0.0
    {
      DivPositive(q[j], Sum(q));
    }
  }

  lemma MulDiv(a: real, b: real, t: real)
    requires t != 0.0
    ensures (a * b) / t == (a / t) * b
  {
  }

  lemma WeightsFromAdjacent(ks: seq<real>, w: seq<real>, j: int)
    requires WeightsFrom(ks) == Success(w)
    requires 1 <= j < |w|
    ensures w[j - 1] == w[j] * ks[j - 1]
  {
    var k := [1.0] + ks;
    var q := Quotients(k);
    var total := Sum(q);
    assert w == Normalise(q, total);
    assert k[j] == ks[j - 1];
    NormaliseAdjacent(q, total, k[j], j);
  }

  lemma NormaliseAdjacent(q: seq<real>, total: real, c: real, j: int)
    requires total != 0.0 && 1 <= j < |q|
    requires q[j] * c == q[j - 1]
    ensures Normalise(q, total)[j - 1] == Normalise(q, total)[j] * c
  {
    MulDiv(q[j], c, total);
  }

  /** Successive weights are linked by the looked-up `k_j`:
      `w[j-1] = w[j] * (t_j + Epsilon)`. */
  lemma SwaraAdjacent(labels: seq<string>, scale: Scale, w: seq<real>, j: int)
    requires SwaraWeights(labels, scale) == Success(w)
    requires 1 <= j < |labels|
    ensures labels[j] in scale && w[j - 1] == w[j] * (scale[labels[j]].t + Epsilon)
  {
    var rest := LookedUp(labels);
    assert rest[j - 1] == labels[j];
    var ks := Coefficients(rest, scale).value;
    WeightsFromAdjacent(ks, w, j);
  }

  /** The weights are not non-increasing: with non-negative truth values a
      later weight exceeds the one before it exactly when `t_j + Epsilon < 1`,
      and equals it exactly when `t_j + Epsilon == 1`. */
  lemma SwaraGrowth(labels: seq<string>, scale: Scale, j: int)
    requires forall i | 1 <= i < |labels| :: labels[i] in scale && scale[labels[i]].t >= 0.0
    requires 1 <= j < |labels|
    ensures SwaraWeights(labels, scale).Success?
    ensures var w := SwaraWeights(labels, scale).value;
      && (w[j - 1] < w[j] <==> scale[labels[j]].t + Epsilon < 1.0)
      && (w[j - 1] == w[j] <==> scale[labels[j]].t + Epsilon == 1.0)
  {
    SwaraPositive(labels, scale);
    var w := SwaraWeights(labels, scale).value;
    var rest := LookedUp(labels);
    assert rest[j - 1] == labels[j];
    var ks := Coefficients(rest, scale).value;
    WeightsFromGrowth(ks, w, j);
  }

  lemma WeightsFromGrowth(ks: seq<real>, w: seq<real>, j: int)
    requires WeightsFrom(ks) == Success(w)
    requires 1 <= j < |w| && w[j] > 0.0
    ensures w[j - 1] < w[j] <==> ks[j - 1] < 1.0
    ensures w[j - 1] == w[j] <==> ks[j - 1] == 1.0
  {
    WeightsFromAdjacent(ks, w, j);
    NeighbourCompare(w, j, ks[j - 1]);
  }

  lemma NeighbourCompare(w: seq<real>, j: int, c: real)
    requires 1 <= j < |w|
    requires w[j] > 0.0 && w[j - 1] == w[j] * c
    ensures w[j - 1] < w[j] <==> c < 1.0
    ensures w[j - 1] == w[j] <==> c == 1.0
  {
    var x, y := w[j], w[j - 1];
    assert y - x == x * (c - 1.0);
    if c < 1.0 {
      assert x * (c - 1.0) < 0.0;
    } else if c == 1.0 {
      assert x * (c - 1.0) == 0.0;
    } else {
      assert x * (c - 1.0) > 0.0;
    }
  }

  /** A concrete configuration in which the less important criterion gets
      the larger weight. */
  lemma SwaraLaterWeightLarger()
    ensures var r := SwaraWeights(["first", "second"], map["second" := ScaleEntry(0.5, 0.5, 0.5)]);
      r.Success? && r.value[0] < r.value[1]
  {
    var labels := ["first", "second"];
    var scale := map["second" := ScaleEntry(0.5, 0.5, 0.5)];
    assert labels[1] in scale;
    SwaraGrowth(labels, scale, 1);
  }

  /** The first label is never looked up: replacing it, even by a label the
      scale does not know, leaves the result unchanged. */
  lemma SwaraFirstLabelIgnored(labels: seq<string>, first: string, scale: Scale)
    requires |labels| > 0
    ensures SwaraWeights([first] + labels[1..], scale) == SwaraWeights(labels, scale)
  {
    assert LookedUp([first] + labels[1..]) == LookedUp(labels);
  }

  /** The importance labels of the criteria, in configuration order. */
  function Importances(criteria: seq<Criterion>): (r: seq<string>)
    ensures |r| == |criteria|
    ensures forall j | 0 <= j < |criteria| :: r[j] == criteria[j].importance
  {
    seq(|criteria|, j requires 0 <= j < |criteria| => criteria[j].importance)
  }

  /** The weight component of named weights. */
  function WeightValues(ws: Weights): (r: seq<real>)
    ensures |r| == |ws|
    ensures forall j | 0 <= j < |ws| :: r[j] == ws[j].1
  {
    seq(|ws|, j requires 0 <= j < |ws| => ws[j].1)
  }

  /** `get_weighted_criteria` after the configuration is loaded: each
      criterion, in configuration order, paired with its SWARA weight, its
      name with every `"_eth"` removed. `zip` stops at the shorter list, so
      an empty configuration gives no pairs at all. */
  function WeightedCriteria(config: Config): (r: Result<Weights, SwaraError>)
    ensures r.Failure? <==> SwaraWeights(Importances(config.criteria), config.scale).Failure?
    ensures r.Failure? ==> r.error == SwaraWeights(Importances(config.criteria), config.scale).error
    ensures r.Success? ==> |r.value| == |config.criteria|
    ensures r.Success? ==> forall j | 0 <= j < |config.criteria| ::
      && r.value[j].0 == PyStrings.RemoveAll(config.criteria[j].name, "_eth")
      && r.value[j].1 == SwaraWeights(Importances(config.criteria), config.scale).value[j]
    ensures r.Success? && |config.criteria| > 0 ==> Sum(WeightValues(r.value)) == 1.0
  {
    var cs := config.criteria;
    match SwaraWeights(Importances(cs), config.scale)
    case Failure(e) =>
      Failure(e)
    case Success(w) =>
      var pairs := seq(|cs|, j requires 0 <= j < |cs| => (PyStrings.RemoveAll(cs[j].name, "_eth"), w[j]));
      assert |cs| > 0 ==> WeightValues(pairs) == w;
      Success(pairs)
  }
}
