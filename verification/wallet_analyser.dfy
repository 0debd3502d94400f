/** Indicator extraction and fraud scoring for one wallet, as computed by
    `analysis/wallet_analyser.py`. */
module WalletAnalyser {
  import opened Wrappers
  import opened Transactions
  import Neutrosophic
  import Swara
  import PyStrings

  /** Wei in one ether: the divisor applied to every `value`. */
  const WeiPerEth: real := 1000000000000000000.0

  /** The recency window, thirty days, in seconds. */
  const RecentWindow: int := 30 * 24 * 60 * 60

  /** The indicators `extract_indicators` returns (the contract-interaction
      count is not part of this model). */
  datatype Indicators = Indicators(
    totalValueEth: real,
    recentTxCount: nat,
    txCount: nat,
    uniqueCounterparties: nat,
    avgTxValue: real)

  /** The exact integer sum of the wei values. */
  function SumWei(txs: seq<Tx>): int
    decreases |txs|
  {
    if |txs| == 0 then 0 else txs[0].value + SumWei(txs[1..])
  }

  /** The `value` column after conversion to ether, summed: each value is
      divided by `WeiPerEth` before the sum is taken. */
  function TotalEth(txs: seq<Tx>): (r: real)
    ensures (forall i | 0 <= i < |txs| :: txs[i].value >= 0) ==> r >= 0.0
    decreases |txs|
  {
    if |txs| == 0 then 0.0
    else
      assert forall i | 0 <= i < |txs| - 1 :: txs[1..][i] == txs[i + 1];
      txs[0].value as real / WeiPerEth + TotalEth(txs[1..])
  }

  /** Converting each value before summing equals converting the sum. */
  lemma {:induction false} TotalEthIsScaledSum(txs: seq<Tx>)
    ensures TotalEth(txs) == SumWei(txs) as real / WeiPerEth
    decreases |txs|
  {
    if |txs| > 0 {
      TotalEthIsScaledSum(txs[1..]);
      assert (txs[0].value + SumWei(txs[1..])) as real / WeiPerEth
          == txs[0].value as real / WeiPerEth + SumWei(txs[1..]) as real / WeiPerEth;
    }
  }

  lemma {:induction false} SumWeiNonNegative(txs: seq<Tx>)
    ensures (forall i | 0 <= i < |txs| :: txs[i].value >= 0) ==> SumWei(txs) >= 0
    decreases |txs|
  {
    if |txs| > 0 {
      SumWeiNonNegative(txs[1..]);
      assert forall i | 0 <= i < |txs[1..]| :: txs[1..][i] == txs[i + 1];
    }
  }

  /** The transaction is later than thirty days before `now`. */
  predicate IsRecent(tx: Tx, now: int) {
    tx.timeStamp > now - RecentWindow
  }

  /** The positions of the recent transactions. */
  function RecentIndices(txs: seq<Tx>, now: int): set<int>
  {
    set i | 0 <= i < |txs| && IsRecent(txs[i], now)
  }

  /** The number of rows the recency filter keeps. */
  function RecentCount(txs: seq<Tx>, now: int): (n: nat)
    ensures n <= |txs|
    decreases |txs|
  {
    if |txs| == 0 then 0
    else RecentCount(txs[..|txs| - 1], now) + if IsRecent(txs[|txs| - 1], now) then 1 else 0
  }

  /** The filtered row count is the number of recent positions. */
  lemma {:induction false} RecentCountIsIndexCount(txs: seq<Tx>, now: int)
    ensures RecentCount(txs, now) == |RecentIndices(txs, now)|
    decreases |txs|
  {
    if |txs| > 0 {
      var n := |txs| - 1;
      var prefix := txs[..n];
      RecentCountIsIndexCount(prefix, now);
      var before := RecentIndices(prefix, now);
      assert n !in before;
      if IsRecent(txs[n], now) {
        assert RecentIndices(txs, now) == before + {n};
      } else {
        assert RecentIndices(txs, now) == before;
      }
    }
  }

  /** `set(df["from"].tolist() + df["to"].tolist())`: every sender and
      recipient address; at most two per transaction. */
  function Counterparties(txs: seq<Tx>): (r: set<string>)
    ensures |r| <= 2 * |txs|
    ensures |txs| > 0 ==> |r| >= 1
    decreases |txs|
  {
    if |txs| == 0 then {}
    else
      var n := |txs| - 1;
      var rest := Counterparties(txs[..n]);
      var here := {txs[n].from, txs[n].to};
      assert |here| <= 2;
      assert txs[n].from in rest + here;
      rest + here
  }

  /** The counterparties are exactly the addresses that send or receive
      one of the transactions. */
  lemma {:induction false} CounterpartiesMembers(txs: seq<Tx>)
    ensures forall a :: a in Counterparties(txs) <==> exists tx | tx in txs :: tx.from == a || tx.to == a
    decreases |txs|
  {
    if |txs| > 0 {
      var n := |txs| - 1;
      CounterpartiesMembers(txs[..n]);
      assert txs == txs[..n] + [txs[n]];
    }
  }

  /** `mean()` of a column of `n` values summing to `total`. */
  function Mean(total: real, n: nat): (m: real)
    requires n > 0
    ensures m * n as real == total
  {
    total / n as real
  }

  /** `extract_indicators(transactions)` evaluated at time `now` (Unix
      seconds). An empty list makes pandas raise before any indicator is
      computed, so it is excluded. */
  function ExtractIndicators(txs: seq<Tx>, now: int): (r: Indicators)
    requires |txs| > 0
    ensures r.txCount == |txs|
    ensures r.recentTxCount == |RecentIndices(txs, now)| && r.recentTxCount <= r.txCount
    ensures r.totalValueEth == SumWei(txs) as real / WeiPerEth
    ensures (forall i | 0 <= i < |txs| :: txs[i].value >= 0) ==> r.totalValueEth >= 0.0
    ensures r.uniqueCounterparties == |Counterparties(txs)|
    ensures 1 <= r.uniqueCounterparties <= 2 * r.txCount
    ensures r.avgTxValue == Mean(r.totalValueEth, r.txCount)
  {
    var total := TotalEth(txs);
    TotalEthIsScaledSum(txs);
    RecentCountIsIndexCount(txs, now);
    SumWeiNonNegative(txs);
    Indicators(
      totalValueEth := total,
      recentTxCount := RecentCount(txs, now),
      txCount := |txs|,
      uniqueCounterparties := |Counterparties(txs)|,
      avgTxValue := Mean(total, |txs|))
  }

  /** The three risk labels; `Display` gives the text the script reports. */
  datatype RiskLabel = Safe | Suspicious | HighRisk {

    function Display(): (r: string)
      ensures PyStrings.EndsWith(r, match this
        case HighRisk => "High Risk"
        case Suspicious => "Suspicious"
        case Safe => "Safe")
    {
      match this
      case HighRisk => "\U{1F6A8} High Risk"
      case Suspicious => "\U{26A0}\U{FE0F} Suspicious"
      case Safe => "\U{2705} Safe"
    }

    /** Position in the order Safe < Suspicious < High Risk. */
    function Severity(): nat {
      match this
      case Safe => 0
      case Suspicious => 1
      case HighRisk => 2
    }
  }

  /** The label for a score: above 0.7 is High Risk, above 0.4 Suspicious,
      anything else Safe. */
  function Classify(score: real): (l: RiskLabel)
    ensures l == HighRisk <==> score > 0.7
    ensures l == Suspicious <==> 0.4 < score <= 0.7
    ensures l == Safe <==> score <= 0.4
  {
    if score > 0.7 then HighRisk
    else if score > 0.4 then Suspicious
    else Safe
  }

  /** A higher score never gets a less severe label. */
  lemma ClassifyMonotone(a: real, b: real)
    requires a <= b
    ensures Classify(a).Severity() <= Classify(b).Severity()
  {
  }

  /** What `compute_fraud_score` returns (the score before `round`). */
  datatype FraudResult = FraudResult(score: real, riskLabel: RiskLabel, details: Indicators)

  /** The `KeyError` raised when a criterion name is missing from the weights. */
  datatype ScoreError = MissingWeight(name: string)

  /** `dict(weights)[key]`: when a name occurs more than once the last pair
      wins, and a missing name gives `None`. */
  function Lookup(weights: Swara.Weights, key: string): (r: Option<real>)
    ensures r.None? <==> forall i | 0 <= i < |weights| :: weights[i].0 != key
    ensures r.Some? ==> exists i | 0 <= i < |weights| ::
      && weights[i] == (key, r.value)
      && forall j | i < j < |weights| :: weights[j].0 != key
    decreases |weights|
  {
    if |weights| == 0 then None
    else if weights[|weights| - 1].0 == key then Some(weights[|weights| - 1].1)
    else Lookup(weights[..|weights| - 1], key)
  }

  /** `max(0.0, min(1.0, x))` */
  function Clamp(x: real): (r: real)
    ensures 0.0 <= r <= 1.0
    ensures 0.0 <= x <= 1.0 ==> r == x
    ensures x < 0.0 ==> r == 0.0
    ensures x > 1.0 ==> r == 1.0
  {
    var capped := if x < 1.0 then x else 1.0;
    if capped > 0.0 then capped else 0.0
  }

  /** The weight of `name`, or the `KeyError` for it. */
  function WeightOf(weights: Swara.Weights, name: string): (r: Result<real, ScoreError>)
    ensures r.Success? <==> Lookup(weights, name).Some?
    ensures r.Success? ==> r.value == Lookup(weights, name).value
    ensures r.Failure? ==> r.error == MissingWeight(name)
  {
    match Lookup(weights, name)
    case Some(w) => Success(w)
    case None => Failure(MissingWeight(name))
  }

  /** The neutrosophic vector of a wallet's indicators. */
  function VectorOf(ind: Indicators): Neutrosophic.Vector
  {
    Neutrosophic.ComputeVector(ind.totalValueEth, ind.recentTxCount, ind.txCount)
  }

  /** The weighted combination before clamping. */
  function RawScore(v: Neutrosophic.Vector, wTotal: real, wRecent: real, wCount: real): (r: real)
    ensures wTotal >= 0.0 && wRecent >= 0.0 && wCount >= 0.0 && v.t >= 0.0 && v.i <= 1.0 && v.f <= 1.0
      ==> r >= 0.0
  {
    MulNonNegative(wTotal, v.t);
    MulNonNegative(wRecent, 1.0 - v.i);
    MulNonNegative(wCount, 1.0 - v.f);
    wTotal * v.t + wRecent * (1.0 - v.i) + wCount * (1.0 - v.f)
  }

  lemma MulNonNegative(w: real, x: real)
    ensures w >= 0.0 && x >= 0.0 ==> w * x >= 0.0
  {
  }

  /** The three labels are reported with three different texts. */
  lemma DisplayDistinct(a: RiskLabel, b: RiskLabel)
    ensures a.Display() == b.Display() <==> a == b
  {
    if a != b {
      var x, y := a.Display(), b.Display();
      assert x[|x| - 1] != y[|y| - 1] || |x| != |y|;
    }
  }

  /** Moving T up never lowers the combination, and moving I or F up never
      raises it, when the weights are non-negative. */
  lemma RawScoreMonotoneInDoubt(v: Neutrosophic.Vector, i': real, f': real, wTotal: real, wRecent: real, wCount: real)
    requires wRecent >= 0.0 && wCount >= 0.0
    requires v.i <= i' && v.f <= f'
    ensures RawScore(v.(i := i', f := f'), wTotal, wRecent, wCount) <= RawScore(v, wTotal, wRecent, wCount)
  {
    MulMonotone(wRecent, 1.0 - i', 1.0 - v.i);
    MulMonotone(wCount, 1.0 - f', 1.0 - v.f);
  }

  /** The body of `compute_fraud_score`, with the name under which the
      total-value weight is looked up as a parameter. The three weights are
      looked up in the order the expression reads them. */
  function ScoreWith(ind: Indicators, weights: Swara.Weights, totalKey: string): (r: Result<FraudResult, ScoreError>)
    ensures r.Success? <==>
      && Lookup(weights, totalKey).Some?
      && Lookup(weights, "recent_tx_count").Some?
      && Lookup(weights, "tx_count").Some?
    ensures r.Failure? ==> r.error == MissingWeight(
      if Lookup(weights, totalKey).None? then totalKey
      else if Lookup(weights, "recent_tx_count").None? then "recent_tx_count"
      else "tx_count")
    ensures r.Success? ==>
      var raw := RawScore(VectorOf(ind), Lookup(weights, totalKey).value,
                          Lookup(weights, "recent_tx_count").value, Lookup(weights, "tx_count").value);
      && 0.0 <= r.value.score <= 1.0
      && (0.0 <= raw <= 1.0 ==> r.value.score == raw)
      && (raw < 0.0 ==> r.value.score == 0.0)
      && (raw > 1.0 ==> r.value.score == 1.0)
      && r.value.riskLabel == Classify(r.value.score)
      && r.value.details == ind
  {
    var wTotal :- WeightOf(weights, totalKey);
    var wRecent :- WeightOf(weights, "recent_tx_count");
    var wCount :- WeightOf(weights, "tx_count");
    var score := Clamp(RawScore(VectorOf(ind), wTotal, wRecent, wCount));
    Success(FraudResult(score, Classify(score), ind))
  }

  /** `compute_fraud_score(indicators, weights)` as written: the total-value
      weight is looked up under `"total_value_eth"`. */
  function ComputeFraudScore(ind: Indicators, weights: Swara.Weights): (r: Result<FraudResult, ScoreError>)
    ensures r.Failure? <==>
      || Lookup(weights, "total_value_eth").None?
      || Lookup(weights, "recent_tx_count").None?
      || Lookup(weights, "tx_count").None?
    ensures r.Success? ==>
      && 0.0 <= r.value.score <= 1.0
      && r.value.riskLabel == Classify(r.value.score)
      && r.value.details == ind
  {
    ScoreWith(ind, weights, "total_value_eth")
  }

  /** `compute_fraud_score` with the total-value weight looked up under
      `"total_value"`, the name `get_weighted_criteria` gives it. */
  function ComputeFraudScoreCorrected(ind: Indicators, weights: Swara.Weights): (r: Result<FraudResult, ScoreError>)
    ensures r.Failure? <==>
      || Lookup(weights, "total_value").None?
      || Lookup(weights, "recent_tx_count").None?
      || Lookup(weights, "tx_count").None?
    ensures r.Success? ==>
      && 0.0 <= r.value.score <= 1.0
      && r.value.riskLabel == Classify(r.value.score)
      && r.value.details == ind
  {
    ScoreWith(ind, weights, "total_value")
  }

  lemma MulBetween(w: real, x: real)
    requires w >= 0.0 && 0.0 <= x <= 1.0
    ensures 0.0 <= w * x <= w
  {
  }

  lemma MulMonotone(w: real, x: real, y: real)
    requires w >= 0.0 && x <= y
    ensures w * x <= w * y
  {
  }

  /** With non-negative weights summing to at most 1 and every component
      of the vector in [0, 1], the weighted combination already lies in
      [0, 1]: the clamp never changes it. */
  lemma ClampInactive(v: Neutrosophic.Vector, wTotal: real, wRecent: real, wCount: real)
    requires wTotal >= 0.0 && wRecent >= 0.0 && wCount >= 0.0
    requires wTotal + wRecent + wCount <= 1.0
    requires 0.0 <= v.t <= 1.0 && 0.0 <= v.i <= 1.0 && 0.0 <= v.f <= 1.0
    ensures 0.0 <= RawScore(v, wTotal, wRecent, wCount) <= 1.0
  {
    CombinationBetween(wTotal, v.t, wRecent, 1.0 - v.i, wCount, 1.0 - v.f);
  }

  /** A combination of values in [0, 1] with non-negative weights summing
      to at most 1 lies in [0, 1]. */
  lemma CombinationBetween(wa: real, x: real, wb: real, y: real, wc: real, z: real)
    requires wa >= 0.0 && wb >= 0.0 && wc >= 0.0 && wa + wb + wc <= 1.0
    requires 0.0 <= x <= 1.0 && 0.0 <= y <= 1.0 && 0.0 <= z <= 1.0
    ensures 0.0 <= wa * x + wb * y + wc * z <= 1.0
  {
    var a := ScaledBetween(wa, x);
    var b := ScaledBetween(wb, y);
    var c := ScaledBetween(wc, z);
    SumBetween(a, b, c, wa, wb, wc);
  }

  /** `w * x`, with the bounds of `MulBetween`. */
  lemma ScaledBetween(w: real, x: real) returns (p: real)
    requires w >= 0.0 && 0.0 <= x <= 1.0
    ensures p == w * x && 0.0 <= p <= w
  {
    MulBetween(w, x);
    p := w * x;
  }

  lemma SumBetween(a: real, b: real, c: real, wa: real, wb: real, wc: real)
    requires 0.0 <= a <= wa && 0.0 <= b <= wb && 0.0 <= c <= wc
    requires wa + wb + wc <= 1.0
    ensures 0.0 <= a + b + c <= 1.0
  {
  }

  /** For a wallet with a non-negative total value and weights as SWARA
      produces them (non-negative, summing to at most 1), the reported score
      is the unclamped weighted combination, whichever name the total-value
      weight is looked up under. */
  lemma ScoreUnclamped(ind: Indicators, weights: Swara.Weights, totalKey: string)
    requires ScoreWith(ind, weights, totalKey).Success?
    requires ind.totalValueEth >= 0.0
    requires var wT, wR, wX := Lookup(weights, totalKey).value,
               Lookup(weights, "recent_tx_count").value, Lookup(weights, "tx_count").value;
      wT >= 0.0 && wR >= 0.0 && wX >= 0.0 && wT + wR + wX <= 1.0
    ensures ScoreWith(ind, weights, totalKey).value.score == RawScore(VectorOf(ind),
      Lookup(weights, totalKey).value, Lookup(weights, "recent_tx_count").value,
      Lookup(weights, "tx_count").value)
  {
    ClampInactive(VectorOf(ind), Lookup(weights, totalKey).value,
      Lookup(weights, "recent_tx_count").value, Lookup(weights, "tx_count").value);
  }

  /** Raising the truth component never lowers the weighted combination when
      its weight is non-negative. */
  lemma RawScoreMonotoneInTruth(v: Neutrosophic.Vector, t': real, wTotal: real, wRecent: real, wCount: real)
    requires wTotal >= 0.0 && v.t <= t'
    ensures RawScore(v, wTotal, wRecent, wCount) <= RawScore(v.(t := t'), wTotal, wRecent, wCount)
  {
    MulMonotone(wTotal, v.t, t');
  }

  /** A larger total value never lowers the score: the truth component
      enters it with a non-negative weight. */
  lemma ScoreMonotoneInTotalValue(ind: Indicators, weights: Swara.Weights, totalKey: string, larger: real)
    requires ScoreWith(ind, weights, totalKey).Success?
    requires Lookup(weights, totalKey).value >= 0.0
    requires ind.totalValueEth <= larger
    ensures ScoreWith(ind.(totalValueEth := larger), weights, totalKey).Success?
    ensures ScoreWith(ind, weights, totalKey).value.score
         <= ScoreWith(ind.(totalValueEth := larger), weights, totalKey).value.score
  {
    var ind' := ind.(totalValueEth := larger);
    var wT := Lookup(weights, totalKey).value;
    var wR := Lookup(weights, "recent_tx_count").value;
    var wX := Lookup(weights, "tx_count").value;
    Neutrosophic.TruthMonotone(ind.totalValueEth, larger);
    var v := VectorOf(ind);
    assert VectorOf(ind') == v.(t := Neutrosophic.Truth(larger));
    RawScoreMonotoneInTruth(v, Neutrosophic.Truth(larger), wT, wR, wX);
  }

  /** The configuration declares exactly the three criteria the score reads,
      under the names the indicators carry. */
  predicate DeclaresScoreCriteria(config: Swara.Config) {
    && (forall c | c in config.criteria ::
          c.name == "total_value_eth" || c.name == "recent_tx_count" || c.name == "tx_count")
    && (exists c | c in config.criteria :: c.name == "total_value_eth")
    && (exists c | c in config.criteria :: c.name == "recent_tx_count")
    && (exists c | c in config.criteria :: c.name == "tx_count")
  }

  /** A string in which `"_"` is never followed by `"e"` holds no `"_eth"`. */
  lemma NoEth(s: string)
    requires forall i | 0 <= i < |s| - 1 :: s[i] == '_' ==> s[i + 1] != 'e'
    ensures !PyStrings.Contains(s, "_eth")
  {
    forall i | 0 <= i <= |s|
      ensures !PyStrings.StartsWith(s[i..], "_eth")
    {
      if |s| - i >= 4 {
        assert s[i..][0] == s[i] && s[i..][1] == s[i + 1];
      }
    }
  }

  lemma EthBorderless()
    ensures PyStrings.Borderless("_eth")
  {
    var p := "_eth";
    forall i | 0 < i < |p|
      ensures p[i..] != p[..|p| - i]
    {
      assert p[i..][0] != p[..|p| - i][0];
    }
  }

  lemma StrippedTotalValue()
    ensures PyStrings.RemoveAll("total_value_eth", "_eth") == "total_value"
  {
    EthBorderless();
    NoEth("total_value");
    PyStrings.RemoveAllTrailing("total_value", "_eth");
    assert "total_value" + "_eth" == "total_value_eth";
  }

  lemma StrippedRecentTxCount()
    ensures PyStrings.RemoveAll("recent_tx_count", "_eth") == "recent_tx_count"
  {
    NoEth("recent_tx_count");
    PyStrings.RemoveAllAbsent("recent_tx_count", "_eth");
  }

  lemma StrippedTxCount()
    ensures PyStrings.RemoveAll("tx_count", "_eth") == "tx_count"
  {
    NoEth("tx_count");
    PyStrings.RemoveAllAbsent("tx_count", "_eth");
  }

  /** The criteria of `config`, paired in order with names stripped of
      `"_eth"`, as `get_weighted_criteria` pairs them. */
  predicate NamedAfter(ws: Swara.Weights, config: Swara.Config) {
    && |ws| == |config.criteria|
    && forall j | 0 <= j < |ws| :: ws[j].0 == PyStrings.RemoveAll(config.criteria[j].name, "_eth")
  }

  /** The names `get_weighted_criteria` produces for a configuration that
      declares the three score criteria. */
  lemma WeightNamesOf(config: Swara.Config, ws: Swara.Weights)
    requires DeclaresScoreCriteria(config)
    requires NamedAfter(ws, config)
    ensures forall i | 0 <= i < |ws| ::
      ws[i].0 == "total_value" || ws[i].0 == "recent_tx_count" || ws[i].0 == "tx_count"
    ensures exists i | 0 <= i < |ws| :: ws[i].0 == "total_value"
    ensures exists i | 0 <= i < |ws| :: ws[i].0 == "recent_tx_count"
    ensures exists i | 0 <= i < |ws| :: ws[i].0 == "tx_count"
  {
    forall i | 0 <= i < |ws|
      ensures ws[i].0 == "total_value" || ws[i].0 == "recent_tx_count" || ws[i].0 == "tx_count"
    {
      WeightNameAt(config, ws, i);
    }
    StrippedTotalValue();
    StrippedRecentTxCount();
    StrippedTxCount();
    WeightNamed(config, ws, "total_value_eth", "total_value");
    WeightNamed(config, ws, "recent_tx_count", "recent_tx_count");
    WeightNamed(config, ws, "tx_count", "tx_count");
  }

  lemma WeightNameAt(config: Swara.Config, ws: Swara.Weights, i: int)
    requires DeclaresScoreCriteria(config)
    requires NamedAfter(ws, config)
    requires 0 <= i < |ws|
    ensures ws[i].0 == "total_value" || ws[i].0 == "recent_tx_count" || ws[i].0 == "tx_count"
  {
    StrippedTotalValue();
    StrippedRecentTxCount();
    StrippedTxCount();
    assert config.criteria[i] in config.criteria;
  }

  lemma WeightNamed(config: Swara.Config, ws: Swara.Weights, name: string, stripped: string)
    requires NamedAfter(ws, config)
    requires exists c | c in config.criteria :: c.name == name
    requires PyStrings.RemoveAll(name, "_eth") == stripped
    ensures exists i | 0 <= i < |ws| :: ws[i].0 == stripped
  {
    var c :| c in config.criteria && c.name == name;
    var i :| 0 <= i < |config.criteria| && config.criteria[i] == c;
    assert ws[i].0 == stripped;
  }

  /** For weights named after such a configuration, no pair is named
      `"total_value_eth"`. */
  lemma MismatchFor(config: Swara.Config, ws: Swara.Weights, ind: Indicators)
    requires DeclaresScoreCriteria(config) && NamedAfter(ws, config)
    ensures ComputeFraudScore(ind, ws) == Failure(MissingWeight("total_value_eth"))
  {
    WeightNamesOf(config, ws);
    assert Lookup(ws, "total_value_eth").None?;
    assert ComputeFraudScore(ind, ws) == ScoreWith(ind, ws, "total_value_eth");
  }

  /** For weights named after such a configuration, all three stripped
      names are present. */
  lemma CorrectedFor(config: Swara.Config, ws: Swara.Weights, ind: Indicators)
    requires DeclaresScoreCriteria(config) && NamedAfter(ws, config)
    ensures ComputeFraudScoreCorrected(ind, ws).Success?
  {
    WeightNamesOf(config, ws);
  }

  /** As written, `compute_fraud_score` looks up `"total_value_eth"` in
      weights whose names `get_weighted_criteria` has stripped of `"_eth"`:
      with the three score criteria configured, every wallet fails with a
      `KeyError`. */
  lemma KeyMismatchFailsEveryWallet(config: Swara.Config, ind: Indicators)
    requires DeclaresScoreCriteria(config)
    requires Swara.WeightedCriteria(config).Success?
    ensures ComputeFraudScore(ind, Swara.WeightedCriteria(config).value)
         == Failure(MissingWeight("total_value_eth"))
  {
    MismatchFor(config, Swara.WeightedCriteria(config).value, ind);
  }

  /** Looking the total-value weight up under its stripped name, every
      wallet is scored under the same configuration. */
  lemma CorrectedScoresEveryWallet(config: Swara.Config, ind: Indicators)
    requires DeclaresScoreCriteria(config)
    requires Swara.WeightedCriteria(config).Success?
    ensures ComputeFraudScoreCorrected(ind, Swara.WeightedCriteria(config).value).Success?
  {
    CorrectedFor(config, Swara.WeightedCriteria(config).value, ind);
  }

  /** The configuration the score is written for: the three criteria in
      order of importance, with truth values for the labels looked up. */
  const ExampleConfig: Swara.Config := Swara.Config(
    [Swara.Criterion("total_value_eth", "very high"),
     Swara.Criterion("recent_tx_count", "high"),
     Swara.Criterion("tx_count", "medium")],
    map["high" := Swara.ScaleEntry(0.7, 0.2, 0.1), "medium" := Swara.ScaleEntry(0.5, 0.3, 0.2)])

  /** On that configuration `get_weighted_criteria` succeeds, yet scoring a
      wallet with one transaction as written raises the `KeyError` for
      `"total_value_eth"`, while the corrected lookup scores it. */
  lemma KeyMismatchExample(now: int)
    ensures Swara.WeightedCriteria(ExampleConfig).Success?
    ensures var ind := ExtractIndicators([Tx(1, now, "0xa", "0xb")], now);
      var ws := Swara.WeightedCriteria(ExampleConfig).value;
      && ComputeFraudScore(ind, ws) == Failure(MissingWeight("total_value_eth"))
      && ComputeFraudScoreCorrected(ind, ws).Success?
  {
    ExampleDeclares();
    ExampleWeighted();
    var ind := ExtractIndicators([Tx(1, now, "0xa", "0xb")], now);
    KeyMismatchFailsEveryWallet(ExampleConfig, ind);
    CorrectedScoresEveryWallet(ExampleConfig, ind);
  }

  lemma ExampleDeclares()
    ensures DeclaresScoreCriteria(ExampleConfig)
  {
    var cs := ExampleConfig.criteria;
    assert cs[0] in cs && cs[1] in cs && cs[2] in cs;
  }

  lemma ExampleWeighted()
    ensures Swara.WeightedCriteria(ExampleConfig).Success?
  {
    var labels := Swara.Importances(ExampleConfig.criteria);
    assert labels[1] == "high" && labels[2] == "medium";
    Swara.SwaraPositive(labels, ExampleConfig.scale);
  }
}
