/** The batch run of `utils/score_pipline.py`: every `.json` file of the
    transaction directory is scored with weights computed once, and a
    wallet whose file cannot be loaded or scored is logged and skipped. */
module ScorePipeline {
  import opened Wrappers
  import opened Transactions
  import PyStrings
  import Swara
  import WalletAnalyser

  /** One row of the output table. */
  datatype Row = Row(walletAddress: string, fraudScore: real, riskLabel: WalletAnalyser.RiskLabel)

  /** Why a wallet was skipped. */
  datatype WalletError =
    | LoadFailed(reason: string)
    | EmptyHistory
    | ScoreFailed(error: WalletAnalyser.ScoreError)

  /** One line of the process log: the wallet and what went wrong. */
  datatype Skipped = Skipped(walletAddress: string, cause: WalletError)

  /** The rows written to the output table and the wallets logged as skipped. */
  datatype Batch = Batch(rows: seq<Row>, skipped: seq<Skipped>)

  /** Opening and JSON-decoding one file of the transaction directory
      (the records' `value` and `timeStamp` parsed as numbers). */
  type Loader = string -> Result<seq<Tx>, string>

  /** A variant of `compute_fraud_score`. */
  type Scorer = (WalletAnalyser.Indicators, Swara.Weights) -> Result<WalletAnalyser.FraudResult, WalletAnalyser.ScoreError>

  /** `filename.endswith(".json")`: the name is some front part followed
      by `".json"`. */
  predicate IsJsonFile(filename: string)
    ensures IsJsonFile(filename) <==> |filename| >= 5 && filename == filename[..|filename| - 5] + ".json"
    ensures IsJsonFile(filename) ==> PyStrings.Contains(filename, ".json")
  {
    PyStrings.EndsWithSplit(filename, ".json");
    PyStrings.EndsWith(filename, ".json")
  }

  /** `filename.replace(".json", "")`: a name without `".json"` is its own
      wallet id, and a `.json` file loses at least its suffix. */
  function WalletId(filename: string): (r: string)
    ensures !PyStrings.Contains(filename, ".json") ==> r == filename
    ensures IsJsonFile(filename) ==> |r| <= |filename| - 5
  {
    PyStrings.RemoveAllShortens(filename, ".json");
    PyStrings.RemoveAll(filename, ".json")
  }

  /** A file named after an address that does not itself contain `".json"`
      yields that address back. */
  lemma WalletIdOfJsonFile(address: string)
    requires !PyStrings.Contains(address, ".json")
    ensures IsJsonFile(address + ".json")
    ensures WalletId(address + ".json") == address
  {
    var p := ".json";
    forall i | 0 < i < |p|
      ensures p[i..] != p[..|p| - i]
    {
      assert p[i..][|p| - i - 1] != p[..|p| - i][|p| - i - 1];
    }
    PyStrings.RemoveAllTrailing(address, p);
    assert (address + p)[|address|..] == p;
  }

  /** The `.json` entries of a directory listing, in listing order. */
  function JsonFiles(listing: seq<string>): (r: seq<string>)
    ensures |r| <= |listing|
    ensures forall f | f in r :: f in listing && IsJsonFile(f)
    ensures forall f | f in listing && IsJsonFile(f) :: f in r
    decreases |listing|
  {
    if |listing| == 0 then []
    else
      var last := listing[|listing| - 1];
      JsonFiles(listing[..|listing| - 1]) + if IsJsonFile(last) then [last] else []
  }

  /** The clock reading `pd.Timestamp.now()` gives while each file is
      scored: the script reads the clock once per wallet. */
  type Clock = string -> int

  /** Extracting and scoring one wallet's loaded transactions: an empty
      history makes `extract_indicators` raise, and otherwise the scorer's
      `KeyError` is the cause. */
  function ScoreTransactions(txs: seq<Tx>, weights: Swara.Weights, now: int, score: Scorer)
    : (r: Result<WalletAnalyser.FraudResult, WalletError>)
    ensures r == Failure(EmptyHistory) <==> |txs| == 0
    ensures r.Failure? ==> !r.error.LoadFailed?
    ensures (r.Failure? && r.error.ScoreFailed?) <==>
      |txs| > 0 && score(WalletAnalyser.ExtractIndicators(txs, now), weights).Failure?
    ensures r.Failure? && r.error.ScoreFailed? ==>
      r.error.error == score(WalletAnalyser.ExtractIndicators(txs, now), weights).error
    ensures r.Success? <==>
      |txs| > 0 && score(WalletAnalyser.ExtractIndicators(txs, now), weights).Success?
    ensures r.Success? ==> r.value == score(WalletAnalyser.ExtractIndicators(txs, now), weights).value
  {
    if |txs| == 0 then Failure(EmptyHistory)
    else
      match score(WalletAnalyser.ExtractIndicators(txs, now), weights)
      case Success(res) => Success(res)
      case Failure(e) => Failure(ScoreFailed(e))
  }

  /** The body of the `try` block for one file. Each cause of failure is
      told apart: the file did not load, it held no transactions, or the
      scorer raised. */
  function Attempt(filename: string, weights: Swara.Weights, load: Loader, now: int, score: Scorer)
    : (r: Result<WalletAnalyser.FraudResult, WalletError>)
    ensures (r.Failure? && r.error.LoadFailed?) <==> load(filename).Failure?
    ensures r.Failure? && r.error.LoadFailed? ==> r.error.reason == load(filename).error
    ensures r == Failure(EmptyHistory) <==> load(filename) == Success([])
    ensures (r.Failure? && r.error.ScoreFailed?) <==>
      && load(filename).Success? && |load(filename).value| > 0
      && score(WalletAnalyser.ExtractIndicators(load(filename).value, now), weights).Failure?
    ensures r.Success? <==>
      && load(filename).Success? && |load(filename).value| > 0
      && score(WalletAnalyser.ExtractIndicators(load(filename).value, now), weights).Success?
    ensures r.Success? ==>
      r.value == score(WalletAnalyser.ExtractIndicators(load(filename).value, now), weights).value
  {
    match load(filename)
    case Failure(reason) => Failure(LoadFailed(reason))
    case Success(txs) => ScoreTransactions(txs, weights, now, score)
  }

  /** A scorer that reports a score in [0, 1] with the label `Classify`
      gives it, as both variants of `compute_fraud_score` do. */
  ghost predicate Classifies(score: Scorer) {
    forall ind, weights :: score(ind, weights).Success? ==>
      && 0.0 <= score(ind, weights).value.score <= 1.0
      && score(ind, weights).value.riskLabel == WalletAnalyser.Classify(score(ind, weights).value.score)
  }

  /** Both variants of `compute_fraud_score` classify their scores. */
  lemma ComputeFraudScoresClassify()
    ensures Classifies(WalletAnalyser.ComputeFraudScore)
    ensures Classifies(WalletAnalyser.ComputeFraudScoreCorrected)
  {
  }

  /** A successful attempt with such a scorer has a score in [0, 1] and
      the label for that score. */
  lemma AttemptClassified(filename: string, weights: Swara.Weights, load: Loader, now: int, score: Scorer)
    requires Classifies(score)
    ensures Attempt(filename, weights, load, now, score).Success? ==>
      && 0.0 <= Attempt(filename, weights, load, now, score).value.score <= 1.0
      && Attempt(filename, weights, load, now, score).value.riskLabel
         == WalletAnalyser.Classify(Attempt(filename, weights, load, now, score).value.score)
  {
  }

  /** The `try` block as seen by the loop: a file name to a result or the
      reason it failed. */
  type WalletAttempt = string -> Result<WalletAnalyser.FraudResult, WalletError>

  /** `row` is the table row of file `f`: a `.json` file whose attempt
      succeeded, under its wallet id, with that result's score and label. */
  predicate RowOf(row: Row, f: string, attempt: WalletAttempt) {
    && IsJsonFile(f)
    && row.walletAddress == WalletId(f)
    && attempt(f).Success?
    && row.fraudScore == attempt(f).value.score
    && row.riskLabel == attempt(f).value.riskLabel
  }

  /** `s` is the log line of file `f`: a `.json` file whose attempt failed
      for that reason, under its wallet id. */
  predicate SkipOf(s: Skipped, f: string, attempt: WalletAttempt) {
    && IsJsonFile(f)
    && s.walletAddress == WalletId(f)
    && attempt(f).Failure?
    && attempt(f).error == s.cause
  }

  /** What one directory entry contributes: nothing unless it is a `.json`
      file, and then either one row or one log line, under its wallet id. */
  function ScoreEntry(filename: string, attempt: WalletAttempt): (b: Batch)
    ensures !IsJsonFile(filename) ==> b == Batch([], [])
    ensures IsJsonFile(filename) ==> |b.rows| + |b.skipped| == 1
    ensures forall row | row in b.rows :: RowOf(row, filename, attempt)
    ensures forall s | s in b.skipped :: SkipOf(s, filename, attempt)
  {
    if !IsJsonFile(filename) then Batch([], [])
    else
      var id := WalletId(filename);
      match attempt(filename)
      case Success(res) => Batch([Row(id, res.score, res.riskLabel)], [])
      case Failure(e) => Batch([], [Skipped(id, e)])
  }

  /** Two batches one after the other. */
  function Concat(a: Batch, b: Batch): Batch {
    Batch(a.rows + b.rows, a.skipped + b.skipped)
  }

  /** The loop over the directory listing: one row or one log line per
      `.json` entry. */
  function ScoreListing(listing: seq<string>, attempt: WalletAttempt): (b: Batch)
    ensures |b.rows| + |b.skipped| == |JsonFiles(listing)|
    decreases |listing|
  {
    if |listing| == 0 then Batch([], [])
    else
      var n := |listing| - 1;
      Concat(ScoreListing(listing[..n], attempt), ScoreEntry(listing[n], attempt))
  }

  /** `row` is the row of some entry of `listing`. */
  predicate RowFrom(row: Row, listing: seq<string>, attempt: WalletAttempt) {
    exists f | f in listing :: RowOf(row, f, attempt)
  }

  /** `s` is the log line of some entry of `listing`. */
  predicate SkipFrom(s: Skipped, listing: seq<string>, attempt: WalletAttempt) {
    exists f | f in listing :: SkipOf(s, f, attempt)
  }

  /** Every row carries the wallet id of a `.json` entry of the listing,
      with the score and label of that wallet's successful result. */
  lemma {:induction false} RowsComeFromListing(listing: seq<string>, attempt: WalletAttempt)
    ensures forall row | row in ScoreListing(listing, attempt).rows :: RowFrom(row, listing, attempt)
    decreases |listing|
  {
    if |listing| > 0 {
      var n := |listing| - 1;
      var init := listing[..n];
      RowsComeFromListing(init, attempt);
      var before := ScoreListing(init, attempt).rows;
      var here := ScoreEntry(listing[n], attempt).rows;
      forall row | row in before + here
        ensures RowFrom(row, listing, attempt)
      {
        if row in before {
          assert RowFrom(row, init, attempt);
          var f :| f in init && RowOf(row, f, attempt);
          assert f in listing;
        } else {
          assert RowOf(row, listing[n], attempt);
        }
      }
    }
  }

  /** Every log line names a `.json` entry of the listing whose attempt
      failed, and why. */
  lemma {:induction false} SkipsComeFromListing(listing: seq<string>, attempt: WalletAttempt)
    ensures forall s | s in ScoreListing(listing, attempt).skipped :: SkipFrom(s, listing, attempt)
    decreases |listing|
  {
    if |listing| > 0 {
      var n := |listing| - 1;
      var init := listing[..n];
      SkipsComeFromListing(init, attempt);
      var before := ScoreListing(init, attempt).skipped;
      var here := ScoreEntry(listing[n], attempt).skipped;
      forall s | s in before + here
        ensures SkipFrom(s, listing, attempt)
      {
        if s in before {
          assert SkipFrom(s, init, attempt);
          var f :| f in init && SkipOf(s, f, attempt);
          assert f in listing;
        } else {
          assert SkipOf(s, listing[n], attempt);
        }
      }
    }
  }

  /** Entries are processed independently and in order: the batch for a
      listing is the batch for its first part followed by the batch for the
      rest, so a wallet that fails does not stop the ones after it. */
  lemma {:induction false} ScoreListingAppend(a: seq<string>, b: seq<string>, attempt: WalletAttempt)
    ensures ScoreListing(a + b, attempt) == Concat(ScoreListing(a, attempt), ScoreListing(b, attempt))
    decreases |b|
  {
    if |b| == 0 {
      assert a + b == a;
    } else {
      var n := |b| - 1;
      assert a + b == (a + b[..n]) + [b[n]];
      assert b == b[..n] + [b[n]];
      ScoreListingSnoc(a + b[..n], b[n], attempt);
      ScoreListingSnoc(b[..n], b[n], attempt);
      ScoreListingAppend(a, b[..n], attempt);
      ConcatAssociative(ScoreListing(a, attempt), ScoreListing(b[..n], attempt), ScoreEntry(b[n], attempt));
    }
  }

  /** Every `.json` entry whose attempt succeeds has its row in the table. */
  lemma {:induction false} RowForEveryScoredEntry(listing: seq<string>, attempt: WalletAttempt, i: nat)
    requires i < |listing| && IsJsonFile(listing[i]) && attempt(listing[i]).Success?
    ensures exists row | row in ScoreListing(listing, attempt).rows :: RowOf(row, listing[i], attempt)
    decreases |listing|
  {
    var n := |listing| - 1;
    var before := ScoreListing(listing[..n], attempt).rows;
    var here := ScoreEntry(listing[n], attempt).rows;
    assert ScoreListing(listing, attempt).rows == before + here;
    if i == n {
      var res := attempt(listing[i]).value;
      var row := Row(WalletId(listing[i]), res.score, res.riskLabel);
      assert here == [row];
      assert row in before + here;
    } else {
      assert listing[..n][i] == listing[i];
      RowForEveryScoredEntry(listing[..n], attempt, i);
      var row :| row in before && RowOf(row, listing[i], attempt);
      assert row in before + here;
    }
  }

  /** Every `.json` entry whose attempt fails has its log line, with the
      cause. */
  lemma {:induction false} SkipForEveryFailedEntry(listing: seq<string>, attempt: WalletAttempt, i: nat)
    requires i < |listing| && IsJsonFile(listing[i]) && attempt(listing[i]).Failure?
    ensures exists s | s in ScoreListing(listing, attempt).skipped :: SkipOf(s, listing[i], attempt)
    decreases |listing|
  {
    var n := |listing| - 1;
    var before := ScoreListing(listing[..n], attempt).skipped;
    var here := ScoreEntry(listing[n], attempt).skipped;
    assert ScoreListing(listing, attempt).skipped == before + here;
    if i == n {
      var s := Skipped(WalletId(listing[i]), attempt(listing[i]).error);
      assert here == [s];
      assert s in before + here;
    } else {
      assert listing[..n][i] == listing[i];
      SkipForEveryFailedEntry(listing[..n], attempt, i);
      var s :| s in before && SkipOf(s, listing[i], attempt);
      assert s in before + here;
    }
  }

  lemma ScoreListingSnoc(xs: seq<string>, f: string, attempt: WalletAttempt)
    ensures ScoreListing(xs + [f], attempt) == Concat(ScoreListing(xs, attempt), ScoreEntry(f, attempt))
  {
    assert (xs + [f])[..|xs|] == xs;
  }

  lemma ConcatAssociative(x: Batch, y: Batch, z: Batch)
    ensures Concat(Concat(x, y), z) == Concat(x, Concat(y, z))
  {
    assert (x.rows + y.rows) + z.rows == x.rows + (y.rows + z.rows);
    assert (x.skipped + y.skipped) + z.skipped == x.skipped + (y.skipped + z.skipped);
  }

  /** The `try` block for each file, with the weights, loader, clock and
      scorer fixed. */
  function AttemptWith(weights: Swara.Weights, load: Loader, clock: Clock, score: Scorer): (attempt: WalletAttempt)
    ensures forall f :: attempt(f) == Attempt(f, weights, load, clock(f), score)
  {
    f => Attempt(f, weights, load, clock(f), score)
  }

  /** Every row and every log line of `b` belongs to a `.json` entry of
      `listing`, and every `.json` entry has its row or its log line. */
  predicate Accounts(b: Batch, listing: seq<string>, attempt: WalletAttempt) {
    && (forall row | row in b.rows :: RowFrom(row, listing, attempt))
    && (forall s | s in b.skipped :: SkipFrom(s, listing, attempt))
    && (forall i | 0 <= i < |listing| && IsJsonFile(listing[i]) ::
          EntryAccounted(b, listing[i], attempt))
  }

  /** The `.json` entry `f` has its row in `b` if its attempt succeeded,
      and its log line if it failed. */
  predicate EntryAccounted(b: Batch, f: string, attempt: WalletAttempt) {
    && (attempt(f).Success? ==> exists row | row in b.rows :: RowOf(row, f, attempt))
    && (attempt(f).Failure? ==> exists s | s in b.skipped :: SkipOf(s, f, attempt))
  }

  /** The batch of a listing accounts for it exactly. */
  lemma ScoreListingAccounts(listing: seq<string>, attempt: WalletAttempt)
    ensures Accounts(ScoreListing(listing, attempt), listing, attempt)
  {
    var b := ScoreListing(listing, attempt);
    RowsComeFromListing(listing, attempt);
    SkipsComeFromListing(listing, attempt);
    forall i | 0 <= i < |listing| && IsJsonFile(listing[i])
      ensures EntryAccounted(b, listing[i], attempt)
    {
      if attempt(listing[i]).Success? {
        RowForEveryScoredEntry(listing, attempt, i);
      } else {
        SkipForEveryFailedEntry(listing, attempt, i);
      }
    }
  }

  /** `main()` with a given scorer: the weights are computed once from the
      configuration, before any file is read. If computing them raises, the
      run stops with that error and no output. Otherwise every wallet is
      attempted with those same weights, and the table and the log account
      for exactly the `.json` entries, one each. */
  function Run(listing: seq<string>, config: Swara.Config, load: Loader, clock: Clock, score: Scorer)
    : (r: Result<Batch, Swara.SwaraError>)
    ensures r.Success? <==> Swara.WeightedCriteria(config).Success?
    ensures r.Failure? ==> r.error == Swara.WeightedCriteria(config).error
    ensures r.Success? ==>
      Accounts(r.value, listing, AttemptWith(Swara.WeightedCriteria(config).value, load, clock, score))
    ensures r.Success? ==> |r.value.rows| + |r.value.skipped| == |JsonFiles(listing)|
    ensures r.Success? ==>
      r.value == ScoreListing(listing, AttemptWith(Swara.WeightedCriteria(config).value, load, clock, score))
  {
    var weights :- Swara.WeightedCriteria(config);
    var attempt := AttemptWith(weights, load, clock, score);
    ScoreListingAccounts(listing, attempt);
    Success(ScoreListing(listing, attempt))
  }

  /** `main()` as written. */
  function Main(listing: seq<string>, config: Swara.Config, load: Loader, clock: Clock): (r: Result<Batch, Swara.SwaraError>)
    ensures r.Success? <==> Swara.WeightedCriteria(config).Success?
    ensures r.Success? ==> |r.value.rows| + |r.value.skipped| == |JsonFiles(listing)|
  {
    Run(listing, config, load, clock, WalletAnalyser.ComputeFraudScore)
  }

  /** `main()` with the total-value weight looked up under its stripped name. */
  function MainCorrected(listing: seq<string>, config: Swara.Config, load: Loader, clock: Clock): (r: Result<Batch, Swara.SwaraError>)
    ensures r.Success? <==> Swara.WeightedCriteria(config).Success?
    ensures r.Success? ==> |r.value.rows| + |r.value.skipped| == |JsonFiles(listing)|
  {
    Run(listing, config, load, clock, WalletAnalyser.ComputeFraudScoreCorrected)
  }

  lemma {:induction false} NoRowsWhenEveryAttemptFails(listing: seq<string>, attempt: WalletAttempt)
    requires forall f :: attempt(f).Failure?
    ensures ScoreListing(listing, attempt).rows == []
    decreases |listing|
  {
    if |listing| > 0 {
      NoRowsWhenEveryAttemptFails(listing[..|listing| - 1], attempt);
    }
  }

  lemma {:induction false} NoSkipsWhenEveryAttemptSucceeds(listing: seq<string>, attempt: WalletAttempt)
    requires forall f | f in listing && IsJsonFile(f) :: attempt(f).Success?
    ensures ScoreListing(listing, attempt).skipped == []
    decreases |listing|
  {
    if |listing| > 0 {
      var n := |listing| - 1;
      assert listing == listing[..n] + [listing[n]];
      assert forall f | f in listing[..n] :: f in listing;
      NoSkipsWhenEveryAttemptSucceeds(listing[..n], attempt);
      assert listing[n] in listing;
      assert ScoreEntry(listing[n], attempt).skipped == [];
      assert ScoreListing(listing, attempt)
          == Concat(ScoreListing(listing[..n], attempt), ScoreEntry(listing[n], attempt));
    }
  }

  /** As written, with weights named after a configuration of the three
      score criteria, no file's attempt succeeds. */
  lemma AsWrittenAttemptFails(config: Swara.Config, weights: Swara.Weights, load: Loader, clock: Clock, f: string)
    requires WalletAnalyser.DeclaresScoreCriteria(config)
    requires WalletAnalyser.NamedAfter(weights, config)
    ensures AttemptWith(weights, load, clock, WalletAnalyser.ComputeFraudScore)(f).Failure?
  {
    if load(f).Success? && |load(f).value| > 0 {
      WalletAnalyser.MismatchFor(config, weights, WalletAnalyser.ExtractIndicators(load(f).value, clock(f)));
    }
  }

  /** With the corrected lookup, every file whose transactions load and are
      not empty is scored. */
  lemma CorrectedAttemptSucceeds(config: Swara.Config, weights: Swara.Weights, load: Loader, clock: Clock, f: string)
    requires WalletAnalyser.DeclaresScoreCriteria(config)
    requires WalletAnalyser.NamedAfter(weights, config)
    requires load(f).Success? && |load(f).value| > 0
    ensures AttemptWith(weights, load, clock, WalletAnalyser.ComputeFraudScoreCorrected)(f).Success?
  {
    WalletAnalyser.CorrectedFor(config, weights, WalletAnalyser.ExtractIndicators(load(f).value, clock(f)));
  }

  /** As written, weights named after a configuration of the three score
      criteria leave the table empty and log every `.json` file. */
  lemma AsWrittenListingScoresNothing(listing: seq<string>, config: Swara.Config, weights: Swara.Weights, load: Loader, clock: Clock)
    requires WalletAnalyser.DeclaresScoreCriteria(config)
    requires WalletAnalyser.NamedAfter(weights, config)
    ensures ScoreListing(listing, AttemptWith(weights, load, clock, WalletAnalyser.ComputeFraudScore)).rows == []
  {
    var attempt := AttemptWith(weights, load, clock, WalletAnalyser.ComputeFraudScore);
    forall f
      ensures attempt(f).Failure?
    {
      AsWrittenAttemptFails(config, weights, load, clock, f);
    }
    NoRowsWhenEveryAttemptFails(listing, attempt);
  }

  /** With the corrected lookup, weights named after such a configuration
      give every loadable `.json` file a row. */
  lemma CorrectedListingScoresAll(listing: seq<string>, config: Swara.Config, weights: Swara.Weights, load: Loader, clock: Clock)
    requires WalletAnalyser.DeclaresScoreCriteria(config)
    requires WalletAnalyser.NamedAfter(weights, config)
    requires forall f | f in listing && IsJsonFile(f) :: load(f).Success? && |load(f).value| > 0
    ensures ScoreListing(listing, AttemptWith(weights, load, clock, WalletAnalyser.ComputeFraudScoreCorrected)).skipped == []
  {
    var attempt := AttemptWith(weights, load, clock, WalletAnalyser.ComputeFraudScoreCorrected);
    forall f | f in listing && IsJsonFile(f)
      ensures attempt(f).Success?
    {
      CorrectedAttemptSucceeds(config, weights, load, clock, f);
    }
    NoSkipsWhenEveryAttemptSucceeds(listing, attempt);
  }

  /** As written, with the three score criteria configured, the run
      produces an empty table: every wallet is logged as skipped. */
  lemma MainScoresNoWallet(listing: seq<string>, config: Swara.Config, load: Loader, clock: Clock)
    requires WalletAnalyser.DeclaresScoreCriteria(config)
    requires Swara.WeightedCriteria(config).Success?
    ensures Main(listing, config, load, clock).Success?
    ensures Main(listing, config, load, clock).value.rows == []
    ensures |Main(listing, config, load, clock).value.skipped| == |JsonFiles(listing)|
  {
    var weights := Swara.WeightedCriteria(config).value;
    AsWrittenListingScoresNothing(listing, config, weights, load, clock);
  }

  /** With the corrected lookup, every `.json` file whose transactions load
      and are not empty gets a row. */
  lemma MainCorrectedScoresEveryWallet(listing: seq<string>, config: Swara.Config, load: Loader, clock: Clock)
    requires WalletAnalyser.DeclaresScoreCriteria(config)
    requires Swara.WeightedCriteria(config).Success?
    requires forall f | f in listing && IsJsonFile(f) :: load(f).Success? && |load(f).value| > 0
    ensures MainCorrected(listing, config, load, clock).Success?
    ensures MainCorrected(listing, config, load, clock).value.skipped == []
    ensures |MainCorrected(listing, config, load, clock).value.rows| == |JsonFiles(listing)|
  {
    var weights := Swara.WeightedCriteria(config).value;
    CorrectedListingScoresAll(listing, config, weights, load, clock);
  }
}
