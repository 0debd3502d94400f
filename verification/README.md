# NeutrosophicAlgo fraud scoring, modelled in Dafny

This project models the scoring core of NeutrosophicAlgo and proves properties about the model. NeutrosophicAlgo scores blockchain wallets for fraud risk from their transaction history. It works in four steps:

1. It weights the configured criteria with SWARA (Step-wise Weight Assessment Ratio Analysis). SWARA takes criteria ordered by importance and gives each one a weight. It uses the truth value of the linguistic importance label of every criterion after the first. The first criterion gets the coefficient `k = 1` and its label is never looked up.
2. It computes a neutrosophic vector (truth, indeterminacy, falsity) from three indicators of the wallet.
3. It combines three of those weights, looked up by name, and the vector into a clamped score in [0, 1], with a risk label.
4. It runs this for every transaction file in a directory, and logs and skips the wallets that fail.

The model also covers the pure part of the helper script `extract_wallets.py`. That part reads an address and checks its two guards. It then collects the distinct recipients of the wallet's transactions and names the output file.

Modules, one per file:

- `Wrappers` (`wrappers.dfy`): `Option` and `Result`. Python exceptions become `Failure` values.
- `PyStrings` (`py_strings.dfy`): the Python string operations the core uses. These are `str.replace(p, "")`, `endswith`, `strip()` with Python's whitespace set, and the slices `s[:n]` and `s[-n:]`.
- `Swara` (`swara.dfy`): `swara_weights` and `get_weighted_criteria` (after the configuration is loaded).
- `Neutrosophic` (`neutrosophic.dfy`): the T, I and F functions and the vector.
- `Transactions` (`transactions.dfy`): a transaction record. Its `value` and `timeStamp` are already parsed as integers.
- `WalletAnalyser` (`wallet_analyser.dfy`): `extract_indicators` and `compute_fraud_score`.
- `ScorePipeline` (`score_pipeline.dfy`): the loop of `score_pipline.main()`.
- `ExtractWallets` (`extract_wallets.dfy`): the pure part of `extract_wallets.py`.

Modelling choices:

- Python floats are Dafny `real`s. The clock reading of `extract_indicators` is a parameter `now` in Unix seconds. The batch run reads the clock once per wallet, so it takes a `Clock` that gives the reading for each file.
- Reading a file, and the JSON decoding of its records, is a `Loader` parameter that returns the transactions or the reason they could not be read.
- The ledger query of `extract_wallets.py` is a `fetch` parameter.
- The scorer is a parameter of the batch run (`ScorePipeline.Run`). This lets the same loop be stated with the function as written and with its corrected version (see Findings).
- Every `raise` is modelled as a `Failure`:
  - a label missing from the scale (`KeyError`) is `UnknownLabel`;
  - a zero divisor is `DivisionByZero`;
  - a weight name missing from `dict(weights)` is `MissingWeight`;
  - the two `ValueError`s of `extract_wallets.py` are `AddressRequired` and `NoTransactions`.
- The batch loop records a failed wallet as a `Skipped` entry, which names the wallet and the cause.

Three facts about the code that the model makes explicit:

- The score combines `T`, `1 - I` and `1 - F` with the three weights, so with non-negative weights a higher T never lowers the combination and a higher I or F never raises it (`WalletAnalyser.RawScoreMonotoneInTruth`, `WalletAnalyser.RawScoreMonotoneInDoubt`).
- SWARA weights here are not non-increasing along the importance order: with non-negative truth values, a weight grows exactly when `t + 1e-9 < 1` (`Swara.SwaraGrowth`, `Swara.SwaraLaterWeightLarger`).
- An empty criteria list gives no pairs and no error, because `zip` stops at the shorter list.

## Model

Source paths and line numbers refer to the NeutrosophicAlgo repository.

| member | source | states |
|---|---|---|
| PyStrings.RemoveAll | NeutrosophicAlgo/utils/swara.py:49 | `s.replace(p, "")` deletes occurrences of `p` from left to right without overlap; the result is never longer than `s` |
| PyStrings.RemoveAllShortens | NeutrosophicAlgo/utils/score_pipline.py:18 | `replace(p, "")` removes at least the length of `p` when `p` occurs, and leaves the string unchanged otherwise, so it shortens the string exactly when `p` occurs |
| PyStrings.EndsWithSplit | NeutrosophicAlgo/utils/score_pipline.py:17 | `s.endswith(p)` holds exactly when `s` is some front part followed by `p`, and then `p` occurs in `s` |
| PyStrings.RemoveAllAbsent | NeutrosophicAlgo/utils/swara.py:49 | `replace(p, "")` leaves a string that does not contain `p` unchanged |
| PyStrings.RemoveAllTrailing | NeutrosophicAlgo/utils/swara.py:49 | when `p` has no proper border and `x` does not contain `p`, `(x + p).replace(p, "")` gives back `x` |
| PyStrings.Strip | NeutrosophicAlgo/extract_wallets.py:16 | `strip()` drops exactly the leading whitespace and a run of trailing whitespace; what remains neither starts nor ends with whitespace |
| PyStrings.StripEmptyIff | NeutrosophicAlgo/extract_wallets.py:16-18 | the stripped input is empty exactly when every character of the raw input is whitespace |
| PyStrings.PrefixSlice | NeutrosophicAlgo/extract_wallets.py:34 | `s[:n]` is a prefix of `s` of length `min(n, len(s))` |
| PyStrings.SuffixSlice | NeutrosophicAlgo/extract_wallets.py:34 | `s[-n:]` is a suffix of `s` of length `min(n, len(s))`, and the whole of `s` when `n` is 0 |
| Swara.Coefficients | NeutrosophicAlgo/utils/swara.py:23-27 | succeeds exactly when every looked-up label is in the scale, giving `k_j = t_j + 1e-9` per label; otherwise fails naming the first unknown label (the `KeyError`) |
| Swara.Quotients | NeutrosophicAlgo/utils/swara.py:29-31 | `q[0] = 1` and `q[j] * k[j] = q[j-1]` for every later `j` |
| Swara.Normalise | NeutrosophicAlgo/utils/swara.py:34 | each weight times the total gives back its quotient |
| Swara.SumNormalise | NeutrosophicAlgo/utils/swara.py:33-34 | the normalised quotients sum to the quotients' sum over the total |
| Swara.WeightsFrom | NeutrosophicAlgo/utils/swara.py:29-35 | one weight per coefficient plus one, summing to 1; the only failure is a zero divisor; no coefficients give `[1.0]` |
| Swara.SwaraWeights | NeutrosophicAlgo/utils/swara.py:18-35 | `max(1, len(labels))` weights summing to 1; at most one label gives `[1.0]`; fails with an unknown label exactly when a label after the first is missing from the scale |
| Swara.QuotientsPositive | NeutrosophicAlgo/utils/swara.py:29-31 | positive coefficients give positive quotients |
| Swara.SumPositive | NeutrosophicAlgo/utils/swara.py:33 | a non-empty sum of positive quotients is positive |
| Swara.SwaraPositive | NeutrosophicAlgo/utils/swara.py:23-35 | with every looked-up truth value known and non-negative, the weights exist and all are positive |
| Swara.WeightsFromAdjacent | NeutrosophicAlgo/utils/swara.py:29-34 | neighbouring weights satisfy `w[j-1] = w[j] * k_j` |
| Swara.SwaraAdjacent | NeutrosophicAlgo/utils/swara.py:24-34 | neighbouring weights satisfy `w[j-1] = w[j] * (t_j + 1e-9)` for the label at position `j` |
| Swara.WeightsFromGrowth | NeutrosophicAlgo/utils/swara.py:29-34 | a weight exceeds its predecessor exactly when its coefficient is below 1, and equals it exactly when the coefficient is 1 |
| Swara.SwaraGrowth | NeutrosophicAlgo/utils/swara.py:24-34 | with non-negative truth values, a later weight exceeds the earlier one exactly when `t_j + 1e-9 < 1`, and equals it exactly when `t_j + 1e-9 = 1` |
| Swara.SwaraLaterWeightLarger | NeutrosophicAlgo/utils/swara.py:18-35 | for labels `["first", "second"]` with truth value 0.5 for `"second"`, the second weight is larger than the first |
| Swara.SwaraFirstLabelIgnored | NeutrosophicAlgo/utils/swara.py:24 | the first label is never looked up: replacing it does not change the result |
| Swara.WeightedCriteria | NeutrosophicAlgo/utils/swara.py:42-49 | fails exactly when SWARA fails, with the same error; otherwise gives one pair per criterion in configuration order, named with every `"_eth"` removed and carrying that position's SWARA weight; the weights of a non-empty configuration sum to 1 |
| Neutrosophic.Truth | NeutrosophicAlgo/utils/neutrosophic.py:2-4 | T is at most 1, non-negative for a non-negative total, equal to `total / 1000` up to 1000 and 1 from there on |
| Neutrosophic.TruthMonotone | NeutrosophicAlgo/utils/neutrosophic.py:2-4 | T never decreases as the total grows |
| Neutrosophic.Indeterminacy | NeutrosophicAlgo/utils/neutrosophic.py:6-7 | I is 0.3 exactly when there are more than 10 recent transactions, and 0.1 exactly otherwise |
| Neutrosophic.Falsity | NeutrosophicAlgo/utils/neutrosophic.py:9-10 | F is 0.1 exactly when there are more than 50 transactions, and 0.6 exactly otherwise |
| Neutrosophic.CountComponentsMonotone | NeutrosophicAlgo/utils/neutrosophic.py:6-10 | I never decreases and F never increases as the counts grow |
| Neutrosophic.ComputeVector | NeutrosophicAlgo/utils/neutrosophic.py:12-16 | the vector's components lie in their ranges: T at most 1 (non-negative for a non-negative total), I in {0.1, 0.3}, F in {0.1, 0.6} |
| Neutrosophic.VectorComponentsIndependent | NeutrosophicAlgo/utils/neutrosophic.py:12-16 | changing one argument changes no other component |
| WalletAnalyser.TotalEth | NeutrosophicAlgo/analysis/wallet_analyser.py:7-10 | the summed ether values are non-negative when every wei value is |
| WalletAnalyser.TotalEthIsScaledSum | NeutrosophicAlgo/analysis/wallet_analyser.py:7-10 | converting each value to ether and then summing equals converting the summed wei |
| WalletAnalyser.SumWeiNonNegative | NeutrosophicAlgo/analysis/wallet_analyser.py:10 | non-negative values have a non-negative sum |
| WalletAnalyser.RecentCount | NeutrosophicAlgo/analysis/wallet_analyser.py:12 | the recent-row count is at most the number of rows |
| WalletAnalyser.RecentCountIsIndexCount | NeutrosophicAlgo/analysis/wallet_analyser.py:12 | the count equals the number of transactions whose time stamp is later than thirty days before `now` |
| WalletAnalyser.Counterparties | NeutrosophicAlgo/analysis/wallet_analyser.py:13 | a non-empty history has at least one and at most two counterparties per transaction |
| WalletAnalyser.CounterpartiesMembers | NeutrosophicAlgo/analysis/wallet_analyser.py:13 | an address is a counterparty exactly when it sends or receives one of the transactions |
| WalletAnalyser.Mean | NeutrosophicAlgo/analysis/wallet_analyser.py:14 | the mean times the row count gives back the total |
| WalletAnalyser.ExtractIndicators | NeutrosophicAlgo/analysis/wallet_analyser.py:5-24 | the transaction count, the recent count (at most the count), the total in ether (summed wei over 1e18, non-negative for non-negative values), the counterparty count (between 1 and twice the count) and the mean value |
| WalletAnalyser.RiskLabel.Display | NeutrosophicAlgo/analysis/wallet_analyser.py:43-47 | each label's text ends with its name: `High Risk`, `Suspicious` or `Safe` |
| WalletAnalyser.DisplayDistinct | NeutrosophicAlgo/analysis/wallet_analyser.py:43-47 | two labels are reported with the same text exactly when they are the same label |
| WalletAnalyser.Classify | NeutrosophicAlgo/analysis/wallet_analyser.py:42-47 | High Risk exactly above 0.7, Suspicious exactly in (0.4, 0.7], Safe exactly at or below 0.4 |
| WalletAnalyser.ClassifyMonotone | NeutrosophicAlgo/analysis/wallet_analyser.py:42-47 | a higher score never gets a less severe label |
| WalletAnalyser.Lookup | NeutrosophicAlgo/analysis/wallet_analyser.py:34 | `dict(weights)[key]` is absent exactly when no pair has that name, and otherwise is the weight of the last pair with that name |
| WalletAnalyser.Clamp | NeutrosophicAlgo/analysis/wallet_analyser.py:41 | the result lies in [0, 1], equals the input inside it, and is 0 below it and 1 above it |
| WalletAnalyser.WeightOf | NeutrosophicAlgo/analysis/wallet_analyser.py:34-38 | the weight is found exactly when the name is present; otherwise the `KeyError` names it |
| WalletAnalyser.ScoreWith | NeutrosophicAlgo/analysis/wallet_analyser.py:26-52 | succeeds exactly when all three weights are present, and otherwise fails naming the first missing one in reading order; the score lies in [0, 1], equals the weighted combination when that lies in [0, 1] and is clamped otherwise; the label classifies the score; the details are the indicators |
| WalletAnalyser.ComputeFraudScore | NeutrosophicAlgo/analysis/wallet_analyser.py:26-52 | as written: fails exactly when `"total_value_eth"`, `"recent_tx_count"` or `"tx_count"` is missing from the weights; the score lies in [0, 1] and its label classifies it |
| WalletAnalyser.ComputeFraudScoreCorrected | NeutrosophicAlgo/analysis/wallet_analyser.py:26-52 | the same with the total-value weight looked up as `"total_value"` |
| WalletAnalyser.ClampInactive | NeutrosophicAlgo/analysis/wallet_analyser.py:35-41 | with non-negative weights summing to at most 1 and components in [0, 1], the combination already lies in [0, 1] |
| WalletAnalyser.ScoreUnclamped | NeutrosophicAlgo/analysis/wallet_analyser.py:28-41 | for a non-negative total and such weights, the score is the unclamped weighted combination |
| WalletAnalyser.RawScore | NeutrosophicAlgo/analysis/wallet_analyser.py:35-39 | with non-negative weights, a non-negative T and I, F at most 1, the combination is non-negative |
| WalletAnalyser.RawScoreMonotoneInDoubt | NeutrosophicAlgo/analysis/wallet_analyser.py:35-39 | raising I or F never raises the combination when their weights are non-negative |
| WalletAnalyser.RawScoreMonotoneInTruth | NeutrosophicAlgo/analysis/wallet_analyser.py:35-39 | a larger T never lowers the combination when its weight is non-negative |
| WalletAnalyser.ScoreMonotoneInTotalValue | NeutrosophicAlgo/analysis/wallet_analyser.py:28-41 | a larger total value never lowers the score when its weight is non-negative |
| WalletAnalyser.StrippedTotalValue | NeutrosophicAlgo/utils/swara.py:49 | the criterion `total_value_eth` is renamed `total_value` |
| WalletAnalyser.StrippedRecentTxCount | NeutrosophicAlgo/utils/swara.py:49 | the criterion `recent_tx_count` keeps its name |
| WalletAnalyser.StrippedTxCount | NeutrosophicAlgo/utils/swara.py:49 | the criterion `tx_count` keeps its name |
| WalletAnalyser.WeightNamesOf | NeutrosophicAlgo/utils/swara.py:49 | for a configuration of the three score criteria, the weight names are exactly `total_value`, `recent_tx_count` and `tx_count`, each present |
| WalletAnalyser.MismatchFor | NeutrosophicAlgo/analysis/wallet_analyser.py:36 | with such weights, scoring as written fails with the `KeyError` for `"total_value_eth"` |
| WalletAnalyser.CorrectedFor | NeutrosophicAlgo/analysis/wallet_analyser.py:36 | with such weights, the corrected scoring succeeds |
| WalletAnalyser.KeyMismatchFailsEveryWallet | NeutrosophicAlgo/analysis/wallet_analyser.py:36 | for every wallet, scoring as written with the weights `get_weighted_criteria` computes for such a configuration fails on `"total_value_eth"` |
| WalletAnalyser.CorrectedScoresEveryWallet | NeutrosophicAlgo/analysis/wallet_analyser.py:36 | with the same weights, the corrected scoring succeeds for every wallet |
| WalletAnalyser.KeyMismatchExample | NeutrosophicAlgo/analysis/wallet_analyser.py:36 | for the configuration `total_value_eth` / `recent_tx_count` / `tx_count` with labels `very high` / `high` / `medium`, the weights are computed, yet scoring a one-transaction wallet as written fails on `"total_value_eth"`, while the corrected scoring succeeds |
| ScorePipeline.IsJsonFile | NeutrosophicAlgo/utils/score_pipline.py:17 | an entry is taken exactly when its name is some front part followed by `.json`, and such a name contains `.json` |
| ScorePipeline.WalletId | NeutrosophicAlgo/utils/score_pipline.py:18 | a name without `.json` is its own wallet id, and a `.json` file's wallet id is at least five characters shorter than its name |
| ScorePipeline.ScoreTransactions | NeutrosophicAlgo/utils/score_pipline.py:25-26 | the outcome is classified by cause: it fails with an empty history exactly when there are no transactions, fails with the scorer's error exactly when the scorer fails on the extracted indicators, and otherwise succeeds with the scorer's result; it never reports a load failure |
| ScorePipeline.Attempt | NeutrosophicAlgo/utils/score_pipline.py:21-26 | the outcome is classified by cause: a load failure exactly when the file cannot be loaded (with its reason), an empty history exactly when it loads as an empty list, a scorer failure exactly when the scorer fails on the extracted indicators, and success with the scorer's result otherwise |
| ScorePipeline.ComputeFraudScoresClassify | NeutrosophicAlgo/analysis/wallet_analyser.py:41-47 | both variants of `compute_fraud_score` report a score in [0, 1] with the label for that score |
| ScorePipeline.AttemptClassified | NeutrosophicAlgo/utils/score_pipline.py:21-31 | with such a scorer, a successful attempt's score lies in [0, 1] and its label is the one for that score |
| ScorePipeline.ScoreListingAccounts | NeutrosophicAlgo/utils/score_pipline.py:16-37 | the batch of a listing holds rows and log lines only for its `.json` entries, and each of them has its row or its log line |
| ScorePipeline.WalletIdOfJsonFile | NeutrosophicAlgo/utils/score_pipline.py:17-18 | a file named `<address>.json` is taken, and its wallet id is the address back (when the address does not contain `.json`) |
| ScorePipeline.JsonFiles | NeutrosophicAlgo/utils/score_pipline.py:16-17 | the selected entries are exactly the listing's entries that end with `.json` |
| ScorePipeline.ScoreEntry | NeutrosophicAlgo/utils/score_pipline.py:17-37 | an entry adds nothing unless it ends with `.json`, and then adds one row or one log line under its wallet id: a row carries its successful result's score and label, a log line carries the failure |
| ScorePipeline.ScoreListing | NeutrosophicAlgo/utils/score_pipline.py:16-37 | the run yields exactly one row or log line per `.json` entry |
| ScorePipeline.RowsComeFromListing | NeutrosophicAlgo/utils/score_pipline.py:16-32 | every row is the successful result of some `.json` entry of the listing |
| ScorePipeline.SkipsComeFromListing | NeutrosophicAlgo/utils/score_pipline.py:16-37 | every log line is the failure of some `.json` entry of the listing |
| ScorePipeline.RowForEveryScoredEntry | NeutrosophicAlgo/utils/score_pipline.py:16-32 | every `.json` entry whose attempt succeeds has its row in the table, under its wallet id with its score and label |
| ScorePipeline.SkipForEveryFailedEntry | NeutrosophicAlgo/utils/score_pipline.py:16-37 | every `.json` entry whose attempt fails has its log line, under its wallet id with the cause |
| ScorePipeline.ScoreListingAppend | NeutrosophicAlgo/utils/score_pipline.py:16-37 | wallets are processed independently and in order: the run over two listings joined is the two runs joined |
| ScorePipeline.ScoreListingSnoc | NeutrosophicAlgo/utils/score_pipline.py:16-37 | adding an entry at the end adds that entry's contribution at the end |
| ScorePipeline.Run | NeutrosophicAlgo/utils/score_pipline.py:14-37 | the run succeeds exactly when the weights compute, and otherwise fails with their error; on success one attempt function, built from that single weight list, explains the whole batch: every row and log line belongs to a `.json` entry, every `.json` entry has its row or log line, and there is one per entry |
| ScorePipeline.Main | NeutrosophicAlgo/utils/score_pipline.py:8-37 | the run succeeds exactly when the weights can be computed, and then accounts for every `.json` entry |
| ScorePipeline.MainCorrected | NeutrosophicAlgo/utils/score_pipline.py:8-37 | the same with the corrected scorer |
| ScorePipeline.NoRowsWhenEveryAttemptFails | NeutrosophicAlgo/utils/score_pipline.py:21-37 | when every attempt raises, the table is empty |
| ScorePipeline.NoSkipsWhenEveryAttemptSucceeds | NeutrosophicAlgo/utils/score_pipline.py:21-37 | when every `.json` entry's attempt succeeds, nothing is logged |
| ScorePipeline.AsWrittenAttemptFails | NeutrosophicAlgo/utils/score_pipline.py:21-26 | as written, with weights from a configuration of the three score criteria, every file's attempt fails |
| ScorePipeline.CorrectedAttemptSucceeds | NeutrosophicAlgo/utils/score_pipline.py:21-26 | with the corrected scorer, every file whose transactions load and are non-empty is scored |
| ScorePipeline.AsWrittenListingScoresNothing | NeutrosophicAlgo/utils/score_pipline.py:16-37 | as written, such weights leave the table empty |
| ScorePipeline.CorrectedListingScoresAll | NeutrosophicAlgo/utils/score_pipline.py:16-37 | with the corrected scorer and loadable files, nothing is logged |
| ScorePipeline.MainScoresNoWallet | NeutrosophicAlgo/utils/score_pipline.py:14-37 | as written, with the three score criteria configured, no wallet gets a row and every `.json` file is logged |
| ScorePipeline.MainCorrectedScoresEveryWallet | NeutrosophicAlgo/utils/score_pipline.py:14-37 | with the corrected scorer, every `.json` file whose transactions load and are non-empty gets a row and nothing is logged |
| ExtractWallets.Recipients | NeutrosophicAlgo/extract_wallets.py:28-29 | the listing has no duplicates and holds exactly the non-empty `to` addresses of the transactions |
| ExtractWallets.RecipientSetBound | NeutrosophicAlgo/extract_wallets.py:28 | the set of recipients has at most one address per transaction and never holds the empty address |
| ExtractWallets.RecipientsCount | NeutrosophicAlgo/extract_wallets.py:28-31 | the listing has one entry per distinct recipient |
| ExtractWallets.DistinctRecipients | NeutrosophicAlgo/extract_wallets.py:28-29 | the one-pass computation with a seen-set yields that same listing, with no duplicates and exactly the non-empty recipients |
| ExtractWallets.OutputName | NeutrosophicAlgo/extract_wallets.py:34-35 | the name starts with `wallets_` and ends with `.csv`; for an address of six or more characters it is 25 characters long, with the first six characters, then `...`, then the last four in place; a shorter address appears whole in place of the first six, and whole (up to four characters) or as its last four characters (five characters) in place of the last four |
| ExtractWallets.OutputNameOnlyEnds | NeutrosophicAlgo/extract_wallets.py:34-35 | two addresses of six or more characters share an output name exactly when their first six and last four characters agree |
| ExtractWallets.Extract | NeutrosophicAlgo/extract_wallets.py:16-35 | blank input fails with "address required", and only blank input does; an empty history fails naming the stripped address; otherwise the result carries the stripped address, its exact distinct recipients and its output name |
| ExtractWallets.ExtractSucceedsIff | NeutrosophicAlgo/extract_wallets.py:16-25 | the extraction succeeds exactly when the input has a non-whitespace character and the ledger returns a transaction for the stripped address |

## Left out

- `load_criteria` (opening and JSON-decoding `criteria_config.json`) is not modelled. The decoded configuration (criteria plus scale) is the input of `Swara.WeightedCriteria`. A scale entry is modelled as a (t, i, f) triple; only `t` is read.
- Python floats are modelled as exact reals. Rounding error, `inf` and `nan` are not represented. A zero divisor is modelled as the `ZeroDivisionError` it raises.
- WalletAnalyser.ComputeFraudScore: the reported score is not passed through `round(score, 4)`. Rounding is a floating-point formatting step. The label is computed from the unrounded score, as in the code. The rows of `ScorePipeline` carry the unrounded score too.
- WalletAnalyser.ExtractIndicators: requires a non-empty history. On an empty list the pandas column access raises before any indicator is computed. The batch loop models that case as the `EmptyHistory` failure.
- The `interactions_with_contracts` indicator (`wallet_analyser.py` line 15) is not modelled. The score never reads it.
- `pd.Timestamp.now()` is the parameter `now` of `WalletAnalyser.ExtractIndicators`, and a `Clock` from file name to reading in the batch run. The model does not promise that later wallets see later readings. Time-zone handling of `pd.to_datetime` is not modelled.
- A transaction record is not validated: a missing field, a `None` field or a malformed number is assumed to have been rejected by the `Loader`, as a load failure.
- `to_addresses` is built as a Python set, so the order of `list(to_addresses)` is unspecified. The model lists recipients in order of first appearance, which is one of the orders the script can produce.
- ExtractWallets.Extract: the ledger query is a total function `fetch`. Its network errors, its API key and the CSV written with pandas are not modelled.
- All printing, the process log file, the CSV output of the batch run and directory creation are not modelled. The log is modelled as the list of `Skipped` entries.
- `utils/fetcher.py`, `utils/fetch_transactions.py` and `Main.py` are not part of this model. They are network and command-line glue.
- The `__main__` block of `swara.py` (printing the weights) is not modelled.

## Findings

| source | as written | input that shows it | evidently intended | confidence | as-written member | corrected member |
|---|---|---|---|---|---|---|
| NeutrosophicAlgo/analysis/wallet_analyser.py:36 | `compute_fraud_score` reads `weight_dict["total_value_eth"]`, but `get_weighted_criteria` (`swara.py` line 49) has renamed that criterion to `total_value`, so the lookup raises `KeyError` for every wallet, and the batch run writes an empty table and logs every wallet | criteria `total_value_eth` (very high), `recent_tx_count` (high), `tx_count` (medium), with truth values 0.7 for high and 0.5 for medium; a wallet with one transaction, or any wallet with a non-empty history | look the total-value weight up under `"total_value"`, the name the weights carry | high, not executed | WalletAnalyser.KeyMismatchExample, WalletAnalyser.KeyMismatchFailsEveryWallet, ScorePipeline.MainScoresNoWallet | WalletAnalyser.ComputeFraudScoreCorrected, WalletAnalyser.CorrectedScoresEveryWallet, ScorePipeline.MainCorrectedScoresEveryWallet |
