/** The pure part of `extract_wallets.py`: reading a wallet address,
    rejecting an empty one or an empty history, collecting the distinct
    recipients of the wallet's transactions and naming the output file. */
module ExtractWallets {
  import opened Wrappers
  import opened Transactions
  import PyStrings

  /** The two `ValueError`s the script raises. */
  datatype ExtractError =
    | AddressRequired
    | NoTransactions(address: string)

  /** What the script writes: the distinct recipients, into a file named
      after the wallet. */
  datatype Extraction = Extraction(address: string, recipients: seq<string>, outputName: string)

  /** `tx.get('to')` is truthy: a recipient that is present and not empty. */
  predicate HasRecipient(tx: Tx) {
    |tx.to| > 0
  }

  /** The set comprehension `{tx.get('to') for tx in transactions if tx.get('to')}`. */
  function RecipientSet(txs: seq<Tx>): set<string> {
    set tx | tx in txs && HasRecipient(tx) :: tx.to
  }

  /** No address appears twice. */
  predicate Distinct(s: seq<string>) {
    forall i, j | 0 <= i < j < |s| :: s[i] != s[j]
  }

  /** `list(to_addresses)`: the distinct non-empty recipients, listed in
      order of first appearance. */
  function Recipients(txs: seq<Tx>): (r: seq<string>)
    ensures |r| <= |txs|
    ensures Distinct(r)
    ensures forall a | a in r :: a in RecipientSet(txs)
    ensures forall a | a in RecipientSet(txs) :: a in r
    decreases |txs|
  {
    if |txs| == 0 then []
    else
      var n := |txs| - 1;
      var before := Recipients(txs[..n]);
      assert forall tx | tx in txs[..n] :: tx in txs;
      assert forall tx | tx in txs :: tx in txs[..n] || tx == txs[n];
      if HasRecipient(txs[n]) && txs[n].to !in before then before + [txs[n].to]
      else before
  }

  /** The listing has exactly one entry per distinct recipient. */
  lemma RecipientsCount(txs: seq<Tx>)
    ensures |Recipients(txs)| == |RecipientSet(txs)|
  {
    var r := Recipients(txs);
    DistinctCard(r);
    assert (set a | a in r) == RecipientSet(txs);
  }

  /** There are never more distinct recipients than transactions, and the
      empty address is never one of them. */
  lemma RecipientSetBound(txs: seq<Tx>)
    ensures |RecipientSet(txs)| <= |txs|
    ensures "" !in RecipientSet(txs)
  {
    RecipientsCount(txs);
  }

  /** A duplicate-free sequence has as many elements as its set of values. */
  lemma {:induction false} DistinctCard(s: seq<string>)
    requires Distinct(s)
    ensures |(set a | a in s)| == |s|
    decreases |s|
  {
    if |s| > 0 {
      var n := |s| - 1;
      var t := s[..n];
      assert Distinct(t) by {
        forall i, j | 0 <= i < j < |t|
          ensures t[i] != t[j]
        {
          assert t[i] == s[i] && t[j] == s[j];
        }
      }
      DistinctCard(t);
      assert s == t + [s[n]];
      forall i | 0 <= i < |t|
        ensures t[i] != s[n]
      {
        assert t[i] == s[i];
      }
      assert (set a | a in s) == (set a | a in t) + {s[n]};
    }
  }

  /** The recipients computed in one pass with a set of addresses already
      seen; the same listing as `Recipients`. */
  method DistinctRecipients(txs: seq<Tx>) returns (out: seq<string>)
    ensures out == Recipients(txs)
    ensures Distinct(out)
    ensures forall a :: a in out <==> a in RecipientSet(txs)
  {
    out := [];
    var seen: set<string> := {};
    var i := 0;
    while i < |txs|
      invariant 0 <= i <= |txs|
      invariant out == Recipients(txs[..i])
      invariant forall a :: a in seen <==> a in out
    {
      assert txs[..i + 1][..i] == txs[..i];
      var to := txs[i].to;
      if |to| > 0 && to !in seen {
        out := out + [to];
        seen := seen + {to};
      }
      i := i + 1;
    }
    assert txs[..i] == txs;
  }

  /** `f"wallets_{wallet_address[:6]}...{wallet_address[-4:]}.csv"` */
  function OutputName(address: string): (r: string)
    ensures PyStrings.StartsWith(r, "wallets_")
    ensures PyStrings.EndsWith(r, ".csv")
    ensures |address| >= 6 ==> |r| == 25
    ensures |address| >= 6 ==> r[8..14] == address[..6] && r[17..21] == address[|address| - 4..]
    ensures |address| >= 6 ==> r[14..17] == "..."
    ensures |address| <= 4 ==> r == "wallets_" + address + "..." + address + ".csv"
    ensures 4 < |address| < 6 ==> r == "wallets_" + address + "..." + address[|address| - 4..] + ".csv"
  {
    "wallets_" + PyStrings.PrefixSlice(address, 6) + "..." + PyStrings.SuffixSlice(address, 4) + ".csv"
  }

  /** The output name identifies a wallet only by its first six and last
      four characters: two addresses of at least six characters share a
      file name exactly when those ends agree. */
  lemma OutputNameOnlyEnds(a: string, b: string)
    requires |a| >= 6 && |b| >= 6
    ensures OutputName(a) == OutputName(b) <==>
      a[..6] == b[..6] && a[|a| - 4..] == b[|b| - 4..]
  {
    var na, nb := OutputName(a), OutputName(b);
    if a[..6] == b[..6] && a[|a| - 4..] == b[|b| - 4..] {
      assert PyStrings.PrefixSlice(a, 6) == a[..6] && PyStrings.PrefixSlice(b, 6) == b[..6];
      assert PyStrings.SuffixSlice(a, 4) == a[|a| - 4..] && PyStrings.SuffixSlice(b, 4) == b[|b| - 4..];
    }
  }

  /** The script between reading the input and writing the file:
      `input().strip()`, the two guards, and the extraction. `fetch` stands
      for the ledger query. */
  function Extract(rawInput: string, fetch: string -> seq<Tx>): (r: Result<Extraction, ExtractError>)
    ensures r == Failure(AddressRequired) <==>
      forall k | 0 <= k < |rawInput| :: PyStrings.IsSpace(rawInput[k])
    ensures r.Failure? && r.error.NoTransactions? ==>
      r.error.address == PyStrings.Strip(rawInput) && |fetch(r.error.address)| == 0
    ensures r.Success? ==>
      && r.value.address == PyStrings.Strip(rawInput)
      && |r.value.address| > 0
      && |fetch(r.value.address)| > 0
      && r.value.outputName == OutputName(r.value.address)
      && (forall a :: a in r.value.recipients <==> a in RecipientSet(fetch(r.value.address)))
      && Distinct(r.value.recipients)
  {
    PyStrings.StripEmptyIff(rawInput);
    var address := PyStrings.Strip(rawInput);
    if |address| == 0 then Failure(AddressRequired)
    else
      var txs := fetch(address);
      if |txs| == 0 then Failure(NoTransactions(address))
      else Success(Extraction(address, Recipients(txs), OutputName(address)))
  }

  /** Input that is not blank always gets past the first guard, and past
      the second exactly when the ledger returns some transaction. */
  lemma ExtractSucceedsIff(rawInput: string, fetch: string -> seq<Tx>)
    ensures Extract(rawInput, fetch).Success? <==>
      (exists k | 0 <= k < |rawInput| :: !PyStrings.IsSpace(rawInput[k]))
      && |fetch(PyStrings.Strip(rawInput))| > 0
  {
    PyStrings.StripEmptyIff(rawInput);
  }
}
