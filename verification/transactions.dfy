/** The transaction history (src/app/transactions.tsx): a search box and two
    drop-down filters over the list, a "clear history" action, and the
    labels each row shows. */
module Transactions {
  import opened Js
  import opened Text
  import Lists

  /** A transaction. Kind, asset and status are the texts the page compares
      (`"sent"`/`"received"`, `"BTC-LN"`/`"USDT-SL"`/`"SATOLINK"`,
      `"completed"`/`"pending"`/`"failed"`); the date is an instant in
      milliseconds. */
  datatype Transaction = Transaction(
    id: string,
    kind: string,
    asset: string,
    amount: real,
    address: string,
    contactName: Option<string>,
    date: int,
    status: string,
    fee: Option<real>,
    note: Option<string>)

  /** `x || ""` for an optional text. */
  function OrEmpty(x: Option<string>): (r: string)
    ensures x.Some? ==> r == x.value
    ensures x.None? ==> r == ""
  {
    match x
    case Some(s) => s
    case None => ""
  }

  /** The text the search box looks in: address, contact name and note,
      separated by spaces, absent parts empty. */
  function SearchText(tx: Transaction): string {
    tx.address + " " + OrEmpty(tx.contactName) + " " + OrEmpty(tx.note)
  }

  /** Whether a row is shown: the search text contains the term, ignoring
      ASCII case, and each drop-down is "all" or names the row's value. */
  predicate Shown(tx: Transaction, term: string, asset: string, status: string) {
    && Contains(ToLower(SearchText(tx)), ToLower(term))
    && (asset == "all" || tx.asset == asset)
    && (status == "all" || tx.status == status)
  }

  function Visible(txs: seq<Transaction>, term: string, asset: string, status: string): (r: seq<Transaction>)
    ensures Lists.IsSubsequence(r, txs)
    ensures forall tx :: tx in r <==> tx in txs && Shown(tx, term, asset, status)
    ensures forall tx :: multiset(r)[tx] == if Shown(tx, term, asset, status) then multiset(txs)[tx] else 0
  {
    Lists.Filter(txs, tx => Shown(tx, term, asset, status))
  }

  /** With an empty search and both drop-downs on "all", every transaction
      is shown. */
  lemma VisibleUnfiltered(txs: seq<Transaction>)
    ensures Visible(txs, "", "all", "all") == txs
  {
    forall i | 0 <= i < |txs| ensures Shown(txs[i], "", "all", "all") {
      ContainsEmpty(ToLower(SearchText(txs[i])));
    }
  }

  /** Choosing a particular asset shows an order-preserving part of what
      "all" shows. */
  lemma AssetNarrows(txs: seq<Transaction>, term: string, asset: string, status: string)
    ensures Lists.IsSubsequence(Visible(txs, term, asset, status), Visible(txs, term, "all", status))
  {
    Lists.FilterMonotone(txs, tx => Shown(tx, term, asset, status), tx => Shown(tx, term, "all", status));
  }

  /** Choosing a particular status shows an order-preserving part of what
      "all" shows. */
  lemma StatusNarrows(txs: seq<Transaction>, term: string, asset: string, status: string)
    ensures Lists.IsSubsequence(Visible(txs, term, asset, status), Visible(txs, term, asset, "all"))
  {
    Lists.FilterMonotone(txs, tx => Shown(tx, term, asset, status), tx => Shown(tx, term, asset, "all"));
  }

  /** The page: the list, the search and filter settings, and whether the
      "clear history" dialog is open. */
  datatype Page = Page(txs: seq<Transaction>, term: string, asset: string, status: string, deleteDialogOpen: bool)

  /** Confirming "clear history" empties the list and closes the dialog;
      the search and filters stay as they were. */
  function DeleteAll(p: Page): (r: Page)
    ensures r.txs == [] && !r.deleteDialogOpen
    ensures r.term == p.term && r.asset == p.asset && r.status == p.status
  {
    p.(txs := [], deleteDialogOpen := false)
  }

  /** After clearing, nothing is shown whatever the filters say. */
  lemma DeleteAllShowsNothing(p: Page, term: string, asset: string, status: string)
    ensures Visible(DeleteAll(p).txs, term, asset, status) == []
  {
  }

  // -----------------------------------------------------------------------
  // Row labels

  /** The unit written after the amount. */
  function AmountUnit(asset: string): (r: string)
    ensures asset == "BTC-LN" ==> r == "BTC"
    ensures asset == "USDT-SL" ==> r == "USDT"
    ensures asset != "BTC-LN" && asset != "USDT-SL" ==> r == "SL"
  {
    if asset == "BTC-LN" then "BTC" else if asset == "USDT-SL" then "USDT" else "SL"
  }

  /** The fee cell: "-" without a fee, otherwise the fee as written by
      `render` and the unit, which is "USDT" for every asset but BTC-LN. */
  function FeeCell(tx: Transaction, render: real -> string): (r: string)
    ensures r == "-" <==> tx.fee.None?
    ensures tx.fee.Some? && tx.asset == "BTC-LN" ==> r == render(tx.fee.value) + " BTC"
    ensures tx.fee.Some? && tx.asset != "BTC-LN" ==> r == render(tx.fee.value) + " USDT"
  {
    match tx.fee
    case None => "-"
    case Some(fee) => if tx.asset == "BTC-LN" then render(fee) + " BTC" else render(fee) + " USDT"
  }

  /** A SATOLINK transaction's amount is labelled "SL" but its fee "USDT". */
  lemma SatolinkUnitsDiffer(tx: Transaction, render: real -> string)
    requires tx.asset == "SATOLINK" && tx.fee.Some?
    ensures AmountUnit(tx.asset) == "SL"
    ensures FeeCell(tx, render) == render(tx.fee.value) + " USDT"
  {
  }

  /** `s.charAt(0).toUpperCase() + s.slice(1)`. */
  function StatusLabel(s: string): (r: string)
    ensures |r| == |s|
    ensures |s| > 0 ==> r[0] == UpperChar(s[0]) && r[1..] == s[1..]
  {
    if s == "" then "" else [UpperChar(s[0])] + s[1..]
  }

  /** Capitalising twice is capitalising once. */
  lemma StatusLabelIdempotent(s: string)
    ensures StatusLabel(StatusLabel(s)) == StatusLabel(s)
  {
  }

  const FallbackBadge := "bg-gray-100 text-gray-800"

  /** The status badge's class: one per known status, gray otherwise. */
  function StatusBadge(status: string): (r: string)
    ensures status == "completed" ==> r == "bg-green-500 text-green-900"
    ensures status == "pending" ==> r == "bg-yellow-500 text-gray-900"
    ensures status == "failed" ==> r == "bg-red-900 text-red-100"
    ensures r == FallbackBadge <==> status !in {"completed", "pending", "failed"}
  {
    var variants := map["completed" := "bg-green-500 text-green-900",
                         "pending" := "bg-yellow-500 text-gray-900",
                         "failed" := "bg-red-900 text-red-100"];
    if status in variants && variants[status] != "" then variants[status] else FallbackBadge
  }

  /** The name shown for the other party: the contact name if it is
      non-empty, the address otherwise. */
  function Counterparty(tx: Transaction): (r: string)
    ensures r == tx.address || (tx.contactName.Some? && tx.contactName.value != "" && r == tx.contactName.value)
    ensures tx.contactName.None? || tx.contactName == Some("") ==> r == tx.address
    ensures tx.contactName.Some? && tx.contactName.value != "" ==> r == tx.contactName.value
  {
    if tx.contactName.Some? && tx.contactName.value != "" then tx.contactName.value else tx.address
  }

  /** The name a row shows is part of the text the search looks in. */
  lemma CounterpartySearchable(tx: Transaction)
    ensures Contains(ToLower(SearchText(tx)), ToLower(Counterparty(tx)))
  {
    var name, note := OrEmpty(tx.contactName), OrEmpty(tx.note);
    if Counterparty(tx) == tx.address {
      assert SearchText(tx) == [] + tx.address + (" " + name + " " + note);
      ContainsLowerPart([], tx.address, " " + name + " " + note);
    } else {
      assert SearchText(tx) == (tx.address + " ") + name + (" " + note);
      ContainsLowerPart(tx.address + " ", name, " " + note);
    }
  }

  /** Typing the name a row shows, in any case, into the search box keeps
      that row on screen while both drop-downs are on "all". */
  lemma SearchCounterpartyFinds(txs: seq<Transaction>, tx: Transaction, term: string)
    requires tx in txs && ToLower(term) == ToLower(Counterparty(tx))
    ensures tx in Visible(txs, term, "all", "all")
  {
    CounterpartySearchable(tx);
  }
}
