/** The USDT-SL invoice form (src/app/usdtInvoices.tsx): an amount of
    USDT-SL, a description and an expiry date. The amount need not be whole.
    A valid submission produces a `taproot-assets:` invoice text stamped with
    the current time. */
module UsdtInvoices {
  import opened Js
  import opened Text
  import opened Zod

  const MinAmount: real := 1.0
  const MaxAmount: real := 1000000.0
  const MaxDescription: nat := 100

  datatype InvoiceForm = InvoiceForm(amount: NumInput, description: Option<string>, expiresAt: Option<string>)

  datatype InvoiceErrors = InvoiceErrors(amount: Option<Message>, description: Option<Message>, expiresAt: Option<Message>)

  const NoErrors := InvoiceErrors(None, None, None)

  /** `z.coerce.number().positive(..).min(1, ..).max(1000000, ..)`; no
      integer check. */
  function Amount(v: NumInput): (r: Option<Message>)
    ensures r.None? <==> v.Number? && MinAmount <= v.value <= MaxAmount
    ensures v.Number? && v.value <= 0.0 ==> r == Some(Custom("Amount must be positive"))
  {
    match v
    case Number(x) =>
      Then(x > 0.0, Custom("Amount must be positive"),
      Then(x >= MinAmount, Custom("Minimum amount is 1 USDT-SL"),
      Then(x <= MaxAmount, Custom("Maximum amount is 1,000,000 USDT-SL"), None)))
    case _ => Some(NotANumber)
  }

  function Validate(f: InvoiceForm): (r: InvoiceErrors)
    ensures r.amount.None? <==> f.amount.Number? && MinAmount <= f.amount.value <= MaxAmount
    ensures r.description.None? <==> f.description.Some? && 1 <= Utf16Length(f.description.value) <= MaxDescription
    ensures r.expiresAt.None? <==> f.expiresAt.Some? && f.expiresAt.value != ""
    ensures f.description == Some("") ==> r.description == Some(Custom("Description is required"))
  {
    InvoiceErrors(
      Amount(f.amount),
      BoundedText(f.description, MaxDescription, "Description is required", "Description must be less than 100 characters"),
      NonEmptyText(f.expiresAt, "Expiration date is required"))
  }

  const InvoicePrefix := "taproot-assets:usdt-sl-"
  const InvoiceSuffix := "u@satolink.app"

  /** `taproot-assets:usdt-sl-<timestamp>-<amount>u@satolink.app`. The
      millisecond timestamp is an input, and so is the amount's decimal
      text, whose rendering from a floating-point number is not modelled. */
  function Invoice(timestamp: nat, amountText: string): string {
    InvoicePrefix + (Dec(timestamp) + "-" + amountText) + InvoiceSuffix
  }

  /** Recovers the timestamp and the amount text from an invoice. The
      timestamp is read up to the first '-', so the amount text may contain
      any characters. */
  function ParseInvoice(invoice: string): (r: Option<(nat, string)>)
    ensures r.Some? ==> invoice == Invoice(r.value.0, r.value.1)
  {
    match Between(invoice, InvoicePrefix, InvoiceSuffix)
    case None => None
    case Some(m) =>
      match SplitFirst(m, '-')
      case None => None
      case Some((t, a)) =>
        match ParseDec(t)
        case None => None
        case Some(ts) => Some((ts, a))
  }

  lemma InvoiceRoundTrip(timestamp: nat, amountText: string)
    ensures ParseInvoice(Invoice(timestamp, amountText)) == Some((timestamp, amountText))
  {
    var m := Dec(timestamp) + "-" + amountText;
    BetweenOfJoin(InvoicePrefix, m, InvoiceSuffix);
    DecHasNoSeparator(timestamp, '-');
    SplitFirstOfJoin(Dec(timestamp), '-', amountText);
    ParseDecOfDec(timestamp);
  }

  datatype Outcome =
    | Rejected(errors: InvoiceErrors)
    | Generated(invoice: string)

  /** Submitting the form at time `now`, with `amountText` the amount as the
      page writes it. */
  function Submit(f: InvoiceForm, now: nat, amountText: string): (r: Outcome)
    ensures r.Generated? <==>
      && f.amount.Number? && MinAmount <= f.amount.value <= MaxAmount
      && f.description.Some? && 1 <= Utf16Length(f.description.value) <= MaxDescription
      && f.expiresAt.Some? && f.expiresAt.value != ""
    ensures r.Generated? ==> ParseInvoice(r.invoice) == Some((now, amountText))
    ensures r.Rejected? ==> r.errors != NoErrors
  {
    var e := Validate(f);
    if e == NoErrors then
      InvoiceRoundTrip(now, amountText);
      Generated(Invoice(now, amountText))
    else Rejected(e)
  }

  /** The values the form starts with; the expiry is tomorrow's date, an
      input here. */
  function Defaults(tomorrow: string): InvoiceForm {
    InvoiceForm(Number(100.0), Some(""), Some(tomorrow))
  }

  /** The initial amount and expiry pass; only the empty description stops
      the form. */
  lemma DefaultsNeedDescription(tomorrow: string)
    requires tomorrow != ""
    ensures Validate(Defaults(tomorrow)) == InvoiceErrors(None, Some(Custom("Description is required")), None)
  {
  }

  /** Fractional amounts inside the range are accepted. */
  lemma FractionAccepted()
    ensures Amount(Number(1.5)) == None
  {
  }
}
