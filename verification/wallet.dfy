/** The wallet page (src/app/mySatolinkWallet.tsx): a send form, a receive
    form that produces a `satolink:` payment request shown as a QR code, the
    tab and QR-panel flags, and the status badge of the transfer table. */
module Wallet {
  import opened Js
  import opened Text
  import opened Zod

  const MaxDescription: nat := 100

  // -----------------------------------------------------------------------
  // Forms

  datatype ReceiveForm = ReceiveForm(amount: NumInput, description: Option<string>)
  datatype ReceiveErrors = ReceiveErrors(amount: Option<Message>, description: Option<Message>)

  datatype SendForm = SendForm(recipient: Option<string>, amount: NumInput, description: Option<string>)
  datatype SendErrors = SendErrors(recipient: Option<Message>, amount: Option<Message>, description: Option<Message>)

  function ValidateReceive(f: ReceiveForm): (r: ReceiveErrors)
    ensures r.amount.None? <==> f.amount.Number? && IsInteger(f.amount.value) && f.amount.value >= 1.0
    ensures r.description.None? <==> f.description.None? || Utf16Length(f.description.value) <= MaxDescription
  {
    ReceiveErrors(
      PositiveInt(f.amount, "Amount must be at least 1 sat"),
      OptionalText(f.description, MaxDescription, "Description must be less than 100 characters"))
  }

  /** `z.string().min(1, ..).email(..)`: the first failing check is reported,
      so an empty recipient reads "Recipient is required" even though it is
      not an e-mail address either. The e-mail check belongs to the
      validation library and is a parameter here. */
  function Recipient(r: Option<string>, isEmail: string -> bool): (e: Option<Message>)
    ensures e.None? <==> r.Some? && r.value != "" && isEmail(r.value)
    ensures r == Some("") ==> e == Some(Custom("Recipient is required"))
    ensures r.Some? && r.value != "" && !isEmail(r.value) ==> e == Some(Custom("Invalid email format"))
  {
    match r
    case None => Some(RequiredValue)
    case Some(s) => Then(s != "", Custom("Recipient is required"), Then(isEmail(s), Custom("Invalid email format"), None))
  }

  function ValidateSend(f: SendForm, isEmail: string -> bool): (r: SendErrors)
    ensures r.recipient.None? <==> f.recipient.Some? && f.recipient.value != "" && isEmail(f.recipient.value)
    ensures r.amount.None? <==> f.amount.Number? && IsInteger(f.amount.value) && f.amount.value >= 1.0
    ensures r.description.None? <==> f.description.None? || Utf16Length(f.description.value) <= MaxDescription
  {
    SendErrors(
      Recipient(f.recipient, isEmail),
      PositiveInt(f.amount, "Amount must be at least 1 sat"),
      OptionalText(f.description, MaxDescription, "Description must be less than 100 characters"))
  }

  /** The values the send form is reset to after a payment, which are also
      its initial values. */
  const SendReset := SendForm(Some(""), Number(1000.0), Some(""))

  datatype SendOutcome =
    | SendRejected(errors: SendErrors)  // the form keeps its values and shows errors
    | Sent(next: SendForm)              // the payment is reported and the form reset

  function SubmitSend(f: SendForm, isEmail: string -> bool): (r: SendOutcome)
    ensures r.Sent? <==>
      && f.recipient.Some? && f.recipient.value != "" && isEmail(f.recipient.value)
      && f.amount.Number? && IsInteger(f.amount.value) && f.amount.value >= 1.0
      && (f.description.None? || Utf16Length(f.description.value) <= MaxDescription)
    ensures r.Sent? ==> r.next == SendForm(Some(""), Number(1000.0), Some(""))
  {
    var e := ValidateSend(f, isEmail);
    if e == SendErrors(None, None, None) then Sent(SendReset) else SendRejected(e)
  }

  /** The reset form cannot be sent again as it is: it has no recipient,
      though its amount and description are acceptable. */
  lemma ResetNeedsRecipient(isEmail: string -> bool)
    ensures ValidateSend(SendReset, isEmail) == SendErrors(Some(Custom("Recipient is required")), None, None)
  {
    assert IsInteger(1000.0) by { assert (1000.0).Floor == 1000; }
  }

  // -----------------------------------------------------------------------
  // Payment requests

  const RequestPrefix := "satolink:"

  /** `satolink:<amount>:<timestamp>`, the text behind the receive QR code. */
  function PaymentRequest(amount: nat, timestamp: nat): string {
    RequestPrefix + (Dec(amount) + ":" + Dec(timestamp))
  }

  /** Reads amount and timestamp back from a payment request. */
  function ParsePaymentRequest(s: string): (r: Option<(nat, nat)>)
    ensures r.Some? ==> s == PaymentRequest(r.value.0, r.value.1)
  {
    if RequestPrefix <= s then
      var m := s[|RequestPrefix|..];
      assert s == RequestPrefix + m;
      match SplitFirst(m, ':')
      case None => None
      case Some((a, t)) =>
        match (ParseDec(a), ParseDec(t))
        case (Some(amount), Some(ts)) => Some((amount, ts))
        case _ => None
    else None
  }

  lemma PaymentRequestRoundTrip(amount: nat, timestamp: nat)
    ensures ParsePaymentRequest(PaymentRequest(amount, timestamp)) == Some((amount, timestamp))
  {
    var m := Dec(amount) + ":" + Dec(timestamp);
    assert (RequestPrefix + m)[|RequestPrefix|..] == m;
    DecHasNoSeparator(amount, ':');
    SplitFirstOfJoin(Dec(amount), ':', Dec(timestamp));
    ParseDecOfDec(amount);
    ParseDecOfDec(timestamp);
  }

  // -----------------------------------------------------------------------
  // Page state

  datatype Tab = SendTab | ReceiveTab

  /** The active tab, whether the QR panel is open, and the request it shows. */
  datatype Page = Page(tab: Tab, showQr: bool, qrData: string)

  const InitialPage := Page(SendTab, false, "")

  datatype Event =
    | SelectSend
    | SelectReceive
    | CloseQr
    | SubmitReceive(form: ReceiveForm, now: nat)

  /** One user action. The receive form is on screen only on the Receive
      tab, so submitting it from the Send tab changes nothing. An invalid
      receive form shows its errors and leaves the page flags alone. */
  function Step(p: Page, e: Event): (r: Page)
    ensures e.SelectReceive? ==> r == Page(ReceiveTab, false, p.qrData)
    ensures e.SelectSend? ==> r == p.(tab := SendTab)
    ensures e.CloseQr? ==> r == p.(showQr := false)
    ensures e.SubmitReceive? && p.tab == ReceiveTab && ValidateReceive(e.form) == ReceiveErrors(None, None) ==>
      && r.tab == ReceiveTab && r.showQr
      && ParsePaymentRequest(r.qrData) == Some((e.form.amount.value.Floor, e.now))
    ensures e.SubmitReceive? && (p.tab == SendTab || ValidateReceive(e.form) != ReceiveErrors(None, None)) ==> r == p
  {
    match e
    case SelectSend => p.(tab := SendTab)
    case SelectReceive => p.(tab := ReceiveTab, showQr := false)
    case CloseQr => p.(showQr := false)
    case SubmitReceive(f, now) =>
      if p.tab == ReceiveTab && ValidateReceive(f) == ReceiveErrors(None, None) then
        var amount: nat := f.amount.value.Floor;
        PaymentRequestRoundTrip(amount, now);
        p.(showQr := true, qrData := PaymentRequest(amount, now))
      else p
  }

  /** What holds of every reachable page: an open QR panel has something to
      show, and what it holds is always a readable payment request. */
  predicate PageInv(p: Page) {
    && (p.showQr ==> p.qrData != "")
    && (p.qrData != "" ==> ParsePaymentRequest(p.qrData).Some?)
  }

  lemma InitialPageInv()
    ensures PageInv(InitialPage)
  {
  }

  lemma StepPreservesInv(p: Page, e: Event)
    requires PageInv(p)
    ensures PageInv(Step(p, e))
  {
  }

  /** Switching back to Send does not close the QR panel: only choosing
      Receive or the close button does. */
  lemma SendTabKeepsQr(p: Page)
    requires p.showQr
    ensures Step(p, SelectSend).showQr
    ensures !Step(Step(p, SelectReceive), SelectSend).showQr
  {
  }

  // -----------------------------------------------------------------------
  // Transfer table

  const FallbackBadge := "bg-gray-500"

  /** The badge class of a transfer status: one of the three known statuses,
      or the gray fallback for anything else. */
  function StatusBadge(status: string): (r: string)
    ensures status == "pending" ==> r == "bg-yellow-500 text-black capitalize"
    ensures status == "completed" ==> r == "bg-green-500 capitalize"
    ensures status == "failed" ==> r == "bg-red-500 capitalize"
    ensures r == FallbackBadge <==> status !in {"pending", "completed", "failed"}
  {
    var colors := map["pending" := "bg-yellow-500 text-black capitalize",
                       "completed" := "bg-green-500 capitalize",
                       "failed" := "bg-red-500 capitalize"];
    if status in colors && colors[status] != "" then colors[status] else FallbackBadge
  }
}
