/** The LNURL-withdraw form (src/app/lnurlWidthdraw.tsx): a description, the
    amount in sats, an expiry date and the number of uses. A valid submission
    produces an `lnurlw:` link built from the same slug as LNURL-pay. */
module LnurlWithdraw {
  import opened Js
  import opened Text
  import opened Zod
  import Lnurl

  datatype WithdrawForm = WithdrawForm(description: Option<string>, amount: NumInput, expiresAt: Option<string>, uses: NumInput)

  datatype WithdrawErrors = WithdrawErrors(
    description: Option<Message>,
    amount: Option<Message>,
    expiresAt: Option<Message>,
    uses: Option<Message>)

  const NoErrors := WithdrawErrors(None, None, None, None)

  const MaxDescription: nat := 50
  const MaxUses: real := 100.0

  /** `z.coerce.number().int().min(1).max(100).default(1)`: an absent value
      becomes 1, which passes. */
  function Uses(v: NumInput): (r: Option<Message>)
    ensures r.None? <==> v.Missing? || (v.Number? && IsInteger(v.value) && 1.0 <= v.value <= MaxUses)
  {
    match v
    case Missing => None
    case NaN => Some(NotANumber)
    case Number(x) => Then(IsInteger(x), NotAnInteger, Then(x >= 1.0, TooSmall(1.0), Then(x <= MaxUses, TooBig(MaxUses), None)))
  }

  function Validate(f: WithdrawForm): (r: WithdrawErrors)
    ensures r.description.None? <==> f.description.Some? && 1 <= Utf16Length(f.description.value) <= MaxDescription
    ensures r.amount.None? <==> f.amount.Number? && IsInteger(f.amount.value) && f.amount.value >= 1.0
    ensures r.expiresAt.None? <==> f.expiresAt.Some? && f.expiresAt.value != ""
    ensures r.uses.None? <==> f.uses.Missing? || (f.uses.Number? && IsInteger(f.uses.value) && 1.0 <= f.uses.value <= MaxUses)
    ensures f.description == Some("") ==> r.description == Some(Custom("Description is required"))
  {
    WithdrawErrors(
      BoundedText(f.description, MaxDescription, "Description is required", "Description must be less than 50 characters"),
      PositiveInt(f.amount, "Amount must be at least 1 sat"),
      NonEmptyText(f.expiresAt, "Expiration date is required"),
      Uses(f.uses))
  }

  datatype Outcome =
    | Rejected(errors: WithdrawErrors)  // the form shows these errors
    | Generated(link: string)           // the link is shown to the user

  /** Submitting the form: the link is generated exactly when every field
      passes, and the description's slug and the amount can be read back
      from it. */
  function Submit(f: WithdrawForm): (r: Outcome)
    ensures r.Generated? <==>
      && f.description.Some? && 1 <= Utf16Length(f.description.value) <= MaxDescription
      && f.amount.Number? && IsInteger(f.amount.value) && f.amount.value >= 1.0
      && f.expiresAt.Some? && f.expiresAt.value != ""
      && (f.uses.Missing? || (f.uses.Number? && IsInteger(f.uses.value) && 1.0 <= f.uses.value <= MaxUses))
    ensures r.Generated? ==> f.amount.value.Floor >= 1
    ensures r.Generated? ==>
      Lnurl.ParseWithdrawLink(r.link) == Some(Lnurl.WithdrawParts(Lnurl.Slug(f.description.value), f.amount.value.Floor))
    ensures r.Rejected? ==> r.errors != NoErrors
  {
    var e := Validate(f);
    if e == NoErrors then
      var amount: nat := f.amount.value.Floor;
      Lnurl.WithdrawLinkRoundTrip(f.description.value, amount);
      Generated(Lnurl.WithdrawLink(f.description.value, amount))
    else Rejected(e)
  }

  /** The values the form starts with; the expiry is the date a week from
      the moment the page opened, an input here. */
  function Defaults(weekFromNow: string): WithdrawForm {
    WithdrawForm(Some(""), Number(1000.0), Some(weekFromNow), Number(1.0))
  }

  /** The initial amount, expiry and number of uses pass; only the empty
      description stops the form. */
  lemma DefaultsNeedDescription(weekFromNow: string)
    requires weekFromNow != ""
    ensures Validate(Defaults(weekFromNow)) == WithdrawErrors(Some(Custom("Description is required")), None, None, None)
    ensures Submit(Defaults(weekFromNow)).Rejected?
  {
    assert IsInteger(1000.0) by { assert (1000.0).Floor == 1000; }
    assert IsInteger(1.0) by { assert (1.0).Floor == 1; }
  }

  /** Leaving the number of uses out is the same as asking for one use. */
  lemma UsesDefaultIsOne(f: WithdrawForm)
    requires f.uses.Missing?
    ensures Validate(f) == Validate(f.(uses := Number(1.0)))
  {
    assert IsInteger(1.0) by { assert (1.0).Floor == 1; }
  }
}
