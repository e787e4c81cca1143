/** The LNURL-pay form (src/app/lnurlPay.tsx): a description, a minimum and
    a maximum amount in sats, and the allowed comment length. A valid
    submission produces an `lnurlp:` link.

    The schema states the rule "maximum >= minimum" through a refinement
    callback that destructures `{ path, ctx }` from its second argument and
    reads `ctx.parent.minAmount`. The validation library calls a refinement
    callback with the value alone, so the callback throws a TypeError
    whenever it runs (whenever the maximum is a number), and the form never
    submits. `SubmitAsWritten` models the
    code as written; `Submit` models the stated rule, which the rest of the
    model uses. */
module LnurlPay {
  import opened Js
  import opened Text
  import opened Zod
  import Lnurl

  datatype PayForm = PayForm(description: Option<string>, minAmount: NumInput, maxAmount: NumInput, commentAllowed: NumInput)

  datatype PayErrors = PayErrors(
    description: Option<Message>,
    minAmount: Option<Message>,
    maxAmount: Option<Message>,
    commentAllowed: Option<Message>)

  const NoErrors := PayErrors(None, None, None, None)

  const MaxDescription: nat := 50
  const MaxCommentLength: real := 500.0

  /** What the comment-length input hands to the form: 0 for an empty box,
      otherwise `parseInt` of the text (NaN when it has no leading digits). */
  function CommentInput(text: string): NumInput {
    if text == "" then Number(0.0)
    else
      match ParseInt(text)
      case None => NaN
      case Some(n) => Number(n as real)
  }

  /** Clearing the box means 0; typed digits mean their value, so the
      comment length is valid exactly for 0 to 500. */
  lemma CommentInputOfDigits(text: string)
    requires IsDigits(text)
    ensures text == "" ==> CommentInput(text) == Number(0.0)
    ensures text != "" ==> CommentInput(text) == Number(ValueOf(text) as real)
    ensures CommentAllowed(CommentInput(text)).None? <==> text == "" || ValueOf(text) <= 500
  {
    if text != "" {
      ParseIntOfDigits(text);
    }
  }

  /** `z.coerce.number().min(0).max(500).default(0)`: an absent value is
      replaced by 0; fractions are allowed. */
  function CommentAllowed(v: NumInput): (r: Option<Message>)
    ensures r.None? <==> v.Missing? || (v.Number? && 0.0 <= v.value <= MaxCommentLength)
  {
    match v
    case Missing => None
    case NaN => Some(NotANumber)
    case Number(x) => Then(x >= 0.0, TooSmall(0.0), Then(x <= MaxCommentLength, TooBig(MaxCommentLength), None))
  }

  /** The stated cross-field rule: the maximum is not below the minimum. */
  predicate MaxAtLeastMin(f: PayForm) {
    f.minAmount.Number? && f.maxAmount.Number? && f.maxAmount.value >= f.minAmount.value
  }

  /** The maximum's own checks, then the cross-field rule, which runs only
      on a number. */
  function MaxAmount(f: PayForm): (r: Option<Message>)
    ensures r.None? <==> f.maxAmount.Number? && IsInteger(f.maxAmount.value) && f.maxAmount.value >= 1.0 && MaxAtLeastMin(f)
  {
    match f.maxAmount
    case Number(x) =>
      Then(IsInteger(x), NotAnInteger,
      Then(x > 0.0, NotPositive,
      Then(x >= 1.0, Custom("Maximum amount must be at least 1 sat"),
      Then(MaxAtLeastMin(f), Custom("Max amount must be greater than or equal to min amount"), None))))
    case _ => Some(NotANumber)
  }

  /** Field errors under the stated rule. */
  function Validate(f: PayForm): (r: PayErrors)
    ensures r.description.None? <==> f.description.Some? && 1 <= Utf16Length(f.description.value) <= MaxDescription
    ensures r.minAmount.None? <==> f.minAmount.Number? && IsInteger(f.minAmount.value) && f.minAmount.value >= 1.0
    ensures r.maxAmount.None? <==>
      && f.maxAmount.Number? && f.minAmount.Number?
      && IsInteger(f.maxAmount.value) && f.maxAmount.value >= 1.0 && f.maxAmount.value >= f.minAmount.value
    ensures r.commentAllowed.None? <==>
      f.commentAllowed.Missing? || (f.commentAllowed.Number? && 0.0 <= f.commentAllowed.value <= MaxCommentLength)
  {
    PayErrors(
      BoundedText(f.description, MaxDescription, "Description is required", "Description must be less than 50 characters"),
      PositiveInt(f.minAmount, "Minimum amount must be at least 1 sat"),
      MaxAmount(f),
      CommentAllowed(f.commentAllowed))
  }

  /** The length bound counts UTF-16 code units: 26 emoji are 26 characters
      but 52 units, and are refused as too long. */
  lemma EmojiDescriptionTooLong(f: PayForm)
    requires f.description == Some(seq(26, _ => '\U{1F600}'))
    ensures |f.description.value| <= MaxDescription
    ensures Validate(f).description == Some(Custom("Description must be less than 50 characters"))
  {
    assert Utf16Length(f.description.value) == 52;
  }

  datatype Outcome =
    | Rejected(errors: PayErrors)   // the form shows these errors
    | Generated(link: string)       // the link is shown to the user
    | Threw                         // validation threw; nothing is shown

  /** A whole number of sats that passed validation. */
  function Sats(v: NumInput): nat
    requires v.Number? && IsInteger(v.value) && v.value >= 1.0
  {
    v.value.Floor
  }

  /** Submitting the form under the stated rule. */
  function Submit(f: PayForm): (r: Outcome)
    ensures r.Generated? <==>
      && f.description.Some? && 1 <= Utf16Length(f.description.value) <= MaxDescription
      && f.minAmount.Number? && IsInteger(f.minAmount.value) && f.minAmount.value >= 1.0
      && f.maxAmount.Number? && IsInteger(f.maxAmount.value) && f.maxAmount.value >= f.minAmount.value
      && (f.commentAllowed.Missing? || (f.commentAllowed.Number? && 0.0 <= f.commentAllowed.value <= MaxCommentLength))
    ensures r.Generated? ==> Sats(f.minAmount) <= Sats(f.maxAmount)
    ensures r.Generated? ==>
      Lnurl.ParsePayLink(r.link) == Some(Lnurl.PayParts(Lnurl.Slug(f.description.value), Sats(f.minAmount), Sats(f.maxAmount)))
    ensures !r.Threw?
  {
    var e := Validate(f);
    if e == NoErrors then
      var link := Lnurl.PayLink(f.description.value, Sats(f.minAmount), Sats(f.maxAmount));
      Lnurl.PayLinkRoundTrip(f.description.value, Sats(f.minAmount), Sats(f.maxAmount));
      Generated(link)
    else Rejected(e)
  }

  /** Submitting the form as the code is written: as soon as the maximum is
      a number, its refinement runs and throws. */
  function SubmitAsWritten(f: PayForm): (r: Outcome)
    ensures f.maxAmount.Number? <==> r.Threw?
    ensures !r.Generated?
  {
    if f.maxAmount.Number? then Threw
    else Rejected(Validate(f))
  }

  /** The code as written never generates a link, for any input. */
  lemma AsWrittenNeverGenerates(f: PayForm)
    ensures SubmitAsWritten(f) != Submit(f) || Submit(f).Rejected?
  {
  }

  /** A concrete input on which the two differ: "Coffee" with amounts 1 to
      50000 and comment length 100 is a valid request under the stated rule,
      but as written the validation throws. */
  lemma AsWrittenDiffers()
    ensures var f := PayForm(Some("Coffee"), Number(1.0), Number(50000.0), Number(100.0));
      Submit(f).Generated? && SubmitAsWritten(f) == Threw
  {
    assert IsInteger(1.0) by { assert (1.0).Floor == 1; }
    assert IsInteger(50000.0) by { assert (50000.0).Floor == 50000; }
  }

  /** A maximum below the minimum is reported on the maximum field. */
  lemma MaxBelowMinRejected(f: PayForm)
    requires f.minAmount.Number? && f.maxAmount.Number?
    requires IsInteger(f.maxAmount.value) && f.maxAmount.value >= 1.0
    requires f.maxAmount.value < f.minAmount.value
    ensures Validate(f).maxAmount == Some(Custom("Max amount must be greater than or equal to min amount"))
    ensures Submit(f).Rejected?
  {
  }

  /** The values the form starts with. */
  const Defaults := PayForm(Some(""), Number(1.0), Number(50000.0), Number(100.0))

  /** The initial form only lacks a description. */
  lemma DefaultsNeedDescription()
    ensures Validate(Defaults) == PayErrors(Some(Custom("Description is required")), None, None, None)
  {
    assert IsInteger(1.0) by { assert (1.0).Floor == 1; }
    assert IsInteger(50000.0) by { assert (50000.0).Floor == 50000; }
  }
}
