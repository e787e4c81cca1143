/** The hand-written payment form (src/app/paymentForm.tsx): recipient,
    amount and description, a validation run on submit, per-field error
    clearing, and a "+" button that adds 100 sats. The amount is edited
    through the sats input, which only ever hands over digits. */
module PaymentForm {
  import opened Js
  import opened Text

  datatype FormData = FormData(recipient: string, amount: string, description: string)

  /** The error object: a field's entry is absent until validation sets it,
      and becomes "" when the user edits the field afterwards. */
  datatype Errors = Errors(recipient: Option<string>, amount: Option<string>)

  const NoErrors := Errors(None, None)

  datatype State = State(data: FormData, errors: Errors)

  const Initial := State(FormData("", "", ""), NoErrors)

  /** A field's message is shown when it is present and non-empty. */
  predicate Shown(e: Option<string>) {
    e.Some? && e.value != ""
  }

  // -----------------------------------------------------------------------
  // The recipient check `/\S+@\S+\.\S+/`, which is not anchored.

  predicate NonSpaceRun(s: string) {
    |s| > 0 && NoSpace(s)
  }

  /** `s[i..e]` is a run of non-space characters, '@' at `p`, a run, '.'
      at `q`, and a run, as the pattern reads. */
  predicate EmailMatchAt(s: string, i: int, p: int, q: int, e: int) {
    && 0 <= i < p < q < e <= |s|
    && NonSpaceRun(s[i..p]) && s[p] == '@'
    && NonSpaceRun(s[p + 1..q]) && s[q] == '.'
    && NonSpaceRun(s[q + 1..e])
  }

  /** The pattern matches somewhere in `s`. */
  ghost predicate MatchesEmailPattern(s: string) {
    exists i, p, q, e :: EmailMatchAt(s, i, p, q, e)
  }

  /** The shortest match at an '@' in `p` and a '.' in `q`: one non-space
      character before the '@', non-space characters up to a '.' that is not
      right after the '@', and one non-space character after it. The runs
      may contain '@' and '.'. */
  predicate ShortMatchAt(s: string, p: int, q: int) {
    && 0 < p && p + 1 < q && q + 1 < |s|
    && !IsSpace(s[p - 1]) && s[p] == '@'
    && NoSpace(s[p + 1..q]) && s[q] == '.'
    && !IsSpace(s[q + 1])
  }

  predicate LooksLikeEmail(s: string) {
    exists p, q | 0 <= p < q < |s| :: ShortMatchAt(s, p, q)
  }

  lemma ShortMatchIsMatch(s: string, p: int, q: int)
    requires ShortMatchAt(s, p, q)
    ensures EmailMatchAt(s, p - 1, p, q, q + 2)
  {
    assert s[p - 1..p] == [s[p - 1]];
    assert s[q + 1..q + 2] == [s[q + 1]];
  }

  lemma MatchHasShortMatch(s: string, i: int, p: int, q: int, e: int)
    requires EmailMatchAt(s, i, p, q, e)
    ensures ShortMatchAt(s, p, q)
  {
    assert s[p - 1] == s[i..p][p - 1 - i];
    assert s[q + 1] == s[q + 1..e][0];
  }

  lemma EmailPatternIff(s: string)
    ensures LooksLikeEmail(s) <==> MatchesEmailPattern(s)
  {
    if LooksLikeEmail(s) {
      var p, q :| 0 <= p < q < |s| && ShortMatchAt(s, p, q);
      ShortMatchIsMatch(s, p, q);
    }
    if MatchesEmailPattern(s) {
      var i, p, q, e :| EmailMatchAt(s, i, p, q, e);
      MatchHasShortMatch(s, i, p, q, e);
    }
  }

  // -----------------------------------------------------------------------
  // Validation

  function RecipientError(recipient: string): (r: Option<string>)
    ensures r.None? <==> Trim(recipient) != "" && LooksLikeEmail(recipient)
    ensures Trim(recipient) == "" ==> r == Some("Recipient email is required")
    ensures Trim(recipient) != "" && !LooksLikeEmail(recipient) ==> r == Some("Invalid email format")
  {
    if Trim(recipient) == "" then Some("Recipient email is required")
    else if !LooksLikeEmail(recipient) then Some("Invalid email format")
    else None
  }

  /** `!amount || parseInt(amount) <= 0`. A text without leading digits
      parses to NaN, and `NaN <= 0` is false, so such a text would pass; the
      form never holds one (see `Inv`). */
  function AmountError(amount: string): (r: Option<string>)
    ensures r.None? <==> amount != "" && (ParseInt(amount).None? || ParseInt(amount).value > 0)
    ensures r.Some? ==> r == Some("Amount must be a positive number")
  {
    if amount == "" || (ParseInt(amount).Some? && ParseInt(amount).value <= 0) then Some("Amount must be a positive number")
    else None
  }

  /** The validation run: the errors it records, and whether there were
      none. */
  function Validate(data: FormData): (r: (bool, Errors))
    ensures r.1 == Errors(RecipientError(data.recipient), AmountError(data.amount))
    ensures r.0 <==> r.1 == NoErrors
  {
    var e := Errors(RecipientError(data.recipient), AmountError(data.amount));
    (e == NoErrors, e)
  }

  /** For a digit string, the amount is accepted exactly when its value is
      positive; "000" is refused. */
  lemma AmountOfDigits(amount: string)
    requires IsDigits(amount)
    ensures AmountError(amount).None? <==> amount != "" && ValueOf(amount) > 0
  {
    if amount != "" {
      ParseIntOfDigits(amount);
    }
  }

  /** Submitting: validation replaces the errors, and the form's data is
      handed to the caller exactly when nothing was recorded. */
  function Submit(st: State): (r: (State, Option<FormData>))
    ensures r.0 == st.(errors := Validate(st.data).1)
    ensures r.1.Some? <==> RecipientError(st.data.recipient).None? && AmountError(st.data.amount).None?
    ensures r.1.Some? ==> r.1.value == st.data
  {
    var (ok, errors) := Validate(st.data);
    (st.(errors := errors), if ok then Some(st.data) else None)
  }

  // -----------------------------------------------------------------------
  // Editing

  datatype Field = Recipient | Description

  /** The recipient and description inputs: the named field takes the new
      text, and a shown error of that field is blanked. Description never
      has an error. */
  function HandleChange(st: State, field: Field, value: string): (r: State)
    ensures field.Recipient? ==> r.data == st.data.(recipient := value)
    ensures field.Description? ==> r.data == st.data.(description := value)
    ensures !Shown(r.errors.recipient) || (field.Description? && r.errors == st.errors)
    ensures field.Recipient? && Shown(st.errors.recipient) ==> r.errors.recipient == Some("")
    ensures r.errors.amount == st.errors.amount
    ensures field.Description? ==> r.errors == st.errors
    ensures field.Recipient? && !Shown(st.errors.recipient) ==> r.errors == st.errors
  {
    match field
    case Recipient =>
      var errors := if Shown(st.errors.recipient) then st.errors.(recipient := Some("")) else st.errors;
      State(st.data.(recipient := value), errors)
    case Description =>
      st.(data := st.data.(description := value))
  }

  /** The amount input: keeps the digits of what the sats input hands over
      and blanks a shown amount error. */
  function HandleAmountChange(st: State, raw: string): (r: State)
    ensures IsDigits(r.data.amount)
    ensures r.data == st.data.(amount := KeepDigits(raw))
    ensures !Shown(r.errors.amount) && r.errors.recipient == st.errors.recipient
  {
    var errors := if Shown(st.errors.amount) then st.errors.(amount := Some("")) else st.errors;
    State(st.data.(amount := KeepDigits(raw)), errors)
  }

  /** The "+" button: 100 on an empty amount, otherwise `parseInt(amount) +
      100` written back as text ("NaN" when the amount does not parse). */
  function Plus(st: State): (r: State)
    ensures r.errors == st.errors
    ensures r.data.recipient == st.data.recipient && r.data.description == st.data.description
  {
    var amount :=
      if st.data.amount == "" then "100"
      else match ParseInt(st.data.amount)
        case None => "NaN"
        case Some(v) => IntText(v + 100);
    st.(data := st.data.(amount := amount))
  }

  /** On a digit amount "+" adds exactly 100 to its value. */
  lemma PlusAddsHundred(st: State)
    requires IsDigits(st.data.amount)
    ensures IsDigits(Plus(st).data.amount)
    ensures st.data.amount == "" ==> Plus(st).data.amount == "100"
    ensures st.data.amount != "" ==> Plus(st).data.amount == Dec(ValueOf(st.data.amount) + 100)
    ensures ValueOf(Plus(st).data.amount) == (if st.data.amount == "" then 0 else ValueOf(st.data.amount)) + 100
  {
    if st.data.amount != "" {
      ParseIntOfDigits(st.data.amount);
    } else {
      assert Dec(100) == "100";
    }
  }

  /** The amount is always empty or digits: it starts empty, and every
      action keeps it so. */
  predicate Inv(st: State) {
    IsDigits(st.data.amount)
  }

  lemma InitialInv()
    ensures Inv(Initial)
  {
  }

  datatype Action =
    | Change(field: Field, value: string)
    | AmountChange(raw: string)
    | PlusClick
    | SubmitClick

  function Step(st: State, a: Action): State {
    match a
    case Change(field, value) => HandleChange(st, field, value)
    case AmountChange(raw) => HandleAmountChange(st, raw)
    case PlusClick => Plus(st)
    case SubmitClick => Submit(st).0
  }

  lemma StepPreservesInv(st: State, a: Action)
    requires Inv(st)
    ensures Inv(Step(st, a))
  {
    match a
    case Change(field, value) =>
      assert Step(st, a).data.amount == st.data.amount;
    case AmountChange(raw) =>
      assert Step(st, a).data.amount == KeepDigits(raw);
    case PlusClick =>
      PlusAddsHundred(st);
    case SubmitClick =>
      assert Step(st, a).data == st.data;
  }

  /** While the invariant holds, a submitted amount is a positive number of
      sats. */
  lemma SubmittedAmountPositive(st: State)
    requires Inv(st)
    ensures Submit(st).1.Some? ==> st.data.amount != "" && ValueOf(st.data.amount) > 0
  {
    AmountOfDigits(st.data.amount);
  }
}
