/** The account settings form (src/app/account.tsx): profile fields, a
    password change, two-factor switch and notification preference, with a
    cross-field rule that the new password is confirmed.

    The validation library runs an object-level rule only when no field
    check "aborted" the object: a missing required value or a value outside
    an enumeration aborts, while a too-short text or a failed e-mail or URL
    check only marks the object dirty. The e-mail and URL checks belong to
    the library and are parameters here. */
module Account {
  import opened Js
  import opened Zod

  datatype AccountForm = AccountForm(
    username: Option<string>,
    email: Option<string>,
    currentPassword: Option<string>,
    newPassword: Option<string>,
    confirmNewPassword: Option<string>,
    avatar: Option<string>,
    twoFactorEnabled: Option<bool>,
    notificationPreferences: Option<string>)

  datatype AccountErrors = AccountErrors(
    username: Option<Message>,
    email: Option<Message>,
    currentPassword: Option<Message>,
    newPassword: Option<Message>,
    confirmNewPassword: Option<Message>,
    avatar: Option<Message>,
    twoFactorEnabled: Option<Message>,
    notificationPreferences: Option<Message>)

  const NoErrors := AccountErrors(None, None, None, None, None, None, None, None)

  const PasswordMessage := "Password must be at least 8 characters."
  const MismatchMessage := "Passwords don't match"

  predicate IsPreference(s: string) {
    s == "all" || s == "transactions-only" || s == "none"
  }

  /** `z.string().min(n, message)`. */
  function MinText(s: Option<string>, min: nat, message: string): (r: Option<Message>)
    ensures r.None? <==> s.Some? && Utf16Length(s.value) >= min
    ensures s.None? <==> r == Some(RequiredValue)
  {
    match s
    case None => Some(RequiredValue)
    case Some(t) => Then(Utf16Length(t) >= min, Custom(message), None)
  }

  /** `z.string().min(8, ..).optional()`: absent is fine, present must be
      long enough (an emptied box is present and too short). */
  function OptionalPassword(s: Option<string>): (r: Option<Message>)
    ensures r.None? <==> s.None? || Utf16Length(s.value) >= 8
  {
    match s
    case None => None
    case Some(t) => Then(Utf16Length(t) >= 8, Custom(PasswordMessage), None)
  }

  /** A field check that aborts the object, so that the password rule does
      not run. */
  predicate Aborted(f: AccountForm) {
    || f.username.None?
    || f.email.None?
    || f.currentPassword.None?
    || f.twoFactorEnabled.None?
    || f.notificationPreferences.None?
    || !IsPreference(f.notificationPreferences.value)
  }

  /** The password rule: a non-empty new password must equal its
      confirmation; without one any confirmation passes. */
  predicate PasswordsMatch(f: AccountForm) {
    (f.newPassword.Some? && f.newPassword.value != "") ==> f.newPassword == f.confirmNewPassword
  }

  function Email(s: Option<string>, isEmail: string -> bool): (r: Option<Message>)
    ensures r.None? <==> s.Some? && isEmail(s.value)
  {
    match s
    case None => Some(RequiredValue)
    case Some(e) => Then(isEmail(e), Custom("Please enter a valid email address."), None)
  }

  /** `z.string().url().optional()`. */
  function Avatar(s: Option<string>, isUrl: string -> bool): (r: Option<Message>)
    ensures r.None? <==> s.None? || isUrl(s.value)
  {
    match s
    case None => None
    case Some(a) => Then(isUrl(a), NotAUrl, None)
  }

  function Preferences(s: Option<string>): (r: Option<Message>)
    ensures r.None? <==> s.Some? && IsPreference(s.value)
  {
    match s
    case None => Some(RequiredValue)
    case Some(p) => Then(IsPreference(p), NotInEnum, None)
  }

  /** The confirmation's error: its own length check comes first, then the
      password rule, which is reported on this field. */
  function Confirmation(f: AccountForm): (r: Option<Message>)
    ensures r.None? <==>
      (f.confirmNewPassword.None? || Utf16Length(f.confirmNewPassword.value) >= 8) && (Aborted(f) || PasswordsMatch(f))
    ensures (f.confirmNewPassword.None? || Utf16Length(f.confirmNewPassword.value) >= 8) && !Aborted(f) && !PasswordsMatch(f) ==>
      r == Some(Custom(MismatchMessage))
  {
    Then(OptionalPassword(f.confirmNewPassword).None?, Custom(PasswordMessage),
      Then(Aborted(f) || PasswordsMatch(f), Custom(MismatchMessage), None))
  }

  function Validate(f: AccountForm, isEmail: string -> bool, isUrl: string -> bool): (r: AccountErrors)
    ensures r.username.None? <==> f.username.Some? && Utf16Length(f.username.value) >= 2
    ensures r.email.None? <==> f.email.Some? && isEmail(f.email.value)
    ensures r.currentPassword.None? <==> f.currentPassword.Some? && Utf16Length(f.currentPassword.value) >= 8
    ensures r.newPassword.None? <==> f.newPassword.None? || Utf16Length(f.newPassword.value) >= 8
    ensures r.avatar.None? <==> f.avatar.None? || isUrl(f.avatar.value)
    ensures r.twoFactorEnabled.None? <==> f.twoFactorEnabled.Some?
    ensures r.notificationPreferences.None? <==> f.notificationPreferences.Some? && IsPreference(f.notificationPreferences.value)
    ensures r.confirmNewPassword == Confirmation(f)
  {
    AccountErrors(
      MinText(f.username, 2, "Username must be at least 2 characters."),
      Email(f.email, isEmail),
      MinText(f.currentPassword, 8, PasswordMessage),
      OptionalPassword(f.newPassword),
      Confirmation(f),
      Avatar(f.avatar, isUrl),
      if f.twoFactorEnabled.Some? then None else Some(RequiredValue),
      Preferences(f.notificationPreferences))
  }

  /** The form is saved exactly when every field passes and the new
      password, if any, is confirmed. */
  lemma ValidIff(f: AccountForm, isEmail: string -> bool, isUrl: string -> bool)
    ensures Validate(f, isEmail, isUrl) == NoErrors <==>
      && f.username.Some? && Utf16Length(f.username.value) >= 2
      && f.email.Some? && isEmail(f.email.value)
      && f.currentPassword.Some? && Utf16Length(f.currentPassword.value) >= 8
      && (f.newPassword.None? || Utf16Length(f.newPassword.value) >= 8)
      && (f.confirmNewPassword.None? || Utf16Length(f.confirmNewPassword.value) >= 8)
      && (f.avatar.None? || isUrl(f.avatar.value))
      && f.twoFactorEnabled.Some?
      && f.notificationPreferences.Some? && IsPreference(f.notificationPreferences.value)
      && PasswordsMatch(f)
  {
  }

  /** Without a new password, or with an empty one, the confirmation only
      has to pass its own length check. */
  lemma NoNewPasswordAnyConfirmation(f: AccountForm, isEmail: string -> bool, isUrl: string -> bool)
    requires f.newPassword.None? || f.newPassword == Some("")
    ensures Validate(f, isEmail, isUrl).confirmNewPassword.None? <==>
      f.confirmNewPassword.None? || Utf16Length(f.confirmNewPassword.value) >= 8
  {
  }

  /** An unconfirmed new password is reported exactly when no required
      field aborted the object. */
  lemma MismatchShownUnlessAborted(f: AccountForm, isEmail: string -> bool, isUrl: string -> bool)
    requires f.confirmNewPassword.Some? && Utf16Length(f.confirmNewPassword.value) >= 8
    requires !PasswordsMatch(f)
    ensures Validate(f, isEmail, isUrl).confirmNewPassword == if Aborted(f) then None else Some(Custom(MismatchMessage))
  {
  }

  /** When a required field is missing the password rule does not run, so a
      mismatch goes unreported until that field is filled in. */
  lemma MismatchHiddenWhileAborted(f: AccountForm, isEmail: string -> bool, isUrl: string -> bool, password: string)
    requires f.currentPassword.None?
    requires f.confirmNewPassword.Some? && Utf16Length(f.confirmNewPassword.value) >= 8
    requires !PasswordsMatch(f)
    ensures Validate(f, isEmail, isUrl).confirmNewPassword == None
    ensures Validate(f.(currentPassword := Some(password)), isEmail, isUrl).confirmNewPassword ==
      if f.username.Some? && f.email.Some? && f.twoFactorEnabled.Some? && f.notificationPreferences.Some?
         && IsPreference(f.notificationPreferences.value)
      then Some(Custom(MismatchMessage)) else None
  {
    MismatchShownUnlessAborted(f, isEmail, isUrl);
    MismatchShownUnlessAborted(f.(currentPassword := Some(password)), isEmail, isUrl);
  }

  /** The length bound counts UTF-16 code units, so a single emoji is a
      long enough username. */
  lemma EmojiUsernameAccepted(f: AccountForm, isEmail: string -> bool, isUrl: string -> bool)
    requires f.username == Some("\U{1F600}")
    ensures |f.username.value| == 1
    ensures Validate(f, isEmail, isUrl).username == None
  {
    assert Utf16Length("\U{1F600}") == 2;
  }

  /** The values the page starts with; there is no current password. */
  const Defaults := AccountForm(
    Some("satoshi_nakamoto"), Some("satoshi@satolink.example"), None, None, None,
    Some("https://github.com/shadcn.png"), Some(false), Some("all"))

  /** The initial values never validate as they are: the current password
      is missing, whatever the e-mail and URL checks say. */
  lemma DefaultsNeedCurrentPassword(isEmail: string -> bool, isUrl: string -> bool)
    ensures Validate(Defaults, isEmail, isUrl).currentPassword == Some(RequiredValue)
    ensures Validate(Defaults, isEmail, isUrl) != NoErrors
  {
  }
}
