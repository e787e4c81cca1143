# Satolink dashboard — a Dafny model of its forms, lists and links

This project models the logic inside the Satolink wallet dashboard, a React
front end. It covers the following parts:

- **Validation forms.** These are open-channel, LNURL-pay, LNURL-withdraw,
  the USDT-SL invoice, the account settings and the wallet's send and
  receive forms. The validation library keeps only the first failing check
  of each field as that field's error.
- **Generated texts.** These are the `lnurlp:` and `lnurlw:` links, the
  `taproot-assets:` invoice and the `satolink:` payment request. Each has a
  reader that recovers its parts.
- **The contact book.** This covers search, favourite star, delete, add and
  edit dialog, and the address pattern.
- **The transaction history.** This covers search and filters, clearing,
  and the row labels.
- **The sats amount input** and the hand-written payment form.
- **The shared list fetch.** Every path that goes wrong ends in an empty
  list. A 401 answer removes the stored token.
- **The settings page.** This covers loading, switches, limit texts and the
  save. The save writes the switches out as the texts "true" and "false".
- **The notifications page.**

Modules follow the source files:

- `Js` holds the JavaScript value model: truthiness, property lookup and a string's `.length`, which counts UTF-16 code units.
- `Text` holds the character and number helpers: `parseInt`, `String(n)`
  and `trim`.
- `Lists` holds filtering.
- `Zod` holds the validation-chain primitives.
- The remaining modules have one page each. `Lnurl` holds the link texts
  that two pages share.

The world around the code becomes explicit inputs. These are the current
time, the generated ids, the fetch response, the stored token, and the
validation library's e-mail and URL checks.

## Model

| member | source | states |
|---|---|---|
| Connections.Authorization | src/api/connections.ts:15 | The header is "Bearer " followed by the token. A missing token is written as "null". |
| Connections.RequestedKind | src/api/connections.ts:11 | Whatever kind is read back from a URL rebuilds that URL exactly. |
| Connections.ListRequestNamesKind | src/api/connections.ts:11-17 | The list request's URL names exactly the kind asked for. The header carries the stored token. |
| Connections.GetByType | src/api/connections.ts:6-42 | A 401 removes the token, and sends the router to /login when there is one. Any result other than the empty list comes from a body that is truthy with truthy `success` and truthy `[kind]`, and is that entry. Every accepted body yields its entry. |
| Connections.FailureLooksEmpty | src/api/connections.ts:25-40 | A failed fetch and a successful answer holding an empty list give the same result. A caller cannot tell them apart. |
| Connections.UnauthorizedWithoutRouter | src/api/connections.ts:19-26 | Without a router, a 401 still loses the token and still gives the empty list. |
| Connections.TokenAfter | src/api/connections.ts:19-24 | After a run of fetches the token is either unchanged or gone. It is gone exactly when it was already missing or some answer was a 401. |
| Connections.LoggedOutStaysOut | src/api/connections.ts:8-24 | After one 401, every later request carries "Bearer null". |
| Js.Utf16Length | src/app/lnurlPay.tsx:179-180 | The length a schema's `.min` and `.max` compare lies between the number of characters and twice it. It equals the number of characters when none lies outside the Basic Multilingual Plane, and is twice it when all do. |
| Js.Utf16LengthAppend | src/app/lnurlPay.tsx:179-180 | The length of a joined text is the sum of the lengths. |
| Zod.Then | src/app/channels.tsx:183-191 | A check chain passes exactly when this check and the rest pass. A failing check is the one reported. |
| Zod.PositiveInt | src/app/lnurlWidthdraw.tsx:183-187 | `coerce.number().int().positive().min(1)` passes exactly for whole numbers of at least 1. A missing value or NaN fails the type check. |
| Zod.BoundedText | src/app/lnurlPay.tsx:177-180 | A text passes exactly when its length in UTF-16 code units is between 1 and the maximum. The empty text reports the "required" message. |
| Zod.OptionalText | src/app/mySatolinkWallet.tsx:199-202 | An optional text passes when it is absent or no longer than the maximum, counted in UTF-16 code units. |
| Zod.NonEmptyText | src/app/lnurlWidthdraw.tsx:188 | A text passes exactly when it is present and non-empty. |
| Channels.Capacity | src/app/channels.tsx:180-191 | The capacity passes exactly for whole numbers from 1 to the balance constant of 1,000,000. |
| Channels.Validate | src/app/channels.tsx:182-199 | Each field's error is absent exactly under its rule: capacity in range, a node id of 66 hex characters starting "02" or "03", and a confirmation of true. An empty node id reports "Node ID is required". |
| Channels.ValidIff | src/app/channels.tsx:182-199 | The form is accepted if and only if all three field rules hold. |
| Channels.DefaultsRejected | src/app/channels.tsx:202-209 | The initial values have a valid capacity but an empty node id and no confirmation. |
| LnurlPay.CommentInputOfDigits | src/app/lnurlPay.tsx:195 | For a digit text, an empty box means 0. The comment length is valid exactly up to 500. |
| LnurlPay.CommentAllowed | src/app/lnurlPay.tsx:195 | The comment length passes when absent (default 0) or when it is between 0 and 500. Fractions are allowed. |
| LnurlPay.MaxAmount | src/app/lnurlPay.tsx:186-194 | The maximum passes exactly when it is a whole number of at least 1 and not below the minimum. |
| LnurlPay.Validate | src/app/lnurlPay.tsx:176-196 | Per-field pass conditions for the description (1 to 50 UTF-16 code units), minimum, maximum and comment length under the stated rule. |
| LnurlPay.EmojiDescriptionTooLong | src/app/lnurlPay.tsx:177-180 | 26 emoji are 26 characters but 52 UTF-16 code units, and are refused as too long. |
| LnurlPay.Submit | src/app/lnurlPay.tsx:209-216 | A link is generated exactly when the form is valid. Its minimum is not above its maximum. Slug, minimum and maximum can be read back from it. Submitting never throws. |
| LnurlPay.SubmitAsWritten | src/app/lnurlPay.tsx:186-194 | As written, validation throws exactly when the maximum is a number, and no link is ever generated. |
| LnurlPay.AsWrittenNeverGenerates | src/app/lnurlPay.tsx:186-194 | On every input, the code as written either differs from the stated rule or both reject. |
| LnurlPay.AsWrittenDiffers | src/app/lnurlPay.tsx:186-194 | "Coffee" with amounts 1 to 50000 and comment length 100 is valid under the stated rule, but as written it throws. |
| LnurlPay.MaxBelowMinRejected | src/app/lnurlPay.tsx:190-193 | A maximum below the minimum is reported on the maximum field with the schema's message. |
| LnurlPay.DefaultsNeedDescription | src/app/lnurlPay.tsx:199-207 | The initial values fail only on the empty description. |
| Lnurl.Emit | src/app/lnurlPay.tsx:214 | One character of the slug rewrite writes at most one character, and never white space. |
| Lnurl.CollapseFacts | src/app/lnurlPay.tsx:214 | Replacing white-space runs leaves no white space, does not lengthen the text and adds no upper case. |
| Lnurl.Slug | src/app/lnurlPay.tsx:212-214 | The slug has no white space and no upper case, and is no longer than the description. |
| Lnurl.CollapseNoSpace | src/app/lnurlPay.tsx:214 | Text without white space passes the run replacement unchanged. |
| Lnurl.SlugIdempotent | src/app/lnurlWidthdraw.tsx:208-210 | The slug of a slug is itself. |
| Lnurl.CollapseAppend | src/app/lnurlPay.tsx:214 | The run replacement works piece by piece, carrying whether the text so far ended in a run. |
| Lnurl.CollapseRun | src/app/lnurlPay.tsx:214 | A whole run of white space becomes one '-', or nothing when it continues a run. |
| Lnurl.SlugOfWords | src/app/lnurlPay.tsx:212-214 | Two words around any run of white space become the lower-cased words joined by one '-'. |
| Lnurl.TaggedNumber | src/app/lnurlPay.tsx:214-215 | A number read after a tag such as "max" rebuilds the text it was read from. |
| Lnurl.ParseMinPart | src/app/lnurlPay.tsx:214 | Reading `<slug>-min<n>` from the right rebuilds the text. |
| Lnurl.ParsePayBody | src/app/lnurlPay.tsx:214-216 | Reading `<slug>-min<n>-max<m>` from the right rebuilds the text. |
| Lnurl.ParsePayLink | src/app/lnurlPay.tsx:212-216 | Whatever the reader recovers from an `lnurlp:` link rebuilds the link. |
| Lnurl.PayLink | src/app/lnurlPay.tsx:212-216 | The generated `lnurlp:` link reads back as the description's slug, the minimum and the maximum. The text itself is pinned only by this round trip and the reader's rebuild property. |
| Lnurl.PayTextRoundTrip | src/app/lnurlPay.tsx:212-216 | A pay link built from any slug, even one containing '-', reads back as that slug and the two amounts. |
| Lnurl.PayLinkRoundTrip | src/app/lnurlPay.tsx:212-216 | Every generated LNURL-pay link reads back as its slug, minimum and maximum, even when the slug contains '-'. |
| Lnurl.ParseWithdrawBody | src/app/lnurlWidthdraw.tsx:208-210 | Reading `<slug>-<amount>` at its last '-' rebuilds the text. |
| Lnurl.ParseWithdrawLink | src/app/lnurlWidthdraw.tsx:208-210 | Whatever the reader recovers from an `lnurlw:` link rebuilds the link. |
| Lnurl.WithdrawLink | src/app/lnurlWidthdraw.tsx:208-210 | The generated `lnurlw:` link reads back as the description's slug and the amount. The text itself is pinned only by this round trip and the reader's rebuild property. |
| Lnurl.WithdrawTextRoundTrip | src/app/lnurlWidthdraw.tsx:208-210 | A withdraw link built from any slug reads back as that slug and the amount. |
| Lnurl.WithdrawLinkRoundTrip | src/app/lnurlWidthdraw.tsx:208-210 | Every generated LNURL-withdraw link reads back as its slug and amount. |
| LnurlWithdraw.Uses | src/app/lnurlWidthdraw.tsx:189 | The number of uses passes when absent (default 1) or when it is a whole number from 1 to 100. |
| LnurlWithdraw.Validate | src/app/lnurlWidthdraw.tsx:178-190 | Per-field pass conditions for the description (1 to 50 UTF-16 code units), amount, expiry and uses. |
| LnurlWithdraw.Submit | src/app/lnurlWidthdraw.tsx:205-210 | A link is generated exactly when the form is valid. Slug and amount read back from it. A rejection always carries an error. |
| LnurlWithdraw.DefaultsNeedDescription | src/app/lnurlWidthdraw.tsx:193-203 | With any non-empty expiry date, the initial values fail only on the empty description. |
| LnurlWithdraw.UsesDefaultIsOne | src/app/lnurlWidthdraw.tsx:189 | Leaving uses out validates like asking for one use. |
| UsdtInvoices.Amount | src/app/usdtInvoices.tsx:175-179 | The amount passes exactly between 1 and 1,000,000, fractions included. A non-positive amount reports "Amount must be positive". |
| UsdtInvoices.Validate | src/app/usdtInvoices.tsx:174-185 | Per-field pass conditions for the amount, description (1 to 100 UTF-16 code units) and expiry. |
| UsdtInvoices.ParseInvoice | src/app/usdtInvoices.tsx:202-204 | Whatever is read from an invoice rebuilds it. |
| UsdtInvoices.Invoice | src/app/usdtInvoices.tsx:202-204 | The `taproot-assets:` invoice text. It carries no contract of its own; its meaning is pinned by InvoiceRoundTrip, where it reads back as timestamp and amount text, and by ParseInvoice, where whatever is read rebuilds it. |
| UsdtInvoices.InvoiceRoundTrip | src/app/usdtInvoices.tsx:202-204 | Every invoice reads back as its timestamp and amount text. |
| UsdtInvoices.Submit | src/app/usdtInvoices.tsx:199-204 | An invoice is generated exactly when the form is valid. It carries the submission time and the amount. |
| UsdtInvoices.DefaultsNeedDescription | src/app/usdtInvoices.tsx:187-197 | The initial values fail only on the empty description. |
| UsdtInvoices.FractionAccepted | src/app/usdtInvoices.tsx:175-179 | 1.5 USDT-SL is accepted, because the amount has no integer check. |
| Wallet.ValidateReceive | src/app/mySatolinkWallet.tsx:193-203 | The receive amount must be a whole number of at least 1. The description is optional, up to 100 UTF-16 code units. |
| Wallet.Recipient | src/app/mySatolinkWallet.tsx:206-209 | The recipient passes exactly when it is non-empty and an e-mail. The empty recipient reports "Recipient is required" before the e-mail check. |
| Wallet.ValidateSend | src/app/mySatolinkWallet.tsx:205-219 | Per-field pass conditions of the send form; the description is optional, up to 100 UTF-16 code units. |
| Wallet.SubmitSend | src/app/mySatolinkWallet.tsx:271-295 | A payment is made exactly when the send form is valid. The form is then reset to its initial values. |
| Wallet.ResetNeedsRecipient | src/app/mySatolinkWallet.tsx:291-295 | The reset form fails only on the empty recipient. |
| Wallet.ParsePaymentRequest | src/app/mySatolinkWallet.tsx:243-247 | Whatever is read from a `satolink:` request rebuilds it. |
| Wallet.PaymentRequest | src/app/mySatolinkWallet.tsx:245 | The `satolink:<amount>:<time>` request text. It carries no contract of its own; its meaning is pinned by PaymentRequestRoundTrip, where it reads back as amount and time, and by ParsePaymentRequest, where whatever is read rebuilds it. |
| Wallet.PaymentRequestRoundTrip | src/app/mySatolinkWallet.tsx:243-247 | Every payment request reads back as its amount and timestamp. |
| Wallet.Step | src/app/mySatolinkWallet.tsx:222-359 | Choosing Receive closes the QR panel. A valid receive submission opens it on a request that reads back as the amount and time. An invalid one, or one made on the Send tab, changes nothing. |
| Wallet.StepPreservesInv | src/app/mySatolinkWallet.tsx:222-359 | Every action keeps the QR panel consistent: an open panel has a readable request to show. |
| Wallet.SendTabKeepsQr | src/app/mySatolinkWallet.tsx:344-359 | Going back to Send leaves the QR panel open. Only choosing Receive or closing the panel shuts it. |
| Wallet.StatusBadge | src/app/mySatolinkWallet.tsx:58-62 | Each known transfer status has its class. Exactly the other statuses get the gray fallback. |
| Account.MinText | src/app/account.tsx:31-39 | A required text passes exactly when present and at least the minimum in UTF-16 code units. Absent is the type error. |
| Account.OptionalPassword | src/app/account.tsx:40-51 | An optional password passes when absent or at least 8 UTF-16 code units. The empty string fails. |
| Account.Email | src/app/account.tsx:34-36 | The e-mail passes exactly when present and accepted by the library's check. |
| Account.Avatar | src/app/account.tsx:52 | The avatar passes when absent or a URL. |
| Account.Preferences | src/app/account.tsx:54 | The preference passes exactly for "all", "transactions-only" or "none". |
| Account.Confirmation | src/app/account.tsx:46-66 | The confirmation's error is absent exactly when its own length check passes and the password rule holds or was skipped. When the rule runs and fails, the mismatch message is reported. |
| Account.Validate | src/app/account.tsx:29-67 | Per-field pass conditions of the account form. The confirmation carries the cross-field rule. |
| Account.ValidIff | src/app/account.tsx:29-67 | The form is accepted if and only if every field passes and a non-empty new password equals its confirmation. |
| Account.NoNewPasswordAnyConfirmation | src/app/account.tsx:56-66 | Without a new password, any confirmation of valid length passes. |
| Account.MismatchShownUnlessAborted | src/app/account.tsx:56-66 | An unconfirmed new password is reported on the confirmation exactly when no required field aborted the object. |
| Account.MismatchHiddenWhileAborted | src/app/account.tsx:56-66 | While the current password is missing, a password mismatch is not reported. Once that field is filled in it is, if the other required fields are there. |
| Account.EmojiUsernameAccepted | src/app/account.tsx:31 | A one-character emoji username is two UTF-16 code units and passes the minimum of 2. |
| Account.DefaultsNeedCurrentPassword | src/app/account.tsx:72-78 | The initial values never validate: the current password is missing. |
| AddressBook.Search | src/app/addressBook.tsx:77-81 | The shown contacts are, in order, exactly those whose name and address contain the term, ignoring case. Each kept contact appears as often as in the list. |
| AddressBook.SearchEmpty | src/app/addressBook.tsx:77-81 | An empty search shows every contact. |
| AddressBook.SearchIgnoresCase | src/app/addressBook.tsx:77-81 | Searching for the lower-cased term shows the same contacts. |
| AddressBook.ToggleFavorite | src/app/addressBook.tsx:83-91 | Exactly the contacts with the id change, and only in their star. |
| AddressBook.ToggleFavoriteTwice | src/app/addressBook.tsx:83-91 | Starring twice restores the list. |
| AddressBook.Delete | src/app/addressBook.tsx:99-101 | What remains is, in order, exactly the contacts with another id, each as often as in the list. |
| AddressBook.DeleteAbsent | src/app/addressBook.tsx:99-101 | Deleting an absent id changes nothing. |
| AddressBook.DeleteIdempotent | src/app/addressBook.tsx:99-101 | A second delete of the same id changes nothing. |
| AddressBook.AddNew | src/app/addressBook.tsx:103-113 | "Add" opens the dialog in add mode on an empty, unstarred contact without touching the list. |
| AddressBook.Edit | src/app/addressBook.tsx:93-97 | "Edit" opens the dialog in edit mode on that contact without touching the list. |
| AddressBook.Replace | src/app/addressBook.tsx:116-119 | Saving an edit keeps the length and ids. Every contact with the edited id becomes the saved contact, and the others are left alone. |
| AddressBook.ReplaceIdempotent | src/app/addressBook.tsx:116-119 | Saving the same edit twice equals saving it once. |
| AddressBook.ReplaceUpdatesOne | src/app/addressBook.tsx:116-119 | With ids unique, an edit is the update of the one position holding that id. |
| AddressBook.ReplaceAbsent | src/app/addressBook.tsx:116-119 | Editing a contact whose id is no longer in the list changes nothing. |
| AddressBook.DeleteUndoesReplace | src/app/addressBook.tsx:99-119 | An edit touches only its own id: deleting that id after the edit gives the same list as deleting it before. |
| AddressBook.Append | src/app/addressBook.tsx:120-128 | Saving a new contact keeps the old list as a prefix and appends the contact under the new id. |
| AddressBook.DeleteUndoesAppend | src/app/addressBook.tsx:99-128 | Deleting the fresh id of an added contact gives the old list back. |
| AddressBook.Save | src/app/addressBook.tsx:115-130 | Save closes the dialog. In edit mode each contact with the saved id becomes the saved contact and the others stay. Otherwise the list is the old list followed by the contact under the new id. |
| AddressBook.SaveEditThenLookup | src/app/addressBook.tsx:115-119 | After saving an edit, the positions that held its id hold the saved contact. |
| AddressBook.SaveThenDelete | src/app/addressBook.tsx:99-130 | Deleting the fresh id after an add gives the old list back. After an edit, deleting the edited id gives what deleting it before would have. |
| AddressBook.HandleChange | src/app/addressBook.tsx:265-268 | Typing changes only the named field. |
| AddressBook.NoteText | src/app/addressBook.tsx:303 | The note input shows the note, or nothing. |
| AddressBook.AddressPatternIff | src/app/addressBook.tsx:288-297 | The direct address check holds if and only if the whole text matches `^[^@\s]+@[^@\s]+\.[^@\s]+$`. |
| AddressBook.AddressToPattern | src/app/addressBook.tsx:288-297 | An accepted address matches the pattern. |
| AddressBook.PatternToAddress | src/app/addressBook.tsx:288-297 | A text matching the pattern is accepted. |
| AddressBook.NoDotRefused | src/app/addressBook.tsx:288-297 | An address without a '.' after its '@' is refused. |
| AddressBook.CanSubmit | src/app/addressBook.tsx:270-297 | The browser lets the dialog submit exactly when the name is non-empty and the address matches the pattern. |
| AddressBook.Submit | src/app/addressBook.tsx:270-273 | A submittable form is saved; any other leaves the book as it was. |
| AddressBook.SubmitKeepsAddressesValid | src/app/addressBook.tsx:115-130 | If every contact's address matches the pattern, it still does after a dialog submit, in add and in edit mode. |
| Transactions.OrEmpty | src/app/transactions.tsx:103-105 | An absent contact name or note searches as the empty text. |
| Transactions.Visible | src/app/transactions.tsx:102-111 | The shown rows are, in order, exactly those matching the search, ignoring case, and both drop-downs. Each shown row appears as often as in the list. |
| Transactions.VisibleUnfiltered | src/app/transactions.tsx:102-111 | An empty search with both filters on "all" shows every transaction. |
| Transactions.AssetNarrows | src/app/transactions.tsx:108 | Picking an asset shows an order-preserving part of what "all" shows. |
| Transactions.StatusNarrows | src/app/transactions.tsx:109 | Picking a status shows an order-preserving part of what "all" shows. |
| Transactions.DeleteAll | src/app/transactions.tsx:113-116 | Clearing empties the list and closes the dialog. The search and filters are kept. |
| Transactions.DeleteAllShowsNothing | src/app/transactions.tsx:113-116 | After clearing, no filter shows anything. |
| Transactions.AmountUnit | src/app/transactions.tsx:246-250 | BTC-LN shows "BTC", USDT-SL shows "USDT", and anything else shows "SL". |
| Transactions.FeeCell | src/app/transactions.tsx:277-281 | The fee cell is "-" exactly without a fee. Otherwise it is the fee with "BTC" for BTC-LN and "USDT" for everything else. |
| Transactions.SatolinkUnitsDiffer | src/app/transactions.tsx:246-281 | A SATOLINK row's amount is in "SL" but its fee is in "USDT". |
| Transactions.StatusLabel | src/app/transactions.tsx:272-273 | The label upper-cases the first character and keeps the rest. |
| Transactions.StatusLabelIdempotent | src/app/transactions.tsx:272-273 | Capitalising twice is capitalising once. |
| Transactions.StatusBadge | src/app/transactions.tsx:118-125 | Each known status has its class. Exactly the others get the gray fallback. |
| Transactions.Counterparty | src/app/transactions.tsx:254 | The row shows the contact name when it is non-empty, and the address otherwise. |
| Transactions.CounterpartySearchable | src/app/transactions.tsx:102-107 | The name a row shows is part of the text the search looks in, after lower-casing. |
| Transactions.SearchCounterpartyFinds | src/app/transactions.tsx:102-111 | Searching for the name a row shows, in any case, keeps that row on screen. |
| SatsInput.HandleChange | src/app/satsInput.tsx:66-69 | The parent receives only digits: the typed digits, in order and all of them. |
| SatsInput.RemoveCommas | src/app/satsInput.tsx:61-64 | Removing the separators leaves no ',' and never lengthens the text. |
| SatsInput.GroupedAppend | src/app/satsInput.tsx:63 | Appending ',' and three digits to a grouped numeral keeps it grouped. |
| SatsInput.GroupWellGrouped | src/app/satsInput.tsx:63 | en-US grouping puts a ',' exactly every three digits from the right. |
| SatsInput.RemoveCommasGroup | src/app/satsInput.tsx:63 | Removing the separators from a grouping gives the digits back. |
| SatsInput.FormattedValue | src/app/satsInput.tsx:61-64 | The rendering is empty exactly when the value has no digits. Otherwise it is well grouped and ungroups to the value's digits without leading zeros. |
| SatsInput.NoDigitsFormatEmpty | src/app/satsInput.tsx:62-63 | A value with no digits renders as nothing. |
| SatsInput.FormattedNumberRoundTrip | src/app/satsInput.tsx:61-64 | A number's rendering, ungrouped and read back, is that number. |
| SatsInput.DisplayValue | src/app/satsInput.tsx:80-84 | An empty value shows nothing. A focused field shows the raw value. An unfocused field shows the grouped rendering. |
| SatsInput.FocusShowsRaw | src/app/satsInput.tsx:80-81 | Focusing shows the raw value. |
| SatsInput.PlaceholderZero | src/app/satsInput.tsx:57 | The default placeholder "0" renders as "0". |
| SatsInput.FormattedCanonical | src/app/satsInput.tsx:61-64 | A numeral without leading zeros renders as its own grouping. |
| PaymentForm.EmailPatternIff | src/app/paymentForm.tsx:22 | The direct recipient check holds if and only if `\S+@\S+\.\S+` matches somewhere in the text. |
| PaymentForm.ShortMatchIsMatch | src/app/paymentForm.tsx:22 | A shortest match is a match of the pattern. |
| PaymentForm.MatchHasShortMatch | src/app/paymentForm.tsx:22 | Every match contains a shortest match at the same '@' and '.'. |
| PaymentForm.RecipientError | src/app/paymentForm.tsx:20-24 | A blank recipient is "required". A non-blank one that does not look like an e-mail is "Invalid email format". Otherwise there is no error. |
| PaymentForm.AmountError | src/app/paymentForm.tsx:26-28 | The amount is refused exactly when empty or when it parses to a number of at most 0. |
| PaymentForm.Validate | src/app/paymentForm.tsx:17-32 | Validation records both fields' errors and succeeds exactly when none were recorded. |
| PaymentForm.AmountOfDigits | src/app/paymentForm.tsx:26-28 | A digit amount is accepted exactly when it is non-empty and its value is positive. |
| PaymentForm.Submit | src/app/paymentForm.tsx:63-68 | Submitting replaces the errors and hands over the data exactly when both fields pass. |
| PaymentForm.HandleChange | src/app/paymentForm.tsx:34-48 | Editing a field changes only that field and blanks its shown error. The other error is kept. |
| PaymentForm.HandleAmountChange | src/app/paymentForm.tsx:50-61 | The amount keeps only digits. Its shown error is blanked and the recipient's is kept. |
| PaymentForm.Plus | src/app/paymentForm.tsx:109-114 | "+" changes only the amount and leaves the errors alone. |
| PaymentForm.PlusAddsHundred | src/app/paymentForm.tsx:109-114 | On a digit amount, "+" yields digits whose value is 100 more, and "100" from empty. |
| PaymentForm.InitialInv | src/app/paymentForm.tsx:9-13 | The form starts with a digit amount. |
| PaymentForm.Step | src/app/paymentForm.tsx:34-114 | One user action dispatched to the page's handler: field edit, amount edit, "+" or submit. It carries no contract of its own; StepPreservesInv and SubmittedAmountPositive state what every action keeps. |
| PaymentForm.StepPreservesInv | src/app/paymentForm.tsx:34-114 | Every action keeps the amount a digit string. |
| PaymentForm.SubmittedAmountPositive | src/app/paymentForm.tsx:26-66 | In every reachable state, submitted data has a positive amount. |
| Settings.Read | src/app/settings.tsx:89 | Reading a field gives its value, or undefined when it is absent. |
| Settings.TruthText | src/app/settings.tsx:89 | A value is written "true" exactly when truthy and "false" otherwise. |
| Settings.Convert | src/app/settings.tsx:88-90 | The loop adds every listed field and writes it as its truth text. Every other field is unchanged. |
| Settings.Stringify | src/app/settings.tsx:78-90 | The save converts the seven switch fields to "true" or "false", absent ones included, and leaves the rest. |
| Settings.FlipAfterSave | src/app/settings.tsx:88-90 | After a save each switch holds a truthy text, so the next save sends "true" and the next flip turns it off. |
| Settings.SecondSaveAllTrue | src/app/settings.tsx:88-90 | Saving twice sends every switch as "true", whatever it was. |
| Settings.AbsentSentFalse | src/app/settings.tsx:88-90 | A listed switch the object lacks is sent as "false". |
| Settings.DefaultsPushOff | src/store/settings.ts:3-13 | The stored defaults lack the push switch, so it is sent as "false". |
| Settings.DefaultsTwoFactorOff | src/store/settings.ts:3-13 | The default two-factor switch is sent as "false". |
| Settings.Save | src/app/settings.tsx:69-101 | Without a token the save goes to login and changes nothing. Otherwise it converts the stored object and posts exactly that to the set URL with the token. |
| Settings.SaveNotice | src/app/settings.tsx:103-111 | A `null` answer throws on `result.success` and shows no notice. Otherwise the success notice appears exactly when `success` is truthy, and the error notice otherwise. |
| Settings.SaveNoticeOnlySuccess | src/app/settings.tsx:103-111 | Object answers that agree on `success` show the same notice. The success notice needs a truthy `success`. |
| Settings.SaveNoticeNonObject | src/app/settings.tsx:103-111 | A text, number, boolean or array answer has no `success` and shows the error notice. |
| Settings.Flip | src/app/settings.tsx:244-251 | A switch sets its field to the negated truthiness and changes nothing else. |
| Settings.FlipTwice | src/app/settings.tsx:244-251 | Two flips restore the field's truthiness, as a boolean. |
| Settings.SetText | src/app/settings.tsx:139-145 | A limit input sets its field to the typed text and changes nothing else. |
| Settings.SetTextKeepsOthers | src/app/settings.tsx:139-145 | Typing into one field leaves every other field as it reads. |
| Settings.FailedLoadClearsSettings | src/app/settings.tsx:54-62 | A failed or unauthorised load leaves an empty list in place of the settings, on which every switch reads as off. |
| Notifications.TypeBadge | src/app/notifications.tsx:14-22 | Each known type has its class. Exactly the other types get the gray fallback. |
| Notifications.MediumIcon | src/app/notifications.tsx:24-35 | Mail exactly for e-mail, the phone exactly for SMS, and the bell for everything else. |
| Notifications.Displayed | src/app/notifications.tsx:76 | The cards are the stored list in reverse order. |
| Notifications.DisplayedTwice | src/app/notifications.tsx:76 | Reversing the display order gives the stored order back. |
| Notifications.NewestFirst | src/app/notifications.tsx:76 | The last stored notification is shown first, followed by the earlier display. |
| Notifications.Render | src/app/notifications.tsx:76-133 | A card is highlighted exactly when its status is missing, empty or "unread". The notice shows exactly for no cards. |
| Notifications.EmptyNoticeIff | src/app/notifications.tsx:131-133 | "No notifications." is shown if and only if the list is empty. |
| Notifications.Mount | src/app/notifications.tsx:41-49 | On mount the list becomes exactly the fetched list, and the token follows the fetch. |
| Notifications.FailedMountShowsNotice | src/app/notifications.tsx:41-49 | A failed or unauthorised fetch empties the page, which then shows the notice. |
| Notifications.MountShowsServerList | src/app/notifications.tsx:41-49 | A successful non-empty answer replaces the list wholesale. |

## Left out

- Rendering is left out: the JSX layout, the data-table widgets, toasts and the confetti. Only the texts and classes the code computes are modelled.
- The socket context, login and sign-up, the routes, the BTC invoice page, the help page and the static sample data are not part of this model.
- The validation library's e-mail and URL checks are parameters (`isEmail`, `isUrl`). Their exact grammar is library code.
- The current time (`Date.now()`) is a parameter: the submission timestamp and the date-based default expiries. So are the random contact ids, the fetch response and the stored token. Local storage is a value passed in and returned.
- Numbers are exact reals and integers. IEEE rounding, `Infinity` and precision above 2^53 are not modelled.
- UsdtInvoices.Submit: the amount's text inside the invoice is an input (`amountText`), because JavaScript's number-to-text rendering is not modelled.
- Transactions.FeeCell: the fee's text is written by a `render` parameter for the same reason.
- Case-insensitive search maps only ASCII letters. `toLowerCase` on other scripts is not modelled.
- Property lookup does not model inherited prototype keys such as `constructor`.
- Settings.FailedLoadClearsSettings: after a failed load the stored value is an array. The save would then convert the array's properties and send `[]`. Only the "every switch reads as off" effect is modelled.
- Notifications.Mount: a fetched entry that is not a list is reported as `None`. The page's behaviour on such a value (a text, say) is not modelled.
- The "mark as read" and "mark all as read" handlers only log, and are not modelled.
- A failed settings POST or an answer that is not JSON ends in an unhandled rejection. The model assumes a JSON answer for the notice. A `null` answer throws too, and Settings.SaveNotice reports that as no notice.
- The account and channel submit handlers only show a toast or log; the model stops at their validation.
- The live-update path for the transaction list and the wallet balance comes from the socket and is not part of this model.

## Findings

| source | as written | input that shows it | evidently intended | confidence | as-written member | corrected member |
|---|---|---|---|---|---|---|
| src/app/lnurlPay.tsx:186-194 | The maximum's refinement destructures `{ path, ctx }` from its second argument and reads `ctx.parent.minAmount`. The validation library calls a refinement with the value alone, so the callback throws a TypeError whenever the maximum is a number. The form never generates a link. | description "Coffee", minimum 1, maximum 50000, comment length 100 | Accept when the maximum is at least the minimum, and otherwise report "Max amount must be greater than or equal to min amount" on the maximum | not executed; high, given the library's documented refinement signature | LnurlPay.SubmitAsWritten (with LnurlPay.AsWrittenDiffers) | LnurlPay.Submit |
