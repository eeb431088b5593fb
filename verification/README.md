# TaskWave sign-in page: validators and the sign-up / referral workflow

A Dafny model of the logic in `app.js`, the browser script behind the TaskWave
sign-in and sign-up page. The script wires form elements to a hosted
authentication service and document database. Two parts of it have precise
behaviour, and those are modelled here:

- **The client-side validators.** These are the sign-up checks (presence, e-mail
  shape, password length, confirmation match, in that order), the sign-in checks
  (presence, e-mail shape) and the e-mail check in the password-reset prompt. The
  e-mail regular expression `^[^\s@]+@[^\s@]+\.[^\s@]+$` is written by hand.
  `Email.IsValidEmail` runs it as a left-to-right automaton. `Email.RegexMatch`
  states what the expression means. `Email.ShapeOk` reads it in plain words. The
  lemmas prove all three agree.
- **The sign-up submit handler.** It is modelled as one transition on an explicit
  backend state, `Directory.Backend`, which holds:
  - the `users` collection, as a map from uid to `Account`;
  - the set of registered credential e-mails, each under its case-folded key;
  - the `settings/general` referral bonus.

  Each backend call that can fail for reasons outside that state takes its
  outcome from a `Signup.Oracle`.
- **The sign-in handler's "Remember me" branch.** This is an update of a
  key-to-string store that stands in for `localStorage`. The model also covers
  the page-load pre-fill that reads the store back, and the alert mapping of the
  `catch` block.

Modules:

| module | file | what it holds |
|---|---|---|
| `Wrappers` | wrappers.dfy | `Option` |
| `JsString` | jsstring.dfy | JavaScript white space (shared by `\s` and `trim`), `Trim`, UTF-16 `length` |
| `Checks` | checks.dfy | an ordered list of checks and the first one that fails |
| `Email` | email.dfy | the e-mail expression: automaton, meaning, plain-words shape |
| `Validation` | validation.dfy | `validateSignupInputs`, `validateSigninInputs`, the reset prompt |
| `Directory` | directory.dfy | account records, backend state, document-id order, `docs[0]` of a query, consistency |
| `Signup` | signup.dfy | the sign-up handler and its properties |
| `Signin` | signin.dfy | the sign-in handler, remember-me, pre-fill, alerts |

Modelling choices:

- **Strings** are `seq<char>` of Unicode scalar values. JavaScript's `length` counts
  UTF-16 code units, so the password-length check uses `JsString.Utf16Length`.
  That function counts two units for a code point above U+FFFF. Both the
  expression's `[^\s@]` and `trim` treat a surrogate pair the same way as the
  single character it encodes, so nothing else needs code units.
- **`\s` and `trim`** use the same character set: ECMAScript WhiteSpace plus
  LineTerminator. `JsString.IsWhite` is that set.
- **The first match of a query.** The script takes `docs[0]` of an equality
  query on `username`. The database orders such results by document id.
  `Directory.FirstMatch` therefore returns the least matching uid in
  character-by-character order. Code-point order is also the order of the ids'
  UTF-8 bytes.
- **Amounts.** JavaScript numbers are modelled as exact `real`s, so a fractional
  bonus such as 0.5 is representable. `balance`, `referralEarnings` and
  `referralsCount` are `real` too.
- **The referral bonus.** `Backend.referralBonus` is `None` when the settings
  document is missing. Otherwise it holds the field as stored: absent, a number,
  or NaN (`Directory.BonusField`). `Signup.RewardAmount` applies
  `referralBonus || 0`, so an absent field, 0 and NaN all give 0.
- **Registered addresses.** The authentication service compares addresses
  without regard to letter case. A registered address is kept under
  `Directory.CredentialKey`, which folds ASCII letters to lower case. An address
  whose key is registered is refused as in use. The service can also refuse an
  address as in use through the oracle, and both cases give the same failure.
- **The sign-in storage call.** `localStorage.setItem` and `removeItem` run
  inside the sign-in `try`. The handler therefore takes `storageOk`. When the call
  throws, the user, whom the service has already signed in, sees "Invalid email
  or password." and is not redirected.
- **The name `referralEarnings`.** The profile literal at app.js:258 uses the
  shorthand `referralEarnings,` for a name the script never declares. The handler
  therefore takes `earningsBinding: Option<real>`:
  - `None` means nothing defines the name, so building the literal throws before
    the write starts;
  - `Some(v)` means some other script defines it as `v`.

  See "Findings".
- **Behaviour that is easy to misread, modelled as the code does it.**
  - A failed referrer lookup or credit update is not swallowed. Both calls sit
    inside the handler's outer `try`, so a failure there ends in the outer `catch`
    with an error alert, even though the new profile is already written. Only the
    settings read has its own `try`, whose `catch` swallows the error. The model reports
    `Failed(ReferralFailed)` and keeps the profile
    (`Signup.ReferralFailureKeepsProfile`).
  - The referrer is looked up after the new profile is written, not among the
    accounts that existed before. A user who names themself as referrer is
    credited (`Signup.SelfReferralCreditsNewAccount`).
  - Presence is checked on the untrimmed username and the stored username is
    trimmed. A username made only of spaces is therefore accepted and stored as
    `""` (`Signup.BlankUsernameStoredEmpty`).

## Model

| member | source | states |
|---|---|---|
| `JsString.Trim` | app.js:220-223 | `.trim()` of the username and referrer: the result is a slice of the input with only white space outside it and no white space at either end |
| `JsString.TrimIsUnique` | app.js:220-223 | any slice meeting that description is the result of `Trim`, so the description is a complete specification of trimming |
| `JsString.TrimIdempotent` | app.js:220-223 | trimming an already trimmed string changes nothing |
| `JsString.TrimEmptyIffAllWhite` | app.js:220-223 | a field trims to the empty string exactly when it consists of white space |
| `JsString.IsWhiteIsStandardSet` | app.js:167 | the character set shared by `\s` and `.trim()` is ECMAScript WhiteSpace (TAB, VT, FF, ZWNBSP, the Zs category) plus LineTerminator (LF, CR, LS, PS) |
| `JsString.Utf16Length` | app.js:174 | `password.length` counts UTF-16 code units: at least one and at most two per character |
| `JsString.Utf16LengthOfChar` | app.js:174 | one character counts as two code units above U+FFFF and as one otherwise |
| `JsString.Utf16LengthAppend` | app.js:174 | the code-unit count of a concatenation is the sum of the counts, so with the one-character case it fixes `length` for every string |
| `JsString.Utf16LengthOfBmp` | app.js:174 | for text in the Basic Multilingual Plane, `password.length` equals the number of characters |
| `Checks.FirstFailing` | app.js:160-185 | running checks in order: accepted iff every check holds; otherwise the reported problem is that of a failing check all of whose predecessors hold |
| `Email.RunFollowsAccepts` | app.js:167-168 | from each phase, the automaton reaches `Accept` exactly on the inputs that phase's language describes |
| `Email.AutomatonMatchesRegex` | app.js:167-168 | the automaton accepts exactly the strings that split as non-empty `[^\s@]` runs: local part, `@`, text, `.`, text |
| `Email.IsValidEmail` | app.js:167-168 | `emailRegex.test(email)` is true exactly on the strings the expression's decomposition describes |
| `Email.RegexIsShape` | app.js:197-201 | the expression matches iff the input has exactly one `@`, no white space, a non-empty local part and a domain with a `.` that has text on both sides |
| `Email.EmailShape` | app.js:349-353 | the e-mail check used at all three call sites accepts exactly the plain-words shape |
| `Validation.ValidateSignup` | app.js:153-186 | any empty field gives MissingField; the e-mail check is reached only when every field is present; WeakPassword iff the earlier checks pass and `length < 6`; PasswordMismatch only when presence, e-mail and length pass; accepted iff all four pass |
| `Validation.ValidateSignin` | app.js:188-204 | sign-in is accepted iff both fields are non-empty and the e-mail has the shape; MissingField iff a field is empty |
| `Validation.ResetRequest` | app.js:345-353 | a cancelled or empty prompt does nothing; a reset link is requested iff the answer has the e-mail shape, for exactly that answer |
| `Validation.SigninHasNoLengthBound` | app.js:192-203 | sign-in accepts any non-empty password with a valid e-mail, including one that sign-up would reject as too short |
| `Validation.ResetAgreesWithSignin` | app.js:347-353 | the reset prompt accepts exactly the addresses sign-in accepts |
| `Validation.SignupEmailPassesSignin` | app.js:197-203 | a form sign-up accepts also passes sign-in with the same address and password |
| `Validation.SixOrSevenCharactersSuffice` | app.js:174-177 | any six- or seven-character password, whatever its characters, is accepted although the alert says 8 |
| `Validation.ThreeAstralCharactersSuffice` | app.js:174 | any three characters above U+FFFF count as six code units, so such a three-character password passes the length check |
| `Directory.CredentialKey` | app.js:236 | the key an address is registered under has the same length, no ASCII capital, and differs from the address only by folding capitals |
| `Directory.CaseVariantsShareKey` | app.js:236 | two addresses that differ only in ASCII letter case are the same credential |
| `Directory.IsTaken` | app.js:228-230 | the username query is non-empty exactly when some account holds that username |
| `Directory.LeastExists` | app.js:268-269 | every non-empty set of matching document ids has a first one in id order |
| `Directory.FirstMatch` | app.js:266-269 | `docs[0]` of the username query: none iff no account has that username, otherwise a matching account whose id is least among all matches |
| `Directory.FirstMatchOfUnique` | app.js:266-269 | when usernames are unique, the first match is the single account with that username |
| `Directory.Credit` | app.js:273-277 | a referral credit raises balance and earnings by the reward and the count by 1, and changes no other field |
| `Signup.RewardAmount` | app.js:240-248 | the reward is non-zero only when the settings read succeeds, the document exists and its field is a non-zero number, and then it is that number |
| `Signup.NewProfile` | app.js:251-262 | the profile written for a new account: the form's name and e-mail, the username it is given (`WithProfile` passes the trimmed one), `referredBy` null exactly when the referrer it is given is empty, balance and count 0, role `user` |
| `Signup.HandleSubmit` | app.js:211-294 | the handler: a rejected form makes no backend change and reports the first failing check; LookupFailed iff the form passes and the username query fails; UsernameTaken iff it also succeeds and the trimmed username is held; EmailInUse iff the username is free and the address's key is registered or the service refuses it as in use; any other refusal code is reported as is; after the credential exists, EarningsUnbound iff the name is unbound, ProfileWriteFailed iff the write fails, and ReferralFailed iff a referral is due and the referrer query or the credit update fails; failures before credential creation leave the state unchanged; otherwise exactly the new key is registered; success names the service's uid and a record holding the form's e-mail; no account disappears and only the new uid can appear; a throw while building or writing the profile leaves the accounts unchanged |
| `Signup.TakenUsernameAborts` | app.js:228-232 | a taken trimmed username ends the handler with UsernameTaken before credential creation, with credentials and accounts unchanged |
| `Signup.NoRewardNoCredit` | app.js:240-265 | with a reward of 0 or less, or no referrer, sign-up succeeds and the only change to the accounts is the new profile |
| `Signup.SettingsFailureNotFatal` | app.js:241-248 | a failed settings read or a missing settings document does not stop sign-up |
| `Signup.ReferrerCredited` | app.js:264-279 | with a referrer, a positive reward and a match, the first match's balance and earnings rise by the reward and its count by one; no other account changes beyond the new profile |
| `Signup.UnknownReferrerSkipped` | app.js:266-268 | a referrer that matches no account is skipped and sign-up succeeds |
| `Signup.ProfileWriteFailureOrphansCredential` | app.js:251-262 | a failed profile write comes after credential creation: the e-mail stays registered, no profile is added, an error is reported |
| `Signup.ReferralFailureKeepsProfile` | app.js:264-284 | a failed referrer query, or a failed credit update after a match, ends in the error path with the credential registered and the new profile written, and no account credited |
| `Signup.SelfReferralCreditsNewAccount` | app.js:264-277 | naming one's own username as referrer credits the new account: balance equals the reward and the referral count is 1 |
| `Signup.NewAccountOnSuccess` | app.js:251-277 | after a successful sign-up the new uid holds the initial profile, or that profile credited once with a positive reward |
| `Signup.BlankUsernameStoredEmpty` | app.js:161-220 | an all-space username passes the presence check and a successful sign-up stores it as the empty username |
| `Signup.WithProfileConsistent` | app.js:228-262 | writing a profile under a free username keeps usernames unique, records keyed by uid and profiles registered |
| `Signup.CreditConsistent` | app.js:273-277 | crediting a referrer keeps the backend consistent |
| `Signup.SignupPreservesConsistency` | app.js:211-294 | every run of the handler, whatever the backend outcomes, keeps the backend consistent |
| `Signup.UnboundEarningsOrphansCredential` | app.js:258 | as written, with `referralEarnings` undefined, every sign-up that creates a credential fails with no profile and the e-mail left registered |
| `Signup.HandleSubmitCorrected` | app.js:251-262 | with `referralEarnings: 0`, such a sign-up succeeds whenever the backend calls succeed, and the new record's earnings equal its balance: 0 with count 0, or the reward with count 1 |
| `Signup.AlertFor` | app.js:284-292 | the e-mail-in-use message appears exactly for the `auth/email-already-in-use` error, whether it is reported as `EmailInUse` or as a refusal carrying that code; every other error shows its own message |
| `Signup.InUseAlertIffAddressTaken` | app.js:236-292 | a sign-up shows the e-mail-in-use message exactly when the form passes, the username is free, and the address is already registered or the service refuses it as in use |
| `Signup.CaseVariantInUse` | app.js:236-290 | an address registered in another ASCII letter case is refused as in use and nothing changes |
| `Signin.AlertFor` | app.js:330-337 | every error code gives "Invalid email or password." except `auth/too-many-requests`, so the alert never reveals which field was wrong |
| `Signin.RememberChoice` | app.js:314-318 | with "Remember me" ticked the e-mail is stored under `taskwave_user_email`, otherwise that key is removed; no other key changes |
| `Signin.HandleSubmit` | app.js:297-339 | the redirect happens iff validation passes, the service signs the user in and the storage call completes; the store changes only then; a failure alert comes from the error code, or is the uniform message when the storage call throws; a rejected form makes no change and reports the problem sign-in validation found (MissingField or InvalidEmail) |
| `Signin.StorageFailureReadsAsBadCredentials` | app.js:309-331 | a storage call that throws after a successful sign-in shows "Invalid email or password.", with no redirect and the store unchanged |
| `Signin.SavedEmail` | app.js:123-129 | the page load pre-fills an address exactly when a non-empty one is stored under `taskwave_user_email`, and it is that address |
| `Signin.RememberMeRoundTrip` | app.js:311-318 | after a successful sign-in, the next page load pre-fills exactly the address used if "Remember me" was ticked, and nothing otherwise |
| `Signin.FailedSigninKeepsPrefill` | app.js:326-338 | a sign-in that does not redirect leaves the pre-filled address as it was |

The lemmas about the sign-up handler take `earningsBinding` as
`Some(earnings)` for any `earnings`. They therefore hold of
`Signup.HandleSubmitCorrected`, which is the case `Some(0)`.

## Left out

- DOM wiring and presentation are not modelled. This covers dark mode (app.js:33-48), form toggling, password visibility, the success modal, the loading state, and the text of `alert` and `prompt`. None of these has logic beyond display.
- The `?ref=` URL parameter pre-fill (app.js:134-148) is I/O. The referrer arrives as the `referrer` field of `Signup.SignupRequest`.
- The backend's internals are not modelled: query execution, security rules, `FieldValue.increment` atomicity and `serverTimestamp`. An increment is plain addition. `createdAt` is not a field of `Directory.Account`.
- Every backend failure whose cause is not in the state is an oracle outcome in `Signup.Oracle` or `Signin.AuthReply`, not a modelled cause. Examples are the network, rules and quotas. The one exception is an address whose key is already registered, which the state decides.
- Signup.HandleSubmit: the state decides "already in use" only for addresses that match a registered one up to ASCII letter case. Other case variants the service folds (non-ASCII letters) reach the in-use failure only through the oracle's `auth/email-already-in-use` answer.
- Directory.CredentialKey: folds ASCII letters only, because the service's exact normalisation of non-ASCII addresses is not part of this model.
- Signin.HandleSubmit: one `storageOk` flag stands for both `setItem` and `removeItem`. The cause of a storage failure, and the session the service keeps after such a failure, are not modelled.
- The uid the authentication service assigns comes from the oracle, and the model does not require it to be unused. A reused uid overwrites that document, as `set` would.
- Each handler is one sequential transition. Async scheduling and duplicate submissions while a request is in flight are not modelled.
- The outcome of `sendPasswordResetEmail` (app.js:355-361) only selects which message to show, so only the decision to send is modelled.
- Console logging is not modelled.
- Signup.RewardAmount: amounts are exact reals, not IEEE doubles. Rounding of fractional sums, infinities and `-0` are not modelled. NaN is modelled only as a stored bonus, where `|| 0` turns it into 0.
- Signup.RewardAmount: a `referralBonus` of another type (a string, a boolean) is not modelled. Neither is a referrer's counter holding a non-number before `increment`.

## Findings

| source | as written | input that shows it | evidently intended | confidence | as-written member | corrected member |
|---|---|---|---|---|---|---|
| app.js:258 | `referralEarnings,` is shorthand for a variable that app.js never declares, so building the profile throws a ReferenceError after the credential exists | any sign-up that passes validation with a free username and an unregistered e-mail | `referralEarnings: 0`, matching `balance: 0` and `referralsCount: 0` | not executed; high, unless another script on the page defines a global `referralEarnings` | `Signup.UnboundEarningsOrphansCredential` | `Signup.HandleSubmitCorrected` |
