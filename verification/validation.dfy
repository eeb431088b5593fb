/**
 * The client-side checks run before any backend call: the sign-up form, the
 * sign-in form and the address typed into the password-reset prompt.
 */
module Validation {
  import opened Wrappers
  import opened JsString
  import opened Checks
  import opened Email

  /** The length the sign-up check enforces (its alert text says 8). */
  const MinPasswordLength: nat := 6

  /** The alert each check raises. */
  datatype Problem = MissingField | InvalidEmail | WeakPassword | PasswordMismatch

  /** The sign-up form's values as typed, before any trimming. */
  datatype SignupFields = SignupFields(
    fullName: string,
    username: string,
    email: string,
    password: string,
    confirmPassword: string)

  /** An empty string is the only falsy value an input's `value` can take. */
  predicate AllPresent(f: SignupFields) {
    f.fullName != "" && f.username != "" && f.email != "" && f.password != "" && f.confirmPassword != ""
  }

  predicate LongEnough(password: string) {
    Utf16Length(password) >= MinPasswordLength
  }

  /** The sign-up checks in the order the script runs them. */
  function SignupChecks(f: SignupFields): seq<Check<Problem>> {
    [ Check(AllPresent(f), MissingField),
      Check(IsValidEmail(f.email), InvalidEmail),
      Check(LongEnough(f.password), WeakPassword),
      Check(f.password == f.confirmPassword, PasswordMismatch) ]
  }

  /** `validateSignupInputs`: the first failing check names the problem. */
  function ValidateSignup(f: SignupFields): (v: Verdict<Problem>)
    ensures v == Rejected(MissingField) <==> !AllPresent(f)
    ensures v == Rejected(InvalidEmail) <==> AllPresent(f) && !IsValidEmail(f.email)
    ensures v == Rejected(WeakPassword) <==>
      AllPresent(f) && IsValidEmail(f.email) && Utf16Length(f.password) < MinPasswordLength
    ensures v == Rejected(PasswordMismatch) <==>
      AllPresent(f) && IsValidEmail(f.email) && LongEnough(f.password) && f.password != f.confirmPassword
    ensures v == Accepted <==>
      AllPresent(f) && IsValidEmail(f.email) && LongEnough(f.password) && f.password == f.confirmPassword
  {
    var checks := SignupChecks(f);
    var v := FirstFailing(checks);
    assert !checks[0].holds ==> v == Rejected(MissingField);
    assert checks[0].holds && !checks[1].holds ==> v == Rejected(InvalidEmail);
    assert checks[0].holds && checks[1].holds && !checks[2].holds ==> v == Rejected(WeakPassword);
    assert checks[0].holds && checks[1].holds && checks[2].holds && !checks[3].holds ==> v == Rejected(PasswordMismatch);
    v
  }

  /** `validateSigninInputs`: presence of both fields, then the e-mail shape, and nothing about the password. */
  function ValidateSignin(email: string, password: string): (v: Verdict<Problem>)
    ensures v == Accepted <==> email != "" && password != "" && IsValidEmail(email)
    ensures v == Rejected(MissingField) <==> email == "" || password == ""
    ensures v == Rejected(InvalidEmail) <==> email != "" && password != "" && !IsValidEmail(email)
  {
    var checks := [Check(email != "" && password != "", MissingField), Check(IsValidEmail(email), InvalidEmail)];
    var v := FirstFailing(checks);
    assert !checks[0].holds ==> v == Rejected(MissingField);
    assert checks[0].holds && !checks[1].holds ==> v == Rejected(InvalidEmail);
    v
  }

  /** What the forgot-password handler does with the prompt's answer (`None` when the prompt is cancelled). */
  datatype ResetStep = Dismissed | BadEmail | SendLink(email: string)

  function ResetRequest(input: Option<string>): (r: ResetStep)
    ensures r == Dismissed <==> input == None || input == Some("")
    ensures r.SendLink? <==> input.Some? && IsValidEmail(input.value)
    ensures r.SendLink? ==> r.email == input.value
  {
    match input
    case None => Dismissed
    case Some(email) =>
      if email == "" then Dismissed
      else if !IsValidEmail(email) then BadEmail
      else SendLink(email)
  }

  lemma EmptyIsNotAnEmail()
    ensures !IsValidEmail("")
  {
  }

  // ---------------------------------------------------------------------------
  // Properties relating the three checks.

  /** A password's length only matters at sign-up: sign-in accepts any non-empty password with a valid e-mail. */
  lemma SigninHasNoLengthBound(email: string, password: string)
    requires IsValidEmail(email) && password != ""
    ensures ValidateSignin(email, password) == Accepted
    ensures Utf16Length(password) < MinPasswordLength ==>
      ValidateSignup(SignupFields("n", "u", email, password, password)) == Rejected(WeakPassword)
  {
    EmailShape(email);
  }

  /** The reset prompt sends a link for exactly the addresses sign-in would let through. */
  lemma ResetAgreesWithSignin(email: string, password: string)
    requires password != ""
    ensures ResetRequest(Some(email)).SendLink? <==> ValidateSignin(email, password) == Accepted
  {
    EmptyIsNotAnEmail();
  }

  /** An address that passes sign-up also passes sign-in, whatever the password. */
  lemma SignupEmailPassesSignin(f: SignupFields)
    requires ValidateSignup(f) == Accepted
    ensures ValidateSignin(f.email, f.password) == Accepted
  {
  }

  /** The check is 6 code units, not the 8 the alert claims: six- and seven-character passwords pass. */
  lemma SixOrSevenCharactersSuffice(f: SignupFields)
    requires AllPresent(f) && IsValidEmail(f.email) && f.password == f.confirmPassword
    requires 6 <= |f.password| < 8
    ensures ValidateSignup(f) == Accepted
  {
  }

  /**
   * Three characters outside the Basic Multilingual Plane already make six
   * code units, so a three-character password of them passes.
   */
  lemma ThreeAstralCharactersSuffice(f: SignupFields)
    requires AllPresent(f) && IsValidEmail(f.email) && f.password == f.confirmPassword
    requires |f.password| == 3 && forall k :: 0 <= k < 3 ==> f.password[k] as int >= 0x1_0000
    ensures Utf16Length(f.password) == 6
    ensures ValidateSignup(f) == Accepted
  {
    var s := f.password;
    assert Utf16Length(s) == 2 + Utf16Length(s[1..]);
    assert Utf16Length(s[1..]) == 2 + Utf16Length(s[2..]);
    assert Utf16Length(s[2..]) == 2 + Utf16Length(s[3..]);
  }
}
