/**
 * The sign-in submit handler and the page-load pre-fill it feeds. The browser's
 * `localStorage` is a map from key to string.
 */
module Signin {
  import opened Wrappers
  import opened Checks
  import opened Validation

  const RememberedEmailKey := "taskwave_user_email"
  const UserNotFoundCode := "auth/user-not-found"
  const WrongPasswordCode := "auth/wrong-password"
  const TooManyRequestsCode := "auth/too-many-requests"

  type Store = map<string, string>

  /** What `signInWithEmailAndPassword` answers. */
  datatype AuthReply = SignedIn | AuthError(code: string)

  datatype Alert = InvalidCredentials | TooManyAttempts

  datatype Outcome = FormRejected(problem: Problem) | Failed(alert: Alert) | ToDashboard

  datatype SigninResult = SigninResult(store: Store, outcome: Outcome)

  /**
   * The `catch` block's message: every error reads "Invalid email or password."
   * except too many attempts, so the alert never tells which field was wrong.
   */
  function AlertFor(code: string): (a: Alert)
    ensures a == TooManyAttempts <==> code == TooManyRequestsCode
    ensures code == UserNotFoundCode || code == WrongPasswordCode ==> a == InvalidCredentials
  {
    if code == UserNotFoundCode || code == WrongPasswordCode then InvalidCredentials
    else if code == TooManyRequestsCode then TooManyAttempts
    else InvalidCredentials
  }

  /** The "Remember me" branch: store the address when checked, remove it otherwise; no other key changes. */
  function RememberChoice(store: Store, email: string, rememberMe: bool): (s: Store)
    ensures rememberMe ==> RememberedEmailKey in s && s[RememberedEmailKey] == email
    ensures !rememberMe ==> RememberedEmailKey !in s
    ensures forall k :: k != RememberedEmailKey ==> (k in s <==> k in store)
    ensures forall k :: k != RememberedEmailKey && k in s ==> s[k] == store[k]
  {
    if rememberMe then store[RememberedEmailKey := email] else store - {RememberedEmailKey}
  }

  /**
   * The submit handler: the store changes only after the credentials are
   * accepted. `storageOk` says whether the `localStorage` call completes; it
   * runs inside the same `try`, so when it throws (quota exceeded, storage
   * disabled) the `catch` shows the uniform message although the service has
   * signed the user in, and there is no redirect.
   */
  function HandleSubmit(store: Store, email: string, password: string, rememberMe: bool, reply: AuthReply, storageOk: bool): (r: SigninResult)
    ensures r.outcome != ToDashboard ==> r.store == store
    ensures r.outcome == ToDashboard <==> ValidateSignin(email, password) == Accepted && reply == SignedIn && storageOk
    ensures r.outcome == ToDashboard ==> r.store == RememberChoice(store, email, rememberMe)
    ensures r.outcome.FormRejected? <==> ValidateSignin(email, password).Rejected?
    ensures r.outcome.FormRejected? ==> ValidateSignin(email, password) == Rejected(r.outcome.problem)
    ensures r.outcome.Failed? ==>
      || (reply.AuthError? && r.outcome.alert == AlertFor(reply.code))
      || (reply == SignedIn && !storageOk && r.outcome.alert == InvalidCredentials)
  {
    match ValidateSignin(email, password)
    case Rejected(p) => SigninResult(store, FormRejected(p))
    case Accepted =>
      match reply
      case AuthError(code) => SigninResult(store, Failed(AlertFor(code)))
      case SignedIn =>
        if storageOk then SigninResult(RememberChoice(store, email, rememberMe), ToDashboard)
        else SigninResult(store, Failed(InvalidCredentials))
  }

  /** On page load a non-empty saved address pre-fills the e-mail field and ticks the box. */
  function SavedEmail(store: Store): (saved: Option<string>)
    ensures saved.Some? <==> RememberedEmailKey in store && store[RememberedEmailKey] != ""
    ensures saved.Some? ==> saved.value == store[RememberedEmailKey]
  {
    if RememberedEmailKey in store && store[RememberedEmailKey] != "" then Some(store[RememberedEmailKey]) else None
  }

  /**
   * After a successful sign-in, the next page load pre-fills exactly the
   * address just used when "Remember me" was ticked, and nothing otherwise.
   */
  lemma RememberMeRoundTrip(store: Store, email: string, password: string, rememberMe: bool)
    requires ValidateSignin(email, password) == Accepted
    ensures SavedEmail(HandleSubmit(store, email, password, rememberMe, SignedIn, true).store) ==
      if rememberMe then Some(email) else None
  {
  }

  /**
   * When the storage call throws after a successful sign-in, the user sees
   * "Invalid email or password." and stays on the page; the store is as before.
   */
  lemma StorageFailureReadsAsBadCredentials(store: Store, email: string, password: string, rememberMe: bool)
    requires ValidateSignin(email, password) == Accepted
    ensures HandleSubmit(store, email, password, rememberMe, SignedIn, false) == SigninResult(store, Failed(InvalidCredentials))
  {
  }

  /** A failed or rejected sign-in leaves the remembered address as it was. */
  lemma FailedSigninKeepsPrefill(store: Store, email: string, password: string, rememberMe: bool, reply: AuthReply, storageOk: bool)
    requires HandleSubmit(store, email, password, rememberMe, reply, storageOk).outcome != ToDashboard
    ensures SavedEmail(HandleSubmit(store, email, password, rememberMe, reply, storageOk).store) == SavedEmail(store)
  {
  }
}
