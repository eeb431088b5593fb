/**
 * The sign-up submit handler as one transition of the backend state.
 *
 * Each backend call that can fail for reasons the state does not capture
 * (network, security rules, quotas) takes its outcome from an `Oracle`. The
 * handler's steps, in order: validate the form; trim the username and the
 * referrer; reject a taken username; create the credential; read the referral
 * bonus; build and write the profile; credit the first account whose username
 * is the referrer. The handler has two `try` blocks. The inner one around the
 * settings read swallows its error, so a failed read leaves the reward at 0.
 * Every other thrown error ends the handler in the outer `catch`, which leaves
 * whatever was already written.
 */
module Signup {
  import opened Wrappers
  import opened JsString
  import opened Checks
  import opened Validation
  import opened Directory

  const EmailInUseCode := "auth/email-already-in-use"

  /** The form's values plus the referrer field (pre-filled from `?ref=` or typed). */
  datatype SignupRequest = SignupRequest(fields: SignupFields, referrer: string)

  /**
   * What `createUserWithEmailAndPassword` answers for an address whose key is
   * not registered in the state. The service may still refuse it as in use
   * (a variant the key does not fold, a concurrent registration).
   */
  datatype AuthReply = Registered(uid: Uid) | AuthRejected(code: string)

  /** Whether each backend call completes; `auth` also carries the uid the service assigns. */
  datatype Oracle = Oracle(
    usernameQueryOk: bool,
    auth: AuthReply,
    settingsReadOk: bool,
    profileWriteOk: bool,
    referrerQueryOk: bool,
    creditWriteOk: bool)

  datatype Failure =
    | Invalid(problem: Problem)       // a form check failed; nothing was sent
    | LookupFailed                    // the username query threw
    | UsernameTaken
    | EmailInUse
    | CredentialRejected(code: string)
    | EarningsUnbound                 // evaluating the profile literal threw (see `NewProfile`)
    | ProfileWriteFailed
    | ReferralFailed                  // the referrer query or the credit update threw
  {
    /** The failure happened before any credential existed. */
    predicate BeforeCredential() {
      Invalid? || LookupFailed? || UsernameTaken? || EmailInUse? || CredentialRejected?
    }
  }

  datatype Outcome = Created(uid: Uid) | Failed(failure: Failure)

  datatype SignupResult = SignupResult(backend: Backend, outcome: Outcome)

  /**
   * `rewardAmount`: 0 unless the settings read succeeds and the document
   * exists, and then `referralBonus || 0`, which turns an absent field, 0 and
   * NaN (the falsy numbers) into 0.
   */
  function RewardAmount(bonus: Option<BonusField>, readOk: bool): (reward: real)
    ensures reward != 0.0 <==> readOk && bonus.Some? && bonus.value.Number? && bonus.value.amount != 0.0
    ensures reward != 0.0 ==> bonus == Some(Number(reward))
  {
    if readOk && bonus.Some? then
      match bonus.value
      case Number(v) => v
      case _ => 0.0
    else 0.0
  }

  /**
   * The profile literal. Its `referralEarnings` entry is shorthand for a variable
   * the script never declares; `earnings` is the value that name would have if
   * some other script defined it.
   */
  function NewProfile(uid: Uid, f: SignupFields, username: string, referrer: string, earnings: real): (a: Account)
    ensures a.uid == uid && a.fullName == f.fullName && a.username == username && a.email == f.email
    ensures a.referredBy.None? <==> referrer == ""
    ensures a.referredBy.Some? ==> a.referredBy.value == referrer
    ensures a.balance == 0.0 && a.referralsCount == 0.0 && a.referralEarnings == earnings
    ensures a.role == "user"
  {
    Account(uid, f.fullName, username, f.email, if referrer == "" then None else Some(referrer), 0.0, earnings, 0.0, "user")
  }

  /** The state once the credential exists and the profile is written. */
  function WithProfile(b: Backend, req: SignupRequest, uid: Uid, earnings: real): Backend {
    b.(credentials := b.credentials + {CredentialKey(req.fields.email)},
       accounts := b.accounts[uid := NewProfile(uid, req.fields, Trim(req.fields.username), Trim(req.referrer), earnings)])
  }

  /** The handler gets as far as creating a credential. */
  predicate ReachesCredential(b: Backend, req: SignupRequest, ora: Oracle) {
    && ValidateSignup(req.fields) == Accepted
    && ora.usernameQueryOk
    && !IsTaken(b.accounts, Trim(req.fields.username))
    && CredentialKey(req.fields.email) !in b.credentials
    && ora.auth.Registered?
  }

  /**
   * The submit handler. `earningsBinding` is `None` when nothing defines the
   * name `referralEarnings`, so building the profile throws.
   */
  function HandleSubmit(b: Backend, req: SignupRequest, ora: Oracle, earningsBinding: Option<real>): (r: SignupResult)
    ensures r.backend.referralBonus == b.referralBonus
    ensures r.outcome == Failed(Invalid(MissingField)) <==> !AllPresent(req.fields)
    ensures forall p :: r.outcome == Failed(Invalid(p)) <==> ValidateSignup(req.fields) == Rejected(p)
    ensures r.outcome == Failed(LookupFailed) <==>
      ValidateSignup(req.fields) == Accepted && !ora.usernameQueryOk
    ensures r.outcome == Failed(UsernameTaken) <==>
      ValidateSignup(req.fields) == Accepted && ora.usernameQueryOk && IsTaken(b.accounts, Trim(req.fields.username))
    ensures r.outcome == Failed(EmailInUse) <==>
      && ValidateSignup(req.fields) == Accepted && ora.usernameQueryOk && !IsTaken(b.accounts, Trim(req.fields.username))
      && (CredentialKey(req.fields.email) in b.credentials || ora.auth == AuthRejected(EmailInUseCode))
    ensures forall code :: r.outcome == Failed(CredentialRejected(code)) <==>
      && ValidateSignup(req.fields) == Accepted && ora.usernameQueryOk && !IsTaken(b.accounts, Trim(req.fields.username))
      && CredentialKey(req.fields.email) !in b.credentials && ora.auth == AuthRejected(code) && code != EmailInUseCode
    ensures r.outcome.Failed? && r.outcome.failure.BeforeCredential() ==> r.backend == b
    ensures !(r.outcome.Failed? && r.outcome.failure.BeforeCredential()) ==>
      && ReachesCredential(b, req, ora)
      && r.backend.credentials == b.credentials + {CredentialKey(req.fields.email)}
    ensures r.outcome.Created? ==>
      && ora.auth == Registered(r.outcome.uid)
      && r.outcome.uid in r.backend.accounts
      && r.backend.accounts[r.outcome.uid].email == req.fields.email
    ensures b.accounts.Keys <= r.backend.accounts.Keys
    ensures ora.auth.Registered? ==> r.backend.accounts.Keys <= b.accounts.Keys + {ora.auth.uid}
    ensures r.outcome == Failed(EarningsUnbound) || r.outcome == Failed(ProfileWriteFailed) ==>
      r.backend.accounts == b.accounts
    ensures r.outcome == Failed(EarningsUnbound) <==> ReachesCredential(b, req, ora) && earningsBinding.None?
    ensures r.outcome == Failed(ProfileWriteFailed) <==>
      ReachesCredential(b, req, ora) && earningsBinding.Some? && !ora.profileWriteOk
    ensures r.outcome == Failed(ReferralFailed) <==>
      && ReachesCredential(b, req, ora) && earningsBinding.Some? && ora.profileWriteOk
      && Trim(req.referrer) != "" && RewardAmount(b.referralBonus, ora.settingsReadOk) > 0.0
      && (|| !ora.referrerQueryOk
          || (FirstMatch(WithProfile(b, req, ora.auth.uid, earningsBinding.value).accounts, Trim(req.referrer)).Some?
              && !ora.creditWriteOk))
  {
    var f := req.fields;
    match ValidateSignup(f)
    case Rejected(p) => SignupResult(b, Failed(Invalid(p)))
    case Accepted =>
      var username := Trim(f.username);
      var referrer := Trim(req.referrer);
      if !ora.usernameQueryOk then SignupResult(b, Failed(LookupFailed))
      else if IsTaken(b.accounts, username) then SignupResult(b, Failed(UsernameTaken))
      else if CredentialKey(f.email) in b.credentials then SignupResult(b, Failed(EmailInUse))
      else match ora.auth
        case AuthRejected(code) =>
          if code == EmailInUseCode then SignupResult(b, Failed(EmailInUse))
          else SignupResult(b, Failed(CredentialRejected(code)))
        case Registered(uid) =>
          var registered := b.(credentials := b.credentials + {CredentialKey(f.email)});
          var reward := RewardAmount(b.referralBonus, ora.settingsReadOk);
          match earningsBinding
          case None => SignupResult(registered, Failed(EarningsUnbound))
          case Some(earnings) =>
            if !ora.profileWriteOk then SignupResult(registered, Failed(ProfileWriteFailed))
            else
              var written := WithProfile(b, req, uid, earnings);
              if referrer != "" && reward > 0.0 then
                if !ora.referrerQueryOk then SignupResult(written, Failed(ReferralFailed))
                else match FirstMatch(written.accounts, referrer)
                  case None => SignupResult(written, Created(uid))
                  case Some(ref) =>
                    if !ora.creditWriteOk then SignupResult(written, Failed(ReferralFailed))
                    else
                      var credited := written.(accounts := written.accounts[ref := Credit(written.accounts[ref], reward)]);
                      SignupResult(credited, Created(uid))
              else SignupResult(written, Created(uid))
  }

  // ---------------------------------------------------------------------------
  // Properties of the workflow.

  /** A taken username stops the handler before the credential call: nothing changes. */
  lemma TakenUsernameAborts(b: Backend, req: SignupRequest, ora: Oracle, earningsBinding: Option<real>)
    requires ValidateSignup(req.fields) == Accepted && ora.usernameQueryOk
    requires IsTaken(b.accounts, Trim(req.fields.username))
    ensures HandleSubmit(b, req, ora, earningsBinding) == SignupResult(b, Failed(UsernameTaken))
  {
  }

  /**
   * Without a positive reward (failed or missing settings read, a falsy bonus,
   * or no referrer) no existing account is touched: the only change to the
   * accounts is the new profile.
   */
  lemma NoRewardNoCredit(b: Backend, req: SignupRequest, ora: Oracle, earnings: real)
    requires ReachesCredential(b, req, ora) && ora.profileWriteOk
    requires RewardAmount(b.referralBonus, ora.settingsReadOk) <= 0.0 || Trim(req.referrer) == ""
    ensures HandleSubmit(b, req, ora, Some(earnings)) == SignupResult(WithProfile(b, req, ora.auth.uid, earnings), Created(ora.auth.uid))
    ensures forall u :: u in b.accounts && u != ora.auth.uid ==>
      HandleSubmit(b, req, ora, Some(earnings)).backend.accounts[u] == b.accounts[u]
  {
  }

  /** A failed settings read is not fatal: with no reward due, sign-up still succeeds. */
  lemma SettingsFailureNotFatal(b: Backend, req: SignupRequest, ora: Oracle, earnings: real)
    requires ReachesCredential(b, req, ora) && ora.profileWriteOk
    requires !ora.settingsReadOk || b.referralBonus.None?
    ensures HandleSubmit(b, req, ora, Some(earnings)).outcome == Created(ora.auth.uid)
  {
  }

  /**
   * A referral is credited to the first account (in id order) with the
   * referrer's username, looked up after the new profile is written: balance
   * and earnings rise by the reward, the count by one, and no other account
   * changes beyond the new profile.
   */
  lemma ReferrerCredited(b: Backend, req: SignupRequest, ora: Oracle, earnings: real)
    requires ReachesCredential(b, req, ora)
    requires ora.profileWriteOk && ora.referrerQueryOk && ora.creditWriteOk
    requires Trim(req.referrer) != "" && RewardAmount(b.referralBonus, ora.settingsReadOk) > 0.0
    requires IsTaken(WithProfile(b, req, ora.auth.uid, earnings).accounts, Trim(req.referrer))
    ensures var written := WithProfile(b, req, ora.auth.uid, earnings).accounts;
            var ref := FirstMatch(written, Trim(req.referrer)).value;
            var reward := RewardAmount(b.referralBonus, ora.settingsReadOk);
            var after := HandleSubmit(b, req, ora, Some(earnings));
      && after.outcome == Created(ora.auth.uid)
      && after.backend.accounts.Keys == written.Keys
      && after.backend.accounts[ref].username == Trim(req.referrer)
      && after.backend.accounts[ref].balance == written[ref].balance + reward
      && after.backend.accounts[ref].referralEarnings == written[ref].referralEarnings + reward
      && after.backend.accounts[ref].referralsCount == written[ref].referralsCount + 1.0
      && (forall u :: u in written && u != ref ==> after.backend.accounts[u] == written[u])
      && (forall u :: u in b.accounts && u != ref && u != ora.auth.uid ==> after.backend.accounts[u] == b.accounts[u])
  {
  }

  /** A referrer that matches no account is skipped silently: sign-up succeeds with only the new profile added. */
  lemma UnknownReferrerSkipped(b: Backend, req: SignupRequest, ora: Oracle, earnings: real)
    requires ReachesCredential(b, req, ora) && ora.profileWriteOk && ora.referrerQueryOk
    requires !IsTaken(WithProfile(b, req, ora.auth.uid, earnings).accounts, Trim(req.referrer))
    ensures HandleSubmit(b, req, ora, Some(earnings)) == SignupResult(WithProfile(b, req, ora.auth.uid, earnings), Created(ora.auth.uid))
  {
  }

  /**
   * A failed profile write happens after the credential exists: the address
   * stays registered but no profile is added, and the user sees an error.
   */
  lemma ProfileWriteFailureOrphansCredential(b: Backend, req: SignupRequest, ora: Oracle, earnings: real)
    requires ReachesCredential(b, req, ora) && !ora.profileWriteOk
    ensures var r := HandleSubmit(b, req, ora, Some(earnings));
      && r.outcome == Failed(ProfileWriteFailed)
      && CredentialKey(req.fields.email) in r.backend.credentials
      && r.backend.accounts == b.accounts
  {
  }

  /**
   * A failed referrer query or credit update is not swallowed: it ends in the
   * outer `catch` with an error, although the new profile is already written
   * and stays, and no account is credited.
   */
  lemma ReferralFailureKeepsProfile(b: Backend, req: SignupRequest, ora: Oracle, earnings: real)
    requires ReachesCredential(b, req, ora) && ora.profileWriteOk
    requires Trim(req.referrer) != "" && RewardAmount(b.referralBonus, ora.settingsReadOk) > 0.0
    requires || !ora.referrerQueryOk
             || (FirstMatch(WithProfile(b, req, ora.auth.uid, earnings).accounts, Trim(req.referrer)).Some?
                 && !ora.creditWriteOk)
    ensures HandleSubmit(b, req, ora, Some(earnings)) ==
      SignupResult(WithProfile(b, req, ora.auth.uid, earnings), Failed(ReferralFailed))
  {
  }

  /**
   * Naming yourself as referrer pays yourself: the username is free before the
   * write, so after it the new account is the only match and is credited.
   */
  lemma SelfReferralCreditsNewAccount(b: Backend, req: SignupRequest, ora: Oracle, earnings: real)
    requires ReachesCredential(b, req, ora)
    requires ora.profileWriteOk && ora.referrerQueryOk && ora.creditWriteOk
    requires Trim(req.referrer) == Trim(req.fields.username) != ""
    requires RewardAmount(b.referralBonus, ora.settingsReadOk) > 0.0
    ensures var r := HandleSubmit(b, req, ora, Some(earnings));
            var uid := ora.auth.uid;
      && r.outcome == Created(uid)
      && r.backend.accounts[uid].balance == RewardAmount(b.referralBonus, ora.settingsReadOk)
      && r.backend.accounts[uid].referralsCount == 1.0
      && r.backend.accounts[uid].referredBy == Some(Trim(req.fields.username))
  {
  }

  /** The account a successful sign-up leaves at the new uid: the fresh profile, credited once if it referred itself. */
  lemma NewAccountOnSuccess(b: Backend, req: SignupRequest, ora: Oracle, earnings: real)
    requires HandleSubmit(b, req, ora, Some(earnings)).outcome.Created?
    ensures var uid := ora.auth.uid;
            var initial := NewProfile(uid, req.fields, Trim(req.fields.username), Trim(req.referrer), earnings);
            var a := HandleSubmit(b, req, ora, Some(earnings)).backend.accounts[uid];
      a == initial || (RewardAmount(b.referralBonus, ora.settingsReadOk) > 0.0
                     && a == Credit(initial, RewardAmount(b.referralBonus, ora.settingsReadOk)))
  {
  }

  /** Presence is checked before trimming, so a username of only spaces is accepted and stored empty. */
  lemma BlankUsernameStoredEmpty(b: Backend, req: SignupRequest, ora: Oracle, earnings: real)
    requires AllWhite(req.fields.username)
    requires HandleSubmit(b, req, ora, Some(earnings)).outcome.Created?
    ensures HandleSubmit(b, req, ora, Some(earnings)).backend.accounts[ora.auth.uid].username == ""
  {
  }

  lemma WithProfileConsistent(b: Backend, req: SignupRequest, uid: Uid, earnings: real)
    requires Consistent(b) && !IsTaken(b.accounts, Trim(req.fields.username))
    ensures Consistent(WithProfile(b, req, uid, earnings))
  {
  }

  lemma CreditConsistent(b: Backend, ref: Uid, reward: real)
    requires Consistent(b) && ref in b.accounts
    ensures Consistent(b.(accounts := b.accounts[ref := Credit(b.accounts[ref], reward)]))
  {
  }

  /** Sign-up keeps the backend consistent: usernames stay unique, records stay keyed by uid, profiles stay registered. */
  lemma SignupPreservesConsistency(b: Backend, req: SignupRequest, ora: Oracle, earningsBinding: Option<real>)
    requires Consistent(b)
    ensures Consistent(HandleSubmit(b, req, ora, earningsBinding).backend)
  {
    var r := HandleSubmit(b, req, ora, earningsBinding);
    if ReachesCredential(b, req, ora) && earningsBinding.Some? && ora.profileWriteOk {
      var uid := ora.auth.uid;
      var written := WithProfile(b, req, uid, earningsBinding.value);
      WithProfileConsistent(b, req, uid, earningsBinding.value);
      var referrer := Trim(req.referrer);
      var reward := RewardAmount(b.referralBonus, ora.settingsReadOk);
      if referrer != "" && reward > 0.0 && ora.referrerQueryOk && ora.creditWriteOk
        && FirstMatch(written.accounts, referrer).Some?
      {
        var ref := FirstMatch(written.accounts, referrer).value;
        CreditConsistent(written, ref, reward);
        assert r.backend == written.(accounts := written.accounts[ref := Credit(written.accounts[ref], reward)]);
      } else {
        assert r.backend == written;
      }
    } else if ReachesCredential(b, req, ora) {
      assert r.backend.accounts == b.accounts;
    }
  }

  // ---------------------------------------------------------------------------
  // The name `referralEarnings` in the profile literal.

  /**
   * As written, when nothing defines `referralEarnings` every sign-up that
   * creates a credential ends in an error with no profile: the address is
   * registered and can sign in, but has no account record.
   */
  lemma UnboundEarningsOrphansCredential(b: Backend, req: SignupRequest, ora: Oracle)
    requires ReachesCredential(b, req, ora)
    ensures HandleSubmit(b, req, ora, None) ==
      SignupResult(b.(credentials := b.credentials + {CredentialKey(req.fields.email)}), Failed(EarningsUnbound))
  {
  }

  /** With `referralEarnings: 0` the new account's earnings equal its balance: nothing, or one reward for a self-referral. */
  lemma ZeroEarningsCounted(b: Backend, req: SignupRequest, ora: Oracle, r: SignupResult)
    requires r == HandleSubmit(b, req, ora, Some(0.0))
    ensures r.outcome.Created? ==> r.outcome.uid in r.backend.accounts
    ensures r.outcome.Created? ==>
      var a := r.backend.accounts[r.outcome.uid];
      && a.referralEarnings == a.balance
      && ((a.referralsCount == 0.0 && a.balance == 0.0) ||
          (a.referralsCount == 1.0 && a.balance == RewardAmount(b.referralBonus, ora.settingsReadOk)))
  {
    if r.outcome.Created? {
      NewAccountOnSuccess(b, req, ora, 0.0);
    }
  }

  /** The handler with the evident intent `referralEarnings: 0`. */
  function HandleSubmitCorrected(b: Backend, req: SignupRequest, ora: Oracle): (r: SignupResult)
    ensures r.outcome != Failed(EarningsUnbound)
    ensures ReachesCredential(b, req, ora) && ora.profileWriteOk && ora.referrerQueryOk && ora.creditWriteOk ==>
      r.outcome == Created(ora.auth.uid)
    ensures r.outcome.Created? ==> r.outcome.uid in r.backend.accounts
    ensures r.outcome.Created? ==>
      var a := r.backend.accounts[r.outcome.uid];
      && a.referralEarnings == a.balance
      && ((a.referralsCount == 0.0 && a.balance == 0.0) ||
          (a.referralsCount == 1.0 && a.balance == RewardAmount(b.referralBonus, ora.settingsReadOk)))
  {
    var r := HandleSubmit(b, req, ora, Some(0.0));
    ZeroEarningsCounted(b, req, ora, r);
    r
  }

  // ---------------------------------------------------------------------------
  // The `catch` block's alert.

  datatype SignupAlert = FormAlert(problem: Problem) | EmailAlreadyInUseAlert | ErrorMessage(failure: Failure)

  /**
   * Only the `auth/email-already-in-use` error gets its own message; other
   * errors show their own message. The message is chosen by the error code,
   * so a refusal carrying that code gets it too (`HandleSubmit` itself reports
   * such a refusal as `EmailInUse`).
   */
  function AlertFor(f: Failure): (a: SignupAlert)
    ensures a == EmailAlreadyInUseAlert <==> f == EmailInUse || f == CredentialRejected(EmailInUseCode)
    ensures a.ErrorMessage? ==> a.failure == f
    ensures a.FormAlert? <==> f.Invalid?
    ensures a.FormAlert? ==> a.problem == f.problem
  {
    match f
    case Invalid(p) => FormAlert(p)
    case EmailInUse => EmailAlreadyInUseAlert
    case CredentialRejected(code) => if code == EmailInUseCode then EmailAlreadyInUseAlert else ErrorMessage(f)
    case _ => ErrorMessage(f)
  }

  /**
   * The in-use message appears exactly when the form passes, the username is
   * free, and the address is registered under its key or the service refuses
   * it as in use.
   */
  lemma InUseAlertIffAddressTaken(b: Backend, req: SignupRequest, ora: Oracle, earningsBinding: Option<real>)
    ensures var r := HandleSubmit(b, req, ora, earningsBinding);
      r.outcome.Failed? && AlertFor(r.outcome.failure) == EmailAlreadyInUseAlert <==>
      && ValidateSignup(req.fields) == Accepted && ora.usernameQueryOk && !IsTaken(b.accounts, Trim(req.fields.username))
      && (CredentialKey(req.fields.email) in b.credentials || ora.auth == AuthRejected(EmailInUseCode))
  {
  }

  /** An address registered in another letter case is refused as in use, before any credential call. */
  lemma CaseVariantInUse(b: Backend, req: SignupRequest, ora: Oracle, earningsBinding: Option<real>, registered: string)
    requires ValidateSignup(req.fields) == Accepted && ora.usernameQueryOk
    requires !IsTaken(b.accounts, Trim(req.fields.username))
    requires registered in b.credentials && |registered| == |req.fields.email|
    requires forall i :: 0 <= i < |registered| ==> registered[i] == LowerAscii(req.fields.email[i])
    ensures HandleSubmit(b, req, ora, earningsBinding) == SignupResult(b, Failed(EmailInUse))
  {
    assert CredentialKey(req.fields.email) == registered;
  }
}
