/**
 * The backend the script talks to, reduced to explicit state: the `users`
 * collection as a map from document id (the account's uid) to its record,
 * the set of e-mail addresses registered with the authentication service
 * (under the service's case-insensitive key), and the `settings/general`
 * document's referral bonus field.
 */
module Directory {
  import opened Wrappers

  type Uid = string

  /**
   * A `users` document. The amounts are JavaScript numbers, here exact reals
   * (so a fractional bonus is representable). The server timestamp
   * `createdAt` is not modelled.
   */
  datatype Account = Account(
    uid: Uid,
    fullName: string,
    username: string,
    email: string,
    referredBy: Option<string>,
    balance: real,
    referralEarnings: real,
    referralsCount: real,
    role: string)

  /** The `referralBonus` field of the settings document as stored: absent, a number, or NaN. */
  datatype BonusField = NoBonusField | Number(amount: real) | NotANumber

  /** `referralBonus` is `None` when the settings document does not exist. */
  datatype Backend = Backend(
    accounts: map<Uid, Account>,
    credentials: set<string>,
    referralBonus: Option<BonusField>)

  // ---------------------------------------------------------------------------
  // Credential keys. The authentication service compares addresses without
  // regard to letter case; a registered address is kept under its key.

  function LowerAscii(c: char): char {
    if 'A' <= c <= 'Z' then (c as int + 32) as char else c
  }

  /** The key under which the service registers an address: ASCII letters folded to lower case. */
  function CredentialKey(email: string): (k: string)
    ensures |k| == |email|
    ensures forall i :: 0 <= i < |k| ==> !('A' <= k[i] <= 'Z')
    ensures forall i :: 0 <= i < |k| ==> k[i] == email[i] || ('A' <= email[i] <= 'Z' && k[i] as int == email[i] as int + 32)
  {
    seq(|email|, i requires 0 <= i < |email| => LowerAscii(email[i]))
  }

  /** Two addresses that differ only in ASCII letter case are the same credential. */
  lemma CaseVariantsShareKey(a: string, b: string)
    requires |a| == |b|
    requires forall i :: 0 <= i < |a| ==> LowerAscii(a[i]) == LowerAscii(b[i])
    ensures CredentialKey(a) == CredentialKey(b)
  {
  }


  // ---------------------------------------------------------------------------
  // Document-id order. An equality query returns its documents ordered by id,
  // and ids compare character by character (code-point order, which is also
  // the order of their UTF-8 bytes).

  predicate LexLeq(a: string, b: string)
    decreases |a|
  {
    |a| == 0 || (|b| > 0 && (a[0] < b[0] || (a[0] == b[0] && LexLeq(a[1..], b[1..]))))
  }

  lemma {:induction false} LexLeqTotal(a: string, b: string)
    ensures LexLeq(a, b) || LexLeq(b, a)
    decreases |a|
  {
    if |a| > 0 && |b| > 0 && a[0] == b[0] {
      LexLeqTotal(a[1..], b[1..]);
    }
  }

  lemma {:induction false} LexLeqAntisymmetric(a: string, b: string)
    requires LexLeq(a, b) && LexLeq(b, a)
    ensures a == b
    decreases |a|
  {
    if |a| > 0 && |b| > 0 {
      LexLeqAntisymmetric(a[1..], b[1..]);
      assert a == [a[0]] + a[1..] && b == [b[0]] + b[1..];
    }
  }

  lemma {:induction false} LexLeqTransitive(a: string, b: string, c: string)
    requires LexLeq(a, b) && LexLeq(b, c)
    ensures LexLeq(a, c)
    decreases |a|
  {
    if |a| > 0 && a[0] == b[0] && b[0] == c[0] {
      LexLeqTransitive(a[1..], b[1..], c[1..]);
    }
  }

  lemma LexLeqAntisymmetricAll()
    ensures forall a: string, b: string :: LexLeq(a, b) && LexLeq(b, a) ==> a == b
  {
    forall a: string, b: string | LexLeq(a, b) && LexLeq(b, a) ensures a == b {
      LexLeqAntisymmetric(a, b);
    }
  }

  predicate IsLeast(m: string, ids: set<string>) {
    m in ids && forall u :: u in ids ==> LexLeq(m, u)
  }

  /** Every finite non-empty set of ids has a first one. */
  lemma {:induction false} LeastExists(ids: set<string>)
    requires ids != {}
    ensures exists m :: IsLeast(m, ids)
    decreases |ids|
  {
    var x :| x in ids;
    if ids == {x} {
      LexLeqTotal(x, x);
      assert IsLeast(x, ids);
    } else {
      LeastExists(ids - {x});
      var m :| IsLeast(m, ids - {x});
      LexLeqTotal(x, m);
      if LexLeq(x, m) {
        forall u | u in ids ensures LexLeq(x, u) {
          if u != x { LexLeqTransitive(x, m, u); } else { LexLeqTotal(x, x); }
        }
        assert IsLeast(x, ids);
      } else {
        assert IsLeast(m, ids);
      }
    }
  }

  // ---------------------------------------------------------------------------
  // Queries on the `users` collection.

  /** The usernames held by the accounts. */
  function Usernames(accounts: map<Uid, Account>): set<string> {
    set u | u in accounts :: accounts[u].username
  }

  /** `where("username", "==", name).get()` is non-empty. */
  predicate IsTaken(accounts: map<Uid, Account>, name: string): (taken: bool)
    ensures taken <==> name in Usernames(accounts)
  {
    exists u :: u in accounts && accounts[u].username == name
  }

  function Matching(accounts: map<Uid, Account>, name: string): set<Uid> {
    set u | u in accounts && accounts[u].username == name
  }

  /** `docs[0]` of the username query: the matching account with the least id. */
  function FirstMatch(accounts: map<Uid, Account>, name: string): (r: Option<Uid>)
    ensures r.None? <==> !IsTaken(accounts, name)
    ensures r.Some? ==> r.value in accounts && accounts[r.value].username == name
    ensures r.Some? ==> forall u :: u in accounts && accounts[u].username == name ==> LexLeq(r.value, u)
  {
    var hits := Matching(accounts, name);
    assert forall u :: u in accounts && accounts[u].username == name ==> u in hits;
    if hits == {} then
      None
    else
      LeastExists(hits);
      LexLeqAntisymmetricAll();
      var m :| IsLeast(m, hits);
      Some(m)
  }

  /** With usernames unique, the first match is the only one. */
  lemma FirstMatchOfUnique(accounts: map<Uid, Account>, name: string, u: Uid)
    requires UniqueUsernames(accounts)
    requires u in accounts && accounts[u].username == name
    ensures FirstMatch(accounts, name) == Some(u)
  {
  }

  /** The three counters a referral raises: balance and earnings by the reward, the count by one. */
  function Credit(a: Account, reward: real): (c: Account)
    ensures c.balance - a.balance == c.referralEarnings - a.referralEarnings == reward
    ensures c.referralsCount - a.referralsCount == 1.0
    ensures c.(balance := a.balance, referralEarnings := a.referralEarnings, referralsCount := a.referralsCount) == a
  {
    a.(balance := a.balance + reward,
       referralEarnings := a.referralEarnings + reward,
       referralsCount := a.referralsCount + 1.0)
  }

  // ---------------------------------------------------------------------------
  // Consistency of the backend state.

  ghost predicate UniqueUsernames(accounts: map<Uid, Account>) {
    forall u, v :: u in accounts && v in accounts && accounts[u].username == accounts[v].username ==> u == v
  }

  /** Each record sits at the document named by its own uid. */
  ghost predicate KeyedByUid(accounts: map<Uid, Account>) {
    forall u :: u in accounts ==> accounts[u].uid == u
  }

  /** Every profile belongs to a registered credential (the converse may fail: see the sign-up workflow). */
  ghost predicate ProfilesRegistered(b: Backend) {
    forall u :: u in b.accounts ==> CredentialKey(b.accounts[u].email) in b.credentials
  }

  ghost predicate Consistent(b: Backend) {
    UniqueUsernames(b.accounts) && KeyedByUid(b.accounts) && ProfilesRegistered(b)
  }
}
