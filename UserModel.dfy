/**
 * The `User` record of models/User.js and the users collection that holds it.
 *
 * `email` passes through the schema's setters, `lowercase` then `trim`, both when a document
 * is built and when a query filter is cast, so the collection holds normalised addresses and
 * looks them up by their normalised form. `otpHash` and `otpExpiresAt` default to null (None):
 * no OTP is pending. `otpExpiresAt` is a millisecond timestamp. The document `_id` is `docId`,
 * the position at which the store inserted the document.
 */
module UserModel {
  import opened Wrappers
  import opened JsText
  import opened Query
  import opened Secrets

  datatype User = User(
    docId: nat,
    email: string,
    passwordHash: Digest,
    name: string,
    phone: string,
    isVerified: bool,
    otpHash: Option<Digest>,
    otpExpiresAt: Option<int>)

  /** The `email` setters: `lowercase: true`, then `trim: true`. */
  function NormalizeEmail(e: string): string {
    Trim(ToLower(e))
  }

  /**
   * The handlers' own `email.trim().toLowerCase()` is the setters' result, so the stored key
   * and the looked-up key agree whichever side normalises.
   */
  lemma HandlerFormIsNormal(e: string)
    ensures ToLower(Trim(e)) == NormalizeEmail(e)
  {
    TrimLowerCommute(e);
  }

  /** What the setters leave: no upper-case ASCII letter, no white space at either end. */
  predicate Normal(e: string) {
    && NoUpper(e)
    && (e != [] ==> !IsJsSpace(e[0]) && !IsJsSpace(e[|e| - 1]))
  }

  /** The setters' result is normal, and a normal address is its own normal form. */
  lemma NormalizeIsNormal(e: string)
    ensures Normal(NormalizeEmail(e))
  {
    var l := ToLower(e);
    LowerHasNoUpper(e);
    var t := TrimStart(l);
    var r := TrimEnd(t);
    assert t == l[|l| - |t|..];
    assert r == t[..|r|];
    NoUpperSlice(l, |l| - |t|, |l|);
    NoUpperSlice(t, 0, |r|);
    if r != [] {
      assert r[0] == t[0];
    }
  }

  predicate NoUpper(s: string) {
    forall i :: 0 <= i < |s| ==> !('A' <= s[i] <= 'Z')
  }

  lemma LowerHasNoUpper(e: string)
    ensures NoUpper(ToLower(e))
  {
    var l := ToLower(e);
    ToLowerAt(e);
    forall i | 0 <= i < |l| ensures !('A' <= l[i] <= 'Z') {
      assert l[i] == LowerChar(e[i]);
    }
  }

  lemma NoUpperSlice(s: string, a: nat, b: nat)
    requires a <= b <= |s| && NoUpper(s)
    ensures NoUpper(s[a..b])
  {
    forall i | 0 <= i < b - a ensures !('A' <= s[a..b][i] <= 'Z') {
      assert s[a..b][i] == s[a + i];
    }
  }

  lemma NormalIsFixed(e: string)
    requires Normal(e)
    ensures NormalizeEmail(e) == e
  {
    ToLowerAt(e);
    assert ToLower(e) == e;
    assert TrimStart(e) == e;
    assert TrimEnd(e) == e;
  }

  /** Normalising twice changes nothing. */
  lemma NormalizeIdempotent(e: string)
    ensures NormalizeEmail(NormalizeEmail(e)) == NormalizeEmail(e)
  {
    NormalizeIsNormal(e);
    NormalIsFixed(NormalizeEmail(e));
  }

  /** The handler's key is blank after the setters exactly when the raw address is. */
  lemma HandlerKeyBlank(e: string)
    ensures NormalizeEmail(ToLower(Trim(e))) == "" <==> NormalizeEmail(e) == ""
  {
    HandlerFormIsNormal(e);
    NormalizeIdempotent(e);
  }

  /** `new User({ email, passwordHash, name, phone })`: defaults fill the rest. */
  function NewUser(email: string, passwordHash: Digest, name: string, phone: string): (u: User)
    ensures u.email == NormalizeEmail(email)
    ensures u.passwordHash == passwordHash && u.name == name && u.phone == phone
    ensures !u.isVerified && u.otpHash == None && u.otpExpiresAt == None
  {
    User(0, NormalizeEmail(email), passwordHash, name, phone, false, None, None)
  }

  // ---------------------------------------------------------------- account states

  datatype AccountState =
    | Unverified    // not verified, no OTP pending
    | OtpPending    // not verified, an OTP that has not expired
    | OtpExpired    // not verified, the pending OTP expired
    | Verified

  /** The state an account is in at time `now`. An OTP counts as pending only with both fields set. */
  function StateAt(u: User, now: int): (st: AccountState)
    ensures st == Verified <==> u.isVerified
    ensures st == Unverified <==> !u.isVerified && (u.otpHash == None || u.otpExpiresAt == None)
    ensures st == OtpPending <==> !u.isVerified && u.otpHash.Some? && u.otpExpiresAt.Some? && now <= u.otpExpiresAt.value
  {
    if u.isVerified then Verified
    else if u.otpHash.None? || u.otpExpiresAt.None? then Unverified
    else if u.otpExpiresAt.value < now then OtpExpired
    else OtpPending
  }

  /** A freshly built document is unverified with no OTP pending, at every moment. */
  lemma NewUserUnverified(email: string, passwordHash: Digest, name: string, phone: string, now: int)
    ensures StateAt(NewUser(email, passwordHash, name, phone), now) == Unverified
  {
  }

  // ---------------------------------------------------------------- the collection

  /**
   * What the collection guarantees: `_id` is the position, every `email` is present,
   * normal (NormalIsFixed: its own normal form) and unique.
   */
  predicate UsersWellFormed(users: seq<User>) {
    && (forall i, j :: 0 <= i < j < |users| ==> users[i].email != users[j].email)
    && forall i :: 0 <= i < |users| ==> StoredAt(users[i], i)
  }

  /** The per-document guarantees of a document stored at position i. */
  predicate StoredAt(u: User, i: nat) {
    && u.docId == i
    && u.email != ""
    && Normal(u.email)
  }

  function EmailIs(key: string): User -> bool {
    (u: User) => u.email == key
  }

  /** `User.findOne({ email })`: the filter value is normalised by the setters first. */
  function FindByEmail(users: seq<User>, email: string): (r: Option<nat>)
    ensures r.None? <==> forall i :: 0 <= i < |users| ==> users[i].email != NormalizeEmail(email)
    ensures r.Some? ==> r.value < |users| && users[r.value].email == NormalizeEmail(email)
  {
    FirstIndex(users, EmailIs(NormalizeEmail(email)))
  }

  /** In a well-formed collection at most one document has a given address. */
  lemma FindByEmailUnique(users: seq<User>, email: string, i: nat)
    requires UsersWellFormed(users) && i < |users| && users[i].email == NormalizeEmail(email)
    ensures FindByEmail(users, email) == Some(i)
  {
  }

  /**
   * `save()` of a new document succeeds when the required `email` is non-empty after the
   * setters and the unique index holds no document with it.
   */
  predicate UserAccepts(users: seq<User>, u: User) {
    && u.email != ""
    && forall i :: 0 <= i < |users| ==> users[i].email != u.email
  }

  function UserInserted(users: seq<User>, u: User): (r: seq<User>)
    ensures |r| == |users| + 1 && r[..|users|] == users
    ensures r[|users|] == u.(docId := |users|)
  {
    users + [u.(docId := |users|)]
  }

  lemma UserInsertKeepsWellFormed(users: seq<User>, u: User)
    requires UsersWellFormed(users) && UserAccepts(users, u) && Normal(u.email)
    ensures UsersWellFormed(UserInserted(users, u))
  {
    var r := UserInserted(users, u);
    forall i, j | 0 <= i < j < |r| ensures r[i].email != r[j].email {
      assert r[i] == users[i];
      if j < |users| {
        assert r[j] == users[j];
      }
    }
    forall k | 0 <= k < |r| ensures StoredAt(r[k], k) {
      if k < |users| {
        assert r[k] == users[k];
      }
    }
  }

  /** Writing back a fetched document whose `_id` and `email` are unchanged keeps the guarantees. */
  lemma UserReplaceKeepsWellFormed(users: seq<User>, i: nat, u: User)
    requires UsersWellFormed(users) && i < |users|
    requires u.docId == users[i].docId && u.email == users[i].email
    ensures UsersWellFormed(users[i := u])
  {
    var r := users[i := u];
    forall a, b | 0 <= a < b < |r| ensures r[a].email != r[b].email {
      assert r[a].email == users[a].email && r[b].email == users[b].email;
    }
    forall k | 0 <= k < |r| ensures StoredAt(r[k], k) {
      assert StoredAt(users[k], k);
      assert r[k].docId == users[k].docId && r[k].email == users[k].email;
    }
  }

  /** The users collection. Every handler runs as one step; `users` is in insertion order. */
  class UserStore {
    var users: seq<User>

    ghost predicate Valid()
      reads this
    {
      UsersWellFormed(users)
    }

    constructor ()
      ensures Valid() && users == []
    {
      users := [];
    }

    /** `save()` of a new document: insert it, or refuse it and change nothing. */
    method Insert(u: User) returns (ok: bool)
      requires Valid() && Normal(u.email)
      modifies this
      ensures Valid()
      ensures ok == UserAccepts(old(users), u)
      ensures users == if ok then UserInserted(old(users), u) else old(users)
    {
      ok := u.email != "";
      var i := 0;
      while ok && i < |users|
        invariant 0 <= i <= |users|
        invariant ok ==> u.email != ""
        invariant ok ==> forall j :: 0 <= j < i ==> users[j].email != u.email
        invariant !ok ==> !UserAccepts(users, u)
      {
        if users[i].email == u.email {
          ok := false;
        }
        i := i + 1;
      }
      if ok {
        UserInsertKeepsWellFormed(users, u);
        users := UserInserted(users, u);
      }
    }

    /** `save()` of a fetched document whose identity fields are unchanged. */
    method Replace(i: nat, u: User)
      requires Valid() && i < |users|
      requires u.docId == users[i].docId && u.email == users[i].email
      modifies this
      ensures Valid()
      ensures users == old(users)[i := u]
    {
      UserReplaceKeepsWellFormed(users, i, u);
      users := users[i := u];
    }
  }
}
