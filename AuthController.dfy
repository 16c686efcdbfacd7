/**
 * The account handlers of controllers/authController.js, a second draft of register,
 * verify-otp and login over the same users collection. It differs from the server's draft:
 * register has no verified-account check and overwrites any existing account's password and
 * OTP; verify-otp and login check no fields up front; a missing expiry compares as 0; and a
 * code or password that is not a string makes bcrypt throw, which the catch turns into a 500.
 * An absent `email` is the empty string, which no stored document has. The mail transport
 * either delivers or throws (utils/email.js throws when it is not configured).
 */
module AuthController {
  import opened Wrappers
  import opened Http
  import opened Secrets
  import opened UserModel
  import opened ServerAuth

  // ---------------------------------------------------------------- register

  /**
   * The document register saves: a new one with the body's name and phone, or the stored one
   * with only a new password digest; either way with the digest of a fresh OTP expiring ten
   * minutes from now.
   */
  function Rehashed(users: seq<User>, found: Option<nat>, body: RegisterBody, d: RegisterDraws, now: int): (u: User)
    requires found.Some? ==> found.value < |users|
    ensures u.otpHash == Some(Hash(GenerateOtp(d.otp), d.otpSalt)) && u.otpExpiresAt == Some(now + OtpLifetimeMs)
    ensures u.passwordHash == Hash(body.password, d.passwordSalt)
    ensures found.None? ==>
      u.email == NormalizeEmail(body.email) && !u.isVerified && u.name == body.name && u.phone == body.phone
    ensures found.Some? ==>
      u == users[found.value].(passwordHash := u.passwordHash, otpHash := u.otpHash, otpExpiresAt := u.otpExpiresAt)
  {
    match found
    case None =>
      NewUser(body.email, Hash(body.password, d.passwordSalt), body.name, body.phone)
        .(otpHash := Some(Hash(GenerateOtp(d.otp), d.otpSalt)), otpExpiresAt := Some(now + OtpLifetimeMs))
    case Some(i) =>
      users[i].(passwordHash := Hash(body.password, d.passwordSalt),
                otpHash := Some(Hash(GenerateOtp(d.otp), d.otpSalt)),
                otpExpiresAt := Some(now + OtpLifetimeMs))
  }

  /** `registerHandler`; `mailSent` is whether `sendOtpEmail` returned rather than threw. */
  function Register(users: seq<User>, body: RegisterBody, d: RegisterDraws, now: int, mailSent: bool): UserOutcome<string> {
    if body.email == "" || body.password == "" then
      UserOutcome(Fail(BadRequest, "Email and password required"), users)
    else
      RegisterFound(users, FindByEmail(users, body.email), body, d, now, mailSent)
  }

  /** Register after `findOne`, given what it returned. */
  function RegisterFound(users: seq<User>, found: Option<nat>, body: RegisterBody, d: RegisterDraws, now: int, mailSent: bool): UserOutcome<string>
    requires found.Some? ==> found.value < |users|
  {
    var u := Rehashed(users, found, body, d, now);
    if found.None? && !UserAccepts(users, u) then
      UserOutcome(Fail(ServerError, "Server error during registration"), users)
    else
      var saved := if found.None? then UserInserted(users, u) else users[found.value := u];
      if !mailSent then UserOutcome(Fail(ServerError, "Server error during registration"), saved)
      else UserOutcome(Ok("OTP sent to email."), saved)
  }

  method RegisterHandler(store: UserStore, body: RegisterBody, d: RegisterDraws, now: int, mailSent: bool) returns (reply: Reply<string>)
    requires store.Valid()
    modifies store
    ensures store.Valid()
    ensures UserOutcome(reply, store.users) == Register(old(store.users), body, d, now, mailSent)
  {
    if body.email == "" || body.password == "" {
      reply := Fail(BadRequest, "Email and password required");
      return;
    }
    var found := FindByEmail(store.users, body.email);
    reply := RegisterSteps(store, found, body, d, now, mailSent);
  }

  /** The handler after `findOne`: build or update the document field by field, `save()`, then mail. */
  method RegisterSteps(store: UserStore, found: Option<nat>, body: RegisterBody, d: RegisterDraws, now: int, mailSent: bool)
    returns (reply: Reply<string>)
    requires store.Valid() && (found.Some? ==> found.value < |store.users|)
    modifies store
    ensures store.Valid()
    ensures UserOutcome(reply, store.users) == RegisterFound(old(store.users), found, body, d, now, mailSent)
  {
    var otp := GenerateOtp(d.otp);
    var otpHash := Hash(otp, d.otpSalt);
    var user: User;
    if found.None? {
      user := NewUser(body.email, Hash(body.password, d.passwordSalt), body.name, body.phone);
      user := user.(otpHash := Some(otpHash), otpExpiresAt := Some(now + OtpLifetimeMs));
    } else {
      user := store.users[found.value];
      user := user.(passwordHash := Hash(body.password, d.passwordSalt));
      user := user.(otpHash := Some(otpHash));
      user := user.(otpExpiresAt := Some(now + OtpLifetimeMs));
    }
    assert user == Rehashed(store.users, found, body, d, now);
    if found.None? {
      NormalizeIsNormal(body.email);
      var ok := store.Insert(user);
      if !ok {
        reply := Fail(ServerError, "Server error during registration");
        return;
      }
    } else {
      store.Replace(found.value, user);
    }
    if !mailSent {
      reply := Fail(ServerError, "Server error during registration");
      return;
    }
    reply := Ok("OTP sent to email.");
  }

  /**
   * An existing account, verified or not, is rewritten in place: its password digest, OTP
   * digest and expiry are replaced and every other field, `isVerified` included, is kept; the
   * write happens whether or not the mail then goes out.
   */
  lemma RegisterRewritesExisting(users: seq<User>, body: RegisterBody, d: RegisterDraws, now: int, mailSent: bool, i: nat)
    requires UsersWellFormed(users) && body.email != "" && body.password != ""
    requires i < |users| && users[i].email == NormalizeEmail(body.email)
    ensures var out := Register(users, body, d, now, mailSent);
      && (out.reply.Ok? <==> mailSent)
      && UsersWellFormed(out.users)
      && out.users == users[i := users[i].(passwordHash := Hash(body.password, d.passwordSalt),
                                           otpHash := Some(Hash(GenerateOtp(d.otp), d.otpSalt)),
                                           otpExpiresAt := Some(now + OtpLifetimeMs))]
      && out.users[i].isVerified == users[i].isVerified
  {
    FindByEmailUnique(users, body.email, i);
    var u := Rehashed(users, Some(i), body, d, now);
    UserReplaceKeepsWellFormed(users, i, u);
  }

  /**
   * A new address that is not blank after the setters is inserted as one unverified document
   * with the body's name and phone and an OTP pending until ten minutes from now.
   */
  lemma RegisterInsertsNew(users: seq<User>, body: RegisterBody, d: RegisterDraws, now: int, mailSent: bool)
    requires UsersWellFormed(users) && body.email != "" && body.password != ""
    requires NormalizeEmail(body.email) != "" && FindByEmail(users, body.email) == None
    ensures var out := Register(users, body, d, now, mailSent);
      && (out.reply.Ok? <==> mailSent)
      && UsersWellFormed(out.users)
      && |out.users| == |users| + 1 && out.users[..|users|] == users
      && var u := out.users[|users|];
         && u.email == NormalizeEmail(body.email) && u.name == body.name && u.phone == body.phone
         && u.passwordHash == Hash(body.password, d.passwordSalt)
         && StateAt(u, now) == OtpPending
         && u.otpHash == Some(Hash(GenerateOtp(d.otp), d.otpSalt)) && u.otpExpiresAt == Some(now + OtpLifetimeMs)
  {
    var u := Rehashed(users, None, body, d, now);
    SavedNew(users, body.email, u);
  }

  /** An address made only of white space passes `!email` but fails the schema's required check. */
  lemma RegisterBlankEmailFails(users: seq<User>, body: RegisterBody, d: RegisterDraws, now: int, mailSent: bool)
    requires UsersWellFormed(users) && body.email != "" && body.password != ""
    requires NormalizeEmail(body.email) == ""
    ensures Register(users, body, d, now, mailSent) == UserOutcome(Fail(ServerError, "Server error during registration"), users)
  {
    assert FindByEmail(users, body.email) == None;
  }

  // ---------------------------------------------------------------- verify-otp

  /** `user.otpExpiresAt < new Date()`: a null expiry converts to 0. */
  function ExpiryValue(u: User): (ms: int)
    ensures u.otpExpiresAt.Some? ==> ms == u.otpExpiresAt.value
    ensures u.otpExpiresAt.None? ==> ms == 0
  {
    match u.otpExpiresAt
    case None => 0
    case Some(t) => t
  }

  /** `verifyOtpHandler`; `otp` is None when the body's `otp` is not a string. */
  function VerifyOtp(users: seq<User>, email: string, otp: Option<string>, now: int): (out: UserOutcome<Profile>)
    ensures |out.users| == |users|
  {
    VerifyFound(users, FindByEmail(users, email), otp, now)
  }

  /** verify-otp after `findOne`, given what it returned. */
  function VerifyFound(users: seq<User>, found: Option<nat>, otp: Option<string>, now: int): (out: UserOutcome<Profile>)
    requires found.Some? ==> found.value < |users|
    ensures |out.users| == |users|
  {
    match found
    case None => UserOutcome(Fail(NotFound, "User not found"), users)
    case Some(i) =>
      var u := users[i];
      if u.otpHash.None? then UserOutcome(Fail(BadRequest, "OTP not generated"), users)
      else if ExpiryValue(u) < now then UserOutcome(Fail(BadRequest, "OTP expired"), users)
      else if otp.None? then UserOutcome(Fail(ServerError, "Server error verifying OTP"), users)
      else if !Compare(otp.value, u.otpHash.value) then UserOutcome(Fail(BadRequest, "Incorrect OTP"), users)
      else
        var v := u.(isVerified := true, otpHash := None, otpExpiresAt := None);
        UserOutcome(Ok(ProfileOf(v)), users[i := v])
  }

  method VerifyOtpHandler(store: UserStore, email: string, otp: Option<string>, now: int) returns (reply: Reply<Profile>)
    requires store.Valid()
    modifies store
    ensures store.Valid()
    ensures UserOutcome(reply, store.users) == VerifyOtp(old(store.users), email, otp, now)
  {
    var found := FindByEmail(store.users, email);
    reply := VerifyOtpSteps(store, found, otp, now);
  }

  /** The handler after `findOne`: the guards, then three field assignments and `save()`. */
  method VerifyOtpSteps(store: UserStore, found: Option<nat>, otp: Option<string>, now: int) returns (reply: Reply<Profile>)
    requires store.Valid() && (found.Some? ==> found.value < |store.users|)
    modifies store
    ensures store.Valid()
    ensures UserOutcome(reply, store.users) == VerifyFound(old(store.users), found, otp, now)
  {
    if found.None? {
      reply := Fail(NotFound, "User not found");
      return;
    }
    var user := store.users[found.value];
    if user.otpHash.None? {
      reply := Fail(BadRequest, "OTP not generated");
      return;
    }
    if ExpiryValue(user) < now {
      reply := Fail(BadRequest, "OTP expired");
      return;
    }
    if otp.None? {
      reply := Fail(ServerError, "Server error verifying OTP");
      return;
    }
    if !Compare(otp.value, user.otpHash.value) {
      reply := Fail(BadRequest, "Incorrect OTP");
      return;
    }
    user := user.(isVerified := true);
    user := user.(otpHash := None);
    user := user.(otpExpiresAt := None);
    store.Replace(found.value, user);
    reply := Ok(ProfileOf(user));
  }

  /**
   * The failures come in the handler's order: no account (404), no OTP digest, an expiry
   * strictly before now (a missing expiry reading as 0), a code that is not a string (500)
   * and a mismatch; each leaves the collection as it was. Otherwise that one account is
   * verified with both OTP fields cleared and no other document touched.
   */
  lemma VerifyOtpCases(users: seq<User>, email: string, otp: Option<string>, now: int)
    requires UsersWellFormed(users)
    ensures VerifyOtp(users, email, otp, now) == VerifyFound(users, FindByEmail(users, email), otp, now)
    ensures VerifyFoundOrder(users, FindByEmail(users, email), otp, now)
  {
    VerifyFoundCases(users, FindByEmail(users, email), otp, now);
  }

  /** The outcome of VerifyFound, case by case. */
  ghost predicate VerifyFoundOrder(users: seq<User>, found: Option<nat>, otp: Option<string>, now: int)
    requires found.Some? ==> found.value < |users|
  {
    var out := VerifyFound(users, found, otp, now);
    && (out.reply.Fail? ==> out.users == users)
    && (found.None? ==> out.reply == Fail(NotFound, "User not found"))
    && (found.Some? ==>
          var i := found.value;
          var u := users[i];
          && (u.otpHash.None? ==> out.reply == Fail(BadRequest, "OTP not generated"))
          && (u.otpHash.Some? && ExpiryValue(u) < now ==> out.reply == Fail(BadRequest, "OTP expired"))
          && (u.otpHash.Some? && now <= ExpiryValue(u) && otp.None? ==>
                out.reply == Fail(ServerError, "Server error verifying OTP"))
          && (u.otpHash.Some? && now <= ExpiryValue(u) && otp.Some? && !Compare(otp.value, u.otpHash.value) ==>
                out.reply == Fail(BadRequest, "Incorrect OTP"))
          && (out.reply.Ok? <==>
                u.otpHash.Some? && now <= ExpiryValue(u) && otp.Some? && Compare(otp.value, u.otpHash.value))
          && (out.reply.Ok? ==>
                && UsersWellFormed(out.users)
                && out.users[i] == u.(isVerified := true, otpHash := None, otpExpiresAt := None)
                && StateAt(out.users[i], now) == Verified
                && (forall j :: 0 <= j < |users| && j != i ==> out.users[j] == users[j])))
  }

  lemma VerifyFoundCases(users: seq<User>, found: Option<nat>, otp: Option<string>, now: int)
    requires UsersWellFormed(users) && (found.Some? ==> found.value < |users|)
    ensures VerifyFoundOrder(users, found, otp, now)
  {
    if found.Some? {
      var i := found.value;
      var u := users[i];
      if u.otpHash.Some? && now <= ExpiryValue(u) && otp.Some? && Compare(otp.value, u.otpHash.value) {
        var v := u.(isVerified := true, otpHash := None, otpExpiresAt := None);
        UserReplaceKeepsWellFormed(users, i, v);
        assert VerifyFound(users, found, otp, now) == UserOutcome(Ok(ProfileOf(v)), users[i := v]);
      } else {
        assert VerifyFound(users, found, otp, now).users == users;
      }
    }
  }

  /**
   * Register then verify: whether or not the mail went out, the code drawn at registration
   * verifies the account up to and including its expiry instant and is refused as expired
   * one millisecond later; this holds for an existing, even verified, account too.
   */
  lemma RegisterThenVerify(users: seq<User>, body: RegisterBody, d: RegisterDraws, now: int, mailSent: bool, t: int)
    requires UsersWellFormed(users) && body.email != "" && body.password != ""
    requires NormalizeEmail(body.email) != ""
    ensures var saved := Register(users, body, d, now, mailSent).users;
      var out := VerifyOtp(saved, body.email, Some(GenerateOtp(d.otp)), t);
      && FindByEmail(saved, body.email).Some?
      && (t <= now + OtpLifetimeMs ==>
            out.reply.Ok? && StateAt(out.users[FindByEmail(saved, body.email).value], t) == Verified)
      && (t > now + OtpLifetimeMs ==> out.reply == Fail(BadRequest, "OTP expired"))
  {
    var found := FindByEmail(users, body.email);
    var saved := Register(users, body, d, now, mailSent).users;
    var j: nat;
    if found.None? {
      RegisterInsertsNew(users, body, d, now, mailSent);
      j := |users|;
    } else {
      RegisterRewritesExisting(users, body, d, now, mailSent, found.value);
      j := found.value;
    }
    assert saved[j].email == NormalizeEmail(body.email);
    FindByEmailUnique(saved, body.email, j);
    VerifyFoundCases(saved, Some(j), Some(GenerateOtp(d.otp)), t);
  }

  // ---------------------------------------------------------------- login

  /** `loginHandler`; `password` is None when the body's `password` is not a string. */
  function Login(users: seq<User>, email: string, password: Option<string>): Reply<Profile> {
    LoginFound(users, FindByEmail(users, email), password)
  }

  /** Login after `findOne`, given what it returned. */
  function LoginFound(users: seq<User>, found: Option<nat>, password: Option<string>): Reply<Profile>
    requires found.Some? ==> found.value < |users|
  {
    match found
    case None => Fail(BadRequest, "Invalid login")
    case Some(i) =>
      if !users[i].isVerified then Fail(Forbidden, "Verify email first")
      else if password.None? then Fail(ServerError, "Login failed")
      else if !Compare(password.value, users[i].passwordHash) then Fail(BadRequest, "Invalid login")
      else Ok(ProfileOf(users[i]))
  }

  /**
   * An unverified account gets 403 whatever password is sent; a verified account logs in
   * exactly with the password its digest was made from; an unknown address and a wrong
   * password get the same "Invalid login".
   */
  lemma LoginGate(users: seq<User>, email: string, password: Option<string>, other: Option<string>)
    ensures var f := FindByEmail(users, email);
      && (f.Some? && !users[f.value].isVerified ==>
            Login(users, email, password) == Fail(Forbidden, "Verify email first")
            && Login(users, email, other) == Login(users, email, password))
      && (Login(users, email, password).Ok? <==>
            f.Some? && users[f.value].isVerified && password.Some? && Compare(password.value, users[f.value].passwordHash))
      && (f.None? || (users[f.value].isVerified && password.Some? && !Compare(password.value, users[f.value].passwordHash)) ==>
            Login(users, email, password) == Fail(BadRequest, "Invalid login"))
  {
    LoginFoundGate(users, FindByEmail(users, email), password, other);
  }

  lemma LoginFoundGate(users: seq<User>, found: Option<nat>, password: Option<string>, other: Option<string>)
    requires found.Some? ==> found.value < |users|
    ensures found.Some? && !users[found.value].isVerified ==>
      LoginFound(users, found, password) == Fail(Forbidden, "Verify email first")
      && LoginFound(users, found, other) == LoginFound(users, found, password)
    ensures LoginFound(users, found, password).Ok? <==>
      found.Some? && users[found.value].isVerified && password.Some? && Compare(password.value, users[found.value].passwordHash)
    ensures found.None? || (users[found.value].isVerified && password.Some? && !Compare(password.value, users[found.value].passwordHash)) ==>
      LoginFound(users, found, password) == Fail(BadRequest, "Invalid login")
  {
  }

  /** A missing address finds no account: verify-otp answers 404 and login "Invalid login". */
  lemma MissingEmailFindsNothing(users: seq<User>, otp: Option<string>, password: Option<string>, now: int)
    requires UsersWellFormed(users)
    ensures VerifyOtp(users, "", otp, now) == UserOutcome(Fail(NotFound, "User not found"), users)
    ensures Login(users, "", password) == Fail(BadRequest, "Invalid login")
  {
    assert NormalizeEmail("") == "";
    assert FindByEmail(users, "") == None;
  }
}
