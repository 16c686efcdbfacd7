/**
 * The account handlers of server.js: POST /api/auth/register, /api/auth/verify-otp and
 * /api/auth/login, over the users collection. An absent body field is the empty string, which
 * `!field` rejects like `undefined`. The OTP draw, the bcrypt salts, `Date.now()` and the mail
 * transport's fate are inputs; the token that a success reply carries is left out.
 */
module ServerAuth {
  import opened Wrappers
  import opened Http
  import opened JsText
  import opened Secrets
  import opened UserModel

  /** `10 * 60 * 1000`: an OTP lives ten minutes. */
  const OtpLifetimeMs := 600000

  /** `Math.floor(Math.random() * 900000)`, the random part of an OTP. */
  type OtpDraw = k: nat | k < 900000

  /** `Math.floor(100000 + Math.random() * 900000).toString()`. */
  function GenerateOtp(k: OtpDraw): string {
    NatToString(100000 + k)
  }

  /** An OTP is six decimal digits denoting a number in 100000 .. 999999, one per draw. */
  lemma OtpShape(k: OtpDraw)
    ensures var otp := GenerateOtp(k);
      && |otp| == 6 && AllDigits(otp)
      && DigitsValue(otp) == 100000 + k
      && 100000 <= DigitsValue(otp) <= 999999
  {
    var n := 100000 + k;
    NatToStringValue(n);
    assert Pow10(6) == 1000000;
    NatToStringLength(n, 6);
    assert Pow10(5) == 100000;
    NatToStringLength(n, 5);
  }

  /** JavaScript's `a || b` on strings. */
  function Or(a: string, b: string): string {
    if a != "" then a else b
  }

  /** The user fields a client sees. */
  datatype Profile = Profile(email: string, name: string, phone: string)

  function ProfileOf(u: User): Profile {
    Profile(u.email, u.name, u.phone)
  }

  /** A handler's reply and the users collection after it. */
  datatype UserOutcome<T> = UserOutcome(reply: Reply<T>, users: seq<User>)

  // ---------------------------------------------------------------- register

  datatype RegisterBody = RegisterBody(name: string, email: string, phone: string, password: string)

  /** The chance inputs of a registration: the OTP draw and the two bcrypt salts. */
  datatype RegisterDraws = RegisterDraws(otp: OtpDraw, passwordSalt: nat, otpSalt: nat)

  /** `sendOtpEmail`: returns at once without a mailer, sends, or throws. */
  datatype Mail = MailerNotReady | Sent | SendFailed

  /**
   * The document register saves: a new document with `name || ''` and `phone || ''`, or the
   * stored one with a new password digest, `name || existing.name` and `phone || existing.phone`;
   * either way with the digest of a fresh OTP expiring ten minutes from now. `key` is the
   * handler's `normalizedEmail`.
   */
  function Registered(users: seq<User>, found: Option<nat>, body: RegisterBody, key: string, d: RegisterDraws, now: int): (u: User)
    requires found.Some? ==> found.value < |users|
    ensures u.otpHash == Some(Hash(GenerateOtp(d.otp), d.otpSalt)) && u.otpExpiresAt == Some(now + OtpLifetimeMs)
    ensures u.passwordHash == Hash(body.password, d.passwordSalt)
    ensures found.None? ==> u.email == NormalizeEmail(key) && !u.isVerified
    ensures found.Some? ==> u.docId == users[found.value].docId && u.email == users[found.value].email
                            && u.isVerified == users[found.value].isVerified
    ensures u.name == Or(body.name, if found.Some? then users[found.value].name else "")
    ensures u.phone == Or(body.phone, if found.Some? then users[found.value].phone else "")
  {
    var base :=
      match found
      case None => NewUser(key, Hash(body.password, d.passwordSalt), Or(body.name, ""), Or(body.phone, ""))
      case Some(i) =>
        users[i].(passwordHash := Hash(body.password, d.passwordSalt),
                  name := Or(body.name, users[i].name),
                  phone := Or(body.phone, users[i].phone));
    base.(otpHash := Some(Hash(GenerateOtp(d.otp), d.otpSalt)), otpExpiresAt := Some(now + OtpLifetimeMs))
  }

  /** POST /api/auth/register. */
  function Register(users: seq<User>, body: RegisterBody, d: RegisterDraws, now: int, mail: Mail): UserOutcome<string> {
    if body.email == "" || body.password == "" then
      UserOutcome(Fail(BadRequest, "Email and password are required"), users)
    else
      RegisterAt(users, body, ToLower(Trim(body.email)), d, now, mail)
  }

  /** Register past its first guard, for the handler's `normalizedEmail`. */
  function RegisterAt(users: seq<User>, body: RegisterBody, key: string, d: RegisterDraws, now: int, mail: Mail): UserOutcome<string> {
    RegisterFound(users, FindByEmail(users, key), body, key, d, now, mail)
  }

  /** Register after `findOne`, given what it returned. */
  function RegisterFound(users: seq<User>, found: Option<nat>, body: RegisterBody, key: string, d: RegisterDraws, now: int, mail: Mail): UserOutcome<string>
    requires found.Some? ==> found.value < |users|
  {
    if found.Some? && users[found.value].isVerified then
      UserOutcome(Fail(BadRequest, "Account already exists. Please login."), users)
    else
      var u := Registered(users, found, body, key, d, now);
      if found.None? && !UserAccepts(users, u) then
        UserOutcome(Fail(ServerError, "Registration failed"), users)
      else
        var saved := if found.None? then UserInserted(users, u) else users[found.value := u];
        if mail == SendFailed then
          UserOutcome(Fail(ServerError, "Could not send OTP email. Please try again later."), saved)
        else
          UserOutcome(Ok("OTP sent to your email. Please verify to activate your account."), saved)
  }

  method RegisterHandler(store: UserStore, body: RegisterBody, d: RegisterDraws, now: int, mail: Mail) returns (reply: Reply<string>)
    requires store.Valid()
    modifies store
    ensures store.Valid()
    ensures UserOutcome(reply, store.users) == Register(old(store.users), body, d, now, mail)
  {
    if body.email == "" || body.password == "" {
      reply := Fail(BadRequest, "Email and password are required");
      return;
    }
    var normalizedEmail := ToLower(Trim(body.email));
    var found := FindByEmail(store.users, normalizedEmail);
    reply := RegisterSteps(store, found, body, normalizedEmail, d, now, mail);
  }

  /** The handler after `findOne`, assigning the document's fields one by one before `save()`. */
  method RegisterSteps(store: UserStore, found: Option<nat>, body: RegisterBody, normalizedEmail: string, d: RegisterDraws, now: int, mail: Mail)
    returns (reply: Reply<string>)
    requires store.Valid() && (found.Some? ==> found.value < |store.users|)
    modifies store
    ensures store.Valid()
    ensures UserOutcome(reply, store.users) == RegisterFound(old(store.users), found, body, normalizedEmail, d, now, mail)
  {
    if found.Some? && store.users[found.value].isVerified {
      reply := Fail(BadRequest, "Account already exists. Please login.");
      return;
    }
    var existing: User;
    if found.None? {
      existing := NewUser(normalizedEmail, Hash(body.password, d.passwordSalt), Or(body.name, ""), Or(body.phone, ""));
    } else {
      existing := store.users[found.value];
      existing := existing.(passwordHash := Hash(body.password, d.passwordSalt));
      existing := existing.(name := Or(body.name, existing.name));
      existing := existing.(phone := Or(body.phone, existing.phone));
    }
    var otp := GenerateOtp(d.otp);
    existing := existing.(otpHash := Some(Hash(otp, d.otpSalt)));
    existing := existing.(otpExpiresAt := Some(now + OtpLifetimeMs));
    assert existing == Registered(store.users, found, body, normalizedEmail, d, now);
    if found.None? {
      NormalizeIsNormal(normalizedEmail);
      var ok := store.Insert(existing);
      if !ok {
        reply := Fail(ServerError, "Registration failed");
        return;
      }
    } else {
      store.Replace(found.value, existing);
    }
    if mail == SendFailed {
      reply := Fail(ServerError, "Could not send OTP email. Please try again later.");
      return;
    }
    reply := Ok("OTP sent to your email. Please verify to activate your account.");
  }

  /** A verified account is refused and nothing is written, whatever else the request says. */
  lemma RegisterRejectsVerified(users: seq<User>, body: RegisterBody, d: RegisterDraws, now: int, mail: Mail, i: nat)
    requires UsersWellFormed(users) && body.email != "" && body.password != ""
    requires i < |users| && users[i].email == NormalizeEmail(ToLower(Trim(body.email))) && users[i].isVerified
    ensures Register(users, body, d, now, mail) == UserOutcome(Fail(BadRequest, "Account already exists. Please login."), users)
  {
    FindByEmailUnique(users, ToLower(Trim(body.email)), i);
  }

  /**
   * When the request carries both fields, the account is not verified and the address is not
   * blank, the account is stored with a pending OTP for the drawn code that expires ten minutes
   * from now; the stored collection is the same whether the mail is sent, skipped or fails,
   * and only a failed send turns the reply into a 500.
   */
  lemma RegisterPersistsPendingOtp(users: seq<User>, body: RegisterBody, d: RegisterDraws, now: int, mail: Mail)
    requires UsersWellFormed(users) && body.email != "" && body.password != ""
    requires NormalizeEmail(body.email) != ""
    requires var f := FindByEmail(users, ToLower(Trim(body.email))); f.None? || !users[f.value].isVerified
    ensures var out := Register(users, body, d, now, mail);
      && UsersWellFormed(out.users)
      && out.users == Register(users, body, d, now, Sent).users
      && (out.reply.Ok? <==> mail != SendFailed)
      && var f := FindByEmail(out.users, ToLower(Trim(body.email)));
         && f.Some?
         && StateAt(out.users[f.value], now) == OtpPending
         && StateAt(out.users[f.value], now + OtpLifetimeMs + 1) == OtpExpired
         && out.users[f.value].otpHash == Some(Hash(GenerateOtp(d.otp), d.otpSalt))
         && out.users[f.value].otpExpiresAt == Some(now + OtpLifetimeMs)
  {
    HandlerKeyBlank(body.email);
    RegisterAtPersists(users, body, ToLower(Trim(body.email)), d, now, mail);
  }

  /** RegisterPersistsPendingOtp for a given key. */
  lemma RegisterAtPersists(users: seq<User>, body: RegisterBody, key: string, d: RegisterDraws, now: int, mail: Mail)
    requires UsersWellFormed(users)
    requires NormalizeEmail(key) != ""
    requires var f := FindByEmail(users, key); f.None? || !users[f.value].isVerified
    ensures var out := RegisterAt(users, body, key, d, now, mail);
      && UsersWellFormed(out.users)
      && out.users == RegisterAt(users, body, key, d, now, Sent).users
      && (out.reply.Ok? <==> mail != SendFailed)
      && var f := FindByEmail(out.users, key);
         && f.Some?
         && StateAt(out.users[f.value], now) == OtpPending
         && StateAt(out.users[f.value], now + OtpLifetimeMs + 1) == OtpExpired
         && out.users[f.value].otpHash == Some(Hash(GenerateOtp(d.otp), d.otpSalt))
         && out.users[f.value].otpExpiresAt == Some(now + OtpLifetimeMs)
  {
    RegisterAtWrites(users, body, key, d, now, mail);
    RegisterAtWrites(users, body, key, d, now, Sent);
    PendingSaved(users, body, key, d, now);
  }

  /** The collection register writes holds the account under its key, with the new OTP pending. */
  lemma PendingSaved(users: seq<User>, body: RegisterBody, key: string, d: RegisterDraws, now: int)
    requires UsersWellFormed(users)
    requires NormalizeEmail(key) != ""
    requires var f := FindByEmail(users, key); f.None? || !users[f.value].isVerified
    ensures var found := FindByEmail(users, key);
      var u := Registered(users, found, body, key, d, now);
      var saved := if found.None? then UserInserted(users, u) else users[found.value := u];
      && UsersWellFormed(saved)
      && var f := FindByEmail(saved, key);
         && f.Some?
         && StateAt(saved[f.value], now) == OtpPending
         && StateAt(saved[f.value], now + OtpLifetimeMs + 1) == OtpExpired
         && saved[f.value].otpHash == Some(Hash(GenerateOtp(d.otp), d.otpSalt))
         && saved[f.value].otpExpiresAt == Some(now + OtpLifetimeMs)
  {
    var found := FindByEmail(users, key);
    var u := Registered(users, found, body, key, d, now);
    if found.None? {
      SavedNew(users, key, u);
    } else {
      SavedExisting(users, key, found.value, u);
    }
  }

  /** Past the verified check, a non-blank address is always written; the mail decides the reply. */
  lemma RegisterAtWrites(users: seq<User>, body: RegisterBody, key: string, d: RegisterDraws, now: int, mail: Mail)
    requires UsersWellFormed(users)
    requires NormalizeEmail(key) != ""
    requires var f := FindByEmail(users, key); f.None? || !users[f.value].isVerified
    ensures var found := FindByEmail(users, key);
      var u := Registered(users, found, body, key, d, now);
      RegisterAt(users, body, key, d, now, mail) ==
        UserOutcome(
          if mail == SendFailed then Fail(ServerError, "Could not send OTP email. Please try again later.")
          else Ok("OTP sent to your email. Please verify to activate your account."),
          if found.None? then UserInserted(users, u) else users[found.value := u])
  {
    var found := FindByEmail(users, key);
    if found.None? {
      SavedNew(users, key, Registered(users, found, body, key, d, now));
    }
  }

  /** A new account that the unique index accepts is the one found under its key afterwards. */
  lemma SavedNew(users: seq<User>, key: string, u: User)
    requires UsersWellFormed(users) && NormalizeEmail(key) != ""
    requires FindByEmail(users, key) == None && u.email == NormalizeEmail(key)
    ensures UserAccepts(users, u) && UsersWellFormed(UserInserted(users, u))
    ensures FindByEmail(UserInserted(users, u), key) == Some(|users|)
    ensures UserInserted(users, u)[|users|] == u.(docId := |users|)
  {
    NormalizeIsNormal(key);
    UserInsertKeepsWellFormed(users, u);
    FindByEmailUnique(UserInserted(users, u), key, |users|);
  }

  /** An account written back in place is still the one found under its key. */
  lemma SavedExisting(users: seq<User>, key: string, i: nat, u: User)
    requires UsersWellFormed(users) && FindByEmail(users, key) == Some(i)
    requires u.docId == users[i].docId && u.email == users[i].email
    ensures UsersWellFormed(users[i := u])
    ensures FindByEmail(users[i := u], key) == Some(i)
  {
    UserReplaceKeepsWellFormed(users, i, u);
    FindByEmailUnique(users[i := u], key, i);
  }

  /** An address made only of white space passes `!email` but fails the schema's required check. */
  lemma RegisterBlankEmailFails(users: seq<User>, body: RegisterBody, d: RegisterDraws, now: int, mail: Mail)
    requires UsersWellFormed(users) && body.email != "" && body.password != ""
    requires NormalizeEmail(body.email) == ""
    ensures Register(users, body, d, now, mail) == UserOutcome(Fail(ServerError, "Registration failed"), users)
  {
    HandlerKeyBlank(body.email);
    var key := ToLower(Trim(body.email));
    assert FindByEmail(users, key) == None;
    assert Registered(users, None, body, key, d, now).email == "";
  }

  // ---------------------------------------------------------------- verify-otp

  /** POST /api/auth/verify-otp. */
  function VerifyOtp(users: seq<User>, email: string, otp: string, now: int): (out: UserOutcome<Profile>)
    ensures |out.users| == |users|
  {
    if email == "" || otp == "" then
      UserOutcome(Fail(BadRequest, "Email and OTP are required"), users)
    else
      VerifyFound(users, FindByEmail(users, ToLower(Trim(email))), otp, now)
  }

  /** verify-otp past its first guard, given what `findOne` returned for the handler's key. */
  function VerifyFound(users: seq<User>, found: Option<nat>, otp: string, now: int): (out: UserOutcome<Profile>)
    requires found.Some? ==> found.value < |users|
    ensures |out.users| == |users|
  {
    match found
    case None => UserOutcome(Fail(NotFound, "User not found"), users)
    case Some(i) =>
      var u := users[i];
      if u.otpHash.None? || u.otpExpiresAt.None? then
        UserOutcome(Fail(BadRequest, "No OTP pending for this user"), users)
      else if u.otpExpiresAt.value < now then
        UserOutcome(Fail(BadRequest, "OTP has expired. Please request a new one."), users)
      else if !Compare(otp, u.otpHash.value) then
        UserOutcome(Fail(BadRequest, "Incorrect OTP"), users)
      else
        var v := u.(isVerified := true, otpHash := None, otpExpiresAt := None);
        UserOutcome(Ok(ProfileOf(v)), users[i := v])
  }

  method VerifyOtpHandler(store: UserStore, email: string, otp: string, now: int) returns (reply: Reply<Profile>)
    requires store.Valid()
    modifies store
    ensures store.Valid()
    ensures UserOutcome(reply, store.users) == VerifyOtp(old(store.users), email, otp, now)
  {
    if email == "" || otp == "" {
      reply := Fail(BadRequest, "Email and OTP are required");
      return;
    }
    var normalizedEmail := ToLower(Trim(email));
    var found := FindByEmail(store.users, normalizedEmail);
    reply := VerifyOtpSteps(store, found, otp, now);
  }

  /** The handler after `findOne`: the guards, then three field assignments and `save()`. */
  method VerifyOtpSteps(store: UserStore, found: Option<nat>, otp: string, now: int) returns (reply: Reply<Profile>)
    requires store.Valid() && (found.Some? ==> found.value < |store.users|)
    modifies store
    ensures store.Valid()
    ensures UserOutcome(reply, store.users) == VerifyFound(old(store.users), found, otp, now)
  {
    if found.None? {
      reply := Fail(NotFound, "User not found");
      return;
    }
    var user := store.users[found.value];
    if user.otpHash.None? || user.otpExpiresAt.None? {
      reply := Fail(BadRequest, "No OTP pending for this user");
      return;
    }
    if user.otpExpiresAt.value < now {
      reply := Fail(BadRequest, "OTP has expired. Please request a new one.");
      return;
    }
    if !Compare(otp, user.otpHash.value) {
      reply := Fail(BadRequest, "Incorrect OTP");
      return;
    }
    user := user.(isVerified := true);
    user := user.(otpHash := None);
    user := user.(otpExpiresAt := None);
    store.Replace(found.value, user);
    reply := Ok(ProfileOf(user));
  }

  /**
   * verify-otp succeeds exactly when both fields are sent and the account has both OTP fields
   * set, an expiry not before `now` and an OTP digest that matches the code; every failure
   * leaves the collection as it was, and a success verifies that one account, clears both OTP
   * fields and touches no other document.
   */
  lemma VerifyOtpCases(users: seq<User>, email: string, otp: string, now: int)
    requires UsersWellFormed(users)
    ensures var out := VerifyOtp(users, email, otp, now);
      && (out.reply.Fail? ==> out.users == users)
      && (out.reply.Ok? <==>
            && email != "" && otp != ""
            && FindByEmail(users, ToLower(Trim(email))).Some?
            && var u := users[FindByEmail(users, ToLower(Trim(email))).value];
               u.otpHash.Some? && u.otpExpiresAt.Some? && now <= u.otpExpiresAt.value && Compare(otp, u.otpHash.value))
      && (out.reply.Ok? ==>
            var i := FindByEmail(users, ToLower(Trim(email))).value;
            && UsersWellFormed(out.users)
            && out.users[i] == users[i].(isVerified := true, otpHash := None, otpExpiresAt := None)
            && StateAt(out.users[i], now) == Verified
            && (forall j :: 0 <= j < |users| && j != i ==> out.users[j] == users[j]))
  {
    if email != "" && otp != "" {
      VerifyFoundCases(users, FindByEmail(users, ToLower(Trim(email))), otp, now);
    }
  }

  /** VerifyOtpCases for a given lookup result. */
  lemma VerifyFoundCases(users: seq<User>, found: Option<nat>, otp: string, now: int)
    requires UsersWellFormed(users) && (found.Some? ==> found.value < |users|)
    ensures var out := VerifyFound(users, found, otp, now);
      && (out.reply.Fail? ==> out.users == users)
      && (out.reply.Ok? <==>
            && found.Some?
            && var u := users[found.value];
               u.otpHash.Some? && u.otpExpiresAt.Some? && now <= u.otpExpiresAt.value && Compare(otp, u.otpHash.value))
      && (out.reply.Ok? ==>
            var i := found.value;
            && UsersWellFormed(out.users)
            && out.users[i] == users[i].(isVerified := true, otpHash := None, otpExpiresAt := None)
            && StateAt(out.users[i], now) == Verified
            && (forall j :: 0 <= j < |users| && j != i ==> out.users[j] == users[j]))
  {
    if found.Some? {
      var i := found.value;
      var u := users[i];
      if u.otpHash.Some? && u.otpExpiresAt.Some? && now <= u.otpExpiresAt.value && Compare(otp, u.otpHash.value) {
        var v := u.(isVerified := true, otpHash := None, otpExpiresAt := None);
        UserReplaceKeepsWellFormed(users, i, v);
        assert VerifyFound(users, found, otp, now) == UserOutcome(Ok(ProfileOf(v)), users[i := v]);
      } else {
        assert VerifyFound(users, found, otp, now).users == users;
      }
    }
  }

  /**
   * Register then verify: the code drawn at registration verifies the account up to and
   * including its expiry instant, and is refused as expired one millisecond later.
   */
  lemma RegisterThenVerify(users: seq<User>, body: RegisterBody, d: RegisterDraws, now: int, mail: Mail, t: int)
    requires UsersWellFormed(users) && body.email != "" && body.password != ""
    requires NormalizeEmail(body.email) != ""
    requires var f := FindByEmail(users, ToLower(Trim(body.email))); f.None? || !users[f.value].isVerified
    ensures var saved := Register(users, body, d, now, mail).users;
      var out := VerifyOtp(saved, body.email, GenerateOtp(d.otp), t);
      && FindByEmail(saved, ToLower(Trim(body.email))).Some?
      && (t <= now + OtpLifetimeMs ==> out.reply.Ok? && StateAt(out.users[FindByEmail(saved, ToLower(Trim(body.email))).value], t) == Verified)
      && (t > now + OtpLifetimeMs ==> out.reply == Fail(BadRequest, "OTP has expired. Please request a new one."))
  {
    RegisterPersistsPendingOtp(users, body, d, now, mail);
    var saved := Register(users, body, d, now, mail).users;
    var f := FindByEmail(saved, ToLower(Trim(body.email)));
    OtpShape(d.otp);
    VerifyPendingOtp(saved, f.value, GenerateOtp(d.otp), t);
  }

  /** VerifyFound on an account with a pending OTP that matches the code. */
  lemma VerifyPendingOtp(users: seq<User>, i: nat, otp: string, t: int)
    requires i < |users|
    requires users[i].otpHash.Some? && users[i].otpExpiresAt.Some? && Compare(otp, users[i].otpHash.value)
    ensures var out := VerifyFound(users, Some(i), otp, t);
      && (t <= users[i].otpExpiresAt.value ==> out.reply.Ok? && StateAt(out.users[i], t) == Verified)
      && (t > users[i].otpExpiresAt.value ==> out.reply == Fail(BadRequest, "OTP has expired. Please request a new one."))
  {
  }

  // ---------------------------------------------------------------- login

  /** POST /api/auth/login: the profile of the account, or the reason it is refused. */
  function Login(users: seq<User>, email: string, password: string): Reply<Profile> {
    if email == "" || password == "" then Fail(BadRequest, "Email and password are required")
    else LoginFound(users, FindByEmail(users, ToLower(Trim(email))), password)
  }

  /** Login past its first guard, given what `findOne` returned for the handler's key. */
  function LoginFound(users: seq<User>, found: Option<nat>, password: string): Reply<Profile>
    requires found.Some? ==> found.value < |users|
  {
    match found
    case None => Fail(BadRequest, "Invalid email or password")
    case Some(i) =>
      if !users[i].isVerified then Fail(Forbidden, "Please verify your email via OTP before login.")
      else if !Compare(password, users[i].passwordHash) then Fail(BadRequest, "Invalid email or password")
      else Ok(ProfileOf(users[i]))
  }

  /**
   * An unverified account gets 403 whatever password is sent, right or wrong; a verified
   * account logs in exactly with the password its digest was made from, and an unknown
   * address and a wrong password get the same answer.
   */
  lemma LoginGate(users: seq<User>, email: string, password: string, other: string)
    requires email != "" && password != "" && other != ""
    ensures var f := FindByEmail(users, ToLower(Trim(email)));
      && (f.Some? && !users[f.value].isVerified ==>
            Login(users, email, password) == Fail(Forbidden, "Please verify your email via OTP before login.")
            && Login(users, email, other) == Login(users, email, password))
      && (Login(users, email, password).Ok? <==>
            f.Some? && StateAt(users[f.value], 0) == Verified && Compare(password, users[f.value].passwordHash))
      && (f.None? || (users[f.value].isVerified && !Compare(password, users[f.value].passwordHash)) ==>
            Login(users, email, password) == Fail(BadRequest, "Invalid email or password"))
  {
    LoginFoundGate(users, FindByEmail(users, ToLower(Trim(email))), password, other);
  }

  /** LoginGate for a given lookup result. */
  lemma LoginFoundGate(users: seq<User>, found: Option<nat>, password: string, other: string)
    requires found.Some? ==> found.value < |users|
    ensures found.Some? && !users[found.value].isVerified ==>
      LoginFound(users, found, password) == Fail(Forbidden, "Please verify your email via OTP before login.")
      && LoginFound(users, found, other) == LoginFound(users, found, password)
    ensures LoginFound(users, found, password).Ok? <==>
      found.Some? && StateAt(users[found.value], 0) == Verified && Compare(password, users[found.value].passwordHash)
    ensures found.None? || (users[found.value].isVerified && !Compare(password, users[found.value].passwordHash)) ==>
      LoginFound(users, found, password) == Fail(BadRequest, "Invalid email or password")
  {
  }
}
