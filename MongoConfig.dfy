/**
 * `connectDB` of config/db.js: clean up the configured MongoDB URI, validate its scheme,
 * mask the password for the log line, then connect with a bounded number of attempts.
 *
 * The URI is a string, the empty string standing for an unset one. The driver's
 * `mongoose.connect` is the parameter `connect`: `connect(k)` is the outcome of attempt k
 * (counting from 0), None for success and Some(message) for the error it throws. The log
 * lines, the connect options and the delay between attempts are left out.
 */
module MongoConfig {
  import opened Wrappers
  import opened JsText

  const Plain := "mongodb://"
  const Srv := "mongodb+srv://"

  const MissingUriMessage := "MONGODB_URI not set (empty). Please set MONGODB_URI in your .env file."

  // ---------------------------------------------------------------- clean-up

  /**
   * Lines 15-17: input that has an '=' and does not start with "mongodb" is taken to be
   * `KEY=value` and loses everything up to the first '=' (later '=' signs are kept); the
   * result is trimmed either way.
   */
  function StripKeyPrefix(raw: string): (uri: string)
    ensures '=' in raw && !StartsWith(raw, "mongodb") ==> uri == Trim(raw[IndexOfChar(raw, '=') + 1..])
    ensures '=' !in raw || StartsWith(raw, "mongodb") ==> uri == Trim(raw)
  {
    if '=' in raw && !StartsWith(raw, "mongodb") then
      AfterFirstSeparator(raw, '=');
      Trim(Join(Split(raw, '=')[1..], '='))
    else Trim(raw)
  }

  /** `KEY=value` with no '=' in KEY, and not itself starting with "mongodb", keeps the trimmed value. */
  lemma KeyPrefixStripped(key: string, value: string)
    requires '=' !in key && !StartsWith(key + "=" + value, "mongodb")
    ensures StripKeyPrefix(key + "=" + value) == Trim(value)
  {
    var raw := key + "=" + value;
    assert raw[|key|] == '=';
    assert forall j :: 0 <= j < |key| ==> raw[j] == key[j];
    assert raw[|key| + 1..] == value;
  }

  /** `/^mongodb\+srv:\/\//i`: the SRV scheme with its ASCII letters in any case. */
  predicate SrvIgnoringCase(u: string) {
    |u| >= 14 && forall i :: 0 <= i < 14 ==> LowerChar(u[i]) == Srv[i]
  }

  /** `.replace(/^mongodb\+srv:\/\//i, 'mongodb+srv://')`: the SRV scheme in any case becomes lower case. */
  function LowerSrvScheme(u: string): string {
    if SrvIgnoringCase(u) then Srv + u[14..] else u
  }

  /** `.replace(/^mongodb\+srv:\/{1}([^/])/, 'mongodb+srv://$1')`. */
  function RepairSrvSlash(u: string): string {
    if |u| >= 14 && u[..13] == "mongodb+srv:/" && u[13] != '/' then Srv + u[13..] else u
  }

  /** `.replace(/^mongodb:\/{1}([^/])/, 'mongodb://$1')`. */
  function RepairPlainSlash(u: string): string {
    if |u| >= 10 && u[..9] == "mongodb:/" && u[9] != '/' then Plain + u[9..] else u
  }

  /** Lines 20-22: the three replacements, in order. */
  function RepairScheme(u: string): string {
    RepairPlainSlash(RepairSrvSlash(LowerSrvScheme(u)))
  }

  predicate HasMongoScheme(u: string) {
    StartsWith(u, Plain) || StartsWith(u, Srv)
  }

  /** A URI that already has a correct scheme is left as it is. */
  lemma RepairKeepsValid(u: string)
    requires HasMongoScheme(u)
    ensures RepairScheme(u) == u
  {
    if StartsWith(u, Srv) {
      assert u[..14] == Srv;
      assert Srv + u[14..] == u;
      assert u[13] == '/' && u[7] == '+';
    } else {
      assert u[..10] == Plain;
      assert u[7] == ':' && u[9] == '/';
      assert !SrvIgnoringCase(u) by {
        assert LowerChar(u[7]) != Srv[7];
      }
    }
  }

  /** A single slash after the scheme's colon is doubled. */
  lemma RepairSingleSlash(rest: string)
    requires rest != [] && rest[0] != '/'
    ensures RepairScheme("mongodb:/" + rest) == Plain + rest
    ensures RepairScheme("mongodb+srv:/" + rest) == Srv + rest
  {
    var p := "mongodb:/" + rest;
    assert p[7] == ':';
    assert !SrvIgnoringCase(p) by {
      assert LowerChar(p[7]) != Srv[7];
    }
    assert p[..9] == "mongodb:/" && p[9..] == rest;
    var s := "mongodb+srv:/" + rest;
    assert s[13] == rest[0];
    assert !SrvIgnoringCase(s) by {
      assert LowerChar(s[13]) != Srv[13];
    }
    assert s[..13] == "mongodb+srv:/" && s[13..] == rest;
    assert (Srv + rest)[7] == '+';
  }

  /** The SRV scheme written in any mix of cases is made lower case. */
  lemma RepairSrvAnyCase(u: string)
    requires SrvIgnoringCase(u)
    ensures RepairScheme(u) == Srv + u[14..]
  {
    var a := Srv + u[14..];
    assert a[13] == '/' && a[7] == '+';
  }

  /** Every replacement that fires produces a correct scheme, so the repair is idempotent. */
  lemma RepairIdempotent(u: string)
    ensures RepairScheme(u) == u || HasMongoScheme(RepairScheme(u))
    ensures RepairScheme(RepairScheme(u)) == RepairScheme(u)
  {
    var a := LowerSrvScheme(u);
    var b := RepairSrvSlash(a);
    var c := RepairPlainSlash(b);
    if a != u {
      assert a[..14] == Srv;
      assert a[13] == '/' && a[7] == '+';
    } else if b != a {
      assert b[..14] == Srv;
      assert b[7] == '+';
    } else if c != b {
      assert c[..10] == Plain;
    }
    if HasMongoScheme(c) {
      RepairKeepsValid(c);
    }
  }

  /** The "mongodb+srv//" typo without the colon is not among the repairs: it stays invalid. */
  lemma MissingColonNotRepaired(rest: string)
    ensures !HasMongoScheme(RepairScheme("mongodb+srv//" + rest))
  {
    var u := "mongodb+srv//" + rest;
    assert u[7] == '+' && u[11] == '/';
    assert !SrvIgnoringCase(u) by {
      assert LowerChar(u[11]) != Srv[11];
    }
    assert RepairScheme(u) == u;
  }

  // ---------------------------------------------------------------- validation and masking

  /** The error message's preview: the first 80 characters and "..." for a longer URI. */
  function Preview(u: string): (p: string)
    ensures |p| <= 83
    ensures |u| <= 80 ==> p == u
    ensures |u| > 80 ==> |p| == 83 && p[..80] == u[..80]
  {
    if |u| > 80 then u[..80] + "..." else u
  }

  function InvalidSchemeMessage(u: string): string {
    "Invalid scheme in MONGODB_URI. Expected \"mongodb://\" or \"mongodb+srv://\". Received: \"" + Preview(u) + "\""
  }

  /** `s.slice(0, k)` for a non-negative k. */
  function SlicePrefix(s: string, k: nat): (r: string)
    ensures |r| == if k <= |s| then k else |s|
    ensures r == s[..|r|]
  {
    if k <= |s| then s[..k] else s
  }

  /**
   * Lines 31-43: with an '@', the text between the first "//" and the last '@' is the
   * credentials; when they hold a ':', the part after the user name is replaced by
   * "[REDACTED]". Without an '@', or without a ':' in the credentials, the URI is kept.
   */
  function MaskCredentials(uri: string): string {
    var atIdx := LastIndexOfChar(uri, '@');
    if atIdx < 0 then uri
    else Redact(uri, uri[..atIdx], uri[atIdx + 1..])
  }

  /** The masking once the URI is cut at its last '@' into `beforeAt` and `afterAt`. */
  function Redact(uri: string, beforeAt: string, afterAt: string): string {
    var slashIdx := IndexOfSub(beforeAt, "//");
    var creds := if slashIdx > -1 then beforeAt[slashIdx + 2..] else beforeAt;
    if ':' !in creds then uri
    else
      var user := Split(creds, ':')[0];
      SlicePrefix(beforeAt, slashIdx + 2) + user + ":[REDACTED]@" + afterAt
  }

  /** The length of the scheme a valid URI starts with. */
  function SchemeLength(u: string): (n: nat)
    requires HasMongoScheme(u)
    ensures n == 10 || n == 14
    ensures n <= |u| && u[n - 2..n] == "//"
  {
    if StartsWith(u, Plain) then 10 else 14
  }

  /** In a valid URI the first "//" is the scheme's, whatever follows it. */
  lemma FirstDoubleSlash(u: string)
    requires HasMongoScheme(u)
    ensures IndexOfSub(u, "//") == SchemeLength(u) - 2
  {
    var n := SchemeLength(u);
    assert OccursAt(u, "//", n - 2);
    var head := u[..n - 2];
    if StartsWith(u, Plain) {
      assert u[..10] == Plain;
      assert head == "mongodb:";
    } else {
      assert u[..14] == Srv;
      assert head == "mongodb+srv:";
    }
    assert '/' !in head;
    forall i | 0 <= i < n - 2 ensures !OccursAt(u, "//", i) {
      assert u[i] == head[i] && head[i] in head;
      assert u[i..i + 2][0] == u[i] != '/';
    }
  }

  /** The credentials `user:password` after a valid scheme lose their password. */
  lemma RedactCredentials(uri: string, scheme: string, user: string, password: string, afterAt: string)
    requires scheme == Plain || scheme == Srv
    requires ':' !in user
    ensures Redact(uri, scheme + (user + ":" + password), afterAt) == scheme + user + ":[REDACTED]@" + afterAt
  {
    var creds := user + ":" + password;
    var beforeAt := scheme + creds;
    assert beforeAt[..|scheme|] == scheme;
    assert SchemeLength(beforeAt) == |scheme| by {
      if scheme == Srv {
        assert beforeAt[7] != Plain[7];
      }
    }
    FirstDoubleSlash(beforeAt);
    var slashIdx := IndexOfSub(beforeAt, "//");
    assert beforeAt[slashIdx + 2..] == creds;
    assert creds[|user|] == ':';
    IndexOfCharAfter(user, ':', password);
    assert Split(creds, ':')[0] == user by {
      assert creds[..|user|] == user;
    }
    assert SlicePrefix(beforeAt, slashIdx + 2) == scheme;
  }

  /**
   * The log preview of `scheme user:password@host`, where the user has no ':' and the host
   * no '@', is `scheme user:[REDACTED]@host`: nothing of the password is kept.
   */
  lemma MaskHidesPassword(scheme: string, user: string, password: string, host: string)
    requires scheme == Plain || scheme == Srv
    requires ':' !in user && '@' !in host
    ensures MaskCredentials(scheme + user + ":" + password + "@" + host) == scheme + user + ":[REDACTED]@" + host
  {
    var beforeAt := scheme + (user + ":" + password);
    var uri := beforeAt + "@" + host;
    assert uri == scheme + user + ":" + password + "@" + host;
    LastIndexOfCharBefore(beforeAt, '@', host);
    assert uri[..|beforeAt|] == beforeAt && uri[|beforeAt| + 1..] == host;
    RedactCredentials(uri, scheme, user, password, host);
  }

  /** A URI without '@' is logged as it is. */
  lemma MaskWithoutAt(uri: string)
    requires '@' !in uri
    ensures MaskCredentials(uri) == uri
  {
  }

  /** The outcome of the clean-up: the URI handed to the driver and its log preview, or the error thrown. */
  datatype Prepared = Ready(uri: string, preview: string) | Rejected(message: string)

  /** Lines 10-46: everything `connectDB` does before its first connection attempt. */
  function Prepare(raw: string): (r: Prepared)
    ensures raw == "" ==> r == Rejected(MissingUriMessage)
    ensures r.Ready? <==> raw != "" && HasMongoScheme(RepairScheme(StripKeyPrefix(raw)))
    ensures r.Ready? ==> HasMongoScheme(r.uri) && r.uri == RepairScheme(StripKeyPrefix(raw))
    ensures r.Ready? ==> r.preview == MaskCredentials(r.uri)
    ensures raw != "" && !HasMongoScheme(RepairScheme(StripKeyPrefix(raw))) ==>
      r == Rejected(InvalidSchemeMessage(RepairScheme(StripKeyPrefix(raw))))
  {
    if raw == "" then Rejected(MissingUriMessage)
    else
      var uri := RepairScheme(StripKeyPrefix(raw));
      if !HasMongoScheme(uri) then Rejected(InvalidSchemeMessage(uri))
      else Ready(uri, MaskCredentials(uri))
  }

  /** Cleaning up a cleaned URI changes nothing: a ready URI is a fixed point of `Prepare`. */
  lemma PrepareIdempotent(raw: string)
    requires Prepare(raw).Ready?
    ensures Prepare(Prepare(raw).uri) == Prepare(raw)
  {
    var s := StripKeyPrefix(raw);
    var u := Prepare(raw).uri;
    assert EndsClean(s);
    RepairEndsClean(s);
    SchemeStartsMongodb(u);
    assert LeadingSpaces(u) == 0;
    assert TrimStart(u) == u;
    assert TrimEnd(u) == u;
    assert StripKeyPrefix(u) == u;
    RepairKeepsValid(u);
  }

  /** Both schemes start with "mongodb". */
  lemma SchemeStartsMongodb(u: string)
    requires HasMongoScheme(u)
    ensures StartsWith(u, "mongodb") && u[0] == 'm'
  {
    if StartsWith(u, Plain) {
      assert u[..10] == Plain;
      assert u[..7] == Plain[..7];
    } else {
      assert u[..14] == Srv;
      assert u[..7] == Srv[..7];
    }
  }

  /** No white space at the end: what `trim` leaves. */
  predicate EndsClean(s: string) {
    s == [] || !IsJsSpace(s[|s| - 1])
  }

  /** Putting a prefix that ends in '/' in front of a clean-ended rest keeps the end clean. */
  lemma PrefixKeepsEnd(p: string, t: string)
    requires p != [] && p[|p| - 1] == '/' && EndsClean(t)
    ensures EndsClean(p + t)
  {
    if t != [] {
      assert (p + t)[|p + t| - 1] == t[|t| - 1];
    }
  }

  /** The repairs only rewrite a scheme prefix, so they keep a clean end. */
  lemma RepairEndsClean(s: string)
    requires EndsClean(s)
    ensures EndsClean(RepairScheme(s))
  {
    var a := LowerSrvScheme(s);
    if a != s {
      assert Srv[13] == '/';
      PrefixKeepsEnd(Srv, s[14..]);
    }
    var b := RepairSrvSlash(a);
    if b != a {
      assert Srv[13] == '/';
      PrefixKeepsEnd(Srv, a[13..]);
    }
    var c := RepairPlainSlash(b);
    if c != b {
      assert Plain[9] == '/';
      PrefixKeepsEnd(Plain, b[9..]);
    }
  }

  // ---------------------------------------------------------------- connecting

  /** How the retry loop ended: connected on attempt `attempts`, gave up rethrowing the last error, or never ran. */
  datatype Attempts = Connected(attempts: nat) | GaveUp(error: string, attempts: nat) | NotAttempted

  /**
   * The loop's promise: with a positive bound it connects on the first attempt that succeeds
   * if there is one among the first maxRetries, and otherwise rethrows the error of the
   * maxRetries-th; with a bound of 0 or less it makes no attempt (and `connectDB` resolves to
   * undefined).
   */
  ghost predicate RetriedAsPromised(maxRetries: int, connect: nat -> Option<string>, r: Attempts) {
    && (r.NotAttempted? <==> maxRetries <= 0)
    && (r.Connected? ==>
          && 1 <= r.attempts <= maxRetries
          && connect(r.attempts - 1).None?
          && forall k :: 0 <= k < r.attempts - 1 ==> connect(k).Some?)
    && (r.GaveUp? ==>
          && r.attempts == maxRetries
          && (forall k :: 0 <= k < maxRetries ==> connect(k).Some?)
          && connect(maxRetries - 1) == Some(r.error))
  }

  /** Lines 59-74: at most maxRetries calls of the driver, stopping at the first success. */
  method ConnectWithRetry(maxRetries: int, connect: nat -> Option<string>) returns (r: Attempts)
    ensures RetriedAsPromised(maxRetries, connect, r)
  {
    var attempt := 0;
    while attempt < maxRetries
      invariant 0 <= attempt
      invariant attempt == 0 || attempt < maxRetries
      invariant forall k :: 0 <= k < attempt ==> connect(k).Some?
      decreases maxRetries - attempt
    {
      var result := connect(attempt);
      if result.None? {
        return Connected(attempt + 1);
      }
      attempt := attempt + 1;
      if attempt >= maxRetries {
        return GaveUp(result.value, attempt);
      }
    }
    return NotAttempted;
  }

  /** The promise determines the outcome: the loop's result is the only one that keeps it. */
  lemma RetryOutcomeUnique(maxRetries: int, connect: nat -> Option<string>, r1: Attempts, r2: Attempts)
    requires RetriedAsPromised(maxRetries, connect, r1) && RetriedAsPromised(maxRetries, connect, r2)
    ensures r1 == r2
  {
  }

  /** What `connectDB` ends in: an error before any attempt, or the loop's outcome for the cleaned URI. */
  datatype DbOutcome = Refused(message: string) | Tried(uri: string, preview: string, outcome: Attempts)

  /** `connectDB(rawUri, maxRetries)`. */
  method ConnectDb(raw: string, maxRetries: int, connect: nat -> Option<string>) returns (r: DbOutcome)
    ensures Prepare(raw).Rejected? ==> r == Refused(Prepare(raw).message)
    ensures Prepare(raw).Ready? ==>
      && r.Tried? && r.uri == Prepare(raw).uri && r.preview == Prepare(raw).preview
      && RetriedAsPromised(maxRetries, connect, r.outcome)
  {
    var prepared := Prepare(raw);
    if prepared.Rejected? {
      return Refused(prepared.message);
    }
    var outcome := ConnectWithRetry(maxRetries, connect);
    r := Tried(prepared.uri, prepared.preview, outcome);
  }
}
