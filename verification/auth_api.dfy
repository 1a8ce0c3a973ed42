/** The admin authentication endpoints: the password step of the login, the
    MFA enrolment pair (setup, then verification of the first code) and the
    MFA step that issues a session token. The server's state is the account
    store and the in-memory attempts table. Password and TOTP checks are
    caller-supplied predicates; the MFA secret and its QR code come from
    generators passed in as values. Audit-log writes are not modelled. */
module AuthApi {
  import opened Common
  import opened Json
  import opened Fields
  import opened Auth

  datatype Server = Server(users: Users, attempts: Attempts)

  /** An endpoint's reply and the server state it leaves. */
  datatype Exchange<T> = Exchange(server: Server, reply: Result<T>)

  const TooManyAttempts: string := "Too many login attempts. Please try again later."
  const InvalidCredentials: string := "Invalid credentials"
  const AccountDisabled: string := "Account is disabled"
  const UsernameRequired: string := "Username required"
  const UserNotFound: string := "User not found"
  const FieldsRequired: string := "Username, secret, and MFA code required"
  const InvalidMfaCode: string := "Invalid MFA code"
  const MfaNotEnabled: string := "MFA not enabled for this user"
  const MfaAlreadyEnabled: string := "MFA already enabled"
  const InternalError: string := "Internal Server Error"

  datatype Credentials = Credentials(username: string, password: string)

  /** Body of the first login step for an account without MFA. */
  function MfaSetupRequired(username: string): Body
  {
    map["requires_mfa_setup" := Bool(true), "username" := Str(username),
        "message" := Str("MFA setup required")]
  }

  /** Body of the first login step for an account with MFA. */
  function MfaRequired(username: string): Body
  {
    map["requires_mfa" := Bool(true), "username" := Str(username),
        "message" := Str("Please provide MFA code")]
  }

  /** The credentials do not open the account: it is unknown or the
      password does not match its hash. */
  predicate BadCredentials(users: Users, c: Credentials, passwordOk: (string, string) -> bool)
  {
    c.username !in users || !passwordOk(c.password, users[c.username].passwordHash)
  }

  /** POST /login from client address `ip`, with the limiter's pruning test
      `keep` as a parameter. */
  function LoginWith(s: Server, ip: string, c: Credentials, passwordOk: (string, string) -> bool, now: int, keep: int -> bool): (r: Exchange<Body>)
    ensures r.server.users == s.users
    ensures r.reply == Err(TooManyRequests, TooManyAttempts)
        <==> !CheckWith(s.attempts, ip, keep).allowed
    ensures r.reply == Err(Unauthorized, InvalidCredentials)
        <==> CheckWith(s.attempts, ip, keep).allowed && BadCredentials(s.users, c, passwordOk)
    ensures r.reply.Ok?
        <==> (CheckWith(s.attempts, ip, keep).allowed && !BadCredentials(s.users, c, passwordOk)
              && Active(s.users[c.username]))
    ensures r.reply.Ok? ==> "access_token" !in r.reply.value
    ensures r.reply.Ok? ==>
      r.reply.value == if MfaOn(s.users[c.username]) then MfaRequired(c.username) else MfaSetupRequired(c.username)
    ensures r.server.attempts
         == if r.reply == Err(Unauthorized, InvalidCredentials)
            then RecordLoginAttempt(CheckWith(s.attempts, ip, keep).attempts, ip, now)
            else CheckWith(s.attempts, ip, keep).attempts
  {
    var check := CheckWith(s.attempts, ip, keep);
    var pruned := s.(attempts := check.attempts);
    if !check.allowed then
      Exchange(pruned, Err(TooManyRequests, TooManyAttempts))
    else if BadCredentials(s.users, c, passwordOk) then
      Exchange(s.(attempts := RecordLoginAttempt(check.attempts, ip, now)), Err(Unauthorized, InvalidCredentials))
    else if !Active(s.users[c.username]) then
      Exchange(pruned, Err(Unauthorized, AccountDisabled))
    else if !MfaOn(s.users[c.username]) then
      Exchange(pruned, Ok(MfaSetupRequired(c.username)))
    else
      Exchange(pruned, Ok(MfaRequired(c.username)))
  }

  /** The endpoint as written: the limiter prunes by seconds-of-day. */
  function LoginAsWritten(s: Server, ip: string, c: Credentials, passwordOk: (string, string) -> bool, now: int): (r: Exchange<Body>)
    ensures r.server.users == s.users
    ensures r.reply == Err(TooManyRequests, TooManyAttempts)
        <==> !CheckRateLimitAsWritten(s.attempts, ip, now).allowed
    ensures r.reply == Err(Unauthorized, InvalidCredentials)
        <==> CheckRateLimitAsWritten(s.attempts, ip, now).allowed && BadCredentials(s.users, c, passwordOk)
  {
    LoginWith(s, ip, c, passwordOk, now, RecentAsWritten(now))
  }

  /** The endpoint with the limiter pruning by whole age; the rest of this
      model uses it. */
  function Login(s: Server, ip: string, c: Credentials, passwordOk: (string, string) -> bool, now: int): (r: Exchange<Body>)
    ensures r.server.users == s.users
    ensures r.reply == Err(TooManyRequests, TooManyAttempts)
        <==> !CheckRateLimit(s.attempts, ip, now).allowed
    ensures r.reply == Err(Unauthorized, InvalidCredentials)
        <==> CheckRateLimit(s.attempts, ip, now).allowed && BadCredentials(s.users, c, passwordOk)
    ensures r.reply.Ok?
        <==> (CheckRateLimit(s.attempts, ip, now).allowed && !BadCredentials(s.users, c, passwordOk)
              && Active(s.users[c.username]))
    ensures r.reply.Ok? ==> "access_token" !in r.reply.value
    ensures r.reply.Ok? ==>
      r.reply.value == if MfaOn(s.users[c.username]) then MfaRequired(c.username) else MfaSetupRequired(c.username)
    ensures r.server.attempts
         == if r.reply == Err(Unauthorized, InvalidCredentials)
            then RecordLoginAttempt(CheckRateLimit(s.attempts, ip, now).attempts, ip, now)
            else CheckRateLimit(s.attempts, ip, now).attempts
  {
    LoginWith(s, ip, c, passwordOk, now, Recent(now))
  }

  /** Five failures recorded from an address yesterday, at this very time of
      day: the endpoint as written answers 429 to any login from it, the
      right password included, while the corrected endpoint lets it
      through. */
  lemma LoginLockedOutByYesterday(users: Users, ip: string, c: Credentials, passwordOk: (string, string) -> bool, now: int)
    ensures var s := Server(users, map[ip := Repeat(now - MicrosPerDay, 5)]);
      LoginAsWritten(s, ip, c, passwordOk, now).reply == Err(TooManyRequests, TooManyAttempts)
      && Login(s, ip, c, passwordOk, now).reply != Err(TooManyRequests, TooManyAttempts)
  {
    LockedOutByYesterday(ip, now);
  }

  /** A disabled account with the right password is refused without the
      refusal counting as a failed attempt. */
  lemma DisabledAccountNotCounted(s: Server, ip: string, c: Credentials, passwordOk: (string, string) -> bool, now: int)
    requires CheckRateLimit(s.attempts, ip, now).allowed
    requires !BadCredentials(s.users, c, passwordOk) && !Active(s.users[c.username])
    ensures Login(s, ip, c, passwordOk, now).reply == Err(Unauthorized, AccountDisabled)
    ensures |Login(s, ip, c, passwordOk, now).server.attempts[ip]|
         == |CheckRateLimit(s.attempts, ip, now).attempts[ip]|
  {
  }

  /** Failed attempts from `ip` that are still inside the lockout window. */
  function RecentCount(s: Server, ip: string, now: int): nat
  {
    |Filter(AttemptsOf(s.attempts, ip), Recent(now))|
  }

  /** One more failed login at the same instant: counted while the address
      is under the limit, refused with 429 once it is not. */
  lemma FailedLoginStep(s: Server, ip: string, c: Credentials, passwordOk: (string, string) -> bool, now: int)
    requires BadCredentials(s.users, c, passwordOk)
    ensures RecentCount(s, ip, now) < MaxLoginAttempts ==>
      RecentCount(Login(s, ip, c, passwordOk, now).server, ip, now) == RecentCount(s, ip, now) + 1
    ensures RecentCount(s, ip, now) >= MaxLoginAttempts ==>
      RecentCount(Login(s, ip, c, passwordOk, now).server, ip, now) == RecentCount(s, ip, now)
      && Login(s, ip, c, passwordOk, now).reply == Err(TooManyRequests, TooManyAttempts)
  {
    var xs := AttemptsOf(s.attempts, ip);
    var check := CheckRateLimit(s.attempts, ip, now);
    assert check.attempts[ip] == Filter(xs, Recent(now));
    FilterTwice(xs, Recent(now));
    if check.allowed {
      FilterSnoc(Filter(xs, Recent(now)), now, Recent(now));
    }
  }

  /** The same login request repeated `k` times at one instant. */
  function LoginTimes(s: Server, ip: string, c: Credentials, passwordOk: (string, string) -> bool, now: int, k: nat): (r: Server)
    ensures r.users == s.users
  {
    if k == 0 then s else Login(LoginTimes(s, ip, c, passwordOk, now, k - 1), ip, c, passwordOk, now).server
  }

  /** One more round of `LoginTimes` counts as `FailedLoginStep` says. */
  lemma LoginTimesStep(s: Server, ip: string, c: Credentials, passwordOk: (string, string) -> bool, now: int, k: nat)
    requires BadCredentials(s.users, c, passwordOk) && k > 0
    ensures var before := RecentCount(LoginTimes(s, ip, c, passwordOk, now, k - 1), ip, now);
      RecentCount(LoginTimes(s, ip, c, passwordOk, now, k), ip, now)
      == if before < MaxLoginAttempts then before + 1 else before
  {
    FailedLoginStep(LoginTimes(s, ip, c, passwordOk, now, k - 1), ip, c, passwordOk, now);
  }

  /** Starting from a clean record, `k` failed logins leave `min(k, 5)`
      recent failures. */
  lemma {:induction false} FailuresAccumulate(s: Server, ip: string, c: Credentials, passwordOk: (string, string) -> bool, now: int, k: nat)
    requires BadCredentials(s.users, c, passwordOk)
    requires RecentCount(s, ip, now) == 0
    ensures RecentCount(LoginTimes(s, ip, c, passwordOk, now, k), ip, now)
         == if k < MaxLoginAttempts then k else MaxLoginAttempts
  {
    if k > 0 {
      FailuresAccumulate(s, ip, c, passwordOk, now, k - 1);
      LoginTimesStep(s, ip, c, passwordOk, now, k);
    }
  }

  /** After five failed logins at one instant the address is locked out:
      the next request is refused with 429 whatever credentials it carries,
      the right password included. */
  lemma FiveFailuresLockOut(s: Server, ip: string, c: Credentials, passwordOk: (string, string) -> bool, now: int, c2: Credentials)
    requires BadCredentials(s.users, c, passwordOk)
    requires RecentCount(s, ip, now) == 0
    ensures Login(LoginTimes(s, ip, c, passwordOk, now, MaxLoginAttempts), ip, c2, passwordOk, now).reply
         == Err(TooManyRequests, TooManyAttempts)
  {
    FailuresAccumulate(s, ip, c, passwordOk, now, MaxLoginAttempts);
  }

  // ------------------------------------------------------------ MFA enrolment

  /** A request body of string fields. */
  type Form = map<string, string>

  /** The field is present and non-empty (Python truthiness of a string). */
  predicate Filled(body: Form, name: string)
  {
    name in body && body[name] != ""
  }

  datatype SetupMaterial = SetupMaterial(secret: string, qrCode: string, manualEntryKey: string)

  /** POST /setup-mfa: a fresh `secret` from the generator and the QR code
      `qr` draws for it and the username. Nothing is stored: the secret
      only travels to the client. */
  function SetupMfa(users: Users, body: Form, secret: string, qr: (string, string) -> string): (r: Result<SetupMaterial>)
    ensures r == Err(BadRequest, UsernameRequired) <==> !Filled(body, "username")
    ensures r == Err(NotFound, UserNotFound) <==> Filled(body, "username") && body["username"] !in users
    ensures r.Ok? <==> Filled(body, "username") && body["username"] in users
    ensures r.Ok? ==> r.value.secret == secret && r.value.manualEntryKey == r.value.secret
    ensures r.Ok? ==> r.value.qrCode == qr(secret, body["username"])
  {
    if !Filled(body, "username") then Err(BadRequest, UsernameRequired)
    else if body["username"] !in users then Err(NotFound, UserNotFound)
    else Ok(SetupMaterial(secret, qr(secret, body["username"]), secret))
  }

  /** The reply carrying a session token. */
  datatype TokenReply = TokenReply(accessToken: Claims, tokenType: string, expiresIn: int)

  /** A token for `username` with the endpoints' 30-minute lifetime. */
  function SessionToken(username: string, now: int): (t: TokenReply)
    ensures t.accessToken.sub == username && t.tokenType == "bearer"
    ensures t.accessToken.exp == now + t.expiresIn * MicrosPerSecond
  {
    EndpointTokenLifetime(username, now);
    TokenReply(CreateAccessToken(username, Some(DefaultLifetime), now), "bearer", ExpiresIn)
  }

  /** An enrolment reply and the account store it leaves. */
  datatype Enrolment = Enrolment(users: Users, reply: Result<TokenReply>)

  predicate EnrolmentFilled(body: Form)
  {
    Filled(body, "username") && Filled(body, "secret") && Filled(body, "mfa_code")
  }

  /** POST /verify-mfa-setup as written: a code that matches the secret the
      request itself carries enables MFA with that secret on the named
      account and issues a token for that name. Neither the account's
      existence, nor its current MFA state, nor its password is consulted. */
  function VerifyMfaSetupAsWritten(users: Users, body: Form, codeOk: (string, string) -> bool, now: int): (r: Enrolment)
    ensures r.reply == Err(BadRequest, FieldsRequired) <==> !EnrolmentFilled(body)
    ensures r.reply.Ok? <==> EnrolmentFilled(body) && codeOk(body["secret"], body["mfa_code"])
    ensures r.reply.Err? ==> r.users == users
    ensures r.reply.Ok? ==>
      r.users == UpdateUserMfa(users, body["username"], body["secret"], true, now)
      && r.reply.value == SessionToken(body["username"], now)
  {
    if !EnrolmentFilled(body) then Enrolment(users, Err(BadRequest, FieldsRequired))
    else if !codeOk(body["secret"], body["mfa_code"]) then Enrolment(users, Err(BadRequest, InvalidMfaCode))
    else
      var username := body["username"];
      Enrolment(UpdateUserMfa(users, username, body["secret"], true, now), Ok(SessionToken(username, now)))
  }

  /** Anyone who knows the name of an enrolled account can replace its MFA
      secret with one of their own and receive a token for it, without its
      password: the secret and a code for it are all the request needs. */
  lemma EnrolmentTakeover(users: Users, name: string, mine: string, code: string, codeOk: (string, string) -> bool, now: int)
    requires name in users && MfaOn(users[name])
    requires name != "" && mine != "" && code != "" && codeOk(mine, code)
    ensures var r := VerifyMfaSetupAsWritten(users, map["username" := name, "secret" := mine, "mfa_code" := code], codeOk, now);
      r.reply.Ok? && r.reply.value.accessToken.sub == name
      && r.users[name].mfaSecret == Some(mine) && MfaOn(r.users[name])
  {
  }

  /** ... and the same request naming no account still returns a token for
      that name. */
  lemma TokenForUnknownName(users: Users, name: string, mine: string, code: string, codeOk: (string, string) -> bool, now: int)
    requires name !in users
    requires name != "" && mine != "" && code != "" && codeOk(mine, code)
    ensures var r := VerifyMfaSetupAsWritten(users, map["username" := name, "secret" := mine, "mfa_code" := code], codeOk, now);
      r.reply.Ok? && r.reply.value.accessToken.sub == name && r.users == users
  {
  }

  /** POST /verify-mfa-setup restricted to what it is for: completing the
      enrolment of an existing account that has no MFA yet. */
  function VerifyMfaSetup(users: Users, body: Form, codeOk: (string, string) -> bool, now: int): (r: Enrolment)
    ensures r.reply == Err(BadRequest, FieldsRequired) <==> !EnrolmentFilled(body)
    ensures r.reply.Ok? <==>
      (EnrolmentFilled(body) && body["username"] in users && !MfaOn(users[body["username"]])
       && codeOk(body["secret"], body["mfa_code"]))
    ensures r.reply.Err? ==> r.users == users
    ensures r.reply.Ok? ==>
      r.users == UpdateUserMfa(users, body["username"], body["secret"], true, now)
      && r.reply.value == SessionToken(body["username"], now)
  {
    if !EnrolmentFilled(body) then Enrolment(users, Err(BadRequest, FieldsRequired))
    else if body["username"] !in users then Enrolment(users, Err(NotFound, UserNotFound))
    else if MfaOn(users[body["username"]]) then Enrolment(users, Err(BadRequest, MfaAlreadyEnabled))
    else if !codeOk(body["secret"], body["mfa_code"]) then Enrolment(users, Err(BadRequest, InvalidMfaCode))
    else
      var username := body["username"];
      Enrolment(UpdateUserMfa(users, username, body["secret"], true, now), Ok(SessionToken(username, now)))
  }

  /** Enrolment never touches an account that already has MFA, and only
      issues tokens for existing accounts; what it does change is exactly
      the enrolling account, which ends up with MFA on and the verified
      secret. */
  lemma EnrolmentProtectsEnrolled(users: Users, body: Form, codeOk: (string, string) -> bool, now: int)
    ensures var r := VerifyMfaSetup(users, body, codeOk, now);
      (forall n :: n in users && MfaOn(users[n]) ==> n in r.users && r.users[n] == users[n])
      && (r.reply.Ok? ==> r.reply.value.accessToken.sub in users)
      && (r.reply.Ok? ==>
            r.users[body["username"]].mfaSecret == Some(body["secret"]) && MfaOn(r.users[body["username"]]))
  {
  }

  /** The enrolment round trip: the secret /setup-mfa serves to an account
      without MFA, sent back with a code valid for it, enrols that account
      with exactly that secret and issues a token for it; from then on the
      MFA step accepts exactly the codes valid for the served secret. */
  lemma SetupThenEnrol(users: Users, body: Form, secret: string, qr: (string, string) -> string,
                       code: string, codeOk: (string, string) -> bool, now: int,
                       attempts: Attempts, ip: string, later: string, at: int)
    requires SetupMfa(users, body, secret, qr).Ok?
    requires !MfaOn(users[body["username"]])
    requires secret != "" && code != "" && codeOk(secret, code)
    ensures var name := body["username"];
      var e := VerifyMfaSetup(users, map["username" := name, "secret" := SetupMfa(users, body, secret, qr).value.secret,
                                         "mfa_code" := code], codeOk, now);
      e.reply.Ok? && e.reply.value.accessToken.sub == name
      && e.users[name].mfaSecret == Some(secret) && MfaOn(e.users[name])
      && (VerifyMfa(Server(e.users, attempts), ip, MfaAttempt(name, later), codeOk, at).reply.Ok? <==> codeOk(secret, later))
  {
  }

  // ------------------------------------------------------------ MFA step

  datatype MfaAttempt = MfaAttempt(username: string, mfaCode: string)

  /** POST /verify-mfa from `ip`. Failures are recorded against the address,
      but the endpoint never consults the limiter. An enrolled account
      without a stored secret fails with a server error. */
  function VerifyMfa(s: Server, ip: string, m: MfaAttempt, codeOk: (string, string) -> bool, now: int): (r: Exchange<TokenReply>)
    ensures r.server.users == s.users
    ensures r.reply == Err(Unauthorized, MfaNotEnabled)
        <==> m.username !in s.users || !MfaOn(s.users[m.username])
    ensures r.reply.Ok?
        <==> (m.username in s.users && MfaOn(s.users[m.username])
              && s.users[m.username].mfaSecret.Some?
              && codeOk(s.users[m.username].mfaSecret.value, m.mfaCode))
    ensures r.reply.Ok? ==> r.reply.value == SessionToken(m.username, now)
    ensures r.server.attempts
         == if r.reply.Err? && r.reply.status == Unauthorized
            then RecordLoginAttempt(s.attempts, ip, now) else s.attempts
  {
    if m.username !in s.users || !MfaOn(s.users[m.username]) then
      Exchange(s.(attempts := RecordLoginAttempt(s.attempts, ip, now)), Err(Unauthorized, MfaNotEnabled))
    else
      match s.users[m.username].mfaSecret
      case None => Exchange(s, Err(ServerError, InternalError))
      case Some(secret) =>
        if !codeOk(secret, m.mfaCode) then
          Exchange(s.(attempts := RecordLoginAttempt(s.attempts, ip, now)), Err(Unauthorized, InvalidMfaCode))
        else
          Exchange(s, Ok(SessionToken(m.username, now)))
  }

  /** The MFA step answers the same however many failures the address has
      on record: codes can be guessed without ever meeting a 429. */
  lemma VerifyMfaNotThrottled(s: Server, ip: string, m: MfaAttempt, codeOk: (string, string) -> bool, now: int, other: Attempts)
    ensures VerifyMfa(s, ip, m, codeOk, now).reply == VerifyMfa(s.(attempts := other), ip, m, codeOk, now).reply
    ensures VerifyMfa(s, ip, m, codeOk, now).reply != Err(TooManyRequests, TooManyAttempts)
  {
  }

  /** A token from the MFA step or from enrolment opens the account it
      names, as long as that account exists and is active. */
  lemma IssuedTokenOpensAccount(s: Server, ip: string, m: MfaAttempt, codeOk: (string, string) -> bool, now: int)
    requires VerifyMfa(s, ip, m, codeOk, now).reply.Ok?
    requires Active(s.users[m.username])
    ensures var t := VerifyMfa(s, ip, m, codeOk, now).reply.value.accessToken;
      CurrentUser(s.users, Some(t)) == Ok(s.users[m.username])
  {
  }

  /** POST /refresh: a new 30-minute token for the current user. */
  function Refresh(users: Users, decoded: Option<Claims>, now: int): (r: Result<TokenReply>)
    ensures r.Ok? <==> CurrentUser(users, decoded).Ok?
    ensures r.Err? ==> r == Err(Unauthorized, CouldNotValidate)
    ensures r.Ok? ==> r.value.accessToken.sub == CurrentUser(users, decoded).value.username
  {
    match CurrentUser(users, decoded)
    case Err(code, detail) => Err(code, detail)
    case Ok(u) => Ok(SessionToken(u.username, now))
  }

  const InitialAdminExists: string := "Initial admin already exists"

  /** The account POST /create-initial-admin creates. */
  const InitialAdmin: NewUser := NewUser("admin", "admin@opticavillalba.com", "AdminPass123!", Some(true), Some(false))

  /** POST /create-initial-admin: create `admin` unless that name is taken;
      `hash` is the bcrypt hash of the fixed initial password. */
  function CreateInitialAdmin(users: Users, hash: string, now: int): (r: Result<Users>)
    ensures r.Err? <==> "admin" in users
    ensures r.Err? ==> r == Err(BadRequest, InitialAdminExists)
    ensures r.Ok? ==> r.value.Keys == users.Keys + {"admin"}
    ensures r.Ok? ==> Active(r.value["admin"]) && !MfaOn(r.value["admin"])
  {
    if "admin" in users then Err(BadRequest, InitialAdminExists)
    else CreateUser(users, InitialAdmin, hash, now)
  }

  /** The initial admin is created at most once, and its first login always
      asks for MFA enrolment. */
  lemma InitialAdminFirstLogin(users: Users, hash: string, now: int, ip: string, passwordOk: (string, string) -> bool, attempts: Attempts)
    requires CreateInitialAdmin(users, hash, now).Ok?
    requires passwordOk(InitialAdmin.password, hash)
    requires CheckRateLimit(attempts, ip, now).allowed
    ensures var created := CreateInitialAdmin(users, hash, now).value;
      CreateInitialAdmin(created, hash, now) == Err(BadRequest, InitialAdminExists)
      && Login(Server(created, attempts), ip, Credentials("admin", InitialAdmin.password), passwordOk, now).reply
         == Ok(MfaSetupRequired("admin"))
  {
  }
}
