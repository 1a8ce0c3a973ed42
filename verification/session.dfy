/** The admin panel's session store: the token kept in browser storage and in
    memory, the signed-in user, the loading flag, and how each call to the
    authentication API moves them. Every HTTP exchange is an input: the
    reply the server gave, or none at all. */
module Session {
  import opened Common
  import opened Json
  import opened Fields
  import Auth
  import AuthApi

  /** What an HTTP call came back with. */
  datatype Reply =
    | Answer(body: Body)
    | HttpError(status: int, detail: Option<string>)
    | NoResponse

  /** The store's state. `stored` is the `admin_token` entry of browser
      storage; `token` and `user` are the provider's state. */
  datatype Session = Session(stored: Option<Value>, token: Option<Value>, user: Option<Body>, loading: bool)

  /** The provider as first rendered: the token is read from storage. */
  function Start(stored: Option<Value>): (s: Session)
    ensures s.token == s.stored && s.user.None? && s.loading
  {
    Session(stored, stored, None, true)
  }

  /** `if (token)`: a token is held and truthy. */
  predicate Holds(s: Session)
  {
    s.token.Some? && Truthy(s.token.value)
  }

  /** `isAuthenticated: !!user`: the user is set and truthy, and a user
      object is always truthy, so this is "a user is set". */
  predicate IsAuthenticated(s: Session)
    ensures IsAuthenticated(s) <==> s.user.Some?
  {
    s.user.Some? && Truthy(Obj(s.user.value))
  }

  /** A body field, `undefined` (read here as `null`) when absent. */
  function Get(b: Body, name: string): Value
  {
    if name in b then b[name] else Null
  }

  /** `error.response?.data?.detail || fallback`. */
  function ErrorMessage(r: Reply, fallback: string): (m: string)
    ensures r.HttpError? && r.detail.Some? && r.detail.value != "" ==> m == r.detail.value
    ensures !(r.HttpError? && r.detail.Some? && r.detail.value != "") ==> m == fallback
  {
    if r.HttpError? && r.detail.Some? && r.detail.value != "" then r.detail.value else fallback
  }

  /** `logout`: forget the token everywhere and the user. */
  function Logout(s: Session): (r: Session)
    ensures r.stored.None? && r.token.None? && r.user.None? && r.loading == s.loading
    ensures !IsAuthenticated(r) && !Holds(r)
  {
    Session(None, None, None, s.loading)
  }

  /** The response interceptor: a 401 logs out only while a token is held;
      every other reply leaves the session as it was. */
  function On401(s: Session, status: int): (r: Session)
    ensures status == Unauthorized && Holds(s) ==> r == Logout(s)
    ensures !(status == Unauthorized && Holds(s)) ==> r == s
  {
    if status == Unauthorized && Holds(s) then Logout(s) else s
  }

  /** The result of the mount check, and whether it asked the server. */
  datatype Mounted = Mounted(session: Session, requested: bool)

  /** The mount check: with no token, stop loading without a request;
      otherwise ask `/me` and keep its user, or, on any failure, drop the
      token from storage and state. */
  function Mount(s: Session, me: Reply): (r: Mounted)
    ensures !r.session.loading
    ensures r.requested <==> Holds(s)
    ensures !Holds(s) ==> r.session == s.(loading := false)
    ensures Holds(s) && me.Answer? ==> r.session == s.(user := Some(me.body), loading := false)
    ensures Holds(s) && !me.Answer? ==>
      r.session.stored.None? && r.session.token.None? && r.session.user.None?
  {
    if !Holds(s) then Mounted(s.(loading := false), false)
    else match me
      case Answer(u) => Mounted(s.(user := Some(u), loading := false), true)
      case _ => Mounted(Session(None, None, None, false), true)
  }

  /** What `login` resolves to, or the message it rejects with. */
  datatype Outcome =
    | MfaSetupStep(username: Value, message: Value)
    | MfaVerifyStep(username: Value, message: Value)
    | SignedIn(message: Value)
    | Refused(reason: string)

  datatype LoggedIn = LoggedIn(session: Session, outcome: Outcome)

  const LoginError: string := "Error en el login"

  /** Store `tok` in storage and state, then load the user from `/me`. */
  function StoreThenFetch(s: Session, tok: Value, me: Reply): (r: Session)
    ensures r.stored == Some(tok) && r.token == Some(tok)
    ensures r.user == if me.Answer? then Some(me.body) else s.user
  {
    var s1 := s.(stored := Some(tok), token := Some(tok));
    if me.Answer? then s1.(user := Some(me.body)) else s1
  }

  /** `login`: the reply to the password step decides the next step by
      checking `requires_mfa_setup`, then `requires_mfa`, then
      `access_token`. A reply with none of them is rejected, and every
      rejection carries the server's `detail` or the generic message. */
  function Login(s: Session, login: Reply, me: Reply): (r: LoggedIn)
    ensures !r.session.loading
    ensures !login.Answer? ==> r == LoggedIn(s.(loading := false), Refused(ErrorMessage(login, LoginError)))
    ensures login.Answer? && Truthy(Get(login.body, "requires_mfa_setup")) ==>
      r == LoggedIn(s.(loading := false), MfaSetupStep(Get(login.body, "username"), Get(login.body, "message")))
    ensures r.outcome.MfaVerifyStep? <==>
      (login.Answer? && !Truthy(Get(login.body, "requires_mfa_setup")) && Truthy(Get(login.body, "requires_mfa")))
    ensures r.outcome.SignedIn? <==>
      (login.Answer? && !Truthy(Get(login.body, "requires_mfa_setup")) && !Truthy(Get(login.body, "requires_mfa"))
       && Truthy(Get(login.body, "access_token")) && me.Answer?)
    ensures r.outcome.SignedIn? ==> IsAuthenticated(r.session) && Holds(r.session)
    ensures r.session.stored != s.stored ==> r.session.stored == Some(Get(login.body, "access_token"))
  {
    var done := s.(loading := false);
    match login
    case Answer(b) =>
      if Truthy(Get(b, "requires_mfa_setup")) then
        LoggedIn(done, MfaSetupStep(Get(b, "username"), Get(b, "message")))
      else if Truthy(Get(b, "requires_mfa")) then
        LoggedIn(done, MfaVerifyStep(Get(b, "username"), Get(b, "message")))
      else if Truthy(Get(b, "access_token")) then
        var after := StoreThenFetch(done, Get(b, "access_token"), me);
        if me.Answer? then
          LoggedIn(after, SignedIn(OrElse(Some(Get(b, "message")), Str("Login exitoso"))))
        else
          LoggedIn(after, Refused(ErrorMessage(me, LoginError)))
      else
        LoggedIn(done, Refused(LoginError))
    case _ => LoggedIn(done, Refused(ErrorMessage(login, LoginError)))
  }

  /** A reply with none of the three flags is rejected with the generic
      message (the inner "unexpected reply" message is replaced). */
  lemma UnflaggedReplyRefused(s: Session, b: Body, me: Reply)
    requires !Truthy(Get(b, "requires_mfa_setup")) && !Truthy(Get(b, "requires_mfa"))
    requires !Truthy(Get(b, "access_token"))
    ensures Login(s, Answer(b), me) == LoggedIn(s.(loading := false), Refused(LoginError))
  {
  }

  /** The token is written to storage and state before the user is fetched:
      when `/me` then fails, the login is rejected, and at the moment `login`
      returns the token is still stored and held (see
      `TokenRecheckedAfterLogin` for what happens next). */
  lemma TokenStoredBeforeUser(s: Session, b: Body, me: Reply)
    requires !Truthy(Get(b, "requires_mfa_setup")) && !Truthy(Get(b, "requires_mfa"))
    requires Truthy(Get(b, "access_token")) && !me.Answer?
    ensures var r := Login(s, Answer(b), me);
      r.outcome.Refused? && r.session.stored == Some(Get(b, "access_token"))
      && Holds(r.session) && r.session.user == s.user
  {
  }

  /** Setting the token reruns the check of `Mount`, and a 401 from `/me`
      reaches the response interceptor: after a login whose `/me` failed,
      a 401 signs the panel out at once, and the rerun check either finds
      the user or drops the token. Either way the token does not outlive a
      second failed `/me`. */
  lemma TokenRecheckedAfterLogin(s: Session, b: Body, me: Reply, again: Reply)
    requires !Truthy(Get(b, "requires_mfa_setup")) && !Truthy(Get(b, "requires_mfa"))
    requires Truthy(Get(b, "access_token")) && !me.Answer?
    ensures var r := Login(s, Answer(b), me).session;
      (me.HttpError? && me.status == Unauthorized ==> On401(r, me.status) == Logout(r))
      && Mount(r, again).requested
      && (again.Answer? ==> IsAuthenticated(Mount(r, again).session) && Mount(r, again).session.token == Some(Get(b, "access_token")))
      && (!again.Answer? ==>
            !IsAuthenticated(Mount(r, again).session) && !Holds(Mount(r, again).session)
            && Mount(r, again).session.stored.None?)
  {
    TokenStoredBeforeUser(s, b, me);
  }

  /** Every reply the server's password step can give leads to one of the
      two MFA steps, never straight to a session: the token is untouched
      and the username is the one the server echoed. */
  lemma ServerLoginNeverSignsIn(s: Session, srv: AuthApi.Server, ip: string, c: AuthApi.Credentials,
                                passwordOk: (string, string) -> bool, now: int, me: Reply)
    requires AuthApi.Login(srv, ip, c, passwordOk, now).reply.Ok?
    ensures var r := Login(s, Answer(AuthApi.Login(srv, ip, c, passwordOk, now).reply.value), me);
      (r.outcome.MfaSetupStep? || r.outcome.MfaVerifyStep?)
      && r.outcome.username == Str(c.username)
      && r.session == s.(loading := false)
      && (r.outcome.MfaSetupStep? <==> !Auth.MfaOn(srv.users[c.username]))
  {
  }

  /** The result of an MFA call: the session, and the rejection message if
      the call failed. */
  datatype Completed = Completed(session: Session, error: Option<string>)

  const MfaError: string := "Error verificando MFA"

  /** `verifyMFASetup` and `verifyMFA`: on an answer, store its
      `access_token` and fetch the user; any failure rejects with the
      server's detail or the generic message. */
  function CompleteMfa(s: Session, reply: Reply, me: Reply): (r: Completed)
    ensures r.error.None? <==> reply.Answer? && me.Answer?
    ensures r.error.None? ==> IsAuthenticated(r.session) && r.session.token == Some(Get(reply.body, "access_token"))
    ensures !reply.Answer? ==> r == Completed(s, Some(ErrorMessage(reply, MfaError)))
    ensures reply.Answer? ==> r.session.stored == Some(Get(reply.body, "access_token"))
  {
    match reply
    case Answer(b) =>
      var after := StoreThenFetch(s, Get(b, "access_token"), me);
      if me.Answer? then Completed(after, None) else Completed(after, Some(ErrorMessage(me, MfaError)))
    case _ => Completed(s, Some(ErrorMessage(reply, MfaError)))
  }

  /** The same after an MFA call whose `/me` failed: the stored token is
      checked again, and a second failure drops it. */
  lemma TokenRecheckedAfterMfa(s: Session, reply: Reply, me: Reply, again: Reply)
    requires reply.Answer? && Truthy(Get(reply.body, "access_token")) && !me.Answer?
    ensures var r := CompleteMfa(s, reply, me).session;
      CompleteMfa(s, reply, me).error.Some? && Holds(r)
      && (me.HttpError? && me.status == Unauthorized ==> On401(r, me.status) == Logout(r))
      && Mount(r, again).requested
      && (!again.Answer? ==>
            !IsAuthenticated(Mount(r, again).session) && !Holds(Mount(r, again).session)
            && Mount(r, again).session.stored.None?)
  {
  }

  /** The JSON body of a token reply, `sign` being the JWT encoder. */
  function TokenBody(t: AuthApi.TokenReply, sign: Auth.Claims -> string): Body
  {
    map["access_token" := Str(sign(t.accessToken)), "token_type" := Str(t.tokenType),
        "expires_in" := Num(t.expiresIn)]
  }

  /** A successful MFA step signs the panel in with the token the server
      signed, as soon as `/me` answers. */
  lemma MfaStepSignsIn(s: Session, srv: AuthApi.Server, ip: string, m: AuthApi.MfaAttempt,
                       codeOk: (string, string) -> bool, now: int, sign: Auth.Claims -> string, u: Body)
    requires AuthApi.VerifyMfa(srv, ip, m, codeOk, now).reply.Ok?
    ensures var t := AuthApi.VerifyMfa(srv, ip, m, codeOk, now).reply.value;
      var r := CompleteMfa(s, Answer(TokenBody(t, sign)), Answer(u));
      r.error.None? && r.session.stored == Some(Str(sign(t.accessToken))) && r.session.user == Some(u)
  {
  }

  /** The result of `refreshToken`: the session and whether it rejected. */
  datatype Refreshed = Refreshed(session: Session, failed: bool)

  /** `refreshToken`: store the new token, or on any failure log out and
      pass the failure on. */
  function RefreshToken(s: Session, reply: Reply): (r: Refreshed)
    ensures r.failed <==> !reply.Answer?
    ensures r.failed ==> r.session == Logout(s)
    ensures !r.failed ==>
      r.session == s.(stored := Some(Get(reply.body, "access_token")), token := Some(Get(reply.body, "access_token")))
  {
    match reply
    case Answer(b) => Refreshed(s.(stored := Some(Get(b, "access_token")), token := Some(Get(b, "access_token"))), false)
    case _ => Refreshed(Logout(s), true)
  }

  /** A refresh the server grants keeps whoever is signed in signed in,
      now holding the newly signed token; one it refuses signs the panel
      out. */
  lemma RefreshKeepsSession(s: Session, users: Auth.Users, decoded: Option<Auth.Claims>, now: int,
                            sign: Auth.Claims -> string, status: int, detail: Option<string>)
    ensures var t := AuthApi.Refresh(users, decoded, now);
      t.Ok? ==>
        var r := RefreshToken(s, Answer(TokenBody(t.value, sign)));
        !r.failed && r.session.user == s.user && (IsAuthenticated(r.session) <==> IsAuthenticated(s))
        && r.session.stored == Some(Str(sign(t.value.accessToken)))
        && (Holds(r.session) <==> sign(t.value.accessToken) != "")
    ensures AuthApi.Refresh(users, decoded, now).Err? ==>
      var r := RefreshToken(s, HttpError(status, detail));
      r.failed && !IsAuthenticated(r.session) && !Holds(r.session)
  {
  }

  /** Signing out and expiring alike leave nobody signed in, and a later
      mount check asks nothing. */
  lemma LoggedOutStaysOut(s: Session, status: int, me: Reply)
    requires status == Unauthorized && Holds(s)
    ensures !IsAuthenticated(On401(s, status))
    ensures Mount(On401(s, status), me) == Mounted(Logout(s).(loading := false), false)
  {
  }
}
