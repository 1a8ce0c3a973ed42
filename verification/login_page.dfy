/** The admin login screen: a three-step state machine (password, MFA
    enrolment, MFA code) whose code input keeps only digits and whose MFA
    submissions go out only with exactly six of them. The page's calls to
    the session store are returned as values. */
module LoginPage {
  import opened Common
  import opened Json
  import Session

  datatype Step = AtLogin | AtMfaSetup | AtMfaVerify

  /** The enrolment material shown while setting up MFA. */
  datatype Setup = Setup(secret: string, qrCode: string, manualEntryKey: string)

  const NoSetup: Setup := Setup("", "", "")

  /** The page state: the step, the login form, the username carried into
      the MFA steps, the enrolment material and the typed code. */
  datatype Page = Page(
    step: Step,
    loginUsername: string,
    loginPassword: string,
    username: string,
    setup: Setup,
    code: string)

  const Initial: Page := Page(AtLogin, "", "", "", NoSetup, "")

  /** The calls the page makes to the session store after the login. */
  datatype Call =
    | SetupMfaCall(username: string)
    | VerifyMfaSetupCall(username: string, secret: string, code: string)
    | VerifyMfaCall(username: string, code: string)

  /** A character the pattern `\D` does not match. */
  predicate IsDigit(c: char)
  {
    '0' <= c <= '9'
  }

  /** `value.replace(/\D/g, '')`. */
  function DigitsOnly(raw: string): (r: string)
    ensures |r| <= |raw|
    ensures forall i :: 0 <= i < |r| ==> IsDigit(r[i])
  {
    Filter(raw, IsDigit)
  }

  /** The code input: the typed text with every non-digit removed. */
  function OnCodeInput(p: Page, raw: string): (r: Page)
    ensures r.code == DigitsOnly(raw)
    ensures r.(code := p.code) == p
  {
    p.(code := DigitsOnly(raw))
  }

  /** The filter keeps every digit, in order, and nothing else; so typing
      into an input that already shows only digits changes nothing. */
  lemma DigitFilterExact(raw: string, c: char)
    ensures c in DigitsOnly(raw) <==> c in raw && IsDigit(c)
    ensures DigitsOnly(DigitsOnly(raw)) == DigitsOnly(raw)
  {
    FilterMembers(raw, IsDigit, c);
    FilterTwice(raw, IsDigit);
  }

  /** The six-digit guard of both MFA forms, `!code || code.length !== 6`
      negated: the emptiness test adds nothing to the length test. */
  predicate CodeReady(p: Page)
    ensures CodeReady(p) <==> |p.code| == 6
  {
    !(p.code == "" || |p.code| != 6)
  }

  /** Submitting the enrolment form: a request only with a six-digit code,
      for the username and secret the page holds. */
  function HandleMfaSetup(p: Page): (r: Option<Call>)
    ensures r.Some? <==> |p.code| == 6
    ensures r.Some? ==> r.value == VerifyMfaSetupCall(p.username, p.setup.secret, p.code)
  {
    if !CodeReady(p) then None else Some(VerifyMfaSetupCall(p.username, p.setup.secret, p.code))
  }

  /** Submitting the code form: a request only with a six-digit code. */
  function HandleMfaVerify(p: Page): (r: Option<Call>)
    ensures r.Some? <==> |p.code| == 6
    ensures r.Some? ==> r.value == VerifyMfaCall(p.username, p.code)
  {
    if !CodeReady(p) then None else Some(VerifyMfaCall(p.username, p.code))
  }

  /** Whatever was typed, a code that reaches the server is six digits. */
  lemma SentCodesAreSixDigits(p: Page, raw: string)
    requires HandleMfaVerify(OnCodeInput(p, raw)).Some? || HandleMfaSetup(OnCodeInput(p, raw)).Some?
    ensures |DigitsOnly(raw)| == 6
    ensures forall i :: 0 <= i < 6 ==> IsDigit(DigitsOnly(raw)[i])
  {
  }

  /** The page after the login call and the calls it went on to make. */
  datatype Handled = Handled(page: Page, calls: seq<Call>)

  /** Submitting the password form, given how `login` settled and, for the
      enrolment step, what the setup call returned. A rejected login leaves
      the page as it was; otherwise the submitted username is kept for the
      MFA calls and the step follows the outcome. */
  function HandleLogin(p: Page, outcome: Session.Outcome, setup: Result<Setup>): (r: Handled)
    ensures outcome.Refused? ==> r == Handled(p, [])
    ensures !outcome.Refused? ==> r.page.username == p.loginUsername
    ensures r.page.step == match outcome
      case MfaSetupStep(_, _) => AtMfaSetup
      case MfaVerifyStep(_, _) => AtMfaVerify
      case _ => p.step
    ensures r.calls == if outcome.MfaSetupStep? then [SetupMfaCall(p.loginUsername)] else []
    ensures r.page.setup == if outcome.MfaSetupStep? && setup.Ok? then setup.value else p.setup
    ensures r.page.code == p.code && r.page.loginUsername == p.loginUsername
  {
    match outcome
    case Refused(_) => Handled(p, [])
    case SignedIn(_) => Handled(p.(username := p.loginUsername), [])
    case MfaSetupStep(_, _) =>
      var next := p.(username := p.loginUsername, step := AtMfaSetup);
      Handled(if setup.Ok? then next.(setup := setup.value) else next, [SetupMfaCall(p.loginUsername)])
    case MfaVerifyStep(_, _) => Handled(p.(username := p.loginUsername, step := AtMfaVerify), [])
  }

  /** The MFA calls are made for the username submitted at login, whatever
      code is typed afterwards and whatever the server echoed. */
  lemma MfaCallsUseLoginName(p: Page, outcome: Session.Outcome, setup: Result<Setup>, raw: string)
    requires !outcome.Refused?
    ensures var q := OnCodeInput(HandleLogin(p, outcome, setup).page, raw);
      (HandleMfaVerify(q).Some? ==> HandleMfaVerify(q).value.username == p.loginUsername)
      && (HandleMfaSetup(q).Some? ==> HandleMfaSetup(q).value.username == p.loginUsername)
  {
  }

  /** The enrolment form submits the secret the server generated for this
      account, as the setup call returned it. */
  lemma EnrolmentUsesServedSecret(p: Page, u: Value, m: Value, s: Setup, raw: string)
    requires |DigitsOnly(raw)| == 6
    ensures var q := OnCodeInput(HandleLogin(p, Session.MfaSetupStep(u, m), Ok(s)).page, raw);
      HandleMfaSetup(q) == Some(VerifyMfaSetupCall(p.loginUsername, s.secret, DigitsOnly(raw)))
  {
  }

  /** Cancel: back to the password step with every field cleared. */
  function ResetToLogin(p: Page): (r: Page)
    ensures r.step == AtLogin && r.loginUsername == "" && r.loginPassword == ""
    ensures r.code == "" && r.username == "" && r.setup == NoSetup
  {
    Initial
  }

  /** Cancel is a fresh start: the page is as first rendered, so a
      signed-out session that has loaded shows the password form again, and
      neither MFA form can send anything until a new code is typed. */
  lemma ResetIsFreshStart(p: Page, s: Session.Session)
    ensures ResetToLogin(p) == Initial
    ensures !Session.IsAuthenticated(s) && !s.loading ==> Render(s, ResetToLogin(p)) == Form(AtLogin)
    ensures HandleMfaSetup(ResetToLogin(p)).None? && HandleMfaVerify(ResetToLogin(p)).None?
  {
  }

  /** What the page shows. */
  datatype View = Redirect | Spinner | Form(step: Step)

  /** A signed-in user is sent to the dashboard before anything else; the
      spinner shows while the session store loads. */
  function Render(s: Session.Session, p: Page): (v: View)
    ensures Session.IsAuthenticated(s) <==> v == Redirect
    ensures v.Form? ==> !s.loading && v.step == p.step
  {
    if Session.IsAuthenticated(s) then Redirect
    else if s.loading then Spinner
    else Form(p.step)
  }

  /** The redirect follows the session store: a login that signs in leads
      to the dashboard, and signing out, a 401 while a token is held, or a
      failed mount check never does. */
  lemma RenderFollowsSession(s: Session.Session, p: Page, login: Session.Reply, me: Session.Reply, status: int)
    ensures Session.Login(s, login, me).outcome.SignedIn? ==> Render(Session.Login(s, login, me).session, p) == Redirect
    ensures Render(Session.Logout(s), p) != Redirect
    ensures status == Unauthorized && Session.Holds(s) ==> Render(Session.On401(s, status), p) != Redirect
    ensures Session.Holds(s) && !me.Answer? ==> Render(Session.Mount(s, me).session, p) == Form(p.step)
  {
  }
}
