/** The account store, the login-attempt rate limiter and the token lifetime
    of the admin authentication service. Passwords are held as opaque hashes
    and tokens as the claims they carry: bcrypt, JWT signing and TOTP are
    oracles supplied by the caller. */
module Auth {
  import opened Common
  import opened Arith

  const MaxLoginAttempts: int := 5
  const LockoutSeconds: int := 300
  const AccessTokenExpireMinutes: int := 30
  const SecondsPerDay: int := 86400

  // ------------------------------------------------------------ rate limiter

  /** Instants of the failed attempts recorded per identifier (a client IP). */
  type Attempts = map<string, seq<int>>

  /** The list held for `id`; an identifier never seen has none. */
  function AttemptsOf(attempts: Attempts, id: string): seq<int>
  {
    if id in attempts then attempts[id] else []
  }

  /** Python's `timedelta.seconds` for a difference of `d` microseconds: the
      whole seconds left after taking out whole days (days are floored, so a
      negative difference still gives a value within one day). */
  function SecondsOfDay(d: int): (r: int)
    ensures 0 <= r < SecondsPerDay
  {
    (d / MicrosPerSecond) % SecondsPerDay
  }

  /** The pruning test as the limiter writes it: the seconds-of-day part of
      the attempt's age is under the lockout duration. */
  function RecentAsWritten(now: int): int -> bool
  {
    a => SecondsOfDay(now - a) < LockoutSeconds
  }

  /** The pruning test the limiter means: the whole age of the attempt is
      under the lockout duration. */
  function Recent(now: int): int -> bool
  {
    a => now - a < LockoutSeconds * MicrosPerSecond
  }

  /** The limiter's answer and the attempts table it leaves behind. */
  datatype RateCheck = RateCheck(attempts: Attempts, allowed: bool)

  /** `check_rate_limit` with pruning test `keep`: the identifier's list is
      replaced by the attempts that pass the test (an unknown identifier gets
      an empty list), and the request is allowed while fewer than five
      remain. */
  function CheckWith(attempts: Attempts, id: string, keep: int -> bool): (r: RateCheck)
    ensures r.attempts.Keys == attempts.Keys + {id}
    ensures forall other :: other in attempts && other != id ==> r.attempts[other] == attempts[other]
    ensures r.allowed <==> |r.attempts[id]| < MaxLoginAttempts
    ensures |r.attempts[id]| <= |AttemptsOf(attempts, id)|
  {
    var kept := Filter(AttemptsOf(attempts, id), keep);
    RateCheck(attempts[id := kept], |kept| < MaxLoginAttempts)
  }

  /** The limiter as written, pruning by seconds-of-day. */
  function CheckRateLimitAsWritten(attempts: Attempts, id: string, now: int): (r: RateCheck)
    ensures id in r.attempts
    ensures r.allowed <==> |r.attempts[id]| < MaxLoginAttempts
  {
    CheckWith(attempts, id, RecentAsWritten(now))
  }

  /** The limiter pruning by the whole age of each attempt; the login
      endpoint of this model uses it. */
  function CheckRateLimit(attempts: Attempts, id: string, now: int): (r: RateCheck)
    ensures id in r.attempts
    ensures r.allowed <==> |r.attempts[id]| < MaxLoginAttempts
  {
    CheckWith(attempts, id, Recent(now))
  }

  /** An attempt survives the check exactly when it was recorded for that
      identifier and passes the pruning test; so the check never adds one. */
  lemma CheckKeepsExactly(attempts: Attempts, id: string, keep: int -> bool, a: int)
    ensures a in CheckWith(attempts, id, keep).attempts[id]
        <==> a in AttemptsOf(attempts, id) && keep(a)
  {
    FilterMembers(AttemptsOf(attempts, id), keep, a);
  }

  /** An identifier never seen before is given an empty list and let through,
      by either pruning test. */
  lemma UnknownIdentifierAllowed(attempts: Attempts, id: string, keep: int -> bool)
    requires id !in attempts
    ensures CheckWith(attempts, id, keep).attempts == attempts[id := []]
    ensures CheckWith(attempts, id, keep).allowed
  {
  }

  /** Pruning an already pruned list at the same instant changes nothing. */
  lemma CheckTwice(attempts: Attempts, id: string, keep: int -> bool)
    ensures CheckWith(CheckWith(attempts, id, keep).attempts, id, keep) == CheckWith(attempts, id, keep)
  {
    FilterTwice(AttemptsOf(attempts, id), keep);
  }

  /** An attempt exactly `k` whole days old has seconds-of-day age zero, so
      the limiter as written keeps it although it is long expired. */
  lemma WholeDaysOldKeptAsWritten(now: int, k: int)
    requires k >= 1
    ensures RecentAsWritten(now)(now - k * MicrosPerDay)
    ensures !Recent(now)(now - k * MicrosPerDay)
  {
    var d := k * MicrosPerDay;
    assert now - (now - d) == d;
    assert d == (k * SecondsPerDay) * MicrosPerSecond;
    DivUnique(d, MicrosPerSecond, k * SecondsPerDay, 0);
    DivUnique(k * SecondsPerDay, SecondsPerDay, k, 0);
    assert SecondsOfDay(d) == 0;
    MulAtLeast(k, MicrosPerDay);
  }

  /** For attempts less than a day old the two pruning tests agree. */
  lemma AsWrittenAgreesWithinADay(now: int, a: int)
    requires 0 <= now - a < MicrosPerDay
    ensures RecentAsWritten(now)(a) <==> Recent(now)(a)
  {
    var d := now - a;
    var q := d / MicrosPerSecond;
    assert d == q * MicrosPerSecond + d % MicrosPerSecond;
    if q >= SecondsPerDay {
      MulMono(SecondsPerDay, q, MicrosPerSecond);
      assert false;
    }
    DivUnique(q, SecondsPerDay, 0, q);
    assert SecondsOfDay(d) == q;
    if q >= LockoutSeconds {
      MulMono(LockoutSeconds, q, MicrosPerSecond);
      assert d >= LockoutSeconds * MicrosPerSecond;
    } else {
      MulMono(q + 1, LockoutSeconds, MicrosPerSecond);
      assert d < LockoutSeconds * MicrosPerSecond;
    }
  }

  /** Five failures from yesterday, at this very time of day, lock the
      address out under the limiter as written; pruning by whole age lets
      it through. */
  lemma LockedOutByYesterday(ip: string, now: int)
    ensures !CheckRateLimitAsWritten(map[ip := Repeat(now - MicrosPerDay, 5)], ip, now).allowed
    ensures CheckRateLimit(map[ip := Repeat(now - MicrosPerDay, 5)], ip, now).allowed
  {
    var y := now - MicrosPerDay;
    var xs := Repeat(y, 5);
    WholeDaysOldKeptAsWritten(now, 1);
    FilterConst(xs, y, RecentAsWritten(now));
    FilterConst(xs, y, Recent(now));
  }

  /** `n` copies of `x`. */
  function Repeat(x: int, n: nat): (r: seq<int>)
    ensures |r| == n && forall i :: 0 <= i < n ==> r[i] == x
  {
    if n == 0 then [] else [x] + Repeat(x, n - 1)
  }

  /** Filtering a list of copies keeps all or nothing. */
  lemma {:induction false} FilterConst(xs: seq<int>, x: int, p: int -> bool)
    requires forall i :: 0 <= i < |xs| ==> xs[i] == x
    ensures Filter(xs, p) == if p(x) then xs else []
  {
    if |xs| > 0 {
      FilterConst(xs[1..], x, p);
      assert xs == [xs[0]] + xs[1..];
    }
  }

  /** `record_login_attempt`: append `now` to that identifier's list,
      creating it if needed. */
  function RecordLoginAttempt(attempts: Attempts, id: string, now: int): (r: Attempts)
    ensures r.Keys == attempts.Keys + {id}
    ensures AttemptsOf(r, id) == AttemptsOf(attempts, id) + [now]
    ensures forall other :: other in attempts && other != id ==> r[other] == attempts[other]
  {
    attempts[id := AttemptsOf(attempts, id) + [now]]
  }

  /** A failure recorded now counts at once against the limit. */
  lemma RecordedAttemptCounts(attempts: Attempts, id: string, now: int)
    ensures |CheckRateLimit(RecordLoginAttempt(attempts, id, now), id, now).attempts[id]|
         == |CheckRateLimit(attempts, id, now).attempts[id]| + 1
  {
    FilterSnoc(AttemptsOf(attempts, id), now, Recent(now));
  }

  // ------------------------------------------------------------ accounts

  /** An account document, keyed by username in `Users`. `is_active` and
      `mfa_enabled` may be absent from a stored document; readers take
      them as true and false. */
  datatype User = User(
    username: string,
    email: string,
    passwordHash: string,
    mfaSecret: Option<string>,
    mfaEnabled: Option<bool>,
    isActive: Option<bool>,
    createdAt: int,
    updatedAt: int)

  type Users = map<string, User>

  predicate Active(u: User)
  {
    u.isActive.GetOr(true)
  }

  predicate MfaOn(u: User)
  {
    u.mfaEnabled.GetOr(false)
  }

  /** What a caller of `create_user` supplies. */
  datatype NewUser = NewUser(
    username: string,
    email: string,
    password: string,
    isActive: Option<bool>,
    mfaEnabled: Option<bool>)

  const UsernameTaken: string := "Username already exists"

  /** `create_user`: refuse a taken username; otherwise store the account
      with `hash`, the password hash the bcrypt oracle produced. */
  function CreateUser(users: Users, data: NewUser, hash: string, now: int): (r: Result<Users>)
    ensures r.Err? <==> data.username in users
    ensures r.Err? ==> r == Err(BadRequest, UsernameTaken)
    ensures r.Ok? ==> r.value.Keys == users.Keys + {data.username}
    ensures r.Ok? ==> forall n :: n in users ==> r.value[n] == users[n]
    ensures r.Ok? ==> var u := r.value[data.username];
      u.passwordHash == hash && u.email == data.email && u.mfaSecret.None?
      && u.isActive == data.isActive && u.mfaEnabled == data.mfaEnabled
      && u.createdAt == now && u.updatedAt == now
  {
    if data.username in users then Err(BadRequest, UsernameTaken)
    else Ok(users[data.username := User(data.username, data.email, hash, None,
                                        data.mfaEnabled, data.isActive, now, now)])
  }

  /** A username can be created once: the same request again is refused. */
  lemma CreateUserOnce(users: Users, data: NewUser, hash: string, hash2: string, now: int, later: int)
    requires CreateUser(users, data, hash, now).Ok?
    ensures CreateUser(CreateUser(users, data, hash, now).value, data, hash2, later)
         == Err(BadRequest, UsernameTaken)
  {
  }

  /** `update_user_mfa`: set the secret and the flag of the named account;
      a username that names no account changes nothing. */
  function UpdateUserMfa(users: Users, username: string, secret: string, enabled: bool, now: int): (r: Users)
    ensures r.Keys == users.Keys
    ensures forall n :: n in users && n != username ==> r[n] == users[n]
    ensures username in users ==>
      r[username].mfaSecret == Some(secret) && MfaOn(r[username]) == enabled
      && r[username].passwordHash == users[username].passwordHash
      && Active(r[username]) == Active(users[username])
    ensures username !in users ==> r == users
  {
    if username in users then
      users[username := users[username].(mfaSecret := Some(secret), mfaEnabled := Some(enabled), updatedAt := now)]
    else users
  }

  // ------------------------------------------------------------ tokens

  /** The claims a signed token carries. */
  datatype Claims = Claims(sub: string, exp: int, iat: int)

  const DefaultLifetime: int := AccessTokenExpireMinutes * MicrosPerMinute

  /** `create_access_token`: a token issued now, expiring after `delta`, or
      after 30 minutes when `delta` is missing or zero (a zero `timedelta`
      is falsy). */
  function CreateAccessToken(sub: string, delta: Option<int>, now: int): (r: Claims)
    ensures r.sub == sub && r.iat == now
    ensures r.exp - r.iat == (if delta.Some? && delta.value != 0 then delta.value else DefaultLifetime)
  {
    var lifetime := if delta.Some? && delta.value != 0 then delta.value else DefaultLifetime;
    Claims(sub, now + lifetime, now)
  }

  /** The lifetime the endpoints announce as `expires_in` (seconds). */
  const ExpiresIn: int := AccessTokenExpireMinutes * 60

  /** A token issued by an endpoint (which always passes the 30-minute
      lifetime) expires exactly `expires_in` seconds after it was issued,
      the same as one issued with no lifetime at all. */
  lemma EndpointTokenLifetime(sub: string, now: int)
    ensures CreateAccessToken(sub, Some(DefaultLifetime), now).exp == now + ExpiresIn * MicrosPerSecond
    ensures CreateAccessToken(sub, Some(DefaultLifetime), now) == CreateAccessToken(sub, None, now)
    ensures CreateAccessToken(sub, Some(0), now) == CreateAccessToken(sub, None, now)
  {
  }

  const CouldNotValidate: string := "Could not validate credentials"

  /** `get_current_user`, given what the token decodes to (`None` when its
      signature or expiry check fails): the account named by the subject,
      if it exists and is active. Every failure, whatever its cause, is
      answered with the same 401. */
  function CurrentUser(users: Users, decoded: Option<Claims>): (r: Result<User>)
    ensures r.Ok? <==> decoded.Some? && decoded.value.sub in users && Active(users[decoded.value.sub])
    ensures r.Ok? ==> r.value == users[decoded.value.sub]
    ensures r.Err? ==> r == Err(Unauthorized, CouldNotValidate)
  {
    match decoded
    case None => Err(Unauthorized, CouldNotValidate)
    case Some(c) =>
      if c.sub in users && Active(users[c.sub]) then Ok(users[c.sub])
      else Err(Unauthorized, CouldNotValidate)
  }
}
