/**
 * Login and token decoding. The user table is hard-coded; the claims of a
 * session expire one day after they are issued; the signing secret comes
 * from the `WORKER_API_SECRET` environment variable or falls back to
 * "secret". JWT encoding and decoding, the clock and the environment are
 * parameters: `encode(claims, secret)`, `decode(token, secret)`, `now` (the
 * current time in whole seconds since the epoch) and `env` (the variable's
 * value, `None` when it is unset or not valid Unicode).
 */
module SecurityControl {
  import opened Wrappers
  import opened Text
  import opened SecurityClaims

  datatype User = User(name: string, password: string)

  const DefaultSecret: string := "secret"

  /** `Duration::days(1)`, in seconds. */
  const OneDay: int := 86400

  /** Seconds since the epoch as an `i64`, with room to add one day (chrono's range is far narrower). */
  predicate IsTimestamp(now: int) {
    -0x8000_0000_0000_0000 <= now < 0x8000_0000_0000_0000 - OneDay
  }

  /** `t as usize` for an `i64` on a 64-bit target: two's-complement reinterpretation. */
  function AsUsize(t: int): (u: usize)
    requires -0x8000_0000_0000_0000 <= t < 0x8000_0000_0000_0000
    ensures 0 <= t ==> u == t
    ensures t < 0 ==> u == t + Pow64
  {
    t % Pow64
  }

  /** The hard-coded user table: the subject identifier of each known name. */
  function UserId(name: string): (r: Option<string>)
    ensures r.Some? <==> name == "jorge" || name == "joel"
    ensures name == "jorge" ==> r == Some("f14f83b7-c626-4255-9da4-cec1ac22b4a1")
    ensures name == "joel" ==> r == Some("c0e38e26-8364-4bac-aed0-f0463945557b")
  {
    if name == "jorge" then Some("f14f83b7-c626-4255-9da4-cec1ac22b4a1")
    else if name == "joel" then Some("c0e38e26-8364-4bac-aed0-f0463945557b")
    else None
  }

  /**
   * The claims `login` builds for subject `uid`, issued at `now`. Both
   * timestamps are cast to `usize`, so the expiry is one day after the
   * issue time except when `now` is negative and `now + OneDay` is not,
   * where the cast of the issue time wraps and the expiry lies below it.
   */
  function SessionClaims(uid: string, name: string, now: int): (c: Claims)
    requires IsTimestamp(now)
    ensures c.sub == uid && c.userName == name
    ensures c.iat == AsUsize(now) && c.exp == AsUsize(now + OneDay)
    ensures 0 <= now || now + OneDay < 0 ==> c.exp == c.iat + OneDay
    ensures now < 0 <= now + OneDay ==> c.exp == c.iat + OneDay - Pow64
  {
    Claims(uid, name, AsUsize(now), AsUsize(now + OneDay))
  }

  /** `get_secret`'s result: the secret and whether the insecure-default warning is printed. */
  datatype SecretChoice = SecretChoice(secret: string, warns: bool)

  /** `get_secret`. */
  function GetSecret(env: Option<string>): (r: SecretChoice)
    ensures env.Some? ==> r.secret == env.value
    ensures env.None? ==> r.secret == DefaultSecret
    ensures r.warns <==> r.secret == DefaultSecret
  {
    var secret := if env.Some? then env.value else DefaultSecret;
    SecretChoice(secret, secret == DefaultSecret)
  }

  /** `login`. The password is never looked at. */
  function Login(user: User, now: int, env: Option<string>, encode: (Claims, string) -> Option<string>): (r: Option<string>)
    requires IsTimestamp(now)
    ensures UserId(user.name).None? ==> r.None?
    ensures r.Some? ==> user.name == "jorge" || user.name == "joel"
  {
    match UserId(user.name)
    case None => None
    case Some(uid) => encode(SessionClaims(uid, user.name, now), GetSecret(env).secret)
  }

  /** `decode_token`: decodes with the same secret `login` signs with. */
  function DecodeToken(token: string, env: Option<string>, decode: (string, string) -> Option<Claims>): (r: Option<Claims>)
    ensures env.Some? ==> r == decode(token, env.value)
    ensures env.None? ==> r == decode(token, DefaultSecret)
  {
    decode(token, GetSecret(env).secret)
  }

  /**
   * What `login` issues: for a known name, the token is the encoding, with
   * `get_secret`'s secret, of claims naming the user's subject and name and
   * expiring one day after they were issued; an unknown name or a failed
   * encoding gives no token.
   */
  lemma LoginIssues(user: User, now: int, env: Option<string>, encode: (Claims, string) -> Option<string>)
    requires IsTimestamp(now)
    ensures var r := Login(user, now, env, encode);
      && (UserId(user.name).None? ==> r.None?)
      && (UserId(user.name).Some? ==>
            exists c: Claims ::
              && c.sub == UserId(user.name).value && c.userName == user.name
              && c.iat == AsUsize(now) && c.exp == AsUsize(now + OneDay)
              && (0 <= now ==> c.iat == now && c.exp == c.iat + OneDay)
              && r == encode(c, GetSecret(env).secret))
  {
    if UserId(user.name).Some? {
      var c := SessionClaims(UserId(user.name).value, user.name, now);
      assert Login(user, now, env, encode) == encode(c, GetSecret(env).secret);
    }
  }

  /** The password has no influence on the outcome. */
  lemma LoginIgnoresPassword(name: string, p1: string, p2: string, now: int, env: Option<string>,
                             encode: (Claims, string) -> Option<string>)
    requires IsTimestamp(now)
    ensures Login(User(name, p1), now, env, encode) == Login(User(name, p2), now, env, encode)
  {
  }

  /**
   * A login followed by an authenticated request within a day: `decode` is
   * the JWT codec as it is at the request's time `later`, between the login
   * and one day after it. If it decodes what was encoded under the same
   * secret whenever the claims have not expired by then, and its tokens are
   * free of edge whitespace, then a request carrying "Bearer <token>" is
   * accepted with the claims of the user who logged in.
   */
  lemma LoginThenAuthenticate(user: User, now: int, later: int, env: Option<string>,
                              encode: (Claims, string) -> Option<string>,
                              decode: (string, string) -> Option<Claims>)
    requires IsTimestamp(now) && 0 <= now <= later <= now + OneDay
    requires forall c: Claims, s :: encode(c, s).Some? && later <= c.exp ==> decode(encode(c, s).value, s) == Some(c)
    requires forall c, s :: encode(c, s).Some? ==> NoEdgeWhitespace(encode(c, s).value)
    requires Login(user, now, env, encode).Some?
    ensures var o := FromRequest(["Bearer " + Login(user, now, env, encode).value],
                                 t => DecodeToken(t, env, decode));
      && o.Success?
      && Some(o.claims.sub) == UserId(user.name)
      && o.claims.userName == user.name
  {
    var uid := UserId(user.name).value;
    var c := SessionClaims(uid, user.name, now);
    var secret := GetSecret(env).secret;
    assert Login(user, now, env, encode) == encode(c, secret);
    var token := encode(c, secret).value;
    BearerTokenOfSpaced(token);
    var header := "Bearer " + token;
    assert DecodeToken(token, env, decode) == Some(c);
    assert FromRequest([header], t => DecodeToken(t, env, decode)) == Success(c);
  }
}
