// Keys and tokens of the authn service. Times are nanoseconds since the epoch; a token is what the
// secret has signed, and any other text is no token.
module AuthnModel {
  datatype Result<+T> = Ok(value: T) | Err(error: Error)

  datatype Error = UnauthorizedAccess | NotFound | Conflict | InvalidKeyIssuedAt | KeyExpired

  /** time.Time: the zero value or an instant. */
  datatype Time = Zero | At(ns: int)

  const SECOND: int := 1_000_000_000
  const LOGIN_DURATION: int := 10 * 3600 * SECOND
  const RESET_DURATION: int := 5 * 60 * SECOND

  /** Key types: login (user) keys, recovery keys and API keys. */
  const USER_KEY: nat := 0
  const RECOVERY_KEY: nat := 1
  const API_KEY: nat := 2

  /** A string that a caller can present: a signed token or something else. */
  datatype Text = Plain(s: string) | Signed(claims: Claims)

  /** JWT claims; a zero iat or exp means that the claim is absent. */
  datatype Claims = Claims(id: string, keyType: nat, iss: Text, sub: Text, iat: int, exp: int)

  const ISSUER_NAME: Text := Plain("mainflux.authn")

  datatype Key = Key(id: string, keyType: nat, issuer: Text, secret: Text, issuedAt: Time, expiresAt: Time)

  /** Unix seconds, rounded down. */
  function Unix(ns: int): int {
    ns / SECOND
  }

  function Add(t: Time, d: int): Time {
    if t.Zero? then Zero else At(t.ns + d)
  }

  /** Key.Expired: a key without an expiry has the zero time, which lies before every instant. */
  predicate Expired(k: Key, now: int) {
    k.expiresAt.Zero? || k.expiresAt.ns < now
  }

  // ----- The tokenizer ------------------------------------------------------------------------------

  function IssueToken(key: Key): Text
    requires key.issuedAt.At?
  {
    Signed(Claims(key.id, key.keyType, key.issuer, key.secret, Unix(key.issuedAt.ns),
                  if key.expiresAt.At? then Unix(key.expiresAt.ns) else 0))
  }

  function ToKey(c: Claims): Key {
    Key(c.id, c.keyType, c.iss, c.sub, At(c.iat * SECOND), if c.exp != 0 then At(c.exp * SECOND) else Zero)
  }

  /** exp and iat as in sections 4.1.4 and 4.1.6 of RFC 7519, to the second. */
  predicate Late(c: Claims, now: int) {
    c.exp != 0 && Unix(now) > c.exp
  }

  predicate Early(c: Claims, now: int) {
    c.iat != 0 && Unix(now) < c.iat
  }

  /** An API key that is only too old is handed on, so that it can be revoked. */
  function Parse(token: Text, now: int): Result<Key> {
    if token.Plain? || token.claims.keyType > API_KEY then Err(UnauthorizedAccess)
    else
      var c := token.claims;
      if Early(c, now) then Err(UnauthorizedAccess)
      else if Late(c, now) && c.keyType != API_KEY then Err(KeyExpired)
      else Ok(ToKey(c))
  }

  // ----- The key repository -------------------------------------------------------------------------

  type Keys = map<string, Key>

  function Retrieve(keys: Keys, issuer: Text, id: string): Result<Key> {
    if id in keys && keys[id].issuer == issuer then Ok(keys[id]) else Err(NotFound)
  }

  function Remove(keys: Keys, issuer: Text, id: string): Keys {
    if id in keys && keys[id].issuer == issuer then keys - {id} else keys
  }

  // ----- The service --------------------------------------------------------------------------------

  /** Only an unexpired login key of a named user is good for deriving and revoking keys. */
  function Login(token: Text, now: int): Result<Text> {
    match Parse(token, now)
    case Err(e) => Err(e)
    case Ok(k) => if k.keyType != USER_KEY || k.secret == Plain("") then Err(UnauthorizedAccess) else Ok(k.secret)
  }

  function TempKey(duration: int, key: Key): Key
    requires key.issuedAt.At?
  {
    var k := key.(issuer := ISSUER_NAME, expiresAt := Add(key.issuedAt, duration));
    k.(secret := IssueToken(k))
  }

  /** The key issued and the repository afterwards; `id` comes from the identity provider. */
  function Issue(keys: Keys, issuer: Text, key: Key, id: string, now: int): (Result<Key>, Keys) {
    if key.issuedAt.Zero? then (Err(InvalidKeyIssuedAt), keys)
    else if key.keyType == API_KEY then
      match Login(issuer, now)
      case Err(e) => (Err(e), keys)
      case Ok(email) =>
        var k := key.(issuer := email, id := id);
        var k' := k.(secret := IssueToken(k));
        if id in keys then (Err(Conflict), keys) else (Ok(k'), keys[id := k'])
    else if key.keyType == RECOVERY_KEY then
      match Login(issuer, now)
      case Err(e) => (Err(e), keys)
      case Ok(email) => (Ok(TempKey(RESET_DURATION, key.(secret := email))), keys)
    else (Ok(TempKey(LOGIN_DURATION, key.(secret := issuer))), keys)
  }

  function Revoke(keys: Keys, issuer: Text, id: string, now: int): (Result<()>, Keys) {
    match Login(issuer, now)
    case Err(e) => (Err(e), keys)
    case Ok(email) => (Ok(()), Remove(keys, email, id))
  }

  /** The user a token stands for; an expired API key is revoked on the way. */
  function Identify(keys: Keys, token: Text, now: int): (Result<Text>, Keys) {
    match Parse(token, now)
    case Err(e) => (Err(e), keys)
    case Ok(c) =>
      if c.keyType == API_KEY then
        match Retrieve(keys, c.issuer, c.id)
        case Err(e) => (Err(e), keys)
        case Ok(k) => if Expired(k, now) then (Err(KeyExpired), Remove(keys, c.issuer, c.id)) else (Ok(c.issuer), keys)
      else if c.issuer != ISSUER_NAME then (Err(UnauthorizedAccess), keys)
      else (Ok(c.secret), keys)
  }
}
