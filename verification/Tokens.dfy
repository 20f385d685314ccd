/** Access and refresh tokens, their revocation table, per-device cut-offs and sliding refresh. A
    token is a signed value: only the holder of `secret` can build `Signed(secret, _)`. Times are the
    integer seconds of the wall clock; `leeway` is the JWT library's expiry tolerance. */
module Tokens {
  import opened Common

  const ACCESS_TOKEN_EXPIRY_SECS: int := 3600
  const REFRESH_TOKEN_EXPIRY_SECS: int := 24 * 3600

  /** `tokenType` is present only in refresh claims. */
  datatype Claims = Claims(
    sub: string, iat: int, exp: int, tokenType: Option<string>, jti: string, aud: string, iss: string, did: string)

  datatype Token = Signed(secret: string, claims: Claims) | Malformed(text: string)

  datatype Config = Config(secret: string, nodeName: string, leeway: nat)

  datatype Device = Device(userId: string, active: bool, tokensInvalidatedAfter: int)

  datatype Db = Db(now: int, revocations: map<string, int>, devices: map<string, Device>)

  // ---------- The JWT library and the tables ----------

  /** `decode`: signature, then expiry with leeway, then audience and issuer when pinned. */
  function Decode(cfg: Config, now: int, token: Token, validateExp: bool, pinNode: bool): Option<Claims> {
    if token.Malformed? || token.secret != cfg.secret then None
    else if validateExp && token.claims.exp < now - cfg.leeway then None
    else if pinNode && (token.claims.aud != cfg.nodeName || token.claims.iss != cfg.nodeName) then None
    else Some(token.claims)
  }

  /** `decode::<RefreshClaims>` also needs a `token_type`. */
  function DecodeRefresh(cfg: Config, now: int, token: Token, validateExp: bool, pinNode: bool): Option<Claims> {
    var data := Decode(cfg, now, token, validateExp, pinNode);
    if data.Some? && data.value.tokenType.None? then None else data
  }

  predicate IsRevoked(db: Db, jti: string) {
    jti in db.revocations && db.revocations[jti] > db.now
  }

  function RevokeJti(db: Db, jti: string, expiresAt: int): Db {
    db.(revocations := db.revocations[jti := expiresAt])
  }

  /** `gc_revoked_jtis`. */
  function Collected(db: Db): Db {
    db.(revocations := map jti | jti in db.revocations && db.revocations[jti] > db.now :: db.revocations[jti])
  }

  // ---------- The service ----------

  datatype Identity = Identity(sub: string, jti: string, exp: int, did: string)

  function RejectIfRefresh(cfg: Config, db: Db, token: Token): Option<Error> {
    var data := DecodeRefresh(cfg, db.now, token, false, false);
    if data.Some? && data.value.tokenType == Some("refresh")
    then Some(Unauthorized("refresh token cannot be used as access token")) else None
  }

  function AssertNotRevoked(db: Db, jti: string): Option<Error> {
    if jti != "" && IsRevoked(db, jti) then Some(Unauthorized("token revoked")) else None
  }

  function AssertDevice(db: Db, did: string, iat: int): Option<Error> {
    if did == "" || did !in db.devices then None
    else if !db.devices[did].active then Some(Unauthorized("device revoked"))
    else if iat < db.devices[did].tokensInvalidatedAfter then Some(Unauthorized("token superseded"))
    else None
  }

  function ValidateAccess(cfg: Config, db: Db, token: Token): Result<Identity> {
    var data := Decode(cfg, db.now, token, true, cfg.nodeName != "");
    if data.None? then Err(Unauthorized("invalid token"))
    else
      var c := data.value;
      var e1, e2, e3 := RejectIfRefresh(cfg, db, token), AssertNotRevoked(db, c.jti), AssertDevice(db, c.did, c.iat);
      if e1.Some? then Err(e1.value)
      else if e2.Some? then Err(e2.value)
      else if e3.Some? then Err(e3.value)
      else Ok(Identity(c.sub, c.jti, c.exp, c.did))
  }

  function ValidateRefresh(cfg: Config, db: Db, token: Token): Result<Claims> {
    var data := DecodeRefresh(cfg, db.now, token, true, cfg.nodeName != "");
    if data.None? then Err(Unauthorized("invalid refresh token"))
    else if data.value.tokenType != Some("refresh") then Err(Unauthorized("token is not a refresh token"))
    else
      var e := AssertNotRevoked(db, data.value.jti);
      if e.Some? then Err(e.value) else Ok(data.value)
  }

  function MintAccess(cfg: Config, now: int, sub: string, did: string, jti: string): Token {
    Signed(cfg.secret, Claims(sub, now, now + ACCESS_TOKEN_EXPIRY_SECS, None, jti, cfg.nodeName, cfg.nodeName, did))
  }

  function MintRefresh(cfg: Config, now: int, sub: string, did: string, jti: string): Token {
    Signed(cfg.secret,
           Claims(sub, now, now + REFRESH_TOKEN_EXPIRY_SECS, Some("refresh"), jti, cfg.nodeName, cfg.nodeName, did))
  }

  /** `revoke_token`, for either kind; `writes` says whether the table write goes through. */
  function Revoke(cfg: Config, db: Db, token: Token, writes: bool): Result<Db> {
    var data := Decode(cfg, db.now, token, false, false);
    if data.None? then Err(Unauthorized("invalid token"))
    else if data.value.jti == "" then Ok(db)
    else if !writes then Err(Internal("revoke"))
    else Ok(RevokeJti(db, data.value.jti, data.value.exp))
  }

  datatype Refreshed = Refreshed(access: Token, refresh: Token, rotated: bool, db: Db)

  predicate Rotates(claims: Claims, now: int) {
    claims.exp - now <= REFRESH_TOKEN_EXPIRY_SECS / 2
  }

  /** `refresh_with_sliding`; the revocation of the old token is best effort. */
  function RefreshWithSliding(cfg: Config, db: Db, token: Token, jtiA: string, jtiR: string, writes: bool)
    : Result<Refreshed>
  {
    var r := ValidateRefresh(cfg, db, token);
    if r.Err? then Err(r.error)
    else
      var c := r.value;
      var access := MintAccess(cfg, db.now, c.sub, c.did, jtiA);
      if Rotates(c, db.now) then
        Ok(Refreshed(access, MintRefresh(cfg, db.now, c.sub, c.did, jtiR), true,
                     if c.jti != "" && writes then RevokeJti(db, c.jti, c.exp) else db))
      else Ok(Refreshed(access, token, false, db))
  }

  // ---------- Runs ----------

  /** What can happen around the service. `Foreign` is a token minted by another node that shares the
      secret; `writes` says whether a revocation write goes through. */
  datatype Event =
    | Access(sub: string, did: string, jti: string)
    | Refresh(sub: string, did: string, jti: string)
    | Foreign(node: string, iat: nat, refresh: bool, sub: string, did: string, jti: string)
    | Logout(token: Token, writes: bool)
    | Slide(token: Token, jtiA: string, jtiR: string, writes: bool)
    | Enroll(did: string, userId: string)
    | Disable(did: string)
    | InvalidateUser(userId: string)
    | Gc
    | Tick(dt: nat)

  /** The database, every token ever signed with the secret, and every jti whose revocation was ever
      written. */
  datatype World = World(db: Db, minted: set<Token>, revoked: set<string>)

  const NewWorld := World(Db(0, map[], map[]), {}, {})

  predicate FreshJti(w: World, jti: string) {
    jti != "" && forall t :: t in w.minted && t.Signed? ==> t.claims.jti != jti
  }

  /** Nobody else can sign: a presented token under our secret was minted. */
  predicate Presentable(cfg: Config, w: World, token: Token) {
    token.Signed? && token.secret == cfg.secret ==> token in w.minted
  }

  predicate Possible(cfg: Config, w: World, e: Event) {
    match e
    case Access(_, _, jti) => FreshJti(w, jti)
    case Refresh(_, _, jti) => FreshJti(w, jti)
    case Foreign(_, _, _, _, _, jti) => FreshJti(w, jti)
    case Logout(token, _) => Presentable(cfg, w, token)
    case Slide(token, jtiA, jtiR, _) =>
      Presentable(cfg, w, token) && FreshJti(w, jtiA) && FreshJti(w, jtiR) && jtiA != jtiR
    case Enroll(did, _) => did != "" && did !in w.db.devices
    case _ => true
  }

  function ForeignToken(cfg: Config, node: string, iat: nat, refresh: bool, sub: string, did: string, jti: string): Token {
    if refresh then MintRefresh(cfg.(nodeName := node), iat, sub, did, jti)
    else MintAccess(cfg.(nodeName := node), iat, sub, did, jti)
  }

  function Happen(cfg: Config, w: World, e: Event): World {
    match e
    case Access(sub, did, jti) =>
      w.(minted := w.minted + {MintAccess(cfg, w.db.now, sub, did, jti)})
    case Refresh(sub, did, jti) =>
      w.(minted := w.minted + {MintRefresh(cfg, w.db.now, sub, did, jti)})
    case Foreign(node, iat, refresh, sub, did, jti) =>
      w.(minted := w.minted + {ForeignToken(cfg, node, iat, refresh, sub, did, jti)})
    case Logout(token, writes) =>
      var r := Revoke(cfg, w.db, token, writes);
      if r.Err? || token.claims.jti == "" then w
      else w.(db := r.value, revoked := w.revoked + {token.claims.jti})
    case Slide(token, jtiA, jtiR, writes) =>
      var r := RefreshWithSliding(cfg, w.db, token, jtiA, jtiR, writes);
      if r.Err? then w
      else World(r.value.db, w.minted + {r.value.access, r.value.refresh},
                 if r.value.rotated && writes && token.claims.jti != "" then w.revoked + {token.claims.jti} else w.revoked)
    case Enroll(did, userId) =>
      w.(db := w.db.(devices := w.db.devices[did := Device(userId, true, 0)]))
    case Disable(did) =>
      if did in w.db.devices
      then w.(db := w.db.(devices := w.db.devices[did := w.db.devices[did].(active := false)])) else w
    case InvalidateUser(userId) => w.(db := w.db.(devices := Invalidated(w.db, userId)))
    case Gc => w.(db := Collected(w.db))
    case Tick(dt) => w.(db := w.db.(now := w.db.now + dt))
  }

  /** `invalidate_user_tokens_now`. */
  function Invalidated(db: Db, userId: string): map<string, Device> {
    map did | did in db.devices ::
      if db.devices[did].userId == userId then db.devices[did].(tokensInvalidatedAfter := db.now) else db.devices[did]
  }

  predicate IsRun(cfg: Config, w: World, events: seq<Event>)
    decreases |events|
  {
    events == [] || (Possible(cfg, w, events[0]) && IsRun(cfg, Happen(cfg, w, events[0]), events[1..]))
  }

  function After(cfg: Config, w: World, events: seq<Event>): World
    decreases |events|
  {
    if events == [] then w else After(cfg, Happen(cfg, w, events[0]), events[1..])
  }
}
