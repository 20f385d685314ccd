/** `AuthService` with its maps and tables as fields. Each method is the source's sequence of lookups,
    early returns and writes, proved to take the step the run theorems are about. The history those
    theorems speak of, every token minted and every jti revoked, is kept in ghost fields. */
module AuthService {
  import opened Common
  import Challenges
  import Tickets
  import Tokens

  class AuthService {
    const crypto: Challenges.Crypto
    const cfg: Tokens.Config
    var now: Challenges.Instant                       // monotonic clock
    var challenges: map<string, Challenges.Challenge>
    var wsTickets: map<string, Tickets.Ticket>
    var db: Tokens.Db
    ghost var minted: set<Tokens.Token>
    ghost var revoked: set<string>

    constructor (crypto: Challenges.Crypto, cfg: Tokens.Config)
      ensures this.crypto == crypto && this.cfg == cfg
      ensures ChallengeStore() == Challenges.Empty && wsTickets == map[] && World() == Tokens.NewWorld
    {
      this.crypto, this.cfg := crypto, cfg;
      now, challenges, wsTickets := 0, map[], map[];
      db, minted, revoked := Tokens.NewWorld.db, {}, {};
    }

    ghost function World(): Tokens.World
      reads this
    {
      Tokens.World(db, minted, revoked)
    }

    ghost function ChallengeStore(): Challenges.Store
      reads this
    {
      Challenges.Store(now, challenges)
    }

    ghost function TicketStore(): Tickets.TicketStore
      reads this
    {
      Tickets.TicketStore(now, wsTickets)
    }

    // ---------- The clocks ----------

    /** The monotonic clock moves on by `dt` nanoseconds. */
    method MonotonicClockTicks(dt: nat)
      modifies this`now
      ensures ChallengeStore() == Challenges.Next(old(ChallengeStore()), Challenges.Tick(dt))
      ensures TicketStore() == Tickets.Step(old(TicketStore()), Tickets.Tick(dt))
    {
      now := now + dt;
    }

    /** The wall clock moves on by `dt` seconds. */
    method WallClockTicks(dt: nat)
      modifies this`db
      ensures World() == Tokens.Happen(cfg, old(World()), Tokens.Tick(dt))
    {
      db := db.(now := db.now + dt);
    }

    // ---------- Challenges ----------

    /** `id` and `nonce` are the random bytes drawn for this challenge. */
    method GenerateChallenge(id: string, nonce: Bytes)
      modifies this`challenges
      ensures ChallengeStore() == Challenges.Next(old(ChallengeStore()), Challenges.Issue(id, nonce, None))
    {
      challenges := challenges[id := Challenges.Challenge(nonce, now, None)];
    }

    method GenerateChallengeWithBinding(userId: Bytes, targetPk: Bytes, id: string, nonce: Bytes)
      returns (r: Result<()>)
      modifies this`challenges
      ensures |targetPk| != 32 ==> r.Err? && r.error.BadRequest? && unchanged(this)
      ensures var op := Challenges.Issue(id, nonce, Some(Challenges.Binding(userId, targetPk)));
              |targetPk| == 32 ==> r == Ok(()) && ChallengeStore() == Challenges.Next(old(ChallengeStore()), op)
    {
      if |targetPk| != 32 {
        return Err(BadRequest("target_pk must be 32 bytes"));
      }
      challenges := challenges[id := Challenges.Challenge(nonce, now, Some(Challenges.Binding(userId, targetPk)))];
      return Ok(());
    }

    method CheckKeyAndSignature(key: Bytes, message: Bytes, signature: Bytes) returns (r: Result<bool>)
      ensures r == Challenges.CheckSignature(crypto, key, message, signature)
    {
      if |key| != 32 {
        return Err(BadRequest("invalid public key length"));
      }
      if !crypto.validKey(key) {
        return Err(BadRequest("invalid public key"));
      }
      if |signature| != 64 {
        return Err(BadRequest("invalid signature length"));
      }
      return Ok(crypto.verify(key, message, signature));
    }

    method VerifyChallenge(id: string, key: Bytes, signature: Bytes) returns (r: Result<bool>)
      modifies this`challenges
      ensures var op := Challenges.Bare(id, key, signature);
              r == Challenges.Verdict(crypto, old(ChallengeStore()), op)
              && ChallengeStore() == Challenges.Next(old(ChallengeStore()), op)
    {
      if id !in challenges {
        assert challenges - {id} == challenges;
        return Challenges.NotFound;
      }
      var challenge := challenges[id];
      challenges := challenges - {id};
      if Challenges.Age(now, challenge.createdAt) > Challenges.CHALLENGE_LIFE {
        return Err(Unauthorized("challenge expired"));
      }
      if challenge.binding.Some? {
        return Err(Unauthorized("challenge was issued bound"));
      }
      r := CheckKeyAndSignature(key, challenge.nonce, signature);
    }

    method VerifyChallengeBound(id: string, userId: Bytes, newPk: Bytes, authorizer: Bytes, signature: Bytes)
      returns (r: Result<bool>)
      modifies this`challenges
      ensures var op := Challenges.Bound(id, userId, newPk, authorizer, signature);
              r == Challenges.Verdict(crypto, old(ChallengeStore()), op)
              && ChallengeStore() == Challenges.Next(old(ChallengeStore()), op)
    {
      if id !in challenges {
        assert challenges - {id} == challenges;
        return Challenges.NotFound;
      }
      var challenge := challenges[id];
      challenges := challenges - {id};
      if Challenges.Age(now, challenge.createdAt) > Challenges.CHALLENGE_LIFE {
        return Err(Unauthorized("challenge expired"));
      }
      if challenge.binding.None? {
        return Err(Unauthorized("challenge was not issued with binding"));
      }
      var binding := challenge.binding.value;
      if |newPk| != 32 {
        return Err(BadRequest("new public key must be 32 bytes"));
      }
      if binding.userId != userId {
        return Err(Unauthorized("challenge bound to a different user"));
      }
      if binding.targetPk != newPk {
        return Err(Unauthorized("challenge bound to a different key"));
      }
      if |authorizer| != 32 {
        return Err(BadRequest("invalid public key length"));
      }
      if !crypto.validKey(authorizer) {
        return Err(BadRequest("invalid public key"));
      }
      if |signature| != 64 {
        return Err(BadRequest("invalid signature length"));
      }
      if |challenge.nonce| != 32 {
        return Err(Internal("stored nonce was not 32 bytes"));
      }
      var digest := Challenges.EnrollmentSigningDigest(crypto, userId, newPk, challenge.nonce);
      r := Ok(crypto.verify(authorizer, digest, signature));
    }

    /** One pass of the background task. */
    method CleanupChallenges()
      modifies this`challenges
      ensures ChallengeStore() == Challenges.Next(old(ChallengeStore()), Challenges.Sweep)
    {
      challenges := map id | id in challenges
                        && Challenges.Age(now, challenges[id].createdAt) < Challenges.CHALLENGE_SWEEP :: challenges[id];
    }

    // ---------- WebSocket tickets ----------

    method GenerateWsTicket(userId: Bytes, id: string)
      modifies this`wsTickets
      ensures TicketStore() == Tickets.Step(old(TicketStore()), Tickets.Issue(id, userId))
    {
      wsTickets := wsTickets[id := Tickets.Ticket(userId, now)];
    }

    method ValidateWsTicket(id: string) returns (r: Result<Bytes>)
      modifies this`wsTickets
      ensures r == Tickets.Answer(old(TicketStore()), id)
      ensures TicketStore() == Tickets.Step(old(TicketStore()), Tickets.Validate(id))
    {
      if id !in wsTickets {
        assert wsTickets - {id} == wsTickets;
        return Err(Unauthorized("invalid or expired ws ticket"));
      }
      var ticket := wsTickets[id];
      wsTickets := wsTickets - {id};
      if Challenges.Age(now, ticket.createdAt) > Tickets.TICKET_LIFE {
        return Err(Unauthorized("ws ticket expired"));
      }
      return Ok(ticket.userId);
    }

    /** Returns how many tickets it dropped: those at least 30 s old. */
    method CleanupExpiredWsTickets() returns (dropped: nat)
      modifies this`wsTickets
      ensures TicketStore() == Tickets.Step(old(TicketStore()), Tickets.Sweep)
      ensures dropped == |set id | id in old(wsTickets) && !Tickets.IsValid(old(TicketStore()), id)|
    {
      var before := |wsTickets|;
      ghost var gone := set id | id in wsTickets && !Tickets.IsValid(TicketStore(), id);
      wsTickets := map id | id in wsTickets
                       && Challenges.Age(now, wsTickets[id].createdAt) < Tickets.TICKET_LIFE :: wsTickets[id];
      assert old(wsTickets).Keys == wsTickets.Keys + gone && wsTickets.Keys !! gone;
      dropped := before - |wsTickets|;
    }

    // ---------- Tokens ----------

    /** `jti` is the random id drawn for this token. */
    method GenerateJwtForDevice(userId: string, deviceId: string, jti: string) returns (token: Tokens.Token)
      modifies this`minted
      ensures token == Tokens.MintAccess(cfg, db.now, userId, deviceId, jti)
      ensures World() == Tokens.Happen(cfg, old(World()), Tokens.Access(userId, deviceId, jti))
    {
      var claims := Tokens.Claims(userId, db.now, db.now + Tokens.ACCESS_TOKEN_EXPIRY_SECS, None, jti,
                                  cfg.nodeName, cfg.nodeName, deviceId);
      token := Tokens.Signed(cfg.secret, claims);
      minted := minted + {token};
    }

    method GenerateRefreshTokenForDevice(userId: string, deviceId: string, jti: string) returns (token: Tokens.Token)
      modifies this`minted
      ensures token == Tokens.MintRefresh(cfg, db.now, userId, deviceId, jti)
      ensures World() == Tokens.Happen(cfg, old(World()), Tokens.Refresh(userId, deviceId, jti))
    {
      var claims := Tokens.Claims(userId, db.now, db.now + Tokens.REFRESH_TOKEN_EXPIRY_SECS, Some("refresh"), jti,
                                  cfg.nodeName, cfg.nodeName, deviceId);
      token := Tokens.Signed(cfg.secret, claims);
      minted := minted + {token};
    }

    method ValidateJwtFull(token: Tokens.Token) returns (r: Result<Tokens.Identity>)
      ensures r == Tokens.ValidateAccess(cfg, db, token)
    {
      var data := Tokens.Decode(cfg, db.now, token, true, cfg.nodeName != "");
      if data.None? {
        return Err(Unauthorized("invalid token"));
      }
      var asRefresh := Tokens.DecodeRefresh(cfg, db.now, token, false, false);
      if asRefresh.Some? && asRefresh.value.tokenType == Some("refresh") {
        return Err(Unauthorized("refresh token cannot be used as access token"));
      }
      var c := data.value;
      if c.jti != "" && Tokens.IsRevoked(db, c.jti) {
        return Err(Unauthorized("token revoked"));
      }
      if c.did != "" && c.did in db.devices {
        var device := db.devices[c.did];
        if !device.active {
          return Err(Unauthorized("device revoked"));
        }
        if c.iat < device.tokensInvalidatedAfter {
          return Err(Unauthorized("token superseded"));
        }
      }
      return Ok(Tokens.Identity(c.sub, c.jti, c.exp, c.did));
    }

    method ValidateRefreshTokenFull(token: Tokens.Token) returns (r: Result<Tokens.Claims>)
      ensures r == Tokens.ValidateRefresh(cfg, db, token)
    {
      var data := Tokens.DecodeRefresh(cfg, db.now, token, true, cfg.nodeName != "");
      if data.None? {
        return Err(Unauthorized("invalid refresh token"));
      }
      if data.value.tokenType != Some("refresh") {
        return Err(Unauthorized("token is not a refresh token"));
      }
      if data.value.jti != "" && Tokens.IsRevoked(db, data.value.jti) {
        return Err(Unauthorized("token revoked"));
      }
      return Ok(data.value);
    }

    /** `writes` says whether the database write goes through. */
    method RevokeToken(token: Tokens.Token, writes: bool) returns (r: Result<()>)
      modifies this`db, this`revoked
      ensures var step := Tokens.Revoke(cfg, old(db), token, writes);
              if step.Ok? then r == Ok(()) && db == step.value else r == Err(step.error) && unchanged(this)
      ensures World() == Tokens.Happen(cfg, old(World()), Tokens.Logout(token, writes))
    {
      var data := Tokens.Decode(cfg, db.now, token, false, false);
      if data.None? {
        return Err(Unauthorized("invalid token"));
      }
      if data.value.jti == "" {
        return Ok(());
      }
      if !writes {
        return Err(Internal("revoke"));
      }
      db := Tokens.RevokeJti(db, data.value.jti, data.value.exp);
      revoked := revoked + {data.value.jti};
      return Ok(());
    }

    method RefreshWithSliding(token: Tokens.Token, jtiA: string, jtiR: string, writes: bool)
      returns (r: Result<(Tokens.Token, Tokens.Token, bool)>)
      modifies this`db, this`minted, this`revoked
      ensures var step := Tokens.RefreshWithSliding(cfg, old(db), token, jtiA, jtiR, writes);
              if step.Ok? then r == Ok((step.value.access, step.value.refresh, step.value.rotated)) else r == Err(step.error)
      ensures World() == Tokens.Happen(cfg, old(World()), Tokens.Slide(token, jtiA, jtiR, writes))
    {
      var v := ValidateRefreshTokenFull(token);
      if v.Err? {
        return Err(v.error);
      }
      var c := v.value;
      var access := GenerateJwtForDevice(c.sub, c.did, jtiA);
      var remaining := c.exp - db.now;
      if remaining <= Tokens.REFRESH_TOKEN_EXPIRY_SECS / 2 {
        var renewed := GenerateRefreshTokenForDevice(c.sub, c.did, jtiR);
        if c.jti != "" && writes {
          db := Tokens.RevokeJti(db, c.jti, c.exp);
          revoked := revoked + {c.jti};
        }
        return Ok((access, renewed, true));
      }
      minted := minted + {token};    // handed out again
      return Ok((access, token, false));
    }

    // ---------- The tables the service reads ----------

    method GcRevokedJtis()
      modifies this`db
      ensures World() == Tokens.Happen(cfg, old(World()), Tokens.Gc)
    {
      db := db.(revocations := map jti | jti in db.revocations && db.revocations[jti] > db.now :: db.revocations[jti]);
    }

    method CreateDevice(did: string, userId: string)
      modifies this`db
      ensures World() == Tokens.Happen(cfg, old(World()), Tokens.Enroll(did, userId))
    {
      db := db.(devices := db.devices[did := Tokens.Device(userId, true, 0)]);
    }

    method RevokeDevice(did: string)
      modifies this`db
      ensures World() == Tokens.Happen(cfg, old(World()), Tokens.Disable(did))
    {
      if did in db.devices {
        db := db.(devices := db.devices[did := db.devices[did].(active := false)]);
      }
    }

    /** The cut-off of every device of one user becomes now. */
    method InvalidateUserTokensNow(userId: string)
      modifies this`db
      ensures World() == Tokens.Happen(cfg, old(World()), Tokens.InvalidateUser(userId))
    {
      var devices := map did | did in db.devices && db.devices[did].userId == userId ::
        db.devices[did].(tokensInvalidatedAfter := db.now);
      db := db.(devices := db.devices + devices);
      assert db.devices == Tokens.Invalidated(old(db), userId);
    }
  }
}
