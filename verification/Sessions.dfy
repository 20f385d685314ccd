/** Which tokens the service accepts, over whole runs: the tables, garbage collection included, carry
    exactly the history that matters. */
module Sessions {
  import opened Common
  import opened Tokens

  ghost predicate WellMinted(cfg: Config, t: Token) {
    && t.Signed? && t.secret == cfg.secret && t.claims.jti != "" && t.claims.aud == t.claims.iss
    && t.claims.iat >= 0
    && ((t.claims.tokenType == None && t.claims.exp == t.claims.iat + ACCESS_TOKEN_EXPIRY_SECS)
        || (t.claims.tokenType == Some("refresh") && t.claims.exp == t.claims.iat + REFRESH_TOKEN_EXPIRY_SECS))
  }

  ghost predicate UniqueJtis(tokens: set<Token>) {
    forall t, u :: t in tokens && u in tokens && t.Signed? && u.Signed? && t.claims.jti == u.claims.jti ==> t == u
  }

  /** The table holds revocations that were written, under the token's own expiry, and still holds
      every one of them that has not reached that expiry. */
  ghost predicate TableIsHistory(w: World) {
    && (forall jti :: jti in w.db.revocations ==> jti in w.revoked)
    && (forall t :: t in w.minted && t.Signed? && t.claims.jti in w.db.revocations ==>
         w.db.revocations[t.claims.jti] == t.claims.exp)
    && (forall t :: t in w.minted && t.Signed? && t.claims.jti in w.revoked && w.db.now < t.claims.exp ==>
         t.claims.jti in w.db.revocations)
    && (forall jti :: jti in w.revoked ==> exists t :: t in w.minted && t.Signed? && t.claims.jti == jti)
  }

  ghost predicate Good(cfg: Config, w: World) {
    && w.db.now >= 0
    && (forall t :: t in w.minted ==> WellMinted(cfg, t))
    && UniqueJtis(w.minted)
    && TableIsHistory(w)
    && (forall did :: did in w.db.devices ==> did != "" && w.db.devices[did].tokensInvalidatedAfter <= w.db.now)
  }

  lemma MintKeepsGood(cfg: Config, w: World, t: Token)
    requires Good(cfg, w) && WellMinted(cfg, t) && FreshJti(w, t.claims.jti)
    ensures Good(cfg, w.(minted := w.minted + {t}))
  {
    var w' := w.(minted := w.minted + {t});
    forall jti | jti in w'.revoked
      ensures exists u :: u in w'.minted && u.Signed? && u.claims.jti == jti
    {
      var u :| u in w.minted && u.Signed? && u.claims.jti == jti;
      assert u in w'.minted;
    }
    assert t.claims.jti !in w.revoked;
  }

  lemma RevokeKeepsGood(cfg: Config, w: World, t: Token)
    requires Good(cfg, w) && t in w.minted && t.Signed?
    ensures Good(cfg, w.(db := RevokeJti(w.db, t.claims.jti, t.claims.exp), revoked := w.revoked + {t.claims.jti}))
  {
  }

  lemma GoodStep(cfg: Config, w: World, e: Event)
    requires Good(cfg, w) && Possible(cfg, w, e)
    ensures Good(cfg, Happen(cfg, w, e))
  {
    match e
    case Access(sub, did, jti) => MintKeepsGood(cfg, w, MintAccess(cfg, w.db.now, sub, did, jti));
    case Refresh(sub, did, jti) => MintKeepsGood(cfg, w, MintRefresh(cfg, w.db.now, sub, did, jti));
    case Foreign(node, iat, refresh, sub, did, jti) =>
      MintKeepsGood(cfg, w, ForeignToken(cfg, node, iat, refresh, sub, did, jti));
    case Logout(token, writes) =>
      if Happen(cfg, w, e) != w { RevokeKeepsGood(cfg, w, token); }
    case Slide(token, jtiA, jtiR, writes) => SlideKeepsGood(cfg, w, token, jtiA, jtiR, writes);
    case _ =>
  }

  lemma SlideKeepsGood(cfg: Config, w: World, token: Token, jtiA: string, jtiR: string, writes: bool)
    requires Good(cfg, w) && Possible(cfg, w, Slide(token, jtiA, jtiR, writes))
    ensures Good(cfg, Happen(cfg, w, Slide(token, jtiA, jtiR, writes)))
  {
    var r := RefreshWithSliding(cfg, w.db, token, jtiA, jtiR, writes);
    if r.Ok? {
      var c := token.claims;
      var rotated, access := r.value.rotated, r.value.access;
      assert WellMinted(cfg, token);
      var w1 := if rotated && writes
                then w.(db := RevokeJti(w.db, c.jti, c.exp), revoked := w.revoked + {c.jti}) else w;
      assert Good(cfg, w1) by { RevokeKeepsGood(cfg, w, token); }
      var w2 := w1.(minted := w1.minted + {access});
      assert Good(cfg, w2) by { MintKeepsGood(cfg, w1, access); }
      if rotated {
        assert FreshJti(w2, jtiR);
        MintKeepsGood(cfg, w2, r.value.refresh);
        assert Happen(cfg, w, Slide(token, jtiA, jtiR, writes))
            == w2.(minted := w2.minted + {r.value.refresh}) by { Rearrange(w.minted, access, r.value.refresh); }
      } else {
        assert Happen(cfg, w, Slide(token, jtiA, jtiR, writes)) == w2 by { Rearrange(w.minted, access, token); }
      }
    }
  }

  lemma Rearrange(xs: set<Token>, a: Token, b: Token)
    ensures xs + {a, b} == xs + {a} + {b}
    ensures b in xs ==> xs + {a, b} == xs + {a}
  {
  }

  lemma {:induction false} GoodRun(cfg: Config, w: World, events: seq<Event>)
    requires Good(cfg, w) && IsRun(cfg, w, events)
    ensures Good(cfg, After(cfg, w, events))
    decreases |events|
  {
    if events != [] {
      GoodStep(cfg, w, events[0]);
      GoodRun(cfg, Happen(cfg, w, events[0]), events[1..]);
    }
  }

  // ---------- Acceptance, stated by history ----------

  predicate OfThisNode(cfg: Config, t: Token)
    requires t.Signed?
  {
    cfg.nodeName == "" || t.claims.aud == cfg.nodeName
  }

  /** Revoked at some time in the past, and its own expiry not yet reached. */
  predicate RevocationHolds(w: World, t: Token)
    requires t.Signed?
  {
    t.claims.jti in w.revoked && w.db.now < t.claims.exp
  }

  /** No row for the device, or an active one whose cut-off is not after the token was issued. */
  predicate DeviceAllows(devices: map<string, Device>, did: string, iat: int) {
    did in devices ==> devices[did].active && iat >= devices[did].tokensInvalidatedAfter
  }

  predicate LiveAccess(cfg: Config, w: World, t: Token) {
    && t in w.minted && t.Signed? && t.claims.tokenType == None && OfThisNode(cfg, t)
    && w.db.now <= t.claims.exp + cfg.leeway
    && !RevocationHolds(w, t)
    && DeviceAllows(w.db.devices, t.claims.did, t.claims.iat)
  }

  predicate LiveRefresh(cfg: Config, w: World, t: Token) {
    && t in w.minted && t.Signed? && t.claims.tokenType == Some("refresh") && OfThisNode(cfg, t)
    && w.db.now <= t.claims.exp + cfg.leeway
    && !RevocationHolds(w, t)
  }

  lemma AcceptsIfLive(cfg: Config, w: World, t: Token)
    requires Good(cfg, w) && Presentable(cfg, w, t)
    ensures ValidateAccess(cfg, w.db, t).Ok? <==> LiveAccess(cfg, w, t)
    ensures ValidateRefresh(cfg, w.db, t).Ok? <==> LiveRefresh(cfg, w, t)
  {
    if t.Signed? && t in w.minted {
      assert IsRevoked(w.db, t.claims.jti) <==> RevocationHolds(w, t);
    }
  }

  /** In every run, of everything that can be presented, `validate_jwt_full` accepts exactly the
      minted access tokens of this node that are unexpired up to the leeway, not revoked before their
      expiry, and allowed by their device; and it reports the token's own user, id and device. */
  lemma AccessAcceptedExactly(cfg: Config, events: seq<Event>, t: Token)
    requires IsRun(cfg, NewWorld, events) && Presentable(cfg, After(cfg, NewWorld, events), t)
    ensures var w := After(cfg, NewWorld, events);
            && (ValidateAccess(cfg, w.db, t).Ok? <==> LiveAccess(cfg, w, t))
            && (LiveAccess(cfg, w, t) ==>
                  ValidateAccess(cfg, w.db, t) == Ok(Identity(t.claims.sub, t.claims.jti, t.claims.exp, t.claims.did)))
  {
    GoodRun(cfg, NewWorld, events);
    AcceptsIfLive(cfg, After(cfg, NewWorld, events), t);
  }

  /** The same for refresh tokens, which have no device test; the claims returned are the token's own. */
  lemma RefreshAcceptedExactly(cfg: Config, events: seq<Event>, t: Token)
    requires IsRun(cfg, NewWorld, events) && Presentable(cfg, After(cfg, NewWorld, events), t)
    ensures var w := After(cfg, NewWorld, events);
            && (ValidateRefresh(cfg, w.db, t).Ok? <==> LiveRefresh(cfg, w, t))
            && (LiveRefresh(cfg, w, t) ==> ValidateRefresh(cfg, w.db, t) == Ok(t.claims))
  {
    GoodRun(cfg, NewWorld, events);
    AcceptsIfLive(cfg, After(cfg, NewWorld, events), t);
  }

  /** The two kinds never stand in for each other, whatever the tables say. */
  lemma KindsNeverMix(cfg: Config, db: Db, t: Token)
    ensures t.Signed? && t.claims.tokenType == Some("refresh") ==> ValidateAccess(cfg, db, t).Err?
    ensures t.Signed? && t.claims.tokenType == None ==> ValidateRefresh(cfg, db, t).Err?
  {
  }

  /** Revocation is final until expiry, and exactly until then: a revoked access token is accepted
      again when its device allows it and the clock stands in [exp, exp + leeway]. */
  lemma RevokedAcceptedExactly(cfg: Config, events: seq<Event>, t: Token)
    requires IsRun(cfg, NewWorld, events)
    requires var w := After(cfg, NewWorld, events);
             t in w.minted && t.Signed? && t.claims.tokenType == None && OfThisNode(cfg, t) && t.claims.jti in w.revoked
    ensures var w := After(cfg, NewWorld, events);
            ValidateAccess(cfg, w.db, t).Ok? <==>
              && t.claims.exp <= w.db.now <= t.claims.exp + cfg.leeway
              && DeviceAllows(w.db.devices, t.claims.did, t.claims.iat)
  {
    AccessAcceptedExactly(cfg, events, t);
  }

  /** The window is not empty: signed in, logged out at once, refused one second before expiry,
      accepted at expiry. */
  lemma RevokedAcceptedExample(cfg: Config)
    ensures var t := MintAccess(cfg, 0, "u", "", "j");
            var w1 := Happen(cfg, NewWorld, Access("u", "", "j"));
            var w2 := Happen(cfg, w1, Logout(t, true));
            var w3 := Happen(cfg, w2, Tick(3599));
            var w4 := Happen(cfg, w3, Tick(1));
            && Possible(cfg, NewWorld, Access("u", "", "j")) && Possible(cfg, w1, Logout(t, true))
            && ValidateAccess(cfg, w3.db, t).Err? && ValidateAccess(cfg, w4.db, t).Ok?
  {
  }
}
