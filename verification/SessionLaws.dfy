/** What each event means for the tokens of the people it concerns, and that it means nothing for anyone
    else's. Everything here is about what the validators answer, over whole runs where an effect lasts. */
module SessionLaws {
  import opened Common
  import opened Tokens
  import opened Sessions

  // ---------- Devices ----------

  /** The token is bound to a device of this user. */
  predicate BoundTo(devices: map<string, Device>, t: Token, userId: string) {
    t.Signed? && t.claims.did in devices && devices[t.claims.did].userId == userId
  }

  /** A role change moves the cut-off of each of the user's devices to now, and touches no other row. */
  lemma InvalidationRows(cfg: Config, w: World, userId: string, did: string)
    ensures var rows := Happen(cfg, w, InvalidateUser(userId)).db.devices;
            && (did in rows <==> did in w.db.devices)
            && (did in rows && rows[did].userId == userId ==>
                 rows[did] == Device(userId, w.db.devices[did].active, w.db.now))
            && (did in rows && w.db.devices[did].userId != userId ==> rows[did] == w.db.devices[did])
  {
  }

  /** At once: the user's tokens from before now are refused, and every other answer stays what it was. */
  lemma InvalidationExactly(cfg: Config, w: World, userId: string, t: Token)
    requires Good(cfg, w)
    ensures var answer := ValidateAccess(cfg, Happen(cfg, w, InvalidateUser(userId)).db, t);
            if BoundTo(w.db.devices, t, userId) && t.claims.iat < w.db.now then answer.Err?
            else answer == ValidateAccess(cfg, w.db, t)
  {
    if t.Signed? { InvalidationRows(cfg, w, userId, t.claims.did); }
  }

  /** Rows stay, with their user; a disabled one stays disabled, and no cut-off falls. */
  ghost predicate RowLasts(devices: map<string, Device>, later: map<string, Device>, did: string) {
    did in devices ==>
      && did in later && later[did].userId == devices[did].userId
      && (later[did].active ==> devices[did].active)
      && later[did].tokensInvalidatedAfter >= devices[did].tokensInvalidatedAfter
  }

  lemma RowLastsStep(cfg: Config, w: World, e: Event, did: string)
    requires Good(cfg, w) && Possible(cfg, w, e)
    ensures RowLasts(w.db.devices, Happen(cfg, w, e).db.devices, did)
  {
  }

  lemma {:induction false} RowLastsRun(cfg: Config, w: World, events: seq<Event>, did: string)
    requires Good(cfg, w) && IsRun(cfg, w, events)
    ensures RowLasts(w.db.devices, After(cfg, w, events).db.devices, did)
    decreases |events|
  {
    if events != [] {
      RowLastsStep(cfg, w, events[0], did);
      GoodStep(cfg, w, events[0]);
      RowLastsRun(cfg, Happen(cfg, w, events[0]), events[1..], did);
    }
  }

  /** A role change holds: whatever happens after it, every token bound to a device of that user and
      issued before it is refused. */
  lemma InvalidationHolds(cfg: Config, w: World, userId: string, later: seq<Event>, t: Token)
    requires Good(cfg, w) && IsRun(cfg, Happen(cfg, w, InvalidateUser(userId)), later)
    requires BoundTo(w.db.devices, t, userId) && t.claims.iat < w.db.now
    ensures ValidateAccess(cfg, After(cfg, Happen(cfg, w, InvalidateUser(userId)), later).db, t).Err?
  {
    var w' := Happen(cfg, w, InvalidateUser(userId));
    GoodStep(cfg, w, InvalidateUser(userId));
    InvalidationRows(cfg, w, userId, t.claims.did);
    RowLastsRun(cfg, w', later, t.claims.did);
  }

  /** Disabling a device refuses every access token bound to it, for good, and changes no answer about a
      token that is not. */
  lemma DisableHolds(cfg: Config, w: World, did: string, later: seq<Event>, t: Token)
    requires Good(cfg, w) && IsRun(cfg, Happen(cfg, w, Disable(did)), later)
    requires t.Signed? && did in w.db.devices
    ensures t.claims.did == did ==> ValidateAccess(cfg, After(cfg, Happen(cfg, w, Disable(did)), later).db, t).Err?
    ensures t.claims.did != did ==> ValidateAccess(cfg, Happen(cfg, w, Disable(did)).db, t) == ValidateAccess(cfg, w.db, t)
  {
    GoodStep(cfg, w, Disable(did));
    RowLastsRun(cfg, Happen(cfg, w, Disable(did)), later, did);
  }

  /** Enrolling a device changes no answer, for tokens issued at or after the epoch. */
  lemma EnrollChangesNothing(cfg: Config, w: World, did: string, userId: string, t: Token)
    requires Possible(cfg, w, Enroll(did, userId)) && (t.Signed? ==> t.claims.iat >= 0)
    ensures ValidateAccess(cfg, Happen(cfg, w, Enroll(did, userId)).db, t) == ValidateAccess(cfg, w.db, t)
    ensures var rows := Happen(cfg, w, Enroll(did, userId)).db.devices;
            did in rows && rows[did].userId == userId && forall d :: d in w.db.devices ==> d in rows && rows[d] == w.db.devices[d]
  {
  }

  // ---------- Signing in ----------

  /** The events neither log this token out nor end what its device allows. */
  predicate Undisturbed(w: World, t: Token, userId: string, events: seq<Event>) {
    forall i :: 0 <= i < |events| ==>
      && !(events[i].Logout? && events[i].token == t)
      && !(events[i].Slide? && events[i].token == t)
      && (t.Signed? ==> !(events[i].Disable? && events[i].did == t.claims.did))
      && !(events[i].InvalidateUser? && events[i].userId == userId)
  }

  /** The device has no row, or an active one of this user that has not cut the token off. */
  ghost predicate Working(db: Db, t: Token, userId: string) {
    t.Signed? && (t.claims.did in db.devices ==>
      && db.devices[t.claims.did].userId == userId && db.devices[t.claims.did].active
      && db.devices[t.claims.did].tokensInvalidatedAfter <= t.claims.iat)
  }

  ghost predicate Standing(cfg: Config, w: World, t: Token, userId: string) {
    t in w.minted && t.Signed? && t.claims.jti !in w.revoked && Working(w.db, t, userId)
  }

  lemma StandingStep(cfg: Config, w: World, e: Event, t: Token, userId: string)
    requires Good(cfg, w) && Possible(cfg, w, e) && Standing(cfg, w, t, userId) && t.claims.iat >= 0
    requires Undisturbed(w, t, userId, [e])
    requires e.Enroll? && e.did == t.claims.did ==> e.userId == userId
    ensures Standing(cfg, Happen(cfg, w, e), t, userId)
  {
    assert [e][0] == e;
  }

  predicate EnrolledFor(t: Token, userId: string, events: seq<Event>) {
    forall i :: 0 <= i < |events| && events[i].Enroll? && t.Signed? && events[i].did == t.claims.did ==>
      events[i].userId == userId
  }

  lemma {:induction false} StandingRun(cfg: Config, w: World, events: seq<Event>, t: Token, userId: string)
    requires Good(cfg, w) && IsRun(cfg, w, events) && Standing(cfg, w, t, userId) && t.claims.iat >= 0
    requires Undisturbed(w, t, userId, events) && EnrolledFor(t, userId, events)
    ensures Standing(cfg, After(cfg, w, events), t, userId)
    decreases |events|
  {
    if events != [] {
      assert Undisturbed(w, t, userId, [events[0]]);
      assert EnrolledFor(t, userId, events[1..]);
      StandingStep(cfg, w, events[0], t, userId);
      GoodStep(cfg, w, events[0]);
      StandingRun(cfg, Happen(cfg, w, events[0]), events[1..], t, userId);
    }
  }

  /** A sign-in lasts an hour: the token minted now for a user's working device, or for none, is accepted
      as that user's and that device's up to 3600 s and the leeway from now, and no longer, whatever else
      happens, as long as nobody logs it out, disables the device or changes the user's role. */
  lemma SignInLasts(cfg: Config, w: World, userId: string, did: string, jti: string, t: Token, later: seq<Event>)
    requires Good(cfg, w) && FreshJti(w, jti) && IsRun(cfg, Happen(cfg, w, Access(userId, did, jti)), later)
    requires t in Happen(cfg, w, Access(userId, did, jti)).minted && t !in w.minted
    requires did in w.db.devices ==> w.db.devices[did].active && w.db.devices[did].userId == userId
    requires Undisturbed(w, t, userId, later) && EnrolledFor(t, userId, later)
    ensures var db := After(cfg, Happen(cfg, w, Access(userId, did, jti)), later).db;
            if db.now <= w.db.now + 3600 + cfg.leeway
            then ValidateAccess(cfg, db, t) == Ok(Identity(userId, jti, w.db.now + 3600, did))
            else ValidateAccess(cfg, db, t).Err?
  {
    var w' := Happen(cfg, w, Access(userId, did, jti));
    GoodStep(cfg, w, Access(userId, did, jti));
    assert jti !in w.revoked;
    StandingRun(cfg, w', later, t, userId);
    GoodAfter(cfg, w', later);
    AcceptsIfLive(cfg, After(cfg, w', later), t);
  }

  lemma GoodAfter(cfg: Config, w: World, events: seq<Event>)
    requires Good(cfg, w) && IsRun(cfg, w, events)
    ensures Good(cfg, After(cfg, w, events))
  {
    GoodRun(cfg, w, events);
  }

  // ---------- Logging out and collecting ----------

  lemma RevokedStays(cfg: Config, w: World, e: Event)
    ensures w.revoked <= Happen(cfg, w, e).revoked && w.minted <= Happen(cfg, w, e).minted
  {
  }

  lemma {:induction false} RevokedStaysRun(cfg: Config, w: World, events: seq<Event>)
    ensures w.revoked <= After(cfg, w, events).revoked && w.minted <= After(cfg, w, events).minted
    decreases |events|
  {
    if events != [] {
      RevokedStays(cfg, w, events[0]);
      RevokedStaysRun(cfg, Happen(cfg, w, events[0]), events[1..]);
    }
  }

  /** A logout that went through holds until the token's own expiry, for either kind of token, whatever
      happens after it, collection included. */
  lemma LogoutHolds(cfg: Config, w: World, t: Token, later: seq<Event>)
    requires Good(cfg, w) && t in w.minted && t.Signed? && IsRun(cfg, Happen(cfg, w, Logout(t, true)), later)
    ensures var db := After(cfg, Happen(cfg, w, Logout(t, true)), later).db;
            db.now < t.claims.exp ==> ValidateAccess(cfg, db, t).Err? && ValidateRefresh(cfg, db, t).Err?
  {
    var w' := Happen(cfg, w, Logout(t, true));
    assert t.claims.jti in w'.revoked by { assert WellMinted(cfg, t); }
    GoodStep(cfg, w, Logout(t, true));
    GoodAfter(cfg, w', later);
    RevokedStaysRun(cfg, w', later);
    AcceptsIfLive(cfg, After(cfg, w', later), t);
  }

  /** It changes no answer about any other token; and one that did not go through changes none at all. */
  lemma LogoutTouchesNoOther(cfg: Config, w: World, t: Token, writes: bool, u: Token)
    requires Good(cfg, w) && t in w.minted && u in w.minted && (u != t || !writes)
    ensures var db := Happen(cfg, w, Logout(t, writes)).db;
            && ValidateAccess(cfg, db, u) == ValidateAccess(cfg, w.db, u)
            && ValidateRefresh(cfg, db, u) == ValidateRefresh(cfg, w.db, u)
  {
    var db := Happen(cfg, w, Logout(t, writes)).db;
    assert WellMinted(cfg, t) && WellMinted(cfg, u);
    if writes { assert u.claims.jti != t.claims.jti; }
    assert IsRevoked(db, u.claims.jti) == IsRevoked(w.db, u.claims.jti);
  }

  /** Collection changes no answer at all, and leaves exactly the rows that have not expired. */
  lemma CollectionExactly(cfg: Config, w: World, t: Token, jti: string)
    ensures var db := Happen(cfg, w, Gc).db;
            && ValidateAccess(cfg, db, t) == ValidateAccess(cfg, w.db, t)
            && ValidateRefresh(cfg, db, t) == ValidateRefresh(cfg, w.db, t)
            && (jti in db.revocations <==> jti in w.db.revocations && w.db.now < w.db.revocations[jti])
            && (jti in db.revocations ==> db.revocations[jti] == w.db.revocations[jti])
  {
  }

  /** Every refusal of either validator is `Unauthorized`. */
  lemma RefusalsAreUnauthorized(cfg: Config, db: Db, t: Token)
    ensures ValidateAccess(cfg, db, t).Err? ==> ValidateAccess(cfg, db, t).error.Unauthorized?
    ensures ValidateRefresh(cfg, db, t).Err? ==> ValidateRefresh(cfg, db, t).error.Unauthorized?
  {
  }
}
