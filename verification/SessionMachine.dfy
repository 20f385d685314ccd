/** The service as a session machine: who is signed in, who is logged out and who can refresh, with a
    clock and the devices, and nothing else. No revocation table, no token ids, no collection. The
    service with its tables is proved to follow it step by step over every run. */
module SessionMachine {
  import opened Common
  import opened Tokens
  import opened Sessions

  /** Sets of the tokens themselves. A logged-out access token and a retired refresh token are kept only
      while they have not expired. */
  datatype Machine = Machine(
    now: int,
    devices: map<string, Device>,
    open: set<Token>,
    loggedOut: set<Token>,
    refreshing: set<Token>,
    retired: set<Token>)

  const NewMachine := Machine(0, map[], {}, {}, {}, {})

  predicate Admits(devices: map<string, Device>, t: Token) {
    t.Signed? && DeviceAllows(devices, t.claims.did, t.claims.iat)
  }

  predicate InTime(cfg: Config, now: int, t: Token) {
    t.Signed? && now <= t.claims.exp + cfg.leeway
  }

  /** A session starts unless its device forbids it, and lasts while the clock allows it. */
  function SignIn(cfg: Config, m: Machine, t: Token): Machine {
    if Admits(m.devices, t) && InTime(cfg, m.now, t) then m.(open := m.open + {t}) else m
  }

  function Issue(cfg: Config, m: Machine, t: Token): Machine {
    if InTime(cfg, m.now, t) then m.(refreshing := m.refreshing + {t}) else m
  }

  /** An unexpired token is put aside; an expired one stays what it is. */
  function PutAside(m: Machine, t: Token): Machine {
    if !t.Signed? || m.now >= t.claims.exp then m
    else m.(open := m.open - {t}, loggedOut := if t in m.open then m.loggedOut + {t} else m.loggedOut,
            refreshing := m.refreshing - {t}, retired := if t in m.refreshing then m.retired + {t} else m.retired)
  }

  /** Sessions whose device no longer allows them end for good. */
  function WithDevices(m: Machine, devices: map<string, Device>): Machine {
    m.(devices := devices,
       open := (set t | t in m.open && Admits(devices, t)),
       loggedOut := (set t | t in m.loggedOut && Admits(devices, t)))
  }

  /** What was put aside is over at its expiry, where it becomes acceptable again for the leeway. */
  function At(cfg: Config, m: Machine, now: int): Machine {
    var back := set t | t in m.loggedOut && t.Signed? && t.claims.exp <= now;
    var again := set t | t in m.retired && t.Signed? && t.claims.exp <= now;
    m.(now := now,
       open := (set t | t in m.open + back && InTime(cfg, now, t)),
       loggedOut := m.loggedOut - back,
       refreshing := (set t | t in m.refreshing + again && InTime(cfg, now, t)),
       retired := m.retired - again)
  }

  function Refreshed(cfg: Config, m: Machine, t: Token, jtiA: string, jtiR: string, writes: bool): Machine
    requires t.Signed?
  {
    var c := t.claims;
    var signedIn := SignIn(cfg, m, MintAccess(cfg, m.now, c.sub, c.did, jtiA));
    if !Rotates(c, m.now) then signedIn
    else
      var issued := Issue(cfg, signedIn, MintRefresh(cfg, m.now, c.sub, c.did, jtiR));
      if writes then PutAside(issued, t) else issued
  }

  function Step(cfg: Config, m: Machine, e: Event): Machine {
    match e
    case Access(sub, did, jti) => SignIn(cfg, m, MintAccess(cfg, m.now, sub, did, jti))
    case Refresh(sub, did, jti) => Issue(cfg, m, MintRefresh(cfg, m.now, sub, did, jti))
    case Foreign(node, iat, refresh, sub, did, jti) =>
      var t := ForeignToken(cfg, node, iat, refresh, sub, did, jti);
      if !OfThisNode(cfg, t) then m else if refresh then Issue(cfg, m, t) else SignIn(cfg, m, t)
    case Logout(token, writes) => if writes then PutAside(m, token) else m
    case Slide(token, jtiA, jtiR, writes) =>
      if token.Signed? && token in m.refreshing then Refreshed(cfg, m, token, jtiA, jtiR, writes) else m
    case Enroll(did, userId) => WithDevices(m, m.devices[did := Device(userId, true, 0)])
    case Disable(did) =>
      if did in m.devices then WithDevices(m, m.devices[did := m.devices[did].(active := false)]) else m
    case InvalidateUser(userId) =>
      WithDevices(m, map did | did in m.devices ::
        var d := m.devices[did]; if d.userId == userId then Device(userId, d.active, m.now) else d)
    case Gc => m
    case Tick(dt) => At(cfg, m, m.now + dt)
  }

  function MachineAfter(cfg: Config, m: Machine, events: seq<Event>): Machine
    decreases |events|
  {
    if events == [] then m else MachineAfter(cfg, Step(cfg, m, events[0]), events[1..])
  }

  // ---------- Simulation ----------

  predicate LoggedOut(cfg: Config, w: World, t: Token) {
    && t in w.minted && t.Signed? && t.claims.tokenType == None && OfThisNode(cfg, t)
    && RevocationHolds(w, t) && DeviceAllows(w.db.devices, t.claims.did, t.claims.iat)
  }

  predicate PutOut(cfg: Config, w: World, t: Token) {
    && t in w.minted && t.Signed? && t.claims.tokenType == Some("refresh") && OfThisNode(cfg, t)
    && RevocationHolds(w, t)
  }

  ghost predicate Tracks(cfg: Config, w: World, m: Machine, t: Token) {
    && (t in m.open <==> LiveAccess(cfg, w, t))
    && (t in m.loggedOut <==> LoggedOut(cfg, w, t))
    && (t in m.refreshing <==> LiveRefresh(cfg, w, t))
    && (t in m.retired <==> PutOut(cfg, w, t))
  }

  ghost predicate Simulates(cfg: Config, w: World, m: Machine) {
    m.now == w.db.now && m.devices == w.db.devices && forall t :: Tracks(cfg, w, m, t)
  }

  /** A world that gained one token with a new id. */
  lemma MintTracks(cfg: Config, w: World, m: Machine, x: Token, m': Machine)
    requires Good(cfg, w) && Simulates(cfg, w, m) && WellMinted(cfg, x) && FreshJti(w, x.claims.jti)
    requires m' == if !OfThisNode(cfg, x) then m else if x.claims.tokenType == None then SignIn(cfg, m, x) else Issue(cfg, m, x)
    ensures Simulates(cfg, w.(minted := w.minted + {x}), m')
  {
    var w' := w.(minted := w.minted + {x});
    assert x !in w.minted && x.claims.jti !in w.revoked;
    forall t ensures Tracks(cfg, w', m', t) {
      assert Tracks(cfg, w, m, t);
      if t == x { NotMinted(cfg, w, m, x); }
    }
  }

  lemma NotMinted(cfg: Config, w: World, m: Machine, x: Token)
    requires Tracks(cfg, w, m, x) && x !in w.minted
    ensures x !in m.open && x !in m.loggedOut && x !in m.refreshing && x !in m.retired
  {
  }

  /** A world where one minted token's revocation was written. */
  lemma RevokeTracks(cfg: Config, w: World, m: Machine, x: Token, db: Db)
    requires Good(cfg, w) && Simulates(cfg, w, m) && x in w.minted && x.Signed?
    requires db.now == w.db.now && db.devices == w.db.devices
    ensures Simulates(cfg, w.(db := db, revoked := w.revoked + {x.claims.jti}), PutAside(m, x))
  {
    var w' := w.(db := db, revoked := w.revoked + {x.claims.jti});
    forall t ensures Tracks(cfg, w', PutAside(m, x), t) {
      assert Tracks(cfg, w, m, t) && Tracks(cfg, w, m, x);
      if t in w.minted && t.Signed? && t.claims.jti == x.claims.jti { assert t == x; }
    }
  }

  lemma DevicesTrack(cfg: Config, w: World, m: Machine, devices: map<string, Device>)
    requires Simulates(cfg, w, m)
    requires forall t :: t in w.minted && Admits(devices, t) ==> Admits(w.db.devices, t)
    ensures Simulates(cfg, w.(db := w.db.(devices := devices)), WithDevices(m, devices))
  {
    var w' := w.(db := w.db.(devices := devices));
    forall t ensures Tracks(cfg, w', WithDevices(m, devices), t) {
      assert Tracks(cfg, w, m, t);
    }
  }

  lemma ClockTracks(cfg: Config, w: World, m: Machine, dt: nat)
    requires Simulates(cfg, w, m)
    ensures Simulates(cfg, Happen(cfg, w, Tick(dt)), At(cfg, m, m.now + dt))
  {
    var w', m' := Happen(cfg, w, Tick(dt)), At(cfg, m, m.now + dt);
    forall t ensures Tracks(cfg, w', m', t) {
      assert Tracks(cfg, w, m, t);
    }
  }

  /** The rotation of `token`, after the access token was minted. */
  lemma RotationTracks(cfg: Config, w: World, m: Machine, token: Token, refresh: Token, writes: bool)
    requires Good(cfg, w) && Simulates(cfg, w, m) && token in w.minted && token.Signed?
    requires WellMinted(cfg, refresh) && FreshJti(w, refresh.claims.jti) && OfThisNode(cfg, refresh)
    requires refresh.claims.tokenType == Some("refresh")
    ensures var w1, m1 := w.(minted := w.minted + {refresh}), Issue(cfg, m, refresh);
            if writes then
              Simulates(cfg, w1.(db := RevokeJti(w.db, token.claims.jti, token.claims.exp), revoked := w.revoked + {token.claims.jti}),
                        PutAside(m1, token))
            else Simulates(cfg, w1, m1)
  {
    var w1, m1 := w.(minted := w.minted + {refresh}), Issue(cfg, m, refresh);
    MintTracks(cfg, w, m, refresh, m1);
    MintKeepsGood(cfg, w, refresh);
    if writes { RevokeTracks(cfg, w1, m1, token, RevokeJti(w.db, token.claims.jti, token.claims.exp)); }
  }

  lemma SlideHappens(cfg: Config, w: World, token: Token, jtiA: string, jtiR: string, writes: bool)
    requires ValidateRefresh(cfg, w.db, token).Ok? && token.claims.jti != "" && token in w.minted
    ensures var c := token.claims;
            var access, refresh := MintAccess(cfg, w.db.now, c.sub, c.did, jtiA), MintRefresh(cfg, w.db.now, c.sub, c.did, jtiR);
            Happen(cfg, w, Slide(token, jtiA, jtiR, writes))
            == if !Rotates(c, w.db.now) then w.(minted := w.minted + {access})
               else if writes then World(RevokeJti(w.db, c.jti, c.exp), w.minted + {access} + {refresh}, w.revoked + {c.jti})
               else w.(minted := w.minted + {access} + {refresh})
  {
    var c := token.claims;
    var access, refresh := MintAccess(cfg, w.db.now, c.sub, c.did, jtiA), MintRefresh(cfg, w.db.now, c.sub, c.did, jtiR);
    Rearrange(w.minted, access, if Rotates(c, w.db.now) then refresh else token);
  }

  lemma SlideTracks(cfg: Config, w: World, m: Machine, token: Token, jtiA: string, jtiR: string, writes: bool)
    requires Good(cfg, w) && Simulates(cfg, w, m) && Possible(cfg, w, Slide(token, jtiA, jtiR, writes))
    ensures Simulates(cfg, Happen(cfg, w, Slide(token, jtiA, jtiR, writes)), Step(cfg, m, Slide(token, jtiA, jtiR, writes)))
  {
    AcceptsIfLive(cfg, w, token);
    assert Tracks(cfg, w, m, token);
    if LiveRefresh(cfg, w, token) {
      var c := token.claims;
      var access, refresh := MintAccess(cfg, w.db.now, c.sub, c.did, jtiA), MintRefresh(cfg, w.db.now, c.sub, c.did, jtiR);
      var w1 := w.(minted := w.minted + {access});
      MintTracks(cfg, w, m, access, SignIn(cfg, m, access));
      MintKeepsGood(cfg, w, access);
      SlideHappens(cfg, w, token, jtiA, jtiR, writes);
      if Rotates(c, w.db.now) {
        RotationTracks(cfg, w1, SignIn(cfg, m, access), token, refresh, writes);
      }
    }
  }

  lemma LogoutTracks(cfg: Config, w: World, m: Machine, token: Token, writes: bool)
    requires Good(cfg, w) && Simulates(cfg, w, m) && Possible(cfg, w, Logout(token, writes))
    ensures Simulates(cfg, Happen(cfg, w, Logout(token, writes)), Step(cfg, m, Logout(token, writes)))
  {
    if token in w.minted {
      if writes { RevokeTracks(cfg, w, m, token, RevokeJti(w.db, token.claims.jti, token.claims.exp)); }
    } else {
      assert Happen(cfg, w, Logout(token, writes)) == w;
      assert Tracks(cfg, w, m, token);
      NotMinted(cfg, w, m, token);
      assert m.open - {token} == m.open && m.refreshing - {token} == m.refreshing;
    }
  }

  /** Every event: the service with its tables and the machine move together. */
  lemma SimulatesStep(cfg: Config, w: World, m: Machine, e: Event)
    requires Good(cfg, w) && Simulates(cfg, w, m) && Possible(cfg, w, e)
    ensures Simulates(cfg, Happen(cfg, w, e), Step(cfg, m, e))
  {
    match e
    case Access(sub, did, jti) => MintTracks(cfg, w, m, MintAccess(cfg, w.db.now, sub, did, jti), Step(cfg, m, e));
    case Refresh(sub, did, jti) => MintTracks(cfg, w, m, MintRefresh(cfg, w.db.now, sub, did, jti), Step(cfg, m, e));
    case Foreign(node, iat, refresh, sub, did, jti) =>
      MintTracks(cfg, w, m, ForeignToken(cfg, node, iat, refresh, sub, did, jti), Step(cfg, m, e));
    case Logout(token, writes) => LogoutTracks(cfg, w, m, token, writes);
    case Slide(token, jtiA, jtiR, writes) => SlideTracks(cfg, w, m, token, jtiA, jtiR, writes);
    case Enroll(_, _) => DeviceEventTracks(cfg, w, m, e);
    case Disable(_) => DeviceEventTracks(cfg, w, m, e);
    case InvalidateUser(_) => DeviceEventTracks(cfg, w, m, e);
    case Gc => CollectTracks(cfg, w, m);
    case Tick(dt) => ClockTracks(cfg, w, m, dt);
  }

  lemma CollectTracks(cfg: Config, w: World, m: Machine)
    requires Simulates(cfg, w, m)
    ensures Simulates(cfg, Happen(cfg, w, Gc), m)
  {
    forall t ensures Tracks(cfg, Happen(cfg, w, Gc), m, t) {
      assert Tracks(cfg, w, m, t);
    }
  }

  lemma DeviceEventTracks(cfg: Config, w: World, m: Machine, e: Event)
    requires Good(cfg, w) && Simulates(cfg, w, m) && Possible(cfg, w, e) && (e.Enroll? || e.Disable? || e.InvalidateUser?)
    ensures Simulates(cfg, Happen(cfg, w, e), Step(cfg, m, e))
  {
    var devices := Happen(cfg, w, e).db.devices;
    forall t | t in w.minted && Admits(devices, t) ensures Admits(w.db.devices, t) {
      assert WellMinted(cfg, t);
    }
    DevicesTrack(cfg, w, m, devices);
    if e.InvalidateUser? {
      var own := map did | did in m.devices ::
        var d := m.devices[did]; if d.userId == e.userId then Device(e.userId, d.active, m.now) else d;
      assert own == devices;
    }
  }

  lemma {:induction false} SimulatesRun(cfg: Config, w: World, m: Machine, events: seq<Event>)
    requires Good(cfg, w) && Simulates(cfg, w, m) && IsRun(cfg, w, events)
    ensures Simulates(cfg, After(cfg, w, events), MachineAfter(cfg, m, events))
    decreases |events|
  {
    if events != [] {
      SimulatesStep(cfg, w, m, events[0]);
      GoodStep(cfg, w, events[0]);
      SimulatesRun(cfg, Happen(cfg, w, events[0]), Step(cfg, m, events[0]), events[1..]);
    }
  }

  /** Refinement. After every run the two validators accept exactly the machine's open sessions and its
      refreshing tokens. */
  lemma ValidatorsFollowMachine(cfg: Config, events: seq<Event>, t: Token)
    requires IsRun(cfg, NewWorld, events) && Presentable(cfg, After(cfg, NewWorld, events), t)
    ensures var w, m := After(cfg, NewWorld, events), MachineAfter(cfg, NewMachine, events);
            && (ValidateAccess(cfg, w.db, t).Ok? <==> t in m.open)
            && (ValidateRefresh(cfg, w.db, t).Ok? <==> t in m.refreshing)
  {
    GoodRun(cfg, NewWorld, events);
    assert forall u :: Tracks(cfg, NewWorld, NewMachine, u);
    SimulatesRun(cfg, NewWorld, NewMachine, events);
    AcceptsIfLive(cfg, After(cfg, NewWorld, events), t);
    assert Tracks(cfg, After(cfg, NewWorld, events), MachineAfter(cfg, NewMachine, events), t);
  }
}
