/** A client that keeps refreshing with the token it was last given. */
module SlidingSessions {
  import opened Common
  import opened Tokens
  import opened Sessions

  const HALF: int := REFRESH_TOKEN_EXPIRY_SECS / 2

  /** Every refresh token handed out has strictly more than half its life left, a new one all of its 24
      hours; the access token is new and has its hour. User and device stay the same. */
  lemma MoreThanHalfLeft(cfg: Config, db: Db, token: Token, jtiA: string, jtiR: string, writes: bool)
    requires RefreshWithSliding(cfg, db, token, jtiA, jtiR, writes).Ok?
    ensures var r := RefreshWithSliding(cfg, db, token, jtiA, jtiR, writes).value;
            && r.refresh.Signed? && r.refresh.claims.exp - db.now > HALF
            && r.refresh.claims.sub == token.claims.sub && r.refresh.claims.did == token.claims.did
            && (r.rotated <==> r.refresh != token)
            && (r.rotated <==> token.claims.exp - db.now <= 12 * 3600)
            && (r.rotated ==> r.refresh.claims.iat == db.now && r.refresh.claims.exp == db.now + 24 * 3600
                              && r.refresh.claims.tokenType == Some("refresh") && r.refresh.claims.jti == jtiR)
    ensures var r := RefreshWithSliding(cfg, db, token, jtiA, jtiR, writes).value;
            r.access == Signed(cfg.secret, Claims(token.claims.sub, db.now, db.now + 3600, None, jtiA,
                                                  cfg.nodeName, cfg.nodeName, token.claims.did))
  {
  }

  /** One turn of the client: other events go by, then it refreshes. */
  datatype Turn = Turn(idle: seq<Event>, jtiA: string, jtiR: string, writes: bool)

  /** Nobody else logs the held token out or refreshes with it. */
  predicate LeavesAlone(token: Token, events: seq<Event>) {
    forall i :: 0 <= i < |events| && (events[i].Logout? || events[i].Slide?) ==> events[i].token != token
  }

  function SlideOf(token: Token, turn: Turn): Event {
    Slide(token, turn.jtiA, turn.jtiR, turn.writes)
  }

  function Answer(cfg: Config, w: World, token: Token, turn: Turn): Result<Refreshed> {
    RefreshWithSliding(cfg, After(cfg, w, turn.idle).db, token, turn.jtiA, turn.jtiR, turn.writes)
  }

  function WorldAfter(cfg: Config, w: World, token: Token, turn: Turn): World {
    Happen(cfg, After(cfg, w, turn.idle), SlideOf(token, turn))
  }

  function Held(cfg: Config, w: World, token: Token, turn: Turn): Token {
    var r := Answer(cfg, w, token, turn);
    if r.Ok? then r.value.refresh else token
  }

  /** The turns can happen one after the other, each at most half a lifetime after the one before. */
  predicate IsChain(cfg: Config, w: World, token: Token, turns: seq<Turn>)
    decreases |turns|
  {
    turns == [] || (
      && IsRun(cfg, w, turns[0].idle) && LeavesAlone(token, turns[0].idle)
      && After(cfg, w, turns[0].idle).db.now <= w.db.now + HALF
      && Possible(cfg, After(cfg, w, turns[0].idle), SlideOf(token, turns[0]))
      && IsChain(cfg, WorldAfter(cfg, w, token, turns[0]), Held(cfg, w, token, turns[0]), turns[1..]))
  }

  /** Every refresh of the chain is answered. */
  predicate AllAnswered(cfg: Config, w: World, token: Token, turns: seq<Turn>)
    decreases |turns|
  {
    turns == [] || (
      && Answer(cfg, w, token, turns[0]).Ok?
      && AllAnswered(cfg, WorldAfter(cfg, w, token, turns[0]), Held(cfg, w, token, turns[0]), turns[1..]))
  }

  function LastWorld(cfg: Config, w: World, token: Token, turns: seq<Turn>): World
    decreases |turns|
  {
    if turns == [] then w
    else LastWorld(cfg, WorldAfter(cfg, w, token, turns[0]), Held(cfg, w, token, turns[0]), turns[1..])
  }

  function LastToken(cfg: Config, w: World, token: Token, turns: seq<Turn>): Token
    decreases |turns|
  {
    if turns == [] then token
    else LastToken(cfg, WorldAfter(cfg, w, token, turns[0]), Held(cfg, w, token, turns[0]), turns[1..])
  }

  function Rotations(cfg: Config, w: World, token: Token, turns: seq<Turn>): nat
    decreases |turns|
  {
    if turns == [] then 0
    else (if Held(cfg, w, token, turns[0]) != token then 1 else 0)
         + Rotations(cfg, WorldAfter(cfg, w, token, turns[0]), Held(cfg, w, token, turns[0]), turns[1..])
  }

  /** A refresh token of this node that nothing has revoked. */
  ghost predicate Intact(cfg: Config, w: World, token: Token) {
    && token in w.minted && WellMinted(cfg, token) && token.claims.tokenType == Some("refresh")
    && OfThisNode(cfg, token) && token.claims.jti !in w.revoked
    && token.claims.iat <= w.db.now
  }

  /** The client holds a refresh token that is intact and has more than half its life left. */
  ghost predicate Holds(cfg: Config, w: World, token: Token) {
    Good(cfg, w) && Intact(cfg, w, token) && token.claims.exp - w.db.now > HALF
  }

  lemma IntactStep(cfg: Config, w: World, token: Token, e: Event)
    requires Good(cfg, w) && Possible(cfg, w, e) && Intact(cfg, w, token) && LeavesAlone(token, [e])
    ensures Intact(cfg, Happen(cfg, w, e), token)
    ensures w.db.now <= Happen(cfg, w, e).db.now
    ensures w.revoked <= Happen(cfg, w, e).revoked && w.minted <= Happen(cfg, w, e).minted
  {
    assert [e][0] == e;
  }

  lemma {:induction false} IntactRun(cfg: Config, w: World, token: Token, events: seq<Event>)
    requires Good(cfg, w) && IsRun(cfg, w, events) && Intact(cfg, w, token) && LeavesAlone(token, events)
    ensures Good(cfg, After(cfg, w, events)) && Intact(cfg, After(cfg, w, events), token)
    ensures w.db.now <= After(cfg, w, events).db.now
    ensures w.revoked <= After(cfg, w, events).revoked && w.minted <= After(cfg, w, events).minted
    decreases |events|
  {
    if events != [] {
      GoodStep(cfg, w, events[0]);
      IntactStep(cfg, w, token, events[0]);
      IntactRun(cfg, Happen(cfg, w, events[0]), token, events[1..]);
    }
  }

  /** A refresh with an intact, unexpired token. */
  lemma SlideHolds(cfg: Config, v: World, token: Token, turn: Turn)
    requires Good(cfg, v) && Intact(cfg, v, token) && token.claims.exp > v.db.now
    requires Possible(cfg, v, SlideOf(token, turn))
    ensures RefreshWithSliding(cfg, v.db, token, turn.jtiA, turn.jtiR, turn.writes).Ok?
    ensures var r := RefreshWithSliding(cfg, v.db, token, turn.jtiA, turn.jtiR, turn.writes).value;
            var w', held := Happen(cfg, v, SlideOf(token, turn)), r.refresh;
            && Intact(cfg, w', held) && held.claims.exp - w'.db.now > HALF && Continues(v, token, w', held)
            && (held != token ==> held.claims.iat >= token.claims.iat + HALF)
            && (held != token && turn.writes ==> token.claims.jti in w'.revoked)
  {
    AcceptsIfLive(cfg, v, token);
    FreshIsUnrevoked(cfg, v, turn.jtiR);
  }

  /** What a later world and token owe to earlier ones. */
  ghost predicate Continues(w: World, token: Token, w': World, last: Token) {
    && token.Signed? && last.Signed?
    && last.claims.sub == token.claims.sub && last.claims.did == token.claims.did
    && w.revoked <= w'.revoked && w.minted <= w'.minted && w.db.now <= w'.db.now
  }

  /** One turn: the refresh is answered, the token now held is intact and fresh, and if it is a new
      one it was minted at least half a lifetime after the old one. */
  lemma TurnHolds(cfg: Config, w: World, token: Token, turn: Turn)
    requires Holds(cfg, w, token)
    requires IsRun(cfg, w, turn.idle) && LeavesAlone(token, turn.idle)
    requires After(cfg, w, turn.idle).db.now <= w.db.now + HALF
    requires Possible(cfg, After(cfg, w, turn.idle), SlideOf(token, turn))
    ensures Answer(cfg, w, token, turn).Ok?
    ensures var w', held := WorldAfter(cfg, w, token, turn), Held(cfg, w, token, turn);
            && Holds(cfg, w', held) && Continues(w, token, w', held)
            && (held != token ==> held.claims.iat >= token.claims.iat + HALF)
            && (held != token && turn.writes ==> token.claims.jti in w'.revoked)
  {
    var v := After(cfg, w, turn.idle);
    IntactRun(cfg, w, token, turn.idle);
    GoodStep(cfg, v, SlideOf(token, turn));
    SlideHolds(cfg, v, token, turn);
  }

  lemma FreshIsUnrevoked(cfg: Config, w: World, jti: string)
    requires Good(cfg, w) && FreshJti(w, jti)
    ensures jti !in w.revoked
  {
  }

  /** Sliding sessions never lapse: a chain of any length, with refreshes at most twelve hours apart,
      is answered every time. */
  lemma {:induction false} NeverLapses(cfg: Config, w: World, token: Token, turns: seq<Turn>)
    requires Holds(cfg, w, token) && IsChain(cfg, w, token, turns)
    ensures AllAnswered(cfg, w, token, turns)
    decreases |turns|
  {
    if turns != [] {
      TurnHolds(cfg, w, token, turns[0]);
      NeverLapses(cfg, WorldAfter(cfg, w, token, turns[0]), Held(cfg, w, token, turns[0]), turns[1..]);
    }
  }

  /** At its end the chain holds an intact token with more than half its life left, for the same user
      and device. */
  lemma {:induction false} StillHeld(cfg: Config, w: World, token: Token, turns: seq<Turn>)
    requires Holds(cfg, w, token) && IsChain(cfg, w, token, turns)
    ensures Holds(cfg, LastWorld(cfg, w, token, turns), LastToken(cfg, w, token, turns))
    ensures Continues(w, token, LastWorld(cfg, w, token, turns), LastToken(cfg, w, token, turns))
    decreases |turns|
  {
    if turns != [] {
      TurnHolds(cfg, w, token, turns[0]);
      StillHeld(cfg, WorldAfter(cfg, w, token, turns[0]), Held(cfg, w, token, turns[0]), turns[1..]);
    }
  }

  /** Rotations lie at least half a lifetime apart. */
  lemma {:induction false} RotationsApart(cfg: Config, w: World, token: Token, turns: seq<Turn>)
    requires Holds(cfg, w, token) && IsChain(cfg, w, token, turns)
    ensures LastToken(cfg, w, token, turns).Signed?
    ensures token.claims.iat + 43_200 * Rotations(cfg, w, token, turns) <= LastToken(cfg, w, token, turns).claims.iat
    decreases |turns|
  {
    if turns != [] {
      TurnHolds(cfg, w, token, turns[0]);
      RotationsApart(cfg, WorldAfter(cfg, w, token, turns[0]), Held(cfg, w, token, turns[0]), turns[1..]);
    }
  }

  /** In T seconds since the first token was minted there are at most T / 43200 rotations. */
  lemma RotationRate(cfg: Config, w: World, token: Token, turns: seq<Turn>)
    requires Holds(cfg, w, token) && IsChain(cfg, w, token, turns)
    ensures Rotations(cfg, w, token, turns) <= (LastWorld(cfg, w, token, turns).db.now - token.claims.iat) / 43_200
  {
    RotationsApart(cfg, w, token, turns);
    StillHeld(cfg, w, token, turns);
    Quotient(Rotations(cfg, w, token, turns), LastWorld(cfg, w, token, turns).db.now - token.claims.iat);
  }

  lemma Quotient(n: nat, t: int)
    requires 43_200 * n <= t
    ensures n <= t / 43_200
  {
  }

  /** The chain may start from a token minted in any run. */
  lemma ChainStart(cfg: Config, w: World, sub: string, did: string, jti: string)
    requires Good(cfg, w) && Possible(cfg, w, Refresh(sub, did, jti))
    ensures var w', t := Happen(cfg, w, Refresh(sub, did, jti)), MintRefresh(cfg, w.db.now, sub, did, jti);
            Holds(cfg, w', t)
  {
    GoodStep(cfg, w, Refresh(sub, did, jti));
  }

  // ---------- Retired tokens ----------

  /** All tokens the client held along the chain. */
  function HeldTokens(cfg: Config, w: World, token: Token, turns: seq<Turn>): set<Token>
    decreases |turns|
  {
    {token} + if turns == [] then {}
              else HeldTokens(cfg, WorldAfter(cfg, w, token, turns[0]), Held(cfg, w, token, turns[0]), turns[1..])
  }

  predicate AllWritten(turns: seq<Turn>) {
    forall i :: 0 <= i < |turns| ==> turns[i].writes
  }

  ghost predicate Retired(cfg: Config, w: World, t: Token) {
    && t in w.minted && t.Signed? && t.claims.tokenType == Some("refresh") && OfThisNode(cfg, t)
    && t.claims.jti in w.revoked
  }

  lemma RetiredStays(cfg: Config, w: World, w': World, t: Token)
    requires Retired(cfg, w, t) && w.minted <= w'.minted && w.revoked <= w'.revoked
    ensures Retired(cfg, w', t)
  {
  }

  lemma {:induction false} OldTokensRetired(cfg: Config, w: World, token: Token, turns: seq<Turn>, older: Token)
    requires Holds(cfg, w, token)
    requires IsChain(cfg, w, token, turns) && AllWritten(turns)
    requires older in HeldTokens(cfg, w, token, turns) && older != LastToken(cfg, w, token, turns)
    ensures Retired(cfg, LastWorld(cfg, w, token, turns), older)
    decreases |turns|
  {
    assert turns != [];
    var w', held, rest := WorldAfter(cfg, w, token, turns[0]), Held(cfg, w, token, turns[0]), turns[1..];
    TurnHolds(cfg, w, token, turns[0]);
    assert AllWritten(rest) && turns[0].writes;
    if older in HeldTokens(cfg, w', held, rest) {
      OldTokensRetired(cfg, w', held, rest, older);
    } else {
      assert older == token;
      HeldIsHeld(cfg, w', held, rest);
      StillHeld(cfg, w', held, rest);
      RetiredStays(cfg, w', LastWorld(cfg, w', held, rest), older);
    }
  }

  lemma HeldIsHeld(cfg: Config, w: World, token: Token, turns: seq<Turn>)
    ensures token in HeldTokens(cfg, w, token, turns)
  {
  }

  /** At any moment after a chain, while other events go by: when every revocation write succeeded, of
      all tokens the client ever held the last one is accepted up to its expiry and leeway, and an
      older one exactly in the window from its own expiry to the leeway after it. */
  lemma OneTokenAtATime(cfg: Config, w: World, token: Token, turns: seq<Turn>, idle: seq<Event>, t: Token)
    requires Holds(cfg, w, token)
    requires IsChain(cfg, w, token, turns) && AllWritten(turns) && t in HeldTokens(cfg, w, token, turns)
    requires IsRun(cfg, LastWorld(cfg, w, token, turns), idle) && LeavesAlone(LastToken(cfg, w, token, turns), idle)
    ensures var now := After(cfg, LastWorld(cfg, w, token, turns), idle).db.now;
            && t.Signed?
            && (ValidateRefresh(cfg, After(cfg, LastWorld(cfg, w, token, turns), idle).db, t).Ok? <==>
                 now <= t.claims.exp + cfg.leeway
                 && (t == LastToken(cfg, w, token, turns) || t.claims.exp <= now))
  {
    var last, w' := LastToken(cfg, w, token, turns), LastWorld(cfg, w, token, turns);
    StillHeld(cfg, w, token, turns);
    IntactRun(cfg, w', last, idle);
    if t != last {
      OldTokensRetired(cfg, w, token, turns, t);
    }
    AcceptsIfLive(cfg, After(cfg, w', idle), t);
  }

  /** So whenever two tokens of the chain are accepted at once, one of them is past its own expiry. */
  lemma TwoOnlyInTheWindow(cfg: Config, w: World, token: Token, turns: seq<Turn>, idle: seq<Event>, t: Token, u: Token)
    requires Holds(cfg, w, token) && IsChain(cfg, w, token, turns) && AllWritten(turns)
    requires {t, u} <= HeldTokens(cfg, w, token, turns) && t != u
    requires IsRun(cfg, LastWorld(cfg, w, token, turns), idle) && LeavesAlone(LastToken(cfg, w, token, turns), idle)
    requires var db := After(cfg, LastWorld(cfg, w, token, turns), idle).db;
             ValidateRefresh(cfg, db, t).Ok? && ValidateRefresh(cfg, db, u).Ok?
    ensures t.Signed? && u.Signed?
    ensures var now := After(cfg, LastWorld(cfg, w, token, turns), idle).db.now;
            t.claims.exp <= now <= t.claims.exp + cfg.leeway || u.claims.exp <= now <= u.claims.exp + cfg.leeway
  {
    OneTokenAtATime(cfg, w, token, turns, idle, t);
    OneTokenAtATime(cfg, w, token, turns, idle, u);
  }

  /** That window can be reached: rotated after twelve hours, the old token is accepted beside the new
      one when twenty-four hours are up. */
  lemma TwoTokensExample(cfg: Config)
    ensures var t := MintRefresh(cfg, 0, "u", "d", "j");
            var w1 := Happen(cfg, NewWorld, Refresh("u", "d", "j"));
            var w2 := Happen(cfg, w1, Tick(43200));
            var w3 := Happen(cfg, w2, Slide(t, "a", "r", true));
            var w4 := Happen(cfg, w3, Tick(43200));
            var renewed := MintRefresh(cfg, 43200, "u", "d", "r");
            && Possible(cfg, NewWorld, Refresh("u", "d", "j")) && Possible(cfg, w2, Slide(t, "a", "r", true))
            && ValidateRefresh(cfg, w3.db, t).Err?
            && ValidateRefresh(cfg, w4.db, t).Ok? && ValidateRefresh(cfg, w4.db, renewed).Ok?
  {
  }

  /** A refresh token minted now lasts 24 hours and the leeway, and no longer, whatever else happens, as
      long as nobody logs it out or refreshes with it. */
  lemma RefreshTokenLasts(cfg: Config, w: World, sub: string, did: string, jti: string, t: Token, later: seq<Event>)
    requires Good(cfg, w) && FreshJti(w, jti) && IsRun(cfg, Happen(cfg, w, Refresh(sub, did, jti)), later)
    requires t in Happen(cfg, w, Refresh(sub, did, jti)).minted && t !in w.minted && LeavesAlone(t, later)
    ensures var db := After(cfg, Happen(cfg, w, Refresh(sub, did, jti)), later).db;
            if db.now <= w.db.now + 24 * 3600 + cfg.leeway
            then ValidateRefresh(cfg, db, t) == Ok(Claims(sub, w.db.now, w.db.now + 24 * 3600, Some("refresh"), jti,
                                                          cfg.nodeName, cfg.nodeName, did))
            else ValidateRefresh(cfg, db, t).Err?
  {
    var w' := Happen(cfg, w, Refresh(sub, did, jti));
    GoodStep(cfg, w, Refresh(sub, did, jti));
    FreshIsUnrevoked(cfg, w, jti);
    IntactRun(cfg, w', t, later);
    AcceptsIfLive(cfg, After(cfg, w', later), t);
  }
}
