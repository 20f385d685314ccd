/** The sender-key exchange of one channel: N peers, a hub that broadcasts to every subscriber
    (the sender included), and the `channel:key-distribute` handler of each peer.

    One handler run is three atomic pieces, cut at its two `await`s: the fingerprint test and
    `seen.add`; the end of `processSenderKey`; the end of `getSenderKeyDistribution` followed by the
    broadcast. Pieces of different handler runs, and of different peers, interleave freely, and
    messages are delivered in any order. A peer may broadcast any payload at any time, also one that
    names somebody else: `processSenderKey` is not told who sent a payload and files the key under the
    identity written inside it. */
module SenderKeyExchange {
  import opened Common

  /** The user id the hub stamps on a distribute. */
  type Peer = string
  type Payload = string

  datatype Packet = Packet(to: Peer, sender: Peer, dist: Payload)

  /** `ownId` is the base64 identity key each client compares `sender_id` with, and puts into its own
      payloads; `owner` reads the identity a payload names. */
  datatype Config = Config(peers: set<Peer>, ownId: map<Peer, string>, payloads: set<Payload>, owner: Payload -> string) {
    ghost predicate Valid() {
      && ownId.Keys == peers
      && "" !in peers
      && forall p, q :: p in peers && q in peers && p != q ==> ownId[p] != q
    }
  }

  datatype State = State(
    joined: set<Peer>,
    unannounced: set<Peer>,                  // joined, first broadcast still pending
    seen: set<(Peer, Peer, Payload)>,        // (holder, sender, payload)
    keys: map<(Peer, string), Packet>,       // (holder, identity) -> packet whose payload is the key held
    filed: set<Packet>,                      // every packet whose key was ever filed
    failed: set<(Peer, Peer)>,               // (holder, sender): processSenderKey threw
    net: multiset<Packet>,
    absorbing: set<Packet>,                  // handler runs inside processSenderKey
    echoing: set<Packet>)                    // handler runs inside getSenderKeyDistribution

  datatype Step =
    | Subscribe(p: Peer)
    | Announce(p: Peer, k: Payload)
    | Receive(pkt: Packet)
    | Absorb(pkt: Packet)
    | AbsorbFail(pkt: Packet, stored: bool)  // it can throw before or after the key was filed
    | Echo(pkt: Packet, k: Payload)

  const Init := State({}, {}, {}, map[], {}, {}, multiset{}, {}, {})

  function Broadcast(joined: set<Peer>, p: Peer, k: Payload): multiset<Packet> {
    multiset(set q | q in joined :: Packet(q, p, k))
  }

  function Fingerprint(pkt: Packet): (Peer, Peer, Payload) {
    (pkt.to, pkt.sender, pkt.dist)
  }

  /** The guard before the echo: a sender id is present and is not the client's own identity. */
  predicate ShouldEcho(ownId: string, sender: Peer) {
    sender != "" && sender != ownId
  }

  predicate Enabled(c: Config, s: State, step: Step) {
    match step
    case Subscribe(p) => p in c.peers && p !in s.joined
    case Announce(p, k) => p in s.unannounced && k in c.payloads
    case Receive(pkt) => pkt in s.net
    case Absorb(pkt) => pkt in s.absorbing && pkt.to in c.ownId
    case AbsorbFail(pkt, _) => pkt in s.absorbing
    case Echo(pkt, k) => pkt in s.echoing && k in c.payloads
  }

  function FileKey(c: Config, s: State, pkt: Packet): State {
    s.(keys := s.keys[(pkt.to, c.owner(pkt.dist)) := pkt], filed := s.filed + {pkt})
  }

  function Next(c: Config, s: State, step: Step): State
    requires Enabled(c, s, step)
  {
    match step
    case Subscribe(p) =>
      s.(joined := s.joined + {p}, unannounced := s.unannounced + {p})
    case Announce(p, k) =>
      s.(unannounced := s.unannounced - {p}, net := s.net + Broadcast(s.joined, p, k))
    case Receive(pkt) =>
      var rest := s.(net := s.net - multiset{pkt});
      if Fingerprint(pkt) in s.seen then rest
      else rest.(seen := s.seen + {Fingerprint(pkt)}, absorbing := s.absorbing + {pkt})
    case Absorb(pkt) =>
      FileKey(c, s, pkt).(
         absorbing := s.absorbing - {pkt},
         echoing := if ShouldEcho(c.ownId[pkt.to], pkt.sender) then s.echoing + {pkt} else s.echoing)
    case AbsorbFail(pkt, stored) =>
      (if stored then FileKey(c, s, pkt) else s).(
         absorbing := s.absorbing - {pkt}, failed := s.failed + {(pkt.to, pkt.sender)})
    case Echo(pkt, k) =>
      s.(echoing := s.echoing - {pkt}, net := s.net + Broadcast(s.joined, pkt.to, k))
  }

  /** `steps` is a run from `s`: each step is enabled where it is taken. */
  predicate IsRun(c: Config, s: State, steps: seq<Step>)
    decreases |steps|
  {
    steps == [] || (Enabled(c, s, steps[0]) && IsRun(c, Next(c, s, steps[0]), steps[1..]))
  }

  function Final(c: Config, s: State, steps: seq<Step>): State
    requires IsRun(c, s, steps)
    decreases |steps|
  {
    if steps == [] then s else Final(c, Next(c, s, steps[0]), steps[1..])
  }

  // ---------- Completeness ----------

  ghost predicate InFlight(s: State, sender: Peer, to: Peer) {
    exists k :: Packet(to, sender, k) in s.net
  }

  ghost predicate Absorbing(s: State, at: Peer, sender: Peer) {
    exists k :: Packet(at, sender, k) in s.absorbing
  }

  ghost predicate EchoPending(s: State, at: Peer) {
    exists sender, k :: Packet(at, sender, k) in s.echoing
  }

  ghost predicate SeenFrom(s: State, at: Peer, sender: Peer) {
    exists k :: (at, sender, k) in s.seen
  }

  /** `at` filed some payload that `sender` broadcast. */
  ghost predicate HasFiled(s: State, at: Peer, sender: Peer) {
    exists k :: Packet(at, sender, k) in s.filed
  }

  /** `p` filed a payload of `q`'s, or an exchange that will hand one over is already under way, or
      processing failed on one side of the pair. */
  ghost predicate Closing(s: State, p: Peer, q: Peer) {
    || HasFiled(s, p, q)
    || (p, q) in s.failed
    || (q, p) in s.failed
    || Absorbing(s, q, p)
    || EchoPending(s, q)
    || InFlight(s, q, p)
    || Absorbing(s, p, q)
  }

  ghost predicate WellFormed(c: Config, s: State) {
    && s.joined <= c.peers
    && s.unannounced <= s.joined
    && (forall x :: x in s.seen ==> x.0 in s.joined && x.1 in s.joined && x.2 in c.payloads)
    && (forall m :: m in s.net ==> m.to in s.joined && m.sender in s.joined && m.dist in c.payloads)
    && (forall m :: m in s.absorbing ==> Fingerprint(m) in s.seen)
    && (forall m :: m in s.echoing ==> Fingerprint(m) in s.seen && m !in s.absorbing)
  }

  /** A seen payload was filed, failed, or is still being processed. */
  ghost predicate SeenIsUsed(s: State) {
    forall p, q, k :: (p, q, k) in s.seen ==>
      Packet(p, q, k) in s.filed || (p, q) in s.failed || Packet(p, q, k) in s.absorbing
  }

  ghost predicate PairOk(s: State, p: Peer, q: Peer) {
    && (SeenFrom(s, q, p) ==> Closing(s, p, q))
    && (p in s.unannounced || q in s.unannounced || InFlight(s, p, q) || Closing(s, p, q))
  }

  ghost predicate Inv(c: Config, s: State) {
    && WellFormed(c, s)
    && SeenIsUsed(s)
    && forall p, q :: p in s.joined && q in s.joined && p != q ==> PairOk(s, p, q)
  }

  lemma PairOkStep(c: Config, s: State, step: Step, p: Peer, q: Peer)
    requires c.Valid() && Inv(c, s) && Enabled(c, s, step)
    requires p in Next(c, s, step).joined && q in Next(c, s, step).joined && p != q
    ensures PairOk(Next(c, s, step), p, q)
  {
    if step.Receive? {
      PairOkReceive(c, s, step.pkt, p, q);
    } else if step.Subscribe? {
      PairOkSubscribe(c, s, step.p, p, q);
    } else {
      PairOkOther(c, s, step, p, q);
    }
  }

  lemma PairOkSubscribe(c: Config, s: State, r: Peer, p: Peer, q: Peer)
    requires Inv(c, s) && Enabled(c, s, Subscribe(r))
    requires p in s.joined + {r} && q in s.joined + {r} && p != q
    ensures PairOk(Next(c, s, Subscribe(r)), p, q)
  {
    var t := Next(c, s, Subscribe(r));
    if p in s.joined && q in s.joined {
      assert PairOk(s, p, q);
      assert Closing(s, p, q) ==> Closing(t, p, q);
    }
  }

  lemma PairOkOther(c: Config, s: State, step: Step, p: Peer, q: Peer)
    requires c.Valid() && Inv(c, s) && Enabled(c, s, step) && !step.Subscribe? && !step.Receive?
    requires p in s.joined && q in s.joined && p != q
    ensures PairOk(Next(c, s, step), p, q)
  {
    var t := Next(c, s, step);
    assert PairOk(s, p, q);
    KeepsPending(c, s, step, p, q);
    assert SeenFrom(t, q, p) == SeenFrom(s, q, p);
    if step.Announce? {
      if step.p == p { assert Packet(q, p, step.k) in t.net; }
      if step.p == q { assert Packet(p, q, step.k) in t.net; }
    }
  }

  /** Every pending item of a pair other than the one the step consumes stays pending. */
  lemma KeepsPending(c: Config, s: State, step: Step, p: Peer, q: Peer)
    requires c.Valid() && Enabled(c, s, step) && !step.Subscribe? && !step.Receive?
    requires p in s.joined && q in s.joined && p != q && WellFormed(c, s)
    ensures Closing(s, p, q) ==> Closing(Next(c, s, step), p, q)
    ensures InFlight(s, p, q) ==> InFlight(Next(c, s, step), p, q)
  {
    KeepsNet(c, s, step);
    if Absorbing(s, q, p) { KeepsAbsorbing(c, s, step, q, p); }
    if Absorbing(s, p, q) { KeepsAbsorbing(c, s, step, p, q); }
    if EchoPending(s, q) { KeepsEcho(c, s, step, q, p); }
  }

  lemma KeepsNet(c: Config, s: State, step: Step)
    requires Enabled(c, s, step) && !step.Receive?
    ensures var t := Next(c, s, step);
            && (forall m :: m in s.net ==> m in t.net)
            && s.filed <= t.filed && s.failed <= t.failed
  {
  }

  /** A payload being absorbed ends as a filed key, with an echo to follow, or as a failure. */
  lemma KeepsAbsorbing(c: Config, s: State, step: Step, at: Peer, from: Peer)
    requires c.Valid() && WellFormed(c, s) && Enabled(c, s, step) && !step.Subscribe? && !step.Receive?
    requires Absorbing(s, at, from) && at in s.joined && from in s.joined && at != from
    ensures var t := Next(c, s, step);
            || Absorbing(t, at, from)
            || (at, from) in t.failed
            || (HasFiled(t, at, from) && EchoPending(t, at))
  {
    var k :| Packet(at, from, k) in s.absorbing;
    var t := Next(c, s, step);
    if Packet(at, from, k) !in t.absorbing && step.Absorb? {
      assert ShouldEcho(c.ownId[at], from);
      assert Packet(at, from, k) in t.echoing && Packet(at, from, k) in t.filed;
    }
  }

  lemma KeepsEcho(c: Config, s: State, step: Step, at: Peer, to: Peer)
    requires Enabled(c, s, step) && !step.Subscribe? && !step.Receive?
    requires EchoPending(s, at) && to in s.joined
    ensures EchoPending(Next(c, s, step), at) || InFlight(Next(c, s, step), at, to)
  {
    var sender, k :| Packet(at, sender, k) in s.echoing;
    var t := Next(c, s, step);
    if Packet(at, sender, k) !in t.echoing {
      assert Packet(to, at, step.k) in t.net;
    }
  }

  /** Delivering a packet leaves every pending item of the pair pending, but for that packet. */
  lemma ReceiveKeeps(c: Config, s: State, pkt: Packet, p: Peer, q: Peer)
    requires pkt in s.net
    ensures var t := Next(c, s, Receive(pkt));
            && (Absorbing(s, p, q) ==> Absorbing(t, p, q))
            && (EchoPending(s, q) ==> EchoPending(t, q))
            && (InFlight(s, p, q) ==> InFlight(t, p, q) || (pkt.to == q && pkt.sender == p))
  {
    var t := Next(c, s, Receive(pkt));
    if Absorbing(s, p, q) {
      var k :| Packet(p, q, k) in s.absorbing;
      assert Packet(p, q, k) in t.absorbing;
    }
    if EchoPending(s, q) {
      var sender, k :| Packet(q, sender, k) in s.echoing;
      assert Packet(q, sender, k) in t.echoing;
    }
    if InFlight(s, p, q) {
      var k :| Packet(q, p, k) in s.net;
      assert Packet(q, p, k) != pkt ==> Packet(q, p, k) in t.net;
    }
  }

  /** What the delivered packet stood for is taken over by the receiver's handler. */
  lemma ReceiveHandsOver(c: Config, s: State, pkt: Packet)
    requires pkt in s.net && SeenIsUsed(s)
    ensures var t := Next(c, s, Receive(pkt));
            Absorbing(t, pkt.to, pkt.sender) || HasFiled(t, pkt.to, pkt.sender) || (pkt.to, pkt.sender) in t.failed
    ensures Fingerprint(pkt) !in s.seen ==> Absorbing(Next(c, s, Receive(pkt)), pkt.to, pkt.sender)
  {
    var t := Next(c, s, Receive(pkt));
    assert pkt == Packet(pkt.to, pkt.sender, pkt.dist);
    assert pkt in t.absorbing || pkt in t.filed || (pkt.to, pkt.sender) in t.failed;
  }

  lemma PairOkReceive(c: Config, s: State, pkt: Packet, p: Peer, q: Peer)
    requires Inv(c, s) && pkt in s.net
    requires p in s.joined && q in s.joined && p != q
    ensures PairOk(Next(c, s, Receive(pkt)), p, q)
  {
    var t := Next(c, s, Receive(pkt));
    assert PairOk(s, p, q);
    ReceiveKeeps(c, s, pkt, p, q);
    ReceiveKeeps(c, s, pkt, q, p);
    ReceiveHandsOver(c, s, pkt);
    assert Closing(s, p, q) ==> Closing(t, p, q);
    if pkt.to == q && pkt.sender == p {
      if Fingerprint(pkt) in s.seen {
        assert SeenFrom(s, q, p);
      }
      assert Closing(t, p, q);
    } else if SeenFrom(t, q, p) {
      var k :| (q, p, k) in t.seen;
      assert (q, p, k) in s.seen;
    }
  }

  lemma WellFormedStep(c: Config, s: State, step: Step)
    requires WellFormed(c, s) && Enabled(c, s, step)
    ensures WellFormed(c, Next(c, s, step))
  {
    match step
    case Subscribe(_) =>
    case Announce(p, k) => BroadcastStaysInside(c, s, p, k);
    case Receive(pkt) => ReceiveStaysInside(c, s, pkt);
    case Absorb(pkt) =>
    case AbsorbFail(_, _) =>
    case Echo(pkt, k) => BroadcastStaysInside(c, s, pkt.to, k);
  }

  lemma BroadcastStaysInside(c: Config, s: State, p: Peer, k: Payload)
    requires WellFormed(c, s) && p in s.joined && k in c.payloads
    ensures forall m :: m in s.net + Broadcast(s.joined, p, k) ==>
              m.to in s.joined && m.sender in s.joined && m.dist in c.payloads
  {
  }

  lemma ReceiveStaysInside(c: Config, s: State, pkt: Packet)
    requires WellFormed(c, s) && pkt in s.net
    ensures WellFormed(c, Next(c, s, Receive(pkt)))
  {
    var t := Next(c, s, Receive(pkt));
    assert forall m :: m in t.net ==> m in s.net;
  }

  lemma SeenIsUsedStep(c: Config, s: State, step: Step)
    requires WellFormed(c, s) && SeenIsUsed(s) && Enabled(c, s, step)
    ensures SeenIsUsed(Next(c, s, step))
  {
    var t := Next(c, s, step);
    forall p, q, k | (p, q, k) in t.seen
      ensures Packet(p, q, k) in t.filed || (p, q) in t.failed || Packet(p, q, k) in t.absorbing
    {
      if (p, q, k) in s.seen {
        assert Packet(p, q, k) in s.absorbing ==>
          Packet(p, q, k) in t.absorbing || Packet(p, q, k) in t.filed || (p, q) in t.failed;
      } else {
        assert step.pkt == Packet(p, q, k);
      }
    }
  }

  /** Every step keeps the invariant. */
  lemma InvStep(c: Config, s: State, step: Step)
    requires c.Valid() && Inv(c, s) && Enabled(c, s, step)
    ensures Inv(c, Next(c, s, step))
  {
    var t := Next(c, s, step);
    WellFormedStep(c, s, step);
    SeenIsUsedStep(c, s, step);
    forall p, q | p in t.joined && q in t.joined && p != q
      ensures PairOk(t, p, q)
    {
      PairOkStep(c, s, step, p, q);
    }
  }

  lemma {:induction false} InvRun(c: Config, s: State, steps: seq<Step>)
    requires c.Valid() && Inv(c, s) && IsRun(c, s, steps)
    ensures Inv(c, Final(c, s, steps))
    decreases |steps|
  {
    if steps != [] {
      InvStep(c, s, steps[0]);
      InvRun(c, Next(c, s, steps[0]), steps[1..]);
    }
  }

  predicate Quiescent(s: State) {
    s.unannounced == {} && s.net == multiset{} && s.absorbing == {} && s.echoing == {}
  }

  /** Whatever the join and delivery order, once nothing is pending each joined peer has filed a
      payload of each other joined peer; a failed processSenderKey costs its own pair only. */
  lemma EveryPairExchanged(c: Config, steps: seq<Step>, p: Peer, q: Peer)
    requires c.Valid() && IsRun(c, Init, steps)
    requires Quiescent(Final(c, Init, steps))
    requires p in Final(c, Init, steps).joined && q in Final(c, Init, steps).joined && p != q
    ensures var s := Final(c, Init, steps);
            HasFiled(s, p, q) || (p, q) in s.failed || (q, p) in s.failed
  {
    InvRun(c, Init, steps);
    assert PairOk(Final(c, Init, steps), p, q);
  }

  // ---------- What the state records ----------

  predicate Files(step: Step) {
    step.Absorb? || (step.AbsorbFail? && step.stored)
  }

  predicate FiledIn(steps: seq<Step>, m: Packet) {
    exists i :: 0 <= i < |steps| && Files(steps[i]) && steps[i].pkt == m
  }

  predicate FailedIn(steps: seq<Step>, p: Peer, q: Peer) {
    exists i :: 0 <= i < |steps| && steps[i].AbsorbFail? && steps[i].pkt.to == p && steps[i].pkt.sender == q
  }

  predicate JoinedIn(steps: seq<Step>, p: Peer) {
    exists i :: 0 <= i < |steps| && steps[i] == Subscribe(p)
  }

  lemma FirstOrLater(steps: seq<Step>, m: Packet, p: Peer, q: Peer)
    requires steps != []
    ensures FiledIn(steps, m) <==> (Files(steps[0]) && steps[0].pkt == m) || FiledIn(steps[1..], m)
    ensures FailedIn(steps, p, q) <==>
              (steps[0].AbsorbFail? && steps[0].pkt.to == p && steps[0].pkt.sender == q) || FailedIn(steps[1..], p, q)
    ensures JoinedIn(steps, p) <==> steps[0] == Subscribe(p) || JoinedIn(steps[1..], p)
  {
    assert forall i :: 0 <= i < |steps| - 1 ==> steps[1..][i] == steps[i + 1];
    assert forall i :: 0 < i < |steps| ==> steps[i] == steps[1..][i - 1];
  }

  lemma {:induction false} RecordRun(c: Config, s: State, steps: seq<Step>, m: Packet, p: Peer, q: Peer)
    requires IsRun(c, s, steps)
    ensures var t := Final(c, s, steps);
            && (m in t.filed <==> m in s.filed || FiledIn(steps, m))
            && ((p, q) in t.failed <==> (p, q) in s.failed || FailedIn(steps, p, q))
            && (p in t.joined <==> p in s.joined || JoinedIn(steps, p))
    decreases |steps|
  {
    if steps != [] {
      FirstOrLater(steps, m, p, q);
      RecordStep(c, s, steps[0], m, p, q);
      RecordRun(c, Next(c, s, steps[0]), steps[1..], m, p, q);
    }
  }

  lemma RecordStep(c: Config, s: State, step: Step, m: Packet, p: Peer, q: Peer)
    requires Enabled(c, s, step)
    ensures var t := Next(c, s, step);
            && (m in t.filed <==> m in s.filed || (Files(step) && step.pkt == m))
            && ((p, q) in t.failed <==> (p, q) in s.failed || (step.AbsorbFail? && step.pkt.to == p && step.pkt.sender == q))
            && (p in t.joined <==> p in s.joined || step == Subscribe(p))
  {
  }

  /** A pair counts as failed exactly if `processSenderKey` threw on one of its packets, a packet as filed
      exactly if its processing stored the key, and a peer as joined exactly if it subscribed. */
  lemma RecordExactly(c: Config, steps: seq<Step>, m: Packet, p: Peer, q: Peer)
    requires IsRun(c, Init, steps)
    ensures var t := Final(c, Init, steps);
            && (m in t.filed <==> FiledIn(steps, m))
            && ((p, q) in t.failed <==> FailedIn(steps, p, q))
            && (p in t.joined <==> JoinedIn(steps, p))
  {
    RecordRun(c, Init, steps, m, p, q);
  }

  /** A broadcast puts one copy under way to every subscriber, the sender included, and to nobody else. */
  lemma BroadcastReaches(joined: set<Peer>, p: Peer, k: Payload, m: Packet)
    ensures Broadcast(joined, p, k)[m] == if m.to in joined && m.sender == p && m.dist == k then 1 else 0
  {
    assert m == Packet(m.to, m.sender, m.dist);
  }
}
