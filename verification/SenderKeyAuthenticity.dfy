/** Whose keys the peers end up with. A key is filed under the identity its payload names, and nothing
    compares that with the sender the hub stamped, so what the exchange promises about a peer's key
    rests on that peer, and for authenticity on every peer, naming itself. */
module SenderKeyAuthenticity {
  import opened Common
  import opened SenderKeyExchange
  import opened SenderKeyTermination

  // ---------- What was filed, was sent ----------

  predicate Sends(step: Step, q: Peer, k: Payload) {
    step == Announce(q, k) || (step.Echo? && step.pkt.to == q && step.k == k)
  }

  /** `q` broadcast payload `k` at some step. */
  predicate SentIn(steps: seq<Step>, q: Peer, k: Payload) {
    exists i :: 0 <= i < |steps| && Sends(steps[i], q, k)
  }

  /** A broadcast of `k` by `q` is somewhere in the system. */
  ghost predicate Present(s: State, q: Peer, k: Payload) {
    exists p :: Packet(p, q, k) in s.filed || Packet(p, q, k) in s.net || Packet(p, q, k) in s.absorbing
  }

  lemma PresentStep(c: Config, s: State, step: Step, q: Peer, k: Payload)
    requires Enabled(c, s, step) && Present(Next(c, s, step), q, k)
    ensures Present(s, q, k) || Sends(step, q, k)
  {
    var t := Next(c, s, step);
    var p :| Packet(p, q, k) in t.filed || Packet(p, q, k) in t.net || Packet(p, q, k) in t.absorbing;
    var m := Packet(p, q, k);
    assert m in s.filed || m in s.net || m in s.absorbing || Sends(step, q, k);
  }

  lemma {:induction false} PresentWasSent(c: Config, s: State, steps: seq<Step>, q: Peer, k: Payload)
    requires IsRun(c, s, steps) && Present(Final(c, s, steps), q, k)
    ensures Present(s, q, k) || SentIn(steps, q, k)
    decreases |steps|
  {
    if steps != [] {
      PresentWasSent(c, Next(c, s, steps[0]), steps[1..], q, k);
      if SentIn(steps[1..], q, k) {
        var i :| 0 <= i < |steps[1..]| && Sends(steps[1..][i], q, k);
        assert Sends(steps[i + 1], q, k);
      } else {
        PresentStep(c, s, steps[0], q, k);
      }
    }
  }

  lemma FiledWasSent(c: Config, steps: seq<Step>, m: Packet)
    requires IsRun(c, Init, steps) && m in Final(c, Init, steps).filed
    ensures SentIn(steps, m.sender, m.dist)
  {
    assert m == Packet(m.to, m.sender, m.dist);
    assert Present(Final(c, Init, steps), m.sender, m.dist);
    PresentWasSent(c, Init, steps, m.sender, m.dist);
  }

  // ---------- Which identities a peer holds a key for ----------

  ghost predicate KeysMatch(c: Config, s: State) {
    && (forall x :: x in s.keys ==>
         s.keys[x] in s.filed && s.keys[x].to == x.0 && c.owner(s.keys[x].dist) == x.1)
    && (forall m :: m in s.filed ==> (m.to, c.owner(m.dist)) in s.keys)
  }

  lemma KeysMatchStep(c: Config, s: State, step: Step)
    requires KeysMatch(c, s) && Enabled(c, s, step)
    ensures KeysMatch(c, Next(c, s, step))
  {
    if Files(step) {
      var t, x := Next(c, s, step), (step.pkt.to, c.owner(step.pkt.dist));
      assert t.keys == s.keys[x := step.pkt] && t.filed == s.filed + {step.pkt};
    } else {
      assert Next(c, s, step).keys == s.keys && Next(c, s, step).filed == s.filed;
    }
  }

  lemma {:induction false} KeysMatchRun(c: Config, s: State, steps: seq<Step>)
    requires KeysMatch(c, s) && IsRun(c, s, steps)
    ensures KeysMatch(c, Final(c, s, steps))
    decreases |steps|
  {
    if steps != [] {
      KeysMatchStep(c, s, steps[0]);
      KeysMatchRun(c, Next(c, s, steps[0]), steps[1..]);
    }
  }

  /** In every run, at any moment: a peer holds a key for an identity exactly if it filed a payload
      that names this identity, whoever broadcast it. */
  lemma HeldExactly(c: Config, steps: seq<Step>, p: Peer, id: string)
    requires IsRun(c, Init, steps)
    ensures var s := Final(c, Init, steps);
            (p, id) in s.keys <==> exists m :: m in s.filed && m.to == p && c.owner(m.dist) == id
  {
    KeysMatchRun(c, Init, steps);
    var s := Final(c, Init, steps);
    if (p, id) in s.keys {
      assert s.keys[(p, id)] in s.filed;
    }
  }

  /** Every payload `q` broadcasts names `q`'s own identity, as `createDistributionMessage` does. */
  ghost predicate NamesItself(c: Config, steps: seq<Step>, q: Peer)
    requires q in c.ownId
  {
    forall k :: SentIn(steps, q, k) ==> c.owner(k) == c.ownId[q]
  }

  /** Completeness. Whatever the join and delivery order, and whatever the others broadcast: once
      nothing is pending each joined peer holds a key for the identity of each other joined peer that
      names itself; a failed processSenderKey costs its own pair only. */
  lemma Completeness(c: Config, steps: seq<Step>, p: Peer, q: Peer)
    requires c.Valid() && IsRun(c, Init, steps) && Quiescent(Final(c, Init, steps))
    requires p in Final(c, Init, steps).joined && q in Final(c, Init, steps).joined && p != q
    requires q in c.ownId && NamesItself(c, steps, q)
    ensures var s := Final(c, Init, steps);
            (p, c.ownId[q]) in s.keys || (p, q) in s.failed || (q, p) in s.failed
  {
    EveryPairExchanged(c, steps, p, q);
    var s := Final(c, Init, steps);
    if HasFiled(s, p, q) {
      var k :| Packet(p, q, k) in s.filed;
      FiledWasSent(c, steps, Packet(p, q, k));
      KeysMatchRun(c, Init, steps);
      assert c.owner(k) == c.ownId[q];
    }
  }

  /** Convergence. A run that can go no further, other than by a new join, has completed the exchange
      with every peer that names itself; and by Termination every run gets there. */
  lemma Convergence(c: Config, steps: seq<Step>, p: Peer, q: Peer)
    requires c.Valid() && c.payloads != {} && IsRun(c, Init, steps)
    requires forall step :: Enabled(c, Final(c, Init, steps), step) ==> step.Subscribe?
    requires p in Final(c, Init, steps).joined && q in Final(c, Init, steps).joined && p != q
    requires q in c.ownId && NamesItself(c, steps, q)
    ensures var s := Final(c, Init, steps);
            (p, c.ownId[q]) in s.keys || (p, q) in s.failed || (q, p) in s.failed
  {
    InvRun(c, Init, steps);
    if !Quiescent(Final(c, Init, steps)) {
      Progress(c, Final(c, Init, steps));
    }
    Completeness(c, steps, p, q);
  }

  // ---------- Authenticity ----------

  /** The identity the payload names is that of the peer that broadcast it. */
  predicate NamesBroadcaster(c: Config, m: Packet) {
    m.sender in c.ownId && c.ownId[m.sender] == c.owner(m.dist)
  }

  /** Every key held under an identity was broadcast by the peer with that identity. */
  ghost predicate Authentic(c: Config, s: State) {
    forall x :: x in s.keys ==> s.keys[x].sender in c.ownId && c.ownId[s.keys[x].sender] == x.1
  }

  ghost predicate AlwaysAuthentic(c: Config, s: State, steps: seq<Step>)
    requires IsRun(c, s, steps)
    decreases |steps|
  {
    Authentic(c, s) && (steps == [] || AlwaysAuthentic(c, Next(c, s, steps[0]), steps[1..]))
  }

  predicate FilesHonestly(c: Config, steps: seq<Step>) {
    forall i :: 0 <= i < |steps| && Files(steps[i]) ==> NamesBroadcaster(c, steps[i].pkt)
  }

  lemma AuthenticStep(c: Config, s: State, step: Step)
    requires Enabled(c, s, step) && Authentic(c, s)
    ensures Authentic(c, Next(c, s, step)) <==> (Files(step) ==> NamesBroadcaster(c, step.pkt))
  {
    if Files(step) {
      var t, x := Next(c, s, step), (step.pkt.to, c.owner(step.pkt.dist));
      assert t.keys == s.keys[x := step.pkt];
      assert forall y :: y in t.keys && y != x ==> y in s.keys && t.keys[y] == s.keys[y];
      assert x in t.keys && t.keys[x] == step.pkt;
    }
  }

  lemma {:induction false} AuthenticRun(c: Config, s: State, steps: seq<Step>)
    requires IsRun(c, s, steps) && Authentic(c, s)
    ensures AlwaysAuthentic(c, s, steps) <==> FilesHonestly(c, steps)
    decreases |steps|
  {
    if steps != [] {
      AuthenticStep(c, s, steps[0]);
      assert FilesHonestly(c, steps) <==>
             (Files(steps[0]) ==> NamesBroadcaster(c, steps[0].pkt)) && FilesHonestly(c, steps[1..]) by {
        assert steps == [steps[0]] + steps[1..];
      }
      if Authentic(c, Next(c, s, steps[0])) {
        AuthenticRun(c, Next(c, s, steps[0]), steps[1..]);
      }
    }
  }

  /** Authenticity, exactly: throughout a run every held key comes from the peer it is held for, if and
      only if every payload that is filed names its broadcaster. */
  lemma AuthenticExactly(c: Config, steps: seq<Step>)
    requires IsRun(c, Init, steps)
    ensures AlwaysAuthentic(c, Init, steps) <==> FilesHonestly(c, steps)
  {
    AuthenticRun(c, Init, steps);
  }

  lemma {:induction false} AuthenticAtEnd(c: Config, s: State, steps: seq<Step>)
    requires IsRun(c, s, steps) && AlwaysAuthentic(c, s, steps)
    ensures Authentic(c, Final(c, s, steps))
    decreases |steps|
  {
    if steps != [] {
      AuthenticAtEnd(c, Next(c, s, steps[0]), steps[1..]);
    }
  }

  /** Then a key held for `q` is a payload that `q` itself broadcast, if no two peers share an identity. */
  lemma KeyIsAuthentic(c: Config, steps: seq<Step>, p: Peer, q: Peer)
    requires IsRun(c, Init, steps) && FilesHonestly(c, steps)
    requires forall x, y :: x in c.ownId && y in c.ownId && c.ownId[x] == c.ownId[y] ==> x == y
    requires q in c.ownId && (p, c.ownId[q]) in Final(c, Init, steps).keys
    ensures SentIn(steps, q, Final(c, Init, steps).keys[(p, c.ownId[q])].dist)
  {
    AuthenticExactly(c, steps);
    AuthenticAtEnd(c, Init, steps);
    KeysMatchRun(c, Init, steps);
    FiledWasSent(c, steps, Final(c, Init, steps).keys[(p, c.ownId[q])]);
  }

  /** `p` and `r` join, and `r` broadcasts one payload, which `p` receives and absorbs. */
  function ShortExchange(p: Peer, r: Peer, k: Payload): seq<Step> {
    [Subscribe(p), Subscribe(r), Announce(r, k), Receive(Packet(p, r, k)), Absorb(Packet(p, r, k))]
  }

  lemma ShortExchangeRuns(c: Config, p: Peer, r: Peer, k: Payload)
    requires c.Valid() && {p, r} <= c.peers && p != r && k in c.payloads
    ensures IsRun(c, Init, ShortExchange(p, r, k))
    ensures var s := Final(c, Init, ShortExchange(p, r, k));
            (p, c.owner(k)) in s.keys && s.keys[(p, c.owner(k))] == Packet(p, r, k)
  {
    var m, steps := Packet(p, r, k), ShortExchange(p, r, k);
    var s1 := Next(c, Init, steps[0]);
    var s2 := Next(c, s1, steps[1]);
    var s3 := Next(c, s2, steps[2]);
    assert m in s3.net;
    var s4 := Next(c, s3, steps[3]);
    LastStep(c, s4, steps[4]);
    StepThenRun(c, s3, steps[3], steps[4..]);
    StepThenRun(c, s2, steps[2], steps[3..]);
    StepThenRun(c, s1, steps[1], steps[2..]);
    StepThenRun(c, Init, steps[0], steps[1..]);
    Suffixes(steps);
  }

  lemma Suffixes(steps: seq<Step>)
    requires |steps| == 5
    ensures [steps[0]] + steps[1..] == steps && [steps[1]] + steps[2..] == steps[1..]
    ensures [steps[2]] + steps[3..] == steps[2..] && [steps[3]] + steps[4..] == steps[3..]
    ensures [steps[4]] == steps[4..]
  {
  }

  /** Without the condition it fails, in every configuration with two peers and a payload of one of them
      that names a third: the third, who is not even there, is then held to have sent it. */
  lemma ForgedKeyExample(c: Config, p: Peer, q: Peer, r: Peer, k: Payload)
    requires c.Valid() && {p, q, r} <= c.peers && p != r && q != r
    requires k in c.payloads && c.owner(k) == c.ownId[q]
    ensures IsRun(c, Init, ShortExchange(p, r, k))
    ensures var s := Final(c, Init, ShortExchange(p, r, k));
            (p, c.ownId[q]) in s.keys && s.keys[(p, c.ownId[q])].dist == k
    ensures forall x :: !SentIn(ShortExchange(p, r, k), q, x)
  {
    ShortExchangeRuns(c, p, r, k);
    var steps := ShortExchange(p, r, k);
    forall x ensures !SentIn(steps, q, x) {
      assert forall i :: 0 <= i < 5 ==> !Sends(steps[i], q, x);
    }
  }

  /** Such a configuration, and the key `p` ends up holding for `q`. */
  lemma ForgedKeyInstance()
    ensures var c := Config({"p", "q", "r"}, map["p" := "P", "q" := "Q", "r" := "R"], {"x"}, _ => "Q");
            && IsRun(c, Init, ShortExchange("p", "r", "x"))
            && ("p", "Q") in Final(c, Init, ShortExchange("p", "r", "x")).keys
            && forall x :: !SentIn(ShortExchange("p", "r", "x"), "q", x)
  {
    var c := Config({"p", "q", "r"}, map["p" := "P", "q" := "Q", "r" := "R"], {"x"}, _ => "Q");
    ForgedKeyExample(c, "p", "q", "r", "x");
  }

  lemma LastStep(c: Config, s: State, step: Step)
    requires Enabled(c, s, step)
    ensures IsRun(c, s, [step]) && Final(c, s, [step]) == Next(c, s, step)
  {
    assert [step][1..] == [];
  }

  lemma StepThenRun(c: Config, s: State, step: Step, rest: seq<Step>)
    requires Enabled(c, s, step) && IsRun(c, Next(c, s, step), rest)
    ensures IsRun(c, s, [step] + rest) && Final(c, s, [step] + rest) == Final(c, Next(c, s, step), rest)
  {
    assert ([step] + rest)[1..] == rest;
  }
}
