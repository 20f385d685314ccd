/** The exchange stops. The echo of each handler run could feed the next one forever; the seen-set
    alone, and not the self-sender test, bounds it. Nothing here asks for a valid configuration. */
module SenderKeyTermination {
  import opened Common
  import opened SenderKeyExchange

  /** Every fingerprint that peers of `c` can ever remember. */
  ghost function Fingerprints(c: Config): set<(Peer, Peer, Payload)> {
    set p, q, k | p in c.peers && q in c.peers && k in c.payloads :: (p, q, k)
  }

  /** What is still to happen, weighted so that each item outweighs all it can cause. */
  ghost function Measure(c: Config, s: State): nat {
    var n := |c.peers|;
    Weigh(n + 2, c.peers - s.joined) + Weigh(n + 1, s.unannounced) + |s.net|
    + Weigh(n + 2, s.absorbing) + Weigh(n + 1, s.echoing) + Weigh(n + 2, Fingerprints(c) - s.seen)
  }

  ghost function Weigh<T>(w: nat, xs: set<T>): nat { w * |xs| }

  lemma {:induction false} BroadcastSize(joined: set<Peer>, p: Peer, k: Payload)
    ensures |Broadcast(joined, p, k)| == |joined|
  {
    var all := set q | q in joined :: Packet(q, p, k);
    if joined == {} {
      assert all == {};
    } else {
      var r :| r in joined;
      BroadcastSize(joined - {r}, p, k);
      assert all == (set q | q in joined - {r} :: Packet(q, p, k)) + {Packet(r, p, k)};
    }
  }

  lemma {:induction false} SubsetSize<T>(small: set<T>, big: set<T>)
    requires small <= big
    ensures |small| <= |big|
  {
    assert |big| == |small| + |big - small| by { assert big == small + (big - small); }
  }

  /** Removing one element lowers a weighted count by one weight. */
  lemma Drop<T>(w: nat, xs: set<T>, x: T)
    requires x in xs
    ensures Weigh(w, xs) == Weigh(w, xs - {x}) + w
  {
    assert |xs| == |xs - {x}| + 1;
  }

  lemma MeasureReceive(c: Config, s: State, pkt: Packet)
    requires WellFormed(c, s) && pkt in s.net
    ensures Measure(c, Next(c, s, Receive(pkt))) < Measure(c, s)
  {
    var t, w, all := Next(c, s, Receive(pkt)), |c.peers| + 2, Fingerprints(c);
    if Fingerprint(pkt) !in s.seen {
      assert pkt !in s.absorbing;
      Drop(w, t.absorbing, pkt);
      assert t.absorbing - {pkt} == s.absorbing;
      Drop(w, all - s.seen, Fingerprint(pkt));
      assert all - t.seen == (all - s.seen) - {Fingerprint(pkt)};
    }
  }

  lemma BroadcastRoom(c: Config, s: State, p: Peer, k: Payload)
    requires s.joined <= c.peers
    ensures |s.net + Broadcast(s.joined, p, k)| <= |s.net| + |c.peers|
  {
    SubsetSize(s.joined, c.peers);
    BroadcastSize(s.joined, p, k);
  }

  lemma MeasureAnnounce(c: Config, s: State, p: Peer, k: Payload)
    requires WellFormed(c, s) && Enabled(c, s, Announce(p, k))
    ensures Measure(c, Next(c, s, Announce(p, k))) < Measure(c, s)
  {
    BroadcastRoom(c, s, p, k);
    Drop(|c.peers| + 1, s.unannounced, p);
  }

  lemma MeasureEcho(c: Config, s: State, pkt: Packet, k: Payload)
    requires WellFormed(c, s) && Enabled(c, s, Echo(pkt, k))
    ensures Measure(c, Next(c, s, Echo(pkt, k))) < Measure(c, s)
  {
    BroadcastRoom(c, s, pkt.to, k);
    Drop(|c.peers| + 1, s.echoing, pkt);
  }

  lemma MeasureAbsorb(c: Config, s: State, step: Step)
    requires WellFormed(c, s) && Enabled(c, s, step) && (step.Absorb? || step.AbsorbFail?)
    ensures Measure(c, Next(c, s, step)) < Measure(c, s)
  {
    var t, n := Next(c, s, step), |c.peers|;
    Drop(n + 2, s.absorbing, step.pkt);
    AddAtMostOne(n + 1, s.echoing, t.echoing, step.pkt);
  }

  lemma AddAtMostOne<T>(weight: nat, a: set<T>, b: set<T>, x: T)
    requires a <= b <= a + {x}
    ensures weight * |b| <= weight * |a| + weight
  {
    if a != b {
      Drop(weight, b, x);
      assert b - {x} == a;
    }
  }

  lemma MeasureSubscribe(c: Config, s: State, p: Peer)
    requires WellFormed(c, s) && Enabled(c, s, Subscribe(p))
    ensures Measure(c, Next(c, s, Subscribe(p))) < Measure(c, s)
  {
    var t, n := Next(c, s, Subscribe(p)), |c.peers|;
    assert c.peers - t.joined == (c.peers - s.joined) - {p};
    Drop(n + 2, c.peers - s.joined, p);
    Drop(n + 1, t.unannounced, p);
    assert t.unannounced - {p} == s.unannounced;
  }

  /** Every step, of every kind, strictly lowers the measure. */
  lemma MeasureFalls(c: Config, s: State, step: Step)
    requires WellFormed(c, s) && Enabled(c, s, step)
    ensures Measure(c, Next(c, s, step)) < Measure(c, s)
  {
    match step
    case Subscribe(p) => MeasureSubscribe(c, s, p);
    case Announce(p, k) => MeasureAnnounce(c, s, p, k);
    case Receive(pkt) => MeasureReceive(c, s, pkt);
    case Absorb(_) => MeasureAbsorb(c, s, step);
    case AbsorbFail(_, _) => MeasureAbsorb(c, s, step);
    case Echo(pkt, k) => MeasureEcho(c, s, pkt, k);
  }

  lemma {:induction false} RunIsShort(c: Config, s: State, steps: seq<Step>)
    requires WellFormed(c, s) && IsRun(c, s, steps)
    ensures |steps| + Measure(c, Final(c, s, steps)) <= Measure(c, s)
    decreases |steps|
  {
    if steps != [] {
      WellFormedStep(c, s, steps[0]);
      MeasureFalls(c, s, steps[0]);
      RunIsShort(c, Next(c, s, steps[0]), steps[1..]);
    }
  }

  lemma FingerprintCount(c: Config)
    ensures |Fingerprints(c)| == |c.peers| * |c.peers| * |c.payloads|
  {
    var pq := Pairs(c.peers, c.peers);
    PairsSize(c.peers, c.peers);
    PairsSize(pq, c.payloads);
    Flatten(Pairs(pq, c.payloads), Fingerprints(c));
  }

  /** `((p, q), k)` and `(p, q, k)` count alike. */
  lemma {:induction false} Flatten(nested: set<((Peer, Peer), Payload)>, flat: set<(Peer, Peer, Payload)>)
    requires forall p, q, k :: ((p, q), k) in nested <==> (p, q, k) in flat
    ensures |nested| == |flat|
  {
    if nested == {} {
      assert forall x :: x in flat ==> ((x.0, x.1), x.2) in nested;
      assert flat == {};
    } else {
      var y :| y in nested;
      var x := (y.0.0, y.0.1, y.1);
      assert y == ((x.0, x.1), x.2) && x in flat;
      Flatten(nested - {y}, flat - {x});
    }
  }

  lemma InitialMeasure(c: Config)
    ensures Measure(c, Init) == (|c.peers| + 2) * (|c.peers| + |Fingerprints(c)|)
  {
    assert c.peers - {} == c.peers && Fingerprints(c) - {} == Fingerprints(c);
    Distribute(|c.peers| + 2, |c.peers|, |Fingerprints(c)|);
    Distribute(|c.peers| + 1, 0, 0);
  }

  lemma Distribute(w: nat, x: nat, y: nat)
    ensures w * x + w * y == w * (x + y)
  {
  }

  /** Termination. With n peers and m payloads no schedule of joins, deliveries, absorbs and echoes
      is longer than (n+2)·(n + n·n·m) steps. */
  lemma Termination(c: Config, steps: seq<Step>)
    requires IsRun(c, Init, steps)
    ensures var n := |c.peers|; |steps| <= (n + 2) * (n + n * n * |c.payloads|)
  {
    RunIsShort(c, Init, steps);
    InitialMeasure(c);
    FingerprintCount(c);
  }

  /** Nothing gets stuck: while anything is pending some step other than a join is enabled. */
  lemma Progress(c: Config, s: State)
    requires c.Valid() && WellFormed(c, s) && c.payloads != {} && !Quiescent(s)
    ensures exists step :: Enabled(c, s, step) && !step.Subscribe?
  {
    var k :| k in c.payloads;
    if s.unannounced != {} {
      var p :| p in s.unannounced;
      assert Enabled(c, s, Announce(p, k));
    } else if s.absorbing != {} {
      var pkt :| pkt in s.absorbing;
      assert Fingerprint(pkt).0 in s.joined;
      assert Enabled(c, s, Absorb(pkt));
    } else if s.echoing != {} {
      var pkt :| pkt in s.echoing;
      assert Enabled(c, s, Echo(pkt, k));
    } else {
      var pkt :| pkt in s.net;
      assert Enabled(c, s, Receive(pkt));
    }
  }

  // ---------- Echoes ----------

  predicate Spent(s: State, pkt: Packet) {
    Fingerprint(pkt) in s.seen && pkt !in s.absorbing && pkt !in s.echoing
  }

  lemma {:induction false} SpentNeverEchoes(c: Config, s: State, steps: seq<Step>, pkt: Packet, i: nat)
    requires IsRun(c, s, steps) && Spent(s, pkt) && i < |steps|
    ensures !(steps[i].Echo? && steps[i].pkt == pkt)
    decreases i
  {
    if i > 0 {
      SpentNeverEchoes(c, Next(c, s, steps[0]), steps[1..], pkt, i - 1);
    }
  }

  /** Each distinct (receiver, sender, payload) is echoed at most once in a whole run, so a peer
      never echoes more often than there are distinct payloads from its senders. */
  lemma {:induction false} EchoedOnce(c: Config, s: State, steps: seq<Step>, i: nat, j: nat)
    requires WellFormed(c, s) && IsRun(c, s, steps) && i < j < |steps|
    requires steps[i].Echo? && steps[j].Echo?
    ensures steps[i].pkt != steps[j].pkt
    decreases i
  {
    var t := Next(c, s, steps[0]);
    if i > 0 {
      WellFormedStep(c, s, steps[0]);
      EchoedOnce(c, t, steps[1..], i - 1, j - 1);
    } else if steps[i].pkt == steps[j].pkt {
      SpentNeverEchoes(c, t, steps[1..], steps[i].pkt, j - 1);
    }
  }

  /** Nobody echoes its own identity, an unnamed sender, or a payload it did not absorb first: every echo
      follows the successful processing of that packet, from a named sender other than the peer itself. */
  lemma {:induction false} EchoFollowsAbsorb(c: Config, s: State, steps: seq<Step>, i: nat)
    requires IsRun(c, s, steps) && i < |steps| && steps[i].Echo?
    ensures var pkt := steps[i].pkt;
            || pkt in s.echoing
            || exists j :: 0 <= j < i && steps[j] == Absorb(pkt)
                 && pkt.sender != "" && pkt.to in c.ownId && pkt.sender != c.ownId[pkt.to]
    decreases i
  {
    if i > 0 {
      var pkt, t := steps[i].pkt, Next(c, s, steps[0]);
      EchoFollowsAbsorb(c, t, steps[1..], i - 1);
      if pkt in t.echoing && pkt !in s.echoing {
        assert steps[0] == Absorb(pkt);
      } else if pkt !in t.echoing {
        var j :| 0 <= j < i - 1 && steps[1..][j] == Absorb(pkt);
        assert steps[j + 1] == Absorb(pkt);
      }
    }
  }
}
