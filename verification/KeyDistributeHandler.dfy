/** The `channel:key-distribute` handler as the client runs it, with its `seenDistributes` set of
    strings, proved to take exactly the steps of the exchange protocol. */
module KeyDistributeHandler {
  import opened SenderKeyExchange

  /** The remembered string `channel:sender:payload`. */
  function Remembered(channel: string, sender: Peer, dist: Payload): string {
    channel + ":" + sender + ":" + dist
  }

  predicate NoColon(s: string) {
    ':' !in s
  }

  /** A string has one split at its first colon. */
  lemma {:induction false} FirstColon(a: string, x: string, b: string, y: string)
    requires NoColon(a) && NoColon(b) && a + ":" + x == b + ":" + y
    ensures a == b && x == y
  {
    var s := a + ":" + x;
    assert s[|a|] == ':' && s[|b|] == ':';
    if a != "" && b != "" {
      assert s[0] == a[0] && s[0] == b[0];
      assert s[1..] == a[1..] + ":" + x && s[1..] == b[1..] + ":" + y;
      FirstColon(a[1..], x, b[1..], y);
    } else {
      assert a == b;
      assert x == s[1..] && y == s[1..];
    }
  }

  /** Two distributes are confused only if they are equal: payloads may hold colons, ids do not. */
  lemma RememberedInjective(c1: string, p1: Peer, k1: Payload, c2: string, p2: Peer, k2: Payload)
    requires NoColon(c1) && NoColon(p1) && NoColon(c2) && NoColon(p2)
    requires Remembered(c1, p1, k1) == Remembered(c2, p2, k2)
    ensures c1 == c2 && p1 == p2 && k1 == k2
  {
    assert Remembered(c1, p1, k1) == c1 + ":" + (p1 + ":" + k1);
    assert Remembered(c2, p2, k2) == c2 + ":" + (p2 + ":" + k2);
    FirstColon(c1, p1 + ":" + k1, c2, p2 + ":" + k2);
    FirstColon(p1, k1, p2, k2);
  }

  class Client {
    const user: Peer
    const ownId: string
    const owner: Payload -> string              // `JSON.parse(distribution).sender_id`
    var seenDistributes: set<string>
    var keys: map<(string, string), Payload>    // (channel, identity): memberSenderKeys

    constructor (user: Peer, ownId: string, owner: Payload -> string)
      ensures this.user == user && this.ownId == ownId && this.owner == owner
      ensures seenDistributes == {} && keys == map[]
    {
      this.user := user;
      this.ownId := ownId;
      this.owner := owner;
      seenDistributes := {};
      keys := map[];
    }

    /** This client is peer `user` of `channel`'s exchange, whose state is `s`. */
    ghost predicate Tracks(channel: string, c: Config, s: State)
      reads this
    {
      && NoColon(channel)
      && user in c.peers && user in c.ownId && c.ownId[user] == ownId && c.owner == owner
      && (forall p, k :: NoColon(p) ==>
           (Remembered(channel, p, k) in seenDistributes <==> (user, p, k) in s.seen))
      && (forall id :: (channel, id) in keys <==> (user, id) in s.keys)
      && (forall id :: (channel, id) in keys ==> keys[(channel, id)] == s.keys[(user, id)].dist)
    }

    /** The synchronous prefix: the readiness probes, the duplicate test and `seen.add`. */
    method OnDistribute(ready: bool, channel: string, sender: Peer, dist: Payload, ghost c: Config, ghost s: State)
      returns (isNew: bool)
      requires NoColon(sender) && Tracks(channel, c, s)
      requires Packet(user, sender, dist) in s.net
      modifies this`seenDistributes
      ensures !ready ==> !isNew && unchanged(this)
      ensures ready ==> Tracks(channel, c, Next(c, s, Receive(Packet(user, sender, dist))))
      ensures ready ==> (isNew <==> (user, sender, dist) !in s.seen)
      ensures forall ch, p, k :: ch != channel && NoColon(ch) && NoColon(p) ==>
                (Remembered(ch, p, k) in seenDistributes <==> Remembered(ch, p, k) in old(seenDistributes))
    {
      if !ready {
        return false;
      }
      var fp := Remembered(channel, sender, dist);
      isNew := fp !in seenDistributes;
      if isNew {
        seenDistributes := seenDistributes + {fp};
        forall ch, p, k | NoColon(ch) && NoColon(p) && Remembered(ch, p, k) == fp
          ensures ch == channel && p == sender && k == dist
        {
          RememberedInjective(ch, p, k, channel, sender, dist);
        }
      }
    }

    /** `processDistribution`: the key is filed under the identity its payload names, whoever sent it. */
    method FileSenderKey(channel: string, dist: Payload)
      modifies this`keys
      ensures keys == old(keys)[(channel, owner(dist)) := dist]
    {
      keys := keys[(channel, owner(dist)) := dist];
    }

    /** `processSenderKey`, which is not told the sender, and the decision to echo. `ok` says whether it
        returned, `stored` whether it filed the key before it threw. */
    method OnProcess(channel: string, sender: Peer, dist: Payload, ok: bool, stored: bool, ghost c: Config, ghost s: State)
      returns (echo: bool)
      requires Tracks(channel, c, s)
      requires Packet(user, sender, dist) in s.absorbing && Packet(user, sender, dist) !in s.echoing
      modifies this`keys
      ensures var m := Packet(user, sender, dist);
              var t := Next(c, s, if ok then Absorb(m) else AbsorbFail(m, stored));
              Tracks(channel, c, t) && (echo <==> m in t.echoing)
      ensures forall ch, id :: ch != channel ==>
                ((ch, id) in keys <==> (ch, id) in old(keys)) && ((ch, id) in keys ==> keys[(ch, id)] == old(keys)[(ch, id)])
    {
      if !ok {
        if stored { FileSenderKey(channel, dist); }
        return false;
      }
      FileSenderKey(channel, dist);
      if sender == "" || sender == ownId {
        return false;
      }
      return true;
    }
  }
}
