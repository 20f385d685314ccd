/** Runs of the sent-plaintext cache: its bound, exactly how long an entry survives, and what the first echo of
    an own message and the later reads of it give. */
module SentCache {
  import opened Common
  import opened DecryptionCaches

  // ---------- The bound ----------

  lemma RemoveFirst(m: Entries)
    requires m != []
    ensures Remove(m, m[0].0) == m[1..]
  {
    assert IndexOf(m, m[0].0) == 0;
  }

  /** `encryptChannel` returns the base64 of a JSON text, which is never empty; the guard before the
      eviction is then always passed. */
  predicate NoEmptyCiphertext(events: seq<Event>) {
    forall i :: 0 <= i < |events| && events[i].Encrypt? ==> events[i].ciphertext != ""
  }

  ghost predicate Bounded(m: Entries) {
    |m| <= 200 && forall i :: 0 <= i < |m| ==> m[i].0 != ""
  }

  lemma PutBounded(m: Entries, key: string, value: string)
    requires Bounded(m) && key != ""
    ensures |Put(m, key, value)| <= |m| + 1
    ensures forall i :: 0 <= i < |Put(m, key, value)| ==> Put(m, key, value)[i].0 != ""
  {
  }

  lemma BoundedStep(c: Caches, e: Event)
    requires Bounded(c.sent) && (e.Encrypt? ==> e.ciphertext != "")
    ensures Bounded(Next(c, e).sent)
  {
    if e.Encrypt? {
      PutBounded(c.sent, e.ciphertext, e.plaintext);
      RemoveFirst(Put(c.sent, e.ciphertext, e.plaintext));
    }
  }

  lemma {:induction false} BoundedRun(c: Caches, events: seq<Event>)
    requires Bounded(c.sent) && NoEmptyCiphertext(events)
    ensures Bounded(After(c, events).sent)
    decreases |events|
  {
    if events != [] {
      BoundedStep(c, events[0]);
      BoundedRun(Next(c, events[0]), events[1..]);
    }
  }

  /** The sent cache never exceeds 200 entries. */
  lemma SentCacheBounded(events: seq<Event>)
    requires NoEmptyCiphertext(events)
    ensures |After(Start, events).sent| <= 200
  {
    BoundedRun(Start, events);
  }

  /** One send for each (ciphertext, plaintext). */
  function SendAll(pairs: Entries): seq<Event> {
    if pairs == [] then [] else [Encrypt(pairs[0].1, pairs[0].0)] + SendAll(pairs[1..])
  }

  function RememberAll(m: Entries, pairs: Entries): Entries
    decreases |pairs|
  {
    if pairs == [] then m else RememberAll(Remember(m, pairs[0].0, pairs[0].1), pairs[1..])
  }

  lemma {:induction false} AfterSendAll(c: Caches, pairs: Entries)
    ensures After(c, SendAll(pairs)) == c.(sent := RememberAll(c.sent, pairs))
    decreases |pairs|
  {
    if pairs != [] {
      var send := Encrypt(pairs[0].1, pairs[0].0);
      assert SendAll(pairs)[0] == send && SendAll(pairs)[1..] == SendAll(pairs[1..]);
      AfterSendAll(Next(c, send), pairs[1..]);
    }
  }

  lemma PutNew(m: Entries, pairs: Entries)
    requires pairs != [] && UniqueKeys(m + pairs)
    ensures Put(m, pairs[0].0, pairs[0].1) == m + [pairs[0]]
    ensures m + pairs == m + [pairs[0]] + pairs[1..]
  {
    var all := m + pairs;
    assert all[|m|] == pairs[0];
    assert forall i :: 0 <= i < |m| ==> all[i].0 == m[i].0;
  }

  // ---------- How long an entry survives ----------

  /** `(key, value)` is in the map, under no other value, with at most `n` entries after it. */
  ghost predicate AtDepth(m: Entries, key: string, value: string, n: nat) {
    exists i :: 0 <= i < |m| && EntryAt(m, i, key, value) && |m| - 1 - i <= n
  }

  predicate EntryAt(m: Entries, i: nat, key: string, value: string)
    requires i < |m|
  {
    m[i] == (key, value) && forall j :: 0 <= j < |m| && j != i ==> m[j].0 != key
  }

  lemma DepthFound(m: Entries, key: string, value: string, n: nat)
    requires AtDepth(m, key, value, n)
    ensures Has(m, key) && Get(m, key) == Some(value)
  {
  }

  lemma DepthAfterRemove(m: Entries, key: string, value: string, n: nat, other: string)
    requires AtDepth(m, key, value, n) && other != key
    ensures AtDepth(Remove(m, other), key, value, n)
  {
    var i :| 0 <= i < |m| && EntryAt(m, i, key, value) && |m| - 1 - i <= n;
    if Has(m, other) {
      var i' := if IndexOf(m, other) < i then i - 1 else i;
      assert EntryAt(Remove(m, other), i', key, value);
    }
  }

  lemma DepthAfterPut(m: Entries, key: string, value: string, n: nat, other: string, v: string)
    requires AtDepth(m, key, value, n) && other != key
    ensures AtDepth(Put(m, other, v), key, value, n + 1)
  {
    var i :| 0 <= i < |m| && EntryAt(m, i, key, value) && |m| - 1 - i <= n;
    assert EntryAt(Put(m, other, v), i, key, value);
  }

  lemma DepthAfterRemember(m: Entries, key: string, value: string, n: nat, other: string, v: string)
    requires AtDepth(m, key, value, n) && other != key && n + 1 < MAX_SENT_CACHE
    ensures AtDepth(Remember(m, other, v), key, value, n + 1)
  {
    var more := Put(m, other, v);
    DepthAfterPut(m, key, value, n, other, v);
    if |more| > MAX_SENT_CACHE && more[0].0 != "" {
      var i :| 0 <= i < |more| && EntryAt(more, i, key, value) && |more| - 1 - i <= n + 1;
      assert i > 0;
      DepthAfterRemove(more, key, value, n + 1, more[0].0);
    }
  }

  function Encryptions(events: seq<Event>): nat {
    if events == [] then 0 else (if events[0].Encrypt? then 1 else 0) + Encryptions(events[1..])
  }

  /** Nobody sends or reads this ciphertext. */
  predicate LeavesAlone(events: seq<Event>, key: string) {
    forall i :: 0 <= i < |events| ==>
      && (events[i].Encrypt? ==> events[i].ciphertext != key)
      && (events[i].Decrypt? ==> events[i].content != key)
  }

  /** With fewer than 200 later sends in between, an entry is still there. */
  lemma {:induction false} Survives(c: Caches, events: seq<Event>, key: string, value: string, n: nat)
    requires AtDepth(c.sent, key, value, n) && n + Encryptions(events) < MAX_SENT_CACHE && LeavesAlone(events, key)
    ensures AtDepth(After(c, events).sent, key, value, n + Encryptions(events))
    decreases |events|
  {
    if events != [] {
      var e := events[0];
      DepthStep(c, e, key, value, n);
      assert LeavesAlone(events[1..], key);
      Survives(Next(c, e), events[1..], key, value, if e.Encrypt? then n + 1 else n);
    }
  }

  lemma DepthStep(c: Caches, e: Event, key: string, value: string, n: nat)
    requires AtDepth(c.sent, key, value, n) && LeavesAlone([e], key)
    requires e.Encrypt? ==> n + 1 < MAX_SENT_CACHE
    ensures AtDepth(Next(c, e).sent, key, value, if e.Encrypt? then n + 1 else n)
  {
    assert [e][0] == e;
    if e.Encrypt? {
      DepthAfterRemember(c.sent, key, value, n, e.ciphertext, e.plaintext);
    } else if e.Decrypt? {
      DepthAfterRemove(c.sent, key, value, n, e.content);
    }
  }

  lemma SendIsNewest(c: Caches, ciphertext: string, plaintext: string)
    requires Bounded(c.sent) && !Has(c.sent, ciphertext)
    ensures AtDepth(Next(c, Encrypt(plaintext, ciphertext)).sent, ciphertext, plaintext, 0)
  {
    var more := c.sent + [(ciphertext, plaintext)];
    RemoveFirst(more);
    NewestAt(c.sent, ciphertext, plaintext);
  }

  lemma NewestAt(m: Entries, ciphertext: string, plaintext: string)
    requires !Has(m, ciphertext)
    ensures var more := m + [(ciphertext, plaintext)];
            && EntryAt(more, |m|, ciphertext, plaintext) && AtDepth(more, ciphertext, plaintext, 0)
            && (m != [] ==> EntryAt(more[1..], |m| - 1, ciphertext, plaintext) && AtDepth(more[1..], ciphertext, plaintext, 0))
  {
    var more := m + [(ciphertext, plaintext)];
    assert EntryAt(more, |m|, ciphertext, plaintext);
    if m != [] {
      assert forall j :: 0 <= j < |m| ==> more[1..][j] == more[j + 1];
      assert EntryAt(more[1..], |m| - 1, ciphertext, plaintext);
    }
  }

  lemma EchoAnswer(truth: map<string, string>, c: Caches, n: nat, ciphertext: string,
                   id: string, ch: string, unlocked: bool, w: World)
    requires "" !in truth && Truthful(truth, c) && ciphertext in truth && w.readOk && w.writeOk
    requires AtDepth(c.sent, ciphertext, truth[ciphertext], n)
    ensures Read(c, id, ciphertext, ch, unlocked, w).outcome == Text(truth[ciphertext])
  {
    DepthFound(c.sent, ciphertext, truth[ciphertext], n);
  }

  /** The first echo of an own message gives its plaintext back, after any run in between with fewer
      than 200 further sends, whatever is read, unlocked or dropped meanwhile. */
  lemma FirstEcho(truth: map<string, string>, before: seq<Event>, ciphertext: string,
                  between: seq<Event>, id: string, ch: string, unlocked: bool, w: World)
    requires "" !in truth && AllHonest(truth, before) && AllHonest(truth, between) && NoEmptyCiphertext(before)
    requires ciphertext in truth && !Has(After(Start, before).sent, ciphertext)
    requires LeavesAlone(between, ciphertext) && Encryptions(between) < 200
    requires w.readOk && w.writeOk
    ensures var c := After(Next(After(Start, before), Encrypt(truth[ciphertext], ciphertext)), between);
            Read(c, id, ciphertext, ch, unlocked, w).outcome == Text(truth[ciphertext])
  {
    var c0, send := After(Start, before), Encrypt(truth[ciphertext], ciphertext);
    TruthfulRun(truth, Start, before);
    TruthfulStep(truth, c0, send);
    TruthfulRun(truth, Next(c0, send), between);
    BoundedRun(Start, before);
    SendIsNewest(c0, ciphertext, truth[ciphertext]);
    Survives(Next(c0, send), between, ciphertext, truth[ciphertext], 0);
    EchoAnswer(truth, After(Next(c0, send), between), Encryptions(between), ciphertext, id, ch, unlocked, w);
  }

  function Latest(m: Entries): Entries {
    if |m| <= 200 then m else m[|m| - 200..]
  }

  lemma RememberIsLatest(m: Entries, x: (string, string))
    requires Bounded(m) && x.0 != "" && Put(m, x.0, x.1) == m + [x]
    ensures Remember(m, x.0, x.1) == Latest(m + [x])
  {
    var more := m + [x];
    assert more[0] == if m == [] then x else m[0];
    RemoveFirst(more);
    if |more| > MAX_SENT_CACHE {
      assert |more| - MAX_SENT_CACHE == 1;
    }
  }

  lemma LatestBounded(m: Entries)
    requires forall i :: 0 <= i < |m| ==> m[i].0 != ""
    ensures Bounded(Latest(m))
  {
  }

  lemma {:induction false} RememberLatest(m: Entries, pairs: Entries)
    requires Bounded(m) && UniqueKeys(m + pairs) && forall i :: 0 <= i < |pairs| ==> pairs[i].0 != ""
    ensures RememberAll(m, pairs) == Latest(m + pairs)
    decreases |pairs|
  {
    if pairs == [] {
      assert m + pairs == m;
    } else {
      var more := m + [pairs[0]];
      PutNew(m, pairs);
      RememberIsLatest(m, pairs[0]);
      LatestBounded(more);
      LatestLatest(more, pairs[1..]);
      LatestUnique(more, pairs[1..]);
      RememberLatest(Latest(more), pairs[1..]);
    }
  }

  lemma LatestUnique(x: Entries, y: Entries)
    requires UniqueKeys(x + y)
    ensures UniqueKeys(Latest(x) + y)
  {
    assert Latest(x) + y == (x + y)[|x| - |Latest(x)|..];
  }

  /** From any bounded cache, sends with new ciphertexts leave the last 200 of everything sent. */
  lemma SendsKeepTheLatest(c: Caches, pairs: Entries)
    requires Bounded(c.sent) && UniqueKeys(c.sent + pairs) && forall i :: 0 <= i < |pairs| ==> pairs[i].0 != ""
    ensures After(c, SendAll(pairs)).sent == Latest(c.sent + pairs)
  {
    AfterSendAll(c, pairs);
    RememberLatest(c.sent, pairs);
  }

  lemma LatestLatest(x: Entries, y: Entries)
    ensures Latest(Latest(x) + y) == Latest(x + y)
  {
    assert Latest(x) + y == (x + y)[|x| - |Latest(x)|..];
  }

  // ---------- Exactly when an entry is lost ----------

  predicate Within(m: Entries, used: set<string>) {
    forall i :: 0 <= i < |m| ==> m[i].0 in used
  }

  /** Every send brings a ciphertext that was not used before. */
  predicate FreshSends(used: set<string>, events: seq<Event>)
    decreases |events|
  {
    events == [] || (
      if events[0].Encrypt? then
        events[0].ciphertext != "" && events[0].ciphertext !in used && FreshSends(used + {events[0].ciphertext}, events[1..])
      else FreshSends(used, events[1..]))
  }

  /** The messages sent since and not read back yet: a send adds one, and a read that gets as far as
      the sent cache takes its own away. */
  function WaitingNext(c: Caches, waiting: Entries, e: Event): Entries {
    match e
    case Encrypt(plaintext, ciphertext) => waiting + [(ciphertext, plaintext)]
    case Decrypt(id, content, _, _, w) =>
      if w.readOk && Cached(c, id, content).None? then Remove(waiting, content) else waiting
    case _ => waiting
  }

  /** At no time are 200 messages waiting. */
  predicate NeverCrowded(c: Caches, waiting: Entries, events: seq<Event>)
    decreases |events|
  {
    |waiting| < 200
    && (events == [] || NeverCrowded(Next(c, events[0]), WaitingNext(c, waiting, events[0]), events[1..]))
  }

  /** The entry at position `i` is `key`'s, and `waiting` are the entries after it. */
  ghost predicate Precedes(m: Entries, i: nat, key: string, waiting: Entries) {
    i < |m| && m[i].0 == key && m[i + 1..] == waiting && UniqueKeys(m)
  }

  function WithoutAt(m: Entries, k: nat): Entries
    requires k < |m|
  {
    m[..k] + m[k + 1..]
  }

  lemma WithoutAtUnique(m: Entries, k: nat)
    requires UniqueKeys(m) && k < |m|
    ensures UniqueKeys(WithoutAt(m, k))
    ensures forall j :: 0 <= j < |m| - 1 ==> WithoutAt(m, k)[j].0 != m[k].0
  {
    var r := WithoutAt(m, k);
    forall p, q | 0 <= p < q < |r| ensures r[p].0 != r[q].0 {
      assert r[p] == m[if p < k then p else p + 1] && r[q] == m[if q < k then q else q + 1];
    }
    forall j | 0 <= j < |m| - 1 ensures r[j].0 != m[k].0 {
      assert r[j] == m[if j < k then j else j + 1];
    }
  }

  lemma RemoveUnique(m: Entries, key: string)
    requires UniqueKeys(m)
    ensures UniqueKeys(Remove(m, key))
  {
    if Has(m, key) { WithoutAtUnique(m, IndexOf(m, key)); }
  }

  lemma IndexUnique(m: Entries, k: nat)
    requires UniqueKeys(m) && k < |m|
    ensures Has(m, m[k].0) && IndexOf(m, m[k].0) == k
  {
    var j := IndexOf(m, m[k].0);
    assert m[j].0 == m[k].0;
  }

  lemma TakeBefore(m: Entries, i: nat, key: string, waiting: Entries, k: nat)
    requires Precedes(m, i, key, waiting) && k < i
    ensures Precedes(WithoutAt(m, k), i - 1, key, waiting) && !Has(waiting, m[k].0)
  {
    var r := WithoutAt(m, k);
    WithoutAtUnique(m, k);
    assert r[i - 1] == m[i] && r[i..] == m[i + 1..];
    assert forall j :: 0 <= j < |waiting| ==> waiting[j] == m[i + 1 + j];
  }

  lemma TakeAfter(m: Entries, i: nat, key: string, waiting: Entries, k: nat)
    requires Precedes(m, i, key, waiting) && i < k < |m|
    ensures Precedes(WithoutAt(m, k), i, key, Remove(waiting, m[k].0))
  {
    var r, l := WithoutAt(m, k), k - i - 1;
    assert waiting[l] == m[k];
    WithoutAtUnique(m, k);
    TailUnique(m, i + 1);
    IndexUnique(waiting, l);
    assert r[i] == m[i];
    TailWithout(m, i + 1, l);
  }

  lemma TailWithout(m: Entries, from: nat, l: nat)
    requires from + l < |m|
    ensures WithoutAt(m, from + l)[from..] == WithoutAt(m[from..], l)
  {
  }

  /** A read of another message takes an entry before `key`'s, or one that was waiting. */
  lemma TakePrecedes(m: Entries, i: nat, key: string, waiting: Entries, content: string)
    requires Precedes(m, i, key, waiting) && content != key
    ensures exists i' :: Precedes(Remove(m, content), i', key, Remove(waiting, content))
  {
    if Has(m, content) {
      var k := IndexOf(m, content);
      assert Remove(m, content) == WithoutAt(m, k) && k != i;
      if k < i {
        TakeBefore(m, i, key, waiting, k);
        assert Precedes(Remove(m, content), i - 1, key, Remove(waiting, content));
      } else {
        TakeAfter(m, i, key, waiting, k);
        assert Precedes(Remove(m, content), i, key, Remove(waiting, content));
      }
    } else {
      assert forall j :: 0 <= j < |waiting| ==> waiting[j] == m[i + 1 + j];
      assert !Has(waiting, content);
      assert Precedes(Remove(m, content), i, key, Remove(waiting, content));
    }
  }

  lemma TailUnique(m: Entries, i: nat)
    requires UniqueKeys(m) && i <= |m|
    ensures UniqueKeys(m[i..])
  {
  }

  lemma AppendUnique(m: Entries, x: (string, string))
    requires UniqueKeys(m) && !Has(m, x.0)
    ensures UniqueKeys(m + [x])
  {
  }

  /** A send adds one to those waiting; it evicts `key` exactly if they become 200. */
  lemma SendPrecedes(m: Entries, i: nat, key: string, waiting: Entries, ciphertext: string, plaintext: string)
    requires Bounded(m) && Precedes(m, i, key, waiting) && !Has(m, ciphertext)
    ensures var m', next := Remember(m, ciphertext, plaintext), waiting + [(ciphertext, plaintext)];
            if |next| < MAX_SENT_CACHE then exists i' :: Precedes(m', i', key, next) else !Has(m', key)
  {
    var x := (ciphertext, plaintext);
    var more, next := m + [x], waiting + [x];
    AppendUnique(m, x);
    assert more[i] == m[i] && more[i + 1..] == next;
    assert Precedes(more, i, key, next);
    RemoveFirst(more);
    assert Put(m, ciphertext, plaintext) == more && more[0] == m[0];
    if |more| > MAX_SENT_CACHE {
      TailUnique(more, 1);
      assert Remember(m, ciphertext, plaintext) == more[1..];
      if i > 0 {
        assert more[1..][i - 1] == more[i] && more[1..][i..] == next;
        assert Precedes(Remember(m, ciphertext, plaintext), i - 1, key, next);
      } else {
        assert forall j :: 0 <= j < |more| - 1 ==> more[1..][j] == more[j + 1];
      }
    } else {
      assert Precedes(Remember(m, ciphertext, plaintext), i, key, next);
    }
  }

  lemma PutWithin(m: Entries, key: string, value: string, used: set<string>)
    requires Within(m, used)
    ensures Within(Put(m, key, value), used + {key})
  {
  }

  lemma RemoveWithin(m: Entries, key: string, used: set<string>)
    requires Within(m, used)
    ensures Within(Remove(m, key), used)
  {
  }

  function UsedNext(used: set<string>, e: Event): set<string> {
    if e.Encrypt? then used + {e.ciphertext} else used
  }

  lemma WithinStep(c: Caches, e: Event, used: set<string>)
    requires Within(c.sent, used)
    ensures Within(Next(c, e).sent, UsedNext(used, e))
  {
    if e.Encrypt? {
      var more := Put(c.sent, e.ciphertext, e.plaintext);
      PutWithin(c.sent, e.ciphertext, e.plaintext, used);
      RemoveWithin(more, more[0].0, UsedNext(used, e));
    } else if e.Decrypt? {
      RemoveWithin(c.sent, e.content, used);
    }
  }

  lemma GoneStep(c: Caches, e: Event, key: string)
    requires !Has(c.sent, key) && (e.Encrypt? ==> e.ciphertext != key)
    ensures !Has(Next(c, e).sent, key)
  {
    if e.Encrypt? {
      var more := Put(c.sent, e.ciphertext, e.plaintext);
      assert !Has(more, key);
      RemoveKeepsOut(more, more[0].0, key);
    } else if e.Decrypt? {
      RemoveKeepsOut(c.sent, e.content, key);
    }
  }

  lemma RemoveKeepsOut(m: Entries, other: string, key: string)
    requires !Has(m, key)
    ensures !Has(Remove(m, other), key)
  {
    if Has(m, other) {
      var k, r := IndexOf(m, other), Remove(m, other);
      forall j | 0 <= j < |r| ensures r[j].0 != key {
        assert r[j] == m[if j < k then j else j + 1];
      }
    }
  }

  lemma {:induction false} GoneStaysGone(c: Caches, events: seq<Event>, key: string)
    requires !Has(c.sent, key) && LeavesAlone(events, key)
    ensures !Has(After(c, events).sent, key)
    decreases |events|
  {
    if events != [] {
      assert events[0].Encrypt? ==> events[0].ciphertext != key;
      GoneStep(c, events[0], key);
      GoneStaysGone(Next(c, events[0]), events[1..], key);
    }
  }

  lemma LostStep(c: Caches, used: set<string>, i: nat, key: string, waiting: Entries, e: Event)
    requires Bounded(c.sent) && Precedes(c.sent, i, key, waiting) && Within(c.sent, used)
    requires e.Encrypt? ==> e.ciphertext !in used
    requires e.Decrypt? ==> e.content != key
    ensures var next := WaitingNext(c, waiting, e);
            if |next| < MAX_SENT_CACHE then exists i' :: Precedes(Next(c, e).sent, i', key, next)
            else !Has(Next(c, e).sent, key)
  {
    if e.Encrypt? {
      assert !Has(c.sent, e.ciphertext);
      assert Next(c, e).sent == Remember(c.sent, e.ciphertext, e.plaintext);
      SendPrecedes(c.sent, i, key, waiting, e.ciphertext, e.plaintext);
    } else if e.Decrypt? && e.w.readOk && Cached(c, e.id, e.content).None? {
      assert Next(c, e).sent == Remove(c.sent, e.content);
      TakePrecedes(c.sent, i, key, waiting, e.content);
      RemoveShrinks(waiting, e.content);
    } else {
      assert Precedes(Next(c, e).sent, i, key, waiting);
    }
  }

  lemma RemoveShrinks(m: Entries, key: string)
    ensures |Remove(m, key)| <= |m|
  {
  }

  lemma {:induction false} LostExactly(c: Caches, used: set<string>, i: nat, key: string, waiting: Entries, events: seq<Event>)
    requires Bounded(c.sent) && Precedes(c.sent, i, key, waiting) && Within(c.sent, used)
    requires FreshSends(used, events) && LeavesAlone(events, key)
    ensures Has(After(c, events).sent, key) <==> NeverCrowded(c, waiting, events)
    decreases |events|
  {
    if events != [] {
      var e, c', next := events[0], Next(c, events[0]), WaitingNext(c, waiting, events[0]);
      assert (e.Encrypt? ==> e.ciphertext != key) && (e.Decrypt? ==> e.content != key);
      LostStep(c, used, i, key, waiting, e);
      BoundedStep(c, e);
      WithinStep(c, e, used);
      assert LeavesAlone(events[1..], key);
      if |next| < MAX_SENT_CACHE {
        var i' :| Precedes(c'.sent, i', key, next);
        LostExactly(c', UsedNext(used, e), i', key, next, events[1..]);
      } else {
        GoneStaysGone(c', events[1..], key);
      }
    }
  }

  /** Exactly when the first echo finds its entry: after a send, over any run of further sends with
      unused ciphertexts, reads and other events, the entry is still there if and only if at no time
      200 later messages were waiting for their own echo. */
  lemma EchoLostExactly(before: seq<Event>, plaintext: string, key: string, between: seq<Event>, used: set<string>)
    requires NoEmptyCiphertext(before) && key != "" && !Has(After(Start, before).sent, key)
    requires Within(After(Start, before).sent, used) && FreshSends(used + {key}, between) && LeavesAlone(between, key)
    ensures var c := Next(After(Start, before), Encrypt(plaintext, key));
            Has(After(c, between).sent, key) <==> NeverCrowded(c, [], between)
  {
    var c0, send := After(Start, before), Encrypt(plaintext, key);
    var c := Next(c0, send);
    BoundedRun(Start, before);
    UniqueRun(Start, before);
    BoundedStep(c0, send);
    RememberUnique(c0.sent, key, plaintext);
    WithinStep(c0, send, used);
    SendIsNewest(c0, key, plaintext);
    var i :| 0 <= i < |c.sent| && EntryAt(c.sent, i, key, plaintext) && |c.sent| - 1 - i <= 0;
    LostExactly(c, used + {key}, i, key, [], between);
  }

  lemma RememberUnique(m: Entries, key: string, value: string)
    requires UniqueKeys(m)
    ensures UniqueKeys(Remember(m, key, value))
  {
    var more := Put(m, key, value);
    PutUnique(m, key, value);
    if |more| > MAX_SENT_CACHE { RemoveUnique(more, more[0].0); }
  }

  lemma PutUnique(m: Entries, key: string, value: string)
    requires UniqueKeys(m)
    ensures UniqueKeys(Put(m, key, value))
  {
    if !Has(m, key) { AppendUnique(m, (key, value)); }
  }

  lemma UniqueStep(c: Caches, e: Event)
    requires UniqueKeys(c.sent)
    ensures UniqueKeys(Next(c, e).sent)
  {
    if e.Encrypt? { RememberUnique(c.sent, e.ciphertext, e.plaintext); }
    if e.Decrypt? { RemoveUnique(c.sent, e.content); }
  }

  lemma {:induction false} UniqueRun(c: Caches, events: seq<Event>)
    requires UniqueKeys(c.sent)
    ensures UniqueKeys(After(c, events).sent)
    decreases |events|
  {
    if events != [] {
      UniqueStep(c, events[0]);
      UniqueRun(Next(c, events[0]), events[1..]);
    }
  }

  // ---------- Later reads ----------

  predicate KeepsStored(events: seq<Event>, id: string, content: string) {
    forall i :: 0 <= i < |events| ==>
      && !events[i].SetStoreKey?
      && !(events[i].DropCached? && events[i].id == id)
      && !(events[i].Decrypt? && events[i].id == id && events[i].content != content)
  }

  /** Once a read has stored a message, reads of the same ciphertext are answered from the durable
      cache, without touching the keys, until the entry is dropped or the message changes. */
  lemma {:induction false} LaterReads(c: Caches, events: seq<Event>, id: string, content: string, plaintext: string)
    requires content != "" && Cached(c, id, content) == Some(plaintext) && KeepsStored(events, id, content)
    ensures Cached(After(c, events), id, content) == Some(plaintext)
    ensures forall ch, unlocked, w: World :: w.readOk ==>
              var r := Read(After(c, events), id, content, ch, unlocked, w);
              r.outcome == Text(plaintext) && !r.attempted && r.next == After(c, events)
    decreases |events|
  {
    if events != [] {
      var e := events[0];
      assert !e.SetStoreKey? && !(e.Decrypt? && e.id == id && e.content != content);
      LaterReads(Next(c, e), events[1..], id, content, plaintext);
    }
  }

  /** The first echo is such a read whenever there is a key to store under. */
  lemma EchoIsStored(c: Caches, id: string, content: string, ch: string, unlocked: bool, w: World)
    requires c.storeKey.Some? && w.readOk && w.writeOk && Cached(c, id, content).None? && Has(c.sent, content)
    ensures var r := Read(c, id, content, ch, unlocked, w);
            Cached(r.next, id, content) == Get(c.sent, content) == Some(r.outcome.text)
  {
  }
}
