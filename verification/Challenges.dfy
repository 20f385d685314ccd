/** Single-use login and enrollment challenges. Signature verification and SHA-256 are parameters;
    random ids and nonces are inputs. */
module Challenges {
  import opened Common

  /** Time of the monotonic clock, in nanoseconds. */
  type Instant = nat

  const SECOND: nat := 1_000_000_000
  const CHALLENGE_LIFE: nat := 300 * SECOND
  const CHALLENGE_SWEEP: nat := 360 * SECOND

  datatype Crypto = Crypto(
    validKey: Bytes -> bool,                    // VerifyingKey::from_bytes succeeds
    verify: (Bytes, Bytes, Bytes) -> bool,      // key, message, signature
    sha256: Bytes -> Bytes)

  datatype Binding = Binding(userId: Bytes, targetPk: Bytes)
  datatype Challenge = Challenge(nonce: Bytes, createdAt: Instant, binding: Option<Binding>)

  // ---------- The enrollment encoding ----------

  /** The bytes of "dilla-device-enroll-v1". */
  const ENROLL_DIGEST_LABEL: Bytes := [
    100, 105, 108, 108, 97, 45, 100, 101, 118, 105, 99, 101, 45, 101, 110, 114, 111, 108, 108, 45, 118, 49]

  function EnrollmentBytes(userId: Bytes, newPk: Bytes, nonce: Bytes): Bytes {
    ENROLL_DIGEST_LABEL + [0] + userId + [0] + newPk + [0] + nonce
  }

  /** The encoding loses nothing, zero bytes in the user id included: the tail has a fixed length. */
  lemma EnrollmentBytesInjective(u1: Bytes, k1: Bytes, n1: Bytes, u2: Bytes, k2: Bytes, n2: Bytes)
    requires |k1| == 32 && |k2| == 32 && |n1| == 32 && |n2| == 32
    requires EnrollmentBytes(u1, k1, n1) == EnrollmentBytes(u2, k2, n2)
    ensures u1 == u2 && k1 == k2 && n1 == n2
  {
    var head := ENROLL_DIGEST_LABEL + [0];
    var t1, t2 := EnrollmentTail(k1, n1), EnrollmentTail(k2, n2);
    EnrollmentSplit(u1, k1, n1);
    EnrollmentSplit(u2, k2, n2);
    SameHead(head, u1 + t1, u2 + t2);
    SameTail(u1, t1, u2, t2);
    assert k1 == t1[1..33] && k2 == t2[1..33];
    assert n1 == t1[34..] && n2 == t2[34..];
  }

  /** The part of fixed length: 66 bytes. */
  function EnrollmentTail(newPk: Bytes, nonce: Bytes): Bytes {
    [0] + newPk + [0] + nonce
  }

  lemma EnrollmentSplit(userId: Bytes, newPk: Bytes, nonce: Bytes)
    ensures EnrollmentBytes(userId, newPk, nonce) == (ENROLL_DIGEST_LABEL + [0]) + (userId + EnrollmentTail(newPk, nonce))
  {
  }

  lemma SameHead(head: Bytes, x: Bytes, y: Bytes)
    requires head + x == head + y
    ensures x == y
  {
    assert x == (head + x)[|head|..] && y == (head + y)[|head|..];
  }

  lemma SameTail(u1: Bytes, t1: Bytes, u2: Bytes, t2: Bytes)
    requires |t1| == |t2| && u1 + t1 == u2 + t2
    ensures u1 == u2 && t1 == t2
  {
    assert |u1 + t1| == |u1| + |t1| && |u2 + t2| == |u2| + |t2|;
    assert u1 == (u1 + t1)[..|u1|] && u2 == (u2 + t2)[..|u2|];
    assert t1 == (u1 + t1)[|u1|..] && t2 == (u2 + t2)[|u2|..];
  }

  /** The layout that both sides must produce: the label's 22 characters, then user id, key and nonce,
      each after a zero byte. */
  lemma EnrollmentLayout(userId: Bytes, newPk: Bytes, nonce: Bytes)
    requires |newPk| == 32 && |nonce| == 32
    ensures var all, text, n := EnrollmentBytes(userId, newPk, nonce), "dilla-device-enroll-v1", |userId|;
            && |all| == n + 89 && |text| == 22
            && (forall i :: 0 <= i < 22 ==> all[i] == text[i] as int)
            && all[22] == 0 && all[23..23 + n] == userId
            && all[23 + n] == 0 && all[24 + n..56 + n] == newPk
            && all[56 + n] == 0 && all[57 + n..] == nonce
  {
    LabelIsText();
    var all := EnrollmentBytes(userId, newPk, nonce);
    assert all[..22] == ENROLL_DIGEST_LABEL;
    assert forall i :: 0 <= i < 22 ==> all[i] == all[..22][i];
  }

  lemma LabelIsText()
    ensures |ENROLL_DIGEST_LABEL| == 22 == |"dilla-device-enroll-v1"|
    ensures forall i :: 0 <= i < 22 ==> ENROLL_DIGEST_LABEL[i] == "dilla-device-enroll-v1"[i] as int
  {
  }

  ghost predicate Injective(h: Bytes -> Bytes) {
    forall x, y :: h(x) == h(y) ==> x == y
  }

  /** `enrollment_signing_digest`, absorbing the parts one by one. */
  method EnrollmentSigningDigest(c: Crypto, userId: Bytes, newPk: Bytes, nonce: Bytes) returns (digest: Bytes)
    requires |newPk| == 32 && |nonce| == 32
    ensures digest == c.sha256(EnrollmentBytes(userId, newPk, nonce))
  {
    var absorbed: Bytes := ENROLL_DIGEST_LABEL;
    absorbed := absorbed + [0];
    absorbed := absorbed + userId;
    absorbed := absorbed + [0];
    absorbed := absorbed + newPk;
    absorbed := absorbed + [0];
    absorbed := absorbed + nonce;
    digest := c.sha256(absorbed);
  }

  // ---------- Judging one challenge ----------

  function CheckSignature(c: Crypto, key: Bytes, message: Bytes, signature: Bytes): Result<bool> {
    if |key| != 32 then Err(BadRequest("invalid public key length"))
    else if !c.validKey(key) then Err(BadRequest("invalid public key"))
    else if |signature| != 64 then Err(BadRequest("invalid signature length"))
    else Ok(c.verify(key, message, signature))
  }

  function JudgeBare(c: Crypto, ch: Challenge, age: nat, key: Bytes, signature: Bytes): Result<bool> {
    if age > CHALLENGE_LIFE then Err(Unauthorized("challenge expired"))
    else if ch.binding.Some? then Err(Unauthorized("challenge was issued bound"))
    else CheckSignature(c, key, ch.nonce, signature)
  }

  function JudgeBound(c: Crypto, ch: Challenge, age: nat, userId: Bytes, newPk: Bytes, key: Bytes, signature: Bytes)
    : Result<bool>
  {
    if age > CHALLENGE_LIFE then Err(Unauthorized("challenge expired"))
    else if ch.binding.None? then Err(Unauthorized("challenge was not issued with binding"))
    else if |newPk| != 32 then Err(BadRequest("new public key must be 32 bytes"))
    else if ch.binding.value.userId != userId then Err(Unauthorized("challenge bound to a different user"))
    else if ch.binding.value.targetPk != newPk then Err(Unauthorized("challenge bound to a different key"))
    else if |key| != 32 then Err(BadRequest("invalid public key length"))
    else if !c.validKey(key) then Err(BadRequest("invalid public key"))
    else if |signature| != 64 then Err(BadRequest("invalid signature length"))
    else if |ch.nonce| != 32 then Err(Internal("stored nonce was not 32 bytes"))
    else Ok(c.verify(key, c.sha256(EnrollmentBytes(userId, newPk, ch.nonce)), signature))
  }

  // ---------- The store and its operations ----------

  datatype Store = Store(now: Instant, challenges: map<string, Challenge>)

  datatype Op =
    | Issue(id: string, nonce: Bytes, binding: Option<Binding>)
    | Bare(id: string, key: Bytes, signature: Bytes)
    | Bound(id: string, userId: Bytes, newPk: Bytes, authorizer: Bytes, signature: Bytes)
    | Sweep
    | Tick(dt: nat)

  predicate IsVerify(op: Op) { op.Bare? || op.Bound? }

  function Age(now: Instant, createdAt: Instant): nat {
    if createdAt <= now then now - createdAt else 0
  }

  function Judge(c: Crypto, ch: Challenge, now: Instant, op: Op): Result<bool>
    requires IsVerify(op)
  {
    if op.Bare? then JudgeBare(c, ch, Age(now, ch.createdAt), op.key, op.signature)
    else JudgeBound(c, ch, Age(now, ch.createdAt), op.userId, op.newPk, op.authorizer, op.signature)
  }

  const NotFound: Result<bool> := Err(Unauthorized("challenge not found or expired"))

  function Retained(now: Instant, challenges: map<string, Challenge>): map<string, Challenge> {
    map id | id in challenges && Age(now, challenges[id].createdAt) < CHALLENGE_SWEEP :: challenges[id]
  }

  function Next(s: Store, op: Op): Store {
    match op
    case Issue(id, nonce, binding) => s.(challenges := s.challenges[id := Challenge(nonce, s.now, binding)])
    case Sweep => s.(challenges := Retained(s.now, s.challenges))
    case Tick(dt) => s.(now := s.now + dt)
    case _ => s.(challenges := s.challenges - {op.id})
  }

  function Verdict(c: Crypto, s: Store, op: Op): Result<bool>
    requires IsVerify(op)
  {
    if op.id in s.challenges then Judge(c, s.challenges[op.id], s.now, op) else NotFound
  }

  /** The answers of a run, one for each verification in it. */
  function Verdicts(c: Crypto, s: Store, ops: seq<Op>): seq<Result<bool>>
    decreases |ops|
  {
    if ops == [] then []
    else (if IsVerify(ops[0]) then [Verdict(c, s, ops[0])] else []) + Verdicts(c, Next(s, ops[0]), ops[1..])
  }

  /** 128 random bits never repeat: each id is issued at most once. */
  predicate FreshIds(used: set<string>, ops: seq<Op>)
    decreases |ops|
  {
    ops == [] || (
      if ops[0].Issue? then ops[0].id !in used && FreshIds(used + {ops[0].id}, ops[1..])
      else FreshIds(used, ops[1..]))
  }

  // ---------- The reference: full history, no sweep ----------

  /** Everything ever issued, and the ids ever presented to either verifier after being issued. */
  datatype History = History(now: Instant, issued: map<string, Challenge>, presented: set<string>)

  function Record(h: History, op: Op): History {
    match op
    case Issue(id, nonce, binding) => h.(issued := h.issued[id := Challenge(nonce, h.now, binding)])
    case Sweep => h
    case Tick(dt) => h.(now := h.now + dt)
    case _ => if op.id in h.issued then h.(presented := h.presented + {op.id}) else h
  }

  /** A challenge counts once: for the first presentation after it was issued. */
  function Ideal(c: Crypto, h: History, op: Op): Result<bool>
    requires IsVerify(op)
  {
    if op.id in h.issued && op.id !in h.presented then Judge(c, h.issued[op.id], h.now, op) else NotFound
  }

  function Ideals(c: Crypto, h: History, ops: seq<Op>): seq<Result<bool>>
    decreases |ops|
  {
    if ops == [] then []
    else (if IsVerify(ops[0]) then [Ideal(c, h, ops[0])] else []) + Ideals(c, Record(h, ops[0]), ops[1..])
  }

  predicate SameClasses(xs: seq<Result<bool>>, ys: seq<Result<bool>>) {
    |xs| == |ys| && forall i :: 0 <= i < |xs| ==> SameClass(xs[i], ys[i])
  }

  /** The store is the unpresented part of the history, less some challenges old enough to expire. */
  ghost predicate Agrees(s: Store, h: History) {
    && s.now == h.now
    && (forall id :: id in s.challenges ==>
         id in h.issued && id !in h.presented && s.challenges[id] == h.issued[id])
    && (forall id :: id in h.issued && id !in h.presented && id !in s.challenges ==>
         Age(s.now, h.issued[id].createdAt) >= CHALLENGE_SWEEP)
    && (forall id :: id in h.issued ==> h.issued[id].createdAt <= h.now)
    && (forall id :: id in h.presented ==> id in h.issued)
  }

  lemma AgreesStep(s: Store, h: History, op: Op)
    requires Agrees(s, h) && (op.Issue? ==> op.id !in h.issued)
    ensures Agrees(Next(s, op), Record(h, op))
  {
  }

  lemma VerdictIsIdeal(c: Crypto, s: Store, h: History, op: Op)
    requires Agrees(s, h) && IsVerify(op)
    ensures SameClass(Verdict(c, s, op), Ideal(c, h, op))
  {
  }

  lemma ClassesAppend(x: seq<Result<bool>>, xs: seq<Result<bool>>, y: seq<Result<bool>>, ys: seq<Result<bool>>)
    requires SameClasses(x, y) && SameClasses(xs, ys)
    ensures SameClasses(x + xs, y + ys)
  {
  }

  /** Refinement: over every run the verifiers answer as the history-based reference does, wherever
      the background sweep falls. */
  lemma {:induction false} VerdictsAreIdeal(c: Crypto, s: Store, h: History, ops: seq<Op>)
    requires Agrees(s, h) && FreshIds(h.issued.Keys, ops)
    ensures SameClasses(Verdicts(c, s, ops), Ideals(c, h, ops))
    decreases |ops|
  {
    if ops != [] {
      AgreesStep(s, h, ops[0]);
      assert Record(h, ops[0]).issued.Keys == if ops[0].Issue? then h.issued.Keys + {ops[0].id} else h.issued.Keys;
      VerdictsAreIdeal(c, Next(s, ops[0]), Record(h, ops[0]), ops[1..]);
      if IsVerify(ops[0]) {
        VerdictIsIdeal(c, s, h, ops[0]);
        ClassesAppend([Verdict(c, s, ops[0])], Verdicts(c, Next(s, ops[0]), ops[1..]),
                      [Ideal(c, h, ops[0])], Ideals(c, Record(h, ops[0]), ops[1..]));
      }
    }
  }

  const Empty := Store(0, map[])
  const NoHistory := History(0, map[], {})

  function WithoutSweeps(ops: seq<Op>): seq<Op> {
    if ops == [] then []
    else if ops[0].Sweep? then WithoutSweeps(ops[1..])
    else [ops[0]] + WithoutSweeps(ops[1..])
  }

  lemma {:induction false} IdealsIgnoreSweeps(c: Crypto, h: History, ops: seq<Op>)
    ensures Ideals(c, h, ops) == Ideals(c, h, WithoutSweeps(ops))
    decreases |ops|
  {
    if ops != [] {
      IdealsIgnoreSweeps(c, Record(h, ops[0]), ops[1..]);
      if !ops[0].Sweep? {
        assert WithoutSweeps(ops)[0] == ops[0] && WithoutSweeps(ops)[1..] == WithoutSweeps(ops[1..]);
      }
    }
  }

  lemma {:induction false} FreshWithoutSweeps(used: set<string>, ops: seq<Op>)
    requires FreshIds(used, ops)
    ensures FreshIds(used, WithoutSweeps(ops))
    decreases |ops|
  {
    if ops != [] {
      FreshWithoutSweeps(if ops[0].Issue? then used + {ops[0].id} else used, ops[1..]);
      if !ops[0].Sweep? {
        assert WithoutSweeps(ops)[0] == ops[0] && WithoutSweeps(ops)[1..] == WithoutSweeps(ops[1..]);
      }
    }
  }

  /** The sweep is unobservable: removing every sweep from a run changes no answer's class. */
  lemma SweepUnobservable(c: Crypto, ops: seq<Op>)
    requires FreshIds({}, ops)
    ensures SameClasses(Verdicts(c, Empty, ops), Verdicts(c, Empty, WithoutSweeps(ops)))
  {
    FreshWithoutSweeps({}, ops);
    assert NoHistory.issued.Keys == {};
    VerdictsAreIdeal(c, Empty, NoHistory, ops);
    VerdictsAreIdeal(c, Empty, NoHistory, WithoutSweeps(ops));
    IdealsIgnoreSweeps(c, NoHistory, ops);
  }

  // ---------- Safety over whole runs ----------

  function StoreAt(s: Store, ops: seq<Op>, i: nat): Store
    requires i <= |ops|
    decreases i
  {
    if i == 0 then s else StoreAt(Next(s, ops[0]), ops[1..], i - 1)
  }

  function HistoryAt(h: History, ops: seq<Op>, i: nat): History
    requires i <= |ops|
    decreases i
  {
    if i == 0 then h else HistoryAt(Record(h, ops[0]), ops[1..], i - 1)
  }

  lemma {:induction false} AgreesAt(s: Store, h: History, ops: seq<Op>, i: nat)
    requires i <= |ops| && Agrees(s, h) && FreshIds(h.issued.Keys, ops)
    ensures Agrees(StoreAt(s, ops, i), HistoryAt(h, ops, i))
    decreases i
  {
    if i > 0 {
      AgreesStep(s, h, ops[0]);
      assert Record(h, ops[0]).issued.Keys == if ops[0].Issue? then h.issued.Keys + {ops[0].id} else h.issued.Keys;
      AgreesAt(Next(s, ops[0]), Record(h, ops[0]), ops[1..], i - 1);
    }
  }

  /** The verification at position i got past the lookup. */
  predicate Found(ops: seq<Op>, i: nat) {
    i < |ops| && IsVerify(ops[i]) && ops[i].id in StoreAt(Empty, ops, i).challenges
  }

  lemma {:induction false} PresentedStays(h: History, ops: seq<Op>, i: nat, id: string)
    requires i <= |ops| && id in h.presented
    ensures id in HistoryAt(h, ops, i).presented
    decreases i
  {
    if i > 0 { PresentedStays(Record(h, ops[0]), ops[1..], i - 1, id); }
  }

  lemma {:induction false} HistorySplit(h: History, ops: seq<Op>, i: nat, j: nat)
    requires i <= j <= |ops|
    ensures HistoryAt(h, ops, j) == HistoryAt(HistoryAt(h, ops, i), ops[i..], j - i)
    decreases i
  {
    if i > 0 {
      HistorySplit(Record(h, ops[0]), ops[1..], i - 1, j - 1);
      assert ops[1..][i - 1..] == ops[i..];
    }
  }

  /** Single use: of all verifications that name one challenge id, through either verifier, at most
      one gets past the lookup. */
  lemma SingleUse(ops: seq<Op>, i: nat, j: nat)
    requires FreshIds({}, ops) && i < j && Found(ops, i) && Found(ops, j)
    ensures ops[i].id != ops[j].id
  {
    assert NoHistory.issued.Keys == {};
    AgreesAt(Empty, NoHistory, ops, i);
    AgreesAt(Empty, NoHistory, ops, j);
    var h := HistoryAt(NoHistory, ops, i);
    HistorySplit(NoHistory, ops, i, j);
    assert ops[i..][0] == ops[i];
    PresentedStays(Record(h, ops[i]), ops[i..][1..], j - i - 1, ops[i].id);
  }

  /** The challenge with this id as it was issued earlier in the run. */
  ghost predicate IssuedBefore(ops: seq<Op>, i: nat, id: string, ch: Challenge)
    requires i <= |ops|
  {
    exists k :: 0 <= k < i && ops[k] == Issue(id, ch.nonce, ch.binding)
             && ch.createdAt == HistoryAt(NoHistory, ops, k).now
  }

  lemma {:induction false} IssuedOccurs(ops: seq<Op>, i: nat, id: string)
    requires i <= |ops| && id in HistoryAt(NoHistory, ops, i).issued
    ensures IssuedBefore(ops, i, id, HistoryAt(NoHistory, ops, i).issued[id])
    decreases i
  {
    assert i > 0;
    HistorySplit(NoHistory, ops, i - 1, i);
    assert ops[i - 1..][0] == ops[i - 1];
    var h := HistoryAt(NoHistory, ops, i - 1);
    assert HistoryAt(NoHistory, ops, i) == Record(h, ops[i - 1]);
    if id in h.issued && HistoryAt(NoHistory, ops, i).issued[id] == h.issued[id] {
      IssuedOccurs(ops, i - 1, id);
    }
  }

  /** `Ok(true)` from the bare path: an unbound challenge issued at most 300 s ago, and its nonce was
      signed. `Ok(true)` from the bound path: issued for exactly that user and key, and the digest of
      that user, key and nonce was signed. */
  lemma Accepted(c: Crypto, ops: seq<Op>, i: nat) returns (ch: Challenge)
    requires FreshIds({}, ops) && i < |ops| && IsVerify(ops[i])
    requires Verdict(c, StoreAt(Empty, ops, i), ops[i]) == Ok(true)
    ensures IssuedBefore(ops, i, ops[i].id, ch)
    ensures StoreAt(Empty, ops, i).now - ch.createdAt <= CHALLENGE_LIFE
    ensures ops[i].Bare? ==> ch.binding.None? && c.verify(ops[i].key, ch.nonce, ops[i].signature)
    ensures ops[i].Bound? ==>
              && ch.binding == Some(Binding(ops[i].userId, ops[i].newPk))
              && |ops[i].newPk| == 32 && |ch.nonce| == 32
              && c.verify(ops[i].authorizer, c.sha256(EnrollmentBytes(ops[i].userId, ops[i].newPk, ch.nonce)),
                          ops[i].signature)
  {
    assert NoHistory.issued.Keys == {};
    AgreesAt(Empty, NoHistory, ops, i);
    ch := StoreAt(Empty, ops, i).challenges[ops[i].id];
    IssuedOccurs(ops, i, ops[i].id);
  }

  /** The nonces of different challenges differ. */
  ghost predicate FreshNonces(ops: seq<Op>) {
    forall k, l :: 0 <= k < l < |ops| && ops[k].Issue? && ops[l].Issue? ==> ops[k].nonce != ops[l].nonce
  }

  /** One signed digest authorises one enrollment: two accepted bound verifications of a run are
      never about the same digest. */
  lemma DigestUsedOnce(c: Crypto, ops: seq<Op>, i: nat, j: nat)
      returns (x: Challenge, y: Challenge)
    requires FreshIds({}, ops) && FreshNonces(ops) && Injective(c.sha256)
    requires i < j < |ops| && ops[i].Bound? && ops[j].Bound?
    requires Verdict(c, StoreAt(Empty, ops, i), ops[i]) == Ok(true)
    requires Verdict(c, StoreAt(Empty, ops, j), ops[j]) == Ok(true)
    ensures IssuedBefore(ops, i, ops[i].id, x) && IssuedBefore(ops, j, ops[j].id, y)
    ensures c.sha256(EnrollmentBytes(ops[i].userId, ops[i].newPk, x.nonce))
         != c.sha256(EnrollmentBytes(ops[j].userId, ops[j].newPk, y.nonce))
  {
    x := Accepted(c, ops, i);
    y := Accepted(c, ops, j);
    SingleUse(ops, i, j);
    if EnrollmentBytes(ops[i].userId, ops[i].newPk, x.nonce) == EnrollmentBytes(ops[j].userId, ops[j].newPk, y.nonce) {
      EnrollmentBytesInjective(ops[i].userId, ops[i].newPk, x.nonce, ops[j].userId, ops[j].newPk, y.nonce);
    }
  }

  // ---------- Exactly when a verification succeeds ----------

  /** The clock at operation i: the ticks before it. */
  function TimeAt(ops: seq<Op>, i: nat): nat
    requires i <= |ops|
  {
    if i == 0 then 0 else TimeAt(ops, i - 1) + if ops[i - 1].Tick? then ops[i - 1].dt else 0
  }

  /** Operation k issued the challenge that operation i names, nobody named it in between, and at most
      300 s went by. */
  ghost predicate IssuedAndOpen(ops: seq<Op>, k: nat, i: nat) {
    && k < i < |ops| && ops[k].Issue? && IsVerify(ops[i]) && ops[k].id == ops[i].id
    && (forall j :: k < j < i && IsVerify(ops[j]) ==> ops[j].id != ops[k].id)
    && TimeAt(ops, i) - TimeAt(ops, k) <= 300 * 1_000_000_000
  }

  lemma {:induction false} HistoryStep(h: History, ops: seq<Op>, i: nat)
    requires i < |ops|
    ensures HistoryAt(h, ops, i + 1) == Record(HistoryAt(h, ops, i), ops[i])
  {
    HistorySplit(h, ops, i, i + 1);
    assert ops[i..][0] == ops[i];
    assert HistoryAt(HistoryAt(h, ops, i), ops[i..], 1) == Record(HistoryAt(h, ops, i), ops[i]);
  }

  lemma {:induction false} HistoryTime(ops: seq<Op>, i: nat)
    requires i <= |ops|
    ensures HistoryAt(NoHistory, ops, i).now == TimeAt(ops, i)
  {
    if i > 0 {
      HistoryTime(ops, i - 1);
      HistoryStep(NoHistory, ops, i - 1);
    }
  }

  lemma {:induction false} FreshAt(used: set<string>, ops: seq<Op>, k: nat)
    requires FreshIds(used, ops) && k < |ops| && ops[k].Issue?
    ensures ops[k].id !in used
    ensures forall j :: 0 <= j < k && ops[j].Issue? ==> ops[j].id != ops[k].id
    decreases k
  {
    if k > 0 {
      FreshAt(if ops[0].Issue? then used + {ops[0].id} else used, ops[1..], k - 1);
      forall j | 0 <= j < k && ops[j].Issue? ensures ops[j].id != ops[k].id {
        assert j > 0 ==> ops[j] == ops[1..][j - 1];
      }
    }
  }

  lemma SameIssue(ops: seq<Op>, k: nat, l: nat)
    requires FreshIds({}, ops) && k < |ops| && l < |ops| && ops[k].Issue? && ops[l].Issue? && ops[k].id == ops[l].id
    ensures k == l
  {
    FreshAt({}, ops, k);
    FreshAt({}, ops, l);
  }

  /** An issued id was issued by an earlier operation; a presented one was named after that. */
  lemma {:induction false} HistoryMeans(ops: seq<Op>, i: nat, id: string)
    requires i <= |ops|
    ensures id in HistoryAt(NoHistory, ops, i).issued ==>
              exists k :: 0 <= k < i && ops[k].Issue? && ops[k].id == id
    ensures id in HistoryAt(NoHistory, ops, i).presented ==>
              exists j, k :: 0 <= k < j < i && ops[k].Issue? && ops[k].id == id && IsVerify(ops[j]) && ops[j].id == id
  {
    if i > 0 {
      HistoryMeans(ops, i - 1, id);
      HistoryStep(NoHistory, ops, i - 1);
    }
  }

  /** From its issue on a challenge is on record as it was issued. */
  lemma {:induction false} OnRecord(ops: seq<Op>, k: nat, i: nat)
    requires FreshIds({}, ops) && k < i <= |ops| && ops[k].Issue?
    ensures var h := HistoryAt(NoHistory, ops, i);
            ops[k].id in h.issued && h.issued[ops[k].id] == Challenge(ops[k].nonce, TimeAt(ops, k), ops[k].binding)
    decreases i
  {
    HistoryStep(NoHistory, ops, i - 1);
    if i == k + 1 {
      HistoryTime(ops, k);
    } else {
      OnRecord(ops, k, i - 1);
      if ops[i - 1].Issue? { FreshAt({}, ops, i - 1); }
    }
  }

  lemma {:induction false} PresentedOnRecord(ops: seq<Op>, k: nat, j: nat, i: nat)
    requires FreshIds({}, ops) && k < j < i <= |ops| && ops[k].Issue? && IsVerify(ops[j]) && ops[j].id == ops[k].id
    ensures ops[k].id in HistoryAt(NoHistory, ops, i).presented
    decreases i
  {
    HistoryStep(NoHistory, ops, i - 1);
    if i == j + 1 { OnRecord(ops, k, j); } else { PresentedOnRecord(ops, k, j, i - 1); }
  }

  /** At a verification of an open challenge the store still has it, sweeps or not. */
  lemma OpenIsStored(ops: seq<Op>, k: nat, i: nat)
    requires FreshIds({}, ops) && IssuedAndOpen(ops, k, i)
    ensures var s := StoreAt(Empty, ops, i);
            && ops[i].id in s.challenges && s.now == TimeAt(ops, i)
            && s.challenges[ops[i].id] == Challenge(ops[k].nonce, TimeAt(ops, k), ops[k].binding)
  {
    assert NoHistory.issued.Keys == {};
    AgreesAt(Empty, NoHistory, ops, i);
    HistoryTime(ops, i);
    OnRecord(ops, k, i);
    HistoryMeans(ops, i, ops[i].id);
    var h := HistoryAt(NoHistory, ops, i);
    if ops[i].id in h.presented {
      var j, l :| 0 <= l < j < i && ops[l].Issue? && ops[l].id == ops[i].id && IsVerify(ops[j]) && ops[j].id == ops[i].id;
      SameIssue(ops, k, l);
      assert false;
    }
  }

  /** And what the store has and is young enough is an open challenge. */
  lemma StoredIsOpen(ops: seq<Op>, i: nat) returns (k: nat)
    requires FreshIds({}, ops) && i < |ops| && IsVerify(ops[i])
    requires var s := StoreAt(Empty, ops, i);
             ops[i].id in s.challenges && Age(s.now, s.challenges[ops[i].id].createdAt) <= CHALLENGE_LIFE
    ensures IssuedAndOpen(ops, k, i)
  {
    assert NoHistory.issued.Keys == {};
    AgreesAt(Empty, NoHistory, ops, i);
    HistoryTime(ops, i);
    HistoryMeans(ops, i, ops[i].id);
    k :| 0 <= k < i && ops[k].Issue? && ops[k].id == ops[i].id;
    OnRecord(ops, k, i);
    forall j | k < j < i && IsVerify(ops[j]) ensures ops[j].id != ops[k].id {
      if ops[j].id == ops[k].id { PresentedOnRecord(ops, k, j, i); }
    }
  }

  ghost predicate SomeIssuedAndOpen(ops: seq<Op>, i: nat) {
    exists k: nat :: IssuedAndOpen(ops, k, i)
  }

  /** A key and signature of the right shape. */
  predicate WellShaped(c: Crypto, key: Bytes, signature: Bytes) {
    |key| == 32 && c.validKey(key) && |signature| == 64
  }

  /** The bare verifier, exactly. On the first presentation of a challenge at most 300 s old, issued
      unbound, with a key and signature of the right shape, it answers whether the nonce was signed;
      otherwise it answers with an error, `Unauthorized` for the challenge, `BadRequest` for the shape. */
  lemma BareExactly(c: Crypto, ops: seq<Op>, i: nat, k: nat)
    requires FreshIds({}, ops) && IssuedAndOpen(ops, k, i) && ops[i].Bare?
    ensures var answer, op := Verdict(c, StoreAt(Empty, ops, i), ops[i]), ops[i];
            if ops[k].binding.Some? then answer.Err? && answer.error.Unauthorized?
            else if WellShaped(c, op.key, op.signature) then answer == Ok(c.verify(op.key, ops[k].nonce, op.signature))
            else answer.Err? && answer.error.BadRequest?
  {
    OpenIsStored(ops, k, i);
  }

  /** The bound verifier, exactly: the same on a challenge issued for exactly this user and key, with
      the digest of user, key and nonce in place of the nonce. */
  lemma BoundExactly(c: Crypto, ops: seq<Op>, i: nat, k: nat)
    requires FreshIds({}, ops) && IssuedAndOpen(ops, k, i) && ops[i].Bound?
    ensures var answer, op := Verdict(c, StoreAt(Empty, ops, i), ops[i]), ops[i];
            if ops[k].binding.Some? && |op.newPk| != 32 then answer.Err? && answer.error.BadRequest?
            else if ops[k].binding != Some(Binding(op.userId, op.newPk)) then answer.Err? && answer.error.Unauthorized?
            else if !WellShaped(c, op.authorizer, op.signature) then answer.Err? && answer.error.BadRequest?
            else if |ops[k].nonce| != 32 then answer.Err? && answer.error.Internal?
            else answer == Ok(c.verify(op.authorizer, c.sha256(EnrollmentBytes(op.userId, op.newPk, ops[k].nonce)), op.signature))
  {
    OpenIsStored(ops, k, i);
  }

  /** Neither verifier answers anything but `Unauthorized` for a challenge that is not open: never
      issued, named before, or more than 300 s old. */
  lemma NotOpenIsRefused(c: Crypto, ops: seq<Op>, i: nat)
    requires FreshIds({}, ops) && i < |ops| && IsVerify(ops[i]) && !SomeIssuedAndOpen(ops, i)
    ensures var answer := Verdict(c, StoreAt(Empty, ops, i), ops[i]);
            answer.Err? && answer.error.Unauthorized?
  {
    var s := StoreAt(Empty, ops, i);
    if ops[i].id in s.challenges && Age(s.now, s.challenges[ops[i].id].createdAt) <= CHALLENGE_LIFE {
      var k := StoredIsOpen(ops, i);
      assert SomeIssuedAndOpen(ops, i);
    }
  }

  /** A sweep leaves exactly the challenges younger than 360 s, so none is kept for longer than that and
      the time to the next sweep. */
  lemma SweepLeavesExactly(s: Store, id: string)
    ensures var t := Next(s, Sweep);
            && (id in t.challenges <==> id in s.challenges && s.now - s.challenges[id].createdAt < 360 * 1_000_000_000)
            && (id in t.challenges ==> t.challenges[id] == s.challenges[id])
  {
  }
}
