/** WebSocket tickets: 30 s of life, one use, and a sweep with a slightly different bound. */
module Tickets {
  import opened Common
  import opened Challenges

  const TICKET_LIFE: nat := 30 * SECOND

  datatype Ticket = Ticket(userId: Bytes, createdAt: Instant)
  datatype TicketStore = TicketStore(now: Instant, tickets: map<string, Ticket>)

  datatype TicketOp =
    | Issue(id: string, userId: Bytes)
    | Validate(id: string)
    | Sweep
    | Tick(dt: nat)

  function Answer(s: TicketStore, id: string): Result<Bytes> {
    if id !in s.tickets then Err(Unauthorized("invalid or expired ws ticket"))
    else if Age(s.now, s.tickets[id].createdAt) > TICKET_LIFE then Err(Unauthorized("ws ticket expired"))
    else Ok(s.tickets[id].userId)
  }

  function Swept(now: Instant, tickets: map<string, Ticket>): map<string, Ticket> {
    map id | id in tickets && Age(now, tickets[id].createdAt) < TICKET_LIFE :: tickets[id]
  }

  function Step(s: TicketStore, op: TicketOp): TicketStore {
    match op
    case Issue(id, userId) => s.(tickets := s.tickets[id := Ticket(userId, s.now)])
    case Validate(id) => s.(tickets := s.tickets - {id})
    case Sweep => s.(tickets := Swept(s.now, s.tickets))
    case Tick(dt) => s.(now := s.now + dt)
  }

  predicate IsValid(s: TicketStore, id: string) {
    id in s.tickets && Age(s.now, s.tickets[id].createdAt) < TICKET_LIFE
  }

  /** Whole seconds left, saturating at 0. */
  function Ttl(s: TicketStore, id: string): nat {
    if id !in s.tickets then 0
    else
      var elapsed := Age(s.now, s.tickets[id].createdAt) / SECOND;
      if elapsed <= 30 then 30 - elapsed else 0
  }

  /** The diagnostics agree with each other to the nanosecond, and with the validator except at the
      last instant of a ticket's life. */
  lemma DiagnosticsAgree(s: TicketStore, id: string)
    ensures IsValid(s, id) <==> Ttl(s, id) > 0
    ensures Answer(s, id).Ok? <==>
              IsValid(s, id) || (id in s.tickets && Age(s.now, s.tickets[id].createdAt) == TICKET_LIFE)
  {
    if id in s.tickets {
      var age := Age(s.now, s.tickets[id].createdAt);
      assert age < 30 * SECOND <==> age / SECOND < 30;
    }
  }

  ghost predicate TimesPast(s: TicketStore) {
    forall id :: id in s.tickets ==> s.tickets[id].createdAt <= s.now
  }

  /** A sweep is visible to a later validation in exactly one case: the ticket was 30 s old to the
      nanosecond when swept, and is validated at that same instant. */
  lemma SweepVisibleExactly(s: TicketStore, dt: nat, id: string)
    requires TimesPast(s)
    ensures !SameClass(Answer(Step(Step(s, TicketOp.Sweep), TicketOp.Tick(dt)), id),
                       Answer(Step(s, TicketOp.Tick(dt)), id))
       <==> dt == 0 && id in s.tickets && s.now - s.tickets[id].createdAt == TICKET_LIFE
  {
  }

  /** Two stores that differ at most by tickets the sweep took. */
  ghost predicate Shadows(s: TicketStore, full: TicketStore) {
    && s.now == full.now && TimesPast(full)
    && (forall id :: id in s.tickets ==> id in full.tickets && s.tickets[id] == full.tickets[id])
    && (forall id :: id in full.tickets && id !in s.tickets ==>
         full.now - full.tickets[id].createdAt >= TICKET_LIFE)
  }

  lemma ShadowsStep(s: TicketStore, full: TicketStore, op: TicketOp)
    requires Shadows(s, full)
    ensures Shadows(Step(s, op), if op.Sweep? then full else Step(full, op))
  {
  }

  function Run(s: TicketStore, ops: seq<TicketOp>): TicketStore
    decreases |ops|
  {
    if ops == [] then s else Run(Step(s, ops[0]), ops[1..])
  }

  function RunUnswept(s: TicketStore, ops: seq<TicketOp>): TicketStore
    decreases |ops|
  {
    if ops == [] then s else RunUnswept(if ops[0].Sweep? then s else Step(s, ops[0]), ops[1..])
  }

  lemma {:induction false} ShadowsRun(s: TicketStore, full: TicketStore, ops: seq<TicketOp>)
    requires Shadows(s, full)
    ensures Shadows(Run(s, ops), RunUnswept(full, ops))
    decreases |ops|
  {
    if ops != [] {
      ShadowsStep(s, full, ops[0]);
      ShadowsRun(Step(s, ops[0]), if ops[0].Sweep? then full else Step(full, ops[0]), ops[1..]);
    }
  }

  /** Over any run, with sweeps anywhere, a validation answers as if no sweep had ever run, unless the
      ticket is exactly 30 s old. */
  lemma TicketSweepUnobservable(ops: seq<TicketOp>, id: string)
    requires var full := RunUnswept(TicketStore(0, map[]), ops);
             id in full.tickets ==> full.now != full.tickets[id].createdAt + TICKET_LIFE
    ensures SameClass(Answer(Run(TicketStore(0, map[]), ops), id), Answer(RunUnswept(TicketStore(0, map[]), ops), id))
  {
    ShadowsRun(TicketStore(0, map[]), TicketStore(0, map[]), ops);
  }

  lemma {:induction false} AbsentStays(s: TicketStore, ops: seq<TicketOp>, id: string)
    requires id !in s.tickets && forall k :: 0 <= k < |ops| ==> !(ops[k].Issue? && ops[k].id == id)
    ensures id !in Run(s, ops).tickets
    decreases |ops|
  {
    if ops != [] {
      AbsentStays(Step(s, ops[0]), ops[1..], id);
    }
  }

  /** A ticket admits once: after it was presented it is refused for the rest of the run. */
  lemma TicketSingleUse(s: TicketStore, ops: seq<TicketOp>, id: string)
    requires forall k :: 0 <= k < |ops| ==> !(ops[k].Issue? && ops[k].id == id)
    ensures Answer(Run(Step(s, Validate(id)), ops), id) == Err(Unauthorized("invalid or expired ws ticket"))
  {
    AbsentStays(Step(s, Validate(id)), ops, id);
  }

  // ---------- Exactly what a validation answers ----------

  const NoTickets := TicketStore(0, map[])

  function StoreAt(ops: seq<TicketOp>, i: nat): TicketStore
    requires i <= |ops|
  {
    if i == 0 then NoTickets else Step(StoreAt(ops, i - 1), ops[i - 1])
  }

  /** The clock at operation i: the ticks before it. */
  function TimeAt(ops: seq<TicketOp>, i: nat): nat
    requires i <= |ops|
  {
    if i == 0 then 0 else TimeAt(ops, i - 1) + if ops[i - 1].Tick? then ops[i - 1].dt else 0
  }

  /** 256 random bits never repeat. */
  predicate FreshTickets(ops: seq<TicketOp>) {
    forall k, l :: 0 <= k < l < |ops| && ops[k].Issue? && ops[l].Issue? ==> ops[k].id != ops[l].id
  }

  /** Operation k issued the ticket, and nobody presented it before operation i. */
  predicate Unpresented(ops: seq<TicketOp>, k: nat, i: nat, id: string) {
    && k < i <= |ops| && ops[k].Issue? && ops[k].id == id
    && forall j :: k < j < i && ops[j].Validate? ==> ops[j].id != id
  }

  lemma {:induction false} TimeMoves(ops: seq<TicketOp>, k: nat, i: nat)
    requires k <= i <= |ops|
    ensures TimeAt(ops, k) <= TimeAt(ops, i) && StoreAt(ops, i).now == TimeAt(ops, i)
  {
    if k < i {
      TimeMoves(ops, k, i - 1);
    } else if i > 0 {
      TimeMoves(ops, k - 1, i - 1);
    }
  }

  /** A ticket in its first 30 seconds is there, sweeps or not. */
  lemma {:induction false} YoungIsStored(ops: seq<TicketOp>, k: nat, i: nat, id: string)
    requires FreshTickets(ops) && Unpresented(ops, k, i, id)
    requires TimeAt(ops, i) - TimeAt(ops, k) < 30 * 1_000_000_000
    ensures id in StoreAt(ops, i).tickets && StoreAt(ops, i).tickets[id] == Ticket(ops[k].userId, TimeAt(ops, k))
    decreases i
  {
    TimeMoves(ops, k, i - 1);
    if k < i - 1 {
      YoungIsStored(ops, k, i - 1, id);
    }
  }

  /** A stored ticket was issued, to this user and at this time, and not presented since. */
  lemma {:induction false} StoredWasIssued(ops: seq<TicketOp>, i: nat, id: string) returns (k: nat)
    requires i <= |ops| && id in StoreAt(ops, i).tickets
    ensures Unpresented(ops, k, i, id)
    ensures StoreAt(ops, i).tickets[id] == Ticket(ops[k].userId, TimeAt(ops, k))
    decreases i
  {
    TimeMoves(ops, i - 1, i - 1);
    if ops[i - 1].Issue? && ops[i - 1].id == id {
      k := i - 1;
    } else {
      k := StoredWasIssued(ops, i - 1, id);
    }
  }

  /** Over any run: a ticket first presented within 30 s of its issue gives the user it was issued to,
      and one presented later than that is refused. */
  lemma TicketExactly(ops: seq<TicketOp>, k: nat, i: nat, id: string)
    requires FreshTickets(ops) && Unpresented(ops, k, i, id)
    ensures TimeAt(ops, i) - TimeAt(ops, k) < 30 * 1_000_000_000 ==> Answer(StoreAt(ops, i), id) == Ok(ops[k].userId)
    ensures TimeAt(ops, i) - TimeAt(ops, k) > 30 * 1_000_000_000 ==>
              Answer(StoreAt(ops, i), id).Err? && Answer(StoreAt(ops, i), id).error.Unauthorized?
  {
    TimeMoves(ops, k, i);
    if TimeAt(ops, i) - TimeAt(ops, k) < 30 * 1_000_000_000 {
      YoungIsStored(ops, k, i, id);
    } else if id in StoreAt(ops, i).tickets {
      var l := StoredWasIssued(ops, i, id);
      assert ops[l].id == ops[k].id;
      assert l == k;
    }
  }

  /** And an answer other than `Unauthorized` names the user of such an issue. */
  lemma TicketAdmitsOnlyItsUser(ops: seq<TicketOp>, i: nat, id: string) returns (k: nat)
    requires i <= |ops| && !(Answer(StoreAt(ops, i), id).Err? && Answer(StoreAt(ops, i), id).error.Unauthorized?)
    ensures Unpresented(ops, k, i, id) && Answer(StoreAt(ops, i), id) == Ok(ops[k].userId)
    ensures TimeAt(ops, i) - TimeAt(ops, k) <= 30 * 1_000_000_000
  {
    k := StoredWasIssued(ops, i, id);
    TimeMoves(ops, k, i);
  }

  /** The remaining time tells the truth: the ticket stays valid for one second less than that, and is
      no longer valid when all of it has gone by. */
  lemma TtlIsTrue(s: TicketStore, id: string, dt: nat)
    requires TimesPast(s)
    ensures dt <= (Ttl(s, id) - 1) * 1_000_000_000 ==> IsValid(Step(s, TicketOp.Tick(dt)), id)
    ensures dt >= Ttl(s, id) * 1_000_000_000 ==> !IsValid(Step(s, TicketOp.Tick(dt)), id)
  {
    if id in s.tickets {
      var age := Age(s.now, s.tickets[id].createdAt);
      assert age == (age / SECOND) * SECOND + age % SECOND;
    }
  }
}
