/** `ensurePeerSession`: concurrent callers share one setup per peer through a table of promises. The
    code between two awaits is one atomic step; the bundle fetch always suspends. */
module PeerSessions {
  import opened Common

  type Peer = string
  type Caller = nat
  type Promise = nat

  datatype Settled = Pending | Resolved | Failed

  /** `await` of a promise, a normal return, or a throw. */
  datatype CallState = Awaiting(promise: Promise) | Returned | Threw

  /** A setup task runs behind each promise; `owner` is its peer. */
  datatype Task = Task(owner: Peer, settled: Settled)

  datatype Call = Call(peer: Peer, state: CallState)

  datatype State = State(
    initialized: set<Peer>,                 // initializedSessions
    promises: map<Peer, Promise>,           // initializingPromises
    tasks: seq<Task>,                       // every promise ever created, by number
    calls: map<Caller, Call>)

  const Start := State({}, map[], [], map[])

  datatype Step =
    | Ensure(caller: Caller, peer: Peer)    // a new call, up to its first await
    | Succeed(promise: Promise)             // initSession done: add, then finally-delete, then resolve
    | Fail(promise: Promise)                // a throw anywhere in the setup: finally-delete, then reject
    | Resume(caller: Caller)                // the awaited promise has settled

  predicate Enabled(s: State, step: Step) {
    match step
    case Ensure(caller, _) => caller !in s.calls
    case Succeed(p) => p < |s.tasks| && s.tasks[p].settled == Pending
    case Fail(p) => p < |s.tasks| && s.tasks[p].settled == Pending
    case Resume(caller) =>
      && caller in s.calls && s.calls[caller].state.Awaiting?
      && s.calls[caller].state.promise < |s.tasks|
      && s.tasks[s.calls[caller].state.promise].settled != Pending
  }

  function Next(s: State, step: Step): State
    requires Enabled(s, step)
  {
    match step
    case Ensure(caller, peer) =>
      if peer in s.initialized then s.(calls := s.calls[caller := Call(peer, Returned)])
      else if peer in s.promises then s.(calls := s.calls[caller := Call(peer, Awaiting(s.promises[peer]))])
      else s.(tasks := s.tasks + [Task(peer, Pending)],
              promises := s.promises[peer := |s.tasks|],
              calls := s.calls[caller := Call(peer, Awaiting(|s.tasks|))])
    case Succeed(p) =>
      s.(initialized := s.initialized + {s.tasks[p].owner},
         promises := s.promises - {s.tasks[p].owner},
         tasks := s.tasks[p := s.tasks[p].(settled := Resolved)])
    case Fail(p) =>
      s.(promises := s.promises - {s.tasks[p].owner},
         tasks := s.tasks[p := s.tasks[p].(settled := Failed)])
    case Resume(caller) =>
      var call := s.calls[caller];
      s.(calls := s.calls[caller := call.(state :=
        if s.tasks[call.state.promise].settled == Resolved then Returned else Threw)])
  }

  /** The table lists exactly the setups still running, one for a peer, and none for a ready peer. */
  ghost predicate TableInv(s: State) {
    && (forall peer :: peer in s.promises ==>
         s.promises[peer] < |s.tasks| && s.tasks[s.promises[peer]] == Task(peer, Pending))
    && (forall p :: 0 <= p < |s.tasks| && s.tasks[p].settled == Pending ==>
         s.tasks[p].owner in s.promises && s.promises[s.tasks[p].owner] == p
         && s.tasks[p].owner !in s.initialized)
  }

  /** A peer is ready exactly when one of its setups resolved, and only one ever does. */
  ghost predicate ReadyInv(s: State) {
    && (forall p :: 0 <= p < |s.tasks| && s.tasks[p].settled == Resolved ==> s.tasks[p].owner in s.initialized)
    && (forall peer :: peer in s.initialized ==> SomeResolved(s, peer))
    && (forall p, q :: 0 <= p < q < |s.tasks| && s.tasks[p].settled == Resolved && s.tasks[q].settled == Resolved ==>
         s.tasks[p].owner != s.tasks[q].owner)
  }

  ghost predicate SomeResolved(s: State, peer: Peer) {
    exists p :: 0 <= p < |s.tasks| && s.tasks[p] == Task(peer, Resolved)
  }

  ghost predicate CallInv(s: State) {
    && (forall c :: c in s.calls && s.calls[c].state.Awaiting? ==>
         s.calls[c].state.promise < |s.tasks| && s.tasks[s.calls[c].state.promise].owner == s.calls[c].peer)
    && (forall c :: c in s.calls && s.calls[c].state == Returned ==> s.calls[c].peer in s.initialized)
  }

  ghost predicate Inv(s: State) {
    TableInv(s) && ReadyInv(s) && CallInv(s)
  }

  lemma TableStep(s: State, step: Step)
    requires TableInv(s) && Enabled(s, step)
    ensures TableInv(Next(s, step))
  {
    var t := Next(s, step);
    match step
    case Ensure(_, peer) =>
      assert t.tasks == s.tasks || (t.tasks == s.tasks + [Task(peer, Pending)] && peer !in s.promises);
    case Succeed(p) => SettledTable(s, p, t);
    case Fail(p) => SettledTable(s, p, t);
    case Resume(_) =>
  }

  /** Settling a task takes it, and it alone, off the table. */
  lemma SettledTable(s: State, p: Promise, t: State)
    requires TableInv(s) && p < |s.tasks| && s.tasks[p].settled == Pending
    requires t.promises == s.promises - {s.tasks[p].owner}
    requires |t.tasks| == |s.tasks| && t.tasks[p].settled != Pending
    requires forall q :: 0 <= q < |s.tasks| && q != p ==> t.tasks[q] == s.tasks[q]
    requires t.initialized <= s.initialized + {s.tasks[p].owner}
    ensures TableInv(t)
  {
  }

  lemma ReadyStep(s: State, step: Step)
    requires TableInv(s) && ReadyInv(s) && Enabled(s, step)
    ensures ReadyInv(Next(s, step))
  {
    var t := Next(s, step);
    forall peer | peer in t.initialized
      ensures SomeResolved(t, peer)
    {
      if peer in s.initialized {
        var p :| 0 <= p < |s.tasks| && s.tasks[p] == Task(peer, Resolved);
        assert t.tasks[p] == Task(peer, Resolved);
      } else {
        assert t.tasks[step.promise] == Task(peer, Resolved);
      }
    }
  }

  lemma CallStep(s: State, step: Step)
    requires Inv(s) && Enabled(s, step)
    ensures CallInv(Next(s, step))
  {
  }

  /** Every step keeps the invariant. */
  lemma InvStep(s: State, step: Step)
    requires Inv(s) && Enabled(s, step)
    ensures Inv(Next(s, step))
  {
    TableStep(s, step);
    ReadyStep(s, step);
    CallStep(s, step);
  }

  predicate IsRun(s: State, steps: seq<Step>)
    decreases |steps|
  {
    steps == [] || (Enabled(s, steps[0]) && IsRun(Next(s, steps[0]), steps[1..]))
  }

  function Final(s: State, steps: seq<Step>): State
    requires IsRun(s, steps)
    decreases |steps|
  {
    if steps == [] then s else Final(Next(s, steps[0]), steps[1..])
  }

  lemma {:induction false} InvRun(s: State, steps: seq<Step>)
    requires Inv(s) && IsRun(s, steps)
    ensures Inv(Final(s, steps))
    decreases |steps|
  {
    if steps != [] {
      InvStep(s, steps[0]);
      InvRun(Next(s, steps[0]), steps[1..]);
    }
  }

  /** In every interleaving: at most one setup of a peer is running, at most one ever resolves, and no
      setup runs once one has resolved. */
  lemma OneSetupPerPeer(steps: seq<Step>, p: Promise, q: Promise)
    requires IsRun(Start, steps)
    requires p < q < |Final(Start, steps).tasks|
    requires Final(Start, steps).tasks[p].owner == Final(Start, steps).tasks[q].owner
    ensures var tasks := Final(Start, steps).tasks;
            tasks[p].settled == Failed || tasks[q].settled == Failed
  {
    InvRun(Start, steps);
  }

  /** A caller that returned normally finds its peer initialised. */
  lemma ReturnedMeansReady(steps: seq<Step>, c: Caller)
    requires IsRun(Start, steps) && c in Final(Start, steps).calls && Final(Start, steps).calls[c].state == Returned
    ensures Final(Start, steps).calls[c].peer in Final(Start, steps).initialized
  {
    InvRun(Start, steps);
  }

  // ---------- How a call ends ----------

  function StateAt(s: State, steps: seq<Step>, i: nat): State
    requires IsRun(s, steps) && i <= |steps|
    decreases i
  {
    if i == 0 then s else StateAt(Next(s, steps[0]), steps[1..], i - 1)
  }

  /** At step i the caller was resumed behind `promise`, whose task is `task`. */
  ghost predicate ResumedBehind(s: State, steps: seq<Step>, i: nat, c: Caller, promise: Promise, task: Task)
    requires IsRun(s, steps)
  {
    && i < |steps| && steps[i] == Resume(c)
    && var t := StateAt(s, steps, i);
       c in t.calls && t.calls[c].state == Awaiting(promise) && promise < |t.tasks| && t.tasks[promise] == task
  }

  ghost predicate SomewhereResumedBehind(s: State, steps: seq<Step>, c: Caller, task: Task)
    requires IsRun(s, steps)
  {
    exists i: nat, promise: nat :: ResumedBehind(s, steps, i, c, promise, task)
  }

  lemma ThrewStep(s: State, step: Step, c: Caller)
    requires Inv(s) && Enabled(s, step)
    requires c in Next(s, step).calls && Next(s, step).calls[c].state == Threw
    requires c in s.calls ==> s.calls[c].state != Threw
    ensures step == Resume(c) && c in s.calls && s.calls[c].state.Awaiting?
    ensures Next(s, step).calls[c].peer == s.calls[c].peer
    ensures var p := s.calls[c].state.promise; p < |s.tasks| && s.tasks[p] == Task(s.calls[c].peer, Failed)
  {
  }

  lemma EndedStays(s: State, step: Step, c: Caller)
    requires Enabled(s, step) && c in s.calls
    ensures c in Next(s, step).calls && Next(s, step).calls[c].peer == s.calls[c].peer
    ensures !s.calls[c].state.Awaiting? ==> Next(s, step).calls[c] == s.calls[c]
  {
  }

  lemma {:induction false} EndedStaysRun(s: State, steps: seq<Step>, c: Caller)
    requires IsRun(s, steps) && c in s.calls
    ensures c in Final(s, steps).calls && Final(s, steps).calls[c].peer == s.calls[c].peer
    ensures !s.calls[c].state.Awaiting? ==> Final(s, steps).calls[c] == s.calls[c]
    decreases |steps|
  {
    if steps != [] {
      EndedStays(s, steps[0], c);
      EndedStaysRun(Next(s, steps[0]), steps[1..], c);
    }
  }

  lemma LaterBehind(s: State, steps: seq<Step>, i: nat, c: Caller, promise: Promise, task: Task)
    requires IsRun(s, steps) && steps != [] && ResumedBehind(Next(s, steps[0]), steps[1..], i, c, promise, task)
    ensures ResumedBehind(s, steps, i + 1, c, promise, task)
  {
    assert steps[1..][i] == steps[i + 1];
  }

  lemma {:induction false} ThrewRun(s: State, steps: seq<Step>, c: Caller)
    requires Inv(s) && IsRun(s, steps) && c in Final(s, steps).calls && Final(s, steps).calls[c].state == Threw
    requires c in s.calls ==> s.calls[c].state != Threw
    ensures SomewhereResumedBehind(s, steps, c, Task(Final(s, steps).calls[c].peer, Failed))
    decreases |steps|
  {
    var t, task := Next(s, steps[0]), Task(Final(s, steps).calls[c].peer, Failed);
    if c in t.calls && t.calls[c].state == Threw {
      ThrewStep(s, steps[0], c);
      EndedStaysRun(t, steps[1..], c);
      assert ResumedBehind(s, steps, 0, c, s.calls[c].state.promise, task);
    } else {
      InvStep(s, steps[0]);
      ThrewRun(t, steps[1..], c);
      var i: nat, promise: nat :| ResumedBehind(t, steps[1..], i, c, promise, task);
      LaterBehind(s, steps, i, c, promise, task);
    }
  }

  /** A caller threw only because it was resumed behind a setup of its own peer that had failed. */
  lemma ThrewMeansFailed(steps: seq<Step>, c: Caller)
    requires IsRun(Start, steps) && c in Final(Start, steps).calls && Final(Start, steps).calls[c].state == Threw
    ensures SomewhereResumedBehind(Start, steps, c, Task(Final(Start, steps).calls[c].peer, Failed))
  {
    ThrewRun(Start, steps, c);
  }

  /** A waiting caller waits behind a setup of its own peer, and when resumed returns exactly if that
      setup resolved and throws exactly if it failed. */
  lemma ResumedExactly(steps: seq<Step>, c: Caller)
    requires IsRun(Start, steps) && Enabled(Final(Start, steps), Resume(c))
    ensures var s := Final(Start, steps);
            var promise, ended := s.calls[c].state.promise, Next(s, Resume(c)).calls[c];
            && s.tasks[promise].owner == s.calls[c].peer == ended.peer
            && (ended.state == Returned <==> s.tasks[promise].settled == Resolved)
            && (ended.state == Threw <==> s.tasks[promise].settled == Failed)
  {
    InvRun(Start, steps);
  }

  /** A call for an initialised peer returns at once; any other call waits. */
  lemma ReadyReturnsAtOnce(steps: seq<Step>, c: Caller, peer: Peer)
    requires IsRun(Start, steps) && c !in Final(Start, steps).calls
    ensures var s := Final(Start, steps);
            var call := Next(s, Ensure(c, peer)).calls[c];
            && call.peer == peer
            && (call.state == Returned <==> exists p :: 0 <= p < |s.tasks| && s.tasks[p] == Task(peer, Resolved))
            && (call.state != Returned ==> call.state.Awaiting?)
  {
    InvRun(Start, steps);
    var s := Final(Start, steps);
    assert peer in s.initialized <==> SomeResolved(s, peer);
  }

  /** While no setup of a peer is running or has resolved, also after any number of failures, the next
      call starts a fresh one; otherwise it starts none. */
  lemma StartsExactlyWhenNeeded(steps: seq<Step>, c: Caller, peer: Peer)
    requires IsRun(Start, steps) && c !in Final(Start, steps).calls
    ensures var s := Final(Start, steps);
            var t := Next(s, Ensure(c, peer));
            if forall p :: 0 <= p < |s.tasks| && s.tasks[p].owner == peer ==> s.tasks[p].settled == Failed
            then t.tasks == s.tasks + [Task(peer, Pending)] && t.calls[c] == Call(peer, Awaiting(|s.tasks|))
            else t.tasks == s.tasks
  {
    InvRun(Start, steps);
  }

  /** No caller is left hanging: a caller still waits only behind a setup that is still running, or it
      can be resumed. */
  lemma NobodyHangs(steps: seq<Step>, c: Caller)
    requires IsRun(Start, steps) && c in Final(Start, steps).calls && Final(Start, steps).calls[c].state.Awaiting?
    ensures var s := Final(Start, steps);
            Enabled(s, Resume(c)) || Enabled(s, Succeed(s.calls[c].state.promise))
  {
    InvRun(Start, steps);
  }

  /** The module's state, and the pieces of `ensurePeerSession` between its awaits. */
  class CryptoService {
    var initializedSessions: set<Peer>
    var initializingPromises: map<Peer, Promise>
    var tasks: seq<Task>

    constructor ()
      ensures initializedSessions == {} && initializingPromises == map[] && tasks == []
    {
      initializedSessions, initializingPromises, tasks := {}, map[], [];
    }

    ghost predicate Represents(s: State)
      reads this
    {
      initializedSessions == s.initialized && initializingPromises == s.promises && tasks == s.tasks
    }

    /** Up to the first await; None means the session was there. */
    method Ensure(peer: Peer, caller: Caller, ghost s: State) returns (awaits: Option<Promise>)
      requires Represents(s) && caller !in s.calls
      modifies this`initializingPromises, this`tasks
      ensures var t := Next(s, Step.Ensure(caller, peer));
              && Represents(t)
              && t.calls[caller] == Call(peer, if awaits.None? then Returned else Awaiting(awaits.value))
    {
      if peer in initializedSessions {
        return None;
      }
      if peer in initializingPromises {
        return Some(initializingPromises[peer]);
      }
      var promise := |tasks|;
      tasks := tasks + [Task(peer, Pending)];
      initializingPromises := initializingPromises[peer := promise];
      return Some(promise);
    }

    /** The continuation of `await promise` once it has settled: true is a normal return, false a throw. */
    method Resume(promise: Promise, caller: Caller, ghost s: State) returns (returned: bool)
      requires Represents(s) && caller in s.calls && s.calls[caller].state == Awaiting(promise)
      requires promise < |tasks| && tasks[promise].settled != Pending
      ensures Represents(Next(s, Step.Resume(caller)))
      ensures Next(s, Step.Resume(caller)).calls[caller].state == if returned then Returned else Threw
    {
      match tasks[promise].settled
      case Resolved => return true;
      case Failed => return false;
    }

    /** The end of the setup task: `initSession` returned or something threw. */
    method Settle(promise: Promise, success: bool, ghost s: State)
      requires Represents(s) && promise < |tasks| && tasks[promise].settled == Pending
      modifies this
      ensures Represents(Next(s, if success then Succeed(promise) else Fail(promise)))
    {
      var peer := tasks[promise].owner;
      if success {
        initializedSessions := initializedSessions + {peer};
      }
      initializingPromises := initializingPromises - {peer};
      tasks := tasks[promise := Task(peer, if success then Resolved else Failed)];
    }
  }
}
