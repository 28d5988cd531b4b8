/** No two calls of an account get payloads accepted at the same nonce. */
module NonceSafety {
  import opened Text
  import opened Fees
  import opened Ledger
  import opened Worker
  import opened Broadcaster
  import Lock = BroadcastLock

  predicate SameAccount(a: Sent, b: Sent) {
    a.chain == b.chain && a.from == b.from
  }

  /** `e` is an accepted transaction of the account of call `c` that is not one of the
      call's own payload attempts. */
  predicate Foreign(s: State, e: Sent, c: nat)
    requires c < |s.options|
  {
    && e.b.accepted
    && e.chain == s.options[c].chain && e.from == s.options[c].from
    && !(e.call == c && e.b.origin == Payload)
  }

  /** The assumption on the RPC: a pending count is above every nonce accepted so far.
      Callers do not bring their own nonce. */
  ghost predicate HonestCounts(s: State, step: Step)
    requires Enabled(s, step)
  {
    && (step.Call? ==> step.options.requestedNonce.None?)
    && (step.Act? && (step.action.ReadPending? || step.action.RefreshNonce?) ==>
          forall i :: 0 <= i < |s.sent| && s.sent[i].b.accepted
                      && s.sent[i].chain == s.options[step.call].chain && s.sent[i].from == s.options[step.call].from
            ==> s.sent[i].b.nonce < step.action.nonce)
  }

  ghost predicate HonestRun(s: State, steps: seq<Step>)
    requires IsRun(s, steps)
    decreases |steps|
  {
    steps == [] || (HonestCounts(s, steps[0]) && HonestRun(Apply(s, steps[0]), steps[1..]))
  }

  /** The pinned nonce of a running call is above every foreign accepted nonce. */
  ghost predicate Fresh(s: State, c: nat)
    requires Sized(s) && c < |s.workers|
  {
    IsRunning(s, c) && InLoop(s.workers[c].pc) ==>
      forall i :: 0 <= i < |s.sent| && Foreign(s, s.sent[i], c) ==> s.sent[i].b.nonce < s.workers[c].contextNonce
  }

  /** A payload accepted later has a larger nonce than anything the account's other calls,
      or its own recovery, got accepted before. */
  ghost predicate Separated(sent: seq<Sent>) {
    forall i, j :: 0 <= i < j < |sent| && SameAccount(sent[i], sent[j])
                   && sent[i].b.accepted && sent[j].b.accepted && sent[j].b.origin == Payload
                   && !(sent[i].call == sent[j].call && sent[i].b.origin == Payload)
      ==> sent[i].b.nonce < sent[j].b.nonce
  }

  ghost predicate NonceInv(s: State) {
    && Inv(s)
    && (forall c :: 0 <= c < |s.options| ==> s.options[c].requestedNonce.None?)
    && (forall c :: 0 <= c < |s.workers| ==> Fresh(s, c))
    && Separated(s.sent)
  }

  /** The account's log after a step of call `c` that pinned, kept or used its nonce. */
  lemma FreshAfterAct(s: State, t: State, c: nat, log: seq<Sent>, d: nat)
    requires Inv(s) && Moved(s, t, c, log) && IsRunning(s, c)
    requires d < |s.workers| && Fresh(s, d)
    requires InLoop(t.workers[c].pc) ==>
               || (forall i :: 0 <= i < |s.sent| && Foreign(s, s.sent[i], c) ==>
                   s.sent[i].b.nonce < t.workers[c].contextNonce)
               || (InLoop(s.workers[c].pc) && t.workers[c].contextNonce == s.workers[c].contextNonce)
    requires log != [] && InLoop(t.workers[c].pc) ==> log[0].b.origin == Payload
    ensures Fresh(t, d)
  {
    if d != c && IsRunning(s, d) {
      OneRunner(s, c, d);
    }
    if IsRunning(t, d) && InLoop(t.workers[d].pc) {
      forall i | 0 <= i < |t.sent| && Foreign(t, t.sent[i], d)
        ensures t.sent[i].b.nonce < t.workers[d].contextNonce
      {
        assert i < |s.sent| ==> Foreign(s, s.sent[i], d);
      }
    }
  }

  lemma SeparatedAfterAct(s: State, c: nat, log: seq<Sent>)
    requires Inv(s) && Separated(s.sent) && c < |s.workers| && Fresh(s, c) && IsRunning(s, c) && OwnLog(s, c, log)
    requires log != [] && log[0].b.origin == Payload ==>
        InLoop(s.workers[c].pc) && log[0].b.nonce == s.workers[c].contextNonce
    ensures Separated(s.sent + log)
  {
    if log != [] && log[0].b.origin == Payload {
      forall i | 0 <= i < |s.sent| && SameAccount(s.sent[i], log[0]) && s.sent[i].b.accepted
                 && !(s.sent[i].call == c && s.sent[i].b.origin == Payload)
        ensures s.sent[i].b.nonce < log[0].b.nonce
      {
        assert Foreign(s, s.sent[i], c);
      }
    }
  }

  lemma NonceInvAct(s: State, c: nat, a: Action)
    requires NonceInv(s) && Enabled(s, Act(c, a)) && HonestCounts(s, Act(c, a))
    ensures NonceInv(Apply(s, Act(c, a)))
  {
    var t, log := Apply(s, Act(c, a)), Log(s, c, a);
    InvStep(s, Act(c, a));
    NonceEffects(s.options[c], s.workers[c], s.ledger, a);
    forall d | 0 <= d < |t.workers|
      ensures Fresh(t, d)
    {
      FreshAfterAct(s, t, c, log, d);
    }
    SeparatedAfterAct(s, c, log);
  }

  lemma NonceInvStep(s: State, step: Step)
    requires NonceInv(s) && Enabled(s, step) && HonestCounts(s, step)
    ensures NonceInv(Apply(s, step))
  {
    if step.Act? {
      NonceInvAct(s, step.call, step.action);
    } else {
      InvStep(s, step);
      forall d | 0 <= d < |Apply(s, step).workers|
        ensures Fresh(Apply(s, step), d)
      {
        FreshElsewhere(s, step, d);
      }
    }
  }

  lemma FreshElsewhere(s: State, step: Step, d: nat)
    requires Inv(s) && Enabled(s, step) && !step.Act? && Sized(Apply(s, step)) && d < |Apply(s, step).workers|
    requires d < |s.workers| ==> Fresh(s, d)
    ensures Fresh(Apply(s, step), d)
  {
    var t := Apply(s, step);
    if d < |s.workers| && InLoop(t.workers[d].pc) {
      assert forall i :: 0 <= i < |t.sent| ==> Foreign(t, t.sent[i], d) == Foreign(s, s.sent[i], d);
      assert !s.lock.calls[d].phase.Waiting?;
    }
  }

  lemma {:induction false} NonceInvRun(s: State, steps: seq<Step>)
    requires NonceInv(s) && IsRun(s, steps) && HonestRun(s, steps)
    ensures NonceInv(Final(s, steps))
    decreases |steps|
  {
    if steps != [] {
      NonceInvStep(s, steps[0]);
      NonceInvRun(Apply(s, steps[0]), steps[1..]);
    }
  }

  /** In every interleaving of any number of calls, whatever the ledger held at the start:
      payloads that different calls of one account got accepted never share a nonce, and
      later ones have larger nonces.  Requests the wallet reported as failed but the network
      accepted are included. */
  lemma NoNonceCollision(ledger: Entries, clock: int, steps: seq<Step>, i: nat, j: nat)
    requires IsRun(Initial(ledger, clock), steps) && HonestRun(Initial(ledger, clock), steps)
    requires i < j < |Final(Initial(ledger, clock), steps).sent|
    requires var sent := Final(Initial(ledger, clock), steps).sent;
             && SameAccount(sent[i], sent[j]) && sent[i].call != sent[j].call
             && sent[i].b.accepted && sent[j].b.accepted
             && sent[j].b.origin == Payload
    ensures var sent := Final(Initial(ledger, clock), steps).sent;
            sent[i].b.nonce < sent[j].b.nonce
  {
    NonceInvRun(Initial(ledger, clock), steps);
  }

  // ---------------------------------------------------------------- what the lock is for

  /** The same system without the lock: a call's body may start at any time. */
  predicate UnlockedEnabled(s: State, step: Step) {
    if step.Enter? then Sized(s) && step.call < |s.lock.calls| && s.lock.calls[step.call].phase.Waiting?
    else Enabled(s, step)
  }

  function UnlockedApply(s: State, step: Step): State
    requires UnlockedEnabled(s, step)
  {
    if step.Enter? then s.(lock := Lock.WithPhase(s.lock, step.call, Lock.Running)) else Apply(s, step)
  }

  /** A run of the unlocked system, as the states it passes, with honest pending counts. */
  ghost predicate UnlockedRun(states: seq<State>, steps: seq<Step>) {
    && |states| == |steps| + 1
    && states[0] == Initial(map[], 0)
    && forall i :: 0 <= i < |steps| ==> UnlockedStep(states[i], steps[i], states[i + 1])
  }

  ghost predicate UnlockedStep(s: State, step: Step, t: State) {
    && UnlockedEnabled(s, step)
    && (Enabled(s, step) ==> HonestCounts(s, step))
    && t == UnlockedApply(s, step)
  }

  lemma Extend(states: seq<State>, steps: seq<Step>, step: Step) returns (states': seq<State>, steps': seq<Step>)
    requires UnlockedRun(states, steps)
    requires UnlockedEnabled(states[|steps|], step)
    requires Enabled(states[|steps|], step) ==> HonestCounts(states[|steps|], step)
    ensures UnlockedRun(states', steps') && |steps'| == |steps| + 1
    ensures states'[|steps'|] == UnlockedApply(states[|steps|], step)
  {
    states' := states + [UnlockedApply(states[|steps|], step)];
    steps' := steps + [step];
    forall i | 0 <= i < |steps'|
      ensures UnlockedStep(states'[i], steps'[i], states'[i + 1])
    {
      if i < |steps| {
        assert UnlockedStep(states[i], steps[i], states[i + 1]);
      }
    }
  }

  const CALLER := Options(1, "0xa", None, EMPTY, 6, 120000)

  /** Two callers of one account, both inside, at the same point and with nothing sent. */
  ghost predicate SideBySide(s: State, w: Worker) {
    && Sized(s) && |s.workers| == 2 && s.clock == 0 && s.sent == [] && s.ledger == map[]
    && IsRunning(s, 0) && IsRunning(s, 1)
    && s.workers[0] == w == s.workers[1]
    && s.options[0] == CALLER == s.options[1]
  }

  lemma BothEnter() returns (states: seq<State>, steps: seq<Step>)
    ensures UnlockedRun(states, steps) && SideBySide(states[|steps|], START)
  {
    assert Lower("0xa") == "0xa";
    states, steps := [Initial(map[], 0)], [];
    states, steps := Extend(states, steps, Call("0xa", CALLER));
    states, steps := Extend(states, steps, Call("0xa", CALLER));
    states, steps := Extend(states, steps, Enter(0));
    states, steps := Extend(states, steps, Enter(1));
  }

  /** One action by each of two callers at the same point. */
  lemma BothAct(states: seq<State>, steps: seq<Step>, w: Worker, a: Action, w': Worker)
    returns (states': seq<State>, steps': seq<Step>)
    requires UnlockedRun(states, steps) && SideBySide(states[|steps|], w)
    requires Next(CALLER, w, map[], a) == Some(Config(w', map[])) && Emits(CALLER, w, a) == None
    requires a.ReadCounts? || a.RecordPayload? ==> a.now == 0
    ensures UnlockedRun(states', steps') && SideBySide(states'[|steps'|], w')
  {
    states', steps' := Extend(states, steps, Act(0, a));
    states', steps' := Extend(states', steps', Act(1, a));
  }

  /** Without the lock two callers of one account do collide, with honest counts throughout. */
  lemma UnlockedCallersCollide() returns (states: seq<State>, steps: seq<Step>)
    ensures UnlockedRun(states, steps)
    ensures var sent := states[|steps|].sent;
            && |sent| == 2 && SameAccount(sent[0], sent[1]) && sent[0].call != sent[1].call
            && sent[0].b.accepted && sent[1].b.accepted
            && sent[0].b.origin == Payload && sent[1].b.origin == Payload
            && sent[0].b.nonce == sent[1].b.nonce
  {
    var fee := ResultForAttempt(EstimateFailed, GasPriceFailed, 0, None, true);
    states, steps := BothEnter();
    states, steps := BothAct(states, steps, START, ReadCounts(7, 7, 0), Worker(ReadNonce, 0, 0));
    states, steps := BothAct(states, steps, Worker(ReadNonce, 0, 0), ReadPending(7), Worker(Pc.Lookup(0), 7, 7));
    states, steps := BothAct(states, steps, Worker(Pc.Lookup(0), 7, 7), LookUp, Worker(Quote(0, None), 7, 7));
    states, steps := BothAct(states, steps, Worker(Quote(0, None), 7, 7),
                             QuoteFees(EstimateFailed, GasPriceFailed), Worker(Send(0, fee), 7, 7));
    states, steps := Extend(states, steps, Act(0, SendPayload(100, None)));
    states, steps := Extend(states, steps, Act(1, SendPayload(101, None)));
  }
}
