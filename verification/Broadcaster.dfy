/** All tracked broadcasts of a process: any number of calls, each running the worker
    machine under one address lock over one shared ledger, interleaved arbitrarily. */
module Broadcaster {
  import opened Text
  import opened Ledger
  import opened Worker
  import Lock = BroadcastLock

  /** A request handed to a wallet, with the call that made it and the time of the hand-over. */
  datatype Sent = Sent(call: nat, chain: nat, from: string, b: Broadcast, sentAt: int)

  datatype State = State(
    lock: Lock.State, options: seq<Options>, workers: seq<Worker>, ledger: Entries, sent: seq<Sent>, clock: int)

  datatype Step =
    | Call(from: string, options: Options)
    | Enter(call: nat)
    | Act(call: nat, action: Action)
    | Exit(call: nat)
    | Tick(ms: nat)

  function Initial(ledger: Entries, clock: int): State {
    State(Lock.INITIAL, [], [], ledger, [], clock)
  }

  predicate Sized(s: State) {
    |s.lock.calls| == |s.options| == |s.workers|
  }

  predicate IsRunning(s: State, c: nat) {
    c < |s.lock.calls| && s.lock.calls[c].phase.Running?
  }

  predicate Finished(w: Worker) {
    w.pc.Done?
  }

  /** The lock step inside a step, if any. */
  predicate LockAllows(s: State, step: Step)
    requires Sized(s)
  {
    match step
    case Call(from, o) => o.from == Lower(from)
    case Enter(c) => Lock.Enabled(s.lock, Lock.Enter(c))
    case Exit(c) => IsRunning(s, c) && Finished(s.workers[c])
    case _ => true
  }

  /** Steps of a call's body; timestamps are read off the clock. */
  predicate BodyAllows(s: State, step: Step)
    requires Sized(s)
  {
    step.Act? ==>
      && IsRunning(s, step.call)
      && Next(s.options[step.call], s.workers[step.call], s.ledger, step.action).Some?
      && (step.action.ReadCounts? || step.action.RecordPayload? ==> step.action.now == s.clock)
  }

  predicate Enabled(s: State, step: Step) {
    Sized(s) && LockAllows(s, step) && BodyAllows(s, step)
  }

  function Log(s: State, c: nat, a: Action): seq<Sent>
    requires Sized(s) && c < |s.workers|
  {
    var o := s.options[c];
    var e := Emits(o, s.workers[c], a);
    if e.Some? then [Sent(c, o.chain, o.from, e.value, s.clock)] else []
  }

  function Apply(s: State, step: Step): State
    requires Enabled(s, step)
  {
    match step
    case Call(from, o) =>
      s.(lock := Lock.Apply(s.lock, Lock.Request(from)), options := s.options + [o], workers := s.workers + [START])
    case Enter(c) => s.(lock := Lock.Apply(s.lock, Lock.Enter(c)))
    case Act(c, a) =>
      var n := Next(s.options[c], s.workers[c], s.ledger, a).value;
      s.(workers := s.workers[c := n.worker], ledger := n.ledger, sent := s.sent + Log(s, c, a))
    case Exit(c) =>
      s.(lock := Lock.Apply(s.lock, Lock.Exit(c, !s.workers[c].pc.outcome.Hash?)))
    case Tick(ms) => s.(clock := s.clock + ms)
  }

  predicate IsRun(s: State, steps: seq<Step>)
    decreases |steps|
  {
    steps == [] || (Enabled(s, steps[0]) && IsRun(Apply(s, steps[0]), steps[1..]))
  }

  function Final(s: State, steps: seq<Step>): State
    requires IsRun(s, steps)
    decreases |steps|
  {
    if steps == [] then s else Final(Apply(s, steps[0]), steps[1..])
  }

  lemma {:induction false} RunExtends(s: State, steps: seq<Step>, step: Step)
    requires IsRun(s, steps) && Enabled(Final(s, steps), step)
    ensures IsRun(s, steps + [step]) && Final(s, steps + [step]) == Apply(Final(s, steps), step)
    decreases |steps|
  {
    if steps == [] {
      assert [step][1..] == [];
    } else {
      RunExtends(Apply(s, steps[0]), steps[1..], step);
      assert (steps + [step])[0] == steps[0] && (steps + [step])[1..] == steps[1..] + [step];
    }
  }

  // ---------------------------------------------------------------- structure

  ghost predicate Inv(s: State) {
    && Sized(s)
    && Lock.Inv(s.lock)
    && (forall c :: 0 <= c < |s.workers| ==>
          && s.options[c].from == s.lock.calls[c].key
          && LoopInv(s.options[c], s.workers[c])
          && (s.lock.calls[c].phase.Waiting? ==> s.workers[c] == START)
          && (s.lock.calls[c].phase.Released? ==> s.workers[c].pc.Done?))
    && (forall i :: 0 <= i < |s.sent| ==>
          && s.sent[i].call < |s.options|
          && s.sent[i].from == s.options[s.sent[i].call].from
          && s.sent[i].chain == s.options[s.sent[i].call].chain)
  }

  lemma InvAct(s: State, c: nat, a: Action)
    requires Inv(s) && Enabled(s, Act(c, a))
    ensures Inv(Apply(s, Act(c, a)))
  {
    LoopInvStep(s.options[c], s.workers[c], s.ledger, a);
  }

  lemma InvCall(s: State, from: string, o: Options)
    requires Inv(s) && Enabled(s, Call(from, o))
    ensures Inv(Apply(s, Call(from, o)))
  {
    Lock.InvStep(s.lock, Lock.Request(from));
  }

  lemma InvEnter(s: State, c: nat)
    requires Inv(s) && Enabled(s, Enter(c))
    ensures Inv(Apply(s, Enter(c)))
  {
    Lock.InvStep(s.lock, Lock.Enter(c));
  }

  lemma InvExit(s: State, c: nat)
    requires Inv(s) && Enabled(s, Exit(c))
    ensures Inv(Apply(s, Exit(c)))
  {
    Lock.InvStep(s.lock, Lock.Exit(c, !s.workers[c].pc.outcome.Hash?));
  }

  lemma InvStep(s: State, step: Step)
    requires Inv(s) && Enabled(s, step)
    ensures Inv(Apply(s, step))
  {
    match step
    case Call(from, o) => InvCall(s, from, o);
    case Enter(c) => InvEnter(s, c);
    case Act(c, a) => InvAct(s, c, a);
    case Exit(c) => InvExit(s, c);
    case Tick(_) =>
  }

  lemma {:induction false} InvRun(s: State, steps: seq<Step>)
    requires Inv(s) && IsRun(s, steps)
    ensures Inv(Final(s, steps))
    decreases |steps|
  {
    if steps != [] {
      InvStep(s, steps[0]);
      InvRun(Apply(s, steps[0]), steps[1..]);
    }
  }

  /** The log entries of call `c`: at most one, for its own account. */
  predicate OwnLog(s: State, c: nat, log: seq<Sent>)
    requires c < |s.options|
  {
    && |log| <= 1
    && (log != [] ==>
          log[0].call == c && log[0].chain == s.options[c].chain && log[0].from == s.options[c].from)
  }

  /** What a body step of call `c` leaves alone. */
  predicate Moved(s: State, t: State, c: nat, log: seq<Sent>)
    requires Sized(s)
  {
    && t.lock == s.lock && t.options == s.options && t.clock == s.clock
    && |t.workers| == |s.workers| && c < |s.workers|
    && (forall d :: 0 <= d < |s.workers| && d != c ==> t.workers[d] == s.workers[d])
    && t.sent == s.sent + log
    && OwnLog(s, c, log)
  }

  /** The lock at work: two running calls have different addresses. */
  lemma OneRunner(s: State, c: nat, d: nat)
    requires Inv(s) && IsRunning(s, c) && IsRunning(s, d) && c != d
    ensures s.options[c].from != s.options[d].from
  {
  }
}
