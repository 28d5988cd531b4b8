/** Every finite set of tracked calls finishes: no call can wait or work forever. */
module Progress {
  import opened Text
  import opened Ledger
  import opened Worker
  import opened Broadcaster
  import Fees
  import Lock = BroadcastLock

  // ---------------------------------------------------------------- one call

  function Positive(n: int): nat {
    if n < 0 then 0 else n
  }

  /** Steps the retry loop can still take. */
  function LoopSteps(o: Options): nat {
    5 * Positive(o.maxAttempts)
  }

  /** A bound on the steps a call still takes, if no recovery scan covers more than `range`
      nonces. */
  function StepsLeft(o: Options, w: Worker, range: nat): nat {
    match w.pc
    case Counts => LoopSteps(o) + range + 8
    case Scan(nonce, pending, _) => LoopSteps(o) + Positive(pending - nonce) + 7
    case RecoveryFees(_, _, _) => LoopSteps(o) + 6
    case RecoverySend(_, _, _, _) => LoopSteps(o) + 5
    case RecoveryRecord(_, _, _, _) => LoopSteps(o) + 4
    case RecoveryWait(_, _) => LoopSteps(o) + 3
    case RecoveryResolve(_, _) => LoopSteps(o) + 2
    case ReadNonce => LoopSteps(o) + 1
    case Lookup(i) => 5 * Positive(o.maxAttempts - i)
    case Quote(i, _) => Positive(5 * (o.maxAttempts - i) - 1)
    case Send(i, _) => Positive(5 * (o.maxAttempts - i) - 2)
    case Refresh(i) => Positive(5 * (o.maxAttempts - i) - 3)
    case Sleep(i) => Positive(5 * (o.maxAttempts - i) - 4)
    case Record(_, _) => 1
    case Done(_) => 0
  }

  predicate InRange(a: Action, range: nat) {
    a.ReadCounts? ==> a.pending - a.latest <= range
  }

  lemma ScanningCounts(o: Options, w: Worker, l: Entries, a: Action, range: nat)
    requires w.pc.Counts? || w.pc.Scan?
    requires Next(o, w, l, a).Some? && InRange(a, range)
    ensures StepsLeft(o, Next(o, w, l, a).value.worker, range) < StepsLeft(o, w, range)
  {
  }

  lemma RecoveringCounts(o: Options, w: Worker, l: Entries, a: Action, range: nat)
    requires !InLoop(w.pc) && !w.pc.Counts? && !w.pc.Scan?
    requires Next(o, w, l, a).Some?
    ensures StepsLeft(o, Next(o, w, l, a).value.worker, range) < StepsLeft(o, w, range)
  {
  }

  lemma FailureCounts(o: Options, w: Worker, attempt: nat, f: Failure, range: nat)
    requires attempt < o.maxAttempts
    ensures StepsLeft(o, w.(pc := AfterFailure(o, attempt, f)), range) <= 5 * (o.maxAttempts - attempt) - 3
  {
  }

  lemma TryingCounts(o: Options, w: Worker, l: Entries, a: Action, range: nat)
    requires w.pc.Lookup? || w.pc.Quote? || w.pc.Send?
    requires LoopInv(o, w) && Next(o, w, l, a).Some?
    ensures StepsLeft(o, Next(o, w, l, a).value.worker, range) < StepsLeft(o, w, range)
  {
    if a.Fail? || a.SendFails? {
      FailureCounts(o, w, w.pc.attempt, a.failure, range);
    }
  }

  lemma RetryingCounts(o: Options, w: Worker, l: Entries, a: Action, range: nat)
    requires w.pc.Record? || w.pc.Refresh? || w.pc.Sleep?
    requires LoopInv(o, w) && Next(o, w, l, a).Some?
    ensures StepsLeft(o, Next(o, w, l, a).value.worker, range) < StepsLeft(o, w, range)
  {
  }

  /** Every step brings a call closer to its end. */
  lemma EveryStepCounts(o: Options, w: Worker, l: Entries, a: Action, range: nat)
    requires LoopInv(o, w) && Next(o, w, l, a).Some? && InRange(a, range)
    ensures StepsLeft(o, Next(o, w, l, a).value.worker, range) < StepsLeft(o, w, range)
  {
    if w.pc.Counts? || w.pc.Scan? {
      ScanningCounts(o, w, l, a, range);
    } else if w.pc.Lookup? || w.pc.Quote? || w.pc.Send? {
      TryingCounts(o, w, l, a, range);
    } else if InLoop(w.pc) {
      RetryingCounts(o, w, l, a, range);
    } else {
      RecoveringCounts(o, w, l, a, range);
    }
  }

  /** An action that a call not yet done can always take, whatever the time. */
  function SomeAction(w: Worker): Action {
    match w.pc
    case Scan(_, _, _) => ScanEntry
    case RecoveryFees(_, _, _) => QuoteRecovery(Fees.EstimateFailed, Fees.GasPriceFailed)
    case RecoverySend(_, _, _, _) => SendRecovery(0)
    case ReadNonce => ReadPending(0)
    case Quote(_, _) => QuoteFees(Fees.EstimateFailed, Fees.GasPriceFailed)
    case Send(_, _) => SendPayload(0, None)
    case Sleep(_) => Wake
    case _ => Fail(Failure(false, false))
  }

  /** A whole call takes at most a fixed number of steps. */
  lemma {:induction false} CallEnds(o: Options, w: Worker, l: Entries, trace: seq<Action>, range: nat)
    requires LoopInv(o, w) && IsTrace(o, w, l, trace)
    requires forall i :: 0 <= i < |trace| ==> InRange(trace[i], range)
    ensures |trace| <= StepsLeft(o, w, range)
    decreases |trace|
  {
    if trace != [] {
      var n := Next(o, w, l, trace[0]).value;
      EveryStepCounts(o, w, l, trace[0], range);
      LoopInvStep(o, w, l, trace[0]);
      CallEnds(o, n.worker, n.ledger, trace[1..], range);
    }
  }

  // ---------------------------------------------------------------- all calls

  /** Steps of one call, entering and leaving the lock included. */
  function Share(phase: Lock.Phase, o: Options, w: Worker, range: nat): nat {
    match phase
    case Waiting => StepsLeft(o, w, range) + 2
    case Running => StepsLeft(o, w, range) + 1
    case Released(_) => 0
  }

  function ShareOf(s: State, c: nat, range: nat): nat
    requires Sized(s) && c < |s.workers|
  {
    Share(s.lock.calls[c].phase, s.options[c], s.workers[c], range)
  }

  /** A bound on the steps all calls still take, over the first n of them. */
  function Load(s: State, n: nat, range: nat): nat
    requires Sized(s) && n <= |s.workers|
  {
    if n == 0 then 0 else Load(s, n - 1, range) + ShareOf(s, n - 1, range)
  }

  function TotalLoad(s: State, range: nat): nat
    requires Sized(s)
  {
    Load(s, |s.workers|, range)
  }

  /** Only call c's share changed, and it became smaller. */
  ghost predicate Less(s: State, t: State, c: nat, range: nat)
    requires Sized(s) && Sized(t)
  {
    && |t.workers| == |s.workers| && c < |s.workers|
    && (forall d :: 0 <= d < |s.workers| && d != c ==> ShareOf(t, d, range) == ShareOf(s, d, range))
    && ShareOf(t, c, range) < ShareOf(s, c, range)
  }

  lemma {:induction false} LessLoad(s: State, t: State, c: nat, n: nat, range: nat)
    requires Sized(s) && Sized(t) && Less(s, t, c, range) && n <= |s.workers|
    ensures if c < n then Load(t, n, range) < Load(s, n, range) else Load(t, n, range) == Load(s, n, range)
  {
    if n > 0 {
      LessLoad(s, t, c, n - 1, range);
    }
  }

  lemma {:induction false} SameLoad(s: State, t: State, n: nat, range: nat)
    requires Sized(s) && Sized(t) && n <= |s.workers| == |t.workers|
    requires forall d :: 0 <= d < |s.workers| ==> ShareOf(t, d, range) == ShareOf(s, d, range)
    ensures Load(t, n, range) == Load(s, n, range)
  {
    if n > 0 {
      SameLoad(s, t, n - 1, range);
    }
  }

  predicate RangeOf(step: Step, range: nat) {
    step.Act? ==> InRange(step.action, range)
  }

  lemma ActIsLess(s: State, c: nat, a: Action, range: nat)
    requires Enabled(s, Act(c, a)) && LoopInv(s.options[c], s.workers[c]) && InRange(a, range)
    ensures Sized(Apply(s, Act(c, a))) && Less(s, Apply(s, Act(c, a)), c, range)
  {
    EveryStepCounts(s.options[c], s.workers[c], s.ledger, a, range);
  }

  lemma EnterIsLess(s: State, c: nat, range: nat)
    requires Enabled(s, Enter(c))
    ensures Sized(Apply(s, Enter(c))) && Less(s, Apply(s, Enter(c)), c, range)
  {
  }

  lemma ExitIsLess(s: State, c: nat, range: nat)
    requires Enabled(s, Exit(c))
    ensures Sized(Apply(s, Exit(c))) && Less(s, Apply(s, Exit(c)), c, range)
  {
  }

  /** Work done by a step: everything but new calls and the passing of time. */
  predicate IsWork(step: Step) {
    step.Enter? || step.Act? || step.Exit?
  }

  lemma WorkIsDone(s: State, step: Step, range: nat)
    requires Inv(s) && Enabled(s, step) && RangeOf(step, range) && !step.Call?
    ensures Sized(Apply(s, step))
    ensures TotalLoad(Apply(s, step), range) + (if IsWork(step) then 1 else 0) <= TotalLoad(s, range)
  {
    var t := Apply(s, step);
    match step
    case Enter(c) => EnterIsLess(s, c, range); LessLoad(s, t, c, |s.workers|, range);
    case Act(c, a) => ActIsLess(s, c, a, range); LessLoad(s, t, c, |s.workers|, range);
    case Exit(c) => ExitIsLess(s, c, range); LessLoad(s, t, c, |s.workers|, range);
    case Tick(_) => SameLoad(s, t, |s.workers|, range);
  }

  function WorkSteps(steps: seq<Step>): nat {
    if steps == [] then 0 else (if IsWork(steps[0]) then 1 else 0) + WorkSteps(steps[1..])
  }

  ghost predicate NoCalls(steps: seq<Step>) {
    forall i :: 0 <= i < |steps| ==> !steps[i].Call?
  }

  ghost predicate Ranged(steps: seq<Step>, range: nat) {
    forall i :: 0 <= i < |steps| ==> RangeOf(steps[i], range)
  }

  lemma {:induction false} WorkIsBounded(s: State, steps: seq<Step>, range: nat)
    requires Inv(s) && IsRun(s, steps) && NoCalls(steps) && Ranged(steps, range)
    ensures Inv(Final(s, steps))
    ensures WorkSteps(steps) + TotalLoad(Final(s, steps), range) <= TotalLoad(s, range)
    decreases |steps|
  {
    if steps != [] {
      WorkIsDone(s, steps[0], range);
      InvStep(s, steps[0]);
      WorkIsBounded(Apply(s, steps[0]), steps[1..], range);
    }
  }

  ghost predicate AllFinished(s: State) {
    && s.lock.locks == map[]
    && forall c :: 0 <= c < |s.lock.calls| ==> s.lock.calls[c].phase.Released?
  }

  /** As long as some call is not released, some call can work. */
  lemma SomeCallCanWork(s: State, i: nat) returns (step: Step)
    requires Inv(s) && i < |s.workers| && !s.lock.calls[i].phase.Released?
    ensures Enabled(s, step) && IsWork(step) && (step.Act? ==> !step.action.ReadCounts?)
  {
    var lockStep := Lock.SomethingCanMove(s.lock, i);
    if lockStep.Enter? {
      step := Enter(lockStep.call);
    } else {
      var c := lockStep.call;
      if Finished(s.workers[c]) {
        step := Exit(c);
      } else {
        step := Act(c, SomeAction(s.workers[c]));
      }
    }
  }

  ghost predicate Idle(s: State) {
    forall step: Step :: Enabled(s, step) ==> !IsWork(step)
  }

  /** No call can work exactly when all are released; then the lock's map is empty. */
  lemma IdleIsFinished(s: State)
    requires Inv(s)
    ensures Idle(s) <==> AllFinished(s)
  {
    if i :| 0 <= i < |s.lock.calls| && !s.lock.calls[i].phase.Released? {
      var step := SomeCallCanWork(s, i);
      assert !Idle(s);
    } else if k :| k in s.lock.locks {
      Lock.EntryMeansUnreleased(s.lock, k);
    } else {
      assert AllFinished(s);
    }
  }

  /** In every interleaving: once no further calls come, the calls made so far take at most a
      fixed number of steps between them, given a bound on the scanned nonce ranges; and they
      can only stop when every one of them is released and the lock's map is empty.  Hence
      every finite set of tracked calls finishes. */
  lemma CallsFinish(ledger: Entries, clock: int, earlier: seq<Step>, later: seq<Step>, range: nat)
    requires IsRun(Initial(ledger, clock), earlier)
    requires var s := Final(Initial(ledger, clock), earlier); IsRun(s, later) && NoCalls(later) && Ranged(later, range)
    ensures var s := Final(Initial(ledger, clock), earlier);
            && Sized(s)
            && WorkSteps(later) <= TotalLoad(s, range)
            && (Idle(Final(s, later)) <==> AllFinished(Final(s, later)))
            && (WorkSteps(later) == TotalLoad(s, range) ==> AllFinished(Final(s, later)))
  {
    InvRun(Initial(ledger, clock), earlier);
    var s := Final(Initial(ledger, clock), earlier);
    WorkIsBounded(s, later, range);
    IdleIsFinished(Final(s, later));
    if !AllFinished(Final(s, later)) {
      SomethingLeft(Final(s, later), range);
    }
  }

  lemma SomethingLeft(s: State, range: nat)
    requires Inv(s) && !AllFinished(s)
    ensures TotalLoad(s, range) > 0
  {
    if i :| 0 <= i < |s.lock.calls| && !s.lock.calls[i].phase.Released? {
      ShareIsCounted(s, i, |s.workers|, range);
    } else if k :| k in s.lock.locks {
      Lock.EntryMeansUnreleased(s.lock, k);
    }
  }

  lemma {:induction false} ShareIsCounted(s: State, c: nat, n: nat, range: nat)
    requires Sized(s) && c < n <= |s.workers|
    ensures Load(s, n, range) >= ShareOf(s, c, range)
  {
    if c < n - 1 {
      ShareIsCounted(s, c, n - 1, range);
    }
  }
}
