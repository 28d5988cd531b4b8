/** What a send-with-retry call decides at each of its branches: told from the actions and the
    requests of its trace, not from the step function's own helpers. */
module SendDecisions {
  import opened Text
  import opened Fees
  import opened Ledger
  import opened Worker

  /** An attempt fails before the wallet returned a hash: the earlier fees cannot be read, or
      the wallet rejects the request. */
  predicate FailsBeforeHash(w: Worker, a: Action) {
    (w.pc.Lookup? && a.Fail?) || (w.pc.Send? && a.SendFails?)
  }

  /** How many attempts of a trace failed before a hash. */
  function Failures(o: Options, w: Worker, l: Entries, trace: seq<Action>): nat
    requires IsTrace(o, w, l, trace)
    decreases |trace|
  {
    if trace == [] then 0
    else
      var n := Next(o, w, l, trace[0]).value;
      (if FailsBeforeHash(w, trace[0]) then 1 else 0) + Failures(o, n.worker, n.ledger, trace[1..])
  }

  predicate Trying(pc: Pc) {
    pc.Lookup? || pc.Quote? || pc.Send?
  }

  predicate Pausing(pc: Pc) {
    pc.Refresh? || pc.Sleep?
  }

  /** Failed attempts that a point of the loop stands for. */
  function Failed(pc: Pc): nat {
    if Trying(pc) then pc.attempt else if Pausing(pc) then pc.attempt + 1 else 0
  }

  lemma StepCountsFailures(o: Options, w: Worker, l: Entries, a: Action)
    requires InLoop(w.pc) && Next(o, w, l, a).Some?
    ensures var pc := Next(o, w, l, a).value.worker.pc;
            && (pc.Done? || InLoop(pc))
            && (Trying(pc) || Pausing(pc) ==>
                  !w.pc.Record? && Failed(pc) == Failed(w.pc) + if FailsBeforeHash(w, a) then 1 else 0)
  {
  }

  /** The attempt under way is the number of failures so far. */
  lemma {:induction false} AttemptIsFailures(o: Options, w: Worker, l: Entries, trace: seq<Action>)
    requires IsTrace(o, w, l, trace) && (InLoop(w.pc) || w.pc.Done?)
    ensures var pc := End(o, w, l, trace).worker.pc;
            && (pc.Done? || InLoop(pc))
            && (Trying(pc) || Pausing(pc) ==>
                  (Trying(w.pc) || Pausing(w.pc)) && Failed(pc) == Failed(w.pc) + Failures(o, w, l, trace))
    decreases |trace|
  {
    if trace != [] {
      var n := Next(o, w, l, trace[0]).value;
      StepCountsFailures(o, w, l, trace[0]);
      AttemptIsFailures(o, n.worker, n.ledger, trace[1..]);
    }
  }

  /** The call is over, with this outcome. */
  predicate IsOver(c: Config, outcome: Outcome) {
    c.worker.pc == Done(outcome)
  }

  /** The only thing that can happen is a pause, and then the next attempt starts. */
  ghost predicate PausesThenTries(o: Options, c: Config, attempt: nat, nonce: nat, l: Entries) {
    && (forall a :: Next(o, c.worker, c.ledger, a).Some? ==> a == Wake)
    && Next(o, c.worker, c.ledger, Wake) == Some(Config(Worker(Pc.Lookup(attempt), nonce, nonce), l))
  }

  /** The only thing that can happen is a new pending nonce, used by the next attempt, or a
      failure to get one, which ends the call. */
  ghost predicate RefreshesThenTries(o: Options, c: Config, attempt: nat, l: Entries) {
    && (forall a :: Next(o, c.worker, c.ledger, a).Some? ==> a.RefreshNonce? || a.Fail?)
    && (forall n: nat :: Refreshed(o, c, n, attempt, l))
    && (forall f :: FailsForGood(o, c, f))
  }

  ghost predicate Refreshed(o: Options, c: Config, n: nat, attempt: nat, l: Entries) {
    var r := Next(o, c.worker, c.ledger, Action.RefreshNonce(n));
    r.Some? && PausesThenTries(o, r.value, attempt, n, l)
  }

  ghost predicate FailsForGood(o: Options, c: Config, f: Failure) {
    var r := Next(o, c.worker, c.ledger, Fail(f));
    r.Some? && IsOver(r.value, Threw(f))
  }

  /** What a failed attempt comes to, `failures` counting it too: it is final if it is not
      recoverable or was the last one allowed; otherwise the next attempt follows, after a
      refresh exactly for "nonce too low". */
  ghost predicate Decides(o: Options, c: Config, f: Failure, n: Config, failures: nat) {
    && n.ledger == c.ledger
    && if !f.recoverable || failures >= o.maxAttempts then IsOver(n, Threw(f))
       else if f.nonceTooLow then RefreshesThenTries(o, n, failures, c.ledger)
       else PausesThenTries(o, n, failures, c.worker.contextNonce, c.ledger)
  }

  lemma FailureStep(o: Options, c: Config, a: Action, n: Config)
    requires LoopInv(o, c.worker) && FailsBeforeHash(c.worker, a) && Next(o, c.worker, c.ledger, a) == Some(n)
    ensures Decides(o, c, a.failure, n, c.worker.pc.attempt + 1)
  {
  }

  lemma {:induction false} NothingAfterDone(o: Options, w: Worker, l: Entries, trace: seq<Action>, i: nat)
    requires IsTrace(o, w, l, trace) && i <= |trace| && IsTrace(o, w, l, trace[..i])
    requires End(o, w, l, trace[..i]).worker.pc.Done?
    ensures i == |trace|
  {
    if i < |trace| {
      TracePrefix(o, w, l, trace, i);
    }
  }

  /** In every retry loop, for the failure of any attempt: if it is not recoverable, or as many
      attempts as allowed have failed, the trace ends there with that failure thrown, so
      nothing is sent any more; otherwise the next attempt follows. */
  lemma FailureDecides(o: Options, nonce: nat, l: Entries, trace: seq<Action>, i: nat)
    requires IsTrace(o, StartLoop(o, nonce), l, trace) && i < |trace|
    requires IsTrace(o, StartLoop(o, nonce), l, trace[..i])
    requires FailsBeforeHash(ConfigAt(o, StartLoop(o, nonce), l, trace, i).worker, trace[i])
    ensures IsTrace(o, StartLoop(o, nonce), l, trace[..i + 1])
    ensures var w := StartLoop(o, nonce);
            var failures := Failures(o, w, l, trace[..i]) + 1;
            && Decides(o, ConfigAt(o, w, l, trace, i), trace[i].failure, ConfigAt(o, w, l, trace, i + 1), failures)
            && (!trace[i].failure.recoverable || failures >= o.maxAttempts ==> |trace| == i + 1)
  {
    var w := StartLoop(o, nonce);
    TracePrefix(o, w, l, trace, i);
    LoopInvTrace(o, w, l, trace[..i]);
    AttemptIsFailures(o, w, l, trace[..i]);
    FailureStep(o, ConfigAt(o, w, l, trace, i), trace[i], ConfigAt(o, w, l, trace, i + 1));
    if ConfigAt(o, w, l, trace, i + 1).worker.pc.Done? {
      NothingAfterDone(o, w, l, trace, i + 1);
    }
  }

  predicate Sends(w: Worker, a: Action) {
    w.pc.Send? && (a.SendPayload? || a.SendFails?)
  }

  lemma PayloadIsLast(o: Options, w: Worker, l: Entries, trace: seq<Action>, i: nat, j: nat)
    requires IsTrace(o, w, l, trace) && i < j < |trace|
    requires IsTrace(o, w, l, trace[..i]) && IsTrace(o, w, l, trace[..j])
    requires ConfigAt(o, w, l, trace, i).worker.pc.Send? && trace[i].SendPayload?
    ensures !ConfigAt(o, w, l, trace, j).worker.pc.Send?
  {
    TracePrefix(o, w, l, trace, i);
    TracePrefix(o, w, l, trace, i + 1);
    if j > i + 1 {
      NothingAfterDone(o, w, l, trace, i + 2);
    }
  }

  /** Every send that a later send follows was rejected, with a recoverable failure, and with
      attempts left. */
  lemma ResendsAreJustified(o: Options, nonce: nat, l: Entries, trace: seq<Action>, i: nat, j: nat)
    requires IsTrace(o, StartLoop(o, nonce), l, trace) && i < j < |trace|
    requires IsTrace(o, StartLoop(o, nonce), l, trace[..i]) && IsTrace(o, StartLoop(o, nonce), l, trace[..j])
    requires Sends(ConfigAt(o, StartLoop(o, nonce), l, trace, i).worker, trace[i])
    requires Sends(ConfigAt(o, StartLoop(o, nonce), l, trace, j).worker, trace[j])
    ensures trace[i].SendFails? && trace[i].failure.recoverable
    ensures Failures(o, StartLoop(o, nonce), l, trace[..i]) + 1 < o.maxAttempts
  {
    if trace[i].SendPayload? {
      PayloadIsLast(o, StartLoop(o, nonce), l, trace, i, j);
    } else {
      FailureDecides(o, nonce, l, trace, i);
    }
  }

  // ---------------------------------------------------------------- what is sent, and what is recorded

  /** The unresolved earlier fees at a key. */
  function Unresolved(l: Entries, k: Key): Option<Snapshot> {
    if k in l && l[k].resolvedAt == None then Some(l[k].fees) else None
  }

  /** What led to a point of the loop: the fees of the earlier submission just read, and the
      quote of the attempt. */
  predicate Quotes(o: Options, w: Worker, l: Entries, before: Action) {
    && (w.pc.Quote? ==> w.pc.previous == Unresolved(l, KeyAt(o, w.contextNonce)))
    && (w.pc.Send? ==>
          before.QuoteFees?
          && w.pc.fee == ResultForAttempt(before.estimate, before.gasPrice, w.pc.attempt,
                                          Unresolved(l, KeyAt(o, w.contextNonce)), true))
  }

  lemma QuotesStep(o: Options, w: Worker, l: Entries, before: Action, a: Action)
    requires Quotes(o, w, l, before) && Next(o, w, l, a).Some?
    ensures var n := Next(o, w, l, a).value; Quotes(o, n.worker, n.ledger, a)
  {
  }

  lemma {:induction false} QuotesTrace(o: Options, w: Worker, l: Entries, trace: seq<Action>, before: Action)
    requires IsTrace(o, w, l, trace) && Quotes(o, w, l, before)
    ensures Quotes(o, End(o, w, l, trace).worker, End(o, w, l, trace).ledger,
                   if trace == [] then before else trace[|trace| - 1])
    decreases |trace|
  {
    if trace != [] {
      var n := Next(o, w, l, trace[0]).value;
      QuotesStep(o, w, l, before, trace[0]);
      QuotesTrace(o, n.worker, n.ledger, trace[1..], trace[0]);
    }
  }

  /** What follows a hash: a journal that failed ends the call with the hash; without fees to
      record the call ends with the hash; otherwise the entry is recorded first, and a failure
      to record ends the call with the hash as well. */
  ghost predicate Bookkeeping(o: Options, c: Config, fee: FeeResult, a: Action, n: Config)
    requires a.SendPayload?
  {
    if a.journal.Some? then IsOver(n, PostBroadcast(a.hash, a.journal.value)) && n.ledger == c.ledger
    else if fee.kind == NoFees then IsOver(n, Hash(a.hash)) && n.ledger == c.ledger
    else
      && (forall b :: Next(o, n.worker, n.ledger, b).Some? ==> b.RecordPayload? || b.Fail?)
      && (forall at: int :: Recorded(o, c, fee, a.hash, n, at))
      && (forall f :: NotRecorded(o, c, a.hash, n, f))
  }

  ghost predicate Recorded(o: Options, c: Config, fee: FeeResult, hash: nat, n: Config, at: int) {
    var r := Next(o, n.worker, n.ledger, RecordPayload(at));
    && r.Some? && IsOver(r.value, Hash(hash))
    && r.value.ledger == c.ledger[
         KeyAt(o, c.worker.contextNonce) := Entry(Payload, hash, at, fee.snapshot, None)]
  }

  ghost predicate NotRecorded(o: Options, c: Config, hash: nat, n: Config, f: Failure) {
    var r := Next(o, n.worker, n.ledger, Fail(f));
    r.Some? && IsOver(r.value, PostBroadcast(hash, f)) && r.value.ledger == c.ledger
  }

  /** What the wallet is handed: the quoted fees, or without a quote the caller's own, from
      which a gas price is dropped if both EIP-1559 fields are there. */
  predicate CarriesFees(o: Options, fee: FeeResult, sent: Snapshot) {
    if fee.kind != NoFees then sent == fee.snapshot
    else
      && sent.maxFee == o.own.maxFee && sent.maxPriority == o.own.maxPriority
      && sent.gasPrice == if o.own.maxFee.Some? && o.own.maxPriority.Some? then None else o.own.gasPrice
  }

  lemma SendStep(o: Options, c: Config, a: Action, n: Config)
    requires LoopInv(o, c.worker) && Sends(c.worker, a) && Next(o, c.worker, c.ledger, a) == Some(n)
    ensures var e := Emits(o, c.worker, a);
            && e.Some? && e.value.origin == Payload && e.value.nonce == c.worker.contextNonce
            && CarriesFees(o, c.worker.pc.fee, e.value.fees)
            && e.value.hash == (if a.SendPayload? then Some(a.hash) else None)
    ensures a.SendPayload? ==> Bookkeeping(o, c, c.worker.pc.fee, a, n)
  {
  }

  /** Every send of a retry loop: it directly follows a quote, bids for the attempt that the
      failures so far make it over the unresolved entry at its nonce, carries that bid or the
      caller's own fees, and what follows a hash is exactly the bookkeeping. */
  lemma SendSays(o: Options, nonce: nat, l: Entries, trace: seq<Action>, i: nat)
    requires IsTrace(o, StartLoop(o, nonce), l, trace) && i < |trace|
    requires IsTrace(o, StartLoop(o, nonce), l, trace[..i])
    requires Sends(ConfigAt(o, StartLoop(o, nonce), l, trace, i).worker, trace[i])
    ensures i > 0 && trace[i - 1].QuoteFees? && IsTrace(o, StartLoop(o, nonce), l, trace[..i + 1])
    ensures var w := StartLoop(o, nonce);
            var c, n := ConfigAt(o, w, l, trace, i), ConfigAt(o, w, l, trace, i + 1);
            var fee := ResultForAttempt(trace[i - 1].estimate, trace[i - 1].gasPrice, Failures(o, w, l, trace[..i]),
                                        Unresolved(c.ledger, KeyAt(o, c.worker.contextNonce)), true);
            var e := Emits(o, c.worker, trace[i]);
            && e.Some? && e.value.origin == Payload && e.value.nonce == c.worker.contextNonce
            && CarriesFees(o, fee, e.value.fees)
            && e.value.hash == (if trace[i].SendPayload? then Some(trace[i].hash) else None)
            && (trace[i].SendPayload? ==> Bookkeeping(o, c, fee, trace[i], n))
  {
    var w := StartLoop(o, nonce);
    TracePrefix(o, w, l, trace, i);
    LoopInvTrace(o, w, l, trace[..i]);
    AttemptIsFailures(o, w, l, trace[..i]);
    QuotesTrace(o, w, l, trace[..i], Wake);
    SendStep(o, ConfigAt(o, w, l, trace, i), trace[i], ConfigAt(o, w, l, trace, i + 1));
  }

  lemma {:induction false} ReadsOnlyWithoutNonce(o: Options, w: Worker, l: Entries, trace: seq<Action>)
    requires IsTrace(o, w, l, trace) && (w.pc.ReadNonce? ==> o.requestedNonce.None?)
    ensures End(o, w, l, trace).worker.pc.ReadNonce? ==> o.requestedNonce.None?
    decreases |trace|
  {
    if trace != [] {
      var n := Next(o, w, l, trace[0]).value;
      ReadsOnlyWithoutNonce(o, n.worker, n.ledger, trace[1..]);
    }
  }

  /** How a whole call gets into its retry loop: at the first attempt, with the caller's nonce
      if there is one, and otherwise with the pending count just read. */
  lemma LoopStartsWith(o: Options, l: Entries, trace: seq<Action>, a: Action)
    requires IsTrace(o, START, l, trace) && !InLoop(End(o, START, l, trace).worker.pc)
    requires var c := End(o, START, l, trace); Next(o, c.worker, c.ledger, a).Some?
    ensures var c := End(o, START, l, trace);
            var n := Next(o, c.worker, c.ledger, a).value.worker;
            InLoop(n.pc) ==>
              && n.pc == Pc.Lookup(0)
              && n.pinnedNonce == n.contextNonce
              && if o.requestedNonce.Some? then n.contextNonce == o.requestedNonce.value
                 else a == ReadPending(n.contextNonce)
  {
    ReadsOnlyWithoutNonce(o, START, l, trace);
  }
}
